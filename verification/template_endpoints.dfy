/** The database-backed template endpoints of the user backend
    (user_backend/app/api/v1/core/endpoints/templates.py): listing the public
    templates and creating a project from one. */
module TemplateEndpoints {
  import opened Wrappers
  import opened Seqs
  import opened Sorting

  /** A row of `project_templates`; configuration values are kept as text. */
  datatype StoredTemplate = StoredTemplate(id: int, description: string, projectType: string, category: string,
                                           isPublic: bool, isFeatured: bool, usageCount: int,
                                           config: map<string, string>, tokens: seq<string>)

  /** The project a template use creates. */
  datatype Project = Project(name: string, description: string, projectType: string, tokens: seq<string>,
                             config: map<string, string>, userId: int)

  // ----- list_templates -----

  /** The `where` clauses: public, and the type and featured filters when set. */
  predicate Selected(t: StoredTemplate, projectType: Option<string>, featuredOnly: bool) {
    t.isPublic && (projectType.None? || t.projectType == projectType.value) && (!featuredOnly || t.isFeatured)
  }

  /** The `where` clauses as a filter. */
  function Selection(projectType: Option<string>, featuredOnly: bool): StoredTemplate -> bool {
    t => Selected(t, projectType, featuredOnly)
  }

  /** The sort key: usage, most used first. */
  function Usage(t: StoredTemplate): int { t.usageCount }

  /** `list_templates`: the selected rows by usage, most used first, then
      `offset` rows skipped and at most `limit` kept. The database orders
      ties as it likes; table order is one of the orders it may pick.
      `category` is accepted and not used. */
  function ListTemplates(table: seq<StoredTemplate>, projectType: Option<string>, category: Option<string>,
                         featuredOnly: bool, limit: nat, offset: nat): (r: seq<StoredTemplate>)
    ensures var selected := Filter(Selection(projectType, featuredOnly), table);
      && r == Slice(SortBy(Negated(Usage), selected), offset, offset + limit)
      && |r| == PageLength(|selected|, offset, limit)
      && multiset(r) <= multiset(selected)
      && (offset == 0 ==>
            forall i :: 0 <= i < |r| ==>
              forall t :: t in multiset(selected) - multiset(r) ==> r[i].usageCount >= t.usageCount)
    ensures forall i :: 0 <= i < |r| ==> r[i] in table && Selected(r[i], projectType, featuredOnly)
    ensures forall i, j :: 0 <= i < j < |r| ==> r[i].usageCount >= r[j].usageCount
  {
    DescendingPage(Usage, Filter(Selection(projectType, featuredOnly), table), offset, limit)
  }

  /** The first page opens with a most-used selected template. */
  lemma MostUsedFirst(table: seq<StoredTemplate>, projectType: Option<string>, category: Option<string>,
                      featuredOnly: bool, limit: nat, t: StoredTemplate)
    requires t in table && Selected(t, projectType, featuredOnly) && limit > 0
    ensures var r := ListTemplates(table, projectType, category, featuredOnly, limit, 0);
      |r| > 0 && r[0].usageCount >= t.usageCount
  {
    var selected := Filter(Selection(projectType, featuredOnly), table);
    assert t in selected;
    FirstPageLeads(Negated(Usage), selected, limit, t);
  }

  /** The category parameter changes nothing. */
  lemma CategoryIgnored(table: seq<StoredTemplate>, projectType: Option<string>, c1: Option<string>,
                        c2: Option<string>, featuredOnly: bool, limit: nat, offset: nat)
    ensures ListTemplates(table, projectType, c1, featuredOnly, limit, offset)
         == ListTemplates(table, projectType, c2, featuredOnly, limit, offset)
  {
  }

  /** A private template is never listed, whatever the filters. */
  lemma PrivateNeverListed(table: seq<StoredTemplate>, projectType: Option<string>, category: Option<string>,
                           featuredOnly: bool, limit: nat, offset: nat, t: StoredTemplate)
    requires !t.isPublic
    ensures t !in ListTemplates(table, projectType, category, featuredOnly, limit, offset)
  {
  }

  // ----- use_template -----

  /** `project_description or template.description` */
  function DescriptionOr(given: Option<string>, fallback: string): (d: string)
    ensures given.Some? && given.value != "" ==> d == given.value
    ensures given.None? || given.value == "" ==> d == fallback
  {
    if given.Some? && given.value != "" then given.value else fallback
  }

  /** The project configuration: the template's, with a non-empty
      customisation laid over it key by key. */
  function MergedConfig(base: map<string, string>, custom: Option<map<string, string>>): (c: map<string, string>)
    ensures c.Keys == base.Keys + (if custom.Some? then custom.value.Keys else {})
    ensures forall k :: custom.Some? && k in custom.value ==> c[k] == custom.value[k]
    ensures forall k :: k in base && (custom.None? || k !in custom.value) ==> c[k] == base[k]
  {
    if custom.Some? && custom.value != map[] then base + custom.value else base
  }

  /** `use_template`: the template with that id, or 404; a project owned by
      the user, and the template's usage count up by one. The template's own
      configuration and tokens are copied, not shared, and stay as they were. */
  function UseTemplate(table: seq<StoredTemplate>, templateId: int, projectName: string,
                       projectDescription: Option<string>, custom: Option<map<string, string>>, userId: int)
    : (r: Result<(Project, seq<StoredTemplate>), HttpError>)
    ensures r.Err? <==> forall i :: 0 <= i < |table| ==> table[i].id != templateId
    ensures r.Err? ==> r.error == HttpError(404, "Template not found")
    ensures r.Ok? ==> var (p, table') := r.value;
              var t := FirstWhere(table, (t: StoredTemplate) => t.id == templateId).value;
              && p.name == projectName && p.userId == userId
              && p.description == DescriptionOr(projectDescription, t.description)
              && p.projectType == t.projectType && p.tokens == t.tokens
              && p.config == MergedConfig(t.config, custom)
              && |table'| == |table|
              && forall i :: 0 <= i < |table| ==>
                   table'[i] == if table[i].id == templateId then table[i].(usageCount := table[i].usageCount + 1)
                                else table[i]
  {
    match FirstWhere(table, (t: StoredTemplate) => t.id == templateId)
    case None => Err(HttpError(404, "Template not found"))
    case Some(t) =>
      var p := Project(projectName, DescriptionOr(projectDescription, t.description), t.projectType, t.tokens,
                       MergedConfig(t.config, custom), userId);
      Ok((p, Bump(table, templateId)))
  }

  /** `template.usage_count += 1` on the row with that id. Every row carrying
      the id gains one use; `id` is the table's primary key, so in the
      database that is the one row `UseTemplate` found. */
  function Bump(table: seq<StoredTemplate>, templateId: int): (r: seq<StoredTemplate>)
    ensures |r| == |table|
    ensures forall i :: 0 <= i < |table| ==>
              r[i] == if table[i].id == templateId then table[i].(usageCount := table[i].usageCount + 1) else table[i]
  {
    seq(|table|, i requires 0 <= i < |table| =>
      if table[i].id == templateId then table[i].(usageCount := table[i].usageCount + 1) else table[i])
  }

  /** Every successful use counts once: two uses add two, and the template's
      configuration and tokens never change. */
  lemma {:induction false} UsesCounted(table: seq<StoredTemplate>, templateId: int, name1: string, name2: string,
                                       d1: Option<string>, d2: Option<string>, c1: Option<map<string, string>>,
                                       c2: Option<map<string, string>>, userId: int, i: nat)
    requires i < |table| && table[i].id == templateId
    ensures var once := UseTemplate(table, templateId, name1, d1, c1, userId);
      && once.Ok?
      && var twice := UseTemplate(once.value.1, templateId, name2, d2, c2, userId);
      && twice.Ok?
      && twice.value.1[i].usageCount == table[i].usageCount + 2
      && twice.value.1[i].config == table[i].config && twice.value.1[i].tokens == table[i].tokens
  {
    var once := UseTemplate(table, templateId, name1, d1, c1, userId);
    assert once.Ok?;
    var t1 := once.value.1;
    assert t1[i].id == templateId;
    var twice := UseTemplate(t1, templateId, name2, d2, c2, userId);
    assert twice.Ok?;
  }
}
