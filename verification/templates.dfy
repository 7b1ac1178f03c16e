/** The file-system template catalogue of the user backend
    (user_backend/app/api/v1/templates.py): metadata with its fallback, the
    filtered, sorted and paged listing, the preview's choice of a frontend
    and a backend file, and the rules deciding which files a download
    carries. A template directory is given by its name and what reading its
    `template.json` gave; configuration values are kept as text. */
module Templates {
  import opened Wrappers
  import opened Text
  import opened Seqs
  import opened Sorting
  import Files

  /** `ProjectTemplateOutSchema`, the fields the endpoints read. */
  datatype Template = Template(id: string, name: string, description: string, projectType: string,
                               category: string, isFeatured: bool, isPublic: bool, usageCount: int,
                               config: map<string, string>, tokens: seq<string>)

  /** What reading `template.json` gave: no file, a valid record, or a file
      that did not decode or did not fit the schema. */
  datatype MetadataFile = NoFile | Valid(template: Template) | Invalid

  /** An entry of the templates directory. */
  datatype Entry = Entry(name: string, isDir: bool, metadata: MetadataFile)

  // ----- get_template_metadata -----

  /** The display name inferred from a directory name: underscores become
      spaces, then `title()`. */
  function DisplayName(dirName: string): (n: string)
    ensures |n| == |dirName|
    ensures '_' !in n
    ensures forall i :: 0 <= i < |n| ==> ToLower(n[i]) == ToLower(ReplaceChar(dirName, '_', ' ')[i])
    // `title()`: a letter after a letter is lower-cased, every other character upper-cased
    ensures var spaced := ReplaceChar(dirName, '_', ' ');
            forall i :: 0 <= i < |n| ==>
              n[i] == (if i > 0 && IsAlpha(spaced[i - 1]) then ToLower(spaced[i]) else ToUpper(spaced[i]))
  {
    var spaced := ReplaceChar(dirName, '_', ' ');
    var n := Title(spaced);
    forall i | 0 <= i < |n|
      ensures ToLower(n[i]) == ToLower(spaced[i]) && n[i] != '_'
      ensures n[i] == (if i > 0 && IsAlpha(spaced[i - 1]) then ToLower(spaced[i]) else ToUpper(spaced[i]))
    {
      if i > 0 && IsAlpha(spaced[i - 1]) {
        assert n[i] == ToLower(spaced[i]);
      } else {
        assert n[i] == ToUpper(spaced[i]);
      }
    }
    n
  }

  /** A display name is already title-cased: `title()` leaves it as it is. */
  lemma DisplayNameTitled(dirName: string)
    ensures Title(DisplayName(dirName)) == DisplayName(dirName)
  {
    var spaced := ReplaceChar(dirName, '_', ' ');
    var n := DisplayName(dirName);
    var t := Title(n);
    forall i | 0 <= i < |n|
      ensures t[i] == n[i]
    {
      CaseStable(spaced[i]);
      if i > 0 {
        CaseStable(spaced[i - 1]);
        assert IsAlpha(n[i - 1]) == IsAlpha(spaced[i - 1]);
      }
    }
  }

  /** Changing a character's case keeps it a letter or not, and changing it
      again the same way does nothing more. */
  lemma CaseStable(c: char)
    ensures IsAlpha(ToLower(c)) == IsAlpha(c) && IsAlpha(ToUpper(c)) == IsAlpha(c)
    ensures ToLower(ToLower(c)) == ToLower(c) && ToUpper(ToUpper(c)) == ToUpper(c)
  {
  }

  /** The record inferred for a directory without `template.json`. */
  function Fallback(dirName: string): (t: Template)
    ensures t.id == dirName && t.name == DisplayName(dirName) && t.description == t.name + " template"
    ensures t.projectType == "web_app" && t.category == "utility"
    ensures !t.isFeatured && t.isPublic && t.usageCount == 0 && t.config == map[] && t.tokens == []
  {
    var name := DisplayName(dirName);
    Template(dirName, name, name + " template", "web_app", "utility", false, true, 0, map[], [])
  }

  /** `get_template_metadata`: the file's record, the fallback when there is
      no file, nothing when the file is unusable. */
  function Metadata(e: Entry): (r: Option<Template>)
    ensures e.metadata.NoFile? ==> r == Some(Fallback(e.name))
    ensures e.metadata.Valid? ==> r == Some(e.metadata.template)
    ensures r.None? <==> e.metadata.Invalid?
  {
    match e.metadata
    case NoFile => Some(Fallback(e.name))
    case Valid(t) => Some(t)
    case Invalid => None
  }

  // ----- list_templates -----

  /** The query filters; each excludes only when it is set. */
  datatype Filters = Filters(projectType: Option<string>, category: Option<string>, featuredOnly: bool)

  predicate Passes(f: Filters, t: Template) {
    && (f.projectType.None? || t.projectType == f.projectType.value)
    && (f.category.None? || t.category == f.category.value)
    && (!f.featuredOnly || t.isFeatured)
  }

  /** An entry the directory scan keeps: a directory whose name does not
      start with '.', with usable metadata that passes the filters. */
  predicate Keeps(f: Filters, e: Entry) {
    e.isDir && !StartsWith(e.name, ".") && Metadata(e).Some? && Passes(f, Metadata(e).value)
  }

  /** The templates the directory scan keeps, in directory order: the
      metadata of the kept entries and of no others (`ScanAppend` and
      `ScanOne` give the exact order). */
  function Scan(entries: seq<Entry>, f: Filters): (r: seq<Template>)
    ensures |r| <= |entries|
    ensures forall t :: t in r ==> Passes(f, t)
    ensures forall e :: e in entries && Keeps(f, e) ==> Metadata(e).value in r
    ensures forall t :: t in r ==> exists e :: e in entries && Keeps(f, e) && Metadata(e) == Some(t)
  {
    if |entries| == 0 then []
    else
      var e := entries[0];
      var rest := Scan(entries[1..], f);
      assert forall x :: x in entries ==> x == e || x in entries[1..];
      assert forall x :: x in entries[1..] ==> x in entries;
      if Keeps(f, e) then
        [Metadata(e).value] + rest
      else rest
  }

  /** Scanning one entry gives its metadata exactly when the scan keeps it. */
  lemma ScanOne(e: Entry, f: Filters)
    ensures Scan([e], f) == if Keeps(f, e) then [Metadata(e).value] else []
  {
    assert [e][1..] == [];
  }

  /** The scan goes through the directory in order: the scan of two runs of
      entries is the scan of the first followed by that of the second. */
  lemma {:induction false} ScanAppend(a: seq<Entry>, b: seq<Entry>, f: Filters)
    ensures Scan(a + b, f) == Scan(a, f) + Scan(b, f)
  {
    if |a| > 0 {
      assert (a + b)[0] == a[0];
      assert (a + b)[1..] == a[1..] + b;
      ScanAppend(a[1..], b, f);
    } else {
      assert a + b == b;
    }
  }

  /** Hidden entries, plain files and directories with unreadable metadata
      are skipped, wherever they stand. */
  lemma ScanSkips(a: seq<Entry>, e: Entry, b: seq<Entry>, f: Filters)
    requires !e.isDir || StartsWith(e.name, ".") || e.metadata.Invalid?
    ensures Scan(a + [e] + b, f) == Scan(a + b, f)
  {
    ScanAppend(a + [e], b, f);
    ScanAppend(a, [e], f);
    ScanAppend(a, b, f);
    ScanOne(e, f);
  }

  /** The sort key: usage, most used first. */
  function Usage(t: Template): int { t.usageCount }

  /** `list_templates`: scan, sort by usage (most used first, ties in scan
      order), then the page `[offset, offset + limit)`. A missing templates
      directory lists nothing. */
  function ListTemplates(dirExists: bool, entries: seq<Entry>, f: Filters, limit: nat, offset: nat)
    : (r: seq<Template>)
    ensures forall i :: 0 <= i < |r| ==> Passes(f, r[i])
    ensures forall i, j :: 0 <= i < j < |r| ==> r[i].usageCount >= r[j].usageCount
    ensures !dirExists ==> r == []
    ensures dirExists ==> var scanned := Scan(entries, f);
      && r == Slice(SortBy(Negated(Usage), scanned), offset, offset + limit)
      && |r| == PageLength(|scanned|, offset, limit)
      && multiset(r) <= multiset(scanned)
      && (forall i :: 0 <= i < |r| ==> r[i] in scanned)
      && (offset == 0 ==>
            forall i :: 0 <= i < |r| ==>
              forall t :: t in multiset(scanned) - multiset(r) ==> r[i].usageCount >= t.usageCount)
  {
    if !dirExists then []
    else
      DescendingPage(Usage, Scan(entries, f), offset, limit)
  }

  /** The first page opens with a most-used scanned template. */
  lemma MostUsedFirst(entries: seq<Entry>, f: Filters, limit: nat, t: Template)
    requires t in Scan(entries, f) && limit > 0
    ensures var r := ListTemplates(true, entries, f, limit, 0);
      |r| > 0 && r[0].usageCount >= t.usageCount
  {
    FirstPageLeads(Negated(Usage), Scan(entries, f), limit, t);
  }

  /** Unset filters exclude nothing: with none given, the first page large
      enough holds every usable visible template. */
  lemma {:induction false} NoFiltersListAll(entries: seq<Entry>, e: Entry)
    requires e in entries && e.isDir && !StartsWith(e.name, ".") && Metadata(e).Some?
    ensures Metadata(e).value in ListTemplates(true, entries, Filters(None, None, false), |entries|, 0)
  {
    var scanned := Scan(entries, Filters(None, None, false));
    assert Metadata(e).value in multiset(scanned);
  }

  // ----- get_template_preview -----

  /** A file under a template, with its text (`None` when it does not decode). */
  datatype SourceFile = SourceFile(path: string, content: Option<string>)

  /** The suffixes the preview reads. */
  const TextSuffixes: seq<string> := [".js", ".py", ".html", ".css", ".json", ".md", ".txt", ".pseudo"]

  /** A file whose text the preview holds. */
  predicate IsText(f: SourceFile) {
    Lower(Files.Suffix(f.path)) in TextSuffixes && f.content.Some?
  }

  /** The frontend rule: a well-known entry script, or "frontend" in the name
      or in the path. */
  predicate IsFrontend(path: string) {
    var name := Lower(Files.BaseName(path));
    name in ["app.js", "index.js", "main.js", "frontend.js"] || Contains(name, "frontend")
    || Contains(Lower(path), "frontend")
  }

  /** The backend rule: a well-known server script, or "backend", "server" or
      "handler" in the name. */
  predicate IsBackend(path: string) {
    var name := Lower(Files.BaseName(path));
    name in ["server.js", "handlers.js", "backend.js", "api.js"] || Contains(name, "backend")
    || Contains(name, "server") || Contains(name, "handler")
  }

  /** The text a slot shows for a file. */
  function SlotText(f: SourceFile): (s: string)
    ensures |s| > 0
  {
    "// File: " + f.path + "\n" + (if f.content.Some? then f.content.value else "")
  }

  /** A file that may fill a slot under the rule `p`: a text file `p` accepts. */
  function Candidate(p: SourceFile -> bool): SourceFile -> bool {
    f => IsText(f) && p(f)
  }

  /** The slot text of the first text file satisfying `p`; "" when none. */
  function FirstSlot(files: seq<SourceFile>, p: SourceFile -> bool): (r: string)
    ensures r == "" <==> forall i :: 0 <= i < |files| ==> !Candidate(p)(files[i])
    ensures r != "" ==> exists i :: 0 <= i < |files| && Candidate(p)(files[i]) && r == SlotText(files[i])
                                  && forall j :: 0 <= j < i ==> !Candidate(p)(files[j])
  {
    match FirstIndexWhere(files, Candidate(p))
    case None => ""
    case Some(i) => SlotText(files[i])
  }

  /** The two slots the scan fills: the first frontend file, and the first
      backend file among those that are not frontend files. */
  function PreviewSlots(files: seq<SourceFile>): (r: (string, string))
    ensures r.0 == FirstSlot(files, (f: SourceFile) => IsFrontend(f.path))
    ensures r.1 == FirstSlot(files, (f: SourceFile) => !IsFrontend(f.path) && IsBackend(f.path))
  {
    (FirstSlot(files, (f: SourceFile) => IsFrontend(f.path)),
     FirstSlot(files, (f: SourceFile) => !IsFrontend(f.path) && IsBackend(f.path)))
  }

  /** The preview after the fallbacks: a JavaScript file without "server" in
      its path for an empty frontend slot, a file whose path names a server,
      handler, backend or api for an empty backend slot. */
  function Preview(files: seq<SourceFile>): (r: (string, string))
    ensures PreviewSlots(files).0 != "" ==> r.0 == PreviewSlots(files).0
    ensures PreviewSlots(files).1 != "" ==> r.1 == PreviewSlots(files).1
    ensures PreviewSlots(files).0 == "" ==>
              r.0 == FirstSlot(files, (f: SourceFile) => EndsWith(f.path, ".js") && !Contains(Lower(f.path), "server"))
    ensures PreviewSlots(files).1 == "" ==>
              r.1 == FirstSlot(files, (f: SourceFile) => Contains(Lower(f.path), "server") || Contains(Lower(f.path), "handler")
                                                         || Contains(Lower(f.path), "backend") || Contains(Lower(f.path), "api"))
  {
    var (front, back) := PreviewSlots(files);
    var front' := if front != "" then front
                  else FirstSlot(files, (f: SourceFile) => EndsWith(f.path, ".js") && !Contains(Lower(f.path), "server"));
    var back' := if back != "" then back
                 else FirstSlot(files, (f: SourceFile) => Contains(Lower(f.path), "server") || Contains(Lower(f.path), "handler")
                                                          || Contains(Lower(f.path), "backend") || Contains(Lower(f.path), "api"));
    (front', back')
  }

  /** In the scan a frontend file never fills the backend slot, even when its
      name also reads as a backend file. */
  lemma {:induction false} FrontendNotBackend(files: seq<SourceFile>)
    ensures PreviewSlots(files).1 != "" ==>
              exists i :: 0 <= i < |files| && IsText(files[i]) && !IsFrontend(files[i].path)
                          && PreviewSlots(files).1 == SlotText(files[i])
  {
  }

  // ----- downloads -----

  /** `EXCLUDE_PATTERNS`; the glob entries only ever match a part spelled
      exactly so, the suffix test below does the real work. */
  const ExcludePatterns: set<string> := {"node_modules", ".git", ".vscode", "__pycache__", ".pytest_cache",
                                         "venv", "env", ".env", "dist", "build", ".next", "coverage",
                                         ".coverage", ".DS_Store", "Thumbs.db", "*.log", "*.tmp", "*.cache"}

  /** `MaxArchiveFileSize`: 10 MiB. */
  const MaxArchiveFileSize: int := 10 * 1024 * 1024

  /** A part of a path that excludes its file. */
  predicate ExcludedPart(part: string) {
    part in ExcludePatterns || EndsWith(part, ".log") || EndsWith(part, ".cache") || EndsWith(part, ".tmp")
  }

  /** `should_exclude` on the parts of a file's path; `size` is `None` when
      `stat` fails. */
  function ShouldExclude(parts: seq<string>, size: Option<int>): (b: bool)
    ensures b <==> (exists i :: 0 <= i < |parts| && ExcludedPart(parts[i]))
                   || (size.Some? && size.value > MaxArchiveFileSize)
  {
    if |parts| > 0 && ExcludedPart(parts[0]) then true
    else if |parts| > 0 then
      var b := ShouldExclude(parts[1..], size);
      assert forall i :: 1 <= i < |parts| ==> parts[i] == parts[1..][i - 1];
      assert (exists i :: 0 <= i < |parts[1..]| && ExcludedPart(parts[1..][i])) ==>
             (exists i :: 0 <= i < |parts| && ExcludedPart(parts[i])) by {
        if i :| 0 <= i < |parts[1..]| && ExcludedPart(parts[1..][i]) {
          assert ExcludedPart(parts[i + 1]);
        }
      }
      b
    else size.Some? && size.value > MaxArchiveFileSize
  }

  /** One excluded directory anywhere on the path excludes every file below it. */
  lemma ExclusionInherited(dir: seq<string>, below: seq<string>, size: Option<int>)
    requires ShouldExclude(dir, None)
    ensures ShouldExclude(dir + below, size)
  {
    var i :| 0 <= i < |dir| && ExcludedPart(dir[i]);
    assert (dir + below)[i] == dir[i];
  }

  /** The include rule of the advanced download, on the file's path. */
  function Included(path: string, includeDocs: bool, includeConfig: bool): (b: bool)
    ensures !b <==> (!includeDocs && Lower(Files.Suffix(path)) in [".md", ".txt", ".rst"])
                    || (!includeConfig && Lower(Files.BaseName(path)) in ["config.json", ".env", "settings.py"])
  {
    var afterDocs := !(!includeDocs && Lower(Files.Suffix(path)) in [".md", ".txt", ".rst"]);
    if !includeConfig && Lower(Files.BaseName(path)) in ["config.json", ".env", "settings.py"] then false else afterDocs
  }

  /** With both options on, nothing is filtered. */
  lemma IncludeEverything(path: string)
    ensures Included(path, true, true)
  {
  }
}
