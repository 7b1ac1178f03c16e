/** The token endpoints of the user backend
    (user_backend/app/api/v1/core/endpoints/tokens.py): checking a token
    combination against the token definitions, and suggesting tokens for a
    project description. The definitions table is a map from token to its
    dependencies and conflicts. */
module TokenEndpoints {
  import opened Wrappers
  import opened Text
  import opened Seqs

  /** The parts of a `TokenDefinition` the check reads. */
  datatype TokenDef = TokenDef(dependencies: seq<string>, conflictsWith: seq<string>)

  type Definitions = map<string, TokenDef>

  /** `TokenValidationResultSchema` */
  datatype Validation = Validation(isValid: bool, errors: seq<string>, warnings: seq<string>,
                                   suggestions: seq<string>, missingDependencies: set<string>,
                                   conflicts: seq<string>)

  /** The pairs `(t, x)` for every `x` in `xs`, in order. */
  function Pairs(t: string, xs: seq<string>): (r: seq<(string, string)>)
    ensures |r| == |xs|
    ensures forall i :: 0 <= i < |r| ==> r[i] == (t, xs[i])
    ensures forall p :: p in r <==> p.0 == t && p.1 in xs
  {
    seq(|xs|, i requires 0 <= i < |xs| => (t, xs[i]))
  }

  /** The input tokens without a definition, in input order. */
  function Unknown(tokens: seq<string>, defs: Definitions): (r: seq<string>)
    ensures forall t :: t in r <==> t in tokens && t !in defs
  {
    Filter((t: string) => t !in defs, tokens)
  }

  /** For each defined token in input order, its dependencies that are not in
      the input, as (token, dependency) pairs. */
  function MissingPairs(ts: seq<string>, tokens: seq<string>, defs: Definitions): (r: seq<(string, string)>)
    ensures forall p :: p in r <==> p.0 in ts && p.0 in defs && p.1 in defs[p.0].dependencies && p.1 !in tokens
  {
    if |ts| == 0 then []
    else
      var here := if ts[0] in defs then Pairs(ts[0], Filter((d: string) => d !in tokens, defs[ts[0]].dependencies)) else [];
      var rest := MissingPairs(ts[1..], tokens, defs);
      assert forall t :: t in ts <==> t == ts[0] || t in ts[1..];
      here + rest
  }

  /** For each defined token in input order, its declared conflicts that are in
      the input, as (token, conflict) pairs. */
  function ConflictPairs(ts: seq<string>, tokens: seq<string>, defs: Definitions): (r: seq<(string, string)>)
    ensures forall p :: p in r <==> p.0 in ts && p.0 in defs && p.1 in defs[p.0].conflictsWith && p.1 in tokens
  {
    if |ts| == 0 then []
    else
      var here := if ts[0] in defs then Pairs(ts[0], Filter((c: string) => c in tokens, defs[ts[0]].conflictsWith)) else [];
      var rest := ConflictPairs(ts[1..], tokens, defs);
      assert forall t :: t in ts <==> t == ts[0] || t in ts[1..];
      here + rest
  }

  function NotFoundMessage(t: string): string { "Token '" + t + "' does not exist" }

  function SuggestionMessage(p: (string, string)): string {
    "Consider adding '" + p.1 + "' as it's required by '" + p.0 + "'"
  }

  function ConflictMessage(p: (string, string)): string {
    "Token '" + p.0 + "' conflicts with '" + p.1 + "'"
  }

  /** `[f(x) for x in xs]` */
  function Map<A, B>(f: A -> B, xs: seq<A>): (r: seq<B>)
    ensures |r| == |xs|
    ensures forall i :: 0 <= i < |xs| ==> r[i] == f(xs[i])
  {
    seq(|xs|, i requires 0 <= i < |xs| => f(xs[i]))
  }

  /** `validate_tokens` */
  function ValidateTokens(tokens: seq<string>, defs: Definitions): (v: Validation)
    // one error per unknown input token, in input order
    ensures v.errors == Map(NotFoundMessage, Unknown(tokens, defs))
    // each missing dependency is listed and suggested once per requiring occurrence
    ensures v.suggestions == Map(SuggestionMessage, MissingPairs(tokens, tokens, defs))
    ensures forall d :: d in v.missingDependencies <==>
              exists t :: t in tokens && t in defs && d in defs[t].dependencies && d !in tokens
    ensures v.conflicts == Map(ConflictMessage, ConflictPairs(tokens, tokens, defs))
    ensures v.warnings == []
    ensures v.isValid <==> (forall t :: t in tokens ==> t in defs) && ConflictPairs(tokens, tokens, defs) == []
  {
    var unknown := Unknown(tokens, defs);
    var missing := MissingPairs(tokens, tokens, defs);
    var conflicting := ConflictPairs(tokens, tokens, defs);
    var missingDeps := set p | p in missing :: p.1;
    assert forall d :: d in missingDeps <==>
              exists t :: t in tokens && t in defs && d in defs[t].dependencies && d !in tokens by {
      forall d | d in missingDeps
        ensures exists t :: t in tokens && t in defs && d in defs[t].dependencies && d !in tokens
      {
        var p :| p in missing && p.1 == d;
        assert p.0 in tokens;
      }
      forall d | exists t :: t in tokens && t in defs && d in defs[t].dependencies && d !in tokens
        ensures d in missingDeps
      {
        var t :| t in tokens && t in defs && d in defs[t].dependencies && d !in tokens;
        assert (t, d) in missing;
      }
    }
    assert unknown == [] <==> forall t :: t in tokens ==> t in defs by {
      if unknown != [] {
        assert unknown[0] in unknown;
      }
    }
    var errors := Map(NotFoundMessage, unknown);
    var conflicts := Map(ConflictMessage, conflicting);
    Validation(|errors| == 0 && |conflicts| == 0, errors, [], Map(SuggestionMessage, missing),
               missingDeps, conflicts)
  }

  /** Missing dependencies never make a combination invalid: validity does not
      depend on the dependency lists at all. */
  lemma DependenciesNeverInvalidate(tokens: seq<string>, defs: Definitions, defs': Definitions)
    requires defs.Keys == defs'.Keys
    requires forall t :: t in defs ==> defs[t].conflictsWith == defs'[t].conflictsWith
    ensures ValidateTokens(tokens, defs).isValid == ValidateTokens(tokens, defs').isValid
  {
    var a := ConflictPairs(tokens, tokens, defs);
    var b := ConflictPairs(tokens, tokens, defs');
    assert a == [] <==> b == [] by {
      if a != [] { assert a[0] in b; }
      if b != [] { assert b[0] in a; }
    }
  }

  // ----- suggest_tokens -----

  /** `keywords_to_tokens`, in its insertion order. */
  const Keywords: seq<(string, seq<string>)> := [
    ("login", ["l"]), ("register", ["r"]), ("auth", ["l", "r", "o"]), ("user", ["m", "u"]),
    ("session", ["s", "t"]), ("logout", ["o"]), ("profile", ["m", "u"])]

  /** The tokens of the keywords occurring in `text`, keyword by keyword. */
  function KeywordTokensFrom(text: string, table: seq<(string, seq<string>)>): (r: seq<string>)
    ensures forall x :: x in r <==> exists k :: 0 <= k < |table| && Contains(text, table[k].0) && x in table[k].1
  {
    if |table| == 0 then []
    else
      var rest := KeywordTokensFrom(text, table[1..]);
      assert forall k :: 1 <= k < |table| ==> table[k] == table[1..][k - 1];
      (if Contains(text, table[0].0) then table[0].1 else []) + rest
  }

  /** The keyword part of `suggest_tokens`: the description is lower-cased and
      searched for each keyword. */
  function KeywordTokens(description: Option<string>): (r: seq<string>)
    ensures description.None? ==> r == []
    ensures description.Some? ==>
              forall x :: x in r <==> exists k :: 0 <= k < |Keywords| && Contains(Lower(description.value), Keywords[k].0)
                                                  && x in Keywords[k].1
  {
    if description.None? || description.value == "" then []
    else KeywordTokensFrom(Lower(description.value), Keywords)
  }

  /** Every keyword suggestion is one of the seven tokens the table names. */
  lemma KeywordTokensBounded(description: Option<string>)
    ensures forall x :: x in KeywordTokens(description) ==> x in {"l", "r", "o", "m", "u", "s", "t"}
  {
    TableTokens();
  }

  /** The seven tokens are all the table suggests. */
  lemma TableTokens()
    ensures forall k, x :: 0 <= k < |Keywords| && x in Keywords[k].1 ==> x in {"l", "r", "o", "m", "u", "s", "t"}
  {
    forall k, x | 0 <= k < |Keywords| && x in Keywords[k].1
      ensures x in {"l", "r", "o", "m", "u", "s", "t"}
    {
      assert Keywords[k].1 in [["l"], ["r"], ["l", "r", "o"], ["m", "u"], ["s", "t"], ["o"]];
    }
  }

  /** The candidates `suggest_tokens` collects: keyword tokens and the tokens of
      the popular combinations, minus the existing ones. */
  function Candidates(description: Option<string>, popular: seq<seq<string>>, existing: seq<string>): set<string> {
    (set x | x in KeywordTokens(description)) + (set c, x | c in popular && x in c :: x) - (set x | x in existing)
  }

  /** `suggest_tokens`. Python lists the deduplicated set in an order of its own,
      given here as `listing`; the answer is its first ten. */
  function SuggestTokens(description: Option<string>, popular: seq<seq<string>>, existing: seq<string>,
                         listing: seq<string>): (r: seq<string>)
    requires NoDup(listing)
    requires forall x :: x in listing <==> x in Candidates(description, popular, existing)
    ensures |r| <= 10
    ensures NoDup(r)
    ensures forall x :: x in r ==> x !in existing
    ensures forall x :: x in r ==> x in KeywordTokens(description) || exists c :: c in popular && x in c
    ensures |listing| <= 10 ==> forall x :: x in r <==> x in Candidates(description, popular, existing)
  {
    var r := if |listing| <= 10 then listing else listing[..10];
    assert forall x :: x in r ==> x in listing;
    assert NoDup(r) by {
      forall i, j | 0 <= i < j < |r|
        ensures r[i] != r[j]
      {
        assert r[i] == listing[i] && r[j] == listing[j];
      }
    }
    r
  }
}
