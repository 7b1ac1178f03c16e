/** The SEVDO backend translator (sevdo_backend/backend_compiler.py): a list of
    one-letter tokens becomes FastAPI endpoint source text, and the decorators
    found in a source text give the tokens back. */
module BackendCompiler {
  import opened Wrappers
  import opened Text
  import opened Seqs
  import opened Sorting
  import opened RouteTexts

  // ----- tokens_to_code -----

  /** `self.auth_endpoints`: the tokens whose code needs the shared preamble. */
  const AuthEndpoints: seq<string> := ["l", "r", "u", "o", "m", "t", "a", "s", "k"]

  predicate IsKnown(t: string) {
    RouteOf(t).Some?
  }

  /** `set(self.auth_endpoints) & set(tokens)` is non-empty. */
  predicate NeedsAuth(tokens: seq<string>) {
    exists i :: 0 <= i < |tokens| && tokens[i] in AuthEndpoints
  }

  /** One emitted endpoint: `self.mapping[token] + "\n\n"`. */
  function Block(m: Texts, r: Route): string {
    m.Snippet(r) + "\n\n"
  }

  /** The loop of `tokens_to_code`: the block of every known token, in input order. */
  function EmitBlocks(m: Texts, tokens: seq<string>): string {
    if |tokens| == 0 then ""
    else
      var head := match RouteOf(tokens[0]) case Some(r) => Block(m, r) case None => "";
      head + EmitBlocks(m, tokens[1..])
  }

  /** `tokens_to_code`, for the translator texts `m` (`Mapping` in the service). */
  function TokensToCode(m: Texts, tokens: seq<string>, includeImports: bool): string {
    var preamble := if includeImports && NeedsAuth(tokens) then m.AuthImports() else "";
    preamble + EmitBlocks(m, tokens)
  }

  /** The tokens' routes, unknown tokens dropped, repeats kept. */
  function KnownRoutes(tokens: seq<string>): (rs: seq<Route>)
    ensures TokensOf(rs) == Filter(IsKnown, tokens)
  {
    if |tokens| == 0 then []
    else
      match RouteOf(tokens[0])
      case Some(r) => [r] + KnownRoutes(tokens[1..])
      case None => KnownRoutes(tokens[1..])
  }

  function TokensOf(rs: seq<Route>): (ts: seq<string>)
    ensures |ts| == |rs|
    ensures forall i :: 0 <= i < |rs| ==> ts[i] == Token(rs[i])
  {
    if |rs| == 0 then [] else [Token(rs[0])] + TokensOf(rs[1..])
  }

  /** The concatenated blocks of a list of routes. */
  function Blocks(m: Texts, rs: seq<Route>): string {
    if |rs| == 0 then "" else Block(m, rs[0]) + Blocks(m, rs[1..])
  }

  /** `tokens_to_code` emits one block per known token in input order,
      repeating duplicates and skipping unknown tokens. */
  lemma {:induction false} EmitBlocksKnown(m: Texts, tokens: seq<string>)
    ensures EmitBlocks(m, tokens) == Blocks(m, KnownRoutes(tokens))
  {
    if |tokens| > 0 {
      EmitBlocksKnown(m, tokens[1..]);
    }
  }

  /** The auth endpoints are exactly the mapping keys. */
  lemma AuthEndpointsAreKeys(t: string)
    ensures t in AuthEndpoints <==> IsKnown(t)
  {
  }

  /** Hence the preamble is needed exactly when some token is known. */
  lemma NeedsAuthIffKnown(tokens: seq<string>)
    ensures NeedsAuth(tokens) <==> |KnownRoutes(tokens)| > 0
  {
    var known := Filter(IsKnown, tokens);
    assert |KnownRoutes(tokens)| == |known|;
    if NeedsAuth(tokens) {
      var i :| 0 <= i < |tokens| && tokens[i] in AuthEndpoints;
      AuthEndpointsAreKeys(tokens[i]);
      assert tokens[i] in known;
    }
    if |known| > 0 {
      assert known[0] in tokens && IsKnown(known[0]);
      var i :| 0 <= i < |tokens| && tokens[i] == known[0];
      AuthEndpointsAreKeys(tokens[i]);
    }
  }

  /** The generated text: the preamble exactly when imports are asked for and
      some token is known, then one block per known token. */
  lemma TokensToCodeShape(m: Texts, tokens: seq<string>, includeImports: bool)
    ensures TokensToCode(m, tokens, includeImports)
         == (if includeImports && |KnownRoutes(tokens)| > 0 then m.AuthImports() else "")
            + Blocks(m, KnownRoutes(tokens))
  {
    EmitBlocksKnown(m, tokens);
    NeedsAuthIffKnown(tokens);
  }

  // ----- _build_route_index -----

  /** Python's `text.find(pat, start)`: the first index at or after `start`, or -1. */
  function PyFind(text: string, pat: string, start: nat): (r: int)
    ensures r == -1 || (start <= r && OccursAt(text, pat, r))
  {
    match FindFrom(text, pat, start)
    case Some(p) => p
    case None => -1
  }

  /** Python's `s[a:b]` for a non-negative `a`; a negative `b` counts from the end. */
  function PySlice(s: string, a: nat, b: int): string {
    var end := if b < 0 then b + |s| else b;
    Slice(s, a, if end < 0 then 0 else end)
  }

  /** A route's key in the reverse index: `(method.upper(), path)`. */
  type RouteKey = (string, string)

  /** What `_build_route_index` reads off one snippet: the decorator line from
      `@app.` to the next newline, then its key. `None` is the `continue`
      taken when the snippet has no `@app.`. */
  function DecoratorKey(snippet: string): Option<RouteKey> {
    var ds := PyFind(snippet, "@app.", 0);
    if ds == -1 then None
    else
      var le := PyFind(snippet, "\n", ds);
      LineKey(if le == -1 then snippet[ds..] else snippet[ds..le])
  }

  /** The method before `(`, upper-cased, and the path between the first two
      quotes after it. `None` stands for the exception branch, which a line
      starting with `@app.` never reaches. */
  function LineKey(line: string): Option<RouteKey> {
    match Find(line, "@app.")
    case None => None
    case Some(at) =>
      var afterApp := line[at + 5..];
      var verb := Strip(BeforeFirst(afterApp, '('));
      var fq := PyFind(line, "\"", PyFind(line, "(", 0) + 1);
      var sq := PyFind(line, "\"", fq + 1);
      Some((Upper(verb), PySlice(line, fq + 1, sq)))
  }

  /** Python dictionary assignment `index[k] = r`: an existing key keeps its
      place and takes the new value, a new key goes to the end. */
  function Upsert(idx: seq<(RouteKey, Route)>, k: RouteKey, r: Route): (res: seq<(RouteKey, Route)>)
    ensures (forall i :: 0 <= i < |idx| ==> idx[i].0 != k) ==> res == idx + [(k, r)]
    ensures (exists i :: 0 <= i < |idx| && idx[i].0 == k) ==> |res| == |idx|
  {
    if |idx| == 0 then [(k, r)]
    else if idx[0].0 == k then [(k, r)] + idx[1..]
    else [idx[0]] + Upsert(idx[1..], k, r)
  }

  function IndexFrom(m: Texts, rs: seq<Route>, idx: seq<(RouteKey, Route)>): seq<(RouteKey, Route)> {
    if |rs| == 0 then idx
    else
      var next := match DecoratorKey(m.Snippet(rs[0])) case Some(k) => Upsert(idx, k, rs[0]) case None => idx;
      IndexFrom(m, rs[1..], next)
  }

  /** `_build_route_index`: the snippets in dictionary order. */
  function BuildRouteIndex(m: Texts): seq<(RouteKey, Route)> {
    IndexFrom(m, Routes, [])
  }

  function KeyOf(m: Texts, r: Route): RouteKey {
    (Upper(m.verb(r)), m.path(r))
  }

  /** Every route with its own key, in the order given. */
  function Keyed(m: Texts, rs: seq<Route>): (idx: seq<(RouteKey, Route)>)
    ensures |idx| == |rs|
    ensures forall i :: 0 <= i < |rs| ==> idx[i] == (KeyOf(m, rs[i]), rs[i])
  {
    if |rs| == 0 then [] else [(KeyOf(m, rs[0]), rs[0])] + Keyed(m, rs[1..])
  }

  /** The decorator parse recovers the verb, upper-cased, and the path of any
      snippet of the form lead, decorator, body. */
  lemma ParseDecorator(lead: string, v: string, p: string, body: string)
    requires '@' !in lead
    requires |v| > 0 && NoSpace(v) && '(' !in v && '"' !in v && '\n' !in v
    requires '"' !in p && '\n' !in p
    requires |body| > 0 && body[0] == '\n'
    ensures DecoratorKey(lead + Decorator(v, p) + body) == Some((Upper(v), p))
  {
    FindDecoratorLine(lead, v, p, body);
    ParseLine(v, p);
  }

  /** The decorator line is cut out whole: from its `@` to the body's newline. */
  lemma FindDecoratorLine(lead: string, v: string, p: string, body: string)
    requires '@' !in lead
    requires '\n' !in v && '\n' !in p
    requires |body| > 0 && body[0] == '\n'
    ensures var s := lead + Decorator(v, p) + body;
      && PyFind(s, "@app.", 0) == |lead|
      && PyFind(s, "\n", |lead|) == |lead| + |Decorator(v, p)|
      && s[|lead|..|lead| + |Decorator(v, p)|] == Decorator(v, p)
  {
    var dec := Decorator(v, p);
    var s := lead + dec + body;
    var ds := |lead|;
    var n := |dec|;
    assert s[ds..ds + n] == dec;
    assert s[ds..ds + 5] == dec[..5] == "@app.";
    forall q | 0 <= q < ds
      ensures !OccursAt(s, "@app.", q)
    {
      assert s[q] == lead[q];
      assert q + 5 <= |s| ==> s[q..q + 5][0] == s[q];
    }
    FindIsFirst(s, "@app.", 0, ds);
    forall q | ds <= q < ds + n
      ensures s[q] != '\n'
    {
      assert s[q] == dec[q - ds];
    }
    assert s[ds + n] == body[0];
    FindChar(s, '\n', ds, ds + n);
  }

  lemma ParseLine(v: string, p: string)
    requires |v| > 0 && NoSpace(v) && '(' !in v && '"' !in v
    requires '"' !in p
    ensures LineKey(Decorator(v, p)) == Some((Upper(v), p))
  {
    var line := Decorator(v, p);
    LineVerb(v, p);
    LinePath(v, p);
    var fq := PyFind(line, "\"", PyFind(line, "(", 0) + 1);
    assert fq == 6 + |v|;
    var sq := PyFind(line, "\"", fq + 1);
    assert sq == 7 + |v| + |p|;
  }

  lemma LineVerb(v: string, p: string)
    requires |v| > 0 && NoSpace(v) && '(' !in v
    ensures var line := Decorator(v, p);
      Find(line, "@app.") == Some(0) && Strip(BeforeFirst(line[5..], '(')) == v
  {
    var line := Decorator(v, p);
    FindIsFirst(line, "@app.", 0, 0);
    assert line[5..] == v + ['('] + ("\"" + p + "\")");
    BeforeFirstOf(v, '(', "\"" + p + "\")");
    StripUntouched(v);
  }

  lemma LinePath(v: string, p: string)
    requires '(' !in v && '"' !in p
    ensures var line := Decorator(v, p);
      && PyFind(line, "(", 0) == 5 + |v|
      && PyFind(line, "\"", 6 + |v|) == 6 + |v|
      && PyFind(line, "\"", 7 + |v|) == 7 + |v| + |p|
      && PySlice(line, 7 + |v|, 7 + |v| + |p|) == p
  {
    var line := Decorator(v, p);
    forall q | 0 <= q < 5 + |v|
      ensures line[q] != '('
    {
      if q >= 5 {
        assert line[q] == v[q - 5];
      }
    }
    FindChar(line, '(', 0, 5 + |v|);
    FindChar(line, '"', 6 + |v|, 6 + |v|);
    forall q | 7 + |v| <= q < 7 + |v| + |p|
      ensures line[q] != '"'
    {
      assert line[q] == p[q - 7 - |v|];
    }
    FindChar(line, '"', 7 + |v|, 7 + |v| + |p|);
    assert line[7 + |v|..7 + |v| + |p|] == p;
  }

  /** The decorator lines of well-shaped texts are plain: non-empty
      lower-case verbs, no quotes, parentheses, newlines or '@'. */
  lemma RouteTextFacts(m: Texts, r: Route)
    requires m.DecoratorsShaped()
    ensures |m.verb(r)| > 0 && NoSpace(m.verb(r)) && forall i :: 0 <= i < |m.verb(r)| ==> IsLower(m.verb(r)[i])
    ensures '"' !in m.path(r) && '\n' !in m.path(r) && ')' !in m.path(r) && '@' !in m.path(r)
  {
    var p := m.path(r);
    assert forall i :: 0 <= i < |p| ==> PathChar(p[i]);
  }

  lemma VerbPlain(m: Texts, r: Route)
    requires m.DecoratorsShaped()
    ensures '(' !in m.verb(r) && '"' !in m.verb(r) && '\n' !in m.verb(r) && ')' !in m.verb(r) && '@' !in m.verb(r)
    ensures forall i :: 0 <= i < |m.verb(r)| ==> !IsUpper(m.verb(r)[i])
  {
    RouteTextFacts(m, r);
  }

  /** Distinct routes have distinct paths, hence distinct keys. */
  lemma KeyInjective(m: Texts, a: Route, b: Route)
    requires m.DecoratorsShaped()
    requires KeyOf(m, a) == KeyOf(m, b)
    ensures a == b
  {
    assert m.path(a) == m.path(b);
  }

  lemma SnippetKey(m: Texts, r: Route)
    requires m.SnippetsShaped() && m.DecoratorsShaped()
    ensures DecoratorKey(m.Snippet(r)) == Some(KeyOf(m, r))
  {
    RouteTextFacts(m, r);
    VerbPlain(m, r);
    ParseDecorator(m.lead(r), m.verb(r), m.path(r), m.body(r));
  }

  lemma {:induction false} IndexFromShape(m: Texts, rs: seq<Route>, idx: seq<(RouteKey, Route)>)
    requires m.SnippetsShaped() && m.DecoratorsShaped() && NoDup(rs)
    requires forall i, j :: 0 <= i < |idx| && 0 <= j < |rs| ==> idx[i].0 != KeyOf(m, rs[j])
    ensures IndexFrom(m, rs, idx) == idx + Keyed(m, rs)
    decreases |rs|
  {
    if |rs| > 0 {
      var next := idx + [(KeyOf(m, rs[0]), rs[0])];
      IndexFromStep(m, rs, idx);
      NextFresh(m, rs, idx);
      IndexFromShape(m, rs[1..], next);
      KeyedCons(m, rs, idx);
    }
  }

  /** One step of the index build adds the route under its own key. */
  lemma IndexFromStep(m: Texts, rs: seq<Route>, idx: seq<(RouteKey, Route)>)
    requires m.SnippetsShaped() && m.DecoratorsShaped() && |rs| > 0
    requires forall i :: 0 <= i < |idx| ==> idx[i].0 != KeyOf(m, rs[0])
    ensures IndexFrom(m, rs, idx) == IndexFrom(m, rs[1..], idx + [(KeyOf(m, rs[0]), rs[0])])
  {
    SnippetKey(m, rs[0]);
  }

  /** The key just added clashes with no later route's key. */
  lemma NextFresh(m: Texts, rs: seq<Route>, idx: seq<(RouteKey, Route)>)
    requires m.DecoratorsShaped() && |rs| > 0 && NoDup(rs)
    requires forall i, j :: 0 <= i < |idx| && 0 <= j < |rs| ==> idx[i].0 != KeyOf(m, rs[j])
    ensures NoDup(rs[1..])
    ensures var next := idx + [(KeyOf(m, rs[0]), rs[0])];
      forall i, j :: 0 <= i < |next| && 0 <= j < |rs| - 1 ==> next[i].0 != KeyOf(m, rs[1..][j])
  {
    var next := idx + [(KeyOf(m, rs[0]), rs[0])];
    forall i, j | 0 <= i < |next| && 0 <= j < |rs| - 1
      ensures next[i].0 != KeyOf(m, rs[1..][j])
    {
      assert rs[1..][j] == rs[1 + j];
      if i < |idx| {
        assert next[i] == idx[i];
      } else if KeyOf(m, rs[0]) == KeyOf(m, rs[1 + j]) {
        KeyInjective(m, rs[0], rs[1 + j]);
      }
    }
  }

  lemma KeyedCons(m: Texts, rs: seq<Route>, idx: seq<(RouteKey, Route)>)
    requires |rs| > 0
    ensures idx + [(KeyOf(m, rs[0]), rs[0])] + Keyed(m, rs[1..]) == idx + Keyed(m, rs)
  {
    assert Keyed(m, rs) == [(KeyOf(m, rs[0]), rs[0])] + Keyed(m, rs[1..]);
  }

  /** `_build_route_index` yields nine entries with pairwise distinct
      `(METHOD, path)` keys, each leading back to its own route. */
  lemma BuildRouteIndexShape(m: Texts)
    requires m.SnippetsShaped() && m.DecoratorsShaped()
    ensures BuildRouteIndex(m) == Keyed(m, Routes)
    ensures |BuildRouteIndex(m)| == 9
    ensures forall i :: 0 <= i < 9 ==> BuildRouteIndex(m)[i] == (KeyOf(m, Routes[i]), Routes[i])
    ensures forall i, j :: 0 <= i < j < 9 ==> BuildRouteIndex(m)[i].0 != BuildRouteIndex(m)[j].0
  {
    RoutesNoDup();
    IndexFromShape(m, Routes, []);
    assert [] + Keyed(m, Routes) == Keyed(m, Routes);
    KeyedDistinct(m, Routes);
  }

  lemma RoutesNoDup()
    ensures NoDup(Routes) && |Routes| == 9
    ensures forall r :: r in Routes
  {
    forall r
      ensures r in Routes
    {
      match r
      case Register => assert Routes[0] == r;
      case Login => assert Routes[1] == r;
      case Logout => assert Routes[2] == r;
      case Update => assert Routes[3] == r;
      case Me => assert Routes[4] == r;
      case Refresh => assert Routes[5] == r;
      case LogoutAll => assert Routes[6] == r;
      case Sessions => assert Routes[7] == r;
      case Revoke => assert Routes[8] == r;
    }
  }

  lemma KeyedDistinct(m: Texts, rs: seq<Route>)
    requires m.DecoratorsShaped() && NoDup(rs)
    ensures forall i, j :: 0 <= i < j < |rs| ==> Keyed(m, rs)[i].0 != Keyed(m, rs)[j].0
  {
    forall i, j | 0 <= i < j < |rs|
      ensures KeyOf(m, rs[i]) != KeyOf(m, rs[j])
    {
      if KeyOf(m, rs[i]) == KeyOf(m, rs[j]) {
        KeyInjective(m, rs[i], rs[j]);
      }
    }
  }

  // ----- code_to_tokens -----

  /** `f'@app.{method.lower()}("{path}")'` for an index key. */
  function Signature(k: RouteKey): string {
    Decorator(Lower(k.0), k.1)
  }

  /** The `found` list: for every index entry whose signature occurs in `code`,
      the position of its first occurrence and the entry's route. */
  function Found(code: string, idx: seq<(RouteKey, Route)>): seq<(nat, Route)> {
    if |idx| == 0 then []
    else
      var rest := Found(code, idx[1..]);
      match Find(code, Signature(idx[0].0))
      case Some(pos) => [(pos, idx[0].1)] + rest
      case None => rest
  }

  function Pos(f: (nat, Route)): int {
    f.0
  }

  function RoutesOf(fs: seq<(nat, Route)>): (rs: seq<Route>)
    ensures |rs| == |fs|
    ensures forall i :: 0 <= i < |fs| ==> rs[i] == fs[i].1
  {
    if |fs| == 0 then [] else [fs[0].1] + RoutesOf(fs[1..])
  }

  /** `code_to_tokens`, as routes: `found` sorted by position (a stable sort). */
  function CodeToRoutes(m: Texts, code: string): seq<Route> {
    RoutesOf(SortBy(Pos, Found(code, BuildRouteIndex(m))))
  }

  function CodeToTokens(m: Texts, code: string): seq<string> {
    TokensOf(CodeToRoutes(m, code))
  }

  /** Lower-casing the upper-cased verb gives the route's own decorator back. */
  lemma SignatureOfKey(m: Texts, r: Route)
    requires m.DecoratorsShaped()
    ensures Signature(KeyOf(m, r)) == m.Sig(r)
  {
    VerbPlain(m, r);
    LowerUpperOfLower(m.verb(r));
  }

  /** Where each route's decorator line first occurs in `code`, if anywhere. */
  function PosIn(m: Texts, code: string): Route -> Option<nat> {
    r => Find(code, m.Sig(r))
  }

  /** `found` for an index that lists `rs` under their own keys, each route
      placed by `at`. */
  function FoundRoutes(at: Route -> Option<nat>, rs: seq<Route>): (fs: seq<(nat, Route)>)
    ensures forall i :: 0 <= i < |fs| ==> fs[i].1 in rs && at(fs[i].1) == Some(fs[i].0)
    ensures forall r :: r in rs && at(r).Some? ==> (at(r).value, r) in fs
  {
    if |rs| == 0 then []
    else
      var rest := FoundRoutes(at, rs[1..]);
      match at(rs[0])
      case Some(p) => [(p, rs[0])] + rest
      case None => rest
  }

  lemma {:induction false} FoundKeyed(m: Texts, code: string, rs: seq<Route>)
    requires m.DecoratorsShaped()
    ensures Found(code, Keyed(m, rs)) == FoundRoutes(PosIn(m, code), rs)
  {
    if |rs| > 0 {
      FoundKeyed(m, code, rs[1..]);
      SignatureOfKey(m, rs[0]);
      assert Keyed(m, rs)[1..] == Keyed(m, rs[1..]);
    }
  }

  lemma {:induction false} FoundRoutesNoDup(at: Route -> Option<nat>, rs: seq<Route>)
    requires NoDup(rs)
    ensures NoDup(FoundRoutes(at, rs))
  {
    if |rs| > 0 {
      FoundRoutesNoDup(at, rs[1..]);
      var rest := FoundRoutes(at, rs[1..]);
      match at(rs[0])
      case Some(p) =>
        HeadNotFoundLater(at, rs);
        NoDupCons((p, rs[0]), rest);
      case None =>
    }
  }

  lemma HeadNotFoundLater(at: Route -> Option<nat>, rs: seq<Route>)
    requires |rs| > 0 && NoDup(rs)
    ensures forall i :: 0 <= i < |FoundRoutes(at, rs[1..])| ==> FoundRoutes(at, rs[1..])[i].1 != rs[0]
  {
    var rest := FoundRoutes(at, rs[1..]);
    forall i | 0 <= i < |rest|
      ensures rest[i].1 != rs[0]
    {
      var k :| 0 <= k < |rs[1..]| && rs[1..][k] == rest[i].1;
      assert rs[k + 1] == rest[i].1;
    }
  }

  /** Facts about decorator lines: one '@' at the start, then `a`, a single `)`
      at the end and no newline. */
  lemma SigShape(m: Texts, r: Route)
    requires m.DecoratorsShaped()
    ensures |m.Sig(r)| >= 9 && m.Sig(r)[0] == '@' && m.Sig(r)[1] == 'a'
    ensures m.Sig(r)[|m.Sig(r)| - 1] == ')'
    ensures forall i :: 0 <= i < |m.Sig(r)| - 1 ==> m.Sig(r)[i] != ')'
    ensures forall i :: 0 < i < |m.Sig(r)| ==> m.Sig(r)[i] != '@'
    ensures '\n' !in m.Sig(r)
  {
    RouteTextFacts(m, r);
    VerbPlain(m, r);
    var v, p := m.verb(r), m.path(r);
    var d := m.Sig(r);
    assert d == "@app." + v + "(\"" + p + "\")";
    forall i | 0 <= i < |d|
      ensures d[i] == ')' ==> i == |d| - 1
      ensures d[i] == '@' ==> i == 0
      ensures d[i] != '\n'
    {
      if 5 <= i < 5 + |v| {
        assert d[i] == v[i - 5];
      } else if 7 + |v| <= i < 7 + |v| + |p| {
        assert d[i] == p[i - 7 - |v|];
      }
    }
  }

  /** Equal decorator lines belong to the same route. */
  lemma SigInjective(m: Texts, a: Route, b: Route)
    requires m.DecoratorsShaped()
    requires m.Sig(a) == m.Sig(b)
    ensures a == b
  {
    RouteTextFacts(m, a);
    VerbPlain(m, a);
    RouteTextFacts(m, b);
    VerbPlain(m, b);
    ParseLine(m.verb(a), m.path(a));
    ParseLine(m.verb(b), m.path(b));
    KeyInjective(m, a, b);
  }

  /** No decorator line is a proper prefix of another: the closing `)` only
      comes last. */
  lemma SigPrefix(m: Texts, a: Route, b: Route, s: string)
    requires m.DecoratorsShaped()
    requires StartsWith(s, m.Sig(a)) && StartsWith(s, m.Sig(b))
    requires |m.Sig(a)| <= |m.Sig(b)|
    ensures a == b
  {
    SigShape(m, a);
    SigShape(m, b);
    var n := |m.Sig(a)|;
    assert s[n - 1] == m.Sig(a)[n - 1] == m.Sig(b)[n - 1];
    assert n == |m.Sig(b)|;
    assert m.Sig(a) == s[..n] == m.Sig(b);
    SigInjective(m, a, b);
  }

  /** Two decorators found at the same place are the same decorator. */
  lemma SigsAtSamePlace(m: Texts, code: string, a: Route, b: Route, p: nat)
    requires m.DecoratorsShaped()
    requires OccursAt(code, m.Sig(a), p) && OccursAt(code, m.Sig(b), p)
    ensures a == b
  {
    var s := code[p..];
    assert StartsWith(s, m.Sig(a)) && StartsWith(s, m.Sig(b)) by {
      assert s[..|m.Sig(a)|] == code[p..p + |m.Sig(a)|];
      assert s[..|m.Sig(b)|] == code[p..p + |m.Sig(b)|];
    }
    if |m.Sig(a)| <= |m.Sig(b)| {
      SigPrefix(m, a, b, s);
    } else {
      SigPrefix(m, b, a, s);
    }
  }

  /** `rs` lists, once each, every route that `at` places, ordered by place. */
  predicate ListedBy(at: Route -> Option<nat>, rs: seq<Route>) {
    && NoDup(rs)
    && (forall r :: r in rs <==> at(r).Some?)
    && (forall i, j :: 0 <= i < j < |rs| ==> at(rs[i]).value < at(rs[j]).value)
  }

  /** `rs` lists, once each, every route whose decorator occurs in `code`
      (however often), ordered by the position of that decorator's first
      occurrence. */
  predicate ListsFound(m: Texts, code: string, rs: seq<Route>) {
    && NoDup(rs)
    && (forall r :: r in rs <==> Find(code, m.Sig(r)).Some?)
    && (forall i, j :: 0 <= i < j < |rs| ==> Find(code, m.Sig(rs[i])).value < Find(code, m.Sig(rs[j])).value)
  }

  /** Listing the found routes is listing the routes as `PosIn` places them. */
  lemma ListsFoundListed(m: Texts, code: string, rs: seq<Route>)
    ensures ListsFound(m, code, rs) <==> ListedBy(PosIn(m, code), rs)
  {
  }

  /** No two routes are placed at the same position. */
  predicate Apart(at: Route -> Option<nat>) {
    forall a, b :: at(a).Some? && at(a) == at(b) ==> a == b
  }

  /** Two decorators never start at the same place. */
  lemma PosInApart(m: Texts, code: string)
    requires m.DecoratorsShaped()
    ensures Apart(PosIn(m, code))
  {
    forall a, b | PosIn(m, code)(a).Some? && PosIn(m, code)(a) == PosIn(m, code)(b)
      ensures a == b
    {
      SigsAtSamePlace(m, code, a, b, Find(code, m.Sig(a)).value);
    }
  }

  /** `code_to_tokens` on any text: each route at most once, exactly the routes
      whose decorator occurs, ordered by the position of that first occurrence. */
  lemma CodeToRoutesSpec(m: Texts, code: string)
    requires m.SnippetsShaped() && m.DecoratorsShaped()
    ensures ListsFound(m, code, CodeToRoutes(m, code))
  {
    BuildRouteIndexShape(m);
    FoundKeyed(m, code, Routes);
    RoutesNoDup();
    PosInApart(m, code);
    SortedFoundSpec(PosIn(m, code), Routes);
    ListsFoundListed(m, code, CodeToRoutes(m, code));
  }

  lemma SortedFoundSpec(at: Route -> Option<nat>, all: seq<Route>)
    requires Apart(at) && NoDup(all) && forall r :: r in all
    ensures ListedBy(at, RoutesOf(SortBy(Pos, FoundRoutes(at, all))))
  {
    var found := FoundRoutes(at, all);
    var sorted := SortBy(Pos, found);
    SortedFoundSound(at, found, sorted);
    FoundRoutesNoDup(at, all);
    NoDupOfMultiset(found, sorted);
    SortedStrict(at, sorted);
    SortedFoundComplete(at, all, sorted);
    SortedRoutes(at, sorted);
  }

  lemma SortedFoundComplete(at: Route -> Option<nat>, all: seq<Route>, sorted: seq<(nat, Route)>)
    requires forall r :: r in all
    requires sorted == SortBy(Pos, FoundRoutes(at, all))
    ensures forall r :: at(r).Some? ==> r in RoutesOf(sorted)
  {
    var rs := RoutesOf(sorted);
    forall r | at(r).Some?
      ensures r in rs
    {
      var f := (at(r).value, r);
      FoundIsSorted(at, all, f);
      var i :| 0 <= i < |sorted| && sorted[i] == f;
      assert rs[i] == r;
    }
  }

  /** The routes of such a sorted list are distinct, placed, and in the
      order of their places. */
  lemma SortedRoutes(at: Route -> Option<nat>, sorted: seq<(nat, Route)>)
    requires forall i :: 0 <= i < |sorted| ==> at(sorted[i].1) == Some(sorted[i].0)
    requires forall i, j :: 0 <= i < j < |sorted| ==> sorted[i].0 < sorted[j].0
    requires forall r :: at(r).Some? ==> r in RoutesOf(sorted)
    ensures ListedBy(at, RoutesOf(sorted))
  {
  }

  lemma SortedFoundSound(at: Route -> Option<nat>, found: seq<(nat, Route)>, sorted: seq<(nat, Route)>)
    requires forall i :: 0 <= i < |found| ==> at(found[i].1) == Some(found[i].0)
    requires multiset(sorted) == multiset(found)
    ensures forall i :: 0 <= i < |sorted| ==> at(sorted[i].1) == Some(sorted[i].0)
  {
    forall i | 0 <= i < |sorted|
      ensures at(sorted[i].1) == Some(sorted[i].0)
    {
      assert sorted[i] in multiset(found);
    }
  }

  /** Entries placed at their own positions, sorted by position and without
      repeats, have strictly increasing positions when no two routes share
      a place. */
  lemma SortedStrict(at: Route -> Option<nat>, sorted: seq<(nat, Route)>)
    requires Apart(at) && SortedBy(Pos, sorted) && NoDup(sorted)
    requires forall i :: 0 <= i < |sorted| ==> at(sorted[i].1) == Some(sorted[i].0)
    ensures forall i, j :: 0 <= i < j < |sorted| ==> sorted[i].0 < sorted[j].0
  {
    forall i, j | 0 <= i < j < |sorted|
      ensures sorted[i].0 < sorted[j].0
    {
      assert Pos(sorted[i]) <= Pos(sorted[j]);
      assert sorted[i] != sorted[j];
      assert at(sorted[i].1) == Some(sorted[i].0) && at(sorted[j].1) == Some(sorted[j].0);
    }
  }

  lemma FoundIsSorted(at: Route -> Option<nat>, all: seq<Route>, f: (nat, Route))
    requires forall r :: r in all
    requires at(f.1) == Some(f.0)
    ensures f in SortBy(Pos, FoundRoutes(at, all))
  {
    assert f in FoundRoutes(at, all);
    assert f in multiset(SortBy(Pos, FoundRoutes(at, all)));
  }
}
