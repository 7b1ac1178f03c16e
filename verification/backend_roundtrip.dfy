/** The round trip of the SEVDO backend translator: reading the tokens back
    from generated endpoint code gives the known tokens, each once, in the
    order of their first use. */
module BackendRoundTrip {
  import opened Wrappers
  import opened Text
  import opened Seqs
  import opened Sorting
  import opened RouteTexts
  import opened BackendCompiler

  // ----- where the blocks sit in the generated text -----

  /** Where the block of `rs[k]` starts in `Blocks(m, rs)`: the length of
      the blocks before it. */
  function Offset(m: Texts, rs: seq<Route>, k: nat): (n: nat)
    requires k <= |rs|
    ensures k == |rs| ==> n == |Blocks(m, rs)|
  {
    if k == 0 then 0 else |Block(m, rs[0])| + Offset(m, rs[1..], k - 1)
  }

  /** A later block starts after the whole of an earlier one. */
  lemma {:induction false} OffsetGrows(m: Texts, rs: seq<Route>, a: nat, b: nat)
    requires a < b <= |rs|
    ensures Offset(m, rs, a) + |Block(m, rs[a])| <= Offset(m, rs, b)
  {
    if a > 0 {
      OffsetGrows(m, rs[1..], a - 1, b - 1);
      assert rs[1..][a - 1] == rs[a];
    }
  }

  lemma OccursLeft(a: string, b: string, pat: string, q: int)
    requires OccursAt(a, pat, q)
    ensures OccursAt(a + b, pat, q)
  {
    assert (a + b)[q..q + |pat|] == a[q..q + |pat|];
  }

  lemma OccursRight(a: string, b: string, pat: string, q: int)
    requires OccursAt(b, pat, q)
    ensures OccursAt(a + b, pat, q + |a|)
  {
    assert (a + b)[q + |a|..q + |a| + |pat|] == b[q..q + |pat|];
  }

  lemma OccursShift(a: string, b: string, pat: string, q: int)
    requires OccursAt(a + b, pat, q) && q >= |a|
    ensures OccursAt(b, pat, q - |a|)
  {
    assert (a + b)[q..q + |pat|] == b[q - |a|..q - |a| + |pat|];
  }

  /** In `lead + sig + tail`, where only `sig` holds an '@' and only at its
      start, the one '@' sits right after `lead`. */
  lemma AtOnlyAfter(lead: string, sig: string, tail: string, q: nat)
    requires '@' !in lead && '@' !in tail
    requires forall i :: 0 < i < |sig| ==> sig[i] != '@'
    requires q < |lead + sig + tail| && (lead + sig + tail)[q] == '@'
    ensures q == |lead|
  {
    var s := lead + sig + tail;
    assert forall i :: 0 <= i < |lead| ==> s[i] == lead[i];
    assert forall i :: |lead| <= i < |lead| + |sig| ==> s[i] == sig[i - |lead|];
    assert forall i :: |lead| + |sig| <= i < |s| ==> s[i] == tail[i - |lead| - |sig|];
  }

  lemma BlockParts(m: Texts, r: Route)
    ensures Block(m, r) == m.lead(r) + m.Sig(r) + (m.body(r) + "\n\n")
  {
  }

  /** The only '@' of a block is the one that opens its decorator. */
  lemma BlockAt(m: Texts, r: Route, q: nat)
    requires m.SnippetsShaped() && m.DecoratorsShaped()
    requires q < |Block(m, r)| && Block(m, r)[q] == '@'
    ensures q == |m.lead(r)|
  {
    SigShape(m, r);
    BlockParts(m, r);
    var tail := m.body(r) + "\n\n";
    assert '@' !in tail by {
      assert '@' !in m.body(r);
      assert forall i :: |m.body(r)| <= i < |tail| ==> tail[i] == '\n';
    }
    AtOnlyAfter(m.lead(r), m.Sig(r), tail, q);
  }

  /** A block's own decorator line, right after its leading text. */
  lemma BlockSig(m: Texts, r: Route, rest: string)
    ensures OccursAt(Block(m, r) + rest, m.Sig(r), |m.lead(r)|)
    ensures |m.lead(r)| < |Block(m, r)|
  {
    BlockParts(m, r);
    var lead, sig, tail := m.lead(r), m.Sig(r), m.body(r) + "\n\n";
    assert (lead + sig + tail + rest)[|lead|..|lead| + |sig|] == sig;
  }

  /** A decorator occurs in a block exactly at the place its own route's sits. */
  lemma SigInBlock(m: Texts, r: Route, rest: string, x: Route, q: nat)
    requires m.SnippetsShaped() && m.DecoratorsShaped()
    requires q < |Block(m, r)|
    requires OccursAt(Block(m, r) + rest, m.Sig(x), q)
    ensures x == r && q == |m.lead(r)|
  {
    var b := Block(m, r);
    AtOfSig(m, b + rest, x, q);
    assert b[q] == (b + rest)[q];
    BlockAt(m, r, q);
    BlockSig(m, r, rest);
    SigsAtSamePlace(m, b + rest, r, x, q);
  }

  /** A decorator begins with '@'. */
  lemma AtOfSig(m: Texts, code: string, x: Route, q: nat)
    requires m.DecoratorsShaped()
    requires OccursAt(code, m.Sig(x), q)
    ensures q < |code| && code[q] == '@'
  {
    SigShape(m, x);
    assert code[q..q + |m.Sig(x)|][0] == code[q];
  }

  /** Every occurrence of a decorator in the blocks is the one of a block of its route. */
  lemma {:induction false} OccursInBlocks(m: Texts, rs: seq<Route>, x: Route, q: nat) returns (k: nat)
    requires m.SnippetsShaped() && m.DecoratorsShaped()
    requires OccursAt(Blocks(m, rs), m.Sig(x), q)
    ensures k < |rs| && rs[k] == x && q == Offset(m, rs, k) + |m.lead(x)|
  {
    SigShape(m, x);
    assert |Blocks(m, rs)| > 0;
    var b0 := Block(m, rs[0]);
    var rest := Blocks(m, rs[1..]);
    assert Blocks(m, rs) == b0 + rest;
    if q < |b0| {
      SigInBlock(m, rs[0], rest, x, q);
      k := 0;
    } else {
      OccursShift(b0, rest, m.Sig(x), q);
      var k' := OccursInBlocks(m, rs[1..], x, q - |b0|);
      k := k' + 1;
      assert rs[1..][k'] == rs[k];
      assert Offset(m, rs, k) == |b0| + Offset(m, rs[1..], k');
    }
  }

  /** ... and each block's decorator does occur there. */
  lemma {:induction false} SigInBlocks(m: Texts, rs: seq<Route>, k: nat)
    requires k < |rs|
    ensures OccursAt(Blocks(m, rs), m.Sig(rs[k]), Offset(m, rs, k) + |m.lead(rs[k])|)
  {
    var b0, rest := Block(m, rs[0]), Blocks(m, rs[1..]);
    assert Blocks(m, rs) == b0 + rest;
    if k == 0 {
      BlockSig(m, rs[0], rest);
    } else {
      var r := rs[k];
      assert rs[1..][k - 1] == r;
      SigInBlocks(m, rs[1..], k - 1);
      OccursRight(b0, rest, m.Sig(r), Offset(m, rs[1..], k - 1) + |m.lead(r)|);
    }
  }

  lemma OccursWithin(whole: string, a: string, b: string, pat: string, q: nat, at: nat)
    requires whole == a + b && OccursAt(b, pat, q) && at == |a| + q
    ensures OccursAt(whole, pat, at)
  {
    OccursRight(a, b, pat, q);
  }

  // ----- the preamble -----

  /** In `head + "@" + tail + rest`, with no '@' in `head` or `tail`, an '@'
      before `rest` is the middle one, followed by the first of `tail`. */
  lemma AtInPreamble(head: string, tail: string, rest: string, q: nat)
    requires '@' !in head && '@' !in tail && |tail| > 0
    requires q < |head| + 1 + |tail| && (head + "@" + tail + rest)[q] == '@'
    ensures q == |head| && (head + "@" + tail + rest)[q + 1] == tail[0]
  {
    var s := head + "@" + tail + rest;
    assert forall i :: 0 <= i < |head| ==> s[i] == head[i];
    assert forall i :: |head| < i < |head| + 1 + |tail| ==> s[i] == tail[i - |head| - 1];
  }

  /** The preamble's '@' is followed by `{`, never by the `a` of `@app.`. */
  lemma NotInPreamble(m: Texts, rest: string, x: Route, q: nat)
    requires m.PreambleShaped() && m.DecoratorsShaped()
    requires OccursAt(m.AuthImports() + rest, m.Sig(x), q)
    ensures q >= |m.AuthImports()|
  {
    var s := m.AuthImports() + rest;
    SigShape(m, x);
    assert s[q] == m.Sig(x)[0] && s[q + 1] == m.Sig(x)[1];
    assert s == m.authHead + "@" + m.authTail + rest;
    if q < |m.AuthImports()| {
      AtInPreamble(m.authHead, m.authTail, rest, q);
    }
  }

  /** The decorator occurrences of a generated text, with or without preamble. */
  lemma OccursInGenerated(m: Texts, pre: string, rs: seq<Route>, x: Route, q: nat) returns (k: nat)
    requires m.WellFormed() && (pre == "" || pre == m.AuthImports())
    requires OccursAt(pre + Blocks(m, rs), m.Sig(x), q)
    ensures k < |rs| && rs[k] == x && q == |pre| + Offset(m, rs, k) + |m.lead(x)|
  {
    if pre != "" {
      NotInPreamble(m, Blocks(m, rs), x, q);
    }
    OccursShift(pre, Blocks(m, rs), m.Sig(x), q);
    k := OccursInBlocks(m, rs, x, q - |pre|);
  }

  /** `code.find(signature)` on a generated text: the place of the route's
      first block, or not found when the route was never emitted. */
  lemma FindInGenerated(m: Texts, pre: string, rs: seq<Route>, x: Route)
    requires m.WellFormed() && (pre == "" || pre == m.AuthImports())
    ensures x in rs ==> Find(pre + Blocks(m, rs), m.Sig(x))
                        == Some(|pre| + Offset(m, rs, FirstIndex(rs, x)) + |m.lead(x)|)
    ensures x !in rs ==> Find(pre + Blocks(m, rs), m.Sig(x)) == None
  {
    var code := pre + Blocks(m, rs);
    if x in rs {
      var k := FirstIndex(rs, x);
      var p := |pre| + Offset(m, rs, k) + |m.lead(x)|;
      SigInBlocks(m, rs, k);
      OccursRight(pre, Blocks(m, rs), m.Sig(x), Offset(m, rs, k) + |m.lead(x)|);
      forall q | 0 <= q < p
        ensures !OccursAt(code, m.Sig(x), q)
      {
        if OccursAt(code, m.Sig(x), q) {
          NoEarlier(m, pre, rs, x, q);
        }
      }
      FindIsFirst(code, m.Sig(x), 0, p);
    } else {
      forall q | 0 <= q
        ensures !OccursAt(code, m.Sig(x), q)
      {
        NotEmitted(m, pre, rs, x, q);
      }
      FindAbsent(code, m.Sig(x), 0);
    }
  }

  lemma NoEarlier(m: Texts, pre: string, rs: seq<Route>, x: Route, q: nat)
    requires m.WellFormed() && (pre == "" || pre == m.AuthImports())
    requires x in rs && OccursAt(pre + Blocks(m, rs), m.Sig(x), q)
    ensures q >= |pre| + Offset(m, rs, FirstIndex(rs, x)) + |m.lead(x)|
  {
    var k := FirstIndex(rs, x);
    var k' := OccursInGenerated(m, pre, rs, x, q);
    FirstIndexMin(rs, x, k');
    if k < k' {
      OffsetGrows(m, rs, k, k');
    }
  }

  lemma NotEmitted(m: Texts, pre: string, rs: seq<Route>, x: Route, q: nat)
    requires m.WellFormed() && (pre == "" || pre == m.AuthImports())
    requires x !in rs
    ensures !OccursAt(pre + Blocks(m, rs), m.Sig(x), q)
  {
    if OccursAt(pre + Blocks(m, rs), m.Sig(x), q) {
      var k := OccursInGenerated(m, pre, rs, x, q);
    }
  }

  // ----- the tokens read back -----

  /** The deduplicated routes are listed as `code_to_tokens` lists them. */
  lemma DedupListsFound(m: Texts, pre: string, rs: seq<Route>)
    requires m.WellFormed() && (pre == "" || pre == m.AuthImports())
    ensures ListsFound(m, pre + Blocks(m, rs), Dedup(rs))
  {
    var code := pre + Blocks(m, rs);
    var d := Dedup(rs);
    forall x
      ensures x in d <==> Find(code, m.Sig(x)).Some?
    {
      FindInGenerated(m, pre, rs, x);
    }
    DedupOrder(rs);
    forall i, j | 0 <= i < j < |d|
      ensures Find(code, m.Sig(d[i])).value < Find(code, m.Sig(d[j])).value
    {
      FindInGenerated(m, pre, rs, d[i]);
      FindInGenerated(m, pre, rs, d[j]);
      var a, b := FirstIndex(rs, d[i]), FirstIndex(rs, d[j]);
      OffsetGrows(m, rs, a, b);
      assert |m.lead(d[i])| < |Block(m, rs[a])|;
    }
  }

  /** The listing is unique: a duplicate-free list of exactly the placed
      routes, in order of place, has only one possible order. */
  lemma ListedUnique(at: Route -> Option<nat>, a: seq<Route>, b: seq<Route>)
    requires ListedBy(at, a) && ListedBy(at, b)
    ensures a == b
  {
    var key := (r: Route) => match at(r) case Some(p) => p as int case None => -1;
    NoDupSameElements(a, b);
    assert forall i, j :: 0 <= i < j < |a| ==> key(a[i]) < key(a[j]);
    assert forall i, j :: 0 <= i < j < |b| ==> key(b[i]) < key(b[j]);
    SortedUnique(key, a, b);
  }

  /** Tokens are one-to-one with routes, so listing tokens commutes with
      dropping repeats. */
  lemma {:induction false} TokensOfDedup(rs: seq<Route>)
    ensures TokensOf(Dedup(rs)) == Dedup(TokensOf(rs))
  {
    if |rs| > 0 {
      var p := rs[..|rs| - 1];
      var y := rs[|rs| - 1];
      var ts := TokensOf(rs);
      assert ts[..|ts| - 1] == TokensOf(p);
      assert ts[|ts| - 1] == Token(y);
      TokensOfDedup(p);
      var d := Dedup(p);
      var dt := TokensOf(d);
      assert Dedup(rs) == if y in d then d else d + [y];
      assert Dedup(ts) == if Token(y) in dt then dt else dt + [Token(y)];
      TokenIn(d, y);
      if y !in d {
        TokensOfAppend(d, [y]);
      }
    }
  }

  lemma {:induction false} TokensOfAppend(a: seq<Route>, b: seq<Route>)
    ensures TokensOf(a + b) == TokensOf(a) + TokensOf(b)
  {
    assert |TokensOf(a + b)| == |TokensOf(a) + TokensOf(b)|;
    forall i | 0 <= i < |a + b|
      ensures TokensOf(a + b)[i] == (TokensOf(a) + TokensOf(b))[i]
    {
      if i >= |a| {
        assert (a + b)[i] == b[i - |a|];
      }
    }
  }

  lemma TokenIn(rs: seq<Route>, y: Route)
    ensures Token(y) in TokensOf(rs) <==> y in rs
  {
    var ts := TokensOf(rs);
    if Token(y) in ts {
      var i :| 0 <= i < |ts| && ts[i] == Token(y);
      TokenInjective(rs[i], y);
    }
    if y in rs {
      var i :| 0 <= i < |rs| && rs[i] == y;
      assert ts[i] == Token(y);
    }
  }

  lemma TokenInjective(a: Route, b: Route)
    requires Token(a) == Token(b)
    ensures a == b
  {
    match a
    case Register =>
    case Login =>
    case Logout =>
    case Update =>
    case Me =>
    case Refresh =>
    case LogoutAll =>
    case Sessions =>
    case Revoke =>
  }

  /** `code_to_tokens(tokens_to_code(tokens))`: the known tokens, each once,
      in the order of their first appearance, whether or not the preamble
      was emitted. */
  lemma RoundTrip(m: Texts, tokens: seq<string>, includeImports: bool)
    requires m.WellFormed()
    ensures CodeToTokens(m, TokensToCode(m, tokens, includeImports)) == Dedup(Filter(IsKnown, tokens))
  {
    var rs := KnownRoutes(tokens);
    var pre := if includeImports && |rs| > 0 then m.AuthImports() else "";
    var code := TokensToCode(m, tokens, includeImports);
    TokensToCodeShape(m, tokens, includeImports);
    assert code == pre + Blocks(m, rs);
    CodeToRoutesSpec(m, code);
    DedupListsFound(m, pre, rs);
    ListsFoundListed(m, code, CodeToRoutes(m, code));
    ListsFoundListed(m, code, Dedup(rs));
    ListedUnique(PosIn(m, code), CodeToRoutes(m, code), Dedup(rs));
    TokensOfDedup(rs);
  }

  /** A duplicate-free list of known tokens comes back unchanged. */
  lemma RoundTripIdentity(m: Texts, tokens: seq<string>, includeImports: bool)
    requires m.WellFormed()
    requires NoDup(tokens) && forall i :: 0 <= i < |tokens| ==> IsKnown(tokens[i])
    ensures CodeToTokens(m, TokensToCode(m, tokens, includeImports)) == tokens
  {
    RoundTrip(m, tokens, includeImports);
    FilterAll(IsKnown, tokens);
    DedupOfNoDup(tokens);
  }

  /** The same, for the service's own texts. */
  lemma MappingRoundTrip(tokens: seq<string>, includeImports: bool)
    ensures CodeToTokens(Mapping, TokensToCode(Mapping, tokens, includeImports))
         == Dedup(Filter(IsKnown, tokens))
  {
    MappingWellFormed();
    RoundTrip(Mapping, tokens, includeImports);
  }
}
