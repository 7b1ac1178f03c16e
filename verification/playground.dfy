/** The development playground's server (playground/playground_server.py):
    naming the component and the output file for a DSL input file, pruning
    the file-change subscribers whose notification failed, and counting the
    files a full rebuild compiled. The DSL compiler itself, file reads and
    writes, and the file watcher are not part of this model; whether a
    compilation or a send succeeds is a parameter. */
module Playground {
  import opened Wrappers
  import opened Text
  import opened Seqs
  import Files

  // ----- compile_file -----

  /** The characters a file name may separate words with. */
  predicate IsSeparator(c: char) { c == ' ' || c == '-' || c == '_' }

  /** A name free of separators, as a JavaScript identifier built from a
      file name must be. */
  predicate NoSeparator(s: string) {
    forall k :: 0 <= k < |s| ==> !IsSeparator(s[k])
  }

  /** Spaces and hyphens turned into underscores. */
  function Underscored(stem: string): (r: string)
    ensures |r| == |stem|
    ensures forall k :: 0 <= k < |r| ==> r[k] == (if IsSeparator(stem[k]) then '_' else stem[k])
  {
    ReplaceChar(ReplaceChar(stem, ' ', '_'), '-', '_')
  }

  /** `''.join(ws)` */
  function Concat(ws: seq<string>): (r: string)
    ensures |ws| == 1 ==> r == ws[0]
    ensures (forall i :: 0 <= i < |ws| ==> NoSeparator(ws[i])) ==> NoSeparator(r)
  {
    if |ws| == 0 then ""
    else
      var rest := Concat(ws[1..]);
      var r := ws[0] + rest;
      assert forall k :: |ws[0]| <= k < |r| ==> r[k] == rest[k - |ws[0]|];
      assert |ws| == 1 ==> rest == "" && r == ws[0];
      r
  }

  function NonEmpty(w: string): bool { w != "" }

  predicate NotSeparator(c: char) { !IsSeparator(c) }

  predicate NotUnderscore(c: char) { c != '_' }

  /** The characters of a stem that are not separators, in order. */
  function Squeezed(stem: string): string {
    Filter(NotSeparator, stem)
  }

  /** `s.replace(' ', '_').replace('-', '_').split('_')` without the empty
      pieces: the words of a stem, which run together give back the stem
      without its separators. */
  function StemWords(stem: string): (ws: seq<string>)
    ensures forall i :: 0 <= i < |ws| ==> ws[i] != "" && NoSeparator(ws[i])
    ensures Concat(ws) == Squeezed(stem)
  {
    ConcatNonEmpty(Split(Underscored(stem), '_'));
    ConcatSplit(Underscored(stem));
    UnderscoredSqueezed(stem);
    var u := Underscored(stem);
    var ps := Split(u, '_');
    assert forall i :: 0 <= i < |ps| ==> NoSeparator(ps[i]) by {
      forall i, k | 0 <= i < |ps| && 0 <= k < |ps[i]|
        ensures !IsSeparator(ps[i][k])
      {
        assert ps[i][k] in ps[i];
        var j :| 0 <= j < |u| && u[j] == ps[i][k];
      }
    }
    Filter(NonEmpty, ps)
  }

  /** `[w.title() for w in ws]` */
  function TitleAll(ws: seq<string>): (r: seq<string>)
    requires forall i :: 0 <= i < |ws| ==> NoSeparator(ws[i])
    ensures |r| == |ws|
    ensures forall i :: 0 <= i < |ws| ==> r[i] == Title(ws[i]) && NoSeparator(r[i])
  {
    TitleKeepsSeparators(ws);
    seq(|ws|, i requires 0 <= i < |ws| => Title(ws[i]))
  }

  /** The component name for a stem: its words, each title-cased (upper-case
      first letter, lower-case letters after a letter) and run together, then
      "Component". Up to case it is the stem without its separators, then
      "Component". */
  function ComponentOfStem(stem: string): (name: string)
    ensures name == Concat(TitleAll(StemWords(stem))) + "Component"
    ensures EndsWith(name, "Component")
    ensures NoSeparator(name)
    ensures Lower(name) == Lower(Squeezed(stem) + "Component")
  {
    var ws := StemWords(stem);
    var name := Concat(TitleAll(ws)) + "Component";
    assert name[|name| - 9..] == "Component";
    ComponentWordClean();
    NoSeparatorAppend(Concat(TitleAll(ws)), "Component");
    LowerComponent(ws, "Component");
    name
  }

  lemma ComponentWordClean()
    ensures NoSeparator("Component")
  {
  }

  lemma NoSeparatorAppend(a: string, b: string)
    requires NoSeparator(a) && NoSeparator(b)
    ensures NoSeparator(a + b)
  {
    assert forall k :: |a| <= k < |a + b| ==> (a + b)[k] == b[k - |a|];
  }

  lemma LowerComponent(ws: seq<string>, suffix: string)
    requires forall i :: 0 <= i < |ws| ==> NoSeparator(ws[i])
    ensures Lower(Concat(TitleAll(ws)) + suffix) == Lower(Concat(ws) + suffix)
  {
    LowerAppend(Concat(TitleAll(ws)), suffix);
    LowerAppend(Concat(ws), suffix);
    LowerConcatTitled(ws);
  }

  /** In the component name each word of the stem begins with its first
      letter upper-cased, at the offset where the word begins in the stem
      without separators. */
  lemma ComponentWordsUpper(stem: string, i: nat)
    requires i < |StemWords(stem)|
    ensures |Concat(StemWords(stem)[..i])| < |ComponentOfStem(stem)|
    ensures ComponentOfStem(stem)[|Concat(StemWords(stem)[..i])|] == ToUpper(StemWords(stem)[i][0])
  {
    var ws := StemWords(stem);
    WordsCapitalised(ws, i);
    var c := Concat(TitleAll(ws));
    assert ComponentOfStem(stem)[|Concat(ws[..i])|] == c[|Concat(ws[..i])|];
  }

  /** Title-casing the words and running them together puts each word's
      upper-cased first letter where the word begins. */
  lemma {:induction false} WordsCapitalised(ws: seq<string>, i: nat)
    requires forall j :: 0 <= j < |ws| ==> NoSeparator(ws[j])
    requires i < |ws| && ws[i] != ""
    ensures |Concat(ws[..i])| < |Concat(TitleAll(ws))|
    ensures Concat(TitleAll(ws))[|Concat(ws[..i])|] == ToUpper(ws[i][0])
  {
    var t := TitleAll(ws);
    var rest := ws[1..];
    assert Concat(t) == t[0] + Concat(t[1..]);
    if i == 0 {
      assert ws[..0] == [];
    } else {
      assert TitleAll(rest) == t[1..];
      WordsCapitalised(rest, i - 1);
      assert ws[..i][1..] == rest[..i - 1];
      assert Concat(ws[..i]) == ws[0] + Concat(rest[..i - 1]);
    }
  }

  /** `compile_file`'s component name for an input file. */
  function ComponentName(inputPath: string): (name: string)
    ensures name == Concat(TitleAll(StemWords(Files.Stem(inputPath)))) + "Component"
    ensures EndsWith(name, "Component") && NoSeparator(name)
    ensures Lower(name) == Lower(Squeezed(Files.Stem(inputPath)) + "Component")
  {
    ComponentOfStem(Files.Stem(inputPath))
  }

  /** Empty pieces add nothing to a concatenation. */
  lemma {:induction false} ConcatNonEmpty(ps: seq<string>)
    ensures Concat(Filter(NonEmpty, ps)) == Concat(ps)
  {
    if |ps| > 0 {
      ConcatNonEmpty(ps[1..]);
      if NonEmpty(ps[0]) {
        assert Filter(NonEmpty, ps) == [ps[0]] + Filter(NonEmpty, ps[1..]);
        assert ([ps[0]] + Filter(NonEmpty, ps[1..]))[1..] == Filter(NonEmpty, ps[1..]);
      } else {
        assert ps[0] + Concat(ps[1..]) == Concat(ps[1..]);
      }
    }
  }

  /** Running the pieces of a split together drops exactly the separators. */
  lemma {:induction false} ConcatSplit(u: string)
    ensures Concat(Split(u, '_')) == Filter(NotUnderscore, u)
  {
    if |u| > 0 {
      var rest := Split(u[1..], '_');
      ConcatSplit(u[1..]);
      if u[0] == '_' {
        assert ([""] + rest)[1..] == rest;
        assert "" + Concat(rest) == Concat(rest);
      } else {
        var ps := [[u[0]] + rest[0]] + rest[1..];
        assert ps[1..] == rest[1..];
        assert Concat(rest) == rest[0] + Concat(rest[1..]);
        assert Concat(ps) == [u[0]] + rest[0] + Concat(rest[1..]);
        assert Filter(NotUnderscore, u) == [u[0]] + Filter(NotUnderscore, u[1..]);
      }
    }
  }

  /** Turning separators into underscores and dropping the underscores drops
      exactly the separators. */
  lemma {:induction false} UnderscoredSqueezed(stem: string)
    ensures Filter(NotUnderscore, Underscored(stem)) == Squeezed(stem)
  {
    if |stem| > 0 {
      var u := Underscored(stem);
      assert u[1..] == Underscored(stem[1..]);
      UnderscoredSqueezed(stem[1..]);
    }
  }

  /** Title-casing changes only case. */
  lemma LowerTitle(w: string)
    ensures Lower(Title(w)) == Lower(w)
  {
    var t := Title(w);
    forall i | 0 <= i < |w|
      ensures Lower(t)[i] == Lower(w)[i]
    {
      CaseFolds(w[i]);
      if i > 0 && IsAlpha(w[i - 1]) {
        assert t[i] == ToLower(w[i]);
      } else {
        assert t[i] == ToUpper(w[i]);
      }
    }
  }

  lemma CaseFolds(c: char)
    ensures ToLower(ToUpper(c)) == ToLower(c) && ToLower(ToLower(c)) == ToLower(c)
  {
    if IsLower(c) {
      assert ToUpper(c) as int + 32 == c as int;
    }
  }

  /** Up to case, title-cased words run together as the words do. */
  lemma {:induction false} LowerConcatTitled(ws: seq<string>)
    requires forall i :: 0 <= i < |ws| ==> NoSeparator(ws[i])
    ensures Lower(Concat(TitleAll(ws))) == Lower(Concat(ws))
  {
    if |ws| > 0 {
      var ts := TitleAll(ws);
      assert ts[1..] == TitleAll(ws[1..]);
      LowerConcatTitled(ws[1..]);
      LowerAppend(ts[0], Concat(ts[1..]));
      LowerAppend(ws[0], Concat(ws[1..]));
      LowerTitle(ws[0]);
    }
  }

  /** Title-casing changes letters only, so it brings in no separator. */
  lemma TitleKeepsSeparators(ws: seq<string>)
    requires forall i :: 0 <= i < |ws| ==> NoSeparator(ws[i])
    ensures forall i :: 0 <= i < |ws| ==> NoSeparator(Title(ws[i]))
  {
    forall i | 0 <= i < |ws|
      ensures NoSeparator(Title(ws[i]))
    {
      var w := ws[i];
      var t := Title(w);
      forall k | 0 <= k < |t|
        ensures !IsSeparator(t[k])
      {
        assert !IsSeparator(w[k]);
        assert !IsSeparator(ToUpper(w[k])) && !IsSeparator(ToLower(w[k]));
        if k > 0 {
          assert t[k] == if IsAlpha(w[k - 1]) then ToLower(w[k]) else ToUpper(w[k]);
        }
      }
    }
  }

  /** Spaces, hyphens and underscores are interchangeable in a file name:
      stems that differ only in which separator they use share a component. */
  lemma {:induction false} SeparatorsInterchangeable(a: string, b: string)
    requires |a| == |b|
    requires forall k :: 0 <= k < |a| ==> a[k] == b[k] || (IsSeparator(a[k]) && IsSeparator(b[k]))
    ensures ComponentOfStem(a) == ComponentOfStem(b)
  {
    assert Underscored(a) == Underscored(b);
    assert StemWords(a) == StemWords(b);
  }

  /** The compiled file: the input's stem with ".jsx", in the output directory. */
  function OutputPath(outputDir: string, inputPath: string): (out: string)
    ensures Files.BaseName(out) == Files.Stem(inputPath) + ".jsx"
  {
    var name := Files.Stem(inputPath) + ".jsx";
    assert '/' !in name by {
      assert forall j :: |Files.Stem(inputPath)| <= j < |name| ==> name[j] in ".jsx";
    }
    Files.NameUnder(outputDir, name);
    outputDir + "/" + name
  }

  /** The output keeps the input's stem and has the ".jsx" suffix. */
  lemma {:induction false} OutputNaming(outputDir: string, inputPath: string)
    requires Files.Stem(inputPath) != ""
    ensures Files.Stem(OutputPath(outputDir, inputPath)) == Files.Stem(inputPath)
    ensures Files.Suffix(OutputPath(outputDir, inputPath)) == ".jsx"
  {
    var stem := Files.Stem(inputPath);
    var suffix := ".jsx";
    assert '.' !in suffix[1..];
    Files.SplitName(OutputPath(outputDir, inputPath), stem, suffix);
  }

  // ----- compile_all_files -----

  /** `compile_all_files`: how many of the input files compiled; `compiles`
      says whether `compile_file` returned true for a file. */
  method CompileAll(inputs: seq<string>, compiles: string -> bool) returns (count: nat)
    ensures count == |Filter(compiles, inputs)|
    ensures count <= |inputs|
  {
    count := 0;
    var i := 0;
    while i < |inputs|
      invariant 0 <= i <= |inputs|
      invariant count == |Filter(compiles, inputs[..i])|
    {
      FilterAppend(compiles, inputs[..i], [inputs[i]]);
      assert inputs[..i + 1] == inputs[..i] + [inputs[i]];
      if compiles(inputs[i]) {
        count := count + 1;
      }
      i := i + 1;
    }
    assert inputs[..i] == inputs;
  }

  // ----- notify_clients -----

  type Socket = int

  /** `s` with one occurrence of each of `xs` removed, first to last. */
  function RemoveEach(s: seq<Socket>, xs: seq<Socket>): seq<Socket>
    decreases |xs|
  {
    if |xs| == 0 then s else RemoveEach(RemoveFirst(s, xs[0]), xs[1..])
  }

  /** The connections whose send succeeded. */
  function Alive(failed: Socket -> bool): Socket -> bool {
    x => !failed(x)
  }

  /** A head none of `xs` matches is kept in front. */
  lemma {:induction false} RemoveEachKeepsHead(a: Socket, t: seq<Socket>, xs: seq<Socket>)
    requires a !in xs
    ensures RemoveEach([a] + t, xs) == [a] + RemoveEach(t, xs)
    decreases |xs|
  {
    if |xs| > 0 {
      assert ([a] + t)[0] == a && ([a] + t)[1..] == t;
      assert RemoveFirst([a] + t, xs[0]) == [a] + RemoveFirst(t, xs[0]);
      RemoveEachKeepsHead(a, RemoveFirst(t, xs[0]), xs[1..]);
    }
  }

  /** Removing every failed connection once leaves exactly the others, in order. */
  lemma {:induction false} RemoveFailed(s: seq<Socket>, failed: Socket -> bool)
    ensures RemoveEach(s, Filter(failed, s)) == Filter(Alive(failed), s)
  {
    if |s| > 0 {
      var t := s[1..];
      RemoveFailed(t, failed);
      if failed(s[0]) {
        assert Filter(failed, s) == [s[0]] + Filter(failed, t);
        assert Filter(Alive(failed), s) == Filter(Alive(failed), t);
        assert RemoveFirst(s, s[0]) == t;
      } else {
        assert Filter(failed, s) == Filter(failed, t);
        assert Filter(Alive(failed), s) == [s[0]] + Filter(Alive(failed), t);
        RemoveEachKeepsHead(s[0], t, Filter(failed, t));
        assert s == [s[0]] + t;
      }
    }
  }

  lemma RemoveEachStep(s: seq<Socket>, xs: seq<Socket>, i: nat)
    requires i < |xs|
    ensures RemoveEach(s, xs[i..]) == RemoveEach(RemoveFirst(s, xs[i]), xs[i + 1..])
  {
    assert xs[i..][0] == xs[i] && xs[i..][1..] == xs[i + 1..];
  }

  /** `notify_clients`: the connections whose send failed, in order, each
      removed once from the subscriber list. */
  method NotifyClients(connections: seq<Socket>, failed: Socket -> bool) returns (kept: seq<Socket>)
    ensures kept == Filter(Alive(failed), connections)
    ensures forall ws :: ws in kept <==> ws in connections && !failed(ws)
  {
    var disconnected := Filter(failed, connections);
    kept := connections;
    var i := 0;
    while i < |disconnected|
      invariant 0 <= i <= |disconnected|
      invariant RemoveEach(kept, disconnected[i..]) == RemoveEach(connections, disconnected)
    {
      var ws := disconnected[i];
      RemoveEachStep(kept, disconnected, i);
      if ws in kept {
        kept := RemoveFirst(kept, ws);
      } else {
        assert RemoveFirst(kept, ws) == kept;
      }
      i := i + 1;
    }
    assert disconnected[i..] == [];
    RemoveFailed(connections, failed);
  }
}
