/** The handful of Python `str` operations the services rely on, restricted to
    ASCII: `isspace`, `lower`, `upper`, `strip`, `split()`, `title`,
    `capitalize`, `find`, `in` (substring), `startswith`, `endswith` and `str(n)`. */
module Text {
  import opened Wrappers

  // ----- Character classes -----

  /** Python's `str.isspace` on ASCII: space, \t \n \v \f \r and the four
      separators 0x1c..0x1f. `split()`, `strip()` and the regex class `\s` all
      use this set. */
  predicate IsSpace(c: char) {
    c == ' ' || (9 <= c as int <= 13) || (28 <= c as int <= 31)
  }

  predicate IsUpper(c: char) { 'A' <= c <= 'Z' }
  predicate IsLower(c: char) { 'a' <= c <= 'z' }
  predicate IsDigit(c: char) { '0' <= c <= '9' }
  predicate IsAlpha(c: char) { IsUpper(c) || IsLower(c) }

  function ToLower(c: char): (r: char)
    ensures IsUpper(c) ==> IsLower(r) && r as int == c as int + 32
    ensures !IsUpper(c) ==> r == c
  {
    if IsUpper(c) then (c as int + 32) as char else c
  }

  function ToUpper(c: char): (r: char)
    ensures IsLower(c) ==> IsUpper(r) && r as int == c as int - 32
    ensures !IsLower(c) ==> r == c
  {
    if IsLower(c) then (c as int - 32) as char else c
  }

  /** `str.lower()` */
  function Lower(s: string): (r: string)
    ensures |r| == |s|
    ensures forall i :: 0 <= i < |s| ==> r[i] == ToLower(s[i])
  {
    if |s| == 0 then "" else [ToLower(s[0])] + Lower(s[1..])
  }

  /** `str.upper()` */
  function Upper(s: string): (r: string)
    ensures |r| == |s|
    ensures forall i :: 0 <= i < |s| ==> r[i] == ToUpper(s[i])
  {
    if |s| == 0 then "" else [ToUpper(s[0])] + Upper(s[1..])
  }

  lemma LowerUpperOfLower(s: string)
    requires forall i :: 0 <= i < |s| ==> !IsUpper(s[i])
    ensures Lower(Upper(s)) == s
  {
    var u := Upper(s);
    forall i | 0 <= i < |s|
      ensures Lower(u)[i] == s[i]
    {
      LowerUpperChar(s[i]);
    }
  }

  lemma LowerUpperChar(c: char)
    requires !IsUpper(c)
    ensures ToLower(ToUpper(c)) == c
  {
    if IsLower(c) {
      var u := ToUpper(c);
      assert u as int + 32 == c as int;
    }
  }

  lemma LowerAppend(a: string, b: string)
    ensures Lower(a + b) == Lower(a) + Lower(b)
  {
  }

  // ----- Substrings -----

  predicate NoSpace(s: string) {
    forall i :: 0 <= i < |s| ==> !IsSpace(s[i])
  }

  predicate StartsWith(s: string, prefix: string) {
    |prefix| <= |s| && s[..|prefix|] == prefix
  }

  predicate EndsWith(s: string, suffix: string) {
    |suffix| <= |s| && s[|s| - |suffix|..] == suffix
  }

  /** `pat` occurs in `text` starting at index `p`. */
  predicate OccursAt(text: string, pat: string, p: int) {
    0 <= p && p + |pat| <= |text| && text[p..p + |pat|] == pat
  }

  /** Python's `sub in s` on strings. */
  predicate Contains(s: string, sub: string) {
    exists p :: 0 <= p <= |s| - |sub| && OccursAt(s, sub, p)
  }

  /** `text.find(pat, start)` as `Some(index)`, or `None` for Python's -1. */
  function FindFrom(text: string, pat: string, start: nat): (r: Option<nat>)
    decreases |text| - start
    ensures r.Some? ==> start <= r.value && OccursAt(text, pat, r.value)
    ensures r.Some? ==> forall q :: start <= q < r.value ==> !OccursAt(text, pat, q)
    ensures r.None? ==> forall q :: start <= q ==> !OccursAt(text, pat, q)
  {
    if start + |pat| > |text| then None
    else if text[start..start + |pat|] == pat then Some(start)
    else FindFrom(text, pat, start + 1)
  }

  /** `text.find(pat)` */
  function Find(text: string, pat: string): (r: Option<nat>)
    ensures r.Some? ==> OccursAt(text, pat, r.value)
    ensures r.Some? ==> forall q :: 0 <= q < r.value ==> !OccursAt(text, pat, q)
    ensures r.None? ==> forall q :: 0 <= q ==> !OccursAt(text, pat, q)
  {
    FindFrom(text, pat, 0)
  }

  /** `pat in text` exactly when `text.find(pat)` finds it. */
  lemma FindContains(text: string, pat: string)
    ensures Find(text, pat).None? <==> !Contains(text, pat)
  {
    if Find(text, pat).Some? {
      assert Find(text, pat).value + |pat| <= |text|;
    }
  }

  /** The first occurrence is the one `find` reports: a witness and the
      absence of earlier occurrences pin the answer down. */
  lemma FindIsFirst(text: string, pat: string, start: nat, p: nat)
    requires start <= p && OccursAt(text, pat, p)
    requires forall q :: start <= q < p ==> !OccursAt(text, pat, q)
    ensures FindFrom(text, pat, start) == Some(p)
  {
  }

  lemma FindAbsent(text: string, pat: string, start: nat)
    requires forall q :: start <= q ==> !OccursAt(text, pat, q)
    ensures FindFrom(text, pat, start) == None
  {
  }

  /** Everything before the first `sep`, as in `s.split(sep)[0]`. */
  function BeforeFirst(s: string, sep: char): (r: string)
    ensures sep !in r
    ensures StartsWith(s, r)
    ensures |r| < |s| ==> s[|r|] == sep
  {
    if |s| == 0 then ""
    else if s[0] == sep then ""
    else [s[0]] + BeforeFirst(s[1..], sep)
  }

  /** A separator that does not occur in `a` cuts `a + [sep] + b` right after `a`. */
  lemma BeforeFirstOf(a: string, sep: char, b: string)
    requires sep !in a
    ensures BeforeFirst(a + [sep] + b, sep) == a
  {
    var s := a + [sep] + b;
    var r := BeforeFirst(s, sep);
    assert forall i :: 0 <= i < |r| ==> s[i] != sep;
    assert forall i :: 0 <= i < |a| ==> s[i] != sep;
    assert s[|a|] == sep;
    assert r == s[..|r|] == a;
  }

  /** Searching for one character finds its first position at or after `start`. */
  lemma FindChar(text: string, c: char, start: nat, p: nat)
    requires start <= p < |text| && text[p] == c
    requires forall q :: start <= q < p ==> text[q] != c
    ensures FindFrom(text, [c], start) == Some(p)
  {
    assert text[p..p + 1] == [c];
    forall q | start <= q < p
      ensures !OccursAt(text, [c], q)
    {
      assert q + 1 <= |text| && text[q..q + 1][0] == text[q];
    }
    FindIsFirst(text, [c], start, p);
  }

  // ----- strip() -----

  /** Number of leading whitespace characters. */
  function LeadLen(s: string): (n: nat)
    ensures n <= |s|
    ensures forall i :: 0 <= i < n ==> IsSpace(s[i])
    ensures n < |s| ==> !IsSpace(s[n])
  {
    if |s| == 0 || !IsSpace(s[0]) then 0 else 1 + LeadLen(s[1..])
  }

  /** Number of trailing whitespace characters. */
  function TrailLen(s: string): (n: nat)
    ensures n <= |s|
    ensures forall i :: |s| - n <= i < |s| ==> IsSpace(s[i])
    ensures n < |s| ==> !IsSpace(s[|s| - n - 1])
  {
    if |s| == 0 || !IsSpace(s[|s| - 1]) then 0 else 1 + TrailLen(s[..|s| - 1])
  }

  /** `str.strip()`: the text between the leading and the trailing whitespace. */
  function Strip(s: string): (r: string)
    ensures |r| <= |s|
    ensures |r| > 0 ==> !IsSpace(r[0]) && !IsSpace(r[|r| - 1])
    ensures |r| == 0 <==> forall i :: 0 <= i < |s| ==> IsSpace(s[i])
    ensures LeadLen(s) + |r| <= |s|
    ensures r == s[LeadLen(s)..LeadLen(s) + |r|]
    ensures forall k :: LeadLen(s) + |r| <= k < |s| ==> IsSpace(s[k])
  {
    if LeadLen(s) == |s| then ""
    else
      StripShape(s);
      s[LeadLen(s)..|s| - TrailLen(s)]
  }

  /** Text with a non-space character keeps it between its leading and
      trailing whitespace. */
  lemma StripShape(s: string)
    requires LeadLen(s) < |s|
    ensures LeadLen(s) < |s| - TrailLen(s)
    ensures !IsSpace(s[LeadLen(s)]) && !IsSpace(s[|s| - TrailLen(s) - 1])
  {
    assert !IsSpace(s[LeadLen(s)]);
  }

  /** A string without surrounding whitespace is its own strip. */
  lemma StripUntouched(s: string)
    requires |s| > 0 ==> !IsSpace(s[0]) && !IsSpace(s[|s| - 1])
    ensures Strip(s) == s
  {
  }

  lemma StripIdempotent(s: string)
    ensures Strip(Strip(s)) == Strip(s)
  {
    StripUntouched(Strip(s));
  }

  // ----- split() -----

  /** Length of the leading run of non-whitespace characters. */
  function RunLen(s: string): (n: nat)
    ensures n <= |s|
    ensures forall i :: 0 <= i < n ==> !IsSpace(s[i])
    ensures n < |s| ==> IsSpace(s[n])
  {
    if |s| == 0 || IsSpace(s[0]) then 0 else 1 + RunLen(s[1..])
  }

  /** `str.split()` with no separator: the maximal runs of non-whitespace. */
  function Words(s: string): (ws: seq<string>)
    decreases |s|
    ensures forall i :: 0 <= i < |ws| ==> |ws[i]| > 0 && NoSpace(ws[i])
  {
    if |s| == 0 then []
    else if IsSpace(s[0]) then Words(s[1..])
    else
      var n := RunLen(s);
      [s[..n]] + Words(s[n..])
  }

  lemma WordsOfSpaces(s: string)
    requires forall i :: 0 <= i < |s| ==> IsSpace(s[i])
    ensures Words(s) == []
  {
    if |s| > 0 {
      WordsOfSpaces(s[1..]);
    }
  }

  /** A word followed by nothing or by whitespace is split off whole. */
  lemma WordsCons(w: string, rest: string)
    requires |w| > 0 && NoSpace(w)
    requires |rest| > 0 ==> IsSpace(rest[0])
    ensures Words(w + rest) == [w] + Words(rest)
  {
    var s := w + rest;
    assert RunLen(s) == |w| by {
      RunLenOf(s, |w|);
    }
    assert s[..|w|] == w;
    assert s[|w|..] == rest;
  }

  lemma RunLenOf(s: string, n: nat)
    requires n <= |s|
    requires forall i :: 0 <= i < n ==> !IsSpace(s[i])
    requires n < |s| ==> IsSpace(s[n])
    ensures RunLen(s) == n
  {
    if n > 0 {
      RunLenOf(s[1..], n - 1);
    }
  }

  /** `sep.join(ws)` */
  function Join(ws: seq<string>, sep: string): (r: string)
    ensures |ws| == 1 ==> r == ws[0]
  {
    if |ws| == 0 then ""
    else if |ws| == 1 then ws[0]
    else ws[0] + sep + Join(ws[1..], sep)
  }

  /** Splitting a space-joined list of words gives the words back. */
  lemma {:induction false} WordsOfJoin(ws: seq<string>)
    requires forall i :: 0 <= i < |ws| ==> |ws[i]| > 0 && NoSpace(ws[i])
    ensures Words(Join(ws, " ")) == ws
  {
    if |ws| == 0 {
    } else if |ws| == 1 {
      assert ws[0] + "" == ws[0];
      WordsCons(ws[0], "");
    } else {
      var tail := Join(ws[1..], " ");
      assert ws[0] + " " + tail == ws[0] + (" " + tail);
      WordsCons(ws[0], " " + tail);
      assert (" " + tail)[1..] == tail;
      WordsOfJoin(ws[1..]);
    }
  }

  /** `s.split(sep)` with a one-character separator: the pieces between
      separators, empty ones included, so there is always at least one. */
  function Split(s: string, sep: char): (ps: seq<string>)
    ensures |ps| >= 1
    ensures forall i :: 0 <= i < |ps| ==> sep !in ps[i]
    ensures forall i, k :: 0 <= i < |ps| && 0 <= k < |ps[i]| ==> ps[i][k] in s
  {
    if |s| == 0 then [""]
    else
      var rest := Split(s[1..], sep);
      if s[0] == sep then [""] + rest
      else [[s[0]] + rest[0]] + rest[1..]
  }

  /** Joining the pieces of a split gives the text back. */
  lemma {:induction false} JoinSplit(s: string, sep: char)
    ensures Join(Split(s, sep), [sep]) == s
  {
    if |s| > 0 {
      var rest := Split(s[1..], sep);
      JoinSplit(s[1..], sep);
      if s[0] == sep {
        assert ([""] + rest)[1..] == rest;
      } else {
        var ps := [[s[0]] + rest[0]] + rest[1..];
        if |rest| > 1 {
          assert ps[1..] == rest[1..];
          assert Join(rest, [sep]) == rest[0] + [sep] + Join(rest[1..], [sep]);
        }
        assert s == [s[0]] + s[1..];
      }
    }
  }

  /** `s.replace(a, b)` for single characters. */
  function ReplaceChar(s: string, a: char, b: char): (r: string)
    ensures |r| == |s|
    ensures forall i :: 0 <= i < |s| ==> r[i] == (if s[i] == a then b else s[i])
  {
    seq(|s|, i requires 0 <= i < |s| => if s[i] == a then b else s[i])
  }

  // ----- title() and capitalize() -----

  /** `str.title()` on ASCII, given whether the previous character was a letter:
      a letter after a non-letter is upper-cased, a letter after a letter lower-cased. */
  function TitleAfter(s: string, prevAlpha: bool): (r: string)
    ensures |r| == |s|
    ensures forall i :: 0 <= i < |s| && !IsAlpha(s[i]) ==> r[i] == s[i]
  {
    if |s| == 0 then ""
    else
      var c := if prevAlpha then ToLower(s[0]) else ToUpper(s[0]);
      [c] + TitleAfter(s[1..], IsAlpha(s[0]))
  }

  function Title(s: string): (r: string)
    ensures |r| == |s|
    ensures |s| > 0 ==> r[0] == ToUpper(s[0])
    ensures forall i :: 1 <= i < |s| && IsAlpha(s[i - 1]) ==> r[i] == ToLower(s[i])
    ensures forall i :: 1 <= i < |s| && !IsAlpha(s[i - 1]) ==> r[i] == ToUpper(s[i])
  {
    TitleShape(s, false);
    TitleAfter(s, false)
  }

  lemma {:induction false} TitleShape(s: string, prev: bool)
    ensures |s| > 0 ==> TitleAfter(s, prev)[0] == (if prev then ToLower(s[0]) else ToUpper(s[0]))
    ensures forall i :: 1 <= i < |s| && IsAlpha(s[i - 1]) ==> TitleAfter(s, prev)[i] == ToLower(s[i])
    ensures forall i :: 1 <= i < |s| && !IsAlpha(s[i - 1]) ==> TitleAfter(s, prev)[i] == ToUpper(s[i])
  {
    if |s| > 0 {
      TitleShape(s[1..], IsAlpha(s[0]));
      var r := TitleAfter(s, prev);
      assert r[1..] == TitleAfter(s[1..], IsAlpha(s[0]));
      forall i | 1 <= i < |s|
        ensures r[i] == (if IsAlpha(s[i - 1]) then ToLower(s[i]) else ToUpper(s[i]))
      {
        assert r[i] == TitleAfter(s[1..], IsAlpha(s[0]))[i - 1];
        if i > 1 {
          assert s[1..][i - 2] == s[i - 1];
        }
      }
    }
  }

  /** `str.capitalize()`: first character upper-case, the rest lower-case. */
  function Capitalize(s: string): (r: string)
    ensures |r| == |s|
    ensures |s| > 0 ==> r[0] == ToUpper(s[0])
    ensures forall i :: 1 <= i < |s| ==> r[i] == ToLower(s[i])
  {
    if |s| == 0 then "" else [ToUpper(s[0])] + Lower(s[1..])
  }

  // ----- str(n) -----

  function DigitChar(d: nat): (c: char)
    requires d < 10
    ensures IsDigit(c)
  {
    ('0' as int + d) as char
  }

  /** `str(n)` for a natural number: its decimal digits, no leading zero. */
  function NatToString(n: nat): (r: string)
    ensures |r| > 0
    ensures forall i :: 0 <= i < |r| ==> IsDigit(r[i])
    ensures n < 10 <==> |r| == 1
  {
    if n < 10 then [DigitChar(n)] else NatToString(n / 10) + [DigitChar(n % 10)]
  }

  /** Distinct numbers print differently. */
  lemma {:induction false} NatToStringInjective(a: nat, b: nat)
    requires NatToString(a) == NatToString(b)
    ensures a == b
  {
    var sa, sb := NatToString(a), NatToString(b);
    if a < 10 || b < 10 {
      assert a < 10 && b < 10;
      assert sa[0] == sb[0];
    } else {
      assert sa[|sa| - 1] == sb[|sb| - 1];
      assert a % 10 == b % 10;
      assert NatToString(a / 10) == sa[..|sa| - 1] == sb[..|sb| - 1] == NatToString(b / 10);
      NatToStringInjective(a / 10, b / 10);
    }
  }
}
