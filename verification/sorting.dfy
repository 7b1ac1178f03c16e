/** Python's stable `sorted(xs, key=k)` and `list.sort(key=k)` for integer keys.
    `reverse=True` on a stable sort is the same as sorting by the negated key,
    which is how the callers use it. */
module Sorting {
  import opened Seqs

  predicate SortedBy<T>(key: T -> int, s: seq<T>) {
    forall i, j :: 0 <= i < j < |s| ==> key(s[i]) <= key(s[j])
  }

  predicate StrictlySortedBy<T>(key: T -> int, s: seq<T>) {
    forall i, j :: 0 <= i < j < |s| ==> key(s[i]) < key(s[j])
  }

  /** The elements of `s` whose key is `k`, in their order in `s`. */
  function KeyClass<T>(key: T -> int, k: int, s: seq<T>): (r: seq<T>)
    ensures |r| <= |s|
  {
    if |s| == 0 then []
    else if key(s[0]) == k then [s[0]] + KeyClass(key, k, s[1..])
    else KeyClass(key, k, s[1..])
  }

  /** Places `x` in front of the first element whose key is not smaller. */
  function Insert<T>(key: T -> int, x: T, s: seq<T>): (r: seq<T>)
    requires SortedBy(key, s)
    ensures SortedBy(key, r)
    ensures multiset(r) == multiset(s) + multiset{x}
  {
    if |s| == 0 || key(x) <= key(s[0]) then
      ConsSorted(key, x, s);
      [x] + s
    else
      assert s == [s[0]] + s[1..];
      SortedTail(key, s);
      var t := Insert(key, x, s[1..]);
      LowerBound(key, key(s[0]), x, s[1..], t);
      ConsSorted(key, s[0], t);
      [s[0]] + t
  }

  /** A head no larger than any later key keeps a sorted list sorted. */
  lemma ConsSorted<T>(key: T -> int, h: T, t: seq<T>)
    requires SortedBy(key, t)
    requires forall i :: 0 <= i < |t| ==> key(h) <= key(t[i])
    ensures SortedBy(key, [h] + t)
  {
    forall i, j | 0 <= i < j < |t| + 1
      ensures key(([h] + t)[i]) <= key(([h] + t)[j])
    {
      assert ([h] + t)[j] == t[j - 1];
      if i > 0 {
        assert ([h] + t)[i] == t[i - 1];
      }
    }
  }

  /** A bound on every key of `u` and on `x` bounds every key of a
      rearrangement of `u` with `x` added. */
  lemma LowerBound<T>(key: T -> int, lo: int, x: T, u: seq<T>, t: seq<T>)
    requires multiset(t) == multiset(u) + multiset{x}
    requires lo <= key(x)
    requires forall i :: 0 <= i < |u| ==> lo <= key(u[i])
    ensures forall i :: 0 <= i < |t| ==> lo <= key(t[i])
  {
    forall i | 0 <= i < |t|
      ensures lo <= key(t[i])
    {
      assert t[i] in multiset(t);
      if t[i] != x {
        assert t[i] in multiset(u);
        var j :| 0 <= j < |u| && u[j] == t[i];
      }
    }
  }

  /** Insertion sort from the back: every element goes in front of the
      later elements with an equal key, so the sort is stable. */
  function SortBy<T>(key: T -> int, s: seq<T>): (r: seq<T>)
    ensures SortedBy(key, r)
    ensures multiset(r) == multiset(s)
  {
    if |s| == 0 then []
    else
      assert s == [s[0]] + s[1..];
      Insert(key, s[0], SortBy(key, s[1..]))
  }

  /** The number of elements `s[offset:offset + limit]` holds when `s` has `n`. */
  function PageLength(n: nat, offset: nat, limit: nat): nat {
    if offset >= n then 0 else if n - offset < limit then n - offset else limit
  }

  /** `sorted(s, key=key)[offset:offset + limit]`: the window of the stable
      key order that starts at `offset`, as long as `limit` and the elements
      left allow. Nothing outside the input comes in, and the first page
      holds keys no larger than those of every element it leaves out. */
  function SortedPage<T>(key: T -> int, s: seq<T>, offset: nat, limit: nat): (r: seq<T>)
    ensures r == Slice(SortBy(key, s), offset, offset + limit)
    ensures |r| == PageLength(|s|, offset, limit)
    ensures SortedBy(key, r)
    ensures multiset(r) <= multiset(s)
    ensures forall i :: 0 <= i < |r| ==> r[i] in s
    ensures offset == 0 ==>
              forall i :: 0 <= i < |r| ==> forall x :: x in multiset(s) - multiset(r) ==> key(r[i]) <= key(x)
    ensures offset == 0 && |s| <= limit ==> multiset(r) == multiset(s)
  {
    var sorted := SortBy(key, s);
    var page := Slice(sorted, offset, offset + limit);
    PageFacts(key, sorted, s, offset, limit);
    page
  }

  /** Where the window lies in the sorted list, and what that gives. */
  lemma PageFacts<T>(key: T -> int, sorted: seq<T>, s: seq<T>, offset: nat, limit: nat)
    requires SortedBy(key, sorted) && multiset(sorted) == multiset(s)
    ensures var page := Slice(sorted, offset, offset + limit);
      && |page| == PageLength(|s|, offset, limit)
      && SortedBy(key, page)
      && multiset(page) <= multiset(s)
      && (forall i :: 0 <= i < |page| ==> page[i] in s)
      && (offset == 0 ==>
            forall i :: 0 <= i < |page| ==> forall x :: x in multiset(s) - multiset(page) ==> key(page[i]) <= key(x))
      && (offset == 0 && |s| <= limit ==> multiset(page) == multiset(s))
  {
    assert |sorted| == |multiset(s)| == |s|;
    var page := Slice(sorted, offset, offset + limit);
    var lo, hi := Window(sorted, offset, limit);
    PageSorted(key, sorted, lo, hi);
    WindowMultiset(sorted, lo, hi);
    forall i | 0 <= i < |page|
      ensures page[i] in s
    {
      assert page[i] in multiset(page);
    }
    if offset == 0 {
      TopPage(key, sorted, hi);
    }
  }

  /** The bounds of `s[offset:offset + limit]` once clamped to the list. */
  lemma Window<T>(s: seq<T>, offset: nat, limit: nat) returns (lo: nat, hi: nat)
    ensures lo <= hi <= |s|
    ensures Slice(s, offset, offset + limit) == s[lo..hi]
    ensures hi - lo == PageLength(|s|, offset, limit)
    ensures lo == if offset < |s| then offset else |s|
    ensures hi == if offset + limit < |s| then offset + limit else if offset < |s| then |s| else lo
  {
    lo := if offset < |s| then offset else |s|;
    hi := if offset + limit < |s| then offset + limit else |s|;
    if hi < lo {
      hi := lo;
    }
  }

  lemma WindowMultiset<T>(s: seq<T>, lo: nat, hi: nat)
    requires lo <= hi <= |s|
    ensures multiset(s[lo..hi]) <= multiset(s)
    ensures lo == 0 ==> multiset(s) - multiset(s[lo..hi]) == multiset(s[hi..])
  {
    assert s == s[..lo] + s[lo..hi] + s[hi..];
    assert multiset(s) == multiset(s[..lo]) + multiset(s[lo..hi]) + multiset(s[hi..]);
  }

  /** Every key of a sorted prefix is no larger than the keys after it. */
  lemma TopPage<T>(key: T -> int, sorted: seq<T>, hi: nat)
    requires SortedBy(key, sorted) && hi <= |sorted|
    ensures forall i :: 0 <= i < hi ==>
              forall x :: x in multiset(sorted) - multiset(sorted[..hi]) ==> key(sorted[..hi][i]) <= key(x)
  {
    WindowMultiset(sorted, 0, hi);
    forall i, x | 0 <= i < hi && x in multiset(sorted) - multiset(sorted[..hi])
      ensures key(sorted[..hi][i]) <= key(x)
    {
      assert x in multiset(sorted[hi..]);
      var j :| 0 <= j < |sorted[hi..]| && sorted[hi..][j] == x;
    }
  }

  /** A window of a sorted list is sorted. */
  lemma PageSorted<T>(key: T -> int, sorted: seq<T>, lo: nat, hi: nat)
    requires SortedBy(key, sorted) && lo <= hi <= |sorted|
    ensures SortedBy(key, sorted[lo..hi])
  {
    var page := sorted[lo..hi];
    forall i, j | 0 <= i < j < |page|
      ensures key(page[i]) <= key(page[j])
    {
      assert page[i] == sorted[lo + i] && page[j] == sorted[lo + j];
    }
  }

  /** The key of `reverse=True`: sorting by it stably puts larger values first. */
  function Negated<T>(f: T -> int): T -> int {
    x => -f(x)
  }

  /** `sorted(s, key=f, reverse=True)[offset:offset + limit]`, and the
      database's `order_by(desc(f)).offset(offset).limit(limit)`: the page
      in descending order, and on the first page no value left out above
      any value listed. */
  function DescendingPage<T>(f: T -> int, s: seq<T>, offset: nat, limit: nat): (r: seq<T>)
    ensures r == Slice(SortBy(Negated(f), s), offset, offset + limit)
    ensures |r| == PageLength(|s|, offset, limit)
    ensures multiset(r) <= multiset(s)
    ensures forall i :: 0 <= i < |r| ==> r[i] in s
    ensures forall i, j :: 0 <= i < j < |r| ==> f(r[i]) >= f(r[j])
    ensures offset == 0 ==>
              forall i :: 0 <= i < |r| ==> forall x :: x in multiset(s) - multiset(r) ==> f(r[i]) >= f(x)
  {
    var page := SortedPage(Negated(f), s, offset, limit);
    assert forall i, j :: 0 <= i < j < |page| ==> Negated(f)(page[i]) <= Negated(f)(page[j]);
    page
  }

  /** The first page of a non-empty list opens with a smallest key. */
  lemma FirstPageLeads<T>(key: T -> int, s: seq<T>, limit: nat, x: T)
    requires x in s && limit > 0
    ensures var r := SortedPage(key, s, 0, limit);
      |r| > 0 && key(r[0]) <= key(x)
  {
    var r := SortedPage(key, s, 0, limit);
    assert |r| > 0;
    if x !in multiset(s) - multiset(r) {
      assert x in multiset(r);
      var j :| 0 <= j < |r| && r[j] == x;
      assert j == 0 || key(r[0]) <= key(r[j]);
    }
  }

  /** Consecutive pages tile the sorted list: a page of `limit` followed by
      the next page of `more` is the page of `limit + more`. */
  lemma {:induction false} PagesTile<T>(key: T -> int, s: seq<T>, offset: nat, limit: nat, more: nat)
    ensures SortedPage(key, s, offset, limit) + SortedPage(key, s, offset + limit, more)
         == SortedPage(key, s, offset, limit + more)
  {
    SlicesTile(SortBy(key, s), offset, limit, more);
  }

  lemma SlicesTile<T>(s: seq<T>, offset: nat, limit: nat, more: nat)
    ensures Slice(s, offset, offset + limit) + Slice(s, offset + limit, offset + limit + more)
         == Slice(s, offset, offset + limit + more)
  {
    var lo, mid := Window(s, offset, limit);
    var mid', hi := Window(s, offset + limit, more);
    var lo', hi' := Window(s, offset, limit + more);
    assert lo' == lo && mid' == mid && hi' == hi;
    assert s[lo..mid] + s[mid..hi] == s[lo..hi];
  }

  lemma {:induction false} InsertKeyClass<T>(key: T -> int, k: int, x: T, s: seq<T>)
    requires SortedBy(key, s)
    ensures KeyClass(key, k, Insert(key, x, s))
         == (if key(x) == k then [x] else []) + KeyClass(key, k, s)
  {
    if |s| == 0 || key(x) <= key(s[0]) {
      assert ([x] + s)[1..] == s;
    } else {
      InsertKeyClass(key, k, x, s[1..]);
      var r := Insert(key, x, s);
      assert r[1..] == Insert(key, x, s[1..]);
    }
  }

  /** Stability: among equal keys the input order survives. */
  lemma {:induction false} SortByStable<T>(key: T -> int, k: int, s: seq<T>)
    ensures KeyClass(key, k, SortBy(key, s)) == KeyClass(key, k, s)
  {
    if |s| > 0 {
      SortByStable(key, k, s[1..]);
      InsertKeyClass(key, k, s[0], SortBy(key, s[1..]));
    }
  }

  /** A sorted permutation of a list whose keys are pairwise distinct is
      that list itself, so the sort has only one possible answer. */
  lemma {:induction false} SortedUnique<T>(key: T -> int, a: seq<T>, b: seq<T>)
    requires SortedBy(key, a) && StrictlySortedBy(key, b)
    requires multiset(a) == multiset(b)
    ensures a == b
  {
    if |a| > 0 {
      SortedUniqueStep(key, a, b);
      SortedUnique(key, a[1..], b[1..]);
      assert a == [a[0]] + a[1..];
      assert b == [b[0]] + b[1..];
    } else {
      assert |b| == |multiset(b)| == 0;
    }
  }

  lemma SortedUniqueStep<T>(key: T -> int, a: seq<T>, b: seq<T>)
    requires SortedBy(key, a) && StrictlySortedBy(key, b)
    requires multiset(a) == multiset(b)
    requires |a| > 0
    ensures |b| > 0 && a[0] == b[0]
    ensures SortedBy(key, a[1..]) && StrictlySortedBy(key, b[1..])
    ensures multiset(a[1..]) == multiset(b[1..])
  {
    SameHead(key, a, b);
    MultisetTail(a);
    MultisetTail(b);
    SortedTail(key, a);
    StrictlySortedTail(key, b);
  }

  lemma SameHead<T>(key: T -> int, a: seq<T>, b: seq<T>)
    requires SortedBy(key, a) && StrictlySortedBy(key, b)
    requires multiset(a) == multiset(b)
    requires |a| > 0
    ensures |b| > 0 && a[0] == b[0]
  {
    assert a[0] in multiset(b);
    var j :| 0 <= j < |b| && b[j] == a[0];
    assert b[0] in multiset(a);
    var i :| 0 <= i < |a| && a[i] == b[0];
    assert key(b[0]) <= key(a[0]);
  }

  lemma SortedTail<T>(key: T -> int, s: seq<T>)
    requires SortedBy(key, s) && |s| > 0
    ensures SortedBy(key, s[1..])
  {
    forall i, j | 0 <= i < j < |s| - 1
      ensures key(s[1..][i]) <= key(s[1..][j])
    {
      assert s[1..][i] == s[i + 1] && s[1..][j] == s[j + 1];
    }
  }

  lemma StrictlySortedTail<T>(key: T -> int, s: seq<T>)
    requires StrictlySortedBy(key, s) && |s| > 0
    ensures StrictlySortedBy(key, s[1..])
  {
    forall i, j | 0 <= i < j < |s| - 1
      ensures key(s[1..][i]) < key(s[1..][j])
    {
      assert s[1..][i] == s[i + 1] && s[1..][j] == s[j + 1];
    }
  }

  lemma MultisetTail<T>(s: seq<T>)
    requires |s| > 0
    ensures multiset(s[1..]) == multiset(s) - multiset{s[0]}
  {
    assert s == [s[0]] + s[1..];
  }

  /** Sorting a list already in key order leaves it alone. */
  lemma SortByOfSorted<T>(key: T -> int, s: seq<T>)
    requires StrictlySortedBy(key, s)
    ensures SortBy(key, s) == s
  {
    SortedUnique(key, SortBy(key, s), s);
  }
}
