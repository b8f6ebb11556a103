/** The two medians of the program: the scorer's in-place insertion sort on a copy, and the
    trigger's sort of a scratch slice.  Scores are reals. */
module Medians {

  ghost predicate Ascending(s: seq<real>) {
    forall i, j :: 0 <= i < j < |s| ==> s[i] <= s[j]
  }

  function Insert(x: real, s: seq<real>): (r: seq<real>)
    ensures |r| == |s| + 1
  {
    if s == [] || x <= s[0] then [x] + s else [s[0]] + Insert(x, s[1..])
  }

  /** Any correct sort returns this sequence; see SortedIsUnique. */
  function Sorted(s: seq<real>): (r: seq<real>)
    ensures |r| == |s|
  {
    if s == [] then [] else Insert(s[0], Sorted(s[1..]))
  }

  lemma AscendingCons(x: real, s: seq<real>)
    requires s != [] && x <= s[0] && Ascending(s)
    ensures Ascending([x] + s)
  {
  }

  lemma {:induction false} InsertKeepsOrder(x: real, s: seq<real>)
    requires Ascending(s)
    ensures Ascending(Insert(x, s))
    ensures multiset(Insert(x, s)) == multiset{x} + multiset(s)
  {
    if s != [] && x > s[0] {
      var tail := s[1..];
      InsertKeepsOrder(x, tail);
      assert s == [s[0]] + tail;
      var rest := Insert(x, tail);
      assert rest[0] == x || (tail != [] && rest[0] == tail[0]);
      AscendingCons(s[0], rest);
    } else {
      if s != [] { AscendingCons(x, s); }
    }
  }

  lemma {:induction false} SortedSorts(s: seq<real>)
    ensures Ascending(Sorted(s)) && multiset(Sorted(s)) == multiset(s)
  {
    if s != [] {
      SortedSorts(s[1..]);
      InsertKeepsOrder(s[0], Sorted(s[1..]));
      assert s == [s[0]] + s[1..];
    }
  }

  function Middle(s: seq<real>): real
    requires s != []
  {
    var m := |s| / 2;
    if |s| % 2 == 1 then s[m] else (s[m - 1] + s[m]) / 2.0
  }

  function MedianOf(s: seq<real>): real
    requires s != []
  {
    Middle(Sorted(s))
  }

  lemma LeastComesFirst(a: seq<real>, b: seq<real>)
    requires a != [] && Ascending(a) && multiset(a) == multiset(b)
    ensures |a| == |b| && a[0] <= b[0]
  {
    assert |a| == |multiset(a)| == |multiset(b)| == |b|;
    assert b[0] in multiset(a);
  }

  lemma SplitHead(a: seq<real>)
    requires a != []
    ensures multiset(a) == multiset{a[0]} + multiset(a[1..])
  {
    assert a == [a[0]] + a[1..];
  }

  lemma {:induction false} SortedIsUnique(a: seq<real>, b: seq<real>)
    requires Ascending(a) && Ascending(b) && multiset(a) == multiset(b)
    ensures a == b
  {
    if a != [] {
      LeastComesFirst(a, b);
      LeastComesFirst(b, a);
      SplitHead(a);
      SplitHead(b);
      assert multiset(a[1..]) == multiset(b[1..]) by {
        assert multiset(a[1..]) == multiset(a) - multiset{a[0]};
        assert multiset(b[1..]) == multiset(b) - multiset{a[0]};
      }
      SortedIsUnique(a[1..], b[1..]);
      assert a == [a[0]] + a[1..] && b == [b[0]] + b[1..];
    } else {
      assert |b| == |multiset(b)| == 0;
    }
  }

  /** There is only one way to sort. */
  lemma OneArrangement(a: seq<real>, b: seq<real>)
    requires Ascending(a) && multiset(a) == multiset(b)
    ensures a == Sorted(b)
  {
    hide Ascending, Sorted;
    SortedSorts(b);
    SortedIsUnique(a, Sorted(b));
  }

  /** Reordering the samples does not change the median. */
  lemma MedianIgnoresOrder(a: seq<real>, b: seq<real>)
    requires a != [] && b != [] && multiset(a) == multiset(b)
    ensures MedianOf(a) == MedianOf(b)
  {
    SortedSorts(a);
    SortedSorts(b);
    SortedIsUnique(Sorted(a), Sorted(b));
  }

  /** In any ascending arrangement the median is the middle value, or half way between the two. */
  lemma MedianIsMiddle(s: seq<real>, a: seq<real>)
    requires s != [] && Ascending(a) && multiset(a) == multiset(s)
    ensures |a| == |s|
    ensures MedianOf(s) == if |s| % 2 == 1 then a[|s| / 2] else (a[|s| / 2 - 1] + a[|s| / 2]) / 2.0
  {
    OneArrangement(a, s);
  }

  /** The part of the number line that is being counted. */
  datatype Region = Below(v: real) | Above(v: real) | Within(lo: real, hi: real) {
    predicate Has(x: real) {
      match this
      case Below(v) => x < v
      case Above(v) => x > v
      case Within(lo, hi) => lo <= x <= hi
    }
  }

  function Count(s: seq<real>, p: Region): (n: nat) {
    if s == [] then 0 else (if p.Has(s[0]) then 1 else 0) + Count(s[1..], p)
  }

  lemma {:induction false} CountConcat(a: seq<real>, b: seq<real>, p: Region)
    ensures Count(a + b, p) == Count(a, p) + Count(b, p)
  {
    if a == [] {
      assert a + b == b;
    } else {
      assert (a + b)[1..] == a[1..] + b;
      CountConcat(a[1..], b, p);
    }
  }

  lemma {:induction false} CountAll(s: seq<real>, p: Region)
    requires forall k :: 0 <= k < |s| ==> p.Has(s[k])
    ensures Count(s, p) == |s|
  {
    if s != [] {
      CountAll(s[1..], p);
    }
  }

  lemma {:induction false} CountInsert(x: real, s: seq<real>, p: Region)
    requires Ascending(s)
    ensures Count(Insert(x, s), p) == Count([x], p) + Count(s, p)
  {
    if s != [] && x > s[0] {
      CountInsert(x, s[1..], p);
      var r := Insert(x, s);
      assert r[1..] == Insert(x, s[1..]);
    } else {
      CountConcat([x], s, p);
    }
  }

  lemma {:induction false} CountSorted(s: seq<real>, p: Region)
    ensures Count(Sorted(s), p) == Count(s, p)
  {
    if s != [] {
      CountSorted(s[1..], p);
      SortedSorts(s[1..]);
      CountInsert(s[0], Sorted(s[1..]), p);
    }
  }

  /** A stretch of s that lies in the region bounds Count from below. */
  lemma CountStretch(s: seq<real>, lo: nat, hi: nat, p: Region)
    requires lo <= hi <= |s|
    requires forall k :: lo <= k < hi ==> p.Has(s[k])
    ensures Count(s, p) >= hi - lo
  {
    assert s == s[..lo] + (s[lo..hi] + s[hi..]);
    CountConcat(s[..lo], s[lo..hi] + s[hi..], p);
    CountConcat(s[lo..hi], s[hi..], p);
    CountAll(s[lo..hi], p);
  }

  lemma {:induction false} CountDisjoint(s: seq<real>, p: Region, q: Region)
    requires forall x :: p.Has(x) ==> !q.Has(x)
    ensures Count(s, p) + Count(s, q) <= |s|
  {
    if s != [] {
      CountDisjoint(s[1..], p, q);
    }
  }

  lemma MiddleOfAscending(r: seq<real>)
    requires r != [] && Ascending(r)
    ensures r[(|r| - 1) / 2] <= Middle(r) <= r[|r| / 2]
  {
  }

  /** At most half of the samples lie strictly below the median and at most half strictly
      above it: at least half are on each side. */
  lemma MedianHalves(s: seq<real>)
    requires s != []
    ensures 2 * Count(s, Below(MedianOf(s))) <= |s|
    ensures 2 * Count(s, Above(MedianOf(s))) <= |s|
  {
    var r, v := Sorted(s), MedianOf(s);
    SortedSorts(s);
    CountSorted(s, Below(v));
    CountSorted(s, Above(v));
    MiddleOfAscending(r);
    AtLeast(r, |r| / 2, v);
    AtMost(r, (|r| - 1) / 2, v);
  }

  lemma AtLeast(r: seq<real>, k: nat, v: real)
    requires k < |r| && Ascending(r) && v <= r[k]
    ensures Count(r, Below(v)) <= k
  {
    CountStretch(r, k, |r|, Within(v, r[|r| - 1]));
    CountDisjoint(r, Below(v), Within(v, r[|r| - 1]));
  }

  lemma AtMost(r: seq<real>, k: nat, v: real)
    requires k < |r| && Ascending(r) && r[k] <= v
    ensures Count(r, Above(v)) <= |r| - k - 1
  {
    CountStretch(r, 0, k + 1, Within(r[0], v));
    CountDisjoint(r, Above(v), Within(r[0], v));
  }

  /** If more than half of the samples lie in a band, so does the median. */
  lemma MedianInBand(s: seq<real>, lo: real, hi: real)
    requires s != []
    requires 2 * Count(s, Within(lo, hi)) > |s|
    ensures lo <= MedianOf(s) <= hi
  {
    var r := Sorted(s);
    SortedSorts(s);
    CountSorted(s, Within(lo, hi));
    MiddleOfAscending(r);
    // Were a middle element outside the band, half of r would be outside with it.
    if r[(|r| - 1) / 2] < lo {
      AllBelow(r, (|r| - 1) / 2, lo, hi);
    }
    if r[|r| / 2] > hi {
      AllAbove(r, |r| / 2, lo, hi);
    }
  }

  lemma AllBelow(r: seq<real>, k: nat, lo: real, hi: real)
    requires k < |r| && Ascending(r) && r[k] < lo
    ensures Count(r, Within(lo, hi)) <= |r| - k - 1
  {
    CountStretch(r, 0, k + 1, Below(lo));
    CountDisjoint(r, Within(lo, hi), Below(lo));
  }

  lemma AllAbove(r: seq<real>, k: nat, lo: real, hi: real)
    requires k < |r| && Ascending(r) && r[k] > hi
    ensures Count(r, Within(lo, hi)) <= k
  {
    CountStretch(r, k, |r|, Above(hi));
    CountDisjoint(r, Within(lo, hi), Above(hi));
  }

  method SwapDown(s: array<real>, j: nat)
    requires 0 < j < s.Length
    modifies s
    ensures multiset(s[..]) == multiset(old(s[..]))
    ensures s[j] == old(s[j - 1]) && s[j - 1] == old(s[j])
    ensures forall k :: 0 <= k < s.Length && k != j && k != j - 1 ==> s[k] == old(s[k])
  {
    s[j], s[j - 1] := s[j - 1], s[j];
  }

  /** Inner loop of the insertion sort: sinks s[i] into the sorted prefix s[..i]. */
  method Sink(s: array<real>, i: nat)
    requires i < s.Length && Ascending(s[..i])
    modifies s
    ensures Ascending(s[..i + 1])
    ensures multiset(s[..]) == multiset(old(s[..]))
  {
    var j := i;
    while j > 0 && s[j] < s[j - 1]
      invariant 0 <= j <= i
      invariant forall a, b :: 0 <= a < b <= i && b != j ==> s[a] <= s[b]
      invariant multiset(s[..]) == multiset(old(s[..]))
    {
      SwapDown(s, j);
      j := j - 1;
    }
  }

  method InsertionSort(s: array<real>)
    requires s.Length > 0
    modifies s
    ensures Ascending(s[..]) && multiset(s[..]) == multiset(old(s[..]))
  {
    var i := 1;
    while i < s.Length
      invariant 1 <= i <= s.Length
      invariant Ascending(s[..i])
      invariant multiset(s[..]) == multiset(old(s[..]))
    {
      Sink(s, i);
      i := i + 1;
    }
    assert s[..i] == s[..];
  }

  method SortedCopy(v: array<real>) returns (s: array<real>)
    requires v.Length > 0
    ensures fresh(s) && s[..] == Sorted(v[..])
  {
    s := new real[v.Length];
    forall i | 0 <= i < v.Length {
      s[i] := v[i];
    }
    assert s[..] == v[..];
    InsertionSort(s);
    OneArrangement(s[..], v[..]);
  }

  /** The scorer's median: an insertion sort in place on a copy of v.  v itself is not in the
      frame, so the caller's slice is untouched. */
  method ScoreMedian(v: array<real>) returns (r: real)
    ensures r == if v.Length == 0 then 0.0 else MedianOf(v[..])
  {
    if v.Length == 0 {
      return 0.0;
    }
    var s := SortedCopy(v);
    var m := s.Length / 2;
    if s.Length % 2 == 1 {
      return s[m];
    }
    return (s[m - 1] + s[m]) / 2.0;
  }

  /** The library sort, known by its specification alone: the same values, in ascending order. */
  method LibrarySort(s: array<real>)
    modifies s
    ensures Ascending(s[..]) && multiset(s[..]) == multiset(old(s[..]))
  {
    if s.Length > 0 {
      InsertionSort(s);
    }
  }

  /** The trigger's median: the scores are copied and sorted by the library sort.  That any two
      sorts agree is what makes it the scorer's median.  The caller guarantees a sample. */
  method SortedMedian(scores: seq<real>) returns (r: real)
    requires scores != []
    ensures r == MedianOf(scores)
  {
    hide Ascending, Sorted;
    var s := new real[|scores|];
    var i := 0;
    while i < |scores|
      invariant 0 <= i <= |scores|
      invariant forall k :: 0 <= k < i ==> s[k] == scores[k]
    {
      s[i] := scores[i];
      i := i + 1;
    }
    assert s[..] == scores;
    LibrarySort(s);
    OneArrangement(s[..], scores);
    var m := s.Length / 2;
    if s.Length % 2 == 1 {
      return s[m];
    }
    return (s[m - 1] + s[m]) / 2.0;
  }
}
