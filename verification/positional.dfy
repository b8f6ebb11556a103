/** Big-endian positional notation: values, their digits, and lexicographic order. */
module Positional {

  lemma Grows(a: int, b: int, c: int)
    requires a <= b && c >= 0
    ensures a * c <= b * c
  {
  }

  function Quotient(v: int, base: int): int
    requires base > 0
  {
    v / base
  }

  function Rest(v: int, base: int): (r: int)
    requires base > 0
    ensures 0 <= r < base
  {
    v % base
  }

  lemma Division(v: int, base: int)
    requires base > 0
    ensures v == Quotient(v, base) * base + Rest(v, base)
  {
  }

  /** A quotient and a rest are unique. */
  lemma Unique(p: int, r: int, q: int, t: int, base: int)
    requires 0 <= r < base && 0 <= t < base && p * base + r == q * base + t
    ensures p == q && r == t
  {
    if p < q {
      Grows(p + 1, q, base);
    } else if q < p {
      Grows(q + 1, p, base);
    }
  }

  predicate AreDigits(s: seq<int>, base: int) {
    forall i :: 0 <= i < |s| ==> 0 <= s[i] < base
  }

  function Pow(base: int, n: nat): int {
    if n == 0 then 1 else Pow(base, n - 1) * base
  }

  function Value(s: seq<int>, base: int): int {
    if s == [] then 0 else Value(s[..|s| - 1], base) * base + s[|s| - 1]
  }

  /** The n digits of v modulo base to the n. */
  function Digits(v: int, base: int, n: nat): (r: seq<int>)
    requires base > 0
    ensures |r| == n && AreDigits(r, base)
    decreases n
  {
    if n == 0 then [] else Digits(Quotient(v, base), base, n - 1) + [Rest(v, base)]
  }

  lemma {:induction false} PowIsPositive(base: int, n: nat)
    requires base > 0
    ensures Pow(base, n) > 0
  {
    if n > 0 {
      PowIsPositive(base, n - 1);
    }
  }

  lemma {:induction false} PowSum(base: int, m: nat, n: nat)
    ensures Pow(base, m + n) == Pow(base, m) * Pow(base, n)
  {
    if n > 0 {
      PowSum(base, m, n - 1);
      assert Pow(base, m + n) == Pow(base, m) * Pow(base, n - 1) * base;
    }
  }

  lemma AppendIsBounded(high: int, digit: int, limit: int, base: int)
    requires 0 <= high < limit && 0 <= digit < base
    ensures 0 <= high * base + digit < limit * base
  {
    Grows(high + 1, limit, base);
    Grows(0, high, base);
  }

  lemma {:induction false} ValueIsBounded(s: seq<int>, base: int)
    requires base > 0 && AreDigits(s, base)
    ensures 0 <= Value(s, base) < Pow(base, |s|)
  {
    if s != [] {
      var high := s[..|s| - 1];
      ValueIsBounded(high, base);
      AppendIsBounded(Value(high, base), s[|s| - 1], Pow(base, |high|), base);
    }
  }

  lemma {:induction false} ValueOfConcat(a: seq<int>, b: seq<int>, base: int)
    ensures Value(a + b, base) == Value(a, base) * Pow(base, |b|) + Value(b, base)
  {
    if b == [] {
      assert a + b == a;
    } else {
      var high, c := b[..|b| - 1], b[|b| - 1];
      assert (a + b)[..|a + b| - 1] == a + high;
      ValueOfConcat(a, high, base);
      assert (Value(a, base) * Pow(base, |high|) + Value(high, base)) * base + c
        == Value(a, base) * (Pow(base, |high|) * base) + (Value(high, base) * base + c);
    }
  }

  lemma QuotientIsSmaller(v: int, base: int, limit: int)
    requires base > 0 && 0 <= v < limit * base
    ensures 0 <= Quotient(v, base) < limit
  {
    hide Quotient, Rest;
    Division(v, base);
    var q := Quotient(v, base);
    if q >= limit {
      Grows(limit, q, base);
    } else if q < 0 {
      Grows(q, -1, base);
    }
  }

  /** Reading what was written. */
  lemma {:induction false} ValueOfDigits(v: int, base: int, n: nat)
    requires base > 0 && 0 <= v < Pow(base, n)
    ensures Value(Digits(v, base, n), base) == v
    decreases n
  {
    if n > 0 {
      hide Quotient, Rest;
      Division(v, base);
      QuotientIsSmaller(v, base, Pow(base, n - 1));
      ValueOfDigits(Quotient(v, base), base, n - 1);
      assert Digits(v, base, n)[..n - 1] == Digits(Quotient(v, base), base, n - 1);
    }
  }

  /** Writing what was read. */
  lemma {:induction false} DigitsOfValue(s: seq<int>, base: int)
    requires base > 0 && AreDigits(s, base)
    ensures Digits(Value(s, base), base, |s|) == s
  {
    if s != [] {
      var high, d := s[..|s| - 1], s[|s| - 1];
      DigitsOfValue(high, base);
      ValueIsBounded(high, base);
      var v := Value(high, base) * base + d;
      hide Quotient, Rest;
      Division(v, base);
      Unique(Quotient(v, base), Rest(v, base), Value(high, base), d, base);
      assert s == high + [d];
    }
  }

  /** a comes before b: they first differ at k, where a is less. */
  predicate BeforeAt(a: seq<int>, b: seq<int>, k: nat)
    requires k < |a| == |b|
  {
    a[..k] == b[..k] && a[k] < b[k]
  }

  predicate Before(a: seq<int>, b: seq<int>)
    requires |a| == |b|
  {
    exists k :: 0 <= k < |a| && BeforeAt(a, b, k)
  }

  lemma Outweighs(u: int, v: int, w: int, x: int, y: int)
    requires u < v && x < w && 0 <= y && w >= 0
    ensures u * w + x < v * w + y
  {
    Grows(u + 1, v, w);
  }

  /** Splits s after k: the digits up to k outweigh the rest. */
  lemma SplitAfter(s: seq<int>, k: nat, base: int)
    requires base > 0 && k < |s| && AreDigits(s, base)
    ensures Value(s, base)
      == (Value(s[..k], base) * base + s[k]) * Pow(base, |s| - k - 1) + Value(s[k + 1..], base)
    ensures 0 <= Value(s[k + 1..], base) < Pow(base, |s| - k - 1)
  {
    var p, x := s[..k] + [s[k]], s[k + 1..];
    assert s == p + x && p[..k] == s[..k];
    ValueOfConcat(p, x, base);
    ValueIsBounded(x, base);
  }

  lemma BeforeIsLess(a: seq<int>, b: seq<int>, base: int)
    requires base > 0 && |a| == |b| && AreDigits(a, base) && AreDigits(b, base)
    requires Before(a, b)
    ensures Value(a, base) < Value(b, base)
  {
    hide Value, Pow, AreDigits;
    var k :| 0 <= k < |a| && BeforeAt(a, b, k);
    SplitAfter(a, k, base);
    SplitAfter(b, k, base);
    var high := Value(a[..k], base) * base;
    Outweighs(high + a[k], high + b[k], Pow(base, |a| - k - 1),
              Value(a[k + 1..], base), Value(b[k + 1..], base));
  }

  lemma FirstDifference(a: seq<int>, b: seq<int>)
    requires |a| == |b| && a != b
    ensures Before(a, b) || Before(b, a)
  {
    assert a == a[..|a|] && b == b[..|a|];
    var k := 0;
    while k < |a| && a[k] == b[k]
      invariant 0 <= k <= |a| && a[..k] == b[..k]
    {
      k := k + 1;
      assert a[..k] == a[..k - 1] + [a[k - 1]] && b[..k] == b[..k - 1] + [b[k - 1]];
    }
    assert BeforeAt(a, b, k) || BeforeAt(b, a, k);
  }

  /** Lexicographic order of equally long digit strings is the order of their values. */
  lemma OrderOfDigits(a: seq<int>, b: seq<int>, base: int)
    requires base > 0 && |a| == |b| && AreDigits(a, base) && AreDigits(b, base)
    ensures Before(a, b) <==> Value(a, base) < Value(b, base)
    ensures a == b <==> Value(a, base) == Value(b, base)
  {
    if a != b {
      FirstDifference(a, b);
      if Before(a, b) {
        BeforeIsLess(a, b, base);
      }
      if Before(b, a) {
        BeforeIsLess(b, a, base);
      }
    }
  }
}
