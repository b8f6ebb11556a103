/** Identifiers: a 48-bit millisecond timestamp and 80 bits of entropy, written in base 32.  A
    byte is an integer below 256; a machine word's wrap-around is written out. */
module Ulid {
  import opened Positional

  const ALPHABET := "0123456789ABCDEFGHJKMNPQRSTVWXYZ"

  function Symbols(ds: seq<int>): (s: string)
    requires AreDigits(ds, 32)
    ensures |s| == |ds|
  {
    seq(|ds|, i requires 0 <= i < |ds| => ALPHABET[ds[i]])
  }

  /** What the encoder promises: 26 base-32 symbols for four times the 128-bit number. */
  function Encoded(b: seq<int>): string {
    Symbols(Digits(4 * Value(b, 256), 32, 26))
  }

  lemma TakeByte(d: int, p: int, val: int, x: int)
    ensures (d * p + val) * 256 + x == d * (p * 256) + (val * 256 + x)
  {
  }

  lemma GiveDigit(d: int, p: int, q: int, r: int)
    ensures d * (p * 32) + (q * p + r) == (d * 32 + q) * p + r
  {
  }

  lemma SmallPowers()
    ensures Pow(2, 0) == 1 && Pow(2, 3) == 8 && Pow(2, 5) == 32 && Pow(2, 8) == 256
  {
    assert Pow(2, 2) == 4 && Pow(2, 4) == 16 && Pow(2, 6) == 64;
  }

  lemma Append(ds: seq<int>, d: int, base: int)
    ensures Value(ds + [d], base) == Value(ds, base) * base + d
  {
    assert (ds + [d])[..|ds|] == ds;
  }

  /** The bit buffer holds what has been read and not yet written. */
  ghost predicate Buffer(b: seq<int>, ds: seq<int>, bits: nat, val: int) {
    && AreDigits(ds, 32) && 0 <= val < Pow(2, bits)
    && 5 * |ds| + bits == 8 * |b|
    && Value(ds, 32) * Pow(2, bits) + val == Value(b, 256)
  }

  lemma ReadByte(b: seq<int>, x: int, ds: seq<int>, bits: nat, val: int)
    requires Buffer(b, ds, bits, val) && 0 <= x < 256
    ensures Buffer(b + [x], ds, bits + 8, val * 256 + x)
  {
    SmallPowers();
    PowSum(2, bits, 8);
    hide Pow;
    Append(b, x, 256);
    hide Value;
    AppendIsBounded(val, x, Pow(2, bits), 256);
    TakeByte(Value(ds, 32), Pow(2, bits), val, x);
  }

  lemma WriteDigit(b: seq<int>, ds: seq<int>, bits: nat, val: int)
    requires Buffer(b, ds, bits + 5, val)
    ensures Pow(2, bits) > 0 && AreDigits(ds, 32) && 5 * (|ds| + 1) + bits == 8 * |b|
    ensures var q, r := Quotient(val, Pow(2, bits)), Rest(val, Pow(2, bits));
      0 <= q < 32 && Buffer(b, ds + [q], bits, r)
  {
    SmallPowers();
    PowSum(2, bits, 5);
    PowIsPositive(2, bits);
    hide Pow, Quotient, Rest;
    var p := Pow(2, bits);
    var q, r := Quotient(val, p), Rest(val, p);
    Division(val, p);
    QuotientIsSmaller(val, p, 32);
    Append(ds, q, 32);
    hide Value;
    GiveDigit(Value(ds, 32), p, q, r);
  }

  /** The bit-buffer loop: eight bits in, five out, and the last three bits left-aligned. */
  method Encode(b: array<int>) returns (s: string)
    requires b.Length == 16 && AreDigits(b[..], 256)
    ensures s == Encoded(b[..])
  {
    hide Value, Pow, Digits, Symbols;
    var out := new char[26];
    var bits: nat, val, n: nat := 0, 0, 0;
    ghost var ds: seq<int> := [];
    EmptyBuffer();
    for i := 0 to b.Length
      invariant bits < 5 && n == |ds| && Buffer(b[..i], ds, bits, val)
      invariant out[..n] == Symbols(ds)
    {
      ReadByte(b[..i], b[i], ds, bits, val);
      assert b[..i + 1] == b[..i] + [b[i]];
      bits, val, n, ds := WriteDigits(out, b[..i + 1], bits + 8, val * 256 + b[i], n, ds);
    }
    assert b[..] == b[..b.Length];
    LastDigit(b[..], ds, val);
    if bits > 0 {
      n, ds := Put(out, n, val * Pow(2, 5 - bits) % 32, ds);
    }
    s := Pad(out, n, ds, 4 * Value(b[..], 256));
  }

  method Put(out: array<char>, at: nat, d: int, ghost before: seq<int>) returns (n: nat, ghost ds: seq<int>)
    requires at == |before| < out.Length && AreDigits(before, 32) && 0 <= d < 32
    requires out[..at] == Symbols(before)
    modifies out
    ensures n == at + 1 && ds == before + [d]
    ensures out[..n] == Symbols(ds)
  {
    out[at] := ALPHABET[d];
    n := at + 1;
    ds := before + [d];
  }

  /** The inner loop: writes five bits while there are five. */
  method WriteDigits(out: array<char>, ghost b: seq<int>, bits0: nat, val0: int, n0: nat, ghost ds0: seq<int>)
    returns (bits: nat, val: int, n: nat, ghost ds: seq<int>)
    requires out.Length == 26 && |b| <= 16 && n0 == |ds0| <= 26 && AreDigits(ds0, 32)
    requires Buffer(b, ds0, bits0, val0) && out[..n0] == Symbols(ds0)
    modifies out
    ensures bits < 5 && n == |ds| <= 26 && AreDigits(ds, 32)
    ensures Buffer(b, ds, bits, val) && out[..n] == Symbols(ds)
  {
    hide Buffer, Pow, Quotient, Rest, Symbols;
    bits, val, n, ds := bits0, val0, n0, ds0;
    while bits >= 5
      invariant n == |ds| <= 26 && AreDigits(ds, 32)
      invariant Buffer(b, ds, bits, val) && out[..n] == Symbols(ds)
    {
      bits := bits - 5;
      WriteDigit(b, ds, bits, val);
      n, ds := Put(out, n, Quotient(val, Pow(2, bits)) % 32, ds);
      val := Rest(val, Pow(2, bits));
    }
  }

  /** Pads what has been written with zero symbols up to 26. */
  method Pad(out: array<char>, n0: nat, ghost ds0: seq<int>, ghost v: int) returns (s: string)
    requires out.Length == 26 && n0 == |ds0| <= 26 && AreDigits(ds0, 32) && out[..n0] == Symbols(ds0)
    requires Value(ds0, 32) * Pow(32, 26 - n0) == v
    modifies out
    ensures s == Symbols(Digits(v, 32, 26))
  {
    hide Value, Pow, Symbols;
    var n := n0;
    ghost var ds := ds0;
    while n < 26
      invariant n == |ds| <= 26 && AreDigits(ds, 32) && out[..n] == Symbols(ds)
      invariant Value(ds, 32) * Pow(32, 26 - n) == v
    {
      PadDigit(ds, 26 - n);
      n, ds := Put(out, n, 0, ds);
    }
    PadDigit(ds, 0);
    DigitsOfValue(ds, 32);
    assert out[..] == out[..26];
    s := out[..];
  }

  lemma EmptyBuffer()
    ensures Buffer([], [], 0, 0)
  {
  }

  /** Three bits are left; shifted up by two they are the last digit, of value 4N. */
  lemma LastDigit(b: seq<int>, ds: seq<int>, val: int)
    requires Buffer(b, ds, 3, val)
    ensures Pow(2, 2) == 4 && 0 <= val * 4 < 32
    ensures Value(ds + [val * 4], 32) == 4 * Value(b, 256)
    ensures Pow(32, 0) == 1
  {
    SmallPowers();
    Append(ds, val * 4, 32);
  }

  lemma PadDigit(ds: seq<int>, room: nat)
    ensures room > 0 ==> Value(ds + [0], 32) * Pow(32, room - 1) == Value(ds, 32) * Pow(32, room)
    ensures Pow(32, 0) == 1
  {
    if room > 0 {
      Append(ds, 0, 32);
      var v, p := Value(ds, 32), Pow(32, room - 1);
      assert v * 32 * p == v * (p * 32);
    }
  }

  // ---- what the text says about the bytes ----

  predicate IsId(b: seq<int>) {
    |b| == 16 && AreDigits(b, 256)
  }

  /** Reading a symbol string back. */
  function Codes(s: string): (r: seq<int>)
    ensures |r| == |s|
  {
    seq(|s|, i requires 0 <= i < |s| => s[i] as int)
  }

  lemma AlphabetAscends()
    ensures |ALPHABET| == 32
    ensures forall i, j :: 0 <= i < j < 32 ==> ALPHABET[i] < ALPHABET[j]
  {
  }

  /** The digits, and the capital letters without I, L, O and U. */
  lemma AlphabetHas(ch: char)
    ensures ch in ALPHABET <==> '0' <= ch <= '9' || ('A' <= ch <= 'Z' && ch !in "ILOU")
  {
  }

  /** Symbol strings compare as their digits do. */
  lemma SymbolsKeepOrder(x: seq<int>, y: seq<int>)
    requires |x| == |y| && AreDigits(x, 32) && AreDigits(y, 32)
    ensures Before(Codes(Symbols(x)), Codes(Symbols(y))) <==> Before(x, y)
    ensures Symbols(x) == Symbols(y) <==> x == y
  {
    AlphabetAscends();
    if x != y {
      FirstDifference(x, y);
      if Before(x, y) {
        SymbolsBefore(x, y);
      } else {
        SymbolsBefore(y, x);
        NotBoth(Codes(Symbols(y)), Codes(Symbols(x)));
      }
      if Before(y, x) && Before(x, y) {
        NotBoth(x, y);
      }
    }
  }

  lemma SymbolsBefore(x: seq<int>, y: seq<int>)
    requires |x| == |y| && AreDigits(x, 32) && AreDigits(y, 32) && Before(x, y)
    ensures Before(Codes(Symbols(x)), Codes(Symbols(y)))
    ensures Symbols(x) != Symbols(y)
  {
    AlphabetAscends();
    var k :| 0 <= k < |x| && BeforeAt(x, y, k);
    assert forall i :: 0 <= i < k ==> x[i] == x[..k][i] && y[i] == y[..k][i];
    assert BeforeAt(Codes(Symbols(x)), Codes(Symbols(y)), k);
    assert Symbols(x)[k] != Symbols(y)[k];
  }

  lemma NotBoth(x: seq<int>, y: seq<int>)
    requires |x| == |y| && Before(x, y)
    ensures !Before(y, x)
  {
    var k :| 0 <= k < |x| && BeforeAt(x, y, k);
    forall j | 0 <= j < |x| ensures !BeforeAt(y, x, j) {
      assert x[..k] == y[..k] && x[..j] == y[..j] ==> (j < k ==> x[..k][j] == y[..k][j]);
      assert j > k ==> x[..j][k] != y[..j][k];
    }
  }

  lemma FourTimesFits(b: seq<int>)
    requires IsId(b)
    ensures 0 <= 4 * Value(b, 256) < Pow(32, 26)
  {
    ValueIsBounded(b, 256);
    assert Pow(256, 4) == 0x1_0000_0000 by {
      assert Pow(256, 2) == 0x1_0000;
    }
    PowSum(256, 4, 4);
    PowSum(256, 8, 8);
    assert Pow(32, 4) == 0x10_0000 by {
      assert Pow(32, 2) == 0x400;
    }
    PowSum(32, 4, 4);
    PowSum(32, 8, 8);
    PowSum(32, 16, 8);
    PowSum(32, 24, 2);
  }

  /** Different identifiers have different texts, and texts sort as the bytes do. */
  lemma TextKeepsOrder(a: seq<int>, b: seq<int>)
    requires IsId(a) && IsId(b)
    ensures Encoded(a) == Encoded(b) <==> a == b
    ensures Before(Codes(Encoded(a)), Codes(Encoded(b))) <==> Before(a, b)
  {
    hide Pow;
    var u, v := 4 * Value(a, 256), 4 * Value(b, 256);
    FourTimesFits(a);
    FourTimesFits(b);
    ValueOfDigits(u, 32, 26);
    ValueOfDigits(v, 32, 26);
    OrderOfDigits(Digits(u, 32, 26), Digits(v, 32, 26), 32);
    OrderOfDigits(a, b, 256);
    SymbolsKeepOrder(Digits(u, 32, 26), Digits(v, 32, 26));
  }

  /** The canonical text pads at the top; the code pads at the bottom.  They agree only on the
      all-zero identifier. */
  lemma CanonicalOnlyForZero(b: seq<int>)
    requires IsId(b)
    ensures Encoded(b) == Symbols(Digits(Value(b, 256), 32, 26)) <==> Value(b, 256) == 0
  {
    hide Pow, Digits, Value, Symbols;
    var v := Value(b, 256);
    FourTimesFits(b);
    ValueIsBounded(b, 256);
    ValueOfDigits(v, 32, 26);
    ValueOfDigits(4 * v, 32, 26);
    SymbolsKeepOrder(Digits(4 * v, 32, 26), Digits(v, 32, 26));
  }

  // ---- the entropy counter ----

  predicate AllAre(s: seq<int>, d: int) {
    forall i :: 0 <= i < |s| ==> s[i] == d
  }

  lemma {:induction false} ValueOfEnds(s: seq<int>)
    ensures AllAre(s, 0) ==> Value(s, 256) == 0
    ensures AllAre(s, 255) ==> Value(s, 256) == Pow(256, |s|) - 1
  {
    if s != [] {
      ValueOfEnds(s[..|s| - 1]);
    }
  }

  /** A carry that stops at i adds one. */
  lemma Carried(s: seq<int>, t: seq<int>, i: nat)
    requires |s| == |t| && i < |s| && AreDigits(s, 256) && AreDigits(t, 256)
    requires t[..i] == s[..i] && t[i] == s[i] + 1 && AllAre(s[i + 1..], 255) && AllAre(t[i + 1..], 0)
    ensures Value(t, 256) == Value(s, 256) + 1
  {
    SplitAfter(s, i, 256);
    SplitAfter(t, i, 256);
    ValueOfEnds(s[i + 1..]);
    ValueOfEnds(t[i + 1..]);
    hide Value, Pow, AllAre, AreDigits;
    OneMore(Value(s[..i], 256) * 256 + s[i], Pow(256, |s| - i - 1));
  }

  lemma OneMore(high: int, p: int)
    ensures (high + 1) * p == high * p + p
  {
  }

  /** One more, modulo the size of the counter. */
  function Successor(v: int, size: int): int {
    if v + 1 == size then 0 else v + 1
  }

  method Increment(e: array<int>)
    requires AreDigits(e[..], 256)
    modifies e
    ensures AreDigits(e[..], 256)
    ensures Value(e[..], 256) == Successor(old(Value(e[..], 256)), Pow(256, e.Length))
  {
    hide Value, Pow;
    ghost var s := e[..];
    for i := e.Length downto 0
      invariant AreDigits(e[..], 256) && e[..i] == s[..i]
      invariant AllAre(s[i..], 255) && AllAre(e[i..], 0)
    {
      e[i] := (e[i] + 1) % 256;
      if e[i] != 0 {
        assert e[i + 1..] == e[i..][1..] && e[..][i] == s[i] + 1;
        Carried(s, e[..], i);
        ValueIsBounded(e[..], 256);
        return;
      }
    }
    assert s == s[0..] && e[..] == e[0..];
    ValueOfEnds(s);
    ValueOfEnds(e[..]);
  }

  // ---- the generator ----

  const CLOCK := 0x1_0000_0000_0000
  const COUNTER := Pow(256, 10)

  /** The last millisecond and the last entropy. */
  datatype Last = Last(ms: nat, entropy: int) {
    predicate Valid() { 0 <= entropy < COUNTER }

    /** The 128 bits handed out; the clock is cut to 48 bits. */
    function Number(): int { ms % CLOCK * COUNTER + entropy }

    /** A call at the given clock reading with the given random number. */
    function Next(now: nat, random: int): Last {
      Last(now, if now == ms then Successor(entropy, COUNTER) else random)
    }

    /** The call would wrap the counter within one millisecond. */
    predicate Wraps(now: nat) { now == ms && entropy + 1 == COUNTER }
  }

  class Generator {
    var lastMS: nat
    const lastEnt: array<int>

    ghost predicate Valid()
      reads this, lastEnt
    {
      lastEnt.Length == 10 && AreDigits(lastEnt[..], 256)
    }

    ghost function State(): Last
      reads this, lastEnt
      requires Valid()
    {
      Last(lastMS, Value(lastEnt[..], 256))
    }

    constructor ()
      ensures Valid() && State() == Last(0, 0) && fresh(lastEnt)
    {
      lastMS := 0;
      lastEnt := new int[10](_ => 0);
      new;
      ValueOfEnds(lastEnt[..]);
    }

    method New(now: nat, ent: seq<int>) returns (s: string)
      requires Valid() && |ent| == 10 && AreDigits(ent, 256)
      modifies this, lastEnt
      ensures Valid() && State() == old(State()).Next(now, Value(ent, 256))
      ensures State().Valid() && s == Text(State())
    {
      hide Value, Pow, Digits;
      if now == lastMS {
        Increment(lastEnt);
      } else {
        lastMS := now;
        forall i | 0 <= i < 10 {
          lastEnt[i] := ent[i];
        }
        assert lastEnt[..] == ent;
      }
      var b := new int[16];
      ClockBytes(now);
      forall i | 0 <= i < 6 {
        b[i] := [now / 0x100_0000_0000, now / 0x1_0000_0000, now / 0x100_0000,
                 now / 0x1_0000, now / 0x100, now][i] % 256;
      }
      forall i | 0 <= i < 10 {
        b[6 + i] := lastEnt[i];
      }
      assert b[..] == Digits(now % CLOCK, 256, 6) + lastEnt[..];
      ValueIsBounded(lastEnt[..], 256);
      DigitsOfValue(lastEnt[..], 256);
      s := Encode(b);
    }
  }

  /** The text of an identifier: six clock bytes, then ten counter bytes. */
  function Text(l: Last): string
    requires l.Valid()
  {
    Encoded(Bytes(l))
  }

  function Bytes(l: Last): seq<int>
    requires l.Valid()
  {
    Digits(l.ms % CLOCK, 256, 6) + Digits(l.entropy, 256, 10)
  }

  lemma ClockBytes(now: nat)
    ensures Digits(now % CLOCK, 256, 6) == [
      now / 0x100_0000_0000 % 256, now / 0x1_0000_0000 % 256, now / 0x100_0000 % 256,
      now / 0x1_0000 % 256, now / 0x100 % 256, now % 256]
  {
    var q, v := now / CLOCK, now % CLOCK;
    var v1, n1 := DropByte(now, q * 0x100_0000_0000, v);
    var v2, n2 := DropByte(n1, q * 0x1_0000_0000, v1);
    var v3, n3 := DropByte(n2, q * 0x100_0000, v2);
    var v4, n4 := DropByte(n3, q * 0x1_0000, v3);
    var v5, n5 := DropByte(n4, q * 0x100, v4);
    var v6, n6 := DropByte(n5, q, v5);
    Shifts(now);
    SixDigits(v, v1, v2, v3, v4, v5);
  }

  lemma DropByte(n: int, m: int, v: int) returns (v1: int, n1: int)
    requires n == 256 * m + v
    ensures v1 == v / 256 && n1 == n / 256 == m + v1 && n % 256 == v % 256
  {
    v1, n1 := v / 256, n / 256;
  }

  lemma Shifts(n: nat)
    ensures n / 0x1_0000 == n / 0x100 / 0x100
    ensures n / 0x100_0000 == n / 0x1_0000 / 0x100
    ensures n / 0x1_0000_0000 == n / 0x100_0000 / 0x100
    ensures n / 0x100_0000_0000 == n / 0x1_0000_0000 / 0x100
  {
  }

  lemma SixDigits(v: int, v1: int, v2: int, v3: int, v4: int, v5: int)
    requires v1 == v / 256 && v2 == v1 / 256 && v3 == v2 / 256 && v4 == v3 / 256 && v5 == v4 / 256
    ensures Digits(v, 256, 6) == [v5 % 256, v4 % 256, v3 % 256, v2 % 256, v1 % 256, v % 256]
  {
    assert Digits(v5, 256, 1) == [v5 % 256];
    assert Digits(v4, 256, 2) == [v5 % 256, v4 % 256];
    assert Digits(v3, 256, 3) == [v5 % 256, v4 % 256, v3 % 256];
    assert Digits(v2, 256, 4) == [v5 % 256, v4 % 256, v3 % 256, v2 % 256];
  }

  // ---- whole call sequences ----

  /** A call: the clock reading and the ten random bytes. */
  datatype Call = Call(now: nat, ent: seq<int>)

  /** Clock readings that never go back, within 48 bits. */
  predicate Orderly(l: Last, calls: seq<Call>) {
    && l.Valid()
    && (forall i :: 0 <= i < |calls| ==>
      l.ms <= calls[i].now < CLOCK && |calls[i].ent| == 10 && AreDigits(calls[i].ent, 256))
    && forall i, j :: 0 <= i < j < |calls| ==> calls[i].now <= calls[j].now
  }

  /** The generator after each of these calls. */
  function Trace(l: Last, calls: seq<Call>): (t: seq<Last>)
    ensures |t| == |calls|
  {
    if calls == [] then []
    else
      var n := |calls| - 1;
      var t := Trace(l, calls[..n]);
      t + [(if n == 0 then l else t[n - 1]).Next(calls[n].now, Value(calls[n].ent, 256))]
  }

  lemma {:induction false} TraceIsValid(l: Last, calls: seq<Call>)
    requires Orderly(l, calls)
    ensures forall i :: 0 <= i < |calls| ==>
      Trace(l, calls)[i].Valid() && Trace(l, calls)[i].ms == calls[i].now
  {
    if calls != [] {
      TraceIsValid(l, calls[..|calls| - 1]);
      ValueIsBounded(calls[|calls| - 1].ent, 256);
      hide Value, Pow;
    }
  }

  /** No call but the first wraps the counter within its millisecond. */
  predicate NoWrap(calls: seq<Call>, t: seq<Last>)
    requires |t| == |calls|
  {
    forall i :: 0 < i < |calls| ==> !t[i - 1].Wraps(calls[i].now)
  }

  predicate Increasing(t: seq<Last>) {
    forall i, j :: 0 <= i < j < |t| ==> t[i].Number() < t[j].Number()
  }

  /** One call gives a larger number exactly when it does not wrap. */
  lemma NextIncreases(l: Last, now: nat, random: int)
    requires l.Valid() && l.ms <= now < CLOCK && 0 <= random < COUNTER
    ensures l.Number() < l.Next(now, random).Number() <==> !l.Wraps(now)
  {
    hide Pow;
    if l.ms < now {
      Outweighs(l.ms, now, COUNTER, l.entropy, random);
    }
  }

  lemma IncreasingAppend(t: seq<Last>, x: Last)
    ensures Increasing(t + [x]) <==> Increasing(t) && (t == [] || t[|t| - 1].Number() < x.Number())
  {
    hide Last.Number;
    var u := t + [x];
    assert forall i :: 0 <= i < |t| ==> u[i] == t[i];
    if Increasing(u) && t != [] {
      assert u[|t| - 1].Number() < u[|t|].Number();
    }
  }

  /** All numbers handed out increase exactly when no call wraps. */
  lemma {:induction false} NumbersIncrease(l: Last, calls: seq<Call>)
    requires Orderly(l, calls)
    ensures Increasing(Trace(l, calls)) <==> NoWrap(calls, Trace(l, calls))
  {
    assert Increasing([]);
    hide Value, Pow, Last.Number, Last.Next, Last.Valid, Increasing;
    if |calls| > 0 {
      var n := |calls| - 1;
      var shorter := calls[..n];
      NumbersIncrease(l, shorter);
      TraceIsValid(l, shorter);
      ValueIsBounded(calls[n].ent, 256);
      hide Orderly, AreDigits;
      var t, random := Trace(l, shorter), Value(calls[n].ent, 256);
      IncreasingAppend(t, (if n == 0 then l else t[n - 1]).Next(calls[n].now, random));
      NoWrapAppend(calls, t, Trace(l, calls));
      if n > 0 {
        NextIncreases(t[n - 1], calls[n].now, random);
      }
    }
  }

  lemma NoWrapAppend(calls: seq<Call>, t: seq<Last>, u: seq<Last>)
    requires |calls| == |u| == |t| + 1 && u[..|t|] == t
    ensures NoWrap(calls, u) <==> NoWrap(calls[..|t|], t) && (t == [] || !t[|t| - 1].Wraps(calls[|t|].now))
  {
    hide Last.Wraps;
    assert forall i :: 0 <= i < |t| ==> u[i] == t[i];
  }

  /** Texts compare as the 128-bit numbers do. */
  lemma TextsCompareAsNumbers(a: Last, b: Last)
    requires a.Valid() && b.Valid()
    ensures Before(Codes(Text(a)), Codes(Text(b))) <==> a.Number() < b.Number()
    ensures Text(a) == Text(b) <==> a.Number() == b.Number()
  {
    NumberOfBytes(a);
    NumberOfBytes(b);
    TextKeepsOrder(Bytes(a), Bytes(b));
    OrderOfDigits(Bytes(a), Bytes(b), 256);
  }

  lemma NumberOfBytes(l: Last)
    requires l.Valid()
    ensures Value(Bytes(l), 256) == l.Number()
  {
    assert Pow(256, 6) == CLOCK by {
      assert Pow(256, 3) == 0x100_0000;
      PowSum(256, 3, 3);
    }
    ValueOfDigits(l.ms % CLOCK, 256, 6);
    ValueOfDigits(l.entropy, 256, 10);
    ValueOfConcat(Digits(l.ms % CLOCK, 256, 6), Digits(l.entropy, 256, 10), 256);
  }

  lemma TextLength(l: Last)
    requires l.Valid()
    ensures |Text(l)| == 26
  {
  }

  /** Any call sequence on a clock that does not go back: the texts are strictly increasing, hence
      pairwise distinct, exactly when the counter never wraps. */
  method NewMany(g: Generator, calls: seq<Call>) returns (ids: seq<string>)
    requires g.Valid() && Orderly(g.State(), calls)
    modifies g, g.lastEnt
    ensures g.Valid() && |ids| == |calls| && forall i :: 0 <= i < |ids| ==> |ids[i]| == 26
    ensures NoWrap(calls, Trace(old(g.State()), calls)) <==>
      forall i, j :: 0 <= i < j < |ids| ==> Before(Codes(ids[i]), Codes(ids[j]))
  {
    hide Value, Pow, Encoded, Last.Number, Last.Next, Before, Text, Increasing, NoWrap;
    ghost var l, t := g.State(), Trace(g.State(), calls);
    ids := [];
    for n := 0 to |calls|
      invariant g.Valid() && g.State() == if n == 0 then l else t[n - 1]
      invariant |ids| == n
      invariant forall i :: 0 <= i < n ==> t[i].Valid() && ids[i] == Text(t[i]) && |ids[i]| == 26
    {
      TracePrefix(l, calls, n);
      var s := g.New(calls[n].now, calls[n].ent);
      TextLength(g.State());
      ids := ids + [s];
    }
    NumbersIncrease(l, calls);
    TextsIncrease(t, ids);
  }

  lemma {:induction false} TracePrefix(l: Last, calls: seq<Call>, n: nat)
    requires n < |calls|
    ensures var t := Trace(l, calls);
      t[n] == (if n == 0 then l else t[n - 1]).Next(calls[n].now, Value(calls[n].ent, 256))
  {
    hide Value, Last.Next;
    if n < |calls| - 1 {
      TracePrefix(l, calls[..|calls| - 1], n);
    }
  }

  lemma TextsIncrease(t: seq<Last>, ids: seq<string>)
    requires |ids| == |t|
    requires forall i :: 0 <= i < |t| ==> t[i].Valid() && ids[i] == Text(t[i]) && |ids[i]| == 26
    ensures Increasing(t) <==> forall i, j :: 0 <= i < j < |ids| ==> Before(Codes(ids[i]), Codes(ids[j]))
  {
    hide Last.Number, Text, Before, Last.Valid;
    forall i, j | 0 <= i < j < |t|
      ensures Before(Codes(ids[i]), Codes(ids[j])) <==> t[i].Number() < t[j].Number()
    {
      TextsCompareAsNumbers(t[i], t[j]);
    }
  }
}
