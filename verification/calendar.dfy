/** Calendar dates as the YYYY-MM-DD text of RFC 3339 section 5.1, and the backfill of missed days.
    Module Durable writes a date as its day number; Number below is that number. */
module Calendar {
  import opened Wrappers
  import opened Positional

  predicate Leap(y: nat) {
    y % 4 == 0 && (y % 100 != 0 || y % 400 == 0)
  }

  function DaysIn(y: nat, m: nat): nat {
    if m == 2 then (if Leap(y) then 29 else 28)
    else if m == 4 || m == 6 || m == 9 || m == 11 then 30
    else 31
  }

  function YearLength(y: nat): nat {
    if Leap(y) then 366 else 365
  }

  datatype Ymd = Ymd(y: nat, m: nat, d: nat) {
    predicate Valid() {
      1 <= m <= 12 && 1 <= d <= DaysIn(y, m)
    }

    /** The Gregorian successor: one day is added and carried over month and year. */
    function Succ(): (n: Ymd)
      requires Valid()
      ensures n.Valid()
    {
      if d < DaysIn(y, m) then Ymd(y, m, d + 1)
      else if m < 12 then Ymd(y, m + 1, 1)
      else Ymd(y + 1, 1, 1)
    }

    /** Calendar order. */
    predicate Before(o: Ymd) {
      y < o.y || (y == o.y && (m < o.m || (m == o.m && d < o.d)))
    }

    /** Days since 0000-01-01. */
    function Number(): int {
      YearStart(y) + MonthStart(y, m) + d - 1
    }
  }

  // ---- day numbers ----

  function YearStart(y: nat): nat {
    if y == 0 then 0 else YearStart(y - 1) + YearLength(y - 1)
  }

  function MonthStart(y: nat, m: nat): nat {
    if m <= 1 then 0 else MonthStart(y, m - 1) + DaysIn(y, m - 1)
  }

  lemma {:induction false} MonthsAddUp(y: nat, m: nat, n: nat)
    requires m < n
    ensures MonthStart(y, m) + (if m >= 1 then DaysIn(y, m) else 0) <= MonthStart(y, n)
  {
    if m + 1 < n {
      MonthsAddUp(y, m, n - 1);
    }
  }

  lemma YearAddsUp(y: nat)
    ensures MonthStart(y, 12) + 31 == YearLength(y)
  {
    assert MonthStart(y, 2) == 31;
    assert MonthStart(y, 3) == 31 + DaysIn(y, 2);
    assert MonthStart(y, 4) == MonthStart(y, 3) + 31;
    assert MonthStart(y, 5) == MonthStart(y, 4) + 30;
    assert MonthStart(y, 6) == MonthStart(y, 5) + 31;
    assert MonthStart(y, 7) == MonthStart(y, 6) + 30;
    assert MonthStart(y, 8) == MonthStart(y, 7) + 31;
    assert MonthStart(y, 9) == MonthStart(y, 8) + 31;
    assert MonthStart(y, 10) == MonthStart(y, 9) + 30;
    assert MonthStart(y, 11) == MonthStart(y, 10) + 31;
  }

  lemma {:induction false} YearsAddUp(y: nat, z: nat)
    requires y < z
    ensures YearStart(y) + YearLength(y) <= YearStart(z)
  {
    if y + 1 < z {
      YearsAddUp(y, z - 1);
    }
  }

  lemma WithinYear(x: Ymd)
    requires x.Valid()
    ensures 0 <= MonthStart(x.y, x.m) + x.d - 1 < YearLength(x.y)
  {
    YearAddsUp(x.y);
    if x.m < 12 {
      MonthsAddUp(x.y, x.m, 12);
    }
  }

  /** The Gregorian calendar in closed form: a leap day every fourth year, but in only one of four
      centuries' first years; 400 years are 146097 days. */
  lemma YearStartIs(y: nat)
    ensures YearStart(y) == 365 * y + (y + 3) / 4 - (y + 99) / 100 + (y + 399) / 400
    ensures YearStart(y + 400) == YearStart(y) + 146097
  {
    hide YearStart, Multiples;
    YearFormula(y);
    YearFormula(y + 400);
    MoreMultiples(y, 4, 100);
    MoreMultiples(y, 100, 4);
    MoreMultiples(y, 400, 1);
    MultiplesAre(y);
  }

  lemma MultiplesAre(y: nat)
    ensures Multiples(y, 4) == (y + 3) / 4
    ensures Multiples(y, 100) == (y + 99) / 100
    ensures Multiples(y, 400) == (y + 399) / 400
  {
  }

  /** The number of multiples of k below y. */
  function Multiples(y: nat, k: nat): nat
    requires k > 0
  {
    (y + (k - 1)) / k
  }

  lemma OneMoreMultiple(y: nat, k: nat)
    requires k > 0
    ensures Multiples(y + 1, k) == Multiples(y, k) + if y % k == 0 then 1 else 0
  {
    var q, r := y / k, y % k;
    assert y == k * q + r;
    if r == 0 {
      QuotientIs(y + k, k, q + 1, 0);
      QuotientIs(y + (k - 1), k, q, k - 1);
    } else {
      QuotientIs(y + k, k, q + 1, r);
      QuotientIs(y + (k - 1), k, q + 1, r - 1);
    }
  }

  lemma QuotientIs(n: int, k: nat, q: int, r: int)
    requires k > 0 && 0 <= r < k && n == k * q + r
    ensures n / k == q
  {
    Division(n, k);
    Unique(Quotient(n, k), Rest(n, k), q, r, k);
  }

  lemma {:induction false} YearFormula(y: nat)
    ensures YearStart(y) == 365 * y + Multiples(y, 4) - Multiples(y, 100) + Multiples(y, 400)
  {
    hide Multiples;
    if y == 0 {
      NoMultiples();
    } else {
      YearFormula(y - 1);
      OneMoreMultiple(y - 1, 4);
      OneMoreMultiple(y - 1, 100);
      OneMoreMultiple(y - 1, 400);
      CenturyIsMultiple(y - 1);
    }
  }

  lemma NoMultiples()
    ensures Multiples(0, 4) == Multiples(0, 100) == Multiples(0, 400) == 0
  {
  }

  lemma CenturyIsMultiple(y: nat)
    ensures y % 400 == 0 ==> y % 100 == 0
    ensures y % 100 == 0 ==> y % 4 == 0
  {
    if y % 400 == 0 {
      QuotientIs(y, 100, 4 * (y / 400), 0);
    }
    if y % 100 == 0 {
      QuotientIs(y, 4, 25 * (y / 100), 0);
    }
  }

  lemma MoreMultiples(y: nat, k: nat, n: nat)
    requires k > 0
    ensures Multiples(y + k * n, k) == Multiples(y, k) + n
  {
    var q, r := (y + (k - 1)) / k, (y + (k - 1)) % k;
    assert k * (q + n) == k * q + k * n;
    QuotientIs(y + k * n + (k - 1), k, q + n, r);
  }

  /** The lengths of the months; February takes what the year leaves. */
  lemma MonthTable(y: nat, m: nat)
    requires 1 <= m <= 12
    ensures DaysIn(y, m) ==
      [31, YearStart(y + 1) - YearStart(y) - 337, 31, 30, 31, 30, 31, 31, 30, 31, 30, 31][m - 1]
  {
  }

  /** The successor is the next day, with no day between. */
  lemma SuccIsNext(x: Ymd)
    requires x.Valid()
    ensures x.Succ().Number() == x.Number() + 1
  {
    YearAddsUp(x.y);
  }

  lemma EarlierIsLess(x: Ymd, z: Ymd)
    requires x.Valid() && z.Valid() && x.Before(z)
    ensures x.Number() < z.Number()
  {
    WithinYear(x);
    WithinYear(z);
    if x.y < z.y {
      YearsAddUp(x.y, z.y);
    } else if x.m < z.m {
      MonthsAddUp(x.y, x.m, z.m);
    }
  }

  /** Day numbers order valid dates as the calendar does, and identify them. */
  lemma NumberIsCalendarOrder(x: Ymd, z: Ymd)
    requires x.Valid() && z.Valid()
    ensures x.Number() < z.Number() <==> x.Before(z)
    ensures x.Number() == z.Number() <==> x == z
  {
    if x.Before(z) {
      EarlierIsLess(x, z);
    } else if z.Before(x) {
      EarlierIsLess(z, x);
    }
  }

  // ---- text ----

  /** The n decimal digits of v. */
  function Decimal(v: nat, n: nat): (s: string)
    ensures |s| == n
  {
    var ds := Digits(v, 10, n);
    seq(n, i requires 0 <= i < n => '0' + ds[i] as char)
  }

  /** A year past 9999 takes a fifth digit. */
  function Format(x: Ymd): string {
    Decimal(x.y, if x.y < 10000 then 4 else 5) + "-" + Decimal(x.m, 2) + "-" + Decimal(x.d, 2)
  }

  /** YYYY-MM-DD, digit by digit. */
  lemma FormatIs(x: Ymd)
    requires x.y < 10000 && x.m < 100 && x.d < 100
    ensures Format(x) ==
      Shown(x.y / 100) + Shown(x.y % 100) + "-" + Shown(x.m) + "-" + Shown(x.d)
  {
    TwoDigits(x.m);
    TwoDigits(x.d);
    FourDigitsOf(x.y);
    hide Digits, Quotient, Rest;
    assert Decimal(x.y, 4) == Shown(x.y / 100) + Shown(x.y % 100);
    assert Decimal(x.m, 2) == Shown(x.m) && Decimal(x.d, 2) == Shown(x.d);
  }

  /** Two decimal digits. */
  function Shown(v: nat): string
    requires v < 100
  {
    ['0' + (v / 10) as char, '0' + (v % 10) as char]
  }

  lemma TwoDigits(v: nat)
    requires v < 100
    ensures Digits(v, 10, 2) == [v / 10, v % 10]
  {
  }

  lemma FourDigitsOf(v: nat)
    requires v < 10000
    ensures Digits(v, 10, 4) == [v / 100 / 10, v / 100 % 10, v % 100 / 10, v % 100 % 10]
  {
    var q := v / 10;
    assert v / 100 == q / 10 && v % 100 / 10 == q % 10 && v % 100 % 10 == v % 10;
    TwoDigits(v / 100);
    assert Digits(v, 10, 4) == Digits(q, 10, 3) + [v % 10];
    assert Digits(q, 10, 3) == Digits(q / 10, 10, 2) + [q % 10];
  }

  predicate IsDecimal(s: string) {
    forall i :: 0 <= i < |s| ==> '0' <= s[i] <= '9'
  }

  function DigitsOf(s: string): (ds: seq<int>)
    requires IsDecimal(s)
    ensures |ds| == |s| && AreDigits(ds, 10)
  {
    seq(|s|, i requires 0 <= i < |s| => (s[i] - '0') as int)
  }

  function Amount(s: string): nat
    requires IsDecimal(s)
  {
    ValueIsBounded(DigitsOf(s), 10);
    Value(DigitsOf(s), 10)
  }

  /** A strict parser: four, two and two digits, and a day the month has. */
  function Parse(s: string): (x: Option<Ymd>)
    ensures x.Some? ==> x.value.Valid()
  {
    if |s| != 10 || s[4] != '-' || s[7] != '-' then None
    else if !IsDecimal(s[..4]) || !IsDecimal(s[5..7]) || !IsDecimal(s[8..]) then None
    else
      var x := Ymd(Amount(s[..4]), Amount(s[5..7]), Amount(s[8..]));
      if x.Valid() then Some(x) else None
  }

  /** A text that does not parse counts as 0001-01-01. */
  function NextDate(s: string): string {
    match Parse(s)
    case Some(x) => Format(x.Succ())
    case None => Format(Ymd(1, 1, 1).Succ())
  }

  lemma AmountOfDecimal(v: nat, n: nat)
    requires v < Pow(10, n)
    ensures IsDecimal(Decimal(v, n)) && Amount(Decimal(v, n)) == v
  {
    assert DigitsOf(Decimal(v, n)) == Digits(v, 10, n);
    ValueOfDigits(v, 10, n);
  }

  lemma DecimalOfAmount(s: string)
    requires IsDecimal(s)
    ensures Decimal(Amount(s), |s|) == s && Amount(s) < Pow(10, |s|)
  {
    hide Value, Pow, Digits;
    ValueIsBounded(DigitsOf(s), 10);
    DigitsOfValue(DigitsOf(s), 10);
    var t := Decimal(Amount(s), |s|);
    assert forall i :: 0 <= i < |s| ==> t[i] == s[i];
  }

  lemma PowersOfTen()
    ensures Pow(10, 2) == 100 && Pow(10, 4) == 10000
  {
    assert Pow(10, 1) == 10;
  }

  predicate FourDigits(x: Ymd) {
    x.Valid() && x.y < 10000
  }

  lemma Parts(a: string, b: string, c: string)
    requires |a| == 4 && |b| == 2 && |c| == 2
    ensures var s := a + "-" + b + "-" + c;
      |s| == 10 && s[..4] == a && s[4] == '-' && s[5..7] == b && s[7] == '-' && s[8..] == c
  {
  }

  lemma ParseFormat(x: Ymd)
    requires FourDigits(x)
    ensures Parse(Format(x)) == Some(x)
  {
    PowersOfTen();
    AmountOfDecimal(x.y, 4);
    AmountOfDecimal(x.m, 2);
    AmountOfDecimal(x.d, 2);
    hide Amount, Decimal, IsDecimal;
    Parts(Decimal(x.y, 4), Decimal(x.m, 2), Decimal(x.d, 2));
  }

  lemma FormatParse(s: string)
    requires Parse(s).Some?
    ensures FourDigits(Parse(s).value) && Format(Parse(s).value) == s
  {
    hide Decimal, Pow;
    PowersOfTen();
    DecimalOfAmount(s[..4]);
    DecimalOfAmount(s[5..7]);
    DecimalOfAmount(s[8..]);
    hide Amount, Decimal, IsDecimal;
    assert s == s[..4] + "-" + s[5..7] + "-" + s[8..];
  }

  /** The texts that parse are exactly the texts of calendar dates, one for each. */
  lemma TextsAreDates(s: string, x: Ymd)
    requires FourDigits(x)
    ensures Parse(s) == Some(x) <==> s == Format(x)
  {
    hide Parse, Format, FourDigits;
    ParseFormat(x);
    if Parse(s).Some? {
      FormatParse(s);
    }
  }

  /** The order of strings: the first difference decides, and a prefix comes first. */
  predicate LessAt(a: string, b: string, k: nat) {
    k <= |a| && k < |b| && a[..k] == b[..k] && (k == |a| || a[k] < b[k])
  }

  predicate Less(a: string, b: string) {
    exists k :: 0 <= k <= |a| && LessAt(a, b, k)
  }

  lemma LessIsAsymmetric(a: string, b: string)
    requires Less(a, b)
    ensures !Less(b, a) && a != b
  {
    var k: nat :| k <= |a| && LessAt(a, b, k);
    forall j | 0 <= j <= |b| ensures !LessAt(b, a, j) {
      if j < k {
        SamePrefix(a, b, k, j);
      } else if k < j && j <= |a| && b[..j] == a[..j] {
        SamePrefix(b, a, j, k);
      }
    }
  }

  lemma SamePrefix(a: string, b: string, n: nat, i: nat)
    requires i < n <= |a| && n <= |b| && a[..n] == b[..n]
    ensures a[i] == b[i]
  {
    assert a[i] == a[..n][i];
  }

  /** A smaller number in an equally wide field, after the same prefix, makes a smaller text. */
  lemma SmallerField(p: string, v: nat, w: nat, n: nat, a: string, b: string)
    requires v < w < Pow(10, n)
    ensures Less(p + Decimal(v, n) + a, p + Decimal(w, n) + b)
  {
    var x, z := Digits(v, 10, n), Digits(w, 10, n);
    ValueOfDigits(v, 10, n);
    ValueOfDigits(w, 10, n);
    OrderOfDigits(x, z, 10);
    var k :| 0 <= k < |x| && BeforeAt(x, z, k);
    FieldDiffers(p, v, w, n, a, b, k);
  }

  lemma FieldDiffers(p: string, v: nat, w: nat, n: nat, a: string, b: string, k: nat)
    requires k < n && BeforeAt(Digits(v, 10, n), Digits(w, 10, n), k)
    ensures Less(p + Decimal(v, n) + a, p + Decimal(w, n) + b)
  {
    var x, z := Digits(v, 10, n), Digits(w, 10, n);
    hide Digits, Pow, Value;
    var s, t := p + Decimal(v, n) + a, p + Decimal(w, n) + b;
    var m := |p| + k;
    assert forall i :: 0 <= i < k ==> x[i] == x[..k][i] && z[i] == z[..k][i];
    assert forall i :: 0 <= i < m ==> s[i] == t[i];
    assert s[..m] == t[..m] && s[m] < t[m];
    assert LessAt(s, t, m);
  }

  lemma EarlierIsLessText(x: Ymd, z: Ymd)
    requires FourDigits(x) && FourDigits(z) && x.Before(z)
    ensures Less(Format(x), Format(z))
  {
    PowersOfTen();
    hide Decimal, Less, Pow;
    var y4 := Decimal(x.y, 4);
    var xs, zs := "-" + Decimal(x.d, 2), "-" + Decimal(z.d, 2);
    if x.y < z.y {
      var a, b := "-" + Decimal(x.m, 2) + xs, "-" + Decimal(z.m, 2) + zs;
      SmallerField("", x.y, z.y, 4, a, b);
      assert Format(x) == "" + y4 + a && Format(z) == "" + Decimal(z.y, 4) + b;
    } else if x.m < z.m {
      SmallerField(y4 + "-", x.m, z.m, 2, xs, zs);
      assert Format(x) == (y4 + "-") + Decimal(x.m, 2) + xs;
      assert Format(z) == (y4 + "-") + Decimal(z.m, 2) + zs;
    } else {
      var p := y4 + "-" + Decimal(x.m, 2) + "-";
      SmallerField(p, x.d, z.d, 2, "", "");
      assert Format(x) == p + Decimal(x.d, 2) + "" && Format(z) == p + Decimal(z.d, 2) + "";
    }
  }

  /** On valid dates string order, calendar order and the order of day numbers are the same. */
  lemma TextOrderIsCalendarOrder(s: string, t: string)
    requires Parse(s).Some? && Parse(t).Some?
    ensures var x, z := Parse(s).value, Parse(t).value;
      && (Less(s, t) <==> x.Before(z))
      && (Less(s, t) <==> x.Number() < z.Number())
      && (s == t <==> x.Number() == z.Number())
  {
    var x, z := Parse(s).value, Parse(t).value;
    FormatParse(s);
    FormatParse(t);
    NumberIsCalendarOrder(x, z);
    hide Parse, Format, Less, Ymd.Number;
    if x.Before(z) {
      EarlierIsLessText(x, z);
    } else if z.Before(x) {
      EarlierIsLessText(z, x);
      LessIsAsymmetric(t, s);
    } else {
      LessIsIrreflexive(s);
    }
  }

  lemma LessIsIrreflexive(s: string)
    ensures !Less(s, s)
  {
  }

  // ---- the backfill ----

  datatype Row = Row(status: string, reason: string)

  const MISSED := Row("missed", "no capture")

  /** The day number of a date text. */
  function DayOf(s: string): int
    requires Parse(s).Some?
  {
    Parse(s).value.Number()
  }

  /** A date on or after day lo and before day hi. */
  predicate InSpan(s: string, lo: int, hi: int) {
    Parse(s).Some? && lo <= DayOf(s) < hi
  }

  /** The first date of the sweep: the install date, or 0001-01-02 when that does not parse. */
  function SweepStart(install: string): (s: string)
    ensures Parse(s).Some?
  {
    ParseFormat(Ymd(1, 1, 2));
    if Parse(install).Some? then install else NextDate(install)
  }

  /** What a sweep from the install date up to day hi visits. */
  predicate Swept(install: string, s: string, hi: int) {
    InSpan(s, DayOf(SweepStart(install)), hi) || (Parse(install).None? && s == install)
  }

  /** Before a valid date there is always a next date to go to. */
  lemma NextIsTomorrow(d: string, today: string)
    requires Parse(d).Some? && Parse(today).Some? && DayOf(d) < DayOf(today)
    ensures Parse(NextDate(d)).Some? && DayOf(NextDate(d)) == DayOf(d) + 1
  {
    var x, t := Parse(d).value, Parse(today).value;
    SuccIsNext(x);
    NumberIsCalendarOrder(x.Succ(), t);
    FormatParse(today);
    hide Parse, Format, Ymd.Number;
    ParseFormat(x.Succ());
  }

  /** Sweeping one more date. */
  lemma SweptOneMore(install: string, d: string, s: string)
    requires Parse(d).Some? && DayOf(SweepStart(install)) <= DayOf(d)
    ensures Swept(install, s, DayOf(d) + 1) <==> Swept(install, s, DayOf(d)) || s == d
    ensures !Swept(install, d, DayOf(d))
  {
    hide Parse, SweepStart;
    if Parse(s).Some? {
      TextOrderIsCalendarOrder(s, d);
    }
  }

  /** One round: what follows d, and what has then been swept. */
  lemma SweepStep(install: string, d: string, today: string, begun: bool)
    requires Parse(today).Some? && Less(d, today)
    requires if begun then Parse(d).Some? && DayOf(SweepStart(install)) <= DayOf(d) else d == install
    ensures begun ==> !Swept(install, d, DayOf(d)) && DayOf(d) < DayOf(today)
    ensures Parse(NextDate(d)).Some? && DayOf(SweepStart(install)) <= DayOf(NextDate(d))
    ensures DayOf(NextDate(d)) <= DayOf(today) || DayOf(NextDate(d)) == DayOf(SweepStart(install))
    ensures begun ==> DayOf(NextDate(d)) == DayOf(d) + 1
    ensures forall s :: Swept(install, s, DayOf(NextDate(d))) <==> s == d || (begun && Swept(install, s, DayOf(d)))
  {
    if Parse(d).Some? {
      TextOrderIsCalendarOrder(d, today);
      NextIsTomorrow(d, today);
      hide Parse, NextDate, Swept, Less;
      assert d == install ==> SweepStart(install) == d;
      hide SweepStart;
      forall s ensures Swept(install, s, DayOf(NextDate(d))) <==> Swept(install, s, DayOf(d)) || s == d {
        SweptOneMore(install, d, s);
      }
      if !begun {
        forall s ensures !Swept(install, s, DayOf(d)) {
          NothingSwept(install, s);
        }
      }
    } else {
      hide Parse, NextDate, Less;
      assert SweepStart(install) == NextDate(install);
    }
  }

  lemma NothingSwept(install: string, s: string)
    requires Parse(install).Some?
    ensures !Swept(install, s, DayOf(install))
  {
  }

  lemma SweepEnds(install: string, d: string, today: string)
    requires Parse(d).Some? && Parse(today).Some? && !Less(d, today)
    requires DayOf(d) <= DayOf(today) || DayOf(d) == DayOf(SweepStart(install))
    ensures forall s :: Swept(install, s, DayOf(d)) <==> Swept(install, s, DayOf(today))
  {
    TextOrderIsCalendarOrder(d, today);
    hide Parse, Less, SweepStart;
  }

  /** Swept dates sort before today. */
  lemma SweptComeBefore(install: string, today: string)
    requires Parse(today).Some? && Less(install, today)
    ensures forall s :: Swept(install, s, DayOf(today)) ==> Less(s, today)
  {
    hide Parse, Less, SweepStart;
    forall s | Swept(install, s, DayOf(today)) ensures Less(s, today) {
      if Parse(s).Some? {
        TextOrderIsCalendarOrder(s, today);
      }
    }
  }

  /** After an install date that parses, swept dates do not sort before it. */
  lemma SweptComeAfter(install: string, today: string)
    requires Parse(install).Some? && Parse(today).Some?
    ensures forall s :: Swept(install, s, DayOf(today)) ==> !Less(s, install)
  {
    assert SweepStart(install) == install;
    hide Parse, Less, SweepStart;
    forall s | Swept(install, s, DayOf(today)) ensures !Less(s, install) {
      TextOrderIsCalendarOrder(s, install);
    }
  }

  /** A table with a missed row wherever one of these dates had none. */
  function Filled(base: map<string, Row>, dates: set<string>): map<string, Row> {
    map s | s in base.Keys + dates :: if s in base then base[s] else MISSED
  }

  lemma FilledNothing(base: map<string, Row>)
    ensures Filled(base, {}) == base
  {
  }

  lemma FilledOneMore(base: map<string, Row>, dates: set<string>, d: string)
    ensures var t := Filled(base, dates);
      Filled(base, dates + {d}) == if d in t then t else t[d := MISSED]
    ensures d in base ==> d in Filled(base, dates)
  {
  }

  lemma CountOneMore(seen: set<string>, have: set<string>, d: string)
    requires d !in seen
    ensures |seen + {d} - have| == |seen - have| + if d in have then 0 else 1
  {
    assert seen + {d} - have == if d in have then seen - have else seen - have + {d};
  }

  /** From an install date that parses, the sweep visits the dates from it up to the day before
      today, both by day number and in the order of the texts, and nothing else. */
  lemma SweepIsTheCalendar(install: string, today: string, s: string)
    requires Parse(install).Some? && Parse(today).Some?
    ensures Swept(install, s, DayOf(today)) <==> Parse(s).Some? && DayOf(install) <= DayOf(s) < DayOf(today)
    ensures Swept(install, s, DayOf(today)) <==> Parse(s).Some? && !Less(s, install) && Less(s, today)
  {
    assert SweepStart(install) == install;
    hide Parse, Less, SweepStart;
    if Parse(s).Some? {
      TextOrderIsCalendarOrder(s, install);
      TextOrderIsCalendarOrder(s, today);
    }
  }

  /** Counting outside a part of the old keys counts the new keys exactly when no old key is
      left out of that part. */
  lemma SameCount(seen: set<string>, have: set<string>, before: set<string>)
    requires have <= before
    ensures |seen - have| == |before + seen - before| <==> forall s :: s in seen && s in before ==> s in have
  {
    assert before + seen - before == seen - before <= seen - have;
    assert seen - have == (seen - before) + (seen * before - have);
    assert |seen - have| == |seen - before| + |seen * before - have|;
    if |seen * before - have| == 0 {
      assert seen * before - have == {};
      assert forall s :: s in seen && s in before ==> s in seen * before;
    }
    if forall s :: s in seen && s in before ==> s in have {
      assert seen * before - have == {};
    }
  }

  class DayTable {
    var days: map<string, Row>

    /** Adds a row for every date of the sweep that has none, in one transaction.  The count is
        the number of rows added when the install date parses; in general it also counts swept
        dates whose row sorts before the install text. */
    method BackfillMissedDays(install: string, today: string) returns (n: nat)
      requires Parse(today).Some?
      modifies this
      ensures forall s :: s in days <==>
        s in old(days) || (Less(install, today) && Swept(install, s, DayOf(today)))
      ensures forall s :: s in days ==> days[s] == if s in old(days) then old(days)[s] else MISSED
      ensures n == |days.Keys - old(days.Keys)| <==>
        !Less(install, today)
        || forall s :: s in old(days) && Swept(install, s, DayOf(today)) ==> !Less(s, install)
      ensures Parse(install).Some? ==> n == |days.Keys - old(days.Keys)|
      ensures Parse(install).Some? && (forall s :: Swept(install, s, DayOf(today)) ==> s in old(days)) ==>
        n == 0 && days == old(days)
    {
      hide Parse, Less, NextDate, SweepStart, Swept;
      n := 0;
      if !Less(install, today) {
        assert days.Keys - old(days.Keys) == {};
        return;
      }
      var have := set d | d in days && !Less(d, install) && Less(d, today);
      ghost var seen;
      n, seen := Sweep(install, today, have);
      SweptComeBefore(install, today);
      assert days.Keys == old(days.Keys) + seen;
      SameCount(seen, have, old(days.Keys));
      assert forall s :: s in seen && s in old(days) ==> (s in have <==> !Less(s, install));
      if Parse(install).Some? {
        SweptComeAfter(install, today);
      }
    }

    /** The loop over dates, from the install text up to today. */
    method Sweep(install: string, today: string, have: set<string>) returns (n: nat, ghost seen: set<string>)
      requires Parse(today).Some? && Less(install, today) && have <= days.Keys
      modifies this
      ensures forall s :: s in seen <==> Swept(install, s, DayOf(today))
      ensures days == Filled(old(days), seen)
      ensures n == |seen - have|
    {
      FilledNothing(days);
      hide Parse, Less, NextDate, SweepStart, Swept, DayOf, Filled;
      n, seen := 0, {};
      var d := install;
      ghost var begun, lo, hi := false, DayOf(SweepStart(install)), DayOf(today);
      while Less(d, today)
        invariant !begun ==> d == install && seen == {}
        invariant begun ==> Parse(d).Some? && lo <= DayOf(d) && (DayOf(d) <= hi || DayOf(d) == lo)
        invariant begun ==> forall s :: s in seen <==> Swept(install, s, DayOf(d))
        invariant days == Filled(old(days), seen)
        invariant n == |seen - have|
        decreases if !begun then 1 else 0, if begun then hi - DayOf(d) else 0
      {
        SweepStep(install, d, today, begun);
        CountOneMore(seen, have, d);
        FilledOneMore(old(days), seen, d);
        if d !in have {
          if d !in days {
            days := days[d := MISSED];
          }
          n := n + 1;
        }
        seen := seen + {d};
        d := NextDate(d);
        begun := true;
      }
      SweepEnds(install, d, today);
    }
  }

  /** A text that no date parses to, right after 0001-01-02. */
  lemma MalformedInstall(row: string, install: string, today: string)
    requires row == Format(Ymd(1, 1, 2)) && install == row + "x" && today == Format(Ymd(1, 1, 3))
    ensures Parse(today).Some? && Less(install, today)
    ensures Swept(install, row, DayOf(today)) && Less(row, install)
  {
    ParseFormat(Ymd(1, 1, 2));
    ParseFormat(Ymd(1, 1, 3));
    SuccIsNext(Ymd(1, 1, 2));
    TextOrderIsCalendarOrder(row, today);
    var k: nat :| k <= |row| && LessAt(row, today, k);
    assert install[..k] == row[..k] && LessAt(install, today, k);
    assert install[..|row|] == row[..|row|] && LessAt(row, install, |row|);
  }

  /** The backfill's count is wrong for the install text 0001-01-02x if 0001-01-02 has a row. */
  method CountsARowThatWasThere() returns (n: nat, added: nat)
    ensures n != added
  {
    hide Parse, Less, Swept, Format;
    var row, today := Format(Ymd(1, 1, 2)), Format(Ymd(1, 1, 3));
    var table := new DayTable;
    table.days := map[row := MISSED];
    MalformedInstall(row, row + "x", today);
    n := table.BackfillMissedDays(row + "x", today);
    added := |table.days.Keys - {row}|;
  }
}
