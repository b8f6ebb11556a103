/** The GO trigger of one camera: an append-only sample history, medians of 3 and 5, a gap
    rule and a latch that fires once. */
module Trigger {
  import opened Medians

  /** Time is in milliseconds. */
  datatype Sample = Sample(t: int, score: real)

  datatype Params = Params(thresholdAbs: real, ratio: real, deltaAbs: real, riseDelta: real)

  datatype Components = Components(recent: real, baseline: real, prior: real, samples: nat)

  const MIN_SAMPLES := 5

  function Scores(s: seq<Sample>): (r: seq<real>)
    ensures |r| == |s|
  {
    seq(|s|, i requires 0 <= i < |s| => s[i].score)
  }

  /** True when the pair (i - 1, i) lies further apart than twice the polling interval. */
  predicate Gap(s: seq<Sample>, interval: int, i: int)
    requires 0 < i < |s|
  {
    s[i].t - s[i - 1].t > 2 * interval
  }

  /** The gap rule of the code: the two pairs before the newest one. */
  predicate Recent(s: seq<Sample>, interval: int)
    requires |s| >= MIN_SAMPLES
  {
    !Gap(s, interval, |s| - 2) && !Gap(s, interval, |s| - 3)
  }

  function Measured(s: seq<Sample>): Components
    requires |s| >= MIN_SAMPLES
  {
    var n := |s|;
    var baseline := MedianOf(Scores(s[..MIN_SAMPLES]));
    Components(
      MedianOf(Scores(s[n - 3..])),
      baseline,
      if n >= 6 then MedianOf(Scores(s[n - 6..n - 3])) else baseline,
      n)
  }

  predicate Gates(p: Params, c: Components) {
    && c.recent >= p.thresholdAbs
    && c.recent >= c.baseline * p.ratio
    && c.recent - c.baseline >= p.deltaAbs
    && c.recent - c.prior >= p.riseDelta
  }

  /** The stateless question the latch is built on: would these samples fire? */
  predicate Qualifies(p: Params, interval: int, s: seq<Sample>) {
    |s| >= MIN_SAMPLES && Recent(s, interval) && Gates(p, Measured(s))
  }

  /** The question written out: five samples; the second and third newest steps at most two
      intervals; and the median of the newest three above the threshold, the first five and the
      three before them (or, at five samples, the first five again). */
  lemma QualifiesWhen(p: Params, interval: int, s: seq<Sample>)
    ensures Qualifies(p, interval, s) <==>
      && |s| >= 5
      && var n := |s|;
      && s[n - 2].t - s[n - 3].t <= 2 * interval && s[n - 3].t - s[n - 4].t <= 2 * interval
      && var recent := MedianOf([s[n - 3].score, s[n - 2].score, s[n - 1].score]);
      var base := MedianOf([s[0].score, s[1].score, s[2].score, s[3].score, s[4].score]);
      var prior := if n == 5 then base else MedianOf([s[n - 6].score, s[n - 5].score, s[n - 4].score]);
      && recent >= p.thresholdAbs && recent >= p.ratio * base
      && recent - base >= p.deltaAbs && recent - prior >= p.riseDelta
  {
    var n := |s|;
    if n >= 5 {
      assert Scores(s[n - 3..]) == [s[n - 3].score, s[n - 2].score, s[n - 1].score];
      assert Scores(s[..5]) == [s[0].score, s[1].score, s[2].score, s[3].score, s[4].score];
      assert n >= 6 ==> Scores(s[n - 6..n - 3]) == [s[n - 6].score, s[n - 5].score, s[n - 4].score];
    }
  }

  /** The answers for every history length, from 0 to |s|. */
  ghost function Answers(p: Params, interval: int, s: seq<Sample>): (q: seq<bool>)
    ensures |q| == |s| + 1
    ensures forall k :: 0 <= k <= |s| ==> q[k] == Qualifies(p, interval, s[..k])
  {
    seq(|s| + 1, k requires 0 <= k <= |s| => Qualifies(p, interval, s[..k]))
  }

  /** n is the least length with a positive answer. */
  ghost predicate First(q: seq<bool>, n: nat)
    requires n < |q|
  {
    q[n] && forall k :: 0 <= k < n ==> !q[k]
  }

  lemma FirstIsUnique(q: seq<bool>, m: nat, n: nat)
    requires m < |q| && n < |q| && First(q, m) && First(q, n)
    ensures m == n
  {
  }

  class TriggerState {
    var samples: seq<Sample>
    const interval: int
    var fired: bool
    var components: Components

    constructor (interval: int)
      ensures this.interval == interval && samples == [] && !fired
      ensures components == Components(0.0, 0.0, 0.0, 0)
    {
      this.interval := interval;
      samples, fired := [], false;
      components := Components(0.0, 0.0, 0.0, 0);
    }

    method Append(t: int, score: real)
      modifies this`samples
      ensures samples == old(samples) + [Sample(t, score)]
    {
      samples := samples + [Sample(t, score)];
    }

    method Evaluate(p: Params) returns (fire: bool)
      modifies this`fired, this`components
      ensures fire == (!old(fired) && Qualifies(p, interval, samples))
      ensures fired == (old(fired) || fire)
      ensures components == if fire then Measured(samples) else old(components)
    {
      if fired || |samples| < MIN_SAMPLES {
        return false;
      }
      var recency := CheckGaps();
      if !recency {
        return false;
      }
      var c := Measure();
      fire := Gates(p, c);
      if fire {
        fired := true;
        components := c;
      }
    }

    /** The gap loop of Evaluate. */
    method CheckGaps() returns (ok: bool)
      requires |samples| >= MIN_SAMPLES
      ensures ok == Recent(samples, interval)
    {
      var n := |samples|;
      var i := n - 2;
      while i >= n - 3 && i >= 1
        invariant n - 4 <= i <= n - 2
        invariant forall k :: i < k <= n - 2 ==> !Gap(samples, interval, k)
      {
        if samples[i].t - samples[i - 1].t > 2 * interval {
          assert Gap(samples, interval, i);
          return false;
        }
        i := i - 1;
      }
      return true;
    }

    /** The three medians of Evaluate. */
    method Measure() returns (c: Components)
      requires |samples| >= MIN_SAMPLES
      ensures c == Measured(samples)
    {
      var n := |samples|;
      var baseline := SortedMedian(Scores(samples[..MIN_SAMPLES]));
      var recent := SortedMedian(Scores(samples[n - 3..]));
      var prior := baseline;
      if n >= 6 {
        prior := SortedMedian(Scores(samples[n - 6..n - 3]));
      }
      return Components(recent, baseline, prior, n);
    }
  }

  /** What a latch over the answers q has reported so far. */
  ghost predicate Latched(q: seq<bool>, reports: seq<bool>, fired: bool) {
    && |reports| < |q|
    && (forall k :: 0 <= k < |reports| ==> (reports[k] <==> First(q, k + 1)))
    && (fired <==> exists k :: 0 <= k < |reports| && reports[k])
    && (!fired ==> forall k :: 0 <= k <= |reports| ==> !q[k])
  }

  lemma LatchStep(q: seq<bool>, before: seq<bool>, was: bool)
    requires Latched(q, before, was) && |before| + 1 < |q|
    ensures var fire := !was && q[|before| + 1]; Latched(q, before + [fire], was || fire)
  {
    var n, fire := |before|, !was && q[|before| + 1];
    var after := before + [fire];
    assert forall k :: 0 <= k < n ==> after[k] == before[k];
    assert after[n] == fire;
    if was {
      var k :| 0 <= k < n && before[k];
      assert First(q, k + 1) && after[k];
    }
  }

  /** One camera's capture window as the engine drives it: each new sample is appended and then
      evaluated.  The report is true exactly at the least qualifying length (index at, when
      there is one), so at most once, and the components stay those of that length for the rest
      of the run. */
  method Drive(ts: TriggerState, p: Params, stream: seq<Sample>)
    returns (reports: seq<bool>, at: nat)
    requires ts.samples == [] && !ts.fired
    modifies ts
    ensures ts.samples == stream && |reports| == |stream|
    ensures forall k :: 0 <= k < |stream| ==>
      (reports[k] <==> First(Answers(p, ts.interval, stream), k + 1))
    ensures ts.fired <==> exists k :: 0 <= k < |stream| && reports[k]
    ensures forall k :: 0 <= k < |stream| && reports[k] ==> k == at
    ensures ts.fired ==>
      MIN_SAMPLES <= at + 1 <= |stream| && reports[at] && ts.components == Measured(stream[..at + 1])
  {
    hide Measured, Gates, Recent;
    reports, at := [], 0;
    ghost var q := Answers(p, ts.interval, stream);
    while |reports| < |stream|
      invariant |reports| <= |stream| && ts.samples == stream[..|reports|]
      invariant Latched(q, reports, ts.fired)
      invariant ts.fired ==> at < |reports| && reports[at]
      invariant ts.fired ==> at + 1 >= MIN_SAMPLES && ts.components == Measured(stream[..at + 1])
    {
      LatchStep(q, reports, ts.fired);
      var fire := Sampled(ts, p, stream[|reports|]);
      assert ts.samples == stream[..|reports| + 1];
      at := if fire then |reports| else at;
      reports := reports + [fire];
    }
    assert stream[..|stream|] == stream;
    forall k | 0 <= k < |stream| && reports[k] ensures k == at {
      FirstIsUnique(q, k + 1, at + 1);
    }
  }

  /** Some length of this history qualifies. */
  ghost predicate EverQualified(p: Params, interval: int, s: seq<Sample>) {
    exists n :: 0 <= n <= |s| && Qualifies(p, interval, s[..n])
  }

  lemma NothingQualifies(p: Params, interval: int)
    ensures !EverQualified(p, interval, [])
  {
  }

  lemma EverQualifiedGrows(p: Params, interval: int, s: seq<Sample>, x: Sample)
    ensures EverQualified(p, interval, s + [x]) <==>
      EverQualified(p, interval, s) || Qualifies(p, interval, s + [x])
  {
    hide Qualifies;
    var t := s + [x];
    assert t[..|t|] == t;
    assert forall n :: 0 <= n <= |s| ==> t[..n] == s[..n];
  }

  method Sampled(ts: TriggerState, p: Params, x: Sample) returns (fire: bool)
    modifies ts
    ensures ts.samples == old(ts.samples) + [x]
    ensures fire == (!old(ts.fired) && Qualifies(p, ts.interval, ts.samples))
    ensures ts.fired == (old(ts.fired) || fire)
    ensures ts.components == if fire then Measured(ts.samples) else old(ts.components)
  {
    ts.Append(x.t, x.score);
    fire := ts.Evaluate(p);
  }

  /** A gap between samples g - 1 and g silences exactly the lengths g + 2 and g + 3. */
  lemma GapBlocks(s: seq<Sample>, interval: int, g: nat, n: nat)
    requires 0 < g < |s| && MIN_SAMPLES <= n <= |s|
    requires Gap(s, interval, g)
    requires forall k :: 0 < k < |s| && k != g ==> !Gap(s, interval, k)
    ensures Recent(s[..n], interval) <==> n != g + 2 && n != g + 3
  {
    assert s[..n][n - 2] == s[n - 2] && s[..n][n - 3] == s[n - 3] && s[..n][n - 4] == s[n - 4];
    assert Gap(s[..n], interval, n - 2) <==> Gap(s, interval, n - 2);
    assert Gap(s[..n], interval, n - 3) <==> Gap(s, interval, n - 3);
  }

  /** The rule as its comment words it: the last three samples, newest pair included. */
  predicate DocumentedRecent(s: seq<Sample>, interval: int)
    requires |s| >= 3
  {
    !Gap(s, interval, |s| - 1) && !Gap(s, interval, |s| - 2)
  }

  /** The code tests at length n what the comment asks for at length n - 1; at the same length
      the two rules differ exactly when the middle pair is close and just one of the outer
      pairs is a gap. */
  lemma GapRuleLagsByOne(s: seq<Sample>, interval: int)
    requires |s| >= MIN_SAMPLES
    ensures Recent(s, interval) <==> DocumentedRecent(s[..|s| - 1], interval)
    ensures Recent(s, interval) != DocumentedRecent(s, interval) <==>
      && !Gap(s, interval, |s| - 2)
      && Gap(s, interval, |s| - 1) != Gap(s, interval, |s| - 3)
  {
    var t := s[..|s| - 1];
    assert Gap(t, interval, |t| - 1) <==> Gap(s, interval, |s| - 2);
    assert Gap(t, interval, |t| - 2) <==> Gap(s, interval, |s| - 3);
  }

  lemma MiddleOfAscendingInput(v: seq<real>)
    requires v != [] && Ascending(v)
    ensures MedianOf(v) == Middle(v)
  {
    SortedSorts(v);
    SortedIsUnique(v, Sorted(v));
  }

  /** On ascending samples the medians are the middle scores. */
  lemma MedianOfAscendingStretch(s: seq<Sample>, lo: nat, hi: nat)
    requires lo < hi <= |s| && Ascending(Scores(s))
    ensures MedianOf(Scores(s[lo..hi])) == Middle(Scores(s[lo..hi]))
  {
    assert Scores(s[lo..hi]) == Scores(s)[lo..hi];
    MiddleOfAscendingInput(Scores(s[lo..hi]));
  }

  /** A stream that fires although its newest sample comes an hour after the one before. */
  lemma FiresAcrossTheNewestGap(s: seq<Sample>)
    requires |s| == 5 && Scores(s) == [1.0, 2.0, 3.0, 20.0, 30.0]
    requires s[1].t == 45000 && s[2].t == 90000 && s[3].t == 135000 && s[4].t == 3735000
    ensures Qualifies(Params(12.0, 1.6, 4.0, 1.5), 45000, s) && !DocumentedRecent(s, 45000)
  {
    MedianOfAscendingStretch(s, 0, 5);
    MedianOfAscendingStretch(s, 2, 5);
    assert s[..5] == s[0..5] && s[2..] == s[2..5];
    assert s[2].score == 3.0 && s[3].score == 20.0 by {
      assert s[2].score == Scores(s)[2] && s[3].score == Scores(s)[3];
    }
    assert Measured(s).recent == 20.0 && Measured(s).baseline == 3.0 && Measured(s).prior == 3.0;
  }

  // ---- robustness ----

  predicate InBand(x: Sample, lo: real, hi: real) {
    lo <= x.score <= hi
  }

  /** Every three consecutive samples hold at most one outlier. */
  ghost predicate Quiet(s: seq<Sample>, lo: real, hi: real) {
    forall i, j :: 0 <= i < j < |s| && j <= i + 2 ==> InBand(s[i], lo, hi) || InBand(s[j], lo, hi)
  }

  lemma MedianOfThreeQuiet(s: seq<Sample>, lo: real, hi: real)
    requires |s| == 3 && Quiet(s, lo, hi)
    ensures lo <= MedianOf(Scores(s)) <= hi
  {
    var v := Scores(s);
    var w := Within(lo, hi);
    assert Count(v, w) == Count(v[1..], w) + if w.Has(v[0]) then 1 else 0;
    assert Count(v[1..], w) == Count(v[1..][1..], w) + if w.Has(v[1]) then 1 else 0;
    assert Count(v[1..][1..], w) == if w.Has(v[2]) then 1 else 0;
    assert InBand(s[0], lo, hi) || InBand(s[1], lo, hi);
    assert InBand(s[0], lo, hi) || InBand(s[2], lo, hi);
    assert InBand(s[1], lo, hi) || InBand(s[2], lo, hi);
    MedianInBand(v, lo, hi);
  }

  lemma MedianOfFiveQuiet(s: seq<Sample>, lo: real, hi: real)
    requires |s| == 5 && Quiet(s, lo, hi)
    ensures lo <= MedianOf(Scores(s)) <= hi
  {
    var v := Scores(s);
    var w := Within(lo, hi);
    CountConcat(v[..3], v[3..], w);
    assert v == v[..3] + v[3..];
    var a, b := v[..3], v[3..];
    assert Count(a, w) == Count(a[1..], w) + if w.Has(v[0]) then 1 else 0;
    assert Count(a[1..], w) == Count(a[1..][1..], w) + if w.Has(v[1]) then 1 else 0;
    assert Count(a[1..][1..], w) == if w.Has(v[2]) then 1 else 0;
    assert Count(b, w) == Count(b[1..], w) + if w.Has(v[3]) then 1 else 0;
    assert Count(b[1..], w) == if w.Has(v[4]) then 1 else 0;
    assert InBand(s[0], lo, hi) || InBand(s[1], lo, hi);
    assert InBand(s[0], lo, hi) || InBand(s[2], lo, hi);
    assert InBand(s[1], lo, hi) || InBand(s[2], lo, hi);
    assert InBand(s[3], lo, hi) || InBand(s[4], lo, hi);
    MedianInBand(v, lo, hi);
  }

  /** A stream that stays in a band narrower than deltaAbs, apart from isolated spikes of any
      size, qualifies at no length. */
  lemma QuietNeverQualifies(p: Params, interval: int, s: seq<Sample>, lo: real, hi: real, n: nat)
    requires Quiet(s, lo, hi) && hi - lo < p.deltaAbs && n <= |s|
    ensures !Qualifies(p, interval, s[..n])
  {
    if n >= MIN_SAMPLES {
      var h := s[..n];
      QuietStretch(s, lo, hi, 0, 5);
      QuietStretch(s, lo, hi, n - 3, n);
      assert h[..MIN_SAMPLES] == s[0..5] && h[n - 3..] == s[n - 3..n];
      MedianOfFiveQuiet(s[0..5], lo, hi);
      MedianOfThreeQuiet(s[n - 3..n], lo, hi);
      assert Measured(h).recent - Measured(h).baseline < p.deltaAbs;
    }
  }

  lemma QuietStretch(s: seq<Sample>, lo: real, hi: real, a: nat, b: nat)
    requires Quiet(s, lo, hi) && a <= b <= |s|
    ensures Quiet(s[a..b], lo, hi)
  {
    var t := s[a..b];
    forall i, j | 0 <= i < j < |t| && j <= i + 2
      ensures InBand(t[i], lo, hi) || InBand(t[j], lo, hi)
    {
      assert t[i] == s[a + i] && t[j] == s[a + j];
    }
  }
}
