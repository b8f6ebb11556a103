/** Which frame a finished day publishes. */
module Publication {
  import opened Wrappers
  import opened Score
  import opened Durable

  /** The rules of one finalization: the day, the darkness floor, the dusk cutoff. */
  datatype Rules = Rules(date: Date, floor: real, cutoff: int)

  /** The rows the day query returns for a camera. */
  predicate Listed(w: Rules, cam: string, r: FrameRow) {
    r.cam == cam && r.date == w.date && r.ok
  }

  /** Archive eligibility: bright enough, and fetched no later than the cutoff. */
  predicate Eligible(w: Rules, r: FrameRow) {
    r.medianL.Some? && r.medianL.value >= w.floor && r.fetched <= w.cutoff
  }

  /** r is the earliest frame of maximum score among the camera's eligible ones. */
  ghost predicate IsBest(frames: set<FrameRow>, w: Rules, cam: string, r: FrameRow) {
    && r in frames && Listed(w, cam, r) && Eligible(w, r) && r.score.Some?
    && forall q :: q in frames && Listed(w, cam, q) && Eligible(w, q) && q.score.Some? ==>
      q.score.value < r.score.value || (q.score.value == r.score.value && r.fetched <= q.fetched)
  }

  ghost predicate HasEligible(frames: set<FrameRow>, w: Rules, cam: string) {
    exists r :: r in frames && Listed(w, cam, r) && Eligible(w, r)
  }

  /** A camera that may publish in this role and has something to publish. */
  ghost predicate Candidate(s: State, w: Rules, role: Role, cam: string) {
    && cam in s.cameras && s.cameras[cam].role == role && s.cameras[cam].eligible
    && HasEligible(s.frames, w, cam)
  }

  ghost predicate LeastPriority(s: State, w: Rules, role: Role, cam: string) {
    && Candidate(s, w, role, cam)
    && forall k :: Candidate(s, w, role, k) ==> s.cameras[cam].priority <= s.cameras[k].priority
  }

  ghost predicate NoCandidate(s: State, w: Rules, role: Role) {
    forall k :: !Candidate(s, w, role, k)
  }

  /** The camera that publishes: a primary of least priority number, else such a backup. */
  ghost predicate Publisher(s: State, w: Rules, cam: string) {
    || LeastPriority(s, w, Primary, cam)
    || (NoCandidate(s, w, Primary) && LeastPriority(s, w, Backup, cam))
  }

  /** Two runs of the selection can only differ between cameras of equal role and priority, and
      between frames of equal score and time. */
  lemma SelectionIsDetermined(s: State, w: Rules, a: string, b: string, r: FrameRow, q: FrameRow)
    requires Publisher(s, w, a) && Publisher(s, w, b)
    ensures s.cameras[a].role == s.cameras[b].role
    ensures s.cameras[a].priority == s.cameras[b].priority
    ensures IsBest(s.frames, w, a, r) && IsBest(s.frames, w, a, q) ==>
      r.score == q.score && r.fetched == q.fetched
  {
  }

  // ---- the loops ----

  predicate InFetchOrder(rows: seq<FrameRow>) {
    forall i, j :: 0 <= i < j < |rows| ==> rows[i].fetched <= rows[j].fetched
  }

  /** What the frame loop keeps of rows.  An unscored row that comes first is never replaced;
      otherwise it is the first scored row of maximum score. */
  ghost predicate Kept(w: Rules, rows: seq<FrameRow>, best: Option<FrameRow>) {
    if best.None? then forall i :: 0 <= i < |rows| ==> !Eligible(w, rows[i])
    else exists k :: 0 <= k < |rows| && KeptAt(w, rows, k) && best.value == rows[k]
  }

  predicate FirstEligible(w: Rules, rows: seq<FrameRow>, f: nat)
    requires f < |rows|
  {
    Eligible(w, rows[f]) && forall i :: 0 <= i < f ==> !Eligible(w, rows[i])
  }

  ghost predicate KeptAt(w: Rules, rows: seq<FrameRow>, k: nat)
    requires k < |rows|
  {
    && Eligible(w, rows[k])
    && if rows[k].score.None?
       then FirstEligible(w, rows, k)
       else
         && (exists f :: 0 <= f <= k && FirstEligible(w, rows, f) && rows[f].score.Some?)
         && forall i :: 0 <= i < |rows| && Eligible(w, rows[i]) && rows[i].score.Some? ==>
           rows[i].score.value < rows[k].score.value
           || (rows[i].score.value == rows[k].score.value && k <= i)
  }

  method BestRow(w: Rules, rows: seq<FrameRow>) returns (best: Option<FrameRow>)
    ensures Kept(w, rows, best)
  {
    best := None;
    ghost var at := 0;
    for i := 0 to |rows|
      invariant best.None? ==> forall j :: 0 <= j < i ==> !Eligible(w, rows[j])
      invariant best.Some? ==> at < i && best.value == rows[at] && KeptAt(w, rows[..i], at)
    {
      var f := rows[i];
      ghost var seen, more := rows[..i], rows[..i + 1];
      assert more == seen + [f];
      if f.medianL.None? || f.medianL.value < w.floor {
        KeptStays(w, seen, f, best, at);
        continue;
      }
      if f.fetched > w.cutoff {
        KeptStays(w, seen, f, best, at);
        continue;
      }
      if best.None? || (f.score.Some? && best.value.score.Some? && f.score.value > best.value.score.value) {
        KeptMoves(w, seen, f, best, at);
        best := Some(f);
        at := i;
      } else {
        KeptStays(w, seen, f, best, at);
      }
    }
    assert rows[..|rows|] == rows;
  }

  /** f does not replace a row that is kept. */
  predicate Ignored(w: Rules, f: FrameRow, kept: FrameRow) {
    Eligible(w, f) && f.score.Some? && kept.score.Some? ==> f.score.value <= kept.score.value
  }

  lemma KeptStays(w: Rules, seen: seq<FrameRow>, f: FrameRow, best: Option<FrameRow>, at: nat)
    requires best.None? ==> !Eligible(w, f)
    requires best.Some? ==>
      at < |seen| && best.value == seen[at] && KeptAt(w, seen, at) && Ignored(w, f, seen[at])
    ensures best.Some? ==> KeptAt(w, seen + [f], at)
  {
    if best.Some? && seen[at].score.Some? {
      var rows := seen + [f];
      var e :| 0 <= e <= at && FirstEligible(w, seen, e) && seen[e].score.Some?;
      assert FirstEligible(w, rows, e) && rows[e].score.Some?;
    }
  }

  lemma KeptMoves(w: Rules, seen: seq<FrameRow>, f: FrameRow, best: Option<FrameRow>, at: nat)
    requires Eligible(w, f)
    requires best.None? ==> forall j :: 0 <= j < |seen| ==> !Eligible(w, seen[j])
    requires best.Some? ==>
      at < |seen| && best.value == seen[at] && KeptAt(w, seen, at) && !Ignored(w, f, seen[at])
    ensures KeptAt(w, seen + [f], |seen|)
  {
    var rows := seen + [f];
    if best.Some? {
      var e :| 0 <= e <= at && FirstEligible(w, seen, e) && seen[e].score.Some?;
      assert FirstEligible(w, rows, e) && rows[e].score.Some?;
    } else {
      assert FirstEligible(w, rows, |seen|);
    }
  }

  /** On rows in fetch order the kept row is the earliest of maximum score, unless the first
      eligible row has no score; then it is that row. */
  lemma KeptIsBest(w: Rules, rows: seq<FrameRow>, frames: set<FrameRow>, cam: string, best: FrameRow)
    requires InFetchOrder(rows) && Kept(w, rows, Some(best))
    requires forall r :: r in rows <==> r in frames && Listed(w, cam, r)
    ensures best in rows && Eligible(w, best)
    ensures IsBest(frames, w, cam, best) <==> best.score.Some?
    ensures forall f :: 0 <= f < |rows| && FirstEligible(w, rows, f) ==>
      (best.score.None? <==> rows[f].score.None?) && (best.score.None? ==> best == rows[f])
  {
    var k :| 0 <= k < |rows| && KeptAt(w, rows, k) && best == rows[k];
    assert best in rows;
    if best.score.Some? {
      KeptIsEarliestMaximum(w, rows, frames, cam, k);
    }
  }

  lemma KeptIsEarliestMaximum(w: Rules, rows: seq<FrameRow>, frames: set<FrameRow>, cam: string, k: nat)
    requires InFetchOrder(rows) && k < |rows| && KeptAt(w, rows, k) && rows[k].score.Some?
    requires forall r :: r in rows <==> r in frames && Listed(w, cam, r)
    ensures IsBest(frames, w, cam, rows[k])
  {
    var best := rows[k];
    assert best in rows;
    forall q | q in frames && Listed(w, cam, q) && Eligible(w, q) && q.score.Some?
      ensures q.score.value < best.score.value
              || (q.score.value == best.score.value && best.fetched <= q.fetched)
    {
      assert q in rows;
      var i :| 0 <= i < |rows| && rows[i] == q;
    }
  }

  /** The pick over the per-camera bests, in any order. */
  method Pick(cameras: map<string, Camera>, best: map<string, FrameRow>, role: Role)
    returns (out: Option<string>)
    requires best.Keys <= cameras.Keys
    ensures out.None? <==> forall k :: k in best ==> !(cameras[k].role == role && cameras[k].eligible)
    ensures out.Some? ==>
      && out.value in best && cameras[out.value].role == role && cameras[out.value].eligible
      && forall k :: k in best && cameras[k].role == role && cameras[k].eligible ==>
        cameras[out.value].priority <= cameras[k].priority
  {
    out := None;
    var rest := best.Keys;
    while rest != {}
      invariant rest <= best.Keys
      invariant out.None? ==>
        forall k :: k in best && k !in rest ==> !(cameras[k].role == role && cameras[k].eligible)
      invariant out.Some? ==>
        && out.value in best && cameras[out.value].role == role && cameras[out.value].eligible
        && forall k :: k in best && k !in rest && cameras[k].role == role && cameras[k].eligible ==>
          cameras[out.value].priority <= cameras[k].priority
    {
      var k :| k in rest;
      rest := rest - {k};
      if cameras[k].role != role || !cameras[k].eligible {
        continue;
      }
      if out.None? || cameras[k].priority < cameras[out.value].priority {
        out := Some(k);
      }
    }
  }

  /** The day query: the listed rows, ordered by fetch time; ties come in any order. */
  method DayFrames(frames: set<FrameRow>, w: Rules, cam: string) returns (rows: seq<FrameRow>)
    ensures InFetchOrder(rows)
    ensures forall r :: r in rows <==> r in frames && Listed(w, cam, r)
  {
    var rest := set r | r in frames && Listed(w, cam, r);
    rows := [];
    while rest != {}
      invariant InFetchOrder(rows)
      invariant forall r :: r in frames && Listed(w, cam, r) <==> r in rows || r in rest
      invariant forall r, q :: r in rows && q in rest ==> r.fetched <= q.fetched
      decreases |rest|
    {
      EarliestExists(rest);
      var r :| r in rest && forall q :: q in rest ==> r.fetched <= q.fetched;
      rest := rest - {r};
      rows := rows + [r];
    }
  }

  lemma {:induction false} EarliestExists(rows: set<FrameRow>)
    requires rows != {}
    ensures exists r :: r in rows && forall q :: q in rows ==> r.fetched <= q.fetched
    decreases |rows|
  {
    var x :| x in rows;
    if rows != {x} {
      EarliestExists(rows - {x});
      var y :| y in rows - {x} && forall q :: q in rows - {x} ==> y.fetched <= q.fetched;
      var least := if x.fetched <= y.fetched then x else y;
      assert forall q :: q in rows ==> q == x || q in rows - {x};
      assert least in rows && forall q :: q in rows ==> least.fetched <= q.fetched;
    }
  }

  ghost predicate AnyEligible(s: State, w: Rules) {
    exists cam :: cam in s.cameras && HasEligible(s.frames, w, cam)
  }

  /** pub is the publisher and the frame it publishes; None when neither role has a candidate. */
  ghost predicate Chosen(s: State, w: Rules, pub: Option<(string, FrameRow)>) {
    && (pub.None? <==> NoCandidate(s, w, Primary) && NoCandidate(s, w, Backup))
    && (pub.Some? ==>
      && Publisher(s, w, pub.value.0)
      && pub.value.1 in s.frames && Listed(w, pub.value.0, pub.value.1) && Eligible(w, pub.value.1)
      && (IsBest(s.frames, w, pub.value.0, pub.value.1) <==> pub.value.1.score.Some?))
  }

  /** The choice looks at cameras and frame rows only. */
  lemma ChoiceIgnoresDays(s: State, t: State, w: Rules, pub: Option<(string, FrameRow)>)
    requires s.frames == t.frames && s.cameras == t.cameras
    ensures Chosen(s, w, pub) == Chosen(t, w, pub)
  {
    assert forall role, k :: Candidate(s, w, role, k) == Candidate(t, w, role, k);
  }

  lemma ChosenIsListed(s: State, w: Rules, pub: Option<(string, FrameRow)>)
    requires Chosen(s, w, pub) && pub.Some?
    ensures pub.value.0 in s.cameras && pub.value.1 in s.frames
    ensures Publisher(s, w, pub.value.0)
    ensures pub.value.1.score.Some? ==> IsBest(s.frames, w, pub.value.0, pub.value.1)
  {
  }

  /** The publication of a date with this dusk cutoff, in terms of rows and cameras alone: among the
      good frames of the date that are bright enough and fetched by the cutoff, the earliest of
      maximum score of a publish-eligible camera, a primary before a backup, of least priority;
      none exactly when no such camera has such a frame. */
  ghost predicate BestOfDay(s: State, date: Date, cutoff: int, pub: Option<(string, FrameRow)>) {
    var day := set r | r in s.frames && r.date == date && r.ok && r.medianL.Some?
      && r.medianL.value >= s.settings.floor && r.fetched <= cutoff;
    if pub.None? then
      forall r :: r in day && r.cam in s.cameras && s.cameras[r.cam].eligible ==> s.cameras[r.cam].role == TriggerOnly
    else
      var (cam, f) := pub.value;
      && f in day && f.cam == cam && f.score.Some?
      && cam in s.cameras && s.cameras[cam].eligible && s.cameras[cam].role != TriggerOnly
      && (forall r :: r in day && r.cam == cam && r.score.Some? ==>
        r.score.value < f.score.value || (r.score.value == f.score.value && r.fetched >= f.fetched))
      && forall r :: r in day && r.cam in s.cameras && s.cameras[r.cam].eligible ==>
        && (s.cameras[r.cam].role == Primary ==>
          s.cameras[cam].role == Primary && s.cameras[cam].priority <= s.cameras[r.cam].priority)
        && (s.cameras[r.cam].role == Backup && s.cameras[cam].role == Backup ==>
          s.cameras[cam].priority <= s.cameras[r.cam].priority)
  }

  /** Why a date without a publication fails. */
  ghost function WhyNothing(s: State, date: Date, cutoff: int): string {
    if exists r :: r in s.frames && r.cam in s.cameras && r.date == date && r.ok && r.medianL.Some?
                   && r.medianL.value >= s.settings.floor && r.fetched <= cutoff
    then "eligible frames exist but no publish-eligible camera"
    else "no archive-eligible frames"
  }

  lemma AnyEligibleIsTheReason(s: State, w: Rules)
    requires w.floor == s.settings.floor
    ensures WhyNothing(s, w.date, w.cutoff) ==
      if AnyEligible(s, w) then "eligible frames exist but no publish-eligible camera"
      else "no archive-eligible frames"
  {
    if AnyEligible(s, w) {
      var cam :| cam in s.cameras && HasEligible(s.frames, w, cam);
      var r :| r in s.frames && Listed(w, cam, r) && Eligible(w, r);
    } else {
      forall r | r in s.frames && r.cam in s.cameras && r.date == w.date && r.ok && r.medianL.Some?
        ensures !(r.medianL.value >= w.floor && r.fetched <= w.cutoff)
      {
        assert !HasEligible(s.frames, w, r.cam);
      }
    }
  }

  lemma ChosenIsBestOfDay(s: State, w: Rules, pub: Option<(string, FrameRow)>)
    requires Chosen(s, w, pub) && w.floor == s.settings.floor && (pub.Some? ==> pub.value.1.score.Some?)
    ensures BestOfDay(s, w.date, w.cutoff, pub)
  {
    forall r | r in s.frames && r.date == w.date && r.ok && r.medianL.Some? && r.medianL.value >= w.floor
        && r.fetched <= w.cutoff && r.cam in s.cameras && s.cameras[r.cam].eligible
      ensures Candidate(s, w, s.cameras[r.cam].role, r.cam)
    {
      assert Listed(w, r.cam, r) && Eligible(w, r);
    }
  }

  /** The per-camera bests of a day, and the published one. */
  method Choose(s: State, w: Rules) returns (pub: Option<(string, FrameRow)>, any: bool)
    ensures any == AnyEligible(s, w)
    ensures Chosen(s, w, pub)
    ensures pub.Some? ==> pub.value.0 in s.cameras && pub.value.1 in s.frames
  {
    var best: map<string, FrameRow> := map[];
    var rest := s.cameras.Keys;
    while rest != {}
      invariant rest <= s.cameras.Keys && best.Keys <= s.cameras.Keys
      invariant forall k :: k in s.cameras && k !in rest ==>
        (k in best <==> HasEligible(s.frames, w, k))
      invariant forall k :: k in best ==> k !in rest && BestEntry(s.frames, w, k, best[k])
    {
      var cam :| cam in rest;
      rest := rest - {cam};
      var rows := DayFrames(s.frames, w, cam);
      var b := BestRow(w, rows);
      if b.Some? {
        KeptIsBest(w, rows, s.frames, cam, b.value);
        best := best[cam := b.value];
      }
    }
    any := best != map[];
    assert any ==> exists k :: k in best;
    assert forall role, k :: Candidate(s, w, role, k) <==>
      k in best && s.cameras[k].role == role && s.cameras[k].eligible;
    var out := Pick(s.cameras, best, Primary);
    if out.None? {
      out := Pick(s.cameras, best, Backup);
    }
    if out.None? {
      return None, any;
    }
    assert Candidate(s, w, s.cameras[out.value].role, out.value);
    return Some((out.value, best[out.value])), any;
  }

  ghost predicate BestEntry(frames: set<FrameRow>, w: Rules, cam: string, r: FrameRow) {
    && r in frames && Listed(w, cam, r) && Eligible(w, r)
    && (IsBest(frames, w, cam, r) <==> r.score.Some?)
  }

  // ---- the published row ----

  predicate OnDisk(files: Files, f: FrameRow) {
    f.path in files && files[f.path].Image?
  }

  /** Everything that can be published from this row exists and renders. */
  predicate Renders(c: Codec, files: Files, crop: Option<Roi>, f: FrameRow) {
    && OnDisk(files, f) && f.score.Some?
    && var pub := CropOrFull(c, files[f.path].bytes, CameraCrop(crop, f.width, f.height));
    && pub.Some? && c.thumb(pub.value, 480).Some? && c.thumb(pub.value, 240).Some?
  }

  function CompleteRow(date: Date, score: Option<real>, cam: string, taken: int, hash: string): DayRow {
    DayRow(Complete, "", score, Some(cam), taken, Some(BestFile(date, hash)),
           Some(ThumbFile(date, hash, 480)), Some(ThumbFile(date, hash, 240)))
  }

  /** The paths of a published row: they carry its own date. */
  predicate Shaped(date: Date, day: DayRow) {
    && day.best.Some? && day.best.value.BestFile? && day.best.value.date == date
    && day.thumb480 == Some(ThumbFile(date, day.best.value.hash, 480))
    && day.thumb240 == Some(ThumbFile(date, day.best.value.hash, 240))
  }
}
