/** The inputs, the per-camera states and the course of a capture window. */
module Window {
  import opened Wrappers
  import opened Durable
  import opened Changes
  import Trigger

  /** What one camera's turn met: the fetched bytes (None when the fetch failed), the clock at
      each reading, the disk check, and the identifier a new event would get. */
  datatype Shot = Shot(jpeg: Option<Bytes>, named: nat, fetched: int, sampled: int, diskLow: bool,
                       eventId: string)

  /** One round of the polling loop: the clock and the context at its head, one shot for each
      camera, the clock before the sleep, and whether the sleep was cancelled. */
  datatype Poll = Poll(now: int, stopped: bool, shots: nat -> Shot, after: int, cancelled: bool) {
    predicate Over(end: int) { now >= end || stopped }
  }

  /** How the polling loop ended: the window closed (or the context was done between rounds), the
      sleep was cancelled, or the process died. */
  datatype Watched = WindowOver | SleepCancelled | Died

  /** The first round that ends the loop decides how it ends. */
  function Ended(polls: seq<Poll>, end: int): Watched {
    if polls == [] then Died
    else if polls[0].Over(end) || polls[0].after >= end then WindowOver
    else if polls[0].cancelled then SleepCancelled
    else Ended(polls[1..], end)
  }

  /** The rounds that are carried out. */
  function Rounds(polls: seq<Poll>, end: int): seq<Poll> {
    if polls == [] || polls[0].Over(end) then []
    else if polls[0].after >= end || polls[0].cancelled then [polls[0]]
    else [polls[0]] + Rounds(polls[1..], end)
  }

  /** The rounds carried out are those before the first round that starts at or after the end or
      with the context done, up to the first round after which the end has come or the sleep is
      cancelled; a script that runs out is a death. */
  lemma {:induction false} RoundsUpToTheEnd(polls: seq<Poll>, end: int)
    ensures var n := |Rounds(polls, end)|;
      && n <= |polls| && Rounds(polls, end) == polls[..n]
      && (forall k :: 0 <= k < n ==> polls[k].now < end && !polls[k].stopped)
      && (forall k :: 0 <= k < n - 1 ==> polls[k].after < end && !polls[k].cancelled)
      && if n > 0 && polls[n - 1].after >= end then Ended(polls, end) == WindowOver
         else if n > 0 && polls[n - 1].cancelled then Ended(polls, end) == SleepCancelled
         else if n == |polls| then Ended(polls, end) == Died
         else (polls[n].now >= end || polls[n].stopped) && Ended(polls, end) == WindowOver
  {
    if polls != [] && !polls[0].Over(end) && polls[0].after < end && !polls[0].cancelled {
      RoundsUpToTheEnd(polls[1..], end);
      var m := |Rounds(polls[1..], end)|;
      assert polls[..m + 1] == [polls[0]] + polls[1..][..m];
      assert forall k :: 0 < k <= m ==> polls[k] == polls[1..][k - 1];
    }
  }

  /** No disk check of these rounds found the disk low. */
  ghost predicate Roomy(rounds: seq<Poll>) {
    forall k, i: nat :: 0 <= k < |rounds| ==> !rounds[k].shots(i).diskLow
  }

  /** How a capture window ended. */
  datatype Ending =
    | Refused              // no run row, or no day row
    | Unfetched            // no capture set
    | Killed               // the process died while polling
    | Cancelled            // cancelled during a sleep
    | Unclosed             // the run could not be marked finished
    | Closed(ok: bool, pub: Option<(string, FrameRow)>)

  /** The status of the run a window leaves, when no write failed. */
  function StatusAfter(e: Ending): RunStatus {
    match e
    case Cancelled => Interrupted
    case Closed(_, _) => Finished
    case _ => Running
  }

  /** What an admin can do between two wake-ups; each is one whole step. */
  datatype Edit =
    | NoEdit
    | SaveCamera(id: string, camera: Camera)
    | RemoveCamera(id: string)
    | SaveSettings(floor: real, interval: int, retentionDays: int)
    | SaveNotifiers(ids: seq<string>)
    | Recrop(date: Date)
    | Refinalize(date: Date)

  /** The inputs of one wake-up: an admin step before it, the clock, the run's new identifier, the
      cameras to film (None when they cannot be read) and what polling would meet. */
  datatype Wake = Wake(edit: Edit, today: Date, now: int, retentionDue: bool, id: string,
                       cams: Option<seq<string>>, polls: seq<Poll>)
  {
    /** The capture set is read from the cameras there are. */
    function CaptureSet(cameras: map<string, Camera>): (r: Option<seq<string>>)
      ensures r.Some? <==> cams.Some?
      ensures r.Some? ==> forall i :: 0 <= i < |r.value| ==> r.value[i] in cameras
      ensures r.Some? ==> forall c :: c in r.value <==> c in cams.value && c in cameras
      ensures cams.Some? && (forall c :: c in cams.value ==> c in cameras) ==> r == cams
    {
      if cams.None? then None else Some(Known(cams.value, cameras))
    }
  }

  function Known(cams: seq<string>, cameras: map<string, Camera>): (r: seq<string>)
    ensures forall i :: 0 <= i < |r| ==> r[i] in cameras
    ensures forall c :: c in r <==> c in cams && c in cameras
    ensures (forall c :: c in cams ==> c in cameras) ==> r == cams
  {
    if cams == [] then []
    else (if cams[0] in cameras then [cams[0]] else []) + Known(cams[1..], cameras)
  }

  function SetOf(cams: seq<string>): set<string> {
    set c | c in cams
  }

  /** What a wake-up did. */
  datatype Ticked = Unplanned | Idle | Ran(ending: Ending) | Finalized(ok: bool)

  /** The HHMMSS of a frame's name, as the second of its UTC day. */
  function SecondOfDay(ms: nat): nat {
    var sec := ms / 1000;
    (sec / 3600) % 24 * 3600 + (sec / 60) % 60 * 60 + sec % 60
  }

  lemma SecondOfDayIs(ms: nat)
    ensures SecondOfDay(ms) == ms / 1000 % 86400
  {
    var sec := ms / 1000;
    var h := sec / 3600;
    var day := h / 24;
    assert sec == 3600 * h + sec % 3600 && h == 24 * day + h % 24;
    MinutesAndSeconds(sec);
    var rest := h % 24 * 3600 + (sec / 60) % 60 * 60 + sec % 60;
    assert sec == 86400 * day + rest && 0 <= rest < 86400;
    RestOfDay(sec, day, rest);
  }

  lemma MinutesAndSeconds(sec: nat)
    ensures sec % 3600 == (sec / 60) % 60 * 60 + sec % 60
  {
    var m := sec / 60;
    assert sec == 60 * m + sec % 60 && m == 60 * (m / 60) + m % 60;
  }

  lemma RestOfDay(sec: nat, day: nat, rest: nat)
    requires sec == 86400 * day + rest && rest < 86400
    ensures sec % 86400 == rest
  {
  }

  /** The state of one camera in a capture window; camera is its row and seed the hash of its
      latest stored frame, both as read at the start.  The interval is in milliseconds. */
  class CamState {
    const cam: string
    const camera: Camera
    const trig: Trigger.TriggerState
    ghost const seed: string
    var lastSHA: string
    var lastPath: Option<Path>

    constructor (cam: string, camera: Camera, interval: int, lastSHA: string)
      ensures this.cam == cam && this.camera == camera && this.lastSHA == lastSHA && lastPath.None?
      ensures seed == lastSHA
      ensures fresh(trig) && trig.interval == interval && trig.samples == [] && !trig.fired
    {
      this.cam, this.camera, this.lastSHA, lastPath := cam, camera, lastSHA, None;
      seed := lastSHA;
      trig := new Trigger.TriggerState(interval);
    }

    /** The latch is closed exactly when some length of the history so far qualified. */
    ghost predicate Exact()
      reads trig
    {
      trig.fired <==> Trigger.EverQualified(camera.params, trig.interval, trig.samples)
    }
  }

  function Latches(states: seq<CamState>): set<Trigger.TriggerState> {
    set i | 0 <= i < |states| :: states[i].trig
  }

  /** The states of one window: separate objects, each with an exact latch. */
  ghost predicate Separate(states: seq<CamState>)
    reads Latches(states)
  {
    && (forall i, j :: 0 <= i < j < |states| ==> states[i] != states[j] && states[i].trig != states[j].trig)
    && forall i :: 0 <= i < |states| ==> states[i].Exact()
  }

  /** Cameras whose histories stay quiet close no latch, so by the window's contract they leave
      the alerts alone. */
  lemma QuietCamerasStaySilent(states: seq<CamState>, lo: seq<real>, hi: seq<real>)
    requires Separate(states) && |lo| == |hi| == |states|
    requires forall i :: 0 <= i < |states| ==>
      && Trigger.Quiet(states[i].trig.samples, lo[i], hi[i])
      && hi[i] - lo[i] < states[i].camera.params.deltaAbs
    ensures !AnyFired(states)
  {
    hide Trigger.Qualifies, Trigger.Quiet;
    forall i | 0 <= i < |states| ensures !states[i].trig.fired {
      var st := states[i];
      forall n | 0 <= n <= |st.trig.samples|
        ensures !Trigger.Qualifies(st.camera.params, st.trig.interval, st.trig.samples[..n])
      {
        Trigger.QuietNeverQualifies(st.camera.params, st.trig.interval, st.trig.samples, lo[i], hi[i], n);
      }
      assert st.Exact();
    }
  }

  lemma NoStates()
    ensures Latches([]) == {} && Separate([]) && !AnyFired([])
  {
  }

  lemma LatchesMore(states: seq<CamState>, st: CamState)
    ensures Latches(states + [st]) == Latches(states) + {st.trig}
  {
    var more := states + [st];
    assert forall i :: 0 <= i < |states| ==> more[i] == states[i];
    assert more[|states|] == st;
  }

  ghost predicate AnyFired(states: seq<CamState>)
    reads Latches(states)
  {
    exists i :: 0 <= i < |states| && states[i].trig.fired
  }

  /** The first n rounds run and do not end the loop. */
  ghost predicate Unrolled(polls: seq<Poll>, end: int, n: nat)
    requires n <= |polls|
  {
    && Ended(polls, end) == Ended(polls[n..], end)
    && Rounds(polls, end) == polls[..n] + Rounds(polls[n..], end)
  }

  lemma StartUnrolled(polls: seq<Poll>, end: int)
    ensures Unrolled(polls, end, 0) && polls[..0] == []
  {
    assert polls[0..] == polls;
  }

  lemma AllUnrolled(polls: seq<Poll>, end: int)
    requires Unrolled(polls, end, |polls|)
    ensures Ended(polls, end) == Died && Rounds(polls, end) == polls[..|polls|]
  {
    assert polls[|polls|..] == [];
  }

  lemma Unroll(polls: seq<Poll>, end: int, n: nat)
    requires n < |polls| && Unrolled(polls, end, n)
    ensures var poll, rounds := polls[n], Rounds(polls, end);
      && polls[..n + 1] == polls[..n] + [poll]
      && if poll.Over(end) then Ended(polls, end) == WindowOver && rounds == polls[..n]
         else if poll.after >= end then Ended(polls, end) == WindowOver && rounds == polls[..n + 1]
         else if poll.cancelled then Ended(polls, end) == SleepCancelled && rounds == polls[..n + 1]
         else Unrolled(polls, end, n + 1)
  {
    assert polls[n..][1..] == polls[n + 1..];
  }

  lemma RoomyMore(rounds: seq<Poll>, poll: Poll)
    ensures Roomy(rounds + [poll]) ==> Roomy(rounds) && Roomy([poll])
  {
    var more := rounds + [poll];
    assert more[|rounds|] == poll;
    assert forall k :: 0 <= k < |rounds| ==> more[k] == rounds[k];
  }

  lemma RoomyRound(poll: Poll, i: nat)
    requires Roomy([poll])
    ensures !poll.shots(i).diskLow
  {
    assert [poll][0] == poll;
  }

  /** t is s after a run of today stored some frames of these cameras: nothing else changed, no
      file was overwritten, and every new row belongs to that run. */
  predicate Captured(s: State, t: State, runId: string, cams: set<string>) {
    && t == s.(frames := t.frames, files := t.files)
    && s.frames <= t.frames
    && (forall r :: r in t.frames && r !in s.frames ==> r.runId == runId && r.date == s.today && r.cam in cams)
    && s.files.Keys <= t.files.Keys
    && (forall p :: p in s.files ==> t.files[p] == s.files[p])
    && (forall p :: p in t.files && p !in s.files ==> p.FrameFile? && p.date == s.today && p.cam in cams)
  }

  lemma CapturedNothing(s: State, runId: string, cams: set<string>)
    ensures Captured(s, s, runId, cams)
  {
  }

  /** t has the frames of s and those this run stored; no file was lost, and what is new or
      rewritten is a new frame file of the run's cameras or was published for today. */
  ghost predicate StoredByRun(s: State, t: State, runId: string, cams: Option<seq<string>>) {
    && s.frames <= t.frames
    && (forall r :: r in t.frames && r !in s.frames ==>
      r.runId == runId && r.date == s.today && cams.Some? && r.cam in cams.value)
    && s.files.Keys <= t.files.Keys
    && forall p :: p in t.files && (p !in s.files || t.files[p] != s.files[p]) ==>
      || DayOf(p) == Some(s.today)
      || (p !in s.files && p.FrameFile? && p.date == s.today && cams.Some? && p.cam in cams.value)
  }

  lemma StoredNothing(s: State, t: State, runId: string, cams: Option<seq<string>>)
    requires s.frames == t.frames && s.files == t.files
    ensures StoredByRun(s, t, runId, cams)
  {
  }

  lemma StoredByCapture(s: State, t: State, u: State, runId: string, cams: Option<seq<string>>)
    requires s.frames == t.frames && s.files == t.files && s.today == t.today && cams.Some?
    requires Captured(t, u, runId, SetOf(cams.value))
    ensures StoredByRun(s, u, runId, cams)
  {
  }

  lemma StoredMore(s: State, t: State, u: State, runId: string, cams: Option<seq<string>>)
    requires StoredByRun(s, t, runId, cams) && t.frames == u.frames
    requires OnlyPublished(t.files, u.files, {s.today})
    ensures StoredByRun(s, u, runId, cams)
  {
  }

  lemma CapturedFixes(s: State, t: State, runId: string, cams: set<string>)
    requires Captured(s, t, runId, cams)
    ensures t == s.(frames := t.frames, files := t.files) && s.frames <= t.frames
  {
  }

  lemma CapturedChain(s: State, t: State, u: State, runId: string, cams: set<string>, more: set<string>)
    requires Captured(s, t, runId, cams) && Captured(t, u, runId, more) && more <= cams
    ensures Captured(s, u, runId, cams)
  {
  }
}
