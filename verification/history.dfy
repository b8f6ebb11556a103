/** What each camera hears over the rounds of a capture window, as a function of the inputs, and
    when a GO claim can fail. */
module History {
  import opened Wrappers
  import opened Durable
  import opened Window
  import Alerts
  import Trigger

  // ---- one shot ----

  /** The score of a new sample: the camera is live, the frame was fetched, differs from the last
      one and can be scored. */
  function NewSample(c: Codec, cam: Camera, shot: Shot, lastSHA: string): Option<Measure> {
    if cam.stale || shot.jpeg.None? || !c.decodes(shot.jpeg.value) then None
    else if c.sha(shot.jpeg.value) == lastSHA then None
    else c.measure(shot.jpeg.value, cam.roi)
  }

  /** The hash the next shot is compared with. */
  function LastSeen(c: Codec, cam: Camera, shot: Shot, lastSHA: string): string {
    if cam.stale || shot.jpeg.None? || !c.decodes(shot.jpeg.value) then lastSHA
    else c.sha(shot.jpeg.value)
  }

  /** The sample a shot yields, if any. */
  function Hears(c: Codec, cam: Camera, shot: Shot, lastSHA: string): seq<Trigger.Sample> {
    var m := NewSample(c, cam, shot, lastSHA);
    if m.None? then [] else [Trigger.Sample(shot.sampled, m.value.score)]
  }

  /** The row of a frame stored under p on this date. */
  function FrameOf(c: Codec, runId: string, cam: string, date: Date, shot: Shot, jpeg: Bytes, m: Measure,
                   p: Path): FrameRow
  {
    FrameRow(runId, cam, date, shot.fetched, Dims(c, jpeg).0, Dims(c, jpeg).1,
             c.sha(jpeg), Some(m.score), Some(m.medianL), true, p)
  }

  // ---- a camera's rounds ----

  /** The hash of camera i after these rounds. */
  function ShaAfter(c: Codec, cam: Camera, i: nat, rounds: seq<Poll>, seed: string): string {
    if rounds == [] then seed
    else
      var n := |rounds| - 1;
      LastSeen(c, cam, rounds[n].shots(i), ShaAfter(c, cam, i, rounds[..n], seed))
  }

  /** The samples of camera i over these rounds. */
  function Heard(c: Codec, cam: Camera, i: nat, rounds: seq<Poll>, seed: string): seq<Trigger.Sample> {
    if rounds == [] then []
    else
      var n := |rounds| - 1;
      Heard(c, cam, i, rounds[..n], seed)
        + Hears(c, cam, rounds[n].shots(i), ShaAfter(c, cam, i, rounds[..n], seed))
  }

  // ---- repeated frames ----

  /** The frame of round n has the hash of the frame before it: that of the last round before n in
      which one was fetched and decoded, or at first the hash the window was opened with. */
  ghost predicate Repeats(c: Codec, i: nat, rounds: seq<Poll>, n: nat, seed: string)
    requires n < |rounds| && rounds[n].shots(i).jpeg.Some?
  {
    exists m :: -1 <= m < n && FrameBefore(c, i, rounds, m, n)
      && c.sha(rounds[n].shots(i).jpeg.value) == if m == -1 then seed else c.sha(rounds[m].shots(i).jpeg.value)
  }

  /** m is the last round before n with a frame of camera i; -1 when there is none. */
  ghost predicate FrameBefore(c: Codec, i: nat, rounds: seq<Poll>, m: int, n: nat)
    requires -1 <= m < n <= |rounds|
  {
    && (m >= 0 ==> rounds[m].shots(i).jpeg.Some? && c.decodes(rounds[m].shots(i).jpeg.value))
    && forall k :: m < k < n ==> rounds[k].shots(i).jpeg.None? || !c.decodes(rounds[k].shots(i).jpeg.value)
  }

  /** A live camera remembers its last frame. */
  lemma {:induction false} RemembersLastFrame(c: Codec, cam: Camera, i: nat, rounds: seq<Poll>, m: int, seed: string)
    requires !cam.stale && -1 <= m < |rounds| && FrameBefore(c, i, rounds, m, |rounds|)
    ensures ShaAfter(c, cam, i, rounds, seed) == if m == -1 then seed else c.sha(rounds[m].shots(i).jpeg.value)
  {
    if m < |rounds| - 1 {
      var less := rounds[..|rounds| - 1];
      assert forall k :: 0 <= k < |less| ==> less[k] == rounds[k];
      if less != [] {
        RemembersLastFrame(c, cam, i, less, m, seed);
      }
    }
  }

  lemma {:induction false} SomeFrameBefore(c: Codec, i: nat, rounds: seq<Poll>, n: nat)
    requires n <= |rounds|
    ensures exists m :: -1 <= m < n && FrameBefore(c, i, rounds, m, n)
  {
    if n == 0 {
      assert FrameBefore(c, i, rounds, -1, n);
    } else if rounds[n - 1].shots(i).jpeg.Some? && c.decodes(rounds[n - 1].shots(i).jpeg.value) {
      assert FrameBefore(c, i, rounds, n - 1, n);
    } else {
      SomeFrameBefore(c, i, rounds, n - 1);
      var m :| -1 <= m < n - 1 && FrameBefore(c, i, rounds, m, n - 1);
      assert FrameBefore(c, i, rounds, m, n);
    }
  }

  /** What is remembered before round n decides whether its frame is a repeat. */
  lemma RepeatsWhatIsRemembered(c: Codec, cam: Camera, i: nat, rounds: seq<Poll>, n: nat, seed: string)
    requires !cam.stale && n < |rounds| && rounds[n].shots(i).jpeg.Some?
    ensures Repeats(c, i, rounds, n, seed) <==>
      c.sha(rounds[n].shots(i).jpeg.value) == ShaAfter(c, cam, i, rounds[..n], seed)
  {
    forall m | -1 <= m < n && FrameBefore(c, i, rounds, m, n)
      ensures ShaAfter(c, cam, i, rounds[..n], seed) == if m == -1 then seed else c.sha(rounds[m].shots(i).jpeg.value)
    {
      if n > 0 {
        assert forall k :: 0 <= k < n ==> rounds[..n][k] == rounds[k];
        RemembersLastFrame(c, cam, i, rounds[..n], m, seed);
      }
    }
    SomeFrameBefore(c, i, rounds, n);
  }

  /** A round adds a sample exactly when the camera is live and its frame was fetched, decodes, can
      be scored, and is no repeat; a repeated frame is not heard. */
  lemma RepeatsAreNotHeard(c: Codec, cam: Camera, i: nat, rounds: seq<Poll>, n: nat, seed: string)
    requires n < |rounds|
    ensures var shot := rounds[n].shots(i);
      Heard(c, cam, i, rounds[..n + 1], seed) == Heard(c, cam, i, rounds[..n], seed) +
        if !cam.stale && shot.jpeg.Some? && c.decodes(shot.jpeg.value) && !Repeats(c, i, rounds, n, seed)
          && c.measure(shot.jpeg.value, cam.roi).Some?
        then [Trigger.Sample(shot.sampled, c.measure(shot.jpeg.value, cam.roi).value.score)]
        else []
  {
    hide Repeats;
    assert rounds[..n + 1][..n] == rounds[..n];
    if !cam.stale && rounds[n].shots(i).jpeg.Some? {
      RepeatsWhatIsRemembered(c, cam, i, rounds, n, seed);
    }
  }

  /** Camera i of the window had news in round k: a frame that could be scored and is no repeat. */
  ghost predicate News(c: Codec, states: seq<CamState>, rounds: seq<Poll>, k: nat, i: nat) {
    && k < |rounds| && i < |states| && rounds[k].shots(i).jpeg.Some?
    && var jpeg := rounds[k].shots(i).jpeg.value;
    && !states[i].camera.stale && c.decodes(jpeg) && c.measure(jpeg, states[i].camera.roi).Some?
    && !Repeats(c, i, rounds, k, states[i].seed)
  }

  /** Camera i's news of round k is the content of file p. */
  ghost predicate FileIsNews(c: Codec, states: seq<CamState>, rounds: seq<Poll>, k: nat, i: nat, p: Path, x: Content) {
    && News(c, states, rounds, k, i)
    && p.FrameFile? && p.cam == states[i].cam && x == Image(rounds[k].shots(i).jpeg.value)
  }

  /** Row r describes camera i's news of round k. */
  ghost predicate RowIsNews(c: Codec, states: seq<CamState>, rounds: seq<Poll>, k: nat, i: nat, runId: string,
                            date: Date, r: FrameRow)
  {
    && News(c, states, rounds, k, i)
    && var jpeg := rounds[k].shots(i).jpeg.value;
    && r == FrameRow(runId, states[i].cam, date, rounds[k].shots(i).fetched, Dims(c, jpeg).0, Dims(c, jpeg).1,
                     c.sha(jpeg), Some(c.measure(jpeg, states[i].camera.roi).value.score),
                     Some(c.measure(jpeg, states[i].camera.roi).value.medianL), true, r.path)
  }

  /** Between s and t only news was stored: no file and no row comes from a repeated frame. */
  ghost predicate OnlyNews(c: Codec, states: seq<CamState>, rounds: seq<Poll>, runId: string, s: State, t: State) {
    && (forall p :: p in t.files && p !in s.files && p.FrameFile? ==>
      exists k: nat, i: nat :: FileIsNews(c, states, rounds, k, i, p, t.files[p]))
    && (forall r :: r in t.frames && r !in s.frames ==>
      exists k: nat, i: nat :: RowIsNews(c, states, rounds, k, i, runId, s.today, r))
  }

  lemma OnlyNewsAtFirst(c: Codec, states: seq<CamState>, rounds: seq<Poll>, runId: string, s: State)
    ensures OnlyNews(c, states, rounds, runId, s, s)
  {
  }

  lemma RepeatsEarlier(c: Codec, i: nat, rounds: seq<Poll>, more: seq<Poll>, n: nat, seed: string)
    requires n < |rounds| && rounds <= more && rounds[n].shots(i).jpeg.Some?
    ensures Repeats(c, i, more, n, seed) == Repeats(c, i, rounds, n, seed)
  {
    assert forall k :: 0 <= k < |rounds| ==> more[k] == rounds[k];
    assert forall m :: -1 <= m < n ==> FrameBefore(c, i, rounds, m, n) == FrameBefore(c, i, more, m, n);
  }

  lemma OnlyNewsMoreRounds(c: Codec, states: seq<CamState>, rounds: seq<Poll>, more: seq<Poll>, runId: string,
                           s: State, t: State)
    requires rounds <= more && OnlyNews(c, states, rounds, runId, s, t)
    ensures OnlyNews(c, states, more, runId, s, t)
  {
    hide Repeats;
    forall k: nat, i: nat | News(c, states, rounds, k, i) ensures News(c, states, more, k, i) {
      RepeatsEarlier(c, i, rounds, more, k, states[i].seed);
    }
    forall p | p in t.files && p !in s.files && p.FrameFile?
      ensures exists k: nat, i: nat :: FileIsNews(c, states, more, k, i, p, t.files[p])
    {
      var k: nat, i: nat :| FileIsNews(c, states, rounds, k, i, p, t.files[p]);
      assert FileIsNews(c, states, more, k, i, p, t.files[p]);
    }
    forall r | r in t.frames && r !in s.frames
      ensures exists k: nat, i: nat :: RowIsNews(c, states, more, k, i, runId, s.today, r)
    {
      var k: nat, i: nat :| RowIsNews(c, states, rounds, k, i, runId, s.today, r);
      assert RowIsNews(c, states, more, k, i, runId, s.today, r);
    }
  }

  /** Camera i's turn in round k stored at most its news, under path p. */
  ghost predicate StoredNews(c: Codec, st: CamState, shot: Shot, sha: string, runId: string, s: State, t: State) {
    t == s || (NewSample(c, st.camera, shot, sha).Some? && exists p: Path ::
      && p.FrameFile? && p.cam == st.cam
      && t.files in {s.files, s.files[p := Image(shot.jpeg.value)]}
      && t.frames in {s.frames, s.frames + {FrameOf(c, runId, st.cam, s.today, shot, shot.jpeg.value,
                                                    NewSample(c, st.camera, shot, sha).value, p)}})
  }

  lemma StoredNothingNew(c: Codec, st: CamState, shot: Shot, sha: string, runId: string, s: State)
    ensures StoredNews(c, st, shot, sha, runId, s, s)
  {
  }

  lemma StoredUnder(c: Codec, st: CamState, shot: Shot, sha: string, runId: string, s: State, t: State, p: Path)
    requires NewSample(c, st.camera, shot, sha).Some? && shot.jpeg.Some? && p.FrameFile? && p.cam == st.cam
    requires t.files in {s.files, s.files[p := Image(shot.jpeg.value)]}
    requires t.frames in {s.frames, s.frames + {FrameOf(c, runId, st.cam, s.today, shot, shot.jpeg.value,
                                                        NewSample(c, st.camera, shot, sha).value, p)}}
    ensures StoredNews(c, st, shot, sha, runId, s, t)
  {
    hide NewSample, FrameOf;
  }

  lemma OnlyNewsMore(c: Codec, states: seq<CamState>, done: seq<Poll>, poll: Poll, i: nat, runId: string,
                     s: State, t: State, u: State)
    requires i < |states| && OnlyNews(c, states, done + [poll], runId, s, t) && t.today == s.today
    requires StoredNews(c, states[i], poll.shots(i), ShaAfter(c, states[i].camera, i, done, states[i].seed), runId,
                        t, u)
    ensures OnlyNews(c, states, done + [poll], runId, s, u)
  {
    hide Repeats, ShaAfter;
    if t != u {
      var rounds, k := done + [poll], |done|;
      RepeatsWhatIsRemembered(c, states[i].camera, i, rounds, k, states[i].seed);
      assert rounds[..k] == done;
      assert News(c, states, rounds, k, i);
      forall p | p in u.files && p !in s.files && p.FrameFile?
        ensures exists k: nat, i: nat :: FileIsNews(c, states, rounds, k, i, p, u.files[p])
      {
        if p in t.files && t.files[p] == u.files[p] {
          var k: nat, i: nat :| FileIsNews(c, states, rounds, k, i, p, t.files[p]);
          assert FileIsNews(c, states, rounds, k, i, p, u.files[p]);
        } else {
          assert FileIsNews(c, states, rounds, k, i, p, u.files[p]);
        }
      }
      forall r | r in u.frames && r !in s.frames
        ensures exists k: nat, i: nat :: RowIsNews(c, states, rounds, k, i, runId, s.today, r)
      {
        if r !in t.frames {
          assert RowIsNews(c, states, rounds, k, i, runId, s.today, r);
        }
      }
    }
  }

  /** The run and date of a window, and the frame rows there are. */
  datatype Ledger = Ledger(runId: string, date: Date, rows: set<FrameRow>) {
    predicate Within(more: Ledger) {
      runId == more.runId && date == more.date && rows <= more.rows
    }
  }

  /** The sample of this shot of camera id, if any, has its frame row. */
  ghost predicate KeptOne(c: Codec, l: Ledger, id: string, cam: Camera, shot: Shot, lastSHA: string) {
    var m := NewSample(c, cam, shot, lastSHA);
    m.Some? ==> exists p :: FrameOf(c, l.runId, id, l.date, shot, shot.jpeg.value, m.value, p) in l.rows
  }

  /** Every sample of camera i over these rounds has its frame row. */
  ghost predicate KeptAll(c: Codec, l: Ledger, id: string, cam: Camera, i: nat, rounds: seq<Poll>, seed: string) {
    rounds != [] ==>
      var n := |rounds| - 1;
      && KeptAll(c, l, id, cam, i, rounds[..n], seed)
      && KeptOne(c, l, id, cam, rounds[n].shots(i), ShaAfter(c, cam, i, rounds[..n], seed))
  }

  lemma {:induction false} KeptAllStays(c: Codec, l: Ledger, more: Ledger, id: string, cam: Camera, i: nat,
                                        rounds: seq<Poll>, seed: string)
    requires l.Within(more) && KeptAll(c, l, id, cam, i, rounds, seed)
    ensures KeptAll(c, more, id, cam, i, rounds, seed)
  {
    hide NewSample, LastSeen;
    if rounds != [] {
      KeptAllStays(c, l, more, id, cam, i, rounds[..|rounds| - 1], seed);
    }
  }

  /** The camera's history is exactly the samples of these rounds; when clean, each has its row. */
  ghost predicate Followed(c: Codec, st: CamState, i: nat, rounds: seq<Poll>, l: Ledger, clean: bool)
    reads st, st.trig
  {
    && st.lastSHA == ShaAfter(c, st.camera, i, rounds, st.seed)
    && st.trig.samples == Heard(c, st.camera, i, rounds, st.seed)
    && (clean ==> KeptAll(c, l, st.cam, st.camera, i, rounds, st.seed))
  }

  lemma FollowedStays(c: Codec, st: CamState, i: nat, rounds: seq<Poll>, l: Ledger, more: Ledger,
                      clean: bool, later: bool)
    requires Followed(c, st, i, rounds, l, clean) && l.Within(more) && (later ==> clean)
    ensures Followed(c, st, i, rounds, more, later)
  {
    hide KeptAll;
    if later {
      KeptAllStays(c, l, more, st.cam, st.camera, i, rounds, st.seed);
    }
  }

  /** What a turn on one more shot leaves, if sha and samples were the camera's before it. */
  ghost predicate TookShot(c: Codec, st: CamState, shot: Shot, sha: string, samples: seq<Trigger.Sample>,
                           l: Ledger, clean: bool)
    reads st, st.trig
  {
    var m := NewSample(c, st.camera, shot, sha);
    && st.lastSHA == LastSeen(c, st.camera, shot, sha)
    && st.trig.samples == samples + Hears(c, st.camera, shot, sha)
    && (clean ==> KeptOne(c, l, st.cam, st.camera, shot, sha))
  }

  /** One more round, given what the turn did. */
  lemma FollowedMore(c: Codec, st: CamState, i: nat, rounds: seq<Poll>, poll: Poll, before: Ledger, l: Ledger,
                     clean: bool, later: bool, sha: string, samples: seq<Trigger.Sample>)
    requires sha == ShaAfter(c, st.camera, i, rounds, st.seed)
    requires samples == Heard(c, st.camera, i, rounds, st.seed)
    requires clean ==> KeptAll(c, before, st.cam, st.camera, i, rounds, st.seed)
    requires before.Within(l) && (later ==> clean) && TookShot(c, st, poll.shots(i), sha, samples, l, later)
    ensures Followed(c, st, i, rounds + [poll], l, later)
  {
    hide NewSample, LastSeen, Hears, KeptOne;
    assert (rounds + [poll])[..|rounds|] == rounds;
    if later {
      KeptAllStays(c, before, l, st.cam, st.camera, i, rounds, st.seed);
    }
  }

  // ---- all cameras ----

  /** All cameras have followed these rounds, and the first n one round more. */
  ghost predicate FollowedUpTo(c: Codec, states: seq<CamState>, n: nat, rounds: seq<Poll>, poll: Poll,
                               l: Ledger, clean: bool)
    reads states, Latches(states)
  {
    forall j :: 0 <= j < |states| ==>
      Followed(c, states[j], j, if j < n then rounds + [poll] else rounds, l, clean)
  }

  ghost predicate AllFollowed(c: Codec, states: seq<CamState>, rounds: seq<Poll>, l: Ledger, clean: bool)
    reads states, Latches(states)
  {
    forall j :: 0 <= j < |states| ==> Followed(c, states[j], j, rounds, l, clean)
  }

  /** A round begins and ends with all cameras in step. */
  lemma FollowedSplit(c: Codec, states: seq<CamState>, rounds: seq<Poll>, poll: Poll, l: Ledger, clean: bool)
    ensures FollowedUpTo(c, states, 0, rounds, poll, l, clean) <==> AllFollowed(c, states, rounds, l, clean)
    ensures FollowedUpTo(c, states, |states|, rounds, poll, l, clean) <==>
      AllFollowed(c, states, rounds + [poll], l, clean)
  {
    hide Followed;
  }

  lemma FollowedLess(c: Codec, states: seq<CamState>, n: nat, rounds: seq<Poll>, poll: Poll, l: Ledger,
                     clean: bool, later: bool)
    requires FollowedUpTo(c, states, n, rounds, poll, l, clean) && (later ==> clean)
    ensures FollowedUpTo(c, states, n, rounds, poll, l, later)
  {
    hide KeptAll;
  }

  lemma AllFollowedLess(c: Codec, states: seq<CamState>, rounds: seq<Poll>, l: Ledger, clean: bool, later: bool)
    requires AllFollowed(c, states, rounds, l, clean) && (later ==> clean)
    ensures AllFollowed(c, states, rounds, l, later)
  {
    hide KeptAll;
  }

  ghost predicate HeardQualifies(c: Codec, st: CamState, i: nat, rounds: seq<Poll>) {
    Trigger.EverQualified(st.camera.params, st.trig.interval, Heard(c, st.camera, i, rounds, st.seed))
  }

  /** A latch closes exactly when some length of what its camera heard qualifies; with the window's
      contract: that is when the day's GO is claimed. */
  lemma FiredMeansQualified(c: Codec, states: seq<CamState>, rounds: seq<Poll>, l: Ledger, clean: bool)
    requires Separate(states) && AllFollowed(c, states, rounds, l, clean)
    ensures AnyFired(states) <==> exists i: nat :: i < |states| && HeardQualifies(c, states[i], i, rounds)
  {
    hide Trigger.EverQualified, Heard, ShaAfter, KeptAll;
    forall i: nat | i < |states| ensures states[i].trig.fired <==> HeardQualifies(c, states[i], i, rounds) {
      assert Followed(c, states[i], i, rounds, l, clean);
    }
  }

  // ---- the start ----

  ghost predicate LatestGood(rows: set<FrameRow>, cam: string, r: FrameRow) {
    && r in rows && r.cam == cam && r.ok
    && forall q :: q in rows && q.cam == cam && q.ok ==> q.fetched <= r.fetched
  }

  /** sha is the hash of the camera's latest good frame row, or empty when there is none. */
  ghost predicate IsPreviousSHA(rows: set<FrameRow>, cam: string, sha: string) {
    || (sha == "" && forall r :: r in rows && r.cam == cam ==> !r.ok)
    || exists r :: LatestGood(rows, cam, r) && r.sha == sha
  }

  /** One state for each camera of the capture set, in order, read at the start of the window.  The
      trigger counts in milliseconds, the setting in seconds. */
  ghost predicate Opened(states: seq<CamState>, cams: seq<string>, from: State) {
    && |states| == |cams|
    && forall i :: 0 <= i < |states| ==>
      && states[i].cam == cams[i] && cams[i] in from.cameras && states[i].camera == from.cameras[cams[i]]
      && states[i].trig.interval == 1000 * from.settings.interval
      && IsPreviousSHA(from.frames, cams[i], states[i].seed)
  }

  /** Each camera of the capture set has heard exactly these rounds from this start. */
  ghost predicate Observed(c: Codec, states: seq<CamState>, cams: seq<string>, rounds: seq<Poll>, l: Ledger,
                           from: State, clean: bool)
    reads states, Latches(states)
  {
    Opened(states, cams, from) && AllFollowed(c, states, rounds, l, clean)
  }

  lemma ObservedFrom(c: Codec, states: seq<CamState>, cams: seq<string>, rounds: seq<Poll>, l: Ledger,
                     s: State, t: State, clean: bool, later: bool)
    requires Observed(c, states, cams, rounds, l, s, clean) && (later ==> clean)
    requires s.frames == t.frames && s.cameras == t.cameras && s.settings == t.settings
    ensures Observed(c, states, cams, rounds, l, t, later)
  {
    hide Opened;
    OpenedSame(states, cams, s, t);
    AllFollowedLess(c, states, rounds, l, clean, later);
  }

  lemma OpenedSame(states: seq<CamState>, cams: seq<string>, s: State, t: State)
    requires s.frames == t.frames && s.cameras == t.cameras && s.settings == t.settings
    ensures Opened(states, cams, s) == Opened(states, cams, t)
  {
    hide IsPreviousSHA;
  }

  // ---- claims ----

  /** Latches are exact, and the alerts have changed only if one closed. */
  ghost predicate Reporting(states: seq<CamState>, b0: Alerts.Book, b: Alerts.Book)
    reads Latches(states)
  {
    Separate(states) && (b != b0 ==> AnyFired(states))
  }

  /** Whenever a latch has closed, the date's GO event is there. */
  ghost predicate Announced(states: seq<CamState>, b: Alerts.Book, date: Date)
    reads Latches(states)
  {
    AnyFired(states) ==> Alerts.HasKey(b, Alerts.Go(date))
  }

  lemma NothingReportedYet(states: seq<CamState>, b: Alerts.Book, date: Date)
    requires Separate(states) && !AnyFired(states)
    ensures Reporting(states, b, b) && Announced(states, b, date)
  {
  }

  /** Why the claims of a round can all fail: store errors, a repeated notifier id, or an event id
      that was in the book before the window. */
  ghost predicate RoundMayFail(ids: seq<string>, b: Alerts.Book, poll: Poll, errors: int) {
    exists i: nat :: Alerts.ClaimMayFail(ids, b, poll.shots(i).eventId, errors)
  }

  ghost predicate ClaimsMayFail(ids: seq<string>, b: Alerts.Book, polls: seq<Poll>, errors: int) {
    exists n: nat :: n < |polls| && RoundMayFail(ids, b, polls[n], errors)
  }

  lemma RoundMayStillFail(ids: seq<string>, b: Alerts.Book, poll: Poll, errors: int, more: int)
    requires RoundMayFail(ids, b, poll, errors) && errors <= more
    ensures RoundMayFail(ids, b, poll, more)
  {
    var i: nat :| Alerts.ClaimMayFail(ids, b, poll.shots(i).eventId, errors);
    assert Alerts.ClaimMayFail(ids, b, poll.shots(i).eventId, more);
  }

  lemma ClaimsMayStillFail(ids: seq<string>, b: Alerts.Book, polls: seq<Poll>, errors: int, more: int)
    requires ClaimsMayFail(ids, b, polls, errors) && errors <= more
    ensures ClaimsMayFail(ids, b, polls, more)
  {
    var n: nat :| n < |polls| && RoundMayFail(ids, b, polls[n], errors);
    RoundMayStillFail(ids, b, polls[n], errors, more);
  }

  lemma MayFailAfterTurn(ids: seq<string>, b: Alerts.Book, poll: Poll, i: nat, errors: int, more: int)
    requires errors <= more
    ensures RoundMayFail(ids, b, poll, errors) ==> RoundMayFail(ids, b, poll, more)
    ensures Alerts.ClaimMayFail(ids, b, poll.shots(i).eventId, more) ==> RoundMayFail(ids, b, poll, more)
  {
    if RoundMayFail(ids, b, poll, errors) {
      RoundMayStillFail(ids, b, poll, errors, more);
    }
  }

  lemma MayFailAfterRound(ids: seq<string>, b: Alerts.Book, polls: seq<Poll>, n: nat, errors: int, more: int)
    requires n < |polls| && errors <= more
    ensures ClaimsMayFail(ids, b, polls, errors) ==> ClaimsMayFail(ids, b, polls, more)
    ensures RoundMayFail(ids, b, polls[n], more) ==> ClaimsMayFail(ids, b, polls, more)
  {
    if ClaimsMayFail(ids, b, polls, errors) {
      ClaimsMayStillFail(ids, b, polls, errors, more);
    }
  }

  /** Distinct notifier ids, and event ids the book does not hold. */
  ghost predicate SoundInputs(ids: seq<string>, b: Alerts.Book, polls: seq<Poll>) {
    && Alerts.Distinct(ids)
    && forall n: nat, i: nat :: n < |polls| ==> !Alerts.HasId(b, polls[n].shots(i).eventId)
  }

  /** With sound inputs and no store error, the claims of a window cannot all be lost. */
  lemma SoundInputsCannotFail(ids: seq<string>, b: Alerts.Book, polls: seq<Poll>)
    ensures SoundInputs(ids, b, polls) ==> !ClaimsMayFail(ids, b, polls, 0)
  {
  }
}
