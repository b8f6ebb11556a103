/** What survives a crash: the rows of the database and the files under the data root.  Every
    SQL statement or transaction, and every atomic file write or removal, is one Action. */
module Durable {
  import opened Wrappers
  import opened Score
  import Trigger

  /** A local calendar day as its day number; module Calendar ties it to the YYYY-MM-DD text. */
  type Date = int

  type Bytes = seq<int>

  datatype Measure = Measure(score: real, medianL: real)

  /** The bounds of a decoded image, wherever its origin lies. */
  type Box = b: Rect | b.WellFormed() witness Rect(0, 0, 0, 0)

  /** The foreign code: SHA-256, the JPEG decoder and encoder, the scaler and the scorer. */
  datatype Codec = Codec(
    sha: Bytes -> string,
    decodes: Bytes -> bool,
    bounds: Bytes -> Box,
    encode: (Bytes, Option<Rect>) -> Option<Bytes>,
    thumb: (Bytes, int) -> Option<Bytes>,
    measure: (Bytes, Option<Roi>) -> Option<Measure>)

  function ShortHash(hex: string): (h: string)
    ensures h <= hex && |h| == if |hex| < 8 then |hex| else 8
  {
    if |hex| > 8 then hex[..8] else hex
  }

  function NameHash(c: Codec, b: Bytes): string { ShortHash(c.sha(b)) }

  /** No two of these byte strings share a name. */
  ghost predicate NoClash(c: Codec, images: set<Bytes>) {
    forall a, b :: a in images && b in images && NameHash(c, a) == NameHash(c, b) ==> a == b
  }

  /** Width and height as the frame row records them. */
  function Dims(c: Codec, b: Bytes): (nat, nat) {
    (c.bounds(b).Dx(), c.bounds(b).Dy())
  }

  /** The stored crop if it maps to a usable rectangle of a w by h image, else the full frame. */
  function CameraCrop(crop: Option<Roi>, w: nat, h: nat): Option<Roi> {
    if crop.None? || PixelRect(crop.value, Bounds(w, h)).None? then None else crop
  }

  /** The published bytes: the crop applied, or the full frame, and re-encoded. */
  function CropOrFull(c: Codec, b: Bytes, roi: Option<Roi>): Option<Bytes> {
    if !c.decodes(b) then None
    else if roi.None? then c.encode(b, None)
    else
      var rect := PixelRect(roi.value, c.bounds(b));
      if rect.None? then None else c.encode(b, rect)
  }

  /** A crop accepted when the day is finalized is not rejected when it is rendered, wherever the
      decoded image has its origin: rendering fails only if the decoder or the encoder does. */
  lemma AcceptedCropRenders(c: Codec, b: Bytes, crop: Option<Roi>)
    requires c.decodes(b)
    ensures var (w, h) := Dims(c, b);
      var roi := CameraCrop(crop, w, h);
      && (roi.Some? ==> PixelRect(roi.value, c.bounds(b)).Some?)
      && (CropOrFull(c, b, roi).None? ==>
        c.encode(b, if roi.None? then None else PixelRect(roi.value, c.bounds(b))).None?)
  {
    if crop.Some? {
      var (w, h) := Dims(c, b);
      PixelRectDependsOnSize(crop.value, Bounds(w, h), c.bounds(b));
    }
  }

  /** What is to be published of b: the part the crop selects if that is usable, else all of it. */
  function Rendition(c: Codec, b: Bytes, crop: Option<Roi>): Option<Bytes> {
    if c.decodes(b) then c.encode(b, if crop.Some? then PixelRect(crop.value, c.bounds(b)) else None) else None
  }

  /** Checking the crop against the recorded size first and rendering later publishes just that. */
  lemma RenderingIsRendition(c: Codec, b: Bytes, crop: Option<Roi>)
    ensures var roi := CameraCrop(crop, Dims(c, b).0, Dims(c, b).1);
      && CropOrFull(c, b, roi) == Rendition(c, b, crop)
      && roi == if crop.Some? && PixelRect(crop.value, c.bounds(b)).Some? then crop else None
  {
    if crop.Some? {
      PixelRectDependsOnSize(crop.value, Bounds(Dims(c, b).0, Dims(c, b).1), c.bounds(b));
    }
  }

  datatype Path =
    | FrameFile(cam: string, date: Date, second: nat, dup: nat)
    | OrigFile(date: Date, hash: string)
    | BestFile(date: Date, hash: string)
    | ThumbFile(date: Date, hash: string, width: int)
    | JsonOf(image: Path)

  datatype Sidecar = Sidecar(date: Date, score: real, camera: string, taken: int, hash: string,
                             origHash: string, origPath: Path, crop: Option<Roi>)

  datatype Content = Image(bytes: Bytes) | Record(sidecar: Sidecar)

  type Files = map<Path, Content>

  datatype Role = Primary | Backup | TriggerOnly

  datatype Camera = Camera(role: Role, priority: int, eligible: bool, roi: Option<Roi>,
                           crop: Option<Roi>, stale: bool, params: Trigger.Params)

  datatype RunStatus = Running | Finished | Interrupted

  datatype RunRow = RunRow(date: Date, plannedEnd: int, status: RunStatus, resumed: bool)

  datatype FrameRow = FrameRow(runId: string, cam: string, date: Date, fetched: int,
                               width: nat, height: nat, sha: string, score: Option<real>,
                               medianL: Option<real>, ok: bool, path: Path)

  datatype DayStatus = Scheduled | Capturing | Complete | Failed | Missed

  datatype DayRow = DayRow(status: DayStatus, reason: string, score: Option<real>,
                           camera: Option<string>, taken: int, best: Option<Path>,
                           thumb480: Option<Path>, thumb240: Option<Path>)

  function BlankDay(status: DayStatus, reason: string): DayRow {
    DayRow(status, reason, None, None, 0, None, None, None)
  }

  /** The settings the engine reads besides the retention period; the interval is in seconds. */
  datatype Settings = Settings(floor: real, interval: int, notifiers: seq<string>)

  /** today is the environment's local date.  images is a history variable, which nothing reads: the
      originals and published images ever written under their hash names.  The rest is on disk. */
  datatype State = State(
    today: Date,
    cameras: map<string, Camera>,
    runs: map<string, RunRow>,
    frames: set<FrameRow>,
    days: map<Date, DayRow>,
    install: Option<Date>,
    retentionDays: nat,
    retentionLast: Option<Date>,
    settings: Settings,
    files: Files,
    images: set<Bytes>)

  datatype Action =
    | WriteFile(path: Path, content: Content)
    | RemoveFile(path: Path)
    | InsertFrame(frame: FrameRow)
    | MarkMissing(frame: FrameRow)
    | DeleteFramesBefore(cutoff: Date)
    | SetCamera(id: string, camera: Camera)
    | DeleteCamera(id: string)
    | InsertRun(id: string, run: RunRow)
    | SetRunStatus(id: string, runStatus: RunStatus)
    | MarkInterrupted(now: int)
    | StartDay(date: Date)
    | CompleteDay(date: Date, row: DayRow)
    | Backfill(lo: Date, hi: Date)
    | SetRetentionLast(date: Date)
    | SetSettings(settings: Settings, retentionDays: nat)
    | Advance(date: Date)

  // ---- the effect of each action ----

  function Without(s: State, id: string): State {
    s.(cameras := s.cameras - {id},
       frames := (set r | r in s.frames && r.cam != id),
       days := (map d | d in s.days ::
         if s.days[d].camera == Some(id) then s.days[d].(camera := None) else s.days[d]))
  }

  predicate Overdue(r: RunRow, now: int) {
    r.status == Running && r.plannedEnd < now
  }

  function AfterInterrupts(runs: map<string, RunRow>, now: int): map<string, RunRow> {
    map id | id in runs :: if Overdue(runs[id], now) then runs[id].(status := Interrupted) else runs[id]
  }

  /** The upsert leaves complete, failed and missed rows alone. */
  function Started(days: map<Date, DayRow>, d: Date): map<Date, DayRow> {
    if d !in days then days[d := BlankDay(Capturing, "")]
    else if days[d].status in {Scheduled, Capturing} then days[d := days[d].(status := Capturing)]
    else days
  }

  function Backfilled(days: map<Date, DayRow>, lo: Date, hi: Date): map<Date, DayRow> {
    days + map d | lo <= d < hi && d !in days :: BlankDay(Missed, "no capture")
  }

  /** The history after one more write. */
  function Recorded(images: set<Bytes>, p: Path, x: Content): set<Bytes> {
    if (p.OrigFile? || p.BestFile?) && x.Image? then images + {x.bytes} else images
  }

  function Apply(a: Action, s: State): State {
    match a
    case WriteFile(p, x) => s.(files := s.files[p := x], images := Recorded(s.images, p, x))
    case RemoveFile(p) => s.(files := s.files - {p})
    case InsertFrame(r) => s.(frames := s.frames + {r})
    case MarkMissing(r) => s.(frames := s.frames - {r} + {r.(ok := false)})
    case DeleteFramesBefore(cut) => s.(frames := set r | r in s.frames && r.date >= cut)
    case SetCamera(id, cam) => s.(cameras := s.cameras[id := cam])
    case DeleteCamera(id) => Without(s, id)
    case InsertRun(id, r) => s.(runs := s.runs[id := r])
    case SetRunStatus(id, st) =>
      if id in s.runs then s.(runs := s.runs[id := s.runs[id].(status := st)]) else s
    case MarkInterrupted(now) => s.(runs := AfterInterrupts(s.runs, now))
    case StartDay(d) => s.(days := Started(s.days, d))
    case CompleteDay(d, row) => if d in s.days then s.(days := s.days[d := row]) else s
    case Backfill(lo, hi) => s.(days := Backfilled(s.days, lo, hi))
    case SetRetentionLast(t) => s.(retentionLast := Some(t))
    case SetSettings(settings, n) => s.(settings := settings, retentionDays := n)
    case Advance(t) => s.(today := t)
  }

  // ---- the invariant ----

  /** Rendering b with this crop gives an image of this name that has been written. */
  ghost predicate RendersTo(c: Codec, images: set<Bytes>, b: Bytes, crop: Option<Roi>, hash: string) {
    var pub := CropOrFull(c, b, crop);
    pub.Some? && pub.value in images && NameHash(c, pub.value) == hash
  }

  /** Files are named after what they hold, thumbnails after the image they were made from, and a
      sidecar tells the date and name of the image beside it, and the path and name of an original
      that exists and whose name rendered to the published name. */
  ghost predicate ContentOk(c: Codec, files: Files, images: set<Bytes>, p: Path)
    requires p in files
  {
    var x := files[p];
    match p
    case FrameFile(_, _, _, _) => x.Image?
    case OrigFile(_, h) => x.Image? && x.bytes in images && h == NameHash(c, x.bytes)
    case BestFile(_, h) => x.Image? && x.bytes in images && h == NameHash(c, x.bytes)
    case ThumbFile(_, h, w) =>
      x.Image? && exists b :: b in images && NameHash(c, b) == h && c.thumb(b, w) == Some(x.bytes)
    case JsonOf(q) =>
      && q.BestFile? && x.Record?
      && x.sidecar.hash == q.hash && x.sidecar.date == q.date
      && var o := x.sidecar.origPath;
      && o.OrigFile? && x.sidecar.origHash == o.hash && o in files && files[o].Image?
      && exists b :: b in images && NameHash(c, b) == o.hash && RendersTo(c, images, b, x.sidecar.crop, q.hash)
  }

  ghost predicate ContentsOk(c: Codec, files: Files, images: set<Bytes>) {
    forall p :: p in files ==> ContentOk(c, files, images, p)
  }

  /** A row written by the engine: its frame is on disk, unchanged since it was fetched. */
  ghost predicate RowOk(c: Codec, s: State, r: FrameRow) {
    && r.ok && r.score.Some? && r.medianL.Some?
    && r.cam in s.cameras && r.runId in s.runs && r.date <= s.today
    && r.path.FrameFile? && r.path.cam == r.cam && r.path.date == r.date
    && r.path in s.files && s.files[r.path].Image?
    && var b := s.files[r.path].bytes;
    && r.sha == c.sha(b) && (r.width, r.height) == Dims(c, b) && c.decodes(b)
  }

  ghost predicate RowsOk(c: Codec, s: State) {
    && (forall r :: r in s.frames ==> RowOk(c, s, r))
    && (forall r, q :: r in s.frames && q in s.frames && r.path == q.path ==> r == q)
  }

  /** What the gallery and a later recrop need of a published day. */
  predicate Servable(files: Files, d: Date, row: DayRow) {
    && row.best.Some? && row.best.value.BestFile? && row.best.value.date == d
    && var best := row.best.value;
    && row.thumb480 == Some(ThumbFile(d, best.hash, 480))
    && row.thumb240 == Some(ThumbFile(d, best.hash, 240))
    && best in files && row.thumb480.value in files && row.thumb240.value in files
    && JsonOf(best) in files && files[JsonOf(best)].Record?
    && files[JsonOf(best)].sidecar.origPath in files
  }

  ghost predicate DaysOk(s: State) {
    forall d :: d in s.days ==>
      && (s.days[d].status == Complete ==> Servable(s.files, d, s.days[d]))
      && (s.days[d].status == Missed ==> d < s.today)
  }

  ghost predicate Inv(c: Codec, s: State) {
    ContentsOk(c, s.files, s.images) && RowsOk(c, s) && DaysOk(s)
  }

  // ---- what the program has made sure of when it takes an action ----

  /** Files a day row serves directly. */
  function Artifacts(row: DayRow): set<Path> {
    (if row.best.Some? then {row.best.value, JsonOf(row.best.value)} else {})
    + (if row.thumb480.Some? then {row.thumb480.value} else {})
    + (if row.thumb240.Some? then {row.thumb240.value} else {})
  }

  /** x is a thumbnail of the image that is there under the same name. */
  predicate ShowsThumb(c: Codec, files: Files, p: Path, x: Content)
    requires p.ThumbFile?
  {
    var best := BestFile(p.date, p.hash);
    best in files && files[best].Image? && x.Image? && c.thumb(files[best].bytes, p.width) == Some(x.bytes)
  }

  ghost predicate Guard(c: Codec, a: Action, s: State) {
    match a
    case WriteFile(p, x) =>
      && ContentOk(c, s.files[p := x], Recorded(s.images, p, x), p)
      && (p.FrameFile? ==> p !in s.files)
      && (p.ThumbFile? ==> ShowsThumb(c, s.files, p, x))
    case RemoveFile(p) =>
      && !p.OrigFile?
      && (forall r :: r in s.frames ==> r.path != p)
      && (forall d :: d in s.days && s.days[d].status == Complete ==> p !in Artifacts(s.days[d]))
    case InsertFrame(r) =>
      RowOk(c, s, r) && r.date == s.today && forall q :: q in s.frames ==> q.path != r.path
    case MarkMissing(r) => r in s.frames && r.path !in s.files
    case InsertRun(id, r) => id !in s.runs && r.status == Running && r.date == s.today
    case StartDay(d) => d == s.today
    case CompleteDay(d, row) =>
      row.status == Failed || (row.status == Complete && Servable(s.files, d, row))
    case Backfill(lo, hi) => hi <= s.today
    case SetRetentionLast(t) =>
      t == s.today && forall r :: r in s.frames ==> r.date >= t - s.retentionDays
    case Advance(t) => t >= s.today
    case _ => true
  }

  // ---- every action keeps the invariant ----

  lemma ContentsKept(c: Codec, a: Action, s: State)
    requires Inv(c, s) && Guard(c, a, s)
    ensures ContentsOk(c, Apply(a, s).files, Apply(a, s).images)
  {
    var t := Apply(a, s);
    forall q | q in t.files ensures ContentOk(c, t.files, t.images, q) {
      if !(a.WriteFile? && q == a.path) {
        assert q in s.files && t.files[q] == s.files[q];
        assert ContentOk(c, s.files, s.images, q);
        if q.JsonOf? {
          assert ContentOk(c, s.files, s.images, t.files[q].sidecar.origPath);
        }
      }
    }
  }

  /** An original is kept: no action removes it, and one that changes its bytes makes two written
      images share a name. */
  lemma OriginalStays(c: Codec, a: Action, s: State, o: Path)
    requires Inv(c, s) && Guard(c, a, s) && o.OrigFile? && o in s.files
    ensures o in Apply(a, s).files
    ensures NoClash(c, Apply(a, s).images) ==> Apply(a, s).files[o] == s.files[o]
  {
    assert ContentOk(c, s.files, s.images, o);
  }

  /** What a sidecar says can be done again: unless two written images share a name, rendering the
      original that is there with the recorded crop gives the published name. */
  lemma SidecarRenders(c: Codec, s: State, q: Path)
    requires Inv(c, s) && JsonOf(q) in s.files
    ensures q.BestFile? && s.files[JsonOf(q)].Record?
    ensures var sc := s.files[JsonOf(q)].sidecar;
      && sc.origPath in s.files && s.files[sc.origPath].Image?
      && (NoClash(c, s.images) ==> RendersTo(c, s.images, s.files[sc.origPath].bytes, sc.crop, q.hash))
  {
    assert ContentOk(c, s.files, s.images, JsonOf(q));
    assert ContentOk(c, s.files, s.images, s.files[JsonOf(q)].sidecar.origPath);
  }

  lemma RowsKept(c: Codec, a: Action, s: State)
    requires Inv(c, s) && Guard(c, a, s)
    ensures RowsOk(c, Apply(a, s))
  {
    var t := Apply(a, s);
    forall r | r in t.frames ensures RowOk(c, t, r) {
      if a.MarkMissing? {
        assert false;
      } else {
        assert RowOk(c, s, r);
      }
    }
  }

  lemma SidecarNamesOriginal(c: Codec, files: Files, images: set<Bytes>, q: Path)
    requires ContentsOk(c, files, images) && JsonOf(q) in files
    ensures files[JsonOf(q)].Record? && files[JsonOf(q)].sidecar.origPath in files
  {
    hide RendersTo;
    assert ContentOk(c, files, images, JsonOf(q));
  }

  lemma StillServable(c: Codec, a: Action, s: State, d: Date, row: DayRow)
    requires Inv(c, s) && Guard(c, a, s)
    requires Servable(s.files, d, row)
    requires a.RemoveFile? ==> a.path !in Artifacts(row)
    ensures Servable(Apply(a, s).files, d, row)
  {
    hide Guard, Started, Backfilled, ContentsOk, RowsOk, DaysOk;
    var t, json := Apply(a, s), JsonOf(row.best.value);
    assert Artifacts(row) == {row.best.value, json, row.thumb480.value, row.thumb240.value};
    ContentsKept(c, a, s);
    SidecarNamesOriginal(c, t.files, t.images, row.best.value);
  }

  lemma DaysKept(c: Codec, a: Action, s: State)
    requires Inv(c, s) && Guard(c, a, s)
    ensures DaysOk(Apply(a, s))
  {
    hide Artifacts, ContentsOk, ContentOk, RowsOk, RowOk;
    var t := Apply(a, s);
    forall d | d in t.days && t.days[d].status == Complete
      ensures Servable(t.files, d, t.days[d])
    {
      if !(a.CompleteDay? && a.date == d) {
        StillServable(c, a, s, d, s.days[d]);
      }
    }
  }

  lemma StepKeepsInv(c: Codec, a: Action, s: State)
    requires Inv(c, s) && Guard(c, a, s)
    ensures Inv(c, Apply(a, s))
  {
    ContentsKept(c, a, s);
    RowsKept(c, a, s);
    DaysKept(c, a, s);
  }

  // ---- runs, crashes and what holds over all of them ----

  ghost predicate IsRun(c: Codec, log: seq<State>, acts: seq<Action>) {
    && |log| == |acts| + 1
    && forall i :: 0 <= i < |acts| ==> Guard(c, acts[i], log[i]) && log[i + 1] == Apply(acts[i], log[i])
  }

  lemma {:induction false} RunKeepsInv(c: Codec, log: seq<State>, acts: seq<Action>, i: nat)
    requires IsRun(c, log, acts) && Inv(c, log[0]) && i < |log|
    ensures Inv(c, log[i])
  {
    hide Inv, Guard, Apply;
    if i > 0 {
      RunKeepsInv(c, log, acts, i - 1);
      StepKeepsInv(c, acts[i - 1], log[i - 1]);
    }
  }

  /** One process lifetime: the durable states it went through until it stopped or crashed. */
  datatype Life = Life(log: seq<State>, acts: seq<Action>) {
    function Last(): State
      requires log != []
    {
      log[|log| - 1]
    }
  }

  /** A process may die after any of its actions: what it had done by then is a run too. */
  lemma CrashAnywhere(c: Codec, log: seq<State>, acts: seq<Action>, n: nat)
    requires IsRun(c, log, acts) && n <= |acts|
    ensures IsRun(c, log[..n + 1], acts[..n])
  {
    hide Guard, Apply;
  }

  /** Process lifetimes, each started on exactly what its predecessor left on disk. */
  ghost predicate Lives(c: Codec, lives: seq<Life>) {
    && (forall k :: 0 <= k < |lives| ==> IsRun(c, lives[k].log, lives[k].acts))
    && (lives != [] ==> Inv(c, lives[0].log[0]))
    && (forall k :: 0 < k < |lives| ==> lives[k].log[0] == lives[k - 1].Last())
  }

  lemma {:induction false} EveryLifeIsSafe(c: Codec, lives: seq<Life>, k: nat, i: nat)
    requires Lives(c, lives) && k < |lives| && i < |lives[k].log|
    ensures Inv(c, lives[k].log[i])
  {
    hide Inv, Guard, Apply;
    assert IsRun(c, lives[k].log, lives[k].acts);
    if k > 0 {
      EveryLifeIsSafe(c, lives, k - 1, |lives[k - 1].log| - 1);
    }
    RunKeepsInv(c, lives[k].log, lives[k].acts, i);
  }

  /** An empty data root with an empty database is a good start. */
  function FreshInstall(today: Date, install: Option<Date>, n: nat, settings: Settings): State {
    State(today, map[], map[], {}, map[], install, n, None, settings, map[], {})
  }

  lemma FreshInstallIsGood(c: Codec, today: Date, install: Option<Date>, n: nat, settings: Settings)
    ensures Inv(c, FreshInstall(today, install, n, settings))
  {
  }

  predicate Published(p: Path) {
    p.BestFile? || p.ThumbFile? || p.OrigFile?
  }

  /** Wherever and whenever a published path exists, in whichever lifetimes, it holds the same
      bytes, even if it was deleted and written again in between; if ever it does not, two
      different images that had been written by then share a name. */
  lemma PublishedBytesNeverChange(c: Codec, lives: seq<Life>, k: nat, i: nat, m: nat, j: nat, p: Path)
    requires Lives(c, lives) && Published(p)
    requires k < |lives| && i < |lives[k].log| && m < |lives| && j < |lives[m].log|
    requires p in lives[k].log[i].files && p in lives[m].log[j].files
    ensures lives[k].log[i].files[p] != lives[m].log[j].files[p] ==>
      !NoClash(c, lives[k].log[i].images + lives[m].log[j].images)
  {
    EveryLifeIsSafe(c, lives, k, i);
    EveryLifeIsSafe(c, lives, m, j);
    var s, t := lives[k].log[i], lives[m].log[j];
    SamePathSameBytes(c, s, t, p);
  }

  lemma SamePathSameBytes(c: Codec, s: State, t: State, p: Path)
    requires Inv(c, s) && Inv(c, t) && Published(p) && p in s.files && p in t.files
    ensures s.files[p] != t.files[p] ==> !NoClash(c, s.images + t.images)
  {
    hide RowsOk, DaysOk, RendersTo;
    assert ContentOk(c, s.files, s.images, p) && ContentOk(c, t.files, t.images, p);
    var all := s.images + t.images;
    if p.ThumbFile? {
      var a :| a in s.images && NameHash(c, a) == p.hash && c.thumb(a, p.width) == Some(s.files[p].bytes);
      var b :| b in t.images && NameHash(c, b) == p.hash && c.thumb(b, p.width) == Some(t.files[p].bytes);
      assert a in all && b in all;
    } else {
      assert s.files[p].bytes in all && t.files[p].bytes in all;
    }
  }

  lemma CompleteDayIsWhole(c: Codec, s: State, d: Date)
    requires Inv(c, s) && d in s.days && s.days[d].status == Complete
    ensures Servable(s.files, d, s.days[d])
    ensures var best := s.days[d].best.value;
      s.files[best].Image? && s.files[best].bytes in s.images && NameHash(c, s.files[best].bytes) == best.hash
  {
    hide RowsOk;
    assert ContentOk(c, s.files, s.images, s.days[d].best.value);
  }

  /** The history of written images only grows. */
  lemma {:induction false} ImagesStay(c: Codec, log: seq<State>, acts: seq<Action>, i: nat, j: nat)
    requires IsRun(c, log, acts) && i <= j < |log|
    ensures log[i].images <= log[j].images
  {
    hide Guard;
    if i < j {
      ImagesStay(c, log, acts, i, j - 1);
    }
  }

  lemma {:induction false} OriginalStaysInRun(c: Codec, log: seq<State>, acts: seq<Action>, i: nat, j: nat, o: Path)
    requires IsRun(c, log, acts) && Inv(c, log[0]) && i <= j < |log| && o.OrigFile? && o in log[i].files
    ensures o in log[j].files
  {
    hide Guard, Apply, Inv;
    if i < j {
      OriginalStaysInRun(c, log, acts, i, j - 1, o);
      RunKeepsInv(c, log, acts, j - 1);
      OriginalStays(c, acts[j - 1], log[j - 1], o);
    }
  }

  /** An original once written is there in every later state of every lifetime, with the same bytes
      unless two of the images written by then share a name. */
  lemma {:induction false} OriginalsStay(c: Codec, lives: seq<Life>, k: nat, i: nat, m: nat, j: nat, o: Path)
    requires Lives(c, lives) && k <= m < |lives| && i < |lives[k].log| && j < |lives[m].log|
    requires k == m ==> i <= j
    requires o.OrigFile? && o in lives[k].log[i].files
    ensures o in lives[m].log[j].files && lives[k].log[i].images <= lives[m].log[j].images
    ensures NoClash(c, lives[m].log[j].images) ==> lives[m].log[j].files[o] == lives[k].log[i].files[o]
  {
    hide Guard, Apply, Inv, NoClash;
    assert IsRun(c, lives[m].log, lives[m].acts);
    var from := if k == m then i else 0;
    if k < m {
      assert IsRun(c, lives[m - 1].log, lives[m - 1].acts);
      OriginalsStay(c, lives, k, i, m - 1, |lives[m - 1].log| - 1, o);
    }
    EveryLifeIsSafe(c, lives, m, 0);
    OriginalStaysInRun(c, lives[m].log, lives[m].acts, from, j, o);
    ImagesStay(c, lives[m].log, lives[m].acts, from, j);
    PublishedBytesNeverChange(c, lives, k, i, m, j, o);
    assert lives[k].log[i].images + lives[m].log[j].images == lives[m].log[j].images;
  }

  /** Every day that is complete in any state of any lifetime can be served there. */
  lemma CompleteDaysAreServable(c: Codec, lives: seq<Life>, k: nat, i: nat, d: Date)
    requires Lives(c, lives) && k < |lives| && i < |lives[k].log|
    requires d in lives[k].log[i].days && lives[k].log[i].days[d].status == Complete
    ensures Servable(lives[k].log[i].files, d, lives[k].log[i].days[d])
    ensures var files, best := lives[k].log[i].files, lives[k].log[i].days[d].best.value;
      && files[best].Image? && NameHash(c, files[best].bytes) == best.hash
      && var sc := files[JsonOf(best)].sidecar;
      && files[sc.origPath].Image?
      && (NoClash(c, lives[k].log[i].images) ==>
        RendersTo(c, lives[k].log[i].images, files[sc.origPath].bytes, sc.crop, best.hash))
  {
    hide RendersTo;
    EveryLifeIsSafe(c, lives, k, i);
    var s, best := lives[k].log[i], lives[k].log[i].days[d].best.value;
    CompleteDayIsWhole(c, s, d);
    SidecarRenders(c, s, best);
  }

  // ---- retention ----

  /** No row is older than the cutoff of the retention run that was last recorded. */
  ghost predicate RetentionOk(s: State) {
    s.retentionLast.Some? ==>
      && s.retentionLast.value <= s.today
      && forall r :: r in s.frames ==> r.date >= s.retentionLast.value - s.retentionDays
  }

  /** The action does not shorten the retention setting. */
  predicate KeepsRetention(a: Action, s: State) {
    a.SetSettings? ==> a.retentionDays >= s.retentionDays
  }

  lemma RetentionStep(c: Codec, a: Action, s: State)
    requires Inv(c, s) && Guard(c, a, s) && RetentionOk(s)
    ensures KeepsRetention(a, s) ==> RetentionOk(Apply(a, s))
  {
    if a.MarkMissing? {
      assert false;
    }
  }

  /** Position (n, a) comes before (m, i) in the order of lifetimes. */
  predicate Earlier(n: nat, a: nat, m: nat, i: nat) {
    n < m || (n == m && a < i)
  }

  /** The action at (n, a) shortened the retention period when the retention run that is the last
      one at (m, i) was already recorded. */
  predicate ShortenedAt(lives: seq<Life>, n: nat, a: nat, m: nat, i: nat)
    requires n < |lives| && a < |lives[n].acts| && a < |lives[n].log|
    requires m < |lives| && i < |lives[m].log|
  {
    !KeepsRetention(lives[n].acts[a], lives[n].log[a])
    && lives[n].log[a].retentionLast == lives[m].log[i].retentionLast
  }

  ghost predicate ShortenedSince(lives: seq<Life>, m: nat, i: nat)
    requires m < |lives| && i < |lives[m].log|
  {
    exists n: nat, a: nat :: Earlier(n, a, m, i) && n < |lives|
      && a < |lives[n].acts| && a < |lives[n].log| && ShortenedAt(lives, n, a, m, i)
  }

  /** Across restarts and crashes: rows past the cutoff of the retention run recorded last are left
      only if the period was shortened after it was recorded. */
  lemma {:induction false} RetentionHolds(c: Codec, lives: seq<Life>, m: nat, i: nat)
    requires m < |lives| && i < |lives[m].log| && Lives(c, lives) && RetentionOk(lives[0].log[0])
    ensures RetentionOk(lives[m].log[i]) || ShortenedSince(lives, m, i)
    decreases m, i
  {
    hide Guard, Apply, KeepsRetention, RetentionOk, Inv;
    assert IsRun(c, lives[m].log, lives[m].acts);
    if i > 0 {
      RetentionHolds(c, lives, m, i - 1);
      EveryLifeIsSafe(c, lives, m, i - 1);
      RetentionAfter(c, lives, m, i - 1);
    } else if m > 0 {
      assert IsRun(c, lives[m - 1].log, lives[m - 1].acts);
      var last := |lives[m - 1].log| - 1;
      RetentionHolds(c, lives, m - 1, last);
      if ShortenedSince(lives, m - 1, last) {
        var n: nat, a: nat :| Earlier(n, a, m - 1, last) && n < |lives|
          && a < |lives[n].acts| && a < |lives[n].log| && ShortenedAt(lives, n, a, m - 1, last);
        assert Earlier(n, a, m, 0) && ShortenedAt(lives, n, a, m, 0);
      }
    }
  }

  lemma RetentionAfter(c: Codec, lives: seq<Life>, m: nat, i: nat)
    requires m < |lives| && i < |lives[m].acts| && i < |lives[m].log| && Lives(c, lives)
    requires Inv(c, lives[m].log[i])
    requires RetentionOk(lives[m].log[i]) || ShortenedSince(lives, m, i)
    ensures i + 1 < |lives[m].log|
    ensures RetentionOk(lives[m].log[i + 1]) || ShortenedSince(lives, m, i + 1)
  {
    hide Inv;
    assert IsRun(c, lives[m].log, lives[m].acts);
    var s, a := lives[m].log[i], lives[m].acts[i];
    if RetentionOk(s) {
      RetentionStep(c, a, s);
      assert !KeepsRetention(a, s) ==> Earlier(m, i, m, i + 1) && ShortenedAt(lives, m, i, m, i + 1);
    } else if !a.SetRetentionLast? {
      var n: nat, b: nat :| Earlier(n, b, m, i) && n < |lives|
        && b < |lives[n].acts| && b < |lives[n].log| && ShortenedAt(lives, n, b, m, i);
      assert Earlier(n, b, m, i + 1) && ShortenedAt(lives, n, b, m, i + 1);
    }
  }

  /** The lifetimes that led to s, the first of them from a state in which retention held. */
  ghost predicate Past(c: Codec, lives: seq<Life>, s: State) {
    && lives != [] && Lives(c, lives) && lives[0].log != [] && RetentionOk(lives[0].log[0])
    && lives[|lives| - 1].log != [] && lives[|lives| - 1].Last() == s
  }

  /** The period was shortened since the retention run that was recorded last. */
  ghost predicate ShortenedInPast(lives: seq<Life>)
    requires lives != [] && lives[|lives| - 1].log != []
  {
    ShortenedSince(lives, |lives| - 1, |lives[|lives| - 1].log| - 1)
  }

  /** Whatever lifetimes led to s, if retention held at first then the period was shortened since the
      retention run that was recorded last. */
  ghost predicate WasShortened(c: Codec, s: State) {
    forall lives :: Past(c, lives, s) ==> ShortenedInPast(lives)
  }

  /** Rows past the cutoff of the recorded retention run are there for no other reason. */
  lemma PastCutoffMeansShortened(c: Codec, s: State)
    requires !RetentionOk(s)
    ensures WasShortened(c, s)
  {
    hide Lives, ShortenedSince, RetentionOk;
    forall lives: seq<Life> | Past(c, lives, s) ensures ShortenedInPast(lives) {
      var m := |lives| - 1;
      RetentionHolds(c, lives, m, |lives[m].log| - 1);
    }
  }

  // ---- finished days ----

  predicate IsFinished(row: DayRow) {
    row.status in {Complete, Failed, Missed}
  }

  /** The action overwrites no finished day, except that a recrop may re-render a complete one. */
  predicate KeepsFinished(a: Action, s: State) {
    a.CompleteDay? && a.date in s.days ==>
      || s.days[a.date].status == Capturing
      || (s.days[a.date].status == Complete && a.row.status == Complete)
  }

  ghost predicate StillFinished(s: State, t: State) {
    forall d :: d in s.days && IsFinished(s.days[d]) ==>
      d in t.days && t.days[d].status == s.days[d].status
  }

  lemma FinishedStep(a: Action, s: State)
    requires KeepsFinished(a, s)
    ensures StillFinished(s, Apply(a, s))
  {
  }

  lemma StillFinishedIsReflexive(s: State)
    ensures StillFinished(s, s)
  {
  }

  lemma StillFinishedIsTransitive(s: State, t: State, u: State)
    requires StillFinished(s, t) && StillFinished(t, u)
    ensures StillFinished(s, u)
  {
  }

  lemma {:induction false} FinishedDaysStay(c: Codec, log: seq<State>, acts: seq<Action>, i: nat, j: nat)
    requires IsRun(c, log, acts) && i <= j < |log|
    requires forall k :: 0 <= k < |acts| ==> KeepsFinished(acts[k], log[k])
    ensures StillFinished(log[i], log[j])
  {
    hide Guard, Apply, KeepsFinished, StillFinished;
    if i == j {
      StillFinishedIsReflexive(log[i]);
    } else {
      FinishedDaysStay(c, log, acts, i, j - 1);
      FinishedStep(acts[j - 1], log[j - 1]);
      StillFinishedIsTransitive(log[i], log[j - 1], log[j]);
    }
  }

  /** Complete, failed and missed absorb, across restarts and crashes: a day finished in state i
      of lifetime k has the same status in every later state. */
  lemma {:induction false} FinishedDaysStayFinished(c: Codec, lives: seq<Life>, k: nat, i: nat, m: nat, j: nat)
    requires Lives(c, lives) && k <= m < |lives| && i < |lives[k].log| && j < |lives[m].log|
    requires k == m ==> i <= j
    requires forall n :: k <= n <= m ==>
      forall a :: 0 <= a < |lives[n].acts| ==> KeepsFinished(lives[n].acts[a], lives[n].log[a])
    ensures StillFinished(lives[k].log[i], lives[m].log[j])
  {
    hide Guard, Apply, KeepsFinished, StillFinished, Inv;
    assert IsRun(c, lives[m].log, lives[m].acts);
    if k == m {
      FinishedDaysStay(c, lives[m].log, lives[m].acts, i, j);
    } else {
      assert IsRun(c, lives[m - 1].log, lives[m - 1].acts);
      FinishedDaysStayFinished(c, lives, k, i, m - 1, |lives[m - 1].log| - 1);
      FinishedDaysStay(c, lives[m].log, lives[m].acts, 0, j);
      StillFinishedIsTransitive(lives[k].log[i], lives[m].log[0], lives[m].log[j]);
    }
  }
}
