/** The engine process: every procedure is a sequence of durable actions, any of which may fail
    and after any of which the process may die. */
module Engine {
  import opened Wrappers
  import opened Score
  import opened Durable
  import opened Publication
  import opened Changes
  import opened Window
  import opened History
  import Trigger
  import Alerts

  /** The solar inputs of a date: the capture window and the archive cutoff, in milliseconds. */
  datatype Sky = Sky(start: int, end: int, cutoff: int)

  datatype Outcome = Done | Error | Panicked

  /** A moment in the life of a process and its alerts. */
  datatype Mark = Mark(log: seq<State>, faults: nat, rejected: nat, tame: bool,
                       alertLog: seq<Alerts.Book>, alertActs: seq<Alerts.Action>, alertFaults: nat)
  {
    /** Histories only grow, no frame insert was refused and no finished day overwritten. */
    ghost predicate Leads(m: Mark) {
      && log <= m.log && faults <= m.faults && rejected == m.rejected && tame == m.tame
      && alertLog <= m.alertLog && alertActs <= m.alertActs && alertFaults <= m.alertFaults
    }
  }

  /** An admin step and the wake-up after it: the states they leave, and between them the state
      after retention. */
  datatype Lap = Lap(edited: State, mid: State, last: State, result: Ticked)

  class Process {
    const codec: Codec
    const sky: Date -> Option<Sky>
    const alerts: Alerts.AlertStore

    var today: Date
    var cameras: map<string, Camera>
    var runs: map<string, RunRow>
    var frames: set<FrameRow>
    var days: map<Date, DayRow>
    var install: Option<Date>
    var retentionDays: nat
    var retentionLast: Option<Date>
    var settings: Settings
    var files: Files

    ghost var images: set<Bytes>
    ghost var log: seq<State>
    ghost var acts: seq<Action>
    /** Writes that failed. */
    ghost var faults: nat
    /** Frame rows the database refused because of a constraint. */
    ghost var rejected: nat
    /** No action so far has overwritten a finished day. */
    ghost var tame: bool

    ghost function Now(): State
      reads this
    {
      State(today, cameras, runs, frames, days, install, retentionDays, retentionLast, settings, files, images)
    }

    /** What the program can see of the state: everything but the history. */
    function Seen(): State
      reads this
    {
      State(today, cameras, runs, frames, days, install, retentionDays, retentionLast, settings, files, {})
    }

    /** The history is a run from a good state to the present one. */
    ghost predicate Valid()
      reads this
    {
      && IsRun(codec, log, acts) && Inv(codec, log[0]) && log[|log| - 1] == Now()
      && (tame ==> forall i :: 0 <= i < |acts| ==> KeepsFinished(acts[i], log[i]))
    }

    twostate predicate Grown()
      reads this
    {
      && old(log) <= log
      && old(faults) <= faults && old(rejected) <= rejected && (tame ==> old(tame))
    }

    /** One write was tried: a failure changes nothing durable. */
    twostate predicate Tried(ok: bool)
      reads this
    {
      && Valid() && Grown() && rejected == old(rejected)
      && faults == old(faults) + (if ok then 0 else 1)
      && (!ok ==> Now() == old(Now()) && tame == old(tame))
    }

    /** A process start on whatever is on disk. */
    constructor (codec: Codec, sky: Date -> Option<Sky>, alerts: Alerts.AlertStore, found: State)
      requires Inv(codec, found)
      ensures Valid() && Now() == found && faults == 0 && rejected == 0 && tame
      ensures log == [found] && acts == []
      ensures this.codec == codec && this.sky == sky && this.alerts == alerts
    {
      this.codec, this.sky, this.alerts := codec, sky, alerts;
      today, cameras, runs, frames := found.today, found.cameras, found.runs, found.frames;
      days, install, retentionDays := found.days, found.install, found.retentionDays;
      retentionLast, settings := found.retentionLast, found.settings;
      files, images := found.files, found.images;
      log, acts, faults, rejected, tame := [found], [], 0, 0, true;
    }

    lemma GoodNow()
      requires Valid()
      ensures Inv(codec, Now())
    {
      RunKeepsInv(codec, log, acts, |log| - 1);
    }

    // ---- single actions ----

    ghost method Log(a: Action)
      requires IsRun(codec, log, acts) && Inv(codec, log[0])
      requires tame ==> forall i :: 0 <= i < |acts| ==> KeepsFinished(acts[i], log[i])
      requires Guard(codec, a, log[|log| - 1]) && Now() == Apply(a, log[|log| - 1])
      modifies this`log, this`acts, this`tame
      ensures Valid() && Grown()
      ensures KeepsFinished(a, old(log[|log| - 1])) ==> tame == old(tame)
    {
      hide Inv, Guard, Apply, KeepsFinished;
      tame := tame && KeepsFinished(a, log[|log| - 1]);
      log, acts := log + [Now()], acts + [a];
    }

    method WriteAtomic(p: Path, x: Content) returns (ok: bool)
      requires Valid() && Guard(codec, WriteFile(p, x), Now())
      modifies this
      ensures Tried(ok) && tame == old(tame)
      ensures ok ==> Now() == old(Now()).(
        files := old(files)[p := x], images := Recorded(old(images), p, x))
    {
      hide IsRun, Inv;
      ok := *;
      if !ok {
        faults := faults + 1;
        return;
      }
      files, images := files[p := x], Recorded(images, p, x);
      Log(WriteFile(p, x));
    }

    method Remove(p: Path) returns (ok: bool)
      requires Valid() && !p.OrigFile?
      requires forall r :: r in frames ==> r.path != p
      requires forall d :: d in days && days[d].status == Complete ==> p !in Artifacts(days[d])
      modifies this
      ensures Tried(ok) && tame == old(tame)
      ensures ok ==> Now() == old(Now()).(files := old(files) - {p})
    {
      hide IsRun, Inv;
      ok := *;
      if !ok {
        faults := faults + 1;
        return;
      }
      files := files - {p};
      Log(RemoveFile(p));
    }

    method CompleteDay(date: Date, row: DayRow) returns (ok: bool)
      requires Valid()
      requires row.status == Failed || (row.status == Complete && Servable(files, date, row))
      modifies this
      ensures Tried(ok)
      ensures ok ==> Now() == old(Now()).(
        days := if date in old(days) then old(days)[date := row] else old(days))
      ensures InProgress(old(days), date) ==> tame == old(tame)
      ensures MayPublish(old(days), date) && row.status == Complete ==> tame == old(tame)
    {
      hide IsRun, Inv;
      ok := *;
      if !ok {
        faults := faults + 1;
        return;
      }
      if date in days {
        days := days[date := row];
      }
      Log(Action.CompleteDay(date, row));
    }

    method InsertRun(id: string, run: RunRow) returns (ok: bool)
      requires Valid() && id !in runs && run.status == Running && run.date == today
      modifies this
      ensures Tried(ok) && tame == old(tame)
      ensures ok ==> Now() == old(Now()).(runs := old(runs)[id := run])
    {
      hide IsRun, Inv;
      ok := *;
      if !ok {
        faults := faults + 1;
        return;
      }
      runs := runs[id := run];
      Log(Action.InsertRun(id, run));
    }

    method SetRunStatus(id: string, status: RunStatus) returns (ok: bool)
      requires Valid()
      modifies this
      ensures Tried(ok) && tame == old(tame)
      ensures ok ==> Now() == old(Now()).(runs :=
        if id in old(runs) then old(runs)[id := old(runs[id]).(status := status)] else old(runs))
    {
      hide IsRun, Inv;
      ok := *;
      if !ok {
        faults := faults + 1;
        return;
      }
      if id in runs {
        runs := runs[id := runs[id].(status := status)];
      }
      Log(Action.SetRunStatus(id, status));
    }

    method MarkInterruptedRuns(now: int) returns (ok: bool)
      requires Valid()
      modifies this
      ensures Tried(ok) && tame == old(tame)
      ensures ok ==> Now() == old(Now()).(runs := AfterInterrupts(old(runs), now))
      ensures ok ==> runs.Keys == old(runs.Keys) && forall id :: id in runs ==>
        runs[id] == if old(runs)[id].status == Running && old(runs)[id].plannedEnd < now
                    then old(runs)[id].(status := Interrupted) else old(runs)[id]
    {
      hide IsRun, Inv;
      ok := *;
      if !ok {
        faults := faults + 1;
        return;
      }
      runs := AfterInterrupts(runs, now);
      Log(MarkInterrupted(now));
    }

    method UpsertDayStart(date: Date) returns (ok: bool)
      requires Valid() && date == today
      modifies this
      ensures Tried(ok) && tame == old(tame)
      ensures ok ==> Now() == old(Now()).(days := Started(old(days), date))
      ensures ok && date !in old(days) ==>
        date in days && days[date] == DayRow(Capturing, "", None, None, 0, None, None, None)
      ensures ok && date in old(days) ==>
        && date in days
        && days[date] == if old(days)[date].status == Scheduled
                         then old(days)[date].(status := Capturing) else old(days)[date]
      ensures days.Keys <= old(days.Keys) + {date} && forall d :: d in days && d != date ==> days[d] == old(days)[d]
    {
      hide IsRun, Inv;
      ok := *;
      if !ok {
        faults := faults + 1;
        return;
      }
      days := Started(days, date);
      Log(StartDay(date));
    }

    method BackfillMissedDays(lo: Date, hi: Date) returns (ok: bool)
      requires Valid() && hi <= today
      modifies this
      ensures Tried(ok) && tame == old(tame)
      ensures ok ==> Now() == old(Now()).(days := Backfilled(old(days), lo, hi))
    {
      hide IsRun, Inv;
      ok := *;
      if !ok {
        faults := faults + 1;
        return;
      }
      days := Backfilled(days, lo, hi);
      Log(Backfill(lo, hi));
    }

    method DeleteFramesBefore(cutoff: Date) returns (ok: bool)
      requires Valid()
      modifies this
      ensures Tried(ok) && tame == old(tame)
      ensures ok ==> Now() == old(Now()).(frames := set r | r in old(frames) && r.date >= cutoff)
    {
      hide IsRun, Inv;
      ok := *;
      if !ok {
        faults := faults + 1;
        return;
      }
      frames := set r | r in frames && r.date >= cutoff;
      Log(Action.DeleteFramesBefore(cutoff));
    }

    method SetRetentionLast(date: Date) returns (ok: bool)
      requires Valid() && date == today
      requires forall r :: r in frames ==> r.date >= date - retentionDays
      modifies this
      ensures Tried(ok) && tame == old(tame)
      ensures ok ==> Now() == old(Now()).(retentionLast := Some(date))
    {
      hide IsRun, Inv;
      ok := *;
      if !ok {
        faults := faults + 1;
        return;
      }
      retentionLast := Some(date);
      Log(Action.SetRetentionLast(date));
    }

    method MarkFrameMissing(r: FrameRow) returns (ok: bool)
      requires Valid() && r in frames && r.path !in files
      modifies this
      ensures Tried(ok) && tame == old(tame)
      ensures ok ==> Now() == old(Now()).(frames := old(frames) - {r} + {r.(ok := false)})
    {
      hide IsRun, Inv;
      ok := *;
      if !ok {
        faults := faults + 1;
        return;
      }
      frames := frames - {r} + {r.(ok := false)};
      Log(MarkMissing(r));
    }

    /** Frames, day references and the camera itself go in one transaction. */
    method DeleteCameraCascade(id: string) returns (ok: bool)
      requires Valid()
      modifies this
      ensures Tried(ok) && tame == old(tame)
      ensures ok ==> Now() == Without(old(Now()), id)
    {
      hide IsRun, Inv;
      ok := *;
      if !ok {
        faults := faults + 1;
        return;
      }
      var left := Without(Seen(), id);
      frames, days, cameras := left.frames, left.days, left.cameras;
      Log(DeleteCamera(id));
    }

    /** The row describes a frame that is on disk as fetched. */
    ghost predicate Describes(r: FrameRow)
      reads this
    {
      && r.ok && r.score.Some? && r.medianL.Some? && r.date == today
      && r.path.FrameFile? && r.path.cam == r.cam && r.path.date == r.date
      && r.path in files && files[r.path].Image?
      && var b := files[r.path].bytes;
      && r.sha == codec.sha(b) && (r.width, r.height) == Dims(codec, b) && codec.decodes(b)
    }

    /** The foreign keys and the unique path. */
    predicate Admissible(r: FrameRow)
      reads this
    {
      r.runId in runs && r.cam in cameras && forall q :: q in frames ==> q.path != r.path
    }

    /** A refused insert is counted; the caller, like the engine, ignores the error. */
    method InsertFrame(r: FrameRow) returns (ok: bool)
      requires Valid() && Describes(r)
      modifies this
      ensures Valid() && Grown() && tame == old(tame)
      ensures ok ==> Now() == old(Now()).(frames := old(frames) + {r})
      ensures !ok ==> Now() == old(Now())
      ensures old(Admissible(r)) ==> Tried(ok)
      ensures !old(Admissible(r)) ==> !ok && rejected == old(rejected) + 1 && faults == old(faults)
    {
      if r.runId !in runs || r.cam !in cameras || exists q :: q in frames && q.path == r.path {
        rejected := rejected + 1;
        return false;
      }
      hide IsRun, Inv;
      ok := *;
      if !ok {
        faults := faults + 1;
        return;
      }
      frames := frames + {r};
      Log(Action.InsertFrame(r));
    }

    // ---- what an admin saves ----

    method SaveCamera(id: string, camera: Camera) returns (ok: bool)
      requires Valid()
      modifies this
      ensures Tried(ok) && tame == old(tame)
      ensures ok ==> Now() == old(Now()).(cameras := old(cameras)[id := camera])
    {
      hide IsRun, Inv;
      ok := *;
      if !ok {
        faults := faults + 1;
        return;
      }
      cameras := cameras[id := camera];
      Log(SetCamera(id, camera));
    }

    method WriteSettings(next: Settings, n: nat) returns (ok: bool)
      requires Valid()
      modifies this
      ensures Tried(ok) && tame == old(tame)
      ensures ok ==> Now() == old(Now()).(settings := next, retentionDays := n)
    {
      hide IsRun, Inv;
      ok := *;
      if !ok {
        faults := faults + 1;
        return;
      }
      settings, retentionDays := next, n;
      Log(SetSettings(next, n));
    }

    // ---- finalization ----

    /** A row's frame is on disk under its path, with the bytes and size the row records. */
    lemma FrameIsIntact(f: FrameRow)
      requires Valid() && f in frames
      ensures f.path in files && files[f.path].Image?
      ensures f.sha == codec.sha(files[f.path].bytes)
      ensures (f.width, f.height) == Dims(codec, files[f.path].bytes)
    {
      GoodNow();
      assert RowOk(codec, Now(), f);
    }

    /** The rules of finalizing a date. */
    function RulesFor(s: State, date: Date): Rules
      requires sky(date).Some?
    {
      Rules(date, s.settings.floor, sky(date).value.cutoff)
    }

    /** date shows frame f of camera cam: the row, the image, the original and the sidecar. */
    ghost predicate Shows(s: State, t: State, date: Date, cam: string, f: FrameRow) {
      && cam in s.cameras && f.path in s.files && s.files[f.path].Image? && f.score.Some?
      && var jpeg, crop := s.files[f.path].bytes, s.cameras[cam].crop;
      && Rendition(codec, jpeg, crop).Some?
      && var pub := Rendition(codec, jpeg, crop).value;
      var hash, origHash := NameHash(codec, pub), NameHash(codec, jpeg);
      var best, t480, t240 := BestFile(date, hash), ThumbFile(date, hash, 480), ThumbFile(date, hash, 240);
      var orig := OrigFile(date, origHash);
      && (date !in t.days
        || t.days[date] == DayRow(Complete, "", f.score, Some(cam), f.fetched, Some(best), Some(t480), Some(t240)))
      && {best, t480, t240, orig, JsonOf(best)} <= t.files.Keys
      && t.files[best] == Image(pub) && t.files[orig] == Image(jpeg)
      && codec.thumb(pub, 480).Some? && t.files[t480] == Image(codec.thumb(pub, 480).value)
      && codec.thumb(pub, 240).Some? && t.files[t240] == Image(codec.thumb(pub, 240).value)
      && t.files[JsonOf(best)] == Record(Sidecar(date, f.score.value, cam, f.fetched, hash, origHash, orig,
        if crop.Some? && PixelRect(crop.value, codec.bounds(jpeg)).Some? then crop else None))
    }

    // What each kind of write has to make sure of.

    lemma ImageMayBeWritten(p: Path, b: Bytes)
      requires (p.OrigFile? || p.BestFile?) && p.hash == NameHash(codec, b)
      ensures Guard(codec, WriteFile(p, Image(b)), Now())
    {
    }

    /** An image file holds a written image of its name. */
    lemma ImageIsWritten(p: Path)
      requires Valid() && (p.OrigFile? || p.BestFile?) && p in files
      ensures files[p].Image? && files[p].bytes in images && NameHash(codec, files[p].bytes) == p.hash
    {
      GoodNow();
      assert ContentOk(codec, files, images, p);
    }

    lemma ThumbMayBeWritten(p: Path, b: Bytes, pub: Bytes)
      requires Valid() && p.ThumbFile? && codec.thumb(pub, p.width) == Some(b)
      requires BestFile(p.date, p.hash) in files && files[BestFile(p.date, p.hash)] == Image(pub)
      ensures Guard(codec, WriteFile(p, Image(b)), Now())
    {
      ImageIsWritten(BestFile(p.date, p.hash));
      hide Valid;
    }

    lemma SidecarMayBeWritten(q: Path, sc: Sidecar, pub: Bytes)
      requires Valid() && q.BestFile? && q in files && files[q] == Image(pub)
      requires sc.origPath.OrigFile? && sc.origPath in files && files[sc.origPath].Image?
      requires sc.hash == q.hash && sc.date == q.date && sc.origHash == sc.origPath.hash
      requires CropOrFull(codec, files[sc.origPath].bytes, sc.crop) == Some(pub)
      ensures Guard(codec, WriteFile(JsonOf(q), Record(sc)), Now())
    {
      ImageIsWritten(q);
      ImageIsWritten(sc.origPath);
      hide Valid, CropOrFull;
      assert RendersTo(codec, images, files[sc.origPath].bytes, sc.crop, q.hash);
    }

    /** Writes both thumbnails of an image that is there. */
    method WriteThumbs(date: Date, hash: string, t480: Bytes, t240: Bytes, ghost pub: Bytes)
      returns (ok: bool)
      requires Valid() && hash == NameHash(codec, pub)
      requires BestFile(date, hash) in files && files[BestFile(date, hash)] == Image(pub)
      requires codec.thumb(pub, 480) == Some(t480) && codec.thumb(pub, 240) == Some(t240)
      modifies this
      ensures Valid() && Grown() && rejected == old(rejected) && tame == old(tame)
      ensures Now() == old(Now()).(files := files)
      ensures var ps := {ThumbFile(date, hash, 480), ThumbFile(date, hash, 240)};
        OnlyWrote(old(files), files, ps) && (ok ==> ps <= files.Keys)
      ensures ok ==>
        && files[ThumbFile(date, hash, 480)] == Image(t480)
        && files[ThumbFile(date, hash, 240)] == Image(t240)
      ensures !ok ==> faults > old(faults)
      ensures ok ==> faults == old(faults)
    {
      hide Valid, IsRun, Inv, Guard, Apply;
      ThumbMayBeWritten(ThumbFile(date, hash, 480), t480, pub);
      ok := WriteAtomic(ThumbFile(date, hash, 480), Image(t480));
      if ok {
        ThumbMayBeWritten(ThumbFile(date, hash, 240), t240, pub);
        ok := WriteAtomic(ThumbFile(date, hash, 240), Image(t240));
      }
    }

    /** Writes the sidecar, then switches the day row to the published files. */
    method WriteSidecarAndRow(date: Date, pub: Bytes, sc: Sidecar, row: DayRow) returns (ok: bool)
      requires Valid()
      requires sc.hash == NameHash(codec, pub) && sc.date == date
      requires row == CompleteRow(date, row.score, sc.camera, row.taken, sc.hash)
      requires Artifacts(row) - {JsonOf(BestFile(date, sc.hash))} <= files.Keys
      requires files[BestFile(date, sc.hash)] == Image(pub)
      requires sc.origPath.OrigFile? && sc.origPath in files && files[sc.origPath].Image?
      requires sc.origHash == sc.origPath.hash
      requires CropOrFull(codec, files[sc.origPath].bytes, sc.crop) == Some(pub)
      modifies this
      ensures Valid() && Grown() && rejected == old(rejected)
      ensures var json := JsonOf(BestFile(date, sc.hash));
        && OnlyWrote(old(files), files, {json})
        && (ok ==> json in files && files[json] == Record(sc))
      ensures Now() == old(Now()).(files := files, days := days)
      ensures days == if ok && date in old(days) then old(days)[date := row] else old(days)
      ensures !ok ==> faults > old(faults)
      ensures ok ==> faults == old(faults)
      ensures MayPublish(old(days), date) ==> tame == old(tame)
    {
      hide Valid, IsRun, Inv, Guard, Apply;
      SidecarMayBeWritten(BestFile(date, sc.hash), sc, pub);
      ok := WriteAtomic(JsonOf(BestFile(date, sc.hash)), Record(sc));
      if ok {
        ok := CompleteDay(date, row);
      }
    }

    /** Writes the original, then renders the frame and writes the image. */
    method WriteOriginalAndImage(date: Date, f: FrameRow, jpeg: Bytes, crop: Option<Roi>)
      returns (pub: Option<Bytes>)
      requires Valid() && f in frames && f.path in files && files[f.path] == Image(jpeg)
      modifies this
      ensures Valid() && Grown() && rejected == old(rejected) && tame == old(tame)
      ensures Now() == old(Now()).(files := files, images := images)
      ensures ShortHash(f.sha) == NameHash(codec, jpeg)
      ensures pub.Some? ==> faults == old(faults) && pub == CropOrFull(codec, jpeg, crop)
      ensures faults == old(faults) ==> pub == CropOrFull(codec, jpeg, crop)
      ensures OnlyWrote(old(files), files,
        ImagePaths(date, OrigFile(date, ShortHash(f.sha)), CropOrFull(codec, jpeg, crop)))
      ensures pub.Some? ==>
        var orig, best := OrigFile(date, ShortHash(f.sha)), BestFile(date, NameHash(codec, pub.value));
        orig in files && files[orig] == Image(jpeg) && best in files && files[best] == Image(pub.value)
    {
      hide Valid, IsRun, Inv, Guard, Apply, CropOrFull, OnlyWrote;
      FrameIsIntact(f);
      ghost var f0 := files;
      var orig := OrigFile(date, ShortHash(f.sha));
      ghost var ps := ImagePaths(date, orig, CropOrFull(codec, jpeg, crop));
      ImageMayBeWritten(orig, jpeg);
      var ok := WriteAtomic(orig, Image(jpeg));
      OnlyWroteOne(f0, orig, Image(jpeg), ok);
      OnlyWroteMore(f0, files, {orig}, ps);
      pub := CropOrFull(codec, jpeg, crop);
      if !ok || pub.None? {
        return None;
      }
      var best := BestFile(date, NameHash(codec, pub.value));
      ghost var f1 := files;
      ImageMayBeWritten(best, pub.value);
      ok := WriteAtomic(best, Image(pub.value));
      OnlyWroteOne(f1, best, Image(pub.value), ok);
      OnlyWroteMore(f1, files, {best}, ps);
      OnlyWroteBoth(f0, f1, files, ps, ps);
      assert ps + ps == ps;
      if !ok {
        return None;
      }
    }

    /** Writes the original, the image and the thumbnails, in that order. */
    method WriteImages(date: Date, f: FrameRow, jpeg: Bytes, crop: Option<Roi>)
      returns (pub: Option<Bytes>)
      requires Valid() && f in frames && f.path in files && files[f.path] == Image(jpeg)
      modifies this
      ensures Valid() && Grown() && rejected == old(rejected) && tame == old(tame)
      ensures Now() == old(Now()).(files := files, images := images)
      ensures ShortHash(f.sha) == NameHash(codec, jpeg)
      ensures pub.Some? ==> faults == old(faults) && pub == CropOrFull(codec, jpeg, crop)
      ensures faults == old(faults) ==> (pub.Some? <==> HasThumbs(CropOrFull(codec, jpeg, crop)))
      ensures OnlyWrote(old(files), files,
        ImagePaths(date, OrigFile(date, ShortHash(f.sha)), CropOrFull(codec, jpeg, crop)))
      ensures pub.Some? ==>
        var orig, best := OrigFile(date, ShortHash(f.sha)), BestFile(date, NameHash(codec, pub.value));
        && HasThumbs(pub) && ImagePaths(date, orig, pub) <= files.Keys
        && files[orig] == Image(jpeg) && files[best] == Image(pub.value)
        && files[ThumbFile(date, best.hash, 480)] == Image(codec.thumb(pub.value, 480).value)
        && files[ThumbFile(date, best.hash, 240)] == Image(codec.thumb(pub.value, 240).value)
    {
      hide Valid, IsRun, Inv, Guard, Apply, CropOrFull, OnlyWrote;
      ghost var f0 := files;
      pub := WriteOriginalAndImage(date, f, jpeg, crop);
      if pub.None? {
        return None;
      }
      var hash := NameHash(codec, pub.value);
      ghost var orig, best := OrigFile(date, ShortHash(f.sha)), BestFile(date, hash);
      ghost var ps, ts := ImagePaths(date, orig, pub), {ThumbFile(date, hash, 480), ThumbFile(date, hash, 240)};
      var t480, t240 := codec.thumb(pub.value, 480), codec.thumb(pub.value, 240);
      if t480.None? || t240.None? {
        return None;
      }
      ghost var f2 := files;
      var ok := WriteThumbs(date, hash, t480.value, t240.value, pub.value);
      OnlyWroteMore(f2, files, ts, ps);
      OnlyWroteBoth(f0, f2, files, ps, ps);
      assert ps + ps == ps;
      if !ok {
        return None;
      }
      WroteElsewhere(f2, files, ts, {orig, best});
    }

    predicate HasThumbs(pub: Option<Bytes>) {
      pub.Some? && codec.thumb(pub.value, 480).Some? && codec.thumb(pub.value, 240).Some?
    }

    function ImagePaths(date: Date, orig: Path, pub: Option<Bytes>): set<Path> {
      if pub.None? then {orig}
      else
        var hash := NameHash(codec, pub.value);
        {orig, BestFile(date, hash), ThumbFile(date, hash, 480), ThumbFile(date, hash, 240)}
    }

    /** The files publishing this frame may write. */
    function Outputs(s: State, date: Date, cam: string, f: FrameRow): set<Path>
      requires cam in s.cameras && OnDisk(s.files, f)
    {
      var jpeg := s.files[f.path].bytes;
      var pub := CropOrFull(codec, jpeg, CameraCrop(s.cameras[cam].crop, f.width, f.height));
      ImagePaths(date, OrigFile(date, ShortHash(f.sha)), pub)
        + if pub.None? then {} else {JsonOf(BestFile(date, NameHash(codec, pub.value)))}
    }

    /** The checked crop and the rendering are those of Rendition. */
    lemma FrameIsPublishedAs(s: State, cam: string, f: FrameRow)
      requires cam in s.cameras && OnDisk(s.files, f) && (f.width, f.height) == Dims(codec, s.files[f.path].bytes)
      ensures var jpeg, crop := s.files[f.path].bytes, s.cameras[cam].crop;
        var roi := CameraCrop(crop, f.width, f.height);
        && CropOrFull(codec, jpeg, roi) == Rendition(codec, jpeg, crop)
        && (roi == if crop.Some? && PixelRect(crop.value, codec.bounds(jpeg)).Some? then crop else None)
        && (Renders(codec, s.files, crop, f) <==> f.score.Some? && HasThumbs(Rendition(codec, jpeg, crop)))
    {
      hide CropOrFull, CameraCrop, Rendition, PixelRect;
      RenderingIsRendition(codec, s.files[f.path].bytes, s.cameras[cam].crop);
    }

    lemma OutputsAreOfDay(s: State, date: Date, cam: string, f: FrameRow)
      requires cam in s.cameras && OnDisk(s.files, f)
      ensures forall p :: p in Outputs(s, date, cam, f) ==> DayOf(p) == Some(date)
    {
      hide CropOrFull, CameraCrop, NameHash;
    }

    /** Publishes one frame: the images first, then the sidecar, and only then the row. */
    method PublishFrame(date: Date, cam: string, f: FrameRow, jpeg: Bytes) returns (r: Outcome)
      requires Valid() && cam in cameras && f in frames
      requires f.path in files && files[f.path] == Image(jpeg)
      modifies this
      ensures Valid() && Grown() && rejected == old(rejected)
      ensures OnlyDay(old(Now()), Now(), date)
      ensures OnlyWrote(old(files), files, Outputs(old(Now()), date, cam, f))
      ensures r == Done ==> Shows(old(Now()), Now(), date, cam, f)
      ensures r != Done ==> days == old(days)
      ensures r == Panicked ==> f.score.None?
      ensures faults == old(faults) ==>
        (r == Done <==> Renders(codec, old(files), cameras[cam].crop, f))
      ensures MayPublish(old(days), date) ==> tame == old(tame)
    {
      hide Valid, IsRun, Inv, Guard, Apply, CropOrFull, CameraCrop, OnlyDay, OnlyWrote, Rendition, Dims;
      FrameIsIntact(f);
      ghost var s0 := Now();
      var crop := CameraCrop(cameras[cam].crop, f.width, f.height);
      var pub := WriteImages(date, f, jpeg, crop);
      ghost var s1 := Now();
      ghost var ps := ImagePaths(date, OrigFile(date, ShortHash(f.sha)), CropOrFull(codec, jpeg, crop));
      ghost var out := Outputs(s0, date, cam, f);
      OutputsAreOfDay(s0, date, cam, f);
      OnlyWroteMore(s0.files, s1.files, ps, out);
      OnlyDayWritten(s0, s1, date, out);
      if pub.None? {
        return Error;
      }
      // The sidecar dereferences the score.
      if f.score.None? {
        return Panicked;
      }
      var origHash, hash := ShortHash(f.sha), NameHash(codec, pub.value);
      var orig, best := OrigFile(date, origHash), BestFile(date, hash);
      var sc := Sidecar(date, f.score.value, cam, f.fetched, hash, origHash, orig, crop);
      var ok := WriteSidecarAndRow(date, pub.value, sc, CompleteRow(date, f.score, cam, f.fetched, hash));
      OnlyWroteBoth(s0.files, s1.files, files, out, {JsonOf(best)});
      assert out + {JsonOf(best)} == out;
      OnlyDayWritten(s0, Now(), date, out);
      if !ok {
        return Error;
      }
      assert Shows(s0, Now(), date, cam, f) by {
        WroteElsewhere(s1.files, files, {JsonOf(best)}, ps);
        FrameIsPublishedAs(s0, cam, f);
      }
      r := Done;
    }

    lemma WroteElsewhere(f: Files, g: Files, ps: set<Path>, qs: set<Path>)
      requires OnlyWrote(f, g, ps) && ps !! qs && qs <= f.Keys
      ensures qs <= g.Keys && forall q :: q in qs ==> g[q] == f[q]
    {
    }

    /** The reason recorded when nothing can be published. */
    function NothingReason(any: bool): string {
      if any then "eligible frames exist but no publish-eligible camera"
      else "no archive-eligible frames"
    }

    /** Fails the day; the engine ignores whether that could be written. */
    method FailDay(date: Date, reason: string)
      requires Valid()
      modifies this
      ensures Valid() && Grown() && rejected == old(rejected)
      ensures OnlyDay(old(Now()), Now(), date) && files == old(files)
      ensures faults == old(faults) && date in days ==> days[date] == BlankDay(Failed, reason)
      ensures InProgress(old(days), date) ==> tame == old(tame)
    {
      hide Valid, IsRun, Inv, Guard, Apply;
      var ok := CompleteDay(date, BlankDay(Failed, reason));
    }

    /** The whole finalization of a date.  The second result is the choice it made. */
    method FinalizeDay(date: Date) returns (r: Outcome, pub: Option<(string, FrameRow)>)
      requires Valid()
      modifies this
      ensures Valid() && Grown() && rejected == old(rejected)
      ensures OnlyDay(old(Now()), Now(), date)
      ensures sky(date).None? ==> r == Error && pub.None? && Now() == old(Now())
      ensures sky(date).Some? ==> Chosen(old(Now()), RulesFor(old(Now()), date), pub)
      ensures sky(date).Some? && pub.None? ==> r == Done
      ensures sky(date).Some? && pub.None? && faults == old(faults) && date in days ==>
        days[date] == BlankDay(Failed, NothingReason(AnyEligible(old(Now()), RulesFor(old(Now()), date))))
      ensures pub.Some? ==> pub.value.0 in cameras && pub.value.1 in frames
      ensures pub.None? ==> files == old(files)
      ensures pub.Some? && OnDisk(old(files), pub.value.1) ==>
        OnlyWrote(old(files), files, Outputs(old(Now()), date, pub.value.0, pub.value.1))
      ensures pub.Some? && r == Done ==> Shows(old(Now()), Now(), date, pub.value.0, pub.value.1)
      ensures pub.Some? && faults == old(faults) ==>
        (r == Done <==> Renders(codec, old(files), cameras[pub.value.0].crop, pub.value.1))
      ensures pub.Some? && r != Done && OnDisk(old(files), pub.value.1) ==> days == old(days)
      ensures pub.Some? && !OnDisk(old(files), pub.value.1) ==> r == Error && files == old(files)
      ensures pub.Some? && !OnDisk(old(files), pub.value.1) && faults == old(faults) && date in days ==>
        days[date] == BlankDay(Failed, "best frame file missing")
      ensures r == Panicked ==> pub.Some? && pub.value.1.score.None?
      ensures InProgress(old(days), date) ==> tame == old(tame)
    {
      if sky(date).None? {
        return Error, None;
      }
      hide Valid, IsRun, Inv, Guard, Apply, Chosen, AnyEligible, Renders, Shows, OnlyWrote, CameraCrop;
      var any;
      pub, any := Choose(Seen(), RulesFor(Seen(), date));
      ChoiceIgnoresDays(Seen(), Now(), RulesFor(Now(), date), pub);
      if pub.None? {
        FailDay(date, NothingReason(any));
        return Done, None;
      }
      var (cam, f) := pub.value;
      if !OnDisk(files, f) {
        FailDay(date, "best frame file missing");
        return Error, pub;
      }
      r := PublishFrame(date, cam, f, files[f.path].bytes);
    }

    lemma AllRowsIntact()
      requires Valid()
      ensures forall f :: f in frames ==>
        f.score.Some? && OnDisk(files, f) && (f.width, f.height) == Dims(codec, files[f.path].bytes)
    {
      GoodNow();
      forall f | f in frames
        ensures f.score.Some? && OnDisk(files, f) && (f.width, f.height) == Dims(codec, files[f.path].bytes)
      {
        assert RowOk(codec, Now(), f);
      }
    }

    /** row is what finalizing this date in state s leaves when the choice is pub. */
    ghost predicate IsFinal(s: State, date: Date, pub: Option<(string, FrameRow)>, row: DayRow) {
      && sky(date).Some? && Chosen(s, RulesFor(s, date), pub)
      && if pub.None? then row == BlankDay(Failed, NothingReason(AnyEligible(s, RulesFor(s, date))))
         else
           var (cam, f) := pub.value;
           && cam in s.cameras && f in s.frames && Renders(codec, s.files, s.cameras[cam].crop, f)
           && var crop := CameraCrop(s.cameras[cam].crop, f.width, f.height);
           row == CompleteRow(date, f.score, cam, f.fetched,
                              NameHash(codec, CropOrFull(codec, s.files[f.path].bytes, crop).value))
    }

    /** row is the final row of this date: its cameras and frames in s determine it. */
    ghost predicate Settled(s: State, date: Date, row: DayRow) {
      exists pub :: IsFinal(s, date, pub, row)
    }

    lemma ShownIsFinal(s: State, t: State, date: Date, pub: Option<(string, FrameRow)>)
      requires sky(date).Some? && pub.Some? && Chosen(s, RulesFor(s, date), pub) && pub.value.1 in s.frames
      requires Shows(s, t, date, pub.value.0, pub.value.1) && date in t.days
      requires var f := pub.value.1; (f.width, f.height) == Dims(codec, s.files[f.path].bytes)
      ensures IsFinal(s, date, pub, t.days[date])
    {
      hide Chosen, CropOrFull, CameraCrop, Rendition, Dims, PixelRect;
      FrameIsPublishedAs(s, pub.value.0, pub.value.1);
    }

    lemma SettledIsFinished(s: State, date: Date, row: DayRow)
      requires Settled(s, date, row)
      ensures row.status in {Complete, Failed}
    {
    }

    lemma SettledStays(s: State, t: State, date: Date, row: DayRow)
      requires t.frames == s.frames && t.cameras == s.cameras && t.settings == s.settings
      requires SameFrameFiles(s.files, t.files)
      requires forall r :: r in s.frames ==> r.path.FrameFile?
      requires Settled(s, date, row)
      ensures Settled(t, date, row)
    {
      hide CropOrFull, CameraCrop, Chosen;
      var pub :| IsFinal(s, date, pub, row);
      ChoiceIgnoresDays(s, t, RulesFor(s, date), pub);
      assert IsFinal(t, date, pub, row);
    }

    /** Finalizing this date returns an error: the sky is unknown, or the frame to publish does
        not decode, or it or its thumbnails do not encode. */
    ghost predicate Blocked(s: State, date: Date, pub: Option<(string, FrameRow)>) {
      sky(date).Some? ==>
        && Chosen(s, RulesFor(s, date), pub) && pub.Some? && pub.value.0 in s.cameras
        && !Renders(codec, s.files, s.cameras[pub.value.0].crop, pub.value.1)
    }

    /** A finalization as its callers see it: it never panics, an error leaves every day row as
        it was, and success finishes the day. */
    method Finalize(date: Date) returns (r: Outcome, pub: Option<(string, FrameRow)>)
      requires Valid()
      modifies this
      ensures r != Panicked && Valid() && Grown() && rejected == old(rejected)
      ensures OnlyDay(old(Now()), Now(), date)
      ensures today == old(today) && cameras == old(cameras) && days.Keys == old(days.Keys)
      ensures r != Done ==> days == old(days)
      ensures pub.None? ==> files == old(files)
      ensures pub.Some? ==>
        && pub.value.0 in cameras && OnDisk(old(files), pub.value.1)
        && OnlyWrote(old(files), files, Outputs(old(Now()), date, pub.value.0, pub.value.1))
      ensures r == Done && faults == old(faults) && date in days ==> Settled(old(Now()), date, days[date])
      ensures r == Done && pub.Some? ==> Shows(old(Now()), Now(), date, pub.value.0, pub.value.1)
      ensures r == Done ==> sky(date).Some? && Chosen(old(Now()), RulesFor(old(Now()), date), pub)
      ensures r == Done && pub.Some? ==>
        && Publisher(old(Now()), RulesFor(old(Now()), date), pub.value.0)
        && IsBest(old(frames), RulesFor(old(Now()), date), pub.value.0, pub.value.1)
      ensures faults == old(faults) ==> (r == Error <==> Blocked(old(Now()), date, pub))
      ensures sky(date).Some? ==> BestOfDay(old(Now()), date, sky(date).value.cutoff, pub)
      ensures sky(date).Some? && faults == old(faults) ==> (r == Done <==> pub.Some? ==>
        var out := Rendition(codec, old(files)[pub.value.1.path].bytes, cameras[pub.value.0].crop);
        out.Some? && codec.thumb(out.value, 480).Some? && codec.thumb(out.value, 240).Some?)
      ensures r == Done && pub.None? && faults == old(faults) && date in days ==>
        && days[date].status == Failed && days[date].best.None?
        && days[date].reason == WhyNothing(old(Now()), date, sky(date).value.cutoff)
      ensures InProgress(old(days), date) ==> tame == old(tame)
    {
      hide Valid, IsRun, Inv, Guard, Apply, Chosen, AnyEligible, Renders, OnlyWrote, CropOrFull, CameraCrop;
      hide Publisher, IsBest, Rendition, PixelRect, BestOfDay, WhyNothing, Dims, Outputs, Shows;
      AllRowsIntact();
      r, pub := FinalizeDay(date);
      if pub.Some? {
        ChosenIsListed(old(Now()), RulesFor(old(Now()), date), pub);
        FrameIsPublishedAs(old(Now()), pub.value.0, pub.value.1);
      }
      if sky(date).Some? {
        ChosenIsBestOfDay(old(Now()), RulesFor(old(Now()), date), pub);
        AnyEligibleIsTheReason(old(Now()), RulesFor(old(Now()), date));
      }
      if r == Done && faults == old(faults) && date in days {
        if pub.Some? {
          ShownIsFinal(old(Now()), Now(), date, pub);
        }
        assert IsFinal(old(Now()), date, pub, days[date]);
      }
    }

    // ---- re-rendering a published day ----

    /** What a re-render needs: a complete day whose camera still exists, its sidecar and its
        original, and a rendering of that with the current crop. */
    predicate Recroppable(s: State, date: Date) {
      && date in s.days && s.days[date].status == Complete
      && s.days[date].best.Some? && s.days[date].camera.Some? && s.days[date].camera.value in s.cameras
      && var json := JsonOf(s.days[date].best.value);
      && json in s.files && s.files[json].Record?
      && var orig := s.files[json].sidecar.origPath;
      && orig in s.files && s.files[orig].Image?
      && HasThumbs(Rerendered(s, date, s.files[orig].bytes))
    }

    /** The original's bytes rendered with the crop the day's camera has now. */
    function Rerendered(s: State, date: Date, jpeg: Bytes): Option<Bytes>
      requires date in s.days && s.days[date].camera.Some? && s.days[date].camera.value in s.cameras
    {
      CropOrFull(codec, jpeg, CropNow(s, date, jpeg))
    }

    function CropNow(s: State, date: Date, jpeg: Bytes): Option<Roi>
      requires date in s.days && s.days[date].camera.Some? && s.days[date].camera.value in s.cameras
    {
      CameraCrop(s.cameras[s.days[date].camera.value].crop, Dims(codec, jpeg).0, Dims(codec, jpeg).1)
    }

    /** The original of a day that can be re-rendered. */
    function OriginalOf(s: State, date: Date): Path
      requires Recroppable(s, date)
    {
      s.files[JsonOf(s.days[date].best.value)].sidecar.origPath
    }

    /** The row a re-render leaves. */
    function RecropRow(s: State, date: Date): DayRow
      requires Recroppable(s, date)
    {
      var pub := Rerendered(s, date, s.files[OriginalOf(s, date)].bytes).value;
      CompleteRow(date, s.days[date].score, s.days[date].camera.value, s.days[date].taken,
                  NameHash(codec, pub))
    }

    /** t is s after a re-render of date: the row shows the new rendering, everything it needs is
        there, and at most the old artifacts are gone. */
    ghost predicate Recropped(s: State, t: State, date: Date)
      requires Recroppable(s, date)
    {
      var row, orig := RecropRow(s, date), OriginalOf(s, date);
      var best := row.best.value;
      && t.days == s.days[date := row]
      && Artifacts(row) <= t.files.Keys
      && var pub := Rerendered(s, date, s.files[orig].bytes).value;
      && t.files[best] == Image(pub)
      && t.files[row.thumb480.value] == Image(codec.thumb(pub, 480).value)
      && t.files[row.thumb240.value] == Image(codec.thumb(pub, 240).value)
      && t.files[JsonOf(best)] == Record(s.files[JsonOf(s.days[date].best.value)].sidecar.(
        date := date, camera := s.days[date].camera.value, hash := best.hash,
        crop := CropNow(s, date, s.files[orig].bytes)))
      && t.files.Keys <= s.files.Keys + Artifacts(row)
      && s.files.Keys - Artifacts(s.days[date]) <= t.files.Keys
      && forall p :: p in s.files && p !in Artifacts(row) && p in t.files ==> t.files[p] == s.files[p]
    }

    /** What the new row and sidecar of a re-render say, in terms of the day, its original and the
        crop its camera has now. */
    lemma RecropIsRendition(s: State, date: Date)
      requires Recroppable(s, date)
      ensures var day, jpeg := s.days[date], s.files[OriginalOf(s, date)].bytes;
        var crop := s.cameras[day.camera.value].crop;
        && Rerendered(s, date, jpeg) == Rendition(codec, jpeg, crop)
        && (CropNow(s, date, jpeg) ==
          if crop.Some? && PixelRect(crop.value, codec.bounds(jpeg)).Some? then crop else None)
        && Rendition(codec, jpeg, crop).Some?
        && var hash := ShortHash(codec.sha(Rendition(codec, jpeg, crop).value));
        && RecropRow(s, date) == DayRow(Complete, "", day.score, day.camera, day.taken, Some(BestFile(date, hash)),
                                        Some(ThumbFile(date, hash, 480)), Some(ThumbFile(date, hash, 240)))
    {
      hide CropOrFull, CameraCrop, Rendition, PixelRect;
      var day, jpeg := s.days[date], s.files[OriginalOf(s, date)].bytes;
      RenderingIsRendition(codec, jpeg, s.cameras[day.camera.value].crop);
    }

    /** Re-renders a complete day from its kept original with the camera's current crop: new
        files, then the row, then removal of the old files. */
    method RecropDay(date: Date) returns (r: Outcome)
      requires Valid()
      modifies this
      ensures Valid() && Grown() && rejected == old(rejected) && tame == old(tame)
      ensures Now() == old(Now()).(files := files, days := days, images := images)
      ensures r != Done ==> days == old(days)
      ensures faults == old(faults) ==> (r == Done <==> Recroppable(old(Now()), date))
      ensures faults == old(faults) && r != Done ==> Now() == old(Now())
      ensures r == Done ==> Recroppable(old(Now()), date) && Recropped(old(Now()), Now(), date)
      ensures r == Done && faults == old(faults) ==>
        files.Keys == old(files.Keys) - Artifacts(old(days[date])) + Artifacts(days[date])
    {
      hide Valid, IsRun, Inv, Guard, Apply, CropOrFull, CameraCrop, Recropped;
      ghost var s := Now();
      if date !in days || days[date].status != Complete || days[date].best.None? || days[date].camera.None? {
        return Error;
      }
      var day := days[date];
      var cam, json := day.camera.value, JsonOf(day.best.value);
      if json !in files || !files[json].Record? {
        return Error;
      }
      var sc := files[json].sidecar;
      if sc.origPath !in files || !files[sc.origPath].Image? {
        return Error;
      }
      var jpeg := files[sc.origPath].bytes;
      if cam !in cameras {
        return Error;
      }
      var pub := Rerendered(Seen(), date, jpeg);
      if !HasThumbs(pub) {
        return Error;
      }
      CompleteDayIsShaped(date);
      var ok := Rerender(date, sc, jpeg, pub.value);
      if !ok {
        return Error;
      }
      ghost var rendered := Now();
      RecroppedFixes(s, rendered, date);
      RemoveOld(date, day);
      RecroppedStays(s, rendered, Now(), date);
      r := Done;
    }

    lemma RecroppedFixes(s: State, t: State, date: Date)
      requires Recroppable(s, date) && Recropped(s, t, date)
      ensures date in t.days
    {
    }

    lemma RecroppedStays(s: State, t: State, u: State, date: Date)
      requires Recroppable(s, date) && Recropped(s, t, date)
      requires u == t.(files := u.files) && date in t.days
      requires t.files.Keys - (Artifacts(s.days[date]) - Artifacts(t.days[date])) <= u.files.Keys <= t.files.Keys
      requires forall p :: p in u.files ==> u.files[p] == t.files[p]
      ensures Recropped(s, u, date)
    {
      hide CropOrFull, CameraCrop, Rerendered, CropNow;
    }

    /** Writes the new rendering and switches the row to it; nothing is removed yet. */
    method Rerender(date: Date, sc: Sidecar, jpeg: Bytes, pub: Bytes) returns (ok: bool)
      requires Valid() && Recroppable(Now(), date)
      requires sc == files[JsonOf(days[date].best.value)].sidecar
      requires jpeg == files[sc.origPath].bytes && Some(pub) == Rerendered(Now(), date, jpeg)
      modifies this
      ensures Valid() && Grown() && rejected == old(rejected) && tame == old(tame)
      ensures Now() == old(Now()).(files := files, days := days, images := images)
      ensures !ok ==> days == old(days) && faults > old(faults)
      ensures ok ==> Recropped(old(Now()), Now(), date) && faults == old(faults)
      ensures ok ==> files.Keys == old(files.Keys) + Artifacts(days[date])
    {
      hide Valid, IsRun, Inv, Guard, Apply, CropOrFull, CameraCrop, OnlyWrote;
      SidecarNamesOriginal(date);
      ghost var f0 := files;
      var day, hash, crop := days[date], NameHash(codec, pub), CropNow(Seen(), date, jpeg);
      var best := BestFile(date, hash);
      ok := WriteRendering(date, hash, pub);
      if !ok {
        return;
      }
      ghost var f2 := files;
      var row := CompleteRow(date, day.score, day.camera.value, day.taken, hash);
      var side := Sidecar(date, sc.score, day.camera.value, sc.taken, hash, sc.origHash, sc.origPath, crop);
      ghost var ps := {best, ThumbFile(date, hash, 480), ThumbFile(date, hash, 240)};
      WroteElsewhere(f0, f2, ps, {sc.origPath});
      ok := WriteSidecarAndRow(date, pub, side, row);
      if !ok {
        return;
      }
      assert Artifacts(row) == ps + {JsonOf(best)};
      WroteTwice(f0, f2, files, ps, {JsonOf(best)});
    }

    lemma WroteTwice(f: Files, g: Files, h: Files, ps: set<Path>, qs: set<Path>)
      requires OnlyWrote(f, g, ps) && OnlyWrote(g, h, qs) && ps !! qs && ps <= g.Keys
      ensures f.Keys <= h.Keys <= f.Keys + ps + qs
      ensures forall p :: p in f && p !in ps + qs ==> h[p] == f[p]
      ensures forall p :: p in ps ==> p in h && h[p] == g[p]
    {
    }

    /** The image and its thumbnails. */
    method WriteRendering(date: Date, hash: string, pub: Bytes) returns (ok: bool)
      requires Valid() && HasThumbs(Some(pub)) && hash == NameHash(codec, pub)
      modifies this
      ensures Valid() && Grown() && rejected == old(rejected) && tame == old(tame)
      ensures Now() == old(Now()).(files := files, images := images)
      ensures var best := BestFile(date, hash);
        var ps := {best, ThumbFile(date, hash, 480), ThumbFile(date, hash, 240)};
        && OnlyWrote(old(files), files, ps)
        && (ok ==>
          && ps <= files.Keys && files[best] == Image(pub)
          && files[ThumbFile(date, hash, 480)] == Image(codec.thumb(pub, 480).value)
          && files[ThumbFile(date, hash, 240)] == Image(codec.thumb(pub, 240).value))
      ensures if ok then faults == old(faults) else faults > old(faults)
    {
      hide Valid, IsRun, Inv, Guard, Apply, OnlyWrote;
      ghost var f0 := files;
      var best := BestFile(date, hash);
      ghost var ts := {ThumbFile(date, hash, 480), ThumbFile(date, hash, 240)};
      ghost var ps := {best, ThumbFile(date, hash, 480), ThumbFile(date, hash, 240)};
      ImageMayBeWritten(best, pub);
      ok := WriteAtomic(best, Image(pub));
      OnlyWroteOne(f0, best, Image(pub), ok);
      OnlyWroteMore(f0, files, {best}, ps);
      if !ok {
        return;
      }
      ghost var f1 := files;
      ok := WriteThumbs(date, hash, codec.thumb(pub, 480).value, codec.thumb(pub, 240).value, pub);
      OnlyWroteBoth(f0, f1, files, ps, ts);
      assert ps + ts == ps;
      WroteElsewhere(f1, files, ts, {best});
    }

    /** The original a complete day's sidecar names is an original. */
    lemma SidecarNamesOriginal(date: Date)
      requires Valid() && Recroppable(Now(), date)
      ensures OriginalOf(Now(), date).OrigFile?
      ensures files[JsonOf(days[date].best.value)].sidecar.origHash == OriginalOf(Now(), date).hash
    {
      GoodNow();
      hide CropOrFull;
      assert ContentOk(codec, files, images, JsonOf(days[date].best.value));
    }

    lemma CompleteDayIsShaped(date: Date)
      requires Valid() && date in days && days[date].status == Complete
      ensures Shaped(date, days[date])
    {
      GoodNow();
    }

    lemma FrameRowsNameFrames(p: Path)
      requires Valid() && !p.FrameFile?
      ensures forall r :: r in frames ==> r.path != p
    {
      GoodNow();
      forall r | r in frames ensures r.path != p {
        assert RowOk(codec, Now(), r);
      }
    }

    /** Whatever the day served before and does not serve now may be removed. */
    lemma OldArtifactIsUnused(date: Date, day: DayRow, p: Path)
      requires Valid() && date in days && Shaped(date, day)
      requires p in Artifacts(day) && p !in Artifacts(days[date])
      ensures !p.OrigFile? && forall r :: r in frames ==> r.path != p
      ensures forall d :: d in days && days[d].status == Complete ==> p !in Artifacts(days[d])
    {
      FrameRowsNameFrames(p);
      forall d | d in days && days[d].status == Complete ensures p !in Artifacts(days[d]) {
        CompleteDayIsShaped(d);
      }
    }

    /** Removes what the old row served and the new one does not; failures are only logged. */
    method RemoveOld(date: Date, day: DayRow)
      requires Valid() && date in days && Shaped(date, day)
      modifies this
      ensures Valid() && Grown() && rejected == old(rejected) && tame == old(tame)
      ensures Now() == old(Now()).(files := files)
      ensures old(files.Keys) - (Artifacts(day) - Artifacts(days[date])) <= files.Keys <= old(files.Keys)
      ensures forall p :: p in files ==> files[p] == old(files[p])
      ensures faults == old(faults) ==>
        files.Keys == old(files.Keys) - (Artifacts(day) - Artifacts(days[date]))
    {
      hide Valid, IsRun, Inv, Guard, Apply;
      var rest := [day.best.value, day.thumb480.value, day.thumb240.value, JsonOf(day.best.value)];
      assert Artifacts(day) == set p | p in rest;
      ghost var gone := {};
      while rest != []
        invariant Valid() && Grown() && rejected == old(rejected) && tame == old(tame)
        invariant Now() == old(Now()).(files := files)
        invariant (set p | p in rest) + gone == Artifacts(day)
        invariant old(files.Keys) - (Artifacts(day) - Artifacts(days[date])) <= files.Keys <= old(files.Keys)
        invariant forall p :: p in files ==> files[p] == old(files[p])
        invariant faults == old(faults) ==>
          files.Keys == old(files.Keys) - (gone - Artifacts(days[date]))
      {
        var p := rest[0];
        rest := rest[1..];
        gone := gone + {p};
        if p !in Artifacts(days[date]) {
          OldArtifactIsUnused(date, day, p);
          var ok := Remove(p);
        }
      }
    }

    /** Unless two images written so far share a name, a re-render with an unchanged crop moves no
        URL and leaves the same set of files. */
    lemma UnchangedCropKeepsUrls(s: State, t: State, date: Date)
      requires Inv(codec, s) && NoClash(codec, s.images)
      requires Recroppable(s, date) && Recropped(s, t, date)
      requires t.files.Keys == s.files.Keys - Artifacts(s.days[date]) + Artifacts(t.days[date])
      requires s.files[JsonOf(s.days[date].best.value)].sidecar.crop
        == CropNow(s, date, s.files[OriginalOf(s, date)].bytes)
      ensures t.days[date].best == s.days[date].best
      ensures t.days[date].thumb480 == s.days[date].thumb480
      ensures t.days[date].thumb240 == s.days[date].thumb240
      ensures t.files.Keys == s.files.Keys
      ensures var best := s.days[date].best.value; t.files[best] == s.files[best]
    {
      hide CropOrFull, CameraCrop, Inv;
      var best := s.days[date].best.value;
      CompleteDayIsWhole(codec, s, date);
      SidecarRenders(codec, s, best);
      assert RecropRow(s, date).best == Some(best);
      assert Artifacts(t.days[date]) == Artifacts(s.days[date]) <= s.files.Keys;
    }

    // ---- retention, orphans and camera removal ----

    /** Deletes rows past their retention; their files are left to the sweep. */
    method Retention() returns (ok: bool)
      requires Valid()
      modifies this
      ensures Tried(ok) && tame == old(tame)
      ensures ok ==> RetentionMet(Now())
      ensures ok ==> Now() == old(Now()).(frames := frames)
      ensures forall r :: r in frames <==> r in old(frames) && (ok ==> r.date >= today - retentionDays)
    {
      hide Valid, IsRun, Inv, Guard, Apply;
      ok := DeleteFramesBefore(today - retentionDays);
    }

    /** Retention once a day, as both the tick and the startup sequence run it. */
    method RetentionIfDue()
      requires Valid()
      modifies this
      ensures Valid() && Grown() && rejected == old(rejected) && tame == old(tame)
      ensures Now() == old(Now()).(frames := frames, retentionLast := retentionLast)
      ensures frames <= old(frames)
      ensures old(retentionLast) == Some(today) ==> Now() == old(Now())
      ensures old(retentionLast) != Some(today) && faults == old(faults) ==>
        RetentionMet(Now()) && retentionLast == Some(today)
        && forall r :: r in old(frames) && r.date >= today - retentionDays ==> r in frames
    {
      hide Valid, IsRun, Inv, Guard, Apply;
      if retentionLast != Some(today) {
        var ok := Retention();
        if ok {
          ok := SetRetentionLast(today);
        }
      }
    }

    /** Removes frame files without a row, then marks rows without a file. */
    method SweepOrphanFrames()
      requires Valid()
      modifies this
      ensures Valid() && Grown() && rejected == old(rejected) && tame == old(tame)
      ensures Now() == old(Now()).(files := files)
      ensures forall p :: p in files ==> p in old(files) && files[p] == old(files[p])
      ensures forall p :: p in old(files) && !p.FrameFile? ==> p in files
      ensures RowPaths(frames) <= FrameFiles(files)
      ensures faults == old(faults) ==> FrameFiles(files) == RowPaths(frames)
    {
      hide Valid, IsRun, Inv, Guard, Apply;
      var known := RowPaths(frames);
      var walk := FrameFiles(files);
      while walk != {}
        invariant Valid() && Grown() && rejected == old(rejected) && tame == old(tame)
        invariant Now() == old(Now()).(files := files)
        invariant forall p :: p in files ==> p in old(files) && files[p] == old(files[p])
        invariant forall p :: p in old(files) && !p.FrameFile? ==> p in files
        invariant faults == old(faults) ==>
          forall q :: q in files && q.FrameFile? ==> q in known || q in walk
      {
        var p :| p in walk;
        walk := walk - {p};
        if p !in known {
          OrphanIsUnused(p);
          var ok := Remove(p);
        }
      }
      RowsHaveFiles();
      MarkMissingRows();
    }

    lemma OrphanIsUnused(p: Path)
      requires Valid() && p.FrameFile?
      ensures forall d :: d in days && days[d].status == Complete ==> p !in Artifacts(days[d])
    {
      forall d | d in days && days[d].status == Complete ensures p !in Artifacts(days[d]) {
        CompleteDayIsShaped(d);
      }
    }

    /** Flags rows whose file is gone. */
    method MarkMissingRows()
      requires Valid()
      modifies this
      ensures Valid() && Grown() && rejected == old(rejected) && tame == old(tame)
      ensures Now() == old(Now()).(frames := frames)
      ensures RowPaths(frames) == RowPaths(old(frames))
      ensures (forall r :: r in old(frames) ==> r.path in files) ==>
        frames == old(frames) && faults == old(faults)
    {
      hide Valid, IsRun, Inv, Guard, Apply;
      var rest := frames;
      while rest != {}
        invariant rest <= frames && rest <= old(frames)
        invariant Valid() && Grown() && rejected == old(rejected) && tame == old(tame)
        invariant Now() == old(Now()).(frames := frames)
        invariant RowPaths(frames) == RowPaths(old(frames))
        invariant (forall r :: r in old(frames) ==> r.path in files) ==>
          frames == old(frames) && faults == old(faults)
      {
        var r :| r in rest;
        rest := rest - {r};
        if r.path !in files {
          ghost var before := frames;
          var ok := MarkFrameMissing(r);
          if ok {
            SamePaths(before, r, r.(ok := false));
          }
        }
      }
    }

    lemma SamePaths(rows: set<FrameRow>, r: FrameRow, q: FrameRow)
      requires r in rows && q.path == r.path
      ensures (set x | x in rows - {r} + {q} :: x.path) == (set x | x in rows :: x.path)
    {
      var a, b := set x | x in rows - {r} + {q} :: x.path, set x | x in rows :: x.path;
      assert q in rows - {r} + {q} && q.path in a;
      forall p | p in b ensures p in a {
        var x :| x in rows && x.path == p;
        assert x == r || x in rows - {r} + {q};
      }
    }

    /** Every row's frame file exists, in every state the engine can be in. */
    lemma RowsHaveFiles()
      requires Valid()
      ensures RowPaths(frames) <= FrameFiles(files)
      ensures forall r :: r in frames ==> r.path in files
    {
      GoodNow();
      forall r | r in frames ensures r.path in files && r.path.FrameFile? {
        assert RowOk(codec, Now(), r);
      }
    }

    /** The admin's camera removal: rows first, then the files those rows had named. */
    method CameraDelete(id: string) returns (ok: bool)
      requires Valid()
      modifies this
      ensures Valid() && Grown() && rejected == old(rejected) && tame == old(tame)
      ensures !ok ==> Now() == old(Now()) && faults > old(faults)
      ensures ok ==> Now() == Without(old(Now()), id).(files := files)
      ensures ok ==>
        && cameras == old(cameras) - {id} && frames == (set r | r in old(frames) && r.cam != id)
        && days.Keys == old(days.Keys)
        && forall d :: d in days ==>
          days[d] == old(days)[d].(camera := if old(days)[d].camera == Some(id) then None else old(days)[d].camera)
      ensures var gone := set r | r in old(frames) && r.cam == id :: r.path;
        && old(files.Keys) - gone <= files.Keys <= old(files.Keys)
        && (ok && faults == old(faults) ==> files.Keys == old(files.Keys) - gone)
      ensures forall p :: p in files ==> files[p] == old(files[p])
    {
      hide Valid, IsRun, Inv, Guard, Apply;
      var paths := set r | r in frames && r.cam == id :: r.path;
      ghost var rows := frames;
      PathsAreUnique();
      ok := DeleteCameraCascade(id);
      if !ok {
        return;
      }
      ghost var s1 := Now();
      ghost var gone := {};
      var rest := paths;
      while rest != {}
        invariant rest + gone == paths
        invariant Valid() && Grown() && rejected == old(rejected) && tame == old(tame)
        invariant Now() == s1.(files := files)
        invariant old(files.Keys) - paths <= files.Keys <= old(files.Keys)
        invariant forall p :: p in files ==> files[p] == old(files[p])
        invariant faults == old(faults) ==> files.Keys == old(files.Keys) - gone
      {
        var p :| p in rest;
        rest := rest - {p};
        gone := gone + {p};
        assert p.FrameFile? && forall r :: r in frames ==> r.path != p;
        OrphanIsUnused(p);
        var removed := Remove(p);
      }
    }

    lemma PathsAreUnique()
      requires Valid()
      ensures forall r, q :: r in frames && q in frames && r.path == q.path ==> r == q
      ensures forall r :: r in frames ==> r.path.FrameFile? && r.path.cam == r.cam && r.path.date == r.date
    {
      GoodNow();
      forall r | r in frames ensures r.path.FrameFile? && r.path.cam == r.cam && r.path.date == r.date {
        assert RowOk(codec, Now(), r);
      }
    }

    // ---- startup ----

    /** What the startup does to state s.  unfinished are the dates whose finalization returned an
        error; clean says that no write failed. */
    ghost predicate StartedUp(s: State, t: State, now: int, unfinished: set<Date>, clean: bool) {
      && Survives(s, t)
      && (clean ==> Backfills(s, t) && Resumes(s, t, now, unfinished) && Trims(s, t))
      && (clean && !RetentionMet(t) ==> WasShortened(codec, s))
    }

    /** What outlives any startup: cameras and settings, finished and scheduled days, every file
        that is not a frame; what is new or rewritten was published for a stuck day. */
    ghost predicate Survives(s: State, t: State) {
      && t == s.(runs := t.runs, days := t.days, frames := t.frames, files := t.files, images := t.images,
                 retentionLast := t.retentionLast)
      && (forall d :: d in s.days && s.days[d].status != Capturing ==> d in t.days && t.days[d] == s.days[d])
      && (forall d :: d in s.days ==> d in t.days)
      && t.frames <= s.frames
      && (forall p :: p in s.files && !p.FrameFile? ==> p in t.files)
      && (forall p :: p in t.files && (p !in s.files || t.files[p] != s.files[p]) ==>
        DayOf(p).Some? && DayOf(p).value in StuckDays(s.(runs := t.runs)))
    }

    /** Exactly the dates from the install date up to yesterday get a row if they had none. */
    ghost predicate Backfills(s: State, t: State) {
      && (forall d :: d in t.days <==> d in s.days || (s.install.Some? && s.install.value <= d < s.today))
      && forall d :: d in t.days && d !in s.days ==> t.days[d] == BlankDay(Missed, "no capture")
    }

    /** The running runs whose planned end is past are interrupted and no other run is changed.  A
        capturing day with a run whose end is still to come is not touched; any other has its final
        row or its finalization is blocked. */
    ghost predicate Resumes(s: State, t: State, now: int, unfinished: set<Date>) {
      && t.runs == AfterInterrupts(s.runs, now) && t.runs.Keys == s.runs.Keys
      && (forall id :: id in s.runs ==>
        && (s.runs[id].status == Running && s.runs[id].plannedEnd < now ==>
          t.runs[id] == s.runs[id].(status := Interrupted))
        && (s.runs[id].status != Running || s.runs[id].plannedEnd >= now ==> t.runs[id] == s.runs[id]))
      && (forall id :: id in t.runs && t.runs[id].plannedEnd < now ==> t.runs[id].status != Running)
      && unfinished <= StuckDays(s.(runs := t.runs))
      && (forall d :: d in s.days && s.days[d].status == Capturing && d in t.days ==>
        if HasRunning(t.runs, d) then t.days[d] == s.days[d]
        else if d in unfinished then t.days[d] == s.days[d] && IsBlocked(s, d)
        else Settled(s, d, t.days[d]) && t.days[d].status != Capturing)
      && (forall d :: d in s.days && s.days[d].status == Capturing && d in t.days ==>
        if exists id :: id in s.runs && s.runs[id].date == d && s.runs[id].status == Running
                        && s.runs[id].plannedEnd >= now
        then t.days[d] == s.days[d]
        else (t.days[d] == s.days[d] && IsBlocked(s, d)) || Settled(s, d, t.days[d]))
      && (forall d :: d in t.days && t.days[d].status == Capturing ==> HasRunning(t.runs, d) || d in unfinished)
    }

    /** Retention is recorded for today and has deleted, if it ran now, exactly the rows past the
        cutoff; the frame files are those of the rows that are left.  Rows past the cutoff are left
        exactly if retention was recorded today before, and they were there. */
    ghost predicate Trims(s: State, t: State) {
      && t.retentionLast == Some(s.today)
      && t.frames == (if s.retentionLast == Some(s.today) then s.frames
                      else set r | r in s.frames && r.date >= s.today - s.retentionDays)
      && FrameFiles(t.files) == RowPaths(t.frames)
      && (RetentionMet(t) <==> s.retentionLast != Some(s.today) || RetentionMet(s))
      && (RetentionMet(t) ==> forall p :: p in t.files && p.FrameFile? ==> p.date >= s.today - s.retentionDays)
    }

    /** The startup sequence: backfill, interrupted runs, unfinished days, retention, orphans.
        The second result is the set of dates whose finalization returned an error. */
    method Reconcile(now: int) returns (err: bool, unfinished: set<Date>)
      requires Valid()
      modifies this
      ensures Valid() && Grown() && rejected == old(rejected) && tame == old(tame)
      ensures err ==> faults > old(faults)
      ensures StartedUp(old(Now()), Now(), now, unfinished, faults == old(faults))
    {
      hide Valid, IsRun, Inv, Guard, Apply, WasShortened, SameFrameFiles, Backfilled, AfterInterrupts, Settled;
      hide Survives, Backfills, Resumes, Trims, StuckDays, OnlyPublished, IsBlocked, RetentionMet;
      MissedMeansShortened();
      SameFrameFilesSame(files);
      ghost var s := Now();
      unfinished := {};
      if install.Some? && install.value < today {
        var ok := BackfillMissedDays(install.value, today);
        if !ok {
          NotStartedUp(s, Now());
          return true, {};
        }
      }
      var ok := MarkInterruptedRuns(now);
      if !ok {
        NotStartedUp(s, Now());
        return true, {};
      }
      ghost var resumed := Now();
      unfinished := FinalizeStuckDays(s);
      ghost var finalized := Now();
      Tidy();
      Recovered(s, resumed, finalized, Now(), now, unfinished, faults == old(faults));
      err := false;
    }

    /** The end of the startup: retention and the orphan sweep. */
    method Tidy()
      requires Valid()
      modifies this
      ensures Valid() && Grown() && rejected == old(rejected) && tame == old(tame)
      ensures Tidied(old(Now()), Now()) && (faults == old(faults) ==> Trims(old(Now()), Now()))
    {
      hide Valid, IsRun, Inv, Guard, Apply, Trims;
      ghost var s := Now();
      RetentionIfDue();
      SweepOrphanFrames();
      if faults == old(faults) {
        Trimmed(s);
      }
    }

    /** At most rows and frame files are gone. */
    ghost predicate Tidied(s: State, t: State) {
      && t == s.(frames := t.frames, files := t.files, retentionLast := t.retentionLast)
      && t.frames <= s.frames
      && (forall p :: p in t.files ==> p in s.files && t.files[p] == s.files[p])
      && (forall p :: p in s.files && !p.FrameFile? ==> p in t.files)
    }

    lemma NotStartedUp(s: State, t: State)
      requires t == s.(days := t.days) && t.days in {s.days, Backfilling(s)}
      ensures Survives(s, t)
    {
    }

    /** The day rows after the backfill. */
    function Backfilling(s: State): map<Date, DayRow> {
      if s.install.Some? && s.install.value < s.today then Backfilled(s.days, s.install.value, s.today) else s.days
    }

    /** From the states after the interrupts (m), after the finalizations (f) and at the end (t). */
    lemma Recovered(s: State, m: State, f: State, t: State, now: int, unfinished: set<Date>, clean: bool)
      requires m == s.(days := Backfilling(s), runs := AfterInterrupts(s.runs, now))
      requires Unstuck(s, m, f, StuckDays(m), unfinished, clean)
      requires Tidied(f, t) && (clean ==> Trims(f, t))
      ensures Survives(s, t) && Backfills(s, t) && (clean ==> Resumes(s, t, now, unfinished) && Trims(s, t))
      ensures !RetentionMet(t) && clean ==> !RetentionMet(s) && s.retentionLast == Some(s.today)
    {
      hide Settled, IsBlocked, AfterInterrupts, HasRunning, OnlyPublished, Backfilled, Resumes;
      SameStuckDays(s, m);
      SurvivedPublishing(s.files, f.files, StuckDays(m));
      DaysFilled(s);
      if clean {
        DaysResumed(s, m, f, t, now, unfinished);
      }
    }

    /** The backfill adds no stuck day. */
    lemma SameStuckDays(s: State, m: State)
      requires m == s.(days := Backfilling(s), runs := m.runs)
      ensures StuckDays(m) == StuckDays(s.(runs := m.runs))
    {
      hide HasRunning;
    }

    lemma DaysFilled(s: State)
      ensures var days := Backfilling(s);
        && (forall d :: d in days <==> d in s.days || (s.install.Some? && s.install.value <= d < s.today))
        && (forall d :: d in days ==> days[d] == if d in s.days then s.days[d] else BlankDay(Missed, "no capture"))
    {
    }

    lemma DaysResumed(s: State, m: State, f: State, t: State, now: int, unfinished: set<Date>)
      requires m == s.(days := Backfilling(s), runs := AfterInterrupts(s.runs, now))
      requires Unstuck(s, m, f, StuckDays(m), unfinished, true)
      requires t.runs == m.runs && t.days == f.days
      ensures Resumes(s, t, now, unfinished)
    {
      hide Settled, IsBlocked, AfterInterrupts, HasRunning, OnlyPublished, Backfilling;
      DaysFilled(s);
      SameStuckDays(s, m);
      RunsLeft(s.runs, now);
    }

    lemma SurvivedPublishing(f: Files, g: Files, dates: set<Date>)
      requires OnlyPublished(f, g, dates)
      ensures f.Keys <= g.Keys
      ensures forall p :: p in g && (p !in f || g[p] != f[p]) ==> DayOf(p).Some? && DayOf(p).value in dates
    {
    }

    /** The interrupts in plain terms, and which days they leave with a running run. */
    lemma RunsLeft(runs: map<string, RunRow>, now: int)
      ensures var after := AfterInterrupts(runs, now);
        && after.Keys == runs.Keys
        && (forall id :: id in runs ==>
          && (runs[id].status == Running && runs[id].plannedEnd < now ==>
            after[id] == runs[id].(status := Interrupted))
          && (runs[id].status != Running || runs[id].plannedEnd >= now ==> after[id] == runs[id]))
        && forall d :: HasRunning(after, d) <==>
          exists id :: id in runs && runs[id].date == d && runs[id].status == Running && runs[id].plannedEnd >= now
    {
      var after := AfterInterrupts(runs, now);
      assert forall id :: id in runs ==> after[id].date == runs[id].date;
    }

    lemma Trimmed(s: State)
      requires Valid() && today == s.today && retentionDays == s.retentionDays
      requires retentionLast == Some(today) && FrameFiles(files) == RowPaths(frames)
      requires s.retentionLast == Some(today) ==> frames == s.frames
      requires s.retentionLast != Some(today) ==>
        && frames <= s.frames && RetentionMet(Now())
        && forall r :: r in s.frames && r.date >= today - retentionDays ==> r in frames
      ensures Trims(s, Now())
    {
      PathsAreUnique();
      hide Valid;
      forall p | p in files && p.FrameFile? && RetentionMet(Now()) ensures p.date >= s.today - s.retentionDays {
        assert p in RowPaths(frames);
      }
    }

    lemma StartedUpLess(s: State, t: State, now: int, unfinished: set<Date>, clean: bool, later: bool)
      requires StartedUp(s, t, now, unfinished, clean) && (later ==> clean)
      ensures StartedUp(s, t, now, unfinished, later)
    {
    }

    /** Rows past today's cutoff although retention was recorded today. */
    lemma MissedMeansShortened()
      ensures !RetentionMet(Now()) && retentionLast == Some(today) ==> WasShortened(codec, Now())
    {
      hide WasShortened;
      if !RetentionOk(Now()) {
        PastCutoffMeansShortened(codec, Now());
      }
    }

    ghost predicate IsBlocked(s: State, date: Date) {
      exists pub :: Blocked(s, date, pub)
    }

    lemma StillBlocked(s: State, t: State, date: Date)
      requires t.frames == s.frames && t.cameras == s.cameras && t.settings == s.settings
      requires SameFrameFiles(s.files, t.files)
      requires forall r :: r in t.frames ==> r.path.FrameFile?
      requires IsBlocked(t, date)
      ensures IsBlocked(s, date)
    {
      hide CropOrFull, CameraCrop, Chosen;
      var pub :| Blocked(t, date, pub);
      if sky(date).Some? {
        ChoiceIgnoresDays(s, t, RulesFor(s, date), pub);
        ChosenIsListed(t, RulesFor(t, date), pub);
      }
      assert Blocked(s, date, pub);
    }

    /** Runs, days and published files may differ from s0: not what decides a finalization. */
    ghost predicate Since(s0: State)
      reads this
    {
      Now() == s0.(runs := runs, days := days, files := files, images := images) && SameFrameFiles(s0.files, files)
    }

    /** Finalizes one stuck day. */
    method FinalizeStuckDay(d: Date, ghost s0: State) returns (ok: bool)
      requires Valid() && d in days && days[d].status == Capturing
      requires Since(s0)
      modifies this
      ensures Valid() && Grown() && rejected == old(rejected) && tame == old(tame)
      ensures Since(s0) && OnlyDay(old(Now()), Now(), d)
      ensures !ok ==> days == old(days)
      ensures faults == old(faults) ==> if ok then Settled(s0, d, days[d]) else IsBlocked(s0, d)
    {
      hide Valid, IsRun, Inv, Guard, Apply, Shows, Renders, Chosen, Settled, CropOrFull, CameraCrop;
      PathsAreUnique();
      ghost var s := Now();
      var r, pub := Finalize(d);
      ok := r == Done;
      OnlyPublishedKeepsFrames(s.files, files, {d});
      SameFrameFilesChain(s0.files, s.files, files);
      if faults == old(faults) {
        if ok {
          SameFrameFilesBack(s0.files, s.files);
          SettledStays(s, s0, d, days[d]);
        } else {
          assert Blocked(s, d, pub);
          StillBlocked(s0, s, d);
        }
      }
    }

    /** What finalizing these stuck days of s leaves: each gets the row its frames and cameras in s0
        determine, or stays as it was because its finalization is blocked. */
    ghost predicate Unstuck(s0: State, s: State, t: State, dates: set<Date>, unfinished: set<Date>, clean: bool) {
      && t == s.(days := t.days, files := t.files, images := t.images) && t.days.Keys == s.days.Keys
      && unfinished <= dates <= s.days.Keys && OnlyPublished(s.files, t.files, dates)
      && (forall d :: d in s.days && (d !in dates || d in unfinished) ==> t.days[d] == s.days[d])
      && (clean ==> forall d :: d in dates && d !in unfinished ==>
        Settled(s0, d, t.days[d]) && t.days[d].status != Capturing)
      && (clean ==> forall d :: d in unfinished ==> IsBlocked(s0, d))
    }

    lemma UnstuckNothing(s0: State, s: State, clean: bool)
      ensures Unstuck(s0, s, s, {}, {}, clean)
    {
    }

    /** From t to v the day d was finalized, which returned an error unless ok. */
    lemma UnstuckMore(s0: State, s: State, t: State, v: State, dates: set<Date>, unfinished: set<Date>, d: Date,
                      ok: bool, clean: bool, later: bool)
      requires Unstuck(s0, s, t, dates, unfinished, clean) && (later ==> clean)
      requires d in s.days && d !in dates && OnlyDay(t, v, d) && (!ok ==> v.days == t.days)
      requires later ==> if ok then Settled(s0, d, v.days[d]) else IsBlocked(s0, d)
      ensures Unstuck(s0, s, v, dates + {d}, if ok then unfinished else unfinished + {d}, later)
    {
      hide Settled, IsBlocked, OnlyPublished;
      OnlyPublishedMore(s.files, t.files, v.files, dates, d);
      if later && ok {
        SettledIsFinished(s0, d, v.days[d]);
      }
    }

    /** Finalizes every capturing day that no running run can resume. */
    method FinalizeStuckDays(ghost s0: State) returns (unfinished: set<Date>)
      requires Valid() && Since(s0)
      modifies this
      ensures Valid() && Grown() && rejected == old(rejected) && tame == old(tame)
      ensures Unstuck(s0, old(Now()), Now(), StuckDays(old(Now())), unfinished, faults == old(faults))
    {
      hide Valid, IsRun, Inv, Guard, Apply, Settled, IsBlocked, SameFrameFiles, OnlyPublished, Since, OnlyDay;
      hide HasRunning;
      unfinished := {};
      var rest := set d | d in days && days[d].status == Capturing;
      ghost var s, dates := Now(), {};
      UnstuckNothing(s0, s, true);
      while rest != {}
        invariant Valid() && Grown() && rejected == old(rejected) && tame == old(tame)
        invariant Since(s0) && Unstuck(s0, s, Now(), dates, unfinished, faults == old(faults))
        invariant dates !! rest && dates <= StuckDays(s) <= dates + rest
        invariant forall d :: d in rest ==> d in s.days && s.days[d].status == Capturing
      {
        SomeDate(rest);
        var d: Date :| d in rest;
        rest := rest - {d};
        if !HasRunning(runs, d) {
          ghost var t, f, clean := Now(), faults, faults == old(faults);
          var ok := FinalizeStuckDay(d, s0);
          UnstuckMore(s0, s, t, Now(), dates, unfinished, d, ok, clean, faults == old(faults));
          unfinished := if ok then unfinished else unfinished + {d};
          dates := dates + {d};
        }
      }
      assert dates == StuckDays(s);
    }

    // ---- the capture window ----

    /** The first free name for a frame: the capture second of the day, then -1, -2 and so on. */
    method UniquePath(cam: string, date: Date, ms: nat) returns (p: Path)
      ensures p.FrameFile? && p == FrameFile(cam, date, SecondOfDay(ms), p.dup) && p !in files
      ensures forall k: nat :: k < p.dup ==> FrameFile(cam, date, SecondOfDay(ms), k) in files
    {
      var dup: nat := 0;
      ghost var left := files.Keys;
      while FrameFile(cam, date, SecondOfDay(ms), dup) in files
        invariant forall k: nat :: k < dup ==> FrameFile(cam, date, SecondOfDay(ms), k) in files
        invariant forall k: nat :: k >= dup && FrameFile(cam, date, SecondOfDay(ms), k) in files ==>
          FrameFile(cam, date, SecondOfDay(ms), k) in left
        decreases left
      {
        left := left - {FrameFile(cam, date, SecondOfDay(ms), dup)};
        dup := dup + 1;
      }
      p := FrameFile(cam, date, SecondOfDay(ms), dup);
    }

    /** No row names a path that has no file, so a fresh path cannot break the UNIQUE column. */
    lemma FreshPathIsAdmissible(r: FrameRow)
      requires Valid() && r.path !in files && r.runId in runs && r.cam in cameras
      ensures Admissible(r)
    {
      RowsHaveFiles();
    }

    lemma FrameMayBeWritten(p: Path, b: Bytes)
      requires p.FrameFile? && p !in files
      ensures Guard(codec, WriteFile(p, Image(b)), Now())
    {
    }

    /** Stores one frame: the file first, then its row.  A failed file write skips the row; a
        failed row is ignored and leaves an orphan for the next sweep. */
    method Archive(runId: string, cam: string, shot: Shot, jpeg: Bytes, m: Measure) returns (p: Path)
      requires Valid() && runId in runs && cam in cameras && codec.decodes(jpeg)
      modifies this
      ensures Valid() && Grown() && rejected == old(rejected) && tame == old(tame)
      ensures p.FrameFile? && p == FrameFile(cam, today, SecondOfDay(shot.named), p.dup) && p !in old(files)
      ensures forall k: nat :: k < p.dup ==> FrameFile(cam, today, SecondOfDay(shot.named), k) in old(files)
      ensures Captured(old(Now()), Now(), runId, {cam})
      ensures files in {old(files), old(files)[p := Image(jpeg)]}
      ensures frames in {old(frames), old(frames) + {FrameOf(codec, runId, cam, old(today), shot, jpeg, m, p)}}
      ensures faults == old(faults) ==> Now() == old(Now()).(
        files := old(files)[p := Image(jpeg)],
        frames := old(frames) + {FrameOf(codec, runId, cam, today, shot, jpeg, m, p)})
    {
      hide Valid, IsRun, Inv, Guard, Apply;
      p := UniquePath(cam, today, shot.named);
      var row := FrameOf(codec, runId, cam, today, shot, jpeg, m, p);
      FreshPathIsAdmissible(row);
      FrameMayBeWritten(p, jpeg);
      var ok := WriteAtomic(p, Image(jpeg));
      if ok {
        ok := InsertFrame(row);
      }
    }

    /** One camera's turn in a poll. */
    method Shoot(runId: string, st: CamState, shot: Shot, lowDisk: bool) returns (low: bool)
      requires Valid() && alerts.Valid() && runId in runs && st.cam in cameras
      modifies this, alerts, st, st.trig
      ensures Valid() && alerts.Valid() && old(Stamp()).Leads(Stamp())
      ensures Captured(old(Now()), Now(), runId, {st.cam})
      ensures Alerts.ClaimedOnce(old(alerts.Now()), alerts.Now(), Alerts.Go(today), settings.notifiers)
      ensures if !st.camera.stale && shot.jpeg.Some? && codec.decodes(shot.jpeg.value)
        then st.lastSHA == codec.sha(shot.jpeg.value) else st.lastSHA == old(st.lastSHA)
      ensures if !st.camera.stale && shot.jpeg.Some? && codec.decodes(shot.jpeg.value)
          && codec.sha(shot.jpeg.value) != old(st.lastSHA) && codec.measure(shot.jpeg.value, st.camera.roi).Some?
        then st.trig.samples == old(st.trig.samples)
          + [Trigger.Sample(shot.sampled, codec.measure(shot.jpeg.value, st.camera.roi).value.score)]
        else st.trig.samples == old(st.trig.samples) && Now() == old(Now())
      ensures st.lastSHA == LastSeen(codec, st.camera, shot, old(st.lastSHA))
      ensures st.trig.samples == old(st.trig.samples) + Hears(codec, st.camera, shot, old(st.lastSHA))
      ensures var m := NewSample(codec, st.camera, shot, old(st.lastSHA));
        if m.None? then Now() == old(Now()) && low == lowDisk
        else
          && low == (lowDisk || shot.diskLow)
          && (lowDisk ==> Now() == old(Now()))
          && (!lowDisk ==> st.lastPath.Some? && st.lastPath.value !in old(files))
          && (!lowDisk && faults == old(faults) ==> Now() == old(Now()).(
            files := old(files)[st.lastPath.value := Image(shot.jpeg.value)],
            frames := old(frames)
              + {FrameOf(codec, runId, st.cam, today, shot, shot.jpeg.value, m.value, st.lastPath.value)}))
      ensures StoredNews(codec, st, shot, old(st.lastSHA), runId, old(Now()), Now())
      ensures forall e :: e in alerts.events && e !in old(alerts.events) ==>
        e.image == if low then None else st.lastPath
      ensures Reported(st, shot, old(st.trig.fired), st.trig.samples != old(st.trig.samples),
                       old(alerts.Now()), old(alerts.faults))
      ensures old(st.Exact()) ==> st.Exact()
    {
      hide Valid, IsRun, Inv, Guard, Apply, NewSample, LastSeen, CamState.Exact, Reported;
      hide Alerts.AlertStore.Valid, Alerts.ClaimedOnce, Captured, StoredNews;
      StoredNothingNew(codec, st, shot, st.lastSHA, runId, Now());
      low := lowDisk;
      CapturedNothing(Now(), runId, {st.cam});
      Alerts.ClaimedNothing(alerts.Now(), Alerts.Go(today), settings.notifiers);
      var m := Look(st, shot);
      if m.None? {
        NothingReported(st, shot);
        return;
      }
      if !low {
        ghost var s := Now();
        var p := Archive(runId, st.cam, shot, shot.jpeg.value, m.value);
        StoredUnder(codec, st, shot, old(st.lastSHA), runId, s, Now(), p);
        st.lastPath := Some(p);
        low := shot.diskLow;
      }
      Report(st, shot, m.value.score, low);
    }

    /** Whether a shot is a new sample of a camera; a decodable frame is remembered by its hash. */
    method Look(st: CamState, shot: Shot) returns (m: Option<Measure>)
      modifies st`lastSHA
      ensures m == NewSample(codec, st.camera, shot, old(st.lastSHA))
      ensures st.lastSHA == LastSeen(codec, st.camera, shot, old(st.lastSHA))
      ensures m.Some? <==>
        && !st.camera.stale && shot.jpeg.Some? && codec.decodes(shot.jpeg.value)
        && codec.sha(shot.jpeg.value) != old(st.lastSHA) && codec.measure(shot.jpeg.value, st.camera.roi).Some?
      ensures m.Some? ==> m == codec.measure(shot.jpeg.value, st.camera.roi)
      ensures if !st.camera.stale && shot.jpeg.Some? && codec.decodes(shot.jpeg.value)
        then st.lastSHA == codec.sha(shot.jpeg.value) else st.lastSHA == old(st.lastSHA)
    {
      if st.camera.stale || shot.jpeg.None? || !codec.decodes(shot.jpeg.value) {
        return None;
      }
      var sha := codec.sha(shot.jpeg.value);
      if sha == st.lastSHA {
        return None;
      }
      st.lastSHA := sha;
      m := codec.measure(shot.jpeg.value, st.camera.roi);
    }

    lemma NothingReported(st: CamState, shot: Shot)
      ensures Reported(st, shot, st.trig.fired, false, alerts.Now(), alerts.faults)
    {
    }

    /** What a turn did to the latch and to the alerts: the latch closes exactly when it was open
        and a new sample made the history qualify; only then is the day's GO claimed, and then it
        is there afterwards, through this camera or an earlier one, unless the claim could fail. */
    ghost predicate Reported(st: CamState, shot: Shot, wasFired: bool, sampled: bool, before: Alerts.Book,
                             errorsBefore: nat)
      reads this`today, this`settings, alerts, st.trig
    {
      var fires := sampled && !wasFired
        && Trigger.Qualifies(st.camera.params, st.trig.interval, st.trig.samples);
      && st.trig.fired == (wasFired || fires)
      && (!fires ==> alerts.Now() == before && alerts.faults == errorsBefore)
      && (fires ==>
        || Alerts.HasKey(alerts.Now(), Alerts.Go(today))
        || Alerts.ClaimMayFail(settings.notifiers, before, shot.eventId, alerts.faults - errorsBefore))
    }

    /** Appends a sample, evaluates the trigger and claims the day's GO when it fires; an error of
        the claim is only logged. */
    method Report(st: CamState, shot: Shot, score: real, low: bool)
      requires alerts.Valid()
      modifies alerts, st.trig
      ensures alerts.Valid() && alerts.Grown()
      ensures st.trig.samples == old(st.trig.samples) + [Trigger.Sample(shot.sampled, score)]
      ensures Alerts.ClaimedOnce(old(alerts.Now()), alerts.Now(), Alerts.Go(today), settings.notifiers)
      ensures Reported(st, shot, old(st.trig.fired), true, old(alerts.Now()), old(alerts.faults))
      ensures old(st.Exact()) ==> st.Exact()
      ensures forall e :: e in alerts.events && e !in old(alerts.events) ==>
        e.image == if low then None else st.lastPath
    {
      hide Trigger.Qualifies, Trigger.EverQualified;
      var fire := Trigger.Sampled(st.trig, st.camera.params, Trigger.Sample(shot.sampled, score));
      if fire {
        var e := Alerts.Event(shot.eventId, Alerts.Go(today), if low then None else st.lastPath);
        var won, err := alerts.TryInsertEvent(e, settings.notifiers);
        assert e in alerts.Now().events || !won;
      }
      Trigger.EverQualifiedGrows(st.camera.params, st.trig.interval, old(st.trig.samples),
                                 Trigger.Sample(shot.sampled, score));
    }

    // What holds all through a window that began in state s0 with alerts b0.

    ghost predicate Filming(s0: State, b0: Alerts.Book, runId: string, cams: set<string>)
      reads this, alerts
    {
      && Valid() && alerts.Valid() && runId in s0.runs && cams <= s0.cameras.Keys
      && Now() == s0.(frames := frames, files := files) && Captured(s0, Now(), runId, cams)
      && Alerts.ClaimedOnce(b0, alerts.Now(), Alerts.Go(s0.today), s0.settings.notifiers)
    }

    lemma FilmingStarts(runId: string, cams: set<string>)
      requires Valid() && alerts.Valid() && runId in runs && cams <= cameras.Keys
      ensures Filming(Now(), alerts.Now(), runId, cams)
    {
      CapturedNothing(Now(), runId, cams);
      Alerts.ClaimedNothing(alerts.Now(), Alerts.Go(today), settings.notifiers);
    }

    /** Nothing but frames and files differs from the beginning. */
    lemma FilmingKeeps(s0: State, b0: Alerts.Book, runId: string, cams: set<string>)
      requires Filming(s0, b0, runId, cams)
      ensures Valid() && alerts.Valid() && runId in runs && cams <= cameras.Keys
      ensures today == s0.today && settings == s0.settings
      ensures Now() == s0.(frames := frames, files := files) && Captured(s0, Now(), runId, cams)
      ensures Alerts.ClaimedOnce(b0, alerts.Now(), Alerts.Go(s0.today), s0.settings.notifiers)
    {
    }

    lemma FilmingGoesOn(s0: State, b0: Alerts.Book, runId: string, cams: set<string>,
                        s1: State, b1: Alerts.Book, cam: string)
      requires Captured(s0, s1, runId, cams) && s1 == s0.(frames := s1.frames, files := s1.files)
      requires runId in s0.runs && cam in cams && cams <= s0.cameras.Keys
      requires Alerts.ClaimedOnce(b0, b1, Alerts.Go(s0.today), s0.settings.notifiers)
      requires Valid() && alerts.Valid() && Captured(s1, Now(), runId, {cam})
      requires Alerts.ClaimedOnce(b1, alerts.Now(), Alerts.Go(s0.today), s0.settings.notifiers)
      ensures Filming(s0, b0, runId, cams)
    {
      CapturedChain(s0, s1, Now(), runId, cams, {cam});
      Alerts.ClaimedOnceChain(b0, b1, alerts.Now(), Alerts.Go(s0.today), s0.settings.notifiers);
      hide Captured, Alerts.ClaimedOnce, Valid;
      CapturedFixes(s1, Now(), runId, {cam});
    }

    /** The histories and counters at one moment. */
    ghost function Stamp(): Mark
      reads this, alerts
    {
      Mark(log, faults, rejected, tame, alerts.log, alerts.acts, alerts.faults)
    }

    ghost function TheLedger(runId: string): Ledger
      reads this`today, this`frames
    {
      Ledger(runId, today, frames)
    }

    /** A turn and what it adds to the camera's history. */
    method TakeTurn(runId: string, st: CamState, i: nat, poll: Poll, lowDisk: bool,
                    ghost done: seq<Poll>, ghost clean: bool)
      returns (low: bool)
      requires Valid() && alerts.Valid() && runId in runs && st.cam in cameras
      requires Followed(codec, st, i, done, TheLedger(runId), clean) && (clean ==> !lowDisk)
      modifies this, alerts, st, st.trig
      ensures Valid() && alerts.Valid() && old(Stamp()).Leads(Stamp())
      ensures Captured(old(Now()), Now(), runId, {st.cam})
      ensures StoredNews(codec, st, poll.shots(i), ShaAfter(codec, st.camera, i, done, st.seed), runId,
                         old(Now()), Now())
      ensures Alerts.ClaimedOnce(old(alerts.Now()), alerts.Now(), Alerts.Go(today), settings.notifiers)
      ensures (lowDisk ==> low) && (low ==> lowDisk || poll.shots(i).diskLow)
      ensures Followed(codec, st, i, done + [poll], TheLedger(runId), clean && faults == old(faults))
      ensures Reported(st, poll.shots(i), old(st.trig.fired), st.trig.samples != old(st.trig.samples),
                       old(alerts.Now()), old(alerts.faults))
      ensures old(st.Exact()) ==> st.Exact()
    {
      hide Valid, IsRun, Inv, Guard, Apply, NewSample, LastSeen, Hears, Reported, KeptAll, CamState.Exact;
      hide Alerts.ClaimedOnce, Alerts.AlertStore.Valid, StoredNews;
      ghost var sha, samples, before := st.lastSHA, st.trig.samples, TheLedger(runId);
      low := Shoot(runId, st, poll.shots(i), lowDisk);
      FollowedMore(codec, st, i, done, poll, before, TheLedger(runId), clean, clean && faults == old(faults),
                   sha, samples);
    }

    /** The turn of camera i among the cameras of a window. */
    method Turn(runId: string, states: seq<CamState>, i: nat, poll: Poll, lowDisk: bool, ghost s0: State,
                ghost b0: Alerts.Book, ghost cams: set<string>, ghost done: seq<Poll>, ghost clean: bool,
                ghost errors: nat)
      returns (low: bool)
      requires Filming(s0, b0, runId, cams) && Reporting(states, b0, alerts.Now())
      requires i < |states| && states[i].cam in cams && errors <= alerts.faults
      requires OnlyNews(codec, states, done + [poll], runId, s0, Now())
      requires FollowedUpTo(codec, states, i, done, poll, TheLedger(runId), clean) && (clean ==> !lowDisk)
      modifies this, alerts, states[i], states[i].trig
      ensures Filming(s0, b0, runId, cams) && Reporting(states, b0, alerts.Now()) && old(Stamp()).Leads(Stamp())
      ensures OnlyNews(codec, states, done + [poll], runId, s0, Now())
      ensures (lowDisk ==> low) && (low ==> lowDisk || poll.shots(i).diskLow)
      ensures FollowedUpTo(codec, states, i + 1, done, poll, TheLedger(runId), clean && faults == old(faults))
      ensures old(Announced(states, alerts.Now(), today)) ==>
        || Announced(states, alerts.Now(), today)
        || Alerts.ClaimMayFail(s0.settings.notifiers, b0, poll.shots(i).eventId, alerts.faults - errors)
    {
      hide Valid, IsRun, Inv, Guard, Apply, NewSample, CamState.Exact, Trigger.Qualifies;
      hide Captured, Followed, Alerts.AlertStore.Valid, Alerts.Distinct, Alerts.HasId, Alerts.Apply;
      hide OnlyNews, StoredNews, ShaAfter;
      ghost var s1, b1, before := Now(), alerts.Now(), TheLedger(runId);
      low := TakeTurn(runId, states[i], i, poll, lowDisk, done, clean);
      CapturedFixes(s1, Now(), runId, {states[i].cam});
      OnlyNewsMore(codec, states, done, poll, i, runId, s0, s1, Now());
      FilmingGoesOn(s0, b0, runId, cams, s1, b1, states[i].cam);
      Alerts.ClaimedOnceKeeps(b1, alerts.Now(), Alerts.Go(today), settings.notifiers, "", Alerts.Go(today));
      Alerts.FreeMeansUnclaimed(b0, b1, Alerts.Go(today), settings.notifiers);
      hide Alerts.ClaimedOnce, Alerts.HasKey;
      ghost var later := clean && faults == old(faults);
      forall j | 0 <= j < |states| && j != i
        ensures Followed(codec, states[j], j, if j < i then done + [poll] else done, TheLedger(runId), later)
      {
        assert old(Followed(codec, states[j], j, if j < i then done + [poll] else done, TheLedger(runId), clean));
        FollowedStays(codec, states[j], j, if j < i then done + [poll] else done, before, TheLedger(runId),
                      clean, later);
      }
    }

    /** One round over all cameras. */
    method PollOnce(runId: string, states: seq<CamState>, poll: Poll, lowDisk: bool, ghost s0: State,
                    ghost b0: Alerts.Book, ghost cams: set<string>, ghost done: seq<Poll>, ghost clean: bool,
                    ghost errors: nat)
      returns (low: bool)
      requires Filming(s0, b0, runId, cams) && Reporting(states, b0, alerts.Now())
      requires errors <= alerts.faults && forall i :: 0 <= i < |states| ==> states[i].cam in cams
      requires AllFollowed(codec, states, done, TheLedger(runId), clean) && (clean ==> !lowDisk)
      requires OnlyNews(codec, states, done, runId, s0, Now())
      modifies this, alerts, states, Latches(states)
      ensures Filming(s0, b0, runId, cams) && Reporting(states, b0, alerts.Now()) && old(Stamp()).Leads(Stamp())
      ensures AllFollowed(codec, states, done + [poll], TheLedger(runId), clean && faults == old(faults) && !low)
      ensures OnlyNews(codec, states, done + [poll], runId, s0, Now())
      ensures (lowDisk ==> low) && (!lowDisk && Roomy([poll]) ==> !low)
      ensures old(Announced(states, alerts.Now(), today)) ==>
        || Announced(states, alerts.Now(), today)
        || RoundMayFail(s0.settings.notifiers, b0, poll, alerts.faults - errors)
    {
      hide Filming, Reporting, Announced, RoundMayFail, Alerts.ClaimMayFail, AllFollowed, FollowedUpTo, Roomy;
      hide OnlyNews;
      low := lowDisk;
      OnlyNewsMoreRounds(codec, states, done, done + [poll], runId, s0, Now());
      FollowedSplit(codec, states, done, poll, TheLedger(runId), clean);
      for i := 0 to |states|
        invariant Filming(s0, b0, runId, cams) && Reporting(states, b0, alerts.Now()) && old(Stamp()).Leads(Stamp())
        invariant FollowedUpTo(codec, states, i, done, poll, TheLedger(runId), clean && faults == old(faults) && !low)
        invariant OnlyNews(codec, states, done + [poll], runId, s0, Now())
        invariant (lowDisk ==> low) && (!lowDisk && Roomy([poll]) ==> !low)
        invariant old(Announced(states, alerts.Now(), today)) ==>
          || Announced(states, alerts.Now(), today)
          || RoundMayFail(s0.settings.notifiers, b0, poll, alerts.faults - errors)
      {
        ghost var before, writes, claims := clean && faults == old(faults) && !low, faults, alerts.faults;
        if Roomy([poll]) {
          RoomyRound(poll, i);
        }
        low := Turn(runId, states, i, poll, low, s0, b0, cams, done, before, errors);
        FollowedLess(codec, states, i + 1, done, poll, TheLedger(runId), before && faults == writes,
                     clean && faults == old(faults) && !low);
        MayFailAfterTurn(s0.settings.notifiers, b0, poll, i, claims - errors, alerts.faults - errors);
      }
      FollowedSplit(codec, states, done, poll, TheLedger(runId), clean && faults == old(faults) && !low);
    }

    /** The last good frame's hash, for a camera that opens. */
    method PreviousFrameSHA(cam: string) returns (sha: string)
      ensures IsPreviousSHA(frames, cam, sha)
    {
      var rest := set r | r in frames && r.cam == cam && r.ok;
      if rest == {} {
        assert forall r :: r in frames && r.cam == cam && r.ok ==> r in rest;
        return "";
      }
      var last :| last in rest;
      rest := rest - {last};
      while rest != {}
        invariant forall q :: q in rest ==> q in frames && q.cam == cam && q.ok
        invariant last in frames && last.cam == cam && last.ok
        invariant forall q :: q in frames && q.cam == cam && q.ok ==> q in rest || q.fetched <= last.fetched
      {
        var r :| r in rest;
        rest := rest - {r};
        if r.fetched > last.fetched {
          last := r;
        }
      }
      assert LatestGood(frames, cam, last);
      return last.sha;
    }

    /** The per-camera states, seeded so that a resumed run does not archive a frame again. */
    method OpenStates(cams: seq<string>, ghost runId: string) returns (states: seq<CamState>)
      requires forall i :: 0 <= i < |cams| ==> cams[i] in cameras
      ensures fresh(states) && fresh(Latches(states))
      ensures Opened(states, cams, Now()) && forall i :: 0 <= i < |states| ==> states[i].cam in SetOf(cams)
      ensures Separate(states) && !AnyFired(states)
      ensures AllFollowed(codec, states, [], TheLedger(runId), true)
    {
      hide IsPreviousSHA, Followed, CamState.Exact;
      states := [];
      for i := 0 to |cams|
        invariant fresh(states) && fresh(Latches(states))
        invariant Opened(states, cams[..i], Now())
        invariant Separate(states) && !AnyFired(states)
        invariant AllFollowed(codec, states, [], TheLedger(runId), true)
      {
        var st := OpenState(cams[i], i, runId);
        assert cams[..i + 1] == cams[..i] + [cams[i]];
        LatchesMore(states, st);
        states := states + [st];
      }
      assert cams[..|cams|] == cams;
    }

    method OpenState(cam: string, ghost i: nat, ghost runId: string) returns (st: CamState)
      requires cam in cameras
      ensures fresh(st) && fresh(st.trig)
      ensures st.cam == cam && st.camera == cameras[cam] && st.trig.interval == 1000 * settings.interval
      ensures IsPreviousSHA(frames, cam, st.seed) && st.Exact() && !st.trig.fired
      ensures Followed(codec, st, i, [], TheLedger(runId), true)
    {
      hide IsPreviousSHA, Trigger.EverQualified;
      var sha := PreviousFrameSHA(cam);
      st := new CamState(cam, cameras[cam], 1000 * settings.interval, sha);
      Trigger.NothingQualifies(st.camera.params, st.trig.interval);
    }

    /** The polling loop.  A process that dies while polling is a loop whose script has run out. */
    method Watch(runId: string, end: int, states: seq<CamState>, polls: seq<Poll>, ghost cams: set<string>)
      returns (w: Watched)
      requires Filming(Now(), alerts.Now(), runId, cams)
      requires Reporting(states, alerts.Now(), alerts.Now()) && Announced(states, alerts.Now(), today)
      requires forall i :: 0 <= i < |states| ==> states[i].cam in cams
      requires AllFollowed(codec, states, [], TheLedger(runId), true)
      modifies this, alerts, states, Latches(states)
      ensures Filming(old(Now()), old(alerts.Now()), runId, cams) && old(Stamp()).Leads(Stamp())
      ensures Reporting(states, old(alerts.Now()), alerts.Now())
      ensures AllFollowed(codec, states, Rounds(polls, end), TheLedger(runId),
                          faults == old(faults) && Roomy(Rounds(polls, end)))
      ensures OnlyNews(codec, states, Rounds(polls, end), runId, old(Now()), Now())
      ensures Announced(states, alerts.Now(), today)
        || ClaimsMayFail(old(settings.notifiers), old(alerts.Now()), polls, alerts.faults - old(alerts.faults))
      ensures w == Ended(polls, end)
      ensures Rounds(polls, end) == [] ==> Now() == old(Now()) && alerts.Now() == old(alerts.Now())
    {
      hide Filming, Announced, RoundMayFail, ClaimsMayFail, AllFollowed, Roomy, Separate, AnyFired;
      hide Poll.Over, Unrolled, Rounds, Ended, OnlyNews;
      StartUnrolled(polls, end);
      w := Died;
      var lowDisk, n := false, 0;
      ghost var s0, b0, errors, done := Now(), alerts.Now(), alerts.faults, polls[..0];
      OnlyNewsAtFirst(codec, states, done, runId, s0);
      while w == Died && n < |polls|
        invariant n <= |polls| && errors <= alerts.faults
        invariant Filming(s0, b0, runId, cams) && Reporting(states, b0, alerts.Now()) && old(Stamp()).Leads(Stamp())
        invariant AllFollowed(codec, states, done, TheLedger(runId), faults == old(faults) && !lowDisk)
        invariant Roomy(done) ==> !lowDisk
        invariant OnlyNews(codec, states, done, runId, s0, Now())
        invariant Announced(states, alerts.Now(), today)
          || ClaimsMayFail(s0.settings.notifiers, b0, polls, alerts.faults - errors)
        invariant if w != Died then w == Ended(polls, end) && done == Rounds(polls, end)
          else done == polls[..n] && Unrolled(polls, end, n)
        invariant done == [] ==> Now() == s0 && alerts.Now() == b0
        decreases |polls| - n, w == Died
      {
        Unroll(polls, end, n);
        if polls[n].Over(end) {
          w := WindowOver;
        } else {
          ghost var clean, writes, claims := faults == old(faults) && !lowDisk, faults, alerts.faults;
          RoomyMore(done, polls[n]);
          lowDisk := PollOnce(runId, states, polls[n], lowDisk, s0, b0, cams, done, clean, errors);
          done := polls[..n + 1];
          AllFollowedLess(codec, states, done, TheLedger(runId), clean && faults == writes && !lowDisk,
                          faults == old(faults) && !lowDisk);
          MayFailAfterRound(s0.settings.notifiers, b0, polls, n, claims - errors, alerts.faults - errors);
          if polls[n].after >= end {
            w := WindowOver;
          } else if polls[n].cancelled {
            w := SleepCancelled;
          }
          n := n + 1;
        }
      }
      if w == Died {
        AllUnrolled(polls, end);
      }
      AllFollowedLess(codec, states, done, TheLedger(runId), faults == old(faults) && !lowDisk,
                      faults == old(faults) && Roomy(done));
    }

    /** The run row, then the day row; a day that is finished stays as it is. */
    method OpenRun(id: string, end: int, resumed: bool) returns (ok: bool)
      requires Valid()
      modifies this
      ensures Valid() && Grown() && rejected == old(rejected) && tame == old(tame)
      ensures ok ==> id !in old(runs) && faults == old(faults) && Now() == old(Now()).(
        runs := old(runs)[id := RunRow(today, end, Running, resumed)],
        days := Started(old(days), today))
      ensures !ok ==> (id in old(runs) || faults > old(faults)) && Now() == old(Now()).(runs := runs)
      ensures !ok && runs != old(runs) ==>
        id !in old(runs) && runs == old(runs)[id := RunRow(today, end, Running, resumed)]
    {
      hide Valid, IsRun, Inv, Guard, Apply;
      if id in runs {
        return false;
      }
      ok := InsertRun(id, RunRow(today, end, Running, resumed));
      if ok {
        ok := UpsertDayStart(today);
      }
    }

    /** Marks the run finished and finalizes the day at once. */
    method CloseRun(id: string) returns (e: Ending)
      requires Valid() && id in runs
      modifies this
      ensures Valid() && Grown() && rejected == old(rejected)
      ensures e == Unclosed || e.Closed?
      ensures Now() == old(Now()).(runs := runs, days := days, files := files, images := images)
      ensures OnlyPublished(old(files), files, {today})
      ensures e == Unclosed ==> Now() == old(Now()) && faults > old(faults)
      ensures e.Closed? ==> runs == old(runs)[id := old(runs[id]).(status := Finished)]
      ensures e.Closed? ==> OnlyDay(old(Now()).(runs := runs), Now(), today)
      ensures days.Keys == old(days.Keys)
      ensures e.Closed? && !e.ok ==> days == old(days)
      ensures e.Closed? && e.ok ==> sky(today).Some? && Chosen(Now(), RulesFor(Now(), today), e.pub)
      ensures e.Closed? && faults == old(faults) ==> (!e.ok <==> Blocked(old(Now()), today, e.pub))
      ensures e.Closed? && faults == old(faults) && !e.ok ==> IsBlocked(Now(), today)
      ensures e.Closed? && e.ok && faults == old(faults) && today in days ==>
        Settled(Now(), today, days[today])
      ensures InProgress(old(days), today) ==> tame == old(tame)
    {
      hide Valid, IsRun, Inv, Guard, Apply, Chosen, Renders, Shows, Settled, Rendition, PixelRect, BestOfDay;
      hide WhyNothing, Outputs, OnlyWrote, CropOrFull, CameraCrop, Publisher, IsBest, HasRunning;
      OnlyPublishedNothing(files, {today});
      var ok := SetRunStatus(id, Finished);
      if !ok {
        return Unclosed;
      }
      ghost var s := Now();
      var r, pub := Finalize(today);
      ok := r == Done;
      if ok {
        ChoiceIgnoresDays(s, Now(), RulesFor(s, today), pub);
      }
      if faults == old(faults) {
        BlockedIgnoresRuns(old(Now()), s, today, pub);
        PathsAreUnique();
        if !ok {
          assert Blocked(old(Now()), today, pub);
          StillBlocked(Now(), old(Now()), today);
        } else if today in days {
          SettledStays(s, Now(), today, days[today]);
        }
      }
      e := Closed(ok, pub);
    }

    /** Opens the camera states and polls. */
    method Film(id: string, end: int, cams: seq<string>, polls: seq<Poll>)
      returns (w: Watched, states: seq<CamState>)
      requires Valid() && alerts.Valid() && id in runs
      requires forall i :: 0 <= i < |cams| ==> cams[i] in cameras
      modifies this, alerts
      ensures Filming(old(Now()), old(alerts.Now()), id, SetOf(cams)) && old(Stamp()).Leads(Stamp())
      ensures Observed(codec, states, cams, Rounds(polls, end), TheLedger(id), old(Now()),
                       faults == old(faults) && Roomy(Rounds(polls, end)))
      ensures fresh(states) && fresh(Latches(states))
      ensures OnlyNews(codec, states, Rounds(polls, end), id, old(Now()), Now())
      ensures Reporting(states, old(alerts.Now()), alerts.Now())
      ensures alerts.faults == old(alerts.faults) && SoundInputs(old(settings.notifiers), old(alerts.Now()), polls) ==>
        Announced(states, alerts.Now(), today)
      ensures w == Ended(polls, end)
    {
      FilmingStarts(id, SetOf(cams));
      hide Filming, Announced, ClaimsMayFail, AllFollowed, Rounds, Roomy, Ended, AnyFired, Separate, Reporting;
      hide Valid, Opened, Alerts.AlertStore.Valid, SetOf, Captured, Alerts.ClaimedOnce, IsPreviousSHA, Followed;
      hide CamState.Exact, TheLedger, SoundInputs, Latches, Mark.Leads, OnlyNews;
      ghost var ids, b0 := settings.notifiers, alerts.Now();
      states := OpenStates(cams, id);
      NothingReportedYet(states, alerts.Now(), today);
      w := Watch(id, end, states, polls, SetOf(cams));
      SoundInputsCannotFail(ids, b0, polls);
    }

    /** What the end of run id leaves.  clean says that no write failed. */
    ghost predicate RunEnded(s: State, t: State, id: string, e: Ending, clean: bool)
      requires id in s.runs
    {
      && t == s.(runs := t.runs, days := t.days, files := t.files, images := t.images)
      && OnlyPublished(s.files, t.files, {s.today}) && t.days.Keys == s.days.Keys
      && (t.runs == s.runs[id := s.runs[id].(status := StatusAfter(e))]
        || (e.Cancelled? && !clean && t.runs == s.runs))
      && (!e.Closed? || !e.ok ==> t.days == s.days)
      && (e.Closed? ==> OnlyDay(s.(runs := t.runs), t, s.today))
      && (e.Closed? && e.ok ==> sky(s.today).Some? && Chosen(t, RulesFor(t, s.today), e.pub))
      && (e.Closed? && e.ok && clean && s.today in t.days ==> Settled(t, s.today, t.days[s.today]))
      && (e.Closed? && !e.ok && clean ==> IsBlocked(t, s.today))
      && (e == Unclosed ==> !clean)
    }

    /** What follows the polling loop; a dead process does nothing more. */
    method EndRun(id: string, w: Watched) returns (e: Ending)
      requires Valid() && id in runs && runs[id].status == Running
      modifies this
      ensures Valid() && Grown() && rejected == old(rejected)
      ensures match w
        case Died => e == Killed
        case SleepCancelled => e == Cancelled
        case WindowOver => e == Unclosed || e.Closed?
      ensures RunEnded(old(Now()), Now(), id, e, faults == old(faults))
      ensures InProgress(old(days), today) ==> tame == old(tame)
    {
      hide Valid, IsRun, Inv, Guard, Apply, Chosen, OnlyDay, Blocked, Settled;
      OnlyPublishedNothing(files, {today});
      e := if w == Died then Killed else Cancelled;
      if w == SleepCancelled {
        var ok := SetRunStatus(id, Interrupted);
      } else if w == WindowOver {
        e := CloseRun(id);
      }
    }

    /** The polling and the end of an opened run.  filmed is the state between the two. */
    method Roll(id: string, end: int, cams: seq<string>, polls: seq<Poll>)
      returns (e: Ending, states: seq<CamState>, ghost filmed: State)
      requires Valid() && alerts.Valid() && id in runs && runs[id].status == Running
      requires forall i :: 0 <= i < |cams| ==> cams[i] in cameras
      modifies this, alerts
      ensures Valid() && Grown() && rejected == old(rejected) && alerts.Valid() && alerts.Grown()
      ensures InProgress(old(days), today) ==> tame == old(tame)
      ensures filmed == old(Now()).(frames := filmed.frames, files := filmed.files)
      ensures Captured(old(Now()), filmed, id, SetOf(cams))
      ensures RunEnded(filmed, Now(), id, e, faults == old(faults))
      ensures OnlyNews(codec, states, Rounds(polls, end), id, old(Now()), filmed)
      ensures match e
        case Killed => Ended(polls, end) == Died
        case Cancelled => Ended(polls, end) == SleepCancelled
        case _ => (e == Unclosed || e.Closed?) && Ended(polls, end) == WindowOver
      ensures Observed(codec, states, cams, Rounds(polls, end), TheLedger(id), old(Now()),
                       faults == old(faults) && Roomy(Rounds(polls, end)))
      ensures Alerts.ClaimedOnce(old(alerts.Now()), alerts.Now(), Alerts.Go(today), settings.notifiers)
      ensures Reporting(states, old(alerts.Now()), alerts.Now())
      ensures alerts.faults == old(alerts.faults) && SoundInputs(settings.notifiers, old(alerts.Now()), polls) ==>
        Announced(states, alerts.Now(), today)
    {
      hide Valid, Filming, Announced, Rounds, Roomy, Ended, Reporting, AllFollowed, Opened, SetOf, Captured;
      hide Alerts.AlertStore.Valid, Alerts.ClaimedOnce, SoundInputs, InProgress, RunEnded, IsRun, Inv;
      hide OnlyNews;
      ghost var s, b0 := Now(), alerts.Now();
      var w;
      w, states := Film(id, end, cams, polls);
      FilmingKeeps(s, b0, id, SetOf(cams));
      filmed := Now();
      ghost var clean, l, writes := faults == old(faults) && Roomy(Rounds(polls, end)), TheLedger(id), faults;
      e := EndRun(id, w);
      RunEndedKeeps(filmed, Now(), id, e, faults == writes, faults == old(faults));
      ObservedFrom(codec, states, cams, Rounds(polls, end), l, s, s, clean,
                   faults == old(faults) && Roomy(Rounds(polls, end)));
    }

    lemma RunEndedKeeps(s: State, t: State, id: string, e: Ending, clean: bool, later: bool)
      requires id in s.runs && RunEnded(s, t, id, e, clean) && (later ==> clean)
      ensures RunEnded(s, t, id, e, later)
      ensures t == s.(runs := t.runs, days := t.days, files := t.files, images := t.images)
    {
      hide OnlyPublished, OnlyDay, Chosen, Settled, IsBlocked;
    }

    lemma BlockedIgnoresRuns(s: State, t: State, date: Date, pub: Option<(string, FrameRow)>)
      requires t == s.(runs := t.runs)
      ensures Blocked(s, date, pub) == Blocked(t, date, pub)
    {
      hide Chosen, Renders;
      if sky(date).Some? {
        ChoiceIgnoresDays(s, t, RulesFor(s, date), pub);
      }
    }

    /** What a window leaves on disk.  clean says that no write failed. */
    ghost predicate Windowed(s: State, t: State, id: string, run: RunRow, cams: Option<seq<string>>,
                             e: Ending, clean: bool)
    {
      && t == s.(runs := t.runs, days := t.days, frames := t.frames, files := t.files, images := t.images)
      && StoredByRun(s, t, id, cams)
      && (e.Refused? ==>
        && (t == s || (id !in s.runs && !clean && t == s.(runs := s.runs[id := run])))
        && (clean ==> id in s.runs))
      && (!e.Refused? ==>
        && id !in s.runs && id in t.runs && t.runs == s.runs[id := t.runs[id]]
        && (t.runs[id] == run.(status := StatusAfter(e)) || (e.Cancelled? && !clean && t.runs[id] == run))
        && (!e.Closed? || !e.ok ==> t.days == Started(s.days, s.today)))
      && (e.Closed? && e.ok ==>
        && sky(s.today).Some? && Chosen(t, RulesFor(t, s.today), e.pub)
        && t.days.Keys == s.days.Keys + {s.today}
        && (forall d :: d in s.days && d != s.today ==> t.days[d] == s.days[d])
        && (clean ==> Settled(t, s.today, t.days[s.today])))
      && (e.Closed? && !e.ok && clean ==> IsBlocked(t, s.today))
      && (e == Unclosed ==> !clean)
      && (!e.Refused? ==> match t.runs[id].status
          case Finished => e.Closed?
          case Interrupted => e.Cancelled?
          case Running => e.Unfetched? || e.Killed? || !clean)
    }

    /** From the states after the run was opened (s1) and after the last frame (s2). */
    lemma WindowEnds(s: State, s1: State, s2: State, t: State, id: string, run: RunRow,
                     cams: Option<seq<string>>, e: Ending, clean: bool)
      requires run.status == Running && !e.Refused? && id !in s.runs
      requires s1 == s.(runs := s.runs[id := run], days := Started(s.days, s.today))
      requires s2 == s1.(frames := s2.frames, files := s2.files) && StoredByRun(s, s2, id, cams)
      requires RunEnded(s2, t, id, e, clean)
      ensures Windowed(s, t, id, run, cams, e, clean)
    {
      StoredMore(s, s2, t, id, cams);
      StartedTouchesOne(s.days, s.today);
      hide StoredByRun, OnlyPublished, Chosen, Started, IsBlocked;
    }

    /** One capture window of today. */
    method RunWindow(id: string, end: int, resumed: bool, cams: Option<seq<string>>, polls: seq<Poll>)
      returns (e: Ending, states: seq<CamState>)
      requires Valid() && alerts.Valid()
      requires cams.Some? ==> forall i :: 0 <= i < |cams.value| ==> cams.value[i] in cameras
      modifies this, alerts
      ensures Valid() && Grown() && rejected == old(rejected)
      ensures alerts.Valid() && alerts.Grown()
      ensures today == old(today) && cameras == old(cameras) && settings == old(settings)
      ensures Open(old(days), today) ==> tame == old(tame)
      ensures Windowed(old(Now()), Now(), id, RunRow(today, end, Running, resumed), cams, e,
                       faults == old(faults))
      ensures match e
        case Refused => true
        case Unfetched => cams.None?
        case Killed => Ended(polls, end) == Died
        case Cancelled => Ended(polls, end) == SleepCancelled
        case _ => Ended(polls, end) == WindowOver
      ensures !e.Refused? && !e.Unfetched? ==>
        && cams.Some?
        && Observed(codec, states, cams.value, Rounds(polls, end), TheLedger(id), old(Now()),
                    faults == old(faults) && Roomy(Rounds(polls, end)))
        && OnlyNews(codec, states, Rounds(polls, end), id, old(Now()), Now())
      ensures Alerts.ClaimedOnce(old(alerts.Now()), alerts.Now(), Alerts.Go(today), settings.notifiers)
      ensures Reporting(states, old(alerts.Now()), alerts.Now())
      ensures alerts.faults == old(alerts.faults) && SoundInputs(settings.notifiers, old(alerts.Now()), polls) ==>
        Announced(states, alerts.Now(), today)
    {
      hide Valid, IsRun, Inv, Guard, Apply, Captured, Chosen, Separate, AnyFired, Reporting;
      hide Alerts.ClaimedOnce, Blocked, Started, Ended, OnlyPublished, StoredByRun, Windowed, OnlyDay;
      hide Observed, SetOf, Rounds, Roomy, SoundInputs, Filming, Announced, OnlyNews;
      hide Alerts.IsRun, Alerts.Inv, Alerts.HasKey, InProgress, Open, Alerts.AlertStore.Valid;
      states := [];
      NoStates();
      NothingReportedYet([], alerts.Now(), today);
      Alerts.ClaimedNothing(alerts.Now(), Alerts.Go(today), settings.notifiers);
      ghost var s0, run := Now(), RunRow(today, end, Running, resumed);
      StartedTouchesOne(s0.days, today);
      var ok := OpenRun(id, end, resumed);
      ghost var s1 := Now();
      StoredNothing(s0, s1, id, cams);
      OnlyPublishedNothing(files, {today});
      if !ok {
        WindowRefused(s0, s1, id, run, cams, faults == old(faults));
        return Refused, states;
      }
      if cams.None? {
        WindowEnds(s0, s1, s1, s1, id, run, cams, Unfetched, faults == old(faults));
        return Unfetched, states;
      }
      ghost var filmed;
      e, states, filmed := Roll(id, end, cams.value, polls);
      StoredByCapture(s0, s1, filmed, id, cams);
      ghost var kept := faults == old(faults) && Roomy(Rounds(polls, end));
      ObservedFrom(codec, states, cams.value, Rounds(polls, end), TheLedger(id), s1, s0, kept, kept);
      WindowEnds(s0, s1, filmed, Now(), id, run, cams, e, faults == old(faults));
      OnlyNewsToTheEnd(s0, s1, filmed, Now(), id, e, states, Rounds(polls, end), faults == old(faults));
    }

    lemma OnlyNewsToTheEnd(s: State, s1: State, s2: State, t: State, id: string, e: Ending, states: seq<CamState>,
                           rounds: seq<Poll>, clean: bool)
      requires s1.frames == s.frames && s1.files == s.files && s1.today == s.today && s2.today == s.today
      requires OnlyNews(codec, states, rounds, id, s1, s2)
      requires id in s2.runs && RunEnded(s2, t, id, e, clean)
      ensures OnlyNews(codec, states, rounds, id, s, t)
    {
      hide FileIsNews, RowIsNews, OnlyDay, Chosen, Settled, IsBlocked;
    }

    lemma WindowRefused(s: State, t: State, id: string, run: RunRow, cams: Option<seq<string>>, clean: bool)
      requires t == s.(runs := t.runs) && (clean ==> id in s.runs)
      requires t.runs == s.runs || (id !in s.runs && t.runs == s.runs[id := run])
      ensures Windowed(s, t, id, run, cams, Refused, clean)
    {
    }

    // ---- admin steps, ticks and whole process runs ----

    /** What an admin step does.  clean says that no write failed. */
    ghost predicate Edited(s: State, t: State, edit: Edit, clean: bool) {
      match edit
      case NoEdit => t == s
      case SaveCamera(id, camera) => t == s.(cameras := s.cameras[id := camera]) || (!clean && t == s)
      case RemoveCamera(id) =>
        || (!clean && t == s)
        || (t == Without(s, id).(files := t.files) && t.files.Keys <= s.files.Keys
          && (clean ==> t.files.Keys == s.files.Keys - set r | r in s.frames && r.cam == id :: r.path))
      case SaveSettings(floor, interval, n) =>
        || (t == s && (interval < 15 || n < 1 || !clean))
        || (interval >= 15 && n >= 1
          && t == s.(settings := s.settings.(floor := floor, interval := interval), retentionDays := n))
      case SaveNotifiers(ids) => t == s.(settings := s.settings.(notifiers := ids)) || (!clean && t == s)
      case Recrop(date) =>
        && t == s.(days := t.days, files := t.files, images := t.images)
        && ((t.days == s.days && (clean ==> t == s && !Recroppable(s, date)))
          || (Recroppable(s, date) && Recropped(s, t, date)))
      case Refinalize(date) =>
        && OnlyDay(s, t, date)
        && (clean && date in t.days ==>
          Settled(s, date, t.days[date]) || (t.days == s.days && IsBlocked(s, date)))
    }

    /** One admin step.  Only a refinalization can overwrite a finished day. */
    method Admin(edit: Edit)
      requires Valid()
      modifies this
      ensures Valid() && Grown() && rejected == old(rejected)
      ensures Edited(old(Now()), Now(), edit, faults == old(faults))
      ensures today == old(today) && runs == old(runs)
      ensures !edit.Refinalize? || InProgress(old(days), edit.date) ==> tame == old(tame)
    {
      hide Valid, IsRun, Inv, Guard, Apply, Recropped, Recroppable, Settled, Blocked, Shows, Chosen, Publisher;
      match edit
      case NoEdit =>
      case SaveCamera(id, camera) =>
        var ok := SaveCamera(id, camera);
      case RemoveCamera(id) =>
        var ok := CameraDelete(id);
      case SaveSettings(floor, interval, n) =>
        if interval >= 15 && n >= 1 {
          var ok := WriteSettings(settings.(floor := floor, interval := interval), n);
        }
      case SaveNotifiers(ids) =>
        var ok := WriteSettings(settings.(notifiers := ids), retentionDays);
      case Recrop(date) =>
        var r := RecropDay(date);
      case Refinalize(date) =>
        var r, pub := Finalize(date);
        assert Blocked(old(Now()), date, pub) ==> IsBlocked(old(Now()), date);
    }

    /** The environment moves to this local date. */
    method Advance(date: Date)
      requires Valid() && date >= today
      modifies this
      ensures Valid() && Grown() && rejected == old(rejected) && faults == old(faults) && tame == old(tame)
      ensures Now() == old(Now()).(today := date)
    {
      hide IsRun, Inv;
      today := date;
      Log(Action.Advance(date));
    }

    /** A missed day lies in the past. */
    lemma TodayIsNotMissed()
      requires Valid()
      ensures today in days ==> days[today].status != Missed
    {
      GoodNow();
    }

    /** What a wake-up does once retention is done, by the clock and the status of the day.  clean
        says that no write failed. */
    ghost predicate Acted(s: State, t: State, w: Wake, r: Ticked, clean: bool)
      requires sky(s.today).Some?
    {
      var (start, end) := (sky(s.today).value.start, sky(s.today).value.end);
      var status := if s.today in s.days then Some(s.days[s.today].status) else None;
      if start <= w.now < end then
        if status in {Some(Complete), Some(Failed)} then r == Idle && t == s
        else r.Ran? && Windowed(s, t, w.id, RunRow(s.today, end, Running, status == Some(Capturing)),
                                w.CaptureSet(s.cameras), r.ending, clean)
      else if w.now >= end && status == Some(Capturing) then
        r.Finalized? && OnlyDay(s, t, s.today) && (!r.ok ==> t.days == s.days)
        && (clean ==> if r.ok then Settled(s, s.today, t.days[s.today]) else IsBlocked(s, s.today))
      else r == Idle && t == s
    }

    /** The window or the late finalization of today. */
    method Act(t: Wake) returns (r: Ticked)
      requires Valid() && alerts.Valid() && sky(today).Some?
      modifies this, alerts
      ensures Valid() && Grown() && rejected == old(rejected) && tame == old(tame)
      ensures alerts.Valid() && alerts.Grown()
      ensures today == old(today) && cameras == old(cameras)
      ensures Acted(old(Now()), Now(), t, r, faults == old(faults))
    {
      hide Valid, IsRun, Inv, Guard, Apply, Windowed, Reporting, Announced, Ended, SoundInputs, Settled;
      hide Chosen, Blocked, Alerts.IsRun, Alerts.Inv, Alerts.ClaimedOnce, OnlyDay, Shows, Observed;
      var w := sky(today).value;
      if w.start <= t.now < w.end {
        if today in days && days[today].status in {Complete, Failed} {
          return Idle;
        }
        var resumed := today in days && days[today].status == Capturing;
        TodayIsNotMissed();
        var ending, _ := RunWindow(t.id, w.end, resumed, t.CaptureSet(cameras), t.polls);
        return Ran(ending);
      }
      if t.now >= w.end && today in days && days[today].status == Capturing {
        var outcome, pub := Finalize(today);
        assert Blocked(old(Now()), today, pub) ==> IsBlocked(old(Now()), today);
        return Finalized(outcome == Done);
      }
      r := Idle;
    }

    /** What a wake-up does to state s: mid is the state after retention.  swept says that no write
        failed until then, clean that none did after it. */
    ghost predicate Woken(s: State, mid: State, t: State, w: Wake, r: Ticked, swept: bool, clean: bool) {
      if sky(s.today).None? then r == Unplanned && mid == s && t == s
      else
        && mid == s.(frames := mid.frames, retentionLast := mid.retentionLast)
        && (if w.retentionDue && s.retentionLast != Some(s.today) then
              swept ==>
                && mid.retentionLast == Some(s.today)
                && mid.frames == set r | r in s.frames && r.date >= s.today - s.retentionDays
            else mid == s)
        && Acted(mid, t, w, r, clean)
    }

    /** One wake-up.  failures is the number of failed writes until mid. */
    method Tick(t: Wake) returns (r: Ticked, ghost mid: State, ghost failures: nat)
      requires Valid() && alerts.Valid() && t.today == today
      modifies this, alerts
      ensures Valid() && Grown() && rejected == old(rejected) && tame == old(tame)
      ensures alerts.Valid() && alerts.Grown()
      ensures today == old(today) && cameras == old(cameras)
      ensures old(faults) <= failures <= faults
      ensures Woken(old(Now()), mid, Now(), t, r, failures == old(faults), faults == failures)
    {
      hide Valid, IsRun, Inv, Guard, Apply, Acted, Alerts.AlertStore.Valid;
      mid, failures := Now(), faults;
      if sky(today).None? {
        return Unplanned, mid, failures;
      }
      if t.retentionDue {
        RetentionIfDue();
      }
      mid, failures := Now(), faults;
      r := Act(t);
    }

    /** An admin step and the wake-up after it, from state s. */
    ghost predicate Lapped(s: State, w: Wake, lap: Lap, clean: bool) {
      && Edited(s, lap.edited, w.edit, clean)
      && Woken(lap.edited.(today := w.today), lap.mid, lap.last, w, lap.result, clean, clean)
    }

    /** The state these laps have reached from s. */
    function Reached(s: State, laps: seq<Lap>): State {
      if laps == [] then s else laps[|laps| - 1].last
    }

    /** One lap after another, from state s. */
    ghost predicate Course(s: State, wakes: seq<Wake>, laps: seq<Lap>, clean: bool)
      requires |laps| <= |wakes|
    {
      forall k :: 0 <= k < |laps| ==> Lapped(Reached(s, laps[..k]), wakes[k], laps[k], clean)
    }

    lemma EditedLess(s: State, t: State, edit: Edit, clean: bool, later: bool)
      requires Edited(s, t, edit, clean) && (later ==> clean)
      ensures Edited(s, t, edit, later)
    {
      hide Recropped, Recroppable, Settled, IsBlocked, OnlyDay;
    }

    lemma WokenLess(s: State, mid: State, t: State, w: Wake, r: Ticked, swept: bool, clean: bool, later: bool)
      requires Woken(s, mid, t, w, r, swept, clean) && (later ==> swept && clean)
      ensures Woken(s, mid, t, w, r, later, later)
    {
      hide Chosen, Settled, OnlyDay, StoredByRun;
    }

    lemma LappedLess(s: State, w: Wake, lap: Lap, clean: bool, later: bool)
      requires Lapped(s, w, lap, clean) && (later ==> clean)
      ensures Lapped(s, w, lap, later)
    {
      hide Edited, Woken;
      EditedLess(s, lap.edited, w.edit, clean, later);
      WokenLess(lap.edited.(today := w.today), lap.mid, lap.last, w, lap.result, clean, clean, later);
    }

    lemma CourseLess(s: State, wakes: seq<Wake>, laps: seq<Lap>, clean: bool, later: bool)
      requires |laps| <= |wakes| && Course(s, wakes, laps, clean) && (later ==> clean)
      ensures Course(s, wakes, laps, later)
    {
      hide Lapped;
      forall k | 0 <= k < |laps|
        ensures Lapped(Reached(s, laps[..k]), wakes[k], laps[k], later)
      {
        LappedLess(Reached(s, laps[..k]), wakes[k], laps[k], clean, later);
      }
    }

    /** An admin step, the passing of time, and a wake-up. */
    method Live(w: Wake) returns (ghost lap: Lap)
      requires Valid() && alerts.Valid() && today <= w.today
      modifies this, alerts
      ensures Valid() && Grown() && rejected == old(rejected) && alerts.Valid() && alerts.Grown()
      ensures !w.edit.Refinalize? ==> tame == old(tame)
      ensures today == w.today && lap.last == Now() && Lapped(old(Now()), w, lap, faults == old(faults))
    {
      hide Valid, IsRun, Inv, Guard, Apply, Edited, Woken, Alerts.IsRun, Alerts.Inv, InProgress;
      ghost var s, f := Now(), faults;
      Admin(w.edit);
      ghost var edited, f1 := Now(), faults;
      Advance(w.today);
      ghost var r, mid, f2 := Idle, Now(), faults;
      var result;
      result, mid, f2 := Tick(w);
      EditedLess(s, edited, w.edit, f1 == f, faults == f);
      WokenLess(edited.(today := w.today), mid, Now(), w, result, f2 == f1, faults == f2, faults == f);
      lap := Lap(edited, mid, Now(), result);
    }

    /** A whole process life: the startup sequence, then any number of admin steps and wake-ups, on
        dates that never go backward.  started is the state after the startup. */
    method Run(now: int, wakes: seq<Wake>)
      returns (ok: bool, ghost started: State, ghost unfinished: set<Date>, ghost laps: seq<Lap>)
      requires Valid() && alerts.Valid()
      requires forall k :: 0 <= k < |wakes| ==> today <= wakes[k].today
      requires forall j, k :: 0 <= j < k < |wakes| ==> wakes[j].today <= wakes[k].today
      modifies this, alerts
      ensures Valid() && Grown() && rejected == old(rejected)
      ensures (forall k :: 0 <= k < |wakes| ==> !wakes[k].edit.Refinalize?) ==> tame == old(tame)
      ensures alerts.Valid() && alerts.Grown()
      ensures !ok ==> faults > old(faults)
      ensures StartedUp(old(Now()), started, now, unfinished, faults == old(faults))
      ensures ok ==>
        && |laps| == |wakes| && Course(started, wakes, laps, faults == old(faults))
        && Now() == Reached(started, laps)
    {
      hide Valid, IsRun, Inv, Guard, Apply, RetentionMet, IsBlocked, Course, Lapped;
      hide Alerts.IsRun, Alerts.Inv, Backfills, Resumes, Trims;
      var err, left := Reconcile(now);
      started, unfinished, laps := Now(), left, [];
      if err {
        return false, started, unfinished, laps;
      }
      NoLaps(started, wakes, faults == old(faults));
      for k := 0 to |wakes|
        invariant Valid() && Grown() && rejected == old(rejected)
        invariant (forall j :: 0 <= j < k ==> !wakes[j].edit.Refinalize?) ==> tame == old(tame)
        invariant alerts.Valid() && alerts.Grown()
        invariant |laps| == k && Course(started, wakes, laps, faults == old(faults))
        invariant Now() == Reached(started, laps)
        invariant forall j :: k <= j < |wakes| ==> today <= wakes[j].today
        invariant StartedUp(old(Now()), started, now, unfinished, faults == old(faults))
      {
        ghost var s, writes, clean := Now(), faults, faults == old(faults);
        ghost var lap := Live(wakes[k]);
        StartedUpLess(old(Now()), started, now, unfinished, clean, faults == old(faults));
        OneMoreLap(started, wakes, laps, s, lap, clean, faults == writes, faults == old(faults));
        laps := laps + [lap];
      }
      ok := true;
    }

    lemma NoLaps(s: State, wakes: seq<Wake>, clean: bool)
      ensures Course(s, wakes, [], clean)
    {
    }

    lemma OneMoreLap(s: State, wakes: seq<Wake>, laps: seq<Lap>, from: State, lap: Lap, before: bool, clean: bool,
                     later: bool)
      requires |laps| < |wakes| && Course(s, wakes, laps, before) && Lapped(from, wakes[|laps|], lap, clean)
      requires from == Reached(s, laps) && (later ==> before && clean)
      ensures Course(s, wakes, laps + [lap], later)
    {
      hide Lapped;
      CourseLess(s, wakes, laps, before, later);
      var more := laps + [lap];
      assert more[..|laps|] == laps && forall k :: 0 <= k < |laps| ==> more[..k] == laps[..k];
      LappedLess(from, wakes[|laps|], lap, clean, later);
    }

    /** In a history that overwrote no finished day, what was finished in any earlier state still
        has its status. */
    lemma FinishedSince(i: nat)
      requires Valid() && tame && i < |log|
      ensures StillFinished(log[i], Now())
    {
      FinishedDaysStay(codec, log, acts, i, |log| - 1);
    }

    /** Runs of a date that are not overdue stay as they are. */
    lemma InterruptsKeepTheRest(before: map<string, RunRow>, now: int, date: Date)
      requires forall id :: id in before && before[id].date == date ==> before[id].plannedEnd >= now
      ensures var after := AfterInterrupts(before, now);
        forall id :: id in before && before[id].date == date ==> after[id] == before[id]
      ensures AfterInterrupts(before, now).Keys == before.Keys
      ensures forall id :: id in before ==> AfterInterrupts(before, now)[id].date == before[id].date
    {
    }

    /** A restart inside the window of a day that was being captured.  After a hard crash the run
        is still marked running, and the window resumes; after a cancelled sleep it is not, so
        startup finalizes the day although its window is still open. */
    method Restart(t: Wake) returns (r: Ticked)
      requires Valid() && alerts.Valid() && t.today == today
      requires sky(today).Some? && sky(today).value.start <= t.now < sky(today).value.end
      requires today in days && days[today].status == Capturing
      requires forall id :: id in runs && runs[id].date == today ==> runs[id].plannedEnd >= t.now
      modifies this, alerts
      ensures Valid() && Grown() && rejected == old(rejected) && tame == old(tame)
      ensures alerts.Valid() && alerts.Grown()
      ensures faults == old(faults) && HasRunning(old(runs), today) ==>
        r.Ran? && (t.id !in old(runs) ==> t.id in runs && runs[t.id].resumed)
      ensures faults == old(faults) && !HasRunning(old(runs), today) && r == Idle ==>
        today in days && Settled(old(Now()), today, days[today])
      ensures faults == old(faults) && !HasRunning(old(runs), today) && r != Idle ==>
        r.Ran? && IsBlocked(old(Now()), today)
    {
      hide Valid, IsRun, Inv, Guard, Apply, OnlyDay, RetentionMet, IsBlocked;
      hide Alerts.IsRun, Alerts.Inv;
      ghost var before, running := runs, HasRunning(runs, today);
      var err, unfinished := Reconcile(t.now);
      if err {
        return Unplanned;
      }
      if faults == old(faults) {
        InterruptsKeepTheRest(before, t.now, today);
        assert HasRunning(runs, today) == running;
      }
      ghost var mid, failures;
      r, mid, failures := Tick(t);
    }
  }
}
