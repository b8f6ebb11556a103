/** Concrete runs: a day that is published, and one in which retention comes too late. */
module Witnesses {
  import opened Wrappers
  import opened Score
  import opened Durable
  import opened Publication
  import Engine
  import Trigger

  // ---- runs, one action at a time ----

  /** A process lifetime that began well and led to s. */
  ghost predicate LedTo(c: Codec, life: Life, s: State) {
    && life.log != [] && life.Last() == s && IsRun(c, life.log, life.acts)
    && Inv(c, life.log[0]) && RetentionOk(life.log[0])
  }

  lemma Fresh(c: Codec, today: Date, n: nat, settings: Settings) returns (life: Life, s: State)
    ensures LedTo(c, life, s) && s == FreshInstall(today, None, n, settings)
  {
    s := FreshInstall(today, None, n, settings);
    FreshInstallIsGood(c, today, None, n, settings);
    life := Life([s], []);
  }

  lemma Do(c: Codec, life: Life, s: State, a: Action) returns (more: Life, t: State)
    requires LedTo(c, life, s) && Guard(c, a, s)
    ensures LedTo(c, more, t) && t == Apply(a, s)
  {
    hide Guard, Apply, Inv, RetentionOk;
    t := Apply(a, s);
    more := Life(life.log + [t], life.acts + [a]);
  }

  /** What was proved about lifetimes holds of these. */
  lemma LifeIsPast(c: Codec, life: Life, s: State)
    requires LedTo(c, life, s)
    ensures Past(c, [life], s) && Inv(c, s)
  {
    hide Guard, Apply, Inv, RetentionOk;
    RunKeepsInv(c, life.log, life.acts, |life.log| - 1);
  }

  // ---- one frame ----

  const CAMERA := Camera(Primary, 0, true, None, None, false, Trigger.Params(12.0, 1.0, 1.0, 1.0))
  const SETTINGS := Settings(0.0, 15, [])
  const PHOTO := FrameFile("west", 0, 0, 0)

  function RowOf(c: Codec, b: Bytes): FrameRow {
    FrameRow("run", "west", 0, 0, Dims(c, b).0, Dims(c, b).1, c.sha(b), Some(50.0), Some(20.0), true, PHOTO)
  }

  /** Day 0 with one camera, one run and one frame of it. */
  lemma OneFrame(c: Codec, b: Bytes) returns (life: Life, s: State)
    requires c.decodes(b)
    ensures LedTo(c, life, s) && s == FreshInstall(0, None, 5, SETTINGS).(
      cameras := map["west" := CAMERA], runs := map["run" := RunRow(0, 1, Running, false)],
      files := map[PHOTO := Image(b)], frames := {RowOf(c, b)})
  {
    hide LedTo;
    life, s := Fresh(c, 0, 5, SETTINGS);
    life, s := Do(c, life, s, SetCamera("west", CAMERA));
    life, s := Do(c, life, s, InsertRun("run", RunRow(0, 1, Running, false)));
    life, s := Do(c, life, s, WriteFile(PHOTO, Image(b)));
    life, s := Do(c, life, s, InsertFrame(RowOf(c, b)));
  }

  // ---- rows past the retention cutoff ----

  /** Retention is recorded with a period of five days and shortened to one the same day: a restart
      on that day finds rows past the cutoff and, by the contract of Reconcile, leaves them. */
  lemma ShortenedTooLate(c: Codec, b: Bytes) returns (life: Life, s: State)
    requires c.decodes(b)
    ensures LedTo(c, life, s) && Past(c, [life], s)
    ensures s.retentionLast == Some(s.today) && exists r :: r in s.frames && r.date < s.today - s.retentionDays
  {
    hide LedTo;
    life, s := OneFrame(c, b);
    life, s := Do(c, life, s, Advance(3));
    life, s := Do(c, life, s, SetRetentionLast(3));
    life, s := Do(c, life, s, SetSettings(SETTINGS, 1));
    assert RowOf(c, b) in s.frames;
    LifeIsPast(c, life, s);
  }

  // ---- a published day ----

  /** The names of the frame b and of its rendering pub. */
  function OrigOf(c: Codec, b: Bytes): Path { OrigFile(0, NameHash(c, b)) }

  function BestOf(c: Codec, pub: Bytes): Path { BestFile(0, NameHash(c, pub)) }

  function ThumbOf(c: Codec, pub: Bytes, width: int): Path { ThumbFile(0, NameHash(c, pub), width) }

  function SidecarOf(c: Codec, b: Bytes, pub: Bytes): Sidecar {
    Sidecar(0, 50.0, "west", 0, NameHash(c, pub), NameHash(c, b), OrigOf(c, b), None)
  }

  function RowShowing(c: Codec, pub: Bytes): DayRow {
    CompleteRow(0, Some(50.0), "west", 0, NameHash(c, pub))
  }

  /** pub is the full frame b re-encoded, and it has thumbnails. */
  predicate Publishable(c: Codec, b: Bytes, pub: Bytes) {
    && c.decodes(b) && c.encode(b, None) == Some(pub)
    && c.thumb(pub, 480).Some? && c.thumb(pub, 240).Some?
  }

  lemma TwoImages(c: Codec, b: Bytes, pub: Bytes) returns (life: Life, s: State)
    requires Publishable(c, b, pub)
    ensures LedTo(c, life, s) && s.today == 0 && s.images == {b, pub}
    ensures s.cameras == map["west" := CAMERA] && s.days == map[0 := BlankDay(Capturing, "")]
    ensures s.files == map[PHOTO := Image(b), OrigOf(c, b) := Image(b), BestOf(c, pub) := Image(pub)]
  {
    hide LedTo;
    life, s := OneFrame(c, b);
    life, s := Do(c, life, s, StartDay(0));
    life, s := Do(c, life, s, WriteFile(OrigOf(c, b), Image(b)));
    life, s := Do(c, life, s, WriteFile(BestOf(c, pub), Image(pub)));
  }

  /** Day 0 is published, from bytes b as the image pub. */
  lemma PublishedDay(c: Codec, b: Bytes, pub: Bytes) returns (life: Life, s: State)
    requires Publishable(c, b, pub)
    ensures LedTo(c, life, s) && s.images == {b, pub}
    ensures s.cameras == map["west" := CAMERA] && s.days == map[0 := RowShowing(c, pub)]
    ensures s.files == map[
      PHOTO := Image(b), OrigOf(c, b) := Image(b), BestOf(c, pub) := Image(pub),
      ThumbOf(c, pub, 480) := Image(c.thumb(pub, 480).value),
      ThumbOf(c, pub, 240) := Image(c.thumb(pub, 240).value),
      JsonOf(BestOf(c, pub)) := Record(SidecarOf(c, b, pub))]
  {
    hide LedTo, NameHash;
    life, s := TwoImages(c, b, pub);
    life, s := Do(c, life, s, WriteFile(ThumbOf(c, pub, 480), Image(c.thumb(pub, 480).value)));
    life, s := Do(c, life, s, WriteFile(ThumbOf(c, pub, 240), Image(c.thumb(pub, 240).value)));
    assert RendersTo(c, s.images, b, None, NameHash(c, pub));
    life, s := Do(c, life, s, WriteFile(JsonOf(BestOf(c, pub)), Record(SidecarOf(c, b, pub))));
    life, s := Do(c, life, s, CompleteDay(0, RowShowing(c, pub)));
  }

  /** Such a day can be re-rendered with its crop unchanged, so that is a promise about something. */
  lemma UnchangedCropHappens(p: Engine.Process, b: Bytes, pub: Bytes) returns (life: Life, s: State)
    requires Publishable(p.codec, b, pub) && NameHash(p.codec, b) != NameHash(p.codec, pub)
    ensures LedTo(p.codec, life, s) && Inv(p.codec, s) && NoClash(p.codec, s.images) && |s.images| == 2
    ensures p.Recroppable(s, 0) && p.Recropped(s, s, 0)
    ensures s.files[JsonOf(s.days[0].best.value)].sidecar.crop == p.CropNow(s, 0, s.files[p.OriginalOf(s, 0)].bytes)
  {
    hide LedTo, NameHash, Inv, Past;
    life, s := PublishedDay(p.codec, b, pub);
    LifeIsPast(p.codec, life, s);
    assert p.Rerendered(s, 0, b) == Some(pub);
  }

  function Screen(b: Bytes): Box { Rect(0, 0, 640, 480) }

  /** A codec whose images have different names, for that. */
  lemma SomeCodec() returns (c: Codec, b: Bytes, pub: Bytes)
    ensures Publishable(c, b, pub) && NameHash(c, b) != NameHash(c, pub)
  {
    b, pub := [0], [1];
    c := Codec((x: Bytes) => if x == [0] then "a" else "b", x => true, Screen, (x, r) => Some([1]),
               (x, w) => Some([2]), (x, roi) => None);
  }
}
