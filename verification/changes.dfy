/** What a procedure may change: relations between the states, files and days before and after. */
module Changes {
  import opened Wrappers
  import opened Durable

  /** The frame files are the same, whatever happened to others. */
  predicate SameFrameFiles(f: Files, g: Files) {
    && (forall p :: p in f && p.FrameFile? ==> p in g && g[p] == f[p])
    && (forall p :: p in g && p.FrameFile? ==> p in f)
  }

  /** The day a published file belongs to; a frame file belongs to none. */
  function DayOf(p: Path): Option<Date> {
    match p
    case FrameFile(_, _, _, _) => None
    case OrigFile(d, _) => Some(d)
    case BestFile(d, _) => Some(d)
    case ThumbFile(d, _, _) => Some(d)
    case JsonOf(q) => DayOf(q)
  }

  /** g is f after writing published files of these days: none is lost, and all other files are
      the same. */
  ghost predicate OnlyPublished(f: Files, g: Files, dates: set<Date>) {
    && f.Keys <= g.Keys
    && forall p :: p in g && (p !in f || g[p] != f[p]) ==> DayOf(p).Some? && DayOf(p).value in dates
  }

  /** s may differ from t only in this day's row and in its published files. */
  ghost predicate OnlyDay(s: State, t: State, date: Date) {
    && t == s.(days := t.days, files := t.files, images := t.images)
    && t.days.Keys == s.days.Keys
    && (forall d :: d in s.days && d != date ==> t.days[d] == s.days[d])
    && OnlyPublished(s.files, t.files, {date})
  }

  /** g is f after writing some of the paths in ps. */
  predicate OnlyWrote(f: Files, g: Files, ps: set<Path>) {
    && f.Keys <= g.Keys <= f.Keys + ps
    && forall p :: p in f && p !in ps ==> g[p] == f[p]
  }

  /** Finalizing this date overwrites no finished day. */
  predicate InProgress(days: map<Date, DayRow>, date: Date) {
    date in days ==> days[date].status == Capturing
  }

  /** A window may be started on this date: its row is absent or not finished. */
  predicate Open(days: map<Date, DayRow>, date: Date) {
    date in days ==> !IsFinished(days[date])
  }

  /** Publishing this date overwrites no finished day but a complete one. */
  predicate MayPublish(days: map<Date, DayRow>, date: Date) {
    date in days ==> days[date].status in {Capturing, Complete}
  }

  // ---- what a state shows ----

  function FrameFiles(files: Files): set<Path> {
    set p | p in files && p.FrameFile?
  }

  function RowPaths(rows: set<FrameRow>): set<Path> {
    set r | r in rows :: r.path
  }

  /** No row is older than the retention cutoff of today. */
  predicate RetentionMet(s: State) {
    forall r :: r in s.frames ==> r.date >= s.today - s.retentionDays
  }

  /** The date has a run a restart can resume. */
  predicate HasRunning(runs: map<string, RunRow>, date: Date) {
    exists id :: id in runs && runs[id].date == date && runs[id].status == Running
  }

  /** The capturing days that no running run can resume. */
  function StuckDays(s: State): set<Date> {
    set d | d in s.days && s.days[d].status == Capturing && !HasRunning(s.runs, d)
  }

  lemma SomeDate(dates: set<Date>)
    requires dates != {}
    ensures exists d :: d in dates
  {
    assert (forall d :: d !in dates) ==> dates == {};
  }

  lemma SameFrameFilesSame(f: Files)
    ensures SameFrameFiles(f, f)
  {
  }

  lemma SameFrameFilesBack(f: Files, g: Files)
    requires SameFrameFiles(f, g)
    ensures SameFrameFiles(g, f)
  {
  }

  lemma SameFrameFilesChain(f: Files, g: Files, h: Files)
    requires SameFrameFiles(f, g) && SameFrameFiles(g, h)
    ensures SameFrameFiles(f, h)
  {
  }

  lemma OnlyPublishedNothing(f: Files, dates: set<Date>)
    ensures OnlyPublished(f, f, dates)
  {
  }

  lemma OnlyPublishedMore(f: Files, g: Files, h: Files, dates: set<Date>, date: Date)
    requires OnlyPublished(f, g, dates) && OnlyPublished(g, h, {date})
    ensures OnlyPublished(f, h, dates + {date})
  {
  }

  lemma OnlyPublishedKeepsFrames(f: Files, g: Files, dates: set<Date>)
    requires OnlyPublished(f, g, dates)
    ensures SameFrameFiles(f, g)
  {
  }

  lemma OnlyWroteOne(f: Files, p: Path, x: Content, ok: bool)
    ensures OnlyWrote(f, if ok then f[p := x] else f, {p})
  {
  }

  lemma OnlyWroteMore(f: Files, g: Files, ps: set<Path>, qs: set<Path>)
    requires OnlyWrote(f, g, ps) && ps <= qs
    ensures OnlyWrote(f, g, qs)
  {
  }

  lemma OnlyWroteBoth(f: Files, g: Files, h: Files, ps: set<Path>, qs: set<Path>)
    requires OnlyWrote(f, g, ps) && OnlyWrote(g, h, qs)
    ensures OnlyWrote(f, h, ps + qs)
  {
  }

  lemma OnlyDayWritten(s: State, t: State, date: Date, ps: set<Path>)
    requires t == s.(files := t.files, days := t.days, images := t.images)
    requires OnlyWrote(s.files, t.files, ps) && forall p :: p in ps ==> DayOf(p) == Some(date)
    requires t.days == s.days || (date in s.days && date in t.days && t.days == s.days[date := t.days[date]])
    ensures OnlyDay(s, t, date)
  {
  }

  lemma StartedTouchesOne(days: map<Date, DayRow>, d: Date)
    ensures var t := Started(days, d);
      d in t && (Open(days, d) ==> InProgress(t, d))
      && t.Keys == days.Keys + {d} && forall e :: e in days && e != d ==> t[e] == days[e]
  {
  }
}
