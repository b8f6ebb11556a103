# Westward, verified

Westward watches a few cameras every evening, scores the colour of the sky, sends one GO alert when
the sunset starts, and publishes the best frame of the day. It keeps everything in an SQLite
database and a directory of files, and relies on the order of its writes to survive a crash at any
moment. This project models that logic in Dafny and proves what the program relies on.

| file | models |
|---|---|
| `durable.dfy` | the database rows and the files as one state; every SQL statement, transaction, atomic file write and removal as one action; the invariant; process lifetimes with a crash after any action |
| `engine.dfy` | the engine process as a class: capture windows, finalization, recrop, retention, orphan sweep, camera removal, startup, admin steps, ticks and whole process runs |
| `window.dfy`, `history.dfy`, `changes.dfy` | the inputs and the course of a capture window; what each camera hears in it and when a GO claim can fail; what a procedure may change |
| `publication.dfy` | which frame of which camera a finished day publishes |
| `alerts.dfy` | alert events, delivery rows and the delivery worker |
| `trigger.dfy`, `medians.dfy` | the GO trigger, and the two median implementations |
| `score.dfy` | normalised rectangles mapped onto pixels |
| `ulid.dfy`, `positional.dfy` | identifiers: bit buffer, carry, order; and the positional arithmetic behind them |
| `calendar.dfy` | YYYY-MM-DD text, the Gregorian successor, the backfill of missed days |
| `redact.dfy` | the log redactor |
| `ratelimit.dfy`, `sessions.dfy`, `limiter.dfy` | sliding window, session table and fetch limiter, each against its full history |
| `witnesses.dfy` | concrete runs: a day that is published, and one in which retention comes too late |
| `wrappers.dfy` | the option type |

How crashes are modelled. Class `Engine.Process` holds the durable tables and files as fields; every
primitive method performs one action (or fails and counts a fault) and appends the new state to a
ghost log. `Valid()` says that the log is a run of guarded actions from a good state. A crash is a
process that stops after any prefix of its log (`Durable.CrashAnywhere`), and the next process starts
on the last state of its predecessor (`Durable.Lives`). Because the guards are obligations of the
methods that act, what is proved about all runs holds for every sequence of engine procedures and
whole admin steps between them, with failed writes and crashes anywhere.

Names that are hashes. A file is named after the first eight hex digits of a hash, so two images can
share a name, and then the later one takes the place of the earlier. The state carries a history
variable `images`, the originals and published images written so far, which nothing reads. What
depends on names is stated relative to it: `Durable.NoClash` says that no two of these images share a
name. `Witnesses.UnchangedCropHappens` and `Witnesses.SomeCodec` give a published day that meets it.

Inputs the program gets from outside are parameters: clock readings, the sunset and dusk times of a
date (`sky`), fetched bytes, random bytes, failures. The hash, the JPEG codec, the scaler and the
scorer are arbitrary deterministic functions in `Durable.Codec`. Scores and crops are reals. A date
is its day number; `Calendar.TextOrderIsCalendarOrder` ties that to the text in the database.

Places where the code and its own words disagree; the code is what is modelled:

- `internal/engine/trigger.go:63-70` announces a gap rule over the last three samples; the loop skips
  the newest pair. `Trigger.GapRuleLagsByOne` says exactly when the two rules differ, and
  `Trigger.FiresAcrossTheNewestGap` is a stream that fires an hour after its last close sample.
- `internal/ulid/ulid.go:53` says the top two bits are zero-padded; the encoder pads at the bottom, so
  the text stands for four times the number. `Ulid.CanonicalOnlyForZero`: the two texts agree only on
  the all-zero identifier.
- `internal/engine/engine.go:447`: an unscored frame that comes first among the eligible ones is never
  replaced. `Publication.KeptIsBest`: the kept row is the earliest of maximum score if and only if it
  has a score. The engine stores no unscored rows, so `Engine.Process.Finalize` does publish the best.
- `internal/store/queries.go:359-360` promises the number of inserted rows; with an install date that
  does not parse the loop starts over at 0001-01-02 and also counts dates whose rows sort before the
  install text. `Calendar.DayTable.BackfillMissedDays` has the exact condition, and
  `Calendar.CountsARowThatWasThere` a table for which the count is wrong.
- A sleep that is cancelled marks the run interrupted (`internal/engine/engine.go:394`), so the next
  start finalizes the day although its window is still open; a hard crash resumes the window.
  `Engine.Process.Restart` proves both.
- Retention runs once a day, so a shortened retention setting is caught up only the next day.
  `Witnesses.ShortenedTooLate` is such a run. `Engine.Process.Reconcile` has the exact condition, and
  with `Durable.RetentionHolds` it shows that nothing else leaves rows past the cutoff.
- A repeated notifier id breaks the delivery rows' primary key and rolls back the whole GO event:
  `Alerts.RepeatedIdLosesTheGo`. `Engine.Process.RunWindow` has the inputs for which no GO is lost.

## Model

| member | source | states |
|---|---|---|
| Durable.StepKeepsInv | internal/engine/engine.go:340-548 | every guarded action keeps the invariant: rows have their files with the bytes, size, hash, camera and date they record, paths are unique, files hold what their hash names say, thumbnails come from a written image of their name, a sidecar tells the date and hash of the image beside it and the path and hash of an original that exists, a written image of the original's name renders, with the recorded crop, to a written image of the published name, complete days are servable, missed days are past |
| Durable.SidecarRenders | internal/engine/recrop.go:33-47 | in every good state a sidecar's original is there, and unless two written images share a name, rendering it with the recorded crop gives an image of the published name |
| Durable.OriginalStays | internal/engine/recrop.go:12-16 | no action removes an original, and none changes its bytes unless two written images share a name |
| Durable.OriginalsStay | internal/engine/recrop.go:12-16 | an original once written exists in every later state of every lifetime, with the same bytes unless two of the images written by then share a name |
| Durable.RunKeepsInv | internal/engine/reconcile.go:73-144 | every state of a run that begins in a good state is good |
| Durable.CrashAnywhere | internal/engine/fsutil.go:18-43 | what a process has done when it dies after any action is a run too |
| Durable.EveryLifeIsSafe | internal/engine/reconcile.go:73-144 | over any number of process lifetimes, each started on what its predecessor left, every state is good |
| Durable.CompleteDaysAreServable | internal/engine/engine.go:484-548 | in every state of every lifetime a complete day has its image, both thumbnails, its sidecar and the original the sidecar names; the image's name is the hash of its bytes, and unless names clash the original renders to it |
| Durable.PublishedBytesNeverChange | internal/engine/recrop.go:12-16 | wherever and whenever a published path exists, in whichever lifetimes, it holds the same bytes, even after removal and rewriting; if ever it does not, two different images written by then share a name |
| Durable.FinishedStep | internal/store/queries.go:317-321 | an action that overwrites no finished day leaves the status of every complete, failed or missed day |
| Durable.FinishedDaysStayFinished | internal/store/queries.go:208-216 | complete, failed and missed are absorbing across restarts and crashes, over all actions that overwrite no finished day |
| Durable.RetentionHolds | internal/engine/engine.go:554-570 | in any state of any lifetime no row is older than the cutoff of the retention run recorded last, or the setting was shortened after that run, in this lifetime or an earlier one |
| Durable.AcceptedCropRenders | internal/engine/fsutil.go:101-127 | a crop accepted for the recorded width and height is not rejected when the image is rendered, wherever the image's bounds begin; rendering then fails only in the decoder or the encoder |
| Durable.RenderingIsRendition | internal/engine/fsutil.go:101-127 | the checked crop is the camera's crop if it gives a usable rectangle of the image and none otherwise, and rendering with it publishes exactly that rectangle of the image, or all of it |
| Engine.Process.WriteAtomic | internal/engine/fsutil.go:18-43 | one atomic step: the file has the new content, or nothing changed and a fault is counted |
| Engine.Process.CompleteDay | internal/store/queries.go:349-357 | updates an existing row only, and only to failed or to a row whose files are all there |
| Engine.Process.UpsertDayStart | internal/store/queries.go:317-321 | an absent day gets a blank capturing row, a scheduled one becomes capturing, any other row and every other day stays |
| Engine.Process.MarkInterruptedRuns | internal/store/queries.go:207-216 | exactly the running runs whose planned end is before now become interrupted, and no other run is changed |
| Engine.Process.InsertFrame | internal/store/queries.go:256-264 | a row that meets the foreign keys and the unique path is refused only by a failed write; any other is refused and counted |
| Engine.Process.UniquePath | internal/engine/fsutil.go:45-67 | the returned name is free and all its smaller suffixes are taken |
| Engine.Process.FreshPathIsAdmissible | internal/engine/engine.go:341-353 | a path without a file is named by no row, so the UNIQUE(path) insert of a new frame cannot fail |
| Engine.Process.Archive | internal/engine/engine.go:340-353 | file before row under the first free name; nothing else changes; without failures exactly the file and the row described by the shot appear; no insert is refused |
| Engine.Process.PreviousFrameSHA | internal/store/queries.go:266-275 | the hash of the camera's latest good row, or empty when there is none |
| Engine.Process.Shoot | internal/engine/engine.go:316-382 | one camera's turn: a frame that was fetched from a live camera and decodes is remembered by its hash; one that differs from the remembered one and can be scored adds one sample and, unless the disk is low, its file and row; any other changes nothing durable and adds no sample; the event image is this frame or none |
| Engine.Process.Report | internal/engine/engine.go:361-381 | the latch closes exactly when it was open and the history qualifies; then the date's GO is claimed and is there afterwards, unless the claim failed for a stated reason |
| Engine.Process.PollOnce | internal/engine/engine.go:316-382 | a round over all cameras advances every camera's history by exactly its own sample; at most one event is claimed |
| Engine.Process.Watch | internal/engine/engine.go:308-398 | the polling loop carries out exactly the rounds before its end, ends as the first ending round says, and keeps every latch exact |
| History.RepeatsAreNotHeard | internal/engine/engine.go:328-332 | over any rounds: a round adds a sample exactly when its frame was fetched from a live camera, decodes, can be scored and differs in hash from the frame before it, be that frame several rounds back or from before the window |
| History.OnlyNewsMore | internal/engine/engine.go:328-353 | a turn stores at most the file and row of a frame that is no repeat, so over a window no frame file and no row comes from a repeated frame |
| Window.RoundsUpToTheEnd | internal/engine/engine.go:308-398 | the rounds carried out and the way the loop ends, by the first round that starts too late, the first after which the end has come, and the first cancelled sleep |
| Window.SecondOfDayIs | internal/engine/fsutil.go:45-67 | the time in a frame's name is the second of the UTC day |
| History.FiredMeansQualified | internal/engine/engine.go:285-382 | some latch of the window closed if and only if what some camera heard over the rounds that ran qualified at some length |
| Window.QuietCamerasStaySilent | internal/engine/trigger.go:57-88 | cameras whose histories stay in a band narrower than deltaAbs, apart from isolated spikes, close no latch, so their window leaves the alerts alone |
| Engine.Process.RunWindow | internal/engine/engine.go:249-404 | for every ending (refused, no capture set, killed, cancelled, closed): the run's status, the day row, the frames and whose they are; without failed writes an ended window is closed, and its day has its final row or the finalization is blocked; no file is lost and only new frames and today's published files are written; no frame file or row from a repeated frame; histories equal to the inputs' samples, each with its row when nothing failed and the disk was not low; at most one GO event, and none without a closed latch; with distinct notifier ids, event ids the book does not hold and no store error, a closed latch leaves the date's GO; no finished day is overwritten and no frame insert refused |
| History.SoundInputsCannotFail | internal/store/queries.go:416-446 | with distinct notifier ids, event ids the book does not hold and no store error, no claim of the window can fail |
| Engine.Process.EndRun | internal/engine/engine.go:392-404 | a cancelled sleep marks the run interrupted and leaves the day; an ended window, without failed writes, marks it finished and finalizes at once, and if that returns an error it is blocked; a dead process leaves the run running |
| Engine.Process.FinalizeDay | internal/engine/engine.go:413-552 | the choice is the published one of module Publication; success shows it (row, image, thumbnails, original, sidecar); without a choice the day fails with the right reason; a missing file fails the day; any other error leaves the row; no file is lost, and only the files of that publication are written |
| Engine.Process.PublishFrame | internal/engine/engine.go:484-551 | succeeds without failed writes exactly when the frame decodes, renders and has both thumbnails; the row changes only after all its files exist; nothing but those files is written |
| Engine.Process.Finalize | internal/engine/engine.go:413-552 | from any reachable state, in terms of rows, cameras and settings: among the good frames of that date that are bright enough and fetched by the cutoff, it publishes the earliest of maximum score of a publish-eligible camera, a primary before a backup, of least priority, and nothing exactly when no such camera has such a frame; it does not panic; an error leaves every day row; without failed writes it succeeds exactly when there is nothing to publish or the frame decodes, renders and has both thumbnails; then the row, the image, the thumbnails, the original and the sidecar are those of that frame, or the day fails with the right reason; only the files of that publication are written |
| Engine.Process.RecropDay | internal/engine/recrop.go:12-103 | without failed writes succeeds exactly when the day can be rendered again, and changes nothing otherwise; on success the image and both thumbnails are those of the new rendering, the sidecar is the old one with date, camera, hash and crop set, and the file set is the old one minus the old artifacts plus the new ones; an error leaves the row |
| Engine.Process.RecropIsRendition | internal/engine/recrop.go:45-90 | the new row keeps score, camera and time and names the hash of the original rendered with the camera's present crop |
| Engine.Process.RemoveOld | internal/engine/recrop.go:92-100 | removes exactly what the old row served and the new one does not |
| Engine.Process.UnchangedCropKeepsUrls | internal/engine/recrop.go:12-16 | unless two images written so far share a name, a re-render with an unchanged crop keeps the file set, the row's paths and the image |
| Engine.Process.Retention | internal/engine/engine.go:554-570 | deletes exactly the rows before the cutoff and no file |
| Engine.Process.RetentionIfDue | internal/engine/engine.go:182-193 | once per date; afterwards no row is older than the cutoff and the date is recorded |
| Engine.Process.RowsHaveFiles | internal/engine/reconcile.go:146-168 | in every reachable state each row's frame file exists |
| Engine.Process.SweepOrphanFrames | internal/engine/reconcile.go:146-197 | removes only frame files without a row, touches no other file, marks nothing in a reachable state; without failed removals frame files and row paths are then the same set |
| Engine.Process.CameraDelete | internal/webadmin/admin.go:459-476 | the camera's rows, its references in days and the camera go in one step and nothing else does, then exactly the files those rows had named |
| Engine.Process.Reconcile | internal/engine/reconcile.go:73-144 | cameras, settings, finished and scheduled days and all files but frames survive, and only stuck days get published files; without failed writes: exactly the dates from install to yesterday are added, exactly the running runs whose planned end is before now are interrupted; a capturing day with a running run that ends later is untouched, every other one has its final row or its finalization is blocked, retention is recorded for today and exactly the rows past the cutoff are gone if it ran now, frame files are those of the rows left and none is older than the cutoff if the rows are not; rows past the cutoff are left only if retention was already recorded today and the setting was shortened after that, in whatever lifetime |
| Engine.Process.FinalizeStuckDays | internal/engine/reconcile.go:103-123 | finalizes exactly the capturing days without a running run; each gets the row its frames and cameras determine, or stays as it was because its finalization is blocked; published files of other days are untouched |
| Engine.Process.Tick | internal/engine/engine.go:161-247 | retention when due and not yet recorded today, with exactly the rows it leaves; then idle, window (resumed exactly when the day is capturing) or late finalization, by clock and day status; without failed writes a late finalization gives the final row or is blocked; never overwrites a finished day |
| Engine.Process.Admin | internal/webadmin/admin.go:345-597 | camera and settings edits, camera removal, recrop and refinalize, each as one step with the state it leaves; invalid settings change nothing; only refinalize can overwrite a finished day |
| Engine.Process.Run | internal/engine/engine.go:78-110 | a startup that does all that Reconcile promises, then any number of admin steps and wake-ups on dates that do not go back, each doing what its inputs say to the state the one before left; a valid history in which no frame insert was refused and only an admin's refinalization overwrites a finished day |
| Engine.Process.FinishedSince | internal/engine/engine.go:218-245 | in such a history a day finished in any earlier state has the same status now |
| Engine.Process.Restart | internal/engine/reconcile.go:103-123 | restart inside the window: after a hard crash the window resumes with a resumed run; after a cancelled sleep the day is finalized, or resumes only because its finalization is blocked |
| Witnesses.ShortenedTooLate | internal/engine/reconcile.go:125-133 | a run after which retention is recorded today and a row is past the cutoff, so a restart leaves it |
| Witnesses.UnchangedCropHappens | internal/engine/recrop.go:12-16 | a reachable published day whose images have different names and that can be re-rendered with its crop unchanged |
| Publication.BestRow | internal/engine/engine.go:440-451 | the frame loop keeps a first eligible row that has no score, and otherwise the first scored row of maximum score |
| Publication.KeptIsBest | internal/engine/engine.go:440-451 | in fetch order the kept row is the earliest eligible one of maximum score if and only if it has a score; otherwise it is the first eligible row |
| Publication.DayFrames | internal/store/queries.go:277-282 | exactly the good rows of camera and date, in fetch order; Publication.ChosenIsBestOfDay writes the conditions out |
| Publication.Pick | internal/engine/engine.go:453-466 | a publish-eligible camera of the role with least priority number, or none exactly when there is none |
| Publication.Choose | internal/engine/engine.go:434-482 | a primary of least priority with an eligible frame, a backup only if no primary qualifies, nothing exactly when neither role has a candidate |
| Publication.ChosenIsBestOfDay | internal/engine/engine.go:434-482 | the choice in terms of rows, cameras and settings alone: date, validity, brightness, cutoff, score, time, eligibility, role and priority |
| Publication.SelectionIsDetermined | internal/engine/engine.go:453-472 | two selections can differ only between cameras of equal role and priority and between frames of equal score and time |
| Alerts.StepKeepsInv | internal/store/queries.go:416-446 | every guarded transaction keeps keys and ids unique, delivery rows tied to events, attempts at most 3 and open rows below 3 |
| Alerts.RunKeepsInv | internal/store/queries.go:416-446 | over any run, whichever cameras, windows and workers, at most one event per key: one GO per date |
| Alerts.CrashAnywhere | internal/engine/alerts.go:22-24 | what a process has committed when it dies after any transaction is a run too, so what holds over all runs holds after a crash |
| Alerts.RestartContinues | internal/engine/alerts.go:22-24 | a process that starts on what its predecessor left continues the same run |
| Alerts.RunPreserves | internal/store/queries.go:734-745 | events and delivery rows are never lost, sent and failed rows never change, an event keeps its notifiers |
| Alerts.EventsAppearWithDeliveries | internal/store/queries.go:438-445 | an event appears in the same step as exactly one pending row for each of its notifier ids |
| Alerts.ClaimedOnceChain | internal/engine/engine.go:361-381 | claims of one key by any number of cameras add one event or nothing; the losers add nothing |
| Alerts.AlertStore.TryInsertEvent | internal/store/queries.go:416-446 | wins exactly when the key is free, the id is new and the notifier ids are distinct; false without error when the key is taken; otherwise an error; a loser writes nothing |
| Alerts.RepeatedIdLosesTheGo | internal/store/queries.go:438-445 | a claim with the notifier ids a and a on an empty book fails and leaves no event |
| Alerts.AlertStore.Drain | internal/engine/alerts.go:62-111 | without store errors each open row is sent exactly when its notifier is configured and answered that it delivered, pending exactly when that answer was transient and fewer than three attempts are made, and failed otherwise, with one attempt more; closed rows stay; with store errors a row moves so or stays; each row is sent at most once per pass |
| Alerts.AlertStore.AtMostThreeSends | internal/engine/alerts.go:46-48 | without store errors no row is handed to its notifier a fourth time |
| Alerts.ThreePassesEmptyTheQueue | internal/engine/alerts.go:99-106 | whatever the notifiers answer, three passes close every row of a fixed queue |
| Alerts.WorkFalls | internal/engine/alerts.go:99-106 | the sum of remaining attempts over open rows falls with every pass that finds an open row |
| Trigger.TriggerState.Evaluate | internal/engine/trigger.go:57-88 | true exactly when not yet fired and the history qualifies; the components are then the medians, and unchanged otherwise |
| Trigger.QualifiesWhen | internal/engine/trigger.go:57-88 | qualifying written out: five samples, two short steps before the newest, and the four comparisons of medians |
| Trigger.Drive | internal/engine/trigger.go:50-88 | over any stream the report is true exactly at the least qualifying length, so at most once, and the components stay those of that length |
| Trigger.GapBlocks | internal/engine/trigger.go:63-70 | a single gap between samples g-1 and g blocks exactly the lengths g+2 and g+3 |
| Trigger.GapRuleLagsByOne | internal/engine/trigger.go:63-70 | the coded rule at a length is the documented one at the length before; when they differ at the same length |
| Trigger.FiresAcrossTheNewestGap | internal/engine/trigger.go:63-70 | a stream that qualifies although its newest sample comes an hour late |
| Trigger.QuietNeverQualifies | internal/engine/trigger.go:71-88 | a stream with at most one outlier in any three consecutive samples and the rest in a band narrower than deltaAbs qualifies at no length |
| Medians.ScoreMedian | internal/score/score.go:202-218 | the in-place sort on a copy returns the median and leaves the argument alone; zero for no values |
| Medians.SortedMedian | internal/engine/trigger.go:90-101 | sorting a copy with the library sort gives the same median on every non-empty input |
| Medians.LibrarySort | internal/engine/trigger.go:95 | known to the median only as some ascending arrangement of the same values |
| Medians.SortedIsUnique | internal/engine/trigger.go:95 | two ascending arrangements of the same values are equal, so whatever the library sort does the medians agree |
| Medians.MedianIgnoresOrder | internal/score/score.go:202-218 | reordering the input does not change the median |
| Medians.MedianIsMiddle | internal/score/score.go:202-218 | the median is the middle value of any ascending arrangement, or half way between the two middle ones |
| Medians.MedianHalves | internal/score/score.go:202-218 | at least half of the values are on each side of the median |
| Medians.MedianInBand | internal/engine/trigger.go:90-101 | if more than half of the values lie in a band, so does the median |
| Score.PixelRect | internal/score/score.go:54-85 | an accepted rectangle lies inside the image and is at least 64 by 64 |
| Score.PixelRectIsNearest | internal/score/score.go:54-85 | accepted exactly when all parts are within 0 and 1 and the exact extents, cut at the far edge, reach 63.5 pixels; start less than one pixel early, size within half a pixel |
| Score.PixelRectDependsOnSize | internal/score/score.go:54-85 | acceptance and size depend on the bounds only through width and height |
| Score.PixelRectGrows | internal/score/score.go:54-85 | a larger crop at the same origin is accepted too and covers the smaller one |
| Ulid.Encode | internal/ulid/ulid.go:53-76 | exactly the 26 base-32 symbols of four times the 128-bit number |
| Ulid.TextKeepsOrder | internal/ulid/ulid.go:53-76 | the encoding is injective and its string order is big-endian byte order |
| Ulid.AlphabetHas | internal/ulid/ulid.go:53-76 | the symbols are the digits and the capital letters without I, L, O and U |
| Ulid.CanonicalOnlyForZero | internal/ulid/ulid.go:53 | the text equals the canonical, top-padded one only for the all-zero identifier |
| Ulid.Increment | internal/ulid/ulid.go:44-51 | big-endian plus one modulo the size of the counter, in place |
| Ulid.Generator.New | internal/ulid/ulid.go:21-42 | within a millisecond the counter is incremented, otherwise replaced; the text encodes 48 clock bits and 80 counter bits |
| Ulid.NewMany | internal/ulid/ulid.go:21-42 | on a clock that does not go back the texts are strictly increasing exactly when the counter never wraps |
| Calendar.SuccIsNext | internal/store/queries.go:398-401 | the successor of a valid date is the next day number |
| Calendar.YearStartIs | internal/store/queries.go:398-401 | day numbers of years in closed form: the Gregorian leap rule and 146097 days in 400 years |
| Calendar.MonthTable | internal/store/queries.go:398-401 | the lengths of the twelve months |
| Calendar.FormatIs | internal/store/queries.go:398-401 | the text is YYYY-MM-DD digit by digit |
| Calendar.NumberIsCalendarOrder | internal/store/queries.go:398-401 | day numbers order and identify the valid dates |
| Calendar.TextsAreDates | internal/store/queries.go:398-401 | the texts that parse are exactly the formatted dates, one each |
| Calendar.TextOrderIsCalendarOrder | internal/store/queries.go:385-394 | on valid dates string order is calendar order and the order of day numbers |
| Calendar.SweepIsTheCalendar | internal/store/queries.go:359-396 | from a valid install date the sweep visits exactly the dates from it up to yesterday |
| Calendar.DayTable.BackfillMissedDays | internal/store/queries.go:359-396 | adds a missed row for every swept date without one, changes no row, counts the added rows exactly under the stated condition, and returns zero when there is nothing to add |
| Calendar.CountsARowThatWasThere | internal/store/queries.go:359-396 | install text 0001-01-02x and a row for 0001-01-02: the count is not the number of added rows |
| Redaction.Redact | internal/secutil/redact.go:9-47 | the scanner refines the recursive specification |
| Redaction.UnparseParse | internal/secutil/redact.go:17-46 | splitting a text into links loses nothing |
| Redaction.OutputIsCleaned | internal/secutil/redact.go:26-45 | the output has the input's links in order, texts verbatim, each authority cleaned and without '@' |
| Redaction.UserInfoIsReplaced | internal/secutil/redact.go:26-41 | what stands before the last '@' of an authority is replaced by redacted:, where an authority runs from the first :// to the first of six characters, and the rest is treated the same way |
| Redaction.OtherTextStays | internal/secutil/redact.go:9-25 | an authority without '@' and a text without :// stay as they are |
| Redaction.CleanChangesOnlyUserInfo | internal/secutil/redact.go:12-16 | a text is unchanged exactly when no link in it holds an '@' |
| Redaction.CleanIsIdempotent | internal/secutil/redact.go:9-47 | redacting twice is redacting once |
| RateLimit.Auth.RecordFailure | internal/server/server.go:67-80 | the list becomes its last minute plus the new failure, and still answers like the full history |
| RateLimit.Auth.Prune | internal/server/server.go:73-78 | the in-place filter keeps exactly the times of the last minute, in order |
| RateLimit.Auth.TooManyFailures | internal/server/server.go:82-93 | true exactly when the full history holds more than 5 failures of that address less than 60 seconds old |
| RateLimit.RecentAreCounted | internal/server/server.go:82-93 | the pruned list counts the failures of the full history in that minute |
| RateLimit.PruningIsHarmless | internal/server/server.go:73-78 | pruning at an earlier time changes no later answer |
| Sessions.SessionStore.Create | internal/server/session.go:84-102 | sweeps only expired sessions and adds the new one |
| Sessions.SessionStore.Valid | internal/server/session.go:104-116 | created, not revoked since, and not past creation plus ttl, over the whole history |
| Sessions.LastCallDecides | internal/server/session.go:104-116 | a session is alive exactly when the last call about its token created it, no longer than ttl ago |
| Sessions.SessionStore.Revoke | internal/server/session.go:118-123 | ends exactly that session |
| Fetching.Limiter.Wait | internal/source/http.go:71-86 | successive grants are at least min apart even if the caller's clock reading is stale; a cancelled wait leaves no trace |
| Fetching.GrantsTakeTime | internal/source/http.go:60-67 | n further grants take at least n intervals |

## Left out

- Failing reads: queries and file reads that fail for other reasons than a missing file are not modelled; writes, removals and claims may fail anywhere.
- The inside of an atomic write (temporary file, sync, rename) is one step; leftover temporary files and empty directories do not appear.
- Camera names, chroma and other display columns of rows and sidecars.
- Engine.Process.PreviousFrameSHA: rows with the same latest fetch time are taken in any order, as the query leaves it open.
- Engine.Process.UniquePath: a frame's name is kept as camera, date, second of the UTC day and suffix number; the text of the path is not built.
- Engine.Process.Shoot: the stale-streak counter of a camera is not kept, nothing reads it in these procedures.
- Engine.Process.RunWindow: debug runs and runs without a planned end are not modelled; trigger overrides count as already parsed.
- Engine.Process.RunWindow: the capture set is an input, restricted to the cameras there are; a camera removed during its own window is not modelled.
- Engine.Process.Tick: backup, forecast and heads-up slots change none of the modelled state and are not there.
- Engine.Process.Run: the choice of the next wake-up time is an input, so nothing is said about when a tick happens.
- Engine.Process.Run: settings are read when they are used; the engine rereads them for retention and finalization, but the sampling interval once per wake-up.
- Engine.Process.Admin: of the settings only the archive floor, the sampling interval, the retention period and the notifier ids are there; the other bounds of the validation are not.
- Durable.FinishedDaysStayFinished: the admin's refinalize can overwrite a finished day, and fails a complete day whose frames are gone; Engine.Process.Run says which runs are free of it.
- Durable.Lives: admin operations are whole steps between engine steps; two processes never act at once.
- Alerts.AlertStore.AtMostThreeSends: counts one process; a crash between sending and recording can repeat a send after the restart.
- Alerts.AlertStore.Drain: the 5, 20 and 80 second delays are in a comment only; the query has no time filter, so neither has the model.
- Score.PixelRect: over reals; the rejection of NaN and infinities and the rounding of floating point are not modelled.
- Trigger.TriggerState.Evaluate: over reals, without NaN.
- Calendar.DayTable.BackfillMissedDays: a failed transaction is modelled in Engine.Process.BackfillMissedDays, on day numbers.
- Calendar.DayTable.BackfillMissedDays: today is a date text, as the caller formats it from the clock; the install text may be anything.
- RateLimit.Auth.TooManyFailures: clock readings do not go backward, as with Go's monotonic clock.
- Sessions.SessionStore.Valid: clock readings do not go backward, as with Go's monotonic clock.
- Ulid.Generator.New: the entropy source is an input and does not fail.
- Fetching.Limiter.Wait: timers that never fire early are an assumption about the environment.
- Sunset and dusk computation, time zones, and dates that go backward: a date's window is an input that lies inside it.
- HTTP handlers, templates, gallery, settings forms, notifier clients, forecast providers, CIELAB conversion: plumbing, user interface or numeric code without comparable invariants.
