/** Durable alerts: events claimed once per key, one delivery row per notifier, and the worker
    pass that sends them.  As in module Durable, each transaction is one action, and a crash
    keeps what the actions so far have written. */
module Alerts {
  import opened Wrappers
  import D = Durable

  datatype Key = Go(date: int) | HeadsUp(date: int) | Test(id: string)

  datatype Event = Event(id: string, key: Key, image: Option<D.Path>)

  datatype Progress = Pending | Sending | Sent | Failed

  datatype Delivery = Delivery(state: Progress, attempts: nat) {
    predicate Open() { state == Pending || state == Sending }
  }

  /** A delivery row's primary key. */
  datatype Slot = Slot(event: string, notifier: string)

  datatype Book = Book(events: set<Event>, deliveries: map<Slot, Delivery>)

  datatype Action =
    | Claim(event: Event, ids: seq<string>)
    | Mark(slot: Slot, state: Progress)

  const MAX_ATTEMPTS := 3

  function Fresh(id: string, ids: seq<string>): map<Slot, Delivery> {
    map n | n in ids :: Slot(id, n) := Delivery(Pending, 0)
  }

  function Apply(a: Action, s: Book): Book {
    match a
    case Claim(e, ids) => Book(s.events + {e}, s.deliveries + Fresh(e.id, ids))
    case Mark(k, st) =>
      if k in s.deliveries
      then s.(deliveries := s.deliveries[k := Delivery(st, s.deliveries[k].attempts + 1)])
      else s
  }

  predicate HasId(s: Book, id: string) {
    exists e :: e in s.events && e.id == id
  }

  predicate HasKey(s: Book, key: Key) {
    exists e :: e in s.events && e.key == key
  }

  predicate Distinct(ids: seq<string>) {
    forall i, j :: 0 <= i < j < |ids| ==> ids[i] != ids[j]
  }

  /** What the transaction checks (both unique keys, and the delivery rows' primary key), and
      what the worker has read before it marks a row. */
  predicate Guard(a: Action, s: Book) {
    match a
    case Claim(e, ids) => !HasKey(s, e.key) && !HasId(s, e.id) && Distinct(ids)
    case Mark(k, st) =>
      && k in s.deliveries && s.deliveries[k].Open() && st != Sending
      && (st == Pending ==> s.deliveries[k].attempts + 1 < MAX_ATTEMPTS)
  }

  ghost predicate Inv(s: Book) {
    && (forall e, f :: e in s.events && f in s.events && (e.key == f.key || e.id == f.id) ==> e == f)
    && (forall k :: k in s.deliveries ==> HasId(s, k.event))
    && (forall k :: k in s.deliveries ==>
      var d := s.deliveries[k];
      d.attempts <= MAX_ATTEMPTS && (d.Open() ==> d.attempts < MAX_ATTEMPTS))
  }

  lemma StepKeepsInv(a: Action, s: Book)
    requires Inv(s) && Guard(a, s)
    ensures Inv(Apply(a, s))
  {
    var t := Apply(a, s);
    forall k | k in t.deliveries ensures HasId(t, k.event) {
      if a.Claim? && k.event == a.event.id {
        assert a.event in t.events;
      } else {
        var e :| e in s.events && e.id == k.event;
        assert e in t.events;
      }
    }
  }

  ghost predicate IsRun(log: seq<Book>, acts: seq<Action>) {
    && |log| == |acts| + 1
    && forall i :: 0 <= i < |acts| ==> Guard(acts[i], log[i]) && log[i + 1] == Apply(acts[i], log[i])
  }

  /** Every state of a run from a good one is good: at most one GO event per date, whichever
      cameras, windows and crashes led there, and no delivery beyond its attempts. */
  lemma {:induction false} RunKeepsInv(log: seq<Book>, acts: seq<Action>, i: nat)
    requires IsRun(log, acts) && Inv(log[0]) && i < |log|
    ensures Inv(log[i])
  {
    if i > 0 {
      RunKeepsInv(log, acts, i - 1);
      StepKeepsInv(acts[i - 1], log[i - 1]);
    }
  }

  /** A process may die after any of its transactions; what it had done by then is a run too. */
  lemma CrashAnywhere(log: seq<Book>, acts: seq<Action>, n: nat)
    requires IsRun(log, acts) && n <= |acts|
    ensures IsRun(log[..n + 1], acts[..n])
  {
    hide Guard, Apply;
  }

  /** A process that starts on what its predecessor left continues the same run, so what holds
      over a run holds across restarts. */
  lemma RestartContinues(log: seq<Book>, acts: seq<Action>, more: seq<Book>, later: seq<Action>)
    requires IsRun(log, acts) && IsRun(more, later) && more[0] == log[|log| - 1]
    ensures IsRun(log + more[1..], acts + later)
  {
    hide Guard, Apply;
  }

  /** Events and delivery rows are never lost; closed deliveries never change; an event that is
      there keeps the notifiers it was created with. */
  ghost predicate Preserves(s: Book, t: Book) {
    && s.events <= t.events
    && (forall k :: k in s.deliveries ==>
      && k in t.deliveries
      && s.deliveries[k].attempts <= t.deliveries[k].attempts
      && (!s.deliveries[k].Open() ==> t.deliveries[k] == s.deliveries[k]))
    && (forall k :: k in t.deliveries && k !in s.deliveries ==> !HasId(s, k.event))
  }

  lemma StepPreserves(a: Action, s: Book)
    requires Inv(s) && Guard(a, s)
    ensures Preserves(s, Apply(a, s))
  {
    if a.Claim? {
      RowsAreNew(a.event, a.ids, s);
    }
  }

  lemma RowsAreNew(e: Event, ids: seq<string>, s: Book)
    requires Inv(s) && !HasId(s, e.id)
    ensures Fresh(e.id, ids).Keys !! s.deliveries.Keys
  {
    forall k | k in s.deliveries ensures k !in Fresh(e.id, ids) {
      assert HasId(s, k.event);
    }
  }

  lemma PreservesIsReflexive(s: Book)
    ensures Preserves(s, s)
  {
  }

  lemma PreservesIsTransitive(s: Book, t: Book, u: Book)
    requires Preserves(s, t) && Preserves(t, u)
    ensures Preserves(s, u)
  {
    assert forall e :: e in s.events ==> e in t.events;
  }

  lemma {:induction false} RunPreserves(log: seq<Book>, acts: seq<Action>, i: nat, j: nat)
    requires IsRun(log, acts) && Inv(log[0]) && i <= j < |log|
    ensures Preserves(log[i], log[j])
  {
    hide Preserves, Inv, Guard, Apply;
    if i == j {
      PreservesIsReflexive(log[i]);
    } else {
      RunKeepsInv(log, acts, j - 1);
      RunPreserves(log, acts, i, j - 1);
      StepPreserves(acts[j - 1], log[j - 1]);
      PreservesIsTransitive(log[i], log[j - 1], log[j]);
    }
  }

  /** An event appears in the same step as its deliveries: one pending row for each notifier id,
      and no other row of that event. */
  lemma EventsAppearWithDeliveries(a: Action, s: Book, e: Event)
    requires Inv(s) && Guard(a, s) && e !in s.events && e in Apply(a, s).events
    ensures a.Claim? && a.event == e
    ensures forall k :: k in Apply(a, s).deliveries && k.event == e.id <==>
      k.event == e.id && k.notifier in a.ids
    ensures forall n :: n in a.ids ==>
      Apply(a, s).deliveries[Slot(e.id, n)] == Delivery(Pending, 0)
  {
    var t := Apply(a, s).deliveries;
    forall k: Slot | k.event == e.id ensures k in t <==> k.notifier in a.ids {
      assert k in s.deliveries ==> HasId(s, k.event);
      if k.notifier in a.ids {
        assert Slot(e.id, k.notifier) in Fresh(e.id, a.ids);
      }
    }
  }

  /** t is s, or s after claiming this key, which was free in s, with these notifiers. */
  ghost predicate ClaimedOnce(s: Book, t: Book, key: Key, ids: seq<string>) {
    t == s || exists e: Event :: e.key == key && !HasKey(s, key) && t == Apply(Claim(e, ids), s)
  }

  lemma ClaimedNothing(s: Book, key: Key, ids: seq<string>)
    ensures ClaimedOnce(s, s, key, ids)
  {
  }

  lemma ClaimedOnceKeeps(s: Book, t: Book, key: Key, ids: seq<string>, id: string, k: Key)
    requires ClaimedOnce(s, t, key, ids)
    ensures HasId(s, id) ==> HasId(t, id)
    ensures HasKey(s, k) ==> HasKey(t, k)
  {
    assert s.events <= t.events;
  }

  lemma ClaimedOnceChain(s: Book, t: Book, u: Book, key: Key, ids: seq<string>)
    requires ClaimedOnce(s, t, key, ids) && ClaimedOnce(t, u, key, ids)
    ensures ClaimedOnce(s, u, key, ids)
  {
    if t != s {
      var e: Event :| e.key == key && !HasKey(s, key) && t == Apply(Claim(e, ids), s);
      assert e in t.events;
    }
  }

  /** While the key is free, nothing has been claimed. */
  lemma FreeMeansUnclaimed(s: Book, t: Book, key: Key, ids: seq<string>)
    requires ClaimedOnce(s, t, key, ids)
    ensures t == s || HasKey(t, key)
  {
    if t != s {
      var e: Event :| e.key == key && !HasKey(s, key) && t == Apply(Claim(e, ids), s);
      assert e in t.events;
    }
  }

  /** Why a claim of a free key can fail: store errors, a repeated notifier id, a used event id. */
  ghost predicate ClaimMayFail(ids: seq<string>, s: Book, id: string, errors: int) {
    errors > 0 || !Distinct(ids) || HasId(s, id)
  }

  // ---- the worker pass ----

  datatype SendResult = Delivered | Transient | Permanent | Other

  /** What one pass makes of an open delivery. */
  function AfterSend(d: Delivery, known: bool, r: SendResult): Delivery {
    var next :=
      if !known then Failed
      else match r
        case Delivered => Sent
        case Permanent => Failed
        case Transient => if d.attempts + 1 >= MAX_ATTEMPTS then Failed else Pending
        case Other => Failed;
    Delivery(next, d.attempts + 1)
  }

  type Sender = Slot -> SendResult

  /** A pass without store errors, row by row. */
  function Drained(t: map<Slot, Delivery>, notifiers: set<string>, send: Sender)
    : map<Slot, Delivery>
  {
    map k | k in t :: if t[k].Open() then AfterSend(t[k], k.notifier in notifiers, send(k)) else t[k]
  }

  /** What the answers do to open rows: sent, pending for a retry, or failed. */
  lemma DrainedRows(t: map<Slot, Delivery>, notifiers: set<string>, send: Sender)
    ensures forall k :: k in t && t[k].state in {Pending, Sending} ==>
      var d := Drained(t, notifiers, send)[k];
      && d.attempts == t[k].attempts + 1 && d.state in {Sent, Pending, Failed}
      && (d.state == Sent <==> k.notifier in notifiers && send(k) == Delivered)
      && (d.state == Pending <==> k.notifier in notifiers && send(k) == Transient && t[k].attempts + 1 < 3)
    ensures forall k :: k in t && t[k].state !in {Pending, Sending} ==> Drained(t, notifiers, send)[k] == t[k]
  {
  }

  ghost predicate Bounded(t: map<Slot, Delivery>) {
    forall k :: k in t && t[k].Open() ==> t[k].attempts < MAX_ATTEMPTS
  }

  /** Whatever the notifiers answer, three passes close every row of a fixed queue; the passes
      may even see three different notifier sets. */
  lemma ThreePassesEmptyTheQueue(t: map<Slot, Delivery>, n1: set<string>, n2: set<string>,
                                 n3: set<string>, s1: Sender, s2: Sender, s3: Sender)
    requires Bounded(t)
    ensures var u := Drained(Drained(Drained(t, n1, s1), n2, s2), n3, s3);
      u.Keys == t.Keys && forall k :: k in u ==> !u[k].Open() && u[k].attempts <= t[k].attempts + 3
  {
    var a := Drained(t, n1, s1);
    var b := Drained(a, n2, s2);
    var u := Drained(b, n3, s3);
    forall k | k in u ensures !u[k].Open() && u[k].attempts <= t[k].attempts + 3 {
      assert a[k].Open() ==> 1 <= a[k].attempts < MAX_ATTEMPTS;
      assert b[k].Open() ==> 2 <= b[k].attempts < MAX_ATTEMPTS;
    }
  }

  /** Attempts still allowed over the open rows among keys: the measure of the retry loop. */
  ghost function Work(t: map<Slot, Delivery>, keys: set<Slot>): nat
    requires keys <= t.Keys && Bounded(t)
  {
    if keys == {} then 0
    else
      var k :| k in keys;
      (if t[k].Open() then MAX_ATTEMPTS - t[k].attempts else 0) + Work(t, keys - {k})
  }

  lemma {:induction false} WorkFalls(t: map<Slot, Delivery>, n: set<string>, s: Sender,
                                     keys: set<Slot>)
    requires keys <= t.Keys && Bounded(t)
    ensures Bounded(Drained(t, n, s)) && Work(Drained(t, n, s), keys) <= Work(t, keys)
    ensures (exists k :: k in keys && t[k].Open()) ==>
      Work(Drained(t, n, s), keys) < Work(t, keys)
    decreases |keys|
  {
    var u := Drained(t, n, s);
    if keys != {} {
      var k :| k in keys && Work(t, keys) ==
        (if t[k].Open() then MAX_ATTEMPTS - t[k].attempts else 0) + Work(t, keys - {k});
      WorkFalls(t, n, s, keys - {k});
      WorkWithout(u, keys, k);
    }
  }

  /** The sum does not depend on the order in which keys are taken. */
  lemma {:induction false} WorkWithout(t: map<Slot, Delivery>, keys: set<Slot>, k: Slot)
    requires keys <= t.Keys && Bounded(t) && k in keys
    ensures Work(t, keys) ==
      (if t[k].Open() then MAX_ATTEMPTS - t[k].attempts else 0) + Work(t, keys - {k})
    decreases |keys|
  {
    var j :| j in keys && Work(t, keys) ==
      (if t[j].Open() then MAX_ATTEMPTS - t[j].attempts else 0) + Work(t, keys - {j});
    if j != k {
      WorkWithout(t, keys - {j}, k);
      WorkWithout(t, keys - {k}, j);
      assert keys - {j} - {k} == keys - {k} - {j};
    }
  }

  /** The two alert tables and what has been recorded about them. */
  class AlertStore {
    var events: set<Event>
    var deliveries: map<Slot, Delivery>
    ghost var log: seq<Book>
    ghost var acts: seq<Action>
    ghost var faults: nat
    /** How often each row was handed to its notifier since this process started. */
    ghost var sends: map<Slot, nat>

    ghost function Now(): Book
      reads this
    {
      Book(events, deliveries)
    }

    ghost function SendsOf(k: Slot): nat
      reads this
    {
      if k in sends then sends[k] else 0
    }

    /** The history is a run that ends in the present state, and every send but those whose
        bookkeeping failed is counted as an attempt. */
    ghost predicate Valid()
      reads this
    {
      && IsRun(log, acts) && Inv(log[0]) && log[|log| - 1] == Now()
      && sends.Keys <= deliveries.Keys
      && forall k :: k in deliveries ==> SendsOf(k) <= deliveries[k].attempts + faults
    }

    twostate predicate Grown()
      reads this
    {
      old(log) <= log && old(acts) <= acts && old(faults) <= faults
    }

    /** A process start on whatever tables it finds. */
    constructor (found: Book)
      requires Inv(found)
      ensures Valid() && Now() == found && faults == 0 && log == [found]
    {
      events, deliveries := found.events, found.deliveries;
      log, acts, faults, sends := [found], [], 0, map[];
    }

    lemma GoodNow()
      requires Valid()
      ensures Inv(Now())
    {
      RunKeepsInv(log, acts, |log| - 1);
    }

    /** Without store errors no row is ever handed to its notifier a fourth time. */
    lemma AtMostThreeSends(k: Slot)
      requires Valid() && faults == 0 && k in deliveries
      ensures SendsOf(k) <= MAX_ATTEMPTS
    {
      GoodNow();
    }

    /** Claims e.key in one transaction.  False with no error when the key is already taken; an
        error when a row's own key clashes or the store fails; then nothing is written. */
    method TryInsertEvent(e: Event, ids: seq<string>) returns (won: bool, err: bool)
      requires Valid()
      modifies this
      ensures Valid() && Grown()
      ensures Now() == if won then Apply(Claim(e, ids), old(Now())) else old(Now())
      ensures won ==> !err && !HasKey(old(Now()), e.key) && !HasId(old(Now()), e.id) && Distinct(ids)
      ensures faults == old(faults) ==>
        && (won <==> !HasKey(old(Now()), e.key) && !HasId(old(Now()), e.id) && Distinct(ids))
        && (err <==> !won && (HasId(old(Now()), e.id) || !HasKey(old(Now()), e.key)))
      ensures !err ==> faults == old(faults)
      ensures forall k :: old(SendsOf(k)) == SendsOf(k)
    {
      hide IsRun, Inv, Apply, Distinct;
      var broken := *;
      if broken {
        faults := faults + 1;
        return false, true;
      }
      if exists f :: f in events && f.id == e.id {
        return false, true;
      }
      if exists f :: f in events && f.key == e.key {
        return false, false;
      }
      var clash := Clash(ids);
      if clash {
        return false, true;
      }
      Commit(e, ids);
      return true, false;
    }

    method Commit(e: Event, ids: seq<string>)
      requires Valid() && Guard(Claim(e, ids), Now())
      modifies this`events, this`deliveries, this`log, this`acts
      ensures Valid() && Grown() && Now() == Apply(Claim(e, ids), old(Now()))
    {
      GoodNow();
      RowsAreNew(e, ids, Now());
      hide Inv, Fresh, Distinct;
      events, deliveries := events + {e}, deliveries + Fresh(e.id, ids);
      log, acts := log + [Now()], acts + [Claim(e, ids)];
    }

    /** Whether the transaction's delivery inserts break the primary key: a repeated id. */
    method Clash(ids: seq<string>) returns (clash: bool)
      ensures clash <==> !Distinct(ids)
    {
      var inserted := {};
      for i := 0 to |ids|
        invariant inserted == set n | n in ids[..i]
        invariant Distinct(ids[..i])
      {
        if ids[i] in inserted {
          return true;
        }
        inserted := inserted + {ids[i]};
      }
      assert ids[..|ids|] == ids;
      return false;
    }

    /** One pass of the delivery worker over the open rows, in any order.  A row whose
        bookkeeping fails stays as it was; every other open row moves on as AfterSend says. */
    method Drain(notifiers: set<string>, send: Sender)
      requires Valid()
      modifies this
      ensures Valid() && Grown() && events == old(events) && deliveries.Keys == old(deliveries.Keys)
      ensures faults == old(faults) ==> deliveries == Drained(old(deliveries), notifiers, send)
      ensures faults == old(faults) ==> forall k :: k in deliveries ==>
        if old(deliveries[k]).state in {Pending, Sending} then
          && deliveries[k].attempts == old(deliveries[k]).attempts + 1
          && (deliveries[k].state == Sent <==> k.notifier in notifiers && send(k) == Delivered)
          && (deliveries[k].state == Pending <==>
            k.notifier in notifiers && send(k) == Transient && old(deliveries[k]).attempts + 1 < 3)
          && deliveries[k].state in {Sent, Pending, Progress.Failed}
        else deliveries[k] == old(deliveries[k])
      ensures forall k :: k in deliveries ==>
        || deliveries[k] == old(deliveries[k])
        || deliveries[k] == Drained(old(deliveries), notifiers, send)[k]
      ensures forall k :: k in deliveries ==> SendsOf(k) <= old(SendsOf(k)) + 1
      ensures forall k :: k in deliveries && !old(deliveries[k].Open()) ==> SendsOf(k) == old(SendsOf(k))
      ensures faults == old(faults) ==> forall k :: k in deliveries && old(deliveries[k].Open()) ==>
        SendsOf(k) == old(SendsOf(k)) + if k.notifier in notifiers then 1 else 0
    {
      hide Valid, IsRun, Inv, Apply, Guard, AfterSend;
      var queue := set k | k in deliveries && deliveries[k].Open();
      ghost var t := Drained(deliveries, notifiers, send);
      while queue != {}
        invariant Valid() && Grown() && events == old(events) && deliveries.Keys == old(deliveries.Keys)
        invariant queue <= deliveries.Keys
        invariant forall k :: k in queue ==>
          old(deliveries[k].Open()) && deliveries[k] == old(deliveries[k]) && SendsOf(k) == old(SendsOf(k))
        invariant forall k :: k in deliveries && k !in queue ==>
          || deliveries[k] == t[k]
          || (faults > old(faults) && deliveries[k] == old(deliveries[k]))
        invariant forall k :: k in deliveries && k !in queue ==> SendsOf(k) <= old(SendsOf(k)) + 1
        invariant forall k :: k in deliveries && !old(deliveries[k].Open()) ==>
          SendsOf(k) == old(SendsOf(k))
        invariant faults == old(faults) ==> forall k :: k in deliveries && k !in queue && old(deliveries[k].Open()) ==>
          SendsOf(k) == old(SendsOf(k)) + if k.notifier in notifiers then 1 else 0
      {
        var k :| k in queue;
        queue := queue - {k};
        Deliver(k, notifiers, send(k));
      }
      DrainedRows(old(deliveries), notifiers, send);
    }

    /** Sends one open row and records the outcome. */
    method Deliver(k: Slot, notifiers: set<string>, answer: SendResult)
      requires Valid() && k in deliveries && deliveries[k].Open()
      modifies this
      ensures Valid() && Grown() && events == old(events)
      ensures deliveries == old(deliveries) || deliveries ==
        old(deliveries)[k := AfterSend(old(deliveries[k]), k.notifier in notifiers, answer)]
      ensures deliveries == old(deliveries) ==> faults > old(faults)
      ensures forall j :: SendsOf(j) == old(SendsOf(j)) || (j == k && SendsOf(j) == old(SendsOf(j)) + 1)
      ensures faults == old(faults) ==>
        SendsOf(k) == old(SendsOf(k)) + if k.notifier in notifiers then 1 else 0
    {
      hide IsRun, Inv, Apply;
      var state := Progress.Failed;
      if k.notifier in notifiers {
        var unreadable := *;
        if unreadable {
          faults := faults + 1;
          return;
        }
        sends := sends[k := SendsOf(k) + 1];
        match answer {
          case Delivered => state := Sent;
          case Permanent => state := Progress.Failed;
          case Transient =>
            state := if deliveries[k].attempts + 1 >= MAX_ATTEMPTS then Progress.Failed else Pending;
          case Other => state := Progress.Failed;
        }
      }
      MarkDelivery(k, state);
    }

    /** Records an outcome; the caller has sent the row at most once since it last did. */
    method MarkDelivery(k: Slot, state: Progress)
      requires IsRun(log, acts) && Inv(log[0]) && log[|log| - 1] == Now()
      requires Guard(Mark(k, state), Now())
      requires sends.Keys <= deliveries.Keys
      requires forall j :: j in deliveries ==>
        SendsOf(j) <= deliveries[j].attempts + faults + if j == k then 1 else 0
      modifies this`deliveries, this`log, this`acts, this`faults
      ensures Valid() && Grown()
      ensures if faults == old(faults)
        then deliveries == old(deliveries)[k := Delivery(state, old(deliveries[k].attempts) + 1)]
        else faults == old(faults) + 1 && deliveries == old(deliveries)
    {
      var broken := *;
      if broken {
        faults := faults + 1;
        return;
      }
      deliveries := deliveries[k := Delivery(state, deliveries[k].attempts + 1)];
      log, acts := log + [Now()], acts + [Mark(k, state)];
    }
  }

  /** A repeated notifier id loses the GO: the claim on an empty book fails and leaves nothing. */
  method RepeatedIdLosesTheGo() returns (won: bool, err: bool, events: set<Event>)
    ensures !won && err && events == {}
  {
    var store := new AlertStore(Book({}, map[]));
    var ids := ["a", "a"];
    assert ids[0] == ids[1];
    won, err := store.TryInsertEvent(Event("e", Go(0), None), ids);
    events := store.events;
  }
}
