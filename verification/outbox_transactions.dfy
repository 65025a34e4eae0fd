/** The delivery worker as it runs: one database transaction per batch. A worker leases, sends and marks its
    deliveries inside it, and the transaction commits at the end or is rolled back. Until then the rows it has
    written are locked and its writes are its own; another session's write to one of them waits. */
module OutboxTransactions {
  import opened Collections
  import opened Outbox
  import Workers = OutboxWorkers

  /** What one open transaction has written, and the steps that wrote it. */
  datatype Tx = Tx(rows: Rows, letters: seq<DeadLetter>, steps: seq<Step>)

  const NOTHING := Tx(map[], [], [])

  datatype World = World(store: Store, open: map<int, Tx>)

  datatype Event =
    | Emitted(id: DeliveryId, key: string, now: int)
    | Claimed(worker: int, id: DeliveryId, now: int, until: int)
    // `received`: the endpoint got the request, whatever answer made it back
    | Finished(worker: int, id: DeliveryId, result: Workers.Result, received: bool)
    | Committed(worker: int)
    | Aborted(worker: int)
    // a manual retry by a session that had loaded the row, perhaps some time ago, with status `seen`
    | Requeued(id: DeliveryId, now: int, seen: Status)

  function TxOf(w: World, worker: int): Tx {
    if worker in w.open then w.open[worker] else NOTHING
  }

  predicate Locked(w: World, id: DeliveryId) {
    exists worker :: worker in w.open && id in w.open[worker].rows
  }

  predicate LockedByOther(w: World, worker: int, id: DeliveryId) {
    exists other :: other in w.open && other != worker && id in w.open[other].rows
  }

  /** The rows a worker sees: the committed ones under its own writes. */
  function Visible(w: World, worker: int): Rows {
    w.store.rows + TxOf(w, worker).rows
  }

  function InDelivery(rows: Rows): set<DeliveryId> {
    set id | id in rows && rows[id].status.Delivering?
  }

  predicate IsSending(w: World, worker: int, id: DeliveryId) {
    worker in w.open && id in w.open[worker].rows && w.open[worker].rows[id].status.Delivering?
  }

  function Private(tx: Tx): Store {
    Store(tx.rows, tx.letters)
  }

  function Performed(tx: Tx, step: Step): Tx {
    var after := Apply(Private(tx), step);
    Tx(after.rows, after.deadLetters, tx.steps + [step])
  }

  function RetryStep(id: DeliveryId, now: int, seen: Status): Step {
    if seen.Queued? then Reschedule(id, now) else Requeue(id, now)
  }

  /** A blocked write and a commit with deliveries still in progress do not happen; they may be tried again. */
  function Happen(w: World, e: Event): World {
    match e
    case Emitted(id, key, now) => w.(store := Apply(w.store, Enqueue(id, key, now)))
    case Claimed(worker, id, now, until) =>
      if LockedByOther(w, worker, id) || !CanLease(Visible(w, worker), id, now) then w
      else
        var tx := TxOf(w, worker);
        var locked := tx.(rows := tx.rows[id := Visible(w, worker)[id]]);
        w.(open := w.open[worker := Performed(locked, Lease(id, now, until))])
    case Finished(worker, id, result, _) =>
      if IsSending(w, worker, id)
      then w.(open := w.open[worker := Performed(w.open[worker], Workers.MarkFor(id, result))])
      else w
    case Committed(worker) =>
      if worker in w.open && InDelivery(w.open[worker].rows) == {}
      then World(Store(w.store.rows + w.open[worker].rows, w.store.deadLetters + w.open[worker].letters), w.open - {worker})
      else w
    case Aborted(worker) => w.(open := w.open - {worker})
    case Requeued(id, now, seen) =>
      if Locked(w, id) then w else w.(store := Apply(w.store, RetryStep(id, now, seen)))
  }

  function After(events: seq<Event>): World {
    if events == [] then World(Store(map[], []), map[])
    else Happen(After(events[..|events| - 1]), events[|events| - 1])
  }

  lemma AfterNext(events: seq<Event>, e: Event)
    ensures After(events + [e]) == Happen(After(events), e)
  {
    assert (events + [e])[..|events|] == events;
  }

  // ---- exclusion ----

  ghost predicate Exclusive(w: World) {
    forall a, b, id :: a in w.open && b in w.open && id in w.open[a].rows && id in w.open[b].rows ==> a == b
  }

  /** No committed row is in delivery or carries a lease. */
  ghost predicate NothingLeased(rows: Rows) {
    forall id :: id in rows ==> !rows[id].status.Delivering? && rows[id].lease.None?
  }

  /** The committed version of every locked row is open: it is the version that was claimed. */
  ghost predicate LockedAreOpen(w: World) {
    forall worker, id :: worker in w.open && id in w.open[worker].rows ==>
      id in w.store.rows && Open(w.store.rows[id])
  }

  ghost predicate Isolated(w: World) {
    && Exclusive(w)
    && NothingLeased(w.store.rows)
    && LockedAreOpen(w)
    && (forall worker :: worker in w.open ==> LeaseIffDelivering(w.open[worker].rows))
  }

  lemma PerformedRow(tx: Tx, step: Step)
    requires (step.Lease? && CanLease(tx.rows, step.id, step.now)) || (IsMark(step) && step.id in tx.rows)
    ensures var after := Performed(tx, step);
      && after.rows.Keys == tx.rows.Keys
      && (forall id :: id in tx.rows && id != step.id ==> after.rows[id] == tx.rows[id])
      && (after.rows[step.id].lease.Some? <==> step.Lease?)
      && (after.rows[step.id].status.Delivering? <==> step.Lease?)
      && (after.rows[step.id].status.Delivered? <==> step.Deliver?)
  {
  }

  lemma HappenKeepsIsolated(w: World, e: Event)
    requires Isolated(w)
    ensures Isolated(Happen(w, e))
  {
    match e
    case Claimed(worker, id, now, until) => ClaimKeepsIsolated(w, worker, id, now, until);
    case Finished(worker, id, result, _) =>
      if IsSending(w, worker, id) {
        PerformedRow(w.open[worker], Workers.MarkFor(id, result));
        hide Performed;
      }
    case Emitted(id, key, now) => assert id in w.store.rows ==> Happen(w, e) == w;
    case Committed(worker) => CommitKeepsIsolated(w, worker);
    case Aborted(worker) =>
    case Requeued(id, now, seen) =>
      forall worker | worker in w.open && !Locked(w, id) ensures id !in w.open[worker].rows {
      }
  }

  lemma ClaimKeepsIsolated(w: World, worker: int, id: DeliveryId, now: int, until: int)
    requires Isolated(w)
    ensures Isolated(Happen(w, Claimed(worker, id, now, until)))
  {
    if !LockedByOther(w, worker, id) && CanLease(Visible(w, worker), id, now) {
      var tx := TxOf(w, worker);
      PerformedRow(tx.(rows := tx.rows[id := Visible(w, worker)[id]]), Lease(id, now, until));
      hide Performed;
    }
  }

  lemma CommitKeepsIsolated(w: World, worker: int)
    requires Isolated(w)
    ensures Isolated(Happen(w, Committed(worker)))
  {
    if worker in w.open && InDelivery(w.open[worker].rows) == {} {
      forall id | id in w.open[worker].rows ensures !w.open[worker].rows[id].status.Delivering? {
        assert id !in InDelivery(w.open[worker].rows);
      }
    }
  }

  /** In every run, with manual retries at any moment and from any copy: no delivery is ever in two workers'
      hands, and no other session ever sees one in delivery or leased. */
  lemma {:induction false} AlwaysIsolated(events: seq<Event>)
    ensures Isolated(After(events))
  {
    if events != [] {
      AlwaysIsolated(events[..|events| - 1]);
      HappenKeepsIsolated(After(events[..|events| - 1]), events[|events| - 1]);
    }
  }

  // ---- recovery ----

  lemma {:induction false} LockedRowUnchanged(events: seq<Event>, later: seq<Event>, worker: int, id: DeliveryId)
    requires worker in After(events).open && id in After(events).open[worker].rows
    requires forall i :: 0 <= i < |later| ==> later[i] != Committed(worker) && later[i] != Aborted(worker)
    ensures var w := After(events + later);
      && worker in w.open && id in w.open[worker].rows
      && id in w.store.rows && id in After(events).store.rows
      && w.store.rows[id] == After(events).store.rows[id]
  {
    if later == [] {
      assert events + later == events;
      AlwaysIsolated(events);
      hide After, Happen;
    } else {
      var n := |later| - 1;
      LockedRowUnchanged(events, later[..n], worker, id);
      assert events + later == events + later[..n] + [later[n]];
      AfterNext(events + later[..n], later[n]);
      AlwaysIsolated(events + later[..n]);
      hide After, Happen, Isolated;
      EventKeepsLocked(After(events + later[..n]), later[n], worker, id);
    }
  }

  lemma EventKeepsLocked(w: World, e: Event, worker: int, id: DeliveryId)
    requires Isolated(w) && worker in w.open && id in w.open[worker].rows
    requires e != Committed(worker) && e != Aborted(worker)
    ensures var after := Happen(w, e);
      && worker in after.open && id in after.open[worker].rows
      && id in after.store.rows && after.store.rows[id] == w.store.rows[id]
  {
    assert Locked(w, id);
  }

  /** A worker that dies leaves nothing behind: whatever it and the others did since it claimed a delivery, once
      its transaction is rolled back the delivery is as it was when it was claimed, and any worker can lease it
      at any time. */
  lemma AbandonedIsRecovered(events: seq<Event>, later: seq<Event>, worker: int, id: DeliveryId, now: int)
    requires worker in After(events).open && id in After(events).open[worker].rows
    requires forall i :: 0 <= i < |later| ==> later[i] != Committed(worker) && later[i] != Aborted(worker)
    ensures var w := After(events + later + [Aborted(worker)]);
      && id in w.store.rows && id in After(events).store.rows
      && w.store.rows[id] == After(events).store.rows[id]
      && !Locked(w, id) && CanLease(w.store.rows, id, now)
  {
    LockedRowUnchanged(events, later, worker, id);
    AlwaysIsolated(events + later);
    AfterNext(events + later, Aborted(worker));
  }

  // ---- transactions are atomic ----

  function Restrict(rows: Rows, ids: set<DeliveryId>): Rows {
    map id | id in rows && id in ids :: rows[id]
  }

  function ApplyAll(s: Store, steps: seq<Step>): Store {
    if steps == [] then s else Apply(ApplyAll(s, steps[..|steps| - 1]), steps[|steps| - 1])
  }

  /** Leases and marks of deliveries among `ids`. */
  ghost predicate Within(steps: seq<Step>, ids: set<DeliveryId>) {
    forall i :: 0 <= i < |steps| ==> (steps[i].Lease? || IsMark(steps[i])) && steps[i].id in ids
  }

  /** Such a step does the same to a store that has more rows and more dead letters. */
  lemma ApplyFrame(outer: Rows, before: seq<DeadLetter>, s: Store, step: Step)
    requires (step.Lease? || IsMark(step)) && step.id in s.rows
    ensures Apply(Store(outer + s.rows, before + s.deadLetters), step)
      == Store(outer + Apply(s, step).rows, before + Apply(s, step).deadLetters)
    ensures Apply(s, step).rows.Keys == s.rows.Keys
  {
    var whole := Store(outer + s.rows, before + s.deadLetters);
    assert whole.rows[step.id] == s.rows[step.id];
    if step.Bury? {
      var d := AsDeadLettered(s.rows[step.id], step.reason, step.response);
      assert before + s.deadLetters + [LetterFor(step.id, d, step.reason)]
        == before + (s.deadLetters + [LetterFor(step.id, d, step.reason)]);
    }
    hide AsDelivered, AsRetry, AsDeadLettered, LetterFor, LeaseFree, Open;
    assert Apply(whole, step).rows == outer + Apply(s, step).rows;
  }

  lemma {:induction false} ReplayFrame(outer: Rows, before: seq<DeadLetter>, s: Store, steps: seq<Step>)
    requires Within(steps, s.rows.Keys)
    ensures ApplyAll(Store(outer + s.rows, before + s.deadLetters), steps)
      == Store(outer + ApplyAll(s, steps).rows, before + ApplyAll(s, steps).deadLetters)
    ensures ApplyAll(s, steps).rows.Keys == s.rows.Keys
  {
    if steps != [] {
      var n := |steps| - 1;
      ReplayFrame(outer, before, s, steps[..n]);
      ApplyFrame(outer, before, ApplyAll(s, steps[..n]), steps[n]);
      hide Apply;
    }
  }

  /** What a transaction has written is what its steps make of the committed versions of its rows. */
  ghost predicate Replays(store: Store, tx: Tx) {
    && Within(tx.steps, tx.rows.Keys)
    && Private(tx) == ApplyAll(Store(Restrict(store.rows, tx.rows.Keys), []), tx.steps)
  }

  ghost predicate Replayable(w: World) {
    forall worker :: worker in w.open ==> Replays(w.store, w.open[worker])
  }

  lemma ReplayNext(base: Store, steps: seq<Step>, step: Step)
    ensures ApplyAll(base, steps + [step]) == Apply(ApplyAll(base, steps), step)
  {
    assert (steps + [step])[..|steps|] == steps;
  }

  lemma StepReplays(store: Store, tx: Tx, step: Step)
    requires Replays(store, tx) && (step.Lease? || IsMark(step)) && step.id in tx.rows
    ensures Replays(store, Performed(tx, step))
  {
    ReplayNext(Store(Restrict(store.rows, tx.rows.Keys), []), tx.steps, step);
    ApplyFrame(map[], [], Private(tx), step);
    hide Apply, ApplyAll;
  }

  /** Locking a further row: nothing that was done before depends on it. */
  lemma LockReplays(store: Store, tx: Tx, id: DeliveryId)
    requires Replays(store, tx) && id in store.rows && id !in tx.rows
    ensures Replays(store, tx.(rows := tx.rows[id := store.rows[id]]))
  {
    var base := Store(Restrict(store.rows, tx.rows.Keys), []);
    AllLocked(store, tx);
    ReplayFrame(map[id := store.rows[id]], [], base, tx.steps);
    var rows := tx.rows[id := store.rows[id]];
    assert rows.Keys == tx.rows.Keys + {id};
    assert Restrict(store.rows, rows.Keys) == map[id := store.rows[id]] + base.rows;
    assert rows == map[id := store.rows[id]] + tx.rows;
    assert [] + base.deadLetters == [] && [] + tx.letters == tx.letters;
    hide ApplyAll;
  }

  lemma AllLocked(store: Store, tx: Tx)
    requires Replays(store, tx)
    ensures Restrict(store.rows, tx.rows.Keys).Keys == tx.rows.Keys
  {
    var base := Store(Restrict(store.rows, tx.rows.Keys), []);
    KeysReplay(base, tx.steps);
  }

  lemma {:induction false} KeysReplay(s: Store, steps: seq<Step>)
    requires forall i :: 0 <= i < |steps| ==> steps[i].Lease? || IsMark(steps[i])
    ensures ApplyAll(s, steps).rows.Keys == s.rows.Keys
  {
    if steps != [] {
      KeysReplay(s, steps[..|steps| - 1]);
    }
  }

  /** A change to other rows does not matter to a transaction. */
  lemma OthersReplay(store: Store, after: Store, tx: Tx)
    requires Replays(store, tx)
    requires forall id :: id in tx.rows ==> id in store.rows && id in after.rows && after.rows[id] == store.rows[id]
    ensures Replays(after, tx)
  {
    var ids := tx.rows.Keys;
    forall id | id in ids ensures id in store.rows && id in after.rows && after.rows[id] == store.rows[id] {
      assert id in tx.rows;
    }
    assert Restrict(after.rows, ids) == Restrict(store.rows, ids);
  }

  lemma StoreChange(w: World, after: Store)
    requires Replayable(w) && LockedAreOpen(w)
    requires forall id :: id in w.store.rows && Locked(w, id) ==> id in after.rows && after.rows[id] == w.store.rows[id]
    ensures Replayable(w.(store := after))
  {
    forall worker | worker in w.open ensures Replays(after, w.open[worker]) {
      forall id | id in w.open[worker].rows ensures id in w.store.rows && Locked(w, id) {
      }
      OthersReplay(w.store, after, w.open[worker]);
    }
  }

  lemma ClaimReplays(w: World, worker: int, id: DeliveryId, now: int, until: int)
    requires Isolated(w) && Replayable(w) && CanLease(Visible(w, worker), id, now)
    ensures var tx := TxOf(w, worker);
      Replays(w.store, Performed(tx.(rows := tx.rows[id := Visible(w, worker)[id]]), Lease(id, now, until)))
  {
    var tx := TxOf(w, worker);
    assert Replays(w.store, NOTHING) by {
      assert Restrict(w.store.rows, NOTHING.rows.Keys) == map[];
    }
    if id in tx.rows {
      assert tx.rows[id := Visible(w, worker)[id]] == tx.rows;
    } else {
      LockReplays(w.store, tx, id);
    }
    StepReplays(w.store, tx.(rows := tx.rows[id := Visible(w, worker)[id]]), Lease(id, now, until));
  }

  lemma HappenKeepsReplayable(w: World, e: Event)
    requires Isolated(w) && Replayable(w)
    ensures Replayable(Happen(w, e))
  {
    hide Replays, Performed;
    match e
    case Emitted(id, key, now) => StoreChange(w, Apply(w.store, Enqueue(id, key, now)));
    case Claimed(worker, id, now, until) =>
      if !LockedByOther(w, worker, id) && CanLease(Visible(w, worker), id, now) {
        ClaimReplays(w, worker, id, now, until);
      }
    case Finished(worker, id, result, _) =>
      if IsSending(w, worker, id) {
        StepReplays(w.store, w.open[worker], Workers.MarkFor(id, result));
      }
    case Committed(worker) =>
      if worker in w.open && InDelivery(w.open[worker].rows) == {} {
        var rest := w.(open := w.open - {worker});
        StoreChange(rest, Happen(w, e).store);
      }
    case Aborted(worker) =>
    case Requeued(id, now, seen) =>
      if !Locked(w, id) {
        StoreChange(w, Apply(w.store, RetryStep(id, now, seen)));
      }
  }

  lemma {:induction false} AlwaysReplayable(events: seq<Event>)
    ensures Replayable(After(events))
  {
    if events != [] {
      AlwaysIsolated(events[..|events| - 1]);
      AlwaysReplayable(events[..|events| - 1]);
      HappenKeepsReplayable(After(events[..|events| - 1]), events[|events| - 1]);
    }
  }

  /** The steps an event adds to the serial history: a transaction's all at once, when it commits. */
  function StepsFor(w: World, e: Event): seq<Step> {
    match e
    case Emitted(id, key, now) => [Enqueue(id, key, now)]
    case Committed(worker) => if worker in w.open && InDelivery(w.open[worker].rows) == {} then w.open[worker].steps else []
    case Requeued(id, now, seen) => if Locked(w, id) then [] else [RetryStep(id, now, seen)]
    case _ => []
  }

  function StepsOf(events: seq<Event>): seq<Step> {
    if events == [] then []
    else StepsOf(events[..|events| - 1]) + StepsFor(After(events[..|events| - 1]), events[|events| - 1])
  }

  lemma {:induction false} RunConcat(first: seq<Step>, second: seq<Step>)
    ensures Run(first + second) == ApplyAll(Run(first), second)
    decreases |second|
  {
    if second == [] {
      assert first + second == first;
    } else {
      var n := |second| - 1;
      RunConcat(first, second[..n]);
      assert (first + second)[..|first + second| - 1] == first + second[..n];
    }
  }

  lemma CommitIsReplay(store: Store, tx: Tx)
    requires Replays(store, tx)
    ensures ApplyAll(store, tx.steps) == Store(store.rows + tx.rows, store.deadLetters + tx.letters)
  {
    var base := Store(Restrict(store.rows, tx.rows.Keys), []);
    AllLocked(store, tx);
    ReplayFrame(store.rows, store.deadLetters, base, tx.steps);
    assert store.rows + base.rows == store.rows && store.deadLetters + [] == store.deadLetters;
  }

  lemma EventIsSteps(w: World, e: Event)
    requires Replayable(w)
    ensures Happen(w, e).store == ApplyAll(w.store, StepsFor(w, e))
  {
    if e.Committed? && e.worker in w.open {
      CommitIsReplay(w.store, w.open[e.worker]);
    } else if StepsFor(w, e) != [] {
      ReplayNext(w.store, [], StepsFor(w, e)[0]);
      assert [] + StepsFor(w, e) == StepsFor(w, e);
      hide Apply;
    }
  }

  /** However transactions overlap, abort and wait for each other, the committed store is the result of the
      committed steps one after another: the store's own results hold of it. */
  lemma {:induction false} TransactionsAreSerial(events: seq<Event>)
    ensures After(events).store == Run(StepsOf(events))
  {
    if events != [] {
      hide Happen, Apply, Replayable;
      var n := |events| - 1;
      TransactionsAreSerial(events[..n]);
      AlwaysReplayable(events[..n]);
      EventIsSteps(After(events[..n]), events[n]);
      RunConcat(StepsOf(events[..n]), StepsFor(After(events[..n]), events[n]));
    } else {
      assert Run([]) == Store(map[], []);
    }
  }

  /** So every committed mark is counted, in the attempts and in the dead letters, and none is lost. */
  lemma CommittedAccounting(events: seq<Event>, id: DeliveryId)
    ensures var s := After(events).store;
      && AttemptsOf(s, id) == Marks(StepsOf(events), id)
      && |LettersOf(s.deadLetters, id)| == Burials(StepsOf(events), id)
      && Increasing(LettersOf(s.deadLetters, id), Marks(StepsOf(events), id))
  {
    TransactionsAreSerial(events);
    Accounting(StepsOf(events), id);
  }

  // ---- how often the endpoint can get an event ----

  function CountEvents(events: seq<Event>, counts: (World, Event) -> bool): nat {
    if events == [] then 0
    else
      CountEvents(events[..|events| - 1], counts) +
      (if counts(After(events[..|events| - 1]), events[|events| - 1]) then 1 else 0)
  }

  /** The endpoint receives the delivery. */
  predicate Arrives(id: DeliveryId, w: World, e: Event) {
    e.Finished? && e.id == id && IsSending(w, e.worker, id) && (e.received || e.result.Sent?)
  }

  /** It does, but the worker does not learn of it. */
  predicate AnswerLost(id: DeliveryId, w: World, e: Event) {
    Arrives(id, w, e) && !e.result.Sent?
  }

  /** The transaction that recorded a successful send is rolled back. */
  predicate SuccessRolledBack(id: DeliveryId, w: World, e: Event) {
    && e.Aborted? && e.worker in w.open && id in w.open[e.worker].rows
    && w.open[e.worker].rows[id].status.Delivered?
  }

  /** A manual retry takes the delivery up again. */
  predicate RetriedByHand(id: DeliveryId, w: World, e: Event) {
    e.Requeued? && e.id == id && !e.seen.Queued? && !Locked(w, id)
  }

  function Receipts(events: seq<Event>, id: DeliveryId): nat {
    CountEvents(events, (w, e) => Arrives(id, w, e))
  }

  function LostAnswers(events: seq<Event>, id: DeliveryId): nat {
    CountEvents(events, (w, e) => AnswerLost(id, w, e))
  }

  function Rollbacks(events: seq<Event>, id: DeliveryId): nat {
    CountEvents(events, (w, e) => SuccessRolledBack(id, w, e))
  }

  function HandRetries(events: seq<Event>, id: DeliveryId): nat {
    CountEvents(events, (w, e) => RetriedByHand(id, w, e))
  }

  predicate IsDelivered(rows: Rows, id: DeliveryId) {
    id in rows && rows[id].status.Delivered?
  }

  /** Whether the delivery is recorded as delivered, committed or not. */
  ghost predicate Settled(w: World, id: DeliveryId) {
    IsDelivered(w.store.rows, id) || exists worker :: worker in w.open && IsDelivered(w.open[worker].rows, id)
  }

  function Count(b: bool): nat {
    if b then 1 else 0
  }

  lemma EventExcused(w: World, e: Event, id: DeliveryId)
    requires Isolated(w)
    ensures Count(Arrives(id, w, e)) + (if Settled(w, id) then 1 else 0)
      <= Count(AnswerLost(id, w, e)) + Count(SuccessRolledBack(id, w, e)) + Count(RetriedByHand(id, w, e))
         + (if Settled(Happen(w, e), id) then 1 else 0)
  {
    match e
    case Claimed(worker, other, now, until) => ClaimKeepsSettled(w, e, id);
    case Finished(worker, other, result, _) => FinishExcused(w, e, id);
    case Committed(worker) => CommitKeepsSettled(w, worker, id);
    case Aborted(worker) =>
      if Settled(w, id) && !IsDelivered(w.store.rows, id) {
        var holder :| holder in w.open && IsDelivered(w.open[holder].rows, id);
        assert holder != worker ==> holder in Happen(w, e).open;
      }
    case _ => StoreStepExcused(w, e, id);
  }

  lemma StoreStepExcused(w: World, e: Event, id: DeliveryId)
    requires Isolated(w) && (e.Emitted? || e.Requeued?)
    ensures Settled(w, id) ==> Settled(Happen(w, e), id) || RetriedByHand(id, w, e)
  {
    var after := Happen(w, e);
    assert after.open == w.open;
    if IsDelivered(w.store.rows, id) && !(e.Requeued? && e.id == id) {
      assert IsDelivered(after.store.rows, id);
    }
  }

  lemma ClaimKeepsSettled(w: World, e: Event, id: DeliveryId)
    requires Isolated(w) && e.Claimed?
    ensures Settled(w, id) ==> Settled(Happen(w, e), id)
  {
    var after := Happen(w, e);
    if Settled(w, id) && !IsDelivered(w.store.rows, id) {
      var holder :| holder in w.open && IsDelivered(w.open[holder].rows, id);
      if holder == e.worker && after != w {
        var tx := TxOf(w, e.worker);
        assert e.id != id;
        PerformedRow(tx.(rows := tx.rows[e.id := Visible(w, e.worker)[e.id]]), Lease(e.id, e.now, e.until));
      }
      assert holder in after.open && IsDelivered(after.open[holder].rows, id);
    }
  }

  lemma FinishExcused(w: World, e: Event, id: DeliveryId)
    requires Isolated(w) && e.Finished?
    ensures Count(Arrives(id, w, e)) + (if Settled(w, id) then 1 else 0)
      <= Count(AnswerLost(id, w, e)) + (if Settled(Happen(w, e), id) then 1 else 0)
  {
    if IsSending(w, e.worker, e.id) {
      var after := Happen(w, e);
      PerformedRow(w.open[e.worker], Workers.MarkFor(e.id, e.result));
      hide Performed;
      if e.id == id {
        assert !Settled(w, id);
        assert e.result.Sent? ==> IsDelivered(after.open[e.worker].rows, id);
      } else if Settled(w, id) && !IsDelivered(w.store.rows, id) {
        var holder :| holder in w.open && IsDelivered(w.open[holder].rows, id);
        assert holder in after.open && IsDelivered(after.open[holder].rows, id);
      }
    }
  }

  lemma CommitKeepsSettled(w: World, worker: int, id: DeliveryId)
    requires Isolated(w)
    ensures Settled(w, id) ==> Settled(Happen(w, Committed(worker)), id)
  {
    var after := Happen(w, Committed(worker));
    if Settled(w, id) && after != w {
      if IsDelivered(w.store.rows, id) {
        assert IsDelivered(after.store.rows, id);
      } else {
        var holder :| holder in w.open && IsDelivered(w.open[holder].rows, id);
        if holder != worker {
          assert holder in after.open;
        } else {
          assert IsDelivered(after.store.rows, id);
        }
      }
    }
  }

  lemma {:induction false} ReceiptsExcused(events: seq<Event>, id: DeliveryId)
    ensures Receipts(events, id)
      <= LostAnswers(events, id) + Rollbacks(events, id) + HandRetries(events, id) + (if Settled(After(events), id) then 1 else 0)
  {
    if events != [] {
      var n := |events| - 1;
      ReceiptsExcused(events[..n], id);
      AlwaysIsolated(events[..n]);
      EventExcused(After(events[..n]), events[n], id);
      hide Happen, Isolated, Settled, Arrives, AnswerLost, SuccessRolledBack, RetriedByHand;
    }
  }

  /** The endpoint gets a delivery at most once, and once more only for every answer that is lost, every
      rollback after a success, and every manual retry. */
  lemma ReceiptsBound(events: seq<Event>, id: DeliveryId)
    ensures Receipts(events, id) <= 1 + LostAnswers(events, id) + Rollbacks(events, id) + HandRetries(events, id)
  {
    ReceiptsExcused(events, id);
  }

  lemma CountNext(events: seq<Event>, e: Event, id: DeliveryId)
    ensures Receipts(events + [e], id) == Receipts(events, id) + Count(Arrives(id, After(events), e))
    ensures HandRetries(events + [e], id) == HandRetries(events, id) + Count(RetriedByHand(id, After(events), e))
  {
    assert (events + [e])[..|events|] == events;
  }

  /** A successful send whose transaction is rolled back is sent again, by anyone and whenever: after any run,
      two more events bring the same event to the endpoint once more. */
  lemma RollbackResends(events: seq<Event>, worker: int, other: int, id: DeliveryId, now: int, until: int)
    requires SuccessRolledBack(id, After(events), Aborted(worker))
    requires other !in After(events).open || other == worker
    ensures var rolledBack := events + [Aborted(worker)];
      Receipts(rolledBack + [Claimed(other, id, now, until)] + [Finished(other, id, Workers.Sent(None), true)], id)
        == Receipts(events, id) + 1
  {
    var rolledBack := events + [Aborted(worker)];
    var claimed := rolledBack + [Claimed(other, id, now, until)];
    var w := After(rolledBack);
    AlwaysIsolated(events);
    AbandonedIsRecovered(events, [], worker, id, now);
    assert events + [] + [Aborted(worker)] == rolledBack;
    AfterNext(events, Aborted(worker));
    AfterNext(rolledBack, Claimed(other, id, now, until));
    hide After, Receipts;
    assert other !in w.open && !LockedByOther(w, other, id) && Visible(w, other) == w.store.rows;
    PerformedRow(NOTHING.(rows := map[id := w.store.rows[id]]), Lease(id, now, until));
    assert IsSending(After(claimed), other, id);
    CountNext(events, Aborted(worker), id);
    CountNext(rolledBack, Claimed(other, id, now, until), id);
    CountNext(claimed, Finished(other, id, Workers.Sent(None), true), id);
  }

  /** A delivery is queued at time 0, and a worker claims it. */
  function Queued(): seq<Event> {
    [Emitted(7, "k", 0)]
  }

  function Claiming(worker: int): seq<Event> {
    Queued() + [Claimed(worker, 7, 0, 60)]
  }

  lemma QueuedWorld() returns (row: Delivery)
    ensures After(Queued()) == World(Store(map[7 := row], []), map[])
    ensures row.status.Queued? && row.lease.None? && row.nextAttempt == 0
    ensures Receipts(Queued(), 7) == 0
  {
    assert After([]) == World(Store(map[], []), map[]) && !KeyTaken(map[], "k") && Receipts([], 7) == 0;
    assert [] + [Emitted(7, "k", 0)] == Queued();
    AfterNext([], Emitted(7, "k", 0));
    CountNext([], Emitted(7, "k", 0), 7);
    row := After(Queued()).store.rows[7];
  }

  lemma ClaimedWorld(worker: int) returns (row: Delivery)
    ensures var w := After(Claiming(worker));
      w.store == Store(map[7 := row], []) && w.open.Keys == {worker} && w.open[worker].rows.Keys == {7} && IsSending(w, worker, 7)
    ensures Receipts(Claiming(worker), 7) == 0
  {
    row := QueuedWorld();
    AfterNext(Queued(), Claimed(worker, 7, 0, 60));
    CountNext(Queued(), Claimed(worker, 7, 0, 60), 7);
    hide After, Receipts;
    PerformedRow(NOTHING.(rows := map[7 := row]), Lease(7, 0, 60));
  }

  lemma Sends(worker: int) returns (events: seq<Event>)
    ensures SuccessRolledBack(7, After(events), Aborted(worker)) && After(events).open.Keys == {worker}
    ensures Receipts(events, 7) == 1
    ensures forall i :: 0 <= i < |events| ==> !Excusing(events[i])
  {
    var row := ClaimedWorld(worker);
    var sent := Finished(worker, 7, Workers.Sent(None), true);
    AfterNext(Claiming(worker), sent);
    CountNext(Claiming(worker), sent, 7);
    hide After, Receipts;
    events := Claiming(worker) + [sent];
    PerformedRow(After(Claiming(worker)).open[worker], Deliver(7, None));
  }

  /** An event that could excuse a repeated receipt other than by a rollback. */
  predicate Excusing(e: Event) {
    e.Requeued? || (e.Finished? && !e.result.Sent?)
  }

  lemma {:induction false} NothingExcused(events: seq<Event>, id: DeliveryId)
    requires forall i :: 0 <= i < |events| ==> !Excusing(events[i])
    ensures LostAnswers(events, id) == 0 && HandRetries(events, id) == 0
  {
    if events != [] {
      NothingExcused(events[..|events| - 1], id);
    }
  }

  /** So without any retry by hand or lost answer the endpoint can get one event twice. */
  lemma RollbackDuplicates()
    ensures exists events :: Receipts(events, 7) == 2 && LostAnswers(events, 7) == 0 && HandRetries(events, 7) == 0
  {
    var events := Sends(1);
    RollbackResends(events, 1, 2, 7, 0, 60);
    var more := events + [Aborted(1)] + [Claimed(2, 7, 0, 60)] + [Finished(2, 7, Workers.Sent(None), true)];
    NothingExcused(more, 7);
  }

  // ---- exactly when the endpoint can get a delivery again ----

  lemma {:induction false} CountsGrow(events: seq<Event>, later: seq<Event>, counts: (World, Event) -> bool)
    ensures CountEvents(events, counts) <= CountEvents(events + later, counts)
  {
    if later == [] {
      assert events + later == events;
    } else {
      var n := |later| - 1;
      assert (events + later)[..|events + later| - 1] == events + later[..n];
      CountsGrow(events, later[..n], counts);
    }
  }

  /** A committed row that is closed, and so in nobody's hands. */
  ghost predicate Closed(w: World, id: DeliveryId) {
    id in w.store.rows && !Open(w.store.rows[id]) && !Locked(w, id)
  }

  lemma EventKeepsClosed(w: World, e: Event, id: DeliveryId)
    requires Isolated(w) && Closed(w, id) && !RetriedByHand(id, w, e)
    ensures Closed(Happen(w, e), id) && !Arrives(id, w, e)
  {
    var after := Happen(w, e);
    match e
    case Claimed(worker, other, now, until) => ClosedIsNotClaimed(w, e, id);
    case Finished(worker, other, result, _) =>
      if IsSending(w, worker, other) {
        PerformedRow(w.open[worker], Workers.MarkFor(other, result));
        hide Performed;
      }
    case _ =>
  }

  lemma ClosedIsNotClaimed(w: World, e: Event, id: DeliveryId)
    requires Isolated(w) && Closed(w, id) && e.Claimed?
    ensures Closed(Happen(w, e), id)
  {
    if !LockedByOther(w, e.worker, e.id) && CanLease(Visible(w, e.worker), e.id, e.now) {
      var tx := TxOf(w, e.worker);
      assert e.id != id;
      PerformedRow(tx.(rows := tx.rows[e.id := Visible(w, e.worker)[e.id]]), Lease(e.id, e.now, e.until));
      hide Performed;
    }
  }

  lemma {:induction false} ClosedStaysClosed(events: seq<Event>, later: seq<Event>, id: DeliveryId)
    requires Closed(After(events), id) && HandRetries(events + later, id) == HandRetries(events, id)
    ensures Closed(After(events + later), id) && Receipts(events + later, id) == Receipts(events, id)
  {
    if later == [] {
      assert events + later == events;
    } else {
      var n := |later| - 1;
      var before := events + later[..n];
      assert (events + later)[..|events + later| - 1] == before;
      CountsGrow(events, later[..n], (w, e) => RetriedByHand(id, w, e));
      ClosedStaysClosed(events, later[..n], id);
      AlwaysIsolated(before);
      EventKeepsClosed(After(before), later[n], id);
      hide Happen, Isolated, Closed, Arrives, RetriedByHand;
    }
  }

  lemma ClaimAndSend(events: seq<Event>, worker: int, id: DeliveryId)
    requires var w := After(events);
      worker !in w.open && !Locked(w, id) && id in w.store.rows && Open(w.store.rows[id])
    ensures var later := [Claimed(worker, id, 0, 0)] + [Finished(worker, id, Workers.Sent(None), true)];
      Receipts(events + later, id) == Receipts(events, id) + 1 && HandRetries(events + later, id) == HandRetries(events, id)
  {
    var w, claim, send := After(events), Claimed(worker, id, 0, 0), Finished(worker, id, Workers.Sent(None), true);
    AlwaysIsolated(events);
    AfterNext(events, claim);
    hide After, Receipts, HandRetries;
    assert CanLease(Visible(w, worker), id, 0) && !LockedByOther(w, worker, id);
    PerformedRow(NOTHING.(rows := map[id := w.store.rows[id]]), Lease(id, 0, 0));
    assert IsSending(After(events + [claim]), worker, id);
    CountNext(events, claim, id);
    CountNext(events + [claim], send, id);
    assert events + ([claim] + [send]) == events + [claim] + [send];
  }

  lemma NoOne(open: map<int, Tx>) returns (worker: int)
    ensures worker !in open
  {
    if open.Keys == {} {
      worker := 0;
    } else {
      worker := Least(open.Keys) - 1;
    }
  }

  /** After any run, and without a manual retry, the endpoint can get an existing delivery (again) if and only if
      its committed row is open: neither sending it nor even recording that it was sent rules it out, only
      committing the record does. */
  lemma CanArriveAgainIff(events: seq<Event>, id: DeliveryId)
    requires id in After(events).store.rows
    ensures (exists later ::
               && Receipts(events + later, id) > Receipts(events, id)
               && HandRetries(events + later, id) == HandRetries(events, id))
      <==> Open(After(events).store.rows[id])
  {
    var w := After(events);
    AlwaysIsolated(events);
    if Open(w.store.rows[id]) {
      var later := CanArriveAgain(events, id);
      assert Receipts(events + later, id) > Receipts(events, id);
    } else {
      assert Closed(w, id);
      forall later | HandRetries(events + later, id) == HandRetries(events, id)
        ensures Receipts(events + later, id) == Receipts(events, id)
      {
        ClosedStaysClosed(events, later, id);
      }
    }
  }

  lemma CanArriveAgain(events: seq<Event>, id: DeliveryId) returns (later: seq<Event>)
    requires id in After(events).store.rows && Open(After(events).store.rows[id])
    ensures Receipts(events + later, id) > Receipts(events, id)
    ensures HandRetries(events + later, id) == HandRetries(events, id)
  {
    var w := After(events);
    var freed := [];
    if Locked(w, id) {
      var worker :| worker in w.open && id in w.open[worker].rows;
      AbandonedIsRecovered(events, [], worker, id, 0);
      assert events + [] + [Aborted(worker)] == events + [Aborted(worker)] && events + [] == events;
      CountNext(events, Aborted(worker), id);
      freed := [Aborted(worker)];
    } else {
      assert events + freed == events;
    }
    hide Receipts, HandRetries;
    var other := NoOne(After(events + freed).open);
    ClaimAndSend(events + freed, other, id);
    later := freed + ([Claimed(other, id, 0, 0)] + [Finished(other, id, Workers.Sent(None), true)]);
    assert events + later == events + freed + ([Claimed(other, id, 0, 0)] + [Finished(other, id, Workers.Sent(None), true)]);
  }

  // ---- backoff ----

  /** A stale candidate list ignores the backoff: a delivery is listed as due at time 2, another worker's
      committed transaction puts it off until time 100, and it can be leased from the list all the same. */
  lemma StaleCandidateSkipsBackoff()
    ensures exists events, later ::
      var rows := After(events + later).store.rows;
      && 7 in Due(After(events).store.rows, 2)
      && CanLease(rows, 7, 2) && !Locked(After(events + later), 7)
      && rows[7].nextAttempt == 100 && 7 !in Due(rows, 2)
  {
    var queued := QueuedWorld();
    var row := ClaimedWorld(1);
    hide After;
    var put := Finished(1, 7, Workers.Again(100, None, None), false);
    AfterNext(Claiming(1), put);
    AfterNext(Claiming(1) + [put], Committed(1));
    var later := [Claimed(1, 7, 0, 60)] + [put] + [Committed(1)];
    assert Claiming(1) + [put] + [Committed(1)] == Queued() + later;
    assert 7 in Due(After(Queued()).store.rows, 2);
  }
}
