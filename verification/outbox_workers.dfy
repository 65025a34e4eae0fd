/** The repository's operations under workers that commit every call by itself. Such a worker leases a row,
    keeps its own copy of the record while it sends, and writes the outcome back from that copy. (The program's
    own worker holds one transaction over all of this; see `OutboxTransactions`.) */
module OutboxWorkers {
  import opened Collections
  import opened Outbox

  datatype Holder = Holder(worker: int, id: DeliveryId)

  datatype Result =
    | Sent(response: Option<int>)
    | Again(nextAttempt: int, error: Option<string>, status: Option<int>)
    | GiveUp(reason: string, last: Option<int>)

  datatype Event =
    | Emitted(id: DeliveryId, key: string, now: int)
    | Claimed(worker: int, id: DeliveryId, now: int, until: int)
    | Finished(worker: int, id: DeliveryId, result: Result)
    | Requeued(id: DeliveryId, now: int)

  /** The store, and for every delivery in some worker's hands the attempt count in its copy. */
  datatype World = World(store: Store, held: map<Holder, nat>)

  function MarkFor(id: DeliveryId, result: Result): Step {
    match result
    case Sent(response) => Deliver(id, response)
    case Again(next, error, status) => Retry(id, next, error, status)
    case GiveUp(reason, last) => Bury(id, reason, last)
  }

  function WithAttempts(s: Store, id: DeliveryId, attempts: nat): Store
    requires id in s.rows
  {
    s.(rows := s.rows[id := s.rows[id].(attempts := attempts)])
  }

  /** Any worker may try to lease any id at any time, with a clock reading as old as its candidate list. */
  function Happen(w: World, e: Event): World {
    match e
    case Emitted(id, key, now) => w.(store := Apply(w.store, Enqueue(id, key, now)))
    case Claimed(worker, id, now, until) =>
      if CanLease(w.store.rows, id, now)
      then World(Apply(w.store, Lease(id, now, until)), w.held[Holder(worker, id) := w.store.rows[id].attempts])
      else w
    case Finished(worker, id, result) =>
      var holder := Holder(worker, id);
      if holder in w.held && id in w.store.rows
      then World(Apply(WithAttempts(w.store, id, w.held[holder]), MarkFor(id, result)), w.held - {holder})
      else w
    case Requeued(id, now) => w.(store := Apply(w.store, Requeue(id, now)))
  }

  function After(events: seq<Event>): World {
    if events == [] then World(Store(map[], []), map[])
    else Happen(After(events[..|events| - 1]), events[|events| - 1])
  }

  /** Manual retries are only applied to deliveries that are not being delivered at that moment. */
  ghost predicate Guarded(events: seq<Event>) {
    events == [] ||
    (var rows := After(events[..|events| - 1]).store.rows;
     var last := events[|events| - 1];
     && Guarded(events[..|events| - 1])
     && (last.Requeued? && last.id in rows ==> !rows[last.id].status.Delivering?))
  }

  /** Every delivery being delivered is in exactly one worker's hands, with an up-to-date copy. */
  ghost predicate OneHolder(w: World) {
    && LeaseIffDelivering(w.store.rows)
    && (forall h :: h in w.held ==>
          h.id in w.store.rows && w.store.rows[h.id].status.Delivering? && w.held[h] == w.store.rows[h.id].attempts)
    && (forall h, other :: h in w.held && other in w.held && h.id == other.id ==> h == other)
    && (forall id :: id in w.store.rows && w.store.rows[id].status.Delivering? ==> exists h :: h in w.held && h.id == id)
  }

  lemma ClaimKeepsOneHolder(w: World, worker: int, id: DeliveryId, now: int, until: int)
    requires OneHolder(w) && CanLease(w.store.rows, id, now)
    ensures OneHolder(Happen(w, Claimed(worker, id, now, until)))
  {
    var after := Happen(w, Claimed(worker, id, now, until));
    assert after.held == w.held[Holder(worker, id) := w.store.rows[id].attempts];
    assert forall h :: h in w.held ==> h.id != id;
    forall other | other in after.store.rows && after.store.rows[other].status.Delivering?
      ensures exists h :: h in after.held && h.id == other
    {
      if other == id {
        assert Holder(worker, id) in after.held;
      } else {
        var h :| h in w.held && h.id == other;
        assert h in after.held;
      }
    }
  }

  /** Whatever its outcome, finishing a delivery ends its lease and leaves every other row alone. */
  lemma FinishReleases(w: World, worker: int, id: DeliveryId, result: Result)
    requires Holder(worker, id) in w.held && id in w.store.rows
    ensures var after := Happen(w, Finished(worker, id, result));
      && after.held == w.held - {Holder(worker, id)}
      && id in after.store.rows
      && after.store.rows[id].lease == None && !after.store.rows[id].status.Delivering?
      && after.store.rows == w.store.rows[id := after.store.rows[id]]
  {
  }

  lemma FinishKeepsOneHolder(w: World, worker: int, id: DeliveryId, result: Result)
    requires OneHolder(w) && Holder(worker, id) in w.held
    ensures OneHolder(Happen(w, Finished(worker, id, result)))
  {
    var after := Happen(w, Finished(worker, id, result));
    FinishReleases(w, worker, id, result);
    hide Happen;
    assert forall h :: h in after.held ==> h.id != id;
    forall other | other in after.store.rows && after.store.rows[other].status.Delivering?
      ensures exists h :: h in after.held && h.id == other
    {
      var h :| h in w.held && h.id == other;
      assert h in after.held;
    }
  }

  lemma HappenKeepsOneHolder(w: World, e: Event)
    requires OneHolder(w)
    requires e.Requeued? && e.id in w.store.rows ==> !w.store.rows[e.id].status.Delivering?
    ensures OneHolder(Happen(w, e))
  {
    match e
    case Claimed(worker, id, now, until) =>
      if CanLease(w.store.rows, id, now) {
        ClaimKeepsOneHolder(w, worker, id, now, until);
      }
    case Finished(worker, id, result) =>
      if Holder(worker, id) in w.held {
        FinishKeepsOneHolder(w, worker, id, result);
      }
    case _ =>
  }

  /** No delivery is ever in two workers' hands, in any interleaving whose manual retries avoid
      deliveries in progress. */
  lemma {:induction false} GuardedMeansExclusive(events: seq<Event>)
    requires Guarded(events)
    ensures OneHolder(After(events))
  {
    if events != [] {
      GuardedMeansExclusive(events[..|events| - 1]);
      HappenKeepsOneHolder(After(events[..|events| - 1]), events[|events| - 1]);
    }
  }

  /** And exactly those: a manual retry keeps the exclusion if and only if its delivery is not in progress. */
  lemma RequeueBreaksIffDelivering(w: World, id: DeliveryId, now: int)
    requires OneHolder(w) && id in w.store.rows
    ensures OneHolder(Happen(w, Requeued(id, now))) <==> !w.store.rows[id].status.Delivering?
  {
    if w.store.rows[id].status.Delivering? {
      var h :| h in w.held && h.id == id;
      assert h in Happen(w, Requeued(id, now)).held;
    } else {
      HappenKeepsOneHolder(w, Requeued(id, now));
    }
  }

  /** The store operation that an event amounts to, if any. */
  function StepFor(w: World, e: Event): Option<Step> {
    match e
    case Emitted(id, key, now) => Some(Enqueue(id, key, now))
    case Claimed(_, id, now, until) => Some(Lease(id, now, until))
    case Finished(worker, id, result) => if Holder(worker, id) in w.held then Some(MarkFor(id, result)) else None
    case Requeued(id, now) => Some(Requeue(id, now))
  }

  function StepsOf(events: seq<Event>): seq<Step> {
    if events == [] then []
    else
      var earlier := StepsOf(events[..|events| - 1]);
      var step := StepFor(After(events[..|events| - 1]), events[|events| - 1]);
      if step.Some? then earlier + [step.value] else earlier
  }

  lemma RunNext(steps: seq<Step>, step: Step)
    ensures Run(steps + [step]) == Apply(Run(steps), step)
  {
    assert (steps + [step])[..|steps|] == steps;
  }

  lemma EventIsStep(w: World, e: Event)
    requires OneHolder(w)
    ensures var step := StepFor(w, e);
      Happen(w, e).store == if step.Some? then Apply(w.store, step.value) else w.store
  {
    if e.Finished? && Holder(e.worker, e.id) in w.held {
      assert WithAttempts(w.store, e.id, w.held[Holder(e.worker, e.id)]) == w.store;
    }
  }

  /** Under that guard, workers writing back private copies are indistinguishable from one store on which
      every mark is atomic. */
  lemma {:induction false} WorkersRefineStore(events: seq<Event>)
    requires Guarded(events)
    ensures After(events).store == Run(StepsOf(events))
  {
    if events != [] {
      hide Run, Apply, OneHolder, Happen, StepFor;
      var before := After(events[..|events| - 1]);
      var last := events[|events| - 1];
      WorkersRefineStore(events[..|events| - 1]);
      GuardedMeansExclusive(events[..|events| - 1]);
      EventIsStep(before, last);
      if StepFor(before, last).Some? {
        RunNext(StepsOf(events[..|events| - 1]), StepFor(before, last).value);
      }
    } else {
      assert Run([]) == Store(map[], []);
    }
  }

  /** So the accounting of the store is the accounting of the workers. */
  lemma WorkersAccounting(events: seq<Event>, id: DeliveryId)
    requires Guarded(events)
    ensures var s := After(events).store;
      && AttemptsOf(s, id) == Marks(StepsOf(events), id)
      && |LettersOf(s.deadLetters, id)| == Burials(StepsOf(events), id)
  {
    WorkersRefineStore(events);
    Accounting(StepsOf(events), id);
  }

  function Successes(events: seq<Event>, id: DeliveryId): nat {
    if events == [] then 0
    else
      var last := events[|events| - 1];
      Successes(events[..|events| - 1], id) +
      (if last.Finished? && last.id == id && last.result.Sent? && Holder(last.worker, id) in After(events[..|events| - 1]).held
       then 1 else 0)
  }

  lemma AfterNext(events: seq<Event>, e: Event)
    ensures After(events + [e]) == Happen(After(events), e)
  {
    assert (events + [e])[..|events|] == events;
  }

  /** Retrying a delivery in progress puts it in two workers' hands. */
  lemma RequeueInProgress() returns (events: seq<Event>)
    ensures After(events).held == map[Holder(1, 7) := 0, Holder(2, 7) := 0]
    ensures 7 in After(events).store.rows
  {
    events := LeasedOnce();
    hide After;
    AfterNext(events, Requeued(7, 1));
    events := events + [Requeued(7, 1)];
    AfterNext(events, Claimed(2, 7, 1, 61));
    events := events + [Claimed(2, 7, 1, 61)];
  }

  /** Then both send it, and since both write back the count they started from, one mark is lost. */
  lemma RequeueInProgressLosesMark()
    ensures exists events ::
      && Successes(events, 7) >= 2
      && 7 in After(events).store.rows && After(events).store.rows[7].attempts == 1
  {
    var events := RequeueInProgress();
    hide After;
    var once := events + [Finished(1, 7, Sent(None))];
    var twice := once + [Finished(2, 7, Sent(None))];
    AfterNext(events, Finished(1, 7, Sent(None)));
    AfterNext(once, Finished(2, 7, Sent(None)));
    assert once[..|events|] == events && twice[..|once|] == once;
    assert Holder(1, 7) in After(events).held && Holder(2, 7) in After(once).held;
    assert Successes(twice, 7) >= 2;
  }

  /** A delivery of key `key`, just queued at time 0. */
  function JustQueued(key: string): Delivery {
    Delivery(key, Queued, 0, 0, None, 0, None, None)
  }

  lemma QueuedOnce(key: string)
    ensures After([Emitted(7, key, 0)]) == World(Store(map[7 := JustQueued(key)], []), map[])
  {
    assert [Emitted(7, key, 0)][..0] == [];
    assert After([]) == World(Store(map[], []), map[]);
    assert !KeyTaken(map[], key);
  }

  lemma LeasedOnce() returns (events: seq<Event>)
    ensures After(events) == World(
      Store(map[7 := JustQueued("k").(status := Delivering, lease := Some(60))], []), map[Holder(1, 7) := 0])
  {
    var first := [Emitted(7, "k", 0)];
    QueuedOnce("k");
    AfterNext(first, Claimed(1, 7, 0, 60));
    hide After;
    events := first + [Claimed(1, 7, 0, 60)];
    assert Leased(map[7 := JustQueued("k")], {7}, 60) == map[7 := JustQueued("k").(status := Delivering, lease := Some(60))];
  }
}
