/** The transactional outbox: leased deliveries, retries, dead letters and manual requeueing. */
module Outbox {
  import opened Collections

  type DeliveryId = int

  datatype Status = Queued | Delivering | Retrying | Delivered | DeadLettered

  datatype Delivery = Delivery(
    key: string, status: Status, attempts: nat, nextAttempt: int, lease: Option<int>, createdAt: int,
    response: Option<int>, error: Option<string>)

  datatype DeadLetter = DeadLetter(delivery: DeliveryId, reason: string, attempts: nat, firstFailed: int)

  type Rows = map<DeliveryId, Delivery>

  datatype Store = Store(rows: Rows, deadLetters: seq<DeadLetter>)

  predicate Open(d: Delivery) {
    d.status.Queued? || d.status.Retrying?
  }

  predicate LeaseFree(d: Delivery, now: int) {
    d.lease.None? || d.lease.value < now
  }

  /** The candidate query: open deliveries whose next attempt has come, with their creation times. */
  function Due(rows: Rows, now: int): map<DeliveryId, int> {
    map id | id in rows && Open(rows[id]) && rows[id].nextAttempt <= now && LeaseFree(rows[id], now) :: rows[id].createdAt
  }

  /** Waiting to be sent, its next attempt come, and without a lease that is still running. */
  predicate IsDue(rows: Rows, id: DeliveryId, now: int) {
    && id in rows
    && (rows[id].status == Queued || rows[id].status == Retrying)
    && rows[id].nextAttempt <= now
    && (rows[id].lease == None || rows[id].lease.value < now)
  }

  predicate InOrderOfCreation(rows: Rows, ids: seq<DeliveryId>) {
    forall i, j :: 0 <= i < j < |ids| ==> ids[i] in rows && ids[j] in rows && rows[ids[i]].createdAt <= rows[ids[j]].createdAt
  }

  /** The guard of the lease update. Unlike the candidate query it does not look at the next attempt. */
  predicate CanLease(rows: Rows, id: DeliveryId, now: int) {
    id in rows && Open(rows[id]) && LeaseFree(rows[id], now)
  }

  function Leased(rows: Rows, ids: set<DeliveryId>, until: int): Rows {
    map id | id in rows :: if id in ids then rows[id].(status := Delivering, lease := Some(until)) else rows[id]
  }

  predicate KeyTaken(rows: Rows, key: string) {
    exists id :: id in rows && rows[id].key == key
  }

  function Enqueued(rows: Rows, id: DeliveryId, key: string, now: int): Rows {
    if KeyTaken(rows, key) then rows else rows[id := Delivery(key, Queued, 0, now, None, now, None, None)]
  }

  function AsDelivered(d: Delivery, response: Option<int>): Delivery {
    d.(status := Delivered, response := response, attempts := d.attempts + 1, lease := None, error := None)
  }

  function AsRetry(d: Delivery, nextAttempt: int, error: Option<string>, response: Option<int>): Delivery {
    d.(status := Retrying, attempts := d.attempts + 1, nextAttempt := nextAttempt, lease := None,
       response := response, error := error)
  }

  function AsDeadLettered(d: Delivery, reason: string, response: Option<int>): Delivery {
    d.(status := DeadLettered, attempts := d.attempts + 1, lease := None, response := response, error := Some(reason))
  }

  function AsRequeued(d: Delivery, now: int): Delivery {
    d.(status := Queued, nextAttempt := now, lease := None)
  }

  function LetterFor(id: DeliveryId, d: Delivery, reason: string): DeadLetter {
    DeadLetter(id, Truncate(reason, 64), d.attempts, d.createdAt)
  }

  class IntegrationRepository {
    var rows: Rows
    var deadLetters: seq<DeadLetter>

    ghost function State(): Store
      reads this
    {
      Store(rows, deadLetters)
    }

    constructor ()
      ensures State() == Store(map[], [])
    {
      rows := map[];
      deadLetters := [];
    }

    /** One delivery per idempotency key; a duplicate source event adds nothing. */
    method Enqueue(id: DeliveryId, key: string, now: int) returns (added: bool)
      requires id !in rows
      modifies this
      ensures added <==> forall other :: other in old(rows) ==> old(rows)[other].key != key
      ensures added ==> rows == old(rows)[id := Delivery(key, Queued, 0, now, None, now, None, None)]
      ensures State() == old(State()).(rows := Enqueued(old(rows), id, key, now))
    {
      added := !KeyTaken(rows, key);
      if added {
        rows := rows[id := Delivery(key, Queued, 0, now, None, now, None, None)];
      }
    }

    method TryLease(id: DeliveryId, now: int, until: int) returns (won: bool)
      modifies this
      ensures won <==> CanLease(old(rows), id, now)
      ensures won <==>
        && id in old(rows)
        && (old(rows)[id].status == Queued || old(rows)[id].status == Retrying)
        && (old(rows)[id].lease == None || old(rows)[id].lease.value < now)
      ensures won ==> rows == old(rows)[id := old(rows)[id].(status := Delivering, lease := Some(until))]
      ensures State() == if won then old(State()).(rows := Leased(old(rows), {id}, until)) else old(State())
    {
      won := CanLease(rows, id, now);
      if won {
        rows := rows[id := rows[id].(status := Delivering, lease := Some(until))];
      }
    }

    /** Leases the oldest due deliveries. */
    method ClaimDeliveries(limit: nat, leaseSeconds: int, now: int) returns (claimed: seq<DeliveryId>)
      modifies this
      ensures OldestFirst(Due(old(rows), now), limit, claimed)
      ensures forall id :: id in claimed ==> IsDue(old(rows), id, now)
      ensures InOrderOfCreation(old(rows), claimed)
      ensures forall x, y :: x in claimed && IsDue(old(rows), y, now) && y !in claimed ==>
        x in old(rows) && old(rows)[x].createdAt <= old(rows)[y].createdAt
      ensures State() == old(State()).(rows := Leased(old(rows), Elements(claimed), now + leaseSeconds))
    {
      var candidates := SelectOldest(Due(rows, now), limit);
      claimed := [];
      hide OldestFirst, CanLease, Leased, Due;
      NothingLeased(rows, candidates, now + leaseSeconds);
      for i := 0 to |candidates|
        invariant claimed == candidates[..i]
        invariant deadLetters == old(deadLetters)
        invariant rows == Leased(old(rows), Elements(claimed), now + leaseSeconds)
      {
        NextLease(old(rows), now, limit, candidates, i, now + leaseSeconds);
        var won := TryLease(candidates[i], now, now + leaseSeconds);
        if won {
          claimed := claimed + [candidates[i]];
        }
      }
      assert candidates[..|candidates|] == candidates;
      OldestAreDue(old(rows), now, limit, candidates);
    }

    method MarkDelivered(id: DeliveryId, response: Option<int>)
      requires id in rows
      modifies this
      ensures State() == old(State()).(rows := old(rows)[id := AsDelivered(old(rows)[id], response)])
      ensures rows[id] == old(rows)[id].(
        status := Delivered, attempts := old(rows)[id].attempts + 1, lease := None, response := response, error := None)
    {
      rows := rows[id := rows[id].(status := Delivered, response := response)];
      rows := rows[id := rows[id].(attempts := rows[id].attempts + 1)];
      rows := rows[id := rows[id].(lease := None, error := None)];
    }

    method MarkRetry(id: DeliveryId, delay: int, error: Option<string>, response: Option<int>, now: int)
      requires id in rows
      modifies this
      ensures State() == old(State()).(rows := old(rows)[id := AsRetry(old(rows)[id], now + delay, error, response)])
      ensures rows[id] == old(rows)[id].(
        status := Retrying, attempts := old(rows)[id].attempts + 1, nextAttempt := now + delay, lease := None,
        response := response, error := error)
    {
      rows := rows[id := rows[id].(status := Retrying, attempts := rows[id].attempts + 1)];
      rows := rows[id := rows[id].(nextAttempt := now + delay, lease := None)];
      rows := rows[id := rows[id].(response := response, error := error)];
    }

    method MarkDeadLetter(id: DeliveryId, reason: string, response: Option<int>)
      requires id in rows
      modifies this
      ensures State() == DeadLettering(old(State()), id, reason, response)
      ensures rows[id] == old(rows)[id].(
        status := DeadLettered, attempts := old(rows)[id].attempts + 1, lease := None, response := response, error := Some(reason))
      ensures deadLetters == old(deadLetters) +
        [DeadLetter(id, Truncate(reason, 64), old(rows)[id].attempts + 1, old(rows)[id].createdAt)]
    {
      rows := rows[id := rows[id].(status := DeadLettered, attempts := rows[id].attempts + 1, lease := None)];
      rows := rows[id := rows[id].(response := response, error := Some(reason))];
      deadLetters := deadLetters + [DeadLetter(id, Truncate(reason, 64), rows[id].attempts, rows[id].createdAt)];
    }

    method Requeue(id: DeliveryId, now: int)
      requires id in rows
      modifies this
      ensures State() == old(State()).(rows := old(rows)[id := AsRequeued(old(rows)[id], now)])
      ensures rows[id] == old(rows)[id].(status := Queued, nextAttempt := now, lease := None)
    {
      rows := rows[id := rows[id].(status := Queued, nextAttempt := now, lease := None)];
    }
  }

  /** What the candidate query may return, by creation time. */
  lemma OldestAreDue(rows: Rows, now: int, limit: nat, picked: seq<DeliveryId>)
    requires OldestFirst(Due(rows, now), limit, picked)
    ensures forall id :: id in picked ==> IsDue(rows, id, now)
    ensures InOrderOfCreation(rows, picked)
    ensures forall x, y :: x in picked && IsDue(rows, y, now) && y !in picked ==>
      x in rows && rows[x].createdAt <= rows[y].createdAt
  {
    assert forall id :: IsDue(rows, id, now) <==> id in Due(rows, now);
    forall i | 0 <= i < |picked| ensures IsDue(rows, picked[i], now) {
      assert picked[i] in picked;
    }
    forall i, j | 0 <= i < j < |picked| ensures rows[picked[i]].createdAt <= rows[picked[j]].createdAt {
      assert Due(rows, now)[picked[i]] <= Due(rows, now)[picked[j]];
    }
    forall x, y | x in picked && IsDue(rows, y, now) && y !in picked ensures rows[x].createdAt <= rows[y].createdAt {
      assert Due(rows, now)[x] <= Due(rows, now)[y];
    }
  }

  lemma NothingLeased(rows: Rows, candidates: seq<DeliveryId>, until: int)
    ensures Leased(rows, Elements(candidates[..0]), until) == rows
  {
  }

  lemma NextLease(rows: Rows, now: int, limit: nat, candidates: seq<DeliveryId>, i: nat, until: int)
    requires OldestFirst(Due(rows, now), limit, candidates) && i < |candidates|
    ensures var leased := Leased(rows, Elements(candidates[..i]), until);
      && CanLease(leased, candidates[i], now)
      && Leased(leased, {candidates[i]}, until) == Leased(rows, Elements(candidates[..i] + [candidates[i]]), until)
    ensures candidates[..i] + [candidates[i]] == candidates[..i + 1]
  {
    assert candidates[i] in candidates && candidates[i] !in candidates[..i];
  }

  function DeadLettering(s: Store, id: DeliveryId, reason: string, response: Option<int>): Store
    requires id in s.rows
  {
    var d := AsDeadLettered(s.rows[id], reason, response);
    Store(s.rows[id := d], s.deadLetters + [LetterFor(id, d, reason)])
  }

  // ---- whole runs, with no discipline on who marks or requeues what ----

  datatype Step =
    | Enqueue(id: DeliveryId, key: string, now: int)
    | Lease(id: DeliveryId, now: int, until: int)
    | Deliver(id: DeliveryId, response: Option<int>)
    | Retry(id: DeliveryId, nextAttempt: int, error: Option<string>, response: Option<int>)
    | Bury(id: DeliveryId, reason: string, response: Option<int>)
    | Requeue(id: DeliveryId, now: int)
    // a requeue whose session had loaded the row as queued: the status is unchanged and not written
    | Reschedule(id: DeliveryId, now: int)

  predicate IsMark(step: Step) {
    step.Deliver? || step.Retry? || step.Bury?
  }

  function Apply(s: Store, step: Step): Store {
    match step
    case Enqueue(id, key, now) => if id in s.rows then s else s.(rows := Enqueued(s.rows, id, key, now))
    case Lease(id, now, until) => if CanLease(s.rows, id, now) then s.(rows := Leased(s.rows, {id}, until)) else s
    case Deliver(id, response) =>
      if id in s.rows then s.(rows := s.rows[id := AsDelivered(s.rows[id], response)]) else s
    case Retry(id, next, error, response) =>
      if id in s.rows then s.(rows := s.rows[id := AsRetry(s.rows[id], next, error, response)]) else s
    case Bury(id, reason, response) => if id in s.rows then DeadLettering(s, id, reason, response) else s
    case Requeue(id, now) => if id in s.rows then s.(rows := s.rows[id := AsRequeued(s.rows[id], now)]) else s
    case Reschedule(id, now) => if id in s.rows then s.(rows := s.rows[id := s.rows[id].(nextAttempt := now)]) else s
  }

  function Run(steps: seq<Step>): Store {
    if steps == [] then Store(map[], []) else Apply(Run(steps[..|steps| - 1]), steps[|steps| - 1])
  }

  /** How often the run marked, or buried, an existing delivery. */
  function Marks(steps: seq<Step>, id: DeliveryId): nat {
    if steps == [] then 0
    else
      var last := steps[|steps| - 1];
      Marks(steps[..|steps| - 1], id) +
      (if IsMark(last) && last.id == id && id in Run(steps[..|steps| - 1]).rows then 1 else 0)
  }

  function Burials(steps: seq<Step>, id: DeliveryId): nat {
    if steps == [] then 0
    else
      var last := steps[|steps| - 1];
      Burials(steps[..|steps| - 1], id) +
      (if last.Bury? && last.id == id && id in Run(steps[..|steps| - 1]).rows then 1 else 0)
  }

  /** The attempt counts on one delivery's dead letters, oldest first. */
  function LettersOf(letters: seq<DeadLetter>, id: DeliveryId): seq<nat> {
    if letters == [] then []
    else
      var last := letters[|letters| - 1];
      LettersOf(letters[..|letters| - 1], id) + (if last.delivery == id then [last.attempts] else [])
  }

  ghost predicate LeaseIffDelivering(rows: Rows) {
    forall id :: id in rows ==> (rows[id].lease.Some? <==> rows[id].status.Delivering?)
  }

  ghost predicate UniqueKeys(rows: Rows) {
    forall a, b :: a in rows && b in rows && rows[a].key == rows[b].key ==> a == b
  }

  /** In every reachable state a delivery carries a lease exactly while it is being delivered, and no two
      deliveries share an idempotency key. */
  lemma {:induction false} LeaseInvariant(steps: seq<Step>)
    ensures LeaseIffDelivering(Run(steps).rows) && UniqueKeys(Run(steps).rows)
  {
    if steps != [] {
      LeaseInvariant(steps[..|steps| - 1]);
      ApplyKeepsLease(Run(steps[..|steps| - 1]), steps[|steps| - 1]);
      hide Apply;
    }
  }

  lemma ApplyKeepsLease(s: Store, step: Step)
    requires LeaseIffDelivering(s.rows) && UniqueKeys(s.rows)
    ensures LeaseIffDelivering(Apply(s, step).rows) && UniqueKeys(Apply(s, step).rows)
  {
  }

  /** Consequently the lease guard never decides anything: a delivery can be leased exactly when it is
      open, whatever the clock says, and a lease that has run out does not make it available again. */
  lemma {:induction false} ExpiryNeverReclaims(steps: seq<Step>, id: DeliveryId, now: int)
    ensures CanLease(Run(steps).rows, id, now) <==> id in Run(steps).rows && Open(Run(steps).rows[id])
    ensures id in Run(steps).rows && Run(steps).rows[id].status.Delivering? ==> id !in Due(Run(steps).rows, now)
  {
    LeaseInvariant(steps);
  }

  /** A delivery committed as being in delivery stays so, untouched, for as long as nobody marks or requeues
      it, however far the clock advances and however often workers claim. (The delivery worker never commits
      one; see `OutboxTransactions`.) */
  lemma {:induction false} AbandonedStaysDelivering(steps: seq<Step>, later: seq<Step>, id: DeliveryId)
    requires id in Run(steps).rows && Run(steps).rows[id].status.Delivering?
    requires forall i :: 0 <= i < |later| ==> (IsMark(later[i]) || later[i].Requeue? || later[i].Reschedule?) ==> later[i].id != id
    ensures id in Run(steps + later).rows && Run(steps + later).rows[id] == Run(steps).rows[id]
  {
    if later == [] {
      assert steps + later == steps;
    } else {
      var n := |later| - 1;
      AbandonedStaysDelivering(steps, later[..n], id);
      assert (steps + later)[..|steps + later| - 1] == steps + later[..n];
      ExpiryNeverReclaims(steps + later[..n], id, 0);
      LeaseInvariant(steps + later[..n]);
    }
  }

  // ---- backoff ----

  /** What the lease update leaves out: a delivery it accepts is due exactly when its next attempt has come. */
  lemma LeasableIsDueIff(rows: Rows, id: DeliveryId, now: int)
    requires CanLease(rows, id, now)
    ensures id in Due(rows, now) <==> rows[id].nextAttempt <= now
  {
  }

  /** The next attempt that a step sets for a delivery, if it sets one. */
  function SetsNext(step: Step, id: DeliveryId): Option<int> {
    match step
    case Retry(target, next, _, _) => if target == id then Some(next) else None
    case Requeue(target, now) => if target == id then Some(now) else None
    case Reschedule(target, now) => if target == id then Some(now) else None
    case _ => None
  }

  /** The last next attempt that a run sets for a delivery. */
  function LastNext(steps: seq<Step>, id: DeliveryId): Option<int> {
    if steps == [] then None
    else
      var last := SetsNext(steps[|steps| - 1], id);
      if last.Some? then last else LastNext(steps[..|steps| - 1], id)
  }

  lemma ApplySetsNext(s: Store, step: Step, id: DeliveryId)
    requires id in s.rows
    ensures id in Apply(s, step).rows
    ensures Apply(s, step).rows[id].nextAttempt ==
      if SetsNext(step, id).Some? then SetsNext(step, id).value else s.rows[id].nextAttempt
  {
  }

  lemma {:induction false} NextAttemptAfter(steps: seq<Step>, later: seq<Step>, id: DeliveryId)
    requires id in Run(steps).rows
    ensures id in Run(steps + later).rows
    ensures Run(steps + later).rows[id].nextAttempt ==
      match LastNext(later, id) case Some(next) => next case None => Run(steps).rows[id].nextAttempt
  {
    hide Apply, SetsNext;
    if later == [] {
      assert steps + later == steps;
    } else {
      var n := |later| - 1;
      NextAttemptAfter(steps, later[..n], id);
      ApplySetsNext(Run(steps + later[..n]), later[n], id);
      assert (steps + later)[..|steps + later| - 1] == steps + later[..n];
    }
  }

  /** A worker lists a delivery as due and leases it some steps later, with the clock reading of the list. The
      lease respects the backoff if and only if nothing in between put the next attempt past that reading. */
  lemma ListedStaysDueIff(steps: seq<Step>, later: seq<Step>, id: DeliveryId, now: int)
    requires id in Due(Run(steps).rows, now) && CanLease(Run(steps + later).rows, id, now)
    ensures id in Due(Run(steps + later).rows, now) <==>
      LastNext(later, id).None? || LastNext(later, id).value <= now
  {
    NextAttemptAfter(steps, later, id);
    LeasableIsDueIff(Run(steps + later).rows, id, now);
  }

  // ---- accounting ----

  /** Strictly increasing, up to `bound`. */
  ghost predicate Increasing(s: seq<nat>, bound: nat) {
    && (forall i, j :: 0 <= i < j < |s| ==> s[i] < s[j])
    && (forall i :: 0 <= i < |s| ==> s[i] <= bound)
  }

  lemma IncreasingOn(s: seq<nat>, bound: nat)
    requires Increasing(s, bound)
    ensures Increasing(s + [], bound) && s + [] == s && Increasing(s, bound + 1)
    ensures Increasing(s + [bound + 1], bound + 1) && |s + [bound + 1]| == |s| + 1
  {
  }

  lemma LetterAdded(letters: seq<DeadLetter>, letter: DeadLetter, id: DeliveryId)
    ensures LettersOf(letters + [letter], id) ==
      LettersOf(letters, id) + (if letter.delivery == id then [letter.attempts] else [])
  {
    assert (letters + [letter])[..|letters|] == letters;
  }

  function AttemptsOf(s: Store, id: DeliveryId): nat {
    if id in s.rows then s.rows[id].attempts else 0
  }

  lemma ApplyCounts(s: Store, step: Step, id: DeliveryId)
    ensures id in s.rows ==> id in Apply(s, step).rows
    ensures AttemptsOf(Apply(s, step), id) == AttemptsOf(s, id) + (if IsMark(step) && step.id == id && id in s.rows then 1 else 0)
    ensures LettersOf(Apply(s, step).deadLetters, id) == LettersOf(s.deadLetters, id) +
      (if step.Bury? && step.id == id && id in s.rows then [AttemptsOf(s, id) + 1] else [])
  {
    if step.Bury? && step.id in s.rows {
      LetterAdded(s.deadLetters, LetterFor(step.id, AsDeadLettered(s.rows[step.id], step.reason, step.response), step.reason), id);
    }
  }

  /** Accounting over any run: the attempt count is the number of marks, there is one dead letter for
      every time the delivery was dead-lettered, and their attempt counts strictly increase. */
  lemma {:induction false} Accounting(steps: seq<Step>, id: DeliveryId)
    ensures var s := Run(steps);
      && AttemptsOf(s, id) == Marks(steps, id)
      && |LettersOf(s.deadLetters, id)| == Burials(steps, id)
      && Increasing(LettersOf(s.deadLetters, id), Marks(steps, id))
  {
    if steps == [] {
      assert LettersOf([], id) == [] && Increasing([], 0);
    }
    hide Apply, LettersOf, Increasing;
    if steps != [] {
      var before := Run(steps[..|steps| - 1]);
      Accounting(steps[..|steps| - 1], id);
      ApplyCounts(before, steps[|steps| - 1], id);
      IncreasingOn(LettersOf(before.deadLetters, id), Marks(steps[..|steps| - 1], id));
    }
  }
}
