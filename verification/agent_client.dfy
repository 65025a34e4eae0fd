/** The agent client's bounded offline queue, driven by an arbitrary transport. */
module OfflineQueue {
  import opened Collections

  datatype Payload = Payload(eventId: string, session: string, body: string)

  datatype Response = Raised | Status(code: int)

  /** The transport's behaviour over a run: what its n-th call answers. */
  type Transport = nat -> Response

  /** 2xx accepted; 409 means the event is already recorded. A transport failure counts as status 0. */
  predicate Delivered(r: Response) {
    r.Status? && (200 <= r.code < 300 || r.code == 409)
  }

  /** Everything emitted so far, in order, and what became of it. Emissions are named by their position
      in the history, so that two emissions with one event id stay apart. */
  datatype Log = Log(
    history: seq<Payload>, queued: seq<nat>, acked: seq<nat>, evicted: seq<nat>, suppressed: seq<nat>, calls: nat)

  /** The queued payloads, oldest first. */
  function Entries(history: seq<Payload>, queued: seq<nat>): (queue: seq<Payload>)
    requires Ordered(queued, |history|)
    ensures |queue| == |queued|
  {
    seq(|queued|, i requires 0 <= i < |queued| => history[queued[i]])
  }

  function Ids(queue: seq<Payload>): set<string> {
    set payload | payload in queue :: payload.eventId
  }

  /** Increasing positions below `bound`. */
  predicate Ordered(s: seq<nat>, bound: nat) {
    && (forall i, j :: 0 <= i < j < |s| ==> s[i] < s[j])
    && (forall i :: 0 <= i < |s| ==> s[i] < bound)
  }

  predicate DistinctIds(queue: seq<Payload>) {
    forall i, j :: 0 <= i < j < |queue| ==> queue[i].eventId != queue[j].eventId
  }

  /** The queue holds, in emission order, at most `limit` emissions with different ids. */
  predicate Bounded(log: Log, limit: nat) {
    && Ordered(log.queued, |log.history|)
    && |log.queued| <= limit
    && DistinctIds(Entries(log.history, log.queued))
  }

  /** Sends from the head of the queue until something is not delivered. */
  function Flushed(log: Log, transport: Transport): Log
    decreases |log.queued|
  {
    if log.queued == [] then log
    else if Delivered(transport(log.calls))
    then Flushed(log.(queued := log.queued[1..], acked := log.acked + [log.queued[0]], calls := log.calls + 1), transport)
    else log.(calls := log.calls + 1)
  }

  /** The newest emission is queued, unless its id already is; a full queue gives up its oldest entry. */
  function Enqueued(log: Log, limit: nat): Log
    requires log.history != [] && limit >= 1 && Bounded(log, limit)
  {
    var n := |log.history| - 1;
    if log.history[n].eventId in Ids(Entries(log.history, log.queued)) then log.(suppressed := log.suppressed + [n])
    else if |log.queued| == limit then log.(evicted := log.evicted + [log.queued[0]], queued := log.queued[1..] + [n])
    else log.(queued := log.queued + [n])
  }

  /** The emission has been given its place in the history and is sent. */
  function Posted(log: Log, payload: Payload): Log {
    log.(history := log.history + [payload], calls := log.calls + 1)
  }

  function Emitted(log: Log, payload: Payload, limit: nat, transport: Transport): Log
    requires limit >= 1 && Bounded(log, limit)
  {
    var flushed := Flushed(log, transport);
    FlushKeepsBounded(log, limit, transport);
    PostKeepsBounded(flushed, payload, limit);
    var sent := Posted(flushed, payload);
    if Delivered(transport(flushed.calls))
    then sent.(acked := sent.acked + [|log.history|])
    else Enqueued(sent, limit)
  }

  lemma PopKeepsBounded(history: seq<Payload>, queued: seq<nat>)
    requires queued != [] && Ordered(queued, |history|) && DistinctIds(Entries(history, queued))
    ensures Ordered(queued[1..], |history|) && DistinctIds(Entries(history, queued[1..]))
    ensures Entries(history, queued[1..]) == Entries(history, queued)[1..]
    ensures Ids(Entries(history, queued)[1..]) == Ids(Entries(history, queued)) - {history[queued[0]].eventId}
  {
    var queue := Entries(history, queued);
    assert Entries(history, queued[1..]) == queue[1..];
    assert queue == [queue[0]] + queue[1..];
    forall payload | payload in queue[1..] ensures payload.eventId != queue[0].eventId {
    }
  }

  lemma PushKeepsBounded(history: seq<Payload>, queued: seq<nat>, n: nat)
    requires Ordered(queued, n) && n < |history| && DistinctIds(Entries(history, queued))
    requires history[n].eventId !in Ids(Entries(history, queued))
    ensures Ordered(queued + [n], |history|) && DistinctIds(Entries(history, queued + [n]))
    ensures Entries(history, queued + [n]) == Entries(history, queued) + [history[n]]
    ensures Ids(Entries(history, queued) + [history[n]]) == Ids(Entries(history, queued)) + {history[n].eventId}
  {
    var queue := Entries(history, queued);
    assert Entries(history, queued + [n]) == queue + [history[n]];
    forall i | 0 <= i < |queue| ensures queue[i].eventId != history[n].eventId {
      assert queue[i] in queue;
    }
  }

  lemma {:induction false} FlushKeepsBounded(log: Log, limit: nat, transport: Transport)
    requires Bounded(log, limit)
    ensures Bounded(Flushed(log, transport), limit)
    ensures Flushed(log, transport).history == log.history
    decreases |log.queued|
  {
    if log.queued != [] && Delivered(transport(log.calls)) {
      PopKeepsBounded(log.history, log.queued);
      var next := log.(queued := log.queued[1..], acked := log.acked + [log.queued[0]], calls := log.calls + 1);
      FlushKeepsBounded(next, limit, transport);
    }
  }

  lemma PostKeepsBounded(log: Log, payload: Payload, limit: nat)
    requires Bounded(log, limit)
    ensures Bounded(Posted(log, payload), limit) && Ordered(log.queued, |log.history|)
    ensures Entries(log.history + [payload], log.queued) == Entries(log.history, log.queued)
  {
    assert Entries(log.history + [payload], log.queued) == Entries(log.history, log.queued);
  }

  lemma EnqueueKeepsBounded(log: Log, limit: nat)
    requires log.history != [] && limit >= 1 && Bounded(log, limit) && Ordered(log.queued, |log.history| - 1)
    ensures Bounded(Enqueued(log, limit), limit)
  {
    hide Ordered, DistinctIds, Entries, Ids;
    var n := |log.history| - 1;
    if log.history[n].eventId !in Ids(Entries(log.history, log.queued)) {
      if |log.queued| == limit {
        PopKeepsBounded(log.history, log.queued);
        StillOrdered(log.queued, n);
        PushKeepsBounded(log.history, log.queued[1..], n);
      } else {
        PushKeepsBounded(log.history, log.queued, n);
      }
    }
  }

  /** Every emission leaves the queue bounded, ordered and free of repeated ids. */
  lemma EmitKeepsBounded(log: Log, payload: Payload, limit: nat, transport: Transport)
    requires limit >= 1 && Bounded(log, limit)
    ensures Bounded(Emitted(log, payload, limit, transport), limit)
    ensures Emitted(log, payload, limit, transport).history == log.history + [payload]
  {
    var flushed := Flushed(log, transport);
    FlushKeepsBounded(log, limit, transport);
    PostKeepsBounded(flushed, payload, limit);
    EnqueueKeepsBounded(Posted(flushed, payload), limit);
  }

  lemma Head(history: seq<Payload>, queued: seq<nat>)
    requires queued != [] && Ordered(queued, |history|)
    ensures queued[0] < |history| && Entries(history, queued)[0] == history[queued[0]]
  {
  }

  lemma StillOrdered(queued: seq<nat>, bound: nat)
    requires queued != [] && Ordered(queued, bound)
    ensures Ordered(queued[1..], bound)
  {
  }

  function EmptyLog(calls: nat): Log {
    Log([], [], [], [], [], calls)
  }

  class AgentClient {
    const limit: nat
    const transport: Transport
    var session: Option<string>
    var queue: seq<Payload>
    var queuedIds: set<string>
    var calls: nat
    ghost var log: Log

    /** The queue is what the log says is queued, and the id set mirrors it. */
    ghost predicate Valid()
      reads this
    {
      && limit >= 1
      && log.calls == calls
      && Bounded(log, limit)
      && queue == Entries(log.history, log.queued)
      && queuedIds == Ids(queue)
    }

    constructor (queueLimit: nat, transport: Transport)
      requires queueLimit >= 1
      ensures Valid() && limit == queueLimit && this.transport == transport
      ensures session == None && log == EmptyLog(0)
    {
      limit := queueLimit;
      this.transport := transport;
      session := None;
      queue := [];
      queuedIds := {};
      calls := 0;
      log := EmptyLog(0);
    }

    method SafePost(payload: Payload) returns (response: Response)
      requires Valid()
      modifies this`calls, this`log
      ensures Valid() && response == transport(old(calls))
      ensures calls == old(calls) + 1 && log == old(log).(calls := calls)
    {
      response := transport(calls);
      calls := calls + 1;
      log := log.(calls := calls);
    }

    method StartSession(externalId: string) returns (response: Response)
      requires Valid()
      modifies this
      ensures Valid() && session == Some(externalId) && response == transport(old(calls))
      ensures log == old(log).(calls := old(calls) + 1)
    {
      session := Some(externalId);
      response := SafePost(Payload("", externalId, ""));
    }

    method Flush()
      requires Valid()
      modifies this`queue, this`queuedIds, this`calls, this`log
      ensures Valid() && log == Flushed(old(log), transport)
    {
      hide Ordered, DistinctIds, Entries, Ids;
      for i := 0 to |queue|
        invariant Valid()
        invariant |queue| == |old(queue)| - i
        invariant Flushed(log, transport) == Flushed(old(log), transport)
      {
        var payload := queue[0];
        Head(log.history, log.queued);
        PopKeepsBounded(log.history, log.queued);
        var response := SafePost(payload);
        if Delivered(response) {
          queue := queue[1..];
          queuedIds := queuedIds - {payload.eventId};
          log := log.(queued := log.queued[1..], acked := log.acked + [log.queued[0]]);
        } else {
          return;
        }
      }
    }

    /** The emission under way is the last of the history and was not delivered. */
    method Enqueue(payload: Payload)
      requires Valid() && log.history != [] && payload == log.history[|log.history| - 1]
      requires Ordered(log.queued, |log.history| - 1)
      modifies this`queue, this`queuedIds, this`log
      ensures Valid() && log == Enqueued(old(log), limit)
    {
      hide Ordered, DistinctIds, Entries, Ids;
      ghost var n := |log.history| - 1;
      if payload.eventId in queuedIds {
        log := log.(suppressed := log.suppressed + [n]);
        return;
      }
      if |queue| == limit {
        Head(log.history, log.queued);
        PopKeepsBounded(log.history, log.queued);
        StillOrdered(log.queued, n);
        var dropped := queue[0];
        queue := queue[1..];
        queuedIds := queuedIds - {dropped.eventId};
        log := log.(evicted := log.evicted + [log.queued[0]], queued := log.queued[1..]);
      }
      PushKeepsBounded(log.history, log.queued, n);
      queue := queue + [payload];
      queuedIds := queuedIds + {payload.eventId};
      log := log.(queued := log.queued + [n]);
    }

    /** Raises when no session was started; otherwise the emission's fate is the specification's. */
    method EmitEvent(eventId: string, body: string) returns (result: Option<Response>)
      requires Valid()
      modifies this
      ensures Valid() && session == old(session)
      ensures old(session).None? ==> result == None && log == old(log)
      ensures old(session).Some? ==>
        log == Emitted(old(log), Payload(eventId, old(session).value, body), limit, transport) && result.Some?
    {
      if session.None? {
        return None;
      }
      hide Ordered, DistinctIds, Entries, Ids;
      var payload := Payload(eventId, session.value, body);
      FlushKeepsBounded(log, limit, transport);
      Flush();
      ghost var flushed := log;
      PostKeepsBounded(flushed, payload, limit);
      log := log.(history := log.history + [payload]);
      var response := SafePost(payload);
      if !Delivered(response) {
        Enqueue(payload);
      } else {
        log := log.(acked := log.acked + [|flushed.history|]);
      }
      return Some(response);
    }

    /** Drains what it can; the answer is how much is still queued. */
    method Finish() returns (queued: Option<nat>)
      requires Valid()
      modifies this
      ensures Valid() && session == old(session)
      ensures old(session).None? ==> queued == None && log == old(log)
      ensures old(session).Some? ==> log == Flushed(old(log), transport) && queued == Some(|log.queued|)
    {
      if session.None? {
        return None;
      }
      Flush();
      queued := Some(|queue|);
    }
  }

  // ---- what becomes of every emission ----

  function Times(s: seq<nat>, k: nat): nat {
    multiset(s)[k]
  }

  /** How many of the four fates the k-th emission has met, counting repetitions. */
  function FatesOf(log: Log, k: nat): nat {
    Times(log.acked, k) + Times(log.queued, k) + Times(log.evicted, k) + Times(log.suppressed, k)
  }

  /** Every emission so far has met exactly one of the four fates, once. */
  ghost predicate Conserved(log: Log) {
    forall k: nat :: FatesOf(log, k) == if k < |log.history| then 1 else 0
  }

  lemma TimesTail(s: seq<nat>, k: nat)
    requires s != []
    ensures Times(s, k) == Times(s[1..], k) + (if s[0] == k then 1 else 0)
  {
    assert s == [s[0]] + s[1..];
  }

  lemma TimesOfMember(s: seq<nat>, k: nat)
    ensures k in s <==> Times(s, k) >= 1
  {
  }

  lemma TimesNext(s: seq<nat>, n: nat, k: nat)
    ensures Times(s + [n], k) == Times(s, k) + (if n == k then 1 else 0)
  {
  }

  lemma {:induction false} FlushConserves(log: Log, transport: Transport, k: nat)
    ensures FatesOf(Flushed(log, transport), k) == FatesOf(log, k)
    decreases |log.queued|
  {
    if log.queued != [] && Delivered(transport(log.calls)) {
      var next := log.(queued := log.queued[1..], acked := log.acked + [log.queued[0]], calls := log.calls + 1);
      TimesTail(log.queued, k);
      TimesNext(log.acked, log.queued[0], k);
      FlushConserves(next, transport, k);
    }
  }

  lemma EnqueueConserves(log: Log, limit: nat, k: nat)
    requires log.history != [] && limit >= 1 && Bounded(log, limit)
    ensures FatesOf(Enqueued(log, limit), k) == FatesOf(log, k) + (if k == |log.history| - 1 then 1 else 0)
  {
    hide Bounded, Entries, Ids, Times;
    var n := |log.history| - 1;
    TimesNext(log.suppressed, n, k);
    TimesNext(log.queued, n, k);
    if log.queued != [] {
      TimesTail(log.queued, k);
      TimesNext(log.queued[1..], n, k);
      TimesNext(log.evicted, log.queued[0], k);
    }
  }

  lemma EmitConserves(log: Log, payload: Payload, limit: nat, transport: Transport)
    requires limit >= 1 && Bounded(log, limit) && Conserved(log)
    ensures Conserved(Emitted(log, payload, limit, transport))
  {
    var flushed := Flushed(log, transport);
    FlushKeepsBounded(log, limit, transport);
    PostKeepsBounded(flushed, payload, limit);
    EmitKeepsBounded(log, payload, limit, transport);
    hide Bounded, Flushed, Enqueued;
    forall k: nat
      ensures FatesOf(Emitted(log, payload, limit, transport), k) == FatesOf(log, k) + (if k == |log.history| then 1 else 0)
    {
      FlushConserves(log, transport, k);
      EnqueueConserves(Posted(flushed, payload), limit, k);
    }
  }

  datatype Op = Emit(payload: Payload) | Drain

  function Run(ops: seq<Op>, limit: nat, transport: Transport): (log: Log)
    requires limit >= 1
    ensures Bounded(log, limit)
  {
    if ops == [] then EmptyLog(0)
    else
      var before := Run(ops[..|ops| - 1], limit, transport);
      match ops[|ops| - 1]
      case Emit(payload) => EmitKeepsBounded(before, payload, limit, transport); Emitted(before, payload, limit, transport)
      case Drain => FlushKeepsBounded(before, limit, transport); Flushed(before, transport)
  }

  /** For every transport behaviour and every run, each emission ends as exactly one of acknowledged,
      still queued, evicted, or suppressed. */
  lemma {:induction false} RunConserves(ops: seq<Op>, limit: nat, transport: Transport)
    requires limit >= 1
    ensures Conserved(Run(ops, limit, transport))
  {
    if ops != [] {
      var before := Run(ops[..|ops| - 1], limit, transport);
      RunConserves(ops[..|ops| - 1], limit, transport);
      match ops[|ops| - 1] {
        case Emit(payload) => EmitConserves(before, payload, limit, transport);
        case Drain =>
          forall k: nat ensures FatesOf(Flushed(before, transport), k) == FatesOf(before, k) {
            FlushConserves(before, transport, k);
          }
          FlushKeepsBounded(before, limit, transport);
      }
    }
  }

  /** A flush sends the queue in order and stops at the first failure: what it removes is the longest
      delivered prefix, and the transport is called once per removed entry and once more if any remains. */
  lemma {:induction false} FlushSendsPrefix(log: Log, transport: Transport) returns (sent: nat)
    ensures sent <= |log.queued|
    ensures forall call :: log.calls <= call < log.calls + sent ==> Delivered(transport(call))
    ensures sent < |log.queued| ==> !Delivered(transport(log.calls + sent))
    ensures Flushed(log, transport) ==
      log.(queued := log.queued[sent..], acked := log.acked + log.queued[..sent],
           calls := log.calls + sent + (if sent < |log.queued| then 1 else 0))
    decreases |log.queued|
  {
    sent := 0;
    if log.queued != [] && Delivered(transport(log.calls)) {
      var next := log.(queued := log.queued[1..], acked := log.acked + [log.queued[0]], calls := log.calls + 1);
      var rest := FlushSendsPrefix(next, transport);
      sent := rest + 1;
      assert [log.queued[0]] + log.queued[1..][..rest] == log.queued[..sent];
      assert log.acked + [log.queued[0]] + log.queued[1..][..rest] == log.acked + log.queued[..sent];
    } else {
      assert log.queued[0..] == log.queued && log.acked + log.queued[..0] == log.acked;
    }
  }

  /** Emptying the queue takes exactly as many deliveries in a row as it has entries. */
  lemma DrainsIffOnline(log: Log, transport: Transport)
    ensures Flushed(log, transport).queued == [] <==>
      forall call :: log.calls <= call < log.calls + |log.queued| ==> Delivered(transport(call))
  {
    var sent := FlushSendsPrefix(log, transport);
  }

  // ---- what a full queue gives up ----

  /** An entry is evicted exactly when a new id finds the queue full, and it is the oldest one: it was emitted
      before everything that stays. */
  lemma FullQueueEvictsOldest(log: Log, limit: nat)
    requires log.history != [] && limit >= 1 && Bounded(log, limit) && Ordered(log.queued, |log.history| - 1)
    ensures var after := Enqueued(log, limit);
      if |log.queued| == limit && !CopyQueued(log, log.history[|log.history| - 1].eventId)
      then
        && |after.evicted| == |log.evicted| + 1 && after.evicted[..|log.evicted|] == log.evicted
        && after.evicted[|log.evicted|] in log.queued
        && forall k :: k in log.queued ==> k == after.evicted[|log.evicted|] || (k > after.evicted[|log.evicted|] && k in after.queued)
      else after.evicted == log.evicted && forall k :: k in log.queued ==> k in after.queued
  {
    CopyQueuedIffIn(log, log.history[|log.history| - 1].eventId);
    hide Entries, Ids, CopyQueued, DistinctIds;
    var after := Enqueued(log, limit);
    if |log.queued| == limit {
      assert log.queued == [log.queued[0]] + log.queued[1..];
    }
  }

  // ---- which answers count ----

  /** Against a server that always answers with one code, an emission is acknowledged, and a queue that is not
      empty is drained, if and only if the code is 2xx or 409. What is not acknowledged is kept for a retry, or
      suppressed because a copy already is. */
  lemma AcknowledgedIffAccepted(log: Log, payload: Payload, limit: nat, transport: Transport, code: int)
    requires limit >= 1 && Bounded(log, limit) && Conserved(log)
    requires forall n :: transport(n) == Status(code)
    ensures var emitted := Emitted(log, payload, limit, transport);
      && (|log.history| in emitted.acked <==> 200 <= code < 300 || code == 409)
      && (|log.history| !in emitted.acked ==> |log.history| in emitted.queued || |log.history| in emitted.suppressed)
    ensures log.queued != [] ==> (Flushed(log, transport).queued == [] <==> 200 <= code < 300 || code == 409)
  {
    EmissionAcknowledgedIff(log, payload, limit, transport);
    DrainsIffOnline(log, transport);
    assert transport(log.calls) == Status(code);
  }

  /** A transport that fails acknowledges and drains nothing. */
  lemma FailureKeeps(log: Log, payload: Payload, limit: nat, transport: Transport)
    requires limit >= 1 && Bounded(log, limit) && Conserved(log)
    requires forall n :: transport(n) == Raised
    ensures |log.history| !in Emitted(log, payload, limit, transport).acked
    ensures Flushed(log, transport).queued == log.queued
  {
    EmissionAcknowledgedIff(log, payload, limit, transport);
  }

  lemma EmissionAcknowledgedIff(log: Log, payload: Payload, limit: nat, transport: Transport)
    requires limit >= 1 && Bounded(log, limit) && Conserved(log)
    ensures var emitted := Emitted(log, payload, limit, transport);
      && (|log.history| in emitted.acked <==> Delivered(transport(Flushed(log, transport).calls)))
      && (|log.history| !in emitted.acked ==> |log.history| in emitted.queued || |log.history| in emitted.suppressed)
  {
    var n := |log.history|;
    FlushConserves(log, transport, n);
    TimesOfMember(Flushed(log, transport).acked, n);
    FlushKeepsBounded(log, limit, transport);
    PostKeepsBounded(Flushed(log, transport), payload, limit);
    NewestIsKept(Posted(Flushed(log, transport), payload), limit);
    hide Flushed, Enqueued, Bounded, Conserved, FatesOf, Times;
  }

  /** Enqueueing acknowledges nothing and keeps the newest emission, unless it suppresses it. */
  lemma NewestIsKept(log: Log, limit: nat)
    requires log.history != [] && limit >= 1 && Bounded(log, limit)
    ensures var n, after := |log.history| - 1, Enqueued(log, limit);
      after.acked == log.acked && (n in after.queued || n in after.suppressed)
  {
    hide Bounded, Entries, Ids;
    var after := Enqueued(log, limit);
    assert after.suppressed != log.suppressed ==> after.suppressed[|log.suppressed|] == |log.history| - 1;
    assert after.suppressed == log.suppressed ==> after.queued[|after.queued| - 1] == |log.history| - 1;
  }

  // ---- at most once? ----

  predicate CopyQueued(log: Log, id: string) {
    exists k :: k in log.queued && k < |log.history| && log.history[k].eventId == id
  }

  lemma CopyQueuedIffIn(log: Log, id: string)
    requires Ordered(log.queued, |log.history|)
    ensures CopyQueued(log, id) <==> id in Ids(Entries(log.history, log.queued))
  {
    var queue := Entries(log.history, log.queued);
    if CopyQueued(log, id) {
      var k :| k in log.queued && k < |log.history| && log.history[k].eventId == id;
      var i :| 0 <= i < |log.queued| && log.queued[i] == k;
      assert queue[i] in queue;
    }
    if id in Ids(queue) {
      var payload :| payload in queue && payload.eventId == id;
      var i :| 0 <= i < |queue| && queue[i] == payload;
      assert log.queued[i] in log.queued;
    }
  }

  /** The n-th emission has been acknowledged while a copy with its id is still queued, to be sent again. */
  predicate WillRepeat(log: Log, n: nat) {
    n < |log.history| && n in log.acked && CopyQueued(log, log.history[n].eventId)
  }

  /** Deduplication looks only at what is queued when a post has failed. An emission is acknowledged
      while a copy with its id stays queued exactly when the flush before it left that copy behind and
      its own post was delivered. */
  lemma {:induction false} RepeatsIffCopyLeftBehind(log: Log, payload: Payload, limit: nat, transport: Transport)
    requires limit >= 1 && Bounded(log, limit) && Conserved(log)
    ensures WillRepeat(Emitted(log, payload, limit, transport), |log.history|) <==>
      Delivered(transport(Flushed(log, transport).calls)) && CopyQueued(Flushed(log, transport), payload.eventId)
  {
    var flushed := Flushed(log, transport);
    var n := |log.history|;
    var after := Emitted(log, payload, limit, transport);
    EmitKeepsBounded(log, payload, limit, transport);
    FlushKeepsBounded(log, limit, transport);
    PostKeepsBounded(flushed, payload, limit);
    FlushConserves(log, transport, n);
    TimesOfMember(flushed.acked, n);
    CopyQueuedIffIn(flushed, payload.eventId);
    CopyQueuedIffIn(after, payload.eventId);
  }

  /** Offline for the flush's first call, online for the post. */
  predicate ComesBack(transport: Transport, calls: nat) {
    !Delivered(transport(calls)) && Delivered(transport(calls + 1))
  }

  lemma ComingBackRepeats(log: Log, payload: Payload, limit: nat, transport: Transport)
    requires limit >= 1 && Bounded(log, limit) && Conserved(log) && CopyQueued(log, payload.eventId)
    requires ComesBack(transport, log.calls)
    ensures var emitted := Emitted(log, payload, limit, transport);
      WillRepeat(emitted, |log.history|) && emitted.queued == log.queued && emitted.calls == log.calls + 2
  {
    RepeatsIffCopyLeftBehind(log, payload, limit, transport);
    assert Flushed(log, transport) == log.(calls := log.calls + 1);
  }

  /** What a caller can know before emitting: whatever the transport then does, the emission is not
      acknowledged beside a queued copy if and only if no entry of the queue has its id. */
  lemma RepeatsIffCopyQueued(log: Log, payload: Payload, limit: nat)
    requires limit >= 1 && Bounded(log, limit) && Conserved(log)
    ensures (forall transport :: !WillRepeat(Emitted(log, payload, limit, transport), |log.history|))
      <==> !CopyQueued(log, payload.eventId)
  {
    if CopyQueued(log, payload.eventId) {
      var transport := n => if n == log.calls then Raised else Status(200);
      ComingBackRepeats(log, payload, limit, transport);
    } else {
      forall transport ensures !WillRepeat(Emitted(log, payload, limit, transport), |log.history|) {
        RepeatsIffCopyLeftBehind(log, payload, limit, transport);
        var sent := FlushSendsPrefix(log, transport);
      }
    }
  }

  /** And then it is reported twice: with the connection back for good, the next drain has both acknowledged. */
  lemma RepeatIsReported(log: Log, payload: Payload, limit: nat, transport: Transport)
    requires limit >= 1 && Bounded(log, limit) && Conserved(log) && CopyQueued(log, payload.eventId)
    requires !Delivered(transport(log.calls)) && forall n :: n > log.calls ==> Delivered(transport(n))
    ensures var done := Flushed(Emitted(log, payload, limit, transport), transport);
      && |log.history| in done.acked
      && exists k :: k in done.acked && k < |log.history| && log.history[k].eventId == payload.eventId
  {
    var emitted := Emitted(log, payload, limit, transport);
    ComingBackRepeats(log, payload, limit, transport);
    DrainsIffOnline(emitted, transport);
    var sent := FlushSendsPrefix(emitted, transport);
    var k :| k in log.queued && k < |log.history| && log.history[k].eventId == payload.eventId;
    assert k in emitted.queued[..sent];
  }

  lemma OfflineQueues(payload: Payload, limit: nat, transport: Transport)
    requires limit >= 1 && !Delivered(transport(0))
    ensures Run([Emit(payload)], limit, transport) == Log([payload], [0], [], [], [], 1)
  {
    var empty := EmptyLog(0);
    assert [Emit(payload)][..0] == [];
    assert Run([], limit, transport) == empty && Flushed(empty, transport) == empty;
    assert [] + [payload] == [payload] && Entries([payload], []) == [];
    assert Posted(empty, payload) == Log([payload], [], [], [], [], 1);
    assert Enqueued(Posted(empty, payload), limit).queued == [0];
  }

  /** For instance: emitted while offline, emitted again as the connection comes back, then drained. */
  lemma ReportedTwice(payload: Payload, limit: nat, transport: Transport)
    requires limit >= 1 && forall n :: Delivered(transport(n)) <==> n >= 2
    ensures var log := Run([Emit(payload)] + [Emit(payload)] + [Drain], limit, transport);
      |log.history| == 2 && 0 in log.acked && 1 in log.acked
  {
    var once := Run([Emit(payload)], limit, transport);
    OfflineQueues(payload, limit, transport);
    RunConserves([Emit(payload)], limit, transport);
    RunEmitDrain([Emit(payload)], payload, limit, transport);
    assert once.history[0].eventId == payload.eventId && 0 in once.queued;
    hide Emitted, Flushed, Run, Bounded, Conserved, Delivered;
    RepeatIsReported(once, payload, limit, transport);
  }

  lemma RunEmitDrain(ops: seq<Op>, payload: Payload, limit: nat, transport: Transport)
    requires limit >= 1
    ensures var log := Run(ops, limit, transport);
      var done := Flushed(Emitted(log, payload, limit, transport), transport);
      Run(ops + [Emit(payload)] + [Drain], limit, transport) == done && done.history == log.history + [payload]
  {
    var log := Run(ops, limit, transport);
    assert (ops + [Emit(payload)])[..|ops|] == ops;
    assert (ops + [Emit(payload)] + [Drain])[..|ops| + 1] == ops + [Emit(payload)];
    EmitKeepsBounded(log, payload, limit, transport);
    FlushKeepsBounded(Emitted(log, payload, limit, transport), limit, transport);
    hide Emitted, Flushed, Bounded;
  }

  /** Only repeats are suppressed: an earlier emission has the same id. */
  ghost predicate OnlyRepeats(history: seq<Payload>, suppressed: seq<nat>) {
    forall i :: 0 <= i < |suppressed| ==> IsRepeat(history, suppressed[i])
  }

  predicate IsRepeat(history: seq<Payload>, n: nat) {
    n < |history| && exists k :: 0 <= k < n && history[k].eventId == history[n].eventId
  }

  lemma RepeatsStay(history: seq<Payload>, suppressed: seq<nat>, payload: Payload)
    requires OnlyRepeats(history, suppressed)
    ensures OnlyRepeats(history + [payload], suppressed)
  {
    forall i | 0 <= i < |suppressed| ensures IsRepeat(history + [payload], suppressed[i]) {
      var n := suppressed[i];
      assert IsRepeat(history, n);
      var k :| 0 <= k < n && history[k].eventId == history[n].eventId;
      assert (history + [payload])[k] == history[k] && (history + [payload])[n] == history[n];
    }
  }

  lemma QueuedIdIsRepeat(history: seq<Payload>, queued: seq<nat>, payload: Payload)
    requires Ordered(queued, |history|) && payload.eventId in Ids(Entries(history, queued))
    ensures IsRepeat(history + [payload], |history|)
  {
    var queue := Entries(history, queued);
    var copy :| copy in queue && copy.eventId == payload.eventId;
    var i :| 0 <= i < |queue| && queue[i] == copy;
    assert (history + [payload])[queued[i]] == copy;
  }

  lemma EmitSuppressesRepeats(log: Log, payload: Payload, limit: nat, transport: Transport)
    requires limit >= 1 && Bounded(log, limit) && OnlyRepeats(log.history, log.suppressed)
    ensures OnlyRepeats(log.history + [payload], Emitted(log, payload, limit, transport).suppressed)
  {
    var sent := FlushSendsPrefix(log, transport);
    var flushed := Flushed(log, transport);
    FlushKeepsBounded(log, limit, transport);
    PostKeepsBounded(flushed, payload, limit);
    RepeatsStay(log.history, log.suppressed, payload);
    if payload.eventId in Ids(Entries(log.history, flushed.queued)) {
      QueuedIdIsRepeat(log.history, flushed.queued, payload);
    }
    hide Ordered, Entries, Ids, IsRepeat, Flushed;
  }

  lemma {:induction false} RunSuppressesRepeats(ops: seq<Op>, limit: nat, transport: Transport)
    requires limit >= 1
    ensures OnlyRepeats(Run(ops, limit, transport).history, Run(ops, limit, transport).suppressed)
  {
    if ops != [] {
      var before := Run(ops[..|ops| - 1], limit, transport);
      RunSuppressesRepeats(ops[..|ops| - 1], limit, transport);
      match ops[|ops| - 1] {
        case Emit(payload) =>
          EmitSuppressesRepeats(before, payload, limit, transport);
          EmitKeepsBounded(before, payload, limit, transport);
        case Drain => var sent := FlushSendsPrefix(before, transport);
      }
    }
  }

  /** The payloads the server has confirmed, in the order it did. */
  function Acknowledged(log: Log): seq<Payload>
    requires forall k :: k in log.acked ==> k < |log.history|
  {
    seq(|log.acked|, i requires 0 <= i < |log.acked| => assert log.acked[i] in log.acked; log.history[log.acked[i]])
  }

  /** When all emissions have different ids, nothing is suppressed and no id is acknowledged twice. */
  lemma DistinctIdsReportOnce(ops: seq<Op>, limit: nat, transport: Transport)
    requires limit >= 1
    requires DistinctIds(Run(ops, limit, transport).history)
    ensures Run(ops, limit, transport).suppressed == []
    ensures forall k :: k in Run(ops, limit, transport).acked ==> k < |Run(ops, limit, transport).history|
    ensures DistinctIds(Acknowledged(Run(ops, limit, transport)))
  {
    var log := Run(ops, limit, transport);
    RunSuppressesRepeats(ops, limit, transport);
    RunConserves(ops, limit, transport);
    forall n ensures !IsRepeat(log.history, n) {
    }
    assert log.suppressed != [] ==> IsRepeat(log.history, log.suppressed[0]);
    forall k | k in log.acked ensures k < |log.history| {
      assert Times(log.acked, k) >= 1 && FatesOf(log, k) >= 1;
    }
    forall i, j | 0 <= i < j < |log.acked| ensures log.acked[i] != log.acked[j] {
      assert FatesOf(log, log.acked[i]) <= 1;
      if log.acked[i] == log.acked[j] {
        TwiceInSeq(log.acked, i, j);
      }
    }
    forall i, j | 0 <= i < j < |log.acked| ensures Acknowledged(log)[i].eventId != Acknowledged(log)[j].eventId {
      assert log.acked[i] in log.acked && log.acked[j] in log.acked;
    }
  }

  lemma TwiceInSeq(s: seq<nat>, i: nat, j: nat)
    requires i < j < |s| && s[i] == s[j]
    ensures Times(s, s[i]) >= 2
  {
    assert s == s[..j] + [s[j]] + s[j + 1..];
    assert s[i] in s[..j];
  }
}
