/** The claim under concurrency. Workers hold candidate lists that may be arbitrarily stale, so in any
    state any worker may attempt any job id; only the single UPDATE of an attempt is atomic. */
module ClaimRace {
  import opened Collections
  import opened ReconstructionQueue
  import opened FairRuns

  type WorkerId = int

  datatype Event =
    | Enqueued(newId: JobId, org: OrgId, now: int)
    | Attempt(worker: WorkerId, id: JobId)
    | Closed(closedId: JobId, ok: bool)
    | Retention(cutoff: int)

  datatype Win = Win(worker: WorkerId, id: JobId)

  /** The table, the ids ever generated (a UUID is never generated twice), and who won what. */
  datatype World = World(rows: Jobs, issued: set<JobId>, wins: seq<Win>)

  const EMPTY := World(map[], {}, [])

  function Happen(w: World, e: Event): World {
    match e
    case Enqueued(id, org, now) =>
      if id in w.issued then w else w.(rows := w.rows[id := Job(org, Pending, 0, now)], issued := w.issued + {id})
    case Attempt(worker, id) =>
      if IsPending(w.rows, id)
      then w.(rows := MarkClaimed(w.rows, {id}), wins := w.wins + [Win(worker, id)])
      else w
    case Closed(id, ok) => w.(rows := Completed(w.rows, {id}, _ => ok))
    case Retention(cutoff) => w.(rows := Purged(w.rows, cutoff))
  }

  function Run(w: World, events: seq<Event>): World
    decreases |events|
  {
    if events == [] then w else Run(Happen(w, events[0]), events[1..])
  }

  function Of(id: JobId): Win -> bool {
    (win: Win) => win.id == id
  }

  function WinsOf(w: World, id: JobId): nat {
    CountIf(w.wins, Of(id))
  }

  ghost predicate Exclusive(w: World) {
    && w.rows.Keys <= w.issued
    && (forall id :: WinsOf(w, id) <= 1)
    && (forall id :: id in w.rows ==> w.rows[id].attempts == WinsOf(w, id))
    && (forall id :: IsPending(w.rows, id) ==> WinsOf(w, id) == 0)
    && (forall id :: id !in w.issued ==> WinsOf(w, id) == 0)
  }

  lemma WinCounted(w: World, worker: WorkerId, id: JobId)
    ensures forall other ::
      CountIf(w.wins + [Win(worker, id)], Of(other)) == WinsOf(w, other) + (if other == id then 1 else 0)
  {
    forall other
      ensures CountIf(w.wins + [Win(worker, id)], Of(other)) == WinsOf(w, other) + (if other == id then 1 else 0)
    {
      CountIfAppend(w.wins, [Win(worker, id)], Of(other));
      assert CountIf([Win(worker, id)], Of(other)) == if other == id then 1 else 0;
    }
  }

  lemma HappenKeepsExclusive(w: World, e: Event)
    requires Exclusive(w)
    ensures Exclusive(Happen(w, e))
  {
    if e.Attempt? {
      WinCounted(w, e.worker, e.id);
    }
    forall id ensures e.Attempt? || WinsOf(Happen(w, e), id) == WinsOf(w, id) {
    }
  }

  lemma {:induction false} RunKeepsExclusive(w: World, events: seq<Event>)
    requires Exclusive(w)
    ensures Exclusive(Run(w, events))
    decreases |events|
  {
    if events != [] {
      HappenKeepsExclusive(w, events[0]);
      RunKeepsExclusive(Happen(w, events[0]), events[1..]);
    }
  }

  /** Whatever the interleaving, no job is won twice, and the attempts column counts its wins. */
  lemma ExclusiveClaim(events: seq<Event>, id: JobId)
    ensures var w := Run(EMPTY, events);
      && WinsOf(w, id) <= 1
      && (id in w.rows ==> w.rows[id].attempts == WinsOf(w, id))
      && (forall i, j :: 0 <= i < j < |w.wins| ==> w.wins[i].id != w.wins[j].id)
  {
    RunKeepsExclusive(EMPTY, events);
    var w := Run(EMPTY, events);
    forall i, j | 0 <= i < j < |w.wins| ensures w.wins[i].id != w.wins[j].id {
      assert WinsOf(w, w.wins[i].id) <= 1;
      if w.wins[i].id == w.wins[j].id {
        CountedTwice(w.wins, i, j);
      }
    }
  }

  lemma CountedTwice(wins: seq<Win>, i: nat, j: nat)
    requires i < j < |wins| && wins[i].id == wins[j].id
    ensures CountIf(wins, Of(wins[i].id)) >= 2
  {
    var p := Of(wins[i].id);
    assert wins == wins[..j] + wins[j..] && wins[..j] == wins[..i] + wins[i..j];
    CountIfAppend(wins[..j], wins[j..], p);
    CountIfAppend(wins[..i], wins[i..j], p);
    assert wins[i..j][0] == wins[i] && wins[j..][0] == wins[j];
  }

  /** A job that has left the pending status never returns to it. */
  lemma {:induction false} NeverPendingAgain(w: World, events: seq<Event>, id: JobId)
    requires id in w.issued && !IsPending(w.rows, id)
    ensures !IsPending(Run(w, events).rows, id)
    decreases |events|
  {
    if events != [] {
      NeverPendingAgain(Happen(w, events[0]), events[1..], id);
    }
  }

  /** A pending job that anyone attempts is won by exactly one worker: by the first to attempt it. */
  lemma {:induction false} AttemptedJobIsWonOnce(w: World, events: seq<Event>, id: JobId, i: nat)
    requires Exclusive(w) && IsPending(w.rows, id)
    requires i < |events| && events[i].Attempt? && events[i].id == id
    requires forall k :: 0 <= k < i ==> !(events[k].Attempt? && events[k].id == id)
    requires forall k :: 0 <= k < i ==> !(events[k].Closed? && events[k].closedId == id)
    ensures WinsOf(Run(w, events), id) == 1
    ensures Win(events[i].worker, id) in Run(w, events).wins
    decreases |events|
  {
    var next := Happen(w, events[0]);
    HappenKeepsExclusive(w, events[0]);
    if i == 0 {
      WinCounted(w, events[0].worker, id);
      assert next.wins[|w.wins|] == Win(events[0].worker, id);
      WinsKept(next, events[1..], id);
      RunKeepsExclusive(next, events[1..]);
    } else {
      assert events[1..][i - 1] == events[i];
      AttemptedJobIsWonOnce(next, events[1..], id, i - 1);
    }
  }

  lemma {:induction false} WinsKept(w: World, events: seq<Event>, id: JobId)
    ensures WinsOf(w, id) <= WinsOf(Run(w, events), id)
    ensures forall win :: win in w.wins ==> win in Run(w, events).wins
    decreases |events|
  {
    if events != [] {
      if events[0].Attempt? {
        WinCounted(w, events[0].worker, events[0].id);
      }
      WinsKept(Happen(w, events[0]), events[1..], id);
    }
  }

  function Attempts(worker: WorkerId, ids: seq<JobId>): seq<Event> {
    seq(|ids|, i requires 0 <= i < |ids| => Attempt(worker, ids[i]))
  }

  /** A pass that nobody interleaves with is such a run: it claims exactly the ids it selected. */
  lemma {:induction false} UndisturbedPassIsARun(w: World, worker: WorkerId, ids: seq<JobId>)
    requires Distinct(ids) && forall id :: id in ids ==> IsPending(w.rows, id)
    ensures Run(w, Attempts(worker, ids)).rows == MarkClaimed(w.rows, Elements(ids))
    ensures |Run(w, Attempts(worker, ids)).wins| == |w.wins| + |ids|
    decreases |ids|
  {
    if ids == [] {
      assert w.rows == MarkClaimed(w.rows, Elements(ids));
    } else {
      var next := Happen(w, Attempt(worker, ids[0]));
      assert Attempts(worker, ids)[1..] == Attempts(worker, ids[1..]);
      assert forall id :: id in ids[1..] ==> id in ids && id != ids[0];
      UndisturbedPassIsARun(next, worker, ids[1..]);
      assert Elements(ids) == {ids[0]} + Elements(ids[1..]);
      ClaimsCompose(w.rows, {ids[0]}, Elements(ids[1..]));
    }
  }
}
