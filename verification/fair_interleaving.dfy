/** Fair passes as the draining workers run them: each worker claims inside a transaction of its own, other workers
    interleave at every statement, list jobs that are claimed but not committed, wait for their locks, and
    transactions may be rolled back. Still no job starves. */
module FairInterleaving {
  import opened Collections
  import opened ReconstructionQueue
  import FairRuns

  type WorkerId = int

  /** The committed table, the ids ever generated, and the jobs each open transaction has claimed and locked. */
  datatype World = World(rows: Jobs, issued: set<JobId>, open: map<WorkerId, set<JobId>>)

  datatype Event =
    | Enqueued(newId: JobId, org: OrgId, now: int)
    | Attempt(worker: WorkerId, id: JobId)
    // the jobs have been processed, and those in `failed` have failed
    | Committed(worker: WorkerId, failed: set<JobId>)
    | Aborted(worker: WorkerId)
    | Retention(cutoff: int)

  function Own(w: World, worker: WorkerId): set<JobId> {
    if worker in w.open then w.open[worker] else {}
  }

  /** The table as a worker sees it: with its own claims. */
  function Visible(w: World, worker: WorkerId): Jobs {
    MarkClaimed(w.rows, Own(w, worker))
  }

  predicate LockedByOther(w: World, worker: WorkerId, id: JobId) {
    exists other :: other in w.open && other != worker && id in w.open[other]
  }

  /** An update of a row that another transaction has locked waits: it happens later or not at all. */
  function Happen(w: World, e: Event): World {
    match e
    case Enqueued(id, org, now) =>
      if id in w.issued then w else w.(rows := w.rows[id := Job(org, Pending, 0, now)], issued := w.issued + {id})
    case Attempt(worker, id) =>
      if !LockedByOther(w, worker, id) && IsPending(Visible(w, worker), id)
      then w.(open := w.open[worker := Own(w, worker) + {id}])
      else w
    case Committed(worker, failed) =>
      World(Completed(Visible(w, worker), Own(w, worker), id => id !in failed), w.issued, w.open - {worker})
    case Aborted(worker) => w.(open := w.open - {worker})
    case Retention(cutoff) => w.(rows := FairRuns.Purged(w.rows, cutoff))
  }

  function StateAt(w: World, events: seq<Event>, n: nat): World
    requires n <= |events|
  {
    if n == 0 then w else Happen(StateAt(w, events, n - 1), events[n - 1])
  }

  /** A worker sees a job pending exactly if it is committed as pending and not claimed by the worker itself. */
  lemma VisiblePending(w: World, worker: WorkerId, id: JobId)
    ensures IsPending(Visible(w, worker), id) <==> IsPending(w.rows, id) && id !in Own(w, worker)
    ensures id in w.rows <==> id in Visible(w, worker)
    ensures id in w.rows ==> Visible(w, worker)[id].org == w.rows[id].org && Visible(w, worker)[id].createdAt == w.rows[id].createdAt
  {
  }

  // ---- exclusion ----

  /** Claimed jobs are pending in the committed table, and each is claimed by one worker. */
  ghost predicate Exclusive(w: World) {
    && w.rows.Keys <= w.issued
    && (forall worker, id :: worker in w.open && id in w.open[worker] ==> IsPending(w.rows, id))
    && (forall a, b, id :: a in w.open && b in w.open && id in w.open[a] && id in w.open[b] ==> a == b)
  }

  lemma EventKeepsExclusive(w: World, e: Event)
    requires Exclusive(w)
    ensures Exclusive(Happen(w, e))
  {
    match e
    case Attempt(worker, id) => VisiblePending(w, worker, id);
    case Committed(worker, failed) =>
      forall other, id | other in w.open && other != worker && id in w.open[other]
        ensures IsPending(Happen(w, e).rows, id)
      {
        assert IsPending(w.rows, id) && id !in Own(w, worker);
        VisiblePending(w, worker, id);
      }
    case Aborted(worker) =>
    case _ =>
      forall other, id | other in w.open && id in w.open[other] ensures IsPending(Happen(w, e).rows, id) {
        assert IsPending(w.rows, id);
      }
  }

  /** No job is ever in two workers' hands, and a claim that is not committed leaves the job pending for
      everybody else: if its transaction is rolled back nothing has happened. */
  lemma {:induction false} AlwaysExclusive(w: World, events: seq<Event>, n: nat)
    requires Exclusive(w) && n <= |events|
    ensures Exclusive(StateAt(w, events, n))
  {
    if n > 0 {
      AlwaysExclusive(w, events, n - 1);
      EventKeepsExclusive(StateAt(w, events, n - 1), events[n - 1]);
    }
  }

  // ---- committed states ----

  function Ahead(w: World, created: int): set<JobId> {
    FairRuns.Ahead(w.rows, created)
  }

  /** What holds between a state and any later one of a run that enqueues only jobs newer than `created`. */
  ghost predicate Later(w: World, after: World, created: int) {
    && w.rows.Keys <= w.issued && after.rows.Keys <= after.issued
    && Ahead(after, created) <= Ahead(w, created)
    && w.issued <= after.issued
    && (forall id :: id in w.issued && id in after.rows ==> id in w.rows)
    && (forall id :: id in w.rows && id in after.rows ==>
          after.rows[id].org == w.rows[id].org && after.rows[id].createdAt == w.rows[id].createdAt)
  }

  ghost predicate OnlyNewer(events: seq<Event>, created: int) {
    forall i :: 0 <= i < |events| && events[i].Enqueued? ==> events[i].now > created
  }

  lemma EventIsLater(w: World, e: Event, created: int)
    requires w.rows.Keys <= w.issued && (e.Enqueued? ==> e.now > created)
    ensures Later(w, Happen(w, e), created)
  {
  }

  lemma LaterStill(a: World, b: World, c: World, created: int)
    requires Later(a, b, created) && Later(b, c, created)
    ensures Later(a, c, created)
  {
    hide Ahead;
  }

  lemma {:induction false} StatesAreLater(w: World, events: seq<Event>, created: int, n: nat, m: nat)
    requires w.rows.Keys <= w.issued && OnlyNewer(events, created) && n <= m <= |events|
    ensures Later(StateAt(w, events, n), StateAt(w, events, m), created)
    decreases m
  {
    hide Happen, IsPending, Ahead;
    if m > 0 {
      StatesAreLater(w, events, created, if n < m then n else m - 1, m - 1);
      EventIsLater(StateAt(w, events, m - 1), events[m - 1], created);
      if n < m {
        hide Later;
        LaterStill(StateAt(w, events, n), StateAt(w, events, m - 1), StateAt(w, events, m), created);
      }
    }
  }

  // ---- one pass ----

  /** One worker's fair pass: between the events of the run it selects the organizations, then lists the jobs of
      the first one, then attempts the first of these, and some time later its transaction commits. What else it
      does does not matter here. */
  datatype Pass = Pass(
    worker: WorkerId, limit: nat, selected: nat, orgs: seq<OrgId>, listed: nat, jobs: seq<JobId>, tried: nat, done: nat)

  /** The transaction is the same from one position to the other. */
  ghost predicate SameTransaction(events: seq<Event>, worker: WorkerId, from: nat, to: nat) {
    forall i :: from <= i < to && i < |events| ==> !Ends(events[i], worker)
  }

  predicate Ends(e: Event, worker: WorkerId) {
    (e.Committed? || e.Aborted?) && e.worker == worker
  }

  /** A pass in terms of the states it sees: at the selection, the listing, and around its first attempt. The
      attempt is made when no other worker holds the job. */
  ghost predicate PassSees(pass: Pass, s0: World, s1: World, s2: World, e: Event) {
    && pass.limit >= 1
    && OldestFirst(PendingOrgs(Visible(s0, pass.worker)), pass.limit, pass.orgs)
    && (pass.orgs != [] ==>
          && OldestFirst(PendingOf(Visible(s1, pass.worker), pass.orgs[0]), ShareSize(pass.limit, |pass.orgs|), pass.jobs)
          && (pass.jobs != [] ==> e == Attempt(pass.worker, pass.jobs[0]) && !LockedByOther(s2, pass.worker, pass.jobs[0])))
  }

  ghost predicate HappensIn(w: World, events: seq<Event>, pass: Pass) {
    && pass.selected <= pass.listed <= pass.tried < pass.done < |events|
    && events[pass.done].Committed? && events[pass.done].worker == pass.worker
    && SameTransaction(events, pass.worker, pass.selected, pass.done)
    && PassSees(pass, StateAt(w, events, pass.selected), StateAt(w, events, pass.listed), StateAt(w, events, pass.tried), events[pass.tried])
  }

  lemma {:induction false} ClaimsStay(w: World, events: seq<Event>, worker: WorkerId, n: nat, m: nat)
    requires n <= m <= |events| && SameTransaction(events, worker, n, m)
    ensures Own(StateAt(w, events, n), worker) <= Own(StateAt(w, events, m), worker)
    decreases m
  {
    if n < m {
      ClaimsStay(w, events, worker, n, m - 1);
      assert !Ends(events[m - 1], worker);
    }
  }

  /** What a worker has claimed when it commits is no longer pending. */
  lemma CommittedIsNotAhead(w: World, worker: WorkerId, failed: set<JobId>, id: JobId, created: int)
    requires id in Own(w, worker)
    ensures id !in Ahead(Happen(w, Committed(worker, failed)), created)
  {
  }

  /** The first organization selected has a job that is ahead. */
  lemma FirstOrgIsAhead(rows: Jobs, limit: nat, orgs: seq<OrgId>, id: JobId, created: int) returns (oldest: JobId)
    requires OldestFirst(PendingOrgs(rows), limit, orgs) && limit >= 1
    requires IsPending(rows, id) && rows[id].createdAt <= created
    ensures 1 <= |orgs| <= limit && IsPending(rows, oldest) && rows[oldest].org == orgs[0] && rows[oldest].createdAt <= created
  {
    FirstIsOldest(PendingOrgs(rows), limit, orgs);
    assert PendingOrgs(rows)[orgs[0]] in PendingOf(rows, orgs[0]).Values;
    oldest :| oldest in PendingOf(rows, orgs[0]) && PendingOf(rows, orgs[0])[oldest] == PendingOrgs(rows)[orgs[0]];
    assert PendingOrgs(rows)[orgs[0]] <= PendingOrgs(rows)[rows[id].org];
  }

  /** If that job is still pending when the organization's jobs are listed, the first one listed is ahead. */
  lemma FirstJobIsAhead(rows: Jobs, share: nat, org: OrgId, jobs: seq<JobId>, oldest: JobId, created: int)
    requires OldestFirst(PendingOf(rows, org), share, jobs) && share >= 1
    requires IsPending(rows, oldest) && rows[oldest].org == org && rows[oldest].createdAt <= created
    ensures jobs != [] && IsPending(rows, jobs[0]) && rows[jobs[0]].createdAt <= created
  {
    assert oldest in PendingOf(rows, org);
    FirstIsOldest(PendingOf(rows, org), share, jobs);
    assert rows[jobs[0]].createdAt <= rows[oldest].createdAt;
  }

  /** The job is pending and at least as old as `created`. */
  predicate Waits(w: World, id: JobId, created: int) {
    IsPending(w.rows, id) && w.rows[id].createdAt <= created
  }

  lemma AheadIffWaits(w: World, id: JobId, created: int)
    ensures id in Ahead(w, created) <==> Waits(w, id, created)
  {
  }

  /** A job that was ahead when the pass selected or listed, and that is either claimed by the worker after its
      attempt or no longer ahead by then. */
  lemma SomeSettled(pass: Pass, s0: World, s1: World, s2: World, s3: World, e: Event, id: JobId, created: int)
    returns (job: JobId)
    requires PassSees(pass, s0, s1, s2, e) && s3 == Happen(s2, e)
    requires Later(s0, s1, created) && Later(s1, s2, created) && Later(s2, s3, created)
    requires Own(s0, pass.worker) <= Own(s1, pass.worker) <= Own(s3, pass.worker)
    requires Waits(s0, id, created)
    ensures job in Ahead(s0, created) && (job in Own(s3, pass.worker) || job !in Ahead(s3, created))
  {
    hide OldestFirst, PendingOrgs, PendingOf, Happen, IsPending, Visible, Own, Ahead;
    AheadIffWaits(s0, id, created);
    VisiblePending(s0, pass.worker, id);
    InRows(s0, id);
    if id in Own(s0, pass.worker) {
      return id;
    }
    job := FirstOrgIsAhead(Visible(s0, pass.worker), pass.limit, pass.orgs, id, created);
    VisiblePending(s0, pass.worker, job);
    AheadIffWaits(s0, job, created);
    AheadIffWaits(s1, job, created);
    VisiblePending(s1, pass.worker, job);
    if job in Ahead(s1, created) && job !in Own(s1, pass.worker) {
      InRows(s0, job);
      InRows(s1, job);
      ShareIsPositive(pass.limit, |pass.orgs|);
      FirstJobIsAhead(Visible(s1, pass.worker), ShareSize(pass.limit, |pass.orgs|), pass.orgs[0], pass.jobs, job, created);
      job := pass.jobs[0];
      VisiblePending(s1, pass.worker, job);
      AheadIffWaits(s1, job, created);
      AttemptSettles(s2, pass.worker, job, created);
    }
  }

  lemma InRows(w: World, id: JobId)
    requires IsPending(w.rows, id)
    ensures id in w.rows
  {
  }

  lemma AttemptSettles(w: World, worker: WorkerId, id: JobId, created: int)
    requires !LockedByOther(w, worker, id)
    ensures var after := Happen(w, Attempt(worker, id));
      id in Own(after, worker) || id !in Ahead(after, created)
  {
  }

  /** Whatever the others do in between, the committed table has fewer jobs ahead after a pass has committed than
      when it began: one of them has been claimed by it, or by somebody else who committed. */
  lemma PassShrinksAhead(w: World, events: seq<Event>, pass: Pass, id: JobId, created: int)
    requires w.rows.Keys <= w.issued && OnlyNewer(events, created) && HappensIn(w, events, pass)
    requires Waits(StateAt(w, events, pass.selected), id, created)
    ensures |Ahead(StateAt(w, events, pass.done + 1), created)| < |Ahead(StateAt(w, events, pass.selected), created)|
  {
    var s0, s3 := StateAt(w, events, pass.selected), StateAt(w, events, pass.tried + 1);
    var s4, s5 := StateAt(w, events, pass.done), StateAt(w, events, pass.done + 1);
    PassStates(w, events, pass, created);
    PassEnds(w, events, pass, created);
    hide HappensIn, OnlyNewer, StateAt, PassSees, Happen, Own, Ahead, Waits;
    var job := SomeSettled(
      pass, s0, StateAt(w, events, pass.listed), StateAt(w, events, pass.tried), s3, events[pass.tried], id, created);
    if job in Own(s3, pass.worker) {
      CommittedIsNotAhead(s4, pass.worker, events[pass.done].failed, job, created);
    }
    SubsetCardinality(Ahead(s5, created), Ahead(s0, created) - {job});
  }

  lemma PassStates(w: World, events: seq<Event>, pass: Pass, created: int)
    requires w.rows.Keys <= w.issued && OnlyNewer(events, created) && HappensIn(w, events, pass)
    ensures var s0, s1 := StateAt(w, events, pass.selected), StateAt(w, events, pass.listed);
      var s2, s3 := StateAt(w, events, pass.tried), StateAt(w, events, pass.tried + 1);
      && PassSees(pass, s0, s1, s2, events[pass.tried]) && s3 == Happen(s2, events[pass.tried])
      && Later(s0, s1, created) && Later(s1, s2, created) && Later(s2, s3, created)
      && Own(s0, pass.worker) <= Own(s1, pass.worker) <= Own(s3, pass.worker)
  {
    hide OnlyNewer, PassSees, Happen, Own, Later;
    StatesAreLater(w, events, created, pass.selected, pass.listed);
    StatesAreLater(w, events, created, pass.listed, pass.tried);
    StatesAreLater(w, events, created, pass.tried, pass.tried + 1);
    ClaimsStay(w, events, pass.worker, pass.selected, pass.listed);
    ClaimsStay(w, events, pass.worker, pass.listed, pass.tried + 1);
  }

  lemma PassEnds(w: World, events: seq<Event>, pass: Pass, created: int)
    requires w.rows.Keys <= w.issued && OnlyNewer(events, created) && HappensIn(w, events, pass)
    ensures var s0, s3 := StateAt(w, events, pass.selected), StateAt(w, events, pass.tried + 1);
      var s4, s5 := StateAt(w, events, pass.done), StateAt(w, events, pass.done + 1);
      && events[pass.done].Committed? && s5 == Happen(s4, Committed(pass.worker, events[pass.done].failed))
      && Own(s3, pass.worker) <= Own(s4, pass.worker)
      && Ahead(s5, created) <= Ahead(s3, created) && Ahead(s5, created) <= Ahead(s0, created)
  {
    hide OnlyNewer, PassSees, Happen, Own, Ahead;
    StatesAreLater(w, events, created, pass.tried + 1, pass.done + 1);
    StatesAreLater(w, events, created, pass.selected, pass.done + 1);
    ClaimsStay(w, events, pass.worker, pass.tried + 1, pass.done);
  }

  // ---- no starvation ----

  /** The passes one after the other; other workers may do anything during and between them. */
  ghost predicate InSequence(w: World, events: seq<Event>, passes: seq<Pass>) {
    && (forall i :: 0 <= i < |passes| ==> HappensIn(w, events, passes[i]))
    && (forall i, j :: 0 <= i < j < |passes| ==> passes[i].done < passes[j].selected)
  }

  /** The position after the last of the passes. */
  function EndOf(passes: seq<Pass>): nat {
    if passes == [] then 0 else passes[|passes| - 1].done + 1
  }

  lemma NextPassShrinks(w: World, events: seq<Event>, start: nat, pass: Pass, id: JobId, created: int)
    requires w.rows.Keys <= w.issued && OnlyNewer(events, created) && HappensIn(w, events, pass)
    requires start <= pass.selected && Waits(StateAt(w, events, pass.selected), id, created)
    ensures |Ahead(StateAt(w, events, pass.done + 1), created)| < |Ahead(StateAt(w, events, start), created)|
  {
    StatesAreLater(w, events, created, start, pass.selected);
    hide HappensIn, OnlyNewer, StateAt, Ahead;
    PassShrinksAhead(w, events, pass, id, created);
    SubsetCardinality(Ahead(StateAt(w, events, pass.selected), created), Ahead(StateAt(w, events, start), created));
  }

  lemma EarlierInSequence(w: World, events: seq<Event>, passes: seq<Pass>)
    requires InSequence(w, events, passes) && passes != []
    ensures var earlier, last := passes[..|passes| - 1], passes[|passes| - 1];
      && InSequence(w, events, earlier) && HappensIn(w, events, last)
      && EndOf(earlier) <= last.selected <= last.done < |events|
  {
    hide PassSees, StateAt;
  }

  lemma {:induction false} PassesShrinkAhead(w: World, events: seq<Event>, passes: seq<Pass>, id: JobId, created: int)
    requires w.rows.Keys <= w.issued && InSequence(w, events, passes) && OnlyNewer(events, created)
    requires forall n :: 0 <= n <= |events| ==> Waits(StateAt(w, events, n), id, created)
    ensures EndOf(passes) <= |events|
    ensures |Ahead(StateAt(w, events, EndOf(passes)), created)| + |passes| <= |Ahead(w, created)|
  {
    hide HappensIn, OnlyNewer, Ahead, InSequence, Waits;
    if passes != [] {
      var earlier, last := passes[..|passes| - 1], passes[|passes| - 1];
      EarlierInSequence(w, events, passes);
      hide StateAt;
      PassesShrinkAhead(w, events, earlier, id, created);
      NextPassShrinks(w, events, EndOf(earlier), last, id, created);
    }
  }

  lemma FewerPasses(w: World, events: seq<Event>, passes: seq<Pass>, id: JobId, created: int)
    requires w.rows.Keys <= w.issued && InSequence(w, events, passes) && OnlyNewer(events, created)
    requires forall n :: 0 <= n <= |events| ==> Waits(StateAt(w, events, n), id, created)
    ensures |passes| < |Ahead(w, created)|
  {
    PassesShrinkAhead(w, events, passes, id, created);
    assert Waits(StateAt(w, events, EndOf(passes)), id, created);
    hide InSequence, OnlyNewer, StateAt;
    assert id in Ahead(StateAt(w, events, EndOf(passes)), created);
  }

  lemma AlwaysWaits(w: World, events: seq<Event>, id: JobId)
    requires w.rows.Keys <= w.issued && IsPending(w.rows, id) && OnlyNewer(events, w.rows[id].createdAt)
    requires forall n :: 0 <= n <= |events| ==> IsPending(StateAt(w, events, n).rows, id)
    ensures forall n :: 0 <= n <= |events| ==> Waits(StateAt(w, events, n), id, w.rows[id].createdAt)
  {
    var created := w.rows[id].createdAt;
    assert StateAt(w, events, 0) == w;
    hide StateAt;
    forall n | 0 <= n <= |events| ensures Waits(StateAt(w, events, n), id, created) {
      StatesAreLater(w, events, created, 0, n);
    }
  }

  /** The worker's claim of the job is committed. */
  ghost predicate WonAt(w: World, events: seq<Event>, n: nat, id: JobId)
    requires n < |events|
  {
    events[n].Committed? && id in Own(StateAt(w, events, n), events[n].worker) && IsPending(StateAt(w, events, n).rows, id)
  }

  lemma LeavesPendingByCommit(w: World, e: Event, id: JobId)
    requires w.rows.Keys <= w.issued && IsPending(w.rows, id) && !IsPending(Happen(w, e).rows, id)
    ensures e.Committed? && id in Own(w, e.worker)
  {
  }

  /** No starvation: a job with `k` other pending jobs at least as old has been claimed, and the claim committed, by
      the time `k + 1` fair passes have committed one after another; whatever other workers do between any two
      statements of these passes, however many transactions are rolled back, and however many newer jobs arrive. */
  lemma InterleavedNoStarvation(w: World, events: seq<Event>, passes: seq<Pass>, id: JobId)
    requires w.rows.Keys <= w.issued && InSequence(w, events, passes) && IsPending(w.rows, id)
    requires OnlyNewer(events, w.rows[id].createdAt)
    requires |passes| >= |Ahead(w, w.rows[id].createdAt) - {id}| + 1
    ensures exists n :: 0 <= n < |events| && WonAt(w, events, n, id)
  {
    var created := w.rows[id].createdAt;
    assert Ahead(w, created) == Ahead(w, created) - {id} + {id};
    if forall n :: 0 <= n <= |events| ==> IsPending(StateAt(w, events, n).rows, id) {
      AlwaysWaits(w, events, id);
      FewerPasses(w, events, passes, id, created);
      assert false;
    } else {
      var n := FirstLost(w, events, id);
      StatesAreLater(w, events, created, 0, n);
      LeavesPendingByCommit(StateAt(w, events, n), events[n], id);
      assert WonAt(w, events, n, id);
    }
  }

  lemma FirstLost(w: World, events: seq<Event>, id: JobId) returns (n: nat)
    requires IsPending(StateAt(w, events, 0).rows, id)
    requires exists n :: 0 <= n <= |events| && !IsPending(StateAt(w, events, n).rows, id)
    ensures n < |events| && IsPending(StateAt(w, events, n).rows, id) && !IsPending(StateAt(w, events, n + 1).rows, id)
  {
    hide StateAt, IsPending;
    n := 0;
    while IsPending(StateAt(w, events, n + 1).rows, id)
      invariant n < |events| && IsPending(StateAt(w, events, n).rows, id)
      invariant exists m :: n < m <= |events| && !IsPending(StateAt(w, events, m).rows, id)
      decreases |events| - n
    {
      n := n + 1;
    }
  }
}
