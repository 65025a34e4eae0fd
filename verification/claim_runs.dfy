/** Whole runs of the reconstruction queue, one atomic pass at a time: no job starves. */
module FairRuns {
  import opened Collections
  import opened ReconstructionQueue

  datatype Step =
    | Enqueue(id: JobId, org: OrgId, now: int)
    | FairClaim(limit: nat)
    | OrgClaim(orgLimit: nat, claimOrg: OrgId)
    | Complete(jobId: JobId, ok: bool)
    | Purge(cutoff: int)

  /** The rows the retention pass keeps: everything but old finished jobs. */
  function Purged(rows: Jobs, cutoff: int): Jobs {
    map id | id in rows && !((rows[id].status.Done? || rows[id].status.Failed?) && rows[id].createdAt < cutoff) :: rows[id]
  }

  ghost predicate Next(pre: Jobs, step: Step, post: Jobs) {
    match step
    case Enqueue(id, org, now) => id !in pre && post == pre[id := Job(org, Pending, 0, now)]
    case FairClaim(limit) => exists claimed :: FairPass(pre, limit, claimed, post)
    case OrgClaim(limit, org) => exists claimed :: OrgPass(pre, limit, org, claimed, post)
    case Complete(id, ok) => post == Completed(pre, {id}, _ => ok)
    case Purge(cutoff) => post == Purged(pre, cutoff)
  }

  ghost predicate IsRun(states: seq<Jobs>, steps: seq<Step>) {
    && |states| == |steps| + 1
    && forall i :: 0 <= i < |steps| ==> Next(states[i], steps[i], states[i + 1])
  }

  /** Jobs enqueued during the run are newer than `created`, and a worker completes only jobs that
      are no longer pending. */
  ghost predicate Disciplined(states: seq<Jobs>, steps: seq<Step>, created: int)
    requires IsRun(states, steps)
  {
    forall i :: 0 <= i < |steps| ==>
      && (steps[i].Enqueue? ==> steps[i].now > created)
      && (steps[i].Complete? ==> !IsPending(states[i], steps[i].jobId))
  }

  function FairPasses(steps: seq<Step>): nat {
    CountIf(steps, IsFairPass)
  }

  /** The pending jobs that may be served before, or together with, a job created at `created`. */
  function Ahead(rows: Jobs, created: int): set<JobId> {
    set id | id in rows && IsPending(rows, id) && rows[id].createdAt <= created
  }

  lemma StepKeepsAhead(pre: Jobs, step: Step, post: Jobs, created: int)
    requires Next(pre, step, post)
    requires step.Enqueue? ==> step.now > created
    ensures Ahead(post, created) <= Ahead(pre, created)
  {
    match step
    case FairClaim(limit) =>
      hide FairPass;
      var claimed :| FairPass(pre, limit, claimed, post);
      FairPassMarks(pre, limit, claimed, post);
    case _ =>
  }

  /** A fair pass with room for a job either claims a given pending job or one ahead of it. */
  lemma FairPassShrinksAhead(pre: Jobs, limit: nat, post: Jobs, id: JobId)
    requires Next(pre, FairClaim(limit), post) && limit >= 1 && IsPending(pre, id)
    ensures |Ahead(post, pre[id].createdAt)| < |Ahead(pre, pre[id].createdAt)|
  {
    hide FairPass;
    var claimed :| FairPass(pre, limit, claimed, post);
    FairPassMarks(pre, limit, claimed, post);
    assert id in PendingJobs(pre);
    FairPassTakesOldest(pre, limit, claimed, post);
    var oldest :| oldest in claimed && IsOldest(pre, oldest);
    var before, after := Ahead(pre, pre[id].createdAt), Ahead(post, pre[id].createdAt);
    assert oldest in before && oldest !in after;
    SubsetCardinality(after, before - {oldest});
  }

  /** A job stays in the table unchanged for as long as it is pending. */
  lemma StillPending(pre: Jobs, step: Step, post: Jobs, id: JobId)
    requires Next(pre, step, post) && IsPending(pre, id)
    ensures id in post && post[id].createdAt == pre[id].createdAt && post[id].org == pre[id].org
    ensures !IsPending(post, id) && !step.Complete? ==> post[id].status.Claimed? && post[id].attempts == pre[id].attempts + 1
  {
    match step
    case FairClaim(limit) =>
      hide FairPass;
      var claimed :| FairPass(pre, limit, claimed, post);
      FairPassMarks(pre, limit, claimed, post);
    case _ =>
  }

  predicate IsFairPass(step: Step) {
    step.FairClaim? && step.limit >= 1
  }

  lemma StepProgress(pre: Jobs, step: Step, post: Jobs, id: JobId)
    requires Next(pre, step, post) && IsPending(pre, id) && IsPending(post, id)
    requires step.Enqueue? ==> step.now > pre[id].createdAt
    ensures post[id].createdAt == pre[id].createdAt
    ensures |Ahead(post, pre[id].createdAt)| + (if IsFairPass(step) then 1 else 0) <= |Ahead(pre, pre[id].createdAt)|
  {
    StillPending(pre, step, post, id);
    StepKeepsAhead(pre, step, post, pre[id].createdAt);
    hide Next, Ahead;
    SubsetCardinality(Ahead(post, pre[id].createdAt), Ahead(pre, pre[id].createdAt));
    if IsFairPass(step) {
      FairPassShrinksAhead(pre, step.limit, post, id);
    }
  }

  lemma RunTail(states: seq<Jobs>, steps: seq<Step>, created: int)
    requires IsRun(states, steps) && steps != [] && Disciplined(states, steps, created)
    ensures IsRun(states[1..], steps[1..]) && Disciplined(states[1..], steps[1..], created)
    ensures FairPasses(steps) == (if IsFairPass(steps[0]) then 1 else 0) + FairPasses(steps[1..])
  {
    hide Next, IsPending;
  }

  lemma {:induction false} PendingThroughout(states: seq<Jobs>, steps: seq<Step>, id: JobId)
    requires IsRun(states, steps) && IsPending(states[0], id)
    requires forall i :: 0 <= i < |states| ==> IsPending(states[i], id)
    requires Disciplined(states, steps, states[0][id].createdAt)
    ensures FairPasses(steps) < |Ahead(states[0], states[0][id].createdAt)|
  {
    var created := states[0][id].createdAt;
    if steps == [] {
      assert id in Ahead(states[0], created);
    } else {
      StepProgress(states[0], steps[0], states[1], id);
      RunTail(states, steps, created);
      hide Next, Ahead, IsPending, FairPasses, IsFairPass, IsRun, Disciplined;
      PendingThroughout(states[1..], steps[1..], id);
    }
  }

  ghost predicate ClaimedAt(states: seq<Jobs>, i: nat, id: JobId)
    requires i + 1 < |states|
  {
    && IsPending(states[i], id)
    && id in states[i + 1]
    && states[i + 1][id].status.Claimed?
    && states[i + 1][id].attempts == states[i][id].attempts + 1
  }

  /** No starvation: however many newer jobs any tenant adds, and whatever else happens in between,
      a job with `k` other pending jobs at least as old is claimed within `k + 1` fair passes. */
  lemma NoStarvation(states: seq<Jobs>, steps: seq<Step>, id: JobId)
    requires IsRun(states, steps) && IsPending(states[0], id)
    requires Disciplined(states, steps, states[0][id].createdAt)
    requires FairPasses(steps) >= |Ahead(states[0], states[0][id].createdAt) - {id}| + 1
    ensures exists i :: 0 <= i < |steps| && ClaimedAt(states, i, id)
  {
    var ahead := Ahead(states[0], states[0][id].createdAt);
    assert ahead == ahead - {id} + {id};
    if forall i :: 0 <= i < |states| ==> IsPending(states[i], id) {
      PendingThroughout(states, steps, id);
      assert false;
    }
    var n := FirstNotPending(states, id);
    StillPending(states[n - 1], steps[n - 1], states[n], id);
    assert ClaimedAt(states, n - 1, id);
  }

  lemma {:induction false} FirstNotPending(states: seq<Jobs>, id: JobId) returns (n: nat)
    requires states != [] && exists i :: 0 <= i < |states| && !IsPending(states[i], id)
    ensures n < |states| && !IsPending(states[n], id)
    ensures forall i :: 0 <= i < n ==> IsPending(states[i], id)
  {
    n := 0;
    while IsPending(states[n], id)
      invariant n < |states|
      invariant forall i :: 0 <= i < n ==> IsPending(states[i], id)
      invariant exists i :: n <= i < |states| && !IsPending(states[i], id)
      decreases |states| - n
    {
      n := n + 1;
    }
  }
}
