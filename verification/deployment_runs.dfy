/** Runs of the deployment job queue: workers claim, complete and clear jobs in any order. */
module DeploymentRuns {
  import opened Collections
  import opened Deployments

  datatype Event =
    | Requested(id: JobId, deployment: DeploymentId, jobType: string, now: int)
    | Attempt(worker: int, id: JobId)
    | Finish(id: JobId, ok: bool)
    | Clear(deployment: DeploymentId, jobType: string)

  datatype Claim = Claim(worker: int, id: JobId, deployment: DeploymentId, jobType: string)

  /** The table, the ids ever generated (a UUID is never generated twice), and every claim that was won. */
  datatype World = World(jobs: Jobs, issued: set<JobId>, claims: seq<Claim>)

  function Happen(w: World, e: Event): World {
    match e
    case Requested(id, deployment, jobType, now) =>
      if id in w.issued then w
      else w.(jobs := Enqueued(w.jobs, id, deployment, jobType, now), issued := w.issued + {id})
    case Attempt(worker, id) =>
      if id in w.jobs && w.jobs[id].status.Pending?
      then w.(jobs := MarkClaimed(w.jobs, {id}),
              claims := w.claims + [Claim(worker, id, w.jobs[id].deployment, w.jobs[id].jobType)])
      else w
    case Finish(id, ok) => w.(jobs := Completed(w.jobs, id, ok))
    case Clear(deployment, jobType) => w.(jobs := Cleared(w.jobs, deployment, jobType))
  }

  function After(events: seq<Event>): World {
    if events == [] then World(map[], {}, []) else Happen(After(events[..|events| - 1]), events[|events| - 1])
  }

  ghost predicate OneJobPerType(jobs: Jobs) {
    forall a, b :: a in jobs && b in jobs && jobs[a].deployment == jobs[b].deployment && jobs[a].jobType == jobs[b].jobType ==> a == b
  }

  /** In every reachable state there is at most one job row per deployment and type. */
  lemma {:induction false} UniqueJobs(events: seq<Event>)
    ensures OneJobPerType(After(events).jobs) && After(events).jobs.Keys <= After(events).issued
  {
    if events != [] {
      UniqueJobs(events[..|events| - 1]);
    }
  }

  lemma {:induction false} GoneStaysGone(events: seq<Event>, later: seq<Event>, id: JobId)
    requires id in After(events).issued && id !in After(events).jobs
    ensures id in After(events + later).issued && id !in After(events + later).jobs
  {
    if later == [] {
      assert events + later == events;
    } else {
      GoneStaysGone(events, later[..|later| - 1], id);
      assert (events + later)[..|events + later| - 1] == events + later[..|later| - 1];
    }
  }

  /** A worker that finishes a job after it was cleared changes nothing, not even the job that has taken
      its place since. */
  lemma LateFinishIsIgnored(events: seq<Event>, deployment: DeploymentId, jobType: string, id: JobId, later: seq<Event>, ok: bool)
    requires id in After(events).jobs
    requires After(events).jobs[id].deployment == deployment && After(events).jobs[id].jobType == jobType
    ensures var w := After(events + [Clear(deployment, jobType)] + later);
      Happen(w, Finish(id, ok)) == w
  {
    UniqueJobs(events);
    var cleared := events + [Clear(deployment, jobType)];
    assert cleared[..|cleared| - 1] == events;
    GoneStaysGone(cleared, later, id);
  }

  function ClaimsOf(w: World, deployment: DeploymentId, jobType: string): nat {
    CountIf(w.claims, (claim: Claim) => claim.deployment == deployment && claim.jobType == jobType)
  }

  function Clears(events: seq<Event>, deployment: DeploymentId, jobType: string): nat {
    if events == [] then 0
    else Clears(events[..|events| - 1], deployment, jobType) + (if events[|events| - 1] == Clear(deployment, jobType) then 1 else 0)
  }

  predicate PendingExists(jobs: Jobs, deployment: DeploymentId, jobType: string) {
    exists id :: id in jobs && jobs[id].deployment == deployment && jobs[id].jobType == jobType && jobs[id].status.Pending?
  }

  lemma ClaimCounted(w: World, claim: Claim, deployment: DeploymentId, jobType: string)
    ensures ClaimsOf(w.(claims := w.claims + [claim]), deployment, jobType) ==
      ClaimsOf(w, deployment, jobType) + (if claim.deployment == deployment && claim.jobType == jobType then 1 else 0)
  {
    var p := (claim: Claim) => claim.deployment == deployment && claim.jobType == jobType;
    CountIfAppend(w.claims, [claim], p);
    assert CountIf([claim], p) == if p(claim) then 1 else 0;
  }

  lemma EventKeepsBalance(w: World, e: Event, deployment: DeploymentId, jobType: string)
    requires OneJobPerType(w.jobs) && w.jobs.Keys <= w.issued
    ensures var after := Happen(w, e);
      var held := (if JobExists(w.jobs, deployment, jobType) then 1 else 0)
        - (if PendingExists(w.jobs, deployment, jobType) then 1 else 0) - ClaimsOf(w, deployment, jobType);
      var held' := (if JobExists(after.jobs, deployment, jobType) then 1 else 0)
        - (if PendingExists(after.jobs, deployment, jobType) then 1 else 0) - ClaimsOf(after, deployment, jobType);
      held' + (if e == Clear(deployment, jobType) then 1 else 0) >= held
  {
    var after := Happen(w, e);
    match e
    case Requested(id, d, t, now) =>
      if id !in w.issued && !JobExists(w.jobs, d, t) {
        assert forall other :: other in after.jobs && other != id ==> other in w.jobs && after.jobs[other] == w.jobs[other];
        if d == deployment && t == jobType {
          assert after.jobs[id].deployment == d;
        } else {
          SameRows(w.jobs, after.jobs, deployment, jobType);
        }
      }
    case Attempt(worker, id) =>
      if id in w.jobs && w.jobs[id].status.Pending? {
        ClaimCounted(w, Claim(worker, id, w.jobs[id].deployment, w.jobs[id].jobType), deployment, jobType);
        if w.jobs[id].deployment == deployment && w.jobs[id].jobType == jobType {
          assert !PendingExists(after.jobs, deployment, jobType);
          assert after.jobs[id].deployment == deployment;
        } else {
          SameRows(w.jobs, after.jobs, deployment, jobType);
        }
      }
    case Finish(id, ok) =>
      if id in w.jobs {
        if w.jobs[id].deployment == deployment && w.jobs[id].jobType == jobType {
          assert after.jobs[id].deployment == deployment;
        } else {
          SameRows(w.jobs, after.jobs, deployment, jobType);
        }
      }
    case Clear(d, t) =>
      if d != deployment || t != jobType {
        SameRows(w.jobs, after.jobs, deployment, jobType);
      }
  }

  lemma SameRows(before: Jobs, after: Jobs, deployment: DeploymentId, jobType: string)
    requires forall id :: id in before && before[id].deployment == deployment && before[id].jobType == jobType ==>
      id in after && after[id] == before[id]
    requires forall id :: id in after && after[id].deployment == deployment && after[id].jobType == jobType ==>
      id in before && after[id] == before[id]
    ensures JobExists(before, deployment, jobType) <==> JobExists(after, deployment, jobType)
    ensures PendingExists(before, deployment, jobType) <==> PendingExists(after, deployment, jobType)
  {
  }

  lemma {:induction false} ClaimsBalance(events: seq<Event>, deployment: DeploymentId, jobType: string)
    ensures var w := After(events);
      ClaimsOf(w, deployment, jobType) + (if PendingExists(w.jobs, deployment, jobType) then 1 else 0)
        <= Clears(events, deployment, jobType) + (if JobExists(w.jobs, deployment, jobType) then 1 else 0)
  {
    if events != [] {
      ClaimsBalance(events[..|events| - 1], deployment, jobType);
      UniqueJobs(events[..|events| - 1]);
      EventKeepsBalance(After(events[..|events| - 1]), events[|events| - 1], deployment, jobType);
    }
  }

  /** However often a deployment's job is requested, and whichever workers race for it, it is claimed once, and at
      most once more for every time it was explicitly cleared. These are the claims that are committed: a worker
      whose transaction is rolled back leaves the job pending, whatever it has already done outside the database. */
  lemma CarriedOutOncePerClear(events: seq<Event>, deployment: DeploymentId, jobType: string)
    ensures ClaimsOf(After(events), deployment, jobType) <= Clears(events, deployment, jobType) + 1
  {
    ClaimsBalance(events, deployment, jobType);
  }
}
