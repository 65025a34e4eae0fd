/** Deployment jobs, unique per deployment and type, and idempotent tripwire activation. */
module Deployments {
  import opened Collections

  type JobId = int
  type DeploymentId = int

  datatype JobStatus = Pending | Claimed | Done | Failed

  datatype Job = Job(deployment: DeploymentId, jobType: string, status: JobStatus, attempts: nat, createdAt: int)

  type Jobs = map<JobId, Job>

  predicate JobExists(jobs: Jobs, deployment: DeploymentId, jobType: string) {
    exists id :: id in jobs && jobs[id].deployment == deployment && jobs[id].jobType == jobType
  }

  function Enqueued(jobs: Jobs, id: JobId, deployment: DeploymentId, jobType: string, now: int): Jobs {
    if JobExists(jobs, deployment, jobType) then jobs else jobs[id := Job(deployment, jobType, Pending, 0, now)]
  }

  function PendingJobs(jobs: Jobs): map<JobId, int> {
    map id | id in jobs && jobs[id].status.Pending? :: jobs[id].createdAt
  }

  predicate InOrderOfCreation(jobs: Jobs, ids: seq<JobId>) {
    forall i, j :: 0 <= i < j < |ids| ==> ids[i] in jobs && ids[j] in jobs && jobs[ids[i]].createdAt <= jobs[ids[j]].createdAt
  }

  function MarkClaimed(jobs: Jobs, ids: set<JobId>): Jobs {
    map id | id in jobs :: if id in ids then jobs[id].(status := Claimed, attempts := jobs[id].attempts + 1) else jobs[id]
  }

  function Completed(jobs: Jobs, id: JobId, ok: bool): Jobs {
    if id in jobs then jobs[id := jobs[id].(status := if ok then Done else Failed)] else jobs
  }

  function Cleared(jobs: Jobs, deployment: DeploymentId, jobType: string): Jobs {
    map id | id in jobs && !(jobs[id].deployment == deployment && jobs[id].jobType == jobType) :: jobs[id]
  }

  // ---- tripwires ----

  datatype TripwireKey = TripwireKey(deployment: DeploymentId, trace: string)

  datatype Tripwire = Tripwire(decoy: int, path: string, commit: string, status: string)

  type Tripwires = map<TripwireKey, Tripwire>

  datatype Item = Item(decoy: int, trace: string, path: string)

  const ACTIVE := "active"

  function TracesOf(items: seq<Item>): set<string> {
    set item | item in items :: item.trace
  }

  function NewTraces(tripwires: Tripwires, deployment: DeploymentId, items: seq<Item>): set<string> {
    set trace | trace in TracesOf(items) && TripwireKey(deployment, trace) !in tripwires
  }

  /** The tripwires of one deployment that are being monitored. */
  function ActiveOf(tripwires: Tripwires, deployment: DeploymentId): set<TripwireKey> {
    set key | key in tripwires && key.deployment == deployment && tripwires[key].status == ACTIVE
  }

  function FromItem(item: Item, commit: string): Tripwire {
    Tripwire(item.decoy, item.path, commit, ACTIVE)
  }

  /** Inserting one row per item; an item whose row exists is skipped. */
  function Activated(tripwires: Tripwires, deployment: DeploymentId, items: seq<Item>, commit: string): Tripwires {
    if items == [] then tripwires
    else
      var earlier := Activated(tripwires, deployment, items[..|items| - 1], commit);
      var item := items[|items| - 1];
      var key := TripwireKey(deployment, item.trace);
      if key in earlier then earlier else earlier[key := FromItem(item, commit)]
  }

  class DeploymentRepository {
    var jobs: Jobs
    var tripwires: Tripwires

    constructor ()
      ensures jobs == map[] && tripwires == map[]
    {
      jobs := map[];
      tripwires := map[];
    }

    /** Fails on the unique constraint when the deployment already has a job of this type. */
    method EnqueueJob(id: JobId, deployment: DeploymentId, jobType: string, now: int) returns (added: bool)
      requires id !in jobs
      modifies this`jobs
      ensures added <==> forall other :: other in old(jobs) ==>
        old(jobs)[other].deployment != deployment || old(jobs)[other].jobType != jobType
      ensures added ==> jobs == old(jobs)[id := Job(deployment, jobType, Pending, 0, now)]
      ensures jobs == Enqueued(old(jobs), id, deployment, jobType, now)
    {
      added := !JobExists(jobs, deployment, jobType);
      if added {
        jobs := jobs[id := Job(deployment, jobType, Pending, 0, now)];
      }
    }

    method ClaimJobs(limit: nat) returns (claimed: seq<JobId>)
      modifies this`jobs
      ensures OldestFirst(PendingJobs(old(jobs)), limit, claimed)
      ensures InOrderOfCreation(old(jobs), claimed)
      ensures forall x, y :: x in claimed && y in old(jobs) && old(jobs)[y].status == Pending && y !in claimed ==>
        x in old(jobs) && old(jobs)[x].createdAt <= old(jobs)[y].createdAt
      ensures forall id :: id in claimed ==>
        id in old(jobs) && old(jobs)[id].status == Pending && id in jobs
        && jobs[id] == old(jobs)[id].(status := Claimed, attempts := old(jobs)[id].attempts + 1)
      ensures jobs == MarkClaimed(old(jobs), Elements(claimed))
    {
      var candidates := SelectOldest(PendingJobs(jobs), limit);
      claimed := [];
      NothingClaimed(jobs, candidates);
      hide OldestFirst, MarkClaimed, PendingJobs;
      for i := 0 to |candidates|
        invariant claimed == candidates[..i]
        invariant jobs == MarkClaimed(old(jobs), Elements(claimed))
      {
        var id := candidates[i];
        NextClaim(old(jobs), limit, candidates, i);
        if id in jobs && jobs[id].status.Pending? {
          jobs := jobs[id := jobs[id].(status := Claimed)];
          jobs := jobs[id := jobs[id].(attempts := jobs[id].attempts + 1)];
          claimed := claimed + [id];
        }
      }
      assert candidates[..|candidates|] == candidates;
      assert claimed == candidates;
      OldestArePending(old(jobs), limit, claimed);
      ClaimedRows(old(jobs), claimed);
    }

    method CompleteJob(id: JobId, ok: bool)
      modifies this`jobs
      ensures jobs == Completed(old(jobs), id, ok)
      ensures id in old(jobs) ==> jobs == old(jobs)[id := old(jobs)[id].(status := if ok then Done else Failed)]
    {
      if id !in jobs {
        return;
      }
      jobs := jobs[id := jobs[id].(status := if ok then Done else Failed)];
    }

    method ClearJob(deployment: DeploymentId, jobType: string)
      modifies this`jobs
      ensures jobs == Cleared(old(jobs), deployment, jobType)
      ensures forall id :: id in jobs <==>
        id in old(jobs) && !(old(jobs)[id].deployment == deployment && old(jobs)[id].jobType == jobType)
      ensures forall id :: id in jobs ==> jobs[id] == old(jobs)[id]
    {
      ghost var before := jobs;
      var rest := set id | id in jobs && jobs[id].deployment == deployment && jobs[id].jobType == jobType;
      while rest != {}
        invariant rest == set id | id in jobs && jobs[id].deployment == deployment && jobs[id].jobType == jobType
        invariant Cleared(jobs, deployment, jobType) == Cleared(before, deployment, jobType)
        decreases |rest|
      {
        var id := Pick(rest);
        jobs := jobs - {id};
        rest := rest - {id};
      }
      forall id | id in jobs ensures !(jobs[id].deployment == deployment && jobs[id].jobType == jobType) {
        assert id !in rest;
      }
    }

    method ActivateTripwires(deployment: DeploymentId, items: seq<Item>, commit: string) returns (activated: nat)
      modifies this`tripwires
      ensures tripwires == Activated(old(tripwires), deployment, items, commit)
      ensures activated == |NewTraces(old(tripwires), deployment, items)|
    {
      activated := 0;
      ghost var before := tripwires;
      assert items[..0] == [];
      hide NewTraces;
      NoItems(before, deployment);
      for i := 0 to |items|
        invariant tripwires == Activated(before, deployment, items[..i], commit)
        invariant activated == |NewTraces(before, deployment, items[..i])|
      {
        var item := items[i];
        var key := TripwireKey(deployment, item.trace);
        assert items[..i + 1][..i] == items[..i];
        ItemCounted(before, deployment, items, i, commit);
        if key !in tripwires {
          tripwires := tripwires[key := Tripwire(item.decoy, item.path, commit, ACTIVE)];
          activated := activated + 1;
        }
      }
      assert items[..|items|] == items;
    }

    method SetTripwireStatus(deployment: DeploymentId, status: string) returns (count: nat)
      modifies this`tripwires
      ensures tripwires == WithStatus(old(tripwires), deployment, status)
      ensures tripwires.Keys == old(tripwires).Keys
      ensures forall key :: key in tripwires ==>
        tripwires[key] == (if key.deployment == deployment then old(tripwires)[key].(status := status) else old(tripwires)[key])
      ensures count == |set key | key in old(tripwires) && key.deployment == deployment|
    {
      ghost var before := tripwires;
      var rows := set key | key in tripwires && key.deployment == deployment;
      var rest := rows;
      while rest != {}
        invariant rest <= rows && tripwires.Keys == before.Keys
        invariant forall key :: key in before ==>
          tripwires[key] == if key in rows - rest then before[key].(status := status) else before[key]
        decreases |rest|
      {
        var key := Pick(rest);
        tripwires := tripwires[key := tripwires[key].(status := status)];
        rest := rest - {key};
      }
      assert tripwires == WithStatus(before, deployment, status);
      count := |rows|;
    }
  }

  lemma ClaimedRows(jobs: Jobs, claimed: seq<JobId>)
    ensures forall id :: id in claimed && id in jobs ==>
      id in MarkClaimed(jobs, Elements(claimed))
      && MarkClaimed(jobs, Elements(claimed))[id] == jobs[id].(status := Claimed, attempts := jobs[id].attempts + 1)
  {
  }

  /** What the candidate query may return, by creation time. */
  lemma OldestArePending(jobs: Jobs, limit: nat, picked: seq<JobId>)
    requires OldestFirst(PendingJobs(jobs), limit, picked)
    ensures forall id :: id in picked ==> id in jobs && jobs[id].status == Pending
    ensures InOrderOfCreation(jobs, picked)
    ensures forall x, y :: x in picked && y in jobs && jobs[y].status == Pending && y !in picked ==>
      x in jobs && jobs[x].createdAt <= jobs[y].createdAt
  {
    var times := PendingJobs(jobs);
    assert forall id :: id in times <==> id in jobs && jobs[id].status == Pending;
    forall i | 0 <= i < |picked| ensures picked[i] in times {
      assert picked[i] in picked;
    }
    forall i, j | 0 <= i < j < |picked| ensures jobs[picked[i]].createdAt <= jobs[picked[j]].createdAt {
      assert times[picked[i]] <= times[picked[j]];
    }
    forall x, y | x in picked && y in jobs && jobs[y].status == Pending && y !in picked
      ensures jobs[x].createdAt <= jobs[y].createdAt
    {
      assert times[x] <= times[y];
    }
  }

  lemma NothingClaimed(jobs: Jobs, candidates: seq<JobId>)
    ensures MarkClaimed(jobs, Elements(candidates[..0])) == jobs
  {
  }

  lemma NextClaim(jobs: Jobs, limit: nat, candidates: seq<JobId>, i: nat)
    requires OldestFirst(PendingJobs(jobs), limit, candidates) && i < |candidates|
    ensures var id, claimed := candidates[i], MarkClaimed(jobs, Elements(candidates[..i]));
      && id in claimed && claimed[id].status.Pending?
      && claimed[id := claimed[id].(status := Claimed)][id := claimed[id].(status := Claimed, attempts := claimed[id].attempts + 1)]
           == MarkClaimed(jobs, Elements(candidates[..i] + [id]))
    ensures candidates[..i] + [candidates[i]] == candidates[..i + 1]
  {
    assert candidates[i] in candidates && candidates[i] !in candidates[..i];
  }

  function WithStatus(tripwires: Tripwires, deployment: DeploymentId, status: string): Tripwires {
    map key | key in tripwires :: if key.deployment == deployment then tripwires[key].(status := status) else tripwires[key]
  }

  lemma NoItems(tripwires: Tripwires, deployment: DeploymentId)
    ensures NewTraces(tripwires, deployment, []) == {}
  {
  }

  /** Existing tripwires stay exactly as they are; every trace of the items has one, and new ones are active. */
  lemma {:induction false} ActivationAddsOnly(tripwires: Tripwires, deployment: DeploymentId, items: seq<Item>, commit: string)
    ensures var after := Activated(tripwires, deployment, items, commit);
      && (forall key :: key in after <==> key in tripwires || (key.deployment == deployment && key.trace in TracesOf(items)))
      && (forall key :: key in tripwires ==> after[key] == tripwires[key])
      && (forall key :: key in after && key !in tripwires ==> after[key].status == ACTIVE)
  {
    if items != [] {
      var n := |items| - 1;
      ActivationAddsOnly(tripwires, deployment, items[..n], commit);
      TracesNext(items, n);
      hide TracesOf;
    }
  }

  lemma TracesNext(items: seq<Item>, n: nat)
    requires n < |items|
    ensures TracesOf(items[..n + 1]) == TracesOf(items[..n]) + {items[n].trace}
    ensures n + 1 == |items| ==> items[..n + 1] == items
  {
    PrefixGrows(items, n);
  }

  /** Of several items with one trace, the first is the one that is monitored. */
  lemma {:induction false} FirstItemWins(tripwires: Tripwires, deployment: DeploymentId, items: seq<Item>, commit: string, i: nat)
    requires i < |items| && TripwireKey(deployment, items[i].trace) !in tripwires
    requires forall k :: 0 <= k < i ==> items[k].trace != items[i].trace
    ensures var key := TripwireKey(deployment, items[i].trace);
      var after := Activated(tripwires, deployment, items, commit);
      key in after && after[key] == Tripwire(items[i].decoy, items[i].path, commit, "active")
  {
    var n := |items| - 1;
    if i < n {
      FirstItemWins(tripwires, deployment, items[..n], commit, i);
    } else {
      ActivationAddsOnly(tripwires, deployment, items[..n], commit);
    }
  }

  lemma ItemCounted(tripwires: Tripwires, deployment: DeploymentId, items: seq<Item>, i: nat, commit: string)
    requires i < |items|
    ensures |NewTraces(tripwires, deployment, items[..i + 1])| == |NewTraces(tripwires, deployment, items[..i])| +
      (if TripwireKey(deployment, items[i].trace) in Activated(tripwires, deployment, items[..i], commit) then 0 else 1)
  {
    ActivationAddsOnly(tripwires, deployment, items[..i], commit);
    TracesNext(items, i);
    hide TracesOf, Activated;
    if TripwireKey(deployment, items[i].trace) in Activated(tripwires, deployment, items[..i], commit) {
      assert NewTraces(tripwires, deployment, items[..i + 1]) == NewTraces(tripwires, deployment, items[..i]);
    } else {
      assert NewTraces(tripwires, deployment, items[..i + 1]) == NewTraces(tripwires, deployment, items[..i]) + {items[i].trace};
    }
  }

  /** Activating again changes nothing, counts nothing, and never revives a disabled tripwire, whatever
      status was set in between. */
  lemma RepeatActivatesNothing(
    tripwires: Tripwires, deployment: DeploymentId, items: seq<Item>, commit: string, status: string,
    again: seq<Item>, commit': string)
    requires TracesOf(again) <= TracesOf(items)
    ensures var middle := WithStatus(Activated(tripwires, deployment, items, commit), deployment, status);
      && Activated(middle, deployment, again, commit') == middle
      && NewTraces(middle, deployment, again) == {}
      && (status != ACTIVE ==> ActiveOf(Activated(middle, deployment, again, commit'), deployment) == {})
  {
    var middle := WithStatus(Activated(tripwires, deployment, items, commit), deployment, status);
    ActivationAddsOnly(tripwires, deployment, items, commit);
    ActivationAddsOnly(middle, deployment, again, commit');
    assert Activated(middle, deployment, again, commit').Keys == middle.Keys;
  }

  /** The check made after a merge (as many active tripwires as items, and at least one) passes on a fresh
      deployment exactly when there are items and their traces are all different. */
  lemma FullyMonitoredIffDistinct(tripwires: Tripwires, deployment: DeploymentId, items: seq<Item>, commit: string)
    requires forall key :: key in tripwires ==> key.deployment != deployment
    ensures var active := |ActiveOf(Activated(tripwires, deployment, items, commit), deployment)|;
      active == |items| && active > 0 <==> items != [] && Distinct(Traces(items))
  {
    var after := Activated(tripwires, deployment, items, commit);
    ActivationAddsOnly(tripwires, deployment, items, commit);
    KeysForTraces(deployment, TracesOf(items));
    assert ActiveOf(after, deployment) == set trace | trace in TracesOf(items) :: TripwireKey(deployment, trace);
    assert TracesOf(items) == Elements(Traces(items)) by {
      forall item | item in items ensures item.trace in Traces(items) {
        var i :| 0 <= i < |items| && items[i] == item;
        assert Traces(items)[i] == item.trace;
      }
    }
    DistinctIffCardinality(Traces(items));
  }

  function Traces(items: seq<Item>): seq<string> {
    seq(|items|, i requires 0 <= i < |items| => items[i].trace)
  }

  lemma {:induction false} KeysForTraces(deployment: DeploymentId, traces: set<string>)
    ensures |set trace | trace in traces :: TripwireKey(deployment, trace)| == |traces|
    decreases |traces|
  {
    if traces != {} {
      var trace :| trace in traces;
      var rest := traces - {trace};
      KeysForTraces(deployment, rest);
      assert (set t | t in traces :: TripwireKey(deployment, t))
        == (set t | t in rest :: TripwireKey(deployment, t)) + {TripwireKey(deployment, trace)};
    }
  }
}
