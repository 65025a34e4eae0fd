/** The reconstruction work queue: ordered queries, compare-and-set claims and fair sharing. */
module ReconstructionQueue {
  import opened Collections

  // UUIDs are only compared for equality.
  type JobId = int
  type OrgId = int

  datatype Status = Pending | Claimed | Done | Failed

  datatype Job = Job(org: OrgId, status: Status, attempts: nat, createdAt: int)

  type Jobs = map<JobId, Job>

  predicate IsPending(rows: Jobs, id: JobId) {
    id in rows && rows[id].status.Pending?
  }

  function PendingJobs(rows: Jobs): set<JobId> {
    set id | id in rows && IsPending(rows, id)
  }

  /** The pending jobs of one organization, or of all. */
  function PendingIn(rows: Jobs, scope: Option<OrgId>): set<JobId> {
    set id | id in rows && IsPending(rows, id) && InScope(rows[id], scope)
  }

  predicate InScope(job: Job, scope: Option<OrgId>) {
    scope.Some? ==> job.org == scope.value
  }

  /** One organization's pending jobs with their creation times. */
  function PendingOf(rows: Jobs, org: OrgId): map<JobId, int> {
    map id | id in rows && IsPending(rows, id) && rows[id].org == org :: rows[id].createdAt
  }

  /** The organizations with pending jobs, each with the creation time of its oldest one. */
  function PendingOrgs(rows: Jobs): (orgs: map<OrgId, int>)
    ensures forall org :: org in orgs <==> PendingOf(rows, org).Keys != {}
    ensures forall id :: IsPending(rows, id) ==> rows[id].org in orgs && orgs[rows[id].org] <= rows[id].createdAt
    ensures forall org :: org in orgs ==> orgs[org] in PendingOf(rows, org).Values
  {
    var orgs := set id | id in rows && IsPending(rows, id) :: rows[id].org;
    assert forall id :: IsPending(rows, id) ==> id in PendingOf(rows, rows[id].org);
    assert forall org :: org in orgs ==> PendingOf(rows, org).Keys != {};
    assert forall org, id :: id in PendingOf(rows, org) ==> rows[id].createdAt in PendingOf(rows, org).Values;
    map org | org in orgs && PendingOf(rows, org).Keys != {} ::
      var oldest := PendingOf(rows, org);
      assert oldest.Values != {};
      Least(oldest.Values)
  }

  /** The table after every job of `ids` won its compare-and-set. */
  function MarkClaimed(rows: Jobs, ids: set<JobId>): Jobs {
    map id | id in rows ::
      if id in ids then rows[id].(status := Claimed, attempts := rows[id].attempts + 1) else rows[id]
  }

  /** What one fair pass hands out, organization after organization. */
  datatype Shares = Nothing | Then(earlier: Shares, org: OrgId, jobs: seq<JobId>)

  function OrgsOf(shares: Shares): seq<OrgId> {
    match shares
    case Nothing => []
    case Then(earlier, org, _) => OrgsOf(earlier) + [org]
  }

  function AllJobs(shares: Shares): seq<JobId> {
    match shares
    case Nothing => []
    case Then(earlier, _, jobs) => AllJobs(earlier) + jobs
  }

  /** Different organizations, each given its oldest pending jobs. */
  ghost predicate OldestShares(rows: Jobs, share: nat, shares: Shares) {
    match shares
    case Nothing => true
    case Then(earlier, org, jobs) =>
      && OldestShares(rows, share, earlier)
      && org !in OrgsOf(earlier)
      && OldestFirst(PendingOf(rows, org), share, jobs)
  }

  /** The part of a pass of `limit` jobs that each of `n` organizations may use. */
  function ShareSize(limit: nat, n: nat): nat {
    if n == 0 then 0 else limit / n
  }

  /** The shares a fair pass may hand out from the table `rows`: the organizations whose oldest
      pending job is oldest, and for each of them its own oldest jobs up to an equal share. */
  ghost predicate FairShares(rows: Jobs, limit: nat, shares: Shares) {
    && OldestFirst(PendingOrgs(rows), limit, OrgsOf(shares))
    && (shares.Then? ==> |OrgsOf(shares)| <= limit && OldestShares(rows, ShareSize(limit, |OrgsOf(shares)|), shares))
  }

  ghost predicate FairPass(pre: Jobs, limit: nat, claimed: seq<JobId>, post: Jobs) {
    exists shares ::
      FairShares(pre, limit, shares) && claimed == AllJobs(shares) && post == MarkClaimed(pre, Elements(claimed))
  }

  ghost predicate OrgPass(pre: Jobs, limit: nat, org: OrgId, claimed: seq<JobId>, post: Jobs) {
    && OldestFirst(PendingOf(pre, org), limit, claimed)
    && post == MarkClaimed(pre, Elements(claimed))
  }

  ghost predicate ClaimPass(pre: Jobs, limit: nat, scope: Option<OrgId>, claimed: seq<JobId>, post: Jobs) {
    match scope
    case None => FairPass(pre, limit, claimed, post)
    case Some(org) => OrgPass(pre, limit, org, claimed, post)
  }

  class ReconstructionJobs {
    var rows: Jobs

    constructor ()
      ensures rows == map[]
    {
      rows := map[];
    }

    /** Appends a pending job; `id` is a fresh UUID. */
    method Enqueue(id: JobId, org: OrgId, now: int)
      requires id !in rows
      modifies this
      ensures rows == old(rows)[id := Job(org, Pending, 0, now)]
    {
      rows := rows[id := Job(org, Pending, 0, now)];
    }

    /** `UPDATE ... SET status = 'claimed' WHERE id = :id AND status = 'pending'`: the worker whose
        update changes the row owns the job and counts the attempt. */
    method TryClaim(id: JobId) returns (won: bool)
      modifies this
      ensures won <==> IsPending(old(rows), id)
      ensures rows == if won then MarkClaimed(old(rows), {id}) else old(rows)
      ensures won ==> rows == old(rows)[id := old(rows)[id].(status := Claimed, attempts := old(rows)[id].attempts + 1)]
    {
      won := id in rows && rows[id].status.Pending?;
      if won {
        rows := rows[id := rows[id].(status := Claimed)];
        rows := rows[id := rows[id].(attempts := rows[id].attempts + 1)];
      }
    }

    method ClaimForOrg(limit: nat, org: OrgId) returns (claimed: seq<JobId>)
      modifies this
      ensures OrgPass(old(rows), limit, org, claimed, rows)
    {
      var candidates := SelectOldest(PendingOf(rows, org), limit);
      claimed := [];
      NothingClaimed(rows, candidates);
      hide OldestFirst, MarkClaimed, PendingOf, IsPending;
      for i := 0 to |candidates|
        invariant claimed == candidates[..i]
        invariant rows == MarkClaimed(old(rows), Elements(claimed))
      {
        NextClaim(old(rows), org, limit, candidates, i);
        var won := TryClaim(candidates[i]);
        if won {
          claimed := claimed + [candidates[i]];
        }
      }
      assert candidates[..|candidates|] == candidates;
    }

    method ClaimFair(limit: nat) returns (claimed: seq<JobId>)
      modifies this
      ensures FairPass(old(rows), limit, claimed, rows)
    {
      var organizations := SelectOldest(PendingOrgs(rows), limit);
      claimed := [];
      ghost var shares := Nothing;
      if organizations == [] {
        assert FairShares(rows, limit, shares);
        assert rows == MarkClaimed(rows, Elements(claimed));
        return;
      }
      hide OldestShares, MarkClaimed;
      var n := |organizations|;
      var share := if limit / n >= 1 then limit / n else 1;
      ShareIsPositive(limit, n);
      for i := 0 to n
        invariant claimed == AllJobs(shares)
        invariant OrgsOf(shares) == organizations[..i]
        invariant OldestShares(old(rows), share, shares)
        invariant rows == MarkClaimed(old(rows), Elements(claimed))
      {
        var mine := ClaimForOrg(share, organizations[i]);
        ShareAdded(old(rows), share, shares, organizations[i], mine, rows);
        shares := Then(shares, organizations[i], mine);
        claimed := claimed + mine;
        PrefixGrows(organizations, i);
      }
      assert organizations[..n] == organizations;
      assert FairShares(old(rows), limit, shares);
    }

    /** Marks the job done or failed; an id without a row is ignored. */
    method Complete(id: JobId, ok: bool)
      modifies this
      ensures rows == Completed(old(rows), {id}, _ => ok)
      ensures id in old(rows) ==> rows == old(rows)[id := old(rows)[id].(status := if ok then Done else Failed)]
    {
      if id !in rows {
        return;
      }
      rows := rows[id := rows[id].(status := if ok then Done else Failed)];
    }

    /** The worker's entry point: all tenants fairly, or one of them. */
    method Claim(limit: nat, scope: Option<OrgId>) returns (claimed: seq<JobId>)
      modifies this
      ensures ClaimPass(old(rows), limit, scope, claimed, rows)
    {
      match scope {
        case None => claimed := ClaimFair(limit);
        case Some(org) => claimed := ClaimForOrg(limit, org);
      }
    }

    /** Every batch the worker drains, until a batch comes back empty. `ok` says which jobs the
        reconstruction engine processes without raising. A batch size of zero drains nothing. */
    method Drain(limit: nat, scope: Option<OrgId>, ok: JobId -> bool) returns (total: nat)
      modifies this
      ensures rows == if limit == 0 then old(rows) else Drained(old(rows), scope, ok)
      ensures total == if limit == 0 then 0 else |PendingIn(old(rows), scope)|
    {
      hide *;
      total := 0;
      while true
        invariant total + |PendingIn(rows, scope)| == |PendingIn(old(rows), scope)|
        invariant Drained(rows, scope, ok) == Drained(old(rows), scope, ok)
        invariant limit == 0 ==> rows == old(rows) && total == 0
        decreases |PendingIn(rows, scope)|
      {
        ghost var before := rows;
        var claimed := Claim(limit, scope);
        ghost var after := rows;
        NothingCompleted(after, claimed, ok);
        for i := 0 to |claimed|
          invariant rows == Completed(after, Elements(claimed[..i]), ok)
        {
          Complete(claimed[i], ok(claimed[i]));
          CompletionsCompose(after, claimed, i, ok);
        }
        assert claimed[..|claimed|] == claimed;
        BatchProcessed(before, limit, scope, claimed, after, ok);
        if |claimed| == 0 {
          return;
        }
        total := total + |claimed|;
      }
    }
  }

  function Completed(rows: Jobs, ids: set<JobId>, ok: JobId -> bool): Jobs {
    map id | id in rows :: if id in ids then rows[id].(status := if ok(id) then Done else Failed) else rows[id]
  }

  lemma NothingClaimed(rows: Jobs, candidates: seq<JobId>)
    ensures MarkClaimed(rows, Elements(candidates[..0])) == rows
  {
  }

  /** A candidate of an undisturbed pass is still pending when its turn comes. */
  lemma NextClaim(rows: Jobs, org: OrgId, limit: nat, candidates: seq<JobId>, i: nat)
    requires OldestFirst(PendingOf(rows, org), limit, candidates) && i < |candidates|
    ensures var claimed := MarkClaimed(rows, Elements(candidates[..i]));
      && IsPending(claimed, candidates[i])
      && MarkClaimed(claimed, {candidates[i]}) == MarkClaimed(rows, Elements(candidates[..i] + [candidates[i]]))
    ensures candidates[..i] + [candidates[i]] == candidates[..i + 1]
  {
    assert candidates[i] in candidates && candidates[i] !in candidates[..i];
  }

  lemma ShareIsPositive(limit: nat, n: nat)
    requires 1 <= n <= limit
    ensures ShareSize(limit, n) >= 1 && n * ShareSize(limit, n) <= limit
  {
  }

  /** Claims of two disjoint sets of jobs add up to one. */
  lemma ClaimsCompose(rows: Jobs, first: set<JobId>, second: set<JobId>)
    requires first !! second
    ensures MarkClaimed(MarkClaimed(rows, first), second) == MarkClaimed(rows, first + second)
  {
  }

  /** A share handed to other organizations leaves this one's pending jobs alone. */
  lemma {:induction false} ClaimedElsewhere(rows: Jobs, share: nat, shares: Shares, org: OrgId)
    requires OldestShares(rows, share, shares) && org !in OrgsOf(shares)
    ensures forall id :: id in AllJobs(shares) ==> IsPending(rows, id) && rows[id].org != org
  {
    if shares.Then? {
      ClaimedElsewhere(rows, share, shares.earlier, org);
    }
  }

  lemma ShareAdded(rows: Jobs, share: nat, shares: Shares, org: OrgId, mine: seq<JobId>, post: Jobs)
    requires OldestShares(rows, share, shares) && org !in OrgsOf(shares)
    requires OrgPass(MarkClaimed(rows, Elements(AllJobs(shares))), share, org, mine, post)
    ensures OldestShares(rows, share, Then(shares, org, mine))
    ensures post == MarkClaimed(rows, Elements(AllJobs(Then(shares, org, mine))))
  {
    ClaimedElsewhere(rows, share, shares, org);
    assert PendingOf(MarkClaimed(rows, Elements(AllJobs(shares))), org) == PendingOf(rows, org);
    assert Elements(AllJobs(shares) + mine) == Elements(AllJobs(shares)) + Elements(mine);
    ClaimsCompose(rows, Elements(AllJobs(shares)), Elements(mine));
  }

  /** Every pending job in scope attempted once more and closed; every other row as it was. */
  function Drained(rows: Jobs, scope: Option<OrgId>, ok: JobId -> bool): Jobs {
    map id | id in rows ::
      if IsPending(rows, id) && InScope(rows[id], scope)
      then rows[id].(attempts := rows[id].attempts + 1, status := if ok(id) then Done else Failed)
      else rows[id]
  }

  lemma NothingCompleted(rows: Jobs, ids: seq<JobId>, ok: JobId -> bool)
    ensures Completed(rows, Elements(ids[..0]), ok) == rows
  {
  }

  lemma CompletionsCompose(rows: Jobs, ids: seq<JobId>, i: nat, ok: JobId -> bool)
    requires i < |ids|
    ensures Completed(Completed(rows, Elements(ids[..i]), ok), {ids[i]}, _ => ok(ids[i]))
      == Completed(rows, Elements(ids[..i + 1]), ok)
  {
    PrefixGrows(ids, i);
    assert Elements(ids[..i + 1]) == Elements(ids[..i]) + {ids[i]};
  }

  lemma {:induction false} DistinctAcrossShares(rows: Jobs, share: nat, shares: Shares)
    requires OldestShares(rows, share, shares)
    ensures Distinct(AllJobs(shares))
  {
    match shares
    case Nothing =>
    case Then(earlier, org, jobs) =>
      DistinctAcrossShares(rows, share, earlier);
      ClaimedElsewhere(rows, share, earlier, org);
      DistinctAppend(AllJobs(earlier), jobs);
  }

  lemma OneMore(n: nat, share: nat)
    ensures (n + 1) * share == n * share + share
  {
  }

  lemma ShareBounded(rows: Jobs, share: nat, org: OrgId, jobs: seq<JobId>)
    requires OldestFirst(PendingOf(rows, org), share, jobs)
    ensures |jobs| <= share
    ensures forall id :: id in jobs ==> IsPending(rows, id) && rows[id].org == org
  {
  }

  lemma {:induction false} SharesBounded(rows: Jobs, share: nat, shares: Shares)
    requires OldestShares(rows, share, shares)
    ensures |AllJobs(shares)| <= |OrgsOf(shares)| * share
    ensures forall id :: id in AllJobs(shares) ==> IsPending(rows, id) && rows[id].org in OrgsOf(shares)
  {
    match shares
    case Nothing =>
    case Then(earlier, org, jobs) =>
      SharesBounded(rows, share, earlier);
      ShareBounded(rows, share, org, jobs);
      hide OldestFirst, IsPending;
      OneMore(|OrgsOf(earlier)|, share);
  }

  /** Within one pass no job is claimed twice, only pending jobs are, and never more than `limit`. */
  lemma FairPassClaimsPending(pre: Jobs, limit: nat, claimed: seq<JobId>, post: Jobs)
    requires FairPass(pre, limit, claimed, post)
    ensures Distinct(claimed) && |claimed| <= limit
    ensures forall id :: id in claimed ==> IsPending(pre, id)
  {
    var shares :| FairShares(pre, limit, shares) && claimed == AllJobs(shares);
    if shares.Then? {
      ShareIsPositive(limit, |OrgsOf(shares)|);
      DistinctAcrossShares(pre, ShareSize(limit, |OrgsOf(shares)|), shares);
      SharesBounded(pre, ShareSize(limit, |OrgsOf(shares)|), shares);
    }
  }

  /** The organizations that got at least one job out of a pass. */
  function Served(rows: Jobs, claimed: seq<JobId>): set<OrgId> {
    set id | id in claimed && id in rows :: rows[id].org
  }

  function ServedTo(rows: Jobs, claimed: seq<JobId>, org: OrgId): set<JobId> {
    set id | id in claimed && id in rows && rows[id].org == org
  }

  lemma {:induction false} ShareOfOrg(rows: Jobs, share: nat, shares: Shares, org: OrgId) returns (jobs: seq<JobId>)
    requires OldestShares(rows, share, shares) && org in OrgsOf(shares)
    ensures OldestFirst(PendingOf(rows, org), share, jobs)
    ensures ServedTo(rows, AllJobs(shares), org) == Elements(jobs)
  {
    if shares.org == org {
      jobs := shares.jobs;
      ClaimedElsewhere(rows, share, shares.earlier, org);
    } else {
      jobs := ShareOfOrg(rows, share, shares.earlier, org);
    }
  }

  lemma {:induction false} ServedAreChosen(rows: Jobs, share: nat, shares: Shares)
    requires OldestShares(rows, share, shares) && share >= 1
    requires forall org :: org in OrgsOf(shares) ==> org in PendingOrgs(rows)
    ensures Served(rows, AllJobs(shares)) == Elements(OrgsOf(shares))
  {
    SharesBounded(rows, share, shares);
    forall org | org in OrgsOf(shares) ensures org in Served(rows, AllJobs(shares)) {
      var jobs := ShareOfOrg(rows, share, shares, org);
      FirstIsOldest(PendingOf(rows, org), share, jobs);
      assert jobs[0] in Elements(jobs);
    }
  }

  lemma ChosenShares(pre: Jobs, limit: nat, claimed: seq<JobId>, post: Jobs) returns (shares: Shares)
    requires FairPass(pre, limit, claimed, post)
    ensures claimed == AllJobs(shares)
    ensures OldestFirst(PendingOrgs(pre), limit, OrgsOf(shares))
    ensures Served(pre, claimed) == Elements(OrgsOf(shares))
    ensures |Served(pre, claimed)| == |OrgsOf(shares)|
    ensures shares.Then? ==> 1 <= |OrgsOf(shares)| <= limit && OldestShares(pre, ShareSize(limit, |OrgsOf(shares)|), shares)
  {
    shares :| FairShares(pre, limit, shares) && claimed == AllJobs(shares);
    DistinctCardinality(OrgsOf(shares));
    if shares.Then? {
      ShareIsPositive(limit, |OrgsOf(shares)|);
      ServedAreChosen(pre, ShareSize(limit, |OrgsOf(shares)|), shares);
    }
  }

  /** Who is served: as many organizations as fit, those whose oldest pending job is oldest. */
  lemma FairPassServes(pre: Jobs, limit: nat, claimed: seq<JobId>, post: Jobs)
    requires FairPass(pre, limit, claimed, post)
    ensures |Served(pre, claimed)| == Min(limit, |PendingOrgs(pre)|)
    ensures Served(pre, claimed) <= PendingOrgs(pre).Keys
    ensures forall a, b :: a in Served(pre, claimed) && b in PendingOrgs(pre) && b !in Served(pre, claimed) ==>
      PendingOrgs(pre)[a] <= PendingOrgs(pre)[b]
  {
    hide FairPass, PendingOrgs, Served;
    var shares := ChosenShares(pre, limit, claimed, post);
    forall a, b | a in Served(pre, claimed) && b in PendingOrgs(pre) && b !in Served(pre, claimed)
      ensures a in PendingOrgs(pre) && PendingOrgs(pre)[a] <= PendingOrgs(pre)[b]
    {
      assert a in OrgsOf(shares) && b !in OrgsOf(shares);
    }
  }

  /** With how much: each served organization gets its full equal share or everything it has pending,
      its oldest jobs first. The other organizations matter only through how many of them are served. */
  lemma FairPassShares(pre: Jobs, limit: nat, claimed: seq<JobId>, post: Jobs, org: OrgId)
    requires FairPass(pre, limit, claimed, post) && org in Served(pre, claimed)
    ensures |ServedTo(pre, claimed, org)| == Min(ShareSize(limit, |Served(pre, claimed)|), |PendingOf(pre, org)|)
    ensures ServedTo(pre, claimed, org) <= PendingOf(pre, org).Keys
    ensures forall id, other ::
      id in ServedTo(pre, claimed, org) && other in PendingOf(pre, org) && other !in ServedTo(pre, claimed, org) ==>
        PendingOf(pre, org)[id] <= PendingOf(pre, org)[other]
  {
    hide FairPass, PendingOrgs, Served, PendingOf, ServedTo, OldestFirst;
    var shares := ChosenShares(pre, limit, claimed, post);
    assert org in OrgsOf(shares);
    var jobs := ShareOfOrg(pre, ShareSize(limit, |OrgsOf(shares)|), shares, org);
    PickedSet(PendingOf(pre, org), ShareSize(limit, |OrgsOf(shares)|), jobs);
  }

  /** In numbers: a served organization that still has a pending job left has as many of its jobs claimed as
      equal shares of the limit allow, and one more for everybody would exceed it. */
  lemma SharesAreEqual(pre: Jobs, limit: nat, claimed: seq<JobId>, post: Jobs, org: OrgId, left: JobId)
    requires FairPass(pre, limit, claimed, post) && org in Served(pre, claimed)
    requires IsPending(pre, left) && pre[left].org == org && left !in claimed
    ensures |Served(pre, claimed)| * |ServedTo(pre, claimed, org)| <= limit
    ensures limit < |Served(pre, claimed)| * (|ServedTo(pre, claimed, org)| + 1)
  {
    assert left in PendingOf(pre, org) && left !in ServedTo(pre, claimed, org);
    hide FairPass, Served, PendingOf, ServedTo;
    FairPassShares(pre, limit, claimed, post, org);
    var served, all := ServedTo(pre, claimed, org), PendingOf(pre, org).Keys;
    SubsetCardinality(served, all);
    assert served != all && |served| < |all| == |PendingOf(pre, org)|;
    var shares := |Served(pre, claimed)|;
    assert shares > 0;
    Quotient(limit, shares);
  }

  lemma Quotient(limit: nat, n: nat)
    requires n > 0
    ensures n * ShareSize(limit, n) <= limit < n * (ShareSize(limit, n) + 1)
  {
  }

  /** Within an organization the claimed jobs are its oldest, and handed out in order of creation. */
  lemma OrgPassTakesOldest(pre: Jobs, limit: nat, org: OrgId, claimed: seq<JobId>, post: Jobs)
    requires OrgPass(pre, limit, org, claimed, post)
    ensures forall id :: id in claimed ==> IsPending(pre, id) && pre[id].org == org
    ensures forall i, j :: 0 <= i < j < |claimed| ==>
      claimed[i] in pre && claimed[j] in pre && pre[claimed[i]].createdAt <= pre[claimed[j]].createdAt
    ensures forall id, other ::
      id in claimed && IsPending(pre, other) && pre[other].org == org && other !in claimed ==>
        id in pre && pre[id].createdAt <= pre[other].createdAt
    ensures |claimed| <= limit
    ensures |claimed| < limit ==> forall other :: IsPending(pre, other) && pre[other].org == org ==> other in claimed
  {
    forall i | 0 <= i < |claimed| ensures IsPending(pre, claimed[i]) && pre[claimed[i]].org == org {
      assert claimed[i] in claimed;
    }
    if |claimed| < limit {
      DistinctCardinality(claimed);
      SubsetCardinality(Elements(claimed), PendingOf(pre, org).Keys);
      forall other | IsPending(pre, other) && pre[other].org == org ensures other in claimed {
        assert other in PendingOf(pre, org).Keys;
      }
    }
  }

  /** A tenant that fits in the pass is served no matter how much the others have queued. */
  lemma EveryTenantServed(pre: Jobs, limit: nat, claimed: seq<JobId>, post: Jobs, org: OrgId)
    requires FairPass(pre, limit, claimed, post)
    requires |PendingOrgs(pre)| <= limit && org in PendingOrgs(pre)
    ensures |ServedTo(pre, claimed, org)| == Min(ShareSize(limit, |PendingOrgs(pre)|), |PendingOf(pre, org)|)
    ensures |ServedTo(pre, claimed, org)| >= 1
  {
    hide FairPass, Served, ServedTo, PendingOf;
    FairPassServes(pre, limit, claimed, post);
    SubsetCardinality(Served(pre, claimed), PendingOrgs(pre).Keys);
    ShareIsPositive(limit, |PendingOrgs(pre)|);
    FairPassShares(pre, limit, claimed, post, org);
    assert |PendingOf(pre, org).Keys| > 0;
  }

  ghost predicate IsOldest(rows: Jobs, id: JobId) {
    IsPending(rows, id) && forall other :: IsPending(rows, other) ==> rows[id].createdAt <= rows[other].createdAt
  }

  /** A pass that may claim anything claims one of the globally oldest pending jobs. */
  lemma FairPassTakesOldest(pre: Jobs, limit: nat, claimed: seq<JobId>, post: Jobs)
    requires FairPass(pre, limit, claimed, post) && limit >= 1 && PendingJobs(pre) != {}
    ensures exists id :: id in claimed && IsOldest(pre, id)
  {
    hide FairPass, Served;
    var shares := ChosenShares(pre, limit, claimed, post);
    var some :| some in PendingJobs(pre);
    assert pre[some].org in PendingOrgs(pre);
    FirstIsOldest(PendingOrgs(pre), limit, OrgsOf(shares));
    ShareIsPositive(limit, |OrgsOf(shares)|);
    var org := OrgsOf(shares)[0];
    var jobs := ShareOfOrg(pre, ShareSize(limit, |OrgsOf(shares)|), shares, org);
    FirstIsOldest(PendingOf(pre, org), ShareSize(limit, |OrgsOf(shares)|), jobs);
    assert jobs[0] in Elements(jobs);
    assert jobs[0] in claimed && IsOldest(pre, jobs[0]);
  }

  lemma ClosedAreClaimed(pre: Jobs, ids: set<JobId>, scope: Option<OrgId>, ok: JobId -> bool)
    requires ids <= PendingIn(pre, scope)
    ensures var after := Completed(MarkClaimed(pre, ids), ids, ok);
      && Drained(after, scope, ok) == Drained(pre, scope, ok)
      && PendingIn(after, scope) == PendingIn(pre, scope) - ids
  {
  }

  lemma ClaimedLeavePending(pre: Jobs, claimed: seq<JobId>, scope: Option<OrgId>, ok: JobId -> bool)
    requires Distinct(claimed) && Elements(claimed) <= PendingIn(pre, scope)
    ensures var after := Completed(MarkClaimed(pre, Elements(claimed)), Elements(claimed), ok);
      && Drained(after, scope, ok) == Drained(pre, scope, ok)
      && |PendingIn(after, scope)| + |claimed| == |PendingIn(pre, scope)|
  {
    hide Distinct;
    DistinctCardinality(claimed);
    var after := Completed(MarkClaimed(pre, Elements(claimed)), Elements(claimed), ok);
    ClosedAreClaimed(pre, Elements(claimed), scope, ok);
    hide PendingIn;
    assert PendingIn(pre, scope) == PendingIn(after, scope) + Elements(claimed);
  }

  /** Any pass claims distinct pending jobs of its scope, and at least one if there are any and it may. */
  lemma PassClaimsPending(pre: Jobs, limit: nat, scope: Option<OrgId>, claimed: seq<JobId>, post: Jobs)
    requires ClaimPass(pre, limit, scope, claimed, post)
    ensures post == MarkClaimed(pre, Elements(claimed))
    ensures Distinct(claimed) && |claimed| <= limit && Elements(claimed) <= PendingIn(pre, scope)
    ensures limit >= 1 && PendingIn(pre, scope) != {} ==> claimed != []
  {
    match scope
    case None => FairPassClaims(pre, limit, claimed, post);
    case Some(org) =>
      assert PendingOf(pre, org).Keys == PendingIn(pre, scope);
      if limit >= 1 && PendingIn(pre, scope) != {} {
        FirstIsOldest(PendingOf(pre, org), limit, claimed);
      }
  }

  lemma FairPassMarks(pre: Jobs, limit: nat, claimed: seq<JobId>, post: Jobs)
    requires FairPass(pre, limit, claimed, post)
    ensures post == MarkClaimed(pre, Elements(claimed))
  {
  }

  lemma FairPassClaims(pre: Jobs, limit: nat, claimed: seq<JobId>, post: Jobs)
    requires FairPass(pre, limit, claimed, post)
    ensures post == MarkClaimed(pre, Elements(claimed))
    ensures Distinct(claimed) && |claimed| <= limit && Elements(claimed) <= PendingIn(pre, None)
    ensures limit >= 1 && PendingIn(pre, None) != {} ==> claimed != []
  {
    hide FairPass, MarkClaimed;
    FairPassMarks(pre, limit, claimed, post);
    FairPassClaimsPending(pre, limit, claimed, post);
    assert PendingJobs(pre) == PendingIn(pre, None);
    forall id | id in Elements(claimed) ensures id in PendingJobs(pre) {
      assert IsPending(pre, id);
    }
    if limit >= 1 && PendingIn(pre, None) != {} {
      FairPassTakesOldest(pre, limit, claimed, post);
    }
  }

  lemma NothingPending(rows: Jobs, scope: Option<OrgId>, ok: JobId -> bool)
    requires PendingIn(rows, scope) == {}
    ensures Drained(rows, scope, ok) == rows
  {
    forall id | id in rows ensures !(IsPending(rows, id) && InScope(rows[id], scope)) {
      assert id !in PendingIn(rows, scope);
    }
  }

  lemma BatchProcessed(pre: Jobs, limit: nat, scope: Option<OrgId>, claimed: seq<JobId>, post: Jobs, ok: JobId -> bool)
    requires ClaimPass(pre, limit, scope, claimed, post)
    ensures var after := Completed(post, Elements(claimed), ok);
      && Drained(after, scope, ok) == Drained(pre, scope, ok)
      && |PendingIn(after, scope)| + |claimed| == |PendingIn(pre, scope)|
      && (limit == 0 ==> claimed == [])
      && (claimed == [] ==> after == pre)
      && (claimed == [] && limit >= 1 ==> PendingIn(pre, scope) == {} && pre == Drained(pre, scope, ok))
  {
    hide ClaimPass, PendingIn, Drained, Distinct, MarkClaimed, Completed;
    PassClaimsPending(pre, limit, scope, claimed, post);
    ClaimedLeavePending(pre, claimed, scope, ok);
    NoneDone(pre, claimed, ok);
    if PendingIn(pre, scope) == {} {
      NothingPending(pre, scope, ok);
    }
  }

  lemma NoneDone(rows: Jobs, claimed: seq<JobId>, ok: JobId -> bool)
    ensures claimed == [] ==> Completed(MarkClaimed(rows, Elements(claimed)), Elements(claimed), ok) == rows
  {
  }
}
