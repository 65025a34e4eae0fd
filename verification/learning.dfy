/** Model versions (one active at a time) and revisioned analyst feedback. */
module Learning {
  import opened Collections

  type VersionId = int
  type OrgId = int

  datatype ModelStatus = Candidate | UnderReview | Approved | Active | Rejected | Archived | RolledBack

  datatype Version = Version(
    org: OrgId, status: ModelStatus, activatedAt: Option<int>, approvedBy: Option<int>, approvedAt: Option<int>,
    rollbackReason: string)

  type Versions = map<VersionId, Version>

  function ActiveVersions(versions: Versions, org: OrgId): set<VersionId> {
    set id | id in versions && versions[id].org == org && versions[id].status.Active?
  }

  /** A status change as requested: the approver and the reason may be missing. */
  datatype Request = Request(status: ModelStatus, approver: Option<int>, reason: Option<string>)

  function WithStatus(version: Version, request: Request, now: int): Version {
    match request.status
    case Active => version.(status := Active, activatedAt := Some(now))
    case Approved => version.(status := Approved, approvedBy := request.approver, approvedAt := Some(now))
    case RolledBack =>
      version.(status := RolledBack,
               rollbackReason := Truncate(if request.reason.Some? then request.reason.value else "", 256))
    case other => version.(status := other)
  }

  /** Activation archives the version the unordered query for the active one happened to return. */
  function Demoted(versions: Versions, previous: Option<VersionId>, id: VersionId, status: ModelStatus): Versions {
    if status.Active? && previous.Some? && previous.value != id && previous.value in versions
    then versions[previous.value := versions[previous.value].(status := Archived)]
    else versions
  }

  ghost predicate StatusSet(pre: Versions, org: OrgId, id: VersionId, request: Request, now: int, post: Versions) {
    && id in pre
    && exists previous: Option<VersionId> ::
         && (previous.Some? <==> ActiveVersions(pre, org) != {})
         && (previous.Some? ==> previous.value in ActiveVersions(pre, org))
         && post == Demoted(pre, previous, id, request.status)[id := WithStatus(pre[id], request, now)]
  }

  // ---- feedback ----

  datatype Feedback = Feedback(actor: Option<int>, kind: string, target: int, revision: nat, feedbackType: string)

  datatype Recorded = Recorded(feedback: Feedback) | IntegrityError

  const KIND_LENGTH := 24

  predicate SameThread(f: Feedback, actor: Option<int>, kind: string, target: int) {
    f.actor == actor && f.kind == kind && f.target == target
  }

  /** The matching row with the highest revision; the query asks for the kind as submitted. */
  function Prior(rows: seq<Feedback>, actor: Option<int>, kind: string, target: int): Option<Feedback> {
    if rows == [] then None
    else
      var earlier := Prior(rows[..|rows| - 1], actor, kind, target);
      var last := rows[|rows| - 1];
      if SameThread(last, actor, kind, target) && (earlier.None? || last.revision >= earlier.value.revision) then Some(last) else earlier
  }

  /** The row a submission would add: its kind is cut to the column's length. */
  function NewRow(rows: seq<Feedback>, actor: Option<int>, kind: string, target: int, feedbackType: string): Feedback {
    var prior := Prior(rows, actor, kind, target);
    Feedback(actor, Truncate(kind, KIND_LENGTH), target, if prior.Some? then prior.value.revision + 1 else 1, feedbackType)
  }

  predicate IsRepeat(rows: seq<Feedback>, actor: Option<int>, kind: string, target: int, feedbackType: string) {
    var prior := Prior(rows, actor, kind, target);
    prior.Some? && prior.value.feedbackType == feedbackType
  }

  /** The unique constraint; rows without an actor never collide. */
  predicate Collides(rows: seq<Feedback>, row: Feedback) {
    row.actor.Some? && exists i :: 0 <= i < |rows| && SameThread(rows[i], row.actor, row.kind, row.target) && rows[i].revision == row.revision
  }

  function AfterFeedback(rows: seq<Feedback>, actor: Option<int>, kind: string, target: int, feedbackType: string): seq<Feedback> {
    var row := NewRow(rows, actor, kind, target, feedbackType);
    if IsRepeat(rows, actor, kind, target, feedbackType) || Collides(rows, row) then rows else rows + [row]
  }

  function FeedbackResult(rows: seq<Feedback>, actor: Option<int>, kind: string, target: int, feedbackType: string): Recorded {
    var row := NewRow(rows, actor, kind, target, feedbackType);
    if IsRepeat(rows, actor, kind, target, feedbackType) then Recorded.Recorded(Prior(rows, actor, kind, target).value)
    else if Collides(rows, row) then IntegrityError
    else Recorded.Recorded(row)
  }

  /** The store as one organization's requests see it. */
  class LearningRepository {
    const org: OrgId
    var versions: Versions
    var feedback: seq<Feedback>

    constructor (org: OrgId)
      ensures this.org == org && versions == map[] && feedback == []
    {
      this.org := org;
      versions := map[];
      feedback := [];
    }

    method CreateCandidate(id: VersionId)
      requires id !in versions
      modifies this`versions
      ensures versions == old(versions)[id := Version(org, Candidate, None, None, None, "")]
    {
      versions := versions[id := Version(org, Candidate, None, None, None, "")];
    }

    method ActiveVersion() returns (active: Option<VersionId>)
      ensures active.Some? <==> ActiveVersions(versions, org) != {}
      ensures active.Some? ==> active.value in ActiveVersions(versions, org)
    {
      var all := ActiveVersions(versions, org);
      if all == {} {
        return None;
      }
      var id := Pick(all);
      return Some(id);
    }

    method SetStatus(id: VersionId, request: Request, now: int)
      requires id in versions
      modifies this`versions
      ensures StatusSet(old(versions), org, id, request, now, versions)
      ensures versions.Keys == old(versions).Keys && versions[id].status == request.status && versions[id].org == old(versions)[id].org
      ensures versions[id].activatedAt == if request.status.Active? then Some(now) else old(versions)[id].activatedAt
      ensures (versions[id].approvedBy, versions[id].approvedAt) ==
        if request.status.Approved? then (request.approver, Some(now)) else (old(versions)[id].approvedBy, old(versions)[id].approvedAt)
      ensures versions[id].rollbackReason ==
        if !request.status.RolledBack? then old(versions)[id].rollbackReason
        else if request.reason.Some? then Truncate(request.reason.value, 256) else ""
      ensures forall v :: v in versions && v != id ==>
        || versions[v] == old(versions)[v]
        || (request.status.Active? && old(versions)[v].org == org && old(versions)[v].status.Active?
            && versions[v] == old(versions)[v].(status := Archived))
    {
      var active := ActiveVersion();
      if request.status.Active? {
        if active.Some? && active.value != id {
          versions := versions[active.value := versions[active.value].(status := Archived)];
        }
        versions := versions[id := versions[id].(activatedAt := Some(now))];
      }
      if request.status.Approved? {
        versions := versions[id := versions[id].(approvedBy := request.approver, approvedAt := Some(now))];
      }
      if request.status.RolledBack? {
        var reason := if request.reason.Some? then request.reason.value else "";
        versions := versions[id := versions[id].(rollbackReason := Truncate(reason, 256))];
      }
      versions := versions[id := versions[id].(status := request.status)];
      assert versions == Demoted(old(versions), active, id, request.status)[id := WithStatus(old(versions)[id], request, now)];
    }

    method RecordFeedback(actor: Option<int>, kind: string, target: int, feedbackType: string) returns (result: Recorded)
      modifies this`feedback
      ensures feedback == AfterFeedback(old(feedback), actor, kind, target, feedbackType)
      ensures result == FeedbackResult(old(feedback), actor, kind, target, feedbackType)
    {
      var prior := Prior(feedback, actor, kind, target);
      if prior.Some? && prior.value.feedbackType == feedbackType {
        return Recorded.Recorded(prior.value);
      }
      var revision := if prior.Some? then prior.value.revision + 1 else 1;
      var record := Feedback(actor, Truncate(kind, KIND_LENGTH), target, revision, feedbackType);
      if Collides(feedback, record) {
        return IntegrityError;
      }
      feedback := feedback + [record];
      return Recorded.Recorded(record);
    }
  }

  // ---- one active version ----

  /** What a status change does to the set of active versions, whatever that set was before. */
  lemma ActiveAfterStatus(pre: Versions, org: OrgId, id: VersionId, request: Request, now: int, post: Versions)
    requires StatusSet(pre, org, id, request, now, post) && pre[id].org == org
    ensures !request.status.Active? ==> ActiveVersions(post, org) == ActiveVersions(pre, org) - {id}
    ensures request.status.Active? && ActiveVersions(pre, org) == {} ==> ActiveVersions(post, org) == {id}
    ensures request.status.Active? && ActiveVersions(pre, org) != {} ==>
      exists previous :: previous in ActiveVersions(pre, org) &&
        ActiveVersions(post, org) == ActiveVersions(pre, org) - {previous} + {id}
  {
    var previous: Option<VersionId> :|
      && (previous.Some? <==> ActiveVersions(pre, org) != {})
      && (previous.Some? ==> previous.value in ActiveVersions(pre, org))
      && post == Demoted(pre, previous, id, request.status)[id := WithStatus(pre[id], request, now)];
    if request.status.Active? && previous.Some? {
      assert ActiveVersions(post, org) == ActiveVersions(pre, org) - {previous.value} + {id};
    }
  }

  /** One at a time: with at most one active version before, activation leaves exactly the activated one. */
  lemma SingleActiveKept(pre: Versions, org: OrgId, id: VersionId, request: Request, now: int, post: Versions)
    requires StatusSet(pre, org, id, request, now, post) && pre[id].org == org
    requires |ActiveVersions(pre, org)| <= 1
    ensures |ActiveVersions(post, org)| <= 1
    ensures request.status.Active? ==> ActiveVersions(post, org) == {id}
  {
    ActiveAfterStatus(pre, org, id, request, now, post);
    SubsetCardinality(ActiveVersions(pre, org) - {id}, ActiveVersions(pre, org));
    if request.status.Active? && ActiveVersions(pre, org) != {} {
      var previous :| previous in ActiveVersions(pre, org) && ActiveVersions(post, org) == ActiveVersions(pre, org) - {previous} + {id};
      SubsetCardinality({previous}, ActiveVersions(pre, org));
    }
  }

  /** Only one is demoted: once two activations have slipped past each other and left several versions active
      (see `VersionRaces`), activating another one does not bring their number down. */
  lemma SeveralActiveStaySeveral(pre: Versions, org: OrgId, id: VersionId, request: Request, now: int, post: Versions)
    requires request.status.Active? && StatusSet(pre, org, id, request, now, post) && pre[id].org == org
    requires id !in ActiveVersions(pre, org) && ActiveVersions(pre, org) != {}
    ensures |ActiveVersions(post, org)| == |ActiveVersions(pre, org)|
  {
    ActiveAfterStatus(pre, org, id, request, now, post);
  }

  datatype Change = Create(id: VersionId, created: OrgId) | Set(id: VersionId, request: Request, now: int)

  ghost predicate Next(pre: Versions, change: Change, post: Versions) {
    match change
    case Create(id, org) => id !in pre && post == pre[id := Version(org, Candidate, None, None, None, "")]
    case Set(id, request, now) => id in pre && StatusSet(pre, pre[id].org, id, request, now, post)
  }

  /** As long as status changes follow one after another. */
  lemma {:induction false} AlwaysSingleActive(states: seq<Versions>, changes: seq<Change>, org: OrgId)
    requires |states| == |changes| + 1 && states[0] == map[]
    requires forall i :: 0 <= i < |changes| ==> Next(states[i], changes[i], states[i + 1])
    ensures |ActiveVersions(states[|changes|], org)| <= 1
  {
    if changes == [] {
      assert ActiveVersions(states[0], org) == {};
    } else {
      var n := |changes| - 1;
      AlwaysSingleActive(states[..n + 1], changes[..n], org);
      var pre, post := states[n], states[n + 1];
      assert states[..n + 1][n] == pre && Next(pre, changes[n], post);
      match changes[n] {
        case Create(id, created) => assert ActiveVersions(post, org) == ActiveVersions(pre, org);
        case Set(id, request, now) =>
          if pre[id].org == org {
            SingleActiveKept(pre, org, id, request, now, post);
          } else {
            OtherOrganizationUntouched(pre, pre[id].org, id, request, now, post, org);
          }
      }
    }
  }

  lemma OtherOrganizationUntouched(
    pre: Versions, org: OrgId, id: VersionId, request: Request, now: int, post: Versions, other: OrgId)
    requires StatusSet(pre, org, id, request, now, post) && pre[id].org == org && other != org
    ensures ActiveVersions(post, other) == ActiveVersions(pre, other)
  {
  }
}
