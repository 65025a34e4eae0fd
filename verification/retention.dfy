/** Bounded-batch deletion, and the incident lifecycle job built on it. */
module Retention {
  import opened Collections

  type RowId = int

  function Matching<Row>(rows: map<RowId, Row>, condition: Row -> bool): set<RowId> {
    set id | id in rows && condition(rows[id])
  }

  function Unmatched<Row>(rows: map<RowId, Row>, condition: Row -> bool): map<RowId, Row> {
    map id | id in rows && !condition(rows[id]) :: rows[id]
  }

  class Table<Row> {
    var rows: map<RowId, Row>

    constructor ()
      ensures rows == map[]
    {
      rows := map[];
    }

    /** `SELECT id WHERE condition LIMIT batch`: no order is asked for, so any matching rows may come. */
    method SelectMatching(condition: Row -> bool, batch: nat) returns (ids: set<RowId>)
      ensures ids <= Matching(rows, condition) && |ids| == Min(batch, |Matching(rows, condition)|)
    {
      ids := {};
      var rest := Matching(rows, condition);
      while |ids| < batch && rest != {}
        invariant ids !! rest && ids + rest == Matching(rows, condition)
        invariant |ids| <= batch && |ids| + |rest| == |Matching(rows, condition)|
        decreases |rest|
      {
        var id := Pick(rest);
        ids := ids + {id};
        rest := rest - {id};
      }
    }

    /** Removes exactly the matching rows, whichever rows each batch happens to contain, and counts
        them. A batch size of zero removes nothing. */
    method BatchedDelete(condition: Row -> bool, batch: nat) returns (total: nat)
      modifies this
      ensures rows == if batch == 0 then old(rows) else Unmatched(old(rows), condition)
      ensures total == if batch == 0 then 0 else |Matching(old(rows), condition)|
    {
      total := 0;
      while true
        invariant total + |Matching(rows, condition)| == |Matching(old(rows), condition)|
        invariant Unmatched(rows, condition) == Unmatched(old(rows), condition)
        invariant batch == 0 ==> rows == old(rows) && total == 0
        decreases |Matching(rows, condition)|
      {
        ghost var before := rows;
        var ids := SelectMatching(condition, batch);
        if ids == {} {
          NothingMatches(rows, condition);
          break;
        }
        rows := rows - ids;
        BatchRemoved(before, ids, condition);
        total := total + |ids|;
        if |ids| < batch {
          NothingMatches(rows, condition);
          break;
        }
      }
    }
  }

  lemma BatchRemoved<Row>(rows: map<RowId, Row>, ids: set<RowId>, condition: Row -> bool)
    requires ids <= Matching(rows, condition)
    ensures Matching(rows - ids, condition) == Matching(rows, condition) - ids
    ensures |Matching(rows - ids, condition)| == |Matching(rows, condition)| - |ids|
    ensures Unmatched(rows - ids, condition) == Unmatched(rows, condition)
  {
    MatchingLess(rows, ids, condition);
    hide Matching, Unmatched;
    assert Matching(rows, condition) == Matching(rows - ids, condition) + ids;
  }

  lemma MatchingLess<Row>(rows: map<RowId, Row>, ids: set<RowId>, condition: Row -> bool)
    requires ids <= Matching(rows, condition)
    ensures Matching(rows - ids, condition) == Matching(rows, condition) - ids
    ensures Unmatched(rows - ids, condition) == Unmatched(rows, condition)
  {
  }

  lemma NothingMatches<Row>(rows: map<RowId, Row>, condition: Row -> bool)
    ensures Matching(rows, condition) == {} ==> Unmatched(rows, condition) == rows
  {
    if Matching(rows, condition) == {} {
      forall id | id in rows ensures !condition(rows[id]) {
        assert id !in Matching(rows, condition);
      }
    }
  }

  // ---- incidents ----

  type OrgId = int

  datatype Lifecycle = Open | Updated | Resolved | Stale | Superseded

  /** The decoded incident, as far as the lifecycle job looks at it. */
  datatype Incident = Incident(lifecycle: Lifecycle, lastSeen: int, updatedAt: int)

  /** `status` and `lastSeen` are the indexed copies of the sealed incident's fields; rows written
      before those columns existed hold none. */
  datatype IncidentRow = IncidentRow(org: OrgId, status: Option<Lifecycle>, lastSeen: Option<int>, sealed: Incident)

  predicate ColumnsAgree(row: IncidentRow) {
    row.status == Some(row.sealed.lifecycle) && row.lastSeen == Some(row.sealed.lastSeen)
  }

  function RowFor(org: OrgId, incident: Incident): IncidentRow {
    IncidentRow(org, Some(incident.lifecycle), Some(incident.lastSeen), incident)
  }

  predicate GoesStale(row: IncidentRow, org: OrgId, cutoff: int) {
    row.org == org && !row.sealed.lifecycle.Stale? && row.sealed.lastSeen < cutoff
  }

  function RetireRow(row: IncidentRow, now: int): IncidentRow {
    RowFor(row.org, row.sealed.(lifecycle := Stale, updatedAt := now))
  }

  function Retired(rows: map<RowId, IncidentRow>, ids: set<RowId>, now: int): map<RowId, IncidentRow> {
    map id | id in rows :: if id in ids then RetireRow(rows[id], now) else rows[id]
  }

  function StaleOf(rows: map<RowId, IncidentRow>, orgs: set<OrgId>, cutoff: int): set<RowId> {
    set id | id in rows && rows[id].org in orgs && GoesStale(rows[id], rows[id].org, cutoff)
  }

  function Organizations(rows: map<RowId, IncidentRow>): set<OrgId> {
    set id | id in rows :: rows[id].org
  }

  /** The filter of the archive query, over the indexed columns. */
  function Archivable(cutoff: int): IncidentRow -> bool {
    (row: IncidentRow) =>
      && row.status in {Some(Resolved), Some(Stale)}
      && row.lastSeen.Some?
      && row.lastSeen.value < cutoff
  }

  /** What a retirement pass over one organization makes of a row. */
  predicate IsRetired(before: IncidentRow, after: IncidentRow, org: OrgId, now: int, staleAfter: int) {
    if before.org == org && before.sealed.lifecycle != Stale && before.sealed.lastSeen < now - staleAfter
    then after == IncidentRow(
      org, Some(Stale), Some(before.sealed.lastSeen), before.sealed.(lifecycle := Stale, updatedAt := now))
    else after == before
  }

  lemma RetiredRows(rows: map<RowId, IncidentRow>, org: OrgId, now: int, staleAfter: int)
    ensures var after := Retired(rows, StaleOf(rows, {org}, now - staleAfter), now);
      && after.Keys == rows.Keys
      && forall id :: id in rows ==> IsRetired(rows[id], after[id], org, now, staleAfter)
  {
  }

  class IncidentStore {
    const incidents: Table<IncidentRow>

    constructor ()
      ensures incidents.rows == map[] && fresh(incidents)
    {
      incidents := new Table<IncidentRow>();
    }

    method Upsert(org: OrgId, id: RowId, incident: Incident)
      modifies incidents
      ensures incidents.rows == old(incidents.rows)[id := RowFor(org, incident)]
    {
      incidents.rows := incidents.rows[id := RowFor(org, incident)];
    }

    method RetireStale(org: OrgId, now: int, staleAfter: int) returns (retired: nat)
      modifies incidents
      ensures var stale := StaleOf(old(incidents.rows), {org}, now - staleAfter);
        incidents.rows == Retired(old(incidents.rows), stale, now) && retired == |stale|
      ensures incidents.rows.Keys == old(incidents.rows).Keys
      ensures forall id :: id in incidents.rows ==> IsRetired(old(incidents.rows)[id], incidents.rows[id], org, now, staleAfter)
    {
      hide Retired, StaleOf;
      RetiredRows(incidents.rows, org, now, staleAfter);
      var cutoff := now - staleAfter;
      ghost var rows := incidents.rows;
      ghost var stale := StaleOf(rows, {org}, cutoff);
      var todo := set id | id in incidents.rows && incidents.rows[id].org == org;
      ghost var done: set<RowId> := {};
      retired := 0;
      RetiringNothing(rows, now);
      assert stale * done == {};
      while todo != {}
        invariant todo !! done
        invariant forall id :: id in todo || id in done <==> id in rows && rows[id].org == org
        invariant incidents.rows == Retired(rows, stale * done, now)
        invariant retired == |stale * done|
        decreases |todo|
      {
        var id := Pick(todo);
        RetiringOne(rows, stale * done, id, now);
        StaleMember(rows, org, cutoff, id);
        var incident := incidents.rows[id].sealed;
        todo := todo - {id};
        if incident.lifecycle.Stale? || incident.lastSeen >= cutoff {
          assert stale * (done + {id}) == stale * done;
          done := done + {id};
          continue;
        }
        assert stale * (done + {id}) == stale * done + {id};
        done := done + {id};
        Upsert(org, id, incident.(lifecycle := Stale, updatedAt := now));
        retired := retired + 1;
      }
      StaleAreRows(rows, org, cutoff);
      forall id | id in stale ensures id in done {
        assert id !in todo;
      }
      assert stale * done == stale;
    }

    method RetireAllStale(now: int, staleAfter: int) returns (retired: nat)
      modifies incidents
      ensures var stale := StaleOf(old(incidents.rows), Organizations(old(incidents.rows)), now - staleAfter);
        incidents.rows == Retired(old(incidents.rows), stale, now) && retired == |stale|
    {
      hide Retired, StaleOf;
      var cutoff := now - staleAfter;
      ghost var rows := incidents.rows;
      RetiringNothing(rows, now);
      StaleAreRows(rows, 0, cutoff);
      var todo := Organizations(incidents.rows);
      ghost var done: set<OrgId> := {};
      retired := 0;
      while todo != {}
        invariant todo !! done && todo + done == Organizations(rows)
        invariant incidents.rows == Retired(rows, StaleOf(rows, done, cutoff), now)
        invariant retired == |StaleOf(rows, done, cutoff)|
        decreases |todo|
      {
        var org := Pick(todo);
        todo := todo - {org};
        OrganizationsAreIndependent(rows, done, org, cutoff, now);
        var count := RetireStale(org, now, staleAfter);
        done := done + {org};
        retired := retired + count;
      }
      assert done == Organizations(rows);
    }

    method Archive(cutoff: int, batch: nat) returns (archived: nat)
      modifies incidents
      ensures incidents.rows == if batch == 0 then old(incidents.rows) else Unmatched(old(incidents.rows), Archivable(cutoff))
      ensures archived == if batch == 0 then 0 else |Matching(old(incidents.rows), Archivable(cutoff))|
    {
      archived := incidents.BatchedDelete(Archivable(cutoff), batch);
    }

    /** One run of the scheduled lifecycle job. */
    method LifecyclePass(now: int, staleAfter: int, archiveAfter: int, batch: nat) returns (retired: nat, archived: nat)
      modifies incidents
      ensures incidents.rows ==
        if batch == 0 then AfterRetiring(old(incidents.rows), now, staleAfter)
        else AfterLifecyclePass(old(incidents.rows), now, staleAfter, archiveAfter)
      ensures retired == |StaleOf(old(incidents.rows), Organizations(old(incidents.rows)), now - staleAfter)|
      ensures archived == |old(incidents.rows)| - |incidents.rows|
    {
      hide *;
      retired := RetireAllStale(now, staleAfter);
      ghost var before := old(incidents.rows);
      MatchedOrKept(incidents.rows, Archivable(now - archiveAfter));
      RetiringKeepsRows(before, StaleOf(before, Organizations(before), now - staleAfter), now);
      archived := Archive(now - archiveAfter, batch);
      PassIs(before, now, staleAfter, archiveAfter);
    }
  }

  lemma MatchedOrKept<Row>(rows: map<RowId, Row>, condition: Row -> bool)
    ensures |Matching(rows, condition)| + |Unmatched(rows, condition)| == |rows|
  {
    assert rows.Keys == Matching(rows, condition) + Unmatched(rows, condition).Keys;
    assert Matching(rows, condition) !! Unmatched(rows, condition).Keys;
  }

  lemma RetiringKeepsRows(rows: map<RowId, IncidentRow>, ids: set<RowId>, now: int)
    ensures |Retired(rows, ids, now)| == |rows|
  {
    assert Retired(rows, ids, now).Keys == rows.Keys;
  }

  lemma PassIs(rows: map<RowId, IncidentRow>, now: int, staleAfter: int, archiveAfter: int)
    ensures AfterRetiring(rows, now, staleAfter) == Retired(rows, StaleOf(rows, Organizations(rows), now - staleAfter), now)
    ensures AfterLifecyclePass(rows, now, staleAfter, archiveAfter) ==
      Unmatched(Retired(rows, StaleOf(rows, Organizations(rows), now - staleAfter), now), Archivable(now - archiveAfter))
  {
  }

  lemma RetiringNothing(rows: map<RowId, IncidentRow>, now: int)
    ensures Retired(rows, {}, now) == rows
  {
  }

  lemma RetiringOne(rows: map<RowId, IncidentRow>, ids: set<RowId>, id: RowId, now: int)
    requires id in rows && id !in ids
    ensures id in Retired(rows, ids, now) && Retired(rows, ids, now)[id] == rows[id]
    ensures Retired(rows, ids, now)[id := RetireRow(rows[id], now)] == Retired(rows, ids + {id}, now)
  {
  }

  lemma StaleMember(rows: map<RowId, IncidentRow>, org: OrgId, cutoff: int, id: RowId)
    requires id in rows && rows[id].org == org
    ensures id in StaleOf(rows, {org}, cutoff) <==> GoesStale(rows[id], org, cutoff)
  {
  }

  lemma StaleAreRows(rows: map<RowId, IncidentRow>, org: OrgId, cutoff: int)
    ensures StaleOf(rows, {}, cutoff) == {}
    ensures forall id :: id in StaleOf(rows, {org}, cutoff) ==> id in rows && rows[id].org == org
  {
  }

  lemma OrganizationsAreIndependent(rows: map<RowId, IncidentRow>, done: set<OrgId>, org: OrgId, cutoff: int, now: int)
    requires org !in done
    ensures var first := StaleOf(rows, done, cutoff);
      var middle := Retired(rows, first, now);
      var second := StaleOf(middle, {org}, cutoff);
      && first !! second
      && StaleOf(rows, done + {org}, cutoff) == first + second
      && |StaleOf(rows, done + {org}, cutoff)| == |first| + |second|
      && Retired(middle, second, now) == Retired(rows, first + second, now)
  {
    var first := StaleOf(rows, done, cutoff);
    var middle := Retired(rows, first, now);
    var second := StaleOf(middle, {org}, cutoff);
    assert StaleOf(rows, done + {org}, cutoff) == first + second;
    forall id | id in first ensures id !in second {
      assert middle[id].org == rows[id].org;
    }
    assert Retired(middle, second, now) == Retired(rows, first + second, now);
  }

  function AfterRetiring(rows: map<RowId, IncidentRow>, now: int, staleAfter: int): map<RowId, IncidentRow> {
    Retired(rows, StaleOf(rows, Organizations(rows), now - staleAfter), now)
  }

  function AfterLifecyclePass(
    rows: map<RowId, IncidentRow>, now: int, staleAfter: int, archiveAfter: int): map<RowId, IncidentRow>
  {
    Unmatched(AfterRetiring(rows, now, staleAfter), Archivable(now - archiveAfter))
  }

  /** What survives one lifecycle pass, in terms of the incidents themselves: everything but those past the
      archive window that were resolved or stale before the pass or are retired by it. */
  lemma PassKeeps(rows: map<RowId, IncidentRow>, now: int, staleAfter: int, archiveAfter: int, id: RowId)
    requires id in rows && ColumnsAgree(rows[id])
    ensures id in AfterLifecyclePass(rows, now, staleAfter, archiveAfter) <==>
      var incident := rows[id].sealed;
      || incident.lastSeen >= now - archiveAfter
      || (incident.lifecycle !in {Resolved, Stale} && incident.lastSeen >= now - staleAfter)
  {
    assert rows[id].org in Organizations(rows);
  }

  /** With an archive window at least as long as the stale window, the status filter of the archive
      query excludes nothing: the pass keeps an incident, whatever its lifecycle, exactly when it was
      active within the archive window. */
  lemma ArchiveIgnoresLifecycle(rows: map<RowId, IncidentRow>, now: int, staleAfter: int, archiveAfter: int)
    requires forall id :: id in rows ==> ColumnsAgree(rows[id])
    requires archiveAfter >= staleAfter
    ensures AfterLifecyclePass(rows, now, staleAfter, archiveAfter).Keys
      == set id | id in rows && rows[id].sealed.lastSeen >= now - archiveAfter
  {
    forall id | id in rows
      ensures id in AfterLifecyclePass(rows, now, staleAfter, archiveAfter) <==> rows[id].sealed.lastSeen >= now - archiveAfter
    {
      PassKeeps(rows, now, staleAfter, archiveAfter, id);
    }
  }

  /** The ids of the incidents that were active within the archive window. */
  function ActiveSince(rows: map<RowId, IncidentRow>, cutoff: int): set<RowId> {
    set id | id in rows && rows[id].sealed.lastSeen >= cutoff
  }

  /** An open incident, last active at the given time. */
  function OpenIncident(lastSeen: int): IncidentRow {
    RowFor(0, Incident(Open, lastSeen, lastSeen))
  }

  /** And with no shorter one: on every store a pass keeps exactly the recently active incidents if and only if
      the archive window is at least the stale window. */
  lemma FilterExcludesNothingIff(now: int, staleAfter: int, archiveAfter: int)
    ensures (forall rows :: (forall id :: id in rows ==> ColumnsAgree(rows[id])) ==>
               AfterLifecyclePass(rows, now, staleAfter, archiveAfter).Keys == ActiveSince(rows, now - archiveAfter))
      <==> archiveAfter >= staleAfter
  {
    if archiveAfter >= staleAfter {
      forall rows: map<RowId, IncidentRow> | forall id :: id in rows ==> ColumnsAgree(rows[id])
        ensures AfterLifecyclePass(rows, now, staleAfter, archiveAfter).Keys == ActiveSince(rows, now - archiveAfter)
      {
        ArchiveIgnoresLifecycle(rows, now, staleAfter, archiveAfter);
      }
    } else {
      var rows: map<RowId, IncidentRow> := map[1 := OpenIncident(now - staleAfter)];
      PassKeeps(rows, now, staleAfter, archiveAfter, 1);
      assert 1 in AfterLifecyclePass(rows, now, staleAfter, archiveAfter) && 1 !in ActiveSince(rows, now - archiveAfter);
    }
  }

  /** One pass retires an open incident and deletes it, without it ever having been stale or resolved before. */
  lemma OpenIncidentDeleted(now: int, staleAfter: int, archiveAfter: int, lastSeen: int)
    requires archiveAfter >= staleAfter && lastSeen < now - archiveAfter
    ensures var rows := map[1 := OpenIncident(lastSeen)];
      && AfterRetiring(rows, now, staleAfter) == map[1 := RetireRow(OpenIncident(lastSeen), now)]
      && AfterLifecyclePass(rows, now, staleAfter, archiveAfter) == map[]
  {
    var rows := map[1 := OpenIncident(lastSeen)];
    assert 1 in StaleOf(rows, Organizations(rows), now - staleAfter);
    PassKeeps(rows, now, staleAfter, archiveAfter, 1);
    assert AfterLifecyclePass(rows, now, staleAfter, archiveAfter).Keys == {};
  }

  /** A second pass at the same moment finds nothing to do, and every pass keeps the columns in step. */
  lemma PassIsIdempotent(rows: map<RowId, IncidentRow>, now: int, staleAfter: int, archiveAfter: int)
    requires forall id :: id in rows ==> ColumnsAgree(rows[id])
    ensures var once := AfterLifecyclePass(rows, now, staleAfter, archiveAfter);
      && (forall id :: id in once ==> ColumnsAgree(once[id]))
      && AfterLifecyclePass(once, now, staleAfter, archiveAfter) == once
  {
    var once := AfterLifecyclePass(rows, now, staleAfter, archiveAfter);
    forall id | id in once ensures !GoesStale(once[id], once[id].org, now - staleAfter) {
      assert rows[id].org in Organizations(rows);
    }
    assert StaleOf(once, Organizations(once), now - staleAfter) == {};
  }
}
