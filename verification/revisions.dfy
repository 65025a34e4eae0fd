/** Narrative revision numbers: one past the latest surviving revision, pruned to the newest few. */
module Revisions {
  import opened Collections

  type IncidentId = (int, int) // organization and incident

  type Numbers = set<int>

  function Interval(lo: int, hi: int): (numbers: Numbers)
    ensures forall n :: n in numbers <==> lo <= n <= hi
    ensures |numbers| == if lo <= hi then hi - lo + 1 else 0
    decreases hi - lo
  {
    if hi < lo then {} else Interval(lo, hi - 1) + {hi}
  }

  /** The revision number of the latest record, or zero when the incident has none. */
  function Latest(numbers: Numbers): (latest: int)
    ensures numbers != {} ==> latest in numbers && forall n :: n in numbers ==> n <= latest
    ensures numbers == {} ==> latest == 0
  {
    if numbers == {} then 0 else
      var negated := set n | n in numbers :: -n;
      assert forall n :: n in numbers ==> -n in negated;
      var some: int :| some in numbers;
      assert -some in negated;
      -Least(negated)
  }

  /** The numbers with fewer than `keep` newer ones. */
  function Newest(numbers: Numbers, keep: nat): Numbers {
    set n | n in numbers && |Newer(numbers, n)| < keep
  }

  function Newer(numbers: Numbers, n: int): Numbers {
    set m | m in numbers && m > n
  }

  /** Pruning with a non-positive `keep` does nothing. */
  function Pruned(numbers: Numbers, keep: int): Numbers {
    if keep <= 0 then numbers else Newest(numbers, keep)
  }

  /** Every row of the table, as incident and number. */
  function AllRows(revisions: map<IncidentId, Numbers>): set<(IncidentId, int)> {
    set incident, n | incident in revisions && n in revisions[incident] :: (incident, n)
  }

  function NumbersOf(revisions: map<IncidentId, Numbers>, incident: IncidentId): Numbers {
    if incident in revisions then revisions[incident] else {}
  }

  /** The table of narrative revisions, by incident; a unique constraint keeps one row per number. */
  class NarrativeRevisions {
    var revisions: map<IncidentId, Numbers>

    constructor ()
      ensures revisions == map[]
    {
      revisions := map[];
    }

    method NextRevisionNumber(incident: IncidentId) returns (number: int)
      ensures number == Latest(NumbersOf(revisions, incident)) + 1
    {
      var numbers := NumbersOf(revisions, incident);
      number := if numbers == {} then 1 else Latest(numbers) + 1;
    }

    /** Raises when the narrative is too large, and on the unique constraint when the number is taken. */
    method AddRevision(incident: IncidentId, number: int, fits: bool) returns (added: bool)
      modifies this
      ensures added <==> fits && number !in NumbersOf(old(revisions), incident)
      ensures revisions ==
        if added then old(revisions)[incident := NumbersOf(old(revisions), incident) + {number}] else old(revisions)
    {
      added := fits && number !in NumbersOf(revisions, incident);
      if added {
        revisions := revisions[incident := NumbersOf(revisions, incident) + {number}];
      }
    }

    method Prune(incident: IncidentId, keep: int) returns (pruned: nat)
      modifies this
      ensures NumbersOf(revisions, incident) == Pruned(NumbersOf(old(revisions), incident), keep)
      ensures forall other :: other != incident ==> NumbersOf(revisions, other) == NumbersOf(old(revisions), other)
      ensures revisions.Keys == old(revisions).Keys
      ensures pruned == |NumbersOf(old(revisions), incident)| - |NumbersOf(revisions, incident)|
    {
      pruned := 0;
      if keep <= 0 || incident !in revisions {
        assert Newest({}, if keep <= 0 then 0 else keep) == {};
        return;
      }
      hide Newest, OldestFirst, Distinct;
      ghost var numbers := revisions[incident];
      var records := SelectOldest(Descending(revisions[incident]), |revisions[incident]|);
      AllSelected(numbers, records);
      var kept := if keep <= |records| then keep else |records|;
      pruned := DeleteAfter(incident, records, kept);
      FirstAreNewest(numbers, records, kept, keep);
    }

    /** Deletes the records from the given position on. */
    method DeleteAfter(incident: IncidentId, records: seq<int>, kept: nat) returns (deleted: nat)
      requires incident in revisions && revisions[incident] == Elements(records)
      requires Distinct(records) && kept <= |records|
      modifies this
      ensures revisions == old(revisions)[incident := Elements(records[..kept])]
      ensures deleted == |records| - kept
    {
      deleted := 0;
      RecordsKept(records, kept);
      hide Distinct, Elements;
      for i := kept to |records|
        invariant revisions == old(revisions)[incident := Elements(records) - Elements(records[kept..i])]
        invariant deleted == i - kept
      {
        NextRecord(records, kept, i);
        revisions := revisions[incident := revisions[incident] - {records[i]}];
        deleted := deleted + 1;
      }
    }

    method PruneAll(keep: int) returns (pruned: nat)
      modifies this
      ensures revisions.Keys == old(revisions).Keys
      ensures forall incident :: NumbersOf(revisions, incident) == Pruned(NumbersOf(old(revisions), incident), keep)
      ensures pruned == |AllRows(old(revisions))| - |AllRows(revisions)|
    {
      pruned := 0;
      if keep <= 0 {
        return;
      }
      var todo := revisions.Keys;
      assert Newest({}, keep) == {};
      while todo != {}
        invariant todo <= revisions.Keys == old(revisions).Keys
        invariant forall incident :: incident in todo ==> NumbersOf(revisions, incident) == NumbersOf(old(revisions), incident)
        invariant forall incident :: incident !in todo ==>
          NumbersOf(revisions, incident) == Pruned(NumbersOf(old(revisions), incident), keep)
        invariant pruned + |AllRows(revisions)| == |AllRows(old(revisions))|
        decreases |todo|
      {
        hide Newest, AllRows;
        var incident := Pick(todo);
        todo := todo - {incident};
        ghost var before := revisions;
        var count := Prune(incident, keep);
        RowsPruned(before, revisions, incident);
        pruned := pruned + count;
      }
    }

    /** One narrative generation, with the retention that follows it. An error in it rolls the request back. */
    method Generate(incident: IncidentId, keep: int, fits: bool) returns (number: Option<int>)
      modifies this
      ensures !fits ==> number == None && revisions == old(revisions)
      ensures fits ==>
        && number == Some(Latest(NumbersOf(old(revisions), incident)) + 1)
        && NumbersOf(revisions, incident) == Pruned(NumbersOf(old(revisions), incident) + {number.value}, keep)
        && forall other :: other != incident ==> NumbersOf(revisions, other) == NumbersOf(old(revisions), other)
    {
      var next := NextRevisionNumber(incident);
      var added := AddRevision(incident, next, fits);
      if !added {
        return None;
      }
      var pruned := Prune(incident, keep);
      return Some(next);
    }
  }

  function RowsOf(incident: IncidentId, numbers: Numbers): set<(IncidentId, int)> {
    set n | n in numbers :: (incident, n)
  }

  lemma {:induction false} OneRowPerNumber(incident: IncidentId, numbers: Numbers)
    ensures |RowsOf(incident, numbers)| == |numbers|
    decreases |numbers|
  {
    if numbers != {} {
      var n := Latest(numbers);
      OneRowPerNumber(incident, numbers - {n});
      assert RowsOf(incident, numbers) == RowsOf(incident, numbers - {n}) + {(incident, n)};
    }
  }

  /** Dropping numbers of one incident drops as many rows of the table. */
  lemma RowsPruned(before: map<IncidentId, Numbers>, after: map<IncidentId, Numbers>, incident: IncidentId)
    requires incident in before && after.Keys == before.Keys && NumbersOf(after, incident) <= NumbersOf(before, incident)
    requires forall other :: other != incident ==> NumbersOf(after, other) == NumbersOf(before, other)
    ensures |AllRows(before)| - |AllRows(after)| == |NumbersOf(before, incident)| - |NumbersOf(after, incident)|
  {
    var dropped := NumbersOf(before, incident) - NumbersOf(after, incident);
    forall row | row in AllRows(before) ensures row in AllRows(after) + RowsOf(incident, dropped) {
      assert row.1 in NumbersOf(before, row.0);
      assert row.0 != incident ==> row.1 in NumbersOf(after, row.0);
    }
    forall row | row in AllRows(after) ensures row in AllRows(before) {
      assert row.1 in NumbersOf(after, row.0);
    }
    assert AllRows(before) == AllRows(after) + RowsOf(incident, dropped);
    assert AllRows(after) !! RowsOf(incident, dropped);
    OneRowPerNumber(incident, dropped);
    assert NumbersOf(before, incident) == NumbersOf(after, incident) + dropped;
  }

  function Descending(numbers: Numbers): map<int, int> {
    map n | n in numbers :: -n
  }

  lemma AllSelected(numbers: Numbers, records: seq<int>)
    requires OldestFirst(Descending(numbers), |numbers|, records)
    ensures Elements(records) == numbers && |records| == |numbers| && Distinct(records)
  {
    assert Descending(numbers).Keys == numbers;
    DistinctCardinality(records);
    SubsetCardinality(Elements(records), numbers);
  }

  lemma NextRecord(records: seq<int>, kept: nat, i: nat)
    requires kept <= i < |records|
    ensures Elements(records) - Elements(records[kept..i]) - {records[i]} == Elements(records) - Elements(records[kept..i + 1])
  {
    assert records[kept..i + 1] == records[kept..i] + [records[i]];
  }

  lemma RecordsKept(records: seq<int>, kept: nat)
    requires Distinct(records) && kept <= |records|
    ensures Elements(records) - Elements(records[kept..|records|]) == Elements(records[..kept])
    ensures Elements(records) - Elements(records[kept..kept]) == Elements(records)
  {
    assert records == records[..kept] + records[kept..|records|];
    forall x | x in records[..kept] ensures x !in records[kept..|records|] {
      var i :| 0 <= i < kept && records[i] == x;
    }
  }

  /** In the descending query, exactly the records before one are newer than it. */
  lemma NewerThanRecord(numbers: Numbers, records: seq<int>, i: nat)
    requires OldestFirst(Descending(numbers), |numbers|, records) && i < |records|
    ensures |Newer(numbers, records[i])| == i
  {
    AllSelected(numbers, records);
    forall k | 0 <= k < |records| ensures records[k] > records[i] <==> k < i {
      assert records[k] in records && records[i] in records;
    }
    DistinctCardinality(records[..i]);
    forall n ensures n in Newer(numbers, records[i]) <==> n in records[..i] {
      if n in numbers {
        assert n in Elements(records);
        var k :| 0 <= k < |records| && records[k] == n;
      }
    }
    assert Newer(numbers, records[i]) == Elements(records[..i]);
  }

  /** The first `keep` records of the descending query are the newest ones. */
  lemma FirstAreNewest(numbers: Numbers, records: seq<int>, kept: nat, keep: nat)
    requires OldestFirst(Descending(numbers), |numbers|, records)
    requires kept == Min(keep, |records|)
    ensures Elements(records[..kept]) == Newest(numbers, keep)
    ensures |Newest(numbers, keep)| == kept
  {
    AllSelected(numbers, records);
    forall i | 0 <= i < |records| ensures |Newer(numbers, records[i])| == i {
      NewerThanRecord(numbers, records, i);
    }
    assert Distinct(records[..kept]);
    DistinctCardinality(records[..kept]);
    hide OldestFirst, Newer;
    forall n ensures n in Elements(records[..kept]) <==> n in Newest(numbers, keep) {
      if n in numbers {
        assert n in Elements(records);
        var i :| 0 <= i < |records| && records[i] == n;
        assert i < kept <==> n in records[..kept];
      }
    }
  }
}
