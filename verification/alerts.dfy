/** Alert episodes: the atomic insert-or-merge, and the indexed columns it keeps beside sealed data. */
module Alerts {
  import opened Collections

  type OrgId = int
  type AlertId = int

  datatype Alert = Alert(
    id: AlertId,
    trace: string,
    decoy: int,
    placement: Option<int>,
    correlation: Option<int>,
    key: string,
    bucket: Option<int>,
    count: int,
    firstSeen: int,
    lastSeen: int,
    severity: int,
    confidence: int,
    evidence: seq<string>,
    events: seq<int>)

  datatype AlertRow = AlertRow(
    org: OrgId,
    trace: string,
    decoy: int,
    placement: Option<int>,
    correlation: Option<int>,
    key: string,
    bucket: Option<int>,
    count: int,
    firstSeen: Option<int>,
    lastSeen: Option<int>,
    createdAt: int,
    data: string)

  type Rows = map<AlertId, AlertRow>

  /** Serializing, sealing and their inverse, and which serialized alerts are within the size limit. */
  datatype Codec = Codec(seal: Alert -> string, unseal: string -> Alert, fits: Alert -> bool)

  ghost predicate Faithful(codec: Codec) {
    forall alert :: codec.unseal(codec.seal(alert)) == alert
  }

  type Merge = (Alert, Alert) -> Alert

  datatype Outcome = Stored(alert: Alert) | TooLarge | MissingRow | Duplicate

  function RowFor(codec: Codec, org: OrgId, alert: Alert, now: int): AlertRow {
    AlertRow(org, alert.trace, alert.decoy, alert.placement, alert.correlation, alert.key, alert.bucket,
             alert.count, Some(alert.firstSeen), Some(alert.lastSeen), now, codec.seal(alert))
  }

  /** The unique constraint on (organization, deduplication key, bucket); NULL buckets never collide. */
  predicate SameEpisode(row: AlertRow, org: OrgId, alert: Alert) {
    row.org == org && row.key == alert.key && row.bucket == alert.bucket && row.bucket.Some?
  }

  predicate InsertFails(rows: Rows, org: OrgId, alert: Alert) {
    alert.id in rows || exists id :: id in rows && SameEpisode(rows[id], org, alert)
  }

  /** Another row is of the alert's episode. */
  predicate EpisodeTaken(rows: Rows, org: OrgId, alert: Alert) {
    exists id :: id in rows && id != alert.id && SameEpisode(rows[id], org, alert)
  }

  ghost predicate OneRowPerEpisode(rows: Rows) {
    forall a, b :: a in rows && b in rows && a != b ==>
      !(rows[a].org == rows[b].org && rows[a].key == rows[b].key && rows[a].bucket == rows[b].bucket && rows[a].bucket.Some?)
  }

  function MergedRow(row: AlertRow, merged: Alert): AlertRow {
    row.(count := merged.count, firstSeen := Some(merged.firstSeen), lastSeen := Some(merged.lastSeen))
  }

  function Existing(codec: Codec, rows: Rows, id: AlertId): Alert
    requires id in rows
  {
    codec.unseal(rows[id].data)
  }

  /** The session's rows after an upsert. A merge assigns the columns before it checks the size of the
      merged alert, so a merge that fails that check leaves assigned columns beside the old data. */
  function Upserted(codec: Codec, merge: Merge, rows: Rows, org: OrgId, candidate: Alert, now: int): Rows {
    if !codec.fits(candidate) then rows
    else if !InsertFails(rows, org, candidate) then rows[candidate.id := RowFor(codec, org, candidate, now)]
    else if candidate.id !in rows then rows
    else
      var merged := merge(Existing(codec, rows, candidate.id), candidate);
      var row := MergedRow(rows[candidate.id], merged);
      rows[candidate.id := if codec.fits(merged) then row.(data := codec.seal(merged)) else row]
  }

  function UpsertOutcome(codec: Codec, merge: Merge, rows: Rows, org: OrgId, candidate: Alert): Outcome {
    if !codec.fits(candidate) then TooLarge
    else if !InsertFails(rows, org, candidate) then Stored(candidate)
    else if candidate.id !in rows then MissingRow
    else
      var merged := merge(Existing(codec, rows, candidate.id), candidate);
      if codec.fits(merged) then Stored(merged) else TooLarge
  }

  class AlertStore {
    const codec: Codec
    const merge: Merge
    var rows: Rows

    constructor (codec: Codec, merge: Merge)
      ensures this.codec == codec && this.merge == merge && rows == map[]
    {
      this.codec := codec;
      this.merge := merge;
      rows := map[];
    }

    method UpsertAtomic(org: OrgId, candidate: Alert, now: int) returns (outcome: Outcome)
      modifies this
      ensures rows == Upserted(codec, merge, old(rows), org, candidate, now)
      ensures outcome == UpsertOutcome(codec, merge, old(rows), org, candidate)
      ensures forall id :: id in rows && id in old(rows) ==>
        rows[id].createdAt == old(rows)[id].createdAt && rows[id].org == old(rows)[id].org
      ensures forall id :: id in rows && id !in old(rows) ==>
        id == candidate.id && rows[id].createdAt == now && rows[id].org == org
    {
      if !codec.fits(candidate) {
        return TooLarge;
      }
      if !InsertFails(rows, org, candidate) {
        rows := rows[candidate.id := RowFor(codec, org, candidate, now)];
        return Stored(candidate);
      }
      if candidate.id !in rows {
        return MissingRow;
      }
      var row := rows[candidate.id];
      var merged := merge(codec.unseal(row.data), candidate);
      rows := rows[candidate.id := rows[candidate.id].(count := merged.count)];
      rows := rows[candidate.id := rows[candidate.id].(firstSeen := Some(merged.firstSeen))];
      rows := rows[candidate.id := rows[candidate.id].(lastSeen := Some(merged.lastSeen))];
      if !codec.fits(merged) {
        return TooLarge;
      }
      rows := rows[candidate.id := rows[candidate.id].(data := codec.seal(merged))];
      return Stored(merged);
    }

    /** Replaces the row of this alert, keeping its creation time; fails on the unique constraint when another
        row is of the same episode. */
    method AddAlert(org: OrgId, alert: Alert, now: int) returns (outcome: Outcome)
      modifies this
      ensures rows == Added(codec, old(rows), org, alert, now)
      ensures outcome ==
        if !codec.fits(alert) then TooLarge else if EpisodeTaken(old(rows), org, alert) then Duplicate else Stored(alert)
      ensures outcome.Stored? ==>
        && alert.id in rows && rows[alert.id].org == org && rows[alert.id].data == codec.seal(alert)
        && rows[alert.id].createdAt == if alert.id in old(rows) then old(rows)[alert.id].createdAt else now
    {
      if !codec.fits(alert) {
        return TooLarge;
      }
      if EpisodeTaken(rows, org, alert) {
        return Duplicate;
      }
      var createdAt := if alert.id in rows then rows[alert.id].createdAt else now;
      rows := rows[alert.id := RowFor(codec, org, alert, createdAt)];
      return Stored(alert);
    }

    /** An HTTP request around an upsert: the session commits, or rolls back when an error escapes. */
    method Request(org: OrgId, candidate: Alert, now: int) returns (outcome: Outcome)
      modifies this
      ensures rows == Requested(codec, merge, old(rows), org, candidate, now)
      ensures outcome == UpsertOutcome(codec, merge, old(rows), org, candidate)
    {
      var saved := rows;
      outcome := UpsertAtomic(org, candidate, now);
      if !outcome.Stored? {
        rows := saved;
      }
    }

    /** The most recent matching alerts, oldest first. */
    method RelatedAlerts(query: Query, limit: nat) returns (alerts: seq<Alert>)
      ensures exists ids ::
        && MostRecent(rows, query, limit, ids)
        && |alerts| == |ids|
        && forall i :: 0 <= i < |ids| ==> ids[i] in rows && alerts[|ids| - 1 - i] == Existing(codec, rows, ids[i])
    {
      var ids := SelectOldest(Recency(rows, query), limit);
      alerts := [];
      for i := 0 to |ids|
        invariant |alerts| == i
        invariant forall k :: 0 <= k < i ==> ids[k] in rows && alerts[i - 1 - k] == Existing(codec, rows, ids[k])
      {
        assert ids[i] in ids;
        alerts := [Existing(codec, rows, ids[i])] + alerts;
      }
      RecencyIsMostRecent(rows, query, limit, ids);
    }
  }

  function Added(codec: Codec, rows: Rows, org: OrgId, alert: Alert, now: int): Rows {
    if !codec.fits(alert) || EpisodeTaken(rows, org, alert) then rows
    else rows[alert.id := RowFor(codec, org, alert, if alert.id in rows then rows[alert.id].createdAt else now)]
  }

  function Requested(codec: Codec, merge: Merge, rows: Rows, org: OrgId, candidate: Alert, now: int): Rows {
    if UpsertOutcome(codec, merge, rows, org, candidate).Stored?
    then Upserted(codec, merge, rows, org, candidate, now)
    else rows
  }

  /** Without a bucket an alert has no episode to share; with one, it shares it with the rows of its organization,
      key and bucket. */
  lemma InsertFailsIff(rows: Rows, org: OrgId, alert: Alert)
    ensures alert.bucket.None? ==> (InsertFails(rows, org, alert) <==> alert.id in rows)
    ensures alert.bucket.Some? ==>
      (InsertFails(rows, org, alert) <==>
        alert.id in rows || exists id :: id in rows && rows[id].org == org && rows[id].key == alert.key && rows[id].bucket == alert.bucket)
  {
    if exists id :: id in rows && rows[id].org == org && rows[id].key == alert.key && rows[id].bucket == alert.bucket {
      var id :| id in rows && rows[id].org == org && rows[id].key == alert.key && rows[id].bucket == alert.bucket;
      assert alert.bucket.Some? ==> SameEpisode(rows[id], org, alert);
    }
  }

  // ---- agreement of columns and sealed data ----

  predicate TimesAgree(codec: Codec, row: AlertRow) {
    var alert := codec.unseal(row.data);
    row.count == alert.count && row.firstSeen == Some(alert.firstSeen) && row.lastSeen == Some(alert.lastSeen)
  }

  predicate AllTimesAgree(codec: Codec, rows: Rows) {
    forall id :: id in rows ==> TimesAgree(codec, rows[id])
  }

  predicate SameTimes(a: Alert, b: Alert) {
    a.count == b.count && a.firstSeen == b.firstSeen && a.lastSeen == b.lastSeen
  }

  /** Whatever the merge function, an upsert keeps the columns in step with the sealed data if and only
      if it does not run into the size limit while merging (or the merge leaves the columns as they were). */
  lemma AgreementIffMergeFits(codec: Codec, merge: Merge, rows: Rows, org: OrgId, candidate: Alert, now: int)
    requires Faithful(codec) && AllTimesAgree(codec, rows)
    ensures AllTimesAgree(codec, Upserted(codec, merge, rows, org, candidate, now)) <==>
      (candidate.id in rows && codec.fits(candidate) ==>
        var merged := merge(Existing(codec, rows, candidate.id), candidate);
        codec.fits(merged) || SameTimes(merged, Existing(codec, rows, candidate.id)))
  {
    var after := Upserted(codec, merge, rows, org, candidate, now);
    if candidate.id in rows && codec.fits(candidate) {
      var merged := merge(Existing(codec, rows, candidate.id), candidate);
      assert TimesAgree(codec, after[candidate.id]) <==>
        codec.fits(merged) || SameTimes(merged, Existing(codec, rows, candidate.id));
    }
  }

  datatype Call = Upsert(org: OrgId, alert: Alert, now: int) | Add(addOrg: OrgId, added: Alert, addedAt: int)

  function Serve(codec: Codec, merge: Merge, rows: Rows, calls: seq<Call>): Rows {
    if calls == [] then rows
    else
      var before := Serve(codec, merge, rows, calls[..|calls| - 1]);
      match calls[|calls| - 1]
      case Upsert(org, alert, now) => Requested(codec, merge, before, org, alert, now)
      case Add(org, alert, now) => Added(codec, before, org, alert, now)
  }

  /** Because a failed request rolls back, the columns agree after every run of requests. */
  lemma {:induction false} RequestsKeepAgreement(codec: Codec, merge: Merge, rows: Rows, calls: seq<Call>)
    requires Faithful(codec) && AllTimesAgree(codec, rows)
    ensures AllTimesAgree(codec, Serve(codec, merge, rows, calls))
  {
    if calls != [] {
      RequestsKeepAgreement(codec, merge, rows, calls[..|calls| - 1]);
      match calls[|calls| - 1] {
        case Upsert(org, alert, now) =>
          var before := Serve(codec, merge, rows, calls[..|calls| - 1]);
          AgreementIffMergeFits(codec, merge, before, org, alert, now);
        case Add(_, _, _) =>
      }
    }
  }

  /** And no run ever leaves two rows of one episode. */
  lemma {:induction false} RequestsKeepEpisodes(codec: Codec, merge: Merge, rows: Rows, calls: seq<Call>)
    requires OneRowPerEpisode(rows)
    ensures OneRowPerEpisode(Serve(codec, merge, rows, calls))
  {
    if calls != [] {
      RequestsKeepEpisodes(codec, merge, rows, calls[..|calls| - 1]);
      var before := Serve(codec, merge, rows, calls[..|calls| - 1]);
      match calls[|calls| - 1] {
        case Upsert(org, alert, now) => UpsertKeepsEpisodes(codec, merge, before, org, alert, now);
        case Add(_, _, _) =>
      }
    }
  }

  lemma UpsertKeepsEpisodes(codec: Codec, merge: Merge, rows: Rows, org: OrgId, candidate: Alert, now: int)
    requires OneRowPerEpisode(rows)
    ensures OneRowPerEpisode(Upserted(codec, merge, rows, org, candidate, now))
  {
  }

  // ---- the related-alert query ----

  datatype Query = Query(
    org: OrgId, trace: string, decoy: int, placement: Option<int>, correlation: Option<int>, start: int, end: int)

  /** The filter on indexed columns; a NULL column never equals a wanted value, and NULL times pass. */
  predicate RowMatches(row: AlertRow, q: Query) {
    && row.org == q.org
    && (|| row.trace == q.trace
        || row.decoy == q.decoy
        || (q.placement.Some? && row.placement == q.placement)
        || (q.correlation.Some? && row.correlation == q.correlation))
    && (row.lastSeen.None? || row.lastSeen.value >= q.start)
    && (row.firstSeen.None? || row.firstSeen.value <= q.end)
  }

  /** The same question asked of the alert itself. */
  predicate IsRelated(alert: Alert, q: Query) {
    && (|| alert.trace == q.trace
        || alert.decoy == q.decoy
        || (q.placement.Some? && alert.placement == q.placement)
        || (q.correlation.Some? && alert.correlation == q.correlation))
    && alert.lastSeen >= q.start
    && alert.firstSeen <= q.end
  }

  function Recency(rows: Rows, q: Query): map<AlertId, int> {
    map id | id in rows && RowMatches(rows[id], q) :: -rows[id].createdAt
  }

  /** The matching rows created last, the latest first. */
  ghost predicate MostRecent(rows: Rows, q: Query, limit: nat, ids: seq<AlertId>) {
    && Distinct(ids) && |ids| <= limit
    && (forall i :: 0 <= i < |ids| ==> ids[i] in rows && RowMatches(rows[ids[i]], q))
    && (forall i, j :: 0 <= i < j < |ids| ==> rows[ids[i]].createdAt >= rows[ids[j]].createdAt)
    && (forall id, i :: id in rows && RowMatches(rows[id], q) && id !in ids && 0 <= i < |ids| ==>
          rows[id].createdAt <= rows[ids[i]].createdAt)
    && (|ids| < limit ==> forall id :: id in rows && RowMatches(rows[id], q) ==> id in ids)
  }

  lemma RecencyIsMostRecent(rows: Rows, q: Query, limit: nat, ids: seq<AlertId>)
    requires OldestFirst(Recency(rows, q), limit, ids)
    ensures MostRecent(rows, q, limit, ids)
  {
    hide RowMatches;
    var times := Recency(rows, q);
    assert forall id :: id in times <==> id in rows && RowMatches(rows[id], q);
    forall i | 0 <= i < |ids| ensures ids[i] in times {
      assert ids[i] in ids;
    }
    forall i, j | 0 <= i < j < |ids| ensures rows[ids[i]].createdAt >= rows[ids[j]].createdAt {
      assert times[ids[i]] <= times[ids[j]];
    }
    forall id, i | id in rows && RowMatches(rows[id], q) && id !in ids && 0 <= i < |ids|
      ensures rows[id].createdAt <= rows[ids[i]].createdAt
    {
      assert times[ids[i]] <= times[id];
    }
    if |ids| < limit {
      DistinctCardinality(ids);
      SubsetCardinality(Elements(ids), times.Keys);
      forall id | id in rows && RowMatches(rows[id], q) ensures id in ids {
        assert id in times.Keys;
      }
    }
  }

  predicate KeysAgree(codec: Codec, row: AlertRow) {
    var alert := codec.unseal(row.data);
    && row.trace == alert.trace && row.decoy == alert.decoy
    && row.placement == alert.placement && row.correlation == alert.correlation
  }

  /** The indexed filter selects the rows whose decoded alert is related. */
  lemma FilterMatchesAlerts(codec: Codec, rows: Rows, q: Query)
    requires forall id :: id in rows ==> TimesAgree(codec, rows[id]) && KeysAgree(codec, rows[id])
    ensures forall id :: id in Recency(rows, q) <==>
      id in rows && rows[id].org == q.org && IsRelated(Existing(codec, rows, id), q)
  {
    forall id | id in rows
      ensures RowMatches(rows[id], q) <==> rows[id].org == q.org && IsRelated(Existing(codec, rows, id), q)
    {
      assert TimesAgree(codec, rows[id]) && KeysAgree(codec, rows[id]);
    }
  }

  ghost predicate KeepsKeys(merge: Merge) {
    forall a, b :: var merged := merge(a, b);
      && merged.trace == a.trace && merged.decoy == a.decoy
      && merged.placement == a.placement && merged.correlation == a.correlation
  }

  lemma {:induction false} RequestsKeepKeys(codec: Codec, merge: Merge, rows: Rows, calls: seq<Call>)
    requires Faithful(codec) && KeepsKeys(merge)
    requires forall id :: id in rows ==> KeysAgree(codec, rows[id])
    ensures forall id :: id in Serve(codec, merge, rows, calls) ==> KeysAgree(codec, Serve(codec, merge, rows, calls)[id])
  {
    if calls != [] {
      RequestsKeepKeys(codec, merge, rows, calls[..|calls| - 1]);
    }
  }

  // ---- episode identity ----

  /** Alert ids are hashes of the organization, the deduplication key and the bucket. */
  type Identity = (OrgId, string, int) -> AlertId

  ghost predicate Injective(identity: Identity) {
    forall o, k, b, o', k', b' :: identity(o, k, b) == identity(o', k', b') ==> o == o' && k == k' && b == b'
  }

  predicate Derived(identity: Identity, id: AlertId, org: OrgId, key: string, bucket: Option<int>) {
    bucket.Some? && id == identity(org, key, bucket.value)
  }

  predicate AllDerived(identity: Identity, rows: Rows) {
    forall id :: id in rows ==> Derived(identity, id, rows[id].org, rows[id].key, rows[id].bucket)
  }

  /** A merge writes into another organization's row exactly when that organization's row has the
      candidate's id: the row is looked up by id alone. */
  lemma CrossesIffForeignId(codec: Codec, merge: Merge, rows: Rows, org: OrgId, candidate: Alert, now: int)
    requires UpsertOutcome(codec, merge, rows, org, candidate).Stored?
    ensures var after := Upserted(codec, merge, rows, org, candidate, now);
      && candidate.id in after
      && (after[candidate.id].org != org <==> candidate.id in rows && rows[candidate.id].org != org)
  {
  }

  /** For instance: an alert of one organization is stored, and another organization's alert with its id is then
      counted in the first one's row. */
  lemma ForeignIdCrosses(codec: Codec, merge: Merge, org: OrgId, other: OrgId, alert: Alert, now: int)
    requires org != other && codec.fits(alert) && codec.fits(merge(codec.unseal(codec.seal(alert)), alert))
    ensures var rows := Upserted(codec, merge, map[], org, alert, now);
      && UpsertOutcome(codec, merge, rows, other, alert).Stored?
      && Upserted(codec, merge, rows, other, alert, now).Keys == {alert.id}
      && Upserted(codec, merge, rows, other, alert, now)[alert.id].org == org
  {
    assert Upserted(codec, merge, map[], org, alert, now) == map[alert.id := RowFor(codec, org, alert, now)];
  }

  lemma SameSource(
    identity: Identity, id: AlertId, org: OrgId, key: string, bucket: Option<int>, org': OrgId, key': string, bucket': Option<int>)
    requires Injective(identity) && Derived(identity, id, org, key, bucket) && Derived(identity, id, org', key', bucket')
    ensures org == org' && key == key' && bucket == bucket'
  {
    var b: int, b': int := bucket.value, bucket'.value;
    assert identity(org, key, b) == identity(org', key', b');
  }

  /** With derived ids the insert fails exactly for a repeat of the same episode, the row found is that
      episode's own, and no upsert ever crosses organizations or misses its row. */
  lemma DerivedIdsStayInOrganization(
    codec: Codec, merge: Merge, identity: Identity, rows: Rows, org: OrgId, candidate: Alert, now: int)
    requires Injective(identity) && AllDerived(identity, rows)
    requires Derived(identity, candidate.id, org, candidate.key, candidate.bucket)
    ensures InsertFails(rows, org, candidate) <==> candidate.id in rows
    ensures candidate.id in rows ==> SameEpisode(rows[candidate.id], org, candidate)
    ensures !UpsertOutcome(codec, merge, rows, org, candidate).MissingRow?
    ensures AllDerived(identity, Upserted(codec, merge, rows, org, candidate, now))
    ensures forall id :: id in rows && rows[id].org != org ==>
      id in Upserted(codec, merge, rows, org, candidate, now) && Upserted(codec, merge, rows, org, candidate, now)[id] == rows[id]
  {
    if candidate.id in rows {
      var row := rows[candidate.id];
      SameSource(identity, candidate.id, row.org, row.key, row.bucket, org, candidate.key, candidate.bucket);
    }
    if exists id :: id in rows && SameEpisode(rows[id], org, candidate) {
      var id :| id in rows && SameEpisode(rows[id], org, candidate);
      assert id == identity(rows[id].org, rows[id].key, rows[id].bucket.value);
      assert id == candidate.id;
    }
  }
}
