/** What an episode's row holds after any run of upserts: every accepted event, counted once. */
module AlertAccounting {
  import opened Collections
  import opened Alerts

  function LastOf<T>(s: seq<T>, n: nat): seq<T> {
    if |s| <= n then s else s[|s| - n..]
  }

  /** The pipeline's merge of a fresh alert into the existing alert of its episode. */
  function Combine(existing: Alert, candidate: Alert): Alert {
    existing.(
      count := existing.count + candidate.count,
      firstSeen := if existing.firstSeen <= candidate.firstSeen then existing.firstSeen else candidate.firstSeen,
      lastSeen := if existing.lastSeen >= candidate.lastSeen then existing.lastSeen else candidate.lastSeen,
      severity := if candidate.severity > existing.severity then candidate.severity else existing.severity,
      confidence := if candidate.confidence > existing.confidence then candidate.confidence else existing.confidence,
      evidence := LastOf(existing.evidence + candidate.evidence, 5),
      events := LastOf(existing.events + candidate.events, 20))
  }

  function Fold(candidates: seq<Alert>): Alert
    requires candidates != []
  {
    if |candidates| == 1 then candidates[0]
    else Combine(Fold(candidates[..|candidates| - 1]), candidates[|candidates| - 1])
  }

  /** The alerts with one id that a run of upserts accepted, in order. An upsert that raises because its alert
      or the merged one is too large is answered with an error and accepts nothing. */
  function AcceptedOf(codec: Codec, calls: seq<Call>, id: AlertId): seq<Alert> {
    if calls == [] then []
    else
      var earlier := AcceptedOf(codec, calls[..|calls| - 1], id);
      match calls[|calls| - 1]
      case Upsert(org, alert, _) =>
        if alert.id == id && UpsertOutcome(codec, Combine, Serve(codec, Combine, map[], calls[..|calls| - 1]), org, alert).Stored?
        then earlier + [alert]
        else earlier
      case Add(_, _, _) => earlier
  }

  /** A run of upserts of pipeline alerts. */
  ghost predicate FromPipeline(identity: Identity, calls: seq<Call>) {
    forall i :: 0 <= i < |calls| ==>
      calls[i].Upsert? && Derived(identity, calls[i].alert.id, calls[i].org, calls[i].alert.key, calls[i].alert.bucket)
  }

  /** No lost update, whatever the size limit: there is a row exactly for every id of which an alert was
      accepted, and it holds the merge of all of that id's accepted alerts in the order they came. */
  lemma {:induction false} RowHoldsEveryAlert(codec: Codec, identity: Identity, calls: seq<Call>)
    requires Faithful(codec) && Injective(identity) && FromPipeline(identity, calls)
    ensures var rows := Serve(codec, Combine, map[], calls);
      && AllDerived(identity, rows)
      && (forall id :: id in rows <==> AcceptedOf(codec, calls, id) != [])
      && (forall id :: id in rows ==> Existing(codec, rows, id) == Fold(AcceptedOf(codec, calls, id)))
  {
    if calls != [] {
      var n := |calls| - 1;
      RowHoldsEveryAlert(codec, identity, calls[..n]);
      var before := Serve(codec, Combine, map[], calls[..n]);
      var call := calls[n];
      DerivedIdsStayInOrganization(codec, Combine, identity, before, call.org, call.alert, call.now);
      var rows := Serve(codec, Combine, map[], calls);
      forall id ensures id in rows <==> AcceptedOf(codec, calls, id) != []
        ensures id in rows ==> Existing(codec, rows, id) == Fold(AcceptedOf(codec, calls, id))
      {
        if id == call.alert.id && UpsertOutcome(codec, Combine, before, call.org, call.alert).Stored? {
          var accepted := AcceptedOf(codec, calls, id);
          assert accepted == AcceptedOf(codec, calls[..n], id) + [call.alert];
          assert accepted[..|accepted| - 1] == AcceptedOf(codec, calls[..n], id);
        }
      }
    }
  }

  /** A size limit with room for one piece of evidence. */
  function RoomForOne(codec: Codec): Codec {
    codec.(fits := (alert: Alert) => |alert.evidence| <= 1)
  }

  /** Merging does run into the limit: of two alerts of one episode that both fit, the second leaves the
      session with a count beside data that do not have it, and the caller with an error. */
  lemma MergeOutgrowsLimit(codec: Codec, org: OrgId, alert: Alert, now: int)
    requires Faithful(codec) && |alert.evidence| == 1 && alert.count == 1 && alert.bucket.Some?
    ensures var limited := RoomForOne(codec);
      var rows := Upserted(limited, Combine, map[], org, alert, now);
      && Faithful(limited) && AllTimesAgree(limited, rows)
      && UpsertOutcome(limited, Combine, map[], org, alert).Stored?
      && UpsertOutcome(limited, Combine, rows, org, alert).TooLarge?
      && !AllTimesAgree(limited, Upserted(limited, Combine, rows, org, alert, now))
  {
    var limited := RoomForOne(codec);
    var rows := Upserted(limited, Combine, map[], org, alert, now);
    assert Faithful(limited) by {
      forall a ensures limited.unseal(limited.seal(a)) == a {
        assert codec.unseal(codec.seal(a)) == a;
      }
    }
    assert rows == map[alert.id := RowFor(limited, org, alert, now)];
    AgreementIffMergeFits(limited, Combine, rows, org, alert, now);
  }

  function TotalCount(alerts: seq<Alert>): int {
    if alerts == [] then 0 else alerts[0].count + TotalCount(alerts[1..])
  }

  lemma {:induction false} TotalCountAppend(a: seq<Alert>, b: seq<Alert>)
    ensures TotalCount(a + b) == TotalCount(a) + TotalCount(b)
  {
    if a == [] {
      assert a + b == b;
    } else {
      assert (a + b)[1..] == a[1..] + b;
      TotalCountAppend(a[1..], b);
    }
  }

  function AllEvidence(alerts: seq<Alert>): seq<string> {
    if alerts == [] then [] else AllEvidence(alerts[..|alerts| - 1]) + alerts[|alerts| - 1].evidence
  }

  ghost predicate Spans(merged: Alert, alerts: seq<Alert>) {
    && (exists i :: 0 <= i < |alerts| && alerts[i].firstSeen == merged.firstSeen)
    && (forall i :: 0 <= i < |alerts| ==> merged.firstSeen <= alerts[i].firstSeen)
    && (exists i :: 0 <= i < |alerts| && alerts[i].lastSeen == merged.lastSeen)
    && (forall i :: 0 <= i < |alerts| ==> alerts[i].lastSeen <= merged.lastSeen)
  }

  ghost predicate Peaks(merged: Alert, alerts: seq<Alert>) {
    && (exists i :: 0 <= i < |alerts| && alerts[i].severity == merged.severity)
    && (forall i :: 0 <= i < |alerts| ==> alerts[i].severity <= merged.severity)
    && (exists i :: 0 <= i < |alerts| && alerts[i].confidence == merged.confidence)
    && (forall i :: 0 <= i < |alerts| ==> alerts[i].confidence <= merged.confidence)
  }

  lemma CombineSpans(merged: Alert, alerts: seq<Alert>, next: Alert)
    requires Spans(merged, alerts)
    ensures Spans(Combine(merged, next), alerts + [next])
  {
    var all := alerts + [next];
    assert all[|alerts|] == next;
    var i :| 0 <= i < |alerts| && alerts[i].firstSeen == merged.firstSeen;
    var j :| 0 <= j < |alerts| && alerts[j].lastSeen == merged.lastSeen;
    assert all[i] == alerts[i] && all[j] == alerts[j];
  }

  lemma CombinePeaks(merged: Alert, alerts: seq<Alert>, next: Alert)
    requires Peaks(merged, alerts)
    ensures Peaks(Combine(merged, next), alerts + [next])
  {
    var all := alerts + [next];
    assert all[|alerts|] == next;
    var i :| 0 <= i < |alerts| && alerts[i].severity == merged.severity;
    var j :| 0 <= j < |alerts| && alerts[j].confidence == merged.confidence;
    assert all[i] == alerts[i] && all[j] == alerts[j];
  }

  /** The merged alert counts every event and spans all of them, at their highest severity. */
  lemma {:induction false} FoldTotals(alerts: seq<Alert>)
    requires alerts != []
    ensures Fold(alerts).count == TotalCount(alerts)
    ensures Spans(Fold(alerts), alerts) && Peaks(Fold(alerts), alerts)
  {
    var n := |alerts| - 1;
    if n == 0 {
      assert alerts[1..] == [];
      assert alerts[0].firstSeen == Fold(alerts).firstSeen;
    } else {
      hide Spans, Peaks;
      FoldTotals(alerts[..n]);
      assert alerts == alerts[..n] + [alerts[n]];
      TotalCountAppend(alerts[..n], [alerts[n]]);
      CombineSpans(Fold(alerts[..n]), alerts[..n], alerts[n]);
      CombinePeaks(Fold(alerts[..n]), alerts[..n], alerts[n]);
    }
  }

  /** The evidence kept is the newest five pieces of everything that was observed. */
  lemma {:induction false} FoldKeepsNewestEvidence(alerts: seq<Alert>)
    requires |alerts| >= 2
    ensures Fold(alerts).evidence == LastOf(AllEvidence(alerts), 5)
  {
    var n := |alerts| - 1;
    if n == 1 {
      assert AllEvidence(alerts[..1]) == AllEvidence(alerts[..1][..0]) + alerts[0].evidence == alerts[0].evidence;
    } else {
      FoldKeepsNewestEvidence(alerts[..n]);
      LastOfLast(AllEvidence(alerts[..n]), alerts[n].evidence, 5);
    }
  }

  function AllEvents(alerts: seq<Alert>): seq<int> {
    if alerts == [] then [] else AllEvents(alerts[..|alerts| - 1]) + alerts[|alerts| - 1].events
  }

  /** And the events referred to are the newest twenty. */
  lemma {:induction false} FoldKeepsNewestEvents(alerts: seq<Alert>)
    requires |alerts| >= 2
    ensures Fold(alerts).events == LastOf(AllEvents(alerts), 20)
  {
    var n := |alerts| - 1;
    if n == 1 {
      assert AllEvents(alerts[..1]) == AllEvents(alerts[..1][..0]) + alerts[0].events == alerts[0].events;
    } else {
      FoldKeepsNewestEvents(alerts[..n]);
      LastOfLast(AllEvents(alerts[..n]), alerts[n].events, 20);
    }
  }

  /** What is kept is the end of the sequence, as much of it as fits. */
  lemma LastOfIsSuffix<T>(s: seq<T>, n: nat)
    ensures var kept := LastOf(s, n);
      |kept| == Min(n, |s|) && s == s[..|s| - |kept|] + kept
  {
  }

  lemma LastOfLast<T>(a: seq<T>, b: seq<T>, n: nat)
    ensures LastOf(LastOf(a, n) + b, n) == LastOf(a + b, n)
  {
  }

  lemma WithoutOne<T>(s: seq<T>, i: nat)
    requires i < |s|
    ensures multiset(s[..i] + s[i + 1..]) == multiset(s) - multiset{s[i]}
    ensures i == 0 ==> multiset(s[1..]) == multiset(s) - multiset{s[0]}
  {
    assert s == s[..i] + ([s[i]] + s[i + 1..]);
  }

  lemma TotalCountWithout(alerts: seq<Alert>, i: nat)
    requires i < |alerts|
    ensures TotalCount(alerts) == alerts[i].count + TotalCount(alerts[..i] + alerts[i + 1..])
  {
    var rest := alerts[i..];
    assert alerts == alerts[..i] + rest && rest[1..] == alerts[i + 1..];
    TotalCountAppend(alerts[..i], rest);
    TotalCountAppend(alerts[..i], alerts[i + 1..]);
  }

  lemma {:induction false} TotalCountOfPermutation(a: seq<Alert>, b: seq<Alert>)
    requires multiset(a) == multiset(b)
    ensures TotalCount(a) == TotalCount(b)
  {
    if a == [] {
      assert |multiset(b)| == 0;
    } else {
      assert a[0] in multiset(a);
      var i :| 0 <= i < |b| && b[i] == a[0];
      WithoutOne(a, 0);
      WithoutOne(b, i);
      TotalCountOfPermutation(a[1..], b[..i] + b[i + 1..]);
      TotalCountWithout(b, i);
    }
  }

  /** The order in which concurrent ingests of an episode are merged does not matter. */
  lemma OrderDoesNotMatter(a: seq<Alert>, b: seq<Alert>)
    requires a != [] && multiset(a) == multiset(b)
    ensures b != []
    ensures SameTimes(Fold(a), Fold(b))
    ensures Fold(a).severity == Fold(b).severity && Fold(a).confidence == Fold(b).confidence
  {
    assert a[0] in multiset(b);
    FoldTotals(a);
    FoldTotals(b);
    TotalCountOfPermutation(a, b);
    ExtremesAgree(a, Fold(a), b, Fold(b));
    ExtremesAgree(b, Fold(b), a, Fold(a));
  }

  lemma ExtremesAgree(a: seq<Alert>, x: Alert, b: seq<Alert>, y: Alert)
    requires multiset(a) == multiset(b)
    requires Spans(x, a) && Peaks(x, a) && Spans(y, b) && Peaks(y, b)
    ensures x.firstSeen <= y.firstSeen && x.lastSeen >= y.lastSeen
    ensures x.severity >= y.severity && x.confidence >= y.confidence
  {
    forall i | 0 <= i < |b| ensures exists k :: 0 <= k < |a| && a[k] == b[i] {
      assert b[i] in multiset(a);
    }
  }

  // ---- the reconstruction job of an alert ----

  /** The neighborhood stored with the job that an ingest enqueues for its alert. */
  function JobFor(org: OrgId, alert: Alert, window: nat): Query {
    Query(org, alert.trace, alert.decoy, alert.placement, alert.correlation, alert.firstSeen - window, alert.lastSeen + window)
  }

  /** Whom the job brings in: alerts with one of the trigger's keys that were active within `window` of it. */
  lemma JobCovers(org: OrgId, trigger: Alert, window: nat, other: Alert)
    ensures JobFor(org, trigger, window).org == org
    ensures IsRelated(other, JobFor(org, trigger, window)) <==>
      && (|| other.trace == trigger.trace
          || other.decoy == trigger.decoy
          || (trigger.placement.Some? && other.placement == trigger.placement)
          || (trigger.correlation.Some? && other.correlation == trigger.correlation))
      && trigger.firstSeen - other.lastSeen <= window
      && other.firstSeen - trigger.lastSeen <= window
  {
  }

  /** A row only grows: later upserts widen its times and keep its organization and keys. */
  ghost predicate Grown(before: AlertRow, after: AlertRow) {
    && after.org == before.org && after.trace == before.trace && after.decoy == before.decoy
    && before.firstSeen.Some? && after.firstSeen.Some? && after.firstSeen.value <= before.firstSeen.value
    && before.lastSeen.Some? && after.lastSeen.Some? && after.lastSeen.value >= before.lastSeen.value
  }

  lemma {:induction false} RowsGrow(codec: Codec, rows: Rows, calls: seq<Call>, id: AlertId)
    requires Faithful(codec) && AllTimesAgree(codec, rows) && id in rows
    requires forall i :: 0 <= i < |calls| ==> calls[i].Upsert?
    ensures id in Serve(codec, Combine, rows, calls) && Grown(rows[id], Serve(codec, Combine, rows, calls)[id])
  {
    if calls != [] {
      var n := |calls| - 1;
      RowsGrow(codec, rows, calls[..n], id);
      RequestsKeepAgreement(codec, Combine, rows, calls[..n]);
      var before := Serve(codec, Combine, rows, calls[..n]);
      assert TimesAgree(codec, before[id]);
    }
  }

  /** However many merges happen before the worker gets to the job, the alert that triggered a
      reconstruction is among the alerts its query matches. */
  lemma {:induction false} TriggerStaysRelated(codec: Codec, rows: Rows, org: OrgId, alert: Alert, window: nat, calls: seq<Call>)
    requires Faithful(codec) && AllTimesAgree(codec, rows)
    requires alert.id in rows && rows[alert.id].org == org && Existing(codec, rows, alert.id) == alert
    requires rows[alert.id].trace == alert.trace && alert.firstSeen <= alert.lastSeen
    requires forall i :: 0 <= i < |calls| ==> calls[i].Upsert?
    ensures alert.id in Recency(Serve(codec, Combine, rows, calls), JobFor(org, alert, window))
  {
    RowsGrow(codec, rows, calls, alert.id);
    assert TimesAgree(codec, rows[alert.id]);
  }
}
