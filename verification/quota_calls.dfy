/** Concurrent calls of the quota gate. The lock covers one increment, so the two increments of a call may have
    increments of any other calls between them. */
module QuotaCalls {
  import opened Collections
  import opened QuotaGate

  /** A call that read the clock at `t`, with the positions of its two increments among all of them. */
  datatype Call = Call(org: OrgId, limits: Limits, t: real, first: nat, second: nat)

  function BurstKey(c: Call): Key {
    Second(c.org, SecondOf(c.t))
  }

  function SustainedKey(c: Call): Key {
    Minute(c.org, MinuteOf(c.t))
  }

  predicate Placed(hits: seq<Hit>, c: Call) {
    && c.first < c.second < |hits|
    && hits[c.first].key == BurstKey(c)
    && hits[c.second].key == SustainedKey(c)
  }

  /** The call makes its increments within a second of reading the clock. */
  predicate Timely(hits: seq<Hit>, c: Call)
    requires Placed(hits, c)
  {
    && c.t >= 0.0
    && SecondOf(c.t) <= hits[c.first].now <= SecondOf(c.t) + 1
    && SecondOf(c.t) <= hits[c.second].now <= SecondOf(c.t) + 1
  }

  predicate Makes(calls: seq<Call>, p: nat, k: int) {
    0 <= k < |calls| && (calls[k].first == p || calls[k].second == p)
  }

  ghost predicate Made(calls: seq<Call>, p: nat) {
    exists k :: Makes(calls, p, k)
  }

  /** Any interleaving: every increment is one of exactly one timely call. */
  ghost predicate Schedule(hits: seq<Hit>, calls: seq<Call>) {
    && (forall k :: 0 <= k < |calls| ==> Placed(hits, calls[k]) && Timely(hits, calls[k]))
    && (forall i, j :: 0 <= i < j < |calls| ==> calls[i].first != calls[j].first && calls[i].second != calls[j].second)
    && (forall p :: 0 <= p < |hits| ==> Made(calls, p))
  }

  /** What the increment at position `p` returned, and what the call made of its two. */
  function ReturnedAt(hits: seq<Hit>, p: nat): nat
    requires p < |hits|
  {
    ValueOf(hits[..p], hits[p])
  }

  function DecisionOf(hits: seq<Hit>, c: Call): Decision
    requires Placed(hits, c)
  {
    Decide(c.t, ReturnedAt(hits, c.first), ReturnedAt(hits, c.second), c.limits)
  }

  /** How many increments of the key there were before position `p`. */
  function Rank(hits: seq<Hit>, key: Key, p: nat): nat
    requires p <= |hits|
  {
    HitsOn(hits[..p], key)
  }

  lemma TimelyIsPrompt(hits: seq<Hit>, c: Call)
    requires Placed(hits, c) && Timely(hits, c)
    ensures Prompt(hits[c.first]) && Prompt(hits[c.second])
  {
    MinuteFacts(c.t);
  }

  lemma ScheduleIsPrompt(hits: seq<Hit>, calls: seq<Call>)
    requires Schedule(hits, calls)
    ensures forall p :: 0 <= p < |hits| ==> Prompt(hits[p])
  {
    forall p | 0 <= p < |hits| ensures Prompt(hits[p]) {
      assert Made(calls, p);
      var k :| Makes(calls, p, k);
      TimelyIsPrompt(hits, calls[k]);
    }
  }

  /** However calls interleave, the gate decides as with ideal counters: a call's burst and sustained counts are
      the ranks of its increments among all increments, of accepted and refused calls, for its organization's
      second and minute. */
  lemma DecidesByIdealCounts(hits: seq<Hit>, calls: seq<Call>, k: nat)
    requires Schedule(hits, calls) && k < |calls|
    ensures var c := calls[k];
      DecisionOf(hits, c) ==
        Decide(c.t, Rank(hits, BurstKey(c), c.first) + 1, Rank(hits, SustainedKey(c), c.second) + 1, c.limits)
  {
    var c := calls[k];
    ScheduleIsPrompt(hits, calls);
    PromptHitIsIdeal(hits[..c.first], hits[c.first]);
    PromptHitIsIdeal(hits[..c.second], hits[c.second]);
  }

  /** Exactly which calls are admitted. Refused calls use up the minute like admitted ones: a flood refused for
      bursting can shut an organization out although nobody was admitted. */
  lemma AdmittedIff(hits: seq<Hit>, calls: seq<Call>, k: nat)
    requires Schedule(hits, calls) && k < |calls|
    ensures var c := calls[k];
      DecisionOf(hits, c).accepted <==>
        Rank(hits, BurstKey(c), c.first) < c.limits.burst && Rank(hits, SustainedKey(c), c.second) < 60 * c.limits.perSecond
  {
    DecidesByIdealCounts(hits, calls, k);
  }

  // ---- bounds on what is admitted ----

  lemma {:induction false} HitsGrow(hits: seq<Hit>, key: Key, p: nat)
    requires p < |hits| && hits[p].key == key
    ensures Rank(hits, key, p) < HitsOn(hits, key)
  {
    var n := |hits| - 1;
    if p < n {
      assert hits[..n][..p] == hits[..p];
      HitsGrow(hits[..n], key, p);
    }
  }

  /** Different increments of a key have different ranks, so few of them have a low one. */
  lemma {:induction false} FewLowRanks(hits: seq<Hit>, key: Key, positions: set<nat>, bound: nat)
    requires forall p :: p in positions ==> p < |hits| && hits[p].key == key && Rank(hits, key, p) < bound
    ensures |positions| <= bound
    decreases |hits|
  {
    if hits == [] {
      assert forall p :: p !in positions;
      assert positions == {};
    } else {
      var n := |hits| - 1;
      var earlier := positions - {n};
      var less: nat := if n in positions then bound - 1 else bound;
      forall p | p in earlier ensures p < n && hits[..n][p].key == key && Rank(hits[..n], key, p) < less {
        assert hits[..n][..p] == hits[..p];
        if n in positions {
          HitsGrow(hits[..n], key, p);
        }
      }
      FewLowRanks(hits[..n], key, earlier, less);
      assert n in positions ==> positions == earlier + {n};
      assert n !in positions ==> positions == earlier;
    }
  }

  function Firsts(calls: seq<Call>): seq<nat> {
    seq(|calls|, k requires 0 <= k < |calls| => calls[k].first)
  }

  function Seconds(calls: seq<Call>): seq<nat> {
    seq(|calls|, k requires 0 <= k < |calls| => calls[k].second)
  }

  function At(positions: seq<nat>, indices: set<nat>): set<nat> {
    set k | k in indices && k < |positions| :: positions[k]
  }

  lemma {:induction false} OnePositionEach(positions: seq<nat>, indices: set<nat>)
    requires Distinct(positions) && forall k :: k in indices ==> k < |positions|
    ensures |At(positions, indices)| == |indices|
    decreases |indices|
  {
    if indices != {} {
      var k :| k in indices;
      var rest := indices - {k};
      OnePositionEach(positions, rest);
      assert At(positions, indices) == At(positions, rest) + {positions[k]};
      assert positions[k] !in At(positions, rest);
    }
  }

  ghost predicate LimitedTo(calls: seq<Call>, org: OrgId, limits: Limits) {
    && limits.burst >= 0 && limits.perSecond >= 0
    && forall k :: 0 <= k < |calls| && calls[k].org == org ==>
         calls[k].limits.burst <= limits.burst && calls[k].limits.perSecond <= limits.perSecond
  }

  /** The organization's accepted calls whose clock reading satisfies a condition. */
  ghost function Accepted(hits: seq<Hit>, calls: seq<Call>, org: OrgId, when: real -> bool): set<nat> {
    set k: nat | k < |calls| && calls[k].org == org && when(calls[k].t) && Placed(hits, calls[k]) && DecisionOf(hits, calls[k]).accepted
  }

  function InSeconds(from: int, n: nat): real -> bool {
    (t: real) => from <= SecondOf(t) < from + n
  }

  function InMinute(minute: int): real -> bool {
    (t: real) => MinuteOf(t) == minute
  }

  function Between(start: real, end: real): real -> bool {
    (t: real) => start <= t <= end
  }

  lemma AcceptedPerSecond(hits: seq<Hit>, calls: seq<Call>, org: OrgId, limits: Limits, second: int)
    requires Schedule(hits, calls) && LimitedTo(calls, org, limits)
    ensures |Accepted(hits, calls, org, InSeconds(second, 1))| <= limits.burst
  {
    var accepted := Accepted(hits, calls, org, InSeconds(second, 1));
    var key := Second(org, second);
    forall p | p in At(Firsts(calls), accepted) ensures p < |hits| && hits[p].key == key && Rank(hits, key, p) < limits.burst {
      var k :| k in accepted && calls[k].first == p;
      AdmittedIff(hits, calls, k);
    }
    OnePositionEach(Firsts(calls), accepted);
    FewLowRanks(hits, key, At(Firsts(calls), accepted), limits.burst);
  }

  /** In every minute window at most sixty times the per-second rate is admitted. */
  lemma AcceptedPerMinute(hits: seq<Hit>, calls: seq<Call>, org: OrgId, limits: Limits, minute: int)
    requires Schedule(hits, calls) && LimitedTo(calls, org, limits)
    ensures |Accepted(hits, calls, org, InMinute(minute))| <= 60 * limits.perSecond
  {
    var accepted := Accepted(hits, calls, org, InMinute(minute));
    var key := Minute(org, minute);
    forall p | p in At(Seconds(calls), accepted)
      ensures p < |hits| && hits[p].key == key && Rank(hits, key, p) < 60 * limits.perSecond
    {
      var k :| k in accepted && calls[k].second == p;
      AdmittedIff(hits, calls, k);
    }
    OnePositionEach(Seconds(calls), accepted);
    FewLowRanks(hits, key, At(Seconds(calls), accepted), 60 * limits.perSecond);
  }

  lemma UnionCardinality<T>(a: set<T>, b: set<T>)
    ensures |a + b| <= |a| + |b|
  {
    assert a + b == a + (b - a) && a !! (b - a);
    SubsetCardinality(b - a, b);
  }

  lemma LastSecond(hits: seq<Hit>, calls: seq<Call>, org: OrgId, from: int, n: nat)
    requires n > 0
    ensures Accepted(hits, calls, org, InSeconds(from, n)) ==
      Accepted(hits, calls, org, InSeconds(from, n - 1)) + Accepted(hits, calls, org, InSeconds(from + n - 1, 1))
  {
    hide Placed, DecisionOf;
    forall t: real ensures InSeconds(from, n)(t) <==> InSeconds(from, n - 1)(t) || InSeconds(from + n - 1, 1)(t) {
    }
  }

  lemma {:induction false} AcceptedOverSeconds(hits: seq<Hit>, calls: seq<Call>, org: OrgId, limits: Limits, from: int, n: nat)
    requires Schedule(hits, calls) && LimitedTo(calls, org, limits)
    ensures |Accepted(hits, calls, org, InSeconds(from, n))| <= n * limits.burst
    decreases n
  {
    hide Accepted, Schedule, LimitedTo;
    if n == 0 {
      NoSeconds(hits, calls, org, from);
    } else {
      AcceptedOverSeconds(hits, calls, org, limits, from, n - 1);
      AcceptedPerSecond(hits, calls, org, limits, from + n - 1);
      LastSecond(hits, calls, org, from, n);
      UnionCardinality(
        Accepted(hits, calls, org, InSeconds(from, n - 1)), Accepted(hits, calls, org, InSeconds(from + n - 1, 1)));
      OneLess(n, limits.burst);
    }
  }

  lemma OneLess(n: nat, b: int)
    ensures n * b == (n - 1) * b + b
  {
  }

  lemma NoSeconds(hits: seq<Hit>, calls: seq<Call>, org: OrgId, from: int)
    ensures Accepted(hits, calls, org, InSeconds(from, 0)) == {}
  {
  }

  /** In any stretch of T whole seconds, wherever it begins, at most (T + 1) bursts are admitted. */
  lemma AcceptedInAnyInterval(hits: seq<Hit>, calls: seq<Call>, org: OrgId, limits: Limits, start: real, length: nat)
    requires Schedule(hits, calls) && LimitedTo(calls, org, limits)
    ensures |Accepted(hits, calls, org, Between(start, start + length as real))| <= (length + 1) * limits.burst
  {
    var inside := Accepted(hits, calls, org, Between(start, start + length as real));
    var around := Accepted(hits, calls, org, InSeconds(start.Floor, length + 1));
    forall k | k in inside ensures k in around {
      assert calls[k].t < (start.Floor + 1) as real + length as real;
    }
    SubsetCardinality(inside, around);
    AcceptedOverSeconds(hits, calls, org, limits, start.Floor, length + 1);
  }

  // ---- retrying ----

  /** A sustained-limit rejection suggests a wait of 1 to 60 seconds, which ends in the next minute window and
      less than a second into it. */
  lemma RetryReachesNextMinute(t: real, burst: nat, sustained: nat, limits: Limits)
    requires t >= 0.0 && Decide(t, burst, sustained, limits).reason == Some(SustainedLimit)
    ensures var wait := Decide(t, burst, sustained, limits).retryAfter;
      && 1 <= wait <= 60
      && (60 * (MinuteOf(t) + 1)) as real <= t + wait as real < (60 * (MinuteOf(t) + 1)) as real + 1.0
  {
    MinuteFacts(t);
    var wait := Decide(t, burst, sustained, limits).retryAfter;
    assert wait == 60 - (SecondOf(t) - 60 * MinuteOf(t));
    assert t + wait as real == (60 * (MinuteOf(t) + 1)) as real + (t - SecondOf(t) as real);
  }

  /** A burst rejection suggests a wait that ends in the very next second. */
  lemma BurstRetryReachesNextSecond(t: real, burst: nat, sustained: nat, limits: Limits)
    requires t >= 0.0 && Decide(t, burst, sustained, limits).reason == Some(BurstLimit)
    ensures SecondOf(t + Decide(t, burst, sustained, limits).retryAfter as real) == SecondOf(t) + 1
  {
    ReasonIff(t, burst, sustained, limits);
  }

  /** Every refused call is told the shortest whole wait that leaves the window that refused it. */
  lemma RefusedWaits(hits: seq<Hit>, calls: seq<Call>, k: nat)
    requires Schedule(hits, calls) && k < |calls| && !DecisionOf(hits, calls[k]).accepted
    ensures var c, d := calls[k], DecisionOf(hits, calls[k]);
      var later := c.t + d.retryAfter as real;
      && (d.reason == Some(BurstLimit) ==> SecondOf(later) == SecondOf(c.t) + 1)
      && (d.reason == Some(SustainedLimit) ==>
            && MinuteOf(later) == MinuteOf(c.t) + 1
            && MinuteOf(later - 1.0) == MinuteOf(c.t))
  {
    var c, d := calls[k], DecisionOf(hits, calls[k]);
    var burst, sustained := ReturnedAt(hits, c.first), ReturnedAt(hits, c.second);
    assert c.t >= 0.0 by {
      assert Timely(hits, c);
    }
    hide Schedule;
    if d.reason == Some(BurstLimit) {
      BurstRetryReachesNextSecond(c.t, burst, sustained, c.limits);
    }
    if d.reason == Some(SustainedLimit) {
      RetryReachesNextMinute(c.t, burst, sustained, c.limits);
      var later := c.t + d.retryAfter as real;
      var m: int := MinuteOf(c.t) + 1;
      MinuteIs(later, m);
      MinuteFacts(c.t);
      assert later - 1.0 >= c.t;
      assert (60 * m) as real == 60.0 * (m as real);
      MinuteIs(later - 1.0, m - 1);
    }
  }

  lemma MinuteIs(t: real, m: int)
    requires 60.0 * (m as real) <= t < 60.0 * (m as real) + 60.0
    ensures MinuteOf(t) == m
  {
    assert m as real <= t / 60.0 < m as real + 1.0;
  }

  lemma {:induction false} NoHits(hits: seq<Hit>, key: Key)
    requires forall p :: 0 <= p < |hits| ==> hits[p].key != key
    ensures HitsOn(hits, key) == 0
  {
    if hits != [] {
      NoHits(hits[..|hits| - 1], key);
    }
  }

  ghost predicate LatestIs(calls: seq<Call>, k: nat, latest: real)
    requires k < |calls|
  {
    0.0 <= latest && forall i :: 0 <= i < |calls| && i != k && calls[i].org == calls[k].org ==> calls[i].t <= latest
  }

  /** The other calls of the organization are in no later window than the latest of them. */
  lemma OthersAreEarlier(hits: seq<Hit>, calls: seq<Call>, k: nat, latest: real, p: nat)
    requires Schedule(hits, calls) && k < |calls| && LatestIs(calls, k, latest)
    requires p < |hits| && hits[p].key.org == calls[k].org && p != calls[k].first && p != calls[k].second
    ensures hits[p].key.index <= if hits[p].key.Second? then SecondOf(latest) else MinuteOf(latest)
  {
    assert Made(calls, p);
    var i :| Makes(calls, p, i);
    MinutesOrdered(calls[i].t, latest);
  }

  /** A call in a new window, all others being earlier, finds that window's counter at zero. */
  lemma NewWindow(hits: seq<Hit>, calls: seq<Call>, k: nat, latest: real)
    requires Schedule(hits, calls) && k < |calls| && LatestIs(calls, k, latest)
    ensures SecondOf(latest) < SecondOf(calls[k].t) ==> Rank(hits, BurstKey(calls[k]), calls[k].first) == 0
    ensures MinuteOf(latest) < MinuteOf(calls[k].t) ==> Rank(hits, SustainedKey(calls[k]), calls[k].second) == 0
  {
    var c := calls[k];
    forall p | 0 <= p < c.second && p != c.first && hits[p].key.org == c.org
      ensures hits[p].key.index <= if hits[p].key.Second? then SecondOf(latest) else MinuteOf(latest)
    {
      OthersAreEarlier(hits, calls, k, latest, p);
    }
    hide Schedule;
    if SecondOf(latest) < SecondOf(c.t) {
      NoHits(hits[..c.first], BurstKey(c));
    }
    if MinuteOf(latest) < MinuteOf(c.t) {
      NoHits(hits[..c.second], SustainedKey(c));
    }
  }

  lemma MinutesOrdered(t: real, later: real)
    requires 0.0 <= t <= later
    ensures MinuteOf(t) <= MinuteOf(later)
  {
    assert t / 60.0 <= later / 60.0;
  }

  /** Waiting as told helps: an organization that was turned away, makes no later call but one, and makes that
      after `retryAfter` seconds is not turned away for the same reason; after a sustained-limit rejection it is
      admitted (validated limits are positive). */
  lemma WaitingHelps(hits: seq<Hit>, calls: seq<Call>, r: nat, k: nat)
    requires Schedule(hits, calls) && r < |calls| && k < |calls| && r != k
    requires calls[k].org == calls[r].org && calls[k].limits.burst >= 1 && calls[k].limits.perSecond >= 1
    requires LatestIs(calls, k, calls[r].t)
    requires !DecisionOf(hits, calls[r]).accepted
    requires calls[k].t == calls[r].t + DecisionOf(hits, calls[r]).retryAfter as real
    ensures DecisionOf(hits, calls[k]).reason != DecisionOf(hits, calls[r]).reason
    ensures DecisionOf(hits, calls[r]).reason == Some(SustainedLimit) ==> DecisionOf(hits, calls[k]).accepted
  {
    var refused, again := calls[r], calls[k];
    DecidesByIdealCounts(hits, calls, k);
    if DecisionOf(hits, refused).reason == Some(SustainedLimit) {
      RetryReachesNextMinute(refused.t, ReturnedAt(hits, refused.first), ReturnedAt(hits, refused.second), refused.limits);
      MinuteFacts(again.t);
      assert MinuteOf(refused.t) < MinuteOf(again.t);
    }
    assert again.t >= refused.t + 1.0;
    assert SecondOf(refused.t) < SecondOf(again.t);
    NewWindow(hits, calls, k, refused.t);
  }
}
