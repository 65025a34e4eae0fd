/** The monitoring quota gate: expiring in-memory counters against ideal fixed-window counts. */
module QuotaGate {
  import opened Collections

  type OrgId = int

  datatype Limits = Limits(burst: int, perSecond: int)

  /** The two counters of an organization: one per second and one per minute. */
  datatype Key = Second(org: OrgId, index: int) | Minute(org: OrgId, index: int)

  datatype Counter = Counter(value: nat, expiry: int)

  type Memory = map<Key, Counter>

  datatype Reason = BurstLimit | SustainedLimit

  datatype Decision = Decision(accepted: bool, retryAfter: int, reason: Option<Reason>)

  function Ttl(key: Key): int {
    if key.Second? then 2 else 61
  }

  /** When the window of a counter opens, in whole seconds. */
  function Opens(key: Key): int {
    if key.Second? then key.index else 60 * key.index
  }

  function SecondOf(t: real): int {
    t.Floor
  }

  function MinuteOf(t: real): int {
    (t / 60.0).Floor
  }

  /** The whole seconds of `t % 60`. */
  function IntoMinute(t: real): int {
    (t - 60.0 * (MinuteOf(t) as real)).Floor
  }

  function Increment(memory: Memory, key: Key, now: int): (Memory, nat) {
    var found := if key in memory then memory[key] else Counter(0, now + Ttl(key));
    var live := if found.expiry <= now then Counter(0, now + Ttl(key)) else found;
    (memory[key := live.(value := live.value + 1)], live.value + 1)
  }

  function Decide(t: real, burst: nat, sustained: nat, limits: Limits): Decision {
    if burst > limits.burst then Decision(false, 1, Some(BurstLimit))
    else if sustained > limits.perSecond * 60 then
      Decision(false, if 60 - IntoMinute(t) > 1 then 60 - IntoMinute(t) else 1, Some(SustainedLimit))
    else Decision(true, 0, None)
  }

  class MonitoringQuotaGate {
    var memory: Memory

    constructor ()
      ensures memory == map[]
    {
      memory := map[];
    }

    method IncrementKey(key: Key, ttl: int, clock: real) returns (value: nat)
      requires ttl == Ttl(key)
      modifies this
      ensures (memory, value) == Increment(old(memory), key, clock.Floor)
    {
      var now := clock.Floor;
      var count, expiry := 0, now + ttl;
      if key in memory {
        count, expiry := memory[key].value, memory[key].expiry;
      }
      if expiry <= now {
        count, expiry := 0, now + ttl;
      }
      memory := memory[key := Counter(count + 1, expiry)];
      return count + 1;
    }

    /** The clock is read once for the decision and once more inside each increment. */
    method Admit(org: OrgId, limits: Limits, t: real, t1: real, t2: real) returns (decision: Decision)
      modifies this
      ensures (memory, decision) == Admitted(old(memory), Attempt(org, limits, t, t1, t2))
    {
      var burst := IncrementKey(Second(org, SecondOf(t)), 2, t1);
      var sustained := IncrementKey(Minute(org, MinuteOf(t)), 61, t2);
      if burst > limits.burst {
        return Decision(false, 1, Some(BurstLimit));
      }
      if sustained > limits.perSecond * 60 {
        var wait := 60 - IntoMinute(t);
        return Decision(false, if wait > 1 then wait else 1, Some(SustainedLimit));
      }
      return Decision(true, 0, None);
    }
  }

  // ---- counters: any interleaving of increments ----

  /** One locked increment, at a whole-second clock reading. */
  datatype Hit = Hit(key: Key, now: int)

  function After(hits: seq<Hit>): Memory {
    if hits == [] then map[]
    else Increment(After(hits[..|hits| - 1]), hits[|hits| - 1].key, hits[|hits| - 1].now).0
  }

  /** What the next hit returns. */
  function ValueOf(hits: seq<Hit>, hit: Hit): nat {
    Increment(After(hits), hit.key, hit.now).1
  }

  function HitsOn(hits: seq<Hit>, key: Key): nat {
    if hits == [] then 0
    else HitsOn(hits[..|hits| - 1], key) + (if hits[|hits| - 1].key == key then 1 else 0)
  }

  /** The clock reading of the first hit on a key. */
  function FirstHit(hits: seq<Hit>, key: Key): int
    requires HitsOn(hits, key) > 0
  {
    if HitsOn(hits[..|hits| - 1], key) > 0 then FirstHit(hits[..|hits| - 1], key) else hits[|hits| - 1].now
  }

  /** The hit comes before its key's counter runs out, counting from the key's first hit. */
  predicate InTime(hits: seq<Hit>, hit: Hit) {
    HitsOn(hits, hit.key) > 0 ==> hit.now < FirstHit(hits, hit.key) + Ttl(hit.key)
  }

  predicate AllInTime(hits: seq<Hit>) {
    hits == [] || (AllInTime(hits[..|hits| - 1]) && InTime(hits[..|hits| - 1], hits[|hits| - 1]))
  }

  lemma {:induction false} CountersHoldHits(hits: seq<Hit>)
    requires AllInTime(hits)
    ensures forall key :: key in After(hits) <==> HitsOn(hits, key) > 0
    ensures forall key :: key in After(hits) ==>
      After(hits)[key] == Counter(HitsOn(hits, key), FirstHit(hits, key) + Ttl(key))
  {
    if hits != [] {
      CountersHoldHits(hits[..|hits| - 1]);
    }
  }

  /** The expiring counter equals the ideal count exactly as long as hits stay in time: a hit returns the
      number of hits on its key so far if and only if it does not come after the counter ran out. */
  lemma IdealIffInTime(hits: seq<Hit>, hit: Hit)
    requires AllInTime(hits)
    ensures ValueOf(hits, hit) == HitsOn(hits, hit.key) + 1 <==> InTime(hits, hit)
  {
    CountersHoldHits(hits);
  }

  /** A hit at most a second after its window: what an admit does that takes no longer than a second. */
  predicate Prompt(hit: Hit) {
    Opens(hit.key) <= hit.now < Opens(hit.key) + Ttl(hit.key)
  }

  /** The two lifetimes are long enough: prompt hits are always in time, in any order, on any clock. */
  lemma {:induction false} PromptHitsAreInTime(hits: seq<Hit>)
    requires forall i :: 0 <= i < |hits| ==> Prompt(hits[i])
    ensures AllInTime(hits)
    ensures forall key :: HitsOn(hits, key) > 0 ==> FirstHit(hits, key) >= Opens(key)
  {
    if hits != [] {
      PromptHitsAreInTime(hits[..|hits| - 1]);
    }
  }

  lemma PromptHitIsIdeal(hits: seq<Hit>, hit: Hit)
    requires forall i :: 0 <= i < |hits| ==> Prompt(hits[i])
    requires Prompt(hit)
    ensures ValueOf(hits, hit) == HitsOn(hits, hit.key) + 1
  {
    PromptHitsAreInTime(hits);
    IdealIffInTime(hits, hit);
  }

  // ---- one call after another ----

  /** A call of admit: the clock readings are of the call itself and of its two increments. */
  datatype Attempt = Attempt(org: OrgId, limits: Limits, t: real, t1: real, t2: real)

  function Admitted(memory: Memory, a: Attempt): (Memory, Decision) {
    var (afterBurst, burst) := Increment(memory, Second(a.org, SecondOf(a.t)), a.t1.Floor);
    var (afterBoth, sustained) := Increment(afterBurst, Minute(a.org, MinuteOf(a.t)), a.t2.Floor);
    (afterBoth, Decide(a.t, burst, sustained, a.limits))
  }

  /** Which limit refuses a call, and that an admitted one is not told to wait. */
  lemma ReasonIff(t: real, burst: nat, sustained: nat, limits: Limits)
    ensures var d := Decide(t, burst, sustained, limits);
      && (d.reason == Some(BurstLimit) <==> burst > limits.burst)
      && (d.reason == Some(SustainedLimit) <==> burst <= limits.burst && sustained > 60 * limits.perSecond)
      && (d.accepted <==> d.reason == None)
      && (d.accepted ==> d.retryAfter == 0)
  {
  }

  /** How long a counter lives: a second hit counts on within 2 seconds, or 61, of the first, and starts over
      after that. */
  lemma CounterLifetime(key: Key, first: int, now: int)
    ensures ValueOf([Hit(key, first)], Hit(key, now)) ==
      if now < first + (if key.Second? then 2 else 61) then 2 else 1
  {
    assert [Hit(key, first)][..0] == [] && After([]) == map[];
    assert After([Hit(key, first)]) == Increment(map[], key, first).0 == map[key := Counter(1, first + Ttl(key))];
  }

  /** An undisturbed call is two hits in a row. */
  lemma AdmitIsTwoHits(hits: seq<Hit>, a: Attempt)
    ensures var first := Hit(Second(a.org, SecondOf(a.t)), a.t1.Floor);
      var second := Hit(Minute(a.org, MinuteOf(a.t)), a.t2.Floor);
      Admitted(After(hits), a) ==
        (After(hits + [first] + [second]), Decide(a.t, ValueOf(hits, first), ValueOf(hits + [first], second), a.limits))
  {
    var first := Hit(Second(a.org, SecondOf(a.t)), a.t1.Floor);
    var second := Hit(Minute(a.org, MinuteOf(a.t)), a.t2.Floor);
    assert (hits + [first])[..|hits|] == hits;
    assert (hits + [first] + [second])[..|hits| + 1] == hits + [first];
  }

  lemma MinuteFacts(t: real)
    requires t >= 0.0
    ensures 60 * MinuteOf(t) <= SecondOf(t) < 60 * MinuteOf(t) + 60
    ensures IntoMinute(t) == SecondOf(t) - 60 * MinuteOf(t)
  {
    var m := MinuteOf(t);
    assert m as real <= t / 60.0 < (m + 1) as real;
    assert (60 * m) as real == 60.0 * (m as real);
    assert 60.0 * (m as real) <= t < 60.0 * (m as real) + 60.0;
    var whole := SecondOf(t) - 60 * m;
    assert whole as real <= t - 60.0 * (m as real) < whole as real + 1.0;
  }
}
