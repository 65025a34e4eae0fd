/** Judge resets that overlap. A request checks the cooldown against the last reset it loaded, resets, and
    commits its own moment as the last reset. */
module ResetOverlap {
  import opened Collections
  import JudgeQuota

  /** A slot holds one request at a time. */
  datatype Phase = Checks(slot: nat, now: real) | Commits(slot: nat, now: real)

  /** The stored last reset and the moments of all resets. For every slot whose request has passed its check and
      not committed yet: how many resets there had been when it loaded the record. */
  datatype Resets = Resets(last: Option<real>, times: seq<real>, passed: seq<Option<nat>>)

  function Start(slots: nat): Resets {
    Resets(None, [], seq(slots, _ => None))
  }

  predicate Passes(cooldown: int, last: Option<real>, now: real) {
    JudgeQuota.CheckReset(JudgeQuota.Settings(0, 0, 0, cooldown), JudgeQuota.Usage(0, 0, 0, 0, last), now) == JudgeQuota.Allowed
  }

  function Next(cooldown: int, r: Resets, phase: Phase): Resets {
    if phase.slot >= |r.passed| then r
    else match phase
      case Checks(slot, now) =>
        if r.passed[slot].None? && Passes(cooldown, r.last, now) then r.(passed := r.passed[slot := Some(|r.times|)]) else r
      case Commits(slot, now) =>
        if r.passed[slot].Some? then Resets(Some(now), r.times + [now], r.passed[slot := None]) else r
  }

  function RunFrom(cooldown: int, r: Resets, phases: seq<Phase>): Resets {
    if phases == [] then r else Next(cooldown, RunFrom(cooldown, r, phases[..|phases| - 1]), phases[|phases| - 1])
  }

  function Run(cooldown: int, slots: nat, phases: seq<Phase>): Resets {
    RunFrom(cooldown, Start(slots), phases)
  }

  ghost predicate ClockNeverGoesBack(phases: seq<Phase>) {
    forall i, j :: 0 <= i < j < |phases| ==> phases[i].now <= phases[j].now
  }

  /** The resets are in order, none later than `now`; the last one is stored; and whoever passed its check is past
      the cooldown of the last reset it had seen. */
  ghost predicate InStep(cooldown: int, r: Resets, now: real) {
    && (forall i, j :: 0 <= i < j < |r.times| ==> r.times[i] <= r.times[j])
    && (forall i :: 0 <= i < |r.times| ==> r.times[i] <= now)
    && r.last == (if r.times == [] then None else Some(r.times[|r.times| - 1]))
    && (forall s :: 0 <= s < |r.passed| && r.passed[s].Some? ==>
          && r.passed[s].value <= |r.times|
          && (r.passed[s].value > 0 ==> now >= r.times[r.passed[s].value - 1] + cooldown as real))
  }

  lemma StepInStep(cooldown: int, r: Resets, phase: Phase, now: real)
    requires cooldown > 0 && InStep(cooldown, r, phase.now) && phase.now <= now
    ensures InStep(cooldown, Next(cooldown, r, phase), now)
  {
    if phase.Checks? && r.last.Some? {
      PassesPast(cooldown, r.last, phase.now);
    }
    hide Passes;
  }

  lemma PassesPast(cooldown: int, last: Option<real>, now: real)
    requires cooldown > 0 && last.Some?
    ensures Passes(cooldown, last, now) <==> now >= last.value + cooldown as real
  {
  }

  lemma {:induction false} AlwaysInStep(cooldown: int, slots: nat, phases: seq<Phase>, now: real)
    requires cooldown > 0 && ClockNeverGoesBack(phases)
    requires forall i :: 0 <= i < |phases| ==> phases[i].now <= now
    ensures InStep(cooldown, Run(cooldown, slots, phases), now) && |Run(cooldown, slots, phases).passed| == slots
  {
    if phases != [] {
      var earlier, last := phases[..|phases| - 1], phases[|phases| - 1];
      AlwaysInStep(cooldown, slots, earlier, last.now);
      StepInStep(cooldown, Run(cooldown, slots, earlier), last, now);
    }
  }

  /** The request had loaded the record before reset `i` was stored. */
  function Missed(i: int): Option<nat> -> bool {
    (seen: Option<nat>) => seen.Some? && seen.value <= i
  }

  /** After reset `i`: either a reset a cooldown later has been stored, or every reset since then was by a request
      that had missed it, and these use up the slots. */
  ghost predicate Spread(cooldown: int, r: Resets, i: nat)
    requires i < |r.times|
  {
    || r.times[|r.times| - 1] >= r.times[i] + cooldown as real
    || |r.times| - 1 - i + CountIf(r.passed, Missed(i)) <= |r.passed| - 1
  }

  ghost predicate AllSpread(cooldown: int, r: Resets) {
    && (forall i: nat :: i < |r.times| ==> Spread(cooldown, r, i))
    && (forall i: nat, j: nat :: i + |r.passed| <= j < |r.times| ==> r.times[j] >= r.times[i] + cooldown as real)
  }

  lemma {:induction false} CountIfBound<T>(s: seq<T>, p: T -> bool, free: nat)
    requires free < |s| && !p(s[free])
    ensures CountIf(s, p) <= |s| - 1
  {
    if free > 0 {
      CountIfBound(s[1..], p, free - 1);
    } else {
      CountAtMost(s[1..], p);
    }
  }

  lemma {:induction false} CountAtMost<T>(s: seq<T>, p: T -> bool)
    ensures CountIf(s, p) <= |s|
  {
    if s != [] {
      CountAtMost(s[1..], p);
    }
  }

  lemma CheckKeepsSpread(cooldown: int, r: Resets, slot: nat, now: real)
    requires InStep(cooldown, r, now) && AllSpread(cooldown, r)
    ensures AllSpread(cooldown, Next(cooldown, r, Checks(slot, now)))
  {
    var after := Next(cooldown, r, Checks(slot, now));
    if after != r {
      forall i: nat | i < |r.times| ensures Spread(cooldown, after, i) {
        assert Spread(cooldown, r, i);
        CountIfUpdate(r.passed, slot, Some(|r.times|), Missed(i));
      }
    }
  }

  lemma CommitSpreads(cooldown: int, r: Resets, slot: nat, now: real, i: nat)
    requires InStep(cooldown, r, now) && AllSpread(cooldown, r)
    requires slot < |r.passed| && r.passed[slot].Some? && i <= |r.times|
    ensures var after := Next(cooldown, r, Commits(slot, now));
      Spread(cooldown, after, i) && (i + |r.passed| == |r.times| ==> now >= r.times[i] + cooldown as real)
  {
    var after := Next(cooldown, r, Commits(slot, now));
    CountIfUpdate(r.passed, slot, None, Missed(i));
    CountAtMost(r.passed, Missed(i));
    if i == |r.times| {
      CountIfBound(after.passed, Missed(i), slot);
    } else {
      assert Spread(cooldown, r, i);
      if r.passed[slot].value > i {
        assert r.times[i] <= r.times[r.passed[slot].value - 1];
      }
    }
  }

  lemma CommitKeepsSpread(cooldown: int, r: Resets, slot: nat, now: real)
    requires InStep(cooldown, r, now) && AllSpread(cooldown, r)
    ensures AllSpread(cooldown, Next(cooldown, r, Commits(slot, now)))
  {
    var after := Next(cooldown, r, Commits(slot, now));
    if after != r {
      forall i: nat | i < |after.times| ensures Spread(cooldown, after, i) {
        CommitSpreads(cooldown, r, slot, now, i);
      }
      forall i: nat, j: nat | i + |after.passed| <= j < |after.times| ensures after.times[j] >= after.times[i] + cooldown as real {
        if j == |r.times| && i + |r.passed| == j {
          CommitSpreads(cooldown, r, slot, now, i);
        } else if j == |r.times| {
          assert r.times[j - 1] >= r.times[i] + cooldown as real;
        }
      }
    }
  }

  lemma {:induction false} AlwaysSpread(cooldown: int, slots: nat, phases: seq<Phase>)
    requires cooldown > 0 && ClockNeverGoesBack(phases)
    ensures AllSpread(cooldown, Run(cooldown, slots, phases)) && |Run(cooldown, slots, phases).passed| == slots
  {
    if phases != [] {
      var earlier, last := phases[..|phases| - 1], phases[|phases| - 1];
      AlwaysSpread(cooldown, slots, earlier);
      AlwaysInStep(cooldown, slots, earlier, last.now);
      hide AllSpread, InStep;
      match last {
        case Checks(slot, now) => CheckKeepsSpread(cooldown, Run(cooldown, slots, earlier), slot, now);
        case Commits(slot, now) => CommitKeepsSpread(cooldown, Run(cooldown, slots, earlier), slot, now);
      }
    }
  }

  /** With `slots` requests in flight at once and a clock that never goes back, of any `slots + 1` consecutive
      resets the last is at least a cooldown after the first. */
  lemma ResetsSpread(cooldown: int, slots: nat, phases: seq<Phase>, i: nat)
    requires cooldown > 0 && ClockNeverGoesBack(phases)
    requires i + slots < |Run(cooldown, slots, phases).times|
    ensures Run(cooldown, slots, phases).times[i + slots] >= Run(cooldown, slots, phases).times[i] + cooldown as real
  {
    AlwaysSpread(cooldown, slots, phases);
  }

  lemma RunNext(cooldown: int, r: Resets, phases: seq<Phase>, phase: Phase)
    ensures RunFrom(cooldown, r, phases + [phase]) == Next(cooldown, RunFrom(cooldown, r, phases), phase)
  {
    assert (phases + [phase])[..|phases|] == phases;
  }

  lemma {:induction false} RunConcat(cooldown: int, r: Resets, first: seq<Phase>, second: seq<Phase>)
    ensures RunFrom(cooldown, r, first + second) == RunFrom(cooldown, RunFrom(cooldown, r, first), second)
    decreases |second|
  {
    if second == [] {
      assert first + second == first;
    } else {
      var n := |second| - 1;
      assert first + second == first + second[..n] + [second[n]];
      RunConcat(cooldown, r, first, second[..n]);
      RunNext(cooldown, r, first + second[..n], second[n]);
    }
  }

  /** All requests check before any of them commits. */
  function AllAtOnce(slots: nat, now: real): seq<Phase> {
    if slots == 0 then [] else [Checks(slots - 1, now)] + AllAtOnce(slots - 1, now) + [Commits(slots - 1, now)]
  }

  lemma AllAtOnceNests(cooldown: int, r: Resets, slots: nat, now: real)
    requires slots > 0
    ensures RunFrom(cooldown, r, AllAtOnce(slots, now)) ==
      Next(cooldown, RunFrom(cooldown, Next(cooldown, r, Checks(slots - 1, now)), AllAtOnce(slots - 1, now)), Commits(slots - 1, now))
  {
    var first, inner := [Checks(slots - 1, now)], AllAtOnce(slots - 1, now);
    RunNext(cooldown, r, first + inner, Commits(slots - 1, now));
    RunConcat(cooldown, r, first, inner);
    RunNext(cooldown, r, [], Checks(slots - 1, now));
    assert [] + first == first && RunFrom(cooldown, r, []) == r;
  }

  lemma NoneAtOnce(cooldown: int, r: Resets, now: real)
    ensures RunFrom(cooldown, r, AllAtOnce(0, now)) == r
  {
  }

  lemma {:induction false} AllReset(cooldown: int, r: Resets, slots: nat, now: real)
    requires r.last == None && slots <= |r.passed| && forall s :: 0 <= s < slots ==> r.passed[s].None?
    ensures var after := RunFrom(cooldown, r, AllAtOnce(slots, now));
      after.times == r.times + seq(slots, _ => now) && after.passed == r.passed
    decreases slots
  {
    hide RunFrom, AllAtOnce;
    if slots == 0 {
      NoneAtOnce(cooldown, r, now);
      assert r.times + seq(0, _ => now) == r.times;
    } else {
      AllAtOnceNests(cooldown, r, slots, now);
      var checked := Next(cooldown, r, Checks(slots - 1, now));
      AllReset(cooldown, checked, slots - 1, now);
      assert checked.passed[slots - 1 := None] == r.passed;
      assert seq(slots, _ => now) == seq(slots - 1, _ => now) + [now];
    }
  }

  /** No fewer will do: `slots` overlapping requests can all reset at the same moment. */
  lemma ResetsAtOnce(cooldown: int, slots: nat, now: real)
    ensures Run(cooldown, slots, AllAtOnce(slots, now)).times == seq(slots, _ => now)
  {
    AllReset(cooldown, Start(slots), slots, now);
  }
}
