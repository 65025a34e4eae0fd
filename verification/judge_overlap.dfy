/** Judge requests that overlap. Every request has its own session: it loads the record, checks the loaded
    count, and when it commits writes back that count plus one, whatever has been written in between. */
module JudgeOverlap {
  import opened Collections

  /** What the request in one of the slots does; a slot holds one request at a time. */
  datatype Phase = Checks(slot: nat) | Commits(slot: nat)

  /** The stored count, the uses actually granted and carried out, and for every slot the count loaded by a
      request that was granted and has not committed yet. */
  datatype Budget = Budget(recorded: nat, uses: nat, loaded: seq<Option<nat>>)

  function Start(slots: nat): Budget {
    Budget(0, 0, seq(slots, _ => None))
  }

  function Next(limit: nat, b: Budget, phase: Phase): Budget {
    var slot := phase.slot;
    if slot >= |b.loaded| then b
    else match phase
      case Checks(_) =>
        if b.loaded[slot].None? && b.recorded < limit then b.(loaded := b.loaded[slot := Some(b.recorded)]) else b
      case Commits(_) =>
        if b.loaded[slot].Some? then Budget(b.loaded[slot].value + 1, b.uses + 1, b.loaded[slot := None]) else b
  }

  function RunFrom(limit: nat, b: Budget, phases: seq<Phase>): Budget {
    if phases == [] then b else Next(limit, RunFrom(limit, b, phases[..|phases| - 1]), phases[|phases| - 1])
  }

  function Run(limit: nat, slots: nat, phases: seq<Phase>): Budget {
    RunFrom(limit, Start(slots), phases)
  }

  lemma RunNext(limit: nat, b: Budget, phases: seq<Phase>, phase: Phase)
    ensures RunFrom(limit, b, phases + [phase]) == Next(limit, RunFrom(limit, b, phases), phase)
  {
    assert (phases + [phase])[..|phases|] == phases;
  }

  lemma {:induction false} RunConcat(limit: nat, b: Budget, first: seq<Phase>, second: seq<Phase>)
    ensures RunFrom(limit, b, first + second) == RunFrom(limit, RunFrom(limit, b, first), second)
    decreases |second|
  {
    if second == [] {
      assert first + second == first;
    } else {
      var n := |second| - 1;
      assert first + second == first + second[..n] + [second[n]];
      RunConcat(limit, b, first, second[..n]);
      RunNext(limit, b, first + second[..n], second[n]);
    }
  }

  // ---- when the count is exact ----

  ghost predicate Below(b: Budget, limit: nat) {
    && b.recorded <= limit
    && forall i :: 0 <= i < |b.loaded| && b.loaded[i].Some? ==> b.loaded[i].value < limit
  }

  /** Every request of the run that committed still held the stored count when it did. */
  ghost predicate AllCurrent(limit: nat, slots: nat, phases: seq<Phase>) {
    phases == [] ||
    (var before := Run(limit, slots, phases[..|phases| - 1]);
     var last := phases[|phases| - 1];
     && AllCurrent(limit, slots, phases[..|phases| - 1])
     && (last.Commits? && last.slot < |before.loaded| && before.loaded[last.slot].Some? ==>
           before.loaded[last.slot].value == before.recorded))
  }

  lemma {:induction false} CountsLag(limit: nat, slots: nat, phases: seq<Phase>)
    ensures var b := Run(limit, slots, phases);
      && Below(b, limit) && |b.loaded| == slots
      && (if AllCurrent(limit, slots, phases)
          then b.recorded == b.uses && forall i :: 0 <= i < slots && b.loaded[i].Some? ==> b.loaded[i].value <= b.uses
          else b.recorded < b.uses && forall i :: 0 <= i < slots && b.loaded[i].Some? ==> b.loaded[i].value < b.uses)
  {
    if phases != [] {
      CountsLag(limit, slots, phases[..|phases| - 1]);
    }
  }

  /** The stored count is the number of uses if and only if no commit wrote back an outdated copy; an update
      once lost is never made up for. The stored count itself never exceeds the limit, so it is the uses
      that do. */
  lemma RecordedIffCurrent(limit: nat, slots: nat, phases: seq<Phase>)
    ensures var b := Run(limit, slots, phases);
      && b.recorded <= limit && b.recorded <= b.uses
      && (b.recorded == b.uses <==> AllCurrent(limit, slots, phases))
      && (AllCurrent(limit, slots, phases) ==> b.uses <= limit)
  {
    CountsLag(limit, slots, phases);
  }

  // ---- how much overlapping requests can overspend ----

  /** The number of ways to walk `right` steps right and `up` steps up: the binomial coefficient of
      `right + up` over `up`. */
  function Paths(right: nat, up: nat): nat {
    if right == 0 || up == 0 then 1 else Paths(right - 1, up) + Paths(right, up - 1)
  }

  function Factorial(n: nat): nat {
    if n == 0 then 1 else n * Factorial(n - 1)
  }

  /** That is, `(right + up)!` over `right!` and `up!`. */
  lemma {:induction false} PathsAreBinomial(right: nat, up: nat)
    ensures Paths(right, up) * (Factorial(right) * Factorial(up)) == Factorial(right + up)
  {
    if right > 0 && up > 0 {
      PathsAreBinomial(right - 1, up);
      PathsAreBinomial(right, up - 1);
      var fr, fu := Factorial(right - 1), Factorial(up - 1);
      Distribute(Paths(right - 1, up), Paths(right, up - 1), right, up, fr, fu);
      assert Factorial(right) == right * fr && Factorial(up) == up * fu;
      var rest := Factorial(right + up - 1);
      assert right * rest + up * rest == (right + up) * rest;
    }
  }

  lemma Distribute(a: int, b: int, r: int, u: int, fr: int, fu: int)
    ensures (a + b) * ((r * fr) * (u * fu)) == r * (a * (fr * (u * fu))) + u * (b * ((r * fr) * fu))
  {
    var x, y := fr * (u * fu), (r * fr) * fu;
    assert (r * fr) * (u * fu) == r * x;
    assert (r * fr) * (u * fu) == u * y;
    assert (a + b) * (r * x) == a * (r * x) + b * (r * x);
    assert a * (r * x) == r * (a * x);
    assert b * (u * y) == u * (b * y);
  }

  /** The ways for one step right less, none when there is no step to spare. */
  function Fewer(right: nat, up: nat): nat {
    if right == 0 then 0 else Paths(right - 1, up)
  }

  lemma FewerSplits(right: nat, up: nat)
    requires up >= 1
    ensures Fewer(right, up) + Paths(right, up - 1) == Paths(right, up)
  {
  }

  lemma {:induction false} PathsGrow(right: nat, more: nat, up: nat)
    requires right <= more
    ensures 1 <= Paths(right, up) <= Paths(more, up)
    ensures Fewer(right, up) <= Fewer(more, up)
    decreases up, more
  {
    if up > 0 && more > 0 {
      if right > 0 {
        PathsGrow(right - 1, more - 1, up);
        PathsGrow(right, more, up - 1);
      } else {
        PathsGrow(0, more - 1, up);
      }
    }
  }

  /** A further step right is worth more to whoever already has more of them. */
  lemma {:induction false} FewerIsConvex(right: nat, more: nat, extra: nat, up: nat)
    requires right <= more && up >= 1
    ensures Fewer(right + extra, up) - Fewer(right, up) <= Fewer(more + extra, up) - Fewer(more, up)
    decreases extra
  {
    if extra > 0 {
      FewerIsConvex(right, more, extra - 1, up);
      FewerSplits(right + extra - 1, up);
      FewerSplits(more + extra - 1, up);
      PathsGrow(right + extra - 1, more + extra - 1, up - 1);
    }
  }

  function Free(): Option<nat> -> bool {
    (copy: Option<nat>) => copy.None?
  }

  function Beyond(level: int): Option<nat> -> bool {
    (copy: Option<nat>) => copy.Some? && copy.value > level
  }

  /** How many slots see a count above `level`: their loaded copy, or the stored count if they are free. */
  function Above(b: Budget, level: int): nat {
    CountIf(b.loaded, Beyond(level)) + (if b.recorded > level then CountIf(b.loaded, Free()) else 0)
  }

  /** What the slots have used up of the bound, level by level: a slot that has moved above a level can no
      longer load it. */
  function Spent(b: Budget, limit: nat, level: nat): nat
    decreases limit - level
  {
    if level >= limit then 0 else Fewer(Above(b, level), limit - level) + Spent(b, limit, level + 1)
  }

  lemma {:induction false} SlotsBound(loaded: seq<Option<nat>>, level: int)
    ensures CountIf(loaded, Beyond(level)) + CountIf(loaded, Free()) <= |loaded|
  {
    if loaded != [] {
      SlotsBound(loaded[1..], level);
    }
  }

  lemma {:induction false} HigherIsFewer(loaded: seq<Option<nat>>, level: int, higher: int)
    requires level <= higher
    ensures CountIf(loaded, Beyond(higher)) <= CountIf(loaded, Beyond(level))
  {
    if loaded != [] {
      HigherIsFewer(loaded[1..], level, higher);
    }
  }

  /** All of it together is the number of paths. */
  lemma {:induction false} SpentBound(b: Budget, limit: nat, level: nat)
    requires level <= limit
    ensures Spent(b, limit, level) + 1 <= Paths(|b.loaded|, limit - level)
    decreases limit - level
  {
    if level < limit {
      SpentBound(b, limit, level + 1);
      SlotsBound(b.loaded, level);
      PathsGrow(Above(b, level), |b.loaded|, limit - level);
      FewerSplits(|b.loaded|, limit - level);
    }
  }

  /** Loading a copy is not visible to the levels. */
  lemma CheckKeepsAbove(limit: nat, b: Budget, slot: nat, level: int)
    ensures Above(Next(limit, b, Checks(slot)), level) == Above(b, level)
  {
    if slot < |b.loaded| && b.loaded[slot].None? && b.recorded < limit {
      CountIfUpdate(b.loaded, slot, Some(b.recorded), Beyond(level));
      CountIfUpdate(b.loaded, slot, Some(b.recorded), Free());
    }
  }

  lemma {:induction false} SameSpent(b: Budget, after: Budget, limit: nat, level: nat)
    requires forall t :: Above(after, t) == Above(b, t)
    ensures Spent(after, limit, level) == Spent(b, limit, level)
    decreases limit - level
  {
    if level < limit {
      SameSpent(b, after, limit, level + 1);
    }
  }

  ghost predicate Committing(limit: nat, b: Budget, slot: nat, after: Budget) {
    slot < |b.loaded| && b.loaded[slot].Some? && b.loaded[slot].value < limit && after == Next(limit, b, Commits(slot))
  }

  /** What a commit does at each level, with `others` the copies of the other slots above it. */
  lemma CommitMoves(limit: nat, b: Budget, slot: nat, after: Budget, level: int)
    requires Committing(limit, b, slot, after)
    ensures var copy, free := b.loaded[slot].value, CountIf(b.loaded, Free());
      var others := CountIf(after.loaded, Beyond(level));
      && Above(b, level) == others + (if copy > level then 1 else 0) + (if b.recorded > level then free else 0)
      && Above(after, level) == others + (if copy >= level then free + 1 else 0)
  {
    CountIfUpdate(b.loaded, slot, None, Beyond(level));
    CountIfUpdate(b.loaded, slot, None, Free());
  }

  /** Above the committed count the free slots may fall back; this is the most that can give back. */
  lemma {:induction false} LossAbove(limit: nat, b: Budget, slot: nat, after: Budget, others: nat, level: nat)
    requires Committing(limit, b, slot, after) && b.loaded[slot].value < level <= limit
    requires others == CountIf(after.loaded, Beyond(b.loaded[slot].value))
    ensures var free := CountIf(b.loaded, Free());
      Spent(b, limit, level) + Paths(others, limit - level)
        <= Spent(after, limit, level) + Paths(others + free, limit - level)
    decreases limit - level
  {
    var free := CountIf(b.loaded, Free());
    if level < limit {
      LossAbove(limit, b, slot, after, others, level + 1);
      CommitMoves(limit, b, slot, after, level);
      HigherIsFewer(after.loaded, b.loaded[slot].value, level);
      var up := limit - level;
      var here := CountIf(after.loaded, Beyond(level));
      PathsGrow(Above(b, level), here + free, up);
      FewerIsConvex(here, others, free, up);
      FewerSplits(others, up);
      FewerSplits(others + free, up);
      hide CountIf, Paths, Fewer, Above;
    }
  }

  /** What the level of the copy gains outweighs what the levels above it give back. */
  lemma GainCoversLoss(others: nat, free: nat, up: nat, seen: nat, before: nat, after: nat)
    requires up >= 1 && seen <= others + free
    requires before + Paths(others, up - 1) <= after + Paths(others + free, up - 1)
    ensures Fewer(others + free + 1, up) + after >= Fewer(seen, up) + before + 1
  {
    PathsGrow(seen, others + free, up);
    PathsGrow(others, others + free, up - 1);
    FewerSplits(others + free, up);
  }

  lemma CommitAtItsLevel(limit: nat, b: Budget, slot: nat, after: Budget)
    requires Committing(limit, b, slot, after)
    ensures var level := b.loaded[slot].value;
      Spent(after, limit, level) >= Spent(b, limit, level) + 1
  {
    var copy, free := b.loaded[slot].value, CountIf(b.loaded, Free());
    var others := CountIf(after.loaded, Beyond(copy));
    CommitMoves(limit, b, slot, after, copy);
    LossAbove(limit, b, slot, after, others, copy + 1);
    hide CountIf, Above, Next, Paths, Fewer;
    GainCoversLoss(others, free, limit - copy, Above(b, copy), Spent(b, limit, copy + 1), Spent(after, limit, copy + 1));
  }

  /** A commit uses up at least one of the bound at the level of its copy, over and above what it gives back. */
  lemma {:induction false} CommitSpends(limit: nat, b: Budget, slot: nat, after: Budget, level: nat)
    requires Committing(limit, b, slot, after) && level <= b.loaded[slot].value
    ensures Spent(after, limit, level) >= Spent(b, limit, level) + 1
    decreases limit - level
  {
    if level == b.loaded[slot].value {
      CommitAtItsLevel(limit, b, slot, after);
    } else {
      CommitMoves(limit, b, slot, after, level);
      CommitSpends(limit, b, slot, after, level + 1);
      hide CountIf, Above, Next;
      PathsGrow(Above(b, level), Above(after, level), limit - level);
      hide Paths, Fewer;
    }
  }

  lemma {:induction false} NothingSpentAtStart(limit: nat, slots: nat, level: nat)
    ensures Spent(Start(slots), limit, level) == 0
    decreases limit - level
  {
    if level < limit {
      NothingSpentAtStart(limit, slots, level + 1);
      NoneBeyond(slots, level);
    }
  }

  lemma {:induction false} NoneBeyond(slots: nat, level: nat)
    ensures CountIf(Start(slots).loaded, Beyond(level)) == 0
  {
    if slots > 0 {
      assert Start(slots).loaded[1..] == Start(slots - 1).loaded;
      NoneBeyond(slots - 1, level);
    }
  }

  lemma {:induction false} UsesAreSpent(limit: nat, slots: nat, phases: seq<Phase>)
    ensures var b := Run(limit, slots, phases);
      b.uses <= Spent(b, limit, 0)
  {
    if phases == [] {
      NothingSpentAtStart(limit, slots, 0);
    } else {
      var earlier, last := phases[..|phases| - 1], phases[|phases| - 1];
      var before := Run(limit, slots, earlier);
      UsesAreSpent(limit, slots, earlier);
      CountsLag(limit, slots, earlier);
      if last.Checks? {
        forall level ensures Above(Next(limit, before, last), level) == Above(before, level) {
          CheckKeepsAbove(limit, before, last.slot, level);
        }
        SameSpent(before, Next(limit, before, last), limit, 0);
      } else if last.slot < slots && before.loaded[last.slot].Some? {
        CommitSpends(limit, before, last.slot, Next(limit, before, last), 0);
      }
    }
  }

  /** However requests overlap, with `slots` of them in flight at once a budget of `limit` is used fewer times
      than there are paths of `slots` by `limit` steps. */
  lemma OverspendBound(limit: nat, slots: nat, phases: seq<Phase>)
    ensures Run(limit, slots, phases).uses < Paths(slots, limit)
  {
    UsesAreSpent(limit, slots, phases);
    SpentBound(Run(limit, slots, phases), limit, 0);
    CountsLag(limit, slots, phases);
  }

  /** The schedule that overspends most: one request holds on to the lowest count while all others use up the
      budget, and then puts the count back to the next one. */
  function Worst(limit: nat, slots: nat, count: nat): seq<Phase>
    decreases limit - count, slots
  {
    if slots == 0 || count >= limit then []
    else
      [Checks(slots - 1)] + Worst(limit, slots - 1, count) + [Commits(slots - 1)] + Worst(limit, slots, count + 1)
  }

  lemma {:induction false} WorstUses(limit: nat, slots: nat, b: Budget)
    requires b.recorded <= limit && slots <= |b.loaded|
    requires forall i :: 0 <= i < slots ==> b.loaded[i].None?
    ensures var after := RunFrom(limit, b, Worst(limit, slots, b.recorded));
      && after.uses + 1 == b.uses + Paths(slots, limit - b.recorded)
      && after.loaded == b.loaded
      && after.recorded == if slots == 0 then b.recorded else limit
    decreases limit - b.recorded, slots
  {
    hide Worst, RunFrom;
    if slots == 0 || b.recorded == limit {
      WorstEmpty(limit, slots, b);
    } else {
      var top, count := slots - 1, b.recorded;
      WorstRuns(limit, slots, b);
      var held := Next(limit, b, Checks(top));
      WorstUses(limit, top, held);
      var used := RunFrom(limit, held, Worst(limit, top, count));
      var back := Next(limit, used, Commits(top));
      assert used.loaded == b.loaded[top := Some(count)] && back.loaded == b.loaded;
      assert back.recorded == count + 1 && back.uses == used.uses + 1;
      hide Next;
      WorstUses(limit, slots, back);
    }
  }

  lemma WorstEmpty(limit: nat, slots: nat, b: Budget)
    requires slots == 0 || b.recorded == limit
    ensures RunFrom(limit, b, Worst(limit, slots, b.recorded)) == b
  {
  }

  lemma WorstRuns(limit: nat, slots: nat, b: Budget)
    requires slots > 0 && b.recorded < limit
    ensures var top, count := slots - 1, b.recorded;
      RunFrom(limit, b, Worst(limit, slots, count)) ==
        RunFrom(limit,
                Next(limit, RunFrom(limit, Next(limit, b, Checks(top)), Worst(limit, top, count)), Commits(top)),
                Worst(limit, slots, count + 1))
  {
    var top, count := slots - 1, b.recorded;
    var inner, rest := Worst(limit, top, count), Worst(limit, slots, count + 1);
    assert Worst(limit, slots, count) == [Checks(top)] + inner + [Commits(top)] + rest;
    RunOne(limit, b, Checks(top));
    hide Worst, RunFrom, Next;
    RunConcat(limit, b, [Checks(top)] + inner + [Commits(top)], rest);
    RunNext(limit, b, [Checks(top)] + inner, Commits(top));
    RunConcat(limit, b, [Checks(top)], inner);
  }

  lemma RunOne(limit: nat, b: Budget, phase: Phase)
    ensures RunFrom(limit, b, [phase]) == Next(limit, b, phase)
  {
    assert [phase][..0] == [];
  }

  /** And the bound is reached, for every limit and every number of overlapping requests. */
  lemma OverspendReached(limit: nat, slots: nat)
    ensures Run(limit, slots, Worst(limit, slots, 0)).uses + 1 == Paths(slots, limit)
  {
    WorstUses(limit, slots, Start(slots));
  }

  /** One request at a time keeps to the limit; two at a time can reach `limit * (limit + 3) / 2` uses. */
  lemma {:induction false} PathsOfFew(limit: nat)
    ensures Paths(1, limit) == limit + 1
    ensures 2 * Paths(2, limit) == (limit + 1) * (limit + 2)
  {
    if limit > 0 {
      PathsOfFew(limit - 1);
    }
  }

  /** The least overspending: two requests use a budget of one twice, and one use is recorded. */
  lemma LostUpdate()
    ensures Run(1, 2, [Checks(0), Checks(1), Commits(0), Commits(1)]) == Budget(1, 2, [None, None])
  {
    var b := Start(2);
    assert b.loaded == [None, None];
    RunOne(1, b, Checks(0));
    hide RunFrom;
    RunNext(1, b, [Checks(0)], Checks(1));
    RunNext(1, b, [Checks(0)] + [Checks(1)], Commits(0));
    RunNext(1, b, [Checks(0)] + [Checks(1)] + [Commits(0)], Commits(1));
    assert [Checks(0)] + [Checks(1)] + [Commits(0)] + [Commits(1)] == [Checks(0), Checks(1), Commits(0), Commits(1)];
  }
}
