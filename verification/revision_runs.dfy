/** Whole runs over one incident's revisions: atomic generations, and generations whose number is read
    and stored in separate steps. */
module RevisionRuns {
  import opened Collections
  import opened Revisions

  // ---- atomic generations ----

  datatype Op = Generate(keep: int) | Prune(pruneTo: int)

  datatype Ledger = Ledger(numbers: Numbers, issued: seq<int>)

  function Apply(l: Ledger, op: Op): Ledger {
    match op
    case Generate(keep) =>
      var number := Latest(l.numbers) + 1;
      Ledger(Pruned(l.numbers + {number}, keep), l.issued + [number])
    case Prune(keep) => l.(numbers := Pruned(l.numbers, keep))
  }

  function Run(ops: seq<Op>): Ledger {
    if ops == [] then Ledger({}, []) else Apply(Run(ops[..|ops| - 1]), ops[|ops| - 1])
  }

  ghost predicate CountsUp(issued: seq<int>) {
    forall i :: 0 <= i < |issued| ==> issued[i] == i + 1
  }

  function Max(a: int, b: int): int {
    if a >= b then a else b
  }

  lemma NewestOfInterval(lo: int, hi: int, keep: nat)
    ensures Newest(Interval(lo, hi), keep) == Interval(Max(lo, hi - keep + 1), hi)
  {
    forall n | lo <= n <= hi ensures |Newer(Interval(lo, hi), n)| == hi - n {
      assert Newer(Interval(lo, hi), n) == Interval(n + 1, hi);
    }
  }

  function PrunedFrom(lo: int, hi: int, keep: int): int {
    if keep <= 0 then lo else Max(lo, hi - keep + 1)
  }

  lemma IntervalStep(lo: int, n: nat, keep: int)
    requires 1 <= lo <= Max(1, n)
    ensures Latest(Interval(lo, n)) == n
    ensures Pruned(Interval(lo, n), keep) == Interval(PrunedFrom(lo, n, keep), n)
    ensures Pruned(Interval(lo, n) + {n + 1}, keep) == Interval(PrunedFrom(lo, n + 1, keep), n + 1)
  {
    hide Interval, Newest;
    assert Interval(lo, n) + {n + 1} == Interval(lo, n + 1);
    if n > 0 {
      assert n in Interval(lo, n);
    }
    if keep > 0 {
      NewestOfInterval(lo, n, keep);
      NewestOfInterval(lo, n + 1, keep);
    }
  }

  lemma {:induction false} RunIsInterval(ops: seq<Op>) returns (lo: int)
    ensures var l := Run(ops);
      && CountsUp(l.issued)
      && 1 <= lo <= Max(1, |l.issued|)
      && l.numbers == Interval(lo, |l.issued|)
  {
    hide Latest, Pruned, Interval;
    lo := 1;
    if ops == [] {
      assert Interval(1, 0) == {};
    } else {
      lo := RunIsInterval(ops[..|ops| - 1]);
      var n := |Run(ops[..|ops| - 1]).issued|;
      match ops[|ops| - 1] {
        case Generate(keep) =>
          IntervalStep(lo, n, keep);
          lo := PrunedFrom(lo, n + 1, keep);
        case Prune(keep) =>
          IntervalStep(lo, n, keep);
          lo := PrunedFrom(lo, n, keep);
      }
    }
  }

  /** However generations and prunes alternate, with whatever retention counts, an incident's revisions
      are numbered 1, 2, 3 and so on, and the latest of them is always still there. */
  lemma NumbersNeverReused(ops: seq<Op>)
    ensures CountsUp(Run(ops).issued)
    ensures Latest(Run(ops).numbers) == |Run(ops).issued|
  {
    var lo := RunIsInterval(ops);
  }

  /** The newest `keep` of the revisions 1 to `n`. */
  function Survivors(n: nat, keep: nat): (numbers: Numbers)
    requires keep >= 1
    ensures |numbers| == Min(n, keep)
  {
    Interval(Max(1, n - keep + 1), n)
  }

  lemma SurvivorsStep(n: nat, keep: nat)
    requires keep >= 1
    ensures Latest(Survivors(n, keep)) == n
    ensures Pruned(Survivors(n, keep), keep) == Survivors(n, keep)
    ensures Pruned(Survivors(n, keep) + {n + 1}, keep) == Survivors(n + 1, keep)
  {
    hide Interval, Pruned;
    IntervalStep(Max(1, n - keep + 1), n, keep);
  }

  /** Under one retention count the survivors are exactly the newest revisions. */
  lemma {:induction false} SurvivorsAreNewest(ops: seq<Op>, keep: nat)
    requires keep >= 1
    requires forall i :: 0 <= i < |ops| ==> ops[i] == Generate(keep) || ops[i] == Prune(keep)
    ensures Run(ops).numbers == Survivors(|Run(ops).issued|, keep)
  {
    if ops == [] {
      assert Interval(1, 0) == {};
    } else {
      hide Latest, Pruned, Survivors;
      SurvivorsAreNewest(ops[..|ops| - 1], keep);
      SurvivorsStep(|Run(ops[..|ops| - 1]).issued|, keep);
    }
  }

  // ---- generations in two steps ----

  datatype Move = Read(reader: int) | Store(writer: int) | PruneTo(count: int)

  /** The rows, every number ever stored, in order, and the number each worker has read but not stored. */
  datatype Race = Race(numbers: Numbers, issued: seq<int>, held: map<int, int>)

  /** Whether the move stores a row: the unique constraint only rejects numbers that are present. */
  predicate Stores(r: Race, move: Move) {
    move.Store? && move.writer in r.held && r.held[move.writer] !in r.numbers
  }

  function Advance(r: Race, move: Move): Race {
    match move
    case Read(worker) => r.(held := r.held[worker := Latest(r.numbers) + 1])
    case Store(worker) =>
      if Stores(r, move)
      then Race(r.numbers + {r.held[worker]}, r.issued + [r.held[worker]], r.held - {worker})
      else r.(held := r.held - {worker})
    case PruneTo(keep) => r.(numbers := Pruned(r.numbers, keep))
  }

  function After(moves: seq<Move>): Race {
    if moves == [] then Race({}, [], map[]) else Advance(After(moves[..|moves| - 1]), moves[|moves| - 1])
  }

  ghost predicate Sound(r: Race) {
    && (forall n :: n in r.issued <==> 1 <= n <= Latest(r.numbers))
    && r.numbers <= Elements(r.issued)
    && (r.issued == [] <==> r.numbers == {})
    && (forall worker :: worker in r.held ==> 1 <= r.held[worker] <= Latest(r.numbers) + 1)
  }

  lemma PruningKeepsLatest(numbers: Numbers, keep: int)
    ensures Latest(Pruned(numbers, keep)) == Latest(numbers)
    ensures Pruned(numbers, keep) <= numbers && (Pruned(numbers, keep) == {} <==> numbers == {})
  {
    if numbers != {} {
      assert Newer(numbers, Latest(numbers)) == {};
    }
  }

  lemma {:induction false} AlwaysSound(moves: seq<Move>)
    ensures Sound(After(moves))
  {
    if moves != [] {
      var before := After(moves[..|moves| - 1]);
      AlwaysSound(moves[..|moves| - 1]);
      match moves[|moves| - 1] {
        case Read(worker) =>
          if before.numbers != {} {
            assert Latest(before.numbers) in before.issued;
          }
        case Store(worker) =>
          if Stores(before, Store(worker)) {
            var r := before.held[worker];
            assert Latest(before.numbers + {r}) == Max(Latest(before.numbers), r);
          }
        case PruneTo(keep) => PruningKeepsLatest(before.numbers, keep);
      }
    }
  }

  /** Storing a number that was read earlier: it is a number no revision of the incident ever had exactly
      when it exceeds the latest surviving revision; otherwise it is rejected if that revision survives,
      and silently reused if it has been pruned in the meantime. */
  lemma StaleStore(moves: seq<Move>, worker: int)
    requires worker in After(moves).held
    ensures var r := After(moves);
      && (r.held[worker] !in r.issued <==> r.held[worker] > Latest(r.numbers))
      && (Stores(r, Store(worker)) && r.held[worker] in r.issued <==>
            r.held[worker] !in r.numbers && r.held[worker] <= Latest(r.numbers))
  {
    AlwaysSound(moves);
  }

  /** Every store of the run stores a number beyond the latest revision. */
  ghost predicate Guarded(moves: seq<Move>) {
    moves == [] ||
    (var before := After(moves[..|moves| - 1]);
     var last := moves[|moves| - 1];
     && Guarded(moves[..|moves| - 1])
     && (Stores(before, last) ==> before.held[last.writer] > Latest(before.numbers)))
  }

  lemma CountsUpAppend(issued: seq<int>, number: int)
    ensures CountsUp(issued + [number]) <==> CountsUp(issued) && number == |issued| + 1
  {
    if CountsUp(issued + [number]) {
      assert (issued + [number])[|issued|] == |issued| + 1;
      forall i | 0 <= i < |issued| ensures issued[i] == i + 1 {
        assert (issued + [number])[i] == issued[i];
      }
    }
  }

  lemma LatestCounts(r: Race)
    requires Sound(r) && CountsUp(r.issued)
    ensures Latest(r.numbers) == |r.issued|
  {
    if r.issued != [] {
      assert r.issued[|r.issued| - 1] in r.issued;
      assert Latest(r.numbers) in r.numbers;
    }
  }

  /** With interleaved generations the numbering counts up if and only if every store was still beyond
      the latest revision when it happened. */
  lemma {:induction false} CountsUpIffGuarded(moves: seq<Move>)
    ensures CountsUp(After(moves).issued) <==> Guarded(moves)
  {
    if moves != [] {
      var before := After(moves[..|moves| - 1]);
      var last := moves[|moves| - 1];
      CountsUpIffGuarded(moves[..|moves| - 1]);
      AlwaysSound(moves[..|moves| - 1]);
      if Stores(before, last) {
        CountsUpAppend(before.issued, before.held[last.writer]);
        if CountsUp(before.issued) {
          LatestCounts(before);
        }
      }
    }
  }

  /** Reading, storing and pruning without interruption is one atomic generation. */
  lemma UninterruptedIsAtomic(r: Race, l: Ledger, worker: int, keep: int)
    requires r.numbers == l.numbers && r.issued == l.issued
    ensures var done := Advance(Advance(Advance(r, Read(worker)), Store(worker)), PruneTo(keep));
      done.numbers == Apply(l, Generate(keep)).numbers && done.issued == Apply(l, Generate(keep)).issued
  {
  }

  lemma AfterNext(moves: seq<Move>, move: Move)
    ensures After(moves + [move]) == Advance(After(moves), move)
  {
    assert (moves + [move])[..|moves|] == moves;
  }

  /** Two workers read the number 1 and one of them stores it. */
  lemma TwoReaders()
    ensures After([Read(1), Read(2), Store(1)]) == Race({1}, [1], map[2 := 1])
  {
    assert After([]) == Race({}, [], map[]);
    hide After;
    AfterNext([], Read(1));
    AfterNext([Read(1)], Read(2));
    AfterNext([Read(1)] + [Read(2)], Store(1));
    assert [] + [Read(1)] == [Read(1)] && [Read(1)] + [Read(2)] + [Store(1)] == [Read(1), Read(2), Store(1)];
    assert {} + {1} == {1} && [] + [1] == [1];
    assert map[1 := 1, 2 := 1] - {1} == map[2 := 1];
  }

  /** While the other one waits, revision 2 is generated and revision 1 pruned; then it stores 1 again. */
  lemma PrunedNumberIsReused()
    ensures After([Read(1), Read(2), Store(1)] + [Read(1)] + [Store(1)] + [PruneTo(1)] + [Store(2)]).issued == [1, 2, 1]
  {
    hide After;
    var m3 := [Read(1), Read(2), Store(1)];
    TwoReaders();
    AfterNext(m3, Read(1));
    AfterNext(m3 + [Read(1)], Store(1));
    assert After(m3 + [Read(1)] + [Store(1)]) == Race({1, 2}, [1, 2], map[2 := 1]);
    AfterNext(m3 + [Read(1)] + [Store(1)], PruneTo(1));
    assert Pruned({1, 2}, 1) == {2} by {
      assert {1, 2} == Interval(1, 2);
      NewestOfInterval(1, 2, 1);
    }
    hide Pruned;
    AfterNext(m3 + [Read(1)] + [Store(1)] + [PruneTo(1)], Store(2));
  }
}
