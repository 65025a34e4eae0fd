/** Feedback submissions that overlap: each looks up the latest record of its thread in one statement and inserts
    in another. */
module FeedbackRaces {
  import opened Collections
  import opened Learning
  import opened FeedbackRuns

  /** A submission and the record it found. */
  datatype Found = Found(s: Submission, prior: Option<Feedback>)

  datatype World = World(rows: seq<Feedback>, open: map<int, Found>)

  datatype Event = Looks(reader: int, s: Submission) | Stores(writer: int)

  function RevisionOf(prior: Option<Feedback>): nat {
    if prior.Some? then prior.value.revision else 0
  }

  function RowFor(f: Found): Feedback {
    Feedback(f.s.actor, Truncate(f.s.kind, KIND_LENGTH), f.s.target, RevisionOf(f.prior) + 1, f.s.feedbackType)
  }

  predicate Repeats(f: Found) {
    f.prior.Some? && f.prior.value.feedbackType == f.s.feedbackType
  }

  predicate Refused(rows: seq<Feedback>, f: Found) {
    !Repeats(f) && Collides(rows, RowFor(f))
  }

  predicate Added(rows: seq<Feedback>, f: Found) {
    !Repeats(f) && !Collides(rows, RowFor(f))
  }

  function Happen(w: World, e: Event): World {
    match e
    case Looks(reader, s) => w.(open := w.open[reader := Found(s, Prior(w.rows, s.actor, s.kind, s.target))])
    case Stores(writer) =>
      if writer !in w.open then w
      else
        var f := w.open[writer];
        World(if Added(w.rows, f) then w.rows + [RowFor(f)] else w.rows, w.open - {writer})
  }

  function After(events: seq<Event>): World {
    if events == [] then World([], map[]) else Happen(After(events[..|events| - 1]), events[|events| - 1])
  }

  /** A submission that nobody interleaves with is one atomic submission. */
  lemma UndisturbedIsAtomic(w: World, reader: int, s: Submission)
    ensures Happen(Happen(w, Looks(reader, s)), Stores(reader)).rows == AfterFeedback(w.rows, s.actor, s.kind, s.target, s.feedbackType)
  {
  }

  ghost predicate ShortKindsOnly(events: seq<Event>) {
    forall i :: 0 <= i < |events| && events[i].Looks? ==> |events[i].s.kind| <= KIND_LENGTH
  }

  function ThreadOf(rows: seq<Feedback>, s: Submission): seq<Feedback> {
    Thread(rows, s.actor, s.kind, s.target)
  }

  /** What a submission found was the latest record at some time: no later than the latest now, as long as the
      thread is in order. */
  ghost predicate FoundEarlier(rows: seq<Feedback>, f: Found) {
    && |f.s.kind| <= KIND_LENGTH
    && (Contiguous(ThreadOf(rows, f.s)) ==> RevisionOf(f.prior) <= |ThreadOf(rows, f.s)|)
  }

  ghost predicate Sound(w: World) {
    forall r :: r in w.open ==> FoundEarlier(w.rows, w.open[r])
  }

  lemma AddingKeepsFound(rows: seq<Feedback>, row: Feedback, f: Found)
    requires FoundEarlier(rows, f)
    ensures FoundEarlier(rows + [row], f)
  {
    var thread := ThreadOf(rows, f.s);
    RowAdded(rows, row, f.s.actor, f.s.kind, f.s.target);
    var after := ThreadOf(rows + [row], f.s);
    if Contiguous(after) {
      forall i | 0 <= i < |thread| ensures thread[i].revision == i + 1 {
        assert after[i] == thread[i];
      }
    }
  }

  lemma LookingIsSound(rows: seq<Feedback>, s: Submission)
    requires |s.kind| <= KIND_LENGTH
    ensures FoundEarlier(rows, Found(s, Prior(rows, s.actor, s.kind, s.target)))
  {
    if Contiguous(ThreadOf(rows, s)) {
      PriorIsLast(rows, s.actor, s.kind, s.target);
    }
  }

  lemma {:induction false} AlwaysSound(events: seq<Event>)
    requires ShortKindsOnly(events)
    ensures Sound(After(events))
  {
    if events != [] {
      var w, last := After(events[..|events| - 1]), events[|events| - 1];
      AlwaysSound(events[..|events| - 1]);
      match last {
        case Looks(reader, s) => LookingIsSound(w.rows, s);
        case Stores(writer) =>
          if writer in w.open {
            forall r | r in w.open ensures FoundEarlier(w.rows + [RowFor(w.open[writer])], w.open[r]) {
              AddingKeepsFound(w.rows, RowFor(w.open[writer]), w.open[r]);
            }
          }
      }
      hide FoundEarlier, Prior, Collides;
    }
  }

  /** What the submission found is still the latest record of its thread. */
  predicate Current(rows: seq<Feedback>, f: Found) {
    RevisionOf(f.prior) == |ThreadOf(rows, f.s)|
  }

  /** An insert by an identified actor is refused exactly when what it found is out of date. */
  lemma RefusedIffOutdated(rows: seq<Feedback>, f: Found)
    requires Contiguous(ThreadOf(rows, f.s)) && FoundEarlier(rows, f) && f.s.actor.Some? && !Repeats(f)
    ensures Refused(rows, f) <==> !Current(rows, f)
  {
    var thread, row := ThreadOf(rows, f.s), RowFor(f);
    if Current(rows, f) && Collides(rows, row) {
      var i :| 0 <= i < |rows| && SameThread(rows[i], row.actor, row.kind, row.target) && rows[i].revision == row.revision;
      ThreadHasRow(rows, i, f.s.actor, f.s.kind, f.s.target);
    }
    if !Current(rows, f) {
      ThreadRowExists(rows, f.s.actor, f.s.kind, f.s.target, RevisionOf(f.prior));
    }
  }

  lemma {:induction false} ThreadRowExists(rows: seq<Feedback>, actor: Option<int>, kind: string, target: int, k: nat)
    requires k < |Thread(rows, actor, kind, target)|
    ensures exists i :: 0 <= i < |rows| && SameThread(rows[i], actor, kind, target) && rows[i] == Thread(rows, actor, kind, target)[k]
  {
    var n := |rows| - 1;
    var earlier := Thread(rows[..n], actor, kind, target);
    if k < |earlier| {
      ThreadRowExists(rows[..n], actor, kind, target, k);
      var i :| 0 <= i < n && SameThread(rows[..n][i], actor, kind, target) && rows[..n][i] == earlier[k];
      assert rows[i] == rows[..n][i];
    } else {
      assert rows[n] == Thread(rows, actor, kind, target)[k];
    }
  }

  /** An insert keeps its thread in order exactly when what it found is still the latest record. */
  lemma InOrderIffCurrent(rows: seq<Feedback>, f: Found)
    requires Contiguous(ThreadOf(rows, f.s)) && |f.s.kind| <= KIND_LENGTH
    ensures Contiguous(ThreadOf(rows + [RowFor(f)], f.s)) <==> Current(rows, f)
  {
    RowAdded(rows, RowFor(f), f.s.actor, f.s.kind, f.s.target);
    NextInOrder(ThreadOf(rows, f.s), RowFor(f));
    hide Thread, Contiguous;
  }

  lemma NextInOrder(thread: seq<Feedback>, row: Feedback)
    ensures Contiguous(thread + [row]) <==> Contiguous(thread) && row.revision == |thread| + 1
  {
    if Contiguous(thread + [row]) {
      assert (thread + [row])[|thread|].revision == |thread| + 1;
      forall i | 0 <= i < |thread| ensures thread[i].revision == i + 1 {
        assert (thread + [row])[i] == thread[i];
      }
    }
  }

  predicate Concerns(s: Submission, actor: Option<int>, kind: string, target: int) {
    s.actor == actor && s.kind == kind && s.target == target
  }

  /** Of the inserts into a thread, every one found what was still its latest record. */
  ghost predicate AllCurrent(events: seq<Event>, actor: Option<int>, kind: string, target: int) {
    events == [] ||
    (var w := After(events[..|events| - 1]);
     var last := events[|events| - 1];
     && AllCurrent(events[..|events| - 1], actor, kind, target)
     && (last.Stores? && last.writer in w.open && Concerns(w.open[last.writer].s, actor, kind, target) && Added(w.rows, w.open[last.writer]) ==>
           Current(w.rows, w.open[last.writer])))
  }

  lemma OtherThreadKept(rows: seq<Feedback>, f: Found, actor: Option<int>, kind: string, target: int)
    requires |f.s.kind| <= KIND_LENGTH && !Concerns(f.s, actor, kind, target)
    ensures Thread(rows + [RowFor(f)], actor, kind, target) == Thread(rows, actor, kind, target)
  {
    RowAdded(rows, RowFor(f), actor, kind, target);
  }

  lemma OutOfOrderStays(rows: seq<Feedback>, row: Feedback, actor: Option<int>, kind: string, target: int)
    requires !Contiguous(Thread(rows, actor, kind, target))
    ensures !Contiguous(Thread(rows + [row], actor, kind, target))
  {
    var thread := Thread(rows, actor, kind, target);
    RowAdded(rows, row, actor, kind, target);
    var i :| 0 <= i < |thread| && thread[i].revision != i + 1;
    assert Thread(rows + [row], actor, kind, target)[i] == thread[i];
  }

  /** With submissions overlapping in any way, a thread is numbered 1, 2, 3 and so on if and only if every insert
      into it had found what was still its latest record. */
  lemma {:induction false} InOrderIffAllCurrent(events: seq<Event>, actor: Option<int>, kind: string, target: int)
    requires ShortKindsOnly(events)
    ensures Contiguous(Thread(After(events).rows, actor, kind, target)) <==> AllCurrent(events, actor, kind, target)
  {
    if events != [] {
      var earlier, last := events[..|events| - 1], events[|events| - 1];
      var w := After(earlier);
      InOrderIffAllCurrent(earlier, actor, kind, target);
      AlwaysSound(earlier);
      if last.Stores? && last.writer in w.open && Added(w.rows, w.open[last.writer]) {
        StoreInOrderIff(w.rows, w.open[last.writer], actor, kind, target);
      }
      hide Thread, Contiguous, Added, Current;
    }
  }

  lemma StoreInOrderIff(rows: seq<Feedback>, f: Found, actor: Option<int>, kind: string, target: int)
    requires FoundEarlier(rows, f)
    ensures Contiguous(Thread(rows + [RowFor(f)], actor, kind, target)) <==>
      Contiguous(Thread(rows, actor, kind, target)) && (Concerns(f.s, actor, kind, target) ==> Current(rows, f))
  {
    if !Concerns(f.s, actor, kind, target) {
      OtherThreadKept(rows, f, actor, kind, target);
    } else if Contiguous(Thread(rows, actor, kind, target)) {
      InOrderIffCurrent(rows, f);
    } else {
      OutOfOrderStays(rows, RowFor(f), actor, kind, target);
    }
  }

  /** The unique constraint sees to that for every identified actor. */
  lemma {:induction false} ActorsStayInOrder(events: seq<Event>, actor: Option<int>, kind: string, target: int)
    requires ShortKindsOnly(events) && actor.Some?
    ensures Contiguous(Thread(After(events).rows, actor, kind, target))
  {
    if events != [] {
      var earlier, last := events[..|events| - 1], events[|events| - 1];
      var w := After(earlier);
      ActorsStayInOrder(earlier, actor, kind, target);
      AlwaysSound(earlier);
      if last.Stores? && last.writer in w.open && Added(w.rows, w.open[last.writer]) {
        var f := w.open[last.writer];
        StoreInOrderIff(w.rows, f, actor, kind, target);
        if Concerns(f.s, actor, kind, target) {
          RefusedIffOutdated(w.rows, f);
        }
      }
      hide Thread, Contiguous, Current, Collides;
    }
  }

  /** A double click: both requests look before either stores. */
  function DoubleClick(s: Submission): seq<Event> {
    [Looks(1, s)] + [Looks(2, s)] + [Stores(1)]
  }

  /** An identified actor's second click is refused; without an actor there are two records with revision 1. */
  lemma DoubleClickFails(s: Submission)
    ensures var w := After(DoubleClick(s));
      && 2 in w.open
      && (s.actor.Some? ==> Refused(w.rows, w.open[2]))
      && (s.actor.None? ==>
            var rows := Happen(w, Stores(2)).rows;
            |rows| == 2 && rows[0] == rows[1] && rows[0].revision == 1)
  {
    assert After([]) == World([], map[]);
    AfterNext([], Looks(1, s));
    AfterNext([Looks(1, s)], Looks(2, s));
    AfterNext([Looks(1, s)] + [Looks(2, s)], Stores(1));
    assert [] + [Looks(1, s)] == [Looks(1, s)];
    hide After;
    var row := RowFor(Found(s, None));
    var w := After(DoubleClick(s));
    assert w.rows == [row] && w.open[2] == Found(s, None);
    if s.actor.Some? {
      assert SameThread(w.rows[0], row.actor, row.kind, row.target) && w.rows[0].revision == row.revision;
    }
  }

  lemma AfterNext(events: seq<Event>, e: Event)
    ensures After(events + [e]) == Happen(After(events), e)
  {
    assert (events + [e])[..|events|] == events;
  }
}
