/** Runs of analyst feedback: contiguous revisions, and the kinds for which they hold. */
module FeedbackRuns {
  import opened Collections
  import opened Learning

  datatype Submission = Submission(actor: Option<int>, kind: string, target: int, feedbackType: string)

  function Run(submissions: seq<Submission>): seq<Feedback> {
    if submissions == [] then []
    else
      var last := submissions[|submissions| - 1];
      AfterFeedback(Run(submissions[..|submissions| - 1]), last.actor, last.kind, last.target, last.feedbackType)
  }

  /** The rows about one target by one actor, in the order they were added. */
  function Thread(rows: seq<Feedback>, actor: Option<int>, kind: string, target: int): seq<Feedback> {
    if rows == [] then []
    else
      Thread(rows[..|rows| - 1], actor, kind, target) +
      (if SameThread(rows[|rows| - 1], actor, kind, target) then [rows[|rows| - 1]] else [])
  }

  /** What was submitted about one target by one actor, repeats of the latest opinion left out. */
  function Opinions(submissions: seq<Submission>, actor: Option<int>, kind: string, target: int): seq<string> {
    if submissions == [] then []
    else
      var earlier, last := Opinions(submissions[..|submissions| - 1], actor, kind, target), submissions[|submissions| - 1];
      if last.actor == actor && last.kind == kind && last.target == target &&
         (earlier == [] || earlier[|earlier| - 1] != last.feedbackType)
      then earlier + [last.feedbackType]
      else earlier
  }

  ghost predicate Contiguous(thread: seq<Feedback>) {
    forall i :: 0 <= i < |thread| ==> thread[i].revision == i + 1
  }

  function TypesOf(thread: seq<Feedback>): (types: seq<string>)
    ensures |types| == |thread|
  {
    seq(|thread|, i requires 0 <= i < |thread| => thread[i].feedbackType)
  }

  lemma {:induction false} PriorIsLast(rows: seq<Feedback>, actor: Option<int>, kind: string, target: int)
    requires Contiguous(Thread(rows, actor, kind, target))
    ensures var thread := Thread(rows, actor, kind, target);
      Prior(rows, actor, kind, target) == if thread == [] then None else Some(thread[|thread| - 1])
  {
    if rows != [] {
      var earlier := Thread(rows[..|rows| - 1], actor, kind, target);
      var thread := Thread(rows, actor, kind, target);
      assert forall i :: 0 <= i < |earlier| ==> thread[i] == earlier[i];
      PriorIsLast(rows[..|rows| - 1], actor, kind, target);
    }
  }

  lemma {:induction false} ThreadHasRow(rows: seq<Feedback>, i: nat, actor: Option<int>, kind: string, target: int)
    requires i < |rows| && SameThread(rows[i], actor, kind, target)
    ensures exists k :: 0 <= k < |Thread(rows, actor, kind, target)| && Thread(rows, actor, kind, target)[k] == rows[i]
  {
    var thread := Thread(rows, actor, kind, target);
    if i == |rows| - 1 {
      assert thread[|thread| - 1] == rows[i];
    } else {
      ThreadHasRow(rows[..|rows| - 1], i, actor, kind, target);
      var earlier := Thread(rows[..|rows| - 1], actor, kind, target);
      var k :| 0 <= k < |earlier| && earlier[k] == rows[i];
      assert thread[k] == rows[i];
    }
  }

  /** In a contiguous thread the next revision is free. */
  lemma NextRevisionIsFree(rows: seq<Feedback>, s: Submission)
    requires |s.kind| <= KIND_LENGTH && Contiguous(Thread(rows, s.actor, s.kind, s.target))
    ensures !Collides(rows, NewRow(rows, s.actor, s.kind, s.target, s.feedbackType))
    ensures NewRow(rows, s.actor, s.kind, s.target, s.feedbackType)
      == Feedback(s.actor, s.kind, s.target, |Thread(rows, s.actor, s.kind, s.target)| + 1, s.feedbackType)
  {
    PriorIsLast(rows, s.actor, s.kind, s.target);
    var row := NewRow(rows, s.actor, s.kind, s.target, s.feedbackType);
    if Collides(rows, row) {
      var i :| 0 <= i < |rows| && SameThread(rows[i], row.actor, row.kind, row.target) && rows[i].revision == row.revision;
      ThreadHasRow(rows, i, s.actor, s.kind, s.target);
    }
  }

  ghost predicate ShortKinds(submissions: seq<Submission>) {
    forall i :: 0 <= i < |submissions| ==> |submissions[i].kind| <= KIND_LENGTH
  }

  /** For kinds that fit the column, every thread is numbered 1, 2, 3 and so on, and records exactly the
      changes of opinion. */
  lemma {:induction false} ThreadsAreContiguous(submissions: seq<Submission>, actor: Option<int>, kind: string, target: int)
    requires ShortKinds(submissions)
    ensures var thread := Thread(Run(submissions), actor, kind, target);
      Contiguous(thread) && TypesOf(thread) == Opinions(submissions, actor, kind, target)
  {
    if submissions != [] {
      var n := |submissions| - 1;
      var s := submissions[n];
      var before := Run(submissions[..n]);
      ThreadsAreContiguous(submissions[..n], actor, kind, target);
      ThreadsAreContiguous(submissions[..n], s.actor, s.kind, s.target);
      SubmissionExtends(before, s, actor, kind, target);
    }
  }

  lemma RowAdded(rows: seq<Feedback>, row: Feedback, actor: Option<int>, kind: string, target: int)
    ensures Thread(rows + [row], actor, kind, target)
      == Thread(rows, actor, kind, target) + (if SameThread(row, actor, kind, target) then [row] else [])
  {
    assert (rows + [row])[..|rows|] == rows;
  }

  /** One submission adds to its own thread exactly when it changes the latest opinion, and to no other. */
  lemma SubmissionExtends(rows: seq<Feedback>, s: Submission, actor: Option<int>, kind: string, target: int)
    requires |s.kind| <= KIND_LENGTH && Contiguous(Thread(rows, s.actor, s.kind, s.target))
    requires Contiguous(Thread(rows, actor, kind, target))
    ensures var thread := Thread(rows, actor, kind, target);
      var after := Thread(AfterFeedback(rows, s.actor, s.kind, s.target, s.feedbackType), actor, kind, target);
      && Contiguous(after)
      && TypesOf(after) == TypesOf(thread) +
           (if s.actor == actor && s.kind == kind && s.target == target &&
               (thread == [] || TypesOf(thread)[|thread| - 1] != s.feedbackType) then [s.feedbackType] else [])
  {
    var thread := Thread(rows, actor, kind, target);
    var own := Thread(rows, s.actor, s.kind, s.target);
    var row := Feedback(s.actor, s.kind, s.target, |own| + 1, s.feedbackType);
    AddsUnlessRepeat(rows, s);
    RowAdded(rows, row, actor, kind, target);
    ThreadGrows(thread, row);
    hide AfterFeedback, Thread, TypesOf, Contiguous;
    if SameThread(row, actor, kind, target) {
      assert own == thread;
    }
  }

  lemma ThreadGrows(thread: seq<Feedback>, row: Feedback)
    requires Contiguous(thread)
    ensures row.revision == |thread| + 1 ==> Contiguous(thread + [row])
    ensures TypesOf(thread + [row]) == TypesOf(thread) + [row.feedbackType]
    ensures thread != [] ==> TypesOf(thread)[|thread| - 1] == thread[|thread| - 1].feedbackType
    ensures TypesOf(thread + []) == TypesOf(thread) + [] && thread + [] == thread
  {
  }

  predicate ChangesOpinion(thread: seq<Feedback>, feedbackType: string) {
    thread == [] || thread[|thread| - 1].feedbackType != feedbackType
  }

  lemma AddsUnlessRepeat(rows: seq<Feedback>, s: Submission)
    requires |s.kind| <= KIND_LENGTH && Contiguous(Thread(rows, s.actor, s.kind, s.target))
    ensures var own := Thread(rows, s.actor, s.kind, s.target);
      AfterFeedback(rows, s.actor, s.kind, s.target, s.feedbackType) ==
        if ChangesOpinion(own, s.feedbackType)
        then rows + [Feedback(s.actor, s.kind, s.target, |own| + 1, s.feedbackType)]
        else rows
  {
    NextRevisionIsFree(rows, s);
    PriorIsLast(rows, s.actor, s.kind, s.target);
    hide Prior, Thread, Collides, NewRow;
  }

  /** And then no submission is ever refused. */
  lemma ShortKindsNeverFail(submissions: seq<Submission>, s: Submission)
    requires ShortKinds(submissions) && |s.kind| <= KIND_LENGTH
    ensures FeedbackResult(Run(submissions), s.actor, s.kind, s.target, s.feedbackType).Recorded?
  {
    ThreadsAreContiguous(submissions, s.actor, s.kind, s.target);
    NextRevisionIsFree(Run(submissions), s);
  }

  lemma {:induction false} StoredKindsFit(submissions: seq<Submission>)
    ensures forall i :: 0 <= i < |Run(submissions)| ==> |Run(submissions)[i].kind| <= KIND_LENGTH
  {
    if submissions != [] {
      StoredKindsFit(submissions[..|submissions| - 1]);
    }
  }

  lemma {:induction false} LongKindHasNoPrior(rows: seq<Feedback>, actor: Option<int>, kind: string, target: int)
    requires forall i :: 0 <= i < |rows| ==> |rows[i].kind| <= KIND_LENGTH
    requires |kind| > KIND_LENGTH
    ensures Prior(rows, actor, kind, target) == None
  {
    if rows != [] {
      LongKindHasNoPrior(rows[..|rows| - 1], actor, kind, target);
    }
  }

  /** Submitting the same opinion again changes nothing and answers with the same record if and only if
      the kind fits the column: a longer kind is stored cut off but looked up in full, so its earlier
      record is never found. */
  lemma {:induction false} ResubmissionIsNoOpIffKindFits(submissions: seq<Submission>, s: Submission)
    requires FeedbackResult(Run(submissions), s.actor, s.kind, s.target, s.feedbackType).Recorded?
    ensures var once := Run(submissions + [s]);
      (&& AfterFeedback(once, s.actor, s.kind, s.target, s.feedbackType) == once
       && FeedbackResult(once, s.actor, s.kind, s.target, s.feedbackType)
            == FeedbackResult(Run(submissions), s.actor, s.kind, s.target, s.feedbackType))
      <==> |s.kind| <= 24
  {
    assert (submissions + [s])[..|submissions|] == submissions;
    var rows := Run(submissions);
    var once := Run(submissions + [s]);
    StoredKindsFit(submissions);
    StoredKindsFit(submissions + [s]);
    if |s.kind| > KIND_LENGTH {
      LongKindHasNoPrior(rows, s.actor, s.kind, s.target);
      LongKindHasNoPrior(once, s.actor, s.kind, s.target);
      var row := NewRow(rows, s.actor, s.kind, s.target, s.feedbackType);
      assert once[|rows|] == row;
      assert SameThread(once[|rows|], row.actor, row.kind, row.target);
    } else if !IsRepeat(rows, s.actor, s.kind, s.target, s.feedbackType) {
      assert once[..|rows|] == rows;
    }
  }

  /** With a kind that does not fit, an identified actor's second submission is refused, whatever it says. */
  lemma {:induction false} LongKindFailsOnSecond(submissions: seq<Submission>, s: Submission, again: string)
    requires |s.kind| > KIND_LENGTH && s.actor.Some?
    requires FeedbackResult(Run(submissions), s.actor, s.kind, s.target, s.feedbackType).Recorded?
    ensures FeedbackResult(Run(submissions + [s]), s.actor, s.kind, s.target, again) == IntegrityError
  {
    assert (submissions + [s])[..|submissions|] == submissions;
    var rows := Run(submissions);
    var once := Run(submissions + [s]);
    StoredKindsFit(submissions);
    StoredKindsFit(submissions + [s]);
    LongKindHasNoPrior(rows, s.actor, s.kind, s.target);
    LongKindHasNoPrior(once, s.actor, s.kind, s.target);
    assert once[|rows|] == NewRow(rows, s.actor, s.kind, s.target, s.feedbackType);
  }
}
