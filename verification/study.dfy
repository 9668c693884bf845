/**
 * The selection rules of the study page: `getNextQuestion` picks the
 * signed-in user's earliest due review, and failing that a question the
 * user has never reviewed; `getDueCount` counts the user's due reviews.
 *
 * `review_state` and `questions` are sequences of rows in table order. The
 * clock reading each query compares `due_at` against is the parameter `now`,
 * and each query's failure is a flag. The page's current question (and due
 * count) is passed in and returned, since a failed query leaves it alone.
 */
module StudySelection {
  import opened Common
  import opened Sm2

  /** One row of the `questions` table. */
  datatype Question = Question(
    id: Id,
    questionText: string,
    hintText: string,
    answerText: string,
    longAnswerText: string,
    tags: seq<string>,
    createdAt: Instant)

  /** `.eq('user_id', userId)`: the user's review rows, in table order. */
  function OwnRows(rows: seq<ReviewState>, userId: Id): (r: seq<ReviewState>)
    ensures |r| <= |rows|
    ensures forall x | x in r :: x in rows && x.userId == userId
    ensures forall x | x in rows && x.userId == userId :: x in r
  {
    if rows == [] then []
    else (if rows[0].userId == userId then [rows[0]] else []) + OwnRows(rows[1..], userId)
  }

  predicate IsDue(row: ReviewState, now: Instant)
  {
    row.dueAt <= now
  }

  /** `.lte('due_at', now)`. */
  function DueOnly(rows: seq<ReviewState>, now: Instant): (r: seq<ReviewState>)
    ensures forall x | x in r :: x in rows && IsDue(x, now)
    ensures forall x | x in rows && IsDue(x, now) :: x in r
  {
    if rows == [] then []
    else (if IsDue(rows[0], now) then [rows[0]] else []) + DueOnly(rows[1..], now)
  }

  /** The user's due review rows. */
  function DueRows(rows: seq<ReviewState>, userId: Id, now: Instant): seq<ReviewState>
  {
    DueOnly(OwnRows(rows, userId), now)
  }

  /**
   * `.order('due_at', { ascending: true }).limit(1)`: a row with the least
   * `due_at`; among equals the model takes the first in table order.
   */
  function Earliest(rows: seq<ReviewState>): (r: Option<ReviewState>)
    ensures r.Some? <==> |rows| > 0
    ensures r.Some? ==> r.value in rows && forall x | x in rows :: r.value.dueAt <= x.dueAt
  {
    if rows == [] then None
    else
      var rest := Earliest(rows[1..]);
      if rest.None? || rows[0].dueAt <= rest.value.dueAt then Some(rows[0]) else rest
  }

  /** The `questions (*)` embedding of a review row: its question, if the table has it. */
  function QuestionById(questions: seq<Question>, id: Id): (r: Option<Question>)
    ensures r.Some? ==> r.value in questions && r.value.id == id
    ensures r.None? ==> forall q | q in questions :: q.id != id
  {
    if questions == [] then None
    else if questions[0].id == id then Some(questions[0])
    else QuestionById(questions[1..], id)
  }

  /** `reviewedQuestionIds.map(r => r.question_id)`. */
  function ReviewedIds(rows: seq<ReviewState>, userId: Id): (ids: seq<Id>)
    ensures forall id | id in ids :: exists x | x in rows :: x.userId == userId && x.questionId == id
    ensures forall x | x in rows && x.userId == userId :: x.questionId in ids
  {
    var own := OwnRows(rows, userId);
    var ids := seq(|own|, i requires 0 <= i < |own| => own[i].questionId);
    assert forall x | x in own :: x.questionId in ids by {
      forall x | x in own ensures x.questionId in ids {
        var i :| 0 <= i < |own| && own[i] == x;
        assert ids[i] == x.questionId;
      }
    }
    ids
  }

  /** `.not('id', 'in', reviewedIds).limit(1)`: the first question not yet reviewed. */
  function FirstUnreviewed(questions: seq<Question>, reviewed: seq<Id>): (r: Option<Question>)
    ensures r.Some? ==> r.value in questions && r.value.id !in reviewed
    ensures r.None? <==> forall q | q in questions :: q.id in reviewed
  {
    if questions == [] then None
    else if questions[0].id !in reviewed then Some(questions[0])
    else FirstUnreviewed(questions[1..], reviewed)
  }

  /** `select('*').limit(1)` with no filter. */
  function FirstQuestion(questions: seq<Question>): Option<Question>
  {
    if questions == [] then None else Some(questions[0])
  }

  /**
   * `dueFails`: the due query errs; `reviewedFails`: the reviewed-ids query
   * errs (its error is not checked, and no data reads as no ids);
   * `newFails`: the new-question query errs.
   */
  datatype QueryFaults = QueryFaults(dueFails: bool, reviewedFails: bool, newFails: bool)

  const NoFaults: QueryFaults := QueryFaults(false, false, false)

  /**
   * `getNextQuestion`: the page's next current question. A failed due query
   * keeps the current one. Otherwise a due row of the user wins, one with the
   * least `due_at`; with nothing due the choice is a question the user has
   * never reviewed, unless the reviewed-ids query failed and its filter was
   * skipped.
   */
  function NextQuestion(userId: Id, now: Instant, rows: seq<ReviewState>, questions: seq<Question>,
                        faults: QueryFaults, current: Option<Question>): (r: Option<Question>)
    ensures faults.dueFails ==> r == current
    ensures !faults.dueFails && !NothingDue(rows, userId, now) ==>
      exists row | row in rows ::
        && row.userId == userId && IsDue(row, now)
        && r == QuestionById(questions, row.questionId)
        && forall x | x in rows && x.userId == userId && IsDue(x, now) :: row.dueAt <= x.dueAt
    ensures !faults.dueFails && NothingDue(rows, userId, now) && !faults.newFails && !faults.reviewedFails ==>
      && (r.Some? ==> r.value in questions && !Reviewed(rows, userId, r.value.id))
      && (r.None? ==> AllReviewed(rows, userId, questions))
  {
    DueRowsEmptyIff(rows, userId, now);
    ReviewedIdsEmptyIff(rows, userId);
    if faults.dueFails then current
    else
      var due := Earliest(DueRows(rows, userId, now));
      if due.Some? then
        QuestionById(questions, due.value.questionId)
      else
        var reviewed := if faults.reviewedFails then [] else ReviewedIds(rows, userId);
        if faults.newFails then current
        else if |reviewed| > 0 then FirstUnreviewed(questions, reviewed)
        else FirstQuestion(questions)
  }

  /** How many of the user's review rows are due: the exact count of the count query. */
  function CountDue(rows: seq<ReviewState>, userId: Id, now: Instant): (n: nat)
    ensures n <= |rows|
    ensures n == 0 <==> forall i | 0 <= i < |rows| :: !(rows[i].userId == userId && IsDue(rows[i], now))
  {
    if rows == [] then 0
    else (if rows[0].userId == userId && IsDue(rows[0], now) then 1 else 0) + CountDue(rows[1..], userId, now)
  }

  /**
   * `getDueCount`: the page's next due count; a failed query keeps the old
   * one. Otherwise it is the number of the user's due rows, positive exactly
   * when one of them is due.
   */
  function DueCount(userId: Id, now: Instant, rows: seq<ReviewState>, fails: bool, current: nat): (n: nat)
    ensures fails ==> n == current
    ensures !fails ==> n == |DueRows(rows, userId, now)|
    ensures !fails ==> (n > 0 <==> exists x | x in rows :: x.userId == userId && IsDue(x, now))
  {
    CountDueIsDueRows(rows, userId, now);
    DueRowsEmptyIff(rows, userId, now);
    if fails then current else CountDue(rows, userId, now)
  }

  /** Every review row of the user refers to a question in the table. */
  predicate QuestionsExist(rows: seq<ReviewState>, userId: Id, questions: seq<Question>)
  {
    forall x | x in rows && x.userId == userId :: exists q | q in questions :: q.id == x.questionId
  }

  // ---------------------------------------------------------------------
  // Properties of the selection
  // ---------------------------------------------------------------------

  /** Restricting to the user's rows twice is restricting once. */
  lemma {:induction false} OwnRowsIdempotent(rows: seq<ReviewState>, userId: Id)
    ensures OwnRows(OwnRows(rows, userId), userId) == OwnRows(rows, userId)
  {
    if rows != [] {
      OwnRowsIdempotent(rows[1..], userId);
      OwnRowsAppend(if rows[0].userId == userId then [rows[0]] else [], OwnRows(rows[1..], userId), userId);
    }
  }

  lemma {:induction false} OwnRowsAppend(a: seq<ReviewState>, b: seq<ReviewState>, userId: Id)
    ensures OwnRows(a + b, userId) == OwnRows(a, userId) + OwnRows(b, userId)
  {
    if a == [] {
      assert a + b == b;
    } else {
      assert (a + b)[1..] == a[1..] + b;
      OwnRowsAppend(a[1..], b, userId);
    }
  }

  /** Other users' rows never influence the selection or the count. */
  lemma OnlyOwnRowsMatter(userId: Id, now: Instant, rows: seq<ReviewState>, questions: seq<Question>,
                          faults: QueryFaults, current: Option<Question>, countFails: bool, count: nat)
    ensures NextQuestion(userId, now, OwnRows(rows, userId), questions, faults, current)
         == NextQuestion(userId, now, rows, questions, faults, current)
    ensures DueCount(userId, now, OwnRows(rows, userId), countFails, count)
         == DueCount(userId, now, rows, countFails, count)
  {
    OwnRowsIdempotent(rows, userId);
    CountDueIsDueRows(rows, userId, now);
    CountDueIsDueRows(OwnRows(rows, userId), userId, now);
  }

  /**
   * When something is due, the chosen question is the one of a due row of
   * the user with the least `due_at`.
   */
  lemma DueFirst(userId: Id, now: Instant, rows: seq<ReviewState>, questions: seq<Question>,
                 faults: QueryFaults, current: Option<Question>)
    requires !faults.dueFails
    requires exists x | x in rows :: x.userId == userId && IsDue(x, now)
    ensures exists row | row in rows ::
      && row.userId == userId && IsDue(row, now)
      && NextQuestion(userId, now, rows, questions, faults, current) == QuestionById(questions, row.questionId)
      && forall x | x in rows && x.userId == userId && IsDue(x, now) :: row.dueAt <= x.dueAt
  {
  }

  /** The user has a due row exactly when the due query returns one. */
  lemma DueRowsEmptyIff(rows: seq<ReviewState>, userId: Id, now: Instant)
    ensures DueRows(rows, userId, now) == [] <==> forall x | x in rows && x.userId == userId :: !IsDue(x, now)
  {
    var due := DueRows(rows, userId, now);
    if due != [] {
      assert due[0] in due;
    } else {
      forall x | x in rows && x.userId == userId
        ensures !IsDue(x, now)
      {
        assert x in OwnRows(rows, userId);
      }
    }
  }

  /** The reviewed-ids filter is empty exactly when the user has no review rows. */
  lemma ReviewedIdsEmptyIff(rows: seq<ReviewState>, userId: Id)
    ensures |ReviewedIds(rows, userId)| == 0 <==> forall x | x in rows :: x.userId != userId
  {
    var ids := ReviewedIds(rows, userId);
    if |ids| != 0 {
      assert ids[0] in ids;
    }
  }

  /**
   * When nothing is due, a question the user has reviewed is never chosen;
   * with no reviews at all the first question is taken unfiltered.
   */
  lemma NewQuestionIsUnreviewed(userId: Id, now: Instant, rows: seq<ReviewState>, questions: seq<Question>,
                                current: Option<Question>)
    requires forall x | x in rows && x.userId == userId :: !IsDue(x, now)
    ensures var r := NextQuestion(userId, now, rows, questions, NoFaults, current);
      && (r.Some? ==> r.value in questions
                      && forall x | x in rows && x.userId == userId :: x.questionId != r.value.id)
      && ((forall x | x in rows :: x.userId != userId) ==> r == FirstQuestion(questions))
  {
  }

  /** The user has reviewed the question `id`. */
  predicate Reviewed(rows: seq<ReviewState>, userId: Id, id: Id)
  {
    exists x | x in rows :: x.userId == userId && x.questionId == id
  }

  predicate NothingDue(rows: seq<ReviewState>, userId: Id, now: Instant)
  {
    forall x | x in rows && x.userId == userId :: !IsDue(x, now)
  }

  predicate AllReviewed(rows: seq<ReviewState>, userId: Id, questions: seq<Question>)
  {
    forall q | q in questions :: Reviewed(rows, userId, q.id)
  }

  /**
   * Without query faults, and with every reviewed question present in the
   * table, the page runs out of questions exactly when nothing is due and
   * every question has a review row.
   */
  lemma NoQuestionIff(userId: Id, now: Instant, rows: seq<ReviewState>, questions: seq<Question>,
                      current: Option<Question>)
    requires QuestionsExist(rows, userId, questions)
    ensures NextQuestion(userId, now, rows, questions, NoFaults, current).None?
        <==> NothingDue(rows, userId, now) && AllReviewed(rows, userId, questions)
  {
    DueRowsEmptyIff(rows, userId, now);
    ReviewedIdsEmptyIff(rows, userId);
    var due := DueRows(rows, userId, now);
    var ids := ReviewedIds(rows, userId);
    var r := NextQuestion(userId, now, rows, questions, NoFaults, current);
    if due != [] {
      var row := Earliest(due).value;
      assert row in rows && row.userId == userId;
      var q :| q in questions && q.id == row.questionId;
      assert r == QuestionById(questions, row.questionId);
    } else if |ids| == 0 {
      assert r == FirstQuestion(questions);
      if questions != [] {
        assert questions[0] in questions;
        assert !Reviewed(rows, userId, questions[0].id);
      }
    } else {
      assert r == FirstUnreviewed(questions, ids);
      assert forall q | q in questions :: q.id in ids <==> Reviewed(rows, userId, q.id);
    }
  }

  /** The due count counts the user's due rows. */
  lemma {:induction false} CountDueIsDueRows(rows: seq<ReviewState>, userId: Id, now: Instant)
    ensures CountDue(rows, userId, now) == |DueRows(rows, userId, now)|
  {
    if rows != [] {
      CountDueIsDueRows(rows[1..], userId, now);
      var head := if rows[0].userId == userId then [rows[0]] else [];
      assert OwnRows(rows, userId) == head + OwnRows(rows[1..], userId);
      DueOnlyAppend(head, OwnRows(rows[1..], userId), now);
    }
  }

  lemma {:induction false} DueOnlyAppend(a: seq<ReviewState>, b: seq<ReviewState>, now: Instant)
    ensures DueOnly(a + b, now) == DueOnly(a, now) + DueOnly(b, now)
  {
    if a == [] {
      assert a + b == b;
    } else {
      assert (a + b)[1..] == a[1..] + b;
      DueOnlyAppend(a[1..], b, now);
    }
  }

  /**
   * At the same `now`, the badge shows a positive count exactly when the
   * selection takes its due branch.
   */
  lemma CountAgreesWithSelection(userId: Id, now: Instant, rows: seq<ReviewState>, count: nat)
    ensures DueCount(userId, now, rows, false, count) > 0
        <==> Earliest(DueRows(rows, userId, now)).Some?
    ensures DueCount(userId, now, rows, false, count) > 0
        <==> exists x | x in rows :: x.userId == userId && IsDue(x, now)
  {
    CountDueIsDueRows(rows, userId, now);
    DueRowsEmptyIff(rows, userId, now);
  }

  /**
   * The reviewed-ids query's error is never read: when it fails and nothing
   * is due, the filter is skipped and the first question in the table comes
   * back as new, even one the user has already reviewed.
   */
  lemma ReviewedQueryFailureSkipsFilter(userId: Id, now: Instant, rows: seq<ReviewState>, questions: seq<Question>,
                                        current: Option<Question>)
    requires NothingDue(rows, userId, now)
    ensures NextQuestion(userId, now, rows, questions, QueryFaults(false, true, false), current) == FirstQuestion(questions)
    ensures questions != [] && Reviewed(rows, userId, questions[0].id) ==>
      var r := NextQuestion(userId, now, rows, questions, QueryFaults(false, true, false), current);
      r.Some? && Reviewed(rows, userId, r.value.id)
  {
    DueRowsEmptyIff(rows, userId, now);
  }

  /** A failed query keeps the page's current question and count. */
  lemma QueryFailureKeepsCurrent(userId: Id, now: Instant, rows: seq<ReviewState>, questions: seq<Question>,
                                 faults: QueryFaults, current: Option<Question>, count: nat)
    ensures faults.dueFails ==> NextQuestion(userId, now, rows, questions, faults, current) == current
    ensures faults.newFails && (forall x | x in rows && x.userId == userId :: !IsDue(x, now))
        ==> NextQuestion(userId, now, rows, questions, faults, current) == current
    ensures DueCount(userId, now, rows, true, count) == count
  {
  }
}
