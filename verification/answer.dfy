/**
 * The answer-submission API route (`POST /api/answer`): validate the body,
 * require a signed-in user, record the answer in `user_answers` (update the
 * user's row for the question if there is one, insert one otherwise), then
 * ask the `update_srs` function to reschedule the question with quality 5
 * for "knew it" and 1 for "guessed". The scheduling call is best-effort: its
 * failure never changes the route's answer.
 *
 * `user_answers` is a sequence of rows in table order; `review_state` is the
 * store of `UpdateSrs`. The signed-in user, the clock and every database or
 * network fault are parameters.
 */
module AnswerRoute {
  import opened Common
  import opened Sm2
  import UpdateSrs

  type RowId = nat

  /** One row of the `user_answers` table. */
  datatype UserAnswer = UserAnswer(
    id: RowId,
    userId: Id,
    questionId: Id,
    correct: bool,
    answeredAt: Instant,
    dueAt: Instant)

  /**
   * The parsed JSON body: a missing, null or empty `question_id` is "";
   * `correct` is `None` unless it is a JSON boolean.
   */
  datatype AnswerBody = AnswerBody(questionId: Id, correct: Option<bool>)

  /** How the call to the scheduling function goes: the fetch throws, or it reaches the handler. */
  datatype SrsCall = Unreachable | Delivered(faults: UpdateSrs.StoreFaults, clock: Instant)

  /** `lookupFails`: the existing-answer query errs; `writeFails`: the update or insert errs. */
  datatype AnswerFaults = AnswerFaults(lookupFails: bool, writeFails: bool, srs: SrsCall)

  datatype AnswerResponse =
    | Recorded(data: UserAnswer, srsUpdated: bool)   // 200
    | BadRequest(message: string)                    // 400
    | Unauthorized                                   // 401
    | ServerError(message: string)                   // 500

  /** The two tables the route writes. */
  datatype World = World(answers: seq<UserAnswer>, reviews: UpdateSrs.Store)

  datatype Outcome = Outcome(response: AnswerResponse, world: World)

  /** "knew it" is quality 5, "guessed" is quality 1. */
  function Quality(correct: bool): (q: int)
    ensures UpdateSrs.QualityInRange(q)
    ensures IsFailure(q) <==> !correct
    ensures correct ==> q == 5 && EasinessDelta(q) == 10
    ensures !correct ==> q == 1 && EasinessDelta(q) == -54
  {
    if correct then 5 else 1
  }

  predicate ValidBody(body: AnswerBody)
  {
    body.questionId != "" && body.correct.Some?
  }

  predicate IsAnswerOf(row: UserAnswer, userId: Id, questionId: Id)
  {
    row.userId == userId && row.questionId == questionId
  }

  /** How many rows record an answer of `userId` to `questionId`. */
  function MatchCount(rows: seq<UserAnswer>, userId: Id, questionId: Id): (n: nat)
    ensures n <= |rows|
    ensures n == 0 <==> forall i | 0 <= i < |rows| :: !IsAnswerOf(rows[i], userId, questionId)
  {
    if rows == [] then 0
    else (if IsAnswerOf(rows[0], userId, questionId) then 1 else 0) + MatchCount(rows[1..], userId, questionId)
  }

  /** The first row recording an answer of `userId` to `questionId`. */
  function FirstMatch(rows: seq<UserAnswer>, userId: Id, questionId: Id): (r: Option<UserAnswer>)
    ensures r.Some? <==> MatchCount(rows, userId, questionId) > 0
    ensures r.Some? ==> r.value in rows && IsAnswerOf(r.value, userId, questionId)
  {
    if rows == [] then None
    else if IsAnswerOf(rows[0], userId, questionId) then Some(rows[0])
    else FirstMatch(rows[1..], userId, questionId)
  }

  /**
   * `select('id').eq(user_id).eq(question_id).single()`: the id of the one
   * matching row. `.single()` errs on zero rows and on several, and the route
   * reads an error, like a failed query, as "no existing answer".
   */
  function Lookup(rows: seq<UserAnswer>, userId: Id, questionId: Id, fails: bool): (r: Option<RowId>)
    ensures r.Some? <==> !fails && MatchCount(rows, userId, questionId) == 1
    ensures r.Some? ==> exists i | 0 <= i < |rows| :: rows[i].id == r.value && IsAnswerOf(rows[i], userId, questionId)
  {
    if !fails && MatchCount(rows, userId, questionId) == 1 then
      Some(FirstMatch(rows, userId, questionId).value.id)
    else
      None
  }

  /** The largest row id in use, 0 for an empty table. */
  function MaxId(rows: seq<UserAnswer>): (m: nat)
    ensures forall i | 0 <= i < |rows| :: rows[i].id <= m
  {
    if rows == [] then 0
    else var rest := MaxId(rows[1..]); if rows[0].id >= rest then rows[0].id else rest
  }

  /** The id the database gives an inserted row; the model takes one past every id in use. */
  function FreshId(rows: seq<UserAnswer>): (id: RowId)
    ensures forall i | 0 <= i < |rows| :: rows[i].id != id
  {
    MaxId(rows) + 1
  }

  /** `update({correct, answered_at, due_at}).eq('id', id)`. */
  function UpdateById(rows: seq<UserAnswer>, id: RowId, correct: bool, at: Instant): (r: seq<UserAnswer>)
    ensures |r| == |rows|
    ensures forall i | 0 <= i < |rows| ::
      (rows[i].id == id ==> r[i] == rows[i].(correct := correct, answeredAt := at, dueAt := at))
      && (rows[i].id != id ==> r[i] == rows[i])
  {
    seq(|rows|, i requires 0 <= i < |rows| =>
      if rows[i].id == id then rows[i].(correct := correct, answeredAt := at, dueAt := at) else rows[i])
  }

  /** Row ids are distinct, and no (user, question) pair has two rows. */
  predicate TableOk(rows: seq<UserAnswer>)
  {
    && (forall i, j | 0 <= i < |rows| && 0 <= j < |rows| && rows[i].id == rows[j].id :: i == j)
    && (forall i, j | 0 <= i < |rows| && 0 <= j < |rows| && IsAnswerOf(rows[j], rows[i].userId, rows[i].questionId) :: i == j)
  }

  /** The request the route sends to the scheduling function. */
  function SrsRequestFor(userId: Id, questionId: Id, correct: bool, answeredAt: Instant): UpdateSrs.SrsRequest
  {
    UpdateSrs.SrsRequest(userId, questionId, UpdateSrs.Number(Quality(correct)), Some(answeredAt))
  }

  /**
   * The effect of the scheduling call on `review_state`; the route ignores its
   * answer. An unreachable function writes nothing, a delivered call writes
   * at most the request's key, and a well-formed store stays well-formed.
   */
  function CallSrs(reviews: UpdateSrs.Store, request: UpdateSrs.SrsRequest, call: SrsCall): (r: UpdateSrs.Store)
    ensures call.Unreachable? ==> r == reviews
    ensures r == reviews || (UpdateSrs.RequestKey(request) in r && r == reviews[UpdateSrs.RequestKey(request) := r[UpdateSrs.RequestKey(request)]])
    ensures call.Delivered? && call.faults == UpdateSrs.NoFaults && UpdateSrs.ValidRequest(request) ==>
      var key := UpdateSrs.RequestKey(request);
      && key in r
      && r[key].updatedAt == call.clock
      && r[key].dueAt == DueAt(request.answeredAt.value, r[key].interval)
    ensures UpdateSrs.StoreWellFormed(reviews) ==> UpdateSrs.StoreWellFormed(r)
  {
    match call
    case Unreachable => reviews
    case Delivered(faults, clock) =>
      var next := UpdateSrs.Handle(UpdateSrs.Post, Some(request), reviews, faults, clock).store;
      assert UpdateSrs.StoreWellFormed(reviews) ==> UpdateSrs.StoreWellFormed(next) by {
        if UpdateSrs.StoreWellFormed(reviews) {
          UpdateSrs.HandlePreservesStore(UpdateSrs.Post, Some(request), reviews, faults, clock);
        }
      }
      next
  }

  /**
   * The `POST` handler. `body` is `None` when the JSON does not parse, `user`
   * is `None` when there is no signed-in user, and `now` is the single clock
   * reading taken as the answer instant.
   */
  function Post(body: Option<AnswerBody>, user: Option<Id>, now: Instant, world: World, faults: AnswerFaults): (out: Outcome)
    ensures out.response.BadRequest? <==> body.Some? && !ValidBody(body.value)
    ensures out.response.Unauthorized? <==> body.Some? && ValidBody(body.value) && user.None?
    ensures !out.response.Recorded? ==> out.world == world
    ensures out.response.Recorded? ==>
      && body.Some? && ValidBody(body.value) && user.Some? && !faults.writeFails
      && out.response.srsUpdated
      && out.response.data.userId == user.value
      && out.response.data.questionId == body.value.questionId
      && out.response.data.correct == body.value.correct.value
      && out.response.data.answeredAt == now
      && out.response.data.dueAt == now
      && out.world.reviews
         == CallSrs(world.reviews, SrsRequestFor(user.value, body.value.questionId, body.value.correct.value, now), faults.srs)
  {
    if body.None? then
      Outcome(ServerError("Internal server error"), world)
    else if !ValidBody(body.value) then
      Outcome(BadRequest("Missing required fields: question_id, correct"), world)
    else if user.None? then
      Outcome(Unauthorized, world)
    else
      var userId, questionId, correct := user.value, body.value.questionId, body.value.correct.value;
      var rows := world.answers;
      var existing := Lookup(rows, userId, questionId, faults.lookupFails);
      if faults.writeFails then
        Outcome(ServerError(if existing.Some? then "Failed to update answer" else "Failed to create answer"), world)
      else
        var written :=
          if existing.Some? then
            (UpdateById(rows, existing.value, correct, now),
             FirstMatch(rows, userId, questionId).value.(correct := correct, answeredAt := now, dueAt := now))
          else
            var row := UserAnswer(FreshId(rows), userId, questionId, correct, now, now);
            (rows + [row], row);
        var reviews := CallSrs(world.reviews, SrsRequestFor(userId, questionId, correct, now), faults.srs);
        Outcome(Recorded(written.1, true), World(written.0, reviews))
  }

  // ---------------------------------------------------------------------
  // Properties of the route
  // ---------------------------------------------------------------------

  /** Under a table without duplicates, the user's row for a question is found exactly when it exists. */
  lemma {:induction false} UniqueMatchCount(rows: seq<UserAnswer>, userId: Id, questionId: Id)
    requires TableOk(rows)
    ensures MatchCount(rows, userId, questionId) <= 1
  {
    if rows != [] {
      var tail := rows[1..];
      TableOkTail(rows);
      UniqueMatchCount(tail, userId, questionId);
      if IsAnswerOf(rows[0], userId, questionId) {
        forall i | 0 <= i < |tail|
          ensures !IsAnswerOf(tail[i], userId, questionId)
        {
          assert IsAnswerOf(rows[i + 1], rows[0].userId, rows[0].questionId) ==> i + 1 == 0;
        }
      }
    }
  }

  lemma TableOkTail(rows: seq<UserAnswer>)
    requires TableOk(rows) && rows != []
    ensures TableOk(rows[1..])
  {
  }

  /** Updating the pair's row by its id leaves it, changed, where the lookup finds it. */
  lemma {:induction false} UpdatedRowFound(rows: seq<UserAnswer>, userId: Id, questionId: Id, correct: bool, at: Instant)
    requires TableOk(rows)
    requires FirstMatch(rows, userId, questionId).Some?
    ensures var prev := FirstMatch(rows, userId, questionId).value;
      FirstMatch(UpdateById(rows, prev.id, correct, at), userId, questionId)
        == Some(prev.(correct := correct, answeredAt := at, dueAt := at))
  {
  }

  /** Inserting a row for a pair that has none, under a fresh id, keeps the table free of duplicates. */
  lemma InsertKeepsTableOk(rows: seq<UserAnswer>, row: UserAnswer)
    requires TableOk(rows)
    requires MatchCount(rows, row.userId, row.questionId) == 0
    requires forall i | 0 <= i < |rows| :: rows[i].id != row.id
    ensures TableOk(rows + [row])
  {
  }

  /**
   * With a working lookup the route keeps at most one row per (user,
   * question): an existing row is updated in place, otherwise exactly one
   * row is appended. The rows of every other pair keep their place and content.
   */
  lemma PostKeepsOneRowPerPair(body: AnswerBody, userId: Id, now: Instant, world: World, faults: AnswerFaults)
    requires TableOk(world.answers)
    requires !faults.lookupFails
    ensures var out := Post(Some(body), Some(userId), now, world, faults);
      && TableOk(out.world.answers)
      && (out.response.Recorded? ==>
            && MatchCount(out.world.answers, userId, body.questionId) == 1
            && FirstMatch(out.world.answers, userId, body.questionId) == Some(out.response.data)
            && (MatchCount(world.answers, userId, body.questionId) == 1 ==> |out.world.answers| == |world.answers|)
            && (MatchCount(world.answers, userId, body.questionId) == 1 ==>
                  out.response.data == FirstMatch(world.answers, userId, body.questionId).value.(
                    correct := body.correct.value, answeredAt := now, dueAt := now))
            && (MatchCount(world.answers, userId, body.questionId) == 0 ==> out.world.answers == world.answers + [out.response.data])
            && |out.world.answers| >= |world.answers|
            && (forall i | 0 <= i < |world.answers| && !IsAnswerOf(world.answers[i], userId, body.questionId) ::
                  out.world.answers[i] == world.answers[i]))
  {
    var out := Post(Some(body), Some(userId), now, world, faults);
    var rows := world.answers;
    if out.response.Recorded? {
      var questionId, correct := body.questionId, body.correct.value;
      UniqueMatchCount(rows, userId, questionId);
      if MatchCount(rows, userId, questionId) == 1 {
        var id := Lookup(rows, userId, questionId, false).value;
        var updated := UpdateById(rows, id, correct, now);
        assert out.world.answers == updated;
        assert forall i | 0 <= i < |rows| :: updated[i].id == rows[i].id && updated[i].userId == rows[i].userId && updated[i].questionId == rows[i].questionId;
        SamePairsSameCount(rows, updated, userId, questionId);
        UpdatedRowFound(rows, userId, questionId, correct, now);
        forall i | 0 <= i < |rows| && !IsAnswerOf(rows[i], userId, questionId)
          ensures updated[i] == rows[i]
        {
          var j :| 0 <= j < |rows| && rows[j].id == id && IsAnswerOf(rows[j], userId, questionId);
          assert i != j;
        }
      } else {
        var row := UserAnswer(FreshId(rows), userId, questionId, correct, now, now);
        InsertKeepsTableOk(rows, row);
        AppendCount(rows, row, userId, questionId);
        AppendFirstMatch(rows, row, userId, questionId);
      }
    }
  }

  /** Two tables whose rows agree on (id, user, question) have the same counts. */
  lemma {:induction false} SamePairsSameCount(a: seq<UserAnswer>, b: seq<UserAnswer>, userId: Id, questionId: Id)
    requires |a| == |b|
    requires forall i | 0 <= i < |a| :: a[i].id == b[i].id && a[i].userId == b[i].userId && a[i].questionId == b[i].questionId
    ensures MatchCount(a, userId, questionId) == MatchCount(b, userId, questionId)
    ensures TableOk(a) ==> TableOk(b)
  {
    if a != [] {
      SamePairsSameCount(a[1..], b[1..], userId, questionId);
    }
    if TableOk(a) {
      forall i, j | 0 <= i < |b| && 0 <= j < |b| && IsAnswerOf(b[j], b[i].userId, b[i].questionId)
        ensures i == j
      {
        assert IsAnswerOf(a[j], a[i].userId, a[i].questionId);
      }
    }
  }

  lemma {:induction false} AppendCount(rows: seq<UserAnswer>, row: UserAnswer, userId: Id, questionId: Id)
    ensures MatchCount(rows + [row], userId, questionId)
         == MatchCount(rows, userId, questionId) + (if IsAnswerOf(row, userId, questionId) then 1 else 0)
  {
    if rows == [] {
      assert [row][1..] == [];
    } else {
      assert (rows + [row])[1..] == rows[1..] + [row];
      AppendCount(rows[1..], row, userId, questionId);
    }
  }

  lemma {:induction false} AppendFirstMatch(rows: seq<UserAnswer>, row: UserAnswer, userId: Id, questionId: Id)
    requires MatchCount(rows, userId, questionId) == 0
    requires IsAnswerOf(row, userId, questionId)
    ensures FirstMatch(rows + [row], userId, questionId) == Some(row)
  {
    if rows == [] {
      assert (rows + [row])[0] == row;
    } else {
      assert (rows + [row])[1..] == rows[1..] + [row];
      assert !IsAnswerOf(rows[0], userId, questionId);
      AppendFirstMatch(rows[1..], row, userId, questionId);
    }
  }

  /** A bad body is answered 400, a missing user 401, and neither writes anything. */
  lemma RejectedRequestsWriteNothing(body: AnswerBody, user: Option<Id>, now: Instant, world: World, faults: AnswerFaults)
    requires !ValidBody(body) || user.None?
    ensures var out := Post(Some(body), user, now, world, faults);
      && out.world == world
      && (!ValidBody(body) ==> out.response.BadRequest?)
      && (ValidBody(body) ==> out.response == Unauthorized)
  {
  }

  /**
   * The scheduling call's fate never reaches the response: whatever the
   * review store holds and however the call goes, the answer is the same and
   * reports `srs_updated: true`.
   */
  lemma SrsFailureIgnored(body: AnswerBody, userId: Id, now: Instant, answers: seq<UserAnswer>,
                          reviews1: UpdateSrs.Store, reviews2: UpdateSrs.Store,
                          lookupFails: bool, call1: SrsCall, call2: SrsCall)
    requires ValidBody(body)
    ensures var out1 := Post(Some(body), Some(userId), now, World(answers, reviews1), AnswerFaults(lookupFails, false, call1));
      var out2 := Post(Some(body), Some(userId), now, World(answers, reviews2), AnswerFaults(lookupFails, false, call2));
      && out1.response == out2.response
      && out1.world.answers == out2.world.answers
      && out1.response.Recorded? && out1.response.srsUpdated
  {
  }

  /**
   * "knew it" drives the scheduler down its success path and "guessed" down
   * its failure path, dated by the same instant stamped on the answer row.
   */
  lemma AnswerReschedules(body: AnswerBody, userId: Id, now: Instant, world: World, lookupFails: bool, clock: Instant)
    requires ValidBody(body) && userId != ""
    requires UpdateSrs.KeysConsistent(world.reviews)
    ensures var key := UpdateSrs.Key(userId, body.questionId);
      var out := Post(Some(body), Some(userId), now, world, AnswerFaults(lookupFails, false, Delivered(UpdateSrs.NoFaults, clock)));
      var prior := if key in world.reviews then FromRow(world.reviews[key]) else Fresh(userId, body.questionId);
      && key in out.world.reviews
      && out.world.reviews[key] == Transition(prior, Quality(body.correct.value), now, clock)
      && out.world.reviews[key].dueAt == DueAt(out.response.data.answeredAt, out.world.reviews[key].interval)
      && (body.correct.value ==> out.world.reviews[key].repetition == PriorRepetition(prior) + 1)
      && (!body.correct.value ==> out.world.reviews[key].repetition == 0 && out.world.reviews[key].interval == 1)
  {
  }

  /**
   * The answer row's `due_at` is a placeholder that the scheduling call never
   * replaces: the scheduler writes only `review_state`, so the pair's row
   * keeps `due_at` at the answer instant however the call goes.
   */
  lemma AnswerDueAtStaysPlaceholder(body: AnswerBody, userId: Id, now: Instant, answers: seq<UserAnswer>,
                                    reviews: UpdateSrs.Store, faults: AnswerFaults, call: SrsCall)
    requires TableOk(answers)
    requires !faults.lookupFails
    ensures var out := Post(Some(body), Some(userId), now, World(answers, reviews), faults);
      var other := Post(Some(body), Some(userId), now, World(answers, reviews), faults.(srs := call));
      out.response.Recorded? ==>
        && FirstMatch(out.world.answers, userId, body.questionId) == Some(out.response.data)
        && out.response.data.dueAt == now
        && other.world.answers == out.world.answers
  {
    PostKeepsOneRowPerPair(body, userId, now, World(answers, reviews), faults);
  }

  /**
   * When the existing-answer query errs, the route inserts anyway: a user who
   * already has a row for the question gets a second one.
   */
  lemma LookupFailureDuplicates(body: AnswerBody, userId: Id, now: Instant, world: World, call: SrsCall)
    requires ValidBody(body)
    requires MatchCount(world.answers, userId, body.questionId) == 1
    ensures var out := Post(Some(body), Some(userId), now, world, AnswerFaults(true, false, call));
      MatchCount(out.world.answers, userId, body.questionId) == 2
  {
    AppendCount(world.answers, UserAnswer(FreshId(world.answers), userId, body.questionId, body.correct.value, now, now),
                userId, body.questionId);
  }
}
