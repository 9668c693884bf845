/**
 * Worked runs of the scheduler, from a question a learner has never seen:
 * the transition alone, and the whole path from the answer route through
 * the scheduling function to the review store.
 */
module Scenarios {
  import opened Common
  import opened Sm2
  import UpdateSrs
  import AnswerRoute

  /** A first "guessed": streak 0, interval 1 day, easiness 2.5 - 0.54 = 1.96. */
  lemma FirstFailure(userId: Id, questionId: Id, at: Instant, clock: Instant)
    ensures var r := Transition(Fresh(userId, questionId), 1, at, clock);
      r.repetition == 0 && r.interval == 1 && r.easiness == 196 && r.dueAt == at + MsPerDay
  {
  }

  /** Three "knew it" in a row give intervals 1, 6 and round(6 * 2.7) = 16 days. */
  lemma ThreeSuccesses(userId: Id, questionId: Id, at: Instant, clock: Instant)
    ensures var r1 := Transition(Fresh(userId, questionId), 5, at, clock);
      var r2 := Transition(FromRow(r1), 5, at, clock);
      var r3 := Transition(FromRow(r2), 5, at, clock);
      && r1.repetition == 1 && r1.interval == 1 && r1.easiness == 260
      && r2.repetition == 2 && r2.interval == 6 && r2.easiness == 270
      && r3.repetition == 3 && r3.interval == 16 && r3.easiness == 280
  {
  }

  /**
   * Two "knew it" answers submitted through the answer route on a fresh card
   * leave one answer row and a review record at repetition 2, interval 6,
   * due six days after the second answer.
   */
  lemma TwoKnewItAnswers(userId: Id, questionId: Id, t1: Instant, t2: Instant, c1: Instant, c2: Instant)
    requires userId != "" && questionId != ""
    ensures var body := AnswerRoute.AnswerBody(questionId, Some(true));
      var key := UpdateSrs.Key(userId, questionId);
      var w0 := AnswerRoute.World([], map[]);
      var o1 := AnswerRoute.Post(Some(body), Some(userId), t1, w0,
                  AnswerRoute.AnswerFaults(false, false, AnswerRoute.Delivered(UpdateSrs.NoFaults, c1)));
      var o2 := AnswerRoute.Post(Some(body), Some(userId), t2, o1.world,
                  AnswerRoute.AnswerFaults(false, false, AnswerRoute.Delivered(UpdateSrs.NoFaults, c2)));
      && |o2.world.answers| == 1
      && key in o2.world.reviews
      && o2.world.reviews[key].repetition == 2
      && o2.world.reviews[key].interval == 6
      && o2.world.reviews[key].dueAt == t2 + 6 * MsPerDay
  {
  }
}
