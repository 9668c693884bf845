/**
 * The SuperMemo-2 review transition of the `update_srs` edge function
 * (`calculateSM2`): a pure state machine on (repetition, interval, easiness)
 * with a reset on failure, a fixed 1, 6, round(interval * easiness) ladder on
 * success, and an easiness factor clamped below at 1.3.
 *
 * Easiness is held exactly, as an integer number of hundredths (250 stands
 * for 2.5): every easiness step the formula can take for an integer quality
 * is a whole number of hundredths, so no rounding is ever involved.
 * Instants are whole milliseconds since the Unix epoch.
 */
module Sm2 {
  import opened Common

  type Id = string

  /** Milliseconds since the Unix epoch. */
  type Instant = int

  const MsPerDay: int := 86_400_000

  /** Seed values used when the prior record lacks a field. */
  const SeedRepetition: int := 0
  const SeedInterval: int := 1
  const SeedEasiness: int := 250

  /** Lower bound of the easiness factor: 1.3. */
  const EasinessFloor: int := 130

  /** Qualities below this one are failures. */
  const PassingQuality: int := 3

  /** One row of the `review_state` table. */
  datatype ReviewState = ReviewState(
    userId: Id,
    questionId: Id,
    repetition: int,
    interval: int,    // days
    easiness: int,    // hundredths
    dueAt: Instant,
    updatedAt: Instant)

  /**
   * The `Partial<ReviewState>` that `calculateSM2` reads: the stored row, or
   * just the caller's key when there is none. An absent (or NULL) numeric
   * field is `None`.
   */
  datatype PriorState = PriorState(
    userId: Id,
    questionId: Id,
    repetition: Option<int>,
    interval: Option<int>,
    easiness: Option<int>)

  /** The prior state of a key that has never been reviewed. */
  function Fresh(userId: Id, questionId: Id): PriorState
  {
    PriorState(userId, questionId, None, None, None)
  }

  /** A stored row seen as the prior state of its next transition. */
  function FromRow(row: ReviewState): PriorState
  {
    PriorState(row.userId, row.questionId, Some(row.repetition), Some(row.interval), Some(row.easiness))
  }

  /**
   * JavaScript's `x || d` on a number: the default replaces a value that is
   * absent or falsy, and the only falsy integer is 0.
   */
  function OrDefault(x: Option<int>, d: int): int
  {
    if x.Some? && x.value != 0 then x.value else d
  }

  function PriorRepetition(p: PriorState): int { OrDefault(p.repetition, SeedRepetition) }
  function PriorInterval(p: PriorState): int { OrDefault(p.interval, SeedInterval) }
  function PriorEasiness(p: PriorState): int { OrDefault(p.easiness, SeedEasiness) }

  predicate IsFailure(quality: int)
  {
    quality < PassingQuality
  }

  /** 0.1 - (5 - q) * (0.08 + (5 - q) * 0.02), in hundredths. */
  function EasinessDelta(quality: int): int
  {
    var d := 5 - quality;
    10 - d * (8 + 2 * d)
  }

  /** The easiness update, applied on the failure path as well as on success. */
  function NextEasiness(easiness: int, quality: int): (r: int)
    ensures r >= EasinessFloor
    ensures r >= easiness + EasinessDelta(quality)
    ensures r == EasinessFloor || r == easiness + EasinessDelta(quality)
  {
    Max(EasinessFloor, easiness + EasinessDelta(quality))
  }

  /**
   * `Math.round(interval * easiness)` with easiness in hundredths:
   * Math.round(x) is floor(x + 1/2), and Dafny's `/` by a positive divisor
   * is the floor.
   */
  function RoundedProduct(interval: int, easiness: int): int
  {
    (interval * easiness + 50) / 100
  }

  /** The new interval, chosen from the pre-update repetition, interval and easiness. */
  function NextInterval(repetition: int, interval: int, easiness: int, quality: int): int
  {
    if IsFailure(quality) then 1
    else if repetition == 0 then 1
    else if repetition == 1 then 6
    else RoundedProduct(interval, easiness)
  }

  function NextRepetition(repetition: int, quality: int): int
  {
    if IsFailure(quality) then 0 else repetition + 1
  }

  /** `due_at`: the answer instant plus `interval` whole days. */
  function DueAt(answeredAt: Instant, interval: int): Instant
  {
    answeredAt + interval * MsPerDay
  }

  /**
   * `calculateSM2(currentState, quality, answeredAt)`. The wall-clock read
   * that stamps `updated_at` is the parameter `clock`.
   */
  function Transition(prior: PriorState, quality: int, answeredAt: Instant, clock: Instant): (r: ReviewState)
    ensures r.userId == prior.userId && r.questionId == prior.questionId
    ensures r.easiness >= EasinessFloor
    ensures r.dueAt - answeredAt == r.interval * MsPerDay
    ensures r.updatedAt == clock
    ensures IsFailure(quality) ==> r.repetition == 0 && r.interval == 1
    ensures !IsFailure(quality) ==> r.repetition == PriorRepetition(prior) + 1
  {
    var repetition := PriorRepetition(prior);
    var interval := PriorInterval(prior);
    var easiness := PriorEasiness(prior);
    var newInterval := NextInterval(repetition, interval, easiness, quality);
    ReviewState(
      prior.userId,
      prior.questionId,
      NextRepetition(repetition, quality),
      newInterval,
      NextEasiness(easiness, quality),
      DueAt(answeredAt, newInterval),
      clock)
  }

  /**
   * The shape every record written by the scheduler has: counts are
   * non-negative, the interval is at least a day, easiness is at or above
   * the floor, and the interval sits on the SM-2 ladder for its repetition.
   */
  predicate WellFormed(s: ReviewState)
  {
    && s.repetition >= 0
    && s.interval >= 1
    && s.easiness >= EasinessFloor
    && (s.repetition <= 1 ==> s.interval == 1)
    && (s.repetition == 2 ==> s.interval == 6)
    && (s.repetition >= 3 ==> s.interval >= 6)
  }

  // ---------------------------------------------------------------------
  // Properties of the transition
  // ---------------------------------------------------------------------

  /** Missing fields read as the seed {0, 1, 2.5}; so do stored zeros. */
  lemma FreshIsSeed(userId: Id, questionId: Id, quality: int, answeredAt: Instant, clock: Instant)
    ensures Transition(Fresh(userId, questionId), quality, answeredAt, clock)
         == Transition(PriorState(userId, questionId, Some(SeedRepetition), Some(SeedInterval), Some(SeedEasiness)), quality, answeredAt, clock)
    ensures Transition(Fresh(userId, questionId), quality, answeredAt, clock)
         == Transition(PriorState(userId, questionId, Some(0), Some(0), Some(0)), quality, answeredAt, clock)
  {
  }

  /** A failing answer resets the streak whatever came before; easiness still moves. */
  lemma FailureResets(prior: PriorState, quality: int, answeredAt: Instant, clock: Instant)
    requires IsFailure(quality)
    ensures var r := Transition(prior, quality, answeredAt, clock);
      && r.repetition == 0
      && r.interval == 1
      && r.easiness == Max(EasinessFloor, PriorEasiness(prior) + EasinessDelta(quality))
      && r.dueAt == answeredAt + MsPerDay
  {
  }

  /** On success: 1 day after the first, 6 after the second, then the interval times easiness. */
  lemma SuccessLadder(prior: PriorState, quality: int, answeredAt: Instant, clock: Instant)
    requires !IsFailure(quality)
    ensures var r := Transition(prior, quality, answeredAt, clock);
      && r.repetition == PriorRepetition(prior) + 1
      && (PriorRepetition(prior) == 0 ==> r.interval == 1)
      && (PriorRepetition(prior) == 1 ==> r.interval == 6)
      && (PriorRepetition(prior) !in {0, 1} ==>
            r.interval == RoundedProduct(PriorInterval(prior), PriorEasiness(prior)))
  {
  }

  /** The easiness steps for the five qualities: +0.10, 0.00, -0.14, -0.32, -0.54. */
  lemma EasinessDeltaTable()
    ensures EasinessDelta(5) == 10
    ensures EasinessDelta(4) == 0
    ensures EasinessDelta(3) == -14
    ensures EasinessDelta(2) == -32
    ensures EasinessDelta(1) == -54
  {
  }

  /** Easiness is never below 1.3, whatever the prior record held. */
  lemma EasinessAtFloor(prior: PriorState, quality: int, answeredAt: Instant, clock: Instant)
    ensures Transition(prior, quality, answeredAt, clock).easiness >= EasinessFloor
    ensures PriorEasiness(prior) + EasinessDelta(quality) <= EasinessFloor
        ==> Transition(prior, quality, answeredAt, clock).easiness == EasinessFloor
  {
  }

  /** With easiness at least 1.3, round(interval * easiness) never undercuts the interval. */
  lemma RoundedProductGrows(interval: int, easiness: int)
    requires interval >= 1 && easiness >= EasinessFloor
    ensures RoundedProduct(interval, easiness) >= interval
  {
    assert interval * easiness >= interval * 100 by {
      assert interval * (easiness - 100) >= 0;
    }
  }

  /** From the third success on, the interval never shrinks. */
  lemma IntervalGrowsOnSuccess(prior: PriorState, quality: int, answeredAt: Instant, clock: Instant)
    requires !IsFailure(quality)
    requires PriorRepetition(prior) >= 2
    requires PriorInterval(prior) >= 1 && PriorEasiness(prior) >= EasinessFloor
    ensures Transition(prior, quality, answeredAt, clock).interval >= PriorInterval(prior)
  {
    RoundedProductGrows(PriorInterval(prior), PriorEasiness(prior));
  }

  /** With a non-negative prior streak, repetition 0 means exactly that this answer failed. */
  lemma RepetitionZeroIffFailure(prior: PriorState, quality: int, answeredAt: Instant, clock: Instant)
    requires PriorRepetition(prior) >= 0
    ensures Transition(prior, quality, answeredAt, clock).repetition == 0 <==> IsFailure(quality)
  {
  }

  /** A fresh key transitions into a well-formed record. */
  lemma FreshTransitionWellFormed(userId: Id, questionId: Id, quality: int, answeredAt: Instant, clock: Instant)
    ensures WellFormed(Transition(Fresh(userId, questionId), quality, answeredAt, clock))
  {
  }

  /** Transitions keep a stored record well-formed. */
  lemma TransitionPreservesWellFormed(row: ReviewState, quality: int, answeredAt: Instant, clock: Instant)
    requires WellFormed(row)
    ensures WellFormed(Transition(FromRow(row), quality, answeredAt, clock))
  {
  }

  /**
   * `due_at` is a function of the answer instant alone: the clock reading
   * only reaches `updated_at`.
   */
  lemma ClockOnlyStampsUpdatedAt(prior: PriorState, quality: int, answeredAt: Instant, clock1: Instant, clock2: Instant)
    ensures Transition(prior, quality, answeredAt, clock2)
         == Transition(prior, quality, answeredAt, clock1).(updatedAt := clock2)
  {
  }
}
