/**
 * The SM-2 step as the edge function writes it, over real numbers: easiness
 * is a fraction such as 2.5, the constants are 0.1, 0.08, 0.02 and 1.3, and
 * the next interval is Math.round(interval * easiness). This is the
 * reference against which the exact hundredths encoding of `Sm2` is proved.
 * Rounding of IEEE-754 doubles is not part of it: the reals here are exact.
 */
module Sm2Reference {
  import opened Sm2

  /** Math.round: the nearest integer, halves rounded up (floor(x + 1/2)). */
  function Round(x: real): int
  {
    (x + 0.5).Floor
  }

  /** Math.max(1.3, easiness + (0.1 - (5 - q) * (0.08 + (5 - q) * 0.02))). */
  function RealNextEasiness(easiness: real, quality: int): real
  {
    var d := (5 - quality) as real;
    var e := easiness + (0.1 - d * (0.08 + d * 0.02));
    if 1.3 >= e then 1.3 else e
  }

  /** The (repetition, interval, easiness) part of the SM-2 step, over reals. */
  datatype RealStep = RealStep(repetition: int, interval: int, easiness: real)

  function RealTransition(repetition: int, interval: int, easiness: real, quality: int): RealStep
  {
    if quality < 3 then
      RealStep(0, 1, RealNextEasiness(easiness, quality))
    else
      var i := if repetition == 0 then 1
               else if repetition == 1 then 6
               else Round(interval as real * easiness);
      RealStep(repetition + 1, i, RealNextEasiness(easiness, quality))
  }

  /** Hundredths as the fraction they stand for. */
  function AsReal(hundredths: int): real
  {
    hundredths as real / 100.0
  }

  /** The integer rounding of `Sm2` is Math.round of the real product. */
  lemma RoundingMatchesReal(interval: int, easiness: int)
    ensures RoundedProduct(interval, easiness) == Round(interval as real * AsReal(easiness))
  {
  }

  /** The integer easiness step is the real formula, exactly. */
  lemma EasinessMatchesReal(easiness: int, quality: int)
    ensures AsReal(NextEasiness(easiness, quality)) == RealNextEasiness(AsReal(easiness), quality)
  {
  }

  /** `Sm2.Transition` computes what the edge function computes, field by field. */
  lemma TransitionMatchesReference(prior: PriorState, quality: int, answeredAt: Instant, clock: Instant)
    ensures var r := Transition(prior, quality, answeredAt, clock);
      var s := RealTransition(PriorRepetition(prior), PriorInterval(prior), AsReal(PriorEasiness(prior)), quality);
      && r.repetition == s.repetition
      && r.interval == s.interval
      && AsReal(r.easiness) == s.easiness
  {
  }
}
