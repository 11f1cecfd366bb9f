/**
 * calculateRequiredScore: the average score rate needed on the remaining
 * weight to reach a target percentage, and the four projections
 * (Pass, Credit, Distinction, High Distinction) built from it.
 */
module Projection {
  import opened Wrappers
  import opened Presentation

  /** `x` is a whole number of tenths. */
  predicate IsTenth(x: real)
  {
    (10.0 * x).Floor as real == 10.0 * x
  }

  /** `Math.round(x * 10) / 10`: the nearest tenth, a half rounded up. */
  function RoundTenth(x: real): (r: real)
    ensures IsTenth(r)
    ensures x - 0.05 < r <= x + 0.05
  {
    (10.0 * x + 0.5).Floor as real / 10.0
  }

  /** The nearest-tenth characterisation pins the rounding down: no other tenth lies in (x - 0.05, x + 0.05]. */
  lemma RoundTenthUnique(x: real, k: int)
    requires x - 0.05 < k as real / 10.0 <= x + 0.05
    ensures RoundTenth(x) == k as real / 10.0
  {
    var n := (10.0 * x + 0.5).Floor;
    assert 10.0 * x - 0.5 < k as real <= 10.0 * x + 0.5;
    assert n as real <= 10.0 * x + 0.5 < n as real + 1.0;
    assert n == k;
  }

  /** Rounding to tenths preserves order. */
  lemma RoundTenthMonotone(x: real, y: real)
    requires x <= y
    ensures RoundTenth(x) <= RoundTenth(y)
  {
    assert (10.0 * x + 0.5).Floor <= (10.0 * y + 0.5).Floor;
  }

  /**
   * calculateRequiredScore(current, remaining, target): None when nothing
   * remains, 0 when the target is already met, None when more than 100 would
   * be needed, otherwise the required average rounded to a tenth.
   */
  function RequiredScore(current: real, remaining: real, target: real): (r: Option<real>)
    // reachable exactly when a perfect score on the remaining weight reaches the target
    ensures r.Some? <==> remaining > 0.0 && target - current <= 100.0 * remaining
    ensures remaining > 0.0 && target <= current ==> r == Some(0.0)
    ensures r.Some? ==> 0.0 <= r.value <= 100.0 && IsTenth(r.value)
    // the reported average, up to half a tenth, is what it takes to reach the target
    ensures r.Some? && target > current ==>
              current + (r.value - 0.05) * remaining <= target < current + (r.value + 0.05) * remaining
  {
    if remaining <= 0.0 then None
    else
      var requiredContribution := target - current;
      if requiredContribution <= 0.0 then Some(0.0)
      else
        var requiredAverage := requiredContribution / remaining;
        DivCompare(requiredContribution, remaining, 100.0);
        if requiredAverage > 100.0 then None
        else
          var v := RoundTenth(requiredAverage);
          DivCompare(requiredContribution, remaining, v - 0.05);
          DivCompare(requiredContribution, remaining, v + 0.05);
          Some(v)
  }

  /** Comparing a quotient by a positive weight is comparing against the scaled bound. */
  lemma DivCompare(n: real, w: real, k: real)
    requires w > 0.0
    ensures n / w > k <==> n > k * w
    ensures n / w < k <==> n < k * w
  {
  }

  /** Sign facts about products, used as explicit steps in the proofs below. */
  lemma NonNegativeProduct(d: real, w: real)
    requires d >= 0.0 && w > 0.0
    ensures d * w >= 0.0
  {
  }

  /** Averaging at least `bound` on weight `w` keeps above a target that `bound` reaches. */
  lemma ScoreAtLeast(current: real, w: real, bound: real, average: real, target: real)
    requires w > 0.0 && average >= bound && target <= current + bound * w
    ensures target <= current + average * w
  {
  }

  /** Averaging less than `bound` on weight `w` stays below a target that `bound` does not pass. */
  lemma ScoreBelow(current: real, w: real, bound: real, average: real, target: real)
    requires w > 0.0 && average < bound && current + bound * w <= target
    ensures current + average * w < target
  {
  }

  /**
   * For fixed current percentage and remaining weight, a higher target never
   * needs a lower score, and once a target is unreachable every higher one is.
   */
  lemma RequiredScoreMonotone(current: real, remaining: real, t1: real, t2: real)
    requires t1 <= t2
    ensures RequiredScore(current, remaining, t1).None? ==> RequiredScore(current, remaining, t2).None?
    ensures RequiredScore(current, remaining, t2).Some? ==>
              RequiredScore(current, remaining, t1).value <= RequiredScore(current, remaining, t2).value
  {
    if remaining > 0.0 && t1 > current && t2 - current <= 100.0 * remaining {
      DivideMonotone(t1 - current, t2 - current, remaining);
      RoundTenthMonotone((t1 - current) / remaining, (t2 - current) / remaining);
    }
  }

  /** Dividing by a positive weight keeps order. */
  lemma DivideMonotone(a: real, b: real, w: real)
    requires a <= b && w > 0.0
    ensures a / w <= b / w
  {
  }

  /** The four required-score estimates, in the order Pass, Credit, Distinction, High Distinction. */
  datatype Estimates = Estimates(toPass: Option<real>, toCredit: Option<real>,
                                 toDistinction: Option<real>, toHighDistinction: Option<real>)

  /** No projection at all: every estimate is null. */
  const NoEstimates: Estimates := Estimates(None, None, None, None)

  /** `b` asks at least as much as `a`: if `a` is unreachable, so is `b`. */
  predicate NotBelow(a: Option<real>, b: Option<real>)
  {
    b.Some? ==> a.Some? && a.value <= b.value
  }

  predicate Ordered(e: Estimates)
  {
    NotBelow(e.toPass, e.toCredit) && NotBelow(e.toCredit, e.toDistinction)
    && NotBelow(e.toDistinction, e.toHighDistinction)
  }

  /** The estimate for one passing grade: the score needed to reach that grade's floor. */
  function EstimateFor(e: Estimates, g: Grade): Option<real>
    requires g != F
  {
    match g
    case P => e.toPass
    case C => e.toCredit
    case D => e.toDistinction
    case HD => e.toHighDistinction
  }

  /** The projections for targets 50, 60, 70 and 80. */
  function Project(current: real, missing: real): (e: Estimates)
    ensures forall g :: g != F ==> EstimateFor(e, g) == RequiredScore(current, missing, BandFloor(g))
    ensures Ordered(e)
  {
    RequiredScoreMonotone(current, missing, BandFloor(P), BandFloor(C));
    RequiredScoreMonotone(current, missing, BandFloor(C), BandFloor(D));
    RequiredScoreMonotone(current, missing, BandFloor(D), BandFloor(HD));
    Estimates(RequiredScore(current, missing, BandFloor(P)), RequiredScore(current, missing, BandFloor(C)),
              RequiredScore(current, missing, BandFloor(D)), RequiredScore(current, missing, BandFloor(HD)))
  }

  /**
   * What an estimate means for the final grade: averaging half a tenth above
   * the reported score on the remaining weight earns at least grade `g`;
   * averaging more than half a tenth below it (when the grade is not already
   * earned) falls short of `g`.
   */
  lemma EstimateDecidesGrade(current: real, remaining: real, g: Grade, average: real)
    requires g != F
    requires RequiredScore(current, remaining, BandFloor(g)).Some?
    ensures var v := RequiredScore(current, remaining, BandFloor(g)).value;
            (average >= v + 0.05 ==> Rank(GradeLevel(current + average * remaining)) >= Rank(g))
            && (current < BandFloor(g) && average < v - 0.05 ==>
                  Rank(GradeLevel(current + average * remaining)) < Rank(g))
  {
    var target := BandFloor(g);
    var v := RequiredScore(current, remaining, target).value;
    var final := current + average * remaining;
    if average >= v + 0.05 {
      if current >= target {
        ScoreAtLeast(current, remaining, 0.0, average, target);
      } else {
        ScoreAtLeast(current, remaining, v + 0.05, average, target);
      }
      GradeLevelAtLeast(final, g);
    }
    if current < target && average < v - 0.05 {
      ScoreBelow(current, remaining, v - 0.05, average, target);
      GradeLevelAtLeast(final, g);
    }
  }

  /**
   * At 85 percent the 80 target is already met while weight remains, but with
   * no remaining weight the remaining-weight check comes first and gives null.
   */
  lemma AlreadyMetExample(remaining: real)
    ensures RequiredScore(85.0, remaining, 80.0) == if remaining > 0.0 then Some(0.0) else None
  {
  }

  /** At 10 percent with 0.2 of the weight left, 80 would need an average of 350: unreachable. */
  lemma UnreachableExample()
    ensures RequiredScore(10.0, 0.2, 80.0) == None
  {
  }
}
