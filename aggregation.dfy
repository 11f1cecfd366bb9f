/**
 * calculateTotalGrade: one pass over the assignment records accumulating the
 * weighted score, the counted weight and the graded weight, followed by the
 * derived percentage, missing weight, weight-sum warning and, when some
 * weight is still ungraded, the four required-score projections.
 */
module Aggregation {
  import opened Wrappers
  import opened Projection

  /** One assignment record; `score` is None while the work is ungraded. */
  datatype Assignment = Assignment(score: Option<real>, total: real, weight: real)

  /** Only records with positive weight enter any accumulator. */
  predicate Counted(a: Assignment)
  {
    a.weight > 0.0
  }

  /** A counted record that carries a score, so it adds to the completed weight. */
  predicate Graded(a: Assignment)
  {
    Counted(a) && a.score.Some?
  }

  /** The division `score / total` is defined: graded, counted records have a non-zero total. */
  predicate Divisible(a: Assignment)
  {
    Graded(a) ==> a.total != 0.0
  }

  /** The records the computation accepts: those whose ratio `score / total` is defined. */
  type Record = a: Assignment | Divisible(a) witness Assignment(None, 1.0, 0.0)

  /** What a record adds to the weighted score: `(score / total) * weight` when counted and graded. */
  function WeightedScoreOf(a: Record): real
  {
    if Graded(a) then a.score.value / a.total * a.weight else 0.0
  }

  /** What a record adds to the total weight: its weight when counted. */
  function WeightOf(a: Record): real
  {
    if Counted(a) then a.weight else 0.0
  }

  /** What a record adds to the completed weight: its weight when counted and graded. */
  function CompletedOf(a: Record): real
  {
    if Graded(a) then a.weight else 0.0
  }

  /** The sum of `f` over the records of `s`, accumulated in order. */
  function Sum(s: seq<Record>, f: Record -> real): real
  {
    if s == [] then 0.0 else Sum(s[..|s| - 1], f) + f(s[|s| - 1])
  }

  /** The absolute value of `x`, as `Math.abs`. */
  function Abs(x: real): real
  {
    if x < 0.0 then -x else x
  }

  /** The result of calculateTotalGrade. */
  datatype GradeSummary = GradeSummary(
    currentPercentage: real,
    completedWeight: real,
    totalWeight: real,
    missingWeight: real,
    weightSumWarning: bool,
    requirementEstimates: Estimates)

  method CalculateTotalGrade(assignments: seq<Record>) returns (result: GradeSummary)
    ensures result.currentPercentage == 100.0 * Sum(assignments, WeightedScoreOf)
    ensures result.totalWeight == Sum(assignments, WeightOf)
    ensures result.completedWeight == Sum(assignments, CompletedOf)
    ensures result.missingWeight == result.totalWeight - result.completedWeight
    ensures 0.0 <= result.completedWeight <= result.totalWeight
    ensures result.weightSumWarning <==> Abs(result.totalWeight - 1.0) > 0.01
    ensures result.requirementEstimates ==
              if result.missingWeight > 0.0 then Project(result.currentPercentage, result.missingWeight)
              else NoEstimates
  {
    var totalWeightedScore, totalWeight, completedWeight := 0.0, 0.0, 0.0;
    for i := 0 to |assignments|
      invariant totalWeightedScore == Sum(assignments[..i], WeightedScoreOf)
      invariant totalWeight == Sum(assignments[..i], WeightOf)
      invariant completedWeight == Sum(assignments[..i], CompletedOf)
    {
      var assignment := assignments[i];
      assert assignments[..i + 1][..i] == assignments[..i];
      if assignment.weight > 0.0 {
        if assignment.score.Some? {
          var weightedScore := assignment.score.value / assignment.total * assignment.weight;
          totalWeightedScore := totalWeightedScore + weightedScore;
          completedWeight := completedWeight + assignment.weight;
        }
        totalWeight := totalWeight + assignment.weight;
      }
    }
    assert assignments[..|assignments|] == assignments;
    WeightBounds(assignments);

    var currentPercentage := totalWeightedScore * 100.0;
    var weightSumWarning := Abs(totalWeight - 1.0) > 0.01;
    var missingWeight := totalWeight - completedWeight;
    var estimates := NoEstimates;
    if missingWeight > 0.0 {
      estimates := Project(currentPercentage, missingWeight);
    }
    result := GradeSummary(currentPercentage, completedWeight, totalWeight, missingWeight,
                           weightSumWarning, estimates);
  }

  /** A sum over a concatenation is the sum of the two sums. */
  lemma {:induction false} SumAppend(s: seq<Record>, t: seq<Record>, f: Record -> real)
    ensures Sum(s + t, f) == Sum(s, f) + Sum(t, f)
    decreases |t|
  {
    if t == [] {
      assert s + t == s;
    } else {
      assert (s + t)[..|s + t| - 1] == s + t[..|t| - 1];
      SumAppend(s, t[..|t| - 1], f);
    }
  }

  /** Inserting a record on which `f` is zero leaves the sum of `f` unchanged. */
  lemma InsertNeutral(s: seq<Record>, k: nat, a: Record, f: Record -> real)
    requires k <= |s| && f(a) == 0.0
    ensures Sum(s[..k] + [a] + s[k..], f) == Sum(s, f)
  {
    assert [a][..0] == [];
    SumAppend(s[..k], [a], f);
    SumAppend(s[..k] + [a], s[k..], f);
    SumAppend(s[..k], s[k..], f);
    assert s[..k] + s[k..] == s;
  }

  /**
   * A record with weight <= 0 touches no accumulator: inserting it anywhere
   * (or, read backwards, removing it) leaves all three sums unchanged, hence
   * also the percentage, missing weight, warning and projections.
   */
  lemma SkippedRecordChangesNothing(s: seq<Record>, k: nat, a: Record)
    requires k <= |s|
    requires a.weight <= 0.0
    ensures Sum(s[..k] + [a] + s[k..], WeightedScoreOf) == Sum(s, WeightedScoreOf)
    ensures Sum(s[..k] + [a] + s[k..], WeightOf) == Sum(s, WeightOf)
    ensures Sum(s[..k] + [a] + s[k..], CompletedOf) == Sum(s, CompletedOf)
  {
    InsertNeutral(s, k, a, WeightedScoreOf);
    InsertNeutral(s, k, a, WeightOf);
    InsertNeutral(s, k, a, CompletedOf);
  }

  /**
   * The records with positive weight, in their original order: each record of
   * positive weight is kept as often as it occurs, every other record is dropped
   * (order: see CountedOnlyAppend).
   */
  function CountedOnly(s: seq<Record>): (r: seq<Record>)
    ensures forall i :: 0 <= i < |r| ==> Counted(r[i])
    ensures forall a :: multiset(r)[a] == if Counted(a) then multiset(s)[a] else 0
  {
    if s == [] then []
    else
      var init, last := s[..|s| - 1], s[|s| - 1];
      assert s == init + [last];
      if Counted(last) then CountedOnly(init) + [last] else CountedOnly(init)
  }

  /**
   * Filtering a concatenation filters each part and keeps the parts in order;
   * with `CountedOnly([a])` being `[a]` or `[]`, the kept records keep their
   * relative order.
   */
  lemma {:induction false} CountedOnlyAppend(s: seq<Record>, t: seq<Record>)
    ensures CountedOnly(s + t) == CountedOnly(s) + CountedOnly(t)
    decreases |t|
  {
    if t == [] {
      assert s + t == s;
    } else {
      var t', last := t[..|t| - 1], t[|t| - 1];
      assert (s + t)[..|s + t| - 1] == s + t';
      assert (s + t)[|s + t| - 1] == last;
      CountedOnlyAppend(s, t');
    }
  }

  /** A single record is kept exactly when its weight is positive. */
  lemma CountedOnlySingle(a: Record)
    ensures CountedOnly([a]) == if Counted(a) then [a] else []
  {
    assert [a][..0] == [];
  }

  /** `f` gives nothing to a record of weight <= 0, as all three accumulators do. */
  ghost predicate IgnoresUncounted(f: Record -> real)
  {
    forall a: Record :: !Counted(a) ==> f(a) == 0.0
  }

  /** The sums depend only on the records with positive weight. */
  lemma {:induction false} SumOfCountedOnly(s: seq<Record>, f: Record -> real)
    requires IgnoresUncounted(f)
    ensures Sum(CountedOnly(s), f) == Sum(s, f)
  {
    if s != [] {
      var init, last := s[..|s| - 1], s[|s| - 1];
      SumOfCountedOnly(init, f);
      if Counted(last) {
        SumAppend(CountedOnly(init), [last], f);
        assert [last][..0] == [];
      } else {
        assert f(last) == 0.0;
      }
    }
  }

  /** None of the three accumulators takes anything from a record of weight <= 0. */
  lemma AccumulatorsIgnoreUncounted()
    ensures IgnoresUncounted(WeightedScoreOf)
    ensures IgnoresUncounted(WeightOf)
    ensures IgnoresUncounted(CompletedOf)
  {
  }

  /** Dropping every record of weight <= 0 at once leaves all three accumulators unchanged. */
  lemma CountedOnlyKeepsAccumulators(s: seq<Record>)
    ensures Sum(CountedOnly(s), WeightedScoreOf) == Sum(s, WeightedScoreOf)
    ensures Sum(CountedOnly(s), WeightOf) == Sum(s, WeightOf)
    ensures Sum(CountedOnly(s), CompletedOf) == Sum(s, CompletedOf)
  {
    AccumulatorsIgnoreUncounted();
    SumOfCountedOnly(s, WeightedScoreOf);
    SumOfCountedOnly(s, WeightOf);
    SumOfCountedOnly(s, CompletedOf);
  }

  /** Graded weight is part of the counted weight, and neither is negative. */
  lemma {:induction false} WeightBounds(s: seq<Record>)
    ensures 0.0 <= Sum(s, CompletedOf) <= Sum(s, WeightOf)
  {
    if s != [] {
      WeightBounds(s[..|s| - 1]);
    }
  }

  /** A counted, graded record has a positive total and a score between 0 and that total. */
  predicate ScoreInRange(a: Record)
  {
    Graded(a) ==> a.total > 0.0 && 0.0 <= a.score.value <= a.total
  }

  /** An in-range score gives a ratio `score / total` between 0 and 1. */
  lemma RatioInUnit(score: real, total: real)
    requires total > 0.0 && 0.0 <= score <= total
    ensures 0.0 <= score / total <= 1.0
  {
  }

  /** With in-range scores the weighted score lies between 0 and the completed weight. */
  lemma {:induction false} WeightedScoreBounds(s: seq<Record>)
    requires forall i :: 0 <= i < |s| ==> ScoreInRange(s[i])
    ensures 0.0 <= Sum(s, WeightedScoreOf) <= Sum(s, CompletedOf)
  {
    if s != [] {
      var init, last := s[..|s| - 1], s[|s| - 1];
      assert forall i :: 0 <= i < |init| ==> init[i] == s[i];
      WeightedScoreBounds(init);
      if Graded(last) {
        assert ScoreInRange(last);
        var ratio := last.score.value / last.total;
        RatioInUnit(last.score.value, last.total);
        NonNegativeProduct(ratio, last.weight);
        NonNegativeProduct(1.0 - ratio, last.weight);
        assert (1.0 - ratio) * last.weight == last.weight - ratio * last.weight;
      }
    }
  }

  /** Empty input: every accumulator is zero and the weight-sum warning is raised. */
  lemma EmptyInput()
    ensures Sum([], WeightedScoreOf) == Sum([], WeightOf) == Sum([], CompletedOf) == 0.0
    ensures Abs(Sum([], WeightOf) - 1.0) > 0.01
  {
  }

  /** Two graded quarters (81.61 and 72.13 out of 100): 38.435 percent, nothing missing, warning raised. */
  lemma TwoGradedQuarters()
    ensures var s: seq<Record> := [Assignment(Some(81.61), 100.0, 0.25), Assignment(Some(72.13), 100.0, 0.25)];
            && 100.0 * Sum(s, WeightedScoreOf) == 38.435
            && Sum(s, WeightOf) == 0.5 && Sum(s, CompletedOf) == 0.5
            && Abs(Sum(s, WeightOf) - 1.0) > 0.01
  {
  }

  /**
   * One half graded at 90, one half ungraded: 45 percent, half the weight
   * missing, no warning, and 10, 30, 50 and 70 needed for P, C, D and HD.
   */
  lemma HalfGraded()
    ensures var s: seq<Record> := [Assignment(Some(90.0), 100.0, 0.5), Assignment(None, 100.0, 0.5)];
            && 100.0 * Sum(s, WeightedScoreOf) == 45.0
            && Sum(s, WeightOf) == 1.0 && Sum(s, CompletedOf) == 0.5
            && Abs(Sum(s, WeightOf) - 1.0) <= 0.01
            && Project(45.0, 0.5) == Estimates(Some(10.0), Some(30.0), Some(50.0), Some(70.0))
  {
  }
}
