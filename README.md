# Grade aggregation and projection, modelled in Dafny

This project models the grade utilities of a browser extension that reads a
university's assignment table. The utilities do four things:

- combine assignment records (score, maximum score, weight) into a weighted
  current percentage;
- report the total, graded and missing weight, and warn when the weights do
  not add up to 1;
- for the Pass, Credit, Distinction and High Distinction thresholds (50, 60,
  70 and 80), give the average score the remaining work needs to reach the
  threshold, with "already met" (0) and "unreachable" (null) cases;
- map a percentage to a letter grade, and format an optional percentage for
  display.

Files and modules:

- `wrappers.dfy`, module `Wrappers`: `Option`. `None` stands for `null` / `undefined`.
- `presentation.dfy`, module `Presentation`: `getGradeLevel` and
  `formatPercentage`, plus the lower bound of each passing band.
- `projection.dfy`, module `Projection`: `calculateRequiredScore` and its
  rounding to one decimal, the four projections, and the real-arithmetic
  helper lemmas.
- `aggregation.dfy`, module `Aggregation`: `calculateTotalGrade`. It is an
  imperative method whose loop updates the three accumulators. The loop is
  proved against the specification function `Sum`, and the properties are
  lemmas about `Sum`.

Numbers are Dafny `real`, not IEEE doubles. `Math.round(x * 10) / 10` is
modelled as `Floor(10x + 0.5) / 10`. JavaScript's `Math.round` rounds a half
toward +infinity, and that formula does the same.

An assignment record is `Assignment(score: Option<real>, total: real, weight: real)`.
The computation accepts a `Record`: an assignment whose ratio `score / total`
is defined. The code divides by `total` with no guard whenever the weight is
positive and a score is present (scripts/utils.js:20), so for such records the
model requires `total != 0`. The code has no fail-soft guard that turns a
non-positive `total` into an ungraded record, so the model has none either.

How `calculateRequiredScore` orders its checks is kept as written: the
remaining-weight check (scripts/utils.js:76) comes before the already-met check
(scripts/utils.js:82). With no remaining weight the result is therefore null
even when the target is already met (`Projection.AlreadyMetExample`).
`calculateTotalGrade` only calls it when the missing weight is positive, so on
that path the order makes no difference.

## Model

| member | source | states |
|---|---|---|
| `Aggregation.CalculateTotalGrade` | scripts/utils.js:6-66 | The loop leaves the percentage equal to 100 times the sum of `(score/total)*weight` over the counted, graded records. It leaves the total weight equal to the sum of the positive weights and the completed weight equal to the sum of the graded positive weights. The missing weight is their difference, with `0 <= completedWeight <= totalWeight`. The warning holds iff `abs(totalWeight - 1) > 0.01`. The four estimates are the 50/60/70/80 projections when the missing weight is positive, and all null otherwise. |
| `Aggregation.SumAppend` | scripts/utils.js:14-27 | The accumulation over two concatenated record lists is the sum of the two accumulations. |
| `Aggregation.InsertNeutral` | scripts/utils.js:14-27 | Inserting a record that contributes 0 to an accumulator, at any position, leaves that accumulator unchanged. |
| `Aggregation.SkippedRecordChangesNothing` | scripts/utils.js:14-27 | Inserting or removing a record with `weight <= 0` anywhere leaves the weighted score, total weight and completed weight unchanged. Every field of the result follows from these three. |
| `Aggregation.CountedOnly` | scripts/utils.js:15 | Keeps exactly the records with `weight > 0`: each such record as often as it occurs in the input, and no other record. |
| `Aggregation.CountedOnlyAppend` | scripts/utils.js:14-15 | Filtering a concatenation is the concatenation of the filtered parts, so the kept records stay in their input order. |
| `Aggregation.CountedOnlySingle` | scripts/utils.js:15 | A single record is kept iff its weight is positive. |
| `Aggregation.AccumulatorsIgnoreUncounted` | scripts/utils.js:15-26 | None of the three accumulators takes anything from a record with `weight <= 0`. |
| `Aggregation.SumOfCountedOnly` | scripts/utils.js:14-27 | Each accumulator over the input equals that accumulator over just the records with positive weight. |
| `Aggregation.CountedOnlyKeepsAccumulators` | scripts/utils.js:14-27 | The weighted score, total weight and completed weight over the input equal those over just the records with positive weight. |
| `Aggregation.WeightBounds` | scripts/utils.js:19-36 | `0 <= completedWeight <= totalWeight`, so `missingWeight >= 0`. |
| `Aggregation.WeightedScoreBounds` | scripts/utils.js:19-30 | Suppose every counted, graded record has `total > 0` and `0 <= score <= total`. Then the weighted score lies in `[0, completedWeight]`, so the percentage lies in `[0, 100*completedWeight]`. |
| `Aggregation.EmptyInput` | scripts/utils.js:8-33 | Empty input gives all-zero accumulators and raises the weight-sum warning. |
| `Aggregation.TwoGradedQuarters` | scripts/utils.js:6-36 | Two graded quarters at 81.61 and 72.13 give 38.435 percent, weights 0.5 and 0.5, and the warning. |
| `Aggregation.HalfGraded` | scripts/utils.js:6-51 | One half graded at 90 and one half ungraded give 45 percent, weights 1.0 and 0.5, and no warning. The needed averages are 10, 30, 50 and 70. |
| `Projection.RoundTenth` | scripts/utils.js:90 | The result is a whole number of tenths in `(x - 0.05, x + 0.05]`: the nearest tenth, with a half rounded up. |
| `Projection.RoundTenthUnique` | scripts/utils.js:90 | Only one tenth lies in `(x - 0.05, x + 0.05]`, so that characterisation fixes the rounding. |
| `Projection.RoundTenthMonotone` | scripts/utils.js:90 | Rounding to tenths keeps order. |
| `Projection.RequiredScore` | scripts/utils.js:75-91 | The result is present iff weight remains and a perfect score on it would reach the target. It is 0 when weight remains and the target is already met. A present result is a tenth in `[0, 100]`. When the target is not yet met, averaging that result on the remaining weight reaches the target to within half a tenth: `current + (v - 0.05)*w <= target < current + (v + 0.05)*w`. |
| `Projection.RequiredScoreMonotone` | scripts/utils.js:79-90 | For fixed current percentage and remaining weight, a higher target never needs a lower score. Once a target is unreachable, every higher target is too. |
| `Projection.Project` | scripts/utils.js:45-50 | The Pass, Credit, Distinction and High Distinction estimates are the required scores for the floors 50, 60, 70 and 80 of those grades. Each estimate needs at least as much as the one before, and once one is null every later one is null. |
| `Projection.EstimateDecidesGrade` | scripts/utils.js:79-90 | Averaging at least `v + 0.05` on the remaining weight earns at least the grade whose estimate is `v`. If that grade is not yet earned, averaging less than `v - 0.05` does not earn it. |
| `Projection.AlreadyMetExample` | scripts/utils.js:76-82 | At 85 percent with target 80, the result is 0 when weight remains and null when none remains. |
| `Projection.UnreachableExample` | scripts/utils.js:85-88 | At 10 percent with 0.2 remaining and target 80, the average needed is 350, so the result is null. |
| `Presentation.GradeLevel` | scripts/utils.js:108-114 | HD iff `p >= 80`, D iff `70 <= p < 80`, C iff `60 <= p < 70`, P iff `50 <= p < 60`, F iff `p < 50`. |
| `Presentation.GradeLevelAtLeast` | scripts/utils.js:108-114 | A percentage earns at least a passing grade exactly when it reaches that grade's lower bound. |
| `Presentation.GradeLevelMonotone` | scripts/utils.js:108-114 | A higher percentage never earns a lower grade. |
| `Presentation.FormatPercentage` | scripts/utils.js:98-101 | The result is the fixed string "未知" iff the percentage is missing. Otherwise it is the one-decimal rendering followed by `%`. |

## Left out

- Presentation.FormatPercentage: `Number.prototype.toFixed(1)` is a function parameter of the model. Its digit strings are not modelled.
- IEEE-754 arithmetic: every sum, quotient and rounding is exact over the reals. The model therefore does not capture floating-point effects. One example: a graded record of weight 1.0 plus an ungraded record of weight 1e-17 gives `totalWeight == 1.0` in doubles, so JavaScript computes `missingWeight == 0` and skips the projections (scripts/utils.js:45); the model has a positive missing weight and makes them.
- Records whose weight is positive and whose score is present but whose `total` is 0: here JavaScript computes `Infinity` or `NaN`. The model excludes these records through the `Record` type.
- Input typing: non-numeric or missing `weight` and `total` fields are not modelled. Every field is a real, and a missing score is `None`.
- The record's `name` field: `calculateTotalGrade` never reads it.
- The `assignmentsWithWeight` counter (scripts/utils.js:11, 16): it is never used.
- The `window.gradeUtils` export (scripts/utils.js:117-122): it is a global registration with no logic.
- popup/popup.js, scripts/content.js and background.js are not part of this model. They hold DOM scraping, rendering, storage and message passing.
