/**
 * Presentation helpers of the grade utilities: the letter grade of a
 * percentage and the display string of an optional percentage.
 */
module Presentation {
  import opened Wrappers

  /** The letter grades, from High Distinction down to Fail. */
  datatype Grade = HD | D | C | P | F

  /** Position of a grade on the scale; Fail is lowest. */
  function Rank(g: Grade): nat
  {
    match g
    case F => 0
    case P => 1
    case C => 2
    case D => 3
    case HD => 4
  }

  /** The lowest percentage that earns a passing grade (inclusive). */
  function BandFloor(g: Grade): real
    requires g != F
  {
    match g
    case P => 50.0
    case C => 60.0
    case D => 70.0
    case HD => 80.0
  }

  /** getGradeLevel: the band whose inclusive lower bound the percentage reaches. */
  function GradeLevel(percentage: real): (g: Grade)
    ensures g == HD <==> percentage >= 80.0
    ensures g == D <==> 70.0 <= percentage < 80.0
    ensures g == C <==> 60.0 <= percentage < 70.0
    ensures g == P <==> 50.0 <= percentage < 60.0
    ensures g == F <==> percentage < 50.0
  {
    if percentage >= BandFloor(HD) then HD
    else if percentage >= BandFloor(D) then D
    else if percentage >= BandFloor(C) then C
    else if percentage >= BandFloor(P) then P
    else F
  }

  /** A percentage earns at least a passing grade `b` exactly when it reaches that grade's floor. */
  lemma GradeLevelAtLeast(percentage: real, b: Grade)
    requires b != F
    ensures Rank(GradeLevel(percentage)) >= Rank(b) <==> percentage >= BandFloor(b)
  {
  }

  /** A higher percentage never earns a lower grade. */
  lemma GradeLevelMonotone(p: real, q: real)
    requires p <= q
    ensures Rank(GradeLevel(p)) <= Rank(GradeLevel(q))
  {
  }

  /** The sentinel shown for a missing percentage ("unknown"). */
  const Unknown: string := "未知"

  /**
   * formatPercentage. The one-decimal rendering of a number
   * (`Number.prototype.toFixed(1)`) is a parameter of the model.
   */
  function FormatPercentage(percentage: Option<real>, toFixed1: real -> string): (s: string)
    ensures s == Unknown <==> percentage.None?
    ensures percentage.Some? ==> |s| > 0 && s[|s| - 1] == '%' && s[..|s| - 1] == toFixed1(percentage.value)
  {
    match percentage
    case None => Unknown
    case Some(p) =>
      var s := toFixed1(p) + "%";
      assert s[|s| - 1] != Unknown[|Unknown| - 1];
      s
  }
}
