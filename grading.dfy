/**
 * Letter grading of a page view's CO2 figure: ordered bands with inclusive
 * upper bounds 0.5, 1.0, 1.5 and 2.0 grams, first match wins, F above.
 */
module Grading {

  datatype Grade = A | B | C | D | F {
    /** The one-letter string the grade is reported as. */
    function Letter(): (s: string)
      ensures |s| == 1
    {
      match this
      case A => "A"
      case B => "B"
      case C => "C"
      case D => "D"
      case F => "F"
    }

    /** How good the grade is: A is best (4), F is worst (0). */
    function Goodness(): (n: nat)
      ensures n <= 4
      ensures n == 4 <==> this == A
      ensures n == 0 <==> this == F
    {
      match this
      case A => 4
      case B => 3
      case C => 2
      case D => 1
      case F => 0
    }
  }

  /** The letter grade for a CO2 figure in grams per page view. */
  function GradeFromCo2(co2G: real): (g: Grade)
    ensures g == A <==> co2G <= 0.5
    ensures g == B <==> 0.5 < co2G <= 1.0
    ensures g == C <==> 1.0 < co2G <= 1.5
    ensures g == D <==> 1.5 < co2G <= 2.0
    ensures g == F <==> 2.0 < co2G
  {
    if co2G <= 0.5 then A
    else if co2G <= 1.0 then B
    else if co2G <= 1.5 then C
    else if co2G <= 2.0 then D
    else F
  }

  /** The letters that name a grade. */
  predicate IsGradeLetter(letter: string) {
    letter == "A" || letter == "B" || letter == "C" || letter == "D" || letter == "F"
  }

  /** The human-readable meaning of a grade letter; the empty string for any other string. */
  function GradeDescription(letter: string): (d: string)
    ensures d != "" <==> IsGradeLetter(letter)
  {
    if letter == "A" then "Excellent – ultra-light page, great for performance and the planet."
    else if letter == "B" then "Good – efficient overall, with room for a bit more optimization."
    else if letter == "C" then "Okay – around average; optimizations would make a real impact."
    else if letter == "D" then "Heavy – likely room to trim assets, images, and scripts."
    else if letter == "F" then "Very heavy – urgently needs performance and sustainability work."
    else ""
  }

  /** Distinct grades are reported as distinct letters, each one a grade letter. */
  lemma LettersDistinct(g: Grade, h: Grade)
    ensures IsGradeLetter(g.Letter())
    ensures g.Letter() == h.Letter() <==> g == h
  {
    assert g.Letter()[0] == match g case A => 'A' case B => 'B' case C => 'C' case D => 'D' case F => 'F';
    assert h.Letter()[0] == match h case A => 'A' case B => 'B' case C => 'C' case D => 'D' case F => 'F';
  }

  /** A higher CO2 figure never earns a better grade. */
  lemma GradeMonotone(x: real, y: real)
    requires x <= y
    ensures GradeFromCo2(x).Goodness() >= GradeFromCo2(y).Goodness()
  {
  }

  /** The boundary cases: bounds are inclusive and the first band that fits wins. */
  lemma GradeBoundaryExamples()
    ensures GradeFromCo2(0.5) == A
    ensures GradeFromCo2(0.51) == B
    ensures GradeFromCo2(1.0) == B
    ensures GradeFromCo2(1.5) == C
    ensures GradeFromCo2(2.0) == D
    ensures GradeFromCo2(2.1) == F
  {
  }

  /** Every computed grade has a non-empty description. */
  lemma DescriptionOfComputedGrade(co2G: real)
    ensures GradeDescription(GradeFromCo2(co2G).Letter()) != ""
  {
    LettersDistinct(GradeFromCo2(co2G), A);
  }
}
