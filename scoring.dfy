/**
 * The arithmetic that grading and the dashboards share: JavaScript's `Math.round` of a
 * quotient, the zero-guarded percentage of an attempt, the pass verdict, and the clamp
 * applied to a score typed by an evaluator.
 */
module Scoring {
  import opened Wrappers

  /** Multiplying by a positive factor keeps the order. */
  lemma {:induction false} MulMonotonic(d: int, a: int, b: int)
    requires d > 0 && a <= b
    ensures d * a <= d * b
  {
    assert d * b - d * a == d * (b - a);
  }

  /**
   * `Math.round(n / d)` for a positive divisor, computed exactly: the integer nearest to
   * `n / d`, a half rounded up (towards positive infinity, as `Math.round` does).
   */
  function RoundDiv(n: int, d: int): (r: int)
    requires d > 0
    ensures d * (2 * r - 1) <= 2 * n < d * (2 * r + 1)
  {
    var q := (2 * n + d) / (2 * d);
    var rem := (2 * n + d) % (2 * d);
    assert 2 * n + d == 2 * d * q + rem && 0 <= rem < 2 * d;
    assert d * (2 * q - 1) == 2 * d * q - d;
    assert d * (2 * q + 1) == 2 * d * q + d;
    q
  }

  /** The bounds of `RoundDiv` pin its result down: no other integer satisfies them. */
  lemma {:induction false} RoundDivUnique(n: int, d: int, r: int)
    requires d > 0
    requires d * (2 * r - 1) <= 2 * n < d * (2 * r + 1)
    ensures r == RoundDiv(n, d)
  {
    var q := RoundDiv(n, d);
    if r < q {
      MulMonotonic(d, 2 * r + 1, 2 * q - 1);
    } else if r > q {
      MulMonotonic(d, 2 * q + 1, 2 * r - 1);
    }
  }

  /** A rounded quotient of a numerator between 0 and `k * d` lies between 0 and `k`. */
  lemma {:induction false} RoundDivBounds(n: int, d: int, k: int)
    requires d > 0 && 0 <= n <= k * d
    ensures 0 <= RoundDiv(n, d) <= k
  {
    var r := RoundDiv(n, d);
    if r < 0 {
      MulMonotonic(d, 2 * r + 1, -1);
    }
    if r > k {
      MulMonotonic(d, 2 * k + 1, 2 * r - 1);
    }
  }

  /** A larger numerator never rounds to a smaller quotient. */
  lemma {:induction false} RoundDivMonotonic(n1: int, n2: int, d: int)
    requires d > 0 && n1 <= n2
    ensures RoundDiv(n1, d) <= RoundDiv(n2, d)
  {
    var r1, r2 := RoundDiv(n1, d), RoundDiv(n2, d);
    if r1 > r2 {
      MulMonotonic(d, 2 * r2 + 1, 2 * r1 - 1);
    }
  }

  /**
   * The attempt percentage `maxScore > 0 ? Math.round((totalScore / maxScore) * 100) : 0`:
   * a zero (or negative) maximum gives 0 instead of a division by zero, otherwise the result
   * is `100 * totalScore / maxScore` rounded to the nearest integer, halves up.
   */
  function Percentage(totalScore: int, maxScore: int): (p: int)
    ensures maxScore <= 0 ==> p == 0
    ensures maxScore > 0 ==> maxScore * (2 * p - 1) <= 200 * totalScore < maxScore * (2 * p + 1)
  {
    if maxScore > 0 then RoundDiv(100 * totalScore, maxScore) else 0
  }

  /** When no more than the maximum is awarded, and nothing negative, the percentage is within 0..100. */
  lemma {:induction false} PercentageBounds(totalScore: int, maxScore: int)
    requires 0 <= totalScore <= maxScore
    ensures 0 <= Percentage(totalScore, maxScore) <= 100
  {
    if maxScore > 0 {
      RoundDivBounds(100 * totalScore, maxScore, 100);
    }
  }

  /** Awarding more points never lowers the percentage. */
  lemma {:induction false} PercentageMonotonic(total1: int, total2: int, maxScore: int)
    requires total1 <= total2
    ensures Percentage(total1, maxScore) <= Percentage(total2, maxScore)
  {
    if maxScore > 0 {
      RoundDivMonotonic(100 * total1, 100 * total2, maxScore);
    }
  }

  /** `percentage >= test.passing_score`. */
  predicate Passed(percentage: int, passingScore: int)
  {
    percentage >= passingScore
  }

  /** Awarding more points never turns a pass into a fail. */
  lemma {:induction false} VerdictMonotonic(total1: int, total2: int, maxScore: int, passingScore: int)
    requires total1 <= total2
    requires Passed(Percentage(total1, maxScore), passingScore)
    ensures Passed(Percentage(total2, maxScore), passingScore)
  {
    PercentageMonotonic(total1, total2, maxScore);
  }

  /**
   * A typed score after `parseInt(value) || 0` and `Math.min(Math.max(0, n), maxPoints)`:
   * `input` is the parsed number, `None` when `parseInt` gives `NaN`.
   */
  function ClampScore(input: Option<int>, maxPoints: int): (r: int)
    ensures 0 <= maxPoints ==> 0 <= r <= maxPoints
    ensures 0 <= input.GetOr(0) <= maxPoints ==> r == input.GetOr(0)
    ensures 0 <= maxPoints < input.GetOr(0) ==> r == maxPoints
    ensures input.GetOr(0) < 0 <= maxPoints ==> r == 0
    ensures maxPoints < 0 ==> r == maxPoints
  {
    var n := input.GetOr(0);
    var low := if 0 < n then n else 0;
    if low < maxPoints then low else maxPoints
  }
}
