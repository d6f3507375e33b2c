/** The tolerance with which prices are compared. */
module Tolerance {

  const EPSILON: real := 0.000000001

  predicate NearlyEqual(a: real, b: real) {
    if a > b then a - b < EPSILON else b - a < EPSILON
  }

  /** Two prices are nearly equal exactly if they are less than a billionth apart, in either direction. */
  lemma NearlyEqualMeaning(a: real, b: real)
    ensures NearlyEqual(a, b) <==> -0.000000001 < a - b < 0.000000001
  {
  }
}
