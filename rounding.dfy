/** PHP's `round()` in its default mode: to the nearest integer, halves away
    from zero. */
module Rounding {

  function RoundHalfAwayFromZero(x: real): (r: int)
    ensures x >= 0.0 ==> x - 0.5 < r as real <= x + 0.5
    ensures x < 0.0 ==> x - 0.5 <= r as real < x + 0.5
  {
    if x >= 0.0 then (x + 0.5).Floor else -((-x + 0.5).Floor)
  }

  /** The contract pins the result down: no other integer is as near to `x`
      with ties broken away from zero. */
  lemma RoundUnique(x: real, k: int)
    requires x >= 0.0 ==> x - 0.5 < k as real <= x + 0.5
    requires x < 0.0 ==> x - 0.5 <= k as real < x + 0.5
    ensures k == RoundHalfAwayFromZero(x)
  {
  }

  lemma RoundWhole(n: int)
    ensures RoundHalfAwayFromZero(n as real) == n
  {
  }
}
