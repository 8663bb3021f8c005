/** Comparing a ratio of counts with a constant. */
module Ratios {

  lemma QuotientAgainst(x: real, y: real, c: real)
    requires y > 0.0
    ensures (x / y > c <==> x > c * y) && (x / y < c <==> x < c * y)
  {
  }
}
