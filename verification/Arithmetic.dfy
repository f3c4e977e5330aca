/** Facts about Euclidean division by a variable divisor. */
module Arithmetic {

  lemma ProductGap(d: int, e: int)
    requires d > 0
    ensures e >= 1 ==> d * e >= d
    ensures e <= -1 ==> d * e <= -d
    ensures e >= 0 ==> d * e >= 0
  {
  }

  /** Quotient and remainder are the only pair that decomposes `x`. */
  lemma DivModUnique(x: int, d: int, q: int, r: int)
    requires d > 0 && 0 <= r < d && x == d * q + r
    ensures x / d == q && x % d == r
  {
    var e := q - x / d;
    assert d * e == d * q - d * (x / d);
    ProductGap(d, e);
  }
}
