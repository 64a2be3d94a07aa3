/** Facts about products and quotients of integers that the other modules share. */
module Arithmetic {

  lemma MulNonNegative(a: int, b: int)
    requires a >= 0 && b >= 0
    ensures a * b >= 0
  {
  }

  lemma MulNext(k: int, m: int)
    ensures (k + 1) * m == k * m + m
  {
  }

  lemma MulMonotone(a: int, b: int, m: int)
    requires a <= b && m >= 0
    ensures a * m <= b * m
  {
    assert b * m == a * m + (b - a) * m;
    MulNonNegative(b - a, m);
  }

  lemma MulGap(a: int, b: int, m: int)
    requires a < b && m >= 0
    ensures a * m + m <= b * m
  {
    MulMonotone(a + 1, b, m);
    MulNext(a, m);
  }

  /** Quotient and remainder are unique. */
  lemma QuotientIs(x: int, m: int, q: int, r: int)
    requires 0 <= r < m && x == q * m + r
    ensures x / m == q && x % m == r
  {
    var p := x / m;
    if p < q {
      MulGap(p, q, m);
    } else if p > q {
      MulGap(q, p, m);
    }
  }

  lemma DivideExact(k: int, m: int)
    requires m > 0
    ensures (k * m) / m == k
  {
    QuotientIs(k * m, m, k, 0);
  }
}
