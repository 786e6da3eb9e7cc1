/** Facts about multiplication and division that the solver does not find
    unaided. */
module Arith {

  /** The sign of a product of a non-negative and a positive factor. */
  lemma MulSign(a: real, b: real)
    requires 0.0 <= a && 0.0 < b
    ensures 0.0 <= a * b
    ensures 0.0 < a ==> 0.0 < a * b
  {
  }

  /** Dividing by a positive number keeps an upper bound: `x <= n * m`
      gives `x / n <= m`. */
  lemma DivAtMost(x: real, n: real, m: real)
    requires 0.0 < n && x <= n * m
    ensures x / n <= m
  {
    var gap := x / n - m;
    assert gap * n == x - m * n;
    if gap > 0.0 {
      MulSign(gap, n);
    }
  }

  /** Dividing by a non-zero number and multiplying back gives the number. */
  lemma DivTimes(x: real, n: real)
    requires n != 0.0
    ensures (x / n) * n == x
  {
  }

  /** `x / n` for a positive `n`: the number whose `n`-fold is `x`. */
  function Quotient(x: real, n: real): (q: real)
    requires 0.0 < n
    ensures q * n == x
  {
    DivTimes(x, n);
    x / n
  }

  /** A quotient is at most `m` when the dividend is at most `n * m`. */
  lemma QuotientAtMost(x: real, n: real, m: real)
    requires 0.0 < n && x <= n * m
    ensures Quotient(x, n) <= m
  {
    DivAtMost(x, n, m);
  }

  /** Euclidean division is unique: a decomposition `x == q * n + r` with
      `0 <= r < n` gives the quotient and the remainder. */
  lemma DivModUnique(x: int, n: int, q: int, r: int)
    requires 0 < n && 0 <= r < n && x == q * n + r
    ensures x / n == q && x % n == r
  {
    var q2, r2 := x / n, x % n;
    var k := q - q2;
    assert k * n == q * n - q2 * n;
    assert -n < k * n < n;
  }
}
