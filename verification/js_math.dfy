/** The two pieces of JavaScript arithmetic the statistics and the duration
    formatter depend on, over exact integers. */
module JsMath {

  /** `Math.round(a / b)` for a positive divisor, on exact rationals.
      `Math.round` rounds halves toward positive infinity, so the result is
      the integer `r` with `r - 1/2 <= a/b < r + 1/2`. */
  function RoundDiv(a: int, b: int): (r: int)
    requires b > 0
    ensures 2 * b * r <= 2 * a + b < 2 * b * r + 2 * b
  {
    var q := (2 * a + b) / (2 * b);
    assert 2 * a + b == (2 * b) * q + (2 * a + b) % (2 * b);
    q
  }

  /** Only one integer lies within half of `a / b`, so `RoundDiv` is the rounding. */
  lemma RoundDivUnique(a: int, b: int, r: int)
    requires b > 0
    requires 2 * b * r <= 2 * a + b < 2 * b * r + 2 * b
    ensures r == RoundDiv(a, b)
  {
    var q := RoundDiv(a, b);
    if r < q {
      MulMonotone(2 * b, r + 1, q);
    } else if r > q {
      MulMonotone(2 * b, q + 1, r);
    }
  }

  lemma MulMonotone(k: int, x: int, y: int)
    requires k >= 0 && x <= y
    ensures k * x <= k * y
  {
  }

  /** If `a / b` lies in `[lo, hi]` then so does its rounding. */
  lemma RoundDivWithin(a: int, b: int, lo: int, hi: int)
    requires b > 0
    requires lo * b <= a <= hi * b
    ensures lo <= RoundDiv(a, b) <= hi
  {
    var r := RoundDiv(a, b);
    if r > hi {
      MulMonotone(2 * b, hi + 1, r);
    }
    if r < lo {
      MulMonotone(2 * b, r + 1, lo);
    }
  }

  /** `a % b` in JavaScript: the remainder takes the sign of the dividend
      (Dafny's `%` is Euclidean and never negative). */
  function TruncRem(a: int, b: int): (r: int)
    requires b > 0
    ensures a >= 0 ==> 0 <= r < b
    ensures a < 0 ==> -b < r <= 0
    ensures a >= 0 ==> r == a % b
  {
    if a >= 0 then a % b else -((-a) % b)
  }

  /** The JavaScript remainder is odd in its dividend: negating the dividend
      negates the remainder, which the Euclidean remainder does not do. */
  lemma TruncRemOdd(a: int, b: int)
    requires b > 0
    ensures TruncRem(-a, b) == -TruncRem(a, b)
  {
  }
}
