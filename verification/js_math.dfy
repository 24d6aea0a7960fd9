/** The integer arithmetic of JavaScript the application performs on
    whole numbers: `Math.floor(p / q)`, `Math.round(p / q)` and the
    truncating remainder operator `%`. */
module JsMath {

  /** `Math.floor(p / q)` for a positive divisor. */
  function FloorDiv(p: int, q: int): (r: int)
    requires q > 0
    ensures q * r <= p < q * (r + 1)
  {
    p / q
  }

  /** `Math.round(p / q)` for a positive divisor: the nearest integer,
      halves rounded up. */
  function RoundDiv(p: int, q: int): (r: int)
    requires q > 0
    ensures 2 * q * r <= 2 * p + q < 2 * q * (r + 1)
  {
    (2 * p + q) / (2 * q)
  }

  /** `a % b` for a positive divisor: the remainder takes the sign of `a`. */
  function JsRem(a: int, b: int): (r: int)
    requires b > 0
    ensures a >= 0 ==> 0 <= r < b
    ensures a < 0 ==> -b < r <= 0
    ensures a - r == b * TruncDiv(a, b)
  {
    if a >= 0 then a % b else -((-a) % b)
  }

  /** The quotient JavaScript's `Math.trunc(a / b)` gives: rounded toward zero. */
  function TruncDiv(a: int, b: int): (q: int)
    requires b > 0
    ensures a >= 0 ==> b * q <= a < b * (q + 1)
    ensures a < 0 ==> b * (q - 1) < a <= b * q
  {
    if a >= 0 then a / b else -((-a) / b)
  }

  /** Multiplying by a positive factor keeps a strict order. */
  lemma MulStrict(c: int, x: int, y: int)
    requires c > 0 && c * x < c * y
    ensures x < y
  {
    if x >= y {
      MulMonotone(c, y, x);
    }
  }

  lemma MulMonotone(c: int, x: int, y: int)
    requires c > 0 && x <= y
    ensures c * x <= c * y
  {
    assert c * y - c * x == c * (y - x);
  }

  /** The floor quotient is the unique integer k with q*k <= p < q*(k+1). */
  lemma FloorDivUnique(p: int, q: int, k: int)
    requires q > 0
    requires q * k <= p < q * (k + 1)
    ensures FloorDiv(p, q) == k
  {
    var r := FloorDiv(p, q);
    MulStrict(q, r, k + 1);
    MulStrict(q, k, r + 1);
  }

  /** Dividing in two steps floors like dividing once by the product. */
  lemma FloorDivNested(p: int, a: int, b: int)
    requires a > 0 && b > 0
    ensures FloorDiv(FloorDiv(p, a), b) == FloorDiv(p, a * b)
  {
    var q1 := FloorDiv(p, a);
    var q2 := FloorDiv(q1, b);
    MulMonotone(a, b * q2, q1);
    MulMonotone(a, q1 + 1, b * (q2 + 1));
    assert a * (b * q2) == (a * b) * q2;
    assert a * (b * (q2 + 1)) == (a * b) * (q2 + 1);
    FloorDivUnique(p, a * b, q2);
  }

  /** The rounded quotient is the unique integer within one half of p / q. */
  lemma RoundDivUnique(p: int, q: int, k: int)
    requires q > 0
    requires 2 * q * k <= 2 * p + q < 2 * q * (k + 1)
    ensures RoundDiv(p, q) == k
  {
    var r := RoundDiv(p, q);
    MulStrict(2 * q, r, k + 1);
    MulStrict(2 * q, k, r + 1);
  }

  /** A rounded mean of values between `lo` and `hi` stays between them. */
  lemma RoundDivBetween(sum: int, n: int, lo: int, hi: int)
    requires n > 0 && n * lo <= sum <= n * hi
    ensures lo <= RoundDiv(sum, n) <= hi
  {
    var r := RoundDiv(sum, n);
    assert 2 * n * lo == 2 * (n * lo);
    assert 2 * n * (hi + 1) == 2 * (n * hi) + 2 * n;
    MulStrict(2 * n, lo, r + 1);
    MulStrict(2 * n, r, hi + 1);
  }

  /** A share of a whole, as a rounded percentage, lies between 0 and 100. */
  lemma RoundedPercentBounds(part: int, whole: int)
    requires 0 <= part <= whole && whole > 0
    ensures 0 <= RoundDiv(100 * part, whole) <= 100
  {
    var r := RoundDiv(100 * part, whole);
    assert 2 * (100 * part) + whole < 2 * whole * 101;
    MulStrict(2 * whole, r, 101);
    assert 2 * whole * 0 < 2 * (100 * part) + whole;
    MulStrict(2 * whole, 0, r + 1);
  }
}
