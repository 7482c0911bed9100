/** Python's integer conversions, over exact numbers. */
module Numbers {

  /** `int(r)` for a float `r`: drops the fractional part, so it rounds toward zero
      (not down, as `math.floor` would for negative values). */
  function Trunc(r: real): (n: int)
    ensures 0.0 <= r ==> n as real <= r < n as real + 1.0
    ensures r < 0.0 ==> n as real - 1.0 < r <= n as real
  {
    if r >= 0.0 then r.Floor else -((-r).Floor)
  }

  /** Integer division rounding toward zero, the reference that `Trunc` of a quotient is checked against. */
  function DivTowardZero(a: int, b: int): (q: int)
    requires b > 0
    ensures 0 <= a ==> q * b <= a < q * b + b
    ensures a < 0 ==> q * b - b < a <= q * b
  {
    if a >= 0 then a / b else -((-a) / b)
  }

  /** Converting an integer-valued float back to `int` gives the integer itself. */
  lemma TruncOfInt(n: int)
    ensures Trunc(n as real) == n
  {
  }

  /** Truncating an exact half is truncated integer division by two. */
  lemma TruncHalf(a: int)
    ensures Trunc(a as real / 2.0) == DivTowardZero(a, 2)
  {
    var q := DivTowardZero(a, 2);
    if a >= 0 {
      assert a == 2 * q || a == 2 * q + 1;
    } else {
      assert -a == 2 * (-q) || -a == 2 * (-q) + 1;
    }
  }
}
