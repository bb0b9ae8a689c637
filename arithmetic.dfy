/** Small facts about integer multiplication and division that the solver does not
    find on its own. */
module Arithmetic {

  /** The absolute value of an integer. */
  function Abs(n: int): nat
  {
    if n < 0 then -n else n
  }

  /** Multiplication by a non-negative factor is monotonic. */
  lemma MulIsMonotonic(b: int, u: int, v: int)
    requires b >= 0
    ensures u <= v ==> b * u <= b * v
  {
    if u <= v {
      assert b * v - b * u == b * (v - u);
    }
  }

  /** The quotient is the unique m with b * m <= a < b * (m + 1). */
  lemma DivIsUnique(a: int, b: int, m: int)
    requires b > 0 && b * m <= a < b * (m + 1)
    ensures a / b == m
  {
    var q := a / b;
    assert b * q <= a < b * (q + 1);
    MulIsMonotonic(b, m + 1, q);
    MulIsMonotonic(b, q + 1, m);
  }

  /** Adding at most the divisor to a non-negative dividend raises the quotient by
      at most one. */
  lemma DivOfSmallIncrease(a: int, b: int, c: int)
    requires b > 0 && 0 <= a && 0 <= c <= b
    ensures (a + c) / b - a / b in {0, 1}
  {
    var m := a / b;
    var r := a % b;
    assert a == b * m + r && 0 <= r < b;
    assert b * (m + 1) == b * m + b;
    if r + c < b {
      DivIsUnique(a + c, b, m);
    } else {
      assert b * (m + 2) == b * m + 2 * b;
      DivIsUnique(a + c, b, m + 1);
    }
  }

  /** Python's `int()` of a float: truncation toward zero. */
  function Trunc(a: real): (n: int)
    ensures 0.0 <= a ==> 0 <= n && n as real <= a < n as real + 1.0
    ensures a < 0.0 ==> n <= 0 && n as real - 1.0 < a <= n as real
  {
    if a >= 0.0 then a.Floor else -((-a).Floor)
  }

  /** Truncation leaves integers unchanged. */
  lemma TruncOfInteger(n: int)
    ensures Trunc(n as real) == n
  {
  }
}
