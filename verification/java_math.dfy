/**
 Java arithmetic that differs from Dafny's unbounded `int` and `real`:
 integer division truncates toward zero and the `(int)` cast of a double
 truncates toward zero and saturates at the 32-bit bounds.
 */
module JavaMath {

  const IntMin: int := -0x8000_0000
  const IntMax: int := 0x7FFF_FFFF

  function Abs(x: real): (r: real)
    ensures 0.0 <= r
    ensures r == x || r == -x
  {
    if x < 0.0 then -x else x
  }

  /** True when `x` has no fractional part. */
  predicate IsWhole(x: real) {
    x.Floor as real == x
  }

  /** Java's `a / 2` on `int`: the quotient truncated toward zero. */
  function IntHalf(a: int): (q: int)
    ensures 0 <= a ==> 0 <= a - 2 * q <= 1
    ensures a < 0 ==> -1 <= a - 2 * q <= 0
  {
    if 0 <= a then a / 2 else -((-a) / 2)
  }

  /** Java's narrowing cast `(int) x` of a finite double. */
  function IntCast(x: real): (n: int)
    ensures IntMin <= n <= IntMax
    ensures IntMin as real <= x < IntMax as real + 1.0 ==> Abs(x - n as real) < 1.0
    ensures IntMin as real <= x < IntMax as real + 1.0 ==> Abs(n as real) <= Abs(x)
    ensures IntMax as real <= x ==> n == IntMax
    ensures x <= IntMin as real ==> n == IntMin
  {
    var t := if 0.0 <= x then x.Floor else -((-x).Floor);
    if t < IntMin then IntMin else if t > IntMax then IntMax else t
  }
}
