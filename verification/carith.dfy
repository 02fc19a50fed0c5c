/** C and C++ integer semantics that Dafny's unbounded, Euclidean integers do
    not have by themselves: truncating division, float-to-int conversion,
    `round`, and the fixed-width integer ranges the source uses. */
module CArith {
  const UINT8_LIMIT: int := 0x100
  const UINT32_LIMIT: int := 0x1_0000_0000
  const INT32_MIN: int := -0x8000_0000
  const INT32_MAX: int := 0x7fff_ffff

  /** An `unsigned char` / `uint8_t`. */
  type byte = x: int | 0 <= x < UINT8_LIMIT

  /** A `uint32_t`. */
  type uint32 = x: int | 0 <= x < UINT32_LIMIT

  predicate InInt32(x: int) { INT32_MIN <= x <= INT32_MAX }

  /** C's `/` for a positive divisor: the quotient truncated toward zero
      (C11 6.5.5), so that the remainder has the sign of the dividend. */
  function TruncDiv(a: int, b: int): (q: int)
    requires b > 0
    ensures a >= 0 ==> 0 <= a - b * q < b
    ensures a < 0 ==> -b < a - b * q <= 0
  {
    if a >= 0 then a / b else -((-a) / b)
  }

  /** C's `%` for a positive divisor: `a == TruncDiv(a, b) * b + TruncMod(a, b)`. */
  function TruncMod(a: int, b: int): (r: int)
    requires b > 0
    ensures a == b * TruncDiv(a, b) + r
    ensures -b < r < b && (a >= 0 ==> r >= 0) && (a < 0 ==> r <= 0)
  {
    a - b * TruncDiv(a, b)
  }

  /** A floating-point value converted to `int` (`static_cast<int>`, or an
      implicit conversion): truncation toward zero. */
  function Trunc(v: real): (r: int)
    ensures v >= 0.0 ==> r as real <= v < r as real + 1.0
    ensures v < 0.0 ==> r as real - 1.0 < v <= r as real
  {
    if v >= 0.0 then v.Floor else -((-v).Floor)
  }

  /** C's `round`: nearest integer, halves away from zero. */
  function Round(v: real): (r: int)
    ensures v >= 0.0 ==> v - 0.5 < r as real <= v + 0.5
    ensures v < 0.0 ==> v - 0.5 <= r as real < v + 0.5
  {
    if v >= 0.0 then (v + 0.5).Floor else -((-v + 0.5).Floor)
  }

  /** OpenCV's `cvRound`: nearest integer, exact halves to the even
      neighbour (the default rounding mode of the conversion instruction it
      compiles to). */
  function CvRound(v: real): (r: int)
    ensures v - 0.5 <= r as real <= v + 0.5
    ensures (r as real - v == 0.5 || v - r as real == 0.5) ==> r % 2 == 0
  {
    var f := v.Floor;
    var frac := v - f as real;
    if frac < 0.5 then f
    else if frac > 0.5 then f + 1
    else if f % 2 == 0 then f
    else f + 1
  }

  /** A `uint32_t` read into an `int` (`int period_ms = svc->getPeriod()`):
      values from 2^31 on wrap to negative numbers, as on every two's
      complement target. */
  function Uint32ToInt32(u: uint32): (r: int)
    ensures InInt32(r)
    ensures (r - u) % UINT32_LIMIT == 0
    ensures u <= INT32_MAX ==> r == u
  {
    if u <= INT32_MAX then u else u - UINT32_LIMIT
  }

  /** An `int` stored into a `uint32_t` (or its bytes read as one): the
      two's complement bit pattern. Inverse of `Uint32ToInt32`. */
  function Int32ToUint32(x: int): (u: uint32)
    requires InInt32(x)
    ensures Uint32ToInt32(u) == x
    ensures x >= 0 ==> u == x
  {
    if x >= 0 then x else x + UINT32_LIMIT
  }
}
