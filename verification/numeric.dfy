/**
 * Python's numeric conversions over exact reals: `int(x)` truncates toward
 * zero and `round(x)` rounds half to even. Dafny's `Floor` rounds toward
 * negative infinity, so both are written out here.
 */
module Numeric {

  /** Python `int(x)` for a float `x`: truncation toward zero. */
  function Trunc(x: real): (r: int)
    ensures x >= 0.0 ==> r as real <= x < r as real + 1.0
    ensures x < 0.0 ==> r as real - 1.0 < x <= r as real
    ensures x >= 0.0 ==> r >= 0
    ensures x <= 0.0 ==> r <= 0
  {
    if x >= 0.0 then x.Floor else -((-x).Floor)
  }

  /** Python `round(x)`: nearest integer, ties to the even neighbour. */
  function RoundHalfEven(x: real): (r: int)
    ensures -0.5 <= r as real - x <= 0.5
    ensures r as real - x == 0.5 || x - r as real == 0.5 ==> r % 2 == 0
  {
    var f := x.Floor;
    var d := x - f as real;
    if d < 0.5 then f
    else if d > 0.5 then f + 1
    else if f % 2 == 0 then f else f + 1
  }

  /** `max(lo, min(hi, x))` */
  function Clamp(x: real, lo: real, hi: real): (r: real)
    requires lo <= hi
    ensures lo <= r <= hi
    ensures lo <= x <= hi ==> r == x
  {
    if x < lo then lo else if x > hi then hi else x
  }

  /** `n / d` as a float, or 0 when `d` is 0: the share of `d` that `n` is. */
  function Share(n: nat, d: nat): (r: real)
    ensures d == 0 ==> r == 0.0
    ensures d > 0 ==> r * d as real == n as real
    ensures n <= d ==> 0.0 <= r <= 1.0
    ensures n == d && d > 0 ==> r == 1.0
  {
    if d == 0 then 0.0 else n as real / d as real
  }

  /** A larger part of the same whole is a larger share. */
  lemma ShareMonotone(n: nat, m: nat, d: nat)
    requires n <= m
    ensures Share(n, d) <= Share(m, d)
  {
    if d > 0 {
      assert Share(m, d) - Share(n, d) == (m - n) as real / d as real;
    }
  }

  /** Dividing by the same positive number keeps a strict order. */
  lemma DivideStrictly(a: int, b: int, d: int)
    requires a < b && d > 0
    ensures a as real / d as real < b as real / d as real
  {
    assert b as real / d as real - a as real / d as real == (b - a) as real / d as real;
  }

  /** A share in [0, 1] of a non-negative maximum lies in [0, max]. */
  lemma ScaleWithin(ratio: real, max: int)
    requires 0.0 <= ratio <= 1.0 && max >= 0
    ensures 0.0 <= ratio * max as real <= max as real
  {
    assert (1.0 - ratio) * max as real >= 0.0;
  }

  /** Truncating a value between two integers stays between them. */
  lemma TruncWithin(x: real, lo: int, hi: int)
    requires lo as real <= x <= hi as real
    ensures lo <= Trunc(x) <= hi
  {
  }

  /** Rounding a value between two integers stays between them. */
  lemma RoundWithin(x: real, lo: int, hi: int)
    requires lo as real <= x <= hi as real
    ensures lo <= RoundHalfEven(x) <= hi
  {
  }

  lemma TruncOfInt(n: int)
    ensures Trunc(n as real) == n
  {
  }

  lemma RoundOfInt(n: int)
    ensures RoundHalfEven(n as real) == n
  {
  }
}
