/** Optional values: the source's `T | null`. */
module Wrappers {
  datatype Option<+T> = None | Some(value: T)
}

/**
  JavaScript numbers as exact reals. Only the non-finite values the
  converter can meet are kept: NaN (from `parseFloat` of text without
  digits, or from 0/0) and +Infinity (from a positive amount divided by 0).
  IEEE-754 precision is not modelled.
*/
module Numbers {

  datatype Number = Finite(value: real) | Infinity | NaN

  function Abs(x: real): (r: real)
    ensures r >= 0.0
    ensures r == x || r == -x
  {
    if x < 0.0 then -x else x
  }

  function Min(a: int, b: int): (m: int)
    ensures m <= a && m <= b
    ensures m == a || m == b
  {
    if a <= b then a else b
  }

  function Pow10(n: nat): (p: nat)
    ensures p >= 1
  {
    if n == 0 then 1 else 10 * Pow10(n - 1)
  }

  /**
    The integer `n` that `Number.prototype.toFixed(digits)` picks for a
    non-negative `x`: `n / 10^digits` is as close to `x` as possible, and of
    two equally close candidates the larger one wins.
  */
  function RoundedUnits(x: real, digits: nat): (n: nat)
    requires x >= 0.0
    ensures n as real - 0.5 <= x * Pow10(digits) as real < n as real + 0.5
  {
    (x * Pow10(digits) as real + 0.5).Floor
  }

  /** The signed integer `toFixed(digits)` writes: the magnitude rounded, the sign put back. */
  function SignedUnits(x: real, digits: nat): (n: int)
    ensures x >= 0.0 ==> n >= 0
  {
    if x < 0.0 then -(RoundedUnits(-x, digits) as int) else RoundedUnits(x, digits)
  }

  /**
    The value of `Number(x.toFixed(digits))`: `toFixed` rounds the magnitude
    and puts the sign back in front.
  */
  function RoundTo(x: real, digits: nat): (r: real)
    ensures Abs(r - x) * Pow10(digits) as real <= 0.5
    ensures x >= 0.0 ==> r >= 0.0
    ensures x == 0.0 ==> r == 0.0
  {
    var s := Pow10(digits) as real;
    var n := SignedUnits(x, digits);
    ScaledBack(n, s);
    n as real / s
  }

  lemma ScaledBack(n: int, s: real)
    requires s >= 1.0
    ensures (n as real / s) * s == n as real
  {
  }

  /**
    The rounded value has no digits beyond the ones kept: scaled by
    10^digits it is exactly the integer `toFixed` writes.
  */
  lemma RoundToIsScaledInteger(x: real, digits: nat)
    ensures RoundTo(x, digits) * Pow10(digits) as real == SignedUnits(x, digits) as real
  {
    ScaledBack(SignedUnits(x, digits), Pow10(digits) as real);
  }

  lemma IntegerFloor(n: int)
    ensures (n as real).Floor == n
  {
  }

  /** Rounding to cents moves a value by at most half a cent. */
  lemma CentsRoundingError(x: real)
    ensures Abs(RoundTo(x, 2) - x) <= 0.005
  {
    assert Pow10(2) == 100;
  }
}
