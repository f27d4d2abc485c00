/** Python's `round(x, n)` for `n` decimal places, on exact reals: the
    nearest multiple of 10^-n, ties going to the even multiple. */
module Rounding {

  /** The integer nearest to `x`, ties to even: `round(x)`. */
  function RoundHalfEven(x: real): (k: int)
    ensures -1.0 / 2.0 <= k as real - x <= 1.0 / 2.0
    ensures k as real - x == 1.0 / 2.0 || x - k as real == 1.0 / 2.0 ==> k % 2 == 0
  {
    var f := x.Floor;
    var frac := x - f as real;
    if frac > 1.0 / 2.0 then f + 1
    else if frac < 1.0 / 2.0 then f
    else if f % 2 == 0 then f else f + 1
  }

  /** `round(x, n)` written with the scale `10^n`. */
  function RoundTo(x: real, scale: nat): (r: real)
    requires scale >= 1
  {
    RoundHalfEven(x * scale as real) as real / scale as real
  }

  /** `round(mean, 2)` in the weekly chart. */
  function Round2(x: real): real {
    RoundTo(x, 100)
  }

  /** `round(avg, 1)` in the summary. */
  function Round1(x: real): real {
    RoundTo(x, 10)
  }

  /** Any integer strictly closer than one half is the rounded value, so the
      contract of `RoundHalfEven` fixes its result off ties. */
  lemma RoundHalfEvenUnique(x: real, j: int)
    requires -1.0 / 2.0 < j as real - x < 1.0 / 2.0
    ensures RoundHalfEven(x) == j
  {
  }

  /** Whole numbers round to themselves. */
  lemma RoundHalfEvenOfInt(j: int)
    ensures RoundHalfEven(j as real) == j
  {
    RoundHalfEvenUnique(j as real, j);
  }

  /** `round(x, n)` is a whole number of units 10^-n, namely the number of
      units nearest to `x`. */
  lemma RoundToSpec(x: real, scale: nat)
    requires scale >= 1
    ensures RoundTo(x, scale) * scale as real == RoundHalfEven(x * scale as real) as real
    ensures -1.0 / 2.0 <= RoundTo(x, scale) * scale as real - x * scale as real <= 1.0 / 2.0
  {
  }

  /** Rounding something already rounded changes nothing. */
  lemma RoundToIdempotent(x: real, scale: nat)
    requires scale >= 1
    ensures RoundTo(RoundTo(x, scale), scale) == RoundTo(x, scale)
  {
    var k := RoundHalfEven(x * scale as real);
    assert RoundTo(x, scale) * scale as real == k as real;
    RoundHalfEvenOfInt(k);
  }

  /** Ties go to the even neighbour: `round(0.125, 2) == 0.12`,
      `round(0.375, 2) == 0.38`, `round(2.5, 0) == 2`. */
  lemma RoundTiesToEven()
    ensures Round2(0.125) == 0.12 && Round2(0.375) == 0.38 && RoundTo(2.5, 1) == 2.0
  {
    assert 0.125 * 100.0 == 12.5;
    assert (12.5).Floor == 12;
    assert 0.375 * 100.0 == 37.5;
    assert (37.5).Floor == 37;
    assert (2.5).Floor == 2;
  }

  /** Rounding keeps a value within whole-number bounds. */
  lemma RoundToWithin(x: real, scale: nat, lo: int, hi: int)
    requires scale >= 1
    requires lo as real <= x <= hi as real
    ensures lo as real <= RoundTo(x, scale) <= hi as real
  {
    var k := RoundHalfEven(x * scale as real);
    UnitsWithin(x, scale, k, lo, hi);
    DivideBounds(lo, k, hi, scale);
  }

  /** The nearest number of units to `x` lies between the units of the
      bounds. */
  lemma UnitsWithin(x: real, scale: nat, k: int, lo: int, hi: int)
    requires scale >= 1 && lo as real <= x <= hi as real
    requires -1.0 / 2.0 <= k as real - x * scale as real <= 1.0 / 2.0
    ensures lo * scale <= k <= hi * scale
  {
    var s := scale as real;
    assert lo as real * s <= x * s <= hi as real * s;
    assert (lo * scale) as real == lo as real * s;
    assert (hi * scale) as real == hi as real * s;
  }

  lemma DivideBounds(lo: int, k: int, hi: int, scale: nat)
    requires scale >= 1 && lo * scale <= k <= hi * scale
    ensures lo as real <= k as real / scale as real <= hi as real
  {
    var s := scale as real;
    assert (lo * scale) as real == lo as real * s;
    assert (hi * scale) as real == hi as real * s;
    assert lo as real * s <= k as real <= hi as real * s;
  }
}
