/**
 * Half-hour rounding, `round_to_half_hour` in time_sheets/generator.py.
 *
 * Python computes `round(hours * 2) / 2`, and `round` on a float breaks ties
 * towards the even integer.  Hours are modelled as exact reals.
 */
module HalfHour {

  /** `x` is a whole number of half hours. */
  predicate IsHalfMultiple(x: real) {
    (2.0 * x).Floor as real == 2.0 * x
  }

  /** Python's `round(y)`: the integer nearest `y`, ties going to the even one. */
  function RoundHalfEven(y: real): (n: int)
    ensures -0.5 <= y - n as real <= 0.5
    ensures (y - n as real == 0.5 || n as real - y == 0.5) ==> n % 2 == 0
  {
    var f := y.Floor;
    var frac := y - f as real;
    if frac < 0.5 then f
    else if frac > 0.5 then f + 1
    else if f % 2 == 0 then f
    else f + 1
  }

  /** The two properties of RoundHalfEven's contract single out one integer. */
  lemma RoundHalfEvenUnique(y: real, n: int)
    requires -0.5 <= y - n as real <= 0.5
    requires (y - n as real == 0.5 || n as real - y == 0.5) ==> n % 2 == 0
    ensures n == RoundHalfEven(y)
  {
  }

  /** `round_to_half_hour`: the nearest whole number of half hours. */
  function RoundHalf(x: real): (r: real)
    ensures IsHalfMultiple(r)
    ensures -0.25 <= r - x <= 0.25
  {
    var n := RoundHalfEven(2.0 * x);
    assert (2.0 * (n as real / 2.0)).Floor == n;
    n as real / 2.0
  }

  /** A whole number of half hours is left as it is. */
  lemma RoundHalfFixed(x: real)
    requires IsHalfMultiple(x)
    ensures RoundHalf(x) == x
  {
    var k := (2.0 * x).Floor;
    assert RoundHalfEven(2.0 * x) == k;
  }

  /** Rounding never turns a non-negative number of hours negative. */
  lemma RoundHalfNonNegative(x: real)
    requires 0.0 <= x
    ensures 0.0 <= RoundHalf(x)
  {
    var r := RoundHalf(x);
    var k := (2.0 * r).Floor;
    assert -0.5 <= k as real;
  }

  /** Python's `round` is monotone. */
  lemma RoundHalfEvenMonotone(a: real, b: real)
    requires a <= b
    ensures RoundHalfEven(a) <= RoundHalfEven(b)
  {
    if a < b {
      var m, n := RoundHalfEven(a), RoundHalfEven(b);
      assert m as real <= a + 0.5;
      assert b + 0.5 <= n as real + 1.0;
      assert (m as real) < (n + 1) as real;
    }
  }

  /** Rounding is monotone. */
  lemma RoundHalfMonotone(x: real, y: real)
    requires x <= y
    ensures RoundHalf(x) <= RoundHalf(y)
  {
    RoundHalfEvenMonotone(2.0 * x, 2.0 * y);
  }

  /** A value between two whole numbers of half hours rounds to one between them. */
  lemma RoundHalfBetween(x: real, lo: real, hi: real)
    requires IsHalfMultiple(lo) && IsHalfMultiple(hi)
    requires lo <= x <= hi
    ensures lo <= RoundHalf(x) <= hi
  {
    RoundHalfMonotone(lo, x);
    RoundHalfMonotone(x, hi);
    RoundHalfFixed(lo);
    RoundHalfFixed(hi);
  }

  /** The difference of two whole numbers of half hours is one too. */
  lemma HalfMultipleSub(a: real, b: real)
    requires IsHalfMultiple(a) && IsHalfMultiple(b)
    ensures IsHalfMultiple(a - b)
  {
    var m, n := (2.0 * a).Floor, (2.0 * b).Floor;
    assert 2.0 * (a - b) == (m - n) as real;
  }

  /** The sum of two whole numbers of half hours is one too. */
  lemma HalfMultipleAdd(a: real, b: real)
    requires IsHalfMultiple(a) && IsHalfMultiple(b)
    ensures IsHalfMultiple(a + b)
  {
    var m, n := (2.0 * a).Floor, (2.0 * b).Floor;
    assert 2.0 * (a + b) == (m + n) as real;
  }

  /** Two different whole numbers of half hours are at least half an hour apart. */
  lemma HalfMultipleGap(a: real, b: real)
    requires IsHalfMultiple(a) && IsHalfMultiple(b) && a < b
    ensures a + 0.5 <= b
  {
    var m, n := (2.0 * a).Floor, (2.0 * b).Floor;
    assert m as real == 2.0 * a && n as real == 2.0 * b;
    assert m < n;
    assert (m + 1) as real <= n as real;
  }

  /** The examples of the test suite, and the two kinds of tie. */
  lemma RoundHalfExamples()
    ensures RoundHalf(2.3) == 2.5 && RoundHalf(2.1) == 2.0 && RoundHalf(2.5) == 2.5
    ensures RoundHalf(2.7) == 2.5 && RoundHalf(2.8) == 3.0
    ensures RoundHalf(0.25) == 0.0 && RoundHalf(0.75) == 1.0 && RoundHalf(7.7) == 7.5
  {
  }
}
