/** Shares are exact rationals; `round(x, 2)` is rounding to the nearest
    hundredth, a tie going to the even hundredth. */
module Rounding {

  /** `x` is a whole number of hundredths. */
  predicate IsHundredths(x: real)
  {
    (x * 100.0).Floor as real == x * 100.0
  }

  /** `round(x, 2)`. */
  function Round2(x: real): (r: real)
    ensures IsHundredths(r)
    ensures -0.005 <= r - x <= 0.005
    ensures x * 100.0 - (x * 100.0).Floor as real == 0.5 ==> (r * 100.0).Floor % 2 == 0
  {
    var y := x * 100.0;
    var f := y.Floor;
    var frac := y - f as real;
    var n := if frac > 0.5 then f + 1
             else if frac < 0.5 then f
             else if f % 2 == 0 then f
             else f + 1;
    assert -0.5 <= n as real - y <= 0.5;
    Hundredths(n);
    ScaledDown(x, n);
    n as real / 100.0
  }

  lemma Hundredths(n: int)
    ensures (n as real / 100.0) * 100.0 == n as real
    ensures ((n as real / 100.0) * 100.0).Floor == n
    ensures IsHundredths(n as real / 100.0)
  {
  }

  lemma ScaledDown(x: real, n: int)
    requires -0.5 <= n as real - x * 100.0 <= 0.5
    ensures -0.005 <= n as real / 100.0 - x <= 0.005
  {
  }

  /** Rounding a value that already has two decimals leaves it unchanged;
      in particular rounding is idempotent. */
  lemma Round2OfHundredths(x: real)
    requires IsHundredths(x)
    ensures Round2(x) == x
  {
  }

  lemma Round2Idempotent(x: real)
    ensures Round2(Round2(x)) == Round2(x)
  {
    Round2OfHundredths(Round2(x));
  }

  /** Rounding never reverses an order. */
  lemma Round2Monotone(x: real, y: real)
    requires x <= y
    ensures Round2(x) <= Round2(y)
  {
    var fx, fy := (x * 100.0).Floor, (y * 100.0).Floor;
    assert fx <= fy;
  }

  lemma HundredthsAdd(x: real, y: real)
    requires IsHundredths(x) && IsHundredths(y)
    ensures IsHundredths(x + y)
  {
    var a, b := (x * 100.0).Floor, (y * 100.0).Floor;
    assert (x + y) * 100.0 == (a + b) as real;
  }

  /** A share stays within [0, 1] when rounded. */
  lemma Round2OfShare(x: real)
    requires 0.0 <= x <= 1.0
    ensures 0.0 <= Round2(x) <= 1.0
  {
    Round2Monotone(0.0, x);
    Round2Monotone(x, 1.0);
    Round2OfHundredths(0.0);
    Round2OfHundredths(1.0);
  }
}
