/**
 * Python's `round(x, 1)`, taken on exact reals: round to the nearest tenth, halves to the
 * even tenth. Binary floating point (where 0.05-steps are rarely representable) is not modelled.
 */
module Rounding {

  function Round1(x: real): (r: real)
    ensures -0.05 <= r - x <= 0.05
    ensures (r * 10.0).Floor as real == r * 10.0
  {
    var y := x * 10.0;
    var f := y.Floor;
    var frac := y - f as real;
    var n := if frac < 0.5 then f
             else if frac > 0.5 then f + 1
             else if f % 2 == 0 then f else f + 1;
    n as real / 10.0
  }

  /** Rounding never reverses an order. */
  lemma Round1Monotone(x: real, y: real)
    requires x <= y
    ensures Round1(x) <= Round1(y)
  {
    var fx, fy := (x * 10.0).Floor, (y * 10.0).Floor;
    assert fx <= fy;
  }

  /** A value that already has one decimal is left as it is. */
  lemma Round1OfTenths(k: int)
    ensures Round1(k as real / 10.0) == k as real / 10.0
  {
    assert (k as real / 10.0) * 10.0 == k as real;
  }

  /** Rounding keeps a value inside a range whose ends have one decimal, such as [0, 100]. */
  lemma Round1Within(x: real, lo: int, hi: int)
    requires lo as real / 10.0 <= x <= hi as real / 10.0
    ensures lo as real / 10.0 <= Round1(x) <= hi as real / 10.0
  {
    Round1Monotone(lo as real / 10.0, x);
    Round1Monotone(x, hi as real / 10.0);
    Round1OfTenths(lo);
    Round1OfTenths(hi);
  }
}
