/**
 * The two roundings of the reports, on exact reals: `Math.round` and
 * `parseFloat(x.toFixed(2))`. Binary floating point is not modelled.
 */
module Rounding {

  /** `Math.round`: the nearest integer, halves going up. */
  function MathRound(x: real): (r: int)
    ensures x - 0.5 < r as real <= x + 0.5
  {
    (x + 0.5).Floor
  }

  /** `parseFloat(x.toFixed(2))`: `x` rounded to two decimals, halves away from zero. */
  function ToFixed2(x: real): (r: real)
    ensures x - 0.005 <= r <= x + 0.005
    ensures 0.0 <= x ==> 0.0 <= r
    ensures x <= 0.0 ==> r <= 0.0
    ensures (r * 100.0).Floor as real == r * 100.0
  {
    var hundredths := if 0.0 <= x then (x * 100.0 + 0.5).Floor else -(-x * 100.0 + 0.5).Floor;
    assert (hundredths as real / 100.0) * 100.0 == hundredths as real;
    hundredths as real / 100.0
  }

  /** Rounding a whole number of hundredths changes nothing, so rounding twice is rounding once. */
  lemma ToFixed2Idempotent(x: real)
    ensures ToFixed2(ToFixed2(x)) == ToFixed2(x)
  {
    if 0.0 <= x {
      var n := (x * 100.0 + 0.5).Floor;
      assert ToFixed2(x) * 100.0 == n as real;
      assert ((n as real + 0.5).Floor) == n;
    } else {
      var n := (-x * 100.0 + 0.5).Floor;
      assert -ToFixed2(x) * 100.0 == n as real;
      assert ((n as real + 0.5).Floor) == n;
      if n == 0 {
        assert ToFixed2(x) == 0.0;
      }
    }
  }
}
