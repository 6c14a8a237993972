/**
 * The division policies the device calculators share: numpy's quotient of a
 * positive power by a heat flow, Ohm's law with NaN at zero current, and the
 * "NaN unless the device delivers power" rule of the efficiencies.
 */
module Ratios {
  import opened Wrappers
  import Physics

  /** numpy's quotient of a positive number: infinite when the divisor is 0, else of the divisor's sign. */
  function Ratio(p: real, q: real): (r: Extended)
    requires p > 0.0
    ensures r == Infinity <==> q == 0.0
    ensures r.Finite? ==> r.x * q == p && (r.x > 0.0 <==> q > 0.0)
  {
    if q == 0.0 then Infinity else Finite(Physics.Quotient(p, q))
  }

  /**
   * Power density, current times voltage: positive exactly when both have the
   * same strict sign, and zero exactly when either is zero.
   */
  function Power(j: real, v: real): (p: real)
    ensures p > 0.0 <==> (j > 0.0 && v > 0.0) || (j < 0.0 && v < 0.0)
    ensures p == 0.0 <==> j == 0.0 || v == 0.0
  {
    if j >= 0.0 && v >= 0.0 then
      Physics.ProductSign(j, v);
      j * v
    else if j <= 0.0 && v <= 0.0 then
      Physics.ProductSign(-j, -v);
      assert (-j) * (-v) == j * v;
      j * v
    else if j < 0.0 then
      Physics.ProductSign(-j, v);
      assert (-j) * v == -(j * v);
      j * v
    else
      Physics.ProductSign(j, -v);
      assert j * (-v) == -(j * v);
      j * v
  }

  /** Ohm's law with NaN for a zero current. */
  function Resistance(v: real, j: real): (r: Option<real>)
    ensures r.None? <==> j == 0.0
    ensures r.Some? ==> r.value * j == v
  {
    if j != 0.0 then Some(Physics.Quotient(v, j)) else None
  }

  /**
   * The efficiency policy: NaN unless the power is positive, then the power
   * over the heat, infinite when no heat flows.
   */
  function Efficiency(p: real, q: real): (r: Option<Extended>)
    ensures r.None? <==> p <= 0.0
    ensures r.Some? ==> (r.value == Infinity <==> q == 0.0)
    ensures r.Some? && r.value.Finite? ==> r.value.x * q == p && (r.value.x > 0.0 <==> q > 0.0)
  {
    if p > 0.0 then Some(Ratio(p, q)) else None
  }

  /**
   * The efficiency policy on plain Python floats: NaN unless the power is
   * positive, then the power over the heat, where a zero heat flow raises
   * ZeroDivisionError instead of giving infinity.
   */
  function FloatEfficiency(p: real, q: real): (r: Result<Option<real>>)
    ensures r.Err? <==> p > 0.0 && q == 0.0
    ensures r.Err? ==> r.error == ZeroDivisionError
    ensures r.Ok? ==> (r.value.None? <==> p <= 0.0)
    ensures r.Ok? && r.value.Some? ==> r.value.value * q == p && (r.value.value > 0.0 <==> q > 0.0)
  {
    if p <= 0.0 then Ok(None)
    else if q == 0.0 then Err(ZeroDivisionError)
    else Ok(Some(Physics.Quotient(p, q)))
  }
}
