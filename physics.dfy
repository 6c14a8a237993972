/**
 * Physical constants and the transcendental functions the model relies on.
 *
 * `exp`, `ln` and fractional powers are not computed: each is a parameter of a
 * subset type that records the few properties the proofs use. Any function
 * with those properties may be supplied, so nothing proved depends on
 * floating-point values.
 */
module Physics {

  // The `physical_constants` table of tec/__init__.py and tec/base.py (SI units).
  const Boltzmann: real := 1.3806488e-23        // J/K
  const Permittivity0: real := 8.85418781762e-12 // F/m
  const ElectronCharge: real := 1.602176565e-19 // C
  const ElectronMass: real := 9.1093897e-31     // kg
  const Sigma0: real := 5.67050e-8              // W m^-2 K^-4

  /** The properties of `exp` the model uses. */
  ghost predicate IsExp(f: real -> real)
  {
    forall x :: 0.0 < f(x) && (x < 0.0 ==> f(x) < 1.0) && (x == 0.0 ==> f(x) == 1.0) && (x > 0.0 ==> f(x) > 1.0)
  }

  /** The properties of the natural logarithm on positive arguments. */
  ghost predicate IsLn(f: real -> real)
  {
    forall y :: y > 0.0 ==> (f(y) < 0.0 <==> y < 1.0) && (f(y) == 0.0 <==> y == 1.0)
  }

  /** A power with a positive exponent (`sqrt`, `x**(3/4)`): positive on positive arguments. */
  ghost predicate IsPositivePower(f: real -> real)
  {
    forall x :: x > 0.0 ==> f(x) > 0.0
  }

  type Exp = f: real -> real | IsExp(f)
    witness (x: real) => if x < 0.0 then 1.0 / (1.0 - x) else 1.0 + x

  type Ln = f: real -> real | IsLn(f)
    witness (y: real) => y - 1.0

  type Power = f: real -> real | IsPositivePower(f)
    witness (x: real) => x

  /**
   * The largest argument Python's `math.exp` accepts on doubles: ln of the
   * largest double, to the digits given. A larger argument raises OverflowError.
   */
  const MathExpLimit: real := 709.782712893384

  function Min(a: real, b: real): real { if a <= b then a else b }
  function Max(a: real, b: real): real { if a >= b then a else b }

  /** The sign of a product of four non-negative factors. */
  function Product4(a: real, b: real, c: real, d: real): (r: real)
    requires a >= 0.0 && b >= 0.0 && c >= 0.0 && d >= 0.0
    ensures r >= 0.0
    ensures a > 0.0 && b > 0.0 && c > 0.0 && d > 0.0 ==> r > 0.0
    ensures r == 0.0 <==> a == 0.0 || b == 0.0 || c == 0.0 || d == 0.0
  {
    assert a * b >= 0.0;
    assert a * b * c >= 0.0;
    a * b * c * d
  }

  /** The sign of a product of two non-negative factors. */
  lemma ProductSign(x: real, y: real)
    requires x >= 0.0 && y >= 0.0
    ensures x * y >= 0.0
    ensures x > 0.0 && y > 0.0 ==> x * y > 0.0
  {
  }

  /** `a` scaled by a factor in [0, 1): never more than `a`, and equal to it only at 0. */
  function Scaled(a: real, f: real): (r: real)
    requires a >= 0.0 && 0.0 <= f < 1.0
    ensures 0.0 <= r <= a
    ensures r == a <==> a == 0.0
    ensures a > 0.0 && f > 0.0 ==> r > 0.0
  {
    ProductSign(a, f);
    ProductSign(a, 1.0 - f);
    assert a * (1.0 - f) == a - a * f;
    a * f
  }

  /** The quotient of `p` by a non-zero `q`: `q` multiplies it back to `p`, and it has the sign of `p * q`. */
  function Quotient(p: real, q: real): (r: real)
    requires q != 0.0
    ensures r * q == p
    ensures p > 0.0 ==> (r > 0.0 <==> q > 0.0)
    ensures p == 0.0 ==> r == 0.0
  {
    p / q
  }

  /** x to the fourth power, written out (`x**4`). */
  function Pow4(x: real): real
  {
    (x * x) * (x * x)
  }

  /** Squaring is strictly increasing on the non-negative reals. */
  lemma SquareIncreasing(a: real, b: real)
    requires 0.0 <= b < a
    ensures b * b < a * a
  {
    ProductSign(a - b, a + b);
    assert a * a - b * b == (a - b) * (a + b);
  }

  /** So is the fourth power. */
  lemma Pow4Increasing(a: real, b: real)
    requires 0.0 <= b < a
    ensures Pow4(b) < Pow4(a)
  {
    SquareIncreasing(a, b);
    ProductSign(b, b);
    SquareIncreasing(a * a, b * b);
  }

  /** The reciprocal of an emissivity in (0, 1] is at least 1. */
  lemma ReciprocalAtLeastOne(e: real)
    requires 0.0 < e <= 1.0
    ensures 1.0 / e >= 1.0
  {
    assert e * (1.0 / e) == 1.0;
    if 1.0 / e < 1.0 {
      ProductSign(e, 1.0 - 1.0 / e);
    }
  }

  /**
   * Net radiation between two grey parallel plates,
   * sigma (Te^4 - Tc^4) / (1/eE + 1/eC - 1). It flows from the hotter plate
   * and vanishes exactly at equal temperatures.
   */
  function GreyExchange(te: real, tc: real, ee: real, ec: real): (q: real)
    requires te >= 0.0 && tc >= 0.0 && 0.0 < ee <= 1.0 && 0.0 < ec <= 1.0
    ensures q > 0.0 <==> te > tc
    ensures q == 0.0 <==> te == tc
  {
    ReciprocalAtLeastOne(ee);
    ReciprocalAtLeastOne(ec);
    var d := 1.0 / ee + 1.0 / ec - 1.0;
    assert te > tc ==> Pow4(tc) < Pow4(te) by {
      if te > tc { Pow4Increasing(te, tc); }
    }
    assert tc > te ==> Pow4(te) < Pow4(tc) by {
      if tc > te { Pow4Increasing(tc, te); }
    }
    Quotient(Sigma0 * (Pow4(te) - Pow4(tc)), d)
  }
}
