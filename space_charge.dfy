/**
 * The pieces the space-charge models share: the lookup dispatch of the
 * dimensionless Langmuir-Poisson solution, the operating regime of a
 * device, and the maximum motive each regime implies.
 *
 * The splines of the ODE solution and the root finders stay outside the
 * model: the splines are fields of `Dps` holding arbitrary functions, and
 * the saturation and critical points are parameters.
 */
module SpaceCharge {
  import opened Wrappers
  import Physics

  // ---------------------------------------------------------------------------
  // The dimensionless Langmuir-Poisson solution.

  /** The `branch` argument: a `str`, or anything else. */
  datatype BranchArg = Str(s: string) | NotStr

  /** The four splines of a `DimensionlessLangmuirPoissonSoln`: position of motive and motive of position, per branch. */
  datatype Dps = Dps(
    lhsPosition: Extended -> real,
    rhsPosition: Extended -> real,
    lhsMotive: real -> real,
    rhsMotive: real -> real)

  /** The left end of the integrated solution, in dimensionless position. */
  const LhsEnd: real := -2.55389

  /** Above this dimensionless motive the left branch is taken to have reached its end. */
  const LhsSaturation: real := 18.7

  /**
   * `position(motive, branch)` / `get_position`: TypeError for a non-string
   * branch, NaN for a negative motive, the left end for a large motive on the
   * left branch, KeyError for a branch other than "lhs" and "rhs", and
   * otherwise the branch's spline.
   */
  function Position(d: Dps, motive: Extended, branch: BranchArg): (r: Result<Option<real>>)
    ensures !branch.Str? <==> r == Err(TypeError)
    ensures branch.Str? && motive.Finite? && motive.x < 0.0 ==> r == Ok(None)
    ensures branch == Str("lhs") && (motive == Infinity || (motive.Finite? && motive.x > LhsSaturation)) ==> r == Ok(Some(LhsEnd))
    ensures branch == Str("lhs") && motive.Finite? && 0.0 <= motive.x <= LhsSaturation ==> r == Ok(Some(d.lhsPosition(motive)))
    ensures branch.Str? && (motive == Infinity || motive.x >= 0.0) && branch.s != "lhs" && branch.s != "rhs" ==> r == Err(KeyError)
    ensures branch == Str("rhs") && (motive == Infinity || motive.x >= 0.0) ==> r == Ok(Some(d.rhsPosition(motive)))
  {
    if !branch.Str? then Err(TypeError)
    else if motive.Finite? && motive.x < 0.0 then Ok(None)
    else if branch.s == "lhs" && (motive == Infinity || motive.x > LhsSaturation) then Ok(Some(LhsEnd))
    else if branch.s == "lhs" then Ok(Some(d.lhsPosition(motive)))
    else if branch.s == "rhs" then Ok(Some(d.rhsPosition(motive)))
    else Err(KeyError)
  }

  /** On the left branch every motive above 18.7, and an infinite one, gives the same position. */
  lemma LeftBranchSaturates(d: Dps, m1: Extended, m2: Extended)
    requires m1 == Infinity || (m1.Finite? && m1.x > LhsSaturation)
    requires m2 == Infinity || (m2.Finite? && m2.x > LhsSaturation)
    ensures Position(d, m1, Str("lhs")) == Position(d, m2, Str("lhs"))
    ensures Position(d, Finite(100.0), Str("lhs")) == Position(d, Finite(200.0), Str("lhs"))
  {
  }

  /**
   * `motive(position)` / `get_motive`: NaN left of the solution's end, the
   * left branch up to 0 and the right branch beyond.
   */
  function MotiveAt(d: Dps, x: real): (r: Option<real>)
    ensures r.None? <==> x < LhsEnd
    ensures LhsEnd <= x <= 0.0 ==> r == Some(d.lhsMotive(x))
    ensures x > 0.0 ==> r == Some(d.rhsMotive(x))
  {
    if x < LhsEnd then None
    else if x <= 0.0 then Some(d.lhsMotive(x))
    else Some(d.rhsMotive(x))
  }

  // ---------------------------------------------------------------------------
  // Operating regimes.

  datatype Regime = Accelerating | SpaceChargeLimited | Retarding

  /**
   * `operating_regime` and the `calc_motive` dispatch: accelerating below the
   * saturation voltage, retarding above the critical voltage, space-charge
   * limited otherwise. The first test wins.
   */
  function RegimeOf(v: real, vsat: real, vcrit: real): (r: Regime)
    ensures r == Accelerating <==> v < vsat
    ensures r == Retarding <==> vsat <= v && vcrit < v
    ensures r == SpaceChargeLimited <==> vsat <= v <= vcrit
  {
    if v < vsat then Accelerating
    else if v > vcrit then Retarding
    else SpaceChargeLimited
  }

  /** A regime's place along the voltage axis. */
  function Rank(r: Regime): nat
  {
    match r
    case Accelerating => 0
    case SpaceChargeLimited => 1
    case Retarding => 2
  }

  /** With the saturation voltage below the critical one, raising the output voltage never moves back a regime. */
  lemma RegimeMonotone(v1: real, v2: real, vsat: real, vcrit: real)
    requires vsat <= vcrit && v1 <= v2
    ensures Rank(RegimeOf(v1, vsat, vcrit)) <= Rank(RegimeOf(v2, vsat, vcrit))
  {
  }

  /**
   * The barrier space charge adds in front of the emitter,
   * kT ln(Jsat / J), for a current density J in (0, Jsat]: never negative, and
   * zero exactly at the saturation current (or at kT = 0).
   */
  function SpaceChargeBarrier(kT: real, jsat: real, j: real, ln: Physics.Ln): (b: real)
    requires kT >= 0.0 && 0.0 < j <= jsat
    ensures b >= 0.0
    ensures b == 0.0 <==> kT == 0.0 || j == jsat
  {
    var ratio := Physics.Quotient(jsat, j);
    assert ratio >= 1.0 by {
      if ratio < 1.0 { Physics.ProductSign(1.0 - ratio, j); }
    }
    assert ratio == 1.0 <==> j == jsat;
    Physics.ProductSign(kT, ln(ratio));
    kT * ln(ratio)
  }

  /**
   * The maximum motive each regime implies: the emitter's level when
   * accelerating, the collector's when retarding, and the emitter's level
   * raised by the space-charge barrier in between.
   */
  function MaxMotiveOf(r: Regime, emitterLevel: real, collectorLevel: real, barrier: real): (psi: real)
    requires barrier >= 0.0
    ensures r == Accelerating ==> psi == emitterLevel
    ensures r == Retarding ==> psi == collectorLevel
    ensures r == SpaceChargeLimited ==> psi >= emitterLevel && (psi == emitterLevel <==> barrier == 0.0)
  {
    match r
    case Accelerating => emitterLevel
    case Retarding => collectorLevel
    case SpaceChargeLimited => emitterLevel + barrier
  }

  /** At the saturation end of the space-charge-limited range the maximum motive is the emitter's level. */
  lemma SaturationEndIsEmitterLevel(v: real, vsat: real, vcrit: real, emitterLevel: real, collectorLevel: real, kT: real, jsat: real, ln: Physics.Ln)
    requires vsat == v && v <= vcrit && kT >= 0.0 && jsat > 0.0
    ensures MaxMotiveOf(RegimeOf(v, vsat, vcrit), emitterLevel, collectorLevel, SpaceChargeBarrier(kT, jsat, jsat, ln)) == emitterLevel
  {
  }
}
