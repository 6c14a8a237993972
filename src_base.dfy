/**
 * The `TECBase` device of src/tec/base.py: two Metal electrodes held in
 * type-checked properties, and calculators that ignore space charge.
 *
 * The calculators are functions of the two electrodes' property values
 * (`Metal.Snapshot`), in the units the Metal descriptors use: eV for motives,
 * um for positions, A/cm^2 for current densities, W/cm^2 for power
 * densities and W for heat rates over the unit area of 1 cm^2.
 */
module SrcBase {
  import opened Wrappers
  import Physics
  import opened Ratios
  import Metal

  /** What a setter is given: a Metal (or an instance of a subclass) or anything else. */
  datatype Candidate = AMetal(electrode: Metal.Metal) | NotMetal

  /** A TECBase object. */
  class TECBase {
    var emitter: Metal.Metal
    var collector: Metal.Metal

    constructor Of(em: Metal.Metal, co: Metal.Metal)
      ensures emitter == em && collector == co
    {
      emitter := em;
      collector := co;
    }

    /** `TECBase(emitter, collector)`: both go through the type-checking setters, the emitter first. */
    static method New(em: Candidate, co: Candidate) returns (r: Result<TECBase>)
      ensures r.Err? <==> !em.AMetal? || !co.AMetal?
      ensures r.Err? ==> r.error == TypeError
      ensures r.Ok? ==> fresh(r.value) && r.value.emitter == em.electrode && r.value.collector == co.electrode
    {
      if !em.AMetal? || !co.AMetal? {
        return Err(TypeError);
      }
      var t := new TECBase.Of(em.electrode, co.electrode);
      return Ok(t);
    }

    /** The `emitter` setter: TypeError for a non-electrode, and then nothing changes. */
    method SetEmitter(value: Candidate) returns (err: Option<Error>)
      modifies this
      ensures !value.AMetal? ==> err == Some(TypeError) && emitter == old(emitter)
      ensures value.AMetal? ==> err == None && emitter == value.electrode
      ensures collector == old(collector)
    {
      if !value.AMetal? {
        return Some(TypeError);
      }
      emitter := value.electrode;
      return None;
    }

    /** The `collector` setter: TypeError for a non-electrode, and then nothing changes. */
    method SetCollector(value: Candidate) returns (err: Option<Error>)
      modifies this
      ensures !value.AMetal? ==> err == Some(TypeError) && collector == old(collector)
      ensures value.AMetal? ==> err == None && collector == value.electrode
      ensures emitter == old(emitter)
    {
      if !value.AMetal? {
        return Some(TypeError);
      }
      collector := value.electrode;
      return None;
    }
  }

  // ---------------------------------------------------------------------------
  // Motive.

  /** A point a fraction `t` of the way from `y0` to `y1` lies between them. */
  function Lerp(y0: real, y1: real, t: real): (y: real)
    requires 0.0 <= t <= 1.0
    ensures Physics.Min(y0, y1) <= y <= Physics.Max(y0, y1)
    ensures t == 0.0 ==> y == y0
    ensures t == 1.0 ==> y == y1
  {
    if y1 >= y0 then
      Physics.ProductSign(y1 - y0, t);
      Physics.ProductSign(y1 - y0, 1.0 - t);
      y0 + (y1 - y0) * t
    else
      Physics.ProductSign(y0 - y1, t);
      Physics.ProductSign(y0 - y1, 1.0 - t);
      y0 + (y1 - y0) * t
  }

  /** Multiplying by a positive d keeps the sign of a. */
  lemma SignOfFactor(a: real, d: real)
    requires d > 0.0
    ensures a * d >= 0.0 ==> a >= 0.0
    ensures a * d == 0.0 ==> a == 0.0
  {
    if a < 0.0 {
      Physics.ProductSign(-a, d);
      assert (-a) * d == -(a * d);
    } else {
      Physics.ProductSign(a, d);
    }
  }

  /** The fraction of the way from x0 to x1 at which x lies is in [0, 1], and 1 at x1. */
  lemma FractionInUnit(x0: real, x1: real, x: real, t: real)
    requires x0 < x1 && x0 <= x <= x1
    requires t * (x1 - x0) == x - x0
    ensures 0.0 <= t <= 1.0
    ensures x == x1 ==> t == 1.0
  {
    var d := x1 - x0;
    assert (1.0 - t) * d == x1 - x;
    SignOfFactor(t, d);
    SignOfFactor(1.0 - t, d);
  }

  /**
   * A linear spline through (x0, y0) and (x1, y1) that raises ValueError
   * outside [x0, x1] (`ext=2`). It cannot be built unless x0 < x1.
   */
  function Interpolate(x0: real, y0: real, x1: real, y1: real, x: real): (r: Result<real>)
    ensures r.Ok? <==> x0 < x1 && x0 <= x <= x1
    ensures r.Err? ==> r.error == ValueError
    ensures r.Ok? ==> Physics.Min(y0, y1) <= r.value <= Physics.Max(y0, y1)
    ensures r.Ok? && x == x0 ==> r.value == y0
    ensures r.Ok? && x == x1 ==> r.value == y1
  {
    if x0 < x1 && x0 <= x <= x1 then
      var t := Physics.Quotient(x - x0, x1 - x0);
      FractionInUnit(x0, x1, x, t);
      Ok(Lerp(y0, y1, t))
    else Err(ValueError)
  }

  /**
   * `motive(position)`: the straight line between the two electrodes'
   * motives. It exists only between electrodes in increasing order and only
   * inside the gap, where it lies between the two boundary motives.
   */
  function Motive(em: Metal.Snapshot, co: Metal.Snapshot, x: real): (r: Result<real>)
    ensures r.Ok? <==> em.position < co.position && em.position <= x <= co.position
    ensures r.Err? ==> r.error == ValueError
    ensures r.Ok? ==> Physics.Min(Metal.Motive(em), Metal.Motive(co)) <= r.value <= Physics.Max(Metal.Motive(em), Metal.Motive(co))
  {
    Interpolate(em.position, Metal.Motive(em), co.position, Metal.Motive(co), x)
  }

  /** `max_motive`: the emitter's motive if strictly greater, else the collector's. */
  function MaxMotive(em: Metal.Snapshot, co: Metal.Snapshot): (psi: real)
    ensures psi >= Metal.Motive(em) && psi >= Metal.Motive(co)
    ensures psi == Metal.Motive(em) || psi == Metal.Motive(co)
  {
    if Metal.Motive(em) > Metal.Motive(co) then Metal.Motive(em) else Metal.Motive(co)
  }

  /**
   * `max_motive_position`: decided by the same comparison, so a tie goes to
   * the collector. It is an electrode's position, and the motive there is the
   * maximum motive.
   */
  function MaxMotivePosition(em: Metal.Snapshot, co: Metal.Snapshot): (x: real)
    ensures x == em.position || x == co.position
    ensures em.position < co.position ==> Motive(em, co, x) == Ok(MaxMotive(em, co))
  {
    if Metal.Motive(em) > Metal.Motive(co) then em.position else co.position
  }

  /**
   * The maximum motive is the largest value of the motive anywhere in the
   * interelectrode space, and it is reached at `max_motive_position`.
   */
  lemma MaxMotiveOfProfile(em: Metal.Snapshot, co: Metal.Snapshot, x: real)
    requires em.position < co.position
    ensures Motive(em, co, MaxMotivePosition(em, co)) == Ok(MaxMotive(em, co))
    ensures Motive(em, co, x).Ok? ==> Motive(em, co, x).value <= MaxMotive(em, co)
    ensures Metal.Motive(em) == Metal.Motive(co) ==> MaxMotivePosition(em, co) == co.position
  {
  }

  // ---------------------------------------------------------------------------
  // Basic quantities.

  /** `interelectrode_spacing`: positive exactly when the motive profile can be built. */
  function Spacing(em: Metal.Snapshot, co: Metal.Snapshot): (s: real)
    ensures s > 0.0 <==> Motive(em, co, em.position).Ok?
  {
    co.position - em.position
  }

  /** `output_voltage`: less the contact potential, it is the rise of the motive from emitter to collector. */
  function OutputVoltage(em: Metal.Snapshot, co: Metal.Snapshot): (v: real)
    ensures v - ContactPotential(em, co) == Metal.Motive(co) - Metal.Motive(em)
  {
    co.voltage - em.voltage
  }

  /**
   * `contact_potential`: the barrier difference in eV divided by `e`, which in
   * V is the same number. Positive exactly when the emitter has the higher
   * barrier; at equal voltages it is the motive difference.
   */
  function ContactPotential(em: Metal.Snapshot, co: Metal.Snapshot): (cp: real)
    ensures cp > 0.0 <==> em.barrier > co.barrier
    ensures em.voltage == co.voltage ==> cp == Metal.Motive(em) - Metal.Motive(co)
  {
    em.barrier - co.barrier
  }

  // ---------------------------------------------------------------------------
  // Currents.

  /** `exp(-diff / kT)` for a positive excess: below 1, and numpy's 0 at temperature 0. */
  function Attenuation(diff: real, temp: real, exp: Physics.Exp): (f: real)
    requires diff > 0.0 && temp >= 0.0
    ensures 0.0 <= f < 1.0
    ensures f > 0.0 <==> temp > 0.0
  {
    if temp == 0.0 then 0.0
    else
      Physics.ProductSign(Metal.BoltzmannEV, temp);
      exp(-diff / (Metal.BoltzmannEV * temp))
  }

  /**
   * The current an electrode sends over the maximum motive `psi`: its
   * thermoelectron current density when its own motive reaches `psi`,
   * otherwise scaled down by the Boltzmann factor of the excess.
   */
  function Emitted(from: Metal.Snapshot, psi: real, exp: Physics.Exp): (j: real)
    requires Metal.Bounded(from)
    ensures 0.0 <= j <= Metal.CurrentDensity(from, exp)
    ensures j == Metal.CurrentDensity(from, exp) <==> psi <= Metal.Motive(from) || Metal.CurrentDensity(from, exp) == 0.0
    ensures j > 0.0 <==> Metal.CurrentDensity(from, exp) > 0.0
  {
    var jrd := Metal.CurrentDensity(from, exp);
    var diff := psi - Metal.Motive(from);
    if diff > 0.0 then
      var f := Attenuation(diff, from.temp, exp);
      Physics.ProductSign(jrd, f);
      Physics.Scaled(jrd, f)
    else jrd
  }

  /** `forward_current_density`: the emitter's current density, unscaled exactly when its motive is the maximum. */
  function ForwardCurrent(em: Metal.Snapshot, co: Metal.Snapshot, exp: Physics.Exp): (j: real)
    requires Metal.Bounded(em)
    ensures 0.0 <= j <= Metal.CurrentDensity(em, exp)
    ensures j == Metal.CurrentDensity(em, exp) <==> Metal.Motive(em) >= Metal.Motive(co) || Metal.CurrentDensity(em, exp) == 0.0
  {
    Emitted(em, MaxMotive(em, co), exp)
  }

  /** `back_current_density`: the collector's current density, unscaled exactly when its motive is the maximum. */
  function BackCurrent(em: Metal.Snapshot, co: Metal.Snapshot, exp: Physics.Exp): (j: real)
    requires Metal.Bounded(co)
    ensures 0.0 <= j <= Metal.CurrentDensity(co, exp)
    ensures j == Metal.CurrentDensity(co, exp) <==> Metal.Motive(co) >= Metal.Motive(em) || Metal.CurrentDensity(co, exp) == 0.0
  {
    Emitted(co, MaxMotive(em, co), exp)
  }

  /** `output_current_density`: forward minus back current. */
  function OutputCurrent(em: Metal.Snapshot, co: Metal.Snapshot, exp: Physics.Exp): (j: real)
    requires Metal.Bounded(em) && Metal.Bounded(co)
    ensures -Metal.CurrentDensity(co, exp) <= j <= Metal.CurrentDensity(em, exp)
  {
    ForwardCurrent(em, co, exp) - BackCurrent(em, co, exp)
  }

  /**
   * `output_power_density`: output current times output voltage, positive
   * exactly when both have the same strict sign.
   */
  function OutputPower(em: Metal.Snapshot, co: Metal.Snapshot, exp: Physics.Exp): (p: real)
    requires Metal.Bounded(em) && Metal.Bounded(co)
    ensures var j, v := OutputCurrent(em, co, exp), OutputVoltage(em, co);
      && (p > 0.0 <==> (j > 0.0 && v > 0.0) || (j < 0.0 && v < 0.0))
      && (p == 0.0 <==> j == 0.0 || v == 0.0)
  {
    Power(OutputCurrent(em, co, exp), OutputVoltage(em, co))
  }

  /**
   * The emitter's current passes unscaled exactly when the output voltage is
   * at most the contact potential (or it emits nothing), the collector's
   * exactly when it is at least the contact potential.
   */
  lemma SaturationRegimes(em: Metal.Snapshot, co: Metal.Snapshot, exp: Physics.Exp)
    requires Metal.Bounded(em) && Metal.Bounded(co)
    ensures ForwardCurrent(em, co, exp) == Metal.CurrentDensity(em, exp)
      <==> OutputVoltage(em, co) <= ContactPotential(em, co) || Metal.CurrentDensity(em, exp) == 0.0
    ensures BackCurrent(em, co, exp) == Metal.CurrentDensity(co, exp)
      <==> OutputVoltage(em, co) >= ContactPotential(em, co) || Metal.CurrentDensity(co, exp) == 0.0
  {
    assert Metal.Motive(co) - Metal.Motive(em) == OutputVoltage(em, co) - ContactPotential(em, co);
  }

  // ---------------------------------------------------------------------------
  // Efficiency.

  /**
   * `carnot_efficiency` as written: NaN (None) when both temperatures are 0,
   * where 0/0 gives NaN. When the collector is hotter it calls `decompose`
   * on the float `np.NaN`, which raises AttributeError.
   */
  function CarnotAsWritten(em: Metal.Snapshot, co: Metal.Snapshot): (r: Result<Option<real>>)
    requires Metal.Bounded(em) && Metal.Bounded(co)
    ensures r.Err? <==> co.temp > em.temp
    ensures r.Err? ==> r.error == AttributeError
    ensures r.Ok? ==> (r.value.None? <==> em.temp == 0.0)
  {
    if em.temp >= co.temp then
      if em.temp == 0.0 then Ok(None) else Ok(Some(1.0 - co.temp / em.temp))
    else Err(AttributeError)
  }

  /** The collector being hotter makes the method raise instead of returning the documented NaN. */
  lemma CarnotAsWrittenRaises(em: Metal.Snapshot, co: Metal.Snapshot)
    requires Metal.Bounded(em) && Metal.Bounded(co) && co.temp > em.temp
    ensures CarnotAsWritten(em, co) == Err(AttributeError)
  {
  }

  /**
   * `carnot_efficiency` as documented: 1 - Tc/Te, between 0 and 1; NaN when
   * the collector is hotter (and when both temperatures are 0).
   */
  function CarnotEfficiency(em: Metal.Snapshot, co: Metal.Snapshot): (r: Option<real>)
    requires Metal.Bounded(em) && Metal.Bounded(co)
    ensures r.None? <==> co.temp > em.temp || em.temp == 0.0
    ensures r.Some? ==> 0.0 <= r.value <= 1.0
    ensures r.Some? ==> (r.value == 0.0 <==> co.temp == em.temp)
    ensures r.Some? ==> (r.value == 1.0 <==> co.temp == 0.0)
  {
    if em.temp >= co.temp && em.temp > 0.0 then
      var q := Physics.Quotient(co.temp, em.temp);
      assert q <= 1.0 by {
        if q > 1.0 { Physics.ProductSign(q - 1.0, em.temp); }
      }
      assert q == 1.0 ==> co.temp == em.temp;
      Some(1.0 - q)
    else None
  }

  /** Wherever the method as written returns, the corrected one returns the same value. */
  lemma CarnotAgrees(em: Metal.Snapshot, co: Metal.Snapshot)
    requires Metal.Bounded(em) && Metal.Bounded(co)
    ensures CarnotAsWritten(em, co).Ok? ==> CarnotAsWritten(em, co).value == CarnotEfficiency(em, co)
    ensures CarnotAsWritten(em, co).Err? ==> CarnotEfficiency(em, co).None?
  {
  }

  /**
   * Heat carried off the emitter by electrons over 1 cm^2: forward electrons
   * take the maximum motive `psi` less the emitter's bias plus 2kT_E each,
   * back electrons return it with 2kT_C. Without back current the emitter is
   * never heated by electrons.
   */
  function Cooling(em: Metal.Snapshot, co: Metal.Snapshot, psi: real, forward: real, back: real): (q: real)
    requires Metal.Bounded(em) && Metal.Bounded(co) && forward >= 0.0
    ensures back == 0.0 && psi >= Metal.Motive(em) ==> q >= 0.0
  {
    var energy := psi - em.voltage;
    assert psi >= Metal.Motive(em) ==> forward * (energy + 2.0 * Metal.BoltzmannEV * em.temp) >= 0.0 by {
      if psi >= Metal.Motive(em) {
        Physics.ProductSign(Metal.BoltzmannEV, em.temp);
        Physics.ProductSign(forward, energy + 2.0 * Metal.BoltzmannEV * em.temp);
      }
    }
    forward * (energy + 2.0 * Metal.BoltzmannEV * em.temp) - back * (energy + 2.0 * Metal.BoltzmannEV * co.temp)
  }

  /** `electron_cooling_rate`, at the maximum motive of this model. */
  function ElectronCoolingRate(em: Metal.Snapshot, co: Metal.Snapshot, exp: Physics.Exp): (q: real)
    requires Metal.Bounded(em) && Metal.Bounded(co)
    ensures BackCurrent(em, co, exp) == 0.0 ==> q >= 0.0
  {
    Cooling(em, co, MaxMotive(em, co), ForwardCurrent(em, co, exp), BackCurrent(em, co, exp))
  }

  /** The energy per electron counted by the cooling rate is the emitter barrier plus the motive excess, so at least the barrier. */
  lemma CoolingEnergyIsBarrierPlusExcess(em: Metal.Snapshot, co: Metal.Snapshot)
    ensures MaxMotive(em, co) - em.voltage == em.barrier + (MaxMotive(em, co) - Metal.Motive(em))
    ensures MaxMotive(em, co) - em.voltage >= em.barrier
  {
  }

  /** The unit electrode area, 1 cm^2, in m^2. */
  const SquareCentimetre: real := 0.0001

  /**
   * `thermal_rad_rate`: 0 when either emissivity is 0, otherwise grey-body
   * exchange between parallel plates over 1 cm^2. It flows from the hotter
   * electrode and vanishes exactly at equal temperatures.
   */
  function ThermalRadRate(em: Metal.Snapshot, co: Metal.Snapshot): (q: real)
    requires Metal.Bounded(em) && Metal.Bounded(co)
    ensures q == 0.0 <==> em.emissivity == 0.0 || co.emissivity == 0.0 || em.temp == co.temp
    ensures q > 0.0 <==> em.emissivity > 0.0 && co.emissivity > 0.0 && em.temp > co.temp
  {
    if em.emissivity == 0.0 || co.emissivity == 0.0 then 0.0
    else Physics.GreyExchange(em.temp, co.temp, em.emissivity, co.emissivity) * SquareCentimetre
  }

  /** `heat_supply_rate`: electron cooling plus radiation, so at least the radiation when no electron comes back. */
  function HeatSupplyRate(em: Metal.Snapshot, co: Metal.Snapshot, exp: Physics.Exp): (q: real)
    requires Metal.Bounded(em) && Metal.Bounded(co)
    ensures BackCurrent(em, co, exp) == 0.0 ==> q >= ThermalRadRate(em, co)
  {
    ElectronCoolingRate(em, co, exp) + ThermalRadRate(em, co)
  }

  /** Without back current, and with the emitter the hotter radiator, the heat supply is never negative. */
  lemma HeatSupplyNonNegative(em: Metal.Snapshot, co: Metal.Snapshot, exp: Physics.Exp)
    requires Metal.Bounded(em) && Metal.Bounded(co)
    requires BackCurrent(em, co, exp) == 0.0 && em.temp >= co.temp
    ensures HeatSupplyRate(em, co, exp) >= 0.0
  {
  }

  /**
   * `efficiency`: NaN unless the output power is positive, otherwise power
   * over heat supply (infinite for a zero heat supply, under numpy division).
   */
  function Efficiency(em: Metal.Snapshot, co: Metal.Snapshot, exp: Physics.Exp): (r: Option<Extended>)
    requires Metal.Bounded(em) && Metal.Bounded(co)
    ensures r.None? <==> OutputPower(em, co, exp) <= 0.0
    ensures r.Some? ==> (r.value == Infinity <==> HeatSupplyRate(em, co, exp) == 0.0)
  {
    Ratios.Efficiency(OutputPower(em, co, exp), HeatSupplyRate(em, co, exp))
  }
}
