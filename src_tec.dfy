/**
 * The frozen `TEC` record of src/tec/tec.py. It wraps a model object and
 * copies the model's electrodes, maximum motive (value and position) and
 * back-emission flag; its calculators read only those copies.
 *
 * Units are those of `SrcBase`: eV, V, um, A/cm^2, W/cm^2 and W over 1 cm^2.
 */
module SrcTec {
  import opened Wrappers
  import Physics
  import Ratios
  import Metal
  import SrcBase

  /** The attributes a TEC takes from the model object it wraps. */
  datatype ModelView = ModelView(
    emitter: Metal.Snapshot,
    collector: Metal.Snapshot,
    maxMotive: real,
    maxMotivePosition: real,
    backEmission: bool)

  /** A TEC record: the model and the attribute copies made at construction. */
  datatype TEC = TEC(
    model: ModelView,
    emitter: Metal.Snapshot,
    collector: Metal.Snapshot,
    maxMotive: real,
    maxMotivePosition: real,
    backEmission: bool)

  /** The electrodes hold values their Metal objects can hold. */
  predicate Bounded(t: TEC)
  {
    Metal.Bounded(t.emitter) && Metal.Bounded(t.collector)
  }

  /**
   * `TEC(model)` as written: the class is frozen, and its post-init hook
   * assigns the copied attributes with ordinary attribute assignment, which a
   * frozen attrs class rejects with FrozenInstanceError (an AttributeError).
   */
  function NewAsWritten(model: ModelView): (r: Result<TEC>)
    ensures r.Err? && r.error == AttributeError
  {
    Err(AttributeError)
  }

  /** `TEC(model)` as intended: every copied attribute is exactly the model's. */
  function New(model: ModelView): (t: TEC)
    ensures t.model == model
    ensures t.emitter == model.emitter && t.collector == model.collector
    ensures t.maxMotive == model.maxMotive && t.maxMotivePosition == model.maxMotivePosition
    ensures t.backEmission == model.backEmission
  {
    TEC(model, model.emitter, model.collector, model.maxMotive, model.maxMotivePosition, model.backEmission)
  }

  // ---------------------------------------------------------------------------
  // Currents.

  /** `forward_current_density`: unscaled exactly when the stored maximum motive does not exceed the emitter's. */
  function ForwardCurrent(t: TEC, exp: Physics.Exp): (j: real)
    requires Bounded(t)
    ensures 0.0 <= j <= Metal.CurrentDensity(t.emitter, exp)
    ensures j == Metal.CurrentDensity(t.emitter, exp) <==> t.maxMotive <= Metal.Motive(t.emitter) || Metal.CurrentDensity(t.emitter, exp) == 0.0
  {
    SrcBase.Emitted(t.emitter, t.maxMotive, exp)
  }

  /**
   * `back_current_density` as written: the collector's thermoelectron current
   * over the stored maximum motive, whatever the `back_emission` flag says.
   */
  function BackCurrentAsWritten(t: TEC, exp: Physics.Exp): (j: real)
    requires Bounded(t)
    ensures 0.0 <= j <= Metal.CurrentDensity(t.collector, exp)
    ensures j > 0.0 <==> Metal.CurrentDensity(t.collector, exp) > 0.0
  {
    SrcBase.Emitted(t.collector, t.maxMotive, exp)
  }

  /**
   * A TEC without back emission whose collector is warm still reports a back
   * current as written: a collector at 300 K with a 0.8 eV barrier and the
   * default Richardson constant, under a maximum motive of 2 eV.
   */
  lemma BackCurrentIgnoresFlag(exp: Physics.Exp)
    ensures var co := Metal.Snapshot(300.0, 0.8, 120.0, 0.0, 10.0, 1.0);
            var em := Metal.Snapshot(1000.0, 2.0, 120.0, 0.0, 0.0, 1.0);
            var t := New(ModelView(em, co, 2.0, 0.0, false));
            !t.backEmission && BackCurrentAsWritten(t, exp) > 0.0
  {
  }

  /** `back_current_density` as documented: 0 when the model has no back emission. */
  function BackCurrent(t: TEC, exp: Physics.Exp): (j: real)
    requires Bounded(t)
    ensures !t.backEmission ==> j == 0.0
    ensures t.backEmission ==> j == BackCurrentAsWritten(t, exp)
    ensures 0.0 <= j <= Metal.CurrentDensity(t.collector, exp)
  {
    if t.backEmission then BackCurrentAsWritten(t, exp) else 0.0
  }

  /** `output_current_density`: forward minus back; the forward current alone without back emission. */
  function OutputCurrent(t: TEC, exp: Physics.Exp): (j: real)
    requires Bounded(t)
    ensures -Metal.CurrentDensity(t.collector, exp) <= j <= Metal.CurrentDensity(t.emitter, exp)
    ensures !t.backEmission ==> j == ForwardCurrent(t, exp) && j >= 0.0
  {
    ForwardCurrent(t, exp) - BackCurrent(t, exp)
  }

  /**
   * `output_power_density`: output current times output voltage, positive
   * exactly when both have the same strict sign; without back emission, when
   * the emitter sends current against a positive output voltage.
   */
  function OutputPower(t: TEC, exp: Physics.Exp): (p: real)
    requires Bounded(t)
    ensures var j, v := OutputCurrent(t, exp), SrcBase.OutputVoltage(t.emitter, t.collector);
      && (p > 0.0 <==> (j > 0.0 && v > 0.0) || (j < 0.0 && v < 0.0))
      && (p == 0.0 <==> j == 0.0 || v == 0.0)
    ensures !t.backEmission ==> (p > 0.0 <==> ForwardCurrent(t, exp) > 0.0 && SrcBase.OutputVoltage(t.emitter, t.collector) > 0.0)
  {
    Ratios.Power(OutputCurrent(t, exp), SrcBase.OutputVoltage(t.emitter, t.collector))
  }

  // ---------------------------------------------------------------------------
  // Efficiency and heat.

  /**
   * `carnot_efficiency`: 1 - Tc/Te, with no guard. NaN (None) when the
   * emitter is at 0 K. It is negative exactly when the collector is hotter.
   */
  function CarnotEfficiency(t: TEC): (r: Option<real>)
    requires Bounded(t)
    ensures r.None? <==> t.emitter.temp == 0.0
    ensures r.Some? ==> r.value <= 1.0
    ensures r.Some? ==> (r.value < 0.0 <==> t.collector.temp > t.emitter.temp)
    ensures r.Some? ==> (r.value == 0.0 <==> t.collector.temp == t.emitter.temp)
  {
    if t.emitter.temp == 0.0 then None
    else
      var q := Physics.Quotient(t.collector.temp, t.emitter.temp);
      assert q > 1.0 <==> t.collector.temp > t.emitter.temp by {
        if q > 1.0 { Physics.ProductSign(q - 1.0, t.emitter.temp); }
        if t.collector.temp > t.emitter.temp && q <= 1.0 { Physics.ProductSign(1.0 - q, t.emitter.temp); }
      }
      assert q == 1.0 <==> t.collector.temp == t.emitter.temp;
      Some(1.0 - q)
  }

  /** `electron_cooling_rate`, at the stored maximum motive. */
  function ElectronCoolingRate(t: TEC, exp: Physics.Exp): (q: real)
    requires Bounded(t)
    ensures !t.backEmission && t.maxMotive >= Metal.Motive(t.emitter) ==> q >= 0.0
  {
    SrcBase.Cooling(t.emitter, t.collector, t.maxMotive, ForwardCurrent(t, exp), BackCurrent(t, exp))
  }

  /** `thermal_radiation_rate`: the same grey-body exchange as `SrcBase.ThermalRadRate`. */
  function ThermalRadiationRate(t: TEC): (q: real)
    requires Bounded(t)
    ensures q == 0.0 <==> t.emitter.emissivity == 0.0 || t.collector.emissivity == 0.0 || t.emitter.temp == t.collector.temp
    ensures q > 0.0 <==> t.emitter.emissivity > 0.0 && t.collector.emissivity > 0.0 && t.emitter.temp > t.collector.temp
  {
    SrcBase.ThermalRadRate(t.emitter, t.collector)
  }

  /**
   * `heat_supply_rate`: electron cooling plus radiation, so at least the
   * radiation without back emission when the stored maximum motive reaches
   * the emitter's.
   */
  function HeatSupplyRate(t: TEC, exp: Physics.Exp): (q: real)
    requires Bounded(t)
    ensures !t.backEmission && t.maxMotive >= Metal.Motive(t.emitter) ==> q >= ThermalRadiationRate(t)
  {
    ElectronCoolingRate(t, exp) + ThermalRadiationRate(t)
  }

  /** `efficiency`: NaN unless the output power is positive, otherwise power over heat supply. */
  function Efficiency(t: TEC, exp: Physics.Exp): (r: Option<Extended>)
    requires Bounded(t)
    ensures r.None? <==> OutputPower(t, exp) <= 0.0
    ensures r.Some? ==> (r.value == Infinity <==> HeatSupplyRate(t, exp) == 0.0)
  {
    Ratios.Efficiency(OutputPower(t, exp), HeatSupplyRate(t, exp))
  }
}
