/**
 * The `NEAC` device of src/tec/models/neac.py and its older twin `TEC_NEAC`
 * of tec_neac.py: space charge with a collector that has negative electron
 * affinity (NEA), on the dict-based `TECBase` and `Electrode`.
 *
 * `calc_motive` first finds the space-charge-limited-mode boundary-surface
 * distance, below which the device has no space-charge-limited mode. Then it
 * finds the saturation point and the virtual critical point (both collapse to
 * the contact potential and the emitter's saturation current inside that
 * distance), and finally the maximum motive height of the operating regime,
 * measured from the electrodes' barrier heights. The distance, the spline
 * value at the collector and the root-finder results are parameters.
 *
 * Units are SI, as in `DictElectrode`.
 */
module Neac {
  import opened Wrappers
  import Physics
  import opened DictElectrode
  import DictTecBase
  import SpaceCharge
  import TecLangmuir

  type Point = TecLangmuir.Point

  /** The computed part of `motive_data`. */
  datatype MotiveData = MotiveData(
    spclmbsMaxDist: real,
    saturationPt: Point,
    virtCriticalPt: Point,
    maxMotiveHt: real)

  /** Inside the boundary surface both points are the contact potential at the saturation current. */
  function ShortCircuit(em: map<Key, real>, co: map<Key, real>, exp: Physics.Exp): Point
    requires ValidFields(em) && ValidFields(co)
  {
    TecLangmuir.Point(DictTecBase.ContactPotential(em, co), SaturationCurrent(em, exp))
  }

  /**
   * `calc_saturation_pt`: the contact potential inside the boundary surface;
   * beyond it the collector's NEA raises the contact potential, and the
   * dimensionless motive `motive` at the collector lowers it again. The
   * current density is the emitter's saturation current either way. Beyond
   * the surface a 0 K emitter makes the dimensionless position divide 0.0 by
   * 0.0, which raises ZeroDivisionError.
   */
  function SaturationPoint(em: map<Key, real>, co: map<Key, real>, maxDist: real, motive: real, exp: Physics.Exp): (r: Result<Point>)
    requires ValidFields(em) && ValidFields(co) && Nea in co && motive >= 0.0
    ensures r.Err? <==> DictTecBase.Spacing(em, co) > maxDist && em[Temp] == 0.0
    ensures r.Err? ==> r.error == ZeroDivisionError
    ensures r.Ok? ==> r.value.outputCurrentDensity == SaturationCurrent(em, exp)
    ensures DictTecBase.Spacing(em, co) <= maxDist ==> r == Ok(ShortCircuit(em, co, exp))
    ensures DictTecBase.Spacing(em, co) > maxDist && r.Ok? ==>
      r.value.outputVoltage <= DictTecBase.ContactPotential(em, co) + co[Nea] / Physics.ElectronCharge &&
      (r.value.outputVoltage == DictTecBase.ContactPotential(em, co) + co[Nea] / Physics.ElectronCharge <==> motive == 0.0)
  {
    if DictTecBase.Spacing(em, co) <= maxDist then Ok(ShortCircuit(em, co, exp))
    else if em[Temp] == 0.0 then Err(ZeroDivisionError)
    else
      var drop := motive * TecLangmuir.ThermalEnergy(em);
      assert drop >= 0.0 && (drop == 0.0 <==> motive == 0.0) by {
        Physics.ProductSign(motive, TecLangmuir.ThermalEnergy(em));
      }
      Ok(TecLangmuir.Point((em[Barrier] + co[Nea] - co[Barrier] - drop) / Physics.ElectronCharge, SaturationCurrent(em, exp)))
  }

  /**
   * At the boundary surface the collector's dimensionless motive is its NEA
   * over kT, and there the saturation voltage beyond the surface meets the
   * contact potential it takes inside.
   */
  lemma SaturationContinuous(em: map<Key, real>, co: map<Key, real>, maxDist: real, motive: real, exp: Physics.Exp)
    requires ValidFields(em) && ValidFields(co) && Nea in co && motive >= 0.0 && em[Temp] > 0.0
    requires DictTecBase.Spacing(em, co) > maxDist
    requires motive * TecLangmuir.ThermalEnergy(em) == co[Nea]
    ensures SaturationPoint(em, co, maxDist, motive, exp).Ok?
    ensures SaturationPoint(em, co, maxDist, motive, exp).value.outputVoltage == DictTecBase.ContactPotential(em, co)
  {
  }

  /**
   * `calc_virt_critical_pt`: the contact potential inside the boundary
   * surface; beyond it the root `j` of the virtual-critical target, at the
   * contact potential plus kT ln(Jsat/j) over e. That voltage is never below
   * the contact potential.
   */
  function VirtCriticalPoint(em: map<Key, real>, co: map<Key, real>, maxDist: real, j: real, exp: Physics.Exp, ln: Physics.Ln): (p: Point)
    requires ValidFields(em) && ValidFields(co)
    requires 0.0 < j <= SaturationCurrent(em, exp)
    ensures DictTecBase.Spacing(em, co) <= maxDist ==> p == ShortCircuit(em, co, exp)
    ensures DictTecBase.Spacing(em, co) > maxDist ==> p.outputCurrentDensity == j
    ensures p.outputVoltage >= DictTecBase.ContactPotential(em, co)
    ensures p.outputCurrentDensity == SaturationCurrent(em, exp) ==> p.outputVoltage == DictTecBase.ContactPotential(em, co)
  {
    if DictTecBase.Spacing(em, co) <= maxDist then ShortCircuit(em, co, exp)
    else TecLangmuir.CriticalPoint(em, co, j, exp, ln)
  }

  /**
   * The virtual critical voltage as tec_neac.py writes it: the energy
   * φE - φC + kT ln(Jsat/j), never divided by the electron charge, so it is in
   * joules where the regime test compares it with volts: it is the electron
   * charge times the critical voltage of the Langmuir model.
   */
  function VirtCriticalVoltageAsWritten(em: map<Key, real>, co: map<Key, real>, j: real, exp: Physics.Exp, ln: Physics.Ln): (v: real)
    requires ValidFields(em) && ValidFields(co)
    requires 0.0 < j <= SaturationCurrent(em, exp)
    ensures v == TecLangmuir.CriticalPoint(em, co, j, exp, ln).outputVoltage * Physics.ElectronCharge
  {
    em[Barrier] - co[Barrier] + SpaceCharge.SpaceChargeBarrier(TecLangmuir.ThermalEnergy(em), SaturationCurrent(em, exp), j, ln)
  }

  /**
   * As written, at the saturation current the virtual critical voltage
   * misses the contact potential whenever the barriers differ (1 eV against
   * 0.8 eV gives 3.2e-20 instead of 0.2 V), so it jumps at the boundary
   * surface. The corrected point takes the contact potential on both sides.
   */
  lemma {:induction false} VirtCriticalAsWrittenJumps(em: map<Key, real>, co: map<Key, real>, maxDist: real, exp: Physics.Exp, ln: Physics.Ln)
    requires ValidFields(em) && ValidFields(co)
    requires SaturationCurrent(em, exp) > 0.0 && em[Barrier] != co[Barrier]
    ensures VirtCriticalVoltageAsWritten(em, co, SaturationCurrent(em, exp), exp, ln) != DictTecBase.ContactPotential(em, co)
    ensures VirtCriticalPoint(em, co, maxDist, SaturationCurrent(em, exp), exp, ln).outputVoltage == DictTecBase.ContactPotential(em, co)
  {
    var d := em[Barrier] - co[Barrier];
    var jsat := SaturationCurrent(em, exp);
    assert VirtCriticalVoltageAsWritten(em, co, jsat, exp, ln) == d;
    assert DictTecBase.ContactPotential(em, co) * Physics.ElectronCharge == d;
  }

  /**
   * The `motive_data` `calc_motive` computes once the collector has an NEA
   * entry: the distance, both points, and the maximum motive height of the
   * regime. In the space-charge-limited regime the emitter's barrier height
   * is raised by kT ln(Jsat/j) at the output-voltage root `jRoot`.
   */
  function MotiveDataOf(em: map<Key, real>, co: map<Key, real>, maxDist: real, satMotive: real, jVirt: real, jRoot: real,
                        exp: Physics.Exp, ln: Physics.Ln): (md: MotiveData)
    requires ValidFields(em) && ValidFields(co) && Nea in co && satMotive >= 0.0
    requires 0.0 < jVirt <= SaturationCurrent(em, exp)
    requires VirtCriticalPoint(em, co, maxDist, jVirt, exp, ln).outputCurrentDensity <= jRoot <= SaturationCurrent(em, exp)
    ensures md.spclmbsMaxDist == maxDist
    ensures SaturationPoint(em, co, maxDist, satMotive, exp) == Ok(md.saturationPt)
    ensures md.virtCriticalPt == VirtCriticalPoint(em, co, maxDist, jVirt, exp, ln)
    ensures DictTecBase.OutputVoltage(em, co) < md.saturationPt.outputVoltage ==> md.maxMotiveHt == BarrierHt(em)
    ensures md.saturationPt.outputVoltage <= DictTecBase.OutputVoltage(em, co) && md.virtCriticalPt.outputVoltage < DictTecBase.OutputVoltage(em, co) ==>
      md.maxMotiveHt == BarrierHt(co)
    ensures md.saturationPt.outputVoltage <= DictTecBase.OutputVoltage(em, co) <= md.virtCriticalPt.outputVoltage ==>
      md.maxMotiveHt >= BarrierHt(em) && (md.maxMotiveHt == BarrierHt(em) <==> jRoot == SaturationCurrent(em, exp))
  {
    var sat := SaturationPoint(em, co, maxDist, satMotive, exp).value;
    var virt := VirtCriticalPoint(em, co, maxDist, jVirt, exp, ln);
    var regime := SpaceCharge.RegimeOf(DictTecBase.OutputVoltage(em, co), sat.outputVoltage, virt.outputVoltage);
    var barrier := SpaceCharge.SpaceChargeBarrier(TecLangmuir.ThermalEnergy(em), SaturationCurrent(em, exp), jRoot, ln);
    MotiveData(maxDist, sat, virt, SpaceCharge.MaxMotiveOf(regime, BarrierHt(em), BarrierHt(co), barrier))
  }

  /**
   * The maximum motive height never falls below the emitter's barrier height:
   * in the retarding regime the collector's barrier height is strictly above
   * the emitter's.
   */
  lemma {:induction false} MaxMotiveAboveEmitter(em: map<Key, real>, co: map<Key, real>, maxDist: real, satMotive: real, jVirt: real, jRoot: real,
                                                 exp: Physics.Exp, ln: Physics.Ln)
    requires ValidFields(em) && ValidFields(co) && Nea in co && satMotive >= 0.0
    requires 0.0 < jVirt <= SaturationCurrent(em, exp)
    requires VirtCriticalPoint(em, co, maxDist, jVirt, exp, ln).outputCurrentDensity <= jRoot <= SaturationCurrent(em, exp)
    ensures var md := MotiveDataOf(em, co, maxDist, satMotive, jVirt, jRoot, exp, ln);
            md.maxMotiveHt >= BarrierHt(em)
    ensures var md := MotiveDataOf(em, co, maxDist, satMotive, jVirt, jRoot, exp, ln);
            md.saturationPt.outputVoltage <= DictTecBase.OutputVoltage(em, co) && md.virtCriticalPt.outputVoltage < DictTecBase.OutputVoltage(em, co) ==>
              BarrierHt(co) > BarrierHt(em)
  {
    var md := MotiveDataOf(em, co, maxDist, satMotive, jVirt, jRoot, exp, ln);
    var v := DictTecBase.OutputVoltage(em, co);
    var cp := DictTecBase.ContactPotential(em, co);
    assert BarrierHt(co) - BarrierHt(em) == Physics.ElectronCharge * (v - cp);
    if md.saturationPt.outputVoltage <= v && md.virtCriticalPt.outputVoltage < v {
      assert v - cp > 0.0;
    }
  }

  /**
   * Inside the boundary surface the device has no space-charge-limited range:
   * it accelerates below the contact potential, retards above it, and at the
   * contact potential itself the maximum is the emitter's barrier height.
   */
  lemma {:induction false} NoSpaceChargeInsideSurface(em: map<Key, real>, co: map<Key, real>, maxDist: real, satMotive: real, jVirt: real, jRoot: real,
                                                      exp: Physics.Exp, ln: Physics.Ln)
    requires ValidFields(em) && ValidFields(co) && Nea in co && satMotive >= 0.0
    requires 0.0 < jVirt <= SaturationCurrent(em, exp)
    requires VirtCriticalPoint(em, co, maxDist, jVirt, exp, ln).outputCurrentDensity <= jRoot <= SaturationCurrent(em, exp)
    requires DictTecBase.Spacing(em, co) <= maxDist
    ensures var md := MotiveDataOf(em, co, maxDist, satMotive, jVirt, jRoot, exp, ln);
            md.saturationPt == md.virtCriticalPt == ShortCircuit(em, co, exp) &&
            (DictTecBase.OutputVoltage(em, co) < DictTecBase.ContactPotential(em, co) ==> md.maxMotiveHt == BarrierHt(em)) &&
            (DictTecBase.OutputVoltage(em, co) > DictTecBase.ContactPotential(em, co) ==> md.maxMotiveHt == BarrierHt(co)) &&
            (DictTecBase.OutputVoltage(em, co) == DictTecBase.ContactPotential(em, co) ==> md.maxMotiveHt == BarrierHt(em))
  {
    assert jRoot == SaturationCurrent(em, exp);
  }

  /**
   * The root-finder results a hot emitter's `calc_motive` uses lie inside their
   * brackets: the virtual critical current in (0, Jsat], the output-voltage
   * root between it and Jsat. A hot emitter with Richardson constant 0 has no
   * such results.
   */
  predicate RootsFit(em: map<Key, real>, co: map<Key, real>, maxDist: real, jVirt: real, jRoot: real, exp: Physics.Exp, ln: Physics.Ln)
    requires ValidFields(em) && ValidFields(co)
  {
    em[Temp] > 0.0 ==>
      && 0.0 < jVirt <= SaturationCurrent(em, exp)
      && VirtCriticalPoint(em, co, maxDist, jVirt, exp, ln).outputCurrentDensity <= jRoot <= SaturationCurrent(em, exp)
  }

  /** A NEAC object: the two electrodes and its `motive_data`. */
  class NEAC {
    var emitter: Electrode
    var collector: Electrode
    var motiveData: Option<TecLangmuir.Table<MotiveData>>

    ghost predicate Valid()
      reads this, emitter, collector
    {
      emitter != collector && ValidFields(emitter.fields) && ValidFields(collector.fields)
    }

    /** The object before the inherited `__init__` runs its body. */
    constructor Of(em: Electrode, co: Electrode)
      ensures emitter == em && collector == co && motiveData == None
    {
      emitter, collector, motiveData := em, co, None;
    }

    /**
     * `NEAC(input_params)`, through the inherited `TECBase.__init__`: TypeError
     * for a non-dict, KeyError for a missing electrode, the Electrode
     * exceptions for a bad emitter and then for a bad collector, and last the
     * exception of this class's `calc_motive`. A built device has its table.
     */
    static method New(input: PyObject, maxDist: real, satMotive: real, jVirt: real, jRoot: real, exp: Physics.Exp, ln: Physics.Ln)
      returns (r: Result<NEAC>)
      requires satMotive >= 0.0
      requires input.PyDict? && "Emitter" in input.entries && "Collector" in input.entries &&
               Construct(input.entries["Emitter"]).Ok? && Construct(input.entries["Collector"]).Ok? ==>
        RootsFit(Construct(input.entries["Emitter"]).value, Construct(input.entries["Collector"]).value, maxDist, jVirt, jRoot, exp, ln)
      ensures !input.PyDict? ==> r == Err(TypeError)
      ensures input.PyDict? && ("Emitter" !in input.entries || "Collector" !in input.entries) ==> r == Err(KeyError)
      ensures input.PyDict? && "Emitter" in input.entries && "Collector" in input.entries ==>
        var em, co := Construct(input.entries["Emitter"]), Construct(input.entries["Collector"]);
        && (em.Err? ==> r == Err(em.error))
        && (em.Ok? && co.Err? ==> r == Err(co.error))
        && (em.Ok? && co.Ok? && Nea !in co.value ==> r == Err(KeyError))
        && (em.Ok? && co.Ok? && Nea in co.value ==> (r.Err? <==> em.value[Temp] == 0.0))
        && (em.Ok? && co.Ok? && Nea in co.value && r.Err? ==> r.error == ZeroDivisionError)
      ensures r.Ok? ==> fresh(r.value) && fresh(r.value.emitter) && fresh(r.value.collector) && r.value.Valid()
      ensures r.Ok? ==>
        var em, co := Construct(input.entries["Emitter"]).value, Construct(input.entries["Collector"]).value;
        && r.value.emitter.State() == Snapshot(em, false)
        && r.value.collector.State() == Snapshot(co, false)
        && Nea in co && em[Temp] > 0.0
        && r.value.motiveData == Some(TecLangmuir.Filled(MotiveDataOf(em, co, maxDist, satMotive, jVirt, jRoot, exp, ln)))
    {
      if !input.PyDict? {
        return Err(TypeError);
      }
      if "Emitter" !in input.entries || "Collector" !in input.entries {
        return Err(KeyError);
      }
      var em := Electrode.New(input.entries["Emitter"]);
      if em.Err? {
        return Err(em.error);
      }
      var co := Electrode.New(input.entries["Collector"]);
      if co.Err? {
        return Err(co.error);
      }
      var t := new NEAC.Of(em.value, co.value);
      var err := t.CalcMotive(maxDist, satMotive, jVirt, jRoot, exp, ln);
      if err.Some? {
        return Err(err.value);
      }
      return Ok(t);
    }

    /**
     * `calc_motive`: the boundary-surface distance reads the collector's NEA
     * first, so a collector without one raises KeyError; a 0 K emitter then
     * makes its Python-float division by kT raise ZeroDivisionError. Either
     * way the table holds only the Poisson solution. Otherwise the table is
     * the motive data the electrodes imply. The electrodes are not touched.
     */
    method CalcMotive(maxDist: real, satMotive: real, jVirt: real, jRoot: real, exp: Physics.Exp, ln: Physics.Ln)
      returns (err: Option<Error>)
      requires Valid() && satMotive >= 0.0
      requires RootsFit(emitter.fields, collector.fields, maxDist, jVirt, jRoot, exp, ln)
      modifies this
      ensures emitter == old(emitter) && collector == old(collector)
      ensures err.Some? <==> Nea !in collector.fields || emitter.fields[Temp] == 0.0
      ensures Nea !in collector.fields ==> err == Some(KeyError)
      ensures Nea in collector.fields && emitter.fields[Temp] == 0.0 ==> err == Some(ZeroDivisionError)
      ensures err.Some? ==> motiveData == Some(TecLangmuir.SolverOnly)
      ensures err.None? ==>
        motiveData == Some(TecLangmuir.Filled(MotiveDataOf(emitter.fields, collector.fields, maxDist, satMotive, jVirt, jRoot, exp, ln)))
    {
      if Nea !in collector.fields {
        motiveData := Some(TecLangmuir.SolverOnly);
        return Some(KeyError);
      }
      if emitter.fields[Temp] == 0.0 {
        motiveData := Some(TecLangmuir.SolverOnly);
        return Some(ZeroDivisionError);
      }
      motiveData := Some(TecLangmuir.Filled(MotiveDataOf(emitter.fields, collector.fields, maxDist, satMotive, jVirt, jRoot, exp, ln)));
      return None;
    }

    /**
     * `get_max_motive_ht()`, inherited from `Langmuir`: the refreshing read of
     * `self["motive_data"]` (both flags cleared, `calc_motive` run once when
     * either was up, as the corrected `DictTecBase.TECBase.GetItem`), then the
     * `max_motive_ht` lookup, which raises KeyError unless a `calc_motive`
     * completed. A refreshed height is never below the emitter's barrier height.
     */
    method GetMaxMotiveHt(maxDist: real, satMotive: real, jVirt: real, jRoot: real, exp: Physics.Exp, ln: Physics.Ln)
      returns (r: Result<real>)
      requires Valid() && satMotive >= 0.0
      requires RootsFit(emitter.fields, collector.fields, maxDist, jVirt, jRoot, exp, ln)
      modifies this, emitter, collector
      ensures emitter == old(emitter) && collector == old(collector) && Valid()
      ensures emitter.fields == old(emitter.fields) && collector.fields == old(collector.fields)
      ensures !emitter.paramChanged && !collector.paramChanged
      ensures !old(emitter.paramChanged) && !old(collector.paramChanged) ==>
        && motiveData == old(motiveData)
        && r == if motiveData.Some? && motiveData.value.Filled? then Ok(motiveData.value.data.maxMotiveHt) else Err(KeyError)
      ensures old(emitter.paramChanged) || old(collector.paramChanged) ==>
        && (r.Err? <==> Nea !in collector.fields || emitter.fields[Temp] == 0.0)
        && (r.Err? ==> motiveData == Some(TecLangmuir.SolverOnly))
        && (r.Ok? ==>
              && motiveData == Some(TecLangmuir.Filled(MotiveDataOf(emitter.fields, collector.fields, maxDist, satMotive, jVirt, jRoot, exp, ln)))
              && r.value == motiveData.value.data.maxMotiveHt
              && r.value >= BarrierHt(emitter.fields))
    {
      var e := emitter.ParamChangedAndReset();
      var c := collector.ParamChangedAndReset();
      if e || c {
        var err := CalcMotive(maxDist, satMotive, jVirt, jRoot, exp, ln);
        if err.Some? {
          return Err(err.value);
        }
        MaxMotiveAboveEmitter(emitter.fields, collector.fields, maxDist, satMotive, jVirt, jRoot, exp, ln);
      }
      if motiveData.Some? && motiveData.value.Filled? {
        r := Ok(motiveData.value.data.maxMotiveHt);
      } else {
        r := Err(KeyError);
      }
    }
  }
}
