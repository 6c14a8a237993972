/**
 * The `Langmuir` device of tec/models/langmuir.py, built on the dict-based
 * `TECBase` and `Electrode` of tec/__init__.py. It considers space charge and
 * ignores both NEA and back emission.
 *
 * Its `calc_motive` first throws away any `nea` entry of either electrode,
 * then fills `motive_data` with the saturation point, the critical point and
 * the maximum motive height the operating regime implies. The ODE solution
 * and the root finders stay outside the model: the dimensionless motive at
 * the collector, the critical current density and the space-charge-limited
 * current density are parameters.
 *
 * Units are SI, as in `DictElectrode`: J for energies, V, A/m^2.
 */
module TecLangmuir {
  import opened Wrappers
  import Physics
  import opened DictElectrode
  import DictTecBase
  import SpaceCharge

  /** A point of the current-voltage curve: `{"output_voltage": .., "output_current_density": ..}`. */
  datatype Point = Point(outputVoltage: real, outputCurrentDensity: real)

  /** The computed part of `motive_data`. */
  datatype MotiveData = MotiveData(saturationPt: Point, criticalPt: Point, maxMotiveHt: real)

  /** An electrode's fields once its `nea` entry is gone: still valid, nothing else changed. */
  function WithoutNea(m: map<Key, real>): (r: map<Key, real>)
    ensures Nea !in r
    ensures forall k :: k in r <==> k in m && k != Nea
    ensures forall k :: k in r ==> r[k] == m[k]
    ensures ValidFields(m) ==> ValidFields(r)
  {
    m - {Nea}
  }

  /** Removing `nea` leaves the saturation current as it was. */
  lemma SaturationCurrentIgnoresNea(m: map<Key, real>, exp: Physics.Exp)
    requires ValidFields(m)
    ensures SaturationCurrent(WithoutNea(m), exp) == SaturationCurrent(m, exp)
  {
    var r := WithoutNea(m);
    assert r[Temp] == m[Temp] && r[Barrier] == m[Barrier] && r[Richardson] == m[Richardson];
  }

  /** Boltzmann's constant times the electrode temperature, in J. */
  function ThermalEnergy(m: map<Key, real>): (kT: real)
    requires ValidFields(m)
    ensures kT >= 0.0
    ensures kT == 0.0 <==> m[Temp] == 0.0
  {
    Physics.Boltzmann * m[Temp]
  }

  /**
   * `calc_saturation_pt`: the emitter's saturation current density, at the
   * output voltage that leaves the dimensionless motive `motive` between the
   * maximum and the collector. A 0 K emitter has a saturation current of the
   * integer 0, so the dimensionless position divides 0.0 by 0.0 and raises
   * ZeroDivisionError. Otherwise the voltage never exceeds the contact
   * potential, and reaches it exactly for a zero motive.
   */
  function SaturationPoint(em: map<Key, real>, co: map<Key, real>, motive: real, exp: Physics.Exp): (r: Result<Point>)
    requires ValidFields(em) && ValidFields(co) && motive >= 0.0
    ensures r.Err? <==> em[Temp] == 0.0
    ensures r.Err? ==> r.error == ZeroDivisionError
    ensures r.Ok? ==> r.value.outputCurrentDensity == SaturationCurrent(em, exp)
    ensures r.Ok? ==> r.value.outputVoltage <= DictTecBase.ContactPotential(em, co)
    ensures r.Ok? ==> (r.value.outputVoltage == DictTecBase.ContactPotential(em, co) <==> motive == 0.0)
  {
    if em[Temp] == 0.0 then Err(ZeroDivisionError)
    else
      var drop := motive * ThermalEnergy(em);
      assert drop >= 0.0 && (drop == 0.0 <==> motive == 0.0) by {
        Physics.ProductSign(motive, ThermalEnergy(em));
      }
      Ok(Point((em[Barrier] - co[Barrier] - drop) / Physics.ElectronCharge, SaturationCurrent(em, exp)))
  }

  /**
   * `calc_critical_pt`: the critical current density `j` the root finder
   * returns, at the output voltage the contact potential plus the
   * space-charge barrier kT ln(Jsat/j) imply. That voltage is never below the
   * contact potential, and equals it exactly at the saturation current.
   */
  function CriticalPoint(em: map<Key, real>, co: map<Key, real>, j: real, exp: Physics.Exp, ln: Physics.Ln): (p: Point)
    requires ValidFields(em) && ValidFields(co)
    requires 0.0 < j <= SaturationCurrent(em, exp)
    ensures p.outputCurrentDensity == j
    ensures p.outputVoltage >= DictTecBase.ContactPotential(em, co)
    ensures p.outputVoltage == DictTecBase.ContactPotential(em, co) <==> j == SaturationCurrent(em, exp)
  {
    var barrier := SpaceCharge.SpaceChargeBarrier(ThermalEnergy(em), SaturationCurrent(em, exp), j, ln);
    Point((em[Barrier] - co[Barrier] + barrier) / Physics.ElectronCharge, j)
  }

  /**
   * The `motive_data` `calc_motive` computes: the two points, then the
   * maximum motive height of the regime the output voltage falls in. In the
   * space-charge-limited regime the emitter's boundary condition is raised by
   * kT ln(Jsat/j) at the root `jRoot` the output-voltage root finder returns.
   * Both roots are positive, so the emitter is hot and the saturation point
   * exists.
   */
  function MotiveDataOf(em: map<Key, real>, co: map<Key, real>, satMotive: real, jCrit: real, jRoot: real,
                        exp: Physics.Exp, ln: Physics.Ln): (md: MotiveData)
    requires ValidFields(em) && ValidFields(co) && satMotive >= 0.0
    requires 0.0 < jCrit <= jRoot <= SaturationCurrent(em, exp)
    ensures SaturationPoint(em, co, satMotive, exp) == Ok(md.saturationPt)
    ensures md.criticalPt == CriticalPoint(em, co, jCrit, exp, ln)
    ensures DictTecBase.OutputVoltage(em, co) < md.saturationPt.outputVoltage ==> md.maxMotiveHt == MotiveBc(em)
    ensures md.saturationPt.outputVoltage <= DictTecBase.OutputVoltage(em, co) && md.criticalPt.outputVoltage < DictTecBase.OutputVoltage(em, co) ==>
      md.maxMotiveHt == MotiveBc(co)
    ensures md.saturationPt.outputVoltage <= DictTecBase.OutputVoltage(em, co) <= md.criticalPt.outputVoltage ==>
      md.maxMotiveHt >= MotiveBc(em) && (md.maxMotiveHt == MotiveBc(em) <==> jRoot == SaturationCurrent(em, exp))
  {
    var sat := SaturationPoint(em, co, satMotive, exp).value;
    var crit := CriticalPoint(em, co, jCrit, exp, ln);
    var regime := SpaceCharge.RegimeOf(DictTecBase.OutputVoltage(em, co), sat.outputVoltage, crit.outputVoltage);
    var barrier := SpaceCharge.SpaceChargeBarrier(ThermalEnergy(em), SaturationCurrent(em, exp), jRoot, ln);
    MotiveData(sat, crit, SpaceCharge.MaxMotiveOf(regime, MotiveBc(em), MotiveBc(co), barrier))
  }

  /** The saturation voltage never exceeds the critical one, so the regimes follow one another along the voltage axis. */
  lemma PointsOrdered(em: map<Key, real>, co: map<Key, real>, satMotive: real, jCrit: real, jRoot: real,
                      exp: Physics.Exp, ln: Physics.Ln, v1: real, v2: real)
    requires ValidFields(em) && ValidFields(co) && satMotive >= 0.0
    requires 0.0 < jCrit <= jRoot <= SaturationCurrent(em, exp)
    requires v1 <= v2
    ensures var md := MotiveDataOf(em, co, satMotive, jCrit, jRoot, exp, ln);
            md.saturationPt.outputVoltage <= DictTecBase.ContactPotential(em, co) <= md.criticalPt.outputVoltage &&
            SpaceCharge.Rank(SpaceCharge.RegimeOf(v1, md.saturationPt.outputVoltage, md.criticalPt.outputVoltage)) <=
            SpaceCharge.Rank(SpaceCharge.RegimeOf(v2, md.saturationPt.outputVoltage, md.criticalPt.outputVoltage))
  {
    var md := MotiveDataOf(em, co, satMotive, jCrit, jRoot, exp, ln);
    SpaceCharge.RegimeMonotone(v1, v2, md.saturationPt.outputVoltage, md.criticalPt.outputVoltage);
  }

  /**
   * Without NEA the maximum motive height is never below the emitter's
   * barrier height, in any regime. Accelerating, it is the higher of the two
   * barrier heights; retarding, the collector's, which is then strictly higher.
   */
  lemma {:induction false} MaxMotiveAboveEmitter(em: map<Key, real>, co: map<Key, real>, satMotive: real, jCrit: real, jRoot: real,
                                                 exp: Physics.Exp, ln: Physics.Ln)
    requires ValidFields(em) && ValidFields(co) && satMotive >= 0.0
    requires 0.0 < jCrit <= jRoot <= SaturationCurrent(em, exp)
    requires Nea !in em && Nea !in co
    ensures var md := MotiveDataOf(em, co, satMotive, jCrit, jRoot, exp, ln);
            md.maxMotiveHt >= BarrierHt(em)
    ensures var md := MotiveDataOf(em, co, satMotive, jCrit, jRoot, exp, ln);
            DictTecBase.OutputVoltage(em, co) < md.saturationPt.outputVoltage ==>
              md.maxMotiveHt == BarrierHt(em) && BarrierHt(em) > BarrierHt(co)
    ensures var md := MotiveDataOf(em, co, satMotive, jCrit, jRoot, exp, ln);
            md.criticalPt.outputVoltage < DictTecBase.OutputVoltage(em, co) ==>
              md.maxMotiveHt == BarrierHt(co) && BarrierHt(co) > BarrierHt(em)
  {
    var md := MotiveDataOf(em, co, satMotive, jCrit, jRoot, exp, ln);
    var e := Physics.ElectronCharge;
    var v := DictTecBase.OutputVoltage(em, co);
    var cp := DictTecBase.ContactPotential(em, co);
    // A barrier-height difference is e times the output voltage's distance from the contact potential.
    assert BarrierHt(co) - BarrierHt(em) == e * (v - cp);
    if v < md.saturationPt.outputVoltage {
      assert v - cp < 0.0;
    } else if md.criticalPt.outputVoltage < v {
      assert v - cp > 0.0;
    }
  }

  /** `back_current_density`: always 0 A/cm^2. */
  function BackCurrentDensity(): (j: real)
    ensures j == 0.0
  {
    0.0
  }

  /**
   * The output current the class promises, with back emission ignored: the
   * forward current at the stored maximum motive height, between 0 and the
   * emitter's saturation current.
   */
  function OutputCurrentDensity(em: map<Key, real>, md: MotiveData, exp: Physics.Exp): (j: real)
    requires ValidFields(em)
    ensures 0.0 <= j <= SaturationCurrent(em, exp)
    ensures j == SaturationCurrent(em, exp) <==> BarrierHt(em) >= md.maxMotiveHt || SaturationCurrent(em, exp) == 0.0
    ensures j > 0.0 <==> SaturationCurrent(em, exp) > 0.0
  {
    DictTecBase.EmittedCurrent(em, md.maxMotiveHt, exp) - BackCurrentDensity()
  }

  /**
   * The output current as the class inherits it. `back_current_density` is not
   * the name `calc_output_current_density` calls, so the collector's emission
   * over the stored maximum motive height is still subtracted: the current
   * lies between minus the collector's and plus the emitter's saturation
   * current, and a collector that emits at all lowers it.
   */
  function OutputCurrentAsWritten(em: map<Key, real>, co: map<Key, real>, md: MotiveData, exp: Physics.Exp): (j: real)
    requires ValidFields(em) && ValidFields(co)
    ensures -SaturationCurrent(co, exp) <= j <= SaturationCurrent(em, exp)
    ensures j <= OutputCurrentDensity(em, md, exp)
    ensures j == OutputCurrentDensity(em, md, exp) <==> SaturationCurrent(co, exp) == 0.0
  {
    DictTecBase.EmittedCurrent(em, md.maxMotiveHt, exp) - DictTecBase.EmittedCurrent(co, md.maxMotiveHt, exp)
  }

  /**
   * A hot collector with a positive Richardson constant emits, so the
   * inherited calculation reports less current than the device without back
   * emission delivers, in every regime.
   */
  lemma BackEmissionNotIgnored(em: map<Key, real>, co: map<Key, real>, satMotive: real, jCrit: real, jRoot: real,
                               exp: Physics.Exp, ln: Physics.Ln)
    requires ValidFields(em) && ValidFields(co) && satMotive >= 0.0
    requires 0.0 < jCrit <= jRoot <= SaturationCurrent(em, exp)
    requires co[Temp] > 0.0 && co[Richardson] > 0.0
    ensures var md := MotiveDataOf(em, co, satMotive, jCrit, jRoot, exp, ln);
      OutputCurrentAsWritten(em, co, md, exp) < OutputCurrentDensity(em, md, exp)
  {
  }

  /**
   * In the accelerating regime a Langmuir device without NEA delivers the
   * emitter's saturation current, once back emission is ignored.
   */
  lemma AcceleratingDeliversSaturation(em: map<Key, real>, co: map<Key, real>, satMotive: real, jCrit: real, jRoot: real,
                                       exp: Physics.Exp, ln: Physics.Ln)
    requires ValidFields(em) && ValidFields(co) && satMotive >= 0.0
    requires 0.0 < jCrit <= jRoot <= SaturationCurrent(em, exp)
    requires Nea !in em && Nea !in co
    requires SaturationPoint(em, co, satMotive, exp).Ok?
    requires DictTecBase.OutputVoltage(em, co) < SaturationPoint(em, co, satMotive, exp).value.outputVoltage
    ensures OutputCurrentDensity(em, MotiveDataOf(em, co, satMotive, jCrit, jRoot, exp, ln), exp) == SaturationCurrent(em, exp)
  {
    MaxMotiveAboveEmitter(em, co, satMotive, jCrit, jRoot, exp, ln);
  }

  /**
   * What `motive_data` holds once `calc_motive` has started: the dict with only
   * the Poisson solution in it when the method stopped early, or the whole table.
   */
  datatype Table<T> = SolverOnly | Filled(data: T)

  /** The root-finder results a hot emitter's `calc_motive` uses lie inside their brackets. */
  predicate RootsFit(em: map<Key, real>, jCrit: real, jRoot: real, exp: Physics.Exp)
    requires ValidFields(em)
  {
    em[Temp] > 0.0 ==> 0.0 < jCrit <= jRoot <= SaturationCurrent(em, exp)
  }

  /** A Langmuir object: the two electrodes and its `motive_data`. */
  class Langmuir {
    var emitter: Electrode
    var collector: Electrode
    var motiveData: Option<Table<MotiveData>>

    ghost predicate Valid()
      reads this, emitter, collector
    {
      emitter != collector && ValidFields(emitter.fields) && ValidFields(collector.fields)
    }

    /** The object before the inherited `__init__` runs its body. */
    constructor Of(em: Electrode, co: Electrode)
      ensures emitter == em && collector == co && motiveData == None
    {
      emitter, collector, motiveData := em, co, None;
    }

    /**
     * `Langmuir(input_params)`, through the inherited `TECBase.__init__`:
     * TypeError for a non-dict, KeyError for a missing electrode, the Electrode
     * exceptions for a bad emitter and then for a bad collector, and last the
     * exception of this class's `calc_motive`. A built device has its table.
     */
    static method New(input: PyObject, satMotive: real, jCrit: real, jRoot: real, exp: Physics.Exp, ln: Physics.Ln)
      returns (r: Result<Langmuir>)
      requires satMotive >= 0.0
      requires input.PyDict? && "Emitter" in input.entries && Construct(input.entries["Emitter"]).Ok? ==>
        RootsFit(Construct(input.entries["Emitter"]).value, jCrit, jRoot, exp)
      ensures !input.PyDict? ==> r == Err(TypeError)
      ensures input.PyDict? && ("Emitter" !in input.entries || "Collector" !in input.entries) ==> r == Err(KeyError)
      ensures input.PyDict? && "Emitter" in input.entries && "Collector" in input.entries ==>
        var em, co := Construct(input.entries["Emitter"]), Construct(input.entries["Collector"]);
        && (em.Err? ==> r == Err(em.error))
        && (em.Ok? && co.Err? ==> r == Err(co.error))
        && (em.Ok? && co.Ok? ==> (r.Err? <==> em.value[Temp] == 0.0))
        && (em.Ok? && co.Ok? && r.Err? ==> r.error == ZeroDivisionError)
      ensures r.Ok? ==> fresh(r.value) && fresh(r.value.emitter) && fresh(r.value.collector) && r.value.Valid()
      ensures r.Ok? ==>
        var em, co := Construct(input.entries["Emitter"]).value, Construct(input.entries["Collector"]).value;
        && r.value.emitter.State() == Snapshot(WithoutNea(em), false)
        && r.value.collector.State() == Snapshot(WithoutNea(co), false)
        && 0.0 < jCrit <= jRoot <= SaturationCurrent(WithoutNea(em), exp)
        && r.value.motiveData == Some(Filled(MotiveDataOf(WithoutNea(em), WithoutNea(co), satMotive, jCrit, jRoot, exp, ln)))
    {
      if !input.PyDict? {
        return Err(TypeError);
      }
      if "Emitter" !in input.entries || "Collector" !in input.entries {
        return Err(KeyError);
      }
      var em := Electrode.New(input.entries["Emitter"]);
      if em.Err? {
        return Err(em.error);
      }
      var co := Electrode.New(input.entries["Collector"]);
      if co.Err? {
        return Err(co.error);
      }
      var t := new Langmuir.Of(em.value, co.value);
      var err := t.CalcMotive(satMotive, jCrit, jRoot, exp, ln);
      if err.Some? {
        return Err(err.value);
      }
      return Ok(t);
    }

    /**
     * `calc_motive`: delete `nea` from both electrodes (their change flags stay
     * as they were), then store the motive data the remaining fields imply.
     * A 0 K emitter raises ZeroDivisionError in `calc_saturation_pt`, after
     * the deletions, and leaves the table holding only the Poisson solution.
     * The root finders' results are parameters, which only a hot emitter
     * constrains.
     */
    method CalcMotive(satMotive: real, jCrit: real, jRoot: real, exp: Physics.Exp, ln: Physics.Ln) returns (err: Option<Error>)
      requires Valid() && satMotive >= 0.0 && RootsFit(emitter.fields, jCrit, jRoot, exp)
      modifies this, emitter, collector
      ensures emitter == old(emitter) && collector == old(collector) && Valid()
      ensures emitter.fields == WithoutNea(old(emitter.fields)) && collector.fields == WithoutNea(old(collector.fields))
      ensures emitter.paramChanged == old(emitter.paramChanged) && collector.paramChanged == old(collector.paramChanged)
      ensures err.Some? <==> emitter.fields[Temp] == 0.0
      ensures err.Some? ==> err.value == ZeroDivisionError && motiveData == Some(SolverOnly)
      ensures err.None? ==>
        0.0 < jCrit <= jRoot <= SaturationCurrent(emitter.fields, exp) &&
        motiveData == Some(Filled(MotiveDataOf(emitter.fields, collector.fields, satMotive, jCrit, jRoot, exp, ln)))
    {
      ghost var em0 := emitter.fields;
      if Nea in emitter.fields {
        emitter.Delete(Nea);
      }
      if Nea in collector.fields {
        collector.Delete(Nea);
      }
      SaturationCurrentIgnoresNea(em0, exp);
      if emitter.fields[Temp] == 0.0 {
        motiveData := Some(SolverOnly);
        return Some(ZeroDivisionError);
      }
      motiveData := Some(Filled(MotiveDataOf(emitter.fields, collector.fields, satMotive, jCrit, jRoot, exp, ln)));
      return None;
    }

    /**
     * `get_max_motive_ht()`: the read of `self["motive_data"]` first refreshes
     * the device. When either flag is up it clears both and runs `calc_motive`
     * once, whose exception propagates; this is the corrected `__getitem__` of
     * `DictTecBase.TECBase.GetItem`. Then `max_motive_ht` is looked up, which
     * raises KeyError unless a `calc_motive` completed. A refreshed height is
     * never below the emitter's barrier height.
     */
    method GetMaxMotiveHt(satMotive: real, jCrit: real, jRoot: real, exp: Physics.Exp, ln: Physics.Ln) returns (r: Result<real>)
      requires Valid() && satMotive >= 0.0 && RootsFit(emitter.fields, jCrit, jRoot, exp)
      modifies this, emitter, collector
      ensures emitter == old(emitter) && collector == old(collector) && Valid()
      ensures !emitter.paramChanged && !collector.paramChanged
      ensures !old(emitter.paramChanged) && !old(collector.paramChanged) ==>
        && emitter.fields == old(emitter.fields) && collector.fields == old(collector.fields)
        && motiveData == old(motiveData)
        && r == if motiveData.Some? && motiveData.value.Filled? then Ok(motiveData.value.data.maxMotiveHt) else Err(KeyError)
      ensures old(emitter.paramChanged) || old(collector.paramChanged) ==>
        && emitter.fields == WithoutNea(old(emitter.fields)) && collector.fields == WithoutNea(old(collector.fields))
        && (r.Err? <==> emitter.fields[Temp] == 0.0)
        && (r.Err? ==> r.error == ZeroDivisionError && motiveData == Some(SolverOnly))
        && (r.Ok? ==>
              && 0.0 < jCrit <= jRoot <= SaturationCurrent(emitter.fields, exp)
              && motiveData == Some(Filled(MotiveDataOf(emitter.fields, collector.fields, satMotive, jCrit, jRoot, exp, ln)))
              && r.value == motiveData.value.data.maxMotiveHt
              && r.value >= BarrierHt(emitter.fields))
    {
      var e := emitter.ParamChangedAndReset();
      var c := collector.ParamChangedAndReset();
      if e || c {
        var err := CalcMotive(satMotive, jCrit, jRoot, exp, ln);
        if err.Some? {
          return Err(err.value);
        }
        MaxMotiveAboveEmitter(emitter.fields, collector.fields, satMotive, jCrit, jRoot, exp, ln);
      }
      if motiveData.Some? && motiveData.value.Filled? {
        r := Ok(motiveData.value.data.maxMotiveHt);
      } else {
        r := Err(KeyError);
      }
    }
  }
}
