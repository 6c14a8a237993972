/**
 * The models of src/tec/models.py: the default constraint checks, the
 * `Ideal` model and its `from_args` factory, the guards of the `Langmuir`
 * model, and the regime dispatch of `LLangmuir`.
 *
 * Electrodes enter a model through a converter that copies them, so a model
 * holds electrode values (`Metal.Snapshot`) that later changes to the Metal
 * objects cannot reach. Units are those of `SrcBase`.
 */
module SrcModels {
  import opened Wrappers
  import Physics
  import Metal
  import SrcBase
  import SrcTec
  import SpaceCharge

  // ---------------------------------------------------------------------------
  // Constraints.

  /** Which default constraint a pair of electrodes breaks first. */
  datatype Violation = EmitterNotHotter | EmitterBarrierNotHigher | EmitterNotBeforeCollector

  /**
   * `_check_default_model_constraints`: the emitter must be hotter, have the
   * higher barrier and sit before the collector, checked in that order.
   */
  function DefaultConstraints(em: Metal.Snapshot, co: Metal.Snapshot): (r: Option<Violation>)
    ensures r.None? <==> em.temp > co.temp && em.barrier > co.barrier && em.position < co.position
    ensures r == Some(EmitterNotHotter) <==> em.temp <= co.temp
    ensures r == Some(EmitterBarrierNotHigher) <==> em.temp > co.temp && em.barrier <= co.barrier
    ensures r == Some(EmitterNotBeforeCollector) <==> em.temp > co.temp && em.barrier > co.barrier && em.position >= co.position
  {
    if em.temp <= co.temp then Some(EmitterNotHotter)
    else if em.barrier <= co.barrier then Some(EmitterBarrierNotHigher)
    else if em.position >= co.position then Some(EmitterNotBeforeCollector)
    else None
  }

  // ---------------------------------------------------------------------------
  // The Ideal model.

  /** An `Ideal` model: copies of the two electrodes and the back-emission flag. */
  datatype Ideal = Ideal(emitter: Metal.Snapshot, collector: Metal.Snapshot, backEmission: bool)

  /** `Ideal(emitter, collector, back_emission)`: ValueError when a default constraint fails. */
  function NewIdeal(em: Metal.Snapshot, co: Metal.Snapshot, backEmission: bool): (r: Result<Ideal>)
    ensures r.Err? <==> DefaultConstraints(em, co).Some?
    ensures r.Err? ==> r.error == ValueError
    ensures r.Ok? ==> r.value.emitter == em && r.value.collector == co && r.value.backEmission == backEmission
  {
    if DefaultConstraints(em, co).Some? then Err(ValueError) else Ok(Ideal(em, co, backEmission))
  }

  /** A constructed model has a positive gap, a positive contact potential and a hotter emitter. */
  lemma ConstructedIdealIsOrdered(em: Metal.Snapshot, co: Metal.Snapshot, backEmission: bool)
    requires NewIdeal(em, co, backEmission).Ok?
    ensures SrcBase.Spacing(em, co) > 0.0
    ensures SrcBase.ContactPotential(em, co) > 0.0
    ensures em.temp > co.temp
  {
  }

  /**
   * The `motive` spline through the two electrode motives: defined only
   * inside a gap in increasing order, and never above `max_motive` there.
   */
  function IdealMotive(i: Ideal, x: real): (r: Result<real>)
    ensures r.Ok? <==> i.emitter.position < i.collector.position && i.emitter.position <= x <= i.collector.position
    ensures r.Err? ==> r.error == ValueError
    ensures r.Ok? ==> r.value <= IdealMaxMotive(i)
  {
    SrcBase.Motive(i.emitter, i.collector, x)
  }

  /** `max_motive`: Python's `max` of the two motives (the emitter's on a tie). */
  function IdealMaxMotive(i: Ideal): (psi: real)
    ensures psi >= Metal.Motive(i.emitter) && psi >= Metal.Motive(i.collector)
    ensures psi == Metal.Motive(i.emitter) || psi == Metal.Motive(i.collector)
  {
    if Metal.Motive(i.collector) > Metal.Motive(i.emitter) then Metal.Motive(i.collector) else Metal.Motive(i.emitter)
  }

  /** `max_motive_position`: the emitter's position exactly when its motive is strictly larger. */
  function IdealMaxMotivePosition(i: Ideal): (x: real)
    ensures Metal.Motive(i.emitter) > Metal.Motive(i.collector) ==> x == i.emitter.position
    ensures Metal.Motive(i.emitter) <= Metal.Motive(i.collector) ==> x == i.collector.position
  {
    SrcBase.MaxMotivePosition(i.emitter, i.collector)
  }

  /**
   * For a constructed model the maximum motive is the one of src/tec/base.py,
   * the largest value of the motive spline, and the spline reaches it at
   * `max_motive_position`.
   */
  lemma IdealMaxMotiveOfProfile(em: Metal.Snapshot, co: Metal.Snapshot, backEmission: bool, x: real)
    requires NewIdeal(em, co, backEmission).Ok?
    ensures var i := NewIdeal(em, co, backEmission).value;
      && IdealMaxMotive(i) == SrcBase.MaxMotive(em, co)
      && IdealMotive(i, IdealMaxMotivePosition(i)) == Ok(IdealMaxMotive(i))
      && (IdealMotive(i, x).Ok? ==> IdealMotive(i, x).value <= IdealMaxMotive(i))
  {
    SrcBase.MaxMotiveOfProfile(em, co, x);
  }

  /**
   * `copy()`: a new model from the same electrodes and flag. It re-runs the
   * constraint checks, and where they pass the copy equals the original.
   */
  function Copy(i: Ideal): (r: Result<Ideal>)
    ensures r.Ok? <==> DefaultConstraints(i.emitter, i.collector).None?
    ensures r.Err? ==> r.error == ValueError
    ensures r.Ok? ==> r.value == i
  {
    NewIdeal(i.emitter, i.collector, i.backEmission)
  }

  /** Copying a constructed model succeeds and gives an equal model. */
  lemma CopyOfConstructed(em: Metal.Snapshot, co: Metal.Snapshot, backEmission: bool)
    requires NewIdeal(em, co, backEmission).Ok?
    ensures Copy(NewIdeal(em, co, backEmission).value) == NewIdeal(em, co, backEmission)
  {
  }

  /** What a TEC reads from an Ideal model. */
  function IdealView(i: Ideal): (v: SrcTec.ModelView)
    ensures v.emitter == i.emitter && v.collector == i.collector && v.backEmission == i.backEmission
    ensures v.maxMotive == IdealMaxMotive(i) && v.maxMotivePosition == IdealMaxMotivePosition(i)
  {
    SrcTec.ModelView(i.emitter, i.collector, IdealMaxMotive(i), IdealMaxMotivePosition(i), i.backEmission)
  }

  // ---------------------------------------------------------------------------
  // `Ideal.from_args`.

  /** The arguments of `from_args`, after defaults are filled in. */
  datatype IdealArgs = IdealArgs(
    emitterTemperature: PyObject, emitterBarrier: PyObject,
    collectorTemperature: PyObject, collectorBarrier: PyObject,
    collectorVoltage: PyObject, collectorPosition: PyObject,
    emitterVoltage: PyObject, emitterPosition: PyObject,
    emitterEmissivity: PyObject, emitterRichardson: PyObject,
    collectorEmissivity: PyObject, collectorRichardson: PyObject,
    backEmission: bool)

  /**
   * A call giving only the six required arguments: emitter at voltage and
   * position 0, both electrodes with emissivity 1 and Richardson constant
   * 120 A/(cm^2 K^2), and no back emission.
   */
  function Defaulted(emitterTemperature: PyObject, emitterBarrier: PyObject, collectorTemperature: PyObject,
                     collectorBarrier: PyObject, collectorVoltage: PyObject, collectorPosition: PyObject): IdealArgs
  {
    IdealArgs(emitterTemperature, emitterBarrier, collectorTemperature, collectorBarrier, collectorVoltage, collectorPosition,
              PyNum(0.0), PyNum(0.0), PyNum(1.0), PyNum(120.0), PyNum(1.0), PyNum(120.0), false)
  }

  /** The emitter's arguments in the order of `Metal.Properties`. */
  function EmitterArgs(a: IdealArgs): (s: seq<PyObject>)
    ensures |s| == |Metal.Properties|
  {
    [a.emitterTemperature, a.emitterBarrier, a.emitterRichardson, a.emitterVoltage, a.emitterPosition, a.emitterEmissivity]
  }

  /** The collector's arguments in the order of `Metal.Properties`. */
  function CollectorArgs(a: IdealArgs): (s: seq<PyObject>)
    ensures |s| == |Metal.Properties|
  {
    [a.collectorTemperature, a.collectorBarrier, a.collectorRichardson, a.collectorVoltage, a.collectorPosition, a.collectorEmissivity]
  }

  /**
   * `from_args`: build the emitter, then the collector, then the model, and
   * wrap it in a TEC. The first failure is the call's exception.
   */
  function FromArgs(a: IdealArgs): (r: Result<SrcTec.TEC>)
    ensures Metal.Build(EmitterArgs(a)).Err? ==> r == Err(Metal.Build(EmitterArgs(a)).error)
    ensures Metal.Build(EmitterArgs(a)).Ok? && Metal.Build(CollectorArgs(a)).Err? ==> r == Err(Metal.Build(CollectorArgs(a)).error)
    ensures r.Ok? <==> (Metal.Build(EmitterArgs(a)).Ok? && Metal.Build(CollectorArgs(a)).Ok?
      && DefaultConstraints(Metal.Build(EmitterArgs(a)).value, Metal.Build(CollectorArgs(a)).value).None?)
    ensures r.Ok? ==> r.value == SrcTec.New(IdealView(Ideal(Metal.Build(EmitterArgs(a)).value, Metal.Build(CollectorArgs(a)).value, a.backEmission)))
  {
    match Metal.Build(EmitterArgs(a))
    case Err(e) => Err(e)
    case Ok(em) =>
      match Metal.Build(CollectorArgs(a))
      case Err(e) => Err(e)
      case Ok(co) =>
        match NewIdeal(em, co, a.backEmission)
        case Err(e) => Err(e)
        case Ok(i) => Ok(SrcTec.New(IdealView(i)))
  }

  /** With only the required arguments, the TEC's electrodes carry the documented defaults. */
  lemma FromArgsDefaults(emitterTemperature: PyObject, emitterBarrier: PyObject, collectorTemperature: PyObject,
                         collectorBarrier: PyObject, collectorVoltage: PyObject, collectorPosition: PyObject)
    ensures var r := FromArgs(Defaulted(emitterTemperature, emitterBarrier, collectorTemperature, collectorBarrier, collectorVoltage, collectorPosition));
      r.Ok? ==>
        && r.value.emitter.voltage == 0.0 && r.value.emitter.position == 0.0
        && r.value.emitter.emissivity == 1.0 && r.value.emitter.richardson == 120.0
        && r.value.collector.emissivity == 1.0 && r.value.collector.richardson == 120.0
        && r.value.collector.voltage == collectorVoltage.x && r.value.collector.position == collectorPosition.x
        && !r.value.backEmission
  {
    var a := Defaulted(emitterTemperature, emitterBarrier, collectorTemperature, collectorBarrier, collectorVoltage, collectorPosition);
    Metal.BuildFacts(EmitterArgs(a));
    Metal.BuildFacts(CollectorArgs(a));
    if FromArgs(a).Ok? {
      var em := Metal.Build(EmitterArgs(a)).value;
      var co := Metal.Build(CollectorArgs(a)).value;
      assert em.Get(Metal.Properties[2]) == 120.0 && em.Get(Metal.Properties[3]) == 0.0;
      assert em.Get(Metal.Properties[4]) == 0.0 && em.Get(Metal.Properties[5]) == 1.0;
      assert co.Get(Metal.Properties[2]) == 120.0 && co.Get(Metal.Properties[5]) == 1.0;
      assert co.Get(Metal.Properties[3]) == collectorVoltage.x && co.Get(Metal.Properties[4]) == collectorPosition.x;
    }
  }

  /**
   * `from_args` routes every argument to the property of its name: a built
   * TEC's emitter and collector hold exactly the numbers passed (or
   * defaulted) for them.
   */
  lemma FromArgsRoutesArguments(a: IdealArgs)
    requires FromArgs(a).Ok?
    ensures FromArgs(a).value.emitter == Metal.Snapshot(a.emitterTemperature.x, a.emitterBarrier.x, a.emitterRichardson.x,
                                                       a.emitterVoltage.x, a.emitterPosition.x, a.emitterEmissivity.x)
    ensures FromArgs(a).value.collector == Metal.Snapshot(a.collectorTemperature.x, a.collectorBarrier.x, a.collectorRichardson.x,
                                                         a.collectorVoltage.x, a.collectorPosition.x, a.collectorEmissivity.x)
  {
    Metal.BuildFacts(EmitterArgs(a));
    Metal.BuildFacts(CollectorArgs(a));
    var em := Metal.Build(EmitterArgs(a)).value;
    var co := Metal.Build(CollectorArgs(a)).value;
    assert em.Get(Metal.Properties[0]) == a.emitterTemperature.x && em.Get(Metal.Properties[1]) == a.emitterBarrier.x;
    assert em.Get(Metal.Properties[2]) == a.emitterRichardson.x && em.Get(Metal.Properties[3]) == a.emitterVoltage.x;
    assert em.Get(Metal.Properties[4]) == a.emitterPosition.x && em.Get(Metal.Properties[5]) == a.emitterEmissivity.x;
    assert co.Get(Metal.Properties[0]) == a.collectorTemperature.x && co.Get(Metal.Properties[1]) == a.collectorBarrier.x;
    assert co.Get(Metal.Properties[2]) == a.collectorRichardson.x && co.Get(Metal.Properties[3]) == a.collectorVoltage.x;
    assert co.Get(Metal.Properties[4]) == a.collectorPosition.x && co.Get(Metal.Properties[5]) == a.collectorEmissivity.x;
  }

  /** The TEC made by `from_args` has bounded electrodes, and its forward current is the one of src/tec/base.py. */
  lemma FromArgsAgreesWithBase(a: IdealArgs, exp: Physics.Exp)
    requires FromArgs(a).Ok?
    ensures SrcTec.Bounded(FromArgs(a).value)
    ensures SrcTec.ForwardCurrent(FromArgs(a).value, exp) == SrcBase.ForwardCurrent(FromArgs(a).value.emitter, FromArgs(a).value.collector, exp)
  {
    Metal.BuildFacts(EmitterArgs(a));
    Metal.BuildFacts(CollectorArgs(a));
  }

  // ---------------------------------------------------------------------------
  // The Langmuir model.

  /** A `Langmuir` model: copies of the two electrodes; `back_emission` cannot be set and is always False. */
  datatype Langmuir = Langmuir(emitter: Metal.Snapshot, collector: Metal.Snapshot, backEmission: bool)

  /** `Langmuir(emitter, collector)`: the default constraints, and no back emission. */
  function NewLangmuir(em: Metal.Snapshot, co: Metal.Snapshot): (r: Result<Langmuir>)
    ensures r.Err? <==> DefaultConstraints(em, co).Some?
    ensures r.Err? ==> r.error == ValueError
    ensures r.Ok? ==> r.value.emitter == em && r.value.collector == co && !r.value.backEmission
  {
    if DefaultConstraints(em, co).Some? then Err(ValueError) else Ok(Langmuir(em, co, false))
  }

  /**
   * `normalization_length(J)`: ValueError for a negative current density,
   * infinite at 0, otherwise prefactor * T^(3/4) / sqrt(J), positive for a
   * warm emitter.
   */
  function NormalizationLength(l: Langmuir, j: real, prefactor: real, pow34: Physics.Power, sqrt: Physics.Power): (r: Result<Extended>)
    requires prefactor > 0.0
    ensures r.Err? <==> j < 0.0
    ensures r.Err? ==> r.error == ValueError
    ensures j == 0.0 ==> r == Ok(Infinity)
    ensures j > 0.0 && l.emitter.temp > 0.0 ==> r.Ok? && r.value.Finite? && r.value.x > 0.0
  {
    if j < 0.0 then Err(ValueError)
    else if j == 0.0 then Ok(Infinity)
    else
      var num := prefactor * (if l.emitter.temp > 0.0 then pow34(l.emitter.temp) else 0.0);
      assert l.emitter.temp > 0.0 ==> num > 0.0 by {
        if l.emitter.temp > 0.0 { Physics.ProductSign(prefactor, pow34(l.emitter.temp)); }
      }
      Ok(Finite(Physics.Quotient(num, sqrt(j))))
  }

  /**
   * `_critical_point_target_function(J)`: ValueError for a negative J (from
   * `normalization_length`) and for a J above the emitter's saturation
   * current density (where ln(Jsat/J) < 0, or -inf for Jsat = 0); otherwise
   * the dimensionless distance -d/x0 less the left-branch distance at that
   * motive. At J = 0 the motive is infinite. `lhsDistance` is the model's
   * distance-of-motive spline, which raises outside its range.
   */
  function CriticalTarget(l: Langmuir, j: real, exp: Physics.Exp, ln: Physics.Ln, prefactor: real,
                          pow34: Physics.Power, sqrt: Physics.Power, lhsDistance: Extended -> Result<real>): (r: Result<real>)
    requires Metal.Bounded(l.emitter) && prefactor > 0.0
    ensures j < 0.0 ==> r == Err(ValueError)
    ensures j > Metal.CurrentDensity(l.emitter, exp) ==> r == Err(ValueError)
    ensures j == 0.0 ==> r == (match lhsDistance(Infinity) case Err(e) => Err(e) case Ok(p) => Ok(0.0 - p))
  {
    var jsat := Metal.CurrentDensity(l.emitter, exp);
    if j < 0.0 then Err(ValueError)
    else if j == 0.0 then
      match lhsDistance(Infinity)
      case Err(e) => Err(e)
      case Ok(p) => Ok(0.0 - p)
    else if jsat == 0.0 || jsat < j then
      assert jsat > 0.0 ==> Physics.Quotient(jsat, j) < 1.0 by {
        if jsat > 0.0 && Physics.Quotient(jsat, j) >= 1.0 { Physics.ProductSign(Physics.Quotient(jsat, j) - 1.0, j); }
      }
      Err(ValueError)
    else
      assert l.emitter.temp > 0.0;
      var x0 := NormalizationLength(l, j, prefactor, pow34, sqrt).value.x;
      var motive := ln(Physics.Quotient(jsat, j));
      match lhsDistance(Finite(motive))
      case Err(e) => Err(e)
      case Ok(p) => Ok(-Physics.Quotient(SrcBase.Spacing(l.emitter, l.collector), x0) - p)
  }

  /** Inside (0, Jsat] the guard lets the call through to the spline with a non-negative motive. */
  lemma CriticalTargetInRange(l: Langmuir, j: real, exp: Physics.Exp, ln: Physics.Ln, prefactor: real,
                              pow34: Physics.Power, sqrt: Physics.Power, lhsDistance: Extended -> Result<real>)
    requires Metal.Bounded(l.emitter) && prefactor > 0.0
    requires 0.0 < j <= Metal.CurrentDensity(l.emitter, exp)
    ensures lhsDistance(Finite(ln(Physics.Quotient(Metal.CurrentDensity(l.emitter, exp), j)))).Ok? ==>
      CriticalTarget(l, j, exp, ln, prefactor, pow34, sqrt, lhsDistance).Ok?
    ensures ln(Physics.Quotient(Metal.CurrentDensity(l.emitter, exp), j)) >= 0.0
  {
  }

  // ---------------------------------------------------------------------------
  // The LLangmuir model.

  /**
   * `LLangmuir.max_motive`, in eV. The regime comes from the output voltage
   * against the saturation and critical voltages. In the space-charge-limited
   * regime the current density is the saturation one when the saturation and
   * critical current densities coincide, otherwise the root `jRoot` found
   * between them, and the barrier kT ln(Jsat/J) is added to the emitter's
   * motive.
   */
  function LLangmuirMaxMotive(em: Metal.Snapshot, co: Metal.Snapshot, exp: Physics.Exp, ln: Physics.Ln,
                              vsat: real, vcrit: real, jCrit: real, jRoot: real): (psi: real)
    requires Metal.Bounded(em) && Metal.Bounded(co)
    requires SpaceCharge.RegimeOf(SrcBase.OutputVoltage(em, co), vsat, vcrit) == SpaceCharge.SpaceChargeLimited ==>
      0.0 < jCrit <= jRoot <= Metal.CurrentDensity(em, exp)
    ensures SrcBase.OutputVoltage(em, co) < vsat ==> psi == Metal.Motive(em)
    ensures vsat <= SrcBase.OutputVoltage(em, co) && vcrit < SrcBase.OutputVoltage(em, co) ==> psi == Metal.Motive(co)
    ensures vsat <= SrcBase.OutputVoltage(em, co) <= vcrit ==> psi >= Metal.Motive(em)
    ensures vsat <= SrcBase.OutputVoltage(em, co) <= vcrit && jCrit == Metal.CurrentDensity(em, exp) ==> psi == Metal.Motive(em)
  {
    var regime := SpaceCharge.RegimeOf(SrcBase.OutputVoltage(em, co), vsat, vcrit);
    var jsat := Metal.CurrentDensity(em, exp);
    var barrier :=
      if regime == SpaceCharge.SpaceChargeLimited then
        var j := if jsat == jCrit then jsat else jRoot;
        Physics.ProductSign(Metal.BoltzmannEV, em.temp);
        SpaceCharge.SpaceChargeBarrier(Metal.BoltzmannEV * em.temp, jsat, j, ln)
      else 0.0;
    SpaceCharge.MaxMotiveOf(regime, Metal.Motive(em), Metal.Motive(co), barrier)
  }

  /** `LLangmuir.back_current_density`. */
  function LLangmuirBackCurrent(): real
  {
    0.0
  }

  /**
   * Neither Langmuir model has back emission: `LLangmuir` reports none, and a
   * TEC wrapping a constructed `Langmuir` model computes none.
   */
  lemma NoBackEmission(em: Metal.Snapshot, co: Metal.Snapshot, maxMotive: real, maxMotivePosition: real, exp: Physics.Exp)
    requires Metal.Bounded(em) && Metal.Bounded(co) && NewLangmuir(em, co).Ok?
    ensures LLangmuirBackCurrent() == 0.0
    ensures var l := NewLangmuir(em, co).value;
      SrcTec.BackCurrent(SrcTec.New(SrcTec.ModelView(l.emitter, l.collector, maxMotive, maxMotivePosition, l.backEmission)), exp) == 0.0
  {
  }
}
