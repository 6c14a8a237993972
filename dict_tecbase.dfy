/**
 * The dict-based `TECBase` device of tec/__init__.py and its `max_value`
 * decorator. tec/base.py holds a later copy of both with the same logic.
 *
 * A device owns two Electrode objects and a cached motive table. The table
 * holds the emitter and collector motive boundary conditions and positions.
 * Every item read first asks each electrode whether a motive field changed,
 * and rebuilds the table if so. The calculators read through that refresh, so
 * the model states them as functions of the refreshed electrode fields.
 */
module DictTecBase {
  import opened Wrappers
  import Physics
  import opened DictElectrode
  import opened Ratios

  /** `motive_data`: the motive boundary conditions and the positions they sit at. */
  datatype MotiveData = MotiveData(motive: seq<real>, position: seq<real>)

  /** The arrays of `calc_motive`: both boundary conditions, at both positions. */
  function MotiveOf(em: map<Key, real>, co: map<Key, real>): MotiveData
    requires ValidFields(em) && ValidFields(co)
  {
    MotiveData([MotiveBc(em), MotiveBc(co)], [em[Position], co[Position]])
  }

  /** numpy's `argmax`: the index of the first largest element. */
  function ArgMax(s: seq<real>): (i: nat)
    requires |s| > 0
    ensures i < |s|
    ensures forall j :: 0 <= j < |s| ==> s[j] <= s[i]
    ensures forall j :: 0 <= j < i ==> s[j] < s[i]
    decreases |s|
  {
    if |s| == 1 then 0
    else
      var k := ArgMax(s[..|s| - 1]);
      if s[|s| - 1] > s[k] then |s| - 1 else k
  }

  /** `get_max_motive_ht`: the largest motive, or with `with_position` the position of its first occurrence. */
  function GetMaxMotiveHt(md: MotiveData, withPosition: bool): (r: real)
    requires |md.motive| == |md.position| > 0
    ensures !withPosition ==> r in md.motive && forall j :: 0 <= j < |md.motive| ==> md.motive[j] <= r
    ensures withPosition ==> exists i :: (0 <= i < |md.position| && r == md.position[i]
      && (forall j :: 0 <= j < |md.motive| ==> md.motive[j] <= md.motive[i])
      && (forall j :: 0 <= j < i ==> md.motive[j] < md.motive[i]))
  {
    var i := ArgMax(md.motive);
    if withPosition then md.position[i] else md.motive[i]
  }

  /** On a device's table the maximum is the larger boundary condition; a tie goes to the emitter. */
  lemma MaxMotiveOfElectrodes(em: map<Key, real>, co: map<Key, real>)
    requires ValidFields(em) && ValidFields(co)
    ensures GetMaxMotiveHt(MotiveOf(em, co), false) == Physics.Max(MotiveBc(em), MotiveBc(co))
    ensures GetMaxMotiveHt(MotiveOf(em, co), true) ==
      if MotiveBc(em) >= MotiveBc(co) then em[Position] else co[Position]
    ensures GetMaxMotiveHt(MotiveOf(em, co), false) >= MotiveBc(em)
    ensures GetMaxMotiveHt(MotiveOf(em, co), false) >= MotiveBc(co)
  {
    var md := MotiveOf(em, co);
    var i := ArgMax(md.motive);
    assert i == 0 <==> MotiveBc(em) >= MotiveBc(co);
  }

  /** The spline `InterpolatedUnivariateSpline` accepts the two positions only in strictly increasing order. */
  predicate Spaced(em: map<Key, real>, co: map<Key, real>)
    requires ValidFields(em) && ValidFields(co)
  {
    em[Position] < co[Position]
  }

  /**
   * `calc_motive`: the table, or the ValueError the spline constructor raises
   * for an emitter at or beyond the collector. A built table interpolates
   * between the two boundary conditions and peaks at the larger one.
   */
  function BuildTable(em: map<Key, real>, co: map<Key, real>): (r: Result<MotiveData>)
    requires ValidFields(em) && ValidFields(co)
    ensures r.Err? <==> em[Position] >= co[Position]
    ensures r.Err? ==> r.error == ValueError
    ensures r.Ok? ==> |r.value.motive| == |r.value.position| == 2
    ensures r.Ok? ==> r.value.position[0] < r.value.position[1]
    ensures r.Ok? ==> r.value.motive[0] == MotiveBc(em) && r.value.motive[1] == MotiveBc(co)
    ensures r.Ok? ==> GetMaxMotiveHt(r.value, false) == Physics.Max(MotiveBc(em), MotiveBc(co))
  {
    if Spaced(em, co) then
      MaxMotiveOfElectrodes(em, co);
      Ok(MotiveOf(em, co))
    else Err(ValueError)
  }

  // ---------------------------------------------------------------------------
  // The cache protocol of `__getitem__`, on values.

  /** What `__getitem__` reads and writes: both electrodes and the cached table, if any. */
  datatype Device = Device(em: Snapshot, co: Snapshot, motive: Option<MotiveData>)

  predicate WellFormed(d: Device)
  {
    ValidFields(d.em.fields) && ValidFields(d.co.fields)
  }

  /** The number of raised change flags. */
  function Flags(d: Device): nat
  {
    (if d.em.changed then 1 else 0) + (if d.co.changed then 1 else 0)
  }

  /** The cached table matches the electrodes. */
  predicate Consistent(d: Device)
    requires WellFormed(d)
  {
    d.motive == Some(MotiveOf(d.em.fields, d.co.fields))
  }

  /** The table is current, or a raised flag says that it is not. */
  predicate Coherent(d: Device)
  {
    WellFormed(d) && (Flags(d) > 0 || Consistent(d))
  }

  /** A device whose flags are down and whose table matches its electrodes. */
  function Evaluated(em: map<Key, real>, co: map<Key, real>): Device
    requires ValidFields(em) && ValidFields(co)
  {
    Device(Snapshot(em, false), Snapshot(co, false), Some(MotiveOf(em, co)))
  }

  /** The exception a read raises: the spline's ValueError when it rebuilds the table for unordered positions. */
  function RefreshError(d: Device): (e: Option<Error>)
    requires WellFormed(d)
    ensures e.Some? <==> Flags(d) > 0 && d.em.fields[Position] >= d.co.fields[Position]
    ensures e.Some? ==> e.value == ValueError
  {
    if Flags(d) > 0 then
      match BuildTable(d.em.fields, d.co.fields)
      case Err(e) => Some(e)
      case Ok(_) => None
    else None
  }

  /**
   * `__getitem__`, corrected: read and clear both flags, then, if either was
   * raised, drop the table and build it once. The electrode fields never
   * change. A failed build leaves no table behind.
   */
  function Refreshed(d: Device): (r: Device)
    requires WellFormed(d)
    ensures WellFormed(r) && Flags(r) == 0
    ensures r.em.fields == d.em.fields && r.co.fields == d.co.fields
    ensures Flags(d) == 0 ==> r == d
    ensures Flags(d) > 0 ==> (Consistent(r) <==> RefreshError(d).None?)
    ensures Flags(d) > 0 ==> (r.motive.None? <==> RefreshError(d).Some?)
    ensures Coherent(d) && RefreshError(d).None? ==> Consistent(r)
  {
    var em, co := Reset(d.em).1, Reset(d.co).1;
    if d.em.changed || d.co.changed then
      match BuildTable(em.fields, co.fields)
      case Err(_) => Device(em, co, None)
      case Ok(t) => Device(em, co, Some(t))
    else Device(em, co, d.motive)
  }

  /**
   * `__getitem__` as written. For each electrode whose flag it clears it deletes
   * `motive_data`; a missing key raises KeyError. It then calls `calc_motive`,
   * which reads the electrodes through `__getitem__` again.
   */
  function GetItemAsWritten(d: Device): (r: Result<Device>)
    requires WellFormed(d)
    ensures r.Ok? ==> WellFormed(r.value) && Flags(r.value) == 0
    ensures r.Ok? ==> r.value.em.fields == d.em.fields && r.value.co.fields == d.co.fields
    decreases Flags(d), 1
  {
    var r1 := if d.em.changed then RecomputeAsWritten(d.(em := Reset(d.em).1)) else Ok(d);
    match r1
    case Err(e) => Err(e)
    case Ok(d1) =>
      if d1.co.changed then RecomputeAsWritten(d1.(co := Reset(d1.co).1)) else Ok(d1)
  }

  /** `del self["motive_data"]` followed by `calc_motive()`. */
  function RecomputeAsWritten(d: Device): (r: Result<Device>)
    requires WellFormed(d)
    ensures r.Ok? ==> WellFormed(r.value) && Flags(r.value) == 0
    ensures r.Ok? ==> r.value.em.fields == d.em.fields && r.value.co.fields == d.co.fields
    decreases Flags(d), 3
  {
    if d.motive.None? then Err(KeyError) else CalcMotiveAsWritten(d.(motive := None))
  }

  /**
   * `calc_motive` as written: four reads through `__getitem__`, for both
   * boundary conditions and both positions, then the new table.
   */
  function CalcMotiveAsWritten(d: Device): (r: Result<Device>)
    requires WellFormed(d)
    ensures r.Ok? ==> WellFormed(r.value) && Flags(r.value) == 0
    ensures r.Ok? ==> r.value.em.fields == d.em.fields && r.value.co.fields == d.co.fields
    decreases Flags(d), 2
  {
    match GetItemAsWritten(d)
    case Err(e) => Err(e)
    case Ok(d1) =>
      match GetItemAsWritten(d1)
      case Err(e) => Err(e)
      case Ok(d2) =>
        match GetItemAsWritten(d2)
        case Err(e) => Err(e)
        case Ok(d3) =>
          match GetItemAsWritten(d3)
          case Err(e) => Err(e)
          case Ok(d4) =>
            match BuildTable(d4.em.fields, d4.co.fields)
            case Err(e) => Err(e)
            case Ok(t) => Ok(d4.(motive := Some(t)))
  }

  /** With no raised flag, the as-written read changes nothing. */
  lemma AsWrittenQuiet(d: Device)
    requires WellFormed(d) && Flags(d) == 0
    ensures GetItemAsWritten(d) == Ok(d)
  {
  }

  /**
   * The as-written read raises KeyError once both flags are up. The nested read
   * inside `calc_motive` deletes `motive_data` a second time.
   */
  lemma {:induction false} AsWrittenFailsWhenBothChanged(d: Device)
    requires WellFormed(d) && d.em.changed && d.co.changed
    ensures GetItemAsWritten(d) == Err(KeyError)
  {
    var d0 := d.(em := Reset(d.em).1);
    if d.motive.Some? {
      var inner := d0.(motive := None);
      assert inner.co.changed;
      assert RecomputeAsWritten(inner.(co := Reset(inner.co).1)) == Err(KeyError);
      assert GetItemAsWritten(inner) == Err(KeyError);
      assert CalcMotiveAsWritten(inner) == Err(KeyError);
      assert RecomputeAsWritten(d0) == Err(KeyError);
    }
  }

  /**
   * The as-written read also raises KeyError with a single flag up once the
   * table is gone, which a failed rebuild leaves behind: the first deletion
   * finds no key. The corrected read rebuilds the table instead, and succeeds
   * whenever the positions are ordered.
   */
  lemma {:induction false} AsWrittenFailsWithoutTable(d: Device)
    requires WellFormed(d) && Flags(d) > 0 && d.motive.None?
    ensures GetItemAsWritten(d) == Err(KeyError)
    ensures RefreshError(d).None? ==> Consistent(Refreshed(d))
  {
    if !d.em.changed {
      assert RecomputeAsWritten(d.(co := Reset(d.co).1)) == Err(KeyError);
    }
  }

  /**
   * With at most one flag up and a table cached, the as-written read is the
   * corrected one: the same device, or the same ValueError.
   */
  lemma {:induction false} AsWrittenAgreesWithRefresh(d: Device)
    requires WellFormed(d) && d.motive.Some? && !(d.em.changed && d.co.changed)
    ensures RefreshError(d).None? ==> GetItemAsWritten(d) == Ok(Refreshed(d))
    ensures RefreshError(d).Some? ==> GetItemAsWritten(d) == Err(RefreshError(d).value)
  {
    if d.em.changed {
      var inner := d.(em := Reset(d.em).1).(motive := None);
      AsWrittenQuiet(inner);
      assert GetItemAsWritten(d) == CalcMotiveAsWritten(inner);
    } else if d.co.changed {
      var inner := d.(co := Reset(d.co).1).(motive := None);
      AsWrittenQuiet(inner);
      assert GetItemAsWritten(d) == CalcMotiveAsWritten(inner);
    }
  }

  // ---------------------------------------------------------------------------
  // The calculators, on the fields of the refreshed electrodes.

  /** `exp(-barrier/(k T))` with numpy's limit of 0 at temperature 0. */
  function BoltzmannFactor(barrier: real, temp: real, exp: Physics.Exp): (f: real)
    requires barrier > 0.0 && temp >= 0.0
    ensures 0.0 <= f < 1.0
    ensures f > 0.0 <==> temp > 0.0
  {
    if temp == 0.0 then 0.0 else exp(-barrier / (Physics.Boltzmann * temp))
  }

  /** `get_max_motive_ht()` of a refreshed device. */
  function MaxMotive(em: map<Key, real>, co: map<Key, real>): (psi: real)
    requires ValidFields(em) && ValidFields(co)
    ensures psi == Physics.Max(MotiveBc(em), MotiveBc(co))
  {
    MaxMotiveOfElectrodes(em, co);
    GetMaxMotiveHt(MotiveOf(em, co), false)
  }

  /**
   * The current an electrode emits over the maximum motive: its saturation
   * current when its barrier height reaches the maximum, otherwise reduced
   * by the Boltzmann factor of the excess.
   */
  function EmittedCurrent(from: map<Key, real>, psi: real, exp: Physics.Exp): (j: real)
    requires ValidFields(from)
    ensures 0.0 <= j <= SaturationCurrent(from, exp)
    ensures j == SaturationCurrent(from, exp) <==> BarrierHt(from) >= psi || SaturationCurrent(from, exp) == 0.0
    ensures j > 0.0 <==> SaturationCurrent(from, exp) > 0.0
  {
    var sat := SaturationCurrent(from, exp);
    if BarrierHt(from) >= psi then sat
    else
      Physics.Scaled(sat, BoltzmannFactor(psi - BarrierHt(from), from[Temp], exp))
  }

  /** `calc_forward_current_density`: unscaled exactly when the emitter barrier height reaches the maximum motive. */
  function ForwardCurrent(em: map<Key, real>, co: map<Key, real>, exp: Physics.Exp): (j: real)
    requires ValidFields(em) && ValidFields(co)
    ensures 0.0 <= j <= SaturationCurrent(em, exp)
    ensures j == SaturationCurrent(em, exp) <==>
      BarrierHt(em) >= Physics.Max(MotiveBc(em), MotiveBc(co)) || SaturationCurrent(em, exp) == 0.0
  {
    EmittedCurrent(em, MaxMotive(em, co), exp)
  }

  /** `calc_back_current_density`: the mirror image, for the collector. */
  function BackCurrent(em: map<Key, real>, co: map<Key, real>, exp: Physics.Exp): (j: real)
    requires ValidFields(em) && ValidFields(co)
    ensures 0.0 <= j <= SaturationCurrent(co, exp)
    ensures j == SaturationCurrent(co, exp) <==>
      BarrierHt(co) >= Physics.Max(MotiveBc(em), MotiveBc(co)) || SaturationCurrent(co, exp) == 0.0
  {
    EmittedCurrent(co, MaxMotive(em, co), exp)
  }

  /**
   * `calc_output_voltage`, in volts: the output voltage less the contact
   * potential is the rise from the emitter's barrier height to the
   * collector's, in units of the electron charge.
   */
  function OutputVoltage(em: map<Key, real>, co: map<Key, real>): (v: real)
    requires ValidFields(em) && ValidFields(co)
    ensures Physics.ElectronCharge * (v - ContactPotential(em, co)) == BarrierHt(co) - BarrierHt(em)
    ensures v > ContactPotential(em, co) <==> BarrierHt(co) > BarrierHt(em)
  {
    co[Voltage] - em[Voltage]
  }

  /** `calc_interelectrode_spacing`: positive exactly when the motive table can be built. */
  function Spacing(em: map<Key, real>, co: map<Key, real>): (s: real)
    requires ValidFields(em) && ValidFields(co)
    ensures s > 0.0 <==> Spaced(em, co)
    ensures s > 0.0 <==> BuildTable(em, co).Ok?
  {
    co[Position] - em[Position]
  }

  /**
   * `calc_contact_potential`, in volts: the barrier difference in units of the
   * electron charge, positive exactly when the emitter has the higher barrier.
   */
  function ContactPotential(em: map<Key, real>, co: map<Key, real>): (cp: real)
    requires ValidFields(em) && ValidFields(co)
    ensures cp * Physics.ElectronCharge == em[Barrier] - co[Barrier]
    ensures cp > 0.0 <==> em[Barrier] > co[Barrier]
    ensures cp == 0.0 <==> em[Barrier] == co[Barrier]
  {
    (em[Barrier] - co[Barrier]) / Physics.ElectronCharge
  }

  /**
   * `calc_output_current_density`: forward minus back current, so it lies
   * between minus the collector's and plus the emitter's saturation current.
   */
  function OutputCurrent(em: map<Key, real>, co: map<Key, real>, exp: Physics.Exp): (j: real)
    requires ValidFields(em) && ValidFields(co)
    ensures j == ForwardCurrent(em, co, exp) - BackCurrent(em, co, exp)
    ensures -SaturationCurrent(co, exp) <= j <= SaturationCurrent(em, exp)
  {
    ForwardCurrent(em, co, exp) - BackCurrent(em, co, exp)
  }

  /**
   * `calc_output_power_density` (undecorated): current times output voltage,
   * so the device delivers power exactly when the current and the voltage
   * have the same strict sign.
   */
  function OutputPower(em: map<Key, real>, co: map<Key, real>, exp: Physics.Exp): (p: real)
    requires ValidFields(em) && ValidFields(co)
    ensures var j, v := OutputCurrent(em, co, exp), OutputVoltage(em, co);
      && (p > 0.0 <==> (j > 0.0 && v > 0.0) || (j < 0.0 && v < 0.0))
      && (p == 0.0 <==> j == 0.0 || v == 0.0)
  {
    Power(OutputCurrent(em, co, exp), OutputVoltage(em, co))
  }

  /**
   * `calc_load_resistance`: NaN at zero current, otherwise Ohm's law on the
   * output voltage and current, whose product property `Ratios.Resistance`
   * states.
   */
  function LoadResistance(em: map<Key, real>, co: map<Key, real>, exp: Physics.Exp): (r: Option<real>)
    requires ValidFields(em) && ValidFields(co)
    ensures r.None? <==> OutputCurrent(em, co, exp) == 0.0
    ensures r == Resistance(OutputVoltage(em, co), OutputCurrent(em, co, exp))
  {
    Resistance(OutputVoltage(em, co), OutputCurrent(em, co, exp))
  }

  /**
   * `calc_carnot_efficiency`. It is negative exactly when the collector is the
   * hotter electrode. The division by a zero emitter temperature raises.
   */
  function CarnotEfficiency(em: map<Key, real>, co: map<Key, real>): (r: Result<real>)
    requires ValidFields(em) && ValidFields(co)
    ensures r.Err? <==> em[Temp] == 0.0
    ensures r.Err? ==> r.error == ZeroDivisionError
    ensures r.Ok? ==> r.value <= 1.0
    ensures r.Ok? ==> (r.value < 0.0 <==> co[Temp] > em[Temp])
    ensures r.Ok? ==> (r.value == 0.0 <==> co[Temp] == em[Temp])
  {
    if em[Temp] == 0.0 then Err(ZeroDivisionError)
    else Ok(1.0 - co[Temp] / em[Temp])
  }

  /**
   * `__calc_electronic_heat_transport`: the energy both electron streams carry
   * over the maximum motive. With no back current and a non-negative maximum
   * motive the electrons only carry heat away from the emitter; with neither
   * stream flowing they carry none.
   */
  function ElectronicHeat(em: map<Key, real>, co: map<Key, real>, exp: Physics.Exp): (q: real)
    requires ValidFields(em) && ValidFields(co)
    ensures BackCurrent(em, co, exp) == 0.0 && MaxMotive(em, co) >= 0.0 ==> q >= 0.0
    ensures ForwardCurrent(em, co, exp) == 0.0 && BackCurrent(em, co, exp) == 0.0 ==> q == 0.0
  {
    var psi := MaxMotive(em, co);
    var f, b := ForwardCurrent(em, co, exp), BackCurrent(em, co, exp);
    var ke, kc := psi + 2.0 * Physics.Boltzmann * em[Temp], psi + 2.0 * Physics.Boltzmann * co[Temp];
    if psi >= 0.0 then
      Physics.ProductSign(f, ke);
      f * ke / Physics.ElectronCharge - b * kc / Physics.ElectronCharge
    else
      f * ke / Physics.ElectronCharge - b * kc / Physics.ElectronCharge
  }

  /** `__calc_black_body_heat_transport`: radiation between two grey parallel plates. */
  function BlackBodyHeat(em: map<Key, real>, co: map<Key, real>): (q: real)
    requires ValidFields(em) && ValidFields(co)
    ensures q > 0.0 <==> em[Temp] > co[Temp]
    ensures q == 0.0 <==> em[Temp] == co[Temp]
  {
    Physics.GreyExchange(em[Temp], co[Temp], em[Emissivity], co[Emissivity])
  }

  /**
   * `calc_radiation_efficiency`: NaN unless the device delivers power. It is
   * then positive when the emitter is the hotter plate, and infinite at equal
   * temperatures, where no heat is radiated.
   */
  function RadiationEfficiency(em: map<Key, real>, co: map<Key, real>, exp: Physics.Exp): (r: Option<Extended>)
    requires ValidFields(em) && ValidFields(co)
    ensures r.None? <==> OutputPower(em, co, exp) <= 0.0
    ensures r.Some? ==> (r.value == Infinity <==> em[Temp] == co[Temp])
    ensures r.Some? && r.value.Finite? ==> (r.value.x > 0.0 <==> em[Temp] > co[Temp])
  {
    Efficiency(OutputPower(em, co, exp), BlackBodyHeat(em, co))
  }

  /** `calc_electronic_efficiency`: the efficiency policy over the electronic heat. */
  function ElectronicEfficiency(em: map<Key, real>, co: map<Key, real>, exp: Physics.Exp): (r: Option<Extended>)
    requires ValidFields(em) && ValidFields(co)
    ensures r.None? <==> OutputPower(em, co, exp) <= 0.0
    ensures r.Some? ==> (r.value == Infinity <==> ElectronicHeat(em, co, exp) == 0.0)
  {
    Efficiency(OutputPower(em, co, exp), ElectronicHeat(em, co, exp))
  }

  /** `calc_total_efficiency` (undecorated): the efficiency policy over both heat flows. */
  function TotalEfficiency(em: map<Key, real>, co: map<Key, real>, exp: Physics.Exp): (r: Option<Extended>)
    requires ValidFields(em) && ValidFields(co)
    ensures r.None? <==> OutputPower(em, co, exp) <= 0.0
    ensures r.Some? ==> (r.value == Infinity <==> BlackBodyHeat(em, co) + ElectronicHeat(em, co, exp) == 0.0)
  {
    Efficiency(OutputPower(em, co, exp), BlackBodyHeat(em, co) + ElectronicHeat(em, co, exp))
  }

  // ---------------------------------------------------------------------------
  // The `max_value` decorator.

  /** The `with_output` (tec/__init__.py) or `action` (tec/base.py) argument; `Plain` is any other value. */
  datatype Action = MaxAction | VoltageAction | FullAction | Plain

  /** What the wrapper returns: a number, or for "full" the optimizer's output. */
  datatype Output = Scalar(x: real) | FullOutput(xopt: real, fval: real, evaluations: nat)

  /** The trial voltages `fminbound` evaluates, and which of them it returns. */
  datatype Search = Search(trials: seq<real>, best: nat)

  /** A search over [lo, hi]: at least one trial, all inside the bounds, and the returned one minimal. */
  ghost predicate SearchWithin(objective: real -> real, lo: real, hi: real, s: Search)
  {
    && 0 <= s.best < |s.trials|
    && (forall i :: 0 <= i < |s.trials| ==> lo <= s.trials[i] <= hi)
    && (forall i :: 0 <= i < |s.trials| ==> objective(s.trials[s.best]) <= objective(s.trials[i]))
  }

  ghost predicate IsBoundedMinimizer(f: (real -> real, real, real) -> Search)
  {
    forall objective, lo, hi :: lo <= hi ==> SearchWithin(objective, lo, hi, f(objective, lo, hi))
  }

  /** `scipy.optimize.fminbound`, as an oracle. */
  type Minimizer = f: (real -> real, real, real) -> Search | IsBoundedMinimizer(f)
    witness (objective: real -> real, lo: real, hi: real) => Search([lo], 0)

  /**
   * A calculator the decorator wraps, as a function of the two electrodes'
   * fields and of the motive table it reads. Both wrapped calculators read the
   * table, through `get_max_motive_ht`.
   */
  type Calculator = (map<Key, real>, map<Key, real>, MotiveData) -> real

  /** The collector fields with the voltage moved to `v`. */
  function AtVoltage(co: map<Key, real>, v: real): (r: map<Key, real>)
    requires ValidFields(co)
    ensures ValidFields(r) && r == co[Voltage := v]
  {
    co[Voltage := v]
  }

  /** A calculator on a device whose table was just rebuilt for the given fields. */
  function Evaluate(calculator: Calculator, em: map<Key, real>, co: map<Key, real>): real
    requires ValidFields(em) && ValidFields(co)
  {
    calculator(em, co, MotiveOf(em, co))
  }

  /**
   * The undecorated call `calculator(self)`: its first read refreshes the
   * table, which may raise the spline's ValueError. A table dropped by an
   * earlier failed rebuild raises KeyError. A stale table whose flags are down
   * is read as it is.
   */
  function PlainValue(calculator: Calculator, d: Device): (r: Result<Output>)
    requires WellFormed(d)
    ensures r == Err(ValueError) <==> RefreshError(d).Some?
    ensures r == Err(KeyError) <==> Flags(d) == 0 && d.motive.None?
    ensures r.Err? ==> r.error == ValueError || r.error == KeyError
    ensures Flags(d) == 0 && d.motive.Some? ==> r == Ok(Scalar(calculator(d.em.fields, d.co.fields, d.motive.value)))
    ensures Coherent(d) && RefreshError(d).None? ==> r == Ok(Scalar(Evaluate(calculator, d.em.fields, d.co.fields)))
  {
    if RefreshError(d).Some? then Err(ValueError)
    else
      var q := Refreshed(d);
      if q.motive.None? then Err(KeyError)
      else Ok(Scalar(calculator(q.em.fields, q.co.fields, q.motive.value)))
  }

  /** The lower search bound: the emitter voltage. */
  function SearchLo(em: map<Key, real>): real
    requires ValidFields(em)
  {
    em[Voltage]
  }

  /** The upper search bound: the summed barriers, in volts, above the emitter voltage. */
  function SearchHi(em: map<Key, real>, co: map<Key, real>): (hi: real)
    requires ValidFields(em) && ValidFields(co)
    ensures hi >= SearchLo(em)
  {
    (em[Barrier] + co[Barrier]) / Physics.ElectronCharge + em[Voltage]
  }

  /**
   * `target_function`: minus the calculator, with the collector moved to
   * voltage `v` and the table rebuilt for it.
   */
  function Target(calculator: Calculator, em: map<Key, real>, co: map<Key, real>): real -> real
    requires ValidFields(em) && ValidFields(co)
  {
    (v: real) => -Evaluate(calculator, em, AtVoltage(co, v))
  }

  /** The search `max_value` runs for a device whose electrodes have the given fields. */
  function Searched(calculator: Calculator, em: map<Key, real>, co: map<Key, real>, minimize: Minimizer): (s: Search)
    requires ValidFields(em) && ValidFields(co)
    ensures 0 <= s.best < |s.trials|
    ensures forall i :: 0 <= i < |s.trials| ==> SearchLo(em) <= s.trials[i] <= SearchHi(em, co)
  {
    minimize(Target(calculator, em, co), SearchLo(em), SearchHi(em, co))
  }

  /**
   * What the wrapper promises with a search action: the returned voltage lies
   * in the bounds, and no trial gives the calculator a larger value. "max"
   * returns that value, "voltage" the voltage, "full" the optimizer output.
   * The collector ends at its saved voltage, or with `set_voltage` at the last
   * trial.
   */
  ghost predicate MaxValueOutcome(calculator: Calculator, action: Action, setVoltage: bool, minimize: Minimizer,
                                  em: map<Key, real>, co: map<Key, real>, out: Output, finalCo: map<Key, real>)
    requires ValidFields(em) && ValidFields(co)
  {
    var s := Searched(calculator, em, co, minimize);
    var xopt := s.trials[s.best];
    && SearchLo(em) <= xopt <= SearchHi(em, co)
    && (forall i :: 0 <= i < |s.trials| ==>
          Evaluate(calculator, em, AtVoltage(co, s.trials[i])) <= Evaluate(calculator, em, AtVoltage(co, xopt)))
    && (action == MaxAction ==> out == Scalar(Evaluate(calculator, em, AtVoltage(co, xopt))))
    && (action == VoltageAction ==> out == Scalar(xopt))
    && (action == FullAction ==> out == FullOutput(xopt, -Evaluate(calculator, em, AtVoltage(co, xopt)), |s.trials|))
    && (!setVoltage ==> finalCo == co)
    && (setVoltage ==> finalCo == co[Voltage := s.trials[|s.trials| - 1]])
  }

  /** The minimizer's returned trial maximizes the calculator over all trials. */
  lemma SearchedIsBest(calculator: Calculator, em: map<Key, real>, co: map<Key, real>, minimize: Minimizer)
    requires ValidFields(em) && ValidFields(co)
    ensures var s := Searched(calculator, em, co, minimize);
      forall i :: 0 <= i < |s.trials| ==>
        Evaluate(calculator, em, AtVoltage(co, s.trials[i])) <= Evaluate(calculator, em, AtVoltage(co, s.trials[s.best]))
  {
    var s := Searched(calculator, em, co, minimize);
    assert SearchWithin(Target(calculator, em, co), SearchLo(em), SearchHi(em, co), s);
    forall i | 0 <= i < |s.trials|
      ensures Evaluate(calculator, em, AtVoltage(co, s.trials[i])) <= Evaluate(calculator, em, AtVoltage(co, s.trials[s.best]))
    {
      assert Target(calculator, em, co)(s.trials[i]) == -Evaluate(calculator, em, AtVoltage(co, s.trials[i]));
      assert Target(calculator, em, co)(s.trials[s.best]) == -Evaluate(calculator, em, AtVoltage(co, s.trials[s.best]));
    }
  }

  /** The value `max_value` returns for a search action, from the optimizer's output. */
  function Reported(action: Action, xopt: real, fval: real, evaluations: nat): Output
  {
    match action
    case MaxAction => Scalar(-fval)
    case VoltageAction => Scalar(xopt)
    case _ => FullOutput(xopt, fval, evaluations)
  }

  /** Reporting the search's result, with the collector where the wrapper leaves it, meets the promise. */
  lemma OutcomeOfSearch(calculator: Calculator, action: Action, setVoltage: bool, minimize: Minimizer,
                        em: map<Key, real>, co: map<Key, real>, finalCo: map<Key, real>)
    requires ValidFields(em) && ValidFields(co) && action != Plain
    requires var s := Searched(calculator, em, co, minimize);
      finalCo == if setVoltage then co[Voltage := s.trials[|s.trials| - 1]] else co
    ensures var s := Searched(calculator, em, co, minimize);
      MaxValueOutcome(calculator, action, setVoltage, minimize, em, co,
        Reported(action, s.trials[s.best], Target(calculator, em, co)(s.trials[s.best]), |s.trials|), finalCo)
  {
    SearchedIsBest(calculator, em, co, minimize);
  }

  /** Writing a key back to its saved value restores the map. */
  lemma RestoredKey(m: map<Key, real>, k: Key, v: real)
    requires k in m
    ensures m[k := v][k := m[k]] == m
  {
    assert m[k := v][k := m[k]].Keys == m.Keys;
  }

  /** A second write to a key overrides the first. */
  lemma OverwrittenKey(m: map<Key, real>, k: Key, u: real, v: real)
    ensures m[k := u][k := v] == m[k := v]
  {
    assert m[k := u][k := v].Keys == m[k := v].Keys;
  }

  /** The Item a read returns. */
  datatype Item = ElectrodeItem(electrode: Electrode) | MotiveItem(data: MotiveData)

  /** Which electrode a key names. */
  datatype Side = Emitter | Collector

  /** A TECBase object. */
  class TECBase {
    var emitter: Electrode
    var collector: Electrode
    var motiveData: Option<MotiveData>

    function Dev(): Device
      reads this, emitter, collector
    {
      Device(emitter.State(), collector.State(), motiveData)
    }

    /** Two distinct electrodes, each with the fields every constructed Electrode keeps. */
    ghost predicate Valid()
      reads this, emitter, collector
    {
      emitter != collector && WellFormed(Dev())
    }

    /** The object before `__init__` runs its body. */
    constructor Of(em: Electrode, co: Electrode)
      ensures emitter == em && collector == co && motiveData == None
    {
      emitter, collector, motiveData := em, co, None;
    }

    /**
     * `TECBase(input_params)`: TypeError for a non-dict, KeyError for a missing
     * electrode, the Electrode exceptions for a bad emitter and then for a bad
     * collector, and last the spline's ValueError for unordered positions.
     */
    static method New(input: PyObject) returns (r: Result<TECBase>)
      ensures !input.PyDict? ==> r == Err(TypeError)
      ensures input.PyDict? && ("Emitter" !in input.entries || "Collector" !in input.entries) ==> r == Err(KeyError)
      ensures input.PyDict? && "Emitter" in input.entries && "Collector" in input.entries ==>
        var em, co := Construct(input.entries["Emitter"]), Construct(input.entries["Collector"]);
        && (em.Err? ==> r == Err(em.error))
        && (em.Ok? && co.Err? ==> r == Err(co.error))
        && (em.Ok? && co.Ok? ==> r.Ok? || r == Err(ValueError))
        && (em.Ok? && co.Ok? ==> (r.Ok? <==> Spaced(em.value, co.value)))
      ensures r.Ok? ==> fresh(r.value) && fresh(r.value.emitter) && fresh(r.value.collector)
      ensures r.Ok? ==> r.value.Valid() && Consistent(r.value.Dev()) && Flags(r.value.Dev()) == 0
      ensures r.Ok? ==> r.value.emitter.fields == Construct(input.entries["Emitter"]).value
      ensures r.Ok? ==> r.value.collector.fields == Construct(input.entries["Collector"]).value
    {
      if !input.PyDict? {
        return Err(TypeError);
      }
      if "Emitter" !in input.entries || "Collector" !in input.entries {
        return Err(KeyError);
      }
      var em := Electrode.New(input.entries["Emitter"]);
      if em.Err? {
        return Err(em.error);
      }
      var co := Electrode.New(input.entries["Collector"]);
      if co.Err? {
        return Err(co.error);
      }
      var t := new TECBase.Of(em.value, co.value);
      var err := t.CalcMotive();
      if err.Some? {
        return Err(err.value);
      }
      return Ok(t);
    }

    /**
     * `calc_motive` on electrodes whose flags are already down: build the
     * table, or raise the spline's ValueError and leave the table as it was.
     */
    method CalcMotive() returns (err: Option<Error>)
      requires ValidFields(emitter.fields) && ValidFields(collector.fields)
      modifies this
      ensures emitter == old(emitter) && collector == old(collector)
      ensures var t := BuildTable(emitter.fields, collector.fields);
        && (err.Some? <==> t.Err?)
        && (t.Err? ==> err == Some(t.error) && motiveData == old(motiveData))
        && (t.Ok? ==> motiveData == Some(t.value))
    {
      var t := BuildTable(emitter.fields, collector.fields);
      if t.Err? {
        return Some(t.error);
      }
      motiveData := Some(t.value);
      return None;
    }

    /**
     * `__getitem__`, corrected: clear both flags first, then, if either was
     * raised, drop the table and rebuild it once.
     */
    method RefreshCache() returns (err: Option<Error>)
      requires Valid()
      modifies this, emitter, collector
      ensures emitter == old(emitter) && collector == old(collector) && Valid()
      ensures Dev() == Refreshed(old(Dev()))
      ensures err == RefreshError(old(Dev()))
    {
      var e := emitter.ParamChangedAndReset();
      var c := collector.ParamChangedAndReset();
      err := None;
      if e || c {
        motiveData := None;
        err := CalcMotive();
      }
    }

    /**
     * `__getitem__`: refresh, then look the key up. A table a failed rebuild
     * dropped is a missing key.
     */
    method GetItem(key: string) returns (r: Result<Item>)
      requires Valid()
      modifies this, emitter, collector
      ensures emitter == old(emitter) && collector == old(collector) && Valid()
      ensures Dev() == Refreshed(old(Dev()))
      ensures RefreshError(old(Dev())).Some? ==> r == Err(ValueError)
      ensures RefreshError(old(Dev())).None? ==>
        r == if key == "Emitter" then Ok(ElectrodeItem(emitter))
             else if key == "Collector" then Ok(ElectrodeItem(collector))
             else if key == "motive_data" && motiveData.Some? then Ok(MotiveItem(motiveData.value))
             else Err(KeyError)
    {
      var err := RefreshCache();
      if err.Some? {
        r := Err(err.value);
      } else if key == "Emitter" {
        r := Ok(ElectrodeItem(emitter));
      } else if key == "Collector" {
        r := Ok(ElectrodeItem(collector));
      } else if key == "motive_data" && motiveData.Some? {
        r := Ok(MotiveItem(motiveData.value));
      } else {
        r := Err(KeyError);
      }
    }

    /**
     * `__setitem__` for "Emitter" or "Collector": the value becomes a new
     * Electrode. The cached table is left as it was, and the new electrode's
     * flag is down, so the table may be stale.
     */
    method SetElectrode(side: Side, input: PyObject) returns (err: Option<Error>)
      modifies this
      ensures old(Valid()) ==> Valid()
      ensures motiveData == old(motiveData)
      ensures err.Some? <==> Construct(input).Err?
      ensures err.Some? ==> err.value == Construct(input).error && emitter == old(emitter) && collector == old(collector)
      ensures err.None? && side == Emitter ==>
        fresh(emitter) && emitter.State() == Snapshot(Construct(input).value, false) && collector == old(collector)
      ensures err.None? && side == Collector ==>
        fresh(collector) && collector.State() == Snapshot(Construct(input).value, false) && emitter == old(emitter)
    {
      var e := Electrode.New(input);
      if e.Err? {
        return Some(e.error);
      }
      if side == Emitter {
        emitter := e.value;
      } else {
        collector := e.value;
      }
      return None;
    }

    /**
     * `self["Collector"]["voltage"] = v`: the read refreshes, then the write
     * raises the collector's flag.
     */
    method SetCollectorVoltage(v: real) returns (err: Option<Error>)
      requires Valid()
      modifies this, emitter, collector
      ensures emitter == old(emitter) && collector == old(collector) && Valid()
      ensures err == RefreshError(old(Dev()))
      ensures err.Some? ==> Dev() == Refreshed(old(Dev()))
      ensures err.None? ==>
        Dev() == Refreshed(old(Dev())).(co := Snapshot(AtVoltage(old(collector.fields), v), true))
    {
      err := RefreshCache();
      if err.None? {
        DictElectrode.FlagProtocol(collector.State(), Voltage, v);
        var _ := collector.Set(Voltage, PyNum(v));
      }
    }

    /**
     * `target_function(v)`: move the collector to `v`, then return minus the
     * calculator, whose first read rebuilds the table. Positions never change,
     * so the rebuild fails exactly when they are unordered.
     */
    method Objective(calculator: Calculator, v: real) returns (r: Result<real>)
      requires Valid()
      modifies this, emitter, collector
      ensures emitter == old(emitter) && collector == old(collector) && Valid()
      ensures r.Ok? <==> Spaced(old(emitter.fields), old(collector.fields))
      ensures r.Err? ==> r.error == ValueError && motiveData.None? && Flags(Dev()) == 0
      ensures r.Err? ==> emitter.fields == old(emitter.fields)
      ensures r.Ok? ==> Dev() == Evaluated(old(emitter.fields), AtVoltage(old(collector.fields), v))
      ensures r.Ok? ==> r.value == Target(calculator, old(emitter.fields), old(collector.fields))(v)
    {
      ghost var em, co := emitter.fields, collector.fields;
      var err := SetCollectorVoltage(v);
      if err.Some? {
        return Err(err.value);
      }
      err := RefreshCache();
      if err.Some? {
        return Err(err.value);
      }
      r := Ok(-calculator(emitter.fields, collector.fields, motiveData.value));
    }

    /**
     * The optimizer's evaluations of `target_function`, in order, stopping at
     * the first exception. Returns the objective at trial `best`; the
     * collector is left at the last trial.
     */
    method Trials(calculator: Calculator, trials: seq<real>, best: nat) returns (r: Result<real>)
      requires Valid() && best < |trials|
      modifies this, emitter, collector
      ensures emitter == old(emitter) && collector == old(collector) && Valid()
      ensures r.Ok? <==> Spaced(old(emitter.fields), old(collector.fields))
      ensures r.Err? ==> r.error == ValueError && motiveData.None? && emitter.fields == old(emitter.fields)
      ensures r.Ok? ==> Dev() == Evaluated(old(emitter.fields), AtVoltage(old(collector.fields), trials[|trials| - 1]))
      ensures r.Ok? ==> r.value == Target(calculator, old(emitter.fields), old(collector.fields))(trials[best])
    {
      ghost var em, co := emitter.fields, collector.fields;
      var fbest := 0.0;
      var i := 0;
      while i < |trials|
        invariant 0 <= i <= |trials|
        invariant Valid() && emitter == old(emitter) && collector == old(collector)
        invariant i == 0 ==> Dev() == old(Dev())
        invariant i > 0 ==> Spaced(em, co) && Dev() == Evaluated(em, AtVoltage(co, trials[i - 1]))
        invariant i > best ==> fbest == Target(calculator, em, co)(trials[best])
      {
        ghost var before := collector.fields;
        var fval := Objective(calculator, trials[i]);
        if fval.Err? {
          return Err(fval.error);
        }
        if i > 0 {
          OverwrittenKey(co, Voltage, trials[i - 1], trials[i]);
        }
        assert fval.value == Target(calculator, em, co)(trials[i]);
        if i == best {
          fbest := fval.value;
        }
        i := i + 1;
      }
      r := Ok(fbest);
    }

    /**
     * The `max_value` wrapper. Without a search action it returns the plain
     * calculator value. Otherwise it saves the collector voltage and runs the
     * minimizer of `target_function` over the search bounds. Each trial writes
     * the collector voltage. Unless `set_voltage` is true, the saved voltage is
     * written back at the end.
     */
    method MaxValue(calculator: Calculator, action: Action, setVoltage: bool, minimize: Minimizer) returns (out: Result<Output>)
      requires Valid()
      modifies this, emitter, collector
      ensures emitter == old(emitter) && collector == old(collector) && Valid()
      ensures emitter.fields == old(emitter.fields)
      ensures action == Plain ==> out == PlainValue(calculator, old(Dev())) && Dev() == Refreshed(old(Dev()))
      ensures action != Plain ==> (out.Ok? <==> Spaced(old(emitter.fields), old(collector.fields)))
      ensures action != Plain && out.Err? ==> out.error == ValueError
      ensures action != Plain && out.Ok? ==>
        MaxValueOutcome(calculator, action, setVoltage, minimize, old(emitter.fields), old(collector.fields), out.value, collector.fields)
    {
      if action == Plain {
        var err := RefreshCache();
        if err.Some? {
          out := Err(err.value);
        } else if motiveData.None? {
          out := Err(KeyError);
        } else {
          out := Ok(Scalar(calculator(emitter.fields, collector.fields, motiveData.value)));
        }
      } else {
        out := SearchMax(calculator, action, setVoltage, minimize);
      }
    }

    /**
     * The search branch of `max_value`, up to the value it reports: the
     * refreshing read of the saved voltage, the trials, and the write-back of
     * the saved voltage unless `set_voltage`, which raises the collector's flag.
     */
    method RunSearch(calculator: Calculator, setVoltage: bool, minimize: Minimizer) returns (r: Result<real>)
      requires Valid()
      modifies this, emitter, collector
      ensures emitter == old(emitter) && collector == old(collector) && Valid()
      ensures emitter.fields == old(emitter.fields)
      ensures r.Ok? <==> Spaced(old(emitter.fields), old(collector.fields))
      ensures r.Err? ==> r.error == ValueError && motiveData.None?
      ensures var em, co := old(emitter.fields), old(collector.fields);
        var s := Searched(calculator, em, co, minimize);
        var last := AtVoltage(co, s.trials[|s.trials| - 1]);
        && (r.Ok? ==> r.value == Target(calculator, em, co)(s.trials[s.best]))
        && (r.Ok? && setVoltage ==> Dev() == Evaluated(em, last))
        && (r.Ok? && !setVoltage ==> Dev() == Evaluated(em, last).(co := Snapshot(co, true)))
    {
      ghost var em, co := emitter.fields, collector.fields;
      var err := RefreshCache();
      if err.Some? {
        return Err(err.value);
      }
      var s := Searched(calculator, emitter.fields, collector.fields, minimize);
      var saved := collector.fields[Voltage];
      r := Trials(calculator, s.trials, s.best);
      if r.Err? {
        return;
      }
      if !setVoltage {
        err := SetCollectorVoltage(saved);
        RestoredKey(co, Voltage, s.trials[|s.trials| - 1]);
      }
    }

    /** The search branch of `max_value`. */
    method SearchMax(calculator: Calculator, action: Action, setVoltage: bool, minimize: Minimizer) returns (out: Result<Output>)
      requires Valid() && action != Plain
      modifies this, emitter, collector
      ensures emitter == old(emitter) && collector == old(collector) && Valid()
      ensures emitter.fields == old(emitter.fields)
      ensures out.Ok? <==> Spaced(old(emitter.fields), old(collector.fields))
      ensures out.Err? ==> out.error == ValueError
      ensures out.Ok? ==>
        MaxValueOutcome(calculator, action, setVoltage, minimize, old(emitter.fields), old(collector.fields), out.value, collector.fields)
    {
      ghost var em, co := emitter.fields, collector.fields;
      var s := Searched(calculator, emitter.fields, collector.fields, minimize);
      var fbest := RunSearch(calculator, setVoltage, minimize);
      if fbest.Err? {
        return Err(fbest.error);
      }
      out := Ok(Reported(action, s.trials[s.best], fbest.value, |s.trials|));
      OutcomeOfSearch(calculator, action, setVoltage, minimize, em, co, collector.fields);
    }
  }
}
