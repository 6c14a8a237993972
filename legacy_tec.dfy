/**
 * The original `TEC` dictionary of TEC.py, which predates the `TECBase` of
 * tec/__init__.py.
 *
 * Every item stored in a TEC is first turned into an Electrode. An Emitter or
 * Collector is then checked against the electrode already stored on the other
 * side: the emitter may be neither colder than the collector nor positioned
 * after it. Electrode.py and Constants.py, which TEC.py imports, are not part
 * of this model, so the Electrode constructor and the physical constants are
 * parameters.
 */
module LegacyTec {
  import opened Wrappers
  import Physics
  import opened Ratios
  import DictTecBase

  /** What the calculators read from an Electrode of Electrode.py, including its `calcsaturationcurrent()`. */
  datatype Electrode = Electrode(
    temperature: real,
    position: real,
    barrierHeight: real,
    voltage: real,
    emissivity: real,
    saturationCurrent: real)

  /** `Electrode(item)`: the outcome of the constructor of Electrode.py, which is not modelled. */
  type Builder = PyObject -> Result<Electrode>

  /** The fields of Constants.py that TEC.py reads. */
  datatype ConstantTable = ConstantTable(boltzmann: real, electronCharge: real, sigma0: real)

  /** Constants.py is assumed to hold positive constants. */
  type Constants = c: ConstantTable | c.boltzmann > 0.0 && c.electronCharge > 0.0 && c.sigma0 > 0.0
    witness ConstantTable(1.0, 1.0, 1.0)

  /** The ordering every TEC keeps once both electrodes are stored. */
  predicate Ordered(entries: map<string, Electrode>)
  {
    "Emitter" in entries && "Collector" in entries ==>
      && entries["Emitter"].temperature >= entries["Collector"].temperature
      && entries["Emitter"].position <= entries["Collector"].position
  }

  /**
   * `__checkconstraints`: no check while neither electrode is stored. After
   * that, an Emitter is checked against the stored Collector and vice versa;
   * a missing counterpart raises KeyError. Other keys are not checked.
   */
  function CheckConstraints(entries: map<string, Electrode>, key: string, e: Electrode): (r: Option<Error>)
    ensures r.Some? ==> "Emitter" in entries || "Collector" in entries
    ensures r.Some? ==> key == "Emitter" || key == "Collector"
    ensures r.None? && key == "Emitter" && "Collector" in entries ==>
      e.temperature >= entries["Collector"].temperature && e.position <= entries["Collector"].position
    ensures r.None? && key == "Collector" && "Emitter" in entries ==>
      entries["Emitter"].temperature >= e.temperature && entries["Emitter"].position <= e.position
    ensures key == "Emitter" && "Collector" in entries ==>
      (r == Some(ValueError) <==> e.temperature < entries["Collector"].temperature || e.position > entries["Collector"].position)
    ensures key == "Collector" && "Emitter" in entries ==>
      (r == Some(ValueError) <==> e.temperature > entries["Emitter"].temperature || e.position < entries["Emitter"].position)
    ensures r == Some(KeyError) <==>
      (key == "Emitter" && "Emitter" in entries && "Collector" !in entries) ||
      (key == "Collector" && "Collector" in entries && "Emitter" !in entries)
  {
    if "Emitter" in entries || "Collector" in entries then
      if key == "Emitter" then
        if "Collector" !in entries then Some(KeyError)
        else if e.temperature < entries["Collector"].temperature then Some(ValueError)
        else if e.position > entries["Collector"].position then Some(ValueError)
        else None
      else if key == "Collector" then
        if "Emitter" !in entries then Some(KeyError)
        else if e.temperature > entries["Emitter"].temperature then Some(ValueError)
        else if e.position < entries["Emitter"].position then Some(ValueError)
        else None
      else None
    else None
  }

  /** `__setitem__`: build the Electrode, check it, store it. */
  function Store(entries: map<string, Electrode>, key: string, item: PyObject, build: Builder): (r: Result<map<string, Electrode>>)
    ensures build(item).Err? ==> r == Err(build(item).error)
    ensures build(item).Ok? ==> (r.Ok? <==> CheckConstraints(entries, key, build(item).value).None?)
    ensures r.Ok? ==> r.value == entries[key := build(item).value]
  {
    match build(item)
    case Err(e) => Err(e)
    case Ok(e) =>
      match CheckConstraints(entries, key, e)
      case Some(err) => Err(err)
      case None => Ok(entries[key := e])
  }

  /** Every successful store keeps the electrodes ordered. */
  lemma StorePreservesOrder(entries: map<string, Electrode>, key: string, item: PyObject, build: Builder)
    requires Ordered(entries)
    ensures Store(entries, key, item, build).Ok? ==> Ordered(Store(entries, key, item, build).value)
  {
    if Store(entries, key, item, build).Ok? {
      var e := build(item).value;
      var m := entries[key := e];
      if "Emitter" in m && "Collector" in m && key != "Emitter" && key != "Collector" {
        assert m["Emitter"] == entries["Emitter"] && m["Collector"] == entries["Collector"];
      }
    }
  }

  /** The first electrode stored into an empty TEC is never checked. */
  lemma FirstElectrodeUnchecked(key: string, item: PyObject, build: Builder)
    ensures Store(map[], key, item, build).Ok? <==> build(item).Ok?
  {
  }

  /**
   * `TEC(inputParams)`: TypeError unless the input is exactly a dict. The
   * Emitter is read and stored first, then the Collector; a missing one raises
   * KeyError when it is read. (The key check of the source compares two
   * `None`s and never fires.)
   */
  function Init(input: PyObject, build: Builder): (r: Result<map<string, Electrode>>)
    ensures !(input.PyDict? && input.plain) ==> r == Err(TypeError)
    ensures input.PyDict? && input.plain && "Emitter" !in input.entries ==> r == Err(KeyError)
    ensures r.Ok? ==> r.value.Keys == {"Emitter", "Collector"} && Ordered(r.value)
    ensures r.Ok? ==> "Emitter" in input.entries && "Collector" in input.entries
    ensures r.Ok? ==> Ok(r.value["Emitter"]) == build(input.entries["Emitter"])
    ensures r.Ok? ==> Ok(r.value["Collector"]) == build(input.entries["Collector"])
  {
    if !(input.PyDict? && input.plain) then Err(TypeError)
    else if "Emitter" !in input.entries then Err(KeyError)
    else
      match Store(map[], "Emitter", input.entries["Emitter"], build)
      case Err(e) => Err(e)
      case Ok(m) =>
        if "Collector" !in input.entries then Err(KeyError)
        else
          StorePreservesOrder(m, "Collector", input.entries["Collector"], build);
          Store(m, "Collector", input.entries["Collector"], build)
  }

  /** A TEC object of TEC.py. */
  class TEC {
    var entries: map<string, Electrode>

    ghost predicate Valid()
      reads this
    {
      Ordered(entries)
    }

    constructor Empty()
      ensures entries == map[]
    {
      entries := map[];
    }

    /** `TEC(inputParams)`, through `__setitem__`. */
    static method New(input: PyObject, build: Builder) returns (r: Result<TEC>)
      ensures r.Err? <==> Init(input, build).Err?
      ensures r.Err? ==> r.error == Init(input, build).error
      ensures r.Ok? ==> fresh(r.value) && r.value.entries == Init(input, build).value && r.value.Valid()
    {
      if !(input.PyDict? && input.plain) {
        return Err(TypeError);
      }
      if "Emitter" !in input.entries {
        return Err(KeyError);
      }
      var t := new TEC.Empty();
      var err := t.SetItem("Emitter", input.entries["Emitter"], build);
      if err.Some? {
        return Err(err.value);
      }
      if "Collector" !in input.entries {
        return Err(KeyError);
      }
      err := t.SetItem("Collector", input.entries["Collector"], build);
      if err.Some? {
        return Err(err.value);
      }
      return Ok(t);
    }

    /** `__setitem__`: on an exception nothing is stored. */
    method SetItem(key: string, item: PyObject, build: Builder) returns (err: Option<Error>)
      modifies this
      ensures Store(old(entries), key, item, build).Err? ==>
        err == Some(Store(old(entries), key, item, build).error) && entries == old(entries)
      ensures Store(old(entries), key, item, build).Ok? ==>
        err == None && entries == Store(old(entries), key, item, build).value
      ensures old(Valid()) ==> Valid()
    {
      if Ordered(entries) {
        StorePreservesOrder(entries, key, item, build);
      }
      var e := build(item);
      if e.Err? {
        return Some(e.error);
      }
      var check := CheckConstraints(entries, key, e.value);
      if check.Some? {
        return check;
      }
      entries := entries[key := e.value];
      return None;
    }
  }

  // ---------------------------------------------------------------------------
  // The calculators, on the stored Emitter `em` and Collector `co`.

  /** `calcinterelectrodespacing`: never negative between the electrodes of an ordered TEC. */
  function Spacing(em: Electrode, co: Electrode): (s: real)
    ensures Ordered(map["Emitter" := em, "Collector" := co]) ==> s >= 0.0
    ensures s == 0.0 <==> em.position == co.position
  {
    co.position - em.position
  }

  /** `calcoutputvoltage`. */
  function OutputVoltage(em: Electrode, co: Electrode): real
  {
    co.voltage - em.voltage
  }

  /**
   * `calccontactpotential`: the barrier difference in units of the electron
   * charge, positive exactly when the emitter has the higher barrier.
   */
  function ContactPotential(em: Electrode, co: Electrode, c: Constants): (cp: real)
    ensures cp * c.electronCharge == em.barrierHeight - co.barrierHeight
    ensures cp > 0.0 <==> em.barrierHeight > co.barrierHeight
    ensures cp == 0.0 <==> em.barrierHeight == co.barrierHeight
  {
    var cp := Physics.Quotient(em.barrierHeight - co.barrierHeight, c.electronCharge);
    assert cp > 0.0 ==> em.barrierHeight > co.barrierHeight by {
      if cp > 0.0 { Physics.ProductSign(cp, c.electronCharge); }
    }
    cp
  }

  /** `calcmotive`: the placeholder motive, `arrayLength` ones. */
  function DummyMotive(arrayLength: nat): seq<real>
  {
    seq(arrayLength, i => 1.0)
  }

  /** `calcmaxmotiveheight`: the largest value of the default placeholder motive. */
  function MaxMotiveHeight(): (m: real)
    ensures m == 1.0
  {
    var s := DummyMotive(100);
    s[DictTecBase.ArgMax(s)]
  }

  /** The argument `-x / (k T)` that TEC.py hands to `math.exp`. */
  function Exponent(x: real, temperature: real, c: Constants): (z: real)
    requires temperature != 0.0
    ensures temperature > 0.0 ==> (z < 0.0 <==> x > 0.0) && (z == 0.0 <==> x == 0.0)
  {
    var kt := c.boltzmann * temperature;
    assert temperature > 0.0 ==> kt > 0.0 by {
      if temperature > 0.0 {
        Physics.ProductSign(c.boltzmann, temperature);
      }
    }
    assert kt != 0.0 by {
      if temperature < 0.0 {
        Physics.ProductSign(c.boltzmann, -temperature);
        assert c.boltzmann * -temperature == -kt;
      }
    }
    -x / kt
  }

  /**
   * `math.exp(-x / (k T))` on Python floats: the exponent's division raises
   * ZeroDivisionError at temperature 0, and `math.exp` raises OverflowError
   * for an exponent beyond the largest double's logarithm. The factor is below
   * 1 for a positive excess at a positive temperature, and at least 1
   * otherwise; a non-negative excess at a positive temperature never
   * overflows.
   */
  function Boltzmann(x: real, temperature: real, c: Constants, exp: Physics.Exp): (r: Result<real>)
    ensures r.Err? <==> temperature == 0.0 || Exponent(x, temperature, c) > Physics.MathExpLimit
    ensures temperature == 0.0 ==> r == Err(ZeroDivisionError)
    ensures temperature != 0.0 && r.Err? ==> r.error == OverflowError
    ensures r.Ok? ==> r.value > 0.0
    ensures r.Ok? && temperature > 0.0 ==> (r.value < 1.0 <==> x > 0.0)
    ensures temperature > 0.0 && x >= 0.0 ==> r.Ok?
  {
    if temperature == 0.0 then Err(ZeroDivisionError)
    else
      var z := Exponent(x, temperature, c);
      if z > Physics.MathExpLimit then Err(OverflowError) else Ok(exp(z))
  }

  /**
   * `calcforwardcurrentdensity`: the emitter's saturation current when its
   * barrier height reaches the maximum motive height, otherwise scaled by a
   * Boltzmann factor below 1. The exponent is then negative at a positive
   * temperature, so it cannot overflow.
   */
  function ForwardCurrent(em: Electrode, c: Constants, exp: Physics.Exp): (r: Result<real>)
    ensures em.barrierHeight >= MaxMotiveHeight() ==> r == Ok(em.saturationCurrent)
    ensures em.barrierHeight < MaxMotiveHeight() ==>
      (r.Err? <==> em.temperature == 0.0 || Exponent(MaxMotiveHeight() - em.barrierHeight, em.temperature, c) > Physics.MathExpLimit)
    ensures em.temperature > 0.0 ==> r.Ok?
    ensures r.Err? ==> r.error == if em.temperature == 0.0 then ZeroDivisionError else OverflowError
    ensures r.Ok? && em.temperature > 0.0 && em.saturationCurrent >= 0.0 ==> 0.0 <= r.value <= em.saturationCurrent
  {
    var psi := MaxMotiveHeight();
    if em.barrierHeight < psi then
      match Boltzmann(psi - em.barrierHeight, em.temperature, c, exp)
      case Err(e) => Err(e)
      case Ok(f) =>
        if em.saturationCurrent >= 0.0 && em.temperature > 0.0 then Ok(Physics.Scaled(em.saturationCurrent, f))
        else Ok(em.saturationCurrent * f)
    else Ok(em.saturationCurrent)
  }

  /**
   * `calcbackcurrentdensity`: the collector's saturation current when its
   * barrier height reaches the maximum motive height. Otherwise the exponent
   * also subtracts the output voltage: the current is then below the
   * saturation current exactly when the excess over the output voltage is
   * positive, and an output voltage far above the excess overflows `math.exp`.
   */
  function BackCurrent(em: Electrode, co: Electrode, c: Constants, exp: Physics.Exp): (r: Result<real>)
    ensures co.barrierHeight >= MaxMotiveHeight() ==> r == Ok(co.saturationCurrent)
    ensures co.barrierHeight < MaxMotiveHeight() ==>
      var excess := MaxMotiveHeight() - co.barrierHeight - OutputVoltage(em, co);
      (r.Err? <==> co.temperature == 0.0 || Exponent(excess, co.temperature, c) > Physics.MathExpLimit)
    ensures r.Err? ==> r.error == if co.temperature == 0.0 then ZeroDivisionError else OverflowError
    ensures r.Ok? && co.barrierHeight < MaxMotiveHeight() && co.temperature > 0.0 && co.saturationCurrent > 0.0 ==>
      (r.value < co.saturationCurrent <==> MaxMotiveHeight() - co.barrierHeight - OutputVoltage(em, co) > 0.0)
  {
    var psi := MaxMotiveHeight();
    if co.barrierHeight < psi then
      match Boltzmann(psi - co.barrierHeight - OutputVoltage(em, co), co.temperature, c, exp)
      case Err(e) => Err(e)
      case Ok(f) => Ok(Scale(co.saturationCurrent, f))
    else Ok(co.saturationCurrent)
  }

  /** A positive amount times a positive factor is smaller than it exactly when the factor is below 1. */
  function Scale(a: real, f: real): (r: real)
    requires f > 0.0
    ensures a > 0.0 ==> (r < a <==> f < 1.0)
  {
    ScaleBelow(a, f);
    a * f
  }

  lemma ScaleBelow(a: real, f: real)
    requires f > 0.0
    ensures a > 0.0 ==> (a * f < a <==> f < 1.0)
  {
    if a > 0.0 {
      if f < 1.0 {
        Physics.ProductSign(a, 1.0 - f);
        assert a - a * f == a * (1.0 - f);
      } else {
        Physics.ProductSign(a, f - 1.0);
        assert a * f - a == a * (f - 1.0);
      }
    }
  }

  /** `calcoutputcurrentdensity`: forward minus back current; either exception propagates, the forward one first. */
  function OutputCurrent(em: Electrode, co: Electrode, c: Constants, exp: Physics.Exp): (r: Result<real>)
    ensures r.Ok? <==> ForwardCurrent(em, c, exp).Ok? && BackCurrent(em, co, c, exp).Ok?
    ensures r.Ok? ==> r.value == ForwardCurrent(em, c, exp).value - BackCurrent(em, co, c, exp).value
  {
    match ForwardCurrent(em, c, exp)
    case Err(e) => Err(e)
    case Ok(jf) =>
      match BackCurrent(em, co, c, exp)
      case Err(e) => Err(e)
      case Ok(jb) => Ok(jf - jb)
  }

  /**
   * `calcoutputpowerdensity`: the current's exception propagates; otherwise
   * current times output voltage, positive exactly when both have the same
   * strict sign.
   */
  function OutputPower(em: Electrode, co: Electrode, c: Constants, exp: Physics.Exp): (r: Result<real>)
    ensures r.Err? <==> OutputCurrent(em, co, c, exp).Err?
    ensures r.Err? ==> r.error == OutputCurrent(em, co, c, exp).error
    ensures r.Ok? ==> var j, v := OutputCurrent(em, co, c, exp).value, OutputVoltage(em, co);
      && (r.value > 0.0 <==> (j > 0.0 && v > 0.0) || (j < 0.0 && v < 0.0))
      && (r.value == 0.0 <==> j == 0.0 || v == 0.0)
  {
    match OutputCurrent(em, co, c, exp)
    case Err(e) => Err(e)
    case Ok(j) => Ok(Power(j, OutputVoltage(em, co)))
  }

  /**
   * `calcloadresistance`: the current's exception propagates. Both currents
   * stay finite, so the resistance is NaN exactly at zero current, and
   * otherwise Ohm's law on the output voltage.
   */
  function LoadResistance(em: Electrode, co: Electrode, c: Constants, exp: Physics.Exp): (r: Result<Option<real>>)
    ensures r.Err? <==> OutputCurrent(em, co, c, exp).Err?
    ensures r.Err? ==> r.error == OutputCurrent(em, co, c, exp).error
    ensures r.Ok? ==> (r.value.None? <==> OutputCurrent(em, co, c, exp).value == 0.0)
    ensures r.Ok? && r.value.Some? ==> r.value.value * OutputCurrent(em, co, c, exp).value == OutputVoltage(em, co)
  {
    match OutputCurrent(em, co, c, exp)
    case Err(e) => Err(e)
    case Ok(j) => Ok(Resistance(OutputVoltage(em, co), j))
  }

  /** `calccarnotefficiency`: negative exactly when the collector is hotter. */
  function CarnotEfficiency(em: Electrode, co: Electrode): (r: Result<real>)
    ensures r.Err? <==> em.temperature == 0.0
    ensures r.Ok? && em.temperature > 0.0 ==> (r.value < 0.0 <==> co.temperature > em.temperature)
  {
    if em.temperature == 0.0 then Err(ZeroDivisionError)
    else
      assert em.temperature > 0.0 ==> (co.temperature / em.temperature > 1.0 <==> co.temperature > em.temperature);
      Ok(1.0 - co.temperature / em.temperature)
  }

  /**
   * `__calcblackbodyheattransport`: emissivity-weighted fourth powers, without
   * the parallel-plate denominator of the later versions.
   */
  function BlackBodyHeat(em: Electrode, co: Electrode, c: Constants): (q: real)
    ensures em.emissivity == co.emissivity > 0.0 && em.temperature >= 0.0 && co.temperature >= 0.0 ==>
      && (q > 0.0 <==> em.temperature > co.temperature)
      && (q == 0.0 <==> em.temperature == co.temperature)
  {
    if em.emissivity == co.emissivity > 0.0 && em.temperature >= 0.0 && co.temperature >= 0.0 then
      EqualEmissivitySign(c.sigma0, em.emissivity, em.temperature, co.temperature);
      c.sigma0 * (em.emissivity * Physics.Pow4(em.temperature) - co.emissivity * Physics.Pow4(co.temperature))
    else
      c.sigma0 * (em.emissivity * Physics.Pow4(em.temperature) - co.emissivity * Physics.Pow4(co.temperature))
  }

  /** Between plates of one positive emissivity the weighted fourth powers favour the hotter plate. */
  lemma EqualEmissivitySign(sigma: real, e: real, a: real, b: real)
    requires sigma > 0.0 && e > 0.0 && a >= 0.0 && b >= 0.0
    ensures sigma * (e * Physics.Pow4(a) - e * Physics.Pow4(b)) > 0.0 <==> a > b
    ensures sigma * (e * Physics.Pow4(a) - e * Physics.Pow4(b)) == 0.0 <==> a == b
  {
    var d := Physics.Pow4(a) - Physics.Pow4(b);
    assert e * Physics.Pow4(a) - e * Physics.Pow4(b) == e * d;
    if a > b {
      Physics.Pow4Increasing(a, b);
      Physics.ProductSign(e, d);
      Physics.ProductSign(sigma, e * d);
    } else if b > a {
      Physics.Pow4Increasing(b, a);
      Physics.ProductSign(e, -d);
      Physics.ProductSign(sigma, e * -d);
      assert sigma * (e * -d) == -(sigma * (e * d));
    }
  }

  /**
   * `__calcelectronicheattransport`: the forward current's exception first,
   * then the back current's. Without back current, electrons emitted at a
   * non-negative temperature carry heat away from the emitter.
   */
  function ElectronicHeat(em: Electrode, co: Electrode, c: Constants, exp: Physics.Exp): (r: Result<real>)
    ensures r.Ok? <==> ForwardCurrent(em, c, exp).Ok? && BackCurrent(em, co, c, exp).Ok?
    ensures r.Err? && ForwardCurrent(em, c, exp).Err? ==> r.error == ForwardCurrent(em, c, exp).error
    ensures r.Err? && ForwardCurrent(em, c, exp).Ok? ==> r.error == BackCurrent(em, co, c, exp).error
    ensures (r.Ok? && ForwardCurrent(em, c, exp).value >= 0.0 && BackCurrent(em, co, c, exp).value == 0.0
      && em.temperature >= 0.0) ==> r.value >= 0.0
  {
    match ForwardCurrent(em, c, exp)
    case Err(e) => Err(e)
    case Ok(jf) =>
      match BackCurrent(em, co, c, exp)
      case Err(e) => Err(e)
      case Ok(jb) =>
        var psi := MaxMotiveHeight();
        var ke := psi + 2.0 * c.boltzmann * em.temperature;
        if jf >= 0.0 && jb == 0.0 && em.temperature >= 0.0 then
          Physics.ProductSign(c.boltzmann, em.temperature);
          Physics.ProductSign(jf, ke);
          var h := Physics.Quotient(jf * ke, c.electronCharge);
          assert h >= 0.0;
          Ok(jf * ke / c.electronCharge - jb * (psi + 2.0 * c.boltzmann * co.temperature) / c.electronCharge)
        else
          Ok(jf * ke / c.electronCharge - jb * (psi + 2.0 * c.boltzmann * co.temperature) / c.electronCharge)
  }

  /** Both currents are computed before the power, so a computed power means a computed electronic heat. */
  lemma PowerMeansHeat(em: Electrode, co: Electrode, c: Constants, exp: Physics.Exp)
    ensures OutputPower(em, co, c, exp).Ok? ==> ElectronicHeat(em, co, c, exp).Ok?
  {
  }

  /**
   * `calcradiationefficiency`: NaN unless the device delivers power; then the
   * Python float division, which raises ZeroDivisionError when no heat is
   * radiated.
   */
  function RadiationEfficiency(em: Electrode, co: Electrode, c: Constants, exp: Physics.Exp): (r: Result<Option<real>>)
    ensures OutputPower(em, co, c, exp).Err? ==> r == Err(OutputPower(em, co, c, exp).error)
    ensures OutputPower(em, co, c, exp).Ok? ==>
      var p := OutputPower(em, co, c, exp).value;
      var q := BlackBodyHeat(em, co, c);
      && (r.Err? <==> p > 0.0 && q == 0.0)
      && (r.Err? ==> r.error == ZeroDivisionError)
      && (r.Ok? ==> (r.value.None? <==> p <= 0.0))
      && (r.Ok? && r.value.Some? ==> r.value.value * q == p)
  {
    match OutputPower(em, co, c, exp)
    case Err(e) => Err(e)
    case Ok(p) => FloatEfficiency(p, BlackBodyHeat(em, co, c))
  }

  /** `calcelectronicefficiency`: the same, over the electronic heat. */
  function ElectronicEfficiency(em: Electrode, co: Electrode, c: Constants, exp: Physics.Exp): (r: Result<Option<real>>)
    ensures OutputPower(em, co, c, exp).Err? ==> r == Err(OutputPower(em, co, c, exp).error)
    ensures OutputPower(em, co, c, exp).Ok? ==>
      var p := OutputPower(em, co, c, exp).value;
      && ElectronicHeat(em, co, c, exp).Ok?
      && (r.Err? <==> p > 0.0 && ElectronicHeat(em, co, c, exp).value == 0.0)
      && (r.Err? ==> r.error == ZeroDivisionError)
      && (r.Ok? ==> (r.value.None? <==> p <= 0.0))
      && (r.Ok? && r.value.Some? ==> r.value.value * ElectronicHeat(em, co, c, exp).value == p)
  {
    PowerMeansHeat(em, co, c, exp);
    match OutputPower(em, co, c, exp)
    case Err(e) => Err(e)
    case Ok(p) => if p > 0.0 then FloatEfficiency(p, ElectronicHeat(em, co, c, exp).value) else Ok(None)
  }

  /** `calctotalefficiency`: the same, over the radiated plus the electronic heat. */
  function TotalEfficiency(em: Electrode, co: Electrode, c: Constants, exp: Physics.Exp): (r: Result<Option<real>>)
    ensures OutputPower(em, co, c, exp).Err? ==> r == Err(OutputPower(em, co, c, exp).error)
    ensures OutputPower(em, co, c, exp).Ok? ==>
      var p := OutputPower(em, co, c, exp).value;
      && ElectronicHeat(em, co, c, exp).Ok?
      && var q := BlackBodyHeat(em, co, c) + ElectronicHeat(em, co, c, exp).value;
      && (r.Err? <==> p > 0.0 && q == 0.0)
      && (r.Err? ==> r.error == ZeroDivisionError)
      && (r.Ok? ==> (r.value.None? <==> p <= 0.0))
      && (r.Ok? && r.value.Some? ==> r.value.value * q == p)
  {
    PowerMeansHeat(em, co, c, exp);
    match OutputPower(em, co, c, exp)
    case Err(e) => Err(e)
    case Ok(p) =>
      if p > 0.0 then FloatEfficiency(p, BlackBodyHeat(em, co, c) + ElectronicHeat(em, co, c, exp).value) else Ok(None)
  }
}
