/**
 * The dict-based `Electrode` of tec/__init__.py, of which tec/electrode.py holds
 * a line-for-line copy.
 *
 * An Electrode is a dictionary of floats. Every assignment is checked and
 * converted to SI units. Overwriting a field that affects the motive raises a
 * private change flag, which the owning device reads and clears to decide
 * whether its motive table is stale.
 */
module DictElectrode {
  import opened Wrappers
  import Physics

  /** A dictionary key: one of the named fields, or any other string (stored unchecked). */
  datatype Key = Temp | Barrier | Voltage | Position | Richardson | Emissivity | Nea | Extra(name: ExtraName)

  /** The Python strings of the named fields. */
  const FieldNames: set<string> := {"temp", "barrier", "voltage", "position", "richardson", "emissivity", "nea"}

  /** A key string that names none of the fields. */
  type ExtraName = s: string | s !in FieldNames witness "x"

  /** The Python string of a named field. */
  function Name(k: Key): string
  {
    match k
    case Temp => "temp"
    case Barrier => "barrier"
    case Voltage => "voltage"
    case Position => "position"
    case Richardson => "richardson"
    case Emissivity => "emissivity"
    case Nea => "nea"
    case Extra(n) => n
  }

  /** The fields an Electrode must be built with, in the order `__init__` assigns them. */
  const RequiredKeys: seq<Key> := [Temp, Barrier, Voltage, Position, Richardson, Emissivity]

  /** The fields whose overwrite raises the change flag. */
  const MotiveKeys: set<Key> := {Temp, Richardson, Barrier, Voltage, Position, Nea}

  /** The eV-to-J factor of `__setitem__`; it differs from `Physics.ElectronCharge`. */
  const JoulePerEV: real := 1.60217646e-19

  /** The range checks of `__setitem__`. Fields not named here are unconstrained. */
  predicate Admissible(key: Key, x: real)
  {
    match key
    case Temp | Barrier | Richardson | Nea => x >= 0.0
    case Emissivity => 0.0 < x < 1.0
    case _ => true
  }

  /** The factor `__setitem__` applies to store a field in SI units. */
  function SIFactor(key: Key): (f: real)
    ensures f > 0.0
  {
    match key
    case Barrier | Nea => JoulePerEV
    case Position => 1e-6
    case Richardson => 1e4
    case _ => 1.0
  }

  /**
   * What `__setitem__` stores under `key`, or the exception it raises. The
   * checks use the value as given, before conversion.
   */
  function Convert(key: Key, v: PyObject): (r: Result<real>)
    ensures r.Ok? <==> v.PyNum? && Admissible(key, v.x)
    ensures !v.PyNum? ==> r == Err(TypeError)
    ensures v.PyNum? && !Admissible(key, v.x) ==> r == Err(ValueError)
    ensures r.Ok? ==> Admissible(key, r.value)
  {
    match ToFloat(v)
    case Err(e) => Err(e)
    case Ok(x) => if Admissible(key, x) then Ok(SIFactor(key) * x) else Err(ValueError)
  }

  /** The SI units of each accepted value: eV to J, µm to m, A/(cm²K²) to A/(m²K²). */
  lemma StoredInSIUnits(key: Key, x: real)
    requires Admissible(key, x)
    ensures key == Barrier || key == Nea ==> Convert(key, PyNum(x)) == Ok(1.60217646e-19 * x)
    ensures key == Position ==> Convert(key, PyNum(x)) == Ok(x / 1000000.0)
    ensures key == Richardson ==> Convert(key, PyNum(x)) == Ok(10000.0 * x)
    ensures key == Temp || key == Voltage || key == Emissivity || key.Extra? ==> Convert(key, PyNum(x)) == Ok(x)
  {
    assert SIFactor(Position) == 1e-6;
    assert 1e-6 * x == x / 1000000.0;
  }

  /** What every constructed Electrode keeps: the required fields, each checked field in range. */
  predicate ValidFields(m: map<Key, real>)
  {
    && Temp in m && Barrier in m && Voltage in m && Position in m && Richardson in m && Emissivity in m
    && AllAdmissible(m)
  }

  /** Every stored value passed its range check. */
  predicate AllAdmissible(m: map<Key, real>)
  {
    forall k :: k in m ==> Admissible(k, m[k])
  }

  /**
   * The loop of `__init__`: assign each key in turn, stopping at the first
   * exception.
   */
  function Populate(m: map<Key, real>, keys: seq<Key>, entries: map<string, PyObject>): Result<map<Key, real>>
    requires forall k :: k in keys ==> Name(k) in entries
    decreases |keys|
  {
    if keys == [] then Ok(m)
    else
      match Convert(keys[0], entries[Name(keys[0])])
      case Err(e) => Err(e)
      case Ok(x) => Populate(m[keys[0] := x], keys[1..], entries)
  }

  /**
   * The loop succeeds exactly when every assignment does. It then stores each
   * converted value over the starting map and keeps every stored value in
   * range. Otherwise it raises the exception of the first assignment that fails.
   */
  lemma {:induction false} PopulateFacts(m: map<Key, real>, keys: seq<Key>, entries: map<string, PyObject>)
    requires forall k :: k in keys ==> Name(k) in entries
    ensures var r := Populate(m, keys, entries);
      && (r.Ok? <==> forall k :: k in keys ==> Convert(k, entries[Name(k)]).Ok?)
      && (r.Ok? ==> forall k :: k in r.value <==> k in m || k in keys)
      && (r.Ok? && AllAdmissible(m) ==> AllAdmissible(r.value))
      && (r.Ok? ==> forall k :: k in r.value ==>
            r.value[k] == if k in keys then Convert(k, entries[Name(k)]).value else m[k])
      && (r.Err? ==> exists i :: FirstFailure(keys, entries, i) && r.error == Convert(keys[i], entries[Name(keys[i])]).error)
    decreases |keys|
  {
    if keys != [] {
      match Convert(keys[0], entries[Name(keys[0])])
      case Err(e) =>
        assert FirstFailure(keys, entries, 0);
      case Ok(x) =>
        PopulateFacts(m[keys[0] := x], keys[1..], entries);
        var r := Populate(m[keys[0] := x], keys[1..], entries);
        assert forall k :: k in keys <==> k == keys[0] || k in keys[1..];
        if r.Err? {
          var i :| FirstFailure(keys[1..], entries, i) && r.error == Convert(keys[1..][i], entries[Name(keys[1..][i])]).error;
          assert FirstFailure(keys, entries, i + 1);
        }
    }
  }

  /** Position `i` holds the first key of `keys` whose assignment raises. */
  predicate FirstFailure(keys: seq<Key>, entries: map<string, PyObject>, i: int)
    requires forall k :: k in keys ==> Name(k) in entries
  {
    && 0 <= i < |keys|
    && Convert(keys[i], entries[Name(keys[i])]).Err?
    && forall j :: 0 <= j < i ==> Convert(keys[j], entries[Name(keys[j])]).Ok?
  }

  /** The keys `__init__` assigns: the required ones, then `nea` if it was given. */
  function InitKeys(entries: map<string, PyObject>): seq<Key>
  {
    if "nea" in entries then RequiredKeys + [Nea] else RequiredKeys
  }

  /** The members of `InitKeys`, each of which names an entry when the required ones are present. */
  lemma InitKeysMembers(entries: map<string, PyObject>)
    ensures forall k :: k in InitKeys(entries) <==> k in RequiredKeys || (k == Nea && "nea" in entries)
    ensures HasRequired(entries) ==> forall k :: k in InitKeys(entries) ==> Name(k) in entries
    ensures Temp in InitKeys(entries) && Barrier in InitKeys(entries) && Voltage in InitKeys(entries)
    ensures Position in InitKeys(entries) && Richardson in InitKeys(entries) && Emissivity in InitKeys(entries)
  {
  }

  /** Every required key is present in `entries`. */
  predicate HasRequired(entries: map<string, PyObject>)
  {
    && "temp" in entries && "barrier" in entries && "voltage" in entries
    && "position" in entries && "richardson" in entries && "emissivity" in entries
  }

  /** The outcome of `Electrode(input_params)`: the stored fields, or the exception. */
  function Construct(input: PyObject): (r: Result<map<Key, real>>)
    ensures !(input.PyDict? && input.plain) ==> r == Err(TypeError)
    ensures input.PyDict? && input.plain && !HasRequired(input.entries) ==> r == Err(KeyError)
    ensures input.PyDict? && input.plain && HasRequired(input.entries) ==>
      (r.Ok? <==> forall k :: k in InitKeys(input.entries) ==> Convert(k, input.entries[Name(k)]).Ok?)
    ensures r.Ok? ==> input.PyDict? && HasRequired(input.entries) && ValidFields(r.value)
    ensures r.Ok? ==> forall k :: k in r.value <==> k in RequiredKeys || (k == Nea && "nea" in input.entries)
    ensures r.Ok? ==> forall k :: k in r.value ==> k in InitKeys(input.entries)
    ensures r.Ok? ==> forall k :: k in r.value ==> Name(k) in input.entries && Convert(k, input.entries[Name(k)]) == Ok(r.value[k])
  {
    if !(input.PyDict? && input.plain) then Err(TypeError)
    else if !HasRequired(input.entries) then Err(KeyError)
    else
      InitKeysMembers(input.entries);
      PopulateFacts(map[], InitKeys(input.entries), input.entries);
      Populate(map[], InitKeys(input.entries), input.entries)
  }

  /** The value state of an Electrode: its fields and its change flag. */
  datatype Snapshot = Snapshot(fields: map<Key, real>, changed: bool)

  /**
   * `__setitem__`: on success the converted value is stored, and the flag is
   * raised when a motive field that was already present is overwritten.
   */
  function Assign(s: Snapshot, key: Key, v: PyObject): (r: Result<Snapshot>)
    ensures r.Err? <==> Convert(key, v).Err?
    ensures r.Err? ==> r.error == Convert(key, v).error
    ensures r.Ok? ==> r.value.fields == s.fields[key := Convert(key, v).value]
    ensures r.Ok? ==> (r.value.changed <==> s.changed || (key in MotiveKeys && key in s.fields))
    ensures r.Ok? && ValidFields(s.fields) ==> ValidFields(r.value.fields)
  {
    match Convert(key, v)
    case Err(e) => Err(e)
    case Ok(x) =>
      Ok(Snapshot(s.fields[key := x], s.changed || (key in MotiveKeys && key in s.fields)))
  }

  /** `param_changed_and_reset`: report the flag and clear it. */
  function Reset(s: Snapshot): (r: (bool, Snapshot))
    ensures r.0 == s.changed
    ensures r.1 == Snapshot(s.fields, false)
  {
    (s.changed, s.(changed := false))
  }

  /** The flag protocol of the tests: only overwrites of motive fields count, and a read clears it. */
  lemma FlagProtocol(s: Snapshot, key: Key, x: real)
    requires Admissible(key, x)
    ensures Assign(s, key, PyNum(x)).Ok?
    ensures key == Emissivity ==> Assign(s, key, PyNum(x)).value.changed == s.changed
    ensures key in MotiveKeys && key in s.fields ==> Reset(Assign(s, key, PyNum(x)).value).0
    ensures !Reset(Reset(s).1).0
  {
  }

  /**
   * `calc_saturation_current`: Richardson-Dushman emission. Setting either the
   * temperature or the Richardson constant to 0 switches the electrode off.
   */
  function SaturationCurrent(m: map<Key, real>, exp: Physics.Exp): (j: real)
    requires ValidFields(m)
    ensures j >= 0.0
    ensures j == 0.0 <==> m[Temp] == 0.0 || m[Richardson] == 0.0
  {
    if m[Temp] == 0.0 then 0.0
    else
      var e := exp(-m[Barrier] / (Physics.Boltzmann * m[Temp]));
      Physics.Product4(m[Richardson], m[Temp], m[Temp], e)
  }

  /** `calc_vacuum_energy`: the barrier, lowered by the negative electron affinity when there is one. */
  function VacuumEnergy(m: map<Key, real>): (r: real)
    requires ValidFields(m)
    ensures r <= m[Barrier]
    ensures r == m[Barrier] <==> Nea !in m || m[Nea] == 0.0
    ensures Nea in m ==> r == m[Barrier] - m[Nea]
  {
    if Nea in m then m[Barrier] - m[Nea] else m[Barrier]
  }

  /**
   * `calc_barrier_ht`: the barrier relative to ground. A positive voltage
   * lifts it above the barrier, a negative one drops it below.
   */
  function BarrierHt(m: map<Key, real>): (r: real)
    requires ValidFields(m)
    ensures r > m[Barrier] <==> m[Voltage] > 0.0
    ensures r == m[Barrier] <==> m[Voltage] == 0.0
  {
    m[Barrier] + Physics.ElectronCharge * m[Voltage]
  }

  /**
   * Moving an electrode to another voltage shifts its barrier height by e
   * times the voltage step and leaves the barrier itself alone.
   */
  lemma BarrierHtFollowsVoltage(m: map<Key, real>, v: real)
    requires ValidFields(m)
    ensures ValidFields(m[Voltage := v])
    ensures m[Voltage := v][Barrier] == m[Barrier]
    ensures BarrierHt(m[Voltage := v]) - BarrierHt(m) == Physics.ElectronCharge * (v - m[Voltage])
  {
  }

  /**
   * `calc_motive_bc`: the vacuum level relative to ground. It never exceeds the
   * barrier height, and equals it exactly when the electrode has no NEA.
   */
  function MotiveBc(m: map<Key, real>): (r: real)
    requires ValidFields(m)
    ensures r <= BarrierHt(m)
    ensures r == BarrierHt(m) <==> Nea !in m || m[Nea] == 0.0
    ensures BarrierHt(m) - r == if Nea in m then m[Nea] else 0.0
    ensures r - VacuumEnergy(m) == Physics.ElectronCharge * m[Voltage]
  {
    VacuumEnergy(m) + Physics.ElectronCharge * m[Voltage]
  }

  /** An Electrode object: the dictionary and its private change flag. */
  class Electrode {
    var fields: map<Key, real>
    var paramChanged: bool

    ghost predicate Valid()
      reads this
    {
      ValidFields(fields)
    }

    function State(): Snapshot
      reads this
    {
      Snapshot(fields, paramChanged)
    }

    /** The empty dictionary that `__init__` starts from. */
    constructor Empty()
      ensures fields == map[] && !paramChanged
    {
      fields := map[];
      paramChanged := false;
    }

    /** `Electrode(input_params)`: the checks, the assignment loop, and a cleared flag. */
    static method New(input: PyObject) returns (r: Result<Electrode>)
      ensures r.Ok? <==> Construct(input).Ok?
      ensures r.Err? ==> r.error == Construct(input).error
      ensures r.Ok? ==> fresh(r.value) && r.value.State() == Snapshot(Construct(input).value, false)
      ensures r.Ok? ==> r.value.Valid()
    {
      if !(input.PyDict? && input.plain) {
        return Err(TypeError);
      }
      var entries := input.entries;
      if !HasRequired(entries) {
        return Err(KeyError);
      }
      var keys := InitKeys(entries);
      InitKeysMembers(entries);
      var e := new Electrode.Empty();
      var i := 0;
      while i < |keys|
        invariant 0 <= i <= |keys|
        invariant fresh(e)
        invariant Populate(map[], keys, entries) == Populate(e.fields, keys[i..], entries)
      {
        assert keys[i..][0] == keys[i] && keys[i..][1..] == keys[i + 1..];
        var err := e.Set(keys[i], entries[Name(keys[i])]);
        if err.Some? {
          return Err(err.value);
        }
        i := i + 1;
      }
      e.paramChanged := false;
      return Ok(e);
    }

    /** `__setitem__`: check, convert, maybe raise the flag, store. Nothing changes on an exception. */
    method Set(key: Key, v: PyObject) returns (err: Option<Error>)
      modifies this
      ensures Assign(old(State()), key, v).Err? ==> err == Some(Assign(old(State()), key, v).error) && State() == old(State())
      ensures Assign(old(State()), key, v).Ok? ==> err == None && State() == Assign(old(State()), key, v).value
    {
      var x := ToFloat(v);
      if x.Err? {
        return Some(TypeError);
      }
      var item := x.value;
      if !Admissible(key, item) {
        return Some(ValueError);
      }
      item := SIFactor(key) * item;
      if key in MotiveKeys && key in fields {
        paramChanged := true;
      }
      fields := fields[key := item];
      return None;
    }

    /** `del electrode[key]`: the plain dict deletion, which leaves the change flag alone. */
    method Delete(key: Key)
      modifies this
      ensures fields == old(fields) - {key} && paramChanged == old(paramChanged)
    {
      fields := fields - {key};
    }

    /** `param_changed_and_reset`. */
    method ParamChangedAndReset() returns (b: bool)
      modifies this
      ensures (b, State()) == Reset(old(State()))
    {
      b := paramChanged;
      paramChanged := false;
    }
  }
}
