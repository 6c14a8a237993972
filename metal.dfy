/**
 * The `Metal` electrode of src/tec/electrode.py and tec/electrode/metal.py.
 *
 * Each physical property is a bounded descriptor: assigning a non-number
 * raises TypeError and assigning a value outside its bounds raises
 * ValueError, leaving the old value in place. Values are kept in the
 * descriptors' default units: K, eV, A/(cm^2 K^2), V, um and a pure number.
 */
module Metal {
  import opened Wrappers
  import Physics

  datatype Property = Temp | Barrier | Richardson | Voltage | Position | Emissivity

  /** The order in which `__init__` assigns the properties. */
  const Properties: seq<Property> := [Temp, Barrier, Richardson, Voltage, Position, Emissivity]

  /** The attribute and keyword name of a property. */
  function Name(p: Property): string
  {
    match p
    case Temp => "temp"
    case Barrier => "barrier"
    case Richardson => "richardson"
    case Voltage => "voltage"
    case Position => "position"
    case Emissivity => "emissivity"
  }

  /** The declared bounds: temp, barrier and richardson at least 0, emissivity in [0, 1]. */
  predicate InBounds(p: Property, x: real)
  {
    match p
    case Temp => x >= 0.0
    case Barrier => x >= 0.0
    case Richardson => x >= 0.0
    case Emissivity => 0.0 <= x <= 1.0
    case _ => true
  }

  /** Assigning a property: TypeError for a non-number, ValueError outside the bounds. */
  function Check(p: Property, v: PyObject): (r: Result<real>)
    ensures r.Ok? <==> v.PyNum? && InBounds(p, v.x)
    ensures r.Ok? ==> r.value == v.x
    ensures !v.PyNum? ==> r == Err(TypeError)
    ensures v.PyNum? && !InBounds(p, v.x) ==> r == Err(ValueError)
  {
    match ToFloat(v)
    case Err(e) => Err(e)
    case Ok(x) => if InBounds(p, x) then Ok(x) else Err(ValueError)
  }

  /** The six property values of one electrode. */
  datatype Snapshot = Snapshot(temp: real, barrier: real, richardson: real, voltage: real, position: real, emissivity: real)
  {
    function Get(p: Property): real
    {
      match p
      case Temp => temp
      case Barrier => barrier
      case Richardson => richardson
      case Voltage => voltage
      case Position => position
      case Emissivity => emissivity
    }

    /** The snapshot after one property is assigned `x`: that property reads `x`, every other is unchanged. */
    function With(p: Property, x: real): (s: Snapshot)
      ensures s.Get(p) == x
      ensures forall q :: q != p ==> s.Get(q) == Get(q)
    {
      match p
      case Temp => this.(temp := x)
      case Barrier => this.(barrier := x)
      case Richardson => this.(richardson := x)
      case Voltage => this.(voltage := x)
      case Position => this.(position := x)
      case Emissivity => this.(emissivity := x)
    }
  }

  /** Every Metal object satisfies its bounds, since each assignment is checked. */
  predicate Bounded(s: Snapshot)
  {
    s.temp >= 0.0 && s.barrier >= 0.0 && s.richardson >= 0.0 && 0.0 <= s.emissivity <= 1.0
  }

  lemma BoundedIsAllInBounds(s: Snapshot)
    ensures Bounded(s) <==> forall p :: InBounds(p, s.Get(p))
  {
    if !Bounded(s) {
      if s.temp < 0.0 { assert !InBounds(Temp, s.Get(Temp)); }
      else if s.barrier < 0.0 { assert !InBounds(Barrier, s.Get(Barrier)); }
      else if s.richardson < 0.0 { assert !InBounds(Richardson, s.Get(Richardson)); }
      else { assert !InBounds(Emissivity, s.Get(Emissivity)); }
    }
  }

  /** Two snapshots that agree on every property are equal. */
  lemma SnapshotExtensionality(s: Snapshot, t: Snapshot)
    requires forall i :: 0 <= i < |Properties| ==> s.Get(Properties[i]) == t.Get(Properties[i])
    ensures s == t
  {
    assert s.Get(Properties[0]) == t.Get(Properties[0]);
    assert s.Get(Properties[1]) == t.Get(Properties[1]);
    assert s.Get(Properties[2]) == t.Get(Properties[2]);
    assert s.Get(Properties[3]) == t.Get(Properties[3]);
    assert s.Get(Properties[4]) == t.Get(Properties[4]);
    assert s.Get(Properties[5]) == t.Get(Properties[5]);
  }

  // ---------------------------------------------------------------------------
  // Construction.

  /**
   * The assignments of `__init__` from the i-th property on, starting from
   * `acc`: the first failing assignment ends construction with its exception.
   */
  function BuildFrom(args: seq<PyObject>, i: nat, acc: Snapshot): Result<Snapshot>
    requires |args| == |Properties| && i <= |Properties|
    decreases |Properties| - i
  {
    if i == |Properties| then Ok(acc)
    else
      match Check(Properties[i], args[i])
      case Err(e) => Err(e)
      case Ok(x) => BuildFrom(args, i + 1, acc.With(Properties[i], x))
  }

  /** The state of a new object before its first assignment. */
  const Blank: Snapshot := Snapshot(0.0, 0.0, 0.0, 0.0, 0.0, 0.0)

  /** `Metal(temp, barrier, richardson, voltage, position, emissivity)`, positionally. */
  function Build(args: seq<PyObject>): Result<Snapshot>
    requires |args| == |Properties|
  {
    BuildFrom(args, 0, Blank)
  }

  /** The i-th assignment is the first to fail. */
  predicate FirstFailure(args: seq<PyObject>, i: int)
    requires |args| == |Properties|
  {
    && 0 <= i < |Properties|
    && (forall j :: 0 <= j < i ==> Check(Properties[j], args[j]).Ok?)
    && Check(Properties[i], args[i]).Err?
  }

  /**
   * What the remaining assignments do: they succeed exactly when every one of
   * them is admissible, the properties they assign take the argument values
   * and the others keep those of `acc`; otherwise the first failure decides
   * the exception.
   */
  lemma {:induction false} BuildFromFacts(args: seq<PyObject>, i: nat, acc: Snapshot)
    requires |args| == |Properties| && i <= |Properties|
    ensures BuildFrom(args, i, acc).Ok? <==> forall j :: i <= j < |Properties| ==> Check(Properties[j], args[j]).Ok?
    ensures BuildFrom(args, i, acc).Ok? ==>
      forall j :: i <= j < |Properties| ==> BuildFrom(args, i, acc).value.Get(Properties[j]) == args[j].x
    ensures BuildFrom(args, i, acc).Ok? ==>
      forall j :: 0 <= j < i ==> BuildFrom(args, i, acc).value.Get(Properties[j]) == acc.Get(Properties[j])
    ensures BuildFrom(args, i, acc).Err? ==>
      exists j :: i <= j < |Properties| && (forall k :: i <= k < j ==> Check(Properties[k], args[k]).Ok?)
        && Check(Properties[j], args[j]).Err? && BuildFrom(args, i, acc).error == Check(Properties[j], args[j]).error
    decreases |Properties| - i
  {
    if i < |Properties| {
      var c := Check(Properties[i], args[i]);
      if c.Ok? {
        var next := acc.With(Properties[i], c.value);
        BuildFromFacts(args, i + 1, next);
        var r := BuildFrom(args, i, acc);
        assert r == BuildFrom(args, i + 1, next);
        if r.Ok? {
          forall j | 0 <= j < i
            ensures r.value.Get(Properties[j]) == acc.Get(Properties[j])
          {
            assert Properties[j] != Properties[i];
          }
        }
        if r.Err? {
          var j :| i + 1 <= j < |Properties| && (forall k :: i + 1 <= k < j ==> Check(Properties[k], args[k]).Ok?)
            && Check(Properties[j], args[j]).Err? && r.error == Check(Properties[j], args[j]).error;
          assert forall k :: i <= k < j ==> Check(Properties[k], args[k]).Ok?;
        }
      }
    }
  }

  /** Construction succeeds exactly when every argument is admissible, and then stores exactly the arguments. */
  lemma BuildFacts(args: seq<PyObject>)
    requires |args| == |Properties|
    ensures Build(args).Ok? <==> forall i :: 0 <= i < |Properties| ==> Check(Properties[i], args[i]).Ok?
    ensures Build(args).Ok? ==> Bounded(Build(args).value)
    ensures Build(args).Ok? ==> forall i :: 0 <= i < |Properties| ==> Build(args).value.Get(Properties[i]) == args[i].x
    ensures Build(args).Err? ==> exists i :: FirstFailure(args, i) && Build(args).error == Check(Properties[i], args[i]).error
  {
    BuildFromFacts(args, 0, Blank);
    if Build(args).Ok? {
      var s := Build(args).value;
      assert forall i :: 0 <= i < |Properties| ==> InBounds(Properties[i], s.Get(Properties[i]));
      assert InBounds(Properties[0], s.Get(Properties[0])) && InBounds(Properties[1], s.Get(Properties[1]));
      assert InBounds(Properties[2], s.Get(Properties[2])) && InBounds(Properties[5], s.Get(Properties[5]));
    }
  }

  /** Whether `k` names a parameter of `__init__`. */
  predicate IsParameter(k: string)
  {
    k == "temp" || k == "barrier" || k == "richardson" || k == "voltage" || k == "position" || k == "emissivity"
  }

  /** The default argument values; `temp` and `barrier` have none. */
  function Default(p: Property): PyObject
  {
    match p
    case Richardson => PyNum(120.0)
    case Emissivity => PyNum(0.0)
    case _ => PyNum(0.0)
  }

  /**
   * Binding `Metal(**kwargs)` to the signature of `__init__`: a missing
   * `temp` or `barrier` raises TypeError, and so does an unknown keyword
   * unless the signature takes `**kwargs` (src/tec/electrode.py does,
   * tec/electrode/metal.py does not). Omitted optional arguments take their
   * defaults.
   */
  function Arguments(kwargs: map<string, PyObject>, acceptsExtra: bool): (r: Result<seq<PyObject>>)
    ensures r.Err? <==> "temp" !in kwargs || "barrier" !in kwargs || (!acceptsExtra && exists k :: k in kwargs && !IsParameter(k))
    ensures r.Err? ==> r.error == TypeError
    ensures r.Ok? ==> |r.value| == |Properties|
    ensures r.Ok? ==> forall i :: 0 <= i < |Properties| && Name(Properties[i]) in kwargs ==> r.value[i] == kwargs[Name(Properties[i])]
    ensures r.Ok? ==> forall i :: 0 <= i < |Properties| && Name(Properties[i]) !in kwargs ==> r.value[i] == Default(Properties[i])
  {
    if "temp" !in kwargs || "barrier" !in kwargs then Err(TypeError)
    else if !acceptsExtra && exists k :: k in kwargs && !IsParameter(k) then Err(TypeError)
    else Ok(seq(|Properties|, i requires 0 <= i < |Properties| =>
      if Name(Properties[i]) in kwargs then kwargs[Name(Properties[i])] else Default(Properties[i])))
  }

  /** The defaults are admissible, so leaving out every optional argument never fails. */
  lemma DefaultsAdmissible(p: Property)
    requires p != Temp && p != Barrier
    ensures Check(p, Default(p)).Ok?
    ensures Check(p, Default(p)).value == (if p == Richardson then 120.0 else 0.0)
  {
  }

  // ---------------------------------------------------------------------------
  // Iteration and `dict(metal)`.

  /** What an iteration pair holds besides a property value. */
  datatype Item = ClassItem | VersionItem | Number(x: real)

  /**
   * `__iter__`: `("__class__", type)` first, then `("__version__", ...)` in
   * tec/electrode/metal.py, then every property with its value exactly once.
   */
  function Items(s: Snapshot, withVersion: bool): (r: seq<(string, Item)>)
    ensures |r| == (if withVersion then 8 else 7)
    ensures r[0] == ("__class__", ClassItem)
    ensures withVersion ==> r[1] == ("__version__", VersionItem)
    ensures forall i, j :: 0 <= i < j < |r| ==> r[i].0 != r[j].0
    ensures forall p :: (Name(p), Number(s.Get(p))) in r
  {
    var head := if withVersion then [("__class__", ClassItem), ("__version__", VersionItem)] else [("__class__", ClassItem)];
    var props := [("temp", Number(s.temp)), ("barrier", Number(s.barrier)), ("richardson", Number(s.richardson)),
                  ("voltage", Number(s.voltage)), ("position", Number(s.position)), ("emissivity", Number(s.emissivity))];
    assert forall p :: (Name(p), Number(s.Get(p))) in props;
    head + props
  }

  /** A value read back from a dictionary, as a Python argument. */
  function AsArgument(v: Item): PyObject
  {
    if v.Number? then PyNum(v.x) else PyOther
  }

  /** `dict(pairs)`: a later pair overrides an earlier one with the same key. */
  function DictOf(pairs: seq<(string, Item)>): map<string, PyObject>
  {
    if |pairs| == 0 then map[]
    else DictOf(pairs[..|pairs| - 1])[pairs[|pairs| - 1].0 := AsArgument(pairs[|pairs| - 1].1)]
  }

  /** With distinct keys, `dict(pairs)` maps each key to its own value, and to nothing else. */
  lemma {:induction false} DictOfDistinct(pairs: seq<(string, Item)>)
    requires forall i, j :: 0 <= i < j < |pairs| ==> pairs[i].0 != pairs[j].0
    ensures forall k :: k in DictOf(pairs) <==> exists i :: 0 <= i < |pairs| && pairs[i].0 == k
    ensures forall i :: 0 <= i < |pairs| ==> DictOf(pairs)[pairs[i].0] == AsArgument(pairs[i].1)
  {
    if |pairs| > 0 {
      var n := |pairs| - 1;
      var init := pairs[..n];
      DictOfDistinct(init);
      assert DictOf(pairs) == DictOf(init)[pairs[n].0 := AsArgument(pairs[n].1)];
      assert forall i :: 0 <= i < n ==> init[i] == pairs[i];
      assert forall i :: 0 <= i < n ==> pairs[i].0 != pairs[n].0;
    }
  }

  /** `Metal.from_dict(dict(m))` rebuilds a Metal with the same properties (the `__class__` item is absorbed by `**kwargs`). */
  lemma FromDictOfItems(s: Snapshot)
    requires Bounded(s)
    ensures Arguments(DictOf(Items(s, false)), true).Ok?
    ensures Build(Arguments(DictOf(Items(s, false)), true).value) == Ok(s)
  {
    var items := Items(s, false);
    var d := DictOf(items);
    DictOfDistinct(items);
    forall p
      ensures Name(p) in d && d[Name(p)] == PyNum(s.Get(p))
    {
      var i :| 0 <= i < |items| && items[i] == (Name(p), Number(s.Get(p)));
      assert items[i].0 == Name(p);
    }
    assert "temp" == Name(Temp) && "barrier" == Name(Barrier);
    var args := Arguments(d, true).value;
    BoundedIsAllInBounds(s);
    assert forall i :: 0 <= i < |Properties| ==> args[i] == PyNum(s.Get(Properties[i]));
    BuildFacts(args);
    SnapshotExtensionality(Build(args).value, s);
  }

  // ---------------------------------------------------------------------------
  // Physics of a metal electrode.

  /** Boltzmann's constant in eV/K, from the CODATA values the model uses in SI units. */
  const BoltzmannEV: real := Physics.Boltzmann / Physics.ElectronCharge

  /**
   * `motive()`, in eV: the barrier plus `e` times the voltage, which in eV is
   * the voltage itself. It equals the barrier at zero bias and rises with the
   * voltage.
   */
  function Motive(s: Snapshot): (psi: real)
    ensures s.voltage == 0.0 ==> psi == s.barrier
    ensures s.voltage > 0.0 <==> psi > s.barrier
  {
    s.barrier + s.voltage
  }

  /**
   * `thermoelectron_current_density()`, in A/cm^2: Richardson-Dushman
   * emission A T^2 exp(-barrier/(k T)). It is never negative, and it is 0
   * exactly when the temperature or the Richardson constant is.
   */
  function CurrentDensity(s: Snapshot, exp: Physics.Exp): (j: real)
    requires Bounded(s)
    ensures j >= 0.0
    ensures j == 0.0 <==> s.temp == 0.0 || s.richardson == 0.0
  {
    if s.temp == 0.0 then 0.0
    else Physics.Product4(s.richardson, s.temp, s.temp, exp(-s.barrier / (BoltzmannEV * s.temp)))
  }

  /**
   * `thermoelectron_energy_flux()`, in W/cm^2: the current density carrying
   * (barrier + 2kT) per unit charge. Never negative, and 0 exactly when the
   * current density is.
   */
  function EnergyFlux(s: Snapshot, exp: Physics.Exp): (q: real)
    requires Bounded(s)
    ensures q >= 0.0
    ensures q == 0.0 <==> CurrentDensity(s, exp) == 0.0
  {
    var j := CurrentDensity(s, exp);
    var potential := s.barrier + 2.0 * BoltzmannEV * s.temp;
    Physics.ProductSign(potential, j);
    assert j > 0.0 ==> potential > 0.0;
    potential * j
  }

  /** A Metal object. */
  class Metal {
    var temp: real
    var barrier: real
    var richardson: real
    var voltage: real
    var position: real
    var emissivity: real

    function State(): Snapshot
      reads this
    {
      Snapshot(temp, barrier, richardson, voltage, position, emissivity)
    }

    ghost predicate Valid()
      reads this
    {
      Bounded(State())
    }

    constructor Empty()
      ensures State() == Blank
    {
      temp, barrier, richardson, voltage, position, emissivity := 0.0, 0.0, 0.0, 0.0, 0.0, 0.0;
    }

    /** Assigning one property through its descriptor; on an exception nothing changes. */
    method Set(p: Property, v: PyObject) returns (err: Option<Error>)
      modifies this
      ensures Check(p, v).Err? ==> err == Some(Check(p, v).error) && State() == old(State())
      ensures Check(p, v).Ok? ==> err == None && State() == old(State()).With(p, v.x)
      ensures old(Valid()) ==> Valid()
    {
      var c := Check(p, v);
      if c.Err? {
        return Some(c.error);
      }
      match p {
        case Temp => temp := c.value;
        case Barrier => barrier := c.value;
        case Richardson => richardson := c.value;
        case Voltage => voltage := c.value;
        case Position => position := c.value;
        case Emissivity => emissivity := c.value;
      }
      return None;
    }

    /** `Metal(temp, barrier, richardson, voltage, position, emissivity)`: six checked assignments in order. */
    static method New(args: seq<PyObject>) returns (r: Result<Metal>)
      requires |args| == |Properties|
      ensures r.Ok? <==> Build(args).Ok?
      ensures r.Ok? ==> fresh(r.value) && r.value.State() == Build(args).value && r.value.Valid()
      ensures r.Err? ==> r.error == Build(args).error
    {
      var m := new Metal.Empty();
      for i := 0 to |Properties|
        invariant Build(args) == BuildFrom(args, i, m.State())
        invariant fresh(m)
      {
        var err := m.Set(Properties[i], args[i]);
        if err.Some? {
          return Err(err.value);
        }
      }
      BuildFacts(args);
      return Ok(m);
    }

    /** `Metal.from_dict(kwargs)`: `Metal(**kwargs)`, extra keys ignored. */
    static method FromDict(kwargs: map<string, PyObject>) returns (r: Result<Metal>)
      ensures Arguments(kwargs, true).Err? ==> r == Err(TypeError)
      ensures Arguments(kwargs, true).Ok? ==> (r.Ok? <==> Build(Arguments(kwargs, true).value).Ok?)
      ensures r.Ok? ==> fresh(r.value) && r.value.State() == Build(Arguments(kwargs, true).value).value
    {
      var args := Arguments(kwargs, true);
      if args.Err? {
        return Err(args.error);
      }
      r := New(args.value);
    }
  }
}
