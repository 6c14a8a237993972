# tec: a verified model of the thermionic energy converter logic

`tec` computes the electrical output of a thermionic energy converter (TEC),
a device with a hot emitter electrode and a cooler collector electrode across
a vacuum gap. This project models its logic layer in Dafny:

- how electrodes are validated and converted to SI units;
- the change flag an electrode raises when a motive-affecting field is overwritten;
- the motive table the device caches, and how it is rebuilt;
- the device-level ordering constraints (emitter hotter, higher barrier, nearer the origin);
- which electrode sets the maximum motive, and where;
- when the forward and back currents pass unscaled;
- the accelerating / space-charge-limited / retarding regime dispatch of the
  Langmuir and NEAC (negative-electron-affinity collector) models;
- the NaN, infinity and exception policies of the efficiency calculators;
- the save/restore contract of the `max_value` voltage-maximising decorator.

The repository holds several generations of the same design, and each one is
a module here:

| module | source |
|---|---|
| `Wrappers`, `Physics`, `Ratios` | shared values: Python exceptions as `Result`, NaN as `None`, `np.inf` as `Infinity`; physical constants; the resistance and efficiency policies |
| `DictElectrode` | the dict-based `Electrode` of tec/__init__.py and tec/electrode.py (the two are the same code) |
| `DictTecBase` | the dict-based `TECBase` and `max_value` of tec/__init__.py and tec/base.py |
| `LegacyTec` | the oldest `TEC` class, TEC.py |
| `Metal` | the attrs-style `Metal` electrode of src/tec/electrode.py and tec/electrode/metal.py |
| `SrcBase` | the property-based `TECBase` of src/tec/base.py |
| `SrcTec` | the frozen `TEC` calculator of src/tec/tec.py |
| `SrcModels` | constraints, `Ideal`, `Langmuir` guards and `LLangmuir` dispatch of src/tec/models.py |
| `SpaceCharge` | the `DimensionlessLangmuirPoissonSoln` lookup dispatch and the regime selection shared by the space-charge models |
| `TecLangmuir` | `Langmuir` of tec/models/langmuir.py |
| `Neac` | `NEAC` of src/tec/models/neac.py and `TEC_NEAC` of tec_neac.py |

Objects whose fields the source updates in place are classes. These are
`DictElectrode.Electrode`, `DictTecBase.TECBase`, `LegacyTec.TEC`,
`Metal.Metal`, `SrcBase.TECBase`, `TecLangmuir.Langmuir` and `Neac.NEAC`.
Each mutating method is specified by a function on values, and the
properties are lemmas about those functions. The frozen attrs classes
(src/tec/tec.py, src/tec/models.py) are datatypes with pure functions.

The floating-point numerics are not modelled. `exp`, `log` and fractional
powers are function parameters (`Physics.Exp`, `Physics.Ln`,
`Physics.Power`) that carry only the properties the proofs need:
positivity, monotonicity at 0, `ln(x) >= 0` for `x >= 1`. The outputs of
scipy are parameters too, bounded as scipy's documentation promises:
- the spline values of the Langmuir-Poisson solution are fields of `SpaceCharge.Dps`, and the saturation-point motive is a parameter `>= 0`;
- the `brentq` roots are parameters inside their brackets, `0 < j <= Jsat`;
- `fminbound` is a `DictTecBase.Minimizer`, which returns evaluated trial voltages inside the bounds and the index of the best one.

Energies are reals in the unit each generation uses: joules in the
dict-based code, eV in the attrs-based code.

## Model

| member | source | states |
|---|---|---|
| Ratios.Resistance | TEC.py:169-177 | load resistance is NaN exactly at zero current, and otherwise the ratio that multiplies back to the output voltage |
| Ratios.Efficiency | src/tec/base.py:292-322 | an efficiency is NaN exactly when power is not positive; otherwise it is infinite exactly at zero heat flow, and a finite value times the heat gives the power |
| Ratios.Power | src/tec/base.py:264-273 | a power density is positive iff the current and the voltage have the same strict sign, and zero iff either is zero |
| DictElectrode.Convert | tec/__init__.py:139-168 | a field value is accepted iff it is a number inside the key's bound; non-numbers raise TypeError, out-of-bound numbers ValueError, and every accepted value is admissible |
| DictElectrode.StoredInSIUnits | tec/electrode.py:141-152 | barrier and nea are stored ×1.60217646e-19 (eV→J), position ÷1e6 (µm→m), richardson ×1e4; temp, voltage, emissivity and extra keys are stored unchanged |
| DictElectrode.PopulateFacts | tec/__init__.py:126-128 | the constructor loop stores exactly the listed keys, each as the converted input value, or stops at the first key whose value fails with that key's error |
| DictElectrode.InitKeysMembers | tec/__init__.py:113-124 | the keys the constructor reads are the six required ones plus nea exactly when the input has it |
| DictElectrode.Construct | tec/electrode.py:92-115 | a non-dict raises TypeError, a missing required key KeyError; on success the fields are exactly the required keys plus nea iff given, each the converted input value |
| DictElectrode.Assign | tec/__init__.py:133-176 | on a conversion error nothing changes and that error is raised; otherwise the key is stored and the flag is raised iff it was up or an existing motive-affecting key was overwritten |
| DictElectrode.Reset | tec/__init__.py:178-188 | read-and-clear: returns the flag and leaves it false with the fields untouched |
| DictElectrode.FlagProtocol | tec/electrode.py:155-172 | overwriting emissivity leaves the flag alone, overwriting a present motive key makes the next reset report true, and a second reset right after one reports false |
| DictElectrode.SaturationCurrent | tec/__init__.py:38-40 | the saturation current is never negative, and zero exactly when the temperature or the Richardson constant is 0, which switches the electrode off |
| DictElectrode.VacuumEnergy | tec/__init__.py:207-219 | the vacuum energy is barrier − nea when nea is present, and at most the barrier, equal to it iff nea is absent or zero |
| DictElectrode.BarrierHt | tec/electrode.py:205-209 | the barrier height lies above the barrier iff the voltage is positive and equals it iff the voltage is 0 |
| DictElectrode.BarrierHtFollowsVoltage | tec/electrode.py:205-209 | moving the electrode to another voltage shifts its barrier height by e times the voltage step and leaves the barrier alone |
| DictElectrode.MotiveBc | tec/__init__.py:227-234 | the motive boundary condition is the vacuum energy raised by e·voltage; it lies below the barrier height by exactly the nea (by nothing without one) |
| DictElectrode.Electrode.Empty | tec/electrode.py:92-115 | a new electrode has no fields and a lowered flag |
| DictElectrode.Electrode.New | tec/__init__.py:108-131 | construction fails exactly as `Construct` does; on success the fields are `Construct`'s and the flag is down |
| DictElectrode.Electrode.Set | tec/electrode.py:117-160 | `electrode[key] = v` changes the state exactly as `Assign` says, or raises its error and changes nothing |
| DictElectrode.Electrode.Delete | tec/models/langmuir.py:213-215 | `del electrode[key]` removes the key and leaves the flag alone |
| DictElectrode.Electrode.ParamChangedAndReset | tec/electrode.py:162-173 | returns the flag and clears it, as `Reset` says |
| DictTecBase.ArgMax | tec/__init__.py:414-430 | the chosen index holds a maximum and every earlier entry is strictly smaller (the first maximum wins) |
| DictTecBase.GetMaxMotiveHt | tec/__init__.py:414-430 | the reported maximum is a motive of the table that no entry exceeds; with a position, it is the position of the first entry holding the maximum |
| DictTecBase.MaxMotiveOfElectrodes | tec/base.py:177-193 | the max motive is the larger boundary condition; with a position, a tie gives the emitter's position |
| DictTecBase.BuildTable | tec/base.py:155-167 | the table is built iff the emitter lies before the collector, otherwise the spline raises ValueError; a built table holds both boundary conditions at increasing positions and peaks at the larger one |
| DictTecBase.RefreshError | tec/__init__.py:382-403 | the corrected read raises the spline's ValueError exactly when a change flag is up and the emitter is not before the collector; the read as written can raise KeyError besides (see the tec/__init__.py:375-389 Finding) |
| DictTecBase.Refreshed | tec/__init__.py:375-389 | a read clears both flags and keeps the fields; with no flag up nothing changes (a stale table stays); with a flag up the table afterwards matches the electrodes iff the rebuild succeeds, and is gone otherwise |
| DictTecBase.GetItemAsWritten | tec/__init__.py:375-389 | when the read as written succeeds, both flags are down and the fields are unchanged |
| DictTecBase.RecomputeAsWritten | tec/__init__.py:384-386 | the delete-and-recompute step, when it succeeds, leaves both flags down and the fields unchanged |
| DictTecBase.CalcMotiveAsWritten | tec/__init__.py:391-403 | `calc_motive` as written, when it succeeds, leaves both flags down and the fields unchanged |
| DictTecBase.AsWrittenQuiet | tec/__init__.py:375-389 | with no flag raised, the as-written read changes nothing |
| DictTecBase.AsWrittenFailsWhenBothChanged | tec/__init__.py:375-389 | with both flags raised, the as-written read raises KeyError |
| DictTecBase.AsWrittenAgreesWithRefresh | tec/__init__.py:375-389 | with at most one flag raised and a table cached, the as-written read equals the corrected one, ValueError included |
| DictTecBase.AsWrittenFailsWithoutTable | tec/__init__.py:375-389 | with a flag raised and no table cached (a rebuild failed earlier), the as-written read raises KeyError, where the corrected read rebuilds a matching table once the positions are ordered |
| DictTecBase.MaxMotive | tec/__init__.py:414-430 | the max motive is the larger of the two boundary conditions |
| DictTecBase.EmittedCurrent | tec/__init__.py:457-480 | an emitted current lies in [0, Jsat] and is the full Jsat iff the barrier height reaches the max motive (or Jsat is 0) |
| DictTecBase.ForwardCurrent | tec/base.py:218-228 | forward current lies in [0, emitter Jsat] and is unscaled iff the emitter barrier height is at least the max motive (or Jsat is 0) |
| DictTecBase.BackCurrent | tec/__init__.py:469-480 | back current lies in [0, collector Jsat] and is unscaled iff the collector barrier height is at least the max motive (or Jsat is 0) |
| DictTecBase.OutputCurrent | tec/__init__.py:482-487 | output current is forward minus back, between −collector Jsat and +emitter Jsat |
| DictTecBase.Spacing | tec/__init__.py:432-436 | the spacing is positive iff the emitter lies before the collector, which is exactly when the motive table can be built |
| DictTecBase.OutputVoltage | tec/__init__.py:438-442 | the output voltage less the contact potential, times e, is the rise from the emitter's barrier height to the collector's; it exceeds the contact potential iff the collector's barrier height is the higher |
| DictTecBase.ContactPotential | tec/__init__.py:444-453 | the contact potential times e is the barrier difference; it is positive iff the emitter's barrier is higher and zero iff the barriers are equal |
| DictTecBase.OutputPower | tec/__init__.py:490-494 | power is positive iff the output current and voltage have the same strict sign, and zero iff either is zero |
| DictTecBase.LoadResistance | tec/__init__.py:497-507 | load resistance is NaN exactly at zero output current, and otherwise times the current gives the output voltage |
| DictTecBase.CarnotEfficiency | tec/base.py:270-277 | raises ZeroDivisionError exactly at emitter temperature 0; otherwise at most 1, negative iff the collector is hotter, zero iff equal temperatures |
| DictTecBase.BlackBodyHeat | tec/__init__.py:574-582 | radiated heat is positive iff the emitter is hotter and zero iff the temperatures are equal |
| DictTecBase.ElectronicHeat | tec/__init__.py:559-572 | with no back current and a non-negative max motive the electronic heat is not negative; with neither current flowing it is zero |
| DictTecBase.RadiationEfficiency | tec/__init__.py:518-528 | NaN exactly when output power is not positive; otherwise infinite iff the temperatures are equal, and positive iff the emitter is hotter |
| DictTecBase.ElectronicEfficiency | tec/base.py:290-299 | NaN exactly when output power is not positive; otherwise infinite iff the electronic heat is zero |
| DictTecBase.TotalEfficiency | tec/__init__.py:545-557 | NaN exactly when output power is not positive; otherwise infinite iff the summed heat flows are zero |
| DictTecBase.PlainValue | tec/__init__.py:272-273 | the undecorated call raises ValueError iff the refresh does, KeyError iff no flag is up and no table is left; a stale table with both flags down is read as it is, and a coherent device gives the calculator on the current fields |
| DictTecBase.SearchHi | tec/__init__.py:258-260 | the upper search bound (summed barriers in volts above the emitter voltage) is never below the lower bound, the emitter voltage |
| DictTecBase.Searched | tec/base.py:32-37 | the search evaluates at least one trial, every trial inside [lo, hi] |
| DictTecBase.SearchedIsBest | tec/__init__.py:283-289 | the optimizer's returned voltage gives the calculator a value no trial exceeds |
| DictTecBase.OutcomeOfSearch | tec/__init__.py:264-281 | "max" reports the maximum, "voltage" the argmax, "full" the optimizer output, and the collector ends at its saved voltage unless `set_voltage` |
| DictTecBase.TECBase.Of | tec/__init__.py:344-360 | a device starts with the given electrodes and no table |
| DictTecBase.TECBase.New | tec/__init__.py:344-360 | a non-dict raises TypeError, a missing Emitter or Collector KeyError, then the emitter's and then the collector's Electrode error; with both built, ValueError iff the emitter is not before the collector; on success fresh electrodes, flags down and a matching table |
| DictTecBase.TECBase.CalcMotive | tec/base.py:155-167 | stores the table of the current electrodes, or raises the spline's ValueError and leaves the table as it was |
| DictTecBase.TECBase.RefreshCache | tec/__init__.py:382-389 | from any state, stale table included, the device becomes `Refreshed` of the old one and the error is `RefreshError`'s |
| DictTecBase.TECBase.GetItem | tec/__init__.py:375-389 | a read refreshes as `Refreshed` says; it raises ValueError when the rebuild fails, and otherwise returns the emitter, the collector or the cached table, with KeyError for other keys or a missing table |
| DictTecBase.TECBase.SetElectrode | tec/__init__.py:362-373 | assigning Emitter or Collector builds a new electrode from the input, or raises its error and changes nothing; the table is left alone |
| DictTecBase.TECBase.SetCollectorVoltage | tec/__init__.py:287 | the refreshing read comes first and may raise as `RefreshError` says; then only the collector voltage changes and its flag is raised |
| DictTecBase.TECBase.Objective | tec/__init__.py:283-289 | ValueError iff the emitter is not before the collector; otherwise the device is freshly evaluated with the collector at the trial voltage and the result is minus the calculator there |
| DictTecBase.TECBase.Trials | tec/base.py:37-37 | ValueError iff the emitter is not before the collector; otherwise the collector is left at the last trial voltage and the result is minus the calculator at the best one |
| DictTecBase.TECBase.RunSearch | tec/base.py:27-45 | ValueError iff the emitter is not before the collector; otherwise the best trial is reported, and the collector is back at its saved voltage (flag raised) unless `set_voltage` |
| DictTecBase.TECBase.SearchMax | tec/base.py:27-55 | ValueError iff the emitter is not before the collector; otherwise `MaxValueOutcome`: result in bounds, maximal among trials, reported per action, collector restored unless `set_voltage` |
| DictTecBase.TECBase.MaxValue | tec/__init__.py:237-289 | with an action other than max/voltage/full the plain calculator value of `PlainValue`, after one refresh, from any state; otherwise ValueError iff the positions are unordered, else `MaxValueOutcome` holds and the emitter is untouched |
| LegacyTec.CheckConstraints | TEC.py:73-107 | no check until an electrode is stored; then an Emitter colder than or after the stored Collector (or a Collector hotter than or before the Emitter) raises ValueError, and a missing counterpart KeyError |
| LegacyTec.Store | TEC.py:46-59 | an electrode build error or a constraint error is raised; otherwise the electrode is stored under the key |
| LegacyTec.StorePreservesOrder | TEC.py:73-107 | every successful store keeps the emitter at least as hot as, and not after, the collector |
| LegacyTec.FirstElectrodeUnchecked | TEC.py:92 | the first electrode stored into an empty TEC is accepted whenever it builds |
| LegacyTec.Init | TEC.py:23-44 | anything but a plain dict raises TypeError, a missing Emitter KeyError; a built TEC holds exactly the two built electrodes, in order |
| LegacyTec.TEC.New | TEC.py:23-44 | construction fails exactly as `Init` does; on success it holds `Init`'s electrodes |
| LegacyTec.TEC.SetItem | TEC.py:46-59 | on an error nothing is stored; otherwise the state becomes `Store`'s, and the ordering invariant is kept |
| LegacyTec.MaxMotiveHeight | TEC.py:254-277 | the max motive height of the all-ones placeholder motive is 1 |
| LegacyTec.Boltzmann | TEC.py:132-154 | ZeroDivisionError iff the temperature is 0, OverflowError iff the exponent exceeds the range of `math.exp`; otherwise positive, and below 1 at a positive temperature iff the energy is positive; a non-negative energy at a positive temperature never overflows |
| LegacyTec.Exponent | TEC.py:132-154 | at a positive temperature the exponent −x/kT is negative iff the energy x is positive, and zero iff it is zero |
| LegacyTec.ForwardCurrent | TEC.py:132-142 | unscaled saturation current when the barrier height reaches the max motive; otherwise ZeroDivisionError at temperature 0 or OverflowError beyond `math.exp`'s range, never at a positive temperature, and then within [0, Jsat] |
| LegacyTec.BackCurrent | TEC.py:144-154 | unscaled collector saturation current when its barrier height reaches the max motive; otherwise ZeroDivisionError at 0 K or OverflowError once the output voltage exceeds the excess by enough; below Jsat iff the excess over the output voltage is positive |
| LegacyTec.OutputCurrent | TEC.py:156-160 | output current exists iff both currents do, and is forward minus back |
| LegacyTec.Spacing | TEC.py:109-113 | the spacing is zero iff the electrodes share a position, and never negative between the electrodes of an ordered TEC |
| LegacyTec.ContactPotential | TEC.py:121-130 | the contact potential times the electron charge is the barrier-height difference; it is positive iff the emitter's barrier height is higher and zero iff they are equal |
| LegacyTec.OutputPower | TEC.py:162-167 | a current error propagates; otherwise power is positive iff current and voltage have the same strict sign, and zero iff either is zero |
| LegacyTec.LoadResistance | TEC.py:169-177 | a current error propagates; otherwise the load resistance is NaN exactly at zero current, and else the value that times the current gives the output voltage |
| LegacyTec.CarnotEfficiency | TEC.py:289-296 | raises exactly at emitter temperature 0; otherwise negative iff the collector is hotter |
| LegacyTec.BlackBodyHeat | TEC.py:353-360 | with equal positive emissivities and non-negative temperatures, radiated heat is positive iff the emitter is hotter and zero iff the temperatures are equal |
| LegacyTec.EqualEmissivitySign | TEC.py:353-360 | for one positive emissivity the weighted fourth-power difference has the sign of the temperature difference |
| LegacyTec.ElectronicHeat | TEC.py:338-351 | the forward current's error comes first, then the back current's; without back current, a non-negative forward current from an emitter at non-negative temperature gives a non-negative heat flow |
| LegacyTec.RadiationEfficiency | TEC.py:298-308 | a current error propagates; NaN exactly when output power is not positive; with positive power ZeroDivisionError iff the radiated heat is 0, otherwise the ratio that times the radiated heat gives the power |
| LegacyTec.ElectronicEfficiency | TEC.py:310-323 | a current error propagates; NaN exactly when output power is not positive; with positive power ZeroDivisionError iff the electronic heat is 0, otherwise the ratio that times the electronic heat gives the power |
| LegacyTec.TotalEfficiency | TEC.py:325-336 | a current error propagates; NaN exactly when output power is not positive; with positive power ZeroDivisionError iff the summed heat is 0, otherwise the ratio that times the summed heat gives the power |
| Metal.Check | src/tec/electrode.py:40-45 | a value is accepted iff it is a number within the property's bound; non-numbers raise TypeError, out-of-bound numbers ValueError |
| Metal.BoundedIsAllInBounds | src/tec/electrode.py:40-45 | a snapshot is bounded iff every property lies within its bound |
| Metal.BuildFacts | tec/electrode/metal.py:32-38 | building succeeds iff every argument passes its check, then holds exactly the arguments; otherwise the first failing check's error is raised |
| Metal.Arguments | src/tec/electrode.py:47-53 | missing temp or barrier raises TypeError, as does an unknown keyword unless extras are accepted; otherwise given values are used and defaults fill the rest |
| Metal.DefaultsAdmissible | tec/electrode/metal.py:32-38 | every default is admissible: richardson 120, voltage, position and emissivity 0 |
| Metal.Items | tec/electrode/metal.py:40-59 | iteration yields `__class__` first (then `__version__` in this generation) and every property exactly once, with distinct names |
| Metal.FromDictOfItems | src/tec/electrode.py:55-93 | `from_dict(dict(metal))` rebuilds the same metal |
| Metal.Motive | src/tec/electrode.py:98-109 | the motive is the barrier at zero voltage and exceeds the barrier iff the voltage is positive |
| Metal.CurrentDensity | tec/electrode/metal.py:76-98 | current density is never negative, and zero iff temperature or Richardson constant is 0 |
| Metal.EnergyFlux | src/tec/electrode.py:137-154 | energy flux is never negative, and zero iff the current density is |
| Metal.Metal.Empty | src/tec/electrode.py:47-53 | a blank metal before its fields are assigned |
| Metal.Metal.Set | src/tec/electrode.py:40-45 | assigning a property stores it if it passes its check and otherwise raises and changes nothing |
| Metal.Metal.New | tec/electrode/metal.py:32-38 | construction fails exactly as `Build` does, otherwise holds `Build`'s snapshot |
| Metal.Metal.FromDict | src/tec/electrode.py:55-66 | `from_dict` is the constructor over the dict's keywords, ignoring extra keys |
| SrcBase.TECBase.Of | src/tec/base.py:66-68 | the device holds the given electrodes |
| SrcBase.TECBase.New | src/tec/base.py:66-68 | construction raises TypeError unless both arguments are Metal |
| SrcBase.TECBase.SetEmitter | src/tec/base.py:43-52 | a non-Metal raises TypeError and the emitter is unchanged; a Metal becomes the emitter; the collector never changes |
| SrcBase.TECBase.SetCollector | src/tec/base.py:54-63 | a non-Metal raises TypeError and the collector is unchanged; a Metal becomes the collector; the emitter never changes |
| SrcBase.Lerp | src/tec/base.py:136-138 | linear interpolation stays between the end values and hits them at both ends |
| SrcBase.Interpolate | src/tec/base.py:123-140 | the spline succeeds iff the position lies within the electrodes' span, else ValueError; the value lies between the end motives and matches them at the ends |
| SrcBase.Motive | src/tec/base.py:123-140 | the motive exists iff the electrodes are in increasing order and the position lies in the gap, else ValueError; it lies between the two electrode motives |
| SrcBase.MaxMotivePosition | src/tec/base.py:158-170 | the position is an electrode's, and for ordered electrodes the motive there is the max motive |
| SrcBase.MaxMotive | src/tec/base.py:143-155 | the max motive is one of the two motives and at least both |
| SrcBase.MaxMotiveOfProfile | src/tec/base.py:158-170 | the motive at `max_motive_position` is the max motive, no position has a higher motive, and a tie goes to the collector's position |
| SrcBase.Spacing | src/tec/base.py:174-181 | the spacing is positive iff the motive profile can be built |
| SrcBase.OutputVoltage | src/tec/base.py:184-191 | the output voltage less the contact potential is the rise of the motive from the emitter to the collector |
| SrcBase.ContactPotential | src/tec/base.py:194-209 | the contact potential is positive iff the emitter's barrier is higher, and at equal voltages it is the motive difference |
| SrcBase.Attenuation | src/tec/base.py:219-225 | the scaling factor for a positive excess lies in [0, 1) and is positive iff the temperature is |
| SrcBase.Emitted | src/tec/base.py:212-251 | an emitted current lies in [0, J], is the full J iff the max motive does not exceed the electrode's motive (or J is 0), and is positive iff J is |
| SrcBase.ForwardCurrent | src/tec/base.py:212-230 | forward current lies in [0, emitter J] and is unscaled iff the emitter's motive is the larger (or J is 0) |
| SrcBase.BackCurrent | src/tec/base.py:233-251 | back current lies in [0, collector J] and is unscaled iff the collector's motive is the larger (or J is 0) |
| SrcBase.OutputCurrent | src/tec/base.py:254-261 | output current lies between −collector J and +emitter J |
| SrcBase.OutputPower | src/tec/base.py:264-273 | power is positive iff the output current and voltage have the same strict sign, and zero iff either is zero |
| SrcBase.SaturationRegimes | src/tec/base.py:212-251 | with equal motives both currents pass unscaled |
| SrcBase.CarnotAsWritten | src/tec/base.py:277-289 | as written, AttributeError iff the collector is hotter; otherwise NaN iff the emitter is at 0 K |
| SrcBase.CarnotAsWrittenRaises | src/tec/base.py:277-289 | with the collector hotter, the code as written raises AttributeError |
| SrcBase.CarnotEfficiency | src/tec/base.py:277-289 | NaN iff the collector is hotter or the emitter is at 0 K; otherwise in [0, 1], 0 iff equal temperatures, 1 iff the collector is at 0 K |
| SrcBase.CarnotAgrees | src/tec/base.py:277-289 | wherever the code as written returns, it returns the corrected value; where it raises, the corrected value is NaN |
| SrcBase.Cooling | src/tec/base.py:344-367 | with no back current and the max motive above the emitter's, the cooling rate is not negative |
| SrcBase.ElectronCoolingRate | src/tec/base.py:344-367 | with no back current the electron cooling rate is not negative |
| SrcBase.CoolingEnergyIsBarrierPlusExcess | src/tec/base.py:360-363 | the energy each electron carries away is the emitter barrier plus the max motive's excess over the emitter motive, never below the barrier |
| SrcBase.ThermalRadRate | src/tec/base.py:370-392 | radiation is zero iff an emissivity is zero or the temperatures are equal, and positive iff both emissivities are and the emitter is hotter |
| SrcBase.HeatSupplyRate | src/tec/base.py:325-341 | with no back current the heat supply is at least the radiated heat |
| SrcBase.HeatSupplyNonNegative | src/tec/base.py:325-341 | without back current and with the emitter the hotter plate, the heat supply is not negative |
| SrcBase.Efficiency | src/tec/base.py:292-322 | NaN iff output power is not positive; otherwise infinite iff the heat supply is zero |
| SrcTec.NewAsWritten | src/tec/tec.py:62-68 | the frozen class as written raises AttributeError in `__attrs_post_init__` for every model |
| SrcTec.New | src/tec/tec.py:56-68 | a TEC takes exactly the model's emitter, collector, max motive, its position and `back_emission` |
| SrcTec.ForwardCurrent | src/tec/tec.py:106-122 | forward current lies in [0, emitter J] and is unscaled iff the max motive does not exceed the emitter's (or J is 0) |
| SrcTec.BackCurrentAsWritten | src/tec/tec.py:124-140 | the back current as written lies in [0, collector J] and is positive iff J is, whatever `back_emission` says |
| SrcTec.BackCurrentIgnoresFlag | src/tec/tec.py:124-140 | a model without back emission still gets a positive back current as written |
| SrcTec.BackCurrent | src/tec/tec.py:47-51 | the back current is 0 without back emission, and the as-written value with it |
| SrcTec.OutputCurrent | src/tec/tec.py:142-147 | output current lies between −collector J and +emitter J, and without back emission is the forward current |
| SrcTec.OutputPower | src/tec/tec.py:149-155 | power is positive iff current and voltage have the same strict sign; without back emission, iff the emitter sends current against a positive output voltage |
| SrcTec.CarnotEfficiency | src/tec/tec.py:159-166 | NaN exactly at emitter temperature 0; otherwise at most 1, negative iff the collector is hotter, 0 iff equal temperatures |
| SrcTec.ElectronCoolingRate | src/tec/tec.py:237-261 | without back emission and with the max motive above the emitter's, the cooling rate is not negative |
| SrcTec.ThermalRadiationRate | src/tec/tec.py:263-289 | radiation is zero iff an emissivity is zero or the temperatures are equal, and positive iff both emissivities are and the emitter is hotter |
| SrcTec.HeatSupplyRate | src/tec/tec.py:215-235 | without back emission and with the stored max motive at least the emitter's, the heat supply is at least the radiated heat |
| SrcTec.Efficiency | src/tec/tec.py:168-213 | NaN iff output power is not positive; otherwise infinite iff the heat supply is zero |
| SrcModels.DefaultConstraints | src/tec/models.py:15-36 | no violation iff the emitter is hotter, has the higher barrier and lies before the collector; otherwise the first failing check is reported |
| SrcModels.NewIdeal | src/tec/models.py:82-93 | building an Ideal raises ValueError exactly on a constraint violation and otherwise keeps the electrodes and `back_emission` |
| SrcModels.ConstructedIdealIsOrdered | src/tec/models.py:82-93 | a constructed Ideal has positive spacing, positive contact potential and a hotter emitter |
| SrcModels.IdealMaxMotive | src/tec/models.py:185-192 | the Ideal's max motive is one of the two motives and at least both |
| SrcModels.IdealMaxMotivePosition | src/tec/models.py:195-205 | the position is the emitter's iff its motive is strictly larger, else the collector's |
| SrcModels.IdealMaxMotiveOfProfile | src/tec/models.py:185-205 | the Ideal agrees with the base class's max motive, and no position of its motive exceeds it |
| SrcModels.IdealMotive | src/tec/models.py:82-92 | the motive spline exists only inside an ordered gap, else ValueError, and never exceeds the max motive there |
| SrcModels.CopyOfConstructed | src/tec/models.py:208-214 | copying a constructed Ideal yields an equal Ideal |
| SrcModels.Copy | src/tec/models.py:208-214 | copying re-runs the constraint checks: ValueError iff one fails, and otherwise the copy equals the original |
| SrcModels.IdealView | src/tec/models.py:185-205 | what a TEC sees of an Ideal is its electrodes, `back_emission`, max motive and position |
| SrcModels.FromArgs | src/tec/models.py:95-182 | an emitter build error is raised first, then a collector one, then a constraint violation; otherwise the result wraps the Ideal of the two metals in the corrected TEC of the src/tec/tec.py:62-68 Finding (as written, building that TEC always raises) |
| SrcModels.FromArgsRoutesArguments | src/tec/models.py:162-178 | a built TEC's emitter and collector hold exactly the numbers passed (or defaulted) for them, each in the property of its name |
| SrcModels.FromArgsDefaults | src/tec/models.py:104-110 | with defaults, the emitter sits at voltage 0 and position 0, and both electrodes have emissivity 1 and Richardson 120 |
| SrcModels.FromArgsAgreesWithBase | src/tec/models.py:180-182 | the TEC built from arguments has bounded electrodes and the base class's forward current |
| SrcModels.NewLangmuir | src/tec/models.py:263-265 | building a Langmuir raises ValueError exactly on a constraint violation and never has back emission |
| SrcModels.NormalizationLength | src/tec/models.py:326-364 | a negative current density raises ValueError, 0 gives infinity, and a positive one at a positive temperature gives a finite positive length |
| SrcModels.CriticalTarget | src/tec/models.py:447-472 | the target raises ValueError for a current density below 0 or above the emitter's, and uses an infinite motive at 0 |
| SrcModels.CriticalTargetInRange | src/tec/models.py:447-472 | inside (0, J] the target is defined whenever the spline is, at a motive ln(J/j) that is never negative |
| SrcModels.LLangmuirMaxMotive | src/tec/models.py:683-713 | the emitter motive when accelerating, the collector's when retarding, at least the emitter's when space-charge limited, and equal to it at the saturation current |
| SrcModels.NoBackEmission | src/tec/models.py:742-749 | the back current of LLangmuir is 0, and so is a Langmuir-backed TEC's |
| SpaceCharge.Position | src/tec/models.py:558-587 | TypeError for a non-string branch, NaN for a negative motive, the lhs spline for a finite motive in [0, 18.7] and the left end above it, KeyError for an unknown branch, the rhs spline on rhs |
| SpaceCharge.LeftBranchSaturates | tec/models/langmuir.py:92-93 | every lhs motive above 18.7, or infinite, gives the same position |
| SpaceCharge.MotiveAt | tec/models/langmuir.py:97-108 | the motive is NaN exactly left of −2.55389, the lhs spline up to 0 and the rhs spline beyond |
| SpaceCharge.RegimeOf | src/tec/models.py:662-679 | accelerating iff V < Vsat, retarding iff V ≥ Vsat and V > Vcrit, space-charge limited iff Vsat ≤ V ≤ Vcrit |
| SpaceCharge.RegimeMonotone | src/tec/models.py:662-679 | raising the voltage never moves back a regime |
| SpaceCharge.SpaceChargeBarrier | src/tec/models.py:709-711 | kT ln(Jsat/J) is never negative and zero iff kT is 0 or J = Jsat |
| SpaceCharge.MaxMotiveOf | src/tec/models.py:683-713 | the emitter level when accelerating, the collector's when retarding, at least the emitter's (equal iff no barrier) when space-charge limited |
| SpaceCharge.SaturationEndIsEmitterLevel | src/tec/models.py:683-713 | at V = Vsat and saturation current the max motive is the emitter's |
| TecLangmuir.WithoutNea | tec/models/langmuir.py:213-215 | removing nea keeps every other field and its value, and keeps the fields valid |
| TecLangmuir.SaturationCurrentIgnoresNea | tec/models/langmuir.py:213-215 | deleting nea does not change the saturation current |
| TecLangmuir.SaturationPoint | tec/models/langmuir.py:283-298 | ZeroDivisionError exactly for a 0 K emitter; otherwise the emitter's Jsat at a voltage at most the contact potential, equal iff the motive is 0 |
| TecLangmuir.CriticalPoint | tec/models/langmuir.py:300-317 | the critical point carries the root current at a voltage at least the contact potential, equal iff the root is Jsat |
| TecLangmuir.MotiveDataOf | tec/models/langmuir.py:207-237 | the table holds both points; the max motive is the emitter bc when accelerating, the collector's when retarding, at least the emitter's when space-charge limited |
| TecLangmuir.PointsOrdered | tec/models/langmuir.py:225-237 | Vsat ≤ contact potential ≤ Vcrit, so the regime moves forward as the voltage rises |
| TecLangmuir.MaxMotiveAboveEmitter | tec/models/langmuir.py:225-237 | the max motive is never below the emitter's barrier height, and the retarding branch picks a collector above it |
| TecLangmuir.BackCurrentDensity | tec/models/langmuir.py:168-175 | the back current is always 0 |
| TecLangmuir.OutputCurrentDensity | tec/models/langmuir.py:127 | the output current with back emission ignored, as the class documents: the emitter's current over the stored max motive, in [0, Jsat], unscaled iff the emitter's barrier height reaches the max motive |
| TecLangmuir.OutputCurrentAsWritten | tec/__init__.py:482-487 | the inherited calculation subtracts the collector's emission over the stored max motive: between −collector Jsat and +emitter Jsat, never above the documented value, and equal to it iff the collector's Jsat is 0 |
| TecLangmuir.BackEmissionNotIgnored | tec/models/langmuir.py:168-175 | with a hot collector of positive Richardson constant, the inherited output current is strictly below the documented one in every regime |
| TecLangmuir.AcceleratingDeliversSaturation | tec/models/langmuir.py:225-227 | in the accelerating regime the documented output current, back emission ignored, is the full saturation current |
| TecLangmuir.Langmuir.Of | tec/base.py:108-124 | a model starts with the given electrodes and no table until `calc_motive` fills it |
| TecLangmuir.Langmuir.New | tec/__init__.py:344-360 | a non-dict raises TypeError, a missing Emitter or Collector KeyError, then the emitter's and the collector's Electrode errors; the constructor's `calc_motive` then raises ZeroDivisionError iff the emitter is at 0 K; on success fresh electrodes without nea, flags down, and the table `MotiveDataOf` them |
| TecLangmuir.Langmuir.CalcMotive | tec/models/langmuir.py:207-237 | deletes nea from both electrodes without raising their flags; then ZeroDivisionError for a 0 K emitter, leaving a table that holds only the solver, or else stores `MotiveDataOf` the remaining fields |
| TecLangmuir.Langmuir.GetMaxMotiveHt | tec/models/langmuir.py:268-281 | reads through the refreshing `__getitem__`: with no flag up nothing changes and the stored max motive is returned, or KeyError for a solver-only table; with a flag up both flags drop and the table is rebuilt, raising ZeroDivisionError iff the emitter is at 0 K and otherwise returning the new max motive, never below the emitter's barrier height |
| Neac.SaturationPoint | src/tec/models/neac.py:106-133 | the contact-potential short circuit within the space-charge boundary; beyond it ZeroDivisionError for a 0 K emitter, and otherwise a voltage at most CP + χC/e, equal iff the motive is 0 |
| Neac.SaturationContinuous | src/tec/models/neac.py:127-130 | when motive·kT equals the collector's nea, the saturation voltage is the contact potential |
| Neac.VirtCriticalPoint | src/tec/models/neac.py:135-156 | the short circuit within the boundary; beyond it the root current, at a voltage at least the contact potential, equal to it at Jsat |
| Neac.VirtCriticalAsWrittenJumps | tec_neac.py:174-176 | the older code's undivided voltage misses the contact potential at Jsat where the corrected one meets it |
| Neac.VirtCriticalVoltageAsWritten | tec_neac.py:170-176 | the older code's virtual critical voltage is the electron charge times the Langmuir critical voltage, so joules where volts are meant |
| Neac.MotiveDataOf | src/tec/models/neac.py:56-83 | the table holds the boundary distance and both points; the max motive is the emitter's barrier height when accelerating, the collector's when retarding, at least the emitter's otherwise |
| Neac.MaxMotiveAboveEmitter | tec_neac.py:96-110 | the max motive is never below the emitter's barrier height, and the retarding branch picks a collector above it |
| Neac.NoSpaceChargeInsideSurface | tec_neac.py:130-179 | within the boundary both points are the short circuit, so the max motive is the emitter's below the contact potential and the collector's above it |
| Neac.NEAC.Of | tec/base.py:108-124 | a model starts with the given electrodes and no table until `calc_motive` fills it |
| Neac.NEAC.New | tec/__init__.py:344-360 | the same construction errors in the same order, then KeyError iff the collector has no nea and ZeroDivisionError iff the emitter is at 0 K; on success fresh electrodes, flags down, nea in the collector and the table `MotiveDataOf` them |
| Neac.NEAC.CalcMotive | src/tec/models/neac.py:56-103 | KeyError iff the collector has no nea, then ZeroDivisionError iff the emitter is at 0 K, each leaving a table that holds only the solver; otherwise stores `MotiveDataOf` |
| Neac.NEAC.GetMaxMotiveHt | tec/models/langmuir.py:268-281 | as for Langmuir, over the NEAC table: with a flag up both flags drop and the rebuild raises KeyError or ZeroDivisionError as `calc_motive` does, otherwise it returns the new max motive, never below the emitter's barrier height |

## Left out

- Floating point: all reals are exact. NaN is `None`, `np.inf` is `Infinity`, and rounding is not modelled.
- `exp`, `log`, `sqrt` and `x**(3/4)` are parameters with only positivity and monotonicity properties. The Stefan–Boltzmann constant is a positive constant, astropy's `sigma_sb` and the source's `Sigma0` alike.
- scipy: `odeint`, the splines, `brentq` and `fminbound` are parameters or oracle types with their documented bounds. A `brentq` that fails to bracket a root is not modelled.
- The Langmuir and NEAC code reads the electrodes through nested `__getitem__` refreshes inside `calc_motive`. The model computes from the fields directly, and every refresh before a read of `motive_data` follows the corrected `__getitem__` of the tec/__init__.py:375-389 Finding.
- Plotting (`plot_motive`, the artists), `__repr__`, photon flux and photon energy flux are display or radiometry, not logic.
- Semiconductor, radioisotope and tunnel-barrier electrodes, serialisation and `tec/utils` are outside this model.
- `iterelectrodes` and `iterelectrodesdicts` of src/tec/base.py, and `__iter__` of the device, are left out. They only re-list electrodes already modelled.
- src/tec/base.py is written in Python 2 syntax. Its logic is modelled as it reads.
- tec/base.py is a `TECBase(object)` that calls `dict.__setitem__`, uses an `Electrode` it never imports and calls `calc_saturation_current_density`. It is modelled as the dict class of tec/__init__.py, which evidently is what it copies.
- src/tec/models.py and src/tec/tec.py read `temperature` and call `copy()` on Metal, which src/tec/electrode.py lacks. These are modelled as `temp` and a value copy. `Langmuir` there also uses names it never imports.
- src/tec/tec.py calls `max_motive()` on a stored value. It is modelled as reading that value.
- tec/models/langmuir.py uses `physical_constants` without importing it. It and src/tec/models/neac.py (lines 82, 99, 116-118, 145-150, 170 and 187) call a nonexistent `calc_saturation_current_density`. These are modelled as the package constants and `calc_saturation_current`.
- The two NEAC files are modelled by one class. Where they differ, the newer src/tec/models/neac.py is modelled, and the difference is a Finding.
- TEC.py's electrode type (Electrode.py) and constants (Constants.py) do not parse. Electrodes are a record built by a `Builder` parameter, and constants are a parameter record.
- TEC.py:34 compares two `None`s and never fires. The KeyError comes from reading the missing key, which the model does.
- Python's `is` comparisons are modelled as equality. These are `set_voltage is True` in `max_value`, `key is "barrier"` and the other unit keys at tec/__init__.py:154-166, and `branch is "lhs"` in the space-charge lookup. Identity of equal string literals is a CPython implementation detail.
- The dict code has two electron-charge constants (1.60217646e-19 for conversion, scipy's value for energies). Physics keeps both.
- An `nea` set for the first time, or an electrode replaced through `__setitem__`, raises no change flag, so the cached table can go stale with both flags down. The device methods accept that state and, as the source does, read the stale table until a flag is raised again.
- SrcTec.CarnotEfficiency: a zero emitter temperature with a warmer collector gives −inf in numpy. It is modelled as NaN, like 0/0.
- SrcBase.Interpolate: equal electrode positions make scipy raise while building the spline. This is modelled as ValueError for every position.
- DictTecBase.RadiationEfficiency: a zero heat flow with positive power is modelled as infinity (numpy division). With plain Python floats the source would raise ZeroDivisionError. The same holds for DictTecBase.ElectronicEfficiency and DictTecBase.TotalEfficiency.
- DictTecBase.TECBase.MaxValue: the wrapped calculator returns a real. Wrapping `calc_total_efficiency`, which can return NaN or inf, is not modelled; its own policy is `DictTecBase.TotalEfficiency`.
- TecLangmuir.Langmuir.CalcMotive: a hot emitter with Richardson constant 0 is excluded (`TecLangmuir.RootsFit`). Its saturation current is 0, so the critical-point root finder has an empty bracket, and `brentq` failures are not modelled. The same holds for TecLangmuir.Langmuir.New and TecLangmuir.Langmuir.GetMaxMotiveHt.
- Neac.NEAC.CalcMotive: a hot emitter with Richardson constant 0 is excluded (`Neac.RootsFit`). numpy then makes `calc_spclmbs_max_dist` infinite rather than raising, and the root finders' brackets are empty; `brentq` failures are not modelled. A 0 K emitter is modelled: the Python float division raises ZeroDivisionError. The same holds for Neac.NEAC.New and Neac.NEAC.GetMaxMotiveHt.
- The order in which `find_PhysicalProperty` searches is not modelled. It is unseen library code.
- SrcModels.FromArgs: as written, `from_args` (src/tec/models.py:162-178) passes `temperature=` to `electrode.Metal`, whose `__init__` (src/tec/electrode.py:47) requires `temp`, so every call raises TypeError. The model passes the value as `temp`, the evidently intended reading.
- SrcModels.LLangmuirMaxMotive: `class LLangmuir():` (src/tec/models.py:605) has no base class, yet `max_motive` calls `output_voltage`, `saturation_point_voltage`, `critical_point_voltage` and the two point current densities, which only `Langmuir` (src/tec/models.py:368-432) defines, so it raises AttributeError as written. The model takes the evidently intended subclass of `Langmuir`; the same holds for SrcModels.NoBackEmission.
- src/tec/tec.py:53-55 annotates fields with `tec.models.Ideal` and `tec.electrode.Metal` without importing `tec`, so the class body raises NameError as written. The model reads the annotations as documentation.
- src/tec/electrode.py uses `PhysicalProperty` (lines 40-45) and `find_PhysicalProperty` (line 86) without importing them, so the module raises NameError as written. The model takes them from the `physicalproperty` package that tec/electrode/metal.py:6 imports; `Metal.Check` models its bounds.
- SrcModels.Defaulted, Metal.Build and Metal.DictOf carry no contract of their own: SrcModels.FromArgsDefaults, Metal.BuildFacts and Metal.DictOfDistinct with Metal.FromDictOfItems state their properties. LegacyTec.OutputVoltage is stated through LegacyTec.BackCurrent.

## Findings

| source | as written | input that shows it | evidently intended | confidence | as-written member | corrected member |
|---|---|---|---|---|---|---|
| tec/__init__.py:375-389 | `__getitem__` deletes `motive_data` once per raised flag and then calls `calc_motive`, which reads through `__getitem__` again | after both electrodes' motive fields are overwritten, read `tec["Emitter"]`: the nested read deletes the already-deleted key and raises KeyError; also, once a rebuild has failed on unordered positions (dropping the table), repair one position and read again: the first `del` finds no key and raises KeyError | clear both flags, then rebuild the table once | not executed | DictTecBase.AsWrittenFailsWhenBothChanged, DictTecBase.AsWrittenFailsWithoutTable | DictTecBase.TECBase.GetItem |
| src/tec/base.py:277-289 | `carnot_efficiency` returns `np.NaN.decompose()` when the collector is hotter | emitter 300 K, collector 1000 K: a float has no `decompose`, so AttributeError | return NaN | not executed | SrcBase.CarnotAsWrittenRaises | SrcBase.CarnotEfficiency |
| tec_neac.py:174-176 | the virtual critical voltage is φE − φC + kT ln(Jsat/J) in joules, not divided by e | barriers 1 eV and 0.8 eV at J = Jsat give about 3.2e-20 instead of 0.2 V | divide by the electron charge, as src/tec/models/neac.py:150-153 does | not executed | Neac.VirtCriticalAsWrittenJumps | Neac.VirtCriticalPoint |
| src/tec/tec.py:62-68 | the frozen attrs class assigns its fields in `__attrs_post_init__` | any model: the first assignment raises FrozenInstanceError | copy the model's fields once | not executed | SrcTec.NewAsWritten | SrcTec.New |
| src/tec/tec.py:124-140 | `back_current_density` ignores `back_emission`, unlike the docstring at src/tec/tec.py:47-51 | `back_emission` False, collector 300 K, 0.8 eV, Richardson 120, max motive 2 eV: a positive back current | 0 without back emission | not executed | SrcTec.BackCurrentIgnoresFlag | SrcTec.BackCurrent |
| tec/models/langmuir.py:168-175 | `Langmuir` defines `back_current_density`, a name the inherited `calc_output_current_density` (tec/__init__.py:482-487) never calls; that method subtracts `calc_back_current_density`, the collector's emission over the max motive | a retarding Langmuir device whose collector is at 300 K with barrier 0.8 eV and Richardson constant 10 A/(cm² K²): the output current loses the collector's full saturation current | ignore back emission, as the class docstring at tec/models/langmuir.py:127 says | not executed | TecLangmuir.BackEmissionNotIgnored | TecLangmuir.OutputCurrentDensity |
