/** The `Modifiers` component: one slot per modifier type holding a
    configured range and a current value that every write clamps into that
    range, plus the mapping from configuration keys to slots. */
module Modifiers {
  import opened Types

  /** `ModifierType`: the modifier kinds, one array slot each. */
  datatype ModifierType = Oxygen

  /** The slot of a type: `(int)type`. */
  function Slot(t: ModifierType): (i: nat)
    ensures i < TypeCount
  {
    match t
    case Oxygen => 0
  }

  /** `Enum.GetValues(typeof(ModifierType)).Length`: the default array length. */
  const TypeCount: nat := 1

  /** The one configuration key per type. */
  function KeyOf(t: ModifierType): string
  {
    match t
    case Oxygen => "oxygen"
  }

  /** `StringToModifierTypeMap`: the type a configuration key names, if any. */
  function TypeOf(key: string): (r: Option<ModifierType>)
    ensures r.Some? ==> KeyOf(r.value) == key
  {
    if key == "oxygen" then Some(Oxygen) else None
  }

  /** The two maps are inverse: every type's key names that type. */
  lemma KeysRoundTrip(t: ModifierType)
    ensures TypeOf(KeyOf(t)) == Some(t)
  {
  }

  /** `ModifierData`; `float` is read as an exact real. */
  datatype ModifierData = ModifierData(name: string, initialValue: real, minValue: real, maxValue: real, currentValue: real)

  /** `ModifierConfig`: one entry of the configuration file. */
  datatype ModifierConfig = ModifierConfig(minValue: real, maxValue: real)

  /** A fresh component's array: one zeroed slot per type. */
  function DefaultStore(): (s: seq<ModifierData>)
    ensures |s| == TypeCount
    ensures forall i :: 0 <= i < |s| ==> s[i].currentValue == 0.0 && s[i].minValue == 0.0 && s[i].maxValue == 0.0
  {
    [ModifierData("", 0.0, 0.0, 0.0, 0.0)]
  }

  /** Unity's `Mathf.Clamp`: below `min` gives `min`, otherwise above `max`
      gives `max`. With `min > max` the lower bound is tested first. */
  function Clamp(v: real, min: real, max: real): (r: real)
    ensures min <= max ==> min <= r <= max
    ensures min <= v <= max ==> r == v
    ensures r == v || r == min || r == max
  {
    if v < min then min else if v > max then max else v
  }

  /** `Set`: the slot's current value becomes `value` clamped into the
      slot's range. The array is serialised, so it may be shorter than the
      number of types, and the write then throws. */
  function Set(store: seq<ModifierData>, t: ModifierType, value: real): (r: Result<seq<ModifierData>>)
    ensures r.Failure? <==> Slot(t) >= |store|
    ensures r.Success? ==> |r.value| == |store|
    ensures r.Success? ==> forall i :: 0 <= i < |store| && i != Slot(t) ==> r.value[i] == store[i]
    ensures r.Success? ==>
              r.value[Slot(t)] == store[Slot(t)].(currentValue := Clamp(value, store[Slot(t)].minValue, store[Slot(t)].maxValue))
  {
    var i := Slot(t);
    if i >= |store| then Failure(IndexOutOfRange)
    else Success(store[i := store[i].(currentValue := Clamp(value, store[i].minValue, store[i].maxValue))])
  }

  /** `Get`: the slot's current value. */
  function Get(store: seq<ModifierData>, t: ModifierType): (r: Result<real>)
    ensures r.Failure? <==> Slot(t) >= |store|
    ensures r.Success? ==> r.value == store[Slot(t)].currentValue
  {
    if Slot(t) >= |store| then Failure(IndexOutOfRange) else Success(store[Slot(t)].currentValue)
  }

  /** The current value `ResetModifier` and `ResetAll` restore. */
  function ResetValue(d: ModifierData): (v: real)
    ensures d.minValue <= d.maxValue ==> d.minValue <= v <= d.maxValue
  {
    Clamp(d.initialValue, d.minValue, d.maxValue)
  }

  /** `ResetModifier`: the slot's current value becomes its initial value
      clamped into its range; nothing else changes. */
  function ResetModifier(store: seq<ModifierData>, t: ModifierType): (r: Result<seq<ModifierData>>)
    ensures r.Failure? <==> Slot(t) >= |store|
    ensures r.Success? ==> |r.value| == |store|
    ensures r.Success? ==> forall i :: 0 <= i < |store| && i != Slot(t) ==> r.value[i] == store[i]
    ensures r.Success? ==> r.value[Slot(t)] == store[Slot(t)].(currentValue := ResetValue(store[Slot(t)]))
  {
    var i := Slot(t);
    if i >= |store| then Failure(IndexOutOfRange)
    else Success(store[i := store[i].(currentValue := ResetValue(store[i]))])
  }

  /** `ResetAll`: the loop over every slot of the array. Every slot is reset
      as `ResetModifier` resets it, and nothing but current values changes. */
  method ResetAll(store: seq<ModifierData>) returns (r: seq<ModifierData>)
    ensures |r| == |store|
    ensures forall i :: 0 <= i < |store| ==> r[i] == store[i].(currentValue := ResetValue(store[i]))
    ensures r == ResetAllOf(store)
  {
    r := store;
    var i := 0;
    while i < |r|
      invariant 0 <= i <= |r| == |store|
      invariant forall j :: 0 <= j < i ==> r[j] == store[j].(currentValue := ResetValue(store[j]))
      invariant forall j :: i <= j < |r| ==> r[j] == store[j]
    {
      r := r[i := r[i].(currentValue := ResetValue(r[i]))];
      i := i + 1;
    }
  }

  /** `ResetAll` as a value: every slot reset. */
  function ResetAllOf(store: seq<ModifierData>): (r: seq<ModifierData>)
    ensures |r| == |store|
    ensures forall i :: 0 <= i < |store| ==> r[i] == store[i].(currentValue := ResetValue(store[i]))
  {
    seq(|store|, i requires 0 <= i < |store| => store[i].(currentValue := ResetValue(store[i])))
  }

  /** `Get` after `Set` returns a value inside the slot's range when the
      range is well formed, and exactly the value written when it was
      already inside. */
  lemma GetAfterSet(store: seq<ModifierData>, t: ModifierType, value: real)
    requires Slot(t) < |store|
    ensures var d := store[Slot(t)];
      && Get(Set(store, t, value).value, t).Success?
      && (d.minValue <= d.maxValue ==> d.minValue <= Get(Set(store, t, value).value, t).value <= d.maxValue)
      && (d.minValue <= value <= d.maxValue ==> Get(Set(store, t, value).value, t) == Success(value))
  {
  }

  /** Setting the same value twice is setting it once. */
  lemma SetIdempotent(store: seq<ModifierData>, t: ModifierType, value: real)
    requires Slot(t) < |store|
    ensures Set(Set(store, t, value).value, t, value) == Set(store, t, value)
  {
    var once := Set(store, t, value).value;
    var twice := Set(once, t, value).value;
    assert |twice| == |once|;
    assert twice[Slot(t)] == once[Slot(t)];
    assert forall i :: 0 <= i < |once| ==> twice[i] == once[i];
    assert twice == once;
  }

  /** Resetting one slot agrees with resetting all of them on that slot. */
  lemma ResetModifierAgreesWithResetAll(store: seq<ModifierData>, t: ModifierType)
    requires Slot(t) < |store|
    ensures ResetModifier(store, t).value[Slot(t)] == ResetAllOf(store)[Slot(t)]
  {
  }

  /** The parsed configuration entries in the dictionary's enumeration
      order; a `null` value is `None`. */
  type Entries = seq<(string, Option<ModifierConfig>)>

  /** A call that mutates the array in place: the array afterwards, and the
      exception that ended the call early, if any. Writes made before the
      exception stay. */
  datatype Outcome = Outcome(store: seq<ModifierData>, thrown: Option<Error>)

  /** No entry for a known key has a `null` value. */
  predicate NoNullKnown(entries: Entries)
  {
    forall j :: 0 <= j < |entries| && TypeOf(entries[j].0).Some? ==> entries[j].1.Some?
  }

  /** `LoadModifiersConfig`'s loop over the parsed entries: a known key
      overwrites the name of its slot, then its range, and sets the initial
      value to the minimum; an unknown key is logged and skipped. A known key
      with a `null` value throws after the name is written; a slot missing
      from the array throws before. Current values are never touched. */
  function ApplyConfig(store: seq<ModifierData>, entries: Entries): (r: Outcome)
    ensures |r.store| == |store|
    ensures forall i :: 0 <= i < |store| ==> r.store[i].currentValue == store[i].currentValue
    ensures r.thrown.Some? ==> r.thrown.value == IndexOutOfRange || r.thrown.value == NullReference
    decreases |entries|
  {
    if |entries| == 0 then Outcome(store, None)
    else
      var prev := ApplyConfig(store, entries[..|entries| - 1]);
      if prev.thrown.Some? then prev
      else
        var (key, entry) := entries[|entries| - 1];
        var s := prev.store;
        match TypeOf(key)
        case None => prev
        case Some(t) =>
          var i := Slot(t);
          if i >= |s| then Outcome(s, Some(IndexOutOfRange))
          else match entry
            case None => Outcome(s[i := s[i].(name := key)], Some(NullReference))
            case Some(config) =>
              Outcome(s[i := s[i].(name := key, minValue := config.minValue,
                                   maxValue := config.maxValue, initialValue := config.minValue)], None)
  }

  /** Entries whose keys name no modifier type leave the array as it was. */
  lemma {:induction false} UnknownKeysIgnored(store: seq<ModifierData>, entries: Entries)
    requires forall k :: 0 <= k < |entries| ==> TypeOf(entries[k].0).None?
    ensures ApplyConfig(store, entries) == Outcome(store, None)
    decreases |entries|
  {
    if |entries| > 0 {
      UnknownKeysIgnored(store, entries[..|entries| - 1]);
    }
  }

  /** Once an entry throws, the entries after it are never looked at. */
  lemma {:induction false} ThrowStops(store: seq<ModifierData>, entries: Entries, k: nat)
    requires k <= |entries|
    requires ApplyConfig(store, entries[..k]).thrown.Some?
    ensures ApplyConfig(store, entries) == ApplyConfig(store, entries[..k])
    decreases |entries|
  {
    if |entries| > k {
      var init := entries[..|entries| - 1];
      assert init[..k] == entries[..k];
      ThrowStops(store, init, k);
    } else {
      assert entries[..k] == entries;
    }
  }

  /** A `null` value for a known key ends the load: the slot keeps the new
      name but its old range, and the exception escapes. Without the slot
      the array index throws first. */
  lemma NullEntryThrows(store: seq<ModifierData>, entries: Entries, k: nat)
    requires k < |entries| && TypeOf(entries[k].0).Some? && entries[k].1.None?
    requires ApplyConfig(store, entries[..k]).thrown.None?
    ensures var p := ApplyConfig(store, entries[..k]).store;
      var i := Slot(TypeOf(entries[k].0).value);
      ApplyConfig(store, entries) ==
        if i < |p| then Outcome(p[i := p[i].(name := entries[k].0)], Some(NullReference))
        else Outcome(p, Some(IndexOutOfRange))
  {
    assert entries[..k + 1][..k] == entries[..k];
    ThrowStops(store, entries, k + 1);
  }

  /** The load runs to the end exactly when no known key has a `null` value
      and, unless every key is unknown, the array has every slot. */
  lemma {:induction false} ApplyConfigSucceeds(store: seq<ModifierData>, entries: Entries)
    ensures ApplyConfig(store, entries).thrown.None? <==>
              NoNullKnown(entries)
              && (|store| >= TypeCount || forall j :: 0 <= j < |entries| ==> TypeOf(entries[j].0).None?)
    decreases |entries|
  {
    if |entries| > 0 {
      var init := entries[..|entries| - 1];
      var last := entries[|entries| - 1];
      ApplyConfigSucceeds(store, init);
      assert forall j :: 0 <= j < |init| ==> init[j] == entries[j];
      assert NoNullKnown(entries) <==> NoNullKnown(init) && (TypeOf(last.0).Some? ==> last.1.Some?);
    }
  }

  /** The last entry for a type's key decides that slot: its name, range and
      initial value (the minimum) are what the slot holds afterwards. */
  lemma {:induction false} LastEntryWins(store: seq<ModifierData>, entries: Entries, t: ModifierType, k: nat)
    requires Slot(t) < |store| && NoNullKnown(entries)
    requires k < |entries| && entries[k].0 == KeyOf(t)
    requires forall j :: k < j < |entries| ==> entries[j].0 != KeyOf(t)
    ensures ApplyConfig(store, entries).thrown.None?
    ensures var d := ApplyConfig(store, entries).store[Slot(t)];
      && entries[k].1.Some?
      && d.name == KeyOf(t)
      && d.minValue == entries[k].1.value.minValue
      && d.maxValue == entries[k].1.value.maxValue
      && d.initialValue == entries[k].1.value.minValue
    decreases |entries|
  {
    var init := entries[..|entries| - 1];
    ApplyConfigSucceeds(store, entries);
    ApplyConfigSucceeds(store, init);
    KeysRoundTrip(t);
    if k < |entries| - 1 {
      assert forall j :: 0 <= j < |init| ==> init[j] == entries[j];
      LastEntryWins(store, init, t, k);
    }
  }

  /** Where the configuration comes from: a missing file, a file that parses
      to `null`, or a parsed object whose `modifiers` dictionary may itself
      be `null`. */
  datatype ConfigFile =
    | Missing
    | ParsedNull
    | Parsed(modifiers: Option<Entries>)

  /** `LoadModifiersConfig` applied to the already-read file: an empty
      configuration name, a missing file or a `null` parse leave the array
      as it was; a `null` dictionary throws at the loop. */
  function LoadModifiersConfig(store: seq<ModifierData>, configName: string, file: ConfigFile): (r: Outcome)
    ensures configName == [] || file.Missing? || file.ParsedNull? ==> r == Outcome(store, None)
    ensures configName != [] && file == Parsed(None) ==> r == Outcome(store, Some(NullReference))
    ensures configName != [] && file.Parsed? && file.modifiers.Some? ==> r == ApplyConfig(store, file.modifiers.value)
  {
    if |configName| == 0 then Outcome(store, None)
    else match file
      case Missing => Outcome(store, None)
      case ParsedNull => Outcome(store, None)
      case Parsed(None) => Outcome(store, Some(NullReference))
      case Parsed(Some(entries)) => ApplyConfig(store, entries)
  }

  /** `Start`: load the configuration, then reset every slot. A load that
      throws skips the reset; otherwise every current value afterwards is
      its slot's initial value clamped into its range. */
  function Start(store: seq<ModifierData>, configName: string, file: ConfigFile): (r: Outcome)
    ensures |r.store| == |store|
    ensures r.thrown.Some? ==> r == LoadModifiersConfig(store, configName, file)
    ensures r.thrown.None? ==> forall i :: 0 <= i < |r.store| ==> r.store[i].currentValue == ResetValue(r.store[i])
  {
    var loaded := LoadModifiersConfig(store, configName, file);
    if loaded.thrown.Some? then loaded else Outcome(ResetAllOf(loaded.store), None)
  }

  /** After `Start` with a configuration entry for a type, that slot's
      current value is the configured minimum when the range is well formed,
      and the configured maximum when it is inverted. */
  lemma ConfigThenResetAll(store: seq<ModifierData>, configName: string, entries: Entries, t: ModifierType, k: nat)
    requires configName != [] && Slot(t) < |store| && NoNullKnown(entries)
    requires k < |entries| && entries[k].0 == KeyOf(t)
    requires forall j :: k < j < |entries| ==> entries[j].0 != KeyOf(t)
    ensures var r := Start(store, configName, Parsed(Some(entries)));
      && r.thrown.None?
      && entries[k].1.Some?
      && (entries[k].1.value.minValue <= entries[k].1.value.maxValue ==> r.store[Slot(t)].currentValue == entries[k].1.value.minValue)
      && (entries[k].1.value.minValue > entries[k].1.value.maxValue ==> r.store[Slot(t)].currentValue == entries[k].1.value.maxValue)
  {
    LastEntryWins(store, entries, t, k);
  }

  /** A fresh component started with the `modifiers` configuration: an
      oxygen range of `[0.5, 2]` leaves oxygen at 0.5, and a `null` oxygen
      entry throws after naming the slot, with the reset skipped. */
  lemma StartExamples()
    ensures var r := Start(DefaultStore(), "modifiers", Parsed(Some([("oxygen", Some(ModifierConfig(0.5, 2.0)))])));
      r.thrown.None? && r.store[0].currentValue == 0.5 && r.store[0].name == "oxygen"
    ensures var r := Start(DefaultStore(), "modifiers", Parsed(Some([("oxygen", None)])));
      r == Outcome([ModifierData("oxygen", 0.0, 0.0, 0.0, 0.0)], Some(NullReference))
  {
    var one: Entries := [("oxygen", Some(ModifierConfig(0.5, 2.0)))];
    assert one[..0] == [];
    var bad: Entries := [("oxygen", None)];
    assert bad[..0] == [];
  }
}
