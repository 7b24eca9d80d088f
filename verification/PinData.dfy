/**
  Saving and loading the pins of a node (`OScriptNodePin::_save`, `_load` of
  `src/orchestration/node_pin.cpp`; `_get_pin_data`, `_set_pin_data` of `src/orchestration/node.cpp`).

  What a type's default value is comes from the engine; it is a parameter here.
 */
module PinData {
  import opened Connections
  import opened ConnectionCaches
  import opened Nodes

  /** The keys of a pin's dictionary: `pin_name`, `type`, `dir`, and so on. */
  datatype Key = PinName | Type | Dir | Flags | Label | TargetClass | Dv | Gdv | Hint | HintString | Usage

  type Data = map<Key, Variant>

  /** `PROPERTY_USAGE_DEFAULT` */
  const USAGE_DEFAULT := 6

  type Defaults = nat -> Variant

  // ----- What is saved and how it is read -----

  /** Saving fills in a generated default value that is missing. */
  function Filled(p: Pin, defaults: Defaults): Pin {
    if p.generatedDefault == Nil then p.(generatedDefault := defaults(p.property.valueType)) else p
  }

  /** The code of `PD_Output`; that of `PD_Input` is 0 and not written. */
  const OUTPUT := 1

  /** The entry under a key, if there is one: values a fresh pin has anyway are left out. */
  function Entry(p: Pin, defaults: Defaults, k: Key): Option<Variant> {
    match k
    case PinName => Some(StringValue(p.property.name))
    case Type => if p.property.valueType != 0 then Some(IntValue(p.property.valueType)) else None
    case Dir => if p.direction != PD_Input then Some(IntValue(OUTPUT)) else None
    case Flags => if p.flags > 0 then Some(IntValue(p.flags)) else None
    case Label => if p.labelText != "" then Some(StringValue(p.labelText)) else None
    case TargetClass => if p.targetClass != "" then Some(StringValue(p.targetClass)) else None
    case Dv => if p.defaultValue != Nil then Some(p.defaultValue) else None
    case Gdv =>
      if defaults(p.property.valueType) != Filled(p, defaults).generatedDefault
        then Some(Filled(p, defaults).generatedDefault)
      else None
    case Hint => if p.property.hint != 0 then Some(IntValue(p.property.hint)) else None
    case HintString => if p.property.hintString != "" then Some(StringValue(p.property.hintString)) else None
    case Usage => if p.property.usage != USAGE_DEFAULT then Some(IntValue(p.property.usage)) else None
  }

  /** The dictionary has exactly the entries of the pin. */
  ghost predicate IsSaved(p: Pin, defaults: Defaults, data: Data) {
    forall k: Key :: (k in data <==> Entry(p, defaults, k).Some?)
      && (k in data ==> data[k] == Entry(p, defaults, k).value)
  }

  function AsText(v: Variant): string {
    if v.StringValue? then v.text else ""
  }

  function AsNat(v: Variant): nat {
    if v.IntValue? && v.number >= 0 then v.number else 0
  }

  function AsDirection(v: Variant): Direction {
    if AsNat(v) == 0 then PD_Input else PD_Output
  }

  /** A pin as the engine makes it. */
  function FreshPin(): Pin {
    Pin(PropertyInfo("", 0, "", 0, "", USAGE_DEFAULT), "", Nil, Nil, PD_Input, 0, "", -1)
  }

  // ----- The code -----

  /** The entries under the given keys have been written. */
  ghost predicate Written(p: Pin, defaults: Defaults, data: Data, keys: set<Key>) {
    forall k: Key :: (k in data <==> k in keys && Entry(p, defaults, k).Some?)
      && (k in data ==> data[k] == Entry(p, defaults, k).value)
  }

  /** The first half of `_save`. */
  method SaveHead(p: Pin, ghost defaults: Defaults) returns (data: Data)
    ensures Written(p, defaults, data, {PinName, Type, Dir, Flags, Label, TargetClass})
  {
    data := map[PinName := StringValue(p.property.name)];
    if p.property.valueType != 0 {
      data := data[Type := IntValue(p.property.valueType)];
    }
    if p.direction != PD_Input {
      data := data[Dir := IntValue(OUTPUT)];
    }
    if p.flags > 0 {
      data := data[Flags := IntValue(p.flags)];
    }
    assert Written(p, defaults, data, {PinName, Type, Dir, Flags});
    data := SaveTexts(p, defaults, data);
  }

  method SaveTexts(p: Pin, ghost defaults: Defaults, before: Data) returns (data: Data)
    requires Written(p, defaults, before, {PinName, Type, Dir, Flags})
    ensures Written(p, defaults, data, {PinName, Type, Dir, Flags, Label, TargetClass})
  {
    data := before;
    if p.labelText != "" {
      data := data[Label := StringValue(p.labelText)];
    }
    if p.targetClass != "" {
      data := data[TargetClass := StringValue(p.targetClass)];
    }
  }

  /** The middle of `_save`: the default values, where a missing one is filled in on the pin itself. */
  method SaveDefaults(p: Pin, defaults: Defaults, before: Data) returns (data: Data, q: Pin)
    requires Written(p, defaults, before, {PinName, Type, Dir, Flags, Label, TargetClass})
    ensures q == Filled(p, defaults)
    ensures Written(p, defaults, data, {PinName, Type, Dir, Flags, Label, TargetClass, Dv, Gdv})
  {
    q, data := p, before;
    if q.defaultValue != Nil {
      data := data[Dv := q.defaultValue];
    }
    if q.generatedDefault == Nil {
      q := q.(generatedDefault := defaults(q.property.valueType));
    }
    if defaults(q.property.valueType) != q.generatedDefault {
      data := data[Gdv := q.generatedDefault];
    }
  }

  /** `_save` */
  method Save(p: Pin, defaults: Defaults) returns (data: Data, q: Pin)
    ensures q == Filled(p, defaults) && IsSaved(p, defaults, data)
  {
    hide *;
    data := SaveHead(p, defaults);
    data, q := SaveDefaults(p, defaults, data);
    SameProperty(p, defaults);
    data := SaveHints(p, defaults, q.property, data);
    AllKeys(p, defaults, data);
  }

  lemma SameProperty(p: Pin, defaults: Defaults)
    ensures Filled(p, defaults).property == p.property
  {
  }

  /** The last part of `_save`. */
  method SaveHints(p: Pin, ghost defaults: Defaults, property: PropertyInfo, before: Data) returns (data: Data)
    requires property == p.property
    requires Written(p, defaults, before, {PinName, Type, Dir, Flags, Label, TargetClass, Dv, Gdv})
    ensures Written(p, defaults, data,
            {PinName, Type, Dir, Flags, Label, TargetClass, Dv, Gdv, Hint, HintString, Usage})
  {
    data := before;
    if property.hint != 0 {
      data := data[Hint := IntValue(property.hint)];
    }
    if property.hintString != "" {
      data := data[HintString := StringValue(property.hintString)];
    }
    if property.usage != USAGE_DEFAULT {
      data := data[Usage := IntValue(property.usage)];
    }
  }

  lemma AllKeys(p: Pin, defaults: Defaults, data: Data)
    requires Written(p, defaults, data,
             {PinName, Type, Dir, Flags, Label, TargetClass, Dv, Gdv, Hint, HintString, Usage})
    ensures IsSaved(p, defaults, data)
  {
    forall k: Key
      ensures (k in data <==> Entry(p, defaults, k).Some?) && (k in data ==> data[k] == Entry(p, defaults, k).value)
    {
      assert k.PinName? || k.Type? || k.Dir? || k.Flags? || k.Label? || k.TargetClass? || k.Dv? || k.Gdv? || k.Hint?
          || k.HintString? || k.Usage?;
    }
  }

  /** The part of `_load` that reads the property. */
  method LoadProperty(before: PropertyInfo, data: Data) returns (property: PropertyInfo)
    requires PinName in data
    ensures property == ReadProperty(before, data)
  {
    property := before.(name := AsText(data[PinName]));
    if Type in data {
      property := property.(valueType := AsNat(data[Type]));
    }
    if TargetClass in data {
      property := property.(className := AsText(data[TargetClass]));
    }
    if Hint in data {
      property := property.(hint := AsNat(data[Hint]));
    }
    if HintString in data {
      property := property.(hintString := AsText(data[HintString]));
    }
    if Usage in data {
      property := property.(usage := AsNat(data[Usage]));
    }
  }

  /** `_load` into a pin: without a name nothing is read. */
  method Load(p: Pin, data: Data, defaults: Defaults) returns (ok: bool, q: Pin)
    ensures ok <==> PinName in data
    ensures q == if ok then Read(p, data, defaults) else p
  {
    q := p;
    if PinName !in data {
      return false, q;
    }
    var property := LoadProperty(q.property, data);
    q := q.(property := property);
    if Dir in data {
      q := q.(direction := AsDirection(data[Dir]));
    }
    if Flags in data {
      q := q.(flags := AsNat(data[Flags]));
    }
    if Label in data {
      q := q.(labelText := AsText(data[Label]));
    }
    if TargetClass in data {
      q := q.(targetClass := AsText(data[TargetClass]));
    }
    if Dv in data {
      q := q.(defaultValue := data[Dv]);
    }
    if Gdv in data {
      q := q.(generatedDefault := data[Gdv]);
    } else {
      q := q.(generatedDefault := defaults(property.valueType));
    }
    ok := true;
  }

  function ReadProperty(p: PropertyInfo, data: Data): PropertyInfo {
    PropertyInfo(
      if PinName in data then AsText(data[PinName]) else p.name,
      if Type in data then AsNat(data[Type]) else p.valueType,
      if TargetClass in data then AsText(data[TargetClass]) else p.className,
      if Hint in data then AsNat(data[Hint]) else p.hint,
      if HintString in data then AsText(data[HintString]) else p.hintString,
      if Usage in data then AsNat(data[Usage]) else p.usage)
  }

  /** The pin after reading a dictionary over it. */
  function Read(p: Pin, data: Data, defaults: Defaults): Pin {
    var property := ReadProperty(p.property, data);
    Pin(property,
        if TargetClass in data then AsText(data[TargetClass]) else p.targetClass,
        if Dv in data then data[Dv] else p.defaultValue,
        if Gdv in data then data[Gdv] else defaults(property.valueType),
        if Dir in data then AsDirection(data[Dir]) else p.direction,
        if Flags in data then AsNat(data[Flags]) else p.flags,
        if Label in data then AsText(data[Label]) else p.labelText,
        p.cachedIndex)
  }

  // ----- One pin -----

  /** The pin as it comes back: the property's class name is read from the target class. */
  function Restored(p: Pin, defaults: Defaults): Pin {
    Filled(p, defaults).(property := p.property.(className := p.targetClass), cachedIndex := -1)
  }

  /** Saving a pin and loading it into a fresh one. */
  lemma PinRoundTrip(p: Pin, defaults: Defaults, data: Data)
    requires IsSaved(p, defaults, data)
    ensures PinName in data && Read(FreshPin(), data, defaults) == Restored(p, defaults)
  {
    PropertyRoundTrip(p, defaults, data);
    assert Dir in data <==> Entry(p, defaults, Dir).Some?;
    assert Flags in data <==> Entry(p, defaults, Flags).Some?;
    assert Label in data <==> Entry(p, defaults, Label).Some?;
    assert Dv in data <==> Entry(p, defaults, Dv).Some?;
    assert Gdv in data <==> Entry(p, defaults, Gdv).Some?;
    hide IsSaved, ReadProperty;
  }

  lemma PropertyRoundTrip(p: Pin, defaults: Defaults, data: Data)
    requires IsSaved(p, defaults, data)
    ensures PinName in data && ReadProperty(FreshPin().property, data) == p.property.(className := p.targetClass)
    ensures TargetClass in data <==> p.targetClass != ""
    ensures TargetClass in data ==> AsText(data[TargetClass]) == p.targetClass
  {
    assert PinName in data <==> Entry(p, defaults, PinName).Some?;
    assert Type in data <==> Entry(p, defaults, Type).Some?;
    assert TargetClass in data <==> Entry(p, defaults, TargetClass).Some?;
    assert Hint in data <==> Entry(p, defaults, Hint).Some?;
    assert HintString in data <==> Entry(p, defaults, HintString).Some?;
    assert Usage in data <==> Entry(p, defaults, Usage).Some?;
    hide IsSaved;
  }

  /**
    The pin comes back as it was, up to its cached index and a default filled in, exactly when the two classes
    agree.
   */
  lemma PinRestoredIff(p: Pin, defaults: Defaults)
    ensures Restored(p, defaults) == Filled(p, defaults).(cachedIndex := -1) <==> p.targetClass == p.property.className
  {
  }

  /** A second save writes the same dictionary again. */
  lemma SavedAgain(p: Pin, defaults: Defaults, data: Data)
    requires IsSaved(p, defaults, data)
    ensures IsSaved(Restored(p, defaults), defaults, data)
  {
    forall k: Key ensures Entry(Restored(p, defaults), defaults, k) == Entry(p, defaults, k) {
    }
  }

  // ----- Whole nodes -----

  /** `_get_pin_data`: inputs first, then outputs. */
  method GetPinData(n: NodeState, defaults: Defaults) returns (list: seq<Data>)
    ensures |list| == |n.inputs| + |n.outputs|
    ensures forall i :: 0 <= i < |list| ==> IsSaved((n.inputs + n.outputs)[i], defaults, list[i])
  {
    list := [];
    for i := 0 to |n.inputs|
      invariant |list| == i && forall j :: 0 <= j < i ==> IsSaved((n.inputs + n.outputs)[j], defaults, list[j])
    {
      var data, _ := Save(n.inputs[i], defaults);
      list := list + [data];
    }
    for i := 0 to |n.outputs|
      invariant |list| == |n.inputs| + i
      invariant forall j :: 0 <= j < |list| ==> IsSaved((n.inputs + n.outputs)[j], defaults, list[j])
    {
      var data, _ := Save(n.outputs[i], defaults);
      list := list + [data];
    }
  }

  /** The pins of one direction, in order. */
  function OfDirection(pins: seq<Pin>, dir: Direction): (r: seq<Pin>)
    ensures forall i :: 0 <= i < |r| ==> r[i].direction == dir
  {
    if pins == [] then []
    else OfDirection(pins[..|pins| - 1], dir) + if pins[|pins| - 1].direction == dir then [pins[|pins| - 1]] else []
  }

  function AllRestored(pins: seq<Pin>, defaults: Defaults): seq<Pin> {
    seq(|pins|, i requires 0 <= i < |pins| => Restored(pins[i], defaults))
  }

  /** `_set_pin_data` on a fresh node: each pin joins the vector of its own direction. */
  method SetPinData(list: seq<Data>, defaults: Defaults, ghost pins: seq<Pin>)
      returns (inputs: seq<Pin>, outputs: seq<Pin>)
    requires |list| == |pins| && forall i :: 0 <= i < |list| ==> IsSaved(pins[i], defaults, list[i])
    ensures inputs == OfDirection(AllRestored(pins, defaults), PD_Input)
    ensures outputs == OfDirection(AllRestored(pins, defaults), PD_Output)
  {
    inputs, outputs := [], [];
    ghost var restored := AllRestored(pins, defaults);
    for i := 0 to |list|
      invariant inputs == OfDirection(restored[..i], PD_Input) && outputs == OfDirection(restored[..i], PD_Output)
    {
      PinRoundTrip(pins[i], defaults, list[i]);
      var ok, pin := Load(FreshPin(), list[i], defaults);
      assert restored[..i + 1][..i] == restored[..i] && restored[i] == pin;
      if pin.direction == PD_Input {
        inputs := inputs + [pin];
      } else {
        outputs := outputs + [pin];
      }
    }
    assert restored[..|list|] == restored;
  }

  ghost predicate InOwnVectors(n: NodeState) {
    && (forall i :: 0 <= i < |n.inputs| ==> n.inputs[i].direction == PD_Input)
    && (forall i :: 0 <= i < |n.outputs| ==> n.outputs[i].direction == PD_Output)
  }

  lemma {:induction false} OfDirectionJoin(a: seq<Pin>, b: seq<Pin>, dir: Direction)
    ensures OfDirection(a + b, dir) == OfDirection(a, dir) + OfDirection(b, dir)
  {
    if b == [] {
      assert a + b == a;
    } else {
      assert (a + b)[..|a + b| - 1] == a + b[..|b| - 1];
      OfDirectionJoin(a, b[..|b| - 1], dir);
    }
  }

  lemma {:induction false} OfDirectionAll(pins: seq<Pin>, dir: Direction, other: Direction)
    requires forall i :: 0 <= i < |pins| ==> pins[i].direction == dir
    ensures OfDirection(pins, dir) == pins
    ensures other != dir ==> OfDirection(pins, other) == []
  {
    if pins != [] {
      OfDirectionAll(pins[..|pins| - 1], dir, other);
      assert pins == pins[..|pins| - 1] + [pins[|pins| - 1]];
    }
  }

  lemma RestoredJoin(a: seq<Pin>, b: seq<Pin>, defaults: Defaults)
    ensures AllRestored(a + b, defaults) == AllRestored(a, defaults) + AllRestored(b, defaults)
    ensures forall i :: 0 <= i < |a| ==> AllRestored(a, defaults)[i].direction == a[i].direction
  {
    hide Filled;
    forall p ensures Restored(p, defaults).direction == p.direction {
      RestoredDirection(p, defaults);
    }
    hide Restored;
  }

  lemma RestoredDirection(p: Pin, defaults: Defaults)
    ensures Restored(p, defaults).direction == p.direction
  {
  }

  /** Both vectors come back in order exactly when every pin sits in the vector of its own direction. */
  lemma VectorsRestored(n: NodeState, defaults: Defaults)
    ensures var all := AllRestored(n.inputs + n.outputs, defaults);
            (OfDirection(all, PD_Input) == AllRestored(n.inputs, defaults)
              && OfDirection(all, PD_Output) == AllRestored(n.outputs, defaults))
            <==> InOwnVectors(n)
  {
    var a, b := AllRestored(n.inputs, defaults), AllRestored(n.outputs, defaults);
    RestoredJoin(n.inputs, n.outputs, defaults);
    RestoredJoin(n.outputs, n.inputs, defaults);
    assert |a| == |n.inputs| && |b| == |n.outputs|;
    OfDirectionJoin(a, b, PD_Input);
    OfDirectionJoin(a, b, PD_Output);
    hide AllRestored;
    if InOwnVectors(n) {
      OfDirectionAll(a, PD_Input, PD_Output);
      OfDirectionAll(b, PD_Output, PD_Input);
    }
    hide OfDirection;
    if OfDirection(a + b, PD_Input) == a && OfDirection(a + b, PD_Output) == b {
      forall i | 0 <= i < |n.inputs| ensures n.inputs[i].direction == PD_Input {
        assert a[i].direction == PD_Input;
      }
      forall i | 0 <= i < |n.outputs| ensures n.outputs[i].direction == PD_Output {
        assert b[i].direction == PD_Output;
      }
    }
  }

  /** The pins as they were, up to cached indices and missing defaults filled in. */
  function AllFilled(pins: seq<Pin>, defaults: Defaults): seq<Pin> {
    seq(|pins|, i requires 0 <= i < |pins| => Filled(pins[i], defaults).(cachedIndex := -1))
  }

  ghost predicate ClassesAgree(pins: seq<Pin>) {
    forall i :: 0 <= i < |pins| ==> pins[i].targetClass == pins[i].property.className
  }

  lemma AllRestoredIff(pins: seq<Pin>, defaults: Defaults)
    ensures AllRestored(pins, defaults) == AllFilled(pins, defaults) <==> ClassesAgree(pins)
    ensures |AllFilled(pins, defaults)| == |pins|
    ensures forall i :: 0 <= i < |pins| ==> AllFilled(pins, defaults)[i].direction == pins[i].direction
  {
    forall i | 0 <= i < |pins|
      ensures AllRestored(pins, defaults)[i] == AllFilled(pins, defaults)[i] <==>
              pins[i].targetClass == pins[i].property.className
    {
      PinRestoredIff(pins[i], defaults);
    }
    hide Restored, Filled;
    if AllRestored(pins, defaults) == AllFilled(pins, defaults) {
      forall i | 0 <= i < |pins| ensures pins[i].targetClass == pins[i].property.className {
        assert AllRestored(pins, defaults)[i] == AllFilled(pins, defaults)[i];
      }
    }
  }

  /**
    Saving and loading a node restores both its vectors in order, each pin equal up to a default filled
    in, exactly when every pin sits in the vector of its own direction and its target class is its class name.
   */
  lemma NodeRestoredIff(n: NodeState, defaults: Defaults)
    ensures var all := AllRestored(n.inputs + n.outputs, defaults);
            (OfDirection(all, PD_Input) == AllFilled(n.inputs, defaults)
              && OfDirection(all, PD_Output) == AllFilled(n.outputs, defaults))
            <==> InOwnVectors(n) && ClassesAgree(n.inputs) && ClassesAgree(n.outputs)
  {
    VectorsRestored(n, defaults);
    AllRestoredIff(n.inputs, defaults);
    AllRestoredIff(n.outputs, defaults);
    var all := AllRestored(n.inputs + n.outputs, defaults);
    hide AllRestored, AllFilled, ClassesAgree;
    if OfDirection(all, PD_Input) == AllFilled(n.inputs, defaults)
      && OfDirection(all, PD_Output) == AllFilled(n.outputs, defaults) {
      assert InOwnVectors(n);
    }
  }

  /** Saving and loading the pins of a whole node. */
  method SaveThenLoad(n: NodeState, defaults: Defaults) returns (inputs: seq<Pin>, outputs: seq<Pin>)
    ensures (inputs == AllFilled(n.inputs, defaults) && outputs == AllFilled(n.outputs, defaults))
            <==> InOwnVectors(n) && ClassesAgree(n.inputs) && ClassesAgree(n.outputs)
  {
    var list := GetPinData(n, defaults);
    inputs, outputs := SetPinData(list, defaults, n.inputs + n.outputs);
    NodeRestoredIff(n, defaults);
  }
}
