/**
  Pins and nodes (`src/orchestration/node_pin.h`, `src/orchestration/node.cpp`).

  A node keeps two pin vectors.  Connections address a pin by its position in its vector, while the
  pin itself only knows its cached index, which counts the pins that are not hidden.
 */
module Nodes {
  import opened Connections
  import opened ConnectionCaches

  /** A Godot value, kept apart only as far as the pin code looks at it. */
  datatype Variant = Nil | IntValue(number: int) | StringValue(text: string) | OtherValue(valueType: nat, payload: int)

  datatype PropertyInfo = PropertyInfo(
    name: string, valueType: nat, className: string, hint: nat, hintString: string, usage: nat)

  const DATA: nat := 2
  const EXECUTION: nat := 4
  const HIDDEN: nat := 32

  datatype Pin = Pin(
    property: PropertyInfo,
    targetClass: string,
    defaultValue: Variant,
    generatedDefault: Variant,
    direction: Direction,
    flags: nat,
    labelText: string,
    cachedIndex: int)
  {
    predicate IsHidden() {
      flags / HIDDEN % 2 == 1
    }

    predicate IsExecution() {
      flags / EXECUTION % 2 == 1
    }

    predicate IsData() {
      flags / DATA % 2 == 1
    }
  }

  /** A property with a name and nothing else. */
  function Named(name: string): PropertyInfo {
    PropertyInfo(name, 0, "", 0, "", 0)
  }

  /** `create_pin` with the flags it ends up with, before its index is cached. */
  function CreatedPin(property: PropertyInfo, dir: Direction, flags: nat): Pin {
    Pin(property, "", Nil, Nil, dir, flags, "", -1)
  }

  datatype RerouteType = RerouteAny | RerouteData | RerouteControl

  /** What the store asks of a node's class: the reroute type, or the function a node belongs to. */
  datatype NodeKind =
    | Reroute(rerouteType: RerouteType)
    | FunctionEntry(functionName: string)
    | FunctionResult(functionName: string)
    | CallFunction(functionName: string)
    | Event
    | Plain

  // ----- Cached indices -----

  /** The number of pins before position `i` that are not hidden. */
  function VisibleBefore(pins: seq<Pin>, i: nat): nat
    requires i <= |pins|
  {
    if i == 0 then 0
    else VisibleBefore(pins, i - 1) + (if pins[i - 1].IsHidden() then 0 else 1)
  }

  /** The vector after `_cache_pin_indices`: hidden pins keep what they had. */
  function Cached(pins: seq<Pin>): (r: seq<Pin>)
    ensures |r| == |pins|
  {
    seq(|pins|, i requires 0 <= i < |pins| =>
      if pins[i].IsHidden() then pins[i] else pins[i].(cachedIndex := VisibleBefore(pins, i)))
  }

  /** Every pin that is not hidden has its own position as its cached index. */
  ghost predicate WellIndexed(pins: seq<Pin>) {
    forall i :: 0 <= i < |pins| && !pins[i].IsHidden() ==> pins[i].cachedIndex == i
  }

  /** Hidden pins come after all the others. */
  ghost predicate HiddenLast(pins: seq<Pin>) {
    forall j, i :: 0 <= j < i < |pins| && pins[j].IsHidden() ==> pins[i].IsHidden()
  }

  lemma {:induction false} VisibleBeforeBound(pins: seq<Pin>, i: nat)
    requires i <= |pins|
    ensures VisibleBefore(pins, i) <= i
    ensures VisibleBefore(pins, i) == i <==> forall j :: 0 <= j < i ==> !pins[j].IsHidden()
  {
    if i > 0 {
      VisibleBeforeBound(pins, i - 1);
    }
  }

  /**
    Position and cached index agree for a visible pin exactly when no hidden pin comes before it, and
    for the whole vector exactly when hidden pins come last.
   */
  lemma CachedIndexIsPosition(pins: seq<Pin>)
    ensures forall i :: 0 <= i < |pins| && !pins[i].IsHidden() ==>
              (Cached(pins)[i].cachedIndex == i <==> forall j :: 0 <= j < i ==> !pins[j].IsHidden())
    ensures WellIndexed(Cached(pins)) <==> HiddenLast(pins)
  {
    var r := Cached(pins);
    forall i | 0 <= i < |pins|
      ensures !pins[i].IsHidden() ==> (r[i].cachedIndex == i <==> forall j :: 0 <= j < i ==> !pins[j].IsHidden())
      ensures r[i].IsHidden() == pins[i].IsHidden()
    {
      VisibleBeforeBound(pins, i);
    }
  }

  lemma {:induction false} CachedVisibleBefore(pins: seq<Pin>, i: nat)
    requires i <= |pins|
    ensures VisibleBefore(Cached(pins), i) == VisibleBefore(pins, i)
  {
    if i > 0 {
      CachedVisibleBefore(pins, i - 1);
    }
  }

  /** Caching a second time changes nothing. */
  lemma CachedTwice(pins: seq<Pin>)
    ensures Cached(Cached(pins)) == Cached(pins)
  {
    forall i | 0 <= i < |pins| ensures Cached(Cached(pins))[i] == Cached(pins)[i] {
      CachedVisibleBefore(pins, i);
    }
  }

  /** Visible pins are counted from 0, so their indices fit wherever their positions do. */
  lemma CachedIndexFits(pins: seq<Pin>, i: nat)
    requires pins == Cached(pins) && i < |pins| && !pins[i].IsHidden()
    ensures 0 <= pins[i].cachedIndex <= i
  {
    VisibleBeforeBound(pins, i);
  }

  // ----- Node state -----

  datatype NodeState = NodeState(id: int, kind: NodeKind, inputs: seq<Pin>, outputs: seq<Pin>) {
    function Pins(dir: Direction): seq<Pin> {
      if dir == PD_Input then inputs else outputs
    }

    predicate IsReroute() {
      kind.Reroute?
    }

    /** `cache_pin_indices` */
    function Cache(): NodeState {
      this.(inputs := Cached(inputs), outputs := Cached(outputs))
    }

    /** A pin of the node that can be wired: it exists and is not hidden. */
    predicate HasVisiblePin(dir: Direction, port: int) {
      0 <= port < |Pins(dir)| && !Pins(dir)[port].IsHidden()
    }

    /** The indices of the visible pins are up to date, and neither vector outgrows the 8 port bits. */
    ghost predicate IsCached() {
      |inputs| <= PORT_LIMIT && |outputs| <= PORT_LIMIT && inputs == Cached(inputs) && outputs == Cached(outputs)
    }

    /** The cached index of every visible pin is its position. */
    ghost predicate IsAligned() {
      WellIndexed(inputs) && WellIndexed(outputs)
    }

    /**
      A node fit for the store: every pin sits in the vector of its own direction, no vector outgrows
      the 8 port bits, cached indices are positions, and a reroute has its one pin on each side.
     */
    ghost predicate Sound() {
      && (forall i :: 0 <= i < |inputs| ==> inputs[i].direction == PD_Input)
      && (forall i :: 0 <= i < |outputs| ==> outputs[i].direction == PD_Output)
      && |inputs| <= PORT_LIMIT && |outputs| <= PORT_LIMIT
      && WellIndexed(inputs) && WellIndexed(outputs)
      && HiddenLast(inputs) && HiddenLast(outputs)
      && (IsReroute() ==> RerouteShape())
    }

    predicate RerouteShape() {
      && |inputs| == 1 && inputs[0].property.name == "input" && !inputs[0].IsHidden()
      && |outputs| == 1 && outputs[0].property.name == "output" && !outputs[0].IsHidden()
    }
  }

  /** `p` is a position in one of the pin vectors. */
  predicate IsPin(nodes: map<int, NodeState>, p: PinRef) {
    p.node in nodes && 0 <= p.port < |nodes[p.node].Pins(p.dir)|
  }

  lemma CacheIsCached(n: NodeState)
    requires |n.inputs| <= PORT_LIMIT && |n.outputs| <= PORT_LIMIT
    ensures n.Cache().IsCached()
  {
    CachedTwice(n.inputs);
    CachedTwice(n.outputs);
  }

  lemma AlignedIsCached(pins: seq<Pin>)
    requires WellIndexed(pins) && HiddenLast(pins)
    ensures pins == Cached(pins)
  {
    forall i | 0 <= i < |pins| ensures pins[i] == Cached(pins)[i] {
      VisibleBeforeBound(pins, i);
    }
  }

  lemma SoundIsCached(n: NodeState)
    requires n.Sound()
    ensures n.IsCached() && n.IsAligned()
  {
    AlignedIsCached(n.inputs);
    AlignedIsCached(n.outputs);
  }

  /** The first pin with the given name, `find_pin` by name in one vector. */
  function FirstNamed(pins: seq<Pin>, name: string): Option<nat> {
    if pins == [] then None
    else if pins[0].property.name == name then Some(0)
    else match FirstNamed(pins[1..], name)
      case None => None
      case Some(i) => Some(i + 1)
  }

  lemma {:induction false} FirstNamedIsFirst(pins: seq<Pin>, name: string)
    ensures FirstNamed(pins, name).None? <==> forall i :: 0 <= i < |pins| ==> pins[i].property.name != name
    ensures FirstNamed(pins, name).Some? ==>
              var k := FirstNamed(pins, name).value;
              k < |pins| && pins[k].property.name == name && forall i :: 0 <= i < k ==> pins[i].property.name != name
  {
    if pins != [] {
      FirstNamedIsFirst(pins[1..], name);
      if pins[0].property.name != name && FirstNamed(pins[1..], name).None? {
        forall i | 0 <= i < |pins| ensures pins[i].property.name != name {
          assert i > 0 ==> pins[i] == pins[1..][i - 1];
        }
      }
      if pins[0].property.name != name && FirstNamed(pins[1..], name).Some? {
        var k := FirstNamed(pins[1..], name).value;
        forall i | 0 <= i < k + 1 ensures pins[i].property.name != name {
          assert i > 0 ==> pins[i] == pins[1..][i - 1];
        }
        assert pins[k + 1] == pins[1..][k];
      }
    }
  }

  /** `create_pin` with the flags a reroute sets: ignore the default, hide the label. */
  function ReroutePin(dir: Direction, control: bool): Pin {
    CreatedPin(Named(if dir == PD_Input then "input" else "output"), dir,
               (if control then EXECUTION else DATA) + 8 + 1024).(cachedIndex := 0)
  }

  /** A reroute as `allocate_default_pins` leaves it. */
  function RerouteNode(id: int, t: RerouteType): NodeState {
    NodeState(id, Reroute(t), [ReroutePin(PD_Input, t.RerouteControl?)], [ReroutePin(PD_Output, t.RerouteControl?)])
  }

  lemma RerouteNodeSound(id: int, t: RerouteType)
    ensures RerouteNode(id, t).Cache() == RerouteNode(id, t) && RerouteNode(id, t).Sound()
    ensures RerouteNode(id, t).id == id && RerouteNode(id, t).IsReroute()
  {
    var node := RerouteNode(id, t);
    assert VisibleBefore(node.inputs, 0) == 0;
    assert Cached(node.inputs) == node.inputs && Cached(node.outputs) == node.outputs;
  }

  /** A vector without the pin at position `k`. */
  function RemoveAt<T>(s: seq<T>, k: nat): seq<T>
    requires k < |s|
  {
    s[..k] + s[k + 1..]
  }

  /** One of the two loops of `_cache_pin_indices`. */
  method CacheVector(pins: seq<Pin>) returns (r: seq<Pin>)
    ensures r == Cached(pins)
  {
    r := pins;
    var index := 0;
    for i := 0 to |pins|
      invariant |r| == |pins| && index == VisibleBefore(pins, i)
      invariant forall j :: 0 <= j < i ==> r[j] == Cached(pins)[j]
      invariant forall j :: i <= j < |pins| ==> r[j] == pins[j]
    {
      if !r[i].IsHidden() {
        r := r[i := r[i].(cachedIndex := index)];
        index := index + 1;
      }
    }
  }

  /** `cache_pin_indices` */
  method CachePinIndices(n: NodeState) returns (r: NodeState)
    ensures r == n.Cache()
  {
    var inputs := CacheVector(n.inputs);
    var outputs := CacheVector(n.outputs);
    r := n.(inputs := inputs, outputs := outputs);
  }

  /** `find_pin` by name, in one direction; the result is the pin's position. */
  method FindPinNamed(n: NodeState, name: string, dir: Direction) returns (r: Option<nat>)
    ensures r == FirstNamed(n.Pins(dir), name)
  {
    var pins := n.Pins(dir);
    FirstNamedIsFirst(pins, name);
    for i := 0 to |pins|
      invariant forall j :: 0 <= j < i ==> pins[j].property.name != name
    {
      if pins[i].property.name == name {
        return Some(i);
      }
    }
    return None;
  }

  /** `remove_pin`: the input vector is searched first, and only the first match goes. */
  method RemovePin(n: NodeState, pin: Pin) returns (r: NodeState, removed: bool)
    ensures removed <==> pin in n.inputs || pin in n.outputs
    ensures pin in n.inputs ==> r == n.(inputs := r.inputs) && RemovesFirst(n.inputs, pin, r.inputs)
    ensures pin !in n.inputs && pin in n.outputs ==>
            r == n.(outputs := r.outputs) && RemovesFirst(n.outputs, pin, r.outputs)
    ensures !removed ==> r == n
  {
    var k := FirstIndex(n.inputs, pin);
    if k < |n.inputs| {
      return n.(inputs := RemoveAt(n.inputs, k)), true;
    }
    k := FirstIndex(n.outputs, pin);
    if k < |n.outputs| {
      return n.(outputs := RemoveAt(n.outputs, k)), true;
    }
    return n, false;
  }

  ghost predicate RemovesFirst(before: seq<Pin>, pin: Pin, after: seq<Pin>) {
    exists k: nat :: k < |before| && before[k] == pin && pin !in before[..k] && after == RemoveAt(before, k)
  }

  method FirstIndex(pins: seq<Pin>, pin: Pin) returns (k: nat)
    ensures k <= |pins| && pin !in pins[..k]
    ensures k < |pins| ==> pins[k] == pin
    ensures k == |pins| <==> pin !in pins
  {
    k := 0;
    while k < |pins| && pins[k] != pin
      invariant k <= |pins| && pin !in pins[..k]
    {
      k := k + 1;
    }
    assert pins[..|pins|] == pins;
  }
}
