/**
  Creating a function with its graph and its entry and result nodes (`Orchestration::create_function` of
  `src/orchestration/orchestration.cpp`).
 */
module FunctionCreation {
  import opened Connections
  import opened ConnectionCaches
  import opened Nodes
  import opened Reroutes
  import opened Stores
  import opened Queries
  import opened Graphs
  import opened Orchestrations
  import opened GraphEdits

  // ----- The nodes of a new function -----

  /** One argument more on the entry node; a name that is there already makes no second pin. */
  function WithArgumentPin(pins: seq<Pin>, property: PropertyInfo): seq<Pin> {
    if FirstNamed(pins, property.name).Some? then pins else pins + [CreatedPin(property, PD_Output, DATA)]
  }

  function EntryPins(arguments: seq<PropertyInfo>): seq<Pin> {
    if arguments == [] then [CreatedPin(Named("ExecOut"), PD_Output, EXECUTION)]
    else WithArgumentPin(EntryPins(arguments[..|arguments| - 1]), arguments[|arguments| - 1])
  }

  function EntryNode(id: int, name: string, arguments: seq<PropertyInfo>): NodeState {
    NodeState(id, FunctionEntry(name), [], EntryPins(arguments))
  }

  /** A result node hands its value to the caller through a hidden output. */
  function ResultNode(id: int, name: string, value: PropertyInfo): NodeState {
    NodeState(id, FunctionResult(name),
              [CreatedPin(Named("ExecIn"), PD_Input, EXECUTION),
                CreatedPin(value.(name := "return_value"), PD_Input, DATA).(labelText := value.name)],
              [CreatedPin(value.(name := "return_out"), PD_Output, DATA + HIDDEN)])
  }

  /** A method as the caller describes it; `getter` says whether its name is that of a getter. */
  datatype Signature = Signature(
    name: string, arguments: seq<PropertyInfo>, value: Option<PropertyInfo>, userDefined: bool, getter: bool)

  function ArgumentNames(arguments: seq<PropertyInfo>): (r: seq<string>)
    ensures |r| == |arguments|
  {
    seq(|arguments|, i requires 0 <= i < |arguments| => arguments[i].name)
  }

  function StateOf(f: Signature, owner: int): FunctionState {
    FunctionState(f.name, owner, f.userDefined, ArgumentNames(f.arguments), f.value.Some?, f.getter)
  }

  // ----- The edit -----

  /** The name is malformed, or a graph, a function, a variable or a signal has it. */
  predicate Refused(s: Store, f: Signature, taken: bool) {
    !IsIdentifier(f.name) || f.name in s.functions || taken || f.name in s.graphs
  }

  /** The function with its graph and its entry node, under a free id. */
  function WithEntry(s: Store, f: Signature, id: int): (t: Store)
    requires IsIdentifier(f.name) && f.name !in s.graphs
    ensures f.name in t.graphs
  {
    var t := s.CreateGraph(f.name, true, false);
    t.(functions := t.functions[f.name := StateOf(f, id)]).AddNode(f.name, EntryNode(id, f.name, f.arguments))
  }

  /** And with its result node, linked to the entry. */
  ghost function Made(s: Store, f: Signature, id: int): Store
    requires IsIdentifier(f.name) && f.name !in s.graphs
  {
    var t := WithEntry(s, f, id);
    if f.value.None? then t
    else LinkedFirst(t.AddNode(f.name, ResultNode(id + 1, f.name, f.value.value)), id, id + 1)
  }

  /** `find_pin` at position 0 of both nodes, then `link`. */
  ghost function LinkedFirst(s: Store, source: int, target: int): Store {
    var p, q := PinRef(source, PD_Output, 0), PinRef(target, PD_Input, 0);
    if IsPin(s.nodes, p) && IsPin(s.nodes, q) then Linked(s, p, q) else s
  }

  /** There are ids left for two nodes, and the entry node has no more pins than there are ports. */
  ghost predicate HasRoom(s: Store, f: Signature) {
    |EntryPins(f.arguments)| <= PORT_LIMIT && forall n :: n in s.nodes ==> n + 2 < NODE_LIMIT
  }

  /** `create_function` for an owner that is there: only the table changes. */
  method RegisterFunction(o: Orchestration, f: FunctionState, taken: bool) returns (created: bool)
    requires o.Valid()
    modifies o`functions, o`state
    ensures o.Valid() && (created <==> IsIdentifier(f.name) && f.name !in old(o.state).functions && !taken)
    ensures o.state == if created then old(o.state).(functions := old(o.state).functions[f.name := f]) else old(o.state)
  {
    if !IsIdentifier(f.name) || f.name in o.functions || taken {
      return false;
    }
    o.functions := o.functions[f.name := f];
    o.state := o.state.(functions := o.functions);
    created := true;
  }

  lemma RefusedMeans(s: Store, f: Signature, taken: bool)
    ensures Refused(s, f, taken) <==> !IsIdentifier(f.name) || f.name in s.functions || taken || f.name in s.graphs
  {
  }

  lemma WithEntryInSteps(s: Store, f: Signature, id: int)
    requires IsIdentifier(f.name) && f.name !in s.graphs
    ensures var t := s.CreateGraph(f.name, true, false);
            var u := t.(functions := t.functions[f.name := StateOf(f, id)]);
            && t.nodes == s.nodes && t.functions == s.functions && f.name in u.graphs
            && u.AddNode(f.name, EntryNode(id, f.name, f.arguments)) == WithEntry(s, f, id)
    ensures f.value.None? ==> Made(s, f, id) == WithEntry(s, f, id)
    ensures f.value.Some? ==>
              var w := WithEntry(s, f, id).AddNode(f.name, ResultNode(id + 1, f.name, f.value.value));
              Made(s, f, id) == LinkedFirst(w, id, id + 1)
    ensures id !in s.nodes ==>
              WithEntry(s, f, id).nodes == s.nodes[id := EntryNode(id, f.name, f.arguments).Cache()]
  {
    hide Linked, EntryPins, NodeState.Cache;
  }

  /** The result node has the next id, and both nodes have the pins to link. */
  lemma ResultInSteps(s: Store, f: Signature, id: int)
    requires s.Tidy() && f.name in s.graphs && f.value.Some? && s.IsAvailable(id + 1) && id + 1 < NODE_LIMIT
    requires id in s.nodes && s.nodes[id] == EntryNode(id, f.name, f.arguments).Cache()
    ensures var w := s.AddNode(f.name, ResultNode(id + 1, f.name, f.value.value));
            && w.Tidy() && IsPin(w.nodes, PinRef(id, PD_Output, 0)) && IsPin(w.nodes, PinRef(id + 1, PD_Input, 0))
  {
    var result := ResultNode(id + 1, f.name, f.value.value);
    EntryPinsShape(f.arguments);
    AddNodeKeepsTidy(s, f.name, result);
    hide EntryPins, Store.Tidy;
    assert s.AddNode(f.name, result).nodes == s.nodes[id + 1 := result.Cache()];
  }

  lemma NextAvailable(s: Store, t: Store, f: Signature, id: int)
    requires s.IsAvailable(id) && HasRoom(s, f) && id in t.nodes && t.nodes == s.nodes[id := t.nodes[id]]
    ensures t.IsAvailable(id + 1) && id + 1 < NODE_LIMIT && id !in s.nodes
  {
    assert id > 0 ==> id - 1 in s.nodes;
  }

  lemma MadeInSteps(s: Store, f: Signature, id: int)
    requires s.Tidy() && IsIdentifier(f.name) && f.name !in s.graphs && f.name !in s.functions
    requires HasRoom(s, f) && s.IsAvailable(id)
    ensures var t := s.CreateGraph(f.name, true, false);
            var u := t.(functions := t.functions[f.name := StateOf(f, id)]);
            && t.nodes == s.nodes && t.functions == s.functions && f.name in u.graphs
            && u.AddNode(f.name, EntryNode(id, f.name, f.arguments)) == WithEntry(s, f, id)
    ensures f.value.None? ==> Made(s, f, id) == WithEntry(s, f, id)
    ensures WithEntry(s, f, id).Tidy() && f.name in WithEntry(s, f, id).graphs
            && WithEntry(s, f, id).IsAvailable(id + 1)
    ensures f.value.Some? ==>
              var w := WithEntry(s, f, id).AddNode(f.name, ResultNode(id + 1, f.name, f.value.value));
              && Made(s, f, id) == LinkedFirst(w, id, id + 1)
              && w.Tidy() && IsPin(w.nodes, PinRef(id, PD_Output, 0)) && IsPin(w.nodes, PinRef(id + 1, PD_Input, 0))
  {
    hide *;
    WithEntryTidy(s, f, id);
    WithEntryInSteps(s, f, id);
    UnusedId(s, id);
    NextAvailable(s, WithEntry(s, f, id), f, id);
    if f.value.Some? {
      ResultInSteps(WithEntry(s, f, id), f, id);
    }
  }

  lemma UnusedId(s: Store, id: int)
    requires s.IsAvailable(id)
    ensures id !in s.nodes
  {
  }

  /** `create_function` with a method description. */
  method CreateFunction(o: Orchestration, f: Signature, taken: bool) returns (created: bool, id: int)
    requires o.Valid() && o.state.Tidy() && HasRoom(o.state, f)
    modifies o, o.cache, o.graphs.Values
    ensures o.Valid() && (created <==> !Refused(old(o.state), f, taken))
    ensures !created ==> o.state == old(o.state)
    ensures created ==> IsIdentifier(f.name) && f.name !in old(o.state).graphs && old(o.state).IsAvailable(id)
    ensures created ==> o.state == Made(old(o.state), f, id)
    ensures created ==> 0 <= id && id + 1 < NODE_LIMIT && IsMade(old(o.state), o.state, f, id)
  {
    hide *;
    ghost var s := o.state;
    o.Fields();
    RefusedMeans(s, f, taken);
    id := 0;
    if !IsIdentifier(f.name) || f.name in o.functions || taken {
      return false, 0;
    }
    var made := CreateGraph(o, f.name, true, false);
    RefusedGraph(s, f);
    if !made {
      return false, 0;
    }
    GraphAdded(s, f);
    o.Fields();
    id := o.GetAvailableId();
    SameAvailable(s, o.state, id);
    MadeInSteps(s, f, id);
    var registered := RegisterFunction(o, StateOf(f, id), false);
    StateOfName(f, id);
    o.Fields();
    o.AddNode(f.name, EntryNode(id, f.name, f.arguments));
    created := true;
    RefusedMeans(s, f, false);
    MadeIs(s, f, id);
    match f.value
    case None =>
    case Some(value) =>
      o.Fields();
      var next := o.GetAvailableId();
      OneAvailable(o.state, next, id + 1);
      o.AddNode(f.name, ResultNode(next, f.name, value));
      o.Fields();
      LinkedFirstMeans(o.state, id, next);
      o.Link(PinRef(id, PD_Output, 0), PinRef(next, PD_Input, 0));
  }

  lemma StateOfName(f: Signature, id: int)
    ensures StateOf(f, id).name == f.name
  {
  }

  lemma RefusedGraph(s: Store, f: Signature)
    ensures f.name in s.graphs || !IsIdentifier(f.name) ==> s.CreateGraph(f.name, true, false) == s
  {
  }

  lemma GraphAdded(s: Store, f: Signature)
    ensures s.CreateGraph(f.name, true, false).nodes == s.nodes
            && s.CreateGraph(f.name, true, false).functions == s.functions
    ensures f.name !in s.graphs && IsIdentifier(f.name) ==> f.name in s.CreateGraph(f.name, true, false).graphs
  {
  }

  lemma SameAvailable(s: Store, t: Store, id: int)
    requires t.nodes == s.nodes && t.IsAvailable(id)
    ensures s.IsAvailable(id)
  {
  }

  lemma OneAvailable(s: Store, a: int, b: int)
    requires s.IsAvailable(a) && s.IsAvailable(b)
    ensures a == b
  {
  }

  lemma LinkedFirstMeans(s: Store, source: int, target: int)
    requires IsPin(s.nodes, PinRef(source, PD_Output, 0)) && IsPin(s.nodes, PinRef(target, PD_Input, 0))
    ensures LinkedFirst(s, source, target) == Linked(s, PinRef(source, PD_Output, 0), PinRef(target, PD_Input, 0))
  {
    hide Linked;
  }

  // ----- What it keeps -----

  lemma PinFlags(property: PropertyInfo, dir: Direction)
    ensures !CreatedPin(property, dir, DATA).IsHidden() && !CreatedPin(property, dir, EXECUTION).IsHidden()
    ensures CreatedPin(property, dir, EXECUTION).IsExecution() && !CreatedPin(property, dir, DATA).IsExecution()
    ensures CreatedPin(property, dir, DATA + HIDDEN).IsHidden()
    ensures forall flags: nat :: CreatedPin(property, dir, flags).direction == dir
  {
  }

  /** The entry's pins are visible outputs, the execution pin first; a distinct name makes a pin of its own. */
  lemma {:induction false} EntryPinsShape(arguments: seq<PropertyInfo>)
    ensures var pins := EntryPins(arguments);
            && 1 <= |pins| <= |arguments| + 1 && pins[0] == CreatedPin(Named("ExecOut"), PD_Output, EXECUTION)
            && forall i :: 0 <= i < |pins| ==> !pins[i].IsHidden() && pins[i].direction == PD_Output
  {
    PinFlags(Named("ExecOut"), PD_Output);
    if arguments != [] {
      EntryPinsShape(arguments[..|arguments| - 1]);
      PinFlags(arguments[|arguments| - 1], PD_Output);
      hide CreatedPin, Pin.IsHidden;
    }
  }

  lemma EntryIsSound(id: int, name: string, arguments: seq<PropertyInfo>)
    requires |EntryPins(arguments)| <= PORT_LIMIT
    ensures EntryNode(id, name, arguments).Cache().Sound()
    ensures EntryNode(id, name, arguments).Cache().HasVisiblePin(PD_Output, 0)
    ensures EntryNode(id, name, arguments).Cache().outputs[0].IsExecution()
  {
    var n := EntryNode(id, name, arguments);
    EntryPinsShape(arguments);
    PinFlags(Named("ExecOut"), PD_Output);
    hide EntryPins, CreatedPin;
    CachedIndexIsPosition(n.inputs);
    CachedIndexIsPosition(n.outputs);
    assert HiddenLast(n.outputs);
  }

  lemma ResultIsSound(id: int, name: string, value: PropertyInfo)
    ensures ResultNode(id, name, value).Cache().Sound()
    ensures ResultNode(id, name, value).Cache().HasVisiblePin(PD_Input, 0)
    ensures ResultNode(id, name, value).Cache().inputs[0].IsExecution()
  {
    var n := ResultNode(id, name, value);
    PinFlags(Named("ExecIn"), PD_Input);
    PinFlags(value.(name := "return_value"), PD_Input);
    PinFlags(value.(name := "return_out"), PD_Output);
    hide CreatedPin;
    CachedIndexIsPosition(n.inputs);
    CachedIndexIsPosition(n.outputs);
    assert HiddenLast(n.inputs) && HiddenLast(n.outputs);
  }

  lemma WithEntryTidy(s: Store, f: Signature, id: int)
    requires s.Tidy() && IsIdentifier(f.name) && f.name !in s.graphs && f.name !in s.functions
    requires HasRoom(s, f) && s.IsAvailable(id)
    ensures WithEntry(s, f, id).Tidy()
  {
    var t, node := s.CreateGraph(f.name, true, false), EntryNode(id, f.name, f.arguments);
    CreateGraphKeepsTidy(s, f.name, true, false);
    assert id > 0 ==> id - 1 in s.nodes;
    AddNodeKeepsTidy(t, f.name, node);
    hide EntryPins, Store.Tidy;
    FunctionAdded(t.AddNode(f.name, node), WithEntry(s, f, id), t, f, id);
  }

  /** The new function is owned by a node that owned nothing. */
  lemma FunctionAdded(s: Store, t: Store, before: Store, f: Signature, id: int)
    requires s.Tidy() && before.Tidy() && f.name !in s.functions && before.functions == s.functions
    requires id !in before.nodes && id in s.nodes
    requires t == s.(functions := s.functions[f.name := StateOf(f, id)])
    ensures t.Tidy()
  {
    hide *;
    TidyIs(s);
    TidyIs(t);
    TidyIs(before);
    SameKeysGrouped(s, t);
    SameNodesFiled(s, t);
    OwnedByNew(s, t, before, f, id);
  }

  lemma OwnedByNew(s: Store, t: Store, before: Store, f: Signature, id: int)
    requires s.FunctionsSound() && before.FunctionsSound() && before.functions == s.functions && f.name !in s.functions
    requires id !in before.nodes && id in s.nodes
    requires t.functions == s.functions[f.name := StateOf(f, id)] && t.nodes == s.nodes
    ensures t.FunctionsSound()
  {
  }

  lemma SameNodesFiled(s: Store, t: Store)
    requires t.nodes == s.nodes && t.conns == s.conns
    ensures s.NodesFiled() ==> t.NodesFiled()
    ensures s.Wired() ==> t.Wired()
  {
  }

  lemma MadeKeepsTidy(s: Store, f: Signature, id: int)
    requires s.Tidy() && HasRoom(s, f) && s.IsAvailable(id) && !Refused(s, f, false)
    ensures Made(s, f, id).Tidy()
  {
    MadeInSteps(s, f, id);
    hide *;
    RefusedMeans(s, f, false);
    if f.value.Some? {
      var w := WithEntry(s, f, id).AddNode(f.name, ResultNode(id + 1, f.name, f.value.value));
      LinkedFirstMeans(w, id, id + 1);
      LinkedKeepsTidy(w, PinRef(id, PD_Output, 0), PinRef(id + 1, PD_Input, 0));
    }
  }

  /** The two pins that are linked at the end. */
  lemma FirstPins(s: Store, f: Signature, id: int)
    requires s.Tidy() && HasRoom(s, f) && s.IsAvailable(id) && !Refused(s, f, false) && f.value.Some?
    ensures var w := WithEntry(s, f, id).AddNode(f.name, ResultNode(id + 1, f.name, f.value.value));
            && w.HasPin(PinRef(id, PD_Output, 0)) && w.HasPin(PinRef(id + 1, PD_Input, 0))
            && Made(s, f, id) == Linked(w, PinRef(id, PD_Output, 0), PinRef(id + 1, PD_Input, 0))
  {
    var w := WithEntry(s, f, id).AddNode(f.name, ResultNode(id + 1, f.name, f.value.value));
    MadeInSteps(s, f, id);
    WithEntryInSteps(s, f, id);
    EntryIsSound(id, f.name, f.arguments);
    ResultIsSound(id + 1, f.name, f.value.value);
    LinkedFirstMeans(w, id, id + 1);
    hide EntryNode, ResultNode, Store.Tidy, NodeState.Sound, NodeState.Cache, LinkedFirst, Linked, WithEntry;
    assert id + 1 !in WithEntry(s, f, id).nodes;
  }

  lemma WithEntryKeepsInv(s: Store, f: Signature, id: int)
    requires s.Inv() && HasRoom(s, f) && s.IsAvailable(id) && !Refused(s, f, false)
    ensures WithEntry(s, f, id).Inv()
  {
    var t, node := s.CreateGraph(f.name, true, false), EntryNode(id, f.name, f.arguments);
    CreateGraphKeepsTidy(s, f.name, true, false);
    FewerKeepsInv(s, t);
    EntryIsSound(id, f.name, f.arguments);
    assert id > 0 ==> id - 1 in s.nodes;
    AddNodeKeepsInv(t, f.name, node);
    WithEntryTidy(s, f, id);
    hide EntryNode, Store.Inv, NodeState.Sound;
    FewerKeepsInv(t.AddNode(f.name, node), WithEntry(s, f, id));
  }

  /** A new function keeps the pin-level invariant as well: the pins of its nodes are fit for it. */
  lemma MadeKeepsInv(s: Store, f: Signature, id: int)
    requires s.Inv() && HasRoom(s, f) && s.IsAvailable(id) && !Refused(s, f, false)
    ensures Made(s, f, id).Inv()
  {
    WithEntryKeepsInv(s, f, id);
    assert s.Tidy();
    MadeInSteps(s, f, id);
    if f.value.Some? {
      var w := WithEntry(s, f, id).AddNode(f.name, ResultNode(id + 1, f.name, f.value.value));
      var p, q := PinRef(id, PD_Output, 0), PinRef(id + 1, PD_Input, 0);
      FirstPins(s, f, id);
      ResultIsSound(id + 1, f.name, f.value.value);
      NextAvailable(s, WithEntry(s, f, id), f, id);
      hide *;
      AddNodeKeepsInv(WithEntry(s, f, id), f.name, ResultNode(id + 1, f.name, f.value.value));
      LinkedIsLink(w, p, q);
      WireOfEnds(p, q);
      LinkKeepsInv(w, WireOf(p, q));
    }
  }

  lemma WireOfEnds(p: PinRef, q: PinRef)
    requires Addressable(p) && Addressable(q) && p.dir == PD_Output && q.dir == PD_Input
    ensures WireOf(p, q).End(PD_Output) == p && WireOf(p, q).End(PD_Input) == q
  {
  }

  // ----- What it makes -----

  /** The argument gets a pin: no argument before it has its name, nor does the execution pin. */
  predicate IsFirst(arguments: seq<PropertyInfo>, i: nat)
    requires i < |arguments|
  {
    arguments[i].name != "ExecOut" && forall j :: 0 <= j < i ==> arguments[j].name != arguments[i].name
  }

  /** Of the arguments with one name the first, in order. */
  function Firsts(arguments: seq<PropertyInfo>): seq<PropertyInfo> {
    if arguments == [] then []
    else
      var last := |arguments| - 1;
      Firsts(arguments[..last]) + if IsFirst(arguments, last) then [arguments[last]] else []
  }

  function Properties(pins: seq<Pin>): seq<PropertyInfo> {
    seq(|pins|, i requires 0 <= i < |pins| => pins[i].property)
  }

  ghost predicate HasName(pins: seq<Pin>, name: string) {
    exists k :: 0 <= k < |pins| && pins[k].property.name == name
  }

  ghost predicate IsArgument(arguments: seq<PropertyInfo>, name: string) {
    exists i :: 0 <= i < |arguments| && arguments[i].name == name
  }

  lemma {:induction false} EntryPinsAre(arguments: seq<PropertyInfo>)
    ensures var pins := EntryPins(arguments);
            && |pins| >= 1 && Properties(pins[1..]) == Firsts(arguments)
            && (forall k :: 1 <= k < |pins| ==> pins[k] == CreatedPin(pins[k].property, PD_Output, DATA))
            && (forall name :: HasName(pins, name) <==> name == "ExecOut" || IsArgument(arguments, name))
  {
    var pins := EntryPins(arguments);
    if arguments == [] {
      assert pins[0].property.name == "ExecOut";
    } else {
      var init, last := arguments[..|arguments| - 1], arguments[|arguments| - 1];
      var before := EntryPins(init);
      assert arguments == init + [last] && pins == WithArgumentPin(before, last);
      EntryPinsAre(init);
      FirstNamedIsFirst(before, last.name);
      hide EntryPins, FirstNamed;
      assert FirstNamed(before, last.name).Some? <==> HasName(before, last.name);
      IsFirstIff(arguments);
      MorePins(before, pins, init, last);
    }
  }

  lemma IsFirstIff(arguments: seq<PropertyInfo>)
    requires arguments != []
    ensures var last := |arguments| - 1;
            IsFirst(arguments, last) <==>
            arguments[last].name != "ExecOut" && !IsArgument(arguments[..last], arguments[last].name)
  {
  }

  /** One argument more, with a pin or without. */
  lemma MorePins(before: seq<Pin>, pins: seq<Pin>, init: seq<PropertyInfo>, last: PropertyInfo)
    requires |before| >= 1 && Properties(before[1..]) == Firsts(init)
    requires forall name :: HasName(before, name) <==> name == "ExecOut" || IsArgument(init, name)
    requires pins == if HasName(before, last.name) then before else before + [CreatedPin(last, PD_Output, DATA)]
    ensures forall name :: HasName(pins, name) <==> name == "ExecOut" || IsArgument(init + [last], name)
    ensures |pins| >= 1 && Properties(pins[1..])
            == Firsts(init) + if HasName(before, last.name) then [] else [last]
  {
    hide Firsts;
    forall name ensures HasName(pins, name) <==> name == "ExecOut" || IsArgument(init + [last], name) {
      NamesMore(before, pins, last, name);
      ArgumentsMore(init, last, name);
    }
    if !HasName(before, last.name) {
      assert pins[1..] == before[1..] + [CreatedPin(last, PD_Output, DATA)];
    }
  }

  lemma NamesMore(before: seq<Pin>, pins: seq<Pin>, last: PropertyInfo, name: string)
    requires pins == if HasName(before, last.name) then before else before + [CreatedPin(last, PD_Output, DATA)]
    ensures HasName(pins, name) <==> HasName(before, name) || name == last.name
  {
    if !HasName(before, last.name) {
      assert pins[|before|].property == last;
      if k :| 0 <= k < |before| && before[k].property.name == name {
        assert pins[k] == before[k];
      }
    }
  }

  lemma ArgumentsMore(init: seq<PropertyInfo>, last: PropertyInfo, name: string)
    ensures IsArgument(init + [last], name) <==> IsArgument(init, name) || name == last.name
  {
    var all := init + [last];
    assert all[|init|] == last;
    if i :| 0 <= i < |init| && init[i].name == name {
      assert all[i] == init[i];
    }
  }

  /** Linking at a node without wires only adds one. */
  lemma LinkedFirstOfNew(w: Store, id: int)
    requires w.Tidy() && 0 <= id && id + 1 < NODE_LIMIT && id in w.nodes && id + 1 in w.nodes
    requires forall c :: c in w.conns ==> !c.IsLinkedTo(id) && !c.IsLinkedTo(id + 1)
    requires !w.nodes[id].IsReroute() && w.nodes[id].outputs != [] && w.nodes[id + 1].inputs != []
    requires w.nodes[id].outputs[0].cachedIndex == 0 == w.nodes[id + 1].inputs[0].cachedIndex
    ensures LinkedFirst(w, id, id + 1) == w.(conns := w.conns + {Connection(id, 0, id + 1, 0)})
  {
    var p, q := PinRef(id, PD_Output, 0), PinRef(id + 1, PD_Input, 0);
    NothingToUnlink(w, p);
    NothingToUnlink(w, q);
    hide UnlinkedAll, Store.Tidy;
    assert Wire(w.nodes, p, q) == Connection(id, 0, id + 1, 0);
    assert Cleared(w, p, q) == w;
  }

  lemma NothingToUnlink(w: Store, p: PinRef)
    requires w.NodesFiled() && forall c :: c in w.conns ==> !c.IsLinkedTo(p.node)
    ensures UnlinkedAll(w, p) == w
  {
    UnlinkedAreAtNode(w, p);
    assert Unlinked(w, p) == {};
    DropNothing(w);
  }

  /** The entry node of a function: an execution output, then an output for each argument, first of its name. */
  ghost predicate IsEntry(n: NodeState, f: Signature) {
    && n.kind == FunctionEntry(f.name) && n.inputs == [] && |n.outputs| >= 1
    && n.outputs[0].IsExecution() && !n.outputs[0].IsData() && n.outputs[0].property.name == "ExecOut"
    && Properties(n.outputs[1..]) == Firsts(f.arguments)
    && (forall k :: 0 <= k < |n.outputs| ==> !n.outputs[k].IsHidden())
    && (forall k :: 1 <= k < |n.outputs| ==> n.outputs[k].IsData() && !n.outputs[k].IsExecution())
  }

  /** The result node: an execution input, and beside it only the value, in a visible input and a hidden output. */
  ghost predicate IsResult(n: NodeState, f: Signature, value: PropertyInfo) {
    && n.kind == FunctionResult(f.name) && |n.inputs| == 2 && |n.outputs| == 1
    && n.inputs[0].IsExecution() && !n.inputs[0].IsData() && !n.inputs[0].IsHidden()
    && n.inputs[0].property.name == "ExecIn"
    && IsValuePin(n.inputs[1], value) && !n.inputs[1].IsHidden() && n.inputs[1].labelText == value.name
    && n.inputs[1].property.name == "return_value"
    && IsValuePin(n.outputs[0], value) && n.outputs[0].IsHidden() && n.outputs[0].property.name == "return_out"
  }

  /** A data pin with the properties of the value, apart from the name. */
  predicate IsValuePin(p: Pin, value: PropertyInfo) {
    p.IsData() && !p.IsExecution() && p.property.(name := value.name) == value
  }

  /** What is recorded: the names of the arguments in order, and whether there is a result. */
  predicate IsRecorded(g: FunctionState, f: Signature, owner: int) {
    && g.name == f.name && g.owner == owner && g.userDefined == f.userDefined && g.getterName == f.getter
    && (g.returnsValue <==> f.value.Some?)
    && |g.arguments| == |f.arguments|
    && forall i :: 0 <= i < |g.arguments| ==> g.arguments[i] == f.arguments[i].name
  }

  lemma EntryIs(id: int, f: Signature)
    ensures IsEntry(EntryNode(id, f.name, f.arguments).Cache(), f)
    ensures EntryNode(id, f.name, f.arguments).Cache().outputs[0].cachedIndex == 0
  {
    var pins := EntryPins(f.arguments);
    EntryPinsAre(f.arguments);
    EntryPinsShape(f.arguments);
    var n := EntryNode(id, f.name, f.arguments).Cache();
    assert n.outputs == Cached(pins) && n.inputs == [];
    assert VisibleBefore(pins, 0) == 0;
    hide EntryPins;
    assert Properties(n.outputs[1..]) == Properties(pins[1..]);
  }

  lemma ResultIs(id: int, f: Signature, value: PropertyInfo)
    ensures IsResult(ResultNode(id, f.name, value).Cache(), f, value)
    ensures ResultNode(id, f.name, value).Cache().inputs[0].cachedIndex == 0
  {
    var n := ResultNode(id, f.name, value).Cache();
    assert VisibleBefore(ResultNode(id, f.name, value).inputs, 0) == 0;
    assert IsValuePin(n.inputs[1], value) && IsValuePin(n.outputs[0], value);
  }

  /** `t` is `s` with the function: its graph, its record, its entry, and if it has a value its result. */
  ghost predicate IsMade(s: Store, t: Store, f: Signature, id: int)
    requires 0 <= id && id + 1 < NODE_LIMIT
  {
    var ids := if f.value.Some? then {id, id + 1} else {id};
    && t.nodes.Keys == s.nodes.Keys + ids && (forall n :: n in s.nodes ==> t.nodes[n] == s.nodes[n])
    && IsEntry(t.nodes[id], f) && (f.value.Some? ==> IsResult(t.nodes[id + 1], f, f.value.value))
    && t.conns == s.conns + (if f.value.Some? then {Connection(id, 0, id + 1, 0)} else {})
    && t.graphs == s.graphs[f.name := GraphState(f.name, true, false, ids, {id}, map[])]
    && f.name in t.functions && IsRecorded(t.functions[f.name], f, id)
    && t.functions == s.functions[f.name := t.functions[f.name]]
  }

  /** The parts with the entry node. */
  lemma WithEntryIs(s: Store, f: Signature, id: int)
    requires IsIdentifier(f.name) && f.name !in s.graphs && id !in s.nodes
    ensures WithEntry(s, f, id)
            == Store(s.conns, s.nodes[id := EntryNode(id, f.name, f.arguments).Cache()],
                     s.graphs[f.name := GraphState(f.name, true, false, {id}, {id}, map[])],
                     s.functions[f.name := StateOf(f, id)])
  {
    hide EntryPins, NodeState.Cache, StateOf, IsIdentifier;
    var none: set<int> := {};
    assert none + {id} == {id};
  }

  lemma WithResultIs(s: Store, f: Signature, id: int, value: PropertyInfo)
    requires f.name in s.graphs && id + 1 !in s.nodes
    requires s.graphs[f.name] == GraphState(f.name, true, false, {id}, {id}, map[])
    ensures s.AddNode(f.name, ResultNode(id + 1, f.name, value))
            == s.(nodes := s.nodes[id + 1 := ResultNode(id + 1, f.name, value).Cache()],
                  graphs := s.graphs[f.name := GraphState(f.name, true, false, {id, id + 1}, {id}, map[])])
  {
    hide NodeState.Cache;
    assert {id} + {id + 1} == {id, id + 1};
  }

  lemma IsMadeWithEntry(s: Store, f: Signature, id: int)
    requires IsIdentifier(f.name) && f.name !in s.graphs && id !in s.nodes && f.value.None?
    requires 0 <= id && id + 1 < NODE_LIMIT
    ensures IsMade(s, WithEntry(s, f, id), f, id)
  {
    WithEntryIs(s, f, id);
    EntryIs(id, f);
    StateIsRecorded(f, id);
    hide IsEntry, IsRecorded, IsIdentifier, WithEntry, EntryNode, StateOf, NodeState.Cache;
  }

  /** The parts with the result node too. */
  lemma BothNodesAre(s: Store, f: Signature, id: int, value: PropertyInfo)
    requires IsIdentifier(f.name) && f.name !in s.graphs && id !in s.nodes && id + 1 !in s.nodes
    ensures WithEntry(s, f, id).AddNode(f.name, ResultNode(id + 1, f.name, value))
            == Store(s.conns,
                     s.nodes[id := EntryNode(id, f.name, f.arguments).Cache()]
                            [id + 1 := ResultNode(id + 1, f.name, value).Cache()],
                     s.graphs[f.name := GraphState(f.name, true, false, {id, id + 1}, {id}, map[])],
                     s.functions[f.name := StateOf(f, id)])
  {
    hide *;
    WithEntryIs(s, f, id);
    WithResultIs(WithEntry(s, f, id), f, id, value);
  }

  lemma StateIsRecorded(f: Signature, id: int)
    ensures IsRecorded(StateOf(f, id), f, id)
  {
  }

  lemma IsMadeWithResult(s: Store, w: Store, f: Signature, id: int)
    requires IsIdentifier(f.name) && f.name !in s.graphs && id !in s.nodes && id + 1 !in s.nodes && f.value.Some?
    requires 0 <= id && id + 1 < NODE_LIMIT
    requires w == WithEntry(s, f, id).AddNode(f.name, ResultNode(id + 1, f.name, f.value.value))
    ensures w.conns == s.conns && id in w.nodes && id + 1 in w.nodes
    ensures w.nodes[id] == EntryNode(id, f.name, f.arguments).Cache()
    ensures w.nodes[id + 1] == ResultNode(id + 1, f.name, f.value.value).Cache()
    ensures IsMade(s, w.(conns := w.conns + {Connection(id, 0, id + 1, 0)}), f, id)
  {
    BothNodesAre(s, f, id, f.value.value);
    EntryIs(id, f);
    ResultIs(id + 1, f, f.value.value);
    StateIsRecorded(f, id);
    hide IsEntry, IsResult, IsRecorded, IsIdentifier, WithEntry, EntryNode, ResultNode, StateOf, NodeState.Cache,
         Store.AddNode;
  }

  lemma UnusedUnwired(s: Store, id: int)
    requires s.Wired() && id !in s.nodes && id + 1 !in s.nodes
    ensures forall c :: c in s.conns ==> !c.IsLinkedTo(id) && !c.IsLinkedTo(id + 1)
  {
  }

  lemma NextIds(s: Store, f: Signature, id: int)
    requires s.NodesFiled() && s.IsAvailable(id) && HasRoom(s, f)
    ensures 0 <= id && id + 1 < NODE_LIMIT && id !in s.nodes && id + 1 !in s.nodes
  {
    assert id > 0 ==> id - 1 in s.nodes;
  }

  lemma NoRerouteEntry(id: int, f: Signature)
    ensures !EntryNode(id, f.name, f.arguments).Cache().IsReroute()
    ensures IsEntry(EntryNode(id, f.name, f.arguments).Cache(), f) ==>
              EntryNode(id, f.name, f.arguments).Cache().outputs != []
    ensures forall n: NodeState, v :: IsResult(n, f, v) ==> n.inputs != []
  {
    hide EntryPins;
  }

  /** Everything that a new function adds. */
  lemma MadeIs(s: Store, f: Signature, id: int)
    requires s.Tidy() && HasRoom(s, f) && s.IsAvailable(id) && !Refused(s, f, false)
    ensures 0 <= id && id + 1 < NODE_LIMIT && id !in s.nodes && id + 1 !in s.nodes
    ensures IsMade(s, Made(s, f, id), f, id)
  {
    hide *;
    TidyIs(s);
    NextIds(s, f, id);
    RefusedMeans(s, f, false);
    MadeInSteps(s, f, id);
    if f.value.None? {
      IsMadeWithEntry(s, f, id);
    } else {
      var w := WithEntry(s, f, id).AddNode(f.name, ResultNode(id + 1, f.name, f.value.value));
      IsMadeWithResult(s, w, f, id);
      EntryIs(id, f);
      ResultIs(id + 1, f, f.value.value);
      NoRerouteEntry(id, f);
      UnusedUnwired(s, id);
      LinkedFirstOfNew(w, id);
    }
  }
}
