/**
  `OScriptFunction::remove_argument` (`src/orchestration/function.cpp`), step by step: the pins that go are
  listed, all of them are unlinked, and then they are taken out one by one, shifting the wires each time.
 */
module FunctionEdits {
  import opened Connections
  import opened ConnectionCaches
  import opened Nodes
  import opened Stores
  import opened Orchestrations
  import opened Queries
  import opened PortShift
  import opened ArgumentRemoval

  // ----- Listing the pins -----

  /** The pins of one vector that go, last first. */
  method SideRemovals(pins: seq<Pin>, node: int, dir: Direction, argument: Option<nat>, execution: bool)
      returns (list: seq<PinRef>)
    ensures Descending(list)
    ensures forall p :: p in list <==>
              p.node == node && p.dir == dir && 0 <= p.port < |pins|
                && (argument == Some(p.port) || (execution && pins[p.port].IsExecution()))
  {
    list := [];
    for i := |pins| downto 0
      invariant Descending(list)
      invariant forall p :: p in list <==>
        && p.node == node && p.dir == dir && i <= p.port < |pins|
        && (argument == Some(p.port) || (execution && pins[p.port].IsExecution()))
    {
      if argument == Some(i) || (execution && pins[i].IsExecution()) {
        assert forall q :: q in list ==> q.port > i;
        list := list + [PinRef(node, dir, i)];
      }
    }
  }

  /** Lists about different vectors can be joined. */
  lemma DescendingJoin(a: seq<PinRef>, b: seq<PinRef>)
    requires Descending(a) && Descending(b)
    requires forall p, q :: p in a && q in b ==> p.node != q.node || p.dir != q.dir
    ensures Descending(a + b)
    ensures Members(a + b) == Members(a) + Members(b)
  {
    assert forall i, j :: 0 <= i < |a| && 0 <= j < |b| ==> a[i].node != b[j].node || a[i].dir != b[j].dir;
  }

  /** What goes from one node. */
  method ListNodeRemovals(n: NodeState, f: FunctionState, index: nat) returns (list: seq<PinRef>)
    requires index < |f.arguments|
    ensures Descending(list) && Members(list) == NodeRemovals(n, f, index)
  {
    var isCall := n.kind == CallFunction(f.name);
    var isEntry := n.kind == FunctionEntry(f.name);
    if !isCall && !isEntry {
      return [];
    }
    var direction := if isCall then PD_Input else PD_Output;
    var argument := FindPinNamed(n, f.arguments[index], direction);
    FirstNamedIsFirst(n.Pins(direction), f.arguments[index]);
    var execution := isCall && !WithoutArgument(f, index).CallsExecute();
    var outputs := SideRemovals(n.outputs, n.id, PD_Output, if isCall then None else argument, execution);
    var inputs := SideRemovals(n.inputs, n.id, PD_Input, if isCall then argument else None, execution);
    DescendingJoin(outputs, inputs);
    list := outputs + inputs;
    forall p ensures p in Members(list) <==> p in NodeRemovals(n, f, index) {
      assert p in Members(list) <==> p in outputs || p in inputs;
    }
  }

  /** The loop over all nodes. */
  method ListRemovals(nodes: map<int, NodeState>, ghost s: Store, f: FunctionState, index: nat)
      returns (list: seq<PinRef>)
    requires nodes == s.nodes && s.NodesFiled() && index < |f.arguments|
    ensures Descending(list) && Members(list) == ArgumentPins(s, f, index)
  {
    list := [];
    var todo := nodes.Keys;
    while todo != {}
      invariant todo <= nodes.Keys && Descending(list)
      invariant Members(list) == set id, p | id in nodes.Keys - todo && p in NodeRemovals(nodes[id], f, index) :: p
      decreases todo
    {
      assert exists n: int :: n in todo by {
        assert (forall n: int :: n !in todo) ==> todo == {};
      }
      var id: int :| id in todo;
      var more := ListNodeRemovals(nodes[id], f, index);
      forall p, q | p in list && q in more ensures p.node != q.node {
        assert p in Members(list) && q in Members(more);
        RemovalsAreAt(s, f, index);
      }
      DescendingJoin(list, more);
      list := list + more;
      todo := todo - {id};
    }
  }

  lemma RemovalsAreAt(s: Store, f: FunctionState, index: nat)
    requires s.NodesFiled() && index < |f.arguments|
    ensures forall id, p :: id in s.nodes && p in NodeRemovals(s.nodes[id], f, index) ==> p.node == id
  {
  }

  lemma RemovalsArePins(s: Store, f: FunctionState, index: nat, p: PinRef)
    requires s.NodesFiled() && index < |f.arguments| && p in ArgumentPins(s, f, index)
    ensures IsPin(s.nodes, p)
  {
    var id :| id in s.nodes && p in NodeRemovals(s.nodes[id], f, index);
    assert s.nodes[id].id == id;
    hide Store.NodesFiled, ArgumentPins, NodeRemovals;
    NodeRemovalsArePins(s.nodes[id], f, index, p);
  }

  lemma NodeRemovalsArePins(n: NodeState, f: FunctionState, index: nat, p: PinRef)
    requires index < |f.arguments| && p in NodeRemovals(n, f, index)
    ensures p.node == n.id && 0 <= p.port < |n.Pins(p.dir)|
  {
    FirstNamedIsFirst(n.inputs, f.arguments[index]);
    FirstNamedIsFirst(n.outputs, f.arguments[index]);
    hide FirstNamed, FunctionState.CallsExecute, WithoutArgument;
  }

  // ----- Unlinking them all -----

  /** Every pin of a list unlinked, one after the other. */
  function UnlinkedEach(s: Store, list: seq<PinRef>): Store {
    if list == [] then s else UnlinkedAll(UnlinkedEach(s, list[..|list| - 1]), list[|list| - 1])
  }

  lemma UnlinkedEachStep(s: Store, list: seq<PinRef>, i: nat)
    requires i < |list|
    ensures UnlinkedEach(s, list[..i + 1]) == UnlinkedAll(UnlinkedEach(s, list[..i]), list[i])
    ensures UnlinkedEach(s, list[..0]) == s
  {
    assert list[..i + 1][..i] == list[..i];
  }

  lemma {:induction false} UnlinkedEachKeepsTidy(s: Store, list: seq<PinRef>)
    requires s.Tidy()
    ensures UnlinkedEach(s, list).Tidy() && UnlinkedEach(s, list).nodes == s.nodes
    ensures UnlinkedEach(s, list).conns <= s.conns && UnlinkedEach(s, list).functions == s.functions
  {
    if list != [] {
      UnlinkedEachKeepsTidy(s, list[..|list| - 1]);
      hide Store.Tidy;
      UnlinkedKeepsTidy(UnlinkedEach(s, list[..|list| - 1]), list[|list| - 1]);
      DropKeepsNodes(UnlinkedEach(s, list[..|list| - 1]),
        Unlinked(UnlinkedEach(s, list[..|list| - 1]), list[|list| - 1]));
    }
  }

  /** The wires at any of a set of pins. */
  function WiresAtAny(s: Store, d: set<PinRef>): set<Connection> {
    set c | c in s.conns && (c.End(PD_Output) in d || c.End(PD_Input) in d)
  }

  lemma WiresAtAnyStep(s: Store, d: set<PinRef>, p: PinRef)
    ensures s.Drop(WiresAtAny(s, d)).UnlinkAll(p) == s.Drop(WiresAtAny(s, d + {p}))
  {
    var t := s.Drop(WiresAtAny(s, d));
    DropTwice(s, WiresAtAny(s, d), t.WiresAt(p));
    assert WiresAtAny(s, d) + t.WiresAt(p) == WiresAtAny(s, d + {p});
  }

  lemma WiresAtAnyEnds(s: Store, d: set<PinRef>)
    ensures s.Drop(WiresAtAny(s, {})) == s
    ensures s.Drop(WiresAtAny(s, d)) == s.Drop(s.conns - Surviving(s.conns, d))
    ensures s.Drop(WiresAtAny(s, d)).conns == Surviving(s.conns, d)
  {
    assert WiresAtAny(s, {}) == {};
    DropNothing(s);
    assert WiresAtAny(s, d) == s.conns - Surviving(s.conns, d);
  }

  /** Under the invariant the wires at the pins go, and no others. */
  lemma {:induction false} UnlinkedEachIsAny(s: Store, list: seq<PinRef>)
    requires s.Inv()
    ensures UnlinkedEach(s, list) == s.Drop(WiresAtAny(s, Members(list)))
  {
    hide Store.Inv, UnlinkedAll, WiresAtAny, Store.Drop;
    if list == [] {
      assert Members(list) == {};
      WiresAtAnyEnds(s, {});
    } else {
      var init, p := list[..|list| - 1], list[|list| - 1];
      UnlinkedEachIsAny(s, init);
      assert list == init + [p];
      assert Members(list) == Members(init) + {p};
      DropKeepsInv(s, WiresAtAny(s, Members(init)));
      UnlinkedIsAll(s.Drop(WiresAtAny(s, Members(init))), p);
      WiresAtAnyStep(s, Members(init), p);
    }
  }

  lemma MembersStep(list: seq<PinRef>, i: nat)
    requires i < |list|
    ensures list[i] in Members(list) && Members(list[..i + 1]) == Members(list[..i]) + {list[i]}
  {
    assert list[..i + 1] == list[..i] + [list[i]];
  }

  lemma MembersEnds(list: seq<PinRef>)
    ensures Members(list[..0]) == {} && list[..|list|] == list
  {
  }

  /** The first loop: every pin is unlinked while all vectors are still whole. */
  method UnlinkPins(o: Orchestration, list: seq<PinRef>)
    requires o.Valid() && o.state.Tidy()
    requires forall p :: p in Members(list) ==> IsPin(o.state.nodes, p)
    modifies o`state, o.cache, o.graphs.Values
    ensures o.Valid() && o.state == UnlinkedEach(old(o.state), list)
  {
    hide *;
    ghost var s := o.state;
    MembersEnds(list);
    UnlinkedEachNone(s, list);
    for i := 0 to |list|
      invariant o.Valid() && o.state == UnlinkedEach(s, list[..i])
    {
      MembersStep(list, i);
      UnlinkedEachStep(s, list, i);
      UnlinkedEachKeepsTidy(s, list[..i]);
      TidyIs(o.state);
      o.Fields();
      o.UnlinkAll(list[i]);
    }
  }

  lemma UnlinkedEachNone(s: Store, list: seq<PinRef>)
    ensures UnlinkedEach(s, list[..0]) == s
  {
  }

  // ----- Taking them out -----

  /** The nodes without a set of pins. */
  function KeptNodes(nodes: map<int, NodeState>, d: set<PinRef>): map<int, NodeState> {
    map id | id in nodes :: KeptNode(nodes[id], d)
  }

  /** The node after one more of its pins is gone: what comes before it is still whole. */
  lemma KeptNodeStep(n: NodeState, d: set<PinRef>, p: PinRef)
    requires 0 <= p.port < |n.Pins(p.dir)| && p.node == n.id && p !in d
    requires forall q :: q in d && q.node == p.node && q.dir == p.dir ==> q.port > p.port
    ensures var k := KeptNode(n, d);
            p.port < |k.Pins(p.dir)| && k.Pins(p.dir)[p.port] == n.Pins(p.dir)[p.port]
            && KeptNode(n, d + {p}) == WithoutPin(k, p.dir, p.port)
  {
    KeptStep(n.Pins(p.dir), d, p);
    KeptElsewhere(n.Pins(p.dir.Opposite()), d, p, n.id, p.dir.Opposite());
    var kept := Kept(n.Pins(p.dir), d, n.id, p.dir);
    assert kept[p.port] == kept[..p.port + 1][p.port];
  }

  function WithoutPin(n: NodeState, dir: Direction, port: nat): NodeState
    requires port < |n.Pins(dir)|
  {
    if dir == PD_Input then n.(inputs := RemoveAt(n.inputs, port)) else n.(outputs := RemoveAt(n.outputs, port))
  }

  lemma KeptNodesStep(nodes: map<int, NodeState>, d: set<PinRef>, p: PinRef)
    requires p.node in nodes && (forall id :: id in nodes ==> nodes[id].id == id)
    ensures KeptNodes(nodes, d + {p}) == KeptNodes(nodes, d)[p.node := KeptNode(nodes[p.node], d + {p})]
  {
    forall id | id in nodes && id != p.node ensures KeptNode(nodes[id], d + {p}) == KeptNode(nodes[id], d) {
      KeptElsewhere(nodes[id].inputs, d, p, id, PD_Input);
      KeptElsewhere(nodes[id].outputs, d, p, id, PD_Output);
    }
  }

  /**
    `remove_pin` for the pin object at a position: it is looked up by identity, and a position identifies it.
   */
  method TakePin(o: Orchestration, p: PinRef)
    requires o.Valid() && IsPin(o.nodes, p)
    modifies o`nodes, o`state
    ensures o.Valid() && IsPin(old(o.state).nodes, p)
    ensures var nodes := old(o.state).nodes;
            o.state == old(o.state).(nodes := nodes[p.node := WithoutPin(nodes[p.node], p.dir, p.port)])
  {
    o.nodes := o.nodes[p.node := WithoutPin(o.nodes[p.node], p.dir, p.port)];
    o.state := o.state.(nodes := o.nodes);
  }

  /** The shifts of the second loop, each from the index the pin had in its whole vector. */
  function ShiftAll(nodes: map<int, NodeState>, conns: set<Connection>, list: seq<PinRef>): set<Connection> {
    if list == [] then conns else
    ShiftedFor(nodes, ShiftAll(nodes, conns, list[..|list| - 1]), list[|list| - 1])
  }

  function ShiftedFor(nodes: map<int, NodeState>, conns: set<Connection>, p: PinRef): set<Connection> {
    if IsPin(nodes, p) then
      Adjusted(conns, p.node, PinOf(nodes, p).cachedIndex + 1, -1, Some(PinOf(nodes, p).direction))
    else conns
  }

  /** One turn of the second loop of `remove_argument`: the pin object is where it was. */
  lemma TakenPin(s: Store, list: seq<PinRef>, i: nat)
    requires s.NodesFiled() && Descending(list) && i < |list| && IsPin(s.nodes, list[i])
    ensures var p, d := list[i], Members(list[..i]);
            && IsPin(KeptNodes(s.nodes, d), p)
            && PinOf(KeptNodes(s.nodes, d), p) == PinOf(s.nodes, p)
            && KeptNodes(s.nodes, d)[p.node := WithoutPin(KeptNodes(s.nodes, d)[p.node], p.dir, p.port)]
               == KeptNodes(s.nodes, Members(list[..i + 1]))
  {
    var p, d := list[i], Members(list[..i]);
    MembersStep(list, i);
    ListStep(list, i);
    FiledIds(s);
    IsPinMeans(s.nodes, p);
    KeptNodeStep(s.nodes[p.node], d, p);
    KeptNodesStep(s.nodes, d, p);
    hide Members, Descending, KeptNode, WithoutPin, Store.NodesFiled;
  }

  lemma FiledIds(s: Store)
    requires s.NodesFiled()
    ensures forall id :: id in s.nodes ==> s.nodes[id].id == id
  {
  }

  lemma ShiftStep(nodes: map<int, NodeState>, conns: set<Connection>, list: seq<PinRef>, i: nat)
    requires i < |list| && IsPin(nodes, list[i])
    ensures var pin := PinOf(nodes, list[i]);
            ShiftAll(nodes, conns, list[..i + 1])
            == Adjusted(ShiftAll(nodes, conns, list[..i]), list[i].node, pin.cachedIndex + 1, -1, Some(pin.direction))
  {
    assert list[..i + 1][..i] == list[..i];
    hide Adjusted;
  }

  lemma ListStep(list: seq<PinRef>, i: nat)
    requires Descending(list) && i < |list|
    ensures list[i] !in Members(list[..i])
    ensures forall q :: q in Members(list[..i]) && q.node == list[i].node && q.dir == list[i].dir ==>
            q.port > list[i].port
  {
  }

  /** The second loop: the pins go one by one, each shifting the wires above it. */
  method TakePins(o: Orchestration, list: seq<PinRef>)
    requires o.Valid() && o.state.NodesFiled() && Descending(list)
    requires forall p :: p in list ==> IsPin(o.state.nodes, p)
    modifies o`nodes, o`state, o.cache
    ensures o.Valid()
    ensures o.state == old(o.state).(nodes := KeptNodes(old(o.state).nodes, Members(list)),
                                     conns := ShiftAll(old(o.state).nodes, old(o.state).conns, list))
  {
    hide *;
    o.Fields();
    ghost var s := o.state;
    MembersEnds(list);
    TakePinsStart(s, list);
    for i := 0 to |list|
      invariant o.Valid()
      invariant o.state == s.(nodes := KeptNodes(s.nodes, Members(list[..i])),
                conns := ShiftAll(s.nodes, s.conns, list[..i]))
    {
      var p := list[i];
      assert p in list;
      TakenPin(s, list, i);
      ShiftStep(s.nodes, s.conns, list, i);
      o.Fields();
      PinOfMeans(o.nodes, p);
      var pin := o.nodes[p.node].Pins(p.dir)[p.port];
      TakePin(o, p);
      o.AdjustConnections(p.node, pin.cachedIndex + 1, -1, Some(pin.direction));
    }
  }

  lemma PinOfMeans(nodes: map<int, NodeState>, p: PinRef)
    requires IsPin(nodes, p)
    ensures p.node in nodes && 0 <= p.port < |nodes[p.node].Pins(p.dir)|
    ensures PinOf(nodes, p) == nodes[p.node].Pins(p.dir)[p.port]
  {
  }

  lemma TakePinsStart(s: Store, list: seq<PinRef>)
    requires s.NodesFiled()
    ensures s.nodes == KeptNodes(s.nodes, {}) && ShiftAll(s.nodes, s.conns, list[..0]) == s.conns
  {
    forall id | id in s.nodes ensures KeptNode(s.nodes[id], {}) == s.nodes[id] {
      KeptAll(s.nodes[id].inputs, {}, id, PD_Input);
      KeptAll(s.nodes[id].outputs, {}, id, PD_Output);
    }
  }

  // ----- The whole operation -----

  /** The pins to remove, each vector from its end, in whatever order the nodes come. */
  ghost predicate IsRemovalList(s: Store, f: FunctionState, index: nat, list: seq<PinRef>)
    requires index < |f.arguments|
  {
    Descending(list) && Members(list) == ArgumentPins(s, f, index)
  }

  /** `remove_argument` is refused for a bad index and for a function that is not user-defined. */
  predicate Removable(s: Store, name: string, index: int)
    requires name in s.functions
  {
    s.functions[name].userDefined && 0 <= index < |s.functions[name].arguments|
  }

  lemma ListedArePins(s: Store, f: FunctionState, index: nat, list: seq<PinRef>)
    requires s.NodesFiled() && index < |f.arguments| && IsRemovalList(s, f, index, list)
    ensures forall p :: p in list ==> IsPin(s.nodes, p)
  {
    forall p | p in list ensures IsPin(s.nodes, p) {
      assert p in Members(list);
      RemovalsArePins(s, f, index, p);
    }
  }

  /** The pins of a list unlinked and taken out. */
  function TakenOut(s: Store, list: seq<PinRef>): Store {
    var u := UnlinkedEach(s, list);
    u.(nodes := KeptNodes(u.nodes, Members(list)), conns := ShiftAll(u.nodes, u.conns, list))
  }

  /** `t` is `s` after `remove_argument`. */
  ghost predicate ArgumentRemoved(s: Store, name: string, index: int, t: Store)
    requires name in s.functions
  {
    if Removable(s, name, index) then
      exists list ::
        && IsRemovalList(s, s.functions[name], index, list)
        && t == TakenOut(s, list).(functions := s.functions[name := WithoutArgument(s.functions[name], index)])
    else t == s
  }

  method SetFunction(o: Orchestration, name: string, f: FunctionState)
    requires o.Valid()
    modifies o`functions, o`state
    ensures o.Valid() && o.state == old(o.state).(functions := old(o.state).functions[name := f])
  {
    o.functions := o.functions[name := f];
    o.state := o.state.(functions := o.functions);
  }

  lemma TakenOutInSteps(s: Store, list: seq<PinRef>)
    requires s.Tidy()
    ensures var u := UnlinkedEach(s, list);
            && u.NodesFiled() && u.nodes == s.nodes && u.functions == s.functions
            && u.(nodes := KeptNodes(u.nodes, Members(list)), conns := ShiftAll(u.nodes, u.conns, list))
               == TakenOut(s, list)
            && TakenOut(s, list).functions == s.functions
  {
    UnlinkedEachKeepsTidy(s, list);
  }

  lemma RemovedBy(s: Store, name: string, index: int, list: seq<PinRef>)
    requires name in s.functions && Removable(s, name, index)
    requires IsRemovalList(s, s.functions[name], index, list)
    ensures var t := TakenOut(s, list).(functions := s.functions[name := WithoutArgument(s.functions[name], index)]);
            ArgumentRemoved(s, name, index, t)
  {
  }

  lemma RemovableMeans(s: Store, name: string, index: int)
    requires name in s.functions
    ensures Removable(s, name, index) <==> s.functions[name].userDefined && 0 <= index < |s.functions[name].arguments|
    ensures !Removable(s, name, index) ==> ArgumentRemoved(s, name, index, s)
  {
  }

  lemma MembersListed(list: seq<PinRef>)
    ensures forall p :: p in Members(list) <==> p in list
  {
  }

  lemma ListIsRemoval(s: Store, f: FunctionState, index: nat, list: seq<PinRef>)
    requires index < |f.arguments| && Descending(list) && Members(list) == ArgumentPins(s, f, index)
    ensures IsRemovalList(s, f, index, list)
  {
  }

  /** `remove_argument` */
  method RemoveArgumentAt(o: Orchestration, name: string, index: int)
    requires o.Valid() && o.state.Tidy() && name in o.functions && name in o.state.functions
    modifies o`nodes, o`functions, o`state, o.cache, o.graphs.Values
    ensures o.Valid() && name in old(o.state).functions && ArgumentRemoved(old(o.state), name, index, o.state)
  {
    hide *;
    o.Fields();
    ghost var s := o.state;
    var f := o.functions[name];
    RemovableMeans(s, name, index);
    if !f.userDefined || !(0 <= index < |f.arguments|) {
      return;
    }
    TidyIs(s);
    var list := ListRemovals(o.nodes, s, f, index);
    ListIsRemoval(s, f, index, list);
    ListedArePins(s, f, index, list);
    MembersListed(list);
    TakenOutInSteps(s, list);
    RemovedBy(s, name, index, list);
    UnlinkPins(o, list);
    TakePins(o, list);
    SetFunction(o, name, WithoutArgument(f, index));
  }

  // ----- Where the pins that go are visible -----

  /** Under the invariant: visible pins, so that each has its own position as its index. */
  ghost predicate RemovalsVisible(s: Store, name: string, index: int)
    requires name in s.functions
  {
    Removable(s, name, index) ==> forall p :: p in ArgumentPins(s, s.functions[name], index) ==> s.HasPin(p)
  }

  lemma VisibleShift(s: Store, conns: set<Connection>, p: PinRef)
    requires s.NodesSound() && s.HasPin(p)
    ensures ShiftedFor(s.nodes, conns, p) == Adjusted(conns, p.node, p.port + 1, -1, Some(p.dir))
  {
    assert s.nodes[p.node].Sound();
  }

  lemma {:induction false} VisibleShifts(s: Store, conns: set<Connection>, list: seq<PinRef>)
    requires s.NodesSound() && forall p :: p in list ==> s.HasPin(p)
    ensures ShiftAll(s.nodes, conns, list) == AdjustAll(conns, list)
  {
    if list != [] {
      VisibleShifts(s, conns, list[..|list| - 1]);
      VisibleShift(s, ShiftAll(s.nodes, conns, list[..|list| - 1]), list[|list| - 1]);
    }
  }

  /** Then the steps together remove the pins and renumber the wires that stay. */
  lemma VisibleTakenOut(s: Store, list: seq<PinRef>)
    requires s.Inv() && Descending(list) && forall p :: p in Members(list) ==> s.HasPin(p)
    ensures TakenOut(s, list) == RemovePins(s, Members(list))
  {
    var d := Members(list);
    MembersListed(list);
    UnlinkedEachIsAny(s, list);
    WiresAtAnyEnds(s, d);
    VisibleShifts(s, Surviving(s.conns, d), list);
    AdjustAllRenumbers(Surviving(s.conns, d), list);
    hide Store.Inv, UnlinkedEach, ShiftAll, Surviving, WiresAtAny, RenumberAll, AdjustAll;
  }

  /** And `remove_argument` has exactly the effect that `RemoveArgument` describes. */
  lemma RemovalIsRenumbering(s: Store, name: string, index: int, t: Store)
    requires s.Inv() && name in s.functions && RemovalsVisible(s, name, index) && ArgumentRemoved(s, name, index, t)
    ensures t == RemoveArgument(s, name, index)
  {
    if Removable(s, name, index) {
      var f := s.functions[name];
      var list :| && IsRemovalList(s, f, index, list)
                  && t == TakenOut(s, list).(functions := s.functions[name := WithoutArgument(f, index)]);
      VisibleTakenOut(s, list);
      hide TakenOut, RemovePins, ArgumentPins;
    }
  }

  lemma RemovalIsRefused(s: Store, name: string, index: int)
    requires name in s.functions && (!s.functions[name].userDefined || !(0 <= index < |s.functions[name].arguments|))
    ensures RemoveArgument(s, name, index) == s
  {
  }

  /** Of the table only the list of the function's arguments changes: the others stay, in order. */
  lemma FunctionAfterRemoval(s: Store, name: string, index: int, t: Store)
    requires name in s.functions && Removable(s, name, index) && ArgumentRemoved(s, name, index, t)
    ensures t.functions.Keys == s.functions.Keys
    ensures forall f :: f in s.functions && f != name ==> t.functions[f] == s.functions[f]
    ensures var f, g := s.functions[name], t.functions[name];
            && g == f.(arguments := g.arguments) && |g.arguments| == |f.arguments| - 1
            && forall k :: 0 <= k < |g.arguments| ==> g.arguments[k] == f.arguments[if k < index then k else k + 1]
  {
    hide TakenOut, IsRemovalList;
  }

  /**
    Where the pins that go are visible and the function does not become a getter, every connection that ends
    at none of the argument's own pins is there afterwards, on the same pins: calls stay wired into the flow.
   */
  lemma FlowKept(s: Store, name: string, index: int, t: Store, c: Connection)
    requires s.Inv() && name in s.functions && Removable(s, name, index) && RemovalsVisible(s, name, index)
    requires ArgumentRemoved(s, name, index, t) && !BecomesGetter(s.functions[name])
    requires c in s.conns && OffArgument(s, s.functions[name], index, c)
    ensures exists e :: && e in t.conns && SamePin(s, c.End(PD_Output), t, e.End(PD_Output))
                        && SamePin(s, c.End(PD_Input), t, e.End(PD_Input))
  {
    RemovalIsRenumbering(s, name, index, t);
    InvIs(s);
    hide *;
    RemovableMeans(s, name, index);
    CallsKeepExecution(s, name, index, c);
  }

  // ----- Whatever the pins are -----

  /** Shifting ports changes no node a wire joins. */
  lemma ShiftedNodes(nodes: map<int, NodeState>, conns: set<Connection>, p: PinRef, e: Connection)
    requires e in ShiftedFor(nodes, conns, p)
    ensures exists c :: c in conns && c.fromNode == e.fromNode && c.toNode == e.toNode
  {
    if IsPin(nodes, p) {
      var pin := PinOf(nodes, p);
      AdjustedIsImage(conns, p.node, pin.cachedIndex + 1, -1, pin.direction);
      var c :| c in conns && e == Moved(c, p.node, pin.cachedIndex + 1, -1, pin.direction);
    }
  }

  lemma {:induction false} ShiftAllNodes(nodes: map<int, NodeState>, conns: set<Connection>, list: seq<PinRef>)
    ensures forall e :: e in ShiftAll(nodes, conns, list) ==>
              exists c :: c in conns && c.fromNode == e.fromNode && c.toNode == e.toNode
  {
    if list != [] {
      ShiftAllNodes(nodes, conns, list[..|list| - 1]);
      forall e | e in ShiftAll(nodes, conns, list)
        ensures exists c :: c in conns && c.fromNode == e.fromNode && c.toNode == e.toNode
      {
        ShiftedNodes(nodes, ShiftAll(nodes, conns, list[..|list| - 1]), list[|list| - 1], e);
      }
    }
  }

  lemma TakenOutParts(s: Store, list: seq<PinRef>)
    requires s.Tidy()
    ensures var u, t := UnlinkedEach(s, list), TakenOut(s, list);
            && u.Tidy() && u.functions == s.functions && t.functions == s.functions && t.graphs == u.graphs
            && t.nodes == KeptNodes(s.nodes, Members(list)) && u.nodes == s.nodes && u.conns <= s.conns
            && forall e :: e in t.conns ==> exists c :: c in s.conns && c.fromNode == e.fromNode && c.toNode == e.toNode
  {
    UnlinkedEachKeepsTidy(s, list);
    ShiftAllNodes(s.nodes, UnlinkedEach(s, list).conns, list);
    hide Store.Tidy, KeptNodes, ShiftAll, UnlinkedEach;
  }

  lemma KeptIsCached(n: NodeState, d: set<PinRef>)
    requires |n.inputs| <= PORT_LIMIT && |n.outputs| <= PORT_LIMIT
    ensures KeptNode(n, d).Cache().IsCached() && KeptNode(n, d).Cache().id == n.id
  {
    KeptSize(n.inputs, d, n.id, PD_Input);
    KeptSize(n.outputs, d, n.id, PD_Output);
    CacheIsCached(KeptNode(n, d));
  }

  lemma {:induction false} KeptSize(pins: seq<Pin>, d: set<PinRef>, node: int, dir: Direction)
    ensures |Kept(pins, d, node, dir)| <= |pins|
  {
    if pins != [] {
      KeptSize(pins[..|pins| - 1], d, node, dir);
    }
  }

  /** Removing an argument keeps what holds whatever pins the nodes have. */
  lemma ArgumentRemovedKeepsTidy(s: Store, name: string, index: int, t: Store)
    requires s.Tidy() && name in s.functions && ArgumentRemoved(s, name, index, t)
    ensures Recached(t).Tidy()
  {
    if Removable(s, name, index) {
      var f := s.functions[name];
      var list :| && IsRemovalList(s, f, index, list)
                  && t == TakenOut(s, list).(functions := s.functions[name := WithoutArgument(f, index)]);
      TakenOutParts(s, list);
      hide TakenOut, UnlinkedEach, IsRemovalList;
      TakenOutKeepsTidy(s, UnlinkedEach(s, list), t, Members(list), name);
    } else {
      RecachedIsSame(s);
    }
  }

  lemma RecachedIsSame(s: Store)
    requires s.NodesFiled()
    ensures Recached(s) == s
  {
    forall id | id in s.nodes ensures s.nodes[id].Cache() == s.nodes[id] {
      assert s.nodes[id].IsCached();
    }
    assert Recached(s).nodes == s.nodes;
  }

  lemma TakenOutKeepsTidy(s: Store, u: Store, t: Store, d: set<PinRef>, name: string)
    requires s.Tidy() && u.Tidy() && u.functions == s.functions && u.nodes == s.nodes && name in s.functions
    requires t.graphs == u.graphs && t.nodes == KeptNodes(s.nodes, d)
    requires forall e :: e in t.conns ==> exists c :: c in s.conns && c.fromNode == e.fromNode && c.toNode == e.toNode
    requires name in t.functions && t.functions == s.functions[name := t.functions[name]]
    requires t.functions[name].name == name && t.functions[name].owner == s.functions[name].owner
    ensures Recached(t).Tidy()
  {
    hide *;
    var r := Recached(t);
    TidyIs(s);
    TakenOutNodesFiled(s, t, d);
    RecachedKeptParts(s, t, d);
    TidyIs(u);
    TidyIs(r);
    SameKeysGrouped(u, r);
    FunctionChanged(s, r, name);
    WiredByEnds(s, r);
  }

  lemma RecachedKeptParts(s: Store, t: Store, d: set<PinRef>)
    requires t.nodes == KeptNodes(s.nodes, d)
    ensures Recached(t).nodes.Keys == s.nodes.Keys && Recached(t).conns == t.conns
    ensures Recached(t).graphs == t.graphs && Recached(t).functions == t.functions
  {
  }

  lemma FunctionChanged(s: Store, t: Store, name: string)
    requires s.FunctionsSound() && name in s.functions && name in t.functions && t.nodes.Keys == s.nodes.Keys
    requires t.functions == s.functions[name := t.functions[name]]
    requires t.functions[name].name == name && t.functions[name].owner == s.functions[name].owner
    ensures t.FunctionsSound()
  {
  }

  lemma WiredByEnds(s: Store, t: Store)
    requires s.Wired() && t.nodes.Keys == s.nodes.Keys
    requires forall e :: e in t.conns ==> exists c :: c in s.conns && c.fromNode == e.fromNode && c.toNode == e.toNode
    ensures t.Wired()
  {
  }

  lemma TakenOutNodesFiled(s: Store, t: Store, d: set<PinRef>)
    requires s.NodesFiled() && t.nodes == KeptNodes(s.nodes, d)
    ensures Recached(t).NodesFiled()
  {
    hide KeptNode, NodeState.Cache;
    forall id | id in s.nodes
      ensures 0 <= id < NODE_LIMIT && KeptNode(s.nodes[id], d).Cache().id == id
              && KeptNode(s.nodes[id], d).Cache().IsCached()
    {
      assert s.nodes[id].IsCached();
      KeptIsCached(s.nodes[id], d);
    }
  }

  // ----- Where a pin that goes is hidden -----

  /**
    A hidden pin has the index -1, so the shift that follows its removal moves every port of its side,
    although no visible pin has moved.  The connections are left alone exactly when there are none on that
    side, and none dangles exactly when there is none at the first port.
   */
  lemma HiddenRemoval(s: Store, p: PinRef)
    requires s.Inv() && IsPin(s.nodes, p) && !s.HasPin(p) && PinOf(s.nodes, p).cachedIndex == -1
    ensures var t := TakenOut(s, [p]);
            && (forall q :: s.HasPin(q) ==> t.HasPin(q) && t.PinAt(q) == s.PinAt(q))
            && t.conns == MovedAll(s.conns, p.node, 0, -1, p.dir)
            && (t.conns == s.conns <==> forall c :: c in s.conns ==> c.End(p.dir).node != p.node)
            && (t.Anchored() <==> forall c :: c in s.conns ==> c.End(p.dir) != PinRef(p.node, p.dir, 0))
  {
    HiddenTakenOut(s, p);
    HiddenShift(s, p);
    HiddenPinsStay(s, TakenOut(s, [p]), p);
    HiddenAnchors(s, TakenOut(s, [p]), p);
    hide *;
  }

  lemma HiddenTakenOut(s: Store, p: PinRef)
    requires s.Inv() && IsPin(s.nodes, p) && !s.HasPin(p) && PinOf(s.nodes, p).cachedIndex == -1
    ensures TakenOut(s, [p]).conns == MovedAll(s.conns, p.node, 0, -1, p.dir)
    ensures TakenOut(s, [p]).nodes == KeptNodes(s.nodes, {p})
  {
    assert s.nodes[p.node].Sound();
    assert PinOf(s.nodes, p).direction == p.dir;
    UnlinkedNothing(s, p);
    OneOfEach(s, p);
    hide Store.Inv, NodeState.Sound, UnlinkedEach, ShiftAll, MovedAll, KeptNodes, Store.HasPin, PinOf, Members;
    AdjustedIsImage(s.conns, p.node, 0, -1, p.dir);
    hide Adjusted;
  }

  lemma OneOfEach(s: Store, p: PinRef)
    ensures UnlinkedEach(s, [p]) == UnlinkedAll(s, p) && Members([p]) == {p}
    ensures ShiftAll(s.nodes, s.conns, [p]) == ShiftedFor(s.nodes, s.conns, p)
  {
    var list := [p];
    assert list[..0] == [];
    hide UnlinkedAll, ShiftedFor;
    assert UnlinkedEach(s, list) == UnlinkedAll(UnlinkedEach(s, list[..0]), p);
    assert ShiftAll(s.nodes, s.conns, list) == ShiftedFor(s.nodes, ShiftAll(s.nodes, s.conns, list[..0]), p);
  }

  /** The shift moves every port of the side down by one, and the first to the last of the 8 bits. */
  lemma MovedDown(c: Connection, node: int, dir: Direction)
    ensures var d := Moved(c, node, 0, -1, dir);
            && d.End(dir.Opposite()) == c.End(dir.Opposite())
            && d.End(dir) == if c.End(dir).node != node then c.End(dir)
                             else PinRef(node, dir, if c.End(dir).port > 0 then c.End(dir).port - 1 else 255)
  {
  }

  lemma SameEnds(c: Connection, d: Connection, dir: Direction)
    requires c.End(dir) == d.End(dir) && c.End(dir.Opposite()) == d.End(dir.Opposite())
    ensures c == d
  {
  }

  /** A lowest port on the side would have to come from a lower one. */
  lemma HiddenShift(s: Store, p: PinRef)
    requires s.Inv() && IsPin(s.nodes, p) && !s.HasPin(p)
    ensures MovedAll(s.conns, p.node, 0, -1, p.dir) == s.conns <==>
            forall c :: c in s.conns ==> c.End(p.dir).node != p.node
  {
    hide Store.Inv, Moved, IsPin, Store.HasPin;
    var t := MovedAll(s.conns, p.node, 0, -1, p.dir);
    if forall c :: c in s.conns ==> c.End(p.dir).node != p.node {
      forall c | c in s.conns ensures Moved(c, p.node, 0, -1, p.dir) == c {
        MovedDown(c, p.node, p.dir);
        SameEnds(c, Moved(c, p.node, 0, -1, p.dir), p.dir);
      }
      assert t == s.conns;
    } else {
      var c :| c in s.conns && c.End(p.dir).node == p.node;
      NoLowest(s, p, c);
    }
  }

  /** Shifted onto itself, the set would have a wire at every lower port, and then one beyond the last. */
  lemma {:induction false} NoLowest(s: Store, p: PinRef, c: Connection)
    requires s.Inv() && IsPin(s.nodes, p) && !s.HasPin(p) && c in s.conns && c.End(p.dir).node == p.node
    ensures MovedAll(s.conns, p.node, 0, -1, p.dir) != s.conns
    decreases c.End(p.dir).port
  {
    var d := Moved(c, p.node, 0, -1, p.dir);
    assert d in MovedAll(s.conns, p.node, 0, -1, p.dir);
    MovedDown(c, p.node, p.dir);
    InvIs(s);
    hide *;
    if d in s.conns {
      if c.End(p.dir).port > 0 {
        NoLowest(s, p, d);
      } else {
        AnchoredEnd(s, d, p.dir);
        HiddenPinsStay(s, s.(nodes := KeptNodes(s.nodes, {p})), p);
      }
    }
  }

  lemma AnchoredEnd(s: Store, c: Connection, dir: Direction)
    requires s.Anchored() && c in s.conns
    ensures s.HasPin(c.End(dir)) && s.HasPin(c.End(dir.Opposite()))
  {
    assert s.HasPin(c.End(PD_Output)) && s.HasPin(c.End(PD_Input));
  }

  /** Nothing visible comes after a hidden pin, so no visible pin moves. */
  lemma HiddenPinsStay(s: Store, t: Store, p: PinRef)
    requires s.NodesSound() && IsPin(s.nodes, p) && !s.HasPin(p) && t.nodes == KeptNodes(s.nodes, {p})
    ensures forall q :: t.HasPin(q) <==> s.HasPin(q)
    ensures forall q :: s.HasPin(q) ==> t.PinAt(q) == s.PinAt(q)
    ensures !s.HasPin(PinRef(p.node, p.dir, 255))
  {
    hide *;
    SoundIsFiled(s);
    HiddenPinMeans(s, p);
    KeptNodesWithoutPin(s, p);
    WithoutHidden(s.nodes[p.node], p.dir, p.port);
    SameVisiblePins(s, t, p.node);
  }

  lemma HiddenPinMeans(s: Store, p: PinRef)
    requires s.NodesSound() && IsPin(s.nodes, p) && !s.HasPin(p)
    ensures p.node in s.nodes && 0 <= p.port < |s.nodes[p.node].Pins(p.dir)| <= 256
    ensures s.nodes[p.node].Pins(p.dir)[p.port].IsHidden() && HiddenLast(s.nodes[p.node].Pins(p.dir))
    ensures s.HasPin(PinRef(p.node, p.dir, 255)) <==> s.nodes[p.node].HasVisiblePin(p.dir, 255)
  {
    assert s.nodes[p.node].Sound();
  }

  lemma KeptNodesWithoutPin(s: Store, p: PinRef)
    requires s.NodesFiled() && p.node in s.nodes && 0 <= p.port < |s.nodes[p.node].Pins(p.dir)|
    ensures KeptNodes(s.nodes, {p}) == s.nodes[p.node := WithoutPin(s.nodes[p.node], p.dir, p.port)]
  {
    FiledIds(s);
    KeptNodeNone(s.nodes[p.node]);
    KeptNodeStep(s.nodes[p.node], {}, p);
    assert {} + {p} == {p};
    TakePinsStart(s, []);
    KeptNodesStep(s.nodes, {}, p);
    hide KeptNode, KeptNodes, WithoutPin, Store.NodesFiled;
  }

  lemma SameVisiblePins(s: Store, t: Store, id: int)
    requires id in s.nodes && id in t.nodes && t.nodes == s.nodes[id := t.nodes[id]]
    requires forall d, port :: t.nodes[id].HasVisiblePin(d, port) <==> s.nodes[id].HasVisiblePin(d, port)
    requires forall d, port :: s.nodes[id].HasVisiblePin(d, port) ==>
               port < |t.nodes[id].Pins(d)| && t.nodes[id].Pins(d)[port] == s.nodes[id].Pins(d)[port]
    ensures forall q :: t.HasPin(q) <==> s.HasPin(q)
    ensures forall q :: s.HasPin(q) ==> t.PinAt(q) == s.PinAt(q)
  {
    hide NodeState.HasVisiblePin;
  }

  lemma WithoutHidden(n: NodeState, dir: Direction, k: nat)
    requires k < |n.Pins(dir)| <= 256 && n.Pins(dir)[k].IsHidden() && HiddenLast(n.Pins(dir))
    ensures var m := WithoutPin(n, dir, k);
            && (forall d, port :: m.HasVisiblePin(d, port) <==> n.HasVisiblePin(d, port))
            && (forall d, port :: n.HasVisiblePin(d, port) ==> port < |m.Pins(d)| && m.Pins(d)[port] == n.Pins(d)[port])
    ensures !n.HasVisiblePin(dir, 255)
  {
    var m, pins := WithoutPin(n, dir, k), n.Pins(dir);
    assert m.Pins(dir.Opposite()) == n.Pins(dir.Opposite());
    assert m.Pins(dir) == RemoveAt(pins, k);
    forall i | 0 <= i < |pins| - 1 ensures m.Pins(dir)[i] == if i < k then pins[i] else pins[i + 1] {
    }
    forall i | k <= i < |pins| ensures pins[i].IsHidden() {
    }
    hide WithoutPin, HiddenLast, RemoveAt, Pin.IsHidden;
    forall d, port
      ensures m.HasVisiblePin(d, port) <==> n.HasVisiblePin(d, port)
      ensures n.HasVisiblePin(d, port) ==> m.Pins(d)[port] == n.Pins(d)[port]
    {
      assert d == dir || d == dir.Opposite();
    }
  }

  lemma KeptNodeNone(n: NodeState)
    ensures KeptNode(n, {}) == n
  {
    KeptAll(n.inputs, {}, n.id, PD_Input);
    KeptAll(n.outputs, {}, n.id, PD_Output);
  }

  lemma HiddenAnchor(s: Store, t: Store, p: PinRef, c: Connection)
    requires s.NodesSound() && s.Anchored() && IsPin(s.nodes, p) && !s.HasPin(p) && c in s.conns
    requires t.nodes == KeptNodes(s.nodes, {p})
    ensures var e := Moved(c, p.node, 0, -1, p.dir);
            t.HasPin(e.End(PD_Output)) && t.HasPin(e.End(PD_Input)) <==> c.End(p.dir) != PinRef(p.node, p.dir, 0)
  {
    HiddenPinsStay(s, t, p);
    AnchoredEnd(s, c, p.dir);
    LowerIsVisible(s, c.End(p.dir));
    MovedDown(c, p.node, p.dir);
    hide Moved, KeptNodes, Store.HasPin, Store.NodesSound, Store.Anchored;
    assert p.dir == PD_Output || p.dir == PD_Input;
  }

  lemma HiddenAnchors(s: Store, t: Store, p: PinRef)
    requires s.Inv() && IsPin(s.nodes, p) && !s.HasPin(p)
    requires t.nodes == KeptNodes(s.nodes, {p}) && t.conns == MovedAll(s.conns, p.node, 0, -1, p.dir)
    ensures t.Anchored() <==> forall c :: c in s.conns ==> c.End(p.dir) != PinRef(p.node, p.dir, 0)
  {
    InvIs(s);
    hide KeptNodes, Store.Inv, Moved, Store.HasPin;
    forall c | c in s.conns
      ensures var e := Moved(c, p.node, 0, -1, p.dir);
              && (t.HasPin(e.End(PD_Output)) && t.HasPin(e.End(PD_Input)) <==> c.End(p.dir) != PinRef(p.node, p.dir, 0))
              && e in t.conns
    {
      HiddenAnchor(s, t, p, c);
    }
    if forall c :: c in s.conns ==> c.End(p.dir) != PinRef(p.node, p.dir, 0) {
      forall e | e in t.conns ensures t.HasPin(e.End(PD_Output)) && t.HasPin(e.End(PD_Input)) {
        var c :| c in s.conns && e == Moved(c, p.node, 0, -1, p.dir);
      }
    } else {
      var c :| c in s.conns && c.End(p.dir) == PinRef(p.node, p.dir, 0);
      assert Moved(c, p.node, 0, -1, p.dir) in t.conns;
    }
  }

  lemma LowerIsVisible(s: Store, q: PinRef)
    requires s.NodesSound() && s.HasPin(q)
    ensures q.port > 0 ==> s.HasPin(q.(port := q.port - 1))
  {
    assert HiddenLast(s.nodes[q.node].Pins(q.dir));
  }

  /** A call whose argument pin is hidden, with its execution input connected to the entry of the function. */
  function HiddenArgument(): Store {
    Store({Connection(1, 0, 0, 0)},
          map[0 := NodeState(0, CallFunction("f"),
                             [CreatedPin(Named("ExecIn"), PD_Input, EXECUTION).(cachedIndex := 0),
                              CreatedPin(Named("x"), PD_Input, DATA + HIDDEN)], []),
              1 := NodeState(1, FunctionEntry("f"), [],
                             [CreatedPin(Named("ExecOut"), PD_Output, EXECUTION).(cachedIndex := 0)])],
          map["f" := GraphState("f", true, false, {0, 1}, {1}, map[])],
          map["f" := FunctionState("f", 1, true, ["x"], false, false)])
  }

  lemma HiddenArgumentPins()
    ensures var s := HiddenArgument();
            && s.NodesSound() && s.HasPin(PinRef(0, PD_Input, 0)) && s.HasPin(PinRef(1, PD_Output, 0))
            && IsPin(s.nodes, PinRef(0, PD_Input, 1)) && !s.HasPin(PinRef(0, PD_Input, 1))
            && PinOf(s.nodes, PinRef(0, PD_Input, 1)).cachedIndex == -1
  {
    assert CreatedPin(Named("x"), PD_Input, DATA + HIDDEN).IsHidden();
    assert !CreatedPin(Named("ExecIn"), PD_Input, EXECUTION).(cachedIndex := 0).IsHidden();
    assert !CreatedPin(Named("ExecOut"), PD_Output, EXECUTION).(cachedIndex := 0).IsHidden();
  }

  lemma HiddenArgumentInv()
    ensures HiddenArgument().Inv()
  {
    var s := HiddenArgument();
    HiddenArgumentPins();
    InvIs(s);
    hide CreatedPin, Store.NodesSound;
    assert s.Holds("f", 0) && s.Holds("f", 1);
    assert s.GraphSound("f");
    hide Store.HasPin;
    assert s.Anchored();
  }

  lemma HiddenArgumentListed()
    ensures var s := HiddenArgument();
            "f" in s.functions && IsRemovalList(s, s.functions["f"], 0, [PinRef(0, PD_Input, 1)])
              && Removable(s, "f", 0)
  {
    var s, f, p := HiddenArgument(), FunctionState("f", 1, true, ["x"], false, false), PinRef(0, PD_Input, 1);
    assert FirstNamed(s.nodes[0].inputs, "x") == Some(1) by {
      FirstNamedIsFirst(s.nodes[0].inputs, "x");
      assert "ExecIn"[0] == 'E' && "x"[0] == 'x';
    }
    assert FirstNamed(s.nodes[1].outputs, "x") == None by {
      FirstNamedIsFirst(s.nodes[1].outputs, "x");
      assert "ExecOut"[0] == 'E' && "x"[0] == 'x';
    }
    hide FirstNamed;
    assert NodeRemovals(s.nodes[0], f, 0) == {p} && NodeRemovals(s.nodes[1], f, 0) == {};
    hide NodeRemovals;
    assert ArgumentPins(s, f, 0) == {p} by {
      assert 0 in s.nodes && p in NodeRemovals(s.nodes[0], f, 0);
    }
    assert Members([p]) == {p};
  }

  lemma HiddenArgumentMoved()
    ensures MovedAll(HiddenArgument().conns, 0, 0, -1, PD_Input) == {Connection(1, 0, 0, 255)}
    ensures Connection(1, 0, 0, 0) in HiddenArgument().conns
            && Connection(1, 0, 0, 0).End(PD_Input) == PinRef(0, PD_Input, 0)
  {
    var c := Connection(1, 0, 0, 0);
    assert HiddenArgument().conns == {c};
    hide HiddenArgument;
    assert Moved(c, 0, 0, -1, PD_Input) == Connection(1, 0, 0, 255);
  }

  /** Removing the argument leaves the execution wire at port 255, where there is no pin. */
  lemma HiddenArgumentDangles() returns (t: Store)
    ensures HiddenArgument().Inv() && "f" in HiddenArgument().functions
    ensures ArgumentRemoved(HiddenArgument(), "f", 0, t)
    ensures t.conns == {Connection(1, 0, 0, 255)} && !t.Anchored()
  {
    var s, p := HiddenArgument(), PinRef(0, PD_Input, 1);
    HiddenArgumentListed();
    hide *;
    HiddenArgumentInv();
    HiddenArgumentPins();
    HiddenArgumentMoved();
    HiddenRemoval(s, p);
    RemovableMeans(s, "f", 0);
    RemovedBy(s, "f", 0, [p]);
    var u := TakenOut(s, [p]);
    t := u.(functions := s.functions["f" := WithoutArgument(s.functions["f"], 0)]);
    AnchoredAs(u, t);
  }
}
