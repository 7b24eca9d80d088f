/**
  Removing an argument of a function from every call and entry node
  (`OScriptFunction::remove_argument` of `src/orchestration/function.cpp`).
 */
module ArgumentRemoval {
  import opened Connections
  import opened ConnectionCaches
  import opened Nodes
  import opened Stores
  import opened PortShift

  // ----- Which pins go -----

  function ArgumentPin(n: NodeState, name: string, dir: Direction): set<PinRef> {
    match FirstNamed(n.Pins(dir), name)
    case None => {}
    case Some(k) => {PinRef(n.id, dir, k)}
  }

  function ExecutionPins(n: NodeState): set<PinRef> {
    (set k | 0 <= k < |n.inputs| && n.inputs[k].IsExecution() :: PinRef(n.id, PD_Input, k))
    + (set k | 0 <= k < |n.outputs| && n.outputs[k].IsExecution() :: PinRef(n.id, PD_Output, k))
  }

  function WithoutArgument(f: FunctionState, index: nat): FunctionState
    requires index < |f.arguments|
  {
    f.(arguments := RemoveAt(f.arguments, index))
  }

  /** The pins of one node that go: the argument's own pin, and a call's execution pins if it needs none now. */
  function NodeRemovals(n: NodeState, f: FunctionState, index: nat): set<PinRef>
    requires index < |f.arguments|
  {
    if n.kind == CallFunction(f.name) then
      ArgumentPin(n, f.arguments[index], PD_Input)
      + (if WithoutArgument(f, index).CallsExecute() then {} else ExecutionPins(n))
    else if n.kind == FunctionEntry(f.name) then
      ArgumentPin(n, f.arguments[index], PD_Output)
    else {}
  }

  function ArgumentPins(s: Store, f: FunctionState, index: nat): set<PinRef>
    requires index < |f.arguments|
  {
    set id, p | id in s.nodes && p in NodeRemovals(s.nodes[id], f, index) :: p
  }

  /** The pin of the argument itself: the first of its name among the inputs of a call or the outputs of an entry. */
  predicate IsArgumentPin(s: Store, f: FunctionState, index: nat, p: PinRef)
    requires index < |f.arguments|
  {
    && IsPin(s.nodes, p)
    && (match s.nodes[p.node].kind
        case CallFunction(name) => name == f.name && p.dir == PD_Input
        case FunctionEntry(name) => name == f.name && p.dir == PD_Output
        case _ => false)
    && (var pins := s.nodes[p.node].Pins(p.dir);
        && pins[p.port].property.name == f.arguments[index]
        && forall k :: 0 <= k < p.port ==> pins[k].property.name != f.arguments[index])
  }

  /** Without this argument the function has a result, no arguments, and the name of a getter. */
  predicate BecomesGetter(f: FunctionState) {
    f.returnsValue && |f.arguments| == 1 && f.getterName
  }

  /** An execution pin of a call of the function. */
  predicate IsCallExecution(s: Store, f: FunctionState, p: PinRef) {
    && IsPin(s.nodes, p) && s.nodes[p.node].kind == CallFunction(f.name)
    && s.nodes[p.node].Pins(p.dir)[p.port].IsExecution()
  }

  ghost predicate IdsFiled(s: Store) {
    forall n :: n in s.nodes ==> s.nodes[n].id == n
  }

  /** A pin goes with an argument exactly if it goes from its own node. */
  lemma ArgumentPinOfNode(s: Store, f: FunctionState, index: nat, p: PinRef)
    requires IdsFiled(s) && index < |f.arguments|
    ensures p in ArgumentPins(s, f, index) <==> p.node in s.nodes && p in NodeRemovals(s.nodes[p.node], f, index)
  {
    if p in ArgumentPins(s, f, index) {
      var n :| n in s.nodes && p in NodeRemovals(s.nodes[n], f, index);
      assert p.node == s.nodes[n].id;
    }
  }

  lemma OwnPin(n: NodeState, name: string, dir: Direction, p: PinRef)
    requires p.node == n.id
    ensures p in ArgumentPin(n, name, dir) <==>
            && p.dir == dir && 0 <= p.port < |n.Pins(dir)| && n.Pins(dir)[p.port].property.name == name
            && forall k :: 0 <= k < p.port ==> n.Pins(dir)[k].property.name != name
  {
    FirstNamedIsFirst(n.Pins(dir), name);
    hide FirstNamed;
  }

  lemma ExecutionPin(n: NodeState, p: PinRef)
    requires p.node == n.id
    ensures p in ExecutionPins(n) <==> 0 <= p.port < |n.Pins(p.dir)| && n.Pins(p.dir)[p.port].IsExecution()
  {
    hide Pin.IsExecution;
  }

  lemma LastArgument(f: FunctionState, index: nat)
    requires index < |f.arguments|
    ensures WithoutArgument(f, index).CallsExecute() <==> !BecomesGetter(f)
  {
  }

  /**
    The pins that go are the argument's own, and all execution pins of the calls exactly when the function
    becomes a getter.
   */
  lemma PinGoesIff(s: Store, f: FunctionState, index: nat, p: PinRef)
    requires IdsFiled(s) && index < |f.arguments|
    ensures p in ArgumentPins(s, f, index) <==>
            IsArgumentPin(s, f, index, p) || (BecomesGetter(f) && IsCallExecution(s, f, p))
  {
    ArgumentPinOfNode(s, f, index, p);
    if p.node in s.nodes {
      OwnPin(s.nodes[p.node], f.arguments[index], PD_Input, p);
      OwnPin(s.nodes[p.node], f.arguments[index], PD_Output, p);
      ExecutionPin(s.nodes[p.node], p);
      LastArgument(f, index);
      hide ArgumentPin, ExecutionPins, FunctionState.CallsExecute, WithoutArgument, BecomesGetter, Pin.IsExecution,
           ArgumentPins;
    }
  }

  // ----- The store without a set of pins -----

  function KeptNode(n: NodeState, d: set<PinRef>): NodeState {
    n.(inputs := Kept(n.inputs, d, n.id, PD_Input), outputs := Kept(n.outputs, d, n.id, PD_Output))
  }

  /** The wires at removed pins go first, then the vectors shrink and the other wires are renumbered. */
  function RemovePins(s: Store, d: set<PinRef>): Store {
    s.Drop(s.conns - Surviving(s.conns, d))
     .(conns := Renumbered(s.conns, d), nodes := map id | id in s.nodes :: KeptNode(s.nodes[id], d))
  }

  /** `remove_argument`; a bad index or a function that is not user-defined changes nothing. */
  function RemoveArgument(s: Store, name: string, index: int): Store
    requires name in s.functions
  {
    var f := s.functions[name];
    if !f.userDefined || !(0 <= index < |f.arguments|) then s
    else RemovePins(s, ArgumentPins(s, f, index)).(functions := s.functions[name := WithoutArgument(f, index)])
  }

  /** Every node with its pin indices cached afresh, as a reconstruction leaves them. */
  function Recached(s: Store): Store {
    s.(nodes := map id | id in s.nodes :: s.nodes[id].Cache())
  }

  // ----- Surviving wires stay on their pins -----

  function NewPin(d: set<PinRef>, p: PinRef): PinRef
    requires p.port >= 0
  {
    p.(port := NewPort(d, p))
  }

  /** Pin `p` of `s` and pin `q` of `t` exist and are the same pin. */
  predicate SamePin(s: Store, p: PinRef, t: Store, q: PinRef) {
    s.HasPin(p) && t.HasPin(q) && s.PinAt(p) == t.PinAt(q)
  }

  /** A pin that stays is the same pin at its new place. */
  lemma PinKept(s: Store, d: set<PinRef>, p: PinRef)
    requires s.NodesSound() && s.HasPin(p) && p !in d
    ensures RemovePins(s, d).HasPin(NewPin(d, p))
    ensures RemovePins(s, d).PinAt(NewPin(d, p)) == s.PinAt(p)
  {
    KeptAt(s.nodes[p.node].Pins(p.dir), d, p.node, p.dir, p.port);
  }

  /** Every wire between pins that stay is still there, and it still joins the same two pins. */
  lemma WireKeepsItsPins(s: Store, d: set<PinRef>, c: Connection, dir: Direction)
    requires s.NodesSound() && s.Anchored() && c in Surviving(s.conns, d)
    ensures Renumber(c, d) in RemovePins(s, d).conns
    ensures Renumber(c, d).End(dir) == NewPin(d, c.End(dir))
    ensures s.HasPin(c.End(dir)) && RemovePins(s, d).HasPin(Renumber(c, d).End(dir))
    ensures RemovePins(s, d).PinAt(Renumber(c, d).End(dir)) == s.PinAt(c.End(dir))
  {
    assert s.HasPin(c.End(PD_Output)) && s.HasPin(c.End(PD_Input));
    PinKept(s, d, c.End(dir));
  }

  lemma NewPinInjective(d: set<PinRef>, p: PinRef, q: PinRef)
    requires p !in d && q !in d && p.port >= 0 && q.port >= 0
    requires NewPin(d, p) == NewPin(d, q)
    ensures p == q
  {
    if p.port < q.port {
      RemovedBeforeGap(d, p.node, p.dir, p.port, q.port);
    } else if q.port < p.port {
      RemovedBeforeGap(d, p.node, p.dir, q.port, p.port);
    }
  }

  /** Two pins that stay are wired afterwards exactly when they were wired before. */
  lemma ConnectivityKept(s: Store, d: set<PinRef>, p: PinRef, q: PinRef)
    requires s.NodesSound() && s.Anchored() && s.HasPin(p) && s.HasPin(q) && p !in d && q !in d
    ensures NewPin(d, q) in Neighbours(RemovePins(s, d).conns, NewPin(d, p)) <==> q in Neighbours(s.conns, p)
  {
    var t := RemovePins(s, d);
    NeighboursContents(s.conns, p, q);
    NeighboursContents(t.conns, NewPin(d, p), NewPin(d, q));
    if c :| c in s.conns && Joins(c, p, q) {
      assert c in Surviving(s.conns, d) by {
        assert c.End(p.dir) == p && c.End(q.dir) == q;
      }
      WireKeepsItsPins(s, d, c, p.dir);
      WireKeepsItsPins(s, d, c, q.dir);
      assert Joins(Renumber(c, d), NewPin(d, p), NewPin(d, q));
    }
    if e :| e in t.conns && Joins(e, NewPin(d, p), NewPin(d, q)) {
      var c :| c in Surviving(s.conns, d) && e == Renumber(c, d);
      WireKeepsItsPins(s, d, c, p.dir);
      WireKeepsItsPins(s, d, c, q.dir);
      NewPinInjective(d, c.End(p.dir), p);
      NewPinInjective(d, c.End(q.dir), q);
      assert Joins(c, p, q);
    }
  }

  lemma SameEndBefore(s: Store, d: set<PinRef>, x: Connection, y: Connection, dir: Direction)
    requires s.NodesSound() && s.Anchored() && x in Surviving(s.conns, d) && y in Surviving(s.conns, d)
    requires Renumber(x, d).End(dir) == Renumber(y, d).End(dir)
    ensures x.End(dir) == y.End(dir)
    ensures RemovePins(s, d).IsExecutionPin(Renumber(x, d).End(dir)) == s.IsExecutionPin(x.End(dir))
  {
    WireKeepsItsPins(s, d, x, dir);
    WireKeepsItsPins(s, d, y, dir);
    NewPinInjective(d, x.End(dir), y.End(dir));
  }

  lemma RuleForPair(s: Store, d: set<PinRef>, x: Connection, y: Connection)
    requires s.NodesSound() && s.Anchored() && s.Cardinality()
    requires x in Surviving(s.conns, d) && y in Surviving(s.conns, d)
    ensures Renumber(x, d).End(PD_Input) == Renumber(y, d).End(PD_Input) ==>
              !RemovePins(s, d).IsExecutionPin(Renumber(x, d).End(PD_Input)) ==> x == y
    ensures Renumber(x, d).End(PD_Output) == Renumber(y, d).End(PD_Output) ==>
              RemovePins(s, d).IsExecutionPin(Renumber(x, d).End(PD_Output)) ==> x == y
  {
    if Renumber(x, d).End(PD_Input) == Renumber(y, d).End(PD_Input) {
      SameEndBefore(s, d, x, y, PD_Input);
    }
    if Renumber(x, d).End(PD_Output) == Renumber(y, d).End(PD_Output) {
      SameEndBefore(s, d, x, y, PD_Output);
    }
  }

  /** What the rule says of two wires. */
  ghost predicate RuleHolds(t: Store, a: Connection, b: Connection) {
    && (a.End(PD_Input) == b.End(PD_Input) && !t.IsExecutionPin(a.End(PD_Input)) ==> a == b)
    && (a.End(PD_Output) == b.End(PD_Output) && t.IsExecutionPin(a.End(PD_Output)) ==> a == b)
  }

  lemma RuleByPairs(t: Store)
    ensures t.Cardinality() <==> forall a, b :: a in t.conns && b in t.conns ==> RuleHolds(t, a, b)
  {
    hide Store.IsExecutionPin;
  }

  lemma RenumberedPair(s: Store, d: set<PinRef>, a: Connection, b: Connection)
    requires s.NodesSound() && s.Anchored() && s.Cardinality()
    requires a in RemovePins(s, d).conns && b in RemovePins(s, d).conns
    ensures RuleHolds(RemovePins(s, d), a, b)
  {
    hide Renumber, Store.IsExecutionPin, Surviving, Store.NodesSound, Store.Anchored, Store.Cardinality;
    var x :| x in Surviving(s.conns, d) && a == Renumber(x, d);
    var y :| y in Surviving(s.conns, d) && b == Renumber(y, d);
    hide RemovePins;
    RuleForPair(s, d, x, y);
  }

  lemma CardinalityKept(s: Store, d: set<PinRef>)
    requires s.NodesSound() && s.Anchored() && s.Cardinality()
    ensures RemovePins(s, d).Cardinality()
  {
    hide *;
    var t := RemovePins(s, d);
    RuleByPairs(t);
    forall a, b | a in t.conns && b in t.conns ensures RuleHolds(t, a, b) {
      RenumberedPair(s, d, a, b);
    }
  }

  // ----- With fresh pin indices the invariant holds again -----

  lemma {:induction false} KeptHiddenLast(pins: seq<Pin>, d: set<PinRef>, node: int, dir: Direction)
    requires HiddenLast(pins)
    ensures HiddenLast(Kept(pins, d, node, dir))
  {
    if pins != [] {
      var init, last := pins[..|pins| - 1], pins[|pins| - 1];
      KeptHiddenLast(init, d, node, dir);
      forall x | x in Kept(init, d, node, dir) && x.IsHidden() ensures last.IsHidden() {
        KeptMembers(init, d, node, dir, x);
      }
    }
  }

  lemma KeptDirection(pins: seq<Pin>, d: set<PinRef>, node: int, dir: Direction)
    requires forall i :: 0 <= i < |pins| ==> pins[i].direction == dir
    ensures forall i :: 0 <= i < |Kept(pins, d, node, dir)| ==> Kept(pins, d, node, dir)[i].direction == dir
    ensures |Kept(pins, d, node, dir)| <= |pins|
  {
    forall x | x in Kept(pins, d, node, dir) ensures x.direction == dir {
      KeptMembers(pins, d, node, dir, x);
    }
    if pins != [] {
      KeptAt(pins, d, node, dir, 0);
    }
  }

  lemma CacheSound(n: NodeState)
    requires forall i :: 0 <= i < |n.inputs| ==> n.inputs[i].direction == PD_Input
    requires forall i :: 0 <= i < |n.outputs| ==> n.outputs[i].direction == PD_Output
    requires |n.inputs| <= PORT_LIMIT && |n.outputs| <= PORT_LIMIT
    requires HiddenLast(n.inputs) && HiddenLast(n.outputs)
    requires n.IsReroute() ==> n.RerouteShape()
    ensures n.Cache().Sound()
  {
    CachedIndexIsPosition(n.inputs);
    CachedIndexIsPosition(n.outputs);
  }

  lemma KeptNodeSound(n: NodeState, d: set<PinRef>)
    requires n.Sound()
    requires n.IsReroute() ==> PinRef(n.id, PD_Input, 0) !in d && PinRef(n.id, PD_Output, 0) !in d
    ensures KeptNode(n, d).Cache().Sound()
  {
    KeptHiddenLast(n.inputs, d, n.id, PD_Input);
    KeptHiddenLast(n.outputs, d, n.id, PD_Output);
    KeptDirection(n.inputs, d, n.id, PD_Input);
    KeptDirection(n.outputs, d, n.id, PD_Output);
    if n.IsReroute() {
      KeptAll(n.inputs, d, n.id, PD_Input);
      KeptAll(n.outputs, d, n.id, PD_Output);
    }
    CacheSound(KeptNode(n, d));
  }

  lemma RecachedKeepsPins(s: Store, p: PinRef)
    ensures Recached(s).HasPin(p) <==> s.HasPin(p)
    ensures Recached(s).IsExecutionPin(p) <==> s.IsExecutionPin(p)
  {
  }

  lemma RemovePinsKeepsAnchored(s: Store, d: set<PinRef>)
    requires s.NodesSound() && s.Anchored()
    ensures RemovePins(s, d).Anchored()
  {
    var t := RemovePins(s, d);
    forall e | e in t.conns ensures t.HasPin(e.End(PD_Output)) && t.HasPin(e.End(PD_Input)) {
      var c :| c in Surviving(s.conns, d) && e == Renumber(c, d);
      WireKeepsItsPins(s, d, c, PD_Output);
      WireKeepsItsPins(s, d, c, PD_Input);
    }
  }

  lemma RecachedSound(s: Store, d: set<PinRef>)
    requires s.NodesSound()
    requires forall p :: p in d ==> p.node in s.nodes && !s.nodes[p.node].IsReroute()
    ensures Recached(RemovePins(s, d)).NodesSound()
  {
    forall id | id in s.nodes ensures KeptNode(s.nodes[id], d).Cache().Sound() {
      KeptNodeSound(s.nodes[id], d);
    }
  }

  /** The invariant holds again once the pin indices are fresh. */
  lemma RemovePinsKeepsInv(s: Store, d: set<PinRef>)
    requires s.Inv()
    requires forall p :: p in d ==> p.node in s.nodes && !s.nodes[p.node].IsReroute()
    ensures Recached(RemovePins(s, d)).Inv()
  {
    hide *;
    var dropped := s.Drop(s.conns - Surviving(s.conns, d));
    var t := Recached(RemovePins(s, d));
    InvIs(s);
    InvIsTidy(s);
    RecachedSound(s, d);
    RemovePinsKeepsAnchored(s, d);
    RecachedKeepsAnchored(RemovePins(s, d));
    DropKeepsTidy(s, s.conns - Surviving(s.conns, d));
    TidyIs(dropped);
    RemovedTables(s, d);
    SameKeysGrouped(dropped, t);
    SameFunctionsSound(dropped, t);
    InvIs(t);
  }

  lemma RecachedKeepsAnchored(u: Store)
    requires u.Anchored()
    ensures Recached(u).Anchored()
  {
    var t := Recached(u);
    forall c | c in t.conns ensures t.HasPin(c.End(PD_Output)) && t.HasPin(c.End(PD_Input)) {
      RecachedKeepsPins(u, c.End(PD_Output));
      RecachedKeepsPins(u, c.End(PD_Input));
      assert u.HasPin(c.End(PD_Output)) && u.HasPin(c.End(PD_Input));
    }
  }

  lemma RemovedTables(s: Store, d: set<PinRef>)
    ensures var dropped, t := s.Drop(s.conns - Surviving(s.conns, d)), Recached(RemovePins(s, d));
            t.graphs == dropped.graphs && t.functions == dropped.functions && t.nodes.Keys == dropped.nodes.Keys
  {
    hide KeptNode, NodeState.Cache, Surviving;
  }

  lemma SameFunctionsSound(s: Store, t: Store)
    requires s.FunctionsSound() && t.functions == s.functions && t.nodes.Keys == s.nodes.Keys
    ensures t.FunctionsSound()
  {
  }

  /**
    Removing an argument loses no wire between pins that stay, moves each of them with its pins, and
    keeps the cardinality rule.
   */
  lemma RemoveArgumentKeepsWires(s: Store, name: string, index: int)
    requires s.NodesSound() && s.Anchored() && name in s.functions && s.functions[name].userDefined
    requires 0 <= index < |s.functions[name].arguments|
    ensures var d, t := ArgumentPins(s, s.functions[name], index), RemoveArgument(s, name, index);
            && (forall c :: c in Surviving(s.conns, d) ==>
                  && Renumber(c, d) in t.conns
                  && SamePin(s, c.End(PD_Output), t, Renumber(c, d).End(PD_Output))
                  && SamePin(s, c.End(PD_Input), t, Renumber(c, d).End(PD_Input)))
            && |t.conns| == |Surviving(s.conns, d)|
            && (s.Cardinality() ==> t.Cardinality())
  {
    var d := ArgumentPins(s, s.functions[name], index);
    var u, t := RemovePins(s, d), RemoveArgument(s, name, index);
    RenumberedSize(s.conns, d);
    forall c | c in Surviving(s.conns, d)
      ensures Renumber(c, d) in t.conns
      ensures SamePin(s, c.End(PD_Output), t, Renumber(c, d).End(PD_Output))
      ensures SamePin(s, c.End(PD_Input), t, Renumber(c, d).End(PD_Input))
    {
      WireKeepsItsPins(s, d, c, PD_Output);
      WireKeepsItsPins(s, d, c, PD_Input);
    }
    if s.Cardinality() {
      CardinalityKept(s, d);
      hide RemovePins, Surviving;
      SameWiresSameRule(u, t);
    }
  }

  /** The wire ends at none of the argument's own pins. */
  predicate OffArgument(s: Store, f: FunctionState, index: nat, c: Connection)
    requires index < |f.arguments|
  {
    !IsArgumentPin(s, f, index, c.End(PD_Output)) && !IsArgumentPin(s, f, index, c.End(PD_Input))
  }

  /** Of the other wires exactly those at the execution pins of a call are lost, and only to a getter. */
  lemma WireSurvivesIff(s: Store, f: FunctionState, index: nat, c: Connection)
    requires IdsFiled(s) && index < |f.arguments| && c in s.conns && OffArgument(s, f, index, c)
    ensures c in Surviving(s.conns, ArgumentPins(s, f, index)) <==>
            BecomesGetter(f) ==> !IsCallExecution(s, f, c.End(PD_Output)) && !IsCallExecution(s, f, c.End(PD_Input))
  {
    PinGoesIff(s, f, index, c.End(PD_Output));
    PinGoesIff(s, f, index, c.End(PD_Input));
    hide ArgumentPins, IsArgumentPin, IsCallExecution, BecomesGetter;
  }

  /** So where the function does not become a getter, calls keep their execution wires, on the same pins. */
  lemma CallsKeepExecution(s: Store, name: string, index: int, c: Connection)
    requires s.NodesSound() && s.Anchored() && name in s.functions && s.functions[name].userDefined
    requires 0 <= index < |s.functions[name].arguments| && !BecomesGetter(s.functions[name])
    requires c in s.conns && OffArgument(s, s.functions[name], index, c)
    ensures var d, t := ArgumentPins(s, s.functions[name], index), RemoveArgument(s, name, index);
            && Renumber(c, d) in t.conns
            && SamePin(s, c.End(PD_Output), t, Renumber(c, d).End(PD_Output))
            && SamePin(s, c.End(PD_Input), t, Renumber(c, d).End(PD_Input))
  {
    hide *;
    SoundIds(s);
    WireSurvivesIff(s, s.functions[name], index, c);
    RemoveArgumentKeepsWires(s, name, index);
  }

  lemma SoundIds(s: Store)
    requires s.NodesSound()
    ensures IdsFiled(s)
  {
  }

  lemma SameWiresSameRule(s: Store, t: Store)
    requires s.conns == t.conns && s.nodes == t.nodes && s.Cardinality()
    ensures t.Cardinality()
  {
    assert forall p :: t.IsExecutionPin(p) <==> s.IsExecutionPin(p);
  }

  /** Once the affected nodes have fresh pin indices the invariant holds again. */
  lemma RemoveArgumentKeepsInv(s: Store, name: string, index: int)
    requires s.Inv() && name in s.functions
    ensures Recached(RemoveArgument(s, name, index)).Inv()
  {
    var f := s.functions[name];
    if f.userDefined && 0 <= index < |f.arguments| {
      var d := ArgumentPins(s, f, index);
      RemovalsAreOfCalls(s, f, index);
      RemovePinsKeepsInv(s, d);
      hide Store.Inv;
      FunctionRedefined(Recached(RemovePins(s, d)), Recached(RemoveArgument(s, name, index)), name);
    } else {
      RemovePinsKeepsInv(s, {});
      NothingRemovedAnywhere(s);
    }
  }

  lemma NothingRemovedAnywhere(s: Store)
    requires s.NodesSound()
    ensures RemovePins(s, {}) == s
  {
    assert Surviving(s.conns, {}) == s.conns && s.conns - s.conns == {};
    NothingRenumbered(s.conns);
    forall id | id in s.nodes ensures KeptNode(s.nodes[id], {}) == s.nodes[id] {
      KeptAll(s.nodes[id].inputs, {}, id, PD_Input);
      KeptAll(s.nodes[id].outputs, {}, id, PD_Output);
    }
    assert RemovePins(s, {}).nodes == s.nodes;
    forall g | g in s.graphs ensures s.graphs[g].DropKnots({}) == s.graphs[g] {
      assert s.graphs[g].knots - {} == s.graphs[g].knots;
    }
    assert RemovePins(s, {}).graphs == s.graphs;
  }

  lemma RemovalsAreOfCalls(s: Store, f: FunctionState, index: nat)
    requires s.NodesSound() && index < |f.arguments|
    ensures forall p :: p in ArgumentPins(s, f, index) ==> p.node in s.nodes && !s.nodes[p.node].IsReroute()
  {
  }

  /** The invariant asks of a function only its name and its owner. */
  lemma FunctionRedefined(s: Store, t: Store, name: string)
    requires s.Inv() && name in s.functions && name in t.functions
    requires t == s.(functions := s.functions[name := t.functions[name]])
    requires t.functions[name].name == name && t.functions[name].owner == s.functions[name].owner
    ensures t.Inv()
  {
    forall g, id ensures t.Holds(g, id) <==> s.Holds(g, id) && id in t.nodes {
      assert s.Holds(g, id) ==> id in s.nodes;
    }
    PartitionKept(s, t);
    forall g | g in t.graphs ensures t.GraphSound(g) {
      assert s.GraphSound(g);
    }
    assert t.Tidy();
    FewerKeepsInv(s, t);
  }
}
