/**
  One run from the empty orchestration that uses the rewrites: a function is created and wired, a knot is put
  on the wire, the graph is upgraded, an argument is removed, and the function is duplicated.
 */
module ExampleRun {
  import opened Connections
  import opened ConnectionCaches
  import opened Nodes
  import opened Reroutes
  import opened Stores
  import opened Queries
  import opened PortShift
  import opened ArgumentRemoval
  import opened FunctionCreation
  import opened FunctionEdits
  import opened HiddenRemovals
  import D = Duplication
  import opened Duplicates
  import opened KnotMigration
  import opened Orchestrations
  import opened Upgrades
  import opened UpgradeMeaning
  import opened Rules
  import opened Runs

  // ----- The states -----

  const NEW_FUNCTION := Signature("f", [Named("x"), Named("y")], None, true, false)

  function IndexedPin(name: string, dir: Direction, flags: nat, index: int): Pin {
    CreatedPin(Named(name), dir, flags).(cachedIndex := index)
  }

  function Entry(names: seq<string>): NodeState {
    NodeState(0, FunctionEntry("f"), [],
              [IndexedPin("ExecOut", PD_Output, EXECUTION, 0)]
              + seq(|names|, i requires 0 <= i < |names| => IndexedPin(names[i], PD_Output, DATA, i + 1)))
  }

  function User(): NodeState {
    NodeState(1, Plain, [IndexedPin("value", PD_Input, DATA, 0)], [])
  }

  const DIRECT := Connection(0, 2, 1, 0)

  /** The wire led over a reroute, and the same after the pin of the first argument is gone. */
  const CHAIN: set<Connection> := {Connection(0, 2, 2, 0), Connection(2, 0, 1, 0)}
  const SHORT_CHAIN: set<Connection> := {Connection(0, 1, 2, 0), Connection(2, 0, 1, 0)}

  const ARGUMENT := PinRef(0, PD_Output, 1)

  function OfFunction(conns: set<Connection>, nodes: map<int, NodeState>, knots: map<Connection, nat>,
                      names: seq<string>): Store {
    Store(conns, nodes, map["f" := GraphState("f", true, false, nodes.Keys, {0}, knots)],
          map["f" := FunctionState("f", 0, true, names, false, false)])
  }

  function Created(): Store {
    OfFunction({}, map[0 := Entry(["x", "y"])], map[], ["x", "y"])
  }

  function WithUser(): Store {
    OfFunction({}, map[0 := Entry(["x", "y"]), 1 := User()], map[], ["x", "y"])
  }

  function Wired(): Store {
    OfFunction({DIRECT}, map[0 := Entry(["x", "y"]), 1 := User()], map[], ["x", "y"])
  }

  function Knotted(): Store {
    OfFunction({DIRECT}, map[0 := Entry(["x", "y"]), 1 := User()], map[DIRECT := 1], ["x", "y"])
  }

  function Upgraded(): Store {
    OfFunction(CHAIN,
               map[0 := Entry(["x", "y"]), 1 := User(), 2 := RerouteNode(2, RerouteData)], map[], ["x", "y"])
  }

  function Shortened(): Store {
    OfFunction(SHORT_CHAIN,
               map[0 := Entry(["y"]), 1 := User(), 2 := RerouteNode(2, RerouteData)], map[], ["y"])
  }

  // ----- Creating the function -----

  lemma Flags(name: string, dir: Direction, index: int)
    ensures !IndexedPin(name, dir, DATA, index).IsHidden() && !IndexedPin(name, dir, DATA, index).IsExecution()
    ensures !IndexedPin(name, dir, EXECUTION, index).IsHidden() && IndexedPin(name, dir, EXECUTION, index).IsExecution()
  {
  }

  lemma EntryPinsAre()
    ensures EntryPins([Named("x"), Named("y")])
            == [CreatedPin(Named("ExecOut"), PD_Output, EXECUTION), CreatedPin(Named("x"), PD_Output, DATA),
                CreatedPin(Named("y"), PD_Output, DATA)]
  {
    var none: seq<PropertyInfo> := [];
    assert [Named("x"), Named("y")][..1] == [Named("x")] && [Named("x")][..0] == none;
    var first, second := [CreatedPin(Named("ExecOut"), PD_Output, EXECUTION)], [Named("x")];
    assert EntryPins(none) == first;
    assert FirstNamed(first, "x").None? by {
      FirstNamedIsFirst(first, "x");
      assert "ExecOut"[0] == 'E' && "x"[0] == 'x';
    }
    assert EntryPins(second) == first + [CreatedPin(Named("x"), PD_Output, DATA)];
    assert FirstNamed(EntryPins(second), "y").None? by {
      FirstNamedIsFirst(EntryPins(second), "y");
      assert "ExecOut"[0] == 'E' && "x"[0] == 'x' && "y"[0] == 'y';
    }
  }

  lemma EntryPinAt(names: seq<string>, i: nat)
    requires i <= |names|
    ensures |Entry(names).outputs| == |names| + 1 && Entry(names).inputs == [] && Entry(names).id == 0
    ensures !Entry(names).IsReroute() && PORT_LIMIT == 256
    ensures !Entry(names).outputs[i].IsHidden() && Entry(names).outputs[i].cachedIndex == i
    ensures Entry(names).outputs[i].direction == PD_Output
  {
    Flags(if i == 0 then "ExecOut" else names[i - 1], PD_Output, i);
    hide IndexedPin;
  }

  /** Where every pin is visible, being aligned is being cached. */
  lemma AllVisible(n: NodeState)
    requires |n.outputs| <= PORT_LIMIT && n.inputs == [] && !n.IsReroute()
    requires forall i :: 0 <= i < |n.outputs| ==> !n.outputs[i].IsHidden() && n.outputs[i].cachedIndex == i
    requires forall i :: 0 <= i < |n.outputs| ==> n.outputs[i].direction == PD_Output
    ensures n.Sound() && n.Cache() == n
    ensures forall port :: n.HasVisiblePin(PD_Output, port) <==> 0 <= port < |n.outputs|
  {
    assert WellIndexed(n.outputs) && HiddenLast(n.outputs);
    AlignedIsCached(n.outputs);
    AlignedIsCached(n.inputs);
    hide Pin.IsHidden, Cached, VisibleBefore;
  }

  lemma EntryIsAligned(names: seq<string>)
    requires |names| < 255
    ensures Entry(names).Sound() && Entry(names).Cache() == Entry(names)
    ensures forall port :: Entry(names).HasVisiblePin(PD_Output, port) <==> 0 <= port <= |names|
  {
    hide *;
    EntryPinAt(names, 0);
    forall i: nat | i <= |names|
      ensures !Entry(names).outputs[i].IsHidden() && Entry(names).outputs[i].cachedIndex == i
      ensures Entry(names).outputs[i].direction == PD_Output
    {
      EntryPinAt(names, i);
    }
    AllVisible(Entry(names));
  }

  lemma CreatedPins()
    ensures EntryNode(0, "f", [Named("x"), Named("y")]).id == 0
            && EntryNode(0, "f", [Named("x"), Named("y")]).inputs == []
    ensures EntryNode(0, "f", [Named("x"), Named("y")]).kind == Entry(["x", "y"]).kind
    ensures var a, b := EntryNode(0, "f", [Named("x"), Named("y")]).outputs, Entry(["x", "y"]).outputs;
            |a| == 3 == |b| && forall i :: 0 <= i < 3 ==>
              a[i].IsHidden() == b[i].IsHidden() && b[i] == a[i].(cachedIndex := i)
  {
    EntryPinsAre();
    hide CreatedPin;
  }

  lemma EntryCreated()
    ensures EntryNode(0, "f", [Named("x"), Named("y")]).Cache() == Entry(["x", "y"])
  {
    CreatedPins();
    EntryIsAligned(["x", "y"]);
    var n, e := EntryNode(0, "f", [Named("x"), Named("y")]), Entry(["x", "y"]);
    EntryPinAt(["x", "y"], 0);
    assert e.Cache().outputs == e.outputs && e.inputs == [];
    hide EntryNode, Entry, EntryPins;
    forall i: nat | i <= 3 ensures VisibleBefore(n.outputs, i) == VisibleBefore(e.outputs, i) {
      SameVisible(n.outputs, e.outputs, i);
    }
    assert Cached(n.outputs) == Cached(e.outputs);
  }

  lemma {:induction false} SameVisible(a: seq<Pin>, b: seq<Pin>, i: nat)
    requires |a| == |b| && i <= |a| && forall j :: 0 <= j < |a| ==> a[j].IsHidden() == b[j].IsHidden()
    ensures VisibleBefore(a, i) == VisibleBefore(b, i)
  {
    if i > 0 {
      SameVisible(a, b, i - 1);
    }
  }

  lemma CreateStep()
    ensures Step(Empty(), CreateFunction(NEW_FUNCTION, false), Created())
  {
    EntryCreated();
    EntryPinsAre();
    var f := NEW_FUNCTION;
    assert !Refused(Empty(), f, false);
    assert Empty().IsAvailable(0);
    WithEntryInSteps(Empty(), f, 0);
    assert ArgumentNames(f.arguments) == ["x", "y"];
    assert Entry(["x", "y"]).kind == FunctionEntry("f");
    hide EntryPins, Entry, NodeState.Cache;
    var t, c := Made(Empty(), f, 0), Created();
    assert c.nodes.Keys == {0};
    assert t.nodes == c.nodes;
    assert t.functions == c.functions;
    var g := GraphState("f", true, false, {}, {}, map[]);
    assert g.Add(EntryNode(0, "f", f.arguments)) == c.graphs["f"] by {
      assert {} + {0} == c.nodes.Keys;
    }
    assert t.graphs == map["f" := g]["f" := g.Add(EntryNode(0, "f", f.arguments))];
    assert t.graphs == c.graphs;
    assert t == c;
    assert HasRoom(Empty(), f);
  }

  // ----- Adding a node, wiring it, placing a knot -----

  lemma UserIsSound()
    ensures User().Sound() && User().Cache() == User() && User().HasVisiblePin(PD_Input, 0)
    ensures !User().inputs[0].IsExecution()
  {
    var n := User();
    Flags("value", PD_Input, 0);
    AlignedIsCached(n.inputs);
    AlignedIsCached(n.outputs);
  }

  lemma AddStep()
    ensures Step(Created(), AddNode("f", User()), WithUser())
    ensures Sane(Created(), AddNode("f", User()))
  {
    UserIsSound();
    var s, t, u := Created(), WithUser(), Created().AddNode("f", User());
    assert User().id == 1 && User().kind == Plain && |User().inputs| == 1 && |User().outputs| == 0;
    hide Entry, User, NodeState.Cache, NodeState.Sound;
    assert s.nodes.Keys == {0} && t.nodes.Keys == {0, 1} && {0} + {1} == {0, 1};
    assert u.nodes == t.nodes;
    var g := s.graphs["f"];
    assert g.Add(User()) == t.graphs["f"];
    assert u.graphs == s.graphs["f" := g.Add(User())];
    assert u.graphs == t.graphs;
    assert u == t;
  }

  lemma WireEnds()
    ensures var s := WithUser();
            && s.HasPin(PinRef(0, PD_Output, 2)) && s.HasPin(PinRef(1, PD_Input, 0))
            && WireOf(PinRef(0, PD_Output, 2), PinRef(1, PD_Input, 0)) == DIRECT
            && !s.ClosesCycle(DIRECT) && s.Displaced(DIRECT) == {}
  {
    UserIsSound();
    EntryIsAligned(["x", "y"]);
    hide NodeState.Sound, NodeState.Cache, NodeState.HasVisiblePin;
    assert !WithUser().nodes[0].IsReroute();
  }

  lemma DirectlyLinked(s: Store, c: Connection)
    requires !s.ClosesCycle(c) && s.Displaced(c) == {}
    ensures s.Link(c) == s.(conns := s.conns + {c})
  {
    hide Reaches;
    DropNothing(s);
  }

  lemma LinkIsStep(s: Store, p: PinRef, q: PinRef)
    requires IsPin(s.nodes, p) && IsPin(s.nodes, q)
    ensures Step(s, Link(p, q), Linked(s, p, q))
  {
    hide Linked;
  }

  lemma WiredIs()
    ensures WithUser().(conns := WithUser().conns + {DIRECT}) == Wired()
  {
    hide Entry, User;
  }

  lemma WireStep()
    requires WithUser().Inv()
    ensures Step(WithUser(), Link(PinRef(0, PD_Output, 2), PinRef(1, PD_Input, 0)), Wired())
    ensures WithUser().HasPin(PinRef(0, PD_Output, 2)) && WithUser().HasPin(PinRef(1, PD_Input, 0))
  {
    var s, p, q := WithUser(), PinRef(0, PD_Output, 2), PinRef(1, PD_Input, 0);
    WireEnds();
    WiredIs();
    hide *;
    LinkedIsLink(s, p, q);
    DirectlyLinked(s, DIRECT);
    LinkIsStep(s, p, q);
  }

  lemma KnotStep()
    ensures Step(Wired(), SetKnots("f", map[DIRECT := 1]), Knotted())
  {
    hide Entry, User;
    assert Wired().SetKnots("f", map[DIRECT := 1]).graphs == Knotted().graphs;
  }

  // ----- The upgrade -----

  lemma WithChainOfOne()
    ensures var t := WithChain(Knotted(), "f", DIRECT, [2]);
            && NewChain(Knotted(), [2]) && t.functions == Knotted().functions
            && t.conns == {DIRECT, Connection(0, 2, 2, 0)}
            && t.nodes == Knotted().nodes[2 := RerouteNode(2, RerouteData)]
            && t.graphs == map["f" := GraphState("f", true, false, {0, 1, 2}, {0}, map[DIRECT := 1])]
  {
    var s := Knotted();
    Flags("y", PD_Output, 2);
    assert Entry(["x", "y"]).outputs[2] == IndexedPin("y", PD_Output, DATA, 2);
    assert TypeOfWire(s.nodes, DIRECT) == RerouteData;
    WithChainContents(s, "f", DIRECT, [2]);
    hide Entry, User, RerouteNode, TypeOfWire, WithChain;
    assert s.nodes.Keys == {0, 1};
    assert InnerWires(DIRECT, [2]) == {Connection(0, 2, 2, 0)} by {
      assert ChainWire(DIRECT, [2], 0) == Connection(0, 2, 2, 0);
    }
    assert IdSet([2]) == {2} && {0, 1} + {2} == {0, 1, 2};
    assert ChainNodes([2], RerouteData) == map[2 := RerouteNode(2, RerouteData)];
  }

  lemma MidwayOne()
    ensures var t := WithChain(Knotted(), "f", DIRECT, [2]);
            Midway(Knotted(), "f", DIRECT, [2]) == t.(conns := {DIRECT} + CHAIN)
    ensures Replaced(Knotted(), "f", DIRECT, [2]) == Midway(Knotted(), "f", DIRECT, [2]).Disconnect(DIRECT)
  {
    var s := Knotted();
    WithChainOfOne();
    assert s.conns == {DIRECT} && 1 in s.nodes && s.nodes[1].kind == Plain;
    assert InnerWires(DIRECT, [2]) == {Connection(0, 2, 2, 0)} by {
      assert ChainWire(DIRECT, [2], 0) == Connection(0, 2, 2, 0);
    }
    assert ChainWire(DIRECT, [2], 1) == Connection(2, 0, 1, 0);
    hide Knotted, WithChain, NewChain, InnerWires, ChainWire, Midway, Replaced, Store.Disconnect;
    MidwayPlain(s, "f", DIRECT, [2]);
    assert {DIRECT} + {Connection(0, 2, 2, 0)} + {Connection(2, 0, 1, 0)} == {DIRECT} + CHAIN;
  }

  lemma ReplacedOne()
    ensures "f" in Knotted().graphs
    ensures Replaced(Knotted(), "f", DIRECT, [2]) == Upgraded()
  {
    WithChainOfOne();
    MidwayOne();
    hide Entry, User, RerouteNode, WithChain, NewChain, Midway, Replaced;
    var u := Midway(Knotted(), "f", DIRECT, [2]);
    var t := u.Drop({DIRECT});
    assert t.conns == Upgraded().conns;
    assert t.graphs == Upgraded().graphs by {
      assert map[DIRECT := 1] - {DIRECT} == map[];
      assert Upgraded().nodes.Keys == {0, 1, 2};
      assert u.graphs["f"].DropKnots({DIRECT}) == Upgraded().graphs["f"];
    }
    assert t == Upgraded();
  }

  /** An upgrade of one knot. */
  lemma OneTurn(s: Store, g: string, c: Connection, id: NodeBits)
    requires g in s.graphs && s.graphs[g].knots == map[c := 1] && NewChain(s, [id])
    ensures g in Replaced(s, g, c, [id]).graphs
    ensures UpgradeTaken(s, Replaced(s, g, c, [id]).SetKnots(g, map[]), g, [c], [[id]])
  {
    var order, idss := [c], [[id]];
    hide Replaced, NewChain, Store.SetKnots;
    assert order[..0] == [] && idss[..0] == [];
    assert Turned(s, g, order[..0], idss[..0]) == s;
    assert TurnFits(s, g, order, idss, 0);
    assert Turned(s, g, order, idss) == Replaced(s, g, c, [id]);
  }

  lemma UpgradeStepBy(s: Store, t: Store, g: string, order: seq<Connection>, idss: seq<seq<NodeBits>>)
    requires g in s.graphs && UpgradeTaken(s, t, g, order, idss)
    ensures Step(s, UpgradeGraph(g), t)
  {
    hide UpgradeTaken;
  }

  lemma KnotsTaken()
    ensures "f" in Knotted().graphs && Knotted().graphs["f"].knots == map[DIRECT := 1]
    ensures "f" in Upgraded().graphs && Upgraded().SetKnots("f", map[]) == Upgraded()
  {
    hide Entry, User, RerouteNode;
  }

  lemma UpgradeIsStep()
    ensures Step(Knotted(), UpgradeGraph("f"), Upgraded())
  {
    var s := Knotted();
    WithChainOfOne();
    ReplacedOne();
    KnotsTaken();
    hide *;
    OneTurn(s, "f", DIRECT, 2);
    UpgradeStepBy(s, Upgraded(), "f", [DIRECT], [[2]]);
  }

  // ----- Removing the argument -----

  lemma ArgumentPinIs()
    ensures ArgumentPins(Upgraded(), Upgraded().functions["f"], 0) == {ARGUMENT}
  {
    var s := Upgraded();
    var pins := Entry(["x", "y"]).outputs;
    assert pins[0].property.name == "ExecOut" && pins[1].property.name == "x" && "ExecOut"[0] == 'E' && "x"[0] == 'x';
    FirstNamedIsFirst(pins, "x");
    var f := s.functions["f"];
    assert NodeRemovals(s.nodes[0], f, 0) == {ARGUMENT};
    assert NodeRemovals(s.nodes[1], f, 0) == {} && NodeRemovals(s.nodes[2], f, 0) == {};
    hide NodeRemovals, Entry, User, RerouteNode;
    assert s.nodes.Keys == {0, 1, 2};
  }

  lemma ShortenedConns()
    ensures Surviving(CHAIN, {ARGUMENT}) == CHAIN && Renumbered(CHAIN, {ARGUMENT}) == SHORT_CHAIN
  {
    var d := {ARGUMENT};
    assert RemovedBefore(d, 0, PD_Output, 1) == 0 && RemovedBefore(d, 0, PD_Output, 2) == 1;
    var a, b := Connection(0, 2, 2, 0), Connection(2, 0, 1, 0);
    assert Renumber(a, d) == Connection(0, 1, 2, 0);
    assert Renumber(b, d) == b;
    assert a.End(PD_Output) !in d && a.End(PD_Input) !in d && b.End(PD_Output) !in d && b.End(PD_Input) !in d;
    hide Renumber, Connection.End;
    assert Surviving({a, b}, d) == {a, b};
    assert RenumberAll({a, b}, d) == {Renumber(a, d), Renumber(b, d)};
  }

  lemma EntryShortened()
    ensures KeptNode(Entry(["x", "y"]), {ARGUMENT}).Cache() == Entry(["y"])
  {
    var d, n, e := {ARGUMENT}, Entry(["x", "y"]), Entry(["y"]);
    EntryIsAligned(["y"]);
    var pins := n.outputs;
    assert pins[..3] == pins && pins[..3][..2] == pins[..2] && pins[..2][..1] == pins[..1] && pins[..1][..0] == [];
    assert Kept(pins[..1], d, 0, PD_Output) == [pins[0]];
    assert Kept(pins[..2], d, 0, PD_Output) == [pins[0]];
    var k := KeptNode(n, d);
    assert k.outputs == [pins[0], pins[2]] && k.inputs == [];
    forall i: nat | i <= 2 ensures VisibleBefore(k.outputs, i) == VisibleBefore(e.outputs, i) {
      SameVisible(k.outputs, e.outputs, i);
    }
    assert Cached(k.outputs) == Cached(e.outputs);
  }

  lemma OthersKept()
    ensures KeptNode(User(), {ARGUMENT}).Cache() == User()
    ensures KeptNode(RerouteNode(2, RerouteData), {ARGUMENT}).Cache() == RerouteNode(2, RerouteData)
  {
    var d, n := {ARGUMENT}, RerouteNode(2, RerouteData);
    UserIsSound();
    RerouteNodeSound(2, RerouteData);
    KeptAll(User().inputs, d, 1, PD_Input);
    KeptAll(User().outputs, d, 1, PD_Output);
    KeptAll(n.inputs, d, 2, PD_Input);
    KeptAll(n.outputs, d, 2, PD_Output);
    hide NodeState.Cache, NodeState.Sound, Kept;
    assert KeptNode(User(), d) == User() && KeptNode(n, d) == n;
  }

  lemma ThreeKept(nodes: map<int, NodeState>, d: set<PinRef>, a: NodeState, b: NodeState, c: NodeState)
    requires nodes == map[0 := a, 1 := b, 2 := c]
    ensures KeptNodes(nodes, d).Keys == {0, 1, 2}
    ensures Recached(Store({}, KeptNodes(nodes, d), map[], map[])).nodes
            == map[0 := KeptNode(a, d).Cache(), 1 := KeptNode(b, d).Cache(), 2 := KeptNode(c, d).Cache()]
  {
    hide KeptNode, NodeState.Cache;
  }

  lemma RemovedNodes()
    ensures Recached(Store({}, KeptNodes(Upgraded().nodes, {ARGUMENT}), map[], map[])).nodes == Shortened().nodes
  {
    EntryShortened();
    OthersKept();
    hide Entry, User, RerouteNode, KeptNode, NodeState.Cache, Recached, KeptNodes;
    ThreeKept(Upgraded().nodes, {ARGUMENT}, Entry(["x", "y"]), User(), RerouteNode(2, RerouteData));
  }

  /** The store without the pin, before the pins are numbered again. */
  lemma RemovedPin()
    ensures Recached(RemovePins(Upgraded(), {ARGUMENT})).(functions := Shortened().functions) == Shortened()
  {
    var s := Upgraded();
    RemovedNodes();
    ShortenedConns();
    hide Entry, User, RerouteNode, Surviving, Renumbered, KeptNode, NodeState.Cache;
    var t := RemovePins(s, {ARGUMENT});
    assert t.nodes == KeptNodes(s.nodes, {ARGUMENT});
    assert t.conns == SHORT_CHAIN;
    assert t.graphs == Shortened().graphs by {
      assert CHAIN - CHAIN == {};
      assert Shortened().nodes.Keys == {0, 1, 2} == s.nodes.Keys;
      assert s.graphs["f"].DropKnots({}) == Shortened().graphs["f"];
    }
  }

  lemma ArgumentListed()
    ensures IsRemovalList(Upgraded(), Upgraded().functions["f"], 0, [ARGUMENT])
    ensures Members([ARGUMENT]) == {ARGUMENT} && Removable(Upgraded(), "f", 0)
    ensures Upgraded().HasPin(ARGUMENT) && RemovalsVisible(Upgraded(), "f", 0)
  {
    ArgumentPinIs();
    EntryIsAligned(["x", "y"]);
    hide Entry, User, RerouteNode, ArgumentPins, NodeState.HasVisiblePin, Descending;
    assert Upgraded().HasPin(ARGUMENT);
    assert Descending([ARGUMENT]) by {
      OneDescends(ARGUMENT);
    }
  }

  lemma OneDescends(p: PinRef)
    ensures Descending([p])
  {
  }

  lemma RemovedFunctions()
    ensures var f := Upgraded().functions["f"];
            Upgraded().functions["f" := f.(arguments := RemoveAt(f.arguments, 0))] == Shortened().functions
  {
    hide Entry, User, RerouteNode;
    assert RemoveAt(["x", "y"], 0) == ["y"];
  }

  lemma RecachedFunctions(s: Store, functions: map<string, FunctionState>)
    ensures Recached(s.(functions := functions)) == Recached(s).(functions := functions)
  {
    hide NodeState.Cache;
  }

  lemma RemovalIsStep(s: Store, name: string, index: int, u: Store)
    requires name in s.functions && ArgumentRemoved(s, name, index, u)
    ensures Step(s, RemoveArgument(name, index), Recached(u))
  {
    hide ArgumentRemoved, Recached;
  }

  lemma RemoveStep()
    requires Upgraded().Inv()
    ensures Step(Upgraded(), RemoveArgument("f", 0), Shortened())
    ensures "f" in Upgraded().functions && RemovalsVisible(Upgraded(), "f", 0)
  {
    var s, list := Upgraded(), [ARGUMENT];
    ArgumentListed();
    RemovedPin();
    RemovedFunctions();
    OneDescends(ARGUMENT);
    assert "f" in s.functions;
    assert WithoutArgument(s.functions["f"], 0)
           == s.functions["f"].(arguments := RemoveAt(s.functions["f"].arguments, 0));
    hide *;
    VisibleTakenOut(s, list);
    RemovedBy(s, "f", 0, list);
    RecachedFunctions(TakenOut(s, list), Shortened().functions);
    RemovalIsStep(s, "f", 0, TakenOut(s, list).(functions := Shortened().functions));
  }

  // ----- Duplicating the function -----

  lemma ShortenedParts()
    ensures var s := Shortened();
            && "f" in s.functions && "f" in s.graphs && s.functions.Keys == {"f"} && s.graphs.Keys == {"f"}
            && "g" !in s.functions && "g" !in s.graphs && IsIdentifier("g") && "g" != "EventGraph"
            && HasEntry(s.nodes, s.graphs["f"].nodes) && |s.graphs["f"].nodes| == 3 && s.nodes.Keys == {0, 1, 2}
            && s.graphs["f"].nodes == {0, 1, 2}
            && D.StaysInside(s.conns, s.graphs["f"].nodes)
  {
    var s := Shortened();
    assert s.nodes[0].kind.FunctionEntry?;
    hide Entry, User, RerouteNode;
    assert "g"[0] != "f"[0] && "g"[0] != "EventGraph"[0];
    assert s.nodes.Keys == {0, 1, 2};
    assert 0 in s.graphs["f"].nodes;
    assert |{0, 1, 2}| == 3;
  }

  lemma CanDuplicateBy(s: Store, name: string, newName: string)
    requires s.Tidy() && name in s.functions && name in s.graphs && newName !in s.functions && newName !in s.graphs
    requires IsIdentifier(newName) && newName != "EventGraph" && HasEntry(s.nodes, s.graphs[name].nodes)
    requires |s.graphs[name].nodes| == 3 && s.nodes.Keys == {0, 1, 2}
    ensures CanDuplicate(s, name, newName)
  {
    hide Store.Tidy, HasEntry, IsIdentifier;
    assert forall n :: n in s.nodes ==> n in {0, 1, 2};
  }

  lemma DuplicateIsStep(s: Store, t: Store, name: string, newName: string, getter: bool, m: D.IdMap)
    requires CanDuplicate(s, name, newName) && IsDuplicate(s, t, name, newName, getter, m)
    ensures Step(s, DuplicateFunction(name, newName, getter), t)
  {
    hide CanDuplicate, IsDuplicate;
  }

  /** Nothing is asked of a duplicate whose wires stay inside the graph. */
  lemma InsideIsSane(s: Store, name: string, newName: string, getter: bool)
    requires name in s.graphs && D.StaysInside(s.conns, s.graphs[name].nodes)
    ensures Orderly(s, DuplicateFunction(name, newName, getter))
    ensures Sane(s, DuplicateFunction(name, newName, getter))
    ensures WithinRule(s, DuplicateFunction(name, newName, getter))
  {
    StaysInsideIs(s.conns, s.graphs[name].nodes);
    hide Leaving, D.StaysInside, D.Image, StrayEnd;
  }

  /** The duplicate has a copy of each of the three nodes, and of both wires. */
  lemma DuplicateIsThere(s: Store, t: Store, m: D.IdMap)
    requires CanDuplicate(s, "f", "g") && NoCycle(s) && "f" in s.functions && "f" in s.graphs
    requires D.StaysInside(s.conns, s.graphs["f"].nodes) && IsDuplicate(s, t, "f", "g", false, m)
    ensures t.functions.Keys == s.functions.Keys + {"g"} && m.Keys == s.graphs["f"].nodes
    ensures t.conns == s.conns + D.Images(m, D.Inside(s.conns, m.Keys))
  {
    NoCycleMeans(s);
    assert t.functions.Keys == s.functions.Keys + {"g"};
    assert m.Keys == s.graphs["f"].nodes;
    hide IsDuplicate, CanDuplicate, D.Images, D.Inside, D.StaysInside;
    AcyclicInside(s.conns, s.Reroutes(), m.Keys);
    DuplicateIsIsomorphic(s, t, "f", "g", false, m);
  }

  lemma ReachesAgainMore(a: set<Connection>, b: set<Connection>, R: set<int>, n: int)
    requires a <= b && ReachesAgain(a, R, n, n)
    ensures ReachesAgain(b, R, n, n)
  {
    hide Reaches;
    var k :| Hop(a, R, n, k) && Reaches(a, R, k, n);
    ReachesMonotone(a, b, R, k, n);
    assert Hop(b, R, n, k);
  }

  lemma AcyclicInside(conns: set<Connection>, R: set<int>, nodes: set<int>)
    requires Acyclic(conns, R)
    ensures D.NoInnerCycle(conns, R, nodes)
  {
    hide ReachesAgain;
    forall a | a in nodes ensures !ReachesAgain(D.Inside(conns, nodes), R, a, a) {
      if ReachesAgain(D.Inside(conns, nodes), R, a, a) {
        ReachesAgainMore(D.Inside(conns, nodes), conns, R, a);
        assert false;
      }
    }
  }

  // ----- The run -----

  ghost predicate Good(s: Store) {
    s.Inv() && s.Tidy() && s.Cardinality() && NoCycle(s)
  }

  ghost predicate Allowed(s: Store, e: Edit) {
    Orderly(s, e) && Sane(s, e) && WithinRule(s, e)
  }

  lemma GoodIs(s: Store)
    ensures Good(s) <==> s.Inv() && s.Tidy() && s.Cardinality() && NoCycle(s)
  {
  }

  lemma AllowedIs(s: Store, e: Edit)
    ensures Allowed(s, e) <==> Orderly(s, e) && Sane(s, e) && WithinRule(s, e)
  {
  }

  lemma Advance(s: Store, e: Edit, t: Store)
    requires Good(s) && Step(s, e, t) && Allowed(s, e)
    ensures Good(t)
  {
    hide *;
    GoodIs(s);
    GoodIs(t);
    AllowedIs(s, e);
    StepKeepsTidy(s, e, t);
    StepKeepsNoCycle(s, e, t);
    StepKeepsInv(s, e, t);
    StepKeepsRule(s, e, t);
  }

  lemma AllowedByKind(s: Store, e: Edit)
    requires e.CreateFunction? || e.SetKnots?
    ensures Allowed(s, e)
  {
  }

  lemma AllowedNode(s: Store, graph: string, node: NodeState)
    requires Sane(s, AddNode(graph, node))
    ensures Allowed(s, AddNode(graph, node))
  {
    hide Sane;
  }

  lemma LinkIsAllowed(s: Store, p: PinRef, q: PinRef)
    requires IsPin(s.nodes, p) && IsPin(s.nodes, q) && LinkFits(s, p, q)
    requires s.HasPin(Wire(s.nodes, p, q).End(PD_Output)) && s.HasPin(Wire(s.nodes, p, q).End(PD_Input))
    ensures Allowed(s, Link(p, q))
  {
    hide Wire, Store.HasPin, Store.ClosesCycle, LinkFits;
  }

  lemma WireEndsAre(p: PinRef, q: PinRef)
    requires p.dir == PD_Output && q.dir == PD_Input && Addressable(p) && Addressable(q)
    ensures WireOf(p, q).End(PD_Output) == p && WireOf(p, q).End(PD_Input) == q
  {
  }

  lemma AllowedLink(s: Store, p: PinRef, q: PinRef)
    requires Good(s) && s.HasPin(p) && s.HasPin(q) && p.dir == PD_Output && q.dir == PD_Input
    ensures Allowed(s, Link(p, q))
  {
    hide *;
    GoodIs(s);
    LinkedIsLink(s, p, q);
    WireEndsAre(p, q);
    LinkedKeepsCardinality(s, p, q);
    LinkedCardinalityIff(s, p, q);
    LinkIsAllowed(s, p, q);
  }

  lemma AllowedRemoval(s: Store, name: string, index: int, t: Store)
    requires Good(s) && Step(s, RemoveArgument(name, index), t)
    requires name in s.functions && RemovalsVisible(s, name, index)
    ensures Allowed(s, RemoveArgument(name, index))
  {
    hide *;
    GoodIs(s);
    VisibleIsSpared(s, name, index);
    RemoveArgumentStep(s, name, index, t);
    RemoveArgumentStepRule(s, name, index, t);
    RemovalWithin(s, name, index);
    SaneRemoval(s, name, index);
    OrderlyStep(s, RemoveArgument(name, index));
    AllowedIs(s, RemoveArgument(name, index));
  }

  /** The one knot lies on a wire that is there, between pins of nodes that are no reroutes. */
  lemma KnotIsThere()
    requires WithUser().HasPin(PinRef(0, PD_Output, 2)) && WithUser().HasPin(PinRef(1, PD_Input, 0))
    ensures "f" in Knotted().graphs && KnotsOnPins(Knotted(), "f") && KnotsOffReroutes(Knotted(), "f")
    ensures Knots(Knotted().graphs["f"]) <= Knotted().conns
  {
    var s := Knotted();
    assert s.nodes == WithUser().nodes && !s.nodes[0].IsReroute() && !s.nodes[1].IsReroute();
    hide WithUser, Entry, User;
  }

  lemma AllowedUpgrade(s: Store, g: string)
    requires s.Cardinality() && g in s.graphs && KnotsOnPins(s, g) && KnotsOffReroutes(s, g)
    requires Knots(s.graphs[g]) <= s.conns
    ensures Allowed(s, UpgradeGraph(g))
  {
    assert s.conns + Knots(s.graphs[g]) == s.conns;
    hide Store.Cardinality, KnotsOnPins, KnotsOffReroutes, Knots;
  }

  const LINK := Link(PinRef(0, PD_Output, 2), PinRef(1, PD_Input, 0))

  const EDITS: seq<Edit> := [
    CreateFunction(NEW_FUNCTION, false), AddNode("f", User()), LINK, SetKnots("f", map[DIRECT := 1]),
    UpgradeGraph("f"), RemoveArgument("f", 0), DuplicateFunction("f", "g", false)
  ]

  /** The first half: a function with a wire that carries a knot. */
  lemma Prepared()
    ensures Good(Created()) && Good(WithUser()) && Good(Wired()) && Good(Knotted())
    ensures Step(Empty(), EDITS[0], Created()) && Allowed(Empty(), EDITS[0])
    ensures Step(Created(), EDITS[1], WithUser()) && Allowed(Created(), EDITS[1])
    ensures Step(WithUser(), EDITS[2], Wired()) && Allowed(WithUser(), EDITS[2])
    ensures Step(Wired(), EDITS[3], Knotted()) && Allowed(Wired(), EDITS[3])
  {
    hide *;
    EditsAre();
    EmptyIsGood();
    GoodIs(Empty());
    CreateStep();
    AllowedByKind(Empty(), EDITS[0]);
    Advance(Empty(), EDITS[0], Created());
    AddStep();
    AllowedNode(Created(), "f", User());
    Advance(Created(), EDITS[1], WithUser());
    GoodIs(WithUser());
    WireStep();
    AllowedLink(WithUser(), PinRef(0, PD_Output, 2), PinRef(1, PD_Input, 0));
    Advance(WithUser(), EDITS[2], Wired());
    KnotStep();
    AllowedByKind(Wired(), EDITS[3]);
    Advance(Wired(), EDITS[3], Knotted());
  }

  lemma EditsAre()
    ensures EDITS[0] == CreateFunction(NEW_FUNCTION, false) && EDITS[1] == AddNode("f", User()) && EDITS[2] == LINK
    ensures LINK == Link(PinRef(0, PD_Output, 2), PinRef(1, PD_Input, 0))
    ensures EDITS[3] == SetKnots("f", map[DIRECT := 1]) && EDITS[4] == UpgradeGraph("f")
    ensures EDITS[5] == RemoveArgument("f", 0) && EDITS[6] == DuplicateFunction("f", "g", false) && |EDITS| == 7
  {
    hide User, NEW_FUNCTION;
  }

  /** The second half: the upgrade, the removal and the duplicate. */
  lemma Rewritten() returns (t: Store, m: D.IdMap)
    ensures Step(Knotted(), EDITS[4], Upgraded()) && Allowed(Knotted(), EDITS[4])
    ensures Step(Upgraded(), EDITS[5], Shortened()) && Allowed(Upgraded(), EDITS[5])
    ensures Step(Shortened(), EDITS[6], t) && Allowed(Shortened(), EDITS[6])
    ensures t.functions.Keys == {"f", "g"} && m.Keys == {0, 1, 2}
    ensures t.conns == Shortened().conns + D.Images(m, D.Inside(Shortened().conns, m.Keys))
  {
    hide *;
    EditsAre();
    Prepared();
    GoodIs(WithUser());
    WireStep();
    KnotIsThere();
    GoodIs(Knotted());
    UpgradeIsStep();
    AllowedUpgrade(Knotted(), "f");
    Advance(Knotted(), EDITS[4], Upgraded());
    GoodIs(Upgraded());
    RemoveStep();
    AllowedRemoval(Upgraded(), "f", 0, Shortened());
    Advance(Upgraded(), EDITS[5], Shortened());
    GoodIs(Shortened());
    ShortenedParts();
    CanDuplicateBy(Shortened(), "f", "g");
    t, m := DuplicateExists(Shortened(), "f", "g", false);
    DuplicateIsStep(Shortened(), t, "f", "g", false, m);
    InsideIsSane(Shortened(), "f", "g", false);
    AllowedIs(Shortened(), EDITS[6]);
    DuplicateIsThere(Shortened(), t, m);
  }

  /**
    The run: every edit in it is orderly, sane and within the rule; the upgrade leads the knotted wire over a
    reroute, the removal takes the argument and renumbers the wire, and the duplicate copies nodes and wires.
   */
  lemma RunWithRewrites() returns (states: seq<Store>, m: D.IdMap)
    ensures IsRun(states, EDITS) && |EDITS| == 7 && |states| == 8 && states[0] == Empty()
    ensures EDITS[4] == UpgradeGraph("f") && EDITS[5] == RemoveArgument("f", 0)
    ensures EDITS[6] == DuplicateFunction("f", "g", false)
    ensures OrderlyUpTo(states, EDITS, 7) && SaneUpTo(states, EDITS, 7) && WithinRuleUpTo(states, EDITS, 7)
    ensures states[4].conns == {DIRECT} && states[5].conns == CHAIN && states[6].conns == SHORT_CHAIN
    ensures m.Keys == {0, 1, 2} && states[7].conns == SHORT_CHAIN + D.Images(m, SHORT_CHAIN)
    ensures "f" in states[5].functions && states[5].functions["f"].arguments == ["x", "y"]
    ensures "f" in states[6].functions && states[6].functions["f"].arguments == ["y"]
    ensures states[7].functions.Keys == {"f", "g"}
  {
    hide *;
    var t;
    EditsAre();
    Prepared();
    t, m := Rewritten();
    states := [Empty(), Created(), WithUser(), Wired(), Knotted(), Upgraded(), Shortened(), t];
    StatesAre();
    SevenSteps(states, EDITS);
  }

  lemma StatesAre()
    ensures Knotted().conns == {DIRECT} && Upgraded().conns == CHAIN && Shortened().conns == SHORT_CHAIN
    ensures "f" in Upgraded().functions && Upgraded().functions["f"].arguments == ["x", "y"]
    ensures "f" in Shortened().functions && Shortened().functions["f"].arguments == ["y"]
    ensures D.Inside(SHORT_CHAIN, {0, 1, 2}) == SHORT_CHAIN
  {
    hide Entry, User, RerouteNode;
  }

  lemma SevenSteps(states: seq<Store>, edits: seq<Edit>)
    requires |edits| == 7 && |states| == 8
    requires Step(states[0], edits[0], states[1]) && Allowed(states[0], edits[0])
    requires Step(states[1], edits[1], states[2]) && Allowed(states[1], edits[1])
    requires Step(states[2], edits[2], states[3]) && Allowed(states[2], edits[2])
    requires Step(states[3], edits[3], states[4]) && Allowed(states[3], edits[3])
    requires Step(states[4], edits[4], states[5]) && Allowed(states[4], edits[4])
    requires Step(states[5], edits[5], states[6]) && Allowed(states[5], edits[5])
    requires Step(states[6], edits[6], states[7]) && Allowed(states[6], edits[6])
    ensures IsRun(states, edits)
    ensures OrderlyUpTo(states, edits, 7) && SaneUpTo(states, edits, 7) && WithinRuleUpTo(states, edits, 7)
  {
    hide Step, Orderly, Sane, WithinRule;
    forall i | 0 <= i < 7
      ensures Step(states[i], edits[i], states[i + 1]) && Allowed(states[i], edits[i])
    {
      assert i == 0 || i == 1 || i == 2 || i == 3 || i == 4 || i == 5 || i == 6;
    }
  }
}
