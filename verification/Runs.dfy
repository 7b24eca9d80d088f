/**
  Runs: any sequence of edits.

  Each step is an operation proved elsewhere to have exactly this effect.  What does not depend on pins is
  kept for nodes of every kind; the pin-level invariant and the cardinality rule are kept by exactly the
  steps that meet a condition on the state before them.
 */
module Runs {
  import opened Connections
  import opened Nodes
  import opened Reroutes
  import opened Stores
  import opened Queries
  import opened ArgumentRemoval
  import opened FunctionCreation
  import opened FunctionEdits
  import opened HiddenRemovals
  import opened RemovalRules
  import D = Duplication
  import opened Duplicates
  import opened KnotMigration
  import opened Orchestrations
  import opened Upgrades
  import opened UpgradeMeaning
  import opened Rules

  datatype Edit =
    | AddNode(graph: string, node: NodeState)
    | RemoveNode(id: int)
    | Link(p: PinRef, q: PinRef)
    | Unlink(p: PinRef, q: PinRef)
    | UnlinkPin(p: PinRef)
    | CreateGraph(name: string, functionGraph: bool, eventGraph: bool)
    | RemoveGraph(name: string)
    | RenameGraph(oldName: string, newName: string)
    | MoveNode(id: int, source: string, target: string)
    | CreateFunction(signature: Signature, taken: bool)
    | RemoveFunction(name: string)
    | RemoveArgument(name: string, index: int)
    | DuplicateFunction(name: string, newName: string, getter: bool)
    | SetKnots(graph: string, knots: map<Connection, nat>)
    | UpgradeGraph(graph: string)

  /** A node with an id and pins that fit the packed connections. */
  predicate Fits(node: NodeState) {
    0 <= node.id < NODE_LIMIT && |node.inputs| <= PORT_LIMIT && |node.outputs| <= PORT_LIMIT
  }

  /** The edit may be made in `s`, and takes it to `t`. */
  ghost predicate Step(s: Store, e: Edit, t: Store) {
    match e
    case AddNode(graph, node) => graph in s.graphs && Fits(node) && t == s.AddNode(graph, node)
    case RemoveNode(id) => t == s.RemoveNode(id)
    case Link(p, q) => IsPin(s.nodes, p) && IsPin(s.nodes, q) && t == Linked(s, p, q)
    case Unlink(p, q) => IsPin(s.nodes, p) && IsPin(s.nodes, q) && t == s.Disconnect(Wire(s.nodes, p, q))
    case UnlinkPin(p) => t == UnlinkedAll(s, p)
    case CreateGraph(name, functionGraph, eventGraph) => t == s.CreateGraph(name, functionGraph, eventGraph)
    case RemoveGraph(name) => t == s.RemoveGraph(name)
    case RenameGraph(oldName, newName) => t == s.RenameGraph(oldName, newName)
    case MoveNode(id, source, target) => source in s.graphs && target in s.graphs && t == s.MoveNode(id, source, target)
    case CreateFunction(f, taken) =>
      HasRoom(s, f) && if Refused(s, f, taken) then t == s else exists id :: s.IsAvailable(id) && t == Made(s, f, id)
    case RemoveFunction(name) => t == s.RemoveFunction(name)
    case RemoveArgument(name, index) =>
      name in s.functions && exists u :: ArgumentRemoved(s, name, index, u) && t == Recached(u)
    case DuplicateFunction(name, newName, getter) =>
      CanDuplicate(s, name, newName) && exists m :: IsDuplicate(s, t, name, newName, getter, m)
    case SetKnots(graph, knots) => graph in s.graphs && LieInside(knots, s.graphs[graph].nodes)
      && t == s.SetKnots(graph, knots)
    case UpgradeGraph(graph) => graph in s.graphs && exists order, idss :: UpgradeTaken(s, t, graph, order, idss)
  }

  /** Knots are placed on wires between nodes of the graph. */
  predicate LieInside(knots: map<Connection, nat>, nodes: set<int>) {
    forall c :: c in knots ==> c.fromNode in nodes && c.toNode in nodes
  }

  /** The states a run passes, one more than there are edits. */
  ghost predicate IsRun(states: seq<Store>, edits: seq<Edit>) {
    |states| == |edits| + 1 && forall i :: 0 <= i < |edits| ==> Step(states[i], edits[i], states[i + 1])
  }

  // ----- What does not depend on pins -----

  /** No duplicate links a leaving wire to a node 0 that is not there. */
  ghost predicate Orderly(s: Store, e: Edit) {
    e.DuplicateFunction? && e.name in s.graphs ==> D.StaysInside(s.conns, s.graphs[e.name].nodes) || 0 in s.nodes
  }

  lemma DisconnectedKeepsTidy(s: Store, c: Connection)
    requires s.Tidy()
    ensures s.Disconnect(c).Tidy()
  {
    DropKeepsTidy(s, {c});
  }

  lemma RemoveNodeKeepsTidy(s: Store, id: int)
    requires s.Tidy()
    ensures s.RemoveNode(id).Tidy()
  {
    WithoutNodesKeepsTidy(s, {id});
  }

  lemma CreateFunctionStep(s: Store, f: Signature, taken: bool, t: Store)
    requires s.Tidy() && Step(s, CreateFunction(f, taken), t)
    ensures t.Tidy()
    ensures NoCycle(s) ==> NoCycle(t)
    ensures s.Inv() ==> t.Inv() && (s.Cardinality() ==> t.Cardinality())
  {
    if !Refused(s, f, taken) {
      var id :| s.IsAvailable(id) && t == Made(s, f, id);
      assert !Refused(s, f, false);
      hide Store.Tidy, Store.Inv, Made, Refused, HasRoom, Store.Cardinality;
      MadeKeepsTidy(s, f, id);
      MadeKeepsRules(s, f, id);
      if s.Inv() {
        MadeKeepsInv(s, f, id);
      }
    }
  }

  lemma RemoveArgumentStep(s: Store, name: string, index: int, t: Store)
    requires s.Tidy() && Step(s, RemoveArgument(name, index), t)
    ensures t.Tidy()
    ensures NoCycle(s) ==> NoCycle(t)
    ensures name in s.functions
    ensures s.Inv() && RemovalsVisible(s, name, index) ==> t.Inv() && (s.Cardinality() ==> t.Cardinality())
  {
    var u :| ArgumentRemoved(s, name, index, u) && t == Recached(u);
    hide Store.Tidy, Store.Inv, Store.Cardinality, NoCycle, ArgumentRemoved, RemovalsVisible, Recached;
    ArgumentRemovedKeepsTidy(s, name, index, u);
    if NoCycle(s) {
      ArgumentRemovedKeepsNoCycle(s, name, index, u);
    }
    if s.Inv() && RemovalsVisible(s, name, index) {
      RemovalIsRenumbering(s, name, index, u);
      RemoveArgumentKeepsInv(s, name, index);
      if s.Cardinality() {
        RemoveArgumentKeepsCardinality(s, name, index);
      }
    }
  }

  lemma DuplicateStep(s: Store, name: string, newName: string, getter: bool, t: Store)
    requires s.Tidy() && Step(s, DuplicateFunction(name, newName, getter), t)
    ensures t.Tidy() <==> Orderly(s, DuplicateFunction(name, newName, getter))
    ensures NoCycle(s) ==> NoCycle(t)
  {
    var m :| IsDuplicate(s, t, name, newName, getter, m);
    assert CanDuplicate(s, name, newName) && m.Keys == s.graphs[name].nodes;
    hide Store.Tidy, IsDuplicate, CanDuplicate, NoCycle;
    DuplicateKeepsTidy(s, t, name, newName, getter, m);
    if NoCycle(s) {
      DuplicateKeepsNoCycle(s, t, name, newName, getter, m);
    }
  }

  lemma UpgradeStep(s: Store, g: string, t: Store)
    requires s.Tidy() && Step(s, UpgradeGraph(g), t)
    ensures t.Tidy()
    ensures NoCycle(s) ==> NoCycle(t)
  {
    var order, idss :| UpgradeTaken(s, t, g, order, idss);
    hide *;
    NoCycleMeans(s);
    NoCycleMeans(t);
    UpgradeGraphThere(s, g, t);
    UpgradeTakenKeeps(s, t, g, order, idss);
  }

  lemma UpgradeGraphThere(s: Store, g: string, t: Store)
    requires Step(s, UpgradeGraph(g), t)
    ensures g in s.graphs
  {
  }

  /** Every edit of any store keeps it tidy, duplicates exactly if they are orderly. */
  lemma StepKeepsTidy(s: Store, e: Edit, t: Store)
    requires s.Tidy() && Step(s, e, t)
    ensures t.Tidy() <==> Orderly(s, e)
  {
    hide Store.Tidy, Store.AddNode, Store.Disconnect, Store.RemoveNode, Linked, UnlinkedAll, Store.CreateGraph,
         Store.RemoveGraph, Store.RenameGraph, Store.MoveNode, Store.RemoveFunction, Store.SetKnots, Recached,
         ArgumentRemoved, Made, IsDuplicate, CanDuplicate, UpgradeTaken, Wire, HasRoom, Refused;
    match e
    case AddNode(graph, node) => AddNodeKeepsTidy(s, graph, node);
    case RemoveNode(id) => RemoveNodeKeepsTidy(s, id);
    case Link(p, q) => LinkedKeepsTidy(s, p, q);
    case Unlink(p, q) => DisconnectedKeepsTidy(s, Wire(s.nodes, p, q));
    case UnlinkPin(p) => UnlinkedKeepsTidy(s, p);
    case CreateGraph(name, functionGraph, eventGraph) => CreateGraphKeepsTidy(s, name, functionGraph, eventGraph);
    case RemoveGraph(name) => RemoveGraphKeepsTidy(s, name);
    case RenameGraph(oldName, newName) => RenameGraphKeepsTidy(s, oldName, newName);
    case MoveNode(id, source, target) => MoveNodeKeepsTidy(s, id, source, target);
    case CreateFunction(f, taken) => CreateFunctionStep(s, f, taken, t);
    case RemoveFunction(name) => RemoveFunctionKeepsTidy(s, name);
    case RemoveArgument(name, index) => RemoveArgumentStep(s, name, index, t);
    case DuplicateFunction(name, newName, getter) => DuplicateStep(s, name, newName, getter, t);
    case SetKnots(graph, knots) => SetKnotsKeepsTidy(s, graph, knots);
    case UpgradeGraph(graph) => UpgradeStep(s, graph, t);
  }

  // ----- Edits that add no wire -----

  /** Every edit but linking, and those that link on their own, adds no wire and leaves the nodes that stay alone. */
  predicate OnlyRemoves(e: Edit) {
    !e.Link? && !e.DuplicateFunction? && !e.UpgradeGraph? && !e.RemoveArgument? && !e.CreateFunction?
  }

  lemma RemovalFewer(s: Store, ids: set<int>, t: Store)
    requires s.Wired() && (t == s || (t.conns == s.WithoutNodes(ids).conns && t.nodes == s.WithoutNodes(ids).nodes))
    ensures FewerWires(s, t)
  {
    SameWiresFewer(s, s);
    WithoutNodesFewer(s, ids);
  }

  lemma StepRemoves(s: Store, e: Edit, t: Store)
    requires s.Wired() && Step(s, e, t) && OnlyRemoves(e)
    ensures FewerWires(s, t)
  {
    hide Store.AddNode, Store.Drop, Store.WithoutNodes, FewerWires, Unlinked, Wire, Store.Wired;
    SameWiresFewer(s, s);
    match e
    case AddNode(graph, node) => AddNodeFewer(s, graph, node);
    case RemoveNode(id) => RemovalFewer(s, {id}, t);
    case Unlink(p, q) => DropFewer(s, {Wire(s.nodes, p, q)});
    case UnlinkPin(p) => DropFewer(s, Unlinked(s, p));
    case CreateGraph(_, _, _) => SameWiresFewer(s, t);
    case RemoveGraph(name) => RemovalFewer(s, if name in s.graphs then s.graphs[name].nodes else {}, t);
    case RenameGraph(_, _) => SameWiresFewer(s, t);
    case MoveNode(_, _, _) => SameWiresFewer(s, t);
    case RemoveFunction(name) => RemovalFewer(s, if name in s.functions then s.FunctionNodes(name) else {}, t);
    case SetKnots(_, _) => SameWiresFewer(s, t);
  }

  /** No edit of any store closes a cycle of reroutes. */
  lemma StepKeepsNoCycle(s: Store, e: Edit, t: Store)
    requires s.Tidy() && Step(s, e, t) && NoCycle(s)
    ensures NoCycle(t)
  {
    hide Store.Tidy, Linked, FewerWires, IsDuplicate, CanDuplicate, UpgradeTaken, Recached, ArgumentRemoved, NoCycle,
         Made, Store.AddNode, Store.WithoutNodes, Store.Drop, Unlinked, Wire;
    match e
    case Link(p, q) => LinkedKeepsNoCycle(s, p, q);
    case CreateFunction(f, taken) => CreateFunctionStep(s, f, taken, t);
    case RemoveArgument(name, index) => RemoveArgumentStep(s, name, index, t);
    case DuplicateFunction(name, newName, getter) => DuplicateStep(s, name, newName, getter, t);
    case UpgradeGraph(g) => UpgradeStep(s, g, t);
    case _ =>
      TidyIs(s);
      StepRemoves(s, e, t);
      FewerWiresKeepRules(s, t);
  }

  // ----- The pin-level invariant -----

  /** The condition, on the state before, under which an edit keeps the pin-level invariant. */
  ghost predicate Sane(s: Store, e: Edit) {
    match e
    case AddNode(graph, node) => node.id in s.nodes || node.Cache().Sound()
    case Link(p, q) =>
      IsPin(s.nodes, p) && IsPin(s.nodes, q) ==>
        var c := Wire(s.nodes, p, q); s.ClosesCycle(c) || (s.HasPin(c.End(PD_Output)) && s.HasPin(c.End(PD_Input)))
    case RemoveArgument(name, index) =>
      name in s.functions ==> RemovalUnindexed(s, name, index) && RemovalSpares(s, name, index)
    case DuplicateFunction(name, newName, getter) => name in s.graphs ==> StraysOnPins(s, s.graphs[name].nodes)
    case UpgradeGraph(graph) => graph in s.graphs ==> KnotsOnPins(s, graph)
    case _ => true
  }

  /**
    The condition is exact: for the removal of an argument where hidden pins have no index, for an upgrade where
    the knotted wires do not touch reroutes, and for every other edit always.
   */
  ghost predicate Exactly(s: Store, e: Edit) {
    match e
    case RemoveArgument(name, index) => name in s.functions ==> RemovalUnindexed(s, name, index)
    case UpgradeGraph(graph) => graph in s.graphs ==> KnotsOffReroutes(s, graph)
    case _ => true
  }

  lemma LinkStepInv(s: Store, p: PinRef, q: PinRef)
    requires s.Inv() && IsPin(s.nodes, p) && IsPin(s.nodes, q)
    ensures var c := Wire(s.nodes, p, q);
            Linked(s, p, q).Inv() <==> s.ClosesCycle(c) || (s.HasPin(c.End(PD_Output)) && s.HasPin(c.End(PD_Input)))
  {
    var c, u := Wire(s.nodes, p, q), Cleared(s, SourceOf(p, q), TargetOf(p, q));
    if !s.ClosesCycle(c) {
      assert s.Tidy();
      ClearedKeepsTidy(s, SourceOf(p, q), TargetOf(p, q));
      WireNodes(s, p, q);
      hide Store.Inv, Store.Tidy, Cleared, Wire, Store.ClosesCycle;
      FewerKeepsInv(s, u);
      ConnectKeepsInv(u, c);
      if u.ClosesCycle(c) {
        FewerClosesLess(s, u, c);
      }
    }
  }

  lemma DuplicateStepInv(s: Store, name: string, newName: string, getter: bool, t: Store)
    requires s.Inv() && Step(s, DuplicateFunction(name, newName, getter), t)
    ensures t.Inv() <==> Sane(s, DuplicateFunction(name, newName, getter))
  {
    var m :| IsDuplicate(s, t, name, newName, getter, m);
    assert CanDuplicate(s, name, newName);
    hide Store.Inv, IsDuplicate, CanDuplicate, StraysOnPins;
    DuplicateKeepsInv(s, t, name, newName, getter, m);
  }

  lemma UpgradeStepInv(s: Store, g: string, t: Store)
    requires s.Inv() && Step(s, UpgradeGraph(g), t)
    ensures Sane(s, UpgradeGraph(g)) ==> t.Inv()
    ensures Exactly(s, UpgradeGraph(g)) && t.Inv() ==> Sane(s, UpgradeGraph(g))
  {
    var order, idss :| UpgradeTaken(s, t, g, order, idss);
    assert s.Tidy();
    UpgradeGraphThere(s, g, t);
    UpgradeStep(s, g, t);
    hide Store.Inv, Store.Tidy, UpgradeTaken, KnotsOnPins, KnotsOffReroutes;
    if KnotsOnPins(s, g) {
      UpgradeTakenKeepsInv(s, t, g, order, idss);
    }
    if KnotsOffReroutes(s, g) {
      TakenIsUpgraded(s, t, g, order, idss);
      UpgradeKeepsInv(s, t, g, ChainsOf(order, idss));
    }
  }

  lemma FewerStepInv(s: Store, e: Edit, t: Store)
    requires s.Inv() && t.Tidy() && Step(s, e, t) && OnlyRemoves(e) && !e.AddNode?
    ensures t.Inv()
  {
    assert s.Tidy() && s.Wired();
    StepRemoves(s, e, t);
    StepKeepsNodes(s, e, t);
    hide Step, Store.Inv, Store.Tidy;
    FewerKeepsInv(s, t);
  }

  lemma StepKeepsNodes(s: Store, e: Edit, t: Store)
    requires Step(s, e, t) && OnlyRemoves(e) && !e.AddNode?
    ensures forall id :: id in t.nodes ==> id in s.nodes && t.nodes[id] == s.nodes[id]
  {
    hide Unlinked, Wire;
  }

  predicate AddsToPins(e: Edit) {
    !OnlyRemoves(e) || e.AddNode?
  }

  lemma AddNodeStepInv(s: Store, graph: string, node: NodeState, t: Store)
    requires s.Inv() && Step(s, AddNode(graph, node), t)
    ensures t.Inv() <==> Sane(s, AddNode(graph, node))
  {
    hide Store.Inv, Store.AddNode, NodeState.Sound;
    AddNodeKeepsInv(s, graph, node);
  }

  lemma LinkedStepInv(s: Store, p: PinRef, q: PinRef, t: Store)
    requires s.Inv() && Step(s, Link(p, q), t)
    ensures t.Inv() <==> Sane(s, Link(p, q))
  {
    hide Store.Inv, Linked, Wire, Store.ClosesCycle, Store.HasPin;
    LinkStepInv(s, p, q);
  }

  lemma RemoveArgumentStepInv(s: Store, name: string, index: int, t: Store)
    requires s.Inv() && Step(s, RemoveArgument(name, index), t)
    ensures Sane(s, RemoveArgument(name, index)) ==> t.Inv()
    ensures Exactly(s, RemoveArgument(name, index)) && t.Inv() ==> Sane(s, RemoveArgument(name, index))
  {
    hide *;
    var u := RemovalTaken(s, name, index, t);
    SaneRemoval(s, name, index);
    if RemovalUnindexed(s, name, index) {
      RemovalKeepsInvIff(s, name, index, u);
    }
  }

  lemma SaneRemoval(s: Store, name: string, index: int)
    requires name in s.functions
    ensures Sane(s, RemoveArgument(name, index)) <==>
            RemovalUnindexed(s, name, index) && RemovalSpares(s, name, index)
    ensures Exactly(s, RemoveArgument(name, index)) <==> RemovalUnindexed(s, name, index)
  {
    hide RemovalUnindexed, RemovalSpares;
  }

  lemma RemovalTaken(s: Store, name: string, index: int, t: Store) returns (u: Store)
    requires Step(s, RemoveArgument(name, index), t)
    ensures name in s.functions && ArgumentRemoved(s, name, index, u) && t == Recached(u)
  {
    hide ArgumentRemoved, Recached;
    u :| ArgumentRemoved(s, name, index, u) && t == Recached(u);
  }

  lemma AddingStepInv(s: Store, e: Edit, t: Store)
    requires s.Inv() && Step(s, e, t) && AddsToPins(e)
    ensures Sane(s, e) ==> t.Inv()
    ensures Exactly(s, e) && t.Inv() ==> Sane(s, e)
  {
    assert s.Tidy() && (e.CreateFunction? ==> Sane(s, e));
    assert e.AddNode? || e.Link? || e.CreateFunction? || e.RemoveArgument? || e.DuplicateFunction? || e.UpgradeGraph?;
    hide *;
    if e.AddNode? {
      AddNodeStepInv(s, e.graph, e.node, t);
    } else if e.Link? {
      LinkedStepInv(s, e.p, e.q, t);
    } else if e.CreateFunction? {
      CreateFunctionStep(s, e.signature, e.taken, t);
    } else if e.RemoveArgument? {
      RemoveArgumentStepInv(s, e.name, e.index, t);
    } else if e.DuplicateFunction? {
      DuplicateStepInv(s, e.name, e.newName, e.getter, t);
    } else {
      UpgradeStepInv(s, e.graph, t);
    }
  }

  /** An edit keeps the pin-level invariant exactly when it is sane. */
  lemma StepKeepsInv(s: Store, e: Edit, t: Store)
    requires s.Inv() && Step(s, e, t)
    ensures Sane(s, e) ==> t.Inv()
    ensures Exactly(s, e) && t.Inv() ==> Sane(s, e)
  {
    InvIs(s);
    assert s.Tidy();
    if AddsToPins(e) {
      AddingStepInv(s, e, t);
    } else {
      assert Sane(s, e) && OnlyRemoves(e) && !e.AddNode? && !e.DuplicateFunction?;
      hide *;
      OrderlyStep(s, e);
      StepKeepsTidy(s, e, t);
      FewerStepInv(s, e, t);
    }
  }

  lemma OrderlyStep(s: Store, e: Edit)
    requires !e.DuplicateFunction?
    ensures Orderly(s, e)
  {
  }

  // ----- The cardinality rule -----

  /**
    The condition, on the state before, under which an edit keeps the cardinality rule, where the pin-level
    invariant holds.
   */
  ghost predicate WithinRule(s: Store, e: Edit) {
    match e
    case Link(p, q) => IsPin(s.nodes, p) && IsPin(s.nodes, q) ==> LinkFits(s, p, q)
    case RemoveArgument(name, index) =>
      name in s.functions ==>
        RemovalUnindexed(s, name, index) && RemovalSpares(s, name, index) && RemovalKeepsRule(s, name, index)
    case DuplicateFunction(name, newName, getter) => name in s.graphs ==> StraysAlone(s, s.graphs[name].nodes)
    case UpgradeGraph(graph) =>
      graph in s.graphs ==> KnotsOffReroutes(s, graph) && s.(conns := s.conns + Knots(s.graphs[graph])).Cardinality()
    case _ => true
  }

  lemma DuplicateStepRule(s: Store, name: string, newName: string, getter: bool, t: Store)
    requires s.Inv() && s.Cardinality() && Step(s, DuplicateFunction(name, newName, getter), t)
    ensures t.Cardinality() <==> WithinRule(s, DuplicateFunction(name, newName, getter))
  {
    var m :| IsDuplicate(s, t, name, newName, getter, m);
    assert CanDuplicate(s, name, newName);
    hide Store.Inv, IsDuplicate, CanDuplicate, StraysAlone, Store.Cardinality;
    DuplicateKeepsCardinality(s, t, name, newName, getter, m);
  }

  lemma UpgradeStepRule(s: Store, g: string, t: Store)
    requires s.Tidy() && Step(s, UpgradeGraph(g), t) && KnotsOffReroutes(s, g)
    ensures t.Cardinality() <==> s.(conns := s.conns + Knots(s.graphs[g])).Cardinality()
  {
    var order, idss :| UpgradeTaken(s, t, g, order, idss);
    hide Store.Tidy, UpgradeTaken, KnotsOffReroutes, Store.Cardinality;
    TakenIsUpgraded(s, t, g, order, idss);
    var chains := ChainsOf(order, idss);
    assert chains.Keys == Knots(s.graphs[g]);
    UpgradeKeepsCardinality(s, t, g, chains);
  }

  lemma LinkStepRule(s: Store, p: PinRef, q: PinRef, t: Store)
    requires s.Tidy() && s.Cardinality() && Step(s, Link(p, q), t)
    ensures t.Cardinality() <==> WithinRule(s, Link(p, q))
  {
    hide Store.Tidy, Linked, Store.Cardinality, LinkFits;
    LinkedCardinalityIff(s, p, q);
  }

  lemma RemoveArgumentStepRule(s: Store, name: string, index: int, t: Store)
    requires s.Inv() && Step(s, RemoveArgument(name, index), t)
    ensures WithinRule(s, RemoveArgument(name, index)) ==> t.Cardinality()
    ensures DecidesRule(s, RemoveArgument(name, index)) && t.Cardinality() ==>
              WithinRule(s, RemoveArgument(name, index))
  {
    hide *;
    var u := RemovalTaken(s, name, index, t);
    RemovalWithin(s, name, index);
    if RemovalUnindexed(s, name, index) && RemovalSpares(s, name, index) {
      RemovalKeepsRuleIff(s, name, index, u);
    }
  }

  lemma RemovalWithin(s: Store, name: string, index: int)
    requires name in s.functions
    ensures WithinRule(s, RemoveArgument(name, index)) <==>
            RemovalUnindexed(s, name, index) && RemovalSpares(s, name, index) && RemovalKeepsRule(s, name, index)
    ensures DecidesRule(s, RemoveArgument(name, index)) <==>
            RemovalUnindexed(s, name, index) && RemovalSpares(s, name, index)
  {
    hide RemovalUnindexed, RemovalSpares, RemovalKeepsRule;
  }

  lemma UpgradeStepWithin(s: Store, g: string, t: Store)
    requires s.Inv() && Step(s, UpgradeGraph(g), t)
    ensures WithinRule(s, UpgradeGraph(g)) ==> t.Cardinality()
    ensures DecidesRule(s, UpgradeGraph(g)) && t.Cardinality() ==> WithinRule(s, UpgradeGraph(g))
  {
    UpgradeGraphThere(s, g, t);
    assert s.Tidy();
    hide Store.Inv, Store.Tidy, UpgradeTaken, KnotsOffReroutes, Knots, Store.Cardinality;
    if KnotsOffReroutes(s, g) {
      UpgradeStepRule(s, g, t);
    }
  }

  lemma AddingStepRule(s: Store, e: Edit, t: Store)
    requires s.Inv() && Step(s, e, t) && s.Cardinality() && !OnlyRemoves(e)
    ensures WithinRule(s, e) ==> t.Cardinality()
    ensures DecidesRule(s, e) && t.Cardinality() ==> WithinRule(s, e)
  {
    assert s.Tidy() && (e.CreateFunction? ==> !DecidesRule(s, e));
    assert e.Link? || e.CreateFunction? || e.RemoveArgument? || e.DuplicateFunction? || e.UpgradeGraph?;
    hide *;
    if e.Link? {
      LinkStepRule(s, e.p, e.q, t);
    } else if e.CreateFunction? {
      CreateFunctionStep(s, e.signature, e.taken, t);
    } else if e.RemoveArgument? {
      RemoveArgumentStepRule(s, e.name, e.index, t);
    } else if e.DuplicateFunction? {
      DuplicateStepRule(s, e.name, e.newName, e.getter, t);
    } else {
      UpgradeStepWithin(s, e.graph, t);
    }
  }

  /**
    The condition is exact for a link, a duplicate, the removal of an argument that keeps the pin-level invariant,
    and an upgrade of knots that do not touch reroutes.
   */
  ghost predicate DecidesRule(s: Store, e: Edit) {
    match e
    case Link(p, q) => true
    case RemoveArgument(name, index) =>
      name in s.functions ==> RemovalUnindexed(s, name, index) && RemovalSpares(s, name, index)
    case DuplicateFunction(name, newName, getter) => true
    case UpgradeGraph(graph) => graph in s.graphs && KnotsOffReroutes(s, graph)
    case _ => false
  }

  /** Under the invariant, an edit within the rule keeps it; where the condition is exact, no other edit does. */
  lemma StepKeepsRule(s: Store, e: Edit, t: Store)
    requires s.Inv() && Step(s, e, t) && s.Cardinality()
    ensures WithinRule(s, e) ==> t.Cardinality()
    ensures DecidesRule(s, e) && t.Cardinality() ==> WithinRule(s, e)
  {
    InvIs(s);
    assert s.Tidy() && s.Wired();
    if OnlyRemoves(e) {
      assert !DecidesRule(s, e);
      hide *;
      StepRemoves(s, e, t);
      FewerWiresKeepRules(s, t);
    } else {
      AddingStepRule(s, e, t);
    }
  }

  // ----- Every run -----

  lemma RunPrefix(states: seq<Store>, edits: seq<Edit>, i: nat)
    requires IsRun(states, edits) && i < |edits|
    ensures Step(states[i], edits[i], states[i + 1])
  {
    hide Step;
  }

  ghost predicate TidyUpTo(states: seq<Store>, n: nat)
    requires n < |states|
  {
    forall i :: 0 <= i <= n ==> states[i].Tidy()
  }

  ghost predicate OrderlyUpTo(states: seq<Store>, edits: seq<Edit>, n: nat)
    requires |states| == |edits| + 1 && n <= |edits|
  {
    forall i :: 0 <= i < n ==> Orderly(states[i], edits[i])
  }

  ghost predicate NoCycleUpTo(states: seq<Store>, n: nat)
    requires n < |states|
  {
    forall i :: 0 <= i <= n ==> NoCycle(states[i])
  }

  /** One step more of each. */
  lemma UpToSnoc(states: seq<Store>, edits: seq<Edit>, n: nat)
    requires |states| == |edits| + 1 && 0 < n <= |edits|
    ensures TidyUpTo(states, n) <==> TidyUpTo(states, n - 1) && states[n].Tidy()
    ensures OrderlyUpTo(states, edits, n) <==> OrderlyUpTo(states, edits, n - 1) && Orderly(states[n - 1], edits[n - 1])
    ensures NoCycleUpTo(states, n) <==> NoCycleUpTo(states, n - 1) && NoCycle(states[n])
    ensures TidyUpTo(states, n - 1) ==> states[n - 1].Tidy()
    ensures NoCycleUpTo(states, n - 1) ==> NoCycle(states[n - 1])
  {
    hide Store.Tidy, Orderly, NoCycle;
  }

  /**
    A run over nodes of any kind keeps every state tidy exactly when its duplicates are orderly; a run that
    does closes no cycle.
   */
  lemma {:induction false} RunKeepsTidy(states: seq<Store>, edits: seq<Edit>, n: nat)
    requires IsRun(states, edits) && |states| == |edits| + 1 && n <= |edits| && states[0].Tidy()
    ensures TidyUpTo(states, n) <==> OrderlyUpTo(states, edits, n)
    ensures OrderlyUpTo(states, edits, n) && NoCycle(states[0]) ==> NoCycleUpTo(states, n)
  {
    if n > 0 {
      hide *;
      RunKeepsTidy(states, edits, n - 1);
      RunPrefix(states, edits, n - 1);
      UpToSnoc(states, edits, n);
      if OrderlyUpTo(states, edits, n - 1) {
        StepKeepsTidy(states[n - 1], edits[n - 1], states[n]);
        if NoCycle(states[0]) {
          StepKeepsNoCycle(states[n - 1], edits[n - 1], states[n]);
        }
      }
    } else {
      hide Store.Tidy, NoCycle, Orderly;
    }
  }

  ghost predicate InvUpTo(states: seq<Store>, n: nat)
    requires n < |states|
  {
    forall i :: 0 <= i <= n ==> states[i].Inv()
  }

  ghost predicate SaneUpTo(states: seq<Store>, edits: seq<Edit>, n: nat)
    requires |states| == |edits| + 1 && n <= |edits|
  {
    forall i :: 0 <= i < n ==> Sane(states[i], edits[i])
  }

  ghost predicate ExactlyUpTo(states: seq<Store>, edits: seq<Edit>, n: nat)
    requires |states| == |edits| + 1 && n <= |edits|
  {
    forall i :: 0 <= i < n ==> Exactly(states[i], edits[i])
  }

  ghost predicate WithinRuleUpTo(states: seq<Store>, edits: seq<Edit>, n: nat)
    requires |states| == |edits| + 1 && n <= |edits|
  {
    forall i :: 0 <= i < n ==> WithinRule(states[i], edits[i])
  }

  ghost predicate RuleUpTo(states: seq<Store>, n: nat)
    requires n < |states|
  {
    forall i :: 0 <= i <= n ==> states[i].Cardinality()
  }

  lemma PinsUpToSnoc(states: seq<Store>, edits: seq<Edit>, n: nat)
    requires |states| == |edits| + 1 && 0 < n <= |edits|
    ensures InvUpTo(states, n) <==> InvUpTo(states, n - 1) && states[n].Inv()
    ensures RuleUpTo(states, n) <==> RuleUpTo(states, n - 1) && states[n].Cardinality()
    ensures SaneUpTo(states, edits, n) <==>
            SaneUpTo(states, edits, n - 1) && Sane(states[n - 1], edits[n - 1])
    ensures ExactlyUpTo(states, edits, n) <==> ExactlyUpTo(states, edits, n - 1) && Exactly(states[n - 1], edits[n - 1])
    ensures WithinRuleUpTo(states, edits, n) <==>
            WithinRuleUpTo(states, edits, n - 1) && WithinRule(states[n - 1], edits[n - 1])
    ensures InvUpTo(states, n - 1) ==> states[n - 1].Inv()
    ensures RuleUpTo(states, n - 1) ==> states[n - 1].Cardinality()
  {
    hide Store.Inv, Store.Cardinality, Sane, Exactly, WithinRule;
  }

  /** A run of sane edits keeps the pin-level invariant, and where the condition is exact no other run does. */
  lemma {:induction false} RunKeepsInv(states: seq<Store>, edits: seq<Edit>, n: nat)
    requires IsRun(states, edits) && |states| == |edits| + 1 && n <= |edits| && states[0].Inv()
    ensures SaneUpTo(states, edits, n) ==> InvUpTo(states, n)
    ensures ExactlyUpTo(states, edits, n) && InvUpTo(states, n) ==> SaneUpTo(states, edits, n)
  {
    if n > 0 {
      hide *;
      RunKeepsInv(states, edits, n - 1);
      RunPrefix(states, edits, n - 1);
      PinsUpToSnoc(states, edits, n);
      if InvUpTo(states, n - 1) {
        StepKeepsInv(states[n - 1], edits[n - 1], states[n]);
      }
    } else {
      hide Store.Inv, Sane, Exactly;
    }
  }

  /** And the cardinality rule, where each edit is within it. */
  lemma {:induction false} RunKeepsRule(states: seq<Store>, edits: seq<Edit>, n: nat)
    requires IsRun(states, edits) && |states| == |edits| + 1 && n <= |edits| && states[0].Inv()
             && states[0].Cardinality()
    requires SaneUpTo(states, edits, n) && WithinRuleUpTo(states, edits, n)
    ensures RuleUpTo(states, n)
  {
    if n > 0 {
      hide *;
      PinsUpToSnoc(states, edits, n);
      RunKeepsRule(states, edits, n - 1);
      RunKeepsInv(states, edits, n - 1);
      RunPrefix(states, edits, n - 1);
      StepKeepsRule(states[n - 1], edits[n - 1], states[n]);
    } else {
      hide Store.Cardinality;
    }
  }

  function Empty(): Store {
    Store({}, map[], map[], map[])
  }

  lemma EmptyIsGood()
    ensures Empty().Tidy() && Empty().Inv() && Empty().Cardinality() && NoCycle(Empty())
  {
    forall a ensures !ReachesAgain(Empty().conns, Empty().Reroutes(), a, a) {
    }
  }

  /**
    From the empty orchestration, with nodes of any kind: in every state of an orderly run every node is in
    exactly one graph, every connection joins nodes that exist, no reroutes form a cycle, and an id that is
    not in use has no connections.
   */
  lemma EveryRun(states: seq<Store>, edits: seq<Edit>, n: nat)
    requires IsRun(states, edits) && states[0] == Empty() && n <= |edits| && OrderlyUpTo(states, edits, n)
    ensures states[n].Tidy() && NoCycle(states[n])
    ensures forall id, c :: states[n].IsAvailable(id) && c in states[n].conns ==> !c.IsLinkedTo(id)
  {
    EmptyIsGood();
    RunKeepsTidy(states, edits, n);
    var t := states[n];
    assert t.Tidy();
    TidyIs(t);
    hide IsRun, Store.Tidy, NoCycle, Orderly;
    forall id, c | t.IsAvailable(id) && c in t.conns ensures !c.IsLinkedTo(id) {
      UnusedIdIsUnwired(t, id, c);
    }
  }

  /** And if every edit is sane and within the rule, no wire dangles and the cardinality rule holds throughout. */
  lemma EverySaneRun(states: seq<Store>, edits: seq<Edit>, n: nat)
    requires IsRun(states, edits) && states[0] == Empty() && n <= |edits|
    requires SaneUpTo(states, edits, n) && WithinRuleUpTo(states, edits, n)
    ensures states[n].Inv() && states[n].Cardinality()
  {
    hide Step, Sane, WithinRule, Store.Inv, Store.Cardinality;
    EmptyIsGood();
    RunKeepsInv(states, edits, n);
    RunKeepsRule(states, edits, n);
  }
}
