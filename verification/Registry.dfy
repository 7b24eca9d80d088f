/**
  The registers that every run keeps right: each graph lists exactly its entry points as functions
  (`_functions` of `src/orchestration/graph.cpp`), and each function of the table is owned by an entry node
  of its own.
 */
module Registry {
  import opened Connections
  import opened ConnectionCaches
  import opened Nodes
  import opened Stores
  import opened Queries
  import opened Orchestrations
  import opened PortShift
  import opened ArgumentRemoval
  import opened FunctionCreation
  import opened FunctionEdits
  import D = Duplication
  import opened Duplicates
  import opened CopiedFunctions
  import opened KnotMigration
  import opened Upgrades
  import opened UpgradeMeaning
  import opened Runs

  /** Function entries count in function graphs, events in event graphs. */
  predicate IsEntryPoint(n: NodeState, g: GraphState) {
    (n.kind.FunctionEntry? && g.functionGraph) || (n.kind.Event? && g.eventGraph)
  }

  ghost predicate Lists(s: Store, g: string, n: int) {
    s.Holds(g, n) && n in s.nodes ==> (n in s.graphs[g].functions <==> IsEntryPoint(s.nodes[n], s.graphs[g]))
  }

  /** Of its nodes, a graph lists exactly the entry points. */
  ghost predicate Registered(s: Store) {
    forall g, n :: Lists(s, g, n)
  }

  ghost predicate OwnedByEntry(s: Store, f: string) {
    f in s.functions ==> s.functions[f].owner in s.nodes && s.nodes[s.functions[f].owner].kind == FunctionEntry(f)
  }

  /** Every function is owned by an entry node of its name. */
  ghost predicate Owned(s: Store) {
    forall f :: OwnedByEntry(s, f)
  }

  // ----- Edits that leave the registers alone -----

  /** The graphs hold and list the same nodes, and the nodes and owners are what they were. */
  ghost predicate SameRegisters(s: Store, t: Store) {
    && t.nodes.Keys == s.nodes.Keys && (forall n :: n in s.nodes ==> t.nodes[n].kind == s.nodes[n].kind)
    && t.graphs.Keys == s.graphs.Keys
    && (forall g :: g in s.graphs ==> t.graphs[g] == s.graphs[g].(knots := t.graphs[g].knots))
    && t.functions.Keys == s.functions.Keys
    && (forall f :: f in s.functions ==> t.functions[f].owner == s.functions[f].owner)
  }

  lemma SameRegistersKeep(s: Store, t: Store)
    requires SameRegisters(s, t)
    ensures Registered(s) ==> Registered(t)
    ensures Owned(s) ==> Owned(t)
  {
    if Registered(s) {
      forall g, n ensures Lists(t, g, n) {
        assert Lists(s, g, n);
      }
    }
    if Owned(s) {
      forall f ensures OwnedByEntry(t, f) {
        assert OwnedByEntry(s, f);
      }
    }
  }

  lemma SameTwice(s: Store, t: Store, u: Store)
    requires SameRegisters(s, t) && SameRegisters(t, u)
    ensures SameRegisters(s, u)
  {
  }

  lemma DropSame(s: Store, d: set<Connection>)
    ensures SameRegisters(s, s.Drop(d)) && SameRegisters(s, s)
  {
  }

  lemma LinkedSame(s: Store, p: PinRef, q: PinRef)
    requires s.Tidy() && IsPin(s.nodes, p) && IsPin(s.nodes, q)
    ensures SameRegisters(s, Linked(s, p, q))
  {
    var source, target := SourceOf(p, q), TargetOf(p, q);
    var t := if PinOf(s.nodes, target).IsExecution() then s else UnlinkedAll(s, target);
    DropSame(s, Unlinked(s, target));
    DropSame(t, Unlinked(t, source));
    hide Store.Drop, Unlinked, SameRegisters, Wire, Store.ClosesCycle;
    var u := Cleared(s, source, target);
    SameTwice(s, t, u);
    ConnectSame(s, u, Wire(s.nodes, p, q));
  }

  lemma ConnectSame(s: Store, u: Store, c: Connection)
    requires SameRegisters(s, u)
    ensures SameRegisters(s, u.Connect(c))
  {
    ConnectParts(u, c);
    hide Store.Connect;
  }

  lemma {:induction false} UnlinkedEachSame(s: Store, list: seq<PinRef>)
    ensures SameRegisters(s, UnlinkedEach(s, list))
  {
    if list == [] {
      DropSame(s, {});
    } else {
      var t := UnlinkedEach(s, list[..|list| - 1]);
      UnlinkedEachSame(s, list[..|list| - 1]);
      DropSame(t, Unlinked(t, list[|list| - 1]));
      hide SameRegisters, Store.Drop;
      SameTwice(s, t, UnlinkedEach(s, list));
    }
  }

  lemma KeptKinds(u: Store, d: set<PinRef>, conns: set<Connection>)
    ensures SameRegisters(u, Recached(u.(nodes := KeptNodes(u.nodes, d), conns := conns)))
  {
    hide Kept, Cached;
  }

  lemma TakenOutSame(s: Store, list: seq<PinRef>)
    ensures SameRegisters(s, Recached(TakenOut(s, list)))
  {
    var u := UnlinkedEach(s, list);
    UnlinkedEachSame(s, list);
    KeptKinds(u, PortShift.Members(list), ShiftAll(u.nodes, u.conns, list));
    hide SameRegisters, Recached, UnlinkedEach, ShiftAll, KeptNodes;
    SameTwice(s, u, Recached(TakenOut(s, list)));
  }

  lemma RedefinedSame(s: Store, u: Store, name: string, f: FunctionState)
    requires SameRegisters(s, Recached(u)) && name in s.functions && f.owner == s.functions[name].owner
    ensures SameRegisters(s, Recached(u.(functions := s.functions[name := f])))
  {
    hide NodeState.Cache;
  }

  lemma RemovalSame(s: Store, name: string, index: int, u: Store)
    requires name in s.functions && ArgumentRemoved(s, name, index, u)
    ensures SameRegisters(s, Recached(u))
  {
    if Removable(s, name, index) {
      var list :| IsRemovalList(s, s.functions[name], index, list)
        && u == TakenOut(s, list).(functions := s.functions[name := WithoutArgument(s.functions[name], index)]);
      TakenOutSame(s, list);
      hide IsRemovalList, SameRegisters, TakenOut, Recached;
      RedefinedSame(s, TakenOut(s, list), name, WithoutArgument(s.functions[name], index));
    } else {
      DropSame(s, {});
      hide Cached;
    }
  }

  // ----- Edits of nodes and graphs -----

  lemma AddNodeRegisters(s: Store, graph: string, node: NodeState)
    requires s.Tidy() && graph in s.graphs && Registered(s)
    ensures Registered(s.AddNode(graph, node))
    ensures Owned(s) ==> Owned(s.AddNode(graph, node))
  {
    var t := s.AddNode(graph, node);
    if node.id !in s.nodes {
      assert s.GraphSound(graph);
      forall g, n ensures Lists(t, g, n) {
        assert Lists(s, g, n);
        assert s.Holds(g, node.id) ==> node.id in s.nodes;
        assert s.GraphsSound() && (g in s.graphs ==> s.GraphSound(g));
      }
      if Owned(s) {
        forall f ensures OwnedByEntry(t, f) {
          assert OwnedByEntry(s, f);
        }
      }
    }
  }

  lemma WithoutNodesRegisters(s: Store, ids: set<int>)
    ensures Registered(s) ==> Registered(s.WithoutNodes(ids))
    ensures Owned(s) ==> Owned(s.WithoutNodes(ids))
  {
    var t := s.WithoutNodes(ids);
    if Registered(s) {
      forall g, n ensures Lists(t, g, n) {
        assert Lists(s, g, n);
      }
    }
    if Owned(s) {
      forall f ensures OwnedByEntry(t, f) {
        assert OwnedByEntry(s, f);
      }
    }
  }

  /** Fewer graphs and fewer functions. */
  lemma FewerRegisters(s: Store, t: Store)
    requires t.nodes == s.nodes && t.graphs.Keys <= s.graphs.Keys && t.functions.Keys <= s.functions.Keys
    requires forall g :: g in t.graphs ==> t.graphs[g] == s.graphs[g]
    requires forall f :: f in t.functions ==> t.functions[f] == s.functions[f]
    ensures Registered(s) ==> Registered(t)
    ensures Owned(s) ==> Owned(t)
  {
    if Registered(s) {
      forall g, n ensures Lists(t, g, n) {
        assert Lists(s, g, n);
      }
    }
    if Owned(s) {
      forall f ensures OwnedByEntry(t, f) {
        assert OwnedByEntry(s, f);
      }
    }
  }

  lemma RemoveGraphRegisters(s: Store, name: string)
    ensures Registered(s) ==> Registered(s.RemoveGraph(name))
    ensures Owned(s) ==> Owned(s.RemoveGraph(name))
  {
    if name in s.graphs && name != "EventGraph" {
      WithoutNodesRegisters(s, s.graphs[name].nodes);
      hide Store.WithoutNodes, Registered, Owned;
      FewerRegisters(s.WithoutNodes(s.graphs[name].nodes), s.RemoveGraph(name));
    }
  }

  lemma RemoveFunctionRegisters(s: Store, name: string)
    ensures Registered(s) ==> Registered(s.RemoveFunction(name))
    ensures Owned(s) ==> Owned(s.RemoveFunction(name))
  {
    if name in s.functions {
      WithoutNodesRegisters(s, s.FunctionNodes(name));
      hide Store.WithoutNodes, Store.FunctionNodes, Registered, Owned;
      FewerRegisters(s.WithoutNodes(s.FunctionNodes(name)), s.RemoveFunction(name));
    }
  }

  lemma CreateGraphRegisters(s: Store, name: string, functionGraph: bool, eventGraph: bool)
    ensures Registered(s) ==> Registered(s.CreateGraph(name, functionGraph, eventGraph))
    ensures Owned(s) ==> Owned(s.CreateGraph(name, functionGraph, eventGraph))
  {
    var t := s.CreateGraph(name, functionGraph, eventGraph);
    hide IsIdentifier;
    if Registered(s) {
      forall g, n ensures Lists(t, g, n) {
        assert Lists(s, g, n);
      }
    }
    if Owned(s) {
      forall f ensures OwnedByEntry(t, f) {
        assert OwnedByEntry(s, f);
      }
    }
  }

  lemma RenameGraphRegisters(s: Store, oldName: string, newName: string)
    ensures Registered(s) ==> Registered(s.RenameGraph(oldName, newName))
    ensures Owned(s) ==> Owned(s.RenameGraph(oldName, newName))
  {
    var t := s.RenameGraph(oldName, newName);
    hide IsIdentifier;
    if Registered(s) {
      forall g, n ensures Lists(t, g, n) {
        assert Lists(s, if g == newName && t != s then oldName else g, n);
      }
    }
    if Owned(s) {
      forall f ensures OwnedByEntry(t, f) {
        assert OwnedByEntry(s, f);
      }
    }
  }

  lemma MoveNodeRegisters(s: Store, id: int, source: string, target: string)
    requires s.Tidy() && source in s.graphs && target in s.graphs && Registered(s)
    ensures Registered(s.MoveNode(id, source, target))
    ensures Owned(s) ==> Owned(s.MoveNode(id, source, target))
  {
    var t := s.MoveNode(id, source, target);
    if id in s.nodes && s.Holds(source, id) && source != target {
      assert s.nodes[id].id == id && !s.Holds(target, id);
      assert s.GraphSound(target);
      forall g, n ensures Lists(t, g, n) {
        assert Lists(s, g, n);
        assert g == target ==> Lists(s, source, id);
      }
      if Owned(s) {
        forall f ensures OwnedByEntry(t, f) {
          assert OwnedByEntry(s, f);
        }
      }
    }
  }

  // ----- New functions -----

  lemma MadeRegisters(s: Store, t: Store, f: Signature, id: int)
    requires s.Tidy() && 0 <= id && id + 1 < NODE_LIMIT && id !in s.nodes && id + 1 !in s.nodes && IsMade(s, t, f, id)
    ensures Registered(s) ==> Registered(t)
    ensures Owned(s) ==> Owned(t)
  {
    assert t.nodes[id].kind == FunctionEntry(f.name) && (f.value.Some? ==> t.nodes[id + 1].kind.FunctionResult?);
    assert t.functions[f.name].owner == id;
    hide IsEntry, IsResult, IsRecorded;
    if Registered(s) {
      forall g, n ensures Lists(t, g, n) {
        assert Lists(s, g, n);
        assert g != f.name && s.Holds(g, n) ==> n in s.nodes;
      }
    }
    if Owned(s) {
      forall h ensures OwnedByEntry(t, h) {
        assert OwnedByEntry(s, h);
      }
    }
  }

  lemma CreateFunctionRegisters(s: Store, f: Signature, taken: bool, t: Store)
    requires s.Tidy() && Step(s, CreateFunction(f, taken), t)
    ensures Registered(s) ==> Registered(t)
    ensures Owned(s) ==> Owned(t)
  {
    if !Refused(s, f, taken) {
      var id :| s.IsAvailable(id) && t == Made(s, f, id);
      assert !Refused(s, f, false);
      hide *;
      CreateFunctionRoom(s, f, taken, t);
      MadeIs(s, f, id);
      MadeRegisters(s, t, f, id);
    }
  }

  lemma CreateFunctionRoom(s: Store, f: Signature, taken: bool, t: Store)
    requires Step(s, CreateFunction(f, taken), t)
    ensures HasRoom(s, f)
  {
    hide HasRoom, Refused, Made;
  }

  lemma CopyRegistered(s: Store, t: Store, name: string, newName: string, getter: bool, m: D.IdMap, n: int)
    requires CanDuplicate(s, name, newName) && IsDuplicate(s, t, name, newName, getter, m) && n in m
    ensures newName in t.graphs && t.graphs[newName].functionGraph && !t.graphs[newName].eventGraph
    ensures m[n] in t.nodes && n in s.nodes
    ensures t.nodes[m[n]].kind.FunctionEntry? <==> s.nodes[n].kind.FunctionEntry?
    ensures m[n] in t.graphs[newName].functions <==> s.nodes[n].kind.FunctionEntry?
  {
    CopiedNode(s, t, name, newName, getter, m, n);
    hide D.Relink, NodesDuplicated, CanDuplicate, IsFirstEntry;
    assert forall a :: a in m && m[a] == m[n] ==> a == n;
  }

  /** The new graph lists the copies of entries. */
  lemma DuplicateLists(s: Store, t: Store, name: string, newName: string, getter: bool, m: D.IdMap, g: string, n: int)
    requires CanDuplicate(s, name, newName) && IsDuplicate(s, t, name, newName, getter, m) && Registered(s)
    ensures Lists(t, g, n)
  {
    hide *;
    DuplicateIds(s, t, name, newName, getter, m);
    DuplicateHolds(s, t, name, newName, getter, m);
    if t.Holds(g, n) {
      if g == newName {
        var o :| o in m && n == m[o];
        CopyRegistered(s, t, name, newName, getter, m, o);
        ListedAs(t, g, n);
      } else {
        RegisteredAt(s, g, n);
        OldLists(s, t, g, n);
      }
    } else {
      NotHeld(t, g, n);
    }
  }

  lemma ListedAs(t: Store, g: string, n: int)
    requires g in t.graphs && n in t.nodes && t.graphs[g].functionGraph && !t.graphs[g].eventGraph
    requires n in t.graphs[g].functions <==> t.nodes[n].kind.FunctionEntry?
    ensures Lists(t, g, n)
  {
  }

  lemma RegisteredAt(s: Store, g: string, n: int)
    requires Registered(s)
    ensures Lists(s, g, n)
  {
  }

  lemma OldLists(s: Store, t: Store, g: string, n: int)
    requires Lists(s, g, n) && s.Holds(g, n) && g in t.graphs && g in s.graphs && t.graphs[g] == s.graphs[g]
    requires n in s.nodes && n in t.nodes && t.nodes[n] == s.nodes[n]
    ensures Lists(t, g, n)
  {
  }

  lemma NotHeld(t: Store, g: string, n: int)
    requires !t.Holds(g, n)
    ensures Lists(t, g, n)
  {
  }

  lemma DuplicateOwned(s: Store, t: Store, name: string, newName: string, getter: bool, m: D.IdMap)
    requires CanDuplicate(s, name, newName) && IsDuplicate(s, t, name, newName, getter, m) && Owned(s)
    ensures Owned(t)
  {
    CopiedFunction(s, t, name, newName, getter, m);
    DuplicateIds(s, t, name, newName, getter, m);
    DuplicateHolds(s, t, name, newName, getter, m);
    hide CanDuplicate, IsDuplicate, IdsFiled;
    forall f ensures OwnedByEntry(t, f) {
      assert OwnedByEntry(s, f);
    }
  }

  lemma DuplicateRegisters(s: Store, t: Store, name: string, newName: string, getter: bool, m: D.IdMap)
    requires CanDuplicate(s, name, newName) && IsDuplicate(s, t, name, newName, getter, m)
    ensures Registered(s) ==> Registered(t)
    ensures Owned(s) ==> Owned(t)
  {
    hide CanDuplicate, IsDuplicate, Owned, Lists;
    if Registered(s) {
      forall g, n ensures Lists(t, g, n) {
        DuplicateLists(s, t, name, newName, getter, m, g, n);
      }
    }
    if Owned(s) {
      DuplicateOwned(s, t, name, newName, getter, m);
    }
  }

  lemma DuplicateHolds(s: Store, t: Store, name: string, newName: string, getter: bool, m: D.IdMap)
    requires CanDuplicate(s, name, newName) && IsDuplicate(s, t, name, newName, getter, m)
    ensures forall n :: t.Holds(newName, n) ==> exists o :: o in m && n == m[o]
    ensures forall g, n :: g != newName && t.Holds(g, n) ==>
              g in s.graphs && g in t.graphs && s.Holds(g, n) && t.graphs[g] == s.graphs[g] && n in s.nodes
    ensures forall f :: f in t.functions ==> f in s.functions || f == newName
  {
    hide D.Relink, NodesDuplicated, IsFirstEntry;
    forall g, n | g != newName && t.Holds(g, n) ensures s.Holds(g, n) && t.graphs[g] == s.graphs[g] && n in s.nodes {
      assert s.Holds(g, n);
    }
  }

  // ----- Upgrades -----

  /** New nodes that are no entry points change neither register. */
  lemma NewNodesRegisters(s: Store, t: Store, g: string, ids: set<int>)
    requires s.Tidy() && g in s.graphs && ids !! s.nodes.Keys && t.nodes.Keys == s.nodes.Keys + ids
    requires forall n :: n in s.nodes ==> t.nodes[n] == s.nodes[n]
    requires forall n :: n in ids ==> t.nodes[n].kind.Reroute?
    requires t.graphs == s.graphs[g := s.graphs[g].(nodes := s.graphs[g].nodes + ids)] && t.functions == s.functions
    ensures Registered(s) ==> Registered(t)
    ensures Owned(s) ==> Owned(t)
  {
    assert s.GraphSound(g);
    forall n | n in s.graphs[g].functions ensures n in s.nodes {
      assert s.Holds(g, n);
    }
    if Registered(s) {
      forall h, n ensures Lists(t, h, n) {
        assert Lists(s, h, n);
        assert s.Holds(h, n) ==> n in s.nodes;
      }
    }
    if Owned(s) {
      forall f ensures OwnedByEntry(t, f) {
        assert OwnedByEntry(s, f);
      }
    }
  }

  lemma ChainRegisters(s: Store, g: string, c: Connection, ids: seq<NodeBits>)
    requires s.Tidy() && g in s.graphs && NewChain(s, ids)
    ensures Registered(s) ==> Registered(WithChain(s, g, c, ids))
    ensures Owned(s) ==> Owned(WithChain(s, g, c, ids))
  {
    var t, kind := WithChain(s, g, c, ids), TypeOfWire(s.nodes, c);
    WithChainContents(s, g, c, ids);
    ChainKinds(ids, kind);
    assert forall n :: n in ids ==> n !in s.nodes;
    hide WithChain, TypeOfWire, InnerWires, NewChain, Store.Tidy, Registered, Owned, RerouteNode;
    assert t.nodes.Keys == s.nodes.Keys + IdSet(ids);
    NewNodesRegisters(s, t, g, IdSet(ids));
  }

  lemma ChainKinds(ids: seq<int>, kind: RerouteType)
    ensures forall n :: n in ChainNodes(ids, kind) ==> ChainNodes(ids, kind)[n].kind == Reroute(kind)
    ensures forall n :: n in IdSet(ids) <==> n in ChainNodes(ids, kind)
  {
  }

  lemma ReplacedRegisters(s: Store, g: string, c: Connection, ids: seq<NodeBits>)
    requires s.Tidy() && g in s.graphs && NewChain(s, ids) && ids != []
    ensures Registered(s) ==> Registered(Replaced(s, g, c, ids))
    ensures Owned(s) ==> Owned(Replaced(s, g, c, ids))
  {
    hide *;
    ChainRegisters(s, g, c, ids);
    ReplacedSame(s, g, c, ids);
    SameRegistersKeep(WithChain(s, g, c, ids), Replaced(s, g, c, ids));
  }

  lemma ReplacedSame(s: Store, g: string, c: Connection, ids: seq<NodeBits>)
    requires g in s.graphs && ids != []
    ensures SameRegisters(WithChain(s, g, c, ids), Replaced(s, g, c, ids))
  {
    var u := Midway(s, g, c, ids);
    DropSame(u, {c});
    hide WithChain, Store.Drop, Store.Reroutes;
  }

  lemma {:induction false} TurnedRegisters(s: Store, g: string, order: seq<Connection>, idss: seq<seq<NodeBits>>,
                                           k: nat)
    requires s.Tidy() && g in s.graphs && AreTurns(s, g, order, idss) && k <= |order| == |idss|
    ensures Registered(s) ==> Registered(Turned(s, g, order[..k], idss[..k]))
    ensures Owned(s) ==> Owned(Turned(s, g, order[..k], idss[..k]))
  {
    hide *;
    TurnedNone(s, g, order, idss);
    if k > 0 {
      TurnedRegisters(s, g, order, idss, k - 1);
      TurnedKeepsTidy(s, g, order, idss, k - 1);
      TurnedStep(s, g, order, idss, k - 1);
      TurnFacts(s, g, order, idss, k - 1);
      if idss[k - 1] != [] {
        ReplacedRegisters(Turned(s, g, order[..k - 1], idss[..k - 1]), g, order[k - 1], idss[k - 1]);
      }
    }
  }

  lemma UpgradeRegisters(s: Store, g: string, t: Store)
    requires s.Tidy() && Step(s, UpgradeGraph(g), t)
    ensures Registered(s) ==> Registered(t)
    ensures Owned(s) ==> Owned(t)
  {
    var order, idss :| UpgradeTaken(s, t, g, order, idss);
    hide *;
    UpgradeGraphThere(s, g, t);
    TakenMeans(s, t, g, order, idss);
    TurnedRegisters(s, g, order, idss, |order|);
    assert order[..|order|] == order && idss[..|order|] == idss;
    SetKnotsSame(Turned(s, g, order, idss), g, map[]);
    SameRegistersKeep(Turned(s, g, order, idss), t);
  }

  lemma SetKnotsSame(s: Store, g: string, knots: map<Connection, nat>)
    requires g in s.graphs
    ensures SameRegisters(s, s.SetKnots(g, knots))
  {
  }

  // ----- Every run -----

  lemma DuplicateStepRegisters(s: Store, name: string, newName: string, getter: bool, t: Store)
    requires Step(s, DuplicateFunction(name, newName, getter), t)
    ensures Registered(s) ==> Registered(t)
    ensures Owned(s) ==> Owned(t)
  {
    var m :| IsDuplicate(s, t, name, newName, getter, m);
    hide IsDuplicate, CanDuplicate, Registered, Owned;
    DuplicateRegisters(s, t, name, newName, getter, m);
  }

  lemma RemoveArgumentRegisters(s: Store, name: string, index: int, t: Store)
    requires Step(s, RemoveArgument(name, index), t)
    ensures SameRegisters(s, t)
  {
    var u := RemovalTaken(s, name, index, t);
    hide *;
    RemovalSame(s, name, index, u);
  }

  /** Every edit keeps both registers right. */
  lemma StepKeepsRegisters(s: Store, e: Edit, t: Store)
    requires s.Tidy() && Step(s, e, t) && Registered(s) && Owned(s)
    ensures Registered(t) && Owned(t)
  {
    hide Store.Tidy, Store.AddNode, Store.WithoutNodes, Store.Drop, Linked, Unlinked, Store.CreateGraph,
         Store.RemoveGraph, Store.RenameGraph, Store.MoveNode, Store.RemoveFunction, Store.SetKnots, Recached,
         ArgumentRemoved, Made, IsDuplicate, CanDuplicate, UpgradeTaken, Wire, HasRoom, Refused, Registered, Owned,
         SameRegisters, Fits, LieInside;
    match e
    case AddNode(graph, node) => AddNodeRegisters(s, graph, node);
    case RemoveNode(id) => WithoutNodesRegisters(s, {id});
    case Link(p, q) =>
      LinkedSame(s, p, q);
      SameRegistersKeep(s, t);
    case Unlink(p, q) =>
      DropSame(s, {Wire(s.nodes, p, q)});
      SameRegistersKeep(s, t);
    case UnlinkPin(p) =>
      DropSame(s, Unlinked(s, p));
      SameRegistersKeep(s, t);
    case CreateGraph(name, functionGraph, eventGraph) => CreateGraphRegisters(s, name, functionGraph, eventGraph);
    case RemoveGraph(name) => RemoveGraphRegisters(s, name);
    case RenameGraph(oldName, newName) => RenameGraphRegisters(s, oldName, newName);
    case MoveNode(id, source, target) => MoveNodeRegisters(s, id, source, target);
    case CreateFunction(f, taken) => CreateFunctionRegisters(s, f, taken, t);
    case RemoveFunction(name) => RemoveFunctionRegisters(s, name);
    case RemoveArgument(name, index) =>
      RemoveArgumentRegisters(s, name, index, t);
      SameRegistersKeep(s, t);
    case DuplicateFunction(name, newName, getter) => DuplicateStepRegisters(s, name, newName, getter, t);
    case SetKnots(graph, knots) =>
      SetKnotsSame(s, graph, knots);
      SameRegistersKeep(s, t);
    case UpgradeGraph(graph) => UpgradeRegisters(s, graph, t);
  }

  /** From the empty orchestration, both registers are right in every state of an orderly run. */
  lemma {:induction false} EveryRunRegisters(states: seq<Store>, edits: seq<Edit>, n: nat)
    requires IsRun(states, edits) && |states| == |edits| + 1 && n <= |edits| && states[0] == Empty()
    requires OrderlyUpTo(states, edits, n)
    ensures Registered(states[n]) && Owned(states[n])
  {
    hide *;
    if n == 0 {
      EmptyRegisters();
    } else {
      UpToSnoc(states, edits, n);
      EveryRunRegisters(states, edits, n - 1);
      EveryRun(states, edits, n - 1);
      RunPrefix(states, edits, n - 1);
      StepKeepsRegisters(states[n - 1], edits[n - 1], states[n]);
    }
  }

  lemma EmptyRegisters()
    ensures Registered(Empty()) && Owned(Empty())
  {
  }
}
