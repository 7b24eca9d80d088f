/**
  What loading a script ends with (`Orchestration::post_initialize` of `src/orchestration/orchestration.cpp`):
  the repair, and then the upgrade of every graph.
 */
module Initialization {
  import opened Connections
  import opened ConnectionCaches
  import opened Nodes
  import opened Reroutes
  import opened Stores
  import opened Orchestrations
  import opened GraphEdits
  import opened Orphans
  import opened Repair
  import opened KnotMigration
  import opened Upgrades
  import opened UpgradeMeaning
  import opened AllUpgrades
  import opened Rules

  // ----- The repair -----

  /**
    What is asked of a loaded file: its tables are filed under the right keys, and its graphs hold disjoint
    sets of nodes that exist.  Nodes may be in no graph, and connections may go to missing nodes.
   */
  ghost predicate Loaded(s: Store) {
    && s.NodesFiled() && s.GraphsSound() && s.FunctionsSound()
    && (forall g, h, id :: Held(s.graphs, g, id) && Held(s.graphs, h, id) ==> g == h)
    && (forall g, id :: Held(s.graphs, g, id) ==> id in s.nodes)
  }

  ghost predicate AllSound(graphs: GraphMap) {
    forall g :: g in graphs ==> graphs[g].name == g && graphs[g].Sound()
  }

  lemma AddedSound(g: GraphState, node: NodeState)
    requires g.Sound()
    ensures g.Add(node).Sound() && g.Add(node).name == g.name
  {
  }

  lemma {:induction false} VisitedSound(s: Store, order: seq<int>, w: Sweep)
    requires forall i :: 0 <= i < |order| ==> order[i] in s.nodes
    requires AllSound(s.graphs) && Visited(s, order, w)
    ensures AllSound(w.graphs)
  {
    if order != [] {
      var init, id := order[..|order| - 1], order[|order| - 1];
      var v :| VisitStep(s, v, id, w) && Visited(s, init, v);
      VisitedSound(s, init, v);
      hide GraphState.Sound, GraphState.Add, FirstRescue;
      if Orphan(v.graphs, id) && Rescuable(s.conns, v.graphs, id) {
        var c, g :| FirstRescue(s.conns, v.graphs, id, c, g)
                    && w == v.(graphs := v.graphs[g := v.graphs[g].Add(s.nodes[id])]);
        FirstIsRescue(s.conns, v.graphs, id, c, g);
        AddedSound(v.graphs[g], s.nodes[id]);
      }
    }
  }

  lemma FirstIsRescue(conns: set<Connection>, graphs: GraphMap, id: int, c: Connection, g: string)
    requires FirstRescue(conns, graphs, id, c, g)
    ensures g in graphs
  {
  }

  lemma FixedSound(s: Store, order: seq<int>, u: Store)
    requires s.GraphsSound() && FixedBy(s, order, u)
    ensures u.GraphsSound()
  {
    var w :| Visited(s, order, w) && u == Swept(s, w);
    assert forall g :: g in s.graphs ==> s.GraphSound(g);
    VisitedSound(s, order, w);
    hide GraphState.Sound;
    forall g | g in u.graphs ensures u.GraphSound(g) {
    }
  }

  lemma FiledIsMatched(s: Store)
    requires s.NodesFiled()
    ensures IdsMatch(s)
  {
  }

  lemma KeptFiled(s: Store, u: Store)
    requires s.NodesFiled() && forall id :: id in u.nodes ==> id in s.nodes && u.nodes[id] == s.nodes[id]
    ensures u.NodesFiled()
  {
  }

  /** A repaired store is tidy exactly if the owners of all functions are still there. */
  lemma RepairedTidy(s: Store, order: seq<int>, u: Store)
    requires Loaded(s) && FixedBy(s, order, u)
    ensures u.Tidy() <==> forall f :: f in s.functions ==> s.functions[f].owner in u.nodes
    ensures NoCycle(s) ==> NoCycle(u)
    ensures Repaired(s, u) && forall g, id :: Held(s.graphs, g, id) ==> id in u.nodes
  {
    hide *;
    LoadedParts(s);
    FiledIsMatched(s);
    FixOrphansRepairs(s, order, u);
    RepairRestoresPartition(s, u);
    FixedSound(s, order, u);
    RepairedParts(s, u);
    KeptFiled(s, u);
    OwnersKept(s, u);
    TidyIs(u);
    FewerWiresKeepRules(s, u);
  }

  /** No function is owned by an orphan that has no neighbour in a graph. */
  ghost predicate OwnersHelped(s: Store) {
    forall f :: f in s.functions ==> s.functions[f].owner !in Hopeless(s)
  }

  lemma OwnersStay(s: Store, order: seq<int>, u: Store)
    requires Loaded(s) && FixedBy(s, order, u) && OwnersHelped(s)
    ensures u.Tidy()
  {
    RepairedTidy(s, order, u);
    forall f | f in s.functions ensures s.functions[f].owner in u.nodes {
      assert s.functions[f].owner in s.nodes;
    }
    hide Store.Tidy, FixedBy;
  }

  /**
    Every repair leaves a tidy store exactly when no function is owned by an orphan that has no neighbour in a
    graph: the repair removes such a node if it visits it first, and does not look at the table of functions.
   */
  lemma RepairIsTidyIff(s: Store)
    requires Loaded(s)
    ensures (forall order, u :: FixedBy(s, order, u) ==> u.Tidy()) <==> OwnersHelped(s)
  {
    hide FixedBy, Store.Tidy, Hopeless;
    if OwnersHelped(s) {
      forall order, u | FixedBy(s, order, u) ensures u.Tidy() {
        OwnersStay(s, order, u);
      }
    } else {
      var f :| f in s.functions && s.functions[f].owner in Hopeless(s);
      LoadedParts(s);
      FiledIsMatched(s);
      var order, u := GivenUpFirst(s, s.functions[f].owner);
      RepairedTidy(s, order, u);
    }
  }

  // ----- A file that no repair leaves tidy -----

  /** A function whose entry node is in no graph and has no connections. */
  function LostOwner(): Store {
    Store({}, map[0 := NodeState(0, FunctionEntry("f"), [], [])],
          map["f" := GraphState("f", true, false, {}, {}, map[])],
          map["f" := FunctionState("f", 0, true, [], false, false)])
  }

  lemma LostOwnerParts()
    ensures Loaded(LostOwner()) && OrderFree(LostOwner()) && 0 in Hopeless(LostOwner())
    ensures "f" in LostOwner().functions && LostOwner().functions["f"].owner == 0
  {
    var s := LostOwner();
    assert s.nodes[0].IsCached();
    assert s.GraphSound("f");
  }

  lemma LostOwnerIsNotTidy()
    ensures Loaded(LostOwner()) && forall order, u :: FixedBy(LostOwner(), order, u) ==> !u.Tidy()
  {
    hide *;
    var s := LostOwner();
    LostOwnerParts();
    LoadedParts(s);
    FiledIsMatched(s);
    RepairOrderIff(s);
    forall order, u | FixedBy(s, order, u) ensures !u.Tidy() {
      RepairedTidy(s, order, u);
    }
  }

  lemma LoadedParts(s: Store)
    requires Loaded(s)
    ensures s.NodesFiled() && s.GraphsSound() && s.FunctionsSound()
    ensures forall g, h, id :: Held(s.graphs, g, id) && Held(s.graphs, h, id) ==> g == h
    ensures forall g, id :: Held(s.graphs, g, id) ==> id in s.nodes
  {
  }

  lemma RepairedParts(s: Store, u: Store)
    requires Repaired(s, u) && forall g, id :: Held(s.graphs, g, id) ==> id in s.nodes
    ensures forall id :: id in u.nodes ==> id in s.nodes && u.nodes[id] == s.nodes[id]
    ensures u.Wired() && FewerWires(s, u) && u.functions == s.functions
    ensures u.graphs.Keys == s.graphs.Keys && forall g, id :: Held(s.graphs, g, id) ==> id in u.nodes
  {
    forall g, id | Held(s.graphs, g, id) ensures id in u.nodes {
      assert !Orphan(s.graphs, id);
    }
  }

  lemma OwnersKept(s: Store, u: Store)
    requires s.FunctionsSound() && u.functions == s.functions
    ensures u.FunctionsSound() <==> forall f :: f in s.functions ==> s.functions[f].owner in u.nodes
  {
  }

  // ----- Together -----

  /**
    A loaded file in which no function is owned by an orphan without a neighbour is tidy once it is repaired and
    upgraded: every node is in exactly one graph, no connection goes to a missing node, no graph has knots,
    every node that a graph held is still there, and no cycle of reroutes has been closed.
   */
  lemma PostInitialized(s: Store, order: seq<int>, u: Store, names: seq<string>, t: Store)
    requires Loaded(s) && FixedBy(s, order, u) && AllUpgraded(u, names, t) && forall g :: g in s.graphs ==> g in names
    requires OwnersHelped(s)
    ensures t.Tidy() && (NoCycle(s) ==> NoCycle(t))
    ensures t.graphs.Keys == s.graphs.Keys && forall g :: g in t.graphs ==> t.graphs[g].knots == map[]
    ensures forall g, id :: Held(s.graphs, g, id) ==> id in t.nodes
  {
    OwnersStay(s, order, u);
    RepairedTidy(s, order, u);
    hide Store.Tidy, NoCycle, Loaded, FixedBy, AllUpgraded, OwnersHelped;
    AllUpgradedKeeps(u, names, t);
  }

  /** The knots of the graphs lie on wires between nodes that are no reroutes. */
  ghost predicate KnotsAreOld(s: Store) {
    forall g :: g in s.graphs ==> KnotsOffReroutes(s, g)
  }

  /** The repair leaves the knots alone. */
  lemma RepairedUpgradable(s: Store, u: Store, names: seq<string>)
    requires Repaired(s, u) && KnotsAreOld(s) && Distinct(names) && forall g :: g in names <==> g in s.graphs
    ensures Upgradable(u, names)
  {
    forall i | 0 <= i < |names| ensures names[i] in u.graphs && KnotsOffReroutes(u, names[i]) {
      assert names[i] in s.graphs && u.graphs[names[i]].knots == s.graphs[names[i]].knots;
      assert KnotsOffReroutes(s, names[i]);
    }
  }

  /**
    And every pin that the repair left resolves as it did before the upgrades, with all the knotted wires of all
    graphs in place; exactly as before them if no knot is stale.
   */
  lemma PostInitializedMeaning(
      s: Store, order: seq<int>, u: Store, names: seq<string>, t: Store, p: PinRef, r: PinRef)
    requires Loaded(s) && FixedBy(s, order, u) && AllUpgraded(u, names, t) && OwnersHelped(s) && KnotsAreOld(s)
    requires Distinct(names) && (forall g :: g in names <==> g in s.graphs) && p.node in u.nodes
    ensures ResolvesTo(t.conns, t.Reroutes(), p, r) <==>
            ResolvesTo(u.conns + KnottedIn(u, names), u.Reroutes(), p, r)
    ensures (forall g :: g in u.graphs ==> NoStaleKnots(u, g)) ==>
              (ResolvesTo(t.conns, t.Reroutes(), p, r) <==> ResolvesTo(u.conns, u.Reroutes(), p, r))
  {
    hide *;
    OwnersStay(s, order, u);
    RepairedTidy(s, order, u);
    RepairedUpgradable(s, u, names);
    AllUpgradedMeaning(u, names, t, p, r);
  }
}
