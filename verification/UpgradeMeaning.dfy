/** What the upgrade of a graph keeps: the invariant, the meaning of the wires, the rules on wires. */
module UpgradeMeaning {
  import opened Connections
  import opened ConnectionCaches
  import opened Nodes
  import opened Reroutes
  import opened Stores
  import opened KnotMigration
  import opened Queries
  import opened Orchestrations
  import opened Upgrades

  /** The wires of a graph that carry knots. */
  function Knots(g: GraphState): set<Connection> {
    set c | c in g.knots && g.knots[c] > 0
  }

  /** No knot is left over from a wire that is gone. */
  ghost predicate NoStaleKnots(s: Store, g: string)
    requires g in s.graphs
  {
    forall c :: c in s.graphs[g].knots && s.graphs[g].knots[c] > 0 ==> c in s.conns
  }

  /** The pins a knotted wire joins exist. */
  ghost predicate KnotsOnPins(s: Store, g: string)
    requires g in s.graphs
  {
    forall c :: c in s.graphs[g].knots && s.graphs[g].knots[c] > 0 ==>
      s.HasPin(c.End(PD_Output)) && s.HasPin(c.End(PD_Input))
  }

  lemma UpgradeIsMigration(s: Store, t: Store, g: string, chains: Chains)
    requires s.Tidy() && g in s.graphs && UpgradedBy(s, t, g, chains) && KnotsOffReroutes(s, g)
    ensures Migratable(s.conns, s.Reroutes(), s.nodes.Keys, chains)
    ensures t.conns == Migrated(s.conns, chains)
    ensures t.Reroutes() == s.Reroutes() + NewIds(chains)
  {
    assert s.GraphSound(g);
    forall c | c in chains ensures c.fromNode in s.nodes && c.toNode in s.nodes {
      assert s.Holds(g, c.fromNode) && s.Holds(g, c.toNode);
    }
    forall n ensures n in t.Reroutes() <==> n in s.Reroutes() + NewIds(chains) {
      if n in NewIds(chains) {
        var c :| c in chains && n in chains[c];
        RerouteNodeSound(n, TypeOfWire(s.nodes, c));
      }
    }
  }

  /**
    After the upgrade every pin that was there resolves to exactly the pins it resolved to with all
    knotted wires in place; without stale knots, to exactly those it resolved to before.
   */
  lemma UpgradeKeepsMeaning(s: Store, t: Store, g: string, chains: Chains, p: PinRef, r: PinRef)
    requires s.Tidy() && g in s.graphs && UpgradedBy(s, t, g, chains) && KnotsOffReroutes(s, g)
    requires p.node in s.nodes
    ensures ResolvesTo(t.conns, t.Reroutes(), p, r) <==> ResolvesTo(s.conns + chains.Keys, s.Reroutes(), p, r)
    ensures NoStaleKnots(s, g) ==>
              (ResolvesTo(t.conns, t.Reroutes(), p, r) <==> ResolvesTo(s.conns, s.Reroutes(), p, r))
  {
    hide *;
    UpgradeIsMigration(s, t, g, chains);
    if NoStaleKnots(s, g) {
      UpgradedPins(s, t, g, chains);
      assert s.conns + chains.Keys == s.conns;
    }
    MigrationResolves(s.conns, s.Reroutes(), s.nodes.Keys, chains, p, r);
  }

  // ----- No cycle, whatever the knotted wires join -----

  /** A new reroute that wires only lead to closes no cycle. */
  lemma SinkKeepsAcyclic(s: set<Connection>, R: set<int>, n: int, w: Connection)
    requires Acyclic(s, R) && w.toNode == n && w.fromNode != n && forall c :: c in s ==>
             c.fromNode != n && c.toNode != n
    ensures Acyclic(s + {w}, R + {n})
  {
    forall a, b | Hop(s, R + {n}, a, b) ensures Hop(s, R, a, b) {
      var c :| c in s && c.fromNode == a && c.toNode == b;
    }
    AcyclicByHops(s, R, s, R + {n});
    GuardedConnect(s, R + {n}, w);
    if Reaches(s, R + {n}, n, w.fromNode) {
      var path :| IsPath(s, R + {n}, path) && path[0] == n && path[|path| - 1] == w.fromNode;
      PathStaysInside(s, R + {n}, path, {n});
    }
  }

  lemma PlacedReroutes(s: Store, g: string, w: Connection, node: NodeState)
    requires g in s.graphs && node.IsReroute()
    ensures Placed(s, g, w, node).Reroutes() == s.Reroutes() + {node.id} && Placed(s, g, w, node).conns == s.conns + {w}
  {
  }

  lemma {:induction false} WithChainAcyclic(s: Store, g: string, c: Connection, ids: seq<NodeBits>)
    requires s.Wired() && g in s.graphs && NewChain(s, ids) && c.fromNode in s.nodes && Acyclic(s.conns, s.Reroutes())
    ensures Acyclic(WithChain(s, g, c, ids).conns, WithChain(s, g, c, ids).Reroutes())
  {
    if ids != [] {
      var init, id := ids[..|ids| - 1], ids[|ids| - 1];
      var t, w := WithChain(s, g, c, init), NextWire(c, init, id);
      assert NewChain(s, init);
      WithChainAcyclic(s, g, c, init);
      WithChainWired(s, g, c, init);
      WithChainContents(s, g, c, init);
      RerouteNodeSound(id, TypeOfWire(s.nodes, c));
      PlacedReroutes(t, g, w, RerouteNode(id, TypeOfWire(s.nodes, c)));
      assert id !in t.nodes;
      hide RerouteNode, Placed, Acyclic, NewChain, Store.Reroutes, TypeOfWire;
      SinkKeepsAcyclic(t.conns, t.Reroutes(), id, w);
    }
  }

  lemma ConnectGuardedKeepsAcyclic(s: Store, c: Connection)
    requires Acyclic(s.conns, s.Reroutes())
    ensures var t := ConnectGuarded(s, c.fromNode, c.toNode, c); Acyclic(t.conns, t.Reroutes())
  {
    GuardedConnect(s.conns, s.Reroutes(), c);
    var t := ConnectGuarded(s, c.fromNode, c.toNode, c);
    assert t.Reroutes() == s.Reroutes();
    if Reaches(s.conns, s.Reroutes(), c.toNode, c.fromNode) {
      ReachesEnds(s.conns, s.Reroutes(), c.toNode, c.fromNode);
    }
  }

  lemma DisconnectKeepsAcyclic(s: Store, c: Connection)
    requires Acyclic(s.conns, s.Reroutes())
    ensures Acyclic(s.Disconnect(c).conns, s.Disconnect(c).Reroutes())
  {
    assert s.Disconnect(c).Reroutes() == s.Reroutes();
    AcyclicAntitone(s.Disconnect(c).conns, s.conns, s.Reroutes(), s.Reroutes());
  }

  /** Every link of a turn passes the guard, so no turn closes a cycle. */
  lemma ReplacedAcyclic(s: Store, g: string, c: Connection, ids: seq<NodeBits>)
    requires s.Tidy() && g in s.graphs && NewChain(s, ids) && ids != [] && c.fromNode in s.nodes
    requires Acyclic(s.conns, s.Reroutes())
    ensures Acyclic(Replaced(s, g, c, ids).conns, Replaced(s, g, c, ids).Reroutes())
  {
    hide *;
    TidyIs(s);
    WithChainAcyclic(s, g, c, ids);
    ReplacedIs(s, g, c, ids);
    LastWireNodes(c, ids);
    ConnectGuardedKeepsAcyclic(WithChain(s, g, c, ids), ChainWire(c, ids, |ids|));
    DisconnectKeepsAcyclic(ConnectGuarded(WithChain(s, g, c, ids), ids[|ids| - 1], c.toNode, ChainWire(c, ids, |ids|)),
      c);
  }

  lemma {:induction false} TurnedAcyclic(s: Store, g: string, order: seq<Connection>, idss: seq<seq<NodeBits>>, k: nat)
    requires s.Tidy() && g in s.graphs && AreTurns(s, g, order, idss) && k <= |order| && Acyclic(s.conns, s.Reroutes())
    ensures |idss| == |order|
    ensures Acyclic(Turned(s, g, order[..k], idss[..k]).conns, Turned(s, g, order[..k], idss[..k]).Reroutes())
  {
    hide *;
    TurnedNone(s, g, order, idss);
    if k > 0 {
      TurnedAcyclic(s, g, order, idss, k - 1);
      TurnedKeepsTidy(s, g, order, idss, k - 1);
      TurnedStep(s, g, order, idss, k - 1);
      TurnFacts(s, g, order, idss, k - 1);
      KnotEnds(s, g, order[k - 1]);
      if idss[k - 1] != [] {
        ReplacedAcyclic(Turned(s, g, order[..k - 1], idss[..k - 1]), g, order[k - 1], idss[k - 1]);
      }
    }
  }

  /** The upgrade of a graph closes no cycle, and keeps what holds whatever pins the nodes have. */
  lemma UpgradeTakenKeeps(s: Store, t: Store, g: string, order: seq<Connection>, idss: seq<seq<NodeBits>>)
    requires s.Tidy() && g in s.graphs && UpgradeTaken(s, t, g, order, idss)
    ensures t.Tidy()
    ensures Acyclic(s.conns, s.Reroutes()) ==> Acyclic(t.conns, t.Reroutes())
  {
    TakenMeans(s, t, g, order, idss);
    hide *;
    TurnedAllTidy(s, g, order, idss);
    SetKnotsKeepsTidy(Turned(s, g, order, idss), g, map[]);
    if Acyclic(s.conns, s.Reroutes()) {
      TurnedAcyclic(s, g, order, idss, |order|);
      assert order[..|order|] == order && idss[..|order|] == idss;
    }
    SetKnotsParts(Turned(s, g, order, idss), g);
  }

  lemma SetKnotsParts(s: Store, g: string)
    requires g in s.graphs
    ensures s.SetKnots(g, map[]).conns == s.conns && s.SetKnots(g, map[]).Reroutes() == s.Reroutes()
  {
  }

  lemma TakenMeans(s: Store, t: Store, g: string, order: seq<Connection>, idss: seq<seq<NodeBits>>)
    requires g in s.graphs && UpgradeTaken(s, t, g, order, idss)
    ensures AreTurns(s, g, order, idss) && |idss| == |order| && t == Turned(s, g, order, idss).SetKnots(g, map[])
  {
    hide Turned;
  }

  // ----- The invariant -----

  lemma NewIdIsFresh(used: set<int>, chains: Chains, n: int)
    requires Fresh(chains, used) && n in NewIds(chains)
    ensures n !in used && 0 <= n < NODE_LIMIT && exists c :: c in chains && n in chains[c]
  {
    var c :| c in chains && n in chains[c];
    var i :| 0 <= i < |chains[c]| && chains[c][i] == n;
  }

  lemma UpgradeKeepsNodes(s: Store, t: Store, g: string, chains: Chains)
    requires g in s.graphs && UpgradedBy(s, t, g, chains) && s.NodesSound()
    ensures t.NodesSound()
  {
    forall n | n in t.nodes ensures 0 <= n < NODE_LIMIT && t.nodes[n].id == n && t.nodes[n].Sound() {
      if n !in s.nodes {
        NewIdIsFresh(s.nodes.Keys, chains, n);
        var c :| c in chains && n in chains[c];
        RerouteNodeSound(n, TypeOfWire(s.nodes, c));
      }
    }
  }

  /** The pins of a chain are there. */
  lemma ChainPins(s: Store, t: Store, g: string, chains: Chains, c: Connection, i: nat)
    requires g in s.graphs && Upgraded(s, t, g, chains, map[]) && c in chains && i < |chains[c]|
    ensures t.HasPin(PinRef(chains[c][i], PD_Input, 0)) && t.HasPin(PinRef(chains[c][i], PD_Output, 0))
    ensures t.nodes[chains[c][i]] == RerouteNode(chains[c][i], TypeOfWire(s.nodes, c))
  {
    var n: int := chains[c][i];
    assert n in chains[c] && n in NewIds(chains);
    RerouteNodeSound(n, TypeOfWire(s.nodes, c));
  }

  lemma OldPin(s: Store, t: Store, g: string, chains: Chains, p: PinRef)
    requires g in s.graphs && Upgraded(s, t, g, chains, map[]) && p.node in s.nodes
    ensures t.HasPin(p) <==> s.HasPin(p)
    ensures t.IsExecutionPin(p) <==> s.IsExecutionPin(p)
  {
    assert t.nodes[p.node] == s.nodes[p.node];
  }

  lemma ChainWirePins(s: Store, t: Store, g: string, chains: Chains, c: Connection, i: nat)
    requires g in s.graphs && Upgraded(s, t, g, chains, map[]) && c in chains && i <= |chains[c]|
    requires s.HasPin(c.End(PD_Output)) && s.HasPin(c.End(PD_Input))
    ensures t.HasPin(ChainWire(c, chains[c], i).End(PD_Output)) && t.HasPin(ChainWire(c, chains[c], i).End(PD_Input))
  {
    OldPin(s, t, g, chains, c.End(PD_Output));
    OldPin(s, t, g, chains, c.End(PD_Input));
    if i > 0 {
      ChainPins(s, t, g, chains, c, i - 1);
    }
    if i < |chains[c]| {
      ChainPins(s, t, g, chains, c, i);
    }
  }

  /** The first and the last wire of a chain end where the knotted wire did. */
  lemma ChainEnds(s: Store, t: Store, g: string, chains: Chains, c: Connection)
    requires g in s.graphs && Upgraded(s, t, g, chains, map[]) && c in chains && t.Anchored()
    requires c.fromNode in s.nodes && c.toNode in s.nodes
    ensures s.HasPin(c.End(PD_Output)) && s.HasPin(c.End(PD_Input))
  {
    var first, last := ChainWire(c, chains[c], 0), ChainWire(c, chains[c], |chains[c]|);
    MigratedContents(s.conns, chains, first);
    MigratedContents(s.conns, chains, last);
    assert t.HasPin(first.End(PD_Output)) && t.HasPin(last.End(PD_Input));
    OldPin(s, t, g, chains, c.End(PD_Output));
    OldPin(s, t, g, chains, c.End(PD_Input));
  }

  lemma UpgradeKeepsAnchors(s: Store, t: Store, g: string, chains: Chains)
    requires s.Anchored() && g in s.graphs && UpgradedBy(s, t, g, chains)
    requires forall c :: c in s.graphs[g].knots ==> c.fromNode in s.nodes && c.toNode in s.nodes
    ensures t.Anchored() <==> KnotsOnPins(s, g)
  {
    assert t.conns == Migrated(s.conns, chains);
    if t.Anchored() {
      forall c | c in s.graphs[g].knots && s.graphs[g].knots[c] > 0
        ensures s.HasPin(c.End(PD_Output)) && s.HasPin(c.End(PD_Input))
      {
        ChainEnds(s, t, g, chains, c);
      }
    }
    if KnotsOnPins(s, g) {
      forall e | e in t.conns ensures t.HasPin(e.End(PD_Output)) && t.HasPin(e.End(PD_Input)) {
        MigratedContents(s.conns, chains, e);
        if e in s.conns && e !in chains {
          OldWire(s, t, g, chains, e);
        } else {
          var c, i: nat :| c in chains && i <= |chains[c]| && e == ChainWire(c, chains[c], i);
          ChainWirePins(s, t, g, chains, c, i);
        }
      }
    }
  }

  lemma OldWire(s: Store, t: Store, g: string, chains: Chains, e: Connection)
    requires s.Anchored() && g in s.graphs && Upgraded(s, t, g, chains, map[]) && e in s.conns
    ensures t.HasPin(e.End(PD_Output)) && t.HasPin(e.End(PD_Input))
  {
    assert s.HasPin(e.End(PD_Output)) && s.HasPin(e.End(PD_Input));
    OldPin(s, t, g, chains, e.End(PD_Output));
    OldPin(s, t, g, chains, e.End(PD_Input));
  }

  /** The upgrade keeps the pin-level invariant exactly when the pins of the knotted wires are there. */
  lemma UpgradeKeepsInv(s: Store, t: Store, g: string, chains: Chains)
    requires s.Inv() && t.Tidy() && g in s.graphs && UpgradedBy(s, t, g, chains)
    ensures t.Inv() <==> KnotsOnPins(s, g)
  {
    UpgradeKeepsNodes(s, t, g, chains);
    forall c | c in s.graphs[g].knots ensures c.fromNode in s.nodes && c.toNode in s.nodes {
      KnotEnds(s, g, c);
    }
    hide UpgradedBy, Store.Tidy, Store.NodesSound, KnotsOnPins;
    UpgradeKeepsAnchors(s, t, g, chains);
  }

  // ----- The invariant, whatever the knotted wires join -----

  lemma WithChainKeepsInv(s: Store, g: string, c: Connection, ids: seq<NodeBits>)
    requires s.Inv() && g in s.graphs && NewChain(s, ids) && s.HasPin(c.End(PD_Output))
    ensures WithChain(s, g, c, ids).Inv()
    ensures forall p :: s.HasPin(p) ==> WithChain(s, g, c, ids).HasPin(p)
    ensures ids != [] ==> WithChain(s, g, c, ids).HasPin(PinRef(ids[|ids| - 1], PD_Output, 0))
  {
    assert s.Tidy() && c.fromNode in s.nodes;
    hide *;
    var t, kind := WithChain(s, g, c, ids), TypeOfWire(s.nodes, c);
    InvIs(s);
    InvIs(t);
    TidyIs(t);
    WithChainKeepsTidy(s, g, c, ids);
    WithChainContents(s, g, c, ids);
    WithChainNodesSound(s, t, ids, kind);
    ChainHasPins(s, t, ids, kind);
    InnerAnchored(s, t, c, ids);
  }

  /** Old pins are still there, and the reroutes have theirs. */
  lemma ChainHasPins(s: Store, t: Store, ids: seq<NodeBits>, kind: RerouteType)
    requires NewChain(s, ids) && t.nodes == s.nodes + ChainNodes(ids, kind)
    ensures forall p :: s.HasPin(p) ==> t.HasPin(p)
    ensures forall i, dir :: 0 <= i < |ids| ==> t.HasPin(PinRef(ids[i], dir, 0))
  {
    forall i, dir | 0 <= i < |ids| ensures t.HasPin(PinRef(ids[i], dir, 0)) {
      var id: int := ids[i];
      assert id in ids && t.nodes[id] == RerouteNode(id, kind);
      RerouteNodeSound(id, kind);
    }
    hide RerouteNode, NodeState.HasVisiblePin;
    forall p | s.HasPin(p) ensures t.HasPin(p) {
      assert p.node !in ids && t.nodes[p.node] == s.nodes[p.node];
    }
  }

  lemma InnerAnchored(s: Store, t: Store, c: Connection, ids: seq<NodeBits>)
    requires s.Anchored() && s.HasPin(c.End(PD_Output)) && t.conns == s.conns + InnerWires(c, ids)
    requires forall p :: s.HasPin(p) ==> t.HasPin(p)
    requires forall i, dir :: 0 <= i < |ids| ==> t.HasPin(PinRef(ids[i], dir, 0))
    ensures t.Anchored()
  {
    hide Store.HasPin, ChainWire;
    forall e | e in t.conns ensures t.HasPin(e.End(PD_Output)) && t.HasPin(e.End(PD_Input)) {
      if e !in s.conns {
        var i: nat :| i < |ids| && e == ChainWire(c, ids, i);
        InnerEnds(c, ids, i);
      }
    }
  }

  lemma InnerEnds(c: Connection, ids: seq<NodeBits>, i: nat)
    requires i < |ids|
    ensures ChainWire(c, ids, i).End(PD_Input) == PinRef(ids[i], PD_Input, 0)
    ensures ChainWire(c, ids, i).End(PD_Output) == if i == 0 then c.End(PD_Output) else PinRef(ids[i - 1], PD_Output, 0)
  {
  }

  lemma WithChainNodesSound(s: Store, t: Store, ids: seq<NodeBits>, kind: RerouteType)
    requires s.NodesSound() && t.nodes == s.nodes + ChainNodes(ids, kind)
    ensures t.NodesSound()
  {
    forall id | id in t.nodes ensures 0 <= id < NODE_LIMIT && t.nodes[id].id == id && t.nodes[id].Sound() {
      if id in ids {
        RerouteNodeSound(id, kind);
      }
    }
  }

  lemma ReplacedKeepsInv(s: Store, g: string, c: Connection, ids: seq<NodeBits>)
    requires s.Inv() && g in s.graphs && NewChain(s, ids) && ids != []
    requires s.HasPin(c.End(PD_Output)) && s.HasPin(c.End(PD_Input))
    ensures Replaced(s, g, c, ids).Inv()
    ensures forall p :: s.HasPin(p) ==> Replaced(s, g, c, ids).HasPin(p)
  {
    var t, w, last := WithChain(s, g, c, ids), ChainWire(c, ids, |ids|), ids[|ids| - 1];
    WithChainKeepsInv(s, g, c, ids);
    LastWireNodes(c, ids);
    LastEnds(c, ids);
    ReplacedIs(s, g, c, ids);
    ConnectIsGuarded(t, w);
    PinNodes(t, w);
    hide WithChain, Replaced, ConnectGuarded, Store.Inv, ChainWire;
    ConnectKeepsInv(t, w);
    ConnectParts(t, w);
    DisconnectKeepsInv(t.Connect(w), c);
    assert forall p :: t.HasPin(p) ==> t.Connect(w).Disconnect(c).HasPin(p);
  }

  lemma LastEnds(c: Connection, ids: seq<NodeBits>)
    requires ids != []
    ensures ChainWire(c, ids, |ids|).End(PD_Input) == c.End(PD_Input)
    ensures ChainWire(c, ids, |ids|).End(PD_Output) == PinRef(ids[|ids| - 1], PD_Output, 0)
  {
  }

  lemma PinNodes(s: Store, c: Connection)
    requires s.HasPin(c.End(PD_Output)) && s.HasPin(c.End(PD_Input))
    ensures c.fromNode in s.nodes && c.toNode in s.nodes
  {
  }

  lemma DisconnectKeepsInv(s: Store, c: Connection)
    requires s.Inv()
    ensures s.Disconnect(c).Inv() && s.Disconnect(c).nodes == s.nodes
  {
    DropKeepsInv(s, {c});
  }

  lemma {:induction false} TurnedKeepsInv(s: Store, g: string, order: seq<Connection>, idss: seq<seq<NodeBits>>, k: nat)
    requires s.Inv() && g in s.graphs && AreTurns(s, g, order, idss) && k <= |order| && KnotsOnPins(s, g)
    ensures |idss| == |order| && Turned(s, g, order[..k], idss[..k]).Inv()
    ensures forall p :: s.HasPin(p) ==> Turned(s, g, order[..k], idss[..k]).HasPin(p)
  {
    hide *;
    TurnedNone(s, g, order, idss);
    if k > 0 {
      TurnedKeepsInv(s, g, order, idss, k - 1);
      TurnedStep(s, g, order, idss, k - 1);
      TurnFacts(s, g, order, idss, k - 1);
      if idss[k - 1] != [] {
        KnotPins(s, g, order[k - 1]);
        ReplacedKeepsInv(Turned(s, g, order[..k - 1], idss[..k - 1]), g, order[k - 1], idss[k - 1]);
      }
    }
  }

  lemma KnotPins(s: Store, g: string, c: Connection)
    requires g in s.graphs && KnotsOnPins(s, g) && c in s.graphs[g].knots && s.graphs[g].knots[c] > 0
    ensures s.HasPin(c.End(PD_Output)) && s.HasPin(c.End(PD_Input))
  {
  }

  lemma UpgradeTakenKeepsInv(s: Store, t: Store, g: string, order: seq<Connection>, idss: seq<seq<NodeBits>>)
    requires s.Inv() && t.Tidy() && g in s.graphs && UpgradeTaken(s, t, g, order, idss) && KnotsOnPins(s, g)
    ensures t.Inv()
  {
    TakenMeans(s, t, g, order, idss);
    hide *;
    TurnedKeepsInv(s, g, order, idss, |order|);
    assert order[..|order|] == order && idss[..|order|] == idss;
    SetKnotsNodes(Turned(s, g, order, idss), g);
    FewerKeepsInv(Turned(s, g, order, idss), t);
  }

  lemma SetKnotsNodes(s: Store, g: string)
    requires g in s.graphs
    ensures s.SetKnots(g, map[]).conns == s.conns && s.SetKnots(g, map[]).nodes == s.nodes
  {
  }

  // ----- Cardinality -----

  /** At a reroute of a chain there is one wire on each side. */
  lemma OneWireAtReroute(s: set<Connection>, R: set<int>, used: set<int>, chains: Chains, e: Connection,
                         f: Connection, dir: Direction)
    requires Migratable(s, R, used, chains) && e in Migrated(s, chains) && f in Migrated(s, chains)
    requires e.End(dir) == f.End(dir) && e.End(dir).node !in used
    ensures e == f
  {
    MigratedContents(s, chains, e);
    MigratedContents(s, chains, f);
    var c, i: nat :| c in chains && i <= |chains[c]| && e == ChainWire(c, chains[c], i);
    var d, j: nat :| d in chains && j <= |chains[d]| && f == ChainWire(d, chains[d], j);
    var m, n := if dir == PD_Input then i else i - 1, if dir == PD_Input then j else j - 1;
    assert 0 <= m < |chains[c]| && 0 <= n < |chains[d]|;
    assert chains[c][m] == chains[d][n];
  }

  /** Wires that meet at an old pin now come from wires that met there, with all knotted wires in place. */
  lemma MeetAsBefore(s: set<Connection>, R: set<int>, used: set<int>, chains: Chains, e: Connection, f: Connection,
                     dir: Direction)
      returns (c: Connection, d: Connection)
    requires Migratable(s, R, used, chains) && e in Migrated(s, chains) && f in Migrated(s, chains)
    requires e.End(dir) == f.End(dir) && e.End(dir).node in used
    ensures {c, d} <= s + chains.Keys && c.End(dir) == e.End(dir) == d.End(dir) && (c == d ==> e == f)
  {
    c := IsReplacement(s, R, used, chains, e, dir);
    d := IsReplacement(s, R, used, chains, f, dir);
  }

  /** And the other way round: wires that met there are replaced by different wires at the same pin. */
  lemma MeetAfterwards(s: set<Connection>, R: set<int>, used: set<int>, chains: Chains, c: Connection,
                       d: Connection, dir: Direction)
    requires Migratable(s, R, used, chains) && {c, d} <= s + chains.Keys && c.End(dir) == d.End(dir)
    ensures Replacement(chains, c, dir) in Migrated(s, chains) && Replacement(chains, d, dir) in Migrated(s, chains)
    ensures Replacement(chains, c, dir).End(dir) == c.End(dir) == Replacement(chains, d, dir).End(dir)
    ensures Replacement(chains, c, dir) == Replacement(chains, d, dir) ==> c == d
  {
    ReplacementResolves(s, R, used, chains, c, dir);
    ReplacementResolves(s, R, used, chains, d, dir);
    hide Resolve, Migrated;
    FarEndOfReplacement(chains, used, c, dir);
    FarEndOfReplacement(chains, used, d, dir);
  }

  /** The far end of a replacement tells which wire it stands for. */
  lemma FarEndOfReplacement(chains: Chains, used: set<int>, c: Connection, dir: Direction)
    requires Fresh(chains, used)
    ensures c !in chains ==> Replacement(chains, c, dir) == c
    ensures c in chains ==>
              var n := Replacement(chains, c, dir).End(dir.Opposite()).node;
              && chains[c] != [] && n !in used
              && n == chains[c][if dir == PD_Output then 0 else |chains[c]| - 1]
  {
  }

  lemma UpgradedPins(s: Store, t: Store, g: string, chains: Chains)
    requires g in s.graphs && UpgradedBy(s, t, g, chains)
    ensures Upgraded(s, t, g, chains, map[])
    ensures NoStaleKnots(s, g) ==> chains.Keys <= s.conns
    ensures forall c :: c in chains ==> c in s.graphs[g].knots
  {
  }

  /** The store with every knotted wire in place. */
  function Restored(s: Store, chains: Chains): Store {
    s.(conns := s.conns + chains.Keys)
  }

  lemma SameLimits(s: Store, t: Store, g: string, chains: Chains, p: PinRef)
    requires g in s.graphs && Upgraded(s, t, g, chains, map[]) && p.node in s.nodes
    ensures Limits(t, p) <==> Limits(Restored(s, chains), p)
  {
    OldPin(s, t, g, chains, p);
    assert Restored(s, chains).IsExecutionPin(p) <==> s.IsExecutionPin(p);
  }

  lemma MeetingKept(s: Store, t: Store, g: string, chains: Chains, e: Connection, f: Connection, dir: Direction)
    requires g in s.graphs && Upgraded(s, t, g, chains, map[])
    requires Migratable(s.conns, s.Reroutes(), s.nodes.Keys, chains) && Restored(s, chains).Cardinality()
    requires {e, f} <= Migrated(s.conns, chains) && e.End(dir) == f.End(dir) && Limits(t, e.End(dir))
    ensures e == f
  {
    CardinalityByPins(Restored(s, chains));
    hide Store.Cardinality, Limits, Migratable, Migrated, Upgraded, Store.Reroutes;
    if e.End(dir).node in s.nodes {
      SameLimits(s, t, g, chains, e.End(dir));
      var c, d := MeetAsBefore(s.conns, s.Reroutes(), s.nodes.Keys, chains, e, f, dir);
    } else {
      OneWireAtReroute(s.conns, s.Reroutes(), s.nodes.Keys, chains, e, f, dir);
    }
  }

  lemma MeetingWas(s: Store, t: Store, g: string, chains: Chains, c: Connection, d: Connection, dir: Direction)
    requires g in s.graphs && Upgraded(s, t, g, chains, map[])
    requires Migratable(s.conns, s.Reroutes(), s.nodes.Keys, chains) && t.Cardinality()
    requires {c, d} <= s.conns + chains.Keys && c.End(dir) == d.End(dir) && Limits(Restored(s, chains), c.End(dir))
    ensures c == d
  {
    CardinalityByPins(t);
    MigratableEnds(s.conns, s.Reroutes(), s.nodes.Keys, chains, c, dir);
    hide Store.Cardinality, Limits, Migratable, Migrated, Store.Reroutes;
    SameLimits(s, t, g, chains, c.End(dir));
    MeetAfterwards(s.conns, s.Reroutes(), s.nodes.Keys, chains, c, d, dir);
  }

  lemma MigratableEnds(s: set<Connection>, R: set<int>, used: set<int>, chains: Chains, c: Connection, dir: Direction)
    requires Migratable(s, R, used, chains) && c in s + chains.Keys
    ensures c.End(dir).node in used
  {
  }

  /**
    The upgrade keeps the cardinality rule exactly when the rule holds with every knotted wire in place: a
    knot that brings a wire back does no harm where the rule has room for the wire.
   */
  lemma UpgradeKeepsCardinality(s: Store, t: Store, g: string, chains: Chains)
    requires s.Tidy() && g in s.graphs && UpgradedBy(s, t, g, chains) && KnotsOffReroutes(s, g)
    ensures t.Cardinality() <==> Restored(s, chains).Cardinality()
  {
    hide *;
    UpgradeIsMigration(s, t, g, chains);
    UpgradedPins(s, t, g, chains);
    CardinalityByPins(t);
    CardinalityByPins(Restored(s, chains));
    RestoredConns(s, chains);
    if Restored(s, chains).Cardinality() {
      forall e, f, dir | e in t.conns && f in t.conns && e.End(dir) == f.End(dir) && Limits(t, e.End(dir))
        ensures e == f
      {
        MeetingKept(s, t, g, chains, e, f, dir);
      }
    }
    if t.Cardinality() {
      forall c, d, dir | c in s.conns + chains.Keys && d in s.conns + chains.Keys && c.End(dir) == d.End(dir)
                         && Limits(Restored(s, chains), c.End(dir)) ensures c == d {
        MeetingWas(s, t, g, chains, c, d, dir);
      }
    }
  }

  lemma RestoredConns(s: Store, chains: Chains)
    ensures Restored(s, chains).conns == s.conns + chains.Keys
    ensures chains.Keys <= s.conns ==> Restored(s, chains) == s
  {
    if chains.Keys <= s.conns {
      assert s.conns + chains.Keys == s.conns;
    }
  }

  // ----- Midway -----

  /**
    No wire lies where the rule would limit it together with a wire of the chain: the first one starts where `c`
    does, and the last one, unless the guard refuses it, ends where `c` does.
   */
  ghost predicate RoomAtEnds(s: Store, c: Connection) {
    forall dir :: Limits(s, c.End(dir)) && (dir == PD_Output || !s.ClosesCycle(c)) ==> s.WiresAt(c.End(dir)) == {}
  }

  /** The last link of the chain is refused exactly when the direct wire would be. */
  lemma LastRefusedIff(s: Store, g: string, c: Connection, ids: seq<NodeBits>)
    requires s.Tidy() && g in s.graphs && NewChain(s, ids) && ids != [] && c.fromNode in s.nodes && c.toNode in s.nodes
    ensures var v, last := WithChain(s, g, c, ids), ids[|ids| - 1];
            c.toNode in v.Reroutes() && last in v.Reroutes() && Reaches(v.conns, v.Reroutes(), c.toNode, last)
            <==> s.ClosesCycle(c)
  {
    var v, last := WithChain(s, g, c, ids), ids[|ids| - 1];
    ChainReroutes(s, g, c, ids);
    WithChainContents(s, g, c, ids);
    assert s.Wired();
    hide WithChain, Store.Reroutes, Store.Tidy, Reaches, ChainNodes, TypeOfWire;
    var R, Q := s.Reroutes(), v.Reroutes();
    if c.toNode in Q && last in Q && Reaches(v.conns, Q, c.toNode, last) {
      var h := (n: int) => if n in ids then c.fromNode else n;
      forall x, y | Hop(v.conns, Q, x, y) ensures h(x) == h(y) || Hop(s.conns, R, h(x), h(y)) {
        ChainHop(s, c, ids, v.conns, Q, x, y);
      }
      ReachesAlong(v.conns, Q, s.conns, R, h, c.toNode, last);
      ReachesEnds(s.conns, R, c.toNode, c.fromNode);
    }
    if s.ClosesCycle(c) {
      ReachesMore(s.conns, R, v.conns, Q, c.toNode, c.fromNode);
      ChainLeads(c, ids, v.conns, Q, |ids|);
      ReachesTransitive(v.conns, Q, c.toNode, c.fromNode, last);
    }
  }

  lemma ChainReroutes(s: Store, g: string, c: Connection, ids: seq<NodeBits>)
    requires g in s.graphs && NewChain(s, ids)
    ensures WithChain(s, g, c, ids).Reroutes() == s.Reroutes() + IdSet(ids)
  {
    WithChainContents(s, g, c, ids);
    hide WithChain;
    forall n | n in ids ensures RerouteNode(n, TypeOfWire(s.nodes, c)).IsReroute() {
      RerouteNodeSound(n, TypeOfWire(s.nodes, c));
    }
    hide RerouteNode, TypeOfWire;
  }

  /** Seen from the old nodes, a hop along the chain stays where it starts. */
  lemma ChainHop(s: Store, c: Connection, ids: seq<NodeBits>, conns: set<Connection>, Q: set<int>, x: int, y: int)
    requires s.Wired() && NewChain(s, ids) && conns == s.conns + InnerWires(c, ids) && Q == s.Reroutes() + IdSet(ids)
    requires c.fromNode in s.nodes && Hop(conns, Q, x, y)
    ensures var h := (n: int) => if n in ids then c.fromNode else n;
            h(x) == h(y) || Hop(s.conns, s.Reroutes(), h(x), h(y))
  {
    var e :| e in conns && e.fromNode == x && e.toNode == y;
    if e !in s.conns {
      var i: nat :| i < |ids| && e == ChainWire(c, ids, i);
    }
  }

  lemma ReachesEnds(conns: set<Connection>, R: set<int>, a: int, b: int)
    requires Reaches(conns, R, a, b)
    ensures a in R && b in R
  {
    var path :| IsPath(conns, R, path) && path[0] == a && path[|path| - 1] == b;
    if |path| > 1 {
      assert Hop(conns, R, path[|path| - 2], path[|path| - 2 + 1]);
    }
  }

  lemma ReachesMore(e: set<Connection>, R: set<int>, f: set<Connection>, Q: set<int>, a: int, b: int)
    requires e <= f && R <= Q && Reaches(e, R, a, b)
    ensures Reaches(f, Q, a, b)
  {
    var h := (n: int) => n;
    ReachesEnds(e, R, a, b);
    ReachesAlong(e, R, f, Q, h, a, b);
  }

  /** The start of the chain leads to every reroute of it. */
  lemma {:induction false} ChainLeads(c: Connection, ids: seq<NodeBits>, conns: set<Connection>, Q: set<int>, k: nat)
    requires 0 < k <= |ids| && InnerWires(c, ids) <= conns && IdSet(ids) <= Q && c.fromNode in Q
    ensures Reaches(conns, Q, c.fromNode, ids[k - 1])
  {
    assert ids[k - 1] in IdSet(ids) && ChainWire(c, ids, k - 1) in InnerWires(c, ids);
    if k == 1 {
      HopReaches(conns, Q, c.fromNode, ids[0]);
    } else {
      assert ids[k - 2] in IdSet(ids);
      ChainLeads(c, ids, conns, Q, k - 1);
      HopReaches(conns, Q, ids[k - 2], ids[k - 1]);
      ReachesTransitive(conns, Q, c.fromNode, ids[k - 2], ids[k - 1]);
    }
  }

  /** The wires of a chain that touch the old nodes. */
  lemma ChainTouches(s: Store, c: Connection, ids: seq<NodeBits>, i: nat, dir: Direction)
    requires NewChain(s, ids) && ids != [] && i <= |ids| && c.fromNode in s.nodes && c.toNode in s.nodes
    ensures ChainWire(c, ids, i).End(dir).node in s.nodes ==>
              ChainWire(c, ids, i).End(dir) == c.End(dir) && i == if dir == PD_Output then 0 else |ids|
    ensures ChainWire(c, ids, if dir == PD_Output then 0 else |ids|).End(dir) == c.End(dir)
    ensures ChainWire(c, ids, i).End(dir).node !in s.nodes ==>
              var k := if dir == PD_Output then i - 1 else i;
              0 <= k < |ids| && ChainWire(c, ids, i).End(dir) == PinRef(ids[k], dir, 0)
    ensures s.Wired() ==> ChainWire(c, ids, i) !in s.conns
  {
    var n := ids[if i == 0 then 0 else i - 1];
    assert ChainWire(c, ids, i).fromNode == n || ChainWire(c, ids, i).toNode == n;
  }

  /** How many wires the chain has midway. */
  ghost function LinksMidway(s: Store, c: Connection, ids: seq<NodeBits>): nat {
    if s.ClosesCycle(c) then |ids| else |ids| + 1
  }

  /** What the store holds midway. */
  lemma MidwayConns(s: Store, g: string, c: Connection, ids: seq<NodeBits>)
    requires s.Tidy() && g in s.graphs && NewChain(s, ids) && ids != [] && c.fromNode in s.nodes && c.toNode in s.nodes
    ensures var u := Midway(s, g, c, ids);
            && (forall e :: e in u.conns <==>
                  e in s.conns || exists i: nat :: i < LinksMidway(s, c, ids) && e == ChainWire(c, ids, i))
            && (forall n :: n in s.nodes ==> n in u.nodes && u.nodes[n] == s.nodes[n])
  {
    WithChainContents(s, g, c, ids);
    LastRefusedIff(s, g, c, ids);
    hide WithChain, RerouteNode, TypeOfWire, ChainWire, Store.ClosesCycle, Store.Reroutes, Reaches, Store.Tidy;
    var u := Midway(s, g, c, ids);
    assert u.conns == s.conns + InnerWires(c, ids)
                      + if s.ClosesCycle(c) then {} else {ChainWire(c, ids, |ids|)};
    hide Midway;
    forall e ensures e in u.conns <==>
        e in s.conns || exists i: nat :: i < LinksMidway(s, c, ids) && e == ChainWire(c, ids, i)
    {
      if e in InnerWires(c, ids) {
        var i: nat :| i < |ids| && e == ChainWire(c, ids, i);
      }
      if i: nat :| i < LinksMidway(s, c, ids) && e == ChainWire(c, ids, i) {
        assert i < |ids| ==> ChainWire(c, ids, i) in InnerWires(c, ids);
      }
    }
  }

  lemma MidwayLimits(s: Store, g: string, c: Connection, ids: seq<NodeBits>, p: PinRef)
    requires s.Tidy() && g in s.graphs && NewChain(s, ids) && ids != [] && c.fromNode in s.nodes && c.toNode in s.nodes
    requires p.node in s.nodes
    ensures Limits(Midway(s, g, c, ids), p) <==> Limits(s, p)
  {
    MidwayConns(s, g, c, ids);
    hide Midway, Store.Tidy;
    assert Midway(s, g, c, ids).nodes[p.node] == s.nodes[p.node];
  }

  /** Two wires that meet midway, when nothing lay in the way of the chain. */
  lemma MidwayMeet(s: Store, g: string, c: Connection, ids: seq<NodeBits>, e: Connection, f: Connection, dir: Direction)
    requires s.Tidy() && s.Cardinality() && g in s.graphs && NewChain(s, ids) && ids != []
    requires c.fromNode in s.nodes && c.toNode in s.nodes && RoomAtEnds(s, c)
    requires {e, f} <= Midway(s, g, c, ids).conns && e.End(dir) == f.End(dir)
             && Limits(Midway(s, g, c, ids), e.End(dir))
    ensures e == f
  {
    MidwayConns(s, g, c, ids);
    CardinalityByPins(s);
    assert s.Wired();
    hide Midway, ChainWire, Store.Tidy, Store.Cardinality, Limits, Store.ClosesCycle;
    if e.End(dir).node in s.nodes {
      MidwayLimits(s, g, c, ids, e.End(dir));
      forall x | x in {e, f} && x !in s.conns
        ensures x.End(dir) == c.End(dir) && x == ChainWire(c, ids, if dir == PD_Output then 0 else |ids|)
        ensures dir == PD_Output || !s.ClosesCycle(c)
      {
        var i: nat :| i < LinksMidway(s, c, ids) && x == ChainWire(c, ids, i);
        ChainTouches(s, c, ids, i, dir);
      }
      assert e.End(dir) == c.End(dir) && (e !in s.conns || f !in s.conns) ==> s.WiresAt(c.End(dir)) == {};
      assert e in s.conns && e.End(dir) == c.End(dir) ==> e in s.WiresAt(c.End(dir));
      assert f in s.conns && f.End(dir) == c.End(dir) ==> f in s.WiresAt(c.End(dir));
    } else {
      OldEnds(s, e, dir);
      OldEnds(s, f, dir);
      var i: nat :| i <= |ids| && e == ChainWire(c, ids, i);
      var j: nat :| j <= |ids| && f == ChainWire(c, ids, j);
      ChainTouches(s, c, ids, i, dir);
      ChainTouches(s, c, ids, j, dir);
    }
  }

  lemma OldEnds(s: Store, e: Connection, dir: Direction)
    requires s.Wired() && e.End(dir).node !in s.nodes
    ensures e !in s.conns
  {
  }

  /**
    Between linking the last reroute and taking the direct wire out, the rule holds exactly when it limits
    no wire that is there together with one of the chain.  For a live knot, whose own wire is still there,
    that is exactly a wire from a data output to an execution input.
   */
  lemma MidwayCardinality(s: Store, g: string, c: Connection, ids: seq<NodeBits>)
    requires s.Tidy() && s.Cardinality() && g in s.graphs && NewChain(s, ids) && ids != []
    requires c.fromNode in s.nodes && c.toNode in s.nodes
    ensures Midway(s, g, c, ids).Cardinality() <==> RoomAtEnds(s, c)
    ensures c in s.conns && !s.ClosesCycle(c) ==>
              (Midway(s, g, c, ids).Cardinality()
               <==> s.IsExecutionPin(c.End(PD_Input)) && !s.IsExecutionPin(c.End(PD_Output)))
  {
    var u := Midway(s, g, c, ids);
    CardinalityByPins(u);
    if RoomAtEnds(s, c) {
      forall e, f, dir | e in u.conns && f in u.conns && e.End(dir) == f.End(dir) && Limits(u, e.End(dir))
        ensures e == f
      {
        MidwayMeet(s, g, c, ids, e, f, dir);
      }
    }
    if u.Cardinality() {
      forall dir | Limits(s, c.End(dir)) && (dir == PD_Output || !s.ClosesCycle(c))
        ensures s.WiresAt(c.End(dir)) == {}
      {
        MidwayClash(s, g, c, ids, dir);
      }
    }
    hide Midway, Store.Cardinality, Store.IsExecutionPin, RoomAtEnds, Store.ClosesCycle, Store.Tidy;
    if c in s.conns && !s.ClosesCycle(c) {
      LiveRoom(s, c);
    }
  }

  lemma MidwayClash(s: Store, g: string, c: Connection, ids: seq<NodeBits>, dir: Direction)
    requires s.Tidy() && g in s.graphs && NewChain(s, ids) && ids != []
    requires c.fromNode in s.nodes && c.toNode in s.nodes && (dir == PD_Output || !s.ClosesCycle(c))
    requires Midway(s, g, c, ids).Cardinality() && Limits(s, c.End(dir))
    ensures s.WiresAt(c.End(dir)) == {}
  {
    var u, k := Midway(s, g, c, ids), if dir == PD_Output then 0 else |ids|;
    CardinalityByPins(u);
    MidwayConns(s, g, c, ids);
    MidwayLimits(s, g, c, ids, c.End(dir));
    ChainTouches(s, c, ids, k, dir);
    assert s.Wired();
    hide Midway, ChainWire, Store.Cardinality, Limits, Store.ClosesCycle, Store.Tidy;
    forall d | d in s.WiresAt(c.End(dir)) ensures d == ChainWire(c, ids, k) {
      assert d in u.conns && ChainWire(c, ids, k) in u.conns;
    }
  }

  lemma LiveRoom(s: Store, c: Connection)
    requires c in s.conns && !s.ClosesCycle(c)
    ensures RoomAtEnds(s, c) <==> s.IsExecutionPin(c.End(PD_Input)) && !s.IsExecutionPin(c.End(PD_Output))
  {
    hide Store.IsExecutionPin, Store.ClosesCycle;
    assert c in s.WiresAt(c.End(PD_Input)) && c in s.WiresAt(c.End(PD_Output));
    assert RoomAtEnds(s, c) ==> !Limits(s, c.End(PD_Input)) && !Limits(s, c.End(PD_Output));
  }
}
