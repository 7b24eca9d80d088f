/**
  What the upgrade does to the kinds of wires (`src/orchestration/graph.cpp`): the reroutes placed on an
  execution wire carry execution, those on a data wire carry data.
 */
module WireKinds {
  import opened Connections
  import opened ConnectionCaches
  import opened Nodes
  import opened Reroutes
  import opened Stores
  import opened KnotMigration
  import opened Queries
  import opened Orchestrations
  import opened Upgrades
  import opened UpgradeMeaning

  /** The wire joins two pins that are there, both of them execution pins or neither. */
  predicate IsPure(nodes: map<int, NodeState>, c: Connection) {
    && IsPin(nodes, c.End(PD_Output)) && IsPin(nodes, c.End(PD_Input))
    && (PinOf(nodes, c.End(PD_Output)).IsExecution() <==> PinOf(nodes, c.End(PD_Input)).IsExecution())
  }

  ghost predicate AllPure(nodes: map<int, NodeState>, wires: set<Connection>) {
    forall c :: c in wires ==> IsPure(nodes, c)
  }

  /** Every pin is either an execution pin or a data pin. */
  predicate IsTyped(n: NodeState) {
    && (forall i :: 0 <= i < |n.inputs| ==> n.inputs[i].IsExecution() != n.inputs[i].IsData())
    && (forall i :: 0 <= i < |n.outputs| ==> n.outputs[i].IsExecution() != n.outputs[i].IsData())
  }

  /** Both pins of a reroute are of its type. */
  lemma ReroutePins(id: int, t: RerouteType)
    ensures IsTyped(RerouteNode(id, t))
    ensures |RerouteNode(id, t).inputs| == 1 == |RerouteNode(id, t).outputs|
    ensures RerouteNode(id, t).inputs[0].IsExecution() <==> t.RerouteControl?
    ensures RerouteNode(id, t).outputs[0].IsExecution() <==> t.RerouteControl?
  {
  }

  /** The type read from a source pin that is there. */
  lemma SourceType(nodes: map<int, NodeState>, c: Connection)
    requires IsPin(nodes, c.End(PD_Output))
    ensures TypeOfWire(nodes, c).RerouteControl? <==> PinOf(nodes, c.End(PD_Output)).IsExecution()
  {
  }

  /** The nodes after a chain has been placed: the old ones, and its reroutes. */
  ghost predicate HasChain(before: map<int, NodeState>, nodes: map<int, NodeState>, c: Connection, ids: seq<NodeBits>) {
    && (forall n :: n in before ==> n in nodes && nodes[n] == before[n])
    && (forall i :: 0 <= i < |ids| ==> ids[i] !in before && ids[i] in nodes)
    && (forall i :: 0 <= i < |ids| ==> nodes[ids[i]] == RerouteNode(ids[i], TypeOfWire(before, c)))
  }

  /** A pin of an old node is what it was. */
  lemma OldPinKept(before: map<int, NodeState>, nodes: map<int, NodeState>, p: PinRef)
    requires forall n :: n in before ==> n in nodes && nodes[n] == before[n]
    requires p.node in before
    ensures IsPin(nodes, p) <==> IsPin(before, p)
    ensures IsPin(before, p) ==> PinOf(nodes, p) == PinOf(before, p)
  {
  }

  /** The pins of a reroute in the chain. */
  lemma ChainPin(before: map<int, NodeState>, nodes: map<int, NodeState>, c: Connection, ids: seq<NodeBits>,
                 i: nat, dir: Direction)
    requires HasChain(before, nodes, c, ids) && i < |ids|
    ensures IsPin(nodes, PinRef(ids[i], dir, 0))
    ensures PinOf(nodes, PinRef(ids[i], dir, 0)).IsExecution() <==> TypeOfWire(before, c).RerouteControl?
  {
    ReroutePins(ids[i], TypeOfWire(before, c));
  }

  /** Every wire of the chain is pure if the knotted wire was. */
  lemma ChainIsPure(before: map<int, NodeState>, nodes: map<int, NodeState>, c: Connection, ids: seq<NodeBits>, i: nat)
    requires HasChain(before, nodes, c, ids) && IsPure(before, c) && i <= |ids|
    ensures IsPure(nodes, ChainWire(c, ids, i))
  {
    var e := ChainWire(c, ids, i);
    SourceType(before, c);
    OldPinKept(before, nodes, c.End(PD_Output));
    OldPinKept(before, nodes, c.End(PD_Input));
    hide TypeOfWire, RerouteNode, Pin.IsExecution;
    if i > 0 {
      ChainPin(before, nodes, c, ids, i - 1, PD_Output);
      assert e.End(PD_Output) == PinRef(ids[i - 1], PD_Output, 0);
    } else {
      assert e.End(PD_Output) == c.End(PD_Output);
    }
    if i < |ids| {
      ChainPin(before, nodes, c, ids, i, PD_Input);
      assert e.End(PD_Input) == PinRef(ids[i], PD_Input, 0);
    } else {
      assert e.End(PD_Input) == c.End(PD_Input);
    }
    hide HasChain, ChainWire;
  }

  /** The first and the last wire of the chain are pure only if the knotted wire was. */
  lemma OnlyPureChains(before: map<int, NodeState>, nodes: map<int, NodeState>, c: Connection, ids: seq<NodeBits>)
    requires HasChain(before, nodes, c, ids) && ids != [] && c.fromNode in before && c.toNode in before
    requires IsPure(nodes, ChainWire(c, ids, 0)) && IsPure(nodes, ChainWire(c, ids, |ids|))
    ensures IsPure(before, c)
  {
    var first, last := ChainWire(c, ids, 0), ChainWire(c, ids, |ids|);
    OldPinKept(before, nodes, c.End(PD_Output));
    OldPinKept(before, nodes, c.End(PD_Input));
    ChainPin(before, nodes, c, ids, 0, PD_Input);
    ChainPin(before, nodes, c, ids, |ids| - 1, PD_Output);
    assert first.End(PD_Output) == c.End(PD_Output) && first.End(PD_Input) == PinRef(ids[0], PD_Input, 0);
    assert last.End(PD_Input) == c.End(PD_Input) && last.End(PD_Output) == PinRef(ids[|ids| - 1], PD_Output, 0);
    hide TypeOfWire, RerouteNode, Pin.IsExecution, HasChain, ChainWire;
  }

  // ----- The chains of a graph together -----

  lemma UpgradedHasChain(s: Store, t: Store, g: string, chains: Chains, c: Connection)
    requires g in s.graphs && Upgraded(s, t, g, chains, map[]) && c in chains
    ensures HasChain(s.nodes, t.nodes, c, chains[c]) && chains[c] != []
  {
    hide RerouteNode, TypeOfWire;
    var ids := chains[c];
    forall i | 0 <= i < |ids|
      ensures ids[i] !in s.nodes && ids[i] in t.nodes && t.nodes[ids[i]] == RerouteNode(ids[i], TypeOfWire(s.nodes, c))
    {
      var n: int := ids[i];
      assert n in chains[c] && n in NewIds(chains);
    }
  }

  /** The type of the reroutes on a knotted wire: that of its source pin, or none if there is no such pin. */
  lemma ChainTypes(s: Store, t: Store, g: string, chains: Chains, c: Connection, i: nat)
    requires g in s.graphs && UpgradedBy(s, t, g, chains) && c in chains && i < |chains[c]|
    ensures chains[c][i] in t.nodes && t.nodes[chains[c][i]].IsReroute()
    ensures var kind, source := t.nodes[chains[c][i]].kind.rerouteType, c.End(PD_Output);
            && (IsPin(s.nodes, source) ==>
                  kind == if PinOf(s.nodes, source).IsExecution() then RerouteControl else RerouteData)
            && (!IsPin(s.nodes, source) ==> kind == RerouteAny)
  {
    UpgradedHasChain(s, t, g, chains, c);
    RerouteNodeSound(chains[c][i], TypeOfWire(s.nodes, c));
    hide UpgradedBy, Pin.IsExecution;
  }

  lemma KnottedNodesExist(s: Store, t: Store, g: string, chains: Chains, c: Connection)
    requires s.Tidy() && g in s.graphs && UpgradedBy(s, t, g, chains) && c in chains
    ensures c.fromNode in s.nodes && c.toNode in s.nodes
  {
    KnotEnds(s, g, c);
  }

  /**
    After the upgrade every wire joins two execution pins or two other pins exactly if the wires that were
    there and the knotted ones did.
   */
  lemma UpgradeKeepsKinds(s: Store, t: Store, g: string, chains: Chains)
    requires s.Tidy() && g in s.graphs && UpgradedBy(s, t, g, chains)
    ensures AllPure(t.nodes, t.conns) <==> AllPure(s.nodes, s.conns + chains.Keys)
  {
    hide Store.Tidy, IsPure, ChainWire, TypeOfWire;
    assert t.conns == Migrated(s.conns, chains);
    assert forall n :: n in s.nodes ==> n in t.nodes && t.nodes[n] == s.nodes[n];
    if AllPure(s.nodes, s.conns + chains.Keys) {
      forall e | e in t.conns ensures IsPure(t.nodes, e) {
        MigratedContents(s.conns, chains, e);
        if e in s.conns && e !in chains {
          OldWirePure(s.nodes, t.nodes, e);
        } else {
          var c, i: nat :| c in chains && i <= |chains[c]| && e == ChainWire(c, chains[c], i);
          UpgradedHasChain(s, t, g, chains, c);
          ChainIsPure(s.nodes, t.nodes, c, chains[c], i);
        }
      }
    }
    if AllPure(t.nodes, t.conns) {
      forall c | c in s.conns + chains.Keys ensures IsPure(s.nodes, c) {
        MigratedContents(s.conns, chains, c);
        if c in chains {
          UpgradedHasChain(s, t, g, chains, c);
          KnottedNodesExist(s, t, g, chains, c);
          MigratedContents(s.conns, chains, ChainWire(c, chains[c], 0));
          MigratedContents(s.conns, chains, ChainWire(c, chains[c], |chains[c]|));
          OnlyPureChains(s.nodes, t.nodes, c, chains[c]);
        } else {
          WiredEnds(s, c);
          OldWirePure(s.nodes, t.nodes, c);
        }
      }
    }
  }

  lemma WiredEnds(s: Store, c: Connection)
    requires s.Tidy() && c in s.conns
    ensures c.fromNode in s.nodes && c.toNode in s.nodes
  {
  }

  lemma OldWirePure(before: map<int, NodeState>, nodes: map<int, NodeState>, c: Connection)
    requires forall n :: n in before ==> n in nodes && nodes[n] == before[n]
    ensures IsPure(before, c) ==> IsPure(nodes, c)
    ensures c.fromNode in before && c.toNode in before && IsPure(nodes, c) ==> IsPure(before, c)
  {
  }

  // ----- Turn by turn, with knots beside reroutes too -----

  lemma ReplacedParts(s: Store, g: string, c: Connection, ids: seq<NodeBits>)
    requires g in s.graphs && NewChain(s, ids) && ids != []
    ensures var t := Replaced(s, g, c, ids);
            && t.nodes == s.nodes + ChainNodes(ids, TypeOfWire(s.nodes, c))
            && t.conns <= s.conns + InnerWires(c, ids) + {ChainWire(c, ids, |ids|)}
  {
    WithChainContents(s, g, c, ids);
    hide WithChain, ChainNodes, InnerWires, TypeOfWire, ChainWire, Reaches;
  }

  lemma ReplacedHasChain(s: Store, ids: seq<NodeBits>, c: Connection, nodes: map<int, NodeState>)
    requires NewChain(s, ids) && nodes == s.nodes + ChainNodes(ids, TypeOfWire(s.nodes, c))
    ensures HasChain(s.nodes, nodes, c, ids)
  {
    hide RerouteNode, TypeOfWire;
    forall n | n in s.nodes ensures n in nodes && nodes[n] == s.nodes[n] {
      assert n !in ChainNodes(ids, TypeOfWire(s.nodes, c));
    }
    forall i | 0 <= i < |ids| ensures ids[i] in ChainNodes(ids, TypeOfWire(s.nodes, c)) {
      var n: int := ids[i];
      assert n in ids;
    }
  }

  /** One turn of the outer loop. */
  lemma ReplacedKeepsKinds(s: Store, g: string, c: Connection, ids: seq<NodeBits>)
    requires g in s.graphs && NewChain(s, ids) && ids != [] && IsPure(s.nodes, c)
    ensures var t := Replaced(s, g, c, ids);
            && (AllPure(s.nodes, s.conns) ==> AllPure(t.nodes, t.conns))
            && (forall n :: n in s.nodes ==> n in t.nodes && t.nodes[n] == s.nodes[n])
            && (forall n :: n in t.nodes && n !in s.nodes ==> IsTyped(t.nodes[n]))
  {
    var t := Replaced(s, g, c, ids);
    ReplacedParts(s, g, c, ids);
    ReplacedHasChain(s, ids, c, t.nodes);
    hide Replaced, IsPure, ChainWire, TypeOfWire, IsTyped;
    if AllPure(s.nodes, s.conns) {
      forall e | e in t.conns ensures IsPure(t.nodes, e) {
        if e in s.conns {
          OldWirePure(s.nodes, t.nodes, e);
        } else {
          var i: nat :| i <= |ids| && e == ChainWire(c, ids, i);
          ChainIsPure(s.nodes, t.nodes, c, ids, i);
        }
      }
    }
    forall n | n in t.nodes && n !in s.nodes ensures IsTyped(t.nodes[n]) {
      ReroutePins(n, TypeOfWire(s.nodes, c));
    }
  }

  /** What the turns so far keep. */
  ghost predicate KindsKept(s: Store, t: Store) {
    && (AllPure(s.nodes, s.conns) ==> AllPure(t.nodes, t.conns))
    && (forall n :: n in s.nodes ==> n in t.nodes && t.nodes[n] == s.nodes[n])
    && (forall n :: n in t.nodes && n !in s.nodes ==> IsTyped(t.nodes[n]))
  }

  lemma KindsKeptStep(s: Store, t: Store, g: string, c: Connection, ids: seq<NodeBits>)
    requires KindsKept(s, t) && g in t.graphs && NewChain(t, ids) && ids != [] && IsPure(s.nodes, c)
    ensures KindsKept(s, Replaced(t, g, c, ids))
  {
    hide Replaced, NewChain, AllPure, IsTyped, IsPure;
    OldWirePure(s.nodes, t.nodes, c);
    ReplacedKeepsKinds(t, g, c, ids);
  }

  lemma KindsKeptNone(s: Store)
    ensures KindsKept(s, s)
  {
  }

  lemma {:induction false} TurnedKeepsKinds(s: Store, g: string, order: seq<Connection>, idss: seq<seq<NodeBits>>,
                                            k: nat)
    requires g in s.graphs && AreTurns(s, g, order, idss) && k <= |order| && AllPure(s.nodes, Knots(s.graphs[g]))
    ensures KindsKept(s, Turned(s, g, order[..k], idss[..k]))
  {
    hide *;
    TurnedNone(s, g, order, idss);
    if k == 0 {
      KindsKeptNone(s);
    } else {
      TurnedKeepsKinds(s, g, order, idss, k - 1);
      TurnedStep(s, g, order, idss, k - 1);
      TurnFacts(s, g, order, idss, k - 1);
      if idss[k - 1] != [] {
        KnotIsPure(s, g, order[k - 1]);
        KindsKeptStep(s, Turned(s, g, order[..k - 1], idss[..k - 1]), g, order[k - 1], idss[k - 1]);
      }
    }
  }

  lemma KnotIsPure(s: Store, g: string, c: Connection)
    requires g in s.graphs && c in s.graphs[g].knots && s.graphs[g].knots[c] > 0 && AllPure(s.nodes, Knots(s.graphs[g]))
    ensures IsPure(s.nodes, c)
  {
    assert c in Knots(s.graphs[g]);
  }

  /**
    Whatever the knotted wires join: if every wire, knotted or not, joins two execution pins or two others,
    then so does every wire after the upgrade, and the pins of every new node are of one kind each.
   */
  lemma UpgradeTakenKeepsKinds(s: Store, t: Store, g: string, order: seq<Connection>, idss: seq<seq<NodeBits>>)
    requires g in s.graphs && UpgradeTaken(s, t, g, order, idss)
    requires AllPure(s.nodes, s.conns) && AllPure(s.nodes, Knots(s.graphs[g]))
    ensures AllPure(t.nodes, t.conns)
    ensures forall n :: n in s.nodes ==> n in t.nodes && t.nodes[n] == s.nodes[n]
    ensures forall n :: n in t.nodes && n !in s.nodes ==> IsTyped(t.nodes[n])
  {
    TakenMeans(s, t, g, order, idss);
    TurnedKeepsKinds(s, g, order, idss, |order|);
    assert order[..|order|] == order && idss[..|order|] == idss;
    hide UpgradeTaken, AllPure, IsTyped, Turned;
  }
}
