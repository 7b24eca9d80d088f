/**
  The upgrade of a graph from before version 4 (`OScriptGraph::_upgrade` of `src/orchestration/graph.cpp`),
  step by step: for every knot, in the order the map yields them, a chain of reroutes is created and
  linked, the last reroute is linked to the target, and the direct wire is taken out.
 */
module Upgrades {
  import opened Connections
  import opened ConnectionCaches
  import opened Nodes
  import opened Reroutes
  import opened Stores
  import opened Graphs
  import opened Orchestrations
  import opened Queries
  import opened KnotMigration

  /** The type forced on the reroutes of a chain: that of the source pin, if there is such a pin. */
  function TypeOfWire(nodes: map<int, NodeState>, c: Connection): RerouteType {
    if c.fromNode in nodes && c.fromPort < |nodes[c.fromNode].outputs| then
      if nodes[c.fromNode].outputs[c.fromPort].IsExecution() then RerouteControl else RerouteData
    else RerouteAny
  }

  // ----- One reroute -----

  /** A new node in graph `g`, with one wire. */
  function Placed(s: Store, g: string, w: Connection, node: NodeState): Store
    requires g in s.graphs
  {
    Store(s.conns + {w}, s.nodes[node.id := node],
          s.graphs[g := s.graphs[g].(nodes := s.graphs[g].nodes + {node.id})], s.functions)
  }

  /** `reconstruct_node` after `force_reroute_type`: the node keeps its id and gets new pins. */
  method SetNode(o: Orchestration, node: NodeState)
    requires o.Valid()
    modifies o`nodes, o`state
    ensures o.Valid() && o.state == old(o.state).(nodes := old(o.state).nodes[node.id := node])
  {
    o.nodes := o.nodes[node.id := node];
    o.state := o.state.(nodes := o.nodes);
  }

  lemma NothingLeads(s: Store, id: int, target: int, R: set<int>)
    requires s.Wired() && id !in s.nodes && target != id
    ensures !Reaches(s.conns, R, id, target)
  {
    forall path | IsPath(s.conns, R, path) && path[0] == id ensures |path| == 1 {
      assert |path| > 1 ==> Hop(s.conns, R, path[0], path[1]);
    }
  }

  /** Creating, linking and typing a reroute. */
  lemma PlacedInSteps(s: Store, g: string, w: Connection, t: RerouteType)
    requires s.Wired() && g in s.graphs && w.fromNode in s.nodes && w.toNode !in s.nodes && w.toPort == 0
    ensures Pack(w.fromNode, w.fromPort, w.toNode, 0) == w && RerouteNode(w.toNode, t).id == w.toNode
    ensures var u := s.AddNode(g, RerouteNode(w.toNode, RerouteAny));
            var v := ConnectGuarded(u, w.fromNode, w.toNode, w);
            && Placed(s, g, w, RerouteNode(w.toNode, t))
               == if t == RerouteAny then v else v.(nodes := v.nodes[w.toNode := RerouteNode(w.toNode, t)])
  {
    hide *;
    RerouteNodeSound(w.toNode, t);
    RerouteAdded(s, g, w.toNode);
    PackedAgain(w);
    var node := RerouteNode(w.toNode, RerouteAny);
    var u := s.AddNode(g, node);
    NothingLeads(s, w.toNode, w.fromNode, u.Reroutes());
    GuardPasses(u, w);
    PlacedParts(s, g, w, RerouteNode(w.toNode, t), u);
  }

  lemma RerouteAdded(s: Store, g: string, id: int)
    requires g in s.graphs && id !in s.nodes
    ensures s.AddNode(g, RerouteNode(id, RerouteAny))
            == Store(s.conns, s.nodes[id := RerouteNode(id, RerouteAny)],
                     s.graphs[g := s.graphs[g].(nodes := s.graphs[g].nodes + {id})], s.functions)
  {
    RerouteNodeSound(id, RerouteAny);
    var node := RerouteNode(id, RerouteAny);
    assert node.kind == Reroute(RerouteAny);
    hide RerouteNode, NodeState.Cache, NodeState.Sound;
  }

  lemma PackedAgain(w: Connection)
    requires w.toPort == 0
    ensures Pack(w.fromNode, w.fromPort, w.toNode, 0) == w
  {
  }

  lemma GuardPasses(u: Store, w: Connection)
    requires !Reaches(u.conns, u.Reroutes(), w.toNode, w.fromNode)
    ensures ConnectGuarded(u, w.fromNode, w.toNode, w) == u.(conns := u.conns + {w})
  {
    hide Reaches, Store.Reroutes;
  }

  lemma PlacedParts(s: Store, g: string, w: Connection, node: NodeState, u: Store)
    requires g in s.graphs && node.id == w.toNode && u.conns == s.conns && u.functions == s.functions
    requires w.toNode in u.nodes && u.nodes == s.nodes[w.toNode := u.nodes[w.toNode]]
    requires u.graphs == s.graphs[g := s.graphs[g].(nodes := s.graphs[g].nodes + {w.toNode})]
    ensures Placed(s, g, w, node)
            == u.(conns := u.conns + {w}, nodes := u.nodes[w.toNode := node])
    ensures node == u.nodes[w.toNode] ==> Placed(s, g, w, node) == u.(conns := u.conns + {w})
  {
  }

  method PlaceReroute(o: Orchestration, g: string, source: NodeBits, sourcePort: PortBits, t: RerouteType)
      returns (id: NodeBits)
    requires o.Valid() && g in o.graphs && o.state.Wired() && source in o.nodes
    requires forall n :: n in o.nodes ==> n + 1 < NODE_LIMIT
    modifies o`nodes, o`state, o.cache, o.graphs[g]
    ensures o.Valid() && old(o.state).IsAvailable(id)
    ensures g in old(o.state).graphs
    ensures o.state == Placed(old(o.state), g, Connection(source, sourcePort, id, 0), RerouteNode(id, t))
  {
    hide *;
    o.Fields();
    o.GraphFields(g);
    ghost var s := o.state;
    var available := o.GetAvailableId();
    AvailableFits(s, available);
    id := available;
    PlacedInSteps(s, g, Connection(source, sourcePort, id, 0), t);
    o.AddNode(g, RerouteNode(id, RerouteAny));
    o.ConnectNodes(source, sourcePort, id, 0);
    if t != RerouteAny {
      SetNode(o, RerouteNode(id, t));
    }
  }

  lemma AvailableFits(s: Store, id: int)
    requires s.IsAvailable(id) && forall n :: n in s.nodes ==> n + 1 < NODE_LIMIT
    ensures 0 <= id < 0x100_0000 && id !in s.nodes
  {
  }

  // ----- One chain -----

  /** The wire into the reroute placed after those in `ids`. */
  function NextWire(c: Connection, ids: seq<NodeBits>, id: NodeBits): Connection {
    if ids == [] then Connection(c.fromNode, c.fromPort, id, 0) else Connection(ids[|ids| - 1], 0, id, 0)
  }

  /** The store after the reroutes `ids` have been placed behind the source of `c`, one by one. */
  function WithChain(s: Store, g: string, c: Connection, ids: seq<NodeBits>): (t: Store)
    requires g in s.graphs
    ensures g in t.graphs
  {
    if ids == [] then s
    else
      var init, id := ids[..|ids| - 1], ids[|ids| - 1];
      Placed(WithChain(s, g, c, init), g, NextWire(c, init, id), RerouteNode(id, TypeOfWire(s.nodes, c)))
  }

  /** No id is repeated or in use. */
  ghost predicate NewChain(s: Store, ids: seq<NodeBits>) {
    && (forall i :: 0 <= i < |ids| ==> ids[i] !in s.nodes)
    && (forall i, j :: 0 <= i < j < |ids| ==> ids[i] != ids[j])
  }

  function IdSet(ids: seq<int>): set<int> {
    set id | id in ids
  }

  function ChainNodes(ids: seq<int>, t: RerouteType): map<int, NodeState> {
    map n | n in ids :: RerouteNode(n, t)
  }

  /** The wires of a chain but the last. */
  function InnerWires(c: Connection, ids: seq<NodeBits>): set<Connection> {
    set i: nat | i < |ids| :: ChainWire(c, ids, i)
  }

  lemma InnerWiresSnoc(c: Connection, ids: seq<NodeBits>, id: NodeBits)
    ensures InnerWires(c, ids + [id]) == InnerWires(c, ids) + {NextWire(c, ids, id)}
  {
    var more := ids + [id];
    forall i: nat | i < |ids| ensures ChainWire(c, more, i) == ChainWire(c, ids, i) {
    }
    assert ChainWire(c, more, |ids|) == NextWire(c, ids, id);
    forall w ensures w in InnerWires(c, more) <==> w in InnerWires(c, ids) + {NextWire(c, ids, id)} {
      if w in InnerWires(c, more) {
        var i: nat :| i < |more| && w == ChainWire(c, more, i);
        assert i < |ids| ==> ChainWire(c, ids, i) in InnerWires(c, ids);
      }
      if w in InnerWires(c, ids) {
        var i: nat :| i < |ids| && w == ChainWire(c, ids, i);
        assert ChainWire(c, more, i) in InnerWires(c, more);
      }
    }
  }

  /** The ids and the nodes of a chain that grows by one. */
  lemma ChainNodesSnoc(nodes: map<int, NodeState>, held: set<int>, ids: seq<int>, id: int, t: RerouteType)
    ensures held + IdSet(ids + [id]) == held + IdSet(ids) + {id}
    ensures nodes + ChainNodes(ids + [id], t) == (nodes + ChainNodes(ids, t))[id := RerouteNode(id, t)]
    ensures RerouteNode(id, t).id == id
  {
    RerouteNodeSound(id, t);
    hide RerouteNode;
    assert ChainNodes(ids + [id], t) == ChainNodes(ids, t)[id := RerouteNode(id, t)];
  }

  lemma EmptyChain(s: Store, g: string, c: Connection, t: RerouteType)
    requires g in s.graphs
    ensures s.conns == s.conns + InnerWires(c, [])
    ensures s.nodes == s.nodes + ChainNodes([], t)
    ensures s.graphs == s.graphs[g := s.graphs[g].(nodes := s.graphs[g].nodes + IdSet([]))]
  {
    assert s.graphs[g].nodes + IdSet([]) == s.graphs[g].nodes;
  }

  lemma {:induction false} WithChainContents(s: Store, g: string, c: Connection, ids: seq<NodeBits>)
    requires g in s.graphs
    ensures var t := WithChain(s, g, c, ids);
            && t.conns == s.conns + InnerWires(c, ids)
            && t.nodes == s.nodes + ChainNodes(ids, TypeOfWire(s.nodes, c))
            && t.graphs == s.graphs[g := s.graphs[g].(nodes := s.graphs[g].nodes + IdSet(ids))]
            && t.functions == s.functions
  {
    hide RerouteNode, TypeOfWire, ChainNodes, IdSet, InnerWires, NextWire;
    var kind := TypeOfWire(s.nodes, c);
    if ids == [] {
      EmptyChain(s, g, c, kind);
    } else {
      var init, id := ids[..|ids| - 1], ids[|ids| - 1];
      assert ids == init + [id];
      WithChainContents(s, g, c, init);
      InnerWiresSnoc(c, init, id);
      ChainNodesSnoc(s.nodes, s.graphs[g].nodes, init, id, kind);
    }
  }

  /** One more reroute on a chain. */
  lemma WithChainSnoc(s: Store, g: string, c: Connection, ids: seq<NodeBits>, id: int, room: int)
    requires g in s.graphs && NewChain(s, ids) && s.Wired() && c.fromNode in s.nodes
    requires WithChain(s, g, c, ids).IsAvailable(id) && forall n :: n in WithChain(s, g, c, ids).nodes ==>
             n + room < NODE_LIMIT
    requires 0 <= id < NODE_LIMIT && room < NODE_LIMIT
    ensures var more := ids + [id];
            && NewChain(s, more)
            && WithChain(s, g, c, more)
               == Placed(WithChain(s, g, c, ids), g, NextWire(c, ids, id), RerouteNode(id, TypeOfWire(s.nodes, c)))
            && forall n :: n in WithChain(s, g, c, more).nodes ==> n + (room - 1) < NODE_LIMIT
  {
    var more := ids + [id];
    assert more[..|more| - 1] == ids;
    NewChainSnoc(s, g, c, ids, id);
    assert id > 0 ==> id - 1 + room < NODE_LIMIT;
    hide NewChain, Store.Wired, NextWire, TypeOfWire;
    RerouteNodeSound(id, TypeOfWire(s.nodes, c));
    hide RerouteNode;
  }

  lemma NewChainSnoc(s: Store, g: string, c: Connection, ids: seq<NodeBits>, id: NodeBits)
    requires g in s.graphs && NewChain(s, ids) && WithChain(s, g, c, ids).IsAvailable(id)
    ensures NewChain(s, ids + [id])
  {
    WithChainContents(s, g, c, ids);
    hide WithChain;
    assert id !in IdSet(ids) && id !in s.nodes;
  }

  lemma WithChainWired(s: Store, g: string, c: Connection, ids: seq<NodeBits>)
    requires g in s.graphs && NewChain(s, ids) && s.Wired() && c.fromNode in s.nodes
    ensures WithChain(s, g, c, ids).Wired()
    ensures ids != [] ==> ids[|ids| - 1] in WithChain(s, g, c, ids).nodes
    ensures c.fromNode in WithChain(s, g, c, ids).nodes
  {
    WithChainContents(s, g, c, ids);
  }

  /** The loop over the knots of one wire. */
  method PlaceChain(o: Orchestration, g: string, c: Connection, count: nat, ghost slack: nat)
      returns (ids: seq<NodeBits>)
    requires o.Valid() && g in o.graphs && o.state.Wired() && c.fromNode in o.nodes
    requires (forall n :: n in o.nodes ==> n + count + slack < NODE_LIMIT) && count + slack < NODE_LIMIT
    modifies o`nodes, o`state, o.cache, o.graphs[g]
    ensures o.Valid() && |ids| == count && NewChain(old(o.state), ids) && g in old(o.state).graphs
    ensures o.state == WithChain(old(o.state), g, c, ids)
    ensures forall n :: n in o.nodes ==> n + slack < NODE_LIMIT
  {
    ghost var s := o.state;
    var t := TypeOfWire(o.nodes, c);
    ids := [];
    for i := 0 to count
      invariant o.Valid() && |ids| == i && NewChain(s, ids)
      invariant o.state == WithChain(s, g, c, ids)
      invariant forall n :: n in o.state.nodes ==> n + (count - i) + slack < NODE_LIMIT
    {
      hide *;
      o.Fields();
      WithChainWired(s, g, c, ids);
      var id;
      if ids == [] {
        id := PlaceReroute(o, g, c.fromNode, c.fromPort, t);
      } else {
        id := PlaceReroute(o, g, ids[|ids| - 1], 0, t);
      }
      WithChainSnoc(s, g, c, ids, id, count - i + slack);
      ids := ids + [id];
    }
  }

  // ----- One knotted wire -----

  /** The state between linking the last reroute, if the guard allows it, and taking the direct wire out. */
  ghost function Midway(s: Store, g: string, c: Connection, ids: seq<NodeBits>): Store
    requires g in s.graphs && ids != []
  {
    ConnectGuarded(WithChain(s, g, c, ids), ids[|ids| - 1], c.toNode, ChainWire(c, ids, |ids|))
  }

  /** A chain in place of the wire `c`. */
  ghost function Replaced(s: Store, g: string, c: Connection, ids: seq<NodeBits>): Store
    requires g in s.graphs && ids != []
  {
    Midway(s, g, c, ids).Disconnect(c)
  }

  lemma WithChainSound(s: Store, g: string, c: Connection, ids: seq<NodeBits>)
    requires g in s.graphs && s.GraphsSound()
    ensures WithChain(s, g, c, ids).GraphsSound()
  {
    WithChainContents(s, g, c, ids);
    var t := WithChain(s, g, c, ids);
    forall h | h in t.graphs ensures t.GraphSound(h) {
      assert s.GraphSound(h);
    }
  }

  lemma LastWire(c: Connection, ids: seq<NodeBits>)
    requires ids != []
    ensures Pack(ids[|ids| - 1], 0, c.toNode, c.toPort) == ChainWire(c, ids, |ids|)
    ensures Pack(c.fromNode, c.fromPort, c.toNode, c.toPort) == c
  {
  }

  /** Linking the last reroute to the target, and taking the direct wire out. */
  lemma ReplacedInSteps(s: Store, g: string, c: Connection, ids: seq<NodeBits>)
    requires g in s.graphs && s.GraphsSound() && ids != []
    ensures var t, last := WithChain(s, g, c, ids), ids[|ids| - 1];
            var w := ChainWire(c, ids, |ids|);
            var u := ConnectGuarded(t, last, c.toNode, w);
            && Pack(last, 0, c.toNode, c.toPort) == w && Pack(c.fromNode, c.fromPort, c.toNode, c.toPort) == c
            && u.GraphsSound() && u.nodes == t.nodes && u.Disconnect(c) == Replaced(s, g, c, ids)
  {
    WithChainSound(s, g, c, ids);
    LastWire(c, ids);
    hide WithChain, Store.GraphsSound, Store.Reroutes, NewChain, Store.Disconnect, Store.Drop, Reaches, Pack, ChainWire;
    var t, last := WithChain(s, g, c, ids), ids[|ids| - 1];
    var u := ConnectGuarded(t, last, c.toNode, ChainWire(c, ids, |ids|));
    RegroupedSound(t, u);
  }

  /** One turn of the outer loop of `_upgrade`. */
  method ReplaceWire(o: Orchestration, g: string, c: Connection, count: nat, ghost slack: nat)
      returns (ids: seq<NodeBits>)
    requires o.Valid() && o.state.GraphsSound() && o.state.Wired() && g in o.graphs && count > 0
    requires c.fromNode in o.nodes && c.toNode in o.nodes
    requires (forall n :: n in o.nodes ==> n + count + slack < NODE_LIMIT) && count + slack < NODE_LIMIT
    modifies o`nodes, o`state, o.cache, o.graphs.Values
    ensures o.Valid() && |ids| == count && NewChain(old(o.state), ids) && g in old(o.state).graphs
    ensures o.state == Replaced(old(o.state), g, c, ids)
    ensures forall n :: n in o.nodes ==> n + slack < NODE_LIMIT
  {
    hide *;
    o.Fields();
    o.GraphFields(g);
    ghost var s := o.state;
    ids := PlaceChain(o, g, c, count, slack);
    ReplacedInSteps(s, g, c, ids);
    o.ConnectNodes(ids[|ids| - 1], 0, c.toNode, c.toPort);
    o.DisconnectNodes(c.fromNode, c.fromPort, c.toNode, c.toPort);
  }

  // ----- Every turn keeps the store tidy -----

  lemma ChainNodesFiled(nodes: map<int, NodeState>, ids: seq<NodeBits>, t: RerouteType)
    requires forall id :: id in nodes ==> 0 <= id < NODE_LIMIT && nodes[id].id == id && nodes[id].IsCached()
    ensures var more := nodes + ChainNodes(ids, t);
            forall id :: id in more ==> 0 <= id < NODE_LIMIT && more[id].id == id && more[id].IsCached()
  {
    forall id: int | id in ids
      ensures 0 <= id < NODE_LIMIT && RerouteNode(id, t).id == id && RerouteNode(id, t).IsCached()
    {
      RerouteNodeSound(id, t);
      SoundIsCached(RerouteNode(id, t));
    }
    hide RerouteNode, NodeState.IsCached;
  }

  lemma WithChainPartition(s: Store, g: string, c: Connection, ids: seq<NodeBits>)
    requires s.Partitioned() && g in s.graphs && NewChain(s, ids)
    ensures WithChain(s, g, c, ids).Partitioned()
  {
    var t := WithChain(s, g, c, ids);
    WithChainContents(s, g, c, ids);
    hide WithChain;
    assert forall n :: n in IdSet(ids) ==> n !in s.nodes;
    assert t.nodes.Keys == s.nodes.Keys + IdSet(ids);
    forall h, n ensures t.Holds(h, n) <==> s.Holds(h, n) || (h == g && n in IdSet(ids)) {
      assert h in t.graphs <==> h in s.graphs;
    }
    hide Store.Holds, IdSet;
    PartitionGrows(s, t, g, IdSet(ids));
  }

  lemma WithChainKeepsTables(s: Store, t: Store, ids: seq<NodeBits>, kind: RerouteType)
    requires t.nodes == s.nodes + ChainNodes(ids, kind) && t.functions == s.functions
    ensures s.nodes.Keys <= t.nodes.Keys
    ensures s.NodesFiled() ==> t.NodesFiled()
    ensures s.FunctionsSound() ==> t.FunctionsSound()
  {
    if s.NodesFiled() {
      ChainNodesFiled(s.nodes, ids, kind);
    }
    hide RerouteNode, NodeState.IsCached;
    assert forall n :: n in s.nodes ==> n in s.nodes + ChainNodes(ids, kind);
  }

  lemma WithChainKeepsTidy(s: Store, g: string, c: Connection, ids: seq<NodeBits>)
    requires s.Tidy() && g in s.graphs && NewChain(s, ids) && c.fromNode in s.nodes
    ensures WithChain(s, g, c, ids).Tidy() && s.nodes.Keys <= WithChain(s, g, c, ids).nodes.Keys
  {
    hide *;
    TidyIs(s);
    TidyIs(WithChain(s, g, c, ids));
    WithChainPartition(s, g, c, ids);
    WithChainSound(s, g, c, ids);
    WithChainWired(s, g, c, ids);
    WithChainContents(s, g, c, ids);
    WithChainKeepsTables(s, WithChain(s, g, c, ids), ids, TypeOfWire(s.nodes, c));
  }

  lemma LastWireNodes(c: Connection, ids: seq<NodeBits>)
    requires ids != []
    ensures ChainWire(c, ids, |ids|).fromNode == ids[|ids| - 1] && ChainWire(c, ids, |ids|).toNode == c.toNode
  {
  }

  lemma DisconnectKeepsTidy(s: Store, c: Connection, g: string)
    requires s.Tidy() && g in s.graphs
    ensures s.Disconnect(c).Tidy() && s.Disconnect(c).nodes == s.nodes && g in s.Disconnect(c).graphs
    ensures s.Disconnect(c).graphs[g].knots.Keys <= s.graphs[g].knots.Keys
    ensures s.Disconnect(c).conns <= s.conns
  {
    DropKeepsTidy(s, {c});
    hide Store.Tidy;
  }

  lemma ReplacedIs(s: Store, g: string, c: Connection, ids: seq<NodeBits>)
    requires g in s.graphs && ids != []
    ensures Replaced(s, g, c, ids)
            == ConnectGuarded(WithChain(s, g, c, ids), ids[|ids| - 1], c.toNode, ChainWire(c, ids, |ids|)).Disconnect(c)
  {
  }

  /** Every turn keeps the store tidy, whatever the knotted wire joins. */
  lemma ReplacedKeepsTidy(s: Store, g: string, c: Connection, ids: seq<NodeBits>)
    requires s.Tidy() && g in s.graphs && NewChain(s, ids) && ids != [] && c.fromNode in s.nodes && c.toNode in s.nodes
    ensures Replaced(s, g, c, ids).Tidy() && g in Replaced(s, g, c, ids).graphs
    ensures s.nodes.Keys <= Replaced(s, g, c, ids).nodes.Keys
    ensures Replaced(s, g, c, ids).graphs[g].knots.Keys <= s.graphs[g].knots.Keys
  {
    hide *;
    var t, w := WithChain(s, g, c, ids), ChainWire(c, ids, |ids|);
    TidyIs(s);
    WithChainKeepsTidy(s, g, c, ids);
    WithChainWired(s, g, c, ids);
    WithChainContents(s, g, c, ids);
    LastWireNodes(c, ids);
    ConnectGuardedKeepsTidy(t, ids[|ids| - 1], c.toNode, w);
    DisconnectKeepsTidy(ConnectGuarded(t, ids[|ids| - 1], c.toNode, w), c, g);
    ReplacedIs(s, g, c, ids);
  }

  lemma ConnectGuardedKeepsTidy(s: Store, source: int, target: int, c: Connection)
    requires s.Tidy() && c.fromNode in s.nodes && c.toNode in s.nodes
    ensures ConnectGuarded(s, source, target, c).Tidy()
    ensures ConnectGuarded(s, source, target, c).nodes == s.nodes
            && ConnectGuarded(s, source, target, c).graphs == s.graphs
    ensures ConnectGuarded(s, source, target, c).functions == s.functions
    ensures s.conns <= ConnectGuarded(s, source, target, c).conns <= s.conns + {c}
  {
    var t := ConnectGuarded(s, source, target, c);
    hide Reaches, Store.Reroutes;
    RegroupedSound(s, t);
    hide Store.Partitioned, Store.NodesFiled, Store.GraphsSound, Store.FunctionsSound;
    assert t.Wired();
  }

  // ----- The whole upgrade -----

  /** The new nodes are the reroutes of the chains, and the others stay as they are. */
  ghost predicate WithReroutes(before: map<int, NodeState>, nodes: map<int, NodeState>, chains: Chains) {
    && nodes.Keys == before.Keys + NewIds(chains)
    && (forall n :: n in before ==> nodes[n] == before[n])
    && (forall c, n :: c in chains && n in chains[c] ==> nodes[n] == RerouteNode(n, TypeOfWire(before, c)))
  }

  /** `t` is `s` with every wire in `chains` replaced, and the knots of graph `g` as given. */
  ghost predicate Upgraded(s: Store, t: Store, g: string, chains: Chains, knots: map<Connection, nat>)
    requires g in s.graphs
  {
    && Fresh(chains, s.nodes.Keys)
    && t.conns == Migrated(s.conns, chains)
    && WithReroutes(s.nodes, t.nodes, chains)
    && t.graphs == s.graphs[g := s.graphs[g].(nodes := s.graphs[g].nodes + NewIds(chains), knots := knots)]
    && t.functions == s.functions
  }

  lemma NewIdsSnoc(chains: Chains, c: Connection, ids: seq<NodeBits>)
    requires c !in chains
    ensures NewIds(chains[c := ids]) == NewIds(chains) + IdSet(ids)
  {
    var more := chains[c := ids];
    forall n ensures n in NewIds(more) <==> n in NewIds(chains) + IdSet(ids) {
      if n in NewIds(more) {
        var d :| d in more && n in more[d];
      }
      if n in NewIds(chains) {
        var d :| d in chains && n in chains[d];
        assert d in more && more[d] == chains[d];
      }
      if n in ids {
        assert c in more && more[c] == ids;
      }
    }
  }

  lemma FreshSnoc(s: Store, t: Store, chains: Chains, c: Connection, ids: seq<NodeBits>)
    requires Fresh(chains, s.nodes.Keys) && c !in chains && NewChain(t, ids) && ids != []
    requires t.nodes.Keys == s.nodes.Keys + NewIds(chains)
    ensures Fresh(chains[c := ids], s.nodes.Keys)
  {
    var more := chains[c := ids];
    forall d, i | d in chains && 0 <= i < |chains[d]| ensures chains[d][i] in NewIds(chains) {
      var n: int := chains[d][i];
      assert n in chains[d];
    }
    assert forall d :: d in chains ==> more[d] == chains[d];
  }

  lemma MigratedSnoc(s: set<Connection>, chains: Chains, c: Connection, ids: seq<NodeBits>, used: set<int>)
    requires Fresh(chains[c := ids], used) && c !in chains && c.fromNode in used && c.toNode in used
    ensures Migrated(s, chains[c := ids]) == Migrated(s, chains) + InnerWires(c, ids) + {ChainWire(c, ids, |ids|)} - {c}
  {
    var more := chains[c := ids];
    assert more[c] == ids && ids != [] && forall d :: d in chains ==> more[d] == chains[d];
    forall e
      ensures e in Migrated(s, more) <==>
              e in Migrated(s, chains) + InnerWires(c, ids) + {ChainWire(c, ids, |ids|)} - {c}
    {
      MigratedContents(s, chains, e);
      MigratedContents(s, more, e);
      if InChain(chains, e) {
        var d, i: nat :| d in chains && i <= |chains[d]| && e == ChainWire(d, chains[d], i);
        assert e == ChainWire(d, more[d], i);
        assert more[d][if i == 0 then 0 else i - 1] !in used;
      }
      if e in InnerWires(c, ids) + {ChainWire(c, ids, |ids|)} {
        var i: nat :| i <= |ids| && e == ChainWire(c, ids, i);
        assert e == ChainWire(c, more[c], i);
        assert more[c][if i == 0 then 0 else i - 1] !in used;
      }
      if InChain(more, e) {
        var d, i: nat :| d in more && i <= |more[d]| && e == ChainWire(d, more[d], i);
        if d == c {
          assert e in InnerWires(c, ids) + {ChainWire(c, ids, |ids|)};
        } else {
          assert e == ChainWire(d, chains[d], i);
        }
      }
    }
  }

  /** The guard looks at reroutes only, so it lets the last link to any other node through. */
  lemma MidwayPlain(t: Store, g: string, c: Connection, ids: seq<NodeBits>)
    requires g in t.graphs && ids != [] && NewChain(t, ids) && c.toNode in t.nodes && !t.nodes[c.toNode].IsReroute()
    ensures Midway(t, g, c, ids)
            == WithChain(t, g, c, ids).(conns := t.conns + InnerWires(c, ids) + {ChainWire(c, ids, |ids|)})
    ensures Replaced(t, g, c, ids) == Midway(t, g, c, ids).Disconnect(c)
  {
    WithChainContents(t, g, c, ids);
    assert c.toNode !in WithChain(t, g, c, ids).Reroutes();
    hide WithChain, Reaches, InnerWires, Store.Disconnect;
  }

  lemma ReplacedConns(t: Store, g: string, c: Connection, ids: seq<NodeBits>)
    requires g in t.graphs && ids != [] && NewChain(t, ids) && c.toNode in t.nodes && !t.nodes[c.toNode].IsReroute()
    ensures Replaced(t, g, c, ids).conns == t.conns + InnerWires(c, ids) + {ChainWire(c, ids, |ids|)} - {c}
    ensures Replaced(t, g, c, ids).nodes == t.nodes + ChainNodes(ids, TypeOfWire(t.nodes, c))
    ensures Replaced(t, g, c, ids).functions == t.functions
  {
    WithChainContents(t, g, c, ids);
    MidwayPlain(t, g, c, ids);
    hide WithChain, Midway, Replaced, InnerWires;
  }

  /** Dropping a knot that only graph `g` has changes only graph `g`. */
  lemma DropElsewhere(graphs: map<string, GraphState>, g: string, c: Connection)
    requires g in graphs && forall h :: h in graphs && h != g ==> c !in graphs[h].knots
    ensures WithoutKnots(graphs, {c}) == graphs[g := graphs[g].(knots := graphs[g].knots - {c})]
  {
    forall h | h in graphs && h != g ensures graphs[h].DropKnots({c}) == graphs[h] {
      assert graphs[h].knots - {c} == graphs[h].knots;
    }
  }

  /** The knots of the graph once `c` is replaced: its own knot goes with the direct wire. */
  function KnotsLeft(t: Store, g: string, c: Connection, ids: seq<NodeBits>): map<Connection, nat>
    requires g in t.graphs
  {
    if c in t.conns + InnerWires(c, ids) + {ChainWire(c, ids, |ids|)} then t.graphs[g].knots - {c}
      else t.graphs[g].knots
  }

  lemma KnotsLeftMeans(t: Store, g: string, c: Connection, ids: seq<NodeBits>)
    requires g in t.graphs
    ensures KnotsLeft(t, g, c, ids) == if c in t.conns + InnerWires(c, ids) + {ChainWire(c, ids, |ids|)}
                                       then t.graphs[g].knots - {c} else t.graphs[g].knots
  {
  }

  lemma ReplacedGraphs(t: Store, g: string, c: Connection, ids: seq<NodeBits>)
    requires g in t.graphs && forall h :: h in t.graphs && h != g ==> c !in t.graphs[h].knots
    requires ids != [] && NewChain(t, ids) && c.toNode in t.nodes && !t.nodes[c.toNode].IsReroute()
    ensures Replaced(t, g, c, ids).graphs
            == t.graphs[g := t.graphs[g].(nodes := t.graphs[g].nodes + IdSet(ids), knots := KnotsLeft(t, g, c, ids))]
    ensures KnotsLeft(t, g, c, ids).Keys <= t.graphs[g].knots.Keys
  {
    hide *;
    var v := Midway(t, g, c, ids);
    MidwayPlain(t, g, c, ids);
    KnotsLeftMeans(t, g, c, ids);
    WithChainContents(t, g, c, ids);
    DropElsewhere(v.graphs, g, c);
    DisconnectedInSteps(v, c);
  }

  lemma OnlyItsGraph(s: Store, t: Store, g: string, chains: Chains, knots: map<Connection, nat>, c: Connection)
    requires s.Tidy() && g in s.graphs && c in s.graphs[g].knots && Upgraded(s, t, g, chains, knots)
    ensures c.fromNode in s.nodes && c.toNode in s.nodes
    ensures forall h :: h in t.graphs && h != g ==> c !in t.graphs[h].knots
  {
    assert s.GraphSound(g);
    assert s.Holds(g, c.fromNode) && s.Holds(g, c.toNode);
    forall h | h in t.graphs && h != g ensures c !in t.graphs[h].knots {
      assert s.GraphSound(h);
      assert c in s.graphs[h].knots ==> s.Holds(h, c.fromNode);
    }
  }

  /** The nodes after one more chain. */
  lemma UpgradedNodes(s: Store, t: Store, g: string, chains: Chains, knots: map<Connection, nat>,
                      c: Connection, ids: seq<NodeBits>, nodes: map<int, NodeState>)
    requires g in s.graphs && Upgraded(s, t, g, chains, knots) && c !in chains && NewChain(t, ids)
    requires c.fromNode in s.nodes && nodes == t.nodes + ChainNodes(ids, TypeOfWire(t.nodes, c))
    ensures WithReroutes(s.nodes, nodes, chains[c := ids])
  {
    NewIdsSnoc(chains, c, ids);
    var more := chains[c := ids];
    assert TypeOfWire(t.nodes, c) == TypeOfWire(s.nodes, c);
    hide RerouteNode, TypeOfWire;
    forall d, n | d in more && n in more[d] ensures nodes[n] == RerouteNode(n, TypeOfWire(s.nodes, d)) {
      if d == c {
        assert n in ChainNodes(ids, TypeOfWire(t.nodes, c));
      } else {
        assert n in chains[d] && n in NewIds(chains);
        assert n !in ids;
      }
    }
  }

  /** The parts of `Upgraded`, for proofs that keep it hidden. */
  lemma UpgradedParts(s: Store, t: Store, g: string, chains: Chains, knots: map<Connection, nat>)
    requires g in s.graphs
    ensures Upgraded(s, t, g, chains, knots) <==>
            && Fresh(chains, s.nodes.Keys)
            && t.conns == Migrated(s.conns, chains)
            && WithReroutes(s.nodes, t.nodes, chains)
            && t.graphs == s.graphs[g := s.graphs[g].(nodes := s.graphs[g].nodes + NewIds(chains), knots := knots)]
            && t.functions == s.functions
    ensures WithReroutes(s.nodes, t.nodes, chains) ==> t.nodes.Keys == s.nodes.Keys + NewIds(chains)
  {
  }

  /** One more wire replaced. */
  lemma UpgradedStep(s: Store, t: Store, g: string, chains: Chains, c: Connection, ids: seq<NodeBits>)
    requires s.Tidy() && g in s.graphs && g in t.graphs && c in s.graphs[g].knots && c !in chains
    requires Upgraded(s, t, g, chains, t.graphs[g].knots)
    requires NewChain(t, ids) && ids != [] && c.toNode !in s.Reroutes()
    ensures Upgraded(s, Replaced(t, g, c, ids), g, chains[c := ids], KnotsLeft(t, g, c, ids))
    ensures g in Replaced(t, g, c, ids).graphs && Replaced(t, g, c, ids).graphs[g].knots == KnotsLeft(t, g, c, ids)
    ensures KnotsLeft(t, g, c, ids).Keys <= t.graphs[g].knots.Keys
  {
    hide *;
    var r, more := Replaced(t, g, c, ids), chains[c := ids];
    UpgradedParts(s, t, g, chains, t.graphs[g].knots);
    OnlyItsGraph(s, t, g, chains, t.graphs[g].knots, c);
    StillNoReroute(s, t, g, chains, t.graphs[g].knots, c.toNode);
    ReplacedConns(t, g, c, ids);
    ReplacedGraphs(t, g, c, ids);
    UpgradedNodes(s, t, g, chains, t.graphs[g].knots, c, ids, r.nodes);
    FreshSnoc(s, t, chains, c, ids);
    MigratedSnoc(s.conns, chains, c, ids, s.nodes.Keys);
    NewIdsSnoc(chains, c, ids);
    assert s.graphs[g].nodes + NewIds(chains) + IdSet(ids) == s.graphs[g].nodes + NewIds(more);
    UpgradedParts(s, r, g, more, KnotsLeft(t, g, c, ids));
  }

  lemma StillNoReroute(s: Store, t: Store, g: string, chains: Chains, knots: map<Connection, nat>, n: int)
    requires g in s.graphs && Upgraded(s, t, g, chains, knots) && n in s.nodes && n !in s.Reroutes()
    ensures n in t.nodes && !t.nodes[n].IsReroute()
  {
  }

  /** The wires among `order` that carry knots. */
  function Knotted(knots: map<Connection, nat>, order: seq<Connection>): set<Connection> {
    set c | c in order && c in knots && knots[c] > 0
  }

  /** How many reroutes the knots on the wires in `order` make. */
  function KnotCount(knots: map<Connection, nat>, order: seq<Connection>): nat {
    if order == [] then 0
    else (if order[0] in knots then knots[order[0]] else 0) + KnotCount(knots, order[1..])
  }

  /** Every key of the map once: an order in which a walk over the map can yield its keys. */
  ghost predicate IsOrderOf(order: seq<Connection>, knots: map<Connection, nat>) {
    && (forall c :: c in order <==> c in knots)
    && (forall i, j :: 0 <= i < j < |order| ==> order[i] != order[j])
  }

  /** Before the first turn. */
  lemma UpgradedNothing(s: Store, g: string)
    requires g in s.graphs
    ensures Upgraded(s, s, g, map[], s.graphs[g].knots)
  {
    var chains: Chains := map[];
    assert NewIds(chains) == {};
    assert Migrated(s.conns, chains) == s.conns;
    assert s.graphs[g].nodes + {} == s.graphs[g].nodes;
  }

  lemma OrderStep(knots: map<Connection, nat>, order: seq<Connection>, k: nat)
    requires IsOrderOf(order, knots) && k < |order|
    ensures order[k] in knots && order[k] !in Knotted(knots, order[..k])
    ensures knots[order[k]] > 0 ==> order[k] in Knotted(knots, order)
    ensures Knotted(knots, order[..k + 1]) == Knotted(knots, order[..k]) + if knots[order[k]] > 0 then {order[k]}
            else {}
    ensures KnotCount(knots, order[k..]) == knots[order[k]] + KnotCount(knots, order[k + 1..])
  {
    assert order[..k + 1] == order[..k] + [order[k]];
    assert order[k..][1..] == order[k + 1..];
    assert order[k] in order;
  }

  lemma OrderEnds(knots: map<Connection, nat>, order: seq<Connection>)
    requires IsOrderOf(order, knots)
    ensures order[..|order|] == order && order[0..] == order && Knotted(knots, order[..0]) == {}
    ensures Knotted(knots, order) <= knots.Keys
  {
  }

  /** The store after the turns for the wires of `order`, with the given reroutes for each of them. */
  ghost function Turned(s: Store, g: string, order: seq<Connection>, idss: seq<seq<NodeBits>>): (t: Store)
    requires g in s.graphs && |idss| == |order|
    ensures g in t.graphs
  {
    if order == [] then s
    else
      var last := |order| - 1;
      var t := Turned(s, g, order[..last], idss[..last]);
      if idss[last] == [] then t else Replaced(t, g, order[last], idss[last])
  }

  /** One fresh reroute for every knot. */
  ghost predicate AreTurns(s: Store, g: string, order: seq<Connection>, idss: seq<seq<NodeBits>>)
    requires g in s.graphs
  {
    && |idss| == |order|
    && (forall k :: 0 <= k < |order| ==> TurnFits(s, g, order, idss, k))
  }

  ghost predicate TurnFits(s: Store, g: string, order: seq<Connection>, idss: seq<seq<NodeBits>>, k: nat)
    requires g in s.graphs && |idss| == |order| && k < |order|
  {
    && order[k] in s.graphs[g].knots && |idss[k]| == s.graphs[g].knots[order[k]]
    && NewChain(Turned(s, g, order[..k], idss[..k]), idss[k])
  }

  lemma TurnedStep(s: Store, g: string, order: seq<Connection>, idss: seq<seq<NodeBits>>, k: nat)
    requires g in s.graphs && k < |order| && |idss| == |order|
    ensures var t := Turned(s, g, order[..k], idss[..k]);
            Turned(s, g, order[..k + 1], idss[..k + 1]) == if idss[k] == [] then t
              else Replaced(t, g, order[k], idss[k])
  {
    hide Replaced;
    assert order[..k + 1][..k] == order[..k] && idss[..k + 1][..k] == idss[..k];
  }

  /** The turns keep the store tidy, and the nodes and wires of the walk where they are. */
  lemma {:induction false} TurnedKeepsTidy(s: Store, g: string, order: seq<Connection>, idss: seq<seq<NodeBits>>,
                                           k: nat)
    requires s.Tidy() && g in s.graphs && AreTurns(s, g, order, idss) && k <= |order|
    ensures var t := Turned(s, g, order[..k], idss[..k]);
            t.Tidy() && s.nodes.Keys <= t.nodes.Keys && t.graphs[g].knots.Keys <= s.graphs[g].knots.Keys
  {
    hide *;
    TurnedNone(s, g, order, idss);
    if k > 0 {
      TurnedKeepsTidy(s, g, order, idss, k - 1);
      TurnedStep(s, g, order, idss, k - 1);
      TurnFacts(s, g, order, idss, k - 1);
      KnotEnds(s, g, order[k - 1]);
      if idss[k - 1] != [] {
        ReplacedKeepsTidy(Turned(s, g, order[..k - 1], idss[..k - 1]), g, order[k - 1], idss[k - 1]);
      }
    }
  }

  lemma TurnFacts(s: Store, g: string, order: seq<Connection>, idss: seq<seq<NodeBits>>, k: nat)
    requires g in s.graphs && AreTurns(s, g, order, idss) && k < |order|
    ensures |idss| == |order| && order[k] in s.graphs[g].knots && |idss[k]| == s.graphs[g].knots[order[k]]
    ensures NewChain(Turned(s, g, order[..k], idss[..k]), idss[k])
    ensures KnotsOffReroutes(s, g) && idss[k] != [] ==> order[k].toNode !in s.Reroutes()
  {
    assert TurnFits(s, g, order, idss, k);
    hide NewChain, Turned;
  }

  lemma TurnedNone(s: Store, g: string, order: seq<Connection>, idss: seq<seq<NodeBits>>)
    requires g in s.graphs && AreTurns(s, g, order, idss)
    ensures |idss| == |order| && Turned(s, g, order[..0], idss[..0]) == s
  {
  }

  lemma KnotEnds(s: Store, g: string, c: Connection)
    requires s.Tidy() && g in s.graphs && c in s.graphs[g].knots
    ensures c.fromNode in s.nodes && c.toNode in s.nodes
  {
    assert s.GraphSound(g);
    assert s.Holds(g, c.fromNode) && s.Holds(g, c.toNode);
  }

  /** One more turn done. */
  lemma TurnsSnoc(s: Store, g: string, order: seq<Connection>, k: nat, idss: seq<seq<NodeBits>>, ids: seq<NodeBits>)
    requires g in s.graphs && k < |order| && AreTurns(s, g, order[..k], idss) && order[k] in s.graphs[g].knots
    requires |ids| == s.graphs[g].knots[order[k]] && NewChain(Turned(s, g, order[..k], idss), ids)
    ensures var more := idss + [ids];
            && AreTurns(s, g, order[..k + 1], more)
            && Turned(s, g, order[..k + 1], more)
               == if ids == [] then Turned(s, g, order[..k], idss)
                 else Replaced(Turned(s, g, order[..k], idss), g, order[k], ids)
  {
    hide *;
    var next, more := order[..k + 1], idss + [ids];
    TurnsLength(s, g, order[..k], idss);
    assert next[..k] == order[..k] && more[..k] == idss && more[k] == ids && next[k] == order[k];
    assert next[..k + 1] == next && more[..k + 1] == more;
    TurnedStep(s, g, next, more, k);
    forall j | 0 <= j < |next| ensures TurnFits(s, g, next, more, j) {
      if j < k {
        assert next[..j] == order[..k][..j] && more[..j] == idss[..j];
        SameTurnFits(s, g, order[..k], idss, next, more, j);
      } else {
        TurnFitsIs(s, g, next, more, k);
      }
    }
    AreTurnsIs(s, g, next, more);
    AreTurnsIs(s, g, order[..k], idss);
  }

  lemma TurnsLength(s: Store, g: string, order: seq<Connection>, idss: seq<seq<NodeBits>>)
    requires g in s.graphs && AreTurns(s, g, order, idss)
    ensures |idss| == |order| && forall k :: 0 <= k < |order| ==> TurnFits(s, g, order, idss, k)
  {
  }

  lemma TurnFitsIs(s: Store, g: string, order: seq<Connection>, idss: seq<seq<NodeBits>>, k: nat)
    requires g in s.graphs && |idss| == |order| && k < |order|
    ensures TurnFits(s, g, order, idss, k) <==>
            && order[k] in s.graphs[g].knots && |idss[k]| == s.graphs[g].knots[order[k]]
            && NewChain(Turned(s, g, order[..k], idss[..k]), idss[k])
  {
    hide Turned, NewChain;
  }

  lemma AreTurnsIs(s: Store, g: string, order: seq<Connection>, idss: seq<seq<NodeBits>>)
    requires g in s.graphs && |idss| == |order|
    ensures AreTurns(s, g, order, idss) <==> forall k :: 0 <= k < |order| ==> TurnFits(s, g, order, idss, k)
  {
    hide Turned, NewChain;
  }

  lemma SameTurnFits(s: Store, g: string, order: seq<Connection>, idss: seq<seq<NodeBits>>,
                     next: seq<Connection>, more: seq<seq<NodeBits>>, k: nat)
    requires g in s.graphs && |idss| == |order| && |more| == |next| && k < |order| && k < |next|
    requires order[..k] == next[..k] && idss[..k] == more[..k] && order[k] == next[k] && idss[k] == more[k]
    requires TurnFits(s, g, order, idss, k)
    ensures TurnFits(s, g, next, more, k)
  {
    hide *;
    TurnFitsIs(s, g, order, idss, k);
    TurnFitsIs(s, g, next, more, k);
  }

  lemma NoTurns(s: Store, g: string, order: seq<Connection>)
    requires g in s.graphs
    ensures AreTurns(s, g, order[..0], []) && Turned(s, g, order[..0], []) == s && order[..|order|] == order
  {
  }

  lemma NoChain(s: Store)
    ensures NewChain(s, [])
  {
  }

  /** The walk over the knots, on the snapshot that the erasures do not touch. */
  method ReplaceWires(o: Orchestration, g: string, order: seq<Connection>) returns (idss: seq<seq<NodeBits>>)
    requires o.Valid() && o.state.Tidy() && g in o.graphs && IsOrderOf(order, o.graphs[g].knots)
    requires KnotCount(o.graphs[g].knots, order) < NODE_LIMIT
    requires forall n :: n in o.nodes ==> n + KnotCount(o.graphs[g].knots, order) < NODE_LIMIT
    modifies o`nodes, o`state, o.cache, o.graphs.Values
    ensures o.Valid() && g in old(o.state).graphs
    ensures AreTurns(old(o.state), g, order, idss) && o.state == Turned(old(o.state), g, order, idss)
  {
    hide *;
    o.Fields();
    o.GraphFields(g);
    ghost var s := o.state;
    var knots := o.graphs[g].knots;
    OrderEnds(knots, order);
    NoTurns(s, g, order);
    idss := [];
    for k := 0 to |order|
      invariant o.Valid() && AreTurns(s, g, order[..k], idss) && |idss| == k
                && o.state == Turned(s, g, order[..k], idss)
      invariant KnotCount(knots, order[k..]) < NODE_LIMIT
      invariant forall n :: n in o.nodes ==> n + KnotCount(knots, order[k..]) < NODE_LIMIT
    {
      var c := order[k];
      OrderStep(knots, order, k);
      TurnedAllTidy(s, g, order[..k], idss);
      TidyIs(o.state);
      KnotEnds(s, g, c);
      ghost var t := o.state;
      o.Fields();
      var ids: seq<NodeBits> := [];
      NoChain(t);
      if knots[c] > 0 {
        ids := ReplaceWire(o, g, c, knots[c], KnotCount(knots, order[k + 1..]));
      }
      TurnsSnoc(s, g, order, k, idss, ids);
      idss := idss + [ids];
      o.Fields();
    }
  }

  lemma TurnedAllTidy(s: Store, g: string, order: seq<Connection>, idss: seq<seq<NodeBits>>)
    requires s.Tidy() && g in s.graphs && AreTurns(s, g, order, idss)
    ensures |idss| == |order|
    ensures var t := Turned(s, g, order, idss);
            t.Tidy() && s.nodes.Keys <= t.nodes.Keys && t.graphs[g].knots.Keys <= s.graphs[g].knots.Keys
  {
    TurnedKeepsTidy(s, g, order, idss, |order|);
    assert order[..|order|] == order && idss[..|order|] == idss;
  }

  /** The nodes a knotted wire joins are no reroutes: files with knots are older than reroutes. */
  ghost predicate KnotsOffReroutes(s: Store, g: string)
    requires g in s.graphs
  {
    forall c :: c in s.graphs[g].knots && s.graphs[g].knots[c] > 0 ==>
      c.fromNode !in s.Reroutes() && c.toNode !in s.Reroutes()
  }

  /** There are ids left for the reroutes. */
  ghost predicate RoomFor(s: Store, count: nat) {
    count < NODE_LIMIT && forall n :: n in s.nodes ==> n + count < NODE_LIMIT
  }

  /** `t` is `s` after the turns for all knots of graph `g`, in some order, with the knots cleared. */
  ghost predicate UpgradeTaken(s: Store, t: Store, g: string, order: seq<Connection>, idss: seq<seq<NodeBits>>)
    requires g in s.graphs
  {
    && IsOrderOf(order, s.graphs[g].knots) && AreTurns(s, g, order, idss)
    && t == Turned(s, g, order, idss).SetKnots(g, map[])
  }

  /** `_upgrade`: graphs from version 4 on stay as they are. */
  method Upgrade(o: Orchestration, g: string, oldVersion: nat, order: seq<Connection>)
      returns (idss: seq<seq<NodeBits>>)
    requires o.Valid() && o.state.Tidy() && g in o.graphs && g in o.state.graphs
    requires IsOrderOf(order, o.state.graphs[g].knots)
    requires RoomFor(o.state, KnotCount(o.state.graphs[g].knots, order))
    modifies o`nodes, o`state, o.cache, o.graphs.Values
    ensures o.Valid() && g in old(o.state).graphs
    ensures oldVersion >= 4 ==> o.state == old(o.state)
    ensures oldVersion < 4 ==> UpgradeTaken(old(o.state), o.state, g, order, idss)
  {
    hide *;
    o.Fields();
    o.GraphFields(g);
    ghost var s := o.state;
    idss := [];
    RoomMeans(s, KnotCount(s.graphs[g].knots, order));
    if oldVersion < 4 {
      if o.graphs[g].knots != map[] {
        idss := ReplaceWires(o, g, order);
        TurnedGraph(s, g, order, idss);
        o.Fields();
        TakenParts(s, g, order, idss);
        ClearKnots(o, g);
      } else {
        NoKnots(s, g, order);
      }
    }
  }

  lemma RoomMeans(s: Store, count: nat)
    requires RoomFor(s, count)
    ensures count < NODE_LIMIT && forall n :: n in s.nodes ==> n + count < NODE_LIMIT
  {
  }

  lemma TurnedGraph(s: Store, g: string, order: seq<Connection>, idss: seq<seq<NodeBits>>)
    requires g in s.graphs && AreTurns(s, g, order, idss)
    ensures |idss| == |order| && g in Turned(s, g, order, idss).graphs
  {
  }

  lemma TakenParts(s: Store, g: string, order: seq<Connection>, idss: seq<seq<NodeBits>>)
    requires g in s.graphs && IsOrderOf(order, s.graphs[g].knots) && AreTurns(s, g, order, idss) && |idss| == |order|
    ensures var t := Turned(s, g, order, idss);
            g in t.graphs && UpgradeTaken(s, t.(graphs := t.graphs[g := t.graphs[g].(knots := map[])]), g, order, idss)
  {
    hide Turned, AreTurns, IsOrderOf;
  }

  lemma EmptyOrder(order: seq<Connection>, knots: map<Connection, nat>)
    requires IsOrderOf(order, knots)
    ensures order == [] <==> knots == map[]
  {
    if order != [] {
      assert order[0] in order;
    } else {
      assert forall c :: c !in knots;
    }
  }

  lemma NoKnots(s: Store, g: string, order: seq<Connection>)
    requires g in s.graphs && s.graphs[g].knots == map[] && IsOrderOf(order, s.graphs[g].knots)
    ensures UpgradeTaken(s, s, g, order, [])
  {
    EmptyOrder(order, s.graphs[g].knots);
    assert s.SetKnots(g, map[]) == s;
  }

  method ClearKnots(o: Orchestration, g: string)
    requires o.Valid() && g in o.graphs
    modifies o`state, o.graphs[g]
    ensures o.Valid() && g in old(o.state).graphs
    ensures o.state == old(o.state).(graphs := old(o.state).graphs[g := old(o.state).graphs[g].(knots := map[])])
  {
    o.graphs[g].ClearKnots();
    o.state := o.state.(graphs := o.state.graphs[g := o.state.graphs[g].(knots := map[])]);
  }

  /**
    `t` is `s` after the upgrade of graph `g`: each knotted wire has become a chain with one fresh
    reroute per knot, of the wire's type, and the knots are gone; everything else is as it was.
   */
  ghost predicate UpgradedBy(s: Store, t: Store, g: string, chains: Chains)
    requires g in s.graphs
  {
    && Upgraded(s, t, g, chains, map[])
    && (forall c :: c in chains <==> c in s.graphs[g].knots && s.graphs[g].knots[c] > 0)
    && (forall c :: c in chains ==> |chains[c]| == s.graphs[g].knots[c])
  }

  /** The chains of all the turns together. */
  function ChainsOf(order: seq<Connection>, idss: seq<seq<NodeBits>>): Chains
    requires |idss| == |order|
  {
    if order == [] then map[] else
    var last := |order| - 1;
    var rest := ChainsOf(order[..last], idss[..last]);
    if idss[last] == [] then rest else rest[order[last] := idss[last]]
  }

  lemma ChainsStep(order: seq<Connection>, idss: seq<seq<NodeBits>>, k: nat)
    requires |idss| == |order| && k < |order|
    ensures var rest := ChainsOf(order[..k], idss[..k]);
            ChainsOf(order[..k + 1], idss[..k + 1]) == if idss[k] == [] then rest else rest[order[k] := idss[k]]
  {
    assert order[..k + 1][..k] == order[..k] && idss[..k + 1][..k] == idss[..k];
  }

  /** What the turns so far amount to, when the knotted wires do not touch reroutes. */
  ghost predicate AmountTo(s: Store, t: Store, g: string, order: seq<Connection>, chains: Chains)
    requires g in s.graphs && g in t.graphs
  {
    && Upgraded(s, t, g, chains, t.graphs[g].knots)
    && chains.Keys == Knotted(s.graphs[g].knots, order)
    && forall c :: c in chains ==> c in s.graphs[g].knots && |chains[c]| == s.graphs[g].knots[c]
  }

  lemma {:induction false} TurnedIsUpgraded(s: Store, g: string, order: seq<Connection>, idss: seq<seq<NodeBits>>,
                                            k: nat)
    requires s.Tidy() && g in s.graphs && IsOrderOf(order, s.graphs[g].knots) && AreTurns(s, g, order, idss)
    requires KnotsOffReroutes(s, g) && k <= |order|
    ensures AmountTo(s, Turned(s, g, order[..k], idss[..k]), g, order[..k], ChainsOf(order[..k], idss[..k]))
  {
    hide *;
    TurnedGraph(s, g, order, idss);
    OrderEnds(s.graphs[g].knots, order);
    if k == 0 {
      NothingTurned(s, g, order, idss);
    } else {
      TurnedIsUpgraded(s, g, order, idss, k - 1);
      TurnedStep(s, g, order, idss, k - 1);
      ChainsStep(order, idss, k - 1);
      OrderStep(s.graphs[g].knots, order, k - 1);
      TurnFacts(s, g, order, idss, k - 1);
      AmountStep(s, Turned(s, g, order[..k - 1], idss[..k - 1]), g, order, k - 1,
                 ChainsOf(order[..k - 1], idss[..k - 1]), idss[k - 1]);
    }
  }

  lemma NothingTurned(s: Store, g: string, order: seq<Connection>, idss: seq<seq<NodeBits>>)
    requires g in s.graphs && |idss| == |order|
    ensures AmountTo(s, Turned(s, g, order[..0], idss[..0]), g, order[..0], ChainsOf(order[..0], idss[..0]))
  {
    UpgradedNothing(s, g);
    hide Upgraded;
  }

  lemma AmountStep(s: Store, t: Store, g: string, order: seq<Connection>, k: nat, chains: Chains, ids: seq<NodeBits>)
    requires s.Tidy() && g in s.graphs && g in t.graphs && k < |order| && AmountTo(s, t, g, order[..k], chains)
    requires order[k] in s.graphs[g].knots && |ids| == s.graphs[g].knots[order[k]] && NewChain(t, ids)
    requires ids != [] ==> order[k].toNode !in s.Reroutes()
    requires order[k] !in Knotted(s.graphs[g].knots, order[..k])
    requires Knotted(s.graphs[g].knots, order[..k + 1])
             == Knotted(s.graphs[g].knots, order[..k]) + if s.graphs[g].knots[order[k]] > 0 then {order[k]} else {}
    ensures ids == [] ==> AmountTo(s, t, g, order[..k + 1], chains)
    ensures ids != [] ==> AmountTo(s, Replaced(t, g, order[k], ids), g, order[..k + 1], chains[order[k] := ids])
  {
    hide *;
    AmountIs(s, t, g, order[..k], chains);
    if ids != [] {
      UpgradedStep(s, t, g, chains, order[k], ids);
      AmountIs(s, Replaced(t, g, order[k], ids), g, order[..k + 1], chains[order[k] := ids]);
    } else {
      AmountIs(s, t, g, order[..k + 1], chains);
    }
  }

  lemma AmountIs(s: Store, t: Store, g: string, order: seq<Connection>, chains: Chains)
    requires g in s.graphs && g in t.graphs
    ensures AmountTo(s, t, g, order, chains) <==>
            && Upgraded(s, t, g, chains, t.graphs[g].knots)
            && chains.Keys == Knotted(s.graphs[g].knots, order)
            && forall c :: c in chains ==> c in s.graphs[g].knots && |chains[c]| == s.graphs[g].knots[c]
  {
    hide Upgraded, Knotted;
  }

  /** Where the knotted wires do not touch reroutes, that is the upgrade of the graph. */
  lemma TakenIsUpgraded(s: Store, t: Store, g: string, order: seq<Connection>, idss: seq<seq<NodeBits>>)
    requires s.Tidy() && g in s.graphs && UpgradeTaken(s, t, g, order, idss) && KnotsOffReroutes(s, g)
    ensures |idss| == |order| && UpgradedBy(s, t, g, ChainsOf(order, idss))
  {
    TurnedIsUpgraded(s, g, order, idss, |order|);
    assert order[..|order|] == order && idss[..|order|] == idss;
    hide Turned, AreTurns, ChainsOf, KnotsOffReroutes;
    UpgradedKnots(s, Turned(s, g, order, idss), g, ChainsOf(order, idss), order);
  }

  lemma UpgradedKnots(s: Store, t: Store, g: string, chains: Chains, order: seq<Connection>)
    requires g in s.graphs && g in t.graphs && AmountTo(s, t, g, order, chains) && IsOrderOf(order, s.graphs[g].knots)
    ensures UpgradedBy(s, t.SetKnots(g, map[]), g, chains)
  {
  }
}
