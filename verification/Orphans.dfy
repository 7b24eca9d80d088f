/**
  The repair of a loaded orchestration (`Orchestration::_fix_orphans` of
  `src/orchestration/orchestration.cpp`): nodes that no graph holds are put back next to a neighbour or
  removed, and connections to missing nodes are erased.
 */
module Orphans {
  import opened Connections
  import opened ConnectionCaches
  import opened Nodes
  import opened Stores
  import opened Graphs
  import opened Orchestrations
  import opened GraphEdits

  type GraphMap = map<string, GraphState>

  predicate Held(graphs: GraphMap, g: string, id: int) {
    g in graphs && id in graphs[g].nodes
  }

  ghost predicate Orphan(graphs: GraphMap, id: int) {
    forall g :: !Held(graphs, g, id)
  }

  /** A wire of the node with an end in graph `g`. */
  ghost predicate Rescues(conns: set<Connection>, graphs: GraphMap, id: int, c: Connection, g: string) {
    c in conns && c.IsLinkedTo(id) && (Held(graphs, g, c.fromNode) || Held(graphs, g, c.toNode))
  }

  /** Of the wires that could rescue the node, the first in the order of the set decides. */
  ghost predicate FirstRescue(conns: set<Connection>, graphs: GraphMap, id: int, c: Connection, g: string) {
    && Rescues(conns, graphs, id, c, g)
    && forall d, h :: Rescues(conns, graphs, id, d, h) ==> c.Id() <= d.Id()
  }

  ghost predicate Rescuable(conns: set<Connection>, graphs: GraphMap, id: int) {
    exists c, g :: Rescues(conns, graphs, id, c, g)
  }

  /** The graphs so far, and the nodes found to be beyond help. */
  datatype Sweep = Sweep(graphs: GraphMap, orphans: set<int>)

  /** One turn of the loop over the nodes. */
  ghost predicate VisitStep(s: Store, v: Sweep, id: int, w: Sweep)
    requires id in s.nodes
  {
    if !Orphan(v.graphs, id) then w == v
    else if Rescuable(s.conns, v.graphs, id) then
      exists c, g :: FirstRescue(s.conns, v.graphs, id, c, g)
        && w == v.(graphs := v.graphs[g := v.graphs[g].Add(s.nodes[id])])
    else w == v.(orphans := v.orphans + {id})
  }

  /** The loop over the nodes, visited in the given order. */
  ghost predicate Visited(s: Store, order: seq<int>, w: Sweep)
    requires forall i :: 0 <= i < |order| ==> order[i] in s.nodes
  {
    if order == [] then w == Sweep(s.graphs, {})
    else
      var init, id := order[..|order| - 1], order[|order| - 1];
      exists v :: VisitStep(s, v, id, w) && Visited(s, init, v)
  }

  /** The store after a sweep: orphans removed, and with them the connections to nodes that are missing. */
  function Swept(s: Store, w: Sweep): Store {
    var nodes := s.nodes - w.orphans;
    Store((set c | c in s.conns && c.fromNode in nodes && c.toNode in nodes), nodes, w.graphs, s.functions)
  }

  function WithoutDangling(s: Store): Store {
    s.(conns := set c | c in s.conns && c.fromNode in s.nodes && c.toNode in s.nodes)
  }

  /** An order in which the map can yield the nodes. */
  ghost predicate IsNodeOrder(s: Store, order: seq<int>) {
    && (forall i, j :: 0 <= i < j < |order| ==> order[i] != order[j])
    && (forall i :: 0 <= i < |order| ==> order[i] in s.nodes)
    && Ids(order) == s.nodes.Keys
  }

  ghost predicate FixedBy(s: Store, order: seq<int>, t: Store) {
    IsNodeOrder(s, order) && exists w :: Visited(s, order, w) && t == Swept(s, w)
  }

  // ----- The code -----

  /** The first graph found that holds an end of the wire. */
  method HolderOfEnd(o: Orchestration, c: Connection) returns (r: Option<string>)
    requires o.Valid()
    ensures r.Some? ==> Held(o.state.graphs, r.value, c.fromNode) || Held(o.state.graphs, r.value, c.toNode)
    ensures r.None? ==> forall g :: !Held(o.state.graphs, g, c.fromNode) && !Held(o.state.graphs, g, c.toNode)
  {
    var todo := o.graphs.Keys;
    while todo != {}
      invariant todo <= o.graphs.Keys
      invariant forall g :: g in o.graphs && g !in todo ==>
                c.fromNode !in o.graphs[g].nodes && c.toNode !in o.graphs[g].nodes
      decreases todo
    {
      var g :| g in todo;
      if c.toNode in o.graphs[g].nodes || c.fromNode in o.graphs[g].nodes {
        return Some(g);
      }
      todo := todo - {g};
    }
    return None;
  }

  /** The first wire in the order that helps is the first rescue. */
  lemma FirstFound(conns: set<Connection>, graphs: GraphMap, id: int, order: seq<Connection>, k: nat, g: string)
    requires order == Sorted(conns) && k < |order| && Rescues(conns, graphs, id, order[k], g)
    requires forall j, h :: 0 <= j < k ==> !Rescues(conns, graphs, id, order[j], h)
    ensures FirstRescue(conns, graphs, id, order[k], g)
  {
    hide Connection.Id, Sorted, Held;
    forall d, h | Rescues(conns, graphs, id, d, h) ensures order[k].Id() <= d.Id() {
      var j :| 0 <= j < |order| && order[j] == d;
      assert j > k ==> order[k].Id() < order[j].Id();
    }
  }

  lemma NoneFound(conns: set<Connection>, graphs: GraphMap, id: int, order: seq<Connection>)
    requires order == Sorted(conns)
    requires forall j, h :: 0 <= j < |order| ==> !Rescues(conns, graphs, id, order[j], h)
    ensures !Rescuable(conns, graphs, id)
  {
    forall d, h ensures !Rescues(conns, graphs, id, d, h) {
      if d in conns {
        var j :| 0 <= j < |order| && order[j] == d;
      }
    }
  }

  /** The loops that look for a graph to put an orphan back into. */
  method FindHome(o: Orchestration, id: int) returns (home: Option<string>)
    requires o.Valid()
    ensures home.Some? ==> exists c :: FirstRescue(o.state.conns, o.state.graphs, id, c, home.value)
    ensures home.None? ==> !Rescuable(o.state.conns, o.state.graphs, id)
  {
    o.Fields();
    hide Orchestration.Valid, FirstRescue, Rescuable, Held;
    ghost var conns, graphs := o.state.conns, o.state.graphs;
    var order := Sorted(o.cache.connections);
    for k := 0 to |order|
      invariant forall j, g :: 0 <= j < k ==> !Rescues(conns, graphs, id, order[j], g)
    {
      if order[k].IsLinkedTo(id) {
        home := HolderOfEnd(o, order[k]);
        if home.Some? {
          assert Rescues(conns, graphs, id, order[k], home.value);
          hide Rescues;
          FirstFound(conns, graphs, id, order, k, home.value);
          return;
        }
      }
    }
    hide Rescues;
    NoneFound(conns, graphs, id, order);
    home := None;
  }

  /** One turn of the loop over the nodes. */
  method VisitNode(o: Orchestration, id: int, ghost s: Store, orphans: set<int>) returns (more: set<int>)
    requires o.Valid() && id in o.nodes && s.conns == o.state.conns && s.nodes == o.state.nodes && id in s.nodes
    modifies o`state, o.graphs.Values
    ensures o.Valid() && o.state == old(o.state).(graphs := o.state.graphs)
    ensures VisitStep(s, Sweep(old(o.state).graphs, orphans), id, Sweep(o.state.graphs, more))
  {
    hide *;
    o.Fields();
    ghost var graphs := o.state.graphs;
    var holder := o.FindGraph(id);
    HeldIsHolds(o.state, id);
    if holder.Some? {
      Stays(s, Sweep(graphs, orphans), id, holder.value);
      return orphans;
    }
    var home := FindHome(o, id);
    match home
    case None =>
      Lost(s, Sweep(graphs, orphans), id);
      return orphans + {id};
    case Some(g) =>
      Found(s, Sweep(graphs, orphans), id, g);
      JoinGraph(o, g, o.nodes[id]);
      return orphans;
  }

  lemma HeldIsHolds(s: Store, id: int)
    ensures forall g :: s.Holds(g, id) <==> Held(s.graphs, g, id)
    ensures (forall g :: !s.Holds(g, id)) ==> Orphan(s.graphs, id)
  {
  }

  lemma Stays(s: Store, v: Sweep, id: int, g: string)
    requires id in s.nodes && Held(v.graphs, g, id)
    ensures VisitStep(s, v, id, v)
  {
  }

  lemma Lost(s: Store, v: Sweep, id: int)
    requires id in s.nodes && Orphan(v.graphs, id) && !Rescuable(s.conns, v.graphs, id)
    ensures VisitStep(s, v, id, v.(orphans := v.orphans + {id}))
  {
  }

  lemma Found(s: Store, v: Sweep, id: int, g: string)
    requires id in s.nodes && Orphan(v.graphs, id) && exists c :: FirstRescue(s.conns, v.graphs, id, c, g)
    ensures g in v.graphs && VisitStep(s, v, id, v.(graphs := v.graphs[g := v.graphs[g].Add(s.nodes[id])]))
  {
    var c :| FirstRescue(s.conns, v.graphs, id, c, g);
    assert Rescues(s.conns, v.graphs, id, c, g);
  }

  /** The last loop: connections to missing nodes are erased. */
  method EraseDangling(o: Orchestration)
    requires o.Valid()
    modifies o`state, o.cache
    ensures o.Valid() && o.state == old(WithoutDangling(o.state))
  {
    var order := Sorted(o.cache.connections);
    var removals: seq<Connection> := [];
    for k := 0 to |order|
      invariant forall c :: c in removals <==> c in order[..k] && (c.fromNode !in o.nodes || c.toNode !in o.nodes)
    {
      assert order[..k + 1] == order[..k] + [order[k]];
      if order[k].fromNode !in o.nodes || order[k].toNode !in o.nodes {
        removals := removals + [order[k]];
      }
    }
    assert order[..|order|] == order;
    o.Fields();
    ghost var kept := WithoutDangling(o.state);
    assert o.state.conns - (set c | c in removals) == kept.conns;
    EraseAll(o.cache, removals);
    o.state := kept;
  }

  method EraseNodes(o: Orchestration, ids: set<int>)
    requires o.Valid()
    modifies o`nodes, o`state
    ensures o.Valid() && o.state == old(o.state).(nodes := old(o.state).nodes - ids)
  {
    o.nodes := o.nodes - ids;
    o.state := o.state.(nodes := o.state.nodes - ids);
  }

  lemma VisitNext(s: Store, order: seq<int>, k: nat, v: Sweep, w: Sweep)
    requires k < |order| && forall i :: 0 <= i < |order| ==> order[i] in s.nodes
    requires Visited(s, order[..k], v) && VisitStep(s, v, order[k], w)
    ensures Visited(s, order[..k + 1], w)
  {
    var next := order[..k + 1];
    assert next[..|next| - 1] == order[..k] && next[|next| - 1] == order[k];
  }

  lemma VisitNone(s: Store, order: seq<int>)
    ensures order[..0] == [] && order[..|order|] == order && Visited(s, [], Sweep(s.graphs, {}))
    ensures IsNodeOrder(s, order) ==> forall i :: 0 <= i < |order| ==> order[i] in s.nodes
  {
  }

  lemma SweptInSteps(s: Store, order: seq<int>, t: Store, orphans: set<int>)
    requires IsNodeOrder(s, order) && t == s.(graphs := t.graphs) && Visited(s, order, Sweep(t.graphs, orphans))
    ensures var u := t.(nodes := t.nodes - orphans);
            FixedBy(s, order, WithoutDangling(u))
  {
    var u := t.(nodes := t.nodes - orphans);
    assert WithoutDangling(u) == Swept(s, Sweep(t.graphs, orphans));
  }

  /** `_fix_orphans`, visiting the nodes in the given order. */
  method FixOrphans(o: Orchestration, order: seq<int>)
    requires o.Valid() && IsNodeOrder(o.state, order)
    modifies o`nodes, o`state, o.cache, o.graphs.Values
    ensures o.Valid() && FixedBy(old(o.state), order, o.state)
  {
    hide *;
    ghost var s := o.state;
    var orphans: set<int> := {};
    VisitNone(s, order);
    for k := 0 to |order|
      invariant o.Valid() && o.state == s.(graphs := o.state.graphs)
      invariant Visited(s, order[..k], Sweep(o.state.graphs, orphans))
    {
      ghost var v := Sweep(o.state.graphs, orphans);
      o.Fields();
      orphans := VisitNode(o, order[k], s, orphans);
      VisitNext(s, order, k, v, Sweep(o.state.graphs, orphans));
    }
    SweptInSteps(s, order, o.state, orphans);
    EraseNodes(o, orphans);
    EraseDangling(o);
  }
}
