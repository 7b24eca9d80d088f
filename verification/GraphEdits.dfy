/**
  Edits of whole graphs and functions: creating, renaming and removing graphs, emptying them, moving
  nodes between them, and removing functions (`src/orchestration/orchestration.cpp`,
  `src/orchestration/graph.cpp`).
 */
module GraphEdits {
  import opened Connections
  import opened Nodes
  import opened Stores
  import opened Graphs
  import opened Orchestrations

  // ----- Creating and renaming -----

  /** `create_graph`: taken, empty and malformed names are refused. */
  method CreateGraph(o: Orchestration, name: string, functionGraph: bool, eventGraph: bool) returns (created: bool)
    requires o.Valid()
    modifies o`graphs, o`state
    ensures o.Valid() && o.state == old(o.state).CreateGraph(name, functionGraph, eventGraph)
    ensures created <==> name !in old(o.state).graphs && IsIdentifier(name)
    ensures fresh(o.graphs.Values - old(o.graphs.Values))
  {
    if name in o.graphs || !IsIdentifier(name) {
      return false;
    }
    var graph := new OScriptGraph(name, functionGraph, eventGraph);
    o.graphs := o.graphs[name := graph];
    o.state := o.state.CreateGraph(name, functionGraph, eventGraph);
    created := true;
  }

  /** `rename_graph` */
  method RenameGraph(o: Orchestration, oldName: string, newName: string) returns (renamed: bool)
    requires o.Valid()
    modifies o`graphs, o`state, o.graphs.Values
    ensures o.Valid() && o.state == old(o.state).RenameGraph(oldName, newName)
    ensures o.graphs.Values <= old(o.graphs.Values)
    ensures renamed <==> oldName in old(o.graphs) && newName !in old(o.graphs) && IsIdentifier(newName)
  {
    if oldName !in o.graphs || newName in o.graphs || !IsIdentifier(newName) {
      return false;
    }
    var graph := o.graphs[oldName];
    ghost var view := graph.View();
    assert forall g :: g in o.graphs && g != oldName ==> o.graphs[g] != graph;
    graph.SetGraphName(newName);
    assert graph.View() == view.(name := newName);
    o.graphs := o.graphs[newName := graph] - {oldName};
    o.state := o.state.RenameGraph(oldName, newName);
    renamed := true;
  }

  // ----- Moving nodes -----

  method LeaveGraph(o: Orchestration, graph: string, id: int)
    requires o.Valid() && graph in o.graphs && id in o.graphs[graph].nodes
    modifies o`state, o.graphs[graph]
    ensures o.Valid()
    ensures o.state == old(o.state).(graphs := old(o.state).graphs[graph := old(o.state).graphs[graph].Without({id})])
  {
    o.graphs[graph].RemoveNode(id);
    o.state := o.state.(graphs := o.state.graphs[graph := o.state.graphs[graph].Without({id})]);
  }

  method JoinGraph(o: Orchestration, graph: string, node: NodeState)
    requires o.Valid() && graph in o.graphs
    modifies o`state, o.graphs[graph]
    ensures o.Valid()
    ensures o.state == old(o.state).(graphs := old(o.state).graphs[graph := old(o.state).graphs[graph].Add(node)])
  {
    o.graphs[graph].AddNode(node);
    o.state := o.state.(graphs := o.state.graphs[graph := o.state.graphs[graph].Add(node)]);
  }

  lemma MovedInSteps(s: Store, id: int, source: string, target: string)
    requires source in s.graphs && target in s.graphs
    ensures s.MoveNode(id, source, target) ==
            if id !in s.nodes || id !in s.graphs[source].nodes || source == target then s
            else var t := s.(graphs := s.graphs[source := s.graphs[source].Without({id})]);
                 t.(graphs := t.graphs[target := t.graphs[target].Add(t.nodes[id])])
  {
  }

  /** `move_node_to` */
  method MoveNodeTo(o: Orchestration, id: int, source: string, target: string)
    requires o.Valid() && source in o.graphs && target in o.graphs
    modifies o`state, o.graphs.Values
    ensures o.Valid() && o.state == old(o.state).MoveNode(id, source, target)
  {
    hide *;
    o.Fields();
    o.GraphFields(source);
    o.GraphFields(target);
    MovedInSteps(o.state, id, source, target);
    var from, to := o.graphs[source], o.graphs[target];
    if id !in o.nodes || id !in from.nodes || to == from {
      return;
    }
    LeaveGraph(o, source, id);
    JoinGraph(o, target, o.nodes[id]);
  }

  /** The node is then in the target and nowhere else, the others where they were; nothing but the graphs changes. */
  lemma MoveNodeMeans(s: Store, id: int, source: string, target: string)
    requires s.Tidy() && source in s.graphs && target in s.graphs && s.Holds(source, id) && source != target
    ensures var t := s.MoveNode(id, source, target);
            && t == s.(graphs := t.graphs) && t.graphs.Keys == s.graphs.Keys
            && (forall g, n :: t.Holds(g, n) <==> if n == id then g == target else s.Holds(g, n))
            && (forall g, c :: g in s.graphs ==>
                  (c in t.graphs[g].knots <==> c in s.graphs[g].knots && (g == source ==> !c.IsLinkedTo(id))))
            && (forall g :: g in s.graphs && g != source && g != target ==> t.graphs[g] == s.graphs[g])
  {
    assert s.nodes[id].id == id;
    assert forall g :: s.Holds(g, id) ==> g == source;
    var t := s.MoveNode(id, source, target);
    assert id in s.nodes && t.graphs.Keys == s.graphs.Keys;
    assert t.graphs[source].nodes == s.graphs[source].nodes - {id};
    assert t.graphs[target].nodes == s.graphs[target].nodes + {id};
    forall g, n ensures t.Holds(g, n) <==> if n == id then g == target else s.Holds(g, n) {
      assert g in t.graphs <==> g in s.graphs;
      assert n == id && g != source ==> !s.Holds(g, n);
    }
  }

  /** The graph is then filed under its new name, with everything in it. */
  lemma RenameGraphMeans(s: Store, oldName: string, newName: string)
    requires oldName in s.graphs && newName !in s.graphs && IsIdentifier(newName)
    ensures var t := s.RenameGraph(oldName, newName);
            && t == s.(graphs := t.graphs) && t.graphs.Keys == s.graphs.Keys - {oldName} + {newName}
            && t.graphs[newName] == s.graphs[oldName].(name := newName)
            && (forall g :: g in s.graphs && g != oldName ==> t.graphs[g] == s.graphs[g])
  {
    hide IsIdentifier;
  }

  // ----- Emptying and removing graphs -----

  /** Removing one more node of a graph that is being emptied. */
  lemma RemoveAllStep(s: Store, name: string, left: set<int>, id: int)
    requires s.Tidy() && name in s.graphs && left <= s.graphs[name].nodes && id in left
    ensures var t := s.WithoutNodes(s.graphs[name].nodes - left);
            && t.Tidy() && name in t.graphs && t.graphs[name].nodes == left && id in t.nodes
            && t.RemoveNode(id) == s.WithoutNodes(s.graphs[name].nodes - (left - {id}))
  {
    var all := s.graphs[name].nodes;
    WithoutNodesKeepsTidy(s, all - left);
    assert s.Holds(name, id);
    assert all - (all - left) == left;
    assert (all - left) + {id} == all - (left - {id});
    WithoutNodesTwice(s, all - left, {id});
  }

  /** Before the first and after the last turn. */
  lemma RemoveAllEnds(s: Store, name: string)
    requires name in s.graphs
    ensures s.WithoutNodes(s.graphs[name].nodes - s.graphs[name].nodes) == s
    ensures s.graphs[name].nodes - {} == s.graphs[name].nodes
  {
    var t := s.WithoutNodes({});
    assert s.graphs[name].nodes - s.graphs[name].nodes == {};
    assert t.conns == s.conns && t.nodes == s.nodes && t.functions == s.functions;
    forall g | g in s.graphs ensures t.graphs[g] == s.graphs[g] {
      assert s.graphs[g].Without({}).knots == s.graphs[g].knots;
    }
    assert t.graphs == s.graphs;
  }

  /** The front of an ordered set of ids. */
  method Front(ids: set<int>) returns (id: int)
    requires ids != {}
    ensures id in ids && forall n :: n in ids ==> id <= n
  {
    assert exists n: int :: n in ids by {
      assert (forall n: int :: n !in ids) ==> ids == {};
    }
    id :| id in ids;
    var todo := ids - {id};
    while todo != {}
      invariant todo <= ids && id in ids
      invariant forall n :: n in ids && n !in todo ==> id <= n
      decreases todo
    {
      assert exists n: int :: n in todo by {
        assert (forall n: int :: n !in todo) ==> todo == {};
      }
      var n: int :| n in todo;
      id := if n < id then n else id;
      todo := todo - {n};
    }
  }

  /**
    `remove_all_nodes`: the loop asks the orchestration to remove the first node until the graph is
    empty.  It ends because the partition makes every node of the graph a node of the orchestration.
   */
  method RemoveAllNodes(o: Orchestration, name: string)
    requires o.Valid() && o.state.Tidy() && name in o.graphs
    modifies o`nodes, o`functions, o`state, o.cache, o.graphs.Values
    ensures o.Valid() && o.state == old(o.state).WithoutNodes(old(o.state).graphs[name].nodes)
  {
    hide *;
    ghost var s := o.state;
    o.Fields();
    var graph := o.graphs[name];
    o.GraphFields(name);
    RemoveAllEnds(s, name);
    while graph.nodes != {}
      invariant o.Valid() && graph.nodes <= s.graphs[name].nodes
      invariant o.state == s.WithoutNodes(s.graphs[name].nodes - graph.nodes)
      decreases graph.nodes
    {
      var id := Front(graph.nodes);
      RemoveAllStep(s, name, graph.nodes, id);
      ghost var left := graph.nodes - {id};
      o.RemoveNode(id);
      o.GraphFields(name);
      RemoveAllLeft(s, name, left);
    }
  }

  lemma RemoveAllLeft(s: Store, name: string, left: set<int>)
    requires name in s.graphs && left <= s.graphs[name].nodes
    ensures name in s.WithoutNodes(s.graphs[name].nodes - left).graphs
    ensures s.WithoutNodes(s.graphs[name].nodes - left).graphs[name].nodes == left
  {
    assert s.graphs[name].nodes - (s.graphs[name].nodes - left) == left;
  }

  method EraseGraph(o: Orchestration, name: string)
    requires o.Valid()
    modifies o`graphs, o`state
    ensures o.Valid() && o.state == old(o.state).(graphs := old(o.state).graphs - {name})
    ensures o.graphs.Values <= old(o.graphs.Values)
  {
    o.graphs := o.graphs - {name};
    o.state := o.state.(graphs := o.state.graphs - {name});
  }

  lemma RemovedGraphInSteps(s: Store, name: string)
    ensures s.RemoveGraph(name) ==
            if name !in s.graphs || name == "EventGraph" then s
            else var rest := s.WithoutNodes(s.graphs[name].nodes); rest.(graphs := rest.graphs - {name})
  {
  }

  /** `remove_graph` */
  method RemoveGraph(o: Orchestration, name: string)
    requires o.Valid() && o.state.Tidy()
    modifies o, o.cache, o.graphs.Values
    ensures o.Valid() && o.state == old(o.state).RemoveGraph(name)
    ensures o.graphs.Values <= old(o.graphs.Values)
  {
    hide *;
    o.Fields();
    RemovedGraphInSteps(o.state, name);
    if name !in o.graphs {
      return;
    }
    if name == "EventGraph" {
      return;
    }
    RemoveAllNodes(o, name);
    EraseGraph(o, name);
  }

  // ----- Removing functions -----

  lemma RemoveNodesStep(s: Store, done: set<int>, id: int)
    requires s.Tidy() && id in s.nodes && id !in done
    ensures var t := s.WithoutNodes(done);
            t.Tidy() && id in t.nodes && t.RemoveNode(id) == s.WithoutNodes(done + {id})
  {
    WithoutNodesKeepsTidy(s, done);
    WithoutNodesTwice(s, done, {id});
  }

  lemma WithoutNothing(s: Store)
    ensures s.WithoutNodes({}) == s
  {
    var t := s.WithoutNodes({});
    assert t.conns == s.conns && t.nodes == s.nodes && t.functions == s.functions;
    forall g | g in s.graphs ensures t.graphs[g] == s.graphs[g] {
      assert s.graphs[g].Without({}).knots == s.graphs[g].knots;
    }
    assert t.graphs == s.graphs;
  }

  /** A loop that removes a list of distinct nodes. */
  method RemoveNodes(o: Orchestration, list: seq<int>)
    requires o.Valid() && o.state.Tidy()
    requires forall i :: 0 <= i < |list| ==> list[i] in o.nodes
    requires forall i, j :: 0 <= i < j < |list| ==> list[i] != list[j]
    modifies o`nodes, o`functions, o`state, o.cache, o.graphs.Values
    ensures o.Valid() && o.state == old(o.state).WithoutNodes(Ids(list))
  {
    hide *;
    o.Fields();
    ghost var s := o.state;
    WithoutNothing(s);
    IdsOfPrefix(list);
    for i := 0 to |list|
      invariant o.Valid() && o.state == s.WithoutNodes(Ids(list[..i]))
    {
      RemoveNodesStep(s, Ids(list[..i]), list[i]);
      o.RemoveNode(list[i]);
    }
  }

  function Ids(list: seq<int>): set<int> {
    set n | n in list
  }

  lemma IdsOfPrefix(list: seq<int>)
    requires forall i, j :: 0 <= i < j < |list| ==> list[i] != list[j]
    ensures Ids(list[..0]) == {} && list[..|list|] == list
    ensures forall i :: 0 <= i < |list| ==> Ids(list[..i + 1]) == Ids(list[..i]) + {list[i]}
    ensures forall i :: 0 <= i < |list| ==> list[i] !in Ids(list[..i])
  {
    forall i | 0 <= i < |list| ensures Ids(list[..i + 1]) == Ids(list[..i]) + {list[i]} {
      assert list[..i + 1] == list[..i] + [list[i]];
    }
  }

  /** `_get_node_type_node_ids`, then the test of the called name. */
  method CallerIds(nodes: map<int, NodeState>, name: string) returns (list: seq<int>)
    ensures forall n :: n in list <==> n in nodes && nodes[n].kind == CallFunction(name)
    ensures forall i, j :: 0 <= i < j < |list| ==> list[i] != list[j]
  {
    list := [];
    var todo := nodes.Keys;
    while todo != {}
      invariant todo <= nodes.Keys
      invariant forall n :: n in list <==> n in nodes && n !in todo && nodes[n].kind == CallFunction(name)
      invariant forall i, j :: 0 <= i < j < |list| ==> list[i] != list[j]
      decreases todo
    {
      assert exists n: int :: n in todo by {
        assert (forall n: int :: n !in todo) ==> todo == {};
      }
      var n: int :| n in todo;
      if nodes[n].kind == CallFunction(name) {
        list := list + [n];
      }
      todo := todo - {n};
    }
  }

  method EraseFunction(o: Orchestration, name: string)
    requires o.Valid()
    modifies o`functions, o`state
    ensures o.Valid() && o.state == old(o.state).(functions := old(o.state).functions - {name})
  {
    o.functions := o.functions - {name};
    o.state := o.state.(functions := o.state.functions - {name});
  }

  /** Erasing a graph and removing nodes can be done in either order. */
  lemma EraseThenRemove(s: Store, name: string, ids: set<int>)
    ensures s.(graphs := s.graphs - {name}).WithoutNodes(ids)
            == s.WithoutNodes(ids).(graphs := s.WithoutNodes(ids).graphs - {name})
  {
    var t, u := s.(graphs := s.graphs - {name}).WithoutNodes(ids), s.WithoutNodes(ids);
    assert t.graphs == u.graphs - {name};
  }

  /** The nodes that go, by the step of `remove_function` that removes them. */
  lemma FunctionNodesInSteps(s: Store, name: string)
    requires s.Tidy() && name in s.functions
    ensures var inside := if s.OwnsGraph(name) then s.graphs[name].nodes else {};
            var callers := s.Callers(name) - inside;
            var owner := s.functions[name].owner;
            && owner in s.nodes
            && s.FunctionNodes(name) == if owner in inside + callers then inside + callers
               else inside + callers + {owner}
  {
  }

  /** The first step of `remove_function`. */
  lemma WithoutOwnGraph(s: Store, name: string)
    requires s.Tidy() && name in s.functions
    ensures var inside := if s.OwnsGraph(name) then s.graphs[name].nodes else {};
            var t := if name in s.graphs && s.graphs[name].functionGraph then s.RemoveGraph(name) else s;
            var rest := s.WithoutNodes(inside);
            && t.Tidy() && t.Callers(name) == s.Callers(name) - inside
            && t == if s.OwnsGraph(name) then rest.(graphs := rest.graphs - {name}) else rest
  {
    RemoveGraphKeepsTidy(s, name);
    WithoutNothing(s);
  }

  /** The state after each step of `remove_function`. */
  lemma RemovedFunctionInSteps(s: Store, name: string)
    requires s.Tidy() && name in s.functions
    ensures var t := if name in s.graphs && s.graphs[name].functionGraph then s.RemoveGraph(name) else s;
            var u := t.WithoutNodes(t.Callers(name));
            var owner := s.functions[name].owner;
            var v := if owner in u.nodes then u.RemoveNode(owner) else u;
            && t.Tidy() && u.Tidy()
            && s.RemoveFunction(name) == v.(functions := v.functions - {name})
  {
    hide Store.Tidy;
    var inside := if s.OwnsGraph(name) then s.graphs[name].nodes else {};
    var callers := s.Callers(name) - inside;
    var owner := s.functions[name].owner;
    var t := if name in s.graphs && s.graphs[name].functionGraph then s.RemoveGraph(name) else s;
    WithoutOwnGraph(s, name);
    FunctionNodesInSteps(s, name);
    WithoutNodesKeepsTidy(t, callers);
    WithoutNodesTwice(s, inside, callers);
    WithoutNodesTwice(s, inside + callers, {owner});
    EraseThenRemove(s.WithoutNodes(inside), name, callers);
    EraseThenRemove(s.WithoutNodes(inside + callers), name, {owner});
  }

  /** `remove_function` */
  method RemoveFunction(o: Orchestration, name: string)
    requires o.Valid() && o.state.Tidy()
    modifies o, o.cache, o.graphs.Values
    ensures o.Valid() && o.state == old(o.state).RemoveFunction(name)
    ensures o.graphs.Values <= old(o.graphs.Values)
  {
    hide *;
    o.Fields();
    if name !in o.functions {
      UnknownFunction(o.state, name);
      return;
    }
    var owner := o.functions[name].owner;
    RemovedFunctionInSteps(o.state, name);
    if name in o.graphs {
      o.GraphFields(name);
      if o.graphs[name].functionGraph {
        RemoveGraph(o, name);
      }
    }
    o.Fields();
    var callers := CallerIds(o.nodes, name);
    CallersListed(o.state, name, callers);
    RemoveNodes(o, callers);
    o.Fields();
    if owner in o.nodes {
      o.RemoveNode(owner);
    }
    EraseFunction(o, name);
  }

  lemma UnknownFunction(s: Store, name: string)
    requires name !in s.functions
    ensures s.RemoveFunction(name) == s
  {
  }

  lemma CallersListed(s: Store, name: string, list: seq<int>)
    requires forall n :: n in list <==> n in s.nodes && s.nodes[n].kind == CallFunction(name)
    ensures Ids(list) == s.Callers(name)
    ensures forall i :: 0 <= i < |list| ==> list[i] in s.nodes
  {
    forall i | 0 <= i < |list| ensures list[i] in s.nodes {
      var n := list[i];
      assert n in list <==> n in s.nodes && s.nodes[n].kind == CallFunction(name);
    }
    forall n ensures n in Ids(list) <==> n in s.Callers(name) {
      assert n in list <==> n in s.nodes && s.nodes[n].kind == CallFunction(name);
    }
  }

  // ----- What a removal leaves -----

  /** The graph without the nodes that are gone: what it lists and its knots go with them. */
  ghost predicate GraphRemains(a: GraphState, b: GraphState, nodes: set<int>) {
    && b.name == a.name && b.functionGraph == a.functionGraph && b.eventGraph == a.eventGraph
    && (forall n :: n in b.nodes <==> n in a.nodes && n in nodes)
    && (forall n :: n in b.functions <==> n in a.functions && n in nodes)
    && (forall c :: c in b.knots <==> c in a.knots && c.fromNode in nodes && c.toNode in nodes)
    && (forall c :: c in b.knots ==> b.knots[c] == a.knots[c])
  }

  /** Nodes stay as they were, and with them exactly the wires, knots and functions that have all their nodes. */
  ghost predicate IsRemainder(s: Store, t: Store) {
    && (forall n :: n in t.nodes ==> n in s.nodes && t.nodes[n] == s.nodes[n])
    && (forall c :: c in t.conns <==> c in s.conns && c.fromNode in t.nodes && c.toNode in t.nodes)
    && (forall f :: f in t.functions <==> f in s.functions && s.functions[f].owner in t.nodes)
    && (forall f :: f in t.functions ==> t.functions[f] == s.functions[f])
    && (forall g, n :: t.Holds(g, n) <==> s.Holds(g, n) && n in t.nodes)
    && (forall g :: g in t.graphs ==> g in s.graphs && GraphRemains(s.graphs[g], t.graphs[g], t.nodes.Keys))
  }

  lemma GraphWithoutRemains(s: Store, g: string, ids: set<int>)
    requires s.Tidy() && g in s.graphs
    ensures GraphRemains(s.graphs[g], s.graphs[g].Without(ids), s.nodes.Keys - ids)
  {
    assert s.GraphSound(g);
    forall n | n in s.graphs[g].nodes ensures n in s.nodes {
      assert s.Holds(g, n);
    }
  }

  lemma WithoutNodesLeaves(s: Store, ids: set<int>)
    requires s.Tidy()
    ensures IsRemainder(s, s.WithoutNodes(ids))
  {
    var t := s.WithoutNodes(ids);
    forall c ensures c in t.conns <==> c in s.conns && c.fromNode in t.nodes && c.toNode in t.nodes {
    }
    forall g, n ensures t.Holds(g, n) <==> s.Holds(g, n) && n in t.nodes {
      assert g in t.graphs <==> g in s.graphs;
      assert s.Holds(g, n) ==> n in s.nodes;
    }
    hide GraphRemains, GraphState.Without;
    assert t.nodes.Keys == s.nodes.Keys - ids;
    forall g | g in t.graphs ensures GraphRemains(s.graphs[g], t.graphs[g], t.nodes.Keys) {
      GraphWithoutRemains(s, g, ids);
    }
  }

  /** After `remove_node` that node is gone, and with it only what cannot be without it. */
  lemma RemoveNodeLeaves(s: Store, id: int)
    requires s.Tidy()
    ensures var t := s.RemoveNode(id);
            IsRemainder(s, t) && t.nodes.Keys == s.nodes.Keys - {id} && t.graphs.Keys == s.graphs.Keys
  {
    WithoutNodesLeaves(s, {id});
    if id !in s.nodes {
      WithoutNodesLeaves(s, {});
      hide IsRemainder, Store.Tidy;
      RemainsAll(s);
    }
  }

  lemma RemainsAll(s: Store)
    requires s.Tidy()
    ensures s.WithoutNodes({}) == s && s.nodes.Keys - {} == s.nodes.Keys
  {
    var t := s.WithoutNodes({});
    assert t.conns == s.conns && t.nodes == s.nodes && t.functions == s.functions;
    forall g | g in s.graphs ensures t.graphs[g] == s.graphs[g] {
      assert s.graphs[g].Without({}).knots == s.graphs[g].knots;
    }
    assert t.graphs == s.graphs;
  }

  /** Taking an emptied graph away changes nothing else. */
  lemma EraseEmptyLeaves(s: Store, t: Store, name: string)
    requires IsRemainder(s, t) && (name in t.graphs ==> t.graphs[name].nodes == {})
    ensures IsRemainder(s, t.(graphs := t.graphs - {name}))
  {
    var u := t.(graphs := t.graphs - {name});
    forall g, n ensures u.Holds(g, n) <==> t.Holds(g, n) {
      assert g in u.graphs <==> g in t.graphs && g != name;
    }
  }

  /** The node goes with the function: it calls it, owns it, or is in its own graph. */
  predicate GoesWith(s: Store, name: string, n: int)
    requires name in s.functions && n in s.nodes
  {
    || s.nodes[n].kind == CallFunction(name)
    || n == s.functions[name].owner
    || (name in s.graphs && s.graphs[name].functionGraph && name != "EventGraph" && n in s.graphs[name].nodes)
  }

  lemma FunctionNodesAre(s: Store, name: string)
    requires name in s.functions
    ensures forall n :: n in s.nodes ==> (n in s.FunctionNodes(name) <==> GoesWith(s, name, n))
    ensures s.OwnsGraph(name) <==> name in s.graphs && s.graphs[name].functionGraph && name != "EventGraph"
  {
  }

  lemma FunctionGone(s: Store, name: string)
    requires name in s.functions
    ensures var rest, t := s.WithoutNodes(s.FunctionNodes(name)), s.RemoveFunction(name);
            && rest.nodes.Keys == s.nodes.Keys - s.FunctionNodes(name) && rest.graphs.Keys == s.graphs.Keys
            && name !in rest.functions
            && t == rest.(graphs := if s.OwnsGraph(name) then rest.graphs - {name} else rest.graphs)
            && (s.OwnsGraph(name) ==> name in rest.graphs && rest.graphs[name].nodes == {})
  {
    var rest := s.WithoutNodes(s.FunctionNodes(name));
    assert name !in rest.functions;
    assert rest.functions - {name} == rest.functions;
  }

  /**
    After `remove_function` the nodes that call it, its owner and its own graph are gone with the nodes in
    it, no other node went, and what is left is exactly what lies between the nodes that stay.
   */
  lemma RemoveFunctionLeaves(s: Store, name: string)
    requires s.Tidy() && name in s.functions
    ensures var t := s.RemoveFunction(name);
            && IsRemainder(s, t) && name !in t.functions
            && (forall n :: n in s.nodes ==> (n in t.nodes <==> !GoesWith(s, name, n)))
            && (forall g :: g in t.graphs <==>
                  g in s.graphs && (g == name ==> !s.graphs[name].functionGraph || name == "EventGraph"))
  {
    FunctionNodesAre(s, name);
    FunctionGone(s, name);
    WithoutNodesLeaves(s, s.FunctionNodes(name));
    hide *;
    if s.OwnsGraph(name) {
      EraseEmptyLeaves(s, s.WithoutNodes(s.FunctionNodes(name)), name);
    }
  }

  /** After `remove_graph` the graph and exactly its nodes are gone. */
  lemma RemoveGraphLeaves(s: Store, name: string)
    requires s.Tidy() && name in s.graphs && name != "EventGraph"
    ensures var t := s.RemoveGraph(name);
            && IsRemainder(s, t)
            && t.nodes.Keys == s.nodes.Keys - s.graphs[name].nodes
            && t.graphs.Keys == s.graphs.Keys - {name}
  {
    var rest := s.WithoutNodes(s.graphs[name].nodes);
    WithoutNodesLeaves(s, s.graphs[name].nodes);
    assert rest.graphs[name].nodes == {};
    EraseEmptyLeaves(s, rest, name);
  }
}
