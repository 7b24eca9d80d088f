/**
  `Orchestration::duplicate_function` with its code (`src/orchestration/orchestration.cpp`), step by step:
  a new graph, a copy of every node, the new function, and the wires linked again between the copies.
 */
module Duplicates {
  import opened Connections
  import opened ConnectionCaches
  import opened Nodes
  import opened Reroutes
  import opened Stores
  import opened Graphs
  import opened Orchestrations
  import opened GraphEdits
  import opened ArgumentRemoval
  import opened FunctionCreation
  import D = Duplication
  import opened Rehearsal

  // ----- Copying the nodes -----

  /** `duplicate` with a new id; the pins are cached again when the copy is added. */
  function CopyOf(n: NodeState, id: int): NodeState {
    n.(id := id).Cache()
  }

  function EntryCopies(nodes: map<int, NodeState>, m: D.IdMap): set<int> {
    set id | id in m && id in nodes && nodes[id].kind.FunctionEntry? :: m[id]
  }

  /** Every original has one copy under an id that was free. */
  ghost predicate IsTable(nodes: map<int, NodeState>, m: D.IdMap) {
    && m.Keys <= nodes.Keys
    && (forall id :: id in m ==> m[id] !in nodes && 0 < m[id] < NODE_LIMIT)
    && (forall a, b :: a in m && b in m && m[a] == m[b] ==> a == b)
  }

  ghost predicate NodesCopied(before: map<int, NodeState>, nodes: map<int, NodeState>, m: D.IdMap)
    requires m.Keys <= before.Keys
  {
    && nodes.Keys == before.Keys + D.Copies(m)
    && (forall n :: n in before ==> nodes[n] == before[n])
    && (forall n :: n in m ==> nodes[m[n]] == CopyOf(before[n], m[n]))
  }

  /** `t` is `s` with copies of the nodes in the table, all of them in graph `g`. */
  ghost predicate WithCopies(s: Store, t: Store, g: string, m: D.IdMap)
    requires g in s.graphs
  {
    && IsTable(s.nodes, m)
    && NodesCopied(s.nodes, t.nodes, m)
    && t.conns == s.conns && t.functions == s.functions
    && t.graphs == s.graphs[g := s.graphs[g].(nodes := D.Copies(m), functions := EntryCopies(s.nodes, m))]
  }

  /** Adding a copy to the old graph and moving it over leaves the old graph as it was. */
  lemma AddedAndMoved(t: Store, source: string, target: string, copy: NodeState)
    requires source in t.graphs && target in t.graphs && source != target && copy.id !in t.nodes
    requires t.graphs[source].Sound() && copy.id !in t.graphs[source].nodes
    ensures t.AddNode(source, copy).MoveNode(copy.id, source, target)
            == t.(nodes := t.nodes[copy.id := copy.Cache()], graphs := t.graphs[target := t.graphs[target].Add(copy)])
  {
    var u := t.AddNode(source, copy);
    var g := u.graphs[source];
    assert g.Without({copy.id}).knots == t.graphs[source].knots;
    assert g.Without({copy.id}).nodes == t.graphs[source].nodes;
    assert g.Without({copy.id}).functions == t.graphs[source].functions;
    assert g.Without({copy.id}) == t.graphs[source];
    assert u.MoveNode(copy.id, source, target).graphs == t.graphs[target := t.graphs[target].Add(copy)];
  }

  lemma CopiesSnoc(nodes: map<int, NodeState>, m: D.IdMap, id: int, copy: int)
    requires id in nodes && id !in m
    ensures D.Copies(m[id := copy]) == D.Copies(m) + {copy}
    ensures EntryCopies(nodes, m[id := copy]) == EntryCopies(nodes, m) + if nodes[id].kind.FunctionEntry? then {copy}
            else {}
  {
    var more := m[id := copy];
    forall n ensures n in D.Copies(more) <==> n in D.Copies(m) + {copy} {
      if o :| o in m && n == m[o] {
        assert o in more && more[o] == n;
      }
      assert id in more && more[id] == copy;
    }
    var rest := EntryCopies(nodes, m) + if nodes[id].kind.FunctionEntry? then {copy} else {};
    forall n ensures n in EntryCopies(nodes, more) <==> n in rest {
      if o :| o in m && o in nodes && nodes[o].kind.FunctionEntry? && n == m[o] {
        assert o in more && more[o] == n;
      }
      assert id in more && more[id] == copy;
    }
  }

  lemma NodesCopiedSnoc(before: map<int, NodeState>, nodes: map<int, NodeState>, m: D.IdMap, id: int, copy: int)
    requires IsTable(before, m) && NodesCopied(before, nodes, m) && id in before && id !in m
    requires copy !in nodes && 0 < copy < NODE_LIMIT
    ensures IsTable(before, m[id := copy])
    ensures NodesCopied(before, nodes[copy := CopyOf(before[id], copy)], m[id := copy])
  {
    CopiesSnoc(before, m, id, copy);
    assert forall n :: n in m ==> m[n] in D.Copies(m);
    hide CopyOf, EntryCopies, D.Copies;
    var more, all := m[id := copy], nodes[copy := CopyOf(before[id], copy)];
    assert forall n :: n in before ==> n != copy;
    assert forall n :: n in m ==> m[n] != copy;
    assert IsTable(before, more);
    assert all.Keys == before.Keys + D.Copies(more);
  }

  /** One more node copied. */
  lemma WithCopiesStep(s: Store, t: Store, source: string, g: string, m: D.IdMap, id: int, copy: int)
    requires g in s.graphs && source in s.graphs && source != g && WithCopies(s, t, g, m) && s.graphs[g].knots == map[]
    requires s.graphs[source].Sound() && s.graphs[source].nodes <= s.nodes.Keys && s.graphs[g].functionGraph
             && !s.graphs[g].eventGraph
    requires id in s.graphs[source].nodes && id !in m && copy !in t.nodes && 0 < copy < NODE_LIMIT
    ensures source in t.graphs && g in t.graphs && id in t.nodes
    ensures var c := t.nodes[id].(id := copy);
            WithCopies(s, t.AddNode(source, c).MoveNode(copy, source, g), g, m[id := copy])
  {
    WithCopiesBefore(s, t, source, g, m, id, copy);
    var c := t.nodes[id].(id := copy);
    hide *;
    AddedAndMoved(t, source, g, c);
    NodesCopiedSnoc(s.nodes, t.nodes, m, id, copy);
    CopiesSnoc(s.nodes, m, id, copy);
    CopyAdded(s, t, g, m, id, copy);
    WithCopiesAfter(s, t, g, m[id := copy], copy, c);
  }

  /** What is known before the copy is made. */
  lemma WithCopiesBefore(s: Store, t: Store, source: string, g: string, m: D.IdMap, id: int, copy: int)
    requires g in s.graphs && source in s.graphs && source != g && WithCopies(s, t, g, m)
    requires s.graphs[source].nodes <= s.nodes.Keys && id in s.graphs[source].nodes && copy !in t.nodes
    ensures source in t.graphs && g in t.graphs && id in t.nodes && id in s.nodes && t.nodes[id] == s.nodes[id]
    ensures m.Keys <= s.nodes.Keys && IsTable(s.nodes, m) && NodesCopied(s.nodes, t.nodes, m)
    ensures t.graphs[source] == s.graphs[source] && copy !in s.nodes && copy !in s.graphs[source].nodes
    ensures t.conns == s.conns && t.functions == s.functions
    ensures t.graphs == s.graphs[g := s.graphs[g].(nodes := D.Copies(m), functions := EntryCopies(s.nodes, m))]
    ensures t.nodes[id].(id := copy).id == copy
    ensures t.nodes[id].(id := copy).Cache() == CopyOf(s.nodes[id], copy)
  {
    hide D.Copies, EntryCopies, NodeState.Cache;
  }

  lemma CopyAdded(s: Store, t: Store, g: string, m: D.IdMap, id: int, copy: int)
    requires g in s.graphs && g in t.graphs && id in s.nodes && id in t.nodes && id !in m
    requires s.graphs[g].functionGraph && !s.graphs[g].eventGraph && t.nodes[id] == s.nodes[id]
    requires t.graphs[g] == s.graphs[g].(nodes := D.Copies(m), functions := EntryCopies(s.nodes, m))
    requires D.Copies(m[id := copy]) == D.Copies(m) + {copy}
    requires EntryCopies(s.nodes, m[id := copy])
             == EntryCopies(s.nodes, m) + if s.nodes[id].kind.FunctionEntry? then {copy} else {}
    ensures t.graphs[g].Add(t.nodes[id].(id := copy))
            == s.graphs[g].(nodes := D.Copies(m[id := copy]), functions := EntryCopies(s.nodes, m[id := copy]))
  {
    hide D.Copies, EntryCopies;
  }

  lemma WithCopiesAfter(s: Store, t: Store, g: string, more: D.IdMap, copy: int, c: NodeState)
    requires g in s.graphs && g in t.graphs && IsTable(s.nodes, more) && more.Keys <= s.nodes.Keys
    requires NodesCopied(s.nodes, t.nodes[copy := c.Cache()], more)
    requires t.conns == s.conns && t.functions == s.functions && t.graphs.Keys == s.graphs.Keys
    requires forall h :: h in s.graphs && h != g ==> t.graphs[h] == s.graphs[h]
    requires t.graphs[g].Add(c) == s.graphs[g].(nodes := D.Copies(more), functions := EntryCopies(s.nodes, more))
    ensures WithCopies(s, t.(nodes := t.nodes[copy := c.Cache()], graphs := t.graphs[g := t.graphs[g].Add(c)]), g, more)
  {
    hide D.Copies, EntryCopies, IsTable, NodesCopied, NodeState.Cache, GraphState.Add;
  }

  // ----- The loop over the nodes -----

  /** The nodes of a graph in the order of their ids. */
  method NodesInOrder(ids: set<int>) returns (list: seq<int>)
    ensures forall i, j :: 0 <= i < j < |list| ==> list[i] < list[j]
    ensures Ids(list) == ids
  {
    list := [];
    var todo := ids;
    while todo != {}
      invariant todo <= ids && Ids(list) == ids - todo
      invariant forall i, j :: 0 <= i < j < |list| ==> list[i] < list[j]
      invariant forall i, n :: 0 <= i < |list| && n in todo ==> list[i] < n
      decreases todo
    {
      var id := Front(todo);
      todo := todo - {id};
      assert Ids(list + [id]) == Ids(list) + {id};
      list := list + [id];
    }
  }

  /** `duplicate_node`, then the move to the new graph. */
  method CopyNode(o: Orchestration, source: string, g: string, id: int) returns (copy: int)
    requires o.Valid() && source in o.graphs && g in o.graphs && id in o.nodes
    modifies o`nodes, o`state, o.graphs.Values
    ensures o.Valid() && old(o.state).IsAvailable(copy)
    ensures source in old(o.state).graphs && g in old(o.state).graphs && id in old(o.state).nodes
    ensures source in old(o.state).AddNode(source, old(o.state).nodes[id].(id := copy)).graphs
    ensures g in old(o.state).AddNode(source, old(o.state).nodes[id].(id := copy)).graphs
    ensures o.state == old(o.state).AddNode(source, old(o.state).nodes[id].(id := copy)).MoveNode(copy, source, g)
  {
    hide *;
    o.Fields();
    o.GraphFields(source);
    o.GraphFields(g);
    copy := o.GetAvailableId();
    o.AddNode(source, o.nodes[id].(id := copy));
    o.Fields();
    MoveNodeTo(o, copy, source, g);
  }

  lemma CopyKeepsTidy(t: Store, source: string, g: string, id: int, copy: int)
    requires t.Tidy() && source in t.graphs && g in t.graphs && id in t.nodes && 0 <= copy < NODE_LIMIT
    ensures source in t.AddNode(source, t.nodes[id].(id := copy)).graphs
    ensures g in t.AddNode(source, t.nodes[id].(id := copy)).graphs
    ensures t.AddNode(source, t.nodes[id].(id := copy)).MoveNode(copy, source, g).Tidy()
  {
    var c := t.nodes[id].(id := copy);
    assert t.nodes[id].IsCached();
    AddNodeKeepsTidy(t, source, c);
    hide Store.Tidy;
    MoveNodeKeepsTidy(t.AddNode(source, c), copy, source, g);
  }

  /** The state the loop starts from: the old graph, and the new one still empty. */
  ghost predicate Prepared(s: Store, source: string, g: string) {
    && s.Tidy() && source in s.graphs && g in s.graphs && source != g
    && s.graphs[g] == GraphState(g, true, false, {}, {}, map[])
  }

  lemma PreparedFacts(s: Store, source: string, g: string)
    requires Prepared(s, source, g)
    ensures s.graphs[source].Sound() && s.graphs[source].nodes <= s.nodes.Keys
    ensures s.graphs[g].knots == map[] && s.graphs[g].functionGraph && !s.graphs[g].eventGraph && source != g
  {
    assert s.GraphSound(source);
    forall n | n in s.graphs[source].nodes ensures n in s.nodes {
      assert s.Holds(source, n);
    }
  }

  lemma NextCopy(s: Store, t: Store, g: string, m: D.IdMap, id: int, copy: int, room: int)
    requires g in s.graphs && WithCopies(s, t, g, m) && s.NodesFiled() && id in s.nodes && t.IsAvailable(copy)
    requires (forall n :: n in t.nodes ==> n + room < NODE_LIMIT) && room > 0
    ensures id in t.nodes && copy !in t.nodes && 0 < copy < NODE_LIMIT
    ensures forall n :: n in t.nodes.Keys + {copy} ==> n + (room - 1) < NODE_LIMIT
  {
  }

  lemma CopiedKeys(t: Store, source: string, g: string, c: NodeState)
    requires source in t.graphs && g in t.graphs
    ensures source in t.AddNode(source, c).graphs && g in t.AddNode(source, c).graphs
    ensures t.AddNode(source, c).MoveNode(c.id, source, g).nodes.Keys == t.nodes.Keys + {c.id}
  {
  }

  /** One turn of the loop. */
  lemma CopyStep(s: Store, t: Store, source: string, g: string, m: D.IdMap, id: int, copy: int, room: int)
    requires Prepared(s, source, g) && WithCopies(s, t, g, m) && t.Tidy()
    requires id in s.graphs[source].nodes && id !in m && t.IsAvailable(copy)
    requires (forall n :: n in t.nodes ==> n + room < NODE_LIMIT) && room > 0
    ensures source in t.graphs && g in t.graphs && id in t.nodes
    ensures var c := t.nodes[id].(id := copy);
            && source in t.AddNode(source, c).graphs && g in t.AddNode(source, c).graphs
            && (var u := t.AddNode(source, c).MoveNode(copy, source, g);
                && u.Tidy() && WithCopies(s, u, g, m[id := copy])
                && (forall n :: n in u.nodes ==> n + (room - 1) < NODE_LIMIT))
  {
    hide *;
    PreparedParts(s, source, g);
    PreparedFacts(s, source, g);
    NextCopy(s, t, g, m, id, copy, room);
    WithCopiesStep(s, t, source, g, m, id, copy);
    CopyKeepsTidy(t, source, g, id, copy);
    CopiedKeys(t, source, g, t.nodes[id].(id := copy));
  }

  lemma PreparedParts(s: Store, source: string, g: string)
    requires Prepared(s, source, g)
    ensures s.Tidy() && s.NodesFiled() && source in s.graphs && g in s.graphs
  {
  }

  /** The loop of `duplicate_function`: the table of the old and new ids. */
  method CopyNodes(o: Orchestration, source: string, g: string, list: seq<int>) returns (m: D.IdMap)
    requires o.Valid() && Prepared(o.state, source, g)
    requires (forall i, j :: 0 <= i < j < |list| ==> list[i] < list[j]) && Ids(list) == o.state.graphs[source].nodes
    requires forall n :: n in o.nodes ==> n + |list| < NODE_LIMIT
    modifies o`nodes, o`state, o.graphs.Values
    ensures o.Valid() && o.state.Tidy() && g in old(o.state).graphs && source in old(o.state).graphs
    ensures WithCopies(old(o.state), o.state, g, m) && m.Keys == old(o.state).graphs[source].nodes
  {
    hide *;
    o.Fields();
    ghost var s := o.state;
    PreparedParts(s, source, g);
    NoCopies(s, source, g);
    ListFacts(list);
    m := map[];
    for i := 0 to |list|
      invariant o.Valid() && o.state.Tidy() && WithCopies(s, o.state, g, m)
      invariant m.Keys == Ids(list[..i])
      invariant forall n :: n in o.nodes ==> n + (|list| - i) < NODE_LIMIT
    {
      ghost var t := o.state;
      o.Fields();
      SameGraphs(s, t, g, m, source, list[i]);
      var copy := CopyNode(o, source, g, list[i]);
      CopyStep(s, t, source, g, m, list[i], copy, |list| - i);
      m := m[list[i] := copy];
      o.Fields();
    }
  }

  lemma NoCopies(s: Store, source: string, g: string)
    requires Prepared(s, source, g)
    ensures WithCopies(s, s, g, map[])
  {
    assert D.Copies(map[]) == {} && EntryCopies(s.nodes, map[]) == {};
  }

  lemma ListFacts(list: seq<int>)
    requires forall i, j :: 0 <= i < j < |list| ==> list[i] < list[j]
    ensures Ids(list[..0]) == {} && list[..|list|] == list
    ensures forall i :: 0 <= i < |list| ==> Ids(list[..i + 1]) == Ids(list[..i]) + {list[i]}
    ensures forall i :: 0 <= i < |list| ==> list[i] !in Ids(list[..i]) && list[i] in Ids(list)
  {
    IdsOfPrefix(list);
  }

  lemma SameGraphs(s: Store, t: Store, g: string, m: D.IdMap, source: string, id: int)
    requires Prepared(s, source, g) && WithCopies(s, t, g, m) && id in s.graphs[source].nodes
    ensures source in t.graphs && g in t.graphs && id in t.nodes
  {
    PreparedFacts(s, source, g);
  }

  // ----- The new function -----

  /** `set_function` on an entry or result node. */
  function Terminated(n: NodeState, name: string): NodeState {
    match n.kind
    case FunctionEntry(_) => n.(kind := FunctionEntry(name))
    case FunctionResult(_) => n.(kind := FunctionResult(name))
    case _ => n
  }

  function TerminatedIn(nodes: map<int, NodeState>, ids: set<int>, name: string): map<int, NodeState> {
    map n | n in nodes :: if n in ids then Terminated(nodes[n], name) else nodes[n]
  }

  /** The loop that gives the terminators of the new graph their function. */
  method SetTerminators(o: Orchestration, list: seq<int>, name: string)
    requires o.Valid()
    modifies o`nodes, o`state
    ensures o.Valid() && o.state == old(o.state).(nodes := TerminatedIn(old(o.state).nodes, Ids(list), name))
  {
    ghost var before := o.nodes;
    var nodes := o.nodes;
    assert TerminatedIn(before, Ids(list[..0]), name) == before;
    for i := 0 to |list|
      invariant nodes == TerminatedIn(before, Ids(list[..i]), name)
    {
      var id := list[i];
      assert Ids(list[..i + 1]) == Ids(list[..i]) + {id} by {
        assert list[..i + 1] == list[..i] + [id];
      }
      if id in nodes {
        nodes := nodes[id := Terminated(nodes[id], name)];
      }
    }
    assert list[..|list|] == list;
    o.nodes := nodes;
    o.state := o.state.(nodes := nodes);
  }

  // ----- The wires -----

  /** The last loop: every wire of the old graph is linked again between the copies. */
  method RelinkCopies(o: Orchestration, m: D.IdMap, q: seq<Connection>)
    requires o.Valid() && forall id :: id in m ==> 0 <= m[id] < NODE_LIMIT
    modifies o`state, o.cache
    ensures o.Valid() && o.state == old(o.state).(conns := D.Relink(old(o.state).conns, old(o.state).Reroutes(), m, q))
  {
    ghost var s := o.state;
    RelinkNothing(s, m, q);
    for i := 0 to |q|
      invariant o.Valid() && o.state == s.(conns := D.Relink(s.conns, s.Reroutes(), m, q[..i]))
    {
      hide *;
      var source, target := D.Lookup(m, q[i].fromNode), D.Lookup(m, q[i].toNode);
      RelinkStep(s, m, q, i);
      o.ConnectNodes(source, q[i].fromPort, target, q[i].toPort);
    }
  }

  lemma RelinkNothing(s: Store, m: D.IdMap, q: seq<Connection>)
    ensures s.(conns := D.Relink(s.conns, s.Reroutes(), m, q[..0])) == s && q[..|q|] == q
  {
  }

  lemma RelinkStep(s: Store, m: D.IdMap, q: seq<Connection>, i: nat)
    requires i < |q| && forall id :: id in m ==> 0 <= m[id] < NODE_LIMIT
    ensures var t := s.(conns := D.Relink(s.conns, s.Reroutes(), m, q[..i]));
            var source, target := D.Lookup(m, q[i].fromNode), D.Lookup(m, q[i].toNode);
            ConnectGuarded(t, source, target, Pack(source, q[i].fromPort, target, q[i].toPort))
            == s.(conns := D.Relink(s.conns, s.Reroutes(), m, q[..i + 1]))
  {
    assert q[..i + 1][..i] == q[..i];
    var t := s.(conns := D.Relink(s.conns, s.Reroutes(), m, q[..i]));
    var c := D.Image(m, q[i]);
    assert c.fromNode == D.Lookup(m, q[i].fromNode) && c.toNode == D.Lookup(m, q[i].toNode);
    assert t.Reroutes() == s.Reroutes();
    if c in t.conns {
      assert t.conns + {c} == t.conns;
    }
  }

  // ----- The whole operation -----

  ghost predicate IsFirstEntry(nodes: map<int, NodeState>, ids: set<int>, entry: int) {
    && entry in ids && entry in nodes && nodes[entry].kind.FunctionEntry?
    && forall n :: n in ids && n in nodes && nodes[n].kind.FunctionEntry? ==> entry <= n
  }

  ghost predicate HasEntry(nodes: map<int, NodeState>, ids: set<int>) {
    exists n :: n in ids && n in nodes && nodes[n].kind.FunctionEntry?
  }

  method FirstEntry(nodes: map<int, NodeState>, list: seq<int>) returns (entry: int)
    requires forall i, j :: 0 <= i < j < |list| ==> list[i] < list[j]
    requires HasEntry(nodes, Ids(list))
    ensures IsFirstEntry(nodes, Ids(list), entry)
  {
    var n :| n in Ids(list) && n in nodes && nodes[n].kind.FunctionEntry?;
    var i := 0;
    while !(list[i] in nodes && nodes[list[i]].kind.FunctionEntry?)
      invariant 0 <= i < |list| && n in list[i..]
      invariant forall j :: 0 <= j < i ==> !(list[j] in nodes && nodes[list[j]].kind.FunctionEntry?)
      decreases |list| - i
    {
      assert list[i..] == [list[i]] + list[i + 1..];
      i := i + 1;
    }
    entry := list[i];
  }

  /** What a duplicated function can start from: its graph holds an entry node, and the new name is free. */
  ghost predicate CanDuplicate(s: Store, name: string, newName: string) {
    && s.Tidy() && name in s.functions && name in s.graphs
    && newName !in s.functions && newName !in s.graphs && IsIdentifier(newName) && newName != "EventGraph"
    && HasEntry(s.nodes, s.graphs[name].nodes)
    && (forall n :: n in s.nodes ==> n + |s.graphs[name].nodes| < NODE_LIMIT)
  }

  /** The originals stay as they are, and each has its copy, whose terminators belong to the new function. */
  ghost predicate NodesDuplicated(before: map<int, NodeState>, nodes: map<int, NodeState>, m: D.IdMap, newName: string)
    requires m.Keys <= before.Keys
  {
    && nodes.Keys == before.Keys + D.Copies(m)
    && (forall n :: n in before ==> nodes[n] == before[n])
    && (forall n :: n in m ==> nodes[m[n]] == Terminated(CopyOf(before[n], m[n]), newName))
  }

  /**
    `t` is `s` with a duplicate of the function `name`: its nodes and wires, its graph and its entry in the
    table of functions.
   */
  ghost predicate IsDuplicate(s: Store, t: Store, name: string, newName: string, getter: bool, m: D.IdMap)
    requires name in s.functions && name in s.graphs
  {
    && m.Keys == s.graphs[name].nodes && IsTable(s.nodes, m)
    && NodesDuplicated(s.nodes, t.nodes, m, newName)
    && t.graphs == s.graphs[newName := GraphState(newName, true, false, D.Copies(m), EntryCopies(s.nodes, m), map[])]
    && (exists entry :: IsFirstEntry(s.nodes, m.Keys, entry)
          && t.functions == s.functions[newName := s.functions[name].(name := newName, owner := m[entry],
             getterName := getter)])
    && t.conns == D.Relink(s.conns, t.Reroutes(), m, Sorted(D.Touching(s.conns, m.Keys)))
  }

  lemma Prepare(s: Store, name: string, newName: string)
    requires CanDuplicate(s, name, newName)
    ensures var t := s.CreateGraph(newName, true, false);
            && Prepared(t, name, newName) && name in t.functions
            && t.conns == s.conns && t.nodes == s.nodes && t.functions == s.functions
            && t.graphs == s.graphs[newName := GraphState(newName, true, false, {}, {}, map[])]
            && name in s.graphs && t.graphs[name].nodes == s.graphs[name].nodes
            && HasEntry(t.nodes, t.graphs[name].nodes)
            && (forall n :: n in t.nodes ==> n + |t.graphs[name].nodes| < NODE_LIMIT)
  {
    CreateGraphKeepsTidy(s, newName, true, false);
  }

  /** The list of ids is as long as the set. */
  lemma {:induction false} AscendingSize(list: seq<int>)
    requires forall i, j :: 0 <= i < j < |list| ==> list[i] < list[j]
    ensures |list| == |Ids(list)|
  {
    if list != [] {
      var init := list[..|list| - 1];
      AscendingSize(init);
      assert list == init + [list[|list| - 1]];
      assert Ids(list) == Ids(init) + {list[|list| - 1]};
      assert list[|list| - 1] !in Ids(init);
    }
  }

  lemma CopiedParts(s: Store, t: Store, g: string, m: D.IdMap)
    requires g in s.graphs && WithCopies(s, t, g, m)
    ensures g in t.graphs && t.graphs[g].nodes == D.Copies(m) && t.graphs - {g} == s.graphs - {g}
    ensures t.conns == s.conns && t.functions == s.functions && D.Copies(m) !! s.nodes.Keys
    ensures t.nodes - D.Copies(m) == s.nodes - D.Copies(m)
  {
    NodesBesides(s.nodes, t.nodes, D.Copies(m));
  }

  lemma NodesBesides(before: map<int, NodeState>, nodes: map<int, NodeState>, ids: set<int>)
    requires nodes.Keys == before.Keys + ids && forall n :: n in before ==> nodes[n] == before[n]
    ensures nodes - ids == before - ids
  {
    var a, b := nodes - ids, before - ids;
    assert a.Keys == b.Keys;
    assert forall n :: n in b ==> a[n] == b[n];
  }

  lemma SameWithout(s: Store, t: Store, ids: set<int>)
    requires s.conns == t.conns && s.functions == t.functions && s.graphs == t.graphs && s.nodes - ids == t.nodes - ids
    ensures s.WithoutNodes(ids) == t.WithoutNodes(ids)
  {
  }

  /** Taking away ids that are not in use changes nothing. */
  lemma UntouchedStore(s: Store, ids: set<int>)
    requires s.Tidy() && ids !! s.nodes.Keys
    ensures s.WithoutNodes(ids) == s
  {
    var u := s.WithoutNodes(ids);
    assert u.nodes == s.nodes;
    assert u.conns == s.conns;
    forall g | g in s.graphs ensures s.graphs[g].Without(ids) == s.graphs[g] {
      UntouchedGraph(s, g, ids);
    }
    assert u.graphs == s.graphs;
    assert u.functions == s.functions;
  }

  /** When the function cannot be made, taking the new graph away restores everything. */
  lemma RolledBack(s: Store, t: Store, name: string, newName: string, m: D.IdMap)
    requires CanDuplicate(s, name, newName) && newName in s.CreateGraph(newName, true, false).graphs
    requires WithCopies(s.CreateGraph(newName, true, false), t, newName, m)
    ensures t.RemoveGraph(newName) == s
  {
    hide *;
    var made, copies := s.CreateGraph(newName, true, false), D.Copies(m);
    Prepare(s, name, newName);
    CopiedParts(made, t, newName, m);
    NewNameIsNew(s, name, newName);
    RemovedGraphInSteps(t, newName);
    EraseThenRemove(t, newName, copies);
    SameWithout(t.(graphs := t.graphs - {newName}), s, copies);
    UntouchedStore(s, copies);
  }

  lemma NewNameIsNew(s: Store, name: string, newName: string)
    requires CanDuplicate(s, name, newName)
    ensures s.Tidy() && newName != "EventGraph" && newName !in s.functions && IsIdentifier(newName)
    ensures s.CreateGraph(newName, true, false).graphs - {newName} == s.graphs
  {
  }

  lemma UntouchedGraph(s: Store, g: string, ids: set<int>)
    requires s.Tidy() && g in s.graphs && ids !! s.nodes.Keys
    ensures s.graphs[g].Without(ids) == s.graphs[g]
  {
    var graph := s.graphs[g];
    assert s.GraphSound(g);
    forall n | n in graph.nodes ensures n !in ids {
      assert s.Holds(g, n);
    }
    assert graph.nodes - ids == graph.nodes && graph.functions - ids == graph.functions;
    assert graph.Without(ids).knots == graph.knots;
  }

  /** The steps after the copies are made. */
  lemma FinishedInSteps(
      s: Store, t: Store, name: string, newName: string, getter: bool, m: D.IdMap, entry: int, q: seq<Connection>,
      list: seq<int>)
    requires CanDuplicate(s, name, newName) && name in s.functions && name in s.graphs
    requires newName in s.CreateGraph(newName, true, false).graphs
    requires WithCopies(s.CreateGraph(newName, true, false), t, newName, m) && m.Keys == s.graphs[name].nodes
    requires IsFirstEntry(s.nodes, m.Keys, entry) && Ids(list) == D.Copies(m)
    requires q == Sorted(D.Touching(s.conns, m.Keys))
    ensures var u := t.(functions := t.functions[newName := s.functions[name].(name := newName, owner := m[entry],
            getterName := getter)]);
            var v := u.(nodes := TerminatedIn(u.nodes, Ids(list), newName));
            IsDuplicate(s, v.(conns := D.Relink(v.conns, v.Reroutes(), m, q)), name, newName, getter, m)
  {
    hide *;
    var made := s.CreateGraph(newName, true, false);
    Prepare(s, name, newName);
    WithCopiesParts(made, t, newName, m);
    TerminatedCopies(s.nodes, t.nodes, m, newName);
    EntryInTable(s.nodes, m.Keys, entry);
    var u := t.(functions := t.functions[newName := s.functions[name].(name := newName, owner := m[entry],
      getterName := getter)]);
    var v := u.(nodes := TerminatedIn(u.nodes, Ids(list), newName));
    var w := v.(conns := D.Relink(v.conns, v.Reroutes(), m, q));
    SameReroutes(v, w);
    DuplicateParts(s, w, name, newName, getter, m, entry);
  }

  lemma SameReroutes(s: Store, t: Store)
    requires s.nodes == t.nodes
    ensures s.Reroutes() == t.Reroutes()
  {
  }

  lemma WithCopiesParts(s: Store, t: Store, g: string, m: D.IdMap)
    requires g in s.graphs && WithCopies(s, t, g, m)
    ensures m.Keys <= s.nodes.Keys && IsTable(s.nodes, m) && NodesCopied(s.nodes, t.nodes, m)
    ensures t.conns == s.conns && t.functions == s.functions
    ensures t.graphs == s.graphs[g := s.graphs[g].(nodes := D.Copies(m), functions := EntryCopies(s.nodes, m))]
  {
  }

  lemma TerminatedCopies(before: map<int, NodeState>, nodes: map<int, NodeState>, m: D.IdMap, newName: string)
    requires IsTable(before, m) && NodesCopied(before, nodes, m)
    ensures NodesDuplicated(before, TerminatedIn(nodes, D.Copies(m), newName), m, newName)
  {
    hide Terminated, CopyOf;
    assert forall n :: n in m ==> m[n] in D.Copies(m);
    assert forall n :: n in before ==> n !in D.Copies(m);
  }

  lemma DuplicateParts(s: Store, t: Store, name: string, newName: string, getter: bool, m: D.IdMap, entry: int)
    requires name in s.functions && name in s.graphs && m.Keys == s.graphs[name].nodes && IsTable(s.nodes, m)
    requires m.Keys <= s.nodes.Keys && NodesDuplicated(s.nodes, t.nodes, m, newName)
    requires t.graphs == s.graphs[newName := GraphState(newName, true, false, D.Copies(m), EntryCopies(s.nodes, m),
             map[])]
    requires IsFirstEntry(s.nodes, m.Keys, entry)
    requires t.functions == s.functions[newName := s.functions[name].(name := newName, owner := m[entry],
             getterName := getter)]
    requires t.conns == D.Relink(s.conns, t.Reroutes(), m, Sorted(D.Touching(s.conns, m.Keys)))
    ensures IsDuplicate(s, t, name, newName, getter, m)
  {
  }

  lemma SizeFits(s: Store, g: string, list: seq<int>)
    requires g in s.graphs && Ids(list) == s.graphs[g].nodes && forall i, j :: 0 <= i < j < |list| ==> list[i] < list[j]
    requires forall n :: n in s.nodes ==> n + |s.graphs[g].nodes| < NODE_LIMIT
    ensures forall n :: n in s.nodes ==> n + |list| < NODE_LIMIT
  {
    AscendingSize(list);
  }

  lemma TableFits(s: Store, t: Store, g: string, m: D.IdMap, name: string)
    requires Prepared(s, name, g) && WithCopies(s, t, g, m) && g in s.graphs
    ensures forall id :: id in m ==> 0 <= m[id] < NODE_LIMIT
    ensures name in t.graphs && name in s.graphs && t.graphs[name].nodes == s.graphs[name].nodes
    ensures g in t.graphs && t.graphs[g].nodes == D.Copies(m)
    ensures t.conns == s.conns && t.functions == s.functions
  {
  }

  method WiresOfGraph(o: Orchestration, g: string) returns (q: seq<Connection>)
    requires o.Valid() && g in o.graphs
    ensures g in o.state.graphs && q == Sorted(D.Touching(o.state.conns, o.state.graphs[g].nodes))
  {
    var graph := o.graphs[g];
    q := Sorted(set c | c in o.cache.connections && (c.fromNode in graph.nodes || c.toNode in graph.nodes));
    assert (set c | c in o.cache.connections && (c.fromNode in graph.nodes || c.toNode in graph.nodes))
        == D.Touching(o.state.conns, o.state.graphs[g].nodes);
  }

  /** The first half: the new graph with its copies, and the new function; without it, everything is undone. */
  method CopyFunction(o: Orchestration, name: string, newName: string, taken: bool, getter: bool)
      returns (created: bool, m: D.IdMap)
    requires o.Valid() && CanDuplicate(o.state, name, newName)
    modifies o, o.cache, o.graphs.Values
    ensures o.Valid() && created == !taken && fresh(o.graphs.Values - old(o.graphs.Values))
    ensures taken ==> o.state == old(o.state)
    ensures !taken ==> FunctionCopied(old(o.state), o.state, name, newName, getter, m)
  {
    hide *;
    ghost var s := o.state;
    Prepare(s, name, newName);
    NewNameIsNew(s, name, newName);
    var made := CreateGraph(o, newName, true, false);
    ghost var prepared := o.state;
    PreparedParts(prepared, name, newName);
    o.Fields();
    o.GraphFields(name);
    var original := o.functions[name];
    var nodes := o.nodes;
    var list := NodesInOrder(o.graphs[name].nodes);
    SizeFits(prepared, name, list);
    m := CopyNodes(o, name, newName, list);
    var entry := FirstEntry(nodes, list);
    ghost var t := o.state;
    EntryInTable(nodes, m.Keys, entry);
    WithCopiesParts(prepared, t, newName, m);
    created := RegisterFunction(o, original.(name := newName, owner := m[entry], getterName := getter), taken);
    if !created {
      RolledBack(s, t, name, newName, m);
      RemoveGraph(o, newName);
    } else {
      FunctionCopiedParts(s, t, name, newName, getter, m, entry);
    }
  }

  /** The state after the first half. */
  ghost predicate FunctionCopied(s: Store, t: Store, name: string, newName: string, getter: bool, m: D.IdMap) {
    && name in s.functions && name in s.graphs && newName in s.CreateGraph(newName, true, false).graphs
    && exists entry ::
         && IsFirstEntry(s.nodes, m.Keys, entry) && entry in m && m.Keys == s.graphs[name].nodes
         && t.functions == s.functions[newName := s.functions[name].(name := newName, owner := m[entry],
            getterName := getter)]
         && WithCopies(s.CreateGraph(newName, true, false), t.(functions := s.functions), newName, m)
  }

  lemma FunctionCopiedParts(s: Store, t: Store, name: string, newName: string, getter: bool, m: D.IdMap, entry: int)
    requires name in s.functions && name in s.graphs && newName in s.CreateGraph(newName, true, false).graphs
    requires IsFirstEntry(s.nodes, m.Keys, entry) && entry in m && m.Keys == s.graphs[name].nodes
    requires WithCopies(s.CreateGraph(newName, true, false), t, newName, m) && t.functions == s.functions
    ensures var f := s.functions[name].(name := newName, owner := m[entry], getterName := getter);
            FunctionCopied(s, t.(functions := t.functions[newName := f]), name, newName, getter, m)
  {
    var f := s.functions[name].(name := newName, owner := m[entry], getterName := getter);
    assert t.(functions := t.functions[newName := f]).(functions := s.functions) == t;
  }

  lemma FunctionCopiedMeans(s: Store, t: Store, name: string, newName: string, getter: bool, m: D.IdMap)
      returns (entry: int)
    requires CanDuplicate(s, name, newName) && FunctionCopied(s, t, name, newName, getter, m)
    ensures name in s.functions && name in s.graphs && newName in s.CreateGraph(newName, true, false).graphs
    ensures IsFirstEntry(s.nodes, m.Keys, entry) && entry in m && m.Keys == s.graphs[name].nodes
    ensures t.functions == s.functions[newName := s.functions[name].(name := newName, owner := m[entry],
            getterName := getter)]
    ensures WithCopies(s.CreateGraph(newName, true, false), t.(functions := s.functions), newName, m)
    ensures Prepared(s.CreateGraph(newName, true, false), name, newName)
    ensures s.CreateGraph(newName, true, false).conns == s.conns
    ensures newName in t.graphs && name in t.graphs && t.graphs[newName].nodes == D.Copies(m)
    ensures t.graphs[name].nodes == s.graphs[name].nodes && t.conns == s.conns
    ensures forall id :: id in m ==> 0 <= m[id] < NODE_LIMIT
  {
    hide *;
    Prepare(s, name, newName);
    entry := FunctionCopiedEntry(s, t, name, newName, getter, m);
    TableFits(s.CreateGraph(newName, true, false), t.(functions := s.functions), newName, m, name);
  }

  lemma FunctionCopiedEntry(s: Store, t: Store, name: string, newName: string, getter: bool, m: D.IdMap)
      returns (entry: int)
    requires FunctionCopied(s, t, name, newName, getter, m)
    ensures name in s.functions && name in s.graphs && newName in s.CreateGraph(newName, true, false).graphs
    ensures IsFirstEntry(s.nodes, m.Keys, entry) && entry in m && m.Keys == s.graphs[name].nodes
    ensures t.functions == s.functions[newName := s.functions[name].(name := newName, owner := m[entry],
            getterName := getter)]
    ensures WithCopies(s.CreateGraph(newName, true, false), t.(functions := s.functions), newName, m)
  {
    entry :|
      && IsFirstEntry(s.nodes, m.Keys, entry) && entry in m && m.Keys == s.graphs[name].nodes
      && t.functions == s.functions[newName := s.functions[name].(name := newName, owner := m[entry],
         getterName := getter)]
      && WithCopies(s.CreateGraph(newName, true, false), t.(functions := s.functions), newName, m);
  }

  /**
    `duplicate_function` with its code, under the name that was found free of functions; `taken` says
    whether a variable or a signal has it.
   */
  method DuplicateFunction(o: Orchestration, name: string, newName: string, taken: bool, getter: bool)
      returns (created: bool, m: D.IdMap)
    requires o.Valid() && CanDuplicate(o.state, name, newName)
    modifies o, o.cache, o.graphs.Values
    ensures o.Valid() && created == !taken && name in old(o.state).functions && name in old(o.state).graphs
    ensures taken ==> o.state == old(o.state)
    ensures !taken ==> IsDuplicate(old(o.state), o.state, name, newName, getter, m)
  {
    hide *;
    ghost var s := o.state;
    Prepare(s, name, newName);
    created, m := CopyFunction(o, name, newName, taken, getter);
    if !created {
      return;
    }
    ghost var t := o.state;
    ghost var entry := FunctionCopiedMeans(s, t, name, newName, getter, m);
    o.Fields();
    o.GraphFields(newName);
    var copies := NodesInOrder(o.graphs[newName].nodes);
    SetTerminators(o, copies, newName);
    o.Fields();
    var q := WiresOfGraph(o, name);
    FinishedInSteps(s, t.(functions := s.functions), name, newName, getter, m, entry, q, copies);
    RelinkCopies(o, m, q);
  }

  lemma EntryInTable(nodes: map<int, NodeState>, ids: set<int>, entry: int)
    requires IsFirstEntry(nodes, ids, entry)
    ensures entry in ids
  {
  }

  // ----- There always is a duplicate -----

  /** A table of the ids from `base` on, one for each node. */
  ghost predicate NumbersFrom(m: D.IdMap, ids: set<int>, base: int) {
    && m.Keys == ids
    && (forall id :: id in m ==> base <= m[id] < base + |ids|)
    && (forall a, b :: a in m && b in m && m[a] == m[b] ==> a == b)
  }

  /** Fresh ids for a set of nodes, and the copies under them. */
  lemma CopiesExist(before: map<int, NodeState>, ids: set<int>, base: int, newName: string)
      returns (m: D.IdMap, nodes: map<int, NodeState>)
    requires ids <= before.Keys && base > 0 && forall n :: n in before ==> n < base
    ensures NumbersFrom(m, ids, base) && m.Keys == ids && NodesDuplicated(before, nodes, m, newName)
    decreases ids
  {
    hide *;
    if ids == {} {
      m, nodes := map[], before;
      NoNumbers(before, base, newName);
    } else {
      var x := SomeId(ids);
      var rest, others := CopiesExist(before, ids - {x}, base, newName);
      var copy := base + |ids| - 1;
      m, nodes := rest[x := copy], others[copy := Terminated(CopyOf(before[x], copy), newName)];
      NumbersMore(rest, ids, x, base);
      assert copy !in before;
      CopiesMore(before, others, rest, x, copy, newName);
    }
  }

  lemma NoNumbers(before: map<int, NodeState>, base: int, newName: string)
    ensures NumbersFrom(map[], {}, base) && NodesDuplicated(before, before, map[], newName)
  {
    assert D.Copies(map[]) == {};
  }

  /** The table with one more id. */
  lemma NumbersMore(m: D.IdMap, ids: set<int>, x: int, base: int)
    requires x in ids && NumbersFrom(m, ids - {x}, base)
    ensures NumbersFrom(m[x := base + |ids| - 1], ids, base) && base + |ids| - 1 >= base
    ensures forall id :: id in m ==> m[id] != base + |ids| - 1
  {
    assert |ids - {x}| == |ids| - 1;
  }

  lemma CopiesMore(before: map<int, NodeState>, nodes: map<int, NodeState>, m: D.IdMap, id: int, copy: int,
                   newName: string)
    requires m.Keys <= before.Keys && NodesDuplicated(before, nodes, m, newName) && id in before && id !in m
    requires copy !in before && forall n :: n in m ==> m[n] != copy
    ensures NodesDuplicated(before, nodes[copy := Terminated(CopyOf(before[id], copy), newName)], m[id := copy],
            newName)
  {
    hide Terminated, CopyOf;
    CopiesGrow(m, id, copy);
    assert forall n :: n in m ==> m[n] in D.Copies(m);
  }

  lemma CopiesGrow(m: D.IdMap, id: int, copy: int)
    requires id !in m
    ensures D.Copies(m[id := copy]) == D.Copies(m) + {copy}
  {
    var more := m[id := copy];
    forall n ensures n in D.Copies(more) <==> n in D.Copies(m) + {copy} {
      if o :| o in m && n == m[o] {
        assert o in more && more[o] == n;
      }
      assert id in more && more[id] == copy;
    }
  }

  lemma FirstEntryExists(nodes: map<int, NodeState>, ids: set<int>) returns (entry: int)
    requires HasEntry(nodes, ids)
    ensures IsFirstEntry(nodes, ids, entry)
    decreases ids
  {
    var n :| n in ids && n in nodes && nodes[n].kind.FunctionEntry?;
    if HasEntry(nodes, ids - {n}) {
      var other := FirstEntryExists(nodes, ids - {n});
      entry := if n < other then n else other;
    } else {
      entry := n;
      forall k | k in ids && k in nodes && nodes[k].kind.FunctionEntry? ensures entry <= k {
        assert k in ids - {n} || k == n;
      }
    }
  }

  lemma LargestId(ids: set<int>) returns (base: int)
    requires ids != {}
    ensures base - 1 in ids && forall n :: n in ids ==> n < base
    decreases ids
  {
    var x := SomeId(ids);
    if ids - {x} == {} {
      base := x + 1;
      assert forall n :: n in ids && n != x ==> n in ids - {x};
    } else {
      var other := LargestId(ids - {x});
      base := if x + 1 > other then x + 1 else other;
      assert forall n :: n in ids && n != x ==> n in ids - {x};
    }
  }

  /** Whenever the code may start, there is a store it can end in. */
  lemma DuplicateExists(s: Store, name: string, newName: string, getter: bool) returns (t: Store, m: D.IdMap)
    requires CanDuplicate(s, name, newName)
    ensures name in s.functions && name in s.graphs && IsDuplicate(s, t, name, newName, getter, m)
  {
    var ids := s.graphs[name].nodes;
    GraphNodesExist(s, name);
    assert HasEntry(s.nodes, ids);
    var entry := FirstEntryExists(s.nodes, ids);
    var base := LargestId(s.nodes.Keys);
    assert base - 1 in s.nodes && 0 <= base - 1;
    var nodes;
    m, nodes := CopiesExist(s.nodes, ids, base, newName);
    hide Store.Tidy, NodesDuplicated, CanDuplicate, D.Relink, IsFirstEntry;
    assert IsTable(s.nodes, m);
    var f := s.functions[name].(name := newName, owner := m[entry], getterName := getter);
    var u := Store(s.conns, nodes,
                   s.graphs[newName := GraphState(newName, true, false, D.Copies(m), EntryCopies(s.nodes, m), map[])],
                   s.functions[newName := f]);
    t := u.(conns := D.Relink(s.conns, u.Reroutes(), m, Sorted(D.Touching(s.conns, m.Keys))));
    SameReroutes(u, t);
    DuplicateParts(s, t, name, newName, getter, m, entry);
  }

  lemma GraphNodesExist(s: Store, g: string)
    requires s.Tidy() && g in s.graphs
    ensures s.graphs[g].nodes <= s.nodes.Keys && forall n :: n in s.nodes ==> 0 <= n < NODE_LIMIT
  {
    forall n | n in s.graphs[g].nodes ensures n in s.nodes {
      assert s.Holds(g, n);
    }
  }

  // ----- What the duplicate is -----

  lemma CopyKind(n: NodeState, id: int, name: string)
    ensures Terminated(CopyOf(n, id), name).IsReroute() == n.IsReroute()
    ensures Terminated(CopyOf(n, id), name).inputs == CopyOf(n, id).inputs
    ensures Terminated(CopyOf(n, id), name).outputs == CopyOf(n, id).outputs
    ensures Terminated(CopyOf(n, id), name).id == id
  {
  }

  lemma DuplicateIsCopying(s: Store, t: Store, name: string, newName: string, getter: bool, m: D.IdMap)
    requires CanDuplicate(s, name, newName) && IsDuplicate(s, t, name, newName, getter, m)
    ensures D.Copying(s.conns, t.Reroutes(), s.nodes.Keys, m)
    ensures forall n :: n in s.nodes ==> (n in t.Reroutes() <==> n in s.Reroutes())
  {
    forall n | n in m ensures m[n] in t.Reroutes() <==> n in t.Reroutes() {
      assert m[n] in D.Copies(m);
      CopyKind(s.nodes[n], m[n], newName);
    }
  }

  lemma ReachesAmong(e: set<Connection>, R: set<int>, Q: set<int>, a: int, b: int)
    requires forall c :: c in e ==> (c.fromNode in R ==> c.fromNode in Q) && (c.toNode in R ==> c.toNode in Q)
    requires a in R ==> a in Q
    requires Reaches(e, R, a, b)
    ensures Reaches(e, Q, a, b)
  {
    var path :| IsPath(e, R, path) && path[0] == a && path[|path| - 1] == b;
    forall i | 0 <= i < |path| - 1 ensures Hop(e, Q, path[i], path[i + 1]) {
      assert Hop(e, R, path[i], path[i + 1]);
    }
    assert IsPath(e, Q, path);
  }

  /** Whether the originals lie on a cycle does not depend on the copies. */
  lemma InnerCycleAmong(s: set<Connection>, R: set<int>, Q: set<int>, nodes: set<int>)
    requires forall n :: n in nodes ==> (n in R <==> n in Q)
    requires D.NoInnerCycle(s, R, nodes)
    ensures D.NoInnerCycle(s, Q, nodes)
  {
    var e := D.Inside(s, nodes);
    forall a | a in nodes ensures !ReachesAgain(e, Q, a, a) {
      assert !ReachesAgain(e, R, a, a);
      forall n | Hop(e, Q, a, n) && Reaches(e, Q, n, a) ensures Hop(e, R, a, n) && Reaches(e, R, n, a) {
        assert n in nodes;
        ReachesAmong(e, Q, R, n, a);
      }
    }
  }

  /**
    The copy is isomorphic to the original, and the wires that were there are all there still, if and only
    if no wire leaves the graph and no cycle of reroutes lies in it.
   */
  lemma DuplicateIsIsomorphic(s: Store, t: Store, name: string, newName: string, getter: bool, m: D.IdMap)
    requires CanDuplicate(s, name, newName) && IsDuplicate(s, t, name, newName, getter, m)
    ensures t.conns == s.conns + D.Images(m, D.Inside(s.conns, m.Keys)) <==>
            D.StaysInside(s.conns, m.Keys) && D.NoInnerCycle(s.conns, s.Reroutes(), m.Keys)
  {
    DuplicateIsCopying(s, t, name, newName, getter, m);
    D.DuplicateIsIsomorphicIff(s.conns, t.Reroutes(), s.nodes.Keys, m);
    hide D.StaysInside, D.Images, D.Inside, D.Relink;
    if D.NoInnerCycle(s.conns, s.Reroutes(), m.Keys) {
      InnerCycleAmong(s.conns, s.Reroutes(), t.Reroutes(), m.Keys);
    }
    if D.NoInnerCycle(s.conns, t.Reroutes(), m.Keys) {
      InnerCycleAmong(s.conns, t.Reroutes(), s.Reroutes(), m.Keys);
    }
  }

  // ----- Wires that leave the graph -----

  /** The wires with one end in the graph: the table has no entry for the other. */
  function Leaving(s: set<Connection>, nodes: set<int>): set<Connection> {
    D.Touching(s, nodes) - D.Inside(s, nodes)
  }

  /** Where the copy of a leaving wire ends: the lookup of the missing entry gives node 0. */
  function StrayEnd(nodes: set<int>, c: Connection): PinRef {
    if c.fromNode in nodes then PinRef(0, PD_Input, c.toPort) else PinRef(0, PD_Output, c.fromPort)
  }

  /** The leaving wire will be linked to node 0. */
  ghost predicate IsStray(s: Store, nodes: set<int>, c: Connection) {
    c in Leaving(s.conns, nodes) && WillLink(s.conns, s.Reroutes(), nodes, c)
  }

  lemma StaysInsideIs(s: set<Connection>, nodes: set<int>)
    ensures D.StaysInside(s, nodes) <==> Leaving(s, nodes) == {}
  {
    hide D.Touching, D.Inside;
    if D.StaysInside(s, nodes) {
      assert forall c :: c !in Leaving(s, nodes);
    } else {
      var c :| c in D.Touching(s, nodes) && c !in D.Inside(s, nodes);
      assert c in Leaving(s, nodes);
    }
  }

  /** The end of a copied wire, on either side. */
  lemma ImageEnd(nodes: map<int, NodeState>, m: D.IdMap, c: Connection, dir: Direction)
    requires IsTable(nodes, m)
    ensures c.End(dir).node in m ==> D.Image(m, c).End(dir) == c.End(dir).(node := m[c.End(dir).node])
    ensures c.End(dir).node !in m ==> D.Image(m, c).End(dir) == c.End(dir).(node := 0)
    ensures D.Image(m, c).fromNode in D.Copies(m) + {0} && D.Image(m, c).toNode in D.Copies(m) + {0}
  {
    assert D.Image(m, c) == Connection(D.Lookup(m, c.fromNode), c.fromPort, D.Lookup(m, c.toNode), c.toPort);
  }

  lemma StrayEnds(nodes: map<int, NodeState>, m: D.IdMap, c: Connection)
    requires IsTable(nodes, m) && (c.fromNode in m) != (c.toNode in m)
    ensures var e, d := StrayEnd(m.Keys, c), D.Image(m, c);
            && d.End(e.dir) == e && e == c.End(e.dir).(node := 0)
            && c.End(e.dir.Opposite()).node in m
            && d.End(e.dir.Opposite()) == c.End(e.dir.Opposite()).(node := m[c.End(e.dir.Opposite()).node])
            && d.End(e.dir.Opposite()).node !in nodes
  {
    ImageEnd(nodes, m, c, PD_Output);
    ImageEnd(nodes, m, c, PD_Input);
    hide D.Image;
  }

  /** Which wires the duplicate has. */
  lemma DuplicateConns(s: Store, t: Store, m: D.IdMap)
    requires t.conns == D.Relink(s.conns, t.Reroutes(), m, Sorted(D.Touching(s.conns, m.Keys)))
    ensures s.conns <= t.conns
    ensures t.conns <= s.conns + D.Images(m, D.Inside(s.conns, m.Keys)) + D.Images(m, Leaving(s.conns, m.Keys))
  {
    var q := Sorted(D.Touching(s.conns, m.Keys));
    D.RelinkBound(s.conns, t.Reroutes(), m, q);
    D.RelinkGrows(s.conns, t.Reroutes(), m, q, 0);
    assert q[..0] == [];
    hide D.Image;
    forall e | e in D.Images(m, D.Members(q)) && e !in D.Images(m, D.Inside(s.conns, m.Keys))
      ensures e in D.Images(m, Leaving(s.conns, m.Keys))
    {
      var c :| c in D.Members(q) && e == D.Image(m, c);
      assert c !in D.Inside(s.conns, m.Keys);
    }
  }

  lemma LeavingMeans(s: set<Connection>, nodes: set<int>)
    ensures forall c :: c in Leaving(s, nodes) <==> c in s && (c.fromNode in nodes) != (c.toNode in nodes)
  {
  }

  /** Of the wires that leave the graph at least one is linked to node 0. */
  lemma SomeStrayLinked(s: set<Connection>, R: set<int>, used: set<int>, m: D.IdMap) returns (c: Connection)
    requires D.Copying(s, R, used, m) && !D.StaysInside(s, m.Keys)
    ensures c in Leaving(s, m.Keys) && D.Image(m, c) in D.Relink(s, R, m, Sorted(D.Touching(s, m.Keys)))
    ensures D.Image(m, c) !in s
  {
    var q := Sorted(D.Touching(s, m.Keys));
    var e := D.Inside(s, m.Keys);
    var x :| x in D.Touching(s, m.Keys) && x !in e;
    assert x in q && !(x.fromNode in m.Keys && x.toNode in m.Keys);
    var k := D.FirstStray(q, m.Keys);
    assert q[k] in q;
    forall d | d in q[..k] ensures d in e {
      assert d in q;
    }
    D.FirstStrayLinked(s, R, used, m, q, k);
    c := q[k];
  }

  /** Which of them is known before the call. */
  lemma LinkedAsPlanned(s: Store, t: Store, name: string, newName: string, getter: bool, m: D.IdMap, c: Connection)
    requires CanDuplicate(s, name, newName) && IsDuplicate(s, t, name, newName, getter, m)
    requires c in Leaving(s.conns, m.Keys)
    ensures D.Image(m, c) in t.conns <==> IsStray(s, m.Keys, c)
  {
    hide *;
    var entry := IsDuplicateParts(s, t, name, newName, getter, m);
    DuplicateIsCopying(s, t, name, newName, getter, m);
    IdsHaveRoom(s, name, newName, m);
    ZeroIsOld(s, t, name, newName, getter, m);
    SameMoved(s.Reroutes(), t.Reroutes(), m.Keys);
    ReadyIs(s.conns, t.Reroutes(), s.nodes.Keys, m);
    LeavingTouches(s.conns, m.Keys, c);
    LinkedAsRehearsed(s.conns, t.Reroutes(), s.nodes.Keys, m, c);
    SameRehearsal(s.conns, s.Reroutes(), t.Reroutes(), m.Keys, c);
    IsStrayIs(s, m.Keys, c);
  }

  lemma ReadyIs(s: set<Connection>, R: set<int>, used: set<int>, m: D.IdMap)
    requires D.Copying(s, R, used, m) && forall n :: n in used ==> 0 <= n && n + 1 < NODE_LIMIT
    ensures Ready(s, R, used, m)
  {
  }

  lemma LeavingTouches(s: set<Connection>, nodes: set<int>, c: Connection)
    requires c in Leaving(s, nodes)
    ensures c in D.Touching(s, nodes)
  {
  }

  lemma IsStrayIs(s: Store, nodes: set<int>, c: Connection)
    ensures IsStray(s, nodes, c) <==> c in Leaving(s.conns, nodes) && WillLink(s.conns, s.Reroutes(), nodes, c)
  {
  }

  lemma IdsHaveRoom(s: Store, name: string, newName: string, m: D.IdMap)
    requires CanDuplicate(s, name, newName) && m.Keys == s.graphs[name].nodes
    ensures forall n :: n in s.nodes ==> 0 <= n && n + 1 < NODE_LIMIT
  {
    GraphNodesExist(s, name);
    assert m.Keys != {} by {
      assert HasEntry(s.nodes, m.Keys);
    }
    assert |m.Keys| > 0;
  }

  /** Only the reroutes of the graph and node 0 matter to the rehearsal. */
  lemma SameMoved(R: set<int>, Q: set<int>, nodes: set<int>)
    requires (forall n :: n in nodes ==> (n in R <==> n in Q)) && (0 in R <==> 0 in Q)
    ensures MovedReroutes(R, nodes) == MovedReroutes(Q, nodes)
  {
  }

  lemma SameRehearsal(s: set<Connection>, R: set<int>, Q: set<int>, nodes: set<int>, c: Connection)
    requires MovedReroutes(R, nodes) == MovedReroutes(Q, nodes)
    ensures WillLink(s, R, nodes, c) <==> WillLink(s, Q, nodes, c)
  {
    hide D.Relink, D.Image;
  }

  /** Unless node 0 is a reroute, all of them are linked. */
  lemma AllAreStrays(s: Store, nodes: set<int>)
    requires 0 !in s.Reroutes() && forall n :: n in nodes ==> 0 <= n
    ensures forall c :: IsStray(s, nodes, c) <==> c in Leaving(s.conns, nodes)
  {
    hide WillLink, Store.Reroutes;
    forall c | c in Leaving(s.conns, nodes) ensures IsStray(s, nodes, c) {
      LeavingIsLinked(s.conns, s.Reroutes(), nodes, c);
    }
  }

  /** Node 0 is no copy. */
  lemma ZeroIsOld(s: Store, t: Store, name: string, newName: string, getter: bool, m: D.IdMap)
    requires CanDuplicate(s, name, newName) && IsDuplicate(s, t, name, newName, getter, m)
    ensures 0 in t.nodes <==> 0 in s.nodes
    ensures 0 in t.Reroutes() <==> 0 in s.Reroutes()
    ensures forall dir, port :: t.HasPin(PinRef(0, dir, port)) <==> s.HasPin(PinRef(0, dir, port))
    ensures forall dir, port :: t.IsExecutionPin(PinRef(0, dir, port)) <==> s.IsExecutionPin(PinRef(0, dir, port))
  {
    assert 0 !in D.Copies(m);
    assert 0 in s.nodes ==> t.nodes[0] == s.nodes[0];
  }

  // ----- What stays as it was -----

  /** The old function, its graph and its nodes stay as they were, whatever is linked. */
  lemma DuplicateKeepsOriginal(s: Store, t: Store, name: string, newName: string, getter: bool, m: D.IdMap)
    requires CanDuplicate(s, name, newName) && IsDuplicate(s, t, name, newName, getter, m)
    ensures forall n :: n in s.nodes ==> n in t.nodes && t.nodes[n] == s.nodes[n]
    ensures forall g :: g in s.graphs ==> g in t.graphs && t.graphs[g] == s.graphs[g]
    ensures forall f :: f in s.functions ==> f in t.functions && t.functions[f] == s.functions[f]
    ensures s.conns <= t.conns
  {
    TablesKept(s, t, name, newName, getter, m);
    hide *;
    IsDuplicateConns(s, t, name, newName, getter, m);
    DuplicateConns(s, t, m);
  }

  lemma TablesKept(s: Store, t: Store, name: string, newName: string, getter: bool, m: D.IdMap)
    requires CanDuplicate(s, name, newName) && IsDuplicate(s, t, name, newName, getter, m)
    ensures forall n :: n in s.nodes ==> n in t.nodes && t.nodes[n] == s.nodes[n]
    ensures forall g :: g in s.graphs ==> g in t.graphs && t.graphs[g] == s.graphs[g]
    ensures forall f :: f in s.functions ==> f in t.functions && t.functions[f] == s.functions[f]
  {
    hide D.Relink, D.Touching, Store.Tidy, HasEntry, IsFirstEntry, IsTable, EntryCopies, D.Copies, Terminated, CopyOf,
         IsIdentifier;
  }

  lemma IsDuplicateConns(s: Store, t: Store, name: string, newName: string, getter: bool, m: D.IdMap)
    requires CanDuplicate(s, name, newName) && IsDuplicate(s, t, name, newName, getter, m)
    ensures t.conns == D.Relink(s.conns, t.Reroutes(), m, Sorted(D.Touching(s.conns, m.Keys)))
  {
    hide D.Relink, D.Touching, Store.Tidy, HasEntry, IsFirstEntry, IsTable, EntryCopies, D.Copies, NodesDuplicated,
         IsIdentifier;
  }

  lemma InsideEnds(nodes: map<int, NodeState>, s: set<Connection>, m: D.IdMap, c: Connection)
    requires IsTable(nodes, m) && c in D.Inside(s, m.Keys)
    ensures D.Image(m, c).fromNode in D.Copies(m) && D.Image(m, c).toNode in D.Copies(m)
    ensures D.Image(m, c).fromNode !in nodes && D.Image(m, c).toNode !in nodes
  {
    ImageEnd(nodes, m, c, PD_Output);
    ImageEnd(nodes, m, c, PD_Input);
  }

  ghost predicate SameWiresAtOldNodes(s: Store, t: Store) {
    forall c: Connection :: c.fromNode in s.nodes || c.toNode in s.nodes ==> (c in t.conns <==> c in s.conns)
  }

  lemma OldWiresUntouched(s: Store, t: Store, m: D.IdMap)
    requires IsTable(s.nodes, m) && s.conns <= t.conns
    requires t.conns <= s.conns + D.Images(m, D.Inside(s.conns, m.Keys)) + D.Images(m, Leaving(s.conns, m.Keys))
    requires Leaving(s.conns, m.Keys) == {} || 0 !in s.nodes
    ensures SameWiresAtOldNodes(s, t)
  {
    hide D.Image, D.Inside, Leaving, IsTable;
    forall c: Connection | (c.fromNode in s.nodes || c.toNode in s.nodes) && c in t.conns ensures c in s.conns {
      if c !in s.conns {
        if x :| x in D.Inside(s.conns, m.Keys) && c == D.Image(m, x) {
          InsideEnds(s.nodes, s.conns, m, x);
        } else {
          var x :| x in Leaving(s.conns, m.Keys) && c == D.Image(m, x);
          LeavingEnds(s.nodes, s.conns, m, x);
        }
      }
    }
  }

  lemma LeavingEnds(nodes: map<int, NodeState>, s: set<Connection>, m: D.IdMap, c: Connection)
    requires IsTable(nodes, m) && c in Leaving(s, m.Keys)
    ensures D.Image(m, c).fromNode == 0 || D.Image(m, c).toNode == 0
    ensures D.Image(m, c).fromNode in nodes ==> D.Image(m, c).fromNode == 0
    ensures D.Image(m, c).toNode in nodes ==> D.Image(m, c).toNode == 0
  {
    StrayEnds(nodes, m, c);
  }

  lemma OldWireAdded(s: Store, t: Store, c: Connection)
    requires c in t.conns && c !in s.conns && (c.fromNode in s.nodes || c.toNode in s.nodes)
    ensures !SameWiresAtOldNodes(s, t)
  {
  }

  /** And the wires at old nodes, exactly when no wire leaves the graph or there is no node 0 to link to. */
  lemma OldWiresIff(s: Store, t: Store, name: string, newName: string, getter: bool, m: D.IdMap)
    requires CanDuplicate(s, name, newName) && IsDuplicate(s, t, name, newName, getter, m)
    ensures SameWiresAtOldNodes(s, t) <==> D.StaysInside(s.conns, m.Keys) || 0 !in s.nodes
  {
    hide *;
    var entry := IsDuplicateParts(s, t, name, newName, getter, m);
    DuplicateConns(s, t, m);
    StaysInsideIs(s.conns, m.Keys);
    if D.StaysInside(s.conns, m.Keys) || 0 !in s.nodes {
      OldWiresUntouched(s, t, m);
    } else {
      DuplicateIsCopying(s, t, name, newName, getter, m);
      var c := SomeStrayLinked(s.conns, t.Reroutes(), s.nodes.Keys, m);
      LeavingEnds(s.nodes, s.conns, m, c);
      OldWireAdded(s, t, D.Image(m, c));
    }
  }

  // ----- The duplicate keeps the invariant -----

  lemma CopySound(n: NodeState, id: int)
    requires n.Sound()
    ensures n.(id := id).Cache().Sound()
  {
    CacheSound(n.(id := id));
  }

  lemma CopyPins(n: NodeState, id: int, name: string, dir: Direction, port: int)
    requires n.Sound()
    ensures Terminated(CopyOf(n, id), name).Sound()
    ensures Terminated(CopyOf(n, id), name).HasVisiblePin(dir, port) == n.HasVisiblePin(dir, port)
  {
    CopySound(n, id);
    CopyKind(n, id, name);
  }

  lemma DuplicateNodesSound(s: Store, t: Store, m: D.IdMap, newName: string)
    requires s.NodesSound() && IsTable(s.nodes, m) && NodesDuplicated(s.nodes, t.nodes, m, newName)
    ensures t.NodesSound()
  {
    forall n | n in t.nodes ensures 0 <= n < NODE_LIMIT && t.nodes[n].id == n && t.nodes[n].Sound() {
      if n !in s.nodes {
        var o :| o in m && m[o] == n;
        CopyPins(s.nodes[o], n, newName, PD_Input, 0);
        CopyKind(s.nodes[o], n, newName);
      }
    }
  }

  /** The copy of a pin is there. */
  lemma DuplicatePin(s: Store, t: Store, m: D.IdMap, newName: string, p: PinRef)
    requires s.NodesSound() && IsTable(s.nodes, m) && NodesDuplicated(s.nodes, t.nodes, m, newName) && p.node in s.nodes
    ensures t.HasPin(p) <==> s.HasPin(p)
    ensures p.node in m ==> (t.HasPin(p.(node := m[p.node])) <==> s.HasPin(p))
  {
    if p.node in m {
      CopyPins(s.nodes[p.node], m[p.node], newName, p.dir, p.port);
      assert m[p.node] in D.Copies(m);
    }
  }

  lemma CopiedWirePins(s: Store, t: Store, m: D.IdMap, newName: string, d: Connection)
    requires s.NodesSound() && s.Anchored() && IsTable(s.nodes, m) && NodesDuplicated(s.nodes, t.nodes, m, newName)
    requires d in D.Inside(s.conns, m.Keys)
    ensures t.HasPin(D.Image(m, d).End(PD_Output)) && t.HasPin(D.Image(m, d).End(PD_Input))
  {
    assert s.HasPin(d.End(PD_Output)) && s.HasPin(d.End(PD_Input));
    CopiedEnds(s, m, d);
    hide D.Image, D.Inside, IsTable, NodesDuplicated, Store.HasPin, Store.NodesSound, Store.Anchored;
    DuplicatePin(s, t, m, newName, d.End(PD_Output));
    DuplicatePin(s, t, m, newName, d.End(PD_Input));
  }

  lemma CopiedEnds(s: Store, m: D.IdMap, d: Connection)
    requires s.Anchored() && IsTable(s.nodes, m) && d in D.Inside(s.conns, m.Keys)
    ensures d.fromNode in m && d.toNode in m && d.fromNode in s.nodes && d.toNode in s.nodes
    ensures D.Image(m, d).End(PD_Output) == d.End(PD_Output).(node := m[d.fromNode])
    ensures D.Image(m, d).End(PD_Input) == d.End(PD_Input).(node := m[d.toNode])
  {
    AnchoredIsWired(s);
    assert D.Image(m, d) == Connection(m[d.fromNode], d.fromPort, m[d.toNode], d.toPort);
  }

  lemma OldWirePins(s: Store, t: Store, m: D.IdMap, newName: string, c: Connection)
    requires s.NodesSound() && s.Anchored() && IsTable(s.nodes, m) && NodesDuplicated(s.nodes, t.nodes, m, newName)
    requires c in s.conns
    ensures t.HasPin(c.End(PD_Output)) && t.HasPin(c.End(PD_Input))
  {
    assert s.HasPin(c.End(PD_Output)) && s.HasPin(c.End(PD_Input));
    DuplicatePin(s, t, m, newName, c.End(PD_Output));
    DuplicatePin(s, t, m, newName, c.End(PD_Input));
  }

  /** The copy of a leaving wire joins two visible pins exactly when its stray end is one. */
  lemma StrayPins(s: Store, t: Store, m: D.IdMap, newName: string, c: Connection)
    requires s.NodesSound() && s.Anchored() && IsTable(s.nodes, m) && NodesDuplicated(s.nodes, t.nodes, m, newName)
    requires c in Leaving(s.conns, m.Keys)
    ensures var e := StrayEnd(m.Keys, c);
            && D.Image(m, c).End(e.dir) == e && (t.HasPin(e) <==> s.HasPin(e))
            && t.HasPin(D.Image(m, c).End(e.dir.Opposite()))
  {
    LeavingMeans(s.conns, m.Keys);
    StrayEnds(s.nodes, m, c);
    assert s.HasPin(c.End(PD_Output)) && s.HasPin(c.End(PD_Input));
    var e := StrayEnd(m.Keys, c);
    hide D.Image, StrayEnd, Store.HasPin;
    DuplicatePin(s, t, m, newName, c.End(e.dir.Opposite()));
    ZeroPin(s, t, m, newName, e);
  }

  lemma ZeroPin(s: Store, t: Store, m: D.IdMap, newName: string, p: PinRef)
    requires IsTable(s.nodes, m) && NodesDuplicated(s.nodes, t.nodes, m, newName) && p.node == 0
    ensures t.HasPin(p) <==> s.HasPin(p)
    ensures t.IsExecutionPin(p) <==> s.IsExecutionPin(p)
  {
    assert 0 !in D.Copies(m);
  }

  /** Every leaving wire that will be linked ends at a visible pin of node 0. */
  ghost predicate StraysOnPins(s: Store, nodes: set<int>) {
    forall c :: IsStray(s, nodes, c) ==> s.HasPin(StrayEnd(nodes, c))
  }

  /** The same of those that have been linked. */
  ghost predicate LinkedOnPins(s: Store, conns: set<Connection>, m: D.IdMap) {
    forall c :: c in Leaving(s.conns, m.Keys) && D.Image(m, c) in conns ==> s.HasPin(StrayEnd(m.Keys, c))
  }

  lemma DuplicateAnchored(s: Store, t: Store, m: D.IdMap, newName: string)
    requires s.NodesSound() && s.Anchored() && IsTable(s.nodes, m) && NodesDuplicated(s.nodes, t.nodes, m, newName)
    requires s.conns <= t.conns
    requires t.conns <= s.conns + D.Images(m, D.Inside(s.conns, m.Keys)) + D.Images(m, Leaving(s.conns, m.Keys))
    ensures t.Anchored() <==> LinkedOnPins(s, t.conns, m)
  {
    hide Store.HasPin, NodesDuplicated, IsTable, D.Inside, D.Image, Leaving, StrayEnd, Store.NodesSound;
    if t.Anchored() {
      forall c | c in Leaving(s.conns, m.Keys) && D.Image(m, c) in t.conns ensures s.HasPin(StrayEnd(m.Keys, c)) {
        StrayPins(s, t, m, newName, c);
        AnchoredAt(t, D.Image(m, c), StrayEnd(m.Keys, c).dir);
      }
    }
    if LinkedOnPins(s, t.conns, m) {
      forall c | c in t.conns ensures t.HasPin(c.End(PD_Output)) && t.HasPin(c.End(PD_Input)) {
        if c in s.conns {
          OldWirePins(s, t, m, newName, c);
        } else if d :| d in D.Inside(s.conns, m.Keys) && c == D.Image(m, d) {
          CopiedWirePins(s, t, m, newName, d);
        } else {
          var d :| d in Leaving(s.conns, m.Keys) && c == D.Image(m, d);
          StrayPins(s, t, m, newName, d);
          assert StrayEnd(m.Keys, d).dir == PD_Output || StrayEnd(m.Keys, d).dir == PD_Input;
        }
      }
    }
  }

  lemma AnchoredAt(s: Store, c: Connection, dir: Direction)
    requires s.Anchored() && c in s.conns
    ensures s.HasPin(c.End(dir))
  {
    assert s.HasPin(c.End(PD_Output)) && s.HasPin(c.End(PD_Input));
  }

  lemma DuplicatePartition(s: Store, t: Store, m: D.IdMap, newName: string, functions: set<int>)
    requires s.Partitioned() && s.GraphsSound() && IsTable(s.nodes, m) && newName !in s.graphs
             && functions <= D.Copies(m)
    requires t.nodes.Keys == s.nodes.Keys + D.Copies(m)
    requires t.graphs == s.graphs[newName := GraphState(newName, true, false, D.Copies(m), functions, map[])]
    ensures t.Partitioned() && t.GraphsSound()
  {
    assert D.Copies(m) !! s.nodes.Keys;
    hide D.Copies, IsTable;
    forall g, n ensures t.Holds(g, n) <==> s.Holds(g, n) || (g == newName && n in D.Copies(m)) {
      assert g in t.graphs <==> g in s.graphs || g == newName;
    }
    PartitionGrows(s, t, newName, D.Copies(m));
    hide Store.Holds, Store.Partitioned;
    forall g | g in t.graphs ensures t.GraphSound(g) {
      assert g in s.graphs ==> s.GraphSound(g);
    }
  }

  lemma DuplicateFunctionsSound(s: Store, t: Store, m: D.IdMap, name: string, newName: string, entry: int, getter: bool)
    requires s.FunctionsSound() && name in s.functions && IsTable(s.nodes, m) && entry in m
    requires t.nodes.Keys == s.nodes.Keys + D.Copies(m)
    requires t.functions == s.functions[newName := s.functions[name].(name := newName, owner := m[entry],
             getterName := getter)]
    ensures t.FunctionsSound()
  {
    assert m[entry] in D.Copies(m);
  }

  lemma IsDuplicateParts(s: Store, t: Store, name: string, newName: string, getter: bool, m: D.IdMap)
      returns (entry: int)
    requires CanDuplicate(s, name, newName) && IsDuplicate(s, t, name, newName, getter, m)
    ensures s.Tidy() && newName !in s.graphs && name in s.functions && name in s.graphs
    ensures m.Keys == s.graphs[name].nodes
    ensures m.Keys <= s.nodes.Keys && IsTable(s.nodes, m) && NodesDuplicated(s.nodes, t.nodes, m, newName)
    ensures t.nodes.Keys == s.nodes.Keys + D.Copies(m)
    ensures t.conns == D.Relink(s.conns, t.Reroutes(), m, Sorted(D.Touching(s.conns, m.Keys)))
    ensures EntryCopies(s.nodes, m) <= D.Copies(m)
    ensures t.graphs == s.graphs[newName := GraphState(newName, true, false, D.Copies(m), EntryCopies(s.nodes, m),
            map[])]
    ensures entry in m
    ensures t.functions == s.functions[newName := s.functions[name].(name := newName, owner := m[entry],
            getterName := getter)]
  {
    hide D.Relink, D.Touching;
    entry :| IsFirstEntry(s.nodes, m.Keys, entry)
      && t.functions == s.functions[newName := s.functions[name].(name := newName, owner := m[entry],
         getterName := getter)];
  }

  lemma DuplicateNodesFiled(s: Store, t: Store, m: D.IdMap, newName: string)
    requires s.NodesFiled() && IsTable(s.nodes, m) && NodesDuplicated(s.nodes, t.nodes, m, newName)
    ensures t.NodesFiled()
  {
    forall n | n in t.nodes ensures 0 <= n < NODE_LIMIT && t.nodes[n].id == n && t.nodes[n].IsCached() {
      if n !in s.nodes {
        var o :| o in m && m[o] == n;
        assert s.nodes[o].IsCached();
        CacheIsCached(s.nodes[o].(id := n));
        CopyKind(s.nodes[o], n, newName);
      }
    }
  }

  lemma DuplicateWired(s: Store, t: Store, m: D.IdMap)
    requires s.Wired() && IsTable(s.nodes, m) && t.nodes.Keys == s.nodes.Keys + D.Copies(m)
    requires t.conns <= s.conns + D.Images(m, D.Inside(s.conns, m.Keys)) + D.Images(m, Leaving(s.conns, m.Keys))
    requires Leaving(s.conns, m.Keys) == {} || 0 in s.nodes
    ensures t.Wired()
  {
    hide D.Image, D.Inside, Leaving, IsTable;
    forall c | c in t.conns ensures c.fromNode in t.nodes && c.toNode in t.nodes {
      if c !in s.conns {
        if d :| d in D.Inside(s.conns, m.Keys) && c == D.Image(m, d) {
          InsideEnds(s.nodes, s.conns, m, d);
        } else {
          var d :| d in Leaving(s.conns, m.Keys) && c == D.Image(m, d);
          ImageEnd(s.nodes, m, d, PD_Output);
        }
      }
    }
  }

  /** No connection of the duplicate dangles exactly when no wire leaves the graph or there is a node 0. */
  lemma DuplicateWiredIff(s: Store, t: Store, name: string, newName: string, getter: bool, m: D.IdMap)
    requires CanDuplicate(s, name, newName) && IsDuplicate(s, t, name, newName, getter, m)
    ensures t.Wired() <==> D.StaysInside(s.conns, m.Keys) || 0 in s.nodes
  {
    hide *;
    var entry := IsDuplicateParts(s, t, name, newName, getter, m);
    TidyIs(s);
    DuplicateConns(s, t, m);
    StaysInsideIs(s.conns, m.Keys);
    ZeroIsOld(s, t, name, newName, getter, m);
    if D.StaysInside(s.conns, m.Keys) || 0 in s.nodes {
      DuplicateWired(s, t, m);
    } else {
      DuplicateIsCopying(s, t, name, newName, getter, m);
      var c := SomeStrayLinked(s.conns, t.Reroutes(), s.nodes.Keys, m);
      LeavingEnds(s.nodes, s.conns, m, c);
      if t.Wired() {
        WiredMeans(t, D.Image(m, c));
      }
    }
  }

  /**
    A duplicate keeps what holds whatever pins the nodes have, exactly when no wire leaves the graph or
    there is a node 0 for those that do.
   */
  lemma DuplicateKeepsTidy(s: Store, t: Store, name: string, newName: string, getter: bool, m: D.IdMap)
    requires CanDuplicate(s, name, newName) && IsDuplicate(s, t, name, newName, getter, m)
    ensures t.Tidy() <==> D.StaysInside(s.conns, m.Keys) || 0 in s.nodes
  {
    hide *;
    var entry := IsDuplicateParts(s, t, name, newName, getter, m);
    TidyIs(s);
    TidyIs(t);
    DuplicateNodesFiled(s, t, m, newName);
    DuplicatePartition(s, t, m, newName, EntryCopies(s.nodes, m));
    DuplicateFunctionsSound(s, t, m, name, newName, entry, getter);
    DuplicateWiredIff(s, t, name, newName, getter, m);
  }

  lemma WiredMeans(s: Store, c: Connection)
    requires s.Wired() && c in s.conns
    ensures c.fromNode in s.nodes && c.toNode in s.nodes
  {
  }

  /**
    The pin-level invariant stays exactly when every leaving wire that will be linked ends at a visible pin of
    node 0.
   */
  lemma DuplicateKeepsInv(s: Store, t: Store, name: string, newName: string, getter: bool, m: D.IdMap)
    requires CanDuplicate(s, name, newName) && IsDuplicate(s, t, name, newName, getter, m) && s.Inv()
    ensures m.Keys == s.graphs[name].nodes
    ensures t.Inv() <==> StraysOnPins(s, m.Keys)
  {
    hide *;
    var entry := IsDuplicateParts(s, t, name, newName, getter, m);
    InvIs(s);
    InvIs(t);
    DuplicateConns(s, t, m);
    DuplicateNodesSound(s, t, m, newName);
    DuplicateAnchored(s, t, m, newName);
    DuplicatePartition(s, t, m, newName, EntryCopies(s.nodes, m));
    DuplicateFunctionsSound(s, t, m, name, newName, entry, getter);
    PinsAsPlanned(s, t, name, newName, getter, m);
  }

  lemma PinsAsPlanned(s: Store, t: Store, name: string, newName: string, getter: bool, m: D.IdMap)
    requires CanDuplicate(s, name, newName) && IsDuplicate(s, t, name, newName, getter, m)
    ensures LinkedOnPins(s, t.conns, m) <==> StraysOnPins(s, m.Keys)
  {
    hide CanDuplicate, IsDuplicate, Leaving, StrayEnd, WillLink, D.Image, Store.HasPin;
    forall c | c in Leaving(s.conns, m.Keys) ensures D.Image(m, c) in t.conns <==> IsStray(s, m.Keys, c) {
      LinkedAsPlanned(s, t, name, newName, getter, m, c);
    }
  }

  /** Unless node 0 is a reroute, it takes a pin for every wire that leaves the graph. */
  lemma DuplicateKeepsInvIff(s: Store, t: Store, name: string, newName: string, getter: bool, m: D.IdMap)
    requires CanDuplicate(s, name, newName) && IsDuplicate(s, t, name, newName, getter, m)
    requires s.Inv() && 0 !in s.Reroutes()
    ensures m.Keys == s.graphs[name].nodes
    ensures t.Inv() <==> forall c :: c in Leaving(s.conns, m.Keys) ==> s.HasPin(StrayEnd(m.Keys, c))
  {
    DuplicateKeepsInv(s, t, name, newName, getter, m);
    var entry := IsDuplicateParts(s, t, name, newName, getter, m);
    GraphNodesExist(s, name);
    hide CanDuplicate, IsDuplicate, Leaving, StrayEnd, Store.Inv, Store.HasPin, Store.Reroutes, IsStray;
    AllAreStrays(s, m.Keys);
  }

  /** A function whose entry leads to a node of another graph, in a store without a node 0. */
  function StrayStore(): Store {
    Store({Connection(1, 0, 2, 0)},
          map[1 := NodeState(1, FunctionEntry("f"), [],
                             [CreatedPin(Named("ExecOut"), PD_Output, EXECUTION).(cachedIndex := 0)]),
              2 := NodeState(2, Plain, [CreatedPin(Named("ExecIn"), PD_Input, EXECUTION).(cachedIndex := 0)], [])],
          map["f" := GraphState("f", true, false, {1}, {1}, map[]),
              "EventGraph" := GraphState("EventGraph", false, true, {2}, {}, map[])],
          map["f" := FunctionState("f", 1, true, [], false, false)])
  }

  lemma StrayPinsThere()
    ensures var s := StrayStore();
            s.NodesSound() && s.HasPin(PinRef(1, PD_Output, 0)) && s.HasPin(PinRef(2, PD_Input, 0))
  {
    PinFlags(Named("ExecOut"), PD_Output);
    PinFlags(Named("ExecIn"), PD_Input);
    assert !StrayStore().nodes[1].outputs[0].IsHidden() && !StrayStore().nodes[2].inputs[0].IsHidden();
  }

  lemma StrayStoreInv()
    ensures StrayStore().Inv()
  {
    var s := StrayStore();
    StrayPinsThere();
    InvIs(s);
    hide CreatedPin, Store.NodesSound, Store.HasPin;
    assert "f"[0] != "EventGraph"[0];
    assert s.Holds("f", 1) && s.Holds("EventGraph", 2);
    assert s.GraphSound("f") && s.GraphSound("EventGraph");
    assert s.Anchored();
  }

  /** Duplicating it always leaves a wire to a node 0 that does not exist. */
  lemma StrayDuplicateDangles()
    ensures StrayStore().Inv() && CanDuplicate(StrayStore(), "f", "g")
    ensures forall t, getter, m :: IsDuplicate(StrayStore(), t, "f", "g", getter, m) ==> !t.Wired() && !t.Tidy()
  {
    var s := StrayStore();
    StrayStoreInv();
    StrayCanDuplicate();
    forall t, getter, m | IsDuplicate(s, t, "f", "g", getter, m) ensures !t.Wired() && !t.Tidy() {
      assert m.Keys == {1};
      assert Connection(1, 0, 2, 0) in D.Touching(s.conns, m.Keys);
      hide StrayStore, CanDuplicate, IsDuplicate, Store.Tidy;
      assert !D.StaysInside(s.conns, m.Keys);
      DuplicateKeepsTidy(s, t, "f", "g", getter, m);
      DuplicateWiredIff(s, t, "f", "g", getter, m);
    }
  }

  lemma StrayCanDuplicate()
    ensures CanDuplicate(StrayStore(), "f", "g") && 0 !in StrayStore().nodes
  {
    StrayStoreInv();
    StrayParts();
    hide StrayStore, HasEntry, IsIdentifier, Store.Partitioned, Store.Wired, Store.NodesFiled, Store.GraphsSound,
         Store.FunctionsSound, Store.Anchored, Store.NodesSound;
  }

  lemma StrayParts()
    ensures var s := StrayStore();
            && "f" in s.functions && "f" in s.graphs && "g" !in s.functions && "g" !in s.graphs
            && IsIdentifier("g") && "g" != "EventGraph" && HasEntry(s.nodes, s.graphs["f"].nodes)
            && 0 !in s.nodes && forall n :: n in s.nodes ==> n + |s.graphs["f"].nodes| < NODE_LIMIT
  {
    var s := StrayStore();
    hide CreatedPin;
    assert "g"[0] != "f"[0] && "g"[0] != "EventGraph"[0];
    assert s.nodes[1].kind.FunctionEntry? && 1 in s.graphs["f"].nodes;
    assert |s.graphs["f"].nodes| == 1;
  }
}
