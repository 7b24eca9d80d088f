/** What `_fix_orphans` achieves, in whatever order it visits the nodes. */
module Repair {
  import opened Connections
  import opened Nodes
  import opened Stores
  import opened GraphEdits
  import opened Orphans

  /** The wire joins the node and a different node `n`. */
  predicate Via(c: Connection, id: int, n: int) {
    n != id && ((c.fromNode == id && c.toNode == n) || (c.fromNode == n && c.toNode == id))
  }

  /** Graph `g` holds a neighbour of the node. */
  ghost predicate NextTo(conns: set<Connection>, graphs: GraphMap, id: int, g: string) {
    exists c, n :: c in conns && Via(c, id, n) && Held(graphs, g, n)
  }

  // ----- While the nodes are visited -----

  /** Graphs only gain orphans, each in one graph and next to a neighbour there. */
  ghost predicate Grown(s: Store, graphs: GraphMap, done: set<int>) {
    && graphs.Keys == s.graphs.Keys
    && (forall g, id :: Held(s.graphs, g, id) ==> Held(graphs, g, id))
    && (forall g, id :: Held(graphs, g, id) && !Held(s.graphs, g, id) ==>
          Orphan(s.graphs, id) && id in done && NextTo(s.conns, graphs, id, g))
    && (forall g, h, id :: Held(graphs, g, id) && Held(graphs, h, id) && Orphan(s.graphs, id) ==> g == h)
    && (forall g :: g in s.graphs ==>
          && graphs[g].knots == s.graphs[g].knots
          && (graphs[g].nodes == s.graphs[g].nodes ==> graphs[g] == s.graphs[g]))
  }

  /** Every node visited is in a graph or beyond help; those beyond help had no neighbour in a graph. */
  ghost predicate Decided(s: Store, w: Sweep, done: set<int>) {
    && (forall id :: id in w.orphans ==> id in done && Orphan(w.graphs, id) && !Rescuable(s.conns, s.graphs, id))
    && (forall id :: id in done ==> id in w.orphans || !Orphan(w.graphs, id))
  }

  lemma NextToMonotone(conns: set<Connection>, a: GraphMap, b: GraphMap, id: int, g: string)
    requires NextTo(conns, a, id, g) && forall h, n :: Held(a, h, n) ==> Held(b, h, n)
    ensures NextTo(conns, b, id, g)
  {
    var c, n :| c in conns && Via(c, id, n) && Held(a, g, n);
    assert Held(b, g, n);
  }

  lemma RescuableMonotone(conns: set<Connection>, a: GraphMap, b: GraphMap, id: int)
    requires Rescuable(conns, a, id) && forall h, n :: Held(a, h, n) ==> Held(b, h, n)
    ensures Rescuable(conns, b, id)
  {
    var c, g :| Rescues(conns, a, id, c, g);
    assert Rescues(conns, b, id, c, g);
  }

  /** Putting one orphan back. */
  lemma GrownByOne(s: Store, graphs: GraphMap, done: set<int>, id: int, c: Connection, g: string)
    requires Grown(s, graphs, done) && id in s.nodes && s.nodes[id].id == id && id !in done && Orphan(graphs, id)
    requires Rescues(s.conns, graphs, id, c, g)
    ensures g in graphs && Grown(s, graphs[g := graphs[g].Add(s.nodes[id])], done + {id})
    ensures forall h, n :: Held(graphs[g := graphs[g].Add(s.nodes[id])], h, n) <==>
            Held(graphs, h, n) || (h == g && n == id)
  {
    var more := graphs[g := graphs[g].Add(s.nodes[id])];
    forall h, n ensures Held(more, h, n) <==> Held(graphs, h, n) || (h == g && n == id) {
    }
    assert Orphan(s.graphs, id) by {
      assert forall h :: Held(s.graphs, h, id) ==> Held(graphs, h, id);
    }
    var n := if c.fromNode == id then c.toNode else c.fromNode;
    assert !Held(graphs, g, id);
    assert Via(c, id, n) && Held(more, g, n);
    forall h, n | Held(more, h, n) && !Held(s.graphs, h, n)
      ensures Orphan(s.graphs, n) && n in done + {id} && NextTo(s.conns, more, n, h)
    {
      if Held(graphs, h, n) {
        NextToMonotone(s.conns, graphs, more, n, h);
      }
    }
  }

  lemma RescueKeeps(s: Store, v: Sweep, done: set<int>, id: int, graphs: GraphMap)
    requires Decided(s, v, done) && id !in done && !Orphan(graphs, id)
    requires forall h, n :: Held(v.graphs, h, n) ==> Held(graphs, h, n)
    requires forall h, n :: Held(graphs, h, n) && n != id ==> Held(v.graphs, h, n)
    ensures Decided(s, v.(graphs := graphs), done + {id})
  {
    forall n | n in done && n !in v.orphans ensures !Orphan(graphs, n) {
      var h :| Held(v.graphs, h, n);
      assert Held(graphs, h, n);
    }
  }

  lemma VisitKeeps(s: Store, v: Sweep, done: set<int>, id: int, w: Sweep)
    requires Grown(s, v.graphs, done) && Decided(s, v, done)
    requires id in s.nodes && s.nodes[id].id == id && id !in done && VisitStep(s, v, id, w)
    ensures Grown(s, w.graphs, done + {id}) && Decided(s, w, done + {id})
  {
    if Orphan(v.graphs, id) {
      if Rescuable(s.conns, v.graphs, id) {
        var c, g :| FirstRescue(s.conns, v.graphs, id, c, g)
          && w == v.(graphs := v.graphs[g := v.graphs[g].Add(s.nodes[id])]);
        GrownByOne(s, v.graphs, done, id, c, g);
        assert Held(w.graphs, g, id);
        hide *;
        RescueDecides(s, v, done, id, g, w.graphs);
      } else if Rescuable(s.conns, s.graphs, id) {
        RescuableMonotone(s.conns, s.graphs, v.graphs, id);
      }
    }
  }

  lemma RescueDecides(s: Store, v: Sweep, done: set<int>, id: int, g: string, graphs: GraphMap)
    requires Decided(s, v, done) && id !in done && Held(graphs, g, id)
    requires forall h, n :: Held(graphs, h, n) <==> Held(v.graphs, h, n) || (h == g && n == id)
    ensures Decided(s, v.(graphs := graphs), done + {id})
  {
    RescueKeeps(s, v, done, id, graphs);
  }

  lemma {:induction false} VisitedKeeps(s: Store, order: seq<int>, w: Sweep)
    requires forall i :: 0 <= i < |order| ==> order[i] in s.nodes && s.nodes[order[i]].id == order[i]
    requires forall i, j :: 0 <= i < j < |order| ==> order[i] != order[j]
    requires Visited(s, order, w)
    ensures Grown(s, w.graphs, Ids(order)) && Decided(s, w, Ids(order))
  {
    if order == [] {
    } else {
      var init, id := order[..|order| - 1], order[|order| - 1];
      var v :| VisitStep(s, v, id, w) && Visited(s, init, v);
      VisitedKeeps(s, init, v);
      assert order == init + [id];
      assert Ids(order) == Ids(init) + {id};
      VisitKeeps(s, v, Ids(init), id, w);
    }
  }

  // ----- What the repair achieves -----

  ghost predicate IdsMatch(s: Store) {
    forall id :: id in s.nodes ==> s.nodes[id].id == id
  }

  /** `t` is a repair of `s`. */
  ghost predicate Repaired(s: Store, t: Store) {
    // the nodes left are unchanged, every one of them is in a graph, and every node that was is still there
    && (forall id :: id in t.nodes ==> id in s.nodes && t.nodes[id] == s.nodes[id])
    && (forall id :: id in t.nodes ==> !Orphan(t.graphs, id))
    && (forall id :: id in s.nodes && !Orphan(s.graphs, id) ==> id in t.nodes)
    // a node was removed only if no graph held a neighbour of it
    && (forall id :: id in s.nodes && id !in t.nodes ==> Orphan(s.graphs, id) && !Rescuable(s.conns, s.graphs, id))
    // a rescued orphan is in exactly one graph, which holds a neighbour of it, and nothing else moved
    && Grown(s, t.graphs, t.nodes.Keys)
    // the connections left are exactly those between nodes that are left
    && t.conns == (set c | c in s.conns && c.fromNode in t.nodes && c.toNode in t.nodes)
    && t.functions == s.functions
  }

  lemma FixOrphansRepairs(s: Store, order: seq<int>, t: Store)
    requires IdsMatch(s) && FixedBy(s, order, t)
    ensures Repaired(s, t)
  {
    var w :| Visited(s, order, w) && t == Swept(s, w);
    VisitedKeeps(s, order, w);
    assert Ids(order) == s.nodes.Keys;
    forall id | id in s.nodes && !Orphan(s.graphs, id) ensures id in t.nodes {
      var g :| Held(s.graphs, g, id);
      assert Held(w.graphs, g, id);
    }
    forall g, id | Held(t.graphs, g, id) && !Held(s.graphs, g, id) ensures id in t.nodes.Keys {
      assert id in s.nodes && id !in w.orphans;
    }
  }

  lemma SameNodes(a: map<int, NodeState>, b: map<int, NodeState>)
    requires forall id :: id in a ==> id in b && b[id] == a[id]
    requires forall id :: id in b ==> id in a
    ensures a == b
  {
    assert a.Keys == b.Keys by {
      assert forall id: int :: id in a <==> id in b;
      assert a.Keys <= b.Keys && b.Keys <= a.Keys;
    }
    assert forall id :: id in a ==> a[id] == b[id];
  }

  /** A second repair changes nothing. */
  lemma RepairIsIdempotent(s: Store, t: Store, u: Store)
    requires Repaired(s, t) && Repaired(t, u)
    ensures u == t
  {
    forall id | id in t.nodes ensures id in u.nodes && u.nodes[id] == t.nodes[id] {
      assert !Orphan(t.graphs, id);
    }
    SameNodes(t.nodes, u.nodes);
    forall g | g in t.graphs ensures u.graphs[g] == t.graphs[g] {
      forall id ensures id in u.graphs[g].nodes <==> id in t.graphs[g].nodes {
        assert id in u.graphs[g].nodes <==> Held(u.graphs, g, id);
        assert id in t.graphs[g].nodes <==> Held(t.graphs, g, id);
        assert Held(u.graphs, g, id) && !Held(t.graphs, g, id) ==> id in u.nodes.Keys;
      }
      assert u.graphs[g].nodes == t.graphs[g].nodes;
    }
    assert u.graphs == t.graphs;
    assert u.conns == t.conns;
  }

  /** If the graphs held disjoint sets of nodes that exist, the partition is whole again, and no wire dangles. */
  lemma RepairRestoresPartition(s: Store, t: Store)
    requires Repaired(s, t)
    requires forall g, h, id :: Held(s.graphs, g, id) && Held(s.graphs, h, id) ==> g == h
    requires forall g, id :: Held(s.graphs, g, id) ==> id in s.nodes
    ensures t.Partitioned()
    ensures forall c :: c in t.conns ==> c.fromNode in t.nodes && c.toNode in t.nodes
  {
    forall g, id ensures t.Holds(g, id) <==> Held(t.graphs, g, id) {
    }
    forall g, id | t.Holds(g, id) ensures id in t.nodes {
      if Held(s.graphs, g, id) {
        assert !Orphan(s.graphs, id);
      } else {
        assert Held(t.graphs, g, id) && !Held(s.graphs, g, id);
      }
    }
    forall g, h, id | t.Holds(g, id) && t.Holds(h, id) ensures g == h {
      if Orphan(s.graphs, id) {
        assert Held(t.graphs, g, id) && Held(t.graphs, h, id);
      } else {
        assert Held(s.graphs, g, id) && Held(s.graphs, h, id) by {
          assert Held(t.graphs, g, id) && !Held(s.graphs, g, id) ==> Orphan(s.graphs, id);
          assert Held(t.graphs, h, id) && !Held(s.graphs, h, id) ==> Orphan(s.graphs, id);
        }
      }
    }
    forall id | id in t.nodes ensures exists g :: t.Holds(g, id) {
      var g :| Held(t.graphs, g, id);
      assert t.Holds(g, id);
    }
  }

  // ----- When the order matters -----

  /**
    The map of nodes yields them in the order in which they were inserted.  Orphan `b` has no neighbour in a
    graph, but orphan `a` beside it has: whether `b` is kept depends on which of them is visited first.
   */
  ghost predicate Strands(s: Store, a: int, b: int, c: Connection) {
    && a in s.nodes && b in s.nodes && Orphan(s.graphs, a) && Orphan(s.graphs, b)
    && Rescuable(s.conns, s.graphs, a) && !Rescuable(s.conns, s.graphs, b)
    && c in s.conns && Via(c, b, a)
  }

  ghost predicate OrderFree(s: Store) {
    forall a, b, c :: !Strands(s, a, b, c)
  }

  /** The nodes that are beyond help from the start. */
  ghost function Hopeless(s: Store): set<int> {
    set id | id in s.nodes && Orphan(s.graphs, id) && !Rescuable(s.conns, s.graphs, id)
  }

  /** In every order: only orphans that could be rescued from the start are, and all others are given up. */
  ghost predicate Settled(s: Store, w: Sweep, done: set<int>) {
    && w.orphans == done * Hopeless(s)
    && forall g, id :: Held(w.graphs, g, id) && !Held(s.graphs, g, id) ==> Rescuable(s.conns, s.graphs, id)
  }

  lemma RescuedFromTheStart(s: Store, v: Sweep, done: set<int>, id: int, c: Connection, g: string)
    requires OrderFree(s) && Settled(s, v, done) && Grown(s, v.graphs, done) && done <= s.nodes.Keys
    requires id in s.nodes && Orphan(s.graphs, id) && Orphan(v.graphs, id) && Rescues(s.conns, v.graphs, id, c, g)
    ensures Rescuable(s.conns, s.graphs, id)
  {
    var n := if c.fromNode == id then c.toNode else c.fromNode;
    assert !Held(v.graphs, g, id);
    assert Via(c, id, n) && Held(v.graphs, g, n);
    if Held(s.graphs, g, n) {
      assert Rescues(s.conns, s.graphs, id, c, g);
    } else {
      assert Rescuable(s.conns, s.graphs, n);
      assert !Strands(s, n, id, c);
    }
  }

  lemma VisitSettles(s: Store, v: Sweep, done: set<int>, id: int, w: Sweep)
    requires OrderFree(s) && Settled(s, v, done) && Grown(s, v.graphs, done) && done <= s.nodes.Keys
    requires id in s.nodes && s.nodes[id].id == id && id !in done && VisitStep(s, v, id, w)
    ensures Settled(s, w, done + {id})
  {
    hide OrderFree, Rescuable, FirstRescue;
    if !Orphan(v.graphs, id) {
      var g :| Held(v.graphs, g, id);
      assert id !in Hopeless(s) by {
        assert Held(s.graphs, g, id) || Rescuable(s.conns, s.graphs, id);
      }
    } else {
      assert Orphan(s.graphs, id) by {
        assert forall h :: Held(s.graphs, h, id) ==> Held(v.graphs, h, id);
      }
      if Rescuable(s.conns, v.graphs, id) {
        var c, g := RescuedAt(s, v, id, w);
        RescuedFromTheStart(s, v, done, id, c, g);
      } else if Rescuable(s.conns, s.graphs, id) {
        RescuableMonotone(s.conns, s.graphs, v.graphs, id);
      }
    }
  }

  /** The wire and the graph by which an orphan was put back. */
  lemma RescuedAt(s: Store, v: Sweep, id: int, w: Sweep) returns (c: Connection, g: string)
    requires id in s.nodes && s.nodes[id].id == id && VisitStep(s, v, id, w)
    requires Orphan(v.graphs, id) && Rescuable(s.conns, v.graphs, id)
    ensures Rescues(s.conns, v.graphs, id, c, g) && FirstRescue(s.conns, v.graphs, id, c, g)
    ensures w.orphans == v.orphans && Held(w.graphs, g, id)
    ensures forall h, n :: Held(w.graphs, h, n) <==> Held(v.graphs, h, n) || (h == g && n == id)
  {
    c, g :| FirstRescue(s.conns, v.graphs, id, c, g) && w == v.(graphs := v.graphs[g := v.graphs[g].Add(s.nodes[id])]);
  }

  lemma {:induction false} VisitedSettles(s: Store, order: seq<int>, w: Sweep)
    requires forall i :: 0 <= i < |order| ==> order[i] in s.nodes && s.nodes[order[i]].id == order[i]
    requires forall i, j :: 0 <= i < j < |order| ==> order[i] != order[j]
    requires OrderFree(s) && Visited(s, order, w)
    ensures Settled(s, w, Ids(order))
  {
    if order != [] {
      var init, id := order[..|order| - 1], order[|order| - 1];
      var v :| VisitStep(s, v, id, w) && Visited(s, init, v);
      VisitedSettles(s, init, v);
      VisitedKeeps(s, init, v);
      assert order == init + [id];
      assert Ids(order) == Ids(init) + {id};
      hide VisitStep, Settled, Grown, OrderFree, Visited;
      VisitSettles(s, v, Ids(init), id, w);
    }
  }

  // ----- Choosing an order -----

  /** There is always a rescue that comes first. */
  lemma FirstRescueExists(conns: set<Connection>, graphs: GraphMap, id: int) returns (c: Connection, g: string)
    requires Rescuable(conns, graphs, id)
    ensures FirstRescue(conns, graphs, id, c, g)
  {
    var helping := set d | d in conns && exists h :: Rescues(conns, graphs, id, d, h);
    var order := Sorted(helping);
    var some, at :| Rescues(conns, graphs, id, some, at);
    assert some in helping && some in order;
    c := order[0];
    assert c in order && c in helping;
    g :| Rescues(conns, graphs, id, c, g);
    forall d, h | Rescues(conns, graphs, id, d, h) ensures c.Id() <= d.Id() {
      assert d in helping && d in order;
      var j :| 0 <= j < |order| && order[j] == d;
      assert j > 0 ==> order[0].Id() < order[j].Id();
    }
  }

  /** Nothing is taken back by later visits. */
  ghost predicate Later(v: Sweep, w: Sweep) {
    v.orphans <= w.orphans && forall g, id :: Held(v.graphs, g, id) ==> Held(w.graphs, g, id)
  }

  lemma VisitExists(s: Store, v: Sweep, id: int) returns (w: Sweep)
    requires id in s.nodes && s.nodes[id].id == id
    ensures VisitStep(s, v, id, w) && Later(v, w)
    ensures Orphan(v.graphs, id) && Rescuable(s.conns, v.graphs, id) ==>
              exists g :: Held(w.graphs, g, id) && forall h, n :: Held(w.graphs, h, n) <==>
                Held(v.graphs, h, n) || (h == g && n == id)
  {
    if !Orphan(v.graphs, id) {
      w := v;
    } else if Rescuable(s.conns, v.graphs, id) {
      var c, g := FirstRescueExists(s.conns, v.graphs, id);
      w := v.(graphs := v.graphs[g := v.graphs[g].Add(s.nodes[id])]);
      hide FirstRescue, Rescuable;
      c, g := RescuedAt(s, v, id, w);
    } else {
      w := v.(orphans := v.orphans + {id});
    }
  }

  /** The visits can always go on to the end. */
  lemma {:induction false} Completed(s: Store, order: seq<int>, k: nat, v: Sweep) returns (w: Sweep)
    requires k <= |order| && forall i :: 0 <= i < |order| ==> order[i] in s.nodes && s.nodes[order[i]].id == order[i]
    requires Visited(s, order[..k], v)
    ensures Visited(s, order, w) && Later(v, w)
    decreases |order| - k
  {
    if k == |order| {
      assert order[..k] == order;
      w := v;
    } else {
      hide VisitStep, Visited;
      var u := VisitExists(s, v, order[k]);
      VisitNext(s, order, k, v, u);
      w := Completed(s, order, k + 1, u);
    }
  }

  /** An order that starts as wanted. */
  lemma {:induction false} OrderFrom(ids: set<int>, start: seq<int>) returns (order: seq<int>)
    requires Ids(start) <= ids && forall i, j :: 0 <= i < j < |start| ==> start[i] != start[j]
    ensures Ids(order) == ids && |start| <= |order| && order[..|start|] == start
    ensures forall i, j :: 0 <= i < j < |order| ==> order[i] != order[j]
    decreases ids - Ids(start)
  {
    if ids - Ids(start) == {} {
      assert Ids(start) == ids by {
        assert forall id: int :: id in ids ==> id !in ids - Ids(start);
      }
      order := start;
    } else {
      var id := SomeId(ids - Ids(start));
      assert Ids(start + [id]) == Ids(start) + {id};
      order := OrderFrom(ids, start + [id]);
      assert order[..|start|] == order[..|start| + 1][..|start|];
    }
  }

  lemma OrderStarts(s: Store, start: seq<int>) returns (order: seq<int>)
    requires IdsMatch(s) && Ids(start) <= s.nodes.Keys && forall i, j :: 0 <= i < j < |start| ==> start[i] != start[j]
    ensures IsNodeOrder(s, order) && |start| <= |order| && order[..|start|] == start
    ensures forall i :: 0 <= i < |order| ==> order[i] in s.nodes && s.nodes[order[i]].id == order[i]
  {
    order := OrderFrom(s.nodes.Keys, start);
    forall i | 0 <= i < |order| ensures order[i] in s.nodes {
      assert order[i] in Ids(order);
    }
  }

  lemma FixedAs(s: Store, order: seq<int>, w: Sweep)
    requires IsNodeOrder(s, order) && Visited(s, order, w)
    ensures FixedBy(s, order, Swept(s, w)) && Swept(s, w).nodes.Keys == s.nodes.Keys - w.orphans
  {
  }

  /** A node beyond help is given up if it is visited first. */
  lemma GivenUpFirst(s: Store, b: int) returns (order: seq<int>, t: Store)
    requires IdsMatch(s) && b in Hopeless(s)
    ensures FixedBy(s, order, t) && b !in t.nodes
  {
    var v := Sweep(s.graphs, {});
    assert Ids([b]) == {b};
    order := OrderStarts(s, [b]);
    VisitNone(s, order);
    var u := v.(orphans := {b});
    assert VisitStep(s, v, b, u);
    assert order[0] == order[..1][0];
    hide Visited, VisitStep, Hopeless, IsNodeOrder;
    VisitNext(s, order, 0, v, u);
    var w := Completed(s, order, 1, u);
    FixedAs(s, order, w);
    t := Swept(s, w);
  }

  lemma BothVisited(s: Store, a: int, b: int, c: Connection) returns (x: Sweep, y: Sweep, g: string)
    requires IdsMatch(s) && Strands(s, a, b, c)
    ensures VisitStep(s, Sweep(s.graphs, {}), a, x) && VisitStep(s, x, b, y) && Held(y.graphs, g, b)
  {
    var v := Sweep(s.graphs, {});
    x := VisitExists(s, v, a);
    var h :| Held(x.graphs, h, a) && forall k, n :: Held(x.graphs, k, n) <==>
      Held(v.graphs, k, n) || (k == h && n == a);
    assert Orphan(x.graphs, b) && Rescues(s.conns, x.graphs, b, c, h);
    hide VisitStep;
    y := VisitExists(s, x, b);
    g :| Held(y.graphs, g, b);
  }

  /** After `a` is back, `b` has a neighbour in a graph. */
  lemma StrandedSecond(s: Store, a: int, b: int, c: Connection) returns (order: seq<int>, t: Store)
    requires IdsMatch(s) && Strands(s, a, b, c)
    ensures FixedBy(s, order, t) && b in t.nodes
  {
    assert Ids([a, b]) == {a, b};
    order := OrderStarts(s, [a, b]);
    VisitNone(s, order);
    assert order[0] == order[..2][0] && order[1] == order[..2][1];
    var x, y, g := BothVisited(s, a, b, c);
    assert b in s.nodes;
    hide Visited, VisitStep, Strands, IsNodeOrder, IdsMatch, FixedBy;
    VisitNext(s, order, 0, Sweep(s.graphs, {}), x);
    VisitNext(s, order, 1, x, y);
    var w := Completed(s, order, 2, y);
    FixedAs(s, order, w);
    GivenUp(s, order, w, b, g);
    t := Swept(s, w);
  }

  lemma GivenUp(s: Store, order: seq<int>, w: Sweep, b: int, g: string)
    requires IsNodeOrder(s, order) && Visited(s, order, w) && IdsMatch(s) && Held(w.graphs, g, b)
    ensures b !in w.orphans
  {
    VisitedKeeps(s, order, w);
  }

  lemma KeptInEveryOrder(s: Store, p: seq<int>, t: Store)
    requires IdsMatch(s) && OrderFree(s) && FixedBy(s, p, t)
    ensures t.nodes.Keys == s.nodes.Keys - Hopeless(s)
  {
    var w :| Visited(s, p, w) && t == Swept(s, w);
    VisitedSettles(s, p, w);
  }

  /**
    The same nodes are kept in every order exactly when no wire joins an orphan that has a neighbour in a graph
    to one that has none.
   */
  lemma RepairOrderIff(s: Store)
    requires IdsMatch(s)
    ensures (forall p, q, t, u :: FixedBy(s, p, t) && FixedBy(s, q, u) ==> t.nodes.Keys == u.nodes.Keys) <==>
            OrderFree(s)
    ensures OrderFree(s) ==> forall p, t :: FixedBy(s, p, t) ==> t.nodes.Keys == s.nodes.Keys - Hopeless(s)
  {
    hide FixedBy;
    if OrderFree(s) {
      hide Hopeless, Strands;
      forall p, t | FixedBy(s, p, t) ensures t.nodes.Keys == s.nodes.Keys - Hopeless(s) {
        KeptInEveryOrder(s, p, t);
      }
    } else {
      var a, b, c :| Strands(s, a, b, c);
      assert b in Hopeless(s);
      hide Hopeless;
      var p, t := GivenUpFirst(s, b);
      var q, u := StrandedSecond(s, a, b, c);
      assert b !in t.nodes.Keys && b in u.nodes.Keys;
    }
  }

  /** A chain of two orphans next to a node in a graph. */
  function TwoOrphans(): Store {
    Store({Connection(0, 0, 1, 0), Connection(1, 0, 2, 0)},
          map[0 := Bare(0), 1 := Bare(1), 2 := Bare(2)],
          map["G" := GraphState("G", false, false, {0}, {}, map[])], map[])
  }

  function Bare(id: int): NodeState {
    NodeState(id, Plain, [], [])
  }

  lemma RepairDependsOnOrder()
    ensures exists p, q, t, u ::
              FixedBy(TwoOrphans(), p, t) && FixedBy(TwoOrphans(), q, u) && t.nodes.Keys != u.nodes.Keys
  {
    var s := TwoOrphans();
    assert Held(s.graphs, "G", 0);
    assert Rescues(s.conns, s.graphs, 1, Connection(0, 0, 1, 0), "G");
    assert Strands(s, 1, 2, Connection(1, 0, 2, 0));
    hide FixedBy;
    RepairOrderIff(s);
  }
}
