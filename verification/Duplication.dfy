/**
  Duplicating a function with its code (`Orchestration::duplicate_function` of
  `src/orchestration/orchestration.cpp`): the copy of the graph is isomorphic to the original.
 */
module Duplication {
  import opened Connections
  import opened ConnectionCaches
  import opened Nodes
  import opened Reroutes
  import opened Stores

  /** The id table that says which copy belongs to which node. */
  type IdMap = map<int, int>

  /** A lookup by `operator[]`: an id that is not in the table reads as 0. */
  function Lookup(m: IdMap, id: int): int {
    if id in m then m[id] else 0
  }

  /** The ids of the copies. */
  function Copies(m: IdMap): set<int> {
    set id | id in m :: m[id]
  }

  function Image(m: IdMap, c: Connection): Connection {
    Pack(Lookup(m, c.fromNode), c.fromPort, Lookup(m, c.toNode), c.toPort)
  }

  /** The wires of a graph: `OScriptGraph::get_connections` takes those with one end in it. */
  function Touching(s: set<Connection>, nodes: set<int>): set<Connection> {
    set c | c in s && (c.fromNode in nodes || c.toNode in nodes)
  }

  function Inside(s: set<Connection>, nodes: set<int>): set<Connection> {
    set c | c in s && c.fromNode in nodes && c.toNode in nodes
  }

  function Images(m: IdMap, s: set<Connection>): set<Connection> {
    set c | c in s :: Image(m, c)
  }

  /** The last loop: each wire is linked again between the copies, under the guards of `_connect_nodes`. */
  ghost function Relink(s: set<Connection>, R: set<int>, m: IdMap, q: seq<Connection>): set<Connection> {
    if q == [] then s else
    var r := Relink(s, R, m, q[..|q| - 1]);
    var c := Image(m, q[|q| - 1]);
    if (c.fromNode in R && c.toNode in R && Reaches(r, R, c.toNode, c.fromNode)) || c in r then r else r + {c}
  }

  /** The table is a bijection onto fresh ids that fit, and copies of reroutes are reroutes. */
  ghost predicate Copying(s: set<Connection>, R: set<int>, used: set<int>, m: IdMap) {
    && m.Keys <= used
    && (forall id :: id in m ==> m[id] !in used && 0 < m[id] < NODE_LIMIT)
    && (forall a, b :: a in m && b in m && m[a] == m[b] ==> a == b)
    && (forall id :: id in m ==> (m[id] in R <==> id in R))
    && (forall c :: c in s ==> c.fromNode in used && c.toNode in used)
  }

  lemma ImageInside(s: set<Connection>, R: set<int>, used: set<int>, m: IdMap, c: Connection)
    requires Copying(s, R, used, m) && c.fromNode in m && c.toNode in m
    ensures Image(m, c) == Connection(m[c.fromNode], c.fromPort, m[c.toNode], c.toPort)
  {
  }

  /** A hop from a copy, in the old set with some images added, is the image of a hop between originals. */
  lemma HopFromCopy(
      s: set<Connection>, R: set<int>, used: set<int>, m: IdMap, e: set<Connection>, a: int, y: int) returns (b: int)
    requires Copying(s, R, used, m) && e <= Inside(s, m.Keys)
    requires a in m && Hop(s + Images(m, e), R, m[a], y)
    ensures b in m && m[b] == y && Hop(e, R, a, b)
  {
    var d :| d in s + Images(m, e) && d.fromNode == m[a] && d.toNode == y;
    assert d !in s;
    var c :| c in e && d == Image(m, c);
    ImageInside(s, R, used, m, c);
    b := c.toNode;
    assert c.fromNode == a;
  }

  lemma {:induction false} PathFromCopy(
      s: set<Connection>, R: set<int>, used: set<int>, m: IdMap, e: set<Connection>, a: int, path: seq<int>)
      returns (b: int)
    requires Copying(s, R, used, m) && e <= Inside(s, m.Keys)
    requires a in m && IsPath(s + Images(m, e), R, path) && path[0] == m[a]
    ensures b in m && m[b] == path[|path| - 1] && Reaches(e, R, a, b)
    decreases |path|
  {
    var t := s + Images(m, e);
    if |path| == 1 {
      b := a;
      ReachesSelf(e, R, a);
    } else {
      assert Hop(t, R, path[0], path[1]);
      var n := HopFromCopy(s, R, used, m, e, a, path[1]);
      assert IsPath(t, R, path[1..]) by {
        forall k | 0 <= k < |path[1..]| - 1 ensures Hop(t, R, path[1..][k], path[1..][k + 1]) {
          assert Hop(t, R, path[k + 1], path[k + 2]);
        }
      }
      b := PathFromCopy(s, R, used, m, e, n, path[1..]);
      HopReaches(e, R, a, n);
      ReachesTransitive(e, R, a, n, b);
    }
  }

  /** The members of `q`, as a set. */
  function Members(q: seq<Connection>): set<Connection> {
    set c | c in q
  }

  ghost predicate NoInnerCycle(s: set<Connection>, R: set<int>, nodes: set<int>) {
    forall a :: a in nodes ==> !ReachesAgain(Inside(s, nodes), R, a, a)
  }

  /** When the wires stay inside the graph and its reroutes close no cycle, every link goes through. */
  lemma {:induction false} RelinkExact(s: set<Connection>, R: set<int>, used: set<int>, m: IdMap, q: seq<Connection>)
    requires Copying(s, R, used, m) && NoInnerCycle(s, R, m.Keys)
    requires Members(q) <= Inside(s, m.Keys)
    ensures Relink(s, R, m, q) == s + Images(m, Members(q))
  {
    if q == [] {
      assert Images(m, Members(q)) == {};
    } else {
      var init, last := q[..|q| - 1], q[|q| - 1];
      var e := Members(init);
      assert Members(q) == e + {last};
      RelinkExact(s, R, used, m, init);
      var r := s + Images(m, e);
      var c := Image(m, last);
      ImageInside(s, R, used, m, last);
      assert Images(m, Members(q)) == Images(m, e) + {c};
      assert last in Members(q);
      assert !ReachesAgain(Inside(s, m.Keys), R, last.fromNode, last.fromNode);
      if c.fromNode in R && c.toNode in R && Reaches(r, R, c.toNode, c.fromNode) {
        var path :| IsPath(r, R, path) && path[0] == c.toNode && path[|path| - 1] == c.fromNode;
        var b := PathFromCopy(s, R, used, m, e, last.toNode, path);
        assert b == last.fromNode;
        ReachesMonotone(e, Inside(s, m.Keys), R, last.toNode, last.fromNode);
        assert Hop(Inside(s, m.Keys), R, last.fromNode, last.toNode);
      }
    }
  }

  // ----- And only then -----

  lemma {:induction false} RelinkGrows(s: set<Connection>, R: set<int>, m: IdMap, q: seq<Connection>, k: nat)
    requires k <= |q|
    ensures Relink(s, R, m, q[..k]) <= Relink(s, R, m, q)
  {
    if k == |q| {
      assert q[..k] == q;
    } else {
      assert q[..|q| - 1][..k] == q[..k];
      RelinkGrows(s, R, m, q[..|q| - 1], k);
    }
  }

  /** Whatever is linked, apart from the old wires, is the image of some wire of the list. */
  lemma {:induction false} RelinkBound(s: set<Connection>, R: set<int>, m: IdMap, q: seq<Connection>)
    ensures Relink(s, R, m, q) <= s + Images(m, Members(q))
  {
    if q != [] {
      RelinkBound(s, R, m, q[..|q| - 1]);
      assert Members(q[..|q| - 1]) <= Members(q) && q[|q| - 1] in Members(q);
    }
  }

  /** The linking itself never puts a copy on a cycle. */
  lemma {:induction false} RelinkNoCycle(
      s: set<Connection>, R: set<int>, used: set<int>, m: IdMap, q: seq<Connection>, x: int)
    requires Copying(s, R, used, m) && x in m
    ensures !ReachesAgain(Relink(s, R, m, q), R, m[x], m[x])
  {
    if q != [] {
      RelinkNoCycle(s, R, used, m, q[..|q| - 1], x);
      var r := Relink(s, R, m, q[..|q| - 1]);
      var c := Image(m, q[|q| - 1]);
      if !Reaches(r, R, c.toNode, c.fromNode) {
        if ReachesAgain(r + {c}, R, m[x], m[x]) {
          NewConnectionNoCycle(r, R, c, m[x]);
        }
      } else {
        ReachesEnds(r, R, c.toNode, c.fromNode);
      }
    }
  }

  /** In a set of old wires and images, copies and other nodes do not reach each other. */
  lemma NoCrossing(s: set<Connection>, R: set<int>, used: set<int>, m: IdMap, r: set<Connection>, a: int, b: int)
    requires Copying(s, R, used, m) && r <= s + Images(m, Inside(s, m.Keys))
    requires Reaches(r, R, a, b)
    ensures a in Copies(m) ==> b in Copies(m)
    ensures a in used + {0} ==> b in used + {0}
  {
    var path :| IsPath(r, R, path) && path[0] == a && path[|path| - 1] == b;
    forall x, y | Hop(r, R, x, y)
      ensures x in Copies(m) ==> y in Copies(m)
      ensures x in used + {0} ==> y in used + {0}
    {
      var d :| d in r && d.fromNode == x && d.toNode == y;
      if d !in s {
        var o :| o in Inside(s, m.Keys) && d == Image(m, o);
        ImageInside(s, R, used, m, o);
        assert o.toNode in m && y == m[o.toNode];
      }
    }
    if a in Copies(m) {
      PathStaysInside(r, R, path, Copies(m));
    }
    if a in used + {0} {
      PathStaysInside(r, R, path, used + {0});
    }
  }

  lemma StrayImage(s: set<Connection>, R: set<int>, used: set<int>, m: IdMap, c: Connection)
    requires Copying(s, R, used, m) && (c.fromNode in m) != (c.toNode in m)
    ensures Image(m, c) !in s + Images(m, Inside(s, m.Keys))
    ensures Image(m, c).fromNode in Copies(m) <==> Image(m, c).toNode !in Copies(m)
    ensures Image(m, c).fromNode == 0 || Image(m, c).toNode == 0
  {
    assert 0 !in Copies(m);
    if c.fromNode in m {
      assert Image(m, c).fromNode == m[c.fromNode] && Image(m, c).toNode == 0;
    } else {
      assert Image(m, c).toNode == m[c.toNode] && Image(m, c).fromNode == 0;
    }
    forall d | d in Inside(s, m.Keys) ensures Image(m, d) != Image(m, c) {
      ImageInside(s, R, used, m, d);
    }
  }

  lemma ImagesMonotone(m: IdMap, a: set<Connection>, b: set<Connection>)
    requires a <= b
    ensures Images(m, a) <= Images(m, b)
  {
  }

  lemma StrayUnguarded(s: set<Connection>, R: set<int>, used: set<int>, m: IdMap, init: seq<Connection>, c: Connection)
    requires Copying(s, R, used, m) && Members(init) <= Inside(s, m.Keys)
    requires (c.fromNode in m) != (c.toNode in m)
    ensures !Reaches(Relink(s, R, m, init), R, Image(m, c).toNode, Image(m, c).fromNode)
    ensures Image(m, c) !in s + Images(m, Inside(s, m.Keys))
  {
    var r, d := Relink(s, R, m, init), Image(m, c);
    RelinkBound(s, R, m, init);
    ImagesMonotone(m, Members(init), Inside(s, m.Keys));
    StrayImage(s, R, used, m, c);
    if Reaches(r, R, d.toNode, d.fromNode) {
      NoCrossing(s, R, used, m, r, d.toNode, d.fromNode);
    }
  }

  /** The first wire that leaves the graph is linked to node 0, where the table has no entry. */
  lemma FirstStrayLinked(s: set<Connection>, R: set<int>, used: set<int>, m: IdMap, q: seq<Connection>, k: nat)
    requires Copying(s, R, used, m) && k < |q| && Members(q[..k]) <= Inside(s, m.Keys)
    requires (q[k].fromNode in m) != (q[k].toNode in m)
    ensures Image(m, q[k]) in Relink(s, R, m, q) && Image(m, q[k]) !in s + Images(m, Inside(s, m.Keys))
  {
    var next := q[..k + 1];
    assert next[..|next| - 1] == q[..k] && next[|next| - 1] == q[k];
    StrayUnguarded(s, R, used, m, q[..k], q[k]);
    RelinkGrows(s, R, m, q, k + 1);
  }

  lemma FirstStray(q: seq<Connection>, nodes: set<int>) returns (k: nat)
    requires exists c :: c in q && !(c.fromNode in nodes && c.toNode in nodes)
    ensures k < |q| && !(q[k].fromNode in nodes && q[k].toNode in nodes)
    ensures forall c :: c in q[..k] ==> c.fromNode in nodes && c.toNode in nodes
  {
    k := 0;
    while q[k].fromNode in nodes && q[k].toNode in nodes
      invariant k < |q|
      invariant forall c :: c in q[..k] ==> c.fromNode in nodes && c.toNode in nodes
      invariant exists c :: c in q[k..] && !(c.fromNode in nodes && c.toNode in nodes)
      decreases |q| - k
    {
      assert q[..k + 1] == q[..k] + [q[k]] && q[k..] == [q[k]] + q[k + 1..];
      k := k + 1;
    }
  }

  /** A path between originals has its image between the copies. */
  lemma ImageReaches(s: set<Connection>, R: set<int>, used: set<int>, m: IdMap, a: int, b: int)
    requires Copying(s, R, used, m) && a in m && Reaches(Inside(s, m.Keys), R, a, b)
    ensures b in m && Reaches(Images(m, Inside(s, m.Keys)), R, m[a], m[b])
  {
    var e := Inside(s, m.Keys);
    var p :| IsPath(e, R, p) && p[0] == a && p[|p| - 1] == b;
    PathStaysInside(e, R, p, m.Keys);
    forall i | 0 <= i < |p| ensures p[i] in m {
      if i > 0 {
        assert Hop(e, R, p[i - 1], p[i - 1 + 1]);
      }
    }
    var image := seq(|p|, i requires 0 <= i < |p| => Lookup(m, p[i]));
    forall i | 0 <= i < |image| - 1 ensures Hop(Images(m, e), R, image[i], image[i + 1]) {
      assert Hop(e, R, p[i], p[i + 1]);
      ImageHop(s, R, used, m, p[i], p[i + 1]);
    }
    assert IsPath(Images(m, e), R, image);
  }

  lemma ImageHop(s: set<Connection>, R: set<int>, used: set<int>, m: IdMap, a: int, b: int)
    requires Copying(s, R, used, m) && Hop(Inside(s, m.Keys), R, a, b)
    ensures a in m && b in m && Hop(Images(m, Inside(s, m.Keys)), R, m[a], m[b])
  {
    var c :| c in Inside(s, m.Keys) && c.fromNode == a && c.toNode == b;
    ImageInside(s, R, used, m, c);
    assert Image(m, c) in Images(m, Inside(s, m.Keys));
  }

  ghost predicate StaysInside(s: set<Connection>, nodes: set<int>) {
    Touching(s, nodes) <= Inside(s, nodes)
  }

  /**
    The wires of the copy are exactly the images of the wires of the graph if and only if no wire leaves
    the graph and its reroutes close no cycle.  A wire that leaves the graph is linked to node 0 instead;
    a cycle among the reroutes loses a wire to the guard.
   */
  lemma DuplicateIsIsomorphicIff(s: set<Connection>, R: set<int>, used: set<int>, m: IdMap)
    requires Copying(s, R, used, m)
    ensures Relink(s, R, m, Sorted(Touching(s, m.Keys))) == s + Images(m, Inside(s, m.Keys)) <==>
            StaysInside(s, m.Keys) && NoInnerCycle(s, R, m.Keys)
  {
    var q := Sorted(Touching(s, m.Keys));
    var e := Inside(s, m.Keys);
    assert Members(q) == Touching(s, m.Keys);
    if StaysInside(s, m.Keys) {
      assert Touching(s, m.Keys) == e;
      if NoInnerCycle(s, R, m.Keys) {
        RelinkExact(s, R, used, m, q);
      } else {
        var a :| a in m && ReachesAgain(e, R, a, a);
        var n :| Hop(e, R, a, n) && Reaches(e, R, n, a);
        ImageHop(s, R, used, m, a, n);
        ImageReaches(s, R, used, m, n, a);
        CopiedCycle(s, R, m, a, n);
        RelinkNoCycle(s, R, used, m, q, a);
      }
    } else {
      var c :| c in Touching(s, m.Keys) && c !in e;
      assert c in q && !(c.fromNode in m.Keys && c.toNode in m.Keys);
      var k := FirstStray(q, m.Keys);
      assert q[k] in q;
      forall d | d in q[..k] ensures d in e {
        assert d in q;
      }
      FirstStrayLinked(s, R, used, m, q, k);
    }
  }

  lemma CopiedCycle(s: set<Connection>, R: set<int>, m: IdMap, a: int, n: int)
    requires a in m && n in m
    requires Hop(Images(m, Inside(s, m.Keys)), R, m[a], m[n])
    requires Reaches(Images(m, Inside(s, m.Keys)), R, m[n], m[a])
    ensures ReachesAgain(s + Images(m, Inside(s, m.Keys)), R, m[a], m[a])
  {
    ReachesMonotone(Images(m, Inside(s, m.Keys)), s + Images(m, Inside(s, m.Keys)), R, m[n], m[a]);
    assert Hop(s + Images(m, Inside(s, m.Keys)), R, m[a], m[n]);
  }

  /** The image of the wires is one to one: the copy has as many wires as the original. */
  lemma ImageInjective(s: set<Connection>, R: set<int>, used: set<int>, m: IdMap, c: Connection, d: Connection)
    requires Copying(s, R, used, m) && c in Inside(s, m.Keys) && d in Inside(s, m.Keys)
    requires Image(m, c) == Image(m, d)
    ensures c == d
  {
    ImageInside(s, R, used, m, c);
    ImageInside(s, R, used, m, d);
  }
}
