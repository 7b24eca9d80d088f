/**
  Reroute nodes: the cycle guard (`would_create_cycle` of `src/orchestration/nodes/reroute.cpp`) and the
  resolution of a pin through a chain of reroutes (`_resolve_reroute` of `src/orchestration/node_pin.cpp`).

  Both are stated over a connection set `s` and the set `R` of the ids of reroute nodes.  A reroute has
  one input pin and one output pin, each first in its vector.
 */
module Reroutes {
  import opened Connections
  import opened ConnectionCaches

  // ----- Reachability along reroutes -----

  predicate Hop(s: set<Connection>, R: set<int>, a: int, b: int) {
    a in R && b in R && exists c :: c in s && c.fromNode == a && c.toNode == b
  }

  ghost predicate IsPath(s: set<Connection>, R: set<int>, path: seq<int>) {
    && path != []
    && path[0] in R
    && forall i :: 0 <= i < |path| - 1 ==> Hop(s, R, path[i], path[i + 1])
  }

  ghost predicate Reaches(s: set<Connection>, R: set<int>, a: int, b: int) {
    exists path :: IsPath(s, R, path) && path[0] == a && path[|path| - 1] == b
  }

  /** Reachability in at least one hop. */
  ghost predicate ReachesAgain(s: set<Connection>, R: set<int>, a: int, b: int) {
    exists m :: Hop(s, R, a, m) && Reaches(s, R, m, b)
  }

  ghost predicate Acyclic(s: set<Connection>, R: set<int>) {
    forall a :: !ReachesAgain(s, R, a, a)
  }

  lemma ReachesSelf(s: set<Connection>, R: set<int>, a: int)
    requires a in R
    ensures Reaches(s, R, a, a)
  {
    assert IsPath(s, R, [a]);
  }

  lemma ReachesTransitive(s: set<Connection>, R: set<int>, a: int, b: int, c: int)
    requires Reaches(s, R, a, b) && Reaches(s, R, b, c)
    ensures Reaches(s, R, a, c)
  {
    var p :| IsPath(s, R, p) && p[0] == a && p[|p| - 1] == b;
    var q :| IsPath(s, R, q) && q[0] == b && q[|q| - 1] == c;
    assert IsPath(s, R, p + q[1..]);
  }

  lemma HopReaches(s: set<Connection>, R: set<int>, a: int, b: int)
    requires Hop(s, R, a, b)
    ensures Reaches(s, R, a, b)
  {
    assert IsPath(s, R, [a, b]);
  }

  /** What a path visits lies in every set that has its start and is closed under hops. */
  lemma {:induction false} PathStaysInside(s: set<Connection>, R: set<int>, path: seq<int>, closed: set<int>)
    requires IsPath(s, R, path) && path[0] in closed
    requires forall a, b :: a in closed && Hop(s, R, a, b) ==> b in closed
    ensures path[|path| - 1] in closed
  {
    if |path| > 1 {
      assert Hop(s, R, path[0], path[1]);
      assert IsPath(s, R, path[1..]) by {
        forall i | 0 <= i < |path[1..]| - 1 ensures Hop(s, R, path[1..][i], path[1..][i + 1]) {
          assert Hop(s, R, path[i + 1], path[i + 2]);
        }
      }
      PathStaysInside(s, R, path[1..], closed);
    }
  }

  /** The inner loop of the search: every reroute wired from `current` becomes pending. */
  method PushTargets(s: set<Connection>, R: set<int>, current: int, pending: seq<int>) returns (r: seq<int>)
    requires current in R
    ensures forall a :: a in r <==> a in pending || Hop(s, R, current, a)
  {
    r := pending;
    var order := Sorted(s);
    for i := 0 to |order|
      invariant forall a :: a in pending ==> a in r
      invariant forall a :: a in r ==> a in pending || Hop(s, R, current, a)
      invariant forall k :: 0 <= k < i && order[k].fromNode == current && order[k].toNode in R ==> order[k].toNode in r
    {
      if order[i].fromNode == current && order[i].toNode in R {
        r := r + [order[i].toNode];
      }
    }
    forall a | Hop(s, R, current, a) ensures a in r {
      var c :| c in s && c.fromNode == current && c.toNode == a;
      assert c in order;
    }
  }

  /**
    The depth-first search behind the connect guard.  It answers exactly whether the target reroute
    already reaches the source, so that the wire from source to target would close a cycle.
   */
  method WouldCreateCycle(s: set<Connection>, R: set<int>, target: int, source: int) returns (r: bool)
    requires target in R
    ensures r <==> source in R && Reaches(s, R, target, source)
  {
    if source !in R {
      return false;
    }
    var visited: set<int> := {};
    var pending := [target];
    ReachesSelf(s, R, target);
    while pending != []
      invariant visited <= R
      invariant forall a :: a in pending ==> a in R && Reaches(s, R, target, a)
      invariant target in visited || target in pending
      invariant source !in visited
      invariant forall a, b :: a in visited && Hop(s, R, a, b) ==> b in visited || b in pending
      decreases R - visited, |pending|
    {
      var current := pending[|pending| - 1];
      ghost var popped := pending;
      pending := pending[..|pending| - 1];
      assert forall a :: a in popped <==> a in pending || a == current;
      if current == source {
        return true;
      }
      if current in visited {
        continue;
      }
      visited := visited + {current};
      ghost var rest := pending;
      pending := PushTargets(s, R, current, pending);
      forall a | a in pending ensures a in R && Reaches(s, R, target, a) {
        if a !in rest {
          HopReaches(s, R, current, a);
          ReachesTransitive(s, R, target, current, a);
        }
      }
    }
    if Reaches(s, R, target, source) {
      var path :| IsPath(s, R, path) && path[0] == target && path[|path| - 1] == source;
      PathStaysInside(s, R, path, visited);
    }
    return false;
  }

  // ----- The guard keeps the reroute relation acyclic -----

  lemma ReachesMonotone(s: set<Connection>, t: set<Connection>, R: set<int>, a: int, b: int)
    requires s <= t && Reaches(s, R, a, b)
    ensures Reaches(t, R, a, b)
  {
    var p :| IsPath(s, R, p) && p[0] == a && p[|p| - 1] == b;
    forall i | 0 <= i < |p| - 1 ensures Hop(t, R, p[i], p[i + 1]) {
      assert Hop(s, R, p[i], p[i + 1]);
    }
    assert IsPath(t, R, p);
  }

  /** A path in the enlarged set either avoids the new connection or crosses it. */
  lemma {:induction false} PathWithNewConnection(s: set<Connection>, R: set<int>, c: Connection, path: seq<int>)
    requires IsPath(s + {c}, R, path)
    ensures || Reaches(s, R, path[0], path[|path| - 1])
            || (Reaches(s, R, path[0], c.fromNode) && Reaches(s, R, c.toNode, path[|path| - 1]))
  {
    var a, b := path[0], path[|path| - 1];
    if |path| == 1 {
      ReachesSelf(s, R, a);
    } else {
      var m := path[1];
      assert Hop(s + {c}, R, a, m);
      assert IsPath(s + {c}, R, path[1..]) by {
        forall i | 0 <= i < |path[1..]| - 1 ensures Hop(s + {c}, R, path[1..][i], path[1..][i + 1]) {
          assert Hop(s + {c}, R, path[i + 1], path[i + 2]);
        }
      }
      PathWithNewConnection(s, R, c, path[1..]);
      if Hop(s, R, a, m) {
        HopReaches(s, R, a, m);
        if Reaches(s, R, m, b) {
          ReachesTransitive(s, R, a, m, b);
        } else {
          ReachesTransitive(s, R, a, m, c.fromNode);
        }
      } else {
        assert a == c.fromNode && m == c.toNode;
        ReachesSelf(s, R, a);
      }
    }
  }

  /** A new connection whose target does not reach its source puts no node on a cycle. */
  lemma NewConnectionNoCycle(s: set<Connection>, R: set<int>, c: Connection, a: int)
    requires !Reaches(s, R, c.toNode, c.fromNode)
    requires ReachesAgain(s + {c}, R, a, a)
    ensures ReachesAgain(s, R, a, a)
  {
    var t := s + {c};
    var m :| Hop(t, R, a, m) && Reaches(t, R, m, a);
    var path :| IsPath(t, R, path) && path[0] == m && path[|path| - 1] == a;
    PathWithNewConnection(s, R, c, path);
    if Hop(s, R, a, m) {
      if !Reaches(s, R, m, a) {
        HopReaches(s, R, a, m);
        ReachesTransitive(s, R, c.toNode, a, m);
        ReachesTransitive(s, R, c.toNode, m, c.fromNode);
      }
    }
  }

  /** A connection the guard lets through keeps the relation acyclic, and one it rejects would not. */
  lemma GuardedConnect(s: set<Connection>, R: set<int>, c: Connection)
    requires Acyclic(s, R)
    ensures Acyclic(s + {c}, R) <==> !(c.fromNode in R && c.toNode in R && Reaches(s, R, c.toNode, c.fromNode))
  {
    var t := s + {c};
    if Reaches(s, R, c.toNode, c.fromNode) {
      ReachesEnds(s, R, c.toNode, c.fromNode);
      assert Hop(t, R, c.fromNode, c.toNode);
      ReachesMonotone(s, t, R, c.toNode, c.fromNode);
      assert ReachesAgain(t, R, c.fromNode, c.fromNode);
    } else {
      forall a ensures !ReachesAgain(t, R, a, a) {
        if ReachesAgain(t, R, a, a) {
          NewConnectionNoCycle(s, R, c, a);
        }
      }
    }
  }

  lemma ReachesEnds(s: set<Connection>, R: set<int>, a: int, b: int)
    requires Reaches(s, R, a, b)
    ensures a in R && b in R
  {
    var p :| IsPath(s, R, p) && p[0] == a && p[|p| - 1] == b;
    if |p| > 1 {
      assert Hop(s, R, p[|p| - 2], p[|p| - 2 + 1]);
    }
  }

  /** Dropping connections or turning nodes away from being reroutes cannot close a cycle. */
  lemma AcyclicAntitone(s: set<Connection>, t: set<Connection>, R: set<int>, Q: set<int>)
    requires s <= t && R <= Q && Acyclic(t, Q)
    ensures Acyclic(s, R)
  {
    if a :| ReachesAgain(s, R, a, a) {
      var m :| Hop(s, R, a, m) && Reaches(s, R, m, a);
      var p :| IsPath(s, R, p) && p[0] == m && p[|p| - 1] == a;
      forall i | 0 <= i < |p| - 1 ensures Hop(t, Q, p[i], p[i + 1]) {
        assert Hop(s, R, p[i], p[i + 1]);
      }
      assert IsPath(t, Q, p);
      assert Hop(t, Q, a, m);
      assert ReachesAgain(t, Q, a, a);
    }
  }

  /** A path is carried over by a map under which every hop becomes a hop or disappears. */
  lemma {:induction false} PathAlong(
      e: set<Connection>, R: set<int>, f: set<Connection>, Q: set<int>, h: int -> int, path: seq<int>)
    requires forall x, y :: Hop(e, R, x, y) ==> h(x) == h(y) || Hop(f, Q, h(x), h(y))
    requires IsPath(e, R, path) && h(path[0]) in Q
    ensures Reaches(f, Q, h(path[0]), h(path[|path| - 1]))
  {
    ReachesSelf(f, Q, h(path[0]));
    if |path| > 1 {
      var last := |path| - 1;
      var init := path[..last];
      assert IsPath(e, R, init) by {
        forall i | 0 <= i < |init| - 1 ensures Hop(e, R, init[i], init[i + 1]) {
          assert Hop(e, R, path[i], path[i + 1]);
        }
      }
      PathAlong(e, R, f, Q, h, init);
      assert Hop(e, R, path[last - 1], path[last - 1 + 1]);
      if h(path[last - 1]) != h(path[last]) {
        HopReaches(f, Q, h(path[last - 1]), h(path[last]));
        ReachesTransitive(f, Q, h(path[0]), h(path[last - 1]), h(path[last]));
      }
    }
  }

  lemma ReachesAlong(
      e: set<Connection>, R: set<int>, f: set<Connection>, Q: set<int>, h: int -> int, a: int, b: int)
    requires forall x, y :: Hop(e, R, x, y) ==> h(x) == h(y) || Hop(f, Q, h(x), h(y))
    requires Reaches(e, R, a, b) && h(a) in Q
    ensures Reaches(f, Q, h(a), h(b))
  {
    var path :| IsPath(e, R, path) && path[0] == a && path[|path| - 1] == b;
    PathAlong(e, R, f, Q, h, path);
  }

  lemma CycleByHops(s: set<Connection>, R: set<int>, t: set<Connection>, Q: set<int>, a: int)
    requires ReachesAgain(t, Q, a, a) && forall x, y :: Hop(t, Q, x, y) ==> Hop(s, R, x, y)
    ensures ReachesAgain(s, R, a, a)
  {
    var m :| Hop(t, Q, a, m) && Reaches(t, Q, m, a);
    var p :| IsPath(t, Q, p) && p[0] == m && p[|p| - 1] == a;
    assert Hop(s, R, a, m);
    forall i | 0 <= i < |p| - 1 ensures Hop(s, R, p[i], p[i + 1]) {
      assert Hop(t, Q, p[i], p[i + 1]);
    }
    assert IsPath(s, R, p);
  }

  /** Where every hop was there before, no cycle is new. */
  lemma AcyclicByHops(s: set<Connection>, R: set<int>, t: set<Connection>, Q: set<int>)
    requires Acyclic(s, R) && forall a, b :: Hop(t, Q, a, b) ==> Hop(s, R, a, b)
    ensures Acyclic(t, Q)
  {
    forall a ensures !ReachesAgain(t, Q, a, a) {
      if ReachesAgain(t, Q, a, a) {
        CycleByHops(s, R, t, Q, a);
      }
    }
  }

  // ----- Resolution -----

  /** The pin at the other side of a reroute. */
  function Across(p: PinRef): PinRef {
    PinRef(p.node, p.dir.Opposite(), 0)
  }

  /** The first pin wired to `p`, in the order of the connection set. */
  function FirstNeighbour(s: set<Connection>, p: PinRef): Option<PinRef> {
    var n := Neighbours(s, p);
    if n == [] then None else Some(n[0])
  }

  lemma FirstNeighbourJoins(s: set<Connection>, p: PinRef) returns (c: Connection)
    requires FirstNeighbour(s, p).Some?
    ensures c in s && Joins(c, p, FirstNeighbour(s, p).value)
  {
    var q := FirstNeighbour(s, p).value;
    assert q in Neighbours(s, p);
    NeighboursContents(s, p, q);
    c :| c in s && Joins(c, p, q);
  }

  /** `_resolve_reroute`, with the set of reroutes already walked through. */
  function Resolve(s: set<Connection>, R: set<int>, p: PinRef, visited: set<int>): Option<PinRef>
    decreases R - visited
  {
    if p.node !in R then Some(p)
    else if p.node in visited then None
    else match FirstNeighbour(s, Across(p))
      case None => None
      case Some(q) => Resolve(s, R, q, visited + {p.node})
  }

  lemma {:induction false} ResolveKeepsDirection(s: set<Connection>, R: set<int>, p: PinRef, visited: set<int>)
    ensures Resolve(s, R, p, visited).Some? ==>
              && Resolve(s, R, p, visited).value.dir == p.dir
              && Resolve(s, R, p, visited).value.node !in R
    decreases R - visited
  {
    if p.node in R && p.node !in visited && FirstNeighbour(s, Across(p)).Some? {
      var c := FirstNeighbourJoins(s, Across(p));
      ResolveKeepsDirection(s, R, FirstNeighbour(s, Across(p)).value, visited + {p.node});
    }
  }

  /** The pin after `k` steps of following first connections; the walk rests outside the reroutes. */
  function Walk(s: set<Connection>, R: set<int>, p: PinRef, k: nat): Option<PinRef>
    decreases k
  {
    if k == 0 || p.node !in R then Some(p)
    else match FirstNeighbour(s, Across(p))
      case None => None
      case Some(q) => Walk(s, R, q, k - 1)
  }

  predicate Arrives(s: set<Connection>, R: set<int>, p: PinRef, k: nat) {
    Walk(s, R, p, k).Some? && Walk(s, R, p, k).value.node !in R
  }

  lemma {:induction false} WalkSplits(s: set<Connection>, R: set<int>, p: PinRef, i: nat, j: nat)
    ensures Walk(s, R, p, i).Some? ==> Walk(s, R, p, i + j) == Walk(s, R, Walk(s, R, p, i).value, j)
    ensures Walk(s, R, p, i).None? ==> Walk(s, R, p, i + j).None?
    ensures Walk(s, R, p, i).Some? ==> Walk(s, R, p, i).value.dir == p.dir
    decreases i
  {
    if i > 0 && p.node in R && FirstNeighbour(s, Across(p)).Some? {
      var c := FirstNeighbourJoins(s, Across(p));
      WalkSplits(s, R, FirstNeighbour(s, Across(p)).value, i - 1, j);
    }
  }

  /** No reroute is met twice before the first arrival. */
  lemma NoRepeatBeforeArrival(s: set<Connection>, R: set<int>, p: PinRef, k: nat, j: nat)
    requires Arrives(s, R, p, k) && forall i: nat :: i < k ==> !Arrives(s, R, p, i)
    requires 0 < j < k
    ensures Walk(s, R, p, j).Some? && Walk(s, R, p, j).value.node in R && Walk(s, R, p, j).value.node != p.node
  {
    var rest: nat := k - j;
    WalkSplits(s, R, p, j, rest);
    var q := Walk(s, R, p, j).value;
    assert !Arrives(s, R, p, j) && !Arrives(s, R, p, 0);
    assert q.node == p.node ==> Across(q) == Across(p);
    assert q.node == p.node ==> Walk(s, R, q, rest) == Walk(s, R, p, rest);
    assert q.node == p.node ==> Arrives(s, R, p, rest);
  }

  lemma {:induction false} ResolveFollowsWalk(s: set<Connection>, R: set<int>, p: PinRef, visited: set<int>, k: nat)
    requires Arrives(s, R, p, k) && forall i: nat :: i < k ==> !Arrives(s, R, p, i)
    requires forall i: nat :: i < k ==> Walk(s, R, p, i).Some? && Walk(s, R, p, i).value.node !in visited
    ensures Resolve(s, R, p, visited) == Walk(s, R, p, k)
    decreases k
  {
    if k > 0 {
      assert !Arrives(s, R, p, 0);
      assert Walk(s, R, p, 0).value.node !in visited;
      var q := FirstNeighbour(s, Across(p)).value;
      forall i: nat | i < k
        ensures Walk(s, R, q, i) == Walk(s, R, p, i + 1)
      {
      }
      assert Arrives(s, R, q, k - 1);
      forall i: nat | i < k - 1
        ensures !Arrives(s, R, q, i)
        ensures Walk(s, R, q, i).Some? && Walk(s, R, q, i).value.node !in visited + {p.node}
      {
        assert !Arrives(s, R, p, i + 1);
        NoRepeatBeforeArrival(s, R, p, k, i + 1);
      }
      ResolveFollowsWalk(s, R, q, visited + {p.node}, k - 1);
    }
  }

  lemma {:induction false} ResolvedIsWalked(s: set<Connection>, R: set<int>, p: PinRef, visited: set<int>)
      returns (k: nat)
    requires Resolve(s, R, p, visited).Some?
    ensures Arrives(s, R, p, k) && Walk(s, R, p, k) == Resolve(s, R, p, visited)
    decreases R - visited
  {
    if p.node !in R {
      k := 0;
    } else {
      var n := ResolvedIsWalked(s, R, FirstNeighbour(s, Across(p)).value, visited + {p.node});
      k := n + 1;
    }
  }

  lemma LeastArrival(s: set<Connection>, R: set<int>, p: PinRef, k: nat) returns (least: nat)
    requires Arrives(s, R, p, k)
    ensures least <= k && Arrives(s, R, p, least) && forall i: nat :: i < least ==> !Arrives(s, R, p, i)
  {
    least := 0;
    while !Arrives(s, R, p, least)
      invariant least <= k
      invariant forall i: nat :: i < least ==> !Arrives(s, R, p, i)
      decreases k - least
    {
      least := least + 1;
    }
  }

  /**
    Resolution returns a pin exactly when following first connections leaves the reroutes, and then it
    returns the pin where they are left: the visited set ends only walks that never arrive.
   */
  lemma ResolveIffWalkArrives(s: set<Connection>, R: set<int>, p: PinRef)
    ensures Resolve(s, R, p, {}).Some? <==> exists k: nat :: Arrives(s, R, p, k)
    ensures forall k: nat :: Arrives(s, R, p, k) ==> Resolve(s, R, p, {}) == Walk(s, R, p, k)
  {
    if Resolve(s, R, p, {}).Some? {
      var k := ResolvedIsWalked(s, R, p, {});
    }
    forall k: nat | Arrives(s, R, p, k) ensures Resolve(s, R, p, {}) == Walk(s, R, p, k) {
      var least := LeastArrival(s, R, p, k);
      WalkSplits(s, R, p, least, k - least);
      forall i: nat | i < least ensures Walk(s, R, p, i).Some? {
        WalkSplits(s, R, p, i, least - i);
      }
      ResolveFollowsWalk(s, R, p, {}, least);
    }
  }

  /** Whether the visited check of `_resolve_reroute` is what ends the walk. */
  ghost predicate Revisits(s: set<Connection>, R: set<int>, p: PinRef, visited: set<int>)
    decreases R - visited
  {
    p.node in R &&
    (p.node in visited ||
     (FirstNeighbour(s, Across(p)).Some? && Revisits(s, R, FirstNeighbour(s, Across(p)).value, visited + {p.node})))
  }

  /** `a` comes before `b` on a walk that moves pins of direction `dir`: along the wires for inputs. */
  ghost predicate Precedes(s: set<Connection>, R: set<int>, dir: Direction, a: int, b: int) {
    if dir == PD_Input then ReachesAgain(s, R, a, b) else ReachesAgain(s, R, b, a)
  }

  lemma PrecedesExtends(s: set<Connection>, R: set<int>, dir: Direction, a: int, b: int, n: int)
    requires if dir == PD_Input then Hop(s, R, b, n) else Hop(s, R, n, b)
    ensures Precedes(s, R, dir, b, n)
    ensures Precedes(s, R, dir, a, b) ==> Precedes(s, R, dir, a, n)
  {
    ReachesSelf(s, R, n);
    ReachesSelf(s, R, b);
    if Precedes(s, R, dir, a, b) {
      if dir == PD_Input {
        var m :| Hop(s, R, a, m) && Reaches(s, R, m, b);
        HopReaches(s, R, b, n);
        ReachesTransitive(s, R, m, b, n);
      } else {
        var m :| Hop(s, R, b, m) && Reaches(s, R, m, a);
        HopReaches(s, R, b, m);
        ReachesTransitive(s, R, b, m, a);
      }
    }
  }

  lemma {:induction false} AcyclicNeverRevisitsFrom(s: set<Connection>, R: set<int>, p: PinRef, visited: set<int>)
    requires Acyclic(s, R)
    requires p.node in R ==> forall v :: v in visited ==> Precedes(s, R, p.dir, v, p.node)
    ensures !Revisits(s, R, p, visited)
    decreases R - visited
  {
    if p.node in R {
      assert p.node in visited ==> Precedes(s, R, p.dir, p.node, p.node);
      assert p.node in visited ==> ReachesAgain(s, R, p.node, p.node);
      if FirstNeighbour(s, Across(p)).Some? {
        var q := FirstNeighbour(s, Across(p)).value;
        var c := FirstNeighbourJoins(s, Across(p));
        if q.node in R {
          forall v | v in visited + {p.node} ensures Precedes(s, R, q.dir, v, q.node) {
            PrecedesExtends(s, R, p.dir, v, p.node, q.node);
          }
        }
        AcyclicNeverRevisitsFrom(s, R, q, visited + {p.node});
      }
    }
  }

  /** While the reroute relation is acyclic the visited check never fires, in either direction. */
  lemma AcyclicNeverRevisits(s: set<Connection>, R: set<int>, p: PinRef)
    requires Acyclic(s, R)
    ensures !Revisits(s, R, p, {})
  {
    AcyclicNeverRevisitsFrom(s, R, p, {});
  }
}
