/**
  The migration of knots to reroute nodes when a file older than version 4 is opened
  (`OScriptGraph::_upgrade` of `src/orchestration/graph.cpp`).

  Every knotted wire is replaced by a chain of fresh reroutes, one per knot.  The result is described
  here by the chains alone, so that it does not depend on the order in which the knots are visited.
 */
module KnotMigration {
  import opened Connections
  import opened ConnectionCaches
  import opened Reroutes

  /** The reroutes placed on each knotted wire, from source to target. */
  type Chains = map<Connection, seq<NodeBits>>

  /** Wire `i` of the chain that replaces `c`. */
  function ChainWire(c: Connection, ids: seq<NodeBits>, i: nat): Connection
    requires i <= |ids|
  {
    Connection(if i == 0 then c.fromNode else ids[i - 1], if i == 0 then c.fromPort else 0,
               if i == |ids| then c.toNode else ids[i], if i == |ids| then c.toPort else 0)
  }

  ghost predicate InChain(chains: Chains, e: Connection) {
    exists c, i: nat :: c in chains && i <= |chains[c]| && e == ChainWire(c, chains[c], i)
  }

  function ChainWires(c: Connection, ids: seq<NodeBits>): set<Connection> {
    set i: nat | i <= |ids| :: ChainWire(c, ids, i)
  }

  /** The connection set after the migration. */
  function Migrated(s: set<Connection>, chains: Chains): set<Connection> {
    (s - chains.Keys) + set c, e | c in chains && e in ChainWires(c, chains[c]) :: e
  }

  lemma MigratedContents(s: set<Connection>, chains: Chains, e: Connection)
    ensures e in Migrated(s, chains) <==> (e in s && e !in chains) || InChain(chains, e)
  {
    if InChain(chains, e) {
      var c, i: nat :| c in chains && i <= |chains[c]| && e == ChainWire(c, chains[c], i);
      assert e in ChainWires(c, chains[c]);
    }
  }

  /** The ids of all the new reroutes. */
  function NewIds(chains: Chains): set<int> {
    set c, id | c in chains && id in chains[c] :: id
  }

  /** No chain is empty, and every reroute is new and used once. */
  ghost predicate Fresh(chains: Chains, used: set<int>) {
    && (forall c :: c in chains ==> chains[c] != [])
    && (forall c, i :: c in chains && 0 <= i < |chains[c]| ==> chains[c][i] !in used)
    && (forall c, i, d, j ::
          (c in chains && d in chains && 0 <= i < |chains[c]| && 0 <= j < |chains[d]| && chains[c][i] == chains[d][j])
          ==> c == d && i == j)
  }

  /** A connection set over the nodes `used`, in which the knotted wires join nodes that are no reroutes. */
  ghost predicate Migratable(s: set<Connection>, R: set<int>, used: set<int>, chains: Chains) {
    && Fresh(chains, used)
    && R <= used
    && (forall c :: c in s ==> c.fromNode in used && c.toNode in used)
    && (forall c :: c in chains ==> c.fromNode in used - R && c.toNode in used - R)
  }

  /** `r` is among the resolved connections of `p` (`get_resolved_connections`). */
  ghost predicate ResolvesTo(s: set<Connection>, R: set<int>, p: PinRef, r: PinRef) {
    exists q :: q in Neighbours(s, p) && Resolve(s, R, q, {}) == Some(r)
  }

  // ----- Neighbours depend only on the wires at a pin -----

  lemma {:induction false} StrictlyOrderedUnique(a: seq<PinRef>, b: seq<PinRef>)
    requires StrictlyOrdered(a) && StrictlyOrdered(b)
    requires forall x :: x in a <==> x in b
    ensures a == b
  {
    assert |b| > 0 ==> b[0] in b;
    if a != [] {
      assert a[0] in b && b[0] in a;
      assert a[0] == b[0];
      forall x ensures x in a[1..] <==> x in b[1..] {
        if x in a[1..] {
          assert x in b && x != b[0];
        }
        if x in b[1..] {
          assert x in a && x != a[0];
        }
      }
      StrictlyOrderedUnique(a[1..], b[1..]);
    }
  }

  lemma NeighboursLocal(s: set<Connection>, t: set<Connection>, p: PinRef)
    requires forall c: Connection :: c.End(p.dir) == p ==> (c in s <==> c in t)
    ensures Neighbours(s, p) == Neighbours(t, p)
  {
    forall x ensures x in Neighbours(s, p) <==> x in Neighbours(t, p) {
      NeighboursContents(s, p, x);
      NeighboursContents(t, p, x);
      if c :| c in s && Joins(c, p, x) {
        assert c in t;
      }
      if c :| c in t && Joins(c, p, x) {
        assert c in s;
      }
    }
    NeighboursOrdered(s, p);
    NeighboursOrdered(t, p);
    StrictlyOrderedUnique(Neighbours(s, p), Neighbours(t, p));
  }

  lemma OnlyNeighbour(s: set<Connection>, p: PinRef, c: Connection)
    requires c in s && c.End(p.dir) == p
    requires forall d :: d in s && d.End(p.dir) == p ==> d == c
    ensures Neighbours(s, p) == [c.End(p.dir.Opposite())]
  {
    NeighboursLocal(s, {c}, p);
    var x := c.End(p.dir.Opposite());
    forall y ensures y in Neighbours({c}, p) <==> y in [x] {
      NeighboursContents({c}, p, y);
      assert y == x ==> Joins(c, p, x);
    }
    NeighboursOrdered({c}, p);
    StrictlyOrderedUnique(Neighbours({c}, p), [x]);
  }

  // ----- The wires at a pin after the migration -----

  /** At a reroute of a chain there is one wire on each side. */
  lemma ChainNodeWires(s: set<Connection>, R: set<int>, used: set<int>, chains: Chains, c: Connection, i: nat)
    requires Migratable(s, R, used, chains) && c in chains && i < |chains[c]|
    ensures Neighbours(Migrated(s, chains), PinRef(chains[c][i], PD_Output, 0))
            == [ChainWire(c, chains[c], i + 1).End(PD_Input)]
    ensures Neighbours(Migrated(s, chains), PinRef(chains[c][i], PD_Input, 0))
            == [ChainWire(c, chains[c], i).End(PD_Output)]
  {
    var t, id := Migrated(s, chains), chains[c][i];
    MigratedContents(s, chains, ChainWire(c, chains[c], i + 1));
    MigratedContents(s, chains, ChainWire(c, chains[c], i));
    forall e | e in t
      ensures e.fromNode == id ==> e == ChainWire(c, chains[c], i + 1)
      ensures e.toNode == id ==> e == ChainWire(c, chains[c], i)
    {
      MigratedContents(s, chains, e);
      if InChain(chains, e) {
        var d, j: nat :| d in chains && j <= |chains[d]| && e == ChainWire(d, chains[d], j);
      }
    }
    OnlyNeighbour(t, PinRef(id, PD_Output, 0), ChainWire(c, chains[c], i + 1));
    OnlyNeighbour(t, PinRef(id, PD_Input, 0), ChainWire(c, chains[c], i));
  }

  /** Chains touch only new reroutes and the ends of the knotted wires. */
  lemma ChainAvoids(s: set<Connection>, R: set<int>, used: set<int>, chains: Chains, e: Connection, dir: Direction)
    requires Migratable(s, R, used, chains) && InChain(chains, e)
    ensures e.End(dir).node !in R
  {
    var d, j: nat :| d in chains && j <= |chains[d]| && e == ChainWire(d, chains[d], j);
  }

  lemma ChainIdIsNew(s: set<Connection>, R: set<int>, used: set<int>, chains: Chains, c: Connection, i: nat)
    requires Migratable(s, R, used, chains) && c in chains
    ensures c.fromNode !in R + NewIds(chains) && c.toNode !in R + NewIds(chains)
    ensures i < |chains[c]| ==> chains[c][i] in NewIds(chains) && chains[c][i] !in R
  {
    assert i < |chains[c]| ==> chains[c][i] in chains[c];
  }

  /** Nothing changes at the pins of the reroutes that were there before. */
  lemma OldRerouteWires(s: set<Connection>, R: set<int>, used: set<int>, chains: Chains, p: PinRef)
    requires Migratable(s, R, used, chains) && p.node in R
    ensures Neighbours(Migrated(s, chains), p) == Neighbours(s + chains.Keys, p)
  {
    forall e: Connection | e.End(p.dir) == p ensures e in Migrated(s, chains) <==> e in s + chains.Keys {
      MigratedContents(s, chains, e);
      if InChain(chains, e) {
        ChainAvoids(s, R, used, chains, e, p.dir);
      }
    }
    NeighboursLocal(Migrated(s, chains), s + chains.Keys, p);
  }

  // ----- Resolution through the chains -----

  lemma {:induction false} ResolveForward(
      s: set<Connection>, R: set<int>, used: set<int>, chains: Chains, c: Connection, i: nat, visited: set<int>)
    requires Migratable(s, R, used, chains) && c in chains && i <= |chains[c]|
    requires forall j :: i <= j < |chains[c]| ==> chains[c][j] !in visited
    ensures Resolve(Migrated(s, chains), R + NewIds(chains), ChainWire(c, chains[c], i).End(PD_Input), visited)
            == Some(c.End(PD_Input))
    decreases |chains[c]| - i
  {
    ChainIdIsNew(s, R, used, chains, c, i);
    if i < |chains[c]| {
      ChainNodeWires(s, R, used, chains, c, i);
      ResolveForward(s, R, used, chains, c, i + 1, visited + {chains[c][i]});
    }
  }

  lemma {:induction false} ResolveBackward(
      s: set<Connection>, R: set<int>, used: set<int>, chains: Chains, c: Connection, i: nat, visited: set<int>)
    requires Migratable(s, R, used, chains) && c in chains && i <= |chains[c]|
    requires forall j :: 0 <= j < i ==> chains[c][j] !in visited
    ensures Resolve(Migrated(s, chains), R + NewIds(chains), ChainWire(c, chains[c], i).End(PD_Output), visited)
            == Some(c.End(PD_Output))
    decreases i
  {
    ChainIdIsNew(s, R, used, chains, c, if i > 0 then i - 1 else 0);
    if i > 0 {
      ChainNodeWires(s, R, used, chains, c, i - 1);
      ResolveBackward(s, R, used, chains, c, i - 1, visited + {chains[c][i - 1]});
    }
  }

  /** A pin of an old node resolves as it did, whatever was put on the knotted wires. */
  lemma {:induction false} ResolveUnaffected(
      s: set<Connection>, R: set<int>, used: set<int>, chains: Chains, q: PinRef, visited: set<int>)
    requires Migratable(s, R, used, chains) && q.node in used
    ensures Resolve(Migrated(s, chains), R + NewIds(chains), q, visited) == Resolve(s + chains.Keys, R, q, visited)
    decreases R - visited
  {
    assert q.node in R + NewIds(chains) <==> q.node in R;
    if q.node in R && q.node !in visited {
      OldRerouteWires(s, R, used, chains, Across(q));
      if FirstNeighbour(s + chains.Keys, Across(q)).Some? {
        var c := FirstNeighbourJoins(s + chains.Keys, Across(q));
        ResolveUnaffected(s, R, used, chains, FirstNeighbour(s + chains.Keys, Across(q)).value, visited + {q.node});
      }
    }
  }

  /** What stands next to an old pin after the migration, for the wire `c` that used to be there. */
  function Replacement(chains: Chains, c: Connection, dir: Direction): Connection {
    if c !in chains then c
    else ChainWire(c, chains[c], if dir == PD_Output then 0 else |chains[c]|)
  }

  lemma ReplacementResolves(
      s: set<Connection>, R: set<int>, used: set<int>, chains: Chains, c: Connection, dir: Direction)
    requires Migratable(s, R, used, chains) && c in s + chains.Keys
    ensures Replacement(chains, c, dir) in Migrated(s, chains)
    ensures Replacement(chains, c, dir).End(dir) == c.End(dir)
    ensures Resolve(Migrated(s, chains), R + NewIds(chains), Replacement(chains, c, dir).End(dir.Opposite()), {})
            == Resolve(s + chains.Keys, R, c.End(dir.Opposite()), {})
  {
    MigratedContents(s, chains, Replacement(chains, c, dir));
    if c in chains {
      if dir == PD_Output {
        ResolveForward(s, R, used, chains, c, 0, {});
      } else {
        ResolveBackward(s, R, used, chains, c, |chains[c]|, {});
      }
    } else {
      ResolveUnaffected(s, R, used, chains, c.End(dir.Opposite()), {});
    }
  }

  /** Every wire now at an old pin replaces one that was there. */
  lemma IsReplacement(
      s: set<Connection>, R: set<int>, used: set<int>, chains: Chains, e: Connection, dir: Direction)
      returns (c: Connection)
    requires Migratable(s, R, used, chains) && e in Migrated(s, chains) && e.End(dir).node in used
    ensures c in s + chains.Keys && e == Replacement(chains, c, dir) && c.End(dir) == e.End(dir)
  {
    MigratedContents(s, chains, e);
    if e in s && e !in chains {
      c := e;
    } else {
      var d, j: nat :| d in chains && j <= |chains[d]| && e == ChainWire(d, chains[d], j);
      c := d;
    }
  }

  /** The migrated graph resolves exactly as the graph with every knotted wire in place. */
  lemma MigrationResolves(
      s: set<Connection>, R: set<int>, used: set<int>, chains: Chains, p: PinRef, r: PinRef)
    requires Migratable(s, R, used, chains) && p.node in used
    ensures ResolvesTo(Migrated(s, chains), R + NewIds(chains), p, r) <==> ResolvesTo(s + chains.Keys, R, p, r)
  {
    hide Migratable, Migrated, NewIds, Resolve, Neighbours, Replacement;
    var t, S := Migrated(s, chains), s + chains.Keys;
    if ResolvesTo(t, R + NewIds(chains), p, r) {
      var q :| q in Neighbours(t, p) && Resolve(t, R + NewIds(chains), q, {}) == Some(r);
      NeighboursContents(t, p, q);
      var e :| e in t && Joins(e, p, q);
      var c := IsReplacement(s, R, used, chains, e, p.dir);
      ReplacementResolves(s, R, used, chains, c, p.dir);
      NeighboursContents(S, p, c.End(p.dir.Opposite()));
      assert Joins(c, p, c.End(p.dir.Opposite()));
    }
    if ResolvesTo(S, R, p, r) {
      var q :| q in Neighbours(S, p) && Resolve(S, R, q, {}) == Some(r);
      NeighboursContents(S, p, q);
      var c :| c in S && Joins(c, p, q);
      ReplacementResolves(s, R, used, chains, c, p.dir);
      var e := Replacement(chains, c, p.dir);
      NeighboursContents(t, p, e.End(p.dir.Opposite()));
      assert Joins(e, p, e.End(p.dir.Opposite()));
    }
  }

  /**
    The migration preserves the meaning of the graph when every knot lies on a live wire: each pin that
    was there keeps its set of resolved connections, seen from either end.
   */
  lemma MigrationPreservesMeaning(
      s: set<Connection>, R: set<int>, used: set<int>, chains: Chains, p: PinRef, r: PinRef)
    requires Migratable(s, R, used, chains) && chains.Keys <= s && p.node in used
    ensures ResolvesTo(Migrated(s, chains), R + NewIds(chains), p, r) <==> ResolvesTo(s, R, p, r)
  {
    assert s + chains.Keys == s;
    MigrationResolves(s, R, used, chains, p, r);
  }

  lemma ResolvesDirectly(s: set<Connection>, p: PinRef, r: PinRef)
    ensures ResolvesTo(s, {}, p, r) <==> r in Neighbours(s, p)
  {
    if r in Neighbours(s, p) {
      assert Resolve(s, {}, r, {}) == Some(r);
    }
  }

  ghost predicate KeepsMeaning(s: set<Connection>, used: set<int>, chains: Chains) {
    forall p: PinRef, r: PinRef :: p.node in used ==>
      (ResolvesTo(Migrated(s, chains), NewIds(chains), p, r) <==> r in Neighbours(s, p))
  }

  /**
    In a file older than version 4, which has no reroutes, the migration keeps the meaning exactly when
    no knot is stale: a knot left over from a wire that is gone brings the wire back.
   */
  lemma MigrationIsFaithfulIffNoStaleKnots(s: set<Connection>, used: set<int>, chains: Chains)
    requires Migratable(s, {}, used, chains)
    ensures KeepsMeaning(s, used, chains) <==> chains.Keys <= s
  {
    assert {} + NewIds(chains) == NewIds(chains);
    forall p: PinRef, r: PinRef | p.node in used
      ensures ResolvesTo(Migrated(s, chains), NewIds(chains), p, r) <==> r in Neighbours(s + chains.Keys, p)
    {
      MigrationResolves(s, {}, used, chains, p, r);
      ResolvesDirectly(s + chains.Keys, p, r);
    }
    if chains.Keys <= s {
      assert s + chains.Keys == s;
    } else {
      var c :| c in chains && c !in s;
      var p, r := c.End(PD_Output), c.End(PD_Input);
      NeighboursContents(s + chains.Keys, p, r);
      NeighboursContents(s, p, r);
      assert Joins(c, p, r);
      assert forall d :: Joins(d, p, r) ==> d == c;
      assert ResolvesTo(Migrated(s, chains), NewIds(chains), p, r);
      assert !(r in Neighbours(s, p));
    }
  }

  // ----- The migration closes no cycle -----

  /** Hops of the migrated graph: the old ones, and the hops along each chain. */
  lemma MigratedHop(s: set<Connection>, R: set<int>, used: set<int>, chains: Chains, a: int, b: int)
    requires Migratable(s, R, used, chains) && Hop(Migrated(s, chains), R + NewIds(chains), a, b)
    ensures (a in R && b in R && Hop(s, R, a, b))
            || (exists c, i: nat :: c in chains && i + 1 < |chains[c]| && a == chains[c][i] && b == chains[c][i + 1])
  {
    var e :| e in Migrated(s, chains) && e.fromNode == a && e.toNode == b;
    MigratedContents(s, chains, e);
    if InChain(chains, e) {
      var d, j: nat :| d in chains && j <= |chains[d]| && e == ChainWire(d, chains[d], j);
      assert 0 < j < |chains[d]| by {
        assert d.fromNode !in R + NewIds(chains) && d.toNode !in R + NewIds(chains);
      }
      assert a == chains[d][j - 1] && b == chains[d][j - 1 + 1];
    }
  }

  /** From a reroute of a chain one only gets further along the same chain. */
  lemma {:induction false} ChainPath(
      s: set<Connection>, R: set<int>, used: set<int>, chains: Chains, c: Connection, i: nat, path: seq<int>)
      returns (j: nat)
    requires Migratable(s, R, used, chains) && c in chains && i < |chains[c]|
    requires IsPath(Migrated(s, chains), R + NewIds(chains), path) && path[0] == chains[c][i]
    ensures i <= j < |chains[c]| && path[|path| - 1] == chains[c][j]
    decreases |path|
  {
    if |path| == 1 {
      j := i;
    } else {
      var t, Q := Migrated(s, chains), R + NewIds(chains);
      assert Hop(t, Q, path[0], path[1]);
      MigratedHop(s, R, used, chains, path[0], path[1]);
      assert path[1..][0] in Q;
      assert IsPath(t, Q, path[1..]) by {
        forall k | 0 <= k < |path[1..]| - 1 ensures Hop(t, Q, path[1..][k], path[1..][k + 1]) {
          assert Hop(t, Q, path[k + 1], path[k + 2]);
        }
      }
      j := ChainPath(s, R, used, chains, c, i + 1, path[1..]);
    }
  }

  lemma {:induction false} OldPath(s: set<Connection>, R: set<int>, used: set<int>, chains: Chains, path: seq<int>)
    requires Migratable(s, R, used, chains)
    requires IsPath(Migrated(s, chains), R + NewIds(chains), path) && path[0] in R
    ensures IsPath(s, R, path)
  {
    if |path| > 1 {
      var t, Q := Migrated(s, chains), R + NewIds(chains);
      assert Hop(t, Q, path[0], path[1]);
      MigratedHop(s, R, used, chains, path[0], path[1]);
      assert IsPath(t, Q, path[1..]) by {
        forall k | 0 <= k < |path[1..]| - 1 ensures Hop(t, Q, path[1..][k], path[1..][k + 1]) {
          assert Hop(t, Q, path[k + 1], path[k + 2]);
        }
      }
      OldPath(s, R, used, chains, path[1..]);
      forall k | 0 <= k < |path| - 1 ensures Hop(s, R, path[k], path[k + 1]) {
        assert k > 0 ==> Hop(s, R, path[1..][k - 1], path[1..][k - 1 + 1]);
      }
    }
  }

  lemma MigrationKeepsAcyclic(s: set<Connection>, R: set<int>, used: set<int>, chains: Chains)
    requires Migratable(s, R, used, chains) && Acyclic(s, R)
    ensures Acyclic(Migrated(s, chains), R + NewIds(chains))
  {
    hide Migratable, Migrated, NewIds;
    var t, Q := Migrated(s, chains), R + NewIds(chains);
    forall a ensures !ReachesAgain(t, Q, a, a) {
      if ReachesAgain(t, Q, a, a) {
        var m :| Hop(t, Q, a, m) && Reaches(t, Q, m, a);
        NotBack(s, R, used, chains, a, m);
      }
    }
  }

  /** No hop of the migrated graph starts a way back. */
  lemma NotBack(s: set<Connection>, R: set<int>, used: set<int>, chains: Chains, a: int, m: int)
    requires Migratable(s, R, used, chains) && Acyclic(s, R) && Hop(Migrated(s, chains), R + NewIds(chains), a, m)
    ensures !Reaches(Migrated(s, chains), R + NewIds(chains), m, a)
  {
    hide Migrated, NewIds;
    var t, Q := Migrated(s, chains), R + NewIds(chains);
    MigratedHop(s, R, used, chains, a, m);
    forall path | IsPath(t, Q, path) && path[0] == m ensures path[|path| - 1] != a {
      if a in R && m in R && Hop(s, R, a, m) {
        OldPath(s, R, used, chains, path);
        assert path[|path| - 1] == a ==> Reaches(s, R, m, a);
        assert !ReachesAgain(s, R, a, a);
      } else {
        var c, i: nat :| c in chains && i + 1 < |chains[c]| && a == chains[c][i] && m == chains[c][i + 1];
        var j := ChainPath(s, R, used, chains, c, i + 1, path);
      }
    }
  }
}
