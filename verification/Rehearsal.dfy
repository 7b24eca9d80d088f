/**
  Which wires of a graph a duplication will link, read off the wires there are before it.

  The guard that refuses a link looks at reroutes only, and the copies reach old reroutes only through node 0.
  So linking the wires of the graph on its own, with its ids moved up by one and 0 for everything outside,
  comes out the same as linking them between the copies.
 */
module Rehearsal {
  import opened Connections
  import opened ConnectionCaches
  import opened Reroutes
  import D = Duplication

  /** The ids of the graph moved up by one. */
  function MovedUp(nodes: set<int>): D.IdMap {
    map id | id in nodes :: id + 1
  }

  function MovedReroutes(R: set<int>, nodes: set<int>): set<int> {
    (set id | id in nodes && id in R :: id + 1) + (if 0 in R then {0} else {})
  }

  /** The last loop of the duplication, on the graph alone. */
  ghost function Rehearsed(s: set<Connection>, R: set<int>, nodes: set<int>): set<Connection> {
    D.Relink({}, MovedReroutes(R, nodes), MovedUp(nodes), Sorted(D.Touching(s, nodes)))
  }

  ghost predicate WillLink(s: set<Connection>, R: set<int>, nodes: set<int>, c: Connection) {
    D.Image(MovedUp(nodes), c) in Rehearsed(s, R, nodes)
  }

  // ----- The two sides -----

  /** The copy that stands for an id of the rehearsal, and back: every old node is outside. */
  function ToCopy(m: D.IdMap, k: int): int {
    D.Lookup(m, k - 1)
  }

  ghost function FromCopy(m: D.IdMap, n: int): int {
    if a :| a in m && m[a] == n then a + 1 else 0
  }

  /** What makes the table and the rehearsal comparable. */
  ghost predicate Ready(s: set<Connection>, R: set<int>, used: set<int>, m: D.IdMap) {
    D.Copying(s, R, used, m) && forall n :: n in used ==> 0 <= n && n + 1 < NODE_LIMIT
  }

  lemma NamesAlike(s: set<Connection>, R: set<int>, used: set<int>, m: D.IdMap, x: int)
    requires Ready(s, R, used, m)
    ensures var k, n := D.Lookup(MovedUp(m.Keys), x), D.Lookup(m, x);
            && ToCopy(m, k) == n && FromCopy(m, n) == k
            && 0 <= k < NODE_LIMIT && 0 <= n < NODE_LIMIT
            && (k in MovedReroutes(R, m.Keys) <==> n in R)
            && (x in m ==> n !in used)
  {
    if x in m {
      var a :| a in m && m[a] == m[x];
      assert a == x;
    }
    assert -1 !in m;
  }

  lemma ImageEnds(s: set<Connection>, R: set<int>, used: set<int>, m: D.IdMap, c: Connection)
    requires Ready(s, R, used, m)
    ensures var i, j := D.Image(m, c), D.Image(MovedUp(m.Keys), c);
            && i.fromNode == D.Lookup(m, c.fromNode) && i.toNode == D.Lookup(m, c.toNode)
            && j.fromNode == D.Lookup(MovedUp(m.Keys), c.fromNode) && j.toNode == D.Lookup(MovedUp(m.Keys), c.toNode)
            && i.fromPort == j.fromPort == c.fromPort && i.toPort == j.toPort == c.toPort
  {
    NamesAlike(s, R, used, m, c.fromNode);
    NamesAlike(s, R, used, m, c.toNode);
    hide ToCopy, FromCopy, D.Lookup, MovedUp;
  }

  /** Two wires have the same image on one side exactly when they have on the other. */
  lemma SameImages(s: set<Connection>, R: set<int>, used: set<int>, m: D.IdMap, c: Connection, d: Connection)
    requires Ready(s, R, used, m)
    ensures D.Image(m, c) == D.Image(m, d) <==> D.Image(MovedUp(m.Keys), c) == D.Image(MovedUp(m.Keys), d)
  {
    ImageEnds(s, R, used, m, c);
    ImageEnds(s, R, used, m, d);
    NamesAlike(s, R, used, m, c.fromNode);
    NamesAlike(s, R, used, m, c.toNode);
    NamesAlike(s, R, used, m, d.fromNode);
    NamesAlike(s, R, used, m, d.toNode);
    hide Ready, D.Image, ToCopy, FromCopy, D.Lookup, MovedUp, MovedReroutes;
  }

  /** The same wires have been linked on both sides. */
  ghost predicate Alike(s: set<Connection>, m: D.IdMap, w: set<Connection>, r: set<Connection>, r0: set<Connection>) {
    && s <= r
    && (forall e :: e in r && e !in s ==> exists c :: c in w && e == D.Image(m, c))
    && (forall e :: e in r0 ==> exists c :: c in w && e == D.Image(MovedUp(m.Keys), c))
    && (forall c :: c in w ==> (D.Image(m, c) in r <==> D.Image(MovedUp(m.Keys), c) in r0))
  }

  /** A hop of the rehearsal is a hop between the copies. */
  lemma HopThere(s: set<Connection>, R: set<int>, used: set<int>, m: D.IdMap, w: set<Connection>,
                 r: set<Connection>, r0: set<Connection>, x: int, y: int)
    requires Ready(s, R, used, m) && Alike(s, m, w, r, r0) && Hop(r0, MovedReroutes(R, m.Keys), x, y)
    ensures Hop(r, R, ToCopy(m, x), ToCopy(m, y))
  {
    var e :| e in r0 && e.fromNode == x && e.toNode == y;
    var c :| c in w && e == D.Image(MovedUp(m.Keys), c);
    ImageEnds(s, R, used, m, c);
    NamesAlike(s, R, used, m, c.fromNode);
    NamesAlike(s, R, used, m, c.toNode);
    hide Ready, D.Image, ToCopy, FromCopy, D.Lookup, MovedUp, MovedReroutes;
    assert D.Image(m, c) in r;
  }

  /** And back; a hop between old nodes stays outside. */
  lemma HopBack(s: set<Connection>, R: set<int>, used: set<int>, m: D.IdMap, w: set<Connection>,
                r: set<Connection>, r0: set<Connection>, x: int, y: int)
    requires Ready(s, R, used, m) && Alike(s, m, w, r, r0) && Hop(r, R, x, y)
    ensures FromCopy(m, x) == FromCopy(m, y) || Hop(r0, MovedReroutes(R, m.Keys), FromCopy(m, x), FromCopy(m, y))
  {
    var e :| e in r && e.fromNode == x && e.toNode == y;
    if e in s {
      assert e.fromNode in used && e.toNode in used;
    } else {
      var c :| c in w && e == D.Image(m, c);
      ImageEnds(s, R, used, m, c);
      NamesAlike(s, R, used, m, c.fromNode);
      NamesAlike(s, R, used, m, c.toNode);
      hide Ready, D.Image, ToCopy, FromCopy, D.Lookup, MovedUp, MovedReroutes;
      assert D.Image(MovedUp(m.Keys), c) in r0;
    }
  }

  /** So the guard answers alike. */
  lemma SameGuard(s: set<Connection>, R: set<int>, used: set<int>, m: D.IdMap, w: set<Connection>,
                  r: set<Connection>, r0: set<Connection>, x: int, y: int)
    requires Ready(s, R, used, m) && Alike(s, m, w, r, r0) && D.Lookup(m, x) in R && D.Lookup(m, y) in R
    ensures Reaches(r, R, D.Lookup(m, x), D.Lookup(m, y)) <==>
            Reaches(r0, MovedReroutes(R, m.Keys), D.Lookup(MovedUp(m.Keys), x), D.Lookup(MovedUp(m.Keys), y))
  {
    var Q := MovedReroutes(R, m.Keys);
    var a, b, k, l := D.Lookup(m, x), D.Lookup(m, y), D.Lookup(MovedUp(m.Keys), x), D.Lookup(MovedUp(m.Keys), y);
    NamesAlike(s, R, used, m, x);
    NamesAlike(s, R, used, m, y);
    hide Ready, D.Lookup, MovedUp, MovedReroutes, Alike, Reaches, Hop, ToCopy, FromCopy;
    if Reaches(r, R, a, b) {
      var h := (n: int) => FromCopy(m, n);
      forall u, v | Hop(r, R, u, v) ensures h(u) == h(v) || Hop(r0, Q, h(u), h(v)) {
        HopBack(s, R, used, m, w, r, r0, u, v);
      }
      ReachesAlong(r, R, r0, Q, h, a, b);
    }
    if Reaches(r0, Q, k, l) {
      var h := (n: int) => ToCopy(m, n);
      forall u, v | Hop(r0, Q, u, v) ensures h(u) == h(v) || Hop(r, R, h(u), h(v)) {
        HopThere(s, R, used, m, w, r, r0, u, v);
      }
      ReachesAlong(r0, Q, r, R, h, k, l);
    }
  }

  // ----- The loop -----

  lemma NothingLinked(s: set<Connection>, R: set<int>, used: set<int>, m: D.IdMap, w: set<Connection>)
    requires Ready(s, R, used, m) && forall c :: c in w ==> c.fromNode in m || c.toNode in m
    ensures Alike(s, m, w, s, {})
  {
    forall c | c in w ensures D.Image(m, c) !in s {
      ImageEnds(s, R, used, m, c);
      NamesAlike(s, R, used, m, c.fromNode);
      NamesAlike(s, R, used, m, c.toNode);
    }
  }

  lemma OneLinked(s: set<Connection>, R: set<int>, used: set<int>, m: D.IdMap, w: set<Connection>,
                  r: set<Connection>, r0: set<Connection>, d: Connection)
    requires Ready(s, R, used, m) && Alike(s, m, w, r, r0) && d in w
    ensures Alike(s, m, w, r + {D.Image(m, d)}, r0 + {D.Image(MovedUp(m.Keys), d)})
  {
    forall c | c in w
      ensures D.Image(m, c) in r + {D.Image(m, d)} <==>
              D.Image(MovedUp(m.Keys), c) in r0 + {D.Image(MovedUp(m.Keys), d)}
    {
      SameImages(s, R, used, m, c, d);
    }
    hide D.Image, MovedUp, Ready;
  }

  lemma {:induction false} LinkedAlike(
      s: set<Connection>, R: set<int>, used: set<int>, m: D.IdMap, w: set<Connection>, q: seq<Connection>)
    requires Ready(s, R, used, m) && forall c :: c in w ==> c.fromNode in m || c.toNode in m
    requires forall c :: c in q ==> c in w
    ensures Alike(s, m, w, D.Relink(s, R, m, q), D.Relink({}, MovedReroutes(R, m.Keys), MovedUp(m.Keys), q))
  {
    if q == [] {
      NothingLinked(s, R, used, m, w);
    } else {
      var init, d := q[..|q| - 1], q[|q| - 1];
      LinkedAlike(s, R, used, m, w, init);
      LinkedNext(s, R, used, m, w, D.Relink(s, R, m, init),
                 D.Relink({}, MovedReroutes(R, m.Keys), MovedUp(m.Keys), init), d);
      hide Ready, Alike, MovedReroutes, MovedUp, Reaches, D.Image;
    }
  }

  /** One wire more, under the guard of each side. */
  lemma LinkedNext(s: set<Connection>, R: set<int>, used: set<int>, m: D.IdMap, w: set<Connection>,
                   r: set<Connection>, r0: set<Connection>, d: Connection)
    requires Ready(s, R, used, m) && Alike(s, m, w, r, r0) && d in w
    ensures var Q, i, j := MovedReroutes(R, m.Keys), D.Image(m, d), D.Image(MovedUp(m.Keys), d);
            Alike(s, m, w,
                  if (i.fromNode in R && i.toNode in R && Reaches(r, R, i.toNode, i.fromNode)) || i in r
                  then r else r + {i},
                  if (j.fromNode in Q && j.toNode in Q && Reaches(r0, Q, j.toNode, j.fromNode)) || j in r0
                  then r0 else r0 + {j})
  {
    ImageEnds(s, R, used, m, d);
    NamesAlike(s, R, used, m, d.fromNode);
    NamesAlike(s, R, used, m, d.toNode);
    assert D.Image(m, d) in r <==> D.Image(MovedUp(m.Keys), d) in r0;
    hide Ready, Alike, MovedReroutes, MovedUp, Reaches, D.Image, D.Lookup, ToCopy, FromCopy;
    if D.Image(m, d).fromNode in R && D.Image(m, d).toNode in R {
      SameGuard(s, R, used, m, w, r, r0, d.toNode, d.fromNode);
    }
    OneLinked(s, R, used, m, w, r, r0, d);
  }

  /** A wire of the graph is linked between the copies exactly when the rehearsal links it. */
  lemma LinkedAsRehearsed(s: set<Connection>, R: set<int>, used: set<int>, m: D.IdMap, c: Connection)
    requires Ready(s, R, used, m) && c in D.Touching(s, m.Keys)
    ensures D.Image(m, c) in D.Relink(s, R, m, Sorted(D.Touching(s, m.Keys))) <==> WillLink(s, R, m.Keys, c)
  {
    var w := D.Touching(s, m.Keys);
    LinkedAlike(s, R, used, m, w, Sorted(w));
    hide Ready, MovedReroutes, MovedUp, D.Image, D.Relink;
  }

  /** Unless node 0 is a reroute, every wire that leaves the graph is linked. */
  lemma {:induction false} LinksAtZero(R: set<int>, m: D.IdMap, s: set<Connection>, q: seq<Connection>, c: Connection)
    requires 0 !in R && c in q && (D.Image(m, c).fromNode == 0 || D.Image(m, c).toNode == 0)
    ensures D.Image(m, c) in D.Relink(s, R, m, q)
  {
    hide D.Image;
    var init, last := q[..|q| - 1], q[|q| - 1];
    assert q == init + [last];
    if c in init {
      LinksAtZero(R, m, s, init, c);
    }
  }

  lemma LeavingIsLinked(s: set<Connection>, R: set<int>, nodes: set<int>, c: Connection)
    requires 0 !in R && c in D.Touching(s, nodes) && !(c.fromNode in nodes && c.toNode in nodes)
    requires forall n :: n in nodes ==> 0 <= n
    ensures WillLink(s, R, nodes, c)
  {
    var m, Q := MovedUp(nodes), MovedReroutes(R, nodes);
    assert 0 !in Q;
    assert D.Image(m, c).fromNode == 0 || D.Image(m, c).toNode == 0;
    hide D.Image, MovedUp, MovedReroutes;
    LinksAtZero(Q, m, {}, Sorted(D.Touching(s, nodes)), c);
  }
}
