/**
  Connections between pins, as `src/orchestration/connection.h` packs them, and the order in which
  the connection set is walked.

  A connection is a 64-bit word with four bit-fields, low-order field first: 24 bits of source node,
  8 bits of source port, 24 bits of target node, 8 bits of target port.  The set of connections is
  ordered by that word.
 */
module Connections {
  const NODE_LIMIT := 0x100_0000
  const PORT_LIMIT := 0x100

  type NodeBits = x: int | 0 <= x < 0x100_0000
  type PortBits = x: int | 0 <= x < 0x100
  type Word32 = x: int | 0 <= x < 0x1_0000_0000
  type Word64 = x: int | 0 <= x < 0x1_0000_0000_0000_0000

  datatype Direction = PD_Input | PD_Output {
    function Opposite(): Direction {
      if this == PD_Input then PD_Output else PD_Input
    }
  }

  /** A pin by position: entry `port` of the pin vector that `node` keeps for `dir`. */
  datatype PinRef = PinRef(node: int, dir: Direction, port: int)

  datatype Connection = Connection(fromNode: NodeBits, fromPort: PortBits, toNode: NodeBits, toPort: PortBits) {
    /** The 64-bit word the four fields share: the source node in its low bits, the target port in its high bits. */
    function Id(): Word64 {
      ((toPort * 0x100_0000 + toNode) * 0x100 + fromPort) * 0x100_0000 + fromNode
    }

    predicate IsLinkedTo(id: int) {
      fromNode == id || toNode == id
    }

    /** The pin at the output end (`PD_Output`) or the input end (`PD_Input`). */
    function End(dir: Direction): PinRef {
      if dir == PD_Output then PinRef(fromNode, PD_Output, fromPort) else PinRef(toNode, PD_Input, toPort)
    }
  }

  /** Filling the bit-fields from machine integers keeps the low 24 or 8 bits of each. */
  function Pack(source: int, sourcePort: int, target: int, targetPort: int): Connection {
    Connection(source % NODE_LIMIT, sourcePort % PORT_LIMIT, target % NODE_LIMIT, targetPort % PORT_LIMIT)
  }

  /** The connection stored under a word, as used for the keys of the knot table. */
  function FromId(id: Word64): Connection {
    var high := id / 0x100_0000;
    var higher := high / 0x100;
    Connection(id % 0x100_0000, high % 0x100, higher % 0x100_0000, higher / 0x100_0000)
  }

  /** The fields determine the word and the word determines the fields. */
  lemma IdRoundTrip(c: Connection, w: Word64)
    ensures FromId(c.Id()) == c
    ensures FromId(w).Id() == w
  {
    var high := c.toPort * 0x100_0000 + c.toNode;
    var middle := high * 0x100 + c.fromPort;
    assert (middle * 0x100_0000 + c.fromNode) / 0x100_0000 == middle;
    assert middle / 0x100 == high;
    assert high / 0x100_0000 == c.toPort;
  }

  /** The order of the packed words is lexicographic: target port, target node, source port, source node. */
  lemma OrderIsLexicographic(c: Connection, d: Connection)
    ensures c.Id() < d.Id() <==>
            || c.toPort < d.toPort
            || (c.toPort == d.toPort && c.toNode < d.toNode)
            || (c.toPort == d.toPort && c.toNode == d.toNode && c.fromPort < d.fromPort)
            || (c.toPort == d.toPort && c.toNode == d.toNode && c.fromPort == d.fromPort && c.fromNode < d.fromNode)
  {
  }

  lemma IdInjective(c: Connection, d: Connection)
    ensures c.Id() == d.Id() ==> c == d
  {
    hide *;
    IdRoundTrip(c, 0);
    IdRoundTrip(d, 0);
  }

  ghost predicate Ascending(q: seq<Connection>) {
    forall i, j :: 0 <= i < j < |q| ==> q[i].Id() < q[j].Id()
  }

  lemma LeastExists(s: set<Connection>) returns (c: Connection)
    requires s != {}
    ensures c in s && forall d :: d in s ==> c.Id() <= d.Id()
  {
    c :| c in s;
    if s != {c} {
      var d := LeastExists(s - {c});
      if d.Id() <= c.Id() {
        c := d;
      }
    }
  }

  function Least(s: set<Connection>): (c: Connection)
    requires s != {}
    ensures c in s && forall d :: d in s ==> c.Id() <= d.Id()
  {
    assert exists c :: c in s && forall d :: d in s ==> c.Id() <= d.Id() by {
      var c := LeastExists(s);
    }
    assert forall c, d :: c in s && d in s && c.Id() == d.Id() ==> c == d by {
      forall c, d | c in s && d in s && c.Id() == d.Id() ensures c == d {
        IdInjective(c, d);
      }
    }
    var c :| c in s && forall d :: d in s ==> c.Id() <= d.Id();
    c
  }

  /** The order in which the ordered set visits its members. */
  function Sorted(s: set<Connection>): (q: seq<Connection>)
    ensures forall c :: c in q <==> c in s
    ensures Ascending(q)
  {
    if s == {} then [] else
    var c := Least(s);
    var rest := Sorted(s - {c});
    assert forall d :: d in rest ==> c.Id() < d.Id() by {
      forall d | d in rest ensures c.Id() < d.Id() {
        IdInjective(c, d);
      }
    }
    [c] + rest
  }

  /** An ascending sequence is determined by its members. */
  lemma {:induction false} AscendingUnique(q: seq<Connection>, r: seq<Connection>)
    requires Ascending(q) && Ascending(r)
    requires forall c :: c in q <==> c in r
    ensures q == r
  {
    assert |r| > 0 ==> r[0] in r;
    if q != [] {
      assert q[0] in r && r[0] in q;
      assert q[0] == r[0];
      forall c ensures c in q[1..] <==> c in r[1..] {
        if c in q[1..] {
          assert c in r && c != r[0];
        }
        if c in r[1..] {
          assert c in q && c != q[0];
        }
      }
      AscendingUnique(q[1..], r[1..]);
    }
  }

  /** The far ends of the connections at pin `p`, in the order of `q`. */
  function FarEnds(q: seq<Connection>, p: PinRef): seq<PinRef> {
    if q == [] then [] else
    var last := q[|q| - 1];
    FarEnds(q[..|q| - 1], p) + (if last.End(p.dir) == p then [last.End(p.dir.Opposite())] else [])
  }

  /** The pins wired to `p` by the connection set `s`, in the order the set is walked. */
  function Neighbours(s: set<Connection>, p: PinRef): seq<PinRef> {
    FarEnds(Sorted(s), p)
  }

  /** Whether `c` joins `p` to `q`, one of them an output and the other an input. */
  predicate Joins(c: Connection, p: PinRef, q: PinRef) {
    p.dir != q.dir && c.End(p.dir) == p && c.End(q.dir) == q
  }

  lemma {:induction false} FarEndsContents(q: seq<Connection>, p: PinRef, x: PinRef)
    ensures x in FarEnds(q, p) <==> exists c :: c in q && Joins(c, p, x)
  {
    if q != [] {
      var init, last := q[..|q| - 1], q[|q| - 1];
      assert q == init + [last];
      FarEndsContents(init, p, x);
      if x in FarEnds(q, p) {
        if x in FarEnds(init, p) {
          var c :| c in init && Joins(c, p, x);
          assert c in q;
        } else {
          assert last in q && Joins(last, p, x);
        }
      }
      if c :| c in q && Joins(c, p, x) {
        assert c in init || c == last;
      }
    }
  }

  /** `x` is a neighbour of `p` exactly when some connection joins them: a symmetric relation. */
  lemma NeighboursContents(s: set<Connection>, p: PinRef, x: PinRef)
    ensures x in Neighbours(s, p) <==> exists c :: c in s && Joins(c, p, x)
    ensures x in Neighbours(s, p) <==> p in Neighbours(s, x)
  {
    FarEndsContents(Sorted(s), p, x);
    FarEndsContents(Sorted(s), x, p);
    if c :| c in s && Joins(c, p, x) {
      assert c in Sorted(s) && Joins(c, x, p);
    }
    if c :| c in s && Joins(c, x, p) {
      assert c in Sorted(s) && Joins(c, p, x);
    }
  }

  /** Port first, then node: the order of the adjacency lists. */
  predicate PortThenNode(x: PinRef, y: PinRef) {
    x.port < y.port || (x.port == y.port && x.node < y.node)
  }

  ghost predicate StrictlyOrdered(r: seq<PinRef>) {
    forall i, j :: 0 <= i < j < |r| ==> PortThenNode(r[i], r[j])
  }

  lemma {:induction false} FarEndsOrdered(q: seq<Connection>, p: PinRef)
    requires Ascending(q)
    ensures StrictlyOrdered(FarEnds(q, p))
  {
    if q != [] {
      var init, last := q[..|q| - 1], q[|q| - 1];
      FarEndsOrdered(init, p);
      if last.End(p.dir) == p {
        forall x | x in FarEnds(init, p)
          ensures PortThenNode(x, last.End(p.dir.Opposite()))
        {
          FarEndsContents(init, p, x);
          var c :| c in init && Joins(c, p, x);
          OrderIsLexicographic(c, last);
        }
      }
    }
  }

  lemma NeighboursOrdered(s: set<Connection>, p: PinRef)
    ensures StrictlyOrdered(Neighbours(s, p))
  {
    FarEndsOrdered(Sorted(s), p);
  }
}
