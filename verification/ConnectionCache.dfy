/**
  The connection set of an orchestration with its lazily rebuilt adjacency index
  (`Orchestration::ConnectionCache` of `src/orchestration/orchestration.h`), and the flat list
  of integers it is saved to and loaded from.
 */
module ConnectionCaches {
  import opened Connections

  datatype Option<+T> = None | Some(value: T)

  /**
    The index key of a pin (`ConnectionCache::key`): the node shifted left by 8 in a 32-bit word,
    so its low 24 bits survive, with the pin index in the freed 8 bits.
   */
  function Key(node: int, pinIndex: int): (k: Word32)
    requires 0 <= pinIndex <= 0xFF
  {
    node % 0x100_0000 * 0x100 + pinIndex
  }

  function NodeFromKey(key: Word32): int {
    key / 0x100
  }

  function PinIndexFromKey(key: Word32): int {
    key % 0x100
  }

  /** The pin a key stands for, on the side `dir`. */
  function PinOfKey(key: Word32, dir: Direction): PinRef {
    PinRef(NodeFromKey(key), dir, PinIndexFromKey(key))
  }

  predicate Addressable(p: PinRef) {
    0 <= p.node < NODE_LIMIT && 0 <= p.port < PORT_LIMIT
  }

  function KeyOfPin(p: PinRef): (k: Word32)
    requires Addressable(p)
  {
    Key(p.node, p.port)
  }

  /** Keys and addressable pins of one direction are in bijection. */
  lemma KeyRoundTrip(p: PinRef, k: Word32, dir: Direction)
    requires Addressable(p)
    ensures PinOfKey(KeyOfPin(p), p.dir) == p
    ensures Addressable(PinOfKey(k, dir)) && KeyOfPin(PinOfKey(k, dir)) == k
  {
  }

  /** An adjacency list: the keys of the far ends of the connections at pin `p`. */
  function FarKeys(q: seq<Connection>, p: PinRef): (r: seq<Word32>)
    ensures |r| == |FarEnds(q, p)|
    ensures forall i :: 0 <= i < |r| ==> PinOfKey(r[i], p.dir.Opposite()) == FarEnds(q, p)[i]
  {
    if q == [] then [] else
    var last := q[|q| - 1];
    var far := last.End(p.dir.Opposite());
    FarKeys(q[..|q| - 1], p) + (if last.End(p.dir) == p then [KeyOfPin(far)] else [])
  }

  type Index = map<Word32, seq<Word32>>

  /** Every key of `index` has the list for `q`, and exactly the keys with a connection are present. */
  ghost predicate Indexes(index: Index, q: seq<Connection>, dir: Direction) {
    forall k: Word32 {:trigger k in index} {:trigger index[k]} ::
      && (k in index <==> FarEnds(q, PinOfKey(k, dir)) != [])
      && (k in index ==> index[k] == FarKeys(q, PinOfKey(k, dir)))
  }

  /** `_output_connections[from].push_back(to)`, for either direction. */
  function PushBack(index: Index, key: Word32, value: Word32): Index {
    index[key := (if key in index then index[key] else []) + [value]]
  }

  lemma IndexesStep(index: Index, q: seq<Connection>, c: Connection, dir: Direction)
    requires Indexes(index, q, dir)
    ensures Indexes(PushBack(index, KeyOfPin(c.End(dir)), KeyOfPin(c.End(dir.Opposite()))), q + [c], dir)
  {
    var next := PushBack(index, KeyOfPin(c.End(dir)), KeyOfPin(c.End(dir.Opposite())));
    assert (q + [c])[..|q|] == q;
    forall k: Word32
      ensures k in next <==> FarEnds(q + [c], PinOfKey(k, dir)) != []
      ensures k in next ==> next[k] == FarKeys(q + [c], PinOfKey(k, dir))
    {
      KeyRoundTrip(c.End(dir), k, dir);
      assert k == KeyOfPin(c.End(dir)) <==> c.End(dir) == PinOfKey(k, dir);
    }
  }

  /** The index `_rebuild` makes: one `push_back` per connection. */
  function BuildIndex(q: seq<Connection>, dir: Direction): Index {
    if q == [] then map[] else
    var last := q[|q| - 1];
    PushBack(BuildIndex(q[..|q| - 1], dir), KeyOfPin(last.End(dir)), KeyOfPin(last.End(dir.Opposite())))
  }

  lemma {:induction false} BuildIndexIndexes(q: seq<Connection>, dir: Direction)
    ensures Indexes(BuildIndex(q, dir), q, dir)
  {
    if q != [] {
      BuildIndexIndexes(q[..|q| - 1], dir);
      IndexesStep(BuildIndex(q[..|q| - 1], dir), q[..|q| - 1], q[|q| - 1], dir);
      assert q == q[..|q| - 1] + [q[|q| - 1]];
    }
  }

  /** The loop of `_rebuild`. */
  method IndexBothWays(order: seq<Connection>) returns (inputs: Index, outputs: Index)
    ensures inputs == BuildIndex(order, PD_Input) && outputs == BuildIndex(order, PD_Output)
  {
    inputs, outputs := map[], map[];
    for i := 0 to |order|
      invariant inputs == BuildIndex(order[..i], PD_Input)
      invariant outputs == BuildIndex(order[..i], PD_Output)
    {
      var c := order[i];
      var from := Key(c.fromNode, c.fromPort);
      var to := Key(c.toNode, c.toPort);
      assert order[..i + 1][..i] == order[..i];
      outputs := PushBack(outputs, from, to);
      inputs := PushBack(inputs, to, from);
    }
    assert order[..|order|] == order;
  }

  class ConnectionCache {
    var connections: set<Connection>
    var inputConnections: Index
    var outputConnections: Index
    var dirty: bool

    /** When the dirty flag is down, both indexes describe the current connection set. */
    ghost predicate Valid()
      reads this
    {
      !dirty ==>
        && Indexes(inputConnections, Sorted(connections), PD_Input)
        && Indexes(outputConnections, Sorted(connections), PD_Output)
    }

    constructor ()
      ensures Valid() && connections == {}
    {
      connections := {};
      inputConnections, outputConnections := map[], map[];
      dirty := false;
    }

    method Rebuild()
      requires Valid()
      modifies this`inputConnections, this`outputConnections, this`dirty
      ensures Valid() && !dirty
    {
      if !dirty {
        return;
      }
      inputConnections, outputConnections := IndexBothWays(Sorted(connections));
      BuildIndexIndexes(Sorted(connections), PD_Input);
      BuildIndexIndexes(Sorted(connections), PD_Output);
      dirty := false;
    }

    method Has(c: Connection) returns (r: bool)
      ensures r <==> c in connections
    {
      r := c in connections;
    }

    method Insert(c: Connection)
      modifies this`connections, this`dirty
      ensures Valid() && connections == old(connections) + {c}
    {
      connections := connections + {c};
      dirty := true;
    }

    method Erase(c: Connection)
      modifies this`connections, this`dirty
      ensures Valid() && connections == old(connections) - {c}
    {
      connections := connections - {c};
      dirty := true;
    }

    method Clear()
      modifies this`connections, this`dirty
      ensures Valid() && connections == {}
    {
      connections := {};
      dirty := true;
    }

    /** The sources wired to the input pin `key`, or nothing when no connection targets it. */
    method Inputs(key: Word32) returns (r: Option<seq<Word32>>)
      requires Valid()
      modifies this`inputConnections, this`outputConnections, this`dirty
      ensures Valid()
      ensures r.None? <==> forall c :: c in connections ==> c.End(PD_Input) != PinOfKey(key, PD_Input)
      ensures r.Some? ==> IsAdjacency(connections, PinOfKey(key, PD_Input), r.value)
    {
      Rebuild();
      r := if key in inputConnections then Some(inputConnections[key]) else None;
      AdjacencyOf(connections, PinOfKey(key, PD_Input));
    }

    /** The targets wired to the output pin `key`, or nothing when no connection leaves it. */
    method Outputs(key: Word32) returns (r: Option<seq<Word32>>)
      requires Valid()
      modifies this`inputConnections, this`outputConnections, this`dirty
      ensures Valid()
      ensures r.None? <==> forall c :: c in connections ==> c.End(PD_Output) != PinOfKey(key, PD_Output)
      ensures r.Some? ==> IsAdjacency(connections, PinOfKey(key, PD_Output), r.value)
    {
      Rebuild();
      r := if key in outputConnections then Some(outputConnections[key]) else None;
      AdjacencyOf(connections, PinOfKey(key, PD_Output));
    }
  }

  /**
    What an adjacency list must be: not empty, strictly ordered by port and then node, and holding
    exactly the far ends of the connections at `p`.
   */
  ghost predicate IsAdjacency(s: set<Connection>, p: PinRef, keys: seq<Word32>) {
    && keys != []
    && (forall i, j :: 0 <= i < j < |keys| ==>
          PortThenNode(PinOfKey(keys[i], p.dir.Opposite()), PinOfKey(keys[j], p.dir.Opposite())))
    && (forall x: PinRef :: x in Neighbours(s, p) <==>
       Addressable(x) && x.dir == p.dir.Opposite() && KeyOfPin(x) in keys)
    && |keys| == |Neighbours(s, p)|
    && (forall i :: 0 <= i < |keys| ==> PinOfKey(keys[i], p.dir.Opposite()) == Neighbours(s, p)[i])
  }

  lemma NoNeighbours(s: set<Connection>, p: PinRef)
    ensures Neighbours(s, p) == [] <==> forall c :: c in s ==> c.End(p.dir) != p
  {
    var far := Neighbours(s, p);
    if far != [] {
      assert far[0] in far;
      NeighboursContents(s, p, far[0]);
    }
    if c :| c in s && c.End(p.dir) == p {
      NeighboursContents(s, p, c.End(p.dir.Opposite()));
      assert Joins(c, p, c.End(p.dir.Opposite()));
    }
  }

  lemma NeighbourByKey(s: set<Connection>, p: PinRef, x: PinRef)
    ensures x in Neighbours(s, p) <==>
            Addressable(x) && x.dir == p.dir.Opposite() && KeyOfPin(x) in FarKeys(Sorted(s), p)
  {
    var far, keys := Neighbours(s, p), FarKeys(Sorted(s), p);
    NeighboursContents(s, p, x);
    if x in far {
      var i :| 0 <= i < |far| && far[i] == x;
      KeyRoundTrip(x, keys[i], x.dir);
    }
    if Addressable(x) && x.dir == p.dir.Opposite() && KeyOfPin(x) in keys {
      KeyRoundTrip(x, KeyOfPin(x), x.dir);
      var i :| 0 <= i < |keys| && keys[i] == KeyOfPin(x);
      assert far[i] == x;
    }
  }

  lemma AdjacencyOf(s: set<Connection>, p: PinRef)
    ensures Neighbours(s, p) == [] <==> forall c :: c in s ==> c.End(p.dir) != p
    ensures Neighbours(s, p) != [] ==> IsAdjacency(s, p, FarKeys(Sorted(s), p))
  {
    NoNeighbours(s, p);
    NeighboursOrdered(s, p);
    forall x: PinRef {
      NeighbourByKey(s, p, x);
    }
  }
}
