/**
  Saving and loading the connection set as a flat list of integers, four per connection
  (`_get_connections_internal` and `_set_connections_internal` of `src/orchestration/orchestration.cpp`).
 */
module Persistence {
  import opened Connections
  import opened ConnectionCaches

  /** Four integers per connection, in the order of `q`. */
  function Flatten(q: seq<Connection>): (r: seq<int>)
    ensures |r| == 4 * |q|
  {
    if q == [] then [] else
    var c := q[|q| - 1];
    Flatten(q[..|q| - 1]) + [c.fromNode, c.fromPort, c.toNode, c.toPort]
  }

  /** The i-th quadruple of a saved list, cut to the field widths. */
  function Quadruple(list: seq<int>, i: nat): Connection
    requires 4 * i + 3 < |list|
  {
    Pack(list[4 * i], list[4 * i + 1], list[4 * i + 2], list[4 * i + 3])
  }

  /** The connections a saved list stands for: its complete quadruples. */
  function Loaded(list: seq<int>): set<Connection> {
    set i: nat | i < |list| / 4 :: Quadruple(list, i)
  }

  method Save(cache: ConnectionCache) returns (list: seq<int>)
    requires cache.Valid()
    ensures list == Flatten(Sorted(cache.connections))
  {
    list := [];
    var order := Sorted(cache.connections);
    for i := 0 to |order|
      invariant list == Flatten(order[..i])
    {
      assert order[..i + 1][..i] == order[..i];
      list := list + [order[i].fromNode, order[i].fromPort, order[i].toNode, order[i].toPort];
    }
    assert order[..|order|] == order;
  }

  method Load(cache: ConnectionCache, list: seq<int>)
    modifies cache
    ensures cache.Valid() && cache.connections == Loaded(list)
  {
    cache.Clear();
    var i := 0;
    while i + 3 < |list|
      invariant i % 4 == 0 && i <= |list|
      invariant cache.Valid()
      invariant cache.connections == set k: nat | k < i / 4 && k < |list| / 4 :: Quadruple(list, k)
    {
      ghost var before := cache.connections;
      ghost var n := i / 4;
      cache.Insert(Pack(list[i], list[i + 1], list[i + 2], list[i + 3]));
      assert cache.connections == before + {Quadruple(list, n)};
      i := i + 4;
      assert i / 4 == n + 1;
    }
  }

  lemma {:induction false} FlattenAt(q: seq<Connection>, i: nat)
    requires i < |q|
    ensures Quadruple(Flatten(q), i) == q[i]
    ensures Flatten(q)[4 * i] == q[i].fromNode && Flatten(q)[4 * i + 1] == q[i].fromPort
    ensures Flatten(q)[4 * i + 2] == q[i].toNode && Flatten(q)[4 * i + 3] == q[i].toPort
  {
    var init := q[..|q| - 1];
    if i < |init| {
      FlattenAt(init, i);
      assert Flatten(q)[..4 * |init|] == Flatten(init);
    }
  }

  /** Loading what was saved restores the set. */
  lemma SaveThenLoad(s: set<Connection>)
    ensures Loaded(Flatten(Sorted(s))) == s
  {
    var q := Sorted(s);
    forall i: nat | i < |q| ensures Quadruple(Flatten(q), i) == q[i] {
      FlattenAt(q, i);
    }
    forall c ensures c in s <==> c in Loaded(Flatten(q)) {
      if c in s {
        var i :| 0 <= i < |q| && q[i] == c;
        assert Quadruple(Flatten(q), i) == c;
      }
    }
  }

  /** A list is canonical when it is complete, in range, ascending and free of duplicates. */
  ghost predicate Canonical(list: seq<int>) {
    && |list| % 4 == 0
    && (forall i: nat :: i < |list| / 4 ==>
          && 0 <= list[4 * i] < NODE_LIMIT && 0 <= list[4 * i + 1] < PORT_LIMIT
          && 0 <= list[4 * i + 2] < NODE_LIMIT && 0 <= list[4 * i + 3] < PORT_LIMIT)
    && (forall i: nat, j: nat :: i < j < |list| / 4 ==> Quadruple(list, i).Id() < Quadruple(list, j).Id())
  }

  lemma {:induction false} SavedIsCanonical(s: set<Connection>)
    ensures Canonical(Flatten(Sorted(s)))
  {
    var q := Sorted(s);
    var list := Flatten(q);
    assert |list| / 4 == |q| && |list| % 4 == 0;
    forall i: nat | i < |q|
      ensures 0 <= list[4 * i] < NODE_LIMIT && 0 <= list[4 * i + 1] < PORT_LIMIT
      ensures 0 <= list[4 * i + 2] < NODE_LIMIT && 0 <= list[4 * i + 3] < PORT_LIMIT
    {
      FlattenAt(q, i);
    }
    forall i: nat, j: nat | i < j < |q|
      ensures Quadruple(list, i).Id() < Quadruple(list, j).Id()
    {
      FlattenAt(q, i);
      FlattenAt(q, j);
    }
  }

  lemma FittingQuadruple(list: seq<int>, i: nat)
    requires Canonical(list) && i < |list| / 4
    ensures Quadruple(list, i).fromNode == list[4 * i] && Quadruple(list, i).fromPort == list[4 * i + 1]
    ensures Quadruple(list, i).toNode == list[4 * i + 2] && Quadruple(list, i).toPort == list[4 * i + 3]
  {
  }

  lemma FlattenQuadruples(list: seq<int>, q: seq<Connection>)
    requires Canonical(list) && |q| == |list| / 4
    requires forall i: nat :: i < |q| ==> q[i] == Quadruple(list, i)
    ensures Flatten(q) == list
  {
    forall k | 0 <= k < |list| ensures Flatten(q)[k] == list[k] {
      var i := k / 4;
      FlattenAt(q, i);
      FittingQuadruple(list, i);
      assert k == 4 * i || k == 4 * i + 1 || k == 4 * i + 2 || k == 4 * i + 3;
    }
  }

  /** The quadruples of a canonical list, in list order, are the loaded set in walking order. */
  lemma CanonicalOrder(list: seq<int>, q: seq<Connection>)
    requires Canonical(list) && |q| == |list| / 4
    requires forall i: nat :: i < |q| ==> q[i] == Quadruple(list, i)
    ensures Sorted(Loaded(list)) == q
  {
    forall c ensures c in q <==> c in Sorted(Loaded(list)) {
      if c in q {
        var i :| 0 <= i < |q| && q[i] == c;
        assert Quadruple(list, i) in Loaded(list);
      }
      if c in Loaded(list) {
        var i: nat :| i < |list| / 4 && Quadruple(list, i) == c;
        assert q[i] == c;
      }
    }
    AscendingUnique(q, Sorted(Loaded(list)));
  }

  /**
    Loading a list and saving it again gives the canonical list of its complete quadruples: it changes
    nothing exactly when the list is canonical already.  A ragged tail, a duplicate, a wrong order or
    a field that does not fit is what a save repairs.
   */
  lemma LoadThenSave(list: seq<int>)
    ensures Canonical(Flatten(Sorted(Loaded(list))))
    ensures Loaded(Flatten(Sorted(Loaded(list)))) == Loaded(list)
    ensures Flatten(Sorted(Loaded(list))) == list <==> Canonical(list)
  {
    SavedIsCanonical(Loaded(list));
    SaveThenLoad(Loaded(list));
    if Canonical(list) {
      var q := seq(|list| / 4, i requires 0 <= i < |list| / 4 => Quadruple(list, i));
      CanonicalOrder(list, q);
      FlattenQuadruples(list, q);
    }
  }
}
