/**
  Shifting ports: `adjust_connections` of `src/orchestration/orchestration.cpp`, and the removal of
  several pins at once by `remove_argument` of `src/orchestration/function.cpp`.
 */
module PortShift {
  import opened Connections
  import opened ConnectionCaches
  import opened Nodes

  // ----- One shift -----

  /** The end of `c` on the side `dir` is at `node`, at port `offset` or beyond. */
  predicate Hit(c: Connection, node: int, offset: int, dir: Direction) {
    c.End(dir).node == node && c.End(dir).port >= offset
  }

  /** `c` with its port on the side `dir` moved, in 8 bits. */
  function Shifted(c: Connection, adjustment: int, dir: Direction): Connection {
    if dir == PD_Input then c.(toPort := (c.toPort + adjustment) % PORT_LIMIT)
    else c.(fromPort := (c.fromPort + adjustment) % PORT_LIMIT)
  }

  function Moved(c: Connection, node: int, offset: int, adjustment: int, dir: Direction): Connection {
    if Hit(c, node, offset, dir) then Shifted(c, adjustment, dir) else c
  }

  function MovedAll(s: set<Connection>, node: int, offset: int, adjustment: int, dir: Direction): set<Connection> {
    set c | c in s :: Moved(c, node, offset, adjustment, dir)
  }

  /** The connections `adjust_connections` takes out on the side `dir`; `which` is nothing for `PD_MAX`. */
  function Taken(s: set<Connection>, node: int, offset: int, which: Option<Direction>,
                 dir: Direction): set<Connection> {
    set c | c in s && which != Some(dir.Opposite()) && Hit(c, node, offset, dir)
  }

  /** The connection set after `adjust_connections`: first everything hit goes, then its shifts come in. */
  function Adjusted(s: set<Connection>, node: int, offset: int, adjustment: int,
                    which: Option<Direction>): set<Connection> {
    var inputs := Taken(s, node, offset, which, PD_Input);
    var outputs := Taken(s, node, offset, which, PD_Output);
    (s - inputs - outputs)
    + (set c | c in inputs :: Shifted(c, adjustment, PD_Input))
    + (set c | c in outputs :: Shifted(c, adjustment, PD_Output))
  }

  /** In one direction the two passes together are the image of the set under the shift. */
  lemma AdjustedIsImage(s: set<Connection>, node: int, offset: int, adjustment: int, dir: Direction)
    ensures Adjusted(s, node, offset, adjustment, Some(dir)) == MovedAll(s, node, offset, adjustment, dir)
  {
    var image := MovedAll(s, node, offset, adjustment, dir);
    var taken := Taken(s, node, offset, Some(dir), dir);
    assert Taken(s, node, offset, Some(dir), dir.Opposite()) == {};
    forall e ensures e in Adjusted(s, node, offset, adjustment, Some(dir)) <==> e in image {
      if e in image {
        var c :| c in s && e == Moved(c, node, offset, adjustment, dir);
        if Hit(c, node, offset, dir) {
          assert c in taken;
        }
      }
      if e in s - taken {
        assert e == Moved(e, node, offset, adjustment, dir);
      }
      if c :| c in taken && e == Shifted(c, adjustment, dir) {
        assert e == Moved(c, node, offset, adjustment, dir);
      }
    }
  }

  lemma ShiftedInjective(c: Connection, d: Connection, adjustment: int, dir: Direction)
    requires Shifted(c, adjustment, dir) == Shifted(d, adjustment, dir)
    ensures c == d
  {
    ModInjective(c.End(dir).port, d.End(dir).port, adjustment);
  }

  lemma ModInjective(a: int, b: int, k: int)
    requires 0 <= a < PORT_LIMIT && 0 <= b < PORT_LIMIT && (a + k) % PORT_LIMIT == (b + k) % PORT_LIMIT
    ensures a == b
  {
    assert (a + k) - (b + k) == PORT_LIMIT * ((a + k) / PORT_LIMIT - (b + k) / PORT_LIMIT);
  }

  lemma {:induction false} InjectiveImageSize<T(!new), U(!new)>(s: set<T>, image: set<U>, f: T -> U)
    requires forall a :: a in s ==> f(a) in image
    requires forall b :: b in image ==> exists a :: a in s && f(a) == b
    requires forall a, b :: a in s && b in s && f(a) == f(b) ==> a == b
    ensures |image| == |s|
  {
    if s == {} {
      assert image == {};
    } else {
      var a :| a in s;
      InjectiveImageSize(s - {a}, image - {f(a)}, f);
    }
  }

  lemma UnionSize<T>(a: set<T>, b: set<T>)
    ensures |a + b| == |a| + |b| <==> a !! b
  {
    assert |a + b| == |a| + |b| - |a * b|;
    assert |a * b| == 0 <==> a * b == {};
    if a * b == {} {
      forall x | x in a ensures x !in b {
        assert x in b ==> x in a * b;
      }
    }
  }

  lemma ShiftedSize(taken: set<Connection>, adjustment: int, dir: Direction)
    ensures |set c | c in taken :: Shifted(c, adjustment, dir)| == |taken|
  {
    var f := (c: Connection) => Shifted(c, adjustment, dir);
    forall c, d | c in taken && d in taken && f(c) == f(d) ensures c == d {
      ShiftedInjective(c, d, adjustment, dir);
    }
    var image := set c | c in taken :: Shifted(c, adjustment, dir);
    forall e | e in image ensures exists c :: c in taken && f(c) == e {
      var c :| c in taken && e == Shifted(c, adjustment, dir);
      assert f(c) == e;
    }
    InjectiveImageSize(taken, image, f);
  }

  /**
    The shift keeps the number of connections exactly when no shifted connection lands on one that
    stays where it is.
   */
  lemma AdjustedConserves(s: set<Connection>, node: int, offset: int, adjustment: int, dir: Direction)
    ensures |Adjusted(s, node, offset, adjustment, Some(dir))| == |s| <==>
            forall c :: c in s && Hit(c, node, offset, dir) && Shifted(c, adjustment, dir) in s ==>
              Hit(Shifted(c, adjustment, dir), node, offset, dir)
  {
    hide Shifted;
    var taken := Taken(s, node, offset, Some(dir), dir);
    var moved := set c | c in taken :: Shifted(c, adjustment, dir);
    AdjustedParts(s, node, offset, adjustment, dir);
    ShiftedSize(taken, adjustment, dir);
    UnionSize(s - taken, moved);
    TakenIs(s, node, offset, dir);
    hide Adjusted, Taken, Hit;
    assert |s - taken| == |s| - |taken|;
    assert (s - taken) !! moved <==>
      forall c :: c in taken && Shifted(c, adjustment, dir) in s ==> Shifted(c, adjustment, dir) in taken;
  }

  lemma TakenIs(s: set<Connection>, node: int, offset: int, dir: Direction)
    ensures Taken(s, node, offset, Some(dir), dir) <= s
    ensures forall c :: c in Taken(s, node, offset, Some(dir), dir) <==> c in s && Hit(c, node, offset, dir)
  {
  }

  lemma AdjustedParts(s: set<Connection>, node: int, offset: int, adjustment: int, dir: Direction)
    ensures var taken := Taken(s, node, offset, Some(dir), dir);
            Adjusted(s, node, offset, adjustment, Some(dir)) == (s - taken) + set c | c in taken ::
              Shifted(c, adjustment, dir)
  {
    hide Shifted, Hit;
    assert Taken(s, node, offset, Some(dir), dir.Opposite()) == {};
  }

  /**
    Without a direction (`PD_MAX`) a wire from a node to itself is entered once for each end, each time
    with only that end moved: such a wire comes out whole exactly when the shift is no shift at all.
   */
  lemma AdjustedSelfLoop(c: Connection, node: int, offset: int, adjustment: int)
    requires Hit(c, node, offset, PD_Input) && Hit(c, node, offset, PD_Output)
    ensures Adjusted({c}, node, offset, adjustment, None)
            == {Shifted(c, adjustment, PD_Input), Shifted(c, adjustment, PD_Output)}
    ensures (Adjusted({c}, node, offset, adjustment, None)
             == {Shifted(Shifted(c, adjustment, PD_Input), adjustment, PD_Output)}) <==> adjustment % PORT_LIMIT == 0
  {
    var i, o := Shifted(c, adjustment, PD_Input), Shifted(c, adjustment, PD_Output);
    var both := Shifted(i, adjustment, PD_Output);
    ShiftedTwice(c, adjustment);
    hide Shifted;
    assert Taken({c}, node, offset, None, PD_Input) == {c} == Taken({c}, node, offset, None, PD_Output);
    assert Adjusted({c}, node, offset, adjustment, None) == {i, o};
    hide Adjusted, Taken, Hit;
    assert i in {i, o} && o in {i, o};
  }

  lemma ShiftedTwice(c: Connection, adjustment: int)
    ensures var i, o := Shifted(c, adjustment, PD_Input), Shifted(c, adjustment, PD_Output);
            (i == o == Shifted(i, adjustment, PD_Output)) <==> adjustment % PORT_LIMIT == 0
  {
    var from, to := (c.fromPort + adjustment) % PORT_LIMIT, (c.toPort + adjustment) % PORT_LIMIT;
    assert Shifted(c, adjustment, PD_Input) == c.(toPort := to)
           && Shifted(c, adjustment, PD_Output) == c.(fromPort := from);
    assert Shifted(c.(toPort := to), adjustment, PD_Output) == c.(fromPort := from, toPort := to);
    hide Shifted;
    ShiftByNothing(c.fromPort, adjustment);
    ShiftByNothing(c.toPort, adjustment);
  }

  lemma ShiftByNothing(port: int, adjustment: int)
    requires 0 <= port < PORT_LIMIT
    ensures (port + adjustment) % PORT_LIMIT == port <==> adjustment % PORT_LIMIT == 0
  {
    var r, q := adjustment % PORT_LIMIT, adjustment / PORT_LIMIT;
    assert port + adjustment == PORT_LIMIT * q + (port + r);
    if port + r < PORT_LIMIT {
      assert (port + adjustment) % PORT_LIMIT == port + r;
    } else {
      assert (port + adjustment) % PORT_LIMIT == port + r - PORT_LIMIT;
    }
  }

  /** A wire with each end that is hit moved. */
  function MovedBoth(c: Connection, node: int, offset: int, adjustment: int): Connection {
    Moved(Moved(c, node, offset, adjustment, PD_Input), node, offset, adjustment, PD_Output)
  }

  predicate HitTwice(c: Connection, node: int, offset: int) {
    Hit(c, node, offset, PD_Input) && Hit(c, node, offset, PD_Output)
  }

  lemma MovedOnce(c: Connection, node: int, offset: int, adjustment: int)
    requires !HitTwice(c, node, offset)
    ensures MovedBoth(c, node, offset, adjustment) ==
            if Hit(c, node, offset, PD_Input) then Shifted(c, adjustment, PD_Input)
            else if Hit(c, node, offset, PD_Output) then Shifted(c, adjustment, PD_Output) else c
  {
  }

  /** Wires that are not hit at both ends come through a shift of both sides as they should. */
  lemma AdjustedApart(s: set<Connection>, node: int, offset: int, adjustment: int)
    requires forall c :: c in s ==> !HitTwice(c, node, offset)
    ensures Adjusted(s, node, offset, adjustment, None) == set c | c in s :: MovedBoth(c, node, offset, adjustment)
  {
    var image := set c | c in s :: MovedBoth(c, node, offset, adjustment);
    var result := Adjusted(s, node, offset, adjustment, None);
    hide Moved, Shifted;
    forall c | c in s ensures MovedBoth(c, node, offset, adjustment) in result {
      MovedOnce(c, node, offset, adjustment);
      if Hit(c, node, offset, PD_Input) {
        assert c in Taken(s, node, offset, None, PD_Input);
      } else if Hit(c, node, offset, PD_Output) {
        assert c in Taken(s, node, offset, None, PD_Output);
      }
    }
    forall e | e in result ensures e in image {
      var c := if e in s && !Hit(e, node, offset, PD_Input) && !Hit(e, node, offset, PD_Output) then e
               else if d :| d in Taken(s, node, offset, None, PD_Input) && e == Shifted(d, adjustment, PD_Input) then d
               else var d :| d in Taken(s, node, offset, None, PD_Output) && e == Shifted(d, adjustment, PD_Output); d;
      MovedOnce(c, node, offset, adjustment);
      assert MovedBoth(c, node, offset, adjustment) in image;
    }
  }

  /** The pins at a port are gone from both sides. */
  predicate Freed(s: set<Connection>, node: int, port: int) {
    forall c :: c in s ==>
      c.End(PD_Input) != PinRef(node, PD_Input, port) && c.End(PD_Output) != PinRef(node, PD_Output, port)
  }

  lemma OnlyFromBehind(c: Connection, d: Connection, node: int, freed: nat, offset: int)
    requires freed <= offset <= freed + 1 && HitTwice(c, node, offset)
    requires c.fromPort != freed && c.toPort != freed
    requires d.End(PD_Input) != PinRef(node, PD_Input, freed) && d.End(PD_Output) != PinRef(node, PD_Output, freed)
    requires Shifted(c, -1, PD_Input) == MovedBoth(d, node, offset, -1)
    ensures HitTwice(d, node, offset) && d.fromPort == c.fromPort + 1
  {
    if !HitTwice(d, node, offset) {
      MovedOnce(d, node, offset, -1);
    }
  }

  /** A wire hit twice leaves its output end behind, and only such a wire from one port further on can end there. */
  lemma LeftBehind(s: set<Connection>, node: int, freed: nat, offset: int, c: Connection) returns (d: Connection)
    requires Freed(s, node, freed) && freed <= offset <= freed + 1 && c in s && HitTwice(c, node, offset)
    requires Adjusted(s, node, offset, -1, None) == set d | d in s :: MovedBoth(d, node, offset, -1)
    ensures d in s && HitTwice(d, node, offset) && d.fromPort == c.fromPort + 1
  {
    var e := Shifted(c, -1, PD_Input);
    assert c.fromPort != freed && c.toPort != freed;
    assert c in Taken(s, node, offset, None, PD_Input);
    hide MovedBoth, HitTwice, Shifted;
    assert e in Adjusted(s, node, offset, -1, None);
    d :| d in s && e == MovedBoth(d, node, offset, -1);
    OnlyFromBehind(c, d, node, freed, offset);
  }

  lemma {:induction false} NotHitTwice(s: set<Connection>, node: int, freed: nat, offset: int, c: Connection)
    requires Freed(s, node, freed) && freed <= offset <= freed + 1 && c in s
    requires Adjusted(s, node, offset, -1, None) == set d | d in s :: MovedBoth(d, node, offset, -1)
    ensures !HitTwice(c, node, offset)
    decreases PORT_LIMIT - c.fromPort
  {
    hide Adjusted, MovedBoth, Freed;
    if HitTwice(c, node, offset) {
      var d := LeftBehind(s, node, freed, offset, c);
      NotHitTwice(s, node, freed, offset, d);
    }
  }

  /**
    Closing the gap left by a removed pair of pins: the ports of both sides come down by one, and every
    connection moves as it should if and only if none is hit at both ends.
   */
  lemma AdjustedBothSides(s: set<Connection>, node: int, freed: nat, offset: int)
    requires Freed(s, node, freed) && freed <= offset <= freed + 1
    ensures (Adjusted(s, node, offset, -1, None) == set c | c in s :: MovedBoth(c, node, offset, -1)) <==>
            forall c :: c in s ==> !HitTwice(c, node, offset)
  {
    hide Adjusted, MovedBoth, Freed, HitTwice;
    if forall c :: c in s ==> !HitTwice(c, node, offset) {
      AdjustedApart(s, node, offset, -1);
    }
    if Adjusted(s, node, offset, -1, None) == set c | c in s :: MovedBoth(c, node, offset, -1) {
      forall c | c in s ensures !HitTwice(c, node, offset) {
        NotHitTwice(s, node, freed, offset, c);
      }
    }
  }

  // ----- Removing a set of pins -----

  /** The number of removed pins of `node` on the side `dir` before position `port`. */
  function RemovedBefore(d: set<PinRef>, node: int, dir: Direction, port: nat): (n: nat)
    ensures n <= port
  {
    if port == 0 then 0
    else RemovedBefore(d, node, dir, port - 1) + (if PinRef(node, dir, port - 1) in d then 1 else 0)
  }

  /** Where a pin goes when the pins `d` are taken out of their vectors. */
  function NewPort(d: set<PinRef>, p: PinRef): int
    requires p.port >= 0
  {
    p.port - RemovedBefore(d, p.node, p.dir, p.port)
  }

  function Renumber(c: Connection, d: set<PinRef>): Connection {
    c.(fromPort := NewPort(d, c.End(PD_Output)), toPort := NewPort(d, c.End(PD_Input)))
  }

  /** The wires that keep both ends. */
  function Surviving(s: set<Connection>, d: set<PinRef>): set<Connection> {
    set c | c in s && c.End(PD_Output) !in d && c.End(PD_Input) !in d
  }

  function RenumberAll(s: set<Connection>, d: set<PinRef>): set<Connection> {
    set c | c in s :: Renumber(c, d)
  }

  /** The connection set once the pins `d` are gone. */
  function Renumbered(s: set<Connection>, d: set<PinRef>): set<Connection> {
    RenumberAll(Surviving(s, d), d)
  }

  /** Pins of one vector are listed from the highest position down, so each is met at its old position. */
  ghost predicate Descending(list: seq<PinRef>) {
    forall i, j :: 0 <= i < j < |list| && list[i].node == list[j].node && list[i].dir == list[j].dir ==>
      list[i].port > list[j].port
  }

  /** The shifts of `remove_argument`, one per removed pin in list order. */
  function AdjustAll(s: set<Connection>, list: seq<PinRef>): set<Connection> {
    if list == [] then s else
    var r := list[|list| - 1];
    Adjusted(AdjustAll(s, list[..|list| - 1]), r.node, r.port + 1, -1, Some(r.dir))
  }

  function Members(list: seq<PinRef>): set<PinRef> {
    set r | r in list
  }

  lemma {:induction false} RemovedBeforeLow(d: set<PinRef>, r: PinRef, port: nat)
    requires r.port >= 0
    requires forall q :: q in d && q.node == r.node && q.dir == r.dir ==> q.port > r.port
    ensures RemovedBefore(d, r.node, r.dir, port) <= if port > r.port then port - r.port - 1 else 0
  {
    if port > 0 {
      RemovedBeforeLow(d, r, port - 1);
    }
  }

  lemma {:induction false} RemovedBeforeInsert(d: set<PinRef>, r: PinRef, node: int, dir: Direction, port: nat)
    requires r !in d
    ensures RemovedBefore(d + {r}, node, dir, port) ==
            RemovedBefore(d, node, dir, port) + (if r.node == node && r.dir == dir && 0 <= r.port < port then 1 else 0)
  {
    if port > 0 {
      RemovedBeforeInsert(d, r, node, dir, port - 1);
    }
  }

  /** One more shift turns the renumbering for `d` into the one for `d + {r}`. */
  lemma RenumberStep(c: Connection, d: set<PinRef>, r: PinRef)
    requires r.port >= 0 && r !in d && c.End(r.dir) != r
    requires forall q :: q in d && q.node == r.node && q.dir == r.dir ==> q.port > r.port
    ensures Moved(Renumber(c, d), r.node, r.port + 1, -1, r.dir) == Renumber(c, d + {r})
  {
    var p := c.End(r.dir);
    RemovedBeforeInsert(d, r, p.node, r.dir, p.port);
    RemovedBeforeInsert(d, r, c.End(r.dir.Opposite()).node, r.dir.Opposite(), c.End(r.dir.Opposite()).port);
    if p.node == r.node {
      RemovedBeforeLow(d, r, p.port);
    }
  }

  lemma RenumberAllStep(s: set<Connection>, d: set<PinRef>, r: PinRef)
    requires r.port >= 0 && r !in d
    requires forall c :: c in s ==> c.End(r.dir) != r
    requires forall q :: q in d && q.node == r.node && q.dir == r.dir ==> q.port > r.port
    ensures Adjusted(RenumberAll(s, d), r.node, r.port + 1, -1, Some(r.dir)) == RenumberAll(s, d + {r})
  {
    var once := RenumberAll(s, d);
    AdjustedIsImage(once, r.node, r.port + 1, -1, r.dir);
    forall c | c in s
      ensures Moved(Renumber(c, d), r.node, r.port + 1, -1, r.dir) == Renumber(c, d + {r}) && Renumber(c, d) in once
    {
      RenumberStep(c, d, r);
    }
    hide Moved, Renumber;
    forall e ensures e in MovedAll(once, r.node, r.port + 1, -1, r.dir) <==> e in RenumberAll(s, d + {r}) {
      if e in MovedAll(once, r.node, r.port + 1, -1, r.dir) {
        var m :| m in once && e == Moved(m, r.node, r.port + 1, -1, r.dir);
        var c :| c in s && m == Renumber(c, d);
      }
      if c :| c in s && e == Renumber(c, d + {r}) {
        assert Renumber(c, d) in once;
      }
    }
  }

  lemma LastIsLowest(list: seq<PinRef>)
    requires Descending(list) && list != []
    ensures Members(list) == Members(list[..|list| - 1]) + {list[|list| - 1]}
    ensures list[|list| - 1] !in Members(list[..|list| - 1])
    ensures Descending(list[..|list| - 1])
    ensures forall q | q in Members(list[..|list| - 1]) && q.node == list[|list| - 1].node
            && q.dir == list[|list| - 1].dir ::
              q.port > list[|list| - 1].port
  {
    var init, r := list[..|list| - 1], list[|list| - 1];
    assert list == init + [r];
    forall q | q in Members(init) ensures q.node == r.node && q.dir == r.dir ==> q.port > r.port {
      var i :| 0 <= i < |init| && init[i] == q;
      assert list[i] == q;
    }
  }

  /** All the shifts together renumber every wire once. */
  lemma {:induction false} AdjustAllRenumbers(s: set<Connection>, list: seq<PinRef>)
    requires Descending(list)
    requires forall r :: r in Members(list) ==> r.port >= 0
    requires forall c, r :: c in s && r in Members(list) ==> c.End(r.dir) != r
    ensures AdjustAll(s, list) == RenumberAll(s, Members(list))
  {
    hide Adjusted, RenumberAll, Descending;
    if list == [] {
      NothingRenumbered(s);
      assert Members(list) == {};
    } else {
      var init, r := list[..|list| - 1], list[|list| - 1];
      LastIsLowest(list);
      AdjustAllRenumbers(s, init);
      RenumberAllStep(s, Members(init), r);
    }
  }

  lemma NothingRenumbered(s: set<Connection>)
    ensures RenumberAll(s, {}) == s
  {
    forall c: Connection ensures Renumber(c, {}) == c {
      NothingRemoved(c.End(PD_Output));
      NothingRemoved(c.End(PD_Input));
    }
  }

  lemma {:induction false} NothingRemoved(p: PinRef)
    requires p.port >= 0
    ensures RemovedBefore({}, p.node, p.dir, p.port) == 0
    decreases p.port
  {
    if p.port > 0 {
      NothingRemoved(p.(port := p.port - 1));
    }
  }

  /** Pins that stay keep their order, so no two of them meet. */
  lemma {:induction false} RemovedBeforeGap(d: set<PinRef>, node: int, dir: Direction, low: nat, high: nat)
    requires low < high && PinRef(node, dir, low) !in d
    ensures low - RemovedBefore(d, node, dir, low) < high - RemovedBefore(d, node, dir, high)
  {
    if low + 1 < high {
      RemovedBeforeGap(d, node, dir, low, high - 1);
    }
  }

  /** Distinct surviving wires stay distinct: none is lost and none is merged. */
  lemma RenumberInjective(s: set<Connection>, d: set<PinRef>, a: Connection, b: Connection)
    requires a in Surviving(s, d) && b in Surviving(s, d) && Renumber(a, d) == Renumber(b, d)
    ensures a == b
  {
    forall dir ensures a.End(dir) == b.End(dir) {
      var p, q := a.End(dir), b.End(dir);
      assert p.node == q.node;
      if p.port < q.port {
        RemovedBeforeGap(d, p.node, dir, p.port, q.port);
      } else if q.port < p.port {
        RemovedBeforeGap(d, p.node, dir, q.port, p.port);
      }
    }
    assert a.End(PD_Input) == b.End(PD_Input) && a.End(PD_Output) == b.End(PD_Output);
  }

  lemma RenumberedSize(s: set<Connection>, d: set<PinRef>)
    ensures |Renumbered(s, d)| == |Surviving(s, d)|
  {
    forall a, b | a in Surviving(s, d) && b in Surviving(s, d) && Renumber(a, d) == Renumber(b, d) ensures a == b {
      RenumberInjective(s, d, a, b);
    }
    var f := (c: Connection) => Renumber(c, d);
    forall e | e in Renumbered(s, d) ensures exists c :: c in Surviving(s, d) && f(c) == e {
      var c :| c in Surviving(s, d) && e == Renumber(c, d);
      assert f(c) == e;
    }
    InjectiveImageSize(Surviving(s, d), Renumbered(s, d), f);
  }

  // ----- The pin vectors -----

  /** The vector without the removed pins. */
  function Kept(pins: seq<Pin>, d: set<PinRef>, node: int, dir: Direction): seq<Pin> {
    if pins == [] then [] else
    var k := |pins| - 1;
    Kept(pins[..k], d, node, dir) + (if PinRef(node, dir, k) in d then [] else [pins[k]])
  }

  /** A pin that stays is found at its new position: the wire and the pin move together. */
  lemma {:induction false} KeptAt(pins: seq<Pin>, d: set<PinRef>, node: int, dir: Direction, i: nat)
    requires i < |pins|
    ensures |Kept(pins, d, node, dir)| == |pins| - RemovedBefore(d, node, dir, |pins|)
    ensures PinRef(node, dir, i) !in d ==>
              && 0 <= NewPort(d, PinRef(node, dir, i)) < |Kept(pins, d, node, dir)|
              && Kept(pins, d, node, dir)[NewPort(d, PinRef(node, dir, i))] == pins[i]
  {
    var init := pins[..|pins| - 1];
    if i < |init| {
      KeptAt(init, d, node, dir, i);
    } else if |init| > 0 {
      KeptAt(init, d, node, dir, 0);
    }
  }

  lemma {:induction false} KeptAll(pins: seq<Pin>, d: set<PinRef>, node: int, dir: Direction)
    requires forall i :: 0 <= i < |pins| ==> PinRef(node, dir, i) !in d
    ensures Kept(pins, d, node, dir) == pins
  {
    if pins != [] {
      KeptAll(pins[..|pins| - 1], d, node, dir);
    }
  }

  lemma RemoveAtAppend<T>(s: seq<T>, last: seq<T>, k: nat)
    requires k < |s|
    ensures RemoveAt(s + last, k) == RemoveAt(s, k) + last
  {
  }

  /** The last position either stays or goes. */
  lemma KeptSnoc(init: seq<Pin>, p: Pin, d: set<PinRef>, node: int, dir: Direction)
    ensures Kept(init + [p], d, node, dir)
            == Kept(init, d, node, dir) + if PinRef(node, dir, |init|) in d then [] else [p]
  {
    var pins := init + [p];
    assert pins[..|pins| - 1] == init;
  }

  lemma KeptStepLast(init: seq<Pin>, p: Pin, d: set<PinRef>, r: PinRef)
    requires r.port == |init| && r !in d
    requires forall q :: q in d && q.node == r.node && q.dir == r.dir ==> q.port > r.port
    ensures Kept(init + [p], d, r.node, r.dir) == init + [p]
    ensures Kept(init + [p], d + {r}, r.node, r.dir) == init
  {
    KeptAll(init, d, r.node, r.dir);
    KeptAll(init, d + {r}, r.node, r.dir);
    KeptSnoc(init, p, d, r.node, r.dir);
    KeptSnoc(init, p, d + {r}, r.node, r.dir);
  }

  lemma PrefixOfAppend<T>(a: seq<T>, b: seq<T>, k: nat)
    requires k <= |a|
    ensures (a + b)[..k] == a[..k]
  {
  }

  /** Taking out one more pin, below all those taken out before. */
  lemma {:induction false} KeptStep(pins: seq<Pin>, d: set<PinRef>, r: PinRef)
    requires 0 <= r.port < |pins| && r !in d
    requires forall q :: q in d && q.node == r.node && q.dir == r.dir ==> q.port > r.port
    ensures r.port < |Kept(pins, d, r.node, r.dir)|
    ensures Kept(pins, d, r.node, r.dir)[..r.port + 1] == pins[..r.port + 1]
    ensures RemoveAt(Kept(pins, d, r.node, r.dir), r.port) == Kept(pins, d + {r}, r.node, r.dir)
  {
    hide Kept;
    var k := |pins| - 1;
    var init := pins[..k];
    assert pins == init + [pins[k]];
    if r.port == k {
      KeptStepLast(init, pins[k], d, r);
      assert RemoveAt(pins, k) == init;
    } else {
      hide RemoveAt;
      KeptStep(init, d, r);
      KeptSnoc(init, pins[k], d, r.node, r.dir);
      KeptSnoc(init, pins[k], d + {r}, r.node, r.dir);
      var kept, last := Kept(init, d, r.node, r.dir), if PinRef(r.node, r.dir, k) in d then [] else [pins[k]];
      RemoveAtAppend(kept, last, r.port);
      PrefixOfAppend(kept, last, r.port + 1);
      PrefixOfAppend(init, [pins[k]], r.port + 1);
    }
  }

  /** Other vectors do not notice. */
  lemma {:induction false} KeptElsewhere(pins: seq<Pin>, d: set<PinRef>, r: PinRef, node: int, dir: Direction)
    requires r.node != node || r.dir != dir
    ensures Kept(pins, d + {r}, node, dir) == Kept(pins, d, node, dir)
  {
    if pins != [] {
      KeptElsewhere(pins[..|pins| - 1], d, r, node, dir);
    }
  }

  lemma {:induction false} KeptMembers(pins: seq<Pin>, d: set<PinRef>, node: int, dir: Direction, x: Pin)
    ensures x in Kept(pins, d, node, dir) ==> x in pins
  {
    if pins != [] {
      KeptMembers(pins[..|pins| - 1], d, node, dir, x);
    }
  }
}
