/**
  Removing pins of which some are hidden: when the connections still end at pins afterwards.

  A hidden pin has the index -1, so the shift for it moves every port of its side, the first to the last of the
  8 bits.  Hidden pins come last in their vector and are taken out first.
 */
module HiddenRemovals {
  import opened Connections
  import opened ConnectionCaches
  import opened Nodes
  import opened Stores
  import opened Queries
  import opened PortShift
  import opened ArgumentRemoval
  import opened FunctionEdits

  // ----- The shifts, end by end -----

  function WireAfter(nodes: map<int, NodeState>, list: seq<PinRef>, c: Connection): Connection {
    if list == [] then c else
    var e, r := WireAfter(nodes, list[..|list| - 1], c), list[|list| - 1];
    if IsPin(nodes, r) then Moved(e, r.node, PinOf(nodes, r).cachedIndex + 1, -1, PinOf(nodes, r).direction) else e
  }

  /** Where an end goes for one pin that is taken out. */
  function EndShifted(e: PinRef, r: PinRef, index: int): PinRef {
    if e.node == r.node && e.dir == r.dir && e.port > index then e.(port := (e.port - 1) % PORT_LIMIT) else e
  }

  function EndAfter(nodes: map<int, NodeState>, list: seq<PinRef>, e: PinRef): PinRef {
    if list == [] then e else
    var x, r := EndAfter(nodes, list[..|list| - 1], e), list[|list| - 1];
    if IsPin(nodes, r) then EndShifted(x, r, PinOf(nodes, r).cachedIndex) else x
  }

  lemma {:induction false} ShiftAllIsImage(nodes: map<int, NodeState>, conns: set<Connection>, list: seq<PinRef>)
    ensures ShiftAll(nodes, conns, list) == set c | c in conns :: WireAfter(nodes, list, c)
  {
    if list != [] {
      var init, r := list[..|list| - 1], list[|list| - 1];
      ShiftAllIsImage(nodes, conns, init);
      if IsPin(nodes, r) {
        var pin := PinOf(nodes, r);
        AdjustedIsImage(ShiftAll(nodes, conns, init), r.node, pin.cachedIndex + 1, -1, pin.direction);
      }
      hide Moved, Adjusted, IsPin;
    }
  }

  lemma MovedEnd(c: Connection, r: PinRef, index: int, dir: Direction)
    ensures Moved(c, r.node, index + 1, -1, r.dir).End(dir) == EndShifted(c.End(dir), r, index)
  {
  }

  lemma {:induction false} WireAfterEnd(nodes: map<int, NodeState>, list: seq<PinRef>, c: Connection, dir: Direction)
    requires forall r :: r in list && IsPin(nodes, r) ==> PinOf(nodes, r).direction == r.dir
    ensures WireAfter(nodes, list, c).End(dir) == EndAfter(nodes, list, c.End(dir))
  {
    if list != [] {
      var init, r := list[..|list| - 1], list[|list| - 1];
      assert r in list && forall x :: x in init ==> x in list;
      WireAfterEnd(nodes, init, c, dir);
      if IsPin(nodes, r) {
        MovedEnd(WireAfter(nodes, init, c), r, PinOf(nodes, r).cachedIndex, dir);
      }
      hide Moved, EndShifted, IsPin;
    }
  }

  // ----- Counting removed pins -----

  lemma {:induction false} RemovedMore(d: set<PinRef>, r: PinRef, node: int, dir: Direction, port: nat)
    requires r !in d
    ensures RemovedBefore(d + {r}, node, dir, port)
            == RemovedBefore(d, node, dir, port)
               + if r.node == node && r.dir == dir && 0 <= r.port < port then 1 else 0
  {
    if port > 0 {
      RemovedMore(d, r, node, dir, port - 1);
    }
  }

  /** Pins beyond `low` can only be met from there on. */
  lemma {:induction false} RemovedAbove(d: set<PinRef>, node: int, dir: Direction, low: int, port: nat)
    requires forall q :: q in d && q.node == node && q.dir == dir ==> q.port > low
    ensures RemovedBefore(d, node, dir, port) <= if port > low + 1 then port - low - 1 else 0
  {
    if port > 0 {
      RemovedAbove(d, node, dir, low, port - 1);
    }
  }

  lemma {:induction false} RemovedBetween(d: set<PinRef>, node: int, dir: Direction, low: nat, high: nat)
    requires low <= high
    ensures 0 <= RemovedBefore(d, node, dir, high) - RemovedBefore(d, node, dir, low) <= high - low
  {
    if low < high {
      RemovedBetween(d, node, dir, low, high - 1);
    }
  }

  // ----- Where an end comes to lie -----

  /** In a vector of `size` pins, the first `visible` of which are: how many hidden ones are among those removed. */
  function HiddenAmong(d: set<PinRef>, node: int, dir: Direction, visible: nat, size: nat): int {
    RemovedBefore(d, node, dir, size) - RemovedBefore(d, node, dir, visible)
  }

  /** The visible pins have their positions as indices, and the hidden ones have none. */
  ghost predicate IndexedAs(nodes: map<int, NodeState>, list: seq<PinRef>, e: PinRef, visible: nat, size: nat) {
    forall r :: r in list ==>
      && IsPin(nodes, r)
      && (r.node == e.node && r.dir == e.dir ==>
            r.port < size && PinOf(nodes, r).cachedIndex == if r.port < visible then r.port else -1)
  }

  /** The port of an end after the shifts, if `h` hidden pins went and then the visible ones in `d`. */
  function PortAfter(d: set<PinRef>, e: PinRef, visible: nat, h: int): int {
    if e.port >= h then e.port - h - RemovedBefore(d, e.node, e.dir, e.port - h)
    else PORT_LIMIT + e.port - h - RemovedBefore(d, e.node, e.dir, visible)
  }

  function Max(a: int, b: int): nat
    requires a >= 0
  {
    if b > a then b else a
  }

  lemma ShiftHidden(d: set<PinRef>, e: PinRef, r: PinRef, visible: nat, size: nat)
    requires 0 <= e.port < visible <= r.port < size <= PORT_LIMIT && r.node == e.node && r.dir == e.dir && r !in d
    requires forall q :: q in d && q.node == e.node && q.dir == e.dir ==> q.port > r.port
    ensures var h := HiddenAmong(d, e.node, e.dir, visible, size);
            && HiddenAmong(d + {r}, e.node, e.dir, visible, size) == h + 1
            && (PortAfter(d, e, visible, h) - 1) % PORT_LIMIT == PortAfter(d + {r}, e, visible, h + 1)
            && PortAfter(d, e, visible, h) > -1
  {
    var h := HiddenAmong(d, e.node, e.dir, visible, size);
    RemovedMore(d, r, e.node, e.dir, size);
    RemovedMore(d, r, e.node, e.dir, visible);
    RemovedAbove(d, e.node, e.dir, r.port, visible);
    RemovedAbove(d, e.node, e.dir, r.port, size);
    RemovedMore(d, r, e.node, e.dir, Max(0, e.port - h - 1));
    RemovedAbove(d, e.node, e.dir, r.port, Max(0, e.port - h));
    RemovedAbove(d, e.node, e.dir, r.port, Max(0, e.port - h - 1));
    hide RemovedBefore;
    assert 0 <= h <= size - visible - 1;
    var x, y := PortAfter(d, e, visible, h), PortAfter(d + {r}, e, visible, h + 1);
    assert x == if e.port >= h then e.port - h else PORT_LIMIT + e.port - h;
    assert y == if e.port >= h + 1 then e.port - h - 1 else PORT_LIMIT + e.port - h - 1;
    hide PortAfter, HiddenAmong;
    OneDown(x, y);
  }

  /** A port moved down by one, in 8 bits. */
  lemma OneDown(x: int, y: int)
    requires 0 <= x < PORT_LIMIT && (y == x - 1 || (x == 0 && y == PORT_LIMIT - 1)) && 0 <= y
    ensures (x - 1) % PORT_LIMIT == y
  {
  }

  lemma ShiftVisible(d: set<PinRef>, e: PinRef, r: PinRef, visible: nat, size: nat)
    requires 0 <= e.port < visible <= size <= PORT_LIMIT && r.node == e.node && r.dir == e.dir && r !in d
    requires 0 <= r.port < visible
    requires forall q :: q in d && q.node == e.node && q.dir == e.dir ==> q.port > r.port
    ensures var h := HiddenAmong(d, e.node, e.dir, visible, size);
            var x := PortAfter(d, e, visible, h);
            && HiddenAmong(d + {r}, e.node, e.dir, visible, size) == h
            && PortAfter(d + {r}, e, visible, h) == if x > r.port then (x - 1) % PORT_LIMIT else x
  {
    var h := HiddenAmong(d, e.node, e.dir, visible, size);
    RemovedMore(d, r, e.node, e.dir, size);
    RemovedMore(d, r, e.node, e.dir, visible);
    RemovedBetween(d, e.node, e.dir, visible, size);
    RemovedAbove(d, e.node, e.dir, r.port, visible);
    RemovedMore(d, r, e.node, e.dir, Max(0, e.port - h));
    RemovedAbove(d, e.node, e.dir, r.port, Max(0, e.port - h));
    hide RemovedBefore;
    assert HiddenAmong(d + {r}, e.node, e.dir, visible, size) == h;
    var x, y := PortAfter(d, e, visible, h), PortAfter(d + {r}, e, visible, h);
    assert 0 <= x < PORT_LIMIT && y == if x > r.port then x - 1 else x;
    hide PortAfter, HiddenAmong;
    if x > r.port {
      OneDown(x, y);
    }
  }

  /** One pin more is taken out. */
  lemma OneMore(d: set<PinRef>, e: PinRef, r: PinRef, index: int, visible: nat, size: nat)
    requires 0 <= e.port < visible <= size <= PORT_LIMIT && r.port >= 0 && r !in d
    requires r.node == e.node && r.dir == e.dir ==> r.port < size && index == if r.port < visible then r.port else -1
    requires forall q :: q in d && q.node == r.node && q.dir == r.dir ==> q.port > r.port
    ensures var h, k := HiddenAmong(d, e.node, e.dir, visible, size),
                        HiddenAmong(d + {r}, e.node, e.dir, visible, size);
            EndShifted(e.(port := PortAfter(d, e, visible, h)), r, index)
              == e.(port := PortAfter(d + {r}, e, visible, k))
  {
    if r.node == e.node && r.dir == e.dir {
      if r.port < visible {
        ShiftVisible(d, e, r, visible, size);
      } else {
        ShiftHidden(d, e, r, visible, size);
      }
      hide PortAfter, HiddenAmong;
    } else {
      RemovedMore(d, r, e.node, e.dir, size);
      RemovedMore(d, r, e.node, e.dir, visible);
      RemovedMore(d, r, e.node, e.dir, Max(0, e.port - HiddenAmong(d, e.node, e.dir, visible, size)));
      hide RemovedBefore;
    }
  }

  /** The shifts all together. */
  lemma {:induction false} PositionAfter(
      nodes: map<int, NodeState>, list: seq<PinRef>, e: PinRef, visible: nat, size: nat)
    requires Descending(list) && 0 <= e.port < visible <= size <= PORT_LIMIT
    requires IndexedAs(nodes, list, e, visible, size)
    ensures var d := Members(list);
            EndAfter(nodes, list, e)
            == e.(port := PortAfter(d, e, visible, HiddenAmong(d, e.node, e.dir, visible, size)))
  {
    if list == [] {
      assert Members(list) == {};
      RemovedAbove({}, e.node, e.dir, PORT_LIMIT, visible);
      RemovedAbove({}, e.node, e.dir, PORT_LIMIT, size);
      RemovedAbove({}, e.node, e.dir, PORT_LIMIT, e.port);
    } else {
      var init, r := list[..|list| - 1], list[|list| - 1];
      var d := Members(init);
      LastIsLowest(list);
      assert r in list && forall x :: x in init ==> x in list;
      PositionAfter(nodes, init, e, visible, size);
      assert IsPin(nodes, r) && r.port >= 0;
      var index := PinOf(nodes, r).cachedIndex;
      assert EndAfter(nodes, list, e) == EndShifted(EndAfter(nodes, init, e), r, index);
      hide Descending, Members, IndexedAs, EndAfter, PortAfter, HiddenAmong, RemovedBefore;
      OneMore(d, e, r, index, visible, size);
    }
  }

  /** It is one of the visible pins that are left exactly if the hidden ones have not pushed it beyond the first. */
  lemma LandsIff(d: set<PinRef>, e: PinRef, visible: nat, size: nat)
    requires 0 <= e.port < visible <= size <= PORT_LIMIT && e !in d
    ensures var h := HiddenAmong(d, e.node, e.dir, visible, size);
            0 <= PortAfter(d, e, visible, h) < visible - RemovedBefore(d, e.node, e.dir, visible) <==> e.port >= h
  {
    hide *;
    var h := HiddenAmong(d, e.node, e.dir, visible, size);
    PortAfterIs(d, e, visible, size, h);
    RemovedBetween(d, e.node, e.dir, visible, size);
    if e.port >= h {
      RemovedBetween(d, e.node, e.dir, e.port - h, e.port);
      SurvivorCounts(d, e);
      RemovedBetween(d, e.node, e.dir, e.port + 1, visible);
    }
  }

  lemma PortAfterIs(d: set<PinRef>, e: PinRef, visible: nat, size: nat, h: int)
    requires 0 <= e.port < visible <= size
    ensures HiddenAmong(d, e.node, e.dir, visible, size)
            == RemovedBefore(d, e.node, e.dir, size) - RemovedBefore(d, e.node, e.dir, visible)
    ensures e.port >= h ==> PortAfter(d, e, visible, h) == e.port - h - RemovedBefore(d, e.node, e.dir, e.port - h)
    ensures e.port < h ==> PortAfter(d, e, visible, h) == 256 + e.port - h - RemovedBefore(d, e.node, e.dir, visible)
    ensures PORT_LIMIT == 256
  {
    hide RemovedBefore;
  }

  lemma SurvivorCounts(d: set<PinRef>, e: PinRef)
    requires e.port >= 0 && e !in d
    ensures RemovedBefore(d, e.node, e.dir, e.port + 1) == RemovedBefore(d, e.node, e.dir, e.port)
  {
    assert e == PinRef(e.node, e.dir, e.port);
  }

  // ----- The vectors that are left -----

  function Visible(pins: seq<Pin>): (n: nat)
    ensures n <= |pins|
  {
    VisibleBeforeBound(pins, |pins|);
    VisibleBefore(pins, |pins|)
  }

  lemma {:induction false} VisibleUpTo(pins: seq<Pin>, i: nat)
    requires HiddenLast(pins) && i <= |pins|
    ensures VisibleBefore(pins, i) <= i
    ensures forall j :: 0 <= j < i ==> (pins[j].IsHidden() <==> j >= VisibleBefore(pins, i))
  {
    if i > 0 {
      VisibleUpTo(pins, i - 1);
    }
  }

  lemma {:induction false} KeptVisible(pins: seq<Pin>, d: set<PinRef>, node: int, dir: Direction, visible: nat)
    requires visible <= |pins| && forall j :: 0 <= j < |pins| ==> (pins[j].IsHidden() <==> j >= visible)
    ensures var kept, n := Kept(pins, d, node, dir), visible - RemovedBefore(d, node, dir, visible);
            n <= |kept| && forall k :: 0 <= k < |kept| ==> (kept[k].IsHidden() <==> k >= n)
  {
    if pins != [] {
      var init := pins[..|pins| - 1];
      if visible < |pins| {
        KeptVisible(init, d, node, dir, visible);
      } else {
        KeptVisible(init, d, node, dir, |init|);
        KeptSizeIs(init, d, node, dir);
      }
    }
  }

  lemma KeptSizeIs(pins: seq<Pin>, d: set<PinRef>, node: int, dir: Direction)
    ensures |Kept(pins, d, node, dir)| == |pins| - RemovedBefore(d, node, dir, |pins|)
  {
    if pins != [] {
      KeptAt(pins, d, node, dir, 0);
    }
  }

  // ----- The store -----

  /** The hidden pins among those removed have no index. */
  ghost predicate Unindexed(s: Store, d: set<PinRef>) {
    forall r :: r in d && IsPin(s.nodes, r) && !s.HasPin(r) ==> PinOf(s.nodes, r).cachedIndex == -1
  }

  /** How many hidden pins of the vector of `p` are removed. */
  function HiddenGone(s: Store, d: set<PinRef>, p: PinRef): int
    requires p.node in s.nodes
  {
    var pins := s.nodes[p.node].Pins(p.dir);
    HiddenAmong(d, p.node, p.dir, Visible(pins), |pins|)
  }

  /** Every wire that stays ends at ports that no hidden pin pushes beyond the first. */
  ghost predicate Spared(s: Store, d: set<PinRef>) {
    forall c, dir :: c in Surviving(s.conns, d) && c.End(dir).node in s.nodes ==>
      c.End(dir).port >= HiddenGone(s, d, c.End(dir))
  }

  lemma VectorFacts(s: Store, list: seq<PinRef>, e: PinRef)
    requires s.NodesSound() && (forall r :: r in list ==> IsPin(s.nodes, r)) && Unindexed(s, Members(list))
    requires s.HasPin(e)
    ensures var pins := s.nodes[e.node].Pins(e.dir);
            && 0 <= e.port < Visible(pins) <= |pins| <= PORT_LIMIT
            && (forall j :: 0 <= j < |pins| ==> (pins[j].IsHidden() <==> j >= Visible(pins)))
            && IndexedAs(s.nodes, list, e, Visible(pins), |pins|)
  {
    var n := s.nodes[e.node];
    assert n.Sound();
    var pins := n.Pins(e.dir);
    VisibleUpTo(pins, |pins|);
    hide Pin.IsHidden, VisibleBefore;
    forall r | r in list && r.node == e.node && r.dir == e.dir
      ensures r.port < |pins| && PinOf(s.nodes, r).cachedIndex == if r.port < Visible(pins) then r.port else -1
    {
      assert r in Members(list) && IsPin(s.nodes, r);
      assert s.HasPin(r) <==> r.port < Visible(pins);
    }
  }

  /** A surviving end of a wire is at a visible pin afterwards exactly if it is spared. */
  lemma EndLandsIff(s: Store, t: Store, list: seq<PinRef>, e: PinRef)
    requires s.NodesSound() && Descending(list) && forall r :: r in list ==> IsPin(s.nodes, r)
    requires Unindexed(s, Members(list)) && s.HasPin(e) && e !in Members(list)
    requires t.nodes == KeptNodes(s.nodes, Members(list))
    ensures e.node in s.nodes
    ensures t.HasPin(EndAfter(s.nodes, list, e)) <==> e.port >= HiddenGone(s, Members(list), e)
  {
    var d, pins := Members(list), s.nodes[e.node].Pins(e.dir);
    VectorFacts(s, list, e);
    PositionAfter(s.nodes, list, e, Visible(pins), |pins|);
    LandsIff(d, e, Visible(pins), |pins|);
    KeptVisible(pins, d, e.node, e.dir, Visible(pins));
    var x := EndAfter(s.nodes, list, e);
    assert s.nodes[e.node].id == e.node;
    hide EndAfter, PortAfter, HiddenAmong, RemovedBefore, Kept, Members, Visible, IndexedAs, Unindexed, Pin.IsHidden,
         Descending;
    assert t.nodes[e.node].Pins(e.dir) == Kept(pins, d, e.node, e.dir);
  }

  lemma DirectionsAre(s: Store, list: seq<PinRef>)
    requires s.NodesSound()
    ensures forall r :: r in list && IsPin(s.nodes, r) ==> PinOf(s.nodes, r).direction == r.dir
  {
    forall r | r in list && IsPin(s.nodes, r) ensures PinOf(s.nodes, r).direction == r.dir {
      assert s.nodes[r.node].Sound();
    }
  }

  /** Taking the pins out leaves no connection dangling exactly when every wire that stays is spared. */
  lemma TakenOutAnchoredIff(s: Store, list: seq<PinRef>)
    requires s.Inv() && Descending(list) && (forall r :: r in list ==> IsPin(s.nodes, r))
    requires Unindexed(s, Members(list))
    ensures TakenOut(s, list).Anchored() <==> Spared(s, Members(list))
  {
    hide *;
    var t, d := TakenOut(s, list), Members(list);
    InvIs(s);
    InvIsTidy(s);
    TakenOutParts(s, list);
    TakenOutConns(s, list);
    ShiftAllIsImage(s.nodes, Surviving(s.conns, d), list);
    DirectionsAre(s, list);
    forall c, dir | c in Surviving(s.conns, d)
      ensures c.End(dir).node in s.nodes
      ensures t.HasPin(WireAfter(s.nodes, list, c).End(dir)) <==> c.End(dir).port >= HiddenGone(s, d, c.End(dir))
    {
      SurvivorEnd(s, d, c, dir);
      WireAfterEnd(s.nodes, list, c, dir);
      EndLandsIff(s, t, list, c.End(dir));
    }
    AnchoredByImage(s, t, list, d);
  }

  lemma SurvivorEnd(s: Store, d: set<PinRef>, c: Connection, dir: Direction)
    requires s.Anchored() && c in Surviving(s.conns, d)
    ensures s.HasPin(c.End(dir)) && c.End(dir) !in d && c.End(dir).node in s.nodes
  {
    AnchoredEnd(s, c, dir);
  }

  lemma TakenOutConns(s: Store, list: seq<PinRef>)
    requires s.Inv()
    ensures TakenOut(s, list).conns == ShiftAll(s.nodes, Surviving(s.conns, Members(list)), list)
  {
    InvIsTidy(s);
    UnlinkedEachIsAny(s, list);
    WiresAtAnyEnds(s, Members(list));
    UnlinkedEachKeepsTidy(s, list);
    hide UnlinkedEach, Store.Inv, Store.Tidy;
  }

  lemma AnchoredByImage(s: Store, t: Store, list: seq<PinRef>, d: set<PinRef>)
    requires forall e :: e in t.conns <==> exists c :: c in Surviving(s.conns, d) && e == WireAfter(s.nodes, list, c)
    requires forall c, dir :: c in Surviving(s.conns, d) ==>
               c.End(dir).node in s.nodes
               && (t.HasPin(WireAfter(s.nodes, list, c).End(dir)) <==> c.End(dir).port >= HiddenGone(s, d, c.End(dir)))
    ensures t.Anchored() <==> Spared(s, d)
  {
    hide WireAfter, Surviving, Store.HasPin, HiddenGone;
    if t.Anchored() {
      forall c, dir | c in Surviving(s.conns, d) ensures c.End(dir).port >= HiddenGone(s, d, c.End(dir)) {
        assert WireAfter(s.nodes, list, c) in t.conns;
        AnchoredEnd(t, WireAfter(s.nodes, list, c), dir);
      }
    }
    if Spared(s, d) {
      forall e | e in t.conns ensures t.HasPin(e.End(PD_Output)) && t.HasPin(e.End(PD_Input)) {
        var c :| c in Surviving(s.conns, d) && e == WireAfter(s.nodes, list, c);
        assert c.End(PD_Output).port >= HiddenGone(s, d, c.End(PD_Output));
        assert c.End(PD_Input).port >= HiddenGone(s, d, c.End(PD_Input));
      }
    }
  }

  // ----- Removing an argument -----

  lemma KeptSound(s: Store, u: Store, d: set<PinRef>)
    requires s.NodesSound() && u.nodes == KeptNodes(s.nodes, d)
    requires forall p :: p in d ==> p.node in s.nodes && !s.nodes[p.node].IsReroute()
    ensures Recached(u).NodesSound()
  {
    hide NodeState.Sound, KeptNode, NodeState.Cache;
    forall id | id in s.nodes
      ensures KeptNode(s.nodes[id], d).Cache().Sound() && KeptNode(s.nodes[id], d).Cache().id == id
    {
      assert s.nodes[id].Sound() && s.nodes[id].id == id;
      KeptNodeSound(s.nodes[id], d);
      KeptId(s.nodes[id], d);
    }
  }

  lemma KeptId(n: NodeState, d: set<PinRef>)
    ensures KeptNode(n, d).Cache().id == n.id
  {
  }

  lemma RecachedAnchored(u: Store)
    ensures Recached(u).Anchored() <==> u.Anchored()
  {
    hide Recached;
    forall p ensures Recached(u).HasPin(p) <==> u.HasPin(p) {
      RecachedKeepsPins(u, p);
    }
    assert Recached(u).conns == u.conns by {
      RecachedConns(u);
    }
  }

  lemma RecachedConns(u: Store)
    ensures Recached(u).conns == u.conns
  {
  }

  /** The condition on the state before. */
  ghost predicate RemovalSpares(s: Store, name: string, index: int)
    requires name in s.functions
  {
    Removable(s, name, index) ==> Spared(s, ArgumentPins(s, s.functions[name], index))
  }

  ghost predicate RemovalUnindexed(s: Store, name: string, index: int)
    requires name in s.functions
  {
    Removable(s, name, index) ==> Unindexed(s, ArgumentPins(s, s.functions[name], index))
  }

  /**
    Removing an argument keeps the pin-level invariant exactly when every connection that stays is at ports
    that no hidden pin pushes beyond the first.
   */
  lemma RemovalKeepsInvIff(s: Store, name: string, index: int, u: Store)
    requires s.Inv() && name in s.functions && ArgumentRemoved(s, name, index, u) && RemovalUnindexed(s, name, index)
    ensures Recached(u).Inv() <==> RemovalSpares(s, name, index)
  {
    hide *;
    InvIsTidy(s);
    InvIs(s);
    ArgumentRemovedKeepsTidy(s, name, index, u);
    RemovableMeans(s, name, index);
    if Removable(s, name, index) {
      var f := s.functions[name];
      var list := RemovedList(s, name, index, u);
      SoundIsFiled(s);
      ListedArePins(s, f, index, list);
      RemovalsAreOfCalls(s, f, index);
      TakenOutParts(s, list);
      ListMeans(s, f, index, list);
      RemovalMeans(s, name, index);
      TakenOutAnchoredIff(s, list);
      SameWithFunctions(TakenOut(s, list), s.functions[name := WithoutArgument(f, index)]);
      RecachedAnchored(u);
      KeptSound(s, u, Members(list));
      InvIs(Recached(u));
      TidyIs(Recached(u));
    } else {
      SoundIsFiled(s);
      RecachedIsSame(s);
      ArgumentStays(s, name, index, u);
    }
  }

  lemma RemovedList(s: Store, name: string, index: int, u: Store) returns (list: seq<PinRef>)
    requires name in s.functions && ArgumentRemoved(s, name, index, u) && Removable(s, name, index)
    ensures IsRemovalList(s, s.functions[name], index, list)
    ensures u == TakenOut(s, list).(functions := s.functions[name := WithoutArgument(s.functions[name], index)])
  {
    hide TakenOut, IsRemovalList, WithoutArgument;
    list :| && IsRemovalList(s, s.functions[name], index, list)
            && u == TakenOut(s, list).(functions := s.functions[name := WithoutArgument(s.functions[name], index)]);
  }

  lemma ArgumentStays(s: Store, name: string, index: int, u: Store)
    requires name in s.functions && ArgumentRemoved(s, name, index, u) && !Removable(s, name, index)
    ensures u == s && RemovalSpares(s, name, index)
  {
  }

  lemma ListMeans(s: Store, f: FunctionState, index: nat, list: seq<PinRef>)
    requires index < |f.arguments| && IsRemovalList(s, f, index, list)
    ensures Descending(list) && Members(list) == ArgumentPins(s, f, index)
  {
  }

  lemma SameWithFunctions(u: Store, functions: map<string, FunctionState>)
    ensures u.(functions := functions).Anchored() <==> u.Anchored()
    ensures u.(functions := functions).nodes == u.nodes
  {
  }

  lemma RemovalMeans(s: Store, name: string, index: int)
    requires name in s.functions && Removable(s, name, index)
    ensures RemovalSpares(s, name, index) <==> Spared(s, ArgumentPins(s, s.functions[name], index))
    ensures RemovalUnindexed(s, name, index) <==> Unindexed(s, ArgumentPins(s, s.functions[name], index))
  {
  }

  /** Where the pins that go are visible there is nothing to ask. */
  lemma VisibleIsSpared(s: Store, name: string, index: int)
    requires s.Inv() && name in s.functions && RemovalsVisible(s, name, index)
    ensures RemovalUnindexed(s, name, index) && RemovalSpares(s, name, index)
  {
    if Removable(s, name, index) {
      var d := ArgumentPins(s, s.functions[name], index);
      InvIs(s);
      hide Store.Inv, ArgumentPins, Store.NodesSound, RemovedBefore;
      forall c, dir | c in Surviving(s.conns, d) && c.End(dir).node in s.nodes
        ensures c.End(dir).port >= HiddenGone(s, d, c.End(dir))
      {
        SurvivorEnd(s, d, c, dir);
        NoneHidden(s, d, c.End(dir));
      }
    }
  }

  lemma NoneHidden(s: Store, d: set<PinRef>, e: PinRef)
    requires s.NodesSound() && s.HasPin(e) && forall p :: p in d ==> s.HasPin(p)
    ensures HiddenGone(s, d, e) == 0
  {
    var pins := s.nodes[e.node].Pins(e.dir);
    assert s.nodes[e.node].Sound();
    VisibleUpTo(pins, |pins|);
    NoneBetween(d, e.node, e.dir, Visible(pins), |pins|);
  }

  lemma {:induction false} NoneBetween(d: set<PinRef>, node: int, dir: Direction, low: nat, high: nat)
    requires low <= high && forall q :: q in d && q.node == node && q.dir == dir ==> q.port < low
    ensures RemovedBefore(d, node, dir, high) == RemovedBefore(d, node, dir, low)
  {
    if low < high {
      NoneBetween(d, node, dir, low, high - 1);
    }
  }
}
