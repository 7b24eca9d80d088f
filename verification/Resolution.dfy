/**
  Resolving a pin through reroutes in any store (`_resolve_reroute` and `get_resolved_connections` of
  `src/orchestration/node_pin.cpp`), also where connections dangle.
 */
module Resolution {
  import opened Connections
  import opened ConnectionCaches
  import opened Nodes
  import opened Reroutes
  import opened Stores
  import opened KnotMigration
  import opened Queries

  /** What comes of a resolution: a pin, no pin, or the first entry of an empty list. */
  datatype Outcome = Resolved(pin: PinRef) | Unresolved | Fault

  datatype Turn = Stop(outcome: Outcome) | Go(pin: PinRef)

  /** The pin at the other side of a reroute, found by its name. */
  function FarPin(nodes: map<int, NodeState>, p: PinRef): Option<PinRef>
    requires p.node in nodes
  {
    var other := p.dir.Opposite();
    match FirstNamed(nodes[p.node].Pins(other), if other == PD_Input then "input" else "output")
    case None => None
    case Some(k) => Some(PinRef(p.node, other, k))
  }

  /** `has_connections`: dangling connections count. */
  predicate HasAny(s: Store, p: PinRef) {
    s.HasPin(p) && Neighbours(s.conns, Address(s.nodes, p)) != []
  }

  /** One turn of the loop, apart from the visited check. */
  function TurnAt(s: Store, p: PinRef): (t: Turn)
    requires IsPin(s.nodes, p)
    ensures t.Go? ==> IsPin(s.nodes, t.pin) && s.nodes[p.node].IsReroute()
  {
    if !s.nodes[p.node].IsReroute() then Stop(Resolved(p))
    else match FarPin(s.nodes, p)
      case None => Stop(Unresolved)
      case Some(far) =>
        if !HasAny(s, far) then Stop(Unresolved)
        else if Connected(s, far) == [] then Stop(Fault)
        else
          assert IsPin(s.nodes, Connected(s, far)[0]) by { ConnectedArePins(s, far); }
          Go(Connected(s, far)[0])
  }

  /** `_resolve_reroute`, with the set of reroutes already walked through. */
  function ResolveFrom(s: Store, p: PinRef, visited: set<int>): Outcome
    requires IsPin(s.nodes, p)
    decreases s.Reroutes() - visited
  {
    if s.nodes[p.node].IsReroute() && p.node in visited then Unresolved
    else match TurnAt(s, p)
      case Stop(outcome) => outcome
      case Go(q) => ResolveFrom(s, q, visited + {p.node})
  }

  // ----- Where no connection dangles -----

  lemma FirstNamedAt(pins: seq<Pin>, name: string)
    requires |pins| == 1 && pins[0].property.name == name
    ensures FirstNamed(pins, name) == Some(0)
  {
  }

  /** There a turn follows the first neighbour at the other side. */
  lemma SoundTurn(s: Store, p: PinRef)
    requires s.NodesSound() && s.Anchored() && s.HasPin(p) && s.nodes[p.node].IsReroute()
    ensures TurnAt(s, p) == match FirstNeighbour(s.conns, Across(p)) case None => Stop(Unresolved) case Some(q) => Go(q)
    ensures TurnAt(s, p).Go? ==> s.HasPin(TurnAt(s, p).pin)
  {
    assert s.nodes[p.node].RerouteShape();
    FirstNamedAt(s.nodes[p.node].inputs, "input");
    FirstNamedAt(s.nodes[p.node].outputs, "output");
    SoundIsFiled(s);
    assert FarPin(s.nodes, p) == Some(Across(p)) && s.HasPin(Across(p));
    hide NodeState.Sound, FirstNamed, Store.NodesSound, FarPin, Existing;
    ConnectedWhole(s, Across(p));
    AlignedAddress(s, Across(p));
    var n := Neighbours(s.conns, Across(p));
    if n != [] {
      NeighbourIsPin(s, Across(p), n[0]);
    }
  }

  function AsOutcome(r: Option<PinRef>): Outcome {
    match r case None => Unresolved case Some(q) => Resolved(q)
  }

  /** Resolution is then the resolution over the connections alone, and never faults. */
  lemma {:induction false} SoundResolution(s: Store, p: PinRef, visited: set<int>)
    requires s.NodesSound() && s.Anchored() && s.HasPin(p)
    ensures ResolveFrom(s, p, visited) == AsOutcome(Resolve(s.conns, s.Reroutes(), p, visited))
    decreases s.Reroutes() - visited
  {
    if s.nodes[p.node].IsReroute() && p.node !in visited {
      SoundTurn(s, p);
      if TurnAt(s, p).Go? {
        SoundResolution(s, TurnAt(s, p).pin, visited + {p.node});
      }
    }
  }

  // ----- When resolution faults -----

  /** The reroute of `p` has connections at its far side, and every one of them dangles. */
  predicate Strands(s: Store, p: PinRef)
    requires IsPin(s.nodes, p)
  {
    s.nodes[p.node].IsReroute() && FarPin(s.nodes, p).Some?
    && HasAny(s, FarPin(s.nodes, p).value) && Connected(s, FarPin(s.nodes, p).value) == []
  }

  /** The pin after `k` turns, visited or not. */
  function Walked(s: Store, p: PinRef, k: nat): (r: Option<PinRef>)
    requires IsPin(s.nodes, p)
    ensures r.Some? ==> IsPin(s.nodes, r.value)
    decreases k
  {
    if k == 0 then Some(p)
    else match TurnAt(s, p)
      case Stop(_) => None
      case Go(q) => Walked(s, q, k - 1)
  }

  predicate StrandsAt(s: Store, p: PinRef, k: nat)
    requires IsPin(s.nodes, p)
  {
    Walked(s, p, k).Some? && Strands(s, Walked(s, p, k).value)
  }

  lemma StrandsStops(s: Store, p: PinRef)
    requires IsPin(s.nodes, p)
    ensures Strands(s, p) <==> TurnAt(s, p) == Stop(Fault)
  {
    hide Connected, FarPin, HasAny;
  }

  /** The walk keeps its direction, so at a reroute it goes on the same way however it got there. */
  lemma SameTurn(s: Store, p: PinRef, q: PinRef)
    requires IsPin(s.nodes, p) && IsPin(s.nodes, q) && p.node == q.node && p.dir == q.dir && s.nodes[p.node].IsReroute()
    ensures TurnAt(s, p) == TurnAt(s, q)
  {
  }

  lemma TurnKeepsDirection(s: Store, p: PinRef)
    requires IsPin(s.nodes, p) && TurnAt(s, p).Go?
    ensures TurnAt(s, p).pin.dir == p.dir
  {
    var far := FarPin(s.nodes, p).value;
    ConnectedContents(s, far, TurnAt(s, p).pin);
  }

  lemma {:induction false} WalkedSplits(s: Store, p: PinRef, i: nat, j: nat)
    requires IsPin(s.nodes, p)
    ensures Walked(s, p, i).Some? ==> Walked(s, p, i + j) == Walked(s, Walked(s, p, i).value, j)
    ensures Walked(s, p, i).None? ==> Walked(s, p, i + j).None?
    ensures Walked(s, p, i).Some? ==> Walked(s, p, i).value.dir == p.dir
    decreases i
  {
    hide TurnAt;
    if i > 0 && TurnAt(s, p).Go? {
      TurnKeepsDirection(s, p);
      WalkedSplits(s, TurnAt(s, p).pin, i - 1, j);
    }
  }

  lemma StrandsAtIs(s: Store, p: PinRef, k: nat)
    requires IsPin(s.nodes, p)
    ensures Walked(s, p, 0) == Some(p)
    ensures StrandsAt(s, p, k) <==> Walked(s, p, k).Some? && TurnAt(s, Walked(s, p, k).value) == Stop(Fault)
  {
    hide TurnAt, Strands;
    if Walked(s, p, k).Some? {
      StrandsStops(s, Walked(s, p, k).value);
    }
  }

  lemma SameTurnSameWalk(s: Store, p: PinRef, q: PinRef, k: nat)
    requires IsPin(s.nodes, p) && IsPin(s.nodes, q) && TurnAt(s, p) == TurnAt(s, q) && k > 0
    ensures Walked(s, p, k) == Walked(s, q, k)
  {
    hide TurnAt;
  }

  /** Coming back to a reroute would have led to the stranded one sooner. */
  lemma SoonerStranded(s: Store, p: PinRef, k: nat, j: nat)
    requires IsPin(s.nodes, p) && StrandsAt(s, p, k) && 0 < j <= k
    requires Walked(s, p, j).Some? && Walked(s, p, j).value.node == p.node
    ensures j < k && StrandsAt(s, p, k - j)
  {
    hide *;
    var q := Walked(s, p, j).value;
    StrandsAtIs(s, p, k);
    WalkedSplits(s, p, j, k - j);
    WalkedSplits(s, p, 1, k - 1);
    ReroutesOnTheWay(s, p);
    SameTurn(s, p, q);
    StrandsAtIs(s, q, 0);
    SameTurnSameWalk(s, p, q, if j < k then k - j else 1);
    StrandsAtIs(s, p, k - j);
  }

  /** Before the first stranded reroute, none is met twice. */
  lemma NoReturnBeforeStranded(s: Store, p: PinRef, k: nat, j: nat)
    requires IsPin(s.nodes, p) && StrandsAt(s, p, k) && forall i: nat :: i < k ==> !StrandsAt(s, p, i)
    requires 0 < j <= k
    ensures Walked(s, p, j).Some? && Walked(s, p, j).value.node != p.node
  {
    hide *;
    StrandsAtIs(s, p, k);
    WalkedSplits(s, p, j, k - j);
    if Walked(s, p, j).value.node == p.node {
      SoonerStranded(s, p, k, j);
    }
  }

  lemma ReroutesOnTheWay(s: Store, p: PinRef)
    requires IsPin(s.nodes, p) && Walked(s, p, 1).Some?
    ensures s.nodes[p.node].IsReroute() && TurnAt(s, p).Go?
  {
  }

  /** One step of the walk to a stranded reroute. */
  lemma StrandedStep(s: Store, p: PinRef, visited: set<int>, k: nat)
    requires IsPin(s.nodes, p) && StrandsAt(s, p, k) && p.node !in visited
    ensures k == 0 ==> ResolveFrom(s, p, visited) == Fault
    ensures k > 0 ==>
              && TurnAt(s, p).Go? && IsPin(s.nodes, TurnAt(s, p).pin)
              && ResolveFrom(s, p, visited) == ResolveFrom(s, TurnAt(s, p).pin, visited + {p.node})
              && (forall i: nat :: Walked(s, TurnAt(s, p).pin, i) == Walked(s, p, i + 1))
              && (forall i: nat :: StrandsAt(s, TurnAt(s, p).pin, i) <==> StrandsAt(s, p, i + 1))
  {
    StrandsStops(s, p);
    hide TurnAt, Strands;
  }

  lemma {:induction false} StrandedFaults(s: Store, p: PinRef, visited: set<int>, k: nat)
    requires IsPin(s.nodes, p) && StrandsAt(s, p, k) && forall i: nat :: i < k ==> !StrandsAt(s, p, i)
    requires p.node !in visited
    requires forall i: nat :: i <= k ==> Walked(s, p, i).Some? && Walked(s, p, i).value.node !in visited
    ensures ResolveFrom(s, p, visited) == Fault
    decreases k
  {
    hide TurnAt, Strands, StrandsAt, ResolveFrom, Store.Reroutes, Walked;
    StrandedStep(s, p, visited, k);
    if k > 0 {
      var q := TurnAt(s, p).pin;
      forall i: nat | i <= k - 1 ensures Walked(s, q, i).Some? && Walked(s, q, i).value.node !in visited + {p.node} {
        NoReturnBeforeStranded(s, p, k, i + 1);
      }
      assert q.node !in visited + {p.node} by {
        WalkedNone(s, q);
        assert Walked(s, q, 0).value.node !in visited + {p.node};
      }
      forall i: nat | i < k - 1 ensures !StrandsAt(s, q, i) {
        assert !StrandsAt(s, p, i + 1);
      }
      StrandedFaults(s, q, visited + {p.node}, k - 1);
    }
  }

  lemma WalkedNone(s: Store, p: PinRef)
    requires IsPin(s.nodes, p)
    ensures Walked(s, p, 0) == Some(p)
  {
  }

  /** One turn of a resolution that faults. */
  lemma FaultStep(s: Store, p: PinRef, visited: set<int>)
    requires IsPin(s.nodes, p) && ResolveFrom(s, p, visited) == Fault
    ensures TurnAt(s, p).Stop? ==> StrandsAt(s, p, 0)
    ensures TurnAt(s, p).Go? ==>
              && p.node in s.Reroutes() && p.node !in visited && IsPin(s.nodes, TurnAt(s, p).pin)
              && ResolveFrom(s, TurnAt(s, p).pin, visited + {p.node}) == Fault
              && (forall i: nat :: StrandsAt(s, TurnAt(s, p).pin, i) ==> StrandsAt(s, p, i + 1))
  {
    StrandsStops(s, p);
    hide TurnAt, Strands;
  }

  lemma {:induction false} FaultStrands(s: Store, p: PinRef, visited: set<int>) returns (k: nat)
    requires IsPin(s.nodes, p) && ResolveFrom(s, p, visited) == Fault
    ensures StrandsAt(s, p, k)
    decreases s.Reroutes() - visited
  {
    hide *;
    FaultStep(s, p, visited);
    if TurnAt(s, p).Stop? {
      k := 0;
    } else {
      var n := FaultStrands(s, TurnAt(s, p).pin, visited + {p.node});
      k := n + 1;
    }
  }

  /**
    Resolution faults exactly when it comes to a reroute that has connections at its far side, all of them
    dangling.
   */
  lemma FaultIff(s: Store, p: PinRef)
    requires IsPin(s.nodes, p)
    ensures ResolveFrom(s, p, {}) == Fault <==> exists k: nat :: StrandsAt(s, p, k)
  {
    hide *;
    if ResolveFrom(s, p, {}) == Fault {
      var k := FaultStrands(s, p, {});
    }
    if k: nat :| StrandsAt(s, p, k) {
      var least := LeastStranded(s, p, k);
      forall i: nat | i <= least ensures Walked(s, p, i).Some? {
        StrandedIsWalked(s, p, least);
        WalkedSplits(s, p, i, least - i);
      }
      StrandedFaults(s, p, {}, least);
    }
  }

  lemma StrandedIsWalked(s: Store, p: PinRef, k: nat)
    requires IsPin(s.nodes, p) && StrandsAt(s, p, k)
    ensures Walked(s, p, k).Some?
  {
  }

  lemma LeastStranded(s: Store, p: PinRef, k: nat) returns (least: nat)
    requires IsPin(s.nodes, p) && StrandsAt(s, p, k)
    ensures StrandsAt(s, p, least) && forall i: nat :: i < least ==> !StrandsAt(s, p, i)
  {
    hide *;
    least := 0;
    while !StrandsAt(s, p, least)
      invariant least <= k
      invariant forall i: nat :: i < least ==> !StrandsAt(s, p, i)
      decreases k - least
    {
      least := least + 1;
    }
  }

  /** A reroute whose only wire leads to a node that is gone. */
  function DanglingStore(): Store {
    Store({Connection(0, 0, 1, 0)}, map[0 := RerouteNode(0, RerouteAny)], map[], map[])
  }

  lemma NoMembers<T>(q: seq<T>)
    ensures q == [] <==> forall x :: x !in q
  {
    if q != [] {
      assert q[0] in q;
    }
  }

  lemma DanglingParts()
    ensures var s, p, far := DanglingStore(), PinRef(0, PD_Input, 0), PinRef(0, PD_Output, 0);
            && IsPin(s.nodes, p) && s.nodes[0].IsReroute() && FarPin(s.nodes, p) == Some(far)
            && s.HasPin(far) && Address(s.nodes, far) == far && !IsPin(s.nodes, PinRef(1, PD_Input, 0))
            && s.conns == {Connection(0, 0, 1, 0)}
  {
    RerouteNodeSound(0, RerouteAny);
    FirstNamedAt(DanglingStore().nodes[0].outputs, "output");
    hide FirstNamed, RerouteNode;
  }

  lemma DanglingFar()
    ensures var s, far := DanglingStore(), PinRef(0, PD_Output, 0);
            HasAny(s, far) && Connected(s, far) == []
  {
    var s, far := DanglingStore(), PinRef(0, PD_Output, 0);
    DanglingParts();
    hide DanglingStore, IsPin, Address, Store.HasPin, Neighbours, Connected;
    forall q ensures q !in Connected(s, far) {
      ConnectedContents(s, far, q);
    }
    NoMembers(Connected(s, far));
    NeighboursContents(s.conns, far, PinRef(1, PD_Input, 0));
    assert Joins(Connection(0, 0, 1, 0), far, PinRef(1, PD_Input, 0));
  }

  lemma DanglingRerouteFaults()
    ensures IsPin(DanglingStore().nodes, PinRef(0, PD_Input, 0))
    ensures ResolveFrom(DanglingStore(), PinRef(0, PD_Input, 0), {}) == Fault
  {
    DanglingParts();
    DanglingFar();
    StrandsStops(DanglingStore(), PinRef(0, PD_Input, 0));
    hide TurnAt, FarPin, HasAny, Connected, DanglingStore;
  }

  // ----- All the connections of a pin -----

  /** What the pins of a list resolve to, in order, leaving out those that do not resolve; nothing after a fault. */
  function AllFrom(s: Store, q: seq<PinRef>): Option<seq<PinRef>>
    requires forall x :: x in q ==> IsPin(s.nodes, x)
  {
    if q == [] then Some([]) else
    var last := q[|q| - 1];
    match AllFrom(s, q[..|q| - 1])
    case None => None
    case Some(r) =>
      match ResolveFrom(s, last, {})
      case Fault => None
      case Unresolved => Some(r)
      case Resolved(x) => Some(r + [x])
  }

  /** Once one resolution faults there is no result. */
  lemma {:induction false} AllFromFaults(s: Store, q: seq<PinRef>, i: nat)
    requires (forall x :: x in q ==> IsPin(s.nodes, x)) && i < |q| && AllFrom(s, q[..i + 1]).None?
    ensures AllFrom(s, q).None?
  {
    hide ResolveFrom;
    if i + 1 == |q| {
      assert q[..i + 1] == q;
    } else {
      assert q[..|q| - 1][..i + 1] == q[..i + 1];
      AllFromFaults(s, q[..|q| - 1], i);
    }
  }

  lemma {:induction false} AllFromContents(s: Store, q: seq<PinRef>)
    requires forall x :: x in q ==> IsPin(s.nodes, x)
    ensures AllFrom(s, q).None? <==> exists y :: y in q && ResolveFrom(s, y, {}) == Fault
    ensures AllFrom(s, q).Some? ==>
              forall x :: x in AllFrom(s, q).value <==> exists y :: y in q && ResolveFrom(s, y, {}) == Resolved(x)
  {
    hide ResolveFrom;
    if q != [] {
      var init, last := q[..|q| - 1], q[|q| - 1];
      assert q == init + [last];
      AllFromContents(s, init);
      assert last in q && forall y :: y in q <==> y in init || y == last;
    }
  }

  /** Without dangling connections these are the resolved connections of the pin. */
  lemma AllFromSound(s: Store, p: PinRef)
    requires s.NodesSound() && s.Anchored()
    ensures (forall x :: x in Connected(s, p) ==> IsPin(s.nodes, x)) && AllFrom(s, Connected(s, p)).Some?
    ensures forall x :: x in AllFrom(s, Connected(s, p)).value <==> ResolvesTo(s.conns, s.Reroutes(), p, x)
  {
    SoundIsFiled(s);
    ConnectedWhole(s, p);
    ConnectedArePins(s, p);
    AllFromContents(s, Connected(s, p));
    forall y | y in Connected(s, p) ensures ResolveFrom(s, y, {}) == AsOutcome(Resolve(s.conns, s.Reroutes(), y, {})) {
      NeighbourIsPin(s, p, y);
      SoundResolution(s, y, {});
    }
    hide ResolveFrom, Resolve, AllFrom, Connected;
  }
}
