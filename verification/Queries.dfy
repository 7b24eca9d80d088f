/**
  What the pin-level queries answer, and what linking and unlinking two pins does, for nodes of any kind.

  A pin stores its connections under its cached index, and is found again by its position.  The two agree
  where hidden pins come last; the lemmas say what holds there and what goes wrong elsewhere.
 */
module Queries {
  import opened Connections
  import opened ConnectionCaches
  import opened Nodes
  import opened Reroutes
  import opened Stores
  import opened KnotMigration

  function PinOf(nodes: map<int, NodeState>, p: PinRef): Pin
    requires IsPin(nodes, p)
  {
    nodes[p.node].Pins(p.dir)[p.port]
  }

  /** The address a pin stores its connections under: its cached index, whatever its position. */
  function Address(nodes: map<int, NodeState>, p: PinRef): PinRef
    requires IsPin(nodes, p)
  {
    PinRef(p.node, p.dir, PinOf(nodes, p).cachedIndex)
  }

  function SourceOf(p: PinRef, q: PinRef): PinRef {
    if p.dir == PD_Output then p else q
  }

  function TargetOf(p: PinRef, q: PinRef): PinRef {
    if p.dir == PD_Output then q else p
  }

  function PinWire(nodes: map<int, NodeState>, source: PinRef, target: PinRef): Connection
    requires IsPin(nodes, source) && IsPin(nodes, target)
  {
    Pack(source.node, Address(nodes, source).port, target.node, Address(nodes, target).port)
  }

  /** The connection that `link` stores for two pins. */
  function Wire(nodes: map<int, NodeState>, p: PinRef, q: PinRef): Connection
    requires IsPin(nodes, p) && IsPin(nodes, q)
  {
    PinWire(nodes, SourceOf(p, q), TargetOf(p, q))
  }

  /** The pins of a list that exist, in order. */
  function Existing(nodes: map<int, NodeState>, q: seq<PinRef>): seq<PinRef> {
    if q == [] then []
    else Existing(nodes, q[..|q| - 1]) + if IsPin(nodes, q[|q| - 1]) then [q[|q| - 1]] else []
  }

  /** `get_connections` of a pin: hidden pins have none, and ends that do not exist are passed over. */
  function Connected(s: Store, p: PinRef): seq<PinRef> {
    if s.HasPin(p) then Existing(s.nodes, Neighbours(s.conns, Address(s.nodes, p))) else []
  }

  /** The connections `unlink_all` finds: those stored for the pin and a pin it is connected to. */
  function Unlinked(s: Store, p: PinRef): set<Connection> {
    if s.HasPin(p) then
      set q | q in Connected(s, p) && IsPin(s.nodes, q) && Wire(s.nodes, p, q) in s.conns :: Wire(s.nodes, p, q)
    else {}
  }

  /** `OScriptNodePin::unlink_all` */
  function UnlinkedAll(s: Store, p: PinRef): Store {
    s.Drop(Unlinked(s, p))
  }

  /** The store once `link` has cleared what a data target and an execution source had. */
  function Cleared(s: Store, source: PinRef, target: PinRef): Store
    requires IsPin(s.nodes, source) && IsPin(s.nodes, target)
  {
    var t := if PinOf(s.nodes, target).IsExecution() then s else UnlinkedAll(s, target);
    if PinOf(s.nodes, source).IsExecution() then UnlinkedAll(t, source) else t
  }

  /** `OScriptNodePin::link` */
  ghost function Linked(s: Store, p: PinRef, q: PinRef): Store
    requires IsPin(s.nodes, p) && IsPin(s.nodes, q)
  {
    var c := Wire(s.nodes, p, q);
    if s.ClosesCycle(c) then s else Cleared(s, SourceOf(p, q), TargetOf(p, q)).Connect(c)
  }

  // ----- Lists of pins -----

  lemma {:induction false} ExistingContents(nodes: map<int, NodeState>, q: seq<PinRef>)
    ensures forall x :: x in Existing(nodes, q) <==> x in q && IsPin(nodes, x)
    ensures |Existing(nodes, q)| <= |q|
    ensures (forall x :: x in q ==> IsPin(nodes, x)) ==> Existing(nodes, q) == q
  {
    if q != [] {
      ExistingContents(nodes, q[..|q| - 1]);
      assert q == q[..|q| - 1] + [q[|q| - 1]];
    }
  }

  /** `q` is connected to `p` exactly when a connection joins the address of `p` to the position `q`. */
  lemma ConnectedContents(s: Store, p: PinRef, q: PinRef)
    ensures q in Connected(s, p) <==>
            s.HasPin(p) && IsPin(s.nodes, q) && exists c :: c in s.conns && Joins(c, Address(s.nodes, p), q)
  {
    if s.HasPin(p) {
      ExistingContents(s.nodes, Neighbours(s.conns, Address(s.nodes, p)));
      NeighboursContents(s.conns, Address(s.nodes, p), q);
    }
  }

  // ----- Where hidden pins come last -----

  /** A visible pin is then its own address. */
  lemma AlignedAddress(s: Store, p: PinRef)
    requires s.Aligned() && s.HasPin(p)
    ensures IsPin(s.nodes, p) && Address(s.nodes, p) == p
  {
    assert s.nodes[p.node].IsAligned();
  }

  /** With no dangling connection every neighbour is there. */
  lemma ConnectedWhole(s: Store, p: PinRef)
    requires s.Aligned() && s.Anchored()
    ensures Connected(s, p) == Neighbours(s.conns, p)
  {
    if s.HasPin(p) {
      AlignedAddress(s, p);
      forall q | q in Neighbours(s.conns, p) ensures IsPin(s.nodes, q) {
        NeighbourIsPin(s, p, q);
      }
      ExistingContents(s.nodes, Neighbours(s.conns, p));
    } else {
      NoNeighbours(s.conns, p);
      forall c | c in s.conns ensures c.End(p.dir) != p {
        assert s.HasPin(c.End(PD_Output)) && s.HasPin(c.End(PD_Input));
      }
    }
  }

  /** Every neighbour is a visible pin on the other side. */
  lemma NeighbourIsPin(s: Store, p: PinRef, q: PinRef)
    requires s.Anchored() && q in Neighbours(s.conns, p)
    ensures s.HasPin(q) && q.dir == p.dir.Opposite()
  {
    NeighboursContents(s.conns, p, q);
    var c :| c in s.conns && Joins(c, p, q);
    assert s.HasPin(c.End(PD_Output)) && s.HasPin(c.End(PD_Input));
  }

  /** Of the two ends of a connection, either both are visible or both are hidden, if they are pins at all. */
  ghost predicate EvenlyHidden(s: Store) {
    forall c :: c in s.conns && IsPin(s.nodes, c.End(PD_Output)) && IsPin(s.nodes, c.End(PD_Input)) ==>
      (s.HasPin(c.End(PD_Output)) <==> s.HasPin(c.End(PD_Input)))
  }

  ghost predicate Symmetric(s: Store) {
    forall p, q :: q in Connected(s, p) ==> p in Connected(s, q)
  }

  /** Being connected is a symmetric relation exactly when no connection joins a visible and a hidden pin. */
  lemma SymmetricIff(s: Store)
    requires s.Aligned()
    ensures Symmetric(s) <==> EvenlyHidden(s)
  {
    if EvenlyHidden(s) {
      forall p, q | q in Connected(s, p) ensures p in Connected(s, q) {
        SymmetricAt(s, p, q);
      }
    } else {
      var c :| c in s.conns && IsPin(s.nodes, c.End(PD_Output)) && IsPin(s.nodes, c.End(PD_Input))
        && s.HasPin(c.End(PD_Output)) != s.HasPin(c.End(PD_Input));
      var dir := if s.HasPin(c.End(PD_Output)) then PD_Output else PD_Input;
      OneSided(s, c, dir);
    }
  }

  lemma SymmetricAt(s: Store, p: PinRef, q: PinRef)
    requires s.Aligned() && EvenlyHidden(s) && q in Connected(s, p)
    ensures p in Connected(s, q)
  {
    ConnectedContents(s, p, q);
    AlignedAddress(s, p);
    var c :| c in s.conns && Joins(c, p, q);
    assert s.HasPin(q);
    AlignedAddress(s, q);
    ConnectedContents(s, q, p);
    assert Joins(c, q, p);
  }

  /** A connection between a visible and a hidden pin is seen from the visible one only. */
  lemma OneSided(s: Store, c: Connection, dir: Direction)
    requires s.Aligned() && c in s.conns
    requires s.HasPin(c.End(dir)) && IsPin(s.nodes, c.End(dir.Opposite())) && !s.HasPin(c.End(dir.Opposite()))
    ensures c.End(dir.Opposite()) in Connected(s, c.End(dir))
    ensures c.End(dir) !in Connected(s, c.End(dir.Opposite()))
  {
    AlignedAddress(s, c.End(dir));
    ConnectedContents(s, c.End(dir), c.End(dir.Opposite()));
    assert Joins(c, c.End(dir), c.End(dir.Opposite()));
  }

  /** With no dangling connection it is symmetric. */
  lemma ConnectedIsSymmetric(s: Store, p: PinRef, q: PinRef)
    requires s.Aligned() && s.Anchored()
    ensures q in Connected(s, p) <==> p in Connected(s, q)
  {
    forall c | c in s.conns ensures s.HasPin(c.End(PD_Output)) && s.HasPin(c.End(PD_Input)) {
    }
    SymmetricIff(s);
    assert q in Connected(s, p) ==> p in Connected(s, q);
    assert p in Connected(s, q) ==> q in Connected(s, p);
  }

  /** The cardinality rule limits the wires at the pin: it is no execution input and no data output. */
  ghost predicate Limits(s: Store, p: PinRef) {
    (p.dir == PD_Input) != s.IsExecutionPin(p)
  }

  /** The cardinality rule, by pins. */
  lemma CardinalityByPins(s: Store)
    ensures s.Cardinality() <==>
            forall c, d, dir :: c in s.conns && d in s.conns && c.End(dir) == d.End(dir) && Limits(s, c.End(dir)) ==>
              c == d
  {
    hide Store.IsExecutionPin;
    if s.Cardinality() {
      forall c, d, dir | c in s.conns && d in s.conns && c.End(dir) == d.End(dir) && Limits(s, c.End(dir))
        ensures c == d
      {
        assert dir == PD_Input || dir == PD_Output;
      }
    }
  }

  /** A pin the cardinality rule limits to one wire. */
  predicate IsSingle(s: Store, p: PinRef) {
    s.HasPin(p) && (if p.dir == PD_Input then !s.IsExecutionPin(p) else s.IsExecutionPin(p))
  }

  lemma SingleIsUnique(s: Store, p: PinRef, x: PinRef, y: PinRef)
    requires s.Cardinality() && IsSingle(s, p) && x in Neighbours(s.conns, p) && y in Neighbours(s.conns, p)
    ensures x == y
  {
    NeighboursContents(s.conns, p, x);
    NeighboursContents(s.conns, p, y);
    var c :| c in s.conns && Joins(c, p, x);
    var d :| d in s.conns && Joins(d, p, y);
  }

  /** Under the cardinality rule a connected data input or execution output has exactly one connection. */
  lemma SingleHasOne(s: Store, p: PinRef)
    requires s.Aligned() && s.Cardinality() && IsSingle(s, p)
    ensures |Connected(s, p)| <= 1
  {
    var r := Neighbours(s.conns, p);
    AlignedAddress(s, p);
    ExistingContents(s.nodes, r);
    NeighboursOrdered(s.conns, p);
    assert |r| > 1 ==> PortThenNode(r[0], r[1]);
    if |r| > 1 {
      SingleIsUnique(s, p, r[0], r[1]);
    }
  }

  /** The wire between two pins of opposite directions that are their own addresses. */
  function WireOf(p: PinRef, q: PinRef): Connection
    requires Addressable(p) && Addressable(q) && p.dir != q.dir
  {
    if p.dir == PD_Output then Connection(p.node, p.port, q.node, q.port)
      else Connection(q.node, q.port, p.node, p.port)
  }

  /** In an aligned store the wire between two visible pins joins their positions. */
  lemma AlignedWire(s: Store, p: PinRef, q: PinRef)
    requires s.NodesFiled() && s.Aligned() && s.HasPin(p) && s.HasPin(q) && p.dir != q.dir
    ensures Addressable(p) && Addressable(q) && Wire(s.nodes, p, q) == WireOf(p, q)
  {
    hide *;
    AlignedAddress(s, p);
    AlignedAddress(s, q);
    PinAddress(s, p);
    PinAddress(s, q);
    WireFits(s, p, q);
  }

  lemma WireFits(s: Store, p: PinRef, q: PinRef)
    requires IsPin(s.nodes, p) && IsPin(s.nodes, q) && p.dir != q.dir
    requires Address(s.nodes, p) == p && Address(s.nodes, q) == q && Addressable(p) && Addressable(q)
    ensures Wire(s.nodes, p, q) == WireOf(p, q)
  {
    hide PinOf;
  }

  /** There `unlink_all` takes exactly the wires at the pin. */
  lemma UnlinkedIsAll(s: Store, p: PinRef)
    requires s.Inv()
    ensures Unlinked(s, p) == s.WiresAt(p) && UnlinkedAll(s, p) == s.UnlinkAll(p)
  {
    hide Store.Partitioned, Store.GraphsSound, Store.FunctionsSound, NodeState.IsCached, NodeState.IsAligned,
         NodeState.Sound, Wire, Connected;
    InvIs(s);
    SoundIsFiled(s);
    forall c | c in s.WiresAt(p) ensures c in Unlinked(s, p) {
      TakenFromPin(s, p, c);
    }
    forall c | c in Unlinked(s, p) ensures c in s.WiresAt(p) {
      var q :| q in Connected(s, p) && IsPin(s.nodes, q) && c == Wire(s.nodes, p, q);
      FoundAtPin(s, p, q);
    }
  }

  lemma TakenFromPin(s: Store, p: PinRef, c: Connection)
    requires s.NodesFiled() && s.Aligned() && s.Anchored() && c in s.WiresAt(p)
    ensures c in Unlinked(s, p)
  {
    assert s.HasPin(c.End(PD_Output)) && s.HasPin(c.End(PD_Input));
    var q := c.End(p.dir.Opposite());
    AlignedWire(s, p, q);
    ConnectedContents(s, p, q);
    AlignedAddress(s, p);
    hide Address, Connected, Wire, Store.HasPin, Store.Anchored, Store.NodesFiled, Store.Aligned;
    assert Joins(c, p, q);
  }

  lemma FoundAtPin(s: Store, p: PinRef, q: PinRef)
    requires s.NodesFiled() && s.Aligned() && s.Anchored() && q in Connected(s, p) && IsPin(s.nodes, q)
    ensures IsPin(s.nodes, p) && Wire(s.nodes, p, q) in s.WiresAt(p)
  {
    ConnectedContents(s, p, q);
    AlignedAddress(s, p);
    var d :| d in s.conns && Joins(d, p, q);
    assert s.HasPin(d.End(PD_Output)) && s.HasPin(d.End(PD_Input));
    AlignedWire(s, p, q);
  }

  /** Clearing in two steps takes what `link` displaces. */
  lemma ClearedIsDisplaced(s: Store, c: Connection)
    requires s.Inv() && s.HasPin(c.End(PD_Output)) && s.HasPin(c.End(PD_Input))
    ensures IsPin(s.nodes, c.End(PD_Output)) && IsPin(s.nodes, c.End(PD_Input))
    ensures Cleared(s, c.End(PD_Output), c.End(PD_Input)) == s.Drop(s.Displaced(c))
  {
    var source, target := c.End(PD_Output), c.End(PD_Input);
    var t := if s.PinAt(target).IsExecution() then s else s.UnlinkAll(target);
    var u := if s.PinAt(source).IsExecution() then t.UnlinkAll(source) else t;
    UnlinkedIsAll(s, target);
    DropKeepsInv(s, s.WiresAt(target));
    UnlinkedIsAll(t, source);
    DisplacedInSteps(s, c);
    DropKeepsNodes(s, s.WiresAt(target));
    hide Store.Inv, Unlinked, UnlinkedAll, Store.Drop, Store.UnlinkAll, Store.Displaced, Store.HasPin;
  }

  /** The two steps in which `link` clears wires. */
  lemma DisplacedInSteps(s: Store, c: Connection)
    requires s.HasPin(c.End(PD_Output)) && s.HasPin(c.End(PD_Input))
    ensures var source, target := c.End(PD_Output), c.End(PD_Input);
            var t := if s.PinAt(target).IsExecution() then s else s.UnlinkAll(target);
            s.Drop(s.Displaced(c)) == if s.PinAt(source).IsExecution() then t.UnlinkAll(source) else t
  {
    var source, target := c.End(PD_Output), c.End(PD_Input);
    var atTarget := if s.PinAt(target).IsExecution() then {} else s.WiresAt(target);
    var t := s.Drop(atTarget);
    DropNothing(s);
    DropTwice(s, atTarget, t.WiresAt(source));
    DropTwice(s, atTarget, {});
    DropKeepsNodes(s, atTarget);
    hide Store.Drop;
    assert atTarget + t.WiresAt(source) == atTarget + s.WiresAt(source);
    assert atTarget + {} == atTarget;
  }

  /** And linking two pins is linking their positions. */
  lemma LinkedIsLink(s: Store, p: PinRef, q: PinRef)
    requires s.Inv() && s.HasPin(p) && s.HasPin(q) && p.dir != q.dir
    ensures IsPin(s.nodes, p) && IsPin(s.nodes, q) && Addressable(p) && Addressable(q)
    ensures Wire(s.nodes, p, q) == WireOf(p, q)
    ensures Linked(s, p, q) == s.Link(WireOf(p, q))
  {
    InvIs(s);
    SoundIsFiled(s);
    AlignedWire(s, p, q);
    ClearedIsDisplaced(s, WireOf(p, q));
    hide Store.Inv, Cleared, Wire, Store.Drop, Store.Displaced, Store.NodesFiled, Store.Aligned, Store.Anchored;
  }

  lemma DropTwice(s: Store, a: set<Connection>, b: set<Connection>)
    ensures s.Drop(a).Drop(b) == s.Drop(a + b)
  {
    assert s.Drop(a).Drop(b).conns == s.Drop(a + b).conns;
    forall g | g in s.graphs ensures s.graphs[g].DropKnots(a).DropKnots(b) == s.graphs[g].DropKnots(a + b) {
      assert s.graphs[g].knots - a - b == s.graphs[g].knots - (a + b);
    }
    assert s.Drop(a).Drop(b).graphs == s.Drop(a + b).graphs;
  }

  lemma DropNothing(s: Store)
    ensures s.Drop({}) == s
  {
    forall g | g in s.graphs ensures s.graphs[g].DropKnots({}) == s.graphs[g] {
      assert s.graphs[g].knots - {} == s.graphs[g].knots;
    }
    assert s.Drop({}).graphs == s.graphs;
  }

  lemma DropKeepsNodes(s: Store, d: set<Connection>)
    ensures s.Drop(d).nodes == s.nodes && s.Drop(d).conns == s.conns - d && s.Drop(d).functions == s.functions
  {
  }

  // ----- Steps of the loops -----

  lemma PinAddress(s: Store, p: PinRef)
    requires s.NodesFiled() && s.HasPin(p)
    ensures Addressable(Address(s.nodes, p)) && Addressable(p)
  {
    assert s.nodes[p.node].IsCached();
    CachedIndexFits(s.nodes[p.node].Pins(p.dir), p.port);
  }

  lemma ConnectedArePins(s: Store, p: PinRef)
    ensures forall q :: q in Connected(s, p) ==> IsPin(s.nodes, q)
  {
    forall q | q in Connected(s, p) ensures IsPin(s.nodes, q) {
      ConnectedContents(s, p, q);
    }
  }

  /** The wires stored for a pin and the pins of a list, as far as they are there. */
  function WiresTo(s: Store, p: PinRef, q: seq<PinRef>): set<Connection>
    requires IsPin(s.nodes, p)
  {
    set x | x in q && IsPin(s.nodes, x) && Wire(s.nodes, p, x) in s.conns :: Wire(s.nodes, p, x)
  }

  /** Disconnecting one more wire, whether it is there, gone already, or was never there. */
  lemma WiresToStep(s: Store, p: PinRef, q: seq<PinRef>, i: nat)
    requires IsPin(s.nodes, p) && i < |q| && IsPin(s.nodes, q[i])
    ensures s.Drop(WiresTo(s, p, q[..i])).Disconnect(Wire(s.nodes, p, q[i])) == s.Drop(WiresTo(s, p, q[..i + 1]))
  {
    var w, c := WiresTo(s, p, q[..i]), Wire(s.nodes, p, q[i]);
    assert q[..i + 1] == q[..i] + [q[i]];
    hide Wire, Store.Drop;
    assert WiresTo(s, p, q[..i + 1]) == if c in s.conns then w + {c} else w;
    DropKeepsNodes(s, w);
    DropTwice(s, w, {c});
    if c in w {
      assert w + {c} == w;
    }
  }

  lemma WiresToEnds(s: Store, p: PinRef)
    requires s.HasPin(p)
    ensures s.Drop(WiresTo(s, p, [])) == s && WiresTo(s, p, Connected(s, p)) == Unlinked(s, p)
  {
    DropNothing(s);
    assert WiresTo(s, p, []) == {};
  }

  lemma UnlinkedNothing(s: Store, p: PinRef)
    requires !s.HasPin(p)
    ensures UnlinkedAll(s, p) == s
  {
    DropNothing(s);
  }

  /** Everything `unlink_all` takes is at the pin's node. */
  lemma UnlinkedAreAtNode(s: Store, p: PinRef)
    requires s.NodesFiled()
    ensures Unlinked(s, p) <= s.conns && forall c :: c in Unlinked(s, p) ==> c.IsLinkedTo(p.node)
  {
    hide Store.NodesFiled, Wire, Connected;
    forall c | c in Unlinked(s, p) ensures c in s.conns && c.IsLinkedTo(p.node) {
      var q :| q in Connected(s, p) && IsPin(s.nodes, q) && c == Wire(s.nodes, p, q);
      WireNodes(s, p, q);
    }
  }

  lemma UnlinkedKeepsTidy(s: Store, p: PinRef)
    requires s.Tidy()
    ensures UnlinkedAll(s, p).Tidy() && UnlinkedAll(s, p).nodes == s.nodes
  {
    DropKeepsTidy(s, Unlinked(s, p));
    DropKeepsNodes(s, Unlinked(s, p));
  }

  lemma ClearedKeepsTidy(s: Store, source: PinRef, target: PinRef)
    requires s.Tidy() && IsPin(s.nodes, source) && IsPin(s.nodes, target)
    ensures Cleared(s, source, target).Tidy() && Cleared(s, source, target).nodes == s.nodes
    ensures Cleared(s, source, target).conns <= s.conns
  {
    hide UnlinkedAll;
    UnlinkedKeepsTidy(s, target);
    UnlinkedShrinks(s, target);
    var t := if PinOf(s.nodes, target).IsExecution() then s else UnlinkedAll(s, target);
    UnlinkedKeepsTidy(t, source);
    UnlinkedShrinks(t, source);
  }

  lemma UnlinkedShrinks(s: Store, p: PinRef)
    ensures UnlinkedAll(s, p).conns <= s.conns && UnlinkedAll(s, p).nodes == s.nodes
  {
    DropKeepsNodes(s, Unlinked(s, p));
  }

  /** With fewer wires no more cycles would close. */
  lemma FewerClosesLess(s: Store, t: Store, c: Connection)
    requires t.conns <= s.conns && t.nodes == s.nodes && t.ClosesCycle(c)
    ensures s.ClosesCycle(c)
  {
    ReachesMonotone(t.conns, s.conns, s.Reroutes(), c.toNode, c.fromNode);
    assert t.Reroutes() == s.Reroutes();
  }

  lemma PinWireParts(s: Store, source: PinRef, target: PinRef)
    requires s.NodesFiled() && IsPin(s.nodes, source) && IsPin(s.nodes, target)
    ensures var c := PinWire(s.nodes, source, target);
            && s.nodes[source.node].id == source.node == c.fromNode
            && s.nodes[target.node].id == target.node == c.toNode
            && c == Pack(source.node, s.nodes[source.node].Pins(source.dir)[source.port].cachedIndex,
                         target.node, s.nodes[target.node].Pins(target.dir)[target.port].cachedIndex)
  {
    assert 0 <= source.node < NODE_LIMIT && 0 <= target.node < NODE_LIMIT;
    hide Store.NodesFiled, NodeState.Pins;
    PackNodes(source.node, PinOf(s.nodes, source).cachedIndex, target.node, PinOf(s.nodes, target).cachedIndex);
    hide Pack;
  }

  lemma PackNodes(source: int, sourcePort: int, target: int, targetPort: int)
    requires 0 <= source < NODE_LIMIT && 0 <= target < NODE_LIMIT
    ensures var c := Pack(source, sourcePort, target, targetPort);
            && c.fromNode == source && c.toNode == target
            && c.fromPort == sourcePort % PORT_LIMIT && c.toPort == targetPort % PORT_LIMIT
  {
  }

  lemma WireNodes(s: Store, p: PinRef, q: PinRef)
    requires s.NodesFiled() && IsPin(s.nodes, p) && IsPin(s.nodes, q)
    ensures Wire(s.nodes, p, q).fromNode == SourceOf(p, q).node && Wire(s.nodes, p, q).toNode == TargetOf(p, q).node
  {
    PinWireParts(s, SourceOf(p, q), TargetOf(p, q));
    hide PinWire, Store.NodesFiled;
  }

  /** Linking any two pins keeps what holds whatever pins the nodes have. */
  lemma LinkedKeepsTidy(s: Store, p: PinRef, q: PinRef)
    requires s.Tidy() && IsPin(s.nodes, p) && IsPin(s.nodes, q)
    ensures Linked(s, p, q).Tidy() && Linked(s, p, q).nodes == s.nodes
  {
    var c := Wire(s.nodes, p, q);
    WireNodes(s, p, q);
    ClearedKeepsTidy(s, SourceOf(p, q), TargetOf(p, q));
    hide Cleared, Wire, Store.Tidy;
    if !s.ClosesCycle(c) {
      ConnectKeepsTidy(Cleared(s, SourceOf(p, q), TargetOf(p, q)), c);
    }
  }

  // ----- Facts for the methods -----

  lemma UnlinkedMeans(s: Store, p: PinRef)
    requires s.HasPin(p)
    ensures IsPin(s.nodes, p) && UnlinkedAll(s, p) == s.Drop(Unlinked(s, p))
  {
  }

  lemma DropKeepsParts(s: Store, d: set<Connection>)
    ensures s.Drop(d).nodes == s.nodes && s.Drop(d).conns == s.conns - d && s.Drop(d).functions == s.functions
    ensures s.NodesFiled() ==> s.Drop(d).NodesFiled()
    ensures s.GraphsSound() ==> s.Drop(d).GraphsSound()
  {
    if s.GraphsSound() {
      forall g | g in s.Drop(d).graphs ensures s.Drop(d).GraphSound(g) {
        assert s.GraphSound(g);
      }
    }
  }

  lemma HiddenHasNone(s: Store, p: PinRef)
    requires IsPin(s.nodes, p)
    ensures p.node in s.nodes && 0 <= p.port < |s.nodes[p.node].Pins(p.dir)|
    ensures s.HasPin(p) <==> !s.nodes[p.node].Pins(p.dir)[p.port].IsHidden()
  {
  }

  lemma ClearedInSteps(s: Store, source: PinRef, target: PinRef)
    requires s.Tidy() && IsPin(s.nodes, source) && IsPin(s.nodes, target)
    ensures var t := if s.nodes[target.node].Pins(target.dir)[target.port].IsExecution() then s
            else UnlinkedAll(s, target);
            && t.Tidy() && t.nodes == s.nodes
            && Cleared(s, source, target)
               == if s.nodes[source.node].Pins(source.dir)[source.port].IsExecution() then UnlinkedAll(t, source) else t
  {
    UnlinkedKeepsTidy(s, target);
    hide UnlinkedAll, Store.Tidy;
  }

  lemma LinkEnds(s: Store, p: PinRef, q: PinRef)
    requires s.NodesFiled() && IsPin(s.nodes, p) && IsPin(s.nodes, q)
    ensures var source, target := SourceOf(p, q), TargetOf(p, q);
            && IsPin(s.nodes, source) && IsPin(s.nodes, target) && p.node in s.nodes
            && (Linked(s, p, q) ==
                if target.node in s.Reroutes() && source.node in s.Reroutes()
                   && Reaches(s.conns, s.Reroutes(), target.node, source.node)
                then s
                else Cleared(s, source, target).Connect(PinWire(s.nodes, source, target)))
  {
    WireNodes(s, p, q);
    hide Cleared, Store.Connect, PinWire, Store.NodesFiled, Store.Reroutes;
  }

  lemma ReroutesAre(s: Store)
    ensures s.Reroutes() == set id | id in s.nodes && s.nodes[id].IsReroute()
  {
  }

  /** While the partition holds, `link` always finds the graph of its node. */
  lemma OwnerIsFound(s: Store, t: Store, p: PinRef)
    requires s.Tidy() && t.Tidy() && IsPin(s.nodes, p) && t.nodes == s.nodes
    ensures t.Partitioned() && t.NodesFiled() && p.node in t.nodes
  {
  }
}
