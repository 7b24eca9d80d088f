/**
  What goes wrong at a pin that a hidden pin precedes: its connections are stored under an index that is
  not its position, so they are found from its own side only.
 */
module HiddenPins {
  import opened Connections
  import opened ConnectionCaches
  import opened Nodes
  import opened Reroutes
  import opened Stores
  import opened Queries

  /** The far end of a connection is a pin stored under its own position. */
  predicate FoundBack(s: Store, far: PinRef) {
    IsPin(s.nodes, far) && Address(s.nodes, far).port % PORT_LIMIT == far.port
  }

  // ----- In general -----

  /**
    A connection of pin `p` is found from `p`.  From a pin `q` that is its own address, `p` is found only by
    a connection stored for the position of `p`.
   */
  lemma FoundFromItsOwnSide(s: Store, p: PinRef, q: PinRef)
    requires s.NodesFiled() && s.HasPin(p) && s.HasPin(q) && p.dir != q.dir
    requires Address(s.nodes, q) == q && Wire(s.nodes, p, q) in s.conns
    ensures q in Connected(s, p) && Wire(s.nodes, p, q) in Unlinked(s, p)
    ensures Addressable(p) && Addressable(q) && (p in Connected(s, q) <==> WireOf(p, q) in s.conns)
  {
    PinAddress(s, p);
    PinAddress(s, q);
    ConnectedContents(s, p, q);
    ConnectedContents(s, q, p);
    WireAtAddress(s, p, q);
    assert Joins(Wire(s.nodes, p, q), Address(s.nodes, p), q);
    forall c | c in s.conns && Joins(c, q, p) ensures c == WireOf(p, q) {
    }
    assert Joins(WireOf(p, q), q, p);
  }

  /** The wire stored for two pins ends at the addresses of both, in 8 bits. */
  lemma WireEnds(s: Store, q: PinRef, x: PinRef)
    requires s.NodesFiled() && s.HasPin(q) && IsPin(s.nodes, q) && IsPin(s.nodes, x) && x.dir == q.dir.Opposite()
    ensures Wire(s.nodes, q, x).End(q.dir) == Address(s.nodes, q)
    ensures Wire(s.nodes, q, x).End(q.dir.Opposite()) == PinRef(x.node, x.dir, Address(s.nodes, x).port % PORT_LIMIT)
  {
    assert (q.dir == PD_Output && x.dir == PD_Input) || (q.dir == PD_Input && x.dir == PD_Output);
    assert q.dir.Opposite() == x.dir;
    hide *;
    PinAddress(s, q);
    VisibleAddress(s, q);
    if q.dir == PD_Output {
      WireFromSource(s, q, x);
    } else {
      WireFromSource(s, x, q);
    }
  }

  lemma VisibleAddress(s: Store, q: PinRef)
    requires s.NodesFiled() && s.HasPin(q) && IsPin(s.nodes, q) && Addressable(Address(s.nodes, q))
    ensures Address(s.nodes, q) == PinRef(q.node, q.dir, Address(s.nodes, q).port % PORT_LIMIT)
  {
    hide Store.NodesFiled, Store.HasPin, PinOf;
  }

  lemma WireFromSource(s: Store, source: PinRef, target: PinRef)
    requires s.NodesFiled() && IsPin(s.nodes, source) && IsPin(s.nodes, target)
    requires source.dir == PD_Output && target.dir == PD_Input
    ensures Wire(s.nodes, source, target) == Wire(s.nodes, target, source)
    ensures var c := Wire(s.nodes, source, target);
            && c.End(PD_Output) == PinRef(source.node, PD_Output, Address(s.nodes, source).port % PORT_LIMIT)
            && c.End(PD_Input) == PinRef(target.node, PD_Input, Address(s.nodes, target).port % PORT_LIMIT)
  {
    PinWireParts(s, source, target);
    PackNodes(source.node, Address(s.nodes, source).port, target.node, Address(s.nodes, target).port);
    hide Pack, Store.NodesFiled;
  }

  lemma WireAtAddress(s: Store, p: PinRef, q: PinRef)
    requires s.NodesFiled() && IsPin(s.nodes, p) && s.HasPin(q) && p.dir != q.dir && Address(s.nodes, q) == q
    ensures Wire(s.nodes, p, q).End(q.dir) == q && Wire(s.nodes, q, p) == Wire(s.nodes, p, q)
    ensures Wire(s.nodes, p, q).End(p.dir) == PinRef(p.node, p.dir, Address(s.nodes, p).port % PORT_LIMIT)
    ensures s.HasPin(p) ==> Wire(s.nodes, p, q).End(p.dir) == Address(s.nodes, p)
  {
    WireEnds(s, q, p);
    if s.HasPin(p) {
      WireEnds(s, p, q);
    }
    hide Address, PinWire, Store.NodesFiled, Store.HasPin;
  }

  lemma EndsDecide(c: Connection, d: Connection, dir: Direction)
    ensures c == d <==> c.End(dir) == d.End(dir) && c.End(dir.Opposite()) == d.End(dir.Opposite())
  {
  }

  /** The wires stored for a visible pin. */
  function WiresOfPin(s: Store, q: PinRef): set<Connection>
    requires IsPin(s.nodes, q)
  {
    s.WiresAt(Address(s.nodes, q))
  }

  /** At position `x` there is a pin that is stored under position `y`. */
  predicate StoredUnder(s: Store, x: PinRef, y: PinRef) {
    IsPin(s.nodes, x) && x.node == y.node && Address(s.nodes, x).port % PORT_LIMIT == y.port
  }

  /** Some wire of the pin ends at a pin that is stored where `c` ends. */
  predicate FoundFrom(s: Store, q: PinRef, c: Connection)
    requires IsPin(s.nodes, q)
  {
    exists d :: d in WiresOfPin(s, q) && StoredUnder(s, d.End(q.dir.Opposite()), c.End(q.dir.Opposite()))
  }

  /** A visible pin is connected to the pins at the far ends of its wires. */
  lemma ConnectedFar(s: Store, q: PinRef, x: PinRef)
    requires s.HasPin(q) && IsPin(s.nodes, q)
    ensures x in Connected(s, q) <==>
            IsPin(s.nodes, x) && exists d :: d in WiresOfPin(s, q) && d.End(q.dir.Opposite()) == x
  {
    ConnectedContents(s, q, x);
    var a := Address(s.nodes, q);
    assert forall d :: Joins(d, a, x) <==> d.End(q.dir) == a && d.End(q.dir.Opposite()) == x;
    hide Address, Joins, Connected;
    if d :| d in s.conns && Joins(d, a, x) {
      assert d in WiresOfPin(s, q);
    }
    if d :| d in WiresOfPin(s, q) && d.End(q.dir.Opposite()) == x {
      assert Joins(d, a, x);
    }
  }

  /** Of the wires of a visible pin, `unlink_all` takes exactly those that are found from it. */
  lemma UnlinkedIff(s: Store, q: PinRef, c: Connection)
    requires s.NodesFiled() && s.HasPin(q)
    ensures IsPin(s.nodes, q) && (c in Unlinked(s, q) <==> c in WiresOfPin(s, q) && FoundFrom(s, q, c))
  {
    var opp := q.dir.Opposite();
    hide Wire, Address, Connected, Store.NodesFiled, Store.HasPin, StoredUnder;
    assert IsPin(s.nodes, q) by {
      VisibleIsPin(s, q);
    }
    if c in Unlinked(s, q) {
      var x :| x in Connected(s, q) && IsPin(s.nodes, x) && Wire(s.nodes, q, x) in s.conns && c == Wire(s.nodes, q, x);
      ConnectedFar(s, q, x);
      var d :| d in WiresOfPin(s, q) && d.End(opp) == x;
      WireEnds(s, q, x);
      StoredUnderIs(s, x, c.End(opp));
    }
    if c in WiresOfPin(s, q) && FoundFrom(s, q, c) {
      var d :| d in WiresOfPin(s, q) && StoredUnder(s, d.End(opp), c.End(opp));
      var x := d.End(opp);
      StoredUnderIs(s, x, c.End(opp));
      ConnectedFar(s, q, x);
      WireEnds(s, q, x);
      EndsDecide(c, Wire(s.nodes, q, x), q.dir);
    }
  }

  lemma StoredUnderIs(s: Store, x: PinRef, y: PinRef)
    ensures StoredUnder(s, x, y) <==>
            IsPin(s.nodes, x) && x.node == y.node && Address(s.nodes, x).port % PORT_LIMIT == y.port
  {
  }

  lemma VisibleIsPin(s: Store, q: PinRef)
    requires s.HasPin(q)
    ensures IsPin(s.nodes, q)
  {
  }

  /** So it takes all of them exactly when every one is found. */
  lemma AllTakenIff(s: Store, q: PinRef)
    requires s.NodesFiled() && s.HasPin(q)
    ensures IsPin(s.nodes, q)
    ensures Unlinked(s, q) == WiresOfPin(s, q) <==> forall c :: c in WiresOfPin(s, q) ==> FoundFrom(s, q, c)
  {
    VisibleIsPin(s, q);
    hide Unlinked, FoundFrom, Store.NodesFiled, Store.HasPin, WiresOfPin;
    forall c ensures c in Unlinked(s, q) <==> c in WiresOfPin(s, q) && FoundFrom(s, q, c) {
      UnlinkedIff(s, q, c);
    }
  }

  /** The only wire of a pin, exactly when the pin at its other end is found back. */
  lemma OnlyWireTaken(s: Store, q: PinRef, c: Connection)
    requires s.NodesFiled() && s.HasPin(q) && IsPin(s.nodes, q) && WiresOfPin(s, q) == {c}
    ensures Unlinked(s, q) == if FoundBack(s, c.End(q.dir.Opposite())) then {c} else {}
  {
    assert c in WiresOfPin(s, q);
    hide Unlinked, Store.NodesFiled, Store.HasPin, WiresOfPin, Address;
    assert FoundFrom(s, q, c) <==> FoundBack(s, c.End(q.dir.Opposite()));
    forall d ensures d in Unlinked(s, q) <==> d == c && FoundBack(s, c.End(q.dir.Opposite())) {
      UnlinkedIff(s, q, d);
    }
  }

  /**
    Linking a second source to a data input clears exactly the old wires that are found from the input.  If
    one is left that is not the new one, two wires meet there, and the cardinality rule is broken.
   */
  lemma SecondLink(s: Store, p: PinRef, q: PinRef)
    requires s.NodesFiled() && s.HasPin(p) && s.HasPin(q) && p.dir == PD_Output && q.dir == PD_Input
    requires IsPin(s.nodes, p) && IsPin(s.nodes, q)
    requires !PinOf(s.nodes, p).IsExecution() && !PinOf(s.nodes, q).IsExecution()
    requires !s.ClosesCycle(Wire(s.nodes, p, q))
    ensures var t, w := Linked(s, p, q), Wire(s.nodes, p, q);
            && w in t.conns
            && (forall c :: c in WiresOfPin(s, q) && c != w ==> (c in t.conns <==> !FoundFrom(s, q, c)))
            && ((exists c :: c in WiresOfPin(s, q) && c != w && !FoundFrom(s, q, c)) ==>
                  t.IsExecutionPin(Address(s.nodes, q)) || !t.Cardinality())
  {
    var t, w := Linked(s, p, q), Wire(s.nodes, p, q);
    WireEnds(s, q, p);
    assert Wire(s.nodes, q, p) == w;
    DropNothing(s);
    var u := UnlinkedAll(s, q);
    DropKeepsNodes(s, Unlinked(s, q));
    hide Wire, Unlinked, Address, Store.Drop, Store.ClosesCycle, FoundFrom, Store.NodesFiled;
    assert t == u.Connect(w);
    if u.ClosesCycle(w) {
      FewerClosesLess(s, u, w);
    }
    ConnectParts(u, w);
    forall c | c in WiresOfPin(s, q) && c != w ensures c in t.conns <==> !FoundFrom(s, q, c) {
      UnlinkedIff(s, q, c);
    }
    if c :| c in WiresOfPin(s, q) && c != w && !FoundFrom(s, q, c) {
      assert c in t.conns && c.End(PD_Input) == w.End(PD_Input) == Address(s.nodes, q);
    }
  }

  // ----- The node that shows it -----

  /** A dialogue message with one choice: four hidden outputs come before the visible one. */
  function DialogueMessage(id: int): NodeState {
    NodeState(id, Plain,
              [CreatedPin(Named("ExecIn"), PD_Input, EXECUTION), CreatedPin(Named("name"), PD_Input, DATA),
               CreatedPin(Named("text"), PD_Input, DATA),
               CreatedPin(Named("scene"), PD_Input, DATA), CreatedPin(Named("choice_0"), PD_Input, DATA)],
              [CreatedPin(Named("temp_0"), PD_Output, EXECUTION + HIDDEN),
               CreatedPin(Named("temp_1"), PD_Output, EXECUTION + HIDDEN),
               CreatedPin(Named("temp_2"), PD_Output, EXECUTION + HIDDEN),
               CreatedPin(Named("temp_3"), PD_Output, EXECUTION + HIDDEN),
               CreatedPin(Named("choice_0_out"), PD_Output, EXECUTION)])
  }

  lemma FlagsOf(name: string, dir: Direction)
    ensures CreatedPin(Named(name), dir, EXECUTION + HIDDEN).IsHidden()
            && CreatedPin(Named(name), dir, EXECUTION + HIDDEN).IsExecution()
    ensures !CreatedPin(Named(name), dir, EXECUTION).IsHidden() && CreatedPin(Named(name), dir, EXECUTION).IsExecution()
    ensures !CreatedPin(Named(name), dir, DATA).IsHidden() && !CreatedPin(Named(name), dir, DATA).IsExecution()
  {
  }

  /** The choice is the fifth output and the first visible one, so its index is 0 and not 4. */
  lemma DialogueIsMisaligned(id: int)
    ensures var n := DialogueMessage(id).Cache();
            && n.IsCached() && !n.IsAligned() && !n.Sound()
            && n.id == id && n.HasVisiblePin(PD_Output, 4) && n.outputs[4].cachedIndex == 0
            && n.outputs[0].IsHidden() && n.outputs[0].cachedIndex == -1
  {
    var n := DialogueMessage(id);
    CacheIsCached(n);
    FlagsOf("choice_0_out", PD_Output);
    FourHidden(n.outputs);
    assert !WellIndexed(n.Cache().outputs) by {
      assert n.Cache().outputs[4].cachedIndex == 0;
    }
  }

  lemma FourHidden(pins: seq<Pin>)
    requires |pins| > 4 && pins[0].IsHidden() && pins[1].IsHidden() && pins[2].IsHidden() && pins[3].IsHidden()
    ensures VisibleBefore(pins, 4) == 0
  {
    assert VisibleBefore(pins, 1) == 0;
    assert VisibleBefore(pins, 2) == 0;
  }

  /** A node with one execution input. */
  function Follower(id: int): NodeState {
    NodeState(id, Plain, [CreatedPin(Named("ExecIn"), PD_Input, EXECUTION)], []).Cache()
  }

  lemma FollowerIsSound(id: int)
    ensures var n := Follower(id);
            n.IsCached() && n.id == id && n.HasVisiblePin(PD_Input, 0) && n.inputs[0].cachedIndex == 0
  {
    var n := NodeState(id, Plain, [CreatedPin(Named("ExecIn"), PD_Input, EXECUTION)], []);
    CacheIsCached(n);
    FlagsOf("ExecIn", PD_Input);
    assert VisibleBefore(n.inputs, 0) == 0;
  }

  /** The dialogue's choice leads to an input of another node, as `link` stores it. */
  function DialogueStore(): Store {
    Store({Connection(0, 0, 1, 0)}, map[0 := DialogueMessage(0).Cache(), 1 := Follower(1)],
          map["EventGraph" := GraphState("EventGraph", false, true, {0, 1}, {}, map[])], map[])
  }

  lemma DialogueNodes()
    ensures var s := DialogueStore();
            && s.NodesFiled() && !s.NodesSound()
            && s.HasPin(PinRef(0, PD_Output, 4)) && Address(s.nodes, PinRef(0, PD_Output, 4)) == PinRef(0, PD_Output, 0)
            && IsPin(s.nodes, PinRef(0, PD_Output, 0)) && !s.HasPin(PinRef(0, PD_Output, 0))
            && Address(s.nodes, PinRef(0, PD_Output, 0)).port == -1
            && s.HasPin(PinRef(1, PD_Input, 0)) && Address(s.nodes, PinRef(1, PD_Input, 0)) == PinRef(1, PD_Input, 0)
  {
    DialogueIsMisaligned(0);
    FollowerIsSound(1);
    hide DialogueMessage, NodeState.Cache, NodeState.IsCached, NodeState.Sound, Follower, NodeState.IsAligned;
    assert 0 in DialogueStore().nodes && !DialogueStore().nodes[0].Sound();
  }

  lemma DialogueTidy()
    ensures DialogueStore().Tidy() && !DialogueStore().Inv()
  {
    var s := DialogueStore();
    DialogueNodes();
    hide DialogueMessage, NodeState.Cache, Follower, Store.NodesFiled, Store.NodesSound;
    assert s.Holds("EventGraph", 0) && s.Holds("EventGraph", 1);
    assert s.GraphSound("EventGraph");
  }

  lemma DialogueWire()
    ensures var s, choice, target := DialogueStore(), PinRef(0, PD_Output, 4), PinRef(1, PD_Input, 0);
            && s.HasPin(choice) && s.HasPin(target) && Wire(s.nodes, choice, target) == Connection(0, 0, 1, 0)
            && s.conns == {Connection(0, 0, 1, 0)} && s.WiresAt(target) == {Connection(0, 0, 1, 0)}
            && !FoundBack(s, PinRef(0, PD_Output, 0)) && s.NodesFiled()
            && Address(s.nodes, target) == target
  {
    DialogueNodes();
    hide DialogueMessage, NodeState.Cache, Follower, Store.NodesFiled, Address;
  }

  /**
    With the dialogue everything that does not look at pins is in order.  The choice sees its target, but
    the target sees a hidden pin instead of the choice, and unlinking the target takes nothing away.
   */
  lemma DialogueChoice()
    ensures var s, choice, target := DialogueStore(), PinRef(0, PD_Output, 4), PinRef(1, PD_Input, 0);
            && s.Tidy() && !s.Inv() && IsPin(s.nodes, choice) && IsPin(s.nodes, target)
            && s.conns == {Wire(s.nodes, choice, target)}
            && target in Connected(s, choice) && UnlinkedAll(s, choice).conns == {}
            && choice !in Connected(s, target) && PinRef(0, PD_Output, 0) in Connected(s, target)
            && UnlinkedAll(s, target) == s
  {
    var s, choice, target, c := DialogueStore(), PinRef(0, PD_Output, 4), PinRef(1, PD_Input, 0),
      Connection(0, 0, 1, 0);
    DialogueTidy();
    DialogueNodes();
    DialogueWire();
    FoundFromItsOwnSide(s, choice, target);
    OnlyWireTaken(s, target, c);
    DropNothing(s);
    DropKeepsNodes(s, Unlinked(s, choice));
    ConnectedContents(s, target, PinRef(0, PD_Output, 0));
    hide DialogueStore, Address, Wire, Store.Tidy, Store.Inv, Store.HasPin, Connected, Unlinked, Store.Drop, FoundBack;
    assert Joins(c, target, PinRef(0, PD_Output, 0));
  }

  // ----- A connection to a hidden output -----

  /** A result node hands its value on through a hidden output; here that output is connected. */
  function ResultStore(): Store {
    Store({Connection(0, 0, 1, 0)},
          map[0 := NodeState(0, FunctionResult("f"), [], [CreatedPin(Named("return_out"), PD_Output, DATA + HIDDEN)]),
              1 := NodeState(1, Plain, [CreatedPin(Named("value"), PD_Input, DATA).(cachedIndex := 0)], [])],
          map[], map[])
  }

  /** The connection is seen from its visible end only. */
  lemma HiddenOutputSeenFromOneEnd()
    ensures var s, hidden, visible := ResultStore(), PinRef(0, PD_Output, 0), PinRef(1, PD_Input, 0);
            && s.Aligned() && IsPin(s.nodes, hidden) && !s.HasPin(hidden) && s.HasPin(visible)
            && hidden in Connected(s, visible) && visible !in Connected(s, hidden)
            && !EvenlyHidden(s) && !Symmetric(s)
  {
    var s, c := ResultStore(), Connection(0, 0, 1, 0);
    FlagsOf("value", PD_Input);
    assert s.nodes[0].IsAligned() && s.nodes[1].IsAligned();
    assert CreatedPin(Named("return_out"), PD_Output, DATA + HIDDEN).IsHidden();
    assert !s.nodes[1].inputs[0].IsHidden();
    assert c in s.conns;
    OneSided(s, c, PD_Input);
    SymmetricIff(s);
  }
}
