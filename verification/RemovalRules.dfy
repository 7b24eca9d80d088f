/**
  When removing an argument keeps the cardinality rule, also where hidden pins go: then connections of different
  pins can come to share one.
 */
module RemovalRules {
  import opened Connections
  import opened ConnectionCaches
  import opened Nodes
  import opened Stores
  import opened Queries
  import opened PortShift
  import opened ArgumentRemoval
  import opened FunctionEdits
  import opened HiddenRemovals

  /** Where an end comes to lie when the pins `d` are gone: down by the hidden ones, then past the visible ones. */
  function Slot(s: Store, d: set<PinRef>, e: PinRef): PinRef {
    if e.node !in s.nodes then e
    else
      var pins := s.nodes[e.node].Pins(e.dir);
      if 0 <= e.port < Visible(pins) then e.(port := PortAfter(d, e, Visible(pins), HiddenGone(s, d, e))) else e
  }

  /** The pin `g` stays, and comes to lie at `x`. */
  predicate Occupies(s: Store, d: set<PinRef>, g: PinRef, x: PinRef) {
    s.HasPin(g) && g !in d && NewPin(d, g) == x
  }

  /** Two wires that stay have ends that come to lie at `x`. */
  predicate Meet(s: Store, d: set<PinRef>, c: Connection, e: Connection, x: PinRef) {
    && c in Surviving(s.conns, d) && e in Surviving(s.conns, d)
    && Slot(s, d, c.End(x.dir)) == x && Slot(s, d, e.End(x.dir)) == x
  }

  /** Wires that come to share a pin that the rule limits are one afterwards. */
  ghost predicate RuleAfter(s: Store, d: set<PinRef>) {
    forall c, e, x, g :: Meet(s, d, c, e, x) && Occupies(s, d, g, x) && Limits(s, g) ==>
      Slot(s, d, c.End(x.dir.Opposite())) == Slot(s, d, e.End(x.dir.Opposite()))
  }

  // ----- The pins that stay -----

  /** Every place in the vector that is left is taken by a pin that stays. */
  lemma {:induction false} SurvivorAt(d: set<PinRef>, node: int, dir: Direction, visible: nat, k: nat) returns (p: nat)
    requires k < visible - RemovedBefore(d, node, dir, visible)
    ensures p < visible && PinRef(node, dir, p) !in d && p - RemovedBefore(d, node, dir, p) == k
  {
    var last := visible - 1;
    if PinRef(node, dir, last) !in d && k == last - RemovedBefore(d, node, dir, last) {
      p := last;
    } else {
      p := SurvivorAt(d, node, dir, last, k);
    }
  }

  lemma Occupied(s: Store, t: Store, d: set<PinRef>, x: PinRef) returns (g: PinRef)
    requires s.NodesSound() && t.nodes == KeptNodes(s.nodes, d) && t.HasPin(x)
    ensures Occupies(s, d, g, x)
  {
    var n := s.nodes[x.node];
    assert n.Sound() && n.id == x.node;
    var pins := n.Pins(x.dir);
    VisibleUpTo(pins, |pins|);
    KeptVisible(pins, d, x.node, x.dir, Visible(pins));
    hide Pin.IsHidden, Kept, RemovedBefore;
    assert t.nodes[x.node].Pins(x.dir) == Kept(pins, d, x.node, x.dir);
    var p := SurvivorAt(d, x.node, x.dir, Visible(pins), x.port);
    g := PinRef(x.node, x.dir, p);
    assert s.HasPin(g);
  }

  lemma OccupantLimits(s: Store, t: Store, d: set<PinRef>, g: PinRef, x: PinRef)
    requires s.NodesSound() && t.nodes == KeptNodes(s.nodes, d) && Occupies(s, d, g, x)
    ensures Limits(t, x) <==> Limits(s, g)
  {
    PinKept(s, d, g);
    var r := RemovePins(s, d);
    assert r.nodes == t.nodes;
    assert x.dir == g.dir;
    hide KeptNodes, RemovePins, NewPort, Pin.IsExecution;
  }

  // ----- The wires that stay -----

  /** A wire that stays comes to lie at the slots of its ends, which are pins. */
  lemma WireAtSlots(s: Store, t: Store, list: seq<PinRef>, c: Connection, dir: Direction)
    requires s.NodesSound() && s.Anchored() && Descending(list) && (forall r :: r in list ==> IsPin(s.nodes, r))
    requires Unindexed(s, Members(list)) && Spared(s, Members(list)) && t.nodes == KeptNodes(s.nodes, Members(list))
    requires c in Surviving(s.conns, Members(list))
    ensures WireAfter(s.nodes, list, c).End(dir) == Slot(s, Members(list), c.End(dir))
    ensures t.HasPin(Slot(s, Members(list), c.End(dir)))
  {
    var d, e := Members(list), c.End(dir);
    SurvivorEnd(s, d, c, dir);
    DirectionsAre(s, list);
    WireAfterEnd(s.nodes, list, c, dir);
    VectorFacts(s, list, e);
    var pins := s.nodes[e.node].Pins(e.dir);
    PositionAfter(s.nodes, list, e, Visible(pins), |pins|);
    EndLandsIff(s, t, list, e);
    hide WireAfter, EndAfter, PortAfter, HiddenAmong, Members, Descending, IndexedAs, Unindexed, KeptNodes, Surviving,
         Store.NodesSound, Store.HasPin;
  }

  lemma EndDirection(c: Connection, dir: Direction)
    ensures c.End(dir).dir == dir && (dir == PD_Output || dir == PD_Input)
  {
  }

  lemma SameWire(x: Connection, y: Connection, dir: Direction)
    requires x.End(dir) == y.End(dir) && x.End(dir.Opposite()) == y.End(dir.Opposite())
    ensures x == y
  {
  }

  /** What is known of the store without the pins. */
  ghost predicate Comes(s: Store, list: seq<PinRef>, t: Store) {
    && (forall e :: e in t.conns <==>
          exists c :: c in Surviving(s.conns, Members(list)) && e == WireAfter(s.nodes, list, c))
    && (forall c, dir :: c in Surviving(s.conns, Members(list)) ==>
          && WireAfter(s.nodes, list, c).End(dir) == Slot(s, Members(list), c.End(dir))
          && t.HasPin(Slot(s, Members(list), c.End(dir))))
    && (forall x :: t.HasPin(x) ==> exists g :: Occupies(s, Members(list), g, x))
    && (forall g, x :: Occupies(s, Members(list), g, x) ==> (Limits(t, x) <==> Limits(s, g)))
  }

  lemma RuleIfAfter(s: Store, list: seq<PinRef>, t: Store)
    requires Comes(s, list, t) && RuleAfter(s, Members(list))
    ensures t.Cardinality()
  {
    var d := Members(list);
    CardinalityByPins(t);
    hide WireAfter, Slot, Surviving, Occupies, Limits, Store.HasPin, Members, Store.Cardinality;
    forall x, y, dir | x in t.conns && y in t.conns && x.End(dir) == y.End(dir) && Limits(t, x.End(dir))
      ensures x == y
    {
      var c :| c in Surviving(s.conns, d) && x == WireAfter(s.nodes, list, c);
      var e :| e in Surviving(s.conns, d) && y == WireAfter(s.nodes, list, e);
      var p := x.End(dir);
      EndDirection(x, dir);
      assert t.HasPin(p);
      var g :| Occupies(s, d, g, p);
      assert Meet(s, d, c, e, p);
      SameWire(x, y, dir);
    }
  }

  lemma AfterIfRule(s: Store, list: seq<PinRef>, t: Store)
    requires Comes(s, list, t) && t.Cardinality()
    ensures RuleAfter(s, Members(list))
  {
    var d := Members(list);
    CardinalityByPins(t);
    hide WireAfter, Slot, Surviving, Occupies, Limits, Store.HasPin, Members, Store.Cardinality;
    forall c, e, x, g | Meet(s, d, c, e, x) && Occupies(s, d, g, x) && Limits(s, g)
      ensures Slot(s, d, c.End(x.dir.Opposite())) == Slot(s, d, e.End(x.dir.Opposite()))
    {
      var a, b := WireAfter(s.nodes, list, c), WireAfter(s.nodes, list, e);
      assert a in t.conns && b in t.conns;
      assert a.End(x.dir) == x && b.End(x.dir) == x;
      assert Limits(t, x);
      assert a == b;
    }
  }

  lemma ItComes(s: Store, list: seq<PinRef>)
    requires s.Inv() && Descending(list) && (forall r :: r in list ==> IsPin(s.nodes, r))
    requires Unindexed(s, Members(list)) && Spared(s, Members(list))
    ensures Comes(s, list, TakenOut(s, list))
  {
    var t, d := TakenOut(s, list), Members(list);
    hide *;
    InvIs(s);
    InvIsTidy(s);
    TakenOutParts(s, list);
    TakenOutConns(s, list);
    ShiftAllIsImage(s.nodes, Surviving(s.conns, d), list);
    forall c, dir | c in Surviving(s.conns, d)
      ensures WireAfter(s.nodes, list, c).End(dir) == Slot(s, d, c.End(dir)) && t.HasPin(Slot(s, d, c.End(dir)))
    {
      WireAtSlots(s, t, list, c, dir);
    }
    forall x | t.HasPin(x) ensures exists g :: Occupies(s, d, g, x) {
      var g := Occupied(s, t, d, x);
    }
    forall g, x | Occupies(s, d, g, x) ensures Limits(t, x) <==> Limits(s, g) {
      OccupantLimits(s, t, d, g, x);
    }
    ComesIs(s, list, t);
  }

  lemma ComesIs(s: Store, list: seq<PinRef>, t: Store)
    requires forall e :: e in t.conns <==>
               exists c :: c in Surviving(s.conns, Members(list)) && e == WireAfter(s.nodes, list, c)
    requires forall c, dir :: c in Surviving(s.conns, Members(list)) ==>
               && WireAfter(s.nodes, list, c).End(dir) == Slot(s, Members(list), c.End(dir))
               && t.HasPin(Slot(s, Members(list), c.End(dir)))
    requires forall x :: t.HasPin(x) ==> exists g :: Occupies(s, Members(list), g, x)
    requires forall g, x :: Occupies(s, Members(list), g, x) ==> (Limits(t, x) <==> Limits(s, g))
    ensures Comes(s, list, t)
  {
  }

  // ----- Removing an argument -----

  /** The condition on the state before. */
  ghost predicate RemovalKeepsRule(s: Store, name: string, index: int)
    requires name in s.functions
  {
    if Removable(s, name, index) then RuleAfter(s, ArgumentPins(s, s.functions[name], index)) else s.Cardinality()
  }

  lemma RecachedRule(u: Store)
    ensures Recached(u).Cardinality() <==> u.Cardinality()
  {
    hide Recached, Store.IsExecutionPin;
    forall p ensures Recached(u).IsExecutionPin(p) <==> u.IsExecutionPin(p) {
      RecachedKeepsPins(u, p);
    }
    RecachedConns(u);
  }

  lemma RuleWithFunctions(u: Store, functions: map<string, FunctionState>)
    ensures u.(functions := functions).Cardinality() <==> u.Cardinality()
  {
    assert forall p :: u.(functions := functions).IsExecutionPin(p) <==> u.IsExecutionPin(p);
    hide Store.IsExecutionPin;
  }

  lemma KeepsRuleMeans(s: Store, name: string, index: int)
    requires name in s.functions
    ensures Removable(s, name, index) ==>
              (RemovalKeepsRule(s, name, index) <==> RuleAfter(s, ArgumentPins(s, s.functions[name], index)))
    ensures !Removable(s, name, index) ==> (RemovalKeepsRule(s, name, index) <==> s.Cardinality())
  {
    hide RuleAfter, Store.Cardinality, ArgumentPins;
  }

  /**
    Where it keeps the pin-level invariant, removing an argument leaves the cardinality rule in place exactly when
    no two wires come to share a pin that the rule limits.
   */
  lemma RemovalKeepsRuleIff(s: Store, name: string, index: int, u: Store)
    requires s.Inv() && name in s.functions && ArgumentRemoved(s, name, index, u)
    requires RemovalUnindexed(s, name, index) && RemovalSpares(s, name, index)
    ensures Recached(u).Cardinality() <==> RemovalKeepsRule(s, name, index)
  {
    hide *;
    InvIs(s);
    SoundIsFiled(s);
    RemovableMeans(s, name, index);
    KeepsRuleMeans(s, name, index);
    if Removable(s, name, index) {
      var f := s.functions[name];
      var list := RemovedList(s, name, index, u);
      ListedArePins(s, f, index, list);
      ListMeans(s, f, index, list);
      RemovalMeans(s, name, index);
      ItComes(s, list);
      RecachedRule(u);
      RuleWithFunctions(TakenOut(s, list), s.functions[name := WithoutArgument(f, index)]);
      if RuleAfter(s, Members(list)) {
        RuleIfAfter(s, list, TakenOut(s, list));
      }
      if TakenOut(s, list).Cardinality() {
        AfterIfRule(s, list, TakenOut(s, list));
      }
    } else {
      RecachedIsSame(s);
      ArgumentStays(s, name, index, u);
    }
  }
}
