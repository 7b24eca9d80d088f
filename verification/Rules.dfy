/**
  The two rules on wires: a data input has at most one wire and an execution output at most one, and
  the reroutes form no cycle.  Every edit keeps both.
 */
module Rules {
  import opened Connections
  import opened Nodes
  import opened Reroutes
  import opened Stores
  import opened Queries
  import opened PortShift
  import opened ArgumentRemoval
  import opened FunctionCreation
  import opened FunctionEdits
  import D = Duplication
  import opened Rehearsal
  import opened Duplicates

  ghost predicate NoCycle(s: Store) {
    Acyclic(s.conns, s.Reroutes())
  }

  // ----- Fewer wires -----

  /** The wires of `t` are wires of `s` between nodes that are unchanged. */
  ghost predicate FewerWires(s: Store, t: Store) {
    forall c :: c in t.conns ==>
      && c in s.conns
      && c.fromNode in s.nodes && c.fromNode in t.nodes && t.nodes[c.fromNode] == s.nodes[c.fromNode]
      && c.toNode in s.nodes && c.toNode in t.nodes && t.nodes[c.toNode] == s.nodes[c.toNode]
  }

  lemma FewerWiresKeepRules(s: Store, t: Store)
    requires FewerWires(s, t)
    ensures s.Cardinality() ==> t.Cardinality()
    ensures NoCycle(s) ==> NoCycle(t)
  {
    if s.Cardinality() {
      forall c, d | c in t.conns && d in t.conns
        ensures c.End(PD_Input) == d.End(PD_Input) && !t.IsExecutionPin(c.End(PD_Input)) ==> c == d
        ensures c.End(PD_Output) == d.End(PD_Output) && t.IsExecutionPin(c.End(PD_Output)) ==> c == d
      {
        assert s.IsExecutionPin(c.End(PD_Input)) == t.IsExecutionPin(c.End(PD_Input));
        assert s.IsExecutionPin(c.End(PD_Output)) == t.IsExecutionPin(c.End(PD_Output));
      }
    }
    if NoCycle(s) {
      forall a, b | Hop(t.conns, t.Reroutes(), a, b) ensures Hop(s.conns, s.Reroutes(), a, b) {
        var c :| c in t.conns && c.fromNode == a && c.toNode == b;
      }
      AcyclicByHops(s.conns, s.Reroutes(), t.conns, t.Reroutes());
    }
  }

  lemma DropFewer(s: Store, d: set<Connection>)
    requires s.Wired()
    ensures FewerWires(s, s.Drop(d))
  {
  }

  lemma WithoutNodesFewer(s: Store, ids: set<int>)
    requires s.Wired()
    ensures FewerWires(s, s.WithoutNodes(ids))
  {
  }

  lemma AddNodeFewer(s: Store, graph: string, node: NodeState)
    requires s.Wired() && graph in s.graphs
    ensures FewerWires(s, s.AddNode(graph, node))
  {
  }

  lemma SameWiresFewer(s: Store, t: Store)
    requires s.Wired() && t.conns == s.conns && t.nodes == s.nodes
    ensures FewerWires(s, t)
  {
  }

  // ----- Linking -----

  /**
    An accepted link changes the connections to exactly: the old ones, without those at a data target
    and those at an execution source, and with the new one.
   */
  lemma LinkEffect(s: Store, c: Connection)
    ensures s.ClosesCycle(c) ==> s.Link(c) == s
    ensures !s.ClosesCycle(c) ==>
              forall e :: e in s.Link(c).conns <==>
                || e == c
                || (e in s.conns && (e.End(PD_Input) == c.End(PD_Input) ==> s.IsExecutionPin(c.End(PD_Input)))
                                 && (e.End(PD_Output) == c.End(PD_Output) ==> !s.IsExecutionPin(c.End(PD_Output))))
    ensures s.Link(c).nodes == s.nodes && s.Link(c).functions == s.functions
  {
    hide Store.IsExecutionPin;
    if !s.ClosesCycle(c) {
      var t := s.Drop(s.Displaced(c));
      assert t.Reroutes() == s.Reroutes();
      if t.ClosesCycle(c) {
        ReachesMonotone(t.conns, s.conns, s.Reroutes(), c.toNode, c.fromNode);
      }
    }
  }

  lemma LinkKeepsCardinality(s: Store, c: Connection)
    requires s.Cardinality() && s.HasPin(c.End(PD_Output)) && s.HasPin(c.End(PD_Input))
    ensures s.Link(c).Cardinality()
  {
    LinkEffect(s, c);
    if !s.ClosesCycle(c) {
      var t := s.Link(c);
      hide Store.Link, Store.ClosesCycle;
      assert forall p :: t.IsExecutionPin(p) == s.IsExecutionPin(p);
      hide Store.HasPin, Store.IsExecutionPin;
      forall a, b | a in t.conns && b in t.conns
        ensures a.End(PD_Input) == b.End(PD_Input) && !t.IsExecutionPin(a.End(PD_Input)) ==> a == b
        ensures a.End(PD_Output) == b.End(PD_Output) && t.IsExecutionPin(a.End(PD_Output)) ==> a == b
      {
      }
    }
  }

  /** Linking any two pins closes no cycle. */
  lemma LinkedKeepsNoCycle(s: Store, p: PinRef, q: PinRef)
    requires s.Tidy() && IsPin(s.nodes, p) && IsPin(s.nodes, q) && NoCycle(s)
    ensures NoCycle(Linked(s, p, q))
  {
    var c := Wire(s.nodes, p, q);
    if !s.ClosesCycle(c) {
      var u := Cleared(s, SourceOf(p, q), TargetOf(p, q));
      ClearedKeepsTidy(s, SourceOf(p, q), TargetOf(p, q));
      hide Cleared, Wire, Store.Tidy;
      assert u.Reroutes() == s.Reroutes();
      AcyclicAntitone(u.conns, s.conns, s.Reroutes(), s.Reroutes());
      hide Acyclic;
      ConnectKeepsNoCycle(u, c);
    }
  }

  lemma ConnectKeepsNoCycle(s: Store, c: Connection)
    requires NoCycle(s)
    ensures NoCycle(s.Connect(c))
  {
    ConnectParts(s, c);
    GuardedConnect(s.conns, s.Reroutes(), c);
    assert s.Connect(c).Reroutes() == s.Reroutes();
  }

  /** Linking two visible pins keeps the cardinality rule. */
  lemma LinkedKeepsCardinality(s: Store, p: PinRef, q: PinRef)
    requires s.Inv() && s.HasPin(p) && s.HasPin(q) && p.dir != q.dir && s.Cardinality()
    ensures IsPin(s.nodes, p) && IsPin(s.nodes, q) && Linked(s, p, q).Cardinality()
  {
    LinkedIsLink(s, p, q);
    hide Linked, Store.Inv, Store.Link;
    LinkKeepsCardinality(s, WireOf(p, q));
  }

  /** After clearing, nothing else is wired where the rule limits an end of the new wire. */
  ghost predicate LinkFits(s: Store, p: PinRef, q: PinRef)
    requires IsPin(s.nodes, p) && IsPin(s.nodes, q)
  {
    var c, u := Wire(s.nodes, p, q), Cleared(s, SourceOf(p, q), TargetOf(p, q));
    s.ClosesCycle(c)
    || forall d, dir :: d in u.conns && d.End(dir) == c.End(dir) && Limits(s, c.End(dir)) ==> d == c
  }

  /** Linking any two pins keeps the rule exactly when the new wire fits. */
  lemma LinkedCardinalityIff(s: Store, p: PinRef, q: PinRef)
    requires s.Tidy() && IsPin(s.nodes, p) && IsPin(s.nodes, q) && s.Cardinality()
    ensures Linked(s, p, q).Cardinality() <==> LinkFits(s, p, q)
  {
    var c, u, t := Wire(s.nodes, p, q), Cleared(s, SourceOf(p, q), TargetOf(p, q)), Linked(s, p, q);
    if !s.ClosesCycle(c) {
      ClearedKeepsTidy(s, SourceOf(p, q), TargetOf(p, q));
      if u.ClosesCycle(c) {
        FewerClosesLess(s, u, c);
      }
      ConnectParts(u, c);
      hide Store.Tidy, Cleared, Wire, Store.ClosesCycle;
      AddedCardinalityIff(s, u, t, c);
    }
  }

  /** One wire added to some of the old ones. */
  lemma AddedCardinalityIff(s: Store, u: Store, t: Store, c: Connection)
    requires s.Cardinality() && t.nodes == s.nodes && u.conns <= s.conns && t.conns == u.conns + {c}
    ensures t.Cardinality() <==>
            forall d, dir :: d in u.conns && d.End(dir) == c.End(dir) && Limits(s, c.End(dir)) ==> d == c
  {
    CardinalityByPins(s);
    CardinalityByPins(t);
    assert forall p :: Limits(t, p) <==> Limits(s, p);
    hide Store.Cardinality, Limits;
  }

  /** Of the two rules the guard enforces the second exactly: a link is refused only when it would break it. */
  lemma RefusedLinkWouldClose(s: Store, c: Connection)
    requires NoCycle(s) && s.ClosesCycle(c)
    ensures !Acyclic(s.conns + {c}, s.Reroutes())
  {
    GuardedConnect(s.conns, s.Reroutes(), c);
  }

  // ----- Creating a function -----

  lemma WithEntryFewer(s: Store, f: Signature, id: int)
    requires s.Tidy() && s.IsAvailable(id) && !Refused(s, f, false)
    ensures FewerWires(s, WithEntry(s, f, id))
  {
    hide EntryNode, NodeState.Cache;
  }

  lemma MadeKeepsRules(s: Store, f: Signature, id: int)
    requires s.Tidy() && HasRoom(s, f) && s.IsAvailable(id) && !Refused(s, f, false)
    ensures NoCycle(s) ==> NoCycle(Made(s, f, id))
    ensures s.Inv() && s.Cardinality() ==> Made(s, f, id).Cardinality()
  {
    MadeInSteps(s, f, id);
    WithEntryFewer(s, f, id);
    FewerWiresKeepRules(s, WithEntry(s, f, id));
    if f.value.Some? {
      var w := WithEntry(s, f, id).AddNode(f.name, ResultNode(id + 1, f.name, f.value.value));
      FirstPins(s, f, id);
      if s.Inv() {
        MadeBeforeLink(s, f, id);
      }
      hide *;
      TidyIs(WithEntry(s, f, id));
      AddNodeFewer(WithEntry(s, f, id), f.name, ResultNode(id + 1, f.name, f.value.value));
      FewerWiresKeepRules(WithEntry(s, f, id), w);
      if NoCycle(s) {
        LinkedKeepsNoCycle(w, PinRef(id, PD_Output, 0), PinRef(id + 1, PD_Input, 0));
      }
      if s.Inv() && s.Cardinality() {
        LinkedKeepsCardinality(w, PinRef(id, PD_Output, 0), PinRef(id + 1, PD_Input, 0));
      }
    }
  }

  lemma MadeBeforeLink(s: Store, f: Signature, id: int)
    requires s.Inv() && HasRoom(s, f) && s.IsAvailable(id) && !Refused(s, f, false) && f.value.Some?
    ensures WithEntry(s, f, id).AddNode(f.name, ResultNode(id + 1, f.name, f.value.value)).Inv()
  {
    WithEntryKeepsInv(s, f, id);
    WithEntryInSteps(s, f, id);
    UnusedId(s, id);
    NextAvailable(s, WithEntry(s, f, id), f, id);
    ResultIsSound(id + 1, f.name, f.value.value);
    hide WithEntry, Store.Inv, NodeState.Sound, NodeState.Cache;
    AddNodeKeepsInv(WithEntry(s, f, id), f.name, ResultNode(id + 1, f.name, f.value.value));
  }

  // ----- Removing an argument -----

  /** Shifting ports moves no wire to other nodes, and no node becomes a reroute. */
  lemma ArgumentRemovedKeepsNoCycle(s: Store, name: string, index: int, t: Store)
    requires s.Tidy() && name in s.functions && ArgumentRemoved(s, name, index, t) && NoCycle(s)
    ensures NoCycle(Recached(t))
  {
    if Removable(s, name, index) {
      var f := s.functions[name];
      var list :| && IsRemovalList(s, f, index, list)
                  && t == TakenOut(s, list).(functions := s.functions[name := WithoutArgument(f, index)]);
      TakenOutParts(s, list);
      hide TakenOut, UnlinkedEach, IsRemovalList, Store.Tidy;
      SameHops(s, t, Members(list));
    } else {
      RecachedIsSame(s);
    }
  }

  lemma SameHops(s: Store, t: Store, d: set<PinRef>)
    requires t.nodes == KeptNodes(s.nodes, d) && NoCycle(s)
    requires forall e :: e in t.conns ==> exists c :: c in s.conns && c.fromNode == e.fromNode && c.toNode == e.toNode
    ensures NoCycle(Recached(t))
  {
    var r := Recached(t);
    forall id ensures id in r.Reroutes() <==> id in s.Reroutes() {
      assert id in r.nodes <==> id in s.nodes;
    }
    hide Store.Reroutes, KeptNodes;
    forall a, b | Hop(r.conns, r.Reroutes(), a, b) ensures Hop(s.conns, s.Reroutes(), a, b) {
      var e :| e in r.conns && e.fromNode == a && e.toNode == b;
    }
    AcyclicByHops(s.conns, s.Reroutes(), r.conns, r.Reroutes());
  }

  lemma RecachedKeepsRule(s: Store)
    requires s.Cardinality()
    ensures Recached(s).Cardinality()
  {
    var t := Recached(s);
    forall p ensures t.IsExecutionPin(p) <==> s.IsExecutionPin(p) {
      RecachedKeepsPins(s, p);
    }
  }

  /** Where the pins that go are visible, the cardinality rule is kept. */
  lemma RemoveArgumentKeepsCardinality(s: Store, name: string, index: int)
    requires s.Inv() && name in s.functions && s.Cardinality()
    ensures Recached(RemoveArgument(s, name, index)).Cardinality()
  {
    hide *;
    InvIs(s);
    var f := s.functions[name];
    if f.userDefined && 0 <= index < |f.arguments| {
      RemoveArgumentKeepsWires(s, name, index);
    } else {
      RemovalIsRefused(s, name, index);
    }
    RecachedKeepsRule(RemoveArgument(s, name, index));
  }

  // ----- Duplicating a function -----

  lemma {:induction false} RelinkAcyclic(s: set<Connection>, R: set<int>, m: D.IdMap, q: seq<Connection>)
    requires Acyclic(s, R)
    ensures Acyclic(D.Relink(s, R, m, q), R)
  {
    hide D.Image, Acyclic;
    if q != [] {
      var r, c := D.Relink(s, R, m, q[..|q| - 1]), D.Image(m, q[|q| - 1]);
      RelinkAcyclic(s, R, m, q[..|q| - 1]);
      GuardedConnect(r, R, c);
    }
  }

  /** A duplicate closes no cycle: every link passes the guard. */
  lemma DuplicateKeepsNoCycle(s: Store, t: Store, name: string, newName: string, getter: bool, m: D.IdMap)
    requires CanDuplicate(s, name, newName) && IsDuplicate(s, t, name, newName, getter, m) && NoCycle(s)
    ensures NoCycle(t)
  {
    var entry := IsDuplicateParts(s, t, name, newName, getter, m);
    DuplicateIsCopying(s, t, name, newName, getter, m);
    hide CanDuplicate, IsDuplicate, D.Relink, Store.Reroutes, IsTable, NodesDuplicated;
    forall a, b | Hop(s.conns, t.Reroutes(), a, b) ensures Hop(s.conns, s.Reroutes(), a, b) {
      var c :| c in s.conns && c.fromNode == a && c.toNode == b;
    }
    AcyclicByHops(s.conns, s.Reroutes(), s.conns, t.Reroutes());
    RelinkAcyclic(s.conns, t.Reroutes(), m, Sorted(D.Touching(s.conns, m.Keys)));
  }

  /** Whether a pin is an execution pin carries over to its copy. */
  lemma CopiedPinKind(s: Store, t: Store, m: D.IdMap, newName: string, p: PinRef)
    requires s.NodesSound() && IsTable(s.nodes, m) && NodesDuplicated(s.nodes, t.nodes, m, newName) && p.node in s.nodes
    ensures t.IsExecutionPin(p) == s.IsExecutionPin(p)
    ensures p.node in m ==> t.IsExecutionPin(p.(node := m[p.node])) == s.IsExecutionPin(p)
  {
    DuplicatePin(s, t, m, newName, p);
    if p.node in m {
      CopyKind(s.nodes[p.node], m[p.node], newName);
      assert m[p.node] in D.Copies(m);
    }
  }

  /** The end of a leaving wire that lies in the graph. */
  function InnerEnd(nodes: set<int>, c: Connection): PinRef {
    c.End(StrayEnd(nodes, c).dir.Opposite())
  }

  /**
    Where the rule limits a leaving wire that will be linked, at the pin of node 0 it ends at, nothing else is
    wired there: no wire from before, and no wire from another pin of the graph.
   */
  ghost predicate StraysAlone(s: Store, nodes: set<int>) {
    forall c :: IsStray(s, nodes, c) && Limits(s, StrayEnd(nodes, c)) ==>
      && s.WiresAt(StrayEnd(nodes, c)) == {}
      && forall d :: IsStray(s, nodes, d) && StrayEnd(nodes, d) == StrayEnd(nodes, c) ==>
           InnerEnd(nodes, d) == InnerEnd(nodes, c)
  }

  /** The same of the leaving wires that have been linked. */
  ghost predicate LinkedAlone(s: Store, conns: set<Connection>, m: D.IdMap) {
    forall c :: c in Leaving(s.conns, m.Keys) && D.Image(m, c) in conns && Limits(s, StrayEnd(m.Keys, c)) ==>
      && s.WiresAt(StrayEnd(m.Keys, c)) == {}
      && forall d :: d in Leaving(s.conns, m.Keys) && D.Image(m, d) in conns
                     && StrayEnd(m.Keys, d) == StrayEnd(m.Keys, c) ==>
           D.Image(m, d) == D.Image(m, c)
  }

  /** What is known of a duplicate when its wires are compared. */
  ghost predicate Comparing(s: Store, t: Store, m: D.IdMap, newName: string) {
    && s.NodesSound() && s.Anchored() && IsTable(s.nodes, m) && NodesDuplicated(s.nodes, t.nodes, m, newName)
    && s.conns <= t.conns
    && t.conns <= s.conns + D.Images(m, D.Inside(s.conns, m.Keys)) + D.Images(m, Leaving(s.conns, m.Keys))
  }

  /** Every wire of the duplicate is old or the image of a wire of the graph. */
  lemma OldOrImage(s: Store, t: Store, m: D.IdMap, newName: string, e: Connection) returns (x: Connection)
    requires Comparing(s, t, m, newName) && e in t.conns
    ensures e in s.conns || (x in D.Touching(s.conns, m.Keys) && e == D.Image(m, x))
    ensures e !in s.conns ==> x in D.Inside(s.conns, m.Keys) || x in Leaving(s.conns, m.Keys)
  {
    hide D.Image;
    x := e;
    if e !in s.conns {
      x :| (x in D.Inside(s.conns, m.Keys) || x in Leaving(s.conns, m.Keys)) && e == D.Image(m, x);
    }
  }

  lemma LimitsCarryOver(s: Store, t: Store, m: D.IdMap, newName: string, p: PinRef)
    requires Comparing(s, t, m, newName)
    ensures p.node in s.nodes ==> (Limits(t, p) <==> Limits(s, p))
    ensures p.node in s.nodes && p.node in m ==> (Limits(t, p.(node := m[p.node])) <==> Limits(s, p))
    ensures p.node == 0 ==> (Limits(t, p) <==> Limits(s, p))
  {
    hide Store.IsExecutionPin;
    if p.node in s.nodes {
      CopiedPinKind(s, t, m, newName, p);
    }
    if p.node == 0 {
      ZeroPin(s, t, m, newName, p);
    }
  }

  /** Two images that meet at a copy come from wires that met, and are the same. */
  lemma MeetAtCopy(s: Store, t: Store, m: D.IdMap, newName: string, x: Connection, y: Connection, dir: Direction)
    requires Comparing(s, t, m, newName) && s.Cardinality() && {x, y} <= D.Touching(s.conns, m.Keys)
    requires D.Image(m, x).End(dir) == D.Image(m, y).End(dir) && D.Image(m, x).End(dir).node in D.Copies(m)
    requires Limits(t, D.Image(m, x).End(dir))
    ensures x == y
  {
    ImageEnd(s.nodes, m, x, dir);
    ImageEnd(s.nodes, m, y, dir);
    AnchoredIsWired(s);
    CardinalityByPins(s);
    LimitsCarryOver(s, t, m, newName, x.End(dir));
    CopiesArePositive(s.nodes, m);
    hide D.Image, Limits, Store.Cardinality, Comparing, IsTable;
    assert x.End(dir) == y.End(dir);
  }

  lemma CopiesArePositive(nodes: map<int, NodeState>, m: D.IdMap)
    requires IsTable(nodes, m)
    ensures 0 !in D.Copies(m) && D.Copies(m) !! nodes.Keys
    ensures forall a, b :: a in m && b in m && m[a] == m[b] ==> a == b
  {
  }

  /** At node 0 the only new wires are the stray ones. */
  lemma MeetAtZero(s: Store, t: Store, m: D.IdMap, newName: string, c: Connection, f: Connection, dir: Direction)
    requires Comparing(s, t, m, newName) && LinkedAlone(s, t.conns, m)
    requires c in Leaving(s.conns, m.Keys) && D.Image(m, c) in t.conns && f in t.conns
    requires D.Image(m, c).End(dir) == f.End(dir) && f.End(dir).node == 0 && Limits(t, f.End(dir))
    ensures D.Image(m, c) == f
  {
    LeavingMeans(s.conns, m.Keys);
    StrayEnds(s.nodes, m, c);
    LimitsCarryOver(s, t, m, newName, StrayEnd(m.Keys, c));
    CopiesArePositive(s.nodes, m);
    var y := OldOrImage(s, t, m, newName, f);
    StrayAtZero(s.nodes, m, c, dir);
    hide Limits, Comparing, IsTable, D.Touching;
    assert f in s.conns ==> f in s.WiresAt(StrayEnd(m.Keys, c));
    if f !in s.conns {
      if y in Leaving(s.conns, m.Keys) {
        StrayAtZero(s.nodes, m, y, dir);
      } else {
        InsideEnds(s.nodes, s.conns, m, y);
      }
    }
  }

  lemma StrayAtZero(nodes: map<int, NodeState>, m: D.IdMap, c: Connection, dir: Direction)
    requires IsTable(nodes, m) && (c.fromNode in m) != (c.toNode in m)
    ensures D.Image(m, c).End(dir).node == 0 <==> dir == StrayEnd(m.Keys, c).dir
    ensures D.Image(m, c).End(dir).node == 0 ==> D.Image(m, c).End(dir) == StrayEnd(m.Keys, c)
  {
    StrayEnds(nodes, m, c);
    CopiesArePositive(nodes, m);
  }

  lemma MeetOld(s: Store, t: Store, m: D.IdMap, newName: string, e: Connection, f: Connection, dir: Direction)
    requires Comparing(s, t, m, newName) && s.Cardinality() && {e, f} <= s.conns
    requires e.End(dir) == f.End(dir) && Limits(t, e.End(dir))
    ensures e == f
  {
    AnchoredIsWired(s);
    CardinalityByPins(s);
    LimitsCarryOver(s, t, m, newName, e.End(dir));
    hide Limits, Store.Cardinality, Comparing;
  }

  /** Two wires of the duplicate that meet where the rule limits them are one. */
  lemma MeetInDuplicate(s: Store, t: Store, m: D.IdMap, newName: string, e: Connection, f: Connection, dir: Direction)
    requires Comparing(s, t, m, newName) && s.Cardinality() && LinkedAlone(s, t.conns, m)
    requires {e, f} <= t.conns && e.End(dir) == f.End(dir) && Limits(t, e.End(dir))
    ensures e == f
  {
    hide *;
    var x := OldOrImage(s, t, m, newName, e);
    var y := OldOrImage(s, t, m, newName, f);
    if e in s.conns && f in s.conns {
      MeetOld(s, t, m, newName, e, f, dir);
    } else {
      NewEnd(s, t, m, newName, e, x, dir);
      NewEnd(s, t, m, newName, f, y, dir);
      if e.End(dir).node in D.Copies(m) {
        MeetAtCopy(s, t, m, newName, x, y, dir);
      } else if e !in s.conns {
        MeetAtZero(s, t, m, newName, x, f, dir);
      } else {
        MeetAtZero(s, t, m, newName, y, e, dir);
      }
    }
  }

  /** A new wire ends at a copy, or it is stray and ends at node 0. */
  lemma NewEnd(s: Store, t: Store, m: D.IdMap, newName: string, e: Connection, x: Connection, dir: Direction)
    requires Comparing(s, t, m, newName) && e in t.conns
    requires e in s.conns || (x in D.Touching(s.conns, m.Keys) && e == D.Image(m, x))
    ensures e in s.conns ==> e.End(dir).node !in D.Copies(m)
    ensures e !in s.conns && e.End(dir).node !in D.Copies(m) ==> e.End(dir).node == 0 && x in Leaving(s.conns, m.Keys)
  {
    AnchoredIsWired(s);
    CopiesArePositive(s.nodes, m);
    LeavingMeans(s.conns, m.Keys);
    if e !in s.conns {
      ImageEnd(s.nodes, m, x, dir);
    }
    hide D.Image, Leaving, IsTable, NodesDuplicated, Store.NodesSound, Store.Anchored;
  }

  lemma StraysClash(s: Store, t: Store, m: D.IdMap, newName: string)
    requires Comparing(s, t, m, newName) && t.Cardinality()
    ensures LinkedAlone(s, t.conns, m)
  {
    CardinalityByPins(t);
    AnchoredIsWired(s);
    hide Store.Cardinality, Limits, NodesDuplicated, Store.NodesSound, Store.Anchored, D.Image;
    forall c | c in Leaving(s.conns, m.Keys) && D.Image(m, c) in t.conns && Limits(s, StrayEnd(m.Keys, c))
      ensures s.WiresAt(StrayEnd(m.Keys, c)) == {}
      ensures forall d ::
                d in Leaving(s.conns, m.Keys) && D.Image(m, d) in t.conns
                  && StrayEnd(m.Keys, d) == StrayEnd(m.Keys, c) ==>
                  D.Image(m, d) == D.Image(m, c)
    {
      LeavingMeans(s.conns, m.Keys);
      StrayEnds(s.nodes, m, c);
      LimitsCarryOver(s, t, m, newName, StrayEnd(m.Keys, c));
      OldAtStray(s, t, m, newName, c);
      forall d | d in Leaving(s.conns, m.Keys) && D.Image(m, d) in t.conns && StrayEnd(m.Keys, d) == StrayEnd(m.Keys, c)
        ensures D.Image(m, d) == D.Image(m, c)
      {
        StrayEnds(s.nodes, m, d);
      }
    }
  }

  lemma OldAtStray(s: Store, t: Store, m: D.IdMap, newName: string, c: Connection)
    requires Comparing(s, t, m, newName) && t.Cardinality() && s.Wired()
    requires c in Leaving(s.conns, m.Keys) && D.Image(m, c) in t.conns && Limits(t, StrayEnd(m.Keys, c))
    ensures s.WiresAt(StrayEnd(m.Keys, c)) == {}
  {
    CardinalityByPins(t);
    LeavingMeans(s.conns, m.Keys);
    StrayEnds(s.nodes, m, c);
    hide Store.Cardinality, Limits, NodesDuplicated, Store.NodesSound, Store.Anchored, D.Image, IsTable;
    forall d | d in s.WiresAt(StrayEnd(m.Keys, c)) ensures d == D.Image(m, c) {
      assert d in t.conns;
    }
    assert D.Image(m, c) !in s.conns;
  }

  /** A duplicate keeps the cardinality rule exactly when the leaving wires it links find the pins of node 0 free. */
  lemma DuplicateKeepsCardinality(s: Store, t: Store, name: string, newName: string, getter: bool, m: D.IdMap)
    requires CanDuplicate(s, name, newName) && IsDuplicate(s, t, name, newName, getter, m)
    requires s.Inv() && s.Cardinality()
    ensures name in s.graphs && m.Keys == s.graphs[name].nodes
    ensures t.Cardinality() <==> StraysAlone(s, m.Keys)
  {
    hide *;
    var entry := IsDuplicateParts(s, t, name, newName, getter, m);
    InvIs(s);
    DuplicateConns(s, t, m);
    ComparingIs(s, t, m, newName);
    CardinalityByPins(t);
    AloneAsPlanned(s, t, name, newName, getter, m);
    if t.Cardinality() {
      StraysClash(s, t, m, newName);
    }
    if LinkedAlone(s, t.conns, m) {
      forall e, f, dir | e in t.conns && f in t.conns && e.End(dir) == f.End(dir) && Limits(t, e.End(dir))
        ensures e == f
      {
        MeetInDuplicate(s, t, m, newName, e, f, dir);
      }
    }
  }

  /** Of two leaving wires with one stray end, the images are the same exactly when the inner ends are. */
  lemma SameInnerEnd(nodes: map<int, NodeState>, m: D.IdMap, c: Connection, d: Connection)
    requires IsTable(nodes, m) && StrayEnd(m.Keys, d) == StrayEnd(m.Keys, c)
    requires (c.fromNode in m) != (c.toNode in m) && (d.fromNode in m) != (d.toNode in m)
    ensures D.Image(m, d) == D.Image(m, c) <==> InnerEnd(m.Keys, d) == InnerEnd(m.Keys, c)
  {
    StrayEnds(nodes, m, c);
    StrayEnds(nodes, m, d);
    CopiesArePositive(nodes, m);
    hide D.Image, IsTable;
    var i, j, dir := D.Image(m, c), D.Image(m, d), StrayEnd(m.Keys, c).dir;
    assert i.End(dir) == j.End(dir);
    assert i == j <==> i.End(dir.Opposite()) == j.End(dir.Opposite());
  }

  lemma AloneAsPlanned(s: Store, t: Store, name: string, newName: string, getter: bool, m: D.IdMap)
    requires CanDuplicate(s, name, newName) && IsDuplicate(s, t, name, newName, getter, m)
    ensures LinkedAlone(s, t.conns, m) <==> StraysAlone(s, m.Keys)
  {
    var entry := IsDuplicateParts(s, t, name, newName, getter, m);
    LeavingMeans(s.conns, m.Keys);
    hide CanDuplicate, IsDuplicate, Leaving, StrayEnd, InnerEnd, WillLink, D.Image, Limits, IsTable, NodesDuplicated;
    forall c | c in Leaving(s.conns, m.Keys) ensures D.Image(m, c) in t.conns <==> IsStray(s, m.Keys, c) {
      LinkedAsPlanned(s, t, name, newName, getter, m, c);
    }
    forall c, d | IsStray(s, m.Keys, c) && IsStray(s, m.Keys, d) && StrayEnd(m.Keys, d) == StrayEnd(m.Keys, c)
      ensures D.Image(m, d) == D.Image(m, c) <==> InnerEnd(m.Keys, d) == InnerEnd(m.Keys, c)
    {
      SameInnerEnd(s.nodes, m, c, d);
    }
  }

  /** Unless node 0 is a reroute, all the wires that leave the graph count. */
  lemma DuplicateKeepsCardinalityIff(s: Store, t: Store, name: string, newName: string, getter: bool, m: D.IdMap)
    requires CanDuplicate(s, name, newName) && IsDuplicate(s, t, name, newName, getter, m)
    requires s.Inv() && s.Cardinality() && 0 !in s.Reroutes()
    ensures name in s.graphs && m.Keys == s.graphs[name].nodes
    ensures t.Cardinality() <==>
            forall c :: c in Leaving(s.conns, m.Keys) && Limits(s, StrayEnd(m.Keys, c)) ==>
              && s.WiresAt(StrayEnd(m.Keys, c)) == {}
              && forall d :: d in Leaving(s.conns, m.Keys) && StrayEnd(m.Keys, d) == StrayEnd(m.Keys, c) ==>
                   InnerEnd(m.Keys, d) == InnerEnd(m.Keys, c)
  {
    hide *;
    var entry := IsDuplicateParts(s, t, name, newName, getter, m);
    DuplicateKeepsCardinality(s, t, name, newName, getter, m);
    GraphNodesExist(s, name);
    AllAreStrays(s, m.Keys);
    StraysAloneIs(s, m.Keys);
  }

  lemma StraysAloneIs(s: Store, nodes: set<int>)
    requires forall c :: IsStray(s, nodes, c) <==> c in Leaving(s.conns, nodes)
    ensures StraysAlone(s, nodes) <==>
            forall c :: c in Leaving(s.conns, nodes) && Limits(s, StrayEnd(nodes, c)) ==>
              && s.WiresAt(StrayEnd(nodes, c)) == {}
              && forall d :: d in Leaving(s.conns, nodes) && StrayEnd(nodes, d) == StrayEnd(nodes, c) ==>
                   InnerEnd(nodes, d) == InnerEnd(nodes, c)
  {
    hide IsStray, Leaving, StrayEnd, InnerEnd, Limits;
  }

  // ----- A file whose duplicates break the rule -----

  function Indexed(name: string, dir: Direction, flags: nat, index: int): Pin {
    CreatedPin(Named(name), dir, flags).(cachedIndex := index)
  }

  /** The entry of a function hands a value to another graph, and the same pin of node 0 has one already. */
  function CrowdedStore(): Store {
    Store({Connection(1, 1, 2, 0), Connection(2, 0, 0, 0)},
          map[0 := NodeState(0, Plain, [Indexed("value", PD_Input, DATA, 0)], []),
              1 := NodeState(1, FunctionEntry("f"), [],
                             [Indexed("ExecOut", PD_Output, EXECUTION, 0), Indexed("x", PD_Output, DATA, 1)]),
              2 := NodeState(2, Plain, [Indexed("value", PD_Input, DATA, 0)],
                             [Indexed("result", PD_Output, DATA, 0)])],
          map["f" := GraphState("f", true, false, {1}, {1}, map[]),
              "EventGraph" := GraphState("EventGraph", false, true, {0, 2}, {}, map[])],
          map["f" := FunctionState("f", 1, true, ["x"], false, false)])
  }

  lemma IndexedFlags(name: string, dir: Direction, index: int)
    ensures !Indexed(name, dir, DATA, index).IsHidden() && !Indexed(name, dir, DATA, index).IsExecution()
    ensures !Indexed(name, dir, EXECUTION, index).IsHidden()
    ensures forall flags :: Indexed(name, dir, flags, index).direction == dir
    ensures forall flags :: Indexed(name, dir, flags, index).cachedIndex == index
  {
    PinFlags(Named(name), dir);
  }

  lemma CrowdedPins()
    ensures var s := CrowdedStore();
            && s.NodesSound() && s.HasPin(PinRef(1, PD_Output, 1)) && s.HasPin(PinRef(2, PD_Input, 0))
            && s.HasPin(PinRef(2, PD_Output, 0)) && s.HasPin(PinRef(0, PD_Input, 0))
            && !s.IsExecutionPin(PinRef(1, PD_Output, 1)) && !s.IsExecutionPin(PinRef(2, PD_Output, 0))
            && !s.IsExecutionPin(PinRef(0, PD_Input, 0)) && s.Reroutes() == {}
  {
    IndexedFlags("ExecOut", PD_Output, 0);
    IndexedFlags("x", PD_Output, 1);
    IndexedFlags("value", PD_Input, 0);
    IndexedFlags("result", PD_Output, 0);
    hide Indexed;
    var s := CrowdedStore();
    assert s.nodes[0].Sound() && s.nodes[1].Sound() && s.nodes[2].Sound();
  }

  lemma CrowdedParts()
    ensures var s := CrowdedStore();
            && "f" in s.functions && "f" in s.graphs && "g" !in s.functions && "g" !in s.graphs
            && IsIdentifier("g") && "g" != "EventGraph" && HasEntry(s.nodes, s.graphs["f"].nodes)
            && s.graphs["f"].nodes == {1} && forall n :: n in s.nodes ==> n + |s.graphs["f"].nodes| < NODE_LIMIT
  {
    var s := CrowdedStore();
    hide Indexed;
    assert "g"[0] != "f"[0] && "g"[0] != "EventGraph"[0];
    assert s.nodes[1].kind.FunctionEntry? && 1 in s.graphs["f"].nodes;
    assert |s.graphs["f"].nodes| == 1;
  }

  lemma CrowdedInv()
    ensures CrowdedStore().Inv()
  {
    var s := CrowdedStore();
    CrowdedPins();
    InvIs(s);
    hide Indexed, Store.NodesSound, Store.HasPin, Store.IsExecutionPin;
    assert "f"[0] != "EventGraph"[0];
    assert s.Holds("f", 1) && s.Holds("EventGraph", 0) && s.Holds("EventGraph", 2);
    assert s.GraphSound("f") && s.GraphSound("EventGraph");
    assert s.Anchored();
  }

  lemma CrowdedRule()
    ensures CrowdedStore().Cardinality()
  {
    CrowdedPins();
    hide Indexed, Store.NodesSound, Store.HasPin, Store.IsExecutionPin;
  }

  lemma CrowdedStarts()
    ensures CanDuplicate(CrowdedStore(), "f", "g")
  {
    CrowdedInv();
    CrowdedParts();
    InvIsTidy(CrowdedStore());
    hide CrowdedStore, HasEntry, IsIdentifier, Store.Tidy, Store.Inv;
  }

  /** The one wire that leaves the graph, and the pin of node 0 it will be linked to. */
  lemma CrowdedLeaving()
    ensures var s, c := CrowdedStore(), Connection(1, 1, 2, 0);
            && (forall e :: e in Leaving(s.conns, {1}) <==> e == c)
            && StrayEnd({1}, c) == PinRef(0, PD_Input, 0) && s.HasPin(PinRef(0, PD_Input, 0))
            && Limits(s, PinRef(0, PD_Input, 0)) && Connection(2, 0, 0, 0) in s.WiresAt(PinRef(0, PD_Input, 0))
            && 0 !in s.Reroutes()
  {
    CrowdedPins();
    LeavingMeans(CrowdedStore().conns, {1});
    hide Indexed, Store.NodesSound, Store.HasPin, Store.IsExecutionPin, Leaving;
  }

  /** Every duplicate has two wires at that pin, though nothing dangles. */
  lemma CrowdedDuplicateBreaksRule()
    ensures CrowdedStore().Inv() && CrowdedStore().Cardinality() && CanDuplicate(CrowdedStore(), "f", "g")
    ensures forall t, getter, m ::
              IsDuplicate(CrowdedStore(), t, "f", "g", getter, m) ==> t.Inv() && !t.Cardinality()
  {
    hide *;
    CrowdedInv();
    CrowdedRule();
    CrowdedStarts();
    CrowdedParts();
    CrowdedLeaving();
    var s := CrowdedStore();
    forall t, getter, m | IsDuplicate(s, t, "f", "g", getter, m) ensures t.Inv() && !t.Cardinality() {
      DuplicateKeepsInvIff(s, t, "f", "g", getter, m);
      DuplicateKeepsCardinalityIff(s, t, "f", "g", getter, m);
    }
  }

  lemma ComparingIs(s: Store, t: Store, m: D.IdMap, newName: string)
    requires m.Keys <= s.nodes.Keys
    ensures Comparing(s, t, m, newName) <==>
            && s.NodesSound() && s.Anchored() && IsTable(s.nodes, m) && NodesDuplicated(s.nodes, t.nodes, m, newName)
            && s.conns <= t.conns
            && t.conns <= s.conns + D.Images(m, D.Inside(s.conns, m.Keys)) + D.Images(m, Leaving(s.conns, m.Keys))
  {
  }

  lemma NoCycleMeans(s: Store)
    ensures NoCycle(s) <==> Acyclic(s.conns, s.Reroutes())
  {
  }
}
