/**
  Whose nodes the copies of a duplicated function are (`src/orchestration/orchestration.cpp`): its entries and
  results belong to the new function, while a call of the old function goes on calling that one.
 */
module CopiedFunctions {
  import opened Connections
  import opened ConnectionCaches
  import opened Nodes
  import opened Stores
  import opened ArgumentRemoval
  import opened FunctionCreation
  import opened Duplicates
  import D = Duplication

  // ----- One copy -----

  /** A copy has the pins of its original, and the new function takes over from whichever its terminators had. */
  lemma CopiedNode(s: Store, t: Store, name: string, newName: string, getter: bool, m: D.IdMap, n: int)
    requires CanDuplicate(s, name, newName) && IsDuplicate(s, t, name, newName, getter, m) && n in m
    ensures n in s.nodes && m[n] in t.nodes && m[n] !in s.nodes
    ensures var before, copy := s.nodes[n], t.nodes[m[n]];
            && copy.id == m[n] && copy.inputs == before.inputs && copy.outputs == before.outputs
            && (before.kind.FunctionEntry? ==> copy.kind == FunctionEntry(newName))
            && (before.kind.FunctionResult? ==> copy.kind == FunctionResult(newName))
            && (!before.kind.FunctionEntry? && !before.kind.FunctionResult? ==> copy.kind == before.kind)
  {
    assert s.NodesFiled();
    hide Store.Tidy, D.Relink, IsFirstEntry;
    assert m[n] in D.Copies(m);
    var copy := CopyOf(s.nodes[n], m[n]);
    assert t.nodes[m[n]] == Terminated(copy, newName);
    assert s.nodes[n].IsCached();
    assert copy.kind == s.nodes[n].kind && copy.id == m[n];
    assert copy.inputs == s.nodes[n].inputs && copy.outputs == s.nodes[n].outputs;
    hide CopyOf;
  }

  /** The function as recorded for the copy. */
  lemma CopiedFunction(s: Store, t: Store, name: string, newName: string, getter: bool, m: D.IdMap)
    requires CanDuplicate(s, name, newName) && IsDuplicate(s, t, name, newName, getter, m)
    ensures name != newName && name in t.functions && newName in t.functions
    ensures forall f :: f in s.functions ==> f in t.functions && t.functions[f] == s.functions[f]
    ensures var f, g := s.functions[name], t.functions[newName];
            && g.name == newName && g.arguments == f.arguments && g.userDefined == f.userDefined
            && g.returnsValue == f.returnsValue && g.getterName == getter
            && (exists n :: n in m && g.owner == m[n])
            && g.owner in t.nodes && t.nodes[g.owner].kind == FunctionEntry(newName)
  {
    hide D.Relink, NodesDuplicated;
    var entry :| IsFirstEntry(s.nodes, m.Keys, entry)
      && t.functions == s.functions[newName := s.functions[name].(name := newName, owner := m[entry],
         getterName := getter)];
    CopiedNode(s, t, name, newName, getter, m, entry);
    assert t.functions[newName].owner == m[entry];
  }

  lemma DuplicateIds(s: Store, t: Store, name: string, newName: string, getter: bool, m: D.IdMap)
    requires CanDuplicate(s, name, newName) && IsDuplicate(s, t, name, newName, getter, m)
    ensures IdsFiled(s) && IdsFiled(t)
    ensures forall n :: n in s.nodes ==> n in t.nodes && t.nodes[n] == s.nodes[n]
    ensures forall a, b :: a in m && b in m && m[a] == m[b] ==> a == b
    ensures forall n :: n in t.nodes && n !in s.nodes ==> exists o :: o in m && n == m[o]
    ensures forall n :: n in s.nodes ==> n in t.nodes
    ensures name in s.functions && name in s.graphs && m.Keys == s.graphs[name].nodes
  {
    hide D.Relink, IsFirstEntry, Terminated, CopyOf;
    assert s.NodesFiled();
    forall n | n in t.nodes ensures t.nodes[n].id == n {
      if n !in s.nodes {
        var o :| o in m && n == m[o];
        CopiedNode(s, t, name, newName, getter, m, o);
      }
    }
  }

  // ----- The pins of an argument -----

  /** What goes from a node and from its copy, by what they are to the function. */
  lemma SameRemovals(n: NodeState, copy: NodeState, f: FunctionState, g: FunctionState, index: nat, dir: Direction,
                     port: int)
    requires index < |f.arguments| && g.arguments == f.arguments
    requires copy.inputs == n.inputs && copy.outputs == n.outputs
    requires n.kind.FunctionEntry? <==> copy.kind.FunctionEntry?
    requires n.kind.CallFunction? <==> copy.kind.CallFunction?
    requires n.kind.FunctionEntry? ==> (n.kind.functionName == f.name <==> copy.kind.functionName == g.name)
    requires n.kind.CallFunction? ==>
               && (n.kind.functionName == f.name <==> copy.kind.functionName == g.name)
               && (n.kind.functionName == f.name ==> f.returnsValue == g.returnsValue && f.getterName == g.getterName)
    ensures PinRef(n.id, dir, port) in NodeRemovals(n, f, index) <==>
            PinRef(copy.id, dir, port) in NodeRemovals(copy, g, index)
  {
    hide FirstNamed, Pin.IsExecution;
    assert WithoutArgument(f, index).arguments == WithoutArgument(g, index).arguments;
  }

  /** Whether an entry of the graph is one of the old function, or of which other. */
  function EntryOf(n: NodeState, f: FunctionState, g: FunctionState): FunctionState {
    if n.kind.FunctionEntry? then f.(name := n.kind.functionName) else g
  }

  /**
    The pins of an argument after the duplication.  For the old function: those there were, and the same pins
    on the copies of its calls.  For the new one, on the copies of entries: the same as on the originals, for
    the functions those belonged to.
   */
  lemma ArgumentPinsOfCopies(s: Store, t: Store, name: string, newName: string, getter: bool, m: D.IdMap, i: nat,
                             p: PinRef)
    requires CanDuplicate(s, name, newName) && IsDuplicate(s, t, name, newName, getter, m)
    requires i < |s.functions[name].arguments|
    ensures newName in t.functions && t.functions[newName].arguments == s.functions[name].arguments
    ensures var f, g := s.functions[name], t.functions[newName];
            && (p.node in s.nodes ==>
                  && (p in ArgumentPins(t, f, i) <==> p in ArgumentPins(s, f, i))
                  && (p in ArgumentPins(t, g, i) <==> p in ArgumentPins(s, g, i)))
            && (p.node in m ==>
                  && var copy := p.(node := m[p.node]);
                  && (copy in ArgumentPins(t, f, i) <==>
                      p in ArgumentPins(s, f, i) && s.nodes[p.node].kind == CallFunction(name))
                  && (copy in ArgumentPins(t, g, i) <==> p in ArgumentPins(s, EntryOf(s.nodes[p.node], f, g), i)))
            && (p.node !in t.nodes ==> p !in ArgumentPins(t, f, i) && p !in ArgumentPins(t, g, i))
  {
    var f, g := s.functions[name], t.functions[newName];
    assert f.name == name by {
      assert s.FunctionsSound();
    }
    CopiedFunction(s, t, name, newName, getter, m);
    DuplicateIds(s, t, name, newName, getter, m);
    ArgumentPinOfNode(s, f, i, p);
    ArgumentPinOfNode(s, g, i, p);
    ArgumentPinOfNode(t, f, i, p);
    ArgumentPinOfNode(t, g, i, p);
    if p.node in m {
      CopiedNode(s, t, name, newName, getter, m, p.node);
      hide *;
      CopyRemovals(s, t, f, g, i, p, m[p.node], name, newName);
    }
  }

  lemma CopyRemovals(s: Store, t: Store, f: FunctionState, g: FunctionState, i: nat, p: PinRef, id: int,
                     name: string, newName: string)
    requires IdsFiled(s) && IdsFiled(t) && p.node in s.nodes && id in t.nodes
    requires f.name == name && g.name == newName && name != newName && i < |f.arguments| && g.arguments == f.arguments
    requires g.returnsValue == f.returnsValue
    requires var before, copy := s.nodes[p.node], t.nodes[id];
             && copy.inputs == before.inputs && copy.outputs == before.outputs
             && (before.kind.FunctionEntry? ==> copy.kind == FunctionEntry(newName))
             && (before.kind.FunctionResult? ==> copy.kind == FunctionResult(newName))
             && (!before.kind.FunctionEntry? && !before.kind.FunctionResult? ==> copy.kind == before.kind)
    ensures p.(node := id) in ArgumentPins(t, f, i) <==>
            p in ArgumentPins(s, f, i) && s.nodes[p.node].kind == CallFunction(name)
    ensures p.(node := id) in ArgumentPins(t, g, i) <==> p in ArgumentPins(s, EntryOf(s.nodes[p.node], f, g), i)
  {
    var before, copy, h := s.nodes[p.node], t.nodes[id], EntryOf(s.nodes[p.node], f, g);
    hide ArgumentPins;
    ArgumentPinOfNode(s, f, i, p);
    ArgumentPinOfNode(s, h, i, p);
    ArgumentPinOfNode(t, f, i, p.(node := id));
    ArgumentPinOfNode(t, g, i, p.(node := id));
    hide FunctionState.CallsExecute, WithoutArgument, ArgumentPin, ExecutionPins;
    if before.kind.FunctionEntry? {
      SameRemovals(before, copy, h, g, i, p.dir, p.port);
    } else {
      SameRemovals(before, copy, f, f, i, p.dir, p.port);
      SameRemovals(before, copy, g, g, i, p.dir, p.port);
    }
  }

  // ----- All the pins of the new function -----

  /** The entries of the graph are of the function, and nothing belongs to the new name yet. */
  ghost predicate OwnTerminators(s: Store, name: string, newName: string)
    requires name in s.graphs
  {
    && (forall n :: n in s.graphs[name].nodes && n in s.nodes && s.nodes[n].kind.FunctionEntry? ==>
          s.nodes[n].kind == FunctionEntry(name))
    && (forall n :: n in s.nodes ==>
          s.nodes[n].kind != CallFunction(newName) && s.nodes[n].kind != FunctionEntry(newName))
  }

  /** The pins of a set that lie on nodes of the given kind, on the copies of these. */
  function ImagesOf(s: Store, m: D.IdMap, d: set<PinRef>, kind: NodeKind): set<PinRef> {
    set p | p in d && p.node in m && p.node in s.nodes && s.nodes[p.node].kind == kind :: p.(node := m[p.node])
  }

  lemma InImages(s: Store, m: D.IdMap, d: set<PinRef>, kind: NodeKind, q: PinRef)
    ensures q in ImagesOf(s, m, d, kind) <==>
            exists n :: n in m && n in s.nodes && s.nodes[n].kind == kind && q.node == m[n] && q.(node := n) in d
  {
    if q in ImagesOf(s, m, d, kind) {
      var p :| p in d && p.node in m && p.node in s.nodes && s.nodes[p.node].kind == kind && q == p.(node := m[p.node]);
      assert q.(node := p.node) == p;
    }
    if n :| n in m && n in s.nodes && s.nodes[n].kind == kind && q.node == m[n] && q.(node := n) in d {
      assert q == q.(node := n).(node := m[n]);
    }
  }

  lemma CopiesApart(s: Store, t: Store, name: string, newName: string, getter: bool, m: D.IdMap)
    requires CanDuplicate(s, name, newName) && IsDuplicate(s, t, name, newName, getter, m)
    ensures forall n :: n in m ==> n in s.nodes && m[n] in t.nodes && m[n] !in s.nodes
  {
    forall n | n in m ensures n in s.nodes && m[n] in t.nodes && m[n] !in s.nodes {
      CopiedNode(s, t, name, newName, getter, m, n);
    }
  }

  /** The pins of each argument of the new function are then the images of those on the old entries. */
  lemma NewArgumentPins(s: Store, t: Store, name: string, newName: string, getter: bool, m: D.IdMap, i: nat)
    requires CanDuplicate(s, name, newName) && IsDuplicate(s, t, name, newName, getter, m)
    requires i < |s.functions[name].arguments| && OwnTerminators(s, name, newName)
    ensures newName in t.functions && i < |t.functions[newName].arguments|
    ensures ArgumentPins(t, t.functions[newName], i)
            == ImagesOf(s, m, ArgumentPins(s, s.functions[name], i), FunctionEntry(name))
  {
    var f, g := s.functions[name], t.functions[newName];
    CopiedFunction(s, t, name, newName, getter, m);
    DuplicateIds(s, t, name, newName, getter, m);
    CopiesApart(s, t, name, newName, getter, m);
    OwnNames(s, name, newName, m);
    var d := ArgumentPins(s, f, i);
    hide *;
    forall q ensures q in ArgumentPins(t, g, i) <==> q in ImagesOf(s, m, d, FunctionEntry(name)) {
      ArgumentPinsOfCopies(s, t, name, newName, getter, m, i, q);
      NoneOfNewName(s, g, newName, i, q);
      InImages(s, m, d, FunctionEntry(name), q);
      if q.node in t.nodes && q.node !in s.nodes {
        var n :| n in m && q.node == m[n];
        ArgumentPinsOfCopies(s, t, name, newName, getter, m, i, q.(node := n));
        NoneOfNewName(s, g, newName, i, q.(node := n));
        OfItsOwn(s.nodes[n], f, g);
      }
    }
  }

  lemma OfItsOwn(n: NodeState, f: FunctionState, g: FunctionState)
    ensures n.kind == FunctionEntry(f.name) ==> EntryOf(n, f, g) == f
    ensures !n.kind.FunctionEntry? ==> EntryOf(n, f, g) == g
  {
  }

  lemma OwnNames(s: Store, name: string, newName: string, m: D.IdMap)
    requires s.FunctionsSound() && name in s.functions && name in s.graphs && OwnTerminators(s, name, newName)
    requires m.Keys == s.graphs[name].nodes
    ensures s.functions[name].name == name
    ensures forall n :: n in s.nodes ==>
              s.nodes[n].kind != CallFunction(newName) && s.nodes[n].kind != FunctionEntry(newName)
    ensures forall n :: n in m && n in s.nodes && s.nodes[n].kind.FunctionEntry? ==>
              s.nodes[n].kind == FunctionEntry(name)
  {
  }

  /** Those of the old function are the pins there were, and the images of those on calls in its own graph. */
  lemma OldArgumentPins(s: Store, t: Store, name: string, newName: string, getter: bool, m: D.IdMap, i: nat)
    requires CanDuplicate(s, name, newName) && IsDuplicate(s, t, name, newName, getter, m)
    requires i < |s.functions[name].arguments|
    ensures name in t.functions && t.functions[name] == s.functions[name]
    ensures ArgumentPins(t, t.functions[name], i)
            == ArgumentPins(s, s.functions[name], i)
               + ImagesOf(s, m, ArgumentPins(s, s.functions[name], i), CallFunction(name))
  {
    var f := s.functions[name];
    CopiedFunction(s, t, name, newName, getter, m);
    DuplicateIds(s, t, name, newName, getter, m);
    CopiesApart(s, t, name, newName, getter, m);
    ArgumentPinsExist(s, f, i);
    var d := ArgumentPins(s, f, i);
    hide *;
    forall q ensures q in ArgumentPins(t, f, i) <==> q in d + ImagesOf(s, m, d, CallFunction(name)) {
      ArgumentPinsOfCopies(s, t, name, newName, getter, m, i, q);
      InImages(s, m, d, CallFunction(name), q);
      if q.node in t.nodes && q.node !in s.nodes {
        var n :| n in m && q.node == m[n];
        ArgumentPinsOfCopies(s, t, name, newName, getter, m, i, q.(node := n));
      }
    }
  }

  /** So they lie on old nodes only exactly when no call in the old function's graph loses a pin with the argument. */
  lemma OnlyOldPinsIff(s: Store, t: Store, name: string, newName: string, getter: bool, m: D.IdMap, i: nat)
    requires CanDuplicate(s, name, newName) && IsDuplicate(s, t, name, newName, getter, m)
    requires i < |s.functions[name].arguments|
    ensures name in t.functions && t.functions[name] == s.functions[name]
    ensures (forall p :: p in ArgumentPins(t, t.functions[name], i) ==> p.node in s.nodes) <==>
            (forall p :: p in ArgumentPins(s, s.functions[name], i) && p.node in s.graphs[name].nodes ==>
               p.node in s.nodes && s.nodes[p.node].kind != CallFunction(name))
  {
    var f := s.functions[name];
    OldArgumentPins(s, t, name, newName, getter, m, i);
    DuplicateIds(s, t, name, newName, getter, m);
    CopiesApart(s, t, name, newName, getter, m);
    ArgumentPinsExist(s, f, i);
    var d := ArgumentPins(s, f, i);
    hide *;
    forall p ensures p in d && p.node in m && s.nodes[p.node].kind == CallFunction(name) ==>
        p.(node := m[p.node]) in ImagesOf(s, m, d, CallFunction(name))
    {
      if p in d && p.node in m && s.nodes[p.node].kind == CallFunction(name) {
        InImages(s, m, d, CallFunction(name), p.(node := m[p.node]));
        assert p.(node := m[p.node]).(node := p.node) == p;
      }
    }
    forall q | q in ImagesOf(s, m, d, CallFunction(name))
      ensures exists n :: n in m && s.nodes[n].kind == CallFunction(name) && q.node == m[n] && q.(node := n) in d
    {
      InImages(s, m, d, CallFunction(name), q);
    }
  }

  lemma ArgumentPinsExist(s: Store, f: FunctionState, i: nat)
    requires i < |f.arguments| && IdsFiled(s)
    ensures forall p :: p in ArgumentPins(s, f, i) ==> p.node in s.nodes
  {
    forall p | p in ArgumentPins(s, f, i) ensures p.node in s.nodes {
      ArgumentPinOfNode(s, f, i, p);
    }
  }

  lemma NoneOfNewName(s: Store, g: FunctionState, newName: string, i: nat, p: PinRef)
    requires i < |g.arguments| && g.name == newName
    requires forall n :: n in s.nodes ==>
               s.nodes[n].kind != CallFunction(newName) && s.nodes[n].kind != FunctionEntry(newName)
    ensures p !in ArgumentPins(s, g, i)
  {
  }

  // ----- A function that calls itself -----

  function RecursiveStore(): Store {
    Store({},
          map[1 := NodeState(1, FunctionEntry("f"), [], [CreatedPin(Named("x"), PD_Output, DATA).(cachedIndex := 0)]),
              2 := NodeState(2, CallFunction("f"), [CreatedPin(Named("x"), PD_Input, DATA).(cachedIndex := 0)], [])],
          map["f" := GraphState("f", true, false, {1, 2}, {1}, map[])],
          map["f" := FunctionState("f", 1, true, ["x"], false, false)])
  }

  lemma RecursiveParts()
    ensures var s := RecursiveStore();
            && "f" in s.functions && "f" in s.graphs && s.graphs["f"].nodes == {1, 2}
            && "g" !in s.functions && "g" !in s.graphs && IsIdentifier("g") && "g" != "EventGraph"
            && HasEntry(s.nodes, s.graphs["f"].nodes)
            && (forall n :: n in s.nodes ==> n + |s.graphs["f"].nodes| < NODE_LIMIT)
            && s.functions["f"].arguments == ["x"] && 2 in s.nodes && s.nodes[2].kind == CallFunction("f")
  {
    var s := RecursiveStore();
    hide CreatedPin;
    assert "g"[0] != "f"[0] && "g"[0] != "EventGraph"[0];
    assert s.nodes[1].kind.FunctionEntry? && 1 in s.graphs["f"].nodes;
    assert |s.graphs["f"].nodes| == 2;
  }

  lemma RecursiveNodes()
    ensures RecursiveStore().NodesFiled() && IdsFiled(RecursiveStore())
    ensures PinRef(2, PD_Input, 0) in ArgumentPins(RecursiveStore(), RecursiveStore().functions["f"], 0)
  {
    var s := RecursiveStore();
    PinFlags(Named("x"), PD_Output);
    PinFlags(Named("x"), PD_Input);
    forall id | id in s.nodes ensures s.nodes[id].IsCached() {
      SoundIsCached(s.nodes[id]);
    }
    assert s.nodes[2].inputs[0].property.name == "x";
    assert IsArgumentPin(s, s.functions["f"], 0, PinRef(2, PD_Input, 0));
    PinGoesIff(s, s.functions["f"], 0, PinRef(2, PD_Input, 0));
  }

  lemma RecursiveTidy()
    ensures RecursiveStore().Tidy()
  {
    var s := RecursiveStore();
    RecursiveNodes();
    hide CreatedPin, Store.NodesFiled, ArgumentPins;
    assert s.Holds("f", 1) && s.Holds("f", 2);
    assert s.GraphSound("f");
  }

  /** Its copy still calls the old function: a pin of the old function's argument lies on a new node. */
  lemma RecursiveCallStays()
    ensures RecursiveStore().Tidy() && CanDuplicate(RecursiveStore(), "f", "g")
    ensures forall t, getter, m :: IsDuplicate(RecursiveStore(), t, "f", "g", getter, m) ==>
              && "f" in t.functions && |t.functions["f"].arguments| == 1
              && exists p :: p in ArgumentPins(t, t.functions["f"], 0) && p.node !in RecursiveStore().nodes
  {
    RecursiveTidy();
    RecursiveParts();
    RecursiveNodes();
    hide RecursiveStore, Store.Tidy, HasEntry, IsIdentifier, ArgumentPins, Store.NodesFiled, IdsFiled;
    var s := RecursiveStore();
    assert CanDuplicate(s, "f", "g");
    forall t, getter, m | IsDuplicate(s, t, "f", "g", getter, m)
      ensures && "f" in t.functions && |t.functions["f"].arguments| == 1
              && exists p :: p in ArgumentPins(t, t.functions["f"], 0) && p.node !in s.nodes
    {
      hide CanDuplicate, IsDuplicate;
      OnlyOldPinsIff(s, t, "f", "g", getter, m, 0);
      assert PinRef(2, PD_Input, 0).node in s.graphs["f"].nodes;
    }
  }
}
