/**
  The orchestration object (`src/orchestration/orchestration.h`, `src/orchestration/orchestration.cpp`).

  `View` gives its state as a `Store`; every method is proved to have the effect that `Stores` defines.
 */
module Orchestrations {
  import opened Connections
  import opened ConnectionCaches
  import opened Nodes
  import opened Reroutes
  import opened Stores
  import opened Graphs
  import opened Queries
  import opened KnotMigration
  import opened Resolution
  import opened PortShift

  class Orchestration {
    const cache: ConnectionCache
    var nodes: map<int, NodeState>
    var graphs: map<string, OScriptGraph>
    var functions: map<string, FunctionState>

    /** The state as a value. */
    ghost var state: Store

    ghost predicate Valid()
      reads this, cache, graphs.Values
    {
      && cache.Valid()
      && state.conns == cache.connections && state.nodes == nodes && state.functions == functions
      && state.graphs.Keys == graphs.Keys
      && (forall g :: g in graphs ==> graphs[g].name == g && graphs[g].View() == state.graphs[g])
    }

    /** What `Valid` says of the fields, for proofs that keep it hidden. */
    lemma Fields()
      requires Valid()
      ensures cache.Valid() && state.conns == cache.connections && state.nodes == nodes && state.functions == functions
      ensures state.graphs.Keys == graphs.Keys
    {
    }

    lemma GraphFields(name: string)
      requires Valid() && name in graphs
      ensures name in state.graphs && graphs[name].name == name && graphs[name] in graphs.Values
      ensures graphs[name].nodes == state.graphs[name].nodes && graphs[name].View() == state.graphs[name]
      ensures graphs[name].functionGraph == state.graphs[name].functionGraph
      ensures graphs[name].knots == state.graphs[name].knots
    {
    }

    ghost function Repr(): set<object>
      reads this
    {
      {this, cache} + graphs.Values
    }

    constructor ()
      ensures Valid() && state == Store({}, map[], map[], map[]) && fresh(Repr())
    {
      cache := new ConnectionCache();
      nodes, graphs, functions := map[], map[], map[];
      state := Store({}, map[], map[], map[]);
    }

    // ----- Wires -----

    /** `_connect_nodes` */
    method ConnectNodes(source: int, sourcePort: int, target: int, targetPort: int)
      requires Valid()
      modifies this`state, cache
      ensures Valid()
      ensures state == ConnectGuarded(old(state), source, target, Pack(source, sourcePort, target, targetPort))
    {
      var reroutes := set id | id in nodes && nodes[id].IsReroute();
      if target in reroutes {
        var cycle := WouldCreateCycle(cache.connections, reroutes, target, source);
        if cycle {
          return;
        }
      }
      var c := Pack(source, sourcePort, target, targetPort);
      var present := cache.Has(c);
      if present {
        assert cache.connections + {c} == cache.connections;
        return;
      }
      cache.Insert(c);
      state := state.(conns := state.conns + {c});
    }

    /** The knot on a wire goes from every graph that holds one of its ends. */
    method EraseKnot(c: Connection)
      requires Valid() && state.GraphsSound()
      modifies this`state, graphs.Values
      ensures Valid() && state == old(state).(graphs := WithoutKnots(old(state).graphs, {c}))
    {
      forall g | g in graphs.Values ensures g.View().Sound() {
        var n :| n in graphs && graphs[n] == g;
        assert state.GraphSound(n);
      }
      RemoveKnot(graphs.Values, c);
      forall n | n in graphs ensures graphs[n].View() == old(graphs[n].View()).DropKnots({c}) {
        assert graphs[n] in graphs.Values;
      }
      state := state.(graphs := WithoutKnots(state.graphs, {c}));
    }

    method EraseWire(c: Connection)
      requires Valid()
      modifies this`state, cache
      ensures Valid() && state == old(state).(conns := old(state).conns - {c})
    {
      cache.Erase(c);
      state := state.(conns := state.conns - {c});
    }

    /** `_disconnect_nodes` */
    method DisconnectNodes(source: int, sourcePort: int, target: int, targetPort: int)
      requires Valid() && state.GraphsSound()
      modifies this`state, cache, graphs.Values
      ensures Valid()
      ensures state == old(state).Disconnect(Pack(source, sourcePort, target, targetPort))
    {
      hide *;
      Fields();
      var c := Pack(source, sourcePort, target, targetPort);
      DisconnectedInSteps(state, c);
      var present := cache.Has(c);
      if !present {
        return;
      }
      EraseKnot(c);
      EraseWire(c);
    }

    // ----- Queries -----

    /** The keys of the pins wired to `p`, from the adjacency index. */
    method AdjacentKeys(p: PinRef) returns (r: seq<Word32>)
      requires Valid() && state.NodesFiled() && state.HasPin(p)
      modifies cache`inputConnections, cache`outputConnections, cache`dirty
      ensures Valid() && IsPin(nodes, p)
      ensures |r| == |Neighbours(cache.connections, Address(nodes, p))|
      ensures forall i :: 0 <= i < |r| ==>
                PinOfKey(r[i], p.dir.Opposite()) == Neighbours(cache.connections, Address(nodes, p))[i]
    {
      ghost var address := Address(nodes, p);
      PinAddress(state, p);
      var key := Key(nodes[p.node].id, nodes[p.node].Pins(p.dir)[p.port].cachedIndex);
      KeyRoundTrip(address, key, p.dir);
      NoNeighbours(cache.connections, address);
      var others;
      if p.dir == PD_Input {
        others := cache.Inputs(key);
      } else {
        others := cache.Outputs(key);
      }
      match others
      case None => r := [];
      case Some(keys) => r := keys;
    }

    /** The pins behind a list of keys: `get_node` and `find_pin` for each. */
    method PinsOfKeys(keys: seq<Word32>, dir: Direction) returns (r: seq<PinRef>)
      ensures r == Existing(nodes, PinsOf(keys, dir))
    {
      r := [];
      ghost var pins := PinsOf(keys, dir);
      assert pins[..0] == [] && pins[..|keys|] == pins;
      for k := 0 to |keys|
        invariant r == Existing(nodes, pins[..k])
      {
        var q := PinOfKey(keys[k], dir);
        assert pins[..k + 1][..k] == pins[..k] && pins[..k + 1][k] == q;
        if IsPin(nodes, q) {
          r := r + [q];
        }
      }
    }

    method VisibleConnections(p: PinRef) returns (r: seq<PinRef>)
      requires Valid() && state.NodesFiled() && state.HasPin(p)
      modifies cache`inputConnections, cache`outputConnections, cache`dirty
      ensures Valid() && IsPin(nodes, p) && r == Existing(nodes, Neighbours(cache.connections, Address(nodes, p)))
    {
      hide *;
      var keys := AdjacentKeys(p);
      PinsOfSame(keys, p.dir.Opposite(), Neighbours(cache.connections, Address(nodes, p)));
      r := PinsOfKeys(keys, p.dir.Opposite());
    }

    /** `get_connections` of a pin */
    method GetConnections(p: PinRef) returns (r: seq<PinRef>)
      requires Valid() && state.NodesFiled() && IsPin(nodes, p)
      modifies cache`inputConnections, cache`outputConnections, cache`dirty
      ensures Valid() && r == Connected(state, p)
    {
      if nodes[p.node].Pins(p.dir)[p.port].IsHidden() {
        return [];
      }
      r := VisibleConnections(p);
    }

    /** `has_connections`: dangling connections count here. */
    method HasConnections(p: PinRef) returns (r: bool)
      requires Valid() && state.NodesFiled() && IsPin(nodes, p)
      modifies cache`inputConnections, cache`outputConnections, cache`dirty
      ensures Valid() && (r <==> HasAny(state, p))
      ensures state.Aligned() && state.Anchored() ==> (r <==> Connected(state, p) != [])
    {
      hide Neighbours, Store.NodesFiled, Store.Anchored, Store.Aligned, Existing;
      if state.Aligned() && state.Anchored() {
        ConnectedWhole(state, p);
        if state.HasPin(p) {
          AlignedAddress(state, p);
        }
      }
      if nodes[p.node].Pins(p.dir)[p.port].IsHidden() {
        return false;
      }
      var keys := AdjacentKeys(p);
      r := |keys| > 0;
    }

    /** `get_single_connection`: the only connected pin, nothing when there are none or several. */
    method GetSingleConnection(p: PinRef) returns (r: Option<PinRef>)
      requires Valid() && state.NodesFiled() && IsPin(nodes, p)
      modifies cache`inputConnections, cache`outputConnections, cache`dirty
      ensures Valid()
      ensures r == if |Connected(state, p)| == 1 then Some(Connected(state, p)[0]) else None
    {
      if nodes[p.node].Pins(p.dir)[p.port].IsHidden() {
        return None;
      }
      hide Store.NodesFiled, Neighbours, Existing;
      var keys := AdjacentKeys(p);
      PinsOfSame(keys, p.dir.Opposite(), Neighbours(cache.connections, Address(nodes, p)));
      r := OnlyPinOfKeys(keys, p.dir.Opposite());
    }

    /** The loop of `get_single_connection`: it gives up at the second valid pin. */
    method OnlyPinOfKeys(keys: seq<Word32>, dir: Direction) returns (r: Option<PinRef>)
      ensures var pins := Existing(nodes, PinsOf(keys, dir)); r == if |pins| == 1 then Some(pins[0]) else None
    {
      r := None;
      var valid := 0;
      ghost var pins := PinsOf(keys, dir);
      assert pins[..0] == [] && pins[..|keys|] == pins;
      for k := 0 to |keys|
        invariant valid == |Existing(nodes, pins[..k])| <= 1
        invariant r == if valid == 1 then Some(Existing(nodes, pins[..k])[0]) else None
      {
        var q := PinOfKey(keys[k], dir);
        assert pins[..k + 1][..k] == pins[..k] && pins[..k + 1][k] == q;
        ExistingGrows(nodes, pins, k + 1);
        if IsPin(nodes, q) {
          valid := valid + 1;
          if valid > 1 {
            return None;
          }
          r := Some(q);
        }
      }
    }

    /**
      `OScriptNodePin::get_connection`: only a data input or an execution output may be asked.  Under the
      cardinality rule the answer is there whenever such a pin is connected.
     */
    method GetConnection(p: PinRef) returns (r: Option<PinRef>)
      requires Valid() && state.NodesFiled() && IsPin(nodes, p)
      modifies cache`inputConnections, cache`outputConnections, cache`dirty
      ensures Valid()
      ensures var pin := nodes[p.node].Pins(p.dir)[p.port];
              var asked := if p.dir == PD_Input then pin.IsData() else pin.IsExecution();
              && r == (if asked && |Connected(state, p)| == 1 then Some(Connected(state, p)[0]) else None)
              && (asked && state.Aligned() && state.Cardinality() && !pin.IsHidden()
                  && (p.dir == PD_Input ==> !pin.IsExecution()) ==>
                    (r.None? <==> Connected(state, p) == []))
    {
      hide Store.NodesFiled, Connected, Store.Cardinality, Store.Aligned;
      var pin := nodes[p.node].Pins(p.dir)[p.port];
      if p.dir == PD_Input {
        if !pin.IsData() {
          return None;
        }
      } else {
        if !pin.IsExecution() {
          return None;
        }
      }
      r := GetSingleConnection(p);
      if state.Aligned() && state.Cardinality() && IsSingle(state, p) {
        SingleHasOne(state, p);
      }
    }

    /** One turn of `_resolve_reroute`: the first pin connected to the other side of a reroute. */
    method NextThroughReroute(p: PinRef) returns (r: Turn)
      requires Valid() && state.NodesFiled() && IsPin(nodes, p) && nodes[p.node].IsReroute()
      modifies cache`inputConnections, cache`outputConnections, cache`dirty
      ensures Valid() && r == TurnAt(state, p)
    {
      hide Connected, HasAny, Store.NodesFiled;
      var other := p.dir.Opposite();
      var name := if other == PD_Input then "input" else "output";
      FirstNamedIsFirst(nodes[p.node].Pins(other), name);
      var position := FindPinNamed(nodes[p.node], name, other);
      if position.None? {
        return Stop(Unresolved);
      }
      var otherPin := PinRef(p.node, other, position.value);
      var any := HasConnections(otherPin);
      if !any {
        return Stop(Unresolved);
      }
      var connections := GetConnections(otherPin);
      if connections == [] {
        return Stop(Fault);
      }
      r := Go(connections[0]);
    }

    /** `_resolve_reroute`: it ends on every set of connections, and may index an empty list. */
    method ResolveReroute(p: PinRef) returns (r: Outcome)
      requires Valid() && state.NodesFiled() && IsPin(nodes, p)
      modifies cache`inputConnections, cache`outputConnections, cache`dirty
      ensures Valid() && r == ResolveFrom(state, p, {})
      ensures r == Fault <==> exists k: nat :: StrandsAt(state, p, k)
    {
      ghost var s := state;
      FaultIff(s, p);
      hide TurnAt, StrandsAt, Store.NodesFiled;
      var current := p;
      var visited: set<int> := {};
      while true
        invariant Valid() && IsPin(nodes, current)
        invariant ResolveFrom(s, p, {}) == ResolveFrom(s, current, visited)
        decreases s.Reroutes() - visited
      {
        if !nodes[current.node].IsReroute() {
          return Resolved(current);
        }
        if current.node in visited {
          return Unresolved;
        }
        var turn := NextThroughReroute(current);
        match turn
        case Stop(outcome) => return outcome;
        case Go(q) =>
          visited := visited + {current.node};
          current := q;
      }
    }

    /** The loop of `get_resolved_connections`; nothing is returned when a resolution faults. */
    method ResolveAll(connections: seq<PinRef>) returns (r: Option<seq<PinRef>>)
      requires Valid() && state.NodesFiled() && forall x :: x in connections ==> IsPin(state.nodes, x)
      modifies cache`inputConnections, cache`outputConnections, cache`dirty
      ensures Valid() && r == AllFrom(state, connections)
    {
      ghost var s := state;
      var result: seq<PinRef> := [];
      hide Store.NodesFiled, ResolveFrom, StrandsAt, Valid;
      for i := 0 to |connections|
        invariant Valid() && AllFrom(s, connections[..i]) == Some(result)
      {
        assert connections[..i + 1][..i] == connections[..i] && connections[i] in connections;
        Fields();
        var resolved := ResolveReroute(connections[i]);
        match resolved
        case Fault =>
          AllFromFaults(s, connections, i);
          return None;
        case Unresolved =>
        case Resolved(x) => result := result + [x];
      }
      assert connections[..|connections|] == connections;
      r := Some(result);
    }

    /** `get_resolved_connections`: what the connected pins resolve to, where they resolve. */
    method GetResolvedConnections(p: PinRef) returns (r: Option<seq<PinRef>>)
      requires Valid() && state.NodesFiled() && IsPin(nodes, p)
      modifies cache`inputConnections, cache`outputConnections, cache`dirty
      ensures Valid() && (forall x :: x in Connected(state, p) ==> IsPin(state.nodes, x))
      ensures r == AllFrom(state, Connected(state, p))
      ensures state.NodesSound() && state.Anchored() ==>
                r.Some? && forall x :: x in r.value <==> ResolvesTo(state.conns, state.Reroutes(), p, x)
    {
      hide Store.NodesFiled, Store.NodesSound, Store.Anchored, AllFrom, Connected;
      var connections := GetConnections(p);
      ConnectedArePins(state, p);
      r := ResolveAll(connections);
      if state.NodesSound() && state.Anchored() {
        AllFromSound(state, p);
      }
    }

    // ----- Linking and unlinking pins -----

    /** `OScriptNodePin::unlink` */
    method Unlink(p: PinRef, q: PinRef)
      requires Valid() && state.NodesFiled() && state.GraphsSound() && IsPin(nodes, p) && IsPin(nodes, q)
      modifies this`state, cache, graphs.Values
      ensures Valid() && state == old(state).Disconnect(Wire(old(state).nodes, p, q))
    {
      var index := nodes[p.node].Pins(p.dir)[p.port].cachedIndex;
      var otherIndex := nodes[q.node].Pins(q.dir)[q.port].cachedIndex;
      assert nodes[p.node].id == p.node && nodes[q.node].id == q.node;
      hide Store.Disconnect, Pack, Store.NodesFiled;
      if p.dir == PD_Input {
        DisconnectNodes(nodes[q.node].id, otherIndex, nodes[p.node].id, index);
      } else {
        DisconnectNodes(nodes[p.node].id, index, nodes[q.node].id, otherIndex);
      }
    }

    /** The loop of `unlink_all`, over the pins found before it starts. */
    method UnlinkEach(p: PinRef, connections: seq<PinRef>)
      requires Valid() && state.NodesFiled() && state.GraphsSound() && state.HasPin(p) && IsPin(nodes, p)
      requires connections == Connected(state, p)
      modifies this`state, cache, graphs.Values
      ensures Valid() && state == UnlinkedAll(old(state), p)
    {
      hide *;
      Fields();
      ghost var s := state;
      WiresToEnds(s, p);
      ConnectedArePins(s, p);
      UnlinkedMeans(s, p);
      assert connections[..0] == [] && connections[..|connections|] == connections;
      for i := 0 to |connections|
        invariant Valid() && state == s.Drop(WiresTo(s, p, connections[..i]))
      {
        assert connections[i] in connections;
        WiresToStep(s, p, connections, i);
        DropKeepsParts(s, WiresTo(s, p, connections[..i]));
        Fields();
        Unlink(p, connections[i]);
      }
    }

    /** `OScriptNodePin::unlink_all` */
    method UnlinkAll(p: PinRef)
      requires Valid() && state.NodesFiled() && state.GraphsSound() && IsPin(nodes, p)
      modifies this`state, cache, graphs.Values
      ensures Valid() && state == UnlinkedAll(old(state), p)
    {
      hide *;
      Fields();
      ghost var s := state;
      HiddenHasNone(s, p);
      var connections := GetConnections(p);
      Fields();
      if nodes[p.node].Pins(p.dir)[p.port].IsHidden() {
        UnlinkedNothing(s, p);
        return;
      }
      UnlinkEach(p, connections);
    }

    /** `find_graph` of a node: the graphs are searched in any order. */
    method FindGraph(id: int) returns (r: Option<string>)
      requires Valid()
      ensures r.Some? ==> state.Holds(r.value, id)
      ensures r.None? ==> forall g :: !state.Holds(g, id)
      ensures state.Partitioned() ==> (id in nodes <==> r.Some?) && forall g :: state.Holds(g, id) <==> r == Some(g)
    {
      var todo := graphs.Keys;
      while todo != {}
        invariant todo <= graphs.Keys
        invariant forall g :: g in graphs && g !in todo ==> id !in graphs[g].nodes
        decreases todo
      {
        var g :| g in todo;
        if id in graphs[g].nodes {
          OnlyHolder(state, id, g);
          return Some(g);
        }
        todo := todo - {g};
      }
      NoHolder(state, id);
      return None;
    }

    /** The wires `link` clears: those of a data target, then those of an execution source. */
    method ClearForLink(source: PinRef, target: PinRef)
      requires Valid() && state.Tidy() && IsPin(nodes, source) && IsPin(nodes, target)
      modifies this`state, cache, graphs.Values
      ensures Valid() && IsPin(old(state).nodes, source) && IsPin(old(state).nodes, target)
      ensures state == Cleared(old(state), source, target)
    {
      hide *;
      Fields();
      TidyIs(state);
      ghost var s := state;
      ClearedInSteps(s, source, target);
      IsPinMeans(nodes, source);
      IsPinMeans(nodes, target);
      var targetPin := nodes[target.node].Pins(target.dir)[target.port];
      var sourcePin := nodes[source.node].Pins(source.dir)[source.port];
      if !targetPin.IsExecution() {
        UnlinkAll(target);
      }
      if sourcePin.IsExecution() {
        Fields();
        TidyIs(state);
        UnlinkAll(source);
      }
    }

    /** `OScriptNodePin::link`, without the branch that inserts a conversion node. */
    method Link(p: PinRef, q: PinRef)
      requires Valid() && state.Tidy() && IsPin(nodes, p) && IsPin(nodes, q)
      modifies this`state, cache, graphs.Values
      ensures Valid() && IsPin(old(state).nodes, p) && IsPin(old(state).nodes, q)
      ensures state == Linked(old(state), p, q)
    {
      hide *;
      Fields();
      ghost var s := state;
      TidyIs(s);
      var source, target := SourceOf(p, q), TargetOf(p, q);
      LinkEnds(s, p, q);
      var reroutes := set id | id in nodes && nodes[id].IsReroute();
      ReroutesAre(s);
      if target.node in reroutes {
        var cycle := WouldCreateCycle(cache.connections, reroutes, target.node, source.node);
        if cycle {
          return;
        }
      }
      ClearForLink(source, target);
      Fields();
      var owner := FindGraph(p.node);
      ClearedKeepsTidy(s, source, target);
      OwnerIsFound(s, state, p);
      if owner.None? {
        return;
      }
      ConnectPins(source, target);
    }

    /** `OScriptGraph::link` between the ids and cached indices of two pins. */
    method ConnectPins(source: PinRef, target: PinRef)
      requires Valid() && state.NodesFiled() && IsPin(nodes, source) && IsPin(nodes, target)
      modifies this`state, cache
      ensures Valid() && IsPin(old(state).nodes, source) && IsPin(old(state).nodes, target)
      ensures state == old(state).Connect(PinWire(old(state).nodes, source, target))
    {
      hide *;
      Fields();
      ghost var s := state;
      IsPinMeans(nodes, source);
      IsPinMeans(nodes, target);
      PinWireParts(s, source, target);
      var sourceIndex := nodes[source.node].Pins(source.dir)[source.port].cachedIndex;
      var targetIndex := nodes[target.node].Pins(target.dir)[target.port].cachedIndex;
      ConnectIsGuarded(s, PinWire(s.nodes, source, target));
      ConnectNodes(nodes[source.node].id, sourceIndex, nodes[target.node].id, targetIndex);
    }

    /** `adjust_connections`: first every entry hit is taken out, then every shifted entry is put in. */
    method AdjustConnections(node: int, offset: int, adjustment: int, which: Option<Direction>)
      requires Valid()
      modifies this`state, cache
      ensures Valid()
      ensures state == old(state).(conns := Adjusted(old(state).conns, node, offset, adjustment, which))
    {
      hide Collected, Adjusted;
      var existing, mutated := CollectShifts(Sorted(cache.connections), node, offset, adjustment, which);
      EraseAll(cache, existing);
      InsertAll(cache, mutated);
      CollectedShifts(state.conns, node, offset, adjustment, which, existing, mutated);
      state := state.(conns := Adjusted(state.conns, node, offset, adjustment, which));
    }

    // ----- Nodes -----

    /** `get_available_id` */
    method GetAvailableId() returns (id: int)
      requires Valid()
      ensures state.IsAvailable(id)
    {
      var max := -1;
      var todo := nodes.Keys;
      while todo != {}
        invariant todo <= nodes.Keys && max >= -1
        invariant forall n :: n in nodes && n !in todo ==> n <= max
        invariant max >= 0 ==> max in nodes
        decreases todo
      {
        assert exists n: int :: n in todo by {
          assert (forall n: int :: n !in todo) ==> todo == {};
        }
        var n: int :| n in todo;
        max := if n > max then n else max;
        todo := todo - {n};
      }
      id := max + 1;
    }

    /** `add_node` */
    method AddNode(graph: string, node: NodeState)
      requires Valid() && graph in graphs
      modifies this`nodes, this`state, graphs[graph]
      ensures Valid() && state == old(state).AddNode(graph, node)
    {
      if node.id in nodes {
        return;
      }
      var cached := CachePinIndices(node);
      nodes := nodes[node.id := cached];
      graphs[graph].AddNode(node);
      state := state.AddNode(graph, node);
    }

    /** The function a node owns goes with it; the search stops at the first one found. */
    method EraseOwnedFunction(id: int)
      requires Valid() && state.FunctionsSound()
      modifies this`functions, this`state
      ensures Valid() && state == old(state).(functions := FunctionsNotOwnedBy(old(functions), {id}))
    {
      ghost var all := functions;
      state := state.(functions := FunctionsNotOwnedBy(functions, {id}));
      var todo := functions.Keys;
      while todo != {}
        invariant todo <= functions.Keys && functions == all
        invariant forall f :: f in functions && f !in todo ==> functions[f].owner != id
        decreases todo
      {
        var f :| f in todo;
        if functions[f].owner == id {
          functions := functions - {f};
          assert functions == FunctionsNotOwnedBy(all, {id}) by {
            assert forall g :: g in all && all[g].owner == id ==> g == f;
          }
          return;
        }
        todo := todo - {f};
      }
      assert functions == FunctionsNotOwnedBy(all, {id});
    }

    /** `unlink_all` on every pin of one side of a node: only wires of the node go, though perhaps not all. */
    method UnlinkSide(id: int, dir: Direction, ghost s: Store, ghost w: set<Connection>)
        returns (ghost gone: set<Connection>)
      requires Valid() && s.Tidy() && state == s.Drop(w) && w <= WiresOf(s, id) && id in nodes
      modifies this`state, cache, graphs.Values
      ensures Valid() && state == s.Drop(gone) && gone <= WiresOf(s, id)
    {
      hide *;
      Fields();
      var count := |nodes[id].Pins(dir)|;
      gone := w;
      DropKeepsParts(s, w);
      for k := 0 to count
        invariant Valid() && state == s.Drop(gone) && gone <= WiresOf(s, id)
        invariant state.nodes == s.nodes
      {
        Fields();
        DropKeepsTidy(s, gone);
        TidyIs(s);
        TidyIs(state);
        IsPinMeans(nodes, PinRef(id, dir, k));
        ghost var more := Unlinked(state, PinRef(id, dir, k));
        UnlinkedMore(s, gone, PinRef(id, dir, k));
        UnlinkAll(PinRef(id, dir, k));
        gone := gone + more;
        DropKeepsParts(s, gone);
      }
    }

    /** The last sweep of `remove_node`: any wire still at the node is erased from the set. */
    method EraseWiresOf(id: int)
      requires Valid()
      modifies this`state, cache
      ensures Valid() && state == old(state).(conns := old(state).conns - WiresOf(old(state), id))
    {
      var removals: seq<Connection> := [];
      var order := Sorted(cache.connections);
      for k := 0 to |order|
        invariant forall c :: c in removals <==> c in order[..k] && c.IsLinkedTo(id)
      {
        assert order[..k + 1] == order[..k] + [order[k]];
        if order[k].IsLinkedTo(id) {
          removals := removals + [order[k]];
        }
      }
      assert order[..|order|] == order;
      assert (set c | c in removals) == WiresOf(state, id);
      EraseAll(cache, removals);
      state := state.(conns := state.conns - WiresOf(state, id));
    }

    /** The part of `remove_node` that takes the wires away, pin by pin and then by the last sweep. */
    method UnlinkNode(id: int) returns (ghost gone: set<Connection>)
      requires Valid() && state.Tidy() && id in nodes
      modifies this`state, cache, graphs.Values
      ensures Valid() && gone <= WiresOf(old(state), id)
      ensures state == old(state).Drop(gone).(conns := old(state).conns - WiresOf(old(state), id))
    {
      ghost var s := state;
      hide *;
      Fields();
      DropNothing(s);
      gone := UnlinkSide(id, PD_Input, s, {});
      DropKeepsParts(s, gone);
      Fields();
      gone := UnlinkSide(id, PD_Output, s, gone);
      SweptWires(s, gone, id);
      EraseWiresOf(id);
    }

    /** The part of `remove_node` that takes the node out of its graph. */
    method LeaveGraphs(id: int)
      requires Valid()
      modifies this`state, graphs.Values
      ensures Valid() && state == old(state).(graphs := LeftBy(old(state).graphs, id))
    {
      RemoveFromGraphs(graphs.Values, id);
      assert forall g :: g in graphs ==> graphs[g] in graphs.Values;
      state := state.(graphs := LeftBy(state.graphs, id));
    }

    /** `_nodes.erase` */
    method EraseNode(id: int)
      requires Valid()
      modifies this`nodes, this`state
      ensures Valid() && state == old(state).(nodes := old(state).nodes - {id})
    {
      nodes := nodes - {id};
      state := state.(nodes := state.nodes - {id});
    }

    /** `remove_node` */
    method RemoveNode(id: int)
      requires Valid() && state.Tidy()
      modifies this`nodes, this`functions, this`state, cache, graphs.Values
      ensures Valid() && state == old(state).RemoveNode(id)
    {
      ghost var s := state;
      hide *;
      Fields();
      if id !in nodes {
        UnknownNode(s, id);
        return;
      }
      TidyIs(s);
      ghost var u := s.(functions := FunctionsNotOwnedBy(s.functions, {id}));
      FewerFunctionsKeepTidy(s, {id});
      EraseOwnedFunction(id);
      Fields();
      ghost var gone := UnlinkNode(id);
      WiresOfSame(s, u, id);
      RemovedInSteps(s, id, gone);
      LeaveGraphs(id);
      EraseNode(id);
    }
  }

  /** The pins that keys stand for, whether or not they exist. */
  function PinsOf(keys: seq<Word32>, dir: Direction): seq<PinRef> {
    seq(|keys|, i requires 0 <= i < |keys| => PinOfKey(keys[i], dir))
  }

  lemma PinsOfSame(keys: seq<Word32>, dir: Direction, pins: seq<PinRef>)
    requires |keys| == |pins| && forall i :: 0 <= i < |keys| ==> PinOfKey(keys[i], dir) == pins[i]
    ensures PinsOf(keys, dir) == pins
  {
  }

  lemma {:induction false} ExistingGrows(nodes: map<int, NodeState>, q: seq<PinRef>, k: nat)
    requires k <= |q|
    ensures |Existing(nodes, q[..k])| <= |Existing(nodes, q)|
  {
    if k < |q| {
      assert q[..|q| - 1][..k] == q[..k];
      ExistingGrows(nodes, q[..|q| - 1], k);
    } else {
      assert q[..k] == q;
    }
  }

  /** With the partition a node's graph does not depend on the order the graphs are searched in. */
  lemma OnlyHolder(s: Store, id: int, g: string)
    requires s.Holds(g, id)
    ensures s.Partitioned() ==> id in s.nodes && forall h :: s.Holds(h, id) <==> h == g
  {
  }

  lemma NoHolder(s: Store, id: int)
    requires forall g :: !s.Holds(g, id)
    ensures s.Partitioned() ==> id !in s.nodes
  {
  }

  lemma IsPinMeans(nodes: map<int, NodeState>, p: PinRef)
    ensures IsPin(nodes, p) <==> p.node in nodes && 0 <= p.port < |nodes[p.node].Pins(p.dir)|
  {
  }

  /** The knot on a wire goes from every graph that holds one of its ends. */
  method RemoveKnot(graphs: set<OScriptGraph>, c: Connection)
    requires forall g :: g in graphs ==> g.View().Sound()
    modifies graphs
    ensures forall g :: g in graphs ==> g.View() == old(g.View()).DropKnots({c})
  {
    var todo := graphs;
    while todo != {}
      invariant todo <= graphs
      invariant forall g :: g in todo ==> g.View() == old(g.View())
      invariant forall g :: g in graphs && g !in todo ==> g.View() == old(g.View()).DropKnots({c})
      decreases todo
    {
      var g :| g in todo;
      if c.fromNode in g.nodes || c.toNode in g.nodes {
        g.RemoveConnectionKnot(c);
      } else {
        assert g.knots - {c} == g.knots;
      }
      todo := todo - {g};
    }
  }

  function WithoutKnots(graphs: map<string, GraphState>, d: set<Connection>): map<string, GraphState> {
    map g | g in graphs :: graphs[g].DropKnots(d)
  }

  lemma DisconnectedInSteps(s: Store, c: Connection)
    ensures s.Disconnect(c) ==
            if c in s.conns then s.(graphs := WithoutKnots(s.graphs, {c})).(conns := s.conns - {c}) else s
  {
  }

  /** What `_connect_nodes` does for any two ids: the guard looks at the ids, the wire keeps what fits. */
  ghost function ConnectGuarded(s: Store, source: int, target: int, c: Connection): Store {
    if target in s.Reroutes() && source in s.Reroutes() && Reaches(s.conns, s.Reroutes(), target, source) then s
    else s.(conns := s.conns + {c})
  }

  lemma ConnectIsGuarded(s: Store, c: Connection)
    ensures ConnectGuarded(s, c.fromNode, c.toNode, c) == s.Connect(c)
  {
    if c in s.conns {
      assert s.conns + {c} == s.conns;
    }
  }

  // ----- The passes of `remove_node` -----

  function FunctionsNotOwnedBy(functions: map<string, FunctionState>, ids: set<int>): map<string, FunctionState> {
    map f | f in functions && functions[f].owner !in ids :: functions[f]
  }

  lemma FewerFunctionsKeepTidy(s: Store, ids: set<int>)
    requires s.Tidy()
    ensures s.(functions := FunctionsNotOwnedBy(s.functions, ids)).Tidy()
  {
    var t := s.(functions := FunctionsNotOwnedBy(s.functions, ids));
    forall g, id ensures t.Holds(g, id) <==> s.Holds(g, id) && id in t.nodes {
      assert s.Holds(g, id) ==> id in s.nodes;
    }
    PartitionKept(s, t);
    forall g | g in t.graphs ensures t.GraphSound(g) {
      assert s.GraphSound(g);
    }
  }

  function WiresOf(s: Store, id: int): set<Connection> {
    set c | c in s.conns && c.IsLinkedTo(id)
  }

  lemma WiresOfSame(s: Store, t: Store, id: int)
    requires t.conns == s.conns
    ensures WiresOf(t, id) == WiresOf(s, id)
  {
  }

  /** One more pin of the node unlinked. */
  lemma UnlinkedMore(s: Store, gone: set<Connection>, p: PinRef)
    requires s.NodesFiled() && gone <= WiresOf(s, p.node)
    ensures var more := Unlinked(s.Drop(gone), p);
            UnlinkedAll(s.Drop(gone), p) == s.Drop(gone + more) && gone + more <= WiresOf(s, p.node)
  {
    var t := s.Drop(gone);
    DropKeepsParts(s, gone);
    UnlinkedAreAtNode(t, p);
    DropTwice(s, gone, Unlinked(t, p));
    hide Unlinked, Store.Drop, Store.NodesFiled;
  }

  /** What the last sweep leaves. */
  lemma SweptWires(s: Store, gone: set<Connection>, id: int)
    requires gone <= WiresOf(s, id)
    ensures var t := s.Drop(gone);
            t.(conns := t.conns - WiresOf(t, id)) == t.(conns := s.conns - WiresOf(s, id))
  {
  }

  /** Every graph drops the node, if it has it. */
  method RemoveFromGraphs(graphs: set<OScriptGraph>, id: int)
    modifies graphs
    ensures forall g :: g in graphs ==>
              g.View() == if id in old(g.View()).nodes then old(g.View()).Without({id}) else old(g.View())
  {
    var todo := graphs;
    while todo != {}
      invariant todo <= graphs
      invariant forall g :: g in todo ==> g.View() == old(g.View())
      invariant forall g :: g in graphs && g !in todo ==>
                  g.View() == if id in old(g.View()).nodes then old(g.View()).Without({id}) else old(g.View())
      decreases todo
    {
      var g :| g in todo;
      g.RemoveNode(id);
      todo := todo - {g};
    }
  }

  /** The graphs after `remove_node` has asked each to forget the node. */
  function LeftBy(graphs: map<string, GraphState>, id: int): map<string, GraphState> {
    map g | g in graphs :: if id in graphs[g].nodes then graphs[g].Without({id}) else graphs[g]
  }

  /** Dropping the knots on a node's wires first makes no difference. */
  lemma GraphWithoutNode(g: GraphState, id: int, w: set<Connection>)
    requires g.Sound() && forall c :: c in w ==> c.IsLinkedTo(id)
    ensures (if id in g.nodes then g.DropKnots(w).Without({id}) else g.DropKnots(w)) == g.Without({id})
  {
    var h := g.Without({id});
    assert (g.knots - w) - (set c | c in g.knots && c.IsLinkedTo(id)) == h.knots;
    if id in g.nodes {
      assert g.DropKnots(w).Without({id}).knots == h.knots;
    } else {
      assert g.DropKnots(w).knots == h.knots;
      assert h.nodes == g.nodes && h.functions == g.functions;
    }
  }

  lemma WiresBesides(s: Store, id: int)
    ensures s.conns - WiresOf(s, id) == s.WithoutNodes({id}).conns
  {
  }

  lemma UnknownNode(s: Store, id: int)
    requires id !in s.nodes
    ensures s.RemoveNode(id) == s
  {
  }

  /** The steps of `remove_node` together, whichever wires its pins were unlinked from. */
  lemma RemovedInSteps(s: Store, id: int, gone: set<Connection>)
    requires s.Tidy() && id in s.nodes && gone <= WiresOf(s, id)
    ensures var u := s.(functions := FunctionsNotOwnedBy(s.functions, {id}));
            var v := u.Drop(gone).(conns := u.conns - WiresOf(u, id));
            var w := v.(graphs := LeftBy(v.graphs, id));
            w.(nodes := w.nodes - {id}) == s.RemoveNode(id)
  {
    var t := s.(functions := FunctionsNotOwnedBy(s.functions, {id})).Drop(gone);
    var u := s.WithoutNodes({id});
    WiresBesides(s, id);
    forall g | g in s.graphs ensures LeftBy(t.graphs, id)[g] == u.graphs[g] {
      assert s.GraphSound(g);
      GraphWithoutNode(s.graphs[g], id, gone);
    }
    assert LeftBy(t.graphs, id) == u.graphs;
  }

  // ----- The passes of `adjust_connections` -----

  method CollectShifts(order: seq<Connection>, node: int, offset: int, adjustment: int, which: Option<Direction>)
      returns (existing: seq<Connection>, mutated: seq<Connection>)
    ensures Collected(order, node, offset, adjustment, which, existing, mutated)
  {
    existing, mutated := [], [];
    for i := 0 to |order|
      invariant forall c :: c in existing <==>
        c in order[..i] && ((which != Some(PD_Output) && Hit(c, node, offset, PD_Input))
                            || (which != Some(PD_Input) && Hit(c, node, offset, PD_Output)))
      invariant forall d :: d in mutated <==>
                exists c :: c in order[..i] && IsShiftOf(d, c, node, offset, adjustment, which)
    {
      var c := order[i];
      ghost var before := mutated;
      if which != Some(PD_Output) && c.toNode == node && c.toPort >= offset {
        existing, mutated := existing + [c], mutated + [c.(toPort := (c.toPort + adjustment) % PORT_LIMIT)];
      }
      if which != Some(PD_Input) && c.fromNode == node && c.fromPort >= offset {
        existing, mutated := existing + [c], mutated + [c.(fromPort := (c.fromPort + adjustment) % PORT_LIMIT)];
      }
      assert order[..i + 1] == order[..i] + [c];
      forall d ensures d in mutated <==> d in before || IsShiftOf(d, c, node, offset, adjustment, which) {
      }
    }
    assert order[..|order|] == order;
  }

  /** The two columns of the collected data: what is hit, and what it is shifted to. */
  ghost predicate Collected(
      order: seq<Connection>, node: int, offset: int, adjustment: int, which: Option<Direction>,
      existing: seq<Connection>, mutated: seq<Connection>)
  {
    && (forall c :: c in existing <==>
          c in order && ((which != Some(PD_Output) && Hit(c, node, offset, PD_Input))
                         || (which != Some(PD_Input) && Hit(c, node, offset, PD_Output))))
    && (forall d :: d in mutated <==> exists c :: c in order && IsShiftOf(d, c, node, offset, adjustment, which))
  }

  predicate IsShiftOf(d: Connection, c: Connection, node: int, offset: int, adjustment: int, which: Option<Direction>) {
    || (which != Some(PD_Output) && Hit(c, node, offset, PD_Input) && d == Shifted(c, adjustment, PD_Input))
    || (which != Some(PD_Input) && Hit(c, node, offset, PD_Output) && d == Shifted(c, adjustment, PD_Output))
  }

  method EraseAll(cache: ConnectionCache, list: seq<Connection>)
    requires cache.Valid()
    modifies cache
    ensures cache.Valid() && cache.connections == old(cache.connections) - set c | c in list
  {
    for i := 0 to |list|
      invariant cache.Valid() && cache.connections == old(cache.connections) - set c | c in list[..i]
    {
      assert list[..i + 1] == list[..i] + [list[i]];
      cache.Erase(list[i]);
    }
    assert list[..|list|] == list;
  }

  method InsertAll(cache: ConnectionCache, list: seq<Connection>)
    requires cache.Valid()
    modifies cache
    ensures cache.Valid() && cache.connections == old(cache.connections) + set c | c in list
  {
    for i := 0 to |list|
      invariant cache.Valid() && cache.connections == old(cache.connections) + set c | c in list[..i]
    {
      assert list[..i + 1] == list[..i] + [list[i]];
      cache.Insert(list[i]);
    }
    assert list[..|list|] == list;
  }

  /** What is collected as shifted, side by side. */
  lemma ShiftsOf(s: set<Connection>, node: int, offset: int, adjustment: int, which: Option<Direction>, d: Connection)
    ensures (exists c :: c in s && IsShiftOf(d, c, node, offset, adjustment, which)) <==>
            || (exists c :: c in Taken(s, node, offset, which, PD_Input) && d == Shifted(c, adjustment, PD_Input))
            || (exists c :: c in Taken(s, node, offset, which, PD_Output) && d == Shifted(c, adjustment, PD_Output))
  {
    hide Shifted, Hit;
    if c :| c in Taken(s, node, offset, which, PD_Input) && d == Shifted(c, adjustment, PD_Input) {
      assert IsShiftOf(d, c, node, offset, adjustment, which);
    }
    if c :| c in Taken(s, node, offset, which, PD_Output) && d == Shifted(c, adjustment, PD_Output) {
      assert IsShiftOf(d, c, node, offset, adjustment, which);
    }
  }

  lemma CollectedExisting(
      s: set<Connection>, order: seq<Connection>, node: int, offset: int, adjustment: int, which: Option<Direction>,
      existing: seq<Connection>, mutated: seq<Connection>)
    requires Collected(order, node, offset, adjustment, which, existing, mutated)
    requires forall c :: c in order <==> c in s
    ensures (set c | c in existing)
            == Taken(s, node, offset, which, PD_Input) + Taken(s, node, offset, which, PD_Output)
  {
    hide IsShiftOf, Hit;
  }

  lemma CollectedMutated(
      s: set<Connection>, order: seq<Connection>, node: int, offset: int, adjustment: int, which: Option<Direction>,
      existing: seq<Connection>, mutated: seq<Connection>)
    requires Collected(order, node, offset, adjustment, which, existing, mutated)
    requires forall c :: c in order <==> c in s
    ensures (set c | c in mutated)
            == (set c | c in Taken(s, node, offset, which, PD_Input) :: Shifted(c, adjustment, PD_Input))
               + (set c | c in Taken(s, node, offset, which, PD_Output) :: Shifted(c, adjustment, PD_Output))
  {
    hide IsShiftOf, Shifted, Hit, Taken;
    var atInputs := set c | c in Taken(s, node, offset, which, PD_Input) :: Shifted(c, adjustment, PD_Input);
    var atOutputs := set c | c in Taken(s, node, offset, which, PD_Output) :: Shifted(c, adjustment, PD_Output);
    forall d ensures d in mutated <==> d in atInputs + atOutputs {
      ShiftsOf(s, node, offset, adjustment, which, d);
    }
    assert (set c | c in mutated) == atInputs + atOutputs;
  }

  lemma CollectedShifts(
      s: set<Connection>, node: int, offset: int, adjustment: int, which: Option<Direction>,
      existing: seq<Connection>, mutated: seq<Connection>)
    requires Collected(Sorted(s), node, offset, adjustment, which, existing, mutated)
    ensures (s - set c | c in existing) + (set c | c in mutated) == Adjusted(s, node, offset, adjustment, which)
  {
    CollectedExisting(s, Sorted(s), node, offset, adjustment, which, existing, mutated);
    CollectedMutated(s, Sorted(s), node, offset, adjustment, which, existing, mutated);
    hide Collected, Taken, Shifted;
  }
}
