/**
  The orchestration as a value: its connection set, nodes, graphs and functions, the invariant that
  every edit keeps, and the effect of each edit.

  The methods of the class `Orchestration` are proved to have exactly these effects; the lemmas here and
  in the later files are about them.
 */
module Stores {
  import opened Connections
  import opened ConnectionCaches
  import opened Nodes
  import opened Reroutes

  datatype GraphState = GraphState(
    name: string,
    functionGraph: bool,
    eventGraph: bool,
    nodes: set<int>,
    functions: set<int>,
    knots: map<Connection, nat>)
  {
    /** `OScriptGraph::add_node`: entry points of the right kind are also registered as functions. */
    function Add(node: NodeState): GraphState {
      var entry := (node.kind.FunctionEntry? && functionGraph) || (node.kind.Event? && eventGraph);
      this.(nodes := nodes + {node.id}, functions := if entry then functions + {node.id} else functions)
    }

    /** `OScriptGraph::remove_node`, for a set of nodes: their knots go with them. */
    function Without(ids: set<int>): GraphState {
      this.(nodes := nodes - ids,
            functions := functions - ids,
            knots := map c | c in knots && c.fromNode !in ids && c.toNode !in ids :: knots[c])
    }

    function DropKnots(d: set<Connection>): GraphState {
      this.(knots := knots - d)
    }

    /** Registered functions are nodes of the graph, and knots lie on wires between its nodes. */
    ghost predicate Sound() {
      && functions <= nodes
      && (forall c :: c in knots ==> c.fromNode in nodes && c.toNode in nodes)
    }
  }

  datatype FunctionState = FunctionState(
    name: string,
    owner: int,
    userDefined: bool,
    arguments: seq<string>,
    returnsValue: bool,
    getterName: bool)
  {
    /** Calls have execution pins, except calls of a getter: no argument, a result, a name like "Get x" or "Is x". */
    predicate CallsExecute() {
      !(returnsValue && arguments == [] && getterName)
    }
  }

  datatype Store = Store(
    conns: set<Connection>,
    nodes: map<int, NodeState>,
    graphs: map<string, GraphState>,
    functions: map<string, FunctionState>)
  {
    /** The ids of the reroute nodes. */
    function Reroutes(): set<int> {
      set id | id in nodes && nodes[id].IsReroute()
    }

    /** The pin exists and is not hidden. */
    predicate HasPin(p: PinRef) {
      p.node in nodes && nodes[p.node].HasVisiblePin(p.dir, p.port)
    }

    function PinAt(p: PinRef): Pin
      requires HasPin(p)
    {
      nodes[p.node].Pins(p.dir)[p.port]
    }

    // ----- The invariant -----

    predicate Holds(g: string, id: int) {
      g in graphs && id in graphs[g].nodes
    }

    /** Every node is in exactly one graph, and graphs hold nothing else. */
    ghost predicate Partitioned() {
      && (forall g, h, id :: Holds(g, id) && Holds(h, id) ==> g == h)
      && (forall g, id :: Holds(g, id) ==> id in nodes)
      && (forall id :: id in nodes ==> exists g :: Holds(g, id))
    }

    /** Every connection joins nodes that exist. */
    ghost predicate Wired() {
      forall c :: c in conns ==> c.fromNode in nodes && c.toNode in nodes
    }

    /** No connection dangles: both its ends are visible pins. */
    ghost predicate Anchored() {
      forall c :: c in conns ==> HasPin(c.End(PD_Output)) && HasPin(c.End(PD_Input))
    }

    /** Nodes are filed under their ids, which fit 24 bits, and their pin indices are up to date. */
    ghost predicate NodesFiled() {
      forall id :: id in nodes ==> 0 <= id < NODE_LIMIT && nodes[id].id == id && nodes[id].IsCached()
    }

    /** The cached index of every visible pin is its position. */
    ghost predicate Aligned() {
      forall id :: id in nodes ==> nodes[id].IsAligned()
    }

    ghost predicate NodesSound() {
      forall id :: id in nodes ==> 0 <= id < NODE_LIMIT && nodes[id].id == id && nodes[id].Sound()
    }

    ghost predicate GraphsSound() {
      forall g :: g in graphs ==> GraphSound(g)
    }

    ghost predicate GraphSound(g: string)
      requires g in graphs
    {
      graphs[g].name == g && graphs[g].Sound()
    }

    /** Functions are filed under their names, and each is owned by a node of its own. */
    ghost predicate FunctionsSound() {
      && (forall f :: f in functions ==> functions[f].name == f && functions[f].owner in nodes)
      && (forall f, g :: f in functions && g in functions && functions[f].owner == functions[g].owner ==> f == g)
    }

    /**
      What holds whatever pins the nodes have: the partition, no connection to a missing node, and tables
      filed under the right keys.
     */
    ghost predicate Tidy() {
      Partitioned() && Wired() && NodesFiled() && GraphsSound() && FunctionsSound()
    }

    /** And when hidden pins come last: no connection dangles, and every index is a position. */
    ghost predicate Inv() {
      Tidy() && Anchored() && NodesSound()
    }

    /**
      The cardinality rule: a data input has at most one incoming wire, an execution output at most
      one outgoing wire.
     */
    ghost predicate Cardinality() {
      forall c, d :: c in conns && d in conns ==>
        && (c.End(PD_Input) == d.End(PD_Input) && !IsExecutionPin(c.End(PD_Input)) ==> c == d)
        && (c.End(PD_Output) == d.End(PD_Output) && IsExecutionPin(c.End(PD_Output)) ==> c == d)
    }

    predicate IsExecutionPin(p: PinRef) {
      HasPin(p) && PinAt(p).IsExecution()
    }

    // ----- Queries -----

    /** `get_available_id`: one more than the largest id in use. */
    ghost predicate IsAvailable(id: int) {
      id >= 0 && (forall n :: n in nodes ==> n < id) && (id > 0 ==> id - 1 in nodes)
    }

    /** The connections at a pin. */
    function WiresAt(p: PinRef): set<Connection> {
      set c | c in conns && c.End(p.dir) == p
    }

    ghost predicate ClosesCycle(c: Connection) {
      c.fromNode in Reroutes() && c.toNode in Reroutes() && Reaches(conns, Reroutes(), c.toNode, c.fromNode)
    }

    // ----- Edits -----

    /** Removing connections also removes the knots placed on them. */
    function Drop(d: set<Connection>): Store {
      this.(conns := conns - d, graphs := map g | g in graphs :: graphs[g].DropKnots(d))
    }

    /** `add_node`: nothing happens when the id is taken. */
    function AddNode(graph: string, node: NodeState): Store
      requires graph in graphs
    {
      if node.id in nodes then this
      else this.(nodes := nodes[node.id := node.Cache()],
                 graphs := graphs[graph := graphs[graph].Add(node)])
    }

    /** The store without a set of nodes, their wires, their knots and the functions they own. */
    function WithoutNodes(ids: set<int>): Store {
      Store((set c | c in conns && c.fromNode !in ids && c.toNode !in ids),
            nodes - ids,
            (map g | g in graphs :: graphs[g].Without(ids)),
            (map f | f in functions && functions[f].owner !in ids :: functions[f]))
    }

    /** `remove_node`: an unknown id is refused. */
    function RemoveNode(id: int): Store {
      if id in nodes then WithoutNodes({id}) else this
    }

    /** `_connect_nodes`: refused when it would close a cycle of reroutes, or when the wire exists. */
    ghost function Connect(c: Connection): Store {
      if ClosesCycle(c) || c in conns then this else this.(conns := conns + {c})
    }

    /** `_disconnect_nodes`: refused when there is no such wire. */
    function Disconnect(c: Connection): Store {
      if c in conns then Drop({c}) else this
    }

    /** `OScriptNodePin::unlink_all` */
    function UnlinkAll(p: PinRef): Store {
      Drop(WiresAt(p))
    }

    /** The wires `link` clears away before it connects. */
    function Displaced(c: Connection): set<Connection> {
      (if IsExecutionPin(c.End(PD_Input)) then {} else WiresAt(c.End(PD_Input)))
      + (if IsExecutionPin(c.End(PD_Output)) then WiresAt(c.End(PD_Output)) else {})
    }

    /** `OScriptNodePin::link`, between the two ends of `c`. */
    ghost function Link(c: Connection): Store {
      if ClosesCycle(c) then this else Drop(Displaced(c)).Connect(c)
    }

    /** `create_graph` */
    function CreateGraph(name: string, functionGraph: bool, eventGraph: bool): Store {
      if name in graphs || !IsIdentifier(name) then this
      else this.(graphs := graphs[name := GraphState(name, functionGraph, eventGraph, {}, {}, map[])])
    }

    /** `remove_graph`: the nodes of the graph go with it; the event graph stays. */
    function RemoveGraph(name: string): Store {
      if name !in graphs || name == "EventGraph" then this
      else var rest := WithoutNodes(graphs[name].nodes); rest.(graphs := rest.graphs - {name})
    }

    /** `rename_graph` */
    function RenameGraph(oldName: string, newName: string): Store {
      if oldName !in graphs || newName in graphs || !IsIdentifier(newName) then this
      else this.(graphs := graphs[newName := graphs[oldName].(name := newName)] - {oldName})
    }

    /** `move_node_to` */
    function MoveNode(id: int, source: string, target: string): Store
      requires source in graphs && target in graphs
    {
      if id !in nodes || id !in graphs[source].nodes || source == target then this
      else this.(graphs := graphs[source := graphs[source].Without({id})][target := graphs[target].Add(nodes[id])])
    }

    /** `set_knots` */
    function SetKnots(graph: string, knots: map<Connection, nat>): Store
      requires graph in graphs
    {
      this.(graphs := graphs[graph := graphs[graph].(knots := knots)])
    }

    /** The nodes that call a function. */
    function Callers(name: string): set<int> {
      set id | id in nodes && nodes[id].kind == CallFunction(name)
    }

    /** What goes with a function: its own graph's nodes, the nodes that call it, its owner. */
    function FunctionNodes(name: string): set<int>
      requires name in functions
    {
      (if OwnsGraph(name) then graphs[name].nodes else {}) + Callers(name) + {functions[name].owner}
    }

    predicate OwnsGraph(name: string) {
      name in graphs && graphs[name].functionGraph && name != "EventGraph"
    }

    /** `remove_function` */
    function RemoveFunction(name: string): Store {
      if name !in functions then this
      else
        var rest := WithoutNodes(FunctionNodes(name));
        rest.(graphs := if OwnsGraph(name) then rest.graphs - {name} else rest.graphs,
              functions := rest.functions - {name})
    }
  }

  /** A name that starts with a letter or underscore and goes on with letters, digits and underscores. */
  predicate IsIdentifier(name: string) {
    && name != ""
    && !('0' <= name[0] <= '9')
    && forall i :: 0 <= i < |name| ==>
         name[i] == '_' || '0' <= name[i] <= '9' || 'a' <= name[i] <= 'z' || 'A' <= name[i] <= 'Z'
  }

  /** An identifier followed by more text is one exactly if the text could follow an underscore. */
  lemma IdentifierByParts(a: string, b: string)
    requires a != ""
    ensures IsIdentifier(a + b) <==> IsIdentifier(a) && IsIdentifier("_" + b)
  {
    if IsIdentifier(a + b) {
      assert forall i :: 0 <= i < |a| ==> a[i] == (a + b)[i];
      assert forall i :: 0 < i < |"_" + b| ==> ("_" + b)[i] == (a + b)[|a| + i - 1];
    }
    if IsIdentifier(a) && IsIdentifier("_" + b) {
      assert forall i :: 0 <= i < |b| ==> b[i] == ("_" + b)[i + 1];
    }
  }

  /** One letter or underscore is an identifier, a digit may only follow, and nothing else may. */
  lemma IdentifierChars(c: char)
    ensures !IsIdentifier("")
    ensures IsIdentifier([c]) <==> c == '_' || 'a' <= c <= 'z' || 'A' <= c <= 'Z'
    ensures IsIdentifier("_" + [c]) <==> IsIdentifier([c]) || '0' <= c <= '9'
  {
    assert ("_" + [c])[1] == c && ("_" + [c])[0] == '_';
  }

  lemma SomeId(ids: set<int>) returns (id: int)
    requires ids != {}
    ensures id in ids
  {
    assert exists n: int :: n in ids by {
      assert (forall n: int :: n !in ids) ==> ids == {};
    }
    id :| id in ids;
  }

  // ----- The parts of the invariant -----

  lemma InvIs(s: Store)
    ensures s.Inv() <==>
            s.Partitioned() && s.Anchored() && s.NodesSound() && s.GraphsSound() && s.FunctionsSound()
  {
    if s.Anchored() {
      AnchoredIsWired(s);
    }
    if s.NodesSound() {
      SoundIsFiled(s);
    }
  }

  lemma InvIsTidy(s: Store)
    requires s.Inv()
    ensures s.Tidy()
  {
  }

  lemma TidyIs(s: Store)
    ensures s.Tidy() <==>
            s.Partitioned() && s.Wired() && s.NodesFiled() && s.GraphsSound() && s.FunctionsSound()
  {
  }

  lemma AnchoredIsWired(s: Store)
    requires s.Anchored()
    ensures s.Wired()
  {
    forall c | c in s.conns ensures c.fromNode in s.nodes && c.toNode in s.nodes {
      assert s.HasPin(c.End(PD_Output)) && s.HasPin(c.End(PD_Input));
    }
  }

  lemma SoundIsFiled(s: Store)
    requires s.NodesSound()
    ensures s.NodesFiled() && s.Aligned()
  {
    forall id | id in s.nodes ensures s.nodes[id].IsCached() && s.nodes[id].IsAligned() {
      SoundIsCached(s.nodes[id]);
    }
  }

  /** Where nothing is added, the pins of the wires that stay are still there. */
  lemma FewerKeepsInv(s: Store, t: Store)
    requires s.Inv() && t.Tidy() && t.conns <= s.conns
    requires forall id :: id in t.nodes ==> id in s.nodes && t.nodes[id] == s.nodes[id]
    ensures t.Inv()
  {
    hide Store.Partitioned, Store.GraphsSound, Store.FunctionsSound, Store.NodesFiled;
    forall c | c in t.conns ensures t.HasPin(c.End(PD_Output)) && t.HasPin(c.End(PD_Input)) {
      assert s.HasPin(c.End(PD_Output)) && s.HasPin(c.End(PD_Input));
      assert c.fromNode in t.nodes && c.toNode in t.nodes;
    }
  }

  /** The partition only depends on which graph holds which node. */
  lemma PartitionKept(s: Store, t: Store)
    requires s.Partitioned() && t.nodes.Keys <= s.nodes.Keys
    requires forall g, id :: t.Holds(g, id) <==> s.Holds(g, id) && id in t.nodes
    ensures t.Partitioned()
  {
    forall id | id in t.nodes ensures exists g :: t.Holds(g, id) {
      var g :| s.Holds(g, id);
      assert t.Holds(g, id);
    }
  }

  /** New nodes that join one graph keep the partition. */
  lemma PartitionGrows(s: Store, t: Store, g: string, ids: set<int>)
    requires s.Partitioned() && ids !! s.nodes.Keys && t.nodes.Keys == s.nodes.Keys + ids
    requires forall h, n :: t.Holds(h, n) <==> s.Holds(h, n) || (h == g && n in ids)
    ensures t.Partitioned()
  {
    forall h, n | s.Holds(h, n) ensures n in s.nodes && n !in ids {
    }
    forall n | n in t.nodes ensures exists h :: t.Holds(h, n) {
      if n in s.nodes {
        var h :| s.Holds(h, n);
        assert t.Holds(h, n);
      } else {
        assert t.Holds(g, n);
      }
    }
  }

  /** A node whose id is not in use has no wires: a reused id starts clean. */
  lemma UnusedIdIsUnwired(s: Store, id: int, c: Connection)
    requires s.Wired() && id !in s.nodes && c in s.conns
    ensures !c.IsLinkedTo(id)
  {
  }

  // ----- Every edit keeps the tidiness, and the invariant where the pins are sound -----

  /** The parts that do not look at the wires. */
  lemma RegroupedSound(s: Store, t: Store)
    requires t.nodes == s.nodes && t.graphs == s.graphs && t.functions == s.functions
    ensures s.Partitioned() ==> t.Partitioned()
    ensures s.NodesFiled() ==> t.NodesFiled()
    ensures s.NodesSound() ==> t.NodesSound()
    ensures s.GraphsSound() ==> t.GraphsSound()
    ensures s.FunctionsSound() ==> t.FunctionsSound()
  {
    if s.Partitioned() {
      forall g, id ensures t.Holds(g, id) <==> s.Holds(g, id) && id in t.nodes {
        assert s.Holds(g, id) ==> id in s.nodes;
        assert g in s.graphs <==> g in t.graphs;
      }
      PartitionKept(s, t);
    }
    if s.GraphsSound() {
      forall g | g in t.graphs ensures t.GraphSound(g) {
        assert s.GraphSound(g);
      }
    }
  }

  /** The partition and the graphs look at the ids of the nodes only. */
  lemma SameKeysGrouped(s: Store, t: Store)
    requires t.nodes.Keys == s.nodes.Keys && t.graphs == s.graphs && s.Partitioned() && s.GraphsSound()
    ensures t.Partitioned() && t.GraphsSound()
  {
    forall g, id ensures t.Holds(g, id) <==> s.Holds(g, id) && id in t.nodes {
      assert s.Holds(g, id) ==> id in s.nodes;
    }
    PartitionKept(s, t);
    forall g | g in t.graphs ensures t.GraphSound(g) {
      assert s.GraphSound(g);
    }
  }

  lemma DropKeepsTidy(s: Store, d: set<Connection>)
    requires s.Tidy()
    ensures s.Drop(d).Tidy()
  {
    var t := s.Drop(d);
    forall g, id ensures t.Holds(g, id) <==> s.Holds(g, id) && id in t.nodes {
      assert s.Holds(g, id) ==> id in s.nodes;
      assert g in s.graphs <==> g in t.graphs;
    }
    PartitionKept(s, t);
    forall g | g in t.graphs ensures t.GraphSound(g) {
      assert s.GraphSound(g);
    }
  }

  lemma DropKeepsInv(s: Store, d: set<Connection>)
    requires s.Inv()
    ensures s.Drop(d).Inv()
  {
    DropKeepsTidy(s, d);
    FewerKeepsInv(s, s.Drop(d));
  }

  lemma AddNodeKeepsPartition(s: Store, graph: string, node: NodeState)
    requires s.Partitioned() && graph in s.graphs && node.id !in s.nodes
    ensures s.AddNode(graph, node).Partitioned()
  {
    var t := s.AddNode(graph, node);
    assert forall g, id :: t.Holds(g, id) <==> s.Holds(g, id) || (g == graph && id in {node.id});
    PartitionGrows(s, t, graph, {node.id});
  }

  lemma AddNodeKeepsGraphs(s: Store, graph: string, node: NodeState)
    requires s.GraphsSound() && graph in s.graphs
    ensures s.AddNode(graph, node).GraphsSound()
  {
    var t := s.AddNode(graph, node);
    forall g | g in t.graphs ensures t.GraphSound(g) {
      assert s.GraphSound(g);
    }
  }

  /** Any node may be added, whatever its pins. */
  lemma AddNodeKeepsTidy(s: Store, graph: string, node: NodeState)
    requires s.Tidy() && graph in s.graphs && 0 <= node.id < NODE_LIMIT
    requires |node.inputs| <= PORT_LIMIT && |node.outputs| <= PORT_LIMIT
    ensures s.AddNode(graph, node).Tidy()
  {
    if node.id !in s.nodes {
      AddNodeKeepsPartition(s, graph, node);
      AddNodeKeepsGraphs(s, graph, node);
      CacheIsCached(node);
      hide Store.Partitioned, Store.GraphsSound, NodeState.IsCached;
      assert s.AddNode(graph, node).NodesFiled();
    }
  }

  /** The pin-level invariant stays exactly when the new node is fit for it, or is refused. */
  lemma AddNodeKeepsInv(s: Store, graph: string, node: NodeState)
    requires s.Inv() && graph in s.graphs && 0 <= node.id < NODE_LIMIT
    requires |node.inputs| <= PORT_LIMIT && |node.outputs| <= PORT_LIMIT
    ensures s.AddNode(graph, node).Inv() <==> node.id in s.nodes || node.Cache().Sound()
  {
    var t := s.AddNode(graph, node);
    AddNodeKeepsTidy(s, graph, node);
    if node.id !in s.nodes {
      hide Store.Tidy, NodeState.Sound;
      forall c | c in t.conns ensures t.HasPin(c.End(PD_Output)) && t.HasPin(c.End(PD_Input)) {
        assert s.HasPin(c.End(PD_Output)) && s.HasPin(c.End(PD_Input));
      }
      assert t.nodes[node.id] == node.Cache();
    }
  }

  lemma WithoutNodesKeepsGraphs(s: Store, ids: set<int>)
    requires s.GraphsSound()
    ensures s.WithoutNodes(ids).GraphsSound()
  {
    forall g | g in s.graphs ensures s.WithoutNodes(ids).GraphSound(g) {
      assert s.GraphSound(g);
    }
  }

  lemma WithoutNodesKeepsTidy(s: Store, ids: set<int>)
    requires s.Tidy()
    ensures s.WithoutNodes(ids).Tidy()
  {
    var t := s.WithoutNodes(ids);
    forall g, id ensures t.Holds(g, id) <==> s.Holds(g, id) && id in t.nodes {
      assert s.Holds(g, id) ==> id in s.nodes;
      assert g in s.graphs <==> g in t.graphs;
    }
    PartitionKept(s, t);
    WithoutNodesKeepsGraphs(s, ids);
    hide Store.Partitioned, Store.GraphsSound;
    assert t.NodesFiled();
    assert t.FunctionsSound();
  }

  lemma WithoutNodesKeepsInv(s: Store, ids: set<int>)
    requires s.Inv()
    ensures s.WithoutNodes(ids).Inv()
  {
    WithoutNodesKeepsTidy(s, ids);
    FewerKeepsInv(s, s.WithoutNodes(ids));
  }

  lemma GraphWithoutTwice(g: GraphState, a: set<int>, b: set<int>)
    ensures g.Without(a).Without(b) == g.Without(a + b)
  {
    assert g.Without(a).Without(b).knots == g.Without(a + b).knots;
  }

  /** Removing nodes in several rounds removes them all, in any order. */
  lemma WithoutNodesTwice(s: Store, a: set<int>, b: set<int>)
    ensures s.WithoutNodes(a).WithoutNodes(b) == s.WithoutNodes(a + b)
  {
    var t, u := s.WithoutNodes(a).WithoutNodes(b), s.WithoutNodes(a + b);
    assert t.conns == u.conns;
    assert t.nodes == u.nodes;
    assert t.graphs == u.graphs by {
      forall g | g in s.graphs ensures t.graphs[g] == u.graphs[g] {
        GraphWithoutTwice(s.graphs[g], a, b);
      }
    }
    assert t.functions == u.functions;
  }

  lemma ConnectParts(s: Store, c: Connection)
    ensures s.Connect(c).nodes == s.nodes && s.Connect(c).graphs == s.graphs && s.Connect(c).functions == s.functions
    ensures s.Connect(c).conns == if s.ClosesCycle(c) then s.conns else s.conns + {c}
  {
    hide Store.ClosesCycle;
    assert c in s.conns ==> s.conns + {c} == s.conns;
  }

  lemma ConnectKeepsTidy(s: Store, c: Connection)
    requires s.Tidy() && c.fromNode in s.nodes && c.toNode in s.nodes
    ensures s.Connect(c).Tidy()
  {
    hide *;
    ConnectParts(s, c);
    RegroupedSound(s, s.Connect(c));
    TidyIs(s);
    TidyIs(s.Connect(c));
    WiredWith(s, s.Connect(c), c);
  }

  lemma WiredWith(s: Store, t: Store, c: Connection)
    requires s.Wired() && c.fromNode in s.nodes && c.toNode in s.nodes
    requires t.nodes == s.nodes && t.conns <= s.conns + {c}
    ensures t.Wired()
  {
  }

  lemma AnchoredWith(s: Store, t: Store, c: Connection)
    requires s.Anchored() && t.nodes == s.nodes && t.conns == s.conns + {c}
    ensures t.Anchored() <==> s.HasPin(c.End(PD_Output)) && s.HasPin(c.End(PD_Input))
  {
    assert forall p :: t.HasPin(p) <==> s.HasPin(p);
    hide Store.HasPin;
    assert c in t.conns;
  }

  lemma AnchoredAs(s: Store, t: Store)
    requires t.nodes == s.nodes && t.conns == s.conns
    ensures t.Anchored() <==> s.Anchored()
  {
    assert forall p :: t.HasPin(p) <==> s.HasPin(p);
    hide Store.HasPin;
  }

  /** A connection keeps the pin-level invariant exactly when it is refused or joins two visible pins. */
  lemma ConnectKeepsInv(s: Store, c: Connection)
    requires s.Inv() && c.fromNode in s.nodes && c.toNode in s.nodes
    ensures s.Connect(c).Inv() <==> s.ClosesCycle(c) || (s.HasPin(c.End(PD_Output)) && s.HasPin(c.End(PD_Input)))
  {
    var t := s.Connect(c);
    assert s.Tidy() && s.Anchored() && s.NodesSound();
    assert t.Inv() <==> t.Tidy() && t.Anchored() && t.NodesSound();
    hide *;
    ConnectParts(s, c);
    ConnectKeepsTidy(s, c);
    RegroupedSound(s, t);
    if s.ClosesCycle(c) {
      AnchoredAs(s, t);
    } else {
      AnchoredWith(s, t, c);
    }
  }

  lemma LinkKeepsInv(s: Store, c: Connection)
    requires s.Inv() && s.HasPin(c.End(PD_Output)) && s.HasPin(c.End(PD_Input))
    ensures s.Link(c).Inv()
  {
    DropKeepsInv(s, s.Displaced(c));
    var t := s.Drop(s.Displaced(c));
    assert t.HasPin(c.End(PD_Output)) && t.HasPin(c.End(PD_Input));
    ConnectKeepsInv(t, c);
  }

  /** Only the graphs change, and the wires, nodes and functions stay. */
  lemma RegroupedKeepsTidy(s: Store, t: Store)
    requires s.Tidy()
    requires t.conns == s.conns && t.nodes == s.nodes && t.functions == s.functions
    requires t.Partitioned() && t.GraphsSound()
    ensures t.Tidy()
  {
    hide Store.Partitioned, Store.GraphsSound;
  }

  lemma CreateGraphKeepsTidy(s: Store, name: string, functionGraph: bool, eventGraph: bool)
    requires s.Tidy()
    ensures s.CreateGraph(name, functionGraph, eventGraph).Tidy()
  {
    var t := s.CreateGraph(name, functionGraph, eventGraph);
    forall g, id ensures t.Holds(g, id) <==> s.Holds(g, id) && id in t.nodes {
      assert s.Holds(g, id) ==> id in s.nodes;
      assert g in t.graphs <==> g in s.graphs || (g == name && t != s);
    }
    PartitionKept(s, t);
    forall g | g in t.graphs ensures t.GraphSound(g) {
      assert g in s.graphs ==> s.GraphSound(g);
    }
    RegroupedKeepsTidy(s, t);
  }

  /** Taking an empty graph away. */
  lemma EraseEmptyGraphKeepsTidy(s: Store, name: string)
    requires s.Tidy() && name in s.graphs && s.graphs[name].nodes == {}
    ensures s.(graphs := s.graphs - {name}).Tidy()
  {
    var t := s.(graphs := s.graphs - {name});
    forall g, id ensures t.Holds(g, id) <==> s.Holds(g, id) && id in t.nodes {
      assert s.Holds(g, id) ==> id in s.nodes;
      assert g in t.graphs <==> g in s.graphs && g != name;
    }
    PartitionKept(s, t);
    forall g | g in t.graphs ensures t.GraphSound(g) {
      assert s.GraphSound(g);
    }
    RegroupedKeepsTidy(s, t);
  }

  lemma RemoveGraphKeepsTidy(s: Store, name: string)
    requires s.Tidy()
    ensures s.RemoveGraph(name).Tidy()
  {
    if name in s.graphs && name != "EventGraph" {
      var rest := s.WithoutNodes(s.graphs[name].nodes);
      WithoutNodesKeepsTidy(s, s.graphs[name].nodes);
      assert rest.graphs[name].nodes == {};
      EraseEmptyGraphKeepsTidy(rest, name);
    }
  }

  lemma RenameGraphKeepsTidy(s: Store, oldName: string, newName: string)
    requires s.Tidy()
    ensures s.RenameGraph(oldName, newName).Tidy()
  {
    var t := s.RenameGraph(oldName, newName);
    if oldName in s.graphs && newName !in s.graphs && IsIdentifier(newName) {
      assert t.Partitioned() by {
        assert forall g, id :: t.Holds(g, id) <==>
          if g == newName then s.Holds(oldName, id) else g != oldName && s.Holds(g, id);
        forall id | id in t.nodes ensures exists g :: t.Holds(g, id) {
          var g :| s.Holds(g, id);
          assert t.Holds(if g == oldName then newName else g, id);
        }
      }
      forall g | g in t.graphs ensures t.GraphSound(g) {
        assert s.GraphSound(if g == newName then oldName else g);
      }
      RegroupedKeepsTidy(s, t);
    }
  }

  lemma MoveNodeKeepsPartition(s: Store, id: int, source: string, target: string)
    requires s.Partitioned() && source in s.graphs && target in s.graphs
    requires id in s.nodes ==> s.nodes[id].id == id
    ensures s.MoveNode(id, source, target).Partitioned()
  {
    var t := s.MoveNode(id, source, target);
    if s.Holds(source, id) && id in s.nodes && source != target {
      forall g, n ensures t.Holds(g, n) <==> if n == id then g == target else s.Holds(g, n) {
        assert g in t.graphs <==> g in s.graphs;
        assert s.Holds(g, id) ==> g == source;
      }
      forall n | n in t.nodes ensures exists g :: t.Holds(g, n) {
        var g :| s.Holds(g, n);
        assert t.Holds(if n == id then target else g, n);
      }
    }
  }

  lemma MoveNodeKeepsGraphs(s: Store, id: int, source: string, target: string)
    requires s.GraphsSound() && source in s.graphs && target in s.graphs
    ensures s.MoveNode(id, source, target).GraphsSound()
  {
    var t := s.MoveNode(id, source, target);
    forall g | g in t.graphs ensures t.GraphSound(g) {
      assert s.GraphSound(g);
    }
  }

  lemma MoveNodeKeepsTidy(s: Store, id: int, source: string, target: string)
    requires s.Tidy() && source in s.graphs && target in s.graphs
    ensures s.MoveNode(id, source, target).Tidy()
  {
    MoveNodeKeepsPartition(s, id, source, target);
    MoveNodeKeepsGraphs(s, id, source, target);
    RegroupedKeepsTidy(s, s.MoveNode(id, source, target));
  }

  lemma SetKnotsKeepsTidy(s: Store, graph: string, knots: map<Connection, nat>)
    requires s.Tidy() && graph in s.graphs
    requires forall c :: c in knots ==> c.fromNode in s.graphs[graph].nodes && c.toNode in s.graphs[graph].nodes
    ensures s.SetKnots(graph, knots).Tidy()
  {
    var t := s.SetKnots(graph, knots);
    forall g, id ensures t.Holds(g, id) <==> s.Holds(g, id) && id in t.nodes {
      assert s.Holds(g, id) ==> id in s.nodes;
      assert g in t.graphs <==> g in s.graphs;
    }
    PartitionKept(s, t);
    forall g | g in t.graphs ensures t.GraphSound(g) {
      assert s.GraphSound(g);
    }
    RegroupedKeepsTidy(s, t);
  }

  lemma RemoveFunctionKeepsTidy(s: Store, name: string)
    requires s.Tidy()
    ensures s.RemoveFunction(name).Tidy()
  {
    if name in s.functions {
      var rest := s.WithoutNodes(s.FunctionNodes(name));
      WithoutNodesKeepsTidy(s, s.FunctionNodes(name));
      assert rest.functions - {name} == rest.functions by {
        assert name !in rest.functions;
      }
      if s.OwnsGraph(name) {
        assert rest.graphs[name].nodes == {};
        EraseEmptyGraphKeepsTidy(rest, name);
      }
    }
  }
}
