/** The graph object (`src/orchestration/graph.h`, `src/orchestration/graph.cpp`). */
module Graphs {
  import opened Connections
  import opened Nodes
  import opened Stores

  class OScriptGraph {
    var name: string
    var functionGraph: bool
    var eventGraph: bool
    var nodes: set<int>
    var functions: set<int>
    var knots: map<Connection, nat>

    ghost function View(): GraphState
      reads this
    {
      GraphState(name, functionGraph, eventGraph, nodes, functions, knots)
    }

    constructor (name: string, functionGraph: bool, eventGraph: bool)
      ensures View() == GraphState(name, functionGraph, eventGraph, {}, {}, map[])
    {
      this.name, this.functionGraph, this.eventGraph := name, functionGraph, eventGraph;
      nodes, functions, knots := {}, {}, map[];
    }

    method SetGraphName(newName: string)
      modifies this`name
      ensures name == newName
    {
      name := newName;
    }

    /** `add_node` */
    method AddNode(node: NodeState)
      modifies this`nodes, this`functions
      ensures View() == old(View()).Add(node)
    {
      nodes := nodes + {node.id};
      if node.kind.FunctionEntry? && functionGraph && node.id !in functions {
        functions := functions + {node.id};
      }
      if node.kind.Event? && eventGraph && node.id !in functions {
        functions := functions + {node.id};
      }
    }

    /** `remove_node` and `_remove_node`: a node that is not here is ignored. */
    method RemoveNode(id: int)
      modifies this
      ensures View() == if id in old(nodes) then old(View()).Without({id}) else old(View())
    {
      if id !in nodes {
        return;
      }
      nodes := nodes - {id};
      var stale: set<Connection> := {};
      var todo := knots.Keys;
      while todo != {}
        invariant todo <= knots.Keys
        invariant stale == set c | c in knots && c !in todo && c.IsLinkedTo(id)
        decreases todo
      {
        var c :| c in todo;
        if c.IsLinkedTo(id) {
          stale := stale + {c};
        }
        todo := todo - {c};
      }
      knots := knots - stale;
      if id in functions {
        functions := functions - {id};
      }
    }

    /** `remove_connection_knot` */
    method RemoveConnectionKnot(c: Connection)
      modifies this`knots
      ensures View() == old(View()).DropKnots({c})
    {
      knots := knots - {c};
    }

    method ClearKnots()
      modifies this`knots
      ensures View() == old(View()).(knots := map[])
    {
      knots := map[];
    }
  }
}
