# The orchestration store

This project models the store of a visual-scripting language: nodes with pins, connections between pins,
graphs that hold nodes, and functions that own them, with the operations that rewrite all of these
together.  The same facts are kept in several places that must agree: a sorted set of packed connections, a
lazily rebuilt index over it, the node sets of the graphs, the pin vectors that connections address by
position, and the table of functions.

## How it is laid out

`Stores` gives the state as a value, the invariant, and the effect of every edit.  The invariant has two
levels.  A store is *tidy* when every node is in exactly one graph and graphs hold nothing else, every
connection joins nodes that exist, nodes are filed under their ids with their pin indices up to date, graphs
and functions are filed under their names, and no two functions share an owner: nothing in this depends on
the pins a node has.  The *pin-level* invariant adds that hidden pins come last, so that indices are
positions, and that every connection joins two visible pins.  Two more rules are kept apart from both:
*cardinality* (a data input has at most one connection, an execution output at most one) and the absence of
cycles of reroutes.

Pins are addressed as the code does it, by the cached index, which need not be the position (`Queries`).  The
operations are proved to have their effect in every tidy store; the pin-level statements come on top.

The classes `ConnectionCache` (`ConnectionCache.dfy`), `OScriptGraph` (`Graphs.dfy`) and `Orchestration`
(`Orchestrations.dfy`) hold the state in fields and change it step by step, as the C++ does.  Each method is
proved to have the effect that `Stores` or one of the theory files defines, through the ghost field `state`
that `Valid` ties to the real fields.  Operations that belong to a graph, a function or the loader are
methods on an `Orchestration` in files of their own:

| files | what they hold |
|---|---|
| `Connections`, `ConnectionCache`, `Persistence` | packing and order of connections, the lazy index, saving and loading |
| `Reroutes`, `Queries`, `Resolution`, `HiddenPins` | reachability along reroutes, what the pin queries answer, resolution with its faults, what hidden pins break |
| `Nodes`, `PinData` | pins, cached indices, saving and loading pins |
| `Stores`, `Rules`, `Runs`, `Registry`, `ExampleRun` | the state as a value, what every edit keeps, what every run keeps, its registers, one run that rewrites |
| `Graphs`, `Orchestrations`, `GraphEdits`, `FunctionCreation` | the objects and their operations |
| `KnotMigration`, `Upgrades`, `UpgradeMeaning`, `WireKinds`, `AllUpgrades` | knots become reroutes: the theory, the code, the two together, the kinds of wires, all graphs of a file |
| `PortShift`, `ArgumentRemoval`, `FunctionEdits`, `HiddenRemovals`, `RemovalRules` | shifting ports, removing an argument, and what hidden pins do to it |
| `Duplication`, `Rehearsal`, `Duplicates`, `CopiedFunctions` | duplicating a function, which connections that will link, and whose nodes the copies are |
| `Orphans`, `Repair`, `Initialization` | the repair of a loaded file, with the upgrades after it |
| `Names`, `Guids`, `FileNames`, `Disambiguation` | unique names, GUID text, telling file names apart |

`dafny verify dfyconfig.toml` checks the whole project.

## What turned out not to hold

Each of these is kept as the code has it, with lemmas that say where the intended property fails and when it holds.

- A visible pin behind a hidden one is stored under an index that is not its position.  A dialogue message is
  such a node: its choices come after four hidden outputs.  The choice finds its target, but the target finds
  a hidden pin, and unlinking the target takes nothing away (`HiddenPins.DialogueChoice`).  Which connections
  of a pin unlinking takes, and when it takes them all, is said exactly by `HiddenPins.UnlinkedIff` and
  `HiddenPins.AllTakenIff`; `HiddenPins.SecondLink` says what a second link leaves.
- Where indices are positions, being connected is symmetric exactly when no connection joins a visible and a
  hidden pin (`Queries.SymmetricIff`, and `HiddenPins.HiddenOutputSeenFromOneEnd` for an input).
- `_resolve_reroute` takes the first entry of an empty list exactly when it comes to a reroute that has
  connections at its far side, all of them dangling (`Resolution.FaultIff`, `Resolution.DanglingRerouteFaults`).
- A knot left over from a connection that is gone brings the connection back when the file is upgraded.  The
  upgrade is faithful exactly when there is no such knot (`KnotMigration.MigrationIsFaithfulIffNoStaleKnots`);
  it keeps the pin-level invariant exactly when the pins of the knotted connections exist
  (`UpgradeMeaning.UpgradeKeepsInv`), and the cardinality rule exactly when the connections it brings back do
  (`UpgradeMeaning.UpgradeKeepsCardinality`).  Between linking and unlinking it mostly breaks that rule
  (`UpgradeMeaning.MidwayCardinality`).
- `duplicate_function` looks up ids outside the graph in a table that answers 0, so a connection that leaves
  the graph is linked to node 0; and a cycle of reroutes loses a connection to the guard.  The copy is
  isomorphic exactly when neither occurs (`Duplicates.DuplicateIsIsomorphic`).  Which leaving connections are
  linked is decided before the call (`Rehearsal.LinkedAsRehearsed`), and so is each part of the invariant:
  `Duplicates.DuplicateKeepsTidy`, `Duplicates.DuplicateKeepsInv` and `Rules.DuplicateKeepsCardinality` are
  exact.  `Duplicates.StrayDuplicateDangles` gives a file of which every duplicate has a dangling connection,
  and `Rules.CrowdedDuplicateBreaksRule` one of which every duplicate breaks the cardinality rule.
- A call of the function in its own graph is copied as a call of the old function, so removing an argument of
  that one reaches into the duplicate as well (`CopiedFunctions.OldArgumentPins`).  It does not exactly when
  there is no such call (`CopiedFunctions.OnlyOldPinsIff`, and `CopiedFunctions.RecursiveCallStays` for an input).
- Removing an argument whose pin is hidden moves every port of that side, although no visible pin has moved
  (`FunctionEdits.HiddenRemoval`, `FunctionEdits.HiddenArgumentDangles`).  The invariant survives exactly when
  no connection is at a port lower than the number of hidden pins removed there
  (`HiddenRemovals.RemovalKeepsInvIff`), and then the cardinality rule exactly when no two connections come to
  share a pin that it limits (`RemovalRules.RemovalKeepsRuleIff`).
- `adjust_connections` without a direction records a self-loop twice, each time with one end shifted
  (`PortShift.AdjustedSelfLoop`).  When it closes the gap left by a removed pair of pins, all connections move
  as they should exactly when none is hit at both ends (`PortShift.AdjustedBothSides`).
- A shift can merge two connections; it keeps their number exactly when no shifted connection lands on one
  that stays (`PortShift.AdjustedConserves`).
- `_fix_orphans` can depend on the order in which the node map yields its keys: the nodes kept are the same in
  every order exactly when no connection joins an orphan that has a neighbour in a graph to one that has none
  (`Repair.RepairOrderIff`).  It leaves functions alone whose owner it removed: it always ends with a tidy store
  exactly when no function is owned by an orphan that has no neighbour in a graph
  (`Initialization.RepairIsTidyIff`, and `Initialization.LostOwnerIsNotTidy` for such a file).  What else it
  promises holds in every order.
- Loading and saving a pin replaces its class name by its target class, and a pin in the vector of the wrong
  direction moves to the other one (`PinData.NodeRestoredIff`).
- A file whose name is all extension loses its slash when it is told apart from another
  (`FileNames.DotFileLosesItsSlash`, `FileNames.AppendedIffBase`).  The search for distinct names ends on all
  inputs, and tells the files apart exactly when such names are shared only by one file at the root
  (`Disambiguation.DisambiguateFilenames`).
- The cached pin index counts visible pins only, while `find_pin` counts all of them.  The two agree exactly
  when hidden pins come last (`Nodes.CachedIndexIsPosition`).

## Model

| member | source | states |
|---|---|---|
| `Connections.IdRoundTrip` | src/orchestration/connection.h:28-37 | packing the four fields into the 64-bit id and taking the id apart are inverse to each other, in both directions |
| `Connections.OrderIsLexicographic` | src/orchestration/connection.h:56-58 | `operator<` on ids is the lexicographic order on target port, target node, source port, source node |
| `Connections.IdInjective` | src/orchestration/connection.h:58 | connections with equal ids are equal, so the order is strict and total |
| `Connections.NeighboursContents` | src/orchestration/orchestration.cpp:567-597 | `q` is a neighbour of `p` exactly when some connection joins the two pins |
| `Connections.NeighboursOrdered` | src/orchestration/orchestration.cpp:43-48 | the neighbours come strictly ordered by port, then node |
| `ConnectionCaches.KeyRoundTrip` | src/orchestration/orchestration.cpp:53-64 | the cache key and the pin it stands for determine each other |
| `ConnectionCaches.IndexBothWays` | src/orchestration/orchestration.cpp:40-48 | the one pass over the connections builds the index of both sides |
| `ConnectionCaches.BuildIndexIndexes` | src/orchestration/orchestration.cpp:43-48 | the list under a key holds exactly the far ends of the connections at that key, in the order of the set |
| `ConnectionCaches.ConnectionCache.Rebuild` | src/orchestration/orchestration.cpp:35-51 | after a rebuild the index agrees with the connections, which are unchanged |
| `ConnectionCaches.ConnectionCache.Insert` | src/orchestration/orchestration.h:83 | inserting adds exactly that connection and keeps the cache valid |
| `ConnectionCaches.ConnectionCache.Erase` | src/orchestration/orchestration.h:84 | erasing removes exactly that connection and keeps the cache valid |
| `ConnectionCaches.ConnectionCache.Clear` | src/orchestration/orchestration.h:85 | clearing leaves no connection and keeps the cache valid |
| `ConnectionCaches.ConnectionCache.Inputs` | src/orchestration/orchestration.h:88 | whatever calls came before, `inputs` of a key is nothing if no connection targets it, and else the list of all its sources |
| `ConnectionCaches.ConnectionCache.Outputs` | src/orchestration/orchestration.h:89 | the same for `outputs` |
| `ConnectionCaches.AdjacencyOf` | src/orchestration/orchestration.h:68-71 | decoded, that list is the pin's neighbours: all of them, each once, by port and then node |
| `Persistence.Save` | src/orchestration/orchestration.cpp:84-93 | the saved list is the quadruples of the connections in set order |
| `Persistence.Load` | src/orchestration/orchestration.cpp:95-109 | after loading, the connections are those of the complete quadruples of the list; a ragged tail is ignored |
| `Persistence.SaveThenLoad` | src/orchestration/orchestration.cpp:84-109 | loading the saved list gives the same set of connections |
| `Persistence.SavedIsCanonical` | src/orchestration/orchestration.cpp:84-93 | a saved list is complete, in range, sorted and free of duplicates |
| `Persistence.LoadThenSave` | src/orchestration/orchestration.cpp:84-109 | saving any loaded list gives it back exactly when it is canonical, and gives a canonical list in any case |
| `Reroutes.WouldCreateCycle` | src/orchestration/nodes/reroute.cpp:132-159 | the search ends on every connection set and says whether the source is a reroute that the target reaches along reroutes |
| `Reroutes.GuardedConnect` | src/orchestration/orchestration.cpp:252-266 | on an acyclic reroute relation, the guard lets a connection through exactly when the relation stays acyclic |
| `Reroutes.ResolveKeepsDirection` | src/orchestration/node_pin.cpp:885-906 | a resolved pin has the direction of the pin the search started from |
| `Reroutes.ResolveIffWalkArrives` | src/orchestration/node_pin.cpp:885-906 | resolution succeeds exactly when the walk along first connections reaches a node that is no reroute, and then returns the first such pin |
| `Reroutes.AcyclicNeverRevisits` | src/orchestration/node_pin.cpp:893-895 | while the reroute relation is acyclic the visited check never fires |
| `Nodes.CachedIndexIsPosition` | src/orchestration/node.cpp:361-375 | the cached index of a visible pin is its position exactly when no hidden pin precedes it; for a whole vector, exactly when hidden pins come last |
| `Nodes.CachePinIndices` | src/orchestration/node.cpp:361-375 | both loops assign the indices of `Cached`, and leave hidden pins alone |
| `Nodes.FindPinNamed` | src/orchestration/node.cpp:226-242 | the first pin with that name in that direction, if there is one |
| `Nodes.RemovePin` | src/orchestration/node.cpp:252-262 | the first matching pin goes, from the inputs if it is there, else from the outputs; the result says whether one went |
| `Stores.UnusedIdIsUnwired` | src/orchestration/orchestration.cpp:418-428 | an id that no node has is on no connection, so a reused id starts clean |
| `Stores.IdentifierByParts` | src/orchestration/orchestration.cpp:839 | a text is a well-formed name exactly if its first part is one and the rest could follow an underscore |
| `Stores.IdentifierChars` | src/orchestration/orchestration.cpp:839 | of single characters, letters and the underscore are well-formed, digits only behind others, nothing else |
| `Stores.WithoutNodesTwice` | src/orchestration/orchestration.cpp:507-544 | removing nodes one after the other removes them all, in any order |
| `Stores.AddNodeKeepsTidy` | src/orchestration/orchestration.cpp:485-505 | adding any node whose id and pins fit the packed connections keeps the store tidy |
| `Stores.AddNodeKeepsInv` | src/orchestration/orchestration.cpp:485-505 | it keeps the pin-level invariant exactly when the id is taken or the cached node has its hidden pins last |
| `Stores.WithoutNodesKeepsInv` | src/orchestration/orchestration.cpp:507-544 | removing nodes keeps the pin-level invariant: no connection dangles |
| `Stores.WithoutNodesKeepsTidy` | src/orchestration/orchestration.cpp:507-544 | removing nodes of any kind keeps the store tidy |
| `Stores.ConnectKeepsInv` | src/orchestration/orchestration.cpp:252-269 | a new connection that closes no cycle keeps the pin-level invariant exactly when both its ends are visible pins |
| `Stores.LinkKeepsInv` | src/orchestration/node_pin.cpp:569-658 | linking two existing pins keeps the invariant |
| `Stores.RenameGraphKeepsTidy` | src/orchestration/orchestration.cpp:761-776 | renaming a graph keeps the store tidy |
| `Stores.MoveNodeKeepsTidy` | src/orchestration/graph.cpp:379-387 | moving a node keeps the store tidy |
| `Stores.RemoveFunctionKeepsTidy` | src/orchestration/orchestration.cpp:1051-1087 | removing a function keeps the store tidy |
| `Orchestrations.Orchestration.ConnectNodes` | src/orchestration/orchestration.cpp:252-269 | the connection is added, unless the guard finds a cycle or it is there already |
| `Orchestrations.Orchestration.DisconnectNodes` | src/orchestration/orchestration.cpp:271-291 | an existing connection goes, and with it its knot in every graph |
| `Orchestrations.Orchestration.GetConnections` | src/orchestration/orchestration.cpp:567-597 | read from the lazy index at the pin's cached index, the list is the neighbours there that are pins, in order; nothing for a hidden pin |
| `Orchestrations.Orchestration.HasConnections` | src/orchestration/orchestration.cpp:647-660 | true exactly for a visible pin with a connection at its cached index, dangling or not |
| `Orchestrations.Orchestration.GetSingleConnection` | src/orchestration/orchestration.cpp:662-697 | the only member of that list, nothing when it has none or several |
| `Orchestrations.Orchestration.GetConnection` | src/orchestration/node_pin.cpp:718-733 | by direction and flags: a data input and an execution output give their only connected pin, any other pin nothing; under the cardinality rule a visible one gives an answer whenever it is connected |
| `Orchestrations.Orchestration.ResolveReroute` | src/orchestration/node_pin.cpp:885-906 | the loop ends on every set of connections; it faults exactly when a reroute on the way has only dangling connections at its far side |
| `Orchestrations.Orchestration.GetResolvedConnections` | src/orchestration/node_pin.cpp:739-748 | what the connected pins resolve to, in order, or no result if one of them faults; with no dangling connection exactly the resolved connections |
| `Orchestrations.Orchestration.Unlink` | src/orchestration/node_pin.cpp:660-686 | the connection stored for the cached indices of the two pins is taken out, whichever side is asked |
| `Orchestrations.Orchestration.UnlinkAll` | src/orchestration/node_pin.cpp:688-708 | exactly the connections stored for the pin and a pin it is connected to go, with their knots |
| `Orchestrations.Orchestration.Link` | src/orchestration/node_pin.cpp:569-650 | for any two pins: a link that closes a cycle changes nothing; any other clears what the target and the source are found to have, and connects |
| `Orchestrations.Orchestration.AdjustConnections` | src/orchestration/orchestration.cpp:599-645 | erasing all entries hit and then inserting all shifted ones gives the set `Adjusted` |
| `Orchestrations.Orchestration.FindGraph` | src/orchestration/orchestration.cpp:749-759 | searched in any order, a graph that holds the node, nothing exactly when none does; with every node in one graph, the graph that holds it |
| `Orchestrations.Orchestration.GetAvailableId` | src/orchestration/orchestration.cpp:418-428 | the id after the largest in use |
| `Orchestrations.Orchestration.AddNode` | src/orchestration/orchestration.cpp:485-505 | a new id is stored with its pin indices cached and joins the graph; a taken id is refused |
| `Orchestrations.Orchestration.RemoveNode` | src/orchestration/orchestration.cpp:507-544 | in any tidy store the node goes with its connections, their knots, its place in its graph and the function it owns, and nothing else changes |
| `Graphs.OScriptGraph.AddNode` | src/orchestration/graph.cpp:347-363 | the node joins, and is registered as a function if its kind and the graph's flags say so |
| `Graphs.OScriptGraph.RemoveNode` | src/orchestration/graph.cpp:92-115 | the node, its registration and the knots on its connections go; a node that is elsewhere is ignored |
| `Queries.ConnectedWhole` | src/orchestration/orchestration.cpp:586-595 | with no dangling connection nothing is passed over: a pin is connected to all its neighbours |
| `Queries.ConnectedIsSymmetric` | src/orchestration/orchestration.cpp:567-597 | with no dangling connection, `q` is connected to `p` exactly when `p` is connected to `q` |
| `Queries.SymmetricIff` | src/orchestration/orchestration.cpp:567-597 | where indices are positions, being connected is symmetric exactly when every connection between two pins has both ends visible or both hidden |
| `Queries.LinkedIsLink` | src/orchestration/node_pin.cpp:569-650 | under the pin-level invariant, linking two visible pins is linking their positions |
| `Queries.UnlinkedIsAll` | src/orchestration/node_pin.cpp:688-708 | and unlinking a pin takes exactly the connections at it |
| `HiddenPins.FoundFromItsOwnSide` | src/orchestration/orchestration.cpp:567-597 | a connection is found from the pin it was stored for; from the other end that pin is found only by a connection stored for its position |
| `HiddenPins.UnlinkedIff` | src/orchestration/node_pin.cpp:688-708 | of the connections stored for a visible pin, `unlink_all` takes exactly those for which some connection of the pin ends at a pin that is stored where they end |
| `HiddenPins.AllTakenIff` | src/orchestration/node_pin.cpp:688-708 | so it takes all of them exactly when every one is found that way |
| `HiddenPins.OnlyWireTaken` | src/orchestration/node_pin.cpp:688-708 | the only connection of a pin goes exactly when the pin at its other end is stored under its position |
| `HiddenPins.SecondLink` | src/orchestration/node_pin.cpp:598-605 | a second source for a data input clears exactly the old connections that are found from it; any that is left meets the new one, and breaks the cardinality rule unless the address of the input is an execution pin |
| `HiddenPins.DialogueIsMisaligned` | src/orchestration/nodes/dialogue.cpp:51-62 | the first choice of a dialogue message is output 4 with index 0 |
| `HiddenPins.DialogueChoice` | src/orchestration/nodes/dialogue.cpp:51-62 | the store is tidy, the choice sees its target and is unlinked from it, but the target sees a hidden pin and unlinking it changes nothing |
| `HiddenPins.HiddenOutputSeenFromOneEnd` | src/orchestration/nodes/function_terminator.cpp:74 | a connection at the hidden output of a result node is seen from its visible end only |
| `Resolution.SoundResolution` | src/orchestration/node_pin.cpp:885-906 | with no dangling connection the loop computes the resolution over the connections, and never faults |
| `Resolution.FaultIff` | src/orchestration/node_pin.cpp:885-906 | it faults exactly when it comes to a reroute that has connections at its far side, all of them dangling |
| `Resolution.DanglingRerouteFaults` | src/orchestration/node_pin.cpp:885-906 | it does so on a reroute whose only connection leads to a node that is gone |
| `Queries.SingleHasOne` | src/orchestration/node_pin.cpp:718-733 | under the cardinality rule a data input or execution output has at most one connected pin |
| `Rules.LinkEffect` | src/orchestration/node_pin.cpp:593-605 | after an accepted link there are the new connection and the old ones, except those at its input unless that is an execution pin, and those at its output if that is one |
| `Rules.LinkedKeepsCardinality` | src/orchestration/node_pin.cpp:598-605 | under the pin-level invariant, linking visible pins of opposite directions keeps the cardinality rule |
| `Rules.LinkedCardinalityIff` | src/orchestration/node_pin.cpp:593-605 | linking any two pins of a tidy store keeps it exactly when, after clearing, nothing else is wired where the rule limits an end of the new connection |
| `Rules.LinkedKeepsNoCycle` | src/orchestration/node_pin.cpp:593-596 | linking any two pins of a tidy store closes no cycle of reroutes |
| `Rules.RefusedLinkWouldClose` | src/orchestration/node_pin.cpp:593-596 | a link that is refused would have closed a cycle |
| `Rules.FewerWiresKeepRules` | src/orchestration/node_pin.cpp:688-708 | edits that only take connections away keep both rules |
| `Rules.ArgumentRemovedKeepsNoCycle` | src/orchestration/function.cpp:376-421 | removing an argument closes no cycle, whatever pins go |
| `Rules.RemoveArgumentKeepsCardinality` | src/orchestration/function.cpp:376-421 | where the pins that go are visible, it keeps the cardinality rule |
| `Rules.DuplicateKeepsCardinality` | src/orchestration/orchestration.cpp:1001-1009 | a duplicate keeps the cardinality rule exactly when, wherever the rule limits the pin of node 0 that a leaving connection will be linked to, nothing is wired there and no other pin of the graph will be |
| `Rules.DuplicateKeepsCardinalityIff` | src/orchestration/orchestration.cpp:1001-1009 | unless node 0 is a reroute, every leaving connection counts |
| `Rules.CrowdedDuplicateBreaksRule` | src/orchestration/orchestration.cpp:1001-1009 | a store that meets the invariant and the rule, of which every duplicate keeps the invariant and breaks the rule |
| `Rules.DuplicateKeepsNoCycle` | src/orchestration/orchestration.cpp:1001-1009 | a duplicate closes no cycle of reroutes, also when connections leave the graph |
| `KnotMigration.MigrationResolves` | src/orchestration/graph.cpp:145-201 | after the migration every old pin resolves exactly as with all knotted connections in place |
| `KnotMigration.MigrationPreservesMeaning` | src/orchestration/graph.cpp:145-201 | with every knot on a live connection, every old pin keeps its set of resolved connections |
| `KnotMigration.MigrationIsFaithfulIffNoStaleKnots` | src/orchestration/graph.cpp:145-201 | in a file without reroutes, resolved connections after the migration equal direct connections before exactly when no knot is stale |
| `KnotMigration.MigrationKeepsAcyclic` | src/orchestration/graph.cpp:175-196 | the chains close no cycle of reroutes |
| `Upgrades.Upgrade` | src/orchestration/graph.cpp:145-201 | for knots on any connections between nodes of the graph: turn by turn, every knotted connection is led over one fresh reroute per knot and the knots are cleared; graphs from version 4 on stay as they are |
| `Upgrades.TakenIsUpgraded` | src/orchestration/graph.cpp:145-201 | where knotted connections do not touch reroutes, the turns together replace every knotted connection by its chain, and everything else is as it was |
| `Upgrades.ReplaceWire` | src/orchestration/graph.cpp:171-197 | one turn of the walk: the chain is linked through to the target as far as the guard allows, and the direct connection taken out, with ids that were free |
| `UpgradeMeaning.UpgradeKeepsMeaning` | src/orchestration/graph.cpp:145-201 | the upgraded store resolves as before when no knot is stale, and in any case as with every knotted connection in place |
| `UpgradeMeaning.UpgradeKeepsInv` | src/orchestration/graph.cpp:145-201 | the upgrade keeps the pin-level invariant exactly when the pins of the knotted connections are there |
| `UpgradeMeaning.UpgradeTakenKeeps` | src/orchestration/graph.cpp:145-201 | an upgrade of any knots keeps the store tidy and closes no cycle of reroutes |
| `UpgradeMeaning.UpgradeKeepsCardinality` | src/orchestration/graph.cpp:192-197 | the upgraded store meets the cardinality rule exactly when the store with every knotted connection in place does |
| `UpgradeMeaning.MidwayCardinality` | src/orchestration/graph.cpp:194-196 | between linking the last reroute and unlinking, the rule holds exactly when it limits no connection beside one of the chain, whose last link is refused exactly when the direct one would be; for a live knot, exactly when that runs from a data output to an execution input |
| `WireKinds.UpgradeKeepsKinds` | src/orchestration/graph.cpp:156-187 | after the upgrade every connection joins two execution pins or two other pins, exactly if the connections that were there and the knotted ones did |
| `WireKinds.ChainTypes` | src/orchestration/graph.cpp:156-168 | the reroutes of a knotted connection are control reroutes if its source pin is an execution pin, data reroutes if it is another, and of any type if there is no such pin |
| `WireKinds.UpgradeTakenKeepsKinds` | src/orchestration/graph.cpp:145-201 | whatever the knotted connections join, reroutes too: if they and the others join pins of one kind each, so does every connection afterwards; every pin of a new node is either an execution or a data pin |
| `PortShift.AdjustedIsImage` | src/orchestration/orchestration.cpp:599-645 | for one direction the two passes are the image of the set under the shift |
| `PortShift.AdjustedConserves` | src/orchestration/orchestration.cpp:633-642 | the number of connections is kept exactly when no shifted one lands on one that stays |
| `PortShift.AdjustedSelfLoop` | src/orchestration/orchestration.cpp:616-631 | without a direction a self-loop is recorded twice, and comes out shifted at both ends exactly when the shift is a multiple of 256 |
| `PortShift.AdjustedBothSides` | src/orchestration/orchestration.cpp:616-642 | without a direction, when the gap of a freed port is closed, the result is the image of the set under the shift exactly when no connection is hit at both ends |
| `PortShift.AdjustAllRenumbers` | src/orchestration/function.cpp:410-416 | one shift per removed pin, highest first, moves every port down by the number of removed pins before it |
| `PortShift.RenumberInjective` | src/orchestration/function.cpp:410-416 | distinct surviving connections stay distinct |
| `PortShift.KeptAt` | src/orchestration/node.cpp:252-262 | the shrunk vector holds a surviving pin at its old position less the number of removed pins before it |
| `ArgumentRemoval.WireKeepsItsPins` | src/orchestration/function.cpp:387-417 | every connection between pins that stay is still there and joins the same two pins |
| `ArgumentRemoval.ConnectivityKept` | src/orchestration/function.cpp:387-417 | two pins that stay are connected afterwards exactly when they were before |
| `ArgumentRemoval.RemoveArgumentKeepsWires` | src/orchestration/function.cpp:376-421 | removing an argument loses no connection between pins that stay, and keeps their number and the cardinality rule |
| `ArgumentRemoval.RemoveArgumentKeepsInv` | src/orchestration/function.cpp:376-421 | once pin indices are fresh the invariant holds again |
| `ArgumentRemoval.PinGoesIff` | src/orchestration/function.cpp:386-406 | the pins that go are exactly the first of the argument's name among the inputs of a call or the outputs of an entry, and all execution pins of calls if the function has a result, that one argument, and the name of a getter |
| `ArgumentRemoval.WireSurvivesIff` | src/orchestration/nodes/call_function.cpp:200-208 | a connection that ends at none of the argument's own pins is lost exactly if the function becomes a getter and one end is an execution pin of a call |
| `ArgumentRemoval.CallsKeepExecution` | src/orchestration/nodes/call_function.cpp:200-208 | in every other case it is there afterwards, on the same two pins |
| `FunctionEdits.ListRemovals` | src/orchestration/function.cpp:386-404 | the list holds exactly the pins that go, each vector's from the highest position down |
| `FunctionEdits.TakePins` | src/orchestration/function.cpp:410-416 | the loop leaves the vectors without the listed pins, and the connections shifted once for each |
| `FunctionEdits.RemoveArgumentAt` | src/orchestration/function.cpp:376-421 | the whole operation, whatever pins go: all of them are unlinked, then taken out one by one with a shift from each one's cached index; a bad index or a function that is not user-defined changes nothing |
| `FunctionEdits.FunctionAfterRemoval` | src/orchestration/function.cpp:379-385 | of the table only that function changes, and of it only the list of arguments: the others stay, in order |
| `FunctionEdits.FlowKept` | src/orchestration/function.cpp:376-421 | where the pins that go are visible and the function does not become a getter, the operation keeps every connection at other pins: calls stay wired into the flow |
| `FunctionEdits.RemovalIsRenumbering` | src/orchestration/function.cpp:376-421 | where those pins are visible, that removes them and renumbers the connections that stay |
| `FunctionEdits.ArgumentRemovedKeepsTidy` | src/orchestration/function.cpp:376-421 | in any case the store is tidy once pin indices are fresh |
| `FunctionEdits.HiddenRemoval` | src/orchestration/function.cpp:410-416 | for a hidden pin every port of its side moves though no visible pin does: the connections are left alone exactly when there is none on that side, and none dangles exactly when there is none at port 0 |
| `FunctionEdits.HiddenArgumentDangles` | src/orchestration/function.cpp:410-416 | removing an argument whose pin is hidden leaves an execution connection at a port that is not there |
| `HiddenRemovals.TakenOutAnchoredIff` | src/orchestration/function.cpp:406-416 | where hidden pins have no index, taking any pins out leaves no connection dangling exactly when each that stays is at ports no lower than the number of hidden pins removed on that side |
| `HiddenRemovals.RemovalKeepsInvIff` | src/orchestration/function.cpp:376-421 | removing an argument keeps the pin-level invariant exactly under that condition |
| `RemovalRules.RemovalKeepsRuleIff` | src/orchestration/function.cpp:376-421 | and then the cardinality rule exactly when no two connections come to share a pin that the rule limits |
| `GraphEdits.CreateGraph` | src/orchestration/orchestration.cpp:703-721 | an empty graph under a free identifier; every other name is refused |
| `FunctionCreation.CreateFunction` | src/orchestration/orchestration.cpp:837-892 | a name that is malformed or in use changes nothing; any other gives the function with its graph, its record, its entry node and, with a return value, its result node linked to the entry, and nothing else |
| `FunctionCreation.MadeIs` | src/orchestration/orchestration.cpp:837-892 | the state afterwards, part by part: the recorded arguments, owner and result, one execution output and the arguments' outputs on the entry, one visible data input on the result node that is the return value but for its name, and the one new connection |
| `FunctionCreation.EntryPinsAre` | src/orchestration/nodes/function_terminator.cpp:49-61 | behind the execution pin the entry has one data output for each distinct name of an argument, with the properties of the first that bears it, in order |
| `FunctionCreation.MadeKeepsTidy` | src/orchestration/orchestration.cpp:837-870 | a new function keeps the store tidy |
| `FunctionCreation.MadeKeepsInv` | src/orchestration/orchestration.cpp:837-870 | and the pin-level invariant: hidden outputs come last on its nodes |
| `GraphEdits.RenameGraph` | src/orchestration/orchestration.cpp:761-776 | the graph is filed under its new name; taken and malformed names are refused |
| `GraphEdits.RenameGraphMeans` | src/orchestration/orchestration.cpp:761-776 | only the graphs change: everything in the graph is under the new name, the others stay |
| `GraphEdits.MoveNodeTo` | src/orchestration/graph.cpp:379-387 | the node leaves the one graph, knots included, and joins the other |
| `GraphEdits.MoveNodeMeans` | src/orchestration/graph.cpp:379-387 | the node is then in the target and nowhere else, the others where they were; the source loses exactly the knots at the node, and no other graph changes |
| `GraphEdits.RemoveAllNodes` | src/orchestration/graph.cpp:372-377 | the loop ends, and exactly the graph's nodes are gone |
| `GraphEdits.RemoveGraph` | src/orchestration/orchestration.cpp:723-738 | the graph goes with its nodes; the event graph stays |
| `GraphEdits.RemoveFunction` | src/orchestration/orchestration.cpp:1051-1087 | the function goes with its graph, its callers and its owner |
| `GraphEdits.RemoveGraphLeaves` | src/orchestration/orchestration.cpp:723-738 | afterwards exactly the graph and its nodes are gone, and what is left is exactly what lies between the nodes that stay |
| `GraphEdits.RemoveFunctionLeaves` | src/orchestration/orchestration.cpp:1051-1087 | exactly the nodes that call the function, its owner and the nodes of its own graph go, with that graph; what is left, connections, knots and registers included, is what lies between the nodes that stay |
| `GraphEdits.RemoveNodeLeaves` | src/orchestration/orchestration.cpp:507-544 | exactly the node goes, and with it only connections, knots, registers and functions that need it |
| `Duplication.DuplicateIsIsomorphicIff` | src/orchestration/orchestration.cpp:1001-1009 | the new connections are exactly the image of the graph's own if and only if no connection leaves the graph and its reroutes form no cycle |
| `Duplication.ImageInjective` | src/orchestration/orchestration.cpp:1001-1009 | different connections of the graph have different images |
| `Rehearsal.LinkedAsRehearsed` | src/orchestration/orchestration.cpp:1001-1009 | whatever ids the copies get, a connection of the graph is linked between them exactly when linking the connections of the graph on its own links it |
| `Duplicates.CopyNodes` | src/orchestration/orchestration.cpp:919-968 | the table gives every node of the graph one copy under an id that was free; the copies are in the new graph and the old one is unchanged |
| `Duplicates.DuplicateFunction` | src/orchestration/orchestration.cpp:894-1049 | the store gains exactly the copies, their graph, the new function and the connections linked between the copies; if the name is taken by a variable or a signal, everything is as before |
| `CopiedFunctions.CopiedNode` | src/orchestration/orchestration.cpp:989-994 | a copy has the pins of its original; entries and results are those of the new function, every other node is of the kind it was |
| `CopiedFunctions.CopiedFunction` | src/orchestration/orchestration.cpp:981-987 | the new function has the arguments and the result of the old one, and is owned by a copy that is an entry of it; the old functions stay |
| `CopiedFunctions.NewArgumentPins` | src/orchestration/orchestration.cpp:989-994 | where the entries in the graph are the function's own and no node bears the new name yet, the pins of each argument of the new function are exactly the images of those on the old entries |
| `CopiedFunctions.OldArgumentPins` | src/orchestration/orchestration.cpp:989-994 | for each argument of the old function they are those there were, and the images of those on calls in its own graph, which still call it |
| `CopiedFunctions.OnlyOldPinsIff` | src/orchestration/orchestration.cpp:989-994 | so they lie on old nodes only exactly when no call in that graph loses a pin with the argument |
| `CopiedFunctions.RecursiveCallStays` | src/orchestration/orchestration.cpp:989-994 | a function that calls itself, of which every duplicate has a pin of the old function's argument on a new node |
| `CopiedFunctions.ArgumentPinsOfCopies` | src/orchestration/orchestration.cpp:989-994 | the same pin by pin, also where the graph holds entries of other functions |
| `Duplicates.RolledBack` | src/orchestration/orchestration.cpp:983-987 | taking the new graph away restores the state before the call |
| `Duplicates.DuplicateIsIsomorphic` | src/orchestration/orchestration.cpp:894-1049 | the duplicate is isomorphic to the original if and only if no connection leaves the graph and no cycle of reroutes lies in it |
| `Duplicates.DuplicateKeepsOriginal` | src/orchestration/orchestration.cpp:894-1049 | nodes, graphs, functions and connections that were there are as they were, also when connections leave the graph |
| `Duplicates.DuplicateKeepsInv` | src/orchestration/orchestration.cpp:894-1049 | the duplicate keeps the pin-level invariant exactly when every leaving connection that will be linked ends at a visible pin of node 0 |
| `Duplicates.DuplicateKeepsInvIff` | src/orchestration/orchestration.cpp:894-1049 | unless node 0 is a reroute, every leaving connection counts |
| `Duplicates.DuplicateKeepsTidy` | src/orchestration/orchestration.cpp:894-1049 | it keeps the store tidy exactly when no connection leaves the graph or there is a node 0 |
| `Duplicates.OldWiresIff` | src/orchestration/orchestration.cpp:1001-1009 | no old node gains a connection exactly when none leaves the graph or there is no node 0 |
| `Duplicates.DuplicateExists` | src/orchestration/orchestration.cpp:894-1049 | whenever the code may start, there is a store it can end in |
| `Duplicates.StrayDuplicateDangles` | src/orchestration/orchestration.cpp:1001-1009 | a store that meets the invariant and has no node 0, of which every duplicate has a dangling connection |
| `Orphans.FixOrphans` | src/orchestration/orchestration.cpp:181-250 | for every order of visits, the loops have the effect of the visits one by one: stay, join the graph of the first helpful connection, or go; then dangling connections are erased |
| `Repair.FixOrphansRepairs` | src/orchestration/orchestration.cpp:181-250 | every node left is in a graph, every node that was in one is kept, a rescued orphan joins exactly one graph, which holds a neighbour of it, and the connections left join nodes that are left |
| `Repair.RepairIsIdempotent` | src/orchestration/orchestration.cpp:181-250 | a second repair changes nothing |
| `Repair.RepairRestoresPartition` | src/orchestration/orchestration.cpp:181-250 | if the graphs held disjoint sets of existing nodes, every node is in exactly one graph afterwards and no connection dangles |
| `Repair.RepairOrderIff` | src/orchestration/orchestration.cpp:186-233 | the same nodes are kept in every order exactly when no connection joins an orphan that has a neighbour in a graph to one that has none; then exactly the orphans without such a neighbour go |
| `Repair.RepairDependsOnOrder` | src/orchestration/orchestration.cpp:186-233 | for a chain of two orphans beside a held node, two orders keep different nodes |
| `Initialization.RepairIsTidyIff` | src/orchestration/orchestration.cpp:181-250 | every repair of a loaded file is tidy exactly when no function is owned by an orphan that has no neighbour in a graph |
| `Initialization.LostOwnerIsNotTidy` | src/orchestration/orchestration.cpp:181-250 | a loaded file that no repair leaves tidy |
| `AllUpgrades.AllUpgradedKeeps` | src/orchestration/orchestration.cpp:470-473 | upgrading any graphs one after the other keeps the store tidy, closes no cycle, takes no node away and leaves no knots in them |
| `AllUpgrades.AllUpgradedMeaning` | src/orchestration/orchestration.cpp:470-473 | after the upgrade of all graphs every old pin resolves as with the knotted connections of all graphs in place, and exactly as before if no knot is stale |
| `Initialization.PostInitialized` | src/orchestration/orchestration.cpp:451-476 | repaired and upgraded, a file in which no function is owned by such an orphan is tidy, has no knots, no new cycle, and every node that a graph held |
| `Initialization.PostInitializedMeaning` | src/orchestration/orchestration.cpp:451-476 | and every pin that the repair left resolves as it did before the upgrades, with the knotted connections of all graphs in place |
| `Runs.StepKeepsTidy` | src/orchestration/orchestration.cpp:485-1087 | each of fifteen kinds of edit, on nodes of any kind, keeps the store tidy; a duplicate exactly when no connection leaves its graph or there is a node 0 |
| `Runs.StepKeepsNoCycle` | src/orchestration/node_pin.cpp:593-596 | none of them closes a cycle of reroutes |
| `Runs.StepKeepsInv` | src/orchestration/orchestration.cpp:485-1087 | each keeps the pin-level invariant under a condition on the state before, which is exact unless a hidden pin with an index is removed or a knot beside a reroute is upgraded |
| `Runs.StepKeepsRule` | src/orchestration/node_pin.cpp:598-605 | each keeps the cardinality rule under a condition on the state before, which is exact for links, duplicates, removals that keep the invariant, and upgrades of knots away from reroutes; the other edits always keep it |
| `Runs.RunKeepsTidy` | src/orchestration/orchestration.cpp:485-1087 | a run over nodes of any kind passes tidy states only, exactly when its duplicates meet their condition, and then closes no cycle |
| `Runs.RunKeepsInv` | src/orchestration/orchestration.cpp:485-1087 | a run keeps the pin-level invariant throughout if each edit meets its condition, and where the conditions are exact only then |
| `Runs.RunKeepsRule` | src/orchestration/node_pin.cpp:569-708 | and the cardinality rule, where each edit meets the condition for it |
| `Runs.EveryRun` | src/orchestration/orchestration.cpp:418-544 | from the empty orchestration, with nodes of any kind: every node is in exactly one graph, every connection joins nodes that exist, no reroutes form a cycle, and an id that is not in use has no connections |
| `Runs.EverySaneRun` | src/orchestration/orchestration.cpp:418-544 | if each edit meets its conditions, no connection dangles and the cardinality rule holds in every state |
| `Registry.StepKeepsRegisters` | src/orchestration/graph.cpp:345-361 | each of the edits keeps the registers right: a graph lists exactly its entry points, which are function entries in function graphs and events in event graphs, and each function is owned by an entry node of its own name |
| `Registry.EveryRunRegisters` | src/orchestration/graph.h:68 | so they are right in every state of a run from the empty orchestration |
| `ExampleRun.RunWithRewrites` | src/orchestration/orchestration.cpp:837-1049 | such a run from the empty orchestration: a function is made, a node added and linked, a knot placed, the graph upgraded, an argument removed and the function duplicated, with the connections after each |
| `PinData.Save` | src/orchestration/node_pin.cpp:125-181 | the dictionary has exactly the entries that differ from a fresh pin, and a missing generated default is filled in on the pin |
| `PinData.Load` | src/orchestration/node_pin.cpp:75-123 | each entry present is read; without a name nothing is |
| `PinData.PinRoundTrip` | src/orchestration/node_pin.cpp:75-181 | loading a saved pin gives it back, with the class name taken from the target class and the default filled in |
| `PinData.SavedAgain` | src/orchestration/node_pin.cpp:75-181 | saving the loaded pin writes the same dictionary |
| `PinData.SetPinData` | src/orchestration/node.cpp:37-50 | each loaded pin joins the vector of its own direction, in the order of the list |
| `PinData.NodeRestoredIff` | src/orchestration/node.cpp:26-50 | both vectors come back in order, each pin equal up to a default filled in, exactly when every pin sits in the vector of its direction and has its class name as target class |
| `Names.CreateUniqueName` | src/common/name_utils.cpp:24-38 | the prefix if it is free, else the first free number, below the length of the list; with fewer names than numbers the failure exit is not reached |
| `Names.DecimalReads` | src/common/name_utils.cpp:30 | the printed number is a numeral without zeros in front, and reading its digits in base 10 gives the number back |
| `Names.NumeralPrints` | src/common/name_utils.cpp:30 | every such numeral is what its value is printed as |
| `Names.CandidateReads` | src/common/name_utils.cpp:30 | a candidate is the prefix, an underscore and the numeral of its number, and nothing else is |
| `Names.CandidateIsIdentifier` | src/orchestration/orchestration.cpp:902 | numbering the name of a function gives a well-formed name, and never that of the event graph |
| `Names.SearchBoundIsTight` | src/common/name_utils.cpp:29-34 | for every length there is a list that uses the bound up |
| `Names.PromotedName` | src/orchestration/orchestration.cpp:1316-1321 | the unbounded loop ends, at the first free number, after at most one try more than there are variables |
| `Guids.PrintParse` | src/common/guid.cpp:33-59 | parsing the text of a GUID gives its four words back |
| `Guids.ParsePrint` | src/common/guid.cpp:33-59 | printing a parsed text gives it back exactly when the text is canonical upper-case |
| `Guids.CreatedVersion` | src/common/guid.cpp:57-80 | a new GUID prints with version digit 4 and variant digit 8, 9, A or B, as section 5.4 of RFC 9562 asks, and keeps its other 122 bits |
| `Guids.MasksOnBits` | src/common/guid.cpp:74-75 | digit by digit, the arithmetic used for the two masks is the bit operations they are written with |
| `FileNames.AppendParent` | src/editor/editor.cpp:2284-2316 | the two searches put exactly the next parent folder in front of a path suffix that is not all extension |
| `FileNames.AppendedIffBase` | src/editor/editor.cpp:2291-2314 | for any suffix of a path with a named folder before it, the step gives the next longer suffix exactly when something is left of the name without its extension |
| `FileNames.AppendedIsCloser` | src/editor/editor.cpp:2287-2316 | for all strings: a step that changes a name brings it closer to an end, so the loop over a set cannot go on for ever |
| `FileNames.DotFileLosesItsSlash` | src/editor/editor.cpp:2291-2314 | the file `/x/.gd` is shown as `x.gd` |
| `Disambiguation.Prune` | src/editor/editor.cpp:2318-2366 | exactly the ambiguous names stay in the set; the loop goes on exactly when the code takes something to be missing from some name |
| `Disambiguation.DisambiguateSet` | src/editor/editor.cpp:2283-2371 | on every input the passes end and only put text in front; where the members share a path suffix that is not all extension, each gets the shortest suffix of its path, from that one on, that no other member's path ends with, or its whole path, and two names are equal exactly when their paths are |
| `Disambiguation.AccountedNext` | src/editor/editor.cpp:2336-2365 | one pass: no name grows past the point where it stands alone, and none leaves before |
| `Disambiguation.DisambiguateFilenames` | src/editor/editor.cpp:2261-2373 | it ends on every input; a name that stands alone stays; names that are shared become the shortest suffixes that tell the files apart; for names that are suffixes of their paths, the results are suffixes and tell all files apart exactly when names that are all extension are shared only by one file at the root |
| `Disambiguation.DepthIsStart` | src/editor/editor.cpp:684-705 | names cut from their paths at one depth, last elements or folder and last element, are such start names |
| `Disambiguation.DotFilesDisagree` | src/editor/editor.cpp:2291-2314 | `/x/.gd`, `/y/.gd` and `/z/x.gd`, shown by their last elements, do not meet the condition |

## Left out

- Orchestrations.Orchestration.Link: does not model the branch that inserts a conversion node, whose setting is registered nowhere.
- Upgrades.Upgrade: asks that the new ids fit 24 bits and that knots lie on connections between nodes of the graph; data types, positions and comments are left out.
- Runs.StepKeepsTidy: new nodes are asked to fit the packed fields, new functions to find free ids, and knots to lie on connections between nodes of their graph, as the editor places them.
- Runs.StepKeepsInv: a hidden pin has no index unless it was visible before; for one that has, and for knots beside reroutes, which are newer than knots, the condition is enough but not necessary.
- Runs.StepKeepsRule: the same of the cardinality rule; a removal that breaks the invariant is not decided.
- Queries.SymmetricIff: asks that indices are positions; elsewhere `HiddenPins.FoundFromItsOwnSide` says what is seen from which end.
- Duplicates.DuplicateFunction: models duplication with the code; the variant without it makes at most one link.  New ids are asked to fit 24 bits, and the graph to hold an entry node: without one the code goes on with no entry at all.  A function without a graph of its own, and a new name that a graph has although no function does, lead the code to a graph that is not there; both are asked away.
- Disambiguation.DisambiguateFilenames: the condition is necessary unless a file that is all extension lies in a folder without a name; and nothing is said of distinct results for names of built-in and unsaved scripts, which are no path suffixes.
- FunctionCreation.CreateFunction: asks for two free ids and for no more arguments than there are ports; the flags and the target class that a created pin gets from the type of its property, and its default values, are left out.
- Initialization.PostInitialized: `post_initialize` of nodes and graphs, which register missed events, and the upgrade of single nodes are left out; a loaded file is asked to have its tables filed under the right keys and knots between nodes of their graphs.
- Guids.Parse: the engine's `hex_to_int` is modelled on digits only; prefixes, signs and numbers beyond 64 bits are not.
- Graphs and connections are objects and fields that change in place; nodes and pins are values inside the orchestration's map, so aliasing of node and pin objects is not modelled.
- Callbacks on nodes (`on_pin_connected`, `post_initialize`, `pre_remove` and the like), signals, deferred calls and reconstruction of nodes: taken to leave the store alone.  After `remove_argument` the pin indices are stale until the nodes are reconstructed; `Recached` stands for that.
- The refusal of edits while script instances exist: a check of the running engine.
- Kinds of orchestration other than scripts: only there may the event graph be removed.
- Values of the engine's variant type, type conversion and `can_accept`: default values are compared and copied only, the default of a type is a parameter, and a saved entry of another type than its key's counts as empty or 0 where the engine would convert it.
- Hash maps: walks over them are modelled in every possible order.
- Ids beyond 24 bits and ports beyond 8 bits are cut off where connections are packed; the invariant keeps ids and pin vectors inside those bounds.
- Knots are not renumbered by `adjust_connections`, so a knot can become stale by removing an argument; the model keeps that.
- Renaming functions, variables, signals, custom properties and the editor: thin code over maps and widgets.
