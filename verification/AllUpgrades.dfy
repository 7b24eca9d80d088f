/**
  The upgrade of all graphs of a file, one after the other (`Orchestration::post_initialize` of
  `src/orchestration/orchestration.cpp`).
 */
module AllUpgrades {
  import opened Connections
  import opened ConnectionCaches
  import opened Nodes
  import opened Reroutes
  import opened Stores
  import opened Orchestrations
  import opened KnotMigration
  import opened Upgrades
  import opened UpgradeMeaning
  import opened Rules

  /** The graphs upgraded one after the other. */
  ghost predicate AllUpgraded(s: Store, names: seq<string>, t: Store) {
    if names == [] then t == s
    else
      var init, g := names[..|names| - 1], names[|names| - 1];
      exists u, order, idss :: AllUpgraded(s, init, u) && g in u.graphs && UpgradeTaken(u, t, g, order, idss)
  }

  lemma LastUpgrade(s: Store, names: seq<string>, t: Store)
      returns (u: Store, order: seq<Connection>, idss: seq<seq<NodeBits>>)
    requires names != [] && AllUpgraded(s, names, t)
    ensures AllUpgraded(s, names[..|names| - 1], u)
    ensures names[|names| - 1] in u.graphs && UpgradeTaken(u, t, names[|names| - 1], order, idss)
  {
    hide UpgradeTaken;
    u, order, idss :| AllUpgraded(s, names[..|names| - 1], u) && names[|names| - 1] in u.graphs
                      && UpgradeTaken(u, t, names[|names| - 1], order, idss);
  }

  /** No turn adds knots to any graph, or takes a node away. */
  ghost predicate KnotsShrink(s: Store, t: Store) {
    && t.graphs.Keys == s.graphs.Keys && s.nodes.Keys <= t.nodes.Keys
    && forall g :: g in s.graphs ==> t.graphs[g].knots.Keys <= s.graphs[g].knots.Keys
  }

  lemma ShrinkTrans(s: Store, t: Store, u: Store)
    requires KnotsShrink(s, t) && KnotsShrink(t, u)
    ensures KnotsShrink(s, u)
  {
  }

  lemma DisconnectShrinks(s: Store, c: Connection)
    ensures KnotsShrink(s, s.Disconnect(c))
  {
  }

  lemma ChainShrinks(s: Store, g: string, c: Connection, ids: seq<NodeBits>)
    requires g in s.graphs && ids != []
    ensures KnotsShrink(s, Midway(s, g, c, ids))
  {
    WithChainContents(s, g, c, ids);
    GuardedShrinks(WithChain(s, g, c, ids), ids[|ids| - 1], c.toNode, ChainWire(c, ids, |ids|));
    hide WithChain, ChainNodes, IdSet, ChainWire, ConnectGuarded, TypeOfWire;
  }

  lemma GuardedShrinks(s: Store, source: int, target: int, c: Connection)
    ensures ConnectGuarded(s, source, target, c).graphs == s.graphs
            && ConnectGuarded(s, source, target, c).nodes == s.nodes
  {
    hide Reaches, Store.Reroutes;
  }

  lemma ReplacedShrinks(t: Store, g: string, c: Connection, ids: seq<NodeBits>)
    requires g in t.graphs && ids != []
    ensures KnotsShrink(t, Replaced(t, g, c, ids))
  {
    ChainShrinks(t, g, c, ids);
    DisconnectShrinks(Midway(t, g, c, ids), c);
    hide Midway, KnotsShrink, Store.Disconnect;
    ShrinkTrans(t, Midway(t, g, c, ids), Replaced(t, g, c, ids));
  }

  lemma {:induction false} TurnedShrinks(s: Store, g: string, order: seq<Connection>, idss: seq<seq<NodeBits>>)
    requires g in s.graphs && |idss| == |order|
    ensures KnotsShrink(s, Turned(s, g, order, idss))
  {
    if order != [] {
      var last := |order| - 1;
      TurnedShrinks(s, g, order[..last], idss[..last]);
      hide Replaced, KnotsShrink;
      var t := Turned(s, g, order[..last], idss[..last]);
      if idss[last] != [] {
        ReplacedShrinks(t, g, order[last], idss[last]);
        ShrinkTrans(s, t, Replaced(t, g, order[last], idss[last]));
      }
    }
  }

  lemma ClearedShrinks(s: Store, u: Store, g: string)
    requires KnotsShrink(s, u) && g in u.graphs
    ensures var t := u.SetKnots(g, map[]); KnotsShrink(s, t) && g in t.graphs && t.graphs[g].knots == map[]
  {
  }

  lemma TakenShrinks(s: Store, t: Store, g: string, order: seq<Connection>, idss: seq<seq<NodeBits>>)
    requires g in s.graphs && UpgradeTaken(s, t, g, order, idss)
    ensures KnotsShrink(s, t) && g in t.graphs && t.graphs[g].knots == map[]
  {
    TakenMeans(s, t, g, order, idss);
    TurnedShrinks(s, g, order, idss);
    TurnedGraph(s, g, order, idss);
    hide *;
    ClearedShrinks(s, Turned(s, g, order, idss), g);
  }

  ghost predicate NoKnotsIn(s: Store, names: seq<string>) {
    forall i :: 0 <= i < |names| ==> names[i] in s.graphs && s.graphs[names[i]].knots == map[]
  }

  lemma StillNoKnots(s: Store, t: Store, names: seq<string>)
    requires NoKnotsIn(s, names) && KnotsShrink(s, t)
    ensures NoKnotsIn(t, names)
  {
    forall i | 0 <= i < |names| ensures names[i] in t.graphs && t.graphs[names[i]].knots == map[] {
      assert t.graphs[names[i]].knots.Keys <= s.graphs[names[i]].knots.Keys;
    }
  }

  /** However many graphs are upgraded, the store stays tidy, no cycle is closed, and their knots are gone. */
  lemma {:induction false} AllUpgradedKeeps(s: Store, names: seq<string>, t: Store)
    requires s.Tidy() && AllUpgraded(s, names, t)
    ensures t.Tidy() && KnotsShrink(s, t) && NoKnotsIn(t, names)
    ensures NoCycle(s) ==> NoCycle(t)
  {
    if names != [] {
      hide *;
      var init, g := names[..|names| - 1], names[|names| - 1];
      assert names == init + [g];
      var u, order, idss := LastUpgrade(s, names, t);
      AllUpgradedKeeps(s, init, u);
      NoKnotsSnoc(t, init, g);
      NoCycleMeans(u);
      NoCycleMeans(t);
      UpgradeTakenKeeps(u, t, g, order, idss);
      TakenShrinks(u, t, g, order, idss);
      ShrinkTrans(s, u, t);
      StillNoKnots(u, t, init);
    } else {
      hide Store.Tidy, NoCycle;
    }
  }

  lemma NoKnotsSnoc(t: Store, init: seq<string>, g: string)
    ensures g in t.graphs && t.graphs[g].knots == map[] && NoKnotsIn(t, init) ==> NoKnotsIn(t, init + [g])
  {
  }

  // ----- What the wires mean afterwards -----

  /** The wires that carry knots in any of the graphs. */
  function KnottedIn(s: Store, names: seq<string>): set<Connection> {
    if names == [] then {} else
    var g := names[|names| - 1];
    KnottedIn(s, names[..|names| - 1]) + if g in s.graphs then Knots(s.graphs[g]) else {}
  }

  ghost predicate Distinct(names: seq<string>) {
    forall i, j :: 0 <= i < j < |names| ==> names[i] != names[j]
  }

  /** Graphs that are there, each once, with knots on wires that touch no reroutes. */
  ghost predicate Upgradable(s: Store, names: seq<string>) {
    && Distinct(names)
    && forall i :: 0 <= i < |names| ==> names[i] in s.graphs && KnotsOffReroutes(s, names[i])
  }

  /** The upgrades as replacements of wires by chains. */
  ghost predicate AllReplaced(s: Store, names: seq<string>, t: Store) {
    if names == [] then t == s
    else
      var init, g := names[..|names| - 1], names[|names| - 1];
      exists u, chains :: AllReplaced(s, init, u) && OneReplaced(u, g, chains, t)
  }

  ghost predicate OneReplaced(u: Store, g: string, chains: Chains, t: Store) {
    u.Tidy() && g in u.graphs && UpgradedBy(u, t, g, chains)
  }

  /** Old nodes and the graphs still to come are as they were. */
  ghost predicate Untouched(s: Store, names: seq<string>, u: Store) {
    && u.graphs.Keys == s.graphs.Keys
    && (forall n :: n in s.nodes ==> n in u.nodes && u.nodes[n] == s.nodes[n])
    && (forall g :: g in s.graphs && g !in names ==> u.graphs[g] == s.graphs[g])
  }

  lemma UntouchedNext(s: Store, names: seq<string>, u: Store, g: string, t: Store, chains: Chains)
    requires Untouched(s, names, u) && g in u.graphs && UpgradedBy(u, t, g, chains)
    ensures Untouched(s, names + [g], t)
  {
    hide Migrated, NewIds, Fresh;
  }

  lemma {:induction false} ReplacedUntouched(s: Store, names: seq<string>, t: Store)
    requires AllReplaced(s, names, t)
    ensures Untouched(s, names, t)
  {
    hide *;
    if names == [] {
      NothingUntouched(s, t);
    } else {
      var init, g := names[..|names| - 1], names[|names| - 1];
      assert names == init + [g];
      var u, chains := LastReplaced(s, names, t);
      ReplacedUntouched(s, init, u);
      UntouchedNext(s, init, u, g, t, chains);
    }
  }

  lemma NothingUntouched(s: Store, t: Store)
    requires AllReplaced(s, [], t)
    ensures Untouched(s, [], t)
  {
  }

  /** The next graph can be upgraded as it could at the start. */
  lemma NextUpgradable(s: Store, names: seq<string>, u: Store, g: string)
    requires s.Tidy() && Untouched(s, names, u) && g in s.graphs && g !in names && KnotsOffReroutes(s, g)
    ensures g in u.graphs && u.graphs[g] == s.graphs[g] && KnotsOffReroutes(u, g)
  {
    assert s.GraphSound(g);
    forall c | c in s.graphs[g].knots ensures c.fromNode in s.nodes && c.toNode in s.nodes {
      assert s.Holds(g, c.fromNode) && s.Holds(g, c.toNode);
    }
    hide Store.Tidy;
  }

  lemma UpgradableInit(s: Store, names: seq<string>)
    requires Upgradable(s, names) && names != []
    ensures var init, g := names[..|names| - 1], names[|names| - 1];
            Upgradable(s, init) && g in s.graphs && g !in init && KnotsOffReroutes(s, g) && names == init + [g]
  {
    var init := names[..|names| - 1];
    hide KnotsOffReroutes;
    assert forall i :: 0 <= i < |init| ==> init[i] == names[i];
  }

  lemma {:induction false} UpgradedIsReplaced(s: Store, names: seq<string>, t: Store)
    requires s.Tidy() && AllUpgraded(s, names, t) && Upgradable(s, names)
    ensures AllReplaced(s, names, t)
  {
    if names != [] {
      hide *;
      var init, g := names[..|names| - 1], names[|names| - 1];
      UpgradableInit(s, names);
      var u, order, idss := LastUpgrade(s, names, t);
      AllUpgradedKeeps(s, init, u);
      UpgradedIsReplaced(s, init, u);
      ReplacedUntouched(s, init, u);
      NextUpgradable(s, init, u, g);
      TakenIsUpgraded(u, t, g, order, idss);
      ReplacedBy(s, names, u, t, ChainsOf(order, idss));
    } else {
      hide Store.Tidy;
    }
  }

  lemma ReplacedBy(s: Store, names: seq<string>, u: Store, t: Store, chains: Chains)
    requires names != [] && AllReplaced(s, names[..|names| - 1], u) && u.Tidy() && names[|names| - 1] in u.graphs
    requires UpgradedBy(u, t, names[|names| - 1], chains)
    ensures AllReplaced(s, names, t)
  {
    hide Store.Tidy, UpgradedBy;
    assert OneReplaced(u, names[|names| - 1], chains, t);
  }

  lemma LastReplaced(s: Store, names: seq<string>, t: Store) returns (u: Store, chains: Chains)
    requires names != [] && AllReplaced(s, names, t)
    ensures AllReplaced(s, names[..|names| - 1], u) && u.Tidy() && names[|names| - 1] in u.graphs
    ensures UpgradedBy(u, t, names[|names| - 1], chains)
  {
    hide Store.Tidy, UpgradedBy;
    u, chains :| AllReplaced(s, names[..|names| - 1], u) && OneReplaced(u, names[|names| - 1], chains, t);
  }

  /** Wires added that the upgrades do not touch stay. */
  function More(s: Store, k: set<Connection>): Store {
    s.(conns := s.conns + k)
  }

  lemma MoreUpgraded(u: Store, t: Store, g: string, chains: Chains, k: set<Connection>)
    requires g in u.graphs && UpgradedBy(u, t, g, chains) && k !! Knots(u.graphs[g])
    ensures UpgradedBy(More(u, k), More(t, k), g, chains)
  {
    assert chains.Keys == Knots(u.graphs[g]);
    assert Migrated(u.conns + k, chains) == Migrated(u.conns, chains) + k;
    hide Fresh, NewIds, Migrated, TypeOfWire;
  }

  lemma MoreTidy(u: Store, k: set<Connection>)
    requires u.Tidy() && forall c :: c in k ==> c.fromNode in u.nodes && c.toNode in u.nodes
    ensures More(u, k).Tidy()
  {
    TidyIs(u);
    TidyIs(More(u, k));
    RegroupedSound(u, More(u, k));
    hide Store.Tidy, Store.Partitioned, Store.NodesFiled, Store.GraphsSound, Store.FunctionsSound;
  }

  /** None of the wires carries a knot in one of the graphs. */
  ghost predicate Unknotted(s: Store, names: seq<string>, k: set<Connection>) {
    forall i :: 0 <= i < |names| && names[i] in s.graphs ==> k !! Knots(s.graphs[names[i]])
  }

  lemma {:induction false} MoreReplaced(s: Store, names: seq<string>, t: Store, k: set<Connection>)
    requires AllReplaced(s, names, t) && Upgradable(s, names) && s.Tidy() && Unknotted(s, names, k)
    requires forall c :: c in k ==> c.fromNode in s.nodes && c.toNode in s.nodes
    ensures AllReplaced(More(s, k), names, More(t, k))
  {
    hide *;
    if names == [] {
      NoneMore(s, t, k);
    } else {
      var init, g := names[..|names| - 1], names[|names| - 1];
      UpgradableInit(s, names);
      UnknottedInit(s, names, k);
      var u, chains := LastReplaced(s, names, t);
      MoreReplaced(s, init, u, k);
      ReplacedUntouched(s, init, u);
      NextUpgradable(s, init, u, g);
      UntouchedNodes(s, init, u);
      MoreUpgraded(u, t, g, chains, k);
      MoreTidy(u, k);
      MoreGraphs(u, k);
      ReplacedBy(More(s, k), names, More(u, k), More(t, k), chains);
    }
  }

  lemma NoneMore(s: Store, t: Store, k: set<Connection>)
    requires AllReplaced(s, [], t)
    ensures AllReplaced(More(s, k), [], More(t, k))
  {
  }

  lemma UnknottedInit(s: Store, names: seq<string>, k: set<Connection>)
    requires Unknotted(s, names, k) && names != [] && names[|names| - 1] in s.graphs
    ensures Unknotted(s, names[..|names| - 1], k) && k !! Knots(s.graphs[names[|names| - 1]])
  {
    hide Knots;
  }

  lemma MoreGraphs(u: Store, k: set<Connection>)
    ensures More(u, k).graphs == u.graphs && More(u, k).nodes == u.nodes && More(u, k).conns == u.conns + k
    ensures More(u, k).Reroutes() == u.Reroutes()
  {
  }

  lemma UntouchedNodes(s: Store, names: seq<string>, u: Store)
    requires Untouched(s, names, u)
    ensures forall n :: n in s.nodes ==> n in u.nodes
  {
  }

  /** Knots of different graphs lie on different wires. */
  lemma {:induction false} OtherKnots(s: Store, names: seq<string>, g: string)
    requires s.Tidy() && g in s.graphs && g !in names && Upgradable(s, names)
    ensures Unknotted(s, names, Knots(s.graphs[g]))
    ensures forall c :: c in Knots(s.graphs[g]) ==> c.fromNode in s.nodes && c.toNode in s.nodes
  {
    assert s.GraphSound(g);
    forall c | c in Knots(s.graphs[g]) ensures c.fromNode in s.nodes && c.toNode in s.nodes {
      assert s.Holds(g, c.fromNode) && s.Holds(g, c.toNode);
    }
    forall i | 0 <= i < |names| ensures Knots(s.graphs[g]) !! Knots(s.graphs[names[i]]) {
      var h := names[i];
      assert s.GraphSound(h);
      forall c | c in Knots(s.graphs[g]) ensures c !in Knots(s.graphs[h]) {
        assert s.Holds(g, c.fromNode) && (c in Knots(s.graphs[h]) ==> s.Holds(h, c.fromNode));
      }
    }
  }

  lemma {:induction false} SameKnotted(s: Store, k: set<Connection>, names: seq<string>)
    ensures KnottedIn(More(s, k), names) == KnottedIn(s, names)
    ensures Upgradable(s, names) ==> Upgradable(More(s, k), names)
  {
    if names != [] {
      SameKnotted(s, k, names[..|names| - 1]);
    }
    MoreGraphs(s, k);
    hide Knots;
  }

  lemma KnottedSnoc(s: Store, names: seq<string>)
    requires names != [] && names[|names| - 1] in s.graphs
    ensures KnottedIn(s, names) == KnottedIn(s, names[..|names| - 1]) + Knots(s.graphs[names[|names| - 1]])
  {
  }

  /** After all the upgrades every pin that was there resolves as with all knotted wires of all graphs in place. */
  lemma {:induction false} AllReplacedMeaning(s: Store, names: seq<string>, t: Store, p: PinRef, r: PinRef)
    requires s.Tidy() && AllReplaced(s, names, t) && Upgradable(s, names) && p.node in s.nodes
    ensures ResolvesTo(t.conns, t.Reroutes(), p, r) <==>
            ResolvesTo(s.conns + KnottedIn(s, names), s.Reroutes(), p, r)
    decreases |names|
  {
    hide *;
    if names == [] {
      NothingReplaced(s, t);
    } else {
      var init, g := names[..|names| - 1], names[|names| - 1];
      UpgradableInit(s, names);
      KnottedSnoc(s, names);
      var u, chains := LastReplaced(s, names, t);
      var k := Knots(s.graphs[g]);
      ReplacedUntouched(s, init, u);
      NextUpgradable(s, init, u, g);
      UntouchedNodes(s, init, u);
      UpgradeKeepsMeaning(u, t, g, chains, p, r);
      KnotsAreChains(u, t, g, chains);
      OtherKnots(s, init, g);
      MoreReplaced(s, init, u, k);
      MoreTidy(s, k);
      SameKnotted(s, k, init);
      MoreGraphs(s, k);
      MoreGraphs(u, k);
      AllReplacedMeaning(More(s, k), init, More(u, k), p, r);
      assert s.conns + k + KnottedIn(s, init) == s.conns + (KnottedIn(s, init) + k);
    }
  }

  lemma NothingReplaced(s: Store, t: Store)
    requires AllReplaced(s, [], t)
    ensures t == s && s.conns + KnottedIn(s, []) == s.conns
  {
  }

  lemma KnotsAreChains(u: Store, t: Store, g: string, chains: Chains)
    requires g in u.graphs && UpgradedBy(u, t, g, chains)
    ensures chains.Keys == Knots(u.graphs[g])
  {
    hide Upgraded;
  }

  lemma {:induction false} LiveKnots(s: Store, names: seq<string>)
    requires forall g :: g in s.graphs ==> NoStaleKnots(s, g)
    ensures KnottedIn(s, names) <= s.conns
  {
    if names != [] {
      LiveKnots(s, names[..|names| - 1]);
    }
  }

  /**
    The same of the upgrades turn by turn.  With no stale knot in any graph every old pin resolves to exactly
    the pins it resolved to before.
   */
  lemma AllUpgradedMeaning(s: Store, names: seq<string>, t: Store, p: PinRef, r: PinRef)
    requires s.Tidy() && AllUpgraded(s, names, t) && Upgradable(s, names) && p.node in s.nodes
    ensures ResolvesTo(t.conns, t.Reroutes(), p, r) <==>
            ResolvesTo(s.conns + KnottedIn(s, names), s.Reroutes(), p, r)
    ensures (forall g :: g in s.graphs ==> NoStaleKnots(s, g)) ==>
              (ResolvesTo(t.conns, t.Reroutes(), p, r) <==> ResolvesTo(s.conns, s.Reroutes(), p, r))
  {
    hide *;
    UpgradedIsReplaced(s, names, t);
    AllReplacedMeaning(s, names, t, p, r);
    if forall g :: g in s.graphs ==> NoStaleKnots(s, g) {
      LiveKnots(s, names);
      assert s.conns + KnottedIn(s, names) == s.conns;
    }
  }
}
