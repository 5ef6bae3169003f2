/**
 * What both generations' NodeAssignmentRegistry store: the node assigned to
 * a path in a subgraph, and the subgraphs a node at a path is assigned to,
 * each subgraph filed under its string form. Missing levels read as `[]`
 * and null, as `??` reads them.
 */
module Registries {
  import opened Wrappers
  import opened PhpArrays
  import opened Content

  /** path to subgraph string form to node */
  type NodesByPath<N> = Arr<string, Arr<Digest, N>>
  /** path to node identifier to subgraph string form to subgraph identifier */
  type SubgraphsByPath<NK(==,!new), I> = Arr<string, Arr<NK, Arr<Digest, I>>>

  /** `$nodes[$path][$subgraph] = $node` */
  function WithNode<N>(nodes: NodesByPath<N>, path: string, subgraph: Digest, node: N): NodesByPath<N> {
    PutIn(nodes, path, subgraph, node)
  }

  /** `$nodes[$path][$subgraph] ?? null` */
  function NodeAt<N>(nodes: NodesByPath<N>, path: string, subgraph: Digest): (r: Option<N>)
    ensures r.Some? <==> path in nodes.items && subgraph in nodes.items[path].items
    ensures r.Some? ==> r.value == nodes.items[path].items[subgraph]
  {
    GetIn(nodes, path, subgraph)
  }

  /** `$subgraphs[$path][$nodeIdentifier][$key] = $subgraph` */
  function WithSubgraph<NK(==,!new), I>(subgraphs: SubgraphsByPath<NK, I>, path: string, nodeIdentifier: NK, key: Digest, subgraph: I): SubgraphsByPath<NK, I> {
    subgraphs.Put(path, PutIn(subgraphs.Get(path).GetOr(Empty()), nodeIdentifier, key, subgraph))
  }

  /** `$subgraphs[$path][$nodeIdentifier] ?? []` */
  function SubgraphsAt<NK(==,!new), I>(subgraphs: SubgraphsByPath<NK, I>, path: string, nodeIdentifier: NK): (r: Arr<Digest, I>)
    ensures (path !in subgraphs.items || nodeIdentifier !in subgraphs.items[path].items) ==> r == Empty()
    ensures path in subgraphs.items && nodeIdentifier in subgraphs.items[path].items ==> r == subgraphs.items[path].items[nodeIdentifier]
  {
    GetIn(subgraphs, path, nodeIdentifier).GetOr(Empty())
  }

  /** A registered node reads back at its path and subgraph; every other pair reads as before. */
  lemma NodeReadsBack<N>(nodes: NodesByPath<N>, path: string, subgraph: Digest, node: N, otherPath: string, otherSubgraph: Digest)
    ensures NodeAt(WithNode(nodes, path, subgraph, node), path, subgraph) == Some(node)
    ensures otherPath != path || otherSubgraph != subgraph ==>
      NodeAt(WithNode(nodes, path, subgraph, node), otherPath, otherSubgraph) == NodeAt(nodes, otherPath, otherSubgraph)
  {
    PutInThenGetIn(nodes, path, subgraph, node, otherPath, otherSubgraph);
  }

  /**
   * A registered subgraph is added to the subgraphs of its path and node
   * under its key, replacing what was filed there; the subgraphs of every
   * other path and node read as before.
   */
  lemma SubgraphReadsBack<NK(!new), I>(subgraphs: SubgraphsByPath<NK, I>, path: string, nodeIdentifier: NK, key: Digest, subgraph: I,
                             otherPath: string, otherNode: NK)
    ensures SubgraphsAt(WithSubgraph(subgraphs, path, nodeIdentifier, key, subgraph), path, nodeIdentifier)
      == SubgraphsAt(subgraphs, path, nodeIdentifier).Put(key, subgraph)
    ensures otherPath != path || otherNode != nodeIdentifier ==>
      SubgraphsAt(WithSubgraph(subgraphs, path, nodeIdentifier, key, subgraph), otherPath, otherNode)
        == SubgraphsAt(subgraphs, otherPath, otherNode)
  {
    var inner := subgraphs.Get(path).GetOr(Empty());
    PutInThenGetIn(inner, nodeIdentifier, key, subgraph, nodeIdentifier, key);
    if otherPath == path {
      assert SubgraphsAt(WithSubgraph(subgraphs, path, nodeIdentifier, key, subgraph), otherPath, otherNode)
        == PutIn(inner, nodeIdentifier, key, subgraph).Get(otherNode).GetOr(Empty());
    }
  }

  /**
   * Registering a subgraph under a key already filed for that path and node
   * keeps the number of subgraphs there: a subgraph is stored once however
   * often it is registered.
   */
  lemma SubgraphStoredOnce<NK(!new), I>(subgraphs: SubgraphsByPath<NK, I>, path: string, nodeIdentifier: NK, key: Digest, subgraph: I, again: I)
    ensures var once := WithSubgraph(subgraphs, path, nodeIdentifier, key, subgraph);
      SubgraphsAt(WithSubgraph(once, path, nodeIdentifier, key, again), path, nodeIdentifier).Count()
        == SubgraphsAt(once, path, nodeIdentifier).Count()
    ensures var once := WithSubgraph(subgraphs, path, nodeIdentifier, key, subgraph);
      SubgraphsAt(WithSubgraph(once, path, nodeIdentifier, key, again), path, nodeIdentifier).order
        == SubgraphsAt(once, path, nodeIdentifier).order
  {
    var once := WithSubgraph(subgraphs, path, nodeIdentifier, key, subgraph);
    SubgraphReadsBack(subgraphs, path, nodeIdentifier, key, subgraph, path, nodeIdentifier);
    SubgraphReadsBack(once, path, nodeIdentifier, key, again, path, nodeIdentifier);
  }

  /**
   * One assignment the graph service decides on: `node`, at `path`, is the
   * variant the subgraph `subgraph` (string form `key`) sees of its
   * aggregate; the subgraph is filed for the node under `nodeIdentifier`.
   */
  datatype Pick<N, NK, I> = Pick(path: string, key: Digest, subgraph: I, node: N, nodeIdentifier: NK)

  /** The node map after registering the node of every pick, in order. */
  function NodesAfter<N, NK, I>(nodes: NodesByPath<N>, picks: seq<Pick<N, NK, I>>): NodesByPath<N>
    decreases |picks|
  {
    if picks == [] then nodes
    else
      var p := picks[|picks| - 1];
      WithNode(NodesAfter(nodes, picks[..|picks| - 1]), p.path, p.key, p.node)
  }

  /** The subgraph map after registering the subgraph of every pick, in order. */
  function SubgraphsAfter<N, NK(==,!new), I>(subgraphs: SubgraphsByPath<NK, I>, picks: seq<Pick<N, NK, I>>): SubgraphsByPath<NK, I>
    decreases |picks|
  {
    if picks == [] then subgraphs
    else
      var p := picks[|picks| - 1];
      WithSubgraph(SubgraphsAfter(subgraphs, picks[..|picks| - 1]), p.path, p.nodeIdentifier, p.key, p.subgraph)
  }

  /** Registering the nodes of two runs of picks one after the other is registering them joined. */
  lemma {:induction false} NodesAfterAppend<N, NK, I>(nodes: NodesByPath<N>, first: seq<Pick<N, NK, I>>, second: seq<Pick<N, NK, I>>)
    ensures NodesAfter(nodes, first + second) == NodesAfter(NodesAfter(nodes, first), second)
    decreases |second|
  {
    var both := first + second;
    if second == [] {
      assert both == first;
    } else {
      var init := second[..|second| - 1];
      assert both[..|both| - 1] == first + init;
      assert both[|both| - 1] == second[|second| - 1];
      NodesAfterAppend(nodes, first, init);
      NodesAfterLast(nodes, both);
      NodesAfterLast(NodesAfter(nodes, first), second);
    }
  }

  /** Registering the subgraphs of two runs of picks one after the other is registering them joined. */
  lemma {:induction false} SubgraphsAfterAppend<N, NK(!new), I>(subgraphs: SubgraphsByPath<NK, I>, first: seq<Pick<N, NK, I>>, second: seq<Pick<N, NK, I>>)
    ensures SubgraphsAfter(subgraphs, first + second) == SubgraphsAfter(SubgraphsAfter(subgraphs, first), second)
    decreases |second|
  {
    var both := first + second;
    if second == [] {
      assert both == first;
    } else {
      var init := second[..|second| - 1];
      assert both[..|both| - 1] == first + init;
      var p := second[|second| - 1];
      assert both[|both| - 1] == p;
      SubgraphsAfterAppend(subgraphs, first, init);
      SubgraphsAfterLast(subgraphs, both);
      SubgraphsAfterLast(SubgraphsAfter(subgraphs, first), second);
    }
  }

  /** The node of the last pick is registered over the registrations of the picks before it. */
  lemma NodesAfterLast<N, NK, I>(nodes: NodesByPath<N>, picks: seq<Pick<N, NK, I>>)
    requires picks != []
    ensures var p := picks[|picks| - 1];
            NodesAfter(nodes, picks) == WithNode(NodesAfter(nodes, picks[..|picks| - 1]), p.path, p.key, p.node)
  {
  }

  /** The subgraph of the last pick is registered over the registrations of the picks before it. */
  lemma SubgraphsAfterLast<N, NK(!new), I>(subgraphs: SubgraphsByPath<NK, I>, picks: seq<Pick<N, NK, I>>)
    requires picks != []
    ensures var p := picks[|picks| - 1];
            SubgraphsAfter(subgraphs, picks) == WithSubgraph(SubgraphsAfter(subgraphs, picks[..|picks| - 1]), p.path, p.nodeIdentifier, p.key, p.subgraph)
  {
  }

  /** Registering two runs of picks one after the other is registering them joined. */
  lemma AfterAppend<N, NK(!new), I>(nodes: NodesByPath<N>, subgraphs: SubgraphsByPath<NK, I>,
                                   first: seq<Pick<N, NK, I>>, second: seq<Pick<N, NK, I>>)
    ensures NodesAfter(nodes, first + second) == NodesAfter(NodesAfter(nodes, first), second)
    ensures SubgraphsAfter(subgraphs, first + second) == SubgraphsAfter(SubgraphsAfter(subgraphs, first), second)
  {
    NodesAfterAppend(nodes, first, second);
    SubgraphsAfterAppend(subgraphs, first, second);
  }

  /** A path and subgraph that no pick names read as before the picks. */
  lemma {:induction false} NodesAfterUntouched<N, NK, I>(nodes: NodesByPath<N>, picks: seq<Pick<N, NK, I>>, path: string, key: Digest)
    requires forall i :: 0 <= i < |picks| ==> picks[i].path != path || picks[i].key != key
    ensures NodeAt(NodesAfter(nodes, picks), path, key) == NodeAt(nodes, path, key)
    decreases |picks|
  {
    if picks != [] {
      var init := picks[..|picks| - 1];
      var p := picks[|picks| - 1];
      assert forall i :: 0 <= i < |init| ==> init[i] == picks[i];
      NodesAfterUntouched(nodes, init, path, key);
      NodeReadsBack(NodesAfter(nodes, init), p.path, p.key, p.node, path, key);
    }
  }

  /** After the picks, the node at a path in a subgraph is the node of the last pick for that path and subgraph. */
  lemma {:induction false} NodesAfterLastWins<N, NK, I>(nodes: NodesByPath<N>, picks: seq<Pick<N, NK, I>>, i: nat)
    requires i < |picks|
    requires forall j :: i < j < |picks| ==> picks[j].path != picks[i].path || picks[j].key != picks[i].key
    ensures NodeAt(NodesAfter(nodes, picks), picks[i].path, picks[i].key) == Some(picks[i].node)
    decreases |picks|
  {
    var init := picks[..|picks| - 1];
    var p := picks[|picks| - 1];
    NodeReadsBack(NodesAfter(nodes, init), p.path, p.key, p.node, picks[i].path, picks[i].key);
    if i < |init| {
      assert init[i] == picks[i];
      assert forall j :: i < j < |init| ==> init[j] == picks[j];
      NodesAfterLastWins(nodes, init, i);
    }
  }

  /** Every node in the map after the picks was either there before or is the node of a pick for its path and subgraph. */
  lemma {:induction false} NodesAfterCameFromPicks<N, NK, I>(nodes: NodesByPath<N>, picks: seq<Pick<N, NK, I>>, path: string, key: Digest)
    requires NodeAt(NodesAfter(nodes, picks), path, key).Some?
    ensures NodeAt(NodesAfter(nodes, picks), path, key) == NodeAt(nodes, path, key)
      || exists i :: 0 <= i < |picks| && picks[i].path == path && picks[i].key == key
           && NodeAt(NodesAfter(nodes, picks), path, key) == Some(picks[i].node)
    decreases |picks|
  {
    if picks != [] {
      var init := picks[..|picks| - 1];
      var p := picks[|picks| - 1];
      NodeReadsBack(NodesAfter(nodes, init), p.path, p.key, p.node, path, key);
      if p.path != path || p.key != key {
        NodesAfterCameFromPicks(nodes, init, path, key);
        if NodeAt(NodesAfter(nodes, picks), path, key) != NodeAt(nodes, path, key) {
          var i :| 0 <= i < |init| && init[i].path == path && init[i].key == key
            && NodeAt(NodesAfter(nodes, init), path, key) == Some(init[i].node);
          assert picks[i] == init[i];
        }
      }
    }
  }

  /** The subgraph of every pick is filed, under its key, for the pick's path and node. */
  lemma {:induction false} SubgraphsAfterHoldEach<N, NK(!new), I>(subgraphs: SubgraphsByPath<NK, I>, picks: seq<Pick<N, NK, I>>, i: nat)
    requires i < |picks|
    ensures picks[i].key in SubgraphsAt(SubgraphsAfter(subgraphs, picks), picks[i].path, picks[i].nodeIdentifier).items
    decreases |picks|
  {
    var init := picks[..|picks| - 1];
    var p := picks[|picks| - 1];
    SubgraphReadsBack(SubgraphsAfter(subgraphs, init), p.path, p.nodeIdentifier, p.key, p.subgraph, picks[i].path, picks[i].nodeIdentifier);
    if i < |init| {
      assert init[i] == picks[i];
      SubgraphsAfterHoldEach(subgraphs, init, i);
    }
  }

  /**
   * Every subgraph filed for a path and node after the picks was filed
   * there before or is the subgraph of a pick for that path, node and key.
   */
  lemma {:induction false} SubgraphsAfterCameFromPicks<N, NK(!new), I>(subgraphs: SubgraphsByPath<NK, I>, picks: seq<Pick<N, NK, I>>,
                                                                       path: string, nodeIdentifier: NK, key: Digest)
    requires key in SubgraphsAt(SubgraphsAfter(subgraphs, picks), path, nodeIdentifier).items
    ensures var filed := SubgraphsAt(SubgraphsAfter(subgraphs, picks), path, nodeIdentifier).items[key];
      (key in SubgraphsAt(subgraphs, path, nodeIdentifier).items && filed == SubgraphsAt(subgraphs, path, nodeIdentifier).items[key])
      || exists i :: 0 <= i < |picks| && picks[i].path == path && picks[i].nodeIdentifier == nodeIdentifier
           && picks[i].key == key && picks[i].subgraph == filed
    decreases |picks|
  {
    if picks != [] {
      var init := picks[..|picks| - 1];
      var p := picks[|picks| - 1];
      SubgraphReadsBack(SubgraphsAfter(subgraphs, init), p.path, p.nodeIdentifier, p.key, p.subgraph, path, nodeIdentifier);
      var filed := SubgraphsAt(SubgraphsAfter(subgraphs, picks), path, nodeIdentifier).items[key];
      if p.path == path && p.nodeIdentifier == nodeIdentifier && p.key == key {
        assert picks[|picks| - 1] == p;
      } else {
        assert key in SubgraphsAt(SubgraphsAfter(subgraphs, init), path, nodeIdentifier).items;
        SubgraphsAfterCameFromPicks(subgraphs, init, path, nodeIdentifier, key);
        if !(key in SubgraphsAt(subgraphs, path, nodeIdentifier).items && filed == SubgraphsAt(subgraphs, path, nodeIdentifier).items[key]) {
          var i :| 0 <= i < |init| && init[i].path == path && init[i].nodeIdentifier == nodeIdentifier
            && init[i].key == key && init[i].subgraph == filed;
          assert picks[i] == init[i];
        }
      }
    }
  }
}
