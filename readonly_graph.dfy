/**
 * ContentGraph of the older generation: the subgraphs, the nodes indexed by
 * persistence identifier and the node aggregates indexed by identifier.
 *
 * The node index stays null until a node is written to it, as PHP leaves a
 * property that was never assigned.
 */
module ReadOnlyGraphs {
  import opened Wrappers
  import opened PhpArrays
  import opened Content
  import opened ReadOnlyNodes
  import opened ReadOnlyAggregates
  import opened ReadOnlySubgraphs
  import ReadOnlySubgraphIdentifier
  import NodeIndexTraversal

  /** The node index after writing the first `n` nodes, each under its persistence identifier. */
  function IndexUpTo(nodes: seq<ReadOnlyNode>, n: nat): Arr<string, ReadOnlyNode>
    requires n <= |nodes|
  {
    if n == 0 then Empty() else IndexUpTo(nodes, n - 1).Put(nodes[n - 1].nodeIdentifier, nodes[n - 1])
  }

  /** The node index the constructor builds: null when there are no nodes. */
  function IndexOf(nodes: seq<ReadOnlyNode>): Option<Arr<string, ReadOnlyNode>> {
    if nodes == [] then None else Some(IndexUpTo(nodes, |nodes|))
  }

  /** The index holds exactly the persistence identifiers of the nodes. */
  lemma {:induction false} IndexHoldsEach(nodes: seq<ReadOnlyNode>, n: nat)
    requires n <= |nodes|
    ensures forall id :: id in IndexUpTo(nodes, n).items <==> exists i :: 0 <= i < n && nodes[i].nodeIdentifier == id
  {
    if n > 0 {
      IndexHoldsEach(nodes, n - 1);
      var last := nodes[n - 1];
      forall id | id in IndexUpTo(nodes, n).items
        ensures exists i :: 0 <= i < n && nodes[i].nodeIdentifier == id
      {
        if id == last.nodeIdentifier {
          assert nodes[n - 1].nodeIdentifier == id;
        } else {
          var i :| 0 <= i < n - 1 && nodes[i].nodeIdentifier == id;
          assert nodes[i].nodeIdentifier == id;
        }
      }
    }
  }

  /** A persistence identifier is filed with the last node that has it. */
  lemma {:induction false} IndexHoldsLast(nodes: seq<ReadOnlyNode>, n: nat, i: nat)
    requires i < n <= |nodes|
    requires forall j :: i < j < n ==> nodes[j].nodeIdentifier != nodes[i].nodeIdentifier
    ensures nodes[i].nodeIdentifier in IndexUpTo(nodes, n).items
    ensures IndexUpTo(nodes, n).items[nodes[i].nodeIdentifier] == nodes[i]
  {
    if i < n - 1 {
      IndexHoldsLast(nodes, n - 1, i);
    }
  }

  /**
   * The index holds exactly the persistence identifiers of the nodes, each
   * filed with the last node that has it.
   */
  lemma IndexHoldsLastOfEach(nodes: seq<ReadOnlyNode>, n: nat)
    requires n <= |nodes|
    ensures forall id :: id in IndexUpTo(nodes, n).items <==> exists i :: 0 <= i < n && nodes[i].nodeIdentifier == id
    ensures forall i :: 0 <= i < n && (forall j :: i < j < n ==> nodes[j].nodeIdentifier != nodes[i].nodeIdentifier) ==>
      IndexUpTo(nodes, n).items[nodes[i].nodeIdentifier] == nodes[i]
  {
    IndexHoldsEach(nodes, n);
    forall i | 0 <= i < n && (forall j :: i < j < n ==> nodes[j].nodeIdentifier != nodes[i].nodeIdentifier)
      ensures IndexUpTo(nodes, n).items[nodes[i].nodeIdentifier] == nodes[i]
    {
      IndexHoldsLast(nodes, n, i);
    }
  }

  /** Every indexed node carries the identifier it is filed under. */
  lemma {:induction false} IndexFilesByIdentifier(nodes: seq<ReadOnlyNode>, n: nat)
    requires n <= |nodes|
    ensures forall id :: id in IndexUpTo(nodes, n).items ==> IndexUpTo(nodes, n).items[id].nodeIdentifier == id
  {
    if n > 0 {
      IndexFilesByIdentifier(nodes, n - 1);
    }
  }

  function IsInternal(n: ReadOnlyNode): bool {
    n.data.isInternal
  }

  /** The visits of the first `n` subgraphs one after the other; `None` once one of them has no root node. */
  function VisitSubgraphsUpTo(subgraphs: seq<ContentSubgraph>, n: nat, action: ReadOnlyNode -> bool, fuel: nat): Option<seq<ReadOnlyNode>>
    requires n <= |subgraphs|
    reads set s | s in subgraphs
  {
    if n == 0 then Some([])
    else
      var before := VisitSubgraphsUpTo(subgraphs, n - 1, action, fuel);
      var s := subgraphs[n - 1];
      if before.None? || s.rootNode.None? then None
      else Some(before.value + Visit(s.childEdges, s.rootNode.value, action, fuel))
  }

  /** The visit of one more subgraph: `None` when it has no root node, else its visit after those before it. */
  lemma VisitSubgraphsStep(subgraphs: seq<ContentSubgraph>, i: nat, action: ReadOnlyNode -> bool, fuel: nat)
    requires i < |subgraphs| && VisitSubgraphsUpTo(subgraphs, i, action, fuel).Some?
    ensures var s := subgraphs[i];
      && (s.rootNode.None? ==> VisitSubgraphsUpTo(subgraphs, i + 1, action, fuel) == None)
      && (s.rootNode.Some? ==>
            VisitSubgraphsUpTo(subgraphs, i + 1, action, fuel) == Some(VisitSubgraphsUpTo(subgraphs, i, action, fuel).value + Visit(s.childEdges, s.rootNode.value, action, fuel)))
  {
  }

  /** Once one subgraph has no root node, the traversal of all of them is `None`. */
  lemma {:induction false} VisitSubgraphsStayNone(subgraphs: seq<ContentSubgraph>, n: nat, action: ReadOnlyNode -> bool, fuel: nat)
    requires n <= |subgraphs|
    requires VisitSubgraphsUpTo(subgraphs, n, action, fuel) == None
    ensures VisitSubgraphsUpTo(subgraphs, |subgraphs|, action, fuel) == None
    decreases |subgraphs| - n
  {
    if n < |subgraphs| {
      VisitSubgraphsStayNone(subgraphs, n + 1, action, fuel);
    }
  }

  /** The loop of `traverseSubgraphs()`: traverses each subgraph in turn and stops at the first without root node. */
  method TraverseEach(all: seq<ContentSubgraph>, action: ReadOnlyNode -> bool, fuel: nat) returns (visited: Option<seq<ReadOnlyNode>>)
    ensures visited == VisitSubgraphsUpTo(all, |all|, action, fuel)
  {
    var sofar: seq<ReadOnlyNode> := [];
    for i := 0 to |all|
      invariant VisitSubgraphsUpTo(all, i, action, fuel) == Some(sofar)
    {
      var there := all[i].Traverse(action, fuel);
      VisitSubgraphsStep(all, i, action, fuel);
      if there.None? {
        VisitSubgraphsStayNone(all, i + 1, action, fuel);
        return None;
      }
      sofar := sofar + there.value;
    }
    visited := Some(sofar);
  }

  /** Subgraphs are filed under the string form of their own identifier. */
  predicate KeyedByIdentifier(subgraphs: Arr<Digest, ContentSubgraph>) {
    forall h :: h in subgraphs.items ==> subgraphs.items[h].identifier.ToString() == h
  }

  class ContentGraph {
    /** subgraph string form to subgraph */
    const subgraphs: Arr<Digest, ContentSubgraph>
    /** persistence identifier to node; null until written */
    var nodeIndex: Option<Arr<string, ReadOnlyNode>>
    /** aggregate identifier to aggregate */
    var nodeAggregateIndex: Arr<string, ReadOnlyNodeAggregate>

    /** Indexes every node under its persistence identifier, in the order given. */
    constructor(subgraphs: Arr<Digest, ContentSubgraph>, nodes: seq<ReadOnlyNode>, nodeAggregates: Arr<string, ReadOnlyNodeAggregate>)
      ensures this.subgraphs == subgraphs && nodeAggregateIndex == nodeAggregates
      ensures nodeIndex == IndexOf(nodes)
    {
      this.subgraphs := subgraphs;
      nodeAggregateIndex := nodeAggregates;
      nodeIndex := None;
      new;
      for i := 0 to |nodes|
        invariant this.subgraphs == subgraphs && nodeAggregateIndex == nodeAggregates
        invariant i == 0 ==> nodeIndex == None
        invariant i > 0 ==> nodeIndex == Some(IndexUpTo(nodes, i))
      {
        nodeIndex := Some(nodeIndex.GetOr(Empty()).Put(nodes[i].nodeIdentifier, nodes[i]));
      }
    }

    /**
     * `new ContentGraph(...)` as a whole: after indexing the nodes it counts
     * every subgraph, which is a type error for a subgraph whose node index is
     * still null; with console output it also counts its own node index, a
     * type error when no node was given. A failed construction yields no graph.
     */
    static method Construct(subgraphs: Arr<Digest, ContentSubgraph>, nodes: seq<ReadOnlyNode>, nodeAggregates: Arr<string, ReadOnlyNodeAggregate>, reportsToConsole: bool)
      returns (r: Result<ContentGraph>)
      ensures r.Err? <==>
        || (exists i :: 0 <= i < |subgraphs.Values()| && subgraphs.Values()[i].nodeIndex.None?)
        || (reportsToConsole && nodes == [])
      ensures r.Err? ==> r.failure == TypeError
      ensures r.Ok? ==> fresh(r.value)
      ensures r.Ok? ==> r.value.subgraphs == subgraphs && r.value.nodeAggregateIndex == nodeAggregates
      ensures r.Ok? ==> r.value.nodeIndex == IndexOf(nodes) && r.value.nodeIndex.Some? == (nodes != [])
    {
      var graph := new ContentGraph(subgraphs, nodes, nodeAggregates);
      var all := subgraphs.Values();
      for i := 0 to |all|
        invariant forall j :: 0 <= j < i ==> all[j].nodeIndex.Some?
      {
        var edges := all[i].Count();
        if edges.Err? {
          return Err(edges.failure);
        }
      }
      if reportsToConsole && graph.nodeIndex.None? {
        return Err(TypeError);
      }
      return Ok(graph);
    }

    /** The indexed nodes in index order; none while the index is null, as `foreach` over null runs no iteration. */
    function IndexedNodes(): seq<ReadOnlyNode>
      reads this
    {
      if nodeIndex.None? then [] else nodeIndex.value.Values()
    }

    /**
     * `traverseNodeIndex()`: hands the indexed nodes to the callback in
     * index order, skipping internal nodes unless `includeShadowNodes`,
     * and stops after the first node the callback returns `false` for.
     */
    method TraverseNodeIndex(stops: ReadOnlyNode -> bool, includeShadowNodes: bool) returns (handed: seq<ReadOnlyNode>)
      ensures handed == NodeIndexTraversal.Handed(IndexedNodes(), IsInternal, stops, includeShadowNodes)
    {
      handed := NodeIndexTraversal.Traverse(IndexedNodes(), IsInternal, stops, includeShadowNodes);
    }

    /** `traverseSubgraphs()`: traverses each subgraph in turn; a subgraph without root node is a type error, `None`. */
    method TraverseSubgraphs(action: ReadOnlyNode -> bool, fuel: nat) returns (visited: Option<seq<ReadOnlyNode>>)
      ensures visited == VisitSubgraphsUpTo(subgraphs.Values(), |subgraphs.Values()|, action, fuel)
    {
      visited := TraverseEach(subgraphs.Values(), action, fuel);
    }

    /** `getNodes()`: the node index; a null index does not satisfy the declared array return type. */
    function GetNodes(): (r: Result<Arr<string, ReadOnlyNode>>)
      reads this
      ensures r.Err? <==> nodeIndex.None?
      ensures r.Err? ==> r.failure == TypeError
      ensures r.Ok? ==> r.value == nodeIndex.value
    {
      if nodeIndex.None? then Err(TypeError) else Ok(nodeIndex.value)
    }

    /** `getNode()`: the node filed under a persistence identifier. */
    function GetNode(nodeIdentifier: string): (r: Option<ReadOnlyNode>)
      reads this
      ensures r.Some? <==> nodeIndex.Some? && nodeIdentifier in nodeIndex.value.items
      ensures r.Some? ==> r.value == nodeIndex.value.items[nodeIdentifier]
    {
      if nodeIndex.None? then None else nodeIndex.value.Get(nodeIdentifier)
    }

    /** `registerNode()`: files the node under its persistence identifier; every other identifier reads as before. */
    method RegisterNode(node: ReadOnlyNode)
      modifies this`nodeIndex
      ensures nodeIndex == Some(old(nodeIndex).GetOr(Empty()).Put(node.nodeIdentifier, node))
      ensures GetNode(node.nodeIdentifier) == Some(node)
      ensures forall id :: id != node.nodeIdentifier ==> GetNode(id) == old(GetNode(id))
    {
      nodeIndex := Some(nodeIndex.GetOr(Empty()).Put(node.nodeIdentifier, node));
    }

    /** `unregisterNode()`: removes the node filed under the identifier, if there is one; every other identifier reads as before. */
    method UnregisterNode(nodeIdentifier: string)
      modifies this`nodeIndex
      ensures old(GetNode(nodeIdentifier)).Some? ==> nodeIndex == Some(old(nodeIndex).value.Unset(nodeIdentifier))
      ensures old(GetNode(nodeIdentifier)).None? ==> nodeIndex == old(nodeIndex)
      ensures GetNode(nodeIdentifier) == None
      ensures forall id :: id != nodeIdentifier ==> GetNode(id) == old(GetNode(id))
    {
      if nodeIndex.Some? && nodeIdentifier in nodeIndex.value.items {
        nodeIndex := Some(nodeIndex.value.Unset(nodeIdentifier));
      }
    }

    /** `getNodeAggregate()`: the aggregate filed under an identifier. */
    function GetNodeAggregate(nodeAggregateIdentifier: string): (r: Option<ReadOnlyNodeAggregate>)
      reads this
      ensures r.Some? <==> nodeAggregateIdentifier in nodeAggregateIndex.items
      ensures r.Some? ==> r.value == nodeAggregateIndex.items[nodeAggregateIdentifier]
    {
      nodeAggregateIndex.Get(nodeAggregateIdentifier)
    }

    /** `registerNodeAggregate()`: files the aggregate under its identifier. */
    method RegisterNodeAggregate(nodeAggregate: ReadOnlyNodeAggregate)
      modifies this`nodeAggregateIndex
      ensures nodeAggregateIndex == old(nodeAggregateIndex).Put(nodeAggregate.identifier, nodeAggregate)
      ensures GetNodeAggregate(nodeAggregate.identifier) == Some(nodeAggregate)
      ensures forall id :: id != nodeAggregate.identifier ==> GetNodeAggregate(id) == old(GetNodeAggregate(id))
    {
      nodeAggregateIndex := nodeAggregateIndex.Put(nodeAggregate.identifier, nodeAggregate);
    }

    /** `unregisterNodeAggregate()`: removes the aggregate filed under the identifier, if there is one. */
    method UnregisterNodeAggregate(nodeAggregateIdentifier: string)
      modifies this`nodeAggregateIndex
      ensures nodeAggregateIdentifier in old(nodeAggregateIndex.items) ==>
        nodeAggregateIndex == old(nodeAggregateIndex).Unset(nodeAggregateIdentifier)
      ensures nodeAggregateIdentifier !in old(nodeAggregateIndex.items) ==> nodeAggregateIndex == old(nodeAggregateIndex)
      ensures GetNodeAggregate(nodeAggregateIdentifier) == None
      ensures forall id :: id != nodeAggregateIdentifier ==> GetNodeAggregate(id) == old(GetNodeAggregate(id))
    {
      if nodeAggregateIdentifier in nodeAggregateIndex.items {
        nodeAggregateIndex := nodeAggregateIndex.Unset(nodeAggregateIdentifier);
      }
    }

    /** `getSubgraphByHash()`: the subgraph filed under a string form. */
    function GetSubgraphByHash(hash: Digest): (r: Option<ContentSubgraph>)
      ensures r.Some? <==> hash in subgraphs.items
      ensures r.Some? ==> r.value == subgraphs.items[hash]
    {
      subgraphs.Get(hash)
    }

    /** `getSubgraphByIdentifier()`: the subgraph filed under the identifier's string form. */
    function GetSubgraphByIdentifier(id: ReadOnlySubgraphIdentifier.SubgraphIdentifier): (r: Option<ContentSubgraph>)
      ensures r.Some? <==> id.ToString() in subgraphs.items
      ensures r.Some? ==> r.value == subgraphs.items[id.ToString()]
    {
      GetSubgraphByHash(id.ToString())
    }

    /**
     * When the subgraphs are filed under their own identifiers, looking one
     * up by identifier finds the subgraph with exactly that identifier.
     */
    lemma SubgraphFoundByIdentifier(id: ReadOnlySubgraphIdentifier.SubgraphIdentifier)
      requires KeyedByIdentifier(subgraphs)
      ensures GetSubgraphByIdentifier(id).Some? ==> GetSubgraphByIdentifier(id).value.identifier == id
    {
      if GetSubgraphByIdentifier(id).Some? {
        ReadOnlySubgraphIdentifier.StringFormIdentifies(GetSubgraphByIdentifier(id).value.identifier, id);
      }
    }
  }
}
