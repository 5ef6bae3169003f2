/** NodeAssignmentRegistry of the older generation, over ReadOnlyNode. */
module ReadOnlyRegistry {
  import opened Wrappers
  import opened PhpArrays
  import opened Content
  import opened Registries
  import opened ReadOnlyNodes
  import ReadOnlySubgraphIdentifier

  type SubgraphIdentifier = ReadOnlySubgraphIdentifier.SubgraphIdentifier

  class NodeAssignmentRegistry {
    var nodesByPathAndSubgraph: NodesByPath<ReadOnlyNode>
    var subgraphsByPathAndNodeIdentifier: SubgraphsByPath<string, SubgraphIdentifier>

    /** Both maps start out null, which every access reads as `[]`. */
    constructor()
      ensures nodesByPathAndSubgraph == Empty() && subgraphsByPathAndNodeIdentifier == Empty()
    {
      nodesByPathAndSubgraph := Empty();
      subgraphsByPathAndNodeIdentifier := Empty();
    }

    /** Assigns `node` to `path` in the subgraph, replacing an earlier assignment there. */
    method RegisterNodeByPathAndSubgraphIdentifier(path: string, subgraphIdentifier: SubgraphIdentifier, node: ReadOnlyNode)
      modifies this`nodesByPathAndSubgraph
      ensures nodesByPathAndSubgraph == WithNode(old(nodesByPathAndSubgraph), path, subgraphIdentifier.ToString(), node)
    {
      nodesByPathAndSubgraph := WithNode(nodesByPathAndSubgraph, path, subgraphIdentifier.ToString(), node);
    }

    /** The node assigned to `path` in the subgraph, null when there is none. */
    function GetNodeByPathAndSubgraphIdentifier(path: string, subgraphIdentifier: SubgraphIdentifier): (r: Option<ReadOnlyNode>)
      reads this
      ensures r.Some? <==> path in nodesByPathAndSubgraph.items && subgraphIdentifier.ToString() in nodesByPathAndSubgraph.items[path].items
      ensures r.Some? ==> r.value == nodesByPathAndSubgraph.items[path].items[subgraphIdentifier.ToString()]
    {
      NodeAt(nodesByPathAndSubgraph, path, subgraphIdentifier.ToString())
    }

    /** Adds the subgraph, under its string form, to those the node at `path` is assigned to. */
    method RegisterSubgraphIdentifierByPathAndNodeIdentifier(path: string, nodeIdentifier: string, subgraphIdentifier: SubgraphIdentifier)
      modifies this`subgraphsByPathAndNodeIdentifier
      ensures subgraphsByPathAndNodeIdentifier
        == WithSubgraph(old(subgraphsByPathAndNodeIdentifier), path, nodeIdentifier, subgraphIdentifier.ToString(), subgraphIdentifier)
    {
      subgraphsByPathAndNodeIdentifier := WithSubgraph(subgraphsByPathAndNodeIdentifier, path, nodeIdentifier, subgraphIdentifier.ToString(), subgraphIdentifier);
    }

    /** The subgraphs the node at `path` is assigned to, by string form; `[]` when there are none. */
    function GetSubgraphIdentifiersByPathAndNodeIdentifier(path: string, nodeIdentifier: string): (r: Arr<Digest, SubgraphIdentifier>)
      reads this
      ensures r == SubgraphsAt(subgraphsByPathAndNodeIdentifier, path, nodeIdentifier)
      ensures (path !in subgraphsByPathAndNodeIdentifier.items || nodeIdentifier !in subgraphsByPathAndNodeIdentifier.items[path].items) ==> r == Empty()
    {
      SubgraphsAt(subgraphsByPathAndNodeIdentifier, path, nodeIdentifier)
    }
  }

  /**
   * Registering a node and then asking for the node at the same path and
   * subgraph gives it back; at every other path or subgraph the answer is
   * as before.
   */
  lemma RegisterThenGetNode(registry: NodeAssignmentRegistry, path: string, subgraphIdentifier: SubgraphIdentifier, node: ReadOnlyNode,
                            otherPath: string, otherSubgraph: SubgraphIdentifier)
    ensures NodeAt(WithNode(registry.nodesByPathAndSubgraph, path, subgraphIdentifier.ToString(), node), path, subgraphIdentifier.ToString()) == Some(node)
    ensures otherPath != path || otherSubgraph != subgraphIdentifier ==>
      NodeAt(WithNode(registry.nodesByPathAndSubgraph, path, subgraphIdentifier.ToString(), node), otherPath, otherSubgraph.ToString())
        == registry.GetNodeByPathAndSubgraphIdentifier(otherPath, otherSubgraph)
  {
    ReadOnlySubgraphIdentifier.StringFormIdentifies(subgraphIdentifier, otherSubgraph);
    NodeReadsBack(registry.nodesByPathAndSubgraph, path, subgraphIdentifier.ToString(), node, otherPath, otherSubgraph.ToString());
  }

  /** Two subgraph identifiers with the same string form, registered for one path and node, are stored once. */
  lemma SameSubgraphStoredOnce(subgraphs: SubgraphsByPath<string, SubgraphIdentifier>, path: string, nodeIdentifier: string, a: SubgraphIdentifier, b: SubgraphIdentifier)
    requires a.ToString() == b.ToString()
    ensures var once := WithSubgraph(subgraphs, path, nodeIdentifier, a.ToString(), a);
      SubgraphsAt(WithSubgraph(once, path, nodeIdentifier, b.ToString(), b), path, nodeIdentifier).Count()
        == SubgraphsAt(once, path, nodeIdentifier).Count()
  {
    SubgraphStoredOnce(subgraphs, path, nodeIdentifier, a.ToString(), a, b);
  }
}
