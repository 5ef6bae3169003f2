/** ReadOnlyNodeAggregate: the variants of one node aggregate in the older generation. */
module ReadOnlyAggregates {
  import opened Wrappers
  import opened PhpArrays
  import opened Content
  import opened ReadOnlyNodes
  import Partitioning

  class ReadOnlyNodeAggregate {
    const identifier: string
    var nodes: Arr<Digest, ReadOnlyNode>
    var nodesWithoutWorkspace: seq<ReadOnlyNode>
    var shadowNodes: Arr<Digest, ReadOnlyNode>

    /** The three groups of variants. */
    function State(): Partitioning.Partition<ReadOnlyNode>
      reads this
    {
      Partitioning.Partition(nodes, nodesWithoutWorkspace, shadowNodes)
    }

    constructor(identifier: string, batch: seq<ReadOnlyNode>)
      ensures this.identifier == identifier
      ensures State() == Partitioning.AddAll(Partitioning.EmptyPartition(), batch, DataOf, WORKSPACE_DIMENSION)
    {
      this.identifier := identifier;
      nodes := Empty();
      nodesWithoutWorkspace := [];
      shadowNodes := Empty();
      new;
      AddNodes(batch);
    }

    /** Files each node of the batch in order. */
    method AddNodes(batch: seq<ReadOnlyNode>)
      modifies this
      ensures State() == Partitioning.AddAll(old(State()), batch, DataOf, WORKSPACE_DIMENSION)
    {
      for i := 0 to |batch|
        invariant State() == Partitioning.AddAll(old(State()), batch[..i], DataOf, WORKSPACE_DIMENSION)
      {
        var node := batch[i];
        if node.data.workspace.None? {
          nodesWithoutWorkspace := nodesWithoutWorkspace + [node];
        } else {
          var hash := ReadAggregateKey(node.data, WORKSPACE_DIMENSION);
          if node.data.movedTo {
            shadowNodes := shadowNodes.Put(hash, node);
          } else {
            nodes := nodes.Put(hash, node);
          }
        }
        assert batch[..i + 1][..i] == batch[..i];
      }
      assert batch[..|batch|] == batch;
    }

    /** Removes the primary variant at a point; shadow and workspace-less variants stay. */
    method RemoveNode(point: Point)
      modifies this
      ensures PointHash(point) in old(nodes.items) ==> nodes == old(nodes).Unset(PointHash(point))
      ensures PointHash(point) !in old(nodes.items) ==> nodes == old(nodes)
      ensures nodes.items == old(nodes.items) - {PointHash(point)}
      ensures nodesWithoutWorkspace == old(nodesWithoutWorkspace) && shadowNodes == old(shadowNodes)
    {
      if PointHash(point) in nodes.items {
        nodes := nodes.Unset(PointHash(point));
      }
    }

    /** The primary variant filed under the point's hash, if any. */
    function GetNodeByDimensionSpacePoint(point: Point): (r: Option<ReadOnlyNode>)
      reads this
      ensures r.Some? <==> PointHash(point) in nodes.items
      ensures r.Some? ==> r.value == nodes.items[PointHash(point)]
    {
      nodes.Get(PointHash(point))
    }

    /** The shadow variant filed under the point's hash, if any. */
    function GetShadowNodeByDimensionSpacePoint(point: Point): (r: Option<ReadOnlyNode>)
      reads this
      ensures r.Some? <==> PointHash(point) in shadowNodes.items
      ensures r.Some? ==> r.value == shadowNodes.items[PointHash(point)]
    {
      shadowNodes.Get(PointHash(point))
    }

    /** The primary variants whose workspace is `w`, in filing order. */
    method GetNodesByWorkspace(w: Workspace) returns (r: seq<ReadOnlyNode>)
      ensures r == Partitioning.InWorkspace(nodes.Values(), DataOf, w)
    {
      var all := nodes.Values();
      r := [];
      for i := 0 to |all|
        invariant r == Partitioning.InWorkspace(all[..i], DataOf, w)
      {
        if all[i].data.workspace == Some(w) {
          r := r + [all[i]];
        }
        assert all[..i + 1][..i] == all[..i];
      }
      assert all[..|all|] == all;
    }

    /** Whether this is the root aggregate. */
    predicate IsRoot()
      ensures IsRoot() <==> identifier == ROOT_IDENTIFIER
    {
      identifier == ROOT_IDENTIFIER
    }

    /** The number of primary variants. */
    function Count(): (c: nat)
      reads this
      ensures c == |nodes.items|
    {
      nodes.Count()
    }

    /** Whether there is no primary variant. */
    predicate IsEmpty()
      reads this
      ensures IsEmpty() <==> nodes.items == map[]
    {
      Count() == 0
    }
  }
}
