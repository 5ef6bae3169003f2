/**
 * ContentSubgraph of the older generation: the nodes of one workspace and
 * point, indexed by aggregate identifier, persistence identifier and path,
 * and the edges between them.
 *
 * A TraversableNode of this generation only pairs a ReadOnlyNode with the
 * subgraph; the indexes here hold the ReadOnlyNode it wraps.
 */
module ReadOnlySubgraphs {
  import opened Wrappers
  import opened PhpArrays
  import opened Content
  import opened ReadOnlyNodes
  import opened StructureMerge
  import opened ReadOnlyEdges
  import ReadOnlySubgraphIdentifier

  /** The properties the edge filed under `id` in `edges` carries, if there is one. */
  function PropertiesOfEdgeInto(edges: Arr<string, Edge>, id: string): (r: Option<Properties>)
    reads edges.items.Values
    ensures r.Some? <==> id in edges.items
    ensures r.Some? ==> r.value == edges.items[id].properties
  {
    if id in edges.items then Some(edges.items[id].properties) else None
  }

  class ContentSubgraph {
    const workspace: Workspace
    const dimensionSpacePoint: Point
    const identifier: ReadOnlySubgraphIdentifier.SubgraphIdentifier
    /** aggregate identifier to node; null until first written */
    var nodeIndex: Option<Arr<string, ReadOnlyNode>>
    /** persistence identifier to node; null until first written */
    var readOnlyNodeIndex: Option<Arr<string, ReadOnlyNode>>
    /** path to node; null until first written */
    var pathIndex: Option<Arr<string, ReadOnlyNode>>
    var rootNode: Option<ReadOnlyNode>
    /** child's aggregate identifier to the edge into it */
    var parentEdges: Arr<string, Edge>
    /** parent's aggregate identifier to edge name to edge */
    var childEdges: Arr<string, Arr<string, Edge>>

    /** The state the constructor leaves: the three node indexes null, no root and no edges. */
    predicate Unpopulated()
      reads this
    {
      && nodeIndex == None && readOnlyNodeIndex == None && pathIndex == None
      && rootNode == None && parentEdges == Empty() && childEdges == Empty()
    }

    /** The identifier is built from the workspace name and the point; the three node indexes are declared without a value, so they start null. */
    constructor(workspace: Workspace, dimensionSpacePoint: Point)
      ensures this.workspace == workspace && this.dimensionSpacePoint == dimensionSpacePoint
      ensures identifier == ReadOnlySubgraphIdentifier.SubgraphIdentifier(workspace.name, dimensionSpacePoint)
      ensures nodeIndex == None && readOnlyNodeIndex == None && pathIndex == None
      ensures rootNode == None && parentEdges == Empty() && childEdges == Empty()
      ensures Unpopulated()
    {
      this.workspace := workspace;
      this.dimensionSpacePoint := dimensionSpacePoint;
      identifier := ReadOnlySubgraphIdentifier.SubgraphIdentifier(workspace.name, dimensionSpacePoint);
      nodeIndex := None;
      readOnlyNodeIndex := None;
      pathIndex := None;
      rootNode := None;
      parentEdges := Empty();
      childEdges := Empty();
    }

    /** The edges below the node with aggregate identifier `id`, by name; none when it has none. */
    function ChildEdgesOf(id: string): (r: Arr<string, Edge>)
      reads this
      ensures id !in childEdges.items ==> r.items == map[]
      ensures id in childEdges.items ==> r == childEdges.items[id]
    {
      EdgesBelow(childEdges, id)
    }

    /**
     * Indexes `node`. When its parent path is indexed, an edge from the node
     * there is created, its properties merged with the edge into that parent,
     * and filed both as the node's parent edge and under the parent's child
     * edges by the node's name. The source writes the persistence index
     * first; the edge creation neither reads nor writes it, so writing it
     * after the edge gives the same state.
     */
    method RegisterNode(node: ReadOnlyNode)
      modifies this
      ensures readOnlyNodeIndex == Some(old(readOnlyNodeIndex).GetOr(Empty()).Put(node.nodeIdentifier, node))
      ensures nodeIndex == Some(old(nodeIndex).GetOr(Empty()).Put(node.Identifier(), node))
      ensures pathIndex == Some(old(pathIndex).GetOr(Empty()).Put(node.data.path, node))
      ensures node.data.path == ROOT_PATH ==> rootNode == Some(node)
      ensures node.data.path != ROOT_PATH ==> rootNode == old(rootNode)
      ensures node.data.parentPath !in old(pathIndex).GetOr(Empty()).items ==>
        parentEdges == old(parentEdges) && childEdges == old(childEdges)
      ensures node.data.parentPath in old(pathIndex).GetOr(Empty()).items ==>
        var parent := old(pathIndex).GetOr(Empty()).items[node.data.parentPath];
        && node.Identifier() in parentEdges.items
        && var edge := parentEdges.items[node.Identifier()];
        && fresh(edge)
        && Connected(parent, node, edge, old(parentEdges), old(childEdges), parentEdges, childEdges)
        && edge.position == Int(IndexOrZero(node.data.index))
        && (parent.Identifier() in old(parentEdges.items) ==>
              edge.properties == MergeWithParent(map[], Some(old(parentEdges.items[parent.Identifier()].properties))))
        && (parent.Identifier() !in old(parentEdges.items) ==> edge.properties == MergeWithParent(map[], None))
    {
      if pathIndex.Some? && node.data.parentPath in pathIndex.value.items {
        var edge := ConnectToParent(pathIndex.value.items[node.data.parentPath], node);
      }
      IndexPersistently(node);
      IndexNode(node);
    }

    /** Files `node` under its persistence identifier. */
    method IndexPersistently(node: ReadOnlyNode)
      modifies this`readOnlyNodeIndex
      ensures readOnlyNodeIndex == Some(old(readOnlyNodeIndex).GetOr(Empty()).Put(node.nodeIdentifier, node))
    {
      readOnlyNodeIndex := Some(readOnlyNodeIndex.GetOr(Empty()).Put(node.nodeIdentifier, node));
    }

    /** Files `node` under its aggregate identifier and its path, and as the root node when its path is the root path. */
    method IndexNode(node: ReadOnlyNode)
      modifies this`nodeIndex, this`pathIndex, this`rootNode
      ensures nodeIndex == Some(old(nodeIndex).GetOr(Empty()).Put(node.Identifier(), node))
      ensures pathIndex == Some(old(pathIndex).GetOr(Empty()).Put(node.data.path, node))
      ensures node.data.path == ROOT_PATH ==> rootNode == Some(node)
      ensures node.data.path != ROOT_PATH ==> rootNode == old(rootNode)
    {
      var isRoot := node.data.path == ROOT_PATH;
      nodeIndex := Some(nodeIndex.GetOr(Empty()).Put(node.Identifier(), node));
      pathIndex := Some(pathIndex.GetOr(Empty()).Put(node.data.path, node));
      if isRoot {
        rootNode := Some(node);
      }
    }

    /**
     * `edge` runs from `parent` to `child` in this subgraph under the child's
     * name, and filing it over `parentEdgesBefore` and `childEdgesBefore` as
     * the child's parent edge and under the parent's child edges by the
     * child's name gives `parentEdgesAfter` and `childEdgesAfter`.
     */
    ghost predicate Connected(parent: ReadOnlyNode, child: ReadOnlyNode, edge: Edge,
                              parentEdgesBefore: Arr<string, Edge>, childEdgesBefore: Arr<string, Arr<string, Edge>>,
                              parentEdgesAfter: Arr<string, Edge>, childEdgesAfter: Arr<string, Arr<string, Edge>>)
    {
      var siblings := if parent.Identifier() in childEdgesBefore.items then childEdgesBefore.items[parent.Identifier()] else Empty();
      && parentEdgesAfter == parentEdgesBefore.Put(child.Identifier(), edge)
      && childEdgesAfter == childEdgesBefore.Put(parent.Identifier(), siblings.Put(child.data.name, edge))
      && edge.parent == parent && edge.child == child && edge.name == Some(child.data.name)
      && edge.subgraphIdentifier == identifier && edge.subgraphHash == identifier.ToString()
    }

    /** Creates the edge from `parent` into `child` and files it in both edge maps. */
    method ConnectToParent(parent: ReadOnlyNode, child: ReadOnlyNode) returns (edge: Edge)
      modifies this`parentEdges, this`childEdges
      ensures fresh(edge)
      ensures Connected(parent, child, edge, old(parentEdges), old(childEdges), parentEdges, childEdges)
      ensures edge.position == Int(IndexOrZero(child.data.index))
      ensures parent.Identifier() in old(parentEdges.items) ==>
        edge.properties == MergeWithParent(map[], Some(old(parentEdges.items[parent.Identifier()].properties)))
      ensures parent.Identifier() !in old(parentEdges.items) ==> edge.properties == MergeWithParent(map[], None)
    {
      var parentEdge: Edge? := if parent.Identifier() in parentEdges.items then parentEdges.items[parent.Identifier()] else null;
      edge := new Edge(parent, child, identifier, identifier.ToString(), parentEdge,
                       Int(IndexOrZero(child.data.index)), Some(child.data.name));
      parentEdges := parentEdges.Put(child.Identifier(), edge);
      childEdges := childEdges.Put(parent.Identifier(), ChildEdgesOf(parent.Identifier()).Put(child.data.name, edge));
    }

    /**
     * The edge constructor call as written: it passes the TraversableNode
     * wrappers where ReadOnlyNode is declared, so under strict types it
     * throws a TypeError whenever the parent path is indexed, after the
     * persistence index has been written and before anything else is.
     */
    method RegisterNodeAsWritten(node: ReadOnlyNode) returns (typeError: bool)
      modifies this`readOnlyNodeIndex, this`nodeIndex, this`pathIndex, this`rootNode
      ensures typeError <==> node.data.parentPath in old(pathIndex).GetOr(Empty()).items
      ensures readOnlyNodeIndex == Some(old(readOnlyNodeIndex).GetOr(Empty()).Put(node.nodeIdentifier, node))
      ensures typeError ==> nodeIndex == old(nodeIndex) && pathIndex == old(pathIndex) && rootNode == old(rootNode)
      ensures !typeError ==>
        && nodeIndex == Some(old(nodeIndex).GetOr(Empty()).Put(node.Identifier(), node))
        && pathIndex == Some(old(pathIndex).GetOr(Empty()).Put(node.data.path, node))
    {
      var isRoot := node.data.path == ROOT_PATH;
      readOnlyNodeIndex := Some(readOnlyNodeIndex.GetOr(Empty()).Put(node.nodeIdentifier, node));
      if pathIndex.Some? && node.data.parentPath in pathIndex.value.items {
        return true;
      }
      nodeIndex := Some(nodeIndex.GetOr(Empty()).Put(node.Identifier(), node));
      pathIndex := Some(pathIndex.GetOr(Empty()).Put(node.data.path, node));
      if isRoot {
        rootNode := Some(node);
      }
      return false;
    }

    /**
     * Removes a node registered under its persistence identifier from the
     * path, aggregate and persistence indexes. The node's entry is removed
     * from the aggregate index before it is looked up there, so the lookup
     * that would clear its edges finds nothing and the edge maps stay.
     */
    method UnregisterNode(node: ReadOnlyNode)
      modifies this`readOnlyNodeIndex, this`nodeIndex, this`pathIndex, this`rootNode
      ensures node.nodeIdentifier !in old(readOnlyNodeIndex).GetOr(Empty()).items ==>
        && readOnlyNodeIndex == old(readOnlyNodeIndex) && nodeIndex == old(nodeIndex)
        && pathIndex == old(pathIndex) && rootNode == old(rootNode)
      ensures node.nodeIdentifier in old(readOnlyNodeIndex).GetOr(Empty()).items ==>
        && readOnlyNodeIndex == Some(old(readOnlyNodeIndex).GetOr(Empty()).Unset(node.nodeIdentifier))
        && (node.Identifier() in old(nodeIndex).GetOr(Empty()).items ==> nodeIndex == Some(old(nodeIndex).GetOr(Empty()).Unset(node.Identifier())))
        && (node.Identifier() !in old(nodeIndex).GetOr(Empty()).items ==> nodeIndex == old(nodeIndex))
        && (node.data.path in old(pathIndex).GetOr(Empty()).items ==> pathIndex == Some(old(pathIndex).GetOr(Empty()).Unset(node.data.path)))
        && (node.data.path !in old(pathIndex).GetOr(Empty()).items ==> pathIndex == old(pathIndex))
        && (node.data.path == ROOT_PATH ==> rootNode == None)
        && (node.data.path != ROOT_PATH ==> rootNode == old(rootNode))
    {
      var isRoot := node.data.path == ROOT_PATH;
      if readOnlyNodeIndex.Some? && node.nodeIdentifier in readOnlyNodeIndex.value.items {
        if pathIndex.Some? && node.data.path in pathIndex.value.items {
          pathIndex := Some(pathIndex.value.Unset(node.data.path));
        }
        if nodeIndex.Some? && node.Identifier() in nodeIndex.value.items {
          nodeIndex := Some(nodeIndex.value.Unset(node.Identifier()));
        }
        var traversableNode := GetNodeByIdentifier(node.Identifier());
        if traversableNode.Some? {
          assert false;
        }
        if isRoot {
          rootNode := None;
        }
        readOnlyNodeIndex := Some(readOnlyNodeIndex.value.Unset(node.nodeIdentifier));
      }
    }

    /**
     * Re-keys the aggregate index, and the path index by the same two
     * identifiers. The edge maps are guarded by fields the class does not
     * declare, so they are never re-keyed.
     */
    method UpdateNodeAggregateIdentifier(oldIdentifier: string, newIdentifier: string)
      modifies this`nodeIndex, this`pathIndex
      ensures oldIdentifier in old(nodeIndex).GetOr(Empty()).items ==>
        nodeIndex == Some(old(nodeIndex).value.Put(newIdentifier, old(nodeIndex).value.items[oldIdentifier]).Unset(oldIdentifier))
      ensures oldIdentifier !in old(nodeIndex).GetOr(Empty()).items ==> nodeIndex == old(nodeIndex)
      ensures oldIdentifier in old(pathIndex).GetOr(Empty()).items ==>
        pathIndex == Some(old(pathIndex).value.Put(newIdentifier, old(pathIndex).value.items[oldIdentifier]).Unset(oldIdentifier))
      ensures oldIdentifier !in old(pathIndex).GetOr(Empty()).items ==> pathIndex == old(pathIndex)
    {
      if nodeIndex.Some? && oldIdentifier in nodeIndex.value.items {
        var index := nodeIndex.value;
        nodeIndex := Some(index.Put(newIdentifier, index.items[oldIdentifier]).Unset(oldIdentifier));
      }
      if pathIndex.Some? && oldIdentifier in pathIndex.value.items {
        var index := pathIndex.value;
        pathIndex := Some(index.Put(newIdentifier, index.items[oldIdentifier]).Unset(oldIdentifier));
      }
    }

    function GetNodeByIdentifier(id: string): (r: Option<ReadOnlyNode>)
      reads this
      ensures r.Some? <==> id in nodeIndex.GetOr(Empty()).items
      ensures r.Some? ==> r.value == nodeIndex.GetOr(Empty()).items[id]
    {
      nodeIndex.GetOr(Empty()).Get(id)
    }

    /** The node registered under a persistence identifier, looked up again by its aggregate identifier. */
    function GetNodeByNodeIdentifier(nodeIdentifier: string): (r: Option<ReadOnlyNode>)
      reads this
      ensures nodeIdentifier !in readOnlyNodeIndex.GetOr(Empty()).items ==> r.None?
      ensures nodeIdentifier in readOnlyNodeIndex.GetOr(Empty()).items ==>
        r == GetNodeByIdentifier(readOnlyNodeIndex.GetOr(Empty()).items[nodeIdentifier].Identifier())
    {
      var persistent := readOnlyNodeIndex.GetOr(Empty());
      if nodeIdentifier in persistent.items then nodeIndex.GetOr(Empty()).Get(persistent.items[nodeIdentifier].Identifier()) else None
    }

    function GetNodeByPath(path: string): (r: Option<ReadOnlyNode>)
      reads this
      ensures r.Some? <==> path in pathIndex.GetOr(Empty()).items
      ensures r.Some? ==> r.value == pathIndex.GetOr(Empty()).items[path]
    {
      pathIndex.GetOr(Empty()).Get(path)
    }

    /** `getNodes()`: the aggregate index; null is refused by the `array` return type. */
    function GetNodes(): (r: Result<Arr<string, ReadOnlyNode>>)
      reads this
      ensures r.Ok? <==> nodeIndex.Some?
      ensures r.Ok? ==> r.value == nodeIndex.value
      ensures r.Err? ==> r.failure == TypeError
    {
      if nodeIndex.None? then Err(TypeError) else Ok(nodeIndex.value)
    }

    /** The parent is the parent end of the edge into the node. */
    function GetParentNode(node: ReadOnlyNode): (r: Option<ReadOnlyNode>)
      reads this
      ensures r.Some? <==> node.Identifier() in parentEdges.items
      ensures r.Some? ==> r.value == parentEdges.items[node.Identifier()].parent
    {
      if node.Identifier() in parentEdges.items then Some(parentEdges.items[node.Identifier()].parent) else None
    }

    function GetParentEdge(node: ReadOnlyNode): (r: Option<Edge>)
      reads this
      ensures r.Some? <==> node.Identifier() in parentEdges.items
      ensures r.Some? ==> r.value == parentEdges.items[node.Identifier()]
    {
      parentEdges.Get(node.Identifier())
    }

    /** The child ends of the node's child edges, under the same names and in the same order; none without child edges. */
    function GetChildNodes(node: ReadOnlyNode): (r: Arr<string, ReadOnlyNode>)
      reads this
      ensures r.order == ChildEdgesOf(node.Identifier()).order
      ensures forall name :: name in r.items <==> name in ChildEdgesOf(node.Identifier()).items
      ensures forall name :: name in r.items ==> r.items[name] == ChildEdgesOf(node.Identifier()).items[name].child
    {
      ChildNodesBelow(childEdges, node.Identifier())
    }

    function GetChildNode(node: ReadOnlyNode, edgeName: string): (r: Option<ReadOnlyNode>)
      reads this
      ensures r.Some? <==> edgeName in ChildEdgesOf(node.Identifier()).items
      ensures r.Some? ==> r.value == ChildEdgesOf(node.Identifier()).items[edgeName].child
    {
      var edges := ChildEdgesOf(node.Identifier());
      if edgeName in edges.items then Some(edges.items[edgeName].child) else None
    }

    function GetChildEdges(node: ReadOnlyNode): (r: Arr<string, Edge>)
      reads this
      ensures node.Identifier() !in childEdges.items ==> r.items == map[]
      ensures node.Identifier() in childEdges.items ==> r == childEdges.items[node.Identifier()]
    {
      ChildEdgesOf(node.Identifier())
    }

    function GetChildEdge(node: ReadOnlyNode, edgeName: string): (r: Option<Edge>)
      reads this
      ensures r.Some? <==> edgeName in ChildEdgesOf(node.Identifier()).items
      ensures r.Some? ==> r.value == ChildEdgesOf(node.Identifier()).items[edgeName]
    {
      ChildEdgesOf(node.Identifier()).Get(edgeName)
    }

    /** `count()`: the number of nodes in the aggregate index; `count(null)` is a type error before any node is registered. */
    function Count(): (r: Result<nat>)
      reads this
      ensures r.Ok? <==> nodeIndex.Some?
      ensures r.Ok? ==> r.value == |nodeIndex.value.items|
      ensures r.Err? ==> r.failure == TypeError
    {
      if nodeIndex.None? then Err(TypeError) else Ok(nodeIndex.value.Count())
    }

    /** `traverse()`: hands each node to the action in pre-order from the root; without a root node the call is a type error, `None`. */
    method Traverse(action: ReadOnlyNode -> bool, fuel: nat) returns (visited: Option<seq<ReadOnlyNode>>)
      ensures rootNode.None? ==> visited.None?
      ensures rootNode.Some? ==> visited == Some(Visit(childEdges, rootNode.value, action, fuel))
    {
      if rootNode.None? {
        return None;
      }
      var fromRoot := TraverseNode(rootNode.value, action, fuel);
      visited := Some(fromRoot);
    }

    /** `traverseNode()`: the node, then, unless the action returns false, each child in turn. */
    method TraverseNode(node: ReadOnlyNode, action: ReadOnlyNode -> bool, fuel: nat) returns (visited: seq<ReadOnlyNode>)
      ensures visited == Visit(childEdges, node, action, fuel)
      decreases fuel
    {
      if fuel == 0 {
        return [];
      }
      var proceed := action(node);
      var below: seq<ReadOnlyNode> := [];
      if proceed {
        var children := GetChildNodes(node).Values();
        for i := 0 to |children|
          invariant below == VisitAll(childEdges, children[..i], action, fuel - 1)
        {
          var visitedThere := TraverseNode(children[i], action, fuel - 1);
          assert children[..i + 1][..i] == children[..i];
          below := below + visitedThere;
        }
        assert children[..|children|] == children;
      }
      visited := [node] + below;
    }
  }

  /** The edges below the node with aggregate identifier `id`, by name; none when it has none. */
  function EdgesBelow(childEdges: Arr<string, Arr<string, Edge>>, id: string): Arr<string, Edge> {
    childEdges.Get(id).GetOr(Empty())
  }

  /** The child ends of the edges below `id`, under the same names and in the same order. */
  function ChildNodesBelow(childEdges: Arr<string, Arr<string, Edge>>, id: string): Arr<string, ReadOnlyNode> {
    var edges := EdgesBelow(childEdges, id);
    PhpArray(edges.order, map name | name in edges.items :: edges.items[name].child)
  }

  /**
   * The nodes `traverseNode` hands to the action, in order: the node, then,
   * unless the action returned false for it, each child's visit in child
   * edge order. `fuel` bounds the depth.
   */
  function Visit(childEdges: Arr<string, Arr<string, Edge>>, node: ReadOnlyNode, action: ReadOnlyNode -> bool, fuel: nat): seq<ReadOnlyNode>
    decreases fuel, 0
  {
    if fuel == 0 then []
    else [node] + (if action(node) then VisitAll(childEdges, ChildNodesBelow(childEdges, node.Identifier()).Values(), action, fuel - 1) else [])
  }

  /** The visits of `nodes`, one after the other. */
  function VisitAll(childEdges: Arr<string, Arr<string, Edge>>, nodes: seq<ReadOnlyNode>, action: ReadOnlyNode -> bool, fuel: nat): seq<ReadOnlyNode>
    decreases fuel, 1, |nodes|
  {
    if nodes == [] then [] else VisitAll(childEdges, nodes[..|nodes| - 1], action, fuel) + Visit(childEdges, nodes[|nodes| - 1], action, fuel)
  }

  /** A visit starts with the node itself, and is only that node when the action returns false for it. */
  lemma VisitStartsWithNode(childEdges: Arr<string, Arr<string, Edge>>, node: ReadOnlyNode, action: ReadOnlyNode -> bool, fuel: nat)
    requires fuel > 0
    ensures |Visit(childEdges, node, action, fuel)| >= 1 && Visit(childEdges, node, action, fuel)[0] == node
    ensures !action(node) ==> Visit(childEdges, node, action, fuel) == [node]
  {
  }

  /**
   * Visiting siblings is visiting each of them in turn, so a sibling the
   * action prunes does not keep the ones after it from being visited.
   */
  lemma {:induction false} SiblingsAreVisited(childEdges: Arr<string, Arr<string, Edge>>, nodes: seq<ReadOnlyNode>, i: nat,
                                              action: ReadOnlyNode -> bool, fuel: nat)
    requires i < |nodes|
    ensures VisitAll(childEdges, nodes, action, fuel)
      == VisitAll(childEdges, nodes[..i], action, fuel) + Visit(childEdges, nodes[i], action, fuel) + VisitAll(childEdges, nodes[i + 1..], action, fuel)
    decreases |nodes|
  {
    if i == |nodes| - 1 {
      assert nodes[..|nodes| - 1] == nodes[..i];
      assert nodes[i + 1..] == [];
    } else {
      var init := nodes[..|nodes| - 1];
      SiblingsAreVisited(childEdges, init, i, action, fuel);
      assert init[..i] == nodes[..i];
      assert init[i] == nodes[i];
      var rest := nodes[i + 1..];
      assert rest[..|rest| - 1] == init[i + 1..];
      assert rest[|rest| - 1] == nodes[|nodes| - 1];
    }
  }
}
