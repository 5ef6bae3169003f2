/**
 * ContentSubgraph of the newer generation: the nodes of one workspace and
 * point, indexed by aggregate identifier, by wrapper identifier and by path,
 * and the hierarchy relations between them.
 *
 * The wrapper identifier is what TraversableNode::getIdentifier returns, and
 * that method has an empty body: every wrapper is filed under, and every
 * relation lookup asks for, the key null turns into, the empty string.
 */
module ProjectionSubgraphs {
  import opened Wrappers
  import opened PhpArrays
  import opened Content
  import opened StructureMerge
  import opened ProjectionNodes
  import ProjectionSubgraphIdentifier

  /** The wrapper that pairs a node with the subgraph it is registered in. */
  datatype TraversableNode = TraversableNode(node: Node) {
    /** `getIdentifier()`: the method body is empty, so the key built from it is the empty string. */
    function Identifier(): Key {
      Text("")
    }
  }

  /**
   * The properties of `parent`'s incoming relation in the subgraph with the
   * string form `hash`, if it has one; nothing in this module changes them.
   */
  function IncomingProperties(parent: Node, hash: Digest): Option<Properties>
    reads parent, parent.incomingHierarchyRelations.items.Values
  {
    if hash in parent.incomingHierarchyRelations.items then Some(parent.incomingHierarchyRelations.items[hash].properties) else None
  }

  class ContentSubgraph {
    const workspace: Workspace
    const dimensionSpacePoint: Point
    const identifier: SubgraphIdentifier
    /** wrapper identifier to wrapper; null until first written */
    var traversableNodeIndex: Option<Arr<Key, TraversableNode>>
    /** aggregate identifier to node */
    var nodeIndex: Arr<string, Node>
    /** path to wrapper */
    var pathIndex: Arr<string, TraversableNode>
    var rootNode: Option<TraversableNode>
    /** child's key to the relation into it */
    var parentEdges: Arr<Key, HierarchyRelation>
    /** parent's key to name to relation */
    var childEdges: Arr<Key, Arr<string, HierarchyRelation>>

    /** The state the constructor leaves: no wrapper index yet, every other index empty, no root. */
    predicate Unpopulated()
      reads this
    {
      && traversableNodeIndex == None && nodeIndex == Empty() && pathIndex == Empty() && rootNode == None
      && parentEdges == Empty() && childEdges == Empty()
    }

    /** The identifier is built from the workspace name and the point; the wrapper index starts out null. */
    constructor(workspace: Workspace, dimensionSpacePoint: Point)
      ensures this.workspace == workspace && this.dimensionSpacePoint == dimensionSpacePoint
      ensures identifier == ProjectionSubgraphIdentifier.SubgraphIdentifier(workspace.name, dimensionSpacePoint)
      ensures traversableNodeIndex == None && nodeIndex == Empty() && pathIndex == Empty() && rootNode == None
      ensures parentEdges == Empty() && childEdges == Empty()
      ensures Unpopulated() && Blind()
    {
      this.workspace := workspace;
      this.dimensionSpacePoint := dimensionSpacePoint;
      identifier := ProjectionSubgraphIdentifier.SubgraphIdentifier(workspace.name, dimensionSpacePoint);
      traversableNodeIndex := None;
      nodeIndex := Empty();
      pathIndex := Empty();
      rootNode := None;
      parentEdges := Empty();
      childEdges := Empty();
    }

    /** The wrapper index, null read as `[]`. */
    function TraversableNodes(): Arr<Key, TraversableNode>
      reads this
    {
      traversableNodeIndex.GetOr(Empty())
    }

    /**
     * No relation is filed under the key every lookup asks for: the parent
     * relations are filed under cache entry identifiers, and the child
     * relations never get filed at all.
     */
    predicate Blind()
      reads this
    {
      Text("") !in parentEdges.items && childEdges.items == map[]
    }

    /**
     * `relation` runs from `parent` to `child` in this subgraph, at the
     * child's index (0 without one), named by the child's name, with the
     * properties of a relation created without any, merged with those of
     * `parentIncoming`, the parent's incoming relation in this subgraph when
     * it has one.
     */
    ghost predicate Relates(relation: HierarchyRelation, parent: Node, child: Node, parentIncoming: Option<Properties>)
      reads relation
    {
      && relation.parent == parent && relation.child == child
      && relation.subgraph == identifier && relation.subgraphHash == identifier.ToString()
      && relation.position == Int(IndexOrZero(child.data.index)) && relation.name == Some(child.data.name)
      && (parentIncoming.Some? ==> relation.properties == MergeWithParent(map[], parentIncoming))
      && (parentIncoming.None? ==> relation.properties == map[])
    }

    /**
     * `registerNode()`: files the node under its aggregate identifier. When
     * its parent path is indexed, the relation from the node filed under the
     * parent wrapper's aggregate identifier is created and filed as the
     * node's parent relation under its cache entry identifier; the statement
     * after that calls `getName()`, which Node does not define, so the call
     * ends there with an error and neither the child relations nor the
     * wrapper and path indexes are written. A parent wrapper whose aggregate
     * has no node here makes the relation's constructor fail on null, and a
     * node without a workspace has no cache entry identifier. Otherwise the
     * wrapper is filed under its identifier and the node's path, and as the
     * root for the root path.
     */
    method RegisterNode(node: Node) returns (failure: Option<Failure>)
      modifies this`nodeIndex, this`parentEdges, this`traversableNodeIndex, this`pathIndex, this`rootNode
      ensures nodeIndex == old(nodeIndex).Put(node.aggregateIdentifier, node)
      ensures node.data.parentPath !in old(pathIndex.items) ==>
        && failure.None?
        && parentEdges == old(parentEdges)
        && traversableNodeIndex == Some(old(TraversableNodes()).Put(Text(""), TraversableNode(node)))
        && pathIndex == old(pathIndex).Put(node.data.path, TraversableNode(node))
        && (node.data.path == ROOT_PATH ==> rootNode == Some(TraversableNode(node)))
        && (node.data.path != ROOT_PATH ==> rootNode == old(rootNode))
      ensures node.data.parentPath in old(pathIndex.items) ==>
        && failure.Some?
        && traversableNodeIndex == old(traversableNodeIndex) && pathIndex == old(pathIndex) && rootNode == old(rootNode)
      ensures node.data.parentPath in old(pathIndex.items) ==>
        var parentIdentifier := old(pathIndex.items[node.data.parentPath]).node.aggregateIdentifier;
        && (parentIdentifier !in nodeIndex.items ==> failure == Some(TypeError) && parentEdges == old(parentEdges))
        && (parentIdentifier in nodeIndex.items && node.data.workspace.None? ==>
              failure == Some(CallOnNull) && parentEdges == old(parentEdges))
        && (parentIdentifier in nodeIndex.items && node.data.workspace.Some? ==>
              && failure == Some(UndefinedMethod)
              && var key := Hash(node.CacheEntryIdentifier().value);
              && key in parentEdges.items
              && parentEdges == old(parentEdges).Put(key, parentEdges.items[key])
              && fresh(parentEdges.items[key])
              && var parent := nodeIndex.items[parentIdentifier];
              && Relates(parentEdges.items[key], parent, node, IncomingProperties(parent, identifier.ToString())))
      ensures old(Blind()) ==> Blind()
    {
      nodeIndex := nodeIndex.Put(node.aggregateIdentifier, node);
      if node.data.parentPath in pathIndex.items {
        failure := ConnectToParent(pathIndex.items[node.data.parentPath], node);
        return;
      }
      IndexWrapper(node);
      failure := None;
    }

    /**
     * Creates the relation into `node` from the node filed under the parent
     * wrapper's aggregate identifier and files it under the node's cache
     * entry identifier; then fails as the statement after it does.
     */
    method ConnectToParent(parentWrapper: TraversableNode, node: Node) returns (failure: Option<Failure>)
      modifies this`parentEdges
      ensures failure.Some?
      ensures parentWrapper.node.aggregateIdentifier !in nodeIndex.items ==> failure == Some(TypeError) && parentEdges == old(parentEdges)
      ensures parentWrapper.node.aggregateIdentifier in nodeIndex.items && node.data.workspace.None? ==>
        failure == Some(CallOnNull) && parentEdges == old(parentEdges)
      ensures parentWrapper.node.aggregateIdentifier in nodeIndex.items && node.data.workspace.Some? ==>
        && failure == Some(UndefinedMethod)
        && var key := Hash(node.CacheEntryIdentifier().value);
        && var parent := nodeIndex.items[parentWrapper.node.aggregateIdentifier];
        && key in parentEdges.items
        && parentEdges == old(parentEdges).Put(key, parentEdges.items[key])
        && fresh(parentEdges.items[key])
        && Relates(parentEdges.items[key], parent, node, IncomingProperties(parent, identifier.ToString()))
    {
      if parentWrapper.node.aggregateIdentifier !in nodeIndex.items {
        return Some(TypeError);
      }
      var parent := nodeIndex.items[parentWrapper.node.aggregateIdentifier];
      var relation := new HierarchyRelation(parent, node, identifier, identifier.ToString(),
                                            IndexOrZero(node.data.index), Some(node.data.name));
      var cacheEntry := node.CacheEntryIdentifier();
      if cacheEntry.None? {
        return Some(CallOnNull);
      }
      parentEdges := parentEdges.Put(Hash(cacheEntry.value), relation);
      return Some(UndefinedMethod);
    }

    /** Files the wrapper of `node` under the wrapper identifier and its path, and as the root for the root path. */
    method IndexWrapper(node: Node)
      modifies this`traversableNodeIndex, this`pathIndex, this`rootNode
      ensures traversableNodeIndex == Some(old(TraversableNodes()).Put(Text(""), TraversableNode(node)))
      ensures pathIndex == old(pathIndex).Put(node.data.path, TraversableNode(node))
      ensures node.data.path == ROOT_PATH ==> rootNode == Some(TraversableNode(node))
      ensures node.data.path != ROOT_PATH ==> rootNode == old(rootNode)
    {
      var wrapper := TraversableNode(node);
      traversableNodeIndex := Some(TraversableNodes().Put(wrapper.Identifier(), wrapper));
      pathIndex := pathIndex.Put(node.data.path, wrapper);
      if node.data.path == ROOT_PATH {
        rootNode := Some(wrapper);
      }
    }

    /**
     * `unregisterNode()`: for a node whose aggregate is filed, removes its
     * path entry and the wrapper filed under its cache entry identifier, then
     * clears the root for the root path and removes the aggregate entry. The
     * wrapper is looked up by the cache entry identifier after it has been
     * removed, so the relation clean-up never runs. A node without a
     * workspace fails on null once its path entry is gone.
     */
    method UnregisterNode(node: Node) returns (failure: Option<Failure>)
      modifies this`nodeIndex, this`traversableNodeIndex, this`pathIndex, this`rootNode
      ensures node.aggregateIdentifier !in old(nodeIndex.items) ==>
        && failure.None?
        && nodeIndex == old(nodeIndex) && traversableNodeIndex == old(traversableNodeIndex)
        && pathIndex == old(pathIndex) && rootNode == old(rootNode)
      ensures node.aggregateIdentifier in old(nodeIndex.items) ==>
        && (node.data.path in old(pathIndex.items) ==> pathIndex == old(pathIndex).Unset(node.data.path))
        && (node.data.path !in old(pathIndex.items) ==> pathIndex == old(pathIndex))
      ensures node.aggregateIdentifier in old(nodeIndex.items) && node.data.workspace.None? ==>
        && failure == Some(CallOnNull)
        && nodeIndex == old(nodeIndex) && traversableNodeIndex == old(traversableNodeIndex) && rootNode == old(rootNode)
      ensures node.aggregateIdentifier in old(nodeIndex.items) && node.data.workspace.Some? ==>
        && failure.None?
        && nodeIndex == old(nodeIndex).Unset(node.aggregateIdentifier)
        && (Hash(node.CacheEntryIdentifier().value) in old(TraversableNodes().items) ==>
              traversableNodeIndex == Some(old(TraversableNodes()).Unset(Hash(node.CacheEntryIdentifier().value))))
        && (Hash(node.CacheEntryIdentifier().value) !in old(TraversableNodes().items) ==>
              traversableNodeIndex == old(traversableNodeIndex))
        && (node.data.path == ROOT_PATH ==> rootNode == None)
        && (node.data.path != ROOT_PATH ==> rootNode == old(rootNode))
    {
      if node.aggregateIdentifier !in nodeIndex.items {
        return None;
      }
      if node.data.path in pathIndex.items {
        pathIndex := pathIndex.Unset(node.data.path);
      }
      var cacheEntry := node.CacheEntryIdentifier();
      if cacheEntry.None? {
        return Some(CallOnNull);
      }
      if Hash(cacheEntry.value) in TraversableNodes().items {
        traversableNodeIndex := Some(TraversableNodes().Unset(Hash(cacheEntry.value)));
      }
      var traversableNode := GetNodeByIdentifier(Hash(cacheEntry.value));
      if traversableNode.Some? {
        assert false;
      }
      if node.data.path == ROOT_PATH {
        rootNode := None;
      }
      nodeIndex := nodeIndex.Unset(node.aggregateIdentifier);
      failure := None;
    }

    /**
     * `updateNodeAggregateIdentifier()`: re-files the wrapper entry and the
     * path entry under the new identifier. The relation maps are guarded by
     * fields the class does not declare, so they are never re-filed.
     */
    method UpdateNodeAggregateIdentifier(oldIdentifier: string, newIdentifier: string)
      modifies this`traversableNodeIndex, this`pathIndex
      ensures Text(oldIdentifier) in old(TraversableNodes().items) ==>
        traversableNodeIndex == Some(old(TraversableNodes()).Put(Text(newIdentifier), old(TraversableNodes().items[Text(oldIdentifier)])).Unset(Text(oldIdentifier)))
      ensures Text(oldIdentifier) !in old(TraversableNodes().items) ==> traversableNodeIndex == old(traversableNodeIndex)
      ensures oldIdentifier in old(pathIndex.items) ==>
        pathIndex == old(pathIndex).Put(newIdentifier, old(pathIndex.items[oldIdentifier])).Unset(oldIdentifier)
      ensures oldIdentifier !in old(pathIndex.items) ==> pathIndex == old(pathIndex)
    {
      if Text(oldIdentifier) in TraversableNodes().items {
        var moved := TraversableNodes().items[Text(oldIdentifier)];
        traversableNodeIndex := Some(TraversableNodes().Put(Text(newIdentifier), moved).Unset(Text(oldIdentifier)));
      }
      if oldIdentifier in pathIndex.items {
        pathIndex := pathIndex.Put(newIdentifier, pathIndex.items[oldIdentifier]).Unset(oldIdentifier);
      }
    }

    /** `getNodeByIdentifier()`: the wrapper filed under the key, null when none is. */
    function GetNodeByIdentifier(key: Key): (r: Option<TraversableNode>)
      reads this
      ensures r.Some? <==> key in TraversableNodes().items
      ensures r.Some? ==> r.value == TraversableNodes().items[key]
    {
      TraversableNodes().Get(key)
    }

    /** `getNodeByPath()`: the wrapper filed under the path, null when none is. */
    function GetNodeByPath(path: string): (r: Option<TraversableNode>)
      reads this
      ensures r.Some? <==> path in pathIndex.items
      ensures r.Some? ==> r.value == pathIndex.items[path]
    {
      pathIndex.Get(path)
    }

    /** `getNodes()`: the wrapper index; before any wrapper is filed it is null, which the `array` return type refuses. */
    function GetNodes(): (r: Result<Arr<Key, TraversableNode>>)
      reads this
      ensures r.Err? <==> traversableNodeIndex.None?
      ensures r.Err? ==> r.failure == TypeError
      ensures r.Ok? ==> r.value == traversableNodeIndex.value
    {
      if traversableNodeIndex.None? then Err(TypeError) else Ok(traversableNodeIndex.value)
    }

    /**
     * `getParentNode()`: null without a parent relation; with one, the
     * relation's parent, a Node where a TraversableNode is declared.
     */
    function GetParentNode(node: TraversableNode): (r: Result<Option<TraversableNode>>)
      reads this
      ensures r == Ok(None) <==> node.Identifier() !in parentEdges.items
      ensures r.Err? <==> node.Identifier() in parentEdges.items
      ensures r.Err? ==> r.failure == TypeError
    {
      if node.Identifier() in parentEdges.items then Err(TypeError) else Ok(None)
    }

    /** `getParentEdge()`: the relation filed under the wrapper's identifier, null when none is. */
    function GetParentEdge(node: TraversableNode): (r: Option<HierarchyRelation>)
      reads this
      ensures r.Some? <==> node.Identifier() in parentEdges.items
      ensures r.Some? ==> r.value == parentEdges.items[node.Identifier()]
    {
      parentEdges.Get(node.Identifier())
    }

    /** `getChildEdges()`: the relations filed under the wrapper's identifier, `[]` when none are. */
    function GetChildEdges(node: TraversableNode): (r: Arr<string, HierarchyRelation>)
      reads this
      ensures node.Identifier() !in childEdges.items ==> r == Empty()
      ensures node.Identifier() in childEdges.items ==> r == childEdges.items[node.Identifier()]
    {
      childEdges.Get(node.Identifier()).GetOr(Empty())
    }

    /** `getChildNodes()`: the children of the child relations, under the same names and in the same order; `[]` without them. */
    function GetChildNodes(node: TraversableNode): (r: Arr<string, Node>)
      reads this
      ensures r.order == GetChildEdges(node).order
      ensures forall name :: name in r.items <==> name in GetChildEdges(node).items
      ensures forall name :: name in r.items ==> r.items[name] == GetChildEdges(node).items[name].child
    {
      var edges := GetChildEdges(node);
      PhpArray(edges.order, map name | name in edges.items :: edges.items[name].child)
    }

    /**
     * `getChildNode()`: null without a child relation of that name; with one,
     * the relation's child, a Node where a TraversableNode is declared.
     */
    function GetChildNode(node: TraversableNode, edgeName: string): (r: Result<Option<TraversableNode>>)
      reads this
      ensures r == Ok(None) <==> GetChildEdge(node, edgeName).None?
      ensures r.Err? <==> GetChildEdge(node, edgeName).Some?
      ensures r.Err? ==> r.failure == TypeError
    {
      if GetChildEdge(node, edgeName).Some? then Err(TypeError) else Ok(None)
    }

    /** `getChildEdge()`: the relation of that name below the wrapper, null when there is none. */
    function GetChildEdge(node: TraversableNode, edgeName: string): (r: Option<HierarchyRelation>)
      reads this
      ensures r.Some? <==> node.Identifier() in childEdges.items && edgeName in childEdges.items[node.Identifier()].items
      ensures r.Some? ==> r.value == childEdges.items[node.Identifier()].items[edgeName]
    {
      GetIn(childEdges, node.Identifier(), edgeName)
    }

    /** `count()`: the number of filed wrappers; a null index is refused by `count` as a type error. */
    function Count(): (r: Result<nat>)
      reads this
      ensures r.Err? <==> traversableNodeIndex.None?
      ensures r.Ok? ==> r.value == |traversableNodeIndex.value.items|
    {
      if traversableNodeIndex.None? then Err(TypeError) else Ok(traversableNodeIndex.value.Count())
    }

    /** `__toString()`: the string form of the identifier. */
    function ToString(): (r: Digest)
      ensures r == identifier.ToString()
      ensures r.JsonHash? && r.workspaceName == identifier.workspaceName && r.point == identifier.dimensionSpacePoint
    {
      identifier.ToString()
    }
  }

  /**
   * While no relation is filed under the key every wrapper has, every
   * relation lookup finds nothing: no parent, no parent relation, no child
   * relations and no children.
   */
  lemma BlindLookups(s: ContentSubgraph, node: TraversableNode, edgeName: string)
    requires s.Blind()
    ensures s.GetParentNode(node) == Ok(None) && s.GetParentEdge(node).None?
    ensures s.GetChildEdges(node) == Empty() && s.GetChildNodes(node).items == map[]
    ensures s.GetChildNode(node, edgeName) == Ok(None) && s.GetChildEdge(node, edgeName).None?
  {
  }

  /** Every wrapper has the same identifier, so a later registration replaces the wrapper filed by an earlier one. */
  lemma WrappersShareOneKey(index: Arr<Key, TraversableNode>, first: Node, second: Node)
    ensures index.Put(TraversableNode(first).Identifier(), TraversableNode(first)).Put(TraversableNode(second).Identifier(), TraversableNode(second))
      == index.Put(Text(""), TraversableNode(second))
    ensures index.Put(TraversableNode(first).Identifier(), TraversableNode(first)).Count()
      == index.Put(TraversableNode(second).Identifier(), TraversableNode(second)).Put(Text(""), TraversableNode(first)).Count()
  {
  }

  /** Re-filing an identifier under itself removes its entry: the entry is written and then unset under the same key. */
  lemma UpdateToSameIdentifierDrops(index: Arr<Key, TraversableNode>, identifier: string)
    requires Text(identifier) in index.items
    ensures Text(identifier) !in index.Put(Text(identifier), index.items[Text(identifier)]).Unset(Text(identifier)).items
  {
  }
}
