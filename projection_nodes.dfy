/**
 * The nodes of the newer generation and the relations between them. A Node
 * keeps its incoming and outgoing hierarchy relations and its reference
 * relations; a HierarchyRelation joins a parent node to a child node in one
 * subgraph; a ReferenceRelation leads from a node to a whole aggregate; a
 * NodeAggregate files the variants of one aggregate. The four refer to each
 * other, so they share one module.
 */
module ProjectionNodes {
  import opened Wrappers
  import opened PhpArrays
  import opened Content
  import opened StructureMerge
  import Partitioning
  import ProjectionSubgraphIdentifier

  type SubgraphIdentifier = ProjectionSubgraphIdentifier.SubgraphIdentifier

  /** The cache entry identifier of a record at an origin; `None` when it has no workspace to read the content stream from. */
  function CacheEntryOf(data: NodeData, origin: Point): Option<Digest> {
    if data.workspace.Some? then Some(CacheEntry(data.identifier, data.workspace.value.name, origin)) else None
  }

  /**
   * Two records at two origins share a cache entry identifier exactly when
   * they have the same aggregate identifier, workspace name and origin.
   */
  lemma CacheEntryIdentifies(d: NodeData, o: Point, e: NodeData, p: Point)
    requires d.workspace.Some? && e.workspace.Some?
    ensures CacheEntryOf(d, o) == CacheEntryOf(e, p)
        <==> d.identifier == e.identifier && d.workspace.value.name == e.workspace.value.name && o == p
  {
  }

  /** A record without a workspace has no cache entry identifier: asking for one fails. */
  lemma CacheEntryNeedsWorkspace(d: NodeData, o: Point)
    ensures CacheEntryOf(d, o).None? <==> d.workspace.None?
  {
  }

  /** The key `$array[$name]` uses for a nullable name: null reads as the empty string. */
  function NameKey(name: Option<string>): string {
    if name.Some? then name.value else ""
  }

  class Node {
    const data: NodeData
    const aggregateIdentifier: string
    const origin: Point
    /** subgraph hash to local identifier to relation */
    var outgoingHierarchyRelations: Arr<Digest, Arr<RelationKey, HierarchyRelation>>
    /** subgraph hash to relation */
    var incomingHierarchyRelations: Arr<Digest, HierarchyRelation>
    var incomingReferenceRelations: seq<ReferenceRelation>
    var outgoingReferenceRelations: seq<ReferenceRelation>

    constructor(data: NodeData, origin: Point)
      ensures this.data == data && this.origin == origin && aggregateIdentifier == data.identifier
      ensures outgoingHierarchyRelations == Empty() && incomingHierarchyRelations == Empty()
      ensures incomingReferenceRelations == [] && outgoingReferenceRelations == []
    {
      this.data := data;
      this.aggregateIdentifier := data.identifier;
      this.origin := origin;
      outgoingHierarchyRelations := Empty();
      incomingHierarchyRelations := Empty();
      incomingReferenceRelations := [];
      outgoingReferenceRelations := [];
    }

    /** `getCacheEntryIdentifier()`; `None` where the source calls `getName()` on a missing workspace. */
    function CacheEntryIdentifier(): Option<Digest> {
      CacheEntryOf(data, origin)
    }

    /** `getOutgoingHierarchyRelationsInSubgraph()`: `[]` for a subgraph the node has no relations in. */
    function OutgoingInSubgraph(id: SubgraphIdentifier): (r: Arr<RelationKey, HierarchyRelation>)
      reads this
      ensures id.ToString() !in outgoingHierarchyRelations.items ==> r == Empty()
      ensures id.ToString() in outgoingHierarchyRelations.items ==> r == outgoingHierarchyRelations.items[id.ToString()]
    {
      outgoingHierarchyRelations.Get(id.ToString()).GetOr(Empty())
    }

    /**
     * `getOutgoingHierarchyRelations()`: the relations of every subgraph in
     * filing order, each filed under its name for the graph, a later one
     * replacing an earlier one with the same name for the graph.
     */
    method GetOutgoingHierarchyRelations() returns (flat: Arr<RelationKey, HierarchyRelation>)
      ensures flat == Flattened(outgoingHierarchyRelations)
    {
      var bySubgraph := outgoingHierarchyRelations;
      flat := Empty();
      for i := 0 to |bySubgraph.order|
        invariant flat == FlattenedUpTo(bySubgraph, i)
      {
        var hash := bySubgraph.order[i];
        if hash in bySubgraph.items {
          var relations := bySubgraph.items[hash];
          var before := flat;
          for j := 0 to |relations.order|
            invariant flat == FiledUpTo(before, relations, j)
          {
            var localIdentifier := relations.order[j];
            if localIdentifier in relations.items {
              flat := flat.Put(relations.items[localIdentifier].NameForGraph(), relations.items[localIdentifier]);
            }
          }
        }
      }
    }

    /** Files a relation among the outgoing ones, under its subgraph hash and its local identifier. */
    method RegisterOutgoingHierarchyRelation(r: HierarchyRelation)
      modifies this`outgoingHierarchyRelations
      ensures outgoingHierarchyRelations == PutIn(old(outgoingHierarchyRelations), r.subgraphHash, r.LocalIdentifier(), r)
    {
      outgoingHierarchyRelations := PutIn(outgoingHierarchyRelations, r.subgraphHash, r.LocalIdentifier(), r);
    }

    /**
     * Removes a relation from the outgoing ones when it is filed there, looked
     * up by the string form of its subgraph's identifier.
     */
    method UnregisterOutgoingHierarchyRelation(r: HierarchyRelation)
      modifies this`outgoingHierarchyRelations
      ensures GetIn(old(outgoingHierarchyRelations), r.subgraph.ToString(), r.LocalIdentifier()).Some? ==>
        outgoingHierarchyRelations == UnsetIn(old(outgoingHierarchyRelations), r.subgraph.ToString(), r.LocalIdentifier())
      ensures GetIn(old(outgoingHierarchyRelations), r.subgraph.ToString(), r.LocalIdentifier()).None? ==>
        outgoingHierarchyRelations == old(outgoingHierarchyRelations)
    {
      var hash := r.subgraph.ToString();
      if GetIn(outgoingHierarchyRelations, hash, r.LocalIdentifier()).Some? {
        outgoingHierarchyRelations := UnsetIn(outgoingHierarchyRelations, hash, r.LocalIdentifier());
      }
    }

    /** `getIncomingHierarchyRelationInSubgraph()`: null for a subgraph without one. */
    function IncomingInSubgraph(id: SubgraphIdentifier): (r: Option<HierarchyRelation>)
      reads this
      ensures r.Some? <==> id.ToString() in incomingHierarchyRelations.items
      ensures r.Some? ==> r.value == incomingHierarchyRelations.items[id.ToString()]
    {
      incomingHierarchyRelations.Get(id.ToString())
    }

    /** Files a relation as the incoming one of its subgraph hash, replacing the one filed there before. */
    method RegisterIncomingHierarchyRelation(r: HierarchyRelation)
      modifies this`incomingHierarchyRelations
      ensures incomingHierarchyRelations == old(incomingHierarchyRelations).Put(r.subgraphHash, r)
    {
      incomingHierarchyRelations := incomingHierarchyRelations.Put(r.subgraphHash, r);
    }

    /** Removes the incoming relation of the relation's subgraph, when there is one. */
    method UnregisterIncomingRelation(r: HierarchyRelation)
      modifies this`incomingHierarchyRelations
      ensures r.subgraph.ToString() in old(incomingHierarchyRelations.items) ==>
        incomingHierarchyRelations == old(incomingHierarchyRelations).Unset(r.subgraph.ToString())
      ensures r.subgraph.ToString() !in old(incomingHierarchyRelations.items) ==>
        incomingHierarchyRelations == old(incomingHierarchyRelations)
    {
      if r.subgraph.ToString() in incomingHierarchyRelations.items {
        incomingHierarchyRelations := incomingHierarchyRelations.Unset(r.subgraph.ToString());
      }
    }

    method RegisterIncomingReferenceRelation(r: ReferenceRelation)
      modifies this`incomingReferenceRelations
      ensures incomingReferenceRelations == old(incomingReferenceRelations) + [r]
    {
      incomingReferenceRelations := incomingReferenceRelations + [r];
    }

    method RegisterOutgoingReferenceRelation(r: ReferenceRelation)
      modifies this`outgoingReferenceRelations
      ensures outgoingReferenceRelations == old(outgoingReferenceRelations) + [r]
    {
      outgoingReferenceRelations := outgoingReferenceRelations + [r];
    }

    /** `isRoot()`: the record lies at the root path. */
    predicate IsRoot()
      ensures IsRoot() <==> data.path == ROOT_PATH
    {
      data.path == ROOT_PATH
    }

    /**
     * `isTethered()`: whether the node's incoming relation in the subgraph of
     * its own workspace and origin carries a name under which the parent's
     * type declares an auto-created child of a non-null type. `None` when the
     * node has no workspace, whose name the source reads all the same.
     */
    function IsTethered(): (r: Option<bool>)
      reads this
      ensures r.None? <==> data.workspace.None?
      ensures r == Some(true) <==>
        && data.workspace.Some?
        && JsonHash(data.workspace.value.name, origin) in incomingHierarchyRelations.items
        && var relation := incomingHierarchyRelations.items[JsonHash(data.workspace.value.name, origin)];
           var children := relation.parent.data.nodeType.autoCreatedChildNodes;
           NameKey(relation.name) in children && children[NameKey(relation.name)].Some?
    {
      if data.workspace.None? then None
      else
        var own := ProjectionSubgraphIdentifier.SubgraphIdentifier(data.workspace.value.name, origin);
        match IncomingInSubgraph(own)
        case None => Some(false)
        case Some(relation) =>
          var children := relation.parent.data.nodeType.autoCreatedChildNodes;
          Some(NameKey(relation.name) in children && children[NameKey(relation.name)].Some?)
    }

    /**
     * `isTethered()` as written: the relation's name is a `NodeName` object,
     * and an object is an illegal array offset, so a named incoming relation
     * makes the lookup a type error; a missing name reads as the empty key.
     */
    function IsTetheredAsWritten(): (r: Result<bool>)
      reads this
      ensures data.workspace.None? ==> r == Err(CallOnNull)
      ensures data.workspace.Some? ==>
        var key := JsonHash(data.workspace.value.name, origin);
        (r == Err(TypeError) <==> key in incomingHierarchyRelations.items && incomingHierarchyRelations.items[key].name.Some?)
      ensures r.Ok? ==> IsTethered() == Some(r.value)
    {
      if data.workspace.None? then Err(CallOnNull)
      else
        var own := ProjectionSubgraphIdentifier.SubgraphIdentifier(data.workspace.value.name, origin);
        match IncomingInSubgraph(own)
        case None => Ok(false)
        case Some(relation) =>
          if relation.name.Some? then Err(TypeError)
          else
            var children := relation.parent.data.nodeType.autoCreatedChildNodes;
            Ok(NameKey(relation.name) in children && children[NameKey(relation.name)].Some?)
    }
  }

  /** A node tethered under a name, as intended, is refused by `isTethered()` as written. */
  lemma AsWrittenRefusesNamedTetheredNode(n: Node)
    requires n.IsTethered() == Some(true)
    requires n.data.workspace.Some?
    requires var key := JsonHash(n.data.workspace.value.name, n.origin);
      key in n.incomingHierarchyRelations.items && n.incomingHierarchyRelations.items[key].name.Some?
    ensures n.IsTetheredAsWritten() == Err(TypeError)
  {
  }

  /** The record of a node, as the aggregate reads it. */
  function DataOf(n: Node): NodeData {
    n.data
  }

  /** `flat` after filing the first `n` relations of `relations`, each under its name for the graph. */
  function FiledUpTo(flat: Arr<RelationKey, HierarchyRelation>, relations: Arr<RelationKey, HierarchyRelation>, n: nat): Arr<RelationKey, HierarchyRelation>
    requires n <= |relations.order|
  {
    if n == 0 then flat
    else
      var localIdentifier := relations.order[n - 1];
      var before := FiledUpTo(flat, relations, n - 1);
      if localIdentifier in relations.items then before.Put(relations.items[localIdentifier].NameForGraph(), relations.items[localIdentifier]) else before
  }

  /** The relations of the first `n` subgraphs, in filing order, each under its name for the graph. */
  function FlattenedUpTo(bySubgraph: Arr<Digest, Arr<RelationKey, HierarchyRelation>>, n: nat): Arr<RelationKey, HierarchyRelation>
    requires n <= |bySubgraph.order|
  {
    if n == 0 then Empty()
    else
      var hash := bySubgraph.order[n - 1];
      var before := FlattenedUpTo(bySubgraph, n - 1);
      if hash in bySubgraph.items then FiledUpTo(before, bySubgraph.items[hash], |bySubgraph.items[hash].order|) else before
  }

  /** The outgoing relations of all subgraphs, each under its name for the graph. */
  function Flattened(bySubgraph: Arr<Digest, Arr<RelationKey, HierarchyRelation>>): Arr<RelationKey, HierarchyRelation> {
    FlattenedUpTo(bySubgraph, |bySubgraph.order|)
  }

  /** Whether `relation` is filed in `bySubgraph` among the listed keys. */
  ghost predicate Filed(bySubgraph: Arr<Digest, Arr<RelationKey, HierarchyRelation>>, hash: Digest, localIdentifier: RelationKey) {
    && hash in bySubgraph.order && hash in bySubgraph.items
    && localIdentifier in bySubgraph.items[hash].order && localIdentifier in bySubgraph.items[hash].items
  }

  /** Whether a listed relation among the first `n` of `relations` has `key` as its name for the graph. */
  ghost predicate NamedAmong(relations: Arr<RelationKey, HierarchyRelation>, n: nat, key: RelationKey)
    requires n <= |relations.order|
  {
    exists j :: 0 <= j < n && relations.order[j] in relations.items && relations.items[relations.order[j]].NameForGraph() == key
  }

  /** Filing relations keeps the earlier names and adds the name of each listed relation, and nothing else. */
  lemma {:induction false} FiledUpToKeys(flat: Arr<RelationKey, HierarchyRelation>, relations: Arr<RelationKey, HierarchyRelation>, n: nat, key: RelationKey)
    requires n <= |relations.order|
    ensures key in FiledUpTo(flat, relations, n).items <==> key in flat.items || NamedAmong(relations, n, key)
    ensures key in FiledUpTo(flat, relations, n).items ==>
      (key in flat.items && FiledUpTo(flat, relations, n).items[key] == flat.items[key])
      || exists j :: 0 <= j < n && relations.order[j] in relations.items && FiledUpTo(flat, relations, n).items[key] == relations.items[relations.order[j]]
  {
    if n > 0 {
      FiledUpToKeys(flat, relations, n - 1, key);
    }
  }

  /**
   * A name for the graph is in the flattened relations exactly when some
   * listed relation of some listed subgraph has it.
   */
  lemma {:induction false} FlattenedUpToKeys(bySubgraph: Arr<Digest, Arr<RelationKey, HierarchyRelation>>, n: nat, key: RelationKey)
    requires n <= |bySubgraph.order|
    ensures key in FlattenedUpTo(bySubgraph, n).items <==>
      exists i, localIdentifier :: 0 <= i < n && Filed(bySubgraph, bySubgraph.order[i], localIdentifier)
        && bySubgraph.items[bySubgraph.order[i]].items[localIdentifier].NameForGraph() == key
  {
    if n > 0 {
      FlattenedUpToKeys(bySubgraph, n - 1, key);
      var hash := bySubgraph.order[n - 1];
      if hash in bySubgraph.items {
        var relations := bySubgraph.items[hash];
        FiledUpToKeys(FlattenedUpTo(bySubgraph, n - 1), relations, |relations.order|, key);
        if NamedAmong(relations, |relations.order|, key) {
          var j :| 0 <= j < |relations.order| && relations.order[j] in relations.items && relations.items[relations.order[j]].NameForGraph() == key;
          assert Filed(bySubgraph, bySubgraph.order[n - 1], relations.order[j]);
        }
        if exists i, localIdentifier :: 0 <= i < n && Filed(bySubgraph, bySubgraph.order[i], localIdentifier)
             && bySubgraph.items[bySubgraph.order[i]].items[localIdentifier].NameForGraph() == key {
          var i, localIdentifier :| 0 <= i < n && Filed(bySubgraph, bySubgraph.order[i], localIdentifier)
             && bySubgraph.items[bySubgraph.order[i]].items[localIdentifier].NameForGraph() == key;
          if i == n - 1 {
            var j :| 0 <= j < |relations.order| && relations.order[j] == localIdentifier;
            assert relations.order[j] in relations.items && relations.items[relations.order[j]].NameForGraph() == key;
          }
        }
      }
    }
  }

  /** What the flattened relations file under a name is one of the listed relations of a listed subgraph. */
  lemma {:induction false} FlattenedUpToValues(bySubgraph: Arr<Digest, Arr<RelationKey, HierarchyRelation>>, n: nat, key: RelationKey)
    requires n <= |bySubgraph.order|
    requires key in FlattenedUpTo(bySubgraph, n).items
    ensures exists i, localIdentifier ::
      0 <= i < n && Filed(bySubgraph, bySubgraph.order[i], localIdentifier)
      && FlattenedUpTo(bySubgraph, n).items[key] == bySubgraph.items[bySubgraph.order[i]].items[localIdentifier]
  {
    var hash := bySubgraph.order[n - 1];
    var before := FlattenedUpTo(bySubgraph, n - 1);
    if hash in bySubgraph.items {
      var relations := bySubgraph.items[hash];
      FiledUpToKeys(before, relations, |relations.order|, key);
      if key in before.items && FlattenedUpTo(bySubgraph, n).items[key] == before.items[key] {
        FlattenedUpToValues(bySubgraph, n - 1, key);
      } else {
        var j :| 0 <= j < |relations.order| && relations.order[j] in relations.items
          && FlattenedUpTo(bySubgraph, n).items[key] == relations.items[relations.order[j]];
        assert Filed(bySubgraph, bySubgraph.order[n - 1], relations.order[j]);
      }
    } else {
      FlattenedUpToValues(bySubgraph, n - 1, key);
    }
  }

  /**
   * The outgoing relations of all subgraphs hold a relation under a name for
   * the graph exactly when some relation filed in some subgraph has that name,
   * and the one they hold is one of those filed.
   */
  lemma FlattenedHolds(bySubgraph: Arr<Digest, Arr<RelationKey, HierarchyRelation>>, key: RelationKey)
    ensures key in Flattened(bySubgraph).items <==>
      exists i, localIdentifier :: 0 <= i < |bySubgraph.order| && Filed(bySubgraph, bySubgraph.order[i], localIdentifier)
        && bySubgraph.items[bySubgraph.order[i]].items[localIdentifier].NameForGraph() == key
    ensures key in Flattened(bySubgraph).items ==>
      exists i, localIdentifier :: 0 <= i < |bySubgraph.order| && Filed(bySubgraph, bySubgraph.order[i], localIdentifier)
        && Flattened(bySubgraph).items[key] == bySubgraph.items[bySubgraph.order[i]].items[localIdentifier]
  {
    FlattenedUpToKeys(bySubgraph, |bySubgraph.order|, key);
    if key in Flattened(bySubgraph).items {
      FlattenedUpToValues(bySubgraph, |bySubgraph.order|, key);
    }
  }

  class HierarchyRelation {
    const parent: Node
    const child: Node
    /** The identifier of the subgraph the relation lies in; the source keeps the subgraph and reads only its identifier. */
    const subgraph: SubgraphIdentifier
    const subgraphHash: Digest
    /** An integer, or a string once `setPosition` has written one. */
    var position: Value
    const name: Option<string>
    var properties: Properties

    /**
     * Creates the relation and merges its properties with those of the
     * parent's incoming relation in the same subgraph, when it has one.
     */
    constructor(parent: Node, child: Node, subgraph: SubgraphIdentifier, subgraphHash: Digest, position: int,
                name: Option<string> := None, properties: Properties := map[])
      ensures this.parent == parent && this.child == child
      ensures this.subgraph == subgraph && this.subgraphHash == subgraphHash
      ensures this.position == Int(position) && this.name == name
      ensures subgraph.ToString() in old(parent.incomingHierarchyRelations.items) ==>
        this.properties == MergeWithParent(properties, Some(old(parent.incomingHierarchyRelations.items[subgraph.ToString()].properties)))
      ensures subgraph.ToString() !in old(parent.incomingHierarchyRelations.items) ==>
        this.properties == properties
    {
      this.parent := parent;
      this.child := child;
      this.subgraph := subgraph;
      this.subgraphHash := subgraphHash;
      this.position := Int(position);
      this.name := name;
      this.properties := properties;
      new;
      MergeStructurePropertiesWithParent();
    }

    /** `getParentEdge()`: the parent's incoming relation in this relation's subgraph. */
    function ParentEdge(): (r: Option<HierarchyRelation>)
      reads parent
      ensures r == parent.IncomingInSubgraph(subgraph)
    {
      parent.incomingHierarchyRelations.Get(subgraph.ToString())
    }

    /** Merges the structure properties with those of the parent edge; without one they stay. */
    method MergeStructurePropertiesWithParent()
      modifies this`properties
      ensures subgraph.ToString() in parent.incomingHierarchyRelations.items ==>
        properties == MergeWithParent(old(properties), Some(old(parent.incomingHierarchyRelations.items[subgraph.ToString()].properties)))
      ensures subgraph.ToString() !in parent.incomingHierarchyRelations.items ==> properties == old(properties)
    {
      var parentEdge := parent.incomingHierarchyRelations.Get(subgraph.ToString());
      if parentEdge.None? {
        return;
      }
      properties := MergeProperties(properties, parentEdge.value.properties);
    }

    /** `getNameForGraph()`: the name (empty for none), '@' and the subgraph hash. */
    function NameForGraph(): (r: RelationKey)
      ensures r.ForGraph? && r.subgraphHash == subgraphHash && r.name == NameKey(name)
    {
      ForGraph(NameKey(name), subgraphHash)
    }

    /** `getLocalIdentifier()`: the name for the graph when the relation is named, else the child's aggregate identifier. */
    function LocalIdentifier(): (r: RelationKey)
      ensures name.Some? ==> r == ForGraph(name.value, subgraphHash)
      ensures name.None? ==> r == ForChild(child.aggregateIdentifier)
    {
      if name.Some? then NameForGraph() else ForChild(child.aggregateIdentifier)
    }

    /** `getPosition()`: a string written by `setPosition` fails the declared `int` return type. */
    function GetPosition(): (r: Option<int>)
      reads this
      ensures r.Some? <==> position.Int?
      ensures r.Some? ==> r.value == position.i
    {
      if position.Int? then Some(position.i) else None
    }

    method SetPosition(newPosition: string)
      modifies this`position
      ensures position == Str(newPosition)
    {
      position := Str(newPosition);
    }

    /** `getProperty()`: null for a property that is not set. */
    function GetProperty(propertyName: string): (v: Value)
      reads this
      ensures propertyName !in properties ==> v == Null
      ensures propertyName in properties ==> v == properties[propertyName]
    {
      Property(properties, propertyName)
    }

    /** `setProperty()`: the property reads back as written, every other as before. */
    method SetProperty(propertyName: string, value: Value)
      modifies this`properties
      ensures properties == old(properties)[propertyName := value]
    {
      properties := properties[propertyName := value];
    }
  }

  class ReferenceRelation {
    const source: Node
    const target: NodeAggregate
    const position: int
    const name: Option<string>
    var properties: Properties

    /** Position 0, no name and no properties unless given. */
    constructor(source: Node, target: NodeAggregate, position: int := 0, name: Option<string> := None,
                properties: Properties := map[])
      ensures this.source == source && this.target == target
      ensures this.position == position && this.name == name && this.properties == properties
    {
      this.source := source;
      this.target := target;
      this.position := position;
      this.name := name;
      this.properties := properties;
    }

    /** `getProperty()`: null for a property that is not set. */
    function GetProperty(propertyName: string): (v: Value)
      reads this
      ensures propertyName !in properties ==> v == Null
      ensures propertyName in properties ==> v == properties[propertyName]
    {
      Property(properties, propertyName)
    }

    /** `setProperty()`: the property reads back as written, every other as before. */
    method SetProperty(propertyName: string, value: Value)
      modifies this`properties
      ensures GetProperty(propertyName) == value
      ensures forall other :: other != propertyName ==> GetProperty(other) == old(GetProperty(other))
      ensures properties == old(properties)[propertyName := value]
    {
      properties := properties[propertyName := value];
    }
  }

  /** The two kinds of operand `===` compares here: an object and a string are never identical. */
  datatype Operand = ObjectOf(text: string) | PhpString(s: string)

  /** PHP's `===`: same type and same value. */
  predicate Identical(a: Operand, b: Operand) {
    a == b
  }

  class NodeAggregate {
    /** The string form of the aggregate's identifier object. */
    const identifier: string
    var nodes: Arr<Digest, Node>
    var nodesWithoutWorkspace: seq<Node>
    var shadowNodes: Arr<Digest, Node>

    /** The three groups of variants. */
    function State(): Partitioning.Partition<Node>
      reads this
    {
      Partitioning.Partition(nodes, nodesWithoutWorkspace, shadowNodes)
    }

    constructor(identifier: string, batch: seq<Node>)
      ensures this.identifier == identifier
      ensures State() == Partitioning.AddAll(Partitioning.EmptyPartition(), batch, DataOf, WORKSPACE_DIMENSION)
    {
      this.identifier := identifier;
      nodes := Empty();
      nodesWithoutWorkspace := [];
      shadowNodes := Empty();
      new;
      AddNodes(batch);
    }

    /**
     * Files each node of the batch in order, naming the workspace dimension
     * '_workspace', the identifier the workspace-based dimension source gives
     * that dimension.
     */
    method AddNodes(batch: seq<Node>)
      modifies this
      ensures State() == Partitioning.AddAll(old(State()), batch, DataOf, WORKSPACE_DIMENSION)
    {
      for i := 0 to |batch|
        invariant State() == Partitioning.AddAll(old(State()), batch[..i], DataOf, WORKSPACE_DIMENSION)
      {
        var node := batch[i];
        if node.data.workspace.None? {
          nodesWithoutWorkspace := nodesWithoutWorkspace + [node];
        } else {
          var hash := ReadAggregateKey(node.data, WORKSPACE_DIMENSION);
          if node.data.movedTo {
            shadowNodes := shadowNodes.Put(hash, node);
          } else {
            nodes := nodes.Put(hash, node);
          }
        }
        assert batch[..i + 1][..i] == batch[..i];
      }
      assert batch[..|batch|] == batch;
    }

    /**
     * `addNodes` as written: the key of a node with a workspace names the
     * workspace dimension by a class constant that the dimension source does
     * not declare, so the first such node ends the call with an error. The
     * nodes without a workspace before it have been kept.
     */
    method AddNodesAsWritten(batch: seq<Node>) returns (failure: Option<Failure>)
      modifies this
      ensures failure.Some? <==> exists i :: 0 <= i < |batch| && batch[i].data.workspace.Some?
      ensures failure.Some? ==> failure.value == UndeclaredConstant
      ensures nodesWithoutWorkspace == old(nodesWithoutWorkspace) + batch[..LeadingWithoutWorkspace(batch)]
      ensures nodes == old(nodes) && shadowNodes == old(shadowNodes)
    {
      failure := None;
      for i := 0 to |batch|
        invariant forall j :: 0 <= j < i ==> batch[j].data.workspace.None?
        invariant nodesWithoutWorkspace == old(nodesWithoutWorkspace) + batch[..i]
        invariant nodes == old(nodes) && shadowNodes == old(shadowNodes)
      {
        if batch[i].data.workspace.Some? {
          LeadingWithoutWorkspaceStops(batch, i);
          return Some(UndeclaredConstant);
        }
        nodesWithoutWorkspace := nodesWithoutWorkspace + [batch[i]];
        assert batch[..i + 1] == batch[..i] + [batch[i]];
      }
      LeadingWithoutWorkspaceAll(batch);
    }

    /** Removes the primary variant at a point; shadow and workspace-less variants stay. */
    method RemoveNode(point: Point)
      modifies this
      ensures PointHash(point) in old(nodes.items) ==> nodes == old(nodes).Unset(PointHash(point))
      ensures PointHash(point) !in old(nodes.items) ==> nodes == old(nodes)
      ensures nodes.items == old(nodes.items) - {PointHash(point)}
      ensures nodesWithoutWorkspace == old(nodesWithoutWorkspace) && shadowNodes == old(shadowNodes)
    {
      if PointHash(point) in nodes.items {
        nodes := nodes.Unset(PointHash(point));
      }
    }

    /** The primary variant filed under the point's hash, if any. */
    function GetNodeByDimensionSpacePoint(point: Point): (r: Option<Node>)
      reads this
      ensures r.Some? <==> PointHash(point) in nodes.items
      ensures r.Some? ==> r.value == nodes.items[PointHash(point)]
    {
      nodes.Get(PointHash(point))
    }

    /** The shadow variant filed under the point's hash, if any. */
    function GetShadowNodeByDimensionSpacePoint(point: Point): (r: Option<Node>)
      reads this
      ensures r.Some? <==> PointHash(point) in shadowNodes.items
      ensures r.Some? ==> r.value == shadowNodes.items[PointHash(point)]
    {
      shadowNodes.Get(PointHash(point))
    }

    /** The primary variants whose workspace is `w`, in filing order. */
    method GetNodesByWorkspace(w: Workspace) returns (r: seq<Node>)
      ensures r == Partitioning.InWorkspace(nodes.Values(), DataOf, w)
    {
      var all := nodes.Values();
      r := [];
      for i := 0 to |all|
        invariant r == Partitioning.InWorkspace(all[..i], DataOf, w)
      {
        if all[i].data.workspace == Some(w) {
          r := r + [all[i]];
        }
        assert all[..i + 1][..i] == all[..i];
      }
      assert all[..|all|] == all;
    }

    /**
     * `isRoot()`: compares the identifier object with the root identifier
     * string by `===`, which never holds, whatever the identifier.
     */
    predicate IsRoot()
      ensures !IsRoot()
    {
      Identical(ObjectOf(identifier), PhpString(ROOT_IDENTIFIER))
    }

    /** The number of primary variants. */
    function Count(): (c: nat)
      reads this
      ensures c == |nodes.items|
    {
      nodes.Count()
    }

    /** Whether there is no primary variant. */
    predicate IsEmpty()
      reads this
      ensures IsEmpty() <==> nodes.items == map[]
    {
      Count() == 0
    }
  }

  /** The length of the longest prefix of the batch whose nodes have no workspace. */
  function LeadingWithoutWorkspace(batch: seq<Node>): (n: nat)
    ensures n <= |batch|
  {
    if batch == [] || batch[0].data.workspace.Some? then 0 else 1 + LeadingWithoutWorkspace(batch[1..])
  }

  lemma {:induction false} LeadingWithoutWorkspaceStops(batch: seq<Node>, i: nat)
    requires i < |batch| && batch[i].data.workspace.Some?
    requires forall j :: 0 <= j < i ==> batch[j].data.workspace.None?
    ensures LeadingWithoutWorkspace(batch) == i
  {
    if i > 0 {
      LeadingWithoutWorkspaceStops(batch[1..], i - 1);
    }
  }

  lemma {:induction false} LeadingWithoutWorkspaceAll(batch: seq<Node>)
    requires forall j :: 0 <= j < |batch| ==> batch[j].data.workspace.None?
    ensures LeadingWithoutWorkspace(batch) == |batch|
  {
    if batch != [] {
      LeadingWithoutWorkspaceAll(batch[1..]);
    }
  }

  /**
   * Where `addNodes` as written keeps a batch and the corrected one would
   * file it differently: every node with a workspace is filed under its key
   * by `AddNodes`, while the written call fails at the first of them.
   */
  lemma AsWrittenLosesWorkspaceNodes(p: Partitioning.Partition<Node>, batch: seq<Node>, i: nat)
    requires i < |batch| && batch[i].data.workspace.Some? && !batch[i].data.movedTo
    requires forall j :: i < j < |batch| ==> !Partitioning.IsPrimaryAt(batch[j], AggregateKey(batch[i].data, WORKSPACE_DIMENSION), DataOf, WORKSPACE_DIMENSION)
    ensures var key := AggregateKey(batch[i].data, WORKSPACE_DIMENSION);
      Partitioning.AddAll(p, batch, DataOf, WORKSPACE_DIMENSION).nodes.Get(key) == Some(batch[i])
    ensures LeadingWithoutWorkspace(batch) <= i
  {
    Partitioning.LastPrimaryWins(p, batch, DataOf, WORKSPACE_DIMENSION, i, AggregateKey(batch[i].data, WORKSPACE_DIMENSION));
    if LeadingWithoutWorkspace(batch) > i {
      LeadingPrefixHasNoWorkspace(batch, i);
    }
  }

  lemma {:induction false} LeadingPrefixHasNoWorkspace(batch: seq<Node>, i: nat)
    requires i < LeadingWithoutWorkspace(batch)
    ensures batch[i].data.workspace.None?
  {
    if i > 0 {
      LeadingPrefixHasNoWorkspace(batch[1..], i - 1);
    }
  }
}
