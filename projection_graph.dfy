/**
 * ContentGraph of the newer generation. Building it connects each node to
 * its parent in every subgraph it is assigned to, indexes it by cache entry
 * identifier, and creates the reference relations its record asks for.
 *
 * The PHP constructor does all of this at once. Here the constructor stores
 * the subgraphs and aggregates, and `Initialize` does the rest, so that the
 * failures a record can cause on the way are results.
 */
module ProjectionGraphs {
  import opened Wrappers
  import opened PhpArrays
  import opened Content
  import opened StructureMerge
  import opened ProjectionNodes
  import opened ProjectionSubgraphs
  import opened Registries
  import opened ProjectionRegistry
  import ProjectionSubgraphIdentifier
  import NodeIndexTraversal

  // ---------------------------------------------------------------------
  // Reference relations, as values
  // ---------------------------------------------------------------------

  /** `isset($configuration['type']) && in_array($configuration['type'], ['references', 'reference'])` */
  predicate IsReferenceProperty(c: PropertyConfiguration) {
    c.typeName == Some("references") || c.typeName == Some("reference")
  }

  /**
   * The aggregate identifiers a reference property's value lists, by index.
   * A falsy value lists none and a single string lists itself. Any other
   * value that is not a list is handed to the `string` parameter of
   * `getNodeAggregate` and fails it.
   */
  function ReferenceTargets(v: Value): Result<seq<string>> {
    if !Truthy(v) then Ok([])
    else if v.Str? then Ok([v.s])
    else if v.List? then Ok(v.elems)
    else Err(TypeError)
  }

  /** One reference relation to create: the property, the target's index in its value, and the target aggregate's identifier. */
  datatype Reference = Reference(name: string, index: nat, target: string)

  /** The references to those of the first `n` targets that name a known aggregate, in order. */
  function ReferencesAmong(name: string, targets: seq<string>, n: nat, known: set<string>): seq<Reference>
    requires n <= |targets|
  {
    if n == 0 then []
    else ReferencesAmong(name, targets, n - 1, known) + (if targets[n - 1] in known then [Reference(name, n - 1, targets[n - 1])] else [])
  }

  /**
   * The references the first `n` properties of a node type ask for, in
   * order. The result is a failure as soon as the value of one reference
   * property cannot be read as targets.
   */
  function ReferencesUpTo(properties: PhpArray<string, PropertyConfiguration>, n: nat, d: NodeData, known: set<string>): Result<seq<Reference>>
    requires n <= |properties.order|
  {
    if n == 0 then Ok([])
    else
      var before := ReferencesUpTo(properties, n - 1, d, known);
      var name := properties.order[n - 1];
      if before.Err? || name !in properties.items || !IsReferenceProperty(properties.items[name]) then before
      else
        var targets := ReferenceTargets(RecordProperty(d, name));
        if targets.Err? then Err(targets.failure)
        else Ok(before.value + ReferencesAmong(name, targets.value, |targets.value|, known))
  }

  /** The references a record asks for, given the identifiers of the known aggregates. */
  function ReferencesOf(d: NodeData, known: set<string>): Result<seq<Reference>> {
    ReferencesUpTo(d.nodeType.properties, |d.nodeType.properties.order|, d, known)
  }

  /**
   * A reference the record asks for: a reference property of its type,
   * one of the targets its value lists, and a known aggregate there.
   */
  ghost predicate Asks(properties: PhpArray<string, PropertyConfiguration>, n: nat, d: NodeData, known: set<string>, r: Reference)
    requires n <= |properties.order|
  {
    && r.name in properties.order[..n]
    && r.name in properties.items
    && IsReferenceProperty(properties.items[r.name])
    && ReferenceTargets(RecordProperty(d, r.name)).Ok?
    && r.index < |ReferenceTargets(RecordProperty(d, r.name)).value|
    && ReferenceTargets(RecordProperty(d, r.name)).value[r.index] == r.target
    && r.target in known
  }

  /** The references among targets are exactly those to known aggregates, with their indexes. */
  lemma {:induction false} ReferencesAmongExactly(name: string, targets: seq<string>, n: nat, known: set<string>, r: Reference)
    requires n <= |targets|
    ensures r in ReferencesAmong(name, targets, n, known) <==>
      r.name == name && r.index < n && targets[r.index] == r.target && r.target in known
  {
    if n > 0 {
      ReferencesAmongExactly(name, targets, n - 1, known, r);
    }
  }

  /**
   * When no property fails, the references created are exactly those the
   * record asks for: nothing else, and nothing left out.
   */
  lemma {:induction false} ReferencesUpToExactly(properties: PhpArray<string, PropertyConfiguration>, n: nat, d: NodeData, known: set<string>, r: Reference)
    requires n <= |properties.order|
    requires ReferencesUpTo(properties, n, d, known).Ok?
    ensures r in ReferencesUpTo(properties, n, d, known).value <==> Asks(properties, n, d, known, r)
  {
    if n > 0 {
      var name := properties.order[n - 1];
      ReferencesUpToExactly(properties, n - 1, d, known, r);
      assert properties.order[..n] == properties.order[..n - 1] + [name];
      if name in properties.items && IsReferenceProperty(properties.items[name]) {
        var targets := ReferenceTargets(RecordProperty(d, name)).value;
        ReferencesAmongExactly(name, targets, |targets|, known, r);
      }
    }
  }

  /** Creating the references fails exactly when one reference property holds a value that cannot be read as targets. */
  lemma {:induction false} ReferencesUpToFails(properties: PhpArray<string, PropertyConfiguration>, n: nat, d: NodeData, known: set<string>)
    requires n <= |properties.order|
    ensures ReferencesUpTo(properties, n, d, known).Err? <==>
      exists k :: 0 <= k < n && properties.order[k] in properties.items && IsReferenceProperty(properties.items[properties.order[k]])
        && ReferenceTargets(RecordProperty(d, properties.order[k])).Err?
  {
    if n > 0 {
      ReferencesUpToFails(properties, n - 1, d, known);
      var name := properties.order[n - 1];
      if name in properties.items && IsReferenceProperty(properties.items[name]) && ReferenceTargets(RecordProperty(d, name)).Err? {
        assert properties.order[n - 1] == name;
      }
    }
  }

  /** Once a property has failed, the properties after it change nothing: the whole result is that failure. */
  lemma {:induction false} ReferencesStayFailed(properties: PhpArray<string, PropertyConfiguration>, n: nat, m: nat, d: NodeData, known: set<string>)
    requires n <= m <= |properties.order|
    requires ReferencesUpTo(properties, n, d, known).Err?
    ensures ReferencesUpTo(properties, m, d, known) == ReferencesUpTo(properties, n, d, known)
  {
    if n < m {
      ReferencesStayFailed(properties, n, m - 1, d, known);
    }
  }

  /** The reference relations `rels` are those `refs` describe, from `source` to the aggregates of `index`. */
  predicate Describes(rels: seq<ReferenceRelation>, refs: seq<Reference>, source: Node, index: Arr<string, NodeAggregate>) {
    && |rels| == |refs|
    && forall k :: 0 <= k < |rels| ==>
      && rels[k].source == source
      && rels[k].name == Some(refs[k].name)
      && rels[k].position == refs[k].index
      && refs[k].target in index.items
      && rels[k].target == index.items[refs[k].target]
  }

  /** Relations appended after described ones, described by references appended in the same order. */
  lemma DescribesAppend(rels: seq<ReferenceRelation>, more: seq<ReferenceRelation>, refs: seq<Reference>, moreRefs: seq<Reference>,
                        source: Node, index: Arr<string, NodeAggregate>)
    requires Describes(rels, refs, source, index) && Describes(more, moreRefs, source, index)
    ensures Describes(rels + more, refs + moreRefs, source, index)
  {
    forall k | |rels| <= k < |rels| + |more|
      ensures (rels + more)[k] == more[k - |rels|] && (refs + moreRefs)[k] == moreRefs[k - |rels|]
    {
    }
  }

  /** `x` repeated `n` times. */
  function Repeat<T>(x: T, n: nat): (r: seq<T>)
    ensures |r| == n
  {
    if n == 0 then [] else Repeat(x, n - 1) + [x]
  }

  /** How often `x` is listed in `s`, counted from the front. */
  function Occurrences<T(==)>(s: seq<T>, x: T): nat
  {
    if s == [] then 0 else Occurrences(s[..|s| - 1], x) + (if s[|s| - 1] == x then 1 else 0)
  }

  /** Counting from the front agrees with the multiplicity in the multiset of `s`. */
  lemma {:induction false} OccurrencesCount<T>(s: seq<T>, x: T)
    ensures Occurrences(s, x) == multiset(s)[x]
  {
    if s != [] {
      OccurrencesCount(s[..|s| - 1], x);
      assert s == s[..|s| - 1] + [s[|s| - 1]];
    }
  }

  /**
   * Some relation in `relations` lies in a subgraph the source's incoming
   * relations `sourceIncoming` are filed under: the candidate owning
   * `relations` shares a subgraph with the source.
   */
  predicate SharesSubgraph(relations: seq<HierarchyRelation>, sourceIncoming: Arr<Digest, HierarchyRelation>) {
    relations != [] && (relations[0].subgraph.ToString() in sourceIncoming.items || SharesSubgraph(relations[1..], sourceIncoming))
  }

  /** Sharing a subgraph means some relation lies in a subgraph the source is connected in. */
  lemma {:induction false} SharesSubgraphExactly(relations: seq<HierarchyRelation>, sourceIncoming: Arr<Digest, HierarchyRelation>)
    ensures SharesSubgraph(relations, sourceIncoming) <==>
      exists k :: 0 <= k < |relations| && relations[k].subgraph.ToString() in sourceIncoming.items
  {
    if relations != [] {
      SharesSubgraphExactly(relations[1..], sourceIncoming);
      if SharesSubgraph(relations[1..], sourceIncoming) {
        var k :| 0 <= k < |relations[1..]| && relations[1..][k].subgraph.ToString() in sourceIncoming.items;
        assert relations[k + 1] == relations[1..][k];
      }
      if exists k :: 0 <= k < |relations| && relations[k].subgraph.ToString() in sourceIncoming.items {
        var k :| 0 <= k < |relations| && relations[k].subgraph.ToString() in sourceIncoming.items;
        if k > 0 {
          assert relations[1..][k - 1] == relations[k];
        }
      }
    }
  }

  // ---------------------------------------------------------------------
  // The node index
  // ---------------------------------------------------------------------

  /** Every one of the first `n` nodes has a cache entry identifier. */
  predicate AllCacheable(nodes: seq<Node>, n: nat)
    requires n <= |nodes|
  {
    forall k :: 0 <= k < n ==> nodes[k].CacheEntryIdentifier().Some?
  }

  /** The node index after writing the first `n` nodes under their cache entry identifiers. */
  function IndexedUpTo(start: Option<Arr<Digest, Node>>, nodes: seq<Node>, n: nat): Option<Arr<Digest, Node>>
    requires n <= |nodes| && AllCacheable(nodes, n)
  {
    if n == 0 then start
    else Some(IndexedUpTo(start, nodes, n - 1).GetOr(Empty()).Put(nodes[n - 1].CacheEntryIdentifier().value, nodes[n - 1]))
  }

  /**
   * After the nodes are written, each of them is filed under its cache
   * entry identifier, with the last node that has that identifier.
   */
  lemma {:induction false} IndexedHoldsEach(start: Option<Arr<Digest, Node>>, nodes: seq<Node>, n: nat, i: nat)
    requires n <= |nodes| && AllCacheable(nodes, n) && i < n
    requires forall j :: i < j < n ==> nodes[j].CacheEntryIdentifier() != nodes[i].CacheEntryIdentifier()
    ensures IndexedUpTo(start, nodes, n).Some?
    ensures nodes[i].CacheEntryIdentifier().value in IndexedUpTo(start, nodes, n).value.items
    ensures IndexedUpTo(start, nodes, n).value.items[nodes[i].CacheEntryIdentifier().value] == nodes[i]
  {
    if i < n - 1 {
      IndexedHoldsEach(start, nodes, n - 1, i);
    }
  }

  /** The subgraphs are filed under their own identifiers' string forms. */
  predicate KeyedByIdentifier(subgraphs: Arr<Digest, ContentSubgraph>) {
    forall h :: h in subgraphs.items ==> subgraphs.items[h].identifier.ToString() == h
  }

  function IsInternal(n: Node): bool {
    n.data.isInternal
  }

  // ---------------------------------------------------------------------
  // Frames
  // ---------------------------------------------------------------------

  /** The node the registry assigns to the parent path of `node` in the subgraph, as a set of at most one. */
  function ParentFrame(nodeAssignments: NodeAssignmentRegistry, node: Node, subgraphIdentifier: SubgraphIdentifier): set<Node>
    reads nodeAssignments
  {
    var parent := nodeAssignments.GetNodeByPathAndSubgraphIdentifier(node.data.parentPath, subgraphIdentifier);
    if parent.Some? then {parent.value} else {}
  }

  /** Every node the registry assigns to some path in some subgraph. */
  ghost function RegistryNodes(nodesByPath: NodesByPath<Node>): set<Node> {
    set p, h | p in nodesByPath.items && h in nodesByPath.items[p].items :: nodesByPath.items[p].items[h]
  }

  /**
   * The subgraphs the registry's `subgraphsByPath` assigns the node to, in
   * order; `[]` for a node without a cache entry identifier.
   */
  function AssignedSubgraphs(subgraphsByPath: SubgraphsByPath<Digest, SubgraphIdentifier>, node: Node): seq<SubgraphIdentifier> {
    if node.CacheEntryIdentifier().None? then []
    else SubgraphsAt(subgraphsByPath, node.data.path, node.CacheEntryIdentifier().value).Values()
  }

  /**
   * Among the incoming relations `incoming` of `node`, the one filed under
   * the subgraph's string form comes from `parent` and carries the node's
   * name.
   */
  predicate ConnectedIn(incoming: Arr<Digest, HierarchyRelation>, node: Node, parent: Node, subgraphIdentifier: SubgraphIdentifier) {
    var hash := subgraphIdentifier.ToString();
    && hash in incoming.items
    && incoming.items[hash].parent == parent
    && incoming.items[hash].child == node
    && incoming.items[hash].name == Some(node.data.name)
  }

  /**
   * The node is connected to its parent in every subgraph the registry
   * assigns it to and gives it a parent in (nothing is asked of the root
   * node or of a node without cache entry identifier).
   */
  predicate Assigned(nodesByPath: NodesByPath<Node>, subgraphsByPath: SubgraphsByPath<Digest, SubgraphIdentifier>,
                     node: Node, incoming: Arr<Digest, HierarchyRelation>)
  {
    node.data.path != ROOT_PATH && node.CacheEntryIdentifier().Some? ==>
      AssignedFrom(nodesByPath, subgraphsByPath, node, incoming, 0)
  }

  /**
   * Among `incoming`, the node is connected to its parent in each of the
   * subgraphs it is assigned to, from the `n`th on, in which the registry
   * gives it a parent.
   */
  predicate AssignedFrom(nodesByPath: NodesByPath<Node>, subgraphsByPath: SubgraphsByPath<Digest, SubgraphIdentifier>,
                         node: Node, incoming: Arr<Digest, HierarchyRelation>, n: nat)
    decreases |AssignedSubgraphs(subgraphsByPath, node)| - n
  {
    var ids := AssignedSubgraphs(subgraphsByPath, node);
    n < |ids| ==>
      var parents := ParentsOf(nodesByPath, node.data.parentPath, ids);
      (parents[n].Some? ==> ConnectedIn(incoming, node, parents[n].value, ids[n]))
        && AssignedFrom(nodesByPath, subgraphsByPath, node, incoming, n + 1)
  }

  /** Assigned from the `n`th subgraph on means connected in each later subgraph that has a parent. */
  lemma {:induction false} AssignedFromExactly(nodesByPath: NodesByPath<Node>, subgraphsByPath: SubgraphsByPath<Digest, SubgraphIdentifier>,
                                               node: Node, incoming: Arr<Digest, HierarchyRelation>, n: nat)
    ensures var ids := AssignedSubgraphs(subgraphsByPath, node);
      var parents := ParentsOf(nodesByPath, node.data.parentPath, ids);
      AssignedFrom(nodesByPath, subgraphsByPath, node, incoming, n) <==>
        forall k :: n <= k < |ids| && parents[k].Some? ==> ConnectedIn(incoming, node, parents[k].value, ids[k])
    decreases |AssignedSubgraphs(subgraphsByPath, node)| - n
  {
    if n < |AssignedSubgraphs(subgraphsByPath, node)| {
      AssignedFromExactly(nodesByPath, subgraphsByPath, node, incoming, n + 1);
    }
  }

  /** The node the registry's `nodesByPath` assigns to `parentPath` in each of the subgraphs, in order. */
  function ParentsOf(nodesByPath: NodesByPath<Node>, parentPath: string, ids: seq<SubgraphIdentifier>): (r: seq<Option<Node>>)
    ensures |r| == |ids|
    ensures forall k :: 0 <= k < |ids| ==> r[k] == NodeAt(nodesByPath, parentPath, ids[k].ToString())
  {
    if ids == [] then []
    else ParentsOf(nodesByPath, parentPath, ids[..|ids| - 1]) + [NodeAt(nodesByPath, parentPath, ids[|ids| - 1].ToString())]
  }

  /**
   * Connecting a node in the `i`th subgraph keeps it connected in the ones
   * before: a relation filed under the same string form lies in the same
   * subgraph and so comes from the same parent.
   */
  lemma ConnectingKeepsConnected(before: Arr<Digest, HierarchyRelation>, after: Arr<Digest, HierarchyRelation>, node: Node,
                                 ids: seq<SubgraphIdentifier>, parents: seq<Option<Node>>, i: nat)
    requires |parents| == |ids| && i < |ids|
    requires forall k :: 0 <= k < i && ids[k] == ids[i] ==> parents[k] == parents[i]
    requires forall k :: 0 <= k < i && parents[k].Some? ==> ConnectedIn(before, node, parents[k].value, ids[k])
    requires parents[i].None? ==> after == before
    requires parents[i].Some? ==> ConnectedIn(after, node, parents[i].value, ids[i])
    requires parents[i].Some? ==> after == before.Put(ids[i].ToString(), after.items[ids[i].ToString()])
    ensures forall k :: 0 <= k < i + 1 && parents[k].Some? ==> ConnectedIn(after, node, parents[k].value, ids[k])
  {
    forall k | 0 <= k < i && parents[k].Some?
      ensures ConnectedIn(after, node, parents[k].value, ids[k])
    {
      ProjectionSubgraphIdentifier.StringFormIdentifies(ids[k], ids[i]);
    }
  }

  /** The parent the registry assigns is one of the registry's nodes. */
  lemma ParentInRegistry(nodeAssignments: NodeAssignmentRegistry, node: Node, id: SubgraphIdentifier)
    ensures ParentFrame(nodeAssignments, node, id) <= RegistryNodes(nodeAssignments.nodesByPathAndSubgraph)
  {
    var parent := nodeAssignments.GetNodeByPathAndSubgraphIdentifier(node.data.parentPath, id);
    if parent.Some? {
      assert parent.value == nodeAssignments.nodesByPathAndSubgraph.items[node.data.parentPath].items[id.ToString()];
    }
  }

  class ContentGraph {
    /** subgraph string form to subgraph */
    const subgraphs: Arr<Digest, ContentSubgraph>
    /** cache entry identifier to node; null until written */
    var nodeIndex: Option<Arr<Digest, Node>>
    /** aggregate identifier to aggregate */
    var nodeAggregateIndex: Arr<string, NodeAggregate>

    /** Stores the subgraphs and aggregates; the node index is null until `Initialize` writes it. */
    constructor(subgraphs: Arr<Digest, ContentSubgraph>, nodeAggregates: Arr<string, NodeAggregate>)
      ensures this.subgraphs == subgraphs && nodeAggregateIndex == nodeAggregates && nodeIndex == None
    {
      this.subgraphs := subgraphs;
      nodeAggregateIndex := nodeAggregates;
      nodeIndex := None;
    }

    /** Every node of every known aggregate's primary variants. */
    ghost function AggregateNodes(): set<Node>
      reads this`nodeAggregateIndex, nodeAggregateIndex.items.Values`nodes
    {
      set a, n | a in nodeAggregateIndex.items.Values && n in a.nodes.items.Values :: n
    }

    /** A node's parent in the subgraph can be connected to it: there is none, or the subgraph is known and the node has an index. */
    predicate Connectable(nodeAssignments: NodeAssignmentRegistry, node: Node, subgraphIdentifier: SubgraphIdentifier)
      reads nodeAssignments
    {
      nodeAssignments.GetNodeByPathAndSubgraphIdentifier(node.data.parentPath, subgraphIdentifier).Some? ==>
        subgraphIdentifier.ToString() in subgraphs.items && node.data.index.Some?
    }

    /**
     * One subgraph of one node: when the registry assigns a node to the
     * parent path in the subgraph, a relation from it to `node` is created,
     * carrying the node's index, name and visibility and access values,
     * merged with the parent's own incoming relation there; it is filed as
     * the node's incoming and the parent's outgoing relation in the subgraph.
     * A subgraph that is not in the graph, or a node without index, fails
     * the relation's constructor before anything is created.
     */
    method AssignHierarchyRelation(node: Node, subgraphIdentifier: SubgraphIdentifier, nodeAssignments: NodeAssignmentRegistry)
      returns (failure: Option<Failure>)
      modifies node`incomingHierarchyRelations, ParentFrame(nodeAssignments, node, subgraphIdentifier)`outgoingHierarchyRelations
      ensures failure.None? <==> Connectable(nodeAssignments, node, subgraphIdentifier)
      ensures failure.Some? ==> failure == Some(TypeError)
      ensures var parent := nodeAssignments.GetNodeByPathAndSubgraphIdentifier(node.data.parentPath, subgraphIdentifier);
        parent.None? || failure.Some? ==> node.incomingHierarchyRelations == old(node.incomingHierarchyRelations)
      ensures var parent := nodeAssignments.GetNodeByPathAndSubgraphIdentifier(node.data.parentPath, subgraphIdentifier);
        var hash := subgraphIdentifier.ToString();
        parent.Some? && failure.None? ==>
          && hash in node.incomingHierarchyRelations.items
          && var relation := node.incomingHierarchyRelations.items[hash];
          && fresh(relation)
          && node.incomingHierarchyRelations == old(node.incomingHierarchyRelations).Put(hash, relation)
          && parent.value.outgoingHierarchyRelations == PutIn(old(parent.value.outgoingHierarchyRelations), hash, relation.LocalIdentifier(), relation)
          && relation.parent == parent.value && relation.child == node
          && relation.subgraph == subgraphs.items[hash].identifier && relation.subgraphHash == hash
          && relation.position == Int(node.data.index.value) && relation.name == Some(node.data.name)
          && var parentHash := subgraphs.items[hash].identifier.ToString();
          && (parentHash in old(parent.value.incomingHierarchyRelations.items) ==>
                relation.properties == MergeWithParent(Seed(node.data), Some(old(parent.value.incomingHierarchyRelations.items[parentHash].properties))))
          && (parentHash !in old(parent.value.incomingHierarchyRelations.items) ==> relation.properties == Seed(node.data))
    {
      var parent := nodeAssignments.GetNodeByPathAndSubgraphIdentifier(node.data.parentPath, subgraphIdentifier);
      if parent.None? {
        return None;
      }
      var hash := subgraphIdentifier.ToString();
      if hash !in subgraphs.items || node.data.index.None? {
        return Some(TypeError);
      }
      var parentNode := parent.value;
      var subgraph := subgraphs.items[hash];
      var relation := new HierarchyRelation(parentNode, node, subgraph.identifier, hash, node.data.index.value, Some(node.data.name), Seed(node.data));
      node.RegisterIncomingHierarchyRelation(relation);
      parentNode.RegisterOutgoingHierarchyRelation(relation);
      failure := None;
    }
    /**
     * The first loop's body for one node: a node off the root path is
     * connected to its parent in every subgraph the registry assigns it to.
     * Asking a node without workspace for its cache entry identifier fails
     * on null.
     */
    method AssignHierarchyRelations(node: Node, nodeAssignments: NodeAssignmentRegistry) returns (failure: Option<Failure>)
      modifies node`incomingHierarchyRelations, RegistryNodes(nodeAssignments.nodesByPathAndSubgraph)`outgoingHierarchyRelations
      ensures node.data.path == ROOT_PATH ==> failure.None? && node.incomingHierarchyRelations == old(node.incomingHierarchyRelations)
      ensures node.data.path != ROOT_PATH && node.CacheEntryIdentifier().None? ==> failure == Some(CallOnNull)
      ensures node.data.path != ROOT_PATH && node.CacheEntryIdentifier().Some? ==>
        var ids := AssignedSubgraphs(nodeAssignments.subgraphsByPathAndNodeIdentifier, node);
        && (failure.None? <==> forall k :: 0 <= k < |ids| ==> Connectable(nodeAssignments, node, ids[k]))
        && (failure.Some? ==> failure == Some(TypeError))
      ensures failure.None? ==> Assigned(nodeAssignments.nodesByPathAndSubgraph, nodeAssignments.subgraphsByPathAndNodeIdentifier, node, node.incomingHierarchyRelations)
    {
      if node.data.path == ROOT_PATH {
        return None;
      }
      var cacheEntry := node.CacheEntryIdentifier();
      if cacheEntry.None? {
        return Some(CallOnNull);
      }
      var ids := nodeAssignments.GetSubgraphIdentifiersByPathAndNodeIdentifier(node.data.path, cacheEntry.value).Values();
      assert ids == AssignedSubgraphs(nodeAssignments.subgraphsByPathAndNodeIdentifier, node);
      failure := AssignInSubgraphs(node, ids, nodeAssignments);
      AssignedFromExactly(nodeAssignments.nodesByPathAndSubgraph, nodeAssignments.subgraphsByPathAndNodeIdentifier, node, node.incomingHierarchyRelations, 0);
    }

    /** The inner loop of the first loop: `node` connected in each of the subgraphs `ids` in turn, up to the first failure. */
    method AssignInSubgraphs(node: Node, ids: seq<SubgraphIdentifier>, nodeAssignments: NodeAssignmentRegistry) returns (failure: Option<Failure>)
      modifies node`incomingHierarchyRelations, RegistryNodes(nodeAssignments.nodesByPathAndSubgraph)`outgoingHierarchyRelations
      ensures failure.None? <==> forall k :: 0 <= k < |ids| ==> Connectable(nodeAssignments, node, ids[k])
      ensures failure.Some? ==> failure == Some(TypeError)
      ensures failure.None? ==> var parents := ParentsOf(nodeAssignments.nodesByPathAndSubgraph, node.data.parentPath, ids);
        forall k :: 0 <= k < |ids| && parents[k].Some? ==> ConnectedIn(node.incomingHierarchyRelations, node, parents[k].value, ids[k])
    {
      ghost var parents := ParentsOf(nodeAssignments.nodesByPathAndSubgraph, node.data.parentPath, ids);
      for i := 0 to |ids|
        invariant forall k :: 0 <= k < i ==> Connectable(nodeAssignments, node, ids[k])
        invariant forall k :: 0 <= k < i && parents[k].Some? ==> ConnectedIn(node.incomingHierarchyRelations, node, parents[k].value, ids[k])
      {
        var id := ids[i];
        ParentInRegistry(nodeAssignments, node, id);
        label before:
        var f := AssignHierarchyRelation(node, id, nodeAssignments);
        if f.Some? {
          return f;
        }
        ConnectingKeepsConnected(old@before(node.incomingHierarchyRelations), node.incomingHierarchyRelations, node, ids, parents, i);
      }
      return None;
    }

    /**
     * `createSingleReferenceRelation()`: one relation from the source to the
     * target aggregate, recorded as the source's outgoing relation, and as
     * an incoming one of every primary variant of the target that is
     * connected in some subgraph the source is connected in as well (once
     * for each time the variant is listed).
     */
    method CreateSingleReferenceRelation(source: Node, referenceName: string, index: int, target: NodeAggregate)
      returns (relation: ReferenceRelation)
      modifies source`outgoingReferenceRelations, target.nodes.Values()`incomingReferenceRelations
      ensures fresh(relation)
      ensures relation.source == source && relation.target == target
      ensures relation.position == index && relation.name == Some(referenceName) && relation.properties == map[]
      ensures source.outgoingReferenceRelations == old(source.outgoingReferenceRelations) + [relation]
      ensures forall c :: c in target.nodes.Values() ==>
        c.incomingReferenceRelations == old(c.incomingReferenceRelations)
          + Repeat(relation, if SharesSubgraph(c.incomingHierarchyRelations.Values(), source.incomingHierarchyRelations) then multiset(target.nodes.Values())[c] else 0)
    {
      relation := new ReferenceRelation(source, target, index, Some(referenceName), map[]);
      source.RegisterOutgoingReferenceRelation(relation);
      Distribute(target.nodes.Values(), source, relation);
    }

    /**
     * The outer loop of `createSingleReferenceRelation()`: each candidate
     * in turn receives the relation when it shares a subgraph with the
     * source.
     */
    method Distribute(candidates: seq<Node>, source: Node, relation: ReferenceRelation)
      modifies candidates`incomingReferenceRelations
      ensures forall c :: c in candidates ==>
        c.incomingReferenceRelations == old(c.incomingReferenceRelations)
          + Repeat(relation, if SharesSubgraph(c.incomingHierarchyRelations.Values(), source.incomingHierarchyRelations) then multiset(candidates)[c] else 0)
    {
      ghost var receivers := set c | c in candidates && SharesSubgraph(c.incomingHierarchyRelations.Values(), source.incomingHierarchyRelations);
      for i := 0 to |candidates|
        invariant source.incomingHierarchyRelations == old(source.incomingHierarchyRelations)
        invariant forall c :: c in candidates ==> c.incomingHierarchyRelations == old(c.incomingHierarchyRelations)
        invariant forall c :: c in candidates ==>
          c.incomingReferenceRelations == old(c.incomingReferenceRelations)
            + Repeat(relation, if c in receivers then Occurrences(candidates[..i], c) else 0)
      {
        var candidate := candidates[i];
        assert candidates[..i + 1][..i] == candidates[..i];
        ghost var shares := SharesSubgraph(candidate.incomingHierarchyRelations.Values(), source.incomingHierarchyRelations);
        assert candidate in receivers <==> shares;
        ghost var n := Occurrences(candidates[..i], candidate);
        ghost var received := candidate.incomingReferenceRelations;
        label step:
        ReceiveIfShared(candidate, source, relation);
        assert candidate.incomingReferenceRelations == old(candidate.incomingReferenceRelations)
          + Repeat(relation, if candidate in receivers then n + 1 else 0);
        forall c | c in candidates
          ensures c.incomingReferenceRelations == old(c.incomingReferenceRelations)
            + Repeat(relation, if c in receivers then Occurrences(candidates[..i + 1], c) else 0)
        {
          if c != candidate {
            assert c.incomingReferenceRelations == old@step(c.incomingReferenceRelations);
          }
        }
      }
      assert candidates[..|candidates|] == candidates;
      forall c | c in candidates
        ensures Occurrences(candidates, c) == multiset(candidates)[c]
      {
        OccurrencesCount(candidates, c);
      }
    }

    /**
     * The inner loop of `createSingleReferenceRelation()`: the candidate
     * receives the relation as soon as one of its incoming hierarchy
     * relations lies in a subgraph the source has an incoming relation in.
     */
    method ReceiveIfShared(candidate: Node, source: Node, relation: ReferenceRelation)
      modifies candidate`incomingReferenceRelations
      ensures var shares := SharesSubgraph(candidate.incomingHierarchyRelations.Values(), source.incomingHierarchyRelations);
        candidate.incomingReferenceRelations == old(candidate.incomingReferenceRelations) + (if shares then [relation] else [])
    {
      var relations := candidate.incomingHierarchyRelations.Values();
      var j := 0;
      while j < |relations|
        invariant j <= |relations|
        invariant SharesSubgraph(relations, source.incomingHierarchyRelations) == SharesSubgraph(relations[j..], source.incomingHierarchyRelations)
        invariant candidate.incomingReferenceRelations == old(candidate.incomingReferenceRelations)
      {
        if source.IncomingInSubgraph(relations[j].subgraph).Some? {
          candidate.RegisterIncomingReferenceRelation(relation);
          return;
        }
        assert relations[j..][1..] == relations[j + 1..];
        j := j + 1;
      }
    }

    /** Each primary variant of a known aggregate is one of the aggregate nodes. */
    lemma AggregateNodesHold(a: NodeAggregate)
      requires a in nodeAggregateIndex.items.Values
      ensures forall c :: c in a.nodes.Values() ==> c in AggregateNodes()
    {
      forall c | c in a.nodes.Values()
        ensures c in AggregateNodes()
      {
        var k :| k in a.nodes.order && k in a.nodes.items && a.nodes.items[k] == c;
        assert c in a.nodes.items.Values;
      }
    }

    /**
     * The inner loop of `createReferenceRelations()` for one property: a
     * relation to each target that names a known aggregate, with the
     * target's index in the value.
     */
    method CreateReferencesAmong(source: Node, name: string, targets: seq<string>) returns (created: nat)
      modifies source`outgoingReferenceRelations, AggregateNodes()`incomingReferenceRelations
      ensures var refs := ReferencesAmong(name, targets, |targets|, nodeAggregateIndex.items.Keys);
        && created == |refs|
        && |source.outgoingReferenceRelations| == |old(source.outgoingReferenceRelations)| + created
        && source.outgoingReferenceRelations[..|old(source.outgoingReferenceRelations)|] == old(source.outgoingReferenceRelations)
        && Describes(source.outgoingReferenceRelations[|old(source.outgoingReferenceRelations)|..], refs, source, nodeAggregateIndex)
      ensures forall c :: c in AggregateNodes() ==> old(c.incomingReferenceRelations) <= c.incomingReferenceRelations
    {
      ghost var start := source.outgoingReferenceRelations;
      ghost var known := nodeAggregateIndex.items.Keys;
      ghost var frame := AggregateNodes();
      created := 0;
      for index := 0 to |targets|
        invariant AggregateNodes() == frame
        invariant created == |ReferencesAmong(name, targets, index, known)|
        invariant |source.outgoingReferenceRelations| == |start| + created
        invariant source.outgoingReferenceRelations[..|start|] == start
        invariant Describes(source.outgoingReferenceRelations[|start|..], ReferencesAmong(name, targets, index, known), source, nodeAggregateIndex)
        invariant forall c :: c in frame ==> old(c.incomingReferenceRelations) <= c.incomingReferenceRelations
      {
        var target := GetNodeAggregate(targets[index]);
        if target.Some? {
          AggregateNodesHold(target.value);
          ghost var before := source.outgoingReferenceRelations;
          var relation := CreateSingleReferenceRelation(source, name, index, target.value);
          assert source.outgoingReferenceRelations[|start|..] == before[|start|..] + [relation];
          DescribesAppend(before[|start|..], [relation], ReferencesAmong(name, targets, index, known), [Reference(name, index, targets[index])],
                          source, nodeAggregateIndex);
          created := created + 1;
        }
      }
    }

    /**
     * `createReferenceRelations()`: for every reference property of the
     * node's type, in order, a relation to each known aggregate its value
     * lists; the result is the number created. A value that cannot be read
     * as targets fails, and the properties after it are not looked at.
     */
    method CreateReferenceRelations(source: Node) returns (r: Result<nat>)
      modifies source`outgoingReferenceRelations, AggregateNodes()`incomingReferenceRelations
      ensures r.Err? <==> ReferencesOf(source.data, nodeAggregateIndex.items.Keys).Err?
      ensures r.Err? ==> r.failure == TypeError
      ensures r.Ok? ==>
        var refs := ReferencesOf(source.data, nodeAggregateIndex.items.Keys).value;
        && r.value == |refs|
        && |source.outgoingReferenceRelations| == |old(source.outgoingReferenceRelations)| + r.value
        && source.outgoingReferenceRelations[..|old(source.outgoingReferenceRelations)|] == old(source.outgoingReferenceRelations)
        && Describes(source.outgoingReferenceRelations[|old(source.outgoingReferenceRelations)|..], refs, source, nodeAggregateIndex)
      ensures forall c :: c in AggregateNodes() ==> old(c.incomingReferenceRelations) <= c.incomingReferenceRelations
    {
      var properties := source.data.nodeType.properties;
      ghost var known := nodeAggregateIndex.items.Keys;
      ghost var start := source.outgoingReferenceRelations;
      ghost var frame := AggregateNodes();
      var count := 0;
      for n := 0 to |properties.order|
        invariant AggregateNodes() == frame
        invariant forall c :: c in frame ==> old(c.incomingReferenceRelations) <= c.incomingReferenceRelations
        invariant ReferencesUpTo(properties, n, source.data, known).Ok?
        invariant count == |ReferencesUpTo(properties, n, source.data, known).value|
        invariant |source.outgoingReferenceRelations| == |start| + count
        invariant source.outgoingReferenceRelations[..|start|] == start
        invariant Describes(source.outgoingReferenceRelations[|start|..], ReferencesUpTo(properties, n, source.data, known).value, source, nodeAggregateIndex)
      {
        var name := properties.order[n];
        if name in properties.items && IsReferenceProperty(properties.items[name]) {
          var targets := ReferenceTargets(RecordProperty(source.data, name));
          if targets.Err? {
            ReferencesStayFailed(properties, n + 1, |properties.order|, source.data, known);
            return Err(targets.failure);
          }
          ghost var before := source.outgoingReferenceRelations;
          var created := CreateReferencesAmong(source, name, targets.value);
          assert source.outgoingReferenceRelations[|start|..] == before[|start|..] + source.outgoingReferenceRelations[|before|..];
          DescribesAppend(before[|start|..], source.outgoingReferenceRelations[|before|..], ReferencesUpTo(properties, n, source.data, known).value,
                          ReferencesAmong(name, targets.value, |targets.value|, known), source, nodeAggregateIndex);
          count := count + created;
        }
      }
      return Ok(count);
    }

    /** The indexed nodes in index order; none while the index is null, as `foreach` over null runs no iteration. */
    function IndexedNodes(): seq<Node>
      reads this
    {
      if nodeIndex.None? then [] else nodeIndex.value.Values()
    }

    /**
     * `traverseNodeIndex()`: hands the indexed nodes to the callback in
     * index order, skipping internal nodes unless `includeShadowNodes`,
     * and stops after the first node the callback returns `false` for.
     */
    method TraverseNodeIndex(stops: Node -> bool, includeShadowNodes: bool) returns (handed: seq<Node>)
      ensures handed == NodeIndexTraversal.Handed(IndexedNodes(), IsInternal, stops, includeShadowNodes)
    {
      handed := NodeIndexTraversal.Traverse(IndexedNodes(), IsInternal, stops, includeShadowNodes);
    }

    /** `getNodes()`: the node index; a null index does not satisfy the declared array return type. */
    function GetNodes(): (r: Result<Arr<Digest, Node>>)
      reads this
      ensures r.Err? <==> nodeIndex.None?
      ensures r.Err? ==> r.failure == TypeError
      ensures r.Ok? ==> r.value == nodeIndex.value
    {
      if nodeIndex.None? then Err(TypeError) else Ok(nodeIndex.value)
    }

    /** `getNode()`: the node filed under a cache entry identifier; none while the index is null. */
    function GetNode(nodeIdentifier: Digest): (r: Option<Node>)
      reads this
      ensures r.Some? <==> nodeIndex.Some? && nodeIdentifier in nodeIndex.value.items
      ensures r.Some? ==> r.value == nodeIndex.value.items[nodeIdentifier]
    {
      if nodeIndex.None? then None else nodeIndex.value.Get(nodeIdentifier)
    }

    /**
     * `registerNode()`: files the node under its cache entry identifier,
     * every other identifier reading as before; a node whose identifier
     * cannot be computed fails on null and leaves the index as it was.
     */
    method RegisterNode(node: Node) returns (failure: Option<Failure>)
      modifies this`nodeIndex
      ensures failure.Some? <==> node.CacheEntryIdentifier().None?
      ensures failure.Some? ==> failure.value == CallOnNull && nodeIndex == old(nodeIndex)
      ensures failure.None? ==> nodeIndex == Some(old(nodeIndex).GetOr(Empty()).Put(node.CacheEntryIdentifier().value, node))
      ensures failure.None? ==> GetNode(node.CacheEntryIdentifier().value) == Some(node)
      ensures failure.None? ==> forall id :: id != node.CacheEntryIdentifier().value ==> GetNode(id) == old(GetNode(id))
    {
      var cacheEntry := node.CacheEntryIdentifier();
      if cacheEntry.None? {
        return Some(CallOnNull);
      }
      nodeIndex := Some(nodeIndex.GetOr(Empty()).Put(cacheEntry.value, node));
      return None;
    }

    /** `unregisterNode()`: removes the node filed under the identifier, if there is one; every other identifier reads as before. */
    method UnregisterNode(nodeIdentifier: Digest)
      modifies this`nodeIndex
      ensures old(GetNode(nodeIdentifier)).Some? ==> nodeIndex == Some(old(nodeIndex).value.Unset(nodeIdentifier))
      ensures old(GetNode(nodeIdentifier)).None? ==> nodeIndex == old(nodeIndex)
      ensures GetNode(nodeIdentifier) == None
      ensures forall id :: id != nodeIdentifier ==> GetNode(id) == old(GetNode(id))
    {
      if nodeIndex.Some? && nodeIdentifier in nodeIndex.value.items {
        nodeIndex := Some(nodeIndex.value.Unset(nodeIdentifier));
      }
    }

    /** `getNodeAggregate()`: the aggregate filed under an identifier. */
    function GetNodeAggregate(nodeAggregateIdentifier: string): (r: Option<NodeAggregate>)
      reads this
      ensures r.Some? <==> nodeAggregateIdentifier in nodeAggregateIndex.items
      ensures r.Some? ==> r.value == nodeAggregateIndex.items[nodeAggregateIdentifier]
    {
      nodeAggregateIndex.Get(nodeAggregateIdentifier)
    }

    /** `registerNodeAggregate()`: files the aggregate under its identifier. */
    method RegisterNodeAggregate(nodeAggregate: NodeAggregate)
      modifies this`nodeAggregateIndex
      ensures nodeAggregateIndex == old(nodeAggregateIndex).Put(nodeAggregate.identifier, nodeAggregate)
      ensures GetNodeAggregate(nodeAggregate.identifier) == Some(nodeAggregate)
      ensures forall id :: id != nodeAggregate.identifier ==> GetNodeAggregate(id) == old(GetNodeAggregate(id))
    {
      nodeAggregateIndex := nodeAggregateIndex.Put(nodeAggregate.identifier, nodeAggregate);
    }

    /** `unregisterNodeAggregate()`: removes the aggregate filed under the identifier, if there is one. */
    method UnregisterNodeAggregate(nodeAggregateIdentifier: string)
      modifies this`nodeAggregateIndex
      ensures nodeAggregateIdentifier in old(nodeAggregateIndex.items) ==>
        nodeAggregateIndex == old(nodeAggregateIndex).Unset(nodeAggregateIdentifier)
      ensures nodeAggregateIdentifier !in old(nodeAggregateIndex.items) ==> nodeAggregateIndex == old(nodeAggregateIndex)
      ensures GetNodeAggregate(nodeAggregateIdentifier) == None
      ensures forall id :: id != nodeAggregateIdentifier ==> GetNodeAggregate(id) == old(GetNodeAggregate(id))
    {
      if nodeAggregateIdentifier in nodeAggregateIndex.items {
        nodeAggregateIndex := nodeAggregateIndex.Unset(nodeAggregateIdentifier);
      }
    }

    /**
     * `getSubgraphByIdentifier()`: the subgraph filed under the string form
     * of the identifier built from the workspace name and the point.
     */
    function GetSubgraphByIdentifier(workspaceName: string, dimensionSpacePoint: Point): (r: Option<ContentSubgraph>)
      ensures var hash := ProjectionSubgraphIdentifier.SubgraphIdentifier(workspaceName, dimensionSpacePoint).ToString();
        (r.Some? <==> hash in subgraphs.items) && (r.Some? ==> r.value == subgraphs.items[hash])
    {
      subgraphs.Get(ProjectionSubgraphIdentifier.SubgraphIdentifier(workspaceName, dimensionSpacePoint).ToString())
    }

    /**
     * When the subgraphs are filed under their own identifiers, looking one
     * up finds the subgraph of exactly that workspace and point.
     */
    lemma SubgraphFoundByIdentifier(workspaceName: string, dimensionSpacePoint: Point)
      requires KeyedByIdentifier(subgraphs)
      ensures var r := GetSubgraphByIdentifier(workspaceName, dimensionSpacePoint);
        r.Some? ==> r.value.identifier == ProjectionSubgraphIdentifier.SubgraphIdentifier(workspaceName, dimensionSpacePoint)
    {
      var r := GetSubgraphByIdentifier(workspaceName, dimensionSpacePoint);
      if r.Some? {
        ProjectionSubgraphIdentifier.StringFormIdentifies(r.value.identifier, ProjectionSubgraphIdentifier.SubgraphIdentifier(workspaceName, dimensionSpacePoint));
      }
    }

    /**
     * The rest of the constructor: first each node in turn is connected in
     * its subgraphs and filed in the node index under its cache entry
     * identifier; then the reference relations of every node off the root
     * path are created. The first failure ends the work. With console
     * output, the report after the first loop counts the node index, a type
     * error while it is still null, that is, when no node was given.
     */
    method Initialize(nodes: seq<Node>, nodeAssignments: NodeAssignmentRegistry, reportsToConsole: bool) returns (failure: Option<Failure>)
      modifies this`nodeIndex, nodes`incomingHierarchyRelations, RegistryNodes(nodeAssignments.nodesByPathAndSubgraph)`outgoingHierarchyRelations
      modifies nodes`outgoingReferenceRelations, AggregateNodes()`incomingReferenceRelations
      ensures failure.Some? ==> failure.value == TypeError || failure.value == CallOnNull
      ensures reportsToConsole && nodes == [] && old(nodeIndex).None? ==> failure == Some(TypeError)
      ensures failure.None? ==> AllCacheable(nodes, |nodes|) && nodeIndex == IndexedUpTo(old(nodeIndex), nodes, |nodes|)
      ensures failure.None? ==> forall k :: 0 <= k < |nodes| ==> Assigned(nodeAssignments.nodesByPathAndSubgraph, nodeAssignments.subgraphsByPathAndNodeIdentifier, nodes[k], nodes[k].incomingHierarchyRelations)
      ensures failure.None? ==> forall k :: 0 <= k < |nodes| && nodes[k].data.path != ROOT_PATH ==>
        ReferencesOf(nodes[k].data, nodeAggregateIndex.items.Keys).Ok?
      ensures failure.None? && Distinct(nodes) ==> forall k :: 0 <= k < |nodes| ==>
        ReferencesCreated(nodes[k], old(nodes[k].outgoingReferenceRelations))
      ensures forall c :: c in AggregateNodes() ==> old(c.incomingReferenceRelations) <= c.incomingReferenceRelations
    {
      failure := AssignAndIndex(nodes, nodeAssignments);
      if failure.Some? {
        return;
      }
      if reportsToConsole && nodeIndex.None? {
        return Some(TypeError);
      }
      failure := CreateAllReferenceRelations(nodes, nodeAssignments);
    }

    /** The constructor's first loop. */
    method AssignAndIndex(nodes: seq<Node>, nodeAssignments: NodeAssignmentRegistry) returns (failure: Option<Failure>)
      modifies this`nodeIndex, nodes`incomingHierarchyRelations, RegistryNodes(nodeAssignments.nodesByPathAndSubgraph)`outgoingHierarchyRelations
      ensures failure.Some? ==> failure.value == TypeError || failure.value == CallOnNull
      ensures nodes == [] ==> failure.None?
      ensures failure.None? ==> AllCacheable(nodes, |nodes|) && nodeIndex == IndexedUpTo(old(nodeIndex), nodes, |nodes|)
      ensures failure.None? ==> forall k :: 0 <= k < |nodes| ==> Assigned(nodeAssignments.nodesByPathAndSubgraph, nodeAssignments.subgraphsByPathAndNodeIdentifier, nodes[k], nodes[k].incomingHierarchyRelations)
    {
      ghost var nodesByPath := nodeAssignments.nodesByPathAndSubgraph;
      ghost var subgraphsByPath := nodeAssignments.subgraphsByPathAndNodeIdentifier;
      ghost var start := nodeIndex;
      for i := 0 to |nodes|
        invariant AllCacheable(nodes, i) && nodeIndex == IndexedUpTo(start, nodes, i)
        invariant forall n :: n in nodes[..i] ==> Assigned(nodesByPath, subgraphsByPath, n, n.incomingHierarchyRelations)
      {
        failure := AssignAndIndexStep(nodes, i, nodeAssignments, start);
        if failure.Some? {
          return;
        }
      }
      assert nodes[..|nodes|] == nodes;
      failure := None;
    }

    /** The constructor's first loop, from the first `i` nodes done to the first `i + 1`. */
    method AssignAndIndexStep(nodes: seq<Node>, i: nat, nodeAssignments: NodeAssignmentRegistry, ghost start: Option<Arr<Digest, Node>>)
      returns (failure: Option<Failure>)
      requires i < |nodes| && AllCacheable(nodes, i) && nodeIndex == IndexedUpTo(start, nodes, i)
      requires forall n :: n in nodes[..i] ==>
        Assigned(nodeAssignments.nodesByPathAndSubgraph, nodeAssignments.subgraphsByPathAndNodeIdentifier, n, n.incomingHierarchyRelations)
      modifies this`nodeIndex, {nodes[i]}`incomingHierarchyRelations, RegistryNodes(nodeAssignments.nodesByPathAndSubgraph)`outgoingHierarchyRelations
      ensures failure.Some? ==> failure.value == TypeError || failure.value == CallOnNull
      ensures failure.None? ==> AllCacheable(nodes, i + 1) && nodeIndex == IndexedUpTo(start, nodes, i + 1)
      ensures failure.None? ==> forall n :: n in nodes[..i + 1] ==>
        Assigned(nodeAssignments.nodesByPathAndSubgraph, nodeAssignments.subgraphsByPathAndNodeIdentifier, n, n.incomingHierarchyRelations)
    {
      var node := nodes[i];
      failure := AssignAndIndexNode(node, nodeAssignments);
      if failure.Some? {
        return;
      }
      assert nodes[..i + 1] == nodes[..i] + [node];
      forall n | n in nodes[..i] && n != node
        ensures Assigned(nodeAssignments.nodesByPathAndSubgraph, nodeAssignments.subgraphsByPathAndNodeIdentifier, n, n.incomingHierarchyRelations)
      {
        assert n.incomingHierarchyRelations == old(n.incomingHierarchyRelations);
      }
    }

    /** One iteration of the constructor's first loop: the node connected in its subgraphs, then filed in the node index. */
    method AssignAndIndexNode(node: Node, nodeAssignments: NodeAssignmentRegistry) returns (failure: Option<Failure>)
      modifies this`nodeIndex, node`incomingHierarchyRelations, RegistryNodes(nodeAssignments.nodesByPathAndSubgraph)`outgoingHierarchyRelations
      ensures failure.Some? ==> failure.value == TypeError || failure.value == CallOnNull
      ensures failure.None? ==> node.CacheEntryIdentifier().Some?
      ensures failure.None? ==> nodeIndex == Some(old(nodeIndex).GetOr(Empty()).Put(node.CacheEntryIdentifier().value, node))
      ensures failure.None? ==>
        Assigned(nodeAssignments.nodesByPathAndSubgraph, nodeAssignments.subgraphsByPathAndNodeIdentifier, node, node.incomingHierarchyRelations)
    {
      failure := AssignHierarchyRelations(node, nodeAssignments);
      if failure.Some? {
        return;
      }
      var cacheEntry := node.CacheEntryIdentifier();
      if cacheEntry.None? {
        return Some(CallOnNull);
      }
      nodeIndex := Some(nodeIndex.GetOr(Empty()).Put(cacheEntry.value, node));
    }

    /**
     * A node's outgoing reference relations are the ones it had before,
     * followed, off the root path, by exactly the relations its record's
     * references describe.
     */
    ghost predicate ReferencesCreated(n: Node, before: seq<ReferenceRelation>)
      reads this`nodeAggregateIndex, n`outgoingReferenceRelations
    {
      && |before| <= |n.outgoingReferenceRelations|
      && n.outgoingReferenceRelations[..|before|] == before
      && (n.data.path == ROOT_PATH ==> n.outgoingReferenceRelations == before)
      && (n.data.path != ROOT_PATH ==>
            var refs := ReferencesOf(n.data, nodeAggregateIndex.items.Keys);
            refs.Ok? && Describes(n.outgoingReferenceRelations[|before|..], refs.value, n, nodeAggregateIndex))
    }

    /** The constructor's second loop: the reference relations of every node off the root path. */
    method CreateAllReferenceRelations(nodes: seq<Node>, nodeAssignments: NodeAssignmentRegistry) returns (failure: Option<Failure>)
      modifies nodes`outgoingReferenceRelations, AggregateNodes()`incomingReferenceRelations
      ensures failure.Some? ==> failure.value == TypeError
      ensures failure.None? ==> forall k :: 0 <= k < |nodes| && nodes[k].data.path != ROOT_PATH ==>
        ReferencesOf(nodes[k].data, nodeAggregateIndex.items.Keys).Ok?
      ensures failure.None? && Distinct(nodes) ==> forall k :: 0 <= k < |nodes| ==>
        ReferencesCreated(nodes[k], old(nodes[k].outgoingReferenceRelations))
      ensures forall c :: c in AggregateNodes() ==> old(c.incomingReferenceRelations) <= c.incomingReferenceRelations
    {
      ghost var frame := AggregateNodes();
      for i := 0 to |nodes|
        invariant AggregateNodes() == frame
        invariant forall c :: c in frame ==> old(c.incomingReferenceRelations) <= c.incomingReferenceRelations
        invariant forall k :: 0 <= k < i && nodes[k].data.path != ROOT_PATH ==> ReferencesOf(nodes[k].data, nodeAggregateIndex.items.Keys).Ok?
        invariant Distinct(nodes) ==> forall k :: i <= k < |nodes| ==>
          nodes[k].outgoingReferenceRelations == old(nodes[k].outgoingReferenceRelations)
        invariant Distinct(nodes) ==> forall k :: 0 <= k < i ==>
          ReferencesCreated(nodes[k], old(nodes[k].outgoingReferenceRelations))
      {
        if nodes[i].data.path != ROOT_PATH {
          var r := CreateReferenceRelations(nodes[i]);
          if r.Err? {
            return Some(r.failure);
          }
        }
      }
      failure := None;
    }
  }
}
