/**
 * GraphService of the newer generation: it files the workspaces by name,
 * builds one subgraph per point of the allowed dimension subspace, groups
 * nodes into aggregates, and decides for every aggregate and subgraph which
 * variant the subgraph sees, recording each decision in a
 * NodeAssignmentRegistry.
 */
module ProjectionGraphService {
  import opened Wrappers
  import opened PhpArrays
  import opened Content
  import opened Resolution
  import Partitioning
  import Points
  import opened Registries
  import opened ProjectionNodes
  import opened ProjectionSubgraphs
  import opened ProjectionRegistry
  import ProjectionSubgraphIdentifier
  import ProjectionPointFactory
  import ProjectionGraphs

  /** One registration the service makes: node and subgraph, filed under the node's path. */
  type NodePick = Pick<Node, Digest, SubgraphIdentifier>

  /** The aggregate identifier a node is grouped under: the root identifier for the root path. */
  function AggregateKeyOf(n: Node): string {
    GroupKey(n.data.path, n.aggregateIdentifier)
  }

  function PathOf(n: Node): string {
    n.data.path
  }

  function IdentifierOf(n: Node): string {
    n.aggregateIdentifier
  }

  function OriginOf(n: Node): Point {
    n.origin
  }

  /**
   * The registrations that follow from what a subgraph sees of an
   * aggregate: none when it sees nothing; the node under the subgraph's
   * string form and the subgraph under the node's cache entry identifier
   * when it sees a node. `reset` of no nodes is refused by the `?Node`
   * return type; a node without a workspace has no cache entry identifier.
   */
  function PickFor(resolved: Resolved<Node>, subgraph: ContentSubgraph): Result<seq<NodePick>> {
    match resolved
    case ResetOfEmpty => Err(TypeError)
    case Absent => Ok([])
    case Found(n) =>
      if n.CacheEntryIdentifier().None? then Err(CallOnNull)
      else Ok([Pick(n.data.path, subgraph.identifier.ToString(), subgraph.identifier, n, n.CacheEntryIdentifier().value)])
  }

  /** A registration only follows from a node found, at that node's path and under the subgraph's key. */
  lemma PickForFound(resolved: Resolved<Node>, subgraph: ContentSubgraph, p: NodePick)
    requires PickFor(resolved, subgraph).Ok? && p in PickFor(resolved, subgraph).value
    ensures resolved == Found(p.node)
    ensures p.key == subgraph.identifier.ToString() && p.path == p.node.data.path
  {
  }

  /** The registrations of `first`, then those of `second`; the first failure ends them. */
  function Then(first: Result<seq<NodePick>>, second: Result<seq<NodePick>>): Result<seq<NodePick>> {
    if first.Err? then first else if second.Err? then second else Ok(first.value + second.value)
  }

  /** The string form of the subgraph of workspace `w` at point `p`. */
  function SubgraphKeyOf(w: Workspace, p: Point): Digest {
    ProjectionSubgraphIdentifier.SubgraphIdentifier(w.name, p).ToString()
  }

  /** Every point's workspace is indexed and the point's subgraph is filed. */
  ghost predicate PointsFiled(subgraphs: Arr<Digest, ContentSubgraph>, indexed: Arr<string, Workspace>, dimension: string, points: seq<Point>) {
    forall j :: 0 <= j < |points| ==>
      && WorkspaceFor(indexed, points[j], dimension).Some?
      && SubgraphKeyOf(WorkspaceFor(indexed, points[j], dimension).value, points[j]) in subgraphs.items
  }

  /** Every subgraph is filed under its string form and is that of one of the points, in the workspace the point names. */
  ghost predicate FiledFromPoints(subgraphs: Arr<Digest, ContentSubgraph>, indexed: Arr<string, Workspace>, dimension: string, points: seq<Point>) {
    && ProjectionGraphs.KeyedByIdentifier(subgraphs)
    && (forall h :: h in subgraphs.items ==> subgraphs.items[h].dimensionSpacePoint in points)
    && (forall h :: h in subgraphs.items ==>
          WorkspaceFor(indexed, subgraphs.items[h].dimensionSpacePoint, dimension) == Some(subgraphs.items[h].workspace))
  }

  /** Every point names an indexed workspace. */
  ghost predicate AllIndexed(indexed: Arr<string, Workspace>, dimension: string, points: seq<Point>) {
    forall j :: 0 <= j < |points| ==> WorkspaceFor(indexed, points[j], dimension).Some?
  }

  /** The string forms of the subgraphs of `points`, in the points' order. */
  ghost function SubgraphKeys(indexed: Arr<string, Workspace>, dimension: string, points: seq<Point>): seq<Digest>
    requires AllIndexed(indexed, dimension, points)
  {
    seq(|points|, j requires 0 <= j < |points| => SubgraphKeyOf(WorkspaceFor(indexed, points[j], dimension).value, points[j]))
  }

  /** `subgraphs` are exactly those of `points`, filed in the points' order. */
  ghost predicate SubgraphsOf(subgraphs: Arr<Digest, ContentSubgraph>, indexed: Arr<string, Workspace>, dimension: string, points: seq<Point>) {
    && PointsFiled(subgraphs, indexed, dimension, points)
    && FiledFromPoints(subgraphs, indexed, dimension, points)
    && WrittenInTurn(subgraphs, SubgraphKeys(indexed, dimension, points))
  }

  /** Filing the subgraph of one more point keeps every point filed. */
  lemma PointsFiledExtend(subgraphs: Arr<Digest, ContentSubgraph>, indexed: Arr<string, Workspace>, dimension: string,
                          points: seq<Point>, s: ContentSubgraph)
    requires PointsFiled(subgraphs, indexed, dimension, points)
    requires WorkspaceFor(indexed, s.dimensionSpacePoint, dimension) == Some(s.workspace)
    requires s.identifier == ProjectionSubgraphIdentifier.SubgraphIdentifier(s.workspace.name, s.dimensionSpacePoint)
    ensures PointsFiled(subgraphs.Put(s.identifier.ToString(), s), indexed, dimension, points + [s.dimensionSpacePoint])
  {
    var points' := points + [s.dimensionSpacePoint];
    var key := s.identifier.ToString();
    var subgraphs' := subgraphs.Put(key, s);
    assert subgraphs'.items == subgraphs.items[key := s];
    forall j | 0 <= j < |points'|
      ensures WorkspaceFor(indexed, points'[j], dimension).Some?
      ensures SubgraphKeyOf(WorkspaceFor(indexed, points'[j], dimension).value, points'[j]) in subgraphs'.items
    {
      if j < |points| {
        assert points'[j] == points[j];
      } else {
        assert SubgraphKeyOf(s.workspace, s.dimensionSpacePoint) == key;
      }
    }
  }

  /** Filing the subgraph of one more point keeps every subgraph one of the points'. */
  lemma FiledFromPointsExtend(subgraphs: Arr<Digest, ContentSubgraph>, indexed: Arr<string, Workspace>, dimension: string,
                              points: seq<Point>, s: ContentSubgraph)
    requires FiledFromPoints(subgraphs, indexed, dimension, points)
    requires WorkspaceFor(indexed, s.dimensionSpacePoint, dimension) == Some(s.workspace)
    ensures FiledFromPoints(subgraphs.Put(s.identifier.ToString(), s), indexed, dimension, points + [s.dimensionSpacePoint])
  {
    var points' := points + [s.dimensionSpacePoint];
    var key := s.identifier.ToString();
    var subgraphs' := subgraphs.Put(key, s);
    assert subgraphs'.items == subgraphs.items[key := s];
    forall h | h in subgraphs'.items
      ensures subgraphs'.items[h].identifier.ToString() == h
      ensures subgraphs'.items[h].dimensionSpacePoint in points'
      ensures WorkspaceFor(indexed, subgraphs'.items[h].dimensionSpacePoint, dimension) == Some(subgraphs'.items[h].workspace)
    {
      if h != key {
        assert subgraphs'.items[h] == subgraphs.items[h];
        var j :| 0 <= j < |points| && points[j] == subgraphs.items[h].dimensionSpacePoint;
        assert points'[j] == points[j];
      } else {
        assert points'[|points|] == s.dimensionSpacePoint;
      }
    }
  }

  /** Filing the subgraph of the `i`th point extends the string forms written for the points before it. */
  lemma KeysWrittenStep(subgraphs: Arr<Digest, ContentSubgraph>, indexed: Arr<string, Workspace>, dimension: string,
                        points: seq<Point>, i: nat, s: ContentSubgraph)
    requires i < |points| && s.dimensionSpacePoint == points[i]
    requires AllIndexed(indexed, dimension, points[..i])
    requires WrittenInTurn(subgraphs, SubgraphKeys(indexed, dimension, points[..i]))
    requires WorkspaceFor(indexed, s.dimensionSpacePoint, dimension) == Some(s.workspace)
    requires s.identifier == ProjectionSubgraphIdentifier.SubgraphIdentifier(s.workspace.name, s.dimensionSpacePoint)
    ensures WrittenInTurn(subgraphs.Put(s.identifier.ToString(), s), SubgraphKeys(indexed, dimension, points[..i + 1]))
  {
    PrefixGrows(points, i);
    assert SubgraphKeys(indexed, dimension, points[..i + 1]) == SubgraphKeys(indexed, dimension, points[..i]) + [s.identifier.ToString()];
    PutWrittenInTurn(subgraphs, SubgraphKeys(indexed, dimension, points[..i]), s.identifier.ToString(), s);
  }

  /** Filing the subgraph of the next point extends both the subgraphs filed and the order they are filed in. */
  lemma SubgraphFiledStep(subgraphs: Arr<Digest, ContentSubgraph>, indexed: Arr<string, Workspace>, dimension: string,
                          points: seq<Point>, i: nat, s: ContentSubgraph)
    requires i < |points| && s.dimensionSpacePoint == points[i]
    requires SubgraphsOf(subgraphs, indexed, dimension, points[..i])
    requires WorkspaceFor(indexed, s.dimensionSpacePoint, dimension) == Some(s.workspace)
    requires s.identifier == ProjectionSubgraphIdentifier.SubgraphIdentifier(s.workspace.name, s.dimensionSpacePoint)
    ensures SubgraphsOf(subgraphs.Put(s.identifier.ToString(), s), indexed, dimension, points[..i + 1])
  {
    PointsFiledExtend(subgraphs, indexed, dimension, points[..i], s);
    FiledFromPointsExtend(subgraphs, indexed, dimension, points[..i], s);
    PrefixGrows(points, i);
    KeysWrittenStep(subgraphs, indexed, dimension, points, i, s);
  }

  /** The array left by filing each of `made`, in turn, under its string form. */
  function FiledInTurn(made: seq<ContentSubgraph>): Arr<Digest, ContentSubgraph>
    decreases |made|
  {
    if made == [] then Empty()
    else FiledInTurn(made[..|made| - 1]).Put(made[|made| - 1].identifier.ToString(), made[|made| - 1])
  }

  /** `made` holds, for each of `points` in turn, a subgraph of that point in the workspace it names. */
  ghost predicate MadeFor(made: seq<ContentSubgraph>, indexed: Arr<string, Workspace>, dimension: string, points: seq<Point>) {
    |made| == |points| &&
    forall j :: 0 <= j < |made| ==>
      && made[j].dimensionSpacePoint == points[j]
      && WorkspaceFor(indexed, points[j], dimension) == Some(made[j].workspace)
      && made[j].identifier == ProjectionSubgraphIdentifier.SubgraphIdentifier(made[j].workspace.name, points[j])
  }

  /** One more subgraph, of the next point in the workspace it names, extends what was made. */
  lemma MadeForStep(made: seq<ContentSubgraph>, indexed: Arr<string, Workspace>, dimension: string, points: seq<Point>,
                    i: nat, s: ContentSubgraph)
    requires i < |points| && MadeFor(made, indexed, dimension, points[..i])
    requires s.dimensionSpacePoint == points[i] && WorkspaceFor(indexed, points[i], dimension) == Some(s.workspace)
    requires s.identifier == ProjectionSubgraphIdentifier.SubgraphIdentifier(s.workspace.name, points[i])
    ensures MadeFor(made + [s], indexed, dimension, points[..i + 1])
  {
    PrefixGrows(points, i);
  }

  /** Every subgraph filed by filing `made` in turn is one of `made`. */
  lemma {:induction false} FiledFromMade(made: seq<ContentSubgraph>)
    ensures forall k :: k in FiledInTurn(made).items ==> FiledInTurn(made).items[k] in made
    decreases |made|
  {
    if made != [] {
      var n := |made| - 1;
      FiledFromMade(made[..n]);
      forall k | k in FiledInTurn(made).items
        ensures FiledInTurn(made).items[k] in made
      {
        if k != made[n].identifier.ToString() {
          var j :| 0 <= j < n && made[..n][j] == FiledInTurn(made[..n]).items[k];
          assert made[j] == made[..n][j];
        }
      }
    }
  }

  /**
   * Filing the subgraphs made for `points` in turn files exactly the
   * subgraphs of `points`, in the points' order.
   */
  lemma {:induction false} MadeForFiled(made: seq<ContentSubgraph>, indexed: Arr<string, Workspace>, dimension: string, points: seq<Point>)
    requires MadeFor(made, indexed, dimension, points)
    ensures SubgraphsOf(FiledInTurn(made), indexed, dimension, points)
    decreases |made|
  {
    if made == [] {
      assert SubgraphKeys(indexed, dimension, points) == [];
    } else {
      var n := |made| - 1;
      assert MadeFor(made[..n], indexed, dimension, points[..n]);
      MadeForFiled(made[..n], indexed, dimension, points[..n]);
      SubgraphFiledStep(FiledInTurn(made[..n]), indexed, dimension, points, n, made[n]);
      PrefixGrows(points, n);
    }
  }

  /** The origin the point factory gives a record. */
  function OriginFor(d: NodeData, dimensions: seq<string>): Point {
    Point(Points.Coordinates(d, dimensions, WORKSPACE_DIMENSION))
  }

  /** Every record has a workspace. */
  ghost predicate HaveWorkspaces(records: seq<NodeData>) {
    forall j :: 0 <= j < |records| ==> records[j].workspace.Some?
  }

  /** The cache entry identifier of a record with a workspace, at the origin the point factory gives it. */
  function RecordKey(d: NodeData, dimensions: seq<string>): Digest
    requires d.workspace.Some?
  {
    CacheEntryOf(d, OriginFor(d, dimensions)).value
  }

  /** The cache entry identifiers of the records, in record order. */
  ghost function RecordKeys(records: seq<NodeData>, dimensions: seq<string>): seq<Digest>
    requires HaveWorkspaces(records)
  {
    seq(|records|, j requires 0 <= j < |records| => RecordKey(records[j], dimensions))
  }

  /** A record after the `j`th has the `j`th's cache entry identifier. */
  ghost predicate Superseded(records: seq<NodeData>, dimensions: seq<string>, j: int)
    requires HaveWorkspaces(records) && 0 <= j < |records|
  {
    exists l :: j < l < |records| && RecordKey(records[l], dimensions) == RecordKey(records[j], dimensions)
  }

  /** Every record's cache entry identifier is filed, and under it the last record with that identifier. */
  ghost predicate LastRecordsFiled(nodes: Arr<Digest, Node>, records: seq<NodeData>, dimensions: seq<string>)
    requires HaveWorkspaces(records)
  {
    forall j :: 0 <= j < |records| ==>
      && RecordKey(records[j], dimensions) in nodes.items
      && (!Superseded(records, dimensions, j) ==> nodes.items[RecordKey(records[j], dimensions)].data == records[j])
  }

  /** Every node is filed under its own cache entry identifier and is one of the records at its origin. */
  ghost predicate FiledFromRecords(nodes: Arr<Digest, Node>, records: seq<NodeData>, dimensions: seq<string>) {
    && (forall k :: k in nodes.items ==> nodes.items[k].CacheEntryIdentifier() == Some(k))
    && (forall k :: k in nodes.items ==> nodes.items[k].data in records)
    && (forall k :: k in nodes.items ==> nodes.items[k].origin == OriginFor(nodes.items[k].data, dimensions))
  }

  /**
   * `nodes` are those of `records`: every record has a workspace; the keys
   * are the records' cache entry identifiers, in the order each first
   * appears; the node under a key is the last record with it, at its
   * origin, and carries that key.
   */
  ghost predicate NodesOf(nodes: Arr<Digest, Node>, records: seq<NodeData>, dimensions: seq<string>) {
    && HaveWorkspaces(records)
    && WrittenInTurn(nodes, RecordKeys(records, dimensions))
    && LastRecordsFiled(nodes, records, dimensions)
    && FiledFromRecords(nodes, records, dimensions)
  }

  /** One more record, with a workspace, keeps every record with one. */
  lemma HaveWorkspacesExtend(records: seq<NodeData>, d: NodeData)
    requires HaveWorkspaces(records) && d.workspace.Some?
    ensures HaveWorkspaces(records + [d])
  {
    forall j | 0 <= j < |records| + 1 ensures (records + [d])[j].workspace.Some? {
      if j < |records| {
        assert (records + [d])[j] == records[j];
      }
    }
  }

  /** Filing the node of one more record files the last record under each identifier. */
  lemma LastRecordsFiledExtend(nodes: Arr<Digest, Node>, records: seq<NodeData>, dimensions: seq<string>, n: Node)
    requires HaveWorkspaces(records) && LastRecordsFiled(nodes, records, dimensions)
    requires n.data.workspace.Some? && HaveWorkspaces(records + [n.data])
    ensures LastRecordsFiled(nodes.Put(RecordKey(n.data, dimensions), n), records + [n.data], dimensions)
  {
    var records' := records + [n.data];
    var key := RecordKey(n.data, dimensions);
    var nodes' := nodes.Put(key, n);
    assert nodes'.items == nodes.items[key := n];
    forall j | 0 <= j < |records'|
      ensures RecordKey(records'[j], dimensions) in nodes'.items
      ensures !Superseded(records', dimensions, j) ==> nodes'.items[RecordKey(records'[j], dimensions)].data == records'[j]
    {
      if j < |records| {
        assert records'[j] == records[j];
        if !Superseded(records', dimensions, j) {
          assert RecordKey(records'[|records|], dimensions) != RecordKey(records[j], dimensions);
          forall l | j < l < |records| ensures RecordKey(records[l], dimensions) != RecordKey(records[j], dimensions) {
            assert records'[l] == records[l];
          }
        }
      }
    }
  }

  /** Filing the node of one more record keeps every node one of the records'. */
  lemma FiledFromRecordsExtend(nodes: Arr<Digest, Node>, records: seq<NodeData>, dimensions: seq<string>, n: Node)
    requires FiledFromRecords(nodes, records, dimensions)
    requires n.data.workspace.Some? && n.origin == OriginFor(n.data, dimensions)
    ensures FiledFromRecords(nodes.Put(n.CacheEntryIdentifier().value, n), records + [n.data], dimensions)
  {
    var records' := records + [n.data];
    var key := n.CacheEntryIdentifier().value;
    var nodes' := nodes.Put(key, n);
    assert nodes'.items == nodes.items[key := n];
    forall k | k in nodes'.items
      ensures nodes'.items[k].CacheEntryIdentifier() == Some(k)
      ensures nodes'.items[k].data in records'
      ensures nodes'.items[k].origin == OriginFor(nodes'.items[k].data, dimensions)
    {
      if k != key {
        assert nodes'.items[k] == nodes.items[k];
        var j :| 0 <= j < |records| && records[j] == nodes.items[k].data;
        assert records'[j] == records[j];
      } else {
        assert records'[|records|] == n.data;
      }
    }
  }

  /** No records file no nodes. */
  lemma NoRecordsNoNodes(dimensions: seq<string>)
    ensures NodesOf(Empty(), [], dimensions)
  {
    assert RecordKeys([], dimensions) == [];
  }

  /** Filing the node of one more record keeps the nodes those of the records. */
  lemma NodesOfExtend(nodes: Arr<Digest, Node>, records: seq<NodeData>, dimensions: seq<string>, n: Node)
    requires NodesOf(nodes, records, dimensions)
    requires n.data.workspace.Some? && n.origin == OriginFor(n.data, dimensions)
    ensures NodesOf(nodes.Put(n.CacheEntryIdentifier().value, n), records + [n.data], dimensions)
  {
    var key := n.CacheEntryIdentifier().value;
    assert key == RecordKey(n.data, dimensions);
    HaveWorkspacesExtend(records, n.data);
    assert RecordKeys(records + [n.data], dimensions) == RecordKeys(records, dimensions) + [key];
    PutWrittenInTurn(nodes, RecordKeys(records, dimensions), key, n);
    LastRecordsFiledExtend(nodes, records, dimensions, n);
    FiledFromRecordsExtend(nodes, records, dimensions, n);
  }

  /** Filing the node of the `i`th record extends the nodes of the records before it to those up to it. */
  lemma NodesOfStep(nodes: Arr<Digest, Node>, records: seq<NodeData>, i: nat, dimensions: seq<string>, n: Node)
    requires i < |records| && NodesOf(nodes, records[..i], dimensions)
    requires n.data == records[i] && n.data.workspace.Some? && n.origin == OriginFor(n.data, dimensions)
    ensures NodesOf(nodes.Put(n.CacheEntryIdentifier().value, n), records[..i + 1], dimensions)
  {
    PrefixGrows(records, i);
    NodesOfExtend(nodes, records[..i], dimensions, n);
  }


  class GraphService {
    /** `getWeightedGeneralizations` of the variation graph, taken as given */
    const weightedGeneralizations: Point -> seq<Point>
    /** `getAllowedDimensionSubspace` of the dimension zookeeper, taken as given */
    const allowedDimensionSubspace: seq<Point>
    /** the dimension identifiers, in priority order, the point factory reads records by */
    const dimensions: seq<string>
    /** the dimension whose coordinate names the workspace */
    const workspaceDimensionIdentifier: string
    /** workspace name to workspace; null until indexed, which every read treats as `[]` */
    var indexedWorkspaces: Arr<string, Workspace>
    /** the identifiers of the system aggregates; only whether one is set is ever asked */
    var systemNodeIdentifiers: set<string>

    /** The workspace dimension is the dimension source's own. */
    constructor(weightedGeneralizations: Point -> seq<Point>, allowedDimensionSubspace: seq<Point>, dimensions: seq<string>)
      ensures this.weightedGeneralizations == weightedGeneralizations
      ensures this.allowedDimensionSubspace == allowedDimensionSubspace && this.dimensions == dimensions
      ensures workspaceDimensionIdentifier == WORKSPACE_DIMENSION
      ensures indexedWorkspaces == Empty() && systemNodeIdentifiers == {}
    {
      this.weightedGeneralizations := weightedGeneralizations;
      this.allowedDimensionSubspace := allowedDimensionSubspace;
      this.dimensions := dimensions;
      workspaceDimensionIdentifier := WORKSPACE_DIMENSION;
      indexedWorkspaces := Empty();
      systemNodeIdentifiers := {};
    }

    /** Files the repository's workspaces under their names. */
    method IndexWorkspaces(workspaces: seq<Workspace>)
      modifies this`indexedWorkspaces
      ensures indexedWorkspaces == IndexedByName(old(indexedWorkspaces), workspaces)
    {
      for i := 0 to |workspaces|
        invariant indexedWorkspaces == IndexedByName(old(indexedWorkspaces), workspaces[..i])
      {
        assert workspaces[..i + 1][..i] == workspaces[..i];
        indexedWorkspaces := indexedWorkspaces.Put(workspaces[i].name, workspaces[i]);
      }
      assert workspaces[..|workspaces|] == workspaces;
    }

    function GetWorkspaceForDimensionSpacePoint(p: Point): Option<Workspace>
      reads this`indexedWorkspaces
    {
      WorkspaceFor(indexedWorkspaces, p, workspaceDimensionIdentifier)
    }

    /**
     * One subgraph per point of the allowed subspace, filed under its string
     * form. A point whose workspace is not indexed hands null to the
     * subgraph's constructor, which its signature refuses.
     */
    method GetSubgraphs() returns (r: Result<Arr<Digest, ContentSubgraph>>)
      ensures r.Err? <==> exists i :: 0 <= i < |allowedDimensionSubspace| && GetWorkspaceForDimensionSpacePoint(allowedDimensionSubspace[i]).None?
      ensures r.Err? ==> r.failure == TypeError
      ensures r.Ok? ==> SubgraphsOf(r.value, indexedWorkspaces, workspaceDimensionIdentifier, allowedDimensionSubspace)
      ensures r.Ok? ==> forall k :: k in r.value.items ==> fresh(r.value.items[k]) && r.value.items[k].Unpopulated() && r.value.items[k].Blind()
    {
      var subgraphs: Arr<Digest, ContentSubgraph> := Empty();
      ghost var made: seq<ContentSubgraph> := [];
      var i := 0;
      while i < |allowedDimensionSubspace| && GetWorkspaceForDimensionSpacePoint(allowedDimensionSubspace[i]).Some?
        invariant i <= |allowedDimensionSubspace| && MadeFor(made, indexedWorkspaces, workspaceDimensionIdentifier, allowedDimensionSubspace[..i])
        invariant subgraphs == FiledInTurn(made)
        invariant forall j :: 0 <= j < |made| ==> fresh(made[j]) && made[j].Unpopulated()
      {
        var p := allowedDimensionSubspace[i];
        var s := new ContentSubgraph(GetWorkspaceForDimensionSpacePoint(p).value, p);
        MadeForStep(made, indexedWorkspaces, workspaceDimensionIdentifier, allowedDimensionSubspace, i, s);
        assert (made + [s])[..|made|] == made;
        made := made + [s];
        subgraphs := subgraphs.Put(s.ToString(), s);
        i := i + 1;
      }
      if i < |allowedDimensionSubspace| {
        return Err(TypeError);
      }
      assert allowedDimensionSubspace[..|allowedDimensionSubspace|] == allowedDimensionSubspace;
      MadeForFiled(made, indexedWorkspaces, workspaceDimensionIdentifier, allowedDimensionSubspace);
      FiledFromMade(made);
      return Ok(subgraphs);
    }

    /**
     * One node per record, filed under its cache entry identifier in the
     * order the identifiers first appear, a later record replacing an
     * earlier one with the same identifier. A record without a workspace has
     * none: asking for it calls a method on null.
     */
    method CreateNodes(records: seq<NodeData>) returns (r: Result<Arr<Digest, Node>>)
      ensures r.Err? <==> exists i :: 0 <= i < |records| && records[i].workspace.None?
      ensures r.Err? ==> r.failure == CallOnNull
      ensures r.Ok? ==> NodesOf(r.value, records, dimensions)
    {
      var nodes: Arr<Digest, Node> := Empty();
      NoRecordsNoNodes(dimensions);
      for i := 0 to |records|
        invariant NodesOf(nodes, records[..i], dimensions)
      {
        var next := CreateNode(nodes, records, i);
        if next.Err? {
          return Err(CallOnNull);
        }
        nodes := next.value;
      }
      assert records[..|records|] == records;
      return Ok(nodes);
    }

    /** One step of `CreateNodes`: the node of the `i`th record, filed under its cache entry identifier. */
    method CreateNode(nodes: Arr<Digest, Node>, records: seq<NodeData>, i: nat) returns (r: Result<Arr<Digest, Node>>)
      requires i < |records| && NodesOf(nodes, records[..i], dimensions)
      ensures r.Err? <==> records[i].workspace.None?
      ensures r.Ok? ==> NodesOf(r.value, records[..i + 1], dimensions)
    {
      var p := ProjectionPointFactory.CreateFromNodeData(records[i], dimensions);
      var node := new Node(records[i], p);
      var key := node.CacheEntryIdentifier();
      if key.None? {
        return Err(CallOnNull);
      }
      NodesOfStep(nodes, records, i, dimensions, node);
      return Ok(nodes.Put(key.value, node));
    }

    /** Marks the node's aggregate as a system aggregate when a coordinate of its origin stands for no value, unless it lies at the root path. */
    method MarkIfSystem(node: Node)
      modifies this`systemNodeIdentifiers
      ensures systemNodeIdentifiers == old(systemNodeIdentifiers) + SystemIdentifiers([node], PathOf, IdentifierOf, OriginOf)
    {
      assert [node][..0] == [];
      if node.data.path != ROOT_PATH {
        var values := node.origin.coordinates.Values();
        for i := 0 to |values|
          invariant systemNodeIdentifiers == old(systemNodeIdentifiers) + (if NO_VALUE in values[..i] then {node.aggregateIdentifier} else {})
        {
          assert values[..i + 1] == values[..i] + [values[i]];
          if values[i] == NO_VALUE {
            systemNodeIdentifiers := systemNodeIdentifiers + {node.aggregateIdentifier};
          }
        }
        assert values[..|values|] == values;
      }
    }

    /**
     * Groups the nodes by aggregate identifier, the root path's under the
     * root identifier, marking system aggregates on the way; then makes one
     * aggregate of each group, in the order the groups first appeared.
     */
    method GroupNodesToAggregates(nodes: seq<Node>) returns (aggregates: Arr<string, NodeAggregate>)
      modifies this`systemNodeIdentifiers
      ensures systemNodeIdentifiers == old(systemNodeIdentifiers) + SystemIdentifiers(nodes, PathOf, IdentifierOf, OriginOf)
      ensures aggregates.order == Group(nodes, AggregateKeyOf).order
      ensures aggregates.items.Keys == Group(nodes, AggregateKeyOf).items.Keys
      ensures forall k :: k in aggregates.items ==>
        && fresh(aggregates.items[k])
        && aggregates.items[k].identifier == k
        && aggregates.items[k].State() == Partitioning.AddAll(Partitioning.EmptyPartition(), Group(nodes, AggregateKeyOf).items[k], DataOf, WORKSPACE_DIMENSION)
    {
      var groups: Arr<string, seq<Node>> := Empty();
      for i := 0 to |nodes|
        invariant groups == Group(nodes[..i], AggregateKeyOf)
        invariant systemNodeIdentifiers == old(systemNodeIdentifiers) + SystemIdentifiers(nodes[..i], PathOf, IdentifierOf, OriginOf)
      {
        var node := nodes[i];
        var key := AggregateKeyOf(node);
        groups := groups.Put(key, groups.Get(key).GetOr([]) + [node]);
        MarkIfSystem(node);
        assert nodes[..i + 1][..i] == nodes[..i];
      }
      assert nodes[..|nodes|] == nodes;
      GroupValid(nodes, AggregateKeyOf);
      aggregates := MakeAggregates(groups);
    }

    /** One aggregate per group, filed under the group's identifier, in the groups' order. */
    method MakeAggregates(groups: Arr<string, seq<Node>>) returns (aggregates: Arr<string, NodeAggregate>)
      requires groups.Valid()
      ensures aggregates.order == groups.order
      ensures aggregates.items.Keys == groups.items.Keys
      ensures forall k :: k in aggregates.items ==>
        && fresh(aggregates.items[k])
        && aggregates.items[k].identifier == k
        && aggregates.items[k].State() == Partitioning.AddAll(Partitioning.EmptyPartition(), groups.items[k], DataOf, WORKSPACE_DIMENSION)
    {
      aggregates := Empty();
      for j := 0 to |groups.order|
        invariant aggregates.order == groups.order[..j]
        invariant aggregates.items.Keys == set k | k in groups.order[..j]
        invariant forall k :: k in aggregates.items ==>
          && fresh(aggregates.items[k])
          && aggregates.items[k].identifier == k
          && aggregates.items[k].State() == Partitioning.AddAll(Partitioning.EmptyPartition(), groups.items[k], DataOf, WORKSPACE_DIMENSION)
      {
        var key := groups.order[j];
        assert key !in groups.order[..j] by {
          assert forall m :: 0 <= m < j ==> groups.order[..j][m] == groups.order[m];
        }
        var aggregate := new NodeAggregate(key, groups.items[key]);
        aggregates := aggregates.Put(key, aggregate);
        assert groups.order[..j + 1] == groups.order[..j] + [key];
      }
      assert groups.order[..|groups.order|] == groups.order;
    }

    /** What the subgraph of `workspace` at `point` sees of the aggregate. */
    ghost function Resolve(workspace: Workspace, point: Point, aggregate: NodeAggregate): Resolved<Node>
      reads this, aggregate
    {
      BestSuited(aggregate.IsRoot(), aggregate.identifier in systemNodeIdentifiers,
                 Partitioning.InWorkspace(aggregate.nodes.Values(), DataOf, workspace),
                 aggregate.nodes, point, weightedGeneralizations(point))
    }

    /**
     * The variant of the aggregate a subgraph sees: for a system aggregate
     * its first node; otherwise its node at the point, or else at the first
     * generalization, in weight order, that has one.
     */
    method FindBestSuitedNodeForSubgraph(workspace: Workspace, point: Point, aggregate: NodeAggregate) returns (r: Resolved<Node>)
      ensures r == Resolve(workspace, point, aggregate)
    {
      if aggregate.IsRoot() {
        // `isRoot()` never holds for an aggregate of this generation: the root branch is dead
        assert false;
      } else if aggregate.identifier in systemNodeIdentifiers {
        return FromReset(aggregate.nodes.First());
      }
      var node := aggregate.GetNodeByDimensionSpacePoint(point);
      if node.Some? {
        return Found(node.value);
      }
      var generalizations := weightedGeneralizations(point);
      for i := 0 to |generalizations|
        invariant FirstMatch(aggregate.nodes, generalizations) == FirstMatch(aggregate.nodes, generalizations[i..])
      {
        assert generalizations[i..][1..] == generalizations[i + 1..];
        node := aggregate.GetNodeByDimensionSpacePoint(generalizations[i]);
        if node.Some? {
          return Found(node.value);
        }
      }
      return Absent;
    }

    /** The registrations that follow from what the subgraph sees of the aggregate. */
    ghost function PickAt(aggregate: NodeAggregate, subgraph: ContentSubgraph): Result<seq<NodePick>>
      reads this, aggregate
    {
      PickFor(Resolve(subgraph.workspace, subgraph.dimensionSpacePoint, aggregate), subgraph)
    }

    /** The registrations for one aggregate across `subgraphs`, in order; the first failure ends them. */
    ghost function PicksIn(aggregate: NodeAggregate, subgraphs: seq<ContentSubgraph>): Result<seq<NodePick>>
      reads this, aggregate
      decreases |subgraphs|
    {
      if subgraphs == [] then Ok([])
      else Then(PicksIn(aggregate, subgraphs[..|subgraphs| - 1]), PickAt(aggregate, subgraphs[|subgraphs| - 1]))
    }

    /** The registrations for all aggregates, aggregate by aggregate; the first failure ends them. */
    ghost function Picks(aggregates: seq<NodeAggregate>, subgraphs: seq<ContentSubgraph>): Result<seq<NodePick>>
      reads this, aggregates
      decreases |aggregates|
    {
      if aggregates == [] then Ok([])
      else Then(Picks(aggregates[..|aggregates| - 1], subgraphs), PicksIn(aggregates[|aggregates| - 1], subgraphs))
    }

    /** Registers what one subgraph sees of the aggregate. */
    method AssignInSubgraph(registry: NodeAssignmentRegistry, aggregate: NodeAggregate, subgraph: ContentSubgraph)
      returns (failure: Option<Failure>)
      modifies registry
      ensures var p := PickAt(aggregate, subgraph);
        && (failure.Some? <==> p.Err?)
        && (failure.Some? ==> failure.value == p.failure)
        && (failure.None? ==> registry.nodesByPathAndSubgraph == NodesAfter(old(registry.nodesByPathAndSubgraph), p.value))
        && (failure.None? ==> registry.subgraphsByPathAndNodeIdentifier == SubgraphsAfter(old(registry.subgraphsByPathAndNodeIdentifier), p.value))
    {
      var resolved := FindBestSuitedNodeForSubgraph(subgraph.workspace, subgraph.dimensionSpacePoint, aggregate);
      match resolved {
        case ResetOfEmpty =>
          return Some(TypeError);
        case Absent =>
          return None;
        case Found(node) =>
          registry.RegisterNodeByPathAndSubgraphIdentifier(node.data.path, subgraph.identifier, node);
          var nodeIdentifier := node.CacheEntryIdentifier();
          if nodeIdentifier.None? {
            return Some(CallOnNull);
          }
          registry.RegisterSubgraphIdentifierByPathAndNodeIdentifier(node.data.path, nodeIdentifier.value, subgraph.identifier);
          return None;
      }
    }

    /** Registers what each subgraph sees of the aggregate, in order. */
    method AssignAggregate(registry: NodeAssignmentRegistry, aggregate: NodeAggregate, subgraphs: seq<ContentSubgraph>)
      returns (failure: Option<Failure>)
      modifies registry
      ensures failure.Some? <==> PicksIn(aggregate, subgraphs).Err?
      ensures failure.Some? ==> failure.value == PicksIn(aggregate, subgraphs).failure
      ensures failure.None? ==>
        registry.nodesByPathAndSubgraph == NodesAfter(old(registry.nodesByPathAndSubgraph), PicksIn(aggregate, subgraphs).value)
      ensures failure.None? ==>
        registry.subgraphsByPathAndNodeIdentifier == SubgraphsAfter(old(registry.subgraphsByPathAndNodeIdentifier), PicksIn(aggregate, subgraphs).value)
    {
      ghost var done: seq<NodePick> := [];
      for i := 0 to |subgraphs|
        invariant PicksIn(aggregate, subgraphs[..i]) == Ok(done)
        invariant registry.nodesByPathAndSubgraph == NodesAfter(old(registry.nodesByPathAndSubgraph), done)
        invariant registry.subgraphsByPathAndNodeIdentifier == SubgraphsAfter(old(registry.subgraphsByPathAndNodeIdentifier), done)
      {
        failure := AssignInSubgraph(registry, aggregate, subgraphs[i]);
        if failure.Some? {
          PicksInFailAt(aggregate, subgraphs, i);
          return;
        }
        PicksInGrowAt(aggregate, subgraphs, i, done, old(registry.nodesByPathAndSubgraph), old(registry.subgraphsByPathAndNodeIdentifier));
        done := done + PickAt(aggregate, subgraphs[i]).value;
      }
      assert subgraphs[..|subgraphs|] == subgraphs;
      failure := None;
    }

    /** The picks of one more aggregate follow those of the aggregates before it. */
    lemma PicksStep(aggregates: seq<NodeAggregate>, subgraphs: seq<ContentSubgraph>, i: nat)
      requires i < |aggregates|
      ensures Picks(aggregates[..i + 1], subgraphs) == Then(Picks(aggregates[..i], subgraphs), PicksIn(aggregates[i], subgraphs))
    {
      PrefixGrows(aggregates, i);
    }

    /** A failure at the subgraph at `i`, after the subgraphs before it succeed, is the failure of them all. */
    lemma PicksInFailAt(aggregate: NodeAggregate, subgraphs: seq<ContentSubgraph>, i: nat)
      requires i < |subgraphs| && PicksIn(aggregate, subgraphs[..i]).Ok? && PickAt(aggregate, subgraphs[i]).Err?
      ensures PicksIn(aggregate, subgraphs) == Err(PickAt(aggregate, subgraphs[i]).failure)
    {
      PrefixGrows(subgraphs, i);
      assert PicksIn(aggregate, subgraphs[..i + 1]) == Err(PickAt(aggregate, subgraphs[i]).failure);
      PicksInStayFailed(aggregate, subgraphs, i + 1);
    }

    /** Success at the subgraph at `i`, after the subgraphs before it succeed, adds its registrations to theirs. */
    lemma PicksInGrowAt(aggregate: NodeAggregate, subgraphs: seq<ContentSubgraph>, i: nat, done: seq<NodePick>,
                        nodes: NodesByPath<Node>, bySubgraph: SubgraphsByPath<Digest, SubgraphIdentifier>)
      requires i < |subgraphs| && PicksIn(aggregate, subgraphs[..i]) == Ok(done) && PickAt(aggregate, subgraphs[i]).Ok?
      ensures var more := PickAt(aggregate, subgraphs[i]).value;
        && PicksIn(aggregate, subgraphs[..i + 1]) == Ok(done + more)
        && NodesAfter(nodes, done + more) == NodesAfter(NodesAfter(nodes, done), more)
        && SubgraphsAfter(bySubgraph, done + more) == SubgraphsAfter(SubgraphsAfter(bySubgraph, done), more)
    {
      PrefixGrows(subgraphs, i);
      AfterAppend(nodes, bySubgraph, done, PickAt(aggregate, subgraphs[i]).value);
    }

    /** Once the registrations of a prefix of the subgraphs fail, those of every longer prefix fail alike. */
    lemma {:induction false} PicksInStayFailed(aggregate: NodeAggregate, subgraphs: seq<ContentSubgraph>, n: nat)
      requires n <= |subgraphs| && PicksIn(aggregate, subgraphs[..n]).Err?
      ensures forall k :: n <= k <= |subgraphs| ==> PicksIn(aggregate, subgraphs[..k]) == PicksIn(aggregate, subgraphs[..n])
      decreases |subgraphs| - n
    {
      if n < |subgraphs| {
        assert subgraphs[..n + 1][..n] == subgraphs[..n];
        PicksInStayFailed(aggregate, subgraphs, n + 1);
      }
    }

    /**
     * For every aggregate, in order, and every subgraph, in order, registers
     * the node the subgraph sees at its path in that subgraph, and the
     * subgraph among those of that node. The first failure ends the work.
     */
    method DetermineNodeAssignments(aggregates: seq<NodeAggregate>, subgraphs: seq<ContentSubgraph>) returns (r: Result<NodeAssignmentRegistry>)
      ensures r.Err? <==> Picks(aggregates, subgraphs).Err?
      ensures r.Err? ==> r.failure == Picks(aggregates, subgraphs).failure
      ensures r.Ok? ==> fresh(r.value)
      ensures r.Ok? ==> r.value.nodesByPathAndSubgraph == NodesAfter(Empty(), Picks(aggregates, subgraphs).value)
      ensures r.Ok? ==> r.value.subgraphsByPathAndNodeIdentifier == SubgraphsAfter(Empty(), Picks(aggregates, subgraphs).value)
    {
      var registry := new NodeAssignmentRegistry();
      ghost var done: seq<NodePick> := [];
      for i := 0 to |aggregates|
        invariant Picks(aggregates[..i], subgraphs) == Ok(done)
        invariant fresh(registry)
        invariant registry.nodesByPathAndSubgraph == NodesAfter(Empty(), done)
        invariant registry.subgraphsByPathAndNodeIdentifier == SubgraphsAfter(Empty(), done)
      {
        var failure;
        failure, done := AssignStep(registry, aggregates, subgraphs, i, done);
        if failure.Some? {
          return Err(failure.value);
        }
      }
      assert aggregates[..|aggregates|] == aggregates;
      return Ok(registry);
    }

    /** The registrations for the aggregate at `i`, after those of the aggregates before it. */
    method AssignStep(registry: NodeAssignmentRegistry, aggregates: seq<NodeAggregate>, subgraphs: seq<ContentSubgraph>, i: nat, ghost done: seq<NodePick>)
      returns (failure: Option<Failure>, ghost done': seq<NodePick>)
      requires i < |aggregates|
      requires Picks(aggregates[..i], subgraphs) == Ok(done)
      requires registry.nodesByPathAndSubgraph == NodesAfter(Empty(), done)
      requires registry.subgraphsByPathAndNodeIdentifier == SubgraphsAfter(Empty(), done)
      modifies registry
      ensures failure.Some? ==> Picks(aggregates, subgraphs) == Err(failure.value)
      ensures failure.None? ==> Picks(aggregates[..i + 1], subgraphs) == Ok(done')
      ensures failure.None? ==> registry.nodesByPathAndSubgraph == NodesAfter(Empty(), done')
      ensures failure.None? ==> registry.subgraphsByPathAndNodeIdentifier == SubgraphsAfter(Empty(), done')
    {
      failure := AssignAggregate(registry, aggregates[i], subgraphs);
      if failure.Some? {
        PicksFailAt(aggregates, subgraphs, i);
        done' := done;
        return;
      }
      done' := done + PicksIn(aggregates[i], subgraphs).value;
      PicksGrowAt(aggregates, subgraphs, i, done);
    }

    /** Success at the aggregate at `i`, after the aggregates before it succeed, adds its registrations to theirs. */
    lemma PicksGrowAt(aggregates: seq<NodeAggregate>, subgraphs: seq<ContentSubgraph>, i: nat, done: seq<NodePick>)
      requires i < |aggregates| && Picks(aggregates[..i], subgraphs) == Ok(done) && PicksIn(aggregates[i], subgraphs).Ok?
      ensures var more := PicksIn(aggregates[i], subgraphs).value;
        && Picks(aggregates[..i + 1], subgraphs) == Ok(done + more)
        && NodesAfter(Empty(), done + more) == NodesAfter(NodesAfter(Empty(), done), more)
        && SubgraphsAfter(Empty(), done + more) == SubgraphsAfter(SubgraphsAfter(Empty(), done), more)
    {
      PicksStep(aggregates, subgraphs, i);
      AfterAppend(Empty(), Empty(), done, PicksIn(aggregates[i], subgraphs).value);
    }

    /** A failure at the aggregate at `i`, after the aggregates before it succeed, is the failure of them all. */
    lemma PicksFailAt(aggregates: seq<NodeAggregate>, subgraphs: seq<ContentSubgraph>, i: nat)
      requires i < |aggregates| && Picks(aggregates[..i], subgraphs).Ok? && PicksIn(aggregates[i], subgraphs).Err?
      ensures Picks(aggregates, subgraphs) == Err(PicksIn(aggregates[i], subgraphs).failure)
    {
      PicksStep(aggregates, subgraphs, i);
      PicksStayFailed(aggregates, subgraphs, i + 1);
      assert aggregates[..|aggregates|] == aggregates;
    }

    /** Once the registrations of a prefix of the aggregates fail, those of every longer prefix fail alike. */
    lemma {:induction false} PicksStayFailed(aggregates: seq<NodeAggregate>, subgraphs: seq<ContentSubgraph>, n: nat)
      requires n <= |aggregates| && Picks(aggregates[..n], subgraphs).Err?
      ensures forall k :: n <= k <= |aggregates| ==> Picks(aggregates[..k], subgraphs) == Picks(aggregates[..n], subgraphs)
      decreases |aggregates| - n
    {
      if n < |aggregates| {
        assert aggregates[..n + 1][..n] == aggregates[..n];
        PicksStayFailed(aggregates, subgraphs, n + 1);
      }
    }

    /** `p` is among the registrations that follow from what the subgraph sees of the aggregate. */
    ghost predicate PickedIn(aggregate: NodeAggregate, subgraph: ContentSubgraph, p: NodePick)
      reads this, aggregate
    {
      PickAt(aggregate, subgraph).Ok? && p in PickAt(aggregate, subgraph).value
    }

    /**
     * The registrations for one aggregate succeed exactly when every
     * subgraph's do; otherwise the failure is that of a subgraph whose
     * registrations fail.
     */
    lemma {:induction false} PicksInOk(aggregate: NodeAggregate, subgraphs: seq<ContentSubgraph>)
      ensures PicksIn(aggregate, subgraphs).Ok? <==> forall j :: 0 <= j < |subgraphs| ==> PickAt(aggregate, subgraphs[j]).Ok?
      ensures PicksIn(aggregate, subgraphs).Err? ==> exists j :: 0 <= j < |subgraphs| && PickAt(aggregate, subgraphs[j]) == PicksIn(aggregate, subgraphs)
      decreases |subgraphs|
    {
      if subgraphs != [] {
        var init := subgraphs[..|subgraphs| - 1];
        PicksInOk(aggregate, init);
        assert forall j :: 0 <= j < |init| ==> init[j] == subgraphs[j];
      }
    }

    /** When the registrations for one aggregate succeed, they are exactly those of the subgraphs. */
    lemma {:induction false} PicksInMembers(aggregate: NodeAggregate, subgraphs: seq<ContentSubgraph>, p: NodePick)
      requires PicksIn(aggregate, subgraphs).Ok?
      ensures p in PicksIn(aggregate, subgraphs).value <==> exists j :: 0 <= j < |subgraphs| && PickedIn(aggregate, subgraphs[j], p)
      decreases |subgraphs|
    {
      if subgraphs != [] {
        var init := subgraphs[..|subgraphs| - 1];
        var last := subgraphs[|subgraphs| - 1];
        PicksInMembers(aggregate, init, p);
        if p in PicksIn(aggregate, init).value {
          var j :| 0 <= j < |init| && PickedIn(aggregate, init[j], p);
          assert subgraphs[j] == init[j];
        } else if PickedIn(aggregate, last, p) {
          assert subgraphs[|subgraphs| - 1] == last;
        }
        if exists j :: 0 <= j < |subgraphs| && PickedIn(aggregate, subgraphs[j], p) {
          var j :| 0 <= j < |subgraphs| && PickedIn(aggregate, subgraphs[j], p);
          if j < |init| {
            assert init[j] == subgraphs[j];
          }
        }
      }
    }

    /** The registrations for all aggregates succeed exactly when every pair of aggregate and subgraph does. */
    lemma {:induction false} PicksOk(aggregates: seq<NodeAggregate>, subgraphs: seq<ContentSubgraph>)
      ensures Picks(aggregates, subgraphs).Ok? <==>
        forall i, j :: 0 <= i < |aggregates| && 0 <= j < |subgraphs| ==> PickAt(aggregates[i], subgraphs[j]).Ok?
      decreases |aggregates|
    {
      if aggregates != [] {
        var init := aggregates[..|aggregates| - 1];
        var last := aggregates[|aggregates| - 1];
        PicksOk(init, subgraphs);
        PicksInOk(last, subgraphs);
        assert forall i :: 0 <= i < |init| ==> init[i] == aggregates[i];
        if Picks(init, subgraphs).Err? {
          var i, j :| 0 <= i < |init| && 0 <= j < |subgraphs| && !PickAt(init[i], subgraphs[j]).Ok?;
          assert aggregates[i] == init[i];
        }
      }
    }

    /** When the registrations for all aggregates succeed, they include those of every pair of aggregate and subgraph. */
    lemma {:induction false} PicksInclude(aggregates: seq<NodeAggregate>, subgraphs: seq<ContentSubgraph>, i: nat, j: nat, p: NodePick)
      requires Picks(aggregates, subgraphs).Ok?
      requires i < |aggregates| && j < |subgraphs| && PickedIn(aggregates[i], subgraphs[j], p)
      ensures p in Picks(aggregates, subgraphs).value
      decreases |aggregates|
    {
      var init := aggregates[..|aggregates| - 1];
      var last := aggregates[|aggregates| - 1];
      if i == |aggregates| - 1 {
        PicksInMembers(last, subgraphs, p);
      } else {
        assert init[i] == aggregates[i];
        PicksInclude(init, subgraphs, i, j, p);
      }
    }

    /** Every registration for all aggregates is one of some pair of aggregate and subgraph. */
    lemma {:induction false} PicksCameFromPairs(aggregates: seq<NodeAggregate>, subgraphs: seq<ContentSubgraph>, p: NodePick)
      requires Picks(aggregates, subgraphs).Ok? && p in Picks(aggregates, subgraphs).value
      ensures exists i, j :: 0 <= i < |aggregates| && 0 <= j < |subgraphs| && PickedIn(aggregates[i], subgraphs[j], p)
      decreases |aggregates|
    {
      var init := aggregates[..|aggregates| - 1];
      var last := aggregates[|aggregates| - 1];
      if p in Picks(init, subgraphs).value {
        PicksCameFromPairs(init, subgraphs, p);
        var i, j :| 0 <= i < |init| && 0 <= j < |subgraphs| && PickedIn(init[i], subgraphs[j], p);
        assert aggregates[i] == init[i];
      } else {
        PicksInMembers(last, subgraphs, p);
        var j :| 0 <= j < |subgraphs| && PickedIn(last, subgraphs[j], p);
        assert aggregates[|aggregates| - 1] == last;
      }
    }

    /**
     * When the assignments succeed, each node a subgraph sees has a cache
     * entry identifier, and the subgraph is among those registered for that
     * node at its path.
     */
    lemma AssignmentsComplete(aggregates: seq<NodeAggregate>, subgraphs: seq<ContentSubgraph>, i: nat, j: nat)
      requires Picks(aggregates, subgraphs).Ok?
      requires i < |aggregates| && j < |subgraphs|
      requires Resolve(subgraphs[j].workspace, subgraphs[j].dimensionSpacePoint, aggregates[i]).Found?
      ensures var n := Resolve(subgraphs[j].workspace, subgraphs[j].dimensionSpacePoint, aggregates[i]).node;
        && n.CacheEntryIdentifier().Some?
        && subgraphs[j].identifier.ToString()
             in SubgraphsAt(SubgraphsAfter(Empty(), Picks(aggregates, subgraphs).value), n.data.path, n.CacheEntryIdentifier().value).items
    {
      var picks := Picks(aggregates, subgraphs).value;
      PicksOk(aggregates, subgraphs);
      var pick := PickAt(aggregates[i], subgraphs[j]).value[0];
      PicksInclude(aggregates, subgraphs, i, j, pick);
      var k :| 0 <= k < |picks| && picks[k] == pick;
      SubgraphsAfterHoldEach(Empty(), picks, k);
    }

    /**
     * When the assignments succeed, every node registered at a path in a
     * subgraph is the node that subgraph sees of some aggregate, and lies at
     * that path.
     */
    lemma AssignmentsSound(aggregates: seq<NodeAggregate>, subgraphs: seq<ContentSubgraph>, path: string, key: Digest)
      requires Picks(aggregates, subgraphs).Ok?
      requires NodeAt(NodesAfter(Empty(), Picks(aggregates, subgraphs).value), path, key).Some?
      ensures var n := NodeAt(NodesAfter(Empty(), Picks(aggregates, subgraphs).value), path, key).value;
        exists i, j :: 0 <= i < |aggregates| && 0 <= j < |subgraphs|
          && Resolve(subgraphs[j].workspace, subgraphs[j].dimensionSpacePoint, aggregates[i]) == Found(n)
          && subgraphs[j].identifier.ToString() == key && n.data.path == path
    {
      var picks := Picks(aggregates, subgraphs).value;
      NodesAfterCameFromPicks(Empty(), picks, path, key);
      var k :| 0 <= k < |picks| && picks[k].path == path && picks[k].key == key
        && NodeAt(NodesAfter(Empty(), picks), path, key) == Some(picks[k].node);
      PicksCameFromPairs(aggregates, subgraphs, picks[k]);
      var i, j :| 0 <= i < |aggregates| && 0 <= j < |subgraphs| && PickedIn(aggregates[i], subgraphs[j], picks[k]);
      PickForFound(Resolve(subgraphs[j].workspace, subgraphs[j].dimensionSpacePoint, aggregates[i]), subgraphs[j], picks[k]);
    }
  }
}
