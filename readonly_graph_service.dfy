/**
 * GraphService of the older generation, over ReadOnlyNode: it files the
 * workspaces by name, builds one subgraph per point of the allowed dimension
 * subspace, makes one node per record under the record's persistence
 * identifier, groups nodes into aggregates, and decides for every aggregate
 * and subgraph which variant the subgraph sees, recording each decision in a
 * NodeAssignmentRegistry.
 */
module ReadOnlyGraphService {
  import opened Wrappers
  import opened PhpArrays
  import opened Content
  import opened Resolution
  import Partitioning
  import Points
  import opened Registries
  import opened ReadOnlyNodes
  import opened ReadOnlyAggregates
  import opened ReadOnlySubgraphs
  import opened ReadOnlyRegistry
  import ReadOnlySubgraphIdentifier
  import ReadOnlyPointFactory
  import ReadOnlyGraphs

  /** One registration the service makes: node and subgraph, filed under the node's path. */
  type NodePick = Pick<ReadOnlyNode, string, SubgraphIdentifier>

  /** The aggregate identifier a node is grouped under: the root identifier for the root path. */
  function AggregateKeyOf(n: ReadOnlyNode): string {
    GroupKey(n.data.path, n.Identifier())
  }

  function PathOf(n: ReadOnlyNode): string {
    n.data.path
  }

  function IdentifierOf(n: ReadOnlyNode): string {
    n.Identifier()
  }

  function PointOf(n: ReadOnlyNode): Point {
    n.dimensionSpacePoint
  }

  /**
   * The registrations that follow from what a subgraph sees of an
   * aggregate: none when it sees nothing; the node under the subgraph's
   * string form and the subgraph under the node's persistence identifier
   * when it sees a node. `reset` of no nodes is refused by the
   * `?ReadOnlyNode` return type.
   */
  function PickFor(resolved: Resolved<ReadOnlyNode>, subgraph: ContentSubgraph): Result<seq<NodePick>> {
    match resolved
    case ResetOfEmpty => Err(TypeError)
    case Absent => Ok([])
    case Found(n) => Ok([Pick(n.data.path, subgraph.identifier.ToString(), subgraph.identifier, n, n.nodeIdentifier)])
  }

  /** A registration only follows from a node found, at that node's path and under the subgraph's key. */
  lemma PickForFound(resolved: Resolved<ReadOnlyNode>, subgraph: ContentSubgraph, p: NodePick)
    requires PickFor(resolved, subgraph).Ok? && p in PickFor(resolved, subgraph).value
    ensures resolved == Found(p.node)
    ensures p.key == subgraph.identifier.ToString() && p.path == p.node.data.path
  {
  }

  /** The registrations of `first`, then those of `second`; the first failure ends them. */
  function Then(first: Result<seq<NodePick>>, second: Result<seq<NodePick>>): Result<seq<NodePick>> {
    if first.Err? then first else if second.Err? then second else Ok(first.value + second.value)
  }

  /** The string form of the subgraph of workspace `w` at point `p`. */
  function SubgraphKeyOf(w: Workspace, p: Point): Digest {
    ReadOnlySubgraphIdentifier.SubgraphIdentifier(w.name, p).ToString()
  }

  /** Every point's workspace is indexed and the point's subgraph is filed. */
  ghost predicate PointsFiled(subgraphs: Arr<Digest, ContentSubgraph>, indexed: Arr<string, Workspace>, dimension: string, points: seq<Point>) {
    forall j :: 0 <= j < |points| ==>
      && WorkspaceFor(indexed, points[j], dimension).Some?
      && SubgraphKeyOf(WorkspaceFor(indexed, points[j], dimension).value, points[j]) in subgraphs.items
  }

  /** Every subgraph is filed under its string form and is that of one of the points, in the workspace the point names. */
  ghost predicate FiledFromPoints(subgraphs: Arr<Digest, ContentSubgraph>, indexed: Arr<string, Workspace>, dimension: string, points: seq<Point>) {
    && ReadOnlyGraphs.KeyedByIdentifier(subgraphs)
    && (forall h :: h in subgraphs.items ==> subgraphs.items[h].dimensionSpacePoint in points)
    && (forall h :: h in subgraphs.items ==>
          WorkspaceFor(indexed, subgraphs.items[h].dimensionSpacePoint, dimension) == Some(subgraphs.items[h].workspace))
  }

  /** Every point names an indexed workspace. */
  ghost predicate AllIndexed(indexed: Arr<string, Workspace>, dimension: string, points: seq<Point>) {
    forall j :: 0 <= j < |points| ==> WorkspaceFor(indexed, points[j], dimension).Some?
  }

  /** The string forms of the subgraphs of `points`, in the points' order. */
  ghost function SubgraphKeys(indexed: Arr<string, Workspace>, dimension: string, points: seq<Point>): seq<Digest>
    requires AllIndexed(indexed, dimension, points)
  {
    seq(|points|, j requires 0 <= j < |points| => SubgraphKeyOf(WorkspaceFor(indexed, points[j], dimension).value, points[j]))
  }

  /** `subgraphs` are exactly those of `points`, filed in the points' order. */
  ghost predicate SubgraphsOf(subgraphs: Arr<Digest, ContentSubgraph>, indexed: Arr<string, Workspace>, dimension: string, points: seq<Point>) {
    && PointsFiled(subgraphs, indexed, dimension, points)
    && FiledFromPoints(subgraphs, indexed, dimension, points)
    && WrittenInTurn(subgraphs, SubgraphKeys(indexed, dimension, points))
  }

  /** Filing the subgraph of one more point keeps every point filed. */
  lemma PointsFiledExtend(subgraphs: Arr<Digest, ContentSubgraph>, indexed: Arr<string, Workspace>, dimension: string,
                          points: seq<Point>, s: ContentSubgraph)
    requires PointsFiled(subgraphs, indexed, dimension, points)
    requires WorkspaceFor(indexed, s.dimensionSpacePoint, dimension) == Some(s.workspace)
    requires s.identifier == ReadOnlySubgraphIdentifier.SubgraphIdentifier(s.workspace.name, s.dimensionSpacePoint)
    ensures PointsFiled(subgraphs.Put(s.identifier.ToString(), s), indexed, dimension, points + [s.dimensionSpacePoint])
  {
    var points' := points + [s.dimensionSpacePoint];
    var key := s.identifier.ToString();
    var subgraphs' := subgraphs.Put(key, s);
    assert subgraphs'.items == subgraphs.items[key := s];
    forall j | 0 <= j < |points'|
      ensures WorkspaceFor(indexed, points'[j], dimension).Some?
      ensures SubgraphKeyOf(WorkspaceFor(indexed, points'[j], dimension).value, points'[j]) in subgraphs'.items
    {
      if j < |points| {
        assert points'[j] == points[j];
      } else {
        assert SubgraphKeyOf(s.workspace, s.dimensionSpacePoint) == key;
      }
    }
  }

  /** Filing the subgraph of one more point keeps every subgraph one of the points'. */
  lemma FiledFromPointsExtend(subgraphs: Arr<Digest, ContentSubgraph>, indexed: Arr<string, Workspace>, dimension: string,
                              points: seq<Point>, s: ContentSubgraph)
    requires FiledFromPoints(subgraphs, indexed, dimension, points)
    requires WorkspaceFor(indexed, s.dimensionSpacePoint, dimension) == Some(s.workspace)
    ensures FiledFromPoints(subgraphs.Put(s.identifier.ToString(), s), indexed, dimension, points + [s.dimensionSpacePoint])
  {
    var points' := points + [s.dimensionSpacePoint];
    var key := s.identifier.ToString();
    var subgraphs' := subgraphs.Put(key, s);
    assert subgraphs'.items == subgraphs.items[key := s];
    forall h | h in subgraphs'.items
      ensures subgraphs'.items[h].identifier.ToString() == h
      ensures subgraphs'.items[h].dimensionSpacePoint in points'
      ensures WorkspaceFor(indexed, subgraphs'.items[h].dimensionSpacePoint, dimension) == Some(subgraphs'.items[h].workspace)
    {
      if h != key {
        assert subgraphs'.items[h] == subgraphs.items[h];
        var j :| 0 <= j < |points| && points[j] == subgraphs.items[h].dimensionSpacePoint;
        assert points'[j] == points[j];
      } else {
        assert points'[|points|] == s.dimensionSpacePoint;
      }
    }
  }

  /** Filing the subgraph of the `i`th point extends the string forms written for the points before it. */
  lemma KeysWrittenStep(subgraphs: Arr<Digest, ContentSubgraph>, indexed: Arr<string, Workspace>, dimension: string,
                        points: seq<Point>, i: nat, s: ContentSubgraph)
    requires i < |points| && s.dimensionSpacePoint == points[i]
    requires AllIndexed(indexed, dimension, points[..i])
    requires WrittenInTurn(subgraphs, SubgraphKeys(indexed, dimension, points[..i]))
    requires WorkspaceFor(indexed, s.dimensionSpacePoint, dimension) == Some(s.workspace)
    requires s.identifier == ReadOnlySubgraphIdentifier.SubgraphIdentifier(s.workspace.name, s.dimensionSpacePoint)
    ensures WrittenInTurn(subgraphs.Put(s.identifier.ToString(), s), SubgraphKeys(indexed, dimension, points[..i + 1]))
  {
    PrefixGrows(points, i);
    assert SubgraphKeys(indexed, dimension, points[..i + 1]) == SubgraphKeys(indexed, dimension, points[..i]) + [s.identifier.ToString()];
    PutWrittenInTurn(subgraphs, SubgraphKeys(indexed, dimension, points[..i]), s.identifier.ToString(), s);
  }

  /** Filing the subgraph of the next point extends both the subgraphs filed and the order they are filed in. */
  lemma SubgraphFiledStep(subgraphs: Arr<Digest, ContentSubgraph>, indexed: Arr<string, Workspace>, dimension: string,
                          points: seq<Point>, i: nat, s: ContentSubgraph)
    requires i < |points| && s.dimensionSpacePoint == points[i]
    requires SubgraphsOf(subgraphs, indexed, dimension, points[..i])
    requires WorkspaceFor(indexed, s.dimensionSpacePoint, dimension) == Some(s.workspace)
    requires s.identifier == ReadOnlySubgraphIdentifier.SubgraphIdentifier(s.workspace.name, s.dimensionSpacePoint)
    ensures SubgraphsOf(subgraphs.Put(s.identifier.ToString(), s), indexed, dimension, points[..i + 1])
  {
    PointsFiledExtend(subgraphs, indexed, dimension, points[..i], s);
    FiledFromPointsExtend(subgraphs, indexed, dimension, points[..i], s);
    PrefixGrows(points, i);
    KeysWrittenStep(subgraphs, indexed, dimension, points, i, s);
  }

  /** The array left by filing each of `made`, in turn, under its string form. */
  function FiledInTurn(made: seq<ContentSubgraph>): Arr<Digest, ContentSubgraph>
    decreases |made|
  {
    if made == [] then Empty()
    else FiledInTurn(made[..|made| - 1]).Put(made[|made| - 1].identifier.ToString(), made[|made| - 1])
  }

  /** `made` holds, for each of `points` in turn, a subgraph of that point in the workspace it names. */
  ghost predicate MadeFor(made: seq<ContentSubgraph>, indexed: Arr<string, Workspace>, dimension: string, points: seq<Point>) {
    |made| == |points| &&
    forall j :: 0 <= j < |made| ==>
      && made[j].dimensionSpacePoint == points[j]
      && WorkspaceFor(indexed, points[j], dimension) == Some(made[j].workspace)
      && made[j].identifier == ReadOnlySubgraphIdentifier.SubgraphIdentifier(made[j].workspace.name, points[j])
  }

  /** One more subgraph, of the next point in the workspace it names, extends what was made. */
  lemma MadeForStep(made: seq<ContentSubgraph>, indexed: Arr<string, Workspace>, dimension: string, points: seq<Point>,
                    i: nat, s: ContentSubgraph)
    requires i < |points| && MadeFor(made, indexed, dimension, points[..i])
    requires s.dimensionSpacePoint == points[i] && WorkspaceFor(indexed, points[i], dimension) == Some(s.workspace)
    requires s.identifier == ReadOnlySubgraphIdentifier.SubgraphIdentifier(s.workspace.name, points[i])
    ensures MadeFor(made + [s], indexed, dimension, points[..i + 1])
  {
    PrefixGrows(points, i);
  }

  /** Every subgraph filed by filing `made` in turn is one of `made`. */
  lemma {:induction false} FiledFromMade(made: seq<ContentSubgraph>)
    ensures forall k :: k in FiledInTurn(made).items ==> FiledInTurn(made).items[k] in made
    decreases |made|
  {
    if made != [] {
      var n := |made| - 1;
      FiledFromMade(made[..n]);
      forall k | k in FiledInTurn(made).items
        ensures FiledInTurn(made).items[k] in made
      {
        if k != made[n].identifier.ToString() {
          var j :| 0 <= j < n && made[..n][j] == FiledInTurn(made[..n]).items[k];
          assert made[j] == made[..n][j];
        }
      }
    }
  }

  /**
   * Filing the subgraphs made for `points` in turn files exactly the
   * subgraphs of `points`, in the points' order.
   */
  lemma {:induction false} MadeForFiled(made: seq<ContentSubgraph>, indexed: Arr<string, Workspace>, dimension: string, points: seq<Point>)
    requires MadeFor(made, indexed, dimension, points)
    ensures SubgraphsOf(FiledInTurn(made), indexed, dimension, points)
    decreases |made|
  {
    if made == [] {
      assert SubgraphKeys(indexed, dimension, points) == [];
    } else {
      var n := |made| - 1;
      assert MadeFor(made[..n], indexed, dimension, points[..n]);
      MadeForFiled(made[..n], indexed, dimension, points[..n]);
      SubgraphFiledStep(FiledInTurn(made[..n]), indexed, dimension, points, n, made[n]);
      PrefixGrows(points, n);
    }
  }

  /** The point the point factory gives a record. */
  function PointFor(d: NodeData, dimensions: seq<string>): Point {
    Point(Points.Coordinates(d, dimensions, WORKSPACE_DIMENSION))
  }

  /**
   * `$nodes[$nodeIdentifier] = new ReadOnlyNode(...)` for each record, with
   * its persistence identifier, in turn.
   */
  function NodesFor(records: seq<(NodeData, string)>, dimensions: seq<string>): Arr<string, ReadOnlyNode>
    decreases |records|
  {
    if records == [] then Empty()
    else
      var last := records[|records| - 1];
      NodesFor(records[..|records| - 1], dimensions).Put(last.1, ReadOnlyNode(last.0, last.1, PointFor(last.0, dimensions)))
  }

  /** A persistence identifier has a node exactly when some record has it. */
  lemma {:induction false} NodesForHas(records: seq<(NodeData, string)>, dimensions: seq<string>, k: string)
    ensures k in NodesFor(records, dimensions).items <==> exists j :: 0 <= j < |records| && records[j].1 == k
    decreases |records|
  {
    if records != [] {
      var init := records[..|records| - 1];
      NodesForHas(init, dimensions, k);
      if exists j :: 0 <= j < |records| && records[j].1 == k {
        var j :| 0 <= j < |records| && records[j].1 == k;
        if j < |init| {
          assert init[j] == records[j];
        }
      }
      if exists j :: 0 <= j < |init| && init[j].1 == k {
        var j :| 0 <= j < |init| && init[j].1 == k;
        assert records[j] == init[j];
      }
    }
  }

  /**
   * The node under a persistence identifier is that of the last record with
   * it, at the point the point factory gives that record.
   */
  lemma {:induction false} NodesForLastWins(records: seq<(NodeData, string)>, dimensions: seq<string>, j: nat)
    requires j < |records|
    requires forall l :: j < l < |records| ==> records[l].1 != records[j].1
    ensures records[j].1 in NodesFor(records, dimensions).items
    ensures NodesFor(records, dimensions).items[records[j].1]
      == ReadOnlyNode(records[j].0, records[j].1, PointFor(records[j].0, dimensions))
    decreases |records|
  {
    if j < |records| - 1 {
      var init := records[..|records| - 1];
      assert init[j] == records[j];
      forall l | j < l < |init|
        ensures init[l].1 != init[j].1
      {
        assert init[l] == records[l];
      }
      NodesForLastWins(init, dimensions, j);
    }
  }

  class GraphService {
    /** `getWeightedGeneralizations` of the variation graph, taken as given */
    const weightedGeneralizations: Point -> seq<Point>
    /** `getAllowedDimensionSubspace` of the dimension zookeeper, taken as given */
    const allowedDimensionSubspace: seq<Point>
    /** the dimension identifiers, in priority order, the point factory reads records by */
    const dimensions: seq<string>
    /** the dimension whose coordinate names the workspace */
    const workspaceDimensionIdentifier: string
    /** workspace name to workspace; null until indexed, which every read treats as `[]` */
    var indexedWorkspaces: Arr<string, Workspace>
    /** the identifiers of the system aggregates; only whether one is set is ever asked */
    var systemNodeIdentifiers: set<string>

    /** The workspace dimension is named by the literal `_workspace`. */
    constructor(weightedGeneralizations: Point -> seq<Point>, allowedDimensionSubspace: seq<Point>, dimensions: seq<string>)
      ensures this.weightedGeneralizations == weightedGeneralizations
      ensures this.allowedDimensionSubspace == allowedDimensionSubspace && this.dimensions == dimensions
      ensures workspaceDimensionIdentifier == WORKSPACE_DIMENSION
      ensures indexedWorkspaces == Empty() && systemNodeIdentifiers == {}
    {
      this.weightedGeneralizations := weightedGeneralizations;
      this.allowedDimensionSubspace := allowedDimensionSubspace;
      this.dimensions := dimensions;
      workspaceDimensionIdentifier := WORKSPACE_DIMENSION;
      indexedWorkspaces := Empty();
      systemNodeIdentifiers := {};
    }

    /** Files the repository's workspaces under their names. */
    method IndexWorkspaces(workspaces: seq<Workspace>)
      modifies this`indexedWorkspaces
      ensures indexedWorkspaces == IndexedByName(old(indexedWorkspaces), workspaces)
    {
      for i := 0 to |workspaces|
        invariant indexedWorkspaces == IndexedByName(old(indexedWorkspaces), workspaces[..i])
      {
        assert workspaces[..i + 1][..i] == workspaces[..i];
        indexedWorkspaces := indexedWorkspaces.Put(workspaces[i].name, workspaces[i]);
      }
      assert workspaces[..|workspaces|] == workspaces;
    }

    function GetWorkspaceForDimensionSpacePoint(p: Point): Option<Workspace>
      reads this`indexedWorkspaces
    {
      WorkspaceFor(indexedWorkspaces, p, workspaceDimensionIdentifier)
    }

    /**
     * One subgraph per point of the allowed subspace, filed under its string
     * form. A point whose workspace is not indexed hands null to the
     * subgraph's constructor, which its signature refuses.
     */
    method GetSubgraphs() returns (r: Result<Arr<Digest, ContentSubgraph>>)
      ensures r.Err? <==> exists i :: 0 <= i < |allowedDimensionSubspace| && GetWorkspaceForDimensionSpacePoint(allowedDimensionSubspace[i]).None?
      ensures r.Err? ==> r.failure == TypeError
      ensures r.Ok? ==> SubgraphsOf(r.value, indexedWorkspaces, workspaceDimensionIdentifier, allowedDimensionSubspace)
      ensures r.Ok? ==> forall k :: k in r.value.items ==> fresh(r.value.items[k]) && r.value.items[k].Unpopulated()
    {
      var subgraphs: Arr<Digest, ContentSubgraph> := Empty();
      ghost var made: seq<ContentSubgraph> := [];
      var i := 0;
      while i < |allowedDimensionSubspace| && GetWorkspaceForDimensionSpacePoint(allowedDimensionSubspace[i]).Some?
        invariant i <= |allowedDimensionSubspace| && MadeFor(made, indexedWorkspaces, workspaceDimensionIdentifier, allowedDimensionSubspace[..i])
        invariant subgraphs == FiledInTurn(made)
        invariant forall j :: 0 <= j < |made| ==> fresh(made[j]) && made[j].Unpopulated()
      {
        var p := allowedDimensionSubspace[i];
        var s := new ContentSubgraph(GetWorkspaceForDimensionSpacePoint(p).value, p);
        MadeForStep(made, indexedWorkspaces, workspaceDimensionIdentifier, allowedDimensionSubspace, i, s);
        assert (made + [s])[..|made|] == made;
        made := made + [s];
        subgraphs := subgraphs.Put(s.identifier.ToString(), s);
        i := i + 1;
      }
      if i < |allowedDimensionSubspace| {
        return Err(TypeError);
      }
      assert allowedDimensionSubspace[..|allowedDimensionSubspace|] == allowedDimensionSubspace;
      MadeForFiled(made, indexedWorkspaces, workspaceDimensionIdentifier, allowedDimensionSubspace);
      FiledFromMade(made);
      return Ok(subgraphs);
    }

    /**
     * One node per record, filed under the record's persistence identifier,
     * a later record replacing an earlier one with the same identifier.
     */
    method CreateNodes(records: seq<(NodeData, string)>) returns (nodes: Arr<string, ReadOnlyNode>)
      ensures nodes == NodesFor(records, dimensions)
    {
      nodes := Empty();
      for i := 0 to |records|
        invariant nodes == NodesFor(records[..i], dimensions)
      {
        var (record, nodeIdentifier) := records[i];
        var p := ReadOnlyPointFactory.CreateFromNodeData(record, dimensions);
        nodes := nodes.Put(nodeIdentifier, ReadOnlyNode(record, nodeIdentifier, p));
        PrefixGrows(records, i);
      }
      assert records[..|records|] == records;
    }

    /** Marks the node's aggregate as a system aggregate when a coordinate of its point stands for no value, unless it lies at the root path. */
    method MarkIfSystem(node: ReadOnlyNode)
      modifies this`systemNodeIdentifiers
      ensures systemNodeIdentifiers == old(systemNodeIdentifiers) + SystemIdentifiers([node], PathOf, IdentifierOf, PointOf)
    {
      assert [node][..0] == [];
      if node.data.path != ROOT_PATH {
        var values := node.dimensionSpacePoint.coordinates.Values();
        for i := 0 to |values|
          invariant systemNodeIdentifiers == old(systemNodeIdentifiers) + (if NO_VALUE in values[..i] then {node.Identifier()} else {})
        {
          assert values[..i + 1] == values[..i] + [values[i]];
          if values[i] == NO_VALUE {
            systemNodeIdentifiers := systemNodeIdentifiers + {node.Identifier()};
          }
        }
        assert values[..|values|] == values;
      }
    }

    /**
     * Groups the nodes by aggregate identifier, the root path's under the
     * root identifier, marking system aggregates on the way; then makes one
     * aggregate of each group, in the order the groups first appeared.
     */
    method GroupNodesToAggregates(nodes: seq<ReadOnlyNode>) returns (aggregates: Arr<string, ReadOnlyNodeAggregate>)
      modifies this`systemNodeIdentifiers
      ensures systemNodeIdentifiers == old(systemNodeIdentifiers) + SystemIdentifiers(nodes, PathOf, IdentifierOf, PointOf)
      ensures aggregates.order == Group(nodes, AggregateKeyOf).order
      ensures aggregates.items.Keys == Group(nodes, AggregateKeyOf).items.Keys
      ensures forall k :: k in aggregates.items ==>
        && fresh(aggregates.items[k])
        && aggregates.items[k].identifier == k
        && aggregates.items[k].State() == Partitioning.AddAll(Partitioning.EmptyPartition(), Group(nodes, AggregateKeyOf).items[k], DataOf, WORKSPACE_DIMENSION)
    {
      var groups: Arr<string, seq<ReadOnlyNode>> := Empty();
      for i := 0 to |nodes|
        invariant groups == Group(nodes[..i], AggregateKeyOf)
        invariant systemNodeIdentifiers == old(systemNodeIdentifiers) + SystemIdentifiers(nodes[..i], PathOf, IdentifierOf, PointOf)
      {
        var node := nodes[i];
        var key := AggregateKeyOf(node);
        groups := groups.Put(key, groups.Get(key).GetOr([]) + [node]);
        MarkIfSystem(node);
        assert nodes[..i + 1][..i] == nodes[..i];
      }
      assert nodes[..|nodes|] == nodes;
      GroupValid(nodes, AggregateKeyOf);
      aggregates := MakeAggregates(groups);
    }

    /** One aggregate per group, filed under the group's identifier, in the groups' order. */
    method MakeAggregates(groups: Arr<string, seq<ReadOnlyNode>>) returns (aggregates: Arr<string, ReadOnlyNodeAggregate>)
      requires groups.Valid()
      ensures aggregates.order == groups.order
      ensures aggregates.items.Keys == groups.items.Keys
      ensures forall k :: k in aggregates.items ==>
        && fresh(aggregates.items[k])
        && aggregates.items[k].identifier == k
        && aggregates.items[k].State() == Partitioning.AddAll(Partitioning.EmptyPartition(), groups.items[k], DataOf, WORKSPACE_DIMENSION)
    {
      aggregates := Empty();
      for j := 0 to |groups.order|
        invariant aggregates.order == groups.order[..j]
        invariant aggregates.items.Keys == set k | k in groups.order[..j]
        invariant forall k :: k in aggregates.items ==>
          && fresh(aggregates.items[k])
          && aggregates.items[k].identifier == k
          && aggregates.items[k].State() == Partitioning.AddAll(Partitioning.EmptyPartition(), groups.items[k], DataOf, WORKSPACE_DIMENSION)
      {
        var key := groups.order[j];
        assert key !in groups.order[..j] by {
          assert forall m :: 0 <= m < j ==> groups.order[..j][m] == groups.order[m];
        }
        var aggregate := new ReadOnlyNodeAggregate(key, groups.items[key]);
        aggregates := aggregates.Put(key, aggregate);
        assert groups.order[..j + 1] == groups.order[..j] + [key];
      }
      assert groups.order[..|groups.order|] == groups.order;
    }

    /** What the subgraph of `workspace` at `point` sees of the aggregate. */
    ghost function Resolve(workspace: Workspace, point: Point, aggregate: ReadOnlyNodeAggregate): Resolved<ReadOnlyNode>
      reads this, aggregate
    {
      BestSuited(aggregate.IsRoot(), aggregate.identifier in systemNodeIdentifiers,
                 Partitioning.InWorkspace(aggregate.nodes.Values(), DataOf, workspace),
                 aggregate.nodes, point, weightedGeneralizations(point))
    }

    /**
     * The variant of the aggregate a subgraph sees: for the root aggregate
     * its first node in the subgraph's workspace; for a system aggregate its
     * first node; otherwise its node at the point, or else at the first
     * generalization, in weight order, that has one.
     */
    method FindBestSuitedNodeForSubgraph(workspace: Workspace, point: Point, aggregate: ReadOnlyNodeAggregate) returns (r: Resolved<ReadOnlyNode>)
      ensures r == Resolve(workspace, point, aggregate)
    {
      if aggregate.IsRoot() {
        var nodes := aggregate.GetNodesByWorkspace(workspace);
        return FromReset(if nodes == [] then None else Some(nodes[0]));
      } else if aggregate.identifier in systemNodeIdentifiers {
        return FromReset(aggregate.nodes.First());
      }
      var node := aggregate.GetNodeByDimensionSpacePoint(point);
      if node.Some? {
        return Found(node.value);
      }
      var generalizations := weightedGeneralizations(point);
      for i := 0 to |generalizations|
        invariant FirstMatch(aggregate.nodes, generalizations) == FirstMatch(aggregate.nodes, generalizations[i..])
      {
        assert generalizations[i..][1..] == generalizations[i + 1..];
        node := aggregate.GetNodeByDimensionSpacePoint(generalizations[i]);
        if node.Some? {
          return Found(node.value);
        }
      }
      return Absent;
    }

    /** The registrations that follow from what the subgraph sees of the aggregate. */
    ghost function PickAt(aggregate: ReadOnlyNodeAggregate, subgraph: ContentSubgraph): Result<seq<NodePick>>
      reads this, aggregate
    {
      PickFor(Resolve(subgraph.workspace, subgraph.dimensionSpacePoint, aggregate), subgraph)
    }

    /** The registrations for one aggregate across `subgraphs`, in order; the first failure ends them. */
    ghost function PicksIn(aggregate: ReadOnlyNodeAggregate, subgraphs: seq<ContentSubgraph>): Result<seq<NodePick>>
      reads this, aggregate
      decreases |subgraphs|
    {
      if subgraphs == [] then Ok([])
      else Then(PicksIn(aggregate, subgraphs[..|subgraphs| - 1]), PickAt(aggregate, subgraphs[|subgraphs| - 1]))
    }

    /** The registrations for all aggregates, aggregate by aggregate; the first failure ends them. */
    ghost function Picks(aggregates: seq<ReadOnlyNodeAggregate>, subgraphs: seq<ContentSubgraph>): Result<seq<NodePick>>
      reads this, aggregates
      decreases |aggregates|
    {
      if aggregates == [] then Ok([])
      else Then(Picks(aggregates[..|aggregates| - 1], subgraphs), PicksIn(aggregates[|aggregates| - 1], subgraphs))
    }

    /** Registers what one subgraph sees of the aggregate. */
    method AssignInSubgraph(registry: NodeAssignmentRegistry, aggregate: ReadOnlyNodeAggregate, subgraph: ContentSubgraph)
      returns (failure: Option<Failure>)
      modifies registry
      ensures var p := PickAt(aggregate, subgraph);
        && (failure.Some? <==> p.Err?)
        && (failure.Some? ==> failure.value == p.failure)
        && (failure.None? ==> registry.nodesByPathAndSubgraph == NodesAfter(old(registry.nodesByPathAndSubgraph), p.value))
        && (failure.None? ==> registry.subgraphsByPathAndNodeIdentifier == SubgraphsAfter(old(registry.subgraphsByPathAndNodeIdentifier), p.value))
    {
      var resolved := FindBestSuitedNodeForSubgraph(subgraph.workspace, subgraph.dimensionSpacePoint, aggregate);
      match resolved {
        case ResetOfEmpty =>
          return Some(TypeError);
        case Absent =>
          return None;
        case Found(node) =>
          registry.RegisterNodeByPathAndSubgraphIdentifier(node.data.path, subgraph.identifier, node);
          registry.RegisterSubgraphIdentifierByPathAndNodeIdentifier(node.data.path, node.nodeIdentifier, subgraph.identifier);
          return None;
      }
    }

    /** Registers what each subgraph sees of the aggregate, in order. */
    method AssignAggregate(registry: NodeAssignmentRegistry, aggregate: ReadOnlyNodeAggregate, subgraphs: seq<ContentSubgraph>)
      returns (failure: Option<Failure>)
      modifies registry
      ensures failure.Some? <==> PicksIn(aggregate, subgraphs).Err?
      ensures failure.Some? ==> failure.value == PicksIn(aggregate, subgraphs).failure
      ensures failure.None? ==>
        registry.nodesByPathAndSubgraph == NodesAfter(old(registry.nodesByPathAndSubgraph), PicksIn(aggregate, subgraphs).value)
      ensures failure.None? ==>
        registry.subgraphsByPathAndNodeIdentifier == SubgraphsAfter(old(registry.subgraphsByPathAndNodeIdentifier), PicksIn(aggregate, subgraphs).value)
    {
      ghost var done: seq<NodePick> := [];
      for i := 0 to |subgraphs|
        invariant PicksIn(aggregate, subgraphs[..i]) == Ok(done)
        invariant registry.nodesByPathAndSubgraph == NodesAfter(old(registry.nodesByPathAndSubgraph), done)
        invariant registry.subgraphsByPathAndNodeIdentifier == SubgraphsAfter(old(registry.subgraphsByPathAndNodeIdentifier), done)
      {
        failure := AssignInSubgraph(registry, aggregate, subgraphs[i]);
        if failure.Some? {
          PicksInFailAt(aggregate, subgraphs, i);
          return;
        }
        PicksInGrowAt(aggregate, subgraphs, i, done, old(registry.nodesByPathAndSubgraph), old(registry.subgraphsByPathAndNodeIdentifier));
        done := done + PickAt(aggregate, subgraphs[i]).value;
      }
      assert subgraphs[..|subgraphs|] == subgraphs;
      failure := None;
    }

    /** The picks of one more aggregate follow those of the aggregates before it. */
    lemma PicksStep(aggregates: seq<ReadOnlyNodeAggregate>, subgraphs: seq<ContentSubgraph>, i: nat)
      requires i < |aggregates|
      ensures Picks(aggregates[..i + 1], subgraphs) == Then(Picks(aggregates[..i], subgraphs), PicksIn(aggregates[i], subgraphs))
    {
      PrefixGrows(aggregates, i);
    }

    /** A failure at the subgraph at `i`, after the subgraphs before it succeed, is the failure of them all. */
    lemma PicksInFailAt(aggregate: ReadOnlyNodeAggregate, subgraphs: seq<ContentSubgraph>, i: nat)
      requires i < |subgraphs| && PicksIn(aggregate, subgraphs[..i]).Ok? && PickAt(aggregate, subgraphs[i]).Err?
      ensures PicksIn(aggregate, subgraphs) == Err(PickAt(aggregate, subgraphs[i]).failure)
    {
      PrefixGrows(subgraphs, i);
      assert PicksIn(aggregate, subgraphs[..i + 1]) == Err(PickAt(aggregate, subgraphs[i]).failure);
      PicksInStayFailed(aggregate, subgraphs, i + 1);
    }

    /** Success at the subgraph at `i`, after the subgraphs before it succeed, adds its registrations to theirs. */
    lemma PicksInGrowAt(aggregate: ReadOnlyNodeAggregate, subgraphs: seq<ContentSubgraph>, i: nat, done: seq<NodePick>,
                        nodes: NodesByPath<ReadOnlyNode>, bySubgraph: SubgraphsByPath<string, SubgraphIdentifier>)
      requires i < |subgraphs| && PicksIn(aggregate, subgraphs[..i]) == Ok(done) && PickAt(aggregate, subgraphs[i]).Ok?
      ensures var more := PickAt(aggregate, subgraphs[i]).value;
        && PicksIn(aggregate, subgraphs[..i + 1]) == Ok(done + more)
        && NodesAfter(nodes, done + more) == NodesAfter(NodesAfter(nodes, done), more)
        && SubgraphsAfter(bySubgraph, done + more) == SubgraphsAfter(SubgraphsAfter(bySubgraph, done), more)
    {
      PrefixGrows(subgraphs, i);
      AfterAppend(nodes, bySubgraph, done, PickAt(aggregate, subgraphs[i]).value);
    }

    /** Once the registrations of a prefix of the subgraphs fail, those of every longer prefix fail alike. */
    lemma {:induction false} PicksInStayFailed(aggregate: ReadOnlyNodeAggregate, subgraphs: seq<ContentSubgraph>, n: nat)
      requires n <= |subgraphs| && PicksIn(aggregate, subgraphs[..n]).Err?
      ensures forall k :: n <= k <= |subgraphs| ==> PicksIn(aggregate, subgraphs[..k]) == PicksIn(aggregate, subgraphs[..n])
      decreases |subgraphs| - n
    {
      if n < |subgraphs| {
        assert subgraphs[..n + 1][..n] == subgraphs[..n];
        PicksInStayFailed(aggregate, subgraphs, n + 1);
      }
    }

    /**
     * For every aggregate, in order, and every subgraph, in order, registers
     * the node the subgraph sees at its path in that subgraph, and the
     * subgraph among those of that node. The first failure ends the work.
     */
    method DetermineNodeAssignments(aggregates: seq<ReadOnlyNodeAggregate>, subgraphs: seq<ContentSubgraph>) returns (r: Result<NodeAssignmentRegistry>)
      ensures r.Err? <==> Picks(aggregates, subgraphs).Err?
      ensures r.Err? ==> r.failure == Picks(aggregates, subgraphs).failure
      ensures r.Ok? ==> fresh(r.value)
      ensures r.Ok? ==> r.value.nodesByPathAndSubgraph == NodesAfter(Empty(), Picks(aggregates, subgraphs).value)
      ensures r.Ok? ==> r.value.subgraphsByPathAndNodeIdentifier == SubgraphsAfter(Empty(), Picks(aggregates, subgraphs).value)
    {
      var registry := new NodeAssignmentRegistry();
      ghost var done: seq<NodePick> := [];
      for i := 0 to |aggregates|
        invariant Picks(aggregates[..i], subgraphs) == Ok(done)
        invariant fresh(registry)
        invariant registry.nodesByPathAndSubgraph == NodesAfter(Empty(), done)
        invariant registry.subgraphsByPathAndNodeIdentifier == SubgraphsAfter(Empty(), done)
      {
        var failure;
        failure, done := AssignStep(registry, aggregates, subgraphs, i, done);
        if failure.Some? {
          return Err(failure.value);
        }
      }
      assert aggregates[..|aggregates|] == aggregates;
      return Ok(registry);
    }

    /** The registrations for the aggregate at `i`, after those of the aggregates before it. */
    method AssignStep(registry: NodeAssignmentRegistry, aggregates: seq<ReadOnlyNodeAggregate>, subgraphs: seq<ContentSubgraph>, i: nat, ghost done: seq<NodePick>)
      returns (failure: Option<Failure>, ghost done': seq<NodePick>)
      requires i < |aggregates|
      requires Picks(aggregates[..i], subgraphs) == Ok(done)
      requires registry.nodesByPathAndSubgraph == NodesAfter(Empty(), done)
      requires registry.subgraphsByPathAndNodeIdentifier == SubgraphsAfter(Empty(), done)
      modifies registry
      ensures failure.Some? ==> Picks(aggregates, subgraphs) == Err(failure.value)
      ensures failure.None? ==> Picks(aggregates[..i + 1], subgraphs) == Ok(done')
      ensures failure.None? ==> registry.nodesByPathAndSubgraph == NodesAfter(Empty(), done')
      ensures failure.None? ==> registry.subgraphsByPathAndNodeIdentifier == SubgraphsAfter(Empty(), done')
    {
      failure := AssignAggregate(registry, aggregates[i], subgraphs);
      if failure.Some? {
        PicksFailAt(aggregates, subgraphs, i);
        done' := done;
        return;
      }
      done' := done + PicksIn(aggregates[i], subgraphs).value;
      PicksGrowAt(aggregates, subgraphs, i, done);
    }

    /** Success at the aggregate at `i`, after the aggregates before it succeed, adds its registrations to theirs. */
    lemma PicksGrowAt(aggregates: seq<ReadOnlyNodeAggregate>, subgraphs: seq<ContentSubgraph>, i: nat, done: seq<NodePick>)
      requires i < |aggregates| && Picks(aggregates[..i], subgraphs) == Ok(done) && PicksIn(aggregates[i], subgraphs).Ok?
      ensures var more := PicksIn(aggregates[i], subgraphs).value;
        && Picks(aggregates[..i + 1], subgraphs) == Ok(done + more)
        && NodesAfter(Empty(), done + more) == NodesAfter(NodesAfter(Empty(), done), more)
        && SubgraphsAfter(Empty(), done + more) == SubgraphsAfter(SubgraphsAfter(Empty(), done), more)
    {
      PicksStep(aggregates, subgraphs, i);
      AfterAppend(Empty(), Empty(), done, PicksIn(aggregates[i], subgraphs).value);
    }

    /** A failure at the aggregate at `i`, after the aggregates before it succeed, is the failure of them all. */
    lemma PicksFailAt(aggregates: seq<ReadOnlyNodeAggregate>, subgraphs: seq<ContentSubgraph>, i: nat)
      requires i < |aggregates| && Picks(aggregates[..i], subgraphs).Ok? && PicksIn(aggregates[i], subgraphs).Err?
      ensures Picks(aggregates, subgraphs) == Err(PicksIn(aggregates[i], subgraphs).failure)
    {
      PicksStep(aggregates, subgraphs, i);
      PicksStayFailed(aggregates, subgraphs, i + 1);
      assert aggregates[..|aggregates|] == aggregates;
    }

    /** Once the registrations of a prefix of the aggregates fail, those of every longer prefix fail alike. */
    lemma {:induction false} PicksStayFailed(aggregates: seq<ReadOnlyNodeAggregate>, subgraphs: seq<ContentSubgraph>, n: nat)
      requires n <= |aggregates| && Picks(aggregates[..n], subgraphs).Err?
      ensures forall k :: n <= k <= |aggregates| ==> Picks(aggregates[..k], subgraphs) == Picks(aggregates[..n], subgraphs)
      decreases |aggregates| - n
    {
      if n < |aggregates| {
        assert aggregates[..n + 1][..n] == aggregates[..n];
        PicksStayFailed(aggregates, subgraphs, n + 1);
      }
    }

    /** `p` is among the registrations that follow from what the subgraph sees of the aggregate. */
    ghost predicate PickedIn(aggregate: ReadOnlyNodeAggregate, subgraph: ContentSubgraph, p: NodePick)
      reads this, aggregate
    {
      PickAt(aggregate, subgraph).Ok? && p in PickAt(aggregate, subgraph).value
    }

    /**
     * The registrations for one aggregate succeed exactly when every
     * subgraph's do; otherwise the failure is that of a subgraph whose
     * registrations fail.
     */
    lemma {:induction false} PicksInOk(aggregate: ReadOnlyNodeAggregate, subgraphs: seq<ContentSubgraph>)
      ensures PicksIn(aggregate, subgraphs).Ok? <==> forall j :: 0 <= j < |subgraphs| ==> PickAt(aggregate, subgraphs[j]).Ok?
      ensures PicksIn(aggregate, subgraphs).Err? ==> exists j :: 0 <= j < |subgraphs| && PickAt(aggregate, subgraphs[j]) == PicksIn(aggregate, subgraphs)
      decreases |subgraphs|
    {
      if subgraphs != [] {
        var init := subgraphs[..|subgraphs| - 1];
        PicksInOk(aggregate, init);
        assert forall j :: 0 <= j < |init| ==> init[j] == subgraphs[j];
      }
    }

    /** When the registrations for one aggregate succeed, they are exactly those of the subgraphs. */
    lemma {:induction false} PicksInMembers(aggregate: ReadOnlyNodeAggregate, subgraphs: seq<ContentSubgraph>, p: NodePick)
      requires PicksIn(aggregate, subgraphs).Ok?
      ensures p in PicksIn(aggregate, subgraphs).value <==> exists j :: 0 <= j < |subgraphs| && PickedIn(aggregate, subgraphs[j], p)
      decreases |subgraphs|
    {
      if subgraphs != [] {
        var init := subgraphs[..|subgraphs| - 1];
        var last := subgraphs[|subgraphs| - 1];
        PicksInMembers(aggregate, init, p);
        if p in PicksIn(aggregate, init).value {
          var j :| 0 <= j < |init| && PickedIn(aggregate, init[j], p);
          assert subgraphs[j] == init[j];
        } else if PickedIn(aggregate, last, p) {
          assert subgraphs[|subgraphs| - 1] == last;
        }
        if exists j :: 0 <= j < |subgraphs| && PickedIn(aggregate, subgraphs[j], p) {
          var j :| 0 <= j < |subgraphs| && PickedIn(aggregate, subgraphs[j], p);
          if j < |init| {
            assert init[j] == subgraphs[j];
          }
        }
      }
    }

    /** The registrations for all aggregates succeed exactly when every pair of aggregate and subgraph does. */
    lemma {:induction false} PicksOk(aggregates: seq<ReadOnlyNodeAggregate>, subgraphs: seq<ContentSubgraph>)
      ensures Picks(aggregates, subgraphs).Ok? <==>
        forall i, j :: 0 <= i < |aggregates| && 0 <= j < |subgraphs| ==> PickAt(aggregates[i], subgraphs[j]).Ok?
      decreases |aggregates|
    {
      if aggregates != [] {
        var init := aggregates[..|aggregates| - 1];
        var last := aggregates[|aggregates| - 1];
        PicksOk(init, subgraphs);
        PicksInOk(last, subgraphs);
        assert forall i :: 0 <= i < |init| ==> init[i] == aggregates[i];
        if Picks(init, subgraphs).Err? {
          var i, j :| 0 <= i < |init| && 0 <= j < |subgraphs| && !PickAt(init[i], subgraphs[j]).Ok?;
          assert aggregates[i] == init[i];
        }
      }
    }

    /** When the registrations for all aggregates succeed, they include those of every pair of aggregate and subgraph. */
    lemma {:induction false} PicksInclude(aggregates: seq<ReadOnlyNodeAggregate>, subgraphs: seq<ContentSubgraph>, i: nat, j: nat, p: NodePick)
      requires Picks(aggregates, subgraphs).Ok?
      requires i < |aggregates| && j < |subgraphs| && PickedIn(aggregates[i], subgraphs[j], p)
      ensures p in Picks(aggregates, subgraphs).value
      decreases |aggregates|
    {
      var init := aggregates[..|aggregates| - 1];
      var last := aggregates[|aggregates| - 1];
      if i == |aggregates| - 1 {
        PicksInMembers(last, subgraphs, p);
      } else {
        assert init[i] == aggregates[i];
        PicksInclude(init, subgraphs, i, j, p);
      }
    }

    /** Every registration for all aggregates is one of some pair of aggregate and subgraph. */
    lemma {:induction false} PicksCameFromPairs(aggregates: seq<ReadOnlyNodeAggregate>, subgraphs: seq<ContentSubgraph>, p: NodePick)
      requires Picks(aggregates, subgraphs).Ok? && p in Picks(aggregates, subgraphs).value
      ensures exists i, j :: 0 <= i < |aggregates| && 0 <= j < |subgraphs| && PickedIn(aggregates[i], subgraphs[j], p)
      decreases |aggregates|
    {
      var init := aggregates[..|aggregates| - 1];
      var last := aggregates[|aggregates| - 1];
      if p in Picks(init, subgraphs).value {
        PicksCameFromPairs(init, subgraphs, p);
        var i, j :| 0 <= i < |init| && 0 <= j < |subgraphs| && PickedIn(init[i], subgraphs[j], p);
        assert aggregates[i] == init[i];
      } else {
        PicksInMembers(last, subgraphs, p);
        var j :| 0 <= j < |subgraphs| && PickedIn(last, subgraphs[j], p);
        assert aggregates[|aggregates| - 1] == last;
      }
    }

    /**
     * When the assignments succeed, the subgraph is among those registered
     * for each node it sees, at the node's path and persistence identifier.
     */
    lemma AssignmentsComplete(aggregates: seq<ReadOnlyNodeAggregate>, subgraphs: seq<ContentSubgraph>, i: nat, j: nat)
      requires Picks(aggregates, subgraphs).Ok?
      requires i < |aggregates| && j < |subgraphs|
      requires Resolve(subgraphs[j].workspace, subgraphs[j].dimensionSpacePoint, aggregates[i]).Found?
      ensures var n := Resolve(subgraphs[j].workspace, subgraphs[j].dimensionSpacePoint, aggregates[i]).node;
        subgraphs[j].identifier.ToString()
          in SubgraphsAt(SubgraphsAfter(Empty(), Picks(aggregates, subgraphs).value), n.data.path, n.nodeIdentifier).items
    {
      var picks := Picks(aggregates, subgraphs).value;
      PicksOk(aggregates, subgraphs);
      var pick := PickAt(aggregates[i], subgraphs[j]).value[0];
      PicksInclude(aggregates, subgraphs, i, j, pick);
      var k :| 0 <= k < |picks| && picks[k] == pick;
      SubgraphsAfterHoldEach(Empty(), picks, k);
    }

    /**
     * When the assignments succeed, every node registered at a path in a
     * subgraph is the node that subgraph sees of some aggregate, and lies at
     * that path.
     */
    lemma AssignmentsSound(aggregates: seq<ReadOnlyNodeAggregate>, subgraphs: seq<ContentSubgraph>, path: string, key: Digest)
      requires Picks(aggregates, subgraphs).Ok?
      requires NodeAt(NodesAfter(Empty(), Picks(aggregates, subgraphs).value), path, key).Some?
      ensures var n := NodeAt(NodesAfter(Empty(), Picks(aggregates, subgraphs).value), path, key).value;
        exists i, j :: 0 <= i < |aggregates| && 0 <= j < |subgraphs|
          && Resolve(subgraphs[j].workspace, subgraphs[j].dimensionSpacePoint, aggregates[i]) == Found(n)
          && subgraphs[j].identifier.ToString() == key && n.data.path == path
    {
      var picks := Picks(aggregates, subgraphs).value;
      NodesAfterCameFromPicks(Empty(), picks, path, key);
      var k :| 0 <= k < |picks| && picks[k].path == path && picks[k].key == key
        && NodeAt(NodesAfter(Empty(), picks), path, key) == Some(picks[k].node);
      PicksCameFromPairs(aggregates, subgraphs, picks[k]);
      var i, j :| 0 <= i < |aggregates| && 0 <= j < |subgraphs| && PickedIn(aggregates[i], subgraphs[j], picks[k]);
      PickForFound(Resolve(subgraphs[j].workspace, subgraphs[j].dimensionSpacePoint, aggregates[i]), subgraphs[j], picks[k]);
    }
  }
}
