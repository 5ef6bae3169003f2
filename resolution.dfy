/**
 * How the graph service decides which variant of a node aggregate a content
 * subgraph sees, and how it groups records into aggregates; shared by both
 * generations of GraphService.
 */
module Resolution {
  import opened Wrappers
  import opened PhpArrays
  import opened Content

  /**
   * The outcome of findBestSuitedNodeForSubgraph. `ResetOfEmpty` is `reset`
   * of an empty array: it yields `false`, which the declared `?Node` return
   * type refuses with a type error.
   */
  datatype Resolved<N> = Found(node: N) | Absent | ResetOfEmpty

  function FromReset<N>(first: Option<N>): Resolved<N> {
    if first.Some? then Found(first.value) else ResetOfEmpty
  }

  /** The primary node under the first generalization, in weight order, that has one. */
  function FirstMatch<N>(primary: Arr<Digest, N>, generalizations: seq<Point>): Option<N> {
    if generalizations == [] then None
    else if PointHash(generalizations[0]) in primary.items then Some(primary.items[PointHash(generalizations[0])])
    else FirstMatch(primary, generalizations[1..])
  }

  /**
   * The node an aggregate contributes to the subgraph at `point`: for the
   * root aggregate its first node in the subgraph's workspace, for a system
   * aggregate its first primary node, otherwise the primary node at the
   * point itself, or else at the first generalization that has one.
   */
  function BestSuited<N>(isRoot: bool, isSystem: bool, inWorkspace: seq<N>, primary: Arr<Digest, N>,
                         point: Point, generalizations: seq<Point>): Resolved<N>
  {
    if isRoot then FromReset(if inWorkspace == [] then None else Some(inWorkspace[0]))
    else if isSystem then FromReset(primary.First())
    else if PointHash(point) in primary.items then Found(primary.items[PointHash(point)])
    else match FirstMatch(primary, generalizations)
      case Some(n) => Found(n)
      case None => Absent
  }

  /** A generalization that has a node and comes before every other that has one is the one chosen. */
  lemma {:induction false} FirstMatchIsEarliest<N>(primary: Arr<Digest, N>, generalizations: seq<Point>, i: nat)
    requires i < |generalizations|
    requires PointHash(generalizations[i]) in primary.items
    requires forall j :: 0 <= j < i ==> PointHash(generalizations[j]) !in primary.items
    ensures FirstMatch(primary, generalizations) == Some(primary.items[PointHash(generalizations[i])])
  {
    if i > 0 {
      assert PointHash(generalizations[0]) !in primary.items;
      FirstMatchIsEarliest(primary, generalizations[1..], i - 1);
    }
  }

  /** Whatever is chosen comes from the earliest generalization that has a node. */
  lemma {:induction false} FirstMatchIsFromEarliest<N>(primary: Arr<Digest, N>, generalizations: seq<Point>)
    requires FirstMatch(primary, generalizations).Some?
    ensures exists i ::
              && 0 <= i < |generalizations|
              && PointHash(generalizations[i]) in primary.items
              && FirstMatch(primary, generalizations) == Some(primary.items[PointHash(generalizations[i])])
              && (forall j :: 0 <= j < i ==> PointHash(generalizations[j]) !in primary.items)
  {
    if PointHash(generalizations[0]) !in primary.items {
      FirstMatchIsFromEarliest(primary, generalizations[1..]);
      var i :| 0 <= i < |generalizations[1..]|
        && PointHash(generalizations[1..][i]) in primary.items
        && FirstMatch(primary, generalizations[1..]) == Some(primary.items[PointHash(generalizations[1..][i])])
        && (forall j :: 0 <= j < i ==> PointHash(generalizations[1..][j]) !in primary.items);
      assert forall j :: 0 < j < i + 1 ==> generalizations[j] == generalizations[1..][j - 1];
    }
  }

  /** Nothing is chosen exactly when no generalization has a node. */
  lemma {:induction false} FirstMatchNone<N>(primary: Arr<Digest, N>, generalizations: seq<Point>)
    ensures FirstMatch(primary, generalizations).None?
        <==> forall j :: 0 <= j < |generalizations| ==> PointHash(generalizations[j]) !in primary.items
  {
    if generalizations != [] {
      FirstMatchNone(primary, generalizations[1..]);
      assert forall j :: 0 < j < |generalizations| ==> generalizations[j] == generalizations[1..][j - 1];
    }
  }

  /** An ordinary aggregate with a node at the subgraph's own point contributes that node. */
  lemma ExactPointWins<N>(inWorkspace: seq<N>, primary: Arr<Digest, N>, point: Point, generalizations: seq<Point>)
    requires PointHash(point) in primary.items
    ensures BestSuited(false, false, inWorkspace, primary, point, generalizations) == Found(primary.items[PointHash(point)])
  {
  }

  /** An ordinary aggregate without a node at the point falls back to the earliest generalization that has one. */
  lemma FallsBackToEarliestGeneralization<N>(inWorkspace: seq<N>, primary: Arr<Digest, N>, point: Point, generalizations: seq<Point>, i: nat)
    requires PointHash(point) !in primary.items
    requires i < |generalizations| && PointHash(generalizations[i]) in primary.items
    requires forall j :: 0 <= j < i ==> PointHash(generalizations[j]) !in primary.items
    ensures BestSuited(false, false, inWorkspace, primary, point, generalizations) == Found(primary.items[PointHash(generalizations[i])])
  {
    FirstMatchIsEarliest(primary, generalizations, i);
  }

  /** An ordinary aggregate with no node at the point or any generalization contributes nothing. */
  lemma AbsentWithoutAnyMatch<N>(inWorkspace: seq<N>, primary: Arr<Digest, N>, point: Point, generalizations: seq<Point>)
    requires PointHash(point) !in primary.items
    requires forall j :: 0 <= j < |generalizations| ==> PointHash(generalizations[j]) !in primary.items
    ensures BestSuited(false, false, inWorkspace, primary, point, generalizations) == Absent
  {
    FirstMatchNone(primary, generalizations);
  }

  /** The node contributed is one of the aggregate's own nodes. */
  lemma FoundNodeBelongsToAggregate<N>(isRoot: bool, isSystem: bool, inWorkspace: seq<N>, primary: Arr<Digest, N>,
                                      point: Point, generalizations: seq<Point>)
    requires BestSuited(isRoot, isSystem, inWorkspace, primary, point, generalizations).Found?
    ensures var n := BestSuited(isRoot, isSystem, inWorkspace, primary, point, generalizations).node;
      (isRoot && n in inWorkspace) || (!isRoot && n in primary.items.Values)
  {
    if !isRoot && isSystem {
      var values := primary.Values();
      assert values[0] in values;
    } else if !isRoot && PointHash(point) !in primary.items {
      FirstMatchIsFromEarliest(primary, generalizations);
    }
  }

  /** Only the root and system aggregates can hit `reset` of an empty array. */
  lemma ResetOfEmptyOnlyForRootOrSystem<N>(isRoot: bool, isSystem: bool, inWorkspace: seq<N>, primary: Arr<Digest, N>,
                                          point: Point, generalizations: seq<Point>)
    requires primary.Valid()
    ensures BestSuited(isRoot, isSystem, inWorkspace, primary, point, generalizations).ResetOfEmpty?
        <==> (isRoot && inWorkspace == []) || (!isRoot && isSystem && primary.items == map[])
  {
    FirstOfValid(primary);
  }

  /** The aggregate identifier a record is grouped under: the root identifier for the root path. */
  function GroupKey(path: string, identifier: string): string {
    if path == ROOT_PATH then ROOT_IDENTIFIER else identifier
  }

  /** The nodes whose key is `k`, in order. */
  function Members<N>(nodes: seq<N>, key: N -> string, k: string): seq<N>
    decreases |nodes|
  {
    if nodes == [] then []
    else
      var last := nodes[|nodes| - 1];
      Members(nodes[..|nodes| - 1], key, k) + (if key(last) == k then [last] else [])
  }

  /** Nodes grouped by key: keys in order of first appearance, each with its nodes in order. */
  function Group<N>(nodes: seq<N>, key: N -> string): Arr<string, seq<N>>
    decreases |nodes|
  {
    if nodes == [] then Empty()
    else
      var groups := Group(nodes[..|nodes| - 1], key);
      var last := nodes[|nodes| - 1];
      groups.Put(key(last), groups.Get(key(last)).GetOr([]) + [last])
  }

  /** Every node lands in the group of its own key and in no other; a key has a group exactly when some node has it. */
  lemma {:induction false} GroupIsPartition<N>(nodes: seq<N>, key: N -> string, k: string)
    ensures k in Group(nodes, key).items <==> exists i :: 0 <= i < |nodes| && key(nodes[i]) == k
    ensures k in Group(nodes, key).items ==> Group(nodes, key).items[k] == Members(nodes, key, k)
    ensures k !in Group(nodes, key).items ==> Members(nodes, key, k) == []
    decreases |nodes|
  {
    if nodes != [] {
      var init := nodes[..|nodes| - 1];
      GroupIsPartition(init, key, k);
      assert forall i :: 0 <= i < |init| ==> init[i] == nodes[i];
      if exists i :: 0 <= i < |init| && key(init[i]) == k {
        var i :| 0 <= i < |init| && key(init[i]) == k;
        assert key(nodes[i]) == k;
      }
    }
  }

  /** A point with a coordinate that stands for no value: the mark of a system record. */
  predicate IsSystemPoint(p: Point) {
    NO_VALUE in p.coordinates.Values()
  }

  /** The identifiers of the non-root records whose point is a system point, gathered in order. */
  function SystemIdentifiers<N>(nodes: seq<N>, pathOf: N -> string, identifierOf: N -> string, pointOf: N -> Point): set<string>
    decreases |nodes|
  {
    if nodes == [] then {}
    else
      var last := nodes[|nodes| - 1];
      SystemIdentifiers(nodes[..|nodes| - 1], pathOf, identifierOf, pointOf)
        + (if pathOf(last) != ROOT_PATH && IsSystemPoint(pointOf(last)) then {identifierOf(last)} else {})
  }

  /** An identifier is a system identifier exactly when some non-root record with a system point has it. */
  lemma {:induction false} SystemIdentifiersExactly<N>(nodes: seq<N>, pathOf: N -> string, identifierOf: N -> string, pointOf: N -> Point, id: string)
    ensures id in SystemIdentifiers(nodes, pathOf, identifierOf, pointOf)
      <==> exists i :: 0 <= i < |nodes| && pathOf(nodes[i]) != ROOT_PATH && IsSystemPoint(pointOf(nodes[i])) && identifierOf(nodes[i]) == id
    decreases |nodes|
  {
    if nodes != [] {
      var init := nodes[..|nodes| - 1];
      SystemIdentifiersExactly(init, pathOf, identifierOf, pointOf, id);
      assert forall i :: 0 <= i < |init| ==> init[i] == nodes[i];
      if exists i :: 0 <= i < |nodes| && pathOf(nodes[i]) != ROOT_PATH && IsSystemPoint(pointOf(nodes[i])) && identifierOf(nodes[i]) == id {
        var i :| 0 <= i < |nodes| && pathOf(nodes[i]) != ROOT_PATH && IsSystemPoint(pointOf(nodes[i])) && identifierOf(nodes[i]) == id;
        if i < |init| {
          assert init[i] == nodes[i];
        }
      }
    }
  }

  /** The groups form a well-formed array: each key listed once, and listed exactly when it has a group. */
  lemma {:induction false} GroupValid<N>(nodes: seq<N>, key: N -> string)
    ensures Group(nodes, key).Valid()
    decreases |nodes|
  {
    if nodes == [] {
      EmptyValid<string, seq<N>>();
    } else {
      var groups := Group(nodes[..|nodes| - 1], key);
      var last := nodes[|nodes| - 1];
      GroupValid(nodes[..|nodes| - 1], key);
      PutValid(groups, key(last), groups.Get(key(last)).GetOr([]) + [last]);
    }
  }

  /** `$indexed[$workspace->getName()] = $workspace` for each workspace in turn. */
  function IndexedByName(indexed: Arr<string, Workspace>, workspaces: seq<Workspace>): Arr<string, Workspace>
    decreases |workspaces|
  {
    if workspaces == [] then indexed
    else
      var last := workspaces[|workspaces| - 1];
      IndexedByName(indexed, workspaces[..|workspaces| - 1]).Put(last.name, last)
  }

  /** Every workspace is filed under its own name. */
  predicate KeyedByName(indexed: Arr<string, Workspace>) {
    forall k :: k in indexed.items ==> indexed.items[k].name == k
  }

  /**
   * Indexing keeps every workspace under its own name, and a name is
   * indexed afterwards exactly when it was before or some workspace has it.
   */
  lemma {:induction false} IndexedByNameKeyed(indexed: Arr<string, Workspace>, workspaces: seq<Workspace>, name: string)
    requires KeyedByName(indexed)
    ensures KeyedByName(IndexedByName(indexed, workspaces))
    ensures name in IndexedByName(indexed, workspaces).items
      <==> name in indexed.items || exists i :: 0 <= i < |workspaces| && workspaces[i].name == name
    decreases |workspaces|
  {
    if workspaces != [] {
      var init := workspaces[..|workspaces| - 1];
      IndexedByNameKeyed(indexed, init, name);
      assert forall i :: 0 <= i < |init| ==> init[i] == workspaces[i];
      if exists i :: 0 <= i < |workspaces| && workspaces[i].name == name {
        var i :| 0 <= i < |workspaces| && workspaces[i].name == name;
        if i < |init| {
          assert init[i] == workspaces[i];
        }
      }
    }
  }

  /**
   * `$indexed[$point->getCoordinate($dimension)] ?? null`: a point without
   * that coordinate looks up the key `""`, as PHP files a null key.
   */
  function WorkspaceFor(indexed: Arr<string, Workspace>, p: Point, dimension: string): (r: Option<Workspace>)
    ensures r.Some? <==> p.coordinates.Get(dimension).GetOr("") in indexed.items
    ensures KeyedByName(indexed) && r.Some? ==> r.value.name == p.coordinates.Get(dimension).GetOr("")
  {
    indexed.Get(p.coordinates.Get(dimension).GetOr(""))
  }

  /** A point whose workspace coordinate names an indexed workspace finds that workspace. */
  lemma PointFindsIndexedWorkspace(workspaces: seq<Workspace>, p: Point, dimension: string, i: nat)
    requires i < |workspaces|
    requires p.coordinates.Get(dimension) == Some(workspaces[i].name)
    ensures WorkspaceFor(IndexedByName(Empty(), workspaces), p, dimension) == Some(workspaces[i])
  {
    IndexedByNameKeyed(Empty(), workspaces, workspaces[i].name);
  }
}
