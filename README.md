# In-memory content graph of the Neos content repository

This project models the core of `neos/content-repository-inmemorygraph`, a
package that loads the node records of a Neos content repository into memory
and arranges them as a content graph. The graph has one content subgraph per
workspace and dimension space point. Within a subgraph, each node aggregate
resolves to the one variant the subgraph sees, and that variant is connected
to its parent by a hierarchy edge.

The package holds two generations of the same design, and both are modelled:

- The older classes directly under `Classes/` (`ContentGraph`,
  `ContentSubgraph`, `Edge`, `ReferenceEdge`, `ReadOnlyNodeAggregate`,
  `GraphService`, `NodeAssignmentRegistry`, `ContentSubgraphIdentifier`,
  `DimensionSpacePointFactory`, `IsAutoCreated`). Their modules are named
  `ReadOnly…`, with `NodeIndexTraversal`.
- The newer classes under `Classes/ContentSubgraph/` and
  `Classes/NodeAggregate/` (`ContentGraph`, `ContentSubgraph`, `Node`,
  `NodeAggregate`, `HierarchyRelation`, `ReferenceRelation`, `GraphService`,
  `NodeAssignmentRegistry`, `ContentSubgraphIdentifier`), with the point
  factory under `Classes/Dimension/`. Their modules are named `Projection…`.
- The two content dimension sources under `Classes/Dimension/`. The
  configuration-based one builds the dimensions from the raw configuration.
  The workspace-based one appends a `_workspace` dimension, with one value
  per workspace that counts.

Several modules are shared by both generations:

- `PhpArrays` gives PHP's ordered arrays: insertion order, overwrite in
  place, `unset`, `reset`.
- `Content` gives node records, coordinates and hashes.
- `Points` builds the dimension space points that the factories make.
- `Partitioning` splits an aggregate's nodes by workspace.
- `Resolution` picks the variant a subgraph sees.
- `StructureMerge` merges an edge's structure properties with those of its
  parent edge.
- `Registries` keeps the node assignment registries.
- `ContentDimensions` holds the vocabulary of the dimension sources.

Objects whose fields the source updates in place are classes whose methods
state their new state. Examples are subgraphs, graphs, aggregates, nodes,
relations, registries, graph services and dimension sources. Each such method
is proved against a specification function. The properties the source
promises are lemmas about those functions: resolution picks the most specific
variant, registries stay two-way consistent, and so on.

PHP failures are values of `Result` or `Option<Failure>`:

- a `TypeError` under `strict_types`;
- a method call on null;
- an undeclared constant or class;
- an exception thrown by the code.

Hashes (`md5`, `getHash`, JSON encodings) are free constructors, so equal
hashes mean equal inputs.

## Model

| member | source | states |
|---|---|---|
| Content.FirstValuesUpToHold | Classes/ReadOnlyNodeAggregate.php:57-60 | after the first n listed dimensions, a dimension has a coordinate exactly when it is listed among them and has values, and the coordinate is its first value (`reset`) |
| Content.FirstValuesUpToOrder | Classes/ReadOnlyNodeAggregate.php:57-60 | with each dimension listed once, the coordinates come in the record's dimension order |
| Content.FirstValuesHold | Classes/ReadOnlyNodeAggregate.php:57-60 | for a well-formed dimension array: same dimensions, same order, each set to its first value |
| Content.ReadFirstValues | Classes/ReadOnlyNodeAggregate.php:57-60 | the `foreach`/`reset` loop builds exactly those first-value coordinates |
| Content.ReadAggregateKey | Classes/ReadOnlyNodeAggregate.php:57-62 | the key is the hash of those coordinates followed by the workspace dimension set to the workspace name |
| IsAutoCreated.IsSatisfiedBy | Classes/IsAutoCreated.php:20-28 | false without a parent; otherwise true exactly when the node's name is a key of the parent type's auto-created child nodes |
| IsAutoCreated.DependsOnParentAndName | Classes/IsAutoCreated.php:20-28 | the answer depends only on parent and name; a child declared with a null type still counts (`array_key_exists`, not `isset`) |
| Points.CoordinatesHold | Classes/DimensionSpacePointFactory.php:33-46 | exactly the configured dimensions get a coordinate: the workspace name (or `_`) for `_workspace`, the record's first value (or `_`) for the rest |
| Points.CoordinatesInPriorityOrder | Classes/DimensionSpacePointFactory.php:37-43 | with distinct dimension identifiers, coordinates come in priority order |
| Points.UnconfiguredValuesIgnored | Classes/DimensionSpacePointFactory.php:37-43 | a record's values for dimensions that are not configured do not change its point |
| Partitioning.EmptyIsFiled | Classes/ReadOnlyNodeAggregate.php:45-49 | a new aggregate's three arrays hold every node where it belongs (vacuously) |
| Partitioning.AddAllKeepsFiled | Classes/ReadOnlyNodeAggregate.php:51-70 | `addNodes` keeps every node filed by its own record: no workspace → appended list; moved → shadow array; else primary array, under its point hash |
| Partitioning.RemoveKeepsFiled | Classes/ReadOnlyNodeAggregate.php:72-77 | `removeNode` keeps every remaining node filed where it belongs |
| Partitioning.NeverBothPrimaryAndShadow | Classes/ReadOnlyNodeAggregate.php:63-67 | no node is both a primary and a shadow node |
| Partitioning.LastPrimaryWins | Classes/ReadOnlyNodeAggregate.php:66 | under a point hash the aggregate keeps the last node of the batch filed there |
| Partitioning.UntouchedKeyKeepsPrimary | Classes/ReadOnlyNodeAggregate.php:51-70 | a point hash no node of the batch is filed under keeps its node |
| Partitioning.WorkspaceLessAreAppended | Classes/ReadOnlyNodeAggregate.php:54-55 | records without workspace are all appended, in order |
| Partitioning.InWorkspaceMembers | Classes/ReadOnlyNodeAggregate.php:100-110 | `getNodesByWorkspace` keeps exactly the primary nodes of that workspace |
| StructureMerge.Intersect | Classes/Edge.php:175 | `array_intersect`: an element is kept exactly when it is in both lists, in the first list's order; the result is a list indexed from 0 |
| StructureMerge.MergeProperties | Classes/Edge.php:170-196 | the key-by-key merge in place equals the merge of the old values, also when the parent edge is the edge itself |
| StructureMerge.MergedProperties | Classes/Edge.php:175-195 | each of the five structure properties after the merge: roles intersected, `hidden`/`hiddenInIndex` or-ed, hidden-before the later, hidden-after the earlier of the set times; other keys unchanged |
| StructureMerge.MergeDiffersOnlyInStructureKeys | Classes/Edge.php:170-196 | properties that agree with the edge's own off the five keys and with the merge on them are the merge |
| StructureMerge.ChainOf | Classes/Edge.php:170-174 | merging down a chain: the top edge (no parent edge) keeps its properties, each lower one merges with the merged edge above |
| StructureMerge.ChainPrefix | Classes/Edge.php:170-196 | the merge of an edge depends only on the edges above it |
| StructureMerge.ChainFirst | Classes/Edge.php:172-174 | an edge without parent edge is not merged |
| StructureMerge.ChainStep | Classes/Edge.php:175-195 | each lower edge merges with the merged edge directly above it |
| StructureMerge.Chain | Classes/Edge.php:170-196 | one merged property set per edge of the chain |
| StructureMerge.MergeKeepsTimestamps | Classes/Edge.php:177-194 | the merge of timestamp properties holds timestamps or nothing |
| StructureMerge.SeedHasTimestamps | Classes/ContentSubgraph/ContentGraph.php:66-72 | the five properties a hierarchy relation is seeded with from its node hold timestamps or nothing |
| StructureMerge.ChainKeepsTimestamps | Classes/Edge.php:177-194 | every edge of a chain holds timestamps or nothing after merging |
| StructureMerge.HiddenIsInherited | Classes/Edge.php:176 | below a hidden edge every edge is hidden |
| StructureMerge.HiddenInIndexIsInherited | Classes/Edge.php:195 | below an edge hidden in index every edge is hidden in index |
| StructureMerge.RolesNarrow | Classes/Edge.php:175 | an access role kept lower down is kept by every merged edge above it |
| StructureMerge.HiddenBeforeOnlyMovesLater | Classes/Edge.php:177-185 | hidden-before times only move later going down the chain |
| StructureMerge.HiddenAfterOnlyMovesEarlier | Classes/Edge.php:186-194 | hidden-after times only move earlier going down the chain |
| Resolution.FirstMatchIsEarliest | Classes/GraphService.php:274-279 | the first weighted generalization that has a node gives the node |
| Resolution.FirstMatchIsFromEarliest | Classes/GraphService.php:274-279 | what the generalization loop returns comes from the earliest generalization with a node |
| Resolution.FirstMatchNone | Classes/GraphService.php:274-282 | the loop finds nothing exactly when no generalization has a node |
| Resolution.ExactPointWins | Classes/GraphService.php:270-272 | an ordinary aggregate with a node at the subgraph's point gives that node |
| Resolution.FallsBackToEarliestGeneralization | Classes/GraphService.php:273-280 | without one it falls back to the earliest generalization that has a node |
| Resolution.AbsentWithoutAnyMatch | Classes/GraphService.php:282 | with no node at the point or any generalization the answer is null |
| Resolution.FoundNodeBelongsToAggregate | Classes/GraphService.php:257-283 | a node found is one of the aggregate's primary nodes (in the subgraph's workspace for the root aggregate) |
| Resolution.ResetOfEmptyOnlyForRootOrSystem | Classes/GraphService.php:262-268 | `reset` of an empty array (returning `false` from a `?ReadOnlyNode` method) can only happen for the root or a system aggregate |
| Resolution.GroupIsPartition | Classes/GraphService.php:187-203 | every node lands in the group of its aggregate key (`/` → the root identifier) and no other; a key has a group exactly when some node has it |
| Resolution.GroupValid | Classes/GraphService.php:201-203 | the aggregates array lists each key once |
| Resolution.SystemIdentifiersExactly | Classes/GraphService.php:190-196 | an identifier is a system identifier exactly when some non-root node with it has a `_` coordinate |
| Resolution.IndexedByNameKeyed | Classes/GraphService.php:94-97 | indexing files each workspace under its own name; a name is indexed exactly when it was before or some workspace has it |
| Resolution.WorkspaceFor | Classes/GraphService.php:285-288 | the workspace under the point's workspace coordinate, or null; a missing coordinate looks up the key `""` |
| Resolution.PointFindsIndexedWorkspace | Classes/GraphService.php:285-288 | a point naming an indexed workspace finds that workspace |
| Registries.NodeAt | Classes/NodeAssignmentRegistry.php:31-34 | `?? null` reads the node exactly when both keys are present |
| Registries.SubgraphsAt | Classes/NodeAssignmentRegistry.php:46-49 | `?? []` reads the filed subgraphs, or none |
| Registries.NodeReadsBack | Classes/NodeAssignmentRegistry.php:26-34 | a registered node reads back at its path and subgraph; every other pair reads as before |
| Registries.SubgraphReadsBack | Classes/NodeAssignmentRegistry.php:36-49 | a registered subgraph is filed under its key for its path and node; every other path and node reads as before |
| Registries.SubgraphStoredOnce | Classes/NodeAssignmentRegistry.php:38 | registering the same subgraph key again does not add an entry |
| Registries.NodesAfterAppend | Classes/GraphService.php:225-245 | registering the nodes of two runs one after the other is registering them joined |
| Registries.SubgraphsAfterAppend | Classes/GraphService.php:225-245 | the same for the subgraph registrations |
| Registries.AfterAppend | Classes/GraphService.php:225-245 | both registrations of two runs compose |
| Registries.NodesAfterUntouched | Classes/GraphService.php:233-238 | a path and subgraph no registration names reads as before |
| Registries.NodesAfterLastWins | Classes/GraphService.php:233-238 | the node at a path and subgraph is the last one registered there |
| Registries.NodesAfterCameFromPicks | Classes/GraphService.php:233-238 | every registered node was there before or was registered at exactly that path and subgraph |
| Registries.SubgraphsAfterHoldEach | Classes/GraphService.php:239-243 | every registered subgraph is filed for its path and node |
| Registries.SubgraphsAfterCameFromPicks | Classes/GraphService.php:239-243 | every filed subgraph was there before or was registered for that path, node and key |
| NodeIndexTraversal.Eligible | Classes/ContentGraph.php:65-68 | the eligible nodes are a selection of the index, never more of them |
| NodeIndexTraversal.Handed | Classes/ContentGraph.php:63-74 | the traversal hands over no more nodes than the index holds |
| NodeIndexTraversal.HandedFrom | Classes/ContentGraph.php:65-72 | at each node: an internal node is skipped unless shadow nodes are included, a node answered `false` is the last handed over, any other node is handed over before the rest |
| NodeIndexTraversal.HandedOnFromRest | Classes/ContentGraph.php:65-72 | carrying the loop on from any position adds exactly what the traversal of the remaining nodes hands over |
| NodeIndexTraversal.Traverse | Classes/ContentGraph.php:63-74 | the loop hands over exactly the nodes the traversal specification names, in index order |
| NodeIndexTraversal.EligibleMembers | Classes/ContentGraph.php:66-68 | a node is considered iff it is indexed and is not an internal node while shadow nodes are excluded |
| NodeIndexTraversal.HandedIsPrefix | Classes/ContentGraph.php:65-72 | the nodes handed over are a prefix of the eligible nodes, in order |
| NodeIndexTraversal.HandedBeforeLastContinued | Classes/ContentGraph.php:69-71 | every node handed over before the last one got an answer other than `false` |
| NodeIndexTraversal.StopsOnlyOnFalse | Classes/ContentGraph.php:69-71 | a traversal that ends before the eligible nodes run out ended at a node answered `false` |
| NodeIndexTraversal.NeverStoppedHandsAll | Classes/ContentGraph.php:65-73 | a callback that never answers `false` is handed every eligible node |
| ReadOnlyEdges.Edge.constructor | Classes/Edge.php:61-72 | the edge keeps its endpoints, subgraph, hash, position and name, and its properties are the given ones merged with the parent edge's |
| ReadOnlyEdges.Edge.NameForGraph | Classes/Edge.php:127-130 | the name (empty when null), '@' and the subgraph hash |
| ReadOnlyEdges.Edge.LocalIdentifier | Classes/Edge.php:198-201 | the name when it is truthy, otherwise the child's identifier |
| ReadOnlyEdges.Edge.GetProperty | Classes/Edge.php:144-147 | the stored value of a set property, null for one that is not set |
| ReadOnlyEdges.Edge.SetProperty | Classes/Edge.php:154-157 | exactly one property changes, to the given value; the position stays |
| ReadOnlyEdges.Edge.SetPosition | Classes/Edge.php:106-109 | the position becomes the given string; the properties stay |
| ReadOnlyEdges.Edge.MergeStructurePropertiesWithParent | Classes/Edge.php:170-196 | the properties become the merge of the old ones with the parent edge's (none when there is no parent edge); the position stays |
| ReadOnlyReferenceEdges.ReferenceEdge.constructor | Classes/ReferenceEdge.php:59-71 | the reference keeps source, target, position, name and properties as given |
| ReadOnlyReferenceEdges.ReferenceEdge.GetProperty | Classes/ReferenceEdge.php:117-120 | the stored value of a set property, null for one that is not set |
| ReadOnlyReferenceEdges.ReferenceEdge.SetProperty | Classes/ReferenceEdge.php:127-130 | the property reads back as written and every other property reads as before |
| ReadOnlyAggregates.ReadOnlyNodeAggregate.constructor | Classes/ReadOnlyNodeAggregate.php:45-49 | the aggregate starts empty and files the given nodes as addNodes does |
| ReadOnlyAggregates.ReadOnlyNodeAggregate.AddNodes | Classes/ReadOnlyNodeAggregate.php:51-70 | the three groups of variants become those the partition specification yields after filing the batch in order |
| ReadOnlyAggregates.ReadOnlyNodeAggregate.RemoveNode | Classes/ReadOnlyNodeAggregate.php:72-77 | the primary variant at the point is removed if present, nothing else changes |
| ReadOnlyAggregates.ReadOnlyNodeAggregate.GetNodeByDimensionSpacePoint | Classes/ReadOnlyNodeAggregate.php:79-82 | a variant is found iff one is filed under the point's hash, and it is that one |
| ReadOnlyAggregates.ReadOnlyNodeAggregate.GetShadowNodeByDimensionSpacePoint | Classes/ReadOnlyNodeAggregate.php:91-94 | a shadow variant is found iff one is filed under the point's hash, and it is that one |
| ReadOnlyAggregates.ReadOnlyNodeAggregate.GetNodesByWorkspace | Classes/ReadOnlyNodeAggregate.php:100-110 | the primary variants of exactly that workspace, in filing order |
| ReadOnlyAggregates.ReadOnlyNodeAggregate.IsRoot | Classes/ReadOnlyNodeAggregate.php:133-136 | true iff the identifier is the root identifier |
| ReadOnlyAggregates.ReadOnlyNodeAggregate.Count | Classes/ReadOnlyNodeAggregate.php:138-141 | the number of primary variants |
| ReadOnlyAggregates.ReadOnlyNodeAggregate.IsEmpty | Classes/ReadOnlyNodeAggregate.php:142-145 | true iff there is no primary variant |
| ReadOnlySubgraphs.ContentSubgraph.constructor | Classes/ContentSubgraph.php:69-74 | the subgraph keeps its workspace and point, its identifier is built from the workspace name and the point, the three node indexes start null (declared without a value) and the edge maps empty |
| ReadOnlySubgraphs.ContentSubgraph.RegisterNode | Classes/ContentSubgraph.php:80-98 | the node is filed under its persistence identifier, aggregate identifier and path, becomes the root node at the root path, and, exactly when its parent path is indexed, is connected by a new edge filed as its parent edge and under the parent's child edges by name |
| ReadOnlySubgraphs.ContentSubgraph.IndexPersistently | Classes/ContentSubgraph.php:82 | the node is filed under its persistence identifier, replacing an earlier entry |
| ReadOnlySubgraphs.ContentSubgraph.IndexNode | Classes/ContentSubgraph.php:93-97 | the node is filed under its aggregate identifier and its path, and is the root node exactly when its path is the root path |
| ReadOnlySubgraphs.ContentSubgraph.ConnectToParent | Classes/ContentSubgraph.php:86-89 | a fresh edge at the node's index (0 when unset) is filed in both edge maps, its properties merged with those of the edge into the parent |
| ReadOnlySubgraphs.ContentSubgraph.RegisterNodeAsWritten | Classes/ContentSubgraph.php:82-87 | the call as written throws a TypeError iff the parent path is indexed, after the persistence index is written and before any other index is |
| ReadOnlySubgraphs.ContentSubgraph.UnregisterNode | Classes/ContentSubgraph.php:104-125 | a node not registered by persistence identifier changes nothing; otherwise its path, aggregate and persistence entries go, the root node is cleared for the root path, and the edge maps stay because the aggregate entry is already gone when it is looked up |
| ReadOnlySubgraphs.ContentSubgraph.UpdateNodeAggregateIdentifier | Classes/ContentSubgraph.php:132-150 | the aggregate and path index entries under the old identifier move to the new one; the edge maps never move |
| ReadOnlySubgraphs.ContentSubgraph.GetNodeByIdentifier | Classes/ContentSubgraph.php:156-159 | a node is found iff one is filed under the aggregate identifier, and it is that one |
| ReadOnlySubgraphs.ContentSubgraph.GetNodeByNodeIdentifier | Classes/ContentSubgraph.php:165-168 | null for an unknown persistence identifier, else the aggregate-index entry of the node filed there |
| ReadOnlySubgraphs.ContentSubgraph.GetNodeByPath | Classes/ContentSubgraph.php:174-177 | a node is found iff one is filed under the path, and it is that one |
| ReadOnlySubgraphs.ContentSubgraph.GetParentNode | Classes/ContentSubgraph.php:191-194 | a parent is found iff the node has a parent edge, and it is that edge's parent end (with `Edge` typed with the node wrapper; see Findings) |
| ReadOnlySubgraphs.ContentSubgraph.GetParentEdge | Classes/ContentSubgraph.php:200-203 | an edge is found iff one is filed for the node, and it is that one |
| ReadOnlySubgraphs.ContentSubgraph.GetChildNodes | Classes/ContentSubgraph.php:209-217 | the child ends of the node's child edges under the same names and in the same order; none without child edges |
| ReadOnlySubgraphs.ContentSubgraph.GetChildNode | Classes/ContentSubgraph.php:224-227 | a child is found iff the node has a child edge of that name, and it is that edge's child end (with `Edge` typed with the node wrapper; see Findings) |
| ReadOnlySubgraphs.ContentSubgraph.GetChildEdges | Classes/ContentSubgraph.php:233-236 | the node's child edges, empty when it has none |
| ReadOnlySubgraphs.ContentSubgraph.GetChildEdge | Classes/ContentSubgraph.php:243-246 | an edge is found iff the node has a child edge of that name, and it is that one |
| ReadOnlySubgraphs.ContentSubgraph.Count | Classes/ContentSubgraph.php:316-319 | a TypeError exactly while the aggregate index is still null (`count(null)`), else the number of nodes in it |
| ReadOnlySubgraphs.ContentSubgraph.GetNodes | Classes/ContentSubgraph.php:182-185 | a TypeError exactly while the aggregate index is still null (the `array` return type refuses null), else that index |
| ReadOnlySubgraphs.ContentSubgraph.Traverse | Classes/ContentSubgraph.php:276-279 | a TypeError without a root node, else the pre-order visit from the root |
| ReadOnlySubgraphs.ContentSubgraph.TraverseNode | Classes/ContentSubgraph.php:286-295 | the nodes handed to the action are exactly the pre-order visit of the specification |
| ReadOnlySubgraphs.VisitStartsWithNode | Classes/ContentSubgraph.php:288-290 | a visit hands over the node first, and only that node when the action answers `false` |
| ReadOnlySubgraphs.SiblingsAreVisited | Classes/ContentSubgraph.php:291-293 | visiting siblings is visiting each of them in turn, so a pruned sibling does not stop the ones after it |
| ReadOnlySubgraphIdentifier.ToString | Classes/ContentSubgraphIdentifier.php:75-78 | the string form is the hash of the point, '@' and the workspace name |
| ReadOnlySubgraphIdentifier.JsonSerialize | Classes/ContentSubgraphIdentifier.php:64-70 | the JSON form holds the workspace name and the point |
| ReadOnlySubgraphIdentifier.JsonRoundTrip | Classes/ContentSubgraphIdentifier.php:64-70 | reading the JSON form back gives the identifier |
| ReadOnlySubgraphIdentifier.StringFormIdentifies | Classes/ContentSubgraphIdentifier.php:75-78 | two identifiers have the same string form iff they name the same workspace and point |
| ReadOnlyRegistry.NodeAssignmentRegistry.constructor | Classes/NodeAssignmentRegistry.php:16-24 | both maps start out unset (null), which every access reads as an empty array |
| ReadOnlyRegistry.NodeAssignmentRegistry.RegisterNodeByPathAndSubgraphIdentifier | Classes/NodeAssignmentRegistry.php:26-29 | the node becomes the one assigned to the path in that subgraph |
| ReadOnlyRegistry.NodeAssignmentRegistry.GetNodeByPathAndSubgraphIdentifier | Classes/NodeAssignmentRegistry.php:31-34 | a node is found iff one is assigned to the path in that subgraph, and it is that one |
| ReadOnlyRegistry.NodeAssignmentRegistry.RegisterSubgraphIdentifierByPathAndNodeIdentifier | Classes/NodeAssignmentRegistry.php:36-39 | the subgraph is added under its string form to those of the node at the path |
| ReadOnlyRegistry.NodeAssignmentRegistry.GetSubgraphIdentifiersByPathAndNodeIdentifier | Classes/NodeAssignmentRegistry.php:46-49 | the subgraphs filed for the path and node, empty when there are none |
| ReadOnlyRegistry.RegisterThenGetNode | Classes/NodeAssignmentRegistry.php:26-34 | after registering, the lookup at that path and subgraph gives the node back and every other lookup is unchanged |
| ReadOnlyRegistry.SameSubgraphStoredOnce | Classes/NodeAssignmentRegistry.php:36-39 | registering two identifiers with the same string form stores one entry |
| ReadOnlyPointFactory.CreateFromNodeData | Classes/DimensionSpacePointFactory.php:33-46 | the point's coordinates are those of the record's dimension values, in priority order, with the workspace coordinate |
| ReadOnlyGraphs.IndexHoldsEach | Classes/ContentGraph.php:46-49 | the node index holds exactly the persistence identifiers of the given nodes |
| ReadOnlyGraphs.IndexHoldsLast | Classes/ContentGraph.php:46-49 | a persistence identifier is filed with the last node that has it |
| ReadOnlyGraphs.IndexHoldsLastOfEach | Classes/ContentGraph.php:46-49 | the index holds exactly the identifiers of the nodes, each with the last node that has it |
| ReadOnlyGraphs.IndexFilesByIdentifier | Classes/ContentGraph.php:46-49 | every indexed node carries the identifier it is filed under |
| ReadOnlyGraphs.VisitSubgraphsStep | Classes/ContentGraph.php:82-84 | one more subgraph adds its visit, or ends in a TypeError when it has no root node |
| ReadOnlyGraphs.VisitSubgraphsStayNone | Classes/ContentGraph.php:82-84 | once a subgraph without root node is reached the whole traversal fails |
| ReadOnlyGraphs.TraverseEach | Classes/ContentGraph.php:80-85 | the loop's visits are exactly those of the specification over all subgraphs in order |
| ReadOnlyGraphs.ContentGraph.constructor | Classes/ContentGraph.php:39-49 | keeps the subgraphs and aggregates, and indexes every node under its persistence identifier in the order given; the index stays null without nodes |
| ReadOnlyGraphs.ContentGraph.Construct | Classes/ContentGraph.php:39-56 | construction fails with a TypeError exactly when some subgraph's node index is still null (`count($subgraph)`), or when console output is requested and no node was given (`count($this->nodeIndex)`); otherwise a fresh graph as the constructor builds it |
| ReadOnlyGraphs.ContentGraph.TraverseNodeIndex | Classes/ContentGraph.php:63-74 | hands over exactly what the node-index traversal specification names for the indexed nodes |
| ReadOnlyGraphs.ContentGraph.TraverseSubgraphs | Classes/ContentGraph.php:80-85 | traverses each subgraph in filing order, a subgraph without root node being a TypeError |
| ReadOnlyGraphs.ContentGraph.GetNodes | Classes/ContentGraph.php:90-93 | the node index, or a TypeError iff it is null |
| ReadOnlyGraphs.ContentGraph.GetNode | Classes/ContentGraph.php:99-102 | a node is found iff one is filed under the persistence identifier, and it is that one |
| ReadOnlyGraphs.ContentGraph.RegisterNode | Classes/ContentGraph.php:108-111 | the node is found under its persistence identifier afterwards and every other lookup is unchanged |
| ReadOnlyGraphs.ContentGraph.UnregisterNode | Classes/ContentGraph.php:117-122 | the identifier finds nothing afterwards and every other lookup is unchanged |
| ReadOnlyGraphs.ContentGraph.GetNodeAggregate | Classes/ContentGraph.php:147-150 | an aggregate is found iff one is filed under the identifier, and it is that one |
| ReadOnlyGraphs.ContentGraph.RegisterNodeAggregate | Classes/ContentGraph.php:156-159 | the aggregate is found under its identifier afterwards and every other lookup is unchanged |
| ReadOnlyGraphs.ContentGraph.UnregisterNodeAggregate | Classes/ContentGraph.php:165-170 | the identifier finds nothing afterwards and every other lookup is unchanged |
| ReadOnlyGraphs.ContentGraph.GetSubgraphByHash | Classes/ContentGraph.php:193-196 | a subgraph is found iff one is filed under the string form, and it is that one |
| ReadOnlyGraphs.ContentGraph.GetSubgraphByIdentifier | Classes/ContentGraph.php:184-187 | the lookup by the identifier's string form |
| ReadOnlyGraphs.ContentGraph.SubgraphFoundByIdentifier | Classes/ContentGraph.php:184-196 | when subgraphs are filed under their own identifiers, the lookup by identifier finds the subgraph with exactly that identifier |
| ReadOnlyGraphService.PickForFound | Classes/GraphService.php:232-243 | a registration is made only for a node found, at that node's path and under the subgraph's string form |
| ReadOnlyGraphService.PointsFiledExtend | Classes/GraphService.php:151-154 | filing the subgraph of one more point keeps every point's subgraph filed |
| ReadOnlyGraphService.FiledFromPointsExtend | Classes/GraphService.php:151-154 | filing the subgraph of one more point keeps every filed subgraph one of the points' |
| ReadOnlyGraphService.KeysWrittenStep | Classes/GraphService.php:151-154 | filing the subgraph of the next point appends its string form to the keys written for the points before it |
| ReadOnlyGraphService.SubgraphFiledStep | Classes/GraphService.php:151-154 | filing the subgraph of the next point turns the subgraphs of the points before it into those of the points up to it, in order |
| ReadOnlyGraphService.MadeForStep | Classes/GraphService.php:151-154 | a new subgraph of the next point, in the workspace that point names, extends the subgraphs made so far |
| ReadOnlyGraphService.FiledFromMade | Classes/GraphService.php:151-154 | every subgraph filed by filing the made ones in turn is one of them |
| ReadOnlyGraphService.MadeForFiled | Classes/GraphService.php:151-154 | filing in turn the subgraphs made for the points files exactly the subgraphs of the points, in the points' order |
| ReadOnlyGraphService.NodesForHas | Classes/GraphService.php:113-121 | a persistence identifier has a node iff some record has that identifier |
| ReadOnlyGraphService.NodesForLastWins | Classes/GraphService.php:113-121 | the node under an identifier is built from the last record with it, at the point the factory gives that record |
| ReadOnlyGraphService.GraphService.constructor | Classes/GraphService.php:68-81 | keeps the collaborators' data and names the workspace dimension `_workspace`; no workspace or system aggregate is known yet |
| ReadOnlyGraphService.GraphService.IndexWorkspaces | Classes/GraphService.php:94-97 | the workspaces are filed under their names, a later one replacing an earlier one of the same name |
| ReadOnlyGraphService.GraphService.GetSubgraphs | Classes/GraphService.php:146-157 | a TypeError iff some allowed point's workspace is not indexed; otherwise exactly the subgraphs of the allowed points, each in the workspace its point names, filed under its string form in the points' order; every one is new and holds no node |
| ReadOnlyGraphService.GraphService.CreateNodes | Classes/GraphService.php:113-121 | one node per record under the record's persistence identifier, the last record winning |
| ReadOnlyGraphService.GraphService.MarkIfSystem | Classes/GraphService.php:190-196 | the node's identifier is added to the system identifiers iff it is off the root path and a coordinate of its point is `_` |
| ReadOnlyGraphService.GraphService.GroupNodesToAggregates | Classes/GraphService.php:178-210 | the system identifiers grow by those of the nodes; there is one aggregate per group of nodes with the same aggregate identifier (the root path's under the root identifier), in first-appearance order, holding that group in order |
| ReadOnlyGraphService.GraphService.MakeAggregates | Classes/GraphService.php:201-203 | one aggregate per group, filed under the group's identifier in the groups' order, built from the group |
| ReadOnlyGraphService.GraphService.FindBestSuitedNodeForSubgraph | Classes/GraphService.php:257-283 | the variant the resolution specification names: the root aggregate's first node in the workspace, a system aggregate's first node, else the node at the point or at the first weighted generalization that has one |
| ReadOnlyGraphService.GraphService.AssignInSubgraph | Classes/GraphService.php:227-244 | registers exactly what the subgraph sees of the aggregate, or nothing when it sees nothing |
| ReadOnlyGraphService.GraphService.AssignAggregate | Classes/GraphService.php:226-245 | fails iff some subgraph's registration fails, with the first such failure; otherwise the registry grows by exactly the registrations for this aggregate |
| ReadOnlyGraphService.GraphService.PicksStep | Classes/GraphService.php:225-249 | the registrations of one more aggregate follow those of the aggregates before it |
| ReadOnlyGraphService.GraphService.PicksInFailAt | Classes/GraphService.php:226-245 | a failure at one subgraph after the earlier ones succeed is the failure of the whole aggregate |
| ReadOnlyGraphService.GraphService.PicksInGrowAt | Classes/GraphService.php:226-245 | success at one subgraph adds its registrations to the earlier ones, in the registry as in the specification |
| ReadOnlyGraphService.GraphService.PicksInStayFailed | Classes/GraphService.php:226-245 | once the registrations over a prefix of the subgraphs fail, every longer prefix fails alike |
| ReadOnlyGraphService.GraphService.DetermineNodeAssignments | Classes/GraphService.php:218-255 | fails iff the registration specification fails, with its failure; otherwise a fresh registry holding exactly the node and subgraph registrations of every aggregate and subgraph, in order |
| ReadOnlyGraphService.GraphService.AssignStep | Classes/GraphService.php:225-249 | after one more aggregate the registry holds the specification's registrations for the aggregates so far, or the whole run fails with that aggregate's failure |
| ReadOnlyGraphService.GraphService.PicksGrowAt | Classes/GraphService.php:225-249 | success at one aggregate adds its registrations to the earlier ones, in the registry as in the specification |
| ReadOnlyGraphService.GraphService.PicksFailAt | Classes/GraphService.php:225-249 | a failure at one aggregate after the earlier ones succeed is the failure of the whole run |
| ReadOnlyGraphService.GraphService.PicksStayFailed | Classes/GraphService.php:225-249 | once the registrations over a prefix of the aggregates fail, every longer prefix fails alike |
| ReadOnlyGraphService.GraphService.PicksInOk | Classes/GraphService.php:226-245 | the registrations for one aggregate succeed iff every subgraph's do; a failure is that of some subgraph |
| ReadOnlyGraphService.GraphService.PicksInMembers | Classes/GraphService.php:226-245 | successful registrations for one aggregate are exactly those of its subgraphs |
| ReadOnlyGraphService.GraphService.PicksOk | Classes/GraphService.php:225-249 | the whole run succeeds iff every pair of aggregate and subgraph does |
| ReadOnlyGraphService.GraphService.PicksInclude | Classes/GraphService.php:225-249 | a successful run includes the registrations of every pair of aggregate and subgraph |
| ReadOnlyGraphService.GraphService.PicksCameFromPairs | Classes/GraphService.php:225-249 | every registration of a successful run comes from some pair of aggregate and subgraph |
| ReadOnlyGraphService.GraphService.AssignmentsComplete | Classes/GraphService.php:232-243 | after a successful run the subgraph is registered for each node it sees, at the node's path and persistence identifier |
| ReadOnlyGraphService.GraphService.AssignmentsSound | Classes/GraphService.php:232-238 | after a successful run every node registered at a path in a subgraph is the node that subgraph sees of some aggregate, and lies at that path |
| ProjectionNodes.CacheEntryIdentifies | Classes/NodeAggregate/Node.php:333-340 | two records with workspaces share a cache entry identifier iff they have the same aggregate identifier, workspace name and origin |
| ProjectionNodes.CacheEntryNeedsWorkspace | Classes/NodeAggregate/Node.php:333-340 | asking for the cache entry identifier fails iff the record has no workspace |
| ProjectionNodes.Node.constructor | Classes/NodeAggregate/Node.php:61-68 | the node keeps its record and origin, takes the record's aggregate identifier and starts without relations |
| ProjectionNodes.Node.OutgoingInSubgraph | Classes/NodeAggregate/Node.php:119-122 | the outgoing relations filed for the subgraph's string form, empty for a subgraph without any |
| ProjectionNodes.Node.GetOutgoingHierarchyRelations | Classes/NodeAggregate/Node.php:103-113 | the loop yields exactly the flattening specification: every subgraph's relations in filing order, under their names for the graph, a later one replacing an earlier one |
| ProjectionNodes.Node.RegisterOutgoingHierarchyRelation | Classes/NodeAggregate/Node.php:129-132 | the relation is filed under its subgraph hash and local identifier, replacing the one filed there |
| ProjectionNodes.Node.UnregisterOutgoingHierarchyRelation | Classes/NodeAggregate/Node.php:139-144 | the relation's entry, looked up by its subgraph's string form and its local identifier, is removed when present; otherwise nothing changes |
| ProjectionNodes.Node.IncomingInSubgraph | Classes/NodeAggregate/Node.php:154-157 | an incoming relation is found iff one is filed for the subgraph's string form, and it is that one |
| ProjectionNodes.Node.RegisterIncomingHierarchyRelation | Classes/NodeAggregate/Node.php:159-162 | the relation becomes the incoming one of its subgraph hash |
| ProjectionNodes.Node.UnregisterIncomingRelation | Classes/NodeAggregate/Node.php:164-169 | the incoming relation of the relation's subgraph is removed when present; otherwise nothing changes |
| ProjectionNodes.Node.RegisterIncomingReferenceRelation | Classes/NodeAggregate/Node.php:179-182 | the reference is appended to the incoming ones |
| ProjectionNodes.Node.RegisterOutgoingReferenceRelation | Classes/NodeAggregate/Node.php:192-195 | the reference is appended to the outgoing ones |
| ProjectionNodes.Node.IsRoot | Classes/NodeAggregate/Node.php:342-345 | true iff the record lies at the root path |
| ProjectionNodes.Node.IsTethered | Classes/NodeAggregate/Node.php:347-355 | fails iff the record has no workspace; otherwise true iff there is an incoming relation in the node's own subgraph and the parent's type declares an auto-created child of a non-null type under the relation's name, an unnamed relation being looked up under the empty name "" |
| ProjectionNodes.Node.IsTetheredAsWritten | Classes/NodeAggregate/Node.php:347-355 | as written: a call on null without a workspace; a TypeError exactly when the incoming relation in the node's own subgraph is named (an object used as array offset); otherwise the same answer as the corrected reading |
| ProjectionNodes.AsWrittenRefusesNamedTetheredNode | Classes/NodeAggregate/Node.php:351 | a node tethered under a name, as intended, is refused with a TypeError by the call as written |
| ProjectionNodes.FiledUpToKeys | Classes/NodeAggregate/Node.php:107-109 | filing relations keeps the earlier names and adds exactly the names of the relations filed, each holding one of them |
| ProjectionNodes.FlattenedUpToKeys | Classes/NodeAggregate/Node.php:106-110 | a name is in the flattened relations iff some relation of some listed subgraph has it |
| ProjectionNodes.FlattenedUpToValues | Classes/NodeAggregate/Node.php:106-110 | what is filed under a name is one of the relations of a listed subgraph, with that name |
| ProjectionNodes.FlattenedHolds | Classes/NodeAggregate/Node.php:103-113 | the outgoing relations hold a name iff some relation of some subgraph has it, and what they hold is one of those relations |
| ProjectionNodes.HierarchyRelation.constructor | Classes/ContentSubgraph/HierarchyRelation.php:54-65 | keeps endpoints, subgraph, hash, position and name; the properties are merged with those of the parent's incoming relation in the subgraph when it has one, and kept otherwise |
| ProjectionNodes.HierarchyRelation.ParentEdge | Classes/ContentSubgraph/HierarchyRelation.php:131-134 | the parent's incoming relation in this relation's subgraph |
| ProjectionNodes.HierarchyRelation.MergeStructurePropertiesWithParent | Classes/ContentSubgraph/HierarchyRelation.php:136-162 | the properties become the merge with the parent edge's when there is one, and stay otherwise |
| ProjectionNodes.HierarchyRelation.NameForGraph | Classes/ContentSubgraph/HierarchyRelation.php:102-105 | the name (empty for none), '@' and the subgraph hash |
| ProjectionNodes.HierarchyRelation.LocalIdentifier | Classes/ContentSubgraph/HierarchyRelation.php:164-167 | the name for the graph when the relation is named, else the child's aggregate identifier |
| ProjectionNodes.HierarchyRelation.GetPosition | Classes/ContentSubgraph/HierarchyRelation.php:92-95 | the integer position, or a TypeError iff the position is a string |
| ProjectionNodes.HierarchyRelation.SetPosition | Classes/ContentSubgraph/HierarchyRelation.php:87-90 | the position becomes the given string |
| ProjectionNodes.HierarchyRelation.GetProperty | Classes/ContentSubgraph/HierarchyRelation.php:116-119 | the stored value of a set property, null for one that is not set |
| ProjectionNodes.HierarchyRelation.SetProperty | Classes/ContentSubgraph/HierarchyRelation.php:126-129 | exactly one property changes, to the given value |
| ProjectionNodes.ReferenceRelation.constructor | Classes/ContentSubgraph/ReferenceRelation.php:62-74 | keeps source, target, position, name and properties as given |
| ProjectionNodes.ReferenceRelation.GetProperty | Classes/ContentSubgraph/ReferenceRelation.php:120-123 | the stored value of a set property, null for one that is not set |
| ProjectionNodes.ReferenceRelation.SetProperty | Classes/ContentSubgraph/ReferenceRelation.php:130-133 | the property reads back as written and every other property reads as before |
| ProjectionNodes.NodeAggregate.constructor | Classes/NodeAggregate/NodeAggregate.php:46-50 | starts empty and files the given nodes as the corrected addNodes does |
| ProjectionNodes.NodeAggregate.AddNodes | Classes/NodeAggregate/NodeAggregate.php:52-71 | with the workspace dimension named `_workspace`, the three groups of variants become those the partition specification yields after filing the batch in order |
| ProjectionNodes.NodeAggregate.AddNodesAsWritten | Classes/NodeAggregate/NodeAggregate.php:52-71 | fails iff some node of the batch has a workspace, with an undeclared-constant error; only the workspace-less nodes before the first such node are kept |
| ProjectionNodes.NodeAggregate.RemoveNode | Classes/NodeAggregate/NodeAggregate.php:73-78 | the primary variant at the point is removed if present, nothing else changes |
| ProjectionNodes.NodeAggregate.GetNodeByDimensionSpacePoint | Classes/NodeAggregate/NodeAggregate.php:80-83 | a variant is found iff one is filed under the point's hash, and it is that one |
| ProjectionNodes.NodeAggregate.GetShadowNodeByDimensionSpacePoint | Classes/NodeAggregate/NodeAggregate.php:92-95 | a shadow variant is found iff one is filed under the point's hash, and it is that one |
| ProjectionNodes.NodeAggregate.GetNodesByWorkspace | Classes/NodeAggregate/NodeAggregate.php:101-111 | the primary variants of exactly that workspace, in filing order |
| ProjectionNodes.NodeAggregate.IsRoot | Classes/NodeAggregate/NodeAggregate.php:134-137 | never true: an identifier object is compared by identity with a string |
| ProjectionNodes.NodeAggregate.Count | Classes/NodeAggregate/NodeAggregate.php:139-142 | the number of primary variants |
| ProjectionNodes.NodeAggregate.IsEmpty | Classes/NodeAggregate/NodeAggregate.php:143-146 | true iff there is no primary variant |
| ProjectionNodes.LeadingWithoutWorkspaceStops | Classes/NodeAggregate/NodeAggregate.php:54-62 | the nodes kept by the written loop end right before the first node with a workspace |
| ProjectionNodes.LeadingWithoutWorkspaceAll | Classes/NodeAggregate/NodeAggregate.php:54-56 | a batch without workspaces is kept entirely |
| ProjectionNodes.AsWrittenLosesWorkspaceNodes | Classes/NodeAggregate/NodeAggregate.php:57-68 | a node with a workspace that the corrected addNodes files under its key is never reached by the written loop |
| ProjectionNodes.LeadingPrefixHasNoWorkspace | Classes/NodeAggregate/NodeAggregate.php:54-56 | every node the written loop keeps has no workspace |
| ProjectionSubgraphIdentifier.JsonSerialize | Classes/ContentSubgraph/ContentSubgraphIdentifier.php:50-56 | the JSON form holds the workspace name and the point |
| ProjectionSubgraphIdentifier.ToString | Classes/ContentSubgraph/ContentSubgraphIdentifier.php:33-38 | the string form is the hash of the JSON form |
| ProjectionSubgraphIdentifier.JsonRoundTrip | Classes/ContentSubgraph/ContentSubgraphIdentifier.php:50-56 | reading the JSON form back gives the identifier |
| ProjectionSubgraphIdentifier.StringFormIdentifies | Classes/ContentSubgraph/ContentSubgraphIdentifier.php:58-61 | two identifiers have the same string form iff they name the same workspace and point |
| ProjectionRegistry.NodeAssignmentRegistry.constructor | Classes/ContentSubgraph/NodeAssignmentRegistry.php:19-27 | both maps start out unset (null), which every access reads as an empty array |
| ProjectionRegistry.NodeAssignmentRegistry.RegisterNodeByPathAndSubgraphIdentifier | Classes/ContentSubgraph/NodeAssignmentRegistry.php:29-32 | the node becomes the one assigned to the path in that subgraph |
| ProjectionRegistry.NodeAssignmentRegistry.GetNodeByPathAndSubgraphIdentifier | Classes/ContentSubgraph/NodeAssignmentRegistry.php:34-37 | a node is found iff one is assigned to the path in that subgraph, and it is that one |
| ProjectionRegistry.NodeAssignmentRegistry.RegisterSubgraphIdentifierByPathAndNodeIdentifier | Classes/ContentSubgraph/NodeAssignmentRegistry.php:39-42 | the subgraph is added under its string form to those of the node at the path |
| ProjectionRegistry.NodeAssignmentRegistry.GetSubgraphIdentifiersByPathAndNodeIdentifier | Classes/ContentSubgraph/NodeAssignmentRegistry.php:49-52 | the subgraphs filed for the path and node, empty when there are none |
| ProjectionRegistry.RegisterThenGetNode | Classes/ContentSubgraph/NodeAssignmentRegistry.php:29-37 | after registering, the lookup at that path and subgraph gives the node back and every other lookup is unchanged |
| ProjectionRegistry.SameSubgraphStoredOnce | Classes/ContentSubgraph/NodeAssignmentRegistry.php:39-42 | registering two identifiers with the same string form stores one entry |
| ProjectionPointFactory.CreateFromNodeData | Classes/Dimension/DimensionSpacePointFactory.php:34-47 | the point's coordinates are those of the record's dimension values, in priority order, with the workspace coordinate |
| ProjectionPointFactory.CreateFromNodeDataAsWritten | Classes/Dimension/DimensionSpacePointFactory.php:37-46 | as written the call fails on the undeclared constant exactly when a dimension is configured, and otherwise yields the empty point |
| ProjectionPointFactory.AsWrittenLosesWorkspaceCoordinate | Classes/Dimension/DimensionSpacePointFactory.php:39-40 | with the workspace dimension configured, the call as written yields no point, while the intended point holds the record's workspace name, or '_' without a workspace, under that dimension |
| ProjectionSubgraphs.ContentSubgraph.constructor | Classes/ContentSubgraph/ContentSubgraph.php:70-75 | keeps workspace and point, builds the identifier from the workspace name and the point; every index starts empty and the wrapper index null |
| ProjectionSubgraphs.ContentSubgraph.RegisterNode | Classes/ContentSubgraph/ContentSubgraph.php:81-99 | the node is filed under its aggregate identifier; with an indexed parent path the relation is created and filed as the parent relation, and the call then fails (on the undefined `getName()`, on a null parent node, or on a node without cache entry identifier) before the wrapper and path indexes are written; without one the wrapper is filed and becomes the root at the root path |
| ProjectionSubgraphs.ContentSubgraph.ConnectToParent | Classes/ContentSubgraph/ContentSubgraph.php:87-90 | always fails: a TypeError when the parent wrapper's aggregate has no node here, a null call when the node has no cache entry identifier, else after filing the new relation under the node's cache entry identifier |
| ProjectionSubgraphs.ContentSubgraph.IndexWrapper | Classes/ContentSubgraph/ContentSubgraph.php:94-98 | the wrapper is filed under its identifier and the node's path, and is the root exactly at the root path |
| ProjectionSubgraphs.ContentSubgraph.UnregisterNode | Classes/ContentSubgraph/ContentSubgraph.php:105-126 | nothing changes unless the aggregate is filed; otherwise the path entry goes, a node without workspace then fails on null, and a node with one loses its wrapper entry and aggregate entry and clears the root at the root path while the relation maps stay |
| ProjectionSubgraphs.ContentSubgraph.UpdateNodeAggregateIdentifier | Classes/ContentSubgraph/ContentSubgraph.php:133-151 | the wrapper and path entries under the old identifier move to the new one; the relation maps never move |
| ProjectionSubgraphs.ContentSubgraph.GetNodeByIdentifier | Classes/ContentSubgraph/ContentSubgraph.php:157-160 | a wrapper is found iff one is filed under the key, and it is that one |
| ProjectionSubgraphs.ContentSubgraph.GetNodeByPath | Classes/ContentSubgraph/ContentSubgraph.php:175-178 | a wrapper is found iff one is filed under the path, and it is that one |
| ProjectionSubgraphs.ContentSubgraph.GetNodes | Classes/ContentSubgraph/ContentSubgraph.php:183-186 | the wrapper index, or a TypeError iff it is still null |
| ProjectionSubgraphs.ContentSubgraph.GetParentNode | Classes/ContentSubgraph/ContentSubgraph.php:192-195 | null iff there is no parent relation; with one, a TypeError, since a Node is returned where a TraversableNode is declared |
| ProjectionSubgraphs.ContentSubgraph.GetParentEdge | Classes/ContentSubgraph/ContentSubgraph.php:201-204 | a relation is found iff one is filed under the wrapper's identifier, and it is that one |
| ProjectionSubgraphs.ContentSubgraph.GetChildEdges | Classes/ContentSubgraph/ContentSubgraph.php:234-237 | the relations filed under the wrapper's identifier, empty when there are none |
| ProjectionSubgraphs.ContentSubgraph.GetChildNodes | Classes/ContentSubgraph/ContentSubgraph.php:210-218 | the children of the child relations under the same names and in the same order; empty without them |
| ProjectionSubgraphs.ContentSubgraph.GetChildNode | Classes/ContentSubgraph/ContentSubgraph.php:225-228 | null iff there is no child relation of that name; with one, a TypeError for the Node returned where a TraversableNode is declared |
| ProjectionSubgraphs.ContentSubgraph.GetChildEdge | Classes/ContentSubgraph/ContentSubgraph.php:244-247 | a relation is found iff the wrapper has one of that name, and it is that one |
| ProjectionSubgraphs.ContentSubgraph.Count | Classes/ContentSubgraph/ContentSubgraph.php:401-404 | the number of filed wrappers, or a TypeError iff the index is still null |
| ProjectionSubgraphs.ContentSubgraph.ToString | Classes/ContentSubgraph/ContentSubgraph.php:388-391 | the identifier's string form, the hash of its workspace name and point |
| ProjectionSubgraphs.BlindLookups | Classes/ContentSubgraph/ContentSubgraph.php:192-247 | while no relation is filed under the key every wrapper has, every parent and child lookup finds nothing |
| ProjectionSubgraphs.WrappersShareOneKey | Classes/ContentSubgraph/ContentSubgraph.php:94 | every wrapper has the same identifier, so a later registration replaces the earlier wrapper and the index never grows past one |
| ProjectionSubgraphs.UpdateToSameIdentifierDrops | Classes/ContentSubgraph/ContentSubgraph.php:135-142 | re-filing an identifier under itself removes its entry |
| ProjectionGraphs.ReferencesAmongExactly | Classes/ContentSubgraph/ContentGraph.php:128-135 | the references made from one property's targets are exactly those to known aggregates, at their indexes |
| ProjectionGraphs.ReferencesUpToExactly | Classes/ContentSubgraph/ContentGraph.php:118-137 | when no property fails, the references made are exactly those the record's reference properties ask for |
| ProjectionGraphs.ReferencesUpToFails | Classes/ContentSubgraph/ContentGraph.php:119-126 | creating references fails iff some reference property's value cannot be read as a list of targets |
| ProjectionGraphs.ReferencesStayFailed | Classes/ContentSubgraph/ContentGraph.php:118-137 | once a property fails the later properties change nothing |
| ProjectionGraphs.DescribesAppend | Classes/ContentSubgraph/ContentGraph.php:128-135 | relations appended after described ones are described by the references appended in the same order |
| ProjectionGraphs.SharesSubgraphExactly | Classes/ContentSubgraph/ContentGraph.php:153-157 | a candidate shares a subgraph with the source iff one of its incoming relations lies in a subgraph the source has an incoming relation in |
| ProjectionGraphs.IndexedHoldsEach | Classes/ContentSubgraph/ContentGraph.php:81 | after the first loop each node is filed under its cache entry identifier, with the last node that has it |
| ProjectionGraphs.AssignedFromExactly | Classes/ContentSubgraph/ContentGraph.php:56-78 | being connected from one subgraph on means being connected in each later assigned subgraph where the registry has a parent |
| ProjectionGraphs.ParentsOf | Classes/ContentSubgraph/ContentGraph.php:57 | the parent the registry assigns in each subgraph, in order |
| ProjectionGraphs.ConnectingKeepsConnected | Classes/ContentSubgraph/ContentGraph.php:56-78 | connecting a node in one more subgraph keeps it connected in the earlier ones |
| ProjectionGraphs.ContentGraph.constructor | Classes/ContentSubgraph/ContentGraph.php:44-47 | keeps the subgraphs and aggregates; the node index is null until the loops write it |
| ProjectionGraphs.ContentGraph.AssignHierarchyRelation | Classes/ContentSubgraph/ContentGraph.php:57-77 | with no parent in the subgraph nothing changes; else a TypeError iff the subgraph is unknown or the node has no index; else a fresh relation with the node's index, name and visibility and access values merged with the parent's incoming relation is filed as the node's incoming and the parent's outgoing relation |
| ProjectionGraphs.ContentGraph.AssignHierarchyRelations | Classes/ContentSubgraph/ContentGraph.php:55-79 | a root-path node is left alone; a node without cache entry identifier fails on null; otherwise the node is connected in every assigned subgraph that has a parent, failing iff one of them cannot be connected |
| ProjectionGraphs.ContentGraph.AssignInSubgraphs | Classes/ContentSubgraph/ContentGraph.php:56-78 | fails iff some subgraph cannot be connected; otherwise the node is connected to the registry's parent in each subgraph that has one |
| ProjectionGraphs.ContentGraph.CreateSingleReferenceRelation | Classes/ContentSubgraph/ContentGraph.php:142-160 | a fresh relation with the given name and index is appended to the source's outgoing relations and, once per listing, to each target variant that shares a subgraph with the source |
| ProjectionGraphs.ContentGraph.Distribute | Classes/ContentSubgraph/ContentGraph.php:152-159 | every candidate receives the relation once per listing iff it shares a subgraph with the source |
| ProjectionGraphs.ContentGraph.ReceiveIfShared | Classes/ContentSubgraph/ContentGraph.php:153-158 | the candidate receives the relation once iff it shares a subgraph with the source |
| ProjectionGraphs.ContentGraph.CreateReferencesAmong | Classes/ContentSubgraph/ContentGraph.php:128-135 | the relations appended are exactly the references to known aggregates among the targets, and their number is returned; every variant of a known aggregate keeps its earlier incoming reference relations as a prefix |
| ProjectionGraphs.ContentGraph.CreateReferenceRelations | Classes/ContentSubgraph/ContentGraph.php:115-140 | fails iff the reference specification fails; otherwise the relations appended are exactly the references the record asks for, and their number is returned; every variant of a known aggregate keeps its earlier incoming reference relations as a prefix |
| ProjectionGraphs.ContentGraph.TraverseNodeIndex | Classes/ContentSubgraph/ContentGraph.php:162-173 | hands over exactly what the node-index traversal specification names for the indexed nodes |
| ProjectionGraphs.ContentGraph.GetNodes | Classes/ContentSubgraph/ContentGraph.php:185-188 | the node index, or a TypeError iff it is null |
| ProjectionGraphs.ContentGraph.GetNode | Classes/ContentSubgraph/ContentGraph.php:190-193 | a node is found iff one is filed under the cache entry identifier, and it is that one |
| ProjectionGraphs.ContentGraph.RegisterNode | Classes/ContentSubgraph/ContentGraph.php:195-198 | fails on null iff the node has no cache entry identifier, leaving the index; otherwise the node is found under it and every other lookup is unchanged |
| ProjectionGraphs.ContentGraph.UnregisterNode | Classes/ContentSubgraph/ContentGraph.php:200-205 | the identifier finds nothing afterwards and every other lookup is unchanged |
| ProjectionGraphs.ContentGraph.GetNodeAggregate | Classes/ContentSubgraph/ContentGraph.php:221-224 | an aggregate is found iff one is filed under the identifier, and it is that one |
| ProjectionGraphs.ContentGraph.RegisterNodeAggregate | Classes/ContentSubgraph/ContentGraph.php:226-229 | the aggregate is found under its identifier afterwards and every other lookup is unchanged |
| ProjectionGraphs.ContentGraph.UnregisterNodeAggregate | Classes/ContentSubgraph/ContentGraph.php:231-236 | the identifier finds nothing afterwards and every other lookup is unchanged |
| ProjectionGraphs.ContentGraph.GetSubgraphByIdentifier | Classes/ContentSubgraph/ContentGraph.php:246-251 | the lookup by the string form of the identifier built from the workspace name and the point |
| ProjectionGraphs.ContentGraph.SubgraphFoundByIdentifier | Classes/ContentSubgraph/ContentGraph.php:246-251 | when subgraphs are filed under their own identifiers, the lookup finds the subgraph of exactly that workspace and point |
| ProjectionGraphs.ContentGraph.Initialize | Classes/ContentSubgraph/ContentGraph.php:48-112 | on success every node is connected in its assigned subgraphs, indexed under its cache entry identifier, and every node off the root path has its references read without failure; with no node listed twice, each node's outgoing reference relations are its earlier ones followed by exactly one relation per reference its record names to a known aggregate, with the reference's name and position and that aggregate as target; every variant of a known aggregate keeps its earlier incoming reference relations as a prefix; with console output and no node given while the index is still null, the report's count of the index is a TypeError |
| ProjectionGraphs.ContentGraph.AssignAndIndex | Classes/ContentSubgraph/ContentGraph.php:54-86 | no node given means no failure; on success every node is connected in its assigned subgraphs and the index files each node, the last one winning |
| ProjectionGraphs.ContentGraph.AssignAndIndexStep | Classes/ContentSubgraph/ContentGraph.php:54-86 | one more node connected and filed keeps the earlier nodes connected and filed |
| ProjectionGraphs.ContentGraph.AssignAndIndexNode | Classes/ContentSubgraph/ContentGraph.php:55-81 | the node is connected in its assigned subgraphs and then filed under its cache entry identifier |
| ProjectionGraphs.ContentGraph.CreateAllReferenceRelations | Classes/ContentSubgraph/ContentGraph.php:98-107 | on success every node off the root path has had its references read without failure; with no node listed twice, each node's outgoing reference relations are its earlier ones followed by exactly one relation per reference its record names to a known aggregate (name, position, target aggregate), and a root node's are unchanged; every variant of a known aggregate keeps its earlier incoming reference relations as a prefix |
| ProjectionGraphService.PickForFound | Classes/ContentSubgraph/GraphService.php:233-244 | a registration is made only for a node found, at that node's path and under the subgraph's string form |
| ProjectionGraphService.PointsFiledExtend | Classes/ContentSubgraph/GraphService.php:150-153 | filing the subgraph of one more point keeps every point's subgraph filed |
| ProjectionGraphService.FiledFromPointsExtend | Classes/ContentSubgraph/GraphService.php:150-153 | filing the subgraph of one more point keeps every filed subgraph one of the points' |
| ProjectionGraphService.KeysWrittenStep | Classes/ContentSubgraph/GraphService.php:150-153 | filing the subgraph of the next point appends its string form to the keys written for the points before it |
| ProjectionGraphService.SubgraphFiledStep | Classes/ContentSubgraph/GraphService.php:150-153 | filing the subgraph of the next point turns the subgraphs of the points before it into those of the points up to it, in order |
| ProjectionGraphService.MadeForStep | Classes/ContentSubgraph/GraphService.php:150-153 | a new subgraph of the next point, in the workspace that point names, extends the subgraphs made so far |
| ProjectionGraphService.FiledFromMade | Classes/ContentSubgraph/GraphService.php:150-153 | every subgraph filed by filing the made ones in turn is one of them |
| ProjectionGraphService.MadeForFiled | Classes/ContentSubgraph/GraphService.php:150-153 | filing in turn the subgraphs made for the points files exactly the subgraphs of the points, in the points' order |
| ProjectionGraphService.NodesOfExtend | Classes/ContentSubgraph/GraphService.php:112-120 | filing the node of one more record appends its cache entry identifier to the keys unless already present, files it in place of any earlier record with that identifier, and keeps every filed node one of the records' at its origin |
| ProjectionGraphService.HaveWorkspacesExtend | Classes/ContentSubgraph/GraphService.php:112-120 | one more record with a workspace keeps every record with one |
| ProjectionGraphService.LastRecordsFiledExtend | Classes/ContentSubgraph/GraphService.php:112-120 | filing the node of one more record keeps, under each record's cache entry identifier, the node of the last record with it |
| ProjectionGraphService.FiledFromRecordsExtend | Classes/ContentSubgraph/GraphService.php:112-120 | filing the node of one more record keeps every node filed under its own cache entry identifier and one of the records' at its origin |
| ProjectionGraphService.NoRecordsNoNodes | Classes/ContentSubgraph/GraphService.php:112-120 | no records file no nodes |
| ProjectionGraphService.NodesOfStep | Classes/ContentSubgraph/GraphService.php:112-120 | filing the node of the next record turns the nodes of the records before it into those of the records up to it |
| ProjectionGraphService.GraphService.constructor | Classes/ContentSubgraph/GraphService.php:67-80 | keeps the collaborators' data and names the workspace dimension as the workspace-based dimension source does (`_workspace`); no workspace or system aggregate is known yet |
| ProjectionGraphService.GraphService.IndexWorkspaces | Classes/ContentSubgraph/GraphService.php:93-96 | the workspaces are filed under their names, a later one replacing an earlier one of the same name |
| ProjectionGraphService.GraphService.GetSubgraphs | Classes/ContentSubgraph/GraphService.php:145-156 | a TypeError iff some allowed point's workspace is not indexed; otherwise exactly the subgraphs of the allowed points, each in the workspace its point names, filed under its string form in the points' order; every one is new, holds no node and no relation, and has none under the key every relation lookup asks for |
| ProjectionGraphService.GraphService.CreateNodes | Classes/ContentSubgraph/GraphService.php:112-120 | fails on null iff some record has no workspace; otherwise the keys are the records' cache entry identifiers in the order each first appears, the node under a key is built from the last record with it at the origin the corrected point factory gives, and every filed node is one of the records' |
| ProjectionGraphService.GraphService.MarkIfSystem | Classes/ContentSubgraph/GraphService.php:191-197 | the node's aggregate identifier is added to the system identifiers iff it is off the root path and a coordinate of its origin is `_` |
| ProjectionGraphService.GraphService.GroupNodesToAggregates | Classes/ContentSubgraph/GraphService.php:177-211 | the system identifiers grow by those of the nodes; there is one aggregate per group of nodes with the same aggregate identifier (the root path's under the root identifier), in first-appearance order, holding that group in order |
| ProjectionGraphService.GraphService.MakeAggregates | Classes/ContentSubgraph/GraphService.php:202-204 | one aggregate per group, filed under the group's identifier in the groups' order, built from the group |
| ProjectionGraphService.GraphService.FindBestSuitedNodeForSubgraph | Classes/ContentSubgraph/GraphService.php:258-284 | the variant the resolution specification names: a system aggregate's first node, else the node at the point or at the first weighted generalization that has one (the root branch is never taken, since `isRoot` never holds here) |
| ProjectionGraphService.GraphService.AssignInSubgraph | Classes/ContentSubgraph/GraphService.php:228-245 | registers exactly what the subgraph sees of the aggregate, or nothing when it sees nothing |
| ProjectionGraphService.GraphService.AssignAggregate | Classes/ContentSubgraph/GraphService.php:227-246 | fails iff some subgraph's registration fails, with the first such failure; otherwise the registry grows by exactly the registrations for this aggregate |
| ProjectionGraphService.GraphService.PicksStep | Classes/ContentSubgraph/GraphService.php:226-250 | the registrations of one more aggregate follow those of the aggregates before it |
| ProjectionGraphService.GraphService.PicksInFailAt | Classes/ContentSubgraph/GraphService.php:227-246 | a failure at one subgraph after the earlier ones succeed is the failure of the whole aggregate |
| ProjectionGraphService.GraphService.PicksInGrowAt | Classes/ContentSubgraph/GraphService.php:227-246 | success at one subgraph adds its registrations to the earlier ones, in the registry as in the specification |
| ProjectionGraphService.GraphService.PicksInStayFailed | Classes/ContentSubgraph/GraphService.php:227-246 | once the registrations over a prefix of the subgraphs fail, every longer prefix fails alike |
| ProjectionGraphService.GraphService.DetermineNodeAssignments | Classes/ContentSubgraph/GraphService.php:219-256 | fails iff the registration specification fails, with its failure; otherwise a fresh registry holding exactly the node and subgraph registrations of every aggregate and subgraph, in order |
| ProjectionGraphService.GraphService.AssignStep | Classes/ContentSubgraph/GraphService.php:226-250 | after one more aggregate the registry holds the specification's registrations for the aggregates so far, or the whole run fails with that aggregate's failure |
| ProjectionGraphService.GraphService.PicksGrowAt | Classes/ContentSubgraph/GraphService.php:226-250 | success at one aggregate adds its registrations to the earlier ones, in the registry as in the specification |
| ProjectionGraphService.GraphService.PicksFailAt | Classes/ContentSubgraph/GraphService.php:226-250 | a failure at one aggregate after the earlier ones succeed is the failure of the whole run |
| ProjectionGraphService.GraphService.PicksStayFailed | Classes/ContentSubgraph/GraphService.php:226-250 | once the registrations over a prefix of the aggregates fail, every longer prefix fails alike |
| ProjectionGraphService.GraphService.PicksInOk | Classes/ContentSubgraph/GraphService.php:227-246 | the registrations for one aggregate succeed iff every subgraph's do; a failure is that of some subgraph |
| ProjectionGraphService.GraphService.PicksInMembers | Classes/ContentSubgraph/GraphService.php:227-246 | successful registrations for one aggregate are exactly those of its subgraphs |
| ProjectionGraphService.GraphService.PicksOk | Classes/ContentSubgraph/GraphService.php:226-250 | the whole run succeeds iff every pair of aggregate and subgraph does |
| ProjectionGraphService.GraphService.PicksInclude | Classes/ContentSubgraph/GraphService.php:226-250 | a successful run includes the registrations of every pair of aggregate and subgraph |
| ProjectionGraphService.GraphService.PicksCameFromPairs | Classes/ContentSubgraph/GraphService.php:226-250 | every registration of a successful run comes from some pair of aggregate and subgraph |
| ProjectionGraphService.GraphService.AssignmentsComplete | Classes/ContentSubgraph/GraphService.php:233-244 | after a successful run each node a subgraph sees has a cache entry identifier, and the subgraph is registered for that node at the node's path and cache entry identifier |
| ProjectionGraphService.GraphService.AssignmentsSound | Classes/ContentSubgraph/GraphService.php:233-239 | after a successful run every node registered at a path in a subgraph is the node that subgraph sees of some aggregate, and lies at that path |
| ContentDimensions.KeyOf | Classes/Dimension/LegacyConfigurationBasedContentDimensionSource.php:87-90 | a raw value used as an array key fails (illegal offset) exactly for an array, and a string is its own key |
| ContentDimensions.VariationEdges | Classes/Dimension/LegacyConfigurationBasedContentDimensionSource.php:92-95 | the edges succeed iff both ends of every link name a filed value, and then the i-th edge joins exactly the values the i-th link names; otherwise a TypeError |
| ContentDimensions.EdgesJoinValues | Classes/Dimension/LegacyConfigurationAndWorkspaceBasedContentDimensionSource.php:87-89 | every variation edge built joins two values of the dimension |
| ContentDimensions.CreateVariationEdges | Classes/Dimension/LegacyConfigurationBasedContentDimensionSource.php:92-95 | the loop builds exactly the edges the specification gives, or its failure |
| LegacyDimensionSource.ConstraintsOf | Classes/Dimension/LegacyConfigurationBasedContentDimensionSource.php:65-72 | the restrictions must be an array with a boolean `*` if any (else a TypeError); the wildcard is the `*` entry, which is then removed, and defaults to allowed |
| LegacyDimensionSource.ConstraintsFrom | Classes/Dimension/LegacyConfigurationBasedContentDimensionSource.php:63-74 | the constraints fail iff some entry fails, and otherwise are filed under exactly the entries' dimension identifiers |
| LegacyDimensionSource.BuildConstraints | Classes/Dimension/LegacyConfigurationBasedContentDimensionSource.php:65-73 | the loop gives what the constraints specification gives |
| LegacyDimensionSource.FirstNonNull | Classes/Dimension/LegacyConfigurationBasedContentDimensionSource.php:51-54 | the position where `$generalization` stops being null: every value before it is null and the one at it is not |
| LegacyDimensionSource.FirstNonNullGrows | Classes/Dimension/LegacyConfigurationBasedContentDimensionSource.php:52-58 | once the first non-null value is found, later values never move it |
| LegacyDimensionSource.GeneralizationOf | Classes/Dimension/LegacyConfigurationBasedContentDimensionSource.php:50-59 | a preset with at most one value leaves the generalization entries alone; with more, the last value ends up under the first |
| LegacyDimensionSource.Generalize | Classes/Dimension/LegacyConfigurationBasedContentDimensionSource.php:50-59 | the loop over the preset's values writes exactly the entries the specification gives |
| LegacyDimensionSource.PresetOf | Classes/Dimension/LegacyConfigurationBasedContentDimensionSource.php:45-84 | a preset that is no array or has no `values` is skipped, exactly; otherwise its value is its first value, its depth the number of values less one, its configuration the preset without `values`, and its generalization entry the last value iff it has more than one |
| LegacyDimensionSource.FiledFrom | Classes/Dimension/LegacyConfigurationBasedContentDimensionSource.php:44-85 | filing fails iff some preset fails; every value is filed under its own name, and a name has a generalization entry only if it has a value |
| LegacyDimensionSource.FiledFromHas | Classes/Dimension/LegacyConfigurationBasedContentDimensionSource.php:44-85 | a name is filed iff some preset with a `values` entry names it |
| LegacyDimensionSource.FiledFromHasGeneralization | Classes/Dimension/LegacyConfigurationBasedContentDimensionSource.php:49-58 | a name has a generalization entry iff some preset names it with more than one value |
| LegacyDimensionSource.FiledFromLastWins | Classes/Dimension/LegacyConfigurationBasedContentDimensionSource.php:44-85 | the value filed under a name is the one built from the last preset that names it |
| LegacyDimensionSource.FiledFromLastGeneralizationWins | Classes/Dimension/LegacyConfigurationBasedContentDimensionSource.php:49-58 | the generalization filed under a name is the last value of the last preset that names it with more than one value |
| LegacyDimensionSource.FilePreset | Classes/Dimension/LegacyConfigurationBasedContentDimensionSource.php:45-84 | one preset, statement by statement, gives what the filing step specifies |
| LegacyDimensionSource.FileValues | Classes/Dimension/LegacyConfigurationBasedContentDimensionSource.php:44-85 | the loop over the presets gives what the filing specification gives |
| LegacyDimensionSource.DimensionOf | Classes/Dimension/LegacyConfigurationBasedContentDimensionSource.php:36-108 | ContentDimensionValuesAreMissing iff the presets are unset or empty; ContentDimensionDefaultValueIsMissing iff the presets are filed but `default` is unset or names no filed value; a built dimension has its identifier, exactly the filed values, the value filed under `default` as its default, the variation edges built from the filed generalizations, every value under its own name, and the configuration without `default`, `defaultPreset` and `presets` |
| LegacyDimensionSource.BuiltValueIsLastPresets | Classes/Dimension/LegacyConfigurationBasedContentDimensionSource.php:44-108 | in a built dimension, the value under a name is the one built from the last preset that names it |
| LegacyDimensionSource.BuildDimension | Classes/Dimension/LegacyConfigurationBasedContentDimensionSource.php:36-108 | building one entry gives what the dimension specification gives |
| LegacyDimensionSource.Built | Classes/Dimension/LegacyConfigurationBasedContentDimensionSource.php:35-109 | each configuration entry, in order, with the dimension or failure it gives |
| LegacyDimensionSource.FiledAfter | Classes/Dimension/LegacyConfigurationBasedContentDimensionSource.php:35-109 | the filing fails iff some entry fails, and without a failure a non-empty configuration leaves an array of dimensions |
| LegacyDimensionSource.FiledAfterStaysFailed | Classes/Dimension/LegacyConfigurationBasedContentDimensionSource.php:35-109 | the exception ends the loop: after a failing entry nothing more is filed |
| LegacyDimensionSource.FiledAfterFirstFailure | Classes/Dimension/LegacyConfigurationBasedContentDimensionSource.php:35-109 | the failure is the first failing entry's, and the dimensions filed before it stay |
| LegacyDimensionSource.FiledAfterHas | Classes/Dimension/LegacyConfigurationBasedContentDimensionSource.php:102-108 | without a failure an identifier has a dimension iff it had one before or some entry names it |
| LegacyDimensionSource.FiledAfterLastWins | Classes/Dimension/LegacyConfigurationBasedContentDimensionSource.php:102-108 | without a failure an identifier's dimension is the one its last entry builds |
| LegacyDimensionSource.FiledAfterOrder | Classes/Dimension/LegacyConfigurationBasedContentDimensionSource.php:126-137 | from nothing, the dimensions are in the order of their entries, which is their priority |
| LegacyDimensionSource.Served | Classes/Dimension/LegacyConfigurationBasedContentDimensionSource.php:131-137 | the getter returns the dimensions iff building neither failed nor left null, and otherwise the build's failure or a TypeError from the `array` return type |
| LegacyDimensionSource.ServedFrom | Classes/Dimension/LegacyConfigurationBasedContentDimensionSource.php:131-137 | dimensions already there are returned as they are; null ones are built first |
| LegacyDimensionSource.LegacyConfigurationBasedContentDimensionSource.AsWritten | Classes/Dimension/LegacyConfigurationBasedContentDimensionSource.php:21-31 | the configuration is kept and the dimensions start as the declared `[]` |
| LegacyDimensionSource.LegacyConfigurationBasedContentDimensionSource.constructor | Classes/Dimension/LegacyConfigurationBasedContentDimensionSource.php:28-31 | the configuration is kept and the dimensions start as null, as the getters expect |
| LegacyDimensionSource.LegacyConfigurationBasedContentDimensionSource.InitializeDimensions | Classes/Dimension/LegacyConfigurationBasedContentDimensionSource.php:33-110 | the dimensions and the failure are those the filing specification gives for the configuration |
| LegacyDimensionSource.LegacyConfigurationBasedContentDimensionSource.GetDimension | Classes/Dimension/LegacyConfigurationBasedContentDimensionSource.php:118-124 | with dimensions present, the one under the identifier or null and nothing changes; otherwise the dimensions are built first, a failure is passed on, and the answer is the identifier's built dimension or null |
| LegacyDimensionSource.LegacyConfigurationBasedContentDimensionSource.GetContentDimensionsOrderedByPriority | Classes/Dimension/LegacyConfigurationBasedContentDimensionSource.php:131-137 | the state after the call and the result are what the served-dimensions specification gives |
| LegacyDimensionSource.AsWrittenServesNothing | Classes/Dimension/LegacyConfigurationBasedContentDimensionSource.php:21 | as declared, both getters see `[]` and return no dimensions whatever the configuration |
| LegacyDimensionSource.LanguageConfigurationBuilds | Classes/Dimension/LegacyConfigurationBasedContentDimensionSource.php:35-109 | a concrete language configuration does describe a dimension that the class as written never serves |
| LegacyDimensionSource.OnFirstUseServesConfiguration | Classes/Dimension/LegacyConfigurationBasedContentDimensionSource.php:131-137 | starting from null, the first call serves exactly what building the configuration gives |
| LegacyDimensionSource.FiledAfterComplete | Classes/Dimension/LegacyConfigurationBasedContentDimensionSource.php:35-109 | when no entry fails, each distinct key is filed in entry order with its own dimension |
| LegacyDimensionSource.ConfiguredDimensionsServed | Classes/Dimension/LegacyConfigurationBasedContentDimensionSource.php:118-137 | when every entry of a non-empty configuration describes a dimension, the served dimensions are exactly those, in configuration order, each under its identifier |
| WorkspaceDimensionSource.HasEditingAccount | Classes/Dimension/LegacyConfigurationAndWorkspaceBasedContentDimensionSource.php:53-62 | true iff some account of the owner has the Editor or the Administrator role |
| WorkspaceDimensionSource.ValueOf | Classes/Dimension/LegacyConfigurationAndWorkspaceBasedContentDimensionSource.php:74-77 | a workspace's value is its name, with the number of its base workspaces as depth |
| WorkspaceDimensionSource.CollectedFrom | Classes/Dimension/LegacyConfigurationAndWorkspaceBasedContentDimensionSource.php:49-86 | a workspace name gets a generalization only together with a value |
| WorkspaceDimensionSource.CollectedValid | Classes/Dimension/LegacyConfigurationAndWorkspaceBasedContentDimensionSource.php:49-86 | the collected values and generalizations are well-formed PHP arrays |
| WorkspaceDimensionSource.CollectOne | Classes/Dimension/LegacyConfigurationAndWorkspaceBasedContentDimensionSource.php:50-85 | one workspace, statement by statement, gives what the collection step specifies: skipped when owned without an editing account or unowned and personal |
| WorkspaceDimensionSource.CollectWorkspaces | Classes/Dimension/LegacyConfigurationAndWorkspaceBasedContentDimensionSource.php:49-86 | the loop over the workspaces collects what the collection specification gives |
| WorkspaceDimensionSource.CollectedHas | Classes/Dimension/LegacyConfigurationAndWorkspaceBasedContentDimensionSource.php:73-77 | a name has a value iff some workspace with that name counts |
| WorkspaceDimensionSource.CollectedFirstWins | Classes/Dimension/LegacyConfigurationAndWorkspaceBasedContentDimensionSource.php:73-79 | the first counting workspace with a name decides its value and its generalization, its nearest base |
| WorkspaceDimensionSource.CollectedGeneralizations | Classes/Dimension/LegacyConfigurationAndWorkspaceBasedContentDimensionSource.php:73-85 | a name without a value has no generalization |
| WorkspaceDimensionSource.DefaultExists | Classes/Dimension/LegacyConfigurationAndWorkspaceBasedContentDimensionSource.php:80-84 | there is a default iff some first counting workspace of its name has no base |
| WorkspaceDimensionSource.DefaultIsLive | Classes/Dimension/LegacyConfigurationAndWorkspaceBasedContentDimensionSource.php:81-83 | such a root named `live` is the default |
| WorkspaceDimensionSource.DefaultIsFirstRoot | Classes/Dimension/LegacyConfigurationAndWorkspaceBasedContentDimensionSource.php:81-83 | without a `live` root, the first root is the default |
| WorkspaceDimensionSource.WithWorkspaces | Classes/Dimension/LegacyConfigurationAndWorkspaceBasedContentDimensionSource.php:87-98 | a dimension already called `_workspace` means failure; success keeps every base dimension and appends `_workspace` last with the collected values and default |
| WorkspaceDimensionSource.BaseMustCount | Classes/Dimension/LegacyConfigurationAndWorkspaceBasedContentDimensionSource.php:87-89 | a counting workspace whose nearest base does not count makes the build fail with a TypeError |
| WorkspaceDimensionSource.LegacyConfigurationAndWorkspaceBasedContentDimensionSource.constructor | Classes/Dimension/LegacyConfigurationAndWorkspaceBasedContentDimensionSource.php:35-39 | keeps the base source and the workspaces; the dimensions start as null |
| WorkspaceDimensionSource.LegacyConfigurationAndWorkspaceBasedContentDimensionSource.InitializeDimensions | Classes/Dimension/LegacyConfigurationAndWorkspaceBasedContentDimensionSource.php:41-99 | the base source builds as its getter specifies; a failure there leaves the dimensions alone; otherwise they become the workspace-extended dimensions, or the base ones when appending fails |
| WorkspaceDimensionSource.LegacyConfigurationAndWorkspaceBasedContentDimensionSource.GetDimension | Classes/Dimension/LegacyConfigurationAndWorkspaceBasedContentDimensionSource.php:107-113 | with dimensions present, the one under the identifier or null and nothing changes; otherwise the build's failure or the identifier's dimension in the workspace-extended dimensions; on first use the base source ends as its own initialization leaves it, and this source's dimensions stay null when the base fails, else hold the workspace-extended dimensions (the base's alone when the extension fails) |
| WorkspaceDimensionSource.LegacyConfigurationAndWorkspaceBasedContentDimensionSource.GetContentDimensionsOrderedByPriority | Classes/Dimension/LegacyConfigurationAndWorkspaceBasedContentDimensionSource.php:120-126 | with dimensions present, those and nothing changes; otherwise the build's failure or the workspace-extended dimensions; on first use the base source ends as its own initialization leaves it, and this source's dimensions stay null when the base fails, else hold the workspace-extended dimensions (the base's alone when the extension fails) |

## Left out

- Console output, progress bars and timing in both graph services are left out, because they are I/O. Only whether a graph's constructor is given an output is kept, in `ReadOnlyGraphs.ContentGraph.Construct` and `ProjectionGraphs.ContentGraph.Initialize`, because both reports count the node index (Classes/ContentGraph.php:54 and Classes/ContentSubgraph/ContentGraph.php:90), which is a TypeError while that index is still null.
- Repository queries are parameters: `fetchNodeDataRecords`, `WorkspaceRepository::findAll`, the account and role lookups, and the variation graph's `getWeightedGeneralizations`.
- `getContentGraph` and `getContentGraphForNodeDataRecords` are left out, in both `Classes/GraphService.php` and `Classes/ContentSubgraph/GraphService.php`. These orchestrate the modelled steps around that I/O. The older one also calls `assignNodesToSubgraphs` (Classes/GraphService.php:131), which no class defines. The steps themselves are modelled one by one.
- Plain getters that only return a field are not given members of their own: `traverseNodeAggregateIndex`, `getNodeAggregates`, `getSubgraphs`, and the `getWorkspace`, `getDimensionSpacePoint` and `getIdentifier` accessors. The same holds for both subgraphs' `jsonSerialize` (Classes/ContentSubgraph.php:308-311 and Classes/ContentSubgraph/ContentSubgraph.php:393-396) and for the older subgraph's `__toString` (Classes/ContentSubgraph.php:300-303), which is its identifier's `ReadOnlySubgraphIdentifier.ToString`. The newer subgraph's `__toString` is modelled as `ProjectionSubgraphs.ContentSubgraph.ToString`. The model reads the fields directly.
- Lines 253-381 of Classes/ContentSubgraph/ContentSubgraph.php are left out. These are `setGraph`, `getFallback`, `getVariants`, `addVariant`, `connectNodes`, `disconnectNodes`, `traverse`, `traverseNode` and `traverseEdge`. They read properties and call methods that the newer classes do not declare, so no call to them can complete.
- The node adapters `ReadOnlyNode` and the two `TraversableNode` classes are not modelled as classes of their own. They forward to the node record and the subgraph, but their declared types matter. The older `Edge` takes and returns `ReadOnlyNode` (Classes/Edge.php:61,94,101), while the older subgraph indexes `TraversableNode` wrappers and its `getParentNode` and `getChildNode` declare `?TraversableNode` returns (Classes/ContentSubgraph.php:190-193,225-228). The two classes are unrelated, so these declared types are where the TypeErrors of the older subgraph arise. The model merges the older `ReadOnlyNode` and its `TraversableNode` into one type, `ReadOnlyNode` in `ReadOnlyNodes`. The newer generation keeps the wrapper as a type of its own (`ProjectionSubgraphs.TraversableNode`), and its readers report the TypeError.
- `ReadOnlySubgraphs.ContentSubgraph.GetParentNode` and `ReadOnlySubgraphs.ContentSubgraph.GetChildNode`: return the node at the edge's end, as they do once `Edge` is typed with the wrapper (see Findings). As written, the `ReadOnlyNode` that `Edge::getParent` and `Edge::getChild` return fails the declared `?TraversableNode` return type with a TypeError.
- `getRootGeneralizations` of the dimension sources is left out, because neither class defines it.
- `md5`, `json_encode` and `DimensionSpacePoint::getHash` are injective constructors, so a hash collision is not modelled.
- Workspace identity (`===` on workspace objects) is modelled as equality of workspace values.
- A record's raw dimension values are non-empty lists, so `reset` on an empty list (which gives `false`) is not modelled.
- Dates are integer timestamps.
- `ReadOnlySubgraphs.ContentSubgraph.Traverse`, `ReadOnlySubgraphs.ContentSubgraph.TraverseNode`, `ReadOnlySubgraphs.Visit` and `ReadOnlyGraphs.ContentGraph.TraverseSubgraphs` carry a recursion bound (`fuel`), so a subgraph deeper than the bound is not visited past it. Termination of the source's recursion over child edges relies on the subgraph being a tree, which the model does not state.
- The older edge merge calls `getIncomingEdgeInSubgraph` (Classes/Edge.php:164), which no class defines. The model passes the parent's incoming edge as a parameter.
- The older `Edge` constructor always runs that merge (Classes/Edge.php:71), and the merge asks for the parent edge first (Classes/Edge.php:172). As written, every `new Edge` therefore fails on the undefined method. So the corrected `ReadOnlySubgraphs.ContentSubgraph.RegisterNode` corrects two things: the constructor arguments (see Findings) and the parent-edge lookup.
- `TraversableNode::getIdentifier` of the newer generation returns null. The subgraph's wrapper index therefore files every wrapper under the empty key.
- `ReadOnlySubgraphs.ContentSubgraph.RegisterNode`: writes the persistence index after the edge rather than before it. The edge's creation neither reads nor writes that index, so the final state is the same.
- `ReadOnlySubgraphs.ContentSubgraph.RegisterNode`: passes the edge constructor the arguments evidently intended (see Findings) rather than the ones written.
- `ProjectionGraphs.ContentGraph.Initialize`: on failure, states only which kinds of failure can end the work, not which node fails or what was written before it.
- `ProjectionGraphs.ContentGraph.AssignAndIndex`: on failure, states only the failure kinds, like `Initialize`.
- `ProjectionGraphs.ContentGraph.AssignAndIndexStep`: on failure, states only the failure kinds.
- `ProjectionGraphs.ContentGraph.AssignAndIndexNode`: on failure, states only the failure kinds.
- `ProjectionGraphs.ContentGraph.CreateAllReferenceRelations`: on failure, states only that it is a TypeError.
- `ProjectionGraphs.ContentGraph.CreateReferencesAmong`: about the targets' incoming reference relations, states only that the earlier ones stay as a prefix. Which relations each variant receives is stated per relation by `CreateSingleReferenceRelation`; the model does not carry that per-variant sum through the loop.
- `ProjectionGraphs.ContentGraph.CreateReferenceRelations`: about incoming reference relations, states only that each variant's earlier ones stay as a prefix, as for `CreateReferencesAmong`.
- `ProjectionGraphs.ContentGraph.CreateAllReferenceRelations`: about incoming reference relations, states only that each variant's earlier ones stay as a prefix, as for `CreateReferencesAmong`.
- `ProjectionGraphs.ContentGraph.Initialize`: about incoming reference relations, states only that each variant's earlier ones stay as a prefix, as for `CreateReferencesAmong`.
- `ProjectionGraphs.ContentGraph.CreateAllReferenceRelations` and `ProjectionGraphs.ContentGraph.Initialize`: state the created relations node by node only when no node object is listed twice. The graph service passes freshly created nodes, so this always holds there; a node listed twice would get its relations appended once per listing.
- `WORKSPACE_DIMENSION_IDENTIFIER` is read in Classes/ContentSubgraph/GraphService.php:79, Classes/NodeAggregate/NodeAggregate.php:62 and Classes/Dimension/DimensionSpacePointFactory.php:39-40, but no class declares it. The graph service, the corrected point factory and the corrected `addNodes` use `_workspace`, the workspace dimension source's own identifier (Classes/Dimension/LegacyConfigurationAndWorkspaceBasedContentDimensionSource.php:93).
- `ProjectionGraphService.GraphService.CreateNodes`: builds each origin with the corrected point factory (see Findings). As written, the first record's point fails on the undeclared constant whenever a dimension is configured, so the call throws before any node is created.
- `DimensionIdentifierIsConflicting`, thrown at Classes/Dimension/LegacyConfigurationAndWorkspaceBasedContentDimensionSource.php:91, is not a declared class. The declared one is `DimensionIdentifierIsConflictingException`. The model reports an undeclared class.
- `ProjectionGraphService.GraphService.GroupNodesToAggregates` and `ProjectionGraphService.GraphService.MakeAggregates`: keep every group key a string. In PHP an array key that is a decimal integer string (`"42"`) becomes an int, so the `foreach` at Classes/ContentSubgraph/GraphService.php:202 yields an int and `NodeAggregateIdentifier::fromString` at line 203 would throw a TypeError under strict types. The model does not coerce such keys and so does not capture that failure.
- `ReadOnlyGraphService.GraphService.GroupNodesToAggregates` and `ReadOnlyGraphService.GraphService.MakeAggregates`: keep every group key a string, as above. An aggregate identifier that is a decimal integer string would come back from the `foreach` at Classes/GraphService.php:201 as an int, and the `string` parameter of the `ReadOnlyNodeAggregate` constructor at line 202 would throw a TypeError under strict types. The model does not capture that failure.
- `getNode` of the newer subgraph (Classes/ContentSubgraph/ContentSubgraph.php:166-169) is left out. It reads `$nodeRegistry`, which that class never declares or sets, so it always answers null.
- `traverseSubgraphs` of the newer graph (Classes/ContentSubgraph/ContentGraph.php:175-180) is left out. It only calls the subgraph's `traverse` on each subgraph, and `traverse` is left out (see above).
- `StructureMerge.Intersect`: re-indexes the kept roles from 0. `array_intersect` keeps the first array's keys, so in PHP the merged `accessRoles` can have gaps in its keys. Only the roles and their order are modelled, not those keys.
- `ProjectionGraphs.ReferenceTargets` and `ProjectionGraphs.ContentGraph.CreateReferenceRelations`: keep every property name a string. The names are the keys of the node type's properties array (Classes/ContentSubgraph/ContentGraph.php:118). In PHP a name that is a decimal integer string (`"42"`) is an int key, and `createSingleReferenceRelation` is called with it at line 132 and declares `string $referenceName` (line 144) under strict types (line 3), so it would throw a TypeError. The model does not capture that failure.
- `LegacyDimensionSource.PresetOf`: reports a preset with an empty `values` list as a TypeError, the one the string-typed dimension value raises for `reset`'s `false`. The source first builds a specialization depth of -1 (Classes/Dimension/LegacyConfigurationBasedContentDimensionSource.php:61). That depth class is not part of this model, and if it refuses -1 with an exception of its own, that exception comes first.
- PHP warnings and notices (an undefined array key read as null, `foreach` over a non-array) are not modelled. Only their effect on the values is.
- An access-role property holding a truthy value that is not an array (a string, say) is read as no roles. In PHP it would reach `array_intersect` and throw a TypeError there (Classes/Edge.php:175 and Classes/ContentSubgraph/HierarchyRelation.php:141). The merge is modelled for array and empty values only.

## Findings

| source | as written | input that shows it | evidently intended | confidence | as-written member | corrected member |
|---|---|---|---|---|---|---|
| Classes/Dimension/LegacyConfigurationBasedContentDimensionSource.php:21 | `$dimensions` starts as `[]`, so the getters' `is_null` checks never build the dimensions | a configuration with one `language` dimension with presets and a default: both getters return no dimension | `$dimensions` starts as null, so the first getter call builds and serves every configured dimension in configuration order (`ConfiguredDimensionsServed`) | high, not executed | LegacyDimensionSource.AsWrittenServesNothing | LegacyDimensionSource.OnFirstUseServesConfiguration |
| Classes/ContentSubgraph.php:87 | the edge constructor gets the TraversableNode wrappers where it declares ReadOnlyNode, and the node's index where it declares the string subgraph hash | any node whose parent path is already indexed: the call throws a TypeError after the persistence index is written, so the node is never connected or indexed further | `Edge` typed with the subgraph's node wrapper: its `ReadOnlyNode` parameters and getters (Classes/Edge.php:61,94,101) declared `TraversableNode`, so the two wrappers fit, and `getParentNode`, `getChildNode` and `traverseNode` get wrappers back; the call then passes the subgraph, the subgraph's identifier string as hash, `getIndex() ?: 0` as position and the node's name | high, not executed | ReadOnlySubgraphs.ContentSubgraph.RegisterNodeAsWritten | ReadOnlySubgraphs.ContentSubgraph.RegisterNode |
| Classes/NodeAggregate/NodeAggregate.php:62 | the workspace coordinate uses `LegacyConfigurationAndWorkspaceBasedContentDimensionSource::WORKSPACE_DIMENSION_IDENTIFIER`, which the class does not declare | a batch holding one node with a workspace: the constant lookup throws before the node is filed | the `_workspace` dimension the workspace source appends | high, not executed | ProjectionNodes.AsWrittenLosesWorkspaceNodes | ProjectionNodes.NodeAggregate.AddNodes |
| Classes/Dimension/DimensionSpacePointFactory.php:39-40 | the loop compares each dimension identifier with `LegacyConfigurationAndWorkspaceBasedContentDimensionSource::WORKSPACE_DIMENSION_IDENTIFIER`, which the class does not declare | any record while the workspace source serves `_workspace` among its dimensions: the first iteration throws, so no point is built | the workspace coordinate under `_workspace`, the identifier the workspace source appends, and the first raw value or '_' for every other dimension | high, not executed | ProjectionPointFactory.AsWrittenLosesWorkspaceCoordinate | ProjectionPointFactory.CreateFromNodeData |
| Classes/NodeAggregate/Node.php:351 | `isset` looks up the parent type's auto-created child nodes under `$hierarchyRelation->getName()`, a `NodeName` object; an object is an illegal array offset (a TypeError from PHP 8, a warning and `false` before) | a node whose incoming relation in its own subgraph is named `main` while the parent's type declares an auto-created child `main`: the call throws instead of answering true | the lookup under the name's string form | high, not executed | ProjectionNodes.Node.IsTetheredAsWritten | ProjectionNodes.Node.IsTethered |
