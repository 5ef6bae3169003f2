/** Edge: a hierarchy edge of the older generation, from a parent node to a child node in one subgraph. */
module ReadOnlyEdges {
  import opened Wrappers
  import opened Content
  import opened ReadOnlyNodes
  import opened StructureMerge
  import ReadOnlySubgraphIdentifier

  class Edge {
    const parent: ReadOnlyNode
    const child: ReadOnlyNode
    /** The identifier of the subgraph the edge belongs to. */
    const subgraphIdentifier: ReadOnlySubgraphIdentifier.SubgraphIdentifier
    const subgraphHash: Digest
    var position: Value
    const name: Option<string>
    var properties: Properties

    /**
     * Creates the edge and merges its properties with those of
     * `parentEdge`, the edge into the parent in the same subgraph.
     */
    constructor(parent: ReadOnlyNode, child: ReadOnlyNode,
                subgraphIdentifier: ReadOnlySubgraphIdentifier.SubgraphIdentifier, subgraphHash: Digest,
                parentEdge: Edge?, position: Value := Str("start"), name: Option<string> := None,
                properties: Properties := map[])
      ensures this.parent == parent && this.child == child
      ensures this.subgraphIdentifier == subgraphIdentifier && this.subgraphHash == subgraphHash
      ensures this.position == position && this.name == name
      ensures this.properties == MergeWithParent(properties, if parentEdge == null then None else Some(old(parentEdge.properties)))
    {
      this.parent := parent;
      this.child := child;
      this.subgraphIdentifier := subgraphIdentifier;
      this.subgraphHash := subgraphHash;
      this.position := position;
      this.name := name;
      this.properties := properties;
      new;
      MergeStructurePropertiesWithParent(parentEdge);
    }

    /** `getNameForGraph()`: the name (empty when there is none), '@' and the subgraph hash. */
    function NameForGraph(): (r: RelationKey)
      ensures r == ForGraph(name.GetOr(""), subgraphHash)
    {
      ForGraph(if name.Some? then name.value else "", subgraphHash)
    }

    /** `getLocalIdentifier()`: the name when it is a non-empty string other than "0", else the child's identifier. */
    function LocalIdentifier(): (r: string)
      ensures Truthy(Str(name.GetOr(""))) ==> r == name.value
      ensures !Truthy(Str(name.GetOr(""))) ==> r == child.Identifier()
    {
      if name.Some? && name.value != "" && name.value != "0" then name.value else child.Identifier()
    }

    /** `getProperty()`: null for a property that is not set. */
    function GetProperty(propertyName: string): (v: Value)
      reads this
      ensures propertyName !in properties ==> v == Null
      ensures propertyName in properties ==> v == properties[propertyName]
    {
      Property(properties, propertyName)
    }

    /** `setProperty()`: sets exactly one property. */
    method SetProperty(propertyName: string, value: Value)
      modifies this
      ensures properties == old(properties)[propertyName := value]
      ensures position == old(position)
    {
      properties := properties[propertyName := value];
    }

    method SetPosition(newPosition: string)
      modifies this
      ensures position == Str(newPosition) && properties == old(properties)
    {
      position := Str(newPosition);
    }

    /** Merges the structure properties with those of the edge into the parent, when there is one. */
    method MergeStructurePropertiesWithParent(parentEdge: Edge?)
      modifies this
      ensures properties == MergeWithParent(old(properties), if parentEdge == null then None else Some(old(parentEdge.properties)))
      ensures position == old(position)
    {
      if parentEdge == null {
        return;
      }
      properties := MergeProperties(properties, parentEdge.properties);
    }
  }
}
