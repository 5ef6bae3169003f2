/** ReferenceEdge: a reference of the older generation, from a node to a whole aggregate. */
module ReadOnlyReferenceEdges {
  import opened Wrappers
  import opened Content
  import opened ReadOnlyNodes
  import opened StructureMerge
  import ReadOnlyAggregates

  class ReferenceEdge {
    const source: ReadOnlyNode
    const target: ReadOnlyAggregates.ReadOnlyNodeAggregate
    const position: int
    const name: Option<string>
    var properties: Properties

    /** Position 0, no name and no properties unless given. */
    constructor(source: ReadOnlyNode, target: ReadOnlyAggregates.ReadOnlyNodeAggregate,
                position: int := 0, name: Option<string> := None, properties: Properties := map[])
      ensures this.source == source && this.target == target
      ensures this.position == position && this.name == name && this.properties == properties
    {
      this.source := source;
      this.target := target;
      this.position := position;
      this.name := name;
      this.properties := properties;
    }

    /** `getProperty()`: null for a property that is not set. */
    function GetProperty(propertyName: string): (v: Value)
      reads this
      ensures propertyName !in properties ==> v == Null
      ensures propertyName in properties ==> v == properties[propertyName]
    {
      Property(properties, propertyName)
    }

    /** `setProperty()`: the property reads back as written and no other changes. */
    method SetProperty(propertyName: string, value: Value)
      modifies this
      ensures GetProperty(propertyName) == value
      ensures forall other :: other != propertyName ==> GetProperty(other) == old(GetProperty(other))
      ensures properties == old(properties)[propertyName := value]
    {
      properties := properties[propertyName := value];
    }
  }
}
