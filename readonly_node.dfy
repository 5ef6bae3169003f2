/**
 * ReadOnlyNode, the older generation's node: a record together with its
 * persistence identifier and the point the factory built for it.
 */
module ReadOnlyNodes {
  import opened Content

  datatype ReadOnlyNode = ReadOnlyNode(data: NodeData, nodeIdentifier: string, dimensionSpacePoint: Point) {

    /** `getIdentifier()`: the record's (aggregate) identifier. */
    function Identifier(): string {
      data.identifier
    }
  }

  /** The record of a node, as the aggregate reads it. */
  function DataOf(n: ReadOnlyNode): NodeData {
    n.data
  }
}
