/**
 * DimensionSpacePointFactory of the newer generation. It names the workspace
 * dimension by a class constant of the workspace-based dimension source,
 * which that class does not declare. `CreateFromNodeDataAsWritten` models the
 * call as written; `CreateFromNodeData` takes the constant to be the source's
 * own literal, '_workspace', and is the one the graph service uses.
 */
module ProjectionPointFactory {
  import opened PhpArrays
  import opened Content
  import Points

  /** Builds the point of a record from the dimension identifiers in priority order. */
  method CreateFromNodeData(d: NodeData, dimensions: seq<string>) returns (p: Point)
    ensures p.coordinates == Points.Coordinates(d, dimensions, WORKSPACE_DIMENSION)
  {
    var coordinates: Arr<string, string> := Empty();
    for i := 0 to |dimensions|
      invariant coordinates == Points.Coordinates(d, dimensions[..i], WORKSPACE_DIMENSION)
    {
      var dimension := dimensions[i];
      if dimension == WORKSPACE_DIMENSION {
        coordinates := coordinates.Put(dimension, if d.workspace.Some? then d.workspace.value.name else NO_VALUE);
      } else {
        coordinates := coordinates.Put(dimension, if dimension in d.dimensionValues.items then d.dimensionValues.items[dimension][0] else NO_VALUE);
      }
      assert dimensions[..i + 1][..i] == dimensions[..i];
    }
    assert dimensions[..|dimensions|] == dimensions;
    p := Point(coordinates);
  }

  /**
   * The factory as written: the first iteration compares the dimension
   * identifier with the undeclared constant, so any configured dimension
   * makes the call fail; with none configured the point is empty.
   */
  function CreateFromNodeDataAsWritten(d: NodeData, dimensions: seq<string>): (r: Result<Point>)
    ensures r.Err? <==> dimensions != []
    ensures r.Err? ==> r.failure == UndeclaredConstant
    ensures r.Ok? ==> r.value.coordinates == Points.Coordinates(d, dimensions, WORKSPACE_DIMENSION)
  {
    if dimensions == [] then Ok(Point(Empty())) else Err(UndeclaredConstant)
  }

  /**
   * Wherever the workspace dimension is configured, the factory as written
   * yields no point, while the intended point carries the record's workspace
   * name (or '_') under the workspace dimension.
   */
  lemma AsWrittenLosesWorkspaceCoordinate(d: NodeData, dimensions: seq<string>)
    requires WORKSPACE_DIMENSION in dimensions
    ensures CreateFromNodeDataAsWritten(d, dimensions) == Err(UndeclaredConstant)
    ensures var c := Points.Coordinates(d, dimensions, WORKSPACE_DIMENSION);
      && WORKSPACE_DIMENSION in c.items
      && c.items[WORKSPACE_DIMENSION] == (if d.workspace.Some? then d.workspace.value.name else NO_VALUE)
  {
    Points.CoordinatesHold(d, dimensions, WORKSPACE_DIMENSION, WORKSPACE_DIMENSION);
  }
}
