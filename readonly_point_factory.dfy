/** DimensionSpacePointFactory of the older generation, which names the workspace dimension '_workspace' itself. */
module ReadOnlyPointFactory {
  import opened PhpArrays
  import opened Content
  import Points

  /** Builds the point of a record from the dimension identifiers in priority order. */
  method CreateFromNodeData(d: NodeData, dimensions: seq<string>) returns (p: Point)
    ensures p.coordinates == Points.Coordinates(d, dimensions, WORKSPACE_DIMENSION)
  {
    var coordinates: Arr<string, string> := Empty();
    for i := 0 to |dimensions|
      invariant coordinates == Points.Coordinates(d, dimensions[..i], WORKSPACE_DIMENSION)
    {
      var dimension := dimensions[i];
      if dimension == WORKSPACE_DIMENSION {
        coordinates := coordinates.Put(dimension, if d.workspace.Some? then d.workspace.value.name else NO_VALUE);
      } else {
        coordinates := coordinates.Put(dimension, if dimension in d.dimensionValues.items then d.dimensionValues.items[dimension][0] else NO_VALUE);
      }
      assert dimensions[..i + 1][..i] == dimensions[..i];
    }
    assert dimensions[..|dimensions|] == dimensions;
    p := Point(coordinates);
  }
}
