/**
 * The point DimensionSpacePointFactory builds for a record, shared by both
 * generations: one coordinate per configured dimension in priority order;
 * the workspace dimension holds the record's workspace name, every other
 * dimension the first value the record lists for it, and a dimension
 * without a value holds '_'.
 */
module Points {
  import opened Wrappers
  import opened PhpArrays
  import opened Content

  /** The coordinate a record has in dimension `dimension`. */
  function CoordinateValue(d: NodeData, dimension: string, workspaceDimension: string): string {
    if dimension == workspaceDimension then
      (if d.workspace.Some? then d.workspace.value.name else NO_VALUE)
    else if dimension in d.dimensionValues.items then d.dimensionValues.items[dimension][0]
    else NO_VALUE
  }

  /** The coordinates for the first `|dimensions|` configured dimensions, written in order. */
  function Coordinates(d: NodeData, dimensions: seq<string>, workspaceDimension: string): Arr<string, string>
    decreases |dimensions|
  {
    if dimensions == [] then Empty()
    else
      var last := dimensions[|dimensions| - 1];
      Coordinates(d, dimensions[..|dimensions| - 1], workspaceDimension).Put(last, CoordinateValue(d, last, workspaceDimension))
  }

  /** Exactly the configured dimensions get a coordinate, each the record's value for it. */
  lemma {:induction false} CoordinatesHold(d: NodeData, dimensions: seq<string>, workspaceDimension: string, dimension: string)
    ensures dimension in Coordinates(d, dimensions, workspaceDimension).items <==> dimension in dimensions
    ensures dimension in dimensions ==>
      Coordinates(d, dimensions, workspaceDimension).items[dimension] == CoordinateValue(d, dimension, workspaceDimension)
    decreases |dimensions|
  {
    if dimensions != [] {
      var init := dimensions[..|dimensions| - 1];
      CoordinatesHold(d, init, workspaceDimension, dimension);
      assert dimensions == init + [dimensions[|dimensions| - 1]];
    }
  }

  /** Configured dimensions that are listed once each appear in priority order. */
  lemma {:induction false} CoordinatesInPriorityOrder(d: NodeData, dimensions: seq<string>, workspaceDimension: string)
    requires Distinct(dimensions)
    ensures Coordinates(d, dimensions, workspaceDimension).order == dimensions
    decreases |dimensions|
  {
    if dimensions != [] {
      var init := dimensions[..|dimensions| - 1];
      var last := dimensions[|dimensions| - 1];
      DistinctSplit(dimensions);
      CoordinatesInPriorityOrder(d, init, workspaceDimension);
      CoordinatesHold(d, init, workspaceDimension, last);
    }
  }

  /** A record's values for dimensions that are not configured do not affect its point. */
  lemma UnconfiguredValuesIgnored(d: NodeData, e: NodeData, dimensions: seq<string>, workspaceDimension: string)
    requires d.workspace == e.workspace
    requires forall k :: k in dimensions && k != workspaceDimension ==>
      (k in d.dimensionValues.items <==> k in e.dimensionValues.items) &&
      (k in d.dimensionValues.items ==> d.dimensionValues.items[k][0] == e.dimensionValues.items[k][0])
    ensures Coordinates(d, dimensions, workspaceDimension) == Coordinates(e, dimensions, workspaceDimension)
    decreases |dimensions|
  {
    if dimensions != [] {
      UnconfiguredValuesIgnored(d, e, dimensions[..|dimensions| - 1], workspaceDimension);
    }
  }
}
