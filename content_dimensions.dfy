/**
 * The vocabulary of the dimension sources: the raw dimension configuration
 * as PHP holds it, the reads the sources make of it, and the value objects
 * of the DimensionSpace package they build (ContentDimension,
 * ContentDimensionValue, ContentDimensionConstraints and
 * ContentDimensionValueVariationEdge), kept as plain records of their
 * constructor arguments.
 */
module ContentDimensions {
  import opened Wrappers
  import opened PhpArrays
  import opened Content

  /** A value of the raw configuration: null, a boolean, a string or an array. */
  datatype Raw = Null | Flag(flag: bool) | Text(text: string) | List(entries: PhpArray<string, Raw>)

  /** `isset($raw[$key])`: an array with a non-null value under the key. */
  predicate Isset(raw: Raw, key: string) {
    raw.List? && key in raw.entries.items && !raw.entries.items[key].Null?
  }

  /** `empty($raw)` */
  predicate IsEmpty(raw: Raw) {
    match raw
    case Null => true
    case Flag(b) => !b
    case Text(s) => s == "" || s == "0"
    case List(a) => a.Count() == 0
  }

  /** What `foreach ($raw as $key => $value)` visits: nothing, after a warning, when `raw` is no array. */
  function Elements(raw: Raw): seq<(string, Raw)> {
    if raw.List? then raw.entries.Entries() else []
  }

  /**
   * `raw` used as an array key: a string as it is, a boolean as 1 or 0,
   * null as the empty string; `None` for an array, an illegal offset.
   */
  function KeyOf(raw: Raw): (r: Option<string>)
    ensures r.None? <==> raw.List?
    ensures raw.Text? ==> r == Some(raw.text)
  {
    match raw
    case Null => Some("")
    case Flag(b) => Some(if b then "1" else "0")
    case Text(s) => Some(s)
    case List(_) => None
  }

  /** ContentDimensionConstraints */
  datatype Constraints = Constraints(wildcardAllowed: bool, identifierRestrictions: Arr<string, Raw>)

  /** ContentDimensionValue: the value, its specialization depth, its constraints and its remaining configuration. */
  datatype DimensionValue = DimensionValue(value: string, specializationDepth: int, constraints: Arr<string, Constraints>, configuration: Arr<string, Raw>)

  /** ContentDimensionValueVariationEdge */
  datatype VariationEdge = VariationEdge(specialization: DimensionValue, generalization: DimensionValue)

  /** ContentDimension */
  datatype ContentDimension = ContentDimension(
    identifier: string,
    values: Arr<string, DimensionValue>,
    defaultValue: DimensionValue,
    variationEdges: seq<VariationEdge>,
    configuration: Arr<string, Raw>)

  /**
   * The edges `new ContentDimensionValueVariationEdge($values[$from],
   * $values[$to])` for each link in turn. A key that is missing reads as
   * null and an illegal offset (`None`) fails; both end in a TypeError.
   */
  function VariationEdges(values: Arr<string, DimensionValue>, links: seq<(string, Option<string>)>): (r: Result<seq<VariationEdge>>)
    ensures r.Ok? <==> forall i :: 0 <= i < |links| ==>
      links[i].0 in values.items && links[i].1.Some? && links[i].1.value in values.items
    ensures r.Err? ==> r.failure == TypeError
    ensures r.Ok? ==> |r.value| == |links| && forall i :: 0 <= i < |links| ==>
      r.value[i] == VariationEdge(values.items[links[i].0], values.items[links[i].1.value])
    decreases |links|
  {
    if links == [] then Ok([])
    else
      var init := VariationEdges(values, links[..|links| - 1]);
      var last := links[|links| - 1];
      if init.Err? then init
      else if last.0 !in values.items || last.1.None? || last.1.value !in values.items then Err(TypeError)
      else Ok(init.value + [VariationEdge(values.items[last.0], values.items[last.1.value])])
  }

  /** Every edge joins two values the dimension has. */
  lemma EdgesJoinValues(values: Arr<string, DimensionValue>, links: seq<(string, Option<string>)>)
    requires VariationEdges(values, links).Ok?
    ensures forall e :: e in VariationEdges(values, links).value ==>
      e.specialization in values.items.Values && e.generalization in values.items.Values
  {
    var edges := VariationEdges(values, links).value;
    forall e | e in edges
      ensures e.specialization in values.items.Values && e.generalization in values.items.Values
    {
      var i :| 0 <= i < |edges| && edges[i] == e;
      assert links[i].0 in values.items && links[i].1.value in values.items;
    }
  }

  /** Builds the edges of `links` in turn, stopping at the first that fails. */
  method CreateVariationEdges(values: Arr<string, DimensionValue>, links: seq<(string, Option<string>)>) returns (r: Result<seq<VariationEdge>>)
    ensures r == VariationEdges(values, links)
  {
    var edges: seq<VariationEdge> := [];
    for i := 0 to |links|
      invariant VariationEdges(values, links[..i]) == Ok(edges)
    {
      PrefixGrows(links, i);
      var (from, to) := links[i];
      if from !in values.items || to.None? || to.value !in values.items {
        return Err(TypeError);
      }
      edges := edges + [VariationEdge(values.items[from], values.items[to.value])];
    }
    assert links[..|links|] == links;
    return Ok(edges);
  }
}
