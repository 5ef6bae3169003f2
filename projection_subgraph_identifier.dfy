/** ContentSubgraphIdentifier of the newer generation: named by a hash of its JSON form. */
module ProjectionSubgraphIdentifier {
  import opened Content

  /** What `jsonSerialize` returns. */
  datatype Json = Json(workspaceName: string, dimensionSpacePoint: Point)

  datatype SubgraphIdentifier = SubgraphIdentifier(workspaceName: string, dimensionSpacePoint: Point) {

    function JsonSerialize(): (j: Json)
      ensures j.workspaceName == workspaceName && j.dimensionSpacePoint == dimensionSpacePoint
    {
      Json(workspaceName, dimensionSpacePoint)
    }

    /** The hash computed in the constructor and returned by `__toString`: md5 of the JSON form. */
    function ToString(): (r: Digest)
      ensures r.JsonHash? && r.workspaceName == JsonSerialize().workspaceName && r.point == JsonSerialize().dimensionSpacePoint
    {
      JsonHash(workspaceName, dimensionSpacePoint)
    }
  }

  /** The identifier a JSON form describes. */
  function FromJson(j: Json): SubgraphIdentifier {
    SubgraphIdentifier(j.workspaceName, j.dimensionSpacePoint)
  }

  /** The JSON form holds everything the identifier holds. */
  lemma JsonRoundTrip(id: SubgraphIdentifier)
    ensures FromJson(id.JsonSerialize()) == id
  {
  }

  /** Two identifiers have the same string form exactly when they name the same workspace and point. */
  lemma StringFormIdentifies(a: SubgraphIdentifier, b: SubgraphIdentifier)
    ensures a.ToString() == b.ToString() <==> a == b
  {
  }
}
