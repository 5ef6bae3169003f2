/** ContentSubgraphIdentifier of the older generation: a workspace name and a point, named by a hash of both. */
module ReadOnlySubgraphIdentifier {
  import opened Content

  /** What `jsonSerialize` returns. */
  datatype Json = Json(workspaceName: string, dimensionSpacePoint: Point)

  datatype SubgraphIdentifier = SubgraphIdentifier(workspaceName: string, dimensionSpacePoint: Point) {

    /** The string form: md5 of the point's hash, '@' and the workspace name. */
    function ToString(): (r: Digest)
      ensures r.HashAtWorkspace? && r.pointHash == PointHash(dimensionSpacePoint) && r.workspaceName == workspaceName
    {
      HashAtWorkspace(PointHash(dimensionSpacePoint), workspaceName)
    }

    function JsonSerialize(): (j: Json)
      ensures j.workspaceName == workspaceName && j.dimensionSpacePoint == dimensionSpacePoint
    {
      Json(workspaceName, dimensionSpacePoint)
    }
  }

  /** The identifier a JSON form describes. */
  function FromJson(j: Json): SubgraphIdentifier {
    SubgraphIdentifier(j.workspaceName, j.dimensionSpacePoint)
  }

  /** The JSON form holds everything the identifier holds. */
  lemma JsonRoundTrip(id: SubgraphIdentifier)
    ensures FromJson(id.JsonSerialize()) == id
  {
  }

  /** Two identifiers have the same string form exactly when they name the same workspace and point. */
  lemma StringFormIdentifies(a: SubgraphIdentifier, b: SubgraphIdentifier)
    ensures a.ToString() == b.ToString() <==> a == b
  {
  }
}
