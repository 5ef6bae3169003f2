/**
 * The vocabulary shared by both generations of the in-memory graph: legacy
 * node records, dimension space points, property values and the digests the
 * source computes with md5, sha1 and DimensionSpacePoint::getHash.
 */
module Content {
  import opened Wrappers
  import opened PhpArrays

  /** The path of the root node. */
  const ROOT_PATH: string := "/"
  /** The aggregate identifier every root record is grouped under. */
  const ROOT_IDENTIFIER: string := "00000000-0000-0000-0000-000000000000"
  /** The coordinate value of a dimension a record has no value for. */
  const NO_VALUE: string := "_"
  /** The dimension that carries the workspace name. */
  const WORKSPACE_DIMENSION: string := "_workspace"

  datatype Workspace = Workspace(name: string)

  /** A dimension space point: dimension identifier to value, in insertion order. */
  datatype Point = Point(coordinates: Arr<string, string>)

  /**
   * The hash functions. Each constructor stands for one hash the source
   * computes; being free constructors they are injective, which is all the
   * source relies on.
   */
  datatype Digest =
      /** DimensionSpacePoint::getHash */
    | PointHash(point: Point)
      /** md5 of a point hash, '@' and a workspace name */
    | HashAtWorkspace(pointHash: Digest, workspaceName: string)
      /** md5 of the JSON form of a workspace name and a point */
    | JsonHash(workspaceName: string, point: Point)
      /** sha1 of the JSON form of an aggregate identifier, a content stream (the workspace name) and an origin point */
    | CacheEntry(aggregateIdentifier: string, contentStream: string, origin: Point)

  /** The PHP errors the source can run into; each ends the operation where it occurs. */
  datatype Failure =
      /** a value of the wrong type (null, `false`, a non-string) passed to or returned from a typed signature */
    | TypeError
      /** a method called on null */
    | CallOnNull
      /** a method called that the object's class does not define */
    | UndefinedMethod
      /** a class constant read that its class does not declare */
    | UndeclaredConstant
      /** an object made of a class that is not declared */
    | UndeclaredClass
      /** an exception the source throws on purpose, by its class name */
    | Thrown(exception: string)

  /** The outcome of an operation that can end in a PHP error. */
  datatype Result<T> = Ok(value: T) | Err(failure: Failure)

  /** An array key the source builds from plain strings or from digests. */
  datatype Key = Text(text: string) | Hash(digest: Digest)

  /** A property value as stored in a node record or on an edge. */
  datatype Value =
    | Null
    | Bool(b: bool)
    | Int(i: int)
    | Str(s: string)
    | Time(t: int)
    | List(elems: seq<string>)

  /** PHP truthiness: null, false, 0, "", "0" and [] are falsy; objects are truthy. */
  predicate Truthy(v: Value) {
    match v
    case Null => false
    case Bool(b) => b
    case Int(i) => i != 0
    case Str(s) => s != "" && s != "0"
    case Time(_) => true
    case List(elems) => elems != []
  }

  /** The values a record lists for one dimension; never empty. */
  type RawValues = vs: seq<string> | |vs| > 0 witness [""]

  datatype PropertyConfiguration = PropertyConfiguration(typeName: Option<string>)

  datatype NodeType = NodeType(
    name: string,
    properties: PhpArray<string, PropertyConfiguration>,
    /** child node name to child node type name; a null type is allowed */
    autoCreatedChildNodes: map<string, Option<string>>)

  /** A legacy node record (NodeData), reduced to what the graph reads of it. */
  datatype NodeData = NodeData(
    identifier: string,
    path: string,
    parentPath: string,
    name: string,
    index: Option<int>,
    workspace: Option<Workspace>,
    /** kept as the raw shape of a PHP array: the record always lists each dimension once */
    dimensionValues: PhpArray<string, RawValues>,
    movedTo: bool,
    hidden: bool,
    hiddenBeforeDateTime: Option<int>,
    hiddenAfterDateTime: Option<int>,
    hiddenInIndex: bool,
    accessRoles: seq<string>,
    isInternal: bool,
    nodeType: NodeType,
    properties: map<string, Value>)

  /** `$nodeData->getProperty($name)`: null for a property the record does not have. */
  function RecordProperty(d: NodeData, name: string): Value {
    if name in d.properties then d.properties[name] else Null
  }

  /**
   * The coordinates after the first `n` dimensions a record lists: each
   * listed dimension set, in the record's dimension order, to the first of
   * its values.
   */
  function FirstValuesUpTo(dimensionValues: PhpArray<string, RawValues>, n: nat): (r: Arr<string, string>)
    requires n <= |dimensionValues.order|
  {
    if n == 0 then Empty()
    else
      var dimension := dimensionValues.order[n - 1];
      var before := FirstValuesUpTo(dimensionValues, n - 1);
      if dimension in dimensionValues.items then before.Put(dimension, dimensionValues.items[dimension][0]) else before
  }

  /** The first value of each dimension a record lists, in the record's dimension order. */
  function FirstValues(dimensionValues: PhpArray<string, RawValues>): Arr<string, string> {
    FirstValuesUpTo(dimensionValues, |dimensionValues.order|)
  }

  /** Exactly the listed dimensions get a coordinate, each the first of its values. */
  lemma {:induction false} FirstValuesUpToHold(dimensionValues: PhpArray<string, RawValues>, n: nat, dimension: string)
    requires n <= |dimensionValues.order|
    ensures dimension in FirstValuesUpTo(dimensionValues, n).items <==>
      dimension in dimensionValues.items && dimension in dimensionValues.order[..n]
    ensures dimension in FirstValuesUpTo(dimensionValues, n).items ==>
      FirstValuesUpTo(dimensionValues, n).items[dimension] == dimensionValues.items[dimension][0]
  {
    if n > 0 {
      FirstValuesUpToHold(dimensionValues, n - 1, dimension);
      assert dimensionValues.order[..n] == dimensionValues.order[..n - 1] + [dimensionValues.order[n - 1]];
    }
  }

  /** When no dimension is listed twice, the coordinates keep the listed dimensions that have values, in order. */
  lemma {:induction false} FirstValuesUpToOrder(dimensionValues: PhpArray<string, RawValues>, n: nat)
    requires Distinct(dimensionValues.order) && n <= |dimensionValues.order|
    requires forall i :: 0 <= i < |dimensionValues.order| ==> dimensionValues.order[i] in dimensionValues.items
    ensures FirstValuesUpTo(dimensionValues, n).order == dimensionValues.order[..n]
  {
    if n > 0 {
      FirstValuesUpToOrder(dimensionValues, n - 1);
      var dimension := dimensionValues.order[n - 1];
      FirstValuesUpToHold(dimensionValues, n - 1, dimension);
      var listedBefore := dimensionValues.order[..n - 1];
      assert dimension !in listedBefore by {
        forall i | 0 <= i < |listedBefore| ensures listedBefore[i] != dimension {
          assert listedBefore[i] == dimensionValues.order[i];
        }
      }
      assert dimensionValues.order[..n] == dimensionValues.order[..n - 1] + [dimension];
    }
  }

  /**
   * The first values of a well-formed dimension array: one coordinate per
   * dimension, in the same order, each the first value listed.
   */
  lemma FirstValuesHold(dimensionValues: PhpArray<string, RawValues>, dimension: string)
    requires dimensionValues.Valid()
    ensures FirstValues(dimensionValues).order == dimensionValues.order
    ensures dimension in FirstValues(dimensionValues).items <==> dimension in dimensionValues.items
    ensures dimension in dimensionValues.items ==> FirstValues(dimensionValues).items[dimension] == dimensionValues.items[dimension][0]
  {
    var n := |dimensionValues.order|;
    FirstValuesUpToOrder(dimensionValues, n);
    FirstValuesUpToHold(dimensionValues, n, dimension);
    assert dimensionValues.order[..n] == dimensionValues.order;
  }

  /** Reads the first value of each of a record's dimensions into a fresh coordinate array. */
  method ReadFirstValues(dimensionValues: PhpArray<string, RawValues>) returns (coordinates: Arr<string, string>)
    ensures coordinates == FirstValues(dimensionValues)
  {
    coordinates := Empty();
    for j := 0 to |dimensionValues.order|
      invariant coordinates == FirstValuesUpTo(dimensionValues, j)
    {
      var dimension := dimensionValues.order[j];
      if dimension in dimensionValues.items {
        coordinates := coordinates.Put(dimension, dimensionValues.items[dimension][0]);
      }
    }
  }

  /** The key of a relation among its parent's outgoing relations in one subgraph. */
  datatype RelationKey =
      /** `getNameForGraph()`: the relation's name, '@' and the subgraph hash */
    | ForGraph(name: string, subgraphHash: Digest)
      /** the child's identifier, for a relation without a name */
    | ForChild(identifier: string)

  /**
   * The key a node aggregate files a record under: the point made of the
   * first value of each of the record's dimensions followed by the workspace
   * dimension set to the record's workspace name.
   */
  function AggregateKey(d: NodeData, workspaceDimension: string): Digest
    requires d.workspace.Some?
  {
    PointHash(Point(FirstValues(d.dimensionValues).Put(workspaceDimension, d.workspace.value.name)))
  }

  /** Reads a record's first dimension values, sets the workspace dimension and hashes the point. */
  method ReadAggregateKey(d: NodeData, workspaceDimension: string) returns (key: Digest)
    requires d.workspace.Some?
    ensures key == AggregateKey(d, workspaceDimension)
  {
    var coordinates := ReadFirstValues(d.dimensionValues);
    coordinates := coordinates.Put(workspaceDimension, d.workspace.value.name);
    key := PointHash(Point(coordinates));
  }

  /** `$node->getIndex() ?: 0` */
  function IndexOrZero(index: Option<int>): int {
    if index.Some? then index.value else 0
  }
}
