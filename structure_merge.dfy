/**
 * The merge of an edge's structure properties with those of the edge into
 * its parent, shared by HierarchyRelation (newer generation) and Edge (older
 * generation): access roles narrow, `hidden` and `hiddenInIndex` are
 * inherited, the "hidden before" time only moves later and the "hidden
 * after" time only moves earlier.
 */
module StructureMerge {
  import opened Content

  type Properties = map<string, Value>

  /** `$properties[$name] ?? null` */
  function Property(props: Properties, name: string): Value {
    if name in props then props[name] else Null
  }

  /**
   * `$value ?: []`, an array value read as a role list; any other value reads
   * as none. A truthy non-array (a string, say) would reach `array_intersect`
   * in PHP and fail there; the model reads it as no roles instead.
   */
  function Roles(v: Value): seq<string> {
    if v.List? then v.elems else []
  }

  /** `array_intersect($a, $b)`: the entries of `a` that occur in `b`, in `a`'s order. */
  function Intersect(a: seq<string>, b: seq<string>): (r: seq<string>)
    ensures forall x :: x in r <==> x in a && x in b
    ensures |r| <= |a|
  {
    if a == [] then [] else (if a[0] in b then [a[0]] else []) + Intersect(a[1..], b)
  }

  /** PHP's `max` of two timestamps; for other values the edge's own value is kept. */
  function Max(own: Value, parent: Value): Value {
    if own.Time? && parent.Time? then Time(if own.t >= parent.t then own.t else parent.t) else own
  }

  /** PHP's `min` of two timestamps; for other values the edge's own value is kept. */
  function Min(own: Value, parent: Value): Value {
    if own.Time? && parent.Time? then Time(if own.t <= parent.t then own.t else parent.t) else own
  }

  /** The merged "hidden before" value: the later of two set times, or whichever is set. */
  function LaterOf(own: Value, parent: Value): Value {
    if Truthy(own) then (if Truthy(parent) then Max(own, parent) else own) else parent
  }

  /** The merged "hidden after" value: the earlier of two set times, or whichever is set. */
  function EarlierOf(own: Value, parent: Value): Value {
    if Truthy(own) then (if Truthy(parent) then Min(own, parent) else own) else parent
  }

  /**
   * An edge's properties after the merge with the properties of the edge
   * into its parent; without such an edge they stay as they are.
   */
  function MergeWithParent(own: Properties, parentEdge: Wrappers.Option<Properties>): Properties {
    match parentEdge
    case None => own
    case Some(parent) =>
      own["accessRoles" := List(Intersect(Roles(Property(own, "accessRoles")), Roles(Property(parent, "accessRoles"))))]
         ["hidden" := Bool(Truthy(Property(own, "hidden")) || Truthy(Property(parent, "hidden")))]
         ["hiddenBeforeDateTime" := LaterOf(Property(own, "hiddenBeforeDateTime"), Property(parent, "hiddenBeforeDateTime"))]
         ["hiddenAfterDateTime" := EarlierOf(Property(own, "hiddenAfterDateTime"), Property(parent, "hiddenAfterDateTime"))]
         ["hiddenInIndex" := Bool(Truthy(Property(own, "hiddenInIndex")) || Truthy(Property(parent, "hiddenInIndex")))]
  }

  /**
   * The merge as both edge classes perform it, one structure property at a
   * time. Each key is read before it is written and no key is read after it
   * is written, so reading every value first and writing them afterwards
   * gives the same properties, also when the parent edge is the edge itself.
   */
  method MergeProperties(own: Properties, parent: Properties) returns (merged: Properties)
    ensures merged == MergeWithParent(own, Wrappers.Some(parent))
  {
    var roles := List(Intersect(Roles(Property(own, "accessRoles")), Roles(Property(parent, "accessRoles"))));
    var hidden := Bool(Truthy(Property(own, "hidden")) || Truthy(Property(parent, "hidden")));
    var hiddenBefore: Value;
    if Truthy(Property(own, "hiddenBeforeDateTime")) {
      if Truthy(Property(parent, "hiddenBeforeDateTime")) {
        hiddenBefore := Max(Property(own, "hiddenBeforeDateTime"), Property(parent, "hiddenBeforeDateTime"));
      } else {
        hiddenBefore := Property(own, "hiddenBeforeDateTime");
      }
    } else {
      hiddenBefore := Property(parent, "hiddenBeforeDateTime");
    }
    var hiddenAfter: Value;
    if Truthy(Property(own, "hiddenAfterDateTime")) {
      if Truthy(Property(parent, "hiddenAfterDateTime")) {
        hiddenAfter := Min(Property(own, "hiddenAfterDateTime"), Property(parent, "hiddenAfterDateTime"));
      } else {
        hiddenAfter := Property(own, "hiddenAfterDateTime");
      }
    } else {
      hiddenAfter := Property(parent, "hiddenAfterDateTime");
    }
    var hiddenInIndex := Bool(Truthy(Property(own, "hiddenInIndex")) || Truthy(Property(parent, "hiddenInIndex")));
    merged := own["accessRoles" := roles]["hidden" := hidden]
      ["hiddenBeforeDateTime" := hiddenBefore]["hiddenAfterDateTime" := hiddenAfter]["hiddenInIndex" := hiddenInIndex];
  }

  /** The five structure properties as the newer content graph seeds them from a record. */
  function Seed(d: NodeData): Properties {
    map[
      "accessRoles" := List(d.accessRoles),
      "hidden" := Bool(d.hidden),
      "hiddenBeforeDateTime" := (if d.hiddenBeforeDateTime.Some? then Time(d.hiddenBeforeDateTime.value) else Null),
      "hiddenAfterDateTime" := (if d.hiddenAfterDateTime.Some? then Time(d.hiddenAfterDateTime.value) else Null),
      "hiddenInIndex" := Bool(d.hiddenInIndex)
    ]
  }

  /** Both visibility times hold a timestamp or nothing. */
  predicate TimesAreTimestamps(props: Properties) {
    && (Property(props, "hiddenBeforeDateTime").Null? || Property(props, "hiddenBeforeDateTime").Time?)
    && (Property(props, "hiddenAfterDateTime").Null? || Property(props, "hiddenAfterDateTime").Time?)
  }

  /**
   * Merges along a chain of edges from the root downwards: the first edge has
   * no parent edge, every later one merges with the merged edge before it.
   */
  function ChainOf<P>(owns: seq<P>, merge: (P, Wrappers.Option<P>) -> P): (merged: seq<P>)
    ensures |merged| == |owns|
  {
    if owns == [] then []
    else
      var above := ChainOf(owns[..|owns| - 1], merge);
      above + [merge(owns[|owns| - 1], if above == [] then Wrappers.None else Wrappers.Some(above[|above| - 1]))]
  }

  lemma {:induction false} ChainPrefix<P>(owns: seq<P>, merge: (P, Wrappers.Option<P>) -> P, n: nat)
    requires n <= |owns|
    ensures ChainOf(owns[..n], merge) == ChainOf(owns, merge)[..n]
    decreases |owns|
  {
    if n < |owns| {
      assert owns[..|owns| - 1][..n] == owns[..n];
      ChainPrefix(owns[..|owns| - 1], merge, n);
    } else {
      assert owns[..n] == owns;
    }
  }

  lemma ChainFirst<P>(owns: seq<P>, merge: (P, Wrappers.Option<P>) -> P)
    requires 0 < |owns|
    ensures ChainOf(owns, merge)[0] == merge(owns[0], Wrappers.None)
  {
    ChainPrefix(owns, merge, 1);
    assert owns[..1] == [owns[0]];
  }

  /** Each edge below the first merges with the merged edge above it. */
  lemma ChainStep<P>(owns: seq<P>, merge: (P, Wrappers.Option<P>) -> P, j: nat)
    requires 0 < j < |owns|
    ensures ChainOf(owns, merge)[j] == merge(owns[j], Wrappers.Some(ChainOf(owns, merge)[j - 1]))
  {
    ChainPrefix(owns, merge, j + 1);
    assert owns[..j + 1][..j] == owns[..j];
    ChainPrefix(owns, merge, j);
  }

  /** The merged structure properties along a chain of edges. */
  function Chain(owns: seq<Properties>): (merged: seq<Properties>)
    ensures |merged| == |owns|
  {
    ChainOf(owns, MergeWithParent)
  }

  /** What each merged structure property is, read off the merge one key at a time. */
  lemma MergedProperties(own: Properties, parent: Properties)
    ensures var m := MergeWithParent(own, Wrappers.Some(parent));
      && Property(m, "accessRoles") == List(Intersect(Roles(Property(own, "accessRoles")), Roles(Property(parent, "accessRoles"))))
      && Property(m, "hidden") == Bool(Truthy(Property(own, "hidden")) || Truthy(Property(parent, "hidden")))
      && Property(m, "hiddenBeforeDateTime") == LaterOf(Property(own, "hiddenBeforeDateTime"), Property(parent, "hiddenBeforeDateTime"))
      && Property(m, "hiddenAfterDateTime") == EarlierOf(Property(own, "hiddenAfterDateTime"), Property(parent, "hiddenAfterDateTime"))
      && Property(m, "hiddenInIndex") == Bool(Truthy(Property(own, "hiddenInIndex")) || Truthy(Property(parent, "hiddenInIndex")))
  {
  }

  /** `a` and `b` agree on each of `keys`. */
  predicate Unchanged(a: Properties, b: Properties, keys: seq<string>) {
    forall i :: 0 <= i < |keys| ==> Property(a, keys[i]) == Property(b, keys[i])
  }

  /** The five keys the merge writes. */
  const STRUCTURE_KEYS: set<string> := {"accessRoles", "hidden", "hiddenBeforeDateTime", "hiddenAfterDateTime", "hiddenInIndex"}

  /**
   * Properties that agree with `own` off the five structure keys and with
   * the merge on each of them are the merge.
   */
  lemma MergeDiffersOnlyInStructureKeys(own: Properties, parent: Properties, result: Properties)
    requires forall k :: k !in STRUCTURE_KEYS ==> (k in result <==> k in own) && (k in own ==> result[k] == own[k])
    requires forall k :: k in STRUCTURE_KEYS ==> k in result && result[k] == Property(MergeWithParent(own, Wrappers.Some(parent)), k)
    ensures result == MergeWithParent(own, Wrappers.Some(parent))
  {
  }

  lemma MergeKeepsTimestamps(own: Properties, parent: Properties)
    requires TimesAreTimestamps(own) && TimesAreTimestamps(parent)
    ensures TimesAreTimestamps(MergeWithParent(own, Wrappers.Some(parent)))
  {
    MergedProperties(own, parent);
  }

  /** Seeded properties hold timestamps or nothing. */
  lemma SeedHasTimestamps(d: NodeData)
    ensures TimesAreTimestamps(Seed(d))
  {
  }

  lemma {:induction false} ChainKeepsTimestamps(owns: seq<Properties>, j: nat)
    requires forall k :: 0 <= k < |owns| ==> TimesAreTimestamps(owns[k])
    requires j < |owns|
    ensures TimesAreTimestamps(Chain(owns)[j])
  {
    if j > 0 {
      ChainStep(owns, MergeWithParent, j);
      ChainKeepsTimestamps(owns, j - 1);
      MergeKeepsTimestamps(owns[j], Chain(owns)[j - 1]);
    } else {
      ChainFirst(owns, MergeWithParent);
    }
  }

  /** An edge below a hidden edge is hidden. */
  lemma {:induction false} HiddenIsInherited(owns: seq<Properties>, i: nat, j: nat)
    requires i <= j < |owns|
    requires Truthy(Property(Chain(owns)[i], "hidden"))
    ensures Truthy(Property(Chain(owns)[j], "hidden"))
  {
    if i < j {
      HiddenIsInherited(owns, i, j - 1);
      ChainStep(owns, MergeWithParent, j);
      MergedProperties(owns[j], Chain(owns)[j - 1]);
    }
  }

  /** An edge below an edge hidden in index is hidden in index. */
  lemma {:induction false} HiddenInIndexIsInherited(owns: seq<Properties>, i: nat, j: nat)
    requires i <= j < |owns|
    requires Truthy(Property(Chain(owns)[i], "hiddenInIndex"))
    ensures Truthy(Property(Chain(owns)[j], "hiddenInIndex"))
  {
    if i < j {
      HiddenInIndexIsInherited(owns, i, j - 1);
      ChainStep(owns, MergeWithParent, j);
      MergedProperties(owns[j], Chain(owns)[j - 1]);
    }
  }

  /** Every access role an edge keeps is also kept by every edge above it, below the first. */
  lemma {:induction false} RolesNarrow(owns: seq<Properties>, i: nat, j: nat, role: string)
    requires i < j < |owns|
    requires role in Roles(Property(Chain(owns)[j], "accessRoles"))
    ensures role in Roles(Property(Chain(owns)[i], "accessRoles"))
  {
    var merged := Chain(owns);
    ChainStep(owns, MergeWithParent, j);
    MergedProperties(owns[j], merged[j - 1]);
    var above := Roles(Property(merged[j - 1], "accessRoles"));
    assert Roles(Property(merged[j], "accessRoles")) == Intersect(Roles(Property(owns[j], "accessRoles")), above);
    assert role in above;
    if i < j - 1 {
      RolesNarrow(owns, i, j - 1, role);
    }
  }

  /** Once an edge is hidden until a time, every edge below it is hidden until that time or later. */
  lemma {:induction false} HiddenBeforeOnlyMovesLater(owns: seq<Properties>, i: nat, j: nat)
    requires forall k :: 0 <= k < |owns| ==> TimesAreTimestamps(owns[k])
    requires i <= j < |owns|
    requires Property(Chain(owns)[i], "hiddenBeforeDateTime").Time?
    ensures Property(Chain(owns)[j], "hiddenBeforeDateTime").Time?
    ensures Property(Chain(owns)[j], "hiddenBeforeDateTime").t >= Property(Chain(owns)[i], "hiddenBeforeDateTime").t
  {
    if i < j {
      HiddenBeforeOnlyMovesLater(owns, i, j - 1);
      ChainStep(owns, MergeWithParent, j);
      ChainKeepsTimestamps(owns, j - 1);
      MergedProperties(owns[j], Chain(owns)[j - 1]);
    }
  }

  /** Once an edge is hidden from a time on, every edge below it is hidden from that time or earlier. */
  lemma {:induction false} HiddenAfterOnlyMovesEarlier(owns: seq<Properties>, i: nat, j: nat)
    requires forall k :: 0 <= k < |owns| ==> TimesAreTimestamps(owns[k])
    requires i <= j < |owns|
    requires Property(Chain(owns)[i], "hiddenAfterDateTime").Time?
    ensures Property(Chain(owns)[j], "hiddenAfterDateTime").Time?
    ensures Property(Chain(owns)[j], "hiddenAfterDateTime").t <= Property(Chain(owns)[i], "hiddenAfterDateTime").t
  {
    if i < j {
      HiddenAfterOnlyMovesEarlier(owns, i, j - 1);
      ChainStep(owns, MergeWithParent, j);
      ChainKeepsTimestamps(owns, j - 1);
      MergedProperties(owns[j], Chain(owns)[j - 1]);
    }
  }
}
