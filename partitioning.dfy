/**
 * How a node aggregate files the records added to it, shared by
 * ReadOnlyNodeAggregate (older generation) and NodeAggregate (newer): a
 * record without a workspace is appended to a list; any other record is
 * filed under the hash of its point, among the shadow nodes when it has
 * been moved away and among the primary nodes otherwise, replacing what was
 * filed there before.
 */
module Partitioning {
  import opened Wrappers
  import opened PhpArrays
  import opened Content

  datatype Partition<N> = Partition(
    nodes: Arr<Digest, N>,
    withoutWorkspace: seq<N>,
    shadowNodes: Arr<Digest, N>)

  function EmptyPartition<N>(): Partition<N> {
    Partition(Empty(), [], Empty())
  }

  /** Files one node whose record is `d`. */
  function AddOne<N>(p: Partition<N>, n: N, d: NodeData, workspaceDimension: string): Partition<N> {
    if d.workspace.None? then p.(withoutWorkspace := p.withoutWorkspace + [n])
    else if d.movedTo then p.(shadowNodes := p.shadowNodes.Put(AggregateKey(d, workspaceDimension), n))
    else p.(nodes := p.nodes.Put(AggregateKey(d, workspaceDimension), n))
  }

  /** Files a batch of nodes in order. */
  function AddAll<N>(p: Partition<N>, batch: seq<N>, dataOf: N -> NodeData, workspaceDimension: string): Partition<N>
    decreases |batch|
  {
    if batch == [] then p
    else
      var last := batch[|batch| - 1];
      AddOne(AddAll(p, batch[..|batch| - 1], dataOf, workspaceDimension), last, dataOf(last), workspaceDimension)
  }

  /** A node that belongs among the primary nodes under `key`. */
  predicate IsPrimaryAt<N>(n: N, key: Digest, dataOf: N -> NodeData, workspaceDimension: string) {
    var d := dataOf(n);
    d.workspace.Some? && !d.movedTo && AggregateKey(d, workspaceDimension) == key
  }

  /** A node that belongs among the shadow nodes under `key`. */
  predicate IsShadowAt<N>(n: N, key: Digest, dataOf: N -> NodeData, workspaceDimension: string) {
    var d := dataOf(n);
    d.workspace.Some? && d.movedTo && AggregateKey(d, workspaceDimension) == key
  }

  /** Every node is filed where its record says it belongs. */
  ghost predicate Filed<N>(p: Partition<N>, dataOf: N -> NodeData, workspaceDimension: string) {
    && (forall k :: k in p.nodes.items ==> IsPrimaryAt(p.nodes.items[k], k, dataOf, workspaceDimension))
    && (forall k :: k in p.shadowNodes.items ==> IsShadowAt(p.shadowNodes.items[k], k, dataOf, workspaceDimension))
    && (forall i :: 0 <= i < |p.withoutWorkspace| ==> dataOf(p.withoutWorkspace[i]).workspace.None?)
  }

  lemma EmptyIsFiled<N>(dataOf: N -> NodeData, workspaceDimension: string)
    ensures Filed(EmptyPartition(), dataOf, workspaceDimension)
  {
  }

  /** Adding nodes keeps every node filed where its record says it belongs. */
  lemma {:induction false} AddAllKeepsFiled<N>(p: Partition<N>, batch: seq<N>, dataOf: N -> NodeData, workspaceDimension: string)
    requires Filed(p, dataOf, workspaceDimension)
    ensures Filed(AddAll(p, batch, dataOf, workspaceDimension), dataOf, workspaceDimension)
    decreases |batch|
  {
    if batch != [] {
      AddAllKeepsFiled(p, batch[..|batch| - 1], dataOf, workspaceDimension);
    }
  }

  /** Removing a primary node keeps every remaining node filed where it belongs. */
  lemma RemoveKeepsFiled<N>(p: Partition<N>, key: Digest, dataOf: N -> NodeData, workspaceDimension: string)
    requires Filed(p, dataOf, workspaceDimension)
    ensures Filed(p.(nodes := p.nodes.Unset(key)), dataOf, workspaceDimension)
  {
  }

  /** No node is both a primary node and a shadow node. */
  lemma NeverBothPrimaryAndShadow<N>(p: Partition<N>, dataOf: N -> NodeData, workspaceDimension: string, n: N)
    requires Filed(p, dataOf, workspaceDimension)
    ensures n in p.nodes.items.Values ==> n !in p.shadowNodes.items.Values
  {
    if n in p.nodes.items.Values {
      var k :| k in p.nodes.items && p.nodes.items[k] == n;
      assert IsPrimaryAt(n, k, dataOf, workspaceDimension);
    }
  }

  /**
   * The primary node under a key is the last node of the batch that belongs
   * there: a later record with the same point replaces an earlier one.
   */
  lemma {:induction false} LastPrimaryWins<N>(p: Partition<N>, batch: seq<N>, dataOf: N -> NodeData, workspaceDimension: string, i: nat, key: Digest)
    requires i < |batch|
    requires IsPrimaryAt(batch[i], key, dataOf, workspaceDimension)
    requires forall j :: i < j < |batch| ==> !IsPrimaryAt(batch[j], key, dataOf, workspaceDimension)
    ensures key in AddAll(p, batch, dataOf, workspaceDimension).nodes.items
    ensures AddAll(p, batch, dataOf, workspaceDimension).nodes.items[key] == batch[i]
    decreases |batch|
  {
    var last := |batch| - 1;
    if i < last {
      assert batch[..last][i] == batch[i];
      LastPrimaryWins(p, batch[..last], dataOf, workspaceDimension, i, key);
      assert !IsPrimaryAt(batch[last], key, dataOf, workspaceDimension);
    }
  }

  /** A key no node of the batch belongs under keeps the primary node it had. */
  lemma {:induction false} UntouchedKeyKeepsPrimary<N>(p: Partition<N>, batch: seq<N>, dataOf: N -> NodeData, workspaceDimension: string, key: Digest)
    requires forall j :: 0 <= j < |batch| ==> !IsPrimaryAt(batch[j], key, dataOf, workspaceDimension)
    ensures AddAll(p, batch, dataOf, workspaceDimension).nodes.Get(key) == p.nodes.Get(key)
    decreases |batch|
  {
    if batch != [] {
      var last := |batch| - 1;
      assert forall j :: 0 <= j < last ==> batch[..last][j] == batch[j];
      UntouchedKeyKeepsPrimary(p, batch[..last], dataOf, workspaceDimension, key);
      assert !IsPrimaryAt(batch[last], key, dataOf, workspaceDimension);
    }
  }

  /** The nodes of a batch that have no workspace, in batch order. */
  function WithoutWorkspace<N>(batch: seq<N>, dataOf: N -> NodeData): seq<N>
    decreases |batch|
  {
    if batch == [] then []
    else
      var last := batch[|batch| - 1];
      WithoutWorkspace(batch[..|batch| - 1], dataOf) + (if dataOf(last).workspace.None? then [last] else [])
  }

  /** Records without a workspace are kept, all of them and in order. */
  lemma {:induction false} WorkspaceLessAreAppended<N>(p: Partition<N>, batch: seq<N>, dataOf: N -> NodeData, workspaceDimension: string)
    ensures AddAll(p, batch, dataOf, workspaceDimension).withoutWorkspace == p.withoutWorkspace + WithoutWorkspace(batch, dataOf)
    decreases |batch|
  {
    if batch != [] {
      WorkspaceLessAreAppended(p, batch[..|batch| - 1], dataOf, workspaceDimension);
    }
  }

  /** The nodes of `ns` whose record lies in workspace `w`, in order. */
  function InWorkspace<N>(ns: seq<N>, dataOf: N -> NodeData, w: Workspace): seq<N>
    decreases |ns|
  {
    if ns == [] then []
    else
      var last := ns[|ns| - 1];
      InWorkspace(ns[..|ns| - 1], dataOf, w) + (if dataOf(last).workspace == Some(w) then [last] else [])
  }

  /** `InWorkspace` keeps exactly the nodes of the workspace. */
  lemma {:induction false} InWorkspaceMembers<N>(ns: seq<N>, dataOf: N -> NodeData, w: Workspace, n: N)
    ensures n in InWorkspace(ns, dataOf, w) <==> n in ns && dataOf(n).workspace == Some(w)
    decreases |ns|
  {
    if ns != [] {
      InWorkspaceMembers(ns[..|ns| - 1], dataOf, w, n);
      assert ns == ns[..|ns| - 1] + [ns[|ns| - 1]];
    }
  }
}
