/**
 * What both generations' `traverseNodeIndex` hands to its callback: the
 * indexed nodes in index order, internal (shadow) nodes skipped unless they
 * are asked for, stopping right after the first node for which the callback
 * returns exactly `false`. `stops(n)` says whether the callback returns
 * `false` for `n`.
 */
module NodeIndexTraversal {

  /** The nodes the traversal considers: all of them, or only the non-internal ones. */
  function Eligible<N>(nodes: seq<N>, isInternal: N -> bool, includeShadowNodes: bool): (r: seq<N>)
    ensures |r| <= |nodes|
  {
    if nodes == [] then []
    else (if !includeShadowNodes && isInternal(nodes[0]) then [] else [nodes[0]]) + Eligible(nodes[1..], isInternal, includeShadowNodes)
  }

  /** The nodes handed to the callback, in order. */
  function Handed<N>(nodes: seq<N>, isInternal: N -> bool, stops: N -> bool, includeShadowNodes: bool): (r: seq<N>)
    ensures |r| <= |nodes|
  {
    if nodes == [] then []
    else if !includeShadowNodes && isInternal(nodes[0]) then Handed(nodes[1..], isInternal, stops, includeShadowNodes)
    else if stops(nodes[0]) then [nodes[0]]
    else [nodes[0]] + Handed(nodes[1..], isInternal, stops, includeShadowNodes)
  }

  /** The traversal from the node at `i` on: that node skipped, handed over last, or handed over before the rest. */
  lemma HandedFrom<N>(nodes: seq<N>, isInternal: N -> bool, stops: N -> bool, includeShadowNodes: bool, i: nat)
    requires i < |nodes|
    ensures !includeShadowNodes && isInternal(nodes[i]) ==>
      Handed(nodes[i..], isInternal, stops, includeShadowNodes) == Handed(nodes[i + 1..], isInternal, stops, includeShadowNodes)
    ensures (includeShadowNodes || !isInternal(nodes[i])) && stops(nodes[i]) ==>
      Handed(nodes[i..], isInternal, stops, includeShadowNodes) == [nodes[i]]
    ensures (includeShadowNodes || !isInternal(nodes[i])) && !stops(nodes[i]) ==>
      Handed(nodes[i..], isInternal, stops, includeShadowNodes) == [nodes[i]] + Handed(nodes[i + 1..], isInternal, stops, includeShadowNodes)
  {
    assert nodes[i..][1..] == nodes[i + 1..];
  }

  /** What the traversal hands over once it has handed over `acc` and reached the node at `i`. */
  function HandedOnFrom<N>(nodes: seq<N>, isInternal: N -> bool, stops: N -> bool, includeShadowNodes: bool, i: nat, acc: seq<N>): seq<N>
    requires i <= |nodes|
    decreases |nodes| - i
  {
    if i == |nodes| then acc
    else if !includeShadowNodes && isInternal(nodes[i]) then HandedOnFrom(nodes, isInternal, stops, includeShadowNodes, i + 1, acc)
    else if stops(nodes[i]) then acc + [nodes[i]]
    else HandedOnFrom(nodes, isInternal, stops, includeShadowNodes, i + 1, acc + [nodes[i]])
  }

  /** Carrying on from the node at `i` after handing over `acc` adds what the traversal of the rest hands over. */
  lemma {:induction false} HandedOnFromRest<N>(nodes: seq<N>, isInternal: N -> bool, stops: N -> bool, includeShadowNodes: bool, i: nat, acc: seq<N>)
    requires i <= |nodes|
    ensures HandedOnFrom(nodes, isInternal, stops, includeShadowNodes, i, acc) == acc + Handed(nodes[i..], isInternal, stops, includeShadowNodes)
    decreases |nodes| - i
  {
    if i == |nodes| {
      assert nodes[i..] == [];
      assert acc + [] == acc;
    } else {
      HandedFrom(nodes, isInternal, stops, includeShadowNodes, i);
      if !includeShadowNodes && isInternal(nodes[i]) {
        HandedOnFromRest(nodes, isInternal, stops, includeShadowNodes, i + 1, acc);
      } else if !stops(nodes[i]) {
        HandedOnFromRest(nodes, isInternal, stops, includeShadowNodes, i + 1, acc + [nodes[i]]);
        var rest := Handed(nodes[i + 1..], isInternal, stops, includeShadowNodes);
        assert (acc + [nodes[i]]) + rest == acc + ([nodes[i]] + rest);
      }
    }
  }

  /**
   * The loop of `traverseNodeIndex()`: walks the nodes in order, skips an
   * internal node unless `includeShadowNodes`, hands every other node over
   * and stops right after one the callback answers `false` for.
   */
  method Traverse<N>(nodes: seq<N>, isInternal: N -> bool, stops: N -> bool, includeShadowNodes: bool) returns (handed: seq<N>)
    ensures handed == Handed(nodes, isInternal, stops, includeShadowNodes)
  {
    HandedOnFromRest(nodes, isInternal, stops, includeShadowNodes, 0, []);
    assert nodes[0..] == nodes;
    handed := [];
    var i := 0;
    while i < |nodes|
      invariant 0 <= i <= |nodes|
      invariant HandedOnFrom(nodes, isInternal, stops, includeShadowNodes, i, handed) == Handed(nodes, isInternal, stops, includeShadowNodes)
    {
      var node := nodes[i];
      if !includeShadowNodes && isInternal(node) {
        i := i + 1;
        continue;
      }
      handed := handed + [node];
      if stops(node) {
        return;
      }
      i := i + 1;
    }
  }

  /** A node is eligible exactly when it is indexed and is not an internal node left out. */
  lemma {:induction false} EligibleMembers<N>(nodes: seq<N>, isInternal: N -> bool, includeShadowNodes: bool, n: N)
    ensures n in Eligible(nodes, isInternal, includeShadowNodes) <==> n in nodes && (includeShadowNodes || !isInternal(n))
  {
    if nodes != [] {
      EligibleMembers(nodes[1..], isInternal, includeShadowNodes, n);
      assert nodes == [nodes[0]] + nodes[1..];
    }
  }

  /** The nodes handed over are the first eligible ones, in order. */
  lemma {:induction false} HandedIsPrefix<N>(nodes: seq<N>, isInternal: N -> bool, stops: N -> bool, includeShadowNodes: bool)
    ensures var h := Handed(nodes, isInternal, stops, includeShadowNodes);
      |h| <= |Eligible(nodes, isInternal, includeShadowNodes)| && h == Eligible(nodes, isInternal, includeShadowNodes)[..|h|]
  {
    if nodes != [] {
      HandedIsPrefix(nodes[1..], isInternal, stops, includeShadowNodes);
      var rest := Eligible(nodes[1..], isInternal, includeShadowNodes);
      if includeShadowNodes || !isInternal(nodes[0]) {
        assert Eligible(nodes, isInternal, includeShadowNodes) == [nodes[0]] + rest;
        if stops(nodes[0]) {
          assert ([nodes[0]] + rest)[..1] == [nodes[0]];
        } else {
          var h := Handed(nodes[1..], isInternal, stops, includeShadowNodes);
          assert ([nodes[0]] + rest)[..|h| + 1] == [nodes[0]] + rest[..|h|];
        }
      }
    }
  }

  /** Every node handed over before the last one got an answer other than `false`. */
  lemma {:induction false} HandedBeforeLastContinued<N>(nodes: seq<N>, isInternal: N -> bool, stops: N -> bool, includeShadowNodes: bool, i: nat)
    requires i + 1 < |Handed(nodes, isInternal, stops, includeShadowNodes)|
    ensures !stops(Handed(nodes, isInternal, stops, includeShadowNodes)[i])
  {
    if !includeShadowNodes && isInternal(nodes[0]) {
      HandedBeforeLastContinued(nodes[1..], isInternal, stops, includeShadowNodes, i);
    } else if i > 0 {
      HandedBeforeLastContinued(nodes[1..], isInternal, stops, includeShadowNodes, i - 1);
    }
  }

  /** A traversal that stops before the eligible nodes run out stopped at the last node it handed over. */
  lemma {:induction false} StopsOnlyOnFalse<N>(nodes: seq<N>, isInternal: N -> bool, stops: N -> bool, includeShadowNodes: bool)
    ensures var h := Handed(nodes, isInternal, stops, includeShadowNodes);
      |h| < |Eligible(nodes, isInternal, includeShadowNodes)| ==> h != [] && stops(h[|h| - 1])
  {
    if nodes != [] {
      StopsOnlyOnFalse(nodes[1..], isInternal, stops, includeShadowNodes);
    }
  }

  /** A callback that never returns `false` is handed every eligible node. */
  lemma {:induction false} NeverStoppedHandsAll<N>(nodes: seq<N>, isInternal: N -> bool, stops: N -> bool, includeShadowNodes: bool)
    requires forall i :: 0 <= i < |nodes| ==> !stops(nodes[i])
    ensures Handed(nodes, isInternal, stops, includeShadowNodes) == Eligible(nodes, isInternal, includeShadowNodes)
  {
    if nodes != [] {
      assert forall i :: 0 <= i < |nodes[1..]| ==> !stops(nodes[1..][i]) by {
        forall i | 0 <= i < |nodes[1..]| ensures !stops(nodes[1..][i]) {
          assert nodes[1..][i] == nodes[i + 1];
        }
      }
      NeverStoppedHandsAll(nodes[1..], isInternal, stops, includeShadowNodes);
    }
  }
}
