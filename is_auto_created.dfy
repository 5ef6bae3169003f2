/**
 * The IsAutoCreated specification of the older generation: a node is
 * auto-created when its parent's type declares a child of the node's name.
 */
module IsAutoCreated {
  import opened Wrappers
  import opened Content
  import opened ReadOnlyNodes
  import opened ReadOnlySubgraphs

  /**
   * `isSatisfiedBy()`: false for a node without a parent in the subgraph;
   * otherwise whether the node's name is a key of the parent type's
   * auto-created child nodes, by `array_key_exists`, so a child declared
   * with a null type counts.
   */
  function IsSatisfiedBy(subgraph: ContentSubgraph, node: ReadOnlyNode): (r: bool)
    reads subgraph
    ensures subgraph.GetParentNode(node).None? ==> !r
    ensures subgraph.GetParentNode(node).Some? ==>
      (r <==> node.data.name in subgraph.GetParentNode(node).value.data.nodeType.autoCreatedChildNodes)
  {
    match subgraph.GetParentNode(node)
    case None => false
    case Some(parent) => node.data.name in parent.data.nodeType.autoCreatedChildNodes
  }

  /**
   * The answer depends only on the node's parent and name: two nodes with
   * the same name and the same parent are both auto-created or both not,
   * and a child declared without a type still makes the node auto-created.
   */
  lemma DependsOnParentAndName(subgraph: ContentSubgraph, a: ReadOnlyNode, b: ReadOnlyNode)
    requires subgraph.GetParentNode(a) == subgraph.GetParentNode(b) && a.data.name == b.data.name
    ensures IsSatisfiedBy(subgraph, a) == IsSatisfiedBy(subgraph, b)
    ensures (subgraph.GetParentNode(a).Some? && a.data.name in subgraph.GetParentNode(a).value.data.nodeType.autoCreatedChildNodes
             && subgraph.GetParentNode(a).value.data.nodeType.autoCreatedChildNodes[a.data.name].None?)
            ==> IsSatisfiedBy(subgraph, a)
  {
  }
}
