/** Which nodes a pod's required node selection admits. */
module NodeSelectors {
  import opened Labels
  import opened Cluster

  const OBJECT_NAME_FIELD := "metadata.name"

  function NodeFields(node: Node): Labels {
    map[OBJECT_NAME_FIELD := node.name]
  }

  /** Every requirement of the term holds of the node. */
  predicate AllTrue(t: NodeSelectorTerm, node: Node) {
    && (forall r | r in t.matchExpressions :: r.Matches(node.labels))
    && (forall r | r in t.matchFields :: r.Matches(NodeFields(node)))
  }

  predicate EmptyTerm(t: NodeSelectorTerm) {
    t.matchExpressions == [] && t.matchFields == []
  }

  predicate TermMatches(t: NodeSelectorTerm, node: Node) {
    !EmptyTerm(t) && AllTrue(t, node)
  }

  predicate SelectorMatches(s: NodeSelector, node: Node) {
    exists t | t in s.terms :: TermMatches(t, node)
  }

  /** An absent node selector admits every node. */
  predicate OptionalMatches(s: Option<NodeSelector>, node: Node) {
    s.Some? ==> SelectorMatches(s.value, node)
  }

  predicate RequiredMatches(nodeSelector: Labels, affinity: Option<NodeSelector>, node: Node) {
    HasPairs(node.labels, nodeSelector) && OptionalMatches(affinity, node)
  }

  /** Terms of one requirement, on a label or on a field, of which a node only has
      its name; and one more term, by which more nodes match. */
  lemma NodeTermMeaning(terms: seq<NodeSelectorTerm>, t: NodeSelectorTerm, r: Requirement, key: string,
      names: set<string>, node: Node)
    ensures TermMatches(NodeSelectorTerm([r], []), node) <==> r.Matches(node.labels)
    ensures TermMatches(NodeSelectorTerm([], [In(key, names)]), node) <==>
            key == OBJECT_NAME_FIELD && node.name in names
    ensures TermMatches(NodeSelectorTerm([], [NotIn(key, names)]), node) <==>
            key != OBJECT_NAME_FIELD || node.name !in names
    ensures OptionalMatches(Some(NodeSelector(terms + [t])), node) <==>
            OptionalMatches(Some(NodeSelector(terms)), node) || TermMatches(t, node)
    ensures !OptionalMatches(Some(NodeSelector([])), node)
  {
    var named, unnamed := In(key, names), NotIn(key, names);
    assert [r][0] in [r] && [named][0] in [named] && [unnamed][0] in [unnamed];
    assert (terms + [t])[|terms|] in terms + [t];
  }
}
