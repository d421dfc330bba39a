/** The node affinity plugin: pruning the node list by the node names that the
    pod's required terms admit, and the filter itself. */
module NodeAffinity {
  import opened Labels
  import opened Cluster
  import opened Hints
  import opened NodeSelectors
  import Merger

  /** What PreFilter decides about the candidate nodes. */
  datatype PreFilterResult = Skip | AllNodes | NodeNames(names: set<string>) | Conflict

  /** The requirement a pod is filtered by: the merged one if it has a class. */
  datatype RequiredAffinity = RequiredAffinity(nodeSelector: Labels, affinity: Option<NodeSelector>) {
    predicate Admits(node: Node) {
      RequiredMatches(nodeSelector, affinity, node)
    }
  }

  predicate NamesNode(r: Requirement) {
    r.In? && r.key == OBJECT_NAME_FIELD
  }

  /** A choice of field values names nodes exactly when some node can satisfy it. */
  lemma NamesNodeMeaning(r: Requirement)
    requires r.In? && r.values != {}
    ensures NamesNode(r) <==> exists node :: r.Matches(NodeFields(node))
  {
    var name :| name in r.values;
    assert NamesNode(r) ==> r.Matches(NodeFields(Node(name, map[], [])));
  }

  /** The term restricts node names, and `name` satisfies all its restrictions. */
  ghost predicate TermAllowsName(t: NodeSelectorTerm, name: string) {
    && (exists r :: r in t.matchFields && NamesNode(r))
    && forall r | r in t.matchFields && NamesNode(r) :: name in r.values
  }

  ghost predicate Unrestricted(t: NodeSelectorTerm) {
    forall r | r in t.matchFields :: !NamesNode(r)
  }

  /** The node names one term allows, or None if it restricts none. */
  method TermNodeNames(t: NodeSelectorTerm) returns (names: Option<set<string>>)
    ensures names.None? <==> Unrestricted(t)
    ensures names.Some? ==> forall n :: n in names.value <==> TermAllowsName(t, n)
  {
    names := None;
    for i := 0 to |t.matchFields|
      invariant names.None? <==> forall r | r in t.matchFields[..i] :: !NamesNode(r)
      invariant names.Some? ==> forall n :: n in names.value <==>
                  forall r | r in t.matchFields[..i] && NamesNode(r) :: n in r.values
    {
      var r := t.matchFields[i];
      assert t.matchFields[..i + 1] == t.matchFields[..i] + [r];
      assert r in t.matchFields[..i + 1];
      if r.In? && r.key == OBJECT_NAME_FIELD {
        names := if names.None? then Some(r.values) else Some(names.value * r.values);
      }
    }
    assert t.matchFields[..|t.matchFields|] == t.matchFields;
  }

  /** The union of the names that the terms allow: nothing is pruned as soon as
      one term restricts no name, otherwise the result is exactly that union. */
  method PrunedNames(terms: seq<NodeSelectorTerm>) returns (r: PreFilterResult)
    ensures !r.Skip?
    ensures r.AllNodes? <==> terms == [] || exists t :: t in terms && Unrestricted(t)
    ensures r.NodeNames? ==> forall n :: n in r.names <==> exists t :: t in terms && TermAllowsName(t, n)
    ensures r.Conflict? ==> forall n, t :: t in terms ==> !TermAllowsName(t, n)
    ensures r.NodeNames? ==> r.names != {}
  {
    var nodeNames: Option<set<string>> := None;
    for i := 0 to |terms|
      invariant nodeNames.None? <==> i == 0
      invariant forall t | t in terms[..i] :: !Unrestricted(t)
      invariant nodeNames.Some? ==> forall n :: n in nodeNames.value <==>
                  exists t :: t in terms[..i] && TermAllowsName(t, n)
    {
      var t := terms[i];
      assert terms[..i + 1] == terms[..i] + [t];
      var termNodeNames := TermNodeNames(t);
      if termNodeNames.None? {
        assert t in terms && Unrestricted(t);
        return AllNodes;
      }
      nodeNames := Some((if nodeNames.Some? then nodeNames.value else {}) + termNodeNames.value);
    }
    assert terms[..|terms|] == terms;
    assert forall t | t in terms :: !Unrestricted(t);
    if nodeNames.Some? && nodeNames.value == {} {
      assert forall n, t | t in terms :: TermAllowsName(t, n) ==> n in nodeNames.value;
      r := Conflict;
    } else if nodeNames.Some? && |nodeNames.value| > 0 {
      r := NodeNames(nodeNames.value);
    } else {
      r := AllNodes;
    }
  }

  /** A term that matches a node restricts no names or allows the node's name. */
  lemma MatchingTermAllowsName(t: NodeSelectorTerm, node: Node)
    requires TermMatches(t, node)
    ensures Unrestricted(t) || TermAllowsName(t, node.name)
  {
    forall r | r in t.matchFields && NamesNode(r) ensures node.name in r.values {
      assert r.Matches(NodeFields(node));
    }
  }

  /** The pairs the pod asks for, except under the keys in `overridden`. */
  ghost predicate MeetsPairs(pod: Pod, overridden: set<string>, node: Node) {
    pod.nodeSelector.Some? ==>
      forall k | k in pod.nodeSelector.value && k !in overridden ::
        k in node.labels && node.labels[k] == pod.nodeSelector.value[k]
  }

  /** What a pod asks of a node, from its own fields and those of its class. */
  ghost predicate Asks(pod: Pod, schedulingClass: Option<Merger.SchedulingClass>, node: Node) {
    match schedulingClass
    case None => MeetsPairs(pod, {}, node) && OptionalMatches(pod.requiredNodeAffinity, node)
    case Some(sc) =>
      && HasPairs(node.labels, sc.nodeSelector) && MeetsPairs(pod, sc.nodeSelector.Keys, node)
      && (|| (OptionalMatches(pod.requiredNodeAffinity, node) && OptionalMatches(sc.requiredNodeAffinity, node))
          || Merger.DropsOut(pod.requiredNodeAffinity, sc.requiredNodeAffinity, node))
  }

  /** The required terms that may prune: those of a pod without a class. */
  function PruningTerms(pod: Pod, schedulingClass: Option<Merger.SchedulingClass>): seq<NodeSelectorTerm> {
    if schedulingClass.None? && pod.requiredNodeAffinity.Some? then pod.requiredNodeAffinity.value.terms else []
  }

  lemma RequiredMeansAsks(pod: Pod, schedulingClass: Option<Merger.SchedulingClass>, required: RequiredAffinity,
      node: Node)
    requires schedulingClass.None? ==> required == RequiredAffinity(pod.NodePairs(), pod.requiredNodeAffinity)
    requires schedulingClass.Some? ==>
               var m := Merger.MergedNodeAffinity(pod, schedulingClass.value);
               required == RequiredAffinity(m.nodeSelector, m.required)
    ensures required.Admits(node) <==> Asks(pod, schedulingClass, node)
  {
    if schedulingClass.Some? {
      var pairs, keys := pod.NodePairs(), schedulingClass.value.nodeSelector.Keys;
      Merger.MergedNodeAffinityAdmits(pod, schedulingClass.value, node);
      assert HasPairs(node.labels, pairs - keys) <==> MeetsPairs(pod, keys, node) by {
        assert forall k | k in pairs && k !in keys :: k in pairs - keys && (pairs - keys)[k] == pairs[k];
      }
    }
  }

  /** PreFilter. The requirement admits what pod and class ask for. It is skipped
      exactly when nothing is asked for. Otherwise the nodes are pruned exactly by
      the names that the terms of a pod without a class allow, unless one of them
      restricts no name; and every node that the requirement admits stays. */
  method PreFilter(pod: Pod, schedulingClass: Option<Merger.SchedulingClass>, added: Option<NodeSelector>)
    returns (r: PreFilterResult, required: RequiredAffinity)
    ensures forall n: Node :: required.Admits(n) <==> Asks(pod, schedulingClass, n)
    ensures r.Skip? <==> && schedulingClass.None? && added.None?
                         && pod.nodeSelector.None? && pod.requiredNodeAffinity.None?
    ensures r.Skip? ==> forall n: Node :: required.Admits(n) && OptionalMatches(added, n)
    ensures var terms := PruningTerms(pod, schedulingClass);
            && (r.AllNodes? || r.Skip? <==> terms == [] || exists t :: t in terms && Unrestricted(t))
            && (r.NodeNames? ==>
                  && r.names != {}
                  && forall name :: name in r.names <==> exists t :: t in terms && TermAllowsName(t, name))
            && (r.Conflict? ==> forall name, t :: t in terms ==> !TermAllowsName(t, name))
    ensures r.NodeNames? ==> forall n: Node :: required.Admits(n) ==> n.name in r.names
    ensures r.Conflict? ==> forall n: Node :: !required.Admits(n)
  {
    var merged := Merger.MergeNodeAffinity(pod, schedulingClass);
    required := if merged.Some? then RequiredAffinity(merged.value.nodeSelector, merged.value.required)
                else RequiredAffinity(pod.NodePairs(), pod.requiredNodeAffinity);
    forall n: Node ensures required.Admits(n) <==> Asks(pod, schedulingClass, n) {
      RequiredMeansAsks(pod, schedulingClass, required, n);
    }
    if merged.None? && pod.requiredNodeAffinity.None? && added.None? && pod.nodeSelector.None? {
      return Skip, required;
    }
    if merged.Some? {
      return AllNodes, required;
    }
    if pod.requiredNodeAffinity.None? || |pod.requiredNodeAffinity.value.terms| == 0 {
      return AllNodes, required;
    }
    var terms := pod.requiredNodeAffinity.value.terms;
    r := PrunedNames(terms);
    forall n: Node | required.Admits(n) && !r.AllNodes?
      ensures exists t :: t in terms && TermAllowsName(t, n.name)
    {
      var t :| t in terms && TermMatches(t, n);
      MatchingTermAllowsName(t, n);
    }
  }

  /** Filter: the node satisfies the enforced selector and the requirement. */
  method Filter(required: RequiredAffinity, added: Option<NodeSelector>, node: Node) returns (ok: bool)
    ensures ok <==> OptionalMatches(added, node) && required.Admits(node)
  {
    if added.Some? && !SelectorMatches(added.value, node) {
      return false;
    }
    ok := RequiredMatches(required.nodeSelector, required.affinity, node);
  }

  // ---- The queueing hint ----

  /** The verdict of the filter. */
  predicate Passes(required: RequiredAffinity, added: Option<NodeSelector>, node: Node) {
    OptionalMatches(added, node) && required.Admits(node)
  }

  /** A node was added (no original) or updated. */
  function IsSchedulableAfterNodeChange(required: RequiredAffinity, added: Option<NodeSelector>, original: Option<Node>,
      modified: Node): Hint
  {
    if !OptionalMatches(added, modified) then QueueSkip
    else if !required.Admits(modified) then QueueSkip
    else if original.None? then Queue
    else if required.Admits(original.value) then QueueSkip
    else Queue
  }

  /** What the hint promises: retry exactly when the change may admit the pod,
      since the node passes the filter now and did not before. It keeps that
      promise unless the pod's requirement admitted the node before and only the
      enforced selector kept it out. */
  lemma HintExact(required: RequiredAffinity, added: Option<NodeSelector>, original: Option<Node>, modified: Node)
    ensures var opens := && Passes(required, added, modified)
                         && (original.Some? ==> !Passes(required, added, original.value));
            (IsSchedulableAfterNodeChange(required, added, original, modified).Queue? <==> opens) <==>
            !(&& original.Some? && Passes(required, added, modified)
              && required.Admits(original.value) && !OptionalMatches(added, original.value))
    ensures IsSchedulableAfterNodeChange(required, added, original, modified).Queue? ==>
            Passes(required, added, modified) && (original.Some? ==> !Passes(required, added, original.value))
  {
  }

  /** The exception is real: an enforced zone, and a node that gets its label. */
  lemma EnforcedSelectorIsMissed(name: string, zone: string)
    ensures var required := RequiredAffinity(map[], None);
            var added := Some(NodeSelector([NodeSelectorTerm([Exists("zone")], [])]));
            var original, modified := Node(name, map[], []), Node(name, map["zone" := zone], []);
            && !Passes(required, added, original) && Passes(required, added, modified)
            && IsSchedulableAfterNodeChange(required, added, Some(original), modified).QueueSkip?
  {
    var t := NodeSelectorTerm([Exists("zone")], []);
    var added := Some(NodeSelector([t]));
    assert t in added.value.terms && TermMatches(t, Node(name, map["zone" := zone], []));
    assert !TermMatches(t, Node(name, map[], [])) by {
      assert Exists("zone") in t.matchExpressions;
    }
  }
}
