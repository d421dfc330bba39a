/** Merging a pod's own scheduling constraints with those of its
    SchedulingClass, once the class has been looked up. */
module Merger {
  import opened Labels
  import opened Cluster
  import opened NodeSelectors

  datatype SchedulingClass = SchedulingClass(
    nodeSelector: Labels,
    requiredNodeAffinity: Option<NodeSelector>,
    preferredNodeAffinity: seq<PreferredSchedulingTerm>,
    podAffinity: Option<PodTerms>,
    podAntiAffinity: Option<PodTerms>,
    spreadConstraints: seq<TopologySpreadConstraint>)

  datatype NodeAffinityTerms = NodeAffinityTerms(
    nodeSelector: Labels,
    required: Option<NodeSelector>,
    preferred: seq<PreferredSchedulingTerm>)

  datatype InterPodAffinityTerms = InterPodAffinityTerms(
    requiredAffinity: seq<AffinityTerm>,
    requiredAntiAffinity: seq<AffinityTerm>,
    preferredAffinity: seq<WeightedAffinityTerm>,
    preferredAntiAffinity: seq<WeightedAffinityTerm>)

  // ---- Node selectors: AND of two ORs ----

  function Conjoin(a: NodeSelectorTerm, b: NodeSelectorTerm): NodeSelectorTerm {
    NodeSelectorTerm(a.matchExpressions + b.matchExpressions, a.matchFields + b.matchFields)
  }

  /** `a` conjoined with each of `bts`, in order. */
  function Row(a: NodeSelectorTerm, bts: seq<NodeSelectorTerm>): seq<NodeSelectorTerm> {
    seq(|bts|, j requires 0 <= j < |bts| => Conjoin(a, bts[j]))
  }

  function CrossProduct(ats: seq<NodeSelectorTerm>, bts: seq<NodeSelectorTerm>): seq<NodeSelectorTerm> {
    if ats == [] then [] else CrossProduct(ats[..|ats| - 1], bts) + Row(ats[|ats| - 1], bts)
  }

  function Merged(a: Option<NodeSelector>, b: Option<NodeSelector>): Option<NodeSelector> {
    if a.None? then b else if b.None? then a
    else Some(NodeSelector(CrossProduct(a.value.terms, b.value.terms)))
  }

  method MergeNodeSelectors(a: Option<NodeSelector>, b: Option<NodeSelector>) returns (r: Option<NodeSelector>)
    ensures r == Merged(a, b)
  {
    if a.None? {
      return b;
    }
    if b.None? {
      return a;
    }
    var merged: seq<NodeSelectorTerm> := [];
    var ats, bts := a.value.terms, b.value.terms;
    for i := 0 to |ats|
      invariant merged == CrossProduct(ats[..i], bts)
    {
      ghost var before := merged;
      for j := 0 to |bts|
        invariant merged == before + Row(ats[i], bts)[..j]
      {
        var exprs := ats[i].matchExpressions + bts[j].matchExpressions;
        var fields := ats[i].matchFields + bts[j].matchFields;
        merged := merged + [NodeSelectorTerm(exprs, fields)];
      }
      assert ats[..i + 1][..i] == ats[..i];
    }
    assert ats[..|ats|] == ats;
    r := Some(NodeSelector(merged));
  }

  lemma {:induction false} CrossProductMembers(ats: seq<NodeSelectorTerm>, bts: seq<NodeSelectorTerm>,
      t: NodeSelectorTerm)
    ensures t in CrossProduct(ats, bts) <==> exists a, b :: a in ats && b in bts && t == Conjoin(a, b)
  {
    if ats != [] {
      var last := ats[|ats| - 1];
      CrossProductMembers(ats[..|ats| - 1], bts, t);
      assert forall b | b in bts :: Conjoin(last, b) in Row(last, bts) by {
        forall b | b in bts ensures Conjoin(last, b) in Row(last, bts) {
          var j :| 0 <= j < |bts| && bts[j] == b;
          assert Row(last, bts)[j] == Conjoin(last, b);
        }
      }
      assert ats == ats[..|ats| - 1] + [last];
    }
  }

  /** In general: a node matches the merge of two selectors exactly when some
      pair of their terms, not both empty, has all its requirements true. */
  lemma MergedMatches(a: NodeSelector, b: NodeSelector, node: Node)
    ensures OptionalMatches(Merged(Some(a), Some(b)), node) <==>
            exists s, t ::
              s in a.terms && t in b.terms && !(EmptyTerm(s) && EmptyTerm(t)) && AllTrue(s, node) && AllTrue(t, node)
  {
    var terms := CrossProduct(a.terms, b.terms);
    if SelectorMatches(NodeSelector(terms), node) {
      var u :| u in terms && TermMatches(u, node);
      CrossProductMembers(a.terms, b.terms, u);
      var s, t :| s in a.terms && t in b.terms && u == Conjoin(s, t);
      ConjoinedMatches(s, t, node);
    }
    forall s, t | s in a.terms && t in b.terms && !(EmptyTerm(s) && EmptyTerm(t))
                && AllTrue(s, node) && AllTrue(t, node)
      ensures SelectorMatches(NodeSelector(terms), node)
    {
      CrossProductMembers(a.terms, b.terms, Conjoin(s, t));
      ConjoinedMatches(s, t, node);
    }
  }

  lemma ConjoinedMatches(s: NodeSelectorTerm, t: NodeSelectorTerm, node: Node)
    ensures TermMatches(Conjoin(s, t), node) <==>
            !(EmptyTerm(s) && EmptyTerm(t)) && AllTrue(s, node) && AllTrue(t, node)
  {
  }

  predicate HasEmptyTerm(s: NodeSelector) {
    exists t | t in s.terms :: EmptyTerm(t)
  }

  /** The node matches only one of the selectors, and the other one holds an
      empty term, which matches nothing on its own but drops out of a product. */
  predicate DropsOut(a: Option<NodeSelector>, b: Option<NodeSelector>, node: Node) {
    && a.Some? && b.Some?
    && (|| (HasEmptyTerm(a.value) && SelectorMatches(b.value, node) && !SelectorMatches(a.value, node))
        || (HasEmptyTerm(b.value) && SelectorMatches(a.value, node) && !SelectorMatches(b.value, node)))
  }

  /** The merge means AND, except exactly where an empty term drops out. */
  lemma MergeMeansAnd(a: Option<NodeSelector>, b: Option<NodeSelector>, node: Node)
    ensures OptionalMatches(Merged(a, b), node) <==>
            (OptionalMatches(a, node) && OptionalMatches(b, node)) || DropsOut(a, b, node)
    ensures (OptionalMatches(Merged(a, b), node) <==> OptionalMatches(a, node) && OptionalMatches(b, node))
       <==> !DropsOut(a, b, node)
  {
    if a.Some? && b.Some? {
      MergedMatches(a.value, b.value, node);
    }
  }

  /** The exception is real: a selector with an empty term admits no node, but
      merged with one that asks for a zone it admits every node in a zone. */
  lemma EmptyTermDropsOut(name: string, zone: string)
    ensures var a := Some(NodeSelector([NodeSelectorTerm([], [])]));
            var b := Some(NodeSelector([NodeSelectorTerm([Exists("zone")], [])]));
            var node := Node(name, map["zone" := zone], []);
            && !OptionalMatches(a, node)
            && OptionalMatches(Merged(a, b), node)
            && DropsOut(a, b, node)
  {
    var s, t := NodeSelectorTerm([], []), NodeSelectorTerm([Exists("zone")], []);
    var a, b := Some(NodeSelector([s])), Some(NodeSelector([t]));
    var node := Node(name, map["zone" := zone], []);
    assert s in a.value.terms && EmptyTerm(s);
    assert t in b.value.terms && TermMatches(t, node);
    MergeMeansAnd(a, b, node);
  }

  /** Selectors without empty terms merge into their conjunction on every node;
      a selector of no terms at all still merges into one that matches nothing. */
  lemma MergeOfNonEmptyTerms(a: Option<NodeSelector>, b: Option<NodeSelector>, node: Node)
    requires a.Some? ==> !HasEmptyTerm(a.value)
    requires b.Some? ==> !HasEmptyTerm(b.value)
    ensures OptionalMatches(Merged(a, b), node) <==> OptionalMatches(a, node) && OptionalMatches(b, node)
  {
    MergeMeansAnd(a, b, node);
  }

  /** Copies `from` over `into`, key by key in an arbitrary order. */
  method CopyPairs(into: Labels, from: Labels) returns (r: Labels)
    ensures r == into + from
  {
    r := into;
    var rest := from.Keys;
    while rest != {}
      invariant rest <= from.Keys
      invariant r.Keys == into.Keys + (from.Keys - rest)
      invariant forall k | k in r :: r[k] == if k in from && k !in rest then from[k] else into[k]
      decreases rest
    {
      var k :| k in rest;
      r := r[k := from[k]];
      rest := rest - {k};
    }
  }

  function MergedNodeAffinity(pod: Pod, sc: SchedulingClass): NodeAffinityTerms {
    NodeAffinityTerms(
      pod.NodePairs() + sc.nodeSelector,
      Merged(pod.requiredNodeAffinity, sc.requiredNodeAffinity),
      pod.preferredNodeAffinity + sc.preferredNodeAffinity)
  }

  method MergeNodeAffinity(pod: Pod, schedulingClass: Option<SchedulingClass>) returns (r: Option<NodeAffinityTerms>)
    ensures r == if schedulingClass.None? then None else Some(MergedNodeAffinity(pod, schedulingClass.value))
  {
    if schedulingClass.None? {
      return None;
    }
    var sc := schedulingClass.value;
    var nodeSelector := CopyPairs(map[], pod.NodePairs());
    nodeSelector := CopyPairs(nodeSelector, sc.nodeSelector);
    assert map[] + pod.NodePairs() == pod.NodePairs();
    var required := MergeNodeSelectors(pod.requiredNodeAffinity, sc.requiredNodeAffinity);
    r := Some(NodeAffinityTerms(nodeSelector, required, pod.preferredNodeAffinity + sc.preferredNodeAffinity));
  }

  predicate ConflictingPairs(a: Labels, b: Labels) {
    exists k | k in a :: k in b && a[k] != b[k]
  }

  /** Overriding pairs: those of `c`, and those of `p` under other keys. */
  lemma OverriddenPairs(p: Labels, c: Labels, labels: Labels)
    ensures HasPairs(labels, p + c) <==> HasPairs(labels, c) && HasPairs(labels, p - c.Keys)
    ensures HasPairs(labels, p) && HasPairs(labels, c) <==>
            HasPairs(labels, c) && HasPairs(labels, p - c.Keys) && !ConflictingPairs(p, c)
  {
    if HasPairs(labels, p + c) {
      assert forall k | k in c :: k in p + c && (p + c)[k] == c[k];
      assert forall k | k in p - c.Keys :: k in p + c && (p + c)[k] == p[k];
    }
    if HasPairs(labels, c) && HasPairs(labels, p - c.Keys) {
      assert forall k | k in p && k !in c :: k in p - c.Keys;
      assert forall k | k in p && k in c && !ConflictingPairs(p, c) :: p[k] == c[k];
    }
  }

  /** What the merged requirement of a pod admits: nodes with all pairs of the
      class, all pairs of the pod under keys the class does not set, and both
      required terms true, or one of them where the other drops out. */
  lemma MergedNodeAffinityAdmits(pod: Pod, sc: SchedulingClass, node: Node)
    ensures var m := MergedNodeAffinity(pod, sc);
            var a, b := pod.requiredNodeAffinity, sc.requiredNodeAffinity;
            RequiredMatches(m.nodeSelector, m.required, node) <==>
            && HasPairs(node.labels, sc.nodeSelector)
            && HasPairs(node.labels, pod.NodePairs() - sc.nodeSelector.Keys)
            && ((OptionalMatches(a, node) && OptionalMatches(b, node)) || DropsOut(a, b, node))
  {
    MergeMeansAnd(pod.requiredNodeAffinity, sc.requiredNodeAffinity, node);
    OverriddenPairs(pod.NodePairs(), sc.nodeSelector, node.labels);
  }

  /** A node on which the merge is not the conjunction of both sides: a class
      pair overrides a conflicting one, or an empty term drops out. */
  predicate MergeWidens(pod: Pod, sc: SchedulingClass, node: Node) {
    var a, b := pod.requiredNodeAffinity, sc.requiredNodeAffinity;
    && HasPairs(node.labels, sc.nodeSelector)
    && HasPairs(node.labels, pod.NodePairs() - sc.nodeSelector.Keys)
    && (|| (OptionalMatches(a, node) && OptionalMatches(b, node) && ConflictingPairs(pod.NodePairs(), sc.nodeSelector))
        || DropsOut(a, b, node))
  }

  /** Against the conjunction of what pod and class ask for: the merge never
      admits less, and admits more exactly where it widens. */
  lemma MergedNodeAffinityMeansBoth(pod: Pod, sc: SchedulingClass, node: Node)
    ensures var m := MergedNodeAffinity(pod, sc);
            var merged := RequiredMatches(m.nodeSelector, m.required, node);
            var both := && RequiredMatches(pod.NodePairs(), pod.requiredNodeAffinity, node)
                        && RequiredMatches(sc.nodeSelector, sc.requiredNodeAffinity, node);
            && (both ==> merged)
            && ((merged <==> both) <==> !MergeWidens(pod, sc, node))
  {
    MergedNodeAffinityAdmits(pod, sc, node);
    OverriddenPairs(pod.NodePairs(), sc.nodeSelector, node.labels);
  }

  /** Without empty terms, only an overridden pair of the pod widens it. */
  lemma MergedNonEmptyAffinityAdmits(pod: Pod, sc: SchedulingClass, node: Node)
    requires pod.requiredNodeAffinity.Some? ==> !HasEmptyTerm(pod.requiredNodeAffinity.value)
    requires sc.requiredNodeAffinity.Some? ==> !HasEmptyTerm(sc.requiredNodeAffinity.value)
    ensures var m := MergedNodeAffinity(pod, sc);
            RequiredMatches(m.nodeSelector, m.required, node) <==>
            && RequiredMatches(sc.nodeSelector, sc.requiredNodeAffinity, node)
            && OptionalMatches(pod.requiredNodeAffinity, node)
            && HasPairs(node.labels, pod.NodePairs() - sc.nodeSelector.Keys)
  {
    MergedNodeAffinityAdmits(pod, sc, node);
  }

  // ---- Lineage defaults ----

  function LineageSelector(pod: Pod, keys: seq<string>): Option<LabelSelector> {
    if keys == [] || exists k | k in keys :: k !in pod.labels then None
    else Some(LabelSelector(map k | k in keys && k in pod.labels :: pod.labels[k], {}))
  }

  method LineageLabelSelector(pod: Pod, keys: seq<string>) returns (r: Option<LabelSelector>)
    ensures r == LineageSelector(pod, keys)
  {
    if |keys| == 0 {
      return None;
    }
    var matchLabels: Labels := map[];
    for i := 0 to |keys|
      invariant forall k | k in keys[..i] :: k in pod.labels
      invariant matchLabels == map k | k in keys[..i] && k in pod.labels :: pod.labels[k]
    {
      var key := keys[i];
      if key !in pod.labels {
        return None;
      }
      matchLabels := matchLabels[key := pod.labels[key]];
    }
    assert keys[..|keys|] == keys;
    r := Some(LabelSelector(matchLabels, {}));
  }

  function Defaulted(t: PodAffinityTerm, default: Option<LabelSelector>): PodAffinityTerm {
    if t.labelSelector.None? && default.Some? then t.(labelSelector := default) else t
  }

  function AllDefaulted(terms: seq<PodAffinityTerm>, default: Option<LabelSelector>): seq<PodAffinityTerm> {
    seq(|terms|, i requires 0 <= i < |terms| => Defaulted(terms[i], default))
  }

  function AllWeightedDefaulted(terms: seq<WeightedPodAffinityTerm>,
      default: Option<LabelSelector>): seq<WeightedPodAffinityTerm> {
    seq(|terms|, i requires 0 <= i < |terms| =>
      WeightedPodAffinityTerm(terms[i].weight, Defaulted(terms[i].term, default)))
  }

  method DefaultAffinityTermSelectors(terms: seq<PodAffinityTerm>, default: Option<LabelSelector>)
    returns (out: seq<PodAffinityTerm>)
    ensures out == AllDefaulted(terms, default)
  {
    out := [];
    for i := 0 to |terms|
      invariant out == AllDefaulted(terms, default)[..i]
    {
      var t := terms[i];
      if t.labelSelector.None? && default.Some? {
        t := t.(labelSelector := default);
      }
      out := out + [t];
    }
  }

  method DefaultWeightedAffinityTermSelectors(terms: seq<WeightedPodAffinityTerm>, default: Option<LabelSelector>)
    returns (out: seq<WeightedPodAffinityTerm>)
    ensures out == AllWeightedDefaulted(terms, default)
  {
    out := [];
    for i := 0 to |terms|
      invariant out == AllWeightedDefaulted(terms, default)[..i]
    {
      var t := terms[i];
      if t.term.labelSelector.None? && default.Some? {
        t := t.(term := t.term.(labelSelector := default));
      }
      out := out + [t];
    }
  }

  /** The terms a pod with class `sc` is scheduled by. */
  function MergedAffinity(pod: Pod, sc: SchedulingClass, keys: seq<string>): InterPodAffinityTerms {
    var d := LineageSelector(pod, keys);
    InterPodAffinityTerms(
      GetAffinityTerms(pod, RequiredOf(pod.podAffinity)) +
      GetAffinityTerms(pod, AllDefaulted(RequiredOf(sc.podAffinity), d)),
      GetAffinityTerms(pod, RequiredOf(pod.podAntiAffinity)) +
      GetAffinityTerms(pod, AllDefaulted(RequiredOf(sc.podAntiAffinity), d)),
      GetWeightedTerms(pod, PreferredOf(pod.podAffinity)) +
      GetWeightedTerms(pod, AllWeightedDefaulted(PreferredOf(sc.podAffinity), d)),
      GetWeightedTerms(pod, PreferredOf(pod.podAntiAffinity)) +
      GetWeightedTerms(pod, AllWeightedDefaulted(PreferredOf(sc.podAntiAffinity), d)))
  }

  method MergeInterPodAffinity(pod: Pod, schedulingClass: Option<SchedulingClass>, keys: seq<string>)
    returns (r: Option<InterPodAffinityTerms>)
    ensures r == if schedulingClass.None? then None else Some(MergedAffinity(pod, schedulingClass.value, keys))
  {
    if schedulingClass.None? {
      return None;
    }
    var sc := schedulingClass.value;
    var requiredAffinity := GetAffinityTerms(pod, RequiredOf(pod.podAffinity));
    var requiredAntiAffinity := GetAffinityTerms(pod, RequiredOf(pod.podAntiAffinity));
    var preferredAffinity := GetWeightedTerms(pod, PreferredOf(pod.podAffinity));
    var preferredAntiAffinity := GetWeightedTerms(pod, PreferredOf(pod.podAntiAffinity));
    var default := LineageLabelSelector(pod, keys);
    if sc.podAffinity.Some? {
      var required := DefaultAffinityTermSelectors(sc.podAffinity.value.required, default);
      requiredAffinity := requiredAffinity + GetAffinityTerms(pod, required);
      var preferred := DefaultWeightedAffinityTermSelectors(sc.podAffinity.value.preferred, default);
      preferredAffinity := preferredAffinity + GetWeightedTerms(pod, preferred);
    }
    if sc.podAntiAffinity.Some? {
      var required := DefaultAffinityTermSelectors(sc.podAntiAffinity.value.required, default);
      requiredAntiAffinity := requiredAntiAffinity + GetAffinityTerms(pod, required);
      var preferred := DefaultWeightedAffinityTermSelectors(sc.podAntiAffinity.value.preferred, default);
      preferredAntiAffinity := preferredAntiAffinity + GetWeightedTerms(pod, preferred);
    }
    r := Some(InterPodAffinityTerms(requiredAffinity, requiredAntiAffinity, preferredAffinity, preferredAntiAffinity));
    assert GetAffinityTerms(pod, AllDefaulted([], default)) == [];
    assert GetWeightedTerms(pod, AllWeightedDefaulted([], default)) == [];
    assert r.value == MergedAffinity(pod, sc, keys);
  }

  function DefaultedConstraint(c: TopologySpreadConstraint, default: Option<LabelSelector>): TopologySpreadConstraint {
    if c.labelSelector.None? && default.Some? then c.(labelSelector := default) else c
  }

  function AllConstraintsDefaulted(cs: seq<TopologySpreadConstraint>,
      default: Option<LabelSelector>): seq<TopologySpreadConstraint> {
    seq(|cs|, i requires 0 <= i < |cs| => DefaultedConstraint(cs[i], default))
  }

  function MergedSpreadConstraints(pod: Pod, sc: SchedulingClass, keys: seq<string>): seq<TopologySpreadConstraint> {
    pod.spreadConstraints + AllConstraintsDefaulted(sc.spreadConstraints, LineageSelector(pod, keys))
  }

  method DefaultConstraintSelectors(cs: seq<TopologySpreadConstraint>, default: Option<LabelSelector>)
    returns (crConstraints: seq<TopologySpreadConstraint>)
    ensures crConstraints == AllConstraintsDefaulted(cs, default)
  {
    crConstraints := cs;
    for i := 0 to |cs|
      invariant |crConstraints| == |cs|
      invariant forall j | 0 <= j < |cs| ::
        crConstraints[j] == if j < i then DefaultedConstraint(cs[j], default) else cs[j]
    {
      if crConstraints[i].labelSelector.None? && default.Some? {
        crConstraints := crConstraints[i := crConstraints[i].(labelSelector := default)];
      }
    }
  }

  method MergeTopologySpreadConstraints(pod: Pod, schedulingClass: Option<SchedulingClass>, keys: seq<string>)
    returns (r: Option<seq<TopologySpreadConstraint>>)
    ensures r == if schedulingClass.None? then None else Some(MergedSpreadConstraints(pod, schedulingClass.value, keys))
  {
    if schedulingClass.None? {
      return None;
    }
    var default := LineageLabelSelector(pod, keys);
    var crConstraints := DefaultConstraintSelectors(schedulingClass.value.spreadConstraints, default);
    r := Some(pod.spreadConstraints + crConstraints);
  }

  // ---- What a defaulted term means ----

  predicate CompleteLineage(pod: Pod, keys: seq<string>) {
    keys != [] && forall k | k in keys :: k in pod.labels
  }

  /** `q` belongs to the application that `pod`'s lineage labels name. */
  predicate SameLineage(keys: seq<string>, pod: Pod, q: Pod) {
    forall k | k in keys && k in pod.labels :: k in q.labels && q.labels[k] == pod.labels[k]
  }

  /** `q` belongs to the application of the reference pod, in its namespace. */
  predicate InGroup(keys: seq<string>, ref: Pod, q: Pod) {
    q.namespace == ref.namespace && SameLineage(keys, ref, q)
  }

  /** The pods of an application have one selector for what a class leaves out. */
  lemma GroupSharesSelector(keys: seq<string>, ref: Pod, q: Pod)
    requires CompleteLineage(ref, keys) && InGroup(keys, ref, q)
    ensures CompleteLineage(q, keys) && LineageSelector(q, keys) == LineageSelector(ref, keys)
  {
    assert forall k | k in keys :: k in ref.labels && k in q.labels && q.labels[k] == ref.labels[k];
    assert LineageSelector(q, keys).value.matchLabels == LineageSelector(ref, keys).value.matchLabels;
  }

  /** The selector a class leaves out selects exactly the pods of the same
      application, and nothing when the pod's lineage is incomplete. */
  lemma LineageSelectorMatches(pod: Pod, keys: seq<string>, q: Pod)
    ensures LabelSelectorAsSelector(LineageSelector(pod, keys)).Matches(q.labels) <==>
            CompleteLineage(pod, keys) && SameLineage(keys, pod, q)
  {
    if CompleteLineage(pod, keys) {
      var pairs := LineageSelector(pod, keys).value.matchLabels;
      PairRequirementsMatch(pairs, q.labels);
      assert PairRequirements(pairs) + {} == PairRequirements(pairs);
    }
  }

  /** The namespaces a written term reaches: those it lists and those its
      selector accepts, or the pod's own if it says nothing about namespaces. */
  predicate ReachesNamespace(pod: Pod, t: PodAffinityTerm, ns: string, nsLabels: Labels) {
    if t.namespaces == {} && t.namespaceSelector.None? then ns == pod.namespace
    else ns in t.namespaces || (t.namespaceSelector.Some? && SelectsLabels(t.namespaceSelector.value, nsLabels))
  }

  /** What a written term of a pod or of its class selects: within the namespaces
      it reaches, the pods its own selector selects; a class term without one, the
      pods of the pod's application; a term of the pod without one, nothing. */
  predicate TermSelects(pod: Pod, keys: seq<string>, t: PodAffinityTerm, ofClass: bool, q: Pod, nsLabels: Labels) {
    && ReachesNamespace(pod, t, q.namespace, nsLabels)
    && if t.labelSelector.Some? then SelectsLabels(t.labelSelector.value, q.labels)
       else ofClass && CompleteLineage(pod, keys) && SameLineage(keys, pod, q)
  }

  lemma DefaultedTermMatches(pod: Pod, keys: seq<string>, t: PodAffinityTerm, q: Pod, nsLabels: Labels)
    ensures ParseAffinityTerm(pod, Defaulted(t, LineageSelector(pod, keys))).Matches(q, nsLabels) <==>
            TermSelects(pod, keys, t, true, q, nsLabels)
    ensures ParseAffinityTerm(pod, t).Matches(q, nsLabels) <==> TermSelects(pod, keys, t, false, q, nsLabels)
  {
    LineageSelectorMatches(pod, keys, q);
    SelectorMeaning(t.namespaceSelector, nsLabels);
    SelectorMeaning(t.labelSelector, q.labels);
  }

  /** A class term that names neither pods nor namespaces. */
  predicate Unspecific(t: PodAffinityTerm) {
    t.labelSelector.None? && t.namespaceSelector.None? && t.namespaces == {}
  }

  /** An unspecific class term selects exactly the pods of the same namespace
      and application, whatever labels the namespace has. */
  lemma UnspecificTermMatches(pod: Pod, keys: seq<string>, t: PodAffinityTerm, q: Pod, nsLabels: Labels)
    requires Unspecific(t)
    ensures ParseAffinityTerm(pod, Defaulted(t, LineageSelector(pod, keys))).Matches(q, nsLabels) <==>
            q.namespace == pod.namespace && CompleteLineage(pod, keys) && SameLineage(keys, pod, q)
  {
    DefaultedTermMatches(pod, keys, t, q, nsLabels);
  }

  /** `merged` holds the pod's own terms, then those of the class, each with its
      key and its meaning. */
  ghost predicate OwnThenClass(pod: Pod, keys: seq<string>, own: seq<PodAffinityTerm>, ofClass: seq<PodAffinityTerm>,
      merged: seq<AffinityTerm>)
  {
    && |merged| == |own| + |ofClass|
    && (forall i | 0 <= i < |own| :: IsParseOf(pod, keys, own[i], false, merged[i]))
    && (forall i | 0 <= i < |ofClass| :: IsParseOf(pod, keys, ofClass[i], true, merged[|own| + i]))
  }

  /** The parsed term has the key of the written one and selects what it does. */
  ghost predicate IsParseOf(pod: Pod, keys: seq<string>, t: PodAffinityTerm, ofClass: bool, parsed: AffinityTerm) {
    && parsed.topologyKey == t.topologyKey
    && forall q: Pod, nsLabels: Labels ::
         parsed.Matches(q, nsLabels) <==> TermSelects(pod, keys, t, ofClass, q, nsLabels)
  }

  function WrittenTerms(ws: seq<WeightedPodAffinityTerm>): seq<PodAffinityTerm> {
    seq(|ws|, i requires 0 <= i < |ws| => ws[i].term)
  }

  function Terms(ws: seq<WeightedAffinityTerm>): seq<AffinityTerm> {
    seq(|ws|, i requires 0 <= i < |ws| => ws[i].term)
  }

  lemma ParsesAreParses(pod: Pod, keys: seq<string>, t: PodAffinityTerm)
    ensures IsParseOf(pod, keys, t, true, ParseAffinityTerm(pod, Defaulted(t, LineageSelector(pod, keys))))
    ensures IsParseOf(pod, keys, t, false, ParseAffinityTerm(pod, t))
  {
    forall q: Pod, nsLabels: Labels
      ensures ParseAffinityTerm(pod, Defaulted(t, LineageSelector(pod, keys))).Matches(q, nsLabels) <==>
              TermSelects(pod, keys, t, true, q, nsLabels)
      ensures ParseAffinityTerm(pod, t).Matches(q, nsLabels) <==> TermSelects(pod, keys, t, false, q, nsLabels)
    {
      DefaultedTermMatches(pod, keys, t, q, nsLabels);
    }
  }

  /** The required terms a pod is scheduled by: all of its own, then all of its
      class, each with its meaning. */
  lemma MergedRequiredTerms(pod: Pod, sc: SchedulingClass, keys: seq<string>)
    ensures OwnThenClass(pod, keys, RequiredOf(pod.podAffinity), RequiredOf(sc.podAffinity),
                         MergedAffinity(pod, sc, keys).requiredAffinity)
    ensures OwnThenClass(pod, keys, RequiredOf(pod.podAntiAffinity), RequiredOf(sc.podAntiAffinity),
                         MergedAffinity(pod, sc, keys).requiredAntiAffinity)
  {
    forall t: PodAffinityTerm
      ensures IsParseOf(pod, keys, t, true, ParseAffinityTerm(pod, Defaulted(t, LineageSelector(pod, keys))))
      ensures IsParseOf(pod, keys, t, false, ParseAffinityTerm(pod, t))
    {
      ParsesAreParses(pod, keys, t);
    }
  }

  /** The preferred terms likewise, with their weights. */
  lemma MergedPreferredTerms(pod: Pod, sc: SchedulingClass, keys: seq<string>)
    ensures PreferredOwnThenClass(pod, keys, PreferredOf(pod.podAffinity), PreferredOf(sc.podAffinity),
                                  MergedAffinity(pod, sc, keys).preferredAffinity)
    ensures PreferredOwnThenClass(pod, keys, PreferredOf(pod.podAntiAffinity), PreferredOf(sc.podAntiAffinity),
                                  MergedAffinity(pod, sc, keys).preferredAntiAffinity)
  {
    AppendedPreferredTerms(pod, keys, PreferredOf(pod.podAffinity), PreferredOf(sc.podAffinity));
    AppendedPreferredTerms(pod, keys, PreferredOf(pod.podAntiAffinity), PreferredOf(sc.podAntiAffinity));
  }

  ghost predicate PreferredOwnThenClass(pod: Pod, keys: seq<string>, own: seq<WeightedPodAffinityTerm>,
      ofClass: seq<WeightedPodAffinityTerm>, merged: seq<WeightedAffinityTerm>)
  {
    && OwnThenClass(pod, keys, WrittenTerms(own), WrittenTerms(ofClass), Terms(merged))
    && forall i | 0 <= i < |merged| :: merged[i].weight == (own + ofClass)[i].weight
  }

  lemma AppendedPreferredTerms(pod: Pod, keys: seq<string>, own: seq<WeightedPodAffinityTerm>,
      ofClass: seq<WeightedPodAffinityTerm>)
    ensures PreferredOwnThenClass(pod, keys, own, ofClass,
      GetWeightedTerms(pod, own) + GetWeightedTerms(pod, AllWeightedDefaulted(ofClass, LineageSelector(pod, keys))))
  {
    forall t: PodAffinityTerm
      ensures IsParseOf(pod, keys, t, true, ParseAffinityTerm(pod, Defaulted(t, LineageSelector(pod, keys))))
      ensures IsParseOf(pod, keys, t, false, ParseAffinityTerm(pod, t))
    {
      ParsesAreParses(pod, keys, t);
    }
  }

  // ---- What merged spread constraints and preferences mean ----

  /** What a written spread constraint of a pod or of its class selects. */
  predicate ConstraintSelects(pod: Pod, keys: seq<string>, c: TopologySpreadConstraint, ofClass: bool, q: Pod) {
    if c.labelSelector.Some? then SelectsLabels(c.labelSelector.value, q.labels)
    else ofClass && CompleteLineage(pod, keys) && SameLineage(keys, pod, q)
  }

  /** The merged list holds the pod's own constraints unchanged, then those of the
      class: of these every field but an absent selector is kept, and the selector
      means what the written one does, or else the pods of the application. */
  lemma MergedConstraintsMean(pod: Pod, sc: SchedulingClass, keys: seq<string>)
    ensures var own, ofClass := pod.spreadConstraints, sc.spreadConstraints;
            var merged := MergedSpreadConstraints(pod, sc, keys);
            && |merged| == |own| + |ofClass| && merged[..|own|] == own
            && forall i | 0 <= i < |ofClass| ::
                 && merged[|own| + i].(labelSelector := ofClass[i].labelSelector) == ofClass[i]
                 && (ofClass[i].labelSelector.Some? ==> merged[|own| + i] == ofClass[i])
                 && forall q: Pod :: LabelSelectorAsSelector(merged[|own| + i].labelSelector).Matches(q.labels) <==>
                                     ConstraintSelects(pod, keys, ofClass[i], true, q)
  {
    var merged := MergedSpreadConstraints(pod, sc, keys);
    forall i, q: Pod | 0 <= i < |sc.spreadConstraints|
      ensures LabelSelectorAsSelector(merged[|pod.spreadConstraints| + i].labelSelector).Matches(q.labels) <==>
              ConstraintSelects(pod, keys, sc.spreadConstraints[i], true, q)
    {
      LineageSelectorMatches(pod, keys, q);
      SelectorMeaning(sc.spreadConstraints[i].labelSelector, q.labels);
    }
  }

  /** Of preferred node terms, all of the pod come first, then all of the class. */
  lemma MergedNodePreferences(pod: Pod, sc: SchedulingClass)
    ensures var own, ofClass := pod.preferredNodeAffinity, sc.preferredNodeAffinity;
            var merged := MergedNodeAffinity(pod, sc).preferred;
            && |merged| == |own| + |ofClass|
            && (forall i | 0 <= i < |own| :: merged[i] == own[i])
            && (forall i | 0 <= i < |ofClass| :: merged[|own| + i] == ofClass[i])
  {
  }
}
