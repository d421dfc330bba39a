/** Topology spread on the constraints as they are written: which of them bind a
    pod, what each of them counts, and the verdict of the filter. */
module SpreadWritten {
  import opened Labels
  import opened Cluster
  import opened CriticalPaths
  import opened Merger
  import NodeAffinity
  import opened NodeSelectors
  import opened SpreadCommon
  import opened SpreadDefs
  import opened SpreadFilter
  import opened SpreadPlugin
  import opened SpreadRefinement
  import opened Sums

  datatype Origin = Own | OfClass | Default

  /** A written constraint that binds a pod. */
  datatype Bound = Bound(c: TopologySpreadConstraint, origin: Origin)

  function Bounds(cs: seq<TopologySpreadConstraint>, origin: Origin): seq<Bound> {
    seq(|cs|, i requires 0 <= i < |cs| => Bound(cs[i], origin))
  }

  function ForAction(action: UnsatisfiableAction): Bound -> bool {
    (b: Bound) => b.c.whenUnsatisfiable == action
  }

  /** A pod to be placed, with all that its constraints depend on. */
  datatype Asker = Asker(
    pod: Pod,
    schedulingClass: Option<SchedulingClass>,
    keys: seq<string>,
    defaults: seq<TopologySpreadConstraint>,
    ownerSelector: Selector,
    flags: Flags)
  {
    /** The pod's constraints, then those of its class; if there are none, the
        defaults, unless no selector of owners narrows them down. */
    function AllBounds(): seq<Bound> {
      var own := Bounds(pod.spreadConstraints, Own);
      var ofClass := if schedulingClass.Some? then Bounds(schedulingClass.value.spreadConstraints, OfClass) else [];
      if own != [] || ofClass != [] then own + ofClass
      else if ownerSelector.Empty() then []
      else Bounds(defaults, Default)
    }

    function Binding(action: UnsatisfiableAction): seq<Bound> {
      Filter(AllBounds(), ForAction(action))
    }

    function EnvOf(action: UnsatisfiableAction): Env {
      EnvFor(pod, schedulingClass, keys, defaults, ownerSelector, action, flags)
    }

    /** The match label keys that are in force and that the pod has. */
    predicate KeyInForce(b: Bound, k: string) {
      flags.matchLabelKeys && k in b.c.matchLabelKeys && k in pod.labels
    }

    /** What the constraint selects: by its own selector, a class constraint
        without one by lineage, a default one by the owners. */
    ghost predicate Selects(b: Bound, labels: Labels) {
      if b.origin.Default? then ownerSelector.Matches(labels)
      else
        && (forall k | KeyInForce(b, k) :: k in labels && labels[k] == pod.labels[k])
        && if b.c.labelSelector.Some? then SelectsLabels(b.c.labelSelector.value, labels)
           else b.origin.OfClass? && keys != [] &&
                forall k | k in keys :: k in pod.labels && k in labels && labels[k] == pod.labels[k]
    }

    /** The constraint selects whatever there is; then it counts nothing. */
    ghost predicate Indiscriminate(b: Bound) {
      && !b.origin.Default? && b.c.labelSelector == Some(LabelSelector(map[], {}))
      && forall k :: !KeyInForce(b, k)
    }
  }

  // ---- Parsed constraints are the written ones ----

  /** Field by field, and by what it selects, `k` is the written constraint. */
  ghost predicate Corresponds(a: Asker, k: Constraint, b: Bound) {
    && k.maxSkew == b.c.maxSkew && k.topologyKey == b.c.topologyKey
    && k.minDomains == (if b.c.minDomains.Some? then b.c.minDomains.value else 1)
    && (a.flags.inclusion ==>
          && (k.nodeAffinityPolicy.Honor? <==> b.c.nodeAffinityPolicy != Some(Ignore))
          && (k.nodeTaintsPolicy.Honor? <==> b.c.nodeTaintsPolicy == Some(Honor)))
    && (forall labels :: k.selector.Matches(labels) <==> a.Selects(b, labels))
    && (k.selector.Empty() <==> a.Indiscriminate(b))
  }

  ghost predicate AllCorrespond(a: Asker, ks: seq<Constraint>, bs: seq<Bound>) {
    |ks| == |bs| && forall i | 0 <= i < |ks| :: Corresponds(a, ks[i], bs[i])
  }

  /** The parsed selector of `c`, written for `b`, is empty if the
      written selector is and no match label key is in force. */
  lemma ParsedSelectorEmpty(a: Asker, c: TopologySpreadConstraint, b: Bound)
    requires c.matchLabelKeys == b.c.matchLabelKeys
    ensures ParsedSelector(c, a.pod.labels, a.flags.matchLabelKeys).Empty() <==>
            c.labelSelector == Some(LabelSelector(map[], {})) && forall k :: !a.KeyInForce(b, k)
  {
    var ml := MatchLabels(c.matchLabelKeys, a.pod.labels);
    SelectorMeaning(c.labelSelector, a.pod.labels);
    if k :| k in ml {
      assert In(k, {ml[k]}) in PairRequirements(ml);
      assert a.flags.matchLabelKeys ==> a.KeyInForce(b, k);
    }
    assert forall k | a.KeyInForce(b, k) :: k in ml;
  }

  lemma OwnCorresponds(a: Asker, c: TopologySpreadConstraint)
    ensures Corresponds(a, Parsed(c, a.pod.labels, a.flags.matchLabelKeys, a.flags.inclusion), Bound(c, Own))
  {
    forall labels
      ensures ParsedSelector(c, a.pod.labels, a.flags.matchLabelKeys).Matches(labels) <==>
              a.Selects(Bound(c, Own), labels)
    {
      ParsedSelectorMatches(c, a.pod.labels, a.flags.matchLabelKeys, labels);
    }
    ParsedSelectorEmpty(a, c, Bound(c, Own));
  }

  lemma OfClassCorresponds(a: Asker, c: TopologySpreadConstraint)
    ensures Corresponds(a, ParsedForPod(a.pod, c, a.keys, a.flags), Bound(c, OfClass))
  {
    var d := DefaultedConstraint(c, LineageSelector(a.pod, a.keys));
    forall labels
      ensures ParsedSelector(d, a.pod.labels, a.flags.matchLabelKeys).Matches(labels) <==>
              a.Selects(Bound(c, OfClass), labels)
    {
      var q := a.pod.(labels := labels);
      ParsedSelectorMatches(d, a.pod.labels, a.flags.matchLabelKeys, labels);
      LineageSelectorMatches(a.pod, a.keys, q);
      SelectorMeaning(d.labelSelector, labels);
    }
    ParsedSelectorEmpty(a, d, Bound(c, OfClass));
    if c.labelSelector.None? && d.labelSelector.Some? {
      assert a.keys[0] in d.labelSelector.value.matchLabels;
    }
  }

  lemma {:induction false} ParsedCorrespond(a: Asker, raw: seq<TopologySpreadConstraint>, bs: seq<Bound>,
      action: UnsatisfiableAction)
    requires |raw| == |bs|
    requires forall i | 0 <= i < |raw| ::
      && raw[i].whenUnsatisfiable == bs[i].c.whenUnsatisfiable
      && Corresponds(a, Parsed(raw[i], a.pod.labels, a.flags.matchLabelKeys, a.flags.inclusion), bs[i])
    ensures AllCorrespond(a, ParsedConstraints(raw, a.pod.labels, action, a.flags.matchLabelKeys, a.flags.inclusion),
                          Filter(bs, ForAction(action)))
  {
    if raw != [] {
      ParsedCorrespond(a, raw[..|raw| - 1], bs[..|bs| - 1], action);
    }
  }

  lemma {:induction false} DefaultsCorrespond(a: Asker, defaults: seq<TopologySpreadConstraint>,
      action: UnsatisfiableAction)
    ensures var ks := ParsedConstraints(defaults, a.pod.labels, action, a.flags.matchLabelKeys, a.flags.inclusion);
            var bs := Filter(Bounds(defaults, Default), ForAction(action));
            && |ks| == |bs|
            && (!a.ownerSelector.Empty() ==>
                  forall i | 0 <= i < |ks| :: Corresponds(a, ks[i].(selector := a.ownerSelector), bs[i]))
  {
    if defaults != [] {
      DefaultsCorrespond(a, defaults[..|defaults| - 1], action);
      assert Bounds(defaults, Default)[..|defaults| - 1] == Bounds(defaults[..|defaults| - 1], Default);
    }
  }

  /** The constraints that the filter or scoring decides by are, in order, the
      written ones that bind the pod and ask for the action. */
  lemma ConstraintsAreWritten(a: Asker, action: UnsatisfiableAction)
    ensures AllCorrespond(a, a.EnvOf(action).constraints, a.Binding(action))
  {
    var raw, bs := WrittenConstraints(a.pod, a.schedulingClass, a.keys), a.AllBounds();
    if raw != [] {
      assert |raw| == |bs|;
      forall i | 0 <= i < |raw|
        ensures raw[i].whenUnsatisfiable == bs[i].c.whenUnsatisfiable
        ensures Corresponds(a, Parsed(raw[i], a.pod.labels, a.flags.matchLabelKeys, a.flags.inclusion), bs[i])
      {
        if i < |a.pod.spreadConstraints| {
          OwnCorresponds(a, raw[i]);
        } else {
          OfClassCorresponds(a, a.schedulingClass.value.spreadConstraints[i - |a.pod.spreadConstraints|]);
        }
      }
      ParsedCorrespond(a, raw, bs, action);
    } else {
      DefaultsCorrespond(a, a.defaults, action);
    }
  }

  // ---- What a written constraint counts, and the verdict ----

  /** The node bears the keys of all constraints that bind the pod. */
  ghost predicate Spanned(a: Asker, action: UnsatisfiableAction, node: Node) {
    forall b | b in a.Binding(action) :: b.c.topologyKey in node.labels
  }

  /** The constraint takes the node into account: by default if it is one that
      the pod's own node selector and required terms admit, whatever its taints. */
  ghost predicate Included(a: Asker, b: Bound, node: Node) {
    if a.flags.inclusion then
      && (b.c.nodeAffinityPolicy != Some(Ignore) ==> NodeAffinity.Asks(a.pod, None, node))
      && (b.c.nodeTaintsPolicy == Some(Honor) ==> !HasUntoleratedTaint(a.pod.tolerations, node.taints))
    else NodeAffinity.Asks(a.pod, None, node)
  }

  /** The constraint spreads over the node. */
  ghost predicate Covers(a: Asker, b: Bound, node: Node) {
    Spanned(a, DoNotSchedule, node) && Included(a, b, node) && b.c.topologyKey in node.labels
  }

  /** The constraint counts the pod. */
  ghost predicate Counts(a: Asker, b: Bound, q: Pod) {
    !q.terminating && q.namespace == a.pod.namespace && a.Selects(b, q.labels) && !a.Indiscriminate(b)
  }

  ghost function CountFn(a: Asker, b: Bound): PodInfo -> int {
    (p: PodInfo) => if Counts(a, b, p.pod) then 1 else 0
  }

  ghost function CountInFn(a: Asker, b: Bound, v: string): NodeInfo -> int {
    (ni: NodeInfo) =>
      if Covers(a, b, ni.node) && ni.node.labels[b.c.topologyKey] == v then Sum(ni.pods, CountFn(a, b)) else 0
  }

  /** The pods that the constraint counts in domain `v`. */
  ghost function CountIn(a: Asker, b: Bound, v: string, nodes: Snapshot): int {
    Sum(nodes, CountInFn(a, b, v))
  }

  /** The domains: the values of the key on the nodes spread over. */
  ghost function DomainsOf(a: Asker, b: Bound, nodes: Snapshot): set<string> {
    set k | 0 <= k < |nodes| && Covers(a, b, nodes[k].node) :: nodes[k].node.labels[b.c.topologyKey]
  }

  /** `m` is the minimum in force: 0 while there are fewer domains than asked for
      (1 if nothing is said), else the least count of a domain. */
  ghost predicate InForce(a: Asker, b: Bound, nodes: Snapshot, m: int) {
    var domains := DomainsOf(a, b, nodes);
    if |domains| < (if b.c.minDomains.Some? then b.c.minDomains.value else 1) then m == 0
    else if domains == {} then m == MAX_INT32
    else
      && (forall v | v in domains :: m <= CountIn(a, b, v, nodes))
      && exists v | v in domains :: CountIn(a, b, v, nodes) == m
  }

  /** Placing the pod on the node keeps the skew of the constraint. */
  ghost predicate KeepsSkew(a: Asker, b: Bound, nodes: Snapshot, node: Node) {
    && b.c.topologyKey in node.labels
    && forall m | InForce(a, b, nodes, m) ::
         CountIn(a, b, node.labels[b.c.topologyKey], nodes) + (if a.Selects(b, a.pod.labels) then 1 else 0) - m
         <= b.c.maxSkew
  }

  lemma AsksAsProfile(a: Asker, node: Node)
    ensures RequiredMatches(ProfileOf(a.pod).nodeSelector, ProfileOf(a.pod).affinity, node) <==>
            NodeAffinity.Asks(a.pod, None, node)
  {
  }

  /** The constraint at position `i` and the written one speak of the same nodes. */
  lemma SameNodes(a: Asker, i: nat, node: Node)
    requires i < |a.EnvOf(DoNotSchedule).constraints|
    requires AllCorrespond(a, a.EnvOf(DoNotSchedule).constraints, a.Binding(DoNotSchedule))
    ensures var e, b := a.EnvOf(DoNotSchedule), a.Binding(DoNotSchedule)[i];
            Eligible(e, i, node) <==> Spanned(a, DoNotSchedule, node) && Included(a, b, node)
  {
    var e, bs := a.EnvOf(DoNotSchedule), a.Binding(DoNotSchedule);
    AsksAsProfile(a, node);
    assert Corresponds(a, e.constraints[i], bs[i]);
    assert NodeLabelsMatch(e.constraints, node.labels) <==> Spanned(a, DoNotSchedule, node) by {
      assert forall j | 0 <= j < |bs| :: Corresponds(a, e.constraints[j], bs[j]) && bs[j] in bs;
    }
  }

  lemma SamePods(a: Asker, k: Constraint, b: Bound, pods: seq<PodInfo>)
    requires Corresponds(a, k, b)
    ensures PodCount(pods, k.selector, a.pod.namespace) == Sum(pods, CountFn(a, b))
  {
    if k.selector.Empty() {
      SumPositive(pods, CountFn(a, b));
    } else {
      SumCongruent(pods, CountedFn(k.selector, a.pod.namespace), CountFn(a, b));
    }
  }

  lemma SameCounts(a: Asker, i: nat, v: string, nodes: Snapshot)
    requires i < |a.EnvOf(DoNotSchedule).constraints|
    requires AllCorrespond(a, a.EnvOf(DoNotSchedule).constraints, a.Binding(DoNotSchedule))
    ensures DomainCount(a.EnvOf(DoNotSchedule), i, v, nodes) == CountIn(a, a.Binding(DoNotSchedule)[i], v, nodes)
  {
    var e, b := a.EnvOf(DoNotSchedule), a.Binding(DoNotSchedule)[i];
    forall k | 0 <= k < |nodes| ensures NodeShareFn(e, i, v)(nodes[k]) == CountInFn(a, b, v)(nodes[k]) {
      SameNodes(a, i, nodes[k].node);
      SamePods(a, e.constraints[i], b, nodes[k].pods);
    }
    SumCongruent(nodes, NodeShareFn(e, i, v), CountInFn(a, b, v));
  }

  lemma SameDomains(a: Asker, i: nat, nodes: Snapshot)
    requires i < |a.EnvOf(DoNotSchedule).constraints|
    requires AllCorrespond(a, a.EnvOf(DoNotSchedule).constraints, a.Binding(DoNotSchedule))
    ensures Domains(a.EnvOf(DoNotSchedule), i, nodes) == DomainsOf(a, a.Binding(DoNotSchedule)[i], nodes)
  {
    var e, b := a.EnvOf(DoNotSchedule), a.Binding(DoNotSchedule)[i];
    assert Corresponds(a, e.constraints[i], b);
    forall k | 0 <= k < |nodes| ensures Eligible(e, i, nodes[k].node) <==> Covers(a, b, nodes[k].node) {
      SameNodes(a, i, nodes[k].node);
    }
  }

  lemma MinimumInForce(a: Asker, b: Bound, nodes: Snapshot, counts: Counts, m: int)
    requires counts.Keys == DomainsOf(a, b, nodes) && forall v | v in counts :: counts[v] == CountIn(a, b, v, nodes)
    ensures InForce(a, b, nodes, m) <==>
            m == if |counts| < (if b.c.minDomains.Some? then b.c.minDomains.value else 1) then 0 else MinOf(counts)
  {
    assert |counts| == |counts.Keys|;
    assert counts == map[] <==> DomainsOf(a, b, nodes) == {};
    if IsMinimum(counts, m) {
      MinimumIsUnique(counts, m, MinOf(counts));
    }
  }

  lemma SameMinimum(a: Asker, i: nat, nodes: Snapshot)
    requires i < |a.EnvOf(DoNotSchedule).constraints|
    requires AllCorrespond(a, a.EnvOf(DoNotSchedule).constraints, a.Binding(DoNotSchedule))
    ensures forall m ::
      InForce(a, a.Binding(DoNotSchedule)[i], nodes, m) <==> m == GlobalMin(a.EnvOf(DoNotSchedule), i, nodes)
  {
    var e, b := a.EnvOf(DoNotSchedule), a.Binding(DoNotSchedule)[i];
    var counts := CountMap(e, i, nodes);
    assert Corresponds(a, e.constraints[i], b);
    SameDomains(a, i, nodes);
    forall v | v in counts ensures counts[v] == CountIn(a, b, v, nodes) {
      SameCounts(a, i, v, nodes);
    }
    assert counts.Keys == Domains(e, i, nodes) && |counts| == |counts.Keys|;
    forall m ensures InForce(a, b, nodes, m) <==> m == GlobalMin(e, i, nodes) {
      MinimumInForce(a, b, nodes, counts, m);
    }
  }

  lemma SameSkew(a: Asker, i: nat, nodes: Snapshot, node: Node)
    requires i < |a.EnvOf(DoNotSchedule).constraints|
    requires AllCorrespond(a, a.EnvOf(DoNotSchedule).constraints, a.Binding(DoNotSchedule))
    ensures SkewOk(a.EnvOf(DoNotSchedule), i, nodes, a.pod.labels, node) <==>
            KeepsSkew(a, a.Binding(DoNotSchedule)[i], nodes, node)
  {
    var e, b := a.EnvOf(DoNotSchedule), a.Binding(DoNotSchedule)[i];
    assert Corresponds(a, e.constraints[i], b);
    if b.c.topologyKey in node.labels {
      var v := node.labels[b.c.topologyKey];
      SameCounts(a, i, v, nodes);
      SameMinimum(a, i, nodes);
      DomainCountBounds(e, i, v, nodes);
      assert InForce(a, b, nodes, GlobalMin(e, i, nodes));
    }
  }

  /** The verdict, from the pod, its class and the snapshot as written: the filter
      accepts a node exactly when every constraint that binds the pod and forbids
      finds its key there and keeps its skew. */
  lemma VerdictAsWritten(a: Asker, nodes: Snapshot, view: SpreadView, node: Node)
    requires Computed(a.EnvOf(DoNotSchedule), nodes, view) && TotalPods(nodes) < MAX_INT32
    ensures PassesAll(a.EnvOf(DoNotSchedule), view, a.pod.labels, node) <==>
            forall b | b in a.Binding(DoNotSchedule) :: KeepsSkew(a, b, nodes, node)
  {
    var e, bs := a.EnvOf(DoNotSchedule), a.Binding(DoNotSchedule);
    ConstraintsAreWritten(a, DoNotSchedule);
    ComputedVerdict(e, nodes, view, a.pod.labels, node);
    forall i | 0 <= i < |bs|
      ensures SkewOk(e, i, nodes, a.pod.labels, node) <==> KeepsSkew(a, bs[i], nodes, node)
    {
      SameSkew(a, i, nodes, node);
    }
  }
}
