/** The spread of one application, whatever else its namespace holds: each of
    its pods is filtered by its own constraints, and these agree. */
module SpreadLineage {
  import opened Labels
  import opened Cluster
  import opened CriticalPaths
  import opened Merger
  import opened SpreadCommon
  import opened SpreadDefs
  import opened SpreadPlugin
  import opened SpreadRefinement
  import opened SpreadSafety
  import opened Sums

  /** The surroundings of a run: lineage label keys, the class and the owners'
      selector of every pod, default constraints and feature flags. */
  datatype Setting = Setting(
    keys: seq<string>,
    classOf: Pod -> Option<SchedulingClass>,
    ownersOf: Pod -> Selector,
    defaults: seq<TopologySpreadConstraint>,
    flags: Flags)
  {
    /** What the filter decides about `pod` by. */
    function EnvOf(pod: Pod): Env {
      EnvFor(pod, classOf(pod), keys, defaults, ownersOf(pod), DoNotSchedule, flags)
    }

    /** The constraints as written, before they are parsed. */
    function WrittenFor(pod: Pod): seq<TopologySpreadConstraint> {
      var raw := WrittenConstraints(pod, classOf(pod), keys);
      if raw != [] then raw else defaults
    }

    /** `q` is set up like `ref`: the same class, owners, node requirements and
        own constraints, and no match label key that `ref` lacks. */
    ghost predicate Siblings(ref: Pod, q: Pod) {
      && InGroup(keys, ref, q)
      && classOf(q) == classOf(ref) && ownersOf(q) == ownersOf(ref)
      && ProfileOf(q) == ProfileOf(ref) && q.spreadConstraints == ref.spreadConstraints
      && (flags.matchLabelKeys ==>
            forall c, k | c in WrittenFor(ref) && k in c.matchLabelKeys && k in q.labels :: k in ref.labels)
    }
  }

  // ---- Siblings are filtered alike ----

  /** The parse for a pod is that for the reference pod up to the selector, and
      the same altogether if the reference pod's selector selects the pod. */
  predicate Alike(ofRef: Constraint, ofPod: Constraint, podLabels: Labels) {
    && ofPod.(selector := ofRef.selector) == ofRef
    && (ofRef.selector.Matches(podLabels) ==> ofPod == ofRef)
  }

  lemma ParsedAlike(c: TopologySpreadConstraint, refLabels: Labels, podLabels: Labels, flags: Flags)
    requires flags.matchLabelKeys ==> forall k | k in c.matchLabelKeys && k in podLabels :: k in refLabels
    ensures Alike(Parsed(c, refLabels, flags.matchLabelKeys, flags.inclusion),
                  Parsed(c, podLabels, flags.matchLabelKeys, flags.inclusion), podLabels)
  {
    ParsedSelectorMatches(c, refLabels, flags.matchLabelKeys, podLabels);
    if flags.matchLabelKeys && Parsed(c, refLabels, true, flags.inclusion).selector.Matches(podLabels) {
      assert MatchLabels(c.matchLabelKeys, podLabels) == MatchLabels(c.matchLabelKeys, refLabels);
    }
  }

  lemma {:induction false} ParsedListsAlike(cs: seq<TopologySpreadConstraint>, refLabels: Labels, podLabels: Labels,
      action: UnsatisfiableAction, flags: Flags)
    requires flags.matchLabelKeys ==>
      forall c, k | c in cs && k in c.matchLabelKeys && k in podLabels :: k in refLabels
    ensures var a := ParsedConstraints(cs, refLabels, action, flags.matchLabelKeys, flags.inclusion);
            var b := ParsedConstraints(cs, podLabels, action, flags.matchLabelKeys, flags.inclusion);
            |a| == |b| && forall i | 0 <= i < |a| :: Alike(a[i], b[i], podLabels)
  {
    if cs != [] {
      ParsedListsAlike(cs[..|cs| - 1], refLabels, podLabels, action, flags);
      ParsedAlike(cs[|cs| - 1], refLabels, podLabels, flags);
    }
  }

  lemma SiblingsFilteredAlike(s: Setting, ref: Pod, q: Pod)
    requires CompleteLineage(ref, s.keys) && s.Siblings(ref, q)
    ensures var a, b := s.EnvOf(ref).constraints, s.EnvOf(q).constraints;
            |a| == |b| && forall i | 0 <= i < |a| :: Alike(a[i], b[i], q.labels)
  {
    GroupSharesSelector(s.keys, ref, q);
    assert s.WrittenFor(q) == s.WrittenFor(ref);
    ParsedListsAlike(s.WrittenFor(ref), ref.labels, q.labels, DoNotSchedule, s.flags);
  }

  /** A sibling accepted by its own constraints is accepted by those of the
      reference pod that select it. */
  lemma OwnVerdictCounts(s: Setting, ref: Pod, q: Pod, i: nat, nodes: Snapshot, node: Node)
    requires CompleteLineage(ref, s.keys) && s.Siblings(ref, q) && i < |s.EnvOf(ref).constraints|
    requires s.EnvOf(ref).constraints[i].selector.Matches(q.labels)
    requires Accepts(s.EnvOf(q), nodes, q.labels, node)
    ensures SkewOk(s.EnvOf(ref), i, nodes, q.labels, node)
  {
    SiblingsFilteredAlike(s, ref, q);
    SameConstraintSameSkew(s.EnvOf(ref), s.EnvOf(q), i, nodes, q.labels, node);
  }

  /** The environments agree on constraint `i` and on which nodes it spreads over. */
  ghost predicate AgreeAt(e: Env, e': Env, i: nat) {
    && e.inclusion == e'.inclusion && e.profile == e'.profile
    && i < |e.constraints| == |e'.constraints| && e.constraints[i] == e'.constraints[i]
    && forall j | 0 <= j < |e.constraints| :: e.constraints[j].topologyKey == e'.constraints[j].topologyKey
  }

  lemma SameConstraintSameCounts(e: Env, e': Env, i: nat, nodes: Snapshot)
    requires AgreeAt(e, e', i)
    ensures Domains(e, i, nodes) == Domains(e', i, nodes)
    ensures forall v :: DomainCount(e, i, v, nodes) == DomainCount(e', i, v, nodes)
  {
    assert forall n: Node :: NodeLabelsMatch(e.constraints, n.labels) <==> NodeLabelsMatch(e'.constraints, n.labels);
    assert forall n: Node :: Eligible(e, i, n) <==> Eligible(e', i, n);
    forall v ensures DomainCount(e, i, v, nodes) == DomainCount(e', i, v, nodes) {
      SumCongruent(nodes, NodeShareFn(e, i, v), NodeShareFn(e', i, v));
    }
  }

  lemma SameConstraintSameSkew(e: Env, e': Env, i: nat, nodes: Snapshot, podLabels: Labels, node: Node)
    requires AgreeAt(e, e', i)
    ensures SkewOk(e, i, nodes, podLabels, node) <==> SkewOk(e', i, nodes, podLabels, node)
  {
    SameConstraintSameCounts(e, e', i, nodes);
    assert CountMap(e, i, nodes) == CountMap(e', i, nodes);
  }

  // ---- Runs ----

  /** The filter passes the pod by the pod's own constraints, on a state computed
      from this snapshot. */
  ghost predicate FilterAccepts(s: Setting, p: Pod, nodes: Snapshot, node: Node) {
    exists view :: Computed(s.EnvOf(p), nodes, view) &&
      PassesAll(s.EnvOf(p), view, p.labels, node)
  }

  /** A step in the life of the application of `ref`: its pods are set up alike
      and pass the filter, all other pods go anywhere, and losses are harmless. */
  ghost predicate Governed(s: Setting, ref: Pod, i: nat, nodes: Snapshot, step: Step)
    requires i < |s.EnvOf(ref).constraints|
  {
    && step.Possible(nodes)
    && var p, node := step.PodOf(nodes).pod, nodes[step.k].node;
       if step.Place? then InGroup(s.keys, ref, p) ==> s.Siblings(ref, p) && FilterAccepts(s, p, nodes, node)
       else !Unbalances(s.EnvOf(ref), i, nodes, p, node)
  }

  ghost predicate GovernedRun(s: Setting, ref: Pod, i: nat, nodes: Snapshot, steps: seq<Step>)
    requires i < |s.EnvOf(ref).constraints|
    decreases |steps|
  {
    steps == [] || (Governed(s, ref, i, nodes, steps[0]) && GovernedRun(s, ref, i, steps[0].After(nodes), steps[1..]))
  }

  /** Constraint `i` of the pod counts pods of its application only. */
  ghost predicate CountsOnlyGroup(s: Setting, ref: Pod, i: nat)
    requires i < |s.EnvOf(ref).constraints|
  {
    forall q: Pod :: Counted(q, s.EnvOf(ref).constraints[i].selector, ref.namespace) ==> InGroup(s.keys, ref, q)
  }

  lemma GovernedStepIsSafe(s: Setting, ref: Pod, i: nat, nodes: Snapshot, step: Step)
    requires CompleteLineage(ref, s.keys) && i < |s.EnvOf(ref).constraints| && CountsOnlyGroup(s, ref, i)
    requires Governed(s, ref, i, nodes, step) && TotalPods(nodes) < MAX_INT32
    ensures SafeStep(s.EnvOf(ref), i, nodes, step)
  {
    var p, node := step.PodOf(nodes).pod, nodes[step.k].node;
    if step.Place? && CountedOn(s.EnvOf(ref), i, p, node) {
      assert Counted(p, s.EnvOf(ref).constraints[i].selector, ref.namespace);
      var view :| Computed(s.EnvOf(p), nodes, view) &&
        PassesAll(s.EnvOf(p), view, p.labels, node);
      ComputedVerdict(s.EnvOf(p), nodes, view, p.labels, node);
      OwnVerdictCounts(s, ref, p, i, nodes, node);
    }
  }

  lemma {:induction false} GovernedRunIsSafe(s: Setting, ref: Pod, i: nat, nodes: Snapshot, steps: seq<Step>)
    requires CompleteLineage(ref, s.keys) && i < |s.EnvOf(ref).constraints| && CountsOnlyGroup(s, ref, i)
    requires GovernedRun(s, ref, i, nodes, steps) && TotalPods(nodes) + |steps| < MAX_INT32
    ensures SafeRun(s.EnvOf(ref), i, nodes, steps)
    decreases |steps|
  {
    if steps != [] {
      GovernedStepIsSafe(s, ref, i, nodes, steps[0]);
      TotalPodsAfterStep(nodes, steps[0]);
      GovernedRunIsSafe(s, ref, i, steps[0].After(nodes), steps[1..]);
    }
  }

  /** The constraints of a class that name no pods count one application. */
  lemma DefaultedCountsOnlyGroup(s: Setting, sc: SchedulingClass, c: TopologySpreadConstraint, ref: Pod, i: nat)
    requires s.classOf(ref) == Some(sc) && c in sc.spreadConstraints && c.labelSelector.None?
    requires i < |s.EnvOf(ref).constraints| && s.EnvOf(ref).constraints[i] == ParsedForPod(ref, c, s.keys, s.flags)
    ensures CountsOnlyGroup(s, ref, i)
  {
    forall q: Pod | Counted(q, s.EnvOf(ref).constraints[i].selector, ref.namespace) ensures InGroup(s.keys, ref, q) {
      DefaultedConstraintSpreadsLineage(ref, sc, s.keys, s.defaults, s.ownersOf(ref), s.flags, c, q);
    }
  }

  /** Lineage spread: a class constraint that names no pods spreads each
      application apart. Pods of the application, each filtered by its own
      constraints, keep every eligible domain within the skew of the minimum,
      whatever else is placed in the namespace, and in whatever order. */
  lemma LineageSpreadHolds(s: Setting, sc: SchedulingClass, c: TopologySpreadConstraint, ref: Pod, i: nat,
      nodes: Snapshot, steps: seq<Step>)
    requires s.classOf(ref) == Some(sc) && c in sc.spreadConstraints && c.labelSelector.None?
    requires CompleteLineage(ref, s.keys)
    requires i < |s.EnvOf(ref).constraints| && s.EnvOf(ref).constraints[i] == ParsedForPod(ref, c, s.keys, s.flags)
    requires BalancedAt(s.EnvOf(ref), i, nodes) && GovernedRun(s, ref, i, nodes, steps)
    requires TotalPods(nodes) + |steps| < MAX_INT32
    ensures PossibleRun(nodes, steps)
    ensures BalancedAt(s.EnvOf(ref), i, AfterSteps(nodes, steps)) && EvenAt(s.EnvOf(ref), i, AfterSteps(nodes, steps))
  {
    DefaultedCountsOnlyGroup(s, sc, c, ref, i);
    GovernedRunIsSafe(s, ref, i, nodes, steps);
    SafeRunStaysBalanced(s.EnvOf(ref), i, nodes, steps);
    BalancedIsEven(s.EnvOf(ref), i, AfterSteps(nodes, steps));
  }

  lemma BindingConstraintIsOfClass(s: Setting, sc: SchedulingClass, ref: Pod, i: nat)
      returns (c: TopologySpreadConstraint)
    requires s.classOf(ref) == Some(sc) && sc.spreadConstraints != [] && ref.spreadConstraints == []
    requires i < |s.EnvOf(ref).constraints|
    ensures c in sc.spreadConstraints && c.whenUnsatisfiable.DoNotSchedule?
    ensures s.EnvOf(ref).constraints[i] == ParsedForPod(ref, c, s.keys, s.flags)
  {
    var parsed := s.EnvOf(ref).constraints[i];
    ConstraintsOfPodAndClass(ref, sc, s.keys, s.defaults, s.ownersOf(ref), DoNotSchedule, s.flags, parsed);
    var n :| 0 <= n < |sc.spreadConstraints| && sc.spreadConstraints[n].whenUnsatisfiable == DoNotSchedule &&
      parsed == ParsedForPod(ref, sc.spreadConstraints[n], s.keys, s.flags);
    c := sc.spreadConstraints[n];
  }

  /** From empty nodes, for a class none of whose binding constraints names
      pods: every constraint that binds the application stays balanced. */
  lemma ApplicationStaysSpread(s: Setting, sc: SchedulingClass, ref: Pod, nodes: Snapshot, steps: seq<Step>)
    requires s.classOf(ref) == Some(sc) && sc.spreadConstraints != [] && ref.spreadConstraints == []
    requires forall c | c in sc.spreadConstraints && c.whenUnsatisfiable.DoNotSchedule? ::
               c.labelSelector.None? && c.maxSkew >= 0
    requires CompleteLineage(ref, s.keys)
    requires forall k | 0 <= k < |nodes| :: nodes[k].pods == []
    requires forall i | 0 <= i < |s.EnvOf(ref).constraints| :: GovernedRun(s, ref, i, nodes, steps)
    requires PossibleRun(nodes, steps) && |steps| < MAX_INT32
    ensures Balanced(s.EnvOf(ref), AfterSteps(nodes, steps))
  {
    var e := s.EnvOf(ref);
    EmptyHasNoPods(nodes);
    forall i | 0 <= i < |e.constraints| ensures BalancedAt(e, i, AfterSteps(nodes, steps)) {
      var c := BindingConstraintIsOfClass(s, sc, ref, i);
      EmptyIsBalanced(e, i, nodes);
      LineageSpreadHolds(s, sc, c, ref, i, nodes, steps);
    }
  }
}
