/** Constraint resolution and the queueing hints of the topology spread plugin:
    an event that is skipped cannot have changed any verdict of the filter. */
module SpreadPlugin {
  import opened Labels
  import opened Cluster
  import opened Hints
  import opened NodeSelectors
  import opened Sums
  import opened SpreadCommon
  import opened SpreadDefs
  import opened SpreadFilter
  import opened SpreadRefinement
  import Merger

  // ---- The constraints a pod is scheduled by ----

  datatype Flags = Flags(matchLabelKeys: bool, inclusion: bool)

  /** The default constraints, all on the selector of the pod's owners. */
  function BuildDefaultConstraints(defaults: seq<TopologySpreadConstraint>, ownerSelector: Selector, pod: Pod,
      action: UnsatisfiableAction, flags: Flags): seq<Constraint>
  {
    var cs := ParsedConstraints(defaults, pod.labels, action, flags.matchLabelKeys, flags.inclusion);
    if cs == [] || ownerSelector.Empty() then []
    else seq(|cs|, i requires 0 <= i < |cs| => cs[i].(selector := ownerSelector))
  }

  /** The constraints of the pod and its class as written. */
  function WrittenConstraints(pod: Pod, schedulingClass: Option<Merger.SchedulingClass>,
      keys: seq<string>): seq<TopologySpreadConstraint>
  {
    if schedulingClass.Some? then Merger.MergedSpreadConstraints(pod, schedulingClass.value, keys)
    else pod.spreadConstraints
  }

  /** The filter asks for the constraints that forbid (DoNotSchedule), scoring
      for those that only prefer (ScheduleAnyway). */
  function GetConstraints(pod: Pod, schedulingClass: Option<Merger.SchedulingClass>, keys: seq<string>,
      defaults: seq<TopologySpreadConstraint>, ownerSelector: Selector, action: UnsatisfiableAction,
      flags: Flags): seq<Constraint>
  {
    var raw := WrittenConstraints(pod, schedulingClass, keys);
    if |raw| > 0 then ParsedConstraints(raw, pod.labels, action, flags.matchLabelKeys, flags.inclusion)
    else BuildDefaultConstraints(defaults, ownerSelector, pod, action, flags)
  }

  /** What the filter (DoNotSchedule) or scoring (ScheduleAnyway) counts by. */
  function EnvFor(pod: Pod, schedulingClass: Option<Merger.SchedulingClass>, keys: seq<string>,
      defaults: seq<TopologySpreadConstraint>, ownerSelector: Selector, action: UnsatisfiableAction, flags: Flags): Env
  {
    Env(flags.inclusion, GetConstraints(pod, schedulingClass, keys, defaults, ownerSelector, action, flags),
        ProfileOf(pod))
  }

  /** PreFilter. There is no state exactly when no constraint binds the pod. */
  method PreFilter(pod: Pod, schedulingClass: Option<Merger.SchedulingClass>, keys: seq<string>,
      defaults: seq<TopologySpreadConstraint>, ownerSelector: Selector, flags: Flags, nodes: Snapshot)
    returns (s: PreFilterState?)
    ensures var e := EnvFor(pod, schedulingClass, keys, defaults, ownerSelector, DoNotSchedule, flags);
            && (s == null <==> e.constraints == [])
            && (s != null ==>
                  fresh(s) && s.Valid() && s.constraints == e.constraints && Computed(e, nodes, s.Value()))
  {
    var e := EnvFor(pod, schedulingClass, keys, defaults, ownerSelector, DoNotSchedule, flags);
    if |e.constraints| == 0 {
      return null;
    }
    s := CalPreFilterState(e, nodes);
  }

  /** `c` is the parse of a constraint in `cs` that asks for `action`. */
  ghost predicate HasParse(cs: seq<TopologySpreadConstraint>, podLabels: Labels, action: UnsatisfiableAction,
      flags: Flags, c: Constraint)
  {
    exists i :: 0 <= i < |cs| && cs[i].whenUnsatisfiable == action &&
      c == Parsed(cs[i], podLabels, flags.matchLabelKeys, flags.inclusion)
  }

  lemma HasParseInAppend(a: seq<TopologySpreadConstraint>, b: seq<TopologySpreadConstraint>, podLabels: Labels,
      action: UnsatisfiableAction, flags: Flags, c: Constraint)
    ensures HasParse(a + b, podLabels, action, flags, c) <==>
            HasParse(a, podLabels, action, flags, c) || HasParse(b, podLabels, action, flags, c)
  {
    assert forall i | 0 <= i < |a| :: (a + b)[i] == a[i];
    assert forall i | 0 <= i < |b| :: (a + b)[|a| + i] == b[i];
  }

  lemma {:induction false} ParsedConstraintsMembers(cs: seq<TopologySpreadConstraint>, podLabels: Labels,
      action: UnsatisfiableAction, flags: Flags, c: Constraint)
    ensures c in ParsedConstraints(cs, podLabels, action, flags.matchLabelKeys, flags.inclusion) <==>
            HasParse(cs, podLabels, action, flags, c)
  {
    if cs != [] {
      var before, last := cs[..|cs| - 1], cs[|cs| - 1];
      ParsedConstraintsMembers(before, podLabels, action, flags, c);
      HasParseInAppend(before, [last], podLabels, action, flags, c);
      assert before + [last] == cs;
      assert HasParse([last], podLabels, action, flags, c) <==>
             && last.whenUnsatisfiable == action
             && c == Parsed(last, podLabels, flags.matchLabelKeys, flags.inclusion) by {
        assert [last][0] == last;
      }
    }
  }

  lemma DefaultConstraintsMembers(defaults: seq<TopologySpreadConstraint>, ownerSelector: Selector, pod: Pod,
      action: UnsatisfiableAction, flags: Flags, c: Constraint)
    ensures c in BuildDefaultConstraints(defaults, ownerSelector, pod, action, flags) <==>
            !ownerSelector.Empty() &&
            exists d :: HasParse(defaults, pod.labels, action, flags, d) && c == d.(selector := ownerSelector)
  {
    var parsed := ParsedConstraints(defaults, pod.labels, action, flags.matchLabelKeys, flags.inclusion);
    var built := BuildDefaultConstraints(defaults, ownerSelector, pod, action, flags);
    forall d ensures d in parsed <==> HasParse(defaults, pod.labels, action, flags, d) {
      ParsedConstraintsMembers(defaults, pod.labels, action, flags, d);
    }
    if c in built {
      var i :| 0 <= i < |built| && built[i] == c;
      assert parsed[i] in parsed && c == parsed[i].(selector := ownerSelector);
    }
    forall d | d in parsed && !ownerSelector.Empty() ensures d.(selector := ownerSelector) in built {
      var i :| 0 <= i < |parsed| && parsed[i] == d;
      assert built[i] == d.(selector := ownerSelector);
    }
  }

  /** `c` is the parse of a class constraint whose selector, if absent, has been
      filled in for the pod. */
  ghost predicate HasDefaultedParse(pod: Pod, sc: Merger.SchedulingClass, keys: seq<string>,
      action: UnsatisfiableAction, flags: Flags, c: Constraint)
  {
    exists i :: 0 <= i < |sc.spreadConstraints| && sc.spreadConstraints[i].whenUnsatisfiable == action &&
      c == ParsedForPod(pod, sc.spreadConstraints[i], keys, flags)
  }

  /** A class constraint as the pod is bound by it. */
  function ParsedForPod(pod: Pod, c: TopologySpreadConstraint, keys: seq<string>, flags: Flags): Constraint {
    Parsed(Merger.DefaultedConstraint(c, Merger.LineageSelector(pod, keys)), pod.labels, flags.matchLabelKeys,
           flags.inclusion)
  }

  /** A pod with a class is bound by exactly its own constraints and those of the
      class with absent selectors filled in, as far as they ask for the action;
      if there are none at all, by the default constraints on its owners, unless
      their selector is empty. */
  lemma ConstraintsOfPodAndClass(pod: Pod, sc: Merger.SchedulingClass, keys: seq<string>,
      defaults: seq<TopologySpreadConstraint>, ownerSelector: Selector, action: UnsatisfiableAction, flags: Flags,
      c: Constraint)
    ensures c in GetConstraints(pod, Some(sc), keys, defaults, ownerSelector, action, flags) <==>
            if pod.spreadConstraints != [] || sc.spreadConstraints != [] then
              || HasParse(pod.spreadConstraints, pod.labels, action, flags, c)
              || HasDefaultedParse(pod, sc, keys, action, flags, c)
            else
              && !ownerSelector.Empty()
              && exists d :: HasParse(defaults, pod.labels, action, flags, d) && c == d.(selector := ownerSelector)
  {
    var d := Merger.LineageSelector(pod, keys);
    var ofClass := Merger.AllConstraintsDefaulted(sc.spreadConstraints, d);
    if pod.spreadConstraints == [] && sc.spreadConstraints == [] {
      DefaultConstraintsMembers(defaults, ownerSelector, pod, action, flags, c);
    } else {
      ParsedConstraintsMembers(pod.spreadConstraints + ofClass, pod.labels, action, flags, c);
      HasParseInAppend(pod.spreadConstraints, ofClass, pod.labels, action, flags, c);
      assert forall i | 0 <= i < |ofClass| :: ofClass[i] == Merger.DefaultedConstraint(sc.spreadConstraints[i], d);
    }
  }

  /** A class constraint without a selector spreads the pods of the pod's own
      application: it is among the constraints the pod is filtered by, and it
      counts exactly the pods that share its complete lineage and agree on the
      match label keys it has. */
  lemma DefaultedConstraintSpreadsLineage(pod: Pod, sc: Merger.SchedulingClass, keys: seq<string>,
      defaults: seq<TopologySpreadConstraint>, ownerSelector: Selector, flags: Flags, c: TopologySpreadConstraint,
      q: Pod)
    requires c in sc.spreadConstraints && c.labelSelector.None?
    ensures var parsed := ParsedForPod(pod, c, keys, flags);
            && parsed in GetConstraints(pod, Some(sc), keys, defaults, ownerSelector, c.whenUnsatisfiable, flags)
            && !parsed.selector.Empty()
            && (parsed.selector.Matches(q.labels) <==>
                && Merger.CompleteLineage(pod, keys) && Merger.SameLineage(keys, pod, q)
                && (flags.matchLabelKeys ==> forall k | k in c.matchLabelKeys && k in pod.labels ::
                      k in q.labels && q.labels[k] == pod.labels[k]))
  {
    var d := Merger.LineageSelector(pod, keys);
    assert HasDefaultedParse(pod, sc, keys, c.whenUnsatisfiable, flags, ParsedForPod(pod, c, keys, flags));
    ConstraintsOfPodAndClass(pod, sc, keys, defaults, ownerSelector, c.whenUnsatisfiable, flags,
      ParsedForPod(pod, c, keys, flags));
    ParsedSelectorMatches(Merger.DefaultedConstraint(c, d), pod.labels, flags.matchLabelKeys, q.labels);
    Merger.LineageSelectorMatches(pod, keys, q);
    if d.Some? {
      assert keys[0] in d.value.matchLabels;
      assert In(keys[0], {d.value.matchLabels[keys[0]]}) in PairRequirements(d.value.matchLabels);
    }
  }

  // ---- Hints ----

  predicate InvolvedInTopologySpreading(incoming: Pod, target: Pod) {
    incoming.uid == target.uid || (incoming.nodeName != "" && incoming.namespace == target.namespace)
  }

  predicate HasConstraintWithNodeTaintsPolicyHonor(constraints: seq<Constraint>) {
    exists i | 0 <= i < |constraints| :: constraints[i].nodeTaintsPolicy.Honor?
  }

  predicate PodLabelsMatchSpreadConstraints(constraints: seq<Constraint>, labels: Labels) {
    exists i | 0 <= i < |constraints| :: constraints[i].selector.Matches(labels)
  }

  function IsSchedulableAfterPodChange(constraints: seq<Constraint>, target: Pod, change: Change<Pod>): Hint {
    if !change.ForAll((p: Pod) => InvolvedInTopologySpreading(p, target)) then QueueSkip
    else
      match change
      case Updated(original, modified) =>
        if target.uid == modified.uid && modified.tolerations != original.tolerations
           && HasConstraintWithNodeTaintsPolicyHonor(constraints) then Queue
        else if modified.labels == original.labels then QueueSkip
        else if exists i | 0 <= i < |constraints| ::
                  constraints[i].selector.Matches(original.labels) != constraints[i].selector.Matches(modified.labels)
        then Queue
        else QueueSkip
      case Added(modified) =>
        if PodLabelsMatchSpreadConstraints(constraints, modified.labels) then Queue else QueueSkip
      case Deleted(original) =>
        if PodLabelsMatchSpreadConstraints(constraints, original.labels) then Queue else QueueSkip
  }

  predicate CheckTopologyKeyLabelsChanged(original: Labels, modified: Labels, constraints: seq<Constraint>) {
    exists i | 0 <= i < |constraints| ::
      ValueOrEmpty(original, constraints[i].topologyKey) != ValueOrEmpty(modified, constraints[i].topologyKey)
  }

  function IsSchedulableAfterNodeChange(constraints: seq<Constraint>, change: Change<Node>): Hint {
    match change
    case Updated(original, modified) =>
      var originalMatching := NodeLabelsMatch(constraints, original.labels);
      var modifiedMatching := NodeLabelsMatch(constraints, modified.labels);
      if originalMatching != modifiedMatching then Queue
      else if modifiedMatching && (CheckTopologyKeyLabelsChanged(original.labels, modified.labels, constraints)
                                   || original.taints != modified.taints) then Queue
      else QueueSkip
    case Added(modified) => if NodeLabelsMatch(constraints, modified.labels) then Queue else QueueSkip
    case Deleted(original) => if NodeLabelsMatch(constraints, original.labels) then Queue else QueueSkip
  }

  // ---- Skipped events change nothing ----

  /** The counts, and with them the verdict on any node, are the same. */
  ghost predicate SameSpread(e: Env, nodes: Snapshot, nodes': Snapshot) {
    && (forall i | 0 <= i < |e.constraints| :: CountMap(e, i, nodes) == CountMap(e, i, nodes'))
    && (forall podLabels, node :: Accepts(e, nodes, podLabels, node) <==> Accepts(e, nodes', podLabels, node))
  }

  lemma SameCountsSameSpread(e: Env, nodes: Snapshot, nodes': Snapshot)
    requires forall i | 0 <= i < |e.constraints| :: CountMap(e, i, nodes) == CountMap(e, i, nodes')
    ensures SameSpread(e, nodes, nodes')
  {
    forall i | 0 <= i < |e.constraints|
      ensures Domains(e, i, nodes) == Domains(e, i, nodes')
      ensures GlobalMin(e, i, nodes) == GlobalMin(e, i, nodes')
    {
      assert CountMap(e, i, nodes).Keys == Domains(e, i, nodes) && CountMap(e, i, nodes').Keys == Domains(e, i, nodes');
    }
    forall i, podLabels, node | 0 <= i < |e.constraints|
      ensures SkewOk(e, i, nodes, podLabels, node) <==> SkewOk(e, i, nodes', podLabels, node)
    {
      var key := e.constraints[i].topologyKey;
      if key in node.labels && node.labels[key] in Domains(e, i, nodes) {
        var v := node.labels[key];
        assert CountMap(e, i, nodes)[v] == CountMap(e, i, nodes')[v];
      }
    }
  }

  lemma SamePodCountSameCounts(e: Env, i: nat, nodes: Snapshot, k: nat, pods: seq<PodInfo>)
    requires k < |nodes| && i < |e.constraints|
    requires PodCount(pods, e.constraints[i].selector, e.profile.namespace)
             == PodCount(nodes[k].pods, e.constraints[i].selector, e.profile.namespace)
    ensures CountMap(e, i, nodes) == CountMap(e, i, nodes[k := NodeInfo(nodes[k].node, pods)])
  {
    SameCountsIffSameDelta(e, i, nodes, k, pods);
  }

  /** Pods on node `k` changed, but every constraint counts as many as before. */
  lemma SameCountsOnNode(e: Env, nodes: Snapshot, k: nat, pods: seq<PodInfo>)
    requires k < |nodes|
    requires forall i | 0 <= i < |e.constraints| ::
               PodCount(pods, e.constraints[i].selector, e.profile.namespace)
               == PodCount(nodes[k].pods, e.constraints[i].selector, e.profile.namespace)
    ensures SameSpread(e, nodes, nodes[k := NodeInfo(nodes[k].node, pods)])
  {
    forall i | 0 <= i < |e.constraints|
      ensures CountMap(e, i, nodes) == CountMap(e, i, nodes[k := NodeInfo(nodes[k].node, pods)])
    {
      SamePodCountSameCounts(e, i, nodes, k, pods);
    }
    SameCountsSameSpread(e, nodes, nodes[k := NodeInfo(nodes[k].node, pods)]);
  }

  /** Pod updates: skipping is safe for an assigned pod other than the target
      that keeps its namespace and whether it is terminating. */
  lemma SkippedPodUpdateIsSafe(e: Env, target: Pod, nodes: Snapshot, k: nat, j: nat, p: PodInfo)
    requires k < |nodes| && j < |nodes[k].pods| && e.profile.namespace == target.namespace
    requires var q := nodes[k].pods[j].pod;
             && q.uid != target.uid && p.pod.uid == q.uid && q.nodeName != "" && p.pod.nodeName == q.nodeName
             && p.pod.namespace == q.namespace && p.pod.terminating == q.terminating
             && IsSchedulableAfterPodChange(e.constraints, target, Updated(q, p.pod)).QueueSkip?
    ensures SameSpread(e, nodes, nodes[k := NodeInfo(nodes[k].node, nodes[k].pods[j := p])])
  {
    var q := nodes[k].pods[j].pod;
    forall i | 0 <= i < |e.constraints|
      ensures PodCount(nodes[k].pods[j := p], e.constraints[i].selector, e.profile.namespace)
              == PodCount(nodes[k].pods, e.constraints[i].selector, e.profile.namespace)
    {
      assert Counted(p.pod, e.constraints[i].selector, e.profile.namespace)
             == Counted(q, e.constraints[i].selector, e.profile.namespace);
      PodCountOfReplaced(nodes[k].pods, j, p, e.constraints[i].selector, e.profile.namespace);
    }
    SameCountsOnNode(e, nodes, k, nodes[k].pods[j := p]);
  }

  lemma ReplacedPodCount(pods: seq<PodInfo>, j: nat, p: PodInfo, selector: Selector, ns: string)
    requires j < |pods| && p.pod.namespace == pods[j].pod.namespace
    requires p.pod.namespace == ns ==> selector.Matches(p.pod.labels) == selector.Matches(pods[j].pod.labels)
    ensures var d := PodCount(pods[j := p], selector, ns) - PodCount(pods, selector, ns);
            var q := pods[j].pod;
            d == if selector.Empty() || q.namespace != ns || !selector.Matches(q.labels) then 0
                 else if p.pod.terminating == q.terminating then 0
                 else if q.terminating then 1 else -1
  {
    PodCountOfReplaced(pods, j, p, selector, ns);
  }

  /** The proviso is exact: when a skipped update keeps the namespace, the
      counts of a constraint stay the same unless the pod was counted by it, or
      would be, but for its terminating flag, and that flag changed. */
  lemma SkippedPodUpdateExact(e: Env, i: nat, target: Pod, nodes: Snapshot, k: nat, j: nat, p: PodInfo)
    requires i < |e.constraints| && k < |nodes| && j < |nodes[k].pods| && e.profile.namespace == target.namespace
    requires var q := nodes[k].pods[j].pod;
             && q.uid != target.uid && p.pod.uid == q.uid && q.nodeName != "" && p.pod.nodeName == q.nodeName
             && p.pod.namespace == q.namespace
             && IsSchedulableAfterPodChange(e.constraints, target, Updated(q, p.pod)).QueueSkip?
    ensures var q := nodes[k].pods[j].pod;
            CountMap(e, i, nodes[k := NodeInfo(nodes[k].node, nodes[k].pods[j := p])]) == CountMap(e, i, nodes) <==>
            !(&& Moves(e, i, q, nodes[k].node) && !e.constraints[i].selector.Empty()
              && p.pod.terminating != q.terminating)
  {
    var q, c := nodes[k].pods[j].pod, e.constraints[i];
    var pods := nodes[k].pods[j := p];
    assert q.namespace == e.profile.namespace ==> c.selector.Matches(q.labels) == c.selector.Matches(p.pod.labels);
    ReplacedPodCount(nodes[k].pods, j, p, c.selector, e.profile.namespace);
    SameCountsIffSameDelta(e, i, nodes, k, pods);
  }

  lemma SkippedPodAddIsSafe(e: Env, target: Pod, nodes: Snapshot, k: nat, p: PodInfo)
    requires k < |nodes| && e.profile.namespace == target.namespace
    requires p.pod.nodeName != ""
    requires IsSchedulableAfterPodChange(e.constraints, target, Added(p.pod)).QueueSkip?
    ensures SameSpread(e, nodes, WithPod(nodes, k, p))
  {
    forall i | 0 <= i < |e.constraints|
      ensures PodCount(nodes[k].pods + [p], e.constraints[i].selector, e.profile.namespace)
              == PodCount(nodes[k].pods, e.constraints[i].selector, e.profile.namespace)
    {
      PodCountOfOneMore(nodes[k].pods, p, e.constraints[i].selector, e.profile.namespace);
    }
    SameCountsOnNode(e, nodes, k, nodes[k].pods + [p]);
  }

  lemma SkippedPodDeleteIsSafe(e: Env, target: Pod, nodes: Snapshot, k: nat, j: nat)
    requires k < |nodes| && j < |nodes[k].pods| && e.profile.namespace == target.namespace
    requires nodes[k].pods[j].pod.nodeName != ""
    requires IsSchedulableAfterPodChange(e.constraints, target, Deleted(nodes[k].pods[j].pod)).QueueSkip?
    ensures SameSpread(e, nodes, WithoutPod(nodes, k, j))
  {
    forall i | 0 <= i < |e.constraints|
      ensures PodCount(nodes[k].pods[..j] + nodes[k].pods[j + 1..], e.constraints[i].selector, e.profile.namespace)
              == PodCount(nodes[k].pods, e.constraints[i].selector, e.profile.namespace)
    {
      PodCountOfOneLess(nodes[k].pods, j, e.constraints[i].selector, e.profile.namespace);
    }
    SameCountsOnNode(e, nodes, k, nodes[k].pods[..j] + nodes[k].pods[j + 1..]);
  }

  /** A changed node looks the same to constraint `i`. */
  ghost predicate SameToSpread(e: Env, i: nat, a: Node, b: Node)
    requires i < |e.constraints|
  {
    && Eligible(e, i, a) == Eligible(e, i, b)
    && (Eligible(e, i, a) ==> a.labels[e.constraints[i].topologyKey] == b.labels[e.constraints[i].topologyKey])
  }

  lemma SameNodeSameCounts(e: Env, i: nat, nodes: Snapshot, k: nat, node: Node)
    requires k < |nodes| && i < |e.constraints| && SameToSpread(e, i, nodes[k].node, node)
    ensures CountMap(e, i, nodes) == CountMap(e, i, nodes[k := NodeInfo(node, nodes[k].pods)])
  {
    var nodes' := nodes[k := NodeInfo(node, nodes[k].pods)];
    var key := e.constraints[i].topologyKey;
    assert forall j | 0 <= j < |nodes| :: Eligible(e, i, nodes[j].node) == Eligible(e, i, nodes'[j].node);
    assert forall j | 0 <= j < |nodes| && Eligible(e, i, nodes[j].node) ::
      nodes[j].node.labels[key] == nodes'[j].node.labels[key];
    assert Domains(e, i, nodes) == Domains(e, i, nodes');
    forall v | v in Domains(e, i, nodes) ensures DomainCount(e, i, v, nodes) == DomainCount(e, i, v, nodes') {
      SumUpdate(nodes, k, nodes'[k], NodeShareFn(e, i, v));
    }
    SameDomainsSameCounts(e, i, nodes, nodes');
  }

  /** Two nodes with the same values of the topology keys, or both without some
      of them, are accepted alike. */
  lemma SameLabelsSameVerdict(e: Env, nodes: Snapshot, podLabels: Labels, a: Node, b: Node)
    requires NodeLabelsMatch(e.constraints, a.labels) == NodeLabelsMatch(e.constraints, b.labels)
    requires NodeLabelsMatch(e.constraints, b.labels) ==>
               !CheckTopologyKeyLabelsChanged(a.labels, b.labels, e.constraints)
    ensures Accepts(e, nodes, podLabels, a) <==> Accepts(e, nodes, podLabels, b)
  {
    if NodeLabelsMatch(e.constraints, b.labels) {
      forall i | 0 <= i < |e.constraints|
        ensures SkewOk(e, i, nodes, podLabels, a) <==> SkewOk(e, i, nodes, podLabels, b)
      {
        var key := e.constraints[i].topologyKey;
        assert ValueOrEmpty(a.labels, key) == ValueOrEmpty(b.labels, key);
        assert a.labels[key] == b.labels[key];
      }
    } else {
      var i :| 0 <= i < |e.constraints| && e.constraints[i].topologyKey !in a.labels;
      var j :| 0 <= j < |e.constraints| && e.constraints[j].topologyKey !in b.labels;
      assert !SkewOk(e, i, nodes, podLabels, a) && !SkewOk(e, j, nodes, podLabels, b);
    }
  }

  /** Node updates: skipping is safe for a node that keeps its match with the
      pod's required node affinity; the changed node itself is also accepted or
      rejected as before. */
  lemma SkippedNodeUpdateIsSafe(e: Env, nodes: Snapshot, k: nat, node: Node)
    requires k < |nodes|
    requires RequiredMatches(e.profile.nodeSelector, e.profile.affinity, nodes[k].node)
          == RequiredMatches(e.profile.nodeSelector, e.profile.affinity, node)
    requires IsSchedulableAfterNodeChange(e.constraints, Updated(nodes[k].node, node)).QueueSkip?
    ensures SameSpread(e, nodes, nodes[k := NodeInfo(node, nodes[k].pods)])
    ensures forall podLabels :: Accepts(e, nodes, podLabels, nodes[k].node) <==> Accepts(e, nodes, podLabels, node)
  {
    forall podLabels
      ensures Accepts(e, nodes, podLabels, nodes[k].node) <==> Accepts(e, nodes, podLabels, node)
    {
      SameLabelsSameVerdict(e, nodes, podLabels, nodes[k].node, node);
    }
    forall i | 0 <= i < |e.constraints|
      ensures CountMap(e, i, nodes) == CountMap(e, i, nodes[k := NodeInfo(node, nodes[k].pods)])
    {
      SameNodeSameCounts(e, i, nodes, k, node);
    }
    SameCountsSameSpread(e, nodes, nodes[k := NodeInfo(node, nodes[k].pods)]);
  }

  /** Another eligible node carries the value of node `k`'s domain. */
  ghost predicate DomainHasOther(e: Env, i: nat, nodes: Snapshot, k: nat, w: string)
    requires i < |e.constraints|
  {
    exists j :: 0 <= j < |nodes| && j != k && Eligible(e, i, nodes[j].node) &&
      nodes[j].node.labels[e.constraints[i].topologyKey] == w
  }

  lemma LostNodeDomainCount(e: Env, i: nat, v: string, nodes: Snapshot, k: nat, node: Node)
    requires k < |nodes| && i < |e.constraints| && Eligible(e, i, nodes[k].node) && !Eligible(e, i, node)
    ensures var c, pods := e.constraints[i], nodes[k].pods;
            DomainCount(e, i, v, nodes[k := NodeInfo(node, pods)]) ==
            DomainCount(e, i, v, nodes) -
            if v == nodes[k].node.labels[c.topologyKey] then PodCount(pods, c.selector, e.profile.namespace) else 0
  {
    SumUpdate(nodes, k, NodeInfo(node, nodes[k].pods), NodeShareFn(e, i, v));
  }

  /** A node that stops being eligible leaves the counts alone exactly when it
      holds no counted pods and its domain lives on. */
  lemma LostNodeCounts(e: Env, i: nat, nodes: Snapshot, k: nat, node: Node)
    requires k < |nodes| && i < |e.constraints| && Eligible(e, i, nodes[k].node) && !Eligible(e, i, node)
    ensures var c, pods := e.constraints[i], nodes[k].pods;
            CountMap(e, i, nodes) == CountMap(e, i, nodes[k := NodeInfo(node, pods)]) <==>
            && PodCount(pods, c.selector, e.profile.namespace) == 0
            && DomainHasOther(e, i, nodes, k, nodes[k].node.labels[c.topologyKey])
  {
    var nodes', w := nodes[k := NodeInfo(node, nodes[k].pods)], nodes[k].node.labels[e.constraints[i].topologyKey];
    var m, m' := CountMap(e, i, nodes), CountMap(e, i, nodes');
    LostNodeDomains(e, i, nodes, k, node);
    assert m.Keys == Domains(e, i, nodes) && m'.Keys == Domains(e, i, nodes');
    if w in m' {
      forall v | v in m ensures v in m' && m'[v] == DomainCount(e, i, v, nodes') {}
      forall v {
        LostNodeDomainCount(e, i, v, nodes, k, node);
      }
      assert m == m' <==> m[w] == m'[w];
    }
  }

  lemma LostNodeDomains(e: Env, i: nat, nodes: Snapshot, k: nat, node: Node)
    requires k < |nodes| && i < |e.constraints| && Eligible(e, i, nodes[k].node) && !Eligible(e, i, node)
    ensures var w := nodes[k].node.labels[e.constraints[i].topologyKey];
            var nodes' := nodes[k := NodeInfo(node, nodes[k].pods)];
            && w in Domains(e, i, nodes)
            && (w in Domains(e, i, nodes') <==> DomainHasOther(e, i, nodes, k, w))
            && forall v | v != w :: v in Domains(e, i, nodes') <==> v in Domains(e, i, nodes)
  {
    var key, nodes' := e.constraints[i].topologyKey, nodes[k := NodeInfo(node, nodes[k].pods)];
    forall j | 0 <= j < |nodes| && j != k && Eligible(e, i, nodes[j].node)
      ensures nodes[j].node.labels[key] in Domains(e, i, nodes')
    {
      assert nodes'[j] == nodes[j];
    }
    forall v | v in Domains(e, i, nodes')
      ensures exists j :: 0 <= j < |nodes| && j != k && Eligible(e, i, nodes[j].node) && nodes[j].node.labels[key] == v
    {
      var j :| 0 <= j < |nodes'| && Eligible(e, i, nodes'[j].node) && nodes'[j].node.labels[key] == v;
      assert nodes[j] == nodes'[j];
    }
  }

  /** The proviso is exact: a skipped node update leaves the counts of a
      constraint alone unless the node becomes or stops being eligible, which
      only its match with the required node affinity can bring about, and it
      holds counted pods or is the only eligible node of its domain. */
  lemma SkippedNodeUpdateExact(e: Env, i: nat, nodes: Snapshot, k: nat, node: Node)
    requires k < |nodes| && i < |e.constraints|
    requires IsSchedulableAfterNodeChange(e.constraints, Updated(nodes[k].node, node)).QueueSkip?
    ensures var c, pods := e.constraints[i], nodes[k].pods;
            CountMap(e, i, nodes) == CountMap(e, i, nodes[k := NodeInfo(node, pods)]) <==>
            !(&& Eligible(e, i, nodes[k].node) != Eligible(e, i, node)
              && (|| PodCount(pods, c.selector, e.profile.namespace) > 0
                  || !DomainHasOther(e, i, nodes, k, ValueOrEmpty(node.labels, c.topologyKey))))
    ensures Eligible(e, i, nodes[k].node) != Eligible(e, i, node) ==>
            RequiredMatches(e.profile.nodeSelector, e.profile.affinity, nodes[k].node)
            != RequiredMatches(e.profile.nodeSelector, e.profile.affinity, node)
  {
    var c, before, nodes' := e.constraints[i], nodes[k].node, nodes[k := NodeInfo(node, nodes[k].pods)];
    PodCountBounds(nodes[k].pods, c.selector, e.profile.namespace);
    if NodeLabelsMatch(e.constraints, node.labels) {
      assert ValueOrEmpty(before.labels, c.topologyKey) == ValueOrEmpty(node.labels, c.topologyKey);
    }
    if Eligible(e, i, before) && !Eligible(e, i, node) {
      LostNodeCounts(e, i, nodes, k, node);
    } else if !Eligible(e, i, before) && Eligible(e, i, node) {
      assert nodes'[k := NodeInfo(before, nodes'[k].pods)] == nodes;
      LostNodeCounts(e, i, nodes', k, before);
      assert forall j | 0 <= j < |nodes| && j != k :: nodes'[j] == nodes[j];
    } else {
      SameNodeSameCounts(e, i, nodes, k, node);
    }
  }

  lemma SkippedNodeAddIsSafe(e: Env, nodes: Snapshot, ni: NodeInfo)
    requires IsSchedulableAfterNodeChange(e.constraints, Added(ni.node)).QueueSkip?
    ensures SameSpread(e, nodes, nodes + [ni])
    ensures forall podLabels :: !Accepts(e, nodes, podLabels, ni.node)
  {
    var a :| 0 <= a < |e.constraints| && e.constraints[a].topologyKey !in ni.node.labels;
    forall podLabels ensures !Accepts(e, nodes, podLabels, ni.node) {
      assert !SkewOk(e, a, nodes, podLabels, ni.node);
    }
    forall i | 0 <= i < |e.constraints| ensures CountMap(e, i, nodes) == CountMap(e, i, nodes + [ni]) {
      assert (nodes + [ni])[..|nodes|] == nodes;
      CountMapOfOneMore(e, i, nodes + [ni]);
    }
    SameCountsSameSpread(e, nodes, nodes + [ni]);
  }

  lemma SkippedNodeDeleteIsSafe(e: Env, nodes: Snapshot, k: nat)
    requires k < |nodes|
    requires IsSchedulableAfterNodeChange(e.constraints, Deleted(nodes[k].node)).QueueSkip?
    ensures SameSpread(e, nodes, nodes[..k] + nodes[k + 1..])
  {
    var nodes' := nodes[..k] + nodes[k + 1..];
    forall i | 0 <= i < |e.constraints| ensures CountMap(e, i, nodes) == CountMap(e, i, nodes') {
      RemovedNodeDomains(e, i, nodes, k);
      forall v | v in Domains(e, i, nodes) ensures DomainCount(e, i, v, nodes) == DomainCount(e, i, v, nodes') {
        SumRemove(nodes, k, NodeShareFn(e, i, v));
      }
      SameDomainsSameCounts(e, i, nodes, nodes');
    }
    SameCountsSameSpread(e, nodes, nodes');
  }

  lemma RemovedNodeDomains(e: Env, i: nat, nodes: Snapshot, k: nat)
    requires k < |nodes| && i < |e.constraints| && !Eligible(e, i, nodes[k].node)
    ensures Domains(e, i, nodes) == Domains(e, i, nodes[..k] + nodes[k + 1..])
  {
    var nodes' := nodes[..k] + nodes[k + 1..];
    forall j | 0 <= j < |nodes| && Eligible(e, i, nodes[j].node)
      ensures nodes[j].node.labels[e.constraints[i].topologyKey] in Domains(e, i, nodes')
    {
      assert nodes'[if j < k then j else j - 1] == nodes[j];
    }
    forall j | 0 <= j < |nodes'| && Eligible(e, i, nodes'[j].node)
      ensures nodes'[j].node.labels[e.constraints[i].topologyKey] in Domains(e, i, nodes)
    {
      assert nodes[if j < k then j else j + 1] == nodes'[j];
    }
  }
}
