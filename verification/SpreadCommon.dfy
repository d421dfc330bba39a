/** Parsed topology spread constraints and what they count. */
module SpreadCommon {
  import opened Labels
  import opened Cluster
  import opened NodeSelectors
  import opened Sums

  datatype Constraint = Constraint(
    maxSkew: int,
    topologyKey: string,
    selector: Selector,
    minDomains: int,
    nodeAffinityPolicy: InclusionPolicy,
    nodeTaintsPolicy: InclusionPolicy)

  /** The fields of the incoming pod that decide which nodes and pods count. */
  datatype Profile = Profile(
    namespace: string,
    nodeSelector: Labels,
    affinity: Option<NodeSelector>,
    tolerations: seq<Toleration>)

  function ProfileOf(pod: Pod): Profile {
    Profile(pod.namespace, pod.NodePairs(), pod.requiredNodeAffinity, pod.tolerations)
  }

  /** What one scheduling attempt counts by; `inclusion` is the node inclusion
      policy feature flag. */
  datatype Env = Env(inclusion: bool, constraints: seq<Constraint>, profile: Profile)

  // ---- Parsing ----

  function MatchLabels(keys: seq<string>, podLabels: Labels): Labels {
    map k | k in keys && k in podLabels :: podLabels[k]
  }

  method CollectMatchLabels(keys: seq<string>, podLabels: Labels) returns (matchLabels: Labels)
    ensures matchLabels == MatchLabels(keys, podLabels)
  {
    matchLabels := map[];
    for j := 0 to |keys|
      invariant matchLabels == MatchLabels(keys[..j], podLabels)
    {
      if keys[j] in podLabels {
        matchLabels := matchLabels[keys[j] := podLabels[keys[j]]];
      }
    }
    assert keys[..|keys|] == keys;
  }

  function MergeLabelSet(matchLabels: Labels, s: Selector): Selector {
    if s.Nothing? then s else Requirements(PairRequirements(matchLabels) + s.reqs)
  }

  method MergeLabelSetWithSelector(matchLabels: Labels, s: Selector) returns (r: Selector)
    ensures r == MergeLabelSet(matchLabels, s)
  {
    if s.Nothing? {
      return s;
    }
    var reqs := PairRequirements(matchLabels);
    var rest := s.reqs;
    while rest != {}
      invariant rest <= s.reqs && reqs == PairRequirements(matchLabels) + (s.reqs - rest)
      decreases rest
    {
      var r :| r in rest;
      reqs := reqs + {r};
      rest := rest - {r};
    }
    r := Requirements(reqs);
  }

  function ParsedSelector(c: TopologySpreadConstraint, podLabels: Labels, matchLabelKeys: bool): Selector {
    var s := LabelSelectorAsSelector(c.labelSelector);
    var ml := MatchLabels(c.matchLabelKeys, podLabels);
    if matchLabelKeys && ml != map[] then MergeLabelSet(ml, s) else s
  }

  function Parsed(c: TopologySpreadConstraint, podLabels: Labels, matchLabelKeys: bool, inclusion: bool): Constraint {
    Constraint(
      c.maxSkew,
      c.topologyKey,
      ParsedSelector(c, podLabels, matchLabelKeys),
      if c.minDomains.Some? then c.minDomains.value else 1,
      if inclusion && c.nodeAffinityPolicy.Some? then c.nodeAffinityPolicy.value else Honor,
      if inclusion && c.nodeTaintsPolicy.Some? then c.nodeTaintsPolicy.value else Ignore)
  }

  function ParsedConstraints(cs: seq<TopologySpreadConstraint>, podLabels: Labels, action: UnsatisfiableAction,
      matchLabelKeys: bool, inclusion: bool): seq<Constraint>
  {
    if cs == [] then []
    else
      var c := cs[|cs| - 1];
      ParsedConstraints(cs[..|cs| - 1], podLabels, action, matchLabelKeys, inclusion) +
      if c.whenUnsatisfiable == action then [Parsed(c, podLabels, matchLabelKeys, inclusion)] else []
  }

  method FilterTopologySpreadConstraints(cs: seq<TopologySpreadConstraint>, podLabels: Labels,
      action: UnsatisfiableAction,
      matchLabelKeys: bool, inclusion: bool) returns (result: seq<Constraint>)
    ensures result == ParsedConstraints(cs, podLabels, action, matchLabelKeys, inclusion)
  {
    result := [];
    for i := 0 to |cs|
      invariant result == ParsedConstraints(cs[..i], podLabels, action, matchLabelKeys, inclusion)
    {
      var c := cs[i];
      assert cs[..i + 1][..i] == cs[..i];
      if c.whenUnsatisfiable == action {
        var selector := LabelSelectorAsSelector(c.labelSelector);
        if matchLabelKeys && |c.matchLabelKeys| > 0 {
          var matchLabels := CollectMatchLabels(c.matchLabelKeys, podLabels);
          if |matchLabels| > 0 {
            selector := MergeLabelSetWithSelector(matchLabels, selector);
          }
        }
        var tsc := Constraint(c.maxSkew, c.topologyKey, selector,
                              if c.minDomains.Some? then c.minDomains.value else 1, Honor, Ignore);
        if inclusion {
          if c.nodeAffinityPolicy.Some? {
            tsc := tsc.(nodeAffinityPolicy := c.nodeAffinityPolicy.value);
          }
          if c.nodeTaintsPolicy.Some? {
            tsc := tsc.(nodeTaintsPolicy := c.nodeTaintsPolicy.value);
          }
        }
        result := result + [tsc];
      }
    }
    assert cs[..|cs|] == cs;
  }

  /** A parsed selector selects what the written one selects, among the pods
      that agree with the incoming pod on the match label keys it has. */
  lemma ParsedSelectorMatches(c: TopologySpreadConstraint, podLabels: Labels, flag: bool, q: Labels)
    ensures ParsedSelector(c, podLabels, flag).Matches(q) <==>
            && c.labelSelector.Some? && SelectsLabels(c.labelSelector.value, q)
            && (flag ==> forall k | k in c.matchLabelKeys && k in podLabels :: k in q && q[k] == podLabels[k])
  {
    var ml := MatchLabels(c.matchLabelKeys, podLabels);
    SelectorMeaning(c.labelSelector, q);
    PairRequirementsMatch(ml, q);
    assert HasPairs(q, ml) <==> forall k | k in c.matchLabelKeys && k in podLabels :: k in q && q[k] == podLabels[k];
  }

  // ---- Eligible nodes ----

  predicate NodeLabelsMatch(constraints: seq<Constraint>, labels: Labels) {
    forall i | 0 <= i < |constraints| :: constraints[i].topologyKey in labels
  }

  predicate HasUntoleratedTaint(tolerations: seq<Toleration>, taints: seq<Taint>) {
    exists t | t in taints ::
      (t.effect.NoSchedule? || t.effect.NoExecute?) && forall o | o in tolerations :: !o.Tolerates(t)
  }

  /** A taint that only asks to prefer other nodes keeps no pod away; any other one
      does unless some toleration tolerates it, and one such taint is enough. */
  lemma TaintsMeaning(tolerations: seq<Toleration>, o: Toleration, taints: seq<Taint>, t: Taint)
    ensures !HasUntoleratedTaint(tolerations, [])
    ensures HasUntoleratedTaint(tolerations, taints + [t]) <==>
            HasUntoleratedTaint(tolerations, taints) || HasUntoleratedTaint(tolerations, [t])
    ensures HasUntoleratedTaint([], [t]) <==> t.effect != PreferNoSchedule
    ensures HasUntoleratedTaint(tolerations + [o], [t]) <==> HasUntoleratedTaint(tolerations, [t]) && !o.Tolerates(t)
  {
    assert [t][0] in [t];
  }

  predicate MatchNodeInclusionPolicies(c: Constraint, p: Profile, node: Node) {
    && (c.nodeAffinityPolicy.Honor? ==> RequiredMatches(p.nodeSelector, p.affinity, node))
    && (c.nodeTaintsPolicy.Honor? ==> !HasUntoleratedTaint(p.tolerations, node.taints))
  }

  /** Whether `node` is one of the nodes over which constraint `i` spreads. */
  predicate Eligible(e: Env, i: nat, node: Node)
    requires i < |e.constraints|
    ensures Eligible(e, i, node) ==> e.constraints[i].topologyKey in node.labels
  {
    && NodeLabelsMatch(e.constraints, node.labels)
    && if e.inclusion then MatchNodeInclusionPolicies(e.constraints[i], e.profile, node)
       else RequiredMatches(e.profile.nodeSelector, e.profile.affinity, node)
  }

  // ---- Counting pods ----

  predicate Counted(p: Pod, selector: Selector, ns: string) {
    !p.terminating && p.namespace == ns && selector.Matches(p.labels)
  }

  ghost function CountedFn(selector: Selector, ns: string): PodInfo -> int {
    (p: PodInfo) => if Counted(p.pod, selector, ns) then 1 else 0
  }

  /** An empty selector counts no pods here, although it matches all of them. */
  ghost function PodCount(pods: seq<PodInfo>, selector: Selector, ns: string): int {
    if selector.Empty() then 0 else Sum(pods, CountedFn(selector, ns))
  }

  method CountPodsMatchSelector(pods: seq<PodInfo>, selector: Selector, ns: string) returns (count: int)
    ensures count == PodCount(pods, selector, ns)
  {
    if selector.Empty() {
      return 0;
    }
    count := 0;
    for i := 0 to |pods|
      invariant count == Sum(pods[..i], CountedFn(selector, ns))
    {
      assert pods[..i + 1][..i] == pods[..i];
      var p := pods[i].pod;
      if p.terminating || p.namespace != ns {
        continue;
      }
      if selector.Matches(p.labels) {
        count := count + 1;
      }
    }
    assert pods[..|pods|] == pods;
  }

  lemma PodCountBounds(pods: seq<PodInfo>, selector: Selector, ns: string)
    ensures 0 <= PodCount(pods, selector, ns) <= |pods|
  {
    SumPositive(pods, CountedFn(selector, ns));
    SumOfOnes(pods, CountedFn(selector, ns));
  }

  lemma {:induction false} SumOfOnes(pods: seq<PodInfo>, f: PodInfo -> int)
    requires forall p | p in pods :: f(p) <= 1
    ensures Sum(pods, f) <= |pods|
  {
    if pods != [] {
      SumOfOnes(pods[..|pods| - 1], f);
    }
  }
}
