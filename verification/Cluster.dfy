/** The cluster snapshot the plugins read: pods with their API fields, nodes,
    and the pods assumed on every node. */
module Cluster {
  import opened Labels

  /** A node selector term ANDs its requirements; an empty term matches nothing. */
  datatype NodeSelectorTerm = NodeSelectorTerm(matchExpressions: seq<Requirement>, matchFields: seq<Requirement>)

  /** The terms of a node selector are ORed. */
  datatype NodeSelector = NodeSelector(terms: seq<NodeSelectorTerm>)

  datatype PreferredSchedulingTerm = PreferredSchedulingTerm(weight: int, preference: NodeSelectorTerm)

  datatype TaintEffect = NoSchedule | PreferNoSchedule | NoExecute

  datatype Taint = Taint(key: string, value: string, effect: TaintEffect)

  /** An empty key or an absent effect tolerates every key or effect. */
  datatype Toleration = Toleration(key: string, existsOp: bool, value: string, effect: Option<TaintEffect>) {
    predicate Tolerates(t: Taint) {
      && (effect.Some? ==> effect.value == t.effect)
      && (key != "" ==> key == t.key)
      && (existsOp || value == t.value)
    }
  }

  /** A toleration with a key, a value and an effect tolerates that one taint; what
      it leaves open, it tolerates all cases of. */
  lemma TolerationMeaning(key: string, existsOp: bool, value: string, effect: TaintEffect, t: Taint)
    ensures key != "" ==> (Toleration(key, false, value, Some(effect)).Tolerates(t) <==> t == Taint(key, value, effect))
    ensures Toleration(key, existsOp, value, None).Tolerates(t) <==>
            exists e :: Toleration(key, existsOp, value, Some(e)).Tolerates(t)
    ensures Toleration(key, true, value, Some(effect)).Tolerates(t) <==>
            exists v :: Toleration(key, false, v, Some(effect)).Tolerates(t)
    ensures t.key != "" ==> (Toleration("", existsOp, value, Some(effect)).Tolerates(t) <==>
                             exists k :: k != "" && Toleration(k, existsOp, value, Some(effect)).Tolerates(t))
  {
    if Toleration(key, existsOp, value, None).Tolerates(t) {
      assert Toleration(key, existsOp, value, Some(t.effect)).Tolerates(t);
    }
    if Toleration(key, true, value, Some(effect)).Tolerates(t) {
      assert Toleration(key, false, t.value, Some(effect)).Tolerates(t);
    }
    if t.key != "" && Toleration("", existsOp, value, Some(effect)).Tolerates(t) {
      assert Toleration(t.key, existsOp, value, Some(effect)).Tolerates(t);
    }
  }

  datatype PodAffinityTerm = PodAffinityTerm(
    labelSelector: Option<LabelSelector>,
    namespaces: set<string>,
    namespaceSelector: Option<LabelSelector>,
    topologyKey: string)

  datatype WeightedPodAffinityTerm = WeightedPodAffinityTerm(weight: int, term: PodAffinityTerm)

  /** Pod affinity or pod anti-affinity of a pod or of a SchedulingClass. */
  datatype PodTerms = PodTerms(required: seq<PodAffinityTerm>, preferred: seq<WeightedPodAffinityTerm>)

  datatype UnsatisfiableAction = DoNotSchedule | ScheduleAnyway

  datatype InclusionPolicy = Honor | Ignore

  datatype TopologySpreadConstraint = TopologySpreadConstraint(
    maxSkew: int,
    topologyKey: string,
    whenUnsatisfiable: UnsatisfiableAction,
    labelSelector: Option<LabelSelector>,
    minDomains: Option<int>,
    nodeAffinityPolicy: Option<InclusionPolicy>,
    nodeTaintsPolicy: Option<InclusionPolicy>,
    matchLabelKeys: seq<string>)

  datatype Pod = Pod(
    uid: string,
    namespace: string,
    labels: Labels,
    terminating: bool,
    nodeName: string,
    nodeSelector: Option<Labels>,
    requiredNodeAffinity: Option<NodeSelector>,
    preferredNodeAffinity: seq<PreferredSchedulingTerm>,
    tolerations: seq<Toleration>,
    podAffinity: Option<PodTerms>,
    podAntiAffinity: Option<PodTerms>,
    spreadConstraints: seq<TopologySpreadConstraint>)
  {
    /** The pairs the pod asks of its node; an absent selector asks for none. */
    function NodePairs(): Labels {
      if nodeSelector.Some? then nodeSelector.value else map[]
    }
  }

  /** A parsed affinity term of some pod. */
  datatype AffinityTerm = AffinityTerm(
    namespaces: set<string>,
    namespaceSelector: Selector,
    selector: Selector,
    topologyKey: string)
  {
    /** Whether the term selects `pod`, whose namespace has the labels `nsLabels`. */
    predicate Matches(pod: Pod, nsLabels: Labels) {
      && (pod.namespace in namespaces || namespaceSelector.Matches(nsLabels))
      && selector.Matches(pod.labels)
    }
  }

  datatype WeightedAffinityTerm = WeightedAffinityTerm(term: AffinityTerm, weight: int)

  datatype PodInfo = PodInfo(
    pod: Pod,
    requiredAffinityTerms: seq<AffinityTerm>,
    requiredAntiAffinityTerms: seq<AffinityTerm>,
    preferredAffinityTerms: seq<WeightedAffinityTerm>,
    preferredAntiAffinityTerms: seq<WeightedAffinityTerm>)

  datatype Node = Node(name: string, labels: Labels, taints: seq<Taint>)

  datatype NodeInfo = NodeInfo(node: Node, pods: seq<PodInfo>)

  type Snapshot = seq<NodeInfo>

  /** The snapshot with one more pod on node `k`. */
  function WithPod(nodes: Snapshot, k: nat, p: PodInfo): Snapshot
    requires k < |nodes|
  {
    nodes[k := NodeInfo(nodes[k].node, nodes[k].pods + [p])]
  }

  /** The snapshot without pod `j` of node `k`. */
  function WithoutPod(nodes: Snapshot, k: nat, j: nat): Snapshot
    requires k < |nodes| && j < |nodes[k].pods|
  {
    nodes[k := NodeInfo(nodes[k].node, nodes[k].pods[..j] + nodes[k].pods[j + 1..])]
  }

  // ---- Terms as parsed by the scheduling framework ----

  function ParseAffinityTerm(pod: Pod, t: PodAffinityTerm): AffinityTerm {
    AffinityTerm(
      if t.namespaces == {} && t.namespaceSelector.None? then {pod.namespace} else t.namespaces,
      LabelSelectorAsSelector(t.namespaceSelector),
      LabelSelectorAsSelector(t.labelSelector),
      t.topologyKey)
  }

  function GetAffinityTerms(pod: Pod, terms: seq<PodAffinityTerm>): seq<AffinityTerm> {
    seq(|terms|, i requires 0 <= i < |terms| => ParseAffinityTerm(pod, terms[i]))
  }

  function GetWeightedTerms(pod: Pod, terms: seq<WeightedPodAffinityTerm>): seq<WeightedAffinityTerm> {
    seq(|terms|, i requires 0 <= i < |terms| =>
      WeightedAffinityTerm(ParseAffinityTerm(pod, terms[i].term), terms[i].weight))
  }

  function RequiredOf(terms: Option<PodTerms>): seq<PodAffinityTerm> {
    if terms.Some? then terms.value.required else []
  }

  function PreferredOf(terms: Option<PodTerms>): seq<WeightedPodAffinityTerm> {
    if terms.Some? then terms.value.preferred else []
  }

  function NewPodInfo(pod: Pod): PodInfo {
    PodInfo(
      pod,
      GetAffinityTerms(pod, RequiredOf(pod.podAffinity)),
      GetAffinityTerms(pod, RequiredOf(pod.podAntiAffinity)),
      GetWeightedTerms(pod, PreferredOf(pod.podAffinity)),
      GetWeightedTerms(pod, PreferredOf(pod.podAntiAffinity)))
  }

  /** The pods in the snapshot carry the terms parsed from their own fields. */
  predicate PodsParsed(nodes: Snapshot) {
    forall ni, p | ni in nodes && p in ni.pods :: p == NewPodInfo(p.pod)
  }

  /** That holds of empty nodes, and placements and removals keep it. */
  lemma PodsStayParsed(nodes: Snapshot, k: nat, j: nat, pod: Pod)
    requires k < |nodes| && (PodsParsed(nodes) || forall ni | ni in nodes :: ni.pods == [])
    ensures PodsParsed(nodes) && PodsParsed(WithPod(nodes, k, NewPodInfo(pod)))
    ensures j < |nodes[k].pods| ==> PodsParsed(WithoutPod(nodes, k, j))
  {
    forall ni, p | ni in WithPod(nodes, k, NewPodInfo(pod)) && p in ni.pods ensures p == NewPodInfo(p.pod) {
      assert ni in nodes || ni.pods == nodes[k].pods + [NewPodInfo(pod)];
    }
    if j < |nodes[k].pods| {
      forall ni, p | ni in WithoutPod(nodes, k, j) && p in ni.pods ensures p == NewPodInfo(p.pod) {
        assert ni in nodes || ni.pods == nodes[k].pods[..j] + nodes[k].pods[j + 1..];
      }
    }
  }
}
