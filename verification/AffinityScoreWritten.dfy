/** The inter-pod affinity score on the preferences that pods and classes are
    written with. */
module AffinityScoreWritten {
  import opened Labels
  import opened Cluster
  import opened Sums
  import opened AffinityDefs
  import opened AffinityScoring
  import opened AffinityVerdict
  import opened Merger
  import opened Namespaces

  // ---- What the terms between two pods weigh ----

  ghost function PreferredSum(terms: Option<PodTerms>, f: WeightedPodAffinityTerm -> int): int {
    if terms.Some? then Sum(terms.value.preferred, f) else 0
  }

  /** A preference of the applicant, or of its class, about existing pod `q`. */
  ghost function GainFn(a: Applicant, ofClass: bool, q: Pod, node: Node, target: Node,
      sign: int): WeightedPodAffinityTerm -> int {
    (w: WeightedPodAffinityTerm) =>
      if a.Means(Asked(w.term, ofClass), q) && SameDomain(node, target, w.term.topologyKey) then w.weight * sign else 0
  }

  /** A term of existing pod `q` about the applicant. */
  ghost predicate Concerns(a: Applicant, q: Pod, t: PodAffinityTerm, node: Node, target: Node) {
    && TermSelects(q, a.keys, t, false, a.pod, NamespaceLabels(a.lister, a.pod.namespace))
    && SameDomain(node, target, t.topologyKey)
  }

  ghost function ReturnFn(a: Applicant, q: Pod, node: Node, target: Node, sign: int): WeightedPodAffinityTerm -> int {
    (w: WeightedPodAffinityTerm) => if Concerns(a, q, w.term, node, target) then w.weight * sign else 0
  }

  ghost function HardFn(a: Applicant, weight: int, q: Pod, node: Node, target: Node): PodAffinityTerm -> int {
    (t: PodAffinityTerm) => if Concerns(a, q, t, node, target) then weight else 0
  }

  /** Affinity terms attract and anti-affinity terms repel; required affinity of
      the existing pod attracts with the configured weight, if it is positive. */
  ghost function Attraction(a: Applicant, hardWeight: int, node: Node, target: Node, q: Pod): int {
    PreferredSum(a.pod.podAffinity, GainFn(a, false, q, node, target, 1))
    + PreferredSum(a.pod.podAntiAffinity, GainFn(a, false, q, node, target, -1))
    + (if a.schedulingClass.Some? then
         PreferredSum(a.schedulingClass.value.podAffinity, GainFn(a, true, q, node, target, 1)) +
         PreferredSum(a.schedulingClass.value.podAntiAffinity, GainFn(a, true, q, node, target, -1))
       else 0)
    + PreferredSum(q.podAffinity, ReturnFn(a, q, node, target, 1))
    + PreferredSum(q.podAntiAffinity, ReturnFn(a, q, node, target, -1))
    + (if hardWeight > 0 && q.podAffinity.Some? then
         Sum(q.podAffinity.value.required, HardFn(a, hardWeight, q, node, target))
       else 0)
  }

  ghost function AttractionFn(a: Applicant, hardWeight: int, node: Node, target: Node): PodInfo -> int {
    (p: PodInfo) => Attraction(a, hardWeight, node, target, p.pod)
  }

  ghost function NodeAttractionFn(a: Applicant, hardWeight: int, target: Node): NodeInfo -> int {
    (ni: NodeInfo) => Sum(ni.pods, AttractionFn(a, hardWeight, ni.node, target))
  }

  /** The score of a node: what all existing pods add. */
  ghost function WrittenScore(a: Applicant, hardWeight: int, nodes: Snapshot, target: Node): int {
    Sum(nodes, NodeAttractionFn(a, hardWeight, target))
  }

  ghost predicate NeverOddly(a: Applicant, terms: Option<PodTerms>, ofClass: bool, q: Pod) {
    terms.Some? ==> forall w | w in terms.value.preferred :: !a.Oddly(Asked(w.term, ofClass), q)
  }

  /** No preference of the applicant or its class is odd for the pod. */
  ghost predicate NotOddly(a: Applicant, q: Pod) {
    && NeverOddly(a, a.pod.podAffinity, false, q) && NeverOddly(a, a.pod.podAntiAffinity, false, q)
    && NeverOddly(a, ClassAffinity(a), true, q) && NeverOddly(a, ClassAntiAffinity(a), true, q)
  }

  // ---- The parsed terms weigh as much ----

  function PreferredParse(a: Applicant, ws: seq<WeightedPodAffinityTerm>, ofClass: bool): seq<WeightedAffinityTerm> {
    GetWeightedTerms(a.pod, if ofClass then AllWeightedDefaulted(ws, LineageSelector(a.pod, a.keys)) else ws)
  }

  lemma ParsedGain(a: Applicant, terms: Option<PodTerms>, ofClass: bool, q: Pod, node: Node, target: Node, sign: int)
    requires NeverOddly(a, terms, ofClass, q)
    ensures TermsWeight(SharedWith(target, target.labels.Keys),
              UnrolledWeighted(PreferredParse(a, PreferredOf(terms), ofClass), a.lister), q, map[], node, sign)
            == PreferredSum(terms, GainFn(a, ofClass, q, node, target, sign))
  {
    var scope, ws := SharedWith(target, target.labels.Keys), PreferredOf(terms);
    var us := PreferredParse(a, ws, ofClass);
    forall i | 0 <= i < |ws|
      ensures !Odd(us[i].term, a.lister, q)
      ensures TermFn(scope, q, NamespaceLabels(a.lister, q.namespace), node, sign)(us[i]) ==
              GainFn(a, ofClass, q, node, target, sign)(ws[i])
    {
      assert ws[i] in ws && us[i] == WeightedAffinityTerm(ParseOf(a, Asked(ws[i].term, ofClass)), ws[i].weight);
      ParseMeans(a, Asked(ws[i].term, ofClass), q);
    }
    UnrolledTermsWeight(scope, us, a.lister, q, node, sign);
    SumAlongside(us, ws, TermFn(scope, q, NamespaceLabels(a.lister, q.namespace), node, sign),
      GainFn(a, ofClass, q, node, target, sign));
  }

  lemma ParsedReturn(a: Applicant, terms: Option<PodTerms>, q: Pod, node: Node, target: Node, sign: int)
    ensures TermsWeight(SharedWith(target, target.labels.Keys), GetWeightedTerms(q, PreferredOf(terms)), a.pod,
              NamespaceLabels(a.lister, a.pod.namespace), node, sign)
            == PreferredSum(terms, ReturnFn(a, q, node, target, sign))
  {
    var scope, ws := SharedWith(target, target.labels.Keys), PreferredOf(terms);
    var f := TermFn(scope, a.pod, NamespaceLabels(a.lister, a.pod.namespace), node, sign);
    forall i | 0 <= i < |ws| ensures f(GetWeightedTerms(q, ws)[i]) == ReturnFn(a, q, node, target, sign)(ws[i]) {
      DefaultedTermMatches(q, a.keys, ws[i].term, a.pod, NamespaceLabels(a.lister, a.pod.namespace));
    }
    SumAlongside(GetWeightedTerms(q, ws), ws, f, ReturnFn(a, q, node, target, sign));
  }

  lemma ParsedHard(a: Applicant, weight: int, q: Pod, node: Node, target: Node)
    ensures TermsWeight(SharedWith(target, target.labels.Keys), HardTerms(NewPodInfo(q), weight), a.pod,
              NamespaceLabels(a.lister, a.pod.namespace), node, 1)
            == if weight > 0 && q.podAffinity.Some? then
                 Sum(q.podAffinity.value.required, HardFn(a, weight, q, node, target))
               else 0
  {
    if weight > 0 && q.podAffinity.Some? {
      var ts := q.podAffinity.value.required;
      var scope, nsLabels := SharedWith(target, target.labels.Keys), NamespaceLabels(a.lister, a.pod.namespace);
      var f := TermFn(scope, a.pod, nsLabels, node, 1);
      forall i | 0 <= i < |ts|
        ensures f(HardTerms(NewPodInfo(q), weight)[i]) == HardFn(a, weight, q, node, target)(ts[i])
      {
        DefaultedTermMatches(q, a.keys, ts[i], a.pod, nsLabels);
      }
      SumAlongside(HardTerms(NewPodInfo(q), weight), ts, f, HardFn(a, weight, q, node, target));
    }
  }

  lemma UnrolledAppend(xs: seq<WeightedAffinityTerm>, ys: seq<WeightedAffinityTerm>, lister: Lister)
    ensures UnrolledWeighted(xs + ys, lister) == UnrolledWeighted(xs, lister) + UnrolledWeighted(ys, lister)
  {
  }

  /** The preferences that scoring goes by: the pod's own, then its class's. */
  lemma PreferencesAreWritten(a: Applicant, hardWeight: int)
    ensures var st := PreScoreInputOf(a.pod, a.schedulingClass, a.keys, a.lister, hardWeight);
            && st.preferredAffinity ==
               UnrolledWeighted(PreferredParse(a, PreferredOf(a.pod.podAffinity), false), a.lister) +
               UnrolledWeighted(PreferredParse(a, PreferredOf(ClassAffinity(a)), true), a.lister)
            && st.preferredAntiAffinity ==
               UnrolledWeighted(PreferredParse(a, PreferredOf(a.pod.podAntiAffinity), false), a.lister) +
               UnrolledWeighted(PreferredParse(a, PreferredOf(ClassAntiAffinity(a)), true), a.lister)
  {
    if a.schedulingClass.Some? {
      UnrolledAppend(PreferredParse(a, PreferredOf(a.pod.podAffinity), false),
        PreferredParse(a, PreferredOf(ClassAffinity(a)), true), a.lister);
      UnrolledAppend(PreferredParse(a, PreferredOf(a.pod.podAntiAffinity), false),
        PreferredParse(a, PreferredOf(ClassAntiAffinity(a)), true), a.lister);
    }
  }

  /** One list of the input weighs what the pod and its class prefer. */
  lemma ParsedPreferences(a: Applicant, ofPod: Option<PodTerms>, ofClass: Option<PodTerms>, q: Pod, node: Node,
      target: Node, sign: int)
    requires NeverOddly(a, ofPod, false, q) && NeverOddly(a, ofClass, true, q)
    ensures TermsWeight(SharedWith(target, target.labels.Keys),
              UnrolledWeighted(PreferredParse(a, PreferredOf(ofPod), false), a.lister) +
              UnrolledWeighted(PreferredParse(a, PreferredOf(ofClass), true), a.lister), q, map[], node, sign)
            == PreferredSum(ofPod, GainFn(a, false, q, node, target, sign)) +
               PreferredSum(ofClass, GainFn(a, true, q, node, target, sign))
  {
    ParsedGain(a, ofPod, false, q, node, target, sign);
    ParsedGain(a, ofClass, true, q, node, target, sign);
    SumAppend(UnrolledWeighted(PreferredParse(a, PreferredOf(ofPod), false), a.lister),
      UnrolledWeighted(PreferredParse(a, PreferredOf(ofClass), true), a.lister),
      TermFn(SharedWith(target, target.labels.Keys), q, map[], node, sign));
  }

  lemma ParsedAttraction(a: Applicant, hardWeight: int, node: Node, target: Node, p: PodInfo)
    requires p == NewPodInfo(p.pod) && NotOddly(a, p.pod)
    ensures PodWeight(SharedWith(target, target.labels.Keys),
              PreScoreInputOf(a.pod, a.schedulingClass, a.keys, a.lister, hardWeight), node, p)
            == Attraction(a, hardWeight, node, target, p.pod)
  {
    PreferencesAreWritten(a, hardWeight);
    ParsedPreferences(a, a.pod.podAffinity, ClassAffinity(a), p.pod, node, target, 1);
    ParsedPreferences(a, a.pod.podAntiAffinity, ClassAntiAffinity(a), p.pod, node, target, -1);
    ParsedHard(a, hardWeight, p.pod, node, target);
    ParsedReturn(a, p.pod.podAffinity, p.pod, node, target, 1);
    ParsedReturn(a, p.pod.podAntiAffinity, p.pod, node, target, -1);
  }

  /** The score as written: when nothing is odd, a node scores what the preferences
      of the pod, its class and the pods present, and their required affinity,
      weigh in the domains that the node shares. */
  lemma ScoreAsWritten(a: Applicant, hardWeight: int, nodes: Snapshot, target: Node)
    requires PodsParsed(nodes)
    requires forall i, j | Present(nodes, i, j) :: NotOddly(a, nodes[i].pods[j].pod)
    ensures DirectScore(PreScoreInputOf(a.pod, a.schedulingClass, a.keys, a.lister, hardWeight), nodes, target) ==
            WrittenScore(a, hardWeight, nodes, target)
  {
    var st := PreScoreInputOf(a.pod, a.schedulingClass, a.keys, a.lister, hardWeight);
    var scope := SharedWith(target, target.labels.Keys);
    forall i | 0 <= i < |nodes|
      ensures NodeWeightFn(scope, st)(nodes[i]) == NodeAttractionFn(a, hardWeight, target)(nodes[i])
    {
      var ni := nodes[i];
      forall j | 0 <= j < |ni.pods|
        ensures PodWeightFn(scope, st, ni.node)(ni.pods[j]) == AttractionFn(a, hardWeight, ni.node, target)(ni.pods[j])
      {
        assert ni in nodes && ni.pods[j] in ni.pods && Present(nodes, i, j);
        ParsedAttraction(a, hardWeight, ni.node, target, ni.pods[j]);
      }
      SumCongruent(ni.pods, PodWeightFn(scope, st, ni.node), AttractionFn(a, hardWeight, ni.node, target));
    }
    SumCongruent(nodes, NodeWeightFn(scope, st), NodeAttractionFn(a, hardWeight, target));
  }
}
