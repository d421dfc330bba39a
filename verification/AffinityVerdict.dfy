/** The inter-pod affinity verdict on the terms that pods and classes are written
    with. */
module AffinityVerdict {
  import opened Labels
  import opened Cluster
  import opened AffinityDefs
  import opened AffinityFilter
  import opened AffinityWritten
  import opened Namespaces
  import opened Merger

  /** A written term of the pod or of its class. */
  datatype Asked = Asked(t: PodAffinityTerm, ofClass: bool)

  /** A pod to be placed, with all that its terms depend on. */
  datatype Applicant = Applicant(
    pod: Pod,
    schedulingClass: Option<SchedulingClass>,
    keys: seq<string>,
    lister: Lister)
  {
    ghost predicate WantsNear(x: Asked) {
      if x.ofClass then
        && schedulingClass.Some? && schedulingClass.value.podAffinity.Some?
        && x.t in schedulingClass.value.podAffinity.value.required
      else pod.podAffinity.Some? && x.t in pod.podAffinity.value.required
    }

    ghost predicate WantsApart(x: Asked) {
      if x.ofClass then
        && schedulingClass.Some? && schedulingClass.value.podAntiAffinity.Some?
        && x.t in schedulingClass.value.podAntiAffinity.value.required
      else pod.podAntiAffinity.Some? && x.t in pod.podAntiAffinity.value.required
    }

    /** The term selects `q`, by the labels of the namespace of `q`. */
    ghost predicate Means(x: Asked, q: Pod) {
      TermSelects(pod, keys, x.t, x.ofClass, q, NamespaceLabels(lister, q.namespace))
    }

    /** `q` is company as all affinity terms ask for. */
    ghost predicate WantsBeside(q: Pod) {
      (exists x :: WantsNear(x)) && forall x | WantsNear(x) :: Means(x, q)
    }

    /** The lister does not know the namespace of `q`, and the term would take `q`
        only because its namespace selector accepts no labels. */
    ghost predicate Oddly(x: Asked, q: Pod) {
      && q.namespace !in lister && q.namespace !in x.t.namespaces
      && x.t.namespaceSelector.Some? && x.t.namespaceSelector != Some(LabelSelector(map[], {}))
      && Means(x, q)
    }
  }

  // ---- The verdict ----

  /** A required anti-affinity term of an existing pod is against the applicant. */
  ghost predicate Unwelcome(a: Applicant, nodes: Snapshot, target: Node) {
    exists i, j, t :: Present(nodes, i, j) && nodes[i].pods[j].pod.podAntiAffinity.Some? &&
      t in nodes[i].pods[j].pod.podAntiAffinity.value.required &&
      TermSelects(nodes[i].pods[j].pod, a.keys, t, false, a.pod, NamespaceLabels(a.lister, a.pod.namespace)) &&
      SameDomain(nodes[i].node, target, t.topologyKey)
  }

  ghost predicate Unwilling(a: Applicant, nodes: Snapshot, target: Node) {
    exists i, j, x :: Present(nodes, i, j) && a.WantsApart(x) && a.Means(x, nodes[i].pods[j].pod) &&
      SameDomain(nodes[i].node, target, x.t.topologyKey)
  }

  ghost predicate InCompany(a: Applicant, nodes: Snapshot, target: Node, key: string) {
    exists i, j :: Present(nodes, i, j) && a.WantsBeside(nodes[i].pods[j].pod) &&
      SameDomain(nodes[i].node, target, key)
  }

  /** There is company on some node that bears a required key. */
  ghost predicate CompanyExists(a: Applicant, nodes: Snapshot) {
    exists i, j, x :: Present(nodes, i, j) && a.WantsBeside(nodes[i].pods[j].pod) && a.WantsNear(x) &&
      x.t.topologyKey in nodes[i].node.labels
  }

  /** The target bears the required keys, and either holds company in each of
      their domains, or there is no company and the applicant is its own. */
  ghost predicate Gathered(a: Applicant, nodes: Snapshot, target: Node) {
    && (forall x | a.WantsNear(x) :: x.t.topologyKey in target.labels)
    && (|| (forall x | a.WantsNear(x) :: InCompany(a, nodes, target, x.t.topologyKey))
        || (!CompanyExists(a, nodes) && a.WantsBeside(a.pod)))
  }

  ghost predicate Suits(a: Applicant, nodes: Snapshot, target: Node) {
    Gathered(a, nodes, target) && !Unwilling(a, nodes, target) && !Unwelcome(a, nodes, target)
  }

  ghost predicate NothingOddly(a: Applicant, nodes: Snapshot) {
    && (forall i, j, x | Present(nodes, i, j) && (a.WantsNear(x) || a.WantsApart(x)) ::
          !a.Oddly(x, nodes[i].pods[j].pod))
    && forall x | a.WantsNear(x) :: !a.Oddly(x, a.pod)
  }

  // ---- Merged terms are the written ones ----

  function ParseOf(a: Applicant, x: Asked): AffinityTerm {
    ParseAffinityTerm(a.pod, if x.ofClass then Defaulted(x.t, LineageSelector(a.pod, a.keys)) else x.t)
  }

  lemma ParseMeans(a: Applicant, x: Asked, q: Pod)
    ensures ParseOf(a, x).topologyKey == x.t.topologyKey
    ensures Selects(ParseOf(a, x), a.lister, q) <==> a.Means(x, q)
    ensures Odd(ParseOf(a, x), a.lister, q) <==> a.Oddly(x, q)
  {
    DefaultedTermMatches(a.pod, a.keys, x.t, q, NamespaceLabels(a.lister, q.namespace));
    SelectorMeaning(x.t.namespaceSelector, map[]);
    SelectorMeaning(ParseLabels(a, x), q.labels);
  }

  function ParseLabels(a: Applicant, x: Asked): Option<LabelSelector> {
    if x.ofClass then Defaulted(x.t, LineageSelector(a.pod, a.keys)).labelSelector else x.t.labelSelector
  }

  function Own(ts: seq<PodAffinityTerm>): seq<Asked> {
    seq(|ts|, i requires 0 <= i < |ts| => Asked(ts[i], false))
  }

  function OfClass(ts: seq<PodAffinityTerm>): seq<Asked> {
    seq(|ts|, i requires 0 <= i < |ts| => Asked(ts[i], true))
  }

  /** `us` are the parses of `xs`, one by one. */
  ghost predicate Parses(a: Applicant, xs: seq<Asked>, us: seq<AffinityTerm>) {
    |us| == |xs| && forall i | 0 <= i < |xs| :: us[i] == ParseOf(a, xs[i])
  }

  /** What the applicant is written with: its own terms, then those of its class. */
  function AskedTerms(ofPod: Option<PodTerms>, ofClass: Option<PodTerms>): seq<Asked> {
    (if ofPod.Some? then Own(ofPod.value.required) else []) +
    (if ofClass.Some? then OfClass(ofClass.value.required) else [])
  }

  function ClassAffinity(a: Applicant): Option<PodTerms> {
    if a.schedulingClass.Some? then a.schedulingClass.value.podAffinity else None
  }

  function ClassAntiAffinity(a: Applicant): Option<PodTerms> {
    if a.schedulingClass.Some? then a.schedulingClass.value.podAntiAffinity else None
  }

  /** The required terms that the filter goes by are the parses of the pod's own
      terms and then of its class's, all of them and in order. */
  lemma RequiredTermsAreWritten(a: Applicant)
    ensures var us := RequiredTerms(a.pod, a.schedulingClass, a.keys);
            && Parses(a, AskedTerms(a.pod.podAffinity, ClassAffinity(a)), us.0)
            && Parses(a, AskedTerms(a.pod.podAntiAffinity, ClassAntiAffinity(a)), us.1)
  {
    AppendedParses(a, a.pod.podAffinity, ClassAffinity(a));
    AppendedParses(a, a.pod.podAntiAffinity, ClassAntiAffinity(a));
  }

  lemma AppendedParses(a: Applicant, ofPod: Option<PodTerms>, ofClass: Option<PodTerms>)
    ensures Parses(a, AskedTerms(ofPod, ofClass),
              GetAffinityTerms(a.pod, RequiredOf(ofPod)) +
              GetAffinityTerms(a.pod, AllDefaulted(RequiredOf(ofClass), LineageSelector(a.pod, a.keys))))
  {
  }

  lemma AskedExactly(a: Applicant)
    ensures forall x :: a.WantsNear(x) <==> x in AskedTerms(a.pod.podAffinity, ClassAffinity(a))
    ensures forall x :: a.WantsApart(x) <==> x in AskedTerms(a.pod.podAntiAffinity, ClassAntiAffinity(a))
  {
    forall x, ofPod, ofClass
      ensures x in AskedTerms(ofPod, ofClass) <==>
              if x.ofClass then ofClass.Some? && x.t in ofClass.value.required
              else ofPod.Some? && x.t in ofPod.value.required
    {
      AskedMembers(ofPod, ofClass, x);
    }
  }

  lemma AskedMembers(ofPod: Option<PodTerms>, ofClass: Option<PodTerms>, x: Asked)
    ensures x in AskedTerms(ofPod, ofClass) <==>
            if x.ofClass then ofClass.Some? && x.t in ofClass.value.required
            else ofPod.Some? && x.t in ofPod.value.required
  {
    if ofPod.Some? && !x.ofClass && x.t in ofPod.value.required {
      var k :| 0 <= k < |ofPod.value.required| && ofPod.value.required[k] == x.t;
      assert Own(ofPod.value.required)[k] == x;
    }
    if ofClass.Some? && x.ofClass && x.t in ofClass.value.required {
      var k :| 0 <= k < |ofClass.value.required| && ofClass.value.required[k] == x.t;
      assert OfClass(ofClass.value.required)[k] == x;
    }
  }

  lemma ParsesMembers(a: Applicant, xs: seq<Asked>, us: seq<AffinityTerm>)
    requires Parses(a, xs, us)
    ensures forall x | x in xs :: ParseOf(a, x) in us
    ensures forall u | u in us :: exists x :: x in xs && u == ParseOf(a, x)
  {
    forall x | x in xs ensures ParseOf(a, x) in us {
      var k :| 0 <= k < |xs| && xs[k] == x;
      assert us[k] == ParseOf(a, x);
    }
  }

  /** The merged terms as the filter goes by them. */
  function MergedOf(a: Applicant): Written {
    WrittenOf(a.pod, a.schedulingClass, a.keys, a.lister)
  }

  lemma MergedMembers(a: Applicant)
    ensures var w := MergedOf(a);
            && (forall x | a.WantsNear(x) :: ParseOf(a, x) in w.affinity)
            && (forall u | u in w.affinity :: exists x :: a.WantsNear(x) && u == ParseOf(a, x))
            && (forall x | a.WantsApart(x) :: ParseOf(a, x) in w.antiAffinity)
            && (forall u | u in w.antiAffinity :: exists x :: a.WantsApart(x) && u == ParseOf(a, x))
  {
    var w := MergedOf(a);
    RequiredTermsAreWritten(a);
    AskedExactly(a);
    ParsesMembers(a, AskedTerms(a.pod.podAffinity, ClassAffinity(a)), w.affinity);
    ParsesMembers(a, AskedTerms(a.pod.podAntiAffinity, ClassAntiAffinity(a)), w.antiAffinity);
  }

  lemma SameCompany(a: Applicant, q: Pod)
    ensures MergedOf(a).SelectsAll(q) <==> a.WantsBeside(q)
  {
    var w := MergedOf(a);
    MergedMembers(a);
    forall x ensures Selects(ParseOf(a, x), a.lister, q) <==> a.Means(x, q) {
      ParseMeans(a, x, q);
    }
    if w.affinity != [] {
      assert w.affinity[0] in w.affinity;
    }
  }

  lemma SameUnwilling(a: Applicant, nodes: Snapshot, target: Node)
    ensures Objects(MergedOf(a), nodes, target) <==> Unwilling(a, nodes, target)
  {
    MergedMembers(a);
    forall x, q
      ensures Selects(ParseOf(a, x), a.lister, q) <==> a.Means(x, q)
      ensures ParseOf(a, x).topologyKey == x.t.topologyKey
    {
      ParseMeans(a, x, q);
    }
    if Unwilling(a, nodes, target) {
      var i, j, x :| Present(nodes, i, j) && a.WantsApart(x) && a.Means(x, nodes[i].pods[j].pod) &&
        SameDomain(nodes[i].node, target, x.t.topologyKey);
      assert Selects(ParseOf(a, x), a.lister, nodes[i].pods[j].pod);
    }
  }

  lemma SameUnwelcome(a: Applicant, nodes: Snapshot, target: Node)
    requires PodsParsed(nodes)
    ensures Objected(MergedOf(a), nodes, target) <==> Unwelcome(a, nodes, target)
  {
    forall i, j | Present(nodes, i, j)
      ensures nodes[i].pods[j].requiredAntiAffinityTerms ==
              GetAffinityTerms(nodes[i].pods[j].pod, RequiredOf(nodes[i].pods[j].pod.podAntiAffinity))
    {
      assert nodes[i] in nodes && nodes[i].pods[j] in nodes[i].pods;
    }
    forall q: Pod, t ensures Selects(ParseAffinityTerm(q, t), a.lister, a.pod) <==>
                             TermSelects(q, a.keys, t, false, a.pod, NamespaceLabels(a.lister, a.pod.namespace))
    {
      DefaultedTermMatches(q, a.keys, t, a.pod, NamespaceLabels(a.lister, a.pod.namespace));
    }
    if Unwelcome(a, nodes, target) {
      var i, j, t :| Present(nodes, i, j) && nodes[i].pods[j].pod.podAntiAffinity.Some? &&
        t in nodes[i].pods[j].pod.podAntiAffinity.value.required &&
        TermSelects(nodes[i].pods[j].pod, a.keys, t, false, a.pod, NamespaceLabels(a.lister, a.pod.namespace)) &&
        SameDomain(nodes[i].node, target, t.topologyKey);
      var ts := nodes[i].pods[j].pod.podAntiAffinity.value.required;
      var k :| 0 <= k < |ts| && ts[k] == t;
      assert GetAffinityTerms(nodes[i].pods[j].pod, ts)[k] == ParseAffinityTerm(nodes[i].pods[j].pod, t);
    }
  }

  lemma SameBesides(a: Applicant, nodes: Snapshot)
    ensures forall i, j | Present(nodes, i, j) ::
              MergedOf(a).SelectsAll(nodes[i].pods[j].pod) <==> a.WantsBeside(nodes[i].pods[j].pod)
  {
    forall i, j | Present(nodes, i, j)
      ensures MergedOf(a).SelectsAll(nodes[i].pods[j].pod) <==> a.WantsBeside(nodes[i].pods[j].pod)
    {
      SameCompany(a, nodes[i].pods[j].pod);
    }
  }

  lemma SameInCompany(a: Applicant, nodes: Snapshot, target: Node, key: string)
    ensures Accompanied(MergedOf(a), nodes, target, key) <==> InCompany(a, nodes, target, key)
  {
    SameBesides(a, nodes);
  }

  lemma KeysAsAsked(a: Applicant, p: string -> bool)
    ensures (forall u | u in MergedOf(a).affinity :: p(u.topologyKey)) <==>
            (forall x | a.WantsNear(x) :: p(x.t.topologyKey))
  {
    MergedMembers(a);
    if forall u | u in MergedOf(a).affinity :: p(u.topologyKey) {
      forall x | a.WantsNear(x) ensures p(x.t.topologyKey) {
        assert p(ParseOf(a, x).topologyKey);
      }
    }
  }

  /** Some term asks for a key of the node. */
  lemma SameKeys(a: Applicant, node: Node)
    ensures (exists t :: t in MergedOf(a).affinity && t.topologyKey in node.labels) <==>
            (exists x :: a.WantsNear(x) && x.t.topologyKey in node.labels)
  {
    KeysAsAsked(a, key => key !in node.labels);
  }

  lemma SameStart(a: Applicant, nodes: Snapshot)
    ensures Started(MergedOf(a), nodes) <==> CompanyExists(a, nodes)
  {
    var w := MergedOf(a);
    SameBesides(a, nodes);
    forall i | 0 <= i < |nodes|
      ensures (exists t :: t in w.affinity && t.topologyKey in nodes[i].node.labels) <==>
              (exists x :: a.WantsNear(x) && x.t.topologyKey in nodes[i].node.labels)
    {
      SameKeys(a, nodes[i].node);
    }
  }

  lemma SameCompanies(a: Applicant, nodes: Snapshot, target: Node)
    ensures (forall u | u in MergedOf(a).affinity :: Accompanied(MergedOf(a), nodes, target, u.topologyKey)) <==>
            (forall x | a.WantsNear(x) :: InCompany(a, nodes, target, x.t.topologyKey))
  {
    forall key ensures Accompanied(MergedOf(a), nodes, target, key) <==> InCompany(a, nodes, target, key) {
      SameInCompany(a, nodes, target, key);
    }
    KeysAsAsked(a, key => InCompany(a, nodes, target, key));
  }

  lemma SameGathered(a: Applicant, nodes: Snapshot, target: Node)
    ensures AffinityHolds(MergedOf(a), nodes, target) <==> Gathered(a, nodes, target)
  {
    SameCompany(a, a.pod);
    SameCompanies(a, nodes, target);
    KeysAsAsked(a, key => key in target.labels);
    SameStart(a, nodes);
  }

  lemma OddIsOddly(a: Applicant, nodes: Snapshot)
    requires NothingOddly(a, nodes)
    ensures NothingOdd(MergedOf(a), nodes)
  {
    MergedMembers(a);
    forall x, q ensures Odd(ParseOf(a, x), a.lister, q) <==> a.Oddly(x, q) {
      ParseMeans(a, x, q);
    }
  }

  /** The verdict as written: on the exact counts of a snapshot in which nothing is
      odd, the filter passes a node exactly when it suits all the terms that the
      pod, its class and the pods present are written with. */
  lemma VerdictAsWritten(a: Applicant, nodes: Snapshot, v: View, target: Node)
    requires Exact(IncomingOf(a.pod, a.schedulingClass, a.keys, a.lister), nodes, v)
    requires PodsParsed(nodes) && NothingOddly(a, nodes)
    ensures Passes(IncomingOf(a.pod, a.schedulingClass, a.keys, a.lister), v, target) <==> Suits(a, nodes, target)
  {
    OddIsOddly(a, nodes);
    WrittenVerdict(a.pod, a.schedulingClass, a.keys, a.lister, nodes, v, target);
    SameGathered(a, nodes, target);
    SameUnwilling(a, nodes, target);
    SameUnwelcome(a, nodes, target);
  }
}
