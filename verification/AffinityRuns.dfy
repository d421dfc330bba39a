/** What the inter-pod affinity filter guarantees over whole runs of placements
    and removals. */
module AffinityRuns {
  import opened Labels
  import opened Cluster
  import opened TermCounts
  import opened AffinityDefs
  import opened AffinityFilter
  import opened Namespaces
  import opened Merger

  /** The surroundings of a run: lineage label keys, known namespaces, the class
      of every pod, and the pods that something other than the filter places. */
  datatype Setting = Setting(
    keys: seq<string>,
    lister: Lister,
    classOf: Pod -> Option<SchedulingClass>,
    exempt: Pod -> bool)
  {
    function Incoming(pod: Pod): Incoming {
      IncomingOf(pod, classOf(pod), keys, lister)
    }
  }

  datatype Step = Place(k: nat, pod: Pod) | Remove(k: nat, j: nat)

  ghost predicate Legal(s: Setting, nodes: Snapshot, step: Step) {
    && step.k < |nodes|
    && (step.Remove? ==> step.j < |nodes[step.k].pods|)
    && (step.Place? && !s.exempt(step.pod) ==> Admits(s.Incoming(step.pod), nodes, nodes[step.k].node))
  }

  /** The filter passes the node, on the counts of this snapshot. */
  ghost predicate Admits(inc: Incoming, nodes: Snapshot, target: Node) {
    exists view :: Exact(inc, nodes, view) && Passes(inc, view, target)
  }

  lemma AdmitsMeansAccepts(inc: Incoming, nodes: Snapshot, target: Node)
    requires Admits(inc, nodes, target)
    ensures Accepts(inc, nodes, target)
  {
    var view :| Exact(inc, nodes, view) && Passes(inc, view, target);
    ExactVerdict(inc, nodes, view, target);
  }

  ghost function After(nodes: Snapshot, step: Step): Snapshot
    requires step.k < |nodes| && (step.Remove? ==> step.j < |nodes[step.k].pods|)
  {
    if step.Place? then WithPod(nodes, step.k, NewPodInfo(step.pod)) else WithoutPod(nodes, step.k, step.j)
  }

  ghost predicate Run(s: Setting, nodes: Snapshot, steps: seq<Step>)
    decreases |steps|
  {
    steps == [] || (Legal(s, nodes, steps[0]) && Run(s, After(nodes, steps[0]), steps[1..]))
  }

  ghost function AfterRun(s: Setting, nodes: Snapshot, steps: seq<Step>): Snapshot
    requires Run(s, nodes, steps)
    decreases |steps|
  {
    if steps == [] then nodes else AfterRun(s, After(nodes, steps[0]), steps[1..])
  }

  // ---- Positions before and after a step ----

  ghost function OldIndex(step: Step, i: int, j: int): int {
    if step.Remove? && i == step.k && j >= step.j then j + 1 else j
  }

  /** Every pod present after a step was present before it, on the same node,
      unless it is the pod just placed. */
  lemma PresentAfter(nodes: Snapshot, step: Step, i: int, j: int)
    requires step.k < |nodes| && (step.Remove? ==> step.j < |nodes[step.k].pods|)
    requires Present(After(nodes, step), i, j)
    ensures var nodes' := After(nodes, step);
            && i < |nodes| && nodes'[i].node == nodes[i].node
            && if step.Place? && i == step.k && j == |nodes[i].pods| then nodes'[i].pods[j] == NewPodInfo(step.pod)
               else Present(nodes, i, OldIndex(step, i, j)) && nodes'[i].pods[j] == nodes[i].pods[OldIndex(step, i, j)]
  {
  }

  ghost predicate IsNew(nodes: Snapshot, step: Step, i: int, j: int)
    requires step.k < |nodes|
  {
    step.Place? && i == step.k && j == |nodes[step.k].pods|
  }

  // ---- Anti-affinity is symmetric ----

  /** `a` holds a required anti-affinity term against `b` in a shared domain. */
  ghost predicate Repels(lister: Lister, a: PodInfo, an: Node, b: PodInfo, bn: Node) {
    exists t :: t in a.requiredAntiAffinityTerms && Selects(t, lister, b.pod) &&
      SameDomain(an, bn, t.topologyKey)
  }

  ghost predicate Distinct(nodes: Snapshot, i: int, j: int, i': int, j': int) {
    Present(nodes, i, j) && Present(nodes, i', j') && (i != i' || j != j')
  }

  ghost predicate NoneRepelled(lister: Lister, nodes: Snapshot) {
    forall i, j, i', j' | Distinct(nodes, i, j, i', j') ::
      !Repels(lister, nodes[i].pods[j], nodes[i].node, nodes[i'].pods[j'], nodes[i'].node)
  }

  /** A term that `pod` itself holds is odd for a pod present in a domain that
      the target shares. */
  ghost predicate OddConflict(lister: Lister, nodes: Snapshot, pod: Pod, target: Node) {
    exists i, j, t :: Present(nodes, i, j) && t in NewPodInfo(pod).requiredAntiAffinityTerms &&
      Odd(t, lister, nodes[i].pods[j].pod) && SameDomain(target, nodes[i].node, t.topologyKey)
  }

  /** The terms of the pod itself are among those it is scheduled by. */
  lemma OwnTermsCount(s: Setting, pod: Pod, t: AffinityTerm)
    requires t in NewPodInfo(pod).requiredAntiAffinityTerms
    ensures Unrolled(t, s.lister) in s.Incoming(pod).antiAffinity
  {
    var terms := RequiredTerms(pod, s.classOf(pod), s.keys).1;
    var k :| 0 <= k < |NewPodInfo(pod).requiredAntiAffinityTerms| && NewPodInfo(pod).requiredAntiAffinityTerms[k] == t;
    assert terms[k] == t;
    assert AllUnrolled(terms, s.lister)[k] == Unrolled(t, s.lister);
  }

  /** Repulsion either way is a conflict the filter sees, or else an odd one. */
  lemma RepulsionIsConflict(s: Setting, nodes: Snapshot, target: Node, pod: Pod, i: int, j: int)
    requires Present(nodes, i, j)
    ensures Repels(s.lister, nodes[i].pods[j], nodes[i].node, NewPodInfo(pod), target) ==>
            ExistingConflict(s.Incoming(pod), nodes, target)
    ensures Repels(s.lister, NewPodInfo(pod), target, nodes[i].pods[j], nodes[i].node) ==>
            IncomingConflict(s.Incoming(pod), nodes, target) || OddConflict(s.lister, nodes, pod, target)
  {
    var p := NewPodInfo(pod);
    if Repels(s.lister, p, target, nodes[i].pods[j], nodes[i].node) {
      var q := nodes[i].pods[j].pod;
      var t :| t in p.requiredAntiAffinityTerms && Selects(t, s.lister, q) &&
        SameDomain(target, nodes[i].node, t.topologyKey);
      OwnTermsCount(s, pod, t);
      UnrolledMatches(t, s.lister, q);
      assert SameDomain(nodes[i].node, target, Unrolled(t, s.lister).topologyKey);
    }
  }

  lemma OddConflictIsRepulsion(s: Setting, nodes: Snapshot, step: Step)
    requires step.Place? && step.k < |nodes| && OddConflict(s.lister, nodes, step.pod, nodes[step.k].node)
    ensures !NoneRepelled(s.lister, After(nodes, step))
  {
    var nodes', target := After(nodes, step), nodes[step.k].node;
    var i, j, t :| Present(nodes, i, j) && t in NewPodInfo(step.pod).requiredAntiAffinityTerms &&
      Odd(t, s.lister, nodes[i].pods[j].pod) && SameDomain(target, nodes[i].node, t.topologyKey);
    var n := |nodes[step.k].pods|;
    UnrolledMatches(t, s.lister, nodes[i].pods[j].pod);
    assert Distinct(nodes', step.k, n, i, j);
    assert Repels(s.lister, nodes'[step.k].pods[n], target, nodes'[i].pods[j], nodes'[i].node);
  }

  lemma StepRepelsNone(s: Setting, nodes: Snapshot, step: Step)
    requires Legal(s, nodes, step) && NoneRepelled(s.lister, nodes)
    requires step.Place? ==> !s.exempt(step.pod) && !OddConflict(s.lister, nodes, step.pod, nodes[step.k].node)
    ensures NoneRepelled(s.lister, After(nodes, step))
  {
    var nodes' := After(nodes, step);
    if step.Place? {
      AdmitsMeansAccepts(s.Incoming(step.pod), nodes, nodes[step.k].node);
    }
    forall i, j, i', j' | Distinct(nodes', i, j, i', j')
      ensures !Repels(s.lister, nodes'[i].pods[j], nodes'[i].node, nodes'[i'].pods[j'], nodes'[i'].node)
    {
      PresentAfter(nodes, step, i, j);
      PresentAfter(nodes, step, i', j');
      if IsNew(nodes, step, i, j) {
        RepulsionIsConflict(s, nodes, nodes[step.k].node, step.pod, i', j');
      } else if IsNew(nodes, step, i', j') {
        RepulsionIsConflict(s, nodes, nodes[step.k].node, step.pod, i, j);
      } else {
        assert Distinct(nodes, i, OldIndex(step, i, j), i', OldIndex(step, i', j'));
      }
    }
  }

  /** The exact condition: from a state without repulsion, a removal or a
      placement that the filter passed leads to one without, unless a term the
      new pod holds is odd for a pod in a domain it comes to share. */
  lemma StepExact(s: Setting, nodes: Snapshot, step: Step)
    requires Legal(s, nodes, step) && NoneRepelled(s.lister, nodes) && (step.Place? ==> !s.exempt(step.pod))
    ensures NoneRepelled(s.lister, After(nodes, step)) <==>
            !(step.Place? && OddConflict(s.lister, nodes, step.pod, nodes[step.k].node))
  {
    if step.Place? && OddConflict(s.lister, nodes, step.pod, nodes[step.k].node) {
      OddConflictIsRepulsion(s, nodes, step);
    } else {
      StepRepelsNone(s, nodes, step);
    }
  }

  /** Every placement of the run goes through the filter and meets no odd pair in
      a shared domain, as is the case when the lister knows all namespaces. */
  ghost predicate FilteredRun(s: Setting, nodes: Snapshot, steps: seq<Step>)
    requires Run(s, nodes, steps)
    decreases |steps|
  {
    steps == [] ||
    (&& (steps[0].Place? ==>
           !s.exempt(steps[0].pod) && !OddConflict(s.lister, nodes, steps[0].pod, nodes[steps[0].k].node))
     && FilteredRun(s, After(nodes, steps[0]), steps[1..]))
  }

  /** Symmetric anti-affinity: in every state reached by accepted placements and
      arbitrary removals, no pod's required anti-affinity term matches another
      pod in the same domain, whichever of the two came first. */
  lemma {:induction false} AntiAffinityHolds(s: Setting, nodes: Snapshot, steps: seq<Step>)
    requires Run(s, nodes, steps) && FilteredRun(s, nodes, steps) && NoneRepelled(s.lister, nodes)
    ensures NoneRepelled(s.lister, AfterRun(s, nodes, steps))
    decreases |steps|
  {
    if steps != [] {
      StepExact(s, nodes, steps[0]);
      AntiAffinityHolds(s, After(nodes, steps[0]), steps[1..]);
    }
  }

  // ---- Pods of one application ----

  /** An unspecific class term of a pod of the application selects exactly the
      pods of the application. */
  lemma GroupTermMatches(s: Setting, ref: Pod, pod: Pod, t: PodAffinityTerm, q: Pod)
    requires CompleteLineage(ref, s.keys) && InGroup(s.keys, ref, pod) && Unspecific(t)
    ensures var u := Unrolled(ParseAffinityTerm(pod, Defaulted(t, LineageSelector(pod, s.keys))), s.lister);
            && u.topologyKey == t.topologyKey
            && (u.Matches(q, map[]) <==> InGroup(s.keys, ref, q))
  {
    UnspecificTermMatches(pod, s.keys, t, q, map[]);
    assert Listed(s.lister, Nothing) == {};
    assert forall k | k in s.keys :: k in ref.labels && k in pod.labels && pod.labels[k] == ref.labels[k];
  }

  // ---- Co-location ----

  /** The class gathers the application by `terms`: its required affinity. */
  ghost predicate Gathers(sc: SchedulingClass, terms: seq<PodAffinityTerm>) {
    && terms != [] && RequiredOf(sc.podAffinity) == terms
    && forall t | t in terms :: Unspecific(t)
  }

  ghost predicate GatheredPod(s: Setting, sc: SchedulingClass, pod: Pod) {
    s.classOf(pod) == Some(sc) && RequiredOf(pod.podAffinity) == []
  }

  /** The affinity terms of the incoming pod have the keys of `terms`, and each
      selects exactly the pods of the application. */
  ghost predicate SelectsGroup(s: Setting, inc: Incoming, terms: seq<PodAffinityTerm>, ref: Pod) {
    && |inc.affinity| == |terms|
    && (forall i | 0 <= i < |terms| :: inc.affinity[i].topologyKey == terms[i].topologyKey)
    && forall q: Pod :: MatchesAll(inc.affinity, q) <==> InGroup(s.keys, ref, q)
  }

  lemma GatheringTermsAre(s: Setting, sc: SchedulingClass, terms: seq<PodAffinityTerm>, pod: Pod)
    requires Gathers(sc, terms) && GatheredPod(s, sc, pod)
    ensures s.Incoming(pod).affinity ==
            AllUnrolled(GetAffinityTerms(pod, AllDefaulted(terms, LineageSelector(pod, s.keys))), s.lister)
  {
    assert GetAffinityTerms(pod, []) == [];
  }

  lemma GatheringTerms(s: Setting, sc: SchedulingClass, terms: seq<PodAffinityTerm>, ref: Pod, pod: Pod)
    requires Gathers(sc, terms) && CompleteLineage(ref, s.keys) && InGroup(s.keys, ref, pod) && GatheredPod(s, sc, pod)
    ensures SelectsGroup(s, s.Incoming(pod), terms, ref)
  {
    GatheringTermsAre(s, sc, terms, pod);
    UnrolledTermsSelectGroup(s, terms, ref, pod);
  }

  lemma UnrolledTermsSelectGroup(s: Setting, terms: seq<PodAffinityTerm>, ref: Pod, pod: Pod)
    requires terms != [] && (forall t | t in terms :: Unspecific(t))
    requires CompleteLineage(ref, s.keys) && InGroup(s.keys, ref, pod)
    ensures var us := AllUnrolled(GetAffinityTerms(pod, AllDefaulted(terms, LineageSelector(pod, s.keys))), s.lister);
            && (forall i | 0 <= i < |terms| :: us[i].topologyKey == terms[i].topologyKey)
            && forall q: Pod :: MatchesAll(us, q) <==> InGroup(s.keys, ref, q)
  {
    var d := LineageSelector(pod, s.keys);
    var us := AllUnrolled(GetAffinityTerms(pod, AllDefaulted(terms, d)), s.lister);
    forall i, q: Pod | 0 <= i < |terms|
      ensures us[i].Matches(q, map[]) <==> InGroup(s.keys, ref, q)
      ensures us[i].topologyKey == terms[i].topologyKey
    {
      GroupTermMatches(s, ref, pod, terms[i], q);
    }
    AllSelectOne(us, s.keys, ref);
  }

  lemma AllSelectOne(us: seq<AffinityTerm>, keys: seq<string>, ref: Pod)
    requires us != []
    requires forall i, q: Pod | 0 <= i < |us| :: us[i].Matches(q, map[]) <==> InGroup(keys, ref, q)
    ensures forall q: Pod :: MatchesAll(us, q) <==> InGroup(keys, ref, q)
  {
    forall q: Pod ensures MatchesAll(us, q) <==> InGroup(keys, ref, q) {
      assert us[0] in us && (us[0].Matches(q, map[]) <==> InGroup(keys, ref, q));
    }
  }

  predicate SharesAll(terms: seq<PodAffinityTerm>, a: Node, b: Node) {
    forall t | t in terms :: SameDomain(a, b, t.topologyKey)
  }

  ghost predicate GroupPresent(keys: seq<string>, ref: Pod, nodes: Snapshot, i: int, j: int) {
    Present(nodes, i, j) && InGroup(keys, ref, nodes[i].pods[j].pod)
  }

  /** All pods of the application share one domain per topology key. */
  ghost predicate CoLocated(s: Setting, terms: seq<PodAffinityTerm>, ref: Pod, nodes: Snapshot) {
    forall i, j, i', j' | GroupPresent(s.keys, ref, nodes, i, j) && GroupPresent(s.keys, ref, nodes, i', j') ::
      SharesAll(terms, nodes[i].node, nodes[i'].node)
  }

  lemma AcceptedPodJoinsDomain(s: Setting, terms: seq<PodAffinityTerm>, ref: Pod, nodes: Snapshot, inc: Incoming,
      target: Node, n: nat, i: int, j: int)
    requires SelectsGroup(s, inc, terms, ref) && CoLocated(s, terms, ref, nodes) && AffinityOk(inc, nodes, target)
    requires n < |terms| && GroupPresent(s.keys, ref, nodes, i, j)
    ensures SameDomain(nodes[i].node, target, terms[n].topologyKey)
  {
    var key := terms[n].topologyKey;
    assert inc.affinity[n] in inc.affinity && terms[n] in terms;
    assert SharesAll(terms, nodes[i].node, nodes[i].node);
    assert SameDomain(nodes[i].node, nodes[i].node, key);
    assert MatchesAll(inc.affinity, nodes[i].pods[j].pod);
    assert SeriesStarted(inc, nodes);
    assert HasCompanion(inc, nodes, target, key);
    var a, b :| Present(nodes, a, b) && MatchesAll(inc.affinity, nodes[a].pods[b].pod) && SameDomain(nodes[a].node,
        target, key);
    assert GroupPresent(s.keys, ref, nodes, a, b);
    assert SharesAll(terms, nodes[i].node, nodes[a].node);
  }

  /** A pod accepted into the application joins the domains of its pods. */
  lemma AcceptedPodJoins(s: Setting, terms: seq<PodAffinityTerm>, ref: Pod, nodes: Snapshot, inc: Incoming,
      target: Node)
    requires SelectsGroup(s, inc, terms, ref) && CoLocated(s, terms, ref, nodes) && AffinityOk(inc, nodes, target)
    ensures SharesAll(terms, target, target)
    ensures forall i, j | GroupPresent(s.keys, ref, nodes, i, j) ::
              SharesAll(terms, nodes[i].node, target) && SharesAll(terms, target, nodes[i].node)
  {
    forall t | t in terms
      ensures t.topologyKey in target.labels
      ensures forall i, j | GroupPresent(s.keys, ref, nodes, i, j) :: SameDomain(nodes[i].node, target, t.topologyKey)
    {
      var n :| 0 <= n < |terms| && terms[n] == t;
      assert inc.affinity[n] in inc.affinity;
      forall i, j | GroupPresent(s.keys, ref, nodes, i, j) ensures SameDomain(nodes[i].node, target, t.topologyKey) {
        AcceptedPodJoinsDomain(s, terms, ref, nodes, inc, target, n, i, j);
      }
    }
  }

  lemma StepCoLocates(s: Setting, sc: SchedulingClass, terms: seq<PodAffinityTerm>, ref: Pod, nodes: Snapshot,
      step: Step)
    requires Gathers(sc, terms) && CompleteLineage(ref, s.keys)
    requires Legal(s, nodes, step) && CoLocated(s, terms, ref, nodes)
    requires step.Place? && InGroup(s.keys, ref, step.pod) ==> !s.exempt(step.pod) && GatheredPod(s, sc, step.pod)
    ensures CoLocated(s, terms, ref, After(nodes, step))
  {
    var nodes' := After(nodes, step);
    if step.Place? && InGroup(s.keys, ref, step.pod) {
      GatheringTerms(s, sc, terms, ref, step.pod);
      AdmitsMeansAccepts(s.Incoming(step.pod), nodes, nodes[step.k].node);
      AcceptedPodJoins(s, terms, ref, nodes, s.Incoming(step.pod), nodes[step.k].node);
    }
    forall i, j, i', j' | GroupPresent(s.keys, ref, nodes', i, j) && GroupPresent(s.keys, ref, nodes', i', j')
      ensures SharesAll(terms, nodes'[i].node, nodes'[i'].node)
    {
      PresentAfter(nodes, step, i, j);
      PresentAfter(nodes, step, i', j');
      assert !IsNew(nodes, step, i, j) ==> GroupPresent(s.keys, ref, nodes, i, OldIndex(step, i, j));
      assert !IsNew(nodes, step, i', j') ==> GroupPresent(s.keys, ref, nodes, i', OldIndex(step, i', j'));
    }
  }

  /** Co-location: every pod of the application that is placed, is placed
      through the class; whatever else is placed, and whatever is removed, the
      pods of the application share one domain per topology key. */
  lemma {:induction false} CoLocationHolds(s: Setting, sc: SchedulingClass, terms: seq<PodAffinityTerm>, ref: Pod,
      nodes: Snapshot, steps: seq<Step>)
    requires Gathers(sc, terms) && CompleteLineage(ref, s.keys)
    requires Run(s, nodes, steps) && CoLocated(s, terms, ref, nodes)
    requires forall i | 0 <= i < |steps| :: steps[i].Place? && InGroup(s.keys, ref, steps[i].pod) ==>
               !s.exempt(steps[i].pod) && GatheredPod(s, sc, steps[i].pod)
    ensures CoLocated(s, terms, ref, AfterRun(s, nodes, steps))
    decreases |steps|
  {
    if steps != [] {
      StepCoLocates(s, sc, terms, ref, nodes, steps[0]);
      CoLocationHolds(s, sc, terms, ref, After(nodes, steps[0]), steps[1..]);
    }
  }

  /** The first pod of an application is not stuck: with none of its pods
      present, the affinity check admits it on exactly the nodes that bear all
      the topology keys. */
  lemma FirstPodAdmitted(s: Setting, sc: SchedulingClass, terms: seq<PodAffinityTerm>, nodes: Snapshot, pod: Pod,
      target: Node)
    requires Gathers(sc, terms) && CompleteLineage(pod, s.keys) && GatheredPod(s, sc, pod)
    requires forall i, j :: !GroupPresent(s.keys, pod, nodes, i, j)
    ensures AffinityOk(s.Incoming(pod), nodes, target) <==> forall t | t in terms :: t.topologyKey in target.labels
  {
    var inc := s.Incoming(pod);
    GatheringTerms(s, sc, terms, pod, pod);
    assert InGroup(s.keys, pod, pod);
    forall i, j | Present(nodes, i, j) ensures !MatchesAll(inc.affinity, nodes[i].pods[j].pod) {
      assert !GroupPresent(s.keys, pod, nodes, i, j);
    }
    assert HasAllKeys(inc, target) <==> forall t | t in terms :: t.topologyKey in target.labels by {
      if HasAllKeys(inc, target) {
        forall n | 0 <= n < |terms| ensures terms[n].topologyKey in target.labels {
          assert inc.affinity[n] in inc.affinity;
        }
      }
    }
  }

  // ---- Separation ----

  ghost predicate Separates(sc: SchedulingClass, term: PodAffinityTerm) {
    term in RequiredOf(sc.podAntiAffinity) && Unspecific(term)
  }

  lemma SeparatingTerm(s: Setting, sc: SchedulingClass, term: PodAffinityTerm, ref: Pod, pod: Pod)
      returns (u: AffinityTerm)
    requires Separates(sc, term) && CompleteLineage(ref, s.keys) && InGroup(s.keys, ref, pod)
    requires s.classOf(pod) == Some(sc)
    ensures u in s.Incoming(pod).antiAffinity && u.topologyKey == term.topologyKey
    ensures forall q: Pod :: u.Matches(q, map[]) <==> InGroup(s.keys, ref, q)
  {
    var d := LineageSelector(pod, s.keys);
    var classTerms := RequiredOf(sc.podAntiAffinity);
    var own := GetAffinityTerms(pod, RequiredOf(pod.podAntiAffinity));
    var k :| 0 <= k < |classTerms| && classTerms[k] == term;
    var all := own + GetAffinityTerms(pod, AllDefaulted(classTerms, d));
    u := Unrolled(ParseAffinityTerm(pod, Defaulted(term, d)), s.lister);
    assert all[|own| + k] == ParseAffinityTerm(pod, Defaulted(term, d));
    assert AllUnrolled(all, s.lister)[|own| + k] == u;
    forall q: Pod ensures u.Matches(q, map[]) <==> InGroup(s.keys, ref, q) {
      GroupTermMatches(s, ref, pod, term, q);
    }
  }

  /** No two pods of the application share a domain of the key. */
  ghost predicate Separated(s: Setting, key: string, ref: Pod, nodes: Snapshot) {
    forall i, j, i', j' | Distinct(nodes, i, j, i', j') && GroupPresent(s.keys, ref, nodes, i, j)
                        && GroupPresent(s.keys, ref, nodes, i', j') ::
      !SameDomain(nodes[i].node, nodes[i'].node, key)
  }

  lemma SharedDomainIsConflict(s: Setting, sc: SchedulingClass, term: PodAffinityTerm, ref: Pod, nodes: Snapshot,
      target: Node, pod: Pod)
    requires Separates(sc, term) && CompleteLineage(ref, s.keys) && InGroup(s.keys, ref, pod)
    requires s.classOf(pod) == Some(sc)
    ensures forall i, j | GroupPresent(s.keys, ref, nodes, i, j) ::
              SameDomain(nodes[i].node, target, term.topologyKey) ==> IncomingConflict(s.Incoming(pod), nodes, target)
  {
    var u := SeparatingTerm(s, sc, term, ref, pod);
    forall i, j | GroupPresent(s.keys, ref, nodes, i, j) && SameDomain(nodes[i].node, target, term.topologyKey)
      ensures IncomingConflict(s.Incoming(pod), nodes, target)
    {
      assert u.Matches(nodes[i].pods[j].pod, map[]);
    }
  }

  lemma StepSeparates(s: Setting, sc: SchedulingClass, term: PodAffinityTerm, ref: Pod, nodes: Snapshot, step: Step)
    requires Separates(sc, term) && CompleteLineage(ref, s.keys)
    requires Legal(s, nodes, step) && Separated(s, term.topologyKey, ref, nodes)
    requires step.Place? && InGroup(s.keys, ref, step.pod) ==> !s.exempt(step.pod) && s.classOf(step.pod) == Some(sc)
    ensures Separated(s, term.topologyKey, ref, After(nodes, step))
  {
    var nodes' := After(nodes, step);
    var key := term.topologyKey;
    if step.Place? && InGroup(s.keys, ref, step.pod) {
      AdmitsMeansAccepts(s.Incoming(step.pod), nodes, nodes[step.k].node);
      SharedDomainIsConflict(s, sc, term, ref, nodes, nodes[step.k].node, step.pod);
    }
    forall i, j, i', j' | Distinct(nodes', i, j, i', j') && GroupPresent(s.keys, ref, nodes', i, j)
                        && GroupPresent(s.keys, ref, nodes', i', j')
      ensures !SameDomain(nodes'[i].node, nodes'[i'].node, key)
    {
      PresentAfter(nodes, step, i, j);
      PresentAfter(nodes, step, i', j');
      var a, b := OldIndex(step, i, j), OldIndex(step, i', j');
      assert !IsNew(nodes, step, i, j) ==> GroupPresent(s.keys, ref, nodes, i, a);
      assert !IsNew(nodes, step, i', j') ==> GroupPresent(s.keys, ref, nodes, i', b);
      if !IsNew(nodes, step, i, j) && !IsNew(nodes, step, i', j') {
        assert Distinct(nodes, i, a, i', b);
      }
    }
  }

  /** The pods of the application on nodes that bear the key. */
  ghost function GroupPositions(s: Setting, key: string, ref: Pod, nodes: Snapshot): set<(int, int)> {
    set i, j | 0 <= i < |nodes| && 0 <= j < |nodes[i].pods| && InGroup(s.keys, ref, nodes[i].pods[j].pod)
             && key in nodes[i].node.labels :: (i, j)
  }

  lemma {:induction false} InjectionBounds(key: string, nodes: Snapshot, ps: set<(int, int)>, values: set<string>)
    requires forall p | p in ps ::
      0 <= p.0 < |nodes| && key in nodes[p.0].node.labels && nodes[p.0].node.labels[key] in values
    requires forall p, q | p in ps && q in ps && p != q :: nodes[p.0].node.labels[key] != nodes[q.0].node.labels[key]
    ensures |ps| <= |values|
    decreases |ps|
  {
    if ps != {} {
      var p :| p in ps;
      InjectionBounds(key, nodes, ps - {p}, values - {nodes[p.0].node.labels[key]});
    }
  }

  lemma SeparatedPodsAreFew(s: Setting, key: string, ref: Pod, nodes: Snapshot)
    requires Separated(s, key, ref, nodes)
    ensures |GroupPositions(s, key, ref, nodes)| <= |KeyValues(key, nodes)|
  {
    var ps := GroupPositions(s, key, ref, nodes);
    forall p, q | p in ps && q in ps && p != q ensures nodes[p.0].node.labels[key] != nodes[q.0].node.labels[key] {
      assert Distinct(nodes, p.0, p.1, q.0, q.1);
      assert GroupPresent(s.keys, ref, nodes, p.0, p.1) && GroupPresent(s.keys, ref, nodes, q.0, q.1);
      assert !SameDomain(nodes[p.0].node, nodes[q.0].node, key);
    }
    InjectionBounds(key, nodes, ps, KeyValues(key, nodes));
  }

  /** Separation: the pods of the application on nodes bearing the key always
      occupy pairwise distinct domains, so there are never more of them than
      domains. */
  lemma {:induction false} SeparationHolds(s: Setting, sc: SchedulingClass, term: PodAffinityTerm, ref: Pod,
      nodes: Snapshot, steps: seq<Step>)
    requires Separates(sc, term) && CompleteLineage(ref, s.keys)
    requires Run(s, nodes, steps) && Separated(s, term.topologyKey, ref, nodes)
    requires forall i | 0 <= i < |steps| :: steps[i].Place? && InGroup(s.keys, ref, steps[i].pod) ==>
               !s.exempt(steps[i].pod) && s.classOf(steps[i].pod) == Some(sc)
    ensures var nodes' := AfterRun(s, nodes, steps);
            && Separated(s, term.topologyKey, ref, nodes')
            && |GroupPositions(s, term.topologyKey, ref, nodes')| <= |KeyValues(term.topologyKey, nodes')|
    decreases |steps|
  {
    if steps == [] {
      SeparatedPodsAreFew(s, term.topologyKey, ref, nodes);
    } else {
      StepSeparates(s, sc, term, ref, nodes, steps[0]);
      SeparationHolds(s, sc, term, ref, After(nodes, steps[0]), steps[1..]);
    }
  }

  // ---- Why every pod of the application has to go through the class ----

  /** Terms of a class bind only the pod being scheduled: while no pod present
      holds anti-affinity terms of its own, a pod without a class and without
      required terms is accepted on every node, whatever the classes of the pods
      already there ask for. */
  lemma ClassTermsBindOnlyTheIncomingPod(s: Setting, nodes: Snapshot, pod: Pod, target: Node)
    requires forall i, j | Present(nodes, i, j) :: nodes[i].pods[j].requiredAntiAffinityTerms == []
    requires s.classOf(pod).None? && RequiredOf(pod.podAffinity) == [] && RequiredOf(pod.podAntiAffinity) == []
    ensures Accepts(s.Incoming(pod), nodes, target)
  {
    var inc := s.Incoming(pod);
    assert inc.affinity == [] && inc.antiAffinity == [];
    assert !ExistingConflict(inc, nodes, target);
  }
}
