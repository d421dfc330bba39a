/** The inter-pod affinity verdict on the terms as they are merged, before their
    namespace selectors are unrolled. */
module AffinityWritten {
  import opened Cluster
  import opened Labels
  import opened TermCounts
  import opened AffinityDefs
  import opened AffinityFilter
  import opened Namespaces
  import opened Merger

  /** The incoming pod with its merged required terms. */
  datatype Written = Written(pod: Pod, affinity: seq<AffinityTerm>, antiAffinity: seq<AffinityTerm>, lister: Lister) {
    predicate SelectsAll(q: Pod) {
      affinity != [] && forall t | t in affinity :: Selects(t, lister, q)
    }

    function Resolved(): Incoming {
      Incoming(pod, AllUnrolled(affinity, lister), AllUnrolled(antiAffinity, lister),
               NamespaceLabels(lister, pod.namespace))
    }
  }

  function WrittenOf(pod: Pod, schedulingClass: Option<SchedulingClass>, keys: seq<string>,
      lister: Lister): (w: Written)
    ensures w.Resolved() == IncomingOf(pod, schedulingClass, keys, lister)
  {
    var terms := RequiredTerms(pod, schedulingClass, keys);
    Written(pod, terms.0, terms.1, lister)
  }

  // ---- The definition, with every pod judged by its own namespace ----

  /** An existing pod has an anti-affinity term against the incoming pod. */
  ghost predicate Objected(w: Written, nodes: Snapshot, target: Node) {
    exists i, j, t :: Present(nodes, i, j) && t in nodes[i].pods[j].requiredAntiAffinityTerms &&
      Selects(t, w.lister, w.pod) && SameDomain(nodes[i].node, target, t.topologyKey)
  }

  /** The incoming pod has an anti-affinity term against an existing pod. */
  ghost predicate Objects(w: Written, nodes: Snapshot, target: Node) {
    exists i, j, t :: Present(nodes, i, j) && t in w.antiAffinity &&
      Selects(t, w.lister, nodes[i].pods[j].pod) && SameDomain(nodes[i].node, target, t.topologyKey)
  }

  ghost predicate Accompanied(w: Written, nodes: Snapshot, target: Node, key: string) {
    exists i, j :: Present(nodes, i, j) && w.SelectsAll(nodes[i].pods[j].pod) && SameDomain(nodes[i].node, target, key)
  }

  ghost predicate Started(w: Written, nodes: Snapshot) {
    exists i, j, t :: Present(nodes, i, j) && w.SelectsAll(nodes[i].pods[j].pod) &&
      t in w.affinity && t.topologyKey in nodes[i].node.labels
  }

  /** Each required key is on the target, and either pods that all terms select
      share its domain of every key, or there are none on nodes with a required
      key and the terms select the incoming pod itself. */
  ghost predicate AffinityHolds(w: Written, nodes: Snapshot, target: Node) {
    && (forall t | t in w.affinity :: t.topologyKey in target.labels)
    && (|| (forall t | t in w.affinity :: Accompanied(w, nodes, target, t.topologyKey))
        || (!Started(w, nodes) && w.SelectsAll(w.pod)))
  }

  ghost predicate WrittenAccepts(w: Written, nodes: Snapshot, target: Node) {
    AffinityHolds(w, nodes, target) && !Objects(w, nodes, target) && !Objected(w, nodes, target)
  }

  // ---- The filter decides it ----

  /** No term of the incoming pod is odd for a pod present, nor one of its
      affinity terms for the incoming pod itself. */
  ghost predicate NothingOdd(w: Written, nodes: Snapshot) {
    && (forall i, j, t | Present(nodes, i, j) && (t in w.affinity || t in w.antiAffinity) ::
          !Odd(t, w.lister, nodes[i].pods[j].pod))
    && forall t | t in w.affinity :: !Odd(t, w.lister, w.pod)
  }

  /** Unrolling keeps the terms in place and their keys. */
  lemma UnrolledMembers(terms: seq<AffinityTerm>, lister: Lister)
    ensures forall t | t in terms :: Unrolled(t, lister) in AllUnrolled(terms, lister)
    ensures forall u | u in AllUnrolled(terms, lister) ::
              exists t :: t in terms && u == Unrolled(t, lister) && u.topologyKey == t.topologyKey
  {
    forall t | t in terms ensures Unrolled(t, lister) in AllUnrolled(terms, lister) {
      var k :| 0 <= k < |terms| && terms[k] == t;
      assert AllUnrolled(terms, lister)[k] == Unrolled(t, lister);
    }
  }

  lemma SelectsAllAlike(w: Written, q: Pod)
    requires forall t | t in w.affinity :: !Odd(t, w.lister, q)
    ensures MatchesAll(w.Resolved().affinity, q) <==> w.SelectsAll(q)
  {
    UnrolledMembers(w.affinity, w.lister);
    forall t | t in w.affinity ensures Unrolled(t, w.lister).Matches(q, map[]) <==> Selects(t, w.lister, q) {
      UnrolledMatches(t, w.lister, q);
    }
  }

  lemma ObjectsAlike(w: Written, nodes: Snapshot, target: Node)
    requires NothingOdd(w, nodes)
    ensures IncomingConflict(w.Resolved(), nodes, target) <==> Objects(w, nodes, target)
  {
    UnrolledMembers(w.antiAffinity, w.lister);
    forall i, j, t | Present(nodes, i, j) && t in w.antiAffinity
      ensures Unrolled(t, w.lister).Matches(nodes[i].pods[j].pod, map[]) <==> Selects(t, w.lister, nodes[i].pods[j].pod)
    {
      UnrolledMatches(t, w.lister, nodes[i].pods[j].pod);
    }
  }

  lemma PresentAlike(w: Written, nodes: Snapshot)
    requires NothingOdd(w, nodes)
    ensures forall i, j | Present(nodes, i, j) ::
              MatchesAll(w.Resolved().affinity, nodes[i].pods[j].pod) <==> w.SelectsAll(nodes[i].pods[j].pod)
  {
    forall i, j | Present(nodes, i, j)
      ensures MatchesAll(w.Resolved().affinity, nodes[i].pods[j].pod) <==> w.SelectsAll(nodes[i].pods[j].pod)
    {
      SelectsAllAlike(w, nodes[i].pods[j].pod);
    }
  }

  lemma CompanionAlike(w: Written, nodes: Snapshot, target: Node, key: string)
    requires NothingOdd(w, nodes)
    ensures HasCompanion(w.Resolved(), nodes, target, key) <==> Accompanied(w, nodes, target, key)
  {
    PresentAlike(w, nodes);
  }

  lemma StartedAlike(w: Written, nodes: Snapshot)
    requires NothingOdd(w, nodes)
    ensures SeriesStarted(w.Resolved(), nodes) <==> Started(w, nodes)
  {
    PresentAlike(w, nodes);
    UnrolledMembers(w.affinity, w.lister);
    if Started(w, nodes) {
      var i, j, t :| Present(nodes, i, j) && w.SelectsAll(nodes[i].pods[j].pod) &&
        t in w.affinity && t.topologyKey in nodes[i].node.labels;
      assert Unrolled(t, w.lister) in w.Resolved().affinity;
      assert Unrolled(t, w.lister).topologyKey in nodes[i].node.labels;
    }
  }

  /** What holds of the keys of all unrolled terms holds of those as merged. */
  lemma KeysAlike(w: Written, p: string -> bool)
    ensures (forall u | u in w.Resolved().affinity :: p(u.topologyKey)) <==>
            (forall t | t in w.affinity :: p(t.topologyKey))
  {
    UnrolledMembers(w.affinity, w.lister);
    if forall u | u in w.Resolved().affinity :: p(u.topologyKey) {
      forall t | t in w.affinity ensures p(t.topologyKey) {
        assert Unrolled(t, w.lister).topologyKey == t.topologyKey;
      }
    }
  }

  lemma AffinityAlike(w: Written, nodes: Snapshot, target: Node)
    requires NothingOdd(w, nodes)
    ensures AffinityOk(w.Resolved(), nodes, target) <==> AffinityHolds(w, nodes, target)
  {
    KeysAlike(w, key => key in target.labels);
    StartedAlike(w, nodes);
    AccompaniedAlike(w, nodes, target);
    SelectsAllAlike(w, w.pod);
  }

  lemma AccompaniedAlike(w: Written, nodes: Snapshot, target: Node)
    requires NothingOdd(w, nodes)
    ensures (forall u | u in w.Resolved().affinity :: HasCompanion(w.Resolved(), nodes, target, u.topologyKey)) <==>
            (forall t | t in w.affinity :: Accompanied(w, nodes, target, t.topologyKey))
  {
    forall key ensures HasCompanion(w.Resolved(), nodes, target, key) <==> Accompanied(w, nodes, target, key) {
      CompanionAlike(w, nodes, target, key);
    }
    KeysAlike(w, key => HasCompanion(w.Resolved(), nodes, target, key));
  }

  /** On the exact counts of a snapshot without odd pairs, the filter passes a
      node exactly when the terms as merged, each pod judged by the labels of
      its namespace, accept it. */
  lemma WrittenVerdict(pod: Pod, schedulingClass: Option<SchedulingClass>, keys: seq<string>, lister: Lister,
      nodes: Snapshot, v: View, target: Node)
    requires Exact(IncomingOf(pod, schedulingClass, keys, lister), nodes, v)
    requires NothingOdd(WrittenOf(pod, schedulingClass, keys, lister), nodes)
    ensures Passes(IncomingOf(pod, schedulingClass, keys, lister), v, target) <==>
            WrittenAccepts(WrittenOf(pod, schedulingClass, keys, lister), nodes, target)
  {
    var w := WrittenOf(pod, schedulingClass, keys, lister);
    ExactVerdict(w.Resolved(), nodes, v, target);
    AffinityAlike(w, nodes, target);
    ObjectsAlike(w, nodes, target);
  }

  /** There are no odd pairs when the lister knows the namespaces of all pods. */
  lemma KnownIsNotOdd(w: Written, nodes: Snapshot)
    requires w.pod.namespace in w.lister
    requires forall i, j | Present(nodes, i, j) :: nodes[i].pods[j].pod.namespace in w.lister
    ensures NothingOdd(w, nodes)
  {
  }

  /** So the filter decides what the merged terms say in such a cluster. */
  lemma KnownVerdict(pod: Pod, schedulingClass: Option<SchedulingClass>, keys: seq<string>, lister: Lister,
      nodes: Snapshot, v: View, target: Node)
    requires Exact(IncomingOf(pod, schedulingClass, keys, lister), nodes, v)
    requires pod.namespace in lister
    requires forall i, j | Present(nodes, i, j) :: nodes[i].pods[j].pod.namespace in lister
    ensures Passes(IncomingOf(pod, schedulingClass, keys, lister), v, target) <==>
            WrittenAccepts(WrittenOf(pod, schedulingClass, keys, lister), nodes, target)
  {
    KnownIsNotOdd(WrittenOf(pod, schedulingClass, keys, lister), nodes);
    WrittenVerdict(pod, schedulingClass, keys, lister, nodes, v, target);
  }
}
