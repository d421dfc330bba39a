/** The inter-pod affinity filter: three sparse count maps, filled by parallel
    workers, updated pod by pod, and the verdict read off them. */
module AffinityFilter {
  import opened Labels
  import opened Cluster
  import opened Sums
  import opened TermCounts
  import opened AffinityDefs
  import opened Namespaces
  import opened ResultSlots
  import Merger

  datatype Status = Success | Unschedulable | UnschedulableAndUnresolvable

  /** The three maps as a value. */
  datatype View = View(existing: PairCounts, affinity: PairCounts, anti: PairCounts) {
    function Of(kind: Kind): PairCounts {
      match kind
      case Existing => existing
      case Affinity => affinity
      case Anti => anti
    }
  }

  /** The map of `kind` holds exactly the non-zero counts of the snapshot. */
  ghost predicate Counts(kind: Kind, inc: Incoming, nodes: Snapshot, m: PairCounts) {
    && Tidy(m)
    && forall pair :: Lookup(m, pair) == PairCount(kind, inc, nodes, pair)
  }

  ghost predicate Exact(inc: Incoming, nodes: Snapshot, v: View) {
    forall kind: Kind :: Counts(kind, inc, nodes, v.Of(kind))
  }

  lemma ExactFromCounts(inc: Incoming, nodes: Snapshot, v: View)
    requires Counts(Existing, inc, nodes, v.existing) && Counts(Affinity, inc, nodes, v.affinity)
    requires Counts(Anti, inc, nodes, v.anti)
    ensures Exact(inc, nodes, v)
  {
    forall kind: Kind ensures Counts(kind, inc, nodes, v.Of(kind)) {
      match kind
      case Existing =>
      case Affinity =>
      case Anti =>
    }
  }

  /** `v'` is `v` after `times` occurrences of pod `p` on `node`. */
  ghost predicate Moved(inc: Incoming, v: View, v': View, p: PodInfo, node: Node, times: int) {
    forall kind: Kind ::
      && (Tidy(v.Of(kind)) ==> Tidy(v'.Of(kind)))
      && forall pair ::
        Lookup(v'.Of(kind), pair) == Lookup(v.Of(kind), pair) + PodShare(kind, inc, node, pair, p) * times
  }

  class PreFilterState {
    const incoming: Incoming
    const existingAntiAffinityCounts: TopologyToMatchedTermCount
    const affinityCounts: TopologyToMatchedTermCount
    const antiAffinityCounts: TopologyToMatchedTermCount

    ghost const Repr: set<object> := {existingAntiAffinityCounts, affinityCounts, antiAffinityCounts}

    ghost predicate Valid() {
      && existingAntiAffinityCounts != affinityCounts
      && existingAntiAffinityCounts != antiAffinityCounts
      && affinityCounts != antiAffinityCounts
    }

    ghost function Value(): View
      reads existingAntiAffinityCounts, affinityCounts, antiAffinityCounts
    {
      View(existingAntiAffinityCounts.counts, affinityCounts.counts, antiAffinityCounts.counts)
    }

    constructor (incoming: Incoming, existing: TopologyToMatchedTermCount, affinity: TopologyToMatchedTermCount,
        anti: TopologyToMatchedTermCount)
      requires existing != affinity && existing != anti && affinity != anti
      ensures Valid() && this.incoming == incoming
      ensures existingAntiAffinityCounts == existing && affinityCounts == affinity && antiAffinityCounts == anti
    {
      this.incoming := incoming;
      existingAntiAffinityCounts := existing;
      affinityCounts := affinity;
      antiAffinityCounts := anti;
    }

    method Clone() returns (copy: PreFilterState)
      requires Valid()
      ensures fresh(copy) && fresh(copy.Repr) && copy.Valid() && copy.incoming == incoming
      ensures copy.Value() == Value()
    {
      var affinity := affinityCounts.Clone();
      var anti := antiAffinityCounts.Clone();
      var existing := existingAntiAffinityCounts.Clone();
      copy := new PreFilterState(incoming, existing, affinity, anti);
    }

    /** Counts `p` in (`multiplier` 1) or out (`multiplier` -1) of `node`. */
    method UpdateWithPod(p: PodInfo, node: Node, multiplier: int)
      requires Valid()
      modifies existingAntiAffinityCounts, affinityCounts, antiAffinityCounts
      ensures Moved(incoming, old(Value()), Value(), p, node, multiplier)
    {
      existingAntiAffinityCounts.UpdateWithAntiAffinityTerms(p.requiredAntiAffinityTerms, incoming.pod,
          incoming.nsLabels, node, multiplier);
      affinityCounts.UpdateWithAffinityTerms(incoming.affinity, p.pod, node, multiplier);
      antiAffinityCounts.UpdateWithAntiAffinityTerms(incoming.antiAffinity, p.pod, map[], node, multiplier);
    }

    // ---- The three checks ----

    /** Walks the node's labels in an arbitrary order. */
    method SatisfyExistingPodsAntiAffinity(node: Node) returns (ok: bool)
      ensures ok <==> ExistingPasses(Value(), node)
    {
      if |existingAntiAffinityCounts.counts| > 0 {
        var rest := node.labels.Keys;
        while rest != {}
          invariant rest <= node.labels.Keys
          invariant forall key | key in node.labels && key !in rest ::
            Lookup(existingAntiAffinityCounts.counts, DomainOf(node, key)) <= 0
          decreases rest
        {
          var key :| key in rest;
          if Lookup(existingAntiAffinityCounts.counts, DomainOf(node, key)) > 0 {
            return false;
          }
          rest := rest - {key};
        }
      }
      ok := true;
    }

    method SatisfyPodAntiAffinity(node: Node) returns (ok: bool)
      ensures ok <==> AntiPasses(incoming, Value(), node)
    {
      if |antiAffinityCounts.counts| > 0 {
        var terms := incoming.antiAffinity;
        for i := 0 to |terms|
          invariant forall j | 0 <= j < i :: terms[j].topologyKey in node.labels ==>
            Lookup(antiAffinityCounts.counts, DomainOf(node, terms[j].topologyKey)) <= 0
        {
          var key := terms[i].topologyKey;
          if key in node.labels {
            if Lookup(antiAffinityCounts.counts, DomainOf(node, key)) > 0 {
              return false;
            }
          }
        }
      }
      ok := true;
    }

    method SatisfyPodAffinity(node: Node) returns (ok: bool)
      ensures ok <==> AffinityPasses(incoming, Value(), node)
    {
      var podsExist := true;
      var terms := incoming.affinity;
      for i := 0 to |terms|
        invariant forall j | 0 <= j < i :: terms[j].topologyKey in node.labels
        invariant podsExist <==> forall j | 0 <= j < i ::
          Lookup(affinityCounts.counts, DomainOf(node, terms[j].topologyKey)) > 0
      {
        var key := terms[i].topologyKey;
        if key in node.labels {
          if Lookup(affinityCounts.counts, DomainOf(node, key)) <= 0 {
            podsExist := false;
          }
        } else {
          return false;
        }
      }
      if !podsExist {
        if |affinityCounts.counts| == 0 {
          ok := PodMatchesAllAffinityTerms(terms, incoming.pod);
          return;
        }
        return false;
      }
      ok := true;
    }

    method Filter(node: Node) returns (status: Status)
      ensures status.Success? <==> Passes(incoming, Value(), node)
      ensures status.UnschedulableAndUnresolvable? <==> !AffinityPasses(incoming, Value(), node)
    {
      var ok := SatisfyPodAffinity(node);
      if !ok {
        return UnschedulableAndUnresolvable;
      }
      ok := SatisfyPodAntiAffinity(node);
      if !ok {
        return Unschedulable;
      }
      ok := SatisfyExistingPodsAntiAffinity(node);
      if !ok {
        return Unschedulable;
      }
      status := Success;
    }
  }

  // ---- The verdict on the counts ----

  ghost predicate ExistingPasses(v: View, node: Node) {
    forall key | key in node.labels :: Lookup(v.existing, DomainOf(node, key)) <= 0
  }

  ghost predicate AntiPasses(inc: Incoming, v: View, node: Node) {
    forall t | t in inc.antiAffinity && t.topologyKey in node.labels ::
      Lookup(v.anti, DomainOf(node, t.topologyKey)) <= 0
  }

  ghost predicate AffinityPasses(inc: Incoming, v: View, node: Node) {
    && HasAllKeys(inc, node)
    && (|| (forall t | t in inc.affinity :: Lookup(v.affinity, DomainOf(node, t.topologyKey)) > 0)
        || (v.affinity == map[] && MatchesAll(inc.affinity, inc.pod)))
  }

  ghost predicate Passes(inc: Incoming, v: View, node: Node) {
    AffinityPasses(inc, v, node) && AntiPasses(inc, v, node) && ExistingPasses(v, node)
  }

  /** On the exact counts of a snapshot the verdict is the pairwise definition. */
  lemma ExactVerdict(inc: Incoming, nodes: Snapshot, v: View, node: Node)
    requires Exact(inc, nodes, v)
    ensures Passes(inc, v, node) <==> Accepts(inc, nodes, node)
    ensures AffinityPasses(inc, v, node) <==> AffinityOk(inc, nodes, node)
  {
    assert Counts(Existing, inc, nodes, v.Of(Existing));
    ExistingConflictCounted(inc, nodes, node);
    assert Counts(Anti, inc, nodes, v.Of(Anti));
    IncomingConflictCounted(inc, nodes, node);
    AffinityVerdict(inc, nodes, v, node);
  }

  lemma AffinityVerdict(inc: Incoming, nodes: Snapshot, v: View, node: Node)
    requires Exact(inc, nodes, v)
    ensures AffinityPasses(inc, v, node) <==> AffinityOk(inc, nodes, node)
  {
    assert Counts(Affinity, inc, nodes, v.Of(Affinity));
    SeriesCounted(inc, nodes);
    NoEntriesNoSeries(inc, nodes, v.affinity);
    forall t | t in inc.affinity && t.topologyKey in node.labels
      ensures HasCompanion(inc, nodes, node, t.topologyKey) <==> Lookup(v.affinity, DomainOf(node, t.topologyKey)) > 0
    {
      CompanionCounted(inc, nodes, node, t);
    }
  }

  lemma NoEntriesNoSeries(inc: Incoming, nodes: Snapshot, m: PairCounts)
    requires Counts(Affinity, inc, nodes, m)
    ensures m == map[] <==> !exists pair :: PairCount(Affinity, inc, nodes, pair) > 0
  {
    forall pair ensures PairCount(Affinity, inc, nodes, pair) >= 0 {
      PairCountSign(Affinity, inc, nodes, pair);
    }
    if m != map[] {
      var pair :| pair in m;
      assert PairCount(Affinity, inc, nodes, pair) == Lookup(m, pair);
    } else {
      assert forall pair :: PairCount(Affinity, inc, nodes, pair) == Lookup(m, pair);
    }
  }

  // ---- Filling the maps ----

  type Lists = seq<seq<TopologyPairCount>>

  ghost function ListCountFn(pair: TopologyPair): seq<TopologyPairCount> -> int {
    (list: seq<TopologyPairCount>) => ListCount(list, pair)
  }

  /** The list counts what the pods of node `ni` contribute. */
  ghost predicate CountsNode(kind: Kind, inc: Incoming, ni: NodeInfo, list: seq<TopologyPairCount>) {
    && AllOnes(list)
    && forall pair :: ListCount(list, pair) == NodeShare(kind, inc, pair, ni)
  }

  /** The lists together count what the nodes in `done` contribute. */
  ghost predicate CountsDone(kind: Kind, inc: Incoming, nodes: Snapshot, done: set<nat>, lists: Lists) {
    && (forall l | l in lists :: AllOnes(l))
    && forall pair :: Sum(lists, ListCountFn(pair)) == SumDone(nodes, NodeShareFn(kind, inc, pair), done)
  }

  lemma OneMoreList(kind: Kind, inc: Incoming, nodes: Snapshot, done: set<nat>, i: nat, lists: Lists,
      list: seq<TopologyPairCount>)
    requires i < |nodes| && i !in done
    requires CountsDone(kind, inc, nodes, done, lists) && CountsNode(kind, inc, nodes[i], list)
    ensures CountsDone(kind, inc, nodes, done + {i}, lists + [list])
    ensures list == [] ==> CountsDone(kind, inc, nodes, done + {i}, lists)
  {
    assert (lists + [list])[..|lists|] == lists;
    forall pair {
      SumDoneStep(nodes, NodeShareFn(kind, inc, pair), done, i);
    }
  }

  lemma NoLists(kind: Kind, inc: Incoming, nodes: Snapshot)
    ensures CountsDone(kind, inc, nodes, {}, [])
  {
    forall pair {
      SumDoneNone(nodes, NodeShareFn(kind, inc, pair));
    }
  }

  /** Adds up the workers' lists. */
  method MergeLists(kind: Kind, inc: Incoming, ghost nodes: Snapshot, lists: Lists)
      returns (m: TopologyToMatchedTermCount)
    requires CountsDone(kind, inc, nodes, Indices(|nodes|), lists)
    ensures fresh(m) && Positive(m.counts) && Counts(kind, inc, nodes, m.counts)
  {
    m := new TopologyToMatchedTermCount();
    for i := 0 to |lists|
      invariant Positive(m.counts) && fresh(m)
      invariant forall pair :: Lookup(m.counts, pair) == Sum(lists[..i], ListCountFn(pair))
    {
      assert lists[..i + 1][..i] == lists[..i];
      m.MergeWithList(lists[i]);
    }
    assert lists[..|lists|] == lists;
    forall pair {
      SumDoneAll(nodes, NodeShareFn(kind, inc, pair), Indices(|nodes|));
    }
  }

  predicate HasAntiAffinity(p: PodInfo) {
    |p.requiredAntiAffinityTerms| > 0
  }

  function PodsWithRequiredAntiAffinity(ni: NodeInfo): seq<PodInfo> {
    Filter(ni.pods, HasAntiAffinity)
  }

  predicate HasPodsWithAntiAffinity(ni: NodeInfo) {
    |PodsWithRequiredAntiAffinity(ni)| > 0
  }

  /** The part of the snapshot the first builder reads. */
  function HavePodsWithRequiredAntiAffinity(nodes: Snapshot): Snapshot {
    Filter(nodes, HasPodsWithAntiAffinity)
  }

  lemma OnlyAntiAffinityPodsCount(inc: Incoming, pair: TopologyPair, ni: NodeInfo)
    ensures Sum(PodsWithRequiredAntiAffinity(ni), PodShareFn(Existing, inc, ni.node, pair)) ==
            NodeShare(Existing, inc, pair, ni)
  {
    SumFilter(ni.pods, HasAntiAffinity, PodShareFn(Existing, inc, ni.node, pair));
  }

  lemma OnlyAntiAffinityNodesCount(inc: Incoming, nodes: Snapshot, pair: TopologyPair)
    ensures PairCount(Existing, inc, HavePodsWithRequiredAntiAffinity(nodes), pair) ==
            PairCount(Existing, inc, nodes, pair)
  {
    forall k | 0 <= k < |nodes| && !HasPodsWithAntiAffinity(nodes[k])
      ensures NodeShareFn(Existing, inc, pair)(nodes[k]) == 0
    {
      OnlyAntiAffinityPodsCount(inc, pair, nodes[k]);
    }
    SumFilter(nodes, HasPodsWithAntiAffinity, NodeShareFn(Existing, inc, pair));
  }

  method ProcessNodeExisting(inc: Incoming, ni: NodeInfo) returns (list: seq<TopologyPairCount>)
    ensures CountsNode(Existing, inc, ni, list)
  {
    list := [];
    var pods := PodsWithRequiredAntiAffinity(ni);
    for j := 0 to |pods|
      invariant AllOnes(list)
      invariant forall pair :: ListCount(list, pair) == Sum(pods[..j], PodShareFn(Existing, inc, ni.node, pair))
    {
      assert pods[..j + 1][..j] == pods[..j];
      list := AppendWithAntiAffinityTerms(list, pods[j].requiredAntiAffinityTerms, inc.pod, inc.nsLabels, ni.node);
    }
    assert pods[..|pods|] == pods;
    forall pair {
      OnlyAntiAffinityPodsCount(inc, pair, ni);
    }
  }

  /** Workers finish in any order and claim the next free slot when they have
      something to report. */
  method CollectExisting(inc: Incoming, nodes: Snapshot) returns (claimed: Lists)
    ensures CountsDone(Existing, inc, nodes, Indices(|nodes|), claimed)
  {
    var lists := new ResultSlots<seq<TopologyPairCount>>(|nodes|, []);
    var pending := Indices(|nodes|);
    ghost var done: set<nat> := {};
    NoLists(Existing, inc, nodes);
    while pending != {}
      invariant pending <= Indices(|nodes|) && done == Indices(|nodes|) - pending
      invariant fresh(lists) && fresh(lists.slots) && lists.Valid() && lists.slots.Length == |nodes|
      invariant lists.index + 1 + |pending| <= |nodes|
      invariant CountsDone(Existing, inc, nodes, done, lists.Claimed())
      decreases pending
    {
      var i :| i in pending;
      var list := ProcessNodeExisting(inc, nodes[i]);
      ghost var before := lists.Claimed();
      if |list| != 0 {
        lists.Claim(list);
      }
      assert lists.Claimed() == before + [list] || (list == [] && lists.Claimed() == before);
      OneMoreList(Existing, inc, nodes, done, i, before, list);
      pending := pending - {i};
      done := done + {i};
    }
    assert done == Indices(|nodes|);
    claimed := lists.Result();
  }

  method GetExistingAntiAffinityCounts(inc: Incoming, nodes: Snapshot) returns (result: TopologyToMatchedTermCount)
    ensures fresh(result) && Positive(result.counts) && Counts(Existing, inc, nodes, result.counts)
  {
    var claimed := CollectExisting(inc, nodes);
    result := MergeLists(Existing, inc, nodes, claimed);
  }

  method ProcessNodeIncoming(inc: Incoming, ni: NodeInfo) returns (affinity: seq<TopologyPairCount>,
      anti: seq<TopologyPairCount>)
    ensures CountsNode(Affinity, inc, ni, affinity) && CountsNode(Anti, inc, ni, anti)
  {
    affinity, anti := [], [];
    for j := 0 to |ni.pods|
      invariant AllOnes(affinity) && AllOnes(anti)
      invariant forall pair :: ListCount(affinity, pair) == Sum(ni.pods[..j], PodShareFn(Affinity, inc, ni.node, pair))
      invariant forall pair :: ListCount(anti, pair) == Sum(ni.pods[..j], PodShareFn(Anti, inc, ni.node, pair))
    {
      assert ni.pods[..j + 1][..j] == ni.pods[..j];
      affinity := AppendWithAffinityTerms(affinity, inc.affinity, ni.pods[j].pod, ni.node);
      anti := AppendWithAntiAffinityTerms(anti, inc.antiAffinity, ni.pods[j].pod, map[], ni.node);
    }
    assert ni.pods[..|ni.pods|] == ni.pods;
  }

  lemma NoTermsNoCounts(kind: Kind, inc: Incoming, nodes: Snapshot)
    requires (kind.Affinity? && inc.affinity == []) || (kind.Anti? && inc.antiAffinity == [])
    ensures Counts(kind, inc, nodes, map[])
  {
    forall pair ensures PairCount(kind, inc, nodes, pair) == 0 {
      PairCountSign(kind, inc, nodes, pair);
    }
  }

  /** What a worker of the second builder reports: both lists of its node. */
  datatype NodeLists = NodeLists(affinity: seq<TopologyPairCount>, anti: seq<TopologyPairCount>)

  function AffinityLists(rs: seq<NodeLists>): Lists {
    seq(|rs|, i requires 0 <= i < |rs| => rs[i].affinity)
  }

  function AntiLists(rs: seq<NodeLists>): Lists {
    seq(|rs|, i requires 0 <= i < |rs| => rs[i].anti)
  }

  ghost predicate ReportsDone(inc: Incoming, nodes: Snapshot, done: set<nat>, rs: seq<NodeLists>) {
    CountsDone(Affinity, inc, nodes, done, AffinityLists(rs)) && CountsDone(Anti, inc, nodes, done, AntiLists(rs))
  }

  lemma OneMoreReport(inc: Incoming, nodes: Snapshot, done: set<nat>, i: nat, rs: seq<NodeLists>, r: NodeLists)
    requires i < |nodes| && i !in done && ReportsDone(inc, nodes, done, rs)
    requires CountsNode(Affinity, inc, nodes[i], r.affinity) && CountsNode(Anti, inc, nodes[i], r.anti)
    ensures ReportsDone(inc, nodes, done + {i}, rs + [r])
    ensures r == NodeLists([], []) ==> ReportsDone(inc, nodes, done + {i}, rs)
  {
    OneMoreList(Affinity, inc, nodes, done, i, AffinityLists(rs), r.affinity);
    OneMoreList(Anti, inc, nodes, done, i, AntiLists(rs), r.anti);
    assert AffinityLists(rs + [r]) == AffinityLists(rs) + [r.affinity];
    assert AntiLists(rs + [r]) == AntiLists(rs) + [r.anti];
  }

  /** One worker of the second builder; the two lists of a node go to the same
      slot. */
  method ReportNode(inc: Incoming, nodes: Snapshot, i: nat, slots: ResultSlots<NodeLists>, ghost done: set<nat>)
    requires i < |nodes| && i !in done && slots.Valid() && slots.index + 1 < slots.slots.Length
    requires ReportsDone(inc, nodes, done, slots.Claimed())
    modifies slots, slots.slots
    ensures slots.Valid() && slots.index <= old(slots.index) + 1
    ensures ReportsDone(inc, nodes, done + {i}, slots.Claimed())
  {
    var affinity, anti := ProcessNodeIncoming(inc, nodes[i]);
    OneMoreReport(inc, nodes, done, i, slots.Claimed(), NodeLists(affinity, anti));
    if |affinity| > 0 || |anti| > 0 {
      slots.Claim(NodeLists(affinity, anti));
    }
  }

  /** The parallel phase: workers finish in any order. */
  method CollectIncoming(inc: Incoming, nodes: Snapshot) returns (reports: seq<NodeLists>)
    ensures ReportsDone(inc, nodes, Indices(|nodes|), reports)
  {
    var slots := new ResultSlots<NodeLists>(|nodes|, NodeLists([], []));
    var pending := Indices(|nodes|);
    ghost var done: set<nat> := {};
    NoLists(Affinity, inc, nodes);
    NoLists(Anti, inc, nodes);
    while pending != {}
      invariant pending <= Indices(|nodes|) && done == Indices(|nodes|) - pending
      invariant fresh(slots) && fresh(slots.slots) && slots.Valid() && slots.slots.Length == |nodes|
      invariant slots.index + 1 + |pending| <= |nodes|
      invariant ReportsDone(inc, nodes, done, slots.Claimed())
      decreases pending
    {
      var i :| i in pending;
      ReportNode(inc, nodes, i, slots, done);
      pending := pending - {i};
      done := done + {i};
    }
    assert done == Indices(|nodes|);
    reports := slots.Result();
  }

  method GetIncomingAffinityAntiAffinityCounts(inc: Incoming, nodes: Snapshot)
    returns (affinityCounts: TopologyToMatchedTermCount, antiAffinityCounts: TopologyToMatchedTermCount)
    ensures fresh(affinityCounts) && fresh(antiAffinityCounts) && affinityCounts != antiAffinityCounts
    ensures Positive(affinityCounts.counts) && Counts(Affinity, inc, nodes, affinityCounts.counts)
    ensures Positive(antiAffinityCounts.counts) && Counts(Anti, inc, nodes, antiAffinityCounts.counts)
  {
    if |inc.affinity| == 0 && |inc.antiAffinity| == 0 {
      affinityCounts := new TopologyToMatchedTermCount();
      antiAffinityCounts := new TopologyToMatchedTermCount();
      NoTermsNoCounts(Affinity, inc, nodes);
      NoTermsNoCounts(Anti, inc, nodes);
      return;
    }
    var reports := CollectIncoming(inc, nodes);
    affinityCounts := MergeLists(Affinity, inc, nodes, AffinityLists(reports));
    antiAffinityCounts := MergeLists(Anti, inc, nodes, AntiLists(reports));
  }

  // ---- PreFilter ----

  /** The required terms a pod is scheduled by: its own, then its class's. */
  function RequiredTerms(pod: Pod, schedulingClass: Option<Merger.SchedulingClass>,
      keys: seq<string>): (seq<AffinityTerm>, seq<AffinityTerm>) {
    if schedulingClass.Some? then
      var m := Merger.MergedAffinity(pod, schedulingClass.value, keys);
      (m.requiredAffinity, m.requiredAntiAffinity)
    else (GetAffinityTerms(pod, RequiredOf(pod.podAffinity)), GetAffinityTerms(pod, RequiredOf(pod.podAntiAffinity)))
  }

  function IncomingOf(pod: Pod, schedulingClass: Option<Merger.SchedulingClass>, keys: seq<string>,
      lister: Lister): Incoming {
    var terms := RequiredTerms(pod, schedulingClass, keys);
    Incoming(pod, AllUnrolled(terms.0, lister), AllUnrolled(terms.1, lister), NamespaceLabels(lister, pod.namespace))
  }

  method UnrollTerms(terms: seq<AffinityTerm>, lister: Lister) returns (r: seq<AffinityTerm>)
    ensures r == AllUnrolled(terms, lister)
  {
    var a := new AffinityTerm[|terms|](i requires 0 <= i < |terms| => terms[i]);
    assert a[..] == terms;
    MergeAllNamespaces(a, lister);
    r := a[..];
  }

  lemma FewerNodesSameCounts(inc: Incoming, nodes: Snapshot, m: PairCounts)
    requires Counts(Existing, inc, HavePodsWithRequiredAntiAffinity(nodes), m)
    ensures Counts(Existing, inc, nodes, m)
  {
    forall pair ensures Lookup(m, pair) == PairCount(Existing, inc, nodes, pair) {
      OnlyAntiAffinityNodesCount(inc, nodes, pair);
    }
  }

  method ResolveIncoming(pod: Pod, schedulingClass: Option<Merger.SchedulingClass>, keys: seq<string>,
      lister: Lister) returns (inc: Incoming)
    ensures inc == IncomingOf(pod, schedulingClass, keys, lister)
  {
    var info := NewPodInfo(pod);
    var merged := Merger.MergeInterPodAffinity(pod, schedulingClass, keys);
    if merged.Some? {
      info := info.(requiredAffinityTerms := merged.value.requiredAffinity,
                    requiredAntiAffinityTerms := merged.value.requiredAntiAffinity);
    }
    var affinity := UnrollTerms(info.requiredAffinityTerms, lister);
    var anti := UnrollTerms(info.requiredAntiAffinityTerms, lister);
    inc := Incoming(pod, affinity, anti, NamespaceLabels(lister, pod.namespace));
  }

  /** Without counted pairs no existing pod objects to any node, and conversely. */
  lemma NothingCounted(inc: Incoming, nodes: Snapshot, m: PairCounts)
    requires Counts(Existing, inc, nodes, m)
    ensures m == map[] <==> forall node :: !ExistingConflict(inc, nodes, node)
  {
    if m != map[] {
      var pair :| pair in m;
      var node := Node("", map[pair.key := pair.value], []);
      PairCountSign(Existing, inc, nodes, pair);
      assert PairCount(Existing, inc, nodes, DomainOf(node, pair.key)) == Lookup(m, pair);
      ExistingConflictCounted(inc, nodes, node);
    } else {
      forall node ensures !ExistingConflict(inc, nodes, node) {
        ExistingConflictCounted(inc, nodes, node);
        assert forall key | key in node.labels ::
          PairCount(Existing, inc, nodes, DomainOf(node, key)) == Lookup(m, DomainOf(node, key));
      }
    }
  }

  /** Computes the state. A skip is reported exactly when the pod has no required
      terms and no existing pod objects to any node; then the filter would accept
      every node. */
  method PreFilter(pod: Pod, schedulingClass: Option<Merger.SchedulingClass>, keys: seq<string>, lister: Lister,
      nodes: Snapshot)
    returns (state: PreFilterState, skip: bool)
    ensures fresh(state) && fresh(state.Repr) && state.Valid()
    ensures state.incoming == IncomingOf(pod, schedulingClass, keys, lister)
    ensures Exact(state.incoming, nodes, state.Value())
    ensures skip <==> && state.incoming.affinity == [] && state.incoming.antiAffinity == []
                      && forall node :: !ExistingConflict(state.incoming, nodes, node)
    ensures skip ==> forall node :: Accepts(state.incoming, nodes, node)
  {
    var inc := ResolveIncoming(pod, schedulingClass, keys, lister);
    var existing := GetExistingAntiAffinityCounts(inc, HavePodsWithRequiredAntiAffinity(nodes));
    FewerNodesSameCounts(inc, nodes, existing.counts);
    var affinityCounts, antiAffinityCounts := GetIncomingAffinityAntiAffinityCounts(inc, nodes);
    ExactFromCounts(inc, nodes, View(existing.counts, affinityCounts.counts, antiAffinityCounts.counts));
    state := new PreFilterState(inc, existing, affinityCounts, antiAffinityCounts);
    skip := |existing.counts| == 0 && |inc.affinity| == 0 && |inc.antiAffinity| == 0;
    NothingCounted(inc, nodes, existing.counts);
  }
}
