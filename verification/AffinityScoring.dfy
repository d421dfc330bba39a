/** Inter-pod affinity scoring: weights of preferred terms, accumulated per
    topology value, summed for a node, and normalized. */
module AffinityScoring {
  import opened Labels
  import opened Cluster
  import opened Sums
  import opened TermCounts
  import opened AffinityDefs
  import opened ResultSlots
  import opened Namespaces
  import opened Scores
  import Merger

  /** What one scoring attempt reads: the incoming pod, its preferred terms with
      namespaces unrolled, and the weight of other pods' required affinity. */
  datatype PreScoreInput = PreScoreInput(
    pod: Pod,
    preferredAffinity: seq<WeightedAffinityTerm>,
    preferredAntiAffinity: seq<WeightedAffinityTerm>,
    nsLabels: Labels,
    hardPodAffinityWeight: int)

  /** Which topology values a weight is looked at for: one pair, or the values
      that a target node shares under some of the keys. */
  datatype Scope = Pair(pair: TopologyPair) | SharedWith(target: Node, keys: set<string>) {
    predicate Covers(node: Node, key: string) {
      match this
      case Pair(pair) => Hits(node, key, pair)
      case SharedWith(target, keys) => key in keys && SameDomain(node, target, key)
    }
  }

  // ---- The direct definition ----

  ghost function TermFn(scope: Scope, pod: Pod, nsLabels: Labels, node: Node,
      multiplier: int): WeightedAffinityTerm -> int {
    (t: WeightedAffinityTerm) =>
      if t.term.Matches(pod, nsLabels) && scope.Covers(node, t.term.topologyKey) then t.weight * multiplier else 0
  }

  ghost function TermsWeight(scope: Scope, terms: seq<WeightedAffinityTerm>, pod: Pod, nsLabels: Labels, node: Node,
      multiplier: int): int {
    Sum(terms, TermFn(scope, pod, nsLabels, node, multiplier))
  }

  /** Required affinity of existing pods, weighted if the weight is positive. */
  function HardTerms(p: PodInfo, weight: int): seq<WeightedAffinityTerm> {
    if weight > 0
    then seq(|p.requiredAffinityTerms|, i requires 0 <= i < |p.requiredAffinityTerms| =>
           WeightedAffinityTerm(p.requiredAffinityTerms[i], weight))
    else []
  }

  /** The signed weights between the incoming pod and existing pod `p` on `node`. */
  ghost function PodWeight(scope: Scope, st: PreScoreInput, node: Node, p: PodInfo): int {
    TermsWeight(scope, st.preferredAffinity, p.pod, map[], node, 1)
    + TermsWeight(scope, st.preferredAntiAffinity, p.pod, map[], node, -1)
    + TermsWeight(scope, HardTerms(p, st.hardPodAffinityWeight), st.pod, st.nsLabels, node, 1)
    + TermsWeight(scope, p.preferredAffinityTerms, st.pod, st.nsLabels, node, 1)
    + TermsWeight(scope, p.preferredAntiAffinityTerms, st.pod, st.nsLabels, node, -1)
  }

  ghost function PodWeightFn(scope: Scope, st: PreScoreInput, node: Node): PodInfo -> int {
    (p: PodInfo) => PodWeight(scope, st, node, p)
  }

  ghost function NodeWeight(scope: Scope, st: PreScoreInput, ni: NodeInfo): int {
    Sum(ni.pods, PodWeightFn(scope, st, ni.node))
  }

  ghost function NodeWeightFn(scope: Scope, st: PreScoreInput): NodeInfo -> int {
    (ni: NodeInfo) => NodeWeight(scope, st, ni)
  }

  ghost function Weight(scope: Scope, st: PreScoreInput, nodes: Snapshot): int {
    Sum(nodes, NodeWeightFn(scope, st))
  }

  /** The score of a node: over all existing pods, the signed weights of the
      matching terms whose domain the node shares. */
  ghost function DirectScore(st: PreScoreInput, nodes: Snapshot, target: Node): int {
    Weight(SharedWith(target, target.labels.Keys), st, nodes)
  }

  // ---- The nested score map ----

  type Table = map<string, map<string, int>>

  function At(m: Table, pair: TopologyPair): int {
    if pair.key in m && pair.value in m[pair.key] then m[pair.key][pair.value] else 0
  }

  class ScoreMap {
    var scores: Table

    constructor ()
      ensures scores == map[]
    {
      scores := map[];
    }

    method ProcessTerm(term: AffinityTerm, weight: int, pod: Pod, nsLabels: Labels, node: Node, multiplier: int)
      modifies this
      ensures forall pair ::
        At(scores, pair) == At(old(scores), pair) +
          (if term.Matches(pod, nsLabels) && Hits(node, term.topologyKey, pair) then weight * multiplier else 0)
    {
      if term.Matches(pod, nsLabels) {
        var key := term.topologyKey;
        if key in node.labels {
          var tpValue := node.labels[key];
          if key !in scores {
            scores := scores[key := map[]];
          }
          var value := (if tpValue in scores[key] then scores[key][tpValue] else 0) + weight * multiplier;
          scores := scores[key := scores[key][tpValue := value]];
        }
      }
    }

    method ProcessTerms(terms: seq<WeightedAffinityTerm>, pod: Pod, nsLabels: Labels, node: Node, multiplier: int)
      modifies this
      ensures forall pair ::
        At(scores, pair) == At(old(scores), pair) + TermsWeight(Pair(pair), terms, pod, nsLabels, node, multiplier)
    {
      for i := 0 to |terms|
        invariant forall pair ::
          At(scores, pair) ==
          At(old(scores), pair) + TermsWeight(Pair(pair), terms[..i], pod, nsLabels, node, multiplier)
      {
        assert terms[..i + 1][..i] == terms[..i];
        ProcessTerm(terms[i].term, terms[i].weight, pod, nsLabels, node, multiplier);
      }
      assert terms[..|terms|] == terms;
    }

    method ProcessHardTerms(p: PodInfo, weight: int, pod: Pod, nsLabels: Labels, node: Node)
      modifies this
      ensures forall pair ::
        At(scores, pair) ==
        At(old(scores), pair) + TermsWeight(Pair(pair), HardTerms(p, weight), pod, nsLabels, node, 1)
    {
      if weight > 0 {
        var terms := p.requiredAffinityTerms;
        ghost var hard := HardTerms(p, weight);
        for i := 0 to |terms|
          invariant forall pair ::
            At(scores, pair) == At(old(scores), pair) + TermsWeight(Pair(pair), hard[..i], pod, nsLabels, node, 1)
        {
          assert hard[..i + 1][..i] == hard[..i];
          ProcessTerm(terms[i], weight, pod, nsLabels, node, 1);
        }
        assert hard[..|hard|] == hard;
      }
    }

    method ProcessExistingPod(st: PreScoreInput, p: PodInfo, node: Node)
      modifies this
      ensures forall pair :: At(scores, pair) == At(old(scores), pair) + PodWeight(Pair(pair), st, node, p)
    {
      if |node.labels| == 0 {
        forall pair {
          NoLabelsNoWeight(pair, st, node, p);
        }
        return;
      }
      ProcessTerms(st.preferredAffinity, p.pod, map[], node, 1);
      ProcessTerms(st.preferredAntiAffinity, p.pod, map[], node, -1);
      ProcessHardTerms(p, st.hardPodAffinityWeight, st.pod, st.nsLabels, node);
      ProcessTerms(p.preferredAffinityTerms, st.pod, st.nsLabels, node, 1);
      ProcessTerms(p.preferredAntiAffinityTerms, st.pod, st.nsLabels, node, -1);
    }

    /** Adds another table, topology by topology in an arbitrary order. */
    method Append(other: Table)
      modifies this
      ensures forall pair :: At(scores, pair) == At(old(scores), pair) + At(other, pair)
    {
      var rest := other.Keys;
      while rest != {}
        invariant rest <= other.Keys && old(scores).Keys <= scores.Keys
        invariant forall pair ::
          At(scores, pair) == At(old(scores), pair) + (if pair.key in rest then 0 else At(other, pair))
        invariant forall key | key in rest && key in scores :: key in old(scores) && scores[key] == old(scores)[key]
        decreases rest
      {
        var topology :| topology in rest;
        if topology !in scores {
          scores := scores[topology := other[topology]];
        } else {
          var sum := AddScores(scores[topology], other[topology]);
          assert forall k ::
            ScoreOf(sum, k) == At(scores, TopologyPair(topology, k)) + At(other, TopologyPair(topology, k));
          scores := scores[topology := sum];
          assert forall k :: At(scores, TopologyPair(topology, k)) == ScoreOf(sum, k);
        }
        rest := rest - {topology};
      }
    }
  }

  function ScoreOf(m: map<string, int>, k: string): int {
    if k in m then m[k] else 0
  }

  method AddScores(scores: map<string, int>, other: map<string, int>) returns (r: map<string, int>)
    ensures forall k :: ScoreOf(r, k) == ScoreOf(scores, k) + ScoreOf(other, k)
  {
    r := scores;
    var rest := other.Keys;
    while rest != {}
      invariant rest <= other.Keys
      invariant forall k :: ScoreOf(r, k) == ScoreOf(scores, k) + (if k in rest then 0 else ScoreOf(other, k))
      decreases rest
    {
      var k :| k in rest;
      r := r[k := ScoreOf(r, k) + other[k]];
      rest := rest - {k};
    }
  }

  lemma {:induction false} NothingCovered(scope: Scope, terms: seq<WeightedAffinityTerm>, pod: Pod, nsLabels: Labels,
      node: Node, multiplier: int)
    requires node.labels == map[]
    ensures TermsWeight(scope, terms, pod, nsLabels, node, multiplier) == 0
  {
    if terms != [] {
      NothingCovered(scope, terms[..|terms| - 1], pod, nsLabels, node, multiplier);
    }
  }

  lemma NoLabelsNoWeight(pair: TopologyPair, st: PreScoreInput, node: Node, p: PodInfo)
    requires node.labels == map[]
    ensures PodWeight(Pair(pair), st, node, p) == 0
  {
    NothingCovered(Pair(pair), st.preferredAffinity, p.pod, map[], node, 1);
    NothingCovered(Pair(pair), st.preferredAntiAffinity, p.pod, map[], node, -1);
    NothingCovered(Pair(pair), HardTerms(p, st.hardPodAffinityWeight), st.pod, st.nsLabels, node, 1);
    NothingCovered(Pair(pair), p.preferredAffinityTerms, st.pod, st.nsLabels, node, 1);
    NothingCovered(Pair(pair), p.preferredAntiAffinityTerms, st.pod, st.nsLabels, node, -1);
  }

  /** The table holds the weight of every topology pair. */
  ghost predicate Holds(m: Table, st: PreScoreInput, nodes: Snapshot) {
    forall pair :: At(m, pair) == Weight(Pair(pair), st, nodes)
  }

  // ---- PreScore ----

  predicate HasAffinity(p: PodInfo) {
    p.pod.podAffinity.Some? || p.pod.podAntiAffinity.Some?
  }

  function PodsWithAffinity(ni: NodeInfo): seq<PodInfo> {
    Filter(ni.pods, HasAffinity)
  }

  predicate HasPodsWithAffinity(ni: NodeInfo) {
    |PodsWithAffinity(ni)| > 0
  }

  function HavePodsWithAffinity(nodes: Snapshot): Snapshot {
    Filter(nodes, HasPodsWithAffinity)
  }

  predicate HasConstraints(st: PreScoreInput) {
    |st.preferredAffinity| > 0 || |st.preferredAntiAffinity| > 0
  }

  function UnrolledWeighted(terms: seq<WeightedAffinityTerm>, lister: Lister): seq<WeightedAffinityTerm> {
    seq(|terms|, i requires 0 <= i < |terms| => WeightedAffinityTerm(Unrolled(terms[i].term, lister), terms[i].weight))
  }

  function PreScoreInputOf(pod: Pod, schedulingClass: Option<Merger.SchedulingClass>, keys: seq<string>,
      lister: Lister, hardWeight: int): PreScoreInput {
    var own := NewPodInfo(pod);
    var terms := if schedulingClass.Some? then
        var m := Merger.MergedAffinity(pod, schedulingClass.value, keys);
        (m.preferredAffinity, m.preferredAntiAffinity)
      else (own.preferredAffinityTerms, own.preferredAntiAffinityTerms);
    PreScoreInput(pod, UnrolledWeighted(terms.0, lister), UnrolledWeighted(terms.1, lister),
                  NamespaceLabels(lister, pod.namespace), hardWeight)
  }

  /** Unrolled terms weigh an existing pod as the written terms do by the labels
      of its namespace, unless it is odd for one of them. */
  lemma {:induction false} UnrolledTermsWeight(scope: Scope, terms: seq<WeightedAffinityTerm>, lister: Lister, p: Pod,
      node: Node, multiplier: int)
    requires forall t | t in terms :: !Odd(t.term, lister, p)
    ensures TermsWeight(scope, UnrolledWeighted(terms, lister), p, map[], node, multiplier) ==
            TermsWeight(scope, terms, p, NamespaceLabels(lister, p.namespace), node, multiplier)
  {
    if terms != [] {
      var before, last := terms[..|terms| - 1], terms[|terms| - 1];
      UnrolledTermsWeight(scope, before, lister, p, node, multiplier);
      UnrolledMatches(last.term, lister, p);
      assert UnrolledWeighted(terms, lister)[..|terms| - 1] == UnrolledWeighted(before, lister);
    }
  }

  /** The scan may be restricted exactly when neither the pod nor its class
      states a preference. */
  lemma ConstraintsOfPodOrClass(pod: Pod, schedulingClass: Option<Merger.SchedulingClass>, keys: seq<string>,
      lister: Lister, hardWeight: int)
    ensures HasConstraints(PreScoreInputOf(pod, schedulingClass, keys, lister, hardWeight)) <==>
            || PreferredOf(pod.podAffinity) != [] || PreferredOf(pod.podAntiAffinity) != []
            || (schedulingClass.Some? && PreferredOf(schedulingClass.value.podAffinity) != [])
            || (schedulingClass.Some? && PreferredOf(schedulingClass.value.podAntiAffinity) != [])
  {
  }

  lemma PodWithoutAffinityHasNoWeight(scope: Scope, st: PreScoreInput, node: Node, p: PodInfo)
    requires !HasConstraints(st) && !HasAffinity(p) && p == NewPodInfo(p.pod)
    ensures PodWeight(scope, st, node, p) == 0
  {
  }

  lemma FewerPodsSameWeight(scope: Scope, st: PreScoreInput, ni: NodeInfo)
    requires !HasConstraints(st) && forall p | p in ni.pods :: p == NewPodInfo(p.pod)
    ensures Sum(PodsWithAffinity(ni), PodWeightFn(scope, st, ni.node)) == NodeWeight(scope, st, ni)
  {
    forall k | 0 <= k < |ni.pods| && !HasAffinity(ni.pods[k]) ensures PodWeightFn(scope, st, ni.node)(ni.pods[k]) == 0 {
      PodWithoutAffinityHasNoWeight(scope, st, ni.node, ni.pods[k]);
    }
    SumFilter(ni.pods, HasAffinity, PodWeightFn(scope, st, ni.node));
  }

  /** When the incoming pod has no preferred terms, the nodes hosting pods with
      affinity carry all the weight there is. */
  lemma FewerNodesSameWeight(scope: Scope, st: PreScoreInput, nodes: Snapshot)
    requires !HasConstraints(st) && PodsParsed(nodes)
    ensures Weight(scope, st, HavePodsWithAffinity(nodes)) == Weight(scope, st, nodes)
  {
    forall k | 0 <= k < |nodes| && !HasPodsWithAffinity(nodes[k]) ensures NodeWeightFn(scope, st)(nodes[k]) == 0 {
      assert nodes[k] in nodes;
      FewerPodsSameWeight(scope, st, nodes[k]);
    }
    SumFilter(nodes, HasPodsWithAffinity, NodeWeightFn(scope, st));
  }

  lemma {:induction false} FilterMembers<T(!new)>(xs: seq<T>, keep: T -> bool)
    ensures forall x | x in Filter(xs, keep) :: x in xs
  {
    if xs != [] {
      FilterMembers(xs[..|xs| - 1], keep);
    }
  }

  /** The pods of a node that its worker looks at. */
  function Scanned(st: PreScoreInput, ni: NodeInfo): seq<PodInfo> {
    if HasConstraints(st) then ni.pods else PodsWithAffinity(ni)
  }

  ghost function ScanFn(pair: TopologyPair, st: PreScoreInput): NodeInfo -> int {
    (ni: NodeInfo) => Sum(Scanned(st, ni), PodWeightFn(Pair(pair), st, ni.node))
  }

  ghost predicate HoldsNode(m: Table, st: PreScoreInput, ni: NodeInfo) {
    forall pair :: At(m, pair) == ScanFn(pair, st)(ni)
  }

  method ProcessNode(st: PreScoreInput, ni: NodeInfo) returns (topoScore: Table)
    ensures HoldsNode(topoScore, st, ni)
  {
    var pods, node := Scanned(st, ni), ni.node;
    var m := new ScoreMap();
    for j := 0 to |pods|
      invariant fresh(m)
      invariant forall pair :: At(m.scores, pair) == Sum(pods[..j], PodWeightFn(Pair(pair), st, node))
    {
      assert pods[..j + 1][..j] == pods[..j];
      m.ProcessExistingPod(st, pods[j], node);
    }
    assert pods[..|pods|] == pods;
    topoScore := m.scores;
  }

  ghost function TableFn(pair: TopologyPair): Table -> int {
    (m: Table) => At(m, pair)
  }

  ghost predicate HoldsDone(tables: seq<Table>, st: PreScoreInput, nodes: Snapshot, done: set<nat>) {
    forall pair :: Sum(tables, TableFn(pair)) == SumDone(nodes, ScanFn(pair, st), done)
  }

  lemma OneMoreTable(tables: seq<Table>, st: PreScoreInput, nodes: Snapshot, done: set<nat>, i: nat, m: Table)
    requires i < |nodes| && i !in done && HoldsDone(tables, st, nodes, done) && HoldsNode(m, st, nodes[i])
    ensures HoldsDone(tables + [m], st, nodes, done + {i})
    ensures m == map[] ==> HoldsDone(tables, st, nodes, done + {i})
  {
    assert (tables + [m])[..|tables|] == tables;
    forall pair {
      SumDoneStep(nodes, ScanFn(pair, st), done, i);
    }
  }

  lemma NoTables(st: PreScoreInput, nodes: Snapshot)
    ensures HoldsDone([], st, nodes, {})
  {
    forall pair {
      SumDoneNone(nodes, ScanFn(pair, st));
    }
  }

  /** The parallel phase: workers finish in any order and store non-empty
      tables in the next free slot. */
  method CollectScores(st: PreScoreInput, nodes: Snapshot) returns (tables: seq<Table>)
    ensures HoldsDone(tables, st, nodes, Indices(|nodes|))
  {
    var topoScores := new ResultSlots<Table>(|nodes|, map[]);
    var pending := Indices(|nodes|);
    ghost var done: set<nat> := {};
    NoTables(st, nodes);
    while pending != {}
      invariant pending <= Indices(|nodes|) && done == Indices(|nodes|) - pending
      invariant fresh(topoScores) && fresh(topoScores.slots) && topoScores.Valid() && topoScores.slots.Length == |nodes|
      invariant topoScores.index + 1 + |pending| <= |nodes|
      invariant HoldsDone(topoScores.Claimed(), st, nodes, done)
      decreases pending
    {
      var i :| i in pending;
      var topoScore := ProcessNode(st, nodes[i]);
      OneMoreTable(topoScores.Claimed(), st, nodes, done, i, topoScore);
      if |topoScore| > 0 {
        topoScores.Claim(topoScore);
      }
      pending := pending - {i};
      done := done + {i};
    }
    assert done == Indices(|nodes|);
    tables := topoScores.Result();
  }

  datatype PreScoreResult = Skip | Scores(table: Table)

  /** The terms of the pod with their namespaces unrolled in place, the weights
      beside them left alone. */
  method UnrollWeightedTerms(terms: seq<WeightedAffinityTerm>, lister: Lister) returns (r: seq<WeightedAffinityTerm>)
    ensures r == UnrolledWeighted(terms, lister)
  {
    var a := new AffinityTerm[|terms|](i requires 0 <= i < |terms| => terms[i].term);
    ghost var written := a[..];
    MergeAllNamespaces(a, lister);
    var unrolled := a[..];
    r := seq(|terms|, i requires 0 <= i < |terms| => WeightedAffinityTerm(unrolled[i], terms[i].weight));
    assert forall i | 0 <= i < |terms| :: unrolled[i] == Unrolled(written[i], lister);
  }

  /** PreScore. The table holds the weights of the whole snapshot whichever
      branch is taken; a skip for lack of entries means that every node scores
      zero. */
  method PreScore(pod: Pod, schedulingClass: Option<Merger.SchedulingClass>, keys: seq<string>, lister: Lister,
      hardWeight: int, ignorePreferredTermsOfExistingPods: bool, nodes: Snapshot)
    returns (r: PreScoreResult)
    ensures var st := PreScoreInputOf(pod, schedulingClass, keys, lister, hardWeight);
            HasConstraints(st) || PodsParsed(nodes) ==>
              && (r.Scores? ==> Holds(r.table, st, nodes))
              && (r.Skip? ==> (ignorePreferredTermsOfExistingPods && !HasConstraints(st)) ||
                              forall target :: DirectScore(st, nodes, target) == 0)
    ensures var st := PreScoreInputOf(pod, schedulingClass, keys, lister, hardWeight);
            ignorePreferredTermsOfExistingPods && !HasConstraints(st) ==> r.Skip?
  {
    var merged := Merger.MergeInterPodAffinity(pod, schedulingClass, keys);
    var hasConstraints := |PreferredOf(pod.podAffinity)| > 0 || |PreferredOf(pod.podAntiAffinity)| > 0;
    if merged.Some? {
      hasConstraints :=
        hasConstraints || |merged.value.preferredAffinity| > 0 || |merged.value.preferredAntiAffinity| > 0;
    }
    ConstraintsOfPodOrClass(pod, schedulingClass, keys, lister, hardWeight);
    if ignorePreferredTermsOfExistingPods && !hasConstraints {
      return Skip;
    }
    var allNodes := if hasConstraints then nodes else HavePodsWithAffinity(nodes);
    var info := NewPodInfo(pod);
    if merged.Some? {
      info := info.(preferredAffinityTerms := merged.value.preferredAffinity,
                    preferredAntiAffinityTerms := merged.value.preferredAntiAffinity);
    }
    var affinity := UnrollWeightedTerms(info.preferredAffinityTerms, lister);
    var anti := UnrollWeightedTerms(info.preferredAntiAffinityTerms, lister);
    var st := PreScoreInput(pod, affinity, anti, NamespaceLabels(lister, pod.namespace), hardWeight);
    var tables := CollectScores(st, allNodes);
    var m := MergeTables(tables);
    if HasConstraints(st) || PodsParsed(nodes) {
      CollectedHolds(st, nodes, tables, m);
      forall target {
        TableScoreIsDirect(m, st, nodes, target);
      }
    }
    if |tables| == 0 {
      return Skip;
    }
    r := Scores(m);
  }

  method MergeTables(tables: seq<Table>) returns (m: Table)
    ensures forall pair :: At(m, pair) == Sum(tables, TableFn(pair))
    ensures tables == [] ==> m == map[]
  {
    var topologyScore := new ScoreMap();
    for i := 0 to |tables|
      invariant fresh(topologyScore)
      invariant forall pair :: At(topologyScore.scores, pair) == Sum(tables[..i], TableFn(pair))
      invariant i == 0 ==> topologyScore.scores == map[]
    {
      assert tables[..i + 1][..i] == tables[..i];
      topologyScore.Append(tables[i]);
    }
    assert tables[..|tables|] == tables;
    m := topologyScore.scores;
  }

  lemma CollectedHolds(st: PreScoreInput, nodes: Snapshot, tables: seq<Table>, m: Table)
    requires HasConstraints(st) || PodsParsed(nodes)
    requires var allNodes := if HasConstraints(st) then nodes else HavePodsWithAffinity(nodes);
             HoldsDone(tables, st, allNodes, Indices(|allNodes|))
    requires forall pair :: At(m, pair) == Sum(tables, TableFn(pair))
    ensures Holds(m, st, nodes)
  {
    var allNodes := if HasConstraints(st) then nodes else HavePodsWithAffinity(nodes);
    forall pair ensures At(m, pair) == Weight(Pair(pair), st, nodes) {
      SumDoneAll(allNodes, ScanFn(pair, st), Indices(|allNodes|));
      ScannedIsAll(pair, st, nodes);
    }
  }

  /** Whichever nodes and pods are scanned, all the weight is found. */
  lemma ScannedIsAll(pair: TopologyPair, st: PreScoreInput, nodes: Snapshot)
    requires HasConstraints(st) || PodsParsed(nodes)
    ensures var allNodes := if HasConstraints(st) then nodes else HavePodsWithAffinity(nodes);
            Sum(allNodes, ScanFn(pair, st)) == Weight(Pair(pair), st, nodes)
  {
    var allNodes := if HasConstraints(st) then nodes else HavePodsWithAffinity(nodes);
    if !HasConstraints(st) {
      FilterMembers(nodes, HasPodsWithAffinity);
      FewerNodesSameWeight(Pair(pair), st, nodes);
    }
    forall k | 0 <= k < |allNodes| ensures ScanFn(pair, st)(allNodes[k]) == NodeWeightFn(Pair(pair), st)(allNodes[k]) {
      if !HasConstraints(st) {
        assert allNodes[k] in allNodes;
        FewerPodsSameWeight(Pair(pair), st, allNodes[k]);
      }
    }
    SumCongruent(allNodes, ScanFn(pair, st), NodeWeightFn(Pair(pair), st));
  }

  // ---- Score ----

  function KeyScore(m: Table, labels: Labels, key: string): int {
    if key in labels then At(m, TopologyPair(key, labels[key])) else 0
  }

  ghost function SomeKey(keys: set<string>): (k: string)
    requires keys != {}
    ensures k in keys
  {
    var k :| k in keys;
    k
  }

  ghost function KeySum(m: Table, labels: Labels, keys: set<string>): int
    decreases |keys|
  {
    if keys == {} then 0
    else
      var k := SomeKey(keys);
      KeySum(m, labels, keys - {k}) + KeyScore(m, labels, k)
  }

  lemma {:induction false} KeySumAdd(m: Table, labels: Labels, keys: set<string>, k: string)
    requires k !in keys
    ensures KeySum(m, labels, keys + {k}) == KeySum(m, labels, keys) + KeyScore(m, labels, k)
    decreases |keys|
  {
    var all := keys + {k};
    var j := SomeKey(all);
    if j == k {
      assert all - {j} == keys;
    } else {
      assert all - {j} == (keys - {j}) + {k} && keys == (keys - {j}) + {j};
      KeySumAdd(m, labels, keys - {j}, k);
      KeySumAdd(m, labels, keys - {j}, j);
    }
  }

  /** Sums over the topology keys of the table, in an arbitrary order. */
  method Score(m: Table, node: Node) returns (score: int)
    ensures score == KeySum(m, node.labels, m.Keys)
  {
    score := 0;
    var rest := m.Keys;
    while rest != {}
      invariant rest <= m.Keys && score == KeySum(m, node.labels, m.Keys - rest)
      decreases rest
    {
      var tpKey :| tpKey in rest;
      KeySumAdd(m, node.labels, m.Keys - rest, tpKey);
      assert m.Keys - rest + {tpKey} == m.Keys - (rest - {tpKey});
      if tpKey in node.labels {
        score := score + ScoreOf(m[tpKey], node.labels[tpKey]);
      }
      rest := rest - {tpKey};
    }
    assert m.Keys - rest == m.Keys;
  }

  lemma ScopeSplits(target: Node, keys: set<string>, k: string, st: PreScoreInput, nodes: Snapshot)
    requires k !in keys && k in target.labels
    ensures Weight(SharedWith(target, keys + {k}), st, nodes) ==
            Weight(SharedWith(target, keys), st, nodes) + Weight(Pair(TopologyPair(k, target.labels[k])), st, nodes)
  {
    var a, b, c := SharedWith(target, keys), Pair(TopologyPair(k, target.labels[k])), SharedWith(target, keys + {k});
    forall i | 0 <= i < |nodes|
      ensures NodeWeightFn(c, st)(nodes[i]) == NodeWeightFn(a, st)(nodes[i]) + NodeWeightFn(b, st)(nodes[i])
    {
      var ni := nodes[i];
      forall j | 0 <= j < |ni.pods|
        ensures PodWeightFn(c, st, ni.node)(ni.pods[j]) ==
                PodWeightFn(a, st, ni.node)(ni.pods[j]) + PodWeightFn(b, st, ni.node)(ni.pods[j])
      {
        PodScopeSplits(target, keys, k, st, ni.node, ni.pods[j]);
      }
      SumAdds(ni.pods, PodWeightFn(a, st, ni.node), PodWeightFn(b, st, ni.node), PodWeightFn(c, st, ni.node));
    }
    SumAdds(nodes, NodeWeightFn(a, st), NodeWeightFn(b, st), NodeWeightFn(c, st));
  }

  lemma PodScopeSplits(target: Node, keys: set<string>, k: string, st: PreScoreInput, node: Node, p: PodInfo)
    requires k !in keys && k in target.labels
    ensures PodWeight(SharedWith(target, keys + {k}), st, node, p) ==
            PodWeight(SharedWith(target, keys), st, node, p) +
            PodWeight(Pair(TopologyPair(k, target.labels[k])), st, node, p)
  {
    TermsScopeSplits(target, keys, k, st.preferredAffinity, p.pod, map[], node, 1);
    TermsScopeSplits(target, keys, k, st.preferredAntiAffinity, p.pod, map[], node, -1);
    TermsScopeSplits(target, keys, k, HardTerms(p, st.hardPodAffinityWeight), st.pod, st.nsLabels, node, 1);
    TermsScopeSplits(target, keys, k, p.preferredAffinityTerms, st.pod, st.nsLabels, node, 1);
    TermsScopeSplits(target, keys, k, p.preferredAntiAffinityTerms, st.pod, st.nsLabels, node, -1);
  }

  lemma TermsScopeSplits(target: Node, keys: set<string>, k: string, terms: seq<WeightedAffinityTerm>,
      pod: Pod, nsLabels: Labels, node: Node, multiplier: int)
    requires k !in keys && k in target.labels
    ensures TermsWeight(SharedWith(target, keys + {k}), terms, pod, nsLabels, node, multiplier) ==
            TermsWeight(SharedWith(target, keys), terms, pod, nsLabels, node, multiplier)
            + TermsWeight(Pair(TopologyPair(k, target.labels[k])), terms, pod, nsLabels, node, multiplier)
  {
    var a, b, c := SharedWith(target, keys), Pair(TopologyPair(k, target.labels[k])), SharedWith(target, keys + {k});
    forall i | 0 <= i < |terms|
      ensures c.Covers(node, terms[i].term.topologyKey) <==>
              a.Covers(node, terms[i].term.topologyKey) || b.Covers(node, terms[i].term.topologyKey)
      ensures !(a.Covers(node, terms[i].term.topologyKey) && b.Covers(node, terms[i].term.topologyKey))
    {
    }
    SumAdds(terms, TermFn(a, pod, nsLabels, node, multiplier), TermFn(b, pod, nsLabels, node, multiplier), TermFn(c,
        pod, nsLabels, node, multiplier));
  }

  lemma {:induction false} SharedIsKeySum(m: Table, st: PreScoreInput, nodes: Snapshot, target: Node, keys: set<string>)
    requires Holds(m, st, nodes) && keys <= target.labels.Keys
    ensures Weight(SharedWith(target, keys), st, nodes) == KeySum(m, target.labels, keys)
    decreases |keys|
  {
    if keys == {} {
      NoKeysNoWeight(target, st, nodes);
    } else {
      var k :| k in keys;
      SharedIsKeySum(m, st, nodes, target, keys - {k});
      ScopeSplits(target, keys - {k}, k, st, nodes);
      KeySumAdd(m, target.labels, keys - {k}, k);
      assert keys - {k} + {k} == keys;
    }
  }

  lemma NoKeysNoWeight(target: Node, st: PreScoreInput, nodes: Snapshot)
    ensures Weight(SharedWith(target, {}), st, nodes) == 0
  {
    var a := SharedWith(target, {});
    forall i | 0 <= i < |nodes| ensures NodeWeightFn(a, st)(nodes[i]) == 0 {
      var ni := nodes[i];
      forall j | 0 <= j < |ni.pods| ensures PodWeightFn(a, st, ni.node)(ni.pods[j]) == 0 {
        var p := ni.pods[j];
        ZeroTerms(target, st.preferredAffinity, p.pod, map[], ni.node, 1);
        ZeroTerms(target, st.preferredAntiAffinity, p.pod, map[], ni.node, -1);
        ZeroTerms(target, HardTerms(p, st.hardPodAffinityWeight), st.pod, st.nsLabels, ni.node, 1);
        ZeroTerms(target, p.preferredAffinityTerms, st.pod, st.nsLabels, ni.node, 1);
        ZeroTerms(target, p.preferredAntiAffinityTerms, st.pod, st.nsLabels, ni.node, -1);
      }
      SumPositive(ni.pods, PodWeightFn(a, st, ni.node));
    }
    SumPositive(nodes, NodeWeightFn(a, st));
  }

  lemma ZeroTerms(target: Node, terms: seq<WeightedAffinityTerm>, pod: Pod, nsLabels: Labels, node: Node,
      multiplier: int)
    ensures TermsWeight(SharedWith(target, {}), terms, pod, nsLabels, node, multiplier) == 0
  {
    SumPositive(terms, TermFn(SharedWith(target, {}), pod, nsLabels, node, multiplier));
  }

  lemma {:induction false} KeysWithoutScore(m: Table, labels: Labels, keys: set<string>, more: set<string>)
    requires keys !! more && forall k | k in more :: KeyScore(m, labels, k) == 0
    ensures KeySum(m, labels, keys + more) == KeySum(m, labels, keys)
    decreases |more|
  {
    if more == {} {
      assert keys + more == keys;
    } else {
      var k :| k in more;
      KeysWithoutScore(m, labels, keys, more - {k});
      KeySumAdd(m, labels, keys + (more - {k}), k);
      assert keys + more == keys + (more - {k}) + {k};
    }
  }

  /** The score read off the table is the direct double sum. */
  lemma TableScoreIsDirect(m: Table, st: PreScoreInput, nodes: Snapshot, target: Node)
    requires Holds(m, st, nodes)
    ensures KeySum(m, target.labels, m.Keys) == DirectScore(st, nodes, target)
  {
    var both := m.Keys * target.labels.Keys;
    SharedIsKeySum(m, st, nodes, target, target.labels.Keys);
    KeysWithoutScore(m, target.labels, both, m.Keys - target.labels.Keys);
    KeysWithoutScore(m, target.labels, both, target.labels.Keys - m.Keys);
    assert both + (m.Keys - target.labels.Keys) == m.Keys;
    assert both + (target.labels.Keys - m.Keys) == target.labels.Keys;
  }

  // ---- Normalization ----

  /** `num` of `den` as a percentage, with every operation rounded. */
  function Percentage(rnd: real -> real, num: real, den: real): int
    requires den > 0.0
  {
    rnd(100.0 * rnd(num / den)).Floor
  }

  lemma PercentageMonotone(rnd: real -> real, a: real, b: real, den: real)
    requires IsRounding(rnd) && den > 0.0 && a <= b
    ensures Percentage(rnd, a, den) <= Percentage(rnd, b, den)
  {
    assert a / den <= b / den;
  }

  lemma PercentageEnds(rnd: real -> real, den: real)
    requires IsRounding(rnd) && den > 0.0
    ensures Percentage(rnd, 0.0, den) == 0 && Percentage(rnd, den, den) == 100
  {
    assert 0.0 / den == 0.0 && den / den == 1.0;
  }

  lemma RoundedPositive(rnd: real -> real, n: int)
    requires IsRounding(rnd) && n > 0
    ensures rnd(n as real) >= 1.0
  {
  }

  /** `part` of `whole` as a percentage, converted from and truncated to an
      integer; 0 of no range at all. */
  function Scaled(rnd: real -> real, part: int, whole: int): int
    requires IsRounding(rnd)
  {
    if whole > 0 then
      RoundedPositive(rnd, whole);
      Percentage(rnd, rnd(part as real), rnd(whole as real))
    else 0
  }

  ghost function Normalized(rnd: real -> real, score: int, least: int, greatest: int): int
    requires IsRounding(rnd) && least <= score <= greatest
  {
    Scaled(rnd, score - least, greatest - least)
  }

  lemma NormalizedMonotone(rnd: real -> real, a: int, b: int, least: int, greatest: int)
    requires IsRounding(rnd) && least <= a <= b <= greatest
    ensures Normalized(rnd, a, least, greatest) <= Normalized(rnd, b, least, greatest)
  {
    if greatest > least {
      RoundedPositive(rnd, greatest - least);
      PercentageMonotone(rnd, rnd((a - least) as real), rnd((b - least) as real), rnd((greatest - least) as real));
    }
  }

  lemma NormalizedEnds(rnd: real -> real, least: int, greatest: int)
    requires IsRounding(rnd) && least < greatest
    ensures Normalized(rnd, least, least, greatest) == 0
    ensures Normalized(rnd, greatest, least, greatest) == 100
  {
    RoundedPositive(rnd, greatest - least);
    PercentageEnds(rnd, rnd((greatest - least) as real));
  }

  /** In exact arithmetic the score is the whole percentage of the range. */
  lemma ExactlyNormalized(score: int, least: int, greatest: int)
    requires least <= score <= greatest && least < greatest
    ensures IsRounding(Exact)
    ensures var n := Normalized(Exact, score, least, greatest);
            n * (greatest - least) <= 100 * (score - least) < (n + 1) * (greatest - least)
  {
    ExactIsRounding();
    ExactPercentage(score - least, greatest - least);
  }

  lemma ExactPercentage(part: int, whole: int)
    requires whole > 0
    ensures var n := (100.0 * (part as real / whole as real)).Floor;
            n * whole <= 100 * part < (n + 1) * whole
  {
    var x := part as real / whole as real;
    var n := (100.0 * x).Floor;
    assert x * whole as real == part as real;
    ScaledBetween(n, 100.0 * x, whole);
    assert (100.0 * x) * whole as real == (100 * part) as real;
  }

  lemma ScaledBetween(n: int, y: real, whole: int)
    requires whole > 0 && n as real <= y < (n + 1) as real
    ensures (n * whole) as real <= y * whole as real < ((n + 1) * whole) as real
  {
    ProductOrder(n as real, y, whole as real);
    ProductOrder(y, (n + 1) as real, whole as real);
  }

  lemma ProductOrder(a: real, b: real, w: real)
    requires w > 0.0
    ensures a <= b ==> a * w <= b * w
    ensures a < b ==> a * w < b * w
  {
  }

  ghost predicate IsLeast(scores: seq<NodeScore>, n: int) {
    (exists s :: s in scores && s.score == n) && forall s | s in scores :: n <= s.score
  }

  ghost predicate IsGreatest(scores: seq<NodeScore>, n: int) {
    (exists s :: s in scores && s.score == n) && forall s | s in scores :: s.score <= n
  }

  method Range(scores: array<NodeScore>) returns (least: int, greatest: int)
    requires scores.Length > 0
    ensures IsLeast(scores[..], least) && IsGreatest(scores[..], greatest)
  {
    least, greatest := scores[0].score, scores[0].score;
    for i := 0 to scores.Length
      invariant exists s :: s in scores[..] && s.score == least
      invariant exists s :: s in scores[..] && s.score == greatest
      invariant forall j | 0 <= j < i :: least <= scores[j].score <= greatest
    {
      var score := scores[i].score;
      assert scores[i] in scores[..];
      if score > greatest {
        greatest := score;
      }
      if score < least {
        least := score;
      }
    }
  }

  /** Differences that fit 64 bits do not wrap around; a range that does not
      fit reads as negative, and then every score becomes 0. */
  lemma WrappedScaled(rnd: real -> real, score: int, least: int, greatest: int)
    requires IsRounding(rnd) && MIN_INT64 <= least <= score <= greatest <= MAX_INT64
    ensures Scaled(rnd, Wrap64(score - least), Wrap64(greatest - least)) ==
            if greatest - least <= MAX_INT64 then Normalized(rnd, score, least, greatest) else 0
  {
  }

  /** What becomes of each score, in 64-bit differences. */
  function ScaleFn(rnd: real -> real, minCount: int, maxCount: int): int -> int
    requires IsRounding(rnd)
  {
    var maxMinDiff := Wrap64(maxCount - minCount);
    (x: int) => Scaled(rnd, Wrap64(x - minCount), maxMinDiff)
  }

  lemma ScoresBecome(rnd: real -> real, least: int, greatest: int)
    requires IsRounding(rnd)
    ensures forall x | MIN_INT64 <= least <= x <= greatest <= MAX_INT64 ::
              ScaleFn(rnd, least, greatest)(x) ==
              if greatest - least <= MAX_INT64 then Normalized(rnd, x, least, greatest) else 0
  {
    forall x | MIN_INT64 <= least <= x <= greatest <= MAX_INT64
      ensures ScaleFn(rnd, least, greatest)(x) ==
              if greatest - least <= MAX_INT64 then Normalized(rnd, x, least, greatest) else 0
    {
      WrappedScaled(rnd, x, least, greatest);
    }
  }

  /** The second loop; `f` is what becomes of each score. */
  method Rescale(scores: array<NodeScore>, minCount: int, maxCount: int, rnd: real -> real) returns (f: int -> int)
    requires IsRounding(rnd)
    modifies scores
    ensures forall i | 0 <= i < scores.Length :: scores[i] == NodeScore(old(scores[i].name), f(old(scores[i].score)))
    ensures forall x | MIN_INT64 <= minCount <= x <= maxCount <= MAX_INT64 ::
              f(x) == if maxCount - minCount <= MAX_INT64 then Normalized(rnd, x, minCount, maxCount) else 0
  {
    f := ScaleFn(rnd, minCount, maxCount);
    for i := 0 to scores.Length
      invariant forall j | i <= j < scores.Length :: scores[j] == old(scores[j])
      invariant forall j | 0 <= j < i :: scores[j] == NodeScore(old(scores[j].name), f(old(scores[j].score)))
    {
      scores[i] := NodeScore(scores[i].name, f(scores[i].score));
    }
    ScoresBecome(rnd, minCount, maxCount);
  }

  /** Same names, scores in 0..100, the order kept; if all scores were equal
      they become 0, otherwise the least becomes 0 and the greatest 100. */
  ghost predicate WellNormalized(before: seq<NodeScore>, after: seq<NodeScore>) {
    && |after| == |before|
    && (forall i | 0 <= i < |before| :: after[i].name == before[i].name && 0 <= after[i].score <= MAX_NODE_SCORE)
    && (forall i, j | 0 <= i < |before| && 0 <= j < |before| && before[i].score <= before[j].score ::
        after[i].score <= after[j].score)
    && (forall i, j | 0 <= i < |before| && 0 <= j < |before| && before[i].score < before[j].score ::
          && (IsLeast(before, before[i].score) ==> after[i].score == 0)
          && (IsGreatest(before, before[j].score) ==> after[j].score == MAX_NODE_SCORE))
    && (AllEqual(before) ==> forall i | 0 <= i < |before| :: after[i].score == 0)
  }

  ghost predicate AllEqual(scores: seq<NodeScore>) {
    forall s, t | s in scores && t in scores :: s.score == t.score
  }

  lemma NormalizedRange(rnd: real -> real, score: int, least: int, greatest: int)
    requires IsRounding(rnd) && least <= score <= greatest
    ensures 0 <= Normalized(rnd, score, least, greatest) <= MAX_NODE_SCORE
    ensures score == least ==> Normalized(rnd, score, least, greatest) == 0
    ensures score == greatest > least ==> Normalized(rnd, score, least, greatest) == MAX_NODE_SCORE
  {
    if least < greatest {
      NormalizedEnds(rnd, least, greatest);
      NormalizedMonotone(rnd, least, score, least, greatest);
      NormalizedMonotone(rnd, score, greatest, least, greatest);
    }
  }

  lemma ScaledIsWell(before: seq<NodeScore>, after: seq<NodeScore>, least: int, greatest: int, f: int -> int)
    requires |after| == |before| && IsLeast(before, least) && IsGreatest(before, greatest)
    requires forall i | 0 <= i < |before| :: after[i] == NodeScore(before[i].name, f(before[i].score))
    requires forall x | least <= x <= greatest :: 0 <= f(x) <= MAX_NODE_SCORE
    requires forall x, y | least <= x <= y <= greatest :: f(x) <= f(y)
    requires f(least) == 0 && (least < greatest ==> f(greatest) == MAX_NODE_SCORE)
    ensures WellNormalized(before, after)
  {
    assert forall i | 0 <= i < |before| :: before[i] in before;
    assert forall n :: IsLeast(before, n) ==> n == least;
    assert forall n :: IsGreatest(before, n) ==> n == greatest;
    assert AllEqual(before) ==> forall i | 0 <= i < |before| :: before[i].score == least;
  }

  lemma NormalizedIsWell(rnd: real -> real, before: seq<NodeScore>, after: seq<NodeScore>, least: int, greatest: int,
      f: int -> int)
    requires IsRounding(rnd) && |after| == |before| && IsLeast(before, least) && IsGreatest(before, greatest)
    requires forall i | 0 <= i < |before| :: after[i] == NodeScore(before[i].name, f(before[i].score))
    requires forall x | least <= x <= greatest :: f(x) == Normalized(rnd, x, least, greatest)
    ensures WellNormalized(before, after)
  {
    forall x | least <= x <= greatest
      ensures 0 <= f(x) <= MAX_NODE_SCORE
      ensures x == least ==> f(x) == 0
      ensures x == greatest > least ==> f(x) == MAX_NODE_SCORE
    {
      NormalizedRange(rnd, x, least, greatest);
    }
    forall x, y | least <= x <= y <= greatest ensures f(x) <= f(y) {
      NormalizedMonotone(rnd, x, y, least, greatest);
    }
    ScaledIsWell(before, after, least, greatest, f);
  }

  /** A range that does not fit 64 bits makes every score 0. */
  lemma OverflowIsNotWell(before: seq<NodeScore>, after: seq<NodeScore>, least: int, greatest: int)
    requires |after| == |before| && IsLeast(before, least) && IsGreatest(before, greatest) && least < greatest
    requires forall i | 0 <= i < |before| :: after[i].score == 0
    ensures !WellNormalized(before, after)
  {
    var s, t :| s in before && s.score == least && t in before && t.score == greatest;
    var i, j :| 0 <= i < |before| && before[i] == s && 0 <= j < |before| && before[j] == t;
    assert before[i].score < before[j].score && IsGreatest(before, before[j].score);
  }

  ghost predicate Int64Scores(scores: seq<NodeScore>) {
    forall s | s in scores :: MIN_INT64 <= s.score <= MAX_INT64
  }

  /** The greatest difference of two scores fits 64 bits. */
  ghost predicate RangeFits(scores: seq<NodeScore>) {
    forall s, t | s in scores && t in scores :: t.score - s.score <= MAX_INT64
  }

  lemma RescaledIsWell(rnd: real -> real, before: seq<NodeScore>, after: seq<NodeScore>, least: int, greatest: int,
      f: int -> int)
    requires IsRounding(rnd) && |after| == |before| && Int64Scores(before)
    requires IsLeast(before, least) && IsGreatest(before, greatest)
    requires forall i | 0 <= i < |before| :: after[i] == NodeScore(before[i].name, f(before[i].score))
    requires forall x | least <= x <= greatest ::
      f(x) == if greatest - least <= MAX_INT64 then Normalized(rnd, x, least, greatest) else 0
    ensures WellNormalized(before, after) <==> RangeFits(before)
  {
    assert RangeFits(before) <==> greatest - least <= MAX_INT64;
    if greatest - least <= MAX_INT64 {
      NormalizedIsWell(rnd, before, after, least, greatest, f);
    } else {
      assert forall i | 0 <= i < |before| :: before[i] in before && after[i].score == 0;
      OverflowIsNotWell(before, after, least, greatest);
    }
  }

  /** NormalizeScore, in place; without any topology score it does nothing. It
      does what it should exactly when the range of the scores fits 64 bits. */
  method NormalizeScore(table: Table, scores: array<NodeScore>, rnd: real -> real)
    requires IsRounding(rnd)
    modifies scores
    ensures table == map[] ==> scores[..] == old(scores[..])
    ensures table != map[] && Int64Scores(old(scores[..])) ==>
              (WellNormalized(old(scores[..]), scores[..]) <==> RangeFits(old(scores[..])))
  {
    if |table| == 0 || scores.Length == 0 {
      return;
    }
    ghost var before := scores[..];
    var minCount, maxCount := Range(scores);
    var f := Rescale(scores, minCount, maxCount, rnd);
    if Int64Scores(before) {
      RescaledIsWell(rnd, before, scores[..], minCount, maxCount, f);
    }
  }
}
