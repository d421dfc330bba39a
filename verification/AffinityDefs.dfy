/** What the inter-pod affinity filter is defined to decide, pod by pod and
    node by node, and the counts it decides it by. */
module AffinityDefs {
  import opened Labels
  import opened Cluster
  import opened Sums
  import opened TermCounts

  /** The incoming pod, with the terms it is scheduled by and the labels of its
      namespace. */
  datatype Incoming = Incoming(pod: Pod, affinity: seq<AffinityTerm>, antiAffinity: seq<AffinityTerm>, nsLabels: Labels)

  // ---- The pairwise definition ----

  predicate SameDomain(a: Node, b: Node, key: string) {
    key in a.labels && key in b.labels && a.labels[key] == b.labels[key]
  }

  ghost predicate Present(nodes: Snapshot, i: int, j: int) {
    0 <= i < |nodes| && 0 <= j < |nodes[i].pods|
  }

  /** The domains of a key. */
  ghost function KeyValues(key: string, nodes: Snapshot): set<string> {
    set i | 0 <= i < |nodes| && key in nodes[i].node.labels :: nodes[i].node.labels[key]
  }

  /** An existing pod has an anti-affinity term against the incoming pod. */
  ghost predicate ExistingConflict(inc: Incoming, nodes: Snapshot, target: Node) {
    exists i, j, t :: Present(nodes, i, j) && t in nodes[i].pods[j].requiredAntiAffinityTerms &&
      t.Matches(inc.pod, inc.nsLabels) && SameDomain(nodes[i].node, target, t.topologyKey)
  }

  /** The incoming pod has an anti-affinity term against an existing pod. */
  ghost predicate IncomingConflict(inc: Incoming, nodes: Snapshot, target: Node) {
    exists i, j, t :: Present(nodes, i, j) && t in inc.antiAffinity &&
      t.Matches(nodes[i].pods[j].pod, map[]) && SameDomain(nodes[i].node, target, t.topologyKey)
  }

  /** Pods matching all terms sit in the target's domain of the key. */
  ghost predicate HasCompanion(inc: Incoming, nodes: Snapshot, target: Node, key: string) {
    exists i, j :: Present(nodes, i, j) && MatchesAll(inc.affinity, nodes[i].pods[j].pod) &&
      SameDomain(nodes[i].node, target, key)
  }

  predicate HasAllKeys(inc: Incoming, target: Node) {
    forall t | t in inc.affinity :: t.topologyKey in target.labels
  }

  /** Some pod matching all terms sits on a node bearing a required key. */
  ghost predicate SeriesStarted(inc: Incoming, nodes: Snapshot) {
    exists i, j, t :: Present(nodes, i, j) && MatchesAll(inc.affinity, nodes[i].pods[j].pod) &&
      t in inc.affinity && t.topologyKey in nodes[i].node.labels
  }

  ghost predicate AffinityOk(inc: Incoming, nodes: Snapshot, target: Node) {
    && HasAllKeys(inc, target)
    && (|| (forall t | t in inc.affinity :: HasCompanion(inc, nodes, target, t.topologyKey))
        || (!SeriesStarted(inc, nodes) && MatchesAll(inc.affinity, inc.pod)))
  }

  ghost predicate Accepts(inc: Incoming, nodes: Snapshot, target: Node) {
    AffinityOk(inc, nodes, target) && !IncomingConflict(inc, nodes, target) && !ExistingConflict(inc, nodes, target)
  }

  // ---- The counts ----

  /** Existing pods' anti-affinity, incoming affinity, incoming anti-affinity. */
  datatype Kind = Existing | Affinity | Anti

  /** What pod `p` on `node` adds to the count of `pair`. */
  ghost function PodShare(kind: Kind, inc: Incoming, node: Node, pair: TopologyPair, p: PodInfo): int {
    match kind
    case Existing => AntiAffinityShare(p.requiredAntiAffinityTerms, inc.pod, inc.nsLabels, node, pair)
    case Affinity => AffinityShare(inc.affinity, p.pod, node, pair)
    case Anti => AntiAffinityShare(inc.antiAffinity, p.pod, map[], node, pair)
  }

  ghost function PodShareFn(kind: Kind, inc: Incoming, node: Node, pair: TopologyPair): PodInfo -> int {
    (p: PodInfo) => PodShare(kind, inc, node, pair, p)
  }

  ghost function NodeShare(kind: Kind, inc: Incoming, pair: TopologyPair, ni: NodeInfo): int {
    Sum(ni.pods, PodShareFn(kind, inc, ni.node, pair))
  }

  ghost function NodeShareFn(kind: Kind, inc: Incoming, pair: TopologyPair): NodeInfo -> int {
    (ni: NodeInfo) => NodeShare(kind, inc, pair, ni)
  }

  ghost function PairCount(kind: Kind, inc: Incoming, nodes: Snapshot, pair: TopologyPair): int {
    Sum(nodes, NodeShareFn(kind, inc, pair))
  }

  // ---- A count is positive exactly when some pod and term contribute ----

  lemma AntiAffinityShareSign(terms: seq<AffinityTerm>, pod: Pod, nsLabels: Labels, node: Node, pair: TopologyPair)
    ensures AntiAffinityShare(terms, pod, nsLabels, node, pair) >= 0
    ensures AntiAffinityShare(terms, pod, nsLabels, node, pair) > 0 <==>
            exists t :: t in terms && t.Matches(pod, nsLabels) && Hits(node, t.topologyKey, pair)
  {
    var f := AntiAffinityFn(pod, nsLabels, node, pair);
    SumPositive(terms, f);
    forall t | t in terms && t.Matches(pod, nsLabels) && Hits(node, t.topologyKey, pair)
      ensures exists k :: 0 <= k < |terms| && f(terms[k]) > 0
    {
      var k :| 0 <= k < |terms| && terms[k] == t;
      assert f(terms[k]) > 0;
    }
  }

  lemma AffinityShareSign(terms: seq<AffinityTerm>, pod: Pod, node: Node, pair: TopologyPair)
    ensures AffinityShare(terms, pod, node, pair) >= 0
    ensures AffinityShare(terms, pod, node, pair) > 0 <==>
            MatchesAll(terms, pod) && exists t :: t in terms && Hits(node, t.topologyKey, pair)
  {
    var f := AffinityFn(node, pair);
    SumPositive(terms, f);
    forall t | t in terms && Hits(node, t.topologyKey, pair)
      ensures exists k :: 0 <= k < |terms| && f(terms[k]) > 0
    {
      var k :| 0 <= k < |terms| && terms[k] == t;
      assert f(terms[k]) > 0;
    }
  }

  lemma PodShareSign(kind: Kind, inc: Incoming, node: Node, pair: TopologyPair, p: PodInfo)
    ensures PodShare(kind, inc, node, pair, p) >= 0
  {
    AntiAffinityShareSign(p.requiredAntiAffinityTerms, inc.pod, inc.nsLabels, node, pair);
    AffinityShareSign(inc.affinity, p.pod, node, pair);
    AntiAffinityShareSign(inc.antiAffinity, p.pod, map[], node, pair);
  }

  ghost predicate Contributes(kind: Kind, inc: Incoming, nodes: Snapshot, pair: TopologyPair, i: int, j: int) {
    Present(nodes, i, j) && PodShare(kind, inc, nodes[i].node, pair, nodes[i].pods[j]) > 0
  }

  lemma NodeShareSign(kind: Kind, inc: Incoming, pair: TopologyPair, ni: NodeInfo)
    ensures NodeShare(kind, inc, pair, ni) >= 0
    ensures NodeShare(kind, inc, pair, ni) > 0 <==>
            exists j :: 0 <= j < |ni.pods| && PodShare(kind, inc, ni.node, pair, ni.pods[j]) > 0
  {
    var f := PodShareFn(kind, inc, ni.node, pair);
    forall j | 0 <= j < |ni.pods| ensures f(ni.pods[j]) >= 0 {
      PodShareSign(kind, inc, ni.node, pair, ni.pods[j]);
    }
    SumPositive(ni.pods, f);
    assert forall j | 0 <= j < |ni.pods| :: f(ni.pods[j]) == PodShare(kind, inc, ni.node, pair, ni.pods[j]);
  }

  lemma PairCountSign(kind: Kind, inc: Incoming, nodes: Snapshot, pair: TopologyPair)
    ensures PairCount(kind, inc, nodes, pair) >= 0
    ensures PairCount(kind, inc, nodes, pair) > 0 <==> exists i, j :: Contributes(kind, inc, nodes, pair, i, j)
  {
    var f := NodeShareFn(kind, inc, pair);
    forall i | 0 <= i < |nodes|
      ensures f(nodes[i]) >= 0
      ensures f(nodes[i]) > 0 <==> exists j :: Contributes(kind, inc, nodes, pair, i, j)
    {
      NodeShareSign(kind, inc, pair, nodes[i]);
      assert forall j | 0 <= j < |nodes[i].pods| ::
        Contributes(kind, inc, nodes, pair, i, j) <==> PodShare(kind, inc, nodes[i].node, pair, nodes[i].pods[j]) > 0;
    }
    SumPositive(nodes, f);
  }

  // ---- The definition, read off the counts ----

  function DomainOf(node: Node, key: string): TopologyPair
    requires key in node.labels
  {
    TopologyPair(key, node.labels[key])
  }

  lemma ExistingConflictCounted(inc: Incoming, nodes: Snapshot, target: Node)
    ensures ExistingConflict(inc, nodes, target) <==>
            exists key :: key in target.labels && PairCount(Existing, inc, nodes, DomainOf(target, key)) > 0
  {
    forall key | key in target.labels
      ensures PairCount(Existing, inc, nodes, DomainOf(target, key)) > 0 <==>
              exists i, j, t :: Present(nodes, i, j) && t in nodes[i].pods[j].requiredAntiAffinityTerms &&
                t.Matches(inc.pod, inc.nsLabels) && t.topologyKey == key && SameDomain(nodes[i].node, target, key)
    {
      var pair := DomainOf(target, key);
      PairCountSign(Existing, inc, nodes, pair);
      forall i, j | Present(nodes, i, j)
        ensures Contributes(Existing, inc, nodes, pair, i, j) <==>
                exists t :: t in nodes[i].pods[j].requiredAntiAffinityTerms && t.Matches(inc.pod, inc.nsLabels) &&
                  t.topologyKey == key && SameDomain(nodes[i].node, target, key)
      {
        AntiAffinityShareSign(nodes[i].pods[j].requiredAntiAffinityTerms, inc.pod, inc.nsLabels, nodes[i].node, pair);
      }
    }
  }

  lemma IncomingConflictCounted(inc: Incoming, nodes: Snapshot, target: Node)
    ensures IncomingConflict(inc, nodes, target) <==>
            exists t :: t in inc.antiAffinity && t.topologyKey in target.labels &&
              PairCount(Anti, inc, nodes, DomainOf(target, t.topologyKey)) > 0
  {
    forall key | key in target.labels
      ensures PairCount(Anti, inc, nodes, DomainOf(target, key)) > 0 <==>
              exists i, j, t :: Present(nodes, i, j) && t in inc.antiAffinity &&
                t.Matches(nodes[i].pods[j].pod, map[]) && t.topologyKey == key && SameDomain(nodes[i].node, target, key)
    {
      var pair := DomainOf(target, key);
      PairCountSign(Anti, inc, nodes, pair);
      forall i, j | Present(nodes, i, j)
        ensures Contributes(Anti, inc, nodes, pair, i, j) <==>
                exists t :: t in inc.antiAffinity && t.Matches(nodes[i].pods[j].pod, map[]) &&
                  t.topologyKey == key && SameDomain(nodes[i].node, target, key)
      {
        AntiAffinityShareSign(inc.antiAffinity, nodes[i].pods[j].pod, map[], nodes[i].node, pair);
      }
    }
  }

  lemma CompanionCounted(inc: Incoming, nodes: Snapshot, target: Node, t: AffinityTerm)
    requires t in inc.affinity && t.topologyKey in target.labels
    ensures HasCompanion(inc, nodes, target, t.topologyKey) <==>
            PairCount(Affinity, inc, nodes, DomainOf(target, t.topologyKey)) > 0
  {
    var pair := DomainOf(target, t.topologyKey);
    PairCountSign(Affinity, inc, nodes, pair);
    forall i, j | Present(nodes, i, j)
      ensures Contributes(Affinity, inc, nodes, pair, i, j) <==>
              MatchesAll(inc.affinity, nodes[i].pods[j].pod) && SameDomain(nodes[i].node, target, t.topologyKey)
    {
      AffinityShareSign(inc.affinity, nodes[i].pods[j].pod, nodes[i].node, pair);
      assert Hits(nodes[i].node, t.topologyKey, pair) <==> SameDomain(nodes[i].node, target, t.topologyKey);
    }
  }

  lemma SeriesCounted(inc: Incoming, nodes: Snapshot)
    ensures SeriesStarted(inc, nodes) <==> exists pair :: PairCount(Affinity, inc, nodes, pair) > 0
  {
    forall pair | PairCount(Affinity, inc, nodes, pair) > 0 ensures SeriesStarted(inc, nodes) {
      PairCountSign(Affinity, inc, nodes, pair);
      var i, j :| Contributes(Affinity, inc, nodes, pair, i, j);
      AffinityShareSign(inc.affinity, nodes[i].pods[j].pod, nodes[i].node, pair);
    }
    if SeriesStarted(inc, nodes) {
      var i, j, t :| Present(nodes, i, j) && MatchesAll(inc.affinity, nodes[i].pods[j].pod) &&
        t in inc.affinity && t.topologyKey in nodes[i].node.labels;
      var pair := DomainOf(nodes[i].node, t.topologyKey);
      AffinityShareSign(inc.affinity, nodes[i].pods[j].pod, nodes[i].node, pair);
      assert Hits(nodes[i].node, t.topologyKey, pair);
      assert Contributes(Affinity, inc, nodes, pair, i, j);
      PairCountSign(Affinity, inc, nodes, pair);
    }
  }
}
