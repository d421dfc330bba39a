/** The raw topology spread score on the constraints as they are written. */
module SpreadScoreWritten {
  import opened Labels
  import opened Cluster
  import opened Scores
  import opened SpreadCommon
  import opened SpreadScoring
  import opened SpreadWritten
  import opened Sums

  /** Nodes without some of the keys are left out, unless only the defaults of the
      system bind the pod. */
  predicate NeedsAllKeys(a: Asker, systemDefaulted: bool) {
    || a.pod.spreadConstraints != []
    || (a.schedulingClass.Some? && a.schedulingClass.value.spreadConstraints != [])
    || !systemDefaulted
  }

  ghost predicate HasAllKeys(a: Asker, node: Node) {
    forall b | b in a.Binding(ScheduleAnyway) :: b.c.topologyKey in node.labels
  }

  /** The node is left out of the scoring. */
  ghost predicate LeftOut(a: Asker, systemDefaulted: bool, node: Node) {
    NeedsAllKeys(a, systemDefaulted) && !HasAllKeys(a, node)
  }

  function ValueAt(b: Bound, node: Node): string {
    if b.c.topologyKey in node.labels then node.labels[b.c.topologyKey] else ""
  }

  ghost function CountInFn(a: Asker, systemDefaulted: bool, b: Bound, v: string): NodeInfo -> int {
    (ni: NodeInfo) =>
      if Included(a, b, ni.node) && !LeftOut(a, systemDefaulted, ni.node) && ValueAt(b, ni.node) == v
      then Sum(ni.pods, CountFn(a, b)) else 0
  }

  /** The pods that the constraint counts against a candidate: those on the node
      itself under the host name key, else those in its domain. */
  ghost function CountAgainst(a: Asker, systemDefaulted: bool, b: Bound, nodes: Snapshot, ni: NodeInfo): int {
    if b.c.topologyKey == HOSTNAME then Sum(ni.pods, CountFn(a, b))
    else Sum(nodes, CountInFn(a, systemDefaulted, b, ValueAt(b, ni.node)))
  }

  /** How many domains the candidates are in, or how many there are. */
  ghost function Size(a: Asker, systemDefaulted: bool, b: Bound, filtered: Snapshot): int {
    var candidates := set k | 0 <= k < |filtered| && !LeftOut(a, systemDefaulted, filtered[k].node) ::
                        ValueAt(b, filtered[k].node);
    var left := set k | 0 <= k < |filtered| && LeftOut(a, systemDefaulted, filtered[k].node) :: filtered[k].node.name;
    if b.c.topologyKey == HOSTNAME then |filtered| - |left| else |candidates|
  }

  /** What the constraint adds to the score of a candidate, at the weight `w`. */
  ghost function Adds(a: Asker, systemDefaulted: bool, b: Bound, nodes: Snapshot, ni: NodeInfo, w: real): real {
    if b.c.topologyKey in ni.node.labels
    then CountAgainst(a, systemDefaulted, b, nodes, ni) as real * w + (b.c.maxSkew - 1) as real
    else 0.0
  }

  ghost function AddsFn(a: Asker, systemDefaulted: bool, nodes: Snapshot, filtered: Snapshot, weight: int -> real,
      ni: NodeInfo): Bound -> real
  {
    (b: Bound) => Adds(a, systemDefaulted, b, nodes, ni, weight(Size(a, systemDefaulted, b, filtered)))
  }

  // ---- The score adds up to that ----

  function EnvOf(a: Asker, systemDefaulted: bool): (se: ScoreEnv)
    ensures se.e == a.EnvOf(ScheduleAnyway)
  {
    ScoreEnvOf(a.pod, a.schedulingClass, a.keys, a.defaults, a.ownerSelector, systemDefaulted, a.flags)
  }

  lemma SameKeysNeeded(a: Asker, systemDefaulted: bool, node: Node)
    requires AllCorrespond(a, a.EnvOf(ScheduleAnyway).constraints, a.Binding(ScheduleAnyway))
    ensures var se := EnvOf(a, systemDefaulted);
            && (se.requireAllTopologies <==> NeedsAllKeys(a, systemDefaulted))
            && (NodeLabelsMatch(se.e.constraints, node.labels) <==> HasAllKeys(a, node))
            && (Ignored(se, node) <==> LeftOut(a, systemDefaulted, node))
  {
    var ks, bs := a.EnvOf(ScheduleAnyway).constraints, a.Binding(ScheduleAnyway);
    assert forall j | 0 <= j < |bs| :: Corresponds(a, ks[j], bs[j]) && bs[j] in bs;
  }

  lemma SameShare(a: Asker, systemDefaulted: bool, i: nat, v: string, ni: NodeInfo)
    requires AllCorrespond(a, a.EnvOf(ScheduleAnyway).constraints, a.Binding(ScheduleAnyway))
    requires i < |a.EnvOf(ScheduleAnyway).constraints|
    ensures ShareFn(EnvOf(a, systemDefaulted), i, v)(ni) ==
            CountInFn(a, systemDefaulted, a.Binding(ScheduleAnyway)[i], v)(ni)
  {
    var se, b := EnvOf(a, systemDefaulted), a.Binding(ScheduleAnyway)[i];
    assert Corresponds(a, se.e.constraints[i], b);
    SameKeysNeeded(a, systemDefaulted, ni.node);
    AsksAsProfile(a, ni.node);
    SamePods(a, se.e.constraints[i], b, ni.pods);
  }

  /** A counter that is there holds what the written constraint counts. */
  lemma SameCountAgainst(a: Asker, systemDefaulted: bool, i: nat, nodes: Snapshot, counts: seq<Counters>, ni: NodeInfo)
    requires AllCorrespond(a, a.EnvOf(ScheduleAnyway).constraints, a.Binding(ScheduleAnyway))
    requires CountsHold(EnvOf(a, systemDefaulted), counts, nodes) && i < |counts|
    requires LookupsExist(EnvOf(a, systemDefaulted), counts, ni.node)
    requires a.Binding(ScheduleAnyway)[i].c.topologyKey in ni.node.labels
    ensures CountAt(EnvOf(a, systemDefaulted), counts, i, ni) ==
            CountAgainst(a, systemDefaulted, a.Binding(ScheduleAnyway)[i], nodes, ni)
  {
    var se, b := EnvOf(a, systemDefaulted), a.Binding(ScheduleAnyway)[i];
    assert Corresponds(a, se.e.constraints[i], b);
    var v := ValueAt(b, ni.node);
    SamePods(a, se.e.constraints[i], b, ni.pods);
    forall k | 0 <= k < |nodes|
      ensures ShareFn(se, i, v)(nodes[k]) == CountInFn(a, systemDefaulted, b, v)(nodes[k])
    {
      SameShare(a, systemDefaulted, i, v, nodes[k]);
    }
    SumCongruent(nodes, ShareFn(se, i, v), CountInFn(a, systemDefaulted, b, v));
  }

  lemma SameCandidates(a: Asker, systemDefaulted: bool, i: nat, filtered: Snapshot, ignoredNodes: set<string>)
    requires AllCorrespond(a, a.EnvOf(ScheduleAnyway).constraints, a.Binding(ScheduleAnyway))
    requires i < |a.EnvOf(ScheduleAnyway).constraints|
    requires IgnoredNames(EnvOf(a, systemDefaulted), filtered, ignoredNodes)
    ensures var se, b := EnvOf(a, systemDefaulted), a.Binding(ScheduleAnyway)[i];
            Size(a, systemDefaulted, b, filtered) ==
            if b.c.topologyKey == HOSTNAME then |filtered| - |ignoredNodes| else |CandidateValues(se, i, filtered)|
  {
    var se, b := EnvOf(a, systemDefaulted), a.Binding(ScheduleAnyway)[i];
    assert Corresponds(a, se.e.constraints[i], b);
    forall k | 0 <= k < |filtered|
      ensures Ignored(se, filtered[k].node) <==>
              LeftOut(a, systemDefaulted, filtered[k].node)
      ensures se.Value(i, filtered[k].node) == ValueAt(b, filtered[k].node)
    {
      SameKeysNeeded(a, systemDefaulted, filtered[k].node);
    }
    var left := set k | 0 <= k < |filtered| && LeftOut(a, systemDefaulted, filtered[k].node) :: filtered[k].node.name;
    assert left == ignoredNodes;
    var candidates := set k | 0 <= k < |filtered| && !LeftOut(a, systemDefaulted, filtered[k].node) ::
                        ValueAt(b, filtered[k].node);
    assert candidates == CandidateValues(se, i, filtered);
  }

  lemma {:induction false} ExactSum(xs: seq<Option<real>>, bs: seq<Bound>, f: Bound -> real)
    requires |xs| == |bs|
    requires forall i | 0 <= i < |xs| :: f(bs[i]) == if xs[i].Some? then xs[i].value else 0.0
    ensures RoundedSum(Exact, xs) == RealSum(bs, f)
  {
    if xs != [] {
      ExactSum(xs[..|xs| - 1], bs[..|bs| - 1], f);
    }
  }

  lemma SameWeight(a: Asker, systemDefaulted: bool, i: nat, filtered: Snapshot, weight: int -> real,
      ignoredNodes: set<string>, counts: seq<Counters>, weights: seq<real>)
    requires AllCorrespond(a, a.EnvOf(ScheduleAnyway).constraints, a.Binding(ScheduleAnyway))
    requires var se := EnvOf(a, systemDefaulted);
             && IgnoredNames(se, filtered, ignoredNodes) && CountersFor(se, filtered, counts)
             && WeighedBySize(se, counts, |filtered| - |ignoredNodes|, weights, weight)
    requires i < |counts|
    ensures weights[i] == weight(Size(a, systemDefaulted, a.Binding(ScheduleAnyway)[i], filtered))
  {
    var se := EnvOf(a, systemDefaulted);
    assert Corresponds(a, se.e.constraints[i], a.Binding(ScheduleAnyway)[i]);
    SameCandidates(a, systemDefaulted, i, filtered, ignoredNodes);
    assert |counts[i]| == |counts[i].Keys|;
  }

  lemma SameContribution(a: Asker, systemDefaulted: bool, i: nat, nodes: Snapshot, counts: seq<Counters>,
      weights: seq<real>, ni: NodeInfo)
    requires AllCorrespond(a, a.EnvOf(ScheduleAnyway).constraints, a.Binding(ScheduleAnyway))
    requires CountsHold(EnvOf(a, systemDefaulted), counts, nodes) && |weights| == |counts|
    requires LookupsExist(EnvOf(a, systemDefaulted), counts, ni.node) && i < |counts|
    ensures var x := Contribution(Exact, EnvOf(a, systemDefaulted), counts, weights, ni, i);
            Adds(a, systemDefaulted, a.Binding(ScheduleAnyway)[i], nodes, ni, weights[i]) ==
            if x.Some? then x.value else 0.0
  {
    var se, b := EnvOf(a, systemDefaulted), a.Binding(ScheduleAnyway)[i];
    assert Corresponds(a, se.e.constraints[i], b);
    if b.c.topologyKey in ni.node.labels {
      SameCountAgainst(a, systemDefaulted, i, nodes, counts, ni);
    }
  }

  lemma PartsAddUp(a: Asker, systemDefaulted: bool, nodes: Snapshot, filtered: Snapshot, weight: int -> real,
      ignoredNodes: set<string>, counts: seq<Counters>, weights: seq<real>, ni: NodeInfo)
    requires AllCorrespond(a, a.EnvOf(ScheduleAnyway).constraints, a.Binding(ScheduleAnyway))
    requires Prepared(EnvOf(a, systemDefaulted), nodes, filtered, weight, ignoredNodes, counts, weights)
    requires LookupsExist(EnvOf(a, systemDefaulted), counts, ni.node)
    ensures RawScore(Exact, EnvOf(a, systemDefaulted), counts, weights, ni) ==
            RealSum(a.Binding(ScheduleAnyway), AddsFn(a, systemDefaulted, nodes, filtered, weight, ni))
  {
    var xs := Contributions(Exact, EnvOf(a, systemDefaulted), counts, weights, ni);
    var bs, f := a.Binding(ScheduleAnyway), AddsFn(a, systemDefaulted, nodes, filtered, weight, ni);
    forall i | 0 <= i < |xs| ensures f(bs[i]) == if xs[i].Some? then xs[i].value else 0.0 {
      SameWeight(a, systemDefaulted, i, filtered, weight, ignoredNodes, counts, weights);
      SameContribution(a, systemDefaulted, i, nodes, counts, weights, ni);
    }
    ExactSum(xs, bs, f);
  }

  /** In exact arithmetic the raw score of a candidate is, summed over the written
      constraints that bind the pod and only prefer, and whose key the node has:
      the pods counted against it times the weight of the number of domains, plus
      the tolerated skew less one. */
  lemma ScoreAsWritten(a: Asker, systemDefaulted: bool, nodes: Snapshot, filtered: Snapshot, weight: int -> real,
      ignoredNodes: set<string>, counts: seq<Counters>, weights: seq<real>, k: nat)
    requires Prepared(EnvOf(a, systemDefaulted), nodes, filtered, weight, ignoredNodes, counts, weights)
    requires k < |filtered| && filtered[k].node.name !in ignoredNodes
    ensures RawScore(Exact, EnvOf(a, systemDefaulted), counts, weights, filtered[k]) ==
            RealSum(a.Binding(ScheduleAnyway), AddsFn(a, systemDefaulted, nodes, filtered, weight, filtered[k]))
  {
    var se := EnvOf(a, systemDefaulted);
    ConstraintsAreWritten(a, ScheduleAnyway);
    CandidatesCanBeScored(se, filtered, counts, ignoredNodes, k);
    PartsAddUp(a, systemDefaulted, nodes, filtered, weight, ignoredNodes, counts, weights, filtered[k]);
  }
}
