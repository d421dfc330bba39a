/** Topology spread scoring: shared counters filled by parallel workers, a
    weighted sum per node, and an order-reversing normalization. */
module SpreadScoring {
  import opened Labels
  import opened Cluster
  import opened NodeSelectors
  import opened Sums
  import opened SpreadCommon
  import opened Scores
  import Merger
  import SpreadPlugin

  const HOSTNAME := "kubernetes.io/hostname"
  const INVALID_SCORE := -1

  type Counters = map<string, int>

  /** What one scoring attempt counts by. */
  datatype ScoreEnv = ScoreEnv(e: Env, requireAllTopologies: bool) {
    function Key(i: nat): string
      requires i < |e.constraints|
    {
      e.constraints[i].topologyKey
    }

    function Value(i: nat, node: Node): string
      requires i < |e.constraints|
    {
      ValueOrEmpty(node.labels, e.constraints[i].topologyKey)
    }
  }

  /** Whether the pods of `node` count for constraint `i`. */
  predicate Countable(se: ScoreEnv, i: nat, node: Node)
    requires i < |se.e.constraints|
  {
    && (!se.e.inclusion ==> RequiredMatches(se.e.profile.nodeSelector, se.e.profile.affinity, node))
    && (se.requireAllTopologies ==> NodeLabelsMatch(se.e.constraints, node.labels))
    && (se.e.inclusion ==> MatchNodeInclusionPolicies(se.e.constraints[i], se.e.profile, node))
  }

  ghost function NodeCount(se: ScoreEnv, i: nat, ni: NodeInfo): int
    requires i < |se.e.constraints|
  {
    PodCount(ni.pods, se.e.constraints[i].selector, se.e.profile.namespace)
  }

  ghost function ShareFn(se: ScoreEnv, i: nat, v: string): NodeInfo -> int
    requires i < |se.e.constraints|
  {
    (ni: NodeInfo) => if Countable(se, i, ni.node) && se.Value(i, ni.node) == v then NodeCount(se, i, ni) else 0
  }

  /** The matching pods in domain `v` of constraint `i`. A node without the key
      is in the domain of the empty value. */
  ghost function DomainCount(se: ScoreEnv, i: nat, v: string, nodes: Snapshot): int
    requires i < |se.e.constraints|
  {
    Sum(nodes, ShareFn(se, i, v))
  }

  /** The values of the filtered nodes that are to be scored. */
  ghost function CandidateValues(se: ScoreEnv, i: nat, filtered: Snapshot): set<string>
    requires i < |se.e.constraints|
  {
    set k | 0 <= k < |filtered| && !Ignored(se, filtered[k].node) :: se.Value(i, filtered[k].node)
  }

  predicate Ignored(se: ScoreEnv, node: Node) {
    se.requireAllTopologies && !NodeLabelsMatch(se.e.constraints, node.labels)
  }

  ghost predicate ZeroCounters(counts: seq<Counters>) {
    forall i, v | 0 <= i < |counts| && v in counts[i] :: counts[i][v] == 0
  }

  /** There is a counter for every candidate value of every constraint that is
      not counted per host, and for no other value. */
  ghost predicate CountersFor(se: ScoreEnv, filtered: Snapshot, counts: seq<Counters>) {
    && |counts| == |se.e.constraints|
    && forall i | 0 <= i < |counts| ::
      counts[i].Keys == if se.Key(i) == HOSTNAME then {} else CandidateValues(se, i, filtered)
  }

  ghost predicate IgnoredNames(se: ScoreEnv, filtered: Snapshot, names: set<string>) {
    forall n ::
      n in names <==> exists k :: 0 <= k < |filtered| && Ignored(se, filtered[k].node) && filtered[k].node.name == n
  }

  /** One more candidate node: a new zero counter for every new value. */
  method AddCandidate(se: ScoreEnv, node: Node, counts: seq<Counters>, topoSize: seq<nat>)
    returns (counts': seq<Counters>, topoSize': seq<nat>)
    requires |topoSize| == |counts| == |se.e.constraints| && ZeroCounters(counts)
    requires forall i | 0 <= i < |counts| :: topoSize[i] == |counts[i]|
    ensures |topoSize'| == |counts'| == |counts| && ZeroCounters(counts')
    ensures forall i | 0 <= i < |counts| :: topoSize'[i] == |counts'[i]|
    ensures forall i | 0 <= i < |counts| ::
      counts'[i].Keys == counts[i].Keys + if se.Key(i) == HOSTNAME then {} else {se.Value(i, node)}
  {
    counts', topoSize' := counts, topoSize;
    for i := 0 to |counts|
      invariant |topoSize'| == |counts'| == |counts| && ZeroCounters(counts')
      invariant forall j | 0 <= j < |counts| :: topoSize'[j] == |counts'[j]|
      invariant forall j | i <= j < |counts| :: counts'[j] == counts[j]
      invariant forall j | 0 <= j < i ::
        counts'[j].Keys == counts[j].Keys + if se.Key(j) == HOSTNAME then {} else {se.Value(j, node)}
    {
      if se.e.constraints[i].topologyKey != HOSTNAME {
        var value := ValueOrEmpty(node.labels, se.e.constraints[i].topologyKey);
        if value !in counts'[i] {
          counts' := counts'[i := counts'[i][value := 0]];
          topoSize' := topoSize'[i := topoSize'[i] + 1];
        } else {
          assert counts'[i].Keys == counts[i].Keys + {value};
        }
      }
    }
  }

  lemma CandidateValuesOfOneMore(se: ScoreEnv, i: nat, filtered: Snapshot, k: nat)
    requires i < |se.e.constraints| && k < |filtered|
    ensures CandidateValues(se, i, filtered[..k + 1]) ==
            CandidateValues(se, i, filtered[..k]) +
            if Ignored(se, filtered[k].node) then {} else {se.Value(i, filtered[k].node)}
  {
    var before, after := filtered[..k], filtered[..k + 1];
    assert forall j | 0 <= j < k :: before[j] == after[j];
    assert after[k] == filtered[k];
    forall v | v in CandidateValues(se, i, before) ensures v in CandidateValues(se, i, after) {
      var j :| 0 <= j < k && !Ignored(se, before[j].node) && se.Value(i, before[j].node) == v;
      assert after[j] == before[j];
    }
  }

  lemma IgnoredNamesOfOneMore(se: ScoreEnv, filtered: Snapshot, k: nat, names: set<string>)
    requires k < |filtered| && IgnoredNames(se, filtered[..k], names)
    ensures IgnoredNames(se, filtered[..k + 1],
                         names + if Ignored(se, filtered[k].node) then {filtered[k].node.name} else {})
  {
    var before, after := filtered[..k], filtered[..k + 1];
    assert after == before + [filtered[k]];
    assert forall j | 0 <= j < k :: after[j] == before[j];
    forall j | 0 <= j < |before| && Ignored(se, before[j].node)
      ensures exists k' ::
        0 <= k' < |after| && Ignored(se, after[k'].node) && after[k'].node.name == before[j].node.name
    {
      assert after[j] == before[j];
    }
    if Ignored(se, filtered[k].node) {
      assert after[k] == filtered[k];
    }
  }

  /** The counters and ignored nodes that the filtered nodes give rise to. */
  method InitCounters(se: ScoreEnv, filtered: Snapshot) returns (ignoredNodes: set<string>, counts: seq<Counters>,
      topoSize: seq<nat>)
    ensures IgnoredNames(se, filtered, ignoredNodes) && CountersFor(se, filtered, counts) && ZeroCounters(counts)
    ensures |topoSize| == |counts| && forall i | 0 <= i < |counts| :: topoSize[i] == |counts[i]|
  {
    ignoredNodes, counts, topoSize := {}, seq(|se.e.constraints|, _ => map[]), seq(|se.e.constraints|, _ => 0);
    for k := 0 to |filtered|
      invariant IgnoredNames(se, filtered[..k], ignoredNodes)
      invariant CountersFor(se, filtered[..k], counts) && ZeroCounters(counts)
      invariant |topoSize| == |counts| && forall i | 0 <= i < |counts| :: topoSize[i] == |counts[i]|
    {
      var node := filtered[k].node;
      IgnoredNamesOfOneMore(se, filtered, k, ignoredNodes);
      forall i | 0 <= i < |se.e.constraints| {
        CandidateValuesOfOneMore(se, i, filtered, k);
      }
      if se.requireAllTopologies && !NodeLabelsMatch(se.e.constraints, node.labels) {
        ignoredNodes := ignoredNodes + {node.name};
      } else {
        assert ignoredNodes + {} == ignoredNodes;
        counts, topoSize := AddCandidate(se, node, counts, topoSize);
      }
    }
    assert filtered[..|filtered|] == filtered;
  }

  class PreScoreState {
    const se: ScoreEnv
    const ignoredNodes: set<string>
    const weights: seq<real>
    var counts: seq<Counters>

    constructor (se: ScoreEnv, ignoredNodes: set<string>, counts: seq<Counters>, weights: seq<real>)
      ensures this.se == se && this.ignoredNodes == ignoredNodes && this.counts == counts && this.weights == weights
    {
      this.se := se;
      this.ignoredNodes := ignoredNodes;
      this.counts := counts;
      this.weights := weights;
    }

    /** One atomic addition to a shared counter. */
    method AtomicAdd(i: nat, v: string, n: int)
      requires i < |counts| && v in counts[i]
      modifies this`counts
      ensures counts == old(counts)[i := old(counts)[i][v := old(counts)[i][v] + n]]
    {
      counts := counts[i := counts[i][v := counts[i][v] + n]];
    }

    /** The part of a worker that handles one constraint on one node. */
    method CountNode(i: nat, ni: NodeInfo)
      requires i < |counts| == |se.e.constraints|
      modifies this`counts
      ensures |counts| == |old(counts)| && forall j | 0 <= j < |counts| && j != i :: counts[j] == old(counts)[j]
      ensures counts[i].Keys == old(counts)[i].Keys
      ensures forall v | v in counts[i] :: counts[i][v] == old(counts)[i][v] + ShareFn(se, i, v)(ni)
    {
      var node := ni.node;
      if !se.e.inclusion && !RequiredMatches(se.e.profile.nodeSelector, se.e.profile.affinity, node) {
        return;
      }
      if se.requireAllTopologies && !NodeLabelsMatch(se.e.constraints, node.labels) {
        return;
      }
      var c := se.e.constraints[i];
      if se.e.inclusion && !MatchNodeInclusionPolicies(c, se.e.profile, node) {
        return;
      }
      var value := ValueOrEmpty(node.labels, c.topologyKey);
      if value !in counts[i] {
        return;
      }
      var count := CountPodsMatchSelector(ni.pods, c.selector, se.e.profile.namespace);
      AtomicAdd(i, value, count);
      assert counts[i].Keys == old(counts)[i].Keys;
    }

    /** The counting phase. Workers on different nodes interleave in any way, so
        any (node, constraint) pair not yet handled may come next. */
    method CountAll(nodes: Snapshot)
      requires |counts| == |se.e.constraints| && ZeroCounters(counts)
      modifies this`counts
      ensures |counts| == |old(counts)|
      ensures forall i | 0 <= i < |counts| :: counts[i].Keys == old(counts)[i].Keys
      ensures forall i, v | 0 <= i < |counts| && v in counts[i] :: counts[i][v] == DomainCount(se, i, v, nodes)
    {
      var pending := Pairs(|nodes|, |counts|);
      NoneDone(se, nodes, counts, pending);
      while pending != {}
        invariant pending <= Pairs(|nodes|, |counts|) && |counts| == |old(counts)| == |se.e.constraints|
        invariant forall i | 0 <= i < |counts| :: counts[i].Keys == old(counts)[i].Keys
        invariant CountedSoFar(se, nodes, counts, pending)
        decreases pending
      {
        var p :| p in pending;
        ghost var before := counts;
        CountNode(p.1, nodes[p.0]);
        OneMoreDone(se, nodes, before, counts, pending, p);
        pending := pending - {p};
      }
      AllDone(se, nodes, counts);
    }

    /** The score of a candidate node before normalization; `rnd` rounds the
        result of every floating-point operation. */
    method Score(ni: NodeInfo, rnd: real -> real) returns (score: int)
      requires |counts| == |weights| == |se.e.constraints|
      requires ni.node.name !in ignoredNodes ==> LookupsExist(se, counts, ni.node)
      ensures score == if ni.node.name in ignoredNodes then 0
                       else Round(RawScore(rnd, se, counts, weights, ni))
    {
      if ni.node.name in ignoredNodes {
        return 0;
      }
      var sum := 0.0;
      ghost var xs := Contributions(rnd, se, counts, weights, ni);
      for i := 0 to |counts|
        invariant sum == RoundedSum(rnd, xs[..i])
      {
        assert xs[..i + 1][..i] == xs[..i];
        var c := se.e.constraints[i];
        if c.topologyKey in ni.node.labels {
          var cnt: int;
          if c.topologyKey == HOSTNAME {
            cnt := CountPodsMatchSelector(ni.pods, c.selector, se.e.profile.namespace);
          } else {
            cnt := counts[i][ni.node.labels[c.topologyKey]];
          }
          sum := rnd(sum + ScoreForCount(rnd, cnt, c.maxSkew, weights[i]));
        }
      }
      assert xs[..|counts|] == xs;
      score := Round(sum);
    }
  }

  /** What scoring decides by: the constraints that only prefer, and whether
      nodes without some of their keys are passed over. The latter is so unless
      the constraints are the defaults of the system. */
  function ScoreEnvOf(pod: Pod, schedulingClass: Option<Merger.SchedulingClass>, keys: seq<string>,
      defaults: seq<TopologySpreadConstraint>, ownerSelector: Selector, systemDefaulted: bool,
      flags: SpreadPlugin.Flags): ScoreEnv
  {
    ScoreEnv(
      SpreadPlugin.EnvFor(pod, schedulingClass, keys, defaults, ownerSelector, ScheduleAnyway, flags),
      SpreadPlugin.WrittenConstraints(pod, schedulingClass, keys) != [] || !systemDefaulted)
  }

  ghost predicate WeighedBySize(se: ScoreEnv, counts: seq<Counters>, hosts: int, weights: seq<real>,
      normalizingWeight: int -> real)
  {
    && |weights| == |counts| == |se.e.constraints|
    && forall i | 0 <= i < |weights| ::
         weights[i] == normalizingWeight(if se.Key(i) == HOSTNAME then hosts else |counts[i]|)
  }

  /** Counters for the candidate values with the sums over all nodes, the ignored
      names and the weights. */
  ghost predicate Prepared(se: ScoreEnv, nodes: Snapshot, filtered: Snapshot, normalizingWeight: int -> real,
      ignoredNodes: set<string>, counts: seq<Counters>, weights: seq<real>)
  {
    && IgnoredNames(se, filtered, ignoredNodes)
    && CountersFor(se, filtered, counts) && CountsHold(se, counts, nodes)
    && WeighedBySize(se, counts, |filtered| - |ignoredNodes|, weights, normalizingWeight)
  }

  lemma SameKeysSameSize(a: Counters, b: Counters)
    requires a.Keys == b.Keys
    ensures |a| == |b|
  {
    assert |a| == |a.Keys| && |b| == |b.Keys|;
  }

  /** Counting leaves the keys of the counters, and so the weights, as set up. */
  lemma SameKeysSameWeights(se: ScoreEnv, filtered: Snapshot, hosts: int, normalizingWeight: int -> real,
      before: seq<Counters>, after: seq<Counters>, weights: seq<real>)
    requires CountersFor(se, filtered, before) && WeighedBySize(se, before, hosts, weights, normalizingWeight)
    requires |after| == |before| && forall i | 0 <= i < |after| :: after[i].Keys == before[i].Keys
    ensures CountersFor(se, filtered, after) && WeighedBySize(se, after, hosts, weights, normalizingWeight)
  {
    forall i | 0 <= i < |after| ensures |after[i]| == |before[i]| {
      SameKeysSameSize(after[i], before[i]);
    }
  }

  /** Initialization on the filtered nodes, then counting all nodes. */
  method Prepare(se: ScoreEnv, nodes: Snapshot, filtered: Snapshot, normalizingWeight: int -> real)
      returns (s: PreScoreState)
    ensures fresh(s) && s.se == se
    ensures Prepared(se, nodes, filtered, normalizingWeight, s.ignoredNodes, s.counts, s.weights)
  {
    var ignoredNodes, counts, topoSize := InitCounters(se, filtered);
    var hosts := |filtered| - |ignoredNodes|;
    var weights := ComputeWeights(se, topoSize, hosts, normalizingWeight);
    assert WeighedBySize(se, counts, hosts, weights, normalizingWeight);
    s := new PreScoreState(se, ignoredNodes, counts, weights);
    s.CountAll(nodes);
    ghost var after := s.counts;
    assert CountsHold(se, after, nodes);
    SameKeysSameWeights(se, filtered, hosts, normalizingWeight, counts, after, weights);
    assert Prepared(se, nodes, filtered, normalizingWeight, ignoredNodes, after, weights);
  }

  /** PreScore. There is no state exactly when there are no nodes or no
      constraints to score by. */
  method PreScore(pod: Pod, schedulingClass: Option<Merger.SchedulingClass>, keys: seq<string>,
      defaults: seq<TopologySpreadConstraint>, ownerSelector: Selector, systemDefaulted: bool,
      flags: SpreadPlugin.Flags, nodes: Snapshot, filtered: Snapshot, normalizingWeight: int -> real)
    returns (s: PreScoreState?)
    ensures var se := ScoreEnvOf(pod, schedulingClass, keys, defaults, ownerSelector, systemDefaulted, flags);
            && (s == null <==> nodes == [] || se.e.constraints == [])
            && (s != null ==>
                  && fresh(s) && s.se == se
                  && Prepared(se, nodes, filtered, normalizingWeight, s.ignoredNodes, s.counts, s.weights))
  {
    if |nodes| == 0 {
      return null;
    }
    var merged := Merger.MergeTopologySpreadConstraints(pod, schedulingClass, keys);
    var hasMergedConstraints := merged.Some? && |merged.value| > 0;
    var requireAllTopologies := |pod.spreadConstraints| > 0 || hasMergedConstraints || !systemDefaulted;
    var e := SpreadPlugin.EnvFor(pod, schedulingClass, keys, defaults, ownerSelector, ScheduleAnyway, flags);
    if |e.constraints| == 0 {
      return null;
    }
    s := Prepare(ScoreEnv(e, requireAllTopologies), nodes, filtered, normalizingWeight);
  }

  /** Which filtered nodes are passed over: those without some topology key,
      but none when the constraints are the defaults of the system. */
  lemma IgnoredExact(pod: Pod, schedulingClass: Option<Merger.SchedulingClass>, keys: seq<string>,
      defaults: seq<TopologySpreadConstraint>, ownerSelector: Selector, systemDefaulted: bool,
      flags: SpreadPlugin.Flags, node: Node)
    ensures var se := ScoreEnvOf(pod, schedulingClass, keys, defaults, ownerSelector, systemDefaulted, flags);
            Ignored(se, node) <==>
            && (exists i :: 0 <= i < |se.e.constraints| && se.Key(i) !in node.labels)
            && (|| pod.spreadConstraints != [] || !systemDefaulted
                || (schedulingClass.Some? && schedulingClass.value.spreadConstraints != []))
  {
    var se := ScoreEnvOf(pod, schedulingClass, keys, defaults, ownerSelector, systemDefaulted, flags);
    if !NodeLabelsMatch(se.e.constraints, node.labels) {
      var i :| 0 <= i < |se.e.constraints| && se.e.constraints[i].topologyKey !in node.labels;
      assert se.Key(i) !in node.labels;
    }
  }

  method ComputeWeights(se: ScoreEnv, topoSize: seq<nat>, hosts: int, normalizingWeight: int -> real)
      returns (weights: seq<real>)
    requires |topoSize| == |se.e.constraints|
    ensures |weights| == |topoSize|
    ensures forall i | 0 <= i < |weights| ::
      weights[i] == normalizingWeight(if se.Key(i) == HOSTNAME then hosts else topoSize[i])
  {
    weights := [];
    for i := 0 to |topoSize|
      invariant |weights| == i
      invariant forall j | 0 <= j < i ::
        weights[j] == normalizingWeight(if se.Key(j) == HOSTNAME then hosts else topoSize[j])
    {
      var sz: int := topoSize[i];
      if se.e.constraints[i].topologyKey == HOSTNAME {
        sz := hosts;
      }
      weights := weights + [normalizingWeight(sz)];
    }
  }

  // ---- Interleaved counting ----

  function Pairs(n: nat, m: nat): (r: set<(nat, nat)>)
    ensures forall p :: p in r <==> p.0 < n && p.1 < m
  {
    set a, b | a in Indices(n) && b in Indices(m) :: (a, b)
  }

  /** The nodes already counted for constraint `i`. */
  ghost function DoneFor(n: nat, i: nat, pending: set<(nat, nat)>): set<nat> {
    set k | k in Indices(n) && (k, i) !in pending
  }

  ghost predicate CountedSoFar(se: ScoreEnv, nodes: Snapshot, counts: seq<Counters>, pending: set<(nat, nat)>)
    requires |counts| == |se.e.constraints|
  {
    forall i, v | 0 <= i < |counts| && v in counts[i] ::
      counts[i][v] == SumDone(nodes, ShareFn(se, i, v), DoneFor(|nodes|, i, pending))
  }

  lemma NoneDone(se: ScoreEnv, nodes: Snapshot, counts: seq<Counters>, pending: set<(nat, nat)>)
    requires |counts| == |se.e.constraints| && ZeroCounters(counts) && pending == Pairs(|nodes|, |counts|)
    ensures CountedSoFar(se, nodes, counts, pending)
  {
    forall i, v | 0 <= i < |counts| && v in counts[i]
      ensures SumDone(nodes, ShareFn(se, i, v), DoneFor(|nodes|, i, pending)) == 0
    {
      assert DoneFor(|nodes|, i, pending) == {};
      SumDoneNone(nodes, ShareFn(se, i, v));
    }
  }

  lemma OneMoreDone(se: ScoreEnv, nodes: Snapshot, before: seq<Counters>, after: seq<Counters>, pending: set<(nat,
      nat)>, p: (nat, nat))
    requires |before| == |after| == |se.e.constraints| && p in pending && p.0 < |nodes| && p.1 < |after|
    requires CountedSoFar(se, nodes, before, pending)
    requires forall j | 0 <= j < |after| && j != p.1 :: after[j] == before[j]
    requires after[p.1].Keys == before[p.1].Keys
    requires forall v | v in after[p.1] :: after[p.1][v] == before[p.1][v] + ShareFn(se, p.1, v)(nodes[p.0])
    ensures CountedSoFar(se, nodes, after, pending - {p})
  {
    forall i, v | 0 <= i < |after| && v in after[i]
      ensures after[i][v] == SumDone(nodes, ShareFn(se, i, v), DoneFor(|nodes|, i, pending - {p}))
    {
      if i == p.1 {
        assert DoneFor(|nodes|, i, pending - {p}) == DoneFor(|nodes|, i, pending) + {p.0};
        SumDoneStep(nodes, ShareFn(se, i, v), DoneFor(|nodes|, i, pending), p.0);
      } else {
        assert DoneFor(|nodes|, i, pending - {p}) == DoneFor(|nodes|, i, pending);
      }
    }
  }

  lemma AllDone(se: ScoreEnv, nodes: Snapshot, counts: seq<Counters>)
    requires |counts| == |se.e.constraints| && CountedSoFar(se, nodes, counts, {})
    ensures forall i, v | 0 <= i < |counts| && v in counts[i] :: counts[i][v] == DomainCount(se, i, v, nodes)
  {
    forall i, v | 0 <= i < |counts| && v in counts[i] ensures counts[i][v] == DomainCount(se, i, v, nodes) {
      SumDoneAll(nodes, ShareFn(se, i, v), DoneFor(|nodes|, i, {}));
    }
  }

  // ---- Scores ----

  /** The counter that scoring dereferences is there. */
  ghost predicate LookupsExist(se: ScoreEnv, counts: seq<Counters>, node: Node)
    requires |counts| == |se.e.constraints|
  {
    forall i | 0 <= i < |counts| && se.Key(i) != HOSTNAME && se.Key(i) in node.labels ::
      node.labels[se.Key(i)] in counts[i]
  }

  /** Every filtered node that is not ignored can be scored. */
  lemma CandidatesCanBeScored(se: ScoreEnv, filtered: Snapshot, counts: seq<Counters>, ignoredNodes: set<string>,
      k: nat)
    requires CountersFor(se, filtered, counts) && IgnoredNames(se, filtered, ignoredNodes)
    requires k < |filtered| && filtered[k].node.name !in ignoredNodes
    ensures LookupsExist(se, counts, filtered[k].node)
    ensures se.requireAllTopologies ==> NodeLabelsMatch(se.e.constraints, filtered[k].node.labels)
  {
    assert !Ignored(se, filtered[k].node);
    forall i | 0 <= i < |counts| && se.Key(i) != HOSTNAME && se.Key(i) in filtered[k].node.labels
      ensures filtered[k].node.labels[se.Key(i)] in counts[i]
    {
      assert se.Value(i, filtered[k].node) in CandidateValues(se, i, filtered);
    }
  }

  function ScoreForCount(rnd: real -> real, cnt: int, maxSkew: int, tpWeight: real): real {
    rnd(rnd(rnd(cnt as real) * tpWeight) + rnd((maxSkew - 1) as real))
  }

  /** Rounds to the nearest integer, halves away from zero. */
  function Round(x: real): int {
    if x >= 0.0 then (x + 0.5).Floor else -((0.5 - x).Floor)
  }

  /** Off by at most one half, and a half only away from zero. */
  lemma RoundMeaning(x: real)
    ensures x >= 0.0 ==> -0.5 < Round(x) as real - x <= 0.5
    ensures x < 0.0 ==> -0.5 <= Round(x) as real - x < 0.5
  {
  }

  /** The matching pods that node `ni` shares its domain of constraint `i` with. */
  ghost function CountAt(se: ScoreEnv, counts: seq<Counters>, i: nat, ni: NodeInfo): int
    requires i < |counts| == |se.e.constraints|
  {
    if se.Key(i) == HOSTNAME then NodeCount(se, i, ni)
    else if se.Value(i, ni.node) in counts[i] then counts[i][se.Value(i, ni.node)] else 0
  }

  /** What constraint `i` adds to the score, if the node has its key. */
  ghost function Contribution(rnd: real -> real, se: ScoreEnv, counts: seq<Counters>, weights: seq<real>, ni: NodeInfo,
      i: nat): Option<real>
    requires i < |counts| == |weights| == |se.e.constraints|
  {
    if se.Key(i) in ni.node.labels
    then Some(ScoreForCount(rnd, CountAt(se, counts, i, ni), se.e.constraints[i].maxSkew, weights[i]))
    else None
  }

  ghost function Contributions(rnd: real -> real, se: ScoreEnv, counts: seq<Counters>, weights: seq<real>,
      ni: NodeInfo): seq<Option<real>>
    requires |counts| == |weights| == |se.e.constraints|
  {
    seq(|counts|, i requires 0 <= i < |counts| => Contribution(rnd, se, counts, weights, ni, i))
  }

  /** The sum in order, rounded after every addition. */
  ghost function RoundedSum(rnd: real -> real, xs: seq<Option<real>>): real {
    if xs == [] then 0.0
    else
      var before := RoundedSum(rnd, xs[..|xs| - 1]);
      if xs[|xs| - 1].Some? then rnd(before + xs[|xs| - 1].value) else before
  }

  ghost function RawScore(rnd: real -> real, se: ScoreEnv, counts: seq<Counters>, weights: seq<real>,
      ni: NodeInfo): real
    requires |counts| == |weights| == |se.e.constraints|
  {
    RoundedSum(rnd, Contributions(rnd, se, counts, weights, ni))
  }

  /** Node `a` counts no more than node `b` under any constraint it has a key for. */
  ghost predicate NoMoreCrowded(se: ScoreEnv, counts: seq<Counters>, a: NodeInfo, b: NodeInfo)
    requires |counts| == |se.e.constraints|
  {
    forall i | 0 <= i < |counts| && se.Key(i) in a.node.labels ::
      se.Key(i) in b.node.labels && CountAt(se, counts, i, a) <= CountAt(se, counts, i, b)
  }

  ghost predicate SensibleWeights(se: ScoreEnv, weights: seq<real>) {
    && |weights| == |se.e.constraints|
    && forall i | 0 <= i < |weights| :: weights[i] >= 0.0 && se.e.constraints[i].maxSkew >= 1
  }

  ghost predicate CountsHold(se: ScoreEnv, counts: seq<Counters>, nodes: Snapshot) {
    && |counts| == |se.e.constraints|
    && forall i, v | 0 <= i < |counts| && v in counts[i] :: counts[i][v] == DomainCount(se, i, v, nodes)
  }

  lemma CountAtIsNonNegative(se: ScoreEnv, counts: seq<Counters>, nodes: Snapshot, i: nat, ni: NodeInfo)
    requires CountsHold(se, counts, nodes) && i < |counts|
    ensures CountAt(se, counts, i, ni) >= 0
  {
    PodCountBounds(ni.pods, se.e.constraints[i].selector, se.e.profile.namespace);
    var v := se.Value(i, ni.node);
    forall k | 0 <= k < |nodes| ensures ShareFn(se, i, v)(nodes[k]) >= 0 {
      PodCountBounds(nodes[k].pods, se.e.constraints[i].selector, se.e.profile.namespace);
    }
    SumPositive(nodes, ShareFn(se, i, v));
  }

  lemma ProductMonotone(a: real, b: real, w: real)
    requires 0.0 <= a <= b && w >= 0.0
    ensures 0.0 <= a * w <= b * w
  {
  }

  lemma RoundedMonotone(rnd: real -> real, x: real, y: real)
    requires IsRounding(rnd) && 0.0 <= x <= y
    ensures 0.0 <= rnd(x) <= rnd(y)
  {
  }

  lemma RoundedSumMonotone(rnd: real -> real, a: real, b: real, x: real, y: real)
    requires IsRounding(rnd) && 0.0 <= a <= b && 0.0 <= x <= y
    ensures 0.0 <= rnd(a + x) <= rnd(b + y)
  {
    RoundedMonotone(rnd, a + x, b + y);
  }

  lemma RoundedProductMonotone(rnd: real -> real, a: int, b: int, w: real)
    requires IsRounding(rnd) && 0 <= a <= b && w >= 0.0
    ensures 0.0 <= rnd(rnd(a as real) * w) <= rnd(rnd(b as real) * w)
  {
    RoundedMonotone(rnd, a as real, b as real);
    ScaledMonotone(rnd, rnd(a as real), rnd(b as real), w);
  }

  lemma ScaledMonotone(rnd: real -> real, x: real, y: real, w: real)
    requires IsRounding(rnd) && 0.0 <= x <= y && w >= 0.0
    ensures 0.0 <= rnd(x * w) <= rnd(y * w)
  {
    ProductMonotone(x, y, w);
    RoundedMonotone(rnd, x * w, y * w);
  }

  lemma ScoreForCountMonotone(rnd: real -> real, a: int, b: int, maxSkew: int, w: real)
    requires IsRounding(rnd) && 0 <= a <= b && w >= 0.0 && maxSkew >= 1
    ensures 0.0 <= ScoreForCount(rnd, a, maxSkew, w) <= ScoreForCount(rnd, b, maxSkew, w)
  {
    var s := (maxSkew - 1) as real;
    RoundedMonotone(rnd, s, s);
    RoundedProductMonotone(rnd, a, b, w);
    RoundedSumMonotone(rnd, rnd(rnd(a as real) * w), rnd(rnd(b as real) * w), rnd(s), rnd(s));
  }

  /** Adding to a value that is already rounded never loses it. */
  lemma RoundedSumGrows(rnd: real -> real, b: real, y: real)
    requires IsRounding(rnd) && rnd(b) == b && 0.0 <= y
    ensures b <= rnd(b + y)
  {
  }

  /** Wherever `xs` adds something, `ys` adds at least as much. */
  ghost predicate AddsNoMore(xs: seq<Option<real>>, ys: seq<Option<real>>) {
    && |xs| == |ys|
    && (forall i | 0 <= i < |xs| && xs[i].Some? :: ys[i].Some? && 0.0 <= xs[i].value <= ys[i].value)
    && forall i | 0 <= i < |ys| && ys[i].Some? :: 0.0 <= ys[i].value
  }

  lemma {:induction false} RoundedSumsMonotone(rnd: real -> real, xs: seq<Option<real>>, ys: seq<Option<real>>)
    requires IsRounding(rnd) && AddsNoMore(xs, ys)
    ensures 0.0 <= RoundedSum(rnd, xs) <= RoundedSum(rnd, ys)
    ensures rnd(RoundedSum(rnd, ys)) == RoundedSum(rnd, ys)
  {
    if xs != [] {
      var n := |xs| - 1;
      RoundedSumsMonotone(rnd, xs[..n], ys[..n]);
      if xs[n].Some? {
        RoundedSumMonotone(rnd, RoundedSum(rnd, xs[..n]), RoundedSum(rnd, ys[..n]), xs[n].value, ys[n].value);
      } else if ys[n].Some? {
        RoundedSumGrows(rnd, RoundedSum(rnd, ys[..n]), ys[n].value);
      }
    }
  }

  lemma ContributionMonotone(rnd: real -> real, se: ScoreEnv, counts: seq<Counters>, weights: seq<real>,
      nodes: Snapshot, a: NodeInfo, b: NodeInfo, i: nat)
    requires IsRounding(rnd) && i < |counts|
    requires CountsHold(se, counts, nodes) && SensibleWeights(se, weights) && NoMoreCrowded(se, counts, a, b)
    ensures var x, y := Contribution(rnd, se, counts, weights, a, i), Contribution(rnd, se, counts, weights, b, i);
            && (x.Some? ==> y.Some? && 0.0 <= x.value <= y.value)
            && (y.Some? ==> 0.0 <= y.value)
  {
    CountAtIsNonNegative(se, counts, nodes, i, a);
    CountAtIsNonNegative(se, counts, nodes, i, b);
    var m, n := CountAt(se, counts, i, a), CountAt(se, counts, i, b);
    var maxSkew, w := se.e.constraints[i].maxSkew, weights[i];
    ScoreForCountMonotone(rnd, n, n, maxSkew, w);
    if se.Key(i) in a.node.labels {
      ScoreForCountMonotone(rnd, m, n, maxSkew, w);
    }
  }

  lemma RawScoreMonotone(rnd: real -> real, se: ScoreEnv, counts: seq<Counters>, weights: seq<real>,
      nodes: Snapshot, a: NodeInfo, b: NodeInfo)
    requires IsRounding(rnd)
    requires CountsHold(se, counts, nodes) && SensibleWeights(se, weights) && NoMoreCrowded(se, counts, a, b)
    ensures 0.0 <= RawScore(rnd, se, counts, weights, a) <= RawScore(rnd, se, counts, weights, b)
  {
    var xs, ys := Contributions(rnd, se, counts, weights, a), Contributions(rnd, se, counts, weights, b);
    forall i | 0 <= i < |counts|
      ensures xs[i].Some? ==> ys[i].Some? && 0.0 <= xs[i].value <= ys[i].value
      ensures ys[i].Some? ==> 0.0 <= ys[i].value
    {
      ContributionMonotone(rnd, se, counts, weights, nodes, a, b, i);
    }
    RoundedSumsMonotone(rnd, xs, ys);
  }

  // ---- Normalization ----

  /** Scores as the Score step produces them: nodes to be scored have
      non-negative 64-bit scores. */
  ghost predicate ProperScores(ignoredNodes: set<string>, scores: seq<NodeScore>) {
    forall s | s in scores && s.name !in ignoredNodes :: 0 <= s.score <= MAX_INT64
  }

  /** The bounds found by the first pass. */
  ghost predicate BoundsOf(ignoredNodes: set<string>, scores: seq<NodeScore>, least: int, greatest: int) {
    && (forall s | s in scores && s.name !in ignoredNodes :: least <= s.score <= greatest)
    && (least == MAX_INT64 || exists s :: s in scores && s.name !in ignoredNodes && s.score == least)
    && (greatest == 0 || exists s :: s in scores && s.name !in ignoredNodes && s.score == greatest)
  }

  method MarkAndBound(ignoredNodes: set<string>, scores: array<NodeScore>) returns (minScore: int, maxScore: int)
    modifies scores
    ensures forall i | 0 <= i < scores.Length ::
      scores[i] == if old(scores[i].name) in ignoredNodes then NodeScore(old(scores[i].name), INVALID_SCORE)
                   else old(scores[i])
    ensures ProperScores(ignoredNodes, old(scores[..])) ==> BoundsOf(ignoredNodes, old(scores[..]), minScore, maxScore)
    ensures maxScore >= 0
  {
    minScore, maxScore := MAX_INT64, 0;
    ghost var before := scores[..];
    for i := 0 to scores.Length
      invariant forall j | i <= j < scores.Length :: scores[j] == before[j]
      invariant forall j | 0 <= j < i ::
        scores[j] == if before[j].name in ignoredNodes then NodeScore(before[j].name, INVALID_SCORE) else before[j]
      invariant ProperScores(ignoredNodes, before) ==> BoundsOf(ignoredNodes, before[..i], minScore, maxScore)
      invariant maxScore >= 0
    {
      assert before[i] in before;
      assert before[..i + 1] == before[..i] + [before[i]];
      var score := scores[i];
      if score.name in ignoredNodes {
        scores[i] := NodeScore(score.name, INVALID_SCORE);
        continue;
      }
      if score.score < minScore {
        minScore := score.score;
      }
      if score.score > maxScore {
        maxScore := score.score;
      }
      assert before[i] in before[..i + 1];
    }
    assert before[..scores.Length] == before;
  }

  /** Ignored nodes get 0; the others get scores in 0..100, no lower for a lower
      raw score, and 100 for the least one. */
  ghost predicate WellNormalized(ignoredNodes: set<string>, before: seq<NodeScore>, after: seq<NodeScore>) {
    && |after| == |before|
    && (forall i | 0 <= i < |before| :: after[i].name == before[i].name && 0 <= after[i].score <= MAX_NODE_SCORE)
    && (forall i | 0 <= i < |before| && before[i].name in ignoredNodes :: after[i].score == 0)
    && (forall i, j | 0 <= i < |before| && 0 <= j < |before|
                    && before[i].name !in ignoredNodes && before[j].name !in ignoredNodes
                    && before[i].score <= before[j].score :: after[j].score <= after[i].score)
    && (forall i | 0 <= i < |before| && before[i].name !in ignoredNodes
                 && (forall s | s in before && s.name !in ignoredNodes ::
                     before[i].score <= s.score) :: after[i].score == MAX_NODE_SCORE)
  }

  ghost predicate IsLeast(ignoredNodes: set<string>, scores: seq<NodeScore>, n: int) {
    && (exists s :: s in scores && s.name !in ignoredNodes && s.score == n)
    && forall s | s in scores && s.name !in ignoredNodes :: n <= s.score
  }

  ghost predicate IsGreatest(ignoredNodes: set<string>, scores: seq<NodeScore>, n: int) {
    && (exists s :: s in scores && s.name !in ignoredNodes && s.score == n)
    && forall s | s in scores && s.name !in ignoredNodes :: s.score <= n
  }

  /** The distance from the greatest score, the least one included, as a whole
      percentage of the greatest; 100 if all scores are 0. */
  ghost predicate IsPercentage(score: int, least: int, greatest: int, percentage: int) {
    if greatest == 0 then percentage == MAX_NODE_SCORE
    else percentage * greatest <= MAX_NODE_SCORE * (greatest + least - score) < (percentage + 1) * greatest
  }

  ghost predicate ExactlyNormalized(ignoredNodes: set<string>, before: seq<NodeScore>, after: seq<NodeScore>) {
    && |after| == |before|
    && forall i, least, greatest |
         && 0 <= i < |before| && before[i].name !in ignoredNodes
         && IsLeast(ignoredNodes, before, least) && IsGreatest(ignoredNodes, before, greatest) ::
         IsPercentage(before[i].score, least, greatest, after[i].score)
  }

  function Normalized(score: int, minScore: int, maxScore: int): int
    requires maxScore >= 0
  {
    if score == INVALID_SCORE then 0
    else if maxScore == 0 then MAX_NODE_SCORE
    else TruncDiv(Wrap64(MAX_NODE_SCORE * Wrap64(Wrap64(maxScore + minScore) - score)), maxScore)
  }

  /** The least score, in a 64-bit product, still allows for 100. */
  const MAX_SAFE_SCORE := MAX_INT64 / MAX_NODE_SCORE

  /** Without overflow of the product the rest does not overflow either. */
  lemma NormalizedInRange(score: int, least: int, greatest: int)
    requires 0 <= least <= score <= greatest <= MAX_SAFE_SCORE && greatest > 0 && score != INVALID_SCORE
    ensures Normalized(score, least, greatest) == (MAX_NODE_SCORE * (greatest + least - score)) / greatest
  {
    WrapTwice(greatest + least, score);
  }

  lemma NormalizedBounds(score: int, least: int, greatest: int)
    requires 0 <= least <= score <= greatest <= MAX_SAFE_SCORE
    ensures 0 <= Normalized(score, least, greatest) <= MAX_NODE_SCORE
    ensures Normalized(least, least, greatest) == MAX_NODE_SCORE
  {
    if greatest > 0 {
      NormalizedInRange(score, least, greatest);
      NormalizedInRange(least, least, greatest);
      DivideUp(greatest + least - score, greatest);
      DivideUp(greatest, greatest);
    }
  }

  /** Beyond that bound the product for a least score wraps around, and the
      score that should become 100 does not. */
  lemma OverflowLosesTheBest(least: int, greatest: int)
    requires 0 <= least <= greatest && MAX_SAFE_SCORE < greatest <= MAX_INT64
    ensures Normalized(least, least, greatest) < MAX_NODE_SCORE
  {
    WrapTwice(greatest + least, least);
    QuotientBelow(Wrap64(MAX_NODE_SCORE * greatest), MAX_NODE_SCORE, greatest);
  }

  lemma QuotientBelow(x: int, n: nat, m: int)
    requires n > 0 && m > 0 && x < n * m
    ensures TruncDiv(x, m) < n
  {
    if x >= 0 {
      DivideBelow(x, n, m);
    } else {
      DivideMonotone(0, -x, m);
    }
  }

  lemma DivideBelow(x: int, n: int, m: int)
    requires m > 0 && x < n * m
    ensures x / m < n
  {
    var q := x / m;
    assert x == m * q + x % m;
    if q >= n {
      ProductAtLeast(m, n, q);
    }
  }

  lemma ProductAtLeast(m: int, n: int, q: int)
    requires m > 0 && q >= n
    ensures m * q >= n * m
  {
  }

  lemma DivideUp(x: int, m: int)
    requires 0 <= x <= m && m > 0
    ensures 0 <= (MAX_NODE_SCORE * x) / m <= MAX_NODE_SCORE
    ensures x == m ==> (MAX_NODE_SCORE * x) / m == MAX_NODE_SCORE
  {
    DivideMonotone(0, MAX_NODE_SCORE * x, m);
    DivideMonotone(MAX_NODE_SCORE * x, MAX_NODE_SCORE * m, m);
    DivideExact(MAX_NODE_SCORE, m);
  }

  lemma MultipleAtLeast(m: int, d: int)
    requires m > 0
    ensures d >= 1 ==> m * d >= m
  {
  }

  lemma DivideExact(n: int, m: int)
    requires m > 0
    ensures (n * m) / m == n
  {
    var q, r := (n * m) / m, (n * m) % m;
    assert n * m == m * q + r;
    MultipleAtLeast(m, n - q);
    MultipleAtLeast(m, q - n);
    assert m * (n - q) == r && m * (q - n) == -r;
  }

  lemma DivideMonotone(x: int, y: int, m: int)
    requires x <= y && m > 0
    ensures x / m <= y / m
  {
    var d := x / m - y / m;
    assert x == m * (x / m) + x % m && y == m * (y / m) + y % m;
    assert m * d == m * (x / m) - m * (y / m);
    MultipleAtLeast(m, d);
  }

  lemma NormalizedReverses(a: int, b: int, least: int, greatest: int)
    requires 0 <= least <= a <= b <= greatest <= MAX_SAFE_SCORE
    ensures Normalized(b, least, greatest) <= Normalized(a, least, greatest)
  {
    if greatest > 0 {
      NormalizedInRange(a, least, greatest);
      NormalizedInRange(b, least, greatest);
      DivideMonotone(MAX_NODE_SCORE * (greatest + least - b), MAX_NODE_SCORE * (greatest + least - a), greatest);
    }
  }

  /** No product overflows: the scores are within a hundredth of the 64-bit range. */
  ghost predicate SafeScores(ignoredNodes: set<string>, scores: seq<NodeScore>) {
    forall s | s in scores && s.name !in ignoredNodes :: s.score <= MAX_SAFE_SCORE
  }

  /** NormalizeScore, in place. It does what it should exactly on scores whose
      products do not overflow. */
  method NormalizeScore(ignoredNodes: set<string>, scores: array<NodeScore>)
    modifies scores
    ensures ProperScores(ignoredNodes, old(scores[..])) ==>
              (WellNormalized(ignoredNodes, old(scores[..]), scores[..]) <==> SafeScores(ignoredNodes, old(scores[..])))
    ensures ProperScores(ignoredNodes, old(scores[..])) && SafeScores(ignoredNodes, old(scores[..])) ==>
              ExactlyNormalized(ignoredNodes, old(scores[..]), scores[..])
  {
    ghost var before := scores[..];
    var minScore, maxScore := MarkAndBound(ignoredNodes, scores);
    ghost var marked := scores[..];
    for i := 0 to scores.Length
      invariant forall j | i <= j < scores.Length :: scores[j] == marked[j]
      invariant forall j | 0 <= j < i ::
        scores[j] == NodeScore(marked[j].name, Normalized(marked[j].score, minScore, maxScore))
    {
      if scores[i].score == INVALID_SCORE {
        scores[i] := scores[i].(score := 0);
        continue;
      }
      if maxScore == 0 {
        scores[i] := scores[i].(score := MAX_NODE_SCORE);
        continue;
      }
      var s := scores[i].score;
      var quotient := TruncDiv(Wrap64(MAX_NODE_SCORE * Wrap64(Wrap64(maxScore + minScore) - s)), maxScore);
      scores[i] := scores[i].(score := quotient);
    }
    if ProperScores(ignoredNodes, before) {
      if SafeScores(ignoredNodes, before) {
        NormalizedIsWell(ignoredNodes, before, scores[..], minScore, maxScore);
        NormalizedIsExact(ignoredNodes, before, scores[..], minScore, maxScore);
      } else {
        OverflowIsNotWell(ignoredNodes, before, scores[..], minScore, maxScore);
      }
    }
  }

  lemma NormalizedIsWell(ignoredNodes: set<string>, before: seq<NodeScore>, after: seq<NodeScore>, least: int,
      greatest: int)
    requires |after| == |before| && ProperScores(ignoredNodes, before) && SafeScores(ignoredNodes, before)
    requires BoundsOf(ignoredNodes, before, least, greatest) && greatest >= 0
    requires forall i | 0 <= i < |before| ::
      after[i] == NodeScore(before[i].name,
                            if before[i].name in ignoredNodes then 0
                            else Normalized(before[i].score, least, greatest))
    ensures WellNormalized(ignoredNodes, before, after)
  {
    forall i | 0 <= i < |before| && before[i].name !in ignoredNodes
      ensures 0 <= least <= before[i].score <= greatest && 0 <= after[i].score <= MAX_NODE_SCORE
      ensures before[i].score == least ==> after[i].score == MAX_NODE_SCORE
    {
      assert before[i] in before;
      NormalizedBounds(before[i].score, least, greatest);
    }
    forall i, j | 0 <= i < |before| && 0 <= j < |before|
                && before[i].name !in ignoredNodes && before[j].name !in ignoredNodes
                && before[i].score <= before[j].score
      ensures after[j].score <= after[i].score
    {
      NormalizedReverses(before[i].score, before[j].score, least, greatest);
    }
    forall i | 0 <= i < |before| && before[i].name !in ignoredNodes
             && (forall s | s in before && s.name !in ignoredNodes :: before[i].score <= s.score)
      ensures before[i].score == least
    {
      assert before[i] in before;
    }
  }

  lemma NormalizedIsExact(ignoredNodes: set<string>, before: seq<NodeScore>, after: seq<NodeScore>, least: int,
      greatest: int)
    requires |after| == |before| && ProperScores(ignoredNodes, before) && SafeScores(ignoredNodes, before)
    requires BoundsOf(ignoredNodes, before, least, greatest) && greatest >= 0
    requires forall i | 0 <= i < |before| ::
      after[i] == NodeScore(before[i].name,
                            if before[i].name in ignoredNodes then 0
                            else Normalized(before[i].score, least, greatest))
    ensures ExactlyNormalized(ignoredNodes, before, after)
  {
    forall i, lo, hi | 0 <= i < |before| && before[i].name !in ignoredNodes
                     && IsLeast(ignoredNodes, before, lo) && IsGreatest(ignoredNodes, before, hi)
      ensures IsPercentage(before[i].score, lo, hi, after[i].score)
    {
      BoundsAreExtremes(ignoredNodes, before, least, greatest, lo, hi);
      assert before[i] in before;
      if hi > 0 {
        NormalizedInRange(before[i].score, lo, hi);
        QuotientMeaning(MAX_NODE_SCORE * (hi + lo - before[i].score), hi);
      }
    }
  }

  lemma BoundsAreExtremes(ignoredNodes: set<string>, scores: seq<NodeScore>, least: int, greatest: int, lo: int,
      hi: int)
    requires ProperScores(ignoredNodes, scores) && BoundsOf(ignoredNodes, scores, least, greatest)
    requires IsLeast(ignoredNodes, scores, lo) && IsGreatest(ignoredNodes, scores, hi)
    ensures least == lo && greatest == hi && 0 <= lo <= hi
  {
  }

  lemma QuotientMeaning(x: int, m: int)
    requires m > 0
    ensures (x / m) * m <= x < (x / m + 1) * m
  {
    assert x == m * (x / m) + x % m;
  }

  lemma OverflowIsNotWell(ignoredNodes: set<string>, before: seq<NodeScore>, after: seq<NodeScore>, least: int,
      greatest: int)
    requires |after| == |before| && ProperScores(ignoredNodes, before) && !SafeScores(ignoredNodes, before)
    requires BoundsOf(ignoredNodes, before, least, greatest)
    requires forall i | 0 <= i < |before| ::
      after[i] == NodeScore(before[i].name,
                            if before[i].name in ignoredNodes then 0
                            else Normalized(before[i].score, least, greatest))
    ensures !WellNormalized(ignoredNodes, before, after)
  {
    var big :| big in before && big.name !in ignoredNodes && big.score > MAX_SAFE_SCORE;
    assert least <= big.score <= greatest <= MAX_INT64;
    var s :| s in before && s.name !in ignoredNodes && s.score == least;
    var i :| 0 <= i < |before| && before[i] == s;
    OverflowLosesTheBest(least, greatest);
    assert after[i].score != MAX_NODE_SCORE;
  }

  /** End to end: among the nodes that are scored, one whose domains hold no
      more matching pods never ends up with a lower normalized score. */
  lemma LessCrowdedScoresHigher(rnd: real -> real, se: ScoreEnv, counts: seq<Counters>, weights: seq<real>,
      nodes: Snapshot, ignoredNodes: set<string>,
      a: NodeInfo, b: NodeInfo, before: seq<NodeScore>, after: seq<NodeScore>, i: nat, j: nat)
    requires IsRounding(rnd)
    requires CountsHold(se, counts, nodes) && SensibleWeights(se, weights) && NoMoreCrowded(se, counts, a, b)
    requires a.node.name !in ignoredNodes && b.node.name !in ignoredNodes
    requires i < |before| && before[i] == NodeScore(a.node.name, Round(RawScore(rnd, se, counts, weights, a)))
    requires j < |before| && before[j] == NodeScore(b.node.name, Round(RawScore(rnd, se, counts, weights, b)))
    requires WellNormalized(ignoredNodes, before, after)
    ensures before[i].score >= 0
    ensures after[i].score >= after[j].score
  {
    RawScoreMonotone(rnd, se, counts, weights, nodes, a, b);
  }
}
