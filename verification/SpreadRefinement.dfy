/** The incremental filter state agrees with a recount of the snapshot. */
module SpreadRefinement {
  import opened Labels
  import opened Cluster
  import opened NodeSelectors
  import opened Sums
  import opened SpreadCommon
  import opened CriticalPaths
  import opened SpreadDefs
  import opened SpreadFilter

  // ---- Computing the state ----

  datatype TopologyCount = TopologyCount(topologyValue: string, constraintID: nat, count: int)

  ghost function NodeCountsUpTo(e: Env, ni: NodeInfo, n: nat): (r: seq<TopologyCount>)
    requires n <= |e.constraints|
    ensures forall j | 0 <= j < |r| :: r[j].constraintID < n
  {
    if n == 0 then []
    else
      NodeCountsUpTo(e, ni, n - 1) +
      if Eligible(e, n - 1, ni.node) then
        var c := e.constraints[n - 1];
        [TopologyCount(ni.node.labels[c.topologyKey], n - 1, PodCount(ni.pods, c.selector, e.profile.namespace))]
      else []
  }

  ghost function NodeCounts(e: Env, ni: NodeInfo): (r: seq<TopologyCount>)
    ensures forall j | 0 <= j < |r| :: r[j].constraintID < |e.constraints|
  {
    NodeCountsUpTo(e, ni, |e.constraints|)
  }

  lemma {:induction false} IneligibleNodeCountsNothing(e: Env, ni: NodeInfo, n: nat)
    requires n <= |e.constraints|
    requires forall i | 0 <= i < |e.constraints| :: !Eligible(e, i, ni.node)
    ensures NodeCountsUpTo(e, ni, n) == []
  {
    if n > 0 {
      IneligibleNodeCountsNothing(e, ni, n - 1);
    }
  }

  method ProcessNode(e: Env, ni: NodeInfo) returns (tpCounts: seq<TopologyCount>)
    ensures tpCounts == NodeCounts(e, ni)
  {
    if !e.inclusion && !RequiredMatches(e.profile.nodeSelector, e.profile.affinity, ni.node) {
      IneligibleNodeCountsNothing(e, ni, |e.constraints|);
      return [];
    }
    if !NodeLabelsMatch(e.constraints, ni.node.labels) {
      IneligibleNodeCountsNothing(e, ni, |e.constraints|);
      return [];
    }
    tpCounts := [];
    for i := 0 to |e.constraints|
      invariant tpCounts == NodeCountsUpTo(e, ni, i)
    {
      var c := e.constraints[i];
      if e.inclusion && !MatchNodeInclusionPolicies(c, e.profile, ni.node) {
        continue;
      }
      var value := ni.node.labels[c.topologyKey];
      var count := CountPodsMatchSelector(ni.pods, c.selector, e.profile.namespace);
      tpCounts := tpCounts + [TopologyCount(value, i, count)];
    }
  }

  function AddCount(tp: seq<Counts>, c: TopologyCount): seq<Counts>
    requires c.constraintID < |tp|
  {
    tp[c.constraintID := Bump(tp[c.constraintID], c.topologyValue, c.count)]
  }

  function AddAll(tp: seq<Counts>, cs: seq<TopologyCount>): (r: seq<Counts>)
    requires forall j | 0 <= j < |cs| :: cs[j].constraintID < |tp|
    ensures |r| == |tp|
  {
    if cs == [] then tp else AddCount(AddAll(tp, cs[..|cs| - 1]), cs[|cs| - 1])
  }

  lemma AddAllOneMore(tp: seq<Counts>, cs: seq<TopologyCount>, c: TopologyCount)
    requires c.constraintID < |tp| && forall j | 0 <= j < |cs| :: cs[j].constraintID < |tp|
    ensures AddAll(tp, cs + [c]) == AddCount(AddAll(tp, cs), c)
  {
    assert (cs + [c])[..|cs|] == cs;
  }

  /** What node `ni` makes of the counts `m` of constraint `i`. */
  ghost function WithNode(e: Env, i: nat, m: Counts, ni: NodeInfo): Counts
    requires i < |e.constraints|
  {
    if Eligible(e, i, ni.node)
    then Bump(m, ni.node.labels[e.constraints[i].topologyKey],
              PodCount(ni.pods, e.constraints[i].selector, e.profile.namespace))
    else m
  }

  lemma AddNext(e: Env, tp: seq<Counts>, ni: NodeInfo, n: nat)
    requires n < |e.constraints| == |tp|
    ensures AddAll(tp, NodeCountsUpTo(e, ni, n + 1)) ==
            AddAll(tp, NodeCountsUpTo(e, ni, n))[n := WithNode(e, n, AddAll(tp, NodeCountsUpTo(e, ni, n))[n], ni)]
  {
    var before, c := NodeCountsUpTo(e, ni, n), e.constraints[n];
    if Eligible(e, n, ni.node) {
      var count := TopologyCount(ni.node.labels[c.topologyKey], n, PodCount(ni.pods, c.selector, e.profile.namespace));
      assert NodeCountsUpTo(e, ni, n + 1) == before + [count];
      AddAllOneMore(tp, before, count);
    } else {
      assert NodeCountsUpTo(e, ni, n + 1) == before;
    }
  }

  /** The counts after the first `n` constraints of node `ni` were added. */
  ghost function WithNodeUpTo(e: Env, tp: seq<Counts>, ni: NodeInfo, n: nat): seq<Counts>
    requires n <= |e.constraints| == |tp|
  {
    seq(|tp|, i requires 0 <= i < |tp| => if i < n then WithNode(e, i, tp[i], ni) else tp[i])
  }

  lemma WithNextConstraint(e: Env, tp: seq<Counts>, ni: NodeInfo, n: nat)
    requires n < |e.constraints| == |tp|
    ensures WithNodeUpTo(e, tp, ni, n)[n := WithNode(e, n, WithNodeUpTo(e, tp, ni, n)[n], ni)] ==
            WithNodeUpTo(e, tp, ni, n + 1)
  {
  }

  lemma {:induction false} AddAllOfNode(e: Env, tp: seq<Counts>, ni: NodeInfo, n: nat)
    requires n <= |e.constraints| == |tp|
    ensures AddAll(tp, NodeCountsUpTo(e, ni, n)) == WithNodeUpTo(e, tp, ni, n)
  {
    if n == 0 {
      assert NodeCountsUpTo(e, ni, 0) == [];
    } else {
      AddAllOfNode(e, tp, ni, n - 1);
      AddNext(e, tp, ni, n - 1);
      WithNextConstraint(e, tp, ni, n - 1);
    }
  }

  ghost function CountMaps(e: Env, nodes: Snapshot): seq<Counts> {
    seq(|e.constraints|, i requires 0 <= i < |e.constraints| => CountMap(e, i, nodes))
  }

  lemma CountMapsOfOneMore(e: Env, nodes: Snapshot, n: nat)
    requires n < |nodes|
    ensures AddAll(CountMaps(e, nodes[..n]), NodeCounts(e, nodes[n])) == CountMaps(e, nodes[..n + 1])
  {
    assert nodes[..n + 1][..n] == nodes[..n];
    AddAllOfNode(e, CountMaps(e, nodes[..n]), nodes[n], |e.constraints|);
    forall i | 0 <= i < |e.constraints|
      ensures WithNode(e, i, CountMap(e, i, nodes[..n]), nodes[n]) == CountMap(e, i, nodes[..n + 1])
    {
      CountMapOfOneMore(e, i, nodes[..n + 1]);
    }
  }

  /** Counts every node on its own. The workers may finish in any order. */
  method CountNodes(e: Env, nodes: Snapshot) returns (tpCountsByNode: array<seq<TopologyCount>>)
    ensures fresh(tpCountsByNode) && tpCountsByNode.Length == |nodes|
    ensures forall n | 0 <= n < |nodes| :: tpCountsByNode[n] == NodeCounts(e, nodes[n])
  {
    tpCountsByNode := new seq<TopologyCount>[|nodes|](_ => []);
    var pending := Indices(|nodes|);
    while pending != {}
      invariant fresh(tpCountsByNode) && tpCountsByNode.Length == |nodes|
      invariant forall n | n in pending :: n < |nodes|
      invariant forall n | 0 <= n < |nodes| && n !in pending :: tpCountsByNode[n] == NodeCounts(e, nodes[n])
      decreases pending
    {
      var n :| n in pending;
      tpCountsByNode[n] := ProcessNode(e, nodes[n]);
      pending := pending - {n};
    }
  }

  method MergeNodeCounts(tp: seq<Counts>, tpCounts: seq<TopologyCount>) returns (r: seq<Counts>)
    requires forall j | 0 <= j < |tpCounts| :: tpCounts[j].constraintID < |tp|
    ensures r == AddAll(tp, tpCounts)
  {
    r := tp;
    for j := 0 to |tpCounts|
      invariant r == AddAll(tp, tpCounts[..j])
    {
      assert tpCounts[..j + 1][..j] == tpCounts[..j];
      r := AddCount(r, tpCounts[j]);
    }
    assert tpCounts[..|tpCounts|] == tpCounts;
  }

  method FoldAll(tp: seq<Counts>) returns (paths: seq<array<CriticalPath>>)
    ensures |paths| == |tp|
    ensures forall i | 0 <= i < |tp| :: fresh(paths[i]) && paths[i].Length == 2
    ensures forall i | 0 <= i < |tp| :: Bounded(tp[i]) ==> HoldsTwoSmallest(tp[i], View(paths[i]))
    ensures forall i, j | 0 <= i < j < |tp| :: paths[i] != paths[j]
  {
    paths := [];
    for i := 0 to |tp|
      invariant |paths| == i
      invariant forall j | 0 <= j < i :: fresh(paths[j]) && paths[j].Length == 2
      invariant forall j | 0 <= j < i :: Bounded(tp[j]) ==> HoldsTwoSmallest(tp[j], View(paths[j]))
      invariant forall j, k | 0 <= j < k < i :: paths[j] != paths[k]
    {
      var p := Fold(tp[i]);
      paths := paths + [p];
    }
  }

  /** The state PreFilter stores: exact counts, and slots holding the two
      smallest of them. */
  method CalPreFilterState(e: Env, nodes: Snapshot) returns (s: PreFilterState)
    ensures fresh(s) && s.Valid() && s.constraints == e.constraints
    ensures forall i | 0 <= i < |s.criticalPaths| :: fresh(s.criticalPaths[i])
    ensures Computed(e, nodes, s.Value())
  {
    var tpCountsByNode := CountNodes(e, nodes);
    var tp: seq<Counts> := seq(|e.constraints|, _ => map[]);
    assert tp == CountMaps(e, nodes[..0]);
    for n := 0 to |nodes|
      invariant forall m | 0 <= m < |nodes| :: tpCountsByNode[m] == NodeCounts(e, nodes[m])
      invariant tp == CountMaps(e, nodes[..n])
    {
      tp := MergeNodeCounts(tp, tpCountsByNode[n]);
      CountMapsOfOneMore(e, nodes, n);
    }
    assert nodes[..|nodes|] == nodes;
    var paths := FoldAll(tp);
    s := new PreFilterState(e.constraints, paths, tp);
  }

  ghost predicate Computed(e: Env, nodes: Snapshot, view: SpreadView) {
    && Shaped(e, view)
    && forall i | 0 <= i < |e.constraints| ::
         && view.counts[i] == CountMap(e, i, nodes)
         && (Bounded(view.counts[i]) ==> HoldsTwoSmallest(view.counts[i], view.paths[i]))
  }

  // ---- Keeping the state in step while pods of one node come and go ----

  /** The counts are those of the snapshot, and the slots can follow further
      changes on node `k`. */
  ghost predicate InSync(e: Env, nodes: Snapshot, k: nat, view: SpreadView)
    requires k < |nodes|
  {
    && Shaped(e, view)
    && forall i | 0 <= i < |e.constraints| ::
         && view.counts[i] == CountMap(e, i, nodes)
         && Tracks(view.counts[i], ValueOrEmpty(nodes[k].node.labels, e.constraints[i].topologyKey), view.paths[i])
  }

  lemma ComputedInSync(e: Env, nodes: Snapshot, k: nat, view: SpreadView)
    requires k < |nodes| && Computed(e, nodes, view) && TotalPods(nodes) < MAX_INT32
    ensures InSync(e, nodes, k, view)
  {
    forall i | 0 <= i < |e.constraints|
      ensures Tracks(view.counts[i], ValueOrEmpty(nodes[k].node.labels, e.constraints[i].topologyKey), view.paths[i])
    {
      CountMapBounded(e, i, nodes);
      FoldedTracks(view.counts[i], ValueOrEmpty(nodes[k].node.labels, e.constraints[i].topologyKey), view.paths[i]);
    }
  }

  /** One addition keeps the counts of constraint `i` equal to a recount
      exactly when it does not count a pod that a recount passes over: a
      terminating one, or any pod under an empty selector. */
  lemma AddExact(e: Env, i: nat, nodes: Snapshot, k: nat, p: PodInfo)
    requires i < |e.constraints| && k < |nodes|
    ensures MovedCounts(e, i, CountMap(e, i, nodes), p.pod, nodes[k].node, 1)
            == CountMap(e, i, WithPod(nodes, k, p)) <==>
            !(Moves(e, i, p.pod, nodes[k].node) && (p.pod.terminating || e.constraints[i].selector.Empty()))
  {
    var c := e.constraints[i];
    CountMapOfChangedPods(e, i, nodes, k, nodes[k].pods + [p]);
    PodCountOfOneMore(nodes[k].pods, p, c.selector, e.profile.namespace);
    if Eligible(e, i, nodes[k].node) {
      BumpDiffers(CountMap(e, i, nodes), nodes[k].node.labels[c.topologyKey]);
    }
  }

  lemma RemoveExact(e: Env, i: nat, nodes: Snapshot, k: nat, j: nat)
    requires i < |e.constraints| && k < |nodes| && j < |nodes[k].pods|
    ensures var p := nodes[k].pods[j].pod;
            MovedCounts(e, i, CountMap(e, i, nodes), p, nodes[k].node, -1)
            == CountMap(e, i, WithoutPod(nodes, k, j)) <==>
            !(Moves(e, i, p, nodes[k].node) && (p.terminating || e.constraints[i].selector.Empty()))
  {
    var c := e.constraints[i];
    CountMapOfChangedPods(e, i, nodes, k, nodes[k].pods[..j] + nodes[k].pods[j + 1..]);
    PodCountOfOneLess(nodes[k].pods, j, c.selector, e.profile.namespace);
    if Eligible(e, i, nodes[k].node) {
      BumpDiffers(CountMap(e, i, nodes), nodes[k].node.labels[c.topologyKey]);
    }
  }

  /** The exception is real: a zone of one node, to which a terminating pod of
      the application is added or from which it is removed. The update moves the
      count of the zone, a recount does not. */
  lemma TerminatingPodIsMiscounted(zone: string)
    ensures var e, p, node := WebOverZones(1), WebPod(true), ZoneNode(zone, []).node;
            var before, after := [ZoneNode(zone, [])], [ZoneNode(zone, [p])];
            && after == WithPod(before, 0, p)
            && CountMap(e, 0, before) == CountMap(e, 0, after) == map[zone := 0]
            && MovedCounts(e, 0, CountMap(e, 0, before), p.pod, node, 1) == map[zone := 1]
            && MovedCounts(e, 0, CountMap(e, 0, after), p.pod, node, -1) == map[zone := -1]
  {
    var e, p := WebOverZones(1), WebPod(true);
    OneZoneCounts(1, zone, []);
    OneZoneCounts(1, zone, [p]);
    PodCountOfOneMore([], p, e.constraints[0].selector, "default");
    assert [] + [p] == [p];
    WebPodCounts(1, zone);
    assert Moves(e, 0, p.pod, ZoneNode(zone, []).node);
  }

  lemma BumpDiffers(m: Counts, v: string)
    requires v in m
    ensures Bump(m, v, 0) == m && Bump(m, v, 1) != m && Bump(m, v, -1) != m
  {
    assert Bump(m, v, 1)[v] == m[v] + 1 && Bump(m, v, -1)[v] == m[v] - 1;
  }

  /** The counts notice every difference on an eligible node. */
  lemma SameCountsIffSameDelta(e: Env, i: nat, nodes: Snapshot, k: nat, pods: seq<PodInfo>)
    requires i < |e.constraints| && k < |nodes| && -1 <= PodDelta(e, i, nodes[k], pods) <= 1
    ensures CountMap(e, i, nodes[k := NodeInfo(nodes[k].node, pods)]) == CountMap(e, i, nodes) <==>
            !Eligible(e, i, nodes[k].node) || PodDelta(e, i, nodes[k], pods) == 0
  {
    CountMapOfChangedPods(e, i, nodes, k, pods);
    if Eligible(e, i, nodes[k].node) {
      BumpDiffers(CountMap(e, i, nodes), nodes[k].node.labels[e.constraints[i].topologyKey]);
    }
  }

  /** A pod added to node `k`, or the removal of its pod number `j`. */
  datatype Event = Add(p: PodInfo) | Remove(j: nat)

  ghost predicate Possible(nodes: Snapshot, k: nat, ev: Event)
    requires k < |nodes|
  {
    ev.Remove? ==> ev.j < |nodes[k].pods|
  }

  ghost function PodOf(nodes: Snapshot, k: nat, ev: Event): Pod
    requires k < |nodes| && Possible(nodes, k, ev)
  {
    if ev.Add? then ev.p.pod else nodes[k].pods[ev.j].pod
  }

  ghost function After(nodes: Snapshot, k: nat, ev: Event): (r: Snapshot)
    requires k < |nodes| && Possible(nodes, k, ev)
    ensures |r| == |nodes| && r[k].node == nodes[k].node
  {
    if ev.Add? then WithPod(nodes, k, ev.p) else WithoutPod(nodes, k, ev.j)
  }

  ghost function ViewAfter(e: Env, view: SpreadView, nodes: Snapshot, k: nat, ev: Event): (r: SpreadView)
    requires k < |nodes| && Possible(nodes, k, ev) && Shaped(e, view)
    ensures Shaped(e, r)
  {
    Moved(e, view, PodOf(nodes, k, ev), nodes[k].node, if ev.Add? then 1 else -1)
  }

  lemma TotalPodsAfter(nodes: Snapshot, k: nat, ev: Event)
    requires k < |nodes| && Possible(nodes, k, ev)
    ensures TotalPods(After(nodes, k, ev)) == TotalPods(nodes) + if ev.Add? then 1 else -1
  {
    SumUpdate(nodes, k, After(nodes, k, ev)[k], PodsOn());
  }

  /** A recount notices the pod wherever the update does: no constraint counts
      it while terminating or under an empty selector. */
  ghost predicate Recountable(e: Env, p: Pod, node: Node) {
    forall i | 0 <= i < |e.constraints| && Moves(e, i, p, node) ::
      !p.terminating && !e.constraints[i].selector.Empty()
  }

  /** One event keeps the state in step exactly when a recount notices its pod. */
  lemma StepInSync(e: Env, nodes: Snapshot, k: nat, view: SpreadView, ev: Event)
    requires k < |nodes| && InSync(e, nodes, k, view) && Possible(nodes, k, ev)
    requires TotalPods(nodes) < MAX_INT32 && TotalPods(After(nodes, k, ev)) < MAX_INT32
    ensures InSync(e, After(nodes, k, ev), k, ViewAfter(e, view, nodes, k, ev)) <==>
            Recountable(e, PodOf(nodes, k, ev), nodes[k].node)
  {
    var nodes', view' := After(nodes, k, ev), ViewAfter(e, view, nodes, k, ev);
    var p, node := PodOf(nodes, k, ev), nodes[k].node;
    forall i | 0 <= i < |e.constraints|
      ensures view'.counts[i] == CountMap(e, i, nodes') <==>
              (Moves(e, i, p, node) ==> !p.terminating && !e.constraints[i].selector.Empty())
      ensures view'.counts[i] == CountMap(e, i, nodes') ==>
              Tracks(view'.counts[i], ValueOrEmpty(node.labels, e.constraints[i].topologyKey), view'.paths[i])
    {
      if ev.Add? {
        AddExact(e, i, nodes, k, ev.p);
      } else {
        RemoveExact(e, i, nodes, k, ev.j);
      }
      CountMapBounded(e, i, nodes);
      CountMapBounded(e, i, nodes');
      if Moves(e, i, p, node) && view'.counts[i] == CountMap(e, i, nodes') {
        var v := node.labels[e.constraints[i].topologyKey];
        TracksStep(view.counts[i], v, view.paths[i], view'.counts[i][v]);
      }
    }
  }

  /** A run of events on node `k`, each possible when it happens and about a
      pod that a recount notices. */
  ghost predicate Run(e: Env, nodes: Snapshot, k: nat, evs: seq<Event>)
    requires k < |nodes|
    decreases |evs|
  {
    evs == [] || (&& Possible(nodes, k, evs[0])
                  && Recountable(e, PodOf(nodes, k, evs[0]), nodes[k].node)
                  && Run(e, After(nodes, k, evs[0]), k, evs[1..]))
  }

  ghost function NodesAfterRun(e: Env, nodes: Snapshot, k: nat, evs: seq<Event>): (r: Snapshot)
    requires k < |nodes| && Run(e, nodes, k, evs)
    ensures |r| == |nodes|
    decreases |evs|
  {
    if evs == [] then nodes else NodesAfterRun(e, After(nodes, k, evs[0]), k, evs[1..])
  }

  ghost function ViewAfterRun(e: Env, view: SpreadView, nodes: Snapshot, k: nat, evs: seq<Event>): (r: SpreadView)
    requires k < |nodes| && Run(e, nodes, k, evs) && Shaped(e, view)
    ensures Shaped(e, r)
    decreases |evs|
  {
    if evs == [] then view
    else ViewAfterRun(e, ViewAfter(e, view, nodes, k, evs[0]), After(nodes, k, evs[0]), k, evs[1..])
  }

  lemma {:induction false} RunInSync(e: Env, nodes: Snapshot, k: nat, view: SpreadView, evs: seq<Event>)
    requires k < |nodes| && InSync(e, nodes, k, view) && Run(e, nodes, k, evs)
    requires TotalPods(nodes) + |evs| < MAX_INT32
    ensures InSync(e, NodesAfterRun(e, nodes, k, evs), k, ViewAfterRun(e, view, nodes, k, evs))
    ensures TotalPods(NodesAfterRun(e, nodes, k, evs)) < MAX_INT32
    decreases |evs|
  {
    if evs != [] {
      TotalPodsAfter(nodes, k, evs[0]);
      StepInSync(e, nodes, k, view, evs[0]);
      RunInSync(e, After(nodes, k, evs[0]), k, ViewAfter(e, view, nodes, k, evs[0]), evs[1..]);
    }
  }

  /** The counts and the minima are those of the snapshot. */
  ghost predicate Exact(e: Env, nodes: Snapshot, view: SpreadView) {
    && Shaped(e, view)
    && forall i | 0 <= i < |e.constraints| ::
         && view.counts[i] == CountMap(e, i, nodes)
         && view.paths[i].first.matchNum == MinOf(CountMap(e, i, nodes))
  }

  lemma InSyncExact(e: Env, nodes: Snapshot, k: nat, view: SpreadView)
    requires k < |nodes| && InSync(e, nodes, k, view) && TotalPods(nodes) < MAX_INT32
    ensures Exact(e, nodes, view)
  {
    forall i | 0 <= i < |e.constraints| ensures view.paths[i].first.matchNum == MinOf(CountMap(e, i, nodes)) {
      CountMapBounded(e, i, nodes);
      TracksMinimum(view.counts[i], ValueOrEmpty(nodes[k].node.labels, e.constraints[i].topologyKey), view.paths[i]);
      MinimumIsUnique(view.counts[i], view.paths[i].first.matchNum, MinOf(view.counts[i]));
    }
  }

  lemma ComputedExact(e: Env, nodes: Snapshot, view: SpreadView)
    requires Computed(e, nodes, view) && TotalPods(nodes) < MAX_INT32
    ensures Exact(e, nodes, view)
  {
    forall i | 0 <= i < |e.constraints| ensures view.paths[i].first.matchNum == MinOf(CountMap(e, i, nodes)) {
      CountMapBounded(e, i, nodes);
      FoldedTracks(view.counts[i], "", view.paths[i]);
      TracksMinimum(view.counts[i], "", view.paths[i]);
      MinimumIsUnique(view.counts[i], view.paths[i].first.matchNum, MinOf(view.counts[i]));
    }
  }

  lemma ExactPasses(e: Env, nodes: Snapshot, view: SpreadView, i: nat, podLabels: Labels, node: Node)
    requires Exact(e, nodes, view) && i < |e.constraints|
    ensures Passes(e.constraints, view, i, podLabels, node) <==> SkewOk(e, i, nodes, podLabels, node)
  {
    assert CountMap(e, i, nodes).Keys == Domains(e, i, nodes);
    assert MinNum(view, i, e.constraints[i].minDomains) == GlobalMin(e, i, nodes);
  }

  ghost predicate PassesAll(e: Env, view: SpreadView, podLabels: Labels, node: Node)
    requires Shaped(e, view)
  {
    forall i | 0 <= i < |e.constraints| :: Passes(e.constraints, view, i, podLabels, node)
  }

  /** On exact counts and minima, the filter decides what it is defined to. */
  lemma ExactVerdict(e: Env, nodes: Snapshot, view: SpreadView, podLabels: Labels, node: Node)
    requires Exact(e, nodes, view)
    ensures PassesAll(e, view, podLabels, node) <==> Accepts(e, nodes, podLabels, node)
  {
    forall i | 0 <= i < |e.constraints|
      ensures Passes(e.constraints, view, i, podLabels, node) <==> SkewOk(e, i, nodes, podLabels, node)
    {
      ExactPasses(e, nodes, view, i, podLabels, node);
    }
  }

  /** The verdict on a freshly computed state is the definition. */
  lemma ComputedVerdict(e: Env, nodes: Snapshot, view: SpreadView, podLabels: Labels, node: Node)
    requires Computed(e, nodes, view) && TotalPods(nodes) < MAX_INT32
    ensures PassesAll(e, view, podLabels, node) <==> Accepts(e, nodes, podLabels, node)
  {
    ComputedExact(e, nodes, view);
    ExactVerdict(e, nodes, view, podLabels, node);
  }

  /** Incremental equals recomputed: compute the state, add and remove pods of
      one node in any way, and every count map, every minimum and every verdict
      is that of the changed snapshot. */
  lemma IncrementalEqualsRecomputed(e: Env, nodes: Snapshot, k: nat, view: SpreadView, evs: seq<Event>)
    requires k < |nodes| && Computed(e, nodes, view) && Run(e, nodes, k, evs)
    requires TotalPods(nodes) + |evs| < MAX_INT32
    ensures var nodes', view' := NodesAfterRun(e, nodes, k, evs), ViewAfterRun(e, view, nodes, k, evs);
            && Exact(e, nodes', view')
            && forall podLabels, node :: PassesAll(e, view', podLabels, node) <==> Accepts(e, nodes', podLabels, node)
  {
    var nodes', view' := NodesAfterRun(e, nodes, k, evs), ViewAfterRun(e, view, nodes, k, evs);
    ComputedInSync(e, nodes, k, view);
    RunInSync(e, nodes, k, view, evs);
    InSyncExact(e, nodes', k, view');
    forall podLabels, node
      ensures PassesAll(e, view', podLabels, node) <==> Accepts(e, nodes', podLabels, node)
    {
      ExactVerdict(e, nodes', view', podLabels, node);
    }
  }

  // ---- The definition makes sense ----

  /** With at least one domain asked for, the minimum is 0 or a real count;
      the sentinel never enters the skew. */
  lemma GlobalMinIsACount(e: Env, i: nat, nodes: Snapshot)
    requires i < |e.constraints| && e.constraints[i].minDomains >= 1
    ensures GlobalMin(e, i, nodes) == 0 ||
            exists v :: v in Domains(e, i, nodes) && DomainCount(e, i, v, nodes) == GlobalMin(e, i, nodes)
    ensures 0 <= GlobalMin(e, i, nodes) <= TotalPods(nodes)
  {
    SumPositive(nodes, PodsOn());
    if |Domains(e, i, nodes)| >= e.constraints[i].minDomains {
      var m := CountMap(e, i, nodes);
      assert m.Keys == Domains(e, i, nodes);
      var v :| v in m && m[v] == MinOf(m);
      DomainCountBounds(e, i, v, nodes);
    }
  }

  /** A lone constraint that tolerates some skew never blocks a pod: an
      eligible node of a least used domain takes it. */
  lemma LoneConstraintAdmits(e: Env, nodes: Snapshot, podLabels: Labels)
    requires |e.constraints| == 1 && e.constraints[0].maxSkew >= 1 && e.constraints[0].minDomains >= 1
    requires |Domains(e, 0, nodes)| >= e.constraints[0].minDomains
    ensures exists k :: 0 <= k < |nodes| && Eligible(e, 0, nodes[k].node) && Accepts(e, nodes, podLabels, nodes[k].node)
  {
    var m := CountMap(e, 0, nodes);
    assert m.Keys == Domains(e, 0, nodes);
    var v :| v in m && m[v] == MinOf(m);
    var k :| 0 <= k < |nodes| && Eligible(e, 0, nodes[k].node)
          && nodes[k].node.labels[e.constraints[0].topologyKey] == v;
    LeastDomainAdmits(e, nodes, podLabels, nodes[k].node);
  }

  lemma LeastDomainAdmits(e: Env, nodes: Snapshot, podLabels: Labels, node: Node)
    requires |e.constraints| == 1 && e.constraints[0].maxSkew >= 1
    requires e.constraints[0].topologyKey in node.labels
    requires |Domains(e, 0, nodes)| >= e.constraints[0].minDomains
    requires var v := node.labels[e.constraints[0].topologyKey];
             v in Domains(e, 0, nodes) && DomainCount(e, 0, v, nodes) == MinOf(CountMap(e, 0, nodes))
    ensures Accepts(e, nodes, podLabels, node)
  {
  }
}
