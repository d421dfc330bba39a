/** What the topology spread filter is defined to decide, straight from the
    snapshot. */
module SpreadDefs {
  import opened Labels
  import opened Cluster
  import opened Sums
  import opened SpreadCommon
  import opened CriticalPaths

  /** What node `ni` adds to domain `v` of constraint `i`. */
  ghost function NodeShare(e: Env, i: nat, v: string, ni: NodeInfo): int
    requires i < |e.constraints|
  {
    if Eligible(e, i, ni.node) && ni.node.labels[e.constraints[i].topologyKey] == v
    then PodCount(ni.pods, e.constraints[i].selector, e.profile.namespace) else 0
  }

  ghost function NodeShareFn(e: Env, i: nat, v: string): NodeInfo -> int
    requires i < |e.constraints|
  {
    (ni: NodeInfo) => NodeShare(e, i, v, ni)
  }

  /** The topology values of the eligible nodes. */
  ghost function Domains(e: Env, i: nat, nodes: Snapshot): set<string>
    requires i < |e.constraints|
  {
    set k | 0 <= k < |nodes| && Eligible(e, i, nodes[k].node) :: nodes[k].node.labels[e.constraints[i].topologyKey]
  }

  /** The number of matching pods in domain `v`. */
  ghost function DomainCount(e: Env, i: nat, v: string, nodes: Snapshot): int
    requires i < |e.constraints|
  {
    Sum(nodes, NodeShareFn(e, i, v))
  }

  ghost function CountMap(e: Env, i: nat, nodes: Snapshot): Counts
    requires i < |e.constraints|
  {
    map v | v in Domains(e, i, nodes) :: DomainCount(e, i, v, nodes)
  }

  /** The least domain count, taken as 0 while there are fewer domains than
      the constraint asks for. */
  ghost function GlobalMin(e: Env, i: nat, nodes: Snapshot): int
    requires i < |e.constraints|
  {
    if |Domains(e, i, nodes)| < e.constraints[i].minDomains then 0 else MinOf(CountMap(e, i, nodes))
  }

  /** Placing a pod with `podLabels` on `node` keeps the skew of constraint `i`. */
  ghost predicate SkewOk(e: Env, i: nat, nodes: Snapshot, podLabels: Labels, node: Node)
    requires i < |e.constraints|
  {
    var c := e.constraints[i];
    && c.topologyKey in node.labels
    && var v := node.labels[c.topologyKey];
       && (if v in Domains(e, i, nodes) then DomainCount(e, i, v, nodes) else 0)
          + (if c.selector.Matches(podLabels) then 1 else 0)
          - GlobalMin(e, i, nodes) <= c.maxSkew
  }

  ghost predicate Accepts(e: Env, nodes: Snapshot, podLabels: Labels, node: Node) {
    forall i | 0 <= i < |e.constraints| :: SkewOk(e, i, nodes, podLabels, node)
  }

  // ---- Facts about the counts ----

  lemma NodeShareBounds(e: Env, i: nat, v: string, ni: NodeInfo)
    requires i < |e.constraints|
    ensures 0 <= NodeShare(e, i, v, ni) <= |ni.pods|
  {
    PodCountBounds(ni.pods, e.constraints[i].selector, e.profile.namespace);
  }

  ghost function PodsOn(): NodeInfo -> int {
    (ni: NodeInfo) => |ni.pods|
  }

  ghost function TotalPods(nodes: Snapshot): int {
    Sum(nodes, PodsOn())
  }

  lemma DomainCountBounds(e: Env, i: nat, v: string, nodes: Snapshot)
    requires i < |e.constraints|
    ensures 0 <= DomainCount(e, i, v, nodes) <= TotalPods(nodes)
    ensures v !in Domains(e, i, nodes) ==> DomainCount(e, i, v, nodes) == 0
  {
    forall k | 0 <= k < |nodes| ensures 0 <= NodeShareFn(e, i, v)(nodes[k]) <= PodsOn()(nodes[k]) {
      NodeShareBounds(e, i, v, nodes[k]);
    }
    SumPositive(nodes, NodeShareFn(e, i, v));
    SumMonotone(nodes, NodeShareFn(e, i, v), PodsOn());
  }

  lemma CountMapBounded(e: Env, i: nat, nodes: Snapshot)
    requires i < |e.constraints| && TotalPods(nodes) < MAX_INT32
    ensures Bounded(CountMap(e, i, nodes))
  {
    forall v | v in CountMap(e, i, nodes) ensures CountMap(e, i, nodes)[v] < MAX_INT32 {
      DomainCountBounds(e, i, v, nodes);
    }
  }

  function Lookup(m: Counts, v: string): int {
    if v in m then m[v] else 0
  }

  function Bump(m: Counts, v: string, n: int): Counts {
    m[v := Lookup(m, v) + n]
  }

  lemma BumpedMap(m: Counts, m': Counts, w: string, n: int)
    requires m'.Keys == m.Keys + {w}
    requires forall v | v in m' :: m'[v] == Lookup(m, v) + if v == w then n else 0
    ensures m' == Bump(m, w, n)
  {
  }

  lemma DomainsOfOneMore(e: Env, i: nat, nodes: Snapshot)
    requires i < |e.constraints| && nodes != []
    ensures var ni := nodes[|nodes| - 1];
            Domains(e, i, nodes) == Domains(e, i, nodes[..|nodes| - 1]) +
              if Eligible(e, i, ni.node) then {ni.node.labels[e.constraints[i].topologyKey]} else {}
  {
    var before := nodes[..|nodes| - 1];
    forall k | 0 <= k < |before| && Eligible(e, i, before[k].node)
      ensures before[k].node.labels[e.constraints[i].topologyKey] in Domains(e, i, nodes)
    {
      assert nodes[k] == before[k];
    }
    forall k | 0 <= k < |before| && Eligible(e, i, nodes[k].node)
      ensures nodes[k].node.labels[e.constraints[i].topologyKey] in Domains(e, i, before)
    {
      assert nodes[k] == before[k];
    }
  }

  lemma DomainCountOfOneMore(e: Env, i: nat, v: string, nodes: Snapshot)
    requires i < |e.constraints| && nodes != []
    ensures DomainCount(e, i, v, nodes) ==
            Lookup(CountMap(e, i, nodes[..|nodes| - 1]), v) + NodeShare(e, i, v, nodes[|nodes| - 1])
  {
    DomainCountBounds(e, i, v, nodes[..|nodes| - 1]);
  }

  /** One more node in the snapshot adds its pods to its own domain. */
  lemma CountMapOfOneMore(e: Env, i: nat, nodes: Snapshot)
    requires i < |e.constraints| && nodes != []
    ensures var ni := nodes[|nodes| - 1];
            CountMap(e, i, nodes) ==
            if Eligible(e, i, ni.node)
            then Bump(CountMap(e, i, nodes[..|nodes| - 1]), ni.node.labels[e.constraints[i].topologyKey],
                      PodCount(ni.pods, e.constraints[i].selector, e.profile.namespace))
            else CountMap(e, i, nodes[..|nodes| - 1])
  {
    var before, ni := nodes[..|nodes| - 1], nodes[|nodes| - 1];
    DomainsOfOneMore(e, i, nodes);
    forall v | v in Domains(e, i, nodes)
      ensures DomainCount(e, i, v, nodes) == Lookup(CountMap(e, i, before), v) + NodeShare(e, i, v, ni)
    {
      DomainCountOfOneMore(e, i, v, nodes);
    }
    if Eligible(e, i, ni.node) {
      BumpedMap(CountMap(e, i, before), CountMap(e, i, nodes), ni.node.labels[e.constraints[i].topologyKey],
                PodCount(ni.pods, e.constraints[i].selector, e.profile.namespace));
    }
  }

  lemma DomainsOfChangedPods(e: Env, i: nat, nodes: Snapshot, k: nat, pods: seq<PodInfo>)
    requires i < |e.constraints| && k < |nodes|
    ensures Domains(e, i, nodes[k := NodeInfo(nodes[k].node, pods)]) == Domains(e, i, nodes)
  {
    var nodes' := nodes[k := NodeInfo(nodes[k].node, pods)];
    assert forall j | 0 <= j < |nodes| :: nodes'[j].node == nodes[j].node;
    forall j | 0 <= j < |nodes| && Eligible(e, i, nodes[j].node)
      ensures nodes[j].node.labels[e.constraints[i].topologyKey] in Domains(e, i, nodes')
    {
      assert nodes'[j].node == nodes[j].node;
    }
  }

  lemma DomainCountOfChangedPods(e: Env, i: nat, v: string, nodes: Snapshot, k: nat, pods: seq<PodInfo>)
    requires i < |e.constraints| && k < |nodes|
    ensures var ni := NodeInfo(nodes[k].node, pods);
            DomainCount(e, i, v, nodes[k := ni]) ==
            DomainCount(e, i, v, nodes) - NodeShare(e, i, v, nodes[k]) + NodeShare(e, i, v, ni)
  {
    SumUpdate(nodes, k, NodeInfo(nodes[k].node, pods), NodeShareFn(e, i, v));
  }

  lemma SameDomainsSameCounts(e: Env, i: nat, nodes: Snapshot, nodes': Snapshot)
    requires i < |e.constraints| && Domains(e, i, nodes) == Domains(e, i, nodes')
    requires forall v | v in Domains(e, i, nodes) :: DomainCount(e, i, v, nodes) == DomainCount(e, i, v, nodes')
    ensures CountMap(e, i, nodes) == CountMap(e, i, nodes')
  {
  }

  lemma BumpedDomain(e: Env, i: nat, nodes: Snapshot, nodes': Snapshot, w: string, d: int)
    requires i < |e.constraints| && Domains(e, i, nodes') == Domains(e, i, nodes) && w in Domains(e, i, nodes)
    requires forall v | v in Domains(e, i, nodes) ::
               DomainCount(e, i, v, nodes') == DomainCount(e, i, v, nodes) + if v == w then d else 0
    ensures CountMap(e, i, nodes') == Bump(CountMap(e, i, nodes), w, d)
  {
    BumpedMap(CountMap(e, i, nodes), CountMap(e, i, nodes'), w, d);
  }

  /** How many more pods constraint `i` counts on node `ni` if its pods become
      `pods`. */
  ghost function PodDelta(e: Env, i: nat, ni: NodeInfo, pods: seq<PodInfo>): int
    requires i < |e.constraints|
  {
    var c := e.constraints[i];
    PodCount(pods, c.selector, e.profile.namespace) - PodCount(ni.pods, c.selector, e.profile.namespace)
  }

  lemma CountMapOfBumpedNode(e: Env, i: nat, nodes: Snapshot, k: nat, pods: seq<PodInfo>, w: string, d: int)
    requires i < |e.constraints| && k < |nodes| && Eligible(e, i, nodes[k].node)
    requires w == nodes[k].node.labels[e.constraints[i].topologyKey] && d == PodDelta(e, i, nodes[k], pods)
    ensures CountMap(e, i, nodes[k := NodeInfo(nodes[k].node, pods)]) == Bump(CountMap(e, i, nodes), w, d)
  {
    var nodes' := nodes[k := NodeInfo(nodes[k].node, pods)];
    DomainsOfChangedPods(e, i, nodes, k, pods);
    assert w in Domains(e, i, nodes);
    forall v | v in Domains(e, i, nodes)
      ensures DomainCount(e, i, v, nodes') == DomainCount(e, i, v, nodes) + if v == w then d else 0
    {
      DomainCountOfChangedPods(e, i, v, nodes, k, pods);
    }
    BumpedDomain(e, i, nodes, nodes', w, d);
  }

  /** Changing the pods of node `k` leaves the domains alone and changes the
      count of that node's own domain only. */
  lemma CountMapOfChangedPods(e: Env, i: nat, nodes: Snapshot, k: nat, pods: seq<PodInfo>)
    requires i < |e.constraints| && k < |nodes|
    ensures CountMap(e, i, nodes[k := NodeInfo(nodes[k].node, pods)]) ==
            if Eligible(e, i, nodes[k].node)
            then Bump(CountMap(e, i, nodes), nodes[k].node.labels[e.constraints[i].topologyKey],
                      PodDelta(e, i, nodes[k], pods))
            else CountMap(e, i, nodes)
  {
    if Eligible(e, i, nodes[k].node) {
      CountMapOfBumpedNode(e, i, nodes, k, pods, nodes[k].node.labels[e.constraints[i].topologyKey],
        PodDelta(e, i, nodes[k], pods));
    } else {
      DomainsOfChangedPods(e, i, nodes, k, pods);
      forall v | v in Domains(e, i, nodes)
        ensures DomainCount(e, i, v, nodes) == DomainCount(e, i, v, nodes[k := NodeInfo(nodes[k].node, pods)])
      {
        DomainCountOfChangedPods(e, i, v, nodes, k, pods);
      }
      SameDomainsSameCounts(e, i, nodes, nodes[k := NodeInfo(nodes[k].node, pods)]);
    }
  }

  lemma PodCountOfOneMore(pods: seq<PodInfo>, p: PodInfo, selector: Selector, ns: string)
    ensures PodCount(pods + [p], selector, ns) ==
            PodCount(pods, selector, ns) + if !selector.Empty() && Counted(p.pod, selector, ns) then 1 else 0
  {
    assert (pods + [p])[..|pods|] == pods;
  }

  lemma PodCountOfOneLess(pods: seq<PodInfo>, j: nat, selector: Selector, ns: string)
    requires j < |pods|
    ensures PodCount(pods[..j] + pods[j + 1..], selector, ns) ==
            PodCount(pods, selector, ns) - if !selector.Empty() && Counted(pods[j].pod, selector, ns) then 1 else 0
  {
    SumRemove(pods, j, CountedFn(selector, ns));
  }

  lemma PodCountOfReplaced(pods: seq<PodInfo>, j: nat, p: PodInfo, selector: Selector, ns: string)
    requires j < |pods|
    ensures PodCount(pods[j := p], selector, ns) - PodCount(pods, selector, ns) ==
            if selector.Empty() || Counted(p.pod, selector, ns) == Counted(pods[j].pod, selector, ns) then 0
            else if Counted(p.pod, selector, ns) then 1 else -1
  {
    SumUpdate(pods, j, p, CountedFn(selector, ns));
  }

  // ---- A small cluster for examples ----

  /** A pod of the application "web". */
  function WebPod(terminating: bool): PodInfo {
    PodInfo(Pod("web", "default", map["app" := "web"], terminating, "node", None, None, [], [], None, None, []),
            [], [], [], [])
  }

  function ZoneNode(zone: string, pods: seq<PodInfo>): NodeInfo {
    NodeInfo(Node(zone, map["zone" := zone], []), pods)
  }

  /** Spread the pods of "web" over zones. */
  function WebOverZones(maxSkew: int): Env {
    Env(true, [Constraint(maxSkew, "zone", Requirements({In("app", {"web"})}), 1, Ignore, Ignore)],
        Profile("default", map[], None, []))
  }

  lemma WebPodCounts(maxSkew: int, zone: string)
    ensures Eligible(WebOverZones(maxSkew), 0, Node(zone, map["zone" := zone], []))
    ensures var selector := WebOverZones(maxSkew).constraints[0].selector;
            && !selector.Empty()
            && selector.Matches(map["app" := "web"])
  {
    assert In("app", {"web"}) in WebOverZones(maxSkew).constraints[0].selector.reqs;
  }

  lemma OneZoneCounts(maxSkew: int, zone: string, pods: seq<PodInfo>)
    ensures var e := WebOverZones(maxSkew);
            CountMap(e, 0, [ZoneNode(zone, pods)]) == map[zone := PodCount(pods, e.constraints[0].selector, "default")]
  {
    var e, nodes := WebOverZones(maxSkew), [ZoneNode(zone, pods)];
    WebPodCounts(maxSkew, zone);
    CountMapOfOneMore(e, 0, nodes);
    assert nodes[..0] == [];
    assert CountMap(e, 0, []) == map[];
  }

  function TwoZones(a: seq<PodInfo>, b: seq<PodInfo>): Snapshot {
    [ZoneNode("a", a), ZoneNode("b", b)]
  }

  lemma TwoZonesCount(maxSkew: int, a: seq<PodInfo>, b: seq<PodInfo>)
    ensures var e := WebOverZones(maxSkew);
            var selector := e.constraints[0].selector;
            CountMap(e, 0, TwoZones(a, b)) ==
            map["a" := PodCount(a, selector, "default"), "b" := PodCount(b, selector, "default")]
  {
    OneZoneCounts(maxSkew, "a", a);
    WebPodCounts(maxSkew, "b");
    CountMapOfOneMore(WebOverZones(maxSkew), 0, TwoZones(a, b));
    assert TwoZones(a, b)[..1] == [ZoneNode("a", a)];
  }

  lemma OneMoreWebPod(pods: seq<PodInfo>, terminating: bool)
    ensures var selector := WebOverZones(1).constraints[0].selector;
            PodCount(pods + [WebPod(terminating)], selector, "default") ==
            PodCount(pods, selector, "default") + if terminating then 0 else 1
  {
    WebPodCounts(1, "a");
    PodCountOfOneMore(pods, WebPod(terminating), WebOverZones(1).constraints[0].selector, "default");
  }

  lemma WebPodsCount()
    ensures var selector, w, gone := WebOverZones(1).constraints[0].selector, WebPod(false), WebPod(true);
            && PodCount([], selector, "default") == PodCount([gone], selector, "default") == 0
            && PodCount([w], selector, "default") == PodCount([gone, w], selector, "default") == 1
            && PodCount([w, w], selector, "default") == 2
  {
    var w, gone := WebPod(false), WebPod(true);
    OneMoreWebPod([], true);
    OneMoreWebPod([], false);
    OneMoreWebPod([w], false);
    OneMoreWebPod([gone], false);
    assert [] + [w] == [w] && [w] + [w] == [w, w] && [] + [gone] == [gone] && [gone] + [w] == [gone, w];
  }

  lemma LeastOfTwo(a: int, b: int)
    ensures var m: Counts := map["a" := a, "b" := b];
            |m| == 2 && MinOf(m) == if a <= b then a else b
  {
    var m: Counts := map["a" := a, "b" := b];
    assert m.Keys == {"a", "b"} && |m| == |m.Keys|;
    assert m["a"] == a && m["b"] == b;
    MinimumIsUnique(m, MinOf(m), if a <= b then a else b);
  }
}
