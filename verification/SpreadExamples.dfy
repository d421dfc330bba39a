/** Events that the topology spread hints skip although they change a verdict of
    the filter. */
module SpreadExamples {
  import opened Labels
  import opened Cluster
  import opened CriticalPaths
  import opened Hints
  import opened SpreadCommon
  import opened SpreadDefs
  import opened SpreadPlugin

  /** The verdict of a lone constraint on a pod that it counts, read off the
      count map. */
  lemma LoneVerdict(e: Env, nodes: Snapshot, m: Counts, podLabels: Labels, node: Node)
    requires |e.constraints| == 1 && CountMap(e, 0, nodes) == m && |m| >= e.constraints[0].minDomains
    requires e.constraints[0].topologyKey in node.labels && e.constraints[0].selector.Matches(podLabels)
    ensures Accepts(e, nodes, podLabels, node) <==>
            Lookup(m, node.labels[e.constraints[0].topologyKey]) + 1 - MinOf(m) <= e.constraints[0].maxSkew
  {
    assert m.Keys == Domains(e, 0, nodes) && |m| == |m.Keys|;
    assert Accepts(e, nodes, podLabels, node) <==> SkewOk(e, 0, nodes, podLabels, node);
  }

  /** The environments of the examples: web pods over zones at a skew of 2. */
  ghost predicate SpreadsWeb(e: Env) {
    && |e.constraints| == 1 && e.constraints[0].topologyKey == "zone"
    && e.constraints[0].selector == WebOverZones(2).constraints[0].selector
    && e.constraints[0].maxSkew == 2 && e.constraints[0].minDomains == 1
  }

  lemma VerdictBesideEmptyZone(e: Env, nodes: Snapshot, b: int, node: Node)
    requires SpreadsWeb(e) && b >= 0 && "zone" in node.labels && node.labels["zone"] == "b"
    requires CountMap(e, 0, nodes) == map["a" := 0, "b" := b]
    ensures Accepts(e, nodes, map["app" := "web"], node) <==> b <= 1
  {
    WebPodCounts(2, "b");
    LeastOfTwo(0, b);
    LoneVerdict(e, nodes, CountMap(e, 0, nodes), map["app" := "web"], node);
  }

  lemma VerdictInNewZone(e: Env, nodes: Snapshot, node: Node)
    requires SpreadsWeb(e) && "zone" in node.labels && node.labels["zone"] == "b"
    requires CountMap(e, 0, nodes) == map["a" := 0]
    ensures Accepts(e, nodes, map["app" := "web"], node)
  {
    var m := CountMap(e, 0, nodes);
    WebPodCounts(2, "b");
    assert m.Keys == {"a"} && |m| == |m.Keys| && m["a"] == 0;
    MinimumIsUnique(m, MinOf(m), 0);
    LoneVerdict(e, nodes, m, map["app" := "web"], node);
  }

  /** A pod of zone "b" starts to terminate: the hint skips the update, and the
      zone, rejected before, is accepted now. */
  lemma TerminationIsMissed(target: Pod)
    requires target.namespace == "default" && target.uid != "web"
    ensures var e, w, gone := WebOverZones(2), WebPod(false), WebPod(true);
            var before, after := TwoZones([], [w, w]), TwoZones([], [gone, w]);
            && after == before[1 := NodeInfo(before[1].node, before[1].pods[0 := gone])]
            && IsSchedulableAfterPodChange(e.constraints, target, Updated(w.pod, gone.pod)).QueueSkip?
            && !Accepts(e, before, map["app" := "web"], before[1].node)
            && Accepts(e, after, map["app" := "web"], before[1].node)
  {
    var e, w, gone := WebOverZones(2), WebPod(false), WebPod(true);
    var before, after := TwoZones([], [w, w]), TwoZones([], [gone, w]);
    assert [w, w][0 := gone] == [gone, w];
    TerminationCounts();
    VerdictBesideEmptyZone(e, before, 2, before[1].node);
    VerdictBesideEmptyZone(e, after, 1, before[1].node);
  }

  lemma TerminationCounts()
    ensures var e, w, gone := WebOverZones(2), WebPod(false), WebPod(true);
            && CountMap(e, 0, TwoZones([], [w, w])) == map["a" := 0, "b" := 2]
            && CountMap(e, 0, TwoZones([], [gone, w])) == map["a" := 0, "b" := 1]
  {
    WebPodsCount();
    TwoZonesCount(2, [], [WebPod(false), WebPod(false)]);
    TwoZonesCount(2, [], [WebPod(true), WebPod(false)]);
  }

  // The same with a pod that asks for nodes with an SSD.

  function SsdNode(zone: string, pods: seq<PodInfo>): NodeInfo {
    NodeInfo(Node(zone, map["zone" := zone, "disk" := "ssd"], []), pods)
  }

  function WebOnSsd(): Env {
    var e := WebOverZones(2);
    e.(constraints := [e.constraints[0].(nodeAffinityPolicy := Honor)],
       profile := e.profile.(nodeSelector := map["disk" := "ssd"]))
  }

  lemma SsdEligible(zone: string)
    ensures Eligible(WebOnSsd(), 0, SsdNode(zone, []).node) && !Eligible(WebOnSsd(), 0, ZoneNode(zone, []).node)
  {
    assert "disk" !in ZoneNode(zone, []).node.labels;
  }

  /** Zone "a" has an SSD and no pods; what zone "b" counts depends on its SSD. */
  lemma WebOnSsdCounts(b: NodeInfo)
    requires b == SsdNode("b", b.pods) || b == ZoneNode("b", b.pods)
    ensures var e := WebOnSsd();
            CountMap(e, 0, [SsdNode("a", []), b]) ==
            if "disk" in b.node.labels then map["a" := 0, "b" := PodCount(b.pods, e.constraints[0].selector, "default")]
            else map["a" := 0]
  {
    var e, a := WebOnSsd(), [SsdNode("a", [])];
    SsdEligible("a");
    SsdEligible("b");
    CountMapOfOneMore(e, 0, a);
    assert a[..0] == [] && CountMap(e, 0, []) == map[];
    assert CountMap(e, 0, a) == map["a" := 0];
    CountMapOfOneMore(e, 0, [SsdNode("a", []), b]);
    assert [SsdNode("a", []), b][..1] == a;
  }

  /** The node that holds the pods of zone "b" loses its SSD: the hint skips the
      update, and other nodes of the zone, rejected before, are accepted now. */
  lemma LostEligibilityIsMissed()
    ensures var e, w := WebOnSsd(), WebPod(false);
            var before, after := SsdNode("b", [w, w]), ZoneNode("b", [w, w]);
            && IsSchedulableAfterNodeChange(e.constraints, Updated(before.node, after.node)).QueueSkip?
            && !Accepts(e, [SsdNode("a", []), before], map["app" := "web"], before.node)
            && Accepts(e, [SsdNode("a", []), after], map["app" := "web"], before.node)
  {
    var e, w := WebOnSsd(), WebPod(false);
    var before, after := SsdNode("b", [w, w]), ZoneNode("b", [w, w]);
    WebPodsCount();
    WebOnSsdCounts(before);
    WebOnSsdCounts(after);
    VerdictBesideEmptyZone(e, [SsdNode("a", []), before], 2, before.node);
    VerdictInNewZone(e, [SsdNode("a", []), after], before.node);
  }
}
