/** The inter-pod affinity hint for pod events, against what such events can do
    to the verdict: which of them can make a node acceptable in some cluster. */
module AffinityHints {
  import opened Labels
  import opened Cluster
  import opened Hints
  import opened TermCounts
  import opened AffinityDefs
  import opened AffinityWritten
  import opened Namespaces

  /** The hint reads the terms as merged, without namespace labels, and takes a
      pod to matter only if all of them select it. */
  function IsSchedulableAfterPodChange(w: Written, change: Change<Pod>): Hint {
    if !change.ForAll((p: Pod) => p.nodeName != "") then QueueSkip
    else match change
      case Updated(original, modified) =>
        if !MatchesAll(w.affinity, original) && MatchesAll(w.affinity, modified) then Queue
        else if MatchesAll(w.antiAffinity, original) && !MatchesAll(w.antiAffinity, modified) then Queue
        else QueueSkip
      case Added(modified) => if MatchesAll(w.affinity, modified) then Queue else QueueSkip
      case Deleted(original) => if MatchesAll(w.antiAffinity, original) then Queue else QueueSkip
  }

  /** A pod on no node is in no snapshot: whatever happens to it, or before it is
      assigned, is no reason for a retry. */
  lemma UnassignedPodIsSkipped(w: Written, p: Pod, q: Pod)
    requires p.nodeName == ""
    ensures forall change | change in {Added(p), Deleted(p), Updated(p, q), Updated(q, p)} ::
              IsSchedulableAfterPodChange(w, change).QueueSkip?
  {
  }

  // ---- The verdict, pod by pod ----

  /** The incoming pod and `p` cannot share a domain of the key: a term of one of
      them selects the other. */
  ghost predicate Repelled(inc: Incoming, p: PodInfo, key: string) {
    || (exists t :: t in inc.antiAffinity && t.Matches(p.pod, map[]) && t.topologyKey == key)
    || (exists t :: t in p.requiredAntiAffinityTerms && t.Matches(inc.pod, inc.nsLabels) && t.topologyKey == key)
  }

  ghost predicate InTheWay(inc: Incoming, p: PodInfo, node: Node, target: Node) {
    exists key :: Repelled(inc, p, key) && SameDomain(node, target, key)
  }

  lemma AcceptsPodByPod(inc: Incoming, nodes: Snapshot, target: Node)
    ensures Accepts(inc, nodes, target) <==>
            && AffinityOk(inc, nodes, target)
            && forall i, j | Present(nodes, i, j) :: !InTheWay(inc, nodes[i].pods[j], nodes[i].node, target)
  {
    forall i, j | Present(nodes, i, j) && InTheWay(inc, nodes[i].pods[j], nodes[i].node, target)
      ensures !Accepts(inc, nodes, target)
    {
      var key :| Repelled(inc, nodes[i].pods[j], key) && SameDomain(nodes[i].node, target, key);
    }
    if IncomingConflict(inc, nodes, target) {
      var i, j, t :| Present(nodes, i, j) && t in inc.antiAffinity &&
        t.Matches(nodes[i].pods[j].pod, map[]) && SameDomain(nodes[i].node, target, t.topologyKey);
      assert Repelled(inc, nodes[i].pods[j], t.topologyKey);
      assert InTheWay(inc, nodes[i].pods[j], nodes[i].node, target);
    }
    if ExistingConflict(inc, nodes, target) {
      var i, j, t :| Present(nodes, i, j) && t in nodes[i].pods[j].requiredAntiAffinityTerms &&
        t.Matches(inc.pod, inc.nsLabels) && SameDomain(nodes[i].node, target, t.topologyKey);
      assert Repelled(inc, nodes[i].pods[j], t.topologyKey);
      assert InTheWay(inc, nodes[i].pods[j], nodes[i].node, target);
    }
  }

  /** Some cluster takes the incoming pod. */
  ghost predicate Placeable(inc: Incoming) {
    exists nodes: Snapshot, target :: Accepts(inc, nodes, target)
  }

  /** The incoming pod is accepted in the domain of the key that pod `j` of node
      `i` sits in. */
  ghost predicate AcceptedBeside(inc: Incoming, p: PodInfo, key: string, nodes: Snapshot, i: int, j: int,
      target: Node)
  {
    && Present(nodes, i, j) && nodes[i].pods[j] == p
    && SameDomain(nodes[i].node, target, key) && Accepts(inc, nodes, target)
  }

  /** Some cluster takes the incoming pod beside `p`. */
  ghost predicate PlaceableBeside(inc: Incoming, p: PodInfo, key: string) {
    exists nodes: Snapshot, i, j, target :: AcceptedBeside(inc, p, key, nodes, i, j, target)
  }

  // ---- Clusters to choose from ----

  lemma {:induction false} LongerThanAll(values: set<string>) returns (n: nat)
    ensures forall v | v in values :: |v| < n
    decreases |values|
  {
    n := 0;
    if values != {} {
      var v :| v in values;
      n := LongerThanAll(values - {v});
      n := if |v| < n then n else |v| + 1;
    }
  }

  lemma FreshValue(values: set<string>) returns (f: string)
    ensures f !in values
  {
    var n := LongerThanAll(values);
    f := seq(n, _ => 'x');
  }

  /** A node that bears one label only. */
  function NodeWith(key: string, v: string, pods: seq<PodInfo>): NodeInfo {
    NodeInfo(Node("new", map[key := v], []), pods)
  }

  function MovedTo(target: Node, key: string, v: string): Node {
    target.(labels := target.labels[key := v])
  }

  function AffinityKeys(inc: Incoming): set<string> {
    set t | t in inc.affinity :: t.topologyKey
  }

  /** A node in domain `v` of every affinity key and of `key`. */
  function NodeIn(inc: Incoming, key: string, v: string): Node {
    Node(v, map k | k in AffinityKeys(inc) + {key} :: v, [])
  }

  lemma PodlessAccepts(inc: Incoming, nodes: Snapshot, key: string, v: string)
    requires inc.affinity == [] || MatchesAll(inc.affinity, inc.pod)
    requires forall a | 0 <= a < |nodes| :: nodes[a].pods == []
    ensures Accepts(inc, nodes, NodeIn(inc, key, v))
  {
  }

  /** One more node without pods, or with pods in a domain that nothing else is
      in, leaves the pods there are where they are. */
  lemma PresentBeforeNew(nodes: Snapshot, ni: NodeInfo, i: int, j: int)
    ensures Present(nodes, i, j) ==> Present(nodes + [ni], i, j) && (nodes + [ni])[i] == nodes[i]
    ensures Present(nodes + [ni], i, j) ==> Present(nodes, i, j) || (i == |nodes| && 0 <= j < |ni.pods|)
  {
  }

  /** The snapshot with pod `j` of node `k` replaced. */
  function Replaced(nodes: Snapshot, k: nat, j: nat, q: PodInfo): Snapshot
    requires k < |nodes| && j < |nodes[k].pods|
  {
    nodes[k := NodeInfo(nodes[k].node, nodes[k].pods[j := q])]
  }

  /** An empty node changes nothing. */
  lemma EmptyNodeIsNothing(inc: Incoming, nodes: Snapshot, ni: NodeInfo, target: Node)
    requires ni.pods == []
    ensures Accepts(inc, nodes + [ni], target) <==> Accepts(inc, nodes, target)
  {
    forall i, j ensures Present(nodes + [ni], i, j) <==> Present(nodes, i, j)
                ensures Present(nodes, i, j) ==> (nodes + [ni])[i] == nodes[i]
    {
      PresentBeforeNew(nodes, ni, i, j);
    }
    assert forall key :: HasCompanion(inc, nodes + [ni], target, key) <==> HasCompanion(inc, nodes, target, key);
    assert SeriesStarted(inc, nodes + [ni]) <==> SeriesStarted(inc, nodes);
    AcceptsPodByPod(inc, nodes, target);
    AcceptsPodByPod(inc, nodes + [ni], target);
  }

  /** A target that lacks a key may as well be alone in a domain of it. */
  lemma FreshKeyIsNothing(inc: Incoming, nodes: Snapshot, target: Node, key: string, f: string)
    requires Accepts(inc, nodes, target) && key !in target.labels && f !in KeyValues(key, nodes)
    ensures Accepts(inc, nodes, MovedTo(target, key, f))
  {
    var target' := MovedTo(target, key, f);
    forall i, k | 0 <= i < |nodes|
      ensures SameDomain(nodes[i].node, target', k) <==> SameDomain(nodes[i].node, target, k)
    {
      if k == key && key in nodes[i].node.labels {
        assert nodes[i].node.labels[key] in KeyValues(key, nodes);
      }
    }
    assert forall k :: HasCompanion(inc, nodes, target', k) <==> HasCompanion(inc, nodes, target, k);
    AcceptsPodByPod(inc, nodes, target);
    AcceptsPodByPod(inc, nodes, target');
  }

  // ---- Deletions ----

  /** Deleting pod `j` of node `k` makes the target acceptable. */
  ghost predicate DeleteAdmits(inc: Incoming, nodes: Snapshot, k: nat, j: nat, target: Node) {
    && k < |nodes| && j < |nodes[k].pods|
    && !Accepts(inc, nodes, target) && Accepts(inc, WithoutPod(nodes, k, j), target)
  }

  ghost predicate DeleteMatters(inc: Incoming, p: PodInfo) {
    exists nodes: Snapshot, k: nat, j: nat, target :: DeleteAdmits(inc, nodes, k, j, target) && nodes[k].pods[j] == p
  }

  /** The pod is in the way, or the last companion of a series that the incoming
      pod can start anew. */
  ghost predicate Related(inc: Incoming, p: PodInfo) {
    || (exists key :: Repelled(inc, p, key))
    || (MatchesAll(inc.affinity, inc.pod) && MatchesAll(inc.affinity, p.pod))
  }

  lemma StillPresent(nodes: Snapshot, k: nat, j: nat, a: int, b: int)
    requires k < |nodes| && j < |nodes[k].pods|
    ensures var nodes', b' := WithoutPod(nodes, k, j), if a == k && b > j then b - 1 else b;
            Present(nodes, a, b) && !(a == k && b == j) ==>
              Present(nodes', a, b') && nodes'[a].pods[b'] == nodes[a].pods[b] && nodes'[a].node == nodes[a].node
    ensures var nodes', b' := WithoutPod(nodes, k, j), if a == k && b >= j then b + 1 else b;
            Present(nodes', a, b) ==>
              Present(nodes, a, b') && nodes'[a].pods[b] == nodes[a].pods[b'] && nodes'[a].node == nodes[a].node
  {
  }

  lemma UnrelatedDelete(inc: Incoming, nodes: Snapshot, k: nat, j: nat, target: Node)
    requires k < |nodes| && j < |nodes[k].pods| && !Related(inc, nodes[k].pods[j])
    requires Accepts(inc, WithoutPod(nodes, k, j), target)
    ensures Accepts(inc, nodes, target)
  {
    var nodes' := WithoutPod(nodes, k, j);
    AcceptsPodByPod(inc, nodes, target);
    AcceptsPodByPod(inc, nodes', target);
    forall a, b | Present(nodes, a, b) ensures !InTheWay(inc, nodes[a].pods[b], nodes[a].node, target) {
      StillPresent(nodes, k, j, a, b);
    }
    forall key | HasCompanion(inc, nodes', target, key) ensures HasCompanion(inc, nodes, target, key) {
      var a, b :| Present(nodes', a, b) && MatchesAll(inc.affinity, nodes'[a].pods[b].pod) &&
        SameDomain(nodes'[a].node, target, key);
      StillPresent(nodes, k, j, a, b);
    }
    if SeriesStarted(inc, nodes) && MatchesAll(inc.affinity, inc.pod) {
      var a, b, t :| Present(nodes, a, b) && MatchesAll(inc.affinity, nodes[a].pods[b].pod) &&
        t in inc.affinity && t.topologyKey in nodes[a].node.labels;
      StillPresent(nodes, k, j, a, b);
      assert SeriesStarted(inc, nodes');
    }
  }

  /** A cluster that takes the incoming pod, and one more node in a domain of the
      target with the pod that is in the way. */
  lemma RepelledDelete(inc: Incoming, p: PodInfo, key: string)
    requires Repelled(inc, p, key) && Placeable(inc)
    ensures DeleteMatters(inc, p)
  {
    var nodes: Snapshot, target :| Accepts(inc, nodes, target);
    var target' := target;
    if key !in target.labels {
      var f := FreshValue(KeyValues(key, nodes));
      FreshKeyIsNothing(inc, nodes, target, key, f);
      target' := MovedTo(target, key, f);
    }
    var v := target'.labels[key];
    RepelledOnNewNode(inc, p, key, nodes, target');
    assert DeleteAdmits(inc, nodes + [NodeWith(key, v, [p])], |nodes|, 0, target');
  }

  lemma RepelledOnNewNode(inc: Incoming, p: PodInfo, key: string, nodes: Snapshot, target: Node)
    requires Repelled(inc, p, key) && Accepts(inc, nodes, target) && key in target.labels
    ensures var full := nodes + [NodeWith(key, target.labels[key], [p])];
            !Accepts(inc, full, target) && Accepts(inc, WithoutPod(full, |nodes|, 0), target)
  {
    var ni := NodeWith(key, target.labels[key], [p]);
    var full := nodes + [ni];
    assert [p][..0] + [p][1..] == [];
    assert WithoutPod(full, |nodes|, 0) == nodes + [NodeWith(key, target.labels[key], [])];
    EmptyNodeIsNothing(inc, nodes, NodeWith(key, target.labels[key], []), target);
    AcceptsPodByPod(inc, full, target);
    assert Present(full, |nodes|, 0) && full[|nodes|] == ni && SameDomain(ni.node, target, key);
    assert InTheWay(inc, p, ni.node, target);
  }

  /** A lone companion in one domain, and a target in another. */
  lemma LoneCompanionRejects(inc: Incoming, p: PodInfo)
    requires MatchesAll(inc.affinity, inc.pod) && MatchesAll(inc.affinity, p.pod)
    ensures var key := inc.affinity[0].topologyKey;
            !Accepts(inc, [NodeInfo(NodeIn(inc, key, "there"), [p])], NodeIn(inc, key, "here"))
  {
    var key := inc.affinity[0].topologyKey;
    var nodes := [NodeInfo(NodeIn(inc, key, "there"), [p])];
    assert inc.affinity[0] in inc.affinity && Present(nodes, 0, 0) && nodes[0].pods[0] == p;
    assert SeriesStarted(inc, nodes);
    assert !HasCompanion(inc, nodes, NodeIn(inc, key, "here"), key);
  }

  lemma CompanionDelete(inc: Incoming, p: PodInfo)
    requires MatchesAll(inc.affinity, inc.pod) && MatchesAll(inc.affinity, p.pod)
    ensures DeleteMatters(inc, p)
  {
    var key := inc.affinity[0].topologyKey;
    var nodes := [NodeInfo(NodeIn(inc, key, "there"), [p])];
    LoneCompanionRejects(inc, p);
    PodlessAccepts(inc, WithoutPod(nodes, 0, 0), key, "here");
    assert DeleteAdmits(inc, nodes, 0, 0, NodeIn(inc, key, "here"));
  }

  /** Which deletions can admit the incoming pod: those of pods related to it,
      provided some cluster takes it at all. */
  lemma DeleteMattersIfRelated(inc: Incoming, p: PodInfo)
    ensures DeleteMatters(inc, p) <==> Related(inc, p) && Placeable(inc)
  {
    if DeleteMatters(inc, p) {
      var nodes: Snapshot, k: nat, j: nat, target :| DeleteAdmits(inc, nodes, k, j, target) && nodes[k].pods[j] == p;
      if !Related(inc, p) {
        UnrelatedDelete(inc, nodes, k, j, target);
      }
    }
    if Related(inc, p) && Placeable(inc) {
      if key :| Repelled(inc, p, key) {
        RepelledDelete(inc, p, key);
      } else {
        CompanionDelete(inc, p);
      }
    }
  }

  /** Which of these the hint misses: exactly those of pods that not all
      anti-affinity terms select. */
  lemma SkippedDeleteExact(w: Written, p: PodInfo)
    requires p.pod.nodeName != ""
    ensures DeleteMatters(w.Resolved(), p) && IsSchedulableAfterPodChange(w, Deleted(p.pod)).QueueSkip? <==>
            Related(w.Resolved(), p) && Placeable(w.Resolved()) && !MatchesAll(w.antiAffinity, p.pod)
  {
    DeleteMattersIfRelated(w.Resolved(), p);
  }

  /** A pod without affinity terms, or selected by its own, can be placed. */
  lemma MayComeFirst(inc: Incoming)
    requires inc.affinity == [] || MatchesAll(inc.affinity, inc.pod)
    ensures Placeable(inc)
  {
    PodlessAccepts(inc, [], "", "");
  }

  /** Such deletions exist: the pod has a term against its namespace's "a" and
      one against its "b", and an "a" is deleted. */
  lemma OneOfTwoTermsIsMissed(pod: Pod, p: PodInfo, a: AffinityTerm, b: AffinityTerm)
    requires a == AffinityTerm({p.pod.namespace}, Nothing, Requirements({In("app", {"a"})}), "zone")
    requires b == AffinityTerm({p.pod.namespace}, Nothing, Requirements({In("app", {"b"})}), "zone")
    requires p.pod.labels == map["app" := "a"] && p.pod.nodeName != ""
    ensures var w := Written(pod, [], [a, b], map[]);
            DeleteMatters(w.Resolved(), p) && IsSchedulableAfterPodChange(w, Deleted(p.pod)).QueueSkip?
  {
    var w := Written(pod, [], [a, b], map[]);
    OnlyOneTermSelects(w, p.pod, a, b);
    assert Repelled(w.Resolved(), p, "zone");
    MayComeFirst(w.Resolved());
    SkippedDeleteExact(w, p);
  }

  lemma OnlyOneTermSelects(w: Written, p: Pod, a: AffinityTerm, b: AffinityTerm)
    requires a == AffinityTerm({p.namespace}, Nothing, Requirements({In("app", {"a"})}), "zone")
    requires b == AffinityTerm({p.namespace}, Nothing, Requirements({In("app", {"b"})}), "zone")
    requires w.antiAffinity == [a, b]
    ensures p.labels == map["app" := "a"] ==>
              !MatchesAll(w.antiAffinity, p) &&
              exists t :: t in w.Resolved().antiAffinity && t.Matches(p, map[]) && t.topologyKey == "zone"
    ensures p.labels == map["app" := "c"] ==> forall t | t in w.Resolved().antiAffinity :: !t.Matches(p, map[])
  {
    UnrolledMembers(w.antiAffinity, w.lister);
    assert a in w.antiAffinity && b in w.antiAffinity;
    assert In("app", {"a"}) in a.selector.reqs && In("app", {"b"}) in b.selector.reqs;
    if p.labels == map["app" := "a"] {
      assert Unrolled(a, w.lister).Matches(p, map[]);
    }
  }

  // ---- Additions ----

  /** Adding `p` on node `k` makes the target acceptable. */
  ghost predicate AddAdmits(inc: Incoming, nodes: Snapshot, k: nat, p: PodInfo, target: Node) {
    && k < |nodes|
    && !Accepts(inc, nodes, target) && Accepts(inc, WithPod(nodes, k, p), target)
  }

  ghost predicate AddMatters(inc: Incoming, p: PodInfo) {
    exists nodes: Snapshot, k: nat, target :: AddAdmits(inc, nodes, k, p, target)
  }

  /** The incoming pod needs company like `p`, and some cluster takes it beside `p`
      in a domain in which it needs company. */
  ghost predicate GoodCompany(inc: Incoming, p: PodInfo) {
    && MatchesAll(inc.affinity, p.pod)
    && exists t :: t in inc.affinity && PlaceableBeside(inc, p, t.topologyKey)
  }

  lemma AddedPresent(nodes: Snapshot, k: nat, p: PodInfo, a: int, b: int)
    requires k < |nodes|
    ensures var nodes' := WithPod(nodes, k, p);
            && (Present(nodes, a, b) ==>
                 Present(nodes', a, b) && nodes'[a].pods[b] == nodes[a].pods[b] && nodes'[a].node == nodes[a].node)
            && (Present(nodes', a, b) && !Present(nodes, a, b) ==>
                 a == k && b == |nodes[k].pods| && nodes'[a].pods[b] == p)
  {
  }

  lemma AdmittingAddIsGoodCompany(inc: Incoming, nodes: Snapshot, k: nat, p: PodInfo, target: Node)
    requires AddAdmits(inc, nodes, k, p, target)
    ensures GoodCompany(inc, p)
  {
    var nodes' := WithPod(nodes, k, p);
    var j := |nodes[k].pods|;
    AddKeepsTheRest(inc, nodes, k, p, target);
    var t :| t in inc.affinity && HasCompanion(inc, nodes', target, t.topologyKey) &&
      !HasCompanion(inc, nodes, target, t.topologyKey);
    var a, b :| Present(nodes', a, b) && MatchesAll(inc.affinity, nodes'[a].pods[b].pod) &&
      SameDomain(nodes'[a].node, target, t.topologyKey);
    AddedPresent(nodes, k, p, a, b);
    assert AcceptedBeside(inc, p, t.topologyKey, nodes', k, j, target);
  }

  /** Whoever was in the way, and a series that was started, are still there. */
  lemma AddKeepsTheRest(inc: Incoming, nodes: Snapshot, k: nat, p: PodInfo, target: Node)
    requires AddAdmits(inc, nodes, k, p, target)
    ensures !AffinityOk(inc, nodes, target)
    ensures SeriesStarted(inc, nodes) ==> SeriesStarted(inc, WithPod(nodes, k, p))
  {
    var nodes' := WithPod(nodes, k, p);
    AcceptsPodByPod(inc, nodes, target);
    AcceptsPodByPod(inc, nodes', target);
    forall a, b | Present(nodes, a, b) ensures !InTheWay(inc, nodes[a].pods[b], nodes[a].node, target) {
      AddedPresent(nodes, k, p, a, b);
    }
    if SeriesStarted(inc, nodes) {
      var a, b, t :| Present(nodes, a, b) && MatchesAll(inc.affinity, nodes[a].pods[b].pod) &&
        t in inc.affinity && t.topologyKey in nodes[a].node.labels;
      AddedPresent(nodes, k, p, a, b);
    }
  }

  /** The target moved to a new domain of the key `t` is about, and a new node
      there: without company the target is rejected ... */
  lemma NewDomainRejects(inc: Incoming, p: PodInfo, t: AffinityTerm, nodes: Snapshot, i: int, j: int, target: Node,
      f: string, pods: seq<PodInfo>)
    requires t in inc.affinity && MatchesAll(inc.affinity, p.pod)
    requires AcceptedBeside(inc, p, t.topologyKey, nodes, i, j, target) && f !in KeyValues(t.topologyKey, nodes)
    requires forall q | q in pods :: !MatchesAll(inc.affinity, q.pod)
    ensures !Accepts(inc, nodes + [NodeWith(t.topologyKey, f, pods)], MovedTo(target, t.topologyKey, f))
  {
    var key := t.topologyKey;
    var all, target' := nodes + [NodeWith(key, f, pods)], MovedTo(target, key, f);
    assert Present(all, i, j) && all[i] == nodes[i];
    assert SeriesStarted(inc, all);
    forall a, b | Present(all, a, b) && MatchesAll(inc.affinity, all[a].pods[b].pod)
      ensures !SameDomain(all[a].node, target', key)
    {
      PresentBeforeNew(nodes, NodeWith(key, f, pods), a, b);
      if a < |nodes| && key in nodes[a].node.labels {
        assert nodes[a].node.labels[key] in KeyValues(key, nodes);
      }
    }
    assert !HasCompanion(inc, all, target', key);
  }

  /** ... and with `p` there it is accepted. */
  lemma NewDomainAccepts(inc: Incoming, p: PodInfo, t: AffinityTerm, nodes: Snapshot, i: int, j: int, target: Node,
      f: string)
    requires t in inc.affinity && MatchesAll(inc.affinity, p.pod)
    requires AcceptedBeside(inc, p, t.topologyKey, nodes, i, j, target) && f !in KeyValues(t.topologyKey, nodes)
    ensures Accepts(inc, nodes + [NodeWith(t.topologyKey, f, [p])], MovedTo(target, t.topologyKey, f))
  {
    var key := t.topologyKey;
    var ni := NodeWith(key, f, [p]);
    var all, target' := nodes + [ni], MovedTo(target, key, f);
    NobodyNewInTheWay(inc, p, key, nodes, i, j, target, f);
    AcceptsPodByPod(inc, all, target');
    assert SeriesStarted(inc, nodes);
    assert Present(all, |nodes|, 0) && all[|nodes|] == ni;
    forall u | u in inc.affinity ensures HasCompanion(inc, all, target', u.topologyKey) {
      if u.topologyKey == key {
        assert SameDomain(ni.node, target', key);
      } else {
        var a, b :| Present(nodes, a, b) && MatchesAll(inc.affinity, nodes[a].pods[b].pod) &&
          SameDomain(nodes[a].node, target, u.topologyKey);
        assert Present(all, a, b) && all[a] == nodes[a];
      }
    }
  }

  lemma NobodyNewInTheWay(inc: Incoming, p: PodInfo, key: string, nodes: Snapshot, i: int, j: int, target: Node,
      f: string)
    requires AcceptedBeside(inc, p, key, nodes, i, j, target) && f !in KeyValues(key, nodes)
    ensures var all := nodes + [NodeWith(key, f, [p])];
            forall a, b | Present(all, a, b) :: !InTheWay(inc, all[a].pods[b], all[a].node, MovedTo(target, key, f))
  {
    var ni := NodeWith(key, f, [p]);
    var all, target' := nodes + [ni], MovedTo(target, key, f);
    AcceptsPodByPod(inc, nodes, target);
    forall a, b | Present(all, a, b) ensures !InTheWay(inc, all[a].pods[b], all[a].node, target') {
      if Present(nodes, a, b) {
        NothingNewInTheWay(inc, nodes, nodes[a].pods[b], a, target, key, f);
      } else {
        PresentBeforeNew(nodes, ni, a, b);
        assert !InTheWay(inc, p, nodes[i].node, target);
      }
    }
  }

  lemma NothingNewInTheWay(inc: Incoming, nodes: Snapshot, p: PodInfo, a: int, target: Node, key: string, f: string)
    requires 0 <= a < |nodes| && f !in KeyValues(key, nodes) && !InTheWay(inc, p, nodes[a].node, target)
    ensures !InTheWay(inc, p, nodes[a].node, MovedTo(target, key, f))
  {
    if key in nodes[a].node.labels {
      assert nodes[a].node.labels[key] in KeyValues(key, nodes);
    }
    forall k | SameDomain(nodes[a].node, MovedTo(target, key, f), k) ensures !Repelled(inc, p, k) {
      assert SameDomain(nodes[a].node, target, k);
    }
  }

  /** Good company shown: a cluster with one more node, on which `p` makes the
      difference to pods that are no company. */
  lemma NewDomain(inc: Incoming, p: PodInfo, pods: seq<PodInfo>)
      returns (nodes: Snapshot, key: string, f: string, target: Node)
    requires GoodCompany(inc, p) && forall q | q in pods :: !MatchesAll(inc.affinity, q.pod)
    ensures !Accepts(inc, nodes + [NodeWith(key, f, pods)], target)
    ensures Accepts(inc, nodes + [NodeWith(key, f, [p])], target)
  {
    var t :| t in inc.affinity && PlaceableBeside(inc, p, t.topologyKey);
    var nodes2: Snapshot, i, j, target2 :| AcceptedBeside(inc, p, t.topologyKey, nodes2, i, j, target2);
    nodes, key := nodes2, t.topologyKey;
    f := FreshValue(KeyValues(key, nodes));
    target := MovedTo(target2, key, f);
    NewDomainRejects(inc, p, t, nodes, i, j, target2, f, pods);
    NewDomainAccepts(inc, p, t, nodes, i, j, target2, f);
  }

  lemma PodOnNewNode(nodes: Snapshot, key: string, f: string, p: PodInfo, q: PodInfo)
    ensures WithPod(nodes + [NodeWith(key, f, [])], |nodes|, p) == nodes + [NodeWith(key, f, [p])]
    ensures Replaced(nodes + [NodeWith(key, f, [p])], |nodes|, 0, q) == nodes + [NodeWith(key, f, [q])]
  {
    assert [] + [p] == [p] && [p][0 := q] == [q];
  }

  /** Which additions can admit the incoming pod: those of good company. */
  lemma AddMattersIfGoodCompany(inc: Incoming, p: PodInfo)
    ensures AddMatters(inc, p) <==> GoodCompany(inc, p)
  {
    if AddMatters(inc, p) {
      var nodes: Snapshot, k: nat, target :| AddAdmits(inc, nodes, k, p, target);
      AdmittingAddIsGoodCompany(inc, nodes, k, p, target);
    }
    if GoodCompany(inc, p) {
      var nodes, key, f, target := NewDomain(inc, p, []);
      PodOnNewNode(nodes, key, f, p, p);
      assert AddAdmits(inc, nodes + [NodeWith(key, f, [])], |nodes|, p, target);
    }
  }

  /** Reading the term without namespace labels misses or invents a match: the
      pod's namespace is not listed and its own labels decide otherwise. */
  predicate Misread(t: AffinityTerm, lister: Lister, p: Pod) {
    && t.selector.Matches(p.labels) && p.namespace !in t.namespaces && !t.namespaceSelector.Empty()
    && (p.namespace in lister && t.namespaceSelector.Matches(lister[p.namespace])) != t.namespaceSelector.Matches(map[])
  }

  lemma MisreadExact(t: AffinityTerm, lister: Lister, p: Pod)
    ensures (t.Matches(p, map[]) <==> Unrolled(t, lister).Matches(p, map[])) <==> !Misread(t, lister, p)
  {
  }

  /** Without misread terms the hint sees whether a pod is company. */
  lemma HintSeesCompany(w: Written, p: Pod)
    requires forall t | t in w.affinity :: !Misread(t, w.lister, p)
    ensures MatchesAll(w.affinity, p) <==> MatchesAll(w.Resolved().affinity, p)
  {
    UnrolledMembers(w.affinity, w.lister);
    forall t | t in w.affinity ensures t.Matches(p, map[]) <==> Unrolled(t, w.lister).Matches(p, map[]) {
      MisreadExact(t, w.lister, p);
    }
  }

  /** Which of these the hint misses: exactly those that the merged terms, read
      without namespace labels, do not all select; none without misread terms. */
  lemma SkippedAddExact(w: Written, p: PodInfo)
    requires p.pod.nodeName != ""
    ensures AddMatters(w.Resolved(), p) && IsSchedulableAfterPodChange(w, Added(p.pod)).QueueSkip? <==>
            GoodCompany(w.Resolved(), p) && !MatchesAll(w.affinity, p.pod)
    ensures (forall t | t in w.affinity :: !Misread(t, w.lister, p.pod)) && AddMatters(w.Resolved(), p) ==>
              IsSchedulableAfterPodChange(w, Added(p.pod)).Queue?
  {
    AddMattersIfGoodCompany(w.Resolved(), p);
    if forall t | t in w.affinity :: !Misread(t, w.lister, p.pod) {
      HintSeesCompany(w, p.pod);
    }
  }

  /** Such additions exist: company is asked for from the namespaces of a team,
      and the pod added is in one of them. */
  lemma TeamMemberIsMissed(pod: Pod, p: PodInfo, t: AffinityTerm)
    requires t == AffinityTerm({}, Requirements({In("team", {"x"})}), Requirements({}), "zone")
    requires p.requiredAntiAffinityTerms == [] && p.pod.nodeName != ""
    ensures var w := Written(pod, [t], [], map[p.pod.namespace := map["team" := "x"]]);
            AddMatters(w.Resolved(), p) && IsSchedulableAfterPodChange(w, Added(p.pod)).QueueSkip?
  {
    var w := Written(pod, [t], [], map[p.pod.namespace := map["team" := "x"]]);
    assert In("team", {"x"}) in t.namespaceSelector.reqs;
    assert p.pod.namespace in Listed(w.lister, t.namespaceSelector);
    assert w.Resolved().affinity == [Unrolled(t, w.lister)] && t in w.affinity;
    var node := Node("node", map["zone" := "here"], []);
    LoneCompanionAccepts(w.Resolved(), p, node);
    assert AcceptedBeside(w.Resolved(), p, "zone", [NodeInfo(node, [p])], 0, 0, node);
    SkippedAddExact(w, p);
  }

  lemma LoneCompanionAccepts(inc: Incoming, p: PodInfo, node: Node)
    requires MatchesAll(inc.affinity, p.pod) && forall t | t in inc.affinity :: t.topologyKey in node.labels
    requires forall key :: !Repelled(inc, p, key)
    ensures Accepts(inc, [NodeInfo(node, [p])], node)
  {
    var nodes := [NodeInfo(node, [p])];
    AcceptsPodByPod(inc, nodes, node);
    assert Present(nodes, 0, 0) && nodes[0].pods[0] == p;
  }

  // ---- Updates ----

  /** The update of pod `j` of node `k` to `q` makes the target acceptable. */
  ghost predicate UpdateAdmits(inc: Incoming, nodes: Snapshot, k: nat, j: nat, q: PodInfo, target: Node) {
    && k < |nodes| && j < |nodes[k].pods|
    && !Accepts(inc, nodes, target) && Accepts(inc, Replaced(nodes, k, j, q), target)
  }

  ghost predicate UpdateMatters(inc: Incoming, p: PodInfo, q: PodInfo) {
    exists nodes: Snapshot, k: nat, j: nat, target ::
      UpdateAdmits(inc, nodes, k, j, q, target) && nodes[k].pods[j] == p
  }

  /** The pod gets out of the way in some domain, though not by leaving it. */
  ghost predicate Yields(inc: Incoming, p: PodInfo, q: PodInfo) {
    exists key :: Repelled(inc, p, key) && PlaceableBeside(inc, q, key)
  }

  /** The pod ends a series that the incoming pod can start anew. */
  ghost predicate EndsSeries(inc: Incoming, p: PodInfo, q: PodInfo) {
    MatchesAll(inc.affinity, inc.pod) && MatchesAll(inc.affinity, p.pod) && !MatchesAll(inc.affinity, q.pod)
  }

  ghost predicate UpdateHelps(inc: Incoming, p: PodInfo, q: PodInfo) {
    || Yields(inc, p, q)
    || (GoodCompany(inc, q) && !MatchesAll(inc.affinity, p.pod))
    || EndsSeries(inc, p, q)
  }

  lemma ReplacedPresent(nodes: Snapshot, k: nat, j: nat, q: PodInfo, a: int, b: int)
    requires k < |nodes| && j < |nodes[k].pods|
    ensures var nodes' := Replaced(nodes, k, j, q);
            && (Present(nodes', a, b) <==> Present(nodes, a, b))
            && (Present(nodes, a, b) ==>
                 && nodes'[a].node == nodes[a].node
                 && nodes'[a].pods[b] == if a == k && b == j then q else nodes[a].pods[b])
  {
  }

  lemma AdmittingUpdateHelps(inc: Incoming, nodes: Snapshot, k: nat, j: nat, q: PodInfo, target: Node)
    requires UpdateAdmits(inc, nodes, k, j, q, target)
    ensures UpdateHelps(inc, nodes[k].pods[j], q)
  {
    var nodes', p := Replaced(nodes, k, j, q), nodes[k].pods[j];
    AcceptsPodByPod(inc, nodes, target);
    AcceptsPodByPod(inc, nodes', target);
    ReplacedPresent(nodes, k, j, q, k, j);
    if key :| Repelled(inc, p, key) && SameDomain(nodes[k].node, target, key) {
      assert AcceptedBeside(inc, q, key, nodes', k, j, target);
    } else {
      forall a, b | Present(nodes, a, b) ensures !InTheWay(inc, nodes[a].pods[b], nodes[a].node, target) {
        ReplacedPresent(nodes, k, j, q, a, b);
      }
      AdmittingUpdateGathers(inc, nodes, k, j, q, target);
    }
  }

  lemma AdmittingUpdateGathers(inc: Incoming, nodes: Snapshot, k: nat, j: nat, q: PodInfo, target: Node)
    requires UpdateAdmits(inc, nodes, k, j, q, target) && !AffinityOk(inc, nodes, target)
    ensures UpdateHelps(inc, nodes[k].pods[j], q)
  {
    var nodes' := Replaced(nodes, k, j, q);
    if t :| t in inc.affinity && HasCompanion(inc, nodes', target, t.topologyKey) &&
            !HasCompanion(inc, nodes, target, t.topologyKey) {
      var a, b :| Present(nodes', a, b) && MatchesAll(inc.affinity, nodes'[a].pods[b].pod) &&
        SameDomain(nodes'[a].node, target, t.topologyKey);
      ReplacedPresent(nodes, k, j, q, a, b);
      assert AcceptedBeside(inc, q, t.topologyKey, nodes', k, j, target);
    } else {
      assert !SeriesStarted(inc, nodes') && MatchesAll(inc.affinity, inc.pod);
      var a, b, t :| Present(nodes, a, b) && MatchesAll(inc.affinity, nodes[a].pods[b].pod) &&
        t in inc.affinity && t.topologyKey in nodes[a].node.labels;
      ReplacedPresent(nodes, k, j, q, a, b);
    }
  }

  lemma ReplacedBack(nodes: Snapshot, k: nat, j: nat, p: PodInfo)
    requires k < |nodes| && j < |nodes[k].pods|
    ensures var nodes' := Replaced(nodes, k, j, p);
            && Present(nodes', k, j) && nodes'[k].pods[j] == p && nodes'[k].node == nodes[k].node
            && Replaced(nodes', k, j, nodes[k].pods[j]) == nodes
  {
    assert nodes[k].pods[j := p][j := nodes[k].pods[j]] == nodes[k].pods;
  }

  lemma InTheWayRejects(inc: Incoming, nodes: Snapshot, i: int, j: int, key: string, target: Node)
    requires Present(nodes, i, j) && Repelled(inc, nodes[i].pods[j], key) && SameDomain(nodes[i].node, target, key)
    ensures !Accepts(inc, nodes, target)
  {
    AcceptsPodByPod(inc, nodes, target);
    assert InTheWay(inc, nodes[i].pods[j], nodes[i].node, target);
  }

  lemma YieldingUpdate(inc: Incoming, p: PodInfo, q: PodInfo)
    requires Yields(inc, p, q)
    ensures UpdateMatters(inc, p, q)
  {
    var key :| Repelled(inc, p, key) && PlaceableBeside(inc, q, key);
    var nodes: Snapshot, i, j, target :| AcceptedBeside(inc, q, key, nodes, i, j, target);
    var before := Replaced(nodes, i, j, p);
    ReplacedBack(nodes, i, j, p);
    InTheWayRejects(inc, before, i, j, key, target);
    assert UpdateAdmits(inc, before, i, j, q, target);
  }

  lemma GatheringUpdate(inc: Incoming, p: PodInfo, q: PodInfo)
    requires GoodCompany(inc, q) && !MatchesAll(inc.affinity, p.pod)
    ensures UpdateMatters(inc, p, q)
  {
    var nodes, key, f, target := NewDomain(inc, q, [p]);
    var before := nodes + [NodeWith(key, f, [p])];
    PodOnNewNode(nodes, key, f, p, q);
    assert UpdateAdmits(inc, before, |nodes|, 0, q, target);
  }

  lemma EndingUpdate(inc: Incoming, p: PodInfo, q: PodInfo)
    requires EndsSeries(inc, p, q)
    ensures UpdateMatters(inc, p, q)
  {
    var key := inc.affinity[0].topologyKey;
    var there, here := NodeIn(inc, key, "there"), NodeIn(inc, key, "here");
    var before, after := [NodeInfo(there, [p])], [NodeInfo(there, [q])];
    LoneCompanionRejects(inc, p);
    AcceptsPodByPod(inc, after, here);
    assert forall k :: !SameDomain(there, here, k);
    assert [p][0 := q] == [q];
    assert Replaced(before, 0, 0, q) == after;
    assert UpdateAdmits(inc, before, 0, 0, q, here);
  }

  /** Which updates can admit the incoming pod. */
  lemma UpdateMattersIfHelps(inc: Incoming, p: PodInfo, q: PodInfo)
    ensures UpdateMatters(inc, p, q) <==> UpdateHelps(inc, p, q)
  {
    if UpdateMatters(inc, p, q) {
      var nodes: Snapshot, k: nat, j: nat, target :|
        UpdateAdmits(inc, nodes, k, j, q, target) && nodes[k].pods[j] == p;
      AdmittingUpdateHelps(inc, nodes, k, j, q, target);
    }
    if Yields(inc, p, q) {
      YieldingUpdate(inc, p, q);
    } else if EndsSeries(inc, p, q) {
      EndingUpdate(inc, p, q);
    } else if UpdateHelps(inc, p, q) {
      GatheringUpdate(inc, p, q);
    }
  }

  /** Which of these the hint misses: all but those after which the merged terms
      select the pod as company for the first time, or no longer all repel it.
      Without misread terms, the missed ones yield or end a series. */
  lemma SkippedUpdateExact(w: Written, p: PodInfo, q: PodInfo)
    requires p.pod.nodeName != "" && q.pod.nodeName != ""
    ensures var inc := w.Resolved();
            UpdateMatters(inc, p, q) && IsSchedulableAfterPodChange(w, Updated(p.pod, q.pod)).QueueSkip? <==>
            && UpdateHelps(inc, p, q)
            && (MatchesAll(w.affinity, q.pod) ==> MatchesAll(w.affinity, p.pod))
            && (MatchesAll(w.antiAffinity, p.pod) ==> MatchesAll(w.antiAffinity, q.pod))
    ensures var inc := w.Resolved();
            (forall t | t in w.affinity :: !Misread(t, w.lister, p.pod) && !Misread(t, w.lister, q.pod)) &&
            UpdateMatters(inc, p, q) && IsSchedulableAfterPodChange(w, Updated(p.pod, q.pod)).QueueSkip? ==>
              Yields(inc, p, q) || EndsSeries(inc, p, q)
  {
    UpdateMattersIfHelps(w.Resolved(), p, q);
    if forall t | t in w.affinity :: !Misread(t, w.lister, p.pod) && !Misread(t, w.lister, q.pod) {
      HintSeesCompany(w, p.pod);
      HintSeesCompany(w, q.pod);
    }
  }

  /** Such updates exist: with the two terms above, an "a" becomes a "c". */
  lemma OneOfTwoTermsLetsGo(pod: Pod, p: PodInfo, q: PodInfo, a: AffinityTerm, b: AffinityTerm)
    requires a == AffinityTerm({p.pod.namespace}, Nothing, Requirements({In("app", {"a"})}), "zone")
    requires b == AffinityTerm({p.pod.namespace}, Nothing, Requirements({In("app", {"b"})}), "zone")
    requires p.pod.labels == map["app" := "a"] && p.pod.nodeName != ""
    requires q == p.(pod := p.pod.(labels := map["app" := "c"])) && p.requiredAntiAffinityTerms == []
    ensures var w := Written(pod, [], [a, b], map[]);
            UpdateMatters(w.Resolved(), p, q) && IsSchedulableAfterPodChange(w, Updated(p.pod, q.pod)).QueueSkip?
  {
    var w := Written(pod, [], [a, b], map[]);
    var inc, node := w.Resolved(), Node("node", map["zone" := "here"], []);
    OnlyOneTermSelects(w, p.pod, a, b);
    OnlyOneTermSelects(w, q.pod, a, b);
    AcceptsPodByPod(inc, [NodeInfo(node, [q])], node);
    assert forall key :: !Repelled(inc, q, key);
    assert AcceptedBeside(inc, q, "zone", [NodeInfo(node, [q])], 0, 0, node);
    assert Repelled(inc, p, "zone");
    SkippedUpdateExact(w, p, q);
  }
}
