/** When the queueing hints of the topology spread plugin ask for a retry: for the
    events that change a count, or that could, and exactly which others. */
module SpreadHints {
  import opened Labels
  import opened Cluster
  import opened Hints
  import opened NodeSelectors
  import opened SpreadCommon
  import opened SpreadDefs
  import opened SpreadPlugin
  import opened SpreadRefinement

  /** Some constraint counts differently. */
  ghost predicate CountsChange(e: Env, nodes: Snapshot, nodes': Snapshot) {
    exists i :: 0 <= i < |e.constraints| && CountMap(e, i, nodes) != CountMap(e, i, nodes')
  }

  // ---- Pods ----

  /** A constraint whose selector tells the two label sets apart counts the pod
      under neither: it does not spread over the node, its selector is empty, or
      the pod is terminating. */
  ghost predicate Unnoticed(e: Env, q: Pod, node: Node, tells: Selector -> bool) {
    && q.namespace == e.profile.namespace
    && exists i :: 0 <= i < |e.constraints| && tells(e.constraints[i].selector) &&
         (!Eligible(e, i, node) || e.constraints[i].selector.Empty() || q.terminating)
  }

  /** A retry after a pod was added: its node's counts changed, or a constraint
      selects it without noticing it. */
  lemma PodAddQueued(e: Env, target: Pod, nodes: Snapshot, k: nat, p: PodInfo)
    requires k < |nodes| && e.profile.namespace == target.namespace
    requires p.pod.uid != target.uid && p.pod.nodeName != ""
    ensures IsSchedulableAfterPodChange(e.constraints, target, Added(p.pod)).Queue? <==>
            || CountsChange(e, nodes, WithPod(nodes, k, p))
            || Unnoticed(e, p.pod, nodes[k].node, (s: Selector) => s.Matches(p.pod.labels))
  {
    forall i | 0 <= i < |e.constraints|
      ensures CountMap(e, i, nodes) == CountMap(e, i, WithPod(nodes, k, p)) <==>
              !Eligible(e, i, nodes[k].node) || e.constraints[i].selector.Empty() ||
              !Counted(p.pod, e.constraints[i].selector, target.namespace)
    {
      PodCountOfOneMore(nodes[k].pods, p, e.constraints[i].selector, target.namespace);
      SameCountsIffSameDelta(e, i, nodes, k, nodes[k].pods + [p]);
    }
  }

  /** A retry after a pod was deleted, likewise. */
  lemma PodDeleteQueued(e: Env, target: Pod, nodes: Snapshot, k: nat, j: nat)
    requires k < |nodes| && j < |nodes[k].pods| && e.profile.namespace == target.namespace
    requires nodes[k].pods[j].pod.uid != target.uid && nodes[k].pods[j].pod.nodeName != ""
    ensures var q := nodes[k].pods[j].pod;
            IsSchedulableAfterPodChange(e.constraints, target, Deleted(q)).Queue? <==>
            || CountsChange(e, nodes, WithoutPod(nodes, k, j))
            || Unnoticed(e, q, nodes[k].node, (s: Selector) => s.Matches(q.labels))
  {
    var q := nodes[k].pods[j].pod;
    forall i | 0 <= i < |e.constraints|
      ensures CountMap(e, i, nodes) == CountMap(e, i, WithoutPod(nodes, k, j)) <==>
              !Eligible(e, i, nodes[k].node) || e.constraints[i].selector.Empty() ||
              !Counted(q, e.constraints[i].selector, target.namespace)
    {
      PodCountOfOneLess(nodes[k].pods, j, e.constraints[i].selector, target.namespace);
      SameCountsIffSameDelta(e, i, nodes, k, nodes[k].pods[..j] + nodes[k].pods[j + 1..]);
    }
  }

  /** A retry after an assigned pod was updated that keeps its place and whether it
      is terminating: the counts changed, or a constraint selects only one of the
      two versions without noticing it. */
  lemma PodUpdateQueued(e: Env, target: Pod, nodes: Snapshot, k: nat, j: nat, p: PodInfo)
    requires k < |nodes| && j < |nodes[k].pods| && e.profile.namespace == target.namespace
    requires var q := nodes[k].pods[j].pod;
             && q.uid != target.uid && p.pod.uid == q.uid && q.nodeName != "" && p.pod.nodeName == q.nodeName
             && p.pod.namespace == q.namespace && p.pod.terminating == q.terminating
    ensures var q := nodes[k].pods[j].pod;
            IsSchedulableAfterPodChange(e.constraints, target, Updated(q, p.pod)).Queue? <==>
            || CountsChange(e, nodes, nodes[k := NodeInfo(nodes[k].node, nodes[k].pods[j := p])])
            || Unnoticed(e, q, nodes[k].node, (s: Selector) => s.Matches(q.labels) != s.Matches(p.pod.labels))
  {
    var q := nodes[k].pods[j].pod;
    forall i | 0 <= i < |e.constraints|
      ensures CountMap(e, i, nodes) == CountMap(e, i, nodes[k := NodeInfo(nodes[k].node, nodes[k].pods[j := p])]) <==>
              !Eligible(e, i, nodes[k].node) || e.constraints[i].selector.Empty() || q.terminating ||
              q.namespace != e.profile.namespace ||
              e.constraints[i].selector.Matches(q.labels) == e.constraints[i].selector.Matches(p.pod.labels)
    {
      ReplacedPodCounts(e, i, nodes, k, j, p);
    }
  }

  lemma ReplacedPodCounts(e: Env, i: nat, nodes: Snapshot, k: nat, j: nat, p: PodInfo)
    requires i < |e.constraints| && k < |nodes| && j < |nodes[k].pods|
    requires var q := nodes[k].pods[j].pod; p.pod.namespace == q.namespace && p.pod.terminating == q.terminating
    ensures var q, c := nodes[k].pods[j].pod, e.constraints[i];
            CountMap(e, i, nodes) == CountMap(e, i, nodes[k := NodeInfo(nodes[k].node, nodes[k].pods[j := p])]) <==>
            !Eligible(e, i, nodes[k].node) || c.selector.Empty() || q.terminating ||
            q.namespace != e.profile.namespace || c.selector.Matches(q.labels) == c.selector.Matches(p.pod.labels)
  {
    PodCountOfReplaced(nodes[k].pods, j, p, e.constraints[i].selector, e.profile.namespace);
    SameCountsIffSameDelta(e, i, nodes, k, nodes[k].pods[j := p]);
  }

  /** A pod on no node, other than the target, is in no snapshot: whatever happens
      to it, or before it is assigned, is no reason for a retry. */
  lemma UnassignedPodIsSkipped(constraints: seq<Constraint>, target: Pod, p: Pod, q: Pod)
    requires p.uid != target.uid && p.nodeName == ""
    ensures forall change | change in {Added(p), Deleted(p), Updated(p, q), Updated(q, p)} ::
              IsSchedulableAfterPodChange(constraints, target, change).QueueSkip?
  {
  }

  // ---- The target itself ----

  /** The target with other tolerations. */
  function Tolerating(e: Env, tolerations: seq<Toleration>): Env {
    e.(profile := e.profile.(tolerations := tolerations))
  }

  /** A skipped update of the target itself changes no verdict on it. */
  lemma SkippedTargetUpdateIsSafe(e: Env, original: Pod, modified: Pod, nodes: Snapshot, node: Node)
    requires original.uid == modified.uid && e.profile.tolerations == original.tolerations
    requires IsSchedulableAfterPodChange(e.constraints, original, Updated(original, modified)).QueueSkip?
    ensures Accepts(e, nodes, original.labels, node) <==>
            Accepts(Tolerating(e, modified.tolerations), nodes, modified.labels, node)
  {
    var e' := Tolerating(e, modified.tolerations);
    assert e.constraints == e'.constraints;
    forall i | 0 <= i < |e.constraints|
      ensures SkewOk(e, i, nodes, original.labels, node) <==> SkewOk(e', i, nodes, modified.labels, node)
    {
      SameTolerated(e, modified.tolerations, i, nodes);
      assert e.constraints[i].selector.Matches(original.labels) == e.constraints[i].selector.Matches(modified.labels);
    }
  }

  /** A constraint that ignores taints does not depend on the tolerations. */
  lemma SameTolerated(e: Env, tolerations: seq<Toleration>, i: nat, nodes: Snapshot)
    requires i < |e.constraints|
    requires tolerations == e.profile.tolerations || e.constraints[i].nodeTaintsPolicy.Ignore?
    ensures var e' := Tolerating(e, tolerations);
            && Domains(e, i, nodes) == Domains(e', i, nodes)
            && GlobalMin(e, i, nodes) == GlobalMin(e', i, nodes)
            && forall v :: DomainCount(e, i, v, nodes) == DomainCount(e', i, v, nodes)
  {
    var e' := Tolerating(e, tolerations);
    assert forall n: Node :: Eligible(e, i, n) == Eligible(e', i, n);
    forall v ensures DomainCount(e, i, v, nodes) == DomainCount(e', i, v, nodes) {
      SameShares(e, e', i, v, nodes);
    }
    assert CountMap(e, i, nodes) == CountMap(e', i, nodes);
  }

  lemma {:induction false} SameShares(e: Env, e': Env, i: nat, v: string, nodes: Snapshot)
    requires i < |e.constraints| && e.constraints == e'.constraints && e.profile.namespace == e'.profile.namespace
    requires forall n: Node :: Eligible(e, i, n) == Eligible(e', i, n)
    ensures DomainCount(e, i, v, nodes) == DomainCount(e', i, v, nodes)
  {
    if nodes != [] {
      SameShares(e, e', i, v, nodes[..|nodes| - 1]);
    }
  }

  /** One more pod would take the constraint beyond its skew. */
  ghost predicate AtLimit(e: Env, i: nat, nodes: Snapshot, node: Node)
    requires i < |e.constraints|
  {
    var c := e.constraints[i];
    && c.topologyKey in node.labels
    && DomainCount(e, i, node.labels[c.topologyKey], nodes) - GlobalMin(e, i, nodes) == c.maxSkew
  }

  /** A retry after the labels of the target changed: on a node where all the
      constraints are at their limit, one of them now decides otherwise. */
  lemma TargetLabelsQueued(e: Env, original: Pod, modified: Pod, nodes: Snapshot, node: Node)
    requires original.uid == modified.uid && original.tolerations == modified.tolerations
    requires forall i | 0 <= i < |e.constraints| :: AtLimit(e, i, nodes, node)
    ensures IsSchedulableAfterPodChange(e.constraints, original, Updated(original, modified)).Queue? <==>
            exists i :: 0 <= i < |e.constraints| &&
              SkewOk(e, i, nodes, original.labels, node) != SkewOk(e, i, nodes, modified.labels, node)
  {
    forall i, labels | 0 <= i < |e.constraints|
      ensures SkewOk(e, i, nodes, labels, node) <==> !e.constraints[i].selector.Matches(labels)
    {
      assert AtLimit(e, i, nodes, node);
      DomainCountBounds(e, i, node.labels[e.constraints[i].topologyKey], nodes);
    }
  }

  /** Whether some constraint spreads over a node depends on what is tolerated. */
  ghost predicate TaintsMatter(e: Env, node: Node) {
    exists i, taints, some, others :: 0 <= i < |e.constraints| &&
      Eligible(Tolerating(e, some), i, node.(taints := taints)) !=
      Eligible(Tolerating(e, others), i, node.(taints := taints))
  }

  /** A retry after only the tolerations of the target changed: they matter on a
      node that it would be spread over but for taints. */
  lemma TargetTolerationsQueued(e: Env, original: Pod, modified: Pod, node: Node)
    requires original.uid == modified.uid && original.labels == modified.labels
    requires original.tolerations != modified.tolerations
    requires e.inclusion && NodeLabelsMatch(e.constraints, node.labels)
    requires RequiredMatches(e.profile.nodeSelector, e.profile.affinity, node)
    ensures IsSchedulableAfterPodChange(e.constraints, original, Updated(original, modified)).Queue? <==>
            TaintsMatter(e, node)
  {
    var taint := Taint("dedicated", "", NoSchedule);
    var tainted := node.(taints := [taint]);
    assert tainted.taints[0] in tainted.taints;
    assert RequiredMatches(e.profile.nodeSelector, e.profile.affinity, tainted);
    var tolerant := [Toleration("", true, "", None)];
    assert tolerant[0] in tolerant && tolerant[0].Tolerates(taint);
    forall i | 0 <= i < |e.constraints| && e.constraints[i].nodeTaintsPolicy.Honor? ensures TaintsMatter(e, node) {
      assert !Eligible(Tolerating(e, []), i, tainted);
      assert Eligible(Tolerating(e, tolerant), i, tainted);
    }
  }

  // ---- Nodes ----

  /** A node is spread over by all constraints as soon as it bears their keys. */
  predicate Admitted(e: Env, node: Node) {
    forall i | 0 <= i < |e.constraints| :: NodeLabelsMatch(e.constraints, node.labels) ==> Eligible(e, i, node)
  }

  /** A retry after a node was added: there are clusters in which it is accepted. */
  lemma NodeAddQueued(e: Env, podLabels: Labels, node: Node)
    requires forall i | 0 <= i < |e.constraints| :: e.constraints[i].maxSkew >= 1
    ensures IsSchedulableAfterNodeChange(e.constraints, Added(node)).Queue? <==>
            exists nodes :: Accepts(e, nodes, podLabels, node)
  {
    if NodeLabelsMatch(e.constraints, node.labels) {
      assert Accepts(e, [], podLabels, node) by {
        forall i | 0 <= i < |e.constraints| ensures SkewOk(e, i, [], podLabels, node) {
          assert CountMap(e, i, []) == map[];
        }
      }
    } else {
      forall nodes ensures !Accepts(e, nodes, podLabels, node) {
        SkippedNodeAddIsSafe(e, nodes, NodeInfo(node, []));
      }
    }
  }

  /** Clusters in which the event on the node changes a count. */
  ghost predicate DeleteCanMatter(e: Env, node: Node) {
    exists nodes: Snapshot, k :: 0 <= k < |nodes| && nodes[k].node == node &&
      CountsChange(e, nodes, nodes[..k] + nodes[k + 1..])
  }

  ghost predicate UpdateCanMatter(e: Env, original: Node, modified: Node) {
    exists nodes: Snapshot, k :: 0 <= k < |nodes| && nodes[k].node == original &&
      CountsChange(e, nodes, nodes[k := NodeInfo(modified, nodes[k].pods)])
  }

  lemma CountsOfOneNode(e: Env, i: nat, node: Node)
    requires i < |e.constraints|
    ensures CountMap(e, i, []) == map[]
    ensures Eligible(e, i, node) ==>
              CountMap(e, i, [NodeInfo(node, [])]) == map[node.labels[e.constraints[i].topologyKey] := 0]
    ensures !Eligible(e, i, node) ==> CountMap(e, i, [NodeInfo(node, [])]) == map[]
  {
    CountMapOfOneMore(e, i, [NodeInfo(node, [])]);
    assert [NodeInfo(node, [])][..0] == [];
    PodCountBounds([], e.constraints[i].selector, e.profile.namespace);
  }

  /** A retry after a node was deleted: there are clusters that miss it. */
  lemma NodeDeleteQueued(e: Env, node: Node)
    requires e.constraints != [] && Admitted(e, node)
    ensures IsSchedulableAfterNodeChange(e.constraints, Deleted(node)).Queue? <==> DeleteCanMatter(e, node)
  {
    if NodeLabelsMatch(e.constraints, node.labels) {
      var nodes := [NodeInfo(node, [])];
      CountsOfOneNode(e, 0, node);
      assert nodes[..0] + nodes[1..] == [];
      assert node.labels[e.constraints[0].topologyKey] in CountMap(e, 0, nodes);
      assert CountsChange(e, nodes, []);
    } else {
      forall nodes: Snapshot, k | 0 <= k < |nodes| && nodes[k].node == node
        ensures !CountsChange(e, nodes, nodes[..k] + nodes[k + 1..])
      {
        SkippedNodeDeleteIsSafe(e, nodes, k);
      }
    }
  }

  /** A retry after a node was updated: there are clusters in which that changes a
      count, or its taints changed while it bears all the keys. */
  lemma NodeUpdateQueued(e: Env, original: Node, modified: Node)
    requires e.constraints != [] && Admitted(e, original) && Admitted(e, modified)
    ensures IsSchedulableAfterNodeChange(e.constraints, Updated(original, modified)).Queue? <==>
            || UpdateCanMatter(e, original, modified)
            || (&& NodeLabelsMatch(e.constraints, original.labels) && NodeLabelsMatch(e.constraints, modified.labels)
                && original.taints != modified.taints)
  {
    var nodes := [NodeInfo(original, [])];
    var nodes' := nodes[0 := NodeInfo(modified, nodes[0].pods)];
    assert nodes' == [NodeInfo(modified, [])];
    assert CountsChange(e, nodes, nodes') ==> UpdateCanMatter(e, original, modified) by {
      assert nodes[0].node == original;
    }
    forall i | 0 <= i < |e.constraints| && !SameToSpread(e, i, original, modified)
      ensures UpdateCanMatter(e, original, modified)
    {
      CountsOfOneNode(e, i, original);
      CountsOfOneNode(e, i, modified);
      OneKeyApart(e, i, original, modified);
    }
    if forall i | 0 <= i < |e.constraints| :: SameToSpread(e, i, original, modified) {
      forall nodes: Snapshot, k | 0 <= k < |nodes| && nodes[k].node == original
        ensures !CountsChange(e, nodes, nodes[k := NodeInfo(modified, nodes[k].pods)])
      {
        forall i | 0 <= i < |e.constraints|
          ensures CountMap(e, i, nodes) == CountMap(e, i, nodes[k := NodeInfo(modified, nodes[k].pods)])
        {
          SameNodeSameCounts(e, i, nodes, k, modified);
        }
      }
    }
    LooksAlike(e, original, modified);
  }

  lemma OneKeyApart(e: Env, i: nat, a: Node, b: Node)
    requires i < |e.constraints| && !SameToSpread(e, i, a, b)
    ensures CountMap(e, i, [NodeInfo(a, [])]) != CountMap(e, i, [NodeInfo(b, [])])
  {
    CountsOfOneNode(e, i, a);
    CountsOfOneNode(e, i, b);
    if Eligible(e, i, a) {
      assert a.labels[e.constraints[i].topologyKey] in CountMap(e, i, [NodeInfo(a, [])]);
    } else {
      assert b.labels[e.constraints[i].topologyKey] in CountMap(e, i, [NodeInfo(b, [])]);
    }
  }

  /** What the hint compares says whether the nodes look alike to all constraints. */
  lemma LooksAlike(e: Env, a: Node, b: Node)
    requires e.constraints != [] && Admitted(e, a) && Admitted(e, b)
    ensures (forall i | 0 <= i < |e.constraints| :: SameToSpread(e, i, a, b)) <==>
            && NodeLabelsMatch(e.constraints, a.labels) == NodeLabelsMatch(e.constraints, b.labels)
            && (NodeLabelsMatch(e.constraints, b.labels) ==>
                  !CheckTopologyKeyLabelsChanged(a.labels, b.labels, e.constraints))
  {
    forall i | 0 <= i < |e.constraints|
      ensures Eligible(e, i, a) <==> NodeLabelsMatch(e.constraints, a.labels)
      ensures Eligible(e, i, b) <==> NodeLabelsMatch(e.constraints, b.labels)
    {
    }
    if NodeLabelsMatch(e.constraints, a.labels) && NodeLabelsMatch(e.constraints, b.labels) {
      assert forall i | 0 <= i < |e.constraints| ::
        SameToSpread(e, i, a, b) <==>
        ValueOrEmpty(a.labels, e.constraints[i].topologyKey) == ValueOrEmpty(b.labels, e.constraints[i].topologyKey);
    } else {
      assert SameToSpread(e, 0, a, b) <==>
             NodeLabelsMatch(e.constraints, a.labels) == NodeLabelsMatch(e.constraints, b.labels);
    }
  }
}
