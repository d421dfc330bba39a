/** Which placements and removals keep the topology spread within its skew. */
module SpreadSafety {
  import opened Cluster
  import opened Sums
  import opened SpreadCommon
  import opened CriticalPaths
  import opened SpreadDefs
  import opened SpreadFilter
  import opened SpreadRefinement

  /** No eligible domain of constraint `i` is more than the allowed skew above
      the minimum. */
  ghost predicate BalancedAt(e: Env, i: nat, nodes: Snapshot)
    requires i < |e.constraints|
  {
    forall v | v in Domains(e, i, nodes) ::
      DomainCount(e, i, v, nodes) <= e.constraints[i].maxSkew + GlobalMin(e, i, nodes)
  }

  ghost predicate Balanced(e: Env, nodes: Snapshot) {
    forall i | 0 <= i < |e.constraints| :: BalancedAt(e, i, nodes)
  }

  /** A pod is placed on node `k`, or pod `j` of node `k` is removed or starts
      to terminate. */
  datatype Step = Place(k: nat, p: PodInfo) | Remove(k: nat, j: nat) | Terminate(k: nat, j: nat) {
    ghost predicate Possible(nodes: Snapshot) {
      k < |nodes| && (!Place? ==> j < |nodes[k].pods|)
    }

    ghost function PodOf(nodes: Snapshot): PodInfo
      requires Possible(nodes)
    {
      if Place? then p else nodes[k].pods[j]
    }

    /** The pods of node `k` afterwards. */
    ghost function PodsAfter(nodes: Snapshot): seq<PodInfo>
      requires Possible(nodes)
    {
      var pods := nodes[k].pods;
      match this
      case Place(_, p) => pods + [p]
      case Remove(_, j) => pods[..j] + pods[j + 1..]
      case Terminate(_, j) => pods[j := pods[j].(pod := pods[j].pod.(terminating := true))]
    }

    ghost function After(nodes: Snapshot): (r: Snapshot)
      requires Possible(nodes)
      ensures |r| == |nodes|
    {
      nodes[k := NodeInfo(nodes[k].node, PodsAfter(nodes))]
    }
  }

  lemma TotalPodsAfterStep(nodes: Snapshot, step: Step)
    requires step.Possible(nodes)
    ensures TotalPods(step.After(nodes)) <= TotalPods(nodes) + 1
  {
    SumUpdate(nodes, step.k, step.After(nodes)[step.k], PodsOn());
  }

  /** Constraint `i` counts the pod on the node. */
  ghost predicate CountedOn(e: Env, i: nat, p: Pod, node: Node)
    requires i < |e.constraints|
  {
    var c := e.constraints[i];
    Eligible(e, i, node) && !c.selector.Empty() && Counted(p, c.selector, e.profile.namespace)
  }

  lemma PodDeltaOfStep(e: Env, i: nat, nodes: Snapshot, step: Step)
    requires i < |e.constraints| && step.Possible(nodes) && Eligible(e, i, nodes[step.k].node)
    ensures PodDelta(e, i, nodes[step.k], step.PodsAfter(nodes)) ==
            if !CountedOn(e, i, step.PodOf(nodes).pod, nodes[step.k].node) then 0 else if step.Place? then 1 else -1
  {
    var c, pods := e.constraints[i], nodes[step.k].pods;
    match step {
      case Place(_, p) => PodCountOfOneMore(pods, p, c.selector, e.profile.namespace);
      case Remove(_, j) => PodCountOfOneLess(pods, j, c.selector, e.profile.namespace);
      case Terminate(_, j) => PodCountOfReplaced(pods, j, step.PodsAfter(nodes)[j], c.selector, e.profile.namespace);
    }
  }

  /** A step moves the count of the domain of its node, and only if the pod is
      counted there. */
  lemma CountMapAfterStep(e: Env, i: nat, nodes: Snapshot, step: Step)
    requires i < |e.constraints| && step.Possible(nodes)
    ensures var node := nodes[step.k].node;
            CountMap(e, i, step.After(nodes)) ==
            if CountedOn(e, i, step.PodOf(nodes).pod, node)
            then Bump(CountMap(e, i, nodes), node.labels[e.constraints[i].topologyKey], if step.Place? then 1 else -1)
            else CountMap(e, i, nodes)
  {
    CountMapOfChangedPods(e, i, nodes, step.k, step.PodsAfter(nodes));
    if Eligible(e, i, nodes[step.k].node) {
      PodDeltaOfStep(e, i, nodes, step);
      BumpDiffers(CountMap(e, i, nodes), nodes[step.k].node.labels[e.constraints[i].topologyKey]);
    }
  }

  // ---- Balance, read off the count map ----

  ghost function LeastFor(m: Counts, minDomains: int): int {
    if |m| < minDomains then 0 else MinOf(m)
  }

  ghost predicate Within(m: Counts, maxSkew: int, minDomains: int) {
    forall v | v in m :: m[v] <= maxSkew + LeastFor(m, minDomains)
  }

  lemma BalancedMeansWithin(e: Env, i: nat, nodes: Snapshot)
    requires i < |e.constraints|
    ensures BalancedAt(e, i, nodes) <==>
            Within(CountMap(e, i, nodes), e.constraints[i].maxSkew, e.constraints[i].minDomains)
  {
    assert CountMap(e, i, nodes).Keys == Domains(e, i, nodes);
  }

  lemma RaisedStaysWithin(m: Counts, w: string, maxSkew: int, minDomains: int)
    requires Within(m, maxSkew, minDomains) && w in m && m[w] + 1 <= maxSkew + LeastFor(m, minDomains)
    ensures Within(Bump(m, w, 1), maxSkew, minDomains)
  {
    var m' := Bump(m, w, 1);
    assert m'.Keys == m.Keys && |m'| == |m'.Keys| && |m| == |m.Keys|;
    var k :| k in m' && m'[k] == MinOf(m');
    assert MinOf(m) <= m[k];
  }

  /** Domain `w` is a least used one while another one stands at the limit, and
      the minimum is in force. */
  ghost predicate AtLimit(m: Counts, w: string, maxSkew: int, minDomains: int) {
    && |m| >= minDomains
    && w in m && m[w] == MinOf(m)
    && exists v :: v in m && v != w && m[v] == maxSkew + m[w]
  }

  /** One pod less in domain `w` breaks the balance exactly in that case. */
  lemma LoweredStaysWithin(m: Counts, w: string, maxSkew: int, minDomains: int)
    requires Within(m, maxSkew, minDomains) && w in m
    ensures Within(Bump(m, w, -1), maxSkew, minDomains) <==> !AtLimit(m, w, maxSkew, minDomains)
  {
    var m' := Bump(m, w, -1);
    assert m'.Keys == m.Keys && |m'| == |m'.Keys| && |m| == |m.Keys|;
    var k :| k in m && m[k] == MinOf(m);
    assert k in m';
    if m[w] == MinOf(m) {
      MinimumIsUnique(m', MinOf(m'), m[w] - 1);
      assert forall v | v in m && v != w :: m'[v] == m[v];
      assert m'[w] == m[w] - 1;
    } else {
      assert m'[k] == m[k];
      MinimumIsUnique(m', MinOf(m'), MinOf(m));
    }
  }

  // ---- One step ----

  /** Placing the pod does not stack it onto a domain that counts it and is
      already at the limit: each constraint that counts it there accepts it. */
  ghost predicate SafePlacement(e: Env, i: nat, nodes: Snapshot, p: Pod, node: Node)
    requires i < |e.constraints|
  {
    CountedOn(e, i, p, node) ==> SkewOk(e, i, nodes, p.labels, node)
  }

  /** Taking away a pod of a least used domain while another stands at the limit. */
  ghost predicate Unbalances(e: Env, i: nat, nodes: Snapshot, p: Pod, node: Node)
    requires i < |e.constraints|
  {
    var c := e.constraints[i];
    && CountedOn(e, i, p, node)
    && |Domains(e, i, nodes)| >= c.minDomains
    && var w := node.labels[c.topologyKey];
       && DomainCount(e, i, w, nodes) == GlobalMin(e, i, nodes)
       && exists v :: v in Domains(e, i, nodes) && v != w &&
            DomainCount(e, i, v, nodes) == c.maxSkew + GlobalMin(e, i, nodes)
  }

  lemma UnbalancesMeansAtLimit(e: Env, i: nat, nodes: Snapshot, p: Pod, node: Node)
    requires i < |e.constraints| && CountedOn(e, i, p, node)
    requires node.labels[e.constraints[i].topologyKey] in CountMap(e, i, nodes)
    ensures var c := e.constraints[i];
            Unbalances(e, i, nodes, p, node) <==>
            AtLimit(CountMap(e, i, nodes), node.labels[c.topologyKey], c.maxSkew, c.minDomains)
  {
    var c, m := e.constraints[i], CountMap(e, i, nodes);
    var w := node.labels[c.topologyKey];
    assert m.Keys == Domains(e, i, nodes) && |m| == |m.Keys|;
    assert m[w] == DomainCount(e, i, w, nodes);
    if AtLimit(m, w, c.maxSkew, c.minDomains) {
      var v :| v in m && v != w && m[v] == c.maxSkew + m[w];
      assert DomainCount(e, i, v, nodes) == c.maxSkew + GlobalMin(e, i, nodes);
    }
    if Unbalances(e, i, nodes, p, node) {
      var v :| v in Domains(e, i, nodes) && v != w && DomainCount(e, i, v, nodes) == c.maxSkew + GlobalMin(e, i, nodes);
      assert m[v] == c.maxSkew + m[w];
    }
  }

  lemma BalancedAfterStep(e: Env, i: nat, nodes: Snapshot, step: Step)
    requires i < |e.constraints| && step.Possible(nodes)
    ensures var c, node, m := e.constraints[i], nodes[step.k].node, CountMap(e, i, nodes);
            if CountedOn(e, i, step.PodOf(nodes).pod, node) then
              && node.labels[c.topologyKey] in m
              && (BalancedAt(e, i, step.After(nodes)) <==>
                  Within(Bump(m, node.labels[c.topologyKey], if step.Place? then 1 else -1), c.maxSkew, c.minDomains))
            else BalancedAt(e, i, step.After(nodes)) <==> BalancedAt(e, i, nodes)
  {
    var p, node, nodes' := step.PodOf(nodes).pod, nodes[step.k].node, step.After(nodes);
    CountMapAfterStep(e, i, nodes, step);
    BalancedMeansWithin(e, i, nodes');
    if CountedOn(e, i, p, node) {
      assert node.labels[e.constraints[i].topologyKey] in Domains(e, i, nodes);
    } else {
      BalancedMeansWithin(e, i, nodes);
    }
  }

  lemma SkewOkMeansRoom(e: Env, i: nat, nodes: Snapshot, p: Pod, node: Node)
    requires i < |e.constraints| && CountedOn(e, i, p, node) && SkewOk(e, i, nodes, p.labels, node)
    requires node.labels[e.constraints[i].topologyKey] in CountMap(e, i, nodes)
    ensures var c, m := e.constraints[i], CountMap(e, i, nodes);
            m[node.labels[c.topologyKey]] + 1 <= c.maxSkew + LeastFor(m, c.minDomains)
  {
    assert CountMap(e, i, nodes).Keys == Domains(e, i, nodes);
  }

  lemma PlacementKeepsBalance(e: Env, i: nat, nodes: Snapshot, step: Step)
    requires i < |e.constraints| && step.Place? && step.Possible(nodes) && BalancedAt(e, i, nodes)
    requires SafePlacement(e, i, nodes, step.p.pod, nodes[step.k].node)
    ensures BalancedAt(e, i, step.After(nodes))
  {
    var c, node := e.constraints[i], nodes[step.k].node;
    BalancedAfterStep(e, i, nodes, step);
    BalancedMeansWithin(e, i, nodes);
    if CountedOn(e, i, step.p.pod, node) {
      SkewOkMeansRoom(e, i, nodes, step.p.pod, node);
      RaisedStaysWithin(CountMap(e, i, nodes), node.labels[c.topologyKey], c.maxSkew, c.minDomains);
    }
  }

  /** The exact condition for losing a pod: from a balanced snapshot, a removal
      or the start of a termination breaks the balance of constraint `i` if and
      only if the pod is counted in a least used domain, that minimum is in
      force, and another domain stands at the limit above it. */
  lemma LossExact(e: Env, i: nat, nodes: Snapshot, step: Step)
    requires i < |e.constraints| && !step.Place? && step.Possible(nodes) && BalancedAt(e, i, nodes)
    ensures BalancedAt(e, i, step.After(nodes)) <==>
            !Unbalances(e, i, nodes, step.PodOf(nodes).pod, nodes[step.k].node)
  {
    var c, p, node := e.constraints[i], step.PodOf(nodes).pod, nodes[step.k].node;
    BalancedAfterStep(e, i, nodes, step);
    BalancedMeansWithin(e, i, nodes);
    if CountedOn(e, i, p, node) {
      LoweredStaysWithin(CountMap(e, i, nodes), node.labels[c.topologyKey], c.maxSkew, c.minDomains);
      UnbalancesMeansAtLimit(e, i, nodes, p, node);
    }
  }

  // ---- Runs ----

  /** A step that constraint `i` allows. */
  ghost predicate SafeStep(e: Env, i: nat, nodes: Snapshot, step: Step)
    requires i < |e.constraints|
  {
    && step.Possible(nodes)
    && var p, node := step.PodOf(nodes).pod, nodes[step.k].node;
       if step.Place? then SafePlacement(e, i, nodes, p, node) else !Unbalances(e, i, nodes, p, node)
  }

  ghost predicate SafeRun(e: Env, i: nat, nodes: Snapshot, steps: seq<Step>)
    requires i < |e.constraints|
    decreases |steps|
  {
    steps == [] || (SafeStep(e, i, nodes, steps[0]) && SafeRun(e, i, steps[0].After(nodes), steps[1..]))
  }

  ghost predicate PossibleRun(nodes: Snapshot, steps: seq<Step>)
    decreases |steps|
  {
    steps == [] || (steps[0].Possible(nodes) && PossibleRun(steps[0].After(nodes), steps[1..]))
  }

  ghost function AfterSteps(nodes: Snapshot, steps: seq<Step>): Snapshot
    requires PossibleRun(nodes, steps)
    decreases |steps|
  {
    if steps == [] then nodes else AfterSteps(steps[0].After(nodes), steps[1..])
  }

  /** Whatever pods are placed, removed or terminated, in whatever order, a
      balanced constraint stays balanced as long as it allows every step. */
  lemma {:induction false} SafeRunStaysBalanced(e: Env, i: nat, nodes: Snapshot, steps: seq<Step>)
    requires i < |e.constraints| && BalancedAt(e, i, nodes) && SafeRun(e, i, nodes, steps)
    ensures PossibleRun(nodes, steps) && BalancedAt(e, i, AfterSteps(nodes, steps))
    decreases |steps|
  {
    if steps != [] {
      if steps[0].Place? {
        PlacementKeepsBalance(e, i, nodes, steps[0]);
      } else {
        LossExact(e, i, nodes, steps[0]);
      }
      SafeRunStaysBalanced(e, i, steps[0].After(nodes), steps[1..]);
    }
  }

  // ---- Runs of the scheduler ----

  /** The filter lets the pod pass constraint `i` on the node, on a state
      computed from this snapshot. */
  ghost predicate FilterPasses(e: Env, i: nat, nodes: Snapshot, p: Pod, node: Node)
    requires i < |e.constraints|
  {
    exists view :: Computed(e, nodes, view) && Passes(e.constraints, view, i, p.labels, node)
  }

  /** A step the scheduler may see. A pod that some constraint counts on its
      node passed that constraint; every other pod goes anywhere. Losses leave
      the balance alone. */
  ghost predicate Admitted(e: Env, nodes: Snapshot, step: Step) {
    && step.Possible(nodes)
    && var p, node := step.PodOf(nodes).pod, nodes[step.k].node;
       forall i | 0 <= i < |e.constraints| ::
         if step.Place? then CountedOn(e, i, p, node) ==> FilterPasses(e, i, nodes, p, node)
         else !Unbalances(e, i, nodes, p, node)
  }

  ghost predicate AdmittedRun(e: Env, nodes: Snapshot, steps: seq<Step>)
    decreases |steps|
  {
    steps == [] || (Admitted(e, nodes, steps[0]) && AdmittedRun(e, steps[0].After(nodes), steps[1..]))
  }

  lemma FilterPassesMeansSkewOk(e: Env, i: nat, nodes: Snapshot, p: Pod, node: Node)
    requires i < |e.constraints| && TotalPods(nodes) < MAX_INT32
    requires FilterPasses(e, i, nodes, p, node)
    ensures SkewOk(e, i, nodes, p.labels, node)
  {
    var view :| Computed(e, nodes, view) && Passes(e.constraints, view, i, p.labels, node);
    ComputedExact(e, nodes, view);
    ExactPasses(e, nodes, view, i, p.labels, node);
  }

  lemma {:induction false} AdmittedRunIsSafe(e: Env, i: nat, nodes: Snapshot, steps: seq<Step>)
    requires i < |e.constraints| && AdmittedRun(e, nodes, steps) && TotalPods(nodes) + |steps| < MAX_INT32
    ensures SafeRun(e, i, nodes, steps)
    decreases |steps|
  {
    if steps != [] {
      var p, node := steps[0].PodOf(nodes).pod, nodes[steps[0].k].node;
      if steps[0].Place? && CountedOn(e, i, p, node) {
        FilterPassesMeansSkewOk(e, i, nodes, p, node);
      }
      TotalPodsAfterStep(nodes, steps[0]);
      AdmittedRunIsSafe(e, i, steps[0].After(nodes), steps[1..]);
    }
  }

  lemma {:induction false} AdmittedRunIsPossible(e: Env, nodes: Snapshot, steps: seq<Step>)
    requires AdmittedRun(e, nodes, steps)
    ensures PossibleRun(nodes, steps)
    decreases |steps|
  {
    if steps != [] {
      AdmittedRunIsPossible(e, steps[0].After(nodes), steps[1..]);
    }
  }

  /** From a balanced snapshot, every run of placements that passed the filter,
      free placements of pods no constraint counts, and harmless losses. */
  lemma RunsStayBalanced(e: Env, nodes: Snapshot, steps: seq<Step>)
    requires Balanced(e, nodes) && AdmittedRun(e, nodes, steps) && TotalPods(nodes) + |steps| < MAX_INT32
    ensures PossibleRun(nodes, steps) && Balanced(e, AfterSteps(nodes, steps))
  {
    AdmittedRunIsPossible(e, nodes, steps);
    forall i | 0 <= i < |e.constraints| ensures BalancedAt(e, i, AfterSteps(nodes, steps)) {
      AdmittedRunIsSafe(e, i, nodes, steps);
      SafeRunStaysBalanced(e, i, nodes, steps);
    }
  }

  lemma EmptyHasNoPods(nodes: Snapshot)
    requires forall k | 0 <= k < |nodes| :: nodes[k].pods == []
    ensures TotalPods(nodes) == 0
  {
    SumPositive(nodes, PodsOn());
    assert forall k | 0 <= k < |nodes| :: PodsOn()(nodes[k]) == 0;
  }

  lemma EmptyIsBalanced(e: Env, i: nat, nodes: Snapshot)
    requires i < |e.constraints| && e.constraints[i].maxSkew >= 0
    requires forall k | 0 <= k < |nodes| :: nodes[k].pods == []
    ensures BalancedAt(e, i, nodes)
  {
    EmptyHasNoPods(nodes);
    forall v | v in Domains(e, i, nodes) ensures DomainCount(e, i, v, nodes) == 0 <= GlobalMin(e, i, nodes) {
      DomainCountBounds(e, i, v, nodes);
      var m := CountMap(e, i, nodes);
      assert v in m;
      var w :| w in m && m[w] == MinOf(m);
      DomainCountBounds(e, i, w, nodes);
    }
  }

  /** Once there are enough domains, no two of them differ by more than the
      allowed skew. */
  ghost predicate EvenAt(e: Env, i: nat, nodes: Snapshot)
    requires i < |e.constraints|
  {
    forall v, w | v in Domains(e, i, nodes) && w in Domains(e, i, nodes)
                && |Domains(e, i, nodes)| >= e.constraints[i].minDomains ::
      DomainCount(e, i, v, nodes) - DomainCount(e, i, w, nodes) <= e.constraints[i].maxSkew
  }

  lemma BalancedIsEven(e: Env, i: nat, nodes: Snapshot)
    requires i < |e.constraints| && BalancedAt(e, i, nodes)
    ensures EvenAt(e, i, nodes)
  {
    forall w | w in Domains(e, i, nodes) ensures MinOf(CountMap(e, i, nodes)) <= DomainCount(e, i, w, nodes) {
      assert w in CountMap(e, i, nodes);
    }
  }

  /** Skew safety: from empty nodes, every such run keeps each eligible domain
      within the skew of the minimum, and of every other domain once there are
      enough of them. */
  lemma SkewSafety(e: Env, nodes: Snapshot, steps: seq<Step>)
    requires forall k | 0 <= k < |nodes| :: nodes[k].pods == []
    requires forall i | 0 <= i < |e.constraints| :: e.constraints[i].maxSkew >= 0
    requires AdmittedRun(e, nodes, steps) && |steps| < MAX_INT32
    ensures PossibleRun(nodes, steps) && Balanced(e, AfterSteps(nodes, steps))
    ensures forall i | 0 <= i < |e.constraints| :: EvenAt(e, i, AfterSteps(nodes, steps))
  {
    forall i | 0 <= i < |e.constraints| ensures BalancedAt(e, i, nodes) {
      EmptyIsBalanced(e, i, nodes);
    }
    EmptyHasNoPods(nodes);
    RunsStayBalanced(e, nodes, steps);
    forall i | 0 <= i < |e.constraints| ensures EvenAt(e, i, AfterSteps(nodes, steps)) {
      BalancedIsEven(e, i, AfterSteps(nodes, steps));
    }
  }

  // ---- Losses do break the balance ----

  /** With a skew of 1, one pod in zone "a" and two in zone "b" are balanced;
      without the one in "a", or once it terminates, they are not. */
  lemma LossesBreakTheBalance(step: Step)
    requires step == Step.Remove(0, 0) || step == Terminate(0, 0)
    ensures var e, w := WebOverZones(1), WebPod(false);
            var nodes := TwoZones([w], [w, w]);
            && CountMap(e, 0, nodes) == map["a" := 1, "b" := 2] && BalancedAt(e, 0, nodes)
            && step.Possible(nodes)
            && CountMap(e, 0, step.After(nodes)) == map["a" := 0, "b" := 2] && !BalancedAt(e, 0, step.After(nodes))
  {
    var e, w := WebOverZones(1), WebPod(false);
    var nodes, left := TwoZones([w], [w, w]), if step.Terminate? then [WebPod(true)] else [];
    WebPodsCount();
    TwoZonesCount(1, [w], [w, w]);
    TwoZonesCount(1, left, [w, w]);
    assert step.PodsAfter(nodes) == left;
    assert step.After(nodes) == TwoZones(left, [w, w]);
    BalancedMeansWithin(e, 0, nodes);
    BalancedMeansWithin(e, 0, step.After(nodes));
    WithinOfTwo(1, 2);
    WithinOfTwo(0, 2);
  }

  lemma WithinOfTwo(a: int, b: int)
    requires a <= b
    ensures Within(map["a" := a, "b" := b], 1, 1) <==> b <= 1 + a
  {
    LeastOfTwo(a, b);
    var m: Counts := map["a" := a, "b" := b];
    assert m["a"] == a && m["b"] == b;
  }
}
