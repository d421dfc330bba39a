/** The topology spread filter: its precomputed state, kept up to date pod by
    pod, and the verdicts read off it. */
module SpreadFilter {
  import opened Labels
  import opened Cluster
  import opened NodeSelectors
  import opened SpreadCommon
  import opened CriticalPaths
  import opened SpreadDefs

  datatype Status = Success | Unschedulable | UnschedulableAndUnresolvable

  /** The filter state as a value, indexed by constraint. */
  datatype SpreadView = SpreadView(counts: seq<Counts>, paths: seq<Slots>)

  class PreFilterState {
    const constraints: seq<Constraint>
    var criticalPaths: seq<array<CriticalPath>>
    var tpValueToMatchNum: seq<Counts>

    ghost predicate Valid()
      reads this, criticalPaths
    {
      && |criticalPaths| == |tpValueToMatchNum| == |constraints|
      && (forall i | 0 <= i < |criticalPaths| :: criticalPaths[i].Length == 2)
      && (forall i, j | 0 <= i < j < |criticalPaths| :: criticalPaths[i] != criticalPaths[j])
    }

    ghost function Value(): SpreadView
      requires Valid()
      reads this, criticalPaths
    {
      SpreadView(tpValueToMatchNum,
                 seq(|criticalPaths|, i requires 0 <= i < |criticalPaths| && criticalPaths[i].Length == 2
                                        reads this, criticalPaths => View(criticalPaths[i])))
    }

    constructor (constraints: seq<Constraint>, paths: seq<array<CriticalPath>>, counts: seq<Counts>)
      ensures this.constraints == constraints && criticalPaths == paths && tpValueToMatchNum == counts
    {
      this.constraints := constraints;
      criticalPaths := paths;
      tpValueToMatchNum := counts;
    }

    /** A copy that shares nothing mutable with the original. */
    method Clone() returns (copy: PreFilterState)
      requires Valid()
      ensures fresh(copy) && copy.Valid() && copy.constraints == constraints
      ensures forall i | 0 <= i < |copy.criticalPaths| :: fresh(copy.criticalPaths[i])
      ensures copy.Value() == Value()
    {
      var paths: seq<array<CriticalPath>> := [];
      for i := 0 to |criticalPaths|
        invariant |paths| == i
        invariant forall j | 0 <= j < i ::
          fresh(paths[j]) && paths[j].Length == 2 && View(paths[j]) == View(criticalPaths[j])
        invariant forall j, k | 0 <= j < k < i :: paths[j] != paths[k]
      {
        var p := new CriticalPath[2];
        p[0], p[1] := criticalPaths[i][0], criticalPaths[i][1];
        paths := paths + [p];
      }
      copy := new PreFilterState(constraints, paths, tpValueToMatchNum);
    }

    /** Counts a pod in (`delta` 1) or out (`delta` -1) of the node, if there is
        one. */
    method UpdateWithPod(e: Env, updatedPod: Pod, updatedNode: Option<Node>, delta: int)
      requires Valid() && constraints == e.constraints
      modifies this, criticalPaths
      ensures Valid() && criticalPaths == old(criticalPaths)
      ensures Value() ==
              if updatedNode.None? then old(Value()) else Moved(e, old(Value()), updatedPod, updatedNode.value, delta)
    {
      if updatedPod.namespace != e.profile.namespace || updatedNode.None? {
        return;
      }
      var node := updatedNode.value;
      if !NodeLabelsMatch(constraints, node.labels) {
        return;
      }
      if !e.inclusion && !RequiredMatches(e.profile.nodeSelector, e.profile.affinity, node) {
        return;
      }
      for i := 0 to |constraints|
        invariant Valid() && criticalPaths == old(criticalPaths)
        invariant forall j | 0 <= j < |constraints| ::
          if j < i then
            tpValueToMatchNum[j] == MovedCounts(e, j, old(tpValueToMatchNum)[j], updatedPod, node, delta) &&
            View(criticalPaths[j]) == MovedSlots(e, j, old(Value()), updatedPod, node, delta)
          else tpValueToMatchNum[j] == old(tpValueToMatchNum)[j] && View(criticalPaths[j]) == old(Value()).paths[j]
      {
        var c := constraints[i];
        if c.selector.Matches(updatedPod.labels) && (e.inclusion ==> MatchNodeInclusionPolicies(c, e.profile, node)) {
          var v := node.labels[c.topologyKey];
          tpValueToMatchNum := tpValueToMatchNum[i := Bump(tpValueToMatchNum[i], v, delta)];
          Update(criticalPaths[i], v, tpValueToMatchNum[i][v]);
        }
      }
    }

    method AddPod(e: Env, p: PodInfo, node: Option<Node>)
      requires Valid() && constraints == e.constraints
      modifies this, criticalPaths
      ensures Valid() && criticalPaths == old(criticalPaths)
      ensures Value() == if node.None? then old(Value()) else Moved(e, old(Value()), p.pod, node.value, 1)
    {
      UpdateWithPod(e, p.pod, node, 1);
    }

    method RemovePod(e: Env, p: PodInfo, node: Option<Node>)
      requires Valid() && constraints == e.constraints
      modifies this, criticalPaths
      ensures Valid() && criticalPaths == old(criticalPaths)
      ensures Value() == if node.None? then old(Value()) else Moved(e, old(Value()), p.pod, node.value, -1)
    {
      UpdateWithPod(e, p.pod, node, -1);
    }

    method MinMatchNum(constraintID: nat, minDomains: int) returns (n: int)
      requires Valid() && constraintID < |constraints|
      ensures n == MinNum(Value(), constraintID, minDomains)
    {
      n := criticalPaths[constraintID][0].matchNum;
      var domainsNum := |tpValueToMatchNum[constraintID]|;
      if domainsNum < minDomains {
        n := 0;
      }
    }

    /** Filter: the status says which kind of failure comes first. */
    method Filter(podLabels: Labels, node: Node) returns (status: Status)
      requires Valid()
      ensures status.Success? <==> forall i | 0 <= i < |constraints| :: Passes(constraints, Value(), i, podLabels, node)
      ensures status.UnschedulableAndUnresolvable? <==>
              exists i :: 0 <= i < |constraints| && constraints[i].topologyKey !in node.labels &&
                forall j | 0 <= j < i :: Passes(constraints, Value(), j, podLabels, node)
    {
      for i := 0 to |constraints|
        invariant forall j | 0 <= j < i :: Passes(constraints, Value(), j, podLabels, node)
        invariant forall j | 0 <= j < i :: constraints[j].topologyKey in node.labels
      {
        var c := constraints[i];
        if c.topologyKey !in node.labels {
          assert !Passes(constraints, Value(), i, podLabels, node);
          return UnschedulableAndUnresolvable;
        }
        var tpVal := node.labels[c.topologyKey];
        var minMatchNum := MinMatchNum(i, c.minDomains);
        var selfMatchNum := if c.selector.Matches(podLabels) then 1 else 0;
        var matchNum := Lookup(tpValueToMatchNum[i], tpVal);
        var skew := matchNum + selfMatchNum - minMatchNum;
        if skew > c.maxSkew {
          assert !Passes(constraints, Value(), i, podLabels, node);
          return Unschedulable;
        }
      }
      status := Success;
    }
  }

  ghost predicate Shaped(e: Env, view: SpreadView) {
    |view.counts| == |view.paths| == |e.constraints|
  }

  /** The pod changes the counts of constraint `i` when it moves on `node`. */
  ghost predicate Moves(e: Env, i: nat, p: Pod, node: Node)
    requires i < |e.constraints|
  {
    && p.namespace == e.profile.namespace
    && Eligible(e, i, node)
    && e.constraints[i].selector.Matches(p.labels)
  }

  ghost function MovedCounts(e: Env, i: nat, m: Counts, p: Pod, node: Node, delta: int): Counts
    requires i < |e.constraints|
  {
    if Moves(e, i, p, node) then Bump(m, node.labels[e.constraints[i].topologyKey], delta) else m
  }

  ghost function MovedSlots(e: Env, i: nat, view: SpreadView, p: Pod, node: Node, delta: int): Slots
    requires Shaped(e, view) && i < |e.constraints|
  {
    if Moves(e, i, p, node) then
      var v := node.labels[e.constraints[i].topologyKey];
      Updated(view.paths[i], v, MovedCounts(e, i, view.counts[i], p, node, delta)[v])
    else view.paths[i]
  }

  ghost function Moved(e: Env, view: SpreadView, p: Pod, node: Node, delta: int): (r: SpreadView)
    requires Shaped(e, view)
    ensures Shaped(e, r)
  {
    SpreadView(
      seq(|e.constraints|, i requires 0 <= i < |e.constraints| => MovedCounts(e, i, view.counts[i], p, node, delta)),
      seq(|e.constraints|, i requires 0 <= i < |e.constraints| => MovedSlots(e, i, view, p, node, delta)))
  }

  ghost function MinNum(view: SpreadView, i: nat, minDomains: int): int
    requires i < |view.counts| == |view.paths|
  {
    if |view.counts[i]| < minDomains then 0 else view.paths[i].first.matchNum
  }

  /** The test of one constraint, on the precomputed state. */
  ghost predicate Passes(constraints: seq<Constraint>, view: SpreadView, i: nat, podLabels: Labels, node: Node)
    requires i < |constraints| == |view.counts| == |view.paths|
  {
    var c := constraints[i];
    && c.topologyKey in node.labels
    && Lookup(view.counts[i], node.labels[c.topologyKey]) + (if c.selector.Matches(podLabels) then 1 else 0)
       - MinNum(view, i, c.minDomains) <= c.maxSkew
  }
}
