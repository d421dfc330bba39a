/** The inter-pod affinity counts stay those of the snapshot while pods come
    and go on any nodes. */
module AffinityRefinement {
  import opened Cluster
  import opened Sums
  import opened TermCounts
  import opened AffinityDefs
  import opened AffinityFilter

  lemma PairCountWithPod(kind: Kind, inc: Incoming, nodes: Snapshot, k: nat, p: PodInfo, pair: TopologyPair)
    requires k < |nodes|
    ensures PairCount(kind, inc, WithPod(nodes, k, p), pair) ==
            PairCount(kind, inc, nodes, pair) + PodShare(kind, inc, nodes[k].node, pair, p)
  {
    var ni := WithPod(nodes, k, p)[k];
    SumUpdate(nodes, k, ni, NodeShareFn(kind, inc, pair));
    assert ni.pods[..|ni.pods| - 1] == nodes[k].pods;
  }

  lemma PairCountWithoutPod(kind: Kind, inc: Incoming, nodes: Snapshot, k: nat, j: nat, pair: TopologyPair)
    requires k < |nodes| && j < |nodes[k].pods|
    ensures PairCount(kind, inc, WithoutPod(nodes, k, j), pair) ==
            PairCount(kind, inc, nodes, pair) - PodShare(kind, inc, nodes[k].node, pair, nodes[k].pods[j])
  {
    SumUpdate(nodes, k, WithoutPod(nodes, k, j)[k], NodeShareFn(kind, inc, pair));
    SumRemove(nodes[k].pods, j, PodShareFn(kind, inc, nodes[k].node, pair));
  }

  /** A pod added to node `k`, or the removal of pod `j` of node `k`. */
  datatype Event = Add(k: nat, p: PodInfo) | Remove(k: nat, j: nat)

  ghost predicate Possible(nodes: Snapshot, ev: Event) {
    ev.k < |nodes| && (ev.Remove? ==> ev.j < |nodes[ev.k].pods|)
  }

  ghost function After(nodes: Snapshot, ev: Event): Snapshot
    requires Possible(nodes, ev)
  {
    if ev.Add? then WithPod(nodes, ev.k, ev.p) else WithoutPod(nodes, ev.k, ev.j)
  }

  /** The update the filter performs for an event. */
  ghost predicate Updated(inc: Incoming, nodes: Snapshot, v: View, v': View, ev: Event)
    requires Possible(nodes, ev)
  {
    if ev.Add? then Moved(inc, v, v', ev.p, nodes[ev.k].node, 1)
    else Moved(inc, v, v', nodes[ev.k].pods[ev.j], nodes[ev.k].node, -1)
  }

  lemma StepExact(inc: Incoming, nodes: Snapshot, v: View, v': View, ev: Event)
    requires Possible(nodes, ev) && Exact(inc, nodes, v) && Updated(inc, nodes, v, v', ev)
    ensures Exact(inc, After(nodes, ev), v')
  {
    forall kind: Kind ensures Counts(kind, inc, After(nodes, ev), v'.Of(kind)) {
      assert Counts(kind, inc, nodes, v.Of(kind));
      forall pair ensures Lookup(v'.Of(kind), pair) == PairCount(kind, inc, After(nodes, ev), pair) {
        if ev.Add? {
          PairCountWithPod(kind, inc, nodes, ev.k, ev.p, pair);
        } else {
          PairCountWithoutPod(kind, inc, nodes, ev.k, ev.j, pair);
        }
      }
    }
  }

  /** A run: each event is possible when it happens, and `views` are the states
      the filter goes through. */
  ghost predicate Run(inc: Incoming, nodes: Snapshot, views: seq<View>, evs: seq<Event>)
    decreases |evs|
  {
    && |views| == |evs| + 1
    && (evs == [] || (&& Possible(nodes, evs[0])
                      && Updated(inc, nodes, views[0], views[1], evs[0])
                      && Run(inc, After(nodes, evs[0]), views[1..], evs[1..])))
  }

  ghost function NodesAfterRun(inc: Incoming, nodes: Snapshot, views: seq<View>, evs: seq<Event>): Snapshot
    requires Run(inc, nodes, views, evs)
    decreases |evs|
  {
    if evs == [] then nodes else NodesAfterRun(inc, After(nodes, evs[0]), views[1..], evs[1..])
  }

  /** The counts after any run are those of the changed snapshot: exactly its
      non-zero counts, all positive, hence equal to any recomputed state, with
      the verdicts of the definition. */
  lemma {:induction false} RunStaysExact(inc: Incoming, nodes: Snapshot, views: seq<View>, evs: seq<Event>)
    requires Run(inc, nodes, views, evs) && Exact(inc, nodes, views[0])
    ensures var nodes', v' := NodesAfterRun(inc, nodes, views, evs), views[|evs|];
            && Exact(inc, nodes', v')
            && (forall kind: Kind :: Positive(v'.Of(kind)))
            && (forall w | Exact(inc, nodes', w) :: w == v')
            && forall node :: Passes(inc, v', node) <==> Accepts(inc, nodes', node)
    decreases |evs|
  {
    if evs == [] {
      ExactFacts(inc, nodes, views[0]);
    } else {
      StepExact(inc, nodes, views[0], views[1], evs[0]);
      RunStaysExact(inc, After(nodes, evs[0]), views[1..], evs[1..]);
    }
  }

  lemma ExactFacts(inc: Incoming, nodes: Snapshot, v: View)
    requires Exact(inc, nodes, v)
    ensures forall kind: Kind :: Positive(v.Of(kind))
    ensures forall w | Exact(inc, nodes, w) :: w == v
    ensures forall node :: Passes(inc, v, node) <==> Accepts(inc, nodes, node)
  {
    forall kind: Kind, pair | pair in v.Of(kind) ensures v.Of(kind)[pair] > 0 {
      assert Counts(kind, inc, nodes, v.Of(kind));
      assert Lookup(v.Of(kind), pair) == PairCount(kind, inc, nodes, pair);
      PairCountSign(kind, inc, nodes, pair);
    }
    forall w | Exact(inc, nodes, w) ensures w == v {
      forall kind: Kind ensures w.Of(kind) == v.Of(kind) {
        assert Counts(kind, inc, nodes, v.Of(kind)) && Counts(kind, inc, nodes, w.Of(kind));
        TidyIsUnique(v.Of(kind), w.Of(kind));
      }
      assert w.Of(Existing) == v.Of(Existing) && w.Of(Affinity) == v.Of(Affinity) && w.Of(Anti) == v.Of(Anti);
    }
    forall node ensures Passes(inc, v, node) <==> Accepts(inc, nodes, node) {
      ExactVerdict(inc, nodes, v, node);
    }
  }

  /** Taking a pod out and putting it back restores the state, whatever it was,
      as long as it has no zero entries. */
  lemma RemoveThenAddRestores(inc: Incoming, v: View, v': View, v'': View, p: PodInfo, node: Node)
    requires forall kind: Kind :: Tidy(v.Of(kind))
    requires Moved(inc, v, v', p, node, -1) && Moved(inc, v', v'', p, node, 1)
    ensures v'' == v
  {
    forall kind: Kind ensures v''.Of(kind) == v.Of(kind) {
      assert Tidy(v'.Of(kind)) && Tidy(v''.Of(kind));
      forall pair ensures Lookup(v''.Of(kind), pair) == Lookup(v.Of(kind), pair) {
        assert Lookup(v'.Of(kind), pair) == Lookup(v.Of(kind), pair) - PodShare(kind, inc, node, pair, p);
        assert Lookup(v''.Of(kind), pair) == Lookup(v'.Of(kind), pair) + PodShare(kind, inc, node, pair, p);
      }
      TidyIsUnique(v''.Of(kind), v.Of(kind));
    }
    assert v''.Of(Existing) == v.Of(Existing) && v''.Of(Affinity) == v.Of(Affinity) && v''.Of(Anti) == v.Of(Anti);
  }
}
