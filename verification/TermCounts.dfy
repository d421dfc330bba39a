/** Sparse counters of topology pairs, as the inter-pod affinity filter keeps
    them: a pair has an entry exactly when its count is not zero. */
module TermCounts {
  import opened Labels
  import opened Cluster
  import opened Sums

  datatype TopologyPair = TopologyPair(key: string, value: string)

  type PairCounts = map<TopologyPair, int>

  function Lookup(m: PairCounts, pair: TopologyPair): int {
    if pair in m then m[pair] else 0
  }

  predicate Tidy(m: PairCounts) {
    forall pair | pair in m :: m[pair] != 0
  }

  predicate Positive(m: PairCounts) {
    forall pair | pair in m :: m[pair] > 0
  }

  /** Without zero entries the counts determine the map. */
  lemma TidyIsUnique(a: PairCounts, b: PairCounts)
    requires Tidy(a) && Tidy(b) && forall pair :: Lookup(a, pair) == Lookup(b, pair)
    ensures a == b
  {
    assert forall pair :: pair in a <==> Lookup(a, pair) != 0;
    assert forall pair :: pair in b <==> Lookup(b, pair) != 0;
    assert a.Keys == b.Keys;
    assert forall pair | pair in a :: a[pair] == Lookup(a, pair) && b[pair] == Lookup(b, pair);
  }

  /** The node lies in the domain `pair` of the key. */
  predicate Hits(node: Node, key: string, pair: TopologyPair) {
    key in node.labels && pair == TopologyPair(key, node.labels[key])
  }

  predicate MatchesAll(terms: seq<AffinityTerm>, pod: Pod) {
    terms != [] && forall t | t in terms :: t.Matches(pod, map[])
  }

  method PodMatchesAllAffinityTerms(terms: seq<AffinityTerm>, pod: Pod) returns (r: bool)
    ensures r <==> MatchesAll(terms, pod)
  {
    if |terms| == 0 {
      return false;
    }
    for i := 0 to |terms|
      invariant forall j | 0 <= j < i :: terms[j].Matches(pod, map[])
    {
      if !terms[i].Matches(pod, map[]) {
        return false;
      }
    }
    r := true;
  }

  ghost function AffinityFn(node: Node, pair: TopologyPair): AffinityTerm -> int {
    (t: AffinityTerm) => if Hits(node, t.topologyKey, pair) then 1 else 0
  }

  ghost function AntiAffinityFn(target: Pod, nsLabels: Labels, node: Node, pair: TopologyPair): AffinityTerm -> int {
    (t: AffinityTerm) => if t.Matches(target, nsLabels) && Hits(node, t.topologyKey, pair) then 1 else 0
  }

  /** How often `terms` count `pair` for a pod on `node` that matches them all. */
  ghost function AffinityShare(terms: seq<AffinityTerm>, pod: Pod, node: Node, pair: TopologyPair): int {
    if MatchesAll(terms, pod) then Sum(terms, AffinityFn(node, pair)) else 0
  }

  /** How often `terms` count `pair` for a pod on `node` that matches some. */
  ghost function AntiAffinityShare(terms: seq<AffinityTerm>, pod: Pod, nsLabels: Labels, node: Node,
      pair: TopologyPair): int {
    Sum(terms, AntiAffinityFn(pod, nsLabels, node, pair))
  }

  class TopologyToMatchedTermCount {
    var counts: PairCounts

    constructor ()
      ensures counts == map[]
    {
      counts := map[];
    }

    method Update(node: Node, tk: string, value: int)
      modifies this
      ensures forall pair ::
        Lookup(counts, pair) == Lookup(old(counts), pair) + if Hits(node, tk, pair) then value else 0
      ensures Tidy(old(counts)) ==> Tidy(counts)
    {
      if tk in node.labels {
        var pair := TopologyPair(tk, node.labels[tk]);
        counts := counts[pair := Lookup(counts, pair) + value];
        if counts[pair] == 0 {
          counts := counts - {pair};
        }
      }
    }

    method UpdateWithAffinityTerms(terms: seq<AffinityTerm>, pod: Pod, node: Node, value: int)
      modifies this
      ensures forall pair ::
        Lookup(counts, pair) == Lookup(old(counts), pair) + AffinityShare(terms, pod, node, pair) * value
      ensures Tidy(old(counts)) ==> Tidy(counts)
    {
      var all := PodMatchesAllAffinityTerms(terms, pod);
      if all {
        for i := 0 to |terms|
          invariant forall pair ::
            Lookup(counts, pair) == Lookup(old(counts), pair) + Sum(terms[..i], AffinityFn(node, pair)) * value
          invariant Tidy(old(counts)) ==> Tidy(counts)
        {
          assert terms[..i + 1][..i] == terms[..i];
          Update(node, terms[i].topologyKey, value);
        }
        assert terms[..|terms|] == terms;
      }
    }

    method UpdateWithAntiAffinityTerms(terms: seq<AffinityTerm>, pod: Pod, nsLabels: Labels, node: Node, value: int)
      modifies this
      ensures forall pair ::
        Lookup(counts, pair) == Lookup(old(counts), pair) + AntiAffinityShare(terms, pod, nsLabels, node, pair) * value
      ensures Tidy(old(counts)) ==> Tidy(counts)
    {
      for i := 0 to |terms|
        invariant forall pair ::
          Lookup(counts, pair) ==
          Lookup(old(counts), pair) + Sum(terms[..i], AntiAffinityFn(pod, nsLabels, node, pair)) * value
        invariant Tidy(old(counts)) ==> Tidy(counts)
      {
        assert terms[..i + 1][..i] == terms[..i];
        if terms[i].Matches(pod, nsLabels) {
          Update(node, terms[i].topologyKey, value);
        }
      }
      assert terms[..|terms|] == terms;
    }

    method MergeWithList(list: seq<TopologyPairCount>)
      modifies this
      ensures forall pair :: Lookup(counts, pair) == Lookup(old(counts), pair) + ListCount(list, pair)
      ensures Positive(old(counts)) && AllOnes(list) ==> Positive(counts)
    {
      for i := 0 to |list|
        invariant forall pair :: Lookup(counts, pair) == Lookup(old(counts), pair) + ListCount(list[..i], pair)
        invariant Positive(old(counts)) && AllOnes(list) ==> Positive(counts)
      {
        assert list[..i + 1][..i] == list[..i];
        counts := counts[list[i].pair := Lookup(counts, list[i].pair) + list[i].count];
      }
      assert list[..|list|] == list;
    }

    /** Entry by entry, in an arbitrary order. */
    method Merge(toMerge: TopologyToMatchedTermCount)
      requires toMerge != this
      modifies this
      ensures forall pair :: Lookup(counts, pair) == Lookup(old(counts), pair) + Lookup(toMerge.counts, pair)
      ensures old(counts) == map[] ==> counts == toMerge.counts
    {
      var rest := toMerge.counts.Keys;
      while rest != {}
        invariant rest <= toMerge.counts.Keys && toMerge.counts == old(toMerge.counts)
        invariant counts.Keys == old(counts).Keys + (toMerge.counts.Keys - rest)
        invariant forall pair ::
          Lookup(counts, pair) == Lookup(old(counts), pair) + (if pair in rest then 0 else Lookup(toMerge.counts, pair))
        decreases rest
      {
        var pair :| pair in rest;
        counts := counts[pair := Lookup(counts, pair) + toMerge.counts[pair]];
        rest := rest - {pair};
      }
      if old(counts) == map[] {
        assert counts.Keys == toMerge.counts.Keys;
        assert forall pair | pair in counts :: counts[pair] == Lookup(counts, pair);
      }
    }

    method Clone() returns (copy: TopologyToMatchedTermCount)
      ensures fresh(copy) && copy.counts == counts
    {
      copy := new TopologyToMatchedTermCount();
      copy.Merge(this);
    }
  }

  // ---- The list form that the per-node workers fill ----

  datatype TopologyPairCount = TopologyPairCount(pair: TopologyPair, count: int)

  ghost function ListFn(pair: TopologyPair): TopologyPairCount -> int {
    (c: TopologyPairCount) => if c.pair == pair then c.count else 0
  }

  ghost function ListCount(list: seq<TopologyPairCount>, pair: TopologyPair): int {
    Sum(list, ListFn(pair))
  }

  predicate AllOnes(list: seq<TopologyPairCount>) {
    forall c | c in list :: c.count == 1
  }

  method Append(m: seq<TopologyPairCount>, node: Node, tk: string, value: int) returns (r: seq<TopologyPairCount>)
    ensures forall pair :: ListCount(r, pair) == ListCount(m, pair) + if Hits(node, tk, pair) then value else 0
    ensures forall c | c in r :: c in m || c.count == value
  {
    r := m;
    if tk in node.labels {
      r := m + [TopologyPairCount(TopologyPair(tk, node.labels[tk]), value)];
      assert r[..|r| - 1] == m;
    }
  }

  method AppendWithAffinityTerms(m: seq<TopologyPairCount>, terms: seq<AffinityTerm>, pod: Pod, node: Node)
    returns (r: seq<TopologyPairCount>)
    ensures forall pair :: ListCount(r, pair) == ListCount(m, pair) + AffinityShare(terms, pod, node, pair)
    ensures AllOnes(m) ==> AllOnes(r)
  {
    r := m;
    var all := PodMatchesAllAffinityTerms(terms, pod);
    if all {
      for i := 0 to |terms|
        invariant forall pair :: ListCount(r, pair) == ListCount(m, pair) + Sum(terms[..i], AffinityFn(node, pair))
        invariant AllOnes(m) ==> AllOnes(r)
      {
        assert terms[..i + 1][..i] == terms[..i];
        r := Append(r, node, terms[i].topologyKey, 1);
      }
      assert terms[..|terms|] == terms;
    }
  }

  method AppendWithAntiAffinityTerms(m: seq<TopologyPairCount>, terms: seq<AffinityTerm>, pod: Pod, nsLabels: Labels,
      node: Node)
    returns (r: seq<TopologyPairCount>)
    ensures forall pair ::
      ListCount(r, pair) == ListCount(m, pair) + AntiAffinityShare(terms, pod, nsLabels, node, pair)
    ensures AllOnes(m) ==> AllOnes(r)
  {
    r := m;
    for i := 0 to |terms|
      invariant forall pair ::
        ListCount(r, pair) == ListCount(m, pair) + Sum(terms[..i], AntiAffinityFn(pod, nsLabels, node, pair))
      invariant AllOnes(m) ==> AllOnes(r)
    {
      assert terms[..i + 1][..i] == terms[..i];
      if terms[i].Matches(pod, nsLabels) {
        r := Append(r, node, terms[i].topologyKey, 1);
      }
    }
    assert terms[..|terms|] == terms;
  }
}
