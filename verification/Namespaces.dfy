/** Unrolling namespace selectors of the incoming pod's affinity terms. */
module Namespaces {
  import opened Labels
  import opened Cluster

  /** The namespaces the lister knows, with their labels. */
  type Lister = map<string, Labels>

  /** An unknown namespace is taken to have no labels. */
  function NamespaceLabels(lister: Lister, ns: string): Labels {
    if ns in lister then lister[ns] else map[]
  }

  function Listed(lister: Lister, selector: Selector): set<string> {
    set n | n in lister && selector.Matches(lister[n])
  }

  function Unrolled(t: AffinityTerm, lister: Lister): AffinityTerm {
    if t.namespaceSelector.Empty() then t
    else t.(namespaces := t.namespaces + Listed(lister, t.namespaceSelector), namespaceSelector := Nothing)
  }

  function AllUnrolled(terms: seq<AffinityTerm>, lister: Lister): seq<AffinityTerm> {
    seq(|terms|, i requires 0 <= i < |terms| => Unrolled(terms[i], lister))
  }

  method MergeAffinityTermNamespacesIfNotEmpty(terms: array<AffinityTerm>, i: nat, lister: Lister)
    requires i < terms.Length
    modifies terms
    ensures terms[i] == Unrolled(old(terms[i]), lister)
    ensures forall j | 0 <= j < terms.Length && j != i :: terms[j] == old(terms[j])
  {
    var at := terms[i];
    if at.namespaceSelector.Empty() {
      return;
    }
    var ns := Listed(lister, at.namespaceSelector);
    var rest := ns;
    while rest != {}
      invariant rest <= ns
      invariant terms[i].namespaces == at.namespaces + (ns - rest)
      invariant terms[i].(namespaces := at.namespaces) == at
      invariant forall j | 0 <= j < terms.Length && j != i :: terms[j] == old(terms[j])
      decreases rest
    {
      var n :| n in rest;
      terms[i] := terms[i].(namespaces := terms[i].namespaces + {n});
      rest := rest - {n};
    }
    terms[i] := terms[i].(namespaceSelector := Nothing);
  }

  /** Rewrites all terms of an incoming pod in place. */
  method MergeAllNamespaces(terms: array<AffinityTerm>, lister: Lister)
    modifies terms
    ensures terms[..] == AllUnrolled(old(terms[..]), lister)
  {
    for i := 0 to terms.Length
      invariant forall j | 0 <= j < terms.Length ::
        terms[j] == if j < i then Unrolled(old(terms[j]), lister) else old(terms[j])
    {
      MergeAffinityTermNamespacesIfNotEmpty(terms, i, lister);
    }
  }

  /** The one pair on which rewriting matters: the lister does not know the
      namespace of the pod, and the term would take the pod only because its
      selector accepts a namespace without labels. */
  predicate Odd(t: AffinityTerm, lister: Lister, pod: Pod) {
    && pod.namespace !in lister && pod.namespace !in t.namespaces
    && !t.namespaceSelector.Empty() && t.namespaceSelector.Matches(map[])
    && t.selector.Matches(pod.labels)
  }

  /** The term selects the pod by the labels of the pod's namespace. */
  predicate Selects(t: AffinityTerm, lister: Lister, pod: Pod) {
    t.Matches(pod, NamespaceLabels(lister, pod.namespace))
  }

  /** The rewritten term, matched without namespace labels, selects the pods
      that the original selects by the labels of their namespace, with exactly
      the odd pairs as exceptions. */
  lemma UnrolledMatches(t: AffinityTerm, lister: Lister, pod: Pod)
    ensures (Unrolled(t, lister).Matches(pod, map[]) <==> Selects(t, lister, pod)) <==> !Odd(t, lister, pod)
    ensures Odd(t, lister, pod) ==> Selects(t, lister, pod)
  {
  }

  /** Odd pairs exist: a term for all namespaces without a team, and a pod in a
      namespace that the lister does not know. */
  lemma OddPairIsMissed(pod: Pod, key: string)
    ensures var t := AffinityTerm({}, Requirements({DoesNotExist("team")}), Requirements({}), key);
            && Odd(t, map[], pod) && Selects(t, map[], pod) && !Unrolled(t, map[]).Matches(pod, map[])
  {
    var selector := Requirements({DoesNotExist("team")});
    assert DoesNotExist("team") in selector.reqs;
    UnrolledMatches(AffinityTerm({}, selector, Requirements({}), key), map[], pod);
  }

  lemma UnrolledMatchesKnown(t: AffinityTerm, lister: Lister, pod: Pod)
    requires pod.namespace in lister
    ensures Unrolled(t, lister).Matches(pod, map[]) <==> t.Matches(pod, lister[pod.namespace])
  {
    UnrolledMatches(t, lister, pod);
  }

  lemma UnrolledTwice(t: AffinityTerm, lister: Lister)
    ensures Unrolled(Unrolled(t, lister), lister) == Unrolled(t, lister)
    ensures Unrolled(t, lister).namespaceSelector.Nothing? || Unrolled(t, lister).namespaceSelector.Empty()
  {
    assert Listed(lister, Nothing) == {};
  }
}
