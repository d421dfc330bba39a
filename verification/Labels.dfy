/** Label sets and label selectors, as the scheduler's plugins use them. */
module Labels {

  datatype Option<+T> = None | Some(value: T)

  type Labels = map<string, string>

  /** One requirement on one label key. */
  datatype Requirement =
    | In(key: string, values: set<string>)
    | NotIn(key: string, values: set<string>)
    | Exists(key: string)
    | DoesNotExist(key: string)
  {
    predicate Matches(labels: Labels) {
      match this
      case In(_, values) => key in labels && labels[key] in values
      case NotIn(_, values) => key in labels ==> labels[key] !in values
      case Exists(_) => key in labels
      case DoesNotExist(_) => key !in labels
    }
  }

  /** A parsed selector: `Nothing` matches no label set, a conjunction of no
      requirements matches every label set. Only the latter is empty. */
  datatype Selector = Nothing | Requirements(reqs: set<Requirement>) {
    predicate Matches(labels: Labels) {
      Requirements? && forall r | r in reqs :: r.Matches(labels)
    }

    predicate Empty() {
      Requirements? && reqs == {}
    }
  }

  /** The API form of a selector; an absent one selects nothing. */
  datatype LabelSelector = LabelSelector(matchLabels: Labels, matchExpressions: set<Requirement>)

  /** The requirements that every pair of `labels` be present. */
  function PairRequirements(labels: Labels): set<Requirement> {
    set k | k in labels :: In(k, {labels[k]})
  }

  function LabelSelectorAsSelector(s: Option<LabelSelector>): Selector {
    match s
    case None => Nothing
    case Some(ls) => Requirements(PairRequirements(ls.matchLabels) + ls.matchExpressions)
  }

  /** The value Go reads for a label that may be absent. */
  function ValueOrEmpty(labels: Labels, key: string): string {
    if key in labels then labels[key] else ""
  }

  predicate HasPairs(labels: Labels, pairs: Labels) {
    forall k | k in pairs :: k in labels && labels[k] == pairs[k]
  }

  lemma PairRequirementsMatch(pairs: Labels, labels: Labels)
    ensures Requirements(PairRequirements(pairs)).Matches(labels) <==> HasPairs(labels, pairs)
  {
    if Requirements(PairRequirements(pairs)).Matches(labels) {
      forall k | k in pairs ensures k in labels && labels[k] == pairs[k] {
        assert In(k, {pairs[k]}) in PairRequirements(pairs);
        assert In(k, {pairs[k]}).Matches(labels);
      }
    }
  }

  // ---- What selectors mean ----

  /** What a selector in API form selects. */
  predicate SelectsLabels(s: LabelSelector, labels: Labels) {
    HasPairs(labels, s.matchLabels) && forall r | r in s.matchExpressions :: r.Matches(labels)
  }

  lemma SelectorMeaning(s: Option<LabelSelector>, labels: Labels)
    ensures LabelSelectorAsSelector(s).Matches(labels) <==> s.Some? && SelectsLabels(s.value, labels)
    ensures LabelSelectorAsSelector(s).Empty() <==>
            s.Some? && s.value.matchLabels == map[] && s.value.matchExpressions == {}
  {
    if s.Some? {
      PairRequirementsMatch(s.value.matchLabels, labels);
      if s.value.matchLabels != map[] {
        var k :| k in s.value.matchLabels;
        assert In(k, {s.value.matchLabels[k]}) in PairRequirements(s.value.matchLabels);
      }
    }
  }

  /** Requirements in terms of pairs: one of some pairs, any pair of a key, and
      the negations of the two. */
  lemma RequirementMeaning(key: string, values: set<string>, labels: Labels)
    ensures In(key, values).Matches(labels) <==> exists v :: v in values && HasPairs(labels, map[key := v])
    ensures Exists(key).Matches(labels) <==> exists v :: HasPairs(labels, map[key := v])
    ensures NotIn(key, values).Matches(labels) <==> !In(key, values).Matches(labels)
    ensures DoesNotExist(key).Matches(labels) <==> !Exists(key).Matches(labels)
  {
    if key in labels {
      assert HasPairs(labels, map[key := labels[key]]);
    }
    forall v | HasPairs(labels, map[key := v]) ensures key in labels && labels[key] == v {
      assert key in map[key := v];
    }
  }
}
