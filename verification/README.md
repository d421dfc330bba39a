# Scheduling decisions of the cozystack scheduler, modelled and proved in Dafny

The cozystack scheduler extends three Kubernetes scheduler plugins so that a pod
is also bound by the constraints of its SchedulingClass. This project models the
decisions those plugins take and proves what they guarantee:

* **Merging** (`Merger`, `NodeSelectors`): the constraints of a pod and of its
  class become one requirement. Node selectors are ANDed by a cross product of
  ORs; selectors a class leaves out are filled in from the pod's lineage labels.
* **Topology spread** (`SpreadCommon`, `CriticalPaths`, `SpreadDefs`,
  `SpreadFilter`, `SpreadRefinement`, `SpreadSafety`, `SpreadPlugin`,
  `SpreadExamples`, `SpreadLineage`, `SpreadScoring`, `SpreadWritten`,
  `SpreadScoreWritten`, `SpreadHints`): per-domain counts and a two-slot minimum
  tracker, updated pod by pod; the filter and the score read off them; the
  queueing hints.
* **Inter-pod affinity** (`Namespaces`, `TermCounts`, `AffinityDefs`,
  `AffinityFilter`, `AffinityWritten`, `AffinityRefinement`, `AffinityRuns`,
  `AffinityHints`, `AffinityScoring`, `AffinityVerdict`, `AffinityScoreWritten`):
  sparse counters per topology pair, filled by parallel workers and updated pod by
  pod; the filter and the score read off them; the queueing hint for pod events.
* **Node affinity** (`NodeAffinity`): pruning the nodes by name, the filter, and
  the queueing hint.

Each component is stated twice. The precomputed structures are classes and
methods with the loops of the program; the definitions are ghost functions and
predicates over a snapshot of the cluster (sums over nodes and pods, pairwise
conditions). The theorems connect the two; those of `SpreadWritten`,
`SpreadScoreWritten`, `AffinityVerdict` and `AffinityScoreWritten` state verdicts
and scores on the API fields that pods, classes and nodes are written with. Others
speak about whole runs: incremental equals recomputed, skew safety, symmetric
anti-affinity, and the spread, co-location and separation of an application's
pods among pods of any other kind. All counts are instances of one sum over sequences (`Sums`);
`Scores` holds the 64-bit and floating-point arithmetic of node scores.

Parallel loops are modelled by visiting the nodes in an arbitrary order, with
results in a shared slice of slots (`ResultSlots`) or, where the program adds
atomically to shared counters, by an arbitrary interleaving of (node,
constraint) pairs. Go's unordered map iteration is an arbitrary order as well.

Several promises fail on some input. For each there is the exact condition and
a lemma with such an input:

* The two-slot tracker is exact when one topology value per constraint changes,
  as its own comment says (`CriticalPaths.ExactStep`,
  `CriticalPaths.TwoSlotsLoseTheMinimum`).
* AddPod and RemovePod agree with a recount unless they count a pod that a
  recount passes over (`SpreadRefinement.AddExact`,
  `SpreadRefinement.TerminatingPodIsMiscounted`).
* Losing a pod can break a balanced spread, since the filter looks at placements
  only (`SpreadSafety.LossExact`, `SpreadSafety.LossesBreakTheBalance`).
* The comment on `mergeNodeSelectors` promises AND, but a term that is empty, and
  so matches nothing alone, drops out of the product (`Merger.MergeMeansAnd`,
  `Merger.EmptyTermDropsOut`).
* The topology spread hints skip updates that start a termination, and node
  updates that change the match with the required node affinity
  (`SpreadPlugin.SkippedPodUpdateExact`, `SpreadExamples.TerminationIsMissed`,
  `SpreadPlugin.SkippedNodeUpdateExact`, `SpreadExamples.LostEligibilityIsMissed`).
* The inter-pod hint for pod events skips deletions and updates of pods that only
  some anti-affinity term selects, and additions in namespaces that only a
  namespace selector reaches (`AffinityHints.SkippedDeleteExact`,
  `AffinityHints.OneOfTwoTermsIsMissed`, `AffinityHints.SkippedUpdateExact`,
  `AffinityHints.OneOfTwoTermsLetsGo`, `AffinityHints.SkippedAddExact`,
  `AffinityHints.TeamMemberIsMissed`).
* The node affinity hint skips nodes that only the enforced selector kept out
  (`NodeAffinity.HintExact`, `NodeAffinity.EnforcedSelectorIsMissed`).
* Unrolled namespace selectors pass over pods of namespaces that the lister does
  not know (`Namespaces.UnrolledMatches`, `Namespaces.OddPairIsMissed`).

The hypotheses of the main theorems: fewer than 2^31 - 1 pods in the snapshot
(for the MaxInt32 sentinel), runs whose steps avoid the conditions above, fixed
node labels in runs, pods of one application that agree on class, node
requirements and own constraints for its spread, no odd pair of term and pod
where inter-pod affinity is stated on written terms, and non-negative weights and
`maxSkew` of at least 1 in scoring. Feature flags are parameters. So are the
resolved SchedulingClass, the snapshot, the namespace lister, the rounding of
floating-point numbers and the logarithmic weight.

## Model

| member | source | states |
|---|---|---|
| CriticalPaths.Update | pkg/podtopologyspread/filtering.go:108-136 | the in-place update of the two slots (match, swap, evict) leaves exactly the slots that the run theorems below are about |
| CriticalPaths.Fold | pkg/podtopologyspread/filtering.go:302-309 | folding a finished count map in any iteration order leaves the least count and the least of the other counts, the unused slots being sentinels |
| CriticalPaths.FoldStep | pkg/podtopologyspread/filtering.go:108-136 | one more topology value keeps that, also for the legal value "" that the sentinel reuses and for fewer than two domains |
| CriticalPaths.TracksStep | pkg/podtopologyspread/filtering.go:108-136 | the invariant of single-value runs survives an update of that value to any count below MaxInt32 |
| CriticalPaths.SingleValueRun | pkg/podtopologyspread/filtering.go:90-136 | after folding a map and then any run of updates to one topology value, the first slot is the true minimum at every step |
| CriticalPaths.AnyValueRun | pkg/podtopologyspread/filtering.go:43-47 | after updates to any values the slots are ordered, each used slot carries the current count of its value, and the first never falls below the minimum |
| CriticalPaths.ExactStep | pkg/podtopologyspread/filtering.go:90-96 | from exact slots one update loses the minimum if and only if it raises the value in the first slot and a value in neither slot now counts less than both |
| CriticalPaths.TwoSlotsLoseTheMinimum | pkg/podtopologyspread/filtering.go:90-96 | the caveat is real: three domains and updates to two of them leave 5 in the first slot while the minimum is 3 |
| SpreadCommon.FilterTopologySpreadConstraints | pkg/podtopologyspread/common.go:86-127 | keeps, in order, the constraints with the asked-for action, parsed as SpreadWritten.ConstraintsAreWritten pins field by field |
| SpreadCommon.ParsedSelectorMatches | pkg/podtopologyspread/common.go:95-105 | a parsed selector selects what the written one selects among the pods agreeing with the incoming pod on its match label keys; a selector of nothing stays one |
| Labels.SelectorMeaning | pkg/podtopologyspread/common.go:90-93 | a parsed selector selects the label sets with all its pairs and requirements, an absent one none; only the selector of nothing in particular is empty |
| Labels.RequirementMeaning | pkg/podtopologyspread/common.go:90-93 | a requirement asks for one of some pairs, for any pair of a key, or for the opposite of either |
| SpreadCommon.TaintsMeaning | pkg/podtopologyspread/common.go:50-54 | a node keeps pods away by each single untolerated taint, except one that only asks to prefer other nodes |
| Cluster.TolerationMeaning | pkg/podtopologyspread/common.go:50-54 | a toleration tolerates the taint it spells out; an absent effect, value or key stands for all of them |
| NodeSelectors.NodeTermMeaning | pkg/podtopologyspread/common.go:42-48 | required node terms are ORed, requirements look at labels or at the node's name, and a selector without terms matches nothing |
| SpreadCommon.CountPodsMatchSelector | pkg/podtopologyspread/common.go:144-159 | counts the non-terminating pods of the namespace that match, and 0 under an empty selector |
| SpreadPlugin.ParsedConstraintsMembers | pkg/podtopologyspread/common.go:86-127 | a constraint is in the parsed list if and only if it is the parse of a listed one with that action |
| SpreadPlugin.DefaultConstraintsMembers | pkg/podtopologyspread/common.go:61-74 | the default constraints that bind a pod are exactly the parsed defaults with their selector replaced by the owners', none if that is empty |
| SpreadPlugin.ConstraintsOfPodAndClass | pkg/podtopologyspread/plugin.go:267-296 | a pod with a class is bound by exactly its own constraints and the class's with absent selectors filled in, as far as they ask for the action; with none at all, by the default constraints on its owners' selector unless that is empty |
| SpreadPlugin.DefaultedConstraintSpreadsLineage | pkg/podtopologyspread/plugin.go:267-296 | a class constraint without selector reaches the filter (or scoring), never with an empty selector, and selects exactly the pods of the pod's own complete lineage that agree on its match label keys, else none |
| SpreadPlugin.PreFilter | pkg/podtopologyspread/filtering.go:139-151 | no state exactly when no constraint that forbids binds the pod, else the state computed for those constraints |
| SpreadWritten.ConstraintsAreWritten | pkg/podtopologyspread/plugin.go:267-296 | the constraints decided by are, one by one and in order, the written ones that bind the pod, its own, then its class's, else the defaults: with their maxSkew, key, minDomains (1 if absent) and policies (Honor and Ignore if absent), and selecting by their own selector, by lineage or by owners, with the match label keys in force |
| SpreadWritten.VerdictAsWritten | pkg/podtopologyspread/filtering.go:328-357 | on a computed state the filter accepts a node if and only if every written constraint that forbids finds its key there and keeps count + self-match - minimum within its maxSkew, all of it read from the API fields of pod, class, nodes and pods |
| SpreadFilter.PreFilterState.Clone | pkg/podtopologyspread/filtering.go:71-88 | the clone has the same value and shares no mutable object with the original |
| SpreadFilter.PreFilterState.UpdateWithPod | pkg/podtopologyspread/filtering.go:178-210 | every constraint that counts the pod on the node has its domain changed by delta and its slots updated; all others are untouched, and without a node nothing changes |
| SpreadFilter.PreFilterState.AddPod | pkg/podtopologyspread/filtering.go:157-165 | counts the pod in |
| SpreadFilter.PreFilterState.RemovePod | pkg/podtopologyspread/filtering.go:168-176 | counts the pod out |
| SpreadFilter.PreFilterState.MinMatchNum | pkg/podtopologyspread/filtering.go:55-68 | the first slot's count, or 0 while there are fewer domains than asked for |
| SpreadFilter.PreFilterState.Filter | pkg/podtopologyspread/filtering.go:315-360 | success if and only if every constraint passes; UnschedulableAndUnresolvable if and only if the first failing constraint lacks its key on the node |
| SpreadRefinement.CountNodes | pkg/podtopologyspread/filtering.go:257-293 | per-node counts, for every completion order of the workers |
| SpreadRefinement.CalPreFilterState | pkg/podtopologyspread/filtering.go:234-312 | every count map equals the per-domain sums over eligible nodes, and its slots hold the two smallest counts |
| SpreadDefs.CountMapOfChangedPods | pkg/podtopologyspread/filtering.go:178-210 | changing the pods of one node leaves the set of domains and changes the count of that node's own domain only |
| SpreadRefinement.AddExact | pkg/podtopologyspread/filtering.go:178-210 | AddPod agrees with a recount of constraint i if and only if it does not count a terminating pod or a pod under an empty selector |
| SpreadRefinement.RemoveExact | pkg/podtopologyspread/filtering.go:178-210 | the same if and only if for RemovePod |
| SpreadRefinement.TerminatingPodIsMiscounted | pkg/podtopologyspread/filtering.go:178-210 | the exception is real: on a zone of one node a terminating pod moves the count to 1 or to -1 while a recount stays at 0 |
| SpreadRefinement.StepInSync | pkg/podtopologyspread/filtering.go:178-210 | one event keeps counts and slots in step with the snapshot if and only if a recount notices the pod under every constraint that counts it |
| SpreadRefinement.IncrementalEqualsRecomputed | pkg/podtopologyspread/filtering.go:178-210 | after any run of such additions and removals on one node, every map, every minimum and the verdict on every node are those recomputed from the changed snapshot |
| SpreadRefinement.ExactVerdict | pkg/podtopologyspread/filtering.go:328-357 | on exact counts and minima the filter passes a node if and only if the skew definition accepts it |
| SpreadRefinement.ComputedVerdict | pkg/podtopologyspread/filtering.go:328-357 | the same for a freshly computed state |
| SpreadRefinement.GlobalMinIsACount | pkg/podtopologyspread/filtering.go:55-68 | with MinDomains at least 1 the minimum is 0 or the count of a real domain, so the MaxInt32 sentinel never enters the skew |
| SpreadRefinement.LoneConstraintAdmits | pkg/podtopologyspread/filtering.go:338-356 | a lone constraint with maxSkew at least 1 and enough domains always admits some eligible node |
| SpreadSafety.PlacementKeepsBalance | pkg/podtopologyspread/filtering.go:338-356 | placing a pod keeps every eligible domain of a constraint within maxSkew of the minimum, if the constraint accepts the pod or does not count it there |
| SpreadSafety.LossExact | pkg/podtopologyspread/filtering.go:338-356 | from a balanced snapshot, removing a pod or its starting to terminate breaks the balance if and only if it is counted in a least used domain, that minimum is in force, and another domain stands at maxSkew above it |
| SpreadSafety.LossesBreakTheBalance | pkg/podtopologyspread/filtering.go:338-356 | the condition occurs: with maxSkew 1 and counts 1 and 2, losing the single pod leaves 0 and 2 |
| SpreadSafety.RunsStayBalanced | pkg/podtopologyspread/filtering.go:338-356 | so does every run of filtered placements, free placements of pods not counted, and losses that are harmless by that condition |
| SpreadSafety.BalancedIsEven | pkg/podtopologyspread/filtering.go:338-340 | in such a state no two domains differ by more than maxSkew once there are enough of them |
| SpreadSafety.SkewSafety | pkg/podtopologyspread/filtering.go:328-357 | from empty nodes every state such a run reaches keeps count(d) within maxSkew of the minimum (0 below minDomains), and of every other domain once there are enough |
| SpreadLineage.SiblingsFilteredAlike | pkg/podtopologyspread/plugin.go:267-296 | pods of one application set up alike get constraint lists of the same length that agree up to the selector, and altogether where the reference pod's selector selects the other pod |
| SpreadLineage.OwnVerdictCounts | pkg/podtopologyspread/filtering.go:328-357 | a pod accepted by its own constraints is accepted by every constraint of the reference pod that selects it |
| SpreadLineage.LineageSpreadHolds | pkg/podtopologyspread/filtering.go:328-357 | a class constraint without selector keeps each application spread: its pods, each filtered by its own constraints, stay within maxSkew of the minimum in every eligible domain, whatever else is placed in the namespace |
| SpreadLineage.ApplicationStaysSpread | pkg/podtopologyspread/filtering.go:328-357 | from empty nodes, and for a class none of whose binding constraints names pods, all constraints of the application stay balanced |
| SpreadPlugin.SkippedPodUpdateIsSafe | pkg/podtopologyspread/plugin.go:213-239 | a skipped pod update leaves all counts and all verdicts unchanged, for an assigned pod other than the target that keeps namespace and terminating flag |
| SpreadPlugin.SkippedPodUpdateExact | pkg/podtopologyspread/plugin.go:221-238 | without the flag hypothesis: a skipped update changes the counts if and only if the flag of a pod the constraint selects on an eligible node changed |
| SpreadExamples.TerminationIsMissed | pkg/podtopologyspread/plugin.go:221-238 | such an update exists: a pod starts to terminate, the update is skipped, and its zone turns from rejected to accepted |
| SpreadPlugin.SkippedPodAddIsSafe | pkg/podtopologyspread/plugin.go:242-251 | a skipped pod addition changes no count and no verdict |
| SpreadPlugin.SkippedPodDeleteIsSafe | pkg/podtopologyspread/plugin.go:254-262 | a skipped pod deletion changes no count and no verdict |
| SpreadPlugin.SkippedNodeUpdateIsSafe | pkg/podtopologyspread/plugin.go:327-339 | a skipped node update changes no count and no verdict, also on the changed node, if its required-affinity match is kept |
| SpreadPlugin.SkippedNodeUpdateExact | pkg/podtopologyspread/plugin.go:327-339 | without that hypothesis: a skipped update changes the counts if and only if the node becomes or stops being eligible and holds counted pods or is the only eligible node of its domain; only the required-affinity match can bring that about |
| SpreadExamples.LostEligibilityIsMissed | pkg/podtopologyspread/plugin.go:327-339 | such an update exists: the node that holds a zone's pods loses a label the pod asks for, the update is skipped, and the zone turns from rejected to accepted |
| SpreadPlugin.SkippedNodeAddIsSafe | pkg/podtopologyspread/plugin.go:341-350 | a skipped node addition changes no count or verdict, and the new node is not accepted |
| SpreadPlugin.SkippedNodeDeleteIsSafe | pkg/podtopologyspread/plugin.go:352-358 | a skipped node deletion changes no count and no verdict |
| SpreadHints.PodAddQueued | pkg/podtopologyspread/plugin.go:242-251 | a retry is asked for after an addition if and only if a count changed, or a constraint that selects the pod passes over it: by its node, by an empty selector or as terminating |
| SpreadHints.PodDeleteQueued | pkg/podtopologyspread/plugin.go:254-262 | the same if and only if for a deletion |
| SpreadHints.PodUpdateQueued | pkg/podtopologyspread/plugin.go:213-239 | and for an update, with the constraints whose selector tells the two versions apart |
| SpreadHints.UnassignedPodIsSkipped | pkg/podtopologyspread/plugin.go:201-205 | no event on a pod without a node, other than the target, leads to a retry |
| SpreadHints.SkippedTargetUpdateIsSafe | pkg/podtopologyspread/plugin.go:213-239 | a skipped update of the target itself, its labels and tolerations, changes no verdict on it |
| SpreadHints.TargetLabelsQueued | pkg/podtopologyspread/plugin.go:221-234 | after an update of its labels a retry is asked for if and only if some constraint decides otherwise where all are at their limit |
| SpreadHints.TargetTolerationsQueued | pkg/podtopologyspread/plugin.go:214-219 | after an update of its tolerations alone, if and only if some constraint's eligible nodes depend on tolerated taints |
| SpreadHints.NodeAddQueued | pkg/podtopologyspread/plugin.go:341-350 | after a node addition, if and only if some cluster accepts the node |
| SpreadHints.NodeDeleteQueued | pkg/podtopologyspread/plugin.go:352-358 | after a node deletion, if and only if the counts of some cluster change with it |
| SpreadHints.NodeUpdateQueued | pkg/podtopologyspread/plugin.go:327-339 | after a node update, if and only if the counts of some cluster change with it or the taints of a node with all keys did |
| SpreadScoring.InitCounters | pkg/podtopologyspread/scoring.go:94-113 | a zero counter for exactly the values of the candidate nodes, none for per-host constraints, the ignored node names, and the domain sizes |
| SpreadScoring.ComputeWeights | pkg/podtopologyspread/scoring.go:115-122 | the weight of each constraint is taken from its number of domains, or of hosts |
| SpreadScoring.PreScoreState.CountAll | pkg/podtopologyspread/scoring.go:162-198 | for every interleaving of the atomic additions, each counter ends at the sum over all countable nodes of its domain |
| SpreadScoring.PreScore | pkg/podtopologyspread/scoring.go:127-202 | a skip exactly without nodes or without constraints to score by; else counters for the candidate values, holding those sums, the ignored names and the weights, for the constraints and the all-keys rule that pod, class and defaults give |
| SpreadScoring.IgnoredExact | pkg/podtopologyspread/scoring.go:145-154 | a node is passed over if and only if it lacks some topology key and the constraints are written by the pod or its class, or the defaults are not those of the system |
| SpreadScoring.CandidatesCanBeScored | pkg/podtopologyspread/scoring.go:223-229 | for every filtered node that is not ignored, each counter that scoring dereferences exists |
| SpreadScoring.PreScoreState.Score | pkg/podtopologyspread/scoring.go:207-234 | 0 for an ignored node, else the rounded weighted sum over the constraints whose key the node has, every floating-point operation rounded |
| SpreadScoring.RawScoreMonotone | pkg/podtopologyspread/scoring.go:219-233 | with non-negative weights and under any monotone rounding, a node no more crowded under any constraint has no higher raw score, and scores are not negative |
| SpreadScoreWritten.ScoreAsWritten | pkg/podtopologyspread/scoring.go:219-233 | in exact arithmetic the raw score is the sum, over the written constraints that only prefer and whose key the node has, of count times weight plus maxSkew - 1, with the counts, sizes and passed-over nodes read from the API fields |
| SpreadScoring.RoundMeaning | pkg/podtopologyspread/scoring.go:233-233 | the final rounding is off by at most one half, and by a half only away from zero |
| SpreadScoring.NormalizeScore | pkg/podtopologyspread/scoring.go:237-276 | ignored nodes get 0, the rest stay in 0..100 in reverse order of their raw scores with 100 for a least one, if and only if no raw score exceeds a hundredth of MaxInt64; then each is the whole percentage that greatest + least - score is of the greatest |
| Scores.TruncDivMeaning | pkg/podtopologyspread/scoring.go:273-273 | that division rounds towards zero, whatever the sign |
| SpreadScoring.LessCrowdedScoresHigher | pkg/podtopologyspread/scoring.go:207-276 | end to end: a scored node whose domains hold no more matching pods gets a normalized score at least as high |
| Namespaces.MergeAffinityTermNamespacesIfNotEmpty | pkg/interpodaffinity/plugin.go:133-146 | rewrites one term in place, whatever the order of the listed namespaces, and no other |
| Namespaces.MergeAllNamespaces | pkg/interpodaffinity/filtering.go:297-306 | rewrites every term of the incoming pod in place |
| Namespaces.UnrolledMatches | pkg/interpodaffinity/plugin.go:126-146 | the rewritten term without namespace labels selects a pod as the original with them, if and only if the pair is not the odd one: a namespace the lister does not know, taken only because the selector accepts no labels |
| Namespaces.OddPairIsMissed | pkg/interpodaffinity/plugin.go:126-146 | such a pair exists, and the rewritten term misses the pod |
| Namespaces.UnrolledMatchesKnown | pkg/interpodaffinity/plugin.go:126-132 | for known namespaces the two always agree |
| Namespaces.UnrolledTwice | pkg/interpodaffinity/plugin.go:126-146 | rewriting again changes nothing, and leaves a selector of nothing or of everything |
| TermCounts.TopologyToMatchedTermCount.Update | pkg/interpodaffinity/filtering.go:110-119 | the pair of the node's domain changes by the value, no other does, and no zero entry is left behind |
| TermCounts.TopologyToMatchedTermCount.UpdateWithAffinityTerms | pkg/interpodaffinity/filtering.go:123-130 | each pair changes by the value times the number of terms of that domain, if the pod matches all terms |
| TermCounts.TopologyToMatchedTermCount.UpdateWithAntiAffinityTerms | pkg/interpodaffinity/filtering.go:134-141 | each pair changes by the value times the number of matching terms of that domain |
| TermCounts.TopologyToMatchedTermCount.MergeWithList | pkg/interpodaffinity/filtering.go:98-102 | adds the counts of a worker's list, pair by pair |
| TermCounts.TopologyToMatchedTermCount.Clone | pkg/interpodaffinity/filtering.go:104-108 | an equal map in a new object |
| TermCounts.TidyIsUnique | pkg/interpodaffinity/filtering.go:110-119 | maps without zero entries and with the same counts are equal |
| TermCounts.AppendWithAffinityTerms | pkg/interpodaffinity/filtering.go:165-172 | the list form counts the same |
| TermCounts.AppendWithAntiAffinityTerms | pkg/interpodaffinity/filtering.go:176-183 | the list form counts the same |
| TermCounts.PodMatchesAllAffinityTerms | pkg/interpodaffinity/filtering.go:186-198 | true if and only if there are terms and all of them match |
| AffinityDefs.PairCountSign | pkg/interpodaffinity/filtering.go:203-227 | a pair's count is positive if and only if some pod on some node contributes to it |
| AffinityDefs.ExistingConflictCounted | pkg/interpodaffinity/filtering.go:362-374 | an existing pod objects to the node if and only if some label of the node is a pair with a positive count |
| AffinityDefs.IncomingConflictCounted | pkg/interpodaffinity/filtering.go:377-389 | the incoming pod objects if and only if some of its terms has a positive count in the node's domain |
| AffinityDefs.CompanionCounted | pkg/interpodaffinity/filtering.go:394-399 | a pod matching all terms shares the node's domain of a term if and only if its pair has a positive count |
| AffinityDefs.SeriesCounted | pkg/interpodaffinity/filtering.go:406-416 | some pod matching all terms sits on a node bearing a required key if and only if some count is positive |
| AffinityFilter.PreFilterState.Clone | pkg/interpodaffinity/filtering.go:58-71 | an equal state made of new maps |
| AffinityFilter.PreFilterState.UpdateWithPod | pkg/interpodaffinity/filtering.go:74-84 | all three maps change by the pod's share times the multiplier |
| AffinityFilter.PreFilterState.SatisfyPodAffinity | pkg/interpodaffinity/filtering.go:392-418 | the affinity test on the counts, with the first-pod rule |
| AffinityFilter.PreFilterState.SatisfyPodAntiAffinity | pkg/interpodaffinity/filtering.go:377-389 | no term of the incoming pod has a positive count in the node's domain |
| AffinityFilter.PreFilterState.SatisfyExistingPodsAntiAffinity | pkg/interpodaffinity/filtering.go:362-374 | no label pair of the node has a positive count, whatever the order of the labels |
| AffinityFilter.PreFilterState.Filter | pkg/interpodaffinity/filtering.go:422-442 | success if and only if all three hold; UnschedulableAndUnresolvable if and only if affinity fails |
| AffinityFilter.ExactVerdict | pkg/interpodaffinity/filtering.go:362-418 | on the exact counts of a snapshot the verdict is the pairwise definition over pods and nodes |
| AffinityWritten.WrittenVerdict | pkg/interpodaffinity/filtering.go:362-418 | the same on the terms as merged, before unrolling, with every pod judged by the labels of its namespace, if no pair of term and pod is odd |
| AffinityWritten.KnownVerdict | pkg/interpodaffinity/filtering.go:362-418 | in particular whenever the lister knows the namespaces of all pods |
| Cluster.PodsStayParsed | pkg/interpodaffinity/filtering.go:286-286 | snapshots of pods parsed from their own fields arise from empty nodes and stay such under placements and removals |
| AffinityVerdict.RequiredTermsAreWritten | pkg/interpodaffinity/filtering.go:280-306 | the required terms filtered by are, one by one and in order, the parses of the pod's own written terms and then of its class's |
| AffinityVerdict.VerdictAsWritten | pkg/interpodaffinity/filtering.go:362-442 | so on exact counts the filter passes a node if and only if it suits the terms as written: by topology key, namespaces reached, own selector or lineage, of the pod, its class and every pod present, with and without a class |
| AffinityFilter.GetExistingAntiAffinityCounts | pkg/interpodaffinity/filtering.go:203-227 | for every completion order the map holds exactly the non-zero counts of the nodes read, all positive |
| AffinityFilter.FewerNodesSameCounts | pkg/interpodaffinity/filtering.go:280-282 | reading only nodes with anti-affinity pods gives the counts of the whole snapshot |
| AffinityFilter.GetIncomingAffinityAntiAffinityCounts | pkg/interpodaffinity/filtering.go:233-270 | for every completion order both maps hold exactly the non-zero counts of the snapshot |
| AffinityFilter.PreFilter | pkg/interpodaffinity/filtering.go:273-319 | the state is exact for the snapshot and the merged, unrolled terms; a skip is reported if and only if the pod has no required terms and no existing pod objects to any node, so that every node would be accepted |
| AffinityRefinement.StepExact | pkg/interpodaffinity/filtering.go:327-344 | one addition or removal of a present pod, on any node, keeps the maps exact for the changed snapshot |
| AffinityRefinement.RunStaysExact | pkg/interpodaffinity/filtering.go:74-84 | after any run the maps are exact, positive, equal to any recomputed ones, and give the verdicts of the definition |
| AffinityRefinement.RemoveThenAddRestores | pkg/interpodaffinity/filtering.go:110-119 | removing a pod and adding it back restores the maps exactly |
| AffinityRuns.StepExact | pkg/interpodaffinity/filtering.go:422-442 | from a state without repulsion, a removal or a placement the filter passed leads to one without, if and only if no term the new pod holds is odd for a pod in a domain it comes to share |
| AffinityRuns.AntiAffinityHolds | pkg/interpodaffinity/filtering.go:422-442 | in every state reached by such placements and any removals, no pod's required anti-affinity term matches another pod in the same domain, whichever came first |
| AffinityRuns.CoLocationHolds | pkg/interpodaffinity/filtering.go:392-418 | pods of one application placed through a class whose affinity terms say nothing but keys share one domain per key throughout |
| AffinityRuns.FirstPodAdmitted | pkg/interpodaffinity/filtering.go:406-416 | with no pod of the application present, the affinity test admits its first pod on exactly the nodes bearing all keys |
| AffinityRuns.SeparationHolds | pkg/interpodaffinity/filtering.go:377-389 | with such a term as anti-affinity the application's pods occupy pairwise distinct domains, and are never more than the domains |
| AffinityRuns.ClassTermsBindOnlyTheIncomingPod | pkg/interpodaffinity/filtering.go:290-295 | the converse limit: terms held by classes of pods already placed never keep out a pod without class and terms |
| AffinityHints.DeleteMattersIfRelated | pkg/interpodaffinity/filtering.go:362-418 | deleting a pod makes some node acceptable in some cluster if and only if a term between it and the incoming pod selects the other, or both match all affinity terms, and some cluster takes the incoming pod at all |
| AffinityHints.SkippedDeleteExact | pkg/interpodaffinity/plugin.go:219-227 | so the hint skips a deletion that may admit the pod if and only if the deleted pod is so related and not selected by all its anti-affinity terms |
| AffinityHints.OneOfTwoTermsIsMissed | pkg/interpodaffinity/plugin.go:219-227 | such a deletion exists: of a pod that one of two anti-affinity terms selects |
| AffinityHints.MayComeFirst | pkg/interpodaffinity/filtering.go:406-416 | a pod without affinity terms, or selected by all of its own, is taken by some cluster |
| AffinityHints.AddMattersIfGoodCompany | pkg/interpodaffinity/filtering.go:392-418 | adding a pod makes some node acceptable in some cluster if and only if it matches all affinity terms and some cluster takes the incoming pod in that pod's own domain of an affinity key |
| AffinityHints.MisreadExact | pkg/interpodaffinity/plugin.go:206-217 | the hint reads a term, not unrolled and without namespace labels, as the filter does if and only if the labels of the pod's namespace do not decide otherwise |
| AffinityHints.SkippedAddExact | pkg/interpodaffinity/plugin.go:206-217 | so the hint skips an addition that may admit the pod if and only if it is such company that the merged terms, read without namespace labels, do not all select; never without a misread term |
| AffinityHints.TeamMemberIsMissed | pkg/interpodaffinity/plugin.go:206-217 | such an addition exists: company is asked for from the namespaces of a team |
| AffinityHints.UpdateMattersIfHelps | pkg/interpodaffinity/filtering.go:362-418 | updating a pod makes some node acceptable in some cluster if and only if it stops repelling the incoming pod in some domain, becomes company as above, or ends a series that the incoming pod can start anew |
| AffinityHints.SkippedUpdateExact | pkg/interpodaffinity/plugin.go:188-204 | which of these updates the hint skips; without misread terms only those that stop repelling or end a series |
| AffinityHints.OneOfTwoTermsLetsGo | pkg/interpodaffinity/plugin.go:188-204 | such an update exists: a pod leaves the selection of one of two anti-affinity terms |
| AffinityHints.UnassignedPodIsSkipped | pkg/interpodaffinity/plugin.go:165-169 | no event on a pod without a node leads to a retry |
| AffinityScoring.ScoreMap.ProcessTerm | pkg/interpodaffinity/scoring.go:50-59 | a matching term adds its signed weight to the node's value of its key, and nothing else changes |
| AffinityScoring.ScoreMap.ProcessExistingPod | pkg/interpodaffinity/scoring.go:80-124 | the five groups of terms between an existing pod and the incoming one add their signed weights |
| AffinityScoring.ScoreMap.Append | pkg/interpodaffinity/scoring.go:67-78 | the tables are added pair by pair, in any order of topologies and values |
| AffinityScoring.CollectScores | pkg/interpodaffinity/scoring.go:200-221 | for every completion order the workers' tables together hold the weights of the nodes scanned |
| AffinityScoring.FewerNodesSameWeight | pkg/interpodaffinity/scoring.go:157-171 | without preferred terms of the pod, nodes hosting pods with affinity carry all the weight there is |
| AffinityScoring.ConstraintsOfPodOrClass | pkg/interpodaffinity/scoring.go:143-149 | the restricted scan is taken if and only if neither the pod nor its class states a preference |
| AffinityScoring.PreScore | pkg/interpodaffinity/scoring.go:127-233 | merges and unrolls the preferred terms, and whichever branch is taken the table holds their weights over the whole snapshot; it is skipped without preferences if those of existing pods are ignored, and a skip for lack of entries means all scores are 0 |
| AffinityScoring.UnrolledTermsWeight | pkg/interpodaffinity/scoring.go:187-196 | unrolled terms weigh a pod as the written terms do by the labels of its namespace, unless it is odd for one of them |
| AffinityScoring.Score | pkg/interpodaffinity/scoring.go:252-267 | the sum over the table's keys, in any order |
| AffinityScoring.TableScoreIsDirect | pkg/interpodaffinity/scoring.go:260-264 | that sum is the direct double sum over all existing pods and matching terms in shared domains |
| AffinityScoreWritten.ScoreAsWritten | pkg/interpodaffinity/scoring.go:80-124 | and that double sum is the one over the terms as written: preferred affinity of the pod, its class and the existing pods adds its weights, preferred anti-affinity subtracts them, and required affinity of existing pods adds the configured weight if positive |
| AffinityScoring.NormalizeScore | pkg/interpodaffinity/scoring.go:270-302 | scores stay in 0..100 and in order, equal ones become 0, else the least becomes 0 and the greatest 100, if and only if the range of the scores fits 64 bits; an empty table changes nothing |
| AffinityScoring.ExactlyNormalized | pkg/interpodaffinity/scoring.go:286-297 | in exact arithmetic a normalized score is the whole percentage that score - least is of the range |
| Merger.MergeNodeSelectors | pkg/merge/merger.go:234-257 | the cross product in order, with an absent selector as identity |
| Merger.MergedMatches | pkg/merge/merger.go:232-257 | a node matches the merge if and only if some pair of terms, not both empty, has all its requirements true |
| Merger.MergeMeansAnd | pkg/merge/merger.go:232-257 | a node matches the merge if it matches both selectors, or matches one and the other drops out by holding an empty term; so the merge means AND if and only if neither drops out |
| Merger.EmptyTermDropsOut | pkg/merge/merger.go:232-257 | that happens: a selector of one empty term matches no node, merged with one that asks for a zone it matches every node in a zone |
| Merger.MergeOfNonEmptyTerms | pkg/merge/merger.go:232-257 | so for selectors of non-empty terms it always means AND |
| Merger.MergeNodeAffinity | pkg/merge/merger.go:188-230 | merged pairs with the class overriding, merged required terms, appended preferred terms |
| Merger.MergedNodeAffinityAdmits | pkg/merge/merger.go:199-217 | the merged requirement admits exactly the nodes with all class pairs, all pod pairs under other keys, and both required terms true or one dropped out |
| Merger.MergedNodeAffinityMeansBoth | pkg/merge/merger.go:199-217 | it differs from the conjunction of both sides if and only if a class pair overrides a conflicting one of the pod there or an empty term drops out, and never admits less |
| Merger.MergedNonEmptyAffinityAdmits | pkg/merge/merger.go:199-217 | without empty terms: what the class asks for, the pod's required terms, and the pod's pairs under keys the class does not set |
| Merger.MergedNodePreferences | pkg/merge/merger.go:219-228 | of preferred node terms, all of the pod come first and then all of the class |
| Merger.LineageLabelSelector | pkg/merge/merger.go:315-328 | the selector of all configured keys, or none if there are no keys or one is missing |
| Merger.LineageSelectorMatches | pkg/merge/merger.go:311-328 | that selector selects exactly the pods agreeing on a complete lineage, and nothing otherwise |
| Merger.DefaultAffinityTermSelectors | pkg/merge/merger.go:287-296 | only absent selectors are filled in |
| Merger.DefaultWeightedAffinityTermSelectors | pkg/merge/merger.go:300-309 | only absent selectors are filled in, weights kept |
| Merger.DefaultedTermMatches | pkg/merge/merger.go:285-296 | a defaulted term selects, in the namespaces it reaches, what its own selector does if it has one, else the pods of the application |
| Merger.MergeInterPodAffinity | pkg/merge/merger.go:95-165 | own terms first, then those of the class, defaulted and parsed for the pod; nothing without a class |
| Merger.MergedRequiredTerms | pkg/merge/merger.go:107-154 | merged required lists hold all of the pod's own terms and then all of the class's with their keys and defaulted meaning |
| Merger.MergedPreferredTerms | pkg/merge/merger.go:117-162 | merged preferred lists hold the pod's own terms and then the class's with their weights, keys and meaning |
| Merger.MergeTopologySpreadConstraints | pkg/merge/merger.go:259-283 | own constraints first, then those of the class with absent selectors filled in |
| Merger.MergedConstraintsMean | pkg/merge/merger.go:259-283 | the merged list holds the pod's own constraints unchanged, then the class's with every field kept but an absent selector, selecting what their own selector does if they have one, else the pods of the same complete lineage |
| NodeAffinity.TermNodeNames | pkg/nodeaffinity/node_affinity.go:200-217 | the intersection of a term's node-name requirements, or none if it has no such requirement |
| NodeAffinity.NamesNodeMeaning | pkg/nodeaffinity/node_affinity.go:202-202 | a non-empty choice of field values counts as naming nodes if and only if some node can satisfy it |
| NodeAffinity.PrunedNames | pkg/nodeaffinity/node_affinity.go:197-227 | nothing is pruned if and only if there are no terms or one restricts no name; else exactly the union, or a conflict if it is empty |
| NodeAffinity.PreFilter | pkg/nodeaffinity/node_affinity.go:159-229 | the requirement admits exactly the nodes that pod and class ask for, by their own fields; a skip is reported exactly when nothing is asked for; nodes are pruned exactly by the names that the terms of a pod without class allow, unless one restricts none, and no admitted node is pruned |
| NodeAffinity.HintExact | pkg/nodeaffinity/node_affinity.go:110-156 | the hint asks for a retry if and only if the node passes the filter now and did not before, except exactly where only the enforced selector kept the node out before; it never asks in vain |
| NodeAffinity.EnforcedSelectorIsMissed | pkg/nodeaffinity/node_affinity.go:110-156 | that case exists: a node that gets the label an enforced selector asks for |
| NodeAffinity.Filter | pkg/nodeaffinity/node_affinity.go:238-259 | passes if and only if the enforced selector and the merged requirement admit the node |

## Left out

- AffinityScoring.NormalizeScore: floating-point rounding is any monotone, idempotent rounding that is exact on 0, 1 and 100.
- SpreadScoring.PreScoreState.Score: rounding is such a parameter too; fused multiply-add, infinities and the rounding of the logarithm are not modelled.
- TermCounts.TopologyToMatchedTermCount.Update: counts are unbounded integers, without 64-bit wrap-around.
- AffinityScoring.ScoreMap.Append: nested maps are values, so the fact that the program takes over inner maps by reference is not captured; a weight times -1 does not wrap at 32 bits.
- NodeAffinity.PrunedNames: a field requirement may list any number of names, where the API allows one.
- SpreadFilter.PreFilterState.UpdateWithPod: the early exit for a missing state is not modelled.
- Merger.DefaultAffinityTermSelectors: selectors and terms are values, so deep copying is not modelled.
- SpreadSafety.RunsStayBalanced: node labels, taints and the set of nodes are fixed, and a placed pod's labels do not change.
- Class lookup by annotation, JSON decoding, informers and caches; the resolved class is an argument.
- Parse errors of selectors and node selector terms, and the Gt and Lt operators.
- Match label keys of affinity terms.
- Plugin registration, events to register, argument checks, logging, status texts, cycle state reads and writes.
- Cancellation of parallel loops; a loop that has finished is an arbitrary order of its iterations.
- The selector of a pod's services and controllers is a parameter of the default constraints.
- Preferred node affinity scores and the framework's default normalization.
- The inter-pod queueing hint for node events.
- The `schedulingclass` plugin, a subset test and one selector match.
