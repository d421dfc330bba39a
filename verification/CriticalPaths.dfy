/** The two-slot minimum tracker of the topology spread filter. */
module CriticalPaths {

  const MAX_INT32 := 0x7fff_ffff

  datatype CriticalPath = CriticalPath(topologyValue: string, matchNum: int)

  /** An unused slot. Its topology value is also a legal label value. */
  const SENTINEL := CriticalPath("", MAX_INT32)

  /** The two slots as a value. */
  datatype Slots = Slots(first: CriticalPath, second: CriticalPath)

  const NEW_SLOTS := Slots(SENTINEL, SENTINEL)

  function View(p: array<CriticalPath>): Slots
    requires p.Length == 2
    reads p
  {
    Slots(p[0], p[1])
  }

  // ---- The algorithm ----

  function Ordered(s: Slots): Slots {
    if s.first.matchNum > s.second.matchNum then Slots(s.second, s.first) else s
  }

  function Updated(s: Slots, tpVal: string, num: int): Slots {
    if tpVal == s.first.topologyValue then Ordered(s.(first := CriticalPath(tpVal, num)))
    else if tpVal == s.second.topologyValue then Ordered(s.(second := CriticalPath(tpVal, num)))
    else if num < s.first.matchNum then Slots(CriticalPath(tpVal, num), s.first)
    else if num < s.second.matchNum then s.(second := CriticalPath(tpVal, num))
    else s
  }

  method NewCriticalPaths() returns (p: array<CriticalPath>)
    ensures fresh(p) && p.Length == 2 && View(p) == NEW_SLOTS
  {
    p := new CriticalPath[2](i => SENTINEL);
  }

  method Update(p: array<CriticalPath>, tpVal: string, num: int)
    requires p.Length == 2
    modifies p
    ensures View(p) == Updated(old(View(p)), tpVal, num)
  {
    var i := -1;
    if tpVal == p[0].topologyValue {
      i := 0;
    } else if tpVal == p[1].topologyValue {
      i := 1;
    }
    if i >= 0 {
      p[i] := p[i].(matchNum := num);
      if p[0].matchNum > p[1].matchNum {
        p[0], p[1] := p[1], p[0];
      }
    } else {
      if num < p[0].matchNum {
        p[1] := p[0];
        p[0] := CriticalPath(tpVal, num);
      } else if num < p[1].matchNum {
        p[1] := CriticalPath(tpVal, num);
      }
    }
  }

  // ---- What it has to compute ----

  type Counts = map<string, int>

  /** `n` is the least count of `m`, or the sentinel's if there is no domain. */
  ghost predicate IsMinimum(m: Counts, n: int) {
    && (forall k | k in m :: n <= m[k])
    && (if m == map[] then n == MAX_INT32 else exists k | k in m :: m[k] == n)
  }

  lemma {:induction false} MinimumExists(m: Counts)
    ensures exists n :: IsMinimum(m, n)
    decreases |m|
  {
    if m == map[] {
      assert IsMinimum(m, MAX_INT32);
    } else {
      var k :| k in m;
      var rest := m - {k};
      assert m.Keys == rest.Keys + {k};
      MinimumExists(rest);
      var n :| IsMinimum(rest, n);
      assert forall j | j in rest :: j in m && m[j] == rest[j];
      assert IsMinimum(m, if rest != map[] && n < m[k] then n else m[k]);
    }
  }

  ghost function MinOf(m: Counts): (n: int)
    ensures IsMinimum(m, n)
  {
    MinimumExists(m);
    var n :| IsMinimum(m, n);
    n
  }

  lemma MinimumIsUnique(m: Counts, a: int, b: int)
    requires IsMinimum(m, a) && IsMinimum(m, b)
    ensures a == b
  {
  }

  ghost predicate Bounded(m: Counts) {
    forall k | k in m :: m[k] < MAX_INT32
  }

  // ---- Folding a whole map, in any order ----

  /** The slots hold the least count of `m` and the least of the others. */
  ghost predicate HoldsTwoSmallest(m: Counts, s: Slots) {
    if m == map[] then s == NEW_SLOTS
    else
      && Carries(m, s.first)
      && (forall k | k in m :: s.first.matchNum <= m[k])
      && if m.Keys == {s.first.topologyValue} then s.second == SENTINEL
         else && Carries(m, s.second)
              && s.second.topologyValue != s.first.topologyValue
              && forall k | k in m && k != s.first.topologyValue :: s.second.matchNum <= m[k]
  }

  ghost predicate Carries(m: Counts, c: CriticalPath) {
    c.topologyValue in m && m[c.topologyValue] == c.matchNum
  }

  lemma FoldStep(m: Counts, s: Slots, v: string, num: int)
    requires HoldsTwoSmallest(m, s) && Bounded(m) && v !in m && num < MAX_INT32
    ensures HoldsTwoSmallest(m[v := num], Updated(s, v, num))
  {
    var m' := m[v := num];
    if m == map[] {
      assert m'.Keys == {v};
    } else if m.Keys == {s.first.topologyValue} {
      assert m'.Keys == {s.first.topologyValue, v};
    } else {
      assert s.second.topologyValue in m' && s.first.topologyValue in m';
    }
  }

  /** Builds the slots of a finished count map. Go iterates maps in an
      unspecified order, so any remaining key may come next. */
  method Fold(m: Counts) returns (p: array<CriticalPath>)
    ensures fresh(p) && p.Length == 2
    ensures Bounded(m) ==> HoldsTwoSmallest(m, View(p))
  {
    p := NewCriticalPaths();
    var rest := m.Keys;
    ghost var seen: Counts := map[];
    while rest != {}
      invariant rest <= m.Keys && seen == m - rest
      invariant p.Length == 2 && fresh(p)
      invariant Bounded(m) ==> HoldsTwoSmallest(seen, View(p))
      decreases rest
    {
      var k :| k in rest;
      if Bounded(m) {
        FoldStep(seen, View(p), k, m[k]);
      }
      Update(p, k, m[k]);
      seen := seen[k := m[k]];
      rest := rest - {k};
    }
    assert seen == m;
  }

  // ---- Runs that update one topology value only ----

  /** The least count among the other values `v` is competing with. */
  ghost predicate IsRival(m: Counts, v: string, w: CriticalPath) {
    Carries(m, w) && w.topologyValue != v && forall k | k in m && k != v :: w.matchNum <= m[k]
  }

  /** Enough is known to keep following the minimum while only the count of
      `v` changes: either both `v` and its best rival are in the slots, or the
      rival is first and `v` is no smaller than the second slot. */
  ghost predicate Tracks(m: Counts, v: string, s: Slots) {
    if m.Keys <= {v} then
      s == Slots(if v in m then CriticalPath(v, m[v]) else SENTINEL, SENTINEL)
    else
      && s.first.matchNum <= s.second.matchNum
      && (|| (v in m && s.first == CriticalPath(v, m[v]) && IsRival(m, v, s.second))
          || (v in m && s.second == CriticalPath(v, m[v]) && IsRival(m, v, s.first))
          || (&& IsRival(m, v, s.first)
              && (v in m ==> s.second.topologyValue != v && s.second.matchNum <= m[v])
              && (v !in m ==> s.second.topologyValue != v || s.second == SENTINEL)))
  }

  lemma FoldedTracks(m: Counts, v: string, s: Slots)
    requires HoldsTwoSmallest(m, s) && Bounded(m)
    ensures Tracks(m, v, s)
  {
    if m.Keys <= {v} && v in m {
      assert m.Keys == {v};
    }
  }

  lemma TracksStep(m: Counts, v: string, s: Slots, num: int)
    requires Tracks(m, v, s) && Bounded(m) && num < MAX_INT32
    ensures Tracks(m[v := num], v, Updated(s, v, num))
  {
    var m' := m[v := num];
    var s' := Updated(s, v, num);
    if m.Keys <= {v} {
      assert m'.Keys == {v};
    } else {
      assert !(m'.Keys <= {v});
      assert forall w | IsRival(m, v, w) :: IsRival(m', v, w);
    }
  }

  lemma TracksMinimum(m: Counts, v: string, s: Slots)
    requires Tracks(m, v, s) && Bounded(m)
    ensures IsMinimum(m, s.first.matchNum)
  {
    if m.Keys <= {v} && v in m {
      assert m.Keys == {v};
    }
  }

  /** The slots after counts `nums` were reported for `v`, one after another. */
  function AfterRun(s: Slots, v: string, nums: seq<int>): Slots {
    if nums == [] then s else Updated(AfterRun(s, v, nums[..|nums| - 1]), v, nums[|nums| - 1])
  }

  /** Two slots suffice: fold any map in any order, then change the count of
      one topology value any number of times; the first slot is the true
      minimum throughout. */
  lemma {:induction false} SingleValueRun(m: Counts, v: string, s: Slots, nums: seq<int>)
    requires HoldsTwoSmallest(m, s) && Bounded(m)
    requires forall i | 0 <= i < |nums| :: nums[i] < MAX_INT32
    ensures var m' := if nums == [] then m else m[v := nums[|nums| - 1]];
            Bounded(m') && Tracks(m', v, AfterRun(s, v, nums)) && IsMinimum(m', AfterRun(s, v, nums).first.matchNum)
  {
    if nums == [] {
      FoldedTracks(m, v, s);
      TracksMinimum(m, v, s);
    } else {
      var before := nums[..|nums| - 1];
      SingleValueRun(m, v, s, before);
      var m' := if before == [] then m else m[v := before[|before| - 1]];
      var n := nums[|nums| - 1];
      TracksStep(m', v, AfterRun(s, v, before), n);
      assert m'[v := n] == m[v := n];
      TracksMinimum(m[v := n], v, AfterRun(s, v, nums));
    }
  }

  // ---- Runs that update any topology values ----

  ghost predicate Sound(m: Counts, s: Slots) {
    && s.first.matchNum <= s.second.matchNum
    && (s.first == SENTINEL || Carries(m, s.first))
    && (s.second == SENTINEL || Carries(m, s.second))
    && (s.first.topologyValue == s.second.topologyValue ==> s.second == SENTINEL)
  }

  lemma SoundStep(m: Counts, s: Slots, v: string, num: int)
    requires Bounded(m) && Sound(m, s) && num < MAX_INT32
    ensures Bounded(m[v := num]) && Sound(m[v := num], Updated(s, v, num))
  {
  }

  lemma SoundAboveMinimum(m: Counts, s: Slots)
    requires Bounded(m) && Sound(m, s)
    ensures MinOf(m) <= s.first.matchNum
  {
    if s.first == SENTINEL && m != map[] {
      var k :| k in m && m[k] == MinOf(m);
    }
  }

  datatype Report = Report(value: string, num: int)

  function AfterReports(s: Slots, rs: seq<Report>): Slots {
    if rs == [] then s
    else Updated(AfterReports(s, rs[..|rs| - 1]), rs[|rs| - 1].value, rs[|rs| - 1].num)
  }

  function CountsAfter(m: Counts, rs: seq<Report>): Counts {
    if rs == [] then m else CountsAfter(m, rs[..|rs| - 1])[rs[|rs| - 1].value := rs[|rs| - 1].num]
  }

  /** Whatever values are updated, the slots stay ordered, every used slot
      carries the current count of its own value, and the first slot never
      falls below the true minimum. */
  lemma {:induction false} AnyValueRun(m: Counts, s: Slots, rs: seq<Report>)
    requires HoldsTwoSmallest(m, s) && Bounded(m)
    requires forall i | 0 <= i < |rs| :: rs[i].num < MAX_INT32
    ensures var m', s' := CountsAfter(m, rs), AfterReports(s, rs);
            Bounded(m') && Sound(m', s') && MinOf(m') <= s'.first.matchNum
  {
    if rs != [] {
      var before, r := rs[..|rs| - 1], rs[|rs| - 1];
      AnyValueRun(m, s, before);
      SoundStep(CountsAfter(m, before), AfterReports(s, before), r.value, r.num);
    }
    SoundAboveMinimum(CountsAfter(m, rs), AfterReports(s, rs));
  }

  /** One update of any value, from slots whose first is the minimum: it stays
      the minimum unless the value updated was the minimum, and some value that
      is in neither slot now counts less than both slots. */
  lemma ExactStep(m: Counts, s: Slots, v: string, num: int)
    requires Bounded(m) && Sound(m, s) && IsMinimum(m, s.first.matchNum) && num < MAX_INT32
    ensures IsMinimum(m[v := num], Updated(s, v, num).first.matchNum) <==>
            !(v == s.first.topologyValue && MinOf(m - {v}) < num && MinOf(m - {v}) < s.second.matchNum)
  {
    var m', s' := m[v := num], Updated(s, v, num);
    var others := m - {v};
    assert v in m' && m'[v] == num;
    assert forall k | k in others :: k in m' && m'[k] == others[k];
    assert forall k | k in m' && k != v :: k in others;
    assert others != map[] ==> exists k | k in others :: others[k] == MinOf(others);
    if v == s.first.topologyValue {
      assert s.second != SENTINEL ==> s.second.topologyValue in others;
    } else if m != map[] {
      assert s.first.topologyValue in m' && m'[s.first.topologyValue] == s.first.matchNum;
    }
  }

  /** The caveat is real: with counts a = 1, b = 2, c = 3, raising first a and
      then b leaves 5 in the first slot although c still counts 3. */
  lemma TwoSlotsLoseTheMinimum()
    ensures var m := map["a" := 1, "b" := 2, "c" := 3];
            var s := Slots(CriticalPath("a", 1), CriticalPath("b", 2));
            var rs := [Report("a", 5), Report("b", 6)];
            && HoldsTwoSmallest(m, s)
            && MinOf(CountsAfter(m, rs)) == 3
            && AfterReports(s, rs).first.matchNum == 5
  {
    var m: Counts := map["a" := 1, "b" := 2, "c" := 3];
    var s := Slots(CriticalPath("a", 1), CriticalPath("b", 2));
    var r1, r2 := Report("a", 5), Report("b", 6);
    assert "a"[0] == 'a' && "b"[0] == 'b' && "c"[0] == 'c';
    assert "c" in m && "c" !in {"a"};
    assert [r1, r2][..1] == [r1] && [r1][..0] == [];
    assert AfterReports(s, [r1]) == Updated(s, "a", 5);
    var m' := CountsAfter(m, [r1, r2]);
    assert CountsAfter(m, [r1]) == m["a" := 5];
    assert m' == m["a" := 5]["b" := 6];
    assert "c" in m' && m'["c"] == 3;
    MinimumIsUnique(m', MinOf(m'), 3);
  }
}
