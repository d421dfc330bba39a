/** Finite sums over sequences: every counter of the scheduler is one. */
module Sums {

  ghost function Sum<T(!new)>(xs: seq<T>, f: T -> int): int {
    if xs == [] then 0 else Sum(xs[..|xs| - 1], f) + f(xs[|xs| - 1])
  }

  /** The indices of a sequence of length `n`. */
  function Indices(n: nat): (r: set<nat>)
    ensures forall i: nat :: i in r <==> i < n
    ensures |r| == n
  {
    if n == 0 then {} else Indices(n - 1) + {n - 1}
  }

  /** The sum restricted to the indices in `done`, for loops that visit the
      elements in an arbitrary order. */
  ghost function SumDone<T(!new)>(xs: seq<T>, f: T -> int, done: set<nat>): int {
    if xs == [] then 0
    else SumDone(xs[..|xs| - 1], f, done) + if |xs| - 1 in done then f(xs[|xs| - 1]) else 0
  }

  lemma {:induction false} SumAppend<T(!new)>(xs: seq<T>, ys: seq<T>, f: T -> int)
    ensures Sum(xs + ys, f) == Sum(xs, f) + Sum(ys, f)
  {
    if ys == [] {
      assert xs + ys == xs;
    } else {
      assert (xs + ys)[..|xs + ys| - 1] == xs + ys[..|ys| - 1];
      SumAppend(xs, ys[..|ys| - 1], f);
    }
  }

  lemma SumOne<T(!new)>(x: T, f: T -> int)
    ensures Sum([x], f) == f(x)
  {
    assert [x][..0] == [];
  }

  lemma {:induction false} SumUpdate<T(!new)>(xs: seq<T>, k: nat, x: T, f: T -> int)
    requires k < |xs|
    ensures Sum(xs[k := x], f) == Sum(xs, f) - f(xs[k]) + f(x)
  {
    if k == |xs| - 1 {
      assert xs[k := x][..k] == xs[..k];
    } else {
      assert xs[k := x][..|xs| - 1] == xs[..|xs| - 1][k := x];
      SumUpdate(xs[..|xs| - 1], k, x, f);
    }
  }

  lemma SumRemove<T(!new)>(xs: seq<T>, k: nat, f: T -> int)
    requires k < |xs|
    ensures Sum(xs[..k] + xs[k + 1..], f) == Sum(xs, f) - f(xs[k])
  {
    assert xs == xs[..k] + ([xs[k]] + xs[k + 1..]);
    SumAppend(xs[..k], [xs[k]] + xs[k + 1..], f);
    SumAppend([xs[k]], xs[k + 1..], f);
    SumAppend(xs[..k], xs[k + 1..], f);
    SumOne(xs[k], f);
  }

  lemma {:induction false} SumCongruent<T(!new)>(xs: seq<T>, f: T -> int, g: T -> int)
    requires forall k | 0 <= k < |xs| :: f(xs[k]) == g(xs[k])
    ensures Sum(xs, f) == Sum(xs, g)
  {
    if xs != [] {
      SumCongruent(xs[..|xs| - 1], f, g);
    }
  }

  /** Sums over two sequences that go along with each other. */
  lemma {:induction false} SumAlongside<S(!new), T(!new)>(xs: seq<S>, ys: seq<T>, f: S -> int, g: T -> int)
    requires |xs| == |ys| && forall k | 0 <= k < |xs| :: f(xs[k]) == g(ys[k])
    ensures Sum(xs, f) == Sum(ys, g)
  {
    if xs != [] {
      SumAlongside(xs[..|xs| - 1], ys[..|ys| - 1], f, g);
    }
  }

  lemma {:induction false} SumMonotone<T(!new)>(xs: seq<T>, f: T -> int, g: T -> int)
    requires forall k | 0 <= k < |xs| :: f(xs[k]) <= g(xs[k])
    ensures Sum(xs, f) <= Sum(xs, g)
  {
    if xs != [] {
      SumMonotone(xs[..|xs| - 1], f, g);
    }
  }

  lemma {:induction false} SumAdds<T(!new)>(xs: seq<T>, f: T -> int, g: T -> int, h: T -> int)
    requires forall k | 0 <= k < |xs| :: h(xs[k]) == f(xs[k]) + g(xs[k])
    ensures Sum(xs, h) == Sum(xs, f) + Sum(xs, g)
  {
    if xs != [] {
      SumAdds(xs[..|xs| - 1], f, g, h);
    }
  }

  /** A sum of non-negative terms is positive exactly when one of them is. */
  lemma {:induction false} SumPositive<T(!new)>(xs: seq<T>, f: T -> int)
    requires forall k | 0 <= k < |xs| :: f(xs[k]) >= 0
    ensures Sum(xs, f) >= 0
    ensures Sum(xs, f) > 0 <==> exists k :: 0 <= k < |xs| && f(xs[k]) > 0
  {
    if xs != [] {
      var ys := xs[..|xs| - 1];
      if exists k :: 0 <= k < |xs| && f(xs[k]) > 0 {
        var k :| 0 <= k < |xs| && f(xs[k]) > 0;
        assert k < |ys| ==> f(ys[k]) > 0;
      }
      SumPositive(ys, f);
      assert forall k | 0 <= k < |ys| :: f(ys[k]) == f(xs[k]);
    }
  }

  lemma {:induction false} SumDoneStep<T(!new)>(xs: seq<T>, f: T -> int, done: set<nat>, i: nat)
    requires i < |xs| && i !in done
    ensures SumDone(xs, f, done + {i}) == SumDone(xs, f, done) + f(xs[i])
  {
    var ys := xs[..|xs| - 1];
    if i == |xs| - 1 {
      SumDoneBeyond(ys, f, done, i);
    } else {
      SumDoneStep(ys, f, done, i);
    }
  }

  lemma {:induction false} SumDoneBeyond<T(!new)>(xs: seq<T>, f: T -> int, done: set<nat>, i: nat)
    requires |xs| <= i
    ensures SumDone(xs, f, done + {i}) == SumDone(xs, f, done)
  {
    if xs != [] {
      SumDoneBeyond(xs[..|xs| - 1], f, done, i);
    }
  }

  lemma {:induction false} SumDoneNone<T(!new)>(xs: seq<T>, f: T -> int)
    ensures SumDone(xs, f, {}) == 0
  {
    if xs != [] {
      SumDoneNone(xs[..|xs| - 1], f);
    }
  }

  lemma {:induction false} SumDoneAll<T(!new)>(xs: seq<T>, f: T -> int, done: set<nat>)
    requires forall k: nat | k < |xs| :: k in done
    ensures SumDone(xs, f, done) == Sum(xs, f)
  {
    if xs != [] {
      SumDoneAll(xs[..|xs| - 1], f, done);
    }
  }

  ghost function RealSum<T(!new)>(xs: seq<T>, f: T -> real): real {
    if xs == [] then 0.0 else RealSum(xs[..|xs| - 1], f) + f(xs[|xs| - 1])
  }

  function Filter<T>(xs: seq<T>, keep: T -> bool): seq<T> {
    if xs == [] then []
    else Filter(xs[..|xs| - 1], keep) + if keep(xs[|xs| - 1]) then [xs[|xs| - 1]] else []
  }

  /** Leaving out elements that contribute nothing leaves the sum as it is. */
  lemma {:induction false} SumFilter<T(!new)>(xs: seq<T>, keep: T -> bool, f: T -> int)
    requires forall k | 0 <= k < |xs| :: !keep(xs[k]) ==> f(xs[k]) == 0
    ensures Sum(Filter(xs, keep), f) == Sum(xs, f)
  {
    if xs != [] {
      var ys := xs[..|xs| - 1];
      SumFilter(ys, keep, f);
      if keep(xs[|xs| - 1]) {
        assert (Filter(ys, keep) + [xs[|xs| - 1]])[..|Filter(ys, keep)|] == Filter(ys, keep);
      } else {
        assert Filter(ys, keep) + [] == Filter(ys, keep);
      }
    }
  }
}
