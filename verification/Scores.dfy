/** Node scores, and the machine arithmetic they are computed in. */
module Scores {

  const MAX_NODE_SCORE := 100
  const MAX_INT64 := 0x7fff_ffff_ffff_ffff
  const MIN_INT64 := -0x8000_0000_0000_0000

  datatype NodeScore = NodeScore(name: string, score: int)

  /** The 64-bit integer that an unbounded result wraps around to. */
  function Wrap64(x: int): (r: int)
    ensures MIN_INT64 <= r <= MAX_INT64
    ensures MIN_INT64 <= x <= MAX_INT64 ==> r == x
  {
    (x - MIN_INT64) % 0x1_0000_0000_0000_0000 + MIN_INT64
  }

  /** Integer division that truncates. */
  function TruncDiv(a: int, b: int): int
    requires b > 0
  {
    if a >= 0 then a / b else -((-a) / b)
  }

  /** It rounds towards zero, so a sign passes through it. */
  lemma TruncDivMeaning(a: int, b: int)
    requires b > 0
    ensures TruncDiv(-a, b) == -TruncDiv(a, b)
    ensures a >= 0 ==> 0 <= TruncDiv(a, b) && TruncDiv(a, b) * b <= a < (TruncDiv(a, b) + 1) * b
  {
  }

  /** Rounding of real numbers to floating-point ones: monotone, exact on what is
      already rounded, and so on 0, 1 and 100. */
  ghost predicate IsRounding(rnd: real -> real) {
    && (forall x: real, y: real :: x <= y ==> rnd(x) <= rnd(y))
    && (forall x: real :: rnd(rnd(x)) == rnd(x))
    && rnd(0.0) == 0.0 && rnd(1.0) == 1.0 && rnd(100.0) == 100.0
  }

  /** Intermediate wrap-around is harmless if the result is in range. */
  lemma WrapTwice(a: int, b: int)
    requires MIN_INT64 <= a - b <= MAX_INT64
    ensures Wrap64(Wrap64(a) - b) == a - b
  {
    var q := (a - MIN_INT64) / 0x1_0000_0000_0000_0000;
    assert Wrap64(a) == a - 0x1_0000_0000_0000_0000 * q;
    WrapPeriod(a - b, q);
  }

  lemma WrapPeriod(x: int, q: int)
    ensures Wrap64(x - 0x1_0000_0000_0000_0000 * q) == Wrap64(x)
  {
  }

  /** Arithmetic without rounding. */
  function Exact(x: real): real {
    x
  }

  lemma ExactIsRounding()
    ensures IsRounding(Exact)
  {
  }
}
