/**
 * The arithmetic of the scaling analysis scripts over exact reals: sums,
 * means and maxima of timing samples, the Amdahl and Gustafson speedups,
 * and efficiency as a speedup divided by a thread count.
 *
 * Thread counts come from directory names and may be 0. Dividing a numpy
 * float by the integer 0 does not raise but gives an IEEE infinity or NaN,
 * so a division by a thread count yields a `Quotient`.
 */
module Scaling {
  /** Left to right, as a loop appending samples accumulates it. */
  function Sum(xs: seq<real>): real {
    if xs == [] then 0.0 else Sum(xs[..|xs| - 1]) + xs[|xs| - 1]
  }

  /** `np.mean` of a non-empty list. */
  function Mean(xs: seq<real>): real
    requires |xs| > 0
  {
    Sum(xs) / |xs| as real
  }

  predicate AllPositive(xs: seq<real>) {
    forall i :: 0 <= i < |xs| ==> xs[i] > 0.0
  }

  predicate AllEqual(xs: seq<real>, c: real) {
    forall i :: 0 <= i < |xs| ==> xs[i] == c
  }

  lemma {:induction false} SumPositive(xs: seq<real>)
    requires |xs| > 0 && AllPositive(xs)
    ensures Sum(xs) > 0.0
  {
    if |xs| > 1 {
      SumPositive(xs[..|xs| - 1]);
    }
  }

  /** The mean of positive samples is positive. */
  lemma MeanPositive(xs: seq<real>)
    requires |xs| > 0 && AllPositive(xs)
    ensures Mean(xs) > 0.0
  {
    SumPositive(xs);
  }

  lemma {:induction false} SumConstant(xs: seq<real>, c: real)
    requires AllEqual(xs, c)
    ensures Sum(xs) == |xs| as real * c
  {
    if xs != [] {
      SumConstant(xs[..|xs| - 1], c);
    }
  }

  /** The mean of samples that all equal `c` is `c`. */
  lemma MeanConstant(xs: seq<real>, c: real)
    requires |xs| > 0 && AllEqual(xs, c)
    ensures Mean(xs) == c
  {
    SumConstant(xs, c);
  }

  lemma {:induction false} SumBounds(xs: seq<real>, lo: real, hi: real)
    requires forall i :: 0 <= i < |xs| ==> lo <= xs[i] <= hi
    ensures |xs| as real * lo <= Sum(xs) <= |xs| as real * hi
  {
    if xs != [] {
      SumBounds(xs[..|xs| - 1], lo, hi);
    }
  }

  /** The mean lies between any lower and upper bound of the samples. */
  lemma MeanBounds(xs: seq<real>, lo: real, hi: real)
    requires |xs| > 0
    requires forall i :: 0 <= i < |xs| ==> lo <= xs[i] <= hi
    ensures lo <= Mean(xs) <= hi
  {
    SumBounds(xs, lo, hi);
    var n := |xs| as real;
    assert n * lo <= Sum(xs) <= n * hi;
    ScaleCancel(n, lo, Mean(xs));
    ScaleCancel(n, Mean(xs), hi);
  }

  lemma ScaleCancel(n: real, a: real, b: real)
    requires n > 0.0 && n * a <= n * b
    ensures a <= b
  {
  }

  /** `Series.max()` of a non-empty column. */
  function Maximum(xs: seq<real>): (m: real)
    requires |xs| > 0
    ensures exists i :: 0 <= i < |xs| && xs[i] == m
    ensures forall i :: 0 <= i < |xs| ==> xs[i] <= m
  {
    if |xs| == 1 then xs[0]
    else
      var m := Maximum(xs[..|xs| - 1]);
      assert forall i :: 0 <= i < |xs| - 1 ==> xs[..|xs| - 1][i] == xs[i];
      if xs[|xs| - 1] > m then xs[|xs| - 1] else m
  }

  /** An IEEE value: a division by a thread count of 0 gives no finite number. */
  datatype Quotient = Finite(value: real) | PositiveInfinity | NegativeInfinity | NotANumber

  /** A numpy float divided by an integer thread count. */
  function Divide(x: real, p: int): Quotient {
    if p != 0 then Finite(x / p as real)
    else if x > 0.0 then PositiveInfinity
    else if x < 0.0 then NegativeInfinity
    else NotANumber
  }

  /** The quotient is finite exactly for a non-zero divisor, and then multiplying back gives the dividend. */
  lemma DivideInverts(x: real, p: int)
    ensures Divide(x, p).Finite? <==> p != 0
    ensures Divide(x, p).Finite? ==> Divide(x, p).value * p as real == x
  {
  }

  /** Amdahl's law, fixed problem size: `T1 / Tp`. */
  function AmdahlSpeedup(t1: real, tp: real): real
    requires tp > 0.0
  {
    t1 / tp
  }

  /** The Amdahl speedup scales the group time back to the reference time. */
  lemma AmdahlScalesBack(t1: real, tp: real)
    requires tp > 0.0
    ensures AmdahlSpeedup(t1, tp) * tp == t1
  {
  }

  /** The speedup of the reference group against itself is exactly 1. */
  lemma AmdahlAtReference(t: real)
    requires t > 0.0
    ensures AmdahlSpeedup(t, t) == 1.0
  {
  }

  /**
   * Gustafson's law as the scripts write it: `T1 / (Tp / p)`. For p = 0
   * the inner division gives +infinity and the outer one 0.
   */
  function GustafsonSpeedup(t1: real, tp: real, p: int): real
    requires tp > 0.0
  {
    if p == 0 then 0.0 else t1 / (tp / p as real)
  }

  /** The Gustafson speedup is the Amdahl speedup scaled by the thread count. */
  lemma GustafsonIsScaledAmdahl(t1: real, tp: real, p: int)
    requires tp > 0.0
    ensures GustafsonSpeedup(t1, tp, p) == p as real * AmdahlSpeedup(t1, tp)
  {
    if p != 0 {
      var q := p as real;
      assert tp / q * q == tp;
      assert t1 / (tp / q) * (tp / q) == t1;
      assert q * (t1 / tp) * (tp / q) == t1;
    }
  }

  /** When every group takes the reference time, the Gustafson speedup is the thread count. */
  lemma GustafsonFlatTime(t: real, p: int)
    requires t > 0.0
    ensures GustafsonSpeedup(t, t, p) == p as real
  {
    GustafsonIsScaledAmdahl(t, t, p);
  }

  /** A speedup for one thread count. */
  datatype Point = Point(threads: int, value: real)

  /** An efficiency for one thread count. */
  datatype Rate = Rate(threads: int, value: Quotient)

  /** `[(p, s/p) for p, s in speedups]` */
  function Efficiencies(speedups: seq<Point>): (rates: seq<Rate>) {
    seq(|speedups|, i requires 0 <= i < |speedups| => Rate(speedups[i].threads, Divide(speedups[i].value, speedups[i].threads)))
  }

  /**
   * One efficiency per speedup, for the same thread count and in the same
   * order; where the thread count is non-zero, efficiency times the count
   * gives back the speedup.
   */
  lemma EfficienciesMatch(speedups: seq<Point>)
    ensures |Efficiencies(speedups)| == |speedups|
    ensures forall i :: 0 <= i < |speedups| ==> Efficiencies(speedups)[i].threads == speedups[i].threads
    ensures forall i :: 0 <= i < |speedups| && speedups[i].threads != 0 ==>
      Efficiencies(speedups)[i].value.Finite? &&
      Efficiencies(speedups)[i].value.value * speedups[i].threads as real == speedups[i].value
  {
    forall i | 0 <= i < |speedups| && speedups[i].threads != 0
      ensures Efficiencies(speedups)[i].value.Finite?
      ensures Efficiencies(speedups)[i].value.value * speedups[i].threads as real == speedups[i].value
    {
      DivideInverts(speedups[i].value, speedups[i].threads);
    }
  }

  lemma EfficienciesSnoc(speedups: seq<Point>, p: Point)
    ensures Efficiencies(speedups + [p]) == Efficiencies(speedups) + [Rate(p.threads, Divide(p.value, p.threads))]
  {
  }

  /** The thread counts never decrease along the list. */
  predicate Ascending(points: seq<Point>) {
    forall i, j :: 0 <= i < j < |points| ==> points[i].threads <= points[j].threads
  }
}
