/**
 * Sample statistics over exact reals: sums, means, variances, extrema,
 * z-scores and the strictly-less percentile rank.
 *
 * Square roots are not computed: a standard deviation is supplied by the
 * caller and tied to the variance by `IsSampleStd`.
 */
module Stats {
  import opened Wrappers

  /** Sum, folded from the left as a running total is. */
  function Sum(xs: seq<real>): real
  {
    if |xs| == 0 then 0.0 else Sum(xs[..|xs| - 1]) + xs[|xs| - 1]
  }

  function Mean(xs: seq<real>): real
    requires |xs| > 0
  {
    Sum(xs) / (|xs| as real)
  }

  /** Optional mean: pandas and numpy give NaN for the mean of nothing. */
  function MeanOrNone(xs: seq<real>): (r: Option<real>)
    ensures r.None? <==> |xs| == 0
  {
    if |xs| == 0 then None else Some(Mean(xs))
  }

  /**
   * The identity. `Square` multiplies `d` by `Itself(d)` rather than by `d`
   * so that the solver keeps the square as a product of two factors, whose
   * sign it can then reason about.
   */
  function Itself(d: real): real
  {
    d
  }

  function Square(d: real): real
  {
    d * Itself(d)
  }

  /** The sum of squared deviations from m. */
  function SquaredDeviations(xs: seq<real>, m: real): real
  {
    if |xs| == 0 then 0.0
    else SquaredDeviations(xs[..|xs| - 1], m) + Square(xs[|xs| - 1] - m)
  }

  /** The variance pandas' `Series.std` takes the root of (one degree of freedom removed). */
  function SampleVariance(xs: seq<real>): real
    requires |xs| >= 2
  {
    SquaredDeviations(xs, Mean(xs)) / ((|xs| - 1) as real)
  }

  /** The variance numpy's `ndarray.std` takes the root of (no degree of freedom removed). */
  function PopulationVariance(xs: seq<real>): real
    requires |xs| >= 1
  {
    SquaredDeviations(xs, Mean(xs)) / (|xs| as real)
  }

  /**
   * sd is what pandas' `Series.std()` returns for xs: NaN (None) for fewer
   * than two values, otherwise the non-negative root of the sample variance.
   */
  predicate IsSampleStd(xs: seq<real>, sd: Option<real>)
  {
    if |xs| < 2 then sd == None
    else sd.Some? && sd.value >= 0.0 && Square(sd.value) == SampleVariance(xs)
  }

  /** All values of xs are the same. */
  predicate Constant(xs: seq<real>)
  {
    forall i :: 0 <= i < |xs| ==> xs[i] == xs[0]
  }

  /** The largest value (pandas `max` over values that are present). */
  function Max(xs: seq<real>): (m: real)
    requires |xs| > 0
    ensures m in xs
    ensures forall i :: 0 <= i < |xs| ==> xs[i] <= m
  {
    if |xs| == 1 then xs[0]
    else
      var m' := Max(xs[..|xs| - 1]);
      assert forall i :: 0 <= i < |xs| - 1 ==> xs[..|xs| - 1][i] == xs[i];
      if xs[|xs| - 1] > m' then xs[|xs| - 1] else m'
  }

  function Min(xs: seq<real>): (m: real)
    requires |xs| > 0
    ensures m in xs
    ensures forall i :: 0 <= i < |xs| ==> m <= xs[i]
  {
    if |xs| == 1 then xs[0]
    else
      var m' := Min(xs[..|xs| - 1]);
      assert forall i :: 0 <= i < |xs| - 1 ==> xs[..|xs| - 1][i] == xs[i];
      if xs[|xs| - 1] < m' then xs[|xs| - 1] else m'
  }

  /** (v - mean) / sd, or None (NaN) when sd is missing or zero, as in src/models.py:41-49. */
  function Standardize(v: real, mean: real, sd: Option<real>): (z: Option<real>)
    ensures z.None? <==> (sd.None? || sd.value == 0.0)
    ensures z.Some? ==> z.value * sd.value == v - mean
  {
    if sd.None? || sd.value == 0.0 then None else Some((v - mean) / sd.value)
  }

  /**
   * The outcome of a float64 division as numpy computes it: a finite value,
   * an infinity (a non-zero numerator over zero) or NaN (zero over zero, or
   * a NaN operand).
   */
  datatype Quotient = Finite(value: real) | PlusInfinity | MinusInfinity | NaN

  /** numpy's `a / b` for operands that may be NaN (None). */
  function FloatDivide(a: Option<real>, b: Option<real>): (q: Quotient)
    ensures q.Finite? <==> a.Some? && b.Some? && b.value != 0.0
    ensures q.Finite? ==> q.value * b.value == a.value
    ensures q.PlusInfinity? <==> a.Some? && b == Some(0.0) && a.value > 0.0
    ensures q.MinusInfinity? <==> a.Some? && b == Some(0.0) && a.value < 0.0
  {
    if a.None? || b.None? then NaN
    else if b.value != 0.0 then Finite(a.value / b.value)
    else if a.value > 0.0 then PlusInfinity
    else if a.value < 0.0 then MinusInfinity
    else NaN
  }

  /** Python's `abs` on a real. */
  function Abs(x: real): real
  {
    if x < 0.0 then -x else x
  }

  /** `abs(q) > t`: infinities exceed every threshold and NaN exceeds none. */
  predicate AbsExceeds(q: Quotient, t: real)
  {
    match q
    case Finite(v) => Abs(v) > t
    case PlusInfinity => true
    case MinusInfinity => true
    case NaN => false
  }

  /** The values that are present, in order: what pandas' NaN-skipping reductions see. */
  function Present(xs: seq<Option<real>>): (r: seq<real>)
    ensures |r| <= |xs|
    ensures forall v :: v in r <==> Some(v) in xs
    ensures |r| == 0 <==> forall i :: 0 <= i < |xs| ==> xs[i].None?
  {
    if |xs| == 0 then []
    else
      var n := |xs| - 1;
      var p := Present(xs[..n]);
      assert forall o :: o in xs <==> o in xs[..n] || o == xs[n] by {
        assert xs == xs[..n] + [xs[n]];
      }
      if xs[n].Some? then p + [xs[n].value] else p
  }

  /** The number of values strictly less than e. */
  function CountLess(xs: seq<real>, e: real): (c: nat)
    ensures c <= |xs|
  {
    if |xs| == 0 then 0
    else CountLess(xs[..|xs| - 1], e) + (if xs[|xs| - 1] < e then 1 else 0)
  }

  /**
   * `(values < e).mean() * 100`: the percentage of values strictly below e,
   * NaN (None) for an empty sample.
   */
  function PercentileRank(xs: seq<real>, e: real): (p: Option<real>)
    ensures p.None? <==> |xs| == 0
    ensures p.Some? ==> 0.0 <= p.value <= 100.0
  {
    if |xs| == 0 then None
    else Some((CountLess(xs, e) as real / |xs| as real) * 100.0)
  }

  // ---------------------------------------------------------------------
  // Lemmas

  /** One more element adds one to the count of present values, and its value to their sum, exactly when it is present. */
  lemma {:induction false} PresentTally(xs: seq<Option<real>>, i: int)
    requires 0 <= i < |xs|
    ensures |Present(xs[..i + 1])| == |Present(xs[..i])| + (if xs[i].Some? then 1 else 0)
    ensures Sum(Present(xs[..i + 1])) == Sum(Present(xs[..i])) + (if xs[i].Some? then xs[i].value else 0.0)
  {
    PresentStep(xs, i);
  }

  /** One more element: its value is appended, and added to the sum, exactly when it is present. */
  lemma {:induction false} PresentStep(xs: seq<Option<real>>, i: int)
    requires 0 <= i < |xs|
    ensures var p, q := Present(xs[..i]), Present(xs[..i + 1]);
      if xs[i].Some? then q == p + [xs[i].value] && Sum(q) == Sum(p) + xs[i].value else q == p
  {
    assert xs[..i + 1][..i] == xs[..i];
    var p := Present(xs[..i]);
    if xs[i].Some? {
      assert (p + [xs[i].value])[..|p|] == p;
    }
  }

  lemma {:induction false} SumBounds(xs: seq<real>, lo: real, hi: real)
    requires forall i :: 0 <= i < |xs| ==> lo <= xs[i] <= hi
    ensures (|xs| as real) * lo <= Sum(xs) <= (|xs| as real) * hi
  {
    if |xs| > 0 {
      SumBounds(xs[..|xs| - 1], lo, hi);
    }
  }

  /** The mean lies between the smallest and the largest value. */
  lemma {:induction false} MeanBetweenMinAndMax(xs: seq<real>)
    requires |xs| > 0
    ensures Min(xs) <= Mean(xs) <= Max(xs)
  {
    MeanBetween(xs, Min(xs), Max(xs));
  }

  lemma {:induction false} MeanBetween(xs: seq<real>, lo: real, hi: real)
    requires |xs| > 0
    requires forall i :: 0 <= i < |xs| ==> lo <= xs[i] <= hi
    ensures lo <= Mean(xs) <= hi
  {
    SumBounds(xs, lo, hi);
    DivideBounds(Sum(xs), |xs| as real, lo, hi);
  }

  lemma {:induction false} DivideBounds(s: real, n: real, lo: real, hi: real)
    requires n > 0.0 && n * lo <= s <= n * hi
    ensures lo <= s / n <= hi
  {
  }

  lemma {:induction false} DivideMonotone(a: real, b: real, n: real)
    requires a <= b && n > 0.0
    ensures a / n <= b / n
  {
    if a < b {
      assert (b - a) / n > 0.0;
      assert b / n - a / n == (b - a) / n;
    }
  }

  lemma {:induction false} SquarePositive(d: real)
    ensures Square(d) >= 0.0
    ensures d != 0.0 ==> Square(d) > 0.0
  {
  }

  lemma {:induction false} SumOfConstant(xs: seq<real>, c: real)
    requires forall i :: 0 <= i < |xs| ==> xs[i] == c
    ensures Sum(xs) == (|xs| as real) * c
  {
    if |xs| > 0 {
      SumOfConstant(xs[..|xs| - 1], c);
    }
  }

  lemma {:induction false} SquaredDeviationsNonNegative(xs: seq<real>, m: real)
    ensures SquaredDeviations(xs, m) >= 0.0
  {
    if |xs| > 0 {
      SquaredDeviationsNonNegative(xs[..|xs| - 1], m);
    }
  }

  /** One value away from m makes the squared deviations from m positive. */
  lemma {:induction false} SquaredDeviationsPositive(xs: seq<real>, m: real, j: nat)
    requires j < |xs| && xs[j] != m
    ensures SquaredDeviations(xs, m) > 0.0
  {
    var p := xs[..|xs| - 1];
    if j < |xs| - 1 {
      assert p[j] == xs[j];
      SquaredDeviationsPositive(p, m, j);
    } else {
      SquaredDeviationsNonNegative(p, m);
      SquarePositive(xs[|xs| - 1] - m);
    }
  }

  /** Values all equal to m have no squared deviation from m. */
  lemma {:induction false} SquaredDeviationsOfConstant(xs: seq<real>, m: real)
    requires forall i :: 0 <= i < |xs| ==> xs[i] == m
    ensures SquaredDeviations(xs, m) == 0.0
  {
    if |xs| > 0 {
      SquaredDeviationsOfConstant(xs[..|xs| - 1], m);
    }
  }

  /** The sample variance is zero exactly when the sample is constant: the case of the zero-sigma guard. */
  lemma {:induction false} SampleVarianceZeroIffConstant(xs: seq<real>)
    requires |xs| >= 2
    ensures SampleVariance(xs) == 0.0 <==> Constant(xs)
  {
    var n := (|xs| - 1) as real;
    if Constant(xs) {
      SumOfConstant(xs, xs[0]);
      assert Mean(xs) == xs[0];
      SquaredDeviationsOfConstant(xs, xs[0]);
    } else {
      var j :| 0 <= j < |xs| && xs[j] != xs[0];
      var k := if xs[j] != Mean(xs) then j else 0;
      SquaredDeviationsPositive(xs, Mean(xs), k);
      assert SquaredDeviations(xs, Mean(xs)) / n > 0.0;
    }
  }

  lemma {:induction false} SampleVarianceNonNegative(xs: seq<real>)
    requires |xs| >= 2
    ensures SampleVariance(xs) >= 0.0
  {
    SquaredDeviationsNonNegative(xs, Mean(xs));
  }

  /** With sd the sample standard deviation, the z-score is undefined exactly for a constant history. */
  lemma {:induction false} StandardizeUndefinedIffConstant(v: real, xs: seq<real>, sd: Option<real>)
    requires |xs| >= 2 && IsSampleStd(xs, sd)
    ensures Standardize(v, Mean(xs), sd).None? <==> Constant(xs)
  {
    SampleVarianceZeroIffConstant(xs);
    SquarePositive(sd.value);
  }

  lemma {:induction false} CountLessMonotone(xs: seq<real>, e1: real, e2: real)
    requires e1 <= e2
    ensures CountLess(xs, e1) <= CountLess(xs, e2)
  {
    if |xs| > 0 {
      CountLessMonotone(xs[..|xs| - 1], e1, e2);
    }
  }

  lemma {:induction false} CountLessNone(xs: seq<real>, e: real)
    requires forall i :: 0 <= i < |xs| ==> e <= xs[i]
    ensures CountLess(xs, e) == 0
  {
    if |xs| > 0 {
      CountLessNone(xs[..|xs| - 1], e);
    }
  }

  lemma {:induction false} CountLessAll(xs: seq<real>, e: real)
    requires forall i :: 0 <= i < |xs| ==> xs[i] < e
    ensures CountLess(xs, e) == |xs|
  {
    if |xs| > 0 {
      CountLessAll(xs[..|xs| - 1], e);
    }
  }

  /** The percentile rank never decreases as the event value grows. */
  lemma {:induction false} PercentileMonotone(xs: seq<real>, e1: real, e2: real)
    requires |xs| > 0 && e1 <= e2
    ensures PercentileRank(xs, e1).value <= PercentileRank(xs, e2).value
  {
    CountLessMonotone(xs, e1, e2);
    DivideMonotone(CountLess(xs, e1) as real, CountLess(xs, e2) as real, |xs| as real);
  }

  /** An event value at or below the sample minimum ranks at 0. */
  lemma {:induction false} PercentileAtOrBelowMin(xs: seq<real>, e: real)
    requires |xs| > 0 && e <= Min(xs)
    ensures PercentileRank(xs, e) == Some(0.0)
  {
    CountLessNone(xs, e);
    ZeroRatio(|xs|);
  }

  lemma {:induction false} ZeroRatio(n: nat)
    requires n > 0
    ensures (0 as real / n as real) * 100.0 == 0.0
  {
  }

  /** An event value above the sample maximum ranks at 100. */
  lemma {:induction false} PercentileAboveMax(xs: seq<real>, e: real)
    requires |xs| > 0 && e > Max(xs)
    ensures PercentileRank(xs, e) == Some(100.0)
  {
    CountLessAll(xs, e);
    WholeRatio(|xs|);
  }

  lemma {:induction false} WholeRatio(n: nat)
    requires n > 0
    ensures (n as real / n as real) * 100.0 == 100.0
  {
  }

  lemma {:induction false} CountLessThanMaxPrefix(xs: seq<real>, k: nat, i: nat)
    requires k < |xs| && i <= |xs|
    requires forall j :: 0 <= j < |xs| ==> xs[j] <= xs[k]
    requires forall j :: 0 <= j < |xs| && j != k ==> xs[j] != xs[k]
    ensures CountLess(xs[..i], xs[k]) == if k < i then i - 1 else i
  {
    if i > 0 {
      CountLessThanMaxPrefix(xs, k, i - 1);
      assert xs[..i][..i - 1] == xs[..i - 1];
    }
  }

  /** In a sample of distinct values the maximum ranks at 100 * (n - 1) / n under the strictly-less rule. */
  lemma {:induction false} PercentileOfDistinctMax(xs: seq<real>)
    requires |xs| > 0
    requires forall i, j :: 0 <= i < j < |xs| ==> xs[i] != xs[j]
    ensures PercentileRank(xs, Max(xs)) == Some(((|xs| - 1) as real / |xs| as real) * 100.0)
  {
    var m := Max(xs);
    var k :| 0 <= k < |xs| && xs[k] == m;
    CountLessOfDistinctMax(xs, k);
  }

  lemma {:induction false} CountLessOfDistinctMax(xs: seq<real>, k: nat)
    requires k < |xs|
    requires forall i, j :: 0 <= i < j < |xs| ==> xs[i] != xs[j]
    requires forall j :: 0 <= j < |xs| ==> xs[j] <= xs[k]
    ensures CountLess(xs, xs[k]) == |xs| - 1
  {
    forall j | 0 <= j < |xs| && j != k ensures xs[j] != xs[k] {
      if j < k { assert xs[j] != xs[k]; } else { assert xs[k] != xs[j]; }
    }
    CountLessThanMaxPrefix(xs, k, |xs|);
    assert xs[..|xs|] == xs;
  }
}
