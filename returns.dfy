/**
 * Return and compounding arithmetic: simple returns (`pct_change().dropna()`),
 * compounded growth, cumulative abnormal return (`(1 + res).cumprod() - 1`),
 * and rebasing a price series to its first value.
 */
module Returns {

  predicate Positive(cs: seq<real>)
  {
    forall i :: 0 <= i < |cs| ==> cs[i] > 0.0
  }

  /** Simple returns of a positive price series: one fewer than the prices, the first price having no predecessor. */
  function PctChange(cs: seq<real>): (r: seq<real>)
    requires Positive(cs)
    ensures |cs| == 0 ==> r == []
    ensures |cs| > 0 ==> |r| == |cs| - 1
  {
    if |cs| == 0 then [] else seq(|cs| - 1, i requires 0 <= i < |cs| - 1 => cs[i + 1] / cs[i] - 1.0)
  }

  lemma {:induction false} ReturnRecovers(a: real, c: real)
    requires a > 0.0
    ensures a * (1.0 + (c / a - 1.0)) == c
  {
  }

  /** Each price is the previous one compounded by its return. */
  lemma {:induction false} PctChangeCompounds(cs: seq<real>, i: int)
    requires Positive(cs) && 0 <= i < |cs| - 1
    ensures cs[i + 1] == cs[i] * (1.0 + PctChange(cs)[i])
  {
    ReturnRecovers(cs[i], cs[i + 1]);
  }

  /** Growth factor of a run of returns: the product of (1 + r). */
  function Growth(rs: seq<real>): real
  {
    if |rs| == 0 then 1.0 else Growth(rs[..|rs| - 1]) * (1.0 + rs[|rs| - 1])
  }

  lemma {:induction false} DivideChain(a: real, b: real, c: real)
    requires a > 0.0 && b > 0.0
    ensures (a / b) * (1.0 + (c / a - 1.0)) == c / b
  {
    calc {
      (a / b) * (1.0 + (c / a - 1.0));
      (a / b) * (c / a);
      c / b;
    }
  }

  /** One telescoping step: growth a/b compounded by the change from a to c is c/b. */
  lemma {:induction false} GrowthStep(g: real, q: real, a: real, b: real, c: real)
    requires a > 0.0 && b > 0.0 && g == a / b && q == c / a - 1.0
    ensures g * (1.0 + q) == c / b
  {
    DivideChain(a, b, c);
  }

  /** Dropping the last price drops the last return, which is the last price's change from the one before. */
  lemma {:induction false} PctChangeDropLast(cs: seq<real>)
    requires Positive(cs) && |cs| >= 2
    ensures Positive(cs[..|cs| - 1])
    ensures PctChange(cs)[..|cs| - 2] == PctChange(cs[..|cs| - 1])
    ensures PctChange(cs)[|cs| - 2] == cs[|cs| - 1] / cs[|cs| - 2] - 1.0
  {
  }

  /** A single price has no return, and its growth is that price over itself. */
  lemma {:induction false} GrowthOfOnePrice(cs: seq<real>)
    requires Positive(cs) && |cs| == 1
    ensures Growth(PctChange(cs)) == cs[0] / cs[0]
  {
    assert PctChange(cs) == [];
    assert cs[0] / cs[0] == 1.0;
  }

  /** The growth of a non-empty run is the growth without its last return, compounded by it. */
  lemma {:induction false} GrowthOfLast(rs: seq<real>)
    requires |rs| > 0
    ensures Growth(rs) == Growth(rs[..|rs| - 1]) * (1.0 + rs[|rs| - 1])
  {
  }

  /** Growth up to the last price but one, compounded by the last return, is growth up to the last price. */
  lemma {:induction false} GrowthExtends(cs: seq<real>)
    requires Positive(cs) && |cs| >= 2
    requires Positive(cs[..|cs| - 1]) && Growth(PctChange(cs[..|cs| - 1])) == cs[|cs| - 2] / cs[0]
    ensures Growth(PctChange(cs)) == cs[|cs| - 1] / cs[0]
  {
    var n := |cs| - 1;
    var r := PctChange(cs);
    PctChangeDropLast(cs);
    GrowthOfLast(r);
    assert r[..|r| - 1] == PctChange(cs[..n]);
    GrowthStep(Growth(PctChange(cs[..n])), r[n - 1], cs[n - 1], cs[0], cs[n]);
  }

  /** The returns' growth telescopes to last price over first price. */
  lemma {:induction false} GrowthTelescopes(cs: seq<real>)
    requires Positive(cs) && |cs| > 0
    ensures Growth(PctChange(cs)) == cs[|cs| - 1] / cs[0]
  {
    var n := |cs| - 1;
    if n == 0 {
      GrowthOfOnePrice(cs);
    } else {
      var pre := cs[..n];
      PctChangeDropLast(cs);
      GrowthTelescopes(pre);
      assert pre[0] == cs[0] && pre[n - 1] == cs[n - 1];
      GrowthExtends(cs);
    }
  }

  lemma {:induction false} MultiplyAssociates(x: real, y: real, z: real)
    ensures (x * y) * z == x * (y * z)
  {
  }

  /** Compounding over a window split at any point equals compounding over the whole window. */
  lemma {:induction false} GrowthSplit(a: seq<real>, b: seq<real>)
    ensures Growth(a + b) == Growth(a) * Growth(b)
  {
    if |b| > 0 {
      var n := |b| - 1;
      assert (a + b)[..|a + b| - 1] == a + b[..n];
      GrowthSplit(a, b[..n]);
      MultiplyAssociates(Growth(a), Growth(b[..n]), 1.0 + b[n]);
    } else {
      assert a + b == a;
    }
  }

  /** `(1 + res).cumprod() - 1`: the cumulative abnormal return after each bar. */
  function CumulativeReturn(rs: seq<real>): (car: seq<real>)
    ensures |car| == |rs|
  {
    seq(|rs|, k requires 0 <= k < |rs| => Growth(rs[..k + 1]) - 1.0)
  }

  /** The first cumulative value is the first return, and each later one compounds the previous with the next return. */
  lemma {:induction false} CumulativeRecurrence(rs: seq<real>, k: int)
    requires 0 <= k < |rs|
    ensures k == 0 ==> CumulativeReturn(rs)[0] == rs[0]
    ensures k > 0 ==> 1.0 + CumulativeReturn(rs)[k] == (1.0 + CumulativeReturn(rs)[k - 1]) * (1.0 + rs[k])
  {
    if k == 0 {
      assert rs[..1][..0] == [];
      assert Growth(rs[..1]) == Growth([]) * (1.0 + rs[0]);
    } else {
      assert rs[..k + 1][..k] == rs[..k];
    }
  }

  /**
   * Splitting the window after bar k: the total compounds the cumulative
   * return up to k with the growth of the bars after k.
   */
  lemma {:induction false} CumulativeSplit(rs: seq<real>, k: int)
    requires 0 <= k < |rs|
    ensures 1.0 + CumulativeReturn(rs)[|rs| - 1] == (1.0 + CumulativeReturn(rs)[k]) * Growth(rs[k + 1..])
  {
    assert rs[..|rs|] == rs[..k + 1] + rs[k + 1..];
    GrowthSplit(rs[..k + 1], rs[k + 1..]);
  }

  /** Each price divided by the first: the series rebased to 1.0 at its first bar. */
  function Rebase(cs: seq<real>): (r: seq<real>)
    requires Positive(cs)
    ensures |r| == |cs|
    ensures |cs| > 0 ==> r[0] == 1.0
    ensures forall i :: 0 <= i < |cs| ==> r[i] * cs[0] == cs[i]
  {
    var r := seq(|cs|, i requires 0 <= i < |cs| => cs[i] / cs[0]);
    assert forall i :: 0 <= i < |cs| ==> r[i] * cs[0] == cs[i] by {
      forall i | 0 <= i < |cs| ensures r[i] * cs[0] == cs[i] {
        DivideThenMultiply(cs[i], cs[0]);
      }
    }
    assert |cs| > 0 ==> r[0] == 1.0 by {
      if |cs| > 0 {
        DivideThenMultiply(cs[0], cs[0]);
      }
    }
    r
  }

  lemma {:induction false} DivideThenMultiply(c: real, a: real)
    requires a > 0.0
    ensures (c / a) * a == c
    ensures c == a ==> c / a == 1.0
  {
  }

  /** The spread of two series rebased to their first bars. */
  function RebasedSpread(xs: seq<real>, ys: seq<real>): (s: seq<real>)
    requires Positive(xs) && Positive(ys) && |xs| == |ys|
    ensures |s| == |xs|
    ensures |xs| > 0 ==> s[0] == 0.0
  {
    var rx, ry := Rebase(xs), Rebase(ys);
    seq(|xs|, i requires 0 <= i < |xs| => rx[i] - ry[i])
  }

  /** If one series is a positive multiple of the other, their rebased spread is zero at every bar. */
  lemma {:induction false} ProportionalSpreadIsZero(xs: seq<real>, ys: seq<real>, k: real)
    requires Positive(xs) && |xs| == |ys| && k > 0.0
    requires forall i :: 0 <= i < |ys| ==> ys[i] == k * xs[i]
    ensures Positive(ys)
    ensures forall i :: 0 <= i < |xs| ==> RebasedSpread(xs, ys)[i] == 0.0
  {
    assert Positive(ys) by {
      forall i | 0 <= i < |ys| ensures ys[i] > 0.0 {
        PositiveProduct(k, xs[i]);
      }
    }
    forall i | 0 <= i < |xs| ensures RebasedSpread(xs, ys)[i] == 0.0 {
      ScaledRatio(k, xs[i], xs[0]);
    }
  }

  lemma {:induction false} PositiveProduct(a: real, b: real)
    requires a > 0.0 && b > 0.0
    ensures a * b > 0.0
  {
  }

  lemma {:induction false} ScaledRatio(k: real, x: real, x0: real)
    requires k > 0.0 && x0 > 0.0
    ensures (k * x) / (k * x0) == x / x0
  {
  }
}
