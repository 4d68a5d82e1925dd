/**
 * The single-factor beta model on daily closes: the least-squares beta on
 * shared pre-event dates, the guarded z-score, and the beta analysis that
 * scores the event-day return against the beta-implied expected return.
 */
module BetaModels {
  import opened Wrappers
  import opened Calendar
  import opened Bars
  import opened Stats
  import opened Sequences

  // ---------------------------------------------------------------------
  // Daily returns

  /** One daily return, labelled with the timestamp of the later close. */
  datatype DailyReturn = DailyReturn(stamp: Stamp, value: real)

  /** `Close.pct_change().dropna()` of a daily frame. */
  function DailyReturns(bars: seq<Bar>): (rs: seq<DailyReturn>)
    ensures |bars| == 0 ==> rs == []
    ensures |bars| > 0 ==> |rs| == |bars| - 1
    ensures forall i :: 0 <= i < |rs| ==> rs[i] == DailyReturn(bars[i + 1].stamp, CloseReturns(bars)[i])
  {
    var r := CloseReturns(bars);
    seq(|r|, i requires 0 <= i < |r| => DailyReturn(bars[i + 1].stamp, r[i]))
  }

  /** `series.index.date < event_date`. */
  predicate BeforeEvent(t: Stamp)
  {
    DateLt(t.date, EventDate)
  }

  /** An entry of the pre-event history: `index.date < event_date` on the entry's own date. */
  predicate HistoryEntry(x: DailyReturn)
  {
    BeforeEvent(x.stamp)
  }

  // ---------------------------------------------------------------------
  // Pairing on shared dates

  /** The value labelled t, if any (`series.loc[t]` on a unique index). */
  function ValueAt(rs: seq<DailyReturn>, t: Stamp): (v: Option<real>)
    ensures v.None? <==> forall i :: 0 <= i < |rs| ==> rs[i].stamp != t
    ensures v.Some? ==> DailyReturn(t, v.value) in rs
  {
    if |rs| == 0 then None
    else if rs[0].stamp == t then Some(rs[0].value)
    else
      var v := ValueAt(rs[1..], t);
      assert v.Some? ==> DailyReturn(t, v.value) in rs by {
        if v.Some? {
          assert DailyReturn(t, v.value) in rs[1..];
        }
      }
      assert v.None? ==> forall i :: 0 <= i < |rs| ==> rs[i].stamp != t by {
        if v.None? {
          forall i | 0 <= i < |rs| ensures rs[i].stamp != t {
            if i > 0 {
              assert rs[i] == rs[1..][i - 1];
            }
          }
        }
      }
      v
  }

  function Labels(rs: seq<DailyReturn>): set<Stamp>
  {
    set i | 0 <= i < |rs| :: rs[i].stamp
  }

  /** A market value x and an asset value y on the same date. */
  datatype Pair = Pair(x: real, y: real)

  /**
   * `y = asset.loc[common_idx]`, `x = market.loc[common_idx]`: one pair for
   * each asset entry (in the asset's order) whose date the market also has.
   */
  function Paired(asset: seq<DailyReturn>, market: seq<DailyReturn>): (ps: seq<Pair>)
    ensures |ps| <= |asset|
    ensures forall p :: p in ps ==> exists i :: 0 <= i < |asset| && asset[i].value == p.y && ValueAt(market, asset[i].stamp) == Some(p.x)
  {
    if |asset| == 0 then []
    else
      var n := |asset| - 1;
      var rest := Paired(asset[..n], market);
      assert forall p :: p in rest ==> exists i :: 0 <= i < |asset| && asset[i].value == p.y && ValueAt(market, asset[i].stamp) == Some(p.x) by {
        forall p | p in rest ensures exists i :: 0 <= i < |asset| && asset[i].value == p.y && ValueAt(market, asset[i].stamp) == Some(p.x) {
          var i :| 0 <= i < n && asset[..n][i].value == p.y && ValueAt(market, asset[..n][i].stamp) == Some(p.x);
          assert asset[i] == asset[..n][i];
        }
      }
      match ValueAt(market, asset[n].stamp)
      case Some(x) => rest + [Pair(x, asset[n].value)]
      case None => rest
  }

  predicate DistinctLabels(rs: seq<DailyReturn>)
  {
    forall i, j :: 0 <= i < j < |rs| ==> rs[i].stamp != rs[j].stamp
  }

  lemma {:induction false} LabelsAppend(rs: seq<DailyReturn>, n: nat)
    requires n < |rs|
    ensures Labels(rs[..n + 1]) == Labels(rs[..n]) + {rs[n].stamp}
  {
    var a, b := rs[..n + 1], rs[..n];
    forall t | t in Labels(a) ensures t in Labels(b) + {rs[n].stamp} {
      var i :| 0 <= i < |a| && a[i].stamp == t;
      if i < n {
        assert b[i] == a[i];
      }
    }
    forall t | t in Labels(b) + {rs[n].stamp} ensures t in Labels(a) {
      if t == rs[n].stamp {
        assert a[n] == rs[n];
      } else {
        var i :| 0 <= i < |b| && b[i].stamp == t;
        assert a[i] == b[i];
      }
    }
  }

  /** With unique asset dates there is one pair per shared date: `len(common_idx)`. */
  lemma {:induction false} PairedCountsSharedDates(asset: seq<DailyReturn>, market: seq<DailyReturn>)
    requires DistinctLabels(asset)
    ensures |Paired(asset, market)| == |Labels(asset) * Labels(market)|
  {
    if |asset| == 0 {
      assert Labels(asset) * Labels(market) == {};
    } else {
      var n := |asset| - 1;
      assert DistinctLabels(asset[..n]);
      PairedCountsSharedDates(asset[..n], market);
      SharedLabelsStep(asset, market);
    }
  }

  /** The last asset date adds one shared date exactly when the market has it, being new among the asset dates. */
  lemma {:induction false} SharedLabelsStep(asset: seq<DailyReturn>, market: seq<DailyReturn>)
    requires |asset| > 0 && DistinctLabels(asset)
    ensures var n := |asset| - 1;
      |Labels(asset) * Labels(market)| ==
        |Labels(asset[..n]) * Labels(market)| + (if ValueAt(market, asset[n].stamp).Some? then 1 else 0)
  {
    var n := |asset| - 1;
    var t := asset[n].stamp;
    LabelsAppend(asset, n);
    assert asset[..n + 1] == asset;
    assert t !in Labels(asset[..n]) by {
      forall i | 0 <= i < n ensures asset[..n][i].stamp != t {
        assert asset[..n][i] == asset[i];
      }
    }
    var before := Labels(asset[..n]) * Labels(market);
    if ValueAt(market, t).Some? {
      assert t in Labels(market) by {
        var i :| 0 <= i < |market| && market[i] == DailyReturn(t, ValueAt(market, t).value);
      }
      assert Labels(asset) * Labels(market) == before + {t};
    } else {
      assert t !in Labels(market);
      assert Labels(asset) * Labels(market) == before;
    }
  }

  function Xs(ps: seq<Pair>): (xs: seq<real>)
    ensures |xs| == |ps| && forall i :: 0 <= i < |ps| ==> xs[i] == ps[i].x
  {
    seq(|ps|, i requires 0 <= i < |ps| => ps[i].x)
  }

  function Ys(ps: seq<Pair>): (ys: seq<real>)
    ensures |ys| == |ps| && forall i :: 0 <= i < |ps| ==> ys[i] == ps[i].y
  {
    seq(|ps|, i requires 0 <= i < |ps| => ps[i].y)
  }

  // ---------------------------------------------------------------------
  // The least-squares beta

  /** The sum of cross deviations, the numerator of the least-squares slope. */
  function CrossDeviations(ps: seq<Pair>, mx: real, my: real): real
  {
    Sum(CrossTerms(ps, mx, my))
  }

  function CrossTerms(ps: seq<Pair>, mx: real, my: real): (ts: seq<real>)
    ensures |ts| == |ps| && forall i :: 0 <= i < |ps| ==> ts[i] == (ps[i].x - mx) * (ps[i].y - my)
  {
    seq(|ps|, i requires 0 <= i < |ps| => (ps[i].x - mx) * (ps[i].y - my))
  }

  /** The fewest shared dates a beta is estimated from. */
  const MinSharedDates: nat := 30

  datatype Beta =
    | TooFewShared       // NaN
    | ConstantMarket     // `linregress` raises when every x is the same
    | Slope(beta: real)

  /**
   * `calculate_beta`: NaN with fewer than 30 shared dates; otherwise the
   * least-squares slope of asset on market, which `linregress` refuses to
   * compute when the market values are all equal.
   */
  function CalculateBeta(asset: seq<DailyReturn>, market: seq<DailyReturn>): (b: Beta)
    ensures b == TooFewShared <==> |Paired(asset, market)| < MinSharedDates
    ensures b == ConstantMarket <==> |Paired(asset, market)| >= MinSharedDates && Constant(Xs(Paired(asset, market)))
    ensures b.Slope? ==> FitsSlope(Paired(asset, market), b.beta)
  {
    var ps := Paired(asset, market);
    if |ps| < MinSharedDates then TooFewShared
    else
      var xs := Xs(ps);
      if Constant(xs) then ConstantMarket
      else Slope(LeastSquaresSlope(ps))
  }

  /**
   * beta solves the least-squares normal equation on the pairs: the market
   * values spread, and beta times that spread is the cross deviation sum.
   */
  predicate FitsSlope(ps: seq<Pair>, beta: real)
  {
    var xs := Xs(ps);
    |ps| > 0 &&
    SquaredDeviations(xs, Mean(xs)) > 0.0 &&
    beta * SquaredDeviations(xs, Mean(xs)) == CrossDeviations(ps, Mean(xs), Mean(Ys(ps)))
  }

  /** The slope `linregress` fits: the cross deviations over the spread of the market values. */
  function LeastSquaresSlope(ps: seq<Pair>): (beta: real)
    requires !Constant(Xs(ps))
    ensures FitsSlope(ps, beta)
  {
    var xs := Xs(ps);
    var sxx := SquaredDeviations(xs, Mean(xs));
    var sxy := CrossDeviations(ps, Mean(xs), Mean(Ys(ps)));
    NonConstantSpreads(xs);
    DivideThenScale(sxy, sxx);
    sxy / sxx
  }

  /** Values that are not all equal have a positive spread about their mean. */
  lemma {:induction false} NonConstantSpreads(xs: seq<real>)
    requires !Constant(xs)
    ensures SquaredDeviations(xs, Mean(xs)) > 0.0
  {
    var j :| 0 <= j < |xs| && xs[j] != xs[0];
    if xs[0] == Mean(xs) {
      SquaredDeviationsPositive(xs, Mean(xs), j);
    } else {
      SquaredDeviationsPositive(xs, Mean(xs), 0);
    }
  }

  lemma {:induction false} DivideThenScale(c: real, s: real)
    requires s != 0.0
    ensures (c / s) * s == c
  {
  }

  predicate OnLine(ps: seq<Pair>, a: real, b: real)
  {
    forall i :: 0 <= i < |ps| ==> ps[i].y == a + b * ps[i].x
  }

  lemma {:induction false} SumOnLine(ps: seq<Pair>, a: real, b: real)
    requires OnLine(ps, a, b)
    ensures Sum(Ys(ps)) == (|ps| as real) * a + b * Sum(Xs(ps))
  {
    if |ps| > 0 {
      var n := |ps| - 1;
      assert Xs(ps)[..n] == Xs(ps[..n]) && Ys(ps)[..n] == Ys(ps[..n]);
      SumOnLine(ps[..n], a, b);
    }
  }

  lemma {:induction false} MeanOnLine(ps: seq<Pair>, a: real, b: real)
    requires |ps| > 0 && OnLine(ps, a, b)
    ensures Mean(Ys(ps)) == a + b * Mean(Xs(ps))
  {
    SumOnLine(ps, a, b);
    LinearMean(Sum(Ys(ps)), Sum(Xs(ps)), |ps| as real, a, b);
  }

  lemma {:induction false} LinearMean(sy: real, sx: real, n: real, a: real, b: real)
    requires n > 0.0 && sy == n * a + b * sx
    ensures sy / n == a + b * (sx / n)
  {
  }

  function SquareTerms(xs: seq<real>, m: real): (ts: seq<real>)
    ensures |ts| == |xs| && forall i :: 0 <= i < |xs| ==> ts[i] == Square(xs[i] - m)
  {
    seq(|xs|, i requires 0 <= i < |xs| => Square(xs[i] - m))
  }

  lemma {:induction false} SquaredDeviationsAsSum(xs: seq<real>, m: real)
    ensures SquaredDeviations(xs, m) == Sum(SquareTerms(xs, m))
  {
    if |xs| > 0 {
      var n := |xs| - 1;
      assert SquareTerms(xs, m)[..n] == SquareTerms(xs[..n], m);
      SquaredDeviationsAsSum(xs[..n], m);
    }
  }

  /** Each u is b times the v beside it. */
  predicate ScaledTerms(us: seq<real>, vs: seq<real>, b: real)
  {
    |us| == |vs| && forall i :: 0 <= i < |us| ==> us[i] == b * vs[i]
  }

  lemma {:induction false} SumScaled(us: seq<real>, vs: seq<real>, b: real)
    requires ScaledTerms(us, vs, b)
    ensures Sum(us) == b * Sum(vs)
  {
    if |us| > 0 {
      var n := |us| - 1;
      SumScaled(us[..n], vs[..n], b);
      Factor(Sum(us[..n]), us[n], Sum(vs[..n]), vs[n], b);
    }
  }

  lemma {:induction false} Factor(s: real, u: real, t: real, v: real, b: real)
    requires s == b * t && u == b * v
    ensures s + u == b * (t + v)
  {
  }

  lemma {:induction false} CrossTermOnLine(x: real, y: real, mx: real, my: real, a: real, b: real)
    requires y == a + b * x && my == a + b * mx
    ensures (x - mx) * (y - my) == b * Square(x - mx)
  {
    assert y - my == b * (x - mx);
  }

  /** Cross terms b times the squared terms sum to b times the spread of the market values. */
  lemma {:induction false} ScaledCrossDeviations(ps: seq<Pair>, mx: real, my: real, b: real)
    requires ScaledTerms(CrossTerms(ps, mx, my), SquareTerms(Xs(ps), mx), b)
    ensures CrossDeviations(ps, mx, my) == b * SquaredDeviations(Xs(ps), mx)
  {
    SquaredDeviationsAsSum(Xs(ps), mx);
    SumsScaled(CrossDeviations(ps, mx, my), SquaredDeviations(Xs(ps), mx), CrossTerms(ps, mx, my), SquareTerms(Xs(ps), mx), b);
  }

  lemma {:induction false} SumsScaled(c: real, s: real, us: seq<real>, vs: seq<real>, b: real)
    requires c == Sum(us) && s == Sum(vs) && ScaledTerms(us, vs, b)
    ensures c == b * s
  {
    SumScaled(us, vs, b);
  }

  lemma {:induction false} CrossTermsOnLine(ps: seq<Pair>, mx: real, my: real, a: real, b: real)
    requires OnLine(ps, a, b) && my == a + b * mx
    ensures ScaledTerms(CrossTerms(ps, mx, my), SquareTerms(Xs(ps), mx), b)
  {
    forall i | 0 <= i < |ps| ensures CrossTerms(ps, mx, my)[i] == b * SquareTerms(Xs(ps), mx)[i] {
      CrossTermOnLine(ps[i].x, ps[i].y, mx, my, a, b);
    }
  }

  /** Asset returns lying exactly on a line `a + b * market` give back the slope b. */
  lemma {:induction false} ExactLineRecoversSlope(asset: seq<DailyReturn>, market: seq<DailyReturn>, a: real, b: real)
    requires OnLine(Paired(asset, market), a, b)
    requires CalculateBeta(asset, market).Slope?
    ensures CalculateBeta(asset, market).beta == b
  {
    OnLineFitsItsSlope(Paired(asset, market), CalculateBeta(asset, market).beta, a, b);
  }

  /** The only slope fitting pairs that lie on a line is that line's slope. */
  lemma {:induction false} OnLineFitsItsSlope(ps: seq<Pair>, beta: real, a: real, b: real)
    requires OnLine(ps, a, b) && FitsSlope(ps, beta)
    ensures beta == b
  {
    var mx, my := Mean(Xs(ps)), Mean(Ys(ps));
    OnLineScales(ps, a, b, mx, my);
    FitsOnlyScale(ps, beta, b, mx, my);
  }

  /** On a line of slope b the cross deviations are b times the squared deviations of the market values. */
  lemma {:induction false} OnLineScales(ps: seq<Pair>, a: real, b: real, mx: real, my: real)
    requires |ps| > 0 && OnLine(ps, a, b) && mx == Mean(Xs(ps)) && my == Mean(Ys(ps))
    ensures CrossDeviations(ps, mx, my) == b * SquaredDeviations(Xs(ps), mx)
  {
    MeanOnLine(ps, a, b);
    CrossTermsOnLine(ps, mx, my, a, b);
    ScaledCrossDeviations(ps, mx, my, b);
  }

  /** A fitted slope is the one factor by which the cross deviations scale the squared ones. */
  lemma {:induction false} FitsOnlyScale(ps: seq<Pair>, beta: real, b: real, mx: real, my: real)
    requires FitsSlope(ps, beta) && mx == Mean(Xs(ps)) && my == Mean(Ys(ps))
    requires CrossDeviations(ps, mx, my) == b * SquaredDeviations(Xs(ps), mx)
    ensures beta == b
  {
    CancelFactor(beta, b, SquaredDeviations(Xs(ps), mx), CrossDeviations(ps, mx, my));
  }

  lemma {:induction false} CancelFactor(q: real, b: real, s: real, c: real)
    requires s > 0.0 && q * s == c && c == b * s
    ensures q == b
  {
  }

  // ---------------------------------------------------------------------
  // The z-score

  /** `calculate_z_score`: NaN (None) when the deviation is zero or undefined, else (v - mean) / sd. */
  function CalculateZScore(v: real, history: seq<real>, sd: Option<real>): (z: Option<real>)
    requires IsSampleStd(history, sd)
    ensures z.None? <==> |history| < 2 || Constant(history)
    ensures z.Some? ==> z.value * sd.value == v - Mean(history)
  {
    if |history| == 0 then None
    else
      assert |history| >= 2 ==> (Standardize(v, Mean(history), sd).None? <==> Constant(history)) by {
        if |history| >= 2 {
          StandardizeUndefinedIffConstant(v, history, sd);
        }
      }
      Standardize(v, Mean(history), sd)
  }

  // ---------------------------------------------------------------------
  // The history mask

  function Values(rs: seq<DailyReturn>): (vs: seq<real>)
    ensures |vs| == |rs| && forall i :: 0 <= i < |rs| ==> vs[i] == rs[i].value
  {
    seq(|rs|, i requires 0 <= i < |rs| => rs[i].value)
  }

  /**
   * Boolean indexing by position: `series[mask]`, which raises unless the
   * lengths agree, and otherwise keeps exactly the entries at the masked
   * positions (their order: MaskByPositionAppend).
   */
  function MaskByPosition(rs: seq<DailyReturn>, mask: seq<bool>): (r: Option<seq<DailyReturn>>)
    ensures r.None? <==> |rs| != |mask|
    ensures r.Some? ==> |r.value| <= |rs|
    ensures r.Some? ==> forall x :: x in r.value ==> exists i :: 0 <= i < |rs| && rs[i] == x && mask[i]
    ensures r.Some? ==> forall i :: 0 <= i < |rs| && mask[i] ==> rs[i] in r.value
  {
    if |rs| != |mask| then None
    else if |rs| == 0 then Some([])
    else
      var rest := MaskByPosition(rs[1..], mask[1..]);
      var kept := (if mask[0] then [rs[0]] else []) + rest.value;
      assert forall x :: x in rest.value ==> exists i :: 0 <= i < |rs| && rs[i] == x && mask[i] by {
        forall x | x in rest.value ensures exists i :: 0 <= i < |rs| && rs[i] == x && mask[i] {
          var i :| 0 <= i < |rs[1..]| && rs[1..][i] == x && mask[1..][i];
          assert rs[i + 1] == x && mask[i + 1];
        }
      }
      assert forall i :: 0 <= i < |rs| && mask[i] ==> rs[i] in kept by {
        forall i | 0 <= i < |rs| && mask[i] ensures rs[i] in kept {
          if i > 0 {
            assert rs[1..][i - 1] == rs[i] && mask[1..][i - 1] == mask[i];
          }
        }
      }
      Some(kept)
  }

  /** Positional masking distributes over concatenation, so it keeps the masked entries in their order. */
  lemma {:induction false} MaskByPositionAppend(a: seq<DailyReturn>, b: seq<DailyReturn>, ma: seq<bool>, mb: seq<bool>)
    requires |a| == |ma| && |b| == |mb|
    ensures MaskByPosition(a + b, ma + mb) == Some(MaskByPosition(a, ma).value + MaskByPosition(b, mb).value)
  {
    if |a| == 0 {
      assert a + b == b && ma + mb == mb;
      assert MaskByPosition(a, ma).value == [];
      var rb := MaskByPosition(b, mb);
      assert rb.Some? && [] + rb.value == rb.value;
    } else {
      MaskByPositionAppend(a[1..], b, ma[1..], mb);
      assert (a + b)[1..] == a[1..] + b && (ma + mb)[1..] == ma[1..] + mb;
      var head := if ma[0] then [a[0]] else [];
      var ra, rb := MaskByPosition(a[1..], ma[1..]).value, MaskByPosition(b, mb).value;
      assert MaskByPosition(a + b, ma + mb).value == head + (ra + rb);
      assert MaskByPosition(a, ma).value == head + ra;
      assert head + (ra + rb) == (head + ra) + rb;
    }
  }

  /** `target_rets.index.date < event_date`, as a positional mask. */
  function HistoryMask(rs: seq<DailyReturn>): (mask: seq<bool>)
    ensures |mask| == |rs| && forall i :: 0 <= i < |rs| ==> (mask[i] <==> BeforeEvent(rs[i].stamp))
  {
    seq(|rs|, i requires 0 <= i < |rs| => BeforeEvent(rs[i].stamp))
  }

  /**
   * The market history as written: the mask built on the asset's dates is
   * applied to the market series by position.
   */
  function MarketHistoryAsWritten(asset: seq<DailyReturn>, market: seq<DailyReturn>): (r: Option<seq<DailyReturn>>)
    ensures r.None? <==> |asset| != |market|
    ensures r.Some? ==> |r.value| <= |market|
    ensures r.Some? ==> forall x :: x in r.value <==>
      exists i :: 0 <= i < |market| && market[i] == x && BeforeEvent(asset[i].stamp)
  {
    MaskByPosition(market, HistoryMask(asset))
  }

  /**
   * A series' history as intended: its own entries dated before the event,
   * for the target and the market alike.
   */
  function History(rs: seq<DailyReturn>): (r: seq<DailyReturn>)
    ensures forall x :: x in r <==> x in rs && BeforeEvent(x.stamp)
  {
    Filter(rs, HistoryEntry)
  }

  lemma {:induction false} IndexRaisesOnUnequalLengths()
    ensures var d1, d2 := Stamp(Date(2025, 12, 30), 0), Stamp(Date(2025, 12, 31), 0);
      MarketHistoryAsWritten([DailyReturn(d2, 0.01)], [DailyReturn(d1, 0.02), DailyReturn(d2, 0.03)]).None? &&
      History([DailyReturn(d1, 0.02), DailyReturn(d2, 0.03)]) == [DailyReturn(d1, 0.02), DailyReturn(d2, 0.03)]
  {
    var d1, d2 := Stamp(Date(2025, 12, 30), 0), Stamp(Date(2025, 12, 31), 0);
    var m := [DailyReturn(d1, 0.02), DailyReturn(d2, 0.03)];
    FilterAppend([m[0]], [m[1]], HistoryEntry);
    assert m == [m[0]] + [m[1]];
  }

  /** A mask true, true, false keeps the first two entries of a three-entry series. */
  lemma {:induction false} MaskKeepsFirstTwo(rs: seq<DailyReturn>, mask: seq<bool>)
    requires |rs| == 3 && mask == [true, true, false]
    ensures MaskByPosition(rs, mask) == Some(rs[..2])
  {
    assert rs[2..][1..] == [] && mask[2..][1..] == [];
    var rest2 := MaskByPosition(rs[2..], mask[2..]);
    assert rest2 == Some([]);
    assert rs[1..][1..] == rs[2..] && mask[1..][1..] == mask[2..];
    var rest1 := MaskByPosition(rs[1..], mask[1..]);
    assert rest1 == Some([rs[1]] + rest2.value);
    assert MaskByPosition(rs, mask) == Some([rs[0]] + rest1.value);
    assert [rs[0]] + ([rs[1]] + []) == rs[..2];
  }

  /** The as-written market history of a three-entry market under the target's mask true, true, false. */
  lemma {:induction false} AsWrittenKeepsFirstTwo(asset: seq<DailyReturn>, market: seq<DailyReturn>)
    requires |asset| == 3 && |market| == 3 && HistoryMask(asset) == [true, true, false]
    ensures MarketHistoryAsWritten(asset, market) == Some(market[..2])
  {
    MaskKeepsFirstTwo(market, HistoryMask(asset));
  }

  /** The history of a three-entry series whose first two entries precede the event and whose last does not, or does. */
  lemma {:induction false} HistoryOfThree(rs: seq<DailyReturn>)
    requires |rs| == 3 && HistoryEntry(rs[0]) && HistoryEntry(rs[1])
    ensures History(rs) == if HistoryEntry(rs[2]) then rs else rs[..2]
  {
    FilterAppend([rs[0], rs[1]], [rs[2]], HistoryEntry);
    FilterAppend([rs[0]], [rs[1]], HistoryEntry);
    assert rs == [rs[0], rs[1]] + [rs[2]] && [rs[0], rs[1]] == [rs[0]] + [rs[1]];
    assert rs[..2] == [rs[0], rs[1]];
  }

  /** Looking up the second and third dates of a three-entry series, in it and in its first two entries. */
  lemma {:induction false} ValueAtShifted(m: seq<DailyReturn>, t1: Stamp, t2: Stamp)
    requires |m| == 3 && m[0].stamp != t1 && m[0].stamp != t2 && m[1].stamp == t1 && m[2].stamp == t2 && t1 != t2
    ensures ValueAt(m[..2], t1) == Some(m[1].value) && ValueAt(m[..2], t2).None?
    ensures ValueAt(m, t1) == Some(m[1].value) && ValueAt(m, t2) == Some(m[2].value)
  {
    assert m[1..][0] == m[1] && m[1..][1..][0] == m[2];
    assert m[..2][1..][0] == m[1];
  }

  /** Pairing two asset entries against markets holding the first date only, or both dates. */
  lemma {:induction false} PairedOfTwo(a: seq<DailyReturn>, m: seq<DailyReturn>, x0: real, x1: real)
    requires |a| == 2 && ValueAt(m, a[0].stamp) == Some(x0)
    ensures ValueAt(m, a[1].stamp).None? ==> Paired(a, m) == [Pair(x0, a[0].value)]
    ensures ValueAt(m, a[1].stamp) == Some(x1) ==> Paired(a, m) == [Pair(x0, a[0].value), Pair(x1, a[1].value)]
  {
    assert a[..1] == [a[0]] && a[..1][..0] == [];
  }

  /**
   * With equal lengths the positional mask raises nothing but pairs the
   * market's entries with the asset's dates. A market series one trading
   * day behind the asset loses its last pre-event entry, so a date both
   * series hold before the event drops out of the beta sample.
   */
  lemma {:induction false} PositionalMaskDropsSharedDate()
    ensures var d0, d1, d2, d3 := Stamp(Date(2025, 12, 29), 0), Stamp(Date(2025, 12, 30), 0),
        Stamp(Date(2025, 12, 31), 0), Stamp(EventDate, 0);
      var asset := [DailyReturn(d1, 0.01), DailyReturn(d2, 0.02), DailyReturn(d3, 0.05)];
      var market := [DailyReturn(d0, 0.03), DailyReturn(d1, 0.04), DailyReturn(d2, 0.06)];
      MarketHistoryAsWritten(asset, market) == Some(market[..2]) &&
      History(asset) == asset[..2] && History(market) == market &&
      Paired(History(asset), market[..2]) == [Pair(0.04, 0.01)] &&
      Paired(History(asset), History(market)) == [Pair(0.04, 0.01), Pair(0.06, 0.02)]
  {
    var d0, d1, d2, d3 := Stamp(Date(2025, 12, 29), 0), Stamp(Date(2025, 12, 30), 0),
      Stamp(Date(2025, 12, 31), 0), Stamp(EventDate, 0);
    var asset := [DailyReturn(d1, 0.01), DailyReturn(d2, 0.02), DailyReturn(d3, 0.05)];
    var market := [DailyReturn(d0, 0.03), DailyReturn(d1, 0.04), DailyReturn(d2, 0.06)];
    assert HistoryMask(asset) == [true, true, false];
    AsWrittenKeepsFirstTwo(asset, market);
    HistoryOfThree(asset);
    HistoryOfThree(market);
    var early := market[..2];
    ValueAtShifted(market, d1, d2);
    PairedOfTwo(asset[..2], early, 0.04, 0.06);
    PairedOfTwo(asset[..2], market, 0.04, 0.06);
  }

  /** Every entry either history holds on a date when both series trade is strictly before the event. */
  lemma {:induction false} HistoryPrecedesEvent(asset: seq<DailyReturn>, market: seq<DailyReturn>)
    ensures forall p :: p in Paired(History(asset), History(market)) ==>
      (exists i :: 0 <= i < |asset| && asset[i].value == p.y && BeforeEvent(asset[i].stamp) &&
        ValueAt(History(market), asset[i].stamp) == Some(p.x))
  {
    var th, mh := History(asset), History(market);
    forall p | p in Paired(th, mh)
      ensures exists i :: (0 <= i < |asset| && asset[i].value == p.y && BeforeEvent(asset[i].stamp) &&
        ValueAt(mh, asset[i].stamp) == Some(p.x))
    {
      var j :| 0 <= j < |th| && th[j].value == p.y && ValueAt(mh, th[j].stamp) == Some(p.x);
      assert th[j] in th;
      var i :| 0 <= i < |asset| && asset[i] == th[j];
    }
  }

  // ---------------------------------------------------------------------
  // The event-day analysis

  /** The first entry dated on the event day (`rets[event_mask].iloc[0]`). */
  function EventValue(rs: seq<DailyReturn>): (v: Option<real>)
    ensures v.None? <==> forall i :: 0 <= i < |rs| ==> rs[i].stamp.date != EventDate
    ensures v.Some? ==> exists i :: (0 <= i < |rs| && rs[i].stamp.date == EventDate && rs[i].value == v.value &&
      forall j :: 0 <= j < i ==> rs[j].stamp.date != EventDate)
  {
    if |rs| == 0 then None
    else if rs[0].stamp.date == EventDate then Some(rs[0].value)
    else
      var v := EventValue(rs[1..]);
      assert v.None? ==> forall i :: 0 <= i < |rs| ==> rs[i].stamp.date != EventDate by {
        if v.None? {
          forall i | 0 <= i < |rs| ensures rs[i].stamp.date != EventDate {
            if i > 0 {
              assert rs[i] == rs[1..][i - 1];
            }
          }
        }
      }
      assert v.Some? ==> exists i :: (0 <= i < |rs| && rs[i].stamp.date == EventDate && rs[i].value == v.value &&
        forall j :: 0 <= j < i ==> rs[j].stamp.date != EventDate)
      by {
        if v.Some? {
          var k :| 0 <= k < |rs[1..]| && rs[1..][k].stamp.date == EventDate && rs[1..][k].value == v.value &&
            forall j :: 0 <= j < k ==> rs[1..][j].stamp.date != EventDate;
          assert rs[k + 1] == rs[1..][k];
          forall j | 0 <= j < k + 1 ensures rs[j].stamp.date != EventDate {
            if j > 0 {
              assert rs[j] == rs[1..][j - 1];
            }
          }
        }
      }
      v
  }

  /** `target_hist - beta * market_hist` on the shared history dates; all NaN when beta is. */
  function HistoryResiduals(ps: seq<Pair>, beta: Option<real>): (res: seq<real>)
    ensures beta.None? ==> res == []
    ensures beta.Some? ==> |res| == |ps| && forall i :: 0 <= i < |ps| ==> res[i] + beta.value * ps[i].x == ps[i].y
  {
    if beta.None? then []
    else seq(|ps|, i requires 0 <= i < |ps| => ps[i].y - beta.value * ps[i].x)
  }

  function BetaValue(b: Beta): Option<real>
  {
    if b.Slope? then Some(b.beta) else None
  }

  /** What the analysis needs once the histories and event returns are known. */
  datatype BetaStage =
    | NoResult                                  // a daily file is missing, or the event date is absent
    | CalculationRaised                         // `linregress` on a constant market history
    | MaskRaised                                // as written: the positional mask of another length raises IndexError
    | Ready(beta: Option<real>, event: real, marketEvent: real, residuals: seq<real>)

  /**
   * `run_beta_analysis` up to the z-score: missing files give no result;
   * the beta is estimated on the histories (a constant market history
   * raises); a missing event date on either series gives no result.
   */
  function PrepareBetaAnalysis(target: Option<seq<Bar>>, market: Option<seq<Bar>>): (s: BetaStage)
    ensures target.None? || market.None? ==> s == NoResult
    ensures s != MaskRaised
    ensures target.Some? && market.Some? ==>
      var tr, mr := DailyReturns(target.value), DailyReturns(market.value);
      var b := CalculateBeta(History(tr), History(mr));
      (s == CalculationRaised <==> b == ConstantMarket) &&
      (s == NoResult <==> b != ConstantMarket && (EventValue(tr).None? || EventValue(mr).None?)) &&
      (s.Ready? ==> (s.beta == BetaValue(b) && Some(s.event) == EventValue(tr) && Some(s.marketEvent) == EventValue(mr) &&
        s.residuals == HistoryResiduals(Paired(History(tr), History(mr)), BetaValue(b))))
  {
    if target.None? || market.None? then NoResult
    else
      var tr, mr := DailyReturns(target.value), DailyReturns(market.value);
      var th, mh := History(tr), History(mr);
      var b := CalculateBeta(th, mh);
      if b == ConstantMarket then CalculationRaised
      else
        var te, me := EventValue(tr), EventValue(mr);
        if te.None? || me.None? then NoResult
        else Ready(BetaValue(b), te.value, me.value, HistoryResiduals(Paired(th, mh), BetaValue(b)))
  }

  /** A mask that follows a series' own dates selects exactly that series' history. */
  lemma {:induction false} MaskMatchesHistory(rs: seq<DailyReturn>, mask: seq<bool>)
    requires |mask| == |rs| && forall i :: 0 <= i < |rs| ==> (mask[i] <==> BeforeEvent(rs[i].stamp))
    ensures MaskByPosition(rs, mask) == Some(History(rs))
  {
    if |rs| > 0 {
      MaskMatchesHistory(rs[1..], mask[1..]);
    }
  }

  /**
   * `run_beta_analysis` as written: both histories are cut with the
   * target's positional mask, so return series of different lengths raise
   * IndexError, which no caller catches.
   */
  function PrepareBetaAnalysisAsWritten(target: Option<seq<Bar>>, market: Option<seq<Bar>>): (s: BetaStage)
    ensures target.None? || market.None? ==> s == NoResult
    ensures target.Some? && market.Some? ==>
      (s == MaskRaised <==> |DailyReturns(target.value)| != |DailyReturns(market.value)|)
  {
    if target.None? || market.None? then NoResult
    else
      var tr, mr := DailyReturns(target.value), DailyReturns(market.value);
      var mask := HistoryMask(tr);
      var mh := MarketHistoryAsWritten(tr, mr);
      if mh.None? then MaskRaised
      else
        MaskMatchesHistory(tr, mask);
        var th := MaskByPosition(tr, mask).value;
        var b := CalculateBeta(th, mh.value);
        if b == ConstantMarket then CalculationRaised
        else
          var te, me := EventValue(tr), EventValue(mr);
          if te.None? || me.None? then NoResult
          else Ready(BetaValue(b), te.value, me.value, HistoryResiduals(Paired(th, mh.value), BetaValue(b)))
  }

  /**
   * When the two return series carry the same dates position by position,
   * the positional mask is the market's own date mask and the analysis as
   * written agrees with the intended one.
   */
  lemma {:induction false} AsWrittenAgreesOnSameDates(target: seq<Bar>, market: seq<Bar>)
    requires |DailyReturns(target)| == |DailyReturns(market)|
    requires forall i :: 0 <= i < |DailyReturns(target)| ==> DailyReturns(target)[i].stamp.date == DailyReturns(market)[i].stamp.date
    ensures PrepareBetaAnalysisAsWritten(Some(target), Some(market)) == PrepareBetaAnalysis(Some(target), Some(market))
  {
    var tr, mr := DailyReturns(target), DailyReturns(market);
    MaskMatchesHistory(mr, HistoryMask(tr));
    MaskMatchesHistory(tr, HistoryMask(tr));
  }

  /** The record `run_beta_analysis` returns. */
  datatype BetaReport = BetaReport(
    ticker: string, benchmark: string, beta: Option<real>,
    eventReturn: real, expectedReturn: Option<real>, abnormalReturn: Option<real>, z: Quotient)

  /** The abnormal return scored against the residual deviation, with the zero guard of `calculate_z_score`. */
  function AbnormalZScore(abnormal: Option<real>, sd: Option<real>): (z: Quotient)
    ensures z.Finite? <==> abnormal.Some? && sd.Some? && sd.value != 0.0
    ensures z.Finite? ==> z.value * sd.value == abnormal.value
    ensures !z.PlusInfinity? && !z.MinusInfinity?
  {
    if sd == Some(0.0) then NaN else FloatDivide(abnormal, sd)
  }

  /** The division as written: no guard, so a zero deviation gives an infinite score. */
  function AbnormalZScoreAsWritten(abnormal: Option<real>, sd: Option<real>): (z: Quotient)
    ensures z.Finite? <==> abnormal.Some? && sd.Some? && sd.value != 0.0
    ensures z.PlusInfinity? <==> abnormal.Some? && sd == Some(0.0) && abnormal.value > 0.0
  {
    FloatDivide(abnormal, sd)
  }

  /**
   * A target whose history residuals are all equal has a zero deviation; as
   * written any non-zero abnormal return is then infinitely significant,
   * while the guarded score is NaN and flags nothing.
   */
  lemma {:induction false} ZeroDeviationIsFlaggedAsWritten()
    ensures AbnormalZScoreAsWritten(Some(0.005), Some(0.0)) == PlusInfinity
    ensures AbsExceeds(AbnormalZScoreAsWritten(Some(0.005), Some(0.0)), 1.96)
    ensures !AbsExceeds(AbnormalZScore(Some(0.005), Some(0.0)), 1.96)
  {
  }

  /**
   * The report: expected = beta * market event return with no intercept,
   * abnormal = event - expected, z = abnormal / std(residuals).
   */
  function BetaAnalysisReport(ticker: string, benchmark: string, s: BetaStage, sd: Option<real>): (r: BetaReport)
    requires s.Ready? && IsSampleStd(s.residuals, sd)
    ensures r.ticker == ticker && r.benchmark == benchmark && r.beta == s.beta && r.eventReturn == s.event
    ensures r.expectedReturn.Some? <==> s.beta.Some?
    ensures r.abnormalReturn.Some? <==> s.beta.Some?
    ensures s.beta.Some? ==> r.expectedReturn.value + r.abnormalReturn.value == s.event
    ensures s.beta.Some? ==> r.expectedReturn.value == s.beta.value * s.marketEvent
    ensures r.z.Finite? ==> sd.Some? && r.abnormalReturn.Some? && r.z.value * sd.value == r.abnormalReturn.value
    ensures r.z.Finite? <==> s.beta.Some? && |s.residuals| >= 2 && !Constant(s.residuals)
  {
    var expected := if s.beta.Some? then Some(s.beta.value * s.marketEvent) else None;
    var abnormal := if expected.Some? then Some(s.event - expected.value) else None;
    assert |s.residuals| >= 2 ==> (sd.value == 0.0 <==> Constant(s.residuals)) by {
      if |s.residuals| >= 2 {
        SampleVarianceZeroIffConstant(s.residuals);
        SquarePositive(sd.value);
      }
    }
    BetaReport(ticker, benchmark, s.beta, s.event, expected, abnormal, AbnormalZScore(abnormal, sd))
  }
}
