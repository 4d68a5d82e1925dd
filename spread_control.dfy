/**
 * The spread placebo: the distribution, over baseline trading days, of the
 * daily maximum of the open-normalised XLE minus crude-oil spread, and the
 * rank of the event day's spread in it.
 */
module SpreadControl {
  import opened Wrappers
  import opened Calendar
  import opened Bars
  import opened Alignment
  import opened Stats
  import opened CacheFiles
  import Returns

  // ---------------------------------------------------------------------
  // Loading

  /** The rows read from every readable five-minute file of a ticker, in file order. */
  function LoadedRows(listing: seq<string>, ticker: string, read: string -> Option<seq<Bar>>): seq<Bar>
  {
    Readable(ReadAll(FiveMinuteFiles(listing, ticker), read))
  }

  /**
   * `load_5m_data`: None when nothing was read, otherwise the rows
   * deduplicated (first kept), sorted and cut to the regular session.
   */
  method LoadFiveMinuteData(listing: seq<string>, ticker: string, read: string -> Option<seq<Bar>>)
    returns (r: Option<seq<Bar>>)
    ensures r.None? <==> |LoadedRows(listing, ticker, read)| == 0
    ensures r.Some? ==> r.value == Prepare(LoadedRows(listing, ticker, read))
  {
    var rows := Concatenate(ReadAll(FiveMinuteFiles(listing, ticker), read));
    if |rows| == 0 {
      return None;
    }
    r := Some(Prepare(rows));
  }

  // ---------------------------------------------------------------------
  // The baseline

  /** `index < "2026-01-01"`. */
  predicate InBaseline(t: Stamp)
  {
    StampLt(t, Midnight(BaselineEnd))
  }

  /**
   * Both series restricted to their shared timestamps, then to those before
   * 2026-01-01: a bar stays exactly when the other series has its timestamp
   * and its date is before the baseline end.
   */
  function Baseline(xle: seq<Bar>, oil: seq<Bar>): (r: (seq<Bar>, seq<Bar>))
    requires Ascending(xle) && Ascending(oil)
    ensures Ascending(r.0) && Ascending(r.1)
    ensures forall b :: b in r.0 <==> b in xle && b.stamp in StampSet(oil) && DateLt(b.stamp.date, BaselineEnd)
    ensures forall b :: b in r.1 <==> b in oil && b.stamp in StampSet(xle) && DateLt(b.stamp.date, BaselineEnd)
  {
    var aligned := Intersect2(xle, oil);
    forall t: Stamp ensures InBaseline(t) <==> DateLt(t.date, BaselineEnd) {
      BeforeMidnightIffEarlierDate(t, BaselineEnd);
    }
    (Where(aligned.0, InBaseline), Where(aligned.1, InBaseline))
  }

  predicate DatesAscending(ds: seq<Date>)
  {
    forall i, j :: 0 <= i < j < |ds| ==> DateLt(ds[i], ds[j])
  }

  /** `np.unique(index.date)` of an ascending series: its distinct dates, in ascending order. */
  function UniqueDates(bars: seq<Bar>): (ds: seq<Date>)
    requires Ascending(bars)
    ensures DatesAscending(ds)
    ensures forall d :: d in ds <==> exists b :: b in bars && b.stamp.date == d
    ensures |bars| > 0 ==> |ds| > 0 && ds[|ds| - 1] == bars[|bars| - 1].stamp.date
  {
    if |bars| == 0 then []
    else
      var n := |bars| - 1;
      var init := bars[..n];
      assert Ascending(init);
      var ds := UniqueDates(init);
      var d := bars[n].stamp.date;
      assert forall b :: b in bars <==> b in init || b == bars[n] by {
        assert bars == init + [bars[n]];
      }
      if |ds| > 0 && ds[|ds| - 1] == d then ds
      else
        assert |ds| > 0 ==> DateLt(ds[|ds| - 1], d) by {
          if |ds| > 0 {
            assert |init| > 0 && ds[|ds| - 1] == init[n - 1].stamp.date;
            assert StampLt(bars[n - 1].stamp, bars[n].stamp);
            StampOrderIsDateThenMinute(bars[n - 1].stamp, bars[n].stamp);
          }
        }
        AscendingDatesExtend(ds, d);
        ds + [d]
  }

  /** A date later than the last keeps a list of dates ascending. */
  lemma {:induction false} AscendingDatesExtend(ds: seq<Date>, d: Date)
    requires DatesAscending(ds)
    requires |ds| > 0 ==> DateLt(ds[|ds| - 1], d)
    ensures DatesAscending(ds + [d])
    ensures forall e :: e in ds ==> DateLt(e, d)
  {
  }

  // ---------------------------------------------------------------------
  // One day

  /** The fewest common bars a day needs to count. */
  const MinCommonBars: nat := 30

  /** The event day's spread, in percent. */
  const EventSpread: real := 1.94

  /** `xle_norm - oil_norm` on aligned bars: each close over the first, XLE minus oil. */
  function DaySpread(a: seq<Bar>, b: seq<Bar>): (s: seq<real>)
    requires |a| == |b|
    ensures |s| == |a|
    ensures |a| > 0 ==> s[0] == 0.0
  {
    Returns.RebasedSpread(Closes(a), Closes(b))
  }

  /**
   * The statistic one day contributes: nothing when either slice is empty
   * or the slices share fewer than 30 timestamps; otherwise the maximum of
   * the spread, which is at least its value at the first bar, zero.
   */
  function DayMaxSpread(xday: seq<Bar>, oday: seq<Bar>): (m: Option<real>)
    requires Ascending(xday) && Ascending(oday)
    ensures m.None? <==> |xday| == 0 || |oday| == 0 || |Intersect2(xday, oday).0| < MinCommonBars
    ensures m.Some? ==> m.value >= 0.0
    ensures m.Some? ==> |Intersect2(xday, oday).0| == |Intersect2(xday, oday).1|
    ensures m.Some? ==> m.value in DaySpread(Intersect2(xday, oday).0, Intersect2(xday, oday).1)
    ensures m.Some? ==> forall v :: v in DaySpread(Intersect2(xday, oday).0, Intersect2(xday, oday).1) ==> v <= m.value
  {
    if |xday| == 0 || |oday| == 0 then None
    else
      var common := Intersect2(xday, oday);
      if |common.0| < MinCommonBars then None
      else
        assert |common.1| == |common.0| by {
          assert |Stamps(common.0)| == |common.0| && |Stamps(common.1)| == |common.1|;
        }
        var s := DaySpread(common.0, common.1);
        assert s[0] == 0.0;
        Some(Max(s))
  }

  // ---------------------------------------------------------------------
  // The loop over days

  /** One collected daily maximum with the date it came from. */
  datatype DayMax = DayMax(date: Date, spread: real)

  /** The statistic of each date's day, in the order the dates are given. */
  function DayStats(xb: seq<Bar>, ob: seq<Bar>, dates: seq<Date>): (st: seq<Option<real>>)
    requires Ascending(xb) && Ascending(ob)
    ensures |st| == |dates|
    ensures forall i :: 0 <= i < |dates| ==> st[i] == DayMaxSpread(DaySlice(xb, dates[i]), DaySlice(ob, dates[i]))
    ensures forall i :: 0 <= i < |dates| && st[i].Some? ==> st[i].value >= 0.0
  {
    seq(|dates|, i requires 0 <= i < |dates| => DayMaxSpread(DaySlice(xb, dates[i]), DaySlice(ob, dates[i])))
  }

  /**
   * Keep the dates whose statistic is present, with that statistic, in the
   * order given: one entry for each present statistic and none for the others.
   */
  function Collect(dates: seq<Date>, stats: seq<Option<real>>): (r: seq<DayMax>)
    requires |dates| == |stats|
    ensures |r| <= |dates|
    ensures forall m :: m in r ==> m.date in dates
    ensures forall m :: m in r ==> exists i :: 0 <= i < |dates| && dates[i] == m.date && stats[i] == Some(m.spread)
    ensures forall i :: 0 <= i < |dates| && stats[i].Some? ==> DayMax(dates[i], stats[i].value) in r
  {
    if |dates| == 0 then []
    else
      var n := |dates| - 1;
      var r := Collect(dates[..n], stats[..n]);
      match stats[n]
      case None => r
      case Some(v) => r + [DayMax(dates[n], v)]
  }

  /** Dates in ascending order are collected in ascending order. */
  lemma {:induction false} CollectAscending(dates: seq<Date>, stats: seq<Option<real>>)
    requires |dates| == |stats| && DatesAscending(dates)
    ensures forall i, j :: 0 <= i < j < |Collect(dates, stats)| ==>
      DateLt(Collect(dates, stats)[i].date, Collect(dates, stats)[j].date)
  {
    if |dates| > 0 {
      var n := |dates| - 1;
      var init := dates[..n];
      assert DatesAscending(init);
      CollectAscending(init, stats[..n]);
      var r := Collect(init, stats[..n]);
      if stats[n].Some? {
        forall m | m in r ensures DateLt(m.date, dates[n]) {
          assert m.date in init;
          var k :| 0 <= k < n && init[k] == m.date;
        }
        var r2 := r + [DayMax(dates[n], stats[n].value)];
        assert Collect(dates, stats) == r2;
        forall i, j | 0 <= i < j < |r2| ensures DateLt(r2[i].date, r2[j].date) {
          assert r2[i] == r[i] && r[i] in r;
          if j < |r| {
            assert r2[j] == r[j];
          }
        }
      } else {
        assert Collect(dates, stats) == r;
      }
    }
  }

  /**
   * The statistics collected, date by date in the order given: exactly one
   * for each date whose day counts, and nothing for the others.
   */
  function DailyMaxima(xb: seq<Bar>, ob: seq<Bar>, dates: seq<Date>): (r: seq<DayMax>)
    requires Ascending(xb) && Ascending(ob)
    ensures |r| <= |dates|
    ensures forall m :: m in r ==> m.date in dates && m.spread >= 0.0
    ensures forall m :: m in r ==> exists i :: (0 <= i < |dates| && dates[i] == m.date &&
      DayMaxSpread(DaySlice(xb, dates[i]), DaySlice(ob, dates[i])) == Some(m.spread))
    ensures forall i :: 0 <= i < |dates| && DayStats(xb, ob, dates)[i].Some? ==>
      DayMax(dates[i], DayStats(xb, ob, dates)[i].value) in r
  {
    Collect(dates, DayStats(xb, ob, dates))
  }

  /** Dates given in ascending order give collected statistics in ascending date order, at most one per date. */
  lemma {:induction false} DailyMaximaAscending(xb: seq<Bar>, ob: seq<Bar>, dates: seq<Date>)
    requires Ascending(xb) && Ascending(ob) && DatesAscending(dates)
    ensures forall i, j :: 0 <= i < j < |DailyMaxima(xb, ob, dates)| ==>
      DateLt(DailyMaxima(xb, ob, dates)[i].date, DailyMaxima(xb, ob, dates)[j].date)
  {
    CollectAscending(dates, DayStats(xb, ob, dates));
  }

  function Spreads(ms: seq<DayMax>): (vs: seq<real>)
    ensures |vs| == |ms| && forall i :: 0 <= i < |ms| ==> vs[i] == ms[i].spread
  {
    seq(|ms|, i requires 0 <= i < |ms| => ms[i].spread)
  }

  lemma {:induction false} SpreadsAppend(ms: seq<DayMax>, m: DayMax)
    ensures Spreads(ms + [m]) == Spreads(ms) + [m.spread]
  {
    assert forall i :: 0 <= i < |ms| ==> (ms + [m])[i] == ms[i];
  }

  /** The loop of `run_spread_placebo`: visit the dates in order, skip the days that do not count, append each maximum. */
  method CollectDailyMaxima(xb: seq<Bar>, ob: seq<Bar>, dates: seq<Date>) returns (maxima: seq<real>)
    requires Ascending(xb) && Ascending(ob)
    ensures maxima == Spreads(DailyMaxima(xb, ob, dates))
  {
    ghost var stats := DayStats(xb, ob, dates);
    maxima := [];
    for k := 0 to |dates|
      invariant maxima == Spreads(Collect(dates[..k], stats[..k]))
    {
      assert dates[..k + 1][..k] == dates[..k] && stats[..k + 1][..k] == stats[..k];
      var xday := DaySlice(xb, dates[k]);
      var oday := DaySlice(ob, dates[k]);
      if |xday| == 0 || |oday| == 0 {
        continue;
      }
      var common := Intersect2(xday, oday);
      if |common.0| < MinCommonBars {
        continue;
      }
      var m := DayMaxSpread(xday, oday);
      assert m == stats[k] && m.Some?;
      SpreadsAppend(Collect(dates[..k], stats[..k]), DayMax(dates[k], m.value));
      maxima := maxima + [m.value];
    }
    assert dates[..|dates|] == dates && stats[..|dates|] == stats;
  }

  // ---------------------------------------------------------------------
  // The summary

  /** `np.array(daily_max_spreads) * 100`. */
  function Percent(xs: seq<real>): (ps: seq<real>)
    ensures |ps| == |xs| && forall i :: 0 <= i < |xs| ==> ps[i] == xs[i] * 100.0
  {
    seq(|xs|, i requires 0 <= i < |xs| => xs[i] * 100.0)
  }

  /** The variance under `ndarray.std()` as written: no degree of freedom removed, NaN only for no values. */
  function ReportedVarianceAsWritten(xs: seq<real>): (v: Option<real>)
    ensures v.None? <==> |xs| == 0
    ensures v.Some? ==> v.value * (|xs| as real) == SquaredDeviations(xs, Mean(xs))
  {
    if |xs| == 0 then None
    else
      Returns.DivideThenMultiply(SquaredDeviations(xs, Mean(xs)), |xs| as real);
      Some(PopulationVariance(xs))
  }

  /** The variance pandas' `.std()` uses everywhere else: one degree of freedom removed, NaN below two values. */
  function ReportedVariance(xs: seq<real>): (v: Option<real>)
    ensures v.None? <==> |xs| < 2
    ensures v.Some? ==> v.value >= 0.0 && (v.value == 0.0 <==> Constant(xs))
  {
    if |xs| < 2 then None
    else
      SampleVarianceZeroIffConstant(xs);
      SampleVarianceNonNegative(xs);
      Some(SampleVariance(xs))
  }

  /** The ddof=0 variance is the ddof=1 one scaled by (n - 1) / n, so it is smaller for any spread sample. */
  lemma {:induction false} PopulationVarianceUnderstates(xs: seq<real>)
    requires |xs| >= 2
    ensures (|xs| as real) * ReportedVarianceAsWritten(xs).value == ((|xs| - 1) as real) * ReportedVariance(xs).value
    ensures !Constant(xs) ==> ReportedVarianceAsWritten(xs).value < ReportedVariance(xs).value
  {
    var n := |xs| as real;
    var ss := SquaredDeviations(xs, Mean(xs));
    Returns.DivideThenMultiply(ss, n);
    Returns.DivideThenMultiply(ss, n - 1.0);
    if !Constant(xs) {
      SampleVarianceZeroIffConstant(xs);
      SampleVarianceNonNegative(xs);
      SmallerScale(ReportedVarianceAsWritten(xs).value, ReportedVariance(xs).value, n);
    }
  }

  lemma {:induction false} SmallerScale(p: real, s: real, n: real)
    requires n >= 2.0 && s > 0.0 && n * p == (n - 1.0) * s
    ensures p < s
  {
  }

  /** The two maxima 0% and 2%: the reported variance is 1 as written and 2 with pandas' convention. */
  lemma {:induction false} TwoDayVariance()
    ensures ReportedVarianceAsWritten([0.0, 2.0]) == Some(1.0)
    ensures ReportedVariance([0.0, 2.0]) == Some(2.0)
  {
    var xs := [0.0, 2.0];
    assert xs[..1] == [0.0] && xs[..1][..0] == [];
    assert Sum(xs) == 2.0;
    assert Mean(xs) == 1.0;
    assert SquaredDeviations(xs[..1], 1.0) == 1.0;
    assert SquaredDeviations(xs, 1.0) == 2.0;
  }

  /**
   * What the placebo reports: the daily maxima in percent, the event's
   * percentile, their mean, the square of the deviation it prints (numpy's
   * ddof=0) and, beside it, the sample variance of pandas' convention.
   */
  datatype PlaceboSummary = PlaceboSummary(
    maxima: seq<real>, percentile: Option<real>, mean: Option<real>, variance: Option<real>, sampleVariance: Option<real>)

  /**
   * The summary of the collected maxima: the percentage of days strictly
   * below the event's 1.94%, a mean lying between the smallest and the
   * largest daily maximum, and the printed ddof=0 variance, below the
   * sample variance whenever the maxima differ.
   */
  function Summarise(maxima: seq<real>): (s: PlaceboSummary)
    ensures s.maxima == Percent(maxima)
    ensures s.percentile == PercentileRank(Percent(maxima), EventSpread)
    ensures s.percentile.None? <==> |maxima| == 0
    ensures s.percentile.Some? ==> 0.0 <= s.percentile.value <= 100.0
    ensures s.mean.None? <==> |maxima| == 0
    ensures s.mean.Some? ==> Min(s.maxima) <= s.mean.value <= Max(s.maxima)
    ensures s.variance == ReportedVarianceAsWritten(Percent(maxima))
    ensures s.sampleVariance == ReportedVariance(Percent(maxima))
    ensures |maxima| >= 2 && !Constant(Percent(maxima)) ==> s.variance.value < s.sampleVariance.value
  {
    var ps := Percent(maxima);
    assert |ps| >= 2 && !Constant(ps) ==> ReportedVarianceAsWritten(ps).value < ReportedVariance(ps).value by {
      if |ps| >= 2 {
        PopulationVarianceUnderstates(ps);
      }
    }
    assert |ps| > 0 ==> Min(ps) <= Mean(ps) <= Max(ps) by {
      if |ps| > 0 {
        MeanBetweenMinAndMax(ps);
      }
    }
    PlaceboSummary(ps, PercentileRank(ps, EventSpread), MeanOrNone(ps), ReportedVarianceAsWritten(ps), ReportedVariance(ps))
  }

  /** The whole placebo on two loaded series. */
  function Placebo(xle: seq<Bar>, oil: seq<Bar>): (s: PlaceboSummary)
    requires Ascending(xle) && Ascending(oil)
    ensures forall v :: v in s.maxima ==> v >= 0.0
  {
    var base := Baseline(xle, oil);
    var days := DailyMaxima(base.0, base.1, UniqueDates(base.0));
    var s := Summarise(Spreads(days));
    assert forall i :: 0 <= i < |s.maxima| ==> s.maxima[i] >= 0.0 by {
      forall i | 0 <= i < |s.maxima| ensures s.maxima[i] >= 0.0 {
        assert days[i] in days;
      }
    }
    s
  }

  /**
   * The collected days follow the baseline's dates in ascending order, one
   * statistic per date at most, and each lies in the baseline.
   */
  lemma {:induction false} PlaceboDays(xle: seq<Bar>, oil: seq<Bar>)
    requires Ascending(xle) && Ascending(oil)
    ensures var base := Baseline(xle, oil);
      var days := DailyMaxima(base.0, base.1, UniqueDates(base.0));
      (forall i, j :: 0 <= i < j < |days| ==> DateLt(days[i].date, days[j].date)) &&
      (forall m :: m in days ==> DateLt(m.date, BaselineEnd))
  {
    var base := Baseline(xle, oil);
    var dates := UniqueDates(base.0);
    DailyMaximaAscending(base.0, base.1, dates);
    forall m | m in DailyMaxima(base.0, base.1, dates) ensures DateLt(m.date, BaselineEnd) {
      assert m.date in dates;
      var b :| b in base.0 && b.stamp.date == m.date;
    }
  }

  /**
   * `run_spread_placebo`: nothing when either series is missing, otherwise
   * the placebo of the two loaded series.
   */
  method RunSpreadPlacebo(listing: seq<string>, read: string -> Option<seq<Bar>>) returns (r: Option<PlaceboSummary>)
    ensures r.None? <==> |LoadedRows(listing, "XLE", read)| == 0 || |LoadedRows(listing, "CL=F", read)| == 0
    ensures r.Some? ==> (Ascending(Prepare(LoadedRows(listing, "XLE", read))) && Ascending(Prepare(LoadedRows(listing, "CL=F", read))) &&
      r.value == Placebo(Prepare(LoadedRows(listing, "XLE", read)), Prepare(LoadedRows(listing, "CL=F", read))))
  {
    var xle := LoadFiveMinuteData(listing, "XLE", read);
    var oil := LoadFiveMinuteData(listing, "CL=F", read);
    if xle.None? || oil.None? {
      return None;
    }
    PrepareSpec(LoadedRows(listing, "XLE", read));
    PrepareSpec(LoadedRows(listing, "CL=F", read));
    var base := Baseline(xle.value, oil.value);
    var dates := UniqueDates(base.0);
    var maxima := CollectDailyMaxima(base.0, base.1, dates);
    r := Some(Summarise(maxima));
  }
}
