/**
 * The intraday factor model of XLE on SPY and oil: loading the five-minute
 * cache, aligning the three series, the training/event split, residuals
 * against given factor coefficients, the cumulative abnormal return and the
 * unexplained surge after 14:55 on the event day.
 */
module FactorModel {
  import opened Wrappers
  import opened Calendar
  import opened Bars
  import opened Alignment
  import opened Stats
  import opened CacheFiles
  import opened Sequences
  import Returns

  // ---------------------------------------------------------------------
  // Loading

  /**
   * `load_5m_data`: concatenate every readable `{ticker}_*_5m.parquet`
   * file, fail when nothing was read, then deduplicate, sort, keep the
   * session and apply the date filter.
   */
  method Load5mData(listing: seq<string>, ticker: string, read: string -> Option<seq<Bar>>, dateFilter: Option<seq<string>>)
    returns (r: Option<seq<Bar>>)
    ensures r.None? <==> |Readable(ReadAll(FiveMinuteFiles(listing, ticker), read))| == 0
    ensures r.Some? ==> r.value == DateFilter(Prepare(Readable(ReadAll(FiveMinuteFiles(listing, ticker), read))), dateFilter)
  {
    var files := FiveMinuteFiles(listing, ticker);
    var rows := Concatenate(ReadAll(files, read));
    if |rows| == 0 {
      return None;
    }
    r := Some(DateFilter(Prepare(rows), dateFilter));
  }

  /**
   * A loaded series is strictly ascending and inside the session, each bar
   * is the first row read with its timestamp, and with a non-empty filter
   * list exactly the prepared bars dated in the list remain.
   */
  lemma {:induction false} LoadedSeries(rows: seq<Bar>, dateFilter: Option<seq<string>>)
    ensures Ascending(DateFilter(Prepare(rows), dateFilter))
    ensures forall b :: b in DateFilter(Prepare(rows), dateFilter) ==>
      InSession(b.stamp) && b.stamp in StampSet(rows) && b == FirstWith(rows, b.stamp)
    ensures dateFilter.Some? && |dateFilter.value| > 0 ==> forall b ::
      b in DateFilter(Prepare(rows), dateFilter) <==> b in Prepare(rows) && FormatIso(b.stamp.date) in dateFilter.value
  {
    PrepareSpec(rows);
  }

  // ---------------------------------------------------------------------
  // Returns on the common index

  /** One row of the three return series, on a common timestamp. */
  datatype FactorReturn = FactorReturn(stamp: Stamp, xle: real, spy: real, oil: real)

  /**
   * `pct_change().dropna()` of the three aligned close columns: one row per
   * bar after the first, on that bar's timestamp.
   */
  function FactorReturns(x: seq<Bar>, s: seq<Bar>, o: seq<Bar>): (rows: seq<FactorReturn>)
    requires Stamps(x) == Stamps(s) == Stamps(o)
    ensures |x| == 0 ==> rows == []
    ensures |x| > 0 ==> |rows| == |x| - 1
    ensures forall i :: 0 <= i < |rows| ==> rows[i].stamp == x[i + 1].stamp
    ensures forall i :: 0 <= i < |rows| ==>
      rows[i].xle == CloseReturns(x)[i] && rows[i].spy == CloseReturns(s)[i] && rows[i].oil == CloseReturns(o)[i]
  {
    var rx, rs, ro := CloseReturns(x), CloseReturns(s), CloseReturns(o);
    assert |rs| == |rx| && |ro| == |rx| by {
      assert |Stamps(s)| == |s| && |Stamps(o)| == |o|;
    }
    seq(|rx|, i requires 0 <= i < |rx| => FactorReturn(x[i + 1].stamp, rx[i], rs[i], ro[i]))
  }

  /** `index < "2026-01-01"`: strictly before midnight at the start of the baseline's end date. */
  predicate InTraining(t: Stamp)
  {
    StampLt(t, Midnight(BaselineEnd))
  }

  /** `index.date == 2026-01-02`. */
  predicate OnEventDay(t: Stamp)
  {
    t.date == EventDate
  }

  predicate TrainingRow(x: FactorReturn)
  {
    InTraining(x.stamp)
  }

  predicate EventDayRow(x: FactorReturn)
  {
    OnEventDay(x.stamp)
  }

  /** The training rows, `train_mask = xle_ret.index < "2026-01-01"`, in order. */
  function TrainingRows(rows: seq<FactorReturn>): (r: seq<FactorReturn>)
    ensures forall x :: x in r <==> x in rows && InTraining(x.stamp)
    ensures |r| <= |rows|
  {
    Filter(rows, TrainingRow)
  }

  /** The event rows, `test_mask = xle_ret.index.date == 2026-01-02`, in order. */
  function EventRows(rows: seq<FactorReturn>): (r: seq<FactorReturn>)
    ensures forall x :: x in r <==> x in rows && OnEventDay(x.stamp)
    ensures |r| <= |rows|
  {
    Filter(rows, EventDayRow)
  }

  /** A training bar is dated before the baseline's end, and no bar is both a training bar and an event bar. */
  lemma {:induction false} TrainingPrecedesEvent(t: Stamp)
    ensures InTraining(t) <==> DateLt(t.date, BaselineEnd)
    ensures !(InTraining(t) && OnEventDay(t))
  {
    BeforeMidnightIffEarlierDate(t, BaselineEnd);
  }

  /** So the training rows and the event rows have no row in common. */
  lemma {:induction false} TrainingAndEventDisjoint(rows: seq<FactorReturn>)
    ensures forall x :: x in TrainingRows(rows) ==> x !in EventRows(rows)
  {
    forall x | x in TrainingRows(rows) ensures x !in EventRows(rows) {
      TrainingPrecedesEvent(x.stamp);
    }
  }

  // ---------------------------------------------------------------------
  // Residuals and the cumulative abnormal return

  /** The fitted intercept and factor loadings; the least-squares fit itself is not modelled. */
  datatype Coefficients = Coefficients(alpha: real, spy: real, oil: real)

  function Predicted(c: Coefficients, row: FactorReturn): real
  {
    c.alpha + c.spy * row.spy + c.oil * row.oil
  }

  /** `Y_test - model.predict(X_test)`, bar by bar. */
  function Residuals(test: seq<FactorReturn>, c: Coefficients): (res: seq<real>)
    ensures |res| == |test|
    ensures forall i :: 0 <= i < |test| ==> Predicted(c, test[i]) + res[i] == test[i].xle
  {
    seq(|test|, i requires 0 <= i < |test| => test[i].xle - Predicted(c, test[i]))
  }

  lemma {:induction false} GrowthOfZeros(rs: seq<real>)
    requires forall i :: 0 <= i < |rs| ==> rs[i] == 0.0
    ensures Returns.Growth(rs) == 1.0
  {
    if |rs| > 0 {
      GrowthOfZeros(rs[..|rs| - 1]);
    }
  }

  /** When the factors explain every event bar exactly, no abnormal return accumulates. */
  lemma {:induction false} ExactFitHasNoAbnormalReturn(test: seq<FactorReturn>, c: Coefficients)
    requires forall i :: 0 <= i < |test| ==> test[i].xle == Predicted(c, test[i])
    ensures forall k :: 0 <= k < |test| ==> Returns.CumulativeReturn(Residuals(test, c))[k] == 0.0
  {
    var res := Residuals(test, c);
    forall k | 0 <= k < |test| ensures Returns.CumulativeReturn(res)[k] == 0.0 {
      GrowthOfZeros(res[..k + 1]);
    }
  }

  // ---------------------------------------------------------------------
  // The surge after the cut

  /** 2026-01-02 14:55 New York time. */
  const LeakCut: Stamp := Stamp(EventDate, 14 * 60 + 55)

  function EventStamps(test: seq<FactorReturn>): (ts: seq<Stamp>)
    ensures |ts| == |test| && forall i :: 0 <= i < |test| ==> ts[i] == test[i].stamp
  {
    seq(|test|, i requires 0 <= i < |test| => test[i].stamp)
  }

  /** The position of the last timestamp strictly before the cut, if any. */
  function LastBefore(ts: seq<Stamp>, cut: Stamp): (k: Option<nat>)
    ensures k.None? <==> forall i :: 0 <= i < |ts| ==> !StampLt(ts[i], cut)
    ensures k.Some? ==> k.value < |ts| && StampLt(ts[k.value], cut)
    ensures k.Some? ==> forall j :: k.value < j < |ts| ==> !StampLt(ts[j], cut)
  {
    if |ts| == 0 then None
    else if StampLt(ts[|ts| - 1], cut) then Some(|ts| - 1)
    else LastBefore(ts[..|ts| - 1], cut)
  }

  datatype Surge =
    | NoBarAfterCut                                 // nothing at or after 14:55: the surge is not evaluated
    | NoBarBeforeCut                                // `.iloc[-1]` of an empty selection raises
    | Surge(cut: nat, atCut: real, diff: real)      // CAR at the last bar before 14:55 and the rise after it

  /**
   * The unexplained surge: final CAR minus the CAR at the last bar strictly
   * before the cut, evaluated only when some bar is at or after the cut.
   */
  function SurgeAfter(ts: seq<Stamp>, car: seq<real>, cut: Stamp): (s: Surge)
    requires |ts| == |car|
    ensures s == NoBarAfterCut <==> forall i :: 0 <= i < |ts| ==> StampLt(ts[i], cut)
    ensures s == NoBarBeforeCut <==>
      (exists i :: 0 <= i < |ts| && !StampLt(ts[i], cut)) && forall i :: 0 <= i < |ts| ==> !StampLt(ts[i], cut)
    ensures s.Surge? ==> (LastBefore(ts, cut) == Some(s.cut) &&
      s.atCut == car[s.cut] && s.diff == car[|car| - 1] - car[s.cut])
  {
    if forall i :: 0 <= i < |ts| ==> StampLt(ts[i], cut) then NoBarAfterCut
    else
      var k := LastBefore(ts, cut);
      if k.None? then NoBarBeforeCut
      else
        Surge(k.value, car[k.value], car[|car| - 1] - car[k.value])
  }

  /** `diff > 0.01`: more than one percent of return left unexplained after the cut. */
  predicate SignificantSurge(s: Surge)
  {
    s.Surge? && s.diff > 0.01
  }

  /** The surge is the rise in compounded growth over the bars after the cut. */
  lemma {:induction false} SurgeCompounds(ts: seq<Stamp>, res: seq<real>, cut: Stamp)
    requires |ts| == |res|
    ensures var s := SurgeAfter(ts, Returns.CumulativeReturn(res), cut);
      s.Surge? ==> s.diff == (1.0 + s.atCut) * (Returns.Growth(res[s.cut + 1..]) - 1.0)
  {
    var car := Returns.CumulativeReturn(res);
    var s := SurgeAfter(ts, car, cut);
    if s.Surge? {
      RiseAfter(res, s.cut);
    }
  }

  /** The cumulative return rises after bar `k` by its level there compounded over the later returns. */
  lemma {:induction false} RiseAfter(res: seq<real>, k: int)
    requires 0 <= k < |res|
    ensures var car := Returns.CumulativeReturn(res);
      car[|res| - 1] - car[k] == (1.0 + car[k]) * (Returns.Growth(res[k + 1..]) - 1.0)
  {
    var car := Returns.CumulativeReturn(res);
    Returns.CumulativeSplit(res, k);
    RiseOfCompounded(car[k], car[|res| - 1], Returns.Growth(res[k + 1..]));
  }

  /** A value compounded from `a` by the factor `g` has risen by `(1 + a) * (g - 1)`. */
  lemma {:induction false} RiseOfCompounded(a: real, b: real, g: real)
    requires 1.0 + b == (1.0 + a) * g
    ensures b - a == (1.0 + a) * (g - 1.0)
  {
  }

  // ---------------------------------------------------------------------
  // The whole run

  /** The fewest training returns the model is fitted on. */
  const MinTrainingReturns: nat := 100

  datatype FactorOutcome =
    | InsufficientTraining(count: nat)
    | EmptyEventWindow                  // `cum_residuals.iloc[-1]` on an empty event day raises
    | EventReport(car: seq<real>, totalCar: real, bars: nat, surge: Surge)

  /** The close-to-close return of a series from t0 to t1, missing unless it has a bar at both. */
  function ReturnOver(bars: seq<Bar>, t0: Stamp, t1: Stamp): Option<real>
  {
    var c0, c1 := Lookup(bars, t0), Lookup(bars, t1);
    if c0.Some? && c1.Some? then Some(c1.value as real / c0.value as real - 1.0) else None
  }

  /** A row holds each series' return from t0 to the row's own timestamp. */
  predicate ReturnsBetween(xle: seq<Bar>, spy: seq<Bar>, oil: seq<Bar>, t0: Stamp, row: FactorReturn)
  {
    ReturnOver(xle, t0, row.stamp) == Some(row.xle) &&
    ReturnOver(spy, t0, row.stamp) == Some(row.spy) &&
    ReturnOver(oil, t0, row.stamp) == Some(row.oil)
  }

  /**
   * The per-bar factor returns of the three series after alignment: one row
   * per shared timestamp after the first, ascending, each holding the three
   * returns since the shared timestamp before it.
   */
  function AlignedReturns(xle: seq<Bar>, spy: seq<Bar>, oil: seq<Bar>): (rows: seq<FactorReturn>)
    requires Ascending(xle) && Ascending(spy) && Ascending(oil)
    ensures forall i :: 0 <= i < |rows| ==> rows[i].stamp in StampSet(xle) * StampSet(spy) * StampSet(oil)
    ensures forall i, j :: 0 <= i < j < |rows| ==> StampLt(rows[i].stamp, rows[j].stamp)
    ensures |rows| == if |StampSet(xle) * StampSet(spy) * StampSet(oil)| == 0 then 0
      else |StampSet(xle) * StampSet(spy) * StampSet(oil)| - 1
    ensures |rows| > 0 ==>
      exists t :: t in StampSet(xle) * StampSet(spy) * StampSet(oil) && StampLt(t, rows[0].stamp) &&
        ReturnsBetween(xle, spy, oil, t, rows[0])
    ensures forall i :: 0 < i < |rows| ==> ReturnsBetween(xle, spy, oil, rows[i - 1].stamp, rows[i])
  {
    var a := Intersect3(xle, spy, oil);
    var rows := FactorReturns(a.0, a.1, a.2);
    FactorReturnStamps(a.0, rows);
    AlignedRowsHead(xle, spy, oil, a, rows);
    AlignedRowsTail(xle, spy, oil, a.0, a.1, a.2, rows);
    rows
  }

  /** A series' return between two consecutive bars of an ascending sub-series is the sub-series' close return. */
  lemma {:induction false} SubSeriesReturn(bars: seq<Bar>, x: seq<Bar>, i: int)
    requires Ascending(bars) && 0 <= i && i + 1 < |x|
    requires x[i] in bars && x[i + 1] in bars
    ensures ReturnOver(bars, x[i].stamp, x[i + 1].stamp) == Some(CloseReturns(x)[i])
  {
    var k0 :| 0 <= k0 < |bars| && bars[k0] == x[i];
    var k1 :| 0 <= k1 < |bars| && bars[k1] == x[i + 1];
    LookupMember(bars, k0);
    LookupMember(bars, k1);
    assert CloseReturns(x)[i] == Closes(x)[i + 1] / Closes(x)[i] - 1.0;
  }

  /** Row i of the returns of sub-series of the three inputs holds their returns from bar i to bar i + 1. */
  lemma {:induction false} AlignedRow(xle: seq<Bar>, spy: seq<Bar>, oil: seq<Bar>,
                                      x: seq<Bar>, s: seq<Bar>, o: seq<Bar>, rows: seq<FactorReturn>, i: int)
    requires Ascending(xle) && Ascending(spy) && Ascending(oil)
    requires (forall b :: b in x ==> b in xle) && (forall b :: b in s ==> b in spy) && (forall b :: b in o ==> b in oil)
    requires Stamps(x) == Stamps(s) == Stamps(o) && rows == FactorReturns(x, s, o)
    requires 0 <= i < |rows|
    ensures ReturnsBetween(xle, spy, oil, x[i].stamp, rows[i])
  {
    assert x[i] in x && x[i + 1] in x && s[i] in s && s[i + 1] in s && o[i] in o && o[i + 1] in o;
    assert Stamps(x)[i] == Stamps(s)[i] == Stamps(o)[i];
    assert Stamps(x)[i + 1] == Stamps(s)[i + 1] == Stamps(o)[i + 1];
    SubSeriesReturn(xle, x, i);
    SubSeriesReturn(spy, s, i);
    SubSeriesReturn(oil, o, i);
  }

  /** One aligned row per shared timestamp after the first, the first measured from a shared timestamp before it. */
  lemma {:induction false} AlignedRowsHead(xle: seq<Bar>, spy: seq<Bar>, oil: seq<Bar>,
                                           a: (seq<Bar>, seq<Bar>, seq<Bar>), rows: seq<FactorReturn>)
    requires Ascending(xle) && Ascending(spy) && Ascending(oil)
    requires a == Intersect3(xle, spy, oil) && rows == FactorReturns(a.0, a.1, a.2)
    ensures |rows| == if |StampSet(xle) * StampSet(spy) * StampSet(oil)| == 0 then 0
      else |StampSet(xle) * StampSet(spy) * StampSet(oil)| - 1
    ensures |rows| > 0 ==>
      exists t :: t in StampSet(xle) * StampSet(spy) * StampSet(oil) && StampLt(t, rows[0].stamp) &&
        ReturnsBetween(xle, spy, oil, t, rows[0])
  {
    var x := a.0;
    AscendingStampCount(x);
    if |rows| > 0 {
      AlignedRow(xle, spy, oil, a.0, a.1, a.2, rows, 0);
      InStampSet(x, 0);
      assert StampLt(x[0].stamp, x[1].stamp);
    }
  }

  /** Every row after the first holds the returns since the row before it. */
  lemma {:induction false} AlignedRowsTail(xle: seq<Bar>, spy: seq<Bar>, oil: seq<Bar>,
                                           x: seq<Bar>, s: seq<Bar>, o: seq<Bar>, rows: seq<FactorReturn>)
    requires Ascending(xle) && Ascending(spy) && Ascending(oil)
    requires (forall b :: b in x ==> b in xle) && (forall b :: b in s ==> b in spy) && (forall b :: b in o ==> b in oil)
    requires Stamps(x) == Stamps(s) == Stamps(o) && rows == FactorReturns(x, s, o)
    ensures forall i :: 0 < i < |rows| ==> ReturnsBetween(xle, spy, oil, rows[i - 1].stamp, rows[i])
  {
    forall i | 0 < i < |rows| ensures ReturnsBetween(xle, spy, oil, rows[i - 1].stamp, rows[i]) {
      AlignedRow(xle, spy, oil, x, s, o, rows, i);
      assert rows[i - 1].stamp == x[i].stamp;
    }
  }

  /** Rows stamped with the bars after the first of an ascending series carry its timestamps, ascending. */
  lemma {:induction false} FactorReturnStamps(x: seq<Bar>, rows: seq<FactorReturn>)
    requires Ascending(x)
    requires |x| == 0 ==> rows == []
    requires |x| > 0 ==> |rows| == |x| - 1
    requires forall i :: 0 <= i < |rows| ==> rows[i].stamp == x[i + 1].stamp
    ensures forall i :: 0 <= i < |rows| ==> rows[i].stamp in StampSet(x)
    ensures forall i, j :: 0 <= i < j < |rows| ==> StampLt(rows[i].stamp, rows[j].stamp)
  {
    forall i | 0 <= i < |rows| ensures rows[i].stamp in StampSet(x) {
      InStampSet(x, i + 1);
    }
  }

  /**
   * `run_factor_model` after loading: align, take returns, split, and with
   * enough training data score the event day against the given coefficients.
   */

  function RunFactorModel(xle: seq<Bar>, spy: seq<Bar>, oil: seq<Bar>, c: Coefficients): (r: FactorOutcome)
    requires Ascending(xle) && Ascending(spy) && Ascending(oil)
    ensures r.InsufficientTraining? <==> |TrainingRows(AlignedReturns(xle, spy, oil))| < MinTrainingReturns
    ensures r.InsufficientTraining? ==> r.count == |TrainingRows(AlignedReturns(xle, spy, oil))|
    ensures r == EmptyEventWindow <==>
      |TrainingRows(AlignedReturns(xle, spy, oil))| >= MinTrainingReturns &&
      |EventRows(AlignedReturns(xle, spy, oil))| == 0
    ensures r.EventReport? ==> r.bars == |EventRows(AlignedReturns(xle, spy, oil))| > 0
    ensures r.EventReport? ==>
      r.car == Returns.CumulativeReturn(Residuals(EventRows(AlignedReturns(xle, spy, oil)), c))
    ensures r.EventReport? ==> |r.car| == r.bars > 0 && r.totalCar == r.car[|r.car| - 1]
    ensures r.EventReport? ==>
      r.surge == SurgeAfter(EventStamps(EventRows(AlignedReturns(xle, spy, oil))), r.car, LeakCut)
  {
    var rows := AlignedReturns(xle, spy, oil);
    var train := TrainingRows(rows);
    if |train| < MinTrainingReturns then InsufficientTraining(|train|)
    else
      var test := EventRows(rows);
      if |test| == 0 then EmptyEventWindow
      else
        var car := Returns.CumulativeReturn(Residuals(test, c));
        EventReport(car, car[|car| - 1], |test|, SurgeAfter(EventStamps(test), car, LeakCut))
  }

  /**
   * The z-score of the total CAR against `sqrt(n) * resid_std`: numpy
   * division, so a zero or missing deviation gives no finite score. The
   * square root is supplied as `rootN` with `rootN * rootN == n`.
   */
  function CarZScore(totalCar: real, n: nat, rootN: real, residStd: Option<real>): (z: Quotient)
    requires n > 0 && rootN >= 0.0 && rootN * rootN == n as real
    ensures z.Finite? <==> residStd.Some? && residStd.value != 0.0
    ensures z.Finite? ==> residStd.Some? && z.value * (rootN * residStd.value) == totalCar
    ensures residStd == Some(0.0) ==> (z == PlusInfinity <==> totalCar > 0.0)
  {
    assert rootN > 0.0;
    var carStd := if residStd.Some? then Some(rootN * residStd.value) else None;
    assert carStd.Some? ==> (carStd.value == 0.0 <==> residStd.value == 0.0) by {
      if residStd.Some? && residStd.value != 0.0 {
        NonZeroProduct(rootN, residStd.value);
      }
    }
    FloatDivide(Some(totalCar), carStd)
  }

  lemma {:induction false} NonZeroProduct(a: real, b: real)
    requires a != 0.0 && b != 0.0
    ensures a * b != 0.0
  {
  }
}
