/**
 * The forensic analysis of the event day: choosing the cached file,
 * the intraday XLE/oil spread rebased to the session open, its peak, the
 * daily-spread z-score, the beta significance test, the defence-versus-
 * shipping pattern test and the market-on-close volume test.
 */
module Forensics {
  import opened Wrappers
  import opened Calendar
  import opened Bars
  import opened Alignment
  import opened Stats
  import opened CacheFiles
  import Returns

  // ---------------------------------------------------------------------
  // Choosing the cached file

  /**
   * Which file `load_ticker_data` reads. When no listed file covers the
   * target (or no target is given) it reads the most recently modified
   * candidate; modification times are file-system state, so the model
   * returns the candidates that choice is made among.
   */
  datatype Selection =
    | Selected(file: string)
    | NewestByModificationTime(candidates: seq<string>)
    | NoDataFound       // FileNotFoundError
    | UnreadableTarget  // pd.Timestamp(target) raises; the error propagates

  method LoadTickerData(listing: seq<string>, ticker: string, target: Option<string>) returns (s: Selection)
    ensures s == NoDataFound <==> |CandidateFiles(listing, ticker)| == 0
    ensures s == UnreadableTarget <==>
      |CandidateFiles(listing, ticker)| > 0 && target.Some? && |target.value| > 0 && ParseIso(target.value).None?
    ensures s.Selected? <==>
      |CandidateFiles(listing, ticker)| > 0 && target.Some? && |target.value| > 0 && ParseIso(target.value).Some? &&
      FirstCoveringFile(CandidateFiles(listing, ticker), ParseIso(target.value).value).Some?
    ensures s.Selected? ==>
      s.file == FirstCoveringFile(CandidateFiles(listing, ticker), ParseIso(target.value).value).value &&
      s.file in CandidateFiles(listing, ticker) && Covers(s.file, ParseIso(target.value).value)
    ensures s.NewestByModificationTime? ==> s.candidates == CandidateFiles(listing, ticker)
  {
    var files := CandidateFiles(listing, ticker);
    if |files| == 0 {
      return NoDataFound;
    }
    if target.Some? && |target.value| > 0 {
      var targetDate := ParseIso(target.value);
      if targetDate.None? {
        return UnreadableTarget;
      }
      var chosen := ScanForCovering(files, targetDate.value);
      if chosen.Some? {
        return Selected(chosen.value);
      }
    }
    return NewestByModificationTime(files);
  }

  // ---------------------------------------------------------------------
  // The intraday leak spread

  /** A day's regular-session bars. */
  function SessionDay(bars: seq<Bar>, day: Date): (r: seq<Bar>)
    ensures forall b :: b in r <==> b in bars && b.stamp.date == day && InSession(b.stamp)
    ensures Ascending(bars) ==> Ascending(r)
  {
    SessionFilter(DaySlice(bars, day))
  }

  /**
   * `close / close.iloc[0]` over a forward-filled column: missing wherever
   * the value is missing, and everywhere when the first value is missing.
   */
  function RebaseFilled(xs: seq<Option<Price>>): (r: seq<Option<real>>)
    ensures |r| == |xs|
    ensures forall i :: 0 <= i < |xs| ==> (r[i].Some? <==> xs[0].Some? && xs[i].Some?)
    ensures forall i :: 0 <= i < |xs| && r[i].Some? ==> r[i].value * xs[0].value == xs[i].value
  {
    var r := seq(|xs|, i requires 0 <= i < |xs| =>
      if xs[0].Some? && xs[i].Some? then Some(xs[i].value / xs[0].value) else None);
    assert forall i :: 0 <= i < |xs| && r[i].Some? ==> r[i].value * xs[0].value == xs[i].value by {
      forall i | 0 <= i < |xs| && r[i].Some? ensures r[i].value * xs[0].value == xs[i].value {
        Returns.DivideThenMultiply(xs[i].value, xs[0].value);
      }
    }
    r
  }

  /** Element-wise `a - b`, missing where either is missing. */
  function Difference(a: seq<Option<real>>, b: seq<Option<real>>): (r: seq<Option<real>>)
    requires |a| == |b|
    ensures |r| == |a|
    ensures forall i :: 0 <= i < |a| ==> (r[i].Some? <==> a[i].Some? && b[i].Some?)
    ensures forall i :: 0 <= i < |a| && r[i].Some? ==> r[i].value == a[i].value - b[i].value
  {
    seq(|a|, i requires 0 <= i < |a| => if a[i].Some? && b[i].Some? then Some(a[i].value - b[i].value) else None)
  }

  lemma {:induction false} QuotientUnique(c: real, a: real, q: real)
    requires a > 0.0 && q * a == c
    ensures q == c / a
  {
  }

  /** The difference of two rebased columns, position by position. */
  lemma {:induction false} RebasedDifferenceAt(xf: seq<Option<Price>>, of: seq<Option<Price>>, i: int)
    requires |xf| == |of| && 0 <= i < |xf|
    ensures var d := Difference(RebaseFilled(xf), RebaseFilled(of));
      (d[i].Some? <==> xf[0].Some? && xf[i].Some? && of[0].Some? && of[i].Some?) &&
      (d[i].Some? ==> d[i].value == xf[i].value as real / xf[0].value as real - of[i].value as real / of[0].value as real)
  {
    var xn, on := RebaseFilled(xf), RebaseFilled(of);
    if xn[i].Some? && on[i].Some? {
      QuotientUnique(xf[i].value, xf[0].value, xn[i].value);
      QuotientUnique(of[i].value, of[0].value, on[i].value);
    }
  }

  /** The result of `calculate_leak_spread`: the union index, the spread and the two rebased series. */
  datatype LeakSpread = LeakSpread(index: seq<Stamp>, spread: seq<Option<real>>, xle: seq<Option<real>>, oil: seq<Option<real>>)

  /**
   * Both session series put on the union of their timestamps, forward
   * filled, rebased to their first value, and subtracted.
   */
  function SpreadOf(xs: seq<Bar>, os: seq<Bar>): (r: LeakSpread)
    requires Ascending(xs) && Ascending(os)
    ensures Increasing(r.index)
    ensures forall t :: t in r.index <==> t in StampSet(xs) || t in StampSet(os)
    ensures |r.spread| == |r.index| && |r.xle| == |r.index| && |r.oil| == |r.index|
  {
    var aligned := UnionFill(xs, os);
    var xn, on := RebaseFilled(aligned.1), RebaseFilled(aligned.2);
    LeakSpread(aligned.0, Difference(xn, on), xn, on)
  }

  /** What `calculate_leak_spread` ends with. */
  datatype LeakOutcome =
    | NoLeakData                     // an empty day, before or after the session filter: `None`
    | ReindexRaised                  // a repeated timestamp: `reindex` raises ValueError, which nobody catches
    | LeakComputed(result: LeakSpread)

  /**
   * The frames arrive as read from the cache file, in file order and
   * possibly with repeated timestamps. No result when either day slice is
   * empty, before or after the session filter; a repeated timestamp in
   * either session day makes `reindex` raise; otherwise the spread of the
   * two session days, which `union` puts in timestamp order.
   */
  function CalculateLeakSpread(xle: seq<Bar>, oil: seq<Bar>, day: Date): (r: LeakOutcome)
    ensures r == NoLeakData <==>
      |DaySlice(xle, day)| == 0 || |DaySlice(oil, day)| == 0 ||
      |SessionDay(xle, day)| == 0 || |SessionDay(oil, day)| == 0
    ensures r == ReindexRaised <==>
      r != NoLeakData && (!DistinctStamps(SessionDay(xle, day)) || !DistinctStamps(SessionDay(oil, day)))
    ensures r.LeakComputed? ==>
      Ascending(SortByStamp(SessionDay(xle, day))) && Ascending(SortByStamp(SessionDay(oil, day))) &&
      StampSet(SortByStamp(SessionDay(xle, day))) == StampSet(SessionDay(xle, day)) &&
      StampSet(SortByStamp(SessionDay(oil, day))) == StampSet(SessionDay(oil, day)) &&
      r.result == SpreadOf(SortByStamp(SessionDay(xle, day)), SortByStamp(SessionDay(oil, day)))
  {
    var xd, od := DaySlice(xle, day), DaySlice(oil, day);
    if |xd| == 0 || |od| == 0 then NoLeakData
    else
      var xs, os := SessionFilter(xd), SessionFilter(od);
      if |xs| == 0 || |os| == 0 then NoLeakData
      else if !DistinctStamps(xs) || !DistinctStamps(os) then ReindexRaised
      else
        SortByStampAscending(xs);
        SortByStampAscending(os);
        LeakComputed(SpreadOf(SortByStamp(xs), SortByStamp(os)))
  }

  /**
   * On frames already in strictly ascending order nothing raises, and the
   * spread is that of the two session days as they stand.
   */
  lemma {:induction false} AscendingFramesNeedNoSort(xle: seq<Bar>, oil: seq<Bar>, day: Date)
    requires Ascending(xle) && Ascending(oil)
    ensures CalculateLeakSpread(xle, oil, day) != ReindexRaised
    ensures CalculateLeakSpread(xle, oil, day).LeakComputed? ==>
      CalculateLeakSpread(xle, oil, day).result == SpreadOf(SessionDay(xle, day), SessionDay(oil, day))
  {
    var xs, os := SessionDay(xle, day), SessionDay(oil, day);
    AscendingIsDistinct(xs);
    AscendingIsDistinct(os);
    SortAscendingIsIdentity(xs);
    SortAscendingIsIdentity(os);
  }

  /**
   * Each spread value is the XLE close in force at that bar over the XLE
   * close in force at the first bar, minus the same ratio for oil; it is
   * undefined when either series has no bar yet at one of those points.
   */
  lemma {:induction false} SpreadAt(xs: seq<Bar>, os: seq<Bar>, i: int)
    requires Ascending(xs) && Ascending(os)
    requires 0 <= i < |SpreadOf(xs, os).index|
    ensures var r := SpreadOf(xs, os);
      var x0, xi := LatestAtOrBefore(xs, r.index[0]), LatestAtOrBefore(xs, r.index[i]);
      var o0, oi := LatestAtOrBefore(os, r.index[0]), LatestAtOrBefore(os, r.index[i]);
      (r.spread[i].Some? <==> x0.Some? && xi.Some? && o0.Some? && oi.Some?) &&
      (r.spread[i].Some? ==> r.spread[i].value == xi.value as real / x0.value as real - oi.value as real / o0.value as real)
  {
    UnionFillIsLatest(xs, os, 0);
    UnionFillIsLatest(xs, os, i);
    var aligned := UnionFill(xs, os);
    RebasedDifferenceAt(aligned.1, aligned.2, i);
  }

  /**
   * The spread is zero at the first bar when both series have a bar there;
   * when either lacks one, no value can be filled at the first bar and the
   * whole spread is undefined.
   */
  lemma {:induction false} SpreadAtOpen(xs: seq<Bar>, os: seq<Bar>)
    requires Ascending(xs) && Ascending(os) && |xs| > 0
    ensures var r := SpreadOf(xs, os);
      |r.index| > 0 &&
      var x0, o0 := LatestAtOrBefore(xs, r.index[0]), LatestAtOrBefore(os, r.index[0]);
      (x0.Some? && o0.Some? ==> r.spread[0] == Some(0.0)) &&
      (x0.None? || o0.None? ==> forall i :: 0 <= i < |r.spread| ==> r.spread[i].None?)
  {
    var r := SpreadOf(xs, os);
    assert |r.index| > 0 by {
      InStampSet(xs, 0);
    }
    SpreadAt(xs, os, 0);
    var x0 := LatestAtOrBefore(xs, r.index[0]);
    var o0 := LatestAtOrBefore(os, r.index[0]);
    if x0.Some? && o0.Some? {
      Returns.DivideThenMultiply(x0.value, x0.value);
      Returns.DivideThenMultiply(o0.value, o0.value);
    }
    forall i | 0 <= i < |r.spread| && (x0.None? || o0.None?) ensures r.spread[i].None? {
      SpreadAt(xs, os, i);
    }
  }

  /** If one series' closes are a fixed positive multiple of the other's, bar for bar, so are the closes in force. */
  lemma {:induction false} LatestProportional(xs: seq<Bar>, os: seq<Bar>, k: real, t: Stamp)
    requires |xs| == |os| && k > 0.0
    requires forall i :: 0 <= i < |xs| ==> os[i].stamp == xs[i].stamp && os[i].close as real == k * xs[i].close
    ensures LatestAtOrBefore(os, t).Some? <==> LatestAtOrBefore(xs, t).Some?
    ensures LatestAtOrBefore(os, t).Some? ==> LatestAtOrBefore(os, t).value as real == k * LatestAtOrBefore(xs, t).value
  {
    if |xs| > 0 {
      var n := |xs| - 1;
      var xp, op := xs[..n], os[..n];
      forall i | 0 <= i < n ensures op[i].stamp == xp[i].stamp && op[i].close as real == k * xp[i].close {
        assert op[i] == os[i] && xp[i] == xs[i];
      }
      LatestProportional(xp, op, k, t);
    }
  }

  lemma {:induction false} SameStampSet(xs: seq<Bar>, os: seq<Bar>)
    requires |xs| == |os|
    requires forall i :: 0 <= i < |xs| ==> os[i].stamp == xs[i].stamp
    ensures StampSet(xs) == StampSet(os)
  {
    forall t | t in StampSet(os) ensures t in StampSet(xs) {
      var j :| 0 <= j < |os| && os[j].stamp == t;
      InStampSet(xs, j);
    }
    forall t | t in StampSet(xs) ensures t in StampSet(os) {
      var j :| 0 <= j < |xs| && xs[j].stamp == t;
      InStampSet(os, j);
    }
  }

  /** With the same timestamps, every union timestamp has a close in force. */
  lemma {:induction false} ProportionalOpen(xs: seq<Bar>, os: seq<Bar>, k: real)
    requires Ascending(xs) && Ascending(os) && k > 0.0 && |xs| > 0
    requires |os| == |xs|
    requires forall i :: 0 <= i < |xs| ==> os[i].stamp == xs[i].stamp && os[i].close as real == k * xs[i].close
    ensures forall t :: t in UnionFill(xs, os).0 ==> LatestAtOrBefore(xs, t).Some?
  {
    var index := UnionFill(xs, os).0;
    SameStampSet(xs, os);
    InStampSet(xs, 0);
    forall t | t in index ensures LatestAtOrBefore(xs, t).Some? {
      assert t in StampSet(xs);
      var m :| 0 <= m < |xs| && xs[m].stamp == t;
      LatestAtBar(xs, m);
    }
  }

  lemma {:induction false} ScaledAt(xs: seq<Bar>, os: seq<Bar>, k: real, t: Stamp)
    requires |xs| == |os| && k > 0.0
    requires forall i :: 0 <= i < |xs| ==> os[i].stamp == xs[i].stamp && os[i].close as real == k * xs[i].close
    requires LatestAtOrBefore(xs, t).Some?
    ensures ScaledBy(LatestAtOrBefore(os, t), LatestAtOrBefore(xs, t), k)
  {
    LatestProportional(xs, os, k, t);
  }

  /** A fixed positive multiple, where both are present. */
  predicate ScaledBy(o: Option<Price>, x: Option<Price>, k: real)
  {
    o.Some? && x.Some? && o.value as real == k * x.value
  }

  /** Two proportional, fully present columns rebase to the same values, so their difference is zero. */
  lemma {:induction false} ProportionalColumns(xf: seq<Option<Price>>, of: seq<Option<Price>>, k: real)
    requires |xf| == |of| && k > 0.0
    requires forall i :: 0 <= i < |xf| ==> ScaledBy(of[i], xf[i], k)
    ensures forall i :: 0 <= i < |xf| ==> Difference(RebaseFilled(xf), RebaseFilled(of))[i] == Some(0.0)
  {
    forall i | 0 <= i < |xf| ensures Difference(RebaseFilled(xf), RebaseFilled(of))[i] == Some(0.0) {
      RebasedDifferenceAt(xf, of, i);
      assert ScaledBy(of[0], xf[0], k) && ScaledBy(of[i], xf[i], k);
      ProportionalRatios(k, xf[0].value as real, xf[i].value as real, of[0].value as real, of[i].value as real);
    }
  }

  /**
   * Two series that trade at the same timestamps with proportional closes
   * have a spread of exactly zero at every bar.
   */
  lemma {:induction false} ProportionalSpreadIsZero(xs: seq<Bar>, os: seq<Bar>, k: real)
    requires Ascending(xs) && Ascending(os) && k > 0.0 && |xs| > 0
    requires |os| == |xs|
    requires forall i :: 0 <= i < |xs| ==> os[i].stamp == xs[i].stamp && os[i].close as real == k * xs[i].close
    ensures forall i :: 0 <= i < |SpreadOf(xs, os).spread| ==> SpreadOf(xs, os).spread[i] == Some(0.0)
  {
    var aligned := UnionFill(xs, os);
    ProportionalOpen(xs, os, k);
    forall i | 0 <= i < |aligned.0| ensures ScaledBy(aligned.2[i], aligned.1[i], k) {
      var t := aligned.0[i];
      assert t in aligned.0;
      UnionFillIsLatest(xs, os, i);
      ScaledAt(xs, os, k, t);
    }
    ProportionalColumns(aligned.1, aligned.2, k);
  }

  lemma {:induction false} ProportionalRatios(k: real, x0: real, xi: real, o0: real, oi: real)
    requires k > 0.0 && x0 > 0.0 && o0 == k * x0 && oi == k * xi
    ensures xi / x0 - oi / o0 == 0.0
  {
    Returns.ScaledRatio(k, xi, x0);
  }

  // ---------------------------------------------------------------------
  // The peak of the spread

  /** pandas `max()` over the values present: None (NaN) when there are none. */
  function MaxPresent(xs: seq<Option<real>>): (m: Option<real>)
    ensures m.None? <==> forall i :: 0 <= i < |xs| ==> xs[i].None?
    ensures m.Some? ==> m in xs && forall i :: 0 <= i < |xs| && xs[i].Some? ==> xs[i].value <= m.value
  {
    var p := Present(xs);
    if |p| == 0 then None
    else
      var v := Max(p);
      assert forall i :: 0 <= i < |xs| && xs[i].Some? ==> xs[i].value <= v by {
        forall i | 0 <= i < |xs| && xs[i].Some? ensures xs[i].value <= v {
          assert xs[i].value in p;
        }
      }
      Some(v)
  }

  /** The first position holding o: `idxmax` reports the first maximum. */
  function FirstPosition(xs: seq<Option<real>>, o: Option<real>): (k: nat)
    requires o in xs
    ensures k < |xs| && xs[k] == o
    ensures forall j :: 0 <= j < k ==> xs[j] != o
  {
    if xs[0] == o then 0
    else
      assert o in xs[1..] by {
        var i :| 0 <= i < |xs| && xs[i] == o;
        assert xs[1..][i - 1] == o;
      }
      var k := FirstPosition(xs[1..], o);
      assert forall j :: 1 <= j <= k ==> xs[j] == xs[1..][j - 1];
      k + 1
  }

  /** The largest spread and the first time it is reached (`spread.max()`, `spread.idxmax()`). */
  function PeakSpread(r: LeakSpread): (p: Option<(Stamp, real)>)
    requires |r.spread| == |r.index|
    ensures p.None? <==> forall i :: 0 <= i < |r.spread| ==> r.spread[i].None?
    ensures p.Some? ==> forall j :: 0 <= j < |r.spread| && r.spread[j].Some? ==> r.spread[j].value <= p.value.1
    ensures p.Some? ==> (exists k :: (0 <= k < |r.index| && r.index[k] == p.value.0 && r.spread[k] == Some(p.value.1) &&
      forall j :: 0 <= j < k ==> r.spread[j] != Some(p.value.1)))
  {
    var m := MaxPresent(r.spread);
    if m.None? then None
    else
      var k := FirstPosition(r.spread, m);
      Some((r.index[k], m.value))
  }

  /** Whenever the spread is defined at the first bar, its peak is at least zero. */
  lemma {:induction false} PeakSpreadNonNegative(xs: seq<Bar>, os: seq<Bar>)
    requires Ascending(xs) && Ascending(os) && |xs| > 0
    requires SpreadOf(xs, os).spread[0].Some?
    ensures PeakSpread(SpreadOf(xs, os)).Some?
    ensures PeakSpread(SpreadOf(xs, os)).value.1 >= 0.0
  {
    SpreadAtOpen(xs, os);
    SpreadAt(xs, os, 0);
  }

  // ---------------------------------------------------------------------
  // The event volume and the daily spread z-score

  /** What the report section of the event day ends with. */
  datatype LeakReport =
    | NoLeakSpread                                   // no spread: `max_vol_val` keeps its default 0
    | Aborted                                        // an exception outside any handler ends the analysis
    | LeakFound(peakTime: Stamp, peak: real, volume: real)

  /**
   * The report on a spread result. A raised `reindex` ends the analysis
   * before any report. An all-NaN spread makes `idxmax` give
   * NaN, whose `.tzinfo` raises AttributeError; a day without XLE bars makes
   * `xle.loc[target_date]` raise KeyError; neither is caught, so the rest of
   * the analysis never runs. Otherwise the peak spread, its first time and
   * the day's largest XLE volume are reported.
   */
  function ForensicReport(xle: seq<Bar>, day: Date, leak: LeakOutcome): (r: LeakReport)
    requires leak.LeakComputed? ==> |leak.result.spread| == |leak.result.index|
    ensures r == NoLeakSpread <==> leak.NoLeakData?
    ensures r == Aborted <==>
      leak.ReindexRaised? || (leak.LeakComputed? && ((forall i :: 0 <= i < |leak.result.spread| ==> leak.result.spread[i].None?) || |DaySlice(xle, day)| == 0))
    ensures r.LeakFound? ==> leak.LeakComputed? && PeakSpread(leak.result) == Some((r.peakTime, r.peak))
    ensures r.LeakFound? ==>
      (exists b :: b in DaySlice(xle, day) && r.volume == b.volume as real) &&
      forall b :: b in DaySlice(xle, day) ==> b.volume as real <= r.volume
  {
    if leak.NoLeakData? then NoLeakSpread
    else if leak.ReindexRaised? then Aborted
    else
      var peak := PeakSpread(leak.result);
      var d := DaySlice(xle, day);
      if peak.None? || |d| == 0 then Aborted
      else
        var vs := Volumes(d);
        var v := Max(vs);
        assert forall b :: b in d ==> b.volume as real <= v by {
          forall b | b in d ensures b.volume as real <= v {
            var i :| 0 <= i < |d| && d[i] == b;
            assert vs[i] == b.volume as real;
          }
        }
        var i :| 0 <= i < |vs| && vs[i] == v;
        assert d[i] in d;
        LeakFound(peak.value.0, peak.value.1, v)
  }

  /** The event volume the volume test scores: the reported peak volume, or the default 0 without a spread. */
  function EventVolume(r: LeakReport): real
    requires !r.Aborted?
  {
    if r.LeakFound? then r.volume else 0.0
  }

  /**
   * The run aborts at the peak time exactly when one of the two session
   * series has no bar at the first timestamp of their union.
   */
  lemma {:induction false} PeakUndefinedIffSeriesMissesOpen(xs: seq<Bar>, os: seq<Bar>)
    requires Ascending(xs) && Ascending(os) && |xs| > 0
    ensures var r := SpreadOf(xs, os);
      |r.index| > 0 &&
      (PeakSpread(r).None? <==>
        LatestAtOrBefore(xs, r.index[0]).None? || LatestAtOrBefore(os, r.index[0]).None?)
  {
    SpreadAtOpen(xs, os);
  }

  /**
   * The difference of two simple-return series over prices on the same dates:
   * the `- 1` of each return cancels, so each entry is the difference of the
   * two growth ratios over that day.
   */
  function ReturnSpread(xc: seq<real>, oc: seq<real>): (s: seq<real>)
    requires |xc| == |oc| && Returns.Positive(xc) && Returns.Positive(oc)
    ensures |xc| == 0 ==> s == []
    ensures |xc| > 0 ==> |s| == |xc| - 1
    ensures forall i :: 0 <= i < |s| ==> s[i] == xc[i + 1] / xc[i] - oc[i + 1] / oc[i]
  {
    var rx, ro := Returns.PctChange(xc), Returns.PctChange(oc);
    seq(|rx|, i requires 0 <= i < |rx| => rx[i] - ro[i])
  }

  /** `xle_d.pct_change() - oil_d.pct_change()` on the shared daily dates, the leading NaN dropped. */
  function DailySpreads(xd: seq<Bar>, od: seq<Bar>): (s: seq<real>)
    requires Ascending(xd) && Ascending(od)
    ensures var a := Intersect2(xd, od);
      |a.0| == |a.1| && (|a.0| == 0 ==> s == []) && (|a.0| > 0 ==> |s| == |a.0| - 1)
    ensures var a := Intersect2(xd, od);
      forall i :: 0 <= i < |s| ==>
        s[i] == a.0[i + 1].close as real / a.0[i].close as real - a.1[i + 1].close as real / a.1[i].close as real
  {
    var a := Intersect2(xd, od);
    assert |a.0| == |a.1| by { assert |Stamps(a.0)| == |Stamps(a.1)|; }
    ReturnSpread(Closes(a.0), Closes(a.1))
  }

  datatype SpreadCheck =
    | StatsCheckFailed   // a baseline or daily file cannot be read, or no peak spread exists
    | SpreadZScore(mean: Option<real>, sd: Option<real>, z: Quotient)

  /**
   * The peak intraday spread scored against the daily spreads:
   * `(event - mean) / std` in numpy arithmetic, so a zero deviation gives an
   * infinite or NaN score rather than an error. The two December 5-minute
   * baseline files are read first in the same handler, so `baseline` says
   * whether both could be read.
   */
  function SpreadStatistics(baseline: bool, peak: Option<real>, daily: Option<seq<real>>, sd: Option<real>): (c: SpreadCheck)
    requires daily.Some? ==> IsSampleStd(daily.value, sd)
    ensures c == StatsCheckFailed <==> !baseline || peak.None? || daily.None?
    ensures c.SpreadZScore? ==> daily.Some? && c.mean == MeanOrNone(daily.value) && c.sd == sd
    ensures c.SpreadZScore? && c.z.Finite? ==>
      peak.Some? && c.mean.Some? && sd.Some? && c.z.value * sd.value == peak.value - c.mean.value
    ensures c.SpreadZScore? && c.mean.Some? ==> (c.z.Finite? <==> sd.Some? && sd.value != 0.0)
  {
    if !baseline || peak.None? || daily.None? then StatsCheckFailed
    else
      var mean := MeanOrNone(daily.value);
      var numerator := if mean.Some? then Some(peak.value - mean.value) else None;
      SpreadZScore(mean, sd, FloatDivide(numerator, sd))
  }

  // ---------------------------------------------------------------------
  // Thresholds

  /** The two-sided 5% critical value. */
  const CriticalZ: real := 1.96
  /** The volume z-score beyond which a spike is abnormal. */
  const VolumeSpikeZ: real := 3.0

  /** `abs(z_score) > 1.96`: an abnormal return the sector beta does not explain. */
  predicate PossibleLeak(z: Quotient)
  {
    AbsExceeds(z, CriticalZ)
  }

  lemma {:induction false} PossibleLeakIsStrict(z: Quotient)
    ensures z == Finite(CriticalZ) || z == Finite(-CriticalZ) ==> !PossibleLeak(z)
    ensures z.Finite? && (z.value > CriticalZ || z.value < -CriticalZ) ==> PossibleLeak(z)
    ensures z == NaN ==> !PossibleLeak(z)
  {
  }

  // ---------------------------------------------------------------------
  // Defence versus the shipping basket

  /**
   * The basket loop: add up the event returns of the tickers that produced
   * a result and count them.
   */
  method ShippingBasket(results: seq<Option<real>>) returns (total: real, count: nat)
    ensures count == |Present(results)|
    ensures total == Sum(Present(results))
  {
    total, count := 0.0, 0;
    for i := 0 to |results|
      invariant count == |Present(results[..i])| && total == Sum(Present(results[..i]))
    {
      PresentTally(results, i);
      if results[i].Some? {
        total := total + results[i].value;
        count := count + 1;
      }
    }
    assert results[..|results|] == results;
  }

  /**
   * The hierarchy-of-information test: the basket average exists only when
   * some shipping ticker and the defence ETF both produced a result, and the
   * pattern is confirmed when defence rose more than 2% while the basket's
   * average fell.
   */
  method HierarchyOfInformation(defence: Option<real>, shipping: seq<Option<real>>) returns (average: Option<real>, confirmed: bool)
    ensures average.Some? <==> defence.Some? && |Present(shipping)| > 0
    ensures average.Some? ==> average.value == Mean(Present(shipping))
    ensures average.Some? ==> Min(Present(shipping)) <= average.value <= Max(Present(shipping))
    ensures confirmed <==> average.Some? && defence.value > 0.02 && average.value < 0.0
  {
    var total, count := ShippingBasket(shipping);
    if count > 0 && defence.Some? {
      average := Some(total / count as real);
      MeanBetweenMinAndMax(Present(shipping));
      confirmed := defence.value > 0.02 && average.value < 0.0;
    } else {
      average, confirmed := None, false;
    }
  }

  // ---------------------------------------------------------------------
  // The market-on-close volume test

  /** The volumes of the baseline's 15:55 bars (`between_time('15:55', '15:55')`). */
  function MocVolumes(baseline: seq<Bar>): seq<real>
  {
    Volumes(Where(baseline, AtMarketOnClose))
  }

  /** The 15:55 volumes are exactly the volumes of the baseline's 15:55 bars, one per bar. */
  lemma {:induction false} MocVolumesAreMarketOnClose(baseline: seq<Bar>)
    ensures |MocVolumes(baseline)| <= |baseline|
    ensures forall v :: v in MocVolumes(baseline) <==>
      exists b :: b in baseline && AtMarketOnClose(b.stamp) && v == b.volume as real
  {
    var moc := Where(baseline, AtMarketOnClose);
    var vs := Volumes(moc);
    forall v | v in vs ensures exists b :: b in moc && v == b.volume as real {
      var i :| 0 <= i < |vs| && vs[i] == v;
      assert moc[i] in moc;
    }
    forall v | exists b :: b in moc && v == b.volume as real ensures v in vs {
      var b :| b in moc && v == b.volume as real;
      var i :| 0 <= i < |moc| && moc[i] == b;
      assert vs[i] == v;
    }
  }

  /** What reading the baseline file gives: no such file, a file `read_parquet` cannot read, or its rows. */
  datatype BaselineRead = Absent | Unreadable | Rows(bars: seq<Bar>)

  datatype VolumeVerdict =
    | BaselineFileMissing             // only a file that does not exist
    | NoMarketOnCloseBars
    | VolumeTestFailed                // the handler: an unreadable file, or float division by a zero deviation
    | AbnormalVolume(spike: real)
    | ConsistentVolume(score: Option<real>) // None: a single bar leaves the deviation NaN

  /**
   * The event-day volume scored against the 15:55 volumes of a baseline that
   * could be read, in Python float arithmetic: abnormal when the z-score
   * exceeds 3.
   */
  function ScoreVolume(bars: seq<Bar>, eventVolume: real, sd: Option<real>): (v: VolumeVerdict)
    requires IsSampleStd(MocVolumes(bars), sd)
    ensures v != BaselineFileMissing
    ensures v == NoMarketOnCloseBars <==> |MocVolumes(bars)| == 0
    ensures v == VolumeTestFailed <==> |MocVolumes(bars)| > 0 && sd == Some(0.0)
    ensures v.AbnormalVolume? ==> sd.Some? && |MocVolumes(bars)| > 0 && v.spike > VolumeSpikeZ && v.spike * sd.value == eventVolume - Mean(MocVolumes(bars))
    ensures v.ConsistentVolume? && v.score.Some? ==> sd.Some? && |MocVolumes(bars)| > 0 && v.score.value <= VolumeSpikeZ && v.score.value * sd.value == eventVolume - Mean(MocVolumes(bars))
    ensures v.ConsistentVolume? ==> (v.score.None? <==> |MocVolumes(bars)| == 1)
  {
    var moc := MocVolumes(bars);
    if |moc| == 0 then NoMarketOnCloseBars
    else if sd.None? then ConsistentVolume(None)
    else
      var z := Standardize(eventVolume, Mean(moc), sd);
      if z.None? then VolumeTestFailed
      else if z.value > VolumeSpikeZ then AbnormalVolume(z.value) else ConsistentVolume(Some(z.value))
  }

  /**
   * The volume test: only a baseline file that does not exist is reported
   * missing; one that cannot be read raises inside the handler, which logs
   * the failure; a readable one is scored.
   */
  function VolumeTest(baseline: BaselineRead, eventVolume: real, sd: Option<real>): (v: VolumeVerdict)
    requires baseline.Rows? ==> IsSampleStd(MocVolumes(baseline.bars), sd)
    ensures v == BaselineFileMissing <==> baseline.Absent?
    ensures v == NoMarketOnCloseBars <==> baseline.Rows? && |MocVolumes(baseline.bars)| == 0
    ensures v == VolumeTestFailed <==>
      baseline.Unreadable? || (baseline.Rows? && |MocVolumes(baseline.bars)| > 0 && sd == Some(0.0))
    ensures v.AbnormalVolume? ==> baseline.Rows? && sd.Some? && |MocVolumes(baseline.bars)| > 0 && v.spike > VolumeSpikeZ && v.spike * sd.value == eventVolume - Mean(MocVolumes(baseline.bars))
    ensures v.ConsistentVolume? && v.score.Some? ==> baseline.Rows? && sd.Some? && |MocVolumes(baseline.bars)| > 0 && v.score.value <= VolumeSpikeZ && v.score.value * sd.value == eventVolume - Mean(MocVolumes(baseline.bars))
    ensures v.ConsistentVolume? ==> baseline.Rows? && (v.score.None? <==> |MocVolumes(baseline.bars)| == 1)
  {
    if baseline.Absent? then BaselineFileMissing
    else if baseline.Unreadable? then VolumeTestFailed
    else ScoreVolume(baseline.bars, eventVolume, sd)
  }

  /** The test fails exactly when there are at least two 15:55 bars and all have the same volume. */
  lemma {:induction false} VolumeTestFailsIffConstant(baseline: seq<Bar>, eventVolume: real, sd: Option<real>)
    requires IsSampleStd(MocVolumes(baseline), sd)
    ensures VolumeTest(Rows(baseline), eventVolume, sd) == VolumeTestFailed <==>
      |MocVolumes(baseline)| >= 2 && Constant(MocVolumes(baseline))
  {
    var moc := MocVolumes(baseline);
    if |moc| >= 2 {
      SampleVarianceZeroIffConstant(moc);
      SquarePositive(sd.value);
    }
  }
}
