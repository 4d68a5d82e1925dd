/**
 * The computations behind the charts: choosing the cache file that covers
 * the chart date, and the T-window to T+window daily window around a past
 * event, centred on the event row and normalised to the close before it.
 */
module Plots {
  import opened Wrappers
  import opened Calendar
  import opened Bars
  import opened CacheFiles
  import HistoricalControl
  import Returns

  // ---------------------------------------------------------------------
  // Choosing the cache file

  /** The date every chart loader call uses. */
  const ChartDate: string := "2026-01-02"

  /** How `load_ticker_data` ends: the two `FileNotFoundError`s, a target that does not read as a date, or a file. */
  datatype PlotSelection =
    | NoDataFound       // no cache file of the ticker at all
    | UnreadableTarget  // `pd.Timestamp(target)` raises
    | NoCoveringFile    // no file's range covers the target; there is no fallback
    | Selected(file: string)

  /**
   * `load_ticker_data` up to reading the file: the five-minute files of the
   * ticker (any of its files when there are none), then the first whose
   * inclusive date range covers the target.
   */
  method LoadTickerData(listing: seq<string>, ticker: string, target: string) returns (s: PlotSelection)
    ensures s == NoDataFound <==> |CandidateFiles(listing, ticker)| == 0
    ensures s == UnreadableTarget <==> |CandidateFiles(listing, ticker)| > 0 && ParseIso(target).None?
    ensures s == NoCoveringFile <==>
      |CandidateFiles(listing, ticker)| > 0 && ParseIso(target).Some? &&
      FirstCoveringFile(CandidateFiles(listing, ticker), ParseIso(target).value).None?
    ensures s.Selected? ==> (ParseIso(target).Some? &&
      s.file == FirstCoveringFile(CandidateFiles(listing, ticker), ParseIso(target).value).value &&
      s.file in CandidateFiles(listing, ticker) && Covers(s.file, ParseIso(target).value))
  {
    var files := CandidateFiles(listing, ticker);
    if |files| == 0 {
      return NoDataFound;
    }
    var targetDate := ParseIso(target);
    if targetDate.None? {
      return UnreadableTarget;
    }
    var chosen := ScanForCovering(files, targetDate.value);
    if chosen.None? {
      return NoCoveringFile;
    }
    s := Selected(chosen.value);
  }

  // ---------------------------------------------------------------------
  // The window around an event

  /** The rows `iloc[start:end]` of the window and the event row's position. */
  datatype Bounds = Bounds(start: nat, event: nat, end: nat)

  function Max0(a: int): nat
  {
    if a < 0 then 0 else a
  }

  /**
   * The slice `max(0, idx - w)` to `min(n, idx + w + 1)`: it starts w rows
   * before the event row, or at the first row when there are fewer, and
   * ends w rows after it, or at the last row; so it holds the event row,
   * at most w rows from its start.
   */
  function WindowBounds(n: nat, idx: nat, w: nat): (b: Bounds)
    requires idx < n
    ensures b.event == idx
    ensures 0 <= b.start <= idx < b.end <= n
    ensures b.start >= idx - w && (b.start == 0 || b.start == idx - w)
    ensures b.end <= idx + w + 1 && (b.end == n || b.end == idx + w + 1)
    ensures 1 <= b.end - b.start <= 2 * w + 1
    ensures 0 <= idx - b.start <= w
  {
    var end := if n < idx + w + 1 then n else idx + w + 1;
    Bounds(Max0(idx - w), idx, end)
  }

  /** The position of the base row: the row before the event row when the window has one, else the first row. */
  function BaseRow(zeroPos: nat): nat
  {
    if zeroPos > 0 then zeroPos - 1 else 0
  }

  /** v is the change from base to c, in percent of base. */
  predicate IsPercentChange(v: real, base: real, c: real)
  {
    v * base == (c - base) * 100.0
  }

  lemma {:induction false} PercentOf(c: real, base: real)
    requires base > 0.0
    ensures IsPercentChange((c / base - 1.0) * 100.0, base, c)
  {
    Returns.DivideThenMultiply(c, base);
  }

  /** A percentage change is zero, positive or negative as the value equals, exceeds or falls below the base. */
  lemma {:induction false} PercentChangeSign(v: real, base: real, c: real)
    requires base > 0.0 && IsPercentChange(v, base, c)
    ensures v == 0.0 <==> c == base
    ensures v > 0.0 <==> c > base
  {
  }

  /** The percentage change from a base to a value is one number. */
  lemma {:induction false} PercentChangeUnique(u: real, v: real, base: real, c: real)
    requires base > 0.0 && IsPercentChange(u, base, c) && IsPercentChange(v, base, c)
    ensures u == v
  {
  }

  lemma {:induction false} PercentChangeMonotone(u: real, v: real, base: real, c: real, d: real)
    requires base > 0.0 && IsPercentChange(u, base, c) && IsPercentChange(v, base, d) && c <= d
    ensures u <= v
  {
  }

  /** `(close / base - 1) * 100` for each row: each close's change from the base, in percent. */
  function Normalised(closes: seq<real>, base: real): (norm: seq<real>)
    requires base > 0.0
    ensures |norm| == |closes|
    ensures forall i :: 0 <= i < |closes| ==> IsPercentChange(norm[i], base, closes[i])
  {
    var norm := seq(|closes|, i requires 0 <= i < |closes| => (closes[i] / base - 1.0) * 100.0);
    assert forall i :: 0 <= i < |closes| ==> IsPercentChange(norm[i], base, closes[i]) by {
      forall i | 0 <= i < |closes| ensures IsPercentChange(norm[i], base, closes[i]) {
        PercentOf(closes[i], base);
      }
    }
    norm
  }

  /** A row's normalised value is zero, positive or negative as its close equals, exceeds or falls below the base. */
  lemma {:induction false} NormalisedSign(closes: seq<real>, base: real, i: nat)
    requires base > 0.0 && i < |closes|
    ensures Normalised(closes, base)[i] == 0.0 <==> closes[i] == base
    ensures Normalised(closes, base)[i] > 0.0 <==> closes[i] > base
  {
    PercentChangeSign(Normalised(closes, base)[i], base, closes[i]);
  }

  /** Normalisation keeps the order of the closes. */
  lemma {:induction false} NormalisedMonotone(closes: seq<real>, base: real, i: nat, j: nat)
    requires base > 0.0 && i < |closes| && j < |closes| && closes[i] <= closes[j]
    ensures Normalised(closes, base)[i] <= Normalised(closes, base)[j]
  {
    PercentChangeMonotone(Normalised(closes, base)[i], Normalised(closes, base)[j], base, closes[i], closes[j]);
  }

  /** `range(len) - zero_pos`: the trading-day offset of each row from the event row. */
  function Centred(n: nat, zeroPos: nat): (day: seq<int>)
    ensures |day| == n
    ensures zeroPos < n ==> day[zeroPos] == 0
    ensures forall i :: 0 <= i < n - 1 ==> day[i + 1] == day[i] + 1
    ensures n > 0 ==> day[0] == -(zeroPos as int)
    ensures forall i :: 0 <= i < n ==> day[i] == i - zeroPos
  {
    seq(n, i requires 0 <= i < n => i - zeroPos)
  }

  /** The window as a value: its rows, the `Norm` column, the `Day` column, and where T=0 sits. */
  datatype Window = Window(rows: seq<Bar>, norm: seq<real>, day: seq<int>, zeroPos: nat)

  /**
   * `get_historical_data` after the download (None when it raised): no
   * window when the data is empty or ends before the event date; otherwise
   * the rows around the event row with their `Norm` and `Day` columns.
   */
  function HistoricalWindow(download: Option<seq<Bar>>, target: Date, w: nat): (r: Option<Window>)
    ensures r.None? <==> download.None? || |download.value| == 0 || EventRow(download.value, target) >= |download.value|
    ensures r.Some? ==> 1 <= |r.value.rows| <= 2 * w + 1 && r.value.zeroPos <= w && r.value.zeroPos < |r.value.rows|
    ensures r.Some? ==> |r.value.norm| == |r.value.rows| && |r.value.day| == |r.value.rows|
    ensures r.Some? ==> r.value.day[r.value.zeroPos] == 0
    ensures r.Some? ==> r.value.norm[BaseRow(r.value.zeroPos)] == 0.0
  {
    if download.None? || |download.value| == 0 then None
    else
      var df := download.value;
      var idx := EventRow(df, target);
      if idx >= |df| then None
      else
        var b := WindowBounds(|df|, idx, w);
        var rows := df[b.start..b.end];
        var zeroPos := idx - b.start;
        var base := Closes(rows)[BaseRow(zeroPos)];
        NormalisedSign(Closes(rows), base, BaseRow(zeroPos));
        Some(Window(rows, Normalised(Closes(rows), base), Centred(|rows|, zeroPos), zeroPos))
  }

  /**
   * On ascending data the window's event row is the first trading day on or
   * after the event date, and when the window has a row before it, that row
   * is the last trading day before the event date and is the base.
   */
  lemma {:induction false} WindowCentresOnEvent(download: Option<seq<Bar>>, target: Date, w: nat)
    requires download.Some? && Ascending(download.value) && HistoricalWindow(download, target, w).Some?
    ensures var win := HistoricalWindow(download, target, w).value;
      DateLe(target, win.rows[win.zeroPos].stamp.date) &&
      (forall i :: 0 <= i < win.zeroPos ==> DateLt(win.rows[i].stamp.date, target)) &&
      (forall i :: win.zeroPos <= i < |win.rows| ==> DateLe(target, win.rows[i].stamp.date))
  {
    var df := download.value;
    var idx := EventRow(df, target);
    var win := HistoricalWindow(download, target, w).value;
    var start := WindowBounds(|df|, idx, w).start;
    WindowUnfolds(download, target, w);
    forall i | 0 <= i < win.zeroPos ensures DateLt(win.rows[i].stamp.date, target) {
      assert win.rows[i] == df[start + i];
    }
    forall i | win.zeroPos <= i < |win.rows| ensures DateLe(target, win.rows[i].stamp.date) {
      assert win.rows[i] == df[start + i];
    }
  }


  /**
   * The chart and the study agree: when the window has a row before the
   * event row, the event row's `Norm` is the study's one-day return in percent.
   */
  lemma {:induction false} EventPointIsStudyReturn(download: Option<seq<Bar>>, target: Date, w: nat)
    requires HistoricalWindow(download, target, w).Some? && HistoricalWindow(download, target, w).value.zeroPos > 0
    ensures HistoricalControl.GetReturn(download, target).Some?
    ensures HistoricalWindow(download, target, w).value.norm[HistoricalWindow(download, target, w).value.zeroPos] ==
      HistoricalControl.GetReturn(download, target).value * 100.0
  {
    var df := download.value;
    var idx := EventRow(df, target);
    NormAtEvent(download, target, w);
    var win := HistoricalWindow(download, target, w).value;
    var r := HistoricalControl.GetReturn(download, target).value;
    ReturnAsPercentChange(r, df[idx - 1].close, df[idx].close);
    PercentChangeUnique(win.norm[win.zeroPos], r * 100.0, df[idx - 1].close, df[idx].close);
  }

  /** The event row's `Norm` is its close's change from the close of the row before it. */
  lemma {:induction false} NormAtEvent(download: Option<seq<Bar>>, target: Date, w: nat)
    requires HistoricalWindow(download, target, w).Some? && HistoricalWindow(download, target, w).value.zeroPos > 0
    ensures var df, idx := download.value, EventRow(download.value, target);
      0 < idx < |df| &&
      IsPercentChange(HistoricalWindow(download, target, w).value.norm[HistoricalWindow(download, target, w).value.zeroPos],
        df[idx - 1].close as real, df[idx].close as real)
  {
    var df := download.value;
    var idx := EventRow(df, target);
    var win := HistoricalWindow(download, target, w).value;
    WindowUnfolds(download, target, w);
    var zp := win.zeroPos;
    var closes := Closes(win.rows);
    assert closes[zp] == df[idx].close as real;
    assert closes[zp - 1] == df[idx - 1].close as real;
    assert IsPercentChange(win.norm[zp], closes[zp - 1], closes[zp]);
  }

  lemma {:induction false} ReturnAsPercentChange(r: real, prev: real, close: real)
    requires prev > 0.0 && HistoricalControl.IsReturn(r, prev, close)
    ensures IsPercentChange(r * 100.0, prev, close)
  {
  }

  /** The window's pieces, named: what the slice, the event position and the two columns are. */
  lemma {:induction false} WindowUnfolds(download: Option<seq<Bar>>, target: Date, w: nat)
    requires HistoricalWindow(download, target, w).Some?
    ensures var df, win := download.value, HistoricalWindow(download, target, w).value;
      var idx := EventRow(df, target);
      var b := WindowBounds(|df|, idx, w);
      idx < |df| && win.zeroPos == idx - b.start && win.rows == df[b.start..b.end] &&
      win.rows[win.zeroPos] == df[idx] && (win.zeroPos > 0 ==> win.rows[win.zeroPos - 1] == df[idx - 1]) &&
      win.norm == Normalised(Closes(win.rows), Closes(win.rows)[BaseRow(win.zeroPos)]) &&
      win.day == Centred(|win.rows|, win.zeroPos)
  {
  }

  lemma {:induction false} CentredShift(n: nat, zeroPos: nat, day: seq<int>)
    requires |day| == n && forall i :: 0 <= i < n ==> day[i] == Centred(n, 0)[i] - zeroPos
    ensures day == Centred(n, zeroPos)
  {
  }

  // ---------------------------------------------------------------------
  // The window as the frame the source mutates

  /** The copied slice, to which the `Norm` and `Day` columns are added in place. */
  class WindowFrame {
    var rows: seq<Bar>
    var norm: seq<real>
    var day: seq<int>

    /** `df.iloc[start:end].copy()`: the rows alone, no added column yet. */
    constructor (rows: seq<Bar>)
      ensures this.rows == rows && norm == [] && day == []
    {
      this.rows := rows;
      norm := [];
      day := [];
    }

    /** `sliced['Norm'] = (sliced['Close'] / base - 1) * 100`. */
    method AddNorm(base: real)
      requires base > 0.0
      modifies this
      ensures rows == old(rows) && day == old(day)
      ensures norm == Normalised(Closes(rows), base)
    {
      norm := Normalised(Closes(rows), base);
    }

    /** `sliced['Day'] = range(len(sliced))`. */
    method NumberRows()
      modifies this
      ensures rows == old(rows) && norm == old(norm)
      ensures day == Centred(|rows|, 0)
    {
      day := Centred(|rows|, 0);
    }

    /** `sliced['Day'] = sliced['Day'] - zero_pos`. */
    method ShiftDays(zeroPos: nat)
      modifies this
      ensures rows == old(rows) && norm == old(norm)
      ensures |day| == |old(day)| && forall i :: 0 <= i < |day| ==> day[i] == old(day)[i] - zeroPos
    {
      var numbered := day;
      day := seq(|numbered|, i requires 0 <= i < |numbered| => numbered[i] - zeroPos);
    }
  }

  /**
   * `get_historical_data`: the window as a fresh frame whose rows and added
   * columns are those of the window value.
   */
  method GetHistoricalData(download: Option<seq<Bar>>, target: Date, w: nat) returns (r: Option<WindowFrame>)
    ensures r.None? <==> HistoricalWindow(download, target, w).None?
    ensures r.Some? ==> fresh(r.value)
    ensures r.Some? ==> (r.value.rows == HistoricalWindow(download, target, w).value.rows &&
      r.value.norm == HistoricalWindow(download, target, w).value.norm &&
      r.value.day == HistoricalWindow(download, target, w).value.day)
  {
    if download.None? || |download.value| == 0 {
      return None;
    }
    var df := download.value;
    var idx := EventRow(df, target);
    if idx >= |df| {
      return None;
    }
    var startIdx := Max0(idx - w);
    var endIdx := if |df| < idx + w + 1 then |df| else idx + w + 1;
    ghost var win := HistoricalWindow(download, target, w).value;
    WindowUnfolds(download, target, w);
    assert WindowBounds(|df|, idx, w) == Bounds(startIdx, idx, endIdx);
    var sliced := new WindowFrame(df[startIdx..endIdx]);
    var zeroPos := idx - startIdx;
    assert sliced.rows == win.rows && zeroPos == win.zeroPos;
    var base: real;
    if zeroPos > 0 {
      base := sliced.rows[zeroPos - 1].close as real;
    } else {
      base := sliced.rows[0].close as real;
    }
    assert base == Closes(win.rows)[BaseRow(win.zeroPos)];
    sliced.AddNorm(base);
    sliced.NumberRows();
    sliced.ShiftDays(zeroPos);
    CentredShift(|sliced.rows|, zeroPos, sliced.day);
    r := Some(sliced);
  }
}
