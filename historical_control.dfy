/**
 * The historical control study: for each past geopolitical event, the
 * one-day return of the defense ETF and the average one-day return of a
 * shipping basket around the event date, and the signal those two returns
 * give.
 */
module HistoricalControl {
  import opened Wrappers
  import opened Calendar
  import opened Bars
  import opened Stats

  // ---------------------------------------------------------------------
  // The event table

  /** One entry of `EVENTS`: a name, an ISO date and a description. */
  datatype Event = Event(name: string, date: string, desc: string)

  /** `EVENTS`, in the dictionary's insertion order. */
  const Events: seq<Event> := [
    Event("Libya (2011)", "2011-03-19", "War Risk / Supply Disruption"),
    Event("Syria Strike (2017)", "2017-04-07", "Surgical Strike"),
    Event("Oman (2019)", "2019-06-13", "Tanker attacks"),
    Event("Abqaiq (2019)", "2019-09-16", "Supply Destruction"),
    Event("Soleimani (2020)", "2020-01-03", "Escalation Risk"),
    Event("Suez Blockage (2021)", "2021-03-24", "Shipping Logistics Shock (Control)"),
    Event("Ukraine (2022)", "2022-02-24", "Invasion / War Risk"),
    Event("Israel-Hamas (2023)", "2023-10-09", "Regional War Risk"),
    Event("Caracas (2026)", "2026-01-02", "Operation Stabilize")
  ]

  const DefenseTicker: string := "ITA"
  const ShippingBasket: seq<string> := ["FRO", "NAT", "STNG"]

  function Digit(c: char): int
  {
    c as int - '0' as int
  }

  lemma {:induction false} FourDigits(s: string)
    requires |s| == 4 && AllDigits(s)
    ensures DigitsValue(s) == ((Digit(s[0]) * 10 + Digit(s[1])) * 10 + Digit(s[2])) * 10 + Digit(s[3])
  {
    assert s[..3][..2] == s[..2] && s[..2][..1] == s[..1] && s[..1][..0] == [];
    assert DigitsValue(s[..1]) == Digit(s[0]);
    assert DigitsValue(s[..2]) == DigitsValue(s[..1]) * 10 + Digit(s[1]);
    assert DigitsValue(s[..3]) == DigitsValue(s[..2]) * 10 + Digit(s[2]);
  }

  lemma {:induction false} TwoDigits(s: string)
    requires |s| == 2 && AllDigits(s)
    ensures DigitsValue(s) == Digit(s[0]) * 10 + Digit(s[1])
  {
    assert s[..1][..0] == [];
    assert DigitsValue(s[..1]) == Digit(s[0]);
  }

  /** Ten characters `YYYY-MM-DD` spelling a valid date in range parse to that date. */
  lemma {:induction false} ParsesTo(s: string, d: Date)
    requires |s| == 10 && s[4] == '-' && s[7] == '-' && AllDigits(s[..4]) && AllDigits(s[5..7]) && AllDigits(s[8..])
    requires d.year == ((Digit(s[0]) * 10 + Digit(s[1])) * 10 + Digit(s[2])) * 10 + Digit(s[3])
    requires d.month == Digit(s[5]) * 10 + Digit(s[6]) && d.day == Digit(s[8]) * 10 + Digit(s[9])
    requires ValidDate(d) && InTimestampRange(d)
    ensures ParseIso(s) == Some(d)
  {
    FourDigits(s[..4]);
    TwoDigits(s[5..7]);
    TwoDigits(s[8..]);
  }

  /** Every event date in the list reads as a date. */
  predicate AllDatesParse(events: seq<Event>)
  {
    forall i :: 0 <= i < |events| ==> ParseIso(events[i].date).Some?
  }

  // One lemma per table entry keeps each concrete parse small.

  lemma {:induction false} EventDate0Parses()
    ensures ParseIso(Events[0].date) == Some(Date(2011, 3, 19))
  {
    ParsesTo("2011-03-19", Date(2011, 3, 19));
  }

  lemma {:induction false} EventDate1Parses()
    ensures ParseIso(Events[1].date) == Some(Date(2017, 4, 7))
  {
    ParsesTo("2017-04-07", Date(2017, 4, 7));
  }

  lemma {:induction false} EventDate2Parses()
    ensures ParseIso(Events[2].date) == Some(Date(2019, 6, 13))
  {
    ParsesTo("2019-06-13", Date(2019, 6, 13));
  }

  lemma {:induction false} EventDate3Parses()
    ensures ParseIso(Events[3].date) == Some(Date(2019, 9, 16))
  {
    ParsesTo("2019-09-16", Date(2019, 9, 16));
  }

  lemma {:induction false} EventDate4Parses()
    ensures ParseIso(Events[4].date) == Some(Date(2020, 1, 3))
  {
    ParsesTo("2020-01-03", Date(2020, 1, 3));
  }

  lemma {:induction false} EventDate5Parses()
    ensures ParseIso(Events[5].date) == Some(Date(2021, 3, 24))
  {
    ParsesTo("2021-03-24", Date(2021, 3, 24));
  }

  lemma {:induction false} EventDate6Parses()
    ensures ParseIso(Events[6].date) == Some(Date(2022, 2, 24))
  {
    ParsesTo("2022-02-24", Date(2022, 2, 24));
  }

  lemma {:induction false} EventDate7Parses()
    ensures ParseIso(Events[7].date) == Some(Date(2023, 10, 9))
  {
    ParsesTo("2023-10-09", Date(2023, 10, 9));
  }

  lemma {:induction false} EventDate8Parses()
    ensures ParseIso(Events[8].date) == Some(Date(2026, 1, 2))
  {
    ParsesTo("2026-01-02", Date(2026, 1, 2));
  }

  /** The dates of the table, as `pd.Timestamp` reads them: none of them raises. */
  lemma {:induction false} EventDatesParse()
    ensures AllDatesParse(Events)
  {
    forall i | 0 <= i < |Events| ensures ParseIso(Events[i].date).Some? {
      if i == 0 { EventDate0Parses(); }
      else if i == 1 { EventDate1Parses(); }
      else if i == 2 { EventDate2Parses(); }
      else if i == 3 { EventDate3Parses(); }
      else if i == 4 { EventDate4Parses(); }
      else if i == 5 { EventDate5Parses(); }
      else if i == 6 { EventDate6Parses(); }
      else if i == 7 { EventDate7Parses(); }
      else { EventDate8Parses(); }
    }
  }

  // ---------------------------------------------------------------------
  // Sorting the events by their date text

  predicate SortedByDate(es: seq<Event>)
  {
    forall i, j :: 0 <= i < j < |es| ==> LexLe(es[i].date, es[j].date)
  }

  /** Place e after every event whose date text is not greater than its own. */
  function InsertByDate(e: Event, sorted: seq<Event>): (r: seq<Event>)
    requires SortedByDate(sorted)
    ensures SortedByDate(r)
    ensures multiset(r) == multiset(sorted) + multiset{e}
  {
    if |sorted| == 0 then [e]
    else if LexLt(e.date, sorted[0].date) then
      PrependSmaller(e, sorted);
      [e] + sorted
    else
      var rest := InsertByDate(e, sorted[1..]);
      LexLtTotal(e.date, sorted[0].date);
      assert sorted == [sorted[0]] + sorted[1..];
      HeadStaysFirst(sorted[0], e, sorted[1..], rest);
      [sorted[0]] + rest
  }

  /** An event dated before the first of a sorted list can go in front of it. */
  lemma {:induction false} PrependSmaller(e: Event, sorted: seq<Event>)
    requires SortedByDate(sorted) && |sorted| > 0 && LexLt(e.date, sorted[0].date)
    ensures SortedByDate([e] + sorted)
  {
    forall j | 0 <= j < |sorted| ensures LexLe(e.date, sorted[j].date) {
      if j > 0 && sorted[0].date != sorted[j].date {
        LexLtTransitive(e.date, sorted[0].date, sorted[j].date);
      }
    }
    var r := [e] + sorted;
    forall i, j | 0 <= i < j < |r| ensures LexLe(r[i].date, r[j].date) {
      assert r[j] == sorted[j - 1];
      if i > 0 {
        assert r[i] == sorted[i - 1];
      }
    }
  }

  /** A head not after any of the sorted rest, nor after the inserted event, stays in front. */
  lemma {:induction false} HeadStaysFirst(h: Event, e: Event, tail: seq<Event>, rest: seq<Event>)
    requires SortedByDate([h] + tail) && SortedByDate(rest) && LexLe(h.date, e.date)
    requires multiset(rest) == multiset(tail) + multiset{e}
    ensures SortedByDate([h] + rest)
  {
    assert ([h] + tail)[0] == h;
    forall x | x in rest ensures LexLe(h.date, x.date) {
      assert x in multiset(rest);
      if x != e {
        assert x in multiset(tail);
        var j :| 0 <= j < |tail| && tail[j] == x;
        assert ([h] + tail)[j + 1] == x;
      }
    }
    var r := [h] + rest;
    forall i, j | 0 <= i < j < |r| ensures LexLe(r[i].date, r[j].date) {
      assert r[j] == rest[j - 1] && r[j] in rest;
      if i > 0 {
        assert r[i] == rest[i - 1];
      }
    }
  }

  /** `sorted(EVENTS.items(), key=date)`: the events ordered by their date text, each kept once. */
  function SortByDate(es: seq<Event>): (r: seq<Event>)
    ensures SortedByDate(r)
    ensures multiset(r) == multiset(es)
  {
    if |es| == 0 then []
    else
      var n := |es| - 1;
      assert es == es[..n] + [es[n]];
      InsertByDate(es[n], SortByDate(es[..n]))
  }

  /** Events whose dates all parse and that are sorted by date text are sorted by date. */
  lemma {:induction false} SortedByDateIsChronological(es: seq<Event>)
    requires SortedByDate(es) && AllDatesParse(es)
    ensures forall i, j :: 0 <= i < j < |es| ==> DateLe(ParseIso(es[i].date).value, ParseIso(es[j].date).value)
  {
    forall i, j | 0 <= i < j < |es| ensures DateLe(ParseIso(es[i].date).value, ParseIso(es[j].date).value) {
      var a, b := ParseIso(es[i].date).value, ParseIso(es[j].date).value;
      FormatParseIso(es[i].date);
      FormatParseIso(es[j].date);
      IsoOrderIsChronological(a, b);
    }
  }

  // ---------------------------------------------------------------------
  // One ticker's return around one event

  /** r is the return from prev to close: close is prev grown by the factor 1 + r. */
  predicate IsReturn(r: real, prev: real, close: real)
  {
    (1.0 + r) * prev == close
  }

  /**
   * `get_return` after the download (None when the download raised): no
   * return when the data is empty, when no row lies on or after the target,
   * or when the event row is the first row; otherwise the event row's close
   * over the close of the row just before it, minus one.
   */
  function GetReturn(download: Option<seq<Bar>>, target: Date): (r: Option<real>)
    ensures r.None? <==>
      download.None? || |download.value| == 0 || EventRow(download.value, target) >= |download.value| ||
      EventRow(download.value, target) == 0
    ensures r.Some? ==> 0 < EventRow(download.value, target) < |download.value|
    ensures r.Some? ==> IsReturn(r.value, download.value[EventRow(download.value, target) - 1].close,
      download.value[EventRow(download.value, target)].close)
  {
    if download.None? then None
    else
      var df := download.value;
      if |df| == 0 then None
      else
        var k := EventRow(df, target);
        if k >= |df| then None
        else if k == 0 then None
        else
          var event, prev := df[k].close, df[k - 1].close;
          assert (1.0 + (event / prev - 1.0)) * prev == event;
          Some(event / prev - 1.0)
  }

  /** The row before the event row is the last trading day before the target date. */
  lemma {:induction false} ReturnIsOverPreviousTradingDay(download: Option<seq<Bar>>, target: Date)
    requires download.Some? && Ascending(download.value) && GetReturn(download, target).Some?
    ensures var df, k := download.value, EventRow(download.value, target);
      DateLt(df[k - 1].stamp.date, target) && DateLe(target, df[k].stamp.date) &&
      forall i :: 0 <= i < |df| && DateLt(df[i].stamp.date, target) ==> i <= k - 1
  {
  }

  // ---------------------------------------------------------------------
  // The signal

  datatype Signal = WarRisk | Stabilization | Deescalation | PureShippingShock | MixedNoise

  /**
   * The first-match classification of the two percentage returns. Exactly
   * one signal results; the first three cannot overlap, and the shipping
   * shock needs a defense move inside (-0.5, 0.5).
   */
  function Classify(itaPct: real, shipPct: real): (s: Signal)
    ensures s == WarRisk <==> itaPct > 0.5 && shipPct > 0.5
    ensures s == Stabilization <==> itaPct > 0.5 && shipPct < -0.5
    ensures s == Deescalation <==> itaPct < -0.5 && shipPct > 0.5
    ensures s == PureShippingShock <==> Abs(itaPct) < 0.5 && Abs(shipPct) > 1.0
    ensures s == MixedNoise <==>
      !(itaPct > 0.5 && shipPct > 0.5) && !(itaPct > 0.5 && shipPct < -0.5) &&
      !(itaPct < -0.5 && shipPct > 0.5) && !(Abs(itaPct) < 0.5 && Abs(shipPct) > 1.0)
  {
    if itaPct > 0.5 && shipPct > 0.5 then WarRisk
    else if itaPct > 0.5 && shipPct < -0.5 then Stabilization
    else if itaPct < -0.5 && shipPct > 0.5 then Deescalation
    else if Abs(itaPct) < 0.5 && Abs(shipPct) > 1.0 then PureShippingShock
    else MixedNoise
  }

  /** The comparisons are strict: a move of exactly 0.5% either way never gives a directional signal. */
  lemma {:induction false} BoundaryMovesAreNotDirectional(itaPct: real, shipPct: real)
    requires Abs(itaPct) == 0.5 || Abs(shipPct) == 0.5
    ensures Classify(itaPct, shipPct) !in {WarRisk, Stabilization, Deescalation}
  {
  }

  // ---------------------------------------------------------------------
  // One event's row

  /** The basket's returns as fetched, one per ticker, in basket order. */
  function BasketFetches(download: (string, Date) -> Option<seq<Bar>>, tickers: seq<string>, target: Date): (rs: seq<Option<real>>)
    ensures |rs| == |tickers|
    ensures forall i :: 0 <= i < |tickers| ==> rs[i] == GetReturn(download(tickers[i], target), target)
  {
    seq(|tickers|, i requires 0 <= i < |tickers| => GetReturn(download(tickers[i], target), target))
  }

  /** The loop that appends each basket ticker's return when there is one. */
  method BasketReturns(download: (string, Date) -> Option<seq<Bar>>, target: Date) returns (rets: seq<real>)
    ensures rets == Present(BasketFetches(download, ShippingBasket, target))
  {
    ghost var fetched := BasketFetches(download, ShippingBasket, target);
    rets := [];
    for i := 0 to |ShippingBasket|
      invariant rets == Present(fetched[..i])
    {
      PresentStep(fetched, i);
      var r := GetReturn(download(ShippingBasket[i], target), target);
      if r.Some? {
        rets := rets + [r.value];
      }
    }
    assert fetched[..|ShippingBasket|] == fetched;
  }

  /** What the table shows for an event. */
  datatype Outcome = DataMissing | Classified(itaPct: real, shipPct: real, signal: Signal)

  /**
   * An event is classified only when the defense return and at least one
   * basket return exist; the basket percentage is then the mean of the
   * available returns, between the smallest and the largest of them.
   */
  function Assess(ita: Option<real>, basket: seq<real>): (o: Outcome)
    ensures o.DataMissing? <==> ita.None? || |basket| == 0
    ensures o.Classified? ==> ita.Some? && |basket| > 0 && o.itaPct == ita.value * 100.0
    ensures o.Classified? ==> |basket| > 0 && o.shipPct == Mean(basket) * 100.0
    ensures o.Classified? ==> |basket| > 0 && Min(basket) * 100.0 <= o.shipPct <= Max(basket) * 100.0
    ensures o.Classified? ==> o.signal == Classify(o.itaPct, o.shipPct)
  {
    if ita.Some? && |basket| > 0 then
      var avg := Mean(basket);
      MeanBetweenMinAndMax(basket);
      var itaPct, shipPct := ita.value * 100.0, avg * 100.0;
      Classified(itaPct, shipPct, Classify(itaPct, shipPct))
    else DataMissing
  }

  datatype StudyRow = StudyRow(name: string, date: string, outcome: Outcome)

  /** The row one event gives. */
  function RowFor(e: Event, download: (string, Date) -> Option<seq<Bar>>): (row: StudyRow)
    requires ParseIso(e.date).Some?
    ensures row.name == e.name && row.date == e.date
  {
    var target := ParseIso(e.date).value;
    StudyRow(e.name, e.date,
      Assess(GetReturn(download(DefenseTicker, target), target),
             Present(BasketFetches(download, ShippingBasket, target))))
  }

  /** The body of the loop for one event: its defense return, its basket returns, and their assessment. */
  method EventStudyRow(e: Event, target: Date, download: (string, Date) -> Option<seq<Bar>>) returns (row: StudyRow)
    requires ParseIso(e.date) == Some(target)
    ensures row == RowFor(e, download)
  {
    var ita := GetReturn(download(DefenseTicker, target), target);
    var basket := BasketReturns(download, target);
    row := StudyRow(e.name, e.date, Assess(ita, basket));
  }

  /** Each row is the row of the event at its position. */
  predicate RowsOf(events: seq<Event>, rows: seq<StudyRow>, download: (string, Date) -> Option<seq<Bar>>)
  {
    |rows| == |events| &&
    forall i :: 0 <= i < |events| ==> ParseIso(events[i].date).Some? && rows[i] == RowFor(events[i], download)
  }

  lemma {:induction false} RowsOfAppend(events: seq<Event>, rows: seq<StudyRow>, e: Event, row: StudyRow, download: (string, Date) -> Option<seq<Bar>>)
    requires RowsOf(events, rows, download) && ParseIso(e.date).Some? && row == RowFor(e, download)
    ensures RowsOf(events + [e], rows + [row], download)
  {
    assert forall i :: 0 <= i < |events| ==> (events + [e])[i] == events[i] && (rows + [row])[i] == rows[i];
  }

  lemma {:induction false} PrefixGrows(events: seq<Event>, i: nat)
    requires i < |events|
    ensures events[..i] + [events[i]] == events[..i + 1]
  {
  }

  /**
   * The loop of `run_historical_study` over the sorted events: one row per
   * event, in order, each the assessment of that event's defense and
   * basket returns; the loop raises (None) when an event date does not read
   * as a date.
   */
  method StudyRows(events: seq<Event>, download: (string, Date) -> Option<seq<Bar>>) returns (rows: Option<seq<StudyRow>>)
    ensures rows.None? <==> !AllDatesParse(events)
    ensures rows.Some? ==> RowsOf(events, rows.value, download)
  {
    var acc: seq<StudyRow> := [];
    for i := 0 to |events|
      invariant RowsOf(events[..i], acc, download)
    {
      var target := ParseIso(events[i].date);
      if target.None? {
        return None;
      }
      var row := EventStudyRow(events[i], target.value, download);
      RowsOfAppend(events[..i], acc, events[i], row, download);
      PrefixGrows(events, i);
      acc := acc + [row];
    }
    assert events[..|events|] == events;
    rows := Some(acc);
  }

  /**
   * `run_historical_study`: the rows of the events sorted by date text. The
   * table's dates all read as dates, so the study never raises, and it
   * visits the events in ascending date order.
   */
  method RunHistoricalStudy(download: (string, Date) -> Option<seq<Bar>>) returns (rows: seq<StudyRow>)
    ensures RowsOf(SortByDate(Events), rows, download)
  {
    var sorted := SortByDate(Events);
    TableSortsAndParses(sorted);
    var r := StudyRows(sorted, download);
    rows := r.value;
  }

  lemma {:induction false} TableSortsAndParses(sorted: seq<Event>)
    requires sorted == SortByDate(Events)
    ensures |sorted| == |Events| && AllDatesParse(sorted)
  {
    EventDatesParse();
    RearrangedDatesParse(Events, sorted);
  }

  /** A rearrangement of events whose dates all parse has dates that all parse. */
  lemma {:induction false} RearrangedDatesParse(es: seq<Event>, sorted: seq<Event>)
    requires multiset(sorted) == multiset(es) && AllDatesParse(es)
    ensures |sorted| == |es| && AllDatesParse(sorted)
  {
    assert |sorted| == |multiset(sorted)| == |multiset(es)| == |es|;
    forall i | 0 <= i < |sorted| ensures ParseIso(sorted[i].date).Some? {
      assert sorted[i] in multiset(es);
      var j :| 0 <= j < |es| && es[j] == sorted[i];
    }
  }

  /** The study visits the events in ascending date order. */
  lemma {:induction false} StudyIsChronological(sorted: seq<Event>)
    requires sorted == SortByDate(Events)
    ensures AllDatesParse(sorted)
    ensures forall i, j :: 0 <= i < j < |sorted| ==> DateLe(ParseIso(sorted[i].date).value, ParseIso(sorted[j].date).value)
  {
    TableSortsAndParses(sorted);
    SortedByDateIsChronological(sorted);
  }
}
