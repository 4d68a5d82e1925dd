/**
 * Calendar dates, New York local timestamps at minute resolution, the
 * `YYYY-MM-DD` text form that file names, event tables and date filters use,
 * and Python's string order on that text.
 *
 * A timestamp is a calendar date and a minute of the day; the time zone is
 * fixed (America/New_York) and is not represented. Years are limited to the
 * range pandas' nanosecond `Timestamp` can hold.
 */
module Calendar {
  import opened Wrappers

  type Year = y: int | 1677 <= y <= 2262 witness 1970
  type Month = m: int | 1 <= m <= 12 witness 1
  type MonthDay = d: int | 1 <= d <= 31 witness 1
  type Minute = t: int | 0 <= t < 1440 witness 0

  const MinutesPerDay: int := 1440

  datatype Date = Date(year: Year, month: Month, day: MonthDay)

  /** A local wall-clock instant: the calendar date and the minute since midnight. */
  datatype Stamp = Stamp(date: Date, minute: Minute)

  /** The last day of the baseline: bars dated before it are history. */
  const BaselineEnd: Date := Date(2026, 1, 1)
  /** The event day, 2026-01-02. */
  const EventDate: Date := Date(2026, 1, 2)

  /** An integer that orders dates as the calendar does. */
  function DateKey(d: Date): int
  {
    (d.year * 13 + d.month) * 32 + d.day
  }

  predicate DateLt(a: Date, b: Date)
  {
    DateKey(a) < DateKey(b)
  }

  predicate DateLe(a: Date, b: Date)
  {
    DateKey(a) <= DateKey(b)
  }

  /** An integer that orders timestamps as time does. */
  function StampKey(s: Stamp): int
  {
    DateKey(s.date) * MinutesPerDay + s.minute
  }

  predicate StampLt(a: Stamp, b: Stamp)
  {
    StampKey(a) < StampKey(b)
  }

  /** Midnight at the start of d: what pandas makes of a bare date string compared with a timestamp. */
  function Midnight(d: Date): (s: Stamp)
    ensures s.date == d && s.minute == 0
  {
    Stamp(d, 0)
  }

  /** `between_time('09:30', '16:00')`: both ends included. */
  predicate InSession(s: Stamp)
  {
    9 * 60 + 30 <= s.minute <= 16 * 60
  }

  /** The bar stamped 15:55, the last five-minute bar of the session (market-on-close). */
  predicate AtMarketOnClose(s: Stamp)
  {
    s.minute == 15 * 60 + 55
  }

  lemma {:induction false} DateOrderIsLexicographic(a: Date, b: Date)
    ensures DateLt(a, b) <==>
      a.year < b.year || (a.year == b.year && (a.month < b.month || (a.month == b.month && a.day < b.day)))
  {
  }

  lemma {:induction false} DateKeyInjective(a: Date, b: Date)
    requires DateKey(a) == DateKey(b)
    ensures a == b
  {
    DateOrderIsLexicographic(a, b);
    DateOrderIsLexicographic(b, a);
  }

  lemma {:induction false} StampKeyInjective(a: Stamp, b: Stamp)
    requires StampKey(a) == StampKey(b)
    ensures a == b
  {
    StampOrderIsDateThenMinute(a, b);
    StampOrderIsDateThenMinute(b, a);
    DateKeyInjective(a.date, b.date);
  }

  /** Timestamps are ordered by date first and by minute within a date. */
  lemma {:induction false} StampOrderIsDateThenMinute(a: Stamp, b: Stamp)
    ensures StampLt(a, b) <==> DateLt(a.date, b.date) || (a.date == b.date && a.minute < b.minute)
  {
    if DateKey(a.date) < DateKey(b.date) {
      assert StampKey(a) < StampKey(b);
    } else if DateKey(a.date) > DateKey(b.date) {
      assert StampKey(a) > StampKey(b);
      assert a.date != b.date;
    } else {
      DateKeyInjective(a.date, b.date);
    }
  }

  /**
   * Comparing a timestamp with a bare date string such as "2026-01-01"
   * compares it with that day's midnight: it is earlier exactly when its
   * date is earlier.
   */
  lemma {:induction false} BeforeMidnightIffEarlierDate(s: Stamp, d: Date)
    ensures StampLt(s, Midnight(d)) <==> DateLt(s.date, d)
  {
    StampOrderIsDateThenMinute(s, Midnight(d));
  }

  // ---------------------------------------------------------------------
  // Calendar validity and the pandas Timestamp range

  predicate LeapYear(y: int)
  {
    y % 4 == 0 && (y % 100 != 0 || y % 400 == 0)
  }

  function DaysInMonth(y: int, m: Month): (n: int)
    ensures 28 <= n <= 31
  {
    if m == 2 then (if LeapYear(y) then 29 else 28)
    else if m == 4 || m == 6 || m == 9 || m == 11 then 30
    else 31
  }

  predicate ValidDate(d: Date)
  {
    d.day <= DaysInMonth(d.year, d.month)
  }

  /** The dates whose midnight a nanosecond pandas Timestamp can hold: 1677-09-22 to 2262-04-11. */
  predicate InTimestampRange(d: Date)
  {
    DateLe(Date(1677, 9, 22), d) && DateLe(d, Date(2262, 4, 11))
  }

  // ---------------------------------------------------------------------
  // Decimal digits

  predicate IsDigit(c: char)
  {
    '0' <= c <= '9'
  }

  predicate AllDigits(s: string)
  {
    forall i :: 0 <= i < |s| ==> IsDigit(s[i])
  }

  function DigitChar(k: int): (c: char)
    requires 0 <= k < 10
    ensures IsDigit(c) && c as int - '0' as int == k
  {
    ((('0' as int) + k) as char)
  }

  /** The value of a string of decimal digits, most significant first. */
  function DigitsValue(s: string): (v: nat)
    requires AllDigits(s)
  {
    if |s| == 0 then 0
    else DigitsValue(s[..|s| - 1]) * 10 + (s[|s| - 1] as int - '0' as int)
  }

  function Pow10(n: nat): (p: nat)
    ensures p >= 1
  {
    if n == 0 then 1 else 10 * Pow10(n - 1)
  }

  /** x written with exactly `width` decimal digits, zero-padded on the left (`%0*d` for x < 10^width). */
  function Padded(x: nat, width: nat): (s: string)
    ensures |s| == width && AllDigits(s)
  {
    if width == 0 then ""
    else Padded(x / 10, width - 1) + [DigitChar(x % 10)]
  }

  lemma {:induction false} PaddedValue(x: nat, width: nat)
    requires x < Pow10(width)
    ensures DigitsValue(Padded(x, width)) == x
  {
    if width > 0 {
      var s := Padded(x, width);
      assert s[..|s| - 1] == Padded(x / 10, width - 1);
      PaddedValue(x / 10, width - 1);
    }
  }

  lemma {:induction false} PaddedOfValue(s: string)
    requires AllDigits(s)
    ensures DigitsValue(s) < Pow10(|s|)
    ensures Padded(DigitsValue(s), |s|) == s
  {
    if |s| > 0 {
      var p := s[..|s| - 1];
      assert AllDigits(p);
      PaddedOfValue(p);
      var v := DigitsValue(s);
      var k := s[|s| - 1] as int - '0' as int;
      assert v == DigitsValue(p) * 10 + k && 0 <= k < 10;
      assert v / 10 == DigitsValue(p) && v % 10 == k;
      assert [DigitChar(k)] == [s[|s| - 1]];
    }
  }

  // ---------------------------------------------------------------------
  // The ISO text form

  /** `strftime('%Y-%m-%d')`, and `str(date)` for a Python `date`. */
  function FormatIso(d: Date): (s: string)
    ensures |s| == 10 && s[4] == '-' && s[7] == '-'
  {
    Padded(d.year, 4) + "-" + Padded(d.month, 2) + "-" + Padded(d.day, 2)
  }

  /**
   * The date a `YYYY-MM-DD` string names, as `pd.Timestamp(s).date()`
   * reads it: None (pandas raises) for anything else, for a day the month
   * does not have, and for a date outside the Timestamp range.
   */
  function ParseIso(s: string): (r: Option<Date>)
    ensures r.Some? ==> ValidDate(r.value) && InTimestampRange(r.value)
  {
    if |s| != 10 || s[4] != '-' || s[7] != '-' then None
    else if !AllDigits(s[..4]) || !AllDigits(s[5..7]) || !AllDigits(s[8..]) then None
    else
      var y, m, d := DigitsValue(s[..4]), DigitsValue(s[5..7]), DigitsValue(s[8..]);
      if !(1677 <= y <= 2262 && 1 <= m <= 12 && 1 <= d <= 31) then None
      else
        var date := Date(y, m, d);
        if ValidDate(date) && InTimestampRange(date) then Some(date) else None
  }

  lemma {:induction false} FormatIsoParts(d: Date)
    ensures FormatIso(d)[..4] == Padded(d.year, 4)
    ensures FormatIso(d)[5..7] == Padded(d.month, 2)
    ensures FormatIso(d)[8..] == Padded(d.day, 2)
  {
  }

  /** Every valid date in range prints to text that parses back to it. */
  lemma {:induction false} ParseFormatIso(d: Date)
    requires ValidDate(d) && InTimestampRange(d)
    ensures ParseIso(FormatIso(d)) == Some(d)
  {
    FormatIsoParts(d);
    PaddedValue(d.year, 4);
    PaddedValue(d.month, 2);
    PaddedValue(d.day, 2);
  }

  /** Text that parses is exactly the printed form of the date it names. */
  lemma {:induction false} FormatParseIso(s: string)
    requires ParseIso(s).Some?
    ensures FormatIso(ParseIso(s).value) == s
  {
    var d := ParseIso(s).value;
    PaddedOfValue(s[..4]);
    PaddedOfValue(s[5..7]);
    PaddedOfValue(s[8..]);
    assert s == s[..4] + "-" + s[5..7] + "-" + s[8..];
  }

  // ---------------------------------------------------------------------
  // Python string order

  /** Python's `<` on str: the first differing character decides, and a proper prefix is smaller. */
  predicate LexLt(s: string, t: string)
  {
    if |s| == 0 then |t| > 0
    else if |t| == 0 then false
    else s[0] < t[0] || (s[0] == t[0] && LexLt(s[1..], t[1..]))
  }

  predicate LexLe(s: string, t: string)
  {
    s == t || LexLt(s, t)
  }

  lemma {:induction false} LexLtIrreflexive(s: string)
    ensures !LexLt(s, s)
  {
    if |s| > 0 {
      LexLtIrreflexive(s[1..]);
    }
  }

  lemma {:induction false} LexLtTransitive(s: string, t: string, u: string)
    requires LexLt(s, t) && LexLt(t, u)
    ensures LexLt(s, u)
  {
    if |s| > 0 && |t| > 0 && |u| > 0 && s[0] == t[0] && t[0] == u[0] {
      LexLtTransitive(s[1..], t[1..], u[1..]);
    }
  }

  lemma {:induction false} LexLtTotal(s: string, t: string)
    ensures LexLt(s, t) || s == t || LexLt(t, s)
  {
    if |s| > 0 && |t| > 0 && s[0] == t[0] {
      LexLtTotal(s[1..], t[1..]);
      if s[1..] == t[1..] {
        assert s == [s[0]] + s[1..] && t == [t[0]] + t[1..];
      }
    }
  }

  /** For two texts of equal length, order decided on a prefix carries over to the whole. */
  lemma {:induction false} LexLtConcat(p: string, q: string, p': string, q': string)
    requires |p| == |p'|
    ensures LexLt(p + q, p' + q') <==> LexLt(p, p') || (p == p' && LexLt(q, q'))
  {
    if |p| > 0 {
      assert (p + q)[1..] == p[1..] + q && (p' + q')[1..] == p'[1..] + q';
      LexLtConcat(p[1..], q, p'[1..], q');
      if p[0] == p'[0] && p[1..] == p'[1..] {
        assert p == [p[0]] + p[1..] && p' == [p'[0]] + p'[1..];
      }
      if p == p' {
        assert p[1..] == p'[1..];
      }
    } else {
      assert p + q == q && p' + q' == q';
    }
  }

  /** Zero-padded numbers of one width compare as text exactly as they compare as numbers. */
  lemma {:induction false} PaddedOrder(x: nat, y: nat, width: nat)
    requires x < Pow10(width) && y < Pow10(width)
    ensures LexLt(Padded(x, width), Padded(y, width)) <==> x < y
  {
    if width > 0 {
      var hx, hy := x / 10, y / 10;
      assert hx < Pow10(width - 1) && hy < Pow10(width - 1);
      PaddedOrder(hx, hy, width - 1);
      LexLtConcat(Padded(hx, width - 1), [DigitChar(x % 10)], Padded(hy, width - 1), [DigitChar(y % 10)]);
      PaddedInjective(hx, hy, width - 1);
    }
  }

  lemma {:induction false} PaddedInjective(x: nat, y: nat, width: nat)
    requires x < Pow10(width) && y < Pow10(width)
    ensures Padded(x, width) == Padded(y, width) <==> x == y
  {
    if Padded(x, width) == Padded(y, width) {
      PaddedValue(x, width);
      PaddedValue(y, width);
    }
  }

  /** Text of the form `y-m-d` with equal-width fields compares field by field. */
  lemma {:induction false} LexLtOfDashed(y: string, m: string, d: string, y': string, m': string, d': string)
    requires |y| == |y'| && |m| == |m'|
    ensures LexLt(y + "-" + m + "-" + d, y' + "-" + m' + "-" + d') <==>
      LexLt(y, y') || (y == y' && (LexLt(m, m') || (m == m' && LexLt(d, d'))))
  {
    assert y + "-" + m + "-" + d == y + ("-" + (m + ("-" + d)));
    assert y' + "-" + m' + "-" + d' == y' + ("-" + (m' + ("-" + d')));
    LexLtConcat(y, "-" + (m + ("-" + d)), y', "-" + (m' + ("-" + d')));
    LexLtConcat("-", m + ("-" + d), "-", m' + ("-" + d'));
    LexLtConcat(m, "-" + d, m', "-" + d');
    LexLtConcat("-", d, "-", d');
    LexLtIrreflexive("-");
  }

  /** ISO date strings sort chronologically: sorting events by their date text sorts them by date. */
  lemma {:induction false} IsoOrderIsChronological(a: Date, b: Date)
    ensures LexLt(FormatIso(a), FormatIso(b)) <==> DateLt(a, b)
  {
    LexLtOfDashed(Padded(a.year, 4), Padded(a.month, 2), Padded(a.day, 2),
                  Padded(b.year, 4), Padded(b.month, 2), Padded(b.day, 2));
    PaddedOrder(a.year, b.year, 4);
    PaddedOrder(a.month, b.month, 2);
    PaddedOrder(a.day, b.day, 2);
    PaddedInjective(a.year, b.year, 4);
    PaddedInjective(a.month, b.month, 2);
    DateOrderIsLexicographic(a, b);
  }
}
