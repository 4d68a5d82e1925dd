/**
 * Five-minute price bars and the preparation every loader applies to them:
 * concatenating the readable cache files, dropping repeated timestamps
 * (keeping the first), sorting by time, the regular-session filter and the
 * optional calendar-date filter.
 */
module Bars {
  import opened Wrappers
  import opened Calendar
  import Returns

  /** A closing price. Prices are positive (the data invariant of a price bar). */
  type Price = r: real | r > 0.0 witness 1.0

  datatype Bar = Bar(stamp: Stamp, close: Price, volume: nat)

  function StampSet(bars: seq<Bar>): set<Stamp>
  {
    set i | 0 <= i < |bars| :: bars[i].stamp
  }

  /** Timestamps strictly increase along the series. */
  predicate Ascending(bars: seq<Bar>)
  {
    forall i, j :: 0 <= i < j < |bars| ==> StampLt(bars[i].stamp, bars[j].stamp)
  }

  predicate DistinctStamps(bars: seq<Bar>)
  {
    forall i, j :: 0 <= i < j < |bars| ==> bars[i].stamp != bars[j].stamp
  }

  lemma {:induction false} AscendingIsDistinct(bars: seq<Bar>)
    requires Ascending(bars)
    ensures DistinctStamps(bars)
  {
  }

  lemma {:induction false} InStampSet(bars: seq<Bar>, i: int)
    requires 0 <= i < |bars|
    ensures bars[i].stamp in StampSet(bars)
  {
  }

  lemma {:induction false} StampSetAppend(bars: seq<Bar>, b: Bar)
    ensures StampSet(bars + [b]) == StampSet(bars) + {b.stamp}
  {
    var r := bars + [b];
    forall t | t in StampSet(r) ensures t in StampSet(bars) + {b.stamp} {
      var i :| 0 <= i < |r| && r[i].stamp == t;
      if i < |bars| {
        InStampSet(bars, i);
      }
    }
    forall t | t in StampSet(bars) + {b.stamp} ensures t in StampSet(r) {
      if t == b.stamp {
        InStampSet(r, |bars|);
      } else {
        var i :| 0 <= i < |bars| && bars[i].stamp == t;
        InStampSet(r, i);
      }
    }
  }

  /** The `Close` column. */
  function Closes(bars: seq<Bar>): (cs: seq<real>)
    ensures |cs| == |bars|
    ensures forall i :: 0 <= i < |bars| ==> cs[i] == bars[i].close as real && cs[i] > 0.0
  {
    seq(|bars|, i requires 0 <= i < |bars| => bars[i].close as real)
  }

  /** The `Volume` column. */
  function Volumes(bars: seq<Bar>): (vs: seq<real>)
    ensures |vs| == |bars|
    ensures forall i :: 0 <= i < |bars| ==> vs[i] == bars[i].volume as real
  {
    seq(|bars|, i requires 0 <= i < |bars| => bars[i].volume as real)
  }

  /** Each close is the previous close compounded by its return. */
  lemma {:induction false} CloseReturnsCompound(bars: seq<Bar>, i: int)
    requires 0 <= i < |CloseReturns(bars)|
    ensures bars[i + 1].close as real == (bars[i].close as real) * (1.0 + CloseReturns(bars)[i])
  {
    Returns.PctChangeCompounds(Closes(bars), i);
  }

  /** Compounding all of a series' returns carries its first close to its last. */
  lemma {:induction false} CloseReturnsTelescope(bars: seq<Bar>)
    requires |bars| > 0
    ensures Returns.Growth(CloseReturns(bars)) == bars[|bars| - 1].close as real / bars[0].close as real
  {
    Returns.GrowthTelescopes(Closes(bars));
  }

  /** `Close.pct_change().dropna()` of one series. */
  function CloseReturns(bars: seq<Bar>): (r: seq<real>)
    ensures |bars| == 0 ==> r == []
    ensures |bars| > 0 ==> |r| == |bars| - 1
  {
    Returns.PctChange(Closes(bars))
  }

  // ---------------------------------------------------------------------
  // Concatenating the cache files

  /** What `read_parquet` gives for each matched file, in glob order. */
  function ReadAll(files: seq<string>, read: string -> Option<seq<Bar>>): (contents: seq<Option<seq<Bar>>>)
    ensures |contents| == |files|
    ensures forall i :: 0 <= i < |files| ==> contents[i] == read(files[i])
  {
    seq(|files|, i requires 0 <= i < |files| => read(files[i]))
  }

  /**
   * The rows of every readable file, in file order; None stands for a file
   * that `read_parquet` could not read, which the loaders skip.
   */
  function Readable(files: seq<Option<seq<Bar>>>): (rows: seq<Bar>)
    ensures forall f :: 0 <= f < |files| && files[f].Some? ==> |rows| >= |files[f].value|
  {
    if |files| == 0 then []
    else
      var last := files[|files| - 1];
      Readable(files[..|files| - 1]) + (if last.Some? then last.value else [])
  }

  /** The loaders' `combined_df = pd.concat([combined_df, df])` loop over the files matched by the glob. */
  method Concatenate(files: seq<Option<seq<Bar>>>) returns (rows: seq<Bar>)
    ensures rows == Readable(files)
  {
    rows := [];
    var i := 0;
    while i < |files|
      invariant 0 <= i <= |files|
      invariant rows == Readable(files[..i])
    {
      assert files[..i + 1][..i] == files[..i];
      match files[i] {
        case Some(df) => rows := rows + df;
        case None =>
      }
      i := i + 1;
    }
    assert files[..|files|] == files;
  }

  // ---------------------------------------------------------------------
  // Dropping repeated timestamps

  /** The first bar of the series carrying timestamp t. */
  function FirstWith(bars: seq<Bar>, t: Stamp): (b: Bar)
    requires t in StampSet(bars)
    ensures b in bars && b.stamp == t
    ensures exists i :: 0 <= i < |bars| && bars[i] == b && forall j :: 0 <= j < i ==> bars[j].stamp != t
  {
    var n := |bars| - 1;
    var prefix := bars[..n];
    StampSetAppend(prefix, bars[n]);
    assert bars == prefix + [bars[n]];
    if t in StampSet(prefix) then
      var b := FirstWith(prefix, t);
      var i :| 0 <= i < |prefix| && prefix[i] == b && forall j :: 0 <= j < i ==> prefix[j].stamp != t;
      assert bars[i] == b;
      b
    else
      assert forall j :: 0 <= j < n ==> bars[j].stamp != t by {
        forall j | 0 <= j < n ensures bars[j].stamp != t {
          InStampSet(prefix, j);
        }
      }
      bars[n]
  }

  /** `df[~df.index.duplicated(keep='first')]`. */
  function KeepFirst(bars: seq<Bar>): (r: seq<Bar>)
    ensures StampSet(r) == StampSet(bars)
    ensures DistinctStamps(r)
    ensures forall b :: b in r ==> b in bars
    ensures |r| <= |bars|
  {
    if |bars| == 0 then []
    else
      var n := |bars| - 1;
      var p := KeepFirst(bars[..n]);
      assert bars == bars[..n] + [bars[n]];
      StampSetAppend(bars[..n], bars[n]);
      if bars[n].stamp in StampSet(p) then p
      else
        StampSetAppend(p, bars[n]);
        assert forall i :: 0 <= i < |p| ==> p[i].stamp != bars[n].stamp by {
          forall i | 0 <= i < |p| ensures p[i].stamp != bars[n].stamp {
            InStampSet(p, i);
          }
        }
        p + [bars[n]]
  }

  /** Every bar that survives is the first bar of the input with its timestamp. */
  lemma {:induction false} KeepFirstKeepsFirst(bars: seq<Bar>)
    ensures forall b :: b in KeepFirst(bars) ==> b.stamp in StampSet(bars) && b == FirstWith(bars, b.stamp)
  {
    if |bars| > 0 {
      var n := |bars| - 1;
      var prefix := bars[..n];
      KeepFirstKeepsFirst(prefix);
      assert bars == prefix + [bars[n]];
      StampSetAppend(prefix, bars[n]);
      var p := KeepFirst(prefix);
      forall b | b in KeepFirst(bars) ensures b.stamp in StampSet(bars) && b == FirstWith(bars, b.stamp) {
        if b in p {
          assert b.stamp in StampSet(prefix);
        } else {
          assert b == bars[n];
          assert b.stamp !in StampSet(prefix);
        }
      }
    }
  }

  // ---------------------------------------------------------------------
  // Sorting by timestamp

  /** Places b among the bars of an ascending series. */
  function Insert(b: Bar, s: seq<Bar>): (r: seq<Bar>)
    ensures multiset(r) == multiset(s) + multiset{b}
  {
    if |s| == 0 then [b]
    else if StampLt(b.stamp, s[0].stamp) then [b] + s
    else
      assert s == [s[0]] + s[1..];
      [s[0]] + Insert(b, s[1..])
  }

  /** A bar later than every bar of s goes at its end. */
  lemma {:induction false} InsertAtEnd(b: Bar, s: seq<Bar>)
    requires forall i :: 0 <= i < |s| ==> StampLt(s[i].stamp, b.stamp)
    ensures Insert(b, s) == s + [b]
  {
    if |s| > 0 {
      assert StampLt(s[0].stamp, b.stamp);
      InsertAtEnd(b, s[1..]);
      assert s == [s[0]] + s[1..];
    }
  }

  /** Sorting an ascending series changes nothing. */
  lemma {:induction false} SortAscendingIsIdentity(bars: seq<Bar>)
    requires Ascending(bars)
    ensures SortByStamp(bars) == bars
  {
    if |bars| > 0 {
      var n := |bars| - 1;
      assert Ascending(bars[..n]);
      SortAscendingIsIdentity(bars[..n]);
      InsertAtEnd(bars[n], bars[..n]);
      assert bars == bars[..n] + [bars[n]];
    }
  }

  /** Two series holding the same bars carry the same timestamps. */
  lemma {:induction false} StampSetOfPermutation(s: seq<Bar>, t: seq<Bar>)
    requires multiset(s) == multiset(t)
    ensures StampSet(s) == StampSet(t)
  {
    forall x | x in StampSet(s) ensures x in StampSet(t) {
      var i :| 0 <= i < |s| && s[i].stamp == x;
      assert s[i] in multiset(t);
      var j :| 0 <= j < |t| && t[j] == s[i];
      InStampSet(t, j);
    }
    forall x | x in StampSet(t) ensures x in StampSet(s) {
      var j :| 0 <= j < |t| && t[j].stamp == x;
      assert t[j] in multiset(s);
      var i :| 0 <= i < |s| && s[i] == t[j];
      InStampSet(s, i);
    }
  }

  lemma {:induction false} InsertStamps(b: Bar, s: seq<Bar>)
    ensures StampSet(Insert(b, s)) == StampSet(s) + {b.stamp}
  {
    StampSetOfPermutation(Insert(b, s), s + [b]);
    StampSetAppend(s, b);
  }

  /** Inserting a bar with a new timestamp into an ascending series keeps it ascending. */
  lemma {:induction false} InsertAscending(b: Bar, s: seq<Bar>)
    requires Ascending(s) && b.stamp !in StampSet(s)
    ensures Ascending(Insert(b, s))
  {
    if |s| > 0 && !StampLt(b.stamp, s[0].stamp) {
      var tail := Insert(b, s[1..]);
      assert s == [s[0]] + s[1..];
      StampSetCons(s[0], s[1..]);
      InsertAscending(b, s[1..]);
      InStampSet(s, 0);
      StampOrderTotal(b.stamp, s[0].stamp);
      forall x | x in tail ensures StampLt(s[0].stamp, x.stamp) {
        assert x in multiset(tail);
        if x != b {
          assert x in multiset(s[1..]);
          var k :| 0 <= k < |s[1..]| && s[1..][k] == x;
          assert s[k + 1] == x;
        }
      }
      AscendingCons(s[0], tail);
    } else if |s| > 0 {
      forall x | x in s ensures StampLt(b.stamp, x.stamp) {
        var k :| 0 <= k < |s| && s[k] == x;
        if k > 0 {
          assert StampLt(s[0].stamp, s[k].stamp);
        }
      }
      AscendingCons(b, s);
    }
  }

  lemma {:induction false} StampOrderTotal(a: Stamp, b: Stamp)
    ensures StampLt(a, b) || a == b || StampLt(b, a)
  {
    if StampKey(a) == StampKey(b) {
      StampKeyInjective(a, b);
    }
  }

  lemma {:induction false} StampSetCons(b: Bar, s: seq<Bar>)
    ensures StampSet([b] + s) == {b.stamp} + StampSet(s)
  {
    var r := [b] + s;
    forall t | t in StampSet(r) ensures t in {b.stamp} + StampSet(s) {
      var i :| 0 <= i < |r| && r[i].stamp == t;
      if i > 0 {
        InStampSet(s, i - 1);
      }
    }
    forall t | t in {b.stamp} + StampSet(s) ensures t in StampSet(r) {
      if t == b.stamp {
        InStampSet(r, 0);
      } else {
        var i :| 0 <= i < |s| && s[i].stamp == t;
        InStampSet(r, i + 1);
      }
    }
  }

  lemma {:induction false} AscendingCons(b: Bar, s: seq<Bar>)
    requires Ascending(s)
    requires forall x :: x in s ==> StampLt(b.stamp, x.stamp)
    ensures Ascending([b] + s)
  {
    var r := [b] + s;
    forall i, j | 0 <= i < j < |r| ensures StampLt(r[i].stamp, r[j].stamp) {
      if i == 0 {
        assert r[j] == s[j - 1];
      } else {
        assert r[i] == s[i - 1] && r[j] == s[j - 1];
      }
    }
  }

  /** `sort_index()`: insertion of each bar, in order, into the sorted prefix. */
  function SortByStamp(bars: seq<Bar>): (r: seq<Bar>)
    ensures multiset(r) == multiset(bars)
  {
    if |bars| == 0 then []
    else
      var n := |bars| - 1;
      assert bars == bars[..n] + [bars[n]];
      Insert(bars[n], SortByStamp(bars[..n]))
  }

  /** A series without repeated timestamps sorts into a strictly ascending one with the same timestamps. */
  lemma {:induction false} SortByStampAscending(bars: seq<Bar>)
    requires DistinctStamps(bars)
    ensures Ascending(SortByStamp(bars))
    ensures StampSet(SortByStamp(bars)) == StampSet(bars)
  {
    if |bars| > 0 {
      var n := |bars| - 1;
      var p := bars[..n];
      assert bars == p + [bars[n]];
      SortByStampAscending(p);
      StampSetAppend(p, bars[n]);
      assert bars[n].stamp !in StampSet(p) by {
        forall i | 0 <= i < n ensures p[i].stamp != bars[n].stamp {
          assert bars[i] == p[i];
        }
      }
      InsertAscending(bars[n], SortByStamp(p));
      InsertStamps(bars[n], SortByStamp(p));
    }
  }

  // ---------------------------------------------------------------------
  // Filters

  /** The bars whose timestamp passes `keep`, in their original order (a boolean mask on the index). */
  function Where(bars: seq<Bar>, keep: Stamp -> bool): (r: seq<Bar>)
    ensures forall b :: b in r <==> b in bars && keep(b.stamp)
    ensures |r| <= |bars|
    ensures Ascending(bars) ==> Ascending(r)
  {
    if |bars| == 0 then []
    else
      var tail := Where(bars[1..], keep);
      assert forall b :: b in bars <==> b == bars[0] || b in bars[1..];
      assert Ascending(bars) ==> forall x :: x in tail ==> StampLt(bars[0].stamp, x.stamp) by {
        if Ascending(bars) {
          forall x | x in tail ensures StampLt(bars[0].stamp, x.stamp) {
            var k :| 0 <= k < |bars[1..]| && bars[1..][k] == x;
            assert bars[k + 1] == x;
          }
        }
      }
      if keep(bars[0].stamp) then
        assert Ascending(bars) ==> Ascending([bars[0]] + tail) by {
          if Ascending(bars) {
            AscendingCons(bars[0], tail);
          }
        }
        [bars[0]] + tail
      else tail
  }

  lemma {:induction false} WhereStamps(bars: seq<Bar>, keep: Stamp -> bool)
    ensures StampSet(Where(bars, keep)) == set t | t in StampSet(bars) && keep(t)
  {
    var r := Where(bars, keep);
    forall t | t in StampSet(r) ensures t in StampSet(bars) && keep(t) {
      var i :| 0 <= i < |r| && r[i].stamp == t;
      assert r[i] in bars;
      var k :| 0 <= k < |bars| && bars[k] == r[i];
      InStampSet(bars, k);
    }
    forall t | t in StampSet(bars) && keep(t) ensures t in StampSet(r) {
      var k :| 0 <= k < |bars| && bars[k].stamp == t;
      assert bars[k] in r;
      var i :| 0 <= i < |r| && r[i] == bars[k];
      InStampSet(r, i);
    }
  }

  /**
   * `index.searchsorted(t)`, left side: the number of leading bars stamped
   * before t. On an ascending series that is the position of the first bar
   * stamped at or after t, or the length when there is none.
   */
  function SearchSorted(bars: seq<Bar>, t: Stamp): (k: nat)
    ensures k <= |bars|
    ensures forall i :: 0 <= i < k ==> StampLt(bars[i].stamp, t)
    ensures k < |bars| ==> !StampLt(bars[k].stamp, t)
    ensures Ascending(bars) ==> forall i :: k <= i < |bars| ==> !StampLt(bars[i].stamp, t)
  {
    if |bars| == 0 || !StampLt(bars[0].stamp, t) then 0
    else
      assert Ascending(bars) ==> Ascending(bars[1..]);
      1 + SearchSorted(bars[1..], t)
  }

  /**
   * The event row of a daily series: the first trading day on or after the
   * target date (`searchsorted` of the target's midnight), or the row count
   * when the data ends before it.
   */
  function EventRow(df: seq<Bar>, target: Date): (k: nat)
    ensures k <= |df|
    ensures forall i :: 0 <= i < k ==> DateLt(df[i].stamp.date, target)
    ensures k < |df| ==> DateLe(target, df[k].stamp.date)
    ensures Ascending(df) ==> forall i :: k <= i < |df| ==> DateLe(target, df[i].stamp.date)
  {
    var k := SearchSorted(df, Midnight(target));
    assert forall i :: 0 <= i < |df| ==> (StampLt(df[i].stamp, Midnight(target)) <==> DateLt(df[i].stamp.date, target)) by {
      forall i | 0 <= i < |df| ensures StampLt(df[i].stamp, Midnight(target)) <==> DateLt(df[i].stamp.date, target) {
        BeforeMidnightIffEarlierDate(df[i].stamp, target);
      }
    }
    k
  }

  /** The bars of one calendar day (`df.loc[date_str]`, `df[df.index.date == d]`). */
  function DaySlice(bars: seq<Bar>, day: Date): (r: seq<Bar>)
    ensures forall b :: b in r <==> b in bars && b.stamp.date == day
    ensures Ascending(bars) ==> Ascending(r)
  {
    Where(bars, (s: Stamp) => s.date == day)
  }

  /** `between_time('09:30', '16:00')`. */
  function SessionFilter(bars: seq<Bar>): (r: seq<Bar>)
    ensures forall b :: b in r <==> b in bars && InSession(b.stamp)
    ensures Ascending(bars) ==> Ascending(r)
  {
    Where(bars, InSession)
  }

  function Member(text: string, list: seq<string>): bool
  {
    text in list
  }

  /**
   * `df[df.index.strftime('%Y-%m-%d').isin(date_filter)]` when a non-empty
   * filter list is given; no filter list, or an empty one, keeps everything.
   */
  function DateFilter(bars: seq<Bar>, dates: Option<seq<string>>): (r: seq<Bar>)
    ensures dates.None? || |dates.value| == 0 ==> r == bars
    ensures dates.Some? && |dates.value| > 0 ==>
      forall b :: b in r <==> b in bars && FormatIso(b.stamp.date) in dates.value
    ensures Ascending(bars) ==> Ascending(r)
  {
    if dates.None? || |dates.value| == 0 then bars
    else Where(bars, (s: Stamp) => Member(FormatIso(s.date), dates.value))
  }

  /** Deduplication, sorting and the session filter that both five-minute loaders apply. */
  function Prepare(rows: seq<Bar>): seq<Bar>
  {
    SessionFilter(SortByStamp(KeepFirst(rows)))
  }

  /**
   * After preparation the series is strictly ascending and inside the
   * session, its timestamps are exactly the in-session timestamps of the
   * rows, and each bar is the first row read with its timestamp.
   */
  lemma {:induction false} PrepareSpec(rows: seq<Bar>)
    ensures Ascending(Prepare(rows))
    ensures forall b :: b in Prepare(rows) ==> InSession(b.stamp) && b.stamp in StampSet(rows) && b == FirstWith(rows, b.stamp)
    ensures StampSet(Prepare(rows)) == set t | t in StampSet(rows) && InSession(t)
  {
    var k := KeepFirst(rows);
    var s := SortByStamp(k);
    KeepFirstKeepsFirst(rows);
    SortByStampAscending(k);
    WhereStamps(s, InSession);
    forall b | b in Prepare(rows) ensures b in k {
      assert b in s;
      assert b in multiset(s);
    }
  }
}
