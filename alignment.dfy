/**
 * Putting several bar series on one timestamp index: the intersection
 * (bar-for-bar simultaneity) and the union with forward fill (pairing
 * series whose bars are slightly offset).
 */
module Alignment {
  import opened Wrappers
  import opened Calendar
  import opened Bars

  /** The timestamp index of a series. */
  function Stamps(bars: seq<Bar>): (ts: seq<Stamp>)
    ensures |ts| == |bars|
    ensures forall i :: 0 <= i < |bars| ==> ts[i] == bars[i].stamp
  {
    if |bars| == 0 then [] else Stamps(bars[..|bars| - 1]) + [bars[|bars| - 1].stamp]
  }

  predicate Increasing(ts: seq<Stamp>)
  {
    forall i, j :: 0 <= i < j < |ts| ==> StampLt(ts[i], ts[j])
  }

  lemma {:induction false} StampsIncreasing(bars: seq<Bar>)
    requires Ascending(bars)
    ensures Increasing(Stamps(bars))
  {
  }

  lemma {:induction false} StampsMembers(bars: seq<Bar>)
    ensures forall t :: t in Stamps(bars) <==> t in StampSet(bars)
  {
    forall t | t in StampSet(bars) ensures t in Stamps(bars) {
      var i :| 0 <= i < |bars| && bars[i].stamp == t;
      assert Stamps(bars)[i] == t;
    }
  }

  /** In an increasing index, earlier timestamps sit at earlier positions. */
  lemma {:induction false} IncreasingPositions(ts: seq<Stamp>, i: int, j: int)
    requires Increasing(ts) && 0 <= i < |ts| && 0 <= j < |ts|
    ensures StampLt(ts[i], ts[j]) <==> i < j
    ensures ts[i] == ts[j] <==> i == j
  {
  }

  lemma {:induction false} HeadIsMember(ts: seq<Stamp>)
    requires |ts| > 0
    ensures ts[0] in ts
  {
  }

  /** An increasing index is determined by the timestamps it holds. */
  lemma {:induction false} IncreasingUnique(ts: seq<Stamp>, us: seq<Stamp>)
    requires Increasing(ts) && Increasing(us)
    requires forall t :: t in ts <==> t in us
    ensures ts == us
  {
    if |ts| == 0 {
      if |us| > 0 {
        HeadIsMember(us);
        assert false;
      }
    } else {
      assert |us| > 0 by {
        assert ts[0] in us;
      }
      assert ts[0] in us && us[0] in ts;
      var j :| 0 <= j < |us| && us[j] == ts[0];
      var i :| 0 <= i < |ts| && ts[i] == us[0];
      if j > 0 {
        IncreasingPositions(us, 0, j);
        assert false;
      }
      forall t ensures t in ts[1..] <==> t in us[1..] {
        assert t in ts[1..] <==> t in ts && t != ts[0] by {
          assert ts == [ts[0]] + ts[1..];
          if t in ts[1..] {
            var k :| 0 <= k < |ts[1..]| && ts[1..][k] == t;
            assert ts[k + 1] == t;
          }
        }
        assert t in us[1..] <==> t in us && t != us[0] by {
          assert us == [us[0]] + us[1..];
          if t in us[1..] {
            var k :| 0 <= k < |us[1..]| && us[1..][k] == t;
            assert us[k + 1] == t;
          }
        }
      }
      IncreasingUnique(ts[1..], us[1..]);
      assert ts == [ts[0]] + ts[1..] && us == [us[0]] + us[1..];
    }
  }

  // ---------------------------------------------------------------------
  // Intersection

  /** `series.loc[common_idx]`: the bars whose timestamps are in the common index. */
  function Restrict(bars: seq<Bar>, common: set<Stamp>): (r: seq<Bar>)
    ensures forall b :: b in r <==> b in bars && b.stamp in common
    ensures |r| <= |bars|
    ensures Ascending(bars) ==> Ascending(r)
  {
    Where(bars, (t: Stamp) => t in common)
  }

  lemma {:induction false} RestrictStamps(bars: seq<Bar>, common: set<Stamp>)
    ensures StampSet(Restrict(bars, common)) == StampSet(bars) * common
  {
    WhereStamps(bars, (t: Stamp) => t in common);
  }

  /**
   * Restricting ascending series to timestamps they all hold puts them on
   * one identical index.
   */
  lemma {:induction false} SameIndex(a: seq<Bar>, b: seq<Bar>, common: set<Stamp>)
    requires Ascending(a) && Ascending(b)
    requires common <= StampSet(a) && common <= StampSet(b)
    ensures Stamps(Restrict(a, common)) == Stamps(Restrict(b, common))
    ensures StampSet(Restrict(a, common)) == common
  {
    var ra, rb := Restrict(a, common), Restrict(b, common);
    RestrictStamps(a, common);
    RestrictStamps(b, common);
    StampsMembers(ra);
    StampsMembers(rb);
    StampsIncreasing(ra);
    StampsIncreasing(rb);
    IncreasingUnique(Stamps(ra), Stamps(rb));
  }

  /** `a.index.intersection(b.index)`, then each series `.loc` on it. */
  function Intersect2(a: seq<Bar>, b: seq<Bar>): (r: (seq<Bar>, seq<Bar>))
    requires Ascending(a) && Ascending(b)
    ensures Ascending(r.0) && Ascending(r.1)
    ensures Stamps(r.0) == Stamps(r.1)
    ensures StampSet(r.0) == StampSet(a) * StampSet(b)
    ensures |r.0| <= |a| && |r.1| <= |b|
    ensures forall x :: x in r.0 <==> x in a && x.stamp in StampSet(b)
    ensures forall x :: x in r.1 <==> x in b && x.stamp in StampSet(a)
  {
    var common := StampSet(a) * StampSet(b);
    SameIndex(a, b, common);
    (Restrict(a, common), Restrict(b, common))
  }

  /** The three-way `xle.index.intersection(spy.index).intersection(oil.index)`. */
  function Intersect3(a: seq<Bar>, b: seq<Bar>, c: seq<Bar>): (r: (seq<Bar>, seq<Bar>, seq<Bar>))
    requires Ascending(a) && Ascending(b) && Ascending(c)
    ensures Ascending(r.0) && Ascending(r.1) && Ascending(r.2)
    ensures Stamps(r.0) == Stamps(r.1) == Stamps(r.2)
    ensures StampSet(r.0) == StampSet(a) * StampSet(b) * StampSet(c)
    ensures |r.0| <= |a| && |r.1| <= |b| && |r.2| <= |c|
    ensures forall x :: x in r.0 <==> x in a && x.stamp in StampSet(b) && x.stamp in StampSet(c)
    ensures forall x :: x in r.1 <==> x in b && x.stamp in StampSet(a) && x.stamp in StampSet(c)
    ensures forall x :: x in r.2 <==> x in c && x.stamp in StampSet(a) && x.stamp in StampSet(b)
  {
    var common := StampSet(a) * StampSet(b) * StampSet(c);
    SameIndex(a, b, common);
    SameIndex(b, c, common);
    InStampSetAll(a);
    InStampSetAll(b);
    InStampSetAll(c);
    (Restrict(a, common), Restrict(b, common), Restrict(c, common))
  }

  lemma {:induction false} InStampSetAll(bars: seq<Bar>)
    ensures forall x :: x in bars ==> x.stamp in StampSet(bars)
  {
    forall x | x in bars ensures x.stamp in StampSet(bars) {
      var i :| 0 <= i < |bars| && bars[i] == x;
      InStampSet(bars, i);
    }
  }

  // ---------------------------------------------------------------------
  // Union and forward fill

  /** `a.union(b).sort_values()` for two increasing indexes: a merge that keeps one copy of shared timestamps. */
  function Union(ts: seq<Stamp>, us: seq<Stamp>): (r: seq<Stamp>)
    requires Increasing(ts) && Increasing(us)
    ensures Increasing(r)
    ensures forall t :: t in r <==> t in ts || t in us
    ensures |r| >= |ts| && |r| >= |us|
    decreases |ts| + |us|
  {
    if |ts| == 0 then us
    else if |us| == 0 then ts
    else
      assert forall t :: t in ts <==> t == ts[0] || t in ts[1..] by {
        assert ts == [ts[0]] + ts[1..];
      }
      assert forall t :: t in us <==> t == us[0] || t in us[1..] by {
        assert us == [us[0]] + us[1..];
      }
      HeadBelowTail(ts);
      HeadBelowTail(us);
      StampOrderTotal(ts[0], us[0]);
      if StampLt(ts[0], us[0]) then
        var rest := Union(ts[1..], us);
        IncreasingCons(ts[0], rest);
        [ts[0]] + rest
      else if StampLt(us[0], ts[0]) then
        var rest := Union(ts, us[1..]);
        IncreasingCons(us[0], rest);
        [us[0]] + rest
      else
        var rest := Union(ts[1..], us[1..]);
        IncreasingCons(ts[0], rest);
        [ts[0]] + rest
  }

  lemma {:induction false} HeadBelowTail(ts: seq<Stamp>)
    requires Increasing(ts) && |ts| > 0
    ensures forall t :: t in ts[1..] ==> StampLt(ts[0], t)
  {
    forall t | t in ts[1..] ensures StampLt(ts[0], t) {
      var k :| 0 <= k < |ts[1..]| && ts[1..][k] == t;
      assert ts[k + 1] == t;
    }
  }

  lemma {:induction false} IncreasingCons(t: Stamp, ts: seq<Stamp>)
    requires Increasing(ts)
    requires forall u :: u in ts ==> StampLt(t, u)
    ensures Increasing([t] + ts)
  {
    var r := [t] + ts;
    forall i, j | 0 <= i < j < |r| ensures StampLt(r[i], r[j]) {
      assert r[j] == ts[j - 1] && r[j] in ts;
      if i > 0 {
        assert r[i] == ts[i - 1];
      }
    }
  }

  /** The close of the bar stamped t, if the series has one. */
  function Lookup(bars: seq<Bar>, t: Stamp): (v: Option<Price>)
    ensures v.Some? <==> t in StampSet(bars)
    ensures v.Some? ==> exists k :: 0 <= k < |bars| && bars[k].stamp == t && bars[k].close == v.value
  {
    if |bars| == 0 then None
    else
      var n := |bars| - 1;
      assert bars == bars[..n] + [bars[n]];
      StampSetAppend(bars[..n], bars[n]);
      if bars[n].stamp == t then Some(bars[n].close)
      else
        var v := Lookup(bars[..n], t);
        assert v.Some? ==> exists k :: 0 <= k < |bars| && bars[k].stamp == t && bars[k].close == v.value by {
          if v.Some? {
            var k :| 0 <= k < n && bars[..n][k].stamp == t && bars[..n][k].close == v.value;
            assert bars[k] == bars[..n][k];
          }
        }
        v
  }

  /** In a strictly ascending series, looking up a bar's own timestamp gives that bar's close. */
  lemma {:induction false} LookupMember(bars: seq<Bar>, k: int)
    requires Ascending(bars) && 0 <= k < |bars|
    ensures Lookup(bars, bars[k].stamp) == Some(bars[k].close)
  {
    InStampSet(bars, k);
    var v := Lookup(bars, bars[k].stamp);
    var j :| 0 <= j < |bars| && bars[j].stamp == bars[k].stamp && bars[j].close == v.value;
  }

  /** A strictly ascending series has as many timestamps as bars. */
  lemma {:induction false} AscendingStampCount(bars: seq<Bar>)
    requires Ascending(bars)
    ensures |StampSet(bars)| == |bars|
  {
    if |bars| > 0 {
      var n := |bars| - 1;
      var pre := bars[..n];
      assert Ascending(pre);
      AscendingStampCount(pre);
      assert bars == pre + [bars[n]];
      StampSetAppend(pre, bars[n]);
      assert bars[n].stamp !in StampSet(pre);
    }
  }

  /** `series.reindex(index)`: the close at each index timestamp, missing (NaN) where the series has no bar. */
  function Reindex(bars: seq<Bar>, index: seq<Stamp>): (r: seq<Option<Price>>)
    ensures |r| == |index|
    ensures forall i :: 0 <= i < |index| ==> r[i] == Lookup(bars, index[i])
  {
    seq(|index|, i requires 0 <= i < |index| => Lookup(bars, index[i]))
  }

  /** The value `ffill()` leaves at position i: the last value present at or before i. */
  function FilledAt(xs: seq<Option<Price>>, i: int): (v: Option<Price>)
    requires 0 <= i < |xs|
    ensures v.Some? ==> exists k :: 0 <= k <= i && xs[k] == v
    ensures xs[i].Some? ==> v == xs[i]
  {
    if xs[i].Some? then xs[i]
    else if i == 0 then None
    else FilledAt(xs, i - 1)
  }

  function ForwardFill(xs: seq<Option<Price>>): (r: seq<Option<Price>>)
    ensures |r| == |xs|
    ensures forall i :: 0 <= i < |xs| ==> r[i] == FilledAt(xs, i)
  {
    seq(|xs|, i requires 0 <= i < |xs| => FilledAt(xs, i))
  }

  /** The close of the series' own last bar at or before t. */
  function LatestAtOrBefore(bars: seq<Bar>, t: Stamp): Option<Price>
  {
    if |bars| == 0 then None
    else if !StampLt(t, bars[|bars| - 1].stamp) then Some(bars[|bars| - 1].close)
    else LatestAtOrBefore(bars[..|bars| - 1], t)
  }

  lemma {:induction false} LatestAtBar(bars: seq<Bar>, k: int)
    requires Ascending(bars) && 0 <= k < |bars|
    ensures LatestAtOrBefore(bars, bars[k].stamp) == Some(bars[k].close)
  {
    var n := |bars| - 1;
    if k < n {
      assert StampLt(bars[k].stamp, bars[n].stamp);
      assert bars[..n][k] == bars[k];
      LatestAtBar(bars[..n], k);
    }
  }

  lemma {:induction false} LatestNoneBeforeFirst(bars: seq<Bar>, t: Stamp)
    requires forall j :: 0 <= j < |bars| ==> StampLt(t, bars[j].stamp)
    ensures LatestAtOrBefore(bars, t) == None
  {
    if |bars| > 0 {
      LatestNoneBeforeFirst(bars[..|bars| - 1], t);
    }
  }

  /** With no bar in (u, t], the latest close at or before t is the latest at or before u. */
  lemma {:induction false} LatestUnchanged(bars: seq<Bar>, u: Stamp, t: Stamp)
    requires StampLt(u, t)
    requires forall j :: 0 <= j < |bars| ==> !(StampLt(u, bars[j].stamp) && !StampLt(t, bars[j].stamp))
    ensures LatestAtOrBefore(bars, t) == LatestAtOrBefore(bars, u)
  {
    if |bars| > 0 {
      LatestUnchanged(bars[..|bars| - 1], u, t);
    }
  }

  /**
   * Forward filling a series reindexed onto an index that holds all its
   * timestamps gives, at every index timestamp, the series' own latest
   * close at or before it (missing before its first bar).
   */
  lemma {:induction false} FilledIsLatest(bars: seq<Bar>, index: seq<Stamp>, i: int)
    requires Ascending(bars) && Increasing(index)
    requires StampSet(bars) <= set t | t in index
    requires 0 <= i < |index|
    ensures ForwardFill(Reindex(bars, index))[i] == LatestAtOrBefore(bars, index[i])
  {
    forall j | 0 <= j < |bars| ensures bars[j].stamp in index {
      InStampSet(bars, j);
    }
    var xs := Reindex(bars, index);
    var latest := seq(|index|, j requires 0 <= j < |index| => LatestAtOrBefore(bars, index[j]));
    forall j | 0 <= j < |xs| && xs[j].Some? ensures latest[j] == xs[j] {
      LatestAtPresent(bars, index[j]);
    }
    if xs[0].None? {
      NothingBeforeFirstIndex(bars, index);
    }
    forall j | 0 < j < |xs| && xs[j].None? ensures latest[j] == latest[j - 1] {
      NothingBetweenIndices(bars, index, j);
    }
    FilledAtFollows(xs, latest, i);
  }

  /**
   * Forward filling agrees with any sequence that takes the present values,
   * starts missing and repeats itself across missing positions.
   */
  lemma {:induction false} FilledAtFollows(xs: seq<Option<Price>>, latest: seq<Option<Price>>, i: int)
    requires |latest| == |xs| && 0 <= i < |xs|
    requires forall j :: 0 <= j < |xs| && xs[j].Some? ==> latest[j] == xs[j]
    requires xs[0].None? ==> latest[0] == None
    requires forall j :: 0 < j < |xs| && xs[j].None? ==> latest[j] == latest[j - 1]
    ensures FilledAt(xs, i) == latest[i]
  {
    if xs[i].None? && i > 0 {
      FilledAtFollows(xs, latest, i - 1);
    }
  }

  /** At a timestamp the series has, the latest close is that bar's own. */
  lemma {:induction false} LatestAtPresent(bars: seq<Bar>, t: Stamp)
    requires Ascending(bars) && Lookup(bars, t).Some?
    ensures LatestAtOrBefore(bars, t) == Lookup(bars, t)
  {
    var k :| 0 <= k < |bars| && bars[k].stamp == t && bars[k].close == Lookup(bars, t).value;
    LatestAtBar(bars, k);
  }

  /** A series whose stamps are all in the index has no bar at or before an index stamp it lacks, when that stamp is the first. */
  lemma {:induction false} NothingBeforeFirstIndex(bars: seq<Bar>, index: seq<Stamp>)
    requires Increasing(index) && |index| > 0
    requires forall j :: 0 <= j < |bars| ==> bars[j].stamp in index
    requires Lookup(bars, index[0]).None?
    ensures LatestAtOrBefore(bars, index[0]) == None
  {
    forall j | 0 <= j < |bars| ensures StampLt(index[0], bars[j].stamp) {
      var m :| 0 <= m < |index| && index[m] == bars[j].stamp;
      IncreasingPositions(index, 0, m);
    }
    LatestNoneBeforeFirst(bars, index[0]);
  }

  /** Between two neighbouring index stamps, the second of which the series lacks, the series has no bar. */
  lemma {:induction false} NothingBetweenIndices(bars: seq<Bar>, index: seq<Stamp>, i: int)
    requires Increasing(index) && 0 < i < |index|
    requires forall j :: 0 <= j < |bars| ==> bars[j].stamp in index
    requires Lookup(bars, index[i]).None?
    ensures LatestAtOrBefore(bars, index[i]) == LatestAtOrBefore(bars, index[i - 1])
  {
    forall j | 0 <= j < |bars| ensures !(StampLt(index[i - 1], bars[j].stamp) && !StampLt(index[i], bars[j].stamp)) {
      var m :| 0 <= m < |index| && index[m] == bars[j].stamp;
      IncreasingPositions(index, i - 1, m);
      IncreasingPositions(index, i, m);
      StampOrderTotal(index[i], index[m]);
    }
    IncreasingPositions(index, i - 1, i);
    LatestUnchanged(bars, index[i - 1], index[i]);
  }

  /** `a.reindex(union).ffill()` and `b.reindex(union).ffill()`, with the union index they share. */
  function UnionFill(a: seq<Bar>, b: seq<Bar>): (r: (seq<Stamp>, seq<Option<Price>>, seq<Option<Price>>))
    requires Ascending(a) && Ascending(b)
    ensures Increasing(r.0)
    ensures forall t :: t in r.0 <==> t in StampSet(a) || t in StampSet(b)
    ensures |r.0| >= |a| && |r.0| >= |b|
    ensures |r.1| == |r.0| && |r.2| == |r.0|
  {
    StampsIncreasing(a);
    StampsIncreasing(b);
    StampsMembers(a);
    StampsMembers(b);
    var index := Union(Stamps(a), Stamps(b));
    (index, ForwardFill(Reindex(a, index)), ForwardFill(Reindex(b, index)))
  }

  /** Both filled series of the union alignment hold, at each timestamp, their own latest close at or before it. */
  lemma {:induction false} UnionFillIsLatest(a: seq<Bar>, b: seq<Bar>, i: int)
    requires Ascending(a) && Ascending(b)
    requires 0 <= i < |UnionFill(a, b).0|
    ensures UnionFill(a, b).1[i] == LatestAtOrBefore(a, UnionFill(a, b).0[i])
    ensures UnionFill(a, b).2[i] == LatestAtOrBefore(b, UnionFill(a, b).0[i])
  {
    var index := UnionFill(a, b).0;
    FilledIsLatest(a, index, i);
    FilledIsLatest(b, index, i);
  }
}
