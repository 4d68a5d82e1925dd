/**
 * Cached price files are named `{ticker without '='}_{start}_{end}_{interval}.parquet`.
 * This module builds such names, splits them on `_`, reads the covered
 * date range back, matches the loaders' glob patterns and scans a
 * listing for the first file covering a target date.
 *
 * A listing is the sequence of file names in the cache directory, in the
 * order the directory yields them; the directory path itself is left out.
 */
module CacheFiles {
  import opened Wrappers
  import opened Calendar

  /** `ticker.replace("=", "")`: `CL=F` is cached as `CLF`. */
  function SafeTicker(ticker: string): (s: string)
    ensures '=' !in s
    ensures forall c :: c in s <==> c in ticker && c != '='
  {
    if |ticker| == 0 then ""
    else if ticker[0] == '=' then SafeTicker(ticker[1..])
    else [ticker[0]] + SafeTicker(ticker[1..])
  }

  /** Python's `s.split(sep)` for a one-character separator: empty parts are kept and there is always one part. */
  function Split(s: string, sep: char): (parts: seq<string>)
    ensures |parts| >= 1
    ensures forall i :: 0 <= i < |parts| ==> sep !in parts[i]
  {
    if |s| == 0 then [""]
    else
      var rest := Split(s[1..], sep);
      if s[0] == sep then [""] + rest
      else [[s[0]] + rest[0]] + rest[1..]
  }

  /** `sep.join(parts)`. */
  function Join(parts: seq<string>, sep: char): string
    requires |parts| >= 1
  {
    if |parts| == 1 then parts[0] else parts[0] + [sep] + Join(parts[1..], sep)
  }

  /** Splitting undoes joining when no part contains the separator. */
  lemma {:induction false} SplitJoin(parts: seq<string>, sep: char)
    requires |parts| >= 1
    requires forall i :: 0 <= i < |parts| ==> sep !in parts[i]
    ensures Split(Join(parts, sep), sep) == parts
  {
    if |parts| == 1 {
      SplitOfPlain(parts[0], [], sep);
      assert parts[0] + [] == parts[0];
      assert parts[0] + Split([], sep)[0] == parts[0];
    } else {
      SplitJoin(parts[1..], sep);
      var tail := [sep] + Join(parts[1..], sep);
      SplitOfPlain(parts[0], tail, sep);
      assert parts[0] + [sep] + Join(parts[1..], sep) == parts[0] + tail;
      assert tail[1..] == Join(parts[1..], sep);
      assert Split(tail, sep) == [""] + parts[1..];
      assert parts[0] + "" == parts[0];
      assert parts == [parts[0]] + parts[1..];
    }
  }

  /** Characters without the separator glue onto the first part of what follows them. */
  lemma {:induction false} SplitOfPlain(p: string, rest: string, sep: char)
    requires sep !in p
    ensures Split(p + rest, sep) == [p + Split(rest, sep)[0]] + Split(rest, sep)[1..]
  {
    if |p| > 0 {
      assert (p + rest)[1..] == p[1..] + rest;
      assert (p + rest)[0] == p[0] && p[0] != sep;
      SplitOfPlain(p[1..], rest, sep);
      var s := Split(rest, sep);
      var r := Split(p[1..] + rest, sep);
      assert r[0] == p[1..] + s[0] && r[1..] == s[1..];
      assert Split(p + rest, sep) == [[p[0]] + r[0]] + r[1..];
      assert [p[0]] + (p[1..] + s[0]) == p + s[0];
    } else {
      assert p + rest == rest;
      var r := Split(rest, sep);
      assert r == [r[0]] + r[1..];
      assert p + r[0] == r[0];
    }
  }

  /** Joining undoes splitting. */
  lemma {:induction false} JoinSplit(s: string, sep: char)
    ensures Join(Split(s, sep), sep) == s
  {
    if |s| > 0 {
      JoinSplit(s[1..], sep);
      var rest := Split(s[1..], sep);
      if s[0] == sep {
        assert ([""] + rest)[1..] == rest;
        assert s == [s[0]] + s[1..];
      } else {
        var parts := [[s[0]] + rest[0]] + rest[1..];
        if |rest| == 1 {
          assert s == [s[0]] + s[1..];
        } else {
          assert parts[1..] == rest[1..];
          assert Join(rest, sep) == rest[0] + [sep] + Join(rest[1..], sep);
          assert s == [s[0]] + s[1..];
        }
      }
    }
  }

  /** The file name the downloader writes for a ticker, date range and interval. */
  function CacheFileName(ticker: string, start: string, end: string, interval: string): string
  {
    Join([SafeTicker(ticker), start, end, interval + ".parquet"], '_')
  }

  lemma {:induction false} NoUnderscoreInIso(d: Date)
    ensures '_' !in FormatIso(d)
  {
    var s := FormatIso(d);
    assert s == Padded(d.year, 4) + "-" + Padded(d.month, 2) + "-" + Padded(d.day, 2);
    forall i | 0 <= i < |s| ensures s[i] != '_' {
      FormatIsoParts(d);
      if i < 4 {
        assert s[i] == s[..4][i];
      } else if 5 <= i < 7 {
        assert s[i] == s[5..7][i - 5];
      } else if 8 <= i {
        assert s[i] == s[8..][i - 8];
      }
    }
  }

  /**
   * A name written by the downloader, for a ticker and an interval without
   * `_`, splits back into four parts with the start date second and the
   * end date third.
   */
  lemma {:induction false} CacheFileNameParts(ticker: string, start: Date, end: Date, interval: string)
    requires '_' !in ticker && '_' !in interval + ".parquet"
    ensures Split(CacheFileName(ticker, FormatIso(start), FormatIso(end), interval), '_')
         == [SafeTicker(ticker), FormatIso(start), FormatIso(end), interval + ".parquet"]
  {
    NoUnderscoreInIso(start);
    NoUnderscoreInIso(end);
    assert '_' !in SafeTicker(ticker);
    SplitJoinFour(SafeTicker(ticker), FormatIso(start), FormatIso(end), interval + ".parquet", '_');
  }

  /** SplitJoin for four parts, with the parts kept abstract. */
  lemma {:induction false} SplitJoinFour(a: string, b: string, c: string, d: string, sep: char)
    requires sep !in a && sep !in b && sep !in c && sep !in d
    ensures Split(Join([a, b, c, d], sep), sep) == [a, b, c, d]
  {
    var parts := [a, b, c, d];
    forall i | 0 <= i < |parts| ensures sep !in parts[i] {
      if i == 0 {
      } else if i == 1 {
      } else if i == 2 {
      } else {
        assert parts[i] == d;
      }
    }
    SplitJoin(parts, sep);
  }

  // ---------------------------------------------------------------------
  // The covered date range and the scan

  /** The `[start, end]` range a file name claims: None when it has fewer than three parts or a part is not a date. */
  function CoveredRange(name: string): (r: Option<(Date, Date)>)
    ensures r.Some? ==> |Split(name, '_')| >= 3
    ensures r.Some? ==> ParseIso(Split(name, '_')[1]) == Some(r.value.0) && ParseIso(Split(name, '_')[2]) == Some(r.value.1)
  {
    var parts := Split(name, '_');
    if |parts| < 3 then None
    else
      match (ParseIso(parts[1]), ParseIso(parts[2]))
      case (Some(s), Some(e)) => Some((s, e))
      case _ => None
  }

  /** `file_start <= target_dt <= file_end`, both ends included. */
  predicate Covers(name: string, target: Date)
  {
    var r := CoveredRange(name);
    r.Some? && DateLe(r.value.0, target) && DateLe(target, r.value.1)
  }

  /** A downloader-written name covers exactly the dates between its start and end, inclusive. */
  lemma {:induction false} CacheFileNameCovers(ticker: string, start: Date, end: Date, interval: string, target: Date)
    requires '_' !in ticker && '_' !in interval + ".parquet"
    requires ValidDate(start) && InTimestampRange(start) && ValidDate(end) && InTimestampRange(end)
    ensures Covers(CacheFileName(ticker, FormatIso(start), FormatIso(end), interval), target)
        <==> DateLe(start, target) && DateLe(target, end)
  {
    CacheFileNameParts(ticker, start, end, interval);
    ParseFormatIso(start);
    ParseFormatIso(end);
  }

  /** The file the scan stops at: the first in listing order that covers the target. */
  function FirstCoveringFile(files: seq<string>, target: Date): (r: Option<string>)
    ensures r.Some? ==> r.value in files && Covers(r.value, target)
    ensures r.None? <==> forall i :: 0 <= i < |files| ==> !Covers(files[i], target)
  {
    if |files| == 0 then None
    else if Covers(files[0], target) then Some(files[0])
    else
      var r := FirstCoveringFile(files[1..], target);
      assert forall i :: 1 <= i < |files| ==> files[i] == files[1..][i - 1];
      r
  }

  /** No file listed before the selected one covers the target. */
  lemma {:induction false} FirstCoveringIsFirst(files: seq<string>, target: Date)
    requires FirstCoveringFile(files, target).Some?
    ensures exists k :: 0 <= k < |files| && files[k] == FirstCoveringFile(files, target).value && (forall j :: 0 <= j < k ==> !Covers(files[j], target))
  {
    if !Covers(files[0], target) {
      var rest := files[1..];
      FirstCoveringIsFirst(rest, target);
      var k :| 0 <= k < |rest| && rest[k] == FirstCoveringFile(rest, target).value &&
        forall j :: 0 <= j < k ==> !Covers(rest[j], target);
      NoneCoversBefore(files, target, k);
    } else {
      assert files[0] == FirstCoveringFile(files, target).value;
    }
  }

  /** Prepending a file that does not cover the target moves the first covering position by one. */
  lemma {:induction false} NoneCoversBefore(files: seq<string>, target: Date, k: nat)
    requires k + 1 < |files| && !Covers(files[0], target)
    requires forall j :: 0 <= j < k ==> !Covers(files[1..][j], target)
    ensures files[k + 1] == files[1..][k]
    ensures forall j :: 0 <= j < k + 1 ==> !Covers(files[j], target)
  {
    forall j | 0 < j < k + 1 ensures !Covers(files[j], target) {
      assert files[j] == files[1..][j - 1];
    }
  }

  /** One step of the scan: the first covering file from i on is file i or the first from i + 1 on. */
  lemma {:induction false} FirstCoveringStep(files: seq<string>, i: nat, target: Date)
    requires i < |files|
    ensures FirstCoveringFile(files[i..], target) ==
      if Covers(files[i], target) then Some(files[i]) else FirstCoveringFile(files[i + 1..], target)
  {
    assert files[i..][1..] == files[i + 1..];
  }

  /** Covers, read off the split parts of the name. */
  lemma {:induction false} CoversFromParts(name: string, target: Date)
    ensures Covers(name, target) <==>
      var parts := Split(name, '_');
      |parts| >= 3 && ParseIso(parts[1]).Some? && ParseIso(parts[2]).Some? &&
      DateLe(ParseIso(parts[1]).value, target) && DateLe(target, ParseIso(parts[2]).value)
  {
  }

  /**
   * The scan loop: walk the listing, skip names whose range cannot be read,
   * and stop at the first whose range contains the target.
   */
  method ScanForCovering(files: seq<string>, target: Date) returns (selected: Option<string>)
    ensures selected == FirstCoveringFile(files, target)
  {
    selected := None;
    var i := 0;
    while i < |files|
      invariant 0 <= i <= |files|
      invariant selected.None?
      invariant FirstCoveringFile(files, target) == FirstCoveringFile(files[i..], target)
    {
      FirstCoveringStep(files, i, target);
      CoversFromParts(files[i], target);
      var parts := Split(files[i], '_');
      if |parts| >= 3 {
        var start, end := ParseIso(parts[1]), ParseIso(parts[2]);
        if start.Some? && end.Some? && DateLe(start.value, target) && DateLe(target, end.value) {
          selected := Some(files[i]);
          return;
        }
      }
      i := i + 1;
    }
  }

  // ---------------------------------------------------------------------
  // Glob patterns

  /** `glob` of `{prefix}*{suffix}` against one name. */
  predicate MatchesGlob(name: string, prefix: string, suffix: string)
  {
    |name| >= |prefix| + |suffix| && name[..|prefix|] == prefix && name[|name| - |suffix|..] == suffix
  }

  function Glob(listing: seq<string>, prefix: string, suffix: string): (r: seq<string>)
    ensures forall n :: n in r <==> n in listing && MatchesGlob(n, prefix, suffix)
  {
    if |listing| == 0 then []
    else
      assert forall n :: n in listing <==> n == listing[0] || n in listing[1..] by {
        assert listing == [listing[0]] + listing[1..];
      }
      (if MatchesGlob(listing[0], prefix, suffix) then [listing[0]] else []) + Glob(listing[1..], prefix, suffix)
  }

  /**
   * `glob` keeps the names in listing order: matching a joined listing is
   * matching each part, and a single name is kept exactly when it matches.
   */
  lemma {:induction false} GlobAppend(a: seq<string>, b: seq<string>, prefix: string, suffix: string)
    ensures Glob(a + b, prefix, suffix) == Glob(a, prefix, suffix) + Glob(b, prefix, suffix)
    ensures Glob([], prefix, suffix) == []
    ensures forall n :: Glob([n], prefix, suffix) == if MatchesGlob(n, prefix, suffix) then [n] else []
  {
    forall n ensures Glob([n], prefix, suffix) == if MatchesGlob(n, prefix, suffix) then [n] else [] {
      assert [n][1..] == [];
    }
    if |a| > 0 {
      assert (a + b)[1..] == a[1..] + b;
      GlobAppend(a[1..], b, prefix, suffix);
    } else {
      assert a + b == b;
    }
  }

  /** The five-minute files of a ticker, `{safe}_*_5m.parquet`. */
  function FiveMinuteFiles(listing: seq<string>, ticker: string): seq<string>
  {
    Glob(listing, SafeTicker(ticker) + "_", "_5m.parquet")
  }

  /** The five-minute files of a ticker when there are any, otherwise every `{safe}_*.parquet` file. */
  function CandidateFiles(listing: seq<string>, ticker: string): (r: seq<string>)
    ensures |FiveMinuteFiles(listing, ticker)| > 0 ==> r == FiveMinuteFiles(listing, ticker)
    ensures |FiveMinuteFiles(listing, ticker)| == 0 ==> r == Glob(listing, SafeTicker(ticker) + "_", ".parquet")
    ensures forall n :: n in r ==> n in listing && MatchesGlob(n, SafeTicker(ticker) + "_", ".parquet")
  {
    var fiveMinute := FiveMinuteFiles(listing, ticker);
    if |fiveMinute| > 0 then
      assert forall n :: n in fiveMinute ==> MatchesGlob(n, SafeTicker(ticker) + "_", ".parquet") by {
        forall n | n in fiveMinute ensures MatchesGlob(n, SafeTicker(ticker) + "_", ".parquet") {
          assert n[|n| - |".parquet"|..] == n[|n| - |"_5m.parquet"|..][|"_5m"|..];
        }
      }
      fiveMinute
    else Glob(listing, SafeTicker(ticker) + "_", ".parquet")
  }

  /** Every five-minute file the downloader writes for a ticker matches that ticker's five-minute pattern. */
  lemma {:induction false} CacheFileNameMatches(ticker: string, start: Date, end: Date)
    ensures MatchesGlob(CacheFileName(ticker, FormatIso(start), FormatIso(end), "5m"), SafeTicker(ticker) + "_", "_5m.parquet")
  {
    var safe, s, e := SafeTicker(ticker), FormatIso(start), FormatIso(end);
    var name := CacheFileName(ticker, s, e, "5m");
    var parts := [safe, s, e, "5m.parquet"];
    assert "5m" + ".parquet" == "5m.parquet";
    assert parts[1..] == [s, e, "5m.parquet"] && parts[1..][1..] == [e, "5m.parquet"] && parts[1..][1..][1..] == ["5m.parquet"];
    assert Join(parts[1..][1..], '_') == e + "_" + "5m.parquet";
    assert Join(parts[1..], '_') == s + "_" + (e + "_" + "5m.parquet");
    assert name == safe + "_" + (s + "_" + (e + "_" + "5m.parquet"));
    assert name == (safe + "_") + (s + "_" + e) + "_5m.parquet";
    var middle := s + "_" + e;
    assert name[..|safe + "_"|] == safe + "_";
    assert name[|name| - |"_5m.parquet"|..] == "_5m.parquet";
  }
}
