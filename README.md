# caracas-signal event study, modelled in Dafny

The repository is a set of event-study scripts that ask whether the move of
the energy sector ETF XLE against crude oil (CL=F) on 2026-01-02 was
anticipated. Around pandas, network and plotting calls the scripts share a
small computational core, which this project models over exact `real`
arithmetic:

- **Bar series** (`bars.dfy`, `alignment.dfy`, `calendar.dfy`): a bar is a
  New York wall-clock timestamp (`Stamp(date, minute)`), a positive close
  and a volume. The loaders concatenate cache files, drop repeated
  timestamps keeping the first, sort, keep the 09:30–16:00 session and
  filter by date; series are aligned by intersection or by union with
  forward fill.
- **Returns** (`returns.dfy`): simple returns, rebasing to the first bar,
  compounding `(1 + r).cumprod() - 1`.
- **Cache file names** (`cachefiles.dfy`): `{ticker}_{start}_{end}_{interval}.parquet`,
  split on `_`, and the scan for the first file whose inclusive date range
  covers the target.
- **Masks** (`sequences.dfy`): boolean-mask selection of rows, in order.
- **Statistics** (`stats.dfy`): sums, means, the sample and population
  variances, z-scores with the zero-deviation guard, numpy's division
  outcomes, the strictly-less percentile rank.
- One module per script: `forensics.dfy` (the leak spread, the volume
  spike and the basket test of `run_forensic_analysis`), `factor_model.dfy`
  (the intraday XLE ~ SPY + oil model), `models.dfy` (module `BetaModels`:
  beta, z-score, beta analysis), `spread_control.dfy` (the placebo
  distribution of daily maximum spreads), `historical_control.dfy` (the
  one-day returns around nine geopolitical events and the signal classifier) and
  `plots.dfy` (the chart loaders and the T±window slice).

Where the scripts loop and append (`load_5m_data`, the basket loops, the
placebo's day loop, the file scans, the event loop) the model is a method
with a loop proved equal to a specification function; `get_historical_data`,
which adds the `Norm` and `Day` columns to a copied frame in place, is the
class `Plots.WindowFrame`. The rest is functions and lemmas.

Square roots are not computed: a standard deviation is an input tied to
its sample by `Stats.IsSampleStd` (missing below two values, otherwise the
non-negative root of the sample variance). Least-squares fitting with
several factors is not computed either: `FactorModel.RunFactorModel` takes
the fitted coefficients as a parameter. A pandas or numpy NaN is `None`;
a numpy division that can give an infinity is a `Stats.Quotient`.

## Model

| member | source | states |
|---|---|---|
| Bars.Concatenate | src/factor_model.py:19-26 | the concatenation loop yields the rows of every readable file, in file order, unreadable files skipped |
| Bars.KeepFirst | src/factor_model.py:31 | deduplication keeps every timestamp once, adds no bar, and never grows the series |
| Bars.KeepFirstKeepsFirst | src/factor_model.py:31 | each surviving bar is the first bar read with its timestamp (`keep='first'`) |
| Bars.SortByStamp | src/factor_model.py:31 | sorting is a permutation of the bars |
| Bars.SortByStampAscending | src/factor_model.py:31 | a series without repeated timestamps sorts into a strictly ascending series with the same timestamps |
| Bars.Where | src/spread_control.py:65-66 | a boolean mask keeps exactly the bars whose timestamp passes it and keeps an ascending series ascending; on the ascending series it is given this fixes their order |
| Bars.DaySlice | src/spread_control.py:65-66 | the day slice holds exactly the bars dated that day |
| Bars.SessionFilter | src/forensics.py:115-116 | the session filter keeps exactly the bars between 09:30 and 16:00, both ends included |
| Bars.DateFilter | src/factor_model.py:42-43 | a non-empty filter list keeps exactly the bars whose ISO date is listed; no list or an empty list changes nothing |
| Bars.Prepare | src/spread_control.py:27-32 | the loaders' preparation: drop repeated timestamps keeping the first, sort, keep the 09:30–16:00 session (its contract is Bars.PrepareSpec) |
| Bars.PrepareSpec | src/factor_model.py:31-40 | after loading the series is strictly ascending, in session, has exactly the in-session timestamps read, and each bar is the first read with its timestamp |
| Bars.SearchSorted | src/historical_control.py:77 | left `searchsorted`: every earlier bar is stamped before t and, on ascending data, no later one is |
| Bars.EventRow | src/historical_control.py:77 | the event row is the first row dated on or after the target date, or the row count when there is none |
| Bars.CloseReturns | src/factor_model.py:64-66 | N closes give N − 1 returns |
| Bars.CloseReturnsCompound | src/factor_model.py:64-66 | each close is the previous close compounded by its return |
| Bars.CloseReturnsTelescope | src/factor_model.py:64-66 | compounding all returns carries the first close to the last |
| Alignment.Restrict | src/factor_model.py:60-62 | `.loc[common_idx]` keeps exactly the bars stamped in the common index, in order |
| Alignment.SameIndex | src/factor_model.py:59-62 | ascending series restricted to timestamps they all hold share one identical index |
| Alignment.Intersect2 | src/spread_control.py:46-48 | both aligned series are ascending on one index equal to the intersection of the inputs' timestamps |
| Alignment.Intersect3 | src/factor_model.py:59-62 | the three aligned series are ascending on one index equal to the three-way intersection, each a subset of its input |
| Alignment.Union | src/forensics.py:123 | the union index is strictly ascending, holds exactly the timestamps of either input and is no shorter than either |
| Alignment.IncreasingUnique | src/forensics.py:123 | an increasing index is determined by the timestamps it holds |
| Alignment.Lookup | src/forensics.py:124 | the close at t exists exactly when the series has a bar stamped t, and is that bar's close |
| Alignment.LookupMember | src/forensics.py:124 | in a strictly ascending series, looking up a bar's own timestamp gives that bar's close |
| Alignment.Reindex | src/forensics.py:124 | `reindex` gives, at each index timestamp, the series' close there or a missing value |
| Alignment.FilledAt | src/forensics.py:124 | the forward-filled value is a value present at or before the position, and a present value is kept |
| Alignment.ForwardFill | src/forensics.py:124-125 | `ffill` replaces each position by the last value present at or before it |
| Alignment.FilledIsLatest | src/forensics.py:124-125 | filling a reindexed series gives at each index timestamp the series' own latest close at or before it |
| Alignment.UnionFill | src/forensics.py:123-125 | the union alignment gives one increasing index for both filled columns, no shorter than either input |
| Alignment.UnionFillIsLatest | src/forensics.py:123-125 | each filled column holds at every union timestamp its own series' latest close at or before it |
| Returns.PctChange | src/factor_model.py:64-66 | `pct_change().dropna()` of N prices has N − 1 entries |
| Returns.PctChangeCompounds | src/factor_model.py:64-66 | c[i+1] = c[i]·(1 + r[i]) |
| Returns.GrowthTelescopes | src/factor_model.py:64-66 | ∏(1 + r) over the returns is the last price over the first |
| Returns.GrowthSplit | src/factor_model.py:117 | compounding over a split window equals compounding over the whole |
| Returns.CumulativeReturn | src/factor_model.py:117 | the cumulative return has one entry per bar |
| Returns.CumulativeRecurrence | src/factor_model.py:117 | CAR[0] = res[0] and 1 + CAR[k] = (1 + CAR[k−1])(1 + res[k]) |
| Returns.CumulativeSplit | src/factor_model.py:117-118 | 1 + total CAR = (1 + CAR[k]) times the growth of the bars after k |
| Returns.Rebase | src/forensics.py:140-141 | each rebased value times the first price gives back the price; the first is 1 |
| Returns.RebasedSpread | src/forensics.py:140-143 | one spread value per bar, zero at the first |
| Returns.ProportionalSpreadIsZero | src/forensics.py:137-143 | a positive multiple of a series has a zero rebased spread against it at every bar |
| Calendar.DateOrderIsLexicographic | src/forensics.py:56 | dates compare by year, then month, then day |
| Calendar.StampOrderIsDateThenMinute | src/factor_model.py:132-133 | timestamps compare by date, then by time of day |
| Calendar.BeforeMidnightIffEarlierDate | src/spread_control.py:51 | a timestamp is before the string "2026-01-01" exactly when its date is earlier |
| Calendar.FormatIso | src/factor_model.py:43 | `strftime('%Y-%m-%d')` gives ten characters with dashes at positions 4 and 7 |
| Calendar.ParseIso | src/forensics.py:53-54 | a parsed date is a valid calendar date inside the pandas Timestamp range |
| Calendar.ParseFormatIso | src/data_loader.py:47-48 | a printed date parses back to itself |
| Calendar.FormatParseIso | src/forensics.py:53-54 | text that parses is the printed form of its date |
| Calendar.IsoOrderIsChronological | src/historical_control.py:110 | ISO date texts compare as strings exactly as the dates compare |
| CacheFiles.SafeTicker | src/forensics.py:24 | the safe ticker is the ticker with every `=` removed |
| CacheFiles.Split | src/forensics.py:45 | `split('_')` gives at least one part and no part holds the separator |
| CacheFiles.SplitJoin | src/forensics.py:45 | splitting undoes joining parts free of the separator |
| CacheFiles.JoinSplit | src/forensics.py:45 | joining undoes splitting |
| CacheFiles.CacheFileNameParts | src/data_loader.py:47-48 | a downloader-written name splits back into the safe ticker, the start date, the end date and the interval |
| CacheFiles.CoveredRange | src/forensics.py:45-54 | a range is read only from names with at least three parts whose second and third parse as dates |
| CacheFiles.CoversFromParts | src/forensics.py:45-56 | a name covers the target exactly when its parsed start and end enclose it, both ends included |
| CacheFiles.CacheFileNameCovers | src/forensics.py:56 | a downloader-written name covers exactly the dates from its start to its end, inclusive |
| CacheFiles.FirstCoveringFile | src/forensics.py:41-58 | the selection is a listed file that covers the target, and is missing exactly when none does |
| CacheFiles.FirstCoveringIsFirst | src/forensics.py:41-58 | no file listed before the selected one covers the target |
| CacheFiles.ScanForCovering | src/forensics.py:41-61 | the scan loop with `break` and skipped names returns the first covering file |
| CacheFiles.Glob | src/forensics.py:26-27 | the glob keeps exactly the listed names matching the pattern |
| CacheFiles.GlobAppend | src/forensics.py:26-27 | the glob keeps listing order: it distributes over concatenation and keeps a single name exactly when it matches, so the first covering file is the first in the listing |
| CacheFiles.CandidateFiles | src/forensics.py:26-32 | the candidates are the five-minute files when there are any, else the glob of `{safe}_*.parquet` over the listing |
| CacheFiles.CacheFileNameMatches | src/data_loader.py:47-48 | every five-minute file the downloader writes matches the loaders' pattern |
| Stats.MeanOrNone | src/forensics.py:250 | the mean is missing exactly for an empty sample |
| Stats.Max | src/spread_control.py:88 | the maximum is a value of the sample and no value exceeds it |
| Stats.Standardize | src/models.py:41-49 | the z-score is missing exactly when the deviation is missing or zero, and otherwise z·σ = v − μ |
| Stats.FloatDivide | src/forensics.py:257 | numpy division: finite for a non-zero divisor with z·b = a, ±infinity for a non-zero value over zero, NaN otherwise |
| Stats.Present | src/historical_control.py:119-123 | the present values are exactly the non-missing ones, and none exist exactly when all are missing |
| Stats.PresentTally | src/forensics.py:307-313 | each further result adds one to the count and its value to the total exactly when it is present |
| Stats.CountLess | src/spread_control.py:95 | the count of values below e is at most the sample size |
| Stats.PercentileRank | src/spread_control.py:95 | the percentile is missing exactly for an empty sample and otherwise lies in [0, 100] |
| Stats.PercentileMonotone | src/spread_control.py:95 | the percentile never decreases as the event value grows |
| Stats.PercentileAtOrBelowMin | src/spread_control.py:95 | an event value at or below the minimum ranks at 0 |
| Stats.PercentileAboveMax | src/spread_control.py:95 | an event value above the maximum ranks at 100 |
| Stats.PercentileOfDistinctMax | src/spread_control.py:95 | with distinct values the maximum ranks at 100·(n − 1)/n, the rule being strictly-less |
| Stats.MeanBetweenMinAndMax | src/spread_control.py:97 | the mean lies between the minimum and the maximum |
| Stats.SampleVarianceZeroIffConstant | src/models.py:44-47 | the sample variance is zero exactly for a constant sample |
| Stats.StandardizeUndefinedIffConstant | src/models.py:43-47 | with the sample deviation the z-score is undefined exactly for a constant history |
| Forensics.LoadTickerData | src/forensics.py:19-66 | no candidates raise; an unreadable target raises; the first covering candidate is selected; otherwise the newest-by-mtime choice among all candidates |
| Forensics.SessionDay | src/forensics.py:85-116 | the day's bars are exactly the in-session bars of that date |
| Forensics.RebaseFilled | src/forensics.py:137-141 | each value over the first is defined exactly where both are, and times the first gives the value |
| Forensics.Difference | src/forensics.py:143 | the difference is defined exactly where both sides are, and is their difference |
| Forensics.RebasedDifferenceAt | src/forensics.py:137-143 | each spread entry is x[i]/x[0] − o[i]/o[0] where all four are present |
| Forensics.SpreadOf | src/forensics.py:123-143 | the spread sits on the strictly ascending union of both series' timestamps, one value per timestamp |
| Forensics.CalculateLeakSpread | src/forensics.py:84-145 | on frames as read, unsorted and possibly with repeated timestamps: no result exactly when either day slice is empty before or after the session filter; `reindex` raises exactly when either session day repeats a timestamp; otherwise the spread of the two session days put in timestamp order by `union` |
| Forensics.AscendingFramesNeedNoSort | src/forensics.py:123-125 | on strictly ascending frames nothing raises and the spread is that of the session days as they stand |
| Bars.SortAscendingIsIdentity | src/forensics.py:123 | sorting a strictly ascending series changes nothing |
| Forensics.SpreadAt | src/forensics.py:123-143 | each spread value is the XLE close in force over the first, minus the same for oil, defined exactly when all four exist |
| Forensics.SpreadAtOpen | src/forensics.py:137-143 | the spread is 0 at the first bar when both series have a value there, and undefined everywhere otherwise |
| Forensics.LatestProportional | src/forensics.py:124-125 | forward filling keeps a fixed proportion between two series on the same timestamps |
| Forensics.ProportionalSpreadIsZero | src/forensics.py:123-143 | two series on the same timestamps with proportional closes have a zero spread at every union bar |
| Forensics.MaxPresent | src/forensics.py:171 | `max()` is missing exactly when all values are, otherwise a present value no other exceeds |
| Forensics.FirstPosition | src/forensics.py:172 | `idxmax` reports the first position holding the maximum |
| Forensics.PeakSpread | src/forensics.py:171-172 | the peak is the largest defined spread and the first timestamp reaching it |
| Forensics.PeakSpreadNonNegative | src/forensics.py:171 | a spread defined at the first bar peaks at zero or above |
| Forensics.ForensicReport | src/forensics.py:161-197 | no report without a spread result; the analysis aborts exactly when `reindex` raised, when the spread is undefined throughout (NaN `idxmax`, `.tzinfo` raises) or the day has no XLE bar; otherwise the peak spread with its first time and the day's largest XLE volume |
| Forensics.PeakUndefinedIffSeriesMissesOpen | src/forensics.py:137-143 | the peak is undefined, and the analysis aborts, exactly when one series has no bar at the first union timestamp |
| Forensics.ReturnSpread | src/forensics.py:249 | the difference of two return series on the same dates is the difference of the daily growth ratios |
| Forensics.DailySpreads | src/forensics.py:242-249 | one spread per shared date after the first, each XLE's daily growth ratio minus oil's |
| Forensics.SpreadStatistics | src/forensics.py:208-266 | the statistics fail exactly when a baseline file or the daily data cannot be read or there is no peak; the score uses the sample mean and deviation, z·σ = peak − mean, finite exactly for a non-zero σ |
| Forensics.PossibleLeak | src/forensics.py:283 | the beta test's flag `abs(z) > 1.96` on numpy's z, infinities included (its contract is Forensics.PossibleLeakIsStrict) |
| Forensics.EventVolume | src/forensics.py:161-197 | the `max_vol_val` the volume test scores (line 350): the reported peak volume, or the default 0 without a spread |
| Forensics.PossibleLeakIsStrict | src/forensics.py:283 | abs(z) > 1.96 strictly: ±1.96 and NaN flag nothing, anything beyond flags |
| Forensics.ShippingBasket | src/forensics.py:304-313 | the loop's total and count are the sum and number of the results present |
| Forensics.HierarchyOfInformation | src/forensics.py:304-319 | the average exists exactly when defence and some shipping result do, is their mean, and the pattern holds exactly for defence > 0.02 and average < 0 |
| Forensics.MocVolumes | src/forensics.py:343 | `between_time('15:55', '15:55')['Volume']` (its contract is Forensics.MocVolumesAreMarketOnClose) |
| Forensics.MocVolumesAreMarketOnClose | src/forensics.py:343 | the volumes of exactly the baseline's 15:55 bars, no more of them than bars |
| Forensics.ScoreVolume | src/forensics.py:343-367 | on a readable baseline: no 15:55 bar is reported, a zero deviation raises; otherwise z·σ = volume − mean, z > 3 is abnormal, and a single bar leaves z NaN and the volume consistent |
| Forensics.VolumeTest | src/forensics.py:331-373 | only a file that does not exist is reported missing; no 15:55 bar is reported; an unreadable file or a zero deviation ends in the handler's "Volume test failed"; otherwise z·σ = volume − mean and z > 3 is abnormal |
| Forensics.VolumeTestFailsIffConstant | src/forensics.py:346-354 | on a readable baseline the volume test fails exactly when there are at least two 15:55 bars and all volumes are equal |
| FactorModel.Load5mData | src/factor_model.py:14-45 | nothing read raises; otherwise the deduplicated, sorted, session- and date-filtered rows |
| FactorModel.LoadedSeries | src/factor_model.py:31-43 | the loaded series is strictly ascending, in session, first-read per timestamp, and holds exactly the listed dates |
| FactorModel.FactorReturns | src/factor_model.py:64-66 | one row of three returns per aligned bar after the first, on that bar's timestamp |
| Sequences.Filter | src/factor_model.py:74-75 | a boolean mask keeps exactly the rows passing it and no more rows than there were |
| Sequences.FilterAppend | src/factor_model.py:74-75 | the mask keeps order: it distributes over concatenation and keeps a single row exactly when it passes |
| FactorModel.TrainingPrecedesEvent | src/factor_model.py:74-75 | a training bar is dated before 2026-01-01, so never on the event day |
| FactorModel.AlignedReturns | src/factor_model.py:59-66 | one return row per timestamp all three series hold, except the first of them, in strictly ascending order; the first row holds each series' close-to-close return since a shared timestamp before it, and every later row each series' return since the row before |
| FactorModel.TrainingRows | src/factor_model.py:74-87 | the training rows are exactly the rows stamped before midnight of 2026-01-01, in order |
| FactorModel.EventRows | src/factor_model.py:75-109 | the event rows are exactly the rows dated 2026-01-02, in order |
| FactorModel.TrainingAndEventDisjoint | src/factor_model.py:74-75 | no row is both a training row and an event row |
| FactorModel.Predicted | src/factor_model.py:113 | `model.predict` with the added constant: intercept plus the SPY and oil loadings times their returns (a definition, no contract) |
| FactorModel.Residuals | src/factor_model.py:113-114 | predicted plus residual is the observed XLE return, bar by bar |
| FactorModel.ExactFitHasNoAbnormalReturn | src/factor_model.py:113-117 | when the factors explain every bar, the CAR is zero throughout |
| FactorModel.LastBefore | src/factor_model.py:136-138 | the last bar strictly before the cut, missing when none is |
| FactorModel.SignificantSurge | src/factor_model.py:141 | the conclusion's test: a surge exists and exceeds 0.01 strictly (a definition, no contract) |
| FactorModel.SurgeAfter | src/factor_model.py:132-138 | no surge without a bar at or after 14:55; otherwise final CAR minus CAR at the last bar before 14:55 |
| FactorModel.SurgeCompounds | src/factor_model.py:117-138 | the surge is (1 + CAR at the cut) times the growth of the later residuals, minus one |
| FactorModel.RiseAfter | src/factor_model.py:117 | the CAR rises after bar k by its level there compounded over the later bars |
| FactorModel.RunFactorModel | src/factor_model.py:59-138 | fewer than 100 training returns: no model; no event bar: no report; otherwise the CAR of the event residuals, its last value and the surge |
| FactorModel.CarZScore | src/factor_model.py:122-124 | z·(√n·σ) = total CAR, finite exactly for a non-zero σ, +infinity for a positive CAR over zero |
| BetaModels.DailyReturns | src/models.py:70-71 | one return per daily close after the first, labelled with the later date |
| BetaModels.ValueAt | src/models.py:35-36 | `.loc[t]` finds the entry labelled t, missing exactly when there is none |
| BetaModels.Paired | src/models.py:30-36 | each pair is an asset value and the market value on the same date |
| BetaModels.PairedCountsSharedDates | src/models.py:30-31 | with unique asset dates there are as many pairs as shared dates (`len(common_idx)`) |
| BetaModels.CalculateBeta | src/models.py:27-39 | NaN exactly below 30 shared dates; `linregress` refuses constant market values; otherwise a slope solving the normal equation |
| BetaModels.LeastSquaresSlope | src/models.py:38 | for non-constant market values the slope Σ(x−x̄)(y−ȳ)/Σ(x−x̄)² solves the normal equation |
| BetaModels.OnLineFitsItsSlope | src/models.py:38 | the only slope fitting pairs on a line is that line's slope |
| BetaModels.ExactLineRecoversSlope | src/models.py:38-39 | asset returns exactly a + b·market give beta b |
| BetaModels.CalculateZScore | src/models.py:41-49 | NaN exactly for a history of fewer than two values or a constant one, else z·σ = v − μ |
| BetaModels.HistoryMask | src/models.py:76 | the mask is true exactly at the target's dates before the event |
| BetaModels.MaskByPosition | src/models.py:78-79 | positional boolean indexing raises unless the lengths agree; otherwise an entry is kept exactly when it sits at a masked position |
| BetaModels.MaskByPositionAppend | src/models.py:78-79 | positional masking distributes over concatenation, so the kept entries stay in series order |
| BetaModels.MarketHistoryAsWritten | src/models.py:78-79 | the target's mask on the market raises exactly when the two lengths differ; otherwise a market entry is kept exactly when the target's entry at the same position is dated before the event |
| BetaModels.History | src/models.py:76-79 | the intended history of either series is exactly its own entries before the event |
| BetaModels.IndexRaisesOnUnequalLengths | src/models.py:79 | concrete series of unequal length on which the source raises and the intended history does not |
| BetaModels.PositionalMaskDropsSharedDate | src/models.py:76-79 | concrete equal-length series, the market one trading day behind: the positional mask keeps the market's 12-29 and 12-30 entries, so the shared pre-event date 12-31 drops out and the beta sample has one pair instead of two |
| BetaModels.HistoryPrecedesEvent | src/models.py:76-81 | every pair the beta is fitted on comes from a date strictly before the event |
| BetaModels.EventValue | src/models.py:87-100 | the first entry dated on the event day, missing exactly when there is none |
| BetaModels.HistoryResiduals | src/models.py:110 | each residual plus beta times the market value is the target value; none when beta is NaN |
| BetaModels.PrepareBetaAnalysis | src/models.py:55-110 | on the intended histories of the src/models.py:78-79 finding (each series' own pre-event entries): missing files and a missing event date give no result; a constant market history raises; otherwise beta, event returns and residuals; the positional mask never raises |
| BetaModels.MaskMatchesHistory | src/models.py:76-78 | a mask that follows a series' own dates selects exactly its pre-event history, so `target_rets[history_mask]` is the target's history |
| BetaModels.PrepareBetaAnalysisAsWritten | src/models.py:55-110 | as written, both histories cut with the target's positional mask: missing files give no result, and return series of different lengths raise IndexError, uncaught by the callers at src/forensics.py:274, 293 and 308 |
| BetaModels.AsWrittenAgreesOnSameDates | src/models.py:76-79 | when both return series carry the same dates position by position, the analysis as written equals the intended one |
| BetaModels.AbnormalZScore | src/models.py:113 | the guarded score is finite exactly for a present non-zero deviation, with z·σ = abnormal, and never infinite |
| BetaModels.AbnormalZScoreAsWritten | src/models.py:113 | the unguarded score is +infinity exactly for a positive abnormal return over a zero deviation |
| BetaModels.ZeroDeviationIsFlaggedAsWritten | src/models.py:113 | a zero deviation makes an abnormal return of 0.5% exceed 1.96 as written, and not under the guard |
| BetaModels.BetaAnalysisReport | src/models.py:106-123 | the record carries ticker, benchmark, beta and event return; expected = β·market, expected + abnormal = event; z·σ = abnormal, finite exactly with beta and a spread history |
| SpreadControl.LoadFiveMinuteData | src/spread_control.py:16-32 | nothing read gives None; otherwise the deduplicated, sorted, session-filtered rows |
| SpreadControl.Baseline | src/spread_control.py:46-53 | the baseline keeps exactly the aligned bars dated before 2026-01-01, ascending |
| SpreadControl.UniqueDates | src/spread_control.py:55 | the distinct dates of the baseline, strictly ascending |
| SpreadControl.DaySpread | src/spread_control.py:82-85 | one spread value per common bar, zero at the first |
| SpreadControl.DayMaxSpread | src/spread_control.py:65-89 | a day counts exactly when both slices are non-empty and share at least 30 bars; its statistic is the spread's maximum, at least 0 |
| SpreadControl.DayStats | src/spread_control.py:61-88 | each date's statistic is that day's maximum spread, never negative |
| SpreadControl.Collect | src/spread_control.py:61-89 | exactly one entry per date whose day counts, with its statistic, in date order |
| SpreadControl.CollectAscending | src/spread_control.py:55-89 | dates given ascending are collected in ascending order |
| SpreadControl.DailyMaxima | src/spread_control.py:61-89 | the collected maxima are exactly those of the days that count, all non-negative |
| SpreadControl.DailyMaximaAscending | src/spread_control.py:55-89 | collected days ascend strictly, so at most one statistic per date |
| SpreadControl.CollectDailyMaxima | src/spread_control.py:57-89 | the loop with its `continue`s appends exactly the maxima of the days that count |
| SpreadControl.Percent | src/spread_control.py:91 | each maximum times 100 |
| SpreadControl.ReportedVarianceAsWritten | src/spread_control.py:98 | `ndarray.std()` squares to the squared deviations over n |
| SpreadControl.ReportedVariance | src/spread_control.py:98 | the sample variance: missing below two values, zero exactly for equal maxima |
| SpreadControl.PopulationVarianceUnderstates | src/spread_control.py:98 | ddof=0 is ddof=1 scaled by (n−1)/n, so smaller for any spread sample |
| SpreadControl.TwoDayVariance | src/spread_control.py:98 | the maxima 0% and 2% give a variance of 1 as written and 2 with ddof=1 |
| SpreadControl.Summarise | src/spread_control.py:91-98 | the summary holds the maxima in percent, the strictly-less percentile of 1.94 in [0, 100], a mean between their minimum and maximum, the printed ddof=0 variance and beside it the ddof=1 sample variance of the src/spread_control.py:98 finding, the first below the second whenever the maxima differ |
| SpreadControl.Placebo | src/spread_control.py:46-98 | every reported daily maximum is non-negative; the summary carries both variances of SpreadControl.Summarise |
| SpreadControl.PlaceboDays | src/spread_control.py:46-89 | the collected days ascend strictly and all lie before 2026-01-01 |
| SpreadControl.RunSpreadPlacebo | src/spread_control.py:34-98 | nothing when either series is missing, else the placebo of the two loaded series, reporting the printed ddof=0 variance with the sample variance beside it |
| HistoricalControl.EventDatesParse | src/historical_control.py:15-52 | every event date in the table reads as a date |
| HistoricalControl.SortByDate | src/historical_control.py:110 | the events sorted by date text, a permutation of the table |
| HistoricalControl.SortedByDateIsChronological | src/historical_control.py:110 | events sorted by date text are in date order |
| HistoricalControl.TableSortsAndParses | src/historical_control.py:110 | the sorted table has all nine events and all their dates parse |
| HistoricalControl.StudyIsChronological | src/historical_control.py:110-112 | the study visits the events in ascending date order |
| HistoricalControl.GetReturn | src/historical_control.py:57-100 | None exactly for a failed or empty download, no row on or after the target, or an event row that is the first; otherwise close over previous close minus one |
| HistoricalControl.ReturnIsOverPreviousTradingDay | src/historical_control.py:77-94 | the return is measured from the last trading day before the target to the first on or after it |
| HistoricalControl.Classify | src/historical_control.py:131-141 | each of the five signals holds exactly when its first-match condition does |
| HistoricalControl.BoundaryMovesAreNotDirectional | src/historical_control.py:131-141 | a move of exactly ±0.5% never gives a directional signal |
| HistoricalControl.BasketFetches | src/historical_control.py:119-123 | one fetched return per basket ticker, in order |
| HistoricalControl.BasketReturns | src/historical_control.py:119-123 | the loop keeps exactly the basket returns that exist, in order |
| HistoricalControl.Assess | src/historical_control.py:125-145 | classified exactly when the defence return and a basket return exist; the basket percentage is the mean, between the extremes |
| HistoricalControl.RowFor | src/historical_control.py:112-145 | a row carries its event's name and date text |
| HistoricalControl.EventStudyRow | src/historical_control.py:113-145 | the loop body computes the row of its event |
| HistoricalControl.StudyRows | src/historical_control.py:112-145 | one row per event in order, and a raise exactly when some date does not parse |
| HistoricalControl.RunHistoricalStudy | src/historical_control.py:102-147 | the rows of the events sorted by date, without raising |
| Plots.LoadTickerData | src/plots.py:36-65 | no candidates raise; an unreadable target raises; no covering file raises; otherwise the first covering candidate |
| Plots.WindowBounds | src/plots.py:89-90 | 0 ≤ start ≤ idx < end ≤ len, at most window rows each side, length between 1 and 2·window + 1 |
| Plots.PercentChangeSign | src/plots.py:103 | a percentage change is zero or positive exactly as the value equals or exceeds the base |
| Plots.PercentChangeMonotone | src/plots.py:103 | a larger close never gives a smaller percentage change |
| Plots.Normalised | src/plots.py:103 | each `Norm` value is its close's change from the base, in percent |
| Plots.NormalisedSign | src/plots.py:103 | a row's `Norm` is zero or positive exactly as its close equals or exceeds the base |
| Plots.NormalisedMonotone | src/plots.py:103 | normalisation keeps the order of the closes |
| Plots.Centred | src/plots.py:104-105 | each `Day` is the row offset from the event row: 0 there, one more per row |
| Plots.HistoricalWindow | src/plots.py:76-107 | no window for a failed or empty download or a target past the data; otherwise at most 2·window + 1 rows, Day 0 at T = 0 and Norm 0 at the base row |
| Plots.WindowCentresOnEvent | src/plots.py:81-96 | rows before T = 0 are dated before the event and the rest on or after it |
| Plots.BaseRow | src/plots.py:98-101 | the base price's row: the row before T = 0 when there is one, else the first row (a definition, no contract) |
| Plots.NormAtEvent | src/plots.py:98-103 | with a row before T = 0, the event row's `Norm` is its change from the T−1 close |
| Plots.EventPointIsStudyReturn | src/plots.py:98-103 | the chart's T = 0 value is the historical study's one-day return in percent |
| Plots.WindowFrame.constructor | src/plots.py:92 | the copied slice, with no added column |
| Plots.WindowFrame.AddNorm | src/plots.py:103 | adding `Norm` changes no other column |
| Plots.WindowFrame.NumberRows | src/plots.py:104 | `Day` becomes 0, 1, 2, … and nothing else changes |
| Plots.WindowFrame.ShiftDays | src/plots.py:105 | each `Day` drops by zero_pos and nothing else changes |
| Plots.GetHistoricalData | src/plots.py:70-111 | a fresh frame whose rows and columns are the window's, exactly when there is a window |

## Left out

- Reading files: the directory listing is a parameter and `read_parquet` a function parameter, `None` for a file it cannot read (the volume test's baseline arrives as a `BaselineRead`, which tells a missing file from an unreadable one); timezone localisation and conversion are left out, timestamps arrive as New York wall-clock time.
- Forensics.LoadTickerData: when no file covers the target it returns the candidates rather than the newest by modification time, which is file-system state (src/forensics.py:63-66).
- `load_daily_data` (src/models.py:15-25) picks the newest daily file by modification time; BetaModels.PrepareBetaAnalysis takes the loaded frames, `None` when the file is missing.
- The yfinance downloads of src/historical_control.py and src/plots.py are parameters; the ±5-day and ±(2·window + 5)-day request ranges are not modelled.
- Square roots: standard deviations are inputs tied by `Stats.IsSampleStd`, and √n in FactorModel.CarZScore is the input `rootN`.
- The statsmodels fit (src/factor_model.py:95) and its residual deviation (line 99): the intercept and factor loadings are a parameter of FactorModel.RunFactorModel.
- IEEE floating point: arithmetic is exact; NaN is `None` and numpy's infinities appear only where a division by zero is reachable.
- Forensics.SpreadStatistics: of the December baseline of src/forensics.py:208-234 the model keeps only whether both files could be read, which decides whether the statistics fail; the correlation itself, which is only printed, is not modelled.
- Forensics.CalculateLeakSpread: on a session day with a repeated timestamp the model always has `reindex` raise; pandas skips the reindex, and so does not raise, when the day's index already equals the sorted union, and that case is not modelled.
- Forensics.ForensicReport ends the analysis on the aborting paths; the rest of `run_forensic_analysis` is modelled as separate functions, not composed into one run.
- `calculate_leak_spread`'s `.loc[date_str]` and its date-mask fallback are one day slice in the model; both give the same bars.
- Forensics.DailySpreads drops the leading NaN of `pct_change`, which pandas' `mean` and `std` skip.
- `pd.Timestamp` reads many date spellings; the model reads only `YYYY-MM-DD`.
- HistoricalControl.SortByDate does not model the stability of Python's sort; the table's dates are distinct, so the order is the same.
- pandas' shape normalisation (`iloc[:, 0]` on MultiIndex columns) and label-aligned arithmetic.
- All plotting, `plot_style`, logging and printing, the charts of src/plots.py:113-286 and their own event table (src/plots.py:24-34).
- src/data_loader.py and src/sector_rotation_control.py are not part of this model.

## Findings

| source | as written | input that shows it | evidently intended | confidence | as-written member | corrected member |
|---|---|---|---|---|---|---|
| src/models.py:78-79 | `market_rets[history_mask]` applies a boolean mask built from the target's dates to the market series by position | target returns on 2025-12-31 only, market on 2025-12-30 and 2025-12-31: pandas raises; target on 2025-12-30, 2025-12-31 and 2026-01-02, market on 2025-12-29, 2025-12-30 and 2025-12-31: the mask keeps the market's 12-29 and 12-30 entries, so 12-31, a date both hold before the event, drops out of the beta sample | the market's own dates before the event | not executed | BetaModels.MaskByPosition, BetaModels.MarketHistoryAsWritten, BetaModels.PrepareBetaAnalysisAsWritten, BetaModels.IndexRaisesOnUnequalLengths, BetaModels.PositionalMaskDropsSharedDate | BetaModels.History, BetaModels.PrepareBetaAnalysis, BetaModels.HistoryPrecedesEvent |
| src/models.py:113 | `abnormal_ret / residual_std` without the zero guard of `calculate_z_score` (src/models.py:46-47) | all history residuals equal, so their deviation is 0, and an abnormal return of 0.005: the score is +infinity and `abs(z) > 1.96` (src/forensics.py:283) flags it | NaN for a zero deviation, flagging nothing | not executed | BetaModels.AbnormalZScoreAsWritten, BetaModels.ZeroDeviationIsFlaggedAsWritten | BetaModels.AbnormalZScore, BetaModels.BetaAnalysisReport |
| src/spread_control.py:98 | `ndarray.std()` divides by n (ddof=0) | daily maxima 0% and 2%: variance 1 as written, 2 with the ddof=1 `.std()` used everywhere else | the sample deviation (ddof=1) | not executed | SpreadControl.ReportedVarianceAsWritten, SpreadControl.TwoDayVariance, SpreadControl.PopulationVarianceUnderstates | SpreadControl.ReportedVariance, SpreadControl.Summarise (its `sampleVariance`, beside the printed value) |
