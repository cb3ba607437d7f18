# Verified models of OrcaAlgo's stateful cores

These Dafny modules model the self-contained state machines and algorithms of the OrcaAlgo trading
platform and prove what they promise.  Each follows one source file: loops are loops, objects with
mutable fields are classes, and every such method is proved against a specification function
whose properties are then proved for all inputs and all runs.

| file | source | subject |
|---|---|---|
| Pearson.dfy, PairBrake.dfy, PairKeys.dfy, PairSweep.dfy, PairReports.dfy, PairRuns.dfy, CorrelationTracker.dfy | internal/backtest/correlation_tracker.go | pairwise correlation brake |
| Reconciliation.dfy, Matchings.dfy, GreedyListings.dfy | internal/api/reconciliation_matcher.go | matching executions against broker fills |
| VolumeProfile.dfy, ValueAreaPeak.dfy | internal/analytics/volume_profile.go | volume profile, value area, VWAP |
| ServiceOrder.dfy | scripts/orchestrate.py | start order of services |
| CandleCache.dfy | internal/api/candle_cache.go | LRU cache of candle loads |
| Resampler.dfy | scripts/stooq_resample.py | streaming OHLC resampling |
| ProgressStore.dfy, BatchReports.dfy | internal/api/progress_store.go | progress of matrix batches, and polling it |
| CapitalPool.dfy, PoolLaws.dfy | internal/backtest/capital_pool_sim.go | simulated capital pool |
| AuditQuery.dfy | internal/audit/logger.go | audit log query builder |
| SyntheticBars.dfy, SyntheticCoverage.dfy | scripts/stooq_synthetic.py | layout of synthetic bars |
| Cvd.dfy, DataPipeline.dfy | internal/analytics/cvd.go, internal/monitor/datapipeline.go | delta bars, their running sum, and their feeder |
| LoginThrottle.dfy | internal/api/auth_handler.go | blocking of repeated failed logins |
| Decimal.dfy, Common.dfy | | numerals; what the models share |

`dafny verify dfyconfig.toml` checks everything.

## Conventions

- `float64` and Python floats are `real`; prices of type `types.Price` are their raw integers.
- `math.Sqrt` is a parameter known by its defining property (the non-negative root of a
  non-negative number); the clock, the database's answers, the runners' signals and the generated
  price paths are parameters too.
- Go ranges over a map in any order: such a loop picks any remaining key, and what is proved holds
  for every order.  `sort.Slice` is not stable: what is proved of the value area holds for every
  ranking, equal bins in any order.
- A Go panic is an answer: an out-parameter says whether the call panics, and the contract what it
  leaves behind.
- A method that holds its object's mutex throughout is one atomic step.  The two cached loaders do
  not hold it over the database call; their interleavings are modelled in `CandleLoads`.

## Where the code differs from what one would expect

The models follow the code; each of these has a lemma or a contract, with the exact condition where there is one.

- Strategy ids with ':' can share a pair key, and then the maps a check leaves and the events it
  reports can depend on map iteration order (`ClashingIdsOrderMatters`,
  `ClashingReportsOrderMatters`; exactly when, `PairKeyCollision`, `OrderIndependenceExact`,
  `ReportsOrderExact`, `ReportsOrderOfTwo`).
- Two zero prices are a price discrepancy, since 0/0 compares false; times 2^63 ns apart count as
  close when the execution is the earlier one, since the saturated difference does not negate
  (`PriceAgreesExact`, `TimesCloseExact`).
- Which executions are left over depends on the order of the lists (`HalfIsTight`,
  `GreedyAlwaysBestExactly`).
- The point of control can lie outside the value area (`PeakOutsideArea`; exactly when,
  `PeakInsideExactly`).
- A failed combo is counted in `Failed` and in `Completed`, and both count towards the total, so
  a batch can be reported completed with combos open (`OneFailureClosesBatchOfTwo`,
  `StatusTellsCompletion`, `FinishedOnceReportedRightly`).
- A cancelled batch need not stay cancelled: the next update that takes effect with finishes and
  errors adding up to the total makes it completed (`CancelSticksExactly`,
  `CancelledThenFinished`, `ErrorFreeCancelSticks`).
- Every drain of the data pipeline feeds all kept completed bars to the CVD tracker again, so its
  value is off the net volume by the deltas of all bars fed again (`ValueOff`, `CountedTwice`).
  It is the net volume after every drain exactly when at each drain those deltas sum to 0; until
  bars are truncated, exactly when the deltas of all completed bars sum to 0 before each drain
  (`RightThroughoutExactly`, `RightUntruncatedExactly`, `ValueIsNetVolumeExactly`).
- The candle key drops the time of day, and does not tell the plain loader from the timeframe
  loader with an empty timeframe (`KeysAgreeExactly`, `CollisionExactly`).
- The capital pool books quantity times price but a fill takes back the bare quantity
  (`FillUndoesBooking`).
- With a dependency cycle the start order still lists every service once, but cannot put all
  dependencies first (`ResolveServiceOrder`).

## Model

| member | source | states |
|---|---|---|
| Pearson.ReturnsFromEquity | internal/backtest/correlation_tracker.go:222-233 | the loop computes the period returns; a non-positive base leaves 0 in its slot |
| Pearson.RunningSums | internal/backtest/correlation_tracker.go:200-207 | the five running sums are the sums and dot products of the two series |
| Pearson.ComputePearson | internal/backtest/correlation_tracker.go:182-220 | the one-pass computation yields Pearson's coefficient of the latest returns common to both histories, each return the growth from one equity to the next and 0 after a base that is not positive, about their means; 0 for fewer than two of them or a root below 10^-12; always a number in [-1, 1] |
| Pearson.CorrelationIsPearson | internal/backtest/correlation_tracker.go:182-233 | that this is what the running sums amount to, for any two histories |
| Pearson.CovarianceCentred | internal/backtest/correlation_tracker.go:209-210 | n times the sum of products less the product of sums is n times the sum of the products of the deviations from the means |
| Pearson.OlderPartIgnored | internal/backtest/correlation_tracker.go:197-198 | of histories of different lengths the older part of the longer one does not count |
| Pearson.VarianceNonNegative | internal/backtest/correlation_tracker.go:209-210 | n times the sum of squares is at least the squared sum, so the root is never taken of a negative number |
| Pearson.CauchySchwarz | internal/backtest/correlation_tracker.go:209-210 | the squared numerator is at most the product under the root, for all pairs of series |
| Pearson.CoefficientBounded | internal/backtest/correlation_tracker.go:209-219 | the quotient with its degenerate case lies in [-1, 1] |
| Pearson.CorrelationBounded | internal/backtest/correlation_tracker.go:182-220 | the same for histories of any two lengths |
| Pearson.CorrelationSymmetric | internal/backtest/correlation_tracker.go:182-220 | swapping the two curves changes nothing |
| Pearson.CorrelationScaleInvariant | internal/backtest/correlation_tracker.go:182-233 | multiplying either curve by a positive constant changes nothing |
| Pearson.SelfCorrelation | internal/backtest/correlation_tracker.go:182-220 | a curve against a rescaled copy of itself has correlation exactly 1, or 0 exactly when its returns are too few or too uniform |
| PairBrake.BrakeIsTimer | internal/backtest/correlation_tracker.go:87-107 | over any run of checks, whatever the settings at each, the brake counter is what the last trigger set, less the checks since |
| PairBrake.BrakeLifetime | internal/backtest/correlation_tracker.go:87-107 | a pair triggered with duration d is braked for exactly the next d - 1 trigger-free checks, and is reported released at the d-th and at no other |
| PairBrake.CooldownIsTimer | internal/backtest/correlation_tracker.go:109-125 | the cooldown counter counts the checks since the last velocity brake |
| PairBrake.VelocityBrakesSpaced | internal/backtest/correlation_tracker.go:109-125 | in every run the next velocity brake of a pair comes at least as many checks later as the cooldown set with the first; after a negative setting it never comes |
| PairBrake.CooldownExpires | internal/backtest/correlation_tracker.go:109-125 | the spacing is tight: `cooldown` checks later the counter is 0 again |
| PairBrake.TriggersExactly | internal/backtest/correlation_tracker.go:87-125 | read off the readings alone: a check triggers exactly when its correlation is above the threshold, or is off the one before, if that is not 0, by more than the velocity threshold up or down with every earlier such jump at least its cooldown of checks ago |
| PairBrake.BrakeSetExactly | internal/backtest/correlation_tracker.go:87-126 | one check in the fields: what it sets the two counters to and which of the three events it reports |
| PairKeys.LessTotal | internal/backtest/correlation_tracker.go:235-240 | the byte order behind the key is total and strict |
| PairKeys.PairKeySymmetric | internal/backtest/correlation_tracker.go:235-240 | the key does not depend on the order of the two ids |
| PairKeys.PairKeyCollision | internal/backtest/correlation_tracker.go:235-240 | two pairs share a key exactly when they are the same pair or one smaller id runs past a ':' of the other key |
| PairKeys.ColonFreeIdsDoNotClash | internal/backtest/correlation_tracker.go:235-240 | without ':' in ids every unordered pair has its own key |
| PairKeys.ColonClashExample | internal/backtest/correlation_tracker.go:235-240 | (a, b:c) and (a:b, c) share a key |
| PairSweep.VisitsEachPairOnce | internal/backtest/correlation_tracker.go:74-76 | the double loop visits every unordered pair of ids exactly once and no other |
| PairSweep.FinalEntry | internal/backtest/correlation_tracker.go:74-130 | after a sweep an entry is its start advanced once per pair that carries its key |
| PairSweep.SweepReportsPairs | internal/backtest/correlation_tracker.go:74-130 | a sweep reports the correlation of each of its pairs, in their order, and every event it reports is about one of them and carries its correlation |
| PairSweep.BookOrderIndependent | internal/backtest/correlation_tracker.go:66-133 | brakes, cooldowns and stored correlations do not depend on the order the ids are listed in, if pairs sharing a key measure the same |
| PairSweep.LastWriterWins | internal/backtest/correlation_tracker.go:126-128 | the last pair carrying a key decides its stored correlation |
| PairSweep.OrderIndependenceExact | internal/backtest/correlation_tracker.go:66-133 | the three maps come out the same for every listing if and only if no two pairs that share a key measure different correlations |
| PairReports.ReportCounts | internal/backtest/correlation_tracker.go:74-130 | each event and correlation is reported as often as the pair it is about reports it in the state the pair is checked in |
| PairReports.ReportsOrderIndependent | internal/backtest/correlation_tracker.go:66-133 | without key clashes two listings give the same maps and, as multisets up to swapping A and B, the same breach events and reported correlations |
| PairReports.ReportsOrderExact | internal/backtest/correlation_tracker.go:66-133 | with clashes too: the reports are the same for every listing if and only if every pair reports in every listing what it would report if checked first |
| PairReports.ReportsOrderOfTwo | internal/backtest/correlation_tracker.go:66-133 | where no three pairs share a key: if and only if no pair's report, from the state before the check, changes when its sharer is checked first |
| PairSweep.ClashingIdsOrderMatters | internal/backtest/correlation_tracker.go:66-133 | with clashing ids the maps really can depend on the listing |
| PairReports.ClashingReportsOrderMatters | internal/backtest/correlation_tracker.go:66-133 | and so can the reports: one of the four clashing ids' pairs is reported as braked only when it is checked after another |
| PairRuns.CheckAdvancesPair | internal/backtest/correlation_tracker.go:74-130 | a check advances each pair whose ids are both active by its own correlation, whatever the other pairs do, and leaves every other pair as it was |
| PairRuns.PairRunsAlone | internal/backtest/correlation_tracker.go:66-133 | over any run of checks, whatever ids are active and whatever the settings at each, a pair behaves as the single-pair machine fed with the checks that see it |
| PairRuns.BrakeOnExactly | internal/backtest/correlation_tracker.go:66-139 | over any such run the tracker holds a brake on a pair exactly while fewer checks than the duration set have seen the pair since the last that triggered it |
| CorrelationTracking.CorrelationTracker.constructor | internal/backtest/correlation_tracker.go:21-33 | empty maps, brake duration 10, velocity threshold 0.3, cooldown 3 |
| CorrelationTracking.CorrelationTracker.SetVelocityBrakeParams | internal/backtest/correlation_tracker.go:35-38 | only the two velocity settings change |
| CorrelationTracking.CorrelationTracker.RecordEquity | internal/backtest/correlation_tracker.go:40-50 | the log of an id grows by the value, and the stored history remains the last `window` values ever recorded; with a negative window it panics and changes nothing |
| CorrelationTracking.WindowSlides | internal/backtest/correlation_tracker.go:44-49 | truncating after each append keeps exactly the last `window` of everything recorded |
| CorrelationTracking.LastAt | internal/backtest/correlation_tracker.go:44-49 | the stored history ends as the log of everything recorded does |
| CorrelationTracking.CorrelationTracker.ActiveIDs | internal/backtest/correlation_tracker.go:172-180 | some listing without repetition of the ids with at least two equities |
| CorrelationTracking.CorrelationTracker.ComputePearson | internal/backtest/correlation_tracker.go:182-220 | the correlation of the two stored histories, within [-1, 1] |
| CorrelationTracking.CorrelationTracker.CheckCorrelations | internal/backtest/correlation_tracker.go:66-133 | the in-place double loop leaves the maps and reports of the sweep over the pairs of some listing of the active ids |
| CorrelationTracking.CorrelationTracker.CheckPairInPlace | internal/backtest/correlation_tracker.go:76-128 | one loop body moves the pair's entries one step of the brake machine, touches no other key and reports that step's events |
| CorrelationTracking.CorrelationTracker.ApplyThreshold | internal/backtest/correlation_tracker.go:87-107 | threshold brake, countdown and release |
| CorrelationTracking.CorrelationTracker.ApplyVelocity | internal/backtest/correlation_tracker.go:109-125 | velocity brake and cooldown |
| CorrelationTracking.StepInParts | internal/backtest/correlation_tracker.go:87-126 | the two halves of the loop body, one after the other, are one step of the brake machine |
| CorrelationTracking.CorrelationTracker.PairMatrix | internal/backtest/correlation_tracker.go:148-170 | every active id has a row, unless it is alone, holding its correlation with every other active id; the matrix is symmetric and holds nothing else |
| Reconciliation.TimesCloseExact | internal/api/reconciliation_matcher.go:110-119 | times are close when unset, at most a second apart, or so far apart that the saturated difference does not negate |
| Reconciliation.PriceAgreesExact | internal/api/reconciliation_matcher.go:55-57 | in integers: prices agree when they differ by at most 1/2000 of the larger and are not both 0 |
| Reconciliation.GreedyIsMaximalMatching | internal/api/reconciliation_matcher.go:31-79 | each execution gets at most one fill and vice versa, every pair is compatible, and no leftover execution is compatible with a leftover fill |
| Reconciliation.MaximalIsHalf | internal/api/reconciliation_matcher.go:31-79 | no compatible matching pairs more than twice as many as a maximal one |
| Reconciliation.GreedyIsHalf | internal/api/reconciliation_matcher.go:31-79 | so the greedy pass finds at least half of the best matching, on every input |
| Reconciliation.HalfIsTight | internal/api/reconciliation_matcher.go:94-103 | with a wildcard symbol the pass can find only one of two possible pairs |
| Reconciliation.MaximalIsBest | internal/api/reconciliation_matcher.go:31-79 | an input easy to recognise: when executions that share a compatible fill have all their compatible fills in common, a maximal matching is a largest one |
| Reconciliation.GreedyIsBest | internal/api/reconciliation_matcher.go:31-79 | on such inputs the greedy pass is optimal; the exact condition is that of `GreedyAlwaysBestExactly` |
| Matchings.TightIsMatched | internal/api/reconciliation_matcher.go:31-79 | an execution some of whose fills have no more executions than they are is in every maximal matching |
| Matchings.LooseIsLeftOut | internal/api/reconciliation_matcher.go:31-79 | any other is left out by some maximal matching |
| Matchings.AllMaximalLargestExactly | internal/api/reconciliation_matcher.go:31-79 | every maximal matching is a largest one if and only if nodes of the first kind cover all compatible pairs, exactly one end of each |
| GreedyListings.PairingIsMaximal | internal/api/reconciliation_matcher.go:31-79 | the pass over rearranged lists is a maximal matching of the original ones |
| GreedyListings.ListingOfMaximal | internal/api/reconciliation_matcher.go:31-79 | every maximal matching is what the pass finds under some order of executions and fills |
| GreedyListings.GreedyAlwaysBestExactly | internal/api/reconciliation_matcher.go:31-79 | the pass pairs as many as can be paired whatever the order of executions and fills, if and only if that cover exists |
| Reconciliation.FindFill | internal/api/reconciliation_matcher.go:38-72 | the inner loop stops at the first free compatible fill |
| Reconciliation.MatchReconciliation | internal/api/reconciliation_matcher.go:16-92 | in the fields of executions and fills: the executions in their order each take the first fill no earlier one has taken with symbol and side equal or one of them empty, quantities less than 0.01 apart and close times, and no other; matched and discrepant pairs are these; with extra they add up to the executions, with missing to the fills (the branch without fills leaves missing at 0); discrepancies list in order the pairs whose prices are off, with both prices and their difference in basis points |
| Reconciliation.CompatibleExact | internal/api/reconciliation_matcher.go:94-119 | the four predicates in the fields, integers and saturation included |
| Reconciliation.GreedyTakesFirstFree | internal/api/reconciliation_matcher.go:31-79 | what the pass finds is that pairing, on every input |
| Reconciliation.DiscrepanciesReportOff | internal/api/reconciliation_matcher.go:54-72 | one entry for each pair at prices that are off, showing its prices and basis points |
| Reconciliation.CountUnmatched | internal/api/reconciliation_matcher.go:81-86 | missing counts the fills not marked |
| VolumeProfile.VolumeConserved | internal/analytics/volume_profile.go:60-103 | the level volumes add up to the volume of all samples |
| VolumeProfile.BinHoldsPrice | internal/analytics/volume_profile.go:46-68 | a price lies in the price interval of the bin it is counted in; equal prices are the lower end of bin 0 |
| VolumeProfile.Extremes | internal/analytics/volume_profile.go:35-44 | the least and the greatest price |
| VolumeProfile.CountSample | internal/analytics/volume_profile.go:69-75 | one sample is counted in place into one level and no other |
| VolumeProfile.FillLevels | internal/analytics/volume_profile.go:55-92 | every level holds the volume, and with sides the bought and sold volume and their difference, of exactly the samples of its bin |
| VolumeProfile.TopIsBest | internal/analytics/volume_profile.go:133-157 | exchange argument: no k bins hold more than the first k of any ranking by volume, ties in any order |
| VolumeProfile.FewestBins | internal/analytics/volume_profile.go:129-157 | the value area takes the fewest bins of any selection that reaches the target |
| VolumeProfile.AreaCoversShare | internal/analytics/volume_profile.go:111-167 | with non-negative volumes and a share of at most 1 the range between its ends holds that share |
| VolumeProfile.AreaHasPeak | internal/analytics/volume_profile.go:111-167 | a positive target puts some bin of maximal volume into the value area, and the only one when there is only one |
| ValueAreaPeak.PeakInsideExactly | internal/analytics/volume_profile.go:97-167 | the point of control lies inside the value area under every ranking if and only if the m - 1 peaks tied with it do not reach the target, (m - 1) * V < target; for a target of 0 or less, if and only if it is bin 0 |
| ValueAreaPeak.PeaksTaken | internal/analytics/volume_profile.go:133-157 | peaks that together fall short of the target are all taken, whatever the ranking |
| ValueAreaPeak.PeakLeftOut | internal/analytics/volume_profile.go:133-157 | otherwise some ranking leaves the first peak out |
| ValueAreaPeak.PeakOutsideArea | internal/analytics/volume_profile.go:97-109 | an input that shows it at the 70% the program uses: ten trades of volume 1 at the prices 0, 1, 2, 4, 5, 6, 7, 8, 9 and 12 in 13 bins have a profile whose point of control lies below its value area |
| ValueAreaPeak.TenTradesTallied | internal/analytics/volume_profile.go:46-92 | the levels of that profile are the ones counted from these trades |
| VolumeProfile.RankByVolume | internal/analytics/volume_profile.go:129-135 | all bins, each once, by descending volume |
| VolumeProfile.Accumulate | internal/analytics/volume_profile.go:143-157 | the loop stops at the first prefix of the ranking that reaches the target, and knows its least and greatest bin |
| VolumeProfile.ComputeValueArea | internal/analytics/volume_profile.go:111-167 | the result is the prices of the ends of a value area for this target |
| VolumeProfile.PointOfControl | internal/analytics/volume_profile.go:96-103 | the price of the first maximal bin, 0 when no volume is positive |
| VolumeProfile.ComputeVolumeProfile | internal/analytics/volume_profile.go:30-109 | the whole profile: levels priced within half a raw unit of the middle of their bins, which are equal parts of the range from the least to the greatest price; total, point of control and value area of the samples given |
| VolumeProfile.LevelPriceIsMiddle | internal/analytics/volume_profile.go:55-58 | a level's price is within half a raw unit of the mean of its bin's bounds |
| VolumeProfile.BinSizeIsWidth | internal/analytics/volume_profile.go:46-53 | the bins' width: a numBins-th of the range, of 1% of a single price, or 0.01 |
| VolumeProfile.TradesConserved | internal/analytics/volume_profile.go:60-103 | in every profile the total is the volume given, 1 for a trade without one, and with sides the levels together have bought what was traded on side 1 and sold the rest |
| VolumeProfile.ProfileCoversShare | internal/analytics/volume_profile.go:105-106 | of every profile with non-negative volumes the levels between VAL and VAH hold 70% of the volume |
| VolumeProfile.CalculateVWAP | internal/analytics/volume_profile.go:185-202 | times the total volume it gives back the total value |
| VolumeProfile.VWAPBetweenExtremes | internal/analytics/volume_profile.go:185-202 | with non-negative volumes it lies between any bounds on the prices |
| ServiceOrder.ActiveServices | scripts/orchestrate.py:844 | exactly the enabled, not skipped names, each with the last service given for it |
| ServiceOrder.DictOrderByAppearance | scripts/orchestrate.py:844 | the values that are sorted: every active service once, by first appearance of its name |
| ServiceOrder.SortIsStable | scripts/orchestrate.py:858 | sorted by (optional, port), nothing lost, equal keys in their old order |
| ServiceOrder.Resolver.Visit | scripts/orchestrate.py:848-856 | visits only what the service reaches, leaves the visited services closed under dependencies, and does not disturb what is resolved; takes the dependencies in the order they are listed: before each, only what it and the ones before it need; terminates for every graph, cycles included |
| ServiceOrder.Resolver.VisitDependencies | scripts/orchestrate.py:852-855 | after the loop every active dependency has been visited and, without cycles, resolved |
| ServiceOrder.ClosingEdge | scripts/orchestrate.py:848-856 | meeting a node still on the call stack means a dependency cycle |
| ServiceOrder.TopologicalMeansAcyclic | scripts/orchestrate.py:842-861 | an order with dependencies first exists only without cycles |
| ServiceOrder.ClosedReach | scripts/orchestrate.py:848-856 | a visited set closed under dependencies holds everything it reaches |
| ServiceOrder.VisitedIsNeeded | scripts/orchestrate.py:858-859 | between the visits of the list exactly what the services so far need is resolved |
| ServiceOrder.VisitAll | scripts/orchestrate.py:858-861 | visiting all services resolves each once, by priority, dependencies first if and only if there is no cycle |
| ServiceOrder.ResolveServiceOrder | scripts/orchestrate.py:842-861 | every active service exactly once, every active dependency before its dependents if and only if the active dependencies are acyclic; in every graph a service starts before another only if it is needed by, or is, a service that is not later than that one: required before optional, then the lower port, then the first appearance; without dependencies none starts before an earlier one in this sense |
| ServiceOrder.DictSortNoneLater | scripts/orchestrate.py:844-858 | the sorted values in their fields: required before optional, then by port, then by first appearance |
| ServiceOrder.PriorityInTime | scripts/orchestrate.py:848-861 | visiting them in that order makes every service start in time in this sense |
| CandleKeys.FormatDayInjective | internal/api/candle_cache.go:60 | the day format tells valid dates apart |
| CandleKeys.JoinSymbolsInjective | internal/api/candle_cache.go:61-63 | the trailing commas make the list of comma-free symbols uniquely readable |
| CandleKeys.KeysAgreeExactly | internal/api/candle_cache.go:58-65 | separator-free queries share a key if and only if they agree but for the time of day and the loader that asks |
| CandleKeys.DayAlignedKeysInjective | internal/api/candle_cache.go:58-65 | day-aligned queries with a non-empty timeframe on the timeframe path have keys of their own |
| LruCache.CachingRepoAdapter.Get | internal/api/candle_cache.go:67-75 | returns what is cached and moves it to the front; map and list stay in agreement |
| LruCache.CachingRepoAdapter.Put | internal/api/candle_cache.go:77-95 | overwrites and moves to the front, or pushes and evicts from the back down to the capacity |
| LruCache.CachingRepoAdapter.Trim | internal/api/candle_cache.go:87-94 | eviction keeps the first `cap` entries, and the map in agreement |
| LruCache.CachingRepoAdapter.MoveToFront | internal/api/candle_cache.go:71 | the entry moves to the front, all others keep their order |
| LruCache.CachingRepoAdapter.LoadCandlesFiltered | internal/api/candle_cache.go:97-108 | a load changes the contents as one LRU use of its key, or not at all when the database fails |
| LruCache.CachingRepoAdapter.LoadCandlesTFFiltered | internal/api/candle_cache.go:110-121 | likewise for the timeframe path |
| LruOrder.RecentIsLruOrder | internal/api/candle_cache.go:31-42 | the reference order: the used keys, each once, by time of last use |
| LruOrder.CacheIsLruOrder | internal/api/candle_cache.go:67-121 | after any run of loads the cache is exactly the first `cap` keys of that order; failed loads leave no trace |
| LruOrder.LargerCacheHoldsMore | internal/api/candle_cache.go:67-121 | under the same requests a larger cache holds every key a smaller one holds, even when loads fail |
| CandleLoads.RunsAreSound | internal/api/candle_cache.go:97-121 | under any interleaving of atomic get and put steps, all that is cached or returned is the database's answer, when queries sharing a key share their answer |
| CandleLoads.TransparentExactly | internal/api/candle_cache.go:97-121 | the cache is invisible to all interleavings if and only if queries sharing a key share their answer |
| CandleLoads.DayAlignedLoadsTransparent | internal/api/candle_cache.go:58-121 | for day-aligned separable queries every cached load returns what the uncached load would |
| CandleLoads.CollisionExactly | internal/api/candle_cache.go:58-121 | over any set of queries the cache is invisible whatever the database answers if and only if each query has a key of its own; for separable queries, if and only if no two agree up to the time of day and the loader |
| Resampler.FlushGroup | scripts/stooq_resample.py:125-151 | a non-empty group is appended as one aggregated, labelled row |
| Resampler.ResampleAndInsert | scripts/stooq_resample.py:65-122 | for any batch size the streaming pass inserts exactly the reference resampling, in order; a dry run inserts nothing and counts the same; on rows ordered by symbol bar i of each symbol opens with its row i * k and closes with the last of the k from there on, or as many as are left, spans their prices and carries their volume |
| Resampler.ResampledBars | scripts/stooq_resample.py:65-155 | that the reference resampling is this, bar by bar |
| Resampler.ChunkIsSummary | scripts/stooq_resample.py:126-155 | chunk i exists exactly if there are more than i * k bars, and summarises those from there on |
| Resampler.ResampleIsGroupBy | scripts/stooq_resample.py:95-115 | on rows ordered by symbol the output is, for each symbol, its bars cut into chunks and aggregated |
| Resampler.ResampleKeepsOrder | scripts/stooq_resample.py:95-115 | the output is ordered by symbol again |
| Resampler.VolumeConserved | scripts/stooq_resample.py:138-148 | each symbol's volume is conserved |
| Resampler.ResampleConsistent | scripts/stooq_resample.py:134-147 | low <= open, close <= high is kept |
| Resampler.OutputKeysDistinct | scripts/stooq_resample.py:140-143 | ascending (symbol, time) keys stay ascending, so the upsert never overwrites a row of its own run |
| Resampler.ChunksCompose | scripts/stooq_resample.py:38-42 | chunks of b of chunks of a are chunks of a * b, partial tails included |
| Resampler.ResampleCompose | scripts/stooq_resample.py:38-42 | resampling by 3 and then by 2 is resampling by 6, for all factors and all rows |
| MatrixProgressModel.CompletedCountsTerminals | internal/api/progress_store.go:123-192 | over every run Completed is the number of completed or failed combos plus the updates that took a finished combo back |
| BatchReports.RunAgrees | internal/api/progress_store.go:123-192 | the counters of any run read off its updates: errors, first finishes, and the status last given to each combo, by an update or a cancel |
| BatchReports.FinishesAndOpen | internal/api/progress_store.go:155-158 | finishes and open combos are together at least all combos, and exactly as many when no combo is sent back |
| BatchReports.StatusTellsCompletion | internal/api/progress_store.go:123-270 | over every run of updates and cancels the status tells throughout whether all combos have finished, if and only if after no update that takes effect the errors have made up for open combos and no cancel comes when all have finished |
| BatchReports.MakingUpIsCounting | internal/api/progress_store.go:155-185 | when no combo is sent back that means at least as many errors as open combos |
| BatchReports.FinishedOnceReportedRightly | internal/api/progress_store.go:123-270 | a run that finishes every combo once is reported rightly throughout if and only if no update of a combo before the one that finishes the last carries an error and no cancel comes after that one |
| BatchReports.RunStatus | internal/api/progress_store.go:123-270 | the batch status after any run: that of the last cancel or of the last update that took effect with the total reached, whichever came later; running without either |
| BatchReports.CancelSticksExactly | internal/api/progress_store.go:181-185 | a cancelled batch stays cancelled if and only if no later update takes effect with finishes and errors adding up to the total; otherwise it is completed |
| BatchReports.CancelledThenFinished | internal/api/progress_store.go:155-185 | a batch cancelled with a combo open is reported completed once all its combos have finished after all |
| BatchReports.ErrorFreeCancelSticks | internal/api/progress_store.go:155-185 | without errors and without sending a combo back, its cancel sticks if and only if a combo stays open |
| BatchReports.PollerToldExactly | internal/api/progress_store.go:200-212 | a poller is told that a batch is over exactly when it has been cancelled or an update has taken effect with the total reached |
| MatrixProgressModel.OneFailureClosesBatchOfTwo | internal/api/progress_store.go:130-185 | one failure in a batch of two closes it with a combo still pending |
| MatrixProgressModel.OrderlyRunsHealthy | internal/api/progress_store.go:123-192 | in runs without errors and backward steps Completed and Running count the combos and the status is completed exactly when all are finished |
| MatrixProgressModel.ReplayChangesNoCounter | internal/api/progress_store.go:136-154 | a repeated final update without an error changes no counter |
| MatrixProgressModel.ReplacedAt | internal/api/progress_store.go:138-147 | the first result with the symbol, strategy and timeframe is replaced where it stands, if there is one |
| MatrixProgressModel.ApplyKeepsSequence | internal/api/progress_store.go:136-174 | NextSeq stays the number of results, and result keys are only appended |
| MatrixProgressModel.RecoveryRoundTrip | internal/api/progress_store.go:107-115 | a batch restored from its record is the batch recorded, if and only if NextSeq counted its results |
| MatrixProgressModel.PollerSeesEverythingOnce | internal/api/progress_store.go:200-212 | a poller feeding back the returned sequence number gets every result key once and in order, whatever happens between polls |
| MatrixProgressModel.ApplyKeepsMetrics | internal/api/progress_store.go:136-174 | a step keeps the totals those of the results held, if replacements keep metrics |
| MatrixProgressModel.RunKeepsMetrics | internal/api/progress_store.go:136-174 | over such runs Passed, trades and best Sharpe ratio are the count, the sum and max(0, maximum) over the results |
| MatrixProgressModel.RunNamesBest | internal/api/progress_store.go:169-173 | over such runs the best strategy and symbol are those of the first result with the best ratio, and empty while none is above 0 |
| MatrixProgressModel.GeneratedRunID | internal/api/progress_store.go:160-164 | a result without a run id gets the batch's id, a hyphen and the numeral of its number; one with an id is kept |
| ProgressStores.MatrixProgress.Update | internal/api/progress_store.go:130-185 | the in-place update of one batch is the step these laws are about |
| ProgressStores.MatrixProgress.ReplaceResult | internal/api/progress_store.go:138-147 | the first result of the same key is overwritten, no other |
| ProgressStores.MatrixProgress.AddResult | internal/api/progress_store.go:159-174 | a result is appended, numbered and folded into the totals |
| ProgressStores.ProgressStore.Create | internal/api/progress_store.go:75-92 | a fresh running batch; all other batches unchanged |
| ProgressStores.ProgressStore.UpdateCombo | internal/api/progress_store.go:123-192 | changes the named batch only; an unknown batch or too large an index changes nothing, a negative index panics and changes nothing |
| ProgressStores.ProgressStore.GetSince | internal/api/progress_store.go:200-212 | the results from the given number on, the next number and whether the batch is over; a negative number panics |
| ProgressStores.ProgressStore.Cancel | internal/api/progress_store.go:254-270 | pending and running combos and the batch become cancelled; nothing else changes |
| ProgressStores.ProgressStore.Recover | internal/api/progress_store.go:272-304 | recorded batches not in memory are restored, the first of an id winning |
| ProgressStores.RecoveryKeepsSequence | internal/api/progress_store.go:283-301 | recovery leaves batches in memory alone and numbers every batch right |
| CapitalPool.CapitalPoolSim.constructor | internal/backtest/capital_pool_sim.go:34-41 | a running pool without strategies, at its peak |
| CapitalPool.CapitalPoolSim.AddStrategy | internal/backtest/capital_pool_sim.go:43-51 | a strategy without positions is added or replaced; the pool stays safe |
| CapitalPool.CapitalPoolSim.CountOpen | internal/backtest/capital_pool_sim.go:86-89 | the loop counts the open legs of all strategies |
| CapitalPool.CapitalPoolSim.EvaluateAll | internal/backtest/capital_pool_sim.go:53-131 | nothing is issued when halted or past the daily loss limit (which halts at the first signal); otherwise exactly the issued signals are booked, each passed its gates, and one that passes them is dropped only when all positions are taken; the pool stays safe |
| CapitalPool.CapitalPoolSim.EvaluateOne | internal/backtest/capital_pool_sim.go:61-127 | the loop body for one signal |
| CapitalPool.CapitalPoolSim.RecordFill | internal/backtest/capital_pool_sim.go:133-162 | the fill reduces or closes its leg, never drives the allocation below 0, moves balance and peaks and may halt; the pool stays safe |
| CapitalPool.CapitalPoolSim.RequestCapital | internal/backtest/capital_pool_sim.go:176-220 | never approves more than asked; nothing when halted, without capital or with all positions taken; half when the side is held already; else the least of what is asked, the position share and a quarter of the balance |
| CapitalPool.IssueKeepsSafe | internal/backtest/capital_pool_sim.go:86-125 | below the limit a booking of a positive quantity keeps all strategies together within the position limit, legs positive and allocations non-negative |
| CapitalPool.FillKeepsSafe | internal/backtest/capital_pool_sim.go:139-155 | a fill of a non-negative quantity keeps the same |
| CapitalPool.NewStrategySafe | internal/backtest/capital_pool_sim.go:43-51 | adding or replacing a strategy keeps the same |
| CapitalPool.FillUndoesBooking | internal/backtest/capital_pool_sim.go:118-155 | a fill of the booked quantity restores the positions; it restores the allocation if and only if the price is 1, or below 1 with nothing allocated |
| PoolLaws.GatesExactly | internal/backtest/capital_pool_sim.go:76-116 | a strategy's own gates, in balances and percentages: no more than half the permitted drawdown below its peak, and the position share of the balance, as a whole and scaled by regime and opposing leg, covers one unit; with the source's answers at prices of 0 and below |
| PoolLaws.DefaultGates | internal/backtest/capital_pool_sim.go:70-73 | the same with the limits that hold without a profile |
| PoolLaws.IssuedExactly | internal/backtest/capital_pool_sim.go:90-125 | an issued signal asks for 99.8% of the quantity; that, and its cost, is what is booked |
| PoolLaws.FilledExactly | internal/backtest/capital_pool_sim.go:139-155 | a fill lowers allocation and position to no less than 0, closes the position at 0 and touches no other |
| PoolLaws.PoolAfterFills | internal/backtest/capital_pool_sim.go:157-161 | over every run of fills the balance is the start plus all results, the peak the highest it stood at, the day's percentage that of the start, and the pool has halted exactly if after some fill the balance was off its highest so far by more than the limit |
| AuditQuery.Itoa | internal/audit/logger.go:162-173 | the decimal numeral, and the empty text for negative numbers |
| Decimal.ValueOfDigits | internal/audit/logger.go:162-173 | reading the numeral gives the number back |
| AuditQuery.ParseOfRender | internal/audit/logger.go:97-135 | every statement is read back from its text |
| AuditQuery.ClausesMatch | internal/audit/logger.go:101-125 | the clauses with their arguments hold of a row if and only if the filter describes it |
| AuditQuery.QueryMeansFilter | internal/audit/logger.go:97-137 | text and arguments, read as a statement and run on any table, return exactly what the filter describes, newest first and limited, 200 by default |
| AuditQuery.BuildQuery | internal/audit/logger.go:97-135 | the text built step by step has placeholders numbered $1.. in the order of its arguments, contains no filter value, and means the filter |
| SyntheticBars.RoundMonotone | scripts/stooq_synthetic.py:343-346 | rounding half to even keeps order |
| SyntheticBars.BarOrdered | scripts/stooq_synthetic.py:343-346 | each bar's rounded open and close lie between its rounded low and high |
| SyntheticBars.SegmentNotEmpty | scripts/stooq_synthetic.py:340-342 | no segment of any target is empty, the last 1h one being half as long |
| SyntheticBars.DayVolume | scripts/stooq_synthetic.py:346 | a day's bar volumes add up to within half the bar count of the daily volume |
| SyntheticBars.DayEnds | scripts/stooq_synthetic.py:340-346 | the first bar opens and the last closes where the path does |
| SyntheticBars.DayRange | scripts/stooq_synthetic.py:340-346 | the bars' extremes are exactly the path's: no minute is dropped |
| SyntheticBars.TimesOfDay | scripts/stooq_synthetic.py:339-343 | bars of a day have distinct times on that day |
| SyntheticBars.KeepsFirstOfEachDate | scripts/stooq_synthetic.py:319-327 | every date is kept exactly once, by its first bar, in order |
| SyntheticBars.Deduplicate | scripts/stooq_synthetic.py:319-327 | the loop with its set of seen dates keeps those |
| SyntheticBars.AllBarsLayout | scripts/stooq_synthetic.py:355-371 | the bars of a target have distinct times, are ordered and lie on the days before the end |
| SyntheticBars.GenerateTarget | scripts/stooq_synthetic.py:353-371 | the nested loops produce one bar per segment, day after day |
| SyntheticBars.GenerateForSymbol | scripts/stooq_synthetic.py:315-376 | whatever the daily rows and the drawn paths, the (timeframe, time) keys of all rows are distinct and all bars are ordered |
| SyntheticCoverage.RowsAreCut | scripts/stooq_synthetic.py:329-376 | the rows of each timeframe are exactly its bars, seven of 1h, 78 of 5m, 26 of 15m or 13 of 30m, on the kept days before the end of its tier, each starting its minutes after 13:30 of the date, showing its own minutes of that day's path and an equal share of the volume |
| SyntheticCoverage.BarIsBar | scripts/stooq_synthetic.py:339-346 | one bar: its time, its four prices within half a unit and its volume |
| Cvd.DeltaAccumulator.AddTick | internal/analytics/cvd.go:77-108 | the bars always partition the tick history, each carrying the volumes and prices of its ticks, all of which lie in the interval from its time, a multiple of the duration, on; the kept bars are a suffix of all bars; a bar is completed exactly by a tick of another interval |
| Cvd.DeltaAccumulator.StartBar | internal/analytics/cvd.go:82-88 | a new interval completes the current bar, keeping at most 10000 and then the last 5000 |
| Cvd.DeltaAccumulator.CountTick | internal/analytics/cvd.go:90-107 | one tick is counted into the current bar |
| Cvd.CountedDescribes | internal/analytics/cvd.go:90-107 | counting a tick keeps a bar the description of its ticks |
| Cvd.BarOrdered | internal/analytics/cvd.go:90-99 | for positive prices low <= open, close <= high |
| Cvd.CVDTracker.AddBar | internal/analytics/cvd.go:139-155 | the last value is the sum of all deltas ever added, and the kept points are a suffix of the full running sum, despite truncation |
| Cvd.PointAt | internal/analytics/cvd.go:139-155 | point i of the full running sum has the time and delta of bar i and the sum of all deltas up to it |
| Cvd.CVDTracker.GetHistory | internal/analytics/cvd.go:157-167 | the last `limit` of the kept points, a panic for a negative limit |
| Cvd.DeltasAreNetVolume | internal/analytics/cvd.go:101-106 | deltas of bars add up to the bought minus the sold volume of the ticks they describe |
| Cvd.CvdIsNetVolume | internal/analytics/cvd.go:77-155 | accumulator and tracker together: once every completed bar has been added, each once and in order, the last value is the bought minus the sold volume of all ticks but those of the current bar, despite both truncations |
| DataPipelines.DataPipeline.constructor | internal/monitor/datapipeline.go:24-33 | nothing counted and nothing fed |
| DataPipelines.DataPipeline.DrainAndBroadcast | internal/monitor/datapipeline.go:49-96 | takes up to 1000 ticks, in order, and then feeds every completed bar still kept |
| DataPipelines.DataPipeline.DrainTicks | internal/monitor/datapipeline.go:53-76 | the first loop |
| DataPipelines.DataPipeline.FeedCompleted | internal/monitor/datapipeline.go:78-95 | the second loop |
| DataPipelines.FedOnceExactly | internal/monitor/datapipeline.go:49-96 | over every run of drains each completed bar is fed exactly once, in order, if and only if no bar had been completed before the last drain |
| DataPipelines.DrainError | internal/monitor/datapipeline.go:49-96 | one drain moves the value off the sum of all deltas by the deltas of the bars it feeds again, truncation or not |
| DataPipelines.StaysRightExactly | internal/monitor/datapipeline.go:49-96 | without truncation a right value is right after the drain if and only if the deltas of the bars completed before it sum to 0 |
| DataPipelines.IdleDrainAddsAgain | internal/monitor/datapipeline.go:78-80 | in particular a drain without ticks changes no bar and adds the deltas of all kept bars to the value once more |
| DataPipelines.ValueOff | internal/monitor/datapipeline.go:49-96 | after any run of drains the value is off by the deltas of all bars fed again, each as often as it was |
| DataPipelines.RightThroughoutExactly | internal/monitor/datapipeline.go:49-96 | over every run of drains the value is right after each if and only if at each the deltas of the bars it feeds again sum to 0 |
| DataPipelines.RightUntruncatedExactly | internal/monitor/datapipeline.go:49-96 | as long as no more bars are completed than are kept: if and only if before each drain the deltas of all completed bars sum to 0 |
| DataPipelines.ValueIsNetVolumeExactly | internal/monitor/datapipeline.go:78-80 | the last point of the tracker is the sum of all deltas fed, and is the bought minus the sold volume of the ticks in completed bars if and only if it is right in this sense |
| DataPipelines.CountedTwice | internal/monitor/datapipeline.go:78-80 | a run in which it is wrong: one bar of volume v, completed by the second drain, makes the value 2v at the third; after the second it was right although a bar of delta 0 had been fed twice |
| LoginThrottle.AuthHandler.IsLoginBlocked | internal/api/auth_handler.go:495-508 | answers whether a block is in force and forgets one that has run out |
| LoginThrottle.AuthHandler.RecordFailedLogin | internal/api/auth_handler.go:510-517 | counts the failure; from the fifth on it blocks for 15 minutes |
| LoginThrottle.AuthHandler.ClearFailedLogins | internal/api/auth_handler.go:519-524 | forgets both count and block |
| LoginThrottle.AuthHandler.CleanupTick | internal/api/auth_handler.go:530-538 | forgets exactly the users whose block has run out, whatever the order of the map |
| LoginThrottle.AuthHandler.Login | internal/api/auth_handler.go:146-194 | the order of asking, failing and clearing for each way a login can end |
| LoginThrottle.RunsStayTidier | internal/api/auth_handler.go:526-540 | a run with cleanup ticks differs from one without only in blocks that have run out |
| LoginThrottle.CleanupIsInvisible | internal/api/auth_handler.go:526-540 | inserting cleanup ticks anywhere changes no login decision |
| LoginThrottle.RunMirrors | internal/api/auth_handler.go:495-540 | after every run the two maps count, and block for, exactly the failures that no success and no expired block has cleared |
| LoginThrottle.RejectedExactly | internal/api/auth_handler.go:146-194 | a login is rejected exactly when five wrong passwords that were looked at have not been followed by a success or the end of a block, and less than 15 minutes have passed since the last of them, whatever the clock |

## Left out

- Rounding, overflow, NaN and infinities of floating point; NaN is modelled only where two zero prices or a zero candle price produce it.
- Integer overflow of counters, and of the instants the resampler, login throttle and CVD compare.
- CorrelationTracking.CorrelationTracker.RecordEquity: the array shared by a stored slice and its successor is not modelled; no caller can see it.
- ValueAreaPeak.PeakOutsideArea: the ranking is one `sort.Slice` is free to leave; which one a release of Go leaves is not modelled.
- VolumeProfile.RankByVolume: an insertion by volume stands for `sort.Slice`; only that the result is a ranking is used of it.
- `ComputePOC` and `ComputeValueArea` of the volume profile, thin wrappers; the latter ignores its areaPct argument. `RangeStart` and `RangeEnd` are never set. The index the value area computes and discards is not modelled.
- ServiceOrder.Resolver.Visit: Python's recursion limit is not modelled.
- LruCache.CachingRepoAdapter.Put: the linked list is a sequence of element objects, without its links; the cached slices are shared with callers, who by the source's own comment only read them.
- Resampler.ResampleAndInsert: the cursor is a sequence and the table an appended sequence; ON CONFLICT is covered by distinct keys. NULL volumes, with which the script fails, are not modelled.
- ProgressStores.ProgressStore.UpdateCombo: the run id is written to a copy of the result, where the source also writes it through the caller's reference. Timestamps, broadcasting, background persistence and cleanup do not affect the laws.
- ProgressStores.ProgressStore.Recover: JSON is not modelled, a record carries combos and results as values; a failed query recovers nothing.
- CapitalPool.CapitalPoolSim.EvaluateAll: strategies are values in a map that the methods reassign, where the source holds references; a runner's answer is given beforehand and does not depend on the other runners; signals that share one object between strategies are not modelled. Which of several strategies gets the last free position depends on map order.
- `ResetDaily`, `ApplyCorrelationReduction` and `PerStrategyDrawdown` of the capital pool: easy members.
- AuditQuery.BuildQuery: the SELECT list up to WHERE 1=1 is a parameter, as columns do not bear on which rows return; of SQL only this statement form is modelled, of the result scan nothing.
- SyntheticBars.GenerateForSymbol: the path generator and its seed (any path of 390 prices is allowed), the insertion, and the 4h bars resampled from the inserted 1h bars; times carry one fixed offset, so a date is a whole number of days.
- Cvd.DeltaAccumulator.AddTick: TickClassifier and DivergenceDetector are not modelled.
- DataPipelines.DataPipeline.DrainAndBroadcast: the ring buffer is a sequence, a tick in it already carries the drain's clock reading and its classified side; broadcasts and the divergence detector are not modelled.
- LoginThrottle.AuthHandler.Login: concurrent logins of one user; password hashing, tokens and TOTP are reduced to how a login ends.
- HTTP handlers, WebSocket, SQL execution, migrations, subprocesses, the broker, risk and metrics packages and the web client: plumbing without an invariant of their own.
