# Kor travel transport: verified models

This project models the parts of the travel and parking data service where correctness is hardest to see from one
function: SQL forms that must equal a simple definition, caches that must not lie, cursors that must survive inserts, a
protocol that fences abandoned workers, and the arithmetic of fees, throttles, evictions and merges. Each module models
one component; its main lemmas speak about every input, every run or every interleaving.

| module | component |
|---|---|
| `TimeUtils`, `Sorting`, `Snapshots`, `LruCache`, `Keyset` | Seoul calendar arithmetic, Python's stable sort, snapshot preference and deduplication, the OrderedDict cache, keyset pages and walks over them |
| `TimeSeriesQueries`, `TimeSeriesSweep`, `TimeSeries` | the parking time series computed by a per-bucket query, by a single-scan query and by a two-pointer sweep |
| `OwnerFencing`, `RecoveryScan` | worker sessions, row locks and reapers as one state machine; the keyset scan that recovers abandoned runs |
| `AnalyticsCache` | collectors, refreshes and readers around the analytics cache |
| `HistoryPaging`, `PriceHistory` | cursor walks over the parking history and the fuel price history |
| `TrafficStatistics` | five-minute aggregates merged with raw rows |
| `ExportSnapshots` | frozen export snapshots under repeatable-read transactions |
| `SingleFlight`, `BusThrottle`, `ProviderGuard`, `QuotaLedger` | the statistics cache, the provider throttles and the quota ledger as state machines |
| `FeeCalculator`, `BackupEviction`, `LotMerge`, `ThresholdEvents` | parking fees, backup eviction, lot merging, threshold crossings |

Modelling conventions. Instants are integer microseconds and Asia/Seoul is the fixed offset +09:00. Tables are sequences,
sets or maps of rows; a row lock, an advisory lock or a unique index is a guard of a step. State machines have one event
per statement or per section between two awaits; `After(s, es)` runs any list of events and skips those that cannot be
taken, so a statement about `After` is a statement about every interleaving. Digests, signatures and encodings are taken
as injective. Clocks, the environment's answers and the results of provider calls are parameters.

## Results that differ from the documented intent

- `_fence` reads `lease.revoked` only once, before its loop. A session whose commit has begun when the lease it shares is
  revoked can still commit, whether it has passed its `before_commit` fence or is inside it and all runs left to fence are
  running under its owner. `OwnerFencing.RevokedSessionPublishesIff` gives this exact condition for every phase,
  `LateCommitIsReachable` and `LateCommitInsideFenceIsReachable` give runs. What such a session publishes is still under
  runs it holds locked and running (`CommitsOnlyOwnedRunningRuns`).
- `refresh_scope_analytics_cache` takes no lock. Called on its own, it can be the source of a hit that misses a committed
  row if and only if some row of the scope is uncommitted when it reads the clock
  (`AnalyticsCache.UnlockedRefreshMissesIff`; a run is in `UnlockedRefreshCanMissARow`), and if every unlocked refresh
  begins otherwise, no hit is ever stale (`CleanRefreshesNeverMissARow`). Nothing in the repository calls it.
- `_transport_traffic_statistics_rows` reports rows whose route or direction is the empty string under NULL;
  `TrafficStatistics.MergedReportIsExactIff` and `TransportTrafficStatistics` show that this is the only difference from
  the raw aggregation.
- A history cursor stops working one day after its first request (`HistoryPaging.CursorExpiresAfterADay`).
- `_prune_backups_sync` applies the retention count to protected files too, and its deletions stand when the limit check
  fails afterwards; `BackupEviction.PruneKeepsProtectedIff`, `FailedPruneDeletesNothingIff` and
  `PruneCanLoseProtectedFiles` state exactly when. With a retention count below 1, `create_backup` deletes the backup it has
  just made (`NewBackupSurvives`).
- Crossing events of a threshold that is listed twice do not alternate (`ThresholdEvents.AlternatesIff`).
- A bus cache lifetime below the minimum interval would throttle repeated requests; the settings validator that rules it
  out is needed (`BusThrottle.ShortCacheThrottles`).

## Model

| member | source | states |
|---|---|---|
| TimeUtils.AlignedIsGridStart | backend/app/core/time_utils.py:60-67 | alignment goes back by less than one interval, to a whole local minute divisible by it, and is idempotent |
| TimeUtils.AlignedIsLast | backend/app/core/time_utils.py:60-67 | between the aligned instant and the original one no minute of the local hour is divisible by the interval |
| TimeUtils.NextMidnight | backend/app/core/time_utils.py:25-29 | the next Seoul midnight is later, at most a day away, and exactly the first instant of the next local day |
| Sorting.StableSortSorts | backend/app/services/analytics.py:31-38 | sorting by a key returns a sorted permutation |
| Snapshots.DeduplicateSnapshots | backend/app/services/analytics.py:22-38 | the loop returns, for each lot and time, exactly the row that is live rather than migrated, then collected last, then of the largest id, in order of time and lot |
| Snapshots.ChooseSelects | backend/app/services/analytics.py:26-30 | one round of the selection loop keeps the preferred row of every key seen so far |
| TimeSeriesQueries.LateralChoosesFirst | scripts/diagnose-timeseries-query.py:55-77 | the per-bucket query chooses, for each lot, exactly the row that comes first in the closed window of the bucket |
| TimeSeriesQueries.AssignedIffInWindow | backend/app/main.py:3315-3340 | the ceiling bucket, plus the next one for an observation on the grid, are exactly the buckets whose closed window holds the observation |
| TimeSeriesQueries.SingleScanChoosesFirst | backend/app/main.py:3313-3341 | assignment followed by DISTINCT ON chooses, for each lot and bucket, exactly the row that comes first in the window |
| TimeSeriesQueries.SingleScanEqualsLateral | backend/app/main.py:3307-3363 | the single scan and the per-bucket query choose the same rows in every bucket, for every table and interval |
| TimeSeriesQueries.TotalsReport | backend/app/main.py:3343-3346 | the totals of a bucket are the sums of the three columns over its rows and the number of those rows |
| TimeSeriesSweep.SweepLot | backend/app/services/analytics.py:227-247 | the two-pointer pass adds to each bucket up to the latest instant the lot's fresh reading there, and nothing to the others |
| TimeSeriesSweep.GroupByLot | backend/app/services/analytics.py:187-189 | grouping keeps each lot's rows in order and loses none |
| TimeSeriesSweep.SweepLots | backend/app/services/analytics.py:216-247 | after all lots, each bucket holds the sum over exactly the lots with a fresh reading |
| TimeSeriesSweep.StampPoint | backend/app/services/analytics.py:254-265 | the exact latest point sums the last readings that are no older than the interval |
| TimeSeriesSweep.BuildTimeSeries | backend/app/services/analytics.py:174-273 | the whole function returns the swept grid, with the latest point replaced or inserted in a relative query; in every point up to the latest instant each column is the sum over the last row of every lot in the closed window, and the lots are counted |
| TimeSeriesSweep.TimeSeriesReports | backend/app/services/analytics.py:200-273 | every point of a series sums, column by column, the readings of the lots at its time, whichever pass computed it |
| TimeSeries.LoadedRows | backend/app/services/analytics.py:187-189 | the deduplicated and sorted rows are the preferred rows of the scope, grouped by lot and by time |
| TimeSeries.SweepChoosesFirst | backend/app/services/analytics.py:234-247 | the sweep over deduplicated rows reads, for each lot, exactly the row the queries choose over all rows |
| TimeSeries.SweepEqualsSingleScan | backend/app/main.py:3307-3363 | every bucket of the anchored sweep has the sums and lot counts of the single-scan query |
| TimeSeries.LateralEqualsSingleScan | scripts/diagnose-timeseries-query.py:18-77 | a series answers the per-bucket query if and only if it answers the single-scan query |
| TimeSeries.AnchoredSeries | backend/app/services/analytics.py:174-273 | deduplication followed by the sweep returns the answer of both queries for every list of stored rows: each bucket sums, column by column, the preferred latest stored row of every lot in its closed window, one interval apart up to the aligned anchor |
| TimeSeries.RelativeSeries | backend/app/services/analytics.py:174-273 | a relative query over stored rows: the same sums up to the aligned latest observation, the exact latest point in its place, and empty future buckets, with their numbers and times |
| TimeSeriesSweep.StampRepeatsSweep | backend/app/services/analytics.py:254-268 | when the latest observation lies on the grid, the replacement equals what the sweep computed |
| TimeSeries.RelativeSeriesShape | backend/app/services/analytics.py:200-273 | buckets strictly increase, the latest point stands at or right after the aligned bucket, all later buckets are empty, all earlier ones as swept |
| OwnerFencing.StepKeepsInv | backend/app/dagster/recovery.py:124-195 | every step of every session and reaper keeps what sessions hold and track true, and never changes an ended run |
| OwnerFencing.CommitsOnlyOwnedRunningRuns | backend/app/dagster/recovery.py:124-176 | in every reachable state a session that can commit holds every run it tracks locked, running and under its owner, or has just inserted it |
| OwnerFencing.EndedRunIsFinal | backend/app/dagster/recovery.py:124-195 | once a run has ended, its row never changes and no transaction tracking it commits again |
| OwnerFencing.RecoveryIsFinal | backend/app/dagster/recovery.py:318-341 | after a reaper commits `failed`, the row stays failed and nothing is published under the run |
| OwnerFencing.ReaperFailsWhatItChecked | backend/app/dagster/recovery.py:318-341 | in every run, a reaper fails exactly the row its guarded update checked: running, under the owner it names and, if missing, with the heartbeat it read, and unchanged since |
| OwnerFencing.RejectedForever | backend/app/dagster/recovery.py:124-148 | one rejection permanently rejects every session of the lease whose commit has not begun, or whose `before_commit` fence still has to refuse a run |
| OwnerFencing.RevokedSessionPublishesIff | backend/app/dagster/recovery.py:124-176 | in every phase, a session of a revoked lease can still publish if and only if its commit has begun and, inside its fence, every run left to fence is running under its owner |
| OwnerFencing.StandingSessionPublishesIff | backend/app/dagster/recovery.py:124-195 | while its lease stands, a session can still publish if and only if every run it tracks outside its fence is stored, running and its own |
| OwnerFencing.LateCommitIsReachable | backend/app/dagster/recovery.py:174-176 | such a session, past its fence, is reachable |
| OwnerFencing.LateCommitInsideFenceIsReachable | backend/app/dagster/recovery.py:124-148 | such a session, inside its fence with a run left to lock, is reachable |
| OwnerFencing.NeverForgetsRunningRun | backend/app/dagster/recovery.py:179-195 | the hooks drop a run only when it has ended, or was inserted by the transaction that is rolled back |
| OwnerFencing.CommitDropsEndedRuns | backend/app/dagster/recovery.py:179-187 | in every run, a commit drops exactly the runs it ends; what the session still tracks is stored, running and its own |
| OwnerFencing.CommitPublishesStagedRows | backend/app/dagster/recovery.py:174-195 | in every run, a commit publishes exactly the rows staged since the last commit or rollback, once and in order, under the runs it tracks |
| OwnerFencing.CollectorSession.Fence | backend/app/dagster/recovery.py:124-149 | the hook accepts exactly when the lease stands and every unfenced run is owned and running; it fences and beats exactly the runs before the first refused one, and a rejection revokes the lease |
| OwnerFencing.FenceIsHookRun | backend/app/dagster/recovery.py:124-176 | one call of the hook with free row locks is a run of the state machine with the same verdict, fenced runs and heartbeats |
| RecoveryScan.PageMissesNothing | backend/app/dagster/recovery.py:280-297 | a page misses no owned running row up to its last row, and none at all when it is short |
| RecoveryScan.ScanJustified | backend/app/dagster/recovery.py:318-341 | a row is recovered if and only if its run is finished, or missing with its heartbeat (its start if it has none) at least five hours old, and the row is still running under that owner, in the missing case with an unchanged heartbeat |
| RecoveryScan.LiveRunIsKept | backend/app/dagster/recovery.py:319-320 | a missing run whose heartbeat is less than five hours old is never recovered, whatever its start |
| RecoveryScan.ScanKeepsProgress | backend/app/dagster/recovery.py:256-343 | the cursor of a scan is the last run it examined; a scan ended by its budget or the metadata stores exactly that position, a completed one starts over |
| RecoveryScan.ScanCovers | backend/app/dagster/recovery.py:256-343 | one tick stores a position at or past a run that stays running, or reports completion, only after examining the run |
| RecoveryScan.TicksCover | backend/app/dagster/recovery.py:206-343 | the same over any sequence of ticks with exhausted budgets, metadata failures, aborts and restarts |
| RecoveryScan.FinishedRunsAreRecovered | backend/app/dagster/recovery.py:256-343 | when a tick completes, no run of a finished orchestrator run is running, whatever budgets, metadata calls or ticks failed before, given that ended rows stay ended |
| RecoveryScan.ReconcileCollectionRuns | backend/app/dagster/recovery.py:256-343 | the loops terminate; the count is the number of rows recovered, the error is that of the metadata or the aborted call, and the stored position that of the specified scan |
| RecoveryScan.ReconcileRow | backend/app/dagster/recovery.py:302-341 | one row: budget check, metadata, the guarded update, and where the position is saved |
| AnalyticsCache.StepKeepsInv | backend/app/services/analytics_cache.py:205-245 | every step keeps each entry equal to the visible in-scope rows collected up to its watermark |
| AnalyticsCache.HitIffCurrent | backend/app/services/analytics_cache.py:113-148 | in every run of locked refreshes a reader hits exactly when the entry is at most ten minutes old and was computed from exactly the visible rows of its airport and lot |
| AnalyticsCache.OtherScopesDoNotInvalidate | backend/app/services/analytics_cache.py:124-133 | commits outside the scope leave a hit a hit |
| AnalyticsCache.VisibleWasCommitted | backend/app/services/collection.py:988-1040 | in every run, a visible row was inserted as it is, with the time of the insert, by a collector that committed it later; a rolled-back row never becomes visible |
| AnalyticsCache.UnlockedRefreshMissesIff | backend/app/services/analytics_cache.py:248-265 | after any run, a refresh without the lock can be the source of a hit that misses a committed row if and only if some row of the scope is uncommitted when it begins |
| AnalyticsCache.CleanRefreshesNeverMissARow | backend/app/services/analytics_cache.py:248-265 | in every run where each unlocked refresh begins with no uncommitted row of the scope, every hit was computed from exactly the in-scope rows visible now |
| AnalyticsCache.UnlockedRefreshCanMissARow | backend/app/services/analytics_cache.py:248-265 | a concrete run in which an unlocked refresh serves a result that misses a committed row |
| AnalyticsCache.LoadIsWideEnough | backend/app/services/analytics_cache.py:268-410 | one load with the widest window holds every row of each metric's own window, taken later |
| AnalyticsCache.AnalyticsCacheTable.RefreshDefault | backend/app/services/analytics_cache.py:205-245 | the loops write the four entries of every scope of every airport, with one watermark and exactly the rows of the scope of the last 7 days and 10 minutes, 14, 14, or 21 days and 10 minutes, and nothing else |
| AnalyticsCache.AnalyticsCacheTable.RefreshScope | backend/app/services/analytics_cache.py:268-379 | the four stores of one scope, each from the loaded rows of its metric's window |
| Keyset.PageMissesNothing | backend/app/main.py:2530-2577 | a page from any cursor contains every row below the cursor or ends above it |
| Keyset.PagesAreConsecutive | backend/app/main.py:2434-2444 | if each reply is the next stretch, the pages concatenate to the whole sequence in bounded many requests |
| HistoryPaging.LatestIsWinner | backend/app/main.py:2545-2558 | the lateral subquery finds the preferred row of a key although it repeats only part of the conditions |
| HistoryPaging.PostgresPageIsExact | backend/app/main.py:2530-2577 | the key query joined with the lateral subquery returns the page of the deduplicated history |
| HistoryPaging.ParkingHistory | backend/app/main.py:2386-2604 | both database forms return the same response: the next rows below the cursor, one per lot and time by preference, latest first, and a cursor with its exact fields if rows are left, or the whole history; the two 422 cases are exact, and an unknown airport gets the empty answer its filter gives |
| HistoryPaging.AnswerIsNextStretch | backend/app/main.py:2398-2449 | every answer of a walk is the next stretch of the history frozen by the first request |
| HistoryPaging.WalkIsExact | backend/app/main.py:2398-2449 | a walk within a day returns exactly the rows of the requested lots since the window start that represent their lot and time, in descending order, whatever rows with larger ids come and go |
| HistoryPaging.CursorExpiresAfterADay | backend/app/main.py:2424-2427 | a cursor is accepted exactly from the window start until a day after the first request |
| PriceHistory.PinWindow | backend/app/services/export_price_history.py:137-164 | a window is pinned exactly when the cursor fits, is of the same revision and at most 15 minutes old, and the window is neither backwards, in the future nor too wide; 409 exactly for a stale cursor, 422 otherwise |
| PriceHistory.ReadPriceHistoryPage | backend/app/services/export_price_history.py:107-188 | the next prices of the station and product in the window below the cursor, latest first, with a cursor at the last one exactly if more are left; 404 and 503 exactly |
| PriceHistory.CursorLivesWithItsRevision | backend/app/services/export_price_history.py:142-146 | a cursor is accepted exactly while the revision is unchanged and at most 15 minutes have passed, and is a 409 otherwise |
| PriceHistory.WalkSurvivesInserts | backend/app/services/export_price_history.py:165-188 | inserts between pages never make a walk skip or repeat a row that was stored when it began |
| PriceHistory.QuietWalkIsExact | backend/app/services/export_price_history.py:165-188 | over an unchanged table a finished walk is exactly the prices of the window the first request asks for, latest first |
| PriceHistory.QuietWalkEnds | backend/app/services/export_price_history.py:107-188 | over an unchanged table and revision and within 15 minutes, a walk is never rejected and finishes within one request more than the window has rows |
| TrafficStatistics.SumOfGroups | backend/app/main.py:386-412 | summing the groups of a GROUP BY under any condition on the keys is summing its rows |
| TrafficStatistics.SumSummarizes | backend/app/main.py:449-480 | adding rows one by one yields their number, the sums and numbers of the values present, the least, the greatest and the latest |
| TrafficStatistics.CutoffBucketIsBin | backend/app/main.py:384-385 | the minute arithmetic on the cutoff gives the bucket of `date_bin` |
| TrafficStatistics.Totals.Merge | backend/app/main.py:449-480 | `merge` adds a row to the stored totals of its key, field by field, and leaves other keys alone |
| TrafficStatistics.TrafficStatisticsRows | backend/app/main.py:372-503 | the dictionary built by both loops reports, per restored key, the count, averages, minimum, maximum and latest time of all merged rows |
| TrafficStatistics.MergedTotalIsExact | backend/app/main.py:384-447 | complete buckets plus the raw boundary count every raw row since the cutoff once |
| TrafficStatistics.MergedReportIsExactIff | backend/app/main.py:372-503 | the merged report equals the raw aggregation, group for group, if and only if no row in scope has an empty name |
| TrafficStatistics.MergedReportIsRaw | backend/app/main.py:372-503 | each group of the merged report describes the raw rows of its names, empty names counted as NULL: their number, the average of the values present, least, greatest and latest |
| TrafficStatistics.FallbackReportIsExact | backend/app/main.py:413-425 | without aggregate rows the raw query answers, exactly |
| TrafficStatistics.TransportTrafficStatistics | backend/app/main.py:372-503 | the queries, the choice between them and the merge together report, for each pair of names, the number of raw rows in scope, both averages, least, greatest and latest, if and only if no row in scope has an empty name or no five-minute mark after the cutoff is reached; else the merged groups |
| TrafficStatistics.RebuildKeepsTable | backend/app/services/transport_collection.py:1104-1139 | deleting and aggregating a bucket range again yields the aggregate of the changed raw rows |
| ExportSnapshots.ExpiryFollowsEpoch | backend/app/services/export_current.py:41-58 | a snapshot expires more than one and at most two TTLs after the clock reading that names its generation |
| ExportSnapshots.StepKeepsInv | backend/app/services/export_current.py:73-155 | every step of every transaction keeps stored snapshots, views and inserts consistent |
| ExportSnapshots.HandoutsLastLongEnough | backend/app/services/export_current.py:97-110 | in every run a first page, reused or frozen, has more than one TTL left and at most two |
| ExportSnapshots.HandoutWasAsked | backend/app/services/export_current.py:97-121 | in every run a first page, reused or frozen, hands out a snapshot of the scope and of the head that its own lookup read |
| ExportSnapshots.HandoutStaysStored | backend/app/services/export_current.py:73-155 | in every run what a committed first page handed out stays stored unchanged until it expires, holds the rows of its freeze in order, and is the only snapshot of its scope, head and epoch |
| ExportSnapshots.ConflictsAreConcurrent | backend/app/services/export_current.py:112-121 | an insert conflict comes from a row committed after this transaction began, never from an expired leftover |
| ExportSnapshots.UnexpiredIsUnchanged | backend/app/services/export_current.py:73-94 | collection removes only expired snapshots; an unexpired one is unchanged after any run |
| ExportSnapshots.StepRemovesAtMostOne | backend/app/services/export_current.py:73-94 | in every run a transaction collects at most one snapshot, and only an expired one |
| ExportSnapshots.PageIsStretch | backend/app/services/export_current.py:219-230 | a page query returns the next ordinals and a cursor exactly when items are left |
| ExportSnapshots.LaterPageAnswers | backend/app/services/export_current.py:195-233 | a later page is served exactly if the request fits the cursor and the snapshot is there unexpired, is a 410 exactly if only the snapshot is gone, and is never a 503; it has the next items and an exact cursor |
| ExportSnapshots.WalkReturnsFrozenItems | backend/app/services/export_current.py:188-240 | a walk before expiry returns each frozen item once, in order, whatever happens between its pages |
| ExportSnapshots.HandoutCanBeWalked | backend/app/services/export_current.py:97-240 | from any committed first page of any run a walk before expiry returns each frozen item once, in order |
| ExportSnapshots.FreezeTraffic | backend/app/services/export_current.py:124-155 | freezing succeeds exactly when the set has as many rows as announced, at most 20,000 and 16 MiB, and is in time; it numbers every row once from 1 |
| ExportSnapshots.FreezeReference | backend/app/services/export_references.py:214-263 | the two passes succeed exactly when the first has at most 20,000 rows and 16 MiB and the second sees as many rows, which are numbered from 1 |
| LruCache.OrderedDict.Store | backend/app/main.py:354-357 | the new entry comes last instead of the old one of its key, the others keep their order, and only the newest up to the limit stay |
| LruCache.CacheStaysSmall | backend/app/main.py:354-357 | keys stay unique and storing keeps at most the limit |
| SingleFlight.GetCached | backend/app/main.py:329-337 | a response at most the lifetime old is returned and becomes the most recent entry, an older one is dropped, and the others keep their order |
| SingleFlight.StoredUntilStale | backend/app/main.py:329-357 | a stored response is found until its lifetime is over |
| SingleFlight.ServedIsRecentResult | backend/app/main.py:329-357 | in every run, what is served from the cache is the result of a calculation for the same key that finished at most the lifetime ago |
| SingleFlight.StepKeepsInv | backend/app/main.py:291-369 | every section between two awaits keeps users, holders, slots and cache consistent |
| SingleFlight.OneCalculationPerKey | backend/app/main.py:343-355 | in every run at most one request per key is past its lock |
| SingleFlight.ResultIsShared | backend/app/main.py:347-357 | when a calculation finishes, whoever waits for its key can go on and is answered with its result without calculating |
| SingleFlight.CalculatesIffNeeded | backend/app/main.py:303-355 | in every run, a request that gets its lock calculates exactly if no response of its key is fresh and the semaphore has a permit |
| SingleFlight.WaitsIffNotFresh | backend/app/main.py:340-346 | a request joins the lock of its key exactly if no response of the key is fresh |
| SingleFlight.UncachedCalculatesIffFree | backend/app/main.py:303-324 | without a cache lifetime a request calculates exactly if the semaphore has a permit |
| SingleFlight.BoundedWork | backend/app/main.py:303-321 | in every run calculations never exceed the semaphore and the cache never exceeds 128 entries |
| SingleFlight.LockExistsWhileUsed | backend/app/main.py:345-368 | in every run a key has a lock entry exactly while requests have joined it, with a positive count |
| SingleFlight.NothingLeaks | backend/app/main.py:347-368 | after any timeouts, errors and cancellations, no lock, entry or slot remains once all requests have left |
| SingleFlight.FreeLockIsNeverLost | backend/app/main.py:347-351 | a waiting request can go on unless another request of its key holds the lock |
| QuotaLedger.QuotaLedger.RecordOutcome | backend/app/services/collection.py:449-477 | an outcome of a live client that was not blocked and is not older than the recorded start or a deadline sets the start, and a deadline one backoff later exactly if it failed; any other changes nothing |
| QuotaLedger.QuotaLedger.RetainDeadline | backend/app/services/collection.py:437-447 | after a legacy deadline is adopted into an empty ledger the block lasts exactly until it, whatever the legacy run; a ledger with a row keeps it |
| QuotaLedger.LedgerStaysSound | backend/app/services/collection.py:437-477 | over any order of outcomes a deadline equals the recorded start plus the backoff |
| QuotaLedger.LedgerGoesForward | backend/app/services/collection.py:449-477 | the recorded start never goes back and only a run started at or after a deadline clears or replaces it |
| QuotaLedger.BlocksEndWithinOneBackoff | backend/app/services/collection.py:397-435 | a block that holds ends at most one backoff after the start it records |
| QuotaLedger.DeadlineStands | backend/app/services/collection.py:449-477 | runs started before a deadline cannot move it, so the block lasts exactly until then |
| QuotaLedger.OutcomeCountsIff | backend/app/services/collection.py:449-477 | in every run, an outcome takes effect exactly if it started no earlier than any accepted run and no earlier than the end of the backoff of any accepted failure; otherwise the ledger stays as it is |
| QuotaLedger.RowIsLastAccepted | backend/app/services/collection.py:449-477 | the row is always that of the last accepted outcome, and accepted outcomes never start within what an earlier one claims |
| QuotaLedger.AdoptionKeepsTheBlock | backend/app/services/collection.py:415-447 | adopting a legacy deadline keeps the answer at every later time, whatever runs are recorded since |
| FeeCalculator.CalculateTotalFee | backend/app/services/fee_calculator.py:26-88 | each entry of the breakdown is priced from the rule of the local day of its start: the basic fee and every begun unit beyond its time for the first chunk, every begun unit for a later one, cut to a positive daily maximum, nothing in the grace period; each error exactly in its case |
| FeeCalculator.ChunkFeeIsPrice | backend/app/services/fee_calculator.py:68-76 | the price of a chunk in terms of the number of units that cover its minutes |
| FeeCalculator.ChunksTileTheStay | backend/app/services/fee_calculator.py:55-87 | the 24-hour chunks tile the stay and their minutes add up to the stay rounded up once |
| FeeCalculator.FeeIsDefinedIff | backend/app/services/fee_calculator.py:36-63 | it fails exactly for an exit not after the entry, a missing rule, or an invalid rule of a day the stay touches |
| FeeCalculator.FeeIsFair | backend/app/services/fee_calculator.py:47-88 | the breakdown explains the total, a visit in the grace period is free, positive daily maxima cap the total |
| FeeCalculator.FeeNeverDecreases | backend/app/services/fee_calculator.py:47-88 | leaving later never costs less |
| BusThrottle.CachedResponse | backend/app/main.py:2056-2066 | the purge loop and the lookup leave exactly the entries that are not stale, the one found last, and hit exactly if there is one |
| BusThrottle.BusGuard.Enter | backend/app/main.py:2081-2106 | the decision under the lock: served exactly from an entry that is not stale, refused exactly during a block or the interval, with a Retry-After within a second of its end; the effect on the cache and the time of the last call |
| BusThrottle.BusGuard.Succeed | backend/app/main.py:2157-2161 | after a successful fetch every request for its key is served until the entry is stale, and the cache keeps its limit |
| BusThrottle.BusGuard.Fail | backend/app/main.py:2117-2127 | after a quota error every request for one backoff is served from the cache or told to wait until its end, and none is blocked after it; another failure changes no decision |
| BusThrottle.CallsAreSpaced | backend/app/main.py:2096-2106 | in every run the k-th next provider call comes at least k intervals later |
| BusThrottle.DailyQuotaHolds | backend/app/core/config.py:99-101 | with the default interval at most 96 calls fall within 24 hours |
| BusThrottle.RepeatIsServed | backend/app/core/config.py:134-141 | in every run a request for the key last fetched is served from the cache while the interval of that fetch lasts |
| BusThrottle.ShortCacheThrottles | backend/app/core/config.py:134-141 | with a cache lifetime below the interval the same request is throttled |
| BusThrottle.TooSoonTellsTheTruth | backend/app/main.py:2096-2105 | Retry-After ends at most a second before the interval does, and not after it |
| ProviderGuard.GuardState.Admit | backend/app/general_rail_routes.py:47-61 | a request is refused exactly while a block is open or 96 attempts are counted on its local day, with the specified wait, and counted otherwise |
| ProviderGuard.RefusesUntilEarliestStart | backend/app/general_rail_routes.py:47-61 | the guard lets requests through exactly from the earliest start on |
| ProviderGuard.RetryAfterIsFair | backend/app/general_rail_routes.py:55-61 | a Retry-After of a wait of at least a second ends at most a second before the earliest start, and not after it |
| ProviderGuard.ShortWaitIsRoundedUp | backend/app/general_rail_routes.py:55-61 | a wait of less than a second is announced as exactly one |
| ProviderGuard.DailyCapHolds | backend/app/general_rail_routes.py:47-61 | in every run a guard starts at most 96 fetches per Seoul calendar day |
| ProviderGuard.FailureBlocks | backend/app/general_rail_routes.py:69-70 | after a failure nothing starts for 15 minutes |
| ProviderGuard.RailQuery | backend/app/general_rail_routes.py:36-78 | answers, stored copy and guard of a query under the lock; an HTTPException of the fetch counts as an attempt, passes through and blocks nothing |
| ProviderGuard.MapCached | backend/app/highway_map_routes.py:25-74 | the nine-entry cache, the stale fallback and the guard, with a deadline that blocks only when it passes during the fetch |
| LotMerge.RowTable.MergeRows | scripts/reconcile_parking_lots.py:56-127 | the loop reports a conflict exactly if two rows of the lots with one key differ in airport or data; otherwise every row of the duplicate has a row of the canonical lot with its key and data afterwards, and moved plus deleted is the number of rows |
| LotMerge.MergeCarries | scripts/reconcile_parking_lots.py:56-127 | every row of the duplicate has a row of the canonical lot with its key and data afterwards, the duplicate is empty, and every row of another lot is as before |
| LotMerge.MergeConservesContents | scripts/reconcile_parking_lots.py:56-127 | the canonical lot ends up with exactly the contents of both lots and other lots keep theirs |
| LotMerge.MergeKeepsUnique | scripts/reconcile_parking_lots.py:56-127 | the uniqueness constraint still holds |
| LotMerge.LegacyIsKept | scripts/reconcile_parking_lots.py:128-137 | a legacy identity is neither lost nor replaced; two different ones are refused |
| LotMerge.MergeLot | scripts/reconcile_parking_lots.py:51-141 | a merge succeeds exactly when no two rows with one key differ in airport or data and no legacy identities differ; then every row is carried and the legacy identity kept |
| LotMerge.ChooseCanonical | scripts/reconcile_parking_lots.py:176 | the canonical lot has the most snapshots, and the smallest id among equals |
| LotMerge.MergeGroup | scripts/reconcile_parking_lots.py:165-191 | a group is merged exactly when every pair is approved, no two of its rows with one key differ in airport or data and no two legacy identities differ; then every row of every lot is carried to the canonical lot, which holds exactly what the group held |
| BackupEviction.VictimsAreMinimal | backend/app/services/backup_restore.py:115-126 | the victims are the shortest prefix of the candidates that reclaims the excess |
| BackupEviction.EvictsOldestFirst | backend/app/services/backup_restore.py:115-126 | every file removed is at least as old as every unprotected file that stays |
| BackupEviction.EvictionIsMinimal | backend/app/services/backup_restore.py:101-169 | eviction succeeds exactly when the unprotected files suffice, with a minimal oldest-first prefix of them |
| BackupEviction.EvictionMeetsLimit | backend/app/services/backup_restore.py:101-169 | what is left fits the limit together with the incoming bytes |
| BackupEviction.EvictionKeeps | backend/app/services/backup_restore.py:101-169 | a file stays exactly when it is no victim, and a protected file always stays |
| BackupEviction.BackupDirectory.EnforceStorageLimit | backend/app/services/backup_restore.py:101-131 | the directory after enforcement; nothing is deleted when the limit cannot be met |
| BackupEviction.BackupDirectory.MakeRoomForUpload | backend/app/services/backup_restore.py:134-169 | the same for an upload, counting the incoming file |
| BackupEviction.BackupDirectory.PruneBackups | backend/app/services/backup_restore.py:190-198 | retention first, then enforcement |
| BackupEviction.PruneKeepsProtectedIff | backend/app/services/backup_restore.py:190-198 | a protected file survives a prune exactly when it is among the newest files kept |
| BackupEviction.FailedPruneDeletesNothingIff | backend/app/services/backup_restore.py:190-198 | a failed prune leaves the directory unchanged exactly when retention had nothing to remove |
| BackupEviction.PruneCanLoseProtectedFiles | backend/app/services/backup_restore.py:190-198 | concrete directories where a prune loses its protected file, or deletes before it fails |
| BackupEviction.NewBackupSurvives | backend/app/services/backup_restore.py:247-260 | after a backup is created the limit and the retention count hold, and the new backup is there exactly when the count is positive |
| ThresholdEvents.DetectEvents | backend/app/services/analytics.py:392-432 | the loops return, by time, exactly the crossings from each point to the next: which threshold, which way, when, and the spaces before and after |
| ThresholdEvents.DownsMinusUps | backend/app/services/analytics.py:409-430 | downs minus ups of a threshold depend only on the two ends of the series |
| ThresholdEvents.ListedOnceAlternates | backend/app/services/analytics.py:409-430 | the events of a threshold listed once alternate, from the side of the first point to the side of the last |
| ThresholdEvents.AlternatesIff | backend/app/services/analytics.py:409-430 | the events of a listed threshold alternate exactly when it is listed once or never crossed |
| ThresholdEvents.BuildHistory | backend/app/services/analytics.py:442-489 | the history has one item per threshold and local day, the first down-crossing of that day, latest first; a day is missing only if the limit is reached by items that are no earlier |
| ThresholdEvents.HistoryShowsLatest | backend/app/services/analytics.py:489-492 | what the history limit cuts off is no later than what it shows |

## Left out

- PostgreSQL's integer casts, NULL sums and float rounding: sums and averages are exact integers, reals or ratios.
- Time zones other than Asia/Seoul, and daylight saving time.
- Savepoints and nested transactions: the fencing model has flat transactions.
- The metadata call of `ensure_collection_owner_active`: its effect, a lease revoked at any moment, is the event
  `OwnerFinished`.
- The staleness check and the alerts of `run_recovery_tick`, which neither read nor move the scan position.
- `commit()` of a reaper is one step with its update visible afterwards; a commit whose outcome the client never learns is
  not modelled.
- Concurrent inserts with a smaller id than the frozen one, row deletion and re-dated rows during a history walk: outside
  the assumption `FrozenBelow`.
- The worker cache of the unpaged history response, `detect_threshold_events` over several lots, the weekday medians of
  `build_threshold_insights`, hourly and weekday buckets: they would add easier members of the same kinds.
- The duplicate check of `_store_observations` and the fee rule import: in the analytics cache model an insert is a step
  of the collector that holds the lease; a skipped duplicate is no step.
- AnalyticsCache.AnalyticsCacheTable.RefreshScope: payloads are identified with the set of rows they are computed from,
  because every one is computed from those rows and the clock alone.
- AnalyticsCache.AnalyticsCacheTable.RefreshDefault: the same.
- The stored copies that the bus timetable route keeps in the database: they only add answers that need no provider call.
- SQLite branches without locks, statement timeouts, retries after serialization failures, HTTP, tokens, signatures,
  base64, JSON, admin routes, the frontend and deployment.
- LotMerge.MergeLot: after an error the tables are left as they are, because the caller rolls the transaction back.
- RecoveryScan.ReconcileCollectionRuns: the error message and `finished_at` of a recovered row are not modelled.
- ThresholdEvents.BuildHistory: minutes of the day and weekday labels of an item are left out, because they follow from
  its time.
