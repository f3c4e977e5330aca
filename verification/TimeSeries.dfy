/** What the three computations of the parking time series owe each other, and the shape of the relative series. */
module TimeSeries {
  import opened Arithmetic
  import opened Common
  import opened Snapshots
  import opened Sorting
  import opened TimeSeriesQueries
  import opened TimeSeriesSweep
  import opened TimeUtils

  /** What reaches the sweep: the preferred row of every lot and time, sorted by lot and time. */
  ghost predicate SweepInput(scoped: seq<Snapshot>, rows: seq<Snapshot>) {
    && UniqueIds(scoped)
    && SortedBy(rows, LotThenTime)
    && forall s :: s in rows <==> Winner(scoped, s)
  }

  /** The loaders deduplicate and `build_time_series` sorts. */
  lemma LoadedRows(scoped: seq<Snapshot>, snapshots: seq<Snapshot>)
    requires UniqueIds(scoped) && Deduplicated(scoped, snapshots)
    ensures SweepInput(scoped, StableSort(snapshots, LotThenTime))
    ensures scoped != [] <==> StableSort(snapshots, LotThenTime) != []
  {
    var rows := StableSort(snapshots, LotThenTime);
    StableSortSorts(snapshots, LotThenTime);
    forall s ensures s in rows <==> Winner(scoped, s) {
      SameMember(snapshots, rows, s);
    }
    if scoped != [] {
      var w := WinnerExists(scoped, scoped[0]);
      assert w in rows;
    }
    if rows != [] {
      assert rows[0] in rows;
    }
  }

  /** A lot's fresh reading comes first among all observed rows of the lot's window, duplicates included. */
  lemma FreshComesFirst(scoped: seq<Snapshot>, rows: seq<Snapshot>, lot: int, bucket: int, step: int)
    requires SweepInput(scoped, rows)
    ensures var f := FreshAt(rows, bucket, step)(lot);
            f.Some? ==> f.value.lot == lot && FirstInWindow(scoped, bucket, step, f.value)
  {
    FreshIsOfLot(rows, lot, bucket, step);
    LotRowsContents(rows, lot);
    CurrentIsLast(LotRows(rows, lot), bucket);
    var f := FreshAt(rows, bucket, step)(lot);
    if f.Some? {
      forall q | q in scoped && InWindow(q, lot, bucket, step) && q != f.value ensures Precedes(f.value, q) {
        var w := WinnerExists(scoped, q);
        assert w in rows && w in LotRows(rows, lot);
        assert w.observedAt <= f.value.observedAt;
        if w.observedAt == f.value.observedAt {
          WinnerIsUnique(scoped, w, f.value);
        }
      }
    }
  }

  /** The row that comes first in a window is its lot's fresh reading. */
  lemma FirstIsFresh(scoped: seq<Snapshot>, rows: seq<Snapshot>, bucket: int, step: int, r: Snapshot)
    requires SweepInput(scoped, rows) && FirstInWindow(scoped, bucket, step, r)
    ensures FreshAt(rows, bucket, step)(r.lot) == Some(r) && r.lot in LotsOf(rows)
  {
    forall q | q in scoped && KeyOf(q) == KeyOf(r) && q != r ensures Preferred(r, q) {
      assert InWindow(q, r.lot, bucket, step);
    }
    assert Winner(scoped, r);
    LotRowsContents(rows, r.lot);
    var lotRows := LotRows(rows, r.lot);
    assert r in lotRows;
    CurrentIsLast(lotRows, bucket);
    var c := Current(lotRows, bucket).value;
    assert c in scoped && InWindow(c, r.lot, bucket, step);
    GroupedContents(rows, r.lot);
  }

  /** The sweep, too, chooses exactly the rows that come first in their lot's window. */
  lemma SweepChoosesFirst(scoped: seq<Snapshot>, rows: seq<Snapshot>, bucket: int, step: int, r: Snapshot)
    requires SweepInput(scoped, rows)
    ensures r in SweepRows(rows, LotsOf(rows), bucket, step) <==> FirstInWindow(scoped, bucket, step, r)
  {
    var chosen := SweepRows(rows, LotsOf(rows), bucket, step);
    if r in chosen {
      var lot :| lot in LotsOf(rows) && FreshAt(rows, bucket, step)(lot) == Some(r);
      FreshComesFirst(scoped, rows, lot, bucket, step);
    }
    if FirstInWindow(scoped, bucket, step, r) {
      FirstIsFresh(scoped, rows, bucket, step, r);
    }
  }

  lemma SweptEqualsScanned(scoped: seq<Snapshot>, rows: seq<Snapshot>, step: int, origin: int, n: int)
    requires SweepInput(scoped, rows) && step > 0
    ensures SweepRows(rows, LotsOf(rows), Bucket(origin, step, n), step)
            == SingleScanRows(scoped, step, origin, Bucket(origin, step, n))
  {
    var swept := SweepRows(rows, LotsOf(rows), Bucket(origin, step, n), step);
    var scanned := SingleScanRows(scoped, step, origin, Bucket(origin, step, n));
    forall r ensures r in swept <==> r in scanned {
      SweepChoosesFirst(scoped, rows, Bucket(origin, step, n), step, r);
      SingleScanChoosesFirst(scoped, step, origin, n, r);
    }
  }

  ghost function ScannedPoint(scoped: seq<Snapshot>, step: int, origin: int, bucket: int): Point
    requires step > 0
  {
    Point(bucket, SumRows(SingleScanRows(scoped, step, origin, bucket)))
  }

  ghost function LateralPoint(scoped: seq<Snapshot>, lots: set<int>, step: int, bucket: int): Point {
    Point(bucket, SumRows(LateralRows(scoped, lots, bucket, step)))
  }

  /** The answer of the single-scan query: one point per bucket of the grid that ends at the aligned anchor. */
  ghost predicate IsSingleScanSeries(scoped: seq<Snapshot>, days: int, interval: int, anchor: int, series: seq<Point>)
    requires 1 <= interval <= 60
  {
    var step, origin := interval * MINUTE, GridStart(anchor, days, interval);
    && |series| == HistoryBuckets(days, interval)
    && forall k :: 0 <= k < |series| ==> series[k] == ScannedPoint(scoped, step, origin, Bucket(origin, step, k))
  }

  /** The answer of the per-bucket query over the scope's lots. */
  ghost predicate IsLateralSeries(
    scoped: seq<Snapshot>, lots: set<int>, days: int, interval: int, anchor: int, series: seq<Point>)
    requires 1 <= interval <= 60
  {
    var step, origin := interval * MINUTE, GridStart(anchor, days, interval);
    && |series| == HistoryBuckets(days, interval)
    && forall k :: 0 <= k < |series| ==> series[k] == LateralPoint(scoped, lots, step, Bucket(origin, step, k))
  }

  /** No bucket of the anchored grid lies after the anchor. */
  lemma GridEndsAtAnchor(anchor: int, days: int, interval: int, k: nat)
    requires 1 <= interval <= 60 && k < HistoryBuckets(days, interval)
    ensures Bucket(GridStart(anchor, days, interval), interval * MINUTE, k) <= anchor
  {
    AlignedIsGridStart(anchor, interval);
    var n := HistoryBuckets(days, interval);
    if k < n - 1 {
      GridIncreases(GridStart(anchor, days, interval), interval * MINUTE, k, n - 1);
    }
  }

  /** Up to the anchor, the sweep's point is the single scan's. */
  lemma SweptPointIsScanned(scoped: seq<Snapshot>, rows: seq<Snapshot>, step: int, origin: int, anchor: int, k: int)
    requires SweepInput(scoped, rows) && step > 0 && Bucket(origin, step, k) <= anchor
    ensures SweptPoint(rows, LotsOf(rows), Bucket(origin, step, k), step, anchor)
         == ScannedPoint(scoped, step, origin, Bucket(origin, step, k))
  {
    SweptEqualsScanned(scoped, rows, step, origin, k);
  }

  lemma SweptSeriesIsScanned(
    scoped: seq<Snapshot>, rows: seq<Snapshot>, days: int, interval: int, anchor: int, series: seq<Point>)
    requires 1 <= interval <= 60 && SweepInput(scoped, rows) && |series| == HistoryBuckets(days, interval)
    requires Swept(series, rows, LotsOf(rows), GridStart(anchor, days, interval), interval * MINUTE, anchor)
    ensures IsSingleScanSeries(scoped, days, interval, anchor, series)
  {
    var step, origin := interval * MINUTE, GridStart(anchor, days, interval);
    forall k | 0 <= k < |series| ensures series[k] == ScannedPoint(scoped, step, origin, Bucket(origin, step, k)) {
      GridEndsAtAnchor(anchor, days, interval, k);
      SweptPointIsScanned(scoped, rows, step, origin, anchor, k);
    }
  }

  /** The sweep over the deduplicated rows returns what the single scan returns over all rows ... */
  lemma SweepEqualsSingleScan(
    scoped: seq<Snapshot>, rows: seq<Snapshot>, days: int, interval: int, anchor: int, series: seq<Point>)
    requires 1 <= interval <= 60
    requires SweepInput(scoped, rows) && rows != []
    requires IsTimeSeries(rows, days, interval, 0, Some(anchor), series)
    ensures IsSingleScanSeries(scoped, days, interval, anchor, series)
  {
    assert FutureBuckets(0, interval) == 0;
    SweptSeriesIsScanned(scoped, rows, days, interval, anchor, series);
  }

  lemma SamePoints(scoped: seq<Snapshot>, lots: set<int>, step: int, origin: int, series: seq<Point>)
    requires step > 0 && UniqueIds(scoped) && forall q :: q in scoped ==> q.lot in lots
    ensures (forall k :: 0 <= k < |series| ==> series[k] == LateralPoint(scoped, lots, step, Bucket(origin, step, k)))
            <==> forall k :: 0 <= k < |series| ==>
                   series[k] == ScannedPoint(scoped, step, origin, Bucket(origin, step, k))
  {
    forall k: int
      ensures LateralPoint(scoped, lots, step, Bucket(origin, step, k))
           == ScannedPoint(scoped, step, origin, Bucket(origin, step, k))
    {
      SingleScanEqualsLateral(scoped, lots, step, origin, k);
    }
  }

  /** ... and so does the per-bucket query. */
  lemma LateralEqualsSingleScan(
    scoped: seq<Snapshot>, lots: set<int>, days: int, interval: int, anchor: int, series: seq<Point>)
    requires 1 <= interval <= 60 && UniqueIds(scoped)
    requires forall q :: q in scoped ==> q.lot in lots
    ensures IsLateralSeries(scoped, lots, days, interval, anchor, series)
        <==> IsSingleScanSeries(scoped, days, interval, anchor, series)
  {
    SamePoints(scoped, lots, interval * MINUTE, GridStart(anchor, days, interval), series);
  }

  // ----- the relative series -----

  ghost predicate BucketsIncrease(series: seq<Point>) {
    forall i, j :: 0 <= i < j < |series| ==> series[i].bucketAt < series[j].bucketAt
  }

  /** The grid around the latest instant: aligned bucket, then only empty buckets after the instant. */
  lemma GridAroundLatest(rows: seq<Snapshot>, swept: seq<Point>, days: int, interval: int, latest: int)
    requires 1 <= interval <= 60 && |swept| >= HistoryBuckets(days, interval)
    requires Swept(swept, rows, LotsOf(rows), GridStart(latest, days, interval), interval * MINUTE, latest)
    ensures BucketsIncrease(swept)
    ensures var h := HistoryBuckets(days, interval);
            && swept[h - 1].bucketAt == Aligned(latest, interval) <= latest
            && forall k :: h <= k < |swept| ==> swept[k].bucketAt > latest && swept[k].totals == NOTHING
  {
    var h, step, start := HistoryBuckets(days, interval), interval * MINUTE, GridStart(latest, days, interval);
    AlignedIsGridStart(latest, interval);
    SweptIncreases(swept, rows, LotsOf(rows), start, step, latest);
    assert step * h == step * (h - 1) + step;
    assert forall k :: h <= k < |swept| ==> swept[h].bucketAt <= swept[k].bucketAt;
  }

  /** Stamping a point that the swept grid already agrees with, or that falls between two of its buckets. */
  lemma StampShape(swept: seq<Point>, h: nat, point: Point)
    requires 1 <= h <= |swept| && BucketsIncrease(swept)
    requires swept[h - 1].bucketAt <= point.bucketAt
    requires swept[h - 1].bucketAt == point.bucketAt ==> swept[h - 1] == point
    requires forall k :: h <= k < |swept| ==> swept[k].bucketAt > point.bucketAt && swept[k].totals == NOTHING
    ensures var series := Stamp(swept, h, point);
            var at := if swept[h - 1].bucketAt == point.bucketAt then h - 1 else h;
            && BucketsIncrease(series)
            && |series| == |swept| + at - (h - 1)
            && series[at] == point
            && (forall i :: at < i < |series| ==> series[i].totals == NOTHING)
            && series[..h] == swept[..h]
  {
    var series := Stamp(swept, h, point);
    if swept[h - 1].bucketAt == point.bucketAt {
      assert series == swept;
    } else {
      assert forall i :: 0 <= i < |series| ==>
        series[i] == if i < h then swept[i] else if i == h then point else swept[i - 1];
    }
  }

  /** The stamped grid, for the grid that was swept. */
  lemma StampedGridShape(rows: seq<Snapshot>, days: int, interval: int, swept: seq<Point>, latest: int)
    requires 1 <= interval <= 60 && rows != [] && SortedBy(rows, LotThenTime) && latest == LatestObserved(rows)
    requires |swept| >= HistoryBuckets(days, interval)
    requires Swept(swept, rows, LotsOf(rows), GridStart(latest, days, interval), interval * MINUTE, latest)
    ensures var h, point := HistoryBuckets(days, interval), LatestPoint(rows, latest, interval * MINUTE);
            var series, at := Stamp(swept, h, point), if Aligned(latest, interval) == latest then h - 1 else h;
            && BucketsIncrease(series)
            && |series| == |swept| + at - (h - 1)
            && swept[h - 1].bucketAt == Aligned(latest, interval)
            && series[at] == point
            && (forall i :: at < i < |series| ==> series[i].totals == NOTHING)
            && series[..h] == swept[..h]
  {
    var h, step := HistoryBuckets(days, interval), interval * MINUTE;
    var start, point := GridStart(latest, days, interval), LatestPoint(rows, latest, step);
    GridAroundLatest(rows, swept, days, interval, latest);
    StampRepeatsSweep(rows, step);
    assert swept[h - 1] == SweptPoint(rows, LotsOf(rows), Bucket(start, step, h - 1), step, latest);
    StampShape(swept, h, point);
  }

  /**
   The relative series: its buckets strictly increase; it holds the latest instant with its exact reading, in the
   place of the aligned bucket or right after it; every later bucket is empty; and all historical buckets are as
   swept, so replacing the aligned bucket changes nothing.
   */
  lemma RelativeSeriesShape(rows: seq<Snapshot>, days: int, interval: int, futureHours: int, series: seq<Point>)
    requires 1 <= interval <= 60 && rows != [] && SortedBy(rows, LotThenTime)
    requires IsTimeSeries(rows, days, interval, futureHours, None, series)
    ensures BucketsIncrease(series)
    ensures var latest, h := LatestObserved(rows), HistoryBuckets(days, interval);
            var at := if Aligned(latest, interval) == latest then h - 1 else h;
            && |series| == h + FutureBuckets(futureHours, interval) + at - (h - 1)
            && series[h - 1].bucketAt == Aligned(latest, interval)
            && series[at] == LatestPoint(rows, latest, interval * MINUTE)
            && (forall i :: at < i < |series| ==> series[i].totals == NOTHING)
            && Swept(series[..h], rows, LotsOf(rows), GridStart(latest, days, interval), interval * MINUTE, latest)
  {
    var latest, h, step := LatestObserved(rows), HistoryBuckets(days, interval), interval * MINUTE;
    var start, point := GridStart(latest, days, interval), LatestPoint(rows, latest, step);
    var swept: seq<Point> :|
      && |swept| == h + FutureBuckets(futureHours, interval)
      && Swept(swept, rows, LotsOf(rows), start, step, latest)
      && series == Stamp(swept, h, point);
    StampedGridShape(rows, days, interval, swept, latest);
    assert series[h - 1] == swept[h - 1] by {
      assert series[..h][h - 1] == swept[..h][h - 1];
    }
  }

  // ----- what the series reports, in terms of the stored rows -----

  /**
   `r` is the reading of its lot at `at`: among the lot's rows in the closed window before `at` none is observed later,
   and of those observed at the same time live rows come before migrated ones, then later collected ones, then larger
   ids.
   */
  ghost predicate IsReading(rows: seq<Snapshot>, at: int, step: int, r: Snapshot) {
    && r in rows && at - step <= r.observedAt <= at
    && forall q :: q in rows && q.lot == r.lot && at - step <= q.observedAt <= at && q != r ==>
         || q.observedAt < r.observedAt
         || (q.observedAt == r.observedAt && q.migration && !r.migration)
         || (q.observedAt == r.observedAt && q.migration == r.migration && q.collectedAt < r.collectedAt)
         || (q.observedAt == r.observedAt && q.migration == r.migration && q.collectedAt == r.collectedAt
              && q.id < r.id)
  }

  /** The totals are the sums over the readings of all lots. */
  ghost predicate SumsReadings(t: Totals, rows: seq<Snapshot>, at: int, step: int) {
    exists chosen :: Reports(t, chosen) && forall r :: r in chosen <==> IsReading(rows, at, step, r)
  }

  /** The points from the first bucket to the aligned instant, one interval apart, sum the readings. */
  ghost predicate HistoryReports(series: seq<Point>, rows: seq<Snapshot>, end: int, step: int) {
    forall k :: 0 <= k < |series| ==>
      series[k].bucketAt == end - (|series| - 1 - k) * step
      && SumsReadings(series[k].totals, rows, series[k].bucketAt, step)
  }

  lemma ReadingComesFirst(rows: seq<Snapshot>, at: int, step: int, r: Snapshot)
    ensures FirstInWindow(rows, at, step, r) <==> IsReading(rows, at, step, r)
  {
    forall q ensures InWindow(q, r.lot, at, step) <==> q.lot == r.lot && at - step <= q.observedAt <= at {
    }
  }

  lemma SweptSumsReadings(scoped: seq<Snapshot>, rows: seq<Snapshot>, at: int, step: int, latest: int)
    requires SweepInput(scoped, rows) && at <= latest
    ensures SumsReadings(BucketTotals(rows, LotsOf(rows), at, latest, step), scoped, at, step)
  {
    var chosen := SweepRows(rows, LotsOf(rows), at, step);
    TotalsReport(chosen);
    forall r ensures r in chosen <==> IsReading(scoped, at, step, r) {
      SweepChoosesFirst(scoped, rows, at, step, r);
      ReadingComesFirst(scoped, at, step, r);
    }
  }

  /** The grid counted back from its last historical point. */
  lemma GridFromEnd(anchor: int, days: int, interval: int, k: int)
    requires 1 <= interval <= 60
    ensures Bucket(GridStart(anchor, days, interval), interval * MINUTE, k)
            == Aligned(anchor, interval) - (HistoryBuckets(days, interval) - 1 - k) * (interval * MINUTE)
  {
    var n, step := HistoryBuckets(days, interval), interval * MINUTE;
    assert (n - 1 - k) * step == step * (n - 1) - step * k;
  }

  lemma SweptHistoryReports(
    scoped: seq<Snapshot>, rows: seq<Snapshot>, swept: seq<Point>, days: int, interval: int, anchor: int)
    requires 1 <= interval <= 60 && SweepInput(scoped, rows) && |swept| == HistoryBuckets(days, interval)
    requires Swept(swept, rows, LotsOf(rows), GridStart(anchor, days, interval), interval * MINUTE, anchor)
    ensures HistoryReports(swept, scoped, Aligned(anchor, interval), interval * MINUTE)
  {
    var step, start, n := interval * MINUTE, GridStart(anchor, days, interval), |swept|;
    forall k | 0 <= k < n
      ensures swept[k].bucketAt == Aligned(anchor, interval) - (n - 1 - k) * step
      ensures SumsReadings(swept[k].totals, scoped, swept[k].bucketAt, step)
    {
      GridFromEnd(anchor, days, interval, k);
      GridEndsAtAnchor(anchor, days, interval, k);
      SweptSumsReadings(scoped, rows, Bucket(start, step, k), step, anchor);
    }
  }

  /** `max(1, days * 24 * 60 / interval)`. */
  ghost predicate HistoryCount(n: int, days: int, interval: int)
    requires interval > 0
  {
    if n == 1 then days * 1440 < 2 * interval else n > 1 && n * interval <= days * 1440 < (n + 1) * interval
  }

  lemma HistoryBucketsCount(days: int, interval: int)
    requires interval > 0
    ensures HistoryCount(HistoryBuckets(days, interval), days, interval)
  {
    var total, n := days * 24 * 60, days * 24 * 60 / interval;
    assert total == interval * n + total % interval;
    assert interval * n == n * interval && (n + 1) * interval == n * interval + interval;
    if n < 1 {
      ProductGap(interval, n);
    }
  }

  /**
   For every list of stored rows, interval and requested range, the three forms give the same series:
   whatever `build_time_series` returns over the deduplicated rows is the answer of both queries over all rows.
   */
  method AnchoredSeries(scoped: seq<Snapshot>, ghost lots: set<int>, days: int, interval: int, anchor: int)
    returns (series: seq<Point>)
    requires 1 <= interval <= 60 && UniqueIds(scoped)
    requires forall q :: q in scoped ==> q.lot in lots
    ensures scoped == [] ==> series == []
    ensures scoped != [] ==>
              && IsSingleScanSeries(scoped, days, interval, anchor, series)
              && IsLateralSeries(scoped, lots, days, interval, anchor, series)
    ensures scoped != [] ==>
              && HistoryCount(|series|, days, interval)
              && HistoryReports(series, scoped, Aligned(anchor, interval), interval * MINUTE)
  {
    var snapshots := DeduplicateSnapshots(scoped);
    LoadedRows(scoped, snapshots);
    var built := BuildTimeSeries(snapshots, days, interval, 0, Some(anchor));
    series := built.value;
    if scoped != [] {
      SweepEqualsSingleScan(scoped, StableSort(snapshots, LotThenTime), days, interval, anchor, series);
      HistoryBucketsCount(days, interval);
      assert FutureBuckets(0, interval) == 0;
      SweptHistoryReports(scoped, StableSort(snapshots, LotThenTime), series, days, interval, anchor);
      LateralEqualsSingleScan(scoped, lots, days, interval, anchor, series);
    }
  }

  /** `future_bucket_count`: the buckets of the hours ahead. */
  ghost predicate FutureCount(n: int, futureHours: int, interval: int)
    requires interval > 0
  {
    if n == 0 then futureHours * 60 < interval else n > 0 && n * interval <= futureHours * 60 < (n + 1) * interval
  }

  lemma FutureBucketsCount(futureHours: int, interval: int)
    requires interval > 0
    ensures FutureCount(FutureBuckets(futureHours, interval), futureHours, interval)
  {
    var total, n := futureHours * 60, futureHours * 60 / interval;
    assert total == interval * n + total % interval;
    assert interval * n == n * interval && (n + 1) * interval == n * interval + interval;
    if n < 0 {
      ProductGap(interval, n);
    }
  }

  /**
   The answer of a relative query: `h` historical points up to the aligned instant, the latest instant itself at `at`,
   and empty points after it, one interval apart.
   */
  ghost predicate RelativeReports(
    series: seq<Point>, rows: seq<Snapshot>, latest: int, aligned: int, step: int, h: nat, future: nat)
  {
    var at := if aligned == latest then h - 1 else h;
    && h >= 1 && |series| == at + 1 + future
    && HistoryReports(series[..h], rows, aligned, step)
    && series[at].bucketAt == latest && SumsReadings(series[at].totals, rows, latest, step)
    && forall k :: at < k < |series| ==> series[k] == Point(aligned + (k - at) * step, Totals(0, 0, 0, 0))
  }

  /** The buckets after the latest instant are empty and one interval apart. */
  lemma FutureIsEmpty(rows: seq<Snapshot>, swept: seq<Point>, days: int, interval: int, latest: int, i: nat)
    requires 1 <= interval <= 60 && HistoryBuckets(days, interval) <= i < |swept|
    requires Swept(swept, rows, LotsOf(rows), GridStart(latest, days, interval), interval * MINUTE, latest)
    ensures swept[i] == Point(
                          Aligned(latest, interval) + (i - HistoryBuckets(days, interval) + 1) * (interval * MINUTE),
                          Totals(0, 0, 0, 0))
  {
    var h, step := HistoryBuckets(days, interval), interval * MINUTE;
    GridAroundLatest(rows, swept, days, interval, latest);
    assert step * i == step * (h - 1) + (i - h + 1) * step;
    assert swept[i].totals == NOTHING && swept[i].bucketAt == Bucket(GridStart(latest, days, interval), step, i);
  }

  /** What stamping leaves of the grid. */
  lemma StampedTail(swept: seq<Point>, h: nat, point: Point, k: nat)
    requires 1 <= h <= |swept|
    requires var at := if swept[h - 1].bucketAt == point.bucketAt then h - 1 else h;
             at < k < |Stamp(swept, h, point)|
    ensures var at := if swept[h - 1].bucketAt == point.bucketAt then h - 1 else h;
            h <= h - 1 + (k - at) < |swept| && Stamp(swept, h, point)[k] == swept[h - 1 + (k - at)]
  {
  }

  /** The swept grid stamped with the latest point. */
  lemma StampedReportsReadings(
    scoped: seq<Snapshot>, rows: seq<Snapshot>, swept: seq<Point>, days: int, interval: int, future: nat, latest: int)
    requires 1 <= interval <= 60 && SweepInput(scoped, rows) && rows != [] && latest == LatestObserved(rows)
    requires |swept| == HistoryBuckets(days, interval) + future
    requires Swept(swept, rows, LotsOf(rows), GridStart(latest, days, interval), interval * MINUTE, latest)
    ensures RelativeReports(Stamp(swept, HistoryBuckets(days, interval), LatestPoint(rows, latest, interval * MINUTE)),
                            scoped, latest, Aligned(latest, interval), interval * MINUTE,
                            HistoryBuckets(days, interval), future)
  {
    var h, step, start := HistoryBuckets(days, interval), interval * MINUTE, GridStart(latest, days, interval);
    var point := LatestPoint(rows, latest, step);
    StampedGridShape(rows, days, interval, swept, latest);
    SweptHistoryReports(scoped, rows, swept[..h], days, interval, latest);
    StampRepeatsSweep(rows, step);
    SweptSumsReadings(scoped, rows, latest, step, latest);
    forall i: nat | h <= i < |swept|
      ensures swept[i] == Point(Aligned(latest, interval) + (i - h + 1) * step, Totals(0, 0, 0, 0))
    {
      FutureIsEmpty(rows, swept, days, interval, latest, i);
    }
    StampedParts(scoped, swept, h, future, point, Aligned(latest, interval), step);
  }

  /** The parts of the stamped series, from the parts of the grid. */
  lemma StampedParts(scoped: seq<Snapshot>, swept: seq<Point>, h: nat, future: nat, point: Point, aligned: int,
      step: int)
    requires 1 <= h && |swept| == h + future && swept[h - 1].bucketAt == aligned
    requires HistoryReports(swept[..h], scoped, aligned, step)
             && SumsReadings(point.totals, scoped, point.bucketAt, step)
    requires Stamp(swept, h, point)[..h] == swept[..h]
    requires forall i :: h <= i < |swept| ==> swept[i] == Point(aligned + (i - h + 1) * step, Totals(0, 0, 0, 0))
    ensures RelativeReports(Stamp(swept, h, point), scoped, point.bucketAt, aligned, step, h, future)
  {
    var series, at := Stamp(swept, h, point), if aligned == point.bucketAt then h - 1 else h;
    assert series[at] == point;
    forall k | at < k < |series| ensures series[k] == Point(aligned + (k - at) * step, Totals(0, 0, 0, 0)) {
      StampedTail(swept, h, point, k);
      assert h - 1 + (k - at) - h + 1 == k - at;
    }
  }

  /**
   A relative query over stored rows: what `build_time_series` returns over the deduplicated rows, stated on the rows.
   */
  method RelativeSeries(scoped: seq<Snapshot>, days: int, interval: int, futureHours: int) returns (series: seq<Point>)
    requires 1 <= interval <= 60 && UniqueIds(scoped)
    ensures scoped == [] ==> series == []
    ensures scoped != [] ==>
              exists latest, h: nat, future: nat ::
                && IsLatest(scoped, latest) && HistoryCount(h, days, interval)
                && FutureCount(future, futureHours, interval)
                && RelativeReports(series, scoped, latest, Aligned(latest, interval), interval * MINUTE, h, future)
  {
    var snapshots := DeduplicateSnapshots(scoped);
    LoadedRows(scoped, snapshots);
    var built := BuildTimeSeries(snapshots, days, interval, futureHours, None);
    series := built.value;
    if scoped != [] {
      BuiltReportsReadings(scoped, StableSort(snapshots, LotThenTime), days, interval, futureHours, series);
    }
  }

  lemma BuiltReportsReadings(
    scoped: seq<Snapshot>, rows: seq<Snapshot>, days: int, interval: int, futureHours: int, series: seq<Point>)
    requires 1 <= interval <= 60 && SweepInput(scoped, rows) && rows != []
    requires IsTimeSeries(rows, days, interval, futureHours, None, series)
    ensures var latest, h, future := LatestObserved(rows), HistoryBuckets(days, interval),
            FutureBuckets(futureHours, interval);
            && IsLatest(scoped, latest) && HistoryCount(h, days, interval) && FutureCount(future, futureHours, interval)
            && RelativeReports(series, scoped, latest, Aligned(latest, interval), interval * MINUTE, h, future)
  {
    var latest, h, step := LatestObserved(rows), HistoryBuckets(days, interval), interval * MINUTE;
    LatestOfScope(scoped, rows);
    HistoryBucketsCount(days, interval);
    FutureBucketsCount(futureHours, interval);
    var swept: seq<Point> :|
      && |swept| == h + FutureBuckets(futureHours, interval)
      && Swept(swept, rows, LotsOf(rows), GridStart(latest, days, interval), step, latest)
      && series == Stamp(swept, h, LatestPoint(rows, latest, step));
    StampedReportsReadings(scoped, rows, swept, days, interval, FutureBuckets(futureHours, interval), latest);
  }

  /** Deduplication keeps the latest instant. */
  lemma LatestOfScope(scoped: seq<Snapshot>, rows: seq<Snapshot>)
    requires SweepInput(scoped, rows) && rows != []
    ensures IsLatest(scoped, LatestObserved(rows))
  {
    LatestObservedIsMax(rows);
    forall s | s in scoped ensures s.observedAt <= LatestObserved(rows) {
      var w := WinnerExists(scoped, s);
      assert w in rows;
    }
  }
}
