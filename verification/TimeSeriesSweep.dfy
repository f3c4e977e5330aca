/**
 `build_time_series`: a two-pointer sweep per lot over the bucket grid, anchored either on a requested end of
 range or, for "the last N days", on the latest observation, whose exact reading is then stamped in.
 Below, `rows` are the snapshots sorted by lot and time.
 */
module TimeSeriesSweep {
  import opened Arithmetic
  import opened Common
  import opened Snapshots
  import opened Sorting
  import opened TimeSeriesQueries
  import opened TimeUtils

  datatype Point = Point(bucketAt: int, totals: Totals)

  // ----- one lot -----

  function LotThenTime(s: Snapshot): Key {
    Key(s.lot, s.observedAt)
  }

  function OfLot(lot: int): Snapshot -> bool {
    (s: Snapshot) => s.lot == lot
  }

  function LotRows(rows: seq<Snapshot>, lot: int): seq<Snapshot> {
    Select(rows, OfLot(lot))
  }

  predicate OneLotByTime(rows: seq<Snapshot>) {
    && SortedBy(rows, LotThenTime)
    && forall i, j :: 0 <= i < |rows| && 0 <= j < |rows| ==> rows[i].lot == rows[j].lot
  }

  lemma LotRowsContents(rows: seq<Snapshot>, lot: int)
    requires SortedBy(rows, LotThenTime)
    ensures OneLotByTime(LotRows(rows, lot))
    ensures forall s :: s in LotRows(rows, lot) <==> s in rows && s.lot == lot
  {
    var ofLot := LotRows(rows, lot);
    SelectSorted(rows, OfLot(lot), LotThenTime);
    forall s ensures s in ofLot <==> s in rows && s.lot == lot {
      SelectMember(rows, OfLot(lot), s);
    }
    forall i | 0 <= i < |ofLot| ensures ofLot[i].lot == lot {
      assert ofLot[i] in ofLot;
    }
  }

  /** The last row of a lot observed by `bucket`. */
  function Current(lotRows: seq<Snapshot>, bucket: int): Option<Snapshot> {
    if lotRows == [] then None
    else if lotRows[|lotRows| - 1].observedAt <= bucket then Some(lotRows[|lotRows| - 1])
    else Current(lotRows[..|lotRows| - 1], bucket)
  }

  /** The lot's reading at `bucket` unless it is older than one interval. */
  function Fresh(lotRows: seq<Snapshot>, bucket: int, step: int): Option<Snapshot> {
    var c := Current(lotRows, bucket);
    if c.Some? && bucket - c.value.observedAt > step then None else c
  }

  lemma {:induction false} CurrentIsLast(lotRows: seq<Snapshot>, bucket: int)
    requires OneLotByTime(lotRows)
    ensures match Current(lotRows, bucket)
            case None => forall s :: s in lotRows ==> s.observedAt > bucket
            case Some(c) =>
              && c in lotRows && c.observedAt <= bucket
              && forall s :: s in lotRows && s.observedAt <= bucket ==> s.observedAt <= c.observedAt
  {
    if lotRows != [] {
      var front, last := lotRows[..|lotRows| - 1], lotRows[|lotRows| - 1];
      CurrentIsLast(front, bucket);
      SplitLast(lotRows);
      forall i | 0 <= i < |front| ensures front[i].observedAt <= last.observedAt {
        assert AtMost(LotThenTime(lotRows[i]), LotThenTime(last));
      }
    }
  }

  lemma {:induction false} CurrentAtIndex(lotRows: seq<Snapshot>, bucket: int, index: nat)
    requires index <= |lotRows| && OneLotByTime(lotRows)
    requires forall i :: 0 <= i < index ==> lotRows[i].observedAt <= bucket
    requires index < |lotRows| ==> lotRows[index].observedAt > bucket
    ensures Current(lotRows, bucket) == if index == 0 then None else Some(lotRows[index - 1])
  {
    if index < |lotRows| {
      var front, last := lotRows[..|lotRows| - 1], lotRows[|lotRows| - 1];
      assert index < |lotRows| - 1 ==> AtMost(LotThenTime(lotRows[index]), LotThenTime(last));
      CurrentAtIndex(front, bucket, index);
    }
  }

  /** What one lot's pass does to a bucket. */
  function SweepPoint(p: Point, lotRows: seq<Snapshot>, step: int, latest: int): Point {
    if p.bucketAt > latest then p
    else p.(totals := AddReading(p.totals, Fresh(lotRows, p.bucketAt, step)))
  }

  /** One lot's pass over the buckets, accumulating into `items`. */
  method SweepLot(lotRows: seq<Snapshot>, step: int, latest: int, items: array<Point>)
    requires OneLotByTime(lotRows)
    requires forall i, j :: 0 <= i < j < items.Length ==> items[i].bucketAt < items[j].bucketAt
    modifies items
    ensures forall k :: 0 <= k < items.Length ==> items[k] == SweepPoint(old(items[k]), lotRows, step, latest)
  {
    var index := 0;
    var current: Option<Snapshot> := None;
    for k := 0 to items.Length
      invariant 0 <= index <= |lotRows|
      invariant current == if index == 0 then None else Some(lotRows[index - 1])
      invariant forall i :: 0 <= i < index && k < items.Length ==> lotRows[i].observedAt <= items[k].bucketAt
      invariant forall j :: k <= j < items.Length ==> items[j] == old(items[j])
      invariant forall j :: 0 <= j < k ==> items[j] == SweepPoint(old(items[j]), lotRows, step, latest)
    {
      var bucket := items[k].bucketAt;
      if bucket <= latest {
        while index < |lotRows| && lotRows[index].observedAt <= bucket
          invariant 0 <= index <= |lotRows|
          invariant current == if index == 0 then None else Some(lotRows[index - 1])
          invariant forall i :: 0 <= i < index ==> lotRows[i].observedAt <= bucket
        {
          current := Some(lotRows[index]);
          index := index + 1;
        }
        CurrentAtIndex(lotRows, bucket, index);
        if current.Some? && bucket - current.value.observedAt <= step {
          items[k] := items[k].(totals := AddRow(items[k].totals, current.value));
        }
      }
    }
  }

  // ----- grouping by lot -----

  function AppendToLot(byLot: map<int, seq<Snapshot>>, s: Snapshot): map<int, seq<Snapshot>> {
    byLot[s.lot := (if s.lot in byLot then byLot[s.lot] else []) + [s]]
  }

  function Grouped(rows: seq<Snapshot>): map<int, seq<Snapshot>> {
    if rows == [] then map[] else AppendToLot(Grouped(rows[..|rows| - 1]), rows[|rows| - 1])
  }

  /** The keys of `Grouped(rows)` in insertion order. */
  function LotOrder(rows: seq<Snapshot>): seq<int> {
    if rows == [] then []
    else
      var order, lot := LotOrder(rows[..|rows| - 1]), rows[|rows| - 1].lot;
      if lot in Grouped(rows[..|rows| - 1]) then order else order + [lot]
  }

  function LotsOf(rows: seq<Snapshot>): set<int> {
    Grouped(rows).Keys
  }

  /** Every lot with rows is a key, and its list has those rows in order. */
  lemma {:induction false} GroupedContents(rows: seq<Snapshot>, lot: int)
    ensures lot in LotsOf(rows) <==> LotRows(rows, lot) != []
    ensures lot in LotsOf(rows) ==> Grouped(rows)[lot] == LotRows(rows, lot)
  {
    if rows != [] {
      GroupedContents(rows[..|rows| - 1], lot);
    }
  }

  ghost function SetOf(lots: seq<int>): set<int> {
    if lots == [] then {} else SetOf(lots[..|lots| - 1]) + {lots[|lots| - 1]}
  }

  lemma {:induction false} LotOrderIsComplete(rows: seq<Snapshot>)
    ensures SetOf(LotOrder(rows)) == LotsOf(rows)
  {
    if rows != [] {
      var front := rows[..|rows| - 1];
      LotOrderIsComplete(front);
      var lots := LotOrder(rows);
      assert rows[|rows| - 1].lot !in LotsOf(front) ==> lots[..|lots| - 1] == LotOrder(front);
    }
  }

  lemma SetOfPrefix(lots: seq<int>, i: nat)
    requires i < |lots|
    ensures SetOf(lots[..i + 1]) == SetOf(lots[..i]) + {lots[i]}
  {
    assert lots[..i + 1][..i] == lots[..i];
  }

  lemma {:induction false} LotOrderHasNoRepeat(rows: seq<Snapshot>, i: nat)
    requires i < |LotOrder(rows)|
    ensures LotOrder(rows)[i] in LotsOf(rows)
    ensures LotOrder(rows)[i] !in SetOf(LotOrder(rows)[..i])
  {
    var front := rows[..|rows| - 1];
    var before := LotOrder(front);
    assert LotOrder(rows)[..|before|] == before;
    assert LotOrder(rows)[..i] == before[..i];
    if i < |before| {
      LotOrderHasNoRepeat(front, i);
    } else {
      LotOrderIsComplete(front);
      assert before[..|before|] == before;
    }
  }

  /** `snapshots_by_lot`, with the order of its keys. */
  method GroupByLot(rows: seq<Snapshot>) returns (lots: seq<int>, byLot: map<int, seq<Snapshot>>)
    ensures lots == LotOrder(rows) && byLot == Grouped(rows)
  {
    lots, byLot := [], map[];
    for i := 0 to |rows|
      invariant lots == LotOrder(rows[..i]) && byLot == Grouped(rows[..i])
    {
      assert rows[..i + 1][..i] == rows[..i];
      if rows[i].lot !in byLot {
        lots := lots + [rows[i].lot];
      }
      byLot := AppendToLot(byLot, rows[i]);
    }
    assert rows[..|rows|] == rows;
  }

  /** What the loops know about the key they visit at turn `i`. */
  lemma LotGroup(rows: seq<Snapshot>, i: nat)
    requires SortedBy(rows, LotThenTime) && i < |LotOrder(rows)|
    ensures var lot := LotOrder(rows)[i];
            && lot in Grouped(rows)
            && Grouped(rows)[lot] == LotRows(rows, lot) != []
            && OneLotByTime(LotRows(rows, lot))
            && lot !in SetOf(LotOrder(rows)[..i])
            && SetOf(LotOrder(rows)[..i + 1]) == SetOf(LotOrder(rows)[..i]) + {lot}
  {
    LotOrderHasNoRepeat(rows, i);
    GroupedContents(rows, LotOrder(rows)[i]);
    LotRowsContents(rows, LotOrder(rows)[i]);
    SetOfPrefix(LotOrder(rows), i);
  }

  // ----- the swept grid -----

  function FreshAt(rows: seq<Snapshot>, bucket: int, step: int): int -> Option<Snapshot> {
    lot => Fresh(LotRows(rows, lot), bucket, step)
  }

  /** Every lot's fresh reading at `bucket`. */
  function SweepRows(rows: seq<Snapshot>, lots: set<int>, bucket: int, step: int): set<Snapshot> {
    Collect(FreshAt(rows, bucket, step), lots)
  }

  ghost function BucketTotals(rows: seq<Snapshot>, lots: set<int>, bucket: int, latest: int, step: int): Totals {
    if bucket > latest then NOTHING else SumRows(SweepRows(rows, lots, bucket, step))
  }

  ghost function SweptPoint(rows: seq<Snapshot>, lots: set<int>, bucket: int, step: int, latest: int): Point {
    Point(bucket, BucketTotals(rows, lots, bucket, latest, step))
  }

  /** `items` is the grid from `start`, summed over `lots`. */
  ghost predicate Swept(items: seq<Point>, rows: seq<Snapshot>, lots: set<int>, start: int, step: int, latest: int) {
    forall k :: 0 <= k < |items| ==> items[k] == SweptPoint(rows, lots, Bucket(start, step, k), step, latest)
  }

  lemma FreshIsOfLot(rows: seq<Snapshot>, lot: int, bucket: int, step: int)
    requires SortedBy(rows, LotThenTime)
    ensures var f := FreshAt(rows, bucket, step)(lot);
            f.Some? ==> f.value.lot == lot && f.value in rows && bucket - step <= f.value.observedAt <= bucket
  {
    LotRowsContents(rows, lot);
    CurrentIsLast(LotRows(rows, lot), bucket);
  }

  lemma BucketOneMore(rows: seq<Snapshot>, lots: set<int>, lot: int, bucket: int, step: int)
    requires SortedBy(rows, LotThenTime) && lot !in lots
    ensures SumRows(SweepRows(rows, lots + {lot}, bucket, step))
         == AddReading(SumRows(SweepRows(rows, lots, bucket, step)), Fresh(LotRows(rows, lot), bucket, step))
  {
    var reading := FreshAt(rows, bucket, step);
    forall l ensures reading(l).Some? ==> reading(l).value.lot == l {
      FreshIsOfLot(rows, l, bucket, step);
    }
    CollectOneMore(reading, lots, lot);
  }

  lemma SweptOneMore(
    before: seq<Point>, after: seq<Point>, rows: seq<Snapshot>, lots: set<int>, lot: int, start: int, step: int,
    latest: int)
    requires SortedBy(rows, LotThenTime)
    requires lot !in lots && |after| == |before| && Swept(before, rows, lots, start, step, latest)
    requires forall k :: 0 <= k < |after| ==> after[k] == SweepPoint(before[k], LotRows(rows, lot), step, latest)
    ensures Swept(after, rows, lots + {lot}, start, step, latest)
  {
    forall k | 0 <= k < |after| {
      BucketOneMore(rows, lots, lot, Bucket(start, step, k), step);
    }
  }

  lemma GridIncreases(start: int, step: int, i: int, j: int)
    requires step > 0 && i < j
    ensures Bucket(start, step, i) < Bucket(start, step, j)
  {
    ProductGap(step, j - i);
    assert step * (j - i) == step * j - step * i;
  }

  lemma SweptIncreases(items: seq<Point>, rows: seq<Snapshot>, lots: set<int>, start: int, step: int, latest: int)
    requires step > 0 && Swept(items, rows, lots, start, step, latest)
    ensures forall i, j :: 0 <= i < j < |items| ==> items[i].bucketAt < items[j].bucketAt
  {
    forall i, j | 0 <= i < j < |items| ensures items[i].bucketAt < items[j].bucketAt {
      GridIncreases(start, step, i, j);
    }
  }

  /** The sweep of every lot over a fresh grid of `count` buckets. */
  method SweepLots(
    rows: seq<Snapshot>, lots: seq<int>, byLot: map<int, seq<Snapshot>>, start: int, count: nat, step: int, latest: int)
    returns (items: seq<Point>)
    requires SortedBy(rows, LotThenTime) && step > 0
    requires lots == LotOrder(rows) && byLot == Grouped(rows)
    ensures |items| == count && Swept(items, rows, LotsOf(rows), start, step, latest)
  {
    var grid := new Point[count](k => Point(Bucket(start, step, k), NOTHING));
    for i := 0 to |lots|
      invariant Swept(grid[..], rows, SetOf(lots[..i]), start, step, latest)
    {
      LotGroup(rows, i);
      ghost var before := grid[..];
      SweptIncreases(before, rows, SetOf(lots[..i]), start, step, latest);
      SweepLot(byLot[lots[i]], step, latest, grid);
      SweptOneMore(before, grid[..], rows, SetOf(lots[..i]), lots[i], start, step, latest);
    }
    assert lots[..|lots|] == lots;
    LotOrderIsComplete(rows);
    items := grid[..];
  }

  // ----- the latest point -----

  /** `latest_observed_at` without a requested anchor. */
  function LatestObserved(rows: seq<Snapshot>): int
    requires rows != []
  {
    var last := rows[|rows| - 1].observedAt;
    if |rows| == 1 then last
    else
      var before := LatestObserved(rows[..|rows| - 1]);
      if before > last then before else last
  }

  /** A lot's last row, unless it is stale by `latest`. */
  function LastAt(rows: seq<Snapshot>, latest: int, step: int): int -> Option<Snapshot> {
    lot =>
      var lotRows := LotRows(rows, lot);
      if lotRows == [] || latest - lotRows[|lotRows| - 1].observedAt > step then None
      else Some(lotRows[|lotRows| - 1])
  }

  ghost function LatestTotals(rows: seq<Snapshot>, lots: set<int>, latest: int, step: int): Totals {
    SumRows(Collect(LastAt(rows, latest, step), lots))
  }

  ghost function LatestPoint(rows: seq<Snapshot>, latest: int, step: int): Point {
    Point(latest, LatestTotals(rows, LotsOf(rows), latest, step))
  }

  lemma LatestOneMore(rows: seq<Snapshot>, i: nat, latest: int, step: int)
    requires SortedBy(rows, LotThenTime) && i < |LotOrder(rows)|
    ensures LotOrder(rows)[i] in Grouped(rows) && Grouped(rows)[LotOrder(rows)[i]] != []
    ensures LatestTotals(rows, SetOf(LotOrder(rows)[..i + 1]), latest, step)
         == var last := Last(Grouped(rows)[LotOrder(rows)[i]]);
            var sum := LatestTotals(rows, SetOf(LotOrder(rows)[..i]), latest, step);
            if latest - last.observedAt > step then sum else AddRow(sum, last)
  {
    var reading := LastAt(rows, latest, step);
    forall lot ensures reading(lot).Some? ==> reading(lot).value.lot == lot {
      LastAtHasLot(rows, latest, step, lot);
    }
    LotGroup(rows, i);
    CollectOneMore(reading, SetOf(LotOrder(rows)[..i]), LotOrder(rows)[i]);
  }

  lemma LastAtHasLot(rows: seq<Snapshot>, latest: int, step: int, lot: int)
    requires SortedBy(rows, LotThenTime)
    ensures var last := LastAt(rows, latest, step)(lot); last.Some? ==> last.value.lot == lot
  {
    var lotRows := LotRows(rows, lot);
    LotRowsContents(rows, lot);
    assert lotRows != [] ==> lotRows[|lotRows| - 1] in lotRows;
  }

  function Last(xs: seq<Snapshot>): Snapshot
    requires xs != []
  {
    xs[|xs| - 1]
  }

  /** `latest_item`, summed over the fresh last rows. */
  method StampPoint(rows: seq<Snapshot>, lots: seq<int>, byLot: map<int, seq<Snapshot>>, latest: int, step: int)
    returns (point: Point)
    requires SortedBy(rows, LotThenTime)
    requires lots == LotOrder(rows) && byLot == Grouped(rows)
    ensures point == LatestPoint(rows, latest, step)
  {
    var totals := NOTHING;
    for i := 0 to |lots|
      invariant totals == LatestTotals(rows, SetOf(lots[..i]), latest, step)
    {
      LatestOneMore(rows, i, latest, step);
      var last := Last(byLot[lots[i]]);
      if latest - last.observedAt <= step {
        totals := AddRow(totals, last);
      }
    }
    assert lots[..|lots|] == lots;
    LotOrderIsComplete(rows);
    point := Point(latest, totals);
  }

  /** Replaces the aligned bucket when it is the latest instant, otherwise inserts the point after it. */
  function Stamp(items: seq<Point>, history: nat, point: Point): seq<Point>
    requires 1 <= history <= |items|
  {
    if items[history - 1].bucketAt == point.bucketAt then items[history - 1 := point]
    else items[..history] + [point] + items[history..]
  }

  // ----- the whole series -----

  function HistoryBuckets(days: int, interval: int): (n: nat)
    requires interval > 0
    ensures n >= 1
  {
    var n := days * 24 * 60 / interval;
    if n < 1 then 1 else n
  }

  function FutureBuckets(futureHours: int, interval: int): (n: nat)
    requires interval > 0
  {
    var n := futureHours * 60 / interval;
    if n < 0 then 0 else n
  }

  /** The first bucket; the last historical bucket is the aligned anchor. */
  function GridStart(anchor: int, days: int, interval: int): int
    requires 1 <= interval <= 60
  {
    Aligned(anchor, interval) - interval * MINUTE * (HistoryBuckets(days, interval) - 1)
  }

  /** What the series must be, as a relation: the swept grid, stamped unless an anchor was requested. */
  ghost predicate IsTimeSeries(
    rows: seq<Snapshot>, days: int, interval: int, futureHours: int, anchorAt: Option<int>, series: seq<Point>)
    requires 1 <= interval <= 60 && rows != []
  {
    var step, history := interval * MINUTE, HistoryBuckets(days, interval);
    var anchor := if anchorAt.Some? then anchorAt.value else LatestObserved(rows);
    exists swept: seq<Point> ::
      && |swept| == history + FutureBuckets(futureHours, interval)
      && Swept(swept, rows, LotsOf(rows), GridStart(anchor, days, interval), step, anchor)
      && series == if anchorAt.Some? then swept else Stamp(swept, history, LatestPoint(rows, anchor, step))
  }

  // ----- what a point reports -----

  /** Of each lot observed in the closed window before `at`, `chosen` holds the row observed last by then. */
  ghost predicate LastOfLots(rows: seq<Snapshot>, at: int, step: int, chosen: set<Snapshot>) {
    && (forall r :: r in chosen ==>
          && r in rows && at - step <= r.observedAt <= at
          && forall q :: q in rows && q.lot == r.lot && q.observedAt <= at ==> q.observedAt <= r.observedAt)
    && (forall r, q :: r in chosen && q in chosen && r.lot == q.lot ==> r == q)
    && (forall q :: q in rows && at - step <= q.observedAt <= at ==> exists r :: r in chosen && r.lot == q.lot)
  }

  /** Column by column, the point sums one such row of each lot; after `latest` it is empty. */
  ghost predicate PointReports(p: Point, rows: seq<Snapshot>, step: int, latest: int) {
    if p.bucketAt > latest then p.totals == Totals(0, 0, 0, 0)
    else exists chosen :: LastOfLots(rows, p.bucketAt, step, chosen) && Reports(p.totals, chosen)
  }

  ghost predicate SeriesReports(series: seq<Point>, rows: seq<Snapshot>, step: int, latest: int) {
    forall k :: 0 <= k < |series| ==> PointReports(series[k], rows, step, latest)
  }

  /** The last instant of a relative series is the latest observation. */
  ghost predicate IsLatest(rows: seq<Snapshot>, latest: int) {
    (forall s :: s in rows ==> s.observedAt <= latest) && exists s :: s in rows && s.observedAt == latest
  }

  lemma {:induction false} LatestObservedIsMax(rows: seq<Snapshot>)
    requires rows != []
    ensures IsLatest(rows, LatestObserved(rows))
  {
    var last := rows[|rows| - 1];
    SplitLast(rows);
    assert last in rows;
    if |rows| > 1 {
      var front := rows[..|rows| - 1];
      LatestObservedIsMax(front);
      var s :| s in front && s.observedAt == LatestObserved(front);
      assert s in rows;
    } else {
      assert rows[..|rows| - 1] == [];
    }
  }

  /** A lot with a row in the window has a fresh reading. */
  lemma WindowIsFresh(rows: seq<Snapshot>, q: Snapshot, at: int, step: int)
    requires SortedBy(rows, LotThenTime) && q in rows && at - step <= q.observedAt <= at
    ensures FreshAt(rows, at, step)(q.lot).Some? && q.lot in LotsOf(rows)
  {
    LotRowsContents(rows, q.lot);
    assert q in LotRows(rows, q.lot);
    CurrentIsLast(LotRows(rows, q.lot), at);
    GroupedContents(rows, q.lot);
  }

  lemma FreshIsLast(rows: seq<Snapshot>, lot: int, at: int, step: int)
    requires SortedBy(rows, LotThenTime) && FreshAt(rows, at, step)(lot).Some?
    ensures var r := FreshAt(rows, at, step)(lot).value;
            && r in rows && r.lot == lot && at - step <= r.observedAt <= at
            && forall q :: q in rows && q.lot == lot && q.observedAt <= at ==> q.observedAt <= r.observedAt
  {
    FreshIsOfLot(rows, lot, at, step);
    LotRowsContents(rows, lot);
    CurrentIsLast(LotRows(rows, lot), at);
  }

  /** The swept readings are the last rows of the lots. */
  lemma SweepRowsAreLast(rows: seq<Snapshot>, at: int, step: int)
    requires SortedBy(rows, LotThenTime)
    ensures LastOfLots(rows, at, step, SweepRows(rows, LotsOf(rows), at, step))
  {
    var reading, chosen := FreshAt(rows, at, step), SweepRows(rows, LotsOf(rows), at, step);
    forall lot | reading(lot).Some?
      ensures reading(lot).value.lot == lot && reading(lot).value in rows
              && at - step <= reading(lot).value.observedAt <= at
      ensures forall q :: q in rows && q.lot == lot && q.observedAt <= at ==>
              q.observedAt <= reading(lot).value.observedAt
    {
      FreshIsLast(rows, lot, at, step);
    }
    forall q | q in rows && at - step <= q.observedAt <= at ensures exists r :: r in chosen && r.lot == q.lot {
      WindowIsFresh(rows, q, at, step);
      assert reading(q.lot).value in chosen;
    }
  }

  lemma SweptPointReports(rows: seq<Snapshot>, at: int, step: int, latest: int)
    requires SortedBy(rows, LotThenTime)
    ensures PointReports(SweptPoint(rows, LotsOf(rows), at, step, latest), rows, step, latest)
  {
    SweepRowsAreLast(rows, at, step);
    TotalsReport(SweepRows(rows, LotsOf(rows), at, step));
  }

  /** At the latest instant the sweep has already computed the exact reading. */
  lemma StampRepeatsSweep(rows: seq<Snapshot>, step: int)
    requires SortedBy(rows, LotThenTime) && rows != []
    ensures var latest := LatestObserved(rows);
            LatestTotals(rows, LotsOf(rows), latest, step) == BucketTotals(rows, LotsOf(rows), latest, latest, step)
  {
    var latest := LatestObserved(rows);
    LatestObservedIsMax(rows);
    var last, swept := LastAt(rows, latest, step), FreshAt(rows, latest, step);
    forall lot ensures last(lot) == swept(lot) {
      LotRowsContents(rows, lot);
      var lotRows := LotRows(rows, lot);
      assert lotRows != [] ==> Last(lotRows) in lotRows;
    }
    assert Collect(last, LotsOf(rows)) == Collect(swept, LotsOf(rows));
  }

  lemma SweptReports(swept: seq<Point>, rows: seq<Snapshot>, start: int, step: int, latest: int)
    requires SortedBy(rows, LotThenTime) && Swept(swept, rows, LotsOf(rows), start, step, latest)
    ensures SeriesReports(swept, rows, step, latest)
  {
    forall k | 0 <= k < |swept| ensures PointReports(swept[k], rows, step, latest) {
      SweptPointReports(rows, Bucket(start, step, k), step, latest);
    }
  }

  /** A point of a stamped grid is the stamped point or one of the grid. */
  lemma StampedFrom(swept: seq<Point>, history: nat, point: Point, k: nat) returns (j: nat)
    requires 1 <= history <= |swept| && k < |Stamp(swept, history, point)| && Stamp(swept, history, point)[k] != point
    ensures j < |swept| && Stamp(swept, history, point)[k] == swept[j]
  {
    j := if k < history || swept[history - 1].bucketAt == point.bucketAt then k else k - 1;
  }

  lemma StampedReports(swept: seq<Point>, rows: seq<Snapshot>, history: nat, step: int)
    requires SortedBy(rows, LotThenTime) && rows != [] && 1 <= history <= |swept|
    requires SeriesReports(swept, rows, step, LatestObserved(rows))
    ensures SeriesReports(
              Stamp(swept, history, LatestPoint(rows, LatestObserved(rows), step)), rows, step, LatestObserved(rows))
  {
    var latest := LatestObserved(rows);
    var point := LatestPoint(rows, latest, step);
    StampRepeatsSweep(rows, step);
    SweptPointReports(rows, latest, step, latest);
    var series := Stamp(swept, history, point);
    forall k: nat | k < |series| ensures PointReports(series[k], rows, step, latest) {
      if series[k] != point {
        var j := StampedFrom(swept, history, point, k);
      }
    }
  }

  lemma TimeSeriesReports(
    rows: seq<Snapshot>, days: int, interval: int, futureHours: int, anchorAt: Option<int>, series: seq<Point>,
    latest: int)
    requires 1 <= interval <= 60 && rows != [] && SortedBy(rows, LotThenTime)
    requires IsTimeSeries(rows, days, interval, futureHours, anchorAt, series)
    requires if anchorAt.Some? then latest == anchorAt.value else IsLatest(rows, latest)
    ensures SeriesReports(series, rows, interval * MINUTE, latest)
  {
    var step, history := interval * MINUTE, HistoryBuckets(days, interval);
    var anchor := if anchorAt.Some? then anchorAt.value else LatestObserved(rows);
    assert anchor == latest by {
      LatestObservedIsMax(rows);
    }
    var swept: seq<Point> :|
      && |swept| == history + FutureBuckets(futureHours, interval)
      && Swept(swept, rows, LotsOf(rows), GridStart(anchor, days, interval), step, anchor)
      && series == if anchorAt.Some? then swept else Stamp(swept, history, LatestPoint(rows, anchor, step));
    assert SeriesReports(swept, rows, step, anchor) by {
      SweptReports(swept, rows, GridStart(anchor, days, interval), step, anchor);
    }
    if anchorAt.None? {
      StampedReports(swept, rows, history, step);
    }
  }

  lemma SameLastOfLots(rows: seq<Snapshot>, others: seq<Snapshot>, at: int, step: int, chosen: set<Snapshot>)
    requires LastOfLots(rows, at, step, chosen) && forall s :: s in rows <==> s in others
    ensures LastOfLots(others, at, step, chosen)
  {
    forall q | q in others && at - step <= q.observedAt <= at ensures exists r :: r in chosen && r.lot == q.lot {
      assert q in rows;
    }
  }

  lemma SameReports(series: seq<Point>, rows: seq<Snapshot>, others: seq<Snapshot>, step: int, latest: int)
    requires SeriesReports(series, rows, step, latest) && forall s :: s in rows <==> s in others
    ensures SeriesReports(series, others, step, latest)
  {
    forall k | 0 <= k < |series| ensures PointReports(series[k], others, step, latest) {
      assert PointReports(series[k], rows, step, latest);
      if series[k].bucketAt <= latest {
        var chosen :| LastOfLots(rows, series[k].bucketAt, step, chosen) && Reports(series[k].totals, chosen);
        SameLastOfLots(rows, others, series[k].bucketAt, step, chosen);
      }
    }
  }

  /** `build_time_series`; None stands for the error an interval outside 1..60 raises. */
  method BuildTimeSeries(
    snapshots: seq<Snapshot>, days: int, interval: int, futureHours: int, anchorAt: Option<int>)
    returns (series: Option<seq<Point>>)
    ensures snapshots == [] ==> series == Some([])
    ensures snapshots != [] ==> (series.Some? <==> 1 <= interval <= 60)
    ensures snapshots != [] && series.Some? ==>
              var rows := StableSort(snapshots, LotThenTime);
              rows != [] && IsTimeSeries(rows, days, interval, futureHours, anchorAt, series.value)
    ensures snapshots != [] && series.Some? ==>
              forall latest :: (if anchorAt.Some? then latest == anchorAt.value else IsLatest(snapshots, latest)) ==>
                SeriesReports(series.value, snapshots, interval * MINUTE, latest)
  {
    if snapshots == [] {
      return Some([]);
    }
    if interval <= 0 || interval > 60 {
      return None;
    }
    var rows := StableSort(snapshots, LotThenTime);
    StableSortSorts(snapshots, LotThenTime);
    SameMember(snapshots, rows, snapshots[0]);
    forall s ensures s in rows <==> s in snapshots {
      SameMember(snapshots, rows, s);
    }
    var points := SeriesOf(rows, days, interval, futureHours, anchorAt);
    series := Some(points);
    forall latest | if anchorAt.Some? then latest == anchorAt.value else IsLatest(snapshots, latest)
      ensures SeriesReports(points, snapshots, interval * MINUTE, latest)
    {
      TimeSeriesReports(rows, days, interval, futureHours, anchorAt, points, latest);
      SameReports(points, rows, snapshots, interval * MINUTE, latest);
    }
  }

  method SeriesOf(rows: seq<Snapshot>, days: int, interval: int, futureHours: int, anchorAt: Option<int>)
    returns (series: seq<Point>)
    requires SortedBy(rows, LotThenTime) && rows != [] && 1 <= interval <= 60
    ensures IsTimeSeries(rows, days, interval, futureHours, anchorAt, series)
  {
    var lots, byLot := GroupByLot(rows);
    var anchor := if anchorAt.Some? then anchorAt.value else LatestObserved(rows);
    var step, history := interval * MINUTE, HistoryBuckets(days, interval);
    series := SweepLots(
      rows, lots, byLot, GridStart(anchor, days, interval), history + FutureBuckets(futureHours, interval), step,
          anchor);
    if anchorAt.None? {
      var latest := StampPoint(rows, lots, byLot, anchor, step);
      series := Stamp(series, history, latest);
    }
  }
}
