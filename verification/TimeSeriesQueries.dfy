/**
 The two SQL forms of the parking time series over a calendar range: the per-bucket LATERAL query, and the
 single scan that assigns every observation to its buckets and keeps the first of each (lot, bucket).
 `rows` are the snapshots of the requested scope with start_at <= observed_at < end_at.
 */
module TimeSeriesQueries {
  import opened Arithmetic
  import opened Common
  import opened Snapshots
  import opened Sorting

  // ----- bucket totals -----

  datatype Totals = Totals(available: int, occupied: int, total: int, lots: int)

  const NOTHING: Totals := Totals(0, 0, 0, 0)

  function AddRow(t: Totals, s: Snapshot): Totals {
    Totals(t.available + s.available, t.occupied + s.occupied, t.total + s.total, t.lots + 1)
  }

  /** SUM of the three columns and COUNT over the chosen rows of a bucket. */
  ghost function SumRows(rows: set<Snapshot>): Totals {
    if rows == {} then NOTHING else var r :| r in rows; AddRow(SumRows(rows - {r}), r)
  }

  /** The sum does not depend on the order in which the rows are added. */
  lemma {:induction false} SumRowsInsert(rows: set<Snapshot>, s: Snapshot)
    requires s !in rows
    ensures SumRows(rows + {s}) == AddRow(SumRows(rows), s)
    decreases rows
  {
    var all := rows + {s};
    var r :| r in all && SumRows(all) == AddRow(SumRows(all - {r}), r);
    if r == s {
      assert all - {s} == rows;
    } else {
      var rest := rows - {r};
      assert all - {r} == rest + {s} && rest + {r} == rows;
      SumRowsInsert(rest, s);
      SumRowsInsert(rest, r);
      assert SumRows(rows) == AddRow(SumRows(rest), r);
      assert SumRows(all) == AddRow(AddRow(SumRows(rest), s), r);
    }
  }

  /** The sum of one column over a set of rows. */
  ghost function SumOf(rows: set<Snapshot>, value: Snapshot -> int): int {
    if rows == {} then 0 else var r :| r in rows; value(r) + SumOf(rows - {r}, value)
  }

  lemma {:induction false} SumOfInsert(rows: set<Snapshot>, s: Snapshot, value: Snapshot -> int)
    requires s !in rows
    ensures SumOf(rows + {s}, value) == SumOf(rows, value) + value(s)
    decreases rows
  {
    var all := rows + {s};
    var r :| r in all && SumOf(all, value) == value(r) + SumOf(all - {r}, value);
    if r == s {
      assert all - {s} == rows;
    } else {
      var rest := rows - {r};
      assert all - {r} == rest + {s} && rest + {r} == rows;
      SumOfInsert(rest, s, value);
      SumOfInsert(rest, r, value);
    }
  }

  /** `t` reports each column summed over the rows, and their number. */
  ghost predicate Reports(t: Totals, rows: set<Snapshot>) {
    && t.available == SumOf(rows, AvailableSpaces)
    && t.occupied == SumOf(rows, OccupiedSpaces)
    && t.total == SumOf(rows, TotalSpaces)
    && t.lots == |rows|
  }

  function AvailableSpaces(s: Snapshot): int { s.available }

  function OccupiedSpaces(s: Snapshot): int { s.occupied }

  function TotalSpaces(s: Snapshot): int { s.total }

  lemma {:induction false} TotalsReport(rows: set<Snapshot>)
    ensures Reports(SumRows(rows), rows)
    decreases rows
  {
    if rows != {} {
      var r :| r in rows;
      var rest := rows - {r};
      assert rest + {r} == rows;
      SumRowsInsert(rest, r);
      TotalsReport(rest);
      SumOfInsert(rest, r, AvailableSpaces);
      SumOfInsert(rest, r, OccupiedSpaces);
      SumOfInsert(rest, r, TotalSpaces);
    }
  }

  /** The readings of the lots that have one. */
  function Collect(reading: int -> Option<Snapshot>, lots: set<int>): set<Snapshot> {
    set lot | lot in lots && reading(lot).Some? :: reading(lot).value
  }

  function AddReading(t: Totals, reading: Option<Snapshot>): Totals {
    match reading
    case None => t
    case Some(s) => AddRow(t, s)
  }

  /** One more lot adds its reading, if it has one: rows of different lots are different. */
  lemma CollectOneMore(reading: int -> Option<Snapshot>, lots: set<int>, lot: int)
    requires forall l :: reading(l).Some? ==> reading(l).value.lot == l
    requires lot !in lots
    ensures SumRows(Collect(reading, lots + {lot})) == AddReading(SumRows(Collect(reading, lots)), reading(lot))
  {
    var before, after := Collect(reading, lots), Collect(reading, lots + {lot});
    if reading(lot).Some? {
      assert after == before + {reading(lot).value};
      SumRowsInsert(before, reading(lot).value);
    } else {
      assert after == before;
    }
  }

  // ----- the per-bucket query -----

  /** The rows the LATERAL join sees for one lot and bucket: both ends of the window are included. */
  predicate InWindow(s: Snapshot, lot: int, bucket: int, step: int) {
    s.lot == lot && bucket - step <= s.observedAt <= bucket
  }

  /** ORDER BY ... LIMIT 1. */
  function First(rows: seq<Snapshot>): (best: Option<Snapshot>)
    ensures best.None? <==> rows == []
    ensures best.Some? ==> best.value in rows
  {
    if rows == [] then None
    else
      var last := rows[|rows| - 1];
      match First(rows[..|rows| - 1])
      case None => Some(last)
      case Some(b) => if Precedes(last, b) then Some(last) else Some(b)
  }

  function Latest(rows: seq<Snapshot>, lot: int, bucket: int, step: int): Option<Snapshot> {
    First(Select(rows, (s: Snapshot) => InWindow(s, lot, bucket, step)))
  }

  /** The chosen row of every lot that has one. */
  function LateralRows(rows: seq<Snapshot>, lots: set<int>, bucket: int, step: int): set<Snapshot> {
    Collect(lot => Latest(rows, lot, bucket, step), lots)
  }

  /** `r` comes first among the window's rows. */
  ghost predicate FirstInWindow(rows: seq<Snapshot>, bucket: int, step: int, r: Snapshot) {
    && r in rows
    && bucket - step <= r.observedAt <= bucket
    && forall q :: q in rows && InWindow(q, r.lot, bucket, step) && q != r ==> Precedes(r, q)
  }

  lemma {:induction false} FirstPrecedes(rows: seq<Snapshot>, q: Snapshot)
    requires UniqueIds(rows) && q in rows
    ensures First(rows).Some? && (q == First(rows).value || Precedes(First(rows).value, q))
  {
    var front, last := rows[..|rows| - 1], rows[|rows| - 1];
    SplitLast(rows);
    if front != [] {
      FirstPrecedes(front, front[0]);
      if q in front {
        FirstPrecedes(front, q);
      }
    }
  }

  lemma LatestIsFirst(rows: seq<Snapshot>, lot: int, bucket: int, step: int)
    requires UniqueIds(rows)
    ensures var best := Latest(rows, lot, bucket, step);
            && (best.Some? ==> best.value.lot == lot && FirstInWindow(rows, bucket, step, best.value))
            && (best.None? ==> forall q :: q in rows ==> !InWindow(q, lot, bucket, step))
  {
    var keep := (s: Snapshot) => InWindow(s, lot, bucket, step);
    var kept := Select(rows, keep);
    forall s ensures s in kept <==> s in rows && keep(s) {
      SelectMember(rows, keep, s);
    }
    forall q | q in rows && InWindow(q, lot, bucket, step)
      ensures First(kept).Some? && (q == First(kept).value || Precedes(First(kept).value, q))
    {
      assert keep(q);
      FirstPrecedes(kept, q);
    }
  }

  /** The per-bucket query chooses exactly the rows that come first in their lot's window. */
  lemma LateralChoosesFirst(rows: seq<Snapshot>, lots: set<int>, bucket: int, step: int, r: Snapshot)
    requires UniqueIds(rows)
    requires forall q :: q in rows ==> q.lot in lots
    ensures r in LateralRows(rows, lots, bucket, step) <==> FirstInWindow(rows, bucket, step, r)
  {
    LatestIsFirst(rows, r.lot, bucket, step);
    forall lot | lot in lots {
      LatestIsFirst(rows, lot, bucket, step);
    }
    if FirstInWindow(rows, bucket, step, r) {
      assert InWindow(r, r.lot, bucket, step);
      assert Latest(rows, r.lot, bucket, step) == Some(r);
    }
  }

  // ----- the single scan -----

  /** PostgreSQL `date_bin`: the start of the bin of `at`, bins being `step` long from `origin`. */
  function DateBin(step: int, at: int, origin: int): int
    requires step > 0
  {
    origin + step * ((at - origin) / step)
  }

  /** `scoped.bucket_at`: the first grid point at or after the observation. */
  function CeilingBucket(step: int, at: int, origin: int): int
    requires step > 0
  {
    DateBin(step, at - 1, origin) + step
  }

  /** Point `n` of the grid from `origin`. */
  function Bucket(origin: int, step: int, n: int): int {
    origin + step * n
  }

  datatype Candidate = Candidate(bucket: int, row: Snapshot)
  datatype BucketKey = BucketKey(lot: int, bucket: int)

  function CandidateKey(c: Candidate): BucketKey {
    BucketKey(c.row.lot, c.bucket)
  }

  /** The CROSS JOIN LATERAL (VALUES ...): one bucket, and the next one too when the row lies on the grid. */
  function Assigned(s: Snapshot, step: int, origin: int): seq<Candidate>
    requires step > 0
  {
    var bucket := CeilingBucket(step, s.observedAt, origin);
    [Candidate(bucket, s)] + if s.observedAt == bucket then [Candidate(bucket + step, s)] else []
  }

  function Candidates(rows: seq<Snapshot>, step: int, origin: int): seq<Candidate>
    requires step > 0
  {
    if rows == [] then []
    else Candidates(rows[..|rows| - 1], step, origin) + Assigned(rows[|rows| - 1], step, origin)
  }

  /** DISTINCT ON (lot, bucket) under the query's ORDER BY. */
  function DistinctOn(cs: seq<Candidate>): map<BucketKey, Snapshot> {
    if cs == [] then map[]
    else
      var chosen, c := DistinctOn(cs[..|cs| - 1]), cs[|cs| - 1];
      if CandidateKey(c) in chosen && !Precedes(c.row, chosen[CandidateKey(c)]) then chosen
      else chosen[CandidateKey(c) := c.row]
  }

  function SingleScanRows(rows: seq<Snapshot>, step: int, origin: int, bucket: int): set<Snapshot>
    requires step > 0
  {
    var chosen := DistinctOn(Candidates(rows, step, origin));
    set key | key in chosen && key.bucket == bucket :: chosen[key]
  }

  /** A row is assigned to a grid bucket exactly when it lies in the closed window before it. */
  lemma AssignedIffInWindow(s: Snapshot, step: int, origin: int, n: int)
    requires step > 0
    ensures Candidate(Bucket(origin, step, n), s) in Assigned(s, step, origin)
            <==> Bucket(origin, step, n) - step <= s.observedAt <= Bucket(origin, step, n)
  {
    var q := (s.observedAt - 1 - origin) / step;
    var bucket := CeilingBucket(step, s.observedAt, origin);
    assert bucket == origin + step * (q + 1);
    assert bucket - step < s.observedAt <= bucket;
    assert step * (n - q - 1) == step * n - step * (q + 1);
    ProductGap(step, n - q - 1);
    if n - q - 1 >= 2 {
      ProductGap(step, n - q - 2);
      assert step * (n - q - 2) == step * (n - q - 1) - step;
    }
  }

  lemma {:induction false} CandidateOrigin(rows: seq<Snapshot>, step: int, origin: int, c: Candidate)
    requires step > 0
    ensures c in Candidates(rows, step, origin) <==> c.row in rows && c in Assigned(c.row, step, origin)
  {
    if rows != [] {
      CandidateOrigin(rows[..|rows| - 1], step, origin, c);
      SplitLast(rows);
    }
  }

  lemma {:induction false} DistinctOnKeepsFirst(cs: seq<Candidate>, key: BucketKey)
    requires forall a, b :: a in cs && b in cs && a.row.id == b.row.id ==> a.row == b.row
    ensures key in DistinctOn(cs) <==> exists c :: c in cs && CandidateKey(c) == key
    ensures key in DistinctOn(cs) ==>
              && Candidate(key.bucket, DistinctOn(cs)[key]) in cs
              && DistinctOn(cs)[key].lot == key.lot
              && forall c :: c in cs && CandidateKey(c) == key && c.row != DistinctOn(cs)[key] ==>
                   Precedes(DistinctOn(cs)[key], c.row)
  {
    if cs != [] {
      DistinctOnKeepsFirst(cs[..|cs| - 1], key);
      SplitLast(cs);
    }
  }

  /** On the grid, the single scan chooses exactly the rows that come first in their lot's window. */
  lemma SingleScanChoosesFirst(rows: seq<Snapshot>, step: int, origin: int, n: int, r: Snapshot)
    requires step > 0 && UniqueIds(rows)
    ensures r in SingleScanRows(rows, step, origin, Bucket(origin, step, n))
            <==> FirstInWindow(rows, Bucket(origin, step, n), step, r)
  {
    var bucket := Bucket(origin, step, n);
    var cs := Candidates(rows, step, origin);
    var key := BucketKey(r.lot, bucket);
    forall s: Snapshot ensures Candidate(bucket, s) in cs <==> s in rows && bucket - step <= s.observedAt <= bucket {
      CandidateOrigin(rows, step, origin, Candidate(bucket, s));
      AssignedIffInWindow(s, step, origin, n);
    }
    forall a, b | a in cs && b in cs && a.row.id == b.row.id ensures a.row == b.row {
      CandidateOrigin(rows, step, origin, a);
      CandidateOrigin(rows, step, origin, b);
    }
    forall k ensures k in DistinctOn(cs) ==> DistinctOn(cs)[k].lot == k.lot {
      DistinctOnKeepsFirst(cs, k);
    }
    DistinctOnKeepsFirst(cs, key);
    assert r in SingleScanRows(rows, step, origin, bucket) <==> key in DistinctOn(cs) && DistinctOn(cs)[key] == r;
    if FirstInWindow(rows, bucket, step, r) {
      assert Candidate(bucket, r) in cs && CandidateKey(Candidate(bucket, r)) == key;
    }
    if key in DistinctOn(cs) && DistinctOn(cs)[key] == r {
      forall q | q in rows && InWindow(q, r.lot, bucket, step) && q != r ensures Precedes(r, q) {
        assert Candidate(bucket, q) in cs && CandidateKey(Candidate(bucket, q)) == key;
      }
    }
  }

  // ----- the theorem -----

  lemma SameRowsChosen(rows: seq<Snapshot>, lots: set<int>, step: int, origin: int, n: int, r: Snapshot)
    requires step > 0 && UniqueIds(rows)
    requires forall q :: q in rows ==> q.lot in lots
    ensures r in SingleScanRows(rows, step, origin, Bucket(origin, step, n))
        <==> r in LateralRows(rows, lots, Bucket(origin, step, n), step)
  {
    SingleScanChoosesFirst(rows, step, origin, n, r);
    LateralChoosesFirst(rows, lots, Bucket(origin, step, n), step, r);
  }

  /** The fast query and the per-bucket query report the same totals in every bucket of the grid. */
  lemma SingleScanEqualsLateral(rows: seq<Snapshot>, lots: set<int>, step: int, origin: int, n: int)
    requires step > 0 && UniqueIds(rows)
    requires forall q :: q in rows ==> q.lot in lots
    ensures SumRows(SingleScanRows(rows, step, origin, Bucket(origin, step, n)))
         == SumRows(LateralRows(rows, lots, Bucket(origin, step, n), step))
  {
    var fast := SingleScanRows(rows, step, origin, Bucket(origin, step, n));
    var slow := LateralRows(rows, lots, Bucket(origin, step, n), step);
    forall r ensures r in fast <==> r in slow {
      SameRowsChosen(rows, lots, step, origin, n, r);
    }
    assert fast == slow;
  }
}
