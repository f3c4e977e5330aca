/**
 Highway traffic statistics: five-minute aggregates merged with the raw rows of the first, incomplete bucket, against
 the aggregation of all raw rows. Sums and averages are exact; SUM over no values counts as 0.
 */
module TrafficStatistics {
  import opened Common
  import opened TimeUtils
  import opened Arithmetic
  import TimeSeriesQueries

  /** Route and direction names are numbered; EMPTY is the empty string. */
  type Name = int
  const EMPTY: Name := 0

  const BUCKET: int := 5 * MINUTE
  /** 2000-01-01 00:00:00 UTC, the origin of `date_bin`. */
  const ORIGIN: int := 946_684_800 * SECOND

  datatype Row = Row(route: Option<Name>, direction: Option<Name>, at: int, speed: Option<real>, freeFlow: Option<real>)

  // ----- aggregates -----

  datatype Aggregate = Aggregate(
    observations: int, speeds: int, speedSum: real, minimum: Option<real>, maximum: Option<real>,
    freeFlows: int, freeFlowSum: real, latest: Option<int>)

  const ZERO: Aggregate := Aggregate(0, 0, 0.0, None, None, 0, 0.0, None)

  function Smaller(a: Option<real>, b: Option<real>): Option<real> {
    if a.None? then b else if b.None? then a else if b.value < a.value then b else a
  }

  function Larger(a: Option<real>, b: Option<real>): Option<real> {
    if a.None? then b else if b.None? then a else if b.value > a.value then b else a
  }

  function Later(a: Option<int>, b: Option<int>): Option<int> {
    if a.None? || (b.Some? && b.value > a.value) then b else a
  }

  function Plus(a: Aggregate, b: Aggregate): Aggregate {
    Aggregate(a.observations + b.observations, a.speeds + b.speeds, a.speedSum + b.speedSum,
              Smaller(a.minimum, b.minimum), Larger(a.maximum, b.maximum),
              a.freeFlows + b.freeFlows, a.freeFlowSum + b.freeFlowSum, Later(a.latest, b.latest))
  }

  lemma PlusLaws(a: Aggregate, b: Aggregate, c: Aggregate)
    ensures Plus(a, b) == Plus(b, a)
    ensures Plus(Plus(a, b), c) == Plus(a, Plus(b, c))
    ensures Plus(a, ZERO) == a && Plus(ZERO, a) == a
  {
  }

  function OfRow(row: Row): Aggregate {
    Aggregate(1, if row.speed.Some? then 1 else 0, if row.speed.Some? then row.speed.value else 0.0,
              row.speed, row.speed,
              if row.freeFlow.Some? then 1 else 0, if row.freeFlow.Some? then row.freeFlow.value else 0.0, Some(row.at))
  }

  // ----- GROUP BY -----

  datatype Keyed<K> = Keyed(key: K, value: Aggregate)

  function SumWhere<K>(rows: seq<Keyed<K>>, keep: K -> bool): Aggregate {
    if rows == [] then ZERO
    else
      var front, last := SumWhere(rows[..|rows| - 1], keep), rows[|rows| - 1];
      if keep(last.key) then Plus(front, last.value) else front
  }

  function Is<K(==)>(key: K): K -> bool {
    k => k == key
  }

  ghost predicate HasKey<K>(rows: seq<Keyed<K>>, key: K) {
    exists i :: 0 <= i < |rows| && rows[i].key == key
  }

  ghost predicate DistinctKeys<K>(rows: seq<Keyed<K>>) {
    forall i, j :: 0 <= i < j < |rows| ==> rows[i].key != rows[j].key
  }

  /** `groups` is what GROUP BY key returns for `rows`, in some order. */
  ghost predicate Grouped<K>(groups: seq<Keyed<K>>, rows: seq<Keyed<K>>) {
    && DistinctKeys(groups)
    && (forall i :: 0 <= i < |rows| ==> HasKey(groups, rows[i].key))
    && (forall i :: 0 <= i < |groups| ==>
          HasKey(rows, groups[i].key) && groups[i].value == SumWhere(rows, Is(groups[i].key)))
  }

  function Without<K(==)>(rows: seq<Keyed<K>>, key: K): seq<Keyed<K>> {
    if rows == [] then []
    else Without(rows[..|rows| - 1], key) + if rows[|rows| - 1].key == key then [] else [rows[|rows| - 1]]
  }

  lemma PlusSwap(a: Aggregate, b: Aggregate, c: Aggregate)
    ensures Plus(Plus(a, b), c) == Plus(Plus(a, c), b)
  {
    PlusLaws(a, b, c);
    PlusLaws(b, c, ZERO);
    PlusLaws(a, c, b);
  }

  /** The rows of one key contribute their total; the others contribute theirs. */
  lemma {:induction false} SplitKey<K>(rows: seq<Keyed<K>>, key: K, keep: K -> bool)
    ensures SumWhere(rows, keep)
         == Plus(SumWhere(Without(rows, key), keep), if keep(key) then SumWhere(rows, Is(key)) else ZERO)
  {
    if rows != [] {
      var front, last := rows[..|rows| - 1], rows[|rows| - 1];
      SplitKey(front, key, keep);
      SplitLastRow(rows, key, keep, SumWhere(Without(front, key), keep), SumWhere(front, Is(key)));
    }
  }

  lemma SplitLastRow<K>(rows: seq<Keyed<K>>, key: K, keep: K -> bool, others: Aggregate, own: Aggregate)
    requires rows != []
    requires others == SumWhere(Without(rows[..|rows| - 1], key), keep) && own == SumWhere(rows[..|rows| - 1], Is(key))
    requires SumWhere(rows[..|rows| - 1], keep) == Plus(others, if keep(key) then own else ZERO)
    ensures SumWhere(rows, keep)
         == Plus(SumWhere(Without(rows, key), keep), if keep(key) then SumWhere(rows, Is(key)) else ZERO)
  {
    var front, last := rows[..|rows| - 1], rows[|rows| - 1];
    if last.key == key {
      assert Without(rows, key) == Without(front, key);
      PlusLaws(others, own, last.value);
    } else {
      assert SumWhere(rows, Is(key)) == own;
      SumAppend(Without(front, key), last, keep);
      PlusSwap(others, if keep(key) then own else ZERO, last.value);
    }
  }

  lemma SumAppend<K>(rows: seq<Keyed<K>>, row: Keyed<K>, keep: K -> bool)
    ensures SumWhere(rows + [row], keep) == if keep(row.key) then Plus(SumWhere(rows, keep), row.value)
            else SumWhere(rows, keep)
  {
    assert (rows + [row])[..|rows|] == rows;
  }

  lemma {:induction false} WithoutMember<K>(rows: seq<Keyed<K>>, key: K, i: nat)
    requires i < |Without(rows, key)|
    ensures Without(rows, key)[i].key != key && Without(rows, key)[i] in rows
  {
    var front := rows[..|rows| - 1];
    if i < |Without(front, key)| {
      WithoutMember(front, key, i);
    }
  }

  lemma {:induction false} WithoutKeeps<K>(rows: seq<Keyed<K>>, key: K, row: Keyed<K>)
    requires row in rows && row.key != key
    ensures row in Without(rows, key)
  {
    var front, last := rows[..|rows| - 1], rows[|rows| - 1];
    if row != last {
      assert row in front;
      WithoutKeeps(front, key, row);
    }
  }

  lemma {:induction false} OtherTotals<K>(rows: seq<Keyed<K>>, key: K, other: K)
    requires other != key
    ensures SumWhere(Without(rows, key), Is(other)) == SumWhere(rows, Is(other))
  {
    SplitKey(rows, key, Is(other));
    PlusLaws(SumWhere(Without(rows, key), Is(other)), ZERO, ZERO);
  }

  lemma GroupedHasKey<K>(groups: seq<Keyed<K>>, rows: seq<Keyed<K>>, key: K)
    requires Grouped(groups, rows) && HasKey(rows, key)
    ensures HasKey(groups, key)
  {
    var r :| 0 <= r < |rows| && rows[r].key == key;
    assert HasKey(groups, rows[r].key);
  }

  lemma WithoutHasKey<K>(groups: seq<Keyed<K>>, rows: seq<Keyed<K>>, i: nat)
    requires Grouped(groups, rows) && groups != [] && i < |Without(rows, groups[|groups| - 1].key)|
    ensures HasKey(groups[..|groups| - 1], Without(rows, groups[|groups| - 1].key)[i].key)
  {
    var last, key := groups[|groups| - 1].key, Without(rows, groups[|groups| - 1].key)[i].key;
    WithoutMember(rows, last, i);
    var r :| 0 <= r < |rows| && rows[r] == Without(rows, last)[i];
    assert HasKey(rows, key);
    GroupedHasKey(groups, rows, key);
    var g :| 0 <= g < |groups| && groups[g].key == key;
    assert groups[..|groups| - 1][g].key == key;
  }

  lemma OtherGroup<K>(groups: seq<Keyed<K>>, rows: seq<Keyed<K>>, i: nat)
    requires Grouped(groups, rows) && i < |groups| - 1
    ensures var rest := Without(rows, groups[|groups| - 1].key);
            HasKey(rest, groups[i].key) && groups[i].value == SumWhere(rest, Is(groups[i].key))
  {
    var key := groups[|groups| - 1].key;
    assert groups[i].key != key;
    var r :| 0 <= r < |rows| && rows[r].key == groups[i].key;
    WithoutKeeps(rows, key, rows[r]);
    OtherTotals(rows, key, groups[i].key);
  }

  /** Leaving out one group and its rows keeps the rest grouped. */
  lemma GroupedWithoutLast<K>(groups: seq<Keyed<K>>, rows: seq<Keyed<K>>)
    requires Grouped(groups, rows) && groups != []
    ensures Grouped(groups[..|groups| - 1], Without(rows, groups[|groups| - 1].key))
  {
    var front, rest := groups[..|groups| - 1], Without(rows, groups[|groups| - 1].key);
    forall i | 0 <= i < |rest| ensures HasKey(front, rest[i].key) {
      WithoutHasKey(groups, rows, i);
    }
    forall i | 0 <= i < |front|
      ensures HasKey(rest, front[i].key) && front[i].value == SumWhere(rest, Is(front[i].key))
    {
      OtherGroup(groups, rows, i);
    }
  }

  /** Grouping first and summing the groups is summing the rows, whatever keys are kept. */
  lemma {:induction false} SumOfGroups<K>(groups: seq<Keyed<K>>, rows: seq<Keyed<K>>, keep: K -> bool)
    requires Grouped(groups, rows)
    ensures SumWhere(groups, keep) == SumWhere(rows, keep)
    decreases |groups|
  {
    if groups == [] {
      assert forall i :: 0 <= i < |rows| ==> HasKey(groups, rows[i].key);
    } else {
      var front, last := groups[..|groups| - 1], groups[|groups| - 1];
      GroupedWithoutLast(groups, rows);
      SumOfGroups(front, Without(rows, last.key), keep);
      SplitKey(rows, last.key, keep);
      PlusLaws(SumWhere(front, keep), ZERO, ZERO);
    }
  }

  function Rekeyed<K, J>(rows: seq<Keyed<K>>, keep: K -> bool, key: K -> J): seq<Keyed<J>> {
    if rows == [] then []
    else
      var front, last := Rekeyed(rows[..|rows| - 1], keep, key), rows[|rows| - 1];
      if keep(last.key) then front + [Keyed(key(last.key), last.value)] else front
  }

  /** A filter and a coarser key can wait until the sum. */
  lemma {:induction false} SumOfRekeyed<K, J>(
      rows: seq<Keyed<K>>, keep: K -> bool, key: K -> J, test: J -> bool, both: K -> bool)
    requires forall k :: both(k) <==> keep(k) && test(key(k))
    ensures SumWhere(Rekeyed(rows, keep, key), test) == SumWhere(rows, both)
  {
    if rows != [] {
      var front, last := rows[..|rows| - 1], rows[|rows| - 1];
      SumOfRekeyed(front, keep, key, test, both);
      if keep(last.key) {
        SumAppend(Rekeyed(front, keep, key), Keyed(key(last.key), last.value), test);
      }
    }
  }

  lemma {:induction false} SumSame<K>(rows: seq<Keyed<K>>, keep: K -> bool, other: K -> bool)
    requires forall i :: 0 <= i < |rows| ==> keep(rows[i].key) == other(rows[i].key)
    ensures SumWhere(rows, keep) == SumWhere(rows, other)
  {
    if rows != [] {
      SumSame(rows[..|rows| - 1], keep, other);
    }
  }

  /** Two conditions that exclude each other sum separately. */
  lemma {:induction false} SumOfEither<K>(rows: seq<Keyed<K>>, one: K -> bool, two: K -> bool, either: K -> bool)
    requires forall k :: !(one(k) && two(k)) && (either(k) <==> one(k) || two(k))
    ensures SumWhere(rows, either) == Plus(SumWhere(rows, one), SumWhere(rows, two))
  {
    if rows != [] {
      var front, last := rows[..|rows| - 1], rows[|rows| - 1];
      SumOfEither(front, one, two, either);
      if one(last.key) {
        PlusSwap(SumWhere(front, one), SumWhere(front, two), last.value);
      } else if two(last.key) {
        PlusLaws(SumWhere(front, one), SumWhere(front, two), last.value);
      }
    }
  }

  ghost predicate Counted<K>(rows: seq<Keyed<K>>) {
    forall i :: 0 <= i < |rows| ==> rows[i].value.observations >= 1
  }

  /** A sum counts an observation exactly when it keeps a row. */
  lemma {:induction false} SumIsCounted<K>(rows: seq<Keyed<K>>, keep: K -> bool)
    requires Counted(rows)
    ensures SumWhere(rows, keep).observations >= 0
    ensures SumWhere(rows, keep).observations > 0 <==> exists i :: 0 <= i < |rows| && keep(rows[i].key)
  {
    if rows != [] {
      SumIsCounted(rows[..|rows| - 1], keep);
      if SumWhere(rows[..|rows| - 1], keep).observations > 0 {
        var i :| 0 <= i < |rows| - 1 && keep(rows[..|rows| - 1][i].key);
        assert keep(rows[i].key);
      }
    }
  }

  /** Grouping counted rows gives counted groups. */
  lemma GroupsAreCounted<K>(groups: seq<Keyed<K>>, rows: seq<Keyed<K>>)
    requires Grouped(groups, rows) && Counted(rows)
    ensures Counted(groups)
  {
    forall i | 0 <= i < |groups| ensures groups[i].value.observations >= 1 {
      var r :| 0 <= r < |rows| && rows[r].key == groups[i].key;
      SumIsCounted(rows, Is(groups[i].key));
      assert Is(groups[i].key)(rows[r].key);
    }
  }

  // ----- the queries -----

  /** A grouped route and direction as stored: NULL and the empty string differ. */
  datatype Nullable = Nullable(route: Option<Name>, direction: Option<Name>)

  /** A key of the aggregate table and of `totals`. */
  datatype Pair = Pair(route: Name, direction: Name)

  datatype BucketKey = BucketKey(start: int, pair: Pair)

  /** `COALESCE(name, '')` and `name or ""`. */
  function NameKey(name: Option<Name>): Name {
    if name.None? then EMPTY else name.value
  }

  /** `key or None`. */
  function KeyName(key: Name): Option<Name> {
    if key == EMPTY then None else Some(key)
  }

  function Coalesce(n: Nullable): Pair {
    Pair(NameKey(n.route), NameKey(n.direction))
  }

  function Restore(p: Pair): Nullable {
    Nullable(KeyName(p.route), KeyName(p.direction))
  }

  function NamesOf(row: Row): Nullable {
    Nullable(row.route, row.direction)
  }

  function BucketStart(at: int): int {
    TimeSeriesQueries.DateBin(BUCKET, at, ORIGIN)
  }

  function BucketOf(row: Row): BucketKey {
    BucketKey(BucketStart(row.at), Coalesce(NamesOf(row)))
  }

  /** Each raw row as a group of its own. */
  function RawRows(raw: seq<Row>): seq<Keyed<Row>> {
    if raw == [] then [] else RawRows(raw[..|raw| - 1]) + [Keyed(raw[|raw| - 1], OfRow(raw[|raw| - 1]))]
  }

  function AllRows(): Row -> bool {
    (row: Row) => true
  }

  /** The raw rows, keyed by bucket. */
  function Bucketed(raw: seq<Row>): seq<Keyed<BucketKey>> {
    Rekeyed(RawRows(raw), AllRows(), BucketOf)
  }

  /** The aggregate table of migration 0010 for the raw rows. */
  ghost predicate IsBucketTable(buckets: seq<Keyed<BucketKey>>, raw: seq<Row>) {
    Grouped(buckets, Bucketed(raw))
  }

  /** `bucket_start` of the cutoff, by minute arithmetic on the UTC time. */
  function CutoffBucket(cutoff: int): int {
    cutoff - cutoff % MINUTE - (cutoff / MINUTE) % 60 % 5 * MINUTE
  }

  function FirstComplete(cutoff: int): int {
    CutoffBucket(cutoff) + BUCKET
  }

  lemma WholeFives(minutes: int)
    ensures minutes - minutes % 60 % 5 == 5 * (minutes / 5)
  {
  }

  /** A multiple of the bucket that is at most one bucket back is where the bin starts. */
  lemma BinStart(at: int, bins: int)
    requires 0 <= at - BUCKET * bins < BUCKET
    ensures BucketStart(at) == BUCKET * bins
  {
    var epoch := 3_155_616;
    assert ORIGIN == BUCKET * epoch;
    DivModUnique(at - ORIGIN, BUCKET, bins - epoch, at - BUCKET * bins);
  }

  lemma CutoffBucketIsBin(cutoff: int)
    ensures CutoffBucket(cutoff) == BucketStart(cutoff) && CutoffBucket(cutoff) <= cutoff < FirstComplete(cutoff)
  {
    var minutes, bins := cutoff / MINUTE, cutoff / MINUTE / 5;
    WholeFives(minutes);
    assert CutoffBucket(cutoff) == BUCKET * bins;
    BinStart(cutoff, bins);
  }

  /** A row belongs to a complete bucket exactly when it is observed at or after the first one. */
  lemma CompleteBuckets(at: int, cutoff: int)
    ensures BucketStart(at) >= FirstComplete(cutoff) <==> at >= FirstComplete(cutoff)
  {
    CutoffBucketIsBin(cutoff);
    var bin, first := (at - ORIGIN) / BUCKET, (cutoff - ORIGIN) / BUCKET + 1;
    assert FirstComplete(cutoff) == ORIGIN + BUCKET * first && BucketStart(at) == ORIGIN + BUCKET * bin;
  }

  /** The route condition; an empty route is no condition. */
  predicate WantedKey(route: Option<Name>, key: Name) {
    route.Some? && route.value != EMPTY ==> key == route.value
  }

  predicate WantedRow(route: Option<Name>, row: Row) {
    route.Some? && route.value != EMPTY ==> row.route == route
  }

  function CompleteKeys(cutoff: int, route: Option<Name>): BucketKey -> bool {
    (k: BucketKey) => k.start >= FirstComplete(cutoff) && WantedKey(route, k.pair.route)
  }

  function PairOf(k: BucketKey): Pair {
    k.pair
  }

  function Boundary(cutoff: int, route: Option<Name>): Row -> bool {
    (row: Row) => cutoff <= row.at < FirstComplete(cutoff) && WantedRow(route, row)
  }

  function Since(cutoff: int, route: Option<Name>): Row -> bool {
    (row: Row) => row.at >= cutoff && WantedRow(route, row)
  }

  // ----- the result -----

  /** An exact average: the sum over the count. */
  datatype Ratio = Ratio(sum: real, count: int)

  datatype Statistics = Statistics(
    observations: int, averageSpeed: Option<Ratio>, minimum: Option<real>, maximum: Option<real>,
    averageFreeFlow: Option<Ratio>, latest: Option<int>)

  function Average(sum: real, count: int): Option<Ratio> {
    if count == 0 then None else Some(Ratio(sum, count))
  }

  function Finished(a: Aggregate): Statistics {
    Statistics(a.observations, Average(a.speedSum, a.speeds), a.minimum, a.maximum, Average(a.freeFlowSum, a.freeFlows),
        a.latest)
  }

  /** The fields of a report. */
  ghost predicate IsReport(st: Statistics, total: Aggregate) {
    && st.observations == total.observations && st.latest == total.latest
    && st.minimum == total.minimum && st.maximum == total.maximum
    && st.averageSpeed == (if total.speeds == 0 then None else Some(Ratio(total.speedSum, total.speeds)))
    && st.averageFreeFlow == (if total.freeFlows == 0 then None else Some(Ratio(total.freeFlowSum, total.freeFlows)))
  }

  /** `result` reports the groups with at least one observation. */
  ghost predicate Reports(result: map<Nullable, Statistics>, total: Nullable -> Aggregate) {
    forall n :: ReportsGroup(result, n, total(n))
  }

  function CoalescesTo(p: Pair): Nullable -> bool {
    n => Coalesce(n) == p
  }

  function MergedTotal(aggregateRows: seq<Keyed<Pair>>, boundaryRows: seq<Keyed<Nullable>>, p: Pair): Aggregate {
    Plus(SumWhere(aggregateRows, Is(p)), SumWhere(boundaryRows, CoalescesTo(p)))
  }

  function MergedTotals(aggregateRows: seq<Keyed<Pair>>, boundaryRows: seq<Keyed<Nullable>>): Nullable -> Aggregate {
    n => if Restore(Coalesce(n)) == n then MergedTotal(aggregateRows, boundaryRows, Coalesce(n)) else ZERO
  }

  function GroupTotals(rows: seq<Keyed<Nullable>>): Nullable -> Aggregate {
    n => SumWhere(rows, Is(n))
  }

  function At<K>(totals: map<K, Aggregate>, key: K): Aggregate {
    if key in totals then totals[key] else ZERO
  }

  /** The dictionary `totals`, updated in place by `merge`. */
  class Totals {
    var values: map<Pair, Aggregate>

    constructor ()
      ensures values == map[]
    {
      values := map[];
    }

    /** `merge`: each field is reduced with the stored one; a missing key starts empty. */
    method Merge(row: Aggregate, key: Pair)
      modifies this
      ensures values == old(values)[key := Plus(At(old(values), key), row)]
    {
      var stored := At(values, key);
      var minimum := if stored.minimum.None? then row.minimum else Smaller(stored.minimum, row.minimum);
      var maximum := if stored.maximum.None? then row.maximum else Larger(stored.maximum, row.maximum);
      var latest := if stored.latest.None? || (row.latest.Some? && row.latest.value > stored.latest.value)
                    then row.latest else stored.latest;
      var merged := Aggregate(
        stored.observations + row.observations, stored.speeds + row.speeds, stored.speedSum + row.speedSum,
        minimum, maximum, stored.freeFlows + row.freeFlows, stored.freeFlowSum + row.freeFlowSum, latest);
      values := values[key := merged];
    }
  }

  /** What `totals` holds after some aggregate and boundary rows. */
  ghost predicate Holds(values: map<Pair, Aggregate>, aggregateRows: seq<Keyed<Pair>>,
      boundaryRows: seq<Keyed<Nullable>>) {
    forall p :: At(values, p) == MergedTotal(aggregateRows, boundaryRows, p)
             && (p in values ==> values[p].observations > 0)
  }

  lemma HoldsAggregate(values: map<Pair, Aggregate>, rows: seq<Keyed<Pair>>, i: nat)
    requires i < |rows| && rows[i].value.observations >= 1 && Holds(values, rows[..i], [])
    ensures Holds(values[rows[i].key := Plus(At(values, rows[i].key), rows[i].value)], rows[..i + 1], [])
  {
    var row := rows[i];
    assert rows[..i + 1] == rows[..i] + [row];
    forall p
      ensures MergedTotal(rows[..i] + [row], [], p)
              == if p == row.key then Plus(At(values, p), row.value) else At(values, p)
    {
      SumAppend(rows[..i], row, Is(p));
      PlusLaws(SumWhere(rows[..i], Is(p)), ZERO, ZERO);
      PlusLaws(SumWhere(rows[..i] + [row], Is(p)), ZERO, ZERO);
    }
  }

  lemma HoldsBoundary(values: map<Pair, Aggregate>, aggregateRows: seq<Keyed<Pair>>, rows: seq<Keyed<Nullable>>, i: nat)
    requires i < |rows| && rows[i].value.observations >= 1 && Holds(values, aggregateRows, rows[..i])
    ensures var p := Coalesce(rows[i].key);
            Holds(values[p := Plus(At(values, p), rows[i].value)], aggregateRows, rows[..i + 1])
  {
    var row := rows[i];
    assert rows[..i + 1] == rows[..i] + [row];
    forall p ensures MergedTotal(aggregateRows, rows[..i] + [row], p)
                  == if p == Coalesce(row.key) then Plus(At(values, p), row.value) else At(values, p)
    {
      SumAppend(rows[..i], row, CoalescesTo(p));
      PlusLaws(SumWhere(aggregateRows, Is(p)), SumWhere(rows[..i], CoalescesTo(p)), row.value);
    }
  }

  /** The list built from `totals`. */
  function Rendered(values: map<Pair, Aggregate>): (result: map<Nullable, Statistics>)
    ensures forall n :: n in result <==> Restore(Coalesce(n)) == n && Coalesce(n) in values
    ensures forall n :: n in result ==> result[n] == Finished(values[Coalesce(n)])
  {
    assert forall p :: Coalesce(Restore(p)) == p;
    map p | p in values :: Restore(p) := Finished(values[p])
  }

  /** The list built from the raw groups. */
  function RenderedRaw(rows: seq<Keyed<Nullable>>): map<Nullable, Statistics> {
    if rows == [] then map[]
    else RenderedRaw(rows[..|rows| - 1])[rows[|rows| - 1].key := Finished(rows[|rows| - 1].value)]
  }

  ghost predicate ReportsGroup(result: map<Nullable, Statistics>, n: Nullable, total: Aggregate) {
    && (n in result <==> total.observations > 0)
    && (n in result ==> IsReport(result[n], total))
  }

  lemma RawReportsNext(rows: seq<Keyed<Nullable>>, row: Keyed<Nullable>, n: Nullable)
    requires ReportsGroup(RenderedRaw(rows), n, SumWhere(rows, Is(n))) && row.value.observations >= 1
    requires row.key == n ==> SumWhere(rows, Is(n)) == ZERO
    ensures ReportsGroup(RenderedRaw(rows + [row]), n, SumWhere(rows + [row], Is(n)))
  {
    assert (rows + [row])[..|rows|] == rows;
    SumAppend(rows, row, Is(n));
    PlusLaws(row.value, ZERO, ZERO);
  }

  lemma {:induction false} RawReportsGroup(rows: seq<Keyed<Nullable>>, n: Nullable)
    requires Counted(rows) && DistinctKeys(rows)
    ensures ReportsGroup(RenderedRaw(rows), n, SumWhere(rows, Is(n)))
  {
    if rows != [] {
      var front, last := rows[..|rows| - 1], rows[|rows| - 1];
      RawReportsGroup(front, n);
      if n == last.key {
        SumNone(front, Is(n));
      }
      RawReportsNext(front, last, n);
      assert front + [last] == rows;
    }
  }

  lemma RawReports(rows: seq<Keyed<Nullable>>)
    requires Counted(rows) && DistinctKeys(rows)
    ensures Reports(RenderedRaw(rows), GroupTotals(rows))
  {
    forall n ensures ReportsGroup(RenderedRaw(rows), n, GroupTotals(rows)(n)) {
      RawReportsGroup(rows, n);
    }
  }

  lemma {:induction false} SumNone<K>(rows: seq<Keyed<K>>, keep: K -> bool)
    requires forall i :: 0 <= i < |rows| ==> !keep(rows[i].key)
    ensures SumWhere(rows, keep) == ZERO
  {
    if rows != [] {
      SumNone(rows[..|rows| - 1], keep);
    }
  }

  lemma RenderedReports(values: map<Pair, Aggregate>, aggregateRows: seq<Keyed<Pair>>,
      boundaryRows: seq<Keyed<Nullable>>)
    requires Holds(values, aggregateRows, boundaryRows)
    ensures Reports(Rendered(values), MergedTotals(aggregateRows, boundaryRows))
  {
    forall n ensures n in Rendered(values) <==> MergedTotals(aggregateRows, boundaryRows)(n).observations > 0 {
      assert At(values, Coalesce(n)) == MergedTotal(aggregateRows, boundaryRows, Coalesce(n));
    }
    forall n | n in Rendered(values)
        ensures Rendered(values)[n] == Finished(MergedTotals(aggregateRows, boundaryRows)(n)) {
      assert At(values, Coalesce(n)) == MergedTotal(aggregateRows, boundaryRows, Coalesce(n));
    }
  }

  /** `_transport_traffic_statistics_rows`, given the rows of its queries. */
  method TrafficStatisticsRows(
      aggregateRows: seq<Keyed<Pair>>, boundaryRows: seq<Keyed<Nullable>>, rawRows: seq<Keyed<Nullable>>)
    returns (result: map<Nullable, Statistics>)
    requires Counted(aggregateRows) && Counted(boundaryRows) && Counted(rawRows)
    requires DistinctKeys(rawRows)
    ensures Reports(result, if aggregateRows == [] then GroupTotals(rawRows)
            else MergedTotals(aggregateRows, boundaryRows))
  {
    if aggregateRows == [] {
      RawReports(rawRows);
      return RenderedRaw(rawRows);
    }
    var totals := new Totals();
    for i := 0 to |aggregateRows|
      invariant Holds(totals.values, aggregateRows[..i], [])
    {
      HoldsAggregate(totals.values, aggregateRows, i);
      totals.Merge(aggregateRows[i].value, aggregateRows[i].key);
    }
    assert aggregateRows[..|aggregateRows|] == aggregateRows;
    for i := 0 to |boundaryRows|
      invariant Holds(totals.values, aggregateRows, boundaryRows[..i])
    {
      HoldsBoundary(totals.values, aggregateRows, boundaryRows, i);
      totals.Merge(boundaryRows[i].value, Coalesce(boundaryRows[i].key));
    }
    assert boundaryRows[..|boundaryRows|] == boundaryRows;
    RenderedReports(totals.values, aggregateRows, boundaryRows);
    return Rendered(totals.values);
  }

  // ----- exactness -----

  /** Observed since the cutoff, on the requested route if one is named. */
  ghost predicate RowInScope(row: Row, cutoff: int, route: Option<Name>) {
    row.at >= cutoff && (route.None? || route == Some(EMPTY) || row.route == route)
  }

  /** Some row in scope carries an empty, non-NULL name. */
  ghost predicate HasEmptyName(raw: seq<Row>, cutoff: int, route: Option<Name>) {
    exists row :: row in raw && RowInScope(row, cutoff, route)
        && (row.route == Some(EMPTY) || row.direction == Some(EMPTY))
  }

  /** The direct aggregation of the raw rows. */
  function SinceNamed(cutoff: int, route: Option<Name>, n: Nullable): Row -> bool {
    (row: Row) => row.at >= cutoff && WantedRow(route, row) && NamesOf(row) == n
  }

  function RawTotals(raw: seq<Row>, cutoff: int, route: Option<Name>): Nullable -> Aggregate {
    n => SumWhere(RawRows(raw), SinceNamed(cutoff, route, n))
  }

  lemma {:induction false} RawRowsCounted(raw: seq<Row>)
    ensures |RawRows(raw)| == |raw| && forall i :: 0 <= i < |raw| ==> RawRows(raw)[i] == Keyed(raw[i], OfRow(raw[i]))
    ensures Counted(RawRows(raw))
  {
    if raw != [] {
      RawRowsCounted(raw[..|raw| - 1]);
    }
  }

  function SincePair(cutoff: int, route: Option<Name>, p: Pair): Row -> bool {
    (row: Row) => row.at >= cutoff && WantedRow(route, row) && Coalesce(NamesOf(row)) == p
  }

  function CompletePair(cutoff: int, route: Option<Name>, p: Pair): Row -> bool {
    (row: Row) => row.at >= FirstComplete(cutoff) && WantedRow(route, row) && Coalesce(NamesOf(row)) == p
  }

  function BoundaryPair(cutoff: int, route: Option<Name>, p: Pair): Row -> bool {
    (row: Row) => cutoff <= row.at < FirstComplete(cutoff) && WantedRow(route, row) && Coalesce(NamesOf(row)) == p
  }

  function CompleteKeysOf(cutoff: int, route: Option<Name>, p: Pair): BucketKey -> bool {
    (k: BucketKey) => k.start >= FirstComplete(cutoff) && WantedKey(route, k.pair.route) && k.pair == p
  }

  /** The complete buckets of a pair hold its raw rows from the first complete bucket on. */
  lemma AggregatePart(
      raw: seq<Row>, buckets: seq<Keyed<BucketKey>>, cutoff: int, route: Option<Name>, aggregateRows: seq<Keyed<Pair>>,
      p: Pair)
    requires IsBucketTable(buckets, raw)
    requires Grouped(aggregateRows, Rekeyed(buckets, CompleteKeys(cutoff, route), PairOf))
    ensures SumWhere(aggregateRows, Is(p)) == SumWhere(RawRows(raw), CompletePair(cutoff, route, p))
  {
    var keep := CompleteKeysOf(cutoff, route, p);
    SumOfGroups(aggregateRows, Rekeyed(buckets, CompleteKeys(cutoff, route), PairOf), Is(p));
    SumOfRekeyed(buckets, CompleteKeys(cutoff, route), PairOf, Is(p), keep);
    SumOfGroups(buckets, Bucketed(raw), keep);
    forall row: Row ensures keep(BucketOf(row)) <==> CompletePair(cutoff, route, p)(row) {
      CompleteBuckets(row.at, cutoff);
    }
    SumOfRekeyed(RawRows(raw), AllRows(), BucketOf, keep, CompletePair(cutoff, route, p));
  }

  lemma BoundaryPart(raw: seq<Row>, cutoff: int, route: Option<Name>, boundaryRows: seq<Keyed<Nullable>>, p: Pair)
    requires Grouped(boundaryRows, Rekeyed(RawRows(raw), Boundary(cutoff, route), NamesOf))
    ensures SumWhere(boundaryRows, CoalescesTo(p)) == SumWhere(RawRows(raw), BoundaryPair(cutoff, route, p))
  {
    SumOfGroups(boundaryRows, Rekeyed(RawRows(raw), Boundary(cutoff, route), NamesOf), CoalescesTo(p));
    SumOfRekeyed(RawRows(raw), Boundary(cutoff, route), NamesOf, CoalescesTo(p), BoundaryPair(cutoff, route, p));
  }

  /** Buckets and boundary together count every raw row since the cutoff once. */
  lemma MergedTotalIsExact(
      raw: seq<Row>, buckets: seq<Keyed<BucketKey>>, cutoff: int, route: Option<Name>,
      aggregateRows: seq<Keyed<Pair>>, boundaryRows: seq<Keyed<Nullable>>, p: Pair)
    requires IsBucketTable(buckets, raw)
    requires Grouped(aggregateRows, Rekeyed(buckets, CompleteKeys(cutoff, route), PairOf))
    requires Grouped(boundaryRows, Rekeyed(RawRows(raw), Boundary(cutoff, route), NamesOf))
    ensures MergedTotal(aggregateRows, boundaryRows, p) == SumWhere(RawRows(raw), SincePair(cutoff, route, p))
  {
    AggregatePart(raw, buckets, cutoff, route, aggregateRows, p);
    BoundaryPart(raw, cutoff, route, boundaryRows, p);
    CutoffBucketIsBin(cutoff);
    SumOfEither(RawRows(raw), CompletePair(cutoff, route, p), BoundaryPair(cutoff, route, p),
        SincePair(cutoff, route, p));
  }

  lemma NamesSurvive(raw: seq<Row>, cutoff: int, route: Option<Name>, row: Row)
    requires !HasEmptyName(raw, cutoff, route) && row in raw && Since(cutoff, route)(row)
    ensures Restore(Coalesce(NamesOf(row))) == NamesOf(row)
  {
    assert RowInScope(row, cutoff, route);
  }

  lemma PairIsNames(raw: seq<Row>, cutoff: int, route: Option<Name>, n: Nullable, row: Row)
    requires !HasEmptyName(raw, cutoff, route) && row in raw && Restore(Coalesce(n)) == n
    ensures SincePair(cutoff, route, Coalesce(n))(row) == SinceNamed(cutoff, route, n)(row)
  {
    if Since(cutoff, route)(row) {
      NamesSurvive(raw, cutoff, route, row);
    }
  }

  /** Without empty names, the merged totals are the raw totals, group by group. */
  lemma TotalsAgree(
      raw: seq<Row>, buckets: seq<Keyed<BucketKey>>, cutoff: int, route: Option<Name>,
      aggregateRows: seq<Keyed<Pair>>, boundaryRows: seq<Keyed<Nullable>>, n: Nullable)
    requires IsBucketTable(buckets, raw) && !HasEmptyName(raw, cutoff, route)
    requires Grouped(aggregateRows, Rekeyed(buckets, CompleteKeys(cutoff, route), PairOf))
    requires Grouped(boundaryRows, Rekeyed(RawRows(raw), Boundary(cutoff, route), NamesOf))
    ensures MergedTotals(aggregateRows, boundaryRows)(n) == RawTotals(raw, cutoff, route)(n)
  {
    RawRowsCounted(raw);
    if Restore(Coalesce(n)) == n {
      MergedTotalIsExact(raw, buckets, cutoff, route, aggregateRows, boundaryRows, Coalesce(n));
      forall i | 0 <= i < |raw|
        ensures SincePair(cutoff, route, Coalesce(n))(RawRows(raw)[i].key)
                == SinceNamed(cutoff, route, n)(RawRows(raw)[i].key)
      {
        PairIsNames(raw, cutoff, route, n, raw[i]);
      }
      SumSame(RawRows(raw), SincePair(cutoff, route, Coalesce(n)), SinceNamed(cutoff, route, n));
    } else {
      forall i | 0 <= i < |raw| ensures !SinceNamed(cutoff, route, n)(RawRows(raw)[i].key) {
        if Since(cutoff, route)(raw[i]) {
          NamesSurvive(raw, cutoff, route, raw[i]);
        }
      }
      SumNone(RawRows(raw), SinceNamed(cutoff, route, n));
    }
  }

  lemma RowIsCounted(raw: seq<Row>, row: Row, keep: Row -> bool)
    requires row in raw && keep(row)
    ensures SumWhere(RawRows(raw), keep).observations > 0
  {
    RawRowsCounted(raw);
    var i :| 0 <= i < |raw| && raw[i] == row;
    assert keep(RawRows(raw)[i].key);
    SumIsCounted(RawRows(raw), keep);
  }

  /** An empty name is reported by the raw aggregation and not by the merged one. */
  lemma EmptyNameIsLost(raw: seq<Row>, cutoff: int, route: Option<Name>) returns (n: Nullable)
    requires HasEmptyName(raw, cutoff, route)
    ensures Restore(Coalesce(n)) != n && RawTotals(raw, cutoff, route)(n).observations > 0
  {
    var row :| row in raw && RowInScope(row, cutoff, route)
        && (row.route == Some(EMPTY) || row.direction == Some(EMPTY));
    n := NamesOf(row);
    RowIsCounted(raw, row, SinceNamed(cutoff, route, n));
  }

  /**
   The merged report is the report of the raw aggregation, group for group with counts, averages, extremes and latest
   time, exactly when no row in scope has an empty name; those rows move to the NULL group.
   */
  lemma MergedReportIsExactIff(
      raw: seq<Row>, buckets: seq<Keyed<BucketKey>>, cutoff: int, route: Option<Name>,
      aggregateRows: seq<Keyed<Pair>>, boundaryRows: seq<Keyed<Nullable>>, result: map<Nullable, Statistics>)
    requires IsBucketTable(buckets, raw)
    requires Grouped(aggregateRows, Rekeyed(buckets, CompleteKeys(cutoff, route), PairOf))
    requires Grouped(boundaryRows, Rekeyed(RawRows(raw), Boundary(cutoff, route), NamesOf))
    requires Reports(result, MergedTotals(aggregateRows, boundaryRows))
    ensures Reports(result, RawTotals(raw, cutoff, route)) <==> !HasEmptyName(raw, cutoff, route)
  {
    if HasEmptyName(raw, cutoff, route) {
      var n := EmptyNameIsLost(raw, cutoff, route);
      assert MergedTotals(aggregateRows, boundaryRows)(n) == ZERO;
    } else {
      forall n ensures MergedTotals(aggregateRows, boundaryRows)(n) == RawTotals(raw, cutoff, route)(n) {
        TotalsAgree(raw, buckets, cutoff, route, aggregateRows, boundaryRows, n);
      }
    }
  }

  /** Without aggregate rows the raw query answers, exactly. */
  lemma FallbackReportIsExact(raw: seq<Row>, cutoff: int, route: Option<Name>, rawRows: seq<Keyed<Nullable>>,
      result: map<Nullable, Statistics>)
    requires Grouped(rawRows, Rekeyed(RawRows(raw), Since(cutoff, route), NamesOf))
    requires Reports(result, GroupTotals(rawRows))
    ensures Reports(result, RawTotals(raw, cutoff, route))
  {
    forall n ensures GroupTotals(rawRows)(n) == RawTotals(raw, cutoff, route)(n) {
      SumOfGroups(rawRows, Rekeyed(RawRows(raw), Since(cutoff, route), NamesOf), Is(n));
      SumOfRekeyed(RawRows(raw), Since(cutoff, route), NamesOf, Is(n), SinceNamed(cutoff, route, n));
    }
  }

  // ----- the report in terms of the raw rows -----

  function SpeedOf(row: Row): Option<real> {
    row.speed
  }

  function FreeFlowOf(row: Row): Option<real> {
    row.freeFlow
  }

  /** The rows in scope, by their place. */
  function Places(raw: seq<Row>, scope: Row -> bool): set<int> {
    set i | 0 <= i < |raw| && scope(raw[i])
  }

  /** Those with a value. */
  function Valued(raw: seq<Row>, scope: Row -> bool, value: Row -> Option<real>): set<int> {
    set i | 0 <= i < |raw| && scope(raw[i]) && value(raw[i]).Some?
  }

  ghost function SumOf(raw: seq<Row>, scope: Row -> bool, value: Row -> Option<real>): real {
    if raw == [] then 0.0
    else
      var last := raw[|raw| - 1];
      SumOf(raw[..|raw| - 1], scope, value) + if scope(last) && value(last).Some? then value(last).value else 0.0
  }

  /** The exact average of the non-NULL values, None without one. */
  ghost predicate IsAverage(average: Option<Ratio>, raw: seq<Row>, scope: Row -> bool, value: Row -> Option<real>) {
    var n := |Valued(raw, scope, value)|;
    if n == 0 then average == None else average == Some(Ratio(SumOf(raw, scope, value), n))
  }

  /** None without a speed; otherwise one of the speeds, and none is smaller. */
  ghost predicate IsMinimum(minimum: Option<real>, raw: seq<Row>, scope: Row -> bool) {
    match minimum
    case None => forall i :: 0 <= i < |raw| && scope(raw[i]) ==> raw[i].speed.None?
    case Some(m) =>
      && (exists i :: 0 <= i < |raw| && scope(raw[i]) && raw[i].speed == Some(m))
      && forall i :: 0 <= i < |raw| && scope(raw[i]) && raw[i].speed.Some? ==> m <= raw[i].speed.value
  }

  /** None without a speed; otherwise one of the speeds, and none is larger. */
  ghost predicate IsMaximum(maximum: Option<real>, raw: seq<Row>, scope: Row -> bool) {
    match maximum
    case None => forall i :: 0 <= i < |raw| && scope(raw[i]) ==> raw[i].speed.None?
    case Some(m) =>
      && (exists i :: 0 <= i < |raw| && scope(raw[i]) && raw[i].speed == Some(m))
      && forall i :: 0 <= i < |raw| && scope(raw[i]) && raw[i].speed.Some? ==> raw[i].speed.value <= m
  }

  /** None without a row; otherwise the time of one of the rows, and none is later. */
  ghost predicate IsLatest(latest: Option<int>, raw: seq<Row>, scope: Row -> bool) {
    match latest
    case None => forall i :: 0 <= i < |raw| ==> !scope(raw[i])
    case Some(t) =>
      && (exists i :: 0 <= i < |raw| && scope(raw[i]) && raw[i].at == t)
      && forall i :: 0 <= i < |raw| && scope(raw[i]) ==> raw[i].at <= t
  }

  /** The statistics describe exactly the raw rows in scope. */
  ghost predicate Describes(st: Statistics, raw: seq<Row>, scope: Row -> bool) {
    && st.observations == |Places(raw, scope)|
    && IsAverage(st.averageSpeed, raw, scope, SpeedOf)
    && IsMinimum(st.minimum, raw, scope)
    && IsMaximum(st.maximum, raw, scope)
    && IsAverage(st.averageFreeFlow, raw, scope, FreeFlowOf)
    && IsLatest(st.latest, raw, scope)
  }

  /** The rows of one group of the raw aggregation. */
  function GroupRows(cutoff: int, route: Option<Name>, n: Nullable): Row -> bool {
    (row: Row) => row.at >= cutoff && (route.None? || route == Some(EMPTY) || row.route == route)
                  && row.route == n.route && row.direction == n.direction
  }

  /** The report of the raw aggregation: a group for each pair of names in scope, which describes its rows. */
  ghost predicate IsRawReport(result: map<Nullable, Statistics>, raw: seq<Row>, cutoff: int, route: Option<Name>) {
    && (forall n :: n in result <==> exists i :: 0 <= i < |raw| && GroupRows(cutoff, route, n)(raw[i]))
    && forall n :: n in result ==> Describes(result[n], raw, GroupRows(cutoff, route, n))
  }

  lemma PlacesGrow(raw: seq<Row>, row: Row, scope: Row -> bool)
    ensures |Places(raw + [row], scope)| == |Places(raw, scope)| + if scope(row) then 1 else 0
  {
    var before, after := Places(raw, scope), Places(raw + [row], scope);
    if scope(row) {
      assert after == before + {|raw|};
    } else {
      assert after == before;
    }
  }

  lemma ValuedGrow(raw: seq<Row>, row: Row, scope: Row -> bool, value: Row -> Option<real>)
    ensures |Valued(raw + [row], scope, value)|
            == |Valued(raw, scope, value)| + if scope(row) && value(row).Some? then 1 else 0
  {
    var before, after := Valued(raw, scope, value), Valued(raw + [row], scope, value);
    if scope(row) && value(row).Some? {
      assert after == before + {|raw|};
    } else {
      assert after == before;
    }
  }

  lemma SumGrows(raw: seq<Row>, row: Row, scope: Row -> bool, value: Row -> Option<real>)
    ensures SumOf(raw + [row], scope, value)
            == SumOf(raw, scope, value) + if scope(row) && value(row).Some? then value(row).value else 0.0
  {
    assert (raw + [row])[..|raw|] == raw;
  }

  /** The aggregate of the rows in scope, field by field. */
  ghost predicate Summarizes(a: Aggregate, raw: seq<Row>, scope: Row -> bool) {
    && a.observations == |Places(raw, scope)|
    && a.speeds == |Valued(raw, scope, SpeedOf)| && a.speedSum == SumOf(raw, scope, SpeedOf)
    && IsMinimum(a.minimum, raw, scope) && IsMaximum(a.maximum, raw, scope)
    && a.freeFlows == |Valued(raw, scope, FreeFlowOf)| && a.freeFlowSum == SumOf(raw, scope, FreeFlowOf)
    && IsLatest(a.latest, raw, scope)
  }

  lemma MinimumGrows(minimum: Option<real>, raw: seq<Row>, row: Row, scope: Row -> bool)
    requires IsMinimum(minimum, raw, scope)
    ensures IsMinimum(if scope(row) then Smaller(minimum, row.speed) else minimum, raw + [row], scope)
  {
    var more := raw + [row];
    assert more[|raw|] == row;
    if minimum.Some? {
      var i :| 0 <= i < |raw| && scope(raw[i]) && raw[i].speed == minimum;
      assert more[i] == raw[i];
    }
  }

  lemma MaximumGrows(maximum: Option<real>, raw: seq<Row>, row: Row, scope: Row -> bool)
    requires IsMaximum(maximum, raw, scope)
    ensures IsMaximum(if scope(row) then Larger(maximum, row.speed) else maximum, raw + [row], scope)
  {
    var more := raw + [row];
    assert more[|raw|] == row;
    if maximum.Some? {
      var i :| 0 <= i < |raw| && scope(raw[i]) && raw[i].speed == maximum;
      assert more[i] == raw[i];
    }
  }

  lemma LatestGrows(latest: Option<int>, raw: seq<Row>, row: Row, scope: Row -> bool)
    requires IsLatest(latest, raw, scope)
    ensures IsLatest(if scope(row) then Later(latest, Some(row.at)) else latest, raw + [row], scope)
  {
    var more := raw + [row];
    assert more[|raw|] == row;
    if latest.Some? {
      var i :| 0 <= i < |raw| && scope(raw[i]) && raw[i].at == latest.value;
      assert more[i] == raw[i];
    }
  }

  lemma SummaryGrows(a: Aggregate, raw: seq<Row>, row: Row, scope: Row -> bool)
    requires Summarizes(a, raw, scope)
    ensures Summarizes(if scope(row) then Plus(a, OfRow(row)) else a, raw + [row], scope)
  {
    PlacesGrow(raw, row, scope);
    ValuedGrow(raw, row, scope, SpeedOf);
    ValuedGrow(raw, row, scope, FreeFlowOf);
    SumGrows(raw, row, scope, SpeedOf);
    SumGrows(raw, row, scope, FreeFlowOf);
    MinimumGrows(a.minimum, raw, row, scope);
    MaximumGrows(a.maximum, raw, row, scope);
    LatestGrows(a.latest, raw, row, scope);
  }

  /** Summing the aggregates of single rows summarizes the rows. */
  lemma {:induction false} SumSummarizes(raw: seq<Row>, scope: Row -> bool)
    ensures Summarizes(SumWhere(RawRows(raw), scope), raw, scope)
  {
    if raw == [] {
      assert Places(raw, scope) == {} && Valued(raw, scope, SpeedOf) == {} && Valued(raw, scope, FreeFlowOf) == {};
    } else {
      var front, last := raw[..|raw| - 1], raw[|raw| - 1];
      SumSummarizes(front, scope);
      SummaryGrows(SumWhere(RawRows(front), scope), front, last, scope);
      assert front + [last] == raw && RawRows(raw)[..|RawRows(raw)| - 1] == RawRows(front);
    }
  }

  /** There is one description of the rows in scope. */
  lemma OneDescription(a: Statistics, b: Statistics, raw: seq<Row>, scope: Row -> bool)
    requires Describes(a, raw, scope) && Describes(b, raw, scope)
    ensures a == b
  {
  }

  lemma SummaryIsReported(st: Statistics, a: Aggregate, raw: seq<Row>, scope: Row -> bool)
    requires Summarizes(a, raw, scope)
    ensures IsReport(st, a) <==> Describes(st, raw, scope)
  {
    if IsReport(st, a) {
      assert Describes(st, raw, scope);
    }
    if Describes(st, raw, scope) {
      assert Describes(Finished(a), raw, scope);
      OneDescription(st, Finished(a), raw, scope);
    }
  }

  lemma SomePlace(raw: seq<Row>, scope: Row -> bool)
    ensures |Places(raw, scope)| > 0 <==> exists i :: 0 <= i < |raw| && scope(raw[i])
  {
    if exists i :: 0 <= i < |raw| && scope(raw[i]) {
      var i :| 0 <= i < |raw| && scope(raw[i]);
      assert i in Places(raw, scope);
    } else {
      assert Places(raw, scope) == {};
    }
  }

  lemma {:induction false} SameScope(raw: seq<Row>, scope: Row -> bool, other: Row -> bool)
    requires forall row :: scope(row) == other(row)
    ensures SumWhere(RawRows(raw), scope) == SumWhere(RawRows(raw), other)
  {
    SumSame(RawRows(raw), scope, other);
  }

  /** One group: reporting the total is describing the rows. */
  lemma TotalReport(result: map<Nullable, Statistics>, raw: seq<Row>, n: Nullable, scope: Row -> bool)
    ensures ReportsGroup(result, n, SumWhere(RawRows(raw), scope))
            <==> && (n in result <==> exists i :: 0 <= i < |raw| && scope(raw[i]))
                 && (n in result ==> Describes(result[n], raw, scope))
  {
    SumSummarizes(raw, scope);
    SomePlace(raw, scope);
    if n in result {
      SummaryIsReported(result[n], SumWhere(RawRows(raw), scope), raw, scope);
    }
  }

  lemma GroupReport(result: map<Nullable, Statistics>, raw: seq<Row>, cutoff: int, route: Option<Name>, n: Nullable)
    ensures ReportsGroup(result, n, RawTotals(raw, cutoff, route)(n))
            <==> && (n in result <==> exists i :: 0 <= i < |raw| && GroupRows(cutoff, route, n)(raw[i]))
                 && (n in result ==> Describes(result[n], raw, GroupRows(cutoff, route, n)))
  {
    SameScope(raw, SinceNamed(cutoff, route, n), GroupRows(cutoff, route, n));
    TotalReport(result, raw, n, GroupRows(cutoff, route, n));
  }

  lemma ReportsAreRaw(result: map<Nullable, Statistics>, raw: seq<Row>, cutoff: int, route: Option<Name>)
    ensures Reports(result, RawTotals(raw, cutoff, route)) <==> IsRawReport(result, raw, cutoff, route)
  {
    forall n
      ensures ReportsGroup(result, n, RawTotals(raw, cutoff, route)(n))
              <==> && (n in result <==> exists i :: 0 <= i < |raw| && GroupRows(cutoff, route, n)(raw[i]))
                   && (n in result ==> Describes(result[n], raw, GroupRows(cutoff, route, n)))
    {
      GroupReport(result, raw, cutoff, route, n);
    }
  }

  /** Rows whose names are the names of the group once empty names count as NULL. */
  function MergedRows(cutoff: int, route: Option<Name>, n: Nullable): Row -> bool {
    (row: Row) => row.at >= cutoff && (route.None? || route == Some(EMPTY) || row.route == route)
                  && (row.route == n.route || (row.route == Some(EMPTY) && n.route == None))
                  && (row.direction == n.direction || (row.direction == Some(EMPTY) && n.direction == None))
  }

  /** The merged report: groups have no empty name; each describes its rows and those with an empty name for NULL. */
  ghost predicate IsMergedReport(result: map<Nullable, Statistics>, raw: seq<Row>, cutoff: int, route: Option<Name>) {
    && (forall n :: n in result <==>
          && n.route != Some(EMPTY) && n.direction != Some(EMPTY)
          && exists i :: 0 <= i < |raw| && MergedRows(cutoff, route, n)(raw[i]))
    && forall n :: n in result ==> Describes(result[n], raw, MergedRows(cutoff, route, n))
  }

  /** A name counts under a group without an empty name if it is the group's, or empty where the group has none. */
  lemma NameCounts(name: Option<Name>, group: Option<Name>)
    requires group != Some(EMPTY)
    ensures NameKey(name) == NameKey(group) <==> name == group || (name == Some(EMPTY) && group == None)
  {
  }

  lemma SumOfMergedRows(raw: seq<Row>, cutoff: int, route: Option<Name>, n: Nullable)
    requires n.route != Some(EMPTY) && n.direction != Some(EMPTY)
    ensures SumWhere(RawRows(raw), SincePair(cutoff, route, Coalesce(n)))
            == SumWhere(RawRows(raw), MergedRows(cutoff, route, n))
  {
    forall row: Row ensures SincePair(cutoff, route, Coalesce(n))(row) == MergedRows(cutoff, route, n)(row) {
      NameCounts(row.route, n.route);
      NameCounts(row.direction, n.direction);
    }
    SameScope(raw, SincePair(cutoff, route, Coalesce(n)), MergedRows(cutoff, route, n));
  }

  lemma MergedGroupTotal(
      raw: seq<Row>, buckets: seq<Keyed<BucketKey>>, cutoff: int, route: Option<Name>, aggregateRows: seq<Keyed<Pair>>,
      boundaryRows: seq<Keyed<Nullable>>, n: Nullable)
    requires IsBucketTable(buckets, raw)
    requires Grouped(aggregateRows, Rekeyed(buckets, CompleteKeys(cutoff, route), PairOf))
    requires Grouped(boundaryRows, Rekeyed(RawRows(raw), Boundary(cutoff, route), NamesOf))
    ensures MergedTotals(aggregateRows, boundaryRows)(n)
            == if n.route != Some(EMPTY) && n.direction != Some(EMPTY)
               then SumWhere(RawRows(raw), MergedRows(cutoff, route, n))
               else ZERO
  {
    if n.route != Some(EMPTY) && n.direction != Some(EMPTY) {
      assert Restore(Coalesce(n)) == n;
      MergedTotalIsExact(raw, buckets, cutoff, route, aggregateRows, boundaryRows, Coalesce(n));
      SumOfMergedRows(raw, cutoff, route, n);
    }
  }

  lemma MergedGroupReport(
      raw: seq<Row>, buckets: seq<Keyed<BucketKey>>, cutoff: int, route: Option<Name>, aggregateRows: seq<Keyed<Pair>>,
      boundaryRows: seq<Keyed<Nullable>>, result: map<Nullable, Statistics>, n: Nullable)
    requires IsBucketTable(buckets, raw)
    requires Grouped(aggregateRows, Rekeyed(buckets, CompleteKeys(cutoff, route), PairOf))
    requires Grouped(boundaryRows, Rekeyed(RawRows(raw), Boundary(cutoff, route), NamesOf))
    requires ReportsGroup(result, n, MergedTotals(aggregateRows, boundaryRows)(n))
    ensures n in result <==>
              && n.route != Some(EMPTY) && n.direction != Some(EMPTY)
              && exists i :: 0 <= i < |raw| && MergedRows(cutoff, route, n)(raw[i])
    ensures n in result ==> Describes(result[n], raw, MergedRows(cutoff, route, n))
  {
    MergedGroupTotal(raw, buckets, cutoff, route, aggregateRows, boundaryRows, n);
    TotalReport(result, raw, n, MergedRows(cutoff, route, n));
  }

  lemma MergedReportIsRaw(
      raw: seq<Row>, buckets: seq<Keyed<BucketKey>>, cutoff: int, route: Option<Name>, aggregateRows: seq<Keyed<Pair>>,
      boundaryRows: seq<Keyed<Nullable>>, result: map<Nullable, Statistics>)
    requires IsBucketTable(buckets, raw)
    requires Grouped(aggregateRows, Rekeyed(buckets, CompleteKeys(cutoff, route), PairOf))
    requires Grouped(boundaryRows, Rekeyed(RawRows(raw), Boundary(cutoff, route), NamesOf))
    requires Reports(result, MergedTotals(aggregateRows, boundaryRows))
    ensures IsMergedReport(result, raw, cutoff, route)
  {
    forall n
      ensures n in result <==>
                && n.route != Some(EMPTY) && n.direction != Some(EMPTY)
                && exists i :: 0 <= i < |raw| && MergedRows(cutoff, route, n)(raw[i])
      ensures n in result ==> Describes(result[n], raw, MergedRows(cutoff, route, n))
    {
      MergedGroupReport(raw, buckets, cutoff, route, aggregateRows, boundaryRows, result, n);
    }
  }

  /** A whole five minutes of UTC time. */
  predicate IsMark(t: int) {
    t % (5 * MINUTE) == 0
  }

  /** Some row in scope lies at or after a five-minute mark after the cutoff. */
  ghost predicate HasCompleteBucket(raw: seq<Row>, cutoff: int, route: Option<Name>) {
    exists row, mark :: row in raw && RowInScope(row, cutoff, route) && IsMark(mark) && cutoff < mark <= row.at
  }

  /** The first complete bucket starts at the first five-minute mark after the cutoff. */
  lemma FirstIsMark(cutoff: int)
    ensures IsMark(FirstComplete(cutoff)) && FirstComplete(cutoff) - BUCKET <= cutoff < FirstComplete(cutoff)
  {
    var minutes, bins := cutoff / MINUTE, cutoff / MINUTE / 5;
    WholeFives(minutes);
    assert FirstComplete(cutoff) == BUCKET * (bins + 1);
    DivModUnique(FirstComplete(cutoff), BUCKET, bins + 1, 0);
  }

  lemma LaterMark(mark: int, cutoff: int)
    requires IsMark(mark) && cutoff < mark
    ensures mark >= FirstComplete(cutoff)
  {
    FirstIsMark(cutoff);
    var first := FirstComplete(cutoff);
    assert mark == BUCKET * (mark / BUCKET) && first == BUCKET * (first / BUCKET);
    ProductGap(BUCKET, first / BUCKET - mark / BUCKET);
  }

  /** A row the aggregate query finds stands for a row in scope. */
  lemma FoundBucketIsComplete(raw: seq<Row>, buckets: seq<Keyed<BucketKey>>, cutoff: int, route: Option<Name>)
    returns (r: nat)
    requires IsBucketTable(buckets, raw) && Rekeyed(buckets, CompleteKeys(cutoff, route), PairOf) != []
    ensures r < |raw| && CompleteKeys(cutoff, route)(BucketOf(raw[r]))
  {
    var complete := Rekeyed(buckets, CompleteKeys(cutoff, route), PairOf);
    RawRowsCounted(raw);
    RekeyedHasKey(buckets, CompleteKeys(cutoff, route), PairOf, complete[0].key);
    assert HasKey(complete, complete[0].key);
    var i :| 0 <= i < |buckets| && CompleteKeys(cutoff, route)(buckets[i].key);
    assert HasKey(Bucketed(raw), buckets[i].key);
    RekeyedHasKey(RawRows(raw), AllRows(), BucketOf, buckets[i].key);
    r :| 0 <= r < |raw| && BucketOf(raw[r]) == buckets[i].key;
  }

  lemma CompleteBucketIsFound(
      raw: seq<Row>, buckets: seq<Keyed<BucketKey>>, cutoff: int, route: Option<Name>, row: Row, mark: int)
    requires IsBucketTable(buckets, raw) && row in raw && RowInScope(row, cutoff, route)
    requires IsMark(mark) && cutoff < mark <= row.at
    ensures Rekeyed(buckets, CompleteKeys(cutoff, route), PairOf) != []
  {
    var r :| 0 <= r < |raw| && raw[r] == row;
    RawRowsCounted(raw);
    RekeyedHasKey(RawRows(raw), AllRows(), BucketOf, BucketOf(row));
    assert BucketOf(RawRows(raw)[r].key) == BucketOf(row);
    GroupedHasKey(buckets, Bucketed(raw), BucketOf(row));
    var b :| 0 <= b < |buckets| && buckets[b].key == BucketOf(row);
    LaterMark(mark, cutoff);
    CompleteBuckets(row.at, cutoff);
    assert CompleteKeys(cutoff, route)(buckets[b].key);
    RekeyedHasKey(buckets, CompleteKeys(cutoff, route), PairOf, PairOf(buckets[b].key));
  }

  /** The aggregate query finds a row exactly when some row in scope lies in a complete bucket. */
  lemma CompleteBucketFound(raw: seq<Row>, buckets: seq<Keyed<BucketKey>>, cutoff: int, route: Option<Name>)
    requires IsBucketTable(buckets, raw)
    ensures Rekeyed(buckets, CompleteKeys(cutoff, route), PairOf) != [] <==> HasCompleteBucket(raw, cutoff, route)
  {
    if Rekeyed(buckets, CompleteKeys(cutoff, route), PairOf) != [] {
      var r := FoundBucketIsComplete(raw, buckets, cutoff, route);
      CompleteBuckets(raw[r].at, cutoff);
      FirstIsMark(cutoff);
      assert raw[r] in raw && RowInScope(raw[r], cutoff, route);
    }
    if HasCompleteBucket(raw, cutoff, route) {
      var row, mark :| row in raw && RowInScope(row, cutoff, route) && IsMark(mark) && cutoff < mark <= row.at;
      CompleteBucketIsFound(raw, buckets, cutoff, route, row, mark);
    }
  }

  // ----- the whole function -----

  method FindKey<K(==)>(groups: seq<Keyed<K>>, key: K) returns (found: Option<nat>)
    ensures found.Some? ==> found.value < |groups| && groups[found.value].key == key
    ensures found.None? ==> !HasKey(groups, key)
  {
    for i := 0 to |groups|
      invariant forall j :: 0 <= j < i ==> groups[j].key != key
    {
      if groups[i].key == key {
        return Some(i);
      }
    }
    return None;
  }

  /** One more row of a key that has a group. */
  lemma GroupGrows<K>(groups: seq<Keyed<K>>, rows: seq<Keyed<K>>, row: Keyed<K>, at: nat)
    requires Grouped(groups, rows) && at < |groups| && groups[at].key == row.key
    ensures Grouped(groups[at := Keyed(row.key, Plus(groups[at].value, row.value))], rows + [row])
  {
    var after, more := groups[at := Keyed(row.key, Plus(groups[at].value, row.value))], rows + [row];
    forall i | 0 <= i < |more| ensures HasKey(after, more[i].key) {
      if i < |rows| {
        assert HasKey(groups, rows[i].key);
        var g :| 0 <= g < |groups| && groups[g].key == rows[i].key;
        assert after[g].key == more[i].key;
      } else {
        assert after[at].key == row.key;
      }
    }
    forall i | 0 <= i < |after|
        ensures HasKey(more, after[i].key) && after[i].value == SumWhere(more, Is(after[i].key)) {
      HasKeyAppend(rows, [row], groups[i].key);
      SumAppend(rows, row, Is(groups[i].key));
    }
  }

  /** The first row of a key. */
  lemma GroupStarts<K>(groups: seq<Keyed<K>>, rows: seq<Keyed<K>>, row: Keyed<K>)
    requires Grouped(groups, rows) && !HasKey(groups, row.key)
    ensures Grouped(groups + [row], rows + [row])
  {
    var after, more := groups + [row], rows + [row];
    forall i | 0 <= i < |rows| ensures rows[i].key != row.key {
      assert HasKey(groups, rows[i].key);
    }
    forall i | 0 <= i < |more| ensures HasKey(after, more[i].key) {
      if i < |rows| {
        assert HasKey(groups, rows[i].key);
        HasKeyAppend(groups, [row], rows[i].key);
      } else {
        assert after[|groups|].key == row.key;
      }
    }
    forall i | 0 <= i < |after|
        ensures HasKey(more, after[i].key) && after[i].value == SumWhere(more, Is(after[i].key)) {
      SumAppend(rows, row, Is(after[i].key));
      if i < |groups| {
        HasKeyAppend(rows, [row], groups[i].key);
        assert groups[i].key != row.key;
      } else {
        SumNone(rows, Is(row.key));
        PlusLaws(row.value, ZERO, ZERO);
        assert more[|rows|].key == row.key;
      }
    }
  }

  /** GROUP BY key with the aggregates of `Aggregate`. */
  method GroupBy<K(==)>(rows: seq<Keyed<K>>) returns (groups: seq<Keyed<K>>)
    ensures Grouped(groups, rows)
  {
    groups := [];
    for i := 0 to |rows|
      invariant Grouped(groups, rows[..i])
    {
      assert rows[..i + 1] == rows[..i] + [rows[i]];
      var found := FindKey(groups, rows[i].key);
      if found.Some? {
        GroupGrows(groups, rows[..i], rows[i], found.value);
        groups := groups[found.value := Keyed(rows[i].key, Plus(groups[found.value].value, rows[i].value))];
      } else {
        GroupStarts(groups, rows[..i], rows[i]);
        groups := groups + [rows[i]];
      }
    }
    assert rows[..|rows|] == rows;
  }

  lemma {:induction false} RekeyedCounted<K, J>(rows: seq<Keyed<K>>, keep: K -> bool, key: K -> J)
    requires Counted(rows)
    ensures Counted(Rekeyed(rows, keep, key))
  {
    if rows != [] {
      RekeyedCounted(rows[..|rows| - 1], keep, key);
    }
  }

  /**
   The function with its queries, over a bucket table that aggregates the raw rows: it reports what aggregating the raw
   rows since the cutoff reports if and only if no row in scope has an empty name or the raw query answers. When it
   merges, rows with an empty name count under NULL, and nothing else differs.
   */
  method TransportTrafficStatistics(raw: seq<Row>, buckets: seq<Keyed<BucketKey>>, cutoff: int, route: Option<Name>)
    returns (result: map<Nullable, Statistics>)
    requires IsBucketTable(buckets, raw)
    ensures IsRawReport(result, raw, cutoff, route)
            <==> !HasEmptyName(raw, cutoff, route) || !HasCompleteBucket(raw, cutoff, route)
    ensures HasCompleteBucket(raw, cutoff, route) ==> IsMergedReport(result, raw, cutoff, route)
  {
    var complete := Rekeyed(buckets, CompleteKeys(cutoff, route), PairOf);
    var boundary := Rekeyed(RawRows(raw), Boundary(cutoff, route), NamesOf);
    var since := Rekeyed(RawRows(raw), Since(cutoff, route), NamesOf);
    QueriesAreCounted(raw, buckets, cutoff, route);
    var aggregateRows := GroupBy(complete);
    var boundaryRows := GroupBy(boundary);
    var rawRows := GroupBy(since);
    GroupsAreCounted(aggregateRows, complete);
    GroupsAreCounted(boundaryRows, boundary);
    GroupsAreCounted(rawRows, since);
    NoGroupsNoRows(aggregateRows, complete);
    CompleteBucketFound(raw, buckets, cutoff, route);
    result := TrafficStatisticsRows(aggregateRows, boundaryRows, rawRows);
    ReportsAreRaw(result, raw, cutoff, route);
    if aggregateRows == [] {
      FallbackReportIsExact(raw, cutoff, route, rawRows, result);
    } else {
      MergedReportIsExactIff(raw, buckets, cutoff, route, aggregateRows, boundaryRows, result);
      MergedReportIsRaw(raw, buckets, cutoff, route, aggregateRows, boundaryRows, result);
    }
  }

  lemma NoGroupsNoRows<K>(groups: seq<Keyed<K>>, rows: seq<Keyed<K>>)
    requires Grouped(groups, rows)
    ensures groups == [] <==> rows == []
  {
    if rows != [] {
      assert HasKey(groups, rows[0].key);
    }
    if groups != [] {
      assert HasKey(rows, groups[0].key);
    }
  }

  lemma QueriesAreCounted(raw: seq<Row>, buckets: seq<Keyed<BucketKey>>, cutoff: int, route: Option<Name>)
    requires IsBucketTable(buckets, raw)
    ensures Counted(Rekeyed(buckets, CompleteKeys(cutoff, route), PairOf))
    ensures Counted(Rekeyed(RawRows(raw), Boundary(cutoff, route), NamesOf))
    ensures Counted(Rekeyed(RawRows(raw), Since(cutoff, route), NamesOf))
  {
    RawRowsCounted(raw);
    RekeyedCounted(RawRows(raw), AllRows(), BucketOf);
    GroupsAreCounted(buckets, Bucketed(raw));
    RekeyedCounted(buckets, CompleteKeys(cutoff, route), PairOf);
    RekeyedCounted(RawRows(raw), Boundary(cutoff, route), NamesOf);
    RekeyedCounted(RawRows(raw), Since(cutoff, route), NamesOf);
  }

  // ----- keeping the bucket table -----

  predicate InRange(at: int, start: int, end: Option<int>) {
    start <= at && (end.Some? ==> at < end.value)
  }

  function RowsIn(start: int, end: Option<int>): Row -> bool {
    (row: Row) => InRange(row.at, start, end)
  }

  /** The bucket rows the DELETE of a rebuild leaves. */
  function KeptBuckets(buckets: seq<Keyed<BucketKey>>, start: int, end: Option<int>): seq<Keyed<BucketKey>> {
    if buckets == [] then []
    else
      var front, last := KeptBuckets(buckets[..|buckets| - 1], start, end), buckets[|buckets| - 1];
      if InRange(last.key.start, start, end) then front else front + [last]
  }

  /** `bucket` starts a bucket. */
  predicate OnGrid(bucket: int) {
    BucketStart(bucket) == bucket
  }

  lemma RangeOfBuckets(at: int, bucket: int)
    requires OnGrid(bucket)
    ensures BucketStart(at) >= bucket <==> at >= bucket
  {
    var bins, bin := (bucket - ORIGIN) / BUCKET, (at - ORIGIN) / BUCKET;
    assert bucket == ORIGIN + BUCKET * bins && BucketStart(at) == ORIGIN + BUCKET * bin;
  }

  lemma RangeIsWholeBuckets(at: int, start: int, end: Option<int>)
    requires OnGrid(start) && (end.Some? ==> OnGrid(end.value))
    ensures InRange(BucketStart(at), start, end) <==> InRange(at, start, end)
  {
    RangeOfBuckets(at, start);
    if end.Some? {
      RangeOfBuckets(at, end.value);
    }
  }

  lemma {:induction false} KeptMember(buckets: seq<Keyed<BucketKey>>, start: int, end: Option<int>, b: Keyed<BucketKey>)
    ensures b in KeptBuckets(buckets, start, end) <==> b in buckets && !InRange(b.key.start, start, end)
  {
    if buckets != [] {
      var front, last := buckets[..|buckets| - 1], buckets[|buckets| - 1];
      KeptMember(front, start, end, b);
      assert b in buckets <==> b in front || b == last;
    }
  }

  lemma {:induction false} KeptDistinct(buckets: seq<Keyed<BucketKey>>, start: int, end: Option<int>)
    requires DistinctKeys(buckets)
    ensures DistinctKeys(KeptBuckets(buckets, start, end))
  {
    if buckets != [] {
      var front, last := buckets[..|buckets| - 1], buckets[|buckets| - 1];
      KeptDistinct(front, start, end);
      forall b | b in KeptBuckets(front, start, end) ensures b.key != last.key {
        KeptMember(front, start, end, b);
      }
    }
  }

  lemma {:induction false} RekeyedHasKey<K, J>(rows: seq<Keyed<K>>, keep: K -> bool, key: K -> J, j: J)
    ensures HasKey(Rekeyed(rows, keep, key), j)
            <==> exists i :: 0 <= i < |rows| && keep(rows[i].key) && key(rows[i].key) == j
  {
    if rows != [] {
      var front, last := rows[..|rows| - 1], rows[|rows| - 1];
      var some := Rekeyed(front, keep, key);
      RekeyedHasKey(front, keep, key, j);
      if HasKey(some, j) {
        var i :| 0 <= i < |front| && keep(front[i].key) && key(front[i].key) == j;
        var g :| 0 <= g < |some| && some[g].key == j;
        assert rows[i] == front[i] && Rekeyed(rows, keep, key)[g].key == j;
      } else if keep(last.key) && key(last.key) == j {
        assert Rekeyed(rows, keep, key)[|some|].key == j;
      } else {
        forall i | 0 <= i < |rows| && keep(rows[i].key) ensures key(rows[i].key) != j {
          assert i < |front| ==> front[i] == rows[i];
        }
        assert forall g :: 0 <= g < |some| ==> some[g].key != j;
      }
    }
  }

  /** Inside the rebuilt range, the rows read are all rows of their bucket. */
  lemma RangeGroup(raw: seq<Row>, start: int, end: Option<int>, k: BucketKey)
    requires OnGrid(start) && (end.Some? ==> OnGrid(end.value)) && InRange(k.start, start, end)
    ensures var read := Rekeyed(RawRows(raw), RowsIn(start, end), BucketOf);
            && (HasKey(read, k) <==> HasKey(Bucketed(raw), k))
            && SumWhere(read, Is(k)) == SumWhere(Bucketed(raw), Is(k))
  {
    var of := (row: Row) => BucketOf(row) == k;
    forall row: Row ensures of(row) <==> RowsIn(start, end)(row) && BucketOf(row) == k {
      RangeIsWholeBuckets(row.at, start, end);
    }
    SumOfRekeyed(RawRows(raw), RowsIn(start, end), BucketOf, Is(k), of);
    SumOfRekeyed(RawRows(raw), AllRows(), BucketOf, Is(k), of);
    RekeyedHasKey(RawRows(raw), RowsIn(start, end), BucketOf, k);
    RekeyedHasKey(RawRows(raw), AllRows(), BucketOf, k);
    assert forall i :: 0 <= i < |RawRows(raw)| && of(RawRows(raw)[i].key) ==> RowsIn(start, end)(RawRows(raw)[i].key);
  }

  /** Every key the rows read have lies inside the rebuilt range. */
  lemma ReadInRange(raw: seq<Row>, start: int, end: Option<int>, k: BucketKey)
    requires OnGrid(start) && (end.Some? ==> OnGrid(end.value))
    requires HasKey(Rekeyed(RawRows(raw), RowsIn(start, end), BucketOf), k)
    ensures InRange(k.start, start, end)
  {
    RekeyedHasKey(RawRows(raw), RowsIn(start, end), BucketOf, k);
    var i :| 0 <= i < |RawRows(raw)| && RowsIn(start, end)(RawRows(raw)[i].key) && BucketOf(RawRows(raw)[i].key) == k;
    RangeIsWholeBuckets(RawRows(raw)[i].key.at, start, end);
  }

  /** Rows outside the range are what they were. */
  ghost predicate SameOutside(before: seq<Row>, raw: seq<Row>, start: int, end: Option<int>) {
    forall k: BucketKey :: !InRange(k.start, start, end) ==>
      && (HasKey(Bucketed(before), k) <==> HasKey(Bucketed(raw), k))
      && SumWhere(Bucketed(before), Is(k)) == SumWhere(Bucketed(raw), Is(k))
  }

  /**
   Deleting the buckets of a range on the grid and aggregating the range again turns the table of the old rows into the
   table of the new ones, whatever was inserted, corrected or deleted inside the range.
   */
  lemma RebuildKeepsTable(
      buckets: seq<Keyed<BucketKey>>, before: seq<Row>, raw: seq<Row>, start: int, end: Option<int>,
      inserted: seq<Keyed<BucketKey>>)
    requires OnGrid(start) && (end.Some? ==> OnGrid(end.value))
    requires IsBucketTable(buckets, before) && SameOutside(before, raw, start, end)
    requires Grouped(inserted, Rekeyed(RawRows(raw), RowsIn(start, end), BucketOf))
    ensures IsBucketTable(KeptBuckets(buckets, start, end) + inserted, raw)
  {
    var kept, read := KeptBuckets(buckets, start, end), Rekeyed(RawRows(raw), RowsIn(start, end), BucketOf);
    var after := kept + inserted;
    KeptDistinct(buckets, start, end);
    forall i | 0 <= i < |kept| ensures kept[i] in buckets && !InRange(kept[i].key.start, start, end) {
      KeptMember(buckets, start, end, kept[i]);
    }
    forall i | 0 <= i < |inserted| ensures InRange(inserted[i].key.start, start, end) {
      ReadInRange(raw, start, end, inserted[i].key);
    }
    forall k | HasKey(Bucketed(raw), k) ensures HasKey(after, k) {
      RebuiltHasKey(buckets, before, raw, start, end, inserted, k);
    }
    forall i | 0 <= i < |after|
      ensures HasKey(Bucketed(raw), after[i].key) && after[i].value == SumWhere(Bucketed(raw), Is(after[i].key))
    {
      if i < |kept| {
        var b :| 0 <= b < |buckets| && buckets[b] == kept[i];
      } else {
        assert after[i] == inserted[i - |kept|];
        RangeGroup(raw, start, end, after[i].key);
      }
    }
  }

  lemma KeptHasKey(buckets: seq<Keyed<BucketKey>>, start: int, end: Option<int>, k: BucketKey)
    requires HasKey(buckets, k) && !InRange(k.start, start, end)
    ensures HasKey(KeptBuckets(buckets, start, end), k)
  {
    var b :| 0 <= b < |buckets| && buckets[b].key == k;
    KeptMember(buckets, start, end, buckets[b]);
    var i :| 0 <= i < |KeptBuckets(buckets, start, end)| && KeptBuckets(buckets, start, end)[i] == buckets[b];
  }

  lemma HasKeyAppend<K>(rows: seq<Keyed<K>>, more: seq<Keyed<K>>, key: K)
    requires HasKey(rows, key) || HasKey(more, key)
    ensures HasKey(rows + more, key)
  {
    if HasKey(rows, key) {
      var i :| 0 <= i < |rows| && rows[i].key == key;
      assert (rows + more)[i].key == key;
    } else {
      var i :| 0 <= i < |more| && more[i].key == key;
      assert (rows + more)[|rows| + i].key == key;
    }
  }

  lemma RebuiltHasKey(
      buckets: seq<Keyed<BucketKey>>, before: seq<Row>, raw: seq<Row>, start: int, end: Option<int>,
      inserted: seq<Keyed<BucketKey>>, k: BucketKey)
    requires OnGrid(start) && (end.Some? ==> OnGrid(end.value))
    requires IsBucketTable(buckets, before) && SameOutside(before, raw, start, end)
    requires Grouped(inserted, Rekeyed(RawRows(raw), RowsIn(start, end), BucketOf)) && HasKey(Bucketed(raw), k)
    ensures HasKey(KeptBuckets(buckets, start, end) + inserted, k)
  {
    if InRange(k.start, start, end) {
      RangeGroup(raw, start, end, k);
      GroupedHasKey(inserted, Rekeyed(RawRows(raw), RowsIn(start, end), BucketOf), k);
    } else {
      GroupedHasKey(buckets, Bucketed(before), k);
      KeptHasKey(buckets, start, end, k);
    }
    HasKeyAppend(KeptBuckets(buckets, start, end), inserted, k);
  }
}
