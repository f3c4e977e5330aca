/** Parking observations and the order in which overlapping ones are preferred. */
module Snapshots {
  import opened Common
  import opened Sorting

  /** `migration` says that the source name starts with "migration_". */
  datatype Snapshot = Snapshot(
    id: int, lot: int, observedAt: int, collectedAt: int, migration: bool,
    available: int, occupied: int, total: int)

  datatype LotTime = LotTime(lot: int, at: int)

  function KeyOf(s: Snapshot): LotTime {
    LotTime(s.lot, s.observedAt)
  }

  /** `_snapshot_preference_key(a) < _snapshot_preference_key(b)`: live first, then later collected, then higher id. */
  predicate Preferred(a: Snapshot, b: Snapshot) {
    if a.migration != b.migration then b.migration
    else if a.collectedAt != b.collectedAt then a.collectedAt > b.collectedAt
    else a.id > b.id
  }

  /** The order of the SQL forms inside one lot: later observed first, then preferred. */
  predicate Precedes(a: Snapshot, b: Snapshot) {
    if a.observedAt != b.observedAt then a.observedAt > b.observedAt else Preferred(a, b)
  }

  /** Row ids are primary keys. */
  ghost predicate UniqueIds(rows: seq<Snapshot>) {
    forall r, q :: r in rows && q in rows && r.id == q.id ==> r == q
  }

  /**
   `r` is the preferred row among those of its lot and observation time: every other one is migrated while `r` is live,
   or of the same kind and collected earlier, or collected at the same time with a smaller id.
   */
  ghost predicate Winner(rows: seq<Snapshot>, r: Snapshot) {
    && r in rows
    && forall q :: q in rows && q.lot == r.lot && q.observedAt == r.observedAt && q != r ==>
         || (q.migration && !r.migration)
         || (q.migration == r.migration && q.collectedAt < r.collectedAt)
         || (q.migration == r.migration && q.collectedAt == r.collectedAt && q.id < r.id)
  }

  lemma WinnerIsUnique(rows: seq<Snapshot>, a: Snapshot, b: Snapshot)
    requires Winner(rows, a) && Winner(rows, b) && KeyOf(a) == KeyOf(b)
    ensures a == b
  {
  }

  /** Every observed lot and time has a preferred row. */
  lemma {:induction false} WinnerExists(rows: seq<Snapshot>, r: Snapshot) returns (w: Snapshot)
    requires UniqueIds(rows) && r in rows
    ensures Winner(rows, w) && KeyOf(w) == KeyOf(r)
  {
    var front, last := rows[..|rows| - 1], rows[|rows| - 1];
    SplitLast(rows);
    if exists q :: q in front && KeyOf(q) == KeyOf(r) {
      var q :| q in front && KeyOf(q) == KeyOf(r);
      w := WinnerExists(front, q);
      if KeyOf(last) == KeyOf(r) && Preferred(last, w) {
        w := last;
      }
    } else {
      w := last;
    }
  }

  function TimeThenLot(s: Snapshot): Key {
    Key(s.observedAt, s.lot)
  }

  /** What every deduplicating reader must return: the winners, one per key, by time and then lot. */
  ghost predicate Deduplicated(rows: seq<Snapshot>, out: seq<Snapshot>) {
    && (forall s :: s in out <==> Winner(rows, s))
    && (forall i, j :: 0 <= i < j < |out| ==>
          || out[i].observedAt < out[j].observedAt
          || (out[i].observedAt == out[j].observedAt && out[i].lot < out[j].lot))
  }

  /** The insertion-ordered dict `selected` after the rows `seen`. */
  ghost predicate Selects(seen: seq<Snapshot>, order: seq<LotTime>, selected: map<LotTime, Snapshot>) {
    && (forall i, j :: 0 <= i < j < |order| ==> order[i] != order[j])
    && (forall k :: k in order <==> k in selected)
    && (forall k :: k in selected ==> KeyOf(selected[k]) == k && Winner(seen, selected[k]))
    && (forall r :: r in seen ==> KeyOf(r) in selected)
  }

  /** One turn of the selection loop. */
  function Choose(selected: map<LotTime, Snapshot>, r: Snapshot): map<LotTime, Snapshot> {
    if KeyOf(r) in selected && !Preferred(r, selected[KeyOf(r)]) then selected else selected[KeyOf(r) := r]
  }

  lemma WinnerOfKey(seen: seq<Snapshot>, r: Snapshot, w: Snapshot)
    requires Winner(seen, w) && KeyOf(w) == KeyOf(r) && UniqueIds(seen + [r])
    ensures Winner(seen + [r], if Preferred(r, w) then r else w)
  {
    assert w in seen + [r] && r in seen + [r];
  }

  lemma WinnerOfOtherKey(seen: seq<Snapshot>, r: Snapshot, w: Snapshot)
    requires Winner(seen, w) && KeyOf(w) != KeyOf(r)
    ensures Winner(seen + [r], w)
  {
    assert w in seen + [r];
  }

  lemma FirstOfKey(seen: seq<Snapshot>, r: Snapshot)
    requires forall q :: q in seen ==> KeyOf(q) != KeyOf(r)
    ensures Winner(seen + [r], r)
  {
    assert r in seen + [r];
  }

  lemma ChooseSelects(seen: seq<Snapshot>, r: Snapshot, order: seq<LotTime>, selected: map<LotTime, Snapshot>)
    requires Selects(seen, order, selected) && UniqueIds(seen + [r])
    ensures Selects(seen + [r], if KeyOf(r) in selected then order else order + [KeyOf(r)], Choose(selected, r))
  {
    var after := Choose(selected, r);
    forall k | k in after ensures KeyOf(after[k]) == k && Winner(seen + [r], after[k]) {
      if k != KeyOf(r) {
        WinnerOfOtherKey(seen, r, selected[k]);
      } else if k in selected {
        WinnerOfKey(seen, r, selected[k]);
      } else {
        FirstOfKey(seen, r);
      }
    }
  }

  /** `deduplicate_snapshots`. */
  method DeduplicateSnapshots(rows: seq<Snapshot>) returns (out: seq<Snapshot>)
    requires UniqueIds(rows)
    ensures Deduplicated(rows, out)
  {
    var selected: map<LotTime, Snapshot> := map[];
    var order: seq<LotTime> := [];
    for i := 0 to |rows|
      invariant Selects(rows[..i], order, selected)
    {
      assert rows[..i + 1] == rows[..i] + [rows[i]];
      ChooseSelects(rows[..i], rows[i], order, selected);
      if KeyOf(rows[i]) !in selected {
        order := order + [KeyOf(rows[i])];
      }
      selected := Choose(selected, rows[i]);
    }
    assert rows[..|rows|] == rows;
    var values := Values(order, selected);
    SortedWinners(rows, order, selected);
    out := StableSort(values, TimeThenLot);
  }

  lemma ValuesAreWinners(rows: seq<Snapshot>, order: seq<LotTime>, selected: map<LotTime, Snapshot>)
    requires Selects(rows, order, selected)
    ensures forall s :: s in Values(order, selected) <==> Winner(rows, s)
    ensures forall i, j :: 0 <= i < j < |order| ==>
              TimeThenLot(Values(order, selected)[i]) != TimeThenLot(Values(order, selected)[j])
  {
    var values := Values(order, selected);
    forall s | Winner(rows, s) ensures s in values {
      WinnerIsUnique(rows, s, selected[KeyOf(s)]);
      var i :| 0 <= i < |order| && order[i] == KeyOf(s);
      assert values[i] == s;
    }
  }

  lemma SortedWinners(rows: seq<Snapshot>, order: seq<LotTime>, selected: map<LotTime, Snapshot>)
    requires Selects(rows, order, selected)
    ensures Deduplicated(rows, StableSort(Values(order, selected), TimeThenLot))
  {
    var values := Values(order, selected);
    ValuesAreWinners(rows, order, selected);
    StrictlySorted(values, TimeThenLot, StableSort(values, TimeThenLot));
    StableSortSorts(values, TimeThenLot);
    SameDeduplicated(rows, values, StableSort(values, TimeThenLot));
  }

  lemma SameDeduplicated(rows: seq<Snapshot>, values: seq<Snapshot>, out: seq<Snapshot>)
    requires forall s :: s in values <==> Winner(rows, s)
    requires multiset(out) == multiset(values)
    requires forall i, j :: 0 <= i < j < |out| ==> Before(TimeThenLot(out[i]), TimeThenLot(out[j]))
    ensures Deduplicated(rows, out)
  {
    forall s ensures s in out <==> s in values {
      SameMember(values, out, s);
    }
  }
}
