/**
 Merging duplicate parking lots of one airport: the rows of a duplicate move to the canonical lot unless an equal row is
 already there, and any difference stops the merge. Snapshots and fee rules are merged by the same rules; a table maps
 row ids to rows.
 */
module LotMerge {
  import opened Common

  type RowId = int
  type LotId = int
  type AirportId = int
  type LegacyId = int

  /**
   `key` is what must be unique within a lot: source and time of a snapshot, size and day type of a fee rule (with its
   airport). `data` are the other compared fields; the collection run of a snapshot is not compared.
   */
  datatype Row = Row(lot: LotId, airport: AirportId, key: int, data: int)

  type Table = map<RowId, Row>

  /** The lot has no row any more; the rows of other lots are as they were. */
  ghost predicate Emptied(before: Table, after: Table, lot: LotId) {
    && (forall id :: id in before && before[id].lot != lot ==> id in after && after[id] == before[id])
    && forall id :: id in after ==> after[id].lot != lot
  }

  datatype MergeError = ConflictingSnapshot | ConflictingRule | ConflictingLegacy | NotApproved

  /** The uniqueness constraint of the table. */
  ghost predicate UniqueKeys(rows: Table) {
    forall id, other ::
      id in rows && other in rows && rows[id].lot == rows[other].lot && rows[id].key == rows[other].key ==> id == other
  }

  /** Row `id` of `lot` has the key. */
  predicate At(rows: Table, id: RowId, lot: LotId, key: int) {
    id in rows && rows[id].lot == lot && rows[id].key == key
  }

  /** `ids` lists the rows of `lot`, as the query returns them. */
  ghost predicate Lists(ids: seq<RowId>, rows: Table, lot: LotId) {
    && (forall i, j :: 0 <= i < j < |ids| ==> ids[i] != ids[j])
    && (forall id :: id in ids <==> id in rows && rows[id].lot == lot)
  }

  /** The comparison of `merge_lot` between two rows with one key. */
  predicate SameFields(a: Row, b: Row) {
    a.airport == b.airport && a.key == b.key && a.data == b.data
  }

  /** A row of each lot, with one key and another airport or other data. */
  ghost predicate Differ(rows: Table, a: LotId, b: LotId) {
    exists id, other ::
      && id in rows && other in rows && rows[id].lot == a && rows[other].lot == b
      && rows[id].key == rows[other].key
      && (rows[id].airport != rows[other].airport || rows[id].data != rows[other].data)
  }

  /** Every row of the one lot before has a row of the other lot afterwards with its key and data. */
  ghost predicate Carried(before: Table, after: Table, from: LotId, to: LotId) {
    forall id :: id in before && before[id].lot == from ==>
      exists other :: other in after && after[other].lot == to
                      && after[other].key == before[id].key && after[other].data == before[id].data
  }

  /** A duplicate's row meets a row of the canonical lot with its key and other contents. */
  ghost predicate Conflict(rows: Table, canonical: LotId, duplicate: LotId) {
    exists id, other :: id in rows && rows[id].lot == duplicate && At(rows, other, canonical, rows[id].key)
                     && !SameFields(rows[other], rows[id])
  }

  lemma ConflictIsDifference(rows: Table, canonical: LotId, duplicate: LotId)
    ensures Conflict(rows, canonical, duplicate) <==> Differ(rows, duplicate, canonical)
  {
    if Conflict(rows, canonical, duplicate) {
      var id, other :| id in rows && rows[id].lot == duplicate && At(rows, other, canonical, rows[id].key)
                       && !SameFields(rows[other], rows[id]);
      assert rows[other].key == rows[id].key;
    }
    if Differ(rows, duplicate, canonical) {
      var id, other :| id in rows && other in rows && rows[id].lot == duplicate && rows[other].lot == canonical
                       && rows[id].key == rows[other].key
                       && (rows[id].airport != rows[other].airport || rows[id].data != rows[other].data);
      assert At(rows, other, canonical, rows[id].key);
    }
  }

  ghost predicate HasTwin(rows: Table, id: RowId, canonical: LotId)
    requires id in rows
  {
    exists other :: At(rows, other, canonical, rows[id].key)
  }

  /**
   A row after the merge, None if it is deleted: a duplicate's row is deleted if it has a twin and moved otherwise.
   */
  ghost function RowAfter(rows: Table, id: RowId, canonical: LotId, airport: AirportId, duplicate: LotId): Option<Row>
    requires id in rows
  {
    if rows[id].lot != duplicate then Some(rows[id])
    else if HasTwin(rows, id, canonical) then None
    else Some(rows[id].(lot := canonical, airport := airport))
  }

  /** The table after the rows `done` of the duplicate are merged. */
  ghost predicate MergedUpTo(original: Table, rows: Table, done: seq<RowId>, canonical: LotId, airport: AirportId,
      duplicate: LotId) {
    && rows.Keys <= original.Keys
    && forall id :: id in original ==>
         var after := if id in done then RowAfter(original, id, canonical, airport, duplicate) else Some(original[id]);
         if after.None? then id !in rows else id in rows && rows[id] == after.value
  }

  /** Twins in the table being merged are twins in the table before; the next row is still as it was. */
  lemma TwinIsOriginal(
      original: Table, rows: Table, ids: seq<RowId>, i: nat, id: RowId, canonical: LotId, airport: AirportId,
      duplicate: LotId, other: RowId)
    requires canonical != duplicate && UniqueKeys(original) && Lists(ids, original, duplicate) && i < |ids|
             && id == ids[i] && id in ids
    requires MergedUpTo(original, rows, ids[..i], canonical, airport, duplicate)
    ensures id in rows && rows[id] == original[id]
    ensures At(rows, other, canonical, original[id].key) <==> At(original, other, canonical, original[id].key)
    ensures At(rows, other, canonical, original[id].key) ==> rows[other] == original[other]
  {
    assert id !in ids[..i];
    if other in ids[..i] {
      assert other in ids && other != id;
    }
  }

  /** Sets one row as the loop does. */
  lemma MergeNext(
      original: Table, rows: Table, after: Table, ids: seq<RowId>, i: nat, canonical: LotId, airport: AirportId,
      duplicate: LotId)
    requires i < |ids| && Lists(ids, original, duplicate)
             && MergedUpTo(original, rows, ids[..i], canonical, airport, duplicate)
    requires after == if HasTwin(original, ids[i], canonical) then rows - {ids[i]}
                      else rows[ids[i] := original[ids[i]].(lot := canonical, airport := airport)]
    ensures MergedUpTo(original, after, ids[..i + 1], canonical, airport, duplicate)
  {
    assert ids[..i + 1] == ids[..i] + [ids[i]];
    assert ids[i] in ids && ids[i] !in ids[..i];
  }

  /** Row `id` meets a row of the canonical lot with its key and other contents. */
  ghost predicate Clashes(rows: Table, id: RowId, canonical: LotId)
    requires id in rows
  {
    exists other :: At(rows, other, canonical, rows[id].key) && !SameFields(rows[other], rows[id])
  }

  ghost predicate AtMostOneTwin(rows: Table, id: RowId, canonical: LotId)
    requires id in rows
  {
    forall a, b :: At(rows, a, canonical, rows[id].key) && At(rows, b, canonical, rows[id].key) ==> a == b
  }

  /** The next row sees the same twins as at the start. */
  lemma NextRowIsOriginal(
      original: Table, rows: Table, ids: seq<RowId>, i: nat, id: RowId, canonical: LotId, airport: AirportId,
      duplicate: LotId)
    requires canonical != duplicate && UniqueKeys(original) && Lists(ids, original, duplicate) && i < |ids|
             && id == ids[i] && id in ids
    requires MergedUpTo(original, rows, ids[..i], canonical, airport, duplicate)
    ensures id in rows && rows[id] == original[id]
    ensures HasTwin(rows, id, canonical) <==> HasTwin(original, id, canonical)
    ensures Clashes(rows, id, canonical) <==> Clashes(original, id, canonical)
    ensures AtMostOneTwin(rows, id, canonical)
  {
    forall other {
      TwinIsOriginal(original, rows, ids, i, id, canonical, airport, duplicate, other);
    }
  }

  datatype Outcome = Moved | Deleted | Refused

  class RowTable {
    var rows: Table

    constructor (rows: Table)
      ensures this.rows == rows
    {
      this.rows := rows;
    }

    /** One round: a row that clashes is refused, one with an equal twin is deleted, any other moves. */
    method MergeRow(id: RowId, canonical: LotId, airport: AirportId) returns (outcome: Outcome)
      requires id in rows && AtMostOneTwin(rows, id, canonical)
      modifies this
      ensures outcome == Refused <==> Clashes(old(rows), id, canonical)
      ensures outcome == Deleted <==> HasTwin(old(rows), id, canonical) && !Clashes(old(rows), id, canonical)
      ensures rows == if outcome == Refused then old(rows)
                      else if outcome == Deleted then old(rows) - {id}
                      else old(rows)[id := old(rows)[id].(lot := canonical, airport := airport)]
    {
      if exists other :: other in rows && At(rows, other, canonical, rows[id].key) {
        var other :| other in rows && At(rows, other, canonical, rows[id].key);
        if !SameFields(rows[other], rows[id]) {
          return Refused;
        }
        rows := rows - {id};
        return Deleted;
      }
      rows := rows[id := rows[id].(lot := canonical, airport := airport)];
      return Moved;
    }

    /** The loop over the duplicate's rows: each is moved or deleted as `RowAfter` says, until one clashes. */
    method MergeEach(ids: seq<RowId>, canonical: LotId, airport: AirportId, duplicate: LotId)
      returns (moved: nat, deleted: nat, conflict: bool)
      requires canonical != duplicate && UniqueKeys(rows) && Lists(ids, rows, duplicate)
      modifies this
      ensures conflict <==> Conflict(old(rows), canonical, duplicate)
      ensures !conflict ==> MergedUpTo(old(rows), rows, ids, canonical, airport, duplicate)
      ensures !conflict ==> moved + deleted == |ids| && |rows| == |old(rows)| - deleted
    {
      moved, deleted := 0, 0;
      ghost var before := rows;
      for i := 0 to |ids|
        invariant MergedUpTo(before, rows, ids[..i], canonical, airport, duplicate)
        invariant moved + deleted == i && |rows| == |before| - deleted
        invariant forall id :: id in ids[..i] && id in before ==> !Clashes(before, id, canonical)
      {
        var id := ids[i];
        assert id in ids && ids[..i + 1] == ids[..i] + [id];
        NextRowIsOriginal(before, rows, ids, i, id, canonical, airport, duplicate);
        ghost var current := rows;
        var outcome := MergeRow(id, canonical, airport);
        if outcome == Refused {
          return moved, deleted, true;
        }
        if outcome == Deleted {
          deleted := deleted + 1;
        } else {
          moved := moved + 1;
        }
        MergeNext(before, current, rows, ids, i, canonical, airport, duplicate);
      }
      assert ids[..|ids|] == ids;
      conflict := false;
    }

    /**
     `merge_lot` for one table. It stops exactly when a row of each lot have one key and differ in another compared
     field; otherwise every row of the duplicate is at the canonical lot afterwards, or an equal one is, and only the
     latter are deleted; the duplicate is empty and other lots' rows are as they were.
     */
    method MergeRows(ids: seq<RowId>, canonical: LotId, airport: AirportId, duplicate: LotId)
      returns (moved: nat, deleted: nat, conflict: bool)
      requires canonical != duplicate && UniqueKeys(rows) && Lists(ids, rows, duplicate)
      modifies this
      ensures conflict <==> Conflict(old(rows), canonical, duplicate)
      ensures conflict <==> Differ(old(rows), duplicate, canonical)
      ensures !conflict ==> MergedUpTo(old(rows), rows, ids, canonical, airport, duplicate)
      ensures !conflict ==> Carried(old(rows), rows, duplicate, canonical) && Emptied(old(rows), rows, duplicate)
      ensures !conflict ==> moved + deleted == |ids| && |rows| == |old(rows)| - deleted
    {
      ghost var before := rows;
      ConflictIsDifference(before, canonical, duplicate);
      moved, deleted, conflict := MergeEach(ids, canonical, airport, duplicate);
      if !conflict {
        MergeCarries(before, rows, ids, canonical, airport, duplicate);
      }
    }
  }

  // ----- what a merge keeps -----

  /** No row of the duplicate is left. */
  lemma DuplicateIsEmpty(original: Table, rows: Table, ids: seq<RowId>, canonical: LotId, airport: AirportId,
      duplicate: LotId)
    requires canonical != duplicate && Lists(ids, original, duplicate)
    requires MergedUpTo(original, rows, ids, canonical, airport, duplicate)
    ensures forall id :: id in rows ==> rows[id].lot != duplicate
  {
    forall id | id in rows ensures rows[id].lot != duplicate {
      assert id in original;
    }
  }

  /** Every row of the duplicate is at the canonical lot afterwards, or an equal one is; the rows of other lots stay. */
  lemma MergeCarries(original: Table, rows: Table, ids: seq<RowId>, canonical: LotId, airport: AirportId,
      duplicate: LotId)
    requires canonical != duplicate && Lists(ids, original, duplicate) && !Conflict(original, canonical, duplicate)
    requires MergedUpTo(original, rows, ids, canonical, airport, duplicate)
    ensures Carried(original, rows, duplicate, canonical)
    ensures Emptied(original, rows, duplicate)
  {
    DuplicateIsEmpty(original, rows, ids, canonical, airport, duplicate);
    forall id | id in original && original[id].lot == duplicate
      ensures exists other :: other in rows && rows[other].lot == canonical
                              && rows[other].key == original[id].key && rows[other].data == original[id].data
    {
      if HasTwin(original, id, canonical) {
        var other :| At(original, other, canonical, original[id].key);
        assert SameFields(original[other], original[id]);
        assert other !in ids && rows[other] == original[other];
      } else {
        assert id in ids && rows[id].lot == canonical;
      }
    }
  }

  /** The uniqueness constraint still holds. */
  lemma MergeKeepsUnique(original: Table, rows: Table, ids: seq<RowId>, canonical: LotId, airport: AirportId,
      duplicate: LotId)
    requires canonical != duplicate && UniqueKeys(original) && Lists(ids, original, duplicate)
    requires MergedUpTo(original, rows, ids, canonical, airport, duplicate)
    ensures UniqueKeys(rows)
  {
    forall id, other | id in rows && other in rows && rows[id].lot == rows[other].lot && rows[id].key == rows[other].key
      ensures id == other
    {
      assert id in original && other in original;
      if id in ids && other !in ids {
        assert !HasTwin(original, id, canonical);
        assert At(original, other, canonical, original[id].key);
      } else if id !in ids && other in ids {
        assert !HasTwin(original, other, canonical);
        assert At(original, id, canonical, original[other].key);
      }
    }
  }

  ghost function Entry(row: Row): (AirportId, int, int) {
    (row.airport, row.key, row.data)
  }

  /** What a lot holds, row ids and collection runs aside. */
  ghost function Contents(rows: Table, lot: LotId): set<(AirportId, int, int)> {
    set id | id in rows && rows[id].lot == lot :: Entry(rows[id])
  }

  /** Both lots belong to one airport. */
  ghost predicate OfAirport(rows: Table, lot: LotId, airport: AirportId) {
    forall id :: id in rows && rows[id].lot == lot ==> rows[id].airport == airport
  }

  /**
   Nothing is lost and nothing invented: the canonical lot ends up with exactly the contents of both lots, and every
   other lot keeps its own.
   */
  lemma MergeConservesContents(
      original: Table, rows: Table, ids: seq<RowId>, canonical: LotId, airport: AirportId, duplicate: LotId)
    requires canonical != duplicate && Lists(ids, original, duplicate) && OfAirport(original, duplicate, airport)
    requires MergedUpTo(original, rows, ids, canonical, airport, duplicate) && !Conflict(original, canonical, duplicate)
    ensures Contents(rows, canonical) == Contents(original, canonical) + Contents(original, duplicate)
    ensures forall lot :: lot != canonical && lot != duplicate ==> Contents(rows, lot) == Contents(original, lot)
  {
    forall id | id in original && (original[id].lot == canonical || original[id].lot == duplicate)
      ensures Entry(original[id]) in Contents(rows, canonical)
    {
      KeptAtCanonical(original, rows, ids, canonical, airport, duplicate, id);
    }
    forall id | id in rows && rows[id].lot == canonical
      ensures Entry(rows[id]) in Contents(original, canonical) + Contents(original, duplicate)
    {
      assert id in original && Entry(rows[id]) == Entry(original[id]);
    }
    forall lot | lot != canonical && lot != duplicate ensures Contents(rows, lot) == Contents(original, lot) {
      forall id | id in rows && rows[id].lot == lot ensures id in original && original[id] == rows[id] {
        assert id in original;
      }
      forall id | id in original && original[id].lot == lot ensures id in rows && rows[id] == original[id] {
        assert id !in ids;
      }
    }
  }

  /** A row of either lot: it is at the canonical lot afterwards, or its equal twin is. */
  lemma KeptAtCanonical(
      original: Table, rows: Table, ids: seq<RowId>, canonical: LotId, airport: AirportId, duplicate: LotId, id: RowId)
    requires canonical != duplicate && Lists(ids, original, duplicate) && OfAirport(original, duplicate, airport)
    requires MergedUpTo(original, rows, ids, canonical, airport, duplicate) && !Conflict(original, canonical, duplicate)
    requires id in original && (original[id].lot == canonical || original[id].lot == duplicate)
    ensures Entry(original[id]) in Contents(rows, canonical)
  {
    if original[id].lot == duplicate && HasTwin(original, id, canonical) {
      var other :| At(original, other, canonical, original[id].key);
      assert Entry(original[other]) == Entry(original[id]);
      assert other !in ids && rows[other] == original[other];
    } else {
      assert id in rows && rows[id].lot == canonical && Entry(rows[id]) == Entry(original[id]);
    }
  }

  // ----- lots -----

  datatype Lot = Lot(id: LotId, airport: AirportId, source: int, legacy: Option<LegacyId>)

  /** The legacy identity the canonical lot ends up with, or None if the two lots have different ones. */
  function MergedLegacy(canonical: Option<LegacyId>, duplicate: Option<LegacyId>): Option<Option<LegacyId>> {
    if duplicate.None? then Some(canonical)
    else if canonical.Some? && canonical != duplicate then None
    else Some(duplicate)
  }

  /** Merging legacy identities neither loses nor replaces one. */
  lemma LegacyIsKept(canonical: Option<LegacyId>, duplicate: Option<LegacyId>)
    ensures var merged := MergedLegacy(canonical, duplicate);
            if merged.None? then canonical.Some? && duplicate.Some? && canonical != duplicate
            else (canonical.Some? ==> merged.value == canonical) && (duplicate.Some? ==> merged.value == duplicate)
                 && (canonical.None? && duplicate.None? ==> merged.value == None)
  {
  }

  datatype Merged = Merged(movedSnapshots: nat, deletedSnapshots: nat, movedRules: nat, legacy: Option<LegacyId>)

  /** `merge_lot`; after an error the caller rolls the transaction back. */
  method MergeLot(
      snapshots: RowTable, rules: RowTable, snapshotIds: seq<RowId>, ruleIds: seq<RowId>, canonical: Lot,
      duplicate: Lot)
    returns (result: Result<Merged, MergeError>)
    requires canonical.id != duplicate.id && canonical.airport == duplicate.airport && snapshots != rules
    requires UniqueKeys(snapshots.rows) && Lists(snapshotIds, snapshots.rows, duplicate.id)
    requires UniqueKeys(rules.rows) && Lists(ruleIds, rules.rows, duplicate.id)
    requires OfAirport(snapshots.rows, duplicate.id, duplicate.airport)
             && OfAirport(rules.rows, duplicate.id, duplicate.airport)
    modifies snapshots, rules
    ensures result.Ok? <==>
              && !Conflict(old(snapshots.rows), canonical.id, duplicate.id)
                  && !Conflict(old(rules.rows), canonical.id, duplicate.id)
              && MergedLegacy(canonical.legacy, duplicate.legacy).Some?
    ensures result.Ok? <==>
              && !Differ(old(snapshots.rows), duplicate.id, canonical.id)
              && !Differ(old(rules.rows), duplicate.id, canonical.id)
              && (canonical.legacy.None? || duplicate.legacy.None? || canonical.legacy == duplicate.legacy)
    ensures result.Ok? ==>
              && Carried(old(snapshots.rows), snapshots.rows, duplicate.id, canonical.id)
              && Carried(old(rules.rows), rules.rows, duplicate.id, canonical.id)
              && result.value.legacy == (if canonical.legacy.Some? then canonical.legacy else duplicate.legacy)
    ensures result.Err? ==> result.error != NotApproved
    ensures result.Ok? ==>
              && MergedUpTo(old(snapshots.rows), snapshots.rows, snapshotIds, canonical.id, canonical.airport,
                  duplicate.id)
              && MergedUpTo(old(rules.rows), rules.rows, ruleIds, canonical.id, canonical.airport, duplicate.id)
              && result.value.movedSnapshots + result.value.deletedSnapshots == |snapshotIds|
              && |snapshots.rows| == |old(snapshots.rows)| - result.value.deletedSnapshots
              && |rules.rows| == |old(rules.rows)| - (|ruleIds| - result.value.movedRules)
              && Some(result.value.legacy) == MergedLegacy(canonical.legacy, duplicate.legacy)
  {
    var moved, deleted, conflict := snapshots.MergeRows(snapshotIds, canonical.id, canonical.airport, duplicate.id);
    if conflict {
      return Err(ConflictingSnapshot);
    }
    var movedRules, deletedRules, ruleConflict :=
      rules.MergeRows(ruleIds, canonical.id, canonical.airport, duplicate.id);
    if ruleConflict {
      return Err(ConflictingRule);
    }
    var legacy := canonical.legacy;
    if duplicate.legacy.Some? {
      if canonical.legacy.Some? && canonical.legacy != duplicate.legacy {
        return Err(ConflictingLegacy);
      }
      legacy := duplicate.legacy;
    }
    return Ok(Merged(moved, deleted, movedRules, legacy));
  }

  // ----- the canonical lot -----

  /** `counts.get(lot.id, 0)`. */
  function CountOf(counts: map<LotId, nat>, lot: Lot): nat {
    if lot.id in counts then counts[lot.id] else 0
  }

  /** `max` by (count, -id). */
  predicate Beats(counts: map<LotId, nat>, a: Lot, b: Lot) {
    CountOf(counts, a) > CountOf(counts, b) || (CountOf(counts, a) == CountOf(counts, b) && a.id < b.id)
  }

  /** The lot with the most snapshots, the smallest id among equals, is the only one no other lot beats. */
  method ChooseCanonical(lots: seq<Lot>, counts: map<LotId, nat>) returns (canonical: Lot)
    requires lots != [] && forall i, j :: 0 <= i < j < |lots| ==> lots[i].id != lots[j].id
    ensures canonical in lots
    ensures forall lot :: lot in lots && lot != canonical ==> Beats(counts, canonical, lot)
    ensures forall lot :: lot in lots && lot.id != canonical.id ==>
              var most := if canonical.id in counts then counts[canonical.id] else 0;
              var other := if lot.id in counts then counts[lot.id] else 0;
              other < most || (other == most && canonical.id < lot.id)
  {
    canonical := lots[0];
    for i := 1 to |lots|
      invariant canonical in lots[..i]
      invariant forall k :: 0 <= k < i && lots[k] != canonical ==> Beats(counts, canonical, lots[k])
    {
      if Beats(counts, lots[i], canonical) {
        canonical := lots[i];
      }
    }
  }

  // ----- a group of lots with one name -----

  /** The ids of the rows of a lot, as a query returns them. */
  method QueryIds(rows: Table, lot: LotId) returns (ids: seq<RowId>)
    ensures Lists(ids, rows, lot)
  {
    ids := [];
    var left: set<RowId> := set id | id in rows && rows[id].lot == lot;
    while left != {}
      invariant forall i, j :: 0 <= i < j < |ids| ==> ids[i] != ids[j]
      invariant forall id :: id in ids ==> id !in left
      invariant forall id :: id in ids || id in left <==> id in rows && rows[id].lot == lot
      decreases |left|
    {
      assert (forall id :: id !in left) ==> left == {};
      var id :| id in left;
      ids := ids + [id];
      left := left - {id};
    }
  }

  ghost function GroupContents(rows: Table, lots: seq<Lot>): set<(AirportId, int, int)> {
    if lots == [] then {} else GroupContents(rows, lots[..|lots| - 1]) + Contents(rows, lots[|lots| - 1].id)
  }

  /** After the first `i` lots: the canonical lot holds their contents and its own, the others of them nothing. */
  ghost predicate GroupSoFar(before: Table, rows: Table, lots: seq<Lot>, i: nat, canonical: Lot)
    requires i <= |lots|
  {
    && UniqueKeys(rows)
    && Contents(rows, canonical.id) == Contents(before, canonical.id) + GroupContents(before, lots[..i])
    && (forall k :: 0 <= k < i && lots[k].id != canonical.id ==> Contents(rows, lots[k].id) == {})
    && (forall k :: i <= k < |lots| && lots[k].id != canonical.id ==>
        Contents(rows, lots[k].id) == Contents(before, lots[k].id))
    && (forall k :: 0 <= k < |lots| ==> OfAirport(rows, lots[k].id, canonical.airport))
  }

  lemma GroupStep(
      before: Table, current: Table, rows: Table, ids: seq<RowId>, lots: seq<Lot>, i: nat, canonical: Lot)
    requires i < |lots| && lots[i].id != canonical.id && GroupSoFar(before, current, lots, i, canonical)
    requires forall k, m :: 0 <= k < m < |lots| ==> lots[k].id != lots[m].id
    requires Lists(ids, current, lots[i].id) && !Conflict(current, canonical.id, lots[i].id)
    requires MergedUpTo(current, rows, ids, canonical.id, canonical.airport, lots[i].id)
    ensures GroupSoFar(before, rows, lots, i + 1, canonical)
  {
    MergeKeepsUnique(current, rows, ids, canonical.id, canonical.airport, lots[i].id);
    MergeConservesContents(current, rows, ids, canonical.id, canonical.airport, lots[i].id);
    DuplicateIsEmpty(current, rows, ids, canonical.id, canonical.airport, lots[i].id);
    assert lots[..i + 1][..i] == lots[..i];
    assert GroupContents(before, lots[..i + 1]) == GroupContents(before, lots[..i]) + Contents(before, lots[i].id);
    forall k | 0 <= k < |lots| ensures OfAirport(rows, lots[k].id, canonical.airport) {
      forall id | id in rows && rows[id].lot == lots[k].id ensures rows[id].airport == canonical.airport {
        assert id in current;
      }
    }
    assert Contents(rows, lots[i].id) == {};
  }

  function Pair(a: int, b: int): (int, int) {
    if a < b then (a, b) else (b, a)
  }

  /** No two entries with one key differ. */
  ghost predicate Agree(contents: set<(AirportId, int, int)>) {
    forall a, b :: a in contents && b in contents && a.1 == b.1 ==> a == b
  }

  lemma LotAgrees(rows: Table, lot: LotId)
    requires UniqueKeys(rows)
    ensures Agree(Contents(rows, lot))
  {
  }

  lemma ConflictDisagrees(rows: Table, canonical: LotId, duplicate: LotId)
    requires Conflict(rows, canonical, duplicate)
    ensures !Agree(Contents(rows, canonical) + Contents(rows, duplicate))
  {
    var id, other :| id in rows && rows[id].lot == duplicate && At(rows, other, canonical, rows[id].key)
                     && !SameFields(rows[other], rows[id]);
    assert Entry(rows[id]) in Contents(rows, duplicate) && Entry(rows[other]) in Contents(rows, canonical);
  }

  lemma {:induction false} GroupContains(rows: Table, lots: seq<Lot>, lot: Lot)
    requires lot in lots
    ensures Contents(rows, lot.id) <= GroupContents(rows, lots)
  {
    if lot != lots[|lots| - 1] {
      GroupContains(rows, lots[..|lots| - 1], lot);
    }
  }

  lemma {:induction false} GroupGrows(rows: Table, lots: seq<Lot>, i: nat)
    requires i <= |lots|
    ensures GroupContents(rows, lots[..i]) <= GroupContents(rows, lots)
    decreases |lots|
  {
    if i < |lots| {
      GroupGrows(rows, lots[..|lots| - 1], i);
      assert lots[..|lots| - 1][..i] == lots[..i];
    } else {
      assert lots[..i] == lots;
    }
  }

  /** A conflict of the next lot is a disagreement within the group as it was before. */
  lemma GroupConflict(before: Table, rows: Table, lots: seq<Lot>, i: nat, canonical: Lot)
    requires i < |lots| && lots[i].id != canonical.id && canonical in lots
             && GroupSoFar(before, rows, lots, i, canonical)
    requires Conflict(rows, canonical.id, lots[i].id)
    ensures !Agree(GroupContents(before, lots))
  {
    ConflictDisagrees(rows, canonical.id, lots[i].id);
    GroupContains(before, lots, canonical);
    GroupContains(before, lots, lots[i]);
    GroupGrows(before, lots, i);
    assert Contents(rows, canonical.id) + Contents(rows, lots[i].id) <= GroupContents(before, lots);
  }

  /** When all lots are merged, the canonical lot holds exactly what the lots of the group held. */
  lemma GroupHoldsAll(before: Table, rows: Table, lots: seq<Lot>, canonical: Lot)
    requires canonical in lots && GroupSoFar(before, rows, lots, |lots|, canonical)
    ensures GroupMerged(before, rows, lots, canonical)
  {
    assert lots[..|lots|] == lots;
    GroupContains(before, lots, canonical);
    LotAgrees(rows, canonical.id);
  }

  /** The canonical lot holds what the group held before, without disagreement, and the other lots nothing. */
  ghost predicate GroupMerged(before: Table, rows: Table, lots: seq<Lot>, canonical: Lot) {
    && Contents(rows, canonical.id) == GroupContents(before, lots) && Agree(GroupContents(before, lots))
    && UniqueKeys(rows)
    && forall lot :: lot in lots && lot.id != canonical.id ==> Contents(rows, lot.id) == {}
  }

  /** No two lots of the group have different legacy identities. */
  ghost predicate LegaciesAgree(lots: seq<Lot>) {
    forall a, b :: a in lots && b in lots && a.legacy.Some? && b.legacy.Some? ==> a.legacy == b.legacy
  }

  /** `kept` bears the legacy identity of the canonical lot and of the first `i` lots, and of no other lot. */
  ghost predicate LegacySoFar(lots: seq<Lot>, i: nat, canonical: Lot, kept: Lot)
    requires i <= |lots|
  {
    && kept == canonical.(legacy := kept.legacy)
    && (canonical.legacy.Some? ==> kept.legacy == canonical.legacy)
    && (forall k :: 0 <= k < i && lots[k].legacy.Some? ==> kept.legacy == lots[k].legacy)
    && (kept.legacy.Some? ==> exists lot :: lot in lots && lot.legacy == kept.legacy)
  }

  lemma LegacyStep(lots: seq<Lot>, i: nat, canonical: Lot, kept: Lot)
    requires i < |lots| && LegacySoFar(lots, i, canonical, kept)
    ensures var merged := MergedLegacy(kept.legacy, lots[i].legacy);
            if merged.Some? then LegacySoFar(lots, i + 1, canonical, kept.(legacy := merged.value))
                else !LegaciesAgree(lots)
  {
    assert lots[i] in lots;
  }

  lemma LegaciesAgreed(lots: seq<Lot>, canonical: Lot, kept: Lot)
    requires LegacySoFar(lots, |lots|, canonical, kept)
    ensures LegaciesAgree(lots)
  {
    forall a, b | a in lots && b in lots && a.legacy.Some? && b.legacy.Some? ensures a.legacy == b.legacy {
      var k :| 0 <= k < |lots| && lots[k] == a;
      var m :| 0 <= m < |lots| && lots[m] == b;
    }
  }

  /** Two rows of the group, of any of its lots, have one key and another airport or other data. */
  ghost predicate GroupDiffers(rows: Table, lots: seq<Lot>) {
    exists a, b :: a in lots && b in lots && Differ(rows, a.id, b.id)
  }

  lemma {:induction false} EntryOrigin(rows: Table, lots: seq<Lot>, e: (AirportId, int, int))
      returns (lot: Lot, id: RowId)
    requires e in GroupContents(rows, lots)
    ensures lot in lots && id in rows && rows[id].lot == lot.id && Entry(rows[id]) == e
  {
    var last := lots[|lots| - 1];
    if e in Contents(rows, last.id) {
      lot := last;
      id :| id in rows && rows[id].lot == last.id && Entry(rows[id]) == e;
    } else {
      lot, id := EntryOrigin(rows, lots[..|lots| - 1], e);
    }
  }

  /** The group agrees exactly when no two of its rows differ. */
  lemma GroupAgrees(rows: Table, lots: seq<Lot>)
    ensures Agree(GroupContents(rows, lots)) <==> !GroupDiffers(rows, lots)
  {
    if GroupDiffers(rows, lots) {
      var a, b :| a in lots && b in lots && Differ(rows, a.id, b.id);
      var id, other :| id in rows && other in rows && rows[id].lot == a.id && rows[other].lot == b.id
                       && rows[id].key == rows[other].key
                       && (rows[id].airport != rows[other].airport || rows[id].data != rows[other].data);
      GroupContains(rows, lots, a);
      GroupContains(rows, lots, b);
      assert Entry(rows[id]) in Contents(rows, a.id) && Entry(rows[other]) in Contents(rows, b.id);
    } else {
      forall e, f | e in GroupContents(rows, lots) && f in GroupContents(rows, lots) && e.1 == f.1 ensures e == f {
        var a, id := EntryOrigin(rows, lots, e);
        var b, other := EntryOrigin(rows, lots, f);
        assert !Differ(rows, a.id, b.id);
        assert rows[id].key == rows[other].key;
      }
    }
  }

  /** Every row of every lot of the group has a row of the canonical lot with its key and data. */
  lemma GroupIsCarried(before: Table, rows: Table, lots: seq<Lot>, canonical: Lot)
    requires GroupMerged(before, rows, lots, canonical)
    ensures GroupCarried(before, rows, lots, canonical)
  {
    forall lot, id | lot in lots && id in before && before[id].lot == lot.id
      ensures exists other :: other in rows && rows[other].lot == canonical.id
                              && rows[other].key == before[id].key && rows[other].data == before[id].data
    {
      GroupContains(before, lots, lot);
      assert Entry(before[id]) in Contents(rows, canonical.id);
    }
  }

  /** One lot of the group that is not the canonical one. */
  method MergeOne(
      snapshots: RowTable, rules: RowTable, ghost s: Table, ghost r: Table, lots: seq<Lot>, i: nat, canonical: Lot,
      kept: Lot)
    returns (result: Result<Lot, MergeError>)
    requires snapshots != rules && i < |lots| && lots[i].airport == canonical.airport && lots[i].id != canonical.id
    requires canonical in lots && forall k, m :: 0 <= k < m < |lots| ==> lots[k].id != lots[m].id
    requires GroupSoFar(s, snapshots.rows, lots, i, canonical) && GroupSoFar(r, rules.rows, lots, i, canonical)
    requires LegacySoFar(lots, i, canonical, kept)
    modifies snapshots, rules
    ensures result.Ok? ==>
            GroupSoFar(s, snapshots.rows, lots, i + 1, canonical) && GroupSoFar(r, rules.rows, lots, i + 1, canonical)
    ensures result.Ok? ==> LegacySoFar(lots, i + 1, canonical, result.value)
    ensures result.Err? ==> result.error != NotApproved
    ensures result.Err? ==> !(Agree(GroupContents(s, lots)) && Agree(GroupContents(r, lots)) && LegaciesAgree(lots))
  {
    var duplicate := lots[i];
    var snapshotIds := QueryIds(snapshots.rows, duplicate.id);
    var ruleIds := QueryIds(rules.rows, duplicate.id);
    ghost var before, rulesBefore := snapshots.rows, rules.rows;
    LegacyStep(lots, i, canonical, kept);
    var outcome := MergeLot(snapshots, rules, snapshotIds, ruleIds, kept, duplicate);
    if outcome.Err? {
      if Conflict(before, canonical.id, duplicate.id) {
        GroupConflict(s, before, lots, i, canonical);
      } else if Conflict(rulesBefore, canonical.id, duplicate.id) {
        GroupConflict(r, rulesBefore, lots, i, canonical);
      }
      return Err(outcome.error);
    }
    GroupStep(s, before, snapshots.rows, snapshotIds, lots, i, canonical);
    GroupStep(r, rulesBefore, rules.rows, ruleIds, lots, i, canonical);
    return Ok(kept.(legacy := outcome.value.legacy));
  }

  /** How many of the first `n` lots are not the canonical one. */
  function Others(lots: seq<Lot>, n: nat, canonical: Lot): nat
    requires n <= |lots|
  {
    if n == 0 then 0 else Others(lots, n - 1, canonical) + if lots[n - 1].id != canonical.id then 1 else 0
  }

  lemma {:induction false} OthersOfGroup(lots: seq<Lot>, n: nat, canonical: Lot)
    requires n <= |lots| && forall k, m :: 0 <= k < m < |lots| ==> lots[k].id != lots[m].id
    ensures Others(lots, n, canonical) == n - if exists k :: 0 <= k < n && lots[k].id == canonical.id then 1 else 0
  {
    if n > 0 {
      OthersOfGroup(lots, n - 1, canonical);
    }
  }

  /** The first `i` lots are merged: their rows, their approvals, their legacy identities and their number. */
  ghost predicate MergedSoFar(
      before: Table, rows: Table, rulesBefore: Table, rules: Table, lots: seq<Lot>, i: nat, canonical: Lot, kept: Lot,
      approved: set<(int, int)>, merged: nat)
    requires i <= |lots|
  {
    && GroupSoFar(before, rows, lots, i, canonical) && GroupSoFar(rulesBefore, rules, lots, i, canonical)
    && AllApproved(lots, i, canonical, approved)
    && LegacySoFar(lots, i, canonical, kept) && merged == Others(lots, i, canonical)
  }

  lemma CanonicalIsMerged(
      before: Table, rows: Table, rulesBefore: Table, rules: Table, lots: seq<Lot>, i: nat, canonical: Lot, kept: Lot,
      approved: set<(int, int)>, merged: nat)
    requires i < |lots| && lots[i].id == canonical.id && canonical in lots
    requires forall k, m :: 0 <= k < m < |lots| ==> lots[k].id != lots[m].id
    requires MergedSoFar(before, rows, rulesBefore, rules, lots, i, canonical, kept, approved, merged)
    ensures MergedSoFar(before, rows, rulesBefore, rules, lots, i + 1, canonical, kept, approved, merged)
  {
    assert lots[i] == canonical;
    SkipCanonical(before, rows, lots, i, canonical);
    SkipCanonical(rulesBefore, rules, lots, i, canonical);
  }

  lemma OneMoreIsMerged(
      before: Table, rows: Table, rulesBefore: Table, rules: Table, lots: seq<Lot>, i: nat, canonical: Lot, kept: Lot,
      approved: set<(int, int)>, merged: nat)
    requires i < |lots| && lots[i].id != canonical.id && Pair(canonical.source, lots[i].source) in approved
    requires AllApproved(lots, i, canonical, approved) && merged == Others(lots, i, canonical)
    requires GroupSoFar(before, rows, lots, i + 1, canonical) && GroupSoFar(rulesBefore, rules, lots, i + 1, canonical)
    requires LegacySoFar(lots, i + 1, canonical, kept)
    ensures MergedSoFar(before, rows, rulesBefore, rules, lots, i + 1, canonical, kept, approved, merged + 1)
  {
  }

  lemma NotAllApproved(lots: seq<Lot>, i: nat, canonical: Lot, approved: set<(int, int)>)
    requires i < |lots| && lots[i].id != canonical.id && ApprovedPairs(approved)
    requires Pair(canonical.source, lots[i].source) !in approved
    ensures !AllApproved(lots, |lots|, canonical, approved)
  {
  }

  /** The loop over the lots of a group. */
  method MergeOthers(snapshots: RowTable, rules: RowTable, lots: seq<Lot>, canonical: Lot, approved: set<(int, int)>)
    returns (result: Result<nat, MergeError>, kept: Lot)
    requires snapshots != rules && canonical in lots && ApprovedPairs(approved)
    requires forall k, m :: 0 <= k < m < |lots| ==> lots[k].id != lots[m].id
    requires forall k :: 0 <= k < |lots| ==> lots[k].airport == canonical.airport
    requires GroupSoFar(snapshots.rows, snapshots.rows, lots, 0, canonical)
    requires GroupSoFar(rules.rows, rules.rows, lots, 0, canonical)
    modifies snapshots, rules
    ensures result.Ok? ==>
              && GroupSoFar(old(snapshots.rows), snapshots.rows, lots, |lots|, canonical)
              && GroupSoFar(old(rules.rows), rules.rows, lots, |lots|, canonical)
              && AllApproved(lots, |lots|, canonical, approved)
              && LegacySoFar(lots, |lots|, canonical, kept) && result.value == Others(lots, |lots|, canonical)
    ensures result.Err? ==>
              || !AllApproved(lots, |lots|, canonical, approved)
              || !(Agree(GroupContents(old(snapshots.rows), lots)) && Agree(GroupContents(old(rules.rows), lots))
                   && LegaciesAgree(lots))
    ensures result == Err(NotApproved) ==> !AllApproved(lots, |lots|, canonical, approved)
  {
    var merged := 0;
    kept := canonical;
    ghost var s, r := snapshots.rows, rules.rows;
    for i := 0 to |lots|
      invariant MergedSoFar(s, snapshots.rows, r, rules.rows, lots, i, canonical, kept, approved, merged)
    {
      if lots[i].id == canonical.id {
        CanonicalIsMerged(s, snapshots.rows, r, rules.rows, lots, i, canonical, kept, approved, merged);
      } else {
        if Pair(canonical.source, lots[i].source) !in approved {
          NotAllApproved(lots, i, canonical, approved);
          return Err(NotApproved), kept;
        }
        var outcome := MergeOne(snapshots, rules, s, r, lots, i, canonical, kept);
        if outcome.Err? {
          return Err(outcome.error), kept;
        }
        kept := outcome.value;
        OneMoreIsMerged(s, snapshots.rows, r, rules.rows, lots, i, canonical, kept, approved, merged);
        merged := merged + 1;
      }
    }
    return Ok(merged), kept;
  }

  /** Every row of every lot of the group is carried to the canonical lot. */
  ghost predicate GroupCarried(before: Table, after: Table, lots: seq<Lot>, canonical: Lot) {
    forall lot :: lot in lots ==> Carried(before, after, lot.id, canonical.id)
  }

  /**
   One group of `reconcile`: every other lot of the group is merged into the canonical one, if its pair of source ids is
   approved. It succeeds exactly when every pair is approved and no two rows of the group's lots differ, nor two legacy
   identities, whatever the order of the lots. Then the canonical lot holds exactly what the whole group held, and the
   legacy identity of the group, and the others hold nothing.
   */
  method MergeGroup(snapshots: RowTable, rules: RowTable, lots: seq<Lot>, canonical: Lot, approved: set<(int, int)>)
    returns (result: Result<nat, MergeError>, kept: Lot)
    requires snapshots != rules && canonical in lots && ApprovedPairs(approved)
    requires forall k, m :: 0 <= k < m < |lots| ==> lots[k].id != lots[m].id
    requires forall k :: 0 <= k < |lots| ==> lots[k].airport == canonical.airport
    requires UniqueKeys(snapshots.rows) && UniqueKeys(rules.rows)
    requires forall k :: 0 <= k < |lots| ==>
               OfAirport(snapshots.rows, lots[k].id, canonical.airport)
               && OfAirport(rules.rows, lots[k].id, canonical.airport)
    modifies snapshots, rules
    ensures result.Ok? <==>
              && AllApproved(lots, |lots|, canonical, approved) && LegaciesAgree(lots)
              && !GroupDiffers(old(snapshots.rows), lots) && !GroupDiffers(old(rules.rows), lots)
    ensures result.Ok? ==>
              && GroupMerged(old(snapshots.rows), snapshots.rows, lots, canonical)
              && GroupMerged(old(rules.rows), rules.rows, lots, canonical)
              && GroupCarried(old(snapshots.rows), snapshots.rows, lots, canonical)
              && GroupCarried(old(rules.rows), rules.rows, lots, canonical)
              && result.value == |lots| - 1 && LegacySoFar(lots, |lots|, canonical, kept)
    ensures result == Err(NotApproved) ==> !AllApproved(lots, |lots|, canonical, approved)
  {
    ghost var s, r := snapshots.rows, rules.rows;
    GroupAgrees(s, lots);
    GroupAgrees(r, lots);
    result, kept := MergeOthers(snapshots, rules, lots, canonical, approved);
    if result.Ok? {
      GroupHoldsAll(s, snapshots.rows, lots, canonical);
      GroupHoldsAll(r, rules.rows, lots, canonical);
      GroupIsCarried(s, snapshots.rows, lots, canonical);
      GroupIsCarried(r, rules.rows, lots, canonical);
      LegaciesAgreed(lots, canonical, kept);
      OthersOfGroup(lots, |lots|, canonical);
    }
  }

  /** `load_allowed_pairs` returns sorted pairs of different ids. */
  ghost predicate ApprovedPairs(approved: set<(int, int)>) {
    forall pair :: pair in approved ==> pair.0 < pair.1
  }

  /** The pair of the canonical lot and each of the first `n` lots is approved. */
  ghost predicate AllApproved(lots: seq<Lot>, n: nat, canonical: Lot, approved: set<(int, int)>)
    requires n <= |lots|
  {
    forall k :: 0 <= k < n && lots[k].id != canonical.id ==>
      (canonical.source, lots[k].source) in approved || (lots[k].source, canonical.source) in approved
  }

  lemma SkipCanonical(before: Table, rows: Table, lots: seq<Lot>, i: nat, canonical: Lot)
    requires i < |lots| && lots[i].id == canonical.id && GroupSoFar(before, rows, lots, i, canonical)
    requires forall k, m :: 0 <= k < m < |lots| ==> lots[k].id != lots[m].id
    ensures GroupSoFar(before, rows, lots, i + 1, canonical)
  {
    assert lots[..i + 1][..i] == lots[..i];
    assert GroupContents(before, lots[..i + 1]) == GroupContents(before, lots[..i]) + Contents(before, canonical.id);
  }
}
