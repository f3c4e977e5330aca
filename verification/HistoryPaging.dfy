/**
 Parking history in pages: a cursor freezes the window start and the largest row id of the first request, and each
 page continues below the last (observed_at, lot) it returned. The PostgreSQL form reads only the keys of one page and
 picks the preferred row of each; the other form deduplicates everything and cuts.
 */
module HistoryPaging {
  import opened Common
  import opened TimeUtils
  import opened Sorting
  import opened Snapshots
  import opened Keyset
  import TimeSeriesQueries

  /** The airport and lot of the request; every snapshot of a lot belongs to the lot's airport. */
  datatype Filter = Filter(airport: Option<int>, lot: Option<int>)

  /** What a walk is frozen to. */
  datatype Scope = Scope(cutoff: int, maxId: int, lots: int -> bool)

  predicate Wanted(filter: Filter, airportOf: int -> int, lot: int) {
    if filter.lot.Some? && filter.lot.value != 0 then lot == filter.lot.value
    else filter.airport.Some? ==> airportOf(lot) == filter.airport.value
  }

  function LotsOf(filter: Filter, airportOf: int -> int): int -> bool {
    lot => Wanted(filter, airportOf, lot)
  }

  function InScope(scope: Scope): Snapshot -> bool {
    (s: Snapshot) => s.observedAt >= scope.cutoff && s.id <= scope.maxId && scope.lots(s.lot)
  }

  function Scoped(rows: seq<Snapshot>, scope: Scope): seq<Snapshot> {
    Select(rows, InScope(scope))
  }

  /** The frozen, preference-deduplicated history, latest first. */
  ghost predicate IsHistory(rows: seq<Snapshot>, scope: Scope, all: seq<Snapshot>) {
    && (forall s :: s in all <==> Winner(Scoped(rows, scope), s))
    && (forall i, j :: 0 <= i < j < |all| ==>
          || all[i].observedAt > all[j].observedAt
          || (all[i].observedAt == all[j].observedAt && all[i].lot > all[j].lot))
  }

  lemma HistoryDescends(rows: seq<Snapshot>, scope: Scope, all: seq<Snapshot>)
    requires IsHistory(rows, scope, all)
    ensures Descending(all, TimeThenLot)
  {
  }

  // ----- the PostgreSQL form -----

  /** The greatest key below the cursor. */
  function TopKey(rows: seq<Snapshot>, after: Option<Key>): Option<Key> {
    if rows == [] then None
    else
      var top, key := TopKey(rows[..|rows| - 1], after), TimeThenLot(rows[|rows| - 1]);
      if Below(key, after) && (top.None? || Before(top.value, key)) then Some(key) else top
  }

  lemma {:induction false} TopKeyIsTop(rows: seq<Snapshot>, after: Option<Key>)
    ensures var top := TopKey(rows, after);
            && (top.Some? ==> Below(top.value, after) && exists r :: r in rows && TimeThenLot(r) == top.value)
            && (forall r :: r in rows && Below(TimeThenLot(r), after) ==>
                top.Some? && AtMost(TimeThenLot(r), top.value))
  {
    if rows != [] {
      TopKeyIsTop(rows[..|rows| - 1], after);
      SplitLast(rows);
    }
  }

  /** `history_keys`: distinct keys below the cursor, descending, at most `n`. */
  function KeyPage(rows: seq<Snapshot>, after: Option<Key>, n: nat): seq<Key>
    decreases n
  {
    var top := TopKey(rows, after);
    if n == 0 || top.None? then [] else [top.value] + KeyPage(rows, top, n - 1)
  }

  function AtKey(key: Key, maxId: int): Snapshot -> bool {
    (s: Snapshot) => TimeThenLot(s) == key && s.id <= maxId
  }

  /** The lateral subquery: the preferred row of one key, among all rows up to `maxId`. */
  function Latest(rows: seq<Snapshot>, key: Key, maxId: int): Option<Snapshot> {
    TimeSeriesQueries.First(Select(rows, AtKey(key, maxId)))
  }

  /** Keys joined with their rows. */
  function JoinLatest(rows: seq<Snapshot>, keys: seq<Key>, maxId: int): seq<Snapshot> {
    if keys == [] then []
    else
      var latest := Latest(rows, keys[0], maxId);
      (if latest.Some? then [latest.value] else []) + JoinLatest(rows, keys[1..], maxId)
  }

  function PostgresPage(rows: seq<Snapshot>, scope: Scope, after: Option<Key>, limit: nat): Page<Snapshot> {
    Cut(JoinLatest(rows, KeyPage(Scoped(rows, scope), after, limit + 1), scope.maxId), limit)
  }

  /** The preferred row of a key, whichever rows of other keys are looked at. */
  lemma LatestIsWinner(rows: seq<Snapshot>, scope: Scope, s: Snapshot)
    requires UniqueIds(rows) && Winner(Scoped(rows, scope), s)
    ensures Latest(rows, TimeThenLot(s), scope.maxId) == Some(s)
  {
    var key, scoped := TimeThenLot(s), Scoped(rows, scope);
    var at := Select(rows, AtKey(key, scope.maxId));
    SelectMember(rows, InScope(scope), s);
    SelectMember(rows, AtKey(key, scope.maxId), s);
    forall r | r in at ensures r in rows && r in scoped && KeyOf(r) == KeyOf(s) {
      SelectMember(rows, AtKey(key, scope.maxId), r);
      SelectMember(rows, InScope(scope), r);
    }
    assert UniqueIds(at);
    TimeSeriesQueries.FirstPrecedes(at, s);
    var first := TimeSeriesQueries.First(at).value;
    FirstIsMember(at);
    assert first != s ==> Preferred(s, first);
  }

  lemma {:induction false} FirstIsMember(rows: seq<Snapshot>)
    ensures var first := TimeSeriesQueries.First(rows); first.Some? ==> first.value in rows
  {
    if rows != [] {
      FirstIsMember(rows[..|rows| - 1]);
      SplitLast(rows);
    }
  }

  lemma HistoryRow(rows: seq<Snapshot>, scope: Scope, all: seq<Snapshot>, i: nat)
    requires IsHistory(rows, scope, all) && i < |all|
    ensures all[i] in Scoped(rows, scope)
  {
    assert all[i] in all;
  }

  lemma HistoryHasKey(rows: seq<Snapshot>, scope: Scope, all: seq<Snapshot>, r: Snapshot) returns (j: nat)
    requires UniqueIds(rows) && IsHistory(rows, scope, all) && r in Scoped(rows, scope)
    ensures j < |all| && TimeThenLot(all[j]) == TimeThenLot(r)
  {
    ScopedUnique(rows, scope);
    var w := WinnerExists(Scoped(rows, scope), r);
    assert w in all;
    j :| 0 <= j < |all| && all[j] == w;
  }

  /** The keys of the history are the keys of the scoped rows. */
  lemma TopKeyOfHistory(rows: seq<Snapshot>, scope: Scope, all: seq<Snapshot>, after: Option<Key>, i: nat)
    requires UniqueIds(rows) && IsHistory(rows, scope, all) && i <= |all| && Rest(all, TimeThenLot, after) == all[i..]
    ensures TopKey(Scoped(rows, scope), after) == if i < |all| then Some(TimeThenLot(all[i])) else None
  {
    var scoped, top := Scoped(rows, scope), TopKey(Scoped(rows, scope), after);
    TopKeyIsTop(scoped, after);
    HistoryDescends(rows, scope, all);
    if i < |all| {
      assert all[i] in all[i..];
      SelectMember(all, BelowCursor(TimeThenLot, after), all[i]);
      HistoryRow(rows, scope, all, i);
      assert AtMost(TimeThenLot(all[i]), top.value);
    }
    if top.Some? {
      var r :| r in scoped && TimeThenLot(r) == top.value;
      var j := HistoryHasKey(rows, scope, all, r);
      SelectMember(all, BelowCursor(TimeThenLot, after), all[j]);
      InSuffixIff(all, TimeThenLot, i, j);
    }
  }

  lemma ScopedUnique(rows: seq<Snapshot>, scope: Scope)
    requires UniqueIds(rows)
    ensures UniqueIds(Scoped(rows, scope))
  {
    forall r | r in Scoped(rows, scope) ensures r in rows {
      SelectMember(rows, InScope(scope), r);
    }
  }

  /** At most `n` rows from `i` on. */
  function Window<T>(all: seq<T>, i: nat, n: nat): seq<T>
    requires i <= |all|
  {
    if n < |all| - i then all[i..i + n] else all[i..]
  }

  lemma WindowCons<T>(all: seq<T>, i: nat, n: nat)
    requires i < |all| && n > 0
    ensures Window(all, i, n) == [all[i]] + Window(all, i + 1, n - 1)
  {
  }

  function KeysOf(rows: seq<Snapshot>): seq<Key> {
    if rows == [] then [] else [TimeThenLot(rows[0])] + KeysOf(rows[1..])
  }

  lemma KeyPageNext(scoped: seq<Snapshot>, all: seq<Snapshot>, after: Option<Key>, i: nat, n: nat)
    requires n > 0 && i < |all| && TopKey(scoped, after) == Some(TimeThenLot(all[i]))
    requires KeyPage(scoped, Some(TimeThenLot(all[i])), n - 1) == KeysOf(Window(all, i + 1, n - 1))
    ensures KeyPage(scoped, after, n) == KeysOf(Window(all, i, n))
  {
    WindowCons(all, i, n);
    assert ([all[i]] + Window(all, i + 1, n - 1))[1..] == Window(all, i + 1, n - 1);
  }

  /** The key after `i` rows; None at the end. */
  function KeyAt(all: seq<Snapshot>, i: nat): Option<Key> {
    if i < |all| then Some(TimeThenLot(all[i])) else None
  }

  lemma {:induction false} KeyPageFollows(scoped: seq<Snapshot>, all: seq<Snapshot>, after: Option<Key>, i: nat, n: nat)
    requires i <= |all| && TopKey(scoped, after) == KeyAt(all, i)
    requires forall j: nat :: j < |all| ==> TopKey(scoped, KeyAt(all, j)) == KeyAt(all, j + 1)
    ensures KeyPage(scoped, after, n) == KeysOf(Window(all, i, n))
    decreases n
  {
    if n == 0 || i == |all| {
      assert Window(all, i, n) == [];
    } else {
      KeyPageFollows(scoped, all, KeyAt(all, i), i + 1, n - 1);
      KeyPageNext(scoped, all, after, i, n);
    }
  }

  /** The keys read are those of the next `n` rows of the history. */
  lemma KeyPageIsWindow(rows: seq<Snapshot>, scope: Scope, all: seq<Snapshot>, after: Option<Key>, i: nat, n: nat)
    requires UniqueIds(rows) && IsHistory(rows, scope, all) && i <= |all| && Rest(all, TimeThenLot, after) == all[i..]
    ensures KeyPage(Scoped(rows, scope), after, n) == KeysOf(Window(all, i, n))
  {
    TopKeyOfHistory(rows, scope, all, after, i);
    forall j: nat | j < |all| ensures TopKey(Scoped(rows, scope), KeyAt(all, j)) == KeyAt(all, j + 1) {
      HistoryDescends(rows, scope, all);
      RestAfterRow(all, TimeThenLot, j);
      TopKeyOfHistory(rows, scope, all, KeyAt(all, j), j + 1);
    }
    KeyPageFollows(Scoped(rows, scope), all, after, i, n);
  }

  lemma JoinNext(rows: seq<Snapshot>, s: Snapshot, keys: seq<Key>, maxId: int)
    requires Latest(rows, TimeThenLot(s), maxId) == Some(s)
    ensures JoinLatest(rows, [TimeThenLot(s)] + keys, maxId) == [s] + JoinLatest(rows, keys, maxId)
  {
    assert ([TimeThenLot(s)] + keys)[1..] == keys;
  }

  /** Joining the keys of preferred rows gives those rows back. */
  lemma {:induction false} JoinOfKeys(rows: seq<Snapshot>, scope: Scope, some: seq<Snapshot>)
    requires UniqueIds(rows) && forall s :: s in some ==> Winner(Scoped(rows, scope), s)
    ensures JoinLatest(rows, KeysOf(some), scope.maxId) == some
  {
    if some != [] {
      LatestIsWinner(rows, scope, some[0]);
      JoinOfKeys(rows, scope, some[1..]);
      JoinNext(rows, some[0], KeysOf(some[1..]), scope.maxId);
    }
  }

  lemma CutOfWindow<T>(all: seq<T>, i: nat, limit: nat)
    requires i <= |all|
    ensures Cut(Window(all, i, limit + 1), limit) == Cut(all[i..], limit)
  {
    assert |all| - i > limit ==> Window(all, i, limit + 1)[..limit] == all[i..][..limit];
  }

  /** The rows read are the next `n` of the history. */
  lemma ReadIsWindow(rows: seq<Snapshot>, scope: Scope, all: seq<Snapshot>, after: Option<Key>, i: nat, n: nat,
      keys: seq<Key>)
    requires UniqueIds(rows) && IsHistory(rows, scope, all) && i <= |all| && Rest(all, TimeThenLot, after) == all[i..]
    requires keys == KeyPage(Scoped(rows, scope), after, n)
    ensures JoinLatest(rows, keys, scope.maxId) == Window(all, i, n)
  {
    KeyPageIsWindow(rows, scope, all, after, i, n);
    forall s | s in Window(all, i, n) ensures Winner(Scoped(rows, scope), s) {
      assert s in all;
    }
    JoinOfKeys(rows, scope, Window(all, i, n));
  }

  /** The PostgreSQL form returns the page of the history. */
  lemma PostgresPageIsExact(rows: seq<Snapshot>, scope: Scope, all: seq<Snapshot>, after: Option<Key>, limit: nat)
    requires UniqueIds(rows) && IsHistory(rows, scope, all)
    ensures PostgresPage(rows, scope, after, limit) == PageOf(all, TimeThenLot, after, limit)
  {
    var i := RestIsSuffix(all, TimeThenLot, after);
    ReadIsWindow(rows, scope, all, after, i, limit + 1, KeyPage(Scoped(rows, scope), after, limit + 1));
    CutOfWindow(all, i, limit);
  }

  // ----- the history -----

  lemma {:induction false} SelectionExists(rows: seq<Snapshot>)
    returns (order: seq<LotTime>, selected: map<LotTime, Snapshot>)
    requires UniqueIds(rows)
    ensures Selects(rows, order, selected)
  {
    if rows == [] {
      order, selected := [], map[];
    } else {
      var front, last := rows[..|rows| - 1], rows[|rows| - 1];
      SplitLast(rows);
      order, selected := SelectionExists(front);
      ChooseSelects(front, last, order, selected);
      order := if KeyOf(last) in selected then order else order + [KeyOf(last)];
      selected := Choose(selected, last);
    }
  }

  lemma ReversedHistory(rows: seq<Snapshot>, scope: Scope, out: seq<Snapshot>)
    requires Deduplicated(Scoped(rows, scope), out)
    ensures IsHistory(rows, scope, Reversed(out))
  {
    forall s ensures s in Reversed(out) <==> s in out {
      SameMember(out, Reversed(out), s);
    }
  }

  lemma HistoryExists(rows: seq<Snapshot>, scope: Scope)
    requires UniqueIds(rows)
    ensures exists all :: IsHistory(rows, scope, all)
  {
    var scoped := Scoped(rows, scope);
    ScopedUnique(rows, scope);
    var order, selected := SelectionExists(scoped);
    SortedWinners(scoped, order, selected);
    ReversedHistory(rows, scope, StableSort(Values(order, selected), TimeThenLot));
  }

  ghost function History(rows: seq<Snapshot>, scope: Scope): (all: seq<Snapshot>)
    requires UniqueIds(rows)
    ensures IsHistory(rows, scope, all)
  {
    HistoryExists(rows, scope);
    var all :| IsHistory(rows, scope, all);
    all
  }

  lemma HistoryIsUnique(rows: seq<Snapshot>, scope: Scope, all: seq<Snapshot>)
    requires UniqueIds(rows) && IsHistory(rows, scope, all)
    ensures all == History(rows, scope)
  {
    DescendingIsUnique(all, History(rows, scope), TimeThenLot);
  }

  // ----- what a request asks for, in terms of the stored rows -----

  /** Rows since an instant, up to an id, of the lot of the request, or of its airport if it names no lot but 0. */
  ghost predicate AskedFor(s: Snapshot, since: int, maxId: int, filter: Filter, airportOf: int -> int) {
    && s.observedAt >= since && s.id <= maxId
    && (filter.lot.Some? && filter.lot.value != 0 ==> s.lot == filter.lot.value)
    && ((filter.lot.None? || filter.lot.value == 0) && filter.airport.Some? ==>
          airportOf(s.lot) == filter.airport.value)
  }

  /**
   Of all rows asked for with its lot and time, this one: live rows come before migrated ones, then the one collected
   last, then the one with the largest id.
   */
  ghost predicate Represents(
      rows: seq<Snapshot>, since: int, maxId: int, filter: Filter, airportOf: int -> int, s: Snapshot)
  {
    && s in rows && AskedFor(s, since, maxId, filter, airportOf)
    && forall q :: q in rows && AskedFor(q, since, maxId, filter, airportOf) && q.lot == s.lot
                   && q.observedAt == s.observedAt && q != s ==>
         || (q.migration && !s.migration)
         || (q.migration == s.migration && q.collectedAt < s.collectedAt)
         || (q.migration == s.migration && q.collectedAt == s.collectedAt && q.id < s.id)
  }

  /** These rows, latest first and, at one time, larger lots first. */
  ghost predicate IsFrozenHistory(
      rows: seq<Snapshot>, since: int, maxId: int, filter: Filter, airportOf: int -> int, all: seq<Snapshot>)
  {
    && (forall s :: s in all <==> Represents(rows, since, maxId, filter, airportOf, s))
    && (forall i, j :: 0 <= i < j < |all| ==>
          || all[i].observedAt > all[j].observedAt
          || (all[i].observedAt == all[j].observedAt && all[i].lot > all[j].lot))
  }

  lemma ScopedIsAskedFor(rows: seq<Snapshot>, scope: Scope, filter: Filter, airportOf: int -> int, s: Snapshot)
    requires scope.lots == LotsOf(filter, airportOf)
    ensures s in Scoped(rows, scope) <==> s in rows && AskedFor(s, scope.cutoff, scope.maxId, filter, airportOf)
  {
    SelectMember(rows, InScope(scope), s);
  }

  lemma HistoryIsFrozen(rows: seq<Snapshot>, scope: Scope, filter: Filter, airportOf: int -> int, all: seq<Snapshot>)
    requires IsHistory(rows, scope, all) && scope.lots == LotsOf(filter, airportOf)
    ensures IsFrozenHistory(rows, scope.cutoff, scope.maxId, filter, airportOf, all)
  {
    forall s ensures s in Scoped(rows, scope)
                     <==> s in rows && AskedFor(s, scope.cutoff, scope.maxId, filter, airportOf) {
      ScopedIsAskedFor(rows, scope, filter, airportOf, s);
    }
  }

  /** The largest row id, or 0 without one. */
  ghost predicate IsLargestId(rows: seq<Snapshot>, m: int) {
    && (forall r :: r in rows ==> r.id <= m)
    && (m == 0 || exists r :: r in rows && r.id == m)
  }

  // ----- one request -----

  /** The signed fields of a cursor. */
  datatype Cursor = Cursor(cutoff: int, at: Key, filter: Filter, days: int, maxId: int)

  datatype HistoryError = InvalidCursor | CursorWithoutLimit

  /** The checks on a decoded cursor. */
  predicate Accepted(cursor: Cursor, now: int, filter: Filter, days: int) {
    && cursor.at.minor > 0 && cursor.maxId > 0 && cursor.filter == filter && cursor.days == days
    && !(cursor.cutoff < now - (days + 1) * DAY || cursor.cutoff > now || cursor.at.major < cursor.cutoff)
  }

  /** `max(id)`, or 0 without rows. */
  function MaxId(rows: seq<Snapshot>): int {
    if rows == [] then 0
    else var m, id := MaxId(rows[..|rows| - 1]), rows[|rows| - 1].id; if id > m then id else m
  }

  function ScopeOf(rows: seq<Snapshot>, now: int, filter: Filter, days: int, cursor: Option<Cursor>,
      airportOf: int -> int): Scope {
    if cursor.Some? then Scope(cursor.value.cutoff, cursor.value.maxId, LotsOf(filter, airportOf))
    else Scope(now - days * DAY, MaxId(rows), LotsOf(filter, airportOf))
  }

  function AfterOf(cursor: Option<Cursor>): Option<Key> {
    if cursor.Some? then Some(cursor.value.at) else None
  }

  function NextCursor(page: Page<Snapshot>, scope: Scope, filter: Filter, days: int): Option<Cursor> {
    if page.more && page.rows != [] then
      Some(Cursor(scope.cutoff, TimeThenLot(page.rows[|page.rows| - 1]), filter, days, scope.maxId))
    else None
  }

  /** What a paged request answers when the table holds `rows`. */
  ghost function Served(
      rows: seq<Snapshot>, now: int, filter: Filter, days: int, limit: nat, cursor: Option<Cursor>,
      airportOf: int -> int): Result<Reply<Cursor, Snapshot>, HistoryError>
    requires UniqueIds(rows)
  {
    if cursor.Some? && !Accepted(cursor.value, now, filter, days) then Err(InvalidCursor)
    else
      var scope := ScopeOf(rows, now, filter, days, cursor, airportOf);
      var page := PageOf(History(rows, scope), TimeThenLot, AfterOf(cursor), limit);
      Ok(Reply(page.rows, NextCursor(page, scope, filter, days)))
  }

  /** Without a limit there is one answer, the whole history, earliest first. */
  ghost function Answered(
      rows: seq<Snapshot>, now: int, filter: Filter, days: int, limit: Option<nat>, cursor: Option<Cursor>,
      airportOf: int -> int): Result<Reply<Cursor, Snapshot>, HistoryError>
    requires UniqueIds(rows)
  {
    if limit.Some? then Served(rows, now, filter, days, limit.value, cursor, airportOf)
    else if cursor.Some? then Err(CursorWithoutLimit)
    else Ok(Reply(Reversed(History(rows, ScopeOf(rows, now, filter, days, None, airportOf))), None))
  }

  // The unpaged form has no id bound; the largest id bounds nothing.

  function Unbounded(cutoff: int, lots: int -> bool): Snapshot -> bool {
    (s: Snapshot) => s.observedAt >= cutoff && lots(s.lot)
  }

  lemma {:induction false} MaxIdIsLargest(rows: seq<Snapshot>, s: Snapshot)
    requires s in rows
    ensures s.id <= MaxId(rows)
  {
    if s != rows[|rows| - 1] {
      MaxIdIsLargest(rows[..|rows| - 1], s);
    }
  }

  lemma {:induction false} MaxIdIsStored(rows: seq<Snapshot>)
    ensures IsLargestId(rows, MaxId(rows))
  {
    if rows != [] {
      var front, last := rows[..|rows| - 1], rows[|rows| - 1];
      MaxIdIsStored(front);
      SplitLast(rows);
      assert MaxId(rows) == if last.id > MaxId(front) then last.id else MaxId(front);
      assert last in rows;
    }
  }

  lemma {:induction false} SameSelection<T>(xs: seq<T>, keep: T -> bool, other: T -> bool)
    requires forall x :: x in xs ==> keep(x) == other(x)
    ensures Select(xs, keep) == Select(xs, other)
  {
    if xs != [] {
      SameSelection(xs[..|xs| - 1], keep, other);
    }
  }

  lemma UnboundedIsScoped(rows: seq<Snapshot>, cutoff: int, lots: int -> bool)
    ensures Select(rows, Unbounded(cutoff, lots)) == Scoped(rows, Scope(cutoff, MaxId(rows), lots))
  {
    forall s | s in rows ensures s.id <= MaxId(rows) {
      MaxIdIsLargest(rows, s);
    }
    SameSelection(rows, Unbounded(cutoff, lots), InScope(Scope(cutoff, MaxId(rows), lots)));
  }

  lemma {:induction false} NoMoreThan<T>(xs: seq<T>, ys: seq<T>)
    requires forall i, j :: 0 <= i < j < |xs| ==> xs[i] != xs[j]
    requires forall x :: x in xs ==> x in ys
    ensures |xs| <= |ys|
    decreases |xs|
  {
    if xs != [] {
      assert xs[0] in ys;
      var j :| 0 <= j < |ys| && ys[j] == xs[0];
      var rest := ys[..j] + ys[j + 1..];
      forall x | x in xs[1..] ensures x in rest {
        assert x in xs && x in ys && x != xs[0];
        var k :| 0 <= k < |ys| && ys[k] == x;
        assert x == if k < j then rest[k] else rest[k - 1];
      }
      NoMoreThan(xs[1..], rest);
    }
  }

  lemma HistoryIsNoLonger(rows: seq<Snapshot>, scope: Scope, all: seq<Snapshot>)
    requires IsHistory(rows, scope, all)
    ensures |all| <= |Scoped(rows, scope)|
  {
    forall i, j | 0 <= i < j < |all| ensures all[i] != all[j] {
      assert Before(TimeThenLot(all[j]), TimeThenLot(all[i]));
    }
    NoMoreThan(all, Scoped(rows, scope));
  }

  /** `DISTINCT ON (observed_at, parking_lot_id)` by preference, ordered by its keys. */
  function DistinctRows(rows: seq<Snapshot>, selected: seq<Snapshot>): seq<Snapshot> {
    Reversed(JoinLatest(rows, KeyPage(selected, None, |selected|), MaxId(rows)))
  }

  lemma DistinctIsHistory(rows: seq<Snapshot>, scope: Scope, all: seq<Snapshot>)
    requires UniqueIds(rows) && IsHistory(rows, scope, all) && scope.maxId == MaxId(rows)
    ensures DistinctRows(rows, Scoped(rows, scope)) == Reversed(all)
  {
    RestAtStart(all, TimeThenLot);
    HistoryIsNoLonger(rows, scope, all);
    var keys := KeyPage(Scoped(rows, scope), None, |Scoped(rows, scope)|);
    assert all[0..] == all;
    ReadIsWindow(rows, scope, all, None, 0, |Scoped(rows, scope)|, keys);
  }

  // ----- an answer in terms of the stored rows -----

  /**
   The next `limit` rows below the cursor, and a cursor exactly if more are left: it has the last row returned, the
   filter and the days of the request, and the window start and the id bound that the walk keeps.
   */
  ghost predicate IsPage(
      rows: seq<Snapshot>, since: int, maxId: int, filter: Filter, days: int, airportOf: int -> int,
      after: Option<Key>, limit: nat, reply: Reply<Cursor, Snapshot>)
  {
    exists all: seq<Snapshot>, p: nat ::
      && IsFrozenHistory(rows, since, maxId, filter, airportOf, all) && StandsAt(all, after, p)
      && if |all| - p > limit then
           && reply.items == all[p..p + limit]
           && limit > 0 && var last := all[p + limit - 1];
              reply.next == Some(Cursor(since, Key(last.observedAt, last.lot), filter, days, maxId))
         else reply == Reply(all[p..], None)
  }

  /** All rows asked for, earliest first, and no cursor. */
  ghost predicate IsWhole(
      rows: seq<Snapshot>, since: int, maxId: int, filter: Filter, airportOf: int -> int,
      reply: Reply<Cursor, Snapshot>)
  {
    && reply.next.None?
    && exists all :: IsFrozenHistory(rows, since, maxId, filter, airportOf, all) && reply.items == Reversed(all)
  }

  /** Earlier than the cursor, or at its time with a smaller lot id; without a cursor any row is. */
  ghost predicate IsBelow(s: Snapshot, after: Option<Key>) {
    after.Some? ==>
      s.observedAt < after.value.major || (s.observedAt == after.value.major && s.lot < after.value.minor)
  }

  /** The rows below the cursor are those from `p` on. */
  ghost predicate StandsAt(all: seq<Snapshot>, after: Option<Key>, p: nat) {
    p <= |all| && forall i :: 0 <= i < |all| ==> (i >= p <==> IsBelow(all[i], after))
  }

  lemma RestStandsAt(all: seq<Snapshot>, after: Option<Key>) returns (p: nat)
    requires Descending(all, TimeThenLot)
    ensures StandsAt(all, after, p) && Rest(all, TimeThenLot, after) == all[p..]
  {
    p := RestIsSuffix(all, TimeThenLot, after);
    forall i | 0 <= i < |all| ensures i >= p <==> IsBelow(all[i], after) {
      SelectMember(all, BelowCursor(TimeThenLot, after), all[i]);
      InSuffixIff(all, TimeThenLot, p, i);
    }
  }

  lemma PageIsAnswer(rows: seq<Snapshot>, scope: Scope, filter: Filter, days: int, airportOf: int -> int,
      after: Option<Key>, limit: nat)
    requires UniqueIds(rows) && scope.lots == LotsOf(filter, airportOf) && limit >= 1
    ensures var page := PageOf(History(rows, scope), TimeThenLot, after, limit);
            IsPage(rows, scope.cutoff, scope.maxId, filter, days, airportOf, after, limit,
                   Reply(page.rows, NextCursor(page, scope, filter, days)))
  {
    var all := History(rows, scope);
    HistoryIsFrozen(rows, scope, filter, airportOf, all);
    HistoryDescends(rows, scope, all);
    var p := RestStandsAt(all, after);
    if |all| - p > limit {
      assert all[p..][..limit] == all[p..p + limit];
    }
  }

  /** Rows of the other database form: loaded, deduplicated, latest first. */
  method LoadedHistory(rows: seq<Snapshot>, scope: Scope, selected: seq<Snapshot>) returns (snapshots: seq<Snapshot>)
    requires UniqueIds(rows) && selected == Scoped(rows, scope)
    ensures snapshots == History(rows, scope)
  {
    ScopedUnique(rows, scope);
    snapshots := DeduplicateSnapshots(selected);
    ReversedHistory(rows, scope, snapshots);
    snapshots := Reversed(snapshots);
    HistoryIsUnique(rows, scope, snapshots);
  }

  /** The unpaged answer. */
  method UnpagedHistory(postgres: bool, rows: seq<Snapshot>, cutoff: int, lots: int -> bool)
      returns (items: seq<Snapshot>)
    requires UniqueIds(rows)
    ensures items == Reversed(History(rows, Scope(cutoff, MaxId(rows), lots)))
  {
    var selected := Select(rows, Unbounded(cutoff, lots));
    UnboundedIsScoped(rows, cutoff, lots);
    if postgres {
      DistinctIsHistory(rows, Scope(cutoff, MaxId(rows), lots), History(rows, Scope(cutoff, MaxId(rows), lots)));
      return DistinctRows(rows, selected);
    }
    var snapshots := LoadedHistory(rows, Scope(cutoff, MaxId(rows), lots), selected);
    return Reversed(snapshots);
  }

  /** One page. */
  method PagedHistory(postgres: bool, rows: seq<Snapshot>, scope: Scope, cursor: Option<Cursor>, limit: nat)
    returns (page: Page<Snapshot>)
    requires UniqueIds(rows)
    ensures page == PageOf(History(rows, scope), TimeThenLot, AfterOf(cursor), limit)
  {
    if postgres {
      PostgresPageIsExact(rows, scope, History(rows, scope), AfterOf(cursor), limit);
      return PostgresPage(rows, scope, AfterOf(cursor), limit);
    }
    var snapshots := LoadedHistory(rows, scope, Scoped(rows, scope));
    if cursor.Some? {
      snapshots := Rest(snapshots, TimeThenLot, AfterOf(cursor));
    } else {
      RestAtStart(snapshots, TimeThenLot);
    }
    return Cut(snapshots, limit);
  }

  /** The airport of the request is looked up, and no such airport is stored. */
  predicate UnknownAirport(filter: Filter, airports: set<int>) {
    (filter.lot.None? || filter.lot.value == 0) && filter.airport.Some? && filter.airport.value !in airports
  }

  lemma UnknownAirportIsEmpty(rows: seq<Snapshot>, scope: Scope, filter: Filter, airports: set<int>,
      airportOf: int -> int)
    requires UniqueIds(rows) && UnknownAirport(filter, airports) && scope.lots == LotsOf(filter, airportOf)
    requires forall s :: s in rows ==> airportOf(s.lot) in airports
    ensures History(rows, scope) == []
  {
    SelectNone(rows, InScope(scope));
    HistoryIsUnique(rows, scope, []);
  }

  /**
   An accepted request is answered from the rows: without a limit all of them, earliest first; with a cursor the page
   below it within the window and the ids the cursor names; else the first page of the window that ends now.
   */
  ghost predicate IsAnswer(
      rows: seq<Snapshot>, now: int, filter: Filter, days: int, limit: Option<nat>, cursor: Option<Cursor>,
      airportOf: int -> int, reply: Reply<Cursor, Snapshot>)
  {
    if limit.None? then
      exists m :: IsLargestId(rows, m) && IsWhole(rows, now - days * DAY, m, filter, airportOf, reply)
    else if cursor.None? then
      exists m ::
        && IsLargestId(rows, m)
        && IsPage(rows, now - days * DAY, m, filter, days, airportOf, None, limit.value, reply)
    else
      var c := cursor.value; IsPage(rows, c.cutoff, c.maxId, filter, days, airportOf, Some(c.at), limit.value, reply)
  }

  lemma HistoryIsWhole(rows: seq<Snapshot>, scope: Scope, filter: Filter, airportOf: int -> int)
    requires UniqueIds(rows) && scope.lots == LotsOf(filter, airportOf)
    ensures IsWhole(rows, scope.cutoff, scope.maxId, filter, airportOf, Reply(Reversed(History(rows, scope)), None))
  {
    HistoryIsFrozen(rows, scope, filter, airportOf, History(rows, scope));
  }

  lemma WholeAnswers(rows: seq<Snapshot>, now: int, filter: Filter, days: int, airportOf: int -> int, m: int,
      reply: Reply<Cursor, Snapshot>)
    requires IsLargestId(rows, m) && IsWhole(rows, now - days * DAY, m, filter, airportOf, reply)
    ensures IsAnswer(rows, now, filter, days, None, None, airportOf, reply)
  {
  }

  lemma FirstPageAnswers(rows: seq<Snapshot>, now: int, filter: Filter, days: int, limit: nat, airportOf: int -> int,
      m: int, reply: Reply<Cursor, Snapshot>)
    requires IsLargestId(rows, m)
             && IsPage(rows, now - days * DAY, m, filter, days, airportOf, None, limit, reply)
    ensures IsAnswer(rows, now, filter, days, Some(limit), None, airportOf, reply)
  {
  }

  lemma WholeIsAnswer(rows: seq<Snapshot>, now: int, filter: Filter, days: int, airportOf: int -> int)
    requires UniqueIds(rows)
    ensures var all := History(rows, Scope(now - days * DAY, MaxId(rows), LotsOf(filter, airportOf)));
            IsAnswer(rows, now, filter, days, None, None, airportOf, Reply(Reversed(all), None))
  {
    var scope := Scope(now - days * DAY, MaxId(rows), LotsOf(filter, airportOf));
    var reply: Reply<Cursor, Snapshot> := Reply(Reversed(History(rows, scope)), None);
    assert IsWhole(rows, now - days * DAY, MaxId(rows), filter, airportOf, reply) by {
      HistoryIsWhole(rows, scope, filter, airportOf);
    }
    assert IsAnswer(rows, now, filter, days, None, None, airportOf, reply) by {
      MaxIdIsStored(rows);
      WholeAnswers(rows, now, filter, days, airportOf, MaxId(rows), reply);
    }
  }

  lemma PagedIsAnswer(rows: seq<Snapshot>, now: int, filter: Filter, days: int, limit: nat, cursor: Option<Cursor>,
      airportOf: int -> int)
    requires UniqueIds(rows) && limit >= 1
    ensures var scope := ScopeOf(rows, now, filter, days, cursor, airportOf);
            var page := PageOf(History(rows, scope), TimeThenLot, AfterOf(cursor), limit);
            IsAnswer(rows, now, filter, days, Some(limit), cursor, airportOf,
                     Reply(page.rows, NextCursor(page, scope, filter, days)))
  {
    var scope := ScopeOf(rows, now, filter, days, cursor, airportOf);
    var page := PageOf(History(rows, scope), TimeThenLot, AfterOf(cursor), limit);
    var reply := Reply(page.rows, NextCursor(page, scope, filter, days));
    assert IsPage(rows, scope.cutoff, scope.maxId, filter, days, airportOf, AfterOf(cursor), limit, reply) by {
      PageIsAnswer(rows, scope, filter, days, airportOf, AfterOf(cursor), limit);
    }
    if cursor.None? {
      assert IsAnswer(rows, now, filter, days, Some(limit), None, airportOf, reply) by {
        MaxIdIsStored(rows);
        FirstPageAnswers(rows, now, filter, days, limit, airportOf, MaxId(rows), reply);
      }
    }
  }

  /**
   `parking_history`: both database forms give the same answer, paged or not. The early answer to an unknown airport is
   the one its filter gives; a cursor without a limit is an error before it is looked at.
   */
  method ParkingHistory(
      postgres: bool, rows: seq<Snapshot>, airports: set<int>, now: int, filter: Filter, days: int, limit: Option<nat>,
      cursor: Option<Cursor>, airportOf: int -> int)
    returns (result: Result<Reply<Cursor, Snapshot>, HistoryError>)
    requires UniqueIds(rows) && (limit.Some? ==> 1 <= limit.value <= 1000) && 1 <= days <= 30
    requires forall s :: s in rows ==> airportOf(s.lot) in airports
    ensures result == Answered(rows, now, filter, days, limit, cursor, airportOf)
    ensures result == Err(CursorWithoutLimit) <==> cursor.Some? && limit.None?
    ensures result == Err(InvalidCursor) <==>
              cursor.Some? && limit.Some? && var c := cursor.value;
              || c.filter != filter || c.days != days || c.maxId <= 0 || c.at.minor <= 0
              || c.cutoff < now - days * DAY - DAY || c.cutoff > now || c.at.major < c.cutoff
    ensures result.Ok? ==> IsAnswer(rows, now, filter, days, limit, cursor, airportOf, result.value)
    ensures UnknownAirport(filter, airports) && result.Ok? ==> result.value == Reply([], None)
  {
    if cursor.Some? && limit.None? {
      return Err(CursorWithoutLimit);
    }
    if cursor.Some? && !Accepted(cursor.value, now, filter, days) {
      return Err(InvalidCursor);
    }
    var scope := ScopeOf(rows, now, filter, days, cursor, airportOf);
    if UnknownAirport(filter, airports) {
      UnknownAirportIsEmpty(rows, scope, filter, airports, airportOf);
      if limit.Some? || !postgres {
        if limit.Some? {
          PagedIsAnswer(rows, now, filter, days, limit.value, cursor, airportOf);
        } else {
          WholeIsAnswer(rows, now, filter, days, airportOf);
        }
        return Ok(Reply([], None));
      }
    }
    if limit.None? {
      WholeIsAnswer(rows, now, filter, days, airportOf);
      var items := UnpagedHistory(postgres, rows, scope.cutoff, scope.lots);
      return Ok(Reply(items, None));
    }
    PagedIsAnswer(rows, now, filter, days, limit.value, cursor, airportOf);
    var page := PagedHistory(postgres, rows, scope, cursor, limit.value);
    return Ok(Reply(page.rows, NextCursor(page, scope, filter, days)));
  }

  // ----- a walk -----

  /** Each request of a walk meets its own table, clock and limit; the filter and the days stay. */
  datatype Walk = Walk(
    table: nat -> seq<Snapshot>, time: nat -> int, limit: nat -> nat, filter: Filter, days: int, airportOf: int -> int)

  ghost predicate ValidWalk(w: Walk) {
    && 1 <= w.days <= 30
    && (forall i :: 1 <= w.limit(i) <= 1000)
    && (forall i :: UniqueIds(w.table(i)))
    && (forall i, s :: s in w.table(i) ==> s.id > 0 && s.lot > 0)
  }

  /** The answer to request `i` of the walk. */
  ghost function Answer(w: Walk, i: nat, cursor: Option<Cursor>): Result<Reply<Cursor, Snapshot>, HistoryError>
    requires ValidWalk(w)
  {
    Served(w.table(i), w.time(i), w.filter, w.days, w.limit(i), cursor, w.airportOf)
  }

  ghost function Answers(w: Walk): (nat, Option<Cursor>) -> Result<Reply<Cursor, Snapshot>, HistoryError>
    requires ValidWalk(w)
  {
    (i: nat, cursor) => Answer(w, i, cursor)
  }

  /** Rows with an id up to one of the first request's rows stay; rows above all of them may come and go. */
  ghost predicate FrozenBelow(w: Walk) {
    forall i, s: Snapshot, q :: q in w.table(0) && s.id <= q.id ==> (s in w.table(i) <==> s in w.table(0))
  }

  ghost function FirstScope(w: Walk): Scope {
    ScopeOf(w.table(0), w.time(0), w.filter, w.days, None, w.airportOf)
  }

  /** Every request comes at most a day after the first, and not before it. */
  ghost predicate InTime(w: Walk) {
    forall i :: w.time(0) <= w.time(i) <= w.time(0) + DAY
  }

  /** The cursor handed out after the first `p` rows; before the first request there is none. */
  ghost predicate CursorAt(w: Walk, all: seq<Snapshot>, i: nat, cursor: Option<Cursor>, p: nat) {
    if cursor.None? then i == 0 && p == 0
    else
      && 0 < p <= |all|
      && cursor.value == Cursor(FirstScope(w).cutoff, TimeThenLot(all[p - 1]), w.filter, w.days, FirstScope(w).maxId)
  }

  /** Rows above the frozen id change nothing in scope. */
  lemma SameHistory(w: Walk, i: nat)
    requires ValidWalk(w) && FrozenBelow(w)
    ensures History(w.table(i), FirstScope(w)) == History(w.table(0), FirstScope(w))
  {
    var scope := FirstScope(w);
    var first, now := Scoped(w.table(0), scope), Scoped(w.table(i), scope);
    MaxIdIsStored(w.table(0));
    forall s ensures s in first <==> s in now {
      SelectMember(w.table(0), InScope(scope), s);
      SelectMember(w.table(i), InScope(scope), s);
      if s.id <= MaxId(w.table(0)) && MaxId(w.table(0)) != 0 {
        var q :| q in w.table(0) && q.id == MaxId(w.table(0));
      }
    }
    SameWinners(first, now);
    HistoryIsUnique(w.table(0), scope, History(w.table(i), scope));
  }

  lemma SameWinners(first: seq<Snapshot>, now: seq<Snapshot>)
    requires forall s :: s in first <==> s in now
    ensures forall s :: Winner(first, s) <==> Winner(now, s)
  {
  }

  /** A cursor of the walk is accepted and leads back to the frozen scope. */
  lemma CursorIsAccepted(w: Walk, all: seq<Snapshot>, i: nat, cursor: Option<Cursor>, p: nat)
    requires ValidWalk(w) && InTime(w) && all == History(w.table(0), FirstScope(w)) && CursorAt(w, all, i, cursor, p)
    ensures cursor.Some? ==> Accepted(cursor.value, w.time(i), w.filter, w.days)
    ensures ScopeOf(w.table(i), w.time(i), w.filter, w.days, cursor, w.airportOf) == FirstScope(w)
    ensures Rest(all, TimeThenLot, AfterOf(cursor)) == all[p..]
  {
    if cursor.None? {
      RestAtStart(all, TimeThenLot);
    } else {
      var s := all[p - 1];
      assert s in all;
      SelectMember(w.table(0), InScope(FirstScope(w)), s);
      RestAfterRow(all, TimeThenLot, p - 1);
    }
  }

  ghost function Positions(w: Walk, all: seq<Snapshot>): (nat, Option<Cursor>, nat) -> bool {
    (i: nat, cursor, p: nat) => CursorAt(w, all, i, cursor, p)
  }

  /** Each answer is the next stretch of the history, with a cursor exactly when rows are left. */
  lemma AnswerIsNextStretch(w: Walk, all: seq<Snapshot>, i: nat, cursor: Option<Cursor>, p: nat)
    requires ValidWalk(w) && InTime(w) && FrozenBelow(w) && all == History(w.table(0), FirstScope(w))
    requires p <= |all| && CursorAt(w, all, i, cursor, p)
    ensures NextStretch(Answer(w, i, cursor), all, Positions(w, all), i, p)
  {
    CursorIsAccepted(w, all, i, cursor, p);
    SameHistory(w, i);
    var q := p + w.limit(i);
    assert q < |all| ==> all[p..][..w.limit(i)] == all[p..q];
  }

  /**
   A walk within a day of its first request, whatever rows with larger ids come and go: the pages in order are exactly
   the rows preferred at the first request, strictly descending by (observed_at, lot), none skipped or repeated.
   */
  lemma WalkIsExact(w: Walk, n: nat)
    requires ValidWalk(w) && InTime(w) && FrozenBelow(w)
    ensures var all, walked := History(w.table(0), FirstScope(w)), Pages(Answers(w), 0, None, n);
            && (exists m :: IsLargestId(w.table(0), m)
                  && IsFrozenHistory(w.table(0), w.time(0) - w.days * DAY, m, w.filter, w.airportOf, all))
            && walked.end != Rejected && walked.items <= all
            && (walked.end == Done ==> walked.items == all)
            && (n > |all| ==> walked.end == Done)
  {
    var all, at := History(w.table(0), FirstScope(w)), Positions(w, History(w.table(0), FirstScope(w)));
    forall j: nat, c, q: nat | q <= |all| && at(j, c, q) ensures NextStretch(Answers(w)(j, c), all, at, j, q) {
      AnswerIsNextStretch(w, all, j, c, q);
    }
    PagesAreConsecutive(Answers(w), all, at, 0, None, 0, n);
    assert all[0..] == all;
    HistoryIsFrozen(w.table(0), FirstScope(w), w.filter, w.airportOf, all);
    MaxIdIsStored(w.table(0));
  }

  /** A cursor of the first page works exactly from the first request's window start until a day after it. */
  lemma CursorExpiresAfterADay(
      rows: seq<Snapshot>, first: int, filter: Filter, days: int, limit: nat, airportOf: int -> int, now: int)
    requires UniqueIds(rows) && 1 <= limit && 1 <= days && forall s :: s in rows ==> s.id > 0 && s.lot > 0
    requires var answer := Served(rows, first, filter, days, limit, None, airportOf); answer.value.next.Some?
    ensures var cursor := Served(rows, first, filter, days, limit, None, airportOf).value.next.value;
            Accepted(cursor, now, filter, days) <==> first - days * DAY <= now <= first + DAY
  {
    var scope := ScopeOf(rows, first, filter, days, None, airportOf);
    var all := History(rows, scope);
    RestAtStart(all, TimeThenLot);
    assert all[limit - 1] in all;
    SelectMember(rows, InScope(scope), all[limit - 1]);
  }
}
