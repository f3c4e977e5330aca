/**
 The price history of one fuel station in pages. A cursor pins the window, the time of the first request and the
 revision of the collection state, and continues below the last (observed_at, id); rows may be inserted meanwhile,
 also between rows already read.
 */
module PriceHistory {
  import opened Common
  import opened TimeUtils
  import opened Sorting
  import opened Keyset

  type StationId = int
  type StationKey = int
  type Product = int
  type CursorScope = int

  const CURSOR_TTL: int := 15 * MINUTE

  datatype PriceRow = PriceRow(id: int, station: StationId, product: Product, observedAt: int, price: Option<int>)

  /** `_revision` of a collection state with a success; the digest is taken as injective. */
  datatype Revision = Revision(lastSuccess: int, failed: bool, updatedAt: int)

  /** One repeatable-read view: the station's id, the state's revision (None before the first success), the prices. */
  datatype Database = Database(station: Option<StationId>, revision: Option<Revision>, rows: seq<PriceRow>)

  datatype Request = Request(
    station: StationKey, product: Option<Product>, from: Option<int>, to: Option<int>,
    defaultDays: int, maxWindow: int, scope: Option<CursorScope>)

  /** The pinned window, and the time of the first request. */
  datatype Span = Span(start: int, end: int, issued: int)

  /** The signed fields of a cursor. */
  datatype Cursor = Cursor(
    station: StationKey, product: Option<Product>, scope: Option<CursorScope>, revision: Revision, span: Span, at: Key)

  /** The HTTP status of the error. */
  datatype HistoryError = NotFound404 | Unavailable503 | Conflict409 | Unprocessable422

  function KeyOf(row: PriceRow): Key {
    Key(row.observedAt, row.id)
  }

  // ----- the window -----

  datatype Window = Window(station: StationId, product: Option<Product>, start: int, end: int)

  predicate Selected(row: PriceRow, window: Window) {
    && row.station == window.station && window.start <= row.observedAt <= window.end
    && (window.product.Some? ==> row.product == window.product.value)
  }

  function Selection(window: Window): PriceRow -> bool {
    row => Selected(row, window)
  }

  /** The rows of the window, latest first. */
  function WindowRows(rows: seq<PriceRow>, window: Window): seq<PriceRow> {
    Reversed(StableSort(Select(rows, Selection(window)), KeyOf))
  }

  ghost predicate UniqueIds(rows: seq<PriceRow>) {
    forall i, j :: 0 <= i < j < |rows| ==> rows[i].id != rows[j].id
  }

  lemma WindowMember(rows: seq<PriceRow>, window: Window, row: PriceRow)
    ensures row in WindowRows(rows, window) <==> row in rows && Selected(row, window)
  {
    var selected := Select(rows, Selection(window));
    StableSortSorts(selected, KeyOf);
    SameMember(StableSort(selected, KeyOf), Reversed(StableSort(selected, KeyOf)), row);
    SameMember(selected, StableSort(selected, KeyOf), row);
    SelectMember(rows, Selection(window), row);
  }

  lemma {:induction false} SelectDistinct(rows: seq<PriceRow>, keep: PriceRow -> bool)
    requires UniqueIds(rows)
    ensures UniqueIds(Select(rows, keep))
  {
    if rows != [] {
      var front, last := rows[..|rows| - 1], rows[|rows| - 1];
      SplitLast(rows);
      SelectDistinct(front, keep);
      forall row | row in Select(front, keep) ensures row.id != last.id {
        SelectMember(front, keep, row);
      }
    }
  }

  lemma WindowDescends(rows: seq<PriceRow>, window: Window)
    requires UniqueIds(rows)
    ensures Descending(WindowRows(rows, window), KeyOf)
  {
    var selected := Select(rows, Selection(window));
    SelectDistinct(rows, Selection(window));
    forall i, j | 0 <= i < j < |selected| ensures KeyOf(selected[i]) != KeyOf(selected[j]) {
      assert selected[i].id != selected[j].id;
    }
    var sorted := StableSort(selected, KeyOf);
    StrictlySorted(selected, KeyOf, sorted);
    ReversedDescends(sorted, KeyOf);
  }

  // ----- the window in terms of the stored rows -----

  /** The prices of the station within the window, of the product if one is named. */
  ghost predicate IsOf(row: PriceRow, window: Window) {
    && row.station == window.station && row.observedAt >= window.start && row.observedAt <= window.end
    && (window.product == None || window.product == Some(row.product))
  }

  /** Later rows first and, at one time, larger ids first. */
  ghost predicate LatestFirst(items: seq<PriceRow>) {
    forall i, j :: 0 <= i < j < |items| ==>
      || items[i].observedAt > items[j].observedAt
      || (items[i].observedAt == items[j].observedAt && items[i].id > items[j].id)
  }

  /** Earlier than the cursor, or at its time with a smaller id. */
  ghost predicate IsBelow(row: PriceRow, after: Option<Key>) {
    after.Some? ==>
      row.observedAt < after.value.major || (row.observedAt == after.value.major && row.id < after.value.minor)
  }

  ghost predicate IsWindow(rows: seq<PriceRow>, window: Window, all: seq<PriceRow>) {
    LatestFirst(all) && forall row :: row in all <==> row in rows && IsOf(row, window)
  }

  lemma WindowRowsAreWindow(rows: seq<PriceRow>, window: Window)
    requires UniqueIds(rows)
    ensures IsWindow(rows, window, WindowRows(rows, window))
  {
    WindowDescends(rows, window);
    forall row ensures row in WindowRows(rows, window) <==> row in rows && IsOf(row, window) {
      WindowMember(rows, window, row);
    }
  }

  /** The rows below the cursor are those from `p` on. */
  ghost predicate StandsAt(all: seq<PriceRow>, after: Option<Key>, p: nat) {
    p <= |all| && forall i :: 0 <= i < |all| ==> (i >= p <==> IsBelow(all[i], after))
  }

  lemma RestStandsAt(all: seq<PriceRow>, after: Option<Key>) returns (p: nat)
    requires Descending(all, KeyOf)
    ensures StandsAt(all, after, p) && Rest(all, KeyOf, after) == all[p..]
  {
    p := RestIsSuffix(all, KeyOf, after);
    forall i | 0 <= i < |all| ensures i >= p <==> IsBelow(all[i], after) {
      SelectMember(all, BelowCursor(KeyOf, after), all[i]);
      InSuffixIff(all, KeyOf, p, i);
    }
  }

  /** The next `limit` rows below the cursor; more are left exactly if `more` says so. */
  ghost predicate IsPageOf(
      rows: seq<PriceRow>, window: Window, after: Option<Key>, limit: nat, items: seq<PriceRow>, more: bool)
  {
    exists all, p: nat ::
      && IsWindow(rows, window, all) && StandsAt(all, after, p)
      && (more <==> |all| - p > limit)
      && items == if more then all[p..p + limit] else all[p..]
  }

  lemma StretchIsPageOf(rows: seq<PriceRow>, window: Window, after: Option<Key>, limit: nat, all: seq<PriceRow>, p: nat)
    requires IsWindow(rows, window, all) && StandsAt(all, after, p)
    ensures var page := Cut(all[p..], limit); IsPageOf(rows, window, after, limit, page.rows, page.more)
  {
    if |all| - p > limit {
      assert all[p..][..limit] == all[p..p + limit];
    }
  }

  lemma PageIsPageOf(rows: seq<PriceRow>, window: Window, after: Option<Key>, limit: nat)
    requires UniqueIds(rows)
    ensures var page := PageOf(WindowRows(rows, window), KeyOf, after, limit);
            IsPageOf(rows, window, after, limit, page.rows, page.more)
  {
    WindowDescends(rows, window);
    var p := RestStandsAt(WindowRows(rows, window), after);
    WindowRowsAreWindow(rows, window);
    StretchIsPageOf(rows, window, after, limit, WindowRows(rows, window), p);
  }

  // ----- one request -----

  predicate Differs(given: Option<int>, pinned: int) {
    given.Some? && given.value != pinned
  }

  /** The checks on a cursor, in their order. */
  function CursorError(cursor: Cursor, request: Request, revision: Revision, now: int): Option<HistoryError> {
    if cursor.station != request.station || cursor.product != request.product || cursor.scope != request.scope then
      Some(Unprocessable422)
    else if cursor.revision != revision then Some(Conflict409)
    else if now - cursor.span.issued > CURSOR_TTL || cursor.span.issued > now then Some(Conflict409)
    else if Differs(request.from, cursor.span.start) || Differs(request.to, cursor.span.end) then Some(Unprocessable422)
    else if cursor.at.minor < 1 then Some(Unprocessable422)
    else None
  }

  function SpanOf(request: Request, cursor: Option<Cursor>, now: int): Span {
    if cursor.Some? then cursor.value.span
    else
      var end := if request.to.Some? then request.to.value else now;
      Span(if request.from.Some? then request.from.value else end - request.defaultDays * DAY, end, now)
  }

  predicate SpanAllowed(span: Span, request: Request, now: int) {
    && span.start <= span.end <= now && span.end - span.start <= request.maxWindow
    && (request.scope.Some? ==> span.end == span.issued && span.start == span.issued - request.defaultDays * DAY)
  }

  /** The window a request reads, or why it has none. */
  function Resolved(request: Request, revision: Revision, cursor: Option<Cursor>,
      now: int): Result<Span, HistoryError> {
    var error := if cursor.None? then None else CursorError(cursor.value, request, revision, now);
    var span := SpanOf(request, cursor, now);
    if error.Some? then Err(error.value)
    else if SpanAllowed(span, request, now) then Ok(span)
    else Err(Unprocessable422)
  }

  function AfterOf(cursor: Option<Cursor>): Option<Key> {
    if cursor.Some? then Some(cursor.value.at) else None
  }

  function WindowOf(station: StationId, request: Request, span: Span): Window {
    Window(station, request.product, span.start, span.end)
  }

  function NextCursor(page: Page<PriceRow>, request: Request, revision: Revision, span: Span): Option<Cursor> {
    if page.more && page.rows != [] then
      Some(Cursor(request.station, request.product, request.scope, revision, span, KeyOf(page.rows[|page.rows| - 1])))
    else None
  }

  function Served(db: Database, now: int, request: Request, limit: nat, cursor: Option<Cursor>)
    : Result<Reply<Cursor, PriceRow>, HistoryError>
  {
    if db.station.None? then Err(NotFound404)
    else if db.revision.None? then Err(Unavailable503)
    else
      var span := Resolved(request, db.revision.value, cursor, now);
      if span.Err? then Err(span.error)
      else
        var window := WindowOf(db.station.value, request, span.value);
        var page := PageOf(WindowRows(db.rows, window), KeyOf, AfterOf(cursor), limit);
        Ok(Reply(page.rows, NextCursor(page, request, db.revision.value, span.value)))
  }

  /** The filters of the cursor are those of the request. */
  ghost predicate SameFilters(cursor: Cursor, request: Request) {
    cursor.station == request.station && cursor.product == request.product && cursor.scope == request.scope
  }

  /** A cursor of the same revision that is at most 15 minutes old. */
  ghost predicate IsAlive(cursor: Cursor, revision: Revision, now: int) {
    cursor.revision == revision && 0 <= now - cursor.span.issued <= 15 * MINUTE
  }

  /**
   The window of a request: of its cursor, if it names no other one, else the one it names or the default days up to
   now; not backwards, not in the future and not too wide, and for a scoped cursor the default days up to its issue.
   */
  ghost predicate IsSpan(span: Span, request: Request, cursor: Option<Cursor>, now: int) {
    && (cursor.Some? ==>
          && span == cursor.value.span && cursor.value.at.minor >= 1
          && request.from in {None, Some(span.start)} && request.to in {None, Some(span.end)})
    && (cursor.None? ==>
          && span.issued == now
          && (if request.to.Some? then span.end == request.to.value else span.end == now)
          && (if request.from.Some? then span.start == request.from.value
              else span.start == span.end - request.defaultDays * DAY))
    && span.start <= span.end <= now && span.end - span.start <= request.maxWindow
    && (request.scope.Some? ==> span.end == span.issued && span.end - span.start == request.defaultDays * DAY)
  }

  /** The part of the request that pins the window. */
  method PinWindow(request: Request, revision: Revision, cursor: Option<Cursor>, now: int)
    returns (result: Result<Span, HistoryError>)
    ensures result == Resolved(request, revision, cursor, now)
    ensures result == Err(Conflict409) <==>
              cursor.Some? && SameFilters(cursor.value, request) && !IsAlive(cursor.value, revision, now)
    ensures result.Ok? <==>
              && (cursor.Some? ==> SameFilters(cursor.value, request) && IsAlive(cursor.value, revision, now))
              && exists span :: IsSpan(span, request, cursor, now)
    ensures result.Ok? ==> IsSpan(result.value, request, cursor, now)
    ensures result.Err? ==> result.error in {Conflict409, Unprocessable422}
  {
    var start, end, issued;
    if cursor.Some? {
      var saved := cursor.value;
      if saved.station != request.station || saved.product != request.product || saved.scope != request.scope {
        return Err(Unprocessable422);
      }
      if saved.revision != revision {
        return Err(Conflict409);
      }
      issued := saved.span.issued;
      if now - issued > CURSOR_TTL || issued > now {
        return Err(Conflict409);
      }
      start, end := saved.span.start, saved.span.end;
      if (request.from.Some? && request.from.value != start) || (request.to.Some? && request.to.value != end) {
        return Err(Unprocessable422);
      }
      if saved.at.minor < 1 {
        return Err(Unprocessable422);
      }
    } else {
      end := if request.to.Some? then request.to.value else now;
      start := if request.from.Some? then request.from.value else end - request.defaultDays * DAY;
      issued := now;
    }
    if end < start || end - start > request.maxWindow || end > now {
      return Err(Unprocessable422);
    }
    if request.scope.Some? && (end != issued || start != issued - request.defaultDays * DAY) {
      return Err(Unprocessable422);
    }
    assert IsSpan(Span(start, end, issued), request, cursor, now);
    return Ok(Span(start, end, issued));
  }

  /** The next page of the window below the cursor, with a cursor at its last row exactly if rows are left. */
  ghost predicate IsAnswer(
      db: Database, now: int, request: Request, limit: nat, cursor: Option<Cursor>, reply: Reply<Cursor, PriceRow>)
  {
    && db.station.Some? && db.revision.Some?
    && exists span ::
         && IsSpan(span, request, cursor, now)
         && IsPageOf(db.rows, Window(db.station.value, request.product, span.start, span.end),
                     if cursor.Some? then Some(cursor.value.at) else None, limit, reply.items, reply.next.Some?)
         && (reply.next.Some? ==>
               && reply.items != []
               && var last := reply.items[|reply.items| - 1];
                  reply.next.value == Cursor(request.station, request.product, request.scope, db.revision.value, span,
                                             Key(last.observedAt, last.id)))
  }

  lemma PageIsAnswer(db: Database, now: int, request: Request, limit: nat, cursor: Option<Cursor>, span: Span,
      page: Page<PriceRow>)
    requires db.station.Some? && db.revision.Some? && limit >= 1 && IsSpan(span, request, cursor, now)
    requires page.more ==> |page.rows| == limit
    requires IsPageOf(db.rows, WindowOf(db.station.value, request, span), AfterOf(cursor), limit, page.rows, page.more)
    ensures IsAnswer(db, now, request, limit, cursor,
                     Reply(page.rows, NextCursor(page, request, db.revision.value, span)))
  {
  }

  /** `read_price_history_page`. */
  method ReadPriceHistoryPage(db: Database, now: int, request: Request, limit: nat, cursor: Option<Cursor>)
    returns (result: Result<Reply<Cursor, PriceRow>, HistoryError>)
    requires limit >= 1
    ensures result == Served(db, now, request, limit, cursor)
    ensures result == Err(NotFound404) <==> db.station.None?
    ensures result == Err(Unavailable503) <==> db.station.Some? && db.revision.None?
    ensures result.Ok? && UniqueIds(db.rows) ==> IsAnswer(db, now, request, limit, cursor, result.value)
  {
    if db.station.None? {
      return Err(NotFound404);
    }
    if db.revision.None? {
      return Err(Unavailable503);
    }
    var span := PinWindow(request, db.revision.value, cursor, now);
    if span.Err? {
      return Err(span.error);
    }
    var window := WindowOf(db.station.value, request, span.value);
    var rows := Rest(WindowRows(db.rows, window), KeyOf, AfterOf(cursor));
    var page := Cut(rows, limit);
    if UniqueIds(db.rows) {
      PageIsPageOf(db.rows, window, AfterOf(cursor), limit);
      PageIsAnswer(db, now, request, limit, cursor, span.value, page);
    }
    return Ok(Reply(page.rows, NextCursor(page, request, db.revision.value, span.value)));
  }

  // ----- which cursors are accepted -----

  /** The last row of a page of the window has a positive id. */
  lemma PageEndsInWindow(rows: seq<PriceRow>, window: Window, limit: nat)
    requires forall row :: row in rows ==> row.id >= 1
    ensures var page := PageOf(WindowRows(rows, window), KeyOf, None, limit);
            page.rows != [] ==> page.rows[|page.rows| - 1].id >= 1
  {
    var all := WindowRows(rows, window);
    var page := PageOf(all, KeyOf, None, limit);
    RestAtStart(all, KeyOf);
    if page.rows != [] {
      var last := page.rows[|page.rows| - 1];
      assert last == all[|page.rows| - 1];
      WindowMember(rows, window, last);
    }
  }

  /** What the first page's cursor says. */
  lemma FirstCursor(db: Database, first: int, request: Request, limit: nat, cursor: Cursor)
    requires Served(db, first, request, limit, None).Ok?
             && Served(db, first, request, limit, None).value.next == Some(cursor)
    requires forall row :: row in db.rows ==> row.id >= 1
    ensures db.revision.Some? && SpanAllowed(cursor.span, request, first) && cursor.at.minor >= 1
    ensures cursor == Cursor(request.station, request.product, request.scope, db.revision.value,
            SpanOf(request, None, first), cursor.at)
  {
    PageEndsInWindow(db.rows, WindowOf(db.station.value, request, SpanOf(request, None, first)), limit);
  }

  /**
   A cursor of a first page, sent back with the same filters: it is accepted exactly while the revision is the same and
   at most 15 minutes have passed; otherwise the answer is the 409 that says to start over.
   */
  lemma CursorLivesWithItsRevision(
      db: Database, first: int, request: Request, limit: nat, cursor: Cursor, revision: Revision, now: int)
    requires Served(db, first, request, limit, None).Ok?
             && Served(db, first, request, limit, None).value.next == Some(cursor)
    requires forall row :: row in db.rows ==> row.id >= 1
    ensures Resolved(request, revision, Some(cursor), now)
            == if db.revision == Some(revision) && first <= now <= first + 15 * MINUTE
                then Ok(SpanOf(request, None, first))
                else Err(Conflict409)
  {
    FirstCursor(db, first, request, limit, cursor);
  }

  // ----- a walk -----

  datatype Walk = Walk(db: nat -> Database, time: nat -> int, limit: nat -> nat, request: Request, station: StationId)

  /** The same station is found throughout; its table only grows. */
  ghost predicate ValidWalk(w: Walk) {
    && (forall i :: w.limit(i) >= 1)
    && (forall i :: UniqueIds(w.db(i).rows))
    && (forall i :: w.db(i).station == Some(w.station))
    && (forall i, j, row: PriceRow :: i <= j && row in w.db(i).rows ==> row in w.db(j).rows)
  }

  function Answer(w: Walk, i: nat, cursor: Option<Cursor>): Result<Reply<Cursor, PriceRow>, HistoryError> {
    Served(w.db(i), w.time(i), w.request, w.limit(i), cursor)
  }

  function Answers(w: Walk): (nat, Option<Cursor>) -> Result<Reply<Cursor, PriceRow>, HistoryError> {
    (i: nat, cursor) => Answer(w, i, cursor)
  }

  /** The window of the first request. */
  function FirstWindow(w: Walk): Window {
    WindowOf(w.station, w.request, SpanOf(w.request, None, w.time(0)))
  }

  /** The window the first request asks for. */
  ghost function AskedWindow(w: Walk): Window {
    var end := match w.request.to case Some(to) => to case None => w.time(0);
    var start := match w.request.from case Some(from) => from case None => end - w.request.defaultDays * DAY;
    Window(w.station, w.request.product, start, end)
  }

  /** The cursor of request `i` pins the first window. */
  predicate Pinned(w: Walk, i: nat, cursor: Option<Cursor>) {
    if cursor.None? then i == 0 else cursor.value.span == SpanOf(w.request, None, w.time(0))
  }

  /** Rows of the window in descending order below the cursor. */
  ghost predicate Follows(window: Window, items: seq<PriceRow>, after: Option<Key>) {
    LatestFirst(items) && forall row :: row in items ==> IsOf(row, window) && IsBelow(row, after)
  }

  /** No row of `rows` is missing: it is among the items or still below `next`. */
  ghost predicate Covers(window: Window, rows: seq<PriceRow>, items: seq<PriceRow>, after: Option<Key>,
      next: Option<Key>) {
    forall row :: row in rows && IsOf(row, window) && IsBelow(row, after) ==>
      row in items || (next.Some? && IsBelow(row, next))
  }

  /** The key a page continues below. */
  function NextKey(page: Page<PriceRow>): Option<Key> {
    if page.more && page.rows != [] then Some(KeyOf(page.rows[|page.rows| - 1])) else None
  }

  /** A page of the window follows its cursor. */
  lemma PageFollowsWindow(rows: seq<PriceRow>, window: Window, after: Option<Key>, limit: nat)
    requires UniqueIds(rows)
    ensures var page := PageOf(WindowRows(rows, window), KeyOf, after, limit);
            Follows(window, page.rows, after) && forall row :: row in page.rows ==> row in rows
  {
    var all := WindowRows(rows, window);
    WindowDescends(rows, window);
    PageFollows(all, KeyOf, after, limit);
    forall row | row in all ensures row in rows && Selected(row, window) {
      WindowMember(rows, window, row);
    }
  }

  /** What a page leaves out lies below its last row. */
  lemma PageCoversWindow(rows: seq<PriceRow>, window: Window, after: Option<Key>, limit: nat, page: Page<PriceRow>)
    requires UniqueIds(rows) && limit >= 1 && page == PageOf(WindowRows(rows, window), KeyOf, after, limit)
    ensures Covers(window, rows, page.rows, after, NextKey(page))
  {
    WindowDescends(rows, window);
    forall row | row in rows && Selected(row, window) && Below(KeyOf(row), after)
      ensures row in page.rows
              || (page.more && page.rows != [] && Before(KeyOf(row), KeyOf(page.rows[|page.rows| - 1])))
    {
      WindowMember(rows, window, row);
      PageMissesNothing(WindowRows(rows, window), KeyOf, after, limit, row);
    }
  }

  /** An accepted request answers with the page of the first window below its cursor. */
  lemma AnswerIsPage(w: Walk, i: nat, cursor: Option<Cursor>)
    requires ValidWalk(w) && Pinned(w, i, cursor) && Answer(w, i, cursor).Ok?
    ensures var reply, page := Answer(w, i, cursor).value,
            PageOf(WindowRows(w.db(i).rows, FirstWindow(w)), KeyOf, AfterOf(cursor), w.limit(i));
            && reply.items == page.rows && AfterOf(reply.next) == NextKey(page)
            && (reply.next.Some? ==> Pinned(w, i + 1, reply.next) && page.rows != [])
  {
    assert Resolved(w.request, w.db(i).revision.value, cursor, w.time(i)).value == SpanOf(w.request, None, w.time(0));
  }

  /** A good answer: a descending page of stored rows of the first window, which skips nothing. */
  ghost predicate GoodAnswer(
      w: Walk, i: nat, cursor: Option<Cursor>, answer: Result<Reply<Cursor, PriceRow>, HistoryError>)
  {
    answer.Ok? ==>
      var reply := answer.value;
      && Follows(FirstWindow(w), reply.items, AfterOf(cursor))
      && Covers(FirstWindow(w), w.db(i).rows, reply.items, AfterOf(cursor), AfterOf(reply.next))
      && (forall row :: row in reply.items ==> row in w.db(i).rows)
      && (reply.next.Some? ==>
            && Pinned(w, i + 1, reply.next) && reply.items != []
            && AfterOf(reply.next) == Some(KeyOf(reply.items[|reply.items| - 1])))
  }

  lemma PageIsGood(w: Walk, i: nat, cursor: Option<Cursor>, reply: Reply<Cursor, PriceRow>, page: Page<PriceRow>)
    requires ValidWalk(w)
             && page == PageOf(WindowRows(w.db(i).rows, FirstWindow(w)), KeyOf, AfterOf(cursor), w.limit(i))
    requires reply.items == page.rows && AfterOf(reply.next) == NextKey(page)
    requires reply.next.Some? ==> Pinned(w, i + 1, reply.next) && page.rows != []
    ensures GoodAnswer(w, i, cursor, Ok(reply))
  {
    PageFollowsWindow(w.db(i).rows, FirstWindow(w), AfterOf(cursor), w.limit(i));
    PageCoversWindow(w.db(i).rows, FirstWindow(w), AfterOf(cursor), w.limit(i), page);
  }

  lemma AnswerIsGood(w: Walk, i: nat, cursor: Option<Cursor>, answer: Result<Reply<Cursor, PriceRow>, HistoryError>)
    requires ValidWalk(w) && Pinned(w, i, cursor) && answer == Answer(w, i, cursor)
    ensures GoodAnswer(w, i, cursor, answer)
  {
    if answer.Ok? {
      AnswerIsPage(w, i, cursor);
      var page := PageOf(WindowRows(w.db(i).rows, FirstWindow(w)), KeyOf, AfterOf(cursor), w.limit(i));
      PageIsGood(w, i, cursor, answer.value, page);
    }
  }

  lemma FollowsAppend(window: Window, items: seq<PriceRow>, more: seq<PriceRow>, after: Option<Key>)
    requires items != [] && Follows(window, items, after)
    requires Follows(window, more, Some(KeyOf(items[|items| - 1])))
    ensures Follows(window, items + more, after)
  {
    var last := items[|items| - 1];
    forall row | row in more ensures Before(KeyOf(row), KeyOf(last)) && Below(KeyOf(row), after) {
      assert last in items;
    }
    forall j, k | 0 <= j < |items| <= k < |items + more|
      ensures Before(KeyOf((items + more)[k]), KeyOf((items + more)[j]))
    {
      assert (items + more)[k] in more && (items + more)[j] == items[j];
      assert j == |items| - 1 || Before(KeyOf(last), KeyOf(items[j]));
    }
  }

  lemma CoversAppend(
      window: Window, rows: seq<PriceRow>, later: seq<PriceRow>, items: seq<PriceRow>, more: seq<PriceRow>,
      after: Option<Key>, next: Option<Key>)
    requires Covers(window, rows, items, after, next) && Covers(window, later, more, next, None)
    requires forall row :: row in rows ==> row in later
    ensures Covers(window, rows, items + more, after, None)
  {
  }

  /** What a walk delivers from request `i` on. */
  ghost predicate Delivers(w: Walk, i: nat, walked: Walked<PriceRow>, after: Option<Key>) {
    && Follows(FirstWindow(w), walked.items, after)
    && (walked.end == Done ==> Covers(FirstWindow(w), w.db(i).rows, walked.items, after, None))
    && forall row :: row in walked.items ==> exists j: nat :: j >= i && row in w.db(j).rows
  }

  lemma DeliversAppend(w: Walk, i: nat, cursor: Option<Cursor>, reply: Reply<Cursor, PriceRow>, more: Walked<PriceRow>)
    requires ValidWalk(w) && GoodAnswer(w, i, cursor, Ok(reply)) && reply.next.Some?
    requires Delivers(w, i + 1, more, AfterOf(reply.next))
    ensures Delivers(w, i, Walked(reply.items + more.items, more.end), AfterOf(cursor))
  {
    FollowsAppend(FirstWindow(w), reply.items, more.items, AfterOf(cursor));
    if more.end == Done {
      CoversAppend(FirstWindow(w), w.db(i).rows, w.db(i + 1).rows, reply.items, more.items, AfterOf(cursor),
          AfterOf(reply.next));
    }
  }

  lemma {:induction false} GoodAnswersDeliver(
      w: Walk, answer: (nat, Option<Cursor>) -> Result<Reply<Cursor, PriceRow>, HistoryError>,
      i: nat, cursor: Option<Cursor>, n: nat)
    requires ValidWalk(w) && Pinned(w, i, cursor)
    requires forall j: nat, c {:trigger GoodAnswer(w, j, c, answer(j, c))} :: Pinned(w, j, c) ==>
             GoodAnswer(w, j, c, answer(j, c))
    ensures Delivers(w, i, Pages(answer, i, cursor, n), AfterOf(cursor))
    decreases n
  {
    var reply := answer(i, cursor);
    if n > 0 && reply.Ok? {
      assert GoodAnswer(w, i, cursor, reply);
      if reply.value.next.Some? {
        GoodAnswersDeliver(w, answer, i + 1, reply.value.next, n - 1);
        DeliversAppend(w, i, cursor, reply.value, Pages(answer, i + 1, reply.value.next, n - 1));
      }
    }
  }

  /**
   Inserts never make a walk skip or repeat: what it delivers is strictly descending stored rows of the first window,
   and once it is done every row stored when it began is among them.
   */
  lemma WalkSurvivesInserts(w: Walk, i: nat, cursor: Option<Cursor>, n: nat)
    requires ValidWalk(w) && Pinned(w, i, cursor)
    ensures Delivers(w, i, Pages(Answers(w), i, cursor, n), AfterOf(cursor)) && FirstWindow(w) == AskedWindow(w)
  {
    forall j: nat, c | Pinned(w, j, c) ensures GoodAnswer(w, j, c, Answers(w)(j, c)) {
      AnswerIsGood(w, j, c, Answer(w, j, c));
    }
    GoodAnswersDeliver(w, Answers(w), i, cursor, n);
  }

  /** With an unchanged table, a finished walk is exactly the window, latest first. */
  lemma QuietWalkIsExact(w: Walk, n: nat)
    requires ValidWalk(w) && Pages(Answers(w), 0, None, n).end == Done
    requires forall i, row: PriceRow :: row in w.db(i).rows ==> row in w.db(0).rows
    ensures IsWindow(w.db(0).rows, AskedWindow(w), Pages(Answers(w), 0, None, n).items)
  {
    var items, all := Pages(Answers(w), 0, None, n).items, WindowRows(w.db(0).rows, FirstWindow(w));
    WalkSurvivesInserts(w, 0, None, n);
    WindowDescends(w.db(0).rows, FirstWindow(w));
    forall row ensures row in items <==> row in all {
      WindowMember(w.db(0).rows, FirstWindow(w), row);
    }
    DescendingIsUnique(items, all, KeyOf);
  }

  // ----- a quiet walk comes to its end -----

  /** Nothing changes within the life of a cursor, and the first request is accepted. */
  ghost predicate QuietWalk(w: Walk) {
    && ValidWalk(w) && Answer(w, 0, None).Ok?
    && (forall i :: w.db(i).revision == w.db(0).revision && w.time(0) <= w.time(i) <= w.time(0) + 15 * MINUTE)
    && (forall i, row: PriceRow :: row in w.db(i).rows ==> row in w.db(0).rows)
    && (forall row :: row in w.db(0).rows ==> row.id >= 1)
  }

  /** The cursor handed out after the first `p` rows of the window. */
  ghost predicate CursorAt(w: Walk, all: seq<PriceRow>, i: nat, cursor: Option<Cursor>, p: nat) {
    if cursor.None? then i == 0 && p == 0
    else
      && 0 < p <= |all| && w.db(0).revision.Some?
      && cursor.value == Cursor(w.request.station, w.request.product, w.request.scope, w.db(0).revision.value,
                                SpanOf(w.request, None, w.time(0)), KeyOf(all[p - 1]))
  }

  ghost function Positions(w: Walk, all: seq<PriceRow>): (nat, Option<Cursor>, nat) -> bool {
    (i: nat, cursor, p: nat) => CursorAt(w, all, i, cursor, p)
  }

  lemma SameWindow(w: Walk, i: nat)
    requires QuietWalk(w)
    ensures WindowRows(w.db(i).rows, FirstWindow(w)) == WindowRows(w.db(0).rows, FirstWindow(w))
  {
    var first, now := WindowRows(w.db(0).rows, FirstWindow(w)), WindowRows(w.db(i).rows, FirstWindow(w));
    WindowDescends(w.db(0).rows, FirstWindow(w));
    WindowDescends(w.db(i).rows, FirstWindow(w));
    forall row ensures row in now <==> row in first {
      WindowMember(w.db(0).rows, FirstWindow(w), row);
      WindowMember(w.db(i).rows, FirstWindow(w), row);
    }
    DescendingIsUnique(now, first, KeyOf);
  }

  /** A cursor with the span of the first request is accepted while it lives. */
  lemma PinnedIsResolved(request: Request, revision: Revision, first: int, now: int, at: Key)
    requires SpanAllowed(SpanOf(request, None, first), request, first) && first <= now <= first + CURSOR_TTL
             && at.minor >= 1
    ensures var cursor := Cursor(request.station, request.product, request.scope, revision,
            SpanOf(request, None, first), at);
            Resolved(request, revision, Some(cursor), now) == Ok(SpanOf(request, None, first))
  {
  }

  lemma FirstIsAllowed(db: Database, first: int, request: Request, limit: nat)
    requires Served(db, first, request, limit, None).Ok?
    ensures db.revision.Some? && SpanAllowed(SpanOf(request, None, first), request, first)
  {
  }

  lemma RowsOfWindow(rows: seq<PriceRow>, window: Window, p: nat)
    requires UniqueIds(rows) && (forall row :: row in rows ==> row.id >= 1) && 0 < p <= |WindowRows(rows, window)|
    ensures var all := WindowRows(rows, window);
            all[p - 1].id >= 1 && Rest(all, KeyOf, Some(KeyOf(all[p - 1]))) == all[p..]
  {
    var all := WindowRows(rows, window);
    WindowDescends(rows, window);
    assert all[p - 1] in all;
    WindowMember(rows, window, all[p - 1]);
    RestAfterRow(all, KeyOf, p - 1);
  }

  /** Every cursor of the walk is accepted and leads back to the first window. */
  lemma CursorIsAccepted(w: Walk, all: seq<PriceRow>, i: nat, cursor: Option<Cursor>, p: nat)
    requires QuietWalk(w) && all == WindowRows(w.db(0).rows, FirstWindow(w)) && CursorAt(w, all, i, cursor, p)
    ensures w.db(i).revision.Some?
    ensures Resolved(w.request, w.db(i).revision.value, cursor, w.time(i)) == Ok(SpanOf(w.request, None, w.time(0)))
    ensures Rest(all, KeyOf, AfterOf(cursor)) == all[p..]
  {
    FirstIsAllowed(w.db(0), w.time(0), w.request, w.limit(0));
    if cursor.None? {
      RestAtStart(all, KeyOf);
    } else {
      RowsOfWindow(w.db(0).rows, FirstWindow(w), p);
      PinnedIsResolved(w.request, w.db(0).revision.value, w.time(0), w.time(i), cursor.value.at);
    }
  }

  /** The page of request `i`: the next rows of the window. */
  lemma QuietAnswer(w: Walk, all: seq<PriceRow>, i: nat, cursor: Option<Cursor>, p: nat) returns (page: Page<PriceRow>)
    requires QuietWalk(w) && all == WindowRows(w.db(0).rows, FirstWindow(w)) && p <= |all|
             && CursorAt(w, all, i, cursor, p)
    ensures page == Cut(all[p..], w.limit(i)) && w.db(0).revision.Some?
    ensures Answer(w, i, cursor)
            == Ok(Reply(page.rows,
                NextCursor(page, w.request, w.db(0).revision.value, SpanOf(w.request, None, w.time(0)))))
  {
    CursorIsAccepted(w, all, i, cursor, p);
    SameWindow(w, i);
    page := PageOf(all, KeyOf, AfterOf(cursor), w.limit(i));
    assert w.db(i).station == Some(w.station);
  }

  /** Each answer is the next stretch of the window, with a cursor exactly when rows are left. */
  lemma AnswerIsNextStretch(w: Walk, all: seq<PriceRow>, i: nat, cursor: Option<Cursor>, p: nat)
    requires QuietWalk(w) && all == WindowRows(w.db(0).rows, FirstWindow(w)) && p <= |all|
             && CursorAt(w, all, i, cursor, p)
    ensures NextStretch(Answer(w, i, cursor), all, Positions(w, all), i, p)
  {
    var page := QuietAnswer(w, all, i, cursor, p);
    PageIsNextStretch(w, all, Answer(w, i, cursor), page, i, p);
  }

  lemma PageIsNextStretch(
      w: Walk, all: seq<PriceRow>, answer: Result<Reply<Cursor, PriceRow>, HistoryError>, page: Page<PriceRow>, i: nat,
      p: nat)
    requires w.limit(i) >= 1 && p <= |all| && page == Cut(all[p..], w.limit(i)) && w.db(0).revision.Some?
    requires answer
             == Ok(Reply(page.rows,
                 NextCursor(page, w.request, w.db(0).revision.value, SpanOf(w.request, None, w.time(0)))))
    ensures NextStretch(answer, all, Positions(w, all), i, p)
  {
    var q := p + w.limit(i);
    assert q < |all| ==> all[p..][..w.limit(i)] == all[p..q];
  }

  /**
   A walk over an unchanged table within 15 minutes is never rejected and ends after at most one request more than the
   window has rows; its pages in order are the window, latest first.
   */
  lemma QuietWalkEnds(w: Walk, n: nat)
    requires QuietWalk(w)
    ensures var all, walked := WindowRows(w.db(0).rows, FirstWindow(w)), Pages(Answers(w), 0, None, n);
            && IsWindow(w.db(0).rows, AskedWindow(w), all)
            && walked.end != Rejected && walked.items <= all
            && (walked.end == Done ==> walked.items == all)
            && (n > |all| ==> walked.end == Done)
  {
    var all := WindowRows(w.db(0).rows, FirstWindow(w));
    var at := Positions(w, all);
    forall j: nat, c, q: nat | q <= |all| && at(j, c, q) ensures NextStretch(Answers(w)(j, c), all, at, j, q) {
      AnswerIsNextStretch(w, all, j, c, q);
    }
    PagesAreConsecutive(Answers(w), all, at, 0, None, 0, n);
    assert all[0..] == all;
    WindowRowsAreWindow(w.db(0).rows, FirstWindow(w));
  }
}
