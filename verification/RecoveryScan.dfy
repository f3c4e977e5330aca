/**
 The keyset scan that recovers abandoned collection runs. The scan shares the run table, the orchestrator's metadata
 and the clock with everything else that runs, so each of its calls to the outside sees an arbitrary environment:
 an `Env` answers the call numbered `k`.
 */
module RecoveryScan {
  import opened Common
  import opened TimeUtils

  type RunId = int
  type Owner = int

  const MISSING_RUN_GRACE: int := 5 * HOUR
  /** Largest run id: the column is a 32-bit integer. */
  const MAX_ID: int := 0x7FFF_FFFF

  /** One row of the run table; `running` stands for status "running". */
  datatype Row = Row(running: bool, owner: Option<Owner>, heartbeat: Option<int>, started: int)

  datatype Lookup = Unavailable | Missing | Alive | Finished

  datatype Env = Env(
    /** The committed table. */
    table: nat -> map<RunId, Row>,
    /** `_has_budget`. */
    budget: nat -> bool,
    /** The metadata of a run, or Unavailable when the call fails. */
    lookup: (nat, Owner) -> Lookup,
    now: nat -> int,
    /** The database call fails or the tick is cancelled while it waits. */
    fails: nat -> bool,
    /** The process restarts after a tick and loses the position. */
    restarts: nat -> bool)

  // ----- one page -----

  predicate Candidate(table: map<RunId, Row>, run: RunId) {
    run in table && table[run].running && table[run].owner.Some?
  }

  /** The first candidate after `cursor`. */
  function Next(table: map<RunId, Row>, cursor: int): (run: Option<RunId>)
    ensures run.Some? ==> cursor < run.value <= MAX_ID && Candidate(table, run.value)
    ensures forall r :: cursor < r <= MAX_ID && Candidate(table, r) ==> run.Some? && run.value <= r
    decreases MAX_ID - cursor
  {
    if cursor >= MAX_ID then None
    else if Candidate(table, cursor + 1) then Some(cursor + 1)
    else Next(table, cursor + 1)
  }

  /** The page query: candidates after `cursor` in id order, at most `size`. */
  function Page(table: map<RunId, Row>, cursor: int, size: nat): (page: seq<RunId>)
    ensures |page| <= size
    ensures forall i :: 0 <= i < |page| ==> cursor < page[i] <= MAX_ID && Candidate(table, page[i])
    ensures forall i, j :: 0 <= i < j < |page| ==> page[i] < page[j]
    decreases size
  {
    var next := Next(table, cursor);
    if size == 0 || next.None? then [] else [next.value] + Page(table, next.value, size - 1)
  }

  /** The row is running under an owner. */
  ghost predicate RunsOwned(table: map<RunId, Row>, run: RunId) {
    run in table && table[run].running && table[run].owner != None
  }

  /** A page misses no candidate up to its last row, and none at all when it is short; its ids increase. */
  lemma {:induction false} PageMissesNothing(table: map<RunId, Row>, cursor: int, size: nat, run: RunId)
    requires cursor < run <= 0x7FFF_FFFF && RunsOwned(table, run)
    ensures var page := Page(table, cursor, size);
            run in page || (|page| == size && (size > 0 ==> page[size - 1] < run))
    decreases size
  {
    var next := Next(table, cursor);
    assert Candidate(table, run);
    if size > 0 && next.value < run {
      PageMissesNothing(table, next.value, size - 1, run);
    }
  }

  // ----- the scan -----

  /** One examined row: `row` as read at call `readAt`, the metadata asked at `askedAt`, the update sent at `sentAt`. */
  datatype Visit = Visit(run: RunId, row: Row, readAt: nat, askedAt: nat, sentAt: nat, recovered: bool)

  datatype End = More | OutOfBudget | MetadataFailure | Aborted | Completed

  /** Where a scan stands: the next call number, the cursor, the stored position and the rows examined. */
  datatype Progress = Progress(end: End, k: nat, cursor: int, saved: int, visits: seq<Visit>)

  function Prefixed(visits: seq<Visit>, p: Progress): Progress {
    p.(visits := visits + p.visits)
  }

  function LastSign(row: Row): int {
    if row.heartbeat.Some? then row.heartbeat.value else row.started
  }

  predicate MissingExpired(env: Env, v: Visit)
    requires v.row.owner.Some?
  {
    env.lookup(v.askedAt, v.row.owner.value) == Missing && LastSign(v.row) <= env.now(v.askedAt + 1) - MISSING_RUN_GRACE
  }

  predicate Dead(env: Env, v: Visit)
    requires v.row.owner.Some?
  {
    MissingExpired(env, v) || env.lookup(v.askedAt, v.row.owner.value) == Finished
  }

  /** The WHERE clause of the update, on the table the update meets. */
  predicate UpdateMatches(env: Env, v: Visit)
    requires v.row.owner.Some?
  {
    var table := env.table(v.sentAt);
    && v.run in table && table[v.run].running && table[v.run].owner == v.row.owner
    && (MissingExpired(env, v) ==> table[v.run].heartbeat == v.row.heartbeat)
  }

  function Visited(env: Env, k: nat, readAt: nat, run: RunId): Visit
    requires Candidate(env.table(readAt), run)
  {
    var v := Visit(run, env.table(readAt)[run], readAt, k + 1, k + 3, false);
    v.(recovered := Dead(env, v) && UpdateMatches(env, v))
  }

  ghost predicate PageOf(env: Env, readAt: nat, page: seq<RunId>) {
    forall i :: 0 <= i < |page| ==> Candidate(env.table(readAt), page[i])
  }

  /** One row: budget at call k, metadata at k + 1, clock at k + 2, update at k + 3. */
  function ScanRow(env: Env, k: nat, readAt: nat, cursor: int, saved: int, run: RunId): (p: Progress)
    requires Candidate(env.table(readAt), run)
    ensures p.k > k && p.end != Completed
    ensures p.end == More ==> p.cursor == run && p.saved == saved && |p.visits| == 1 && p.visits[0].run == run
    ensures p.end != More ==> p.cursor == cursor && p.saved in {saved, cursor} && p.visits == []
  {
    var v := Visited(env, k, readAt, run);
    if !env.budget(k) then Progress(OutOfBudget, k + 1, cursor, cursor, [])
    else if env.lookup(k + 1, v.row.owner.value) == Unavailable
        then Progress(MetadataFailure, k + 2, cursor, cursor, [])
    else if Dead(env, v) && env.fails(k + 3) then Progress(Aborted, k + 4, cursor, saved, [])
    else Progress(More, k + 4, run, saved, [v])
  }

  /** The rows of one page. */
  function ScanRows(env: Env, k: nat, readAt: nat, cursor: int, saved: int, page: seq<RunId>): (p: Progress)
    requires PageOf(env, readAt, page)
    ensures p.k >= k && p.end != Completed
    ensures p.end == More ==> p.cursor == (if page == [] then cursor else page[|page| - 1]) && p.saved == saved
    decreases |page|
  {
    if page == [] then Progress(More, k, cursor, saved, [])
    else
      var p := ScanRow(env, k, readAt, cursor, saved, page[0]);
      if p.end != More then p else Prefixed(p.visits, ScanRows(env, p.k, readAt, page[0], saved, page[1..]))
  }

  /** One page of the scan: budget at call k, the query at k + 1, then its rows. */
  function ScanPage(env: Env, k: nat, cursor: int, saved: int, size: nat): (p: Progress)
    ensures p.k >= k
    ensures p.end == More ==> cursor < p.cursor <= MAX_ID && p.saved == saved
    ensures p.end == Completed ==> p.visits == []
  {
    if !env.budget(k) then Progress(OutOfBudget, k + 1, cursor, cursor, [])
    else if env.fails(k + 1) then Progress(Aborted, k + 2, cursor, saved, [])
    else
      var page := Page(env.table(k + 1), cursor, size);
      if page == [] then Progress(Completed, k + 2, cursor, 0, [])
      else ScanRows(env, k + 2, k + 1, cursor, saved, page)
  }

  /** The scan from `cursor` on: after a full page, the cursor is stored and the next page read. */
  function Scan(env: Env, k: nat, cursor: int, saved: int, size: nat): (p: Progress)
    ensures p.k >= k && p.end != More
    decreases MAX_ID - cursor
  {
    var p := ScanPage(env, k, cursor, saved, size);
    if p.end != More then p else Prefixed(p.visits, Scan(env, p.k, p.cursor, p.cursor, size))
  }

  // ----- what a scan keeps -----

  ghost predicate Examined(visits: seq<Visit>, run: RunId) {
    exists i :: 0 <= i < |visits| && visits[i].run == run
  }

  /**
   A row is recovered exactly when its run is finished, or missing with its last sign of life unchanged for 5 hours.
   */
  ghost predicate Justified(env: Env, v: Visit) {
    && RunsOwned(env.table(v.readAt), v.run) && v.row == env.table(v.readAt)[v.run]
    && v.readAt < v.askedAt < v.sentAt
    && env.lookup(v.askedAt, v.row.owner.value) != Unavailable
    && (v.recovered <==>
         var owner, now := v.row.owner.value, env.now(v.askedAt + 1);
         var expired := env.lookup(v.askedAt, owner) == Missing
                        && (if v.row.heartbeat.Some? then v.row.heartbeat.value <= now - 5 * HOUR
                            else v.row.started <= now - 5 * HOUR);
         && (expired || env.lookup(v.askedAt, owner) == Finished)
         && v.run in env.table(v.sentAt)
         && env.table(v.sentAt)[v.run].running && env.table(v.sentAt)[v.run].owner == Some(owner)
         && (expired ==> env.table(v.sentAt)[v.run].heartbeat == v.row.heartbeat))
  }

  ghost predicate AllJustified(env: Env, visits: seq<Visit>, from: nat, to: nat) {
    forall i :: 0 <= i < |visits| ==> Justified(env, visits[i]) && from <= visits[i].readAt && visits[i].sentAt < to
  }

  lemma ScanRowJustified(env: Env, k: nat, readAt: nat, cursor: int, saved: int, run: RunId)
    requires Candidate(env.table(readAt), run) && readAt < k
    ensures var p := ScanRow(env, k, readAt, cursor, saved, run); AllJustified(env, p.visits, readAt, p.k)
  {
  }

  lemma {:induction false} ScanRowsJustified(env: Env, k: nat, readAt: nat, cursor: int, saved: int, page: seq<RunId>)
    requires PageOf(env, readAt, page) && readAt < k
    ensures var p := ScanRows(env, k, readAt, cursor, saved, page); AllJustified(env, p.visits, readAt, p.k)
    decreases |page|
  {
    if page != [] {
      var p := ScanRow(env, k, readAt, cursor, saved, page[0]);
      ScanRowJustified(env, k, readAt, cursor, saved, page[0]);
      ScanRowsJustified(env, p.k, readAt, page[0], saved, page[1..]);
    }
  }

  /** Every recovery of a scan is justified. */
  lemma {:induction false} ScanJustified(env: Env, k: nat, cursor: int, saved: int, size: nat)
    ensures var p := Scan(env, k, cursor, saved, size); AllJustified(env, p.visits, k, p.k)
    decreases MAX_ID - cursor
  {
    var p := ScanPage(env, k, cursor, saved, size);
    if p.visits != [] {
      ScanRowsJustified(env, k + 2, k + 1, cursor, saved, Page(env.table(k + 1), cursor, size));
    }
    assert AllJustified(env, p.visits, k, p.k);
    if p.end == More {
      ScanJustified(env, p.k, p.cursor, p.cursor, size);
      JustifiedAppend(env, p.visits, Scan(env, p.k, p.cursor, p.cursor, size).visits, k, p.k,
          Scan(env, p.k, p.cursor, p.cursor, size).k);
    }
  }

  /** A run missing from the metadata is kept while its heartbeat, or its start without one, is under five hours old. */
  lemma LiveRunIsKept(env: Env, k: nat, cursor: int, saved: int, size: nat, i: nat)
    requires i < |Scan(env, k, cursor, saved, size).visits|
    requires var v := Scan(env, k, cursor, saved, size).visits[i];
             && v.row.owner.Some? && env.lookup(v.askedAt, v.row.owner.value) == Missing
             && var now := env.now(v.askedAt + 1);
                match v.row.heartbeat
                case Some(heartbeat) => now - heartbeat < 5 * HOUR
                case None => now - v.row.started < 5 * HOUR
    ensures !Scan(env, k, cursor, saved, size).visits[i].recovered
  {
    ScanJustified(env, k, cursor, saved, size);
  }

  /** The last run examined, or where the scan began. */
  function LastRun(visits: seq<Visit>, cursor: int): int {
    if visits == [] then cursor else visits[|visits| - 1].run
  }

  /** A scan keeps its progress: it stores the last run examined, or 0 once it has seen everything. */
  ghost predicate KeepsProgress(p: Progress, cursor: int) {
    && p.cursor == LastRun(p.visits, cursor)
    && (p.end == OutOfBudget || p.end == MetadataFailure ==> p.saved == LastRun(p.visits, cursor))
    && (p.end == Completed ==> p.saved == 0)
  }

  lemma {:induction false} ScanRowsKeepProgress(env: Env, k: nat, readAt: nat, cursor: int, saved: int,
      page: seq<RunId>)
    requires PageOf(env, readAt, page)
    ensures KeepsProgress(ScanRows(env, k, readAt, cursor, saved, page), cursor)
    decreases |page|
  {
    if page != [] {
      var p := ScanRow(env, k, readAt, cursor, saved, page[0]);
      if p.end == More {
        ScanRowsKeepProgress(env, p.k, readAt, page[0], saved, page[1..]);
      }
    }
  }

  lemma {:induction false} ScanKeepsProgress(env: Env, k: nat, cursor: int, saved: int, size: nat)
    ensures KeepsProgress(Scan(env, k, cursor, saved, size), cursor)
    decreases MAX_ID - cursor
  {
    var p := ScanPage(env, k, cursor, saved, size);
    if env.budget(k) && !env.fails(k + 1) && Page(env.table(k + 1), cursor, size) != [] {
      ScanRowsKeepProgress(env, k + 2, k + 1, cursor, saved, Page(env.table(k + 1), cursor, size));
    }
    if p.end == More {
      ScanKeepsProgress(env, p.k, p.cursor, p.cursor, size);
    }
  }

  /** While calls `from` to `to` are made, the run is running and owned. */
  ghost predicate StaysRunning(env: Env, run: RunId, from: nat, to: nat) {
    forall k :: from <= k < to ==> RunsOwned(env.table(k), run)
  }

  /** Ids of one page, all after the cursor, in increasing order. */
  ghost predicate Ascending(cursor: int, page: seq<RunId>) {
    && (forall i :: 0 <= i < |page| ==> cursor < page[i])
    && (forall i, j :: 0 <= i < j < |page| ==> page[i] < page[j])
  }

  /** The stored position stays behind the cursor, and the cursor never goes back. */
  lemma {:induction false} ScanRowsOrder(env: Env, k: nat, readAt: nat, cursor: int, saved: int, page: seq<RunId>)
    requires PageOf(env, readAt, page) && Ascending(cursor, page) && saved <= cursor
    ensures var p := ScanRows(env, k, readAt, cursor, saved, page); saved <= p.saved <= p.cursor && cursor <= p.cursor
    decreases |page|
  {
    if page != [] {
      ScanRowsOrder(env, ScanRow(env, k, readAt, cursor, saved, page[0]).k, readAt, page[0], saved, page[1..]);
    }
  }

  lemma ExaminedSooner(first: seq<Visit>, visits: seq<Visit>, run: RunId)
    requires Examined(first, run) || Examined(visits, run)
    ensures Examined(first + visits, run)
  {
    if Examined(first, run) {
      var i :| 0 <= i < |first| && first[i].run == run;
      assert (first + visits)[i].run == run;
    } else {
      var i :| 0 <= i < |visits| && visits[i].run == run;
      assert (first + visits)[|first| + i].run == run;
    }
  }

  /** Within a page, the cursor reaches a run of the page only by examining it, and no run beyond the page. */
  lemma {:induction false} ScanRowsCovers(
      env: Env, k: nat, readAt: nat, cursor: int, saved: int, page: seq<RunId>, run: RunId)
    requires PageOf(env, readAt, page) && Ascending(cursor, page) && saved <= cursor < run
    requires run in page || page == [] || page[|page| - 1] < run
    ensures var p := ScanRows(env, k, readAt, cursor, saved, page); p.cursor >= run ==> Examined(p.visits, run)
    decreases |page|
  {
    if page != [] {
      var p := ScanRow(env, k, readAt, cursor, saved, page[0]);
      var rest := ScanRows(env, p.k, readAt, page[0], saved, page[1..]);
      if p.end == More {
        if page[0] < run {
          ScanRowsCovers(env, p.k, readAt, page[0], saved, page[1..], run);
        }
        if Examined(p.visits, run) || Examined(rest.visits, run) {
          ExaminedSooner(p.visits, rest.visits, run);
        } else {
          assert p.visits[0].run == page[0];
        }
      }
    }
  }

  /** One page: whatever the cursor passes has been examined, and an empty page means nothing was left. */
  lemma ScanPageCovers(env: Env, k: nat, cursor: int, saved: int, size: nat, run: RunId)
    requires size >= 1 && saved <= cursor < run <= 0x7FFF_FFFF && RunsOwned(env.table(k + 1), run)
    ensures var p := ScanPage(env, k, cursor, saved, size);
            && p.end != Completed && saved <= p.saved <= p.cursor
            && (p.cursor >= run ==> Examined(p.visits, run))
  {
    var page := Page(env.table(k + 1), cursor, size);
    PageMissesNothing(env.table(k + 1), cursor, size, run);
    if env.budget(k) && !env.fails(k + 1) {
      assert page != [];
      ScanRowsOrder(env, k + 2, k + 1, cursor, saved, page);
      ScanRowsCovers(env, k + 2, k + 1, cursor, saved, page, run);
    }
  }

  /**
   One scan, from a stored position before `run`: if the scan completes, or stores a position at or past `run`, then
   it has examined `run`. Rows may come and go meanwhile; only `run` itself stays running and owned.
   */
  lemma {:induction false} ScanCovers(env: Env, k: nat, cursor: int, saved: int, size: nat, run: RunId)
    requires size >= 1 && saved <= cursor < run <= 0x7FFF_FFFF
    requires StaysRunning(env, run, k, Scan(env, k, cursor, saved, size).k)
    ensures var p := Scan(env, k, cursor, saved, size);
            p.end == Completed || p.saved >= run ==> Examined(p.visits, run)
    decreases MAX_ID - cursor
  {
    var p := ScanPage(env, k, cursor, saved, size);
    if p.k > k + 1 {
      ScanPageCovers(env, k, cursor, saved, size, run);
    }
    if p.end == More {
      var rest := Scan(env, p.k, p.cursor, p.cursor, size);
      if p.cursor < run {
        ScanCovers(env, p.k, p.cursor, p.cursor, size, run);
      }
      if Examined(p.visits, run) || Examined(rest.visits, run) {
        ExaminedSooner(p.visits, rest.visits, run);
      }
    }
  }

  // ----- many ticks -----

  /** Ticks from the stored position until one completes, at most `n`; a restart loses the position. */
  function TicksOf(scan: (nat, int) -> Progress, restarts: nat -> bool, k: nat, position: int, n: nat): Progress
    decreases n
  {
    if n == 0 then Progress(More, k, position, position, [])
    else
      var p := scan(k, position);
      if p.end == Completed then p
      else Prefixed(p.visits, TicksOf(scan, restarts, p.k, if restarts(p.k) then 0 else p.saved, n - 1))
  }

  function ScanFrom(env: Env, size: nat): (nat, int) -> Progress {
    (k: nat, position: int) => Scan(env, k, position, position, size)
  }

  function Ticks(env: Env, k: nat, position: int, size: nat, n: nat): Progress {
    TicksOf(ScanFrom(env, size), env.restarts, k, position, n)
  }

  /** The run is examined before the table is complete and before the stored position passes it. */
  ghost predicate Covered(p: Progress, run: RunId) {
    p.end == Completed || p.saved >= run ==> Examined(p.visits, run)
  }

  lemma CoveredPrefix(visits: seq<Visit>, rest: Progress, run: RunId)
    requires Examined(visits, run) || Covered(rest, run)
    ensures Covered(Prefixed(visits, rest), run)
  {
    if Examined(visits, run) || Examined(rest.visits, run) {
      ExaminedSooner(visits, rest.visits, run);
    }
  }

  /** No scan goes back in time. */
  ghost predicate Forward(scan: (nat, int) -> Progress) {
    forall k, position :: scan(k, position).k >= k
  }

  lemma {:induction false} TicksGoForward(
      scan: (nat, int) -> Progress, restarts: nat -> bool, k: nat, position: int, n: nat)
    requires Forward(scan)
    ensures TicksOf(scan, restarts, k, position, n).k >= k
    decreases n
  {
    if n > 0 {
      var p := scan(k, position);
      TicksGoForward(scan, restarts, p.k, if restarts(p.k) then 0 else p.saved, n - 1);
    }
  }

  /** If every scan that begins before the run covers it, so do several. */
  lemma {:induction false} TicksOfCover(
      scan: (nat, int) -> Progress, restarts: nat -> bool, k: nat, position: int, n: nat, run: RunId, to: nat)
    requires Forward(scan) && position < run && 0 < run && TicksOf(scan, restarts, k, position, n).k <= to
    requires forall j: nat, c: int :: k <= j && c < run && scan(j, c).k <= to ==> Covered(scan(j, c), run)
    ensures Covered(TicksOf(scan, restarts, k, position, n), run)
    decreases n
  {
    if n > 0 {
      var p := scan(k, position);
      var next := if restarts(p.k) then 0 else p.saved;
      TicksGoForward(scan, restarts, p.k, next, n - 1);
      assert Covered(p, run);
      if p.end != Completed {
        if next < run {
          TicksOfCover(scan, restarts, p.k, next, n - 1, run, to);
        }
        CoveredPrefix(p.visits, TicksOf(scan, restarts, p.k, next, n - 1), run);
      }
    }
  }

  lemma StaysLater(env: Env, run: RunId, from: nat, to: nat, later: nat, sooner: nat)
    requires from <= later && sooner <= to && StaysRunning(env, run, from, to)
    ensures StaysRunning(env, run, later, sooner)
  {
  }

  /**
   However many ticks run out of budget, fail on metadata, abort or restart: a run that stays running and owned is
   examined before a tick reports the table complete, and before the stored position passes it.
   */
  lemma TicksCover(env: Env, k: nat, position: int, size: nat, n: nat, run: RunId, all: Progress)
    requires size >= 1 && position < run && 0 < run <= 0x7FFF_FFFF && all == Ticks(env, k, position, size, n)
    requires StaysRunning(env, run, k, all.k)
    ensures all.end == Completed || all.saved >= run ==> Examined(all.visits, run)
  {
    var scan := ScanFrom(env, size);
    forall j: nat, c: int | k <= j && c < run && scan(j, c).k <= all.k ensures Covered(scan(j, c), run) {
      StaysLater(env, run, k, all.k, j, scan(j, c).k);
      ScanCovers(env, j, c, c, size, run);
    }
    TicksOfCover(scan, env.restarts, k, position, n, run, all.k);
  }

  lemma JustifiedAppend(env: Env, visits: seq<Visit>, more: seq<Visit>, from: nat, middle: nat, to: nat)
    requires from <= middle <= to && AllJustified(env, visits, from, middle) && AllJustified(env, more, middle, to)
    ensures AllJustified(env, visits + more, from, to)
  {
  }

  ghost predicate JustifiedFrom(env: Env, p: Progress, from: nat) {
    AllJustified(env, p.visits, from, p.k)
  }

  lemma JustifiedPrefix(env: Env, p: Progress, rest: Progress, from: nat)
    requires from <= p.k <= rest.k && JustifiedFrom(env, p, from) && JustifiedFrom(env, rest, p.k)
    ensures JustifiedFrom(env, Prefixed(p.visits, rest), from)
  {
    JustifiedAppend(env, p.visits, rest.visits, from, p.k, rest.k);
  }

  lemma {:induction false} TicksOfJustified(
      env: Env, scan: (nat, int) -> Progress, restarts: nat -> bool, k: nat, position: int, n: nat)
    requires Forward(scan) && forall j: nat, c: int :: JustifiedFrom(env, scan(j, c), j)
    ensures JustifiedFrom(env, TicksOf(scan, restarts, k, position, n), k)
    decreases n
  {
    if n > 0 {
      var p := scan(k, position);
      assert JustifiedFrom(env, p, k);
      if p.end != Completed {
        var next := if restarts(p.k) then 0 else p.saved;
        TicksOfJustified(env, scan, restarts, p.k, next, n - 1);
        TicksGoForward(scan, restarts, p.k, next, n - 1);
        JustifiedPrefix(env, p, TicksOf(scan, restarts, p.k, next, n - 1), k);
      }
    }
  }

  /** Every recovery of several ticks is justified. */
  lemma TicksJustified(env: Env, k: nat, position: int, size: nat, n: nat)
    ensures JustifiedFrom(env, Ticks(env, k, position, size, n), k)
  {
    var scan := ScanFrom(env, size);
    forall j: nat, c: int ensures JustifiedFrom(env, scan(j, c), j) {
      ScanJustified(env, j, c, c, size);
    }
    TicksOfJustified(env, scan, env.restarts, k, position, n);
  }

  /** The committed update shows in the table: a recovered row is not running at the next call. */
  ghost predicate UpdatesShow(env: Env, visits: seq<Visit>) {
    forall i :: 0 <= i < |visits| && visits[i].recovered ==> !RunsOwned(env.table(visits[i].sentAt + 1), visits[i].run)
  }

  /** The run is stored under an owner that has finished, whenever its metadata can be read at all. */
  ghost predicate FinishedOwner(env: Env, run: RunId, owner: Owner, from: nat, to: nat) {
    forall k :: from <= k < to ==>
      && run in env.table(k) && env.table(k)[run].owner == Some(owner)
      && (env.lookup(k, owner) == Finished || env.lookup(k, owner) == Unavailable)
  }

  /** Once the run has ended, it stays ended. */
  ghost predicate StaysEnded(env: Env, run: RunId, from: nat, to: nat) {
    forall i, j :: from <= i <= j <= to && !RunsOwned(env.table(i), run) ==> !RunsOwned(env.table(j), run)
  }

  lemma FinishedVisitEnds(env: Env, visits: seq<Visit>, run: RunId, owner: Owner, from: nat, to: nat) returns (j: nat)
    requires AllJustified(env, visits, from, to) && UpdatesShow(env, visits) && Examined(visits, run)
    requires FinishedOwner(env, run, owner, from, to) && StaysRunning(env, run, from, to)
    ensures from <= j <= to && !RunsOwned(env.table(j), run)
  {
    var i :| 0 <= i < |visits| && visits[i].run == run;
    var v := visits[i];
    assert v.row.owner == Some(owner) && env.lookup(v.askedAt, owner) == Finished;
    assert RunsOwned(env.table(v.sentAt), run);
    j := v.sentAt + 1;
  }

  /**
   No run of a finished owner is still running when a tick reports the table complete, whatever budgets were exhausted,
   metadata calls failed, ticks aborted or positions were lost before.
   */
  lemma FinishedRunsAreRecovered(
      env: Env, k: nat, position: int, size: nat, n: nat, p: Progress, run: RunId, owner: Owner)
    requires size >= 1 && position < run && 0 < run <= 0x7FFF_FFFF
    requires p == Ticks(env, k, position, size, n) && p.end == Completed
    requires UpdatesShow(env, p.visits) && FinishedOwner(env, run, owner, k, p.k) && StaysEnded(env, run, k, p.k)
    ensures !RunsOwned(env.table(p.k), run)
  {
    if StaysRunning(env, run, k, p.k) {
      TicksCover(env, k, position, size, n, run, p);
      TicksJustified(env, k, position, size, n);
      var j := FinishedVisitEnds(env, p.visits, run, owner, k, p.k);
    }
  }

  // ----- one tick as the sensor runs it -----

  datatype TickError = RecoveryMetadataUnavailable | TickAborted

  function Recoveries(visits: seq<Visit>): nat {
    if visits == [] then 0 else Recoveries(visits[..|visits| - 1]) + if visits[|visits| - 1].recovered then 1 else 0
  }

  function RecoveredOf(visits: seq<Visit>): set<int> {
    set i | 0 <= i < |visits| && visits[i].recovered
  }

  lemma {:induction false} RecoveriesCount(visits: seq<Visit>)
    ensures Recoveries(visits) == |RecoveredOf(visits)|
  {
    if visits != [] {
      var last := |visits| - 1;
      RecoveriesCount(visits[..last]);
      assert RecoveredOf(visits) == RecoveredOf(visits[..last]) + if visits[last].recovered then {last} else {};
    }
  }

  /** The stored keyset position, kept between ticks. */
  class ScanPosition {
    var value: int

    constructor ()
      ensures value == 0
    {
      value := 0;
    }
  }

  lemma PrefixedTwice(first: seq<Visit>, second: seq<Visit>, p: Progress)
    ensures Prefixed(first, Prefixed(second, p)) == Prefixed(first + second, p)
  {
    assert first + (second + p.visits) == (first + second) + p.visits;
  }

  /** The next row of a page: its place in the scan. */
  lemma ScanRowsStep(env: Env, k: nat, readAt: nat, cursor: int, saved: int, page: seq<RunId>, i: nat,
      visits: seq<Visit>)
    requires PageOf(env, readAt, page) && i < |page|
    ensures var p := ScanRow(env, k, readAt, cursor, saved, page[i]);
            var q := Prefixed(visits, ScanRows(env, k, readAt, cursor, saved, page[i..]));
            && Recoveries(visits + p.visits) == Recoveries(visits) + Recoveries(p.visits)
            && (if p.end != More then q == Prefixed(visits, p) && q.visits == visits
                else q == Prefixed(visits + p.visits, ScanRows(env, p.k, readAt, page[i], saved, page[i + 1..])))
  {
    var p := ScanRow(env, k, readAt, cursor, saved, page[i]);
    assert page[i..][1..] == page[i + 1..];
    RecoveriesSplit(visits, p.visits);
    if p.end == More {
      PrefixedTwice(visits, p.visits, ScanRows(env, p.k, readAt, page[i], saved, page[i + 1..]));
    }
  }

  lemma RecoveriesSplit(first: seq<Visit>, second: seq<Visit>)
    ensures Recoveries(first + second) == Recoveries(first) + Recoveries(second)
  {
    if second == [] {
      assert first + second == first;
    } else {
      assert (first + second)[..|first + second| - 1] == first + second[..|second| - 1];
    }
  }

  /** One round of the inner loop. */
  method ReconcileRow(env: Env, start: nat, readAt: nat, from: int, run: RunId, position: ScanPosition)
    returns (end: End, k: nat, cursor: int, recovered: nat)
    requires Candidate(env.table(readAt), run)
    modifies position
    ensures var p := ScanRow(env, start, readAt, from, old(position.value), run);
            && end == p.end && k == p.k && cursor == p.cursor && recovered == Recoveries(p.visits)
            && position.value == p.saved
  {
    if !env.budget(start) {
      position.value := from;
      return OutOfBudget, start + 1, from, 0;
    }
    var v := Visited(env, start, readAt, run);
    if env.lookup(start + 1, v.row.owner.value) == Unavailable {
      position.value := from;
      return MetadataFailure, start + 2, from, 0;
    }
    recovered := 0;
    if Dead(env, v) {
      if env.fails(start + 3) {
        return Aborted, start + 4, from, 0;
      }
      if UpdateMatches(env, v) {
        recovered := 1;
      }
    }
    RecoveriesSplit([], [v]);
    return More, start + 4, run, recovered;
  }

  /** The inner loop, over the rows of one page. */
  method ReconcileRows(env: Env, start: nat, readAt: nat, from: int, page: seq<RunId>, position: ScanPosition)
    returns (end: End, k: nat, cursor: int, recovered: nat)
    requires PageOf(env, readAt, page)
    modifies position
    ensures var p := ScanRows(env, start, readAt, from, old(position.value), page);
            && end == p.end && k == p.k && cursor == p.cursor && recovered == Recoveries(p.visits)
            && position.value == p.saved
  {
    ghost var saved, visits := position.value, [];
    ghost var all := ScanRows(env, start, readAt, from, saved, page);
    end, k, cursor, recovered := More, start, from, 0;
    for i := 0 to |page|
      invariant all == Prefixed(visits, ScanRows(env, k, readAt, cursor, saved, page[i..]))
      invariant end == More && recovered == Recoveries(visits) && position.value == saved
    {
      ScanRowsStep(env, k, readAt, cursor, saved, page, i, visits);
      visits := visits + ScanRow(env, k, readAt, cursor, saved, page[i]).visits;
      var count;
      end, k, cursor, count := ReconcileRow(env, k, readAt, cursor, page[i], position);
      recovered := recovered + count;
      if end != More {
        return;
      }
    }
    assert visits + [] == visits;
  }

  /** One round of the outer loop: the budget check, the page query and the page's rows. */
  method ReconcilePage(env: Env, start: nat, from: int, size: nat, position: ScanPosition)
    returns (end: End, k: nat, cursor: int, recovered: nat)
    modifies position
    ensures var saved := old(position.value);
            var p := ScanPage(env, start, from, saved, size);
            && end == p.end && k == p.k && cursor == p.cursor && recovered == Recoveries(p.visits)
            && position.value == p.saved
  {
    if !env.budget(start) {
      position.value := from;
      return OutOfBudget, start + 1, from, 0;
    }
    if env.fails(start + 1) {
      return Aborted, start + 2, from, 0;
    }
    var page := Page(env.table(start + 1), from, size);
    if page == [] {
      position.value := 0;
      return Completed, start + 2, from, 0;
    }
    end, k, cursor, recovered := ReconcileRows(env, start + 2, start + 1, from, page, position);
  }

  /** The next page: its place in the scan. */
  lemma ScanStep(env: Env, k: nat, cursor: int, size: nat, visits: seq<Visit>)
    ensures var p, q := ScanPage(env, k, cursor, cursor, size), Prefixed(visits, Scan(env, k, cursor, cursor, size));
            && Recoveries(visits + p.visits) == Recoveries(visits) + Recoveries(p.visits)
            && (if p.end != More then q.end == p.end && q.saved == p.saved && q.visits == visits + p.visits
                else q == Prefixed(visits + p.visits, Scan(env, p.k, p.cursor, p.cursor, size)))
  {
    var p := ScanPage(env, k, cursor, cursor, size);
    RecoveriesSplit(visits, p.visits);
    if p.end == More {
      PrefixedTwice(visits, p.visits, Scan(env, p.k, p.cursor, p.cursor, size));
    }
  }

  /** The outer loop, up to the step that ends the tick. */
  method ReconcilePages(env: Env, start: nat, size: nat, position: ScanPosition) returns (end: End, recovered: nat)
    modifies position
    ensures var p := Scan(env, start, old(position.value), old(position.value), size);
            end == p.end && recovered == Recoveries(p.visits) && position.value == p.saved
  {
    var k, cursor := start, position.value;
    ghost var scan, visits := Scan(env, k, cursor, cursor, size), [];
    recovered := 0;
    while true
      invariant scan == Prefixed(visits, Scan(env, k, cursor, cursor, size))
      invariant recovered == Recoveries(visits) && position.value == cursor
      decreases MAX_ID - cursor
    {
      ScanStep(env, k, cursor, size, visits);
      visits := visits + ScanPage(env, k, cursor, cursor, size).visits;
      var count;
      end, k, cursor, count := ReconcilePage(env, k, cursor, size, position);
      recovered := recovered + count;
      if end != More {
        return;
      }
      position.value := cursor;
    }
  }

  /** `reconcile_collection_runs`; a call without a position is a call with a new one. */
  method ReconcileCollectionRuns(env: Env, start: nat, size: nat, position: ScanPosition)
    returns (result: Result<nat, TickError>)
    modifies position
    ensures var p := Scan(env, start, old(position.value), old(position.value), size);
            && (result == Err(RecoveryMetadataUnavailable) <==> p.end == MetadataFailure)
            && (result == Err(TickAborted) <==> p.end == Aborted)
            && (result.Ok? ==> result.value == |RecoveredOf(p.visits)|)
            && position.value == p.saved
  {
    var end, recovered := ReconcilePages(env, start, size, position);
    RecoveriesCount(Scan(env, start, old(position.value), old(position.value), size).visits);
    if end == MetadataFailure {
      return Err(RecoveryMetadataUnavailable);
    }
    if end == Aborted {
      return Err(TickAborted);
    }
    return Ok(recovered);
  }
}
