/**
 The analytics cache against the snapshot table. Collectors and refreshes exclude each other through one advisory
 lock; readers take no lock. A run is any interleaving of their steps under a strictly increasing clock.
 */
module AnalyticsCache {
  import opened Common
  import opened TimeUtils

  type AirportId = int
  type LotId = int
  type ProcessId = int

  const MAX_ANALYTICS_CACHE_AGE: int := 10 * MINUTE

  datatype Row = Row(id: int, airport: AirportId, lot: LotId, observedAt: int, collectedAt: int)

  /** A cache key: `metric` stands for the metric and its parameters; no airport or no lot is a wildcard. */
  datatype Key = Key(metric: int, airport: Option<AirportId>, lot: Option<LotId>)

  /** A cached result: its watermark and the in-scope rows that were loaded for it. */
  datatype Entry = Entry(generatedAt: int, basis: set<Row>)

  predicate Matches(row: Row, key: Key) {
    && (key.airport.Some? ==> row.airport == key.airport.value)
    && (key.lot.Some? ==> row.lot == key.lot.value)
  }

  function InScope(rows: set<Row>, key: Key): set<Row> {
    set row | row in rows && Matches(row, key)
  }

  function OfAirport(rows: set<Row>, airport: AirportId): set<Row> {
    set row | row in rows && row.airport == airport
  }

  datatype Lock = Free | Collector(collector: ProcessId) | Refresher(refresher: ProcessId)

  /** A refresh: its watermark, the rows it has loaded per airport, and the entries it has not committed yet. */
  datatype Refresh = Refresh(locked: bool, generatedAt: int, loaded: map<AirportId, set<Row>>, pending: map<Key, Entry>)

  /** `draft` are the uncommitted inserts of the collector that holds the lock; `checks` the readers' `checked_at`. */
  datatype State = State(
    clock: int, lock: Lock, visible: set<Row>, draft: set<Row>,
    refreshes: map<ProcessId, Refresh>, entries: map<Key, Entry>, checks: map<ProcessId, int>)

  datatype Action =
    | TakeLease(collector: ProcessId)
    | Insert(collector: ProcessId, id: int, airport: AirportId, lot: LotId, observedAt: int)
    | CommitRows(collector: ProcessId)
    | RollbackRows(collector: ProcessId)
    | ReleaseLease(collector: ProcessId)
    | BeginRefresh(refresher: ProcessId)
    | BeginUnlockedRefresh(refresher: ProcessId)
    | Load(refresher: ProcessId, airport: AirportId)
    | Store(refresher: ProcessId, key: Key)
    | CommitRefresh(refresher: ProcessId)
    | RollbackRefresh(refresher: ProcessId)
    | Check(reader: ProcessId)

  datatype Event = At(time: int, action: Action)

  const EMPTY: State := State(-1, Free, {}, {}, map[], map[], map[])

  // ----- steps -----

  predicate CollectorAction(a: Action) {
    a.TakeLease? || a.Insert? || a.CommitRows? || a.RollbackRows? || a.ReleaseLease?
  }

  function CollectorStep(s: State, a: Action): Option<State>
    requires CollectorAction(a)
  {
    if a.TakeLease? then
      if s.lock != Free then None else Some(s.(lock := Collector(a.collector), draft := {}))
    else if s.lock != Collector(a.collector) then None
    else match a
         case Insert(_, id, airport, lot, observedAt) =>
           Some(s.(draft := s.draft + {Row(id, airport, lot, observedAt, s.clock)}))
         case CommitRows(_) => Some(s.(visible := s.visible + s.draft, draft := {}))
         case RollbackRows(_) => Some(s.(draft := {}))
         case ReleaseLease(_) => Some(s.(lock := Free, draft := {}))
  }

  function Released(s: State, refresher: ProcessId): Lock {
    if s.lock == Refresher(refresher) then Free else s.lock
  }

  function StoreStep(s: State, refresher: ProcessId, key: Key): Option<State>
    requires refresher in s.refreshes
  {
    var r := s.refreshes[refresher];
    if key.airport.None? || key.airport.value !in r.loaded then None
    else
      var entry := Entry(r.generatedAt, InScope(r.loaded[key.airport.value], key));
      Some(s.(refreshes := s.refreshes[refresher := r.(pending := r.pending[key := entry])]))
  }

  function RefreshStep(s: State, a: Action): Option<State>
    requires !CollectorAction(a) && !a.Check?
  {
    if a.BeginRefresh? || a.BeginUnlockedRefresh? then
      if a.refresher in s.refreshes || (a.BeginRefresh? && s.lock != Free) then None
      else Some(s.(lock := if a.BeginRefresh? then Refresher(a.refresher) else s.lock,
                   refreshes := s.refreshes[a.refresher := Refresh(a.BeginRefresh?, s.clock, map[], map[])]))
    else if a.refresher !in s.refreshes then None
    else
      var r := s.refreshes[a.refresher];
      match a
      case Load(_, airport) =>
        Some(s.(refreshes := s.refreshes[a.refresher :=
            r.(loaded := r.loaded[airport := OfAirport(s.visible, airport)])]))
      case Store(_, key) => StoreStep(s, a.refresher, key)
      case CommitRefresh(_) =>
        Some(s.(entries := s.entries + r.pending, lock := Released(s, a.refresher),
            refreshes := s.refreshes - {a.refresher}))
      case RollbackRefresh(_) =>
        Some(s.(lock := Released(s, a.refresher), refreshes := s.refreshes - {a.refresher}))
  }

  /** The next state, or None when the step cannot be taken (the lock is not free, the process does not run). */
  function Step(s0: State, e: Event): Option<State> {
    if e.time <= s0.clock then None
    else
      var s := s0.(clock := e.time);
      if CollectorAction(e.action) then CollectorStep(s, e.action)
      else if e.action.Check? then Some(s.(checks := s.checks[e.action.reader := e.time]))
      else RefreshStep(s, e.action)
  }

  function After(s: State, es: seq<Event>): State
    decreases |es|
  {
    if es == [] then s
    else match Step(s, es[0])
         case None => After(s, es[1..])
         case Some(t) => After(t, es[1..])
  }

  /** The query of `load_cached_analytics`, run in state `s` by a reader that has read the clock. */
  predicate Hit(s: State, reader: ProcessId, key: Key) {
    && reader in s.checks && key in s.entries
    && var checked, generated := s.checks[reader], s.entries[key].generatedAt;
       && checked - MAX_ANALYTICS_CACHE_AGE <= generated <= checked
       && !exists row :: row in s.visible && Matches(row, key) && row.collectedAt > generated
  }

  // ----- the invariant -----

  /** An entry holds exactly the visible rows collected up to its watermark. */
  ghost predicate Exact(visible: set<Row>, key: Key, entry: Entry) {
    && entry.basis <= visible
    && forall row :: row in visible ==>
        (row in entry.basis <==> Matches(row, key) && row.collectedAt <= entry.generatedAt)
  }

  /** A refresh holds the lock; every visible row is older than its watermark and all it has loaded is current. */
  ghost predicate RefreshInv(s: State, refresher: ProcessId, r: Refresh) {
    && r.locked && s.lock == Refresher(refresher) && r.generatedAt <= s.clock
    && (forall row :: row in s.visible ==> row.collectedAt <= r.generatedAt)
    && (forall airport :: airport in r.loaded ==> r.loaded[airport] == OfAirport(s.visible, airport))
    && (forall key :: key in r.pending ==>
          r.pending[key].generatedAt == r.generatedAt && r.pending[key].basis == InScope(s.visible, key))
  }

  ghost predicate Inv(s: State) {
    && (!s.lock.Collector? ==> s.draft == {})
    && (forall row :: row in s.visible + s.draft ==> row.collectedAt <= s.clock)
    && (forall key :: key in s.entries ==>
          && s.entries[key].generatedAt <= s.clock && Exact(s.visible, key, s.entries[key])
          && forall row :: row in s.draft ==> row.collectedAt > s.entries[key].generatedAt)
    && (forall r :: r in s.refreshes ==> RefreshInv(s, r, s.refreshes[r]))
  }

  lemma TickKeepsInv(s: State, time: int)
    requires Inv(s) && time > s.clock
    ensures Inv(s.(clock := time))
  {
    forall r | r in s.refreshes ensures RefreshInv(s.(clock := time), r, s.refreshes[r]) {
      assert RefreshInv(s, r, s.refreshes[r]);
    }
  }

  lemma CollectorStepKeepsInv(s: State, a: Action)
    requires Inv(s) && CollectorAction(a) && CollectorStep(s, a).Some?
    requires forall row :: row in s.visible + s.draft ==> row.collectedAt < s.clock
    requires forall key :: key in s.entries ==> s.entries[key].generatedAt < s.clock
    ensures Inv(CollectorStep(s, a).value)
  {
    var t := CollectorStep(s, a).value;
    forall key | key in t.entries ensures Exact(t.visible, key, t.entries[key]) {
      assert Exact(s.visible, key, s.entries[key]);
    }
  }

  lemma StoreKeepsInv(s: State, refresher: ProcessId, key: Key)
    requires Inv(s) && refresher in s.refreshes && StoreStep(s, refresher, key).Some?
    ensures Inv(StoreStep(s, refresher, key).value)
  {
    var t, r := StoreStep(s, refresher, key).value, s.refreshes[refresher];
    assert RefreshInv(s, refresher, r);
    assert InScope(r.loaded[key.airport.value], key) == InScope(s.visible, key);
    forall p | p in t.refreshes ensures RefreshInv(t, p, t.refreshes[p]) {
      assert RefreshInv(s, p, s.refreshes[p]);
    }
  }

  lemma RefreshStepKeepsInv(s: State, a: Action)
    requires Inv(s) && !CollectorAction(a) && !a.Check? && !a.BeginUnlockedRefresh? && RefreshStep(s, a).Some?
    ensures Inv(RefreshStep(s, a).value)
  {
    var t := RefreshStep(s, a).value;
    if a.Store? {
      StoreKeepsInv(s, a.refresher, a.key);
    } else {
      if !a.BeginRefresh? {
        assert RefreshInv(s, a.refresher, s.refreshes[a.refresher]);
      }
      forall p | p in t.refreshes ensures RefreshInv(t, p, t.refreshes[p]) {
        assert p in s.refreshes ==> RefreshInv(s, p, s.refreshes[p]);
      }
      forall key | key in t.entries ensures Exact(t.visible, key, t.entries[key]) {
        assert key in s.entries ==> Exact(s.visible, key, s.entries[key]);
      }
    }
  }

  lemma StepKeepsInv(s: State, e: Event)
    requires Inv(s) && Step(s, e).Some? && !e.action.BeginUnlockedRefresh?
    ensures Inv(Step(s, e).value)
  {
    TickKeepsInv(s, e.time);
    var now := s.(clock := e.time);
    if CollectorAction(e.action) {
      CollectorStepKeepsInv(now, e.action);
    } else if e.action.Check? {
      var t := Step(s, e).value;
      forall p | p in t.refreshes ensures RefreshInv(t, p, t.refreshes[p]) {
        assert RefreshInv(now, p, now.refreshes[p]);
      }
    } else {
      RefreshStepKeepsInv(now, e.action);
    }
  }

  ghost predicate AllRefreshesLocked(es: seq<Event>) {
    forall i :: 0 <= i < |es| ==> !es[i].action.BeginUnlockedRefresh?
  }

  lemma {:induction false} AfterKeepsInv(s: State, es: seq<Event>)
    requires Inv(s) && AllRefreshesLocked(es)
    ensures Inv(After(s, es))
    decreases |es|
  {
    if es != [] {
      if Step(s, es[0]).Some? {
        StepKeepsInv(s, es[0]);
        AfterKeepsInv(Step(s, es[0]).value, es[1..]);
      } else {
        AfterKeepsInv(s, es[1..]);
      }
    }
  }

  // ----- main results -----

  /** The row belongs to the airport and the lot of the key, as far as the key names them. */
  ghost predicate Concerns(row: Row, key: Key) {
    (key.airport.None? || row.airport == key.airport.value) && (key.lot.None? || row.lot == key.lot.value)
  }

  /** The entry was computed from exactly the rows of its scope that are visible now. */
  ghost predicate IsCurrent(s: State, key: Key)
    requires key in s.entries
  {
    forall row :: row in s.entries[key].basis <==> row in s.visible && Concerns(row, key)
  }

  /**
   In every run of locked refreshes: a reader is served from the cache exactly when the entry's age is at most 10
   minutes and it was computed from exactly the in-scope rows visible now. No committed row is ever missed, and no
   current entry is refused.
   */
  lemma HitIffCurrent(es: seq<Event>, reader: ProcessId, key: Key)
    requires AllRefreshesLocked(es)
    ensures var s := After(EMPTY, es);
            Hit(s, reader, key) <==>
              && reader in s.checks && key in s.entries
              && 0 <= s.checks[reader] - s.entries[key].generatedAt <= 10 * MINUTE
              && IsCurrent(s, key)
  {
    AfterKeepsInv(EMPTY, es);
    var s := After(EMPTY, es);
    if key in s.entries {
      assert Exact(s.visible, key, s.entries[key]);
    }
  }

  /** Committing rows outside a key's scope leaves its hits as they are. */
  lemma OtherScopesDoNotInvalidate(s: State, e: Event, reader: ProcessId, key: Key)
    requires Step(s, e).Some? && e.action.CommitRows? && Hit(s, reader, key)
    requires forall row :: row in s.draft ==> !Concerns(row, key)
    ensures Hit(Step(s, e).value, reader, key)
  {
    var t := Step(s, e).value;
    forall row | row in t.visible && Matches(row, key) ensures row.collectedAt <= s.entries[key].generatedAt {
      assert row in s.visible;
    }
  }

  lemma AfterCons(s: State, e: Event, es: seq<Event>)
    requires Step(s, e).Some?
    ensures After(s, [e] + es) == After(Step(s, e).value, es)
  {
    assert ([e] + es)[1..] == es;
  }

  // ----- where visible rows come from -----

  lemma {:induction false} AfterLast(s: State, es: seq<Event>)
    requires es != []
    ensures var before, e := After(s, es[..|es| - 1]), es[|es| - 1];
            After(s, es) == if Step(before, e).Some? then Step(before, e).value else before
    decreases |es|
  {
    if |es| > 1 {
      assert es[..|es| - 1][1..] == es[1..][..|es| - 2];
      AfterLast(if Step(s, es[0]).Some? then Step(s, es[0]).value else s, es[1..]);
    }
  }

  /** Event `i` is the insert of the row by that collector; the row bears the time of the event. */
  ghost predicate InsertedAt(es: seq<Event>, i: nat, collector: ProcessId, row: Row) {
    && i < |es| && es[i].action.Insert? && es[i].action.collector == collector
    && row.id == es[i].action.id && row.airport == es[i].action.airport && row.lot == es[i].action.lot
    && row.observedAt == es[i].action.observedAt && row.collectedAt == es[i].time
  }

  /** An uncommitted row was inserted by the collector that holds the lock. */
  lemma {:induction false} DraftWasInserted(es: seq<Event>, row: Row) returns (i: nat)
    requires row in After(EMPTY, es).draft
    ensures After(EMPTY, es).lock.Collector? && InsertedAt(es, i, After(EMPTY, es).lock.collector, row)
  {
    if es == [] {
      assert false;
    } else {
      var front := es[..|es| - 1];
      AfterLast(EMPTY, es);
      if row in After(EMPTY, front).draft {
        i := DraftWasInserted(front, row);
      } else {
        i := |front|;
      }
    }
  }

  /**
   In every run, a visible row was inserted, as it is, by a collector that later committed it: a row that is rolled back
   never becomes visible.
   */
  lemma {:induction false} VisibleWasCommitted(es: seq<Event>, row: Row) returns (i: nat, j: nat)
    requires row in After(EMPTY, es).visible
    ensures i < j < |es| && es[j].action.CommitRows? && InsertedAt(es, i, es[j].action.collector, row)
    ensures row in After(EMPTY, es[..j]).draft
  {
    if es == [] {
      assert false;
    } else {
      var front := es[..|es| - 1];
      AfterLast(EMPTY, es);
      if row in After(EMPTY, front).visible {
        i, j := VisibleWasCommitted(front, row);
        assert es[..j] == front[..j];
      } else {
        i := DraftWasInserted(front, row);
        j := |front|;
      }
    }
  }

  /** What ends a collector's transaction otherwise leaves nothing behind, and only a commit makes rows visible. */
  lemma RollbackLeavesNothing(s: State, e: Event)
    requires Step(s, e).Some?
    requires e.action.RollbackRows? || e.action.ReleaseLease? || e.action.TakeLease?
    ensures Step(s, e).value.draft == {} && Step(s, e).value.visible == s.visible
  {
  }

  /** Entries change only when a refresh commits, and then only those it has stored. */
  lemma OnlyCommitsStoreEntries(s: State, e: Event, key: Key)
    requires Step(s, e).Some?
    ensures var t := Step(s, e).value;
            || ((key in t.entries <==> key in s.entries) && (key in s.entries ==> t.entries[key] == s.entries[key]))
            || (e.action.CommitRefresh? && e.action.refresher in s.refreshes
                && key in s.refreshes[e.action.refresher].pending && key in t.entries
                && t.entries[key] == s.refreshes[e.action.refresher].pending[key])
  {
  }

  // ----- refreshes without the lock -----

  /**
   Any run, locked or not: nothing lies in the future, an uncommitted row is not visible, and a refresh stamps its
   entries with its own watermark.
   */
  ghost predicate Timely(s: State) {
    && s.draft !! s.visible
    && (!s.lock.Collector? ==> s.draft == {})
    && (forall row :: row in s.visible + s.draft ==> row.collectedAt <= s.clock)
    && (forall key :: key in s.entries ==> s.entries[key].generatedAt <= s.clock)
    && (forall r :: r in s.refreshes ==> RefreshTimely(s, s.refreshes[r]))
  }

  ghost predicate RefreshTimely(s: State, r: Refresh) {
    && r.generatedAt <= s.clock
    && forall key :: key in r.pending ==> r.pending[key].generatedAt == r.generatedAt
  }

  lemma CollectorStepKeepsTimely(s: State, a: Action)
    requires Timely(s) && CollectorAction(a) && CollectorStep(s, a).Some?
    requires forall row :: row in s.visible ==> row.collectedAt < s.clock
    ensures Timely(CollectorStep(s, a).value)
  {
    var t := CollectorStep(s, a).value;
    forall r | r in t.refreshes ensures RefreshTimely(t, t.refreshes[r]) {
      assert RefreshTimely(s, s.refreshes[r]);
    }
  }

  lemma RefreshStepKeepsTimely(s: State, a: Action)
    requires Timely(s) && !CollectorAction(a) && !a.Check? && RefreshStep(s, a).Some?
    ensures Timely(RefreshStep(s, a).value)
  {
    var t := RefreshStep(s, a).value;
    forall r | r in t.refreshes ensures RefreshTimely(t, t.refreshes[r]) {
      assert r in s.refreshes ==> RefreshTimely(s, s.refreshes[r]);
    }
    if a.CommitRefresh? {
      assert RefreshTimely(s, s.refreshes[a.refresher]);
    }
  }

  lemma StepKeepsTimely(s: State, e: Event)
    requires Timely(s) && Step(s, e).Some?
    ensures Timely(Step(s, e).value)
  {
    var now := s.(clock := e.time);
    forall r | r in s.refreshes ensures RefreshTimely(now, s.refreshes[r]) {
      assert RefreshTimely(s, s.refreshes[r]);
    }
    if CollectorAction(e.action) {
      CollectorStepKeepsTimely(now, e.action);
    } else if !e.action.Check? {
      RefreshStepKeepsTimely(now, e.action);
    } else {
      forall r | r in s.refreshes ensures RefreshTimely(Step(s, e).value, s.refreshes[r]) {
        assert RefreshTimely(now, s.refreshes[r]);
      }
    }
  }

  lemma {:induction false} AfterKeepsTimely(s: State, es: seq<Event>)
    requires Timely(s)
    ensures Timely(After(s, es))
    decreases |es|
  {
    if es != [] {
      if Step(s, es[0]).Some? {
        StepKeepsTimely(s, es[0]);
        AfterKeepsTimely(Step(s, es[0]).value, es[1..]);
      } else {
        AfterKeepsTimely(s, es[1..]);
      }
    }
  }

  /** `rows` are visible in-scope rows, all those collected up to `watermark` among them. */
  ghost predicate Covers(s: State, key: Key, watermark: int, rows: set<Row>) {
    && rows <= s.visible
    && (forall row :: row in rows ==> Matches(row, key))
    && forall row :: row in s.visible && Matches(row, key) && row.collectedAt <= watermark ==> row in rows
  }

  /** What a refresh that bears the watermark has loaded and computed for the key misses no row up to the watermark. */
  ghost predicate RefreshCovers(s: State, key: Key, watermark: int, r: Refresh) {
    r.generatedAt == watermark ==>
      && (key.airport.Some? && key.airport.value in r.loaded ==>
            r.loaded[key.airport.value] <= s.visible
            && Covers(s, key, watermark, InScope(r.loaded[key.airport.value], key)))
      && (key in r.pending ==> Covers(s, key, watermark, r.pending[key].basis))
  }

  /** No row up to the watermark is still uncommitted, and whatever bears the watermark covers the rows up to it. */
  ghost predicate Safe(s: State, key: Key, watermark: int) {
    && watermark <= s.clock
    && (forall row :: row in s.draft && Matches(row, key) ==> row.collectedAt > watermark)
    && (forall r :: r in s.refreshes ==> RefreshCovers(s, key, watermark, s.refreshes[r]))
    && (key in s.entries && s.entries[key].generatedAt == watermark ==> Covers(s, key, watermark, s.entries[key].basis))
  }

  lemma CollectorStepKeepsSafe(s: State, a: Action, key: Key, watermark: int)
    requires Safe(s, key, watermark) && CollectorAction(a) && CollectorStep(s, a).Some? && watermark < s.clock
    ensures Safe(CollectorStep(s, a).value, key, watermark)
  {
    var t := CollectorStep(s, a).value;
    forall r | r in t.refreshes ensures RefreshCovers(t, key, watermark, t.refreshes[r]) {
      assert RefreshCovers(s, key, watermark, s.refreshes[r]);
    }
  }

  lemma RefreshStepKeepsSafe(s: State, a: Action, key: Key, watermark: int)
    requires Safe(s, key, watermark) && !CollectorAction(a) && !a.Check? && RefreshStep(s, a).Some?
             && watermark < s.clock
    requires forall r :: r in s.refreshes ==> RefreshTimely(s, s.refreshes[r])
    ensures Safe(RefreshStep(s, a).value, key, watermark)
  {
    var t := RefreshStep(s, a).value;
    forall r | r in t.refreshes ensures RefreshCovers(t, key, watermark, t.refreshes[r]) {
      assert r in s.refreshes ==> RefreshCovers(s, key, watermark, s.refreshes[r]);
    }
    if a.CommitRefresh? {
      assert RefreshTimely(s, s.refreshes[a.refresher]) && RefreshCovers(s, key, watermark, s.refreshes[a.refresher]);
    }
  }

  lemma StepKeepsSafe(s: State, e: Event, key: Key, watermark: int)
    requires Timely(s) && Safe(s, key, watermark) && Step(s, e).Some?
    ensures Safe(Step(s, e).value, key, watermark)
  {
    var now := s.(clock := e.time);
    forall r | r in s.refreshes
        ensures RefreshCovers(now, key, watermark, s.refreshes[r]) && RefreshTimely(now, s.refreshes[r]) {
      assert RefreshCovers(s, key, watermark, s.refreshes[r]) && RefreshTimely(s, s.refreshes[r]);
    }
    if CollectorAction(e.action) {
      CollectorStepKeepsSafe(now, e.action, key, watermark);
    } else if !e.action.Check? {
      RefreshStepKeepsSafe(now, e.action, key, watermark);
    } else {
      var t := Step(s, e).value;
      assert forall r :: r in t.refreshes ==> RefreshCovers(now, key, watermark, t.refreshes[r]) ==>
             RefreshCovers(t, key, watermark, t.refreshes[r]);
    }
  }

  lemma {:induction false} AfterKeepsSafe(s: State, es: seq<Event>, key: Key, watermark: int)
    requires Timely(s) && Safe(s, key, watermark)
    ensures Safe(After(s, es), key, watermark)
    decreases |es|
  {
    if es != [] {
      if Step(s, es[0]).Some? {
        StepKeepsSafe(s, es[0], key, watermark);
        StepKeepsTimely(s, es[0]);
        AfterKeepsSafe(Step(s, es[0]).value, es[1..], key, watermark);
      } else {
        AfterKeepsSafe(s, es[1..], key, watermark);
      }
    }
  }

  /** Some row of the scope is inserted and not committed yet. */
  ghost predicate Uncommitted(s: State, key: Key) {
    exists row :: row in s.draft && Concerns(row, key)
  }

  /** A watermark that is read while no row of the scope is uncommitted is safe; under the lock it always is. */
  lemma BeginIsSafe(s: State, e: Event, key: Key)
    requires Timely(s) && Step(s, e).Some? && (e.action.BeginRefresh? || e.action.BeginUnlockedRefresh?)
    requires e.action.BeginUnlockedRefresh? ==> !Uncommitted(s, key)
    ensures Safe(Step(s, e).value, key, e.time)
  {
    var t := Step(s, e).value;
    forall r | r in t.refreshes ensures RefreshCovers(t, key, e.time, t.refreshes[r]) {
      assert r in s.refreshes ==> RefreshTimely(s, s.refreshes[r]);
    }
  }

  /** A hit on an entry with a safe watermark is computed from exactly the in-scope rows visible now. */
  lemma SafeHitIsCurrent(s: State, reader: ProcessId, key: Key)
    requires Hit(s, reader, key) && Safe(s, key, s.entries[key].generatedAt)
    ensures IsCurrent(s, key)
  {
  }

  /** Every unlocked refresh of the run begins while no row of the scope is uncommitted. */
  ghost predicate BeginsClean(s: State, es: seq<Event>, key: Key)
    decreases |es|
  {
    es == [] ||
    match Step(s, es[0])
    case None => BeginsClean(s, es[1..], key)
    case Some(t) => (es[0].action.BeginUnlockedRefresh? ==> !Uncommitted(s, key)) && BeginsClean(t, es[1..], key)
  }

  ghost predicate AllSafe(s: State, key: Key) {
    && (key in s.entries ==> Safe(s, key, s.entries[key].generatedAt))
    && forall r :: r in s.refreshes ==> Safe(s, key, s.refreshes[r].generatedAt)
  }

  lemma StepKeepsAllSafe(s: State, e: Event, key: Key)
    requires Timely(s) && AllSafe(s, key) && Step(s, e).Some?
    requires e.action.BeginUnlockedRefresh? ==> !Uncommitted(s, key)
    ensures AllSafe(Step(s, e).value, key)
  {
    var t := Step(s, e).value;
    if e.action.BeginRefresh? || e.action.BeginUnlockedRefresh? {
      BeginIsSafe(s, e, key);
    }
    forall r | r in s.refreshes ensures Safe(t, key, s.refreshes[r].generatedAt) {
      StepKeepsSafe(s, e, key, s.refreshes[r].generatedAt);
    }
    WatermarksStay(s, e);
    if key in s.entries {
      StepKeepsSafe(s, e, key, s.entries[key].generatedAt);
    }
  }

  /** A step keeps watermarks, begins one with its own time, or stores entries under the watermark of their refresh. */
  lemma WatermarksStay(s: State, e: Event)
    requires Timely(s) && Step(s, e).Some?
    ensures var t := Step(s, e).value;
            && (forall r :: r in t.refreshes ==>
                  (r in s.refreshes && t.refreshes[r].generatedAt == s.refreshes[r].generatedAt)
                  || ((e.action.BeginRefresh? || e.action.BeginUnlockedRefresh?)
                      && t.refreshes[r].generatedAt == e.time))
            && (forall key :: key in t.entries ==>
                  (key in s.entries && t.entries[key] == s.entries[key])
                  || (e.action.CommitRefresh? && e.action.refresher in s.refreshes
                      && t.entries[key].generatedAt == s.refreshes[e.action.refresher].generatedAt))
  {
    if e.action.CommitRefresh? {
      assert RefreshTimely(s, s.refreshes[e.action.refresher]);
    }
  }

  lemma {:induction false} AfterKeepsAllSafe(s: State, es: seq<Event>, key: Key)
    requires Timely(s) && AllSafe(s, key) && BeginsClean(s, es, key)
    ensures AllSafe(After(s, es), key)
    decreases |es|
  {
    if es != [] {
      if Step(s, es[0]).Some? {
        StepKeepsAllSafe(s, es[0], key);
        StepKeepsTimely(s, es[0]);
        AfterKeepsAllSafe(Step(s, es[0]).value, es[1..], key);
      } else {
        AfterKeepsAllSafe(s, es[1..], key);
      }
    }
  }

  /** With or without the lock: if every unlocked refresh begins clean, no hit ever misses a committed row. */
  lemma CleanRefreshesNeverMissARow(es: seq<Event>, reader: ProcessId, key: Key)
    requires BeginsClean(EMPTY, es, key) && Hit(After(EMPTY, es), reader, key)
    ensures IsCurrent(After(EMPTY, es), key)
  {
    AfterKeepsAllSafe(EMPTY, es, key);
    SafeHitIsCurrent(After(EMPTY, es), reader, key);
  }

  /** A hit on an entry with that watermark which misses a visible row or holds a foreign one. */
  ghost predicate StaleHit(s: State, reader: ProcessId, key: Key, watermark: int) {
    Hit(s, reader, key) && s.entries[key].generatedAt == watermark && !IsCurrent(s, key)
  }

  ghost predicate LeadsToStaleHit(s: State, key: Key, watermark: int) {
    exists es, reader :: StaleHit(After(s, es), reader, key, watermark)
  }

  lemma StaleHitLater(s: State, e: Event, key: Key, watermark: int)
    requires Step(s, e).Some? && LeadsToStaleHit(Step(s, e).value, key, watermark)
    ensures LeadsToStaleHit(s, key, watermark)
  {
    var es, reader :| StaleHit(After(Step(s, e).value, es), reader, key, watermark);
    AfterCons(s, e, es);
    assert StaleHit(After(s, [e] + es), reader, key, watermark);
  }

  /** The entry is computed, but a row of the scope up to the watermark is not committed yet. */
  ghost predicate Misses(s: State, key: Key, watermark: int, row: Row) {
    && row in s.draft && Matches(row, key) && row.collectedAt <= watermark
    && (forall other :: other in s.visible + s.draft ==> other.collectedAt <= watermark)
    && s.lock.Collector? && row !in s.visible
  }

  /** The collector commits first, then the refresh, and a reader is served without the row. */
  lemma MissedRowIsServed(s: State, refresher: ProcessId, key: Key, row: Row)
    requires refresher in s.refreshes && key in s.refreshes[refresher].pending
    requires var entry := s.refreshes[refresher].pending[key];
             && Misses(s, key, entry.generatedAt, row) && row !in entry.basis
             && entry.generatedAt <= s.clock <= entry.generatedAt + 2
    ensures LeadsToStaleHit(s, key, s.refreshes[refresher].pending[key].generatedAt)
  {
    var entry := s.refreshes[refresher].pending[key];
    var e1, e2, e3 := At(s.clock + 1, CommitRows(s.lock.collector)), At(s.clock + 2, CommitRefresh(refresher)),
        At(s.clock + 3, Check(0));
    var s1 := Step(s, e1).value;
    var s2 := Step(s1, e2).value;
    var s3 := Step(s2, e3).value;
    assert row in InScope(s3.visible, key);
    assert StaleHit(After(s3, []), 0, key, entry.generatedAt);
    StaleHitLater(s2, e3, key, entry.generatedAt);
    StaleHitLater(s1, e2, key, entry.generatedAt);
    StaleHitLater(s, e1, key, entry.generatedAt);
  }

  /** A refresh that has just begun loads, computes and misses the row. */
  lemma BegunRefreshMisses(s: State, refresher: ProcessId, key: Key, row: Row)
    requires refresher in s.refreshes && s.refreshes[refresher].generatedAt == s.clock && key.airport.Some?
    requires Misses(s, key, s.clock, row)
    ensures LeadsToStaleHit(s, key, s.clock)
  {
    var e1, e2 := At(s.clock + 1, Load(refresher, key.airport.value)), At(s.clock + 2, Store(refresher, key));
    var s1 := Step(s, e1).value;
    var s2 := Step(s1, e2).value;
    MissedRowIsServed(s2, refresher, key, row);
    StaleHitLater(s1, e2, key, s.clock);
    StaleHitLater(s, e1, key, s.clock);
  }

  /**
   The condition is exact. After any run, an unlocked refresh that begins now can be the source of a hit that misses a
   committed row, for a key with an airport, if and only if some row of the scope is uncommitted when it begins.
   */
  lemma UnlockedRefreshMissesIff(before: seq<Event>, time: int, refresher: ProcessId, key: Key)
    requires var s := After(EMPTY, before); time > s.clock && refresher !in s.refreshes && key.airport.Some?
    ensures var s := After(EMPTY, before);
            LeadsToStaleHit(Step(s, At(time, BeginUnlockedRefresh(refresher))).value, key, time)
            <==> Uncommitted(s, key)
  {
    AfterKeepsTimely(EMPTY, before);
    var s, e := After(EMPTY, before), At(time, BeginUnlockedRefresh(refresher));
    var t := Step(s, e).value;
    if Uncommitted(s, key) {
      var row :| row in s.draft && Matches(row, key);
      BegunRefreshMisses(t, refresher, key, row);
    } else {
      BeginIsSafe(s, e, key);
      StepKeepsTimely(s, e);
      forall es, reader ensures !StaleHit(After(t, es), reader, key, time) {
        AfterKeepsSafe(t, es, key, time);
        if Hit(After(t, es), reader, key) && After(t, es).entries[key].generatedAt == time {
          SafeHitIsCurrent(After(t, es), reader, key);
        }
      }
    }
  }

  /**
   So a refresh without the lock, like `refresh_scope_analytics_cache` called on its own, can serve a result that misses
   a committed row collected before its watermark.
   */
  lemma UnlockedRefreshCanMissARow()
    ensures exists es, reader, key ::
              var s := After(EMPTY, es); Hit(s, reader, key) && !IsCurrent(s, key)
  {
    var key, before := Key(0, Some(5), None), [At(1, TakeLease(1)), At(2, Insert(1, 1, 5, 6, 0))];
    var leased := Step(EMPTY, before[0]).value;
    var inserted := Step(leased, before[1]).value;
    assert before[1..] == [before[1]] && After(inserted, []) == inserted && After(leased, before[1..]) == inserted;
    assert After(EMPTY, before) == inserted;
    assert Row(1, 5, 6, 0, 2) in inserted.draft;
    UnlockedRefreshMissesIff(before, 3, 9, key);
    StaleHitLater(inserted, At(3, BeginUnlockedRefresh(9)), key, 3);
    var es, reader :| StaleHit(After(inserted, es), reader, key, 3);
    AfterAppend(EMPTY, before, es);
    assert After(EMPTY, before + es) == After(inserted, es);
  }

  lemma {:induction false} AfterAppend(s: State, es: seq<Event>, more: seq<Event>)
    ensures After(s, es + more) == After(After(s, es), more)
    decreases |es|
  {
    if es == [] {
      assert es + more == more;
    } else {
      assert (es + more)[0] == es[0] && (es + more)[1..] == es[1..] + more;
      match Step(s, es[0])
      case None => AfterAppend(s, es[1..], more);
      case Some(t) => AfterAppend(t, es[1..], more);
    }
  }

  // ----- the refresh itself -----

  // The metrics, each with its default parameters.
  const TIMESERIES: int := 0
  const WEEKDAY_HOUR: int := 1
  const THRESHOLD_EVENTS: int := 2
  const THRESHOLD_INSIGHTS: int := 3
  const METRICS: int := 4

  /** The days of history a metric is computed from, and the minutes before them that its first bucket needs. */
  function Days(metric: int): int {
    if metric == TIMESERIES then 7 else if metric == THRESHOLD_INSIGHTS then 21 else 14
  }

  function BufferMinutes(metric: int): int {
    if metric == TIMESERIES || metric == THRESHOLD_INSIGHTS then 10 else 0
  }

  /** `_snapshots_in_window` at the time `now`. */
  function InWindow(rows: set<Row>, metric: int, now: int): set<Row> {
    set row | row in rows && row.observedAt >= now - Days(metric) * DAY - BufferMinutes(metric) * MINUTE
  }

  /** `_load_snapshots` of an airport, with the window of the threshold insights. */
  function Loaded(rows: set<Row>, airport: AirportId, now: int): set<Row> {
    InWindow(OfAirport(rows, airport), THRESHOLD_INSIGHTS, now)
  }

  function OfLot(rows: set<Row>, lot: Option<LotId>): set<Row> {
    set row | row in rows && (lot.Some? ==> row.lot == lot.value)
  }

  /** The rows a metric is computed from, whatever was loaded before. */
  function Window(rows: set<Row>, key: Key, now: int): set<Row> {
    InWindow(InScope(rows, key), key.metric, now)
  }

  /** One load serves the four metrics: the window of each, taken later, lies within what was loaded. */
  lemma LoadIsWideEnough(rows: set<Row>, airport: AirportId, lot: Option<LotId>, metric: int, loadedAt: int, now: int)
    requires loadedAt <= now && 0 <= metric < METRICS
    ensures InWindow(OfLot(Loaded(rows, airport, loadedAt), lot), metric, now)
            == Window(rows, Key(metric, Some(airport), lot), now)
  {
    var key := Key(metric, Some(airport), lot);
    forall row ensures row in InWindow(OfLot(Loaded(rows, airport, loadedAt), lot), metric, now)
        <==> row in Window(rows, key, now) {
      assert Days(metric) * DAY + BufferMinutes(metric) * MINUTE
             <= Days(THRESHOLD_INSIGHTS) * DAY + BufferMinutes(THRESHOLD_INSIGHTS) * MINUTE;
    }
  }

  /** A stored result: its watermark and the rows it was computed from. */
  datatype Stored = Stored(generatedAt: int, rows: set<Row>)

  function ScopeCount(airports: seq<AirportId>, lots: AirportId -> seq<LotId>): nat {
    if airports == [] then 0
    else ScopeCount(airports[..|airports| - 1], lots) + 1 + |lots(airports[|airports| - 1])|
  }

  function Lookup(entries: map<Key, Stored>, key: Key): Option<Stored> {
    if key in entries then Some(entries[key]) else None
  }

  /** The keys a refresh writes for one airport. */
  predicate AirportKey(airport: AirportId, lots: seq<LotId>, key: Key) {
    && 0 <= key.metric < METRICS && key.airport == Some(airport)
    && (key.lot.None? || key.lot.value in lots)
  }

  /** The keys a refresh writes. */
  predicate Refreshed(airports: seq<AirportId>, lots: AirportId -> seq<LotId>, key: Key) {
    && key.airport.Some? && key.airport.value in airports
    && AirportKey(key.airport.value, lots(key.airport.value), key)
  }

  /**
   The rows of the scope that the metric needs at `now`: 14 days of them, for the time series 7 days and 10 minutes, for
   the threshold insights 21 days and 10 minutes.
   */
  ghost predicate IsWindow(stored: set<Row>, rows: set<Row>, key: Key, now: int) {
    forall row :: row in stored <==>
      && row in rows && Concerns(row, key)
      && now - row.observedAt <= if key.metric == 0 then 7 * DAY + 10 * MINUTE
                                 else if key.metric == 3 then 21 * DAY + 10 * MINUTE
                                 else 14 * DAY
  }

  /** The key belongs to one of the four metrics, an airport and, if it names a lot, one of its lots. */
  ghost predicate IsDefaultKey(airports: seq<AirportId>, lots: AirportId -> seq<LotId>, key: Key) {
    && 0 <= key.metric < 4 && key.airport.Some? && key.airport.value in airports
    && (key.lot.Some? ==> key.lot.value in lots(key.airport.value))
  }

  /** Every default key has the rows of its window under the watermark; every other entry is the one before. */
  ghost predicate IsRefreshed(
      before: map<Key, Stored>, after: map<Key, Stored>, rows: set<Row>, airports: seq<AirportId>,
      lots: AirportId -> seq<LotId>, generatedAt: int, clock: Key -> int)
  {
    forall key ::
      if IsDefaultKey(airports, lots, key)
      then key in after && after[key].generatedAt == generatedAt && IsWindow(after[key].rows, rows, key, clock(key))
      else (key in after <==> key in before) && (key in before ==> after[key] == before[key])
  }

  lemma RefreshedIsDefault(before: map<Key, Stored>, after: map<Key, Stored>, rows: set<Row>,
      airports: seq<AirportId>, lots: AirportId -> seq<LotId>, generatedAt: int, clock: Key -> int)
    requires forall key: Key ::
               Lookup(after, key) == if Refreshed(airports, lots, key)
                                     then Some(Stored(generatedAt, Window(rows, key, clock(key))))
                                     else Lookup(before, key)
    ensures IsRefreshed(before, after, rows, airports, lots, generatedAt, clock)
  {
    forall key: Key
      ensures if IsDefaultKey(airports, lots, key)
              then key in after && after[key].generatedAt == generatedAt
                   && IsWindow(after[key].rows, rows, key, clock(key))
              else (key in after <==> key in before) && (key in before ==> after[key] == before[key])
    {
      assert Refreshed(airports, lots, key) <==> IsDefaultKey(airports, lots, key);
      assert Lookup(after, key) == if Refreshed(airports, lots, key)
                                   then Some(Stored(generatedAt, Window(rows, key, clock(key))))
                                   else Lookup(before, key);
    }
  }

  class AnalyticsCacheTable {
    /** Unique per key, as `uq_analytics_cache_scope` demands. */
    var entries: map<Key, Stored>

    constructor ()
      ensures entries == map[]
    {
      entries := map[];
    }

    /** `store_cached_analytics`: the row of the key is updated in place, or added. */
    method Store(key: Key, rows: set<Row>, generatedAt: int)
      modifies this
      ensures entries == old(entries)[key := Stored(generatedAt, rows)]
    {
      entries := entries[key := Stored(generatedAt, rows)];
    }

    /** The four results of one scope, from the loaded rows; `clock(key)` is the time at which its window is taken. */
    method RefreshScope(snapshots: set<Row>, airport: AirportId, lot: Option<LotId>, generatedAt: int,
        clock: Key -> int)
      returns (refreshed: nat)
      modifies this
      ensures refreshed == METRICS
      ensures forall key: Key ::
                Lookup(entries, key) == if key.airport == Some(airport) && key.lot == lot && 0 <= key.metric < METRICS
                                       then Some(Stored(generatedAt, InWindow(snapshots, key.metric, clock(key))))
                                       else Lookup(old(entries), key)
    {
      var key := Key(TIMESERIES, Some(airport), lot);
      Store(key, InWindow(snapshots, TIMESERIES, clock(key)), generatedAt);
      key := Key(WEEKDAY_HOUR, Some(airport), lot);
      Store(key, InWindow(snapshots, WEEKDAY_HOUR, clock(key)), generatedAt);
      key := Key(THRESHOLD_EVENTS, Some(airport), lot);
      Store(key, InWindow(snapshots, THRESHOLD_EVENTS, clock(key)), generatedAt);
      key := Key(THRESHOLD_INSIGHTS, Some(airport), lot);
      Store(key, InWindow(snapshots, THRESHOLD_INSIGHTS, clock(key)), generatedAt);
      return 4;
    }

    /** The scopes of one airport, from one load. */
    method RefreshAirport(rows: set<Row>, airport: AirportId, lots: seq<LotId>, generatedAt: int, loadedAt: int,
        clock: Key -> int)
      returns (refreshed: nat)
      requires forall key: Key :: key.airport == Some(airport) ==> loadedAt <= clock(key)
      modifies this
      ensures refreshed == METRICS * (1 + |lots|)
      ensures forall key: Key ::
                Lookup(entries, key) == if AirportKey(airport, lots, key)
                                       then Some(Stored(generatedAt, Window(rows, key, clock(key))))
                                       else Lookup(old(entries), key)
    {
      var snapshots := Loaded(rows, airport, loadedAt);
      forall key: Key | key.airport == Some(airport) && 0 <= key.metric < METRICS
        ensures InWindow(OfLot(snapshots, key.lot), key.metric, clock(key)) == Window(rows, key, clock(key))
      {
        LoadIsWideEnough(rows, airport, key.lot, key.metric, loadedAt, clock(key));
      }
      refreshed := RefreshScope(OfLot(snapshots, None), airport, None, generatedAt, clock);
      for i := 0 to |lots|
        invariant refreshed == METRICS * (1 + i)
        invariant forall key: Key ::
                    Lookup(entries, key) == if AirportKey(airport, lots[..i], key)
                                           then Some(Stored(generatedAt, Window(rows, key, clock(key))))
                                           else Lookup(old(entries), key)
      {
        var count := RefreshScope(OfLot(snapshots, Some(lots[i])), airport, Some(lots[i]), generatedAt, clock);
        refreshed := refreshed + count;
        assert lots[..i + 1] == lots[..i] + [lots[i]];
      }
      assert lots[..|lots|] == lots;
    }

    /**
     `refresh_default_analytics_cache` once it holds the lock: each scope of each airport gets its four entries, each
     from exactly the rows of its scope and window and with one watermark; every other entry stays.
     */
    method RefreshDefault(
        rows: set<Row>, airports: seq<AirportId>, lots: AirportId -> seq<LotId>, generatedAt: int,
        loadedAt: AirportId -> int, clock: Key -> int)
      returns (refreshed: nat)
      requires forall key: Key :: key.airport.Some? ==> loadedAt(key.airport.value) <= clock(key)
      modifies this
      ensures refreshed == METRICS * ScopeCount(airports, lots)
      ensures forall key: Key ::
                Lookup(entries, key) == if Refreshed(airports, lots, key)
                                       then Some(Stored(generatedAt, Window(rows, key, clock(key))))
                                       else Lookup(old(entries), key)
      ensures IsRefreshed(old(entries), entries, rows, airports, lots, generatedAt, clock)
    {
      refreshed := 0;
      for i := 0 to |airports|
        invariant refreshed == METRICS * ScopeCount(airports[..i], lots)
        invariant forall key: Key ::
                    Lookup(entries, key) == if Refreshed(airports[..i], lots, key)
                                           then Some(Stored(generatedAt, Window(rows, key, clock(key))))
                                           else Lookup(old(entries), key)
      {
        var count := RefreshAirport(rows, airports[i], lots(airports[i]), generatedAt, loadedAt(airports[i]), clock);
        refreshed := refreshed + count;
        assert airports[..i + 1] == airports[..i] + [airports[i]];
      }
      assert airports[..|airports|] == airports;
      RefreshedIsDefault(old(entries), entries, rows, airports, lots, generatedAt, clock);
    }
  }
}
