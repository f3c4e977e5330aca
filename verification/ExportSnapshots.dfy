/**
 Frozen export snapshots: readers in repeatable-read transactions reuse or freeze a snapshot per source generation and
 cache epoch, collect expired ones, and serve later pages from the frozen items. Steps of different transactions
 interleave freely; uncommitted inserts of the same key make the later insert wait.
 */
module ExportSnapshots {
  import opened Common
  import opened Keyset
  import opened Sorting
  import opened TimeUtils

  type SnapshotId = int
  type ReaderId = int
  /** An export kind together with its scope key. */
  type Scope = int
  type Head = int

  const SNAPSHOT_TTL: int := 15 * MINUTE
  const MAX_SNAPSHOT_ITEMS: int := 20_000
  const MAX_SNAPSHOT_BYTES: int := 16 * 1024 * 1024

  /** A serialized row and its size in bytes. */
  datatype Payload = Payload(content: int, size: nat)

  datatype Item = Item(ordinal: int, payload: Payload)

  /** `cache_generation`; the digest is taken as injective. */
  datatype Generation = Generation(head: Head, epoch: int)

  datatype Snapshot = Snapshot(scope: Scope, generation: Generation, expiresAt: int, itemCount: int, items: seq<Item>)

  function CacheEpoch(now: int): int {
    now / SNAPSHOT_TTL
  }

  /** `snapshot_expires_at`: the end of the epoch plus the TTL. */
  function SnapshotExpiresAt(now: int): int {
    (CacheEpoch(now) + 1) * SNAPSHOT_TTL + SNAPSHOT_TTL
  }

  // ----- transactions -----

  /** The clock reading a first page uses for the cache lookup and for the new snapshot. */
  datatype Look = Look(now: int, scope: Scope, generation: Generation)

  datatype Handout = Handout(id: SnapshotId, at: int, snapshot: Snapshot)

  datatype Transaction = Transaction(
    view: map<SnapshotId, Snapshot>, look: Option<Look>, given: Option<Handout>,
    inserted: map<SnapshotId, Snapshot>, deleted: set<SnapshotId>)

  /** `used` holds every id ever drawn; `handouts` the first pages of committed transactions. */
  datatype State = State(
    clock: int, table: map<SnapshotId, Snapshot>, readers: map<ReaderId, Transaction>,
    used: set<SnapshotId>, handouts: seq<Handout>)

  const EMPTY: State := State(0, map[], map[], {}, [])

  datatype Event =
    | Tick(now: int)
    | Begin(reader: ReaderId)
    | LookUp(reader: ReaderId, scope: Scope, head: Head)
    | Reuse(reader: ReaderId, id: SnapshotId)
    | Expire(reader: ReaderId, victims: set<SnapshotId>)
    | Freeze(reader: ReaderId, id: SnapshotId, payloads: seq<Payload>)
    | Commit(reader: ReaderId)
    | Rollback(reader: ReaderId)

  predicate SameKey(s: Snapshot, look: Look) {
    s.scope == look.scope && s.generation == look.generation
  }

  /** The cached row a lookup may return. */
  predicate Cached(view: map<SnapshotId, Snapshot>, look: Look, id: SnapshotId) {
    id in view && SameKey(view[id], look) && view[id].expiresAt > look.now
  }

  /** A committed row with the key of the insert. */
  predicate Conflicts(s: State, look: Look, id: SnapshotId) {
    id in s.table && SameKey(s.table[id], look)
  }

  /** Another open transaction has inserted the same key: the insert waits. */
  ghost predicate Waits(s: State, reader: ReaderId, look: Look) {
    exists other, id :: other in s.readers && other != reader && id in s.readers[other].inserted
        && SameKey(s.readers[other].inserted[id], look)
  }

  function Numbered(payloads: seq<Payload>): (items: seq<Item>)
    ensures |items| == |payloads| && forall i :: 0 <= i < |items| ==> items[i] == Item(i + 1, payloads[i])
  {
    seq(|payloads|, i requires 0 <= i < |payloads| => Item(i + 1, payloads[i]))
  }

  function Frozen(look: Look, payloads: seq<Payload>): Snapshot {
    Snapshot(look.scope, look.generation, SnapshotExpiresAt(look.now), |payloads|, Numbered(payloads))
  }

  function SetReader(s: State, reader: ReaderId, t: Transaction): State {
    s.(readers := s.readers[reader := t])
  }

  /** The next state, or None when the step cannot be taken. A conflicting insert cannot: its transaction rolls back. */
  ghost function Step(s: State, e: Event): Option<State> {
    if e.Tick? then if e.now < s.clock then None else Some(s.(clock := e.now))
    else if e.Begin? then
      if e.reader in s.readers then None
      else Some(SetReader(s, e.reader, Transaction(s.table, None, None, map[], {})))
    else if e.reader !in s.readers then None
    else
      var t := s.readers[e.reader];
      match e
      case LookUp(reader, scope, head) =>
        if t.look.Some? then None
        else Some(SetReader(s, reader, t.(look := Some(Look(s.clock, scope, Generation(head, CacheEpoch(s.clock)))))))
      case Reuse(reader, id) =>
        if t.look.None? || t.given.Some? || !Cached(t.view, t.look.value, id) then None
        else Some(SetReader(s, reader, t.(given := Some(Handout(id, t.look.value.now, t.view[id])))))
      case Expire(reader, victims) =>
        if t.look.None? || t.given.Some? || |victims| > 1 || t.deleted != {} then None
        else if exists id :: id in victims && (id !in t.view || t.view[id].expiresAt > s.clock) then None
        else Some(SetReader(s, reader, t.(deleted := victims)))
      case Freeze(reader, id, payloads) =>
        if t.look.None? || t.given.Some? || id in s.used then None
        else if exists c :: Cached(t.view, t.look.value, c) then None
        else if Waits(s, reader, t.look.value) || exists c :: Conflicts(s, t.look.value, c) then None
        else
          var snapshot := Frozen(t.look.value, payloads);
          Some(SetReader(s, reader,
              t.(given := Some(Handout(id, t.look.value.now, snapshot)), inserted := map[id := snapshot]))
               .(used := s.used + {id}))
      case Commit(reader) =>
        if !(t.deleted <= s.table.Keys) then None
        else Some(s.(table := (s.table - t.deleted) + t.inserted, readers := s.readers - {reader},
                     handouts := s.handouts + if t.given.Some? then [t.given.value] else []))
      case Rollback(reader) => Some(s.(readers := s.readers - {reader}))
  }

  ghost function After(s: State, es: seq<Event>): State
    decreases |es|
  {
    if es == [] then s
    else match Step(s, es[0])
         case None => After(s, es[1..])
         case Some(t) => After(t, es[1..])
  }

  // ----- the invariant -----

  /** A stored snapshot expires one TTL after the end of its epoch and its items are numbered from 1. */
  ghost predicate Good(s: Snapshot) {
    && s.expiresAt == (s.generation.epoch + 2) * SNAPSHOT_TTL
    && s.itemCount == |s.items|
    && forall i :: 0 <= i < |s.items| ==> s.items[i].ordinal == i + 1
  }

  ghost predicate AllGood(table: map<SnapshotId, Snapshot>) {
    forall id :: id in table ==> Good(table[id])
  }

  /** A first page was given a snapshot of the epoch of its lookup. */
  ghost predicate GoodHandout(h: Handout) {
    Good(h.snapshot) && h.snapshot.generation.epoch == CacheEpoch(h.at)
  }

  /** It is the snapshot of the scope, the head and the epoch looked up. */
  ghost predicate GivesWhatIsAsked(t: Transaction)
    requires t.given.Some?
  {
    && t.look.Some?
    && var snapshot, look := t.given.value.snapshot, t.look.value;
       && t.given.value.at == look.now && snapshot.scope == look.scope
       && snapshot.generation.head == look.generation.head && snapshot.generation.epoch == look.generation.epoch
  }

  ghost predicate ReaderInv(s: State, t: Transaction) {
    && AllGood(t.view) && AllGood(t.inserted)
    && t.view.Keys <= s.used && t.inserted.Keys <= s.used && t.inserted.Keys !! s.table.Keys
    && (forall id :: id in t.view && id in s.table ==> t.view[id] == s.table[id])
    && (t.look.Some? ==> t.look.value.generation.epoch == CacheEpoch(t.look.value.now))
    && (t.given.Some? ==> GoodHandout(t.given.value) && GivesWhatIsAsked(t))
    && (forall id :: id in t.deleted ==> id in t.view && t.view[id].expiresAt <= s.clock) && |t.deleted| <= 1
  }

  ghost predicate Inv(s: State) {
    && AllGood(s.table) && s.table.Keys <= s.used
    && (forall r :: r in s.readers ==> ReaderInv(s, s.readers[r]))
    && (forall r, q :: r in s.readers && q in s.readers && r != q ==>
        s.readers[r].inserted.Keys !! s.readers[q].inserted.Keys)
    && (forall r, q :: r in s.readers && q in s.readers ==> s.readers[r].inserted.Keys !! s.readers[q].view.Keys)
    && (forall i :: 0 <= i < |s.handouts| ==> GoodHandout(s.handouts[i]))
  }

  lemma ExpiryFollowsEpoch(now: int)
    ensures SnapshotExpiresAt(now) == (CacheEpoch(now) + 2) * SNAPSHOT_TTL
    ensures now + SNAPSHOT_TTL < SnapshotExpiresAt(now) <= now + 2 * SNAPSHOT_TTL
  {
  }

  lemma TickKeepsInv(s: State, now: int)
    requires Inv(s) && now >= s.clock
    ensures Inv(s.(clock := now))
  {
    forall r | r in s.readers ensures ReaderInv(s.(clock := now), s.readers[r]) {
      assert ReaderInv(s, s.readers[r]);
    }
  }

  /** A step of one reader that leaves the table alone. */
  lemma ReaderKeepsInv(s: State, reader: ReaderId, t: Transaction, used: set<SnapshotId>)
    requires Inv(s) && s.used <= used && ReaderInv(s.(used := used), t)
    requires forall r :: r in s.readers && r != reader ==> t.inserted.Keys !! s.readers[r].inserted.Keys
    requires forall r :: r in s.readers ==>
             t.inserted.Keys !! s.readers[r].view.Keys && s.readers[r].inserted.Keys !! t.view.Keys
    requires t.inserted.Keys !! t.view.Keys
    ensures Inv(SetReader(s, reader, t).(used := used))
  {
    var after := SetReader(s, reader, t).(used := used);
    forall r | r in after.readers ensures ReaderInv(after, after.readers[r]) {
      assert r != reader ==> ReaderInv(s, s.readers[r]);
    }
  }

  lemma FreezeKeepsInv(s: State, reader: ReaderId, id: SnapshotId, payloads: seq<Payload>)
    requires Inv(s) && reader in s.readers && Step(s, Freeze(reader, id, payloads)).Some?
    ensures Inv(Step(s, Freeze(reader, id, payloads)).value)
  {
    var t, used := s.readers[reader], s.used + {id};
    assert ReaderInv(s, t);
    var snapshot := Frozen(t.look.value, payloads);
    ExpiryFollowsEpoch(t.look.value.now);
    var now := t.(given := Some(Handout(id, t.look.value.now, snapshot)), inserted := map[id := snapshot]);
    assert Good(snapshot) && now.inserted.Keys == {id};
    forall r | r in s.readers
      ensures now.inserted.Keys !! s.readers[r].inserted.Keys && now.inserted.Keys !! s.readers[r].view.Keys
    {
      assert ReaderInv(s, s.readers[r]);
    }
    ReaderKeepsInv(s, reader, now, used);
  }

  /** What a commit does to the table. */
  lemma CommittedTable(s: State, reader: ReaderId)
    requires Inv(s) && reader in s.readers && Step(s, Commit(reader)).Some?
    ensures var after := Step(s, Commit(reader)).value;
            && (forall id :: id in after.table ==>
                  if id in s.readers[reader].inserted then after.table[id] == s.readers[reader].inserted[id]
                  else id in s.table && after.table[id] == s.table[id])
            && (forall id :: id in s.table && id !in after.table ==> s.table[id].expiresAt <= s.clock)
            && (forall id :: id in s.table && id in after.table ==> after.table[id] == s.table[id])
  {
    assert ReaderInv(s, s.readers[reader]);
  }

  lemma CommitKeepsInv(s: State, reader: ReaderId)
    requires Inv(s) && reader in s.readers && Step(s, Commit(reader)).Some?
    ensures Inv(Step(s, Commit(reader)).value)
  {
    var t, after := s.readers[reader], Step(s, Commit(reader)).value;
    assert ReaderInv(s, t);
    CommittedTable(s, reader);
    forall r | r in after.readers ensures ReaderInv(after, after.readers[r]) {
      OtherReaderKeepsInv(s, reader, r);
    }
  }

  lemma OtherReaderKeepsInv(s: State, reader: ReaderId, other: ReaderId)
    requires Inv(s) && reader in s.readers && Step(s, Commit(reader)).Some? && other in s.readers && other != reader
    ensures ReaderInv(Step(s, Commit(reader)).value, s.readers[other])
  {
    var t, o, after := s.readers[reader], s.readers[other], Step(s, Commit(reader)).value;
    assert ReaderInv(s, t) && ReaderInv(s, o);
    CommittedTable(s, reader);
    forall id | id in o.view && id in after.table ensures o.view[id] == after.table[id] {
      assert id !in t.inserted ==> id in s.table;
    }
  }

  lemma StepKeepsInv(s: State, e: Event)
    requires Inv(s) && Step(s, e).Some?
    ensures Inv(Step(s, e).value)
  {
    if e.Tick? {
      TickKeepsInv(s, e.now);
    } else if e.Begin? {
      forall r | r in s.readers ensures s.readers[r].inserted.Keys !! s.table.Keys {
        assert ReaderInv(s, s.readers[r]);
      }
      ReaderKeepsInv(s, e.reader, Transaction(s.table, None, None, map[], {}), s.used);
    } else {
      assert ReaderInv(s, s.readers[e.reader]);
      if e.Freeze? {
        FreezeKeepsInv(s, e.reader, e.id, e.payloads);
      } else if e.Commit? {
        CommitKeepsInv(s, e.reader);
      } else if e.Rollback? {
        var t := Step(s, e).value;
        forall r | r in t.readers ensures ReaderInv(t, t.readers[r]) {
          assert ReaderInv(s, s.readers[r]);
        }
      } else {
        ReaderKeepsInv(s, e.reader, Step(s, e).value.readers[e.reader], s.used);
      }
    }
  }

  lemma {:induction false} AfterKeepsInv(s: State, es: seq<Event>)
    requires Inv(s)
    ensures Inv(After(s, es))
    decreases |es|
  {
    if es != [] {
      if Step(s, es[0]).Some? {
        StepKeepsInv(s, es[0]);
        AfterKeepsInv(Step(s, es[0]).value, es[1..]);
      } else {
        AfterKeepsInv(s, es[1..]);
      }
    }
  }

  // ----- main results -----

  /** In every run, a first page hands out a snapshot with more than one TTL left and at most two. */
  lemma HandoutsLastLongEnough(es: seq<Event>, i: nat)
    requires i < |After(EMPTY, es).handouts|
    ensures var h := After(EMPTY, es).handouts[i]; 15 * MINUTE < h.snapshot.expiresAt - h.at <= 30 * MINUTE
  {
    AfterKeepsInv(EMPTY, es);
    var h := After(EMPTY, es).handouts[i];
    assert GoodHandout(h);
    ExpiryFollowsEpoch(h.at);
  }

  /**
   In every run, when a reader that found no cached row meets a conflicting one, that row was committed by another
   reader after this transaction began, and it is not an expired leftover.
   */
  lemma ConflictsAreConcurrent(es: seq<Event>, reader: ReaderId, c: SnapshotId)
    requires var s := After(EMPTY, es);
             && reader in s.readers && s.readers[reader].look.Some?
             && (forall id :: !Cached(s.readers[reader].view, s.readers[reader].look.value, id))
             && Conflicts(s, s.readers[reader].look.value, c)
    ensures var s := After(EMPTY, es);
            c !in s.readers[reader].view && s.table[c].expiresAt > s.readers[reader].look.value.now + SNAPSHOT_TTL
  {
    AfterKeepsInv(EMPTY, es);
    var s := After(EMPTY, es);
    var t := s.readers[reader];
    assert ReaderInv(s, t) && Good(s.table[c]);
    ExpiryFollowsEpoch(t.look.value.now);
    assert !Cached(t.view, t.look.value, c);
  }

  /** One step keeps every unexpired snapshot as it is. */
  lemma StepKeepsUnexpired(s: State, e: Event, id: SnapshotId)
    requires Inv(s) && Step(s, e).Some? && id in s.table && s.table[id].expiresAt > s.clock
    ensures var t := Step(s, e).value; id in t.table && t.table[id] == s.table[id] && t.clock >= s.clock
  {
    if e.Commit? {
      CommittedTable(s, e.reader);
    }
  }

  lemma CommitRemovesAtMostOne(s: State, reader: ReaderId, a: SnapshotId, b: SnapshotId)
    requires Inv(s) && reader in s.readers && Step(s, Commit(reader)).Some? && a in s.table && b in s.table
    requires a !in Step(s, Commit(reader)).value.table && b !in Step(s, Commit(reader)).value.table
    ensures a == b && s.table[a].expiresAt <= s.clock
  {
    var deleted := s.readers[reader].deleted;
    assert ReaderInv(s, s.readers[reader]);
    assert a in deleted && b in deleted;
    OnlyMember(deleted, a, b);
  }

  lemma OnlyMember(s: set<SnapshotId>, a: SnapshotId, b: SnapshotId)
    requires |s| <= 1 && a in s && b in s
    ensures a == b
  {
    assert s == {a} + (s - {a});
  }

  /** In every run, a step removes at most one stored snapshot, and only an expired one. */
  lemma StepRemovesAtMostOne(es: seq<Event>, e: Event, a: SnapshotId, b: SnapshotId)
    requires var s := After(EMPTY, es);
             && Step(s, e).Some? && a in s.table && b in s.table
             && a !in Step(s, e).value.table && b !in Step(s, e).value.table
    ensures a == b && After(EMPTY, es).table[a].expiresAt <= After(EMPTY, es).clock
  {
    AfterKeepsInv(EMPTY, es);
    if e.Commit? {
      CommitRemovesAtMostOne(After(EMPTY, es), e.reader, a, b);
    }
  }

  lemma {:induction false} ClockNeverGoesBack(s: State, es: seq<Event>)
    ensures After(s, es).clock >= s.clock
    decreases |es|
  {
    if es != [] {
      match Step(s, es[0])
      case None => ClockNeverGoesBack(s, es[1..]);
      case Some(t) => ClockNeverGoesBack(t, es[1..]);
    }
  }

  /** Collection only ever removes expired snapshots: one that has not expired by the end of a run is unchanged. */
  lemma {:induction false} UnexpiredIsUnchanged(s: State, es: seq<Event>, id: SnapshotId)
    requires Inv(s) && id in s.table && s.table[id].expiresAt > After(s, es).clock
    ensures id in After(s, es).table && After(s, es).table[id] == s.table[id]
    decreases |es|
  {
    ClockNeverGoesBack(s, es);
    if es != [] {
      if Step(s, es[0]).Some? {
        var t := Step(s, es[0]).value;
        StepKeepsInv(s, es[0]);
        StepKeepsUnexpired(s, es[0], id);
        UnexpiredIsUnchanged(t, es[1..], id);
      } else {
        UnexpiredIsUnchanged(s, es[1..], id);
      }
    }
  }

  // ----- where a handout comes from, and how long it is stored -----

  lemma {:induction false} AfterLast(s: State, es: seq<Event>)
    requires es != []
    ensures var before, e := After(s, es[..|es| - 1]), es[|es| - 1];
            After(s, es) == if Step(before, e).Some? then Step(before, e).value else before
    decreases |es|
  {
    if |es| > 1 {
      assert es[..|es| - 1][1..] == es[1..][..|es| - 2];
      AfterLast(if Step(s, es[0]).Some? then Step(s, es[0]).value else s, es[1..]);
    }
  }

  /** Event `i` looks the scope up at that time and reads that head. */
  ghost predicate AskedAt(es: seq<Event>, i: nat, scope: Scope, head: Head, at: int) {
    && i < |es| && es[i].LookUp? && es[i].scope == scope && es[i].head == head
    && After(EMPTY, es[..i]).clock == at
  }

  lemma {:induction false} LookWasAsked(es: seq<Event>, r: ReaderId) returns (i: nat)
    requires var s := After(EMPTY, es); r in s.readers && s.readers[r].look.Some?
    ensures var look := After(EMPTY, es).readers[r].look.value;
            AskedAt(es, i, look.scope, look.generation.head, look.now)
  {
    if es == [] {
      assert false;
    } else {
      var front := es[..|es| - 1];
      var before := After(EMPTY, front);
      AfterLast(EMPTY, es);
      if r in before.readers && before.readers[r].look == After(EMPTY, es).readers[r].look {
        i := LookWasAsked(front, r);
        assert es[..i] == front[..i];
      } else {
        i := |front|;
      }
    }
  }

  /** In every run, a first page hands out a snapshot of the scope and of the head that its lookup read. */
  lemma {:induction false} HandoutWasAsked(es: seq<Event>, k: nat) returns (i: nat)
    requires k < |After(EMPTY, es).handouts|
    ensures var h := After(EMPTY, es).handouts[k];
            AskedAt(es, i, h.snapshot.scope, h.snapshot.generation.head, h.at)
  {
    if es == [] {
      assert false;
    } else {
      var front, e := es[..|es| - 1], es[|es| - 1];
      var before := After(EMPTY, front);
      AfterLast(EMPTY, es);
      AfterKeepsInv(EMPTY, front);
      if k < |before.handouts| {
        i := HandoutWasAsked(front, k);
      } else {
        assert ReaderInv(before, before.readers[e.reader]);
        i := LookWasAsked(front, e.reader);
      }
      assert es[..i] == front[..i];
    }
  }

  /** Event `i` freezes these items: the rows of the freeze, in order, numbered from 1. */
  ghost predicate FrozenAt(es: seq<Event>, i: nat, id: SnapshotId, items: seq<Item>) {
    && i < |es| && es[i].Freeze? && es[i].id == id && |items| == |es[i].payloads|
    && forall k :: 0 <= k < |items| ==> items[k] == Item(k + 1, es[i].payloads[k])
  }

  ghost predicate WasFrozen(es: seq<Event>, id: SnapshotId, snapshot: Snapshot) {
    exists i :: FrozenAt(es, i, id, snapshot.items)
  }

  ghost predicate AllFrozen(es: seq<Event>, table: map<SnapshotId, Snapshot>) {
    forall id :: id in table ==> WasFrozen(es, id, table[id])
  }

  lemma StaysFrozen(es: seq<Event>, e: Event, id: SnapshotId, snapshot: Snapshot)
    requires WasFrozen(es, id, snapshot)
    ensures WasFrozen(es + [e], id, snapshot)
  {
    var i: nat :| FrozenAt(es, i, id, snapshot.items);
    assert (es + [e])[i] == es[i];
    assert FrozenAt(es + [e], i, id, snapshot.items);
  }

  lemma AllStayFrozen(es: seq<Event>, e: Event, table: map<SnapshotId, Snapshot>)
    requires AllFrozen(es, table)
    ensures AllFrozen(es + [e], table)
  {
    forall id | id in table ensures WasFrozen(es + [e], id, table[id]) {
      StaysFrozen(es, e, id, table[id]);
    }
  }

  /** Whatever a state holds was frozen by an event of the run that led to it. */
  ghost predicate HoldsFrozen(es: seq<Event>, s: State) {
    && AllFrozen(es, s.table)
    && (forall r :: r in s.readers ==> AllFrozen(es, s.readers[r].view) && AllFrozen(es, s.readers[r].inserted))
    && (forall r :: r in s.readers && s.readers[r].given.Some? ==>
          WasFrozen(es, s.readers[r].given.value.id, s.readers[r].given.value.snapshot))
    && (forall k :: 0 <= k < |s.handouts| ==> WasFrozen(es, s.handouts[k].id, s.handouts[k].snapshot))
  }

  lemma StateStaysFrozen(es: seq<Event>, e: Event, s: State)
    requires HoldsFrozen(es, s)
    ensures HoldsFrozen(es + [e], s)
  {
    AllStayFrozen(es, e, s.table);
    forall r | r in s.readers
      ensures AllFrozen(es + [e], s.readers[r].view) && AllFrozen(es + [e], s.readers[r].inserted)
    {
      AllStayFrozen(es, e, s.readers[r].view);
      AllStayFrozen(es, e, s.readers[r].inserted);
    }
    forall r | r in s.readers && s.readers[r].given.Some?
      ensures WasFrozen(es + [e], s.readers[r].given.value.id, s.readers[r].given.value.snapshot)
    {
      StaysFrozen(es, e, s.readers[r].given.value.id, s.readers[r].given.value.snapshot);
    }
    forall k | 0 <= k < |s.handouts| ensures WasFrozen(es + [e], s.handouts[k].id, s.handouts[k].snapshot) {
      StaysFrozen(es, e, s.handouts[k].id, s.handouts[k].snapshot);
    }
  }

  lemma StepHoldsFrozen(es: seq<Event>, e: Event, s: State)
    requires HoldsFrozen(es + [e], s) && Step(s, e).Some?
    ensures HoldsFrozen(es + [e], Step(s, e).value)
  {
    var t := Step(s, e).value;
    if e.Freeze? {
      var snapshot := t.readers[e.reader].given.value.snapshot;
      assert FrozenAt(es + [e], |es|, e.id, snapshot.items);
      assert WasFrozen(es + [e], e.id, snapshot);
    }
  }

  lemma {:induction false} RunHoldsFrozen(es: seq<Event>)
    ensures HoldsFrozen(es, After(EMPTY, es))
  {
    if es != [] {
      var front, e := es[..|es| - 1], es[|es| - 1];
      var before := After(EMPTY, front);
      RunHoldsFrozen(front);
      AfterLast(EMPTY, es);
      assert es == front + [e];
      StateStaysFrozen(front, e, before);
      if Step(before, e).Some? {
        StepHoldsFrozen(front, e, before);
      }
    }
  }

  /** Two rows of one scope, head and epoch. */
  ghost predicate SameSource(a: Snapshot, b: Snapshot) {
    a.scope == b.scope && a.generation.head == b.generation.head && a.generation.epoch == b.generation.epoch
  }

  /** The unique index: stored rows and uncommitted inserts all differ in scope, head or epoch. */
  ghost predicate UniqueSources(s: State) {
    && (forall a, b :: a in s.table && b in s.table && a != b ==> !SameSource(s.table[a], s.table[b]))
    && (forall r, a, b :: r in s.readers && a in s.readers[r].inserted && b in s.table ==>
          !SameSource(s.readers[r].inserted[a], s.table[b]))
    && (forall r, q, a, b :: r in s.readers && q in s.readers && a in s.readers[r].inserted
                             && b in s.readers[q].inserted && (r != q || a != b) ==>
          !SameSource(s.readers[r].inserted[a], s.readers[q].inserted[b]))
  }

  lemma FreezeKeepsUnique(s: State, reader: ReaderId, id: SnapshotId, payloads: seq<Payload>)
    requires UniqueSources(s) && Step(s, Freeze(reader, id, payloads)).Some?
    ensures UniqueSources(Step(s, Freeze(reader, id, payloads)).value)
  {
    var look, t := s.readers[reader].look.value, Step(s, Freeze(reader, id, payloads)).value;
    forall b | b in s.table ensures !SameSource(t.readers[reader].inserted[id], s.table[b]) {
      assert !Conflicts(s, look, b);
    }
    forall q, b | q in s.readers && q != reader && b in s.readers[q].inserted
      ensures !SameSource(t.readers[reader].inserted[id], s.readers[q].inserted[b])
    {
      assert !SameKey(s.readers[q].inserted[b], look);
    }
  }

  lemma CommitKeepsUnique(s: State, reader: ReaderId)
    requires UniqueSources(s) && Step(s, Commit(reader)).Some?
    ensures UniqueSources(Step(s, Commit(reader)).value)
  {
    var w, t := s.readers[reader], Step(s, Commit(reader)).value;
    forall id | id in t.table
      ensures if id in w.inserted then t.table[id] == w.inserted[id] else id in s.table && t.table[id] == s.table[id]
    {
    }
  }

  lemma SameInsertsStayUnique(s: State, t: State)
    requires UniqueSources(s) && t.table == s.table
    requires forall r :: r in t.readers && t.readers[r].inserted != map[] ==>
               r in s.readers && t.readers[r].inserted == s.readers[r].inserted
    ensures UniqueSources(t)
  {
  }

  lemma StepKeepsUnique(s: State, e: Event)
    requires UniqueSources(s) && Step(s, e).Some?
    ensures UniqueSources(Step(s, e).value)
  {
    if e.Freeze? {
      FreezeKeepsUnique(s, e.reader, e.id, e.payloads);
    } else if e.Commit? {
      CommitKeepsUnique(s, e.reader);
    } else {
      SameInsertsStayUnique(s, Step(s, e).value);
    }
  }

  /** At any time at most one snapshot is stored for a scope, a head and an epoch. */
  lemma {:induction false} SourcesAreUnique(s: State, es: seq<Event>)
    requires UniqueSources(s)
    ensures UniqueSources(After(s, es))
    decreases |es|
  {
    if es != [] {
      if Step(s, es[0]).Some? {
        StepKeepsUnique(s, es[0]);
        SourcesAreUnique(Step(s, es[0]).value, es[1..]);
      } else {
        SourcesAreUnique(s, es[1..]);
      }
    }
  }

  /** A handout that has not expired is stored. */
  ghost predicate IsStored(s: State, h: Handout) {
    h.snapshot.expiresAt > s.clock ==> h.id in s.table && s.table[h.id] == h.snapshot
  }

  /** An open transaction will leave its handout stored. */
  ghost predicate WillBeStored(s: State, t: Transaction) {
    && (forall id :: id in t.view && t.view[id].expiresAt > s.clock ==> id in s.table)
    && (t.given.Some? ==>
          var h := t.given.value;
          || (h.id in t.inserted && t.inserted[h.id] == h.snapshot)
          || (h.id in t.view && t.view[h.id] == h.snapshot && h.id !in t.inserted))
  }

  ghost predicate HandoutsStored(s: State) {
    && (forall i :: 0 <= i < |s.handouts| ==> IsStored(s, s.handouts[i]))
    && (forall r :: r in s.readers ==> WillBeStored(s, s.readers[r]))
  }

  lemma CommitStoresHandouts(s: State, reader: ReaderId)
    requires Inv(s) && HandoutsStored(s) && reader in s.readers && Step(s, Commit(reader)).Some?
    ensures HandoutsStored(Step(s, Commit(reader)).value)
  {
    var t, after := s.readers[reader], Step(s, Commit(reader)).value;
    CommittedTable(s, reader);
    assert ReaderInv(s, t) && WillBeStored(s, t);
    forall i | 0 <= i < |after.handouts| ensures IsStored(after, after.handouts[i]) {
      assert i < |s.handouts| ==> after.handouts[i] == s.handouts[i] && IsStored(s, s.handouts[i]);
    }
    forall r | r in after.readers ensures WillBeStored(after, after.readers[r]) {
      assert WillBeStored(s, s.readers[r]) && ReaderInv(s, s.readers[r]);
    }
  }

  lemma StepStoresHandouts(s: State, e: Event)
    requires Inv(s) && HandoutsStored(s) && Step(s, e).Some?
    ensures HandoutsStored(Step(s, e).value)
  {
    if e.Commit? {
      CommitStoresHandouts(s, e.reader);
    } else {
      var t := Step(s, e).value;
      forall r | r in t.readers ensures WillBeStored(t, t.readers[r]) {
        assert r in s.readers ==> WillBeStored(s, s.readers[r]) && ReaderInv(s, s.readers[r]);
      }
      forall i | 0 <= i < |t.handouts| ensures IsStored(t, t.handouts[i]) {
        assert IsStored(s, s.handouts[i]);
      }
    }
  }

  lemma {:induction false} RunStoresHandouts(s: State, es: seq<Event>)
    requires Inv(s) && HandoutsStored(s)
    ensures HandoutsStored(After(s, es))
    decreases |es|
  {
    if es != [] {
      if Step(s, es[0]).Some? {
        StepKeepsInv(s, es[0]);
        StepStoresHandouts(s, es[0]);
        RunStoresHandouts(Step(s, es[0]).value, es[1..]);
      } else {
        RunStoresHandouts(s, es[1..]);
      }
    }
  }

  /**
   In every run, what a committed first page handed out stays stored unchanged until it expires; its items are the rows
   of the freeze that drew its id, and no other snapshot is stored for its scope, head and epoch.
   */
  lemma HandoutStaysStored(es: seq<Event>, k: nat)
    requires k < |After(EMPTY, es).handouts|
    requires After(EMPTY, es).clock < After(EMPTY, es).handouts[k].snapshot.expiresAt
    ensures var s := After(EMPTY, es);
            var h := s.handouts[k];
            && h.id in s.table && s.table[h.id] == h.snapshot
            && (exists i :: FrozenAt(es, i, h.id, h.snapshot.items))
            && forall id :: id in s.table && SameSource(s.table[id], h.snapshot) ==> id == h.id
  {
    RunStoresHandouts(EMPTY, es);
    RunHoldsFrozen(es);
    SourcesAreUnique(EMPTY, es);
    var s := After(EMPTY, es);
    assert IsStored(s, s.handouts[k]) && WasFrozen(es, s.handouts[k].id, s.handouts[k].snapshot);
  }

  // ----- pages -----

  /** The signed fields of a cursor; `scope` stands for kind and scope. */
  datatype Cursor = Cursor(snapshot: SnapshotId, scope: Scope, after: int, limit: nat)

  datatype PageError = Gone410 | Unprocessable422 | Unavailable503

  function OrdinalAbove(after: int): Item -> bool {
    (item: Item) => item.ordinal > after
  }

  /** `ordinal > after`, in order, at most `limit + 1`. */
  function RowsAfter(items: seq<Item>, after: int, limit: nat): seq<Item> {
    var rows := Select(items, OrdinalAbove(after)); if |rows| > limit + 1 then rows[..limit + 1] else rows
  }

  function Payloads(items: seq<Item>): (payloads: seq<Payload>)
    ensures |payloads| == |items| && forall i :: 0 <= i < |items| ==> payloads[i] == items[i].payload
  {
    seq(|items|, i requires 0 <= i < |items| => items[i].payload)
  }

  /** The ordinals `after + 1`, `after + 2`, ... */
  predicate InSequence(rows: seq<Item>, after: int) {
    forall i :: 0 <= i < |rows| ==> rows[i].ordinal == after + i + 1
  }

  /** The page of a snapshot after its first `after` items. */
  function PageAfter(id: SnapshotId, snapshot: Snapshot, after: int,
      limit: nat): Result<Reply<Cursor, Payload>, PageError> {
    var rows := RowsAfter(snapshot.items, after, limit);
    var left := snapshot.itemCount - after;
    if |rows| != (if left < limit + 1 then left else limit + 1) || !InSequence(rows, after) then Err(Unavailable503)
    else if |rows| > limit then
      Ok(Reply(Payloads(rows[..limit]), Some(Cursor(id, snapshot.scope, after + limit, limit))))
    else Ok(Reply(Payloads(rows), None))
  }

  /** `read_page` with a cursor, in a transaction that sees `table`. */
  function LaterPage(table: map<SnapshotId, Snapshot>, now: int, scope: Scope, limit: nat, cursor: Cursor)
    : Result<Reply<Cursor, Payload>, PageError>
  {
    if cursor.scope != scope || cursor.limit != limit || cursor.after < 0 then Err(Unprocessable422)
    else if cursor.snapshot !in table || table[cursor.snapshot].expiresAt <= now then Err(Gone410)
    else
      var snapshot := table[cursor.snapshot];
      if snapshot.scope != scope || cursor.after >= snapshot.itemCount then Err(Unprocessable422)
      else PageAfter(cursor.snapshot, snapshot, cursor.after, limit)
  }

  lemma {:induction false} SelectAbove(items: seq<Item>, after: nat)
    requires forall i :: 0 <= i < |items| ==> items[i].ordinal == i + 1
    ensures Select(items, OrdinalAbove(after)) == if |items| <= after then [] else items[after..]
  {
    if items != [] {
      var front, last := items[..|items| - 1], items[|items| - 1];
      SelectAbove(front, after);
      assert last.ordinal == |items|;
      assert |items| > after ==> items[after..] == front[after..] + [last];
    }
  }

  lemma RowsAfterIsStretch(items: seq<Item>, after: nat, limit: nat)
    requires after <= |items| && forall i :: 0 <= i < |items| ==> items[i].ordinal == i + 1
    ensures RowsAfter(items, after, limit)
            == if |items| - after > limit + 1 then items[after..after + limit + 1] else items[after..]
  {
    SelectAbove(items, after);
  }

  lemma PayloadsOfSlice(items: seq<Item>, a: nat, b: nat)
    requires a <= b <= |items|
    ensures Payloads(items[a..b]) == Payloads(items)[a..b]
  {
  }

  /** A page of a good snapshot is the next stretch of its items, with a cursor exactly when items are left. */
  lemma PageIsStretch(id: SnapshotId, snapshot: Snapshot, after: nat, limit: nat)
    requires Good(snapshot) && after <= |snapshot.items| && limit >= 1
    ensures var all, q := Payloads(snapshot.items), after + limit;
            PageAfter(id, snapshot, after, limit)
            == if q < |all| then Ok(Reply(all[after..q], Some(Cursor(id, snapshot.scope, q, limit))))
               else Ok(Reply(all[after..], None))
  {
    var items, rows, q := snapshot.items, RowsAfter(snapshot.items, after, limit), after + limit;
    RowsAfterIsStretch(items, after, limit);
    if q < |items| {
      assert rows == items[after..q + 1];
      assert rows[..limit] == items[after..q];
      PayloadsOfSlice(items, after, q);
    } else {
      PayloadsOfSlice(items, after, |items|);
      assert items[after..|items|] == items[after..] && Payloads(items)[after..|items|] == Payloads(items)[after..];
    }
  }

  /** The next items of the snapshot, as many as the limit allows, and a cursor that counts them if items are left. */
  ghost predicate HasNextItems(
      reply: Reply<Cursor, Payload>, id: SnapshotId, snapshot: Snapshot, after: nat, limit: nat)
    requires after <= |snapshot.items|
  {
    var items := snapshot.items;
    && |reply.items| == (if |items| - after < limit then |items| - after else limit)
    && (forall k :: 0 <= k < |reply.items| ==> reply.items[k] == items[after + k].payload)
    && reply.next == if after + limit < |items| then Some(Cursor(id, snapshot.scope, after + limit, limit)) else None
  }

  lemma PageHasNextItems(id: SnapshotId, snapshot: Snapshot, after: nat, limit: nat)
    requires Good(snapshot) && after <= |snapshot.items| && limit >= 1
    ensures var page := PageAfter(id, snapshot, after, limit);
            page.Ok? && HasNextItems(page.value, id, snapshot, after, limit)
  {
    PageIsStretch(id, snapshot, after, limit);
  }

  /** The request fits its cursor, and the snapshot of the cursor has not expired. */
  ghost predicate IsServable(
      table: map<SnapshotId, Snapshot>, now: int, scope: Scope, limit: nat, cursor: Cursor)
  {
    && cursor.scope == scope && cursor.limit == limit
    && cursor.snapshot in table && now < table[cursor.snapshot].expiresAt && table[cursor.snapshot].scope == scope
    && 0 <= cursor.after < |table[cursor.snapshot].items|
  }

  /**
   A later page over good snapshots: served exactly if the request fits the cursor and the snapshot is there, gone
   exactly if only the snapshot is missing or expired, and never found inconsistent.
   */
  lemma LaterPageAnswers(table: map<SnapshotId, Snapshot>, now: int, scope: Scope, limit: nat, cursor: Cursor)
    requires AllGood(table) && limit >= 1
    ensures var answer := LaterPage(table, now, scope, limit, cursor);
            && (answer.Ok? <==> IsServable(table, now, scope, limit, cursor))
            && (answer == Err(Gone410) <==>
                  && cursor.scope == scope && cursor.limit == limit && cursor.after >= 0
                  && (cursor.snapshot !in table || table[cursor.snapshot].expiresAt <= now))
            && answer != Err(Unavailable503)
            && (answer.Ok? ==>
                  HasNextItems(answer.value, cursor.snapshot, table[cursor.snapshot], cursor.after, limit))
  {
    if cursor.snapshot in table && 0 <= cursor.after < table[cursor.snapshot].itemCount {
      assert Good(table[cursor.snapshot]);
      PageHasNextItems(cursor.snapshot, table[cursor.snapshot], cursor.after, limit);
    }
  }

  // ----- a page walk -----

  /**
   The tables the requests of a walk see and the clocks they read; the first request hands out `first` under the id
   `id`.
   */
  datatype Walk = Walk(
    table: nat -> map<SnapshotId, Snapshot>, time: nat -> int, id: SnapshotId, first: Snapshot, limit: nat)

  function Answers(w: Walk): (nat, Option<Cursor>) -> Result<Reply<Cursor, Payload>, PageError> {
    (i: nat, cursor: Option<Cursor>) =>
      if cursor.None? then PageAfter(w.id, w.first, 0, w.limit)
      else LaterPage(w.table(i), w.time(i), w.first.scope, w.limit, cursor.value)
  }

  function Positions(w: Walk): (nat, Option<Cursor>, nat) -> bool {
    (i: nat, cursor: Option<Cursor>, p: nat) =>
      if cursor.None? then i == 0 && p == 0
      else p < |w.first.items| && cursor.value == Cursor(w.id, w.first.scope, p, w.limit)
  }

  ghost predicate Stored(w: Walk, i: nat) {
    w.id in w.table(i) && w.table(i)[w.id] == w.first && w.time(i) < w.first.expiresAt
  }

  lemma StoredAnswerIsStretch(w: Walk, i: nat, cursor: Option<Cursor>, p: nat)
    requires Good(w.first) && w.limit >= 1 && Stored(w, i) && p <= |w.first.items| && Positions(w)(i, cursor, p)
    ensures NextStretch(Answers(w)(i, cursor), Payloads(w.first.items), Positions(w), i, p)
  {
    PageIsStretch(w.id, w.first, p, w.limit);
  }

  /** The states a walk meets: each follows from the one before by some steps of any transactions. */
  ghost predicate Follows(s: State, t: State) {
    exists es :: t == After(s, es)
  }

  ghost predicate Meets(w: Walk, states: nat -> State) {
    && Inv(states(0)) && w.id in states(0).table && states(0).table[w.id] == w.first
    && (forall i: nat {:trigger Follows(states(i), states(i + 1))} :: Follows(states(i), states(i + 1)))
    && (forall i: nat :: w.table(i) == states(i).table && states(i).clock <= w.time(i) < w.first.expiresAt)
  }

  lemma {:induction false} WalkKeepsSnapshot(w: Walk, states: nat -> State, i: nat)
    requires Meets(w, states)
    ensures Inv(states(i)) && Stored(w, i)
    decreases i
  {
    if i > 0 {
      WalkKeepsSnapshot(w, states, i - 1);
      var j: nat := i - 1;
      assert Follows(states(j), states(j + 1));
      var s, t := states(i - 1), states(i);
      var es :| t == After(s, es);
      assert t.clock < w.first.expiresAt;
      AfterKeepsInv(s, es);
      UnexpiredIsUnchanged(s, es, w.id);
    }
  }

  /**
   Before the snapshot expires, a walk returns each frozen item exactly once, in the order of its ordinal, whatever is
   promoted, frozen or collected between the pages.
   */
  lemma WalkReturnsFrozenItems(w: Walk, states: nat -> State, n: nat)
    requires Meets(w, states) && w.limit >= 1
    ensures Consecutive(Pages(Answers(w), 0, None, n), Payloads(w.first.items), 0, n)
  {
    var all, at := Payloads(w.first.items), Positions(w);
    assert Good(w.first);
    forall j: nat, c, q: nat | q <= |all| && at(j, c, q) ensures NextStretch(Answers(w)(j, c), all, at, j, q) {
      WalkKeepsSnapshot(w, states, j);
      StoredAnswerIsStretch(w, j, c, q);
    }
    PagesAreConsecutive(Answers(w), all, at, 0, None, 0, n);
  }

  /** A walk that starts from a committed handout, at any time of any run. */
  lemma HandoutCanBeWalked(es: seq<Event>, k: nat, w: Walk, states: nat -> State, n: nat)
    requires k < |After(EMPTY, es).handouts| && states(0) == After(EMPTY, es) && w.limit >= 1
    requires var h := After(EMPTY, es).handouts[k]; w.id == h.id && w.first == h.snapshot
    requires forall i: nat {:trigger Follows(states(i), states(i + 1))} :: Follows(states(i), states(i + 1))
    requires forall i: nat :: w.table(i) == states(i).table && states(i).clock <= w.time(i) < w.first.expiresAt
    ensures Consecutive(Pages(Answers(w), 0, None, n), Payloads(w.first.items), 0, n)
  {
    AfterKeepsInv(EMPTY, es);
    assert states(0).clock <= w.time(0) < w.first.expiresAt;
    HandoutStaysStored(es, k);
    WalkReturnsFrozenItems(w, states, n);
  }

  // ----- freezing -----

  datatype FreezeError = TooLarge | TooSlow | WrongMembership

  function TotalSize(rows: seq<Payload>): nat {
    if rows == [] then 0 else TotalSize(rows[..|rows| - 1]) + rows[|rows| - 1].size
  }

  /** A freeze gives up as soon as its counters pass a limit. */
  predicate Fits(rows: seq<Payload>) {
    |rows| <= MAX_SNAPSHOT_ITEMS && TotalSize(rows) <= MAX_SNAPSHOT_BYTES
  }

  lemma {:induction false} PrefixesFit(rows: seq<Payload>, k: nat)
    requires k <= |rows| && Fits(rows)
    ensures Fits(rows[..k])
    decreases |rows|
  {
    if k < |rows| {
      assert rows[..|rows| - 1][..k] == rows[..k];
      PrefixesFit(rows[..|rows| - 1], k);
    } else {
      assert rows[..k] == rows;
    }
  }

  function Flat(batches: seq<seq<Payload>>): seq<Payload> {
    if batches == [] then [] else Flat(batches[..|batches| - 1]) + batches[|batches| - 1]
  }

  lemma {:induction false} FlatPrefix(batches: seq<seq<Payload>>, b: nat)
    requires b <= |batches|
    ensures Flat(batches[..b]) <= Flat(batches)
    decreases |batches|
  {
    if b < |batches| {
      assert batches[..|batches| - 1][..b] == batches[..b];
      FlatPrefix(batches[..|batches| - 1], b);
    } else {
      assert batches[..b] == batches;
    }
  }

  lemma FlatNext(batches: seq<seq<Payload>>, b: nat)
    requires b < |batches|
    ensures Flat(batches[..b + 1]) == Flat(batches[..b]) + batches[b]
    ensures Flat(batches[..b + 1]) <= Flat(batches)
  {
    assert batches[..b + 1][..b] == batches[..b];
    FlatPrefix(batches, b + 1);
  }

  /** A batch passes exactly if the counters with it stay within the limits; its items are numbered on. */
  ghost predicate IsNextBatch(batch: seq<Payload>, count: nat, size: nat, ok: bool, items: seq<Item>) {
    && (ok <==> count + |batch| <= MAX_SNAPSHOT_ITEMS && size + TotalSize(batch) <= MAX_SNAPSHOT_BYTES)
    && (ok ==> |items| == |batch| && forall i :: 0 <= i < |batch| ==> items[i] == Item(count + i + 1, batch[i]))
  }

  /** Numbers one batch on from `count` and adds it to the counters. */
  method FreezeBatch(rows: seq<Payload>, count: nat, size: nat)
      returns (ok: bool, items: seq<Item>, count': nat, size': nat)
    requires count <= MAX_SNAPSHOT_ITEMS && size <= MAX_SNAPSHOT_BYTES
    ensures IsNextBatch(rows, count, size, ok, items)
    ensures ok ==> count' == count + |rows| && size' == size + TotalSize(rows)
  {
    items, count', size' := [], count, size;
    for i := 0 to |rows|
      invariant count' == count + i && size' == size + TotalSize(rows[..i])
      invariant count' <= MAX_SNAPSHOT_ITEMS && size' <= MAX_SNAPSHOT_BYTES
      invariant |items| == i && forall k :: 0 <= k < i ==> items[k] == Item(count + k + 1, rows[k])
    {
      assert rows[..i + 1][..i] == rows[..i];
      count', size' := count' + 1, size' + rows[i].size;
      if count' > MAX_SNAPSHOT_ITEMS || size' > MAX_SNAPSHOT_BYTES {
        SizeOfPrefix(rows, i + 1);
        return false, items, count', size';
      }
      items := items + [Item(count', rows[i])];
    }
    assert rows[..|rows|] == rows;
    ok := true;
  }

  lemma {:induction false} SizeOfPrefix(rows: seq<Payload>, k: nat)
    requires k <= |rows|
    ensures TotalSize(rows[..k]) <= TotalSize(rows)
    decreases |rows|
  {
    if k < |rows| {
      assert rows[..|rows| - 1][..k] == rows[..k];
      SizeOfPrefix(rows[..|rows| - 1], k);
    } else {
      assert rows[..k] == rows;
    }
  }

  lemma {:induction false} SizeOfAppend(rows: seq<Payload>, more: seq<Payload>)
    ensures TotalSize(rows + more) == TotalSize(rows) + TotalSize(more)
    decreases |more|
  {
    if more == [] {
      assert rows + more == rows;
    } else {
      assert (rows + more)[..|rows + more| - 1] == rows + more[..|more| - 1];
      SizeOfAppend(rows, more[..|more| - 1]);
    }
  }

  lemma NumberedAppend(rows: seq<Payload>, more: seq<Payload>, items: seq<Item>)
    requires |items| == |more| && forall i :: 0 <= i < |more| ==> items[i] == Item(|rows| + i + 1, more[i])
    ensures Numbered(rows + more) == Numbered(rows) + items
  {
  }

  /** The counters after the first `b` batches, and the items stored so far. */
  ghost predicate FrozenSoFar(batches: seq<seq<Payload>>, b: nat, items: seq<Item>, count: nat, size: nat)
    requires b <= |batches|
  {
    var rows := Flat(batches[..b]);
    count == |rows| && size == TotalSize(rows) && Fits(rows) && items == Numbered(rows)
  }

  /** The next batch passes the limits exactly when the rows so far do; otherwise the whole set is too large. */
  lemma NextBatchFits(batches: seq<seq<Payload>>, b: nat, items: seq<Item>, count: nat, size: nat)
    requires b < |batches| && FrozenSoFar(batches, b, items, count, size)
    ensures var fits := count + |batches[b]| <= MAX_SNAPSHOT_ITEMS
            && size + TotalSize(batches[b]) <= MAX_SNAPSHOT_BYTES;
            (fits <==> Fits(Flat(batches[..b + 1]))) && (!fits ==> !Fits(Flat(batches)))
  {
    var all, upTo := Flat(batches), Flat(batches[..b + 1]);
    FlatNext(batches, b);
    SizeOfAppend(Flat(batches[..b]), batches[b]);
    assert all[..|upTo|] == upTo;
    if Fits(all) {
      PrefixesFit(all, |upTo|);
    }
  }

  lemma NextBatchFrozen(batches: seq<seq<Payload>>, b: nat, items: seq<Item>, count: nat, size: nat, more: seq<Item>)
    requires b < |batches| && FrozenSoFar(batches, b, items, count, size) && Fits(Flat(batches[..b + 1]))
    requires |more| == |batches[b]| && forall i :: 0 <= i < |more| ==> more[i] == Item(count + i + 1, batches[b][i])
    ensures FrozenSoFar(batches, b + 1, items + more, count + |batches[b]|, size + TotalSize(batches[b]))
  {
    FlatNext(batches, b);
    SizeOfAppend(Flat(batches[..b]), batches[b]);
    NumberedAppend(Flat(batches[..b]), batches[b], more);
  }

  lemma NextBatch(
      batches: seq<seq<Payload>>, b: nat, items: seq<Item>, count: nat, size: nat, ok: bool, more: seq<Item>)
    requires b < |batches| && FrozenSoFar(batches, b, items, count, size)
    requires IsNextBatch(batches[b], count, size, ok, more)
    ensures if ok then FrozenSoFar(batches, b + 1, items + more, count + |batches[b]|, size + TotalSize(batches[b]))
            else !Fits(Flat(batches))
  {
    NextBatchFits(batches, b, items, count, size);
    if ok {
      NextBatchFrozen(batches, b, items, count, size, more);
    }
  }

  lemma AllFrozenSoFar(batches: seq<seq<Payload>>, items: seq<Item>, count: nat, size: nat)
    requires FrozenSoFar(batches, |batches|, items, count, size)
    ensures count == |Flat(batches)| && Fits(Flat(batches)) && items == Numbered(Flat(batches))
  {
    assert batches[..|batches|] == batches;
  }

  /**
   The freeze loop of `_freeze_traffic` over the partitions of its query; `late(b)` says that 15 seconds are over when
   partition `b` arrives. It succeeds exactly when the set fits, is complete and arrives in time, and then it stores
   every row once, numbered from 1.
   */
  method FreezeTraffic(batches: seq<seq<Payload>>, memberCount: int, late: nat -> bool)
      returns (result: Result<seq<Item>, FreezeError>)
    ensures result.Ok? <==>
              && |Flat(batches)| == memberCount <= 20_000 && TotalSize(Flat(batches)) <= 16 * 1024 * 1024
              && forall b :: 0 <= b < |batches| ==> !late(b)
    ensures result.Ok? ==> result.value == Numbered(Flat(batches))
  {
    if memberCount < 0 || memberCount > MAX_SNAPSHOT_ITEMS {
      return Err(TooLarge);
    }
    var items: seq<Item>, count, size := [], 0, 0;
    for b := 0 to |batches|
      invariant FrozenSoFar(batches, b, items, count, size)
      invariant forall c :: 0 <= c < b ==> !late(c)
    {
      if late(b) {
        return Err(TooSlow);
      }
      var ok, more, count', size' := FreezeBatch(batches[b], count, size);
      NextBatch(batches, b, items, count, size, ok, more);
      if !ok {
        return Err(TooLarge);
      }
      items, count, size := items + more, count', size';
    }
    AllFrozenSoFar(batches, items, count, size);
    if count != memberCount {
      return Err(WrongMembership);
    }
    return Ok(items);
  }

  /** The first pass of `_freeze_reference`: the number of rows, if they fit and arrive in time. */
  method MeasureReference(batches: seq<seq<Payload>>, late: nat -> bool) returns (result: Result<nat, FreezeError>)
    ensures result.Ok? <==> Fits(Flat(batches)) && forall b :: 0 <= b < |batches| ==> !late(b)
    ensures result.Ok? ==> result.value == |Flat(batches)|
  {
    var count, size := 0, 0;
    ghost var items := [];
    for b := 0 to |batches|
      invariant FrozenSoFar(batches, b, items, count, size)
      invariant forall c :: 0 <= c < b ==> !late(c)
    {
      if late(b) {
        return Err(TooSlow);
      }
      var ok, more, count', size' := FreezeBatch(batches[b], count, size);
      NextBatch(batches, b, items, count, size, ok, more);
      if !ok {
        return Err(TooLarge);
      }
      items, count, size := items + more, count', size';
    }
    AllFrozenSoFar(batches, items, count, size);
    return Ok(count);
  }

  /**
   Both passes of `_freeze_reference`, the second over `again`: it succeeds exactly when the first pass fits, no batch
   is late and both passes see the same number of rows, and then the rows of the second pass are stored from 1 on.
   */
  method FreezeReference(batches: seq<seq<Payload>>, again: seq<seq<Payload>>, late: nat -> bool)
    returns (result: Result<seq<Item>, FreezeError>)
    ensures result.Ok? <==>
              && |Flat(batches)| <= 20_000 && TotalSize(Flat(batches)) <= 16 * 1024 * 1024
              && |Flat(again)| == |Flat(batches)|
              && forall b :: 0 <= b < |batches| + |again| ==> !late(b)
    ensures result.Ok? ==> result.value == Numbered(Flat(again))
  {
    var measured := MeasureReference(batches, late);
    if measured.Err? {
      return Err(measured.error);
    }
    var items: seq<Item>, ordinal := [], 0;
    for b := 0 to |again|
      invariant ordinal == |Flat(again[..b])| && items == Numbered(Flat(again[..b]))
      invariant forall c :: 0 <= c < |batches| + b ==> !late(c)
    {
      if late(|batches| + b) {
        return Err(TooSlow);
      }
      FlatNext(again, b);
      var more := seq(|again[b]|, i requires 0 <= i < |again[b]| => Item(ordinal + i + 1, again[b][i]));
      NumberedAppend(Flat(again[..b]), again[b], more);
      items, ordinal := items + more, ordinal + |again[b]|;
    }
    assert again[..|again|] == again;
    if ordinal != measured.value {
      return Err(WrongMembership);
    }
    return Ok(items);
  }
}
