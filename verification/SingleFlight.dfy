/**
 The single-flight cache of the traffic statistics route. Requests run on one event loop: a step is what a request does
 between two awaits, and a request can be cancelled at every await.
 */
module SingleFlight {
  import opened Common
  import opened LruCache
  import opened TimeUtils

  /** The stripped route and the days of a request. */
  type Key = int
  type RequestId = int
  type EntryId = int
  type Response = int

  const MAX_ENTRIES: nat := 128

  // ----- the cache -----

  /** A stored response and when it was stored. */
  datatype Cached = Cached(at: int, response: Response)

  predicate Fresh(c: Cached, now: int, ttl: int) {
    now - c.at <= ttl * SECOND
  }

  /** `get_cached`: a stale entry is dropped, a hit becomes the most recent entry. */
  function AfterGet(cache: seq<Entry<Key, Cached>>, key: Key, now: int, ttl: int): seq<Entry<Key, Cached>> {
    var found := Find(cache, key);
    if found.Some? && !Fresh(found.value, now, ttl) then Without(cache, key) else Moved(cache, key)
  }

  function Hit(cache: seq<Entry<Key, Cached>>, key: Key, now: int, ttl: int): Option<Response> {
    var found := Find(cache, key);
    if found.None? || !Fresh(found.value, now, ttl) then None else Some(found.value.response)
  }

  /** The cache after a result is stored. */
  function AfterStore(cache: seq<Entry<Key, Cached>>, key: Key, now: int, response: Response): seq<Entry<Key, Cached>> {
    Stored(cache, key, Cached(now, response), MAX_ENTRIES)
  }

  ghost predicate SmallCache(cache: seq<Entry<Key, Cached>>) {
    UniqueKeys(cache) && |cache| <= MAX_ENTRIES
  }

  /** Reading and storing keep the cache small. */
  lemma CacheKeepsSmall(cache: seq<Entry<Key, Cached>>, key: Key, now: int, ttl: int, response: Response)
    requires SmallCache(cache)
    ensures SmallCache(AfterGet(cache, key, now, ttl)) && SmallCache(AfterStore(cache, key, now, response))
  {
    CacheStaysSmall(cache, key, Cached(now, response), MAX_ENTRIES);
    WithoutUnique(cache, key);
  }

  /** A stored result is found again until it is stale, whatever was stored before it. */
  lemma StoredUntilStale(cache: seq<Entry<Key, Cached>>, key: Key, at: int, response: Response, now: int, ttl: int)
    ensures Hit(AfterStore(cache, key, at, response), key, now, ttl)
         == if now - at <= ttl * SECOND then Some(response) else None
  {
    StoredIsFound(cache, key, Cached(at, response), MAX_ENTRIES);
  }

  /**
   A lookup in terms of the entries: one that is at most `ttl` seconds old is returned and becomes the most recent, an
   older one goes, and the others keep their order; without one of the key nothing changes.
   */
  ghost predicate IsLookup(
      before: seq<Entry<Key, Cached>>, key: Key, now: int, ttl: int, response: Option<Response>,
      after: seq<Entry<Key, Cached>>)
  {
    if forall i :: 0 <= i < |before| ==> before[i].key != key then response == None && after == before
    else
      exists i ::
        && 0 <= i < |before| && before[i].key == key
        && if now - before[i].value.at <= ttl * SECOND
           then response == Some(before[i].value.response) && after == before[..i] + before[i + 1..] + [before[i]]
           else response == None && after == before[..i] + before[i + 1..]
  }

  lemma GetIsLookup(cache: seq<Entry<Key, Cached>>, key: Key, now: int, ttl: int)
    requires UniqueKeys(cache)
    ensures IsLookup(cache, key, now, ttl, Hit(cache, key, now, ttl), AfterGet(cache, key, now, ttl))
  {
    if i: nat :| i < |cache| && cache[i].key == key {
      PresentIsCut(cache, key, i);
    } else {
      AbsentIsKept(cache, key);
    }
  }

  /** `get_cached` on the OrderedDict of the application state. */
  method GetCached(cache: OrderedDict<Key, Cached>, key: Key, now: int, ttl: int) returns (response: Option<Response>)
    modifies cache
    ensures response == Hit(old(cache.entries), key, now, ttl)
    ensures cache.entries == AfterGet(old(cache.entries), key, now, ttl)
    ensures UniqueKeys(old(cache.entries)) ==> IsLookup(old(cache.entries), key, now, ttl, response, cache.entries)
  {
    if UniqueKeys(cache.entries) {
      GetIsLookup(cache.entries, key, now, ttl);
    }
    var cached := Find(cache.entries, key);
    if cached.None? {
      return None;
    }
    if now - cached.value.at > ttl * SECOND {
      cache.Pop(key);
      return None;
    }
    cache.MoveToEnd(key);
    return Some(cached.value.response);
  }

  // ----- requests -----

  /** Where a request waits: for its lock, in the calculation, or in the rollback after a timeout. */
  datatype Phase =
    | Waiting(key: Key, entry: EntryId)
    | Calculating(key: Key, entry: EntryId)
    | RollingBack(key: Key, entry: EntryId)
    | Uncached

  predicate Joined(p: Phase) {
    !p.Uncached?
  }

  predicate HasLock(p: Phase) {
    p.Calculating? || p.RollingBack?
  }

  predicate HasSlot(p: Phase) {
    !p.Waiting?
  }

  /** The lock object of a key, its user count and who holds it. */
  datatype Lock = Lock(users: int, holder: Option<RequestId>)

  /** `limit` is the semaphore's initial value, `slots` the number of permits taken. */
  datatype State = State(
    limit: nat, ttl: nat, clock: int, phases: map<RequestId, Phase>,
    locks: map<Key, EntryId>, entries: map<EntryId, Lock>, next: EntryId, slots: int, cache: seq<Entry<Key, Cached>>)

  function Initial(limit: nat, ttl: nat): State {
    State(limit, ttl, 0, map[], map[], map[], 0, 0, [])
  }

  datatype Event =
    | Tick(now: int)
    | Start(request: RequestId, key: Key)
    | StartUncached(request: RequestId)
    | Acquire(request: RequestId)
    | Finish(request: RequestId, response: Response)
    | TimeOut(request: RequestId)
    | Leave(request: RequestId)

  /** The `finally` clauses: the slot, the lock and the user count are given back. */
  function Left(s: State, r: RequestId): State
    requires r in s.phases
  {
    var p := s.phases[r];
    var t := s.(phases := s.phases - {r}, slots := s.slots - if HasSlot(p) then 1 else 0);
    if !Joined(p) || p.entry !in s.entries then t
    else
      var e := s.entries[p.entry];
      var users, holder := e.users - 1, if e.holder == Some(r) then None else e.holder;
      if users == 0 then t.(locks := s.locks - {p.key}, entries := s.entries - {p.entry})
      else t.(entries := s.entries[p.entry := Lock(users, holder)])
  }

  function Served(s: State, key: Key): State {
    s.(cache := AfterGet(s.cache, key, s.clock, s.ttl))
  }

  /** `setdefault` and `users += 1`. */
  function Join(s: State, r: RequestId, key: Key): State {
    if key in s.locks && s.locks[key] in s.entries then
      var id := s.locks[key];
      s.(phases := s.phases[r := Waiting(key, id)],
         entries := s.entries[id := s.entries[id].(users := s.entries[id].users + 1)])
    else
      s.(phases := s.phases[r := Waiting(key, s.next)], locks := s.locks[key := s.next],
         entries := s.entries[s.next := Lock(1, None)], next := s.next + 1)
  }

  /** With the lock: a second look at the cache, then the admission check of the calculation. */
  function Acquired(s: State, r: RequestId, key: Key, id: EntryId): State
    requires r in s.phases && id in s.entries
  {
    var t := Served(s, key);
    if Hit(s.cache, key, s.clock, s.ttl).Some? || s.slots >= s.limit then Left(t, r)
    else t.(phases := s.phases[r := Calculating(key, id)], slots := s.slots + 1,
            entries := s.entries[id := s.entries[id].(holder := Some(r))])
  }

  function Step(s: State, e: Event): Option<State> {
    match e
    case Tick(now) => if now < s.clock then None else Some(s.(clock := now))
    case Start(r, key) =>
      if r in s.phases || s.ttl == 0 then None
      else if Hit(s.cache, key, s.clock, s.ttl).Some? then Some(Served(s, key))
      else Some(Join(Served(s, key), r, key))
    case StartUncached(r) =>
      if r in s.phases || s.ttl != 0 then None
      else if s.slots >= s.limit then Some(s)
      else Some(s.(phases := s.phases[r := Uncached], slots := s.slots + 1))
    case Acquire(r) =>
      if r !in s.phases || !s.phases[r].Waiting? || s.phases[r].entry !in s.entries then None
      else if s.entries[s.phases[r].entry].holder.Some? then None
      else Some(Acquired(s, r, s.phases[r].key, s.phases[r].entry))
    case Finish(r, response) =>
      if r !in s.phases || !(s.phases[r].Calculating? || s.phases[r].Uncached?) then None
      else if s.phases[r].Uncached? then Some(Left(s, r))
      else Some(Left(s.(cache := AfterStore(s.cache, s.phases[r].key, s.clock, response)), r))
    case TimeOut(r) =>
      if r !in s.phases || !s.phases[r].Calculating? then None
      else Some(s.(phases := s.phases[r := RollingBack(s.phases[r].key, s.phases[r].entry)]))
    case Leave(r) => if r !in s.phases then None else Some(Left(s, r))
  }

  function After(s: State, es: seq<Event>): State
    decreases |es|
  {
    if es == [] then s
    else match Step(s, es[0])
         case None => After(s, es[1..])
         case Some(t) => After(t, es[1..])
  }

  // ----- the invariant -----

  function Users(phases: map<RequestId, Phase>, id: EntryId): set<RequestId> {
    set r | r in phases && Joined(phases[r]) && phases[r].entry == id
  }

  function SlotHolders(phases: map<RequestId, Phase>): set<RequestId> {
    set r | r in phases && HasSlot(phases[r])
  }

  /** An entry is used by exactly its counted requests, at least one; its holder is the one past the lock. */
  ghost predicate EntryInv(s: State, key: Key) {
    key in s.locks && s.locks[key] in s.entries &&
    var id, e := s.locks[key], s.entries[s.locks[key]];
    && id < s.next
    && e.users == |Users(s.phases, id)| && e.users > 0
    && (e.holder.Some? ==>
        e.holder.value in s.phases && HasLock(s.phases[e.holder.value]) && s.phases[e.holder.value].entry == id)
    && (forall r :: r in s.phases && HasLock(s.phases[r]) && s.phases[r].entry == id ==> e.holder == Some(r))
  }

  ghost predicate Inv(s: State) {
    && (forall key :: key in s.locks ==> EntryInv(s, key))
    && (forall key, other :: key in s.locks && other in s.locks && key != other ==> s.locks[key] != s.locks[other])
    && (forall id :: id in s.entries ==> exists key :: key in s.locks && s.locks[key] == id)
    && (forall r :: r in s.phases && Joined(s.phases[r]) ==>
          s.phases[r].key in s.locks && s.locks[s.phases[r].key] == s.phases[r].entry)
    && s.slots == |SlotHolders(s.phases)| && s.slots <= s.limit
    && SmallCache(s.cache)
  }

  lemma UsersWithout(phases: map<RequestId, Phase>, r: RequestId, id: EntryId)
    requires r in phases
    ensures var users, left := Users(phases, id), Users(phases - {r}, id);
            && left == users - {r}
            && |left| == |users| - if r in users then 1 else 0
  {
    assert Users(phases - {r}, id) == Users(phases, id) - {r};
  }

  lemma UsersWith(phases: map<RequestId, Phase>, r: RequestId, p: Phase, id: EntryId)
    requires r !in phases
    ensures |Users(phases[r := p], id)| == |Users(phases, id)| + if Joined(p) && p.entry == id then 1 else 0
  {
    var after := phases[r := p];
    UsersWithout(after, r, id);
    assert after - {r} == phases;
    assert r in Users(after, id) <==> Joined(p) && p.entry == id;
  }

  lemma SlotsWithout(phases: map<RequestId, Phase>, r: RequestId)
    requires r in phases
    ensures |SlotHolders(phases - {r})| == |SlotHolders(phases)| - if HasSlot(phases[r]) then 1 else 0
  {
    assert SlotHolders(phases - {r}) == SlotHolders(phases) - {r};
  }

  lemma SlotsWith(phases: map<RequestId, Phase>, r: RequestId, p: Phase)
    requires r in phases ==> !HasSlot(phases[r])
    ensures |SlotHolders(phases[r := p])| == |SlotHolders(phases)| + if HasSlot(p) then 1 else 0
  {
    assert SlotHolders(phases[r := p]) == if HasSlot(p) then SlotHolders(phases) + {r} else SlotHolders(phases);
  }

  /** The lock table part of the invariant. */
  ghost predicate LockInv(s: State) {
    && (forall key :: key in s.locks ==> EntryInv(s, key))
    && (forall key, other :: key in s.locks && other in s.locks && key != other ==> s.locks[key] != s.locks[other])
    && (forall id :: id in s.entries ==> exists key :: key in s.locks && s.locks[key] == id)
    && (forall r :: r in s.phases && Joined(s.phases[r]) ==>
          s.phases[r].key in s.locks && s.locks[s.phases[r].key] == s.phases[r].entry)
  }

  lemma OtherEntriesAfterLeave(s: State, r: RequestId, key: Key)
    requires LockInv(s) && r in s.phases && key in s.locks
    requires Joined(s.phases[r]) ==> s.phases[r].key != key
    ensures key in Left(s, r).locks && EntryInv(Left(s, r), key)
  {
    var t, id := Left(s, r), s.locks[key];
    assert EntryInv(s, key);
    UsersWithout(s.phases, r, id);
    if Joined(s.phases[r]) {
      assert EntryInv(s, s.phases[r].key);
    }
    assert t.locks[key] == id && t.entries[id] == s.entries[id];
    forall q | q in t.phases && HasLock(t.phases[q]) && t.phases[q].entry == id
        ensures s.entries[id].holder == Some(q) {
      assert s.phases[q] == t.phases[q];
    }
  }

  lemma OwnEntryAfterLeave(s: State, r: RequestId)
    requires LockInv(s) && r in s.phases && Joined(s.phases[r])
    ensures var key, t := s.phases[r].key, Left(s, r);
            && (key in t.locks ==> EntryInv(t, key))
            && (key !in t.locks ==> Users(t.phases, s.phases[r].entry) == {})
  {
    var key, id, t := s.phases[r].key, s.phases[r].entry, Left(s, r);
    assert EntryInv(s, key);
    UsersWithout(s.phases, r, id);
    assert r in Users(s.phases, id);
    if key in t.locks {
      forall q | q in t.phases && HasLock(t.phases[q]) && t.phases[q].entry == id
          ensures t.entries[id].holder == Some(q) {
        assert s.phases[q] == t.phases[q];
      }
    }
  }

  lemma LeaveKeepsLocks(s: State, r: RequestId)
    requires LockInv(s) && r in s.phases
    ensures LockInv(Left(s, r))
  {
    var t := Left(s, r);
    forall key | key in t.locks ensures EntryInv(t, key) {
      if Joined(s.phases[r]) && s.phases[r].key == key {
        OwnEntryAfterLeave(s, r);
      } else {
        OtherEntriesAfterLeave(s, r, key);
      }
    }
    if Joined(s.phases[r]) {
      OwnEntryAfterLeave(s, r);
      assert EntryInv(s, s.phases[r].key);
    }
    forall q | q in t.phases && Joined(t.phases[q])
      ensures t.phases[q].key in t.locks && t.locks[t.phases[q].key] == t.phases[q].entry
    {
      assert s.phases[q] == t.phases[q];
      if Joined(s.phases[r]) && s.phases[r].key == t.phases[q].key {
        assert q in Users(t.phases, s.phases[r].entry);
      }
    }
    forall id | id in t.entries ensures exists key :: key in t.locks && t.locks[key] == id {
      var key :| key in s.locks && s.locks[key] == id;
      if Joined(s.phases[r]) && s.phases[r].key == key {
        assert t.locks == s.locks;
      }
      assert key in t.locks && t.locks[key] == id;
    }
  }

  lemma LeaveKeepsInv(s: State, r: RequestId)
    requires Inv(s) && r in s.phases
    ensures Inv(Left(s, r))
  {
    LeaveKeepsLocks(s, r);
    SlotsWithout(s.phases, r);
  }

  /** The same locks and phases, with the cache in another state. */
  lemma CacheChangeKeepsInv(s: State, cache: seq<Entry<Key, Cached>>)
    requires Inv(s) && SmallCache(cache)
    ensures Inv(s.(cache := cache))
  {
    var t := s.(cache := cache);
    forall key | key in t.locks ensures EntryInv(t, key) {
      assert EntryInv(s, key);
    }
  }

  /** One more user of an entry that exists, or of none. */
  lemma JoinKeepsEntry(s: State, t: State, r: RequestId, p: Phase, key: Key)
    requires r !in s.phases && p.Waiting? && t.phases == s.phases[r := p] && key in s.locks && EntryInv(s, key)
    requires key in t.locks && t.locks[key] == s.locks[key] && t.next >= s.next && s.locks[key] in t.entries
    requires var e := s.entries[s.locks[key]];
             t.entries[s.locks[key]] == if p.entry == s.locks[key] then e.(users := e.users + 1) else e
    ensures EntryInv(t, key)
  {
    UsersWith(s.phases, r, p, s.locks[key]);
    forall q | q in t.phases && HasLock(t.phases[q]) && t.phases[q].entry == t.locks[key]
      ensures t.entries[t.locks[key]].holder == Some(q)
    {
      assert q != r && s.phases[q] == t.phases[q];
    }
  }

  lemma NewEntryInv(s: State, t: State, r: RequestId, key: Key)
    requires LockInv(s) && r !in s.phases && key !in s.locks && t == Join(s, r, key)
    ensures EntryInv(t, key)
  {
    NewEntryIsUnused(s);
    UsersWith(s.phases, r, Waiting(key, s.next), s.next);
    assert forall q :: q in s.phases && Joined(s.phases[q]) ==> s.phases[q].entry != s.next;
    assert forall q :: q in t.phases && HasLock(t.phases[q]) ==> q in s.phases && s.phases[q] == t.phases[q];
  }

  lemma JoinKeepsLocks(s: State, r: RequestId, key: Key)
    requires LockInv(s) && r !in s.phases
    ensures LockInv(Join(s, r, key))
  {
    var t := Join(s, r, key);
    NewEntryIsUnused(s);
    if key in s.locks {
      assert EntryInv(s, key);
    } else {
      NewEntryInv(s, t, r, key);
    }
    forall other | other in s.locks ensures EntryInv(t, other) {
      assert EntryInv(s, other);
      JoinKeepsEntry(s, t, r, t.phases[r], other);
    }
    JoinKeepsKeys(s, r, key);
  }

  lemma JoinKeepsKeys(s: State, r: RequestId, key: Key)
    requires LockInv(s) && r !in s.phases
    ensures var t := Join(s, r, key);
            && (forall id :: id in t.entries ==> exists k :: k in t.locks && t.locks[k] == id)
            && (forall q :: q in t.phases && Joined(t.phases[q]) ==>
                  t.phases[q].key in t.locks && t.locks[t.phases[q].key] == t.phases[q].entry)
  {
    var t := Join(s, r, key);
    if key in s.locks {
      assert EntryInv(s, key);
    }
    forall id | id in t.entries ensures exists k :: k in t.locks && t.locks[k] == id {
      if id in s.entries {
        var k :| k in s.locks && s.locks[k] == id;
        assert k in t.locks && t.locks[k] == id;
      } else {
        assert t.locks[key] == id;
      }
    }
    forall q | q in t.phases && Joined(t.phases[q])
      ensures t.phases[q].key in t.locks && t.locks[t.phases[q].key] == t.phases[q].entry
    {
      assert q != r ==> s.phases[q] == t.phases[q];
    }
  }

  lemma NewEntryIsUnused(s: State)
    requires LockInv(s)
    ensures Users(s.phases, s.next) == {} && s.next !in s.entries
    ensures forall r :: r in s.phases && Joined(s.phases[r]) ==> s.phases[r].entry != s.next
    ensures forall key :: key in s.locks ==> s.locks[key] < s.next
  {
    forall key | key in s.locks ensures s.locks[key] < s.next {
      assert EntryInv(s, key);
    }
    forall r | r in s.phases && Joined(s.phases[r]) ensures s.phases[r].entry != s.next {
      assert s.phases[r].key in s.locks;
    }
  }

  /** A waiting request takes the free lock and a slot. */
  lemma CalculateKeepsLocks(s: State, r: RequestId, t: State)
    requires LockInv(s) && r in s.phases && s.phases[r].Waiting? && s.entries.Keys >= {s.phases[r].entry}
    requires s.entries[s.phases[r].entry].holder.None?
    requires var p := s.phases[r];
             && t.phases == s.phases[r := Calculating(p.key, p.entry)] && t.locks == s.locks && t.next == s.next
             && t.entries == s.entries[p.entry := s.entries[p.entry].(holder := Some(r))]
    ensures LockInv(t)
  {
    forall key | key in t.locks ensures EntryInv(t, key) {
      assert EntryInv(s, key);
      assert Users(t.phases, t.locks[key]) == Users(s.phases, s.locks[key]);
      forall q | q in t.phases && HasLock(t.phases[q]) && t.phases[q].entry == t.locks[key]
        ensures t.entries[t.locks[key]].holder == Some(q)
      {
        assert q != r ==> s.phases[q] == t.phases[q];
      }
    }
  }

  lemma TimeOutKeepsInv(s: State, r: RequestId)
    requires Inv(s) && r in s.phases && s.phases[r].Calculating?
    ensures Inv(s.(phases := s.phases[r := RollingBack(s.phases[r].key, s.phases[r].entry)]))
  {
    var t := s.(phases := s.phases[r := RollingBack(s.phases[r].key, s.phases[r].entry)]);
    forall key | key in t.locks ensures EntryInv(t, key) {
      assert EntryInv(s, key);
      assert Users(t.phases, t.locks[key]) == Users(s.phases, s.locks[key]);
    }
    assert SlotHolders(t.phases) == SlotHolders(s.phases);
  }

  lemma AcquireKeepsInv(s: State, r: RequestId)
    requires Inv(s) && r in s.phases && s.phases[r].Waiting? && s.phases[r].entry in s.entries
    requires s.entries[s.phases[r].entry].holder.None?
    ensures Inv(Acquired(s, r, s.phases[r].key, s.phases[r].entry))
  {
    var p := s.phases[r];
    var served := Served(s, p.key);
    CacheKeepsSmall(s.cache, p.key, s.clock, s.ttl, 0);
    CacheChangeKeepsInv(s, AfterGet(s.cache, p.key, s.clock, s.ttl));
    if Hit(s.cache, p.key, s.clock, s.ttl).Some? || s.slots >= s.limit {
      LeaveKeepsInv(served, r);
    } else {
      SlotsWith(s.phases, r, Calculating(p.key, p.entry));
      CalculateKeepsLocks(s, r, Acquired(s, r, p.key, p.entry));
    }
  }

  lemma StepKeepsInv(s: State, e: Event)
    requires Inv(s) && Step(s, e).Some?
    ensures Inv(Step(s, e).value)
  {
    var t := Step(s, e).value;
    match e
    case Tick(now) =>
      forall key | key in t.locks ensures EntryInv(t, key) {
        assert EntryInv(s, key);
      }
    case Start(r, key) =>
      CacheKeepsSmall(s.cache, key, s.clock, s.ttl, 0);
      CacheChangeKeepsInv(s, AfterGet(s.cache, key, s.clock, s.ttl));
      var served := Served(s, key);
      if Hit(s.cache, key, s.clock, s.ttl).None? {
        JoinKeepsLocks(served, r, key);
        SlotsWith(served.phases, r, Join(served, r, key).phases[r]);
      }
    case StartUncached(r) =>
      if s.slots < s.limit {
        SlotsWith(s.phases, r, Uncached);
        UncachedKeepsLocks(s, r, t);
      }
    case Acquire(r) => AcquireKeepsInv(s, r);
    case Finish(r, response) =>
      if s.phases[r].Calculating? {
        CacheKeepsSmall(s.cache, s.phases[r].key, s.clock, s.ttl, response);
        var cache := AfterStore(s.cache, s.phases[r].key, s.clock, response);
        CacheChangeKeepsInv(s, cache);
        LeaveKeepsInv(s.(cache := cache), r);
      } else {
        LeaveKeepsInv(s, r);
      }
    case TimeOut(r) => TimeOutKeepsInv(s, r);
    case Leave(r) => LeaveKeepsInv(s, r);
  }

  lemma UncachedKeepsLocks(s: State, r: RequestId, t: State)
    requires LockInv(s) && r !in s.phases && t == s.(phases := s.phases[r := Uncached], slots := s.slots + 1)
    ensures LockInv(t)
  {
    forall key | key in t.locks ensures EntryInv(t, key) {
      assert EntryInv(s, key);
      UsersWith(s.phases, r, Uncached, s.locks[key]);
    }
  }

  lemma {:induction false} AfterKeepsInv(s: State, es: seq<Event>)
    requires Inv(s)
    ensures Inv(After(s, es))
    decreases |es|
  {
    if es != [] {
      if Step(s, es[0]).Some? {
        StepKeepsInv(s, es[0]);
        AfterKeepsInv(Step(s, es[0]).value, es[1..]);
      } else {
        AfterKeepsInv(s, es[1..]);
      }
    }
  }

  // ----- main results -----

  lemma InitialInv(limit: nat, ttl: nat)
    ensures Inv(Initial(limit, ttl))
  {
    assert SlotHolders(map[]) == {};
  }

  /** In every run, at most one request per key is past its lock. */
  lemma OneCalculationPerKey(limit: nat, ttl: nat, es: seq<Event>, r: RequestId, q: RequestId)
    requires var s := After(Initial(limit, ttl), es);
             && r in s.phases && q in s.phases
             && (s.phases[r].Calculating? || s.phases[r].RollingBack?)
             && (s.phases[q].Calculating? || s.phases[q].RollingBack?)
             && s.phases[r].key == s.phases[q].key
    ensures r == q
  {
    InitialInv(limit, ttl);
    AfterKeepsInv(Initial(limit, ttl), es);
    var s := After(Initial(limit, ttl), es);
    assert EntryInv(s, s.phases[r].key);
  }

  lemma {:induction false} LimitStays(s: State, es: seq<Event>)
    ensures After(s, es).limit == s.limit
    decreases |es|
  {
    if es != [] {
      match Step(s, es[0])
      case None => LimitStays(s, es[1..]);
      case Some(t) =>
        assert t.limit == s.limit;
        LimitStays(t, es[1..]);
    }
  }

  /** The requests that calculate, or roll back after a timeout. */
  ghost function Working(s: State): set<RequestId> {
    set r | r in s.phases && !s.phases[r].Waiting?
  }

  /** In every run, calculations in flight never exceed the semaphore, and the cache never exceeds 128 entries. */
  lemma BoundedWork(limit: nat, ttl: nat, es: seq<Event>)
    ensures var s := After(Initial(limit, ttl), es);
            && |Working(s)| == s.slots <= limit
            && |s.cache| <= 128 && UniqueKeys(s.cache)
  {
    InitialInv(limit, ttl);
    AfterKeepsInv(Initial(limit, ttl), es);
    LimitStays(Initial(limit, ttl), es);
    var s := After(Initial(limit, ttl), es);
    forall r ensures r in Working(s) <==> r in SlotHolders(s.phases) {
    }
    assert Working(s) == SlotHolders(s.phases);
  }

  // ----- who calculates, and what is served -----

  /** The cache holds a response for the key that is at most `ttl` seconds old. */
  ghost predicate HasFresh(s: State, key: Key) {
    exists c :: c in s.cache && c.key == key && s.clock - c.value.at <= s.ttl * SECOND
  }

  lemma HitIffFresh(s: State, key: Key)
    requires UniqueKeys(s.cache)
    ensures Hit(s.cache, key, s.clock, s.ttl).Some? <==> HasFresh(s, key)
  {
    FoundIsMember(s.cache, key);
    forall i: nat | i < |s.cache| && s.cache[i].key == key ensures Find(s.cache, key) == Some(s.cache[i].value) {
      PresentIsCut(s.cache, key, i);
    }
  }

  /**
   A request that gets its lock calculates exactly if no response of its key is fresh and the semaphore has a permit;
   otherwise it is answered at once. So requests that waited for a calculation are served its result.
   */
  lemma CalculatesIffNeeded(limit: nat, ttl: nat, es: seq<Event>, r: RequestId)
    requires Step(After(Initial(limit, ttl), es), Acquire(r)).Some?
    ensures var s := After(Initial(limit, ttl), es);
            var t := Step(s, Acquire(r)).value;
            && r in s.phases && s.phases[r].Waiting?
            && if HasFresh(s, s.phases[r].key) || |Working(s)| >= limit
               then r !in t.phases && Working(t) == Working(s)
               else r in t.phases && t.phases[r] == Calculating(s.phases[r].key, s.phases[r].entry)
  {
    InitialInv(limit, ttl);
    AfterKeepsInv(Initial(limit, ttl), es);
    BoundedWork(limit, ttl, es);
    LimitStays(Initial(limit, ttl), es);
    var s := After(Initial(limit, ttl), es);
    HitIffFresh(s, s.phases[r].key);
  }

  /** A request without a fresh response waits for the lock of its key; a cached one does not. */
  lemma WaitsIffNotFresh(limit: nat, ttl: nat, es: seq<Event>, r: RequestId, key: Key)
    requires Step(After(Initial(limit, ttl), es), Start(r, key)).Some?
    ensures var s := After(Initial(limit, ttl), es);
            var t := Step(s, Start(r, key)).value;
            if HasFresh(s, key) then t.phases == s.phases
            else r in t.phases && t.phases[r].Waiting? && t.phases[r].key == key
  {
    InitialInv(limit, ttl);
    AfterKeepsInv(Initial(limit, ttl), es);
    HitIffFresh(After(Initial(limit, ttl), es), key);
  }

  /** Without a cache a request calculates exactly if the semaphore has a permit; otherwise it is refused at once. */
  lemma UncachedCalculatesIffFree(limit: nat, es: seq<Event>, r: RequestId)
    requires Step(After(Initial(limit, 0), es), StartUncached(r)).Some?
    ensures var s := After(Initial(limit, 0), es);
            var t := Step(s, StartUncached(r)).value;
            if |Working(s)| < limit then t.phases == s.phases[r := Uncached] else t.phases == s.phases
  {
    BoundedWork(limit, 0, es);
    LimitStays(Initial(limit, 0), es);
  }

  lemma TwoUsers(phases: map<RequestId, Phase>, id: EntryId, r: RequestId, q: RequestId)
    requires r != q && r in Users(phases, id) && q in Users(phases, id)
    ensures |Users(phases, id)| >= 2
  {
    assert {r, q} <= Users(phases, id);
    assert Users(phases, id) == {r, q} + (Users(phases, id) - {r, q});
  }

  /**
   One calculation serves all: when it finishes, whoever waits for its key can go on and is answered with its result,
   without a calculation of its own.
   */
  lemma ResultIsShared(limit: nat, ttl: nat, es: seq<Event>, r: RequestId, response: Response, q: RequestId)
    requires var s := After(Initial(limit, ttl), es);
             && r in s.phases && s.phases[r].Calculating?
             && q in s.phases && s.phases[q].Waiting? && s.phases[q].key == s.phases[r].key
    ensures var s := After(Initial(limit, ttl), es);
            && Step(s, Finish(r, response)).Some?
            && var t := Step(s, Finish(r, response)).value;
               && r !in t.phases && Hit(t.cache, s.phases[q].key, t.clock, t.ttl) == Some(response)
               && Step(t, Acquire(q)).Some? && q !in Step(t, Acquire(q)).value.phases
  {
    InitialInv(limit, ttl);
    AfterKeepsInv(Initial(limit, ttl), es);
    var s := After(Initial(limit, ttl), es);
    var key := s.phases[q].key;
    assert EntryInv(s, key);
    TwoUsers(s.phases, s.locks[key], r, q);
    StoredUntilStale(s.cache, key, s.clock, response, s.clock, s.ttl);
  }

  lemma {:induction false} AfterLast(s: State, es: seq<Event>)
    requires es != []
    ensures var before, e := After(s, es[..|es| - 1]), es[|es| - 1];
            After(s, es) == if Step(before, e).Some? then Step(before, e).value else before
    decreases |es|
  {
    if |es| > 1 {
      assert es[..|es| - 1][1..] == es[1..][..|es| - 2];
      AfterLast(if Step(s, es[0]).Some? then Step(s, es[0]).value else s, es[1..]);
    }
  }

  /** Request `r` finishes its calculation for the key with that response at event `i`, at that time. */
  ghost predicate FinishedAt(s: State, es: seq<Event>, i: nat, r: RequestId, key: Key, c: Cached) {
    && i < |es| && es[i] == Finish(r, c.response)
    && var before := After(s, es[..i]);
       r in before.phases && before.phases[r].Calculating? && before.phases[r].key == key && before.clock == c.at
  }

  lemma CacheGrowsByResults(s: State, e: Event, c: Entry<Key, Cached>)
    requires Step(s, e).Some? && c in Step(s, e).value.cache && c !in s.cache
    ensures e.Finish? && e.request in s.phases && s.phases[e.request].Calculating?
    ensures c == Entry(s.phases[e.request].key, Cached(s.clock, e.response))
  {
    if e.Start? || e.Acquire? {
      var key := if e.Start? then e.key else s.phases[e.request].key;
      WithoutMember(s.cache, key, c);
      FoundIsMember(s.cache, key);
    } else if e.Finish? && s.phases[e.request].Calculating? {
      WithoutMember(s.cache, s.phases[e.request].key, c);
    }
  }

  /** Every cached response is the result of a finished calculation of its key, with the time it finished. */
  lemma {:induction false} CacheHoldsResults(s: State, es: seq<Event>, c: Entry<Key, Cached>)
    returns (i: nat, r: RequestId)
    requires s.cache == [] && c in After(s, es).cache
    ensures FinishedAt(s, es, i, r, c.key, c.value)
  {
    if es == [] {
      assert false;
    } else {
      var front, e := es[..|es| - 1], es[|es| - 1];
      AfterLast(s, es);
      if c in After(s, front).cache {
        i, r := CacheHoldsResults(s, front, c);
        assert es[..i] == front[..i];
      } else {
        CacheGrowsByResults(After(s, front), e, c);
        i, r := |front|, e.request;
      }
    }
  }

  /**
   What is served from the cache, in any run, is the result of a calculation for the same key that finished at most
   `ttl` seconds ago.
   */
  lemma ServedIsRecentResult(limit: nat, ttl: nat, es: seq<Event>, key: Key, response: Response)
    requires var s := After(Initial(limit, ttl), es); Hit(s.cache, key, s.clock, ttl) == Some(response)
    ensures exists i, r, at ::
              && FinishedAt(Initial(limit, ttl), es, i, r, key, Cached(at, response))
              && After(Initial(limit, ttl), es).clock - at <= ttl * SECOND
  {
    var s := After(Initial(limit, ttl), es);
    FoundIsMember(s.cache, key);
    var c := Find(s.cache, key).value;
    var i, r := CacheHoldsResults(Initial(limit, ttl), es, Entry(key, c));
  }

  /** In every run, a key has a lock entry exactly while some request has joined it, and the count is their number. */
  lemma LockExistsWhileUsed(limit: nat, ttl: nat, es: seq<Event>, key: Key)
    ensures var s := After(Initial(limit, ttl), es);
            && (key in s.locks <==> exists r :: r in s.phases && Joined(s.phases[r]) && s.phases[r].key == key)
            && (key in s.locks ==>
                  && s.locks[key] in s.entries && s.entries[s.locks[key]].users > 0
                  && forall r :: r in s.phases && Joined(s.phases[r]) && s.phases[r].key == key ==>
                      r in Users(s.phases, s.locks[key]))
  {
    InitialInv(limit, ttl);
    AfterKeepsInv(Initial(limit, ttl), es);
    var s := After(Initial(limit, ttl), es);
    if key in s.locks {
      var id := s.locks[key];
      assert EntryInv(s, key);
      var r := SomeMember(Users(s.phases, id));
      assert s.locks[s.phases[r].key] == id;
    }
  }

  /** No timeout, error or cancellation leaks: once every request has left, no lock, no entry and no slot remains. */
  lemma NothingLeaks(limit: nat, ttl: nat, es: seq<Event>)
    requires After(Initial(limit, ttl), es).phases == map[]
    ensures var s := After(Initial(limit, ttl), es); s.locks == map[] && s.entries == map[] && s.slots == 0
  {
    InitialInv(limit, ttl);
    AfterKeepsInv(Initial(limit, ttl), es);
    var s := After(Initial(limit, ttl), es);
    forall key ensures key !in s.locks {
      LockExistsWhileUsed(limit, ttl, es, key);
    }
    forall id ensures id !in s.entries {
    }
    assert SlotHolders(s.phases) == {};
  }

  /** A request that waits for a free lock can always go on. */
  lemma FreeLockIsNeverLost(limit: nat, ttl: nat, es: seq<Event>, r: RequestId)
    requires var s := After(Initial(limit, ttl), es); r in s.phases && s.phases[r].Waiting?
    ensures var s := After(Initial(limit, ttl), es);
            || Step(s, Acquire(r)).Some?
            || exists h :: h in s.phases && h != r && HasLock(s.phases[h]) && s.phases[h].key == s.phases[r].key
  {
    InitialInv(limit, ttl);
    AfterKeepsInv(Initial(limit, ttl), es);
    var s := After(Initial(limit, ttl), es);
    assert EntryInv(s, s.phases[r].key);
    var e := s.entries[s.phases[r].entry];
    if e.holder.Some? {
      var h := e.holder.value;
      assert s.locks[s.phases[h].key] == s.phases[h].entry;
    }
  }
}
