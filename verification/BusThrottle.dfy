/**
 The bus timetable route: a cache, a provider block after a quota error, and a minimum interval between provider calls,
 all behind one lock. Requests interleave at every await; the copies stored in the database are not modelled here.
 */
module BusThrottle {
  import opened Arithmetic
  import opened Common
  import opened LruCache
  import opened TimeUtils

  type Key = int

  datatype Settings = Settings(cacheSeconds: int, intervalSeconds: int, maxEntries: nat, backoffSeconds: int)

  /** The ranges of the settings; `validate_bus_timetable_cache_interval` is stated separately. */
  predicate InRange(c: Settings) {
    30 <= c.cacheSeconds <= 3600 && 1 <= c.intervalSeconds <= 3600 && 1 <= c.maxEntries <= 10_000
  }

  /** `validate_bus_timetable_cache_interval`. */
  predicate LongEnoughCache(c: Settings) {
    c.cacheSeconds >= c.intervalSeconds
  }

  // ----- the cache -----

  predicate Stale(at: int, now: int, seconds: int) {
    now - at >= seconds * SECOND
  }

  /** Every stale entry dropped, whatever its key. */
  function Purged(cache: seq<Entry<Key, int>>, now: int, seconds: int): seq<Entry<Key, int>> {
    if cache == [] then []
    else
      var front, last := Purged(cache[..|cache| - 1], now, seconds), cache[|cache| - 1];
      if Stale(last.value, now, seconds) then front else front + [last]
  }

  /** `cached_response`: purge, then a hit becomes the most recent entry. */
  function AfterLook(cache: seq<Entry<Key, int>>, key: Key, now: int, seconds: int): seq<Entry<Key, int>> {
    Moved(Purged(cache, now, seconds), key)
  }

  predicate IsHit(cache: seq<Entry<Key, int>>, key: Key, now: int, seconds: int) {
    Find(Purged(cache, now, seconds), key).Some?
  }

  lemma {:induction false} FindPurged(cache: seq<Entry<Key, int>>, key: Key, now: int, seconds: int)
    requires Find(cache, key).Some? && !Stale(Find(cache, key).value, now, seconds)
    ensures Find(Purged(cache, now, seconds), key) == Find(cache, key)
  {
    var front, last := cache[..|cache| - 1], cache[|cache| - 1];
    var kept := Purged(front, now, seconds);
    if last.key != key {
      FindPurged(front, key, now, seconds);
    }
    if !Stale(last.value, now, seconds) {
      assert (kept + [last])[..|kept|] == kept;
    }
  }

  lemma FindMoved(cache: seq<Entry<Key, int>>, key: Key, other: Key)
    ensures Find(Moved(cache, other), key) == Find(cache, key)
  {
    var found := Find(cache, other);
    if found.Some? {
      var moved := Without(cache, other) + [Entry(other, found.value)];
      assert moved[..|moved| - 1] == Without(cache, other);
      if key != other {
        FindOther(cache, other, key);
      }
    }
  }

  lemma {:induction false} WithoutAppend(a: seq<Entry<Key, int>>, b: seq<Entry<Key, int>>, key: Key)
    ensures Without(a + b, key) == Without(a, key) + Without(b, key)
  {
    if b == [] {
      assert a + b == a;
    } else {
      assert (a + b)[..|a + b| - 1] == a + b[..|b| - 1];
      WithoutAppend(a, b[..|b| - 1], key);
    }
  }

  lemma {:induction false} WithoutAbsent(cache: seq<Entry<Key, int>>, key: Key)
    requires forall i :: 0 <= i < |cache| ==> cache[i].key != key
    ensures Without(cache, key) == cache
  {
    if cache != [] {
      WithoutAbsent(cache[..|cache| - 1], key);
    }
  }

  lemma {:induction false} PurgedMember(cache: seq<Entry<Key, int>>, now: int, seconds: int, c: Entry<Key, int>)
    ensures c in Purged(cache, now, seconds) ==> c in cache
  {
    if cache != [] {
      PurgedMember(cache[..|cache| - 1], now, seconds, c);
    }
  }

  lemma WithoutHead(c: Entry<Key, int>, rest: seq<Entry<Key, int>>)
    requires forall j :: 0 <= j < |rest| ==> rest[j].key != c.key
    ensures Without([c] + rest, c.key) == rest
  {
    assert [c][..0] == [];
    assert Without([c], c.key) == [];
    WithoutAppend([c], rest, c.key);
    WithoutAbsent(rest, c.key);
  }

  /** Popping the stale entry at `i` from a dictionary purged up to `i`. */
  lemma PopAt(cache: seq<Entry<Key, int>>, i: nat, now: int, seconds: int)
    requires UniqueKeys(cache) && i < |cache|
    ensures Without(Purged(cache[..i], now, seconds) + cache[i..], cache[i].key)
            == Purged(cache[..i], now, seconds) + cache[i + 1..]
  {
    var done, key := Purged(cache[..i], now, seconds), cache[i].key;
    forall j | 0 <= j < |done| ensures done[j].key != key {
      PurgedMember(cache[..i], now, seconds, done[j]);
    }
    WithoutAbsent(done, key);
    WithoutHead(cache[i], cache[i + 1..]);
    assert cache[i..] == [cache[i]] + cache[i + 1..];
    WithoutAppend(done, cache[i..], key);
  }

  /** One round of the purge: the dictionary is purged one entry further. */
  lemma PurgeNext(cache: seq<Entry<Key, int>>, i: nat, now: int, seconds: int)
    requires UniqueKeys(cache) && i < |cache|
    ensures var before, after := Purged(cache[..i], now, seconds) + cache[i..],
            Purged(cache[..i + 1], now, seconds) + cache[i + 1..];
            after == if Stale(cache[i].value, now, seconds) then Without(before, cache[i].key) else before
  {
    assert cache[..i + 1][..i] == cache[..i];
    if Stale(cache[i].value, now, seconds) {
      PopAt(cache, i, now, seconds);
    } else {
      assert cache[i..] == [cache[i]] + cache[i + 1..];
    }
  }

  /** The loop of `cached_response` over a copy of the items. */
  method PurgeStale(cache: OrderedDict<Key, int>, now: int, seconds: int)
    requires UniqueKeys(cache.entries)
    modifies cache
    ensures cache.entries == Purged(old(cache.entries), now, seconds)
  {
    var items := cache.entries;
    for i := 0 to |items|
      invariant cache.entries == Purged(items[..i], now, seconds) + items[i..]
    {
      PurgeNext(items, i, now, seconds);
      if now - items[i].value >= seconds * SECOND {
        cache.Pop(items[i].key);
      }
    }
    assert items[..|items|] == items;
  }

  /** An entry of the key is not `seconds` old yet. */
  ghost predicate HasYoung(cache: seq<Entry<Key, int>>, key: Key, now: int, seconds: int) {
    exists c :: c in cache && c.key == key && now < c.value + seconds * SECOND
  }

  lemma {:induction false} PurgedIsYoung(cache: seq<Entry<Key, int>>, now: int, seconds: int, c: Entry<Key, int>)
    ensures c in Purged(cache, now, seconds) <==> c in cache && now < c.value + seconds * SECOND
  {
    if cache != [] {
      PurgedIsYoung(cache[..|cache| - 1], now, seconds, c);
      assert cache == cache[..|cache| - 1] + [cache[|cache| - 1]];
    }
  }

  lemma {:induction false} PurgedIsUnique(cache: seq<Entry<Key, int>>, now: int, seconds: int)
    requires UniqueKeys(cache)
    ensures UniqueKeys(Purged(cache, now, seconds))
  {
    if cache != [] {
      var front := cache[..|cache| - 1];
      PurgedIsUnique(front, now, seconds);
      forall i | 0 <= i < |Purged(front, now, seconds)|
          ensures Purged(front, now, seconds)[i].key != cache[|cache| - 1].key {
        PurgedMember(front, now, seconds, Purged(front, now, seconds)[i]);
      }
    }
  }

  /** What a look finds and leaves. */
  lemma LookKeepsYoung(cache: seq<Entry<Key, int>>, key: Key, now: int, seconds: int)
    requires UniqueKeys(cache)
    ensures IsHit(cache, key, now, seconds) <==> HasYoung(cache, key, now, seconds)
    ensures forall c :: c in AfterLook(cache, key, now, seconds) <==> c in cache && now < c.value + seconds * SECOND
    ensures IsHit(cache, key, now, seconds) ==>
              var after := AfterLook(cache, key, now, seconds); after != [] && after[|after| - 1].key == key
  {
    var purged := Purged(cache, now, seconds);
    PurgedIsUnique(cache, now, seconds);
    FindIsOnly(purged, key);
    forall c ensures c in AfterLook(cache, key, now, seconds) <==> c in cache && now < c.value + seconds * SECOND {
      PurgedIsYoung(cache, now, seconds, c);
      WithoutMember(purged, key, c);
    }
    forall c ensures c in purged <==> c in cache && now < c.value + seconds * SECOND {
      PurgedIsYoung(cache, now, seconds, c);
    }
  }

  /** `cached_response` on the OrderedDict of the application state. */
  method CachedResponse(cache: OrderedDict<Key, int>, key: Key, now: int, seconds: int) returns (hit: bool)
    requires UniqueKeys(cache.entries)
    modifies cache
    ensures hit == IsHit(old(cache.entries), key, now, seconds)
    ensures cache.entries == AfterLook(old(cache.entries), key, now, seconds)
    ensures hit <==> HasYoung(old(cache.entries), key, now, seconds)
    ensures forall c :: c in cache.entries <==> c in old(cache.entries) && now < c.value + seconds * SECOND
    ensures hit ==> cache.entries != [] && cache.entries[|cache.entries| - 1].key == key
  {
    LookKeepsYoung(cache.entries, key, now, seconds);
    PurgeStale(cache, now, seconds);
    hit := Find(cache.entries, key).Some?;
    cache.MoveToEnd(key);
  }

  // ----- requests -----

  /** The last successful fetch: its key and the time of its provider call. */
  datatype Fetch = Fetch(key: Key, calledAt: int)

  /** `holder` is the key being fetched under the lock; `calls` are the times of all provider calls. */
  datatype State = State(
    clock: int, cache: seq<Entry<Key, int>>, lastCall: Option<int>, limitedUntil: Option<int>,
    holder: Option<Key>, calls: seq<int>, fetched: Option<Fetch>)

  const EMPTY: State := State(0, [], None, None, None, [], None)

  /** `max(1, int(seconds))` of a positive wait. */
  function RetryAfter(wait: int): int {
    if wait / SECOND < 1 then 1 else wait / SECOND
  }

  /** The whole seconds of the wait, at least one. */
  ghost predicate IsToldFor(seconds: int, wait: int) {
    if wait < SECOND then seconds == 1 else seconds * SECOND <= wait < (seconds + 1) * SECOND
  }

  datatype Answer = Served | RateLimited(retryAfter: int) | TooSoon(retryAfter: int) | CallsProvider

  /** What a request with the lock gets; without it, only the first two answers are given. */
  function Decide(c: Settings, s: State, key: Key): Answer {
    if IsHit(s.cache, key, s.clock, c.cacheSeconds) then Served
    else if s.limitedUntil.Some? && s.clock < s.limitedUntil.value
        then RateLimited(RetryAfter(s.limitedUntil.value - s.clock))
    else if s.lastCall.Some? && c.intervalSeconds * SECOND - (s.clock - s.lastCall.value) > 0 then
      TooSoon(RetryAfter(c.intervalSeconds * SECOND - (s.clock - s.lastCall.value)))
    else CallsProvider
  }

  /** The application state the handler keeps between requests. */
  class BusGuard {
    const settings: Settings
    const cache: OrderedDict<Key, int>
    var lastCall: Option<int>
    var limitedUntil: Option<int>

    constructor (settings: Settings)
      ensures this.settings == settings && lastCall == None && limitedUntil == None && cache.entries == []
    {
      this.settings, lastCall, limitedUntil := settings, None, None;
      cache := new OrderedDict<Key, int>();
    }

    /** The fields as a state of the machine below. */
    function StateAt(now: int): State
      reads this, cache
    {
      State(now, cache.entries, lastCall, limitedUntil, None, [], None)
    }

    /** The part of the handler under the lock, up to the provider call. */
    method Enter(key: Key, now: int) returns (answer: Answer)
      requires UniqueKeys(cache.entries)
      modifies this, cache
      ensures answer == Decide(settings, old(StateAt(now)), key)
      ensures answer == Served <==> HasYoung(old(cache.entries), key, now, settings.cacheSeconds)
      ensures answer.RateLimited? <==>
                answer != Served && limitedUntil.Some? && now < limitedUntil.value
      ensures answer.TooSoon? <==>
                && answer != Served && !answer.RateLimited?
                && old(lastCall).Some? && now < old(lastCall).value + settings.intervalSeconds * SECOND
      ensures answer.RateLimited? ==> IsToldFor(answer.retryAfter, limitedUntil.value - now)
      ensures answer.TooSoon? ==>
                IsToldFor(answer.retryAfter, old(lastCall).value + settings.intervalSeconds * SECOND - now)
      ensures cache.entries == AfterLook(old(cache.entries), key, now, settings.cacheSeconds)
      ensures lastCall == (if answer == CallsProvider then Some(now) else old(lastCall))
              && limitedUntil == old(limitedUntil)
    {
      var hit := CachedResponse(cache, key, now, settings.cacheSeconds);
      if hit {
        return Served;
      }
      if limitedUntil.Some? && now < limitedUntil.value {
        return RateLimited(RetryAfter(limitedUntil.value - now));
      }
      if lastCall.Some? {
        var remaining := settings.intervalSeconds * SECOND - (now - lastCall.value);
        if remaining > 0 {
          return TooSoon(RetryAfter(remaining));
        }
      }
      lastCall := Some(now);
      return CallsProvider;
    }

    /**
     A fetch that succeeded, after the copy is saved: whoever asks for the key is served from the cache until the entry
     is stale, so it costs no provider call; the cache keeps its size limit.
     */
    method Succeed(key: Key, now: int)
      requires UniqueKeys(cache.entries)
      modifies cache
      ensures cache.entries == Stored(old(cache.entries), key, now, settings.maxEntries)
      ensures UniqueKeys(cache.entries) && |cache.entries| <= settings.maxEntries
      ensures settings.maxEntries >= 1 ==>
                forall t :: t < now + settings.cacheSeconds * SECOND ==> Decide(settings, StateAt(t), key) == Served
    {
      CacheStaysSmall(cache.entries, key, now, settings.maxEntries);
      ghost var before := cache.entries;
      cache.Store(key, now, settings.maxEntries);
      if settings.maxEntries >= 1 {
        StoredIsFound(before, key, now, settings.maxEntries);
        forall t | t < now + settings.cacheSeconds * SECOND ensures Decide(settings, StateAt(t), key) == Served {
          FindPurged(cache.entries, key, t, settings.cacheSeconds);
        }
      }
    }

    /**
     A fetch that failed. After a quota error no request reaches the provider for one backoff: it is served from the
     cache or told to wait until then. Any other failure leaves every later decision as it was.
     */
    method Fail(quotaError: bool, now: int)
      modifies this`limitedUntil
      ensures limitedUntil == if quotaError then Some(now + settings.backoffSeconds * SECOND) else old(limitedUntil)
      ensures quotaError ==>
                forall t, key :: t < now + settings.backoffSeconds * SECOND ==>
                  var answer := Decide(settings, StateAt(t), key);
                  answer == Served || answer == RateLimited(RetryAfter(now + settings.backoffSeconds * SECOND - t))
      ensures quotaError ==>
                forall t, key :: t >= now + settings.backoffSeconds * SECOND ==>
                    !Decide(settings, StateAt(t), key).RateLimited?
      ensures !quotaError ==> limitedUntil == old(limitedUntil)
    {
      if quotaError {
        limitedUntil := Some(now + settings.backoffSeconds * SECOND);
      }
    }
  }

  datatype Event =
    | Tick(now: int)
    | Peek(key: Key)
    | Enter(key: Key)
    | Success
    | QuotaError
    | Failure

  function Looked(c: Settings, s: State, key: Key): State {
    s.(cache := AfterLook(s.cache, key, s.clock, c.cacheSeconds))
  }

  function Step(c: Settings, s: State, e: Event): Option<State> {
    match e
    case Tick(now) => if now < s.clock then None else Some(s.(clock := now))
    case Peek(key) => Some(Looked(c, s, key))
    case Enter(key) =>
      if s.holder.Some? then None
      else if Decide(c, s, key) != CallsProvider then Some(Looked(c, s, key))
      else Some(Looked(c, s, key).(lastCall := Some(s.clock), holder := Some(key), calls := s.calls + [s.clock]))
    case Success =>
      if s.holder.None? || s.lastCall.None? then None
      else Some(s.(cache := Stored(s.cache, s.holder.value, s.clock, c.maxEntries), holder := None,
                   fetched := Some(Fetch(s.holder.value, s.lastCall.value))))
    case QuotaError =>
      if s.holder.None? then None
      else Some(s.(limitedUntil := Some(s.clock + c.backoffSeconds * SECOND), holder := None))
    case Failure => if s.holder.None? then None else Some(s.(holder := None))
  }

  function After(c: Settings, s: State, es: seq<Event>): State
    decreases |es|
  {
    if es == [] then s
    else match Step(c, s, es[0])
         case None => After(c, s, es[1..])
         case Some(t) => After(c, t, es[1..])
  }

  // ----- the invariant -----

  /** Calls in order, each at least one interval after the one before; `lastCall` is the last of them. */
  ghost predicate Spaced(c: Settings, s: State) {
    && (forall i :: 0 < i < |s.calls| ==> s.calls[i] - s.calls[i - 1] >= c.intervalSeconds * SECOND)
    && s.lastCall == (if s.calls == [] then None else Some(s.calls[|s.calls| - 1]))
    && (s.lastCall.Some? ==> s.lastCall.value <= s.clock)
    && (s.holder.Some? ==> s.lastCall.Some?)
  }

  /** Inside the interval of the last successful fetch, its key is cached since no earlier than the call. */
  ghost predicate FetchedIsCached(c: Settings, s: State) {
    s.fetched.Some? && s.clock - s.fetched.value.calledAt < c.intervalSeconds * SECOND ==>
      && s.holder.None? && s.lastCall == Some(s.fetched.value.calledAt)
      && Find(s.cache, s.fetched.value.key).Some?
          && Find(s.cache, s.fetched.value.key).value >= s.fetched.value.calledAt
  }

  ghost predicate Inv(c: Settings, s: State) {
    && Spaced(c, s)
    && (s.fetched.Some? && s.lastCall.Some? ==> s.fetched.value.calledAt <= s.lastCall.value)
    && (s.fetched.Some? ==> s.lastCall.Some?)
    && (LongEnoughCache(c) ==> FetchedIsCached(c, s))
  }

  /** A look keeps every entry that is not stale yet. */
  lemma LookKeepsFetched(c: Settings, s: State, key: Key)
    requires LongEnoughCache(c) && FetchedIsCached(c, s)
    ensures FetchedIsCached(c, Looked(c, s, key))
    ensures s.fetched.Some? && s.clock - s.fetched.value.calledAt < c.intervalSeconds * SECOND ==>
              IsHit(s.cache, s.fetched.value.key, s.clock, c.cacheSeconds)
  {
    if s.fetched.Some? && s.clock - s.fetched.value.calledAt < c.intervalSeconds * SECOND {
      FindPurged(s.cache, s.fetched.value.key, s.clock, c.cacheSeconds);
      FindMoved(Purged(s.cache, s.clock, c.cacheSeconds), s.fetched.value.key, key);
    }
  }

  lemma StepKeepsInv(c: Settings, s: State, e: Event)
    requires InRange(c) && Inv(c, s) && Step(c, s, e).Some?
    ensures Inv(c, Step(c, s, e).value)
  {
    match e
    case Peek(key) => if LongEnoughCache(c) { LookKeepsFetched(c, s, key); }
    case Enter(key) => if LongEnoughCache(c) { LookKeepsFetched(c, s, key); }
    case Success => StoredIsFound(s.cache, s.holder.value, s.clock, c.maxEntries);
    case Tick(_) =>
    case QuotaError =>
    case Failure =>
  }

  lemma {:induction false} AfterKeepsInv(c: Settings, s: State, es: seq<Event>)
    requires InRange(c) && Inv(c, s)
    ensures Inv(c, After(c, s, es))
    decreases |es|
  {
    if es != [] {
      if Step(c, s, es[0]).Some? {
        StepKeepsInv(c, s, es[0]);
        AfterKeepsInv(c, Step(c, s, es[0]).value, es[1..]);
      } else {
        AfterKeepsInv(c, s, es[1..]);
      }
    }
  }

  // ----- main results -----

  lemma {:induction false} SpacedCalls(calls: seq<int>, gap: int, i: nat, j: nat)
    requires i <= j < |calls| && gap >= 0
    requires forall k :: 0 < k < |calls| ==> calls[k] - calls[k - 1] >= gap
    ensures calls[j] - calls[i] >= (j - i) * gap
    decreases j
  {
    if i < j {
      SpacedCalls(calls, gap, i, j - 1);
      assert (j - i) * gap == (j - 1 - i) * gap + gap;
    }
  }

  /** In every run, the k-th next provider call comes at least k intervals later. */
  lemma CallsAreSpaced(c: Settings, es: seq<Event>, i: nat, j: nat)
    requires InRange(c) && i <= j < |After(c, EMPTY, es).calls|
    ensures After(c, EMPTY, es).calls[j] - After(c, EMPTY, es).calls[i] >= (j - i) * (c.intervalSeconds * SECOND)
  {
    AfterKeepsInv(c, EMPTY, es);
    SpacedCalls(After(c, EMPTY, es).calls, c.intervalSeconds * SECOND, i, j);
  }

  /** With the default interval of 15 minutes, fewer than 97 calls fall within any 24 hours. */
  lemma DailyQuotaHolds(c: Settings, es: seq<Event>, i: nat, j: nat)
    requires InRange(c) && c.intervalSeconds == 900 && i <= j < |After(c, EMPTY, es).calls|
    requires After(c, EMPTY, es).calls[j] - After(c, EMPTY, es).calls[i] < DAY
    ensures j - i + 1 <= 96
  {
    CallsAreSpaced(c, es, i, j);
  }

  /**
   In every run with a cache lifetime of at least the interval, a request for the key last fetched successfully is
   served from the cache while the interval of that fetch lasts: no expiry or eviction has removed it.
   */
  lemma RepeatIsServed(c: Settings, es: seq<Event>)
    requires InRange(c) && LongEnoughCache(c)
    requires var s := After(c, EMPTY, es);
             s.fetched.Some? && s.clock - s.fetched.value.calledAt < c.intervalSeconds * SECOND
    ensures var s := After(c, EMPTY, es); Decide(c, s, s.fetched.value.key) == Served
  {
    AfterKeepsInv(c, EMPTY, es);
    var s := After(c, EMPTY, es);
    LookKeepsFetched(c, s, s.fetched.value.key);
  }

  /** A run that asks again for key 1 when its entry has just expired. */
  function ExpiryRun(c: Settings): seq<Event> {
    [Enter(1), Success, Tick(c.cacheSeconds * SECOND)]
  }

  /** The validated relation of the settings is needed: with a shorter cache the same request is throttled. */
  lemma ShortCacheThrottles(c: Settings)
    requires InRange(c) && !LongEnoughCache(c)
    ensures var s := After(c, EMPTY, ExpiryRun(c));
            && s.fetched == Some(Fetch(1, 0)) && s.clock - 0 < c.intervalSeconds * SECOND
            && Decide(c, s, 1).TooSoon?
  {
    var called := Step(c, EMPTY, Enter(1)).value;
    assert called == State(0, [], Some(0), None, Some(1), [0], None);
    var stored := Step(c, called, Success).value;
    assert Without(called.cache, 1) == [];
    assert stored.cache == [Entry(1, 0)];
    var late := Step(c, stored, Tick(c.cacheSeconds * SECOND)).value;
    assert Purged(late.cache, late.clock, c.cacheSeconds) == [];
    var es := ExpiryRun(c);
    assert es[1..] == [Success, Tick(c.cacheSeconds * SECOND)] && es[1..][1..] == [Tick(c.cacheSeconds * SECOND)];
    assert es[1..][1..][1..] == [];
    assert After(c, stored, es[1..][1..]) == late;
    assert After(c, called, es[1..]) == late;
  }

  /** A Retry-After of a wait of at least one second ends at most a second before the wait does, and not after it. */
  lemma RetryAfterIsFair(wait: int)
    requires wait >= SECOND
    ensures RetryAfter(wait) * SECOND <= wait < (RetryAfter(wait) + 1) * SECOND
  {
  }

  /** A request refused for the interval is told when the interval ends. */
  lemma TooSoonTellsTheTruth(c: Settings, s: State, key: Key)
    requires Decide(c, s, key).TooSoon? && s.lastCall.value + c.intervalSeconds * SECOND - s.clock >= SECOND
    ensures var free := s.lastCall.value + c.intervalSeconds * SECOND;
            var told := s.clock + Decide(c, s, key).retryAfter * SECOND;
            told <= free < told + SECOND
  {
    RetryAfterIsFair(s.lastCall.value + c.intervalSeconds * SECOND - s.clock);
  }
}
