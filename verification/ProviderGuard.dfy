/**
 The guard in front of a provider: at most 96 fetches per Seoul calendar day and a 15-minute block after a failure. The
 general rail routes keep one guard per provider, the highway map routes keep one together with a nine-entry cache.
 */
module ProviderGuard {
  import opened Common
  import opened LruCache
  import opened TimeUtils

  const DAILY_CAP: int := 96
  const BLOCK: int := 15 * MINUTE
  const MAP_ENTRIES: nat := 9

  datatype Guard = Guard(day: Option<int>, attempts: int, blockedUntil: Option<int>)

  const FRESH_GUARD: Guard := Guard(None, 0, None)

  /** The counter restarts on another Seoul day. */
  function Today(g: Guard, now: int): Guard {
    if g.day == Some(SeoulDay(now)) then g else g.(day := Some(SeoulDay(now)), attempts := 0)
  }

  predicate Blocked(g: Guard, now: int) {
    g.blockedUntil.Some? && now < g.blockedUntil.value
  }

  predicate CapReached(g: Guard, now: int) {
    Today(g, now).attempts >= DAILY_CAP
  }

  predicate Refuses(g: Guard, now: int) {
    Blocked(g, now) || CapReached(g, now)
  }

  function Greater(a: int, b: int): int {
    if a < b then b else a
  }

  /** `max(waits)`, in seconds. */
  function RetryAfter(g: Guard, now: int): int {
    Greater(1, Greater(if Blocked(g, now) then (g.blockedUntil.value - now) / SECOND else 1,
                       if CapReached(g, now) then SecondsUntilNextSeoulMidnight(now) else 1))
  }

  /** The guard after a request that is allowed to fetch. */
  function Started(g: Guard, now: int): Guard {
    Today(g, now).(attempts := Today(g, now).attempts + 1)
  }

  /** The guard after a fetch that failed or ran out of time. */
  function Failed(g: Guard, now: int): Guard {
    g.(blockedUntil := Some(now + BLOCK))
  }

  // ----- the waiting time -----

  /** The first time at which the guard would let a request through. */
  function EarliestStart(g: Guard, now: int): int {
    Greater(if Blocked(g, now) then g.blockedUntil.value else now,
            if CapReached(g, now) then SeoulMidnight(SeoulDay(now) + 1) else now)
  }

  /** The guard's day is not ahead of the clock. */
  predicate NotAhead(g: Guard, now: int) {
    g.day.Some? ==> g.day.value <= SeoulDay(now)
  }

  /** The guard lets requests through exactly from the earliest start on. */
  lemma RefusesUntilEarliestStart(g: Guard, now: int, at: int)
    requires NotAhead(g, now) && at >= now
    ensures Refuses(g, at) <==> at < EarliestStart(g, now)
  {
    NextMidnight(now);
    if SeoulDay(at) != SeoulDay(now) {
      assert SeoulDay(at) > SeoulDay(now);
    }
  }

  /**
   When the wait is at least a second, Retry-After ends at most a second before the earliest start, and not after it.
   */
  lemma RetryAfterIsFair(g: Guard, now: int)
    requires Refuses(g, now) && EarliestStart(g, now) - now >= SECOND
    ensures var told := now + RetryAfter(g, now) * SECOND; told <= EarliestStart(g, now) < told + SECOND
  {
    NextMidnight(now);
  }

  /** A shorter wait is rounded up to one second. */
  lemma ShortWaitIsRoundedUp(g: Guard, now: int)
    requires Refuses(g, now) && EarliestStart(g, now) - now < SECOND
    ensures RetryAfter(g, now) == 1
  {
    NextMidnight(now);
  }

  // ----- every run -----

  /** A request that finds nothing saved, or a failure of a fetch, at a time of the worker's clock. */
  datatype Event = Request(now: int) | Failure(now: int)

  /** `starts` are the times at which fetches started. */
  datatype State = State(guard: Guard, clock: int, starts: seq<int>)

  const EMPTY: State := State(FRESH_GUARD, 0, [])

  /** The clock never goes back; a failure belongs to an earlier start, which the guard does not check. */
  function Step(s: State, e: Event): Option<State> {
    if e.now < s.clock then None
    else if e.Failure? then Some(State(Failed(s.guard, e.now), e.now, s.starts))
    else if Refuses(s.guard, e.now) then Some(State(Today(s.guard, e.now), e.now, s.starts))
    else Some(State(Started(s.guard, e.now), e.now, s.starts + [e.now]))
  }

  function After(s: State, es: seq<Event>): State
    decreases |es|
  {
    if es == [] then s
    else match Step(s, es[0])
         case None => After(s, es[1..])
         case Some(t) => After(t, es[1..])
  }

  /** Fetches started on one local day, nine hours ahead of UTC. */
  function StartsOn(starts: seq<int>, day: int): nat {
    if starts == [] then 0
    else
      StartsOn(starts[..|starts| - 1], day) + if (starts[|starts| - 1] + 9 * HOUR) / DAY == day then 1 else 0
  }

  ghost predicate Inv(s: State) {
    && (s.guard.day.Some? ==>
        s.guard.day.value <= SeoulDay(s.clock) && s.guard.attempts == StartsOn(s.starts, s.guard.day.value))
    && (forall day :: (s.guard.day.Some? ==> day > s.guard.day.value) ==> StartsOn(s.starts, day) == 0)
    && (forall day :: StartsOn(s.starts, day) <= DAILY_CAP)
    && (s.guard.blockedUntil.Some? ==> s.guard.blockedUntil.value <= s.clock + BLOCK)
  }

  lemma DaysFollowTheClock(a: int, b: int)
    requires a <= b
    ensures SeoulDay(a) <= SeoulDay(b)
  {
  }

  lemma StartsOnNext(starts: seq<int>, now: int, day: int)
    ensures StartsOn(starts + [now], day) == StartsOn(starts, day) + if SeoulDay(now) == day then 1 else 0
  {
    assert (starts + [now])[..|starts|] == starts;
  }

  /** The counter moves to the day of the clock. */
  lemma TodayKeepsInv(s: State, now: int)
    requires Inv(s) && now >= s.clock
    ensures Inv(State(Today(s.guard, now), now, s.starts))
            && Today(s.guard, now).attempts == StartsOn(s.starts, SeoulDay(now))
  {
    DaysFollowTheClock(s.clock, now);
  }

  lemma StartKeepsInv(s: State, now: int)
    requires Inv(s) && s.guard.day == Some(SeoulDay(now)) && s.clock == now && s.guard.attempts < DAILY_CAP
    ensures Inv(State(s.guard.(attempts := s.guard.attempts + 1), now, s.starts + [now]))
  {
    forall day
      ensures StartsOn(s.starts + [now], day) == StartsOn(s.starts, day) + if SeoulDay(now) == day then 1 else 0
    {
      StartsOnNext(s.starts, now, day);
    }
  }

  lemma StepKeepsInv(s: State, e: Event)
    requires Inv(s) && Step(s, e).Some?
    ensures Inv(Step(s, e).value)
  {
    if e.Failure? {
      DaysFollowTheClock(s.clock, e.now);
    } else {
      TodayKeepsInv(s, e.now);
      if !Refuses(s.guard, e.now) {
        StartKeepsInv(State(Today(s.guard, e.now), e.now, s.starts), e.now);
      }
    }
  }

  lemma {:induction false} AfterKeepsInv(s: State, es: seq<Event>)
    requires Inv(s)
    ensures Inv(After(s, es))
    decreases |es|
  {
    if es != [] {
      if Step(s, es[0]).Some? {
        StepKeepsInv(s, es[0]);
        AfterKeepsInv(Step(s, es[0]).value, es[1..]);
      } else {
        AfterKeepsInv(s, es[1..]);
      }
    }
  }

  /** In every run, a guard starts at most 96 fetches per Seoul calendar day. */
  lemma DailyCapHolds(es: seq<Event>, day: int)
    ensures StartsOn(After(EMPTY, es).starts, day) <= 96
  {
    AfterKeepsInv(EMPTY, es);
  }

  /** No fetch after the first `n` starts before `until`. */
  ghost predicate NoneBefore(starts: seq<int>, n: nat, until: int) {
    forall i :: n <= i < |starts| ==> starts[i] >= until
  }

  /** While a block is open nothing starts, whatever fails or is asked meanwhile; failures only move its end later. */
  lemma {:induction false} BlockHolds(s: State, es: seq<Event>, until: int)
    requires Inv(s) && s.guard.blockedUntil.Some? && s.guard.blockedUntil.value >= until
    ensures var t := After(s, es);
            && t.guard.blockedUntil.Some? && t.guard.blockedUntil.value >= s.guard.blockedUntil.value
            && |t.starts| >= |s.starts| && t.starts[..|s.starts|] == s.starts && NoneBefore(t.starts, |s.starts|, until)
    decreases |es|
  {
    if es != [] {
      if Step(s, es[0]).Some? {
        var t := Step(s, es[0]).value;
        StepKeepsInv(s, es[0]);
        BlockHolds(t, es[1..], until);
        BlockStep(s, t, After(t, es[1..]).starts, until);
      } else {
        BlockHolds(s, es[1..], until);
      }
    }
  }

  lemma BlockStep(s: State, t: State, starts: seq<int>, until: int)
    requires |s.starts| <= |t.starts| <= |starts| && starts[..|t.starts|] == t.starts
             && t.starts[..|s.starts|] == s.starts
    requires NoneBefore(t.starts, |s.starts|, until) && NoneBefore(starts, |t.starts|, until)
    ensures starts[..|s.starts|] == s.starts && NoneBefore(starts, |s.starts|, until)
  {
    assert starts[..|s.starts|] == starts[..|t.starts|][..|s.starts|];
    forall i | |s.starts| <= i < |starts| ensures starts[i] >= until {
      assert i < |t.starts| ==> starts[i] == t.starts[i];
    }
  }

  /** After a failure, nothing starts for 15 minutes. */
  lemma FailureBlocks(s: State, now: int, es: seq<Event>)
    requires Inv(s) && Step(s, Failure(now)).Some?
    ensures var t := After(Step(s, Failure(now)).value, es); NoneBefore(t.starts, |s.starts|, now + 15 * MINUTE)
  {
    StepKeepsInv(s, Failure(now));
    BlockHolds(Step(s, Failure(now)).value, es, now + BLOCK);
  }

  // ----- the routes -----

  /** What the fetch of a request does, with the time it ends; Rejected: it raises an HTTPException of its own. */
  datatype Fetch = Fetched(at: int) | Rejected(at: int) | Raised(at: int) | TimedOut(at: int)

  /** PassedOn is the HTTPException of the fetch. */
  datatype Answer =
    | Fresh
    | New
    | Stale
    | PassedOn
    | Unconfigured503
    | Protected429(retryAfter: int)
    | Failed502
    | Timeout504

  /** The block of the last failure has not ended. */
  ghost predicate IsOpen(g: Guard, now: int) {
    match g.blockedUntil case None => false case Some(until) => now < until
  }

  /** The attempts counted on the local day of `now`. */
  ghost function AttemptsOn(g: Guard, now: int): int {
    if g.day == Some((now + 9 * HOUR) / DAY) then g.attempts else 0
  }

  /** The mutable state of one provider. */
  class GuardState {
    var guard: Guard

    constructor ()
      ensures guard == FRESH_GUARD
    {
      guard := FRESH_GUARD;
    }

    /** The checks before a fetch: the Retry-After of a refusal, or the attempt is counted. */
    method Admit(now: int) returns (refusal: Option<int>)
      modifies this
      ensures refusal == if Refuses(old(guard), now) then Some(RetryAfter(old(guard), now)) else None
      ensures guard == if refusal.Some? then Today(old(guard), now) else Started(old(guard), now)
      ensures refusal.Some? <==> IsOpen(old(guard), now) || AttemptsOn(old(guard), now) >= 96
      ensures guard == Guard(Some((now + 9 * HOUR) / DAY),
                             AttemptsOn(old(guard), now) + if refusal.Some? then 0 else 1, old(guard).blockedUntil)
    {
      if guard.day != Some(SeoulDay(now)) {
        guard := guard.(day := Some(SeoulDay(now)), attempts := 0);
      }
      var blocked := guard.blockedUntil.Some? && now < guard.blockedUntil.value;
      if blocked || guard.attempts >= DAILY_CAP {
        var wait := 1;
        if blocked {
          wait := Greater(wait, (guard.blockedUntil.value - now) / SECOND);
        }
        if guard.attempts >= DAILY_CAP {
          wait := Greater(wait, SecondsUntilNextSeoulMidnight(now));
        }
        return Some(wait);
      }
      guard := guard.(attempts := guard.attempts + 1);
      return None;
    }

    method Fail(now: int)
      modifies this
      ensures guard == Failed(old(guard), now)
      ensures guard == Guard(old(guard).day, old(guard).attempts, Some(now + 15 * MINUTE))
    {
      guard := guard.(blockedUntil := Some(now + BLOCK));
    }
  }

  predicate IsFresh(savedAt: Option<int>, now: int, ttl: int) {
    savedAt.Some? && now - savedAt.value < ttl
  }

  /** A request that gets past the stored copy and the guard. */
  predicate Fetches(g: Guard, savedAt: Option<int>, ttl: int, configured: bool, now: int) {
    !IsFresh(savedAt, now, ttl) && configured && !Refuses(g, now)
  }

  /**
   `query` of the general rail routes, from the point where it holds the lock: the stored copy is never younger than the
   fetch that stored it, a refusal or failure falls back to it, only a started fetch counts and only a failure that is
   not the fetch's own HTTPException blocks.
   */
  method RailQuery(state: GuardState, savedAt: Option<int>, ttl: int, configured: bool, now: int, fetch: Fetch)
    returns (answer: Answer, stored: Option<int>)
    modifies state
    ensures answer == Fresh <==> IsFresh(savedAt, now, ttl)
    ensures answer == Fresh <==> savedAt.Some? && savedAt.value + ttl > now
    ensures answer == New <==> Fetches(old(state.guard), savedAt, ttl, configured, now) && fetch.Fetched?
    ensures answer == PassedOn <==> Fetches(old(state.guard), savedAt, ttl, configured, now) && fetch.Rejected?
    ensures answer == Stale <==> savedAt.Some? && answer !in {Fresh, New, PassedOn}
    ensures answer.Protected429? ==> savedAt.None? && answer.retryAfter == RetryAfter(old(state.guard), now)
    ensures stored == if answer == New then Some(fetch.at) else savedAt
    ensures state.guard == if IsFresh(savedAt, now, ttl) || !configured then old(state.guard)
                           else if Refuses(old(state.guard), now) then Today(old(state.guard), now)
                           else if fetch.Fetched? || fetch.Rejected? then Started(old(state.guard), now)
                           else Failed(Started(old(state.guard), now), fetch.at)
  {
    stored := savedAt;
    if savedAt.Some? && now - savedAt.value < ttl {
      return Fresh, stored;
    }
    if !configured {
      return if savedAt.Some? then Stale else Unconfigured503, stored;
    }
    var refusal := state.Admit(now);
    if refusal.Some? {
      return if savedAt.Some? then Stale else Protected429(refusal.value), stored;
    }
    if fetch.Rejected? {
      return PassedOn, stored;
    }
    if !fetch.Fetched? {
      state.Fail(fetch.at);
      return if savedAt.Some? then Stale else Failed502, stored;
    }
    return New, Some(fetch.at);
  }

  type MapKey = int

  predicate IsCurrent(savedAt: Option<int>, now: int, ttl: int) {
    savedAt.Some? && 0 <= now - savedAt.value < ttl
  }

  /**
   `cached` of the highway map routes: `waited` says that the deadline passed before the lock was taken, `entered` is
   the time at which it was. A deadline that passes during the wait blocks nothing; one that passes during the fetch
   does, as does any exception of the fetch.
   */
  method MapCached(state: GuardState, cache: OrderedDict<MapKey, int>, key: MapKey, ttl: int, asked: int, waited: bool,
      entered: int, fetch: Fetch)
    returns (answer: Answer)
    requires UniqueKeys(cache.entries) && |cache.entries| <= MAP_ENTRIES
    modifies state, cache
    ensures UniqueKeys(cache.entries) && |cache.entries| <= MAP_ENTRIES
    ensures answer == Fresh ==> state.guard == old(state.guard)
    ensures answer == Fresh <==>
              exists c :: c in old(cache.entries) && c.key == key
                          && (c.value <= asked < c.value + ttl || (!waited && c.value <= entered < c.value + ttl))
    ensures answer == New ==>
            Find(cache.entries, key) == Some(fetch.at) && state.guard == Started(old(state.guard), entered)
    ensures answer == Stale ==> Find(old(cache.entries), key).Some?
    ensures answer.Protected429? ==>
            Refuses(old(state.guard), entered) && answer.retryAfter == RetryAfter(old(state.guard), entered)
    ensures answer != Fresh && waited ==> state.guard == old(state.guard)
    ensures answer != Fresh && !waited ==>
              state.guard == if Refuses(old(state.guard), entered) then Today(old(state.guard), entered)
                             else if fetch.Fetched? then Started(old(state.guard), entered)
                             else Failed(Started(old(state.guard), entered), fetch.at)
    ensures answer != Fresh && answer != New ==> cache.entries == old(cache.entries)
  {
    var saved := Find(cache.entries, key);
    FindIsOnly(cache.entries, key);
    CacheStaysSmall(cache.entries, key, fetch.at, MAP_ENTRIES);
    if IsCurrent(saved, asked, ttl) {
      cache.MoveToEnd(key);
      return Fresh;
    }
    if waited {
      return if saved.Some? then Stale else Timeout504;
    }
    if IsCurrent(saved, entered, ttl) {
      cache.MoveToEnd(key);
      return Fresh;
    }
    var refusal := state.Admit(entered);
    if refusal.Some? {
      return if saved.Some? then Stale else Protected429(refusal.value);
    }
    if !fetch.Fetched? {
      state.Fail(fetch.at);
      return if saved.Some? then Stale else if fetch.TimedOut? then Timeout504 else Failed502;
    }
    StoredIsFound(cache.entries, key, fetch.at, MAP_ENTRIES);
    cache.Store(key, fetch.at, MAP_ENTRIES);
    return New;
  }
}
