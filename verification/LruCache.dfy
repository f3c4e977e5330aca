/** An OrderedDict used as a least-recently-used cache: the oldest entry comes first. */
module LruCache {
  import opened Common

  datatype Entry<+K, +V> = Entry(key: K, value: V)

  ghost predicate UniqueKeys<K, V>(cache: seq<Entry<K, V>>) {
    forall i, j :: 0 <= i < j < |cache| ==> cache[i].key != cache[j].key
  }

  function Find<K(==), V>(cache: seq<Entry<K, V>>, key: K): Option<V> {
    if cache == [] then None
    else if cache[|cache| - 1].key == key then Some(cache[|cache| - 1].value)
    else Find(cache[..|cache| - 1], key)
  }

  function Without<K(==), V>(cache: seq<Entry<K, V>>, key: K): seq<Entry<K, V>> {
    if cache == [] then []
    else Without(cache[..|cache| - 1], key) + if cache[|cache| - 1].key == key then [] else [cache[|cache| - 1]]
  }

  /** `move_to_end` of a key that is present. */
  function Moved<K(==), V>(cache: seq<Entry<K, V>>, key: K): seq<Entry<K, V>> {
    var found := Find(cache, key);
    if found.None? then cache else Without(cache, key) + [Entry(key, found.value)]
  }

  /** The newest `limit` entries. */
  function Trimmed<K, V>(cache: seq<Entry<K, V>>, limit: nat): seq<Entry<K, V>> {
    if |cache| > limit then cache[|cache| - limit..] else cache
  }

  /** The cache after `cache[key] = value`, `move_to_end(key)` and the eviction loop. */
  function Stored<K(==), V>(cache: seq<Entry<K, V>>, key: K, value: V, limit: nat): seq<Entry<K, V>> {
    Trimmed(Without(cache, key) + [Entry(key, value)], limit)
  }

  lemma {:induction false} WithoutMember<K, V>(cache: seq<Entry<K, V>>, key: K, c: Entry<K, V>)
    ensures c in Without(cache, key) <==> c in cache && c.key != key
  {
    if cache != [] {
      var front, last := cache[..|cache| - 1], cache[|cache| - 1];
      WithoutMember(front, key, c);
      assert c in cache <==> c in front || c == last;
    }
  }

  lemma {:induction false} WithoutUnique<K, V>(cache: seq<Entry<K, V>>, key: K)
    requires UniqueKeys(cache)
    ensures UniqueKeys(Without(cache, key))
    ensures |Without(cache, key)| == |cache| - if Find(cache, key).Some? then 1 else 0
    ensures forall i :: 0 <= i < |Without(cache, key)| ==> Without(cache, key)[i].key != key
  {
    if cache != [] {
      var front, last := cache[..|cache| - 1], cache[|cache| - 1];
      WithoutUnique(front, key);
      if last.key == key {
        NotFound(front, key);
      }
      forall i | 0 <= i < |Without(front, key)| ensures Without(front, key)[i].key != last.key {
        WithoutMember(front, key, Without(front, key)[i]);
      }
    }
  }

  lemma {:induction false} NotFound<K, V>(cache: seq<Entry<K, V>>, key: K)
    ensures Find(cache, key).None? <==> forall i :: 0 <= i < |cache| ==> cache[i].key != key
  {
    if cache != [] {
      var front := cache[..|cache| - 1];
      NotFound(front, key);
      if Find(front, key).Some? {
        var i :| 0 <= i < |front| && front[i].key == key;
        assert cache[i].key == key;
      }
    }
  }

  lemma {:induction false} FindOther<K, V>(cache: seq<Entry<K, V>>, key: K, other: K)
    requires key != other
    ensures Find(Without(cache, key), other) == Find(cache, other)
  {
    if cache != [] {
      var front, last := cache[..|cache| - 1], cache[|cache| - 1];
      FindOther(front, key, other);
      if last.key == key {
        assert Without(cache, key) == Without(front, key);
      } else {
        assert (Without(front, key) + [last])[..|Without(front, key)|] == Without(front, key);
      }
    }
  }

  /** Moving and storing keep the keys unique; moving keeps the size, storing keeps at most `limit` entries. */
  lemma CacheStaysSmall<K, V>(cache: seq<Entry<K, V>>, key: K, value: V, limit: nat)
    requires UniqueKeys(cache)
    ensures UniqueKeys(Moved(cache, key)) && |Moved(cache, key)| == |cache|
    ensures UniqueKeys(Stored(cache, key, value, limit)) && |Stored(cache, key, value, limit)| <= limit
  {
    WithoutUnique(cache, key);
    UniqueAppend(Without(cache, key), Entry(key, value));
    if Find(cache, key).Some? {
      UniqueAppend(Without(cache, key), Entry(key, Find(cache, key).value));
    }
    UniqueTrimmed(Without(cache, key) + [Entry(key, value)], limit);
  }

  lemma UniqueAppend<K, V>(cache: seq<Entry<K, V>>, c: Entry<K, V>)
    requires UniqueKeys(cache) && forall i :: 0 <= i < |cache| ==> cache[i].key != c.key
    ensures UniqueKeys(cache + [c])
  {
  }

  lemma UniqueTrimmed<K, V>(cache: seq<Entry<K, V>>, limit: nat)
    requires UniqueKeys(cache)
    ensures UniqueKeys(Trimmed(cache, limit)) && |Trimmed(cache, limit)| <= limit
  {
  }

  lemma {:induction false} AbsentIsKept<K, V>(cache: seq<Entry<K, V>>, key: K)
    requires forall i :: 0 <= i < |cache| ==> cache[i].key != key
    ensures Find(cache, key) == None && Without(cache, key) == cache
  {
    if cache != [] {
      AbsentIsKept(cache[..|cache| - 1], key);
    }
  }

  /** Of unique keys, the one at `i` is found there, and without it the others keep their order. */
  lemma {:induction false} PresentIsCut<K, V>(cache: seq<Entry<K, V>>, key: K, i: nat)
    requires UniqueKeys(cache) && i < |cache| && cache[i].key == key
    ensures Find(cache, key) == Some(cache[i].value) && Without(cache, key) == cache[..i] + cache[i + 1..]
  {
    var front, last := cache[..|cache| - 1], cache[|cache| - 1];
    if i == |cache| - 1 {
      AbsentIsKept(front, key);
    } else {
      PresentIsCut(front, key, i);
      assert front[..i] == cache[..i] && front[i + 1..] + [last] == cache[i + 1..];
    }
  }

  lemma {:induction false} FoundIsMember<K, V>(cache: seq<Entry<K, V>>, key: K)
    ensures var found := Find(cache, key);
            found.Some? ==> Entry(key, found.value) in cache
  {
    if cache != [] {
      var front, last := cache[..|cache| - 1], cache[|cache| - 1];
      FoundIsMember(front, key);
      assert cache == front + [last];
    }
  }

  /** Of unique keys, an entry is what is found for its key. */
  lemma FindIsOnly<K, V>(cache: seq<Entry<K, V>>, key: K)
    requires UniqueKeys(cache)
    ensures forall i :: 0 <= i < |cache| && cache[i].key == key ==> Find(cache, key) == Some(cache[i].value)
    ensures Find(cache, key).Some? ==> Entry(key, Find(cache, key).value) in cache
  {
    FoundIsMember(cache, key);
    forall i: nat | i < |cache| && cache[i].key == key ensures Find(cache, key) == Some(cache[i].value) {
      PresentIsCut(cache, key, i);
    }
  }

  /** What was stored last is found, if there is room for one entry. */
  lemma StoredIsFound<K, V>(cache: seq<Entry<K, V>>, key: K, value: V, limit: nat)
    requires limit >= 1
    ensures Find(Stored(cache, key, value, limit), key) == Some(value)
  {
    var stored := Stored(cache, key, value, limit);
    assert stored[|stored| - 1] == Entry(key, value);
  }

  // ----- the operations in terms of the entries -----

  /** The entry of the key comes last, the others keep their order; without one nothing changes. */
  ghost predicate IsMoved<K, V>(before: seq<Entry<K, V>>, key: K, after: seq<Entry<K, V>>) {
    if forall i :: 0 <= i < |before| ==> before[i].key != key then after == before
    else exists i ::
           0 <= i < |before| && before[i].key == key && after == before[..i] + before[i + 1..] + [before[i]]
  }

  /** The last `limit` entries, or all if there are no more. */
  ghost predicate IsNewest<T>(all: seq<T>, limit: nat, newest: seq<T>) {
    |newest| == (if |all| < limit then |all| else limit) && newest == all[|all| - |newest|..]
  }

  /** The new entry comes last instead of the old one of its key, and only the last `limit` entries stay. */
  ghost predicate IsStored<K, V>(
      before: seq<Entry<K, V>>, c: Entry<K, V>, limit: nat, after: seq<Entry<K, V>>)
  {
    if forall i :: 0 <= i < |before| ==> before[i].key != c.key then IsNewest(before + [c], limit, after)
    else exists i ::
           0 <= i < |before| && before[i].key == c.key && IsNewest(before[..i] + before[i + 1..] + [c], limit, after)
  }

  lemma MovedIsMoved<K, V>(cache: seq<Entry<K, V>>, key: K)
    requires UniqueKeys(cache)
    ensures IsMoved(cache, key, Moved(cache, key))
  {
    if i: nat :| i < |cache| && cache[i].key == key {
      PresentIsCut(cache, key, i);
    } else {
      AbsentIsKept(cache, key);
    }
  }

  lemma StoredIsNewest<K, V>(cache: seq<Entry<K, V>>, key: K, value: V, limit: nat)
    requires UniqueKeys(cache)
    ensures IsStored(cache, Entry(key, value), limit, Stored(cache, key, value, limit))
  {
    if i: nat :| i < |cache| && cache[i].key == key {
      PresentIsCut(cache, key, i);
      var after := Stored(cache, key, value, limit);
      assert IsNewest(cache[..i] + cache[i + 1..] + [Entry(key, value)], limit, after);
    } else {
      AbsentIsKept(cache, key);
    }
  }

  class OrderedDict<K(==), V> {
    var entries: seq<Entry<K, V>>

    constructor ()
      ensures entries == []
    {
      entries := [];
    }

    method Pop(key: K)
      modifies this
      ensures entries == Without(old(entries), key)
    {
      entries := Without(entries, key);
    }

    /** The entry of the key becomes the newest; the others keep their order. */
    method MoveToEnd(key: K)
      modifies this
      ensures entries == Moved(old(entries), key)
      ensures UniqueKeys(old(entries)) ==> IsMoved(old(entries), key, entries)
    {
      if UniqueKeys(entries) {
        MovedIsMoved(entries, key);
      }
      var found := Find(entries, key);
      if found.Some? {
        entries := Without(entries, key) + [Entry(key, found.value)];
      }
    }

    /**
     `cache[key] = value; cache.move_to_end(key); while len(cache) > limit: cache.popitem(last=False)`: the entry of the
     key becomes the newest with the new value, and the oldest ones beyond the limit go.
     */
    method Store(key: K, value: V, limit: nat)
      modifies this
      ensures entries == Stored(old(entries), key, value, limit)
      ensures UniqueKeys(old(entries)) ==> IsStored(old(entries), Entry(key, value), limit, entries)
    {
      entries := Without(entries, key) + [Entry(key, value)];
      ghost var all := entries;
      while |entries| > limit
        invariant |entries| <= |all| && entries == all[|all| - |entries|..]
        invariant if |all| > limit then |entries| >= limit else entries == all
        decreases |entries|
      {
        entries := entries[1..];
      }
      if UniqueKeys(old(entries)) {
        StoredIsNewest(old(entries), key, value, limit);
      }
    }
  }
}
