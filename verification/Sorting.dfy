/** The stable sort behind Python's `sorted(..., key=...)`, and order-preserving selection. */
module Sorting {

  /** A sort key of two integers, compared like a Python tuple. */
  datatype Key = Key(major: int, minor: int)

  predicate AtMost(a: Key, b: Key) {
    a.major < b.major || (a.major == b.major && a.minor <= b.minor)
  }

  predicate Before(a: Key, b: Key) {
    a.major < b.major || (a.major == b.major && a.minor < b.minor)
  }

  predicate SortedBy<T>(xs: seq<T>, key: T -> Key) {
    forall i, j :: 0 <= i < j < |xs| ==> AtMost(key(xs[i]), key(xs[j]))
  }

  /** Puts `x` after every element of the sorted `xs` whose key is at most its own. */
  function Insert<T>(xs: seq<T>, x: T, key: T -> Key): seq<T> {
    if xs == [] || AtMost(key(xs[|xs| - 1]), key(x)) then xs + [x]
    else Insert(xs[..|xs| - 1], x, key) + [xs[|xs| - 1]]
  }

  function StableSort<T>(xs: seq<T>, key: T -> Key): seq<T> {
    if xs == [] then [] else Insert(StableSort(xs[..|xs| - 1], key), xs[|xs| - 1], key)
  }

  function Select<T>(xs: seq<T>, keep: T -> bool): seq<T> {
    if xs == [] then []
    else Select(xs[..|xs| - 1], keep) + if keep(xs[|xs| - 1]) then [xs[|xs| - 1]] else []
  }

  lemma SplitLast<T>(xs: seq<T>)
    requires xs != []
    ensures xs == xs[..|xs| - 1] + [xs[|xs| - 1]]
    ensures multiset(xs) == multiset(xs[..|xs| - 1]) + multiset{xs[|xs| - 1]}
    ensures forall x :: x in xs <==> x in xs[..|xs| - 1] || x == xs[|xs| - 1]
  {
    assert xs == xs[..|xs| - 1] + [xs[|xs| - 1]];
  }

  lemma SameMember<T>(xs: seq<T>, ys: seq<T>, x: T)
    requires multiset(xs) == multiset(ys)
    ensures x in xs <==> x in ys
  {
    assert x in xs <==> x in multiset(xs);
    assert x in ys <==> x in multiset(ys);
  }

  lemma {:induction false} InsertContents<T>(xs: seq<T>, x: T, key: T -> Key)
    ensures multiset(Insert(xs, x, key)) == multiset(xs) + multiset{x}
  {
    if xs == [] || AtMost(key(xs[|xs| - 1]), key(x)) {
    } else {
      InsertContents(xs[..|xs| - 1], x, key);
      SplitLast(xs);
    }
  }

  lemma {:induction false} InsertSorted<T>(xs: seq<T>, x: T, key: T -> Key)
    requires SortedBy(xs, key)
    ensures SortedBy(Insert(xs, x, key), key)
  {
    if xs == [] || AtMost(key(xs[|xs| - 1]), key(x)) {
    } else {
      var front := Insert(xs[..|xs| - 1], x, key);
      InsertSorted(xs[..|xs| - 1], x, key);
      InsertContents(xs[..|xs| - 1], x, key);
      forall i | 0 <= i < |front| ensures AtMost(key(front[i]), key(xs[|xs| - 1])) {
        assert front[i] in multiset(front);
        assert front[i] in xs[..|xs| - 1] || front[i] == x;
      }
    }
  }

  /** The sort returns a sorted permutation. */
  lemma {:induction false} StableSortSorts<T>(xs: seq<T>, key: T -> Key)
    ensures SortedBy(StableSort(xs, key), key)
    ensures multiset(StableSort(xs, key)) == multiset(xs)
  {
    if xs != [] {
      var front := xs[..|xs| - 1];
      StableSortSorts(front, key);
      InsertSorted(StableSort(front, key), xs[|xs| - 1], key);
      InsertContents(StableSort(front, key), xs[|xs| - 1], key);
      SplitLast(xs);
    }
  }

  /** Distinct keys come out strictly increasing. */
  lemma StrictlySorted<T>(xs: seq<T>, key: T -> Key, ys: seq<T>)
    requires forall i, j :: 0 <= i < j < |xs| ==> key(xs[i]) != key(xs[j])
    requires ys == StableSort(xs, key)
    ensures forall i, j :: 0 <= i < j < |ys| ==> Before(key(ys[i]), key(ys[j]))
  {
    StableSortSorts(xs, key);
    forall i, j | 0 <= i < j < |ys| ensures Before(key(ys[i]), key(ys[j])) {
      if key(ys[i]) == key(ys[j]) {
        TwoOccurrences(ys, i, j);
        if ys[i] == ys[j] {
          OneOccurrence(xs, ys[i], key);
        } else {
          SameMember(xs, ys, ys[i]);
          SameMember(xs, ys, ys[j]);
        }
      }
    }
  }

  lemma TwoOccurrences<T>(ys: seq<T>, i: nat, j: nat)
    requires i < j < |ys|
    ensures ys[i] == ys[j] ==> multiset(ys)[ys[i]] >= 2
  {
    assert ys == ys[..j] + [ys[j]] + ys[j + 1..];
    assert ys[i] in ys[..j];
  }

  lemma {:induction false} OneOccurrence<T>(xs: seq<T>, x: T, key: T -> Key)
    requires forall i, j :: 0 <= i < j < |xs| ==> key(xs[i]) != key(xs[j])
    ensures multiset(xs)[x] <= 1
  {
    if xs != [] {
      OneOccurrence(xs[..|xs| - 1], x, key);
      SplitLast(xs);
      if x == xs[|xs| - 1] {
        assert x !in xs[..|xs| - 1];
      }
    }
  }

  lemma SelectAppend<T>(xs: seq<T>, x: T, keep: T -> bool)
    ensures Select(xs + [x], keep) == Select(xs, keep) + if keep(x) then [x] else []
  {
    assert (xs + [x])[..|xs|] == xs;
  }

  lemma {:induction false} SelectMember<T>(xs: seq<T>, keep: T -> bool, x: T)
    ensures x in Select(xs, keep) <==> x in xs && keep(x)
  {
    if xs != [] {
      SelectMember(xs[..|xs| - 1], keep, x);
      SplitLast(xs);
    }
  }

  lemma {:induction false} SelectSorted<T>(xs: seq<T>, keep: T -> bool, key: T -> Key)
    requires SortedBy(xs, key)
    ensures SortedBy(Select(xs, keep), key)
  {
    if xs != [] {
      var front := xs[..|xs| - 1];
      SelectSorted(front, keep, key);
      forall x | x in Select(front, keep) ensures AtMost(key(x), key(xs[|xs| - 1])) {
        SelectMember(front, keep, x);
        var i :| 0 <= i < |front| && front[i] == x;
        assert xs[i] == x;
      }
    }
  }
}
