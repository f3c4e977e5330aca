/** Keyset pages over a sequence in strictly descending key order. */
module Keyset {
  import opened Common
  import opened Sorting

  predicate Descending<T>(xs: seq<T>, key: T -> Key) {
    forall i, j :: 0 <= i < j < |xs| ==> Before(key(xs[j]), key(xs[i]))
  }

  /** `key` comes after the cursor in descending order; no cursor admits every key. */
  predicate Below(key: Key, after: Option<Key>) {
    after.None? || Before(key, after.value)
  }

  function BelowCursor<T>(key: T -> Key, after: Option<Key>): T -> bool {
    x => Below(key(x), after)
  }

  /** The rows the WHERE clause of the cursor leaves. */
  function Rest<T>(all: seq<T>, key: T -> Key, after: Option<Key>): seq<T> {
    Select(all, BelowCursor(key, after))
  }

  datatype Page<T> = Page(rows: seq<T>, more: bool)

  /** Cuts the `limit + 1` rows read, or all of them, to a page. */
  function Cut<T>(rows: seq<T>, limit: nat): Page<T> {
    if |rows| > limit then Page(rows[..limit], true) else Page(rows, false)
  }

  function PageOf<T>(all: seq<T>, key: T -> Key, after: Option<Key>, limit: nat): Page<T> {
    Cut(Rest(all, key, after), limit)
  }

  lemma {:induction false} SelectKeepsOrder<T>(xs: seq<T>, keep: T -> bool, key: T -> Key)
    requires Descending(xs, key)
    ensures Descending(Select(xs, keep), key)
  {
    if xs != [] {
      var front, last := xs[..|xs| - 1], xs[|xs| - 1];
      SelectKeepsOrder(front, keep, key);
      forall x | x in Select(front, keep) ensures Before(key(last), key(x)) {
        SelectMember(front, keep, x);
        var i :| 0 <= i < |front| && front[i] == x;
        assert xs[i] == x;
      }
    }
  }

  lemma {:induction false} SelectAll<T>(xs: seq<T>, keep: T -> bool)
    requires forall x :: x in xs ==> keep(x)
    ensures Select(xs, keep) == xs
  {
    if xs != [] {
      SelectAll(xs[..|xs| - 1], keep);
      SplitLast(xs);
    }
  }

  lemma {:induction false} SelectNone<T>(xs: seq<T>, keep: T -> bool)
    requires forall x :: x in xs ==> !keep(x)
    ensures Select(xs, keep) == []
  {
    if xs != [] {
      SelectNone(xs[..|xs| - 1], keep);
      SplitLast(xs);
    }
  }

  lemma {:induction false} SelectSplit<T>(xs: seq<T>, ys: seq<T>, keep: T -> bool)
    ensures Select(xs + ys, keep) == Select(xs, keep) + Select(ys, keep)
  {
    if ys == [] {
      assert xs + ys == xs;
    } else {
      SelectSplit(xs, ys[..|ys| - 1], keep);
      assert xs + ys == (xs + ys[..|ys| - 1]) + [ys[|ys| - 1]];
      SelectAppend(xs + ys[..|ys| - 1], ys[|ys| - 1], keep);
    }
  }

  /** After the row at `i`, the rows from `i + 1` on are left. */
  lemma RestAfterRow<T>(all: seq<T>, key: T -> Key, i: nat)
    requires Descending(all, key) && i < |all|
    ensures Rest(all, key, Some(key(all[i]))) == all[i + 1..]
  {
    var keep := BelowCursor(key, Some(key(all[i])));
    SelectSplit(all[..i + 1], all[i + 1..], keep);
    assert all[..i + 1] + all[i + 1..] == all;
    SelectNone(all[..i + 1], keep);
    SelectAll(all[i + 1..], keep);
  }

  lemma RestAtStart<T>(all: seq<T>, key: T -> Key)
    ensures Rest(all, key, None) == all
  {
    SelectAll(all, BelowCursor(key, None));
  }

  /** A row is in a suffix exactly if it stands there. */
  lemma InSuffixIff<T>(all: seq<T>, key: T -> Key, p: nat, i: nat)
    requires Descending(all, key) && p <= |all| && i < |all|
    ensures all[i] in all[p..] <==> i >= p
  {
    if i >= p {
      assert all[p..][i - p] == all[i];
    } else {
      forall j | 0 <= j < |all[p..]| ensures all[p..][j] != all[i] {
        assert Before(key(all[p + j]), key(all[i]));
      }
    }
  }

  /** What a cursor leaves is a suffix. */
  lemma {:induction false} RestIsSuffix<T>(all: seq<T>, key: T -> Key, after: Option<Key>) returns (i: nat)
    requires Descending(all, key)
    ensures i <= |all| && Rest(all, key, after) == all[i..]
  {
    if all == [] || !Below(key(all[|all| - 1]), after) {
      i := |all|;
      forall x | x in all ensures !BelowCursor(key, after)(x) {
        var j :| 0 <= j < |all| && all[j] == x;
      }
      SelectNone(all, BelowCursor(key, after));
    } else {
      var front := all[..|all| - 1];
      i := RestIsSuffix(front, key, after);
      assert all[i..] == front[i..] + [all[|all| - 1]];
    }
  }

  lemma SameEmptiness<T>(xs: seq<T>, ys: seq<T>)
    requires forall x :: x in xs <==> x in ys
    ensures xs == [] <==> ys == []
  {
    if xs != [] {
      assert xs[0] in ys;
    }
    if ys != [] {
      assert ys[0] in xs;
    }
  }

  /** Two descending sequences of the same rows are the same sequence. */
  lemma {:induction false} DescendingIsUnique<T>(xs: seq<T>, ys: seq<T>, key: T -> Key)
    requires Descending(xs, key) && Descending(ys, key)
    requires forall x :: x in xs <==> x in ys
    ensures xs == ys
  {
    SameEmptiness(xs, ys);
    if xs != [] {
      assert xs[0] in ys;
      assert ys[0] in xs;
      var i :| 0 <= i < |ys| && ys[i] == xs[0];
      var j :| 0 <= j < |xs| && xs[j] == ys[0];
      assert i == 0;
      forall x ensures x in xs[1..] <==> x in ys[1..] {
        SameTail(xs, ys, key, x);
        SameTail(ys, xs, key, x);
      }
      DescendingIsUnique(xs[1..], ys[1..], key);
    }
  }

  lemma SameTail<T>(xs: seq<T>, ys: seq<T>, key: T -> Key, x: T)
    requires xs != [] && ys != [] && xs[0] == ys[0] && Descending(xs, key)
    requires forall x :: x in xs ==> x in ys
    ensures x in xs[1..] ==> x in ys[1..]
  {
    if x in xs[1..] {
      var i :| 1 <= i < |xs| && xs[i] == x;
      assert Before(key(xs[i]), key(xs[0]));
      assert x in xs && x in ys;
      var j :| 0 <= j < |ys| && ys[j] == x;
      assert ys[1..][j - 1] == x;
    }
  }

  /** A page from any cursor: its rows follow the cursor in order, and a row it leaves out is below its last row. */
  lemma PageMissesNothing<T>(all: seq<T>, key: T -> Key, after: Option<Key>, limit: nat, x: T)
    requires Descending(all, key) && limit >= 1 && x in all && Below(key(x), after)
    ensures var page := PageOf(all, key, after, limit);
            x in page.rows || (page.more && |page.rows| == limit && Before(key(x), key(page.rows[limit - 1])))
  {
    var rest := Rest(all, key, after);
    SelectKeepsOrder(all, BelowCursor(key, after), key);
    SelectMember(all, BelowCursor(key, after), x);
    var i :| 0 <= i < |rest| && rest[i] == x;
    if |rest| > limit && i < limit {
      assert rest[..limit][i] == x;
    }
  }

  lemma PageFollows<T>(all: seq<T>, key: T -> Key, after: Option<Key>, limit: nat)
    requires Descending(all, key)
    ensures var page := PageOf(all, key, after, limit);
            Descending(page.rows, key) && forall x :: x in page.rows ==> x in all && Below(key(x), after)
  {
    var rest, page := Rest(all, key, after), PageOf(all, key, after, limit);
    SelectKeepsOrder(all, BelowCursor(key, after), key);
    forall x | x in page.rows ensures x in all && Below(key(x), after) {
      assert x in rest;
      SelectMember(all, BelowCursor(key, after), x);
    }
  }

  function Reversed<T>(xs: seq<T>): (ys: seq<T>)
    ensures |ys| == |xs| && forall i :: 0 <= i < |xs| ==> ys[i] == xs[|xs| - 1 - i]
    ensures multiset(ys) == multiset(xs)
  {
    if xs == [] then []
    else
      assert xs == xs[..|xs| - 1] + [xs[|xs| - 1]];
      [xs[|xs| - 1]] + Reversed(xs[..|xs| - 1])
  }

  lemma ReversedDescends<T>(xs: seq<T>, key: T -> Key)
    requires forall i, j :: 0 <= i < j < |xs| ==> Before(key(xs[i]), key(xs[j]))
    ensures Descending(Reversed(xs), key)
  {
  }

  // ----- walks -----

  /** One answered request: its items, and the cursor of the next request if rows are left. */
  datatype Reply<+C, +T> = Reply(items: seq<T>, next: Option<C>)

  datatype End = Pending | Done | Rejected

  datatype Walked<+T> = Walked(items: seq<T>, end: End)

  /** At most `n` requests from request `i` on, following the cursors; the items in the order they arrive. */
  function Pages<C, T, E>(
      answer: (nat, Option<C>) -> Result<Reply<C, T>, E>, i: nat, cursor: Option<C>, n: nat): Walked<T>
    decreases n
  {
    if n == 0 then Walked([], Pending)
    else
      var reply := answer(i, cursor);
      if reply.Err? then Walked([], Rejected)
      else if reply.value.next.None? then Walked(reply.value.items, Done)
      else
        var more := Pages(answer, i + 1, reply.value.next, n - 1);
        Walked(reply.value.items + more.items, more.end)
  }

  /**
   The reply to request `i` is the next stretch of `all` after its first `p` rows, with a cursor for what is left.
   `at(i, cursor, p)` says that the cursor of request `i` stands after the first `p` rows.
   */
  ghost predicate NextStretch<C, T, E>(
      reply: Result<Reply<C, T>, E>, all: seq<T>, at: (nat, Option<C>, nat) -> bool, i: nat, p: nat)
    requires p <= |all|
  {
    && reply.Ok?
    && var q := p + |reply.value.items|;
       if reply.value.next.None? then reply.value.items == all[p..]
       else p < q <= |all| && reply.value.items == all[p..q] && at(i + 1, reply.value.next, q)
  }

  /** The pages are `all` from its first `p` rows on, in full once the walk is done. */
  ghost predicate Consecutive<T>(walked: Walked<T>, all: seq<T>, p: nat, n: nat) {
    && walked.end != Rejected
    && p + |walked.items| <= |all| && walked.items == all[p..p + |walked.items|]
    && (walked.end == Done ==> p + |walked.items| == |all|)
    && (n > |all| - p ==> walked.end == Done)
  }

  lemma JoinStretch<T>(items: seq<T>, more: Walked<T>, all: seq<T>, p: nat, n: nat)
    requires items != [] && p + |items| <= |all| && items == all[p..p + |items|]
    requires n > 0 && Consecutive(more, all, p + |items|, n - 1)
    ensures Consecutive(Walked(items + more.items, more.end), all, p, n)
  {
  }

  /**
   If every reply is the next stretch, the pages are `all` from the start on, and |all| + 1 requests reach the end.
   */
  lemma {:induction false} PagesAreConsecutive<C(!new), T, E>(
      answer: (nat, Option<C>) -> Result<Reply<C, T>, E>, all: seq<T>, at: (nat, Option<C>, nat) -> bool,
      i: nat, cursor: Option<C>, p: nat, n: nat)
    requires p <= |all| && at(i, cursor, p)
    requires forall j: nat, c, q: nat {:trigger NextStretch(answer(j, c), all, at, j, q)} ::
               q <= |all| && at(j, c, q) ==> NextStretch(answer(j, c), all, at, j, q)
    ensures Consecutive(Pages(answer, i, cursor, n), all, p, n)
    decreases n
  {
    if n > 0 {
      var reply := answer(i, cursor);
      assert NextStretch(reply, all, at, i, p);
      if reply.value.next.Some? {
        var items, next := reply.value.items, reply.value.next;
        PagesAreConsecutive(answer, all, at, i + 1, next, p + |items|, n - 1);
        JoinStretch(items, Pages(answer, i + 1, next, n - 1), all, p, n);
      }
    }
  }
}
