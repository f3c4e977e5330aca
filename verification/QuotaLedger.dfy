/**
 The ledger of the upstream quota: one row with the start of the last recorded run and, after a quota failure, the
 deadline before which the provider is not called. Outcomes may arrive in any order.
 */
module QuotaLedger {
  import opened Common
  import opened TimeUtils

  datatype Row = Row(lastStarted: Option<int>, nextDue: Option<int>)

  /** The latest run that was not skipped, before the ledger had a row. */
  datatype LegacyRun = LegacyRun(startedAt: int, quotaError: bool)

  function Backoff(seconds: int): int {
    if seconds > 0 then seconds * SECOND else 0
  }

  /** `compute_upstream_rate_limit_retry_at`. */
  function RetryAt(referenceAt: int, seconds: int): int {
    referenceAt + Backoff(seconds)
  }

  /** `get_upstream_rate_limit_state`: the end of the block that holds at `now`, if one does. */
  function BlockedUntil(live: bool, row: Option<Row>, latest: Option<LegacyRun>, now: int, seconds: int): Option<int> {
    if !live then None
    else if row.Some? then
      if row.value.nextDue.None? || now >= row.value.nextDue.value then None else row.value.nextDue
    else if latest.None? || !latest.value.quotaError then None
    else
      var until := RetryAt(latest.value.startedAt, seconds);
      if now >= until then None else Some(until)
  }

  /** What a finished run reports: `failed` says that one of its messages is a quota error. */
  datatype Outcome = Outcome(startedAt: int, wasBlocked: bool, failed: bool)

  /** The outcome is older than what the row records, or falls before a deadline that holds. */
  predicate Superseded(row: Option<Row>, o: Outcome) {
    row.Some? &&
    (|| (row.value.lastStarted.Some? && row.value.lastStarted.value > o.startedAt)
     || (row.value.nextDue.Some? && row.value.nextDue.value > o.startedAt))
  }

  /** The row after `_record_quota_outcome` by a live client. */
  function Recorded(row: Option<Row>, o: Outcome, seconds: int): Option<Row> {
    if o.wasBlocked || Superseded(row, o) then row
    else Some(Row(Some(o.startedAt), if o.failed then Some(RetryAt(o.startedAt, seconds)) else None))
  }

  /** The row after `_retain_quota_deadline`: only a missing row is filled. */
  function Retained(row: Option<Row>, until: Option<int>, seconds: int): Option<Row> {
    if row.None? && until.Some? then Some(Row(Some(until.value - Backoff(seconds)), until)) else row
  }

  /** Neither the recorded start nor the deadline lies after that start. */
  ghost predicate IsNotLater(row: Row, startedAt: int) {
    && (row.lastStarted.Some? ==> row.lastStarted.value <= startedAt)
    && (row.nextDue.Some? ==> row.nextDue.value <= startedAt)
  }

  /** The deadline is `seconds` after the start, or the start itself if they are not positive. */
  ghost predicate IsDue(due: Option<int>, startedAt: int, seconds: int) {
    due == Some(if seconds <= 0 then startedAt else startedAt + seconds * SECOND)
  }

  class QuotaLedger {
    var row: Option<Row>
    const live: bool
    const seconds: int

    constructor (live: bool, seconds: int)
      ensures this.live == live && this.seconds == seconds && row == None
    {
      this.live, this.seconds, row := live, seconds, None;
    }

    /**
     Adopts the deadline of a legacy run. From then on the answer no longer depends on the legacy run: the block lasts
     exactly until that deadline. A ledger that has a row keeps it.
     */
    method RetainDeadline(until: Option<int>)
      modifies this
      ensures row == Retained(old(row), until, seconds)
      ensures old(row).Some? || until.None? ==> row == old(row)
      ensures old(row).None? && until.Some? ==>
                && Sound(row, seconds)
                && forall now, latest ::
                     BlockedUntil(live, row, latest, now, seconds) == if live && now < until.value then until else None
    {
      if row.None? && until.Some? {
        row := Some(Row(Some(until.value - Backoff(seconds)), until));
      }
    }

    method RecordOutcome(o: Outcome)
      modifies this
      ensures row == if live then Recorded(old(row), o, seconds) else old(row)
      ensures var before := old(row);
              if live && !o.wasBlocked && (before.Some? ==> IsNotLater(before.value, o.startedAt))
              then && row.Some? && row.value.lastStarted == Some(o.startedAt)
                   && (if o.failed then IsDue(row.value.nextDue, o.startedAt, seconds) else row.value.nextDue.None?)
              else row == before
    {
      if !live || o.wasBlocked {
        return;
      }
      if row.Some? {
        if row.value.lastStarted.Some? && row.value.lastStarted.value > o.startedAt {
          return;
        }
        if row.value.nextDue.Some? && row.value.nextDue.value > o.startedAt {
          return;
        }
      }
      var due := None;
      if o.failed {
        due := Some(RetryAt(o.startedAt, seconds));
      }
      row := Some(Row(Some(o.startedAt), due));
    }
  }

  // ----- any order of outcomes -----

  datatype Event = Retain(until: Option<int>) | Record(outcome: Outcome)

  function Step(row: Option<Row>, e: Event, seconds: int): Option<Row> {
    match e
    case Retain(until) => Retained(row, until, seconds)
    case Record(o) => Recorded(row, o, seconds)
  }

  function After(row: Option<Row>, es: seq<Event>, seconds: int): Option<Row>
    decreases |es|
  {
    if es == [] then row else After(Step(row, es[0], seconds), es[1..], seconds)
  }

  /** A stored deadline is the recorded start plus the backoff. */
  ghost predicate Sound(row: Option<Row>, seconds: int) {
    row.Some? ==>
      row.value.lastStarted.Some?
          && (row.value.nextDue.Some? ==> row.value.nextDue.value == RetryAt(row.value.lastStarted.value, seconds))
  }

  lemma {:induction false} LedgerStaysSound(row: Option<Row>, es: seq<Event>, seconds: int)
    requires Sound(row, seconds)
    ensures Sound(After(row, es, seconds), seconds)
    decreases |es|
  {
    if es != [] {
      LedgerStaysSound(Step(row, es[0], seconds), es[1..], seconds);
    }
  }

  /**
   Over any order of outcomes, the recorded start never goes back, and a deadline is only cleared or replaced by a run
   that started at or after it.
   */
  lemma {:induction false} LedgerGoesForward(row: Option<Row>, es: seq<Event>, seconds: int)
    requires Sound(row, seconds) && row.Some?
    ensures var next := After(row, es, seconds);
            && next.Some? && next.value.lastStarted.Some?
            && next.value.lastStarted.value >= row.value.lastStarted.value
            && (row.value.nextDue.Some? && next.value.nextDue != row.value.nextDue ==>
                  next.value.lastStarted.value >= row.value.nextDue.value)
    decreases |es|
  {
    if es != [] {
      LedgerGoesForward(Step(row, es[0], seconds), es[1..], seconds);
    }
  }

  /** In every run from an empty ledger, a block that holds ends at most one backoff after the start it records. */
  lemma BlocksEndWithinOneBackoff(es: seq<Event>, live: bool, latest: Option<LegacyRun>, now: int, seconds: int)
    requires After(None, es, seconds).Some?
    ensures var row, until := After(None, es, seconds),
            BlockedUntil(live, After(None, es, seconds), latest, now, seconds);
            until.Some? ==>
              && row.value.lastStarted.Some?
              && IsDue(until, row.value.lastStarted.value, seconds) && until == row.value.nextDue && now < until.value
  {
    LedgerStaysSound(None, es, seconds);
  }

  /** Every event is an outcome of a run that started before `limit`, or an adoption. */
  ghost predicate StartedBefore(es: seq<Event>, limit: int) {
    forall i :: 0 <= i < |es| && es[i].Record? ==> es[i].outcome.startedAt < limit
  }

  /**
   While a deadline is ahead of every run, nothing moves it: successes, failures and late outcomes of runs that started
   before it leave the row as it is, so the block lasts exactly until the deadline.
   */
  lemma {:induction false} DeadlineStands(row: Option<Row>, es: seq<Event>, due: int, seconds: int)
    requires row.Some? && row.value.nextDue == Some(due) && StartedBefore(es, due)
    ensures After(row, es, seconds) == row
    ensures forall now, latest ::
              BlockedUntil(true, After(row, es, seconds), latest, now, seconds) == if now < due then Some(due) else None
    decreases |es|
  {
    if es != [] {
      DeadlineStands(row, es[1..], due, seconds);
    }
  }

  /** The outcome that an adoption stands for: a failure one backoff before the deadline. */
  function Adopted(until: int, seconds: int): Outcome {
    Outcome(until - Backoff(seconds), false, true)
  }

  /** What one event adds to the accepted outcomes. */
  function Accepts(row: Option<Row>, e: Event, seconds: int): seq<Outcome> {
    match e
    case Retain(until) => if row.None? && until.Some? then [Adopted(until.value, seconds)] else []
    case Record(o) => if o.wasBlocked || Superseded(row, o) then [] else [o]
  }

  /** The outcomes that took effect, in order, an adoption among them. */
  function Accepted(row: Option<Row>, es: seq<Event>, seconds: int): seq<Outcome>
    decreases |es|
  {
    if es == [] then []
    else Accepts(row, es[0], seconds) + Accepted(Step(row, es[0], seconds), es[1..], seconds)
  }

  /** The end of the time that an accepted outcome claims for itself: a failure blocks for one backoff. */
  function FreeFrom(o: Outcome, seconds: int): int {
    if o.failed then RetryAt(o.startedAt, seconds) else o.startedAt
  }

  /** The row that records the last accepted outcome. */
  function RowOf(accepted: seq<Outcome>, seconds: int): Option<Row> {
    if accepted == [] then None
    else
      var last := accepted[|accepted| - 1];
      Some(Row(Some(last.startedAt), if last.failed then Some(RetryAt(last.startedAt, seconds)) else None))
  }

  /** Each outcome started no earlier than what the ones before it claim. */
  ghost predicate InTurn(accepted: seq<Outcome>, seconds: int) {
    forall i, j :: 0 <= i < j < |accepted| ==> FreeFrom(accepted[i], seconds) <= accepted[j].startedAt
  }

  lemma AcceptNext(accepted: seq<Outcome>, o: Outcome, seconds: int)
    requires InTurn(accepted, seconds)
    ensures var row := RowOf(accepted, seconds);
            && (Superseded(row, o) <==> exists i :: 0 <= i < |accepted| && FreeFrom(accepted[i], seconds) > o.startedAt)
            && (!Superseded(row, o) ==> InTurn(accepted + [o], seconds))
  {
    if accepted != [] {
      var last := accepted[|accepted| - 1];
      assert forall i :: 0 <= i < |accepted| ==> FreeFrom(accepted[i], seconds) <= FreeFrom(last, seconds);
    }
  }

  lemma StepAccepts(accepted: seq<Outcome>, e: Event, seconds: int)
    requires InTurn(accepted, seconds)
    ensures var row := RowOf(accepted, seconds);
            var next := accepted + Accepts(row, e, seconds);
            Step(row, e, seconds) == RowOf(next, seconds) && InTurn(next, seconds)
  {
    var row := RowOf(accepted, seconds);
    if Accepts(row, e, seconds) == [] {
      assert accepted + [] == accepted;
    } else {
      AcceptNext(accepted, Accepts(row, e, seconds)[0], seconds);
    }
  }

  /** The row is always that of the last accepted outcome, and accepted outcomes come in turn. */
  lemma {:induction false} RowIsLastAccepted(accepted: seq<Outcome>, es: seq<Event>, seconds: int)
    requires InTurn(accepted, seconds)
    ensures var all := accepted + Accepted(RowOf(accepted, seconds), es, seconds);
            After(RowOf(accepted, seconds), es, seconds) == RowOf(all, seconds) && InTurn(all, seconds)
    decreases |es|
  {
    var row := RowOf(accepted, seconds);
    if es == [] {
      assert accepted + [] == accepted;
    } else {
      var next := accepted + Accepts(row, es[0], seconds);
      StepAccepts(accepted, es[0], seconds);
      RowIsLastAccepted(next, es[1..], seconds);
      var rest := Accepted(RowOf(next, seconds), es[1..], seconds);
      assert next + rest == accepted + (Accepts(row, es[0], seconds) + rest);
    }
  }

  lemma RunFromEmpty(es: seq<Event>, seconds: int, accepted: seq<Outcome>)
    requires accepted == Accepted(None, es, seconds)
    ensures After(None, es, seconds) == RowOf(accepted, seconds) && InTurn(accepted, seconds)
  {
    RowIsLastAccepted([], es, seconds);
    assert [] + accepted == accepted;
  }

  /**
   In every run from an empty ledger, with outcomes in any order and adoptions between them: the next outcome of a run
   that was not blocked takes effect exactly if its run started no earlier than any accepted run and no earlier than the
   end of the backoff of any accepted failure; otherwise the ledger stays as it is.
   */
  lemma OutcomeCountsIff(es: seq<Event>, o: Outcome, seconds: int)
    requires !o.wasBlocked
    ensures var accepted, row := Accepted(None, es, seconds), After(None, es, seconds);
            if forall i :: 0 <= i < |accepted| ==> FreeFrom(accepted[i], seconds) <= o.startedAt
            then Recorded(row, o, seconds) == RowOf([o], seconds) else Recorded(row, o, seconds) == row
  {
    var accepted := Accepted(None, es, seconds);
    RunFromEmpty(es, seconds, accepted);
    AcceptNext(accepted, o, seconds);
  }

  /** Adopting the deadline of a legacy run keeps the answer at every later time, whatever runs are recorded since. */
  lemma AdoptionKeepsTheBlock(latest: LegacyRun, seen: int, now: int, later: Option<LegacyRun>, seconds: int)
    requires BlockedUntil(true, None, Some(latest), seen, seconds).Some? && now >= seen
    ensures var until := BlockedUntil(true, None, Some(latest), seen, seconds);
            var row := Retained(None, until, seconds);
            && latest.quotaError && IsDue(until, latest.startedAt, seconds) && seen < until.value
            && row.Some? && row.value == Row(Some(latest.startedAt), until)
            && BlockedUntil(true, row, later, now, seconds) == BlockedUntil(true, None, Some(latest), now, seconds)
  {
  }
}
