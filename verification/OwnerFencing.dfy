/**
 Fencing of collection runs: worker sessions that track runs, the leases they share, the row locks of the run
 table and the reapers that recover abandoned runs, as one state machine. A step is one database statement or one
 session hook; every interleaving of steps is allowed that the row locks allow.
 */
module OwnerFencing {
  import opened Common

  type RunId = int
  type SessionId = int
  type LeaseId = int
  type ReaperId = int
  type Owner = int

  datatype Status = Running | Success | PartialSuccess | Failed | Skipped

  datatype Run = Run(status: Status, owner: Owner, heartbeat: Option<int>)

  /** `row.__dict__.get("status")`: Unknown once the attribute has been expired. */
  datatype Memory = Known(status: Status) | Unknown

  datatype Holder = Worker(session: SessionId) | Reaper(reaper: ReaperId)

  /** Fencing(flush): inside `_fence`, called from before_flush or from before_commit. */
  datatype Phase = Idle | Fencing(flush: bool) | Writing

  /**
   One `CollectorSyncSession`: `tracked` is "collector_runs", `fenced` "collector_fenced", `inserted`
   "collector_new_ids"; `writes` are the run rows of the open transaction, `outbox` its other rows.
   `committing` is set while `commit()` runs.
   */
  datatype Session = Session(
    owner: Owner, lease: LeaseId, phase: Phase, committing: bool,
    tracked: map<RunId, Memory>, fenced: set<RunId>, inserted: set<RunId>,
    writes: map<RunId, Run>, outbox: seq<int>)

  /** A committed transaction: who committed it, the runs it tracked, and the rows it published. */
  datatype Publication = Publication(session: SessionId, runs: set<RunId>, rows: seq<int>)

  /** `runs` is the committed table; `pending` the uncommitted update of each reaper; `recovered` the runs reaped. */
  datatype State = State(
    runs: map<RunId, Run>, locks: map<RunId, Holder>, sessions: map<SessionId, Session>,
    revoked: set<LeaseId>, pending: map<ReaperId, RunId>, recovered: set<RunId>, log: seq<Publication>)

  const EMPTY: State := State(map[], map[], map[], {}, map[], {}, [])

  datatype Event =
    | OpenSession(session: SessionId, owner: Owner, lease: LeaseId)
    | Stage(session: SessionId, row: int)
    | BeginFlush(session: SessionId)
    | BeginCommit(session: SessionId)
    | FenceRun(session: SessionId, run: RunId, now: int)
    | FenceDone(session: SessionId)
    | InsertRun(session: SessionId, run: RunId, status: Status, now: int)
    | WriteStatus(session: SessionId, run: RunId, status: Status)
    | EndFlush(session: SessionId)
    | Reload(session: SessionId, run: RunId)
    | Commit(session: SessionId)
    | Rollback(session: SessionId)
    | OwnerFinished(lease: LeaseId)
    | ReaperUpdate(reaper: ReaperId, run: RunId, owner: Owner, heartbeat: Option<int>, missing: bool)
    | ReaperCommit(reaper: ReaperId)
    | ReaperRollback(reaper: ReaperId)

  // ----- steps -----

  function Put(s: State, sid: SessionId, w: Session): State {
    s.(sessions := s.sessions[sid := w])
  }

  predicate FreeFor(s: State, run: RunId, h: Holder) {
    run in s.locks ==> s.locks[run] == h
  }

  function Unlocked(s: State, h: Holder): map<RunId, Holder> {
    s.locks - set run | run in s.locks && s.locks[run] == h
  }

  /** The row a session reads: its own uncommitted version, else the committed one. */
  function Visible(s: State, w: Session, run: RunId): Option<Run> {
    if run in w.writes then Some(w.writes[run]) else if run in s.runs then Some(s.runs[run]) else None
  }

  /** The check of `_fence`. */
  predicate Owned(w: Session, row: Option<Run>) {
    row.Some? && row.value.status == Running && row.value.owner == w.owner
  }

  /** An unknown status is no proof that the run ended. */
  predicate MayRun(m: Memory) {
    m == Unknown || m == Known(Running)
  }

  /** Runs that `after_commit` keeps tracking. */
  function StillTracked(tracked: map<RunId, Memory>): map<RunId, Memory> {
    tracked - set run | run in tracked && !MayRun(tracked[run])
  }

  /** `SELECT ... FOR UPDATE` of one tracked run, the ownership check and the heartbeat. */
  function FenceStep(s: State, sid: SessionId, run: RunId, now: int): State
    requires sid in s.sessions
  {
    var w := s.sessions[sid];
    var row := Visible(s, w, run);
    var locks := if row.Some? then s.locks[run := Worker(sid)] else s.locks;
    if Owned(w, row) then
      var w' := w.(fenced := w.fenced + {run}, writes := w.writes[run := row.value.(heartbeat := Some(now))]);
      Put(s, sid, w').(locks := locks)
    else
      Put(s, sid, w.(phase := Idle, committing := false)).(locks := locks, revoked := s.revoked + {w.lease})
  }

  /** A new run row; a running one is tracked and counts as fenced from the start. */
  function InsertStep(s: State, sid: SessionId, run: RunId, status: Status, now: int): State
    requires sid in s.sessions
  {
    var w := s.sessions[sid];
    var w1 := w.(writes := w.writes[run := Run(status, w.owner, Some(now))]);
    var w2 := if status != Running then w1
              else w1.(tracked := w1.tracked[run := Known(Running)], fenced := w1.fenced + {run},
                       inserted := w1.inserted + {run});
    Put(s, sid, w2).(locks := s.locks[run := Worker(sid)])
  }

  function CommitStep(s: State, sid: SessionId): State
    requires sid in s.sessions
  {
    var w := s.sessions[sid];
    var w' := w.(phase := Idle, committing := false, tracked := StillTracked(w.tracked),
                 fenced := {}, inserted := {}, writes := map[], outbox := []);
    Put(s, sid, w').(runs := s.runs + w.writes, locks := Unlocked(s, Worker(sid)),
                     log := s.log + [Publication(sid, w.tracked.Keys, w.outbox)])
  }

  function RollbackStep(s: State, sid: SessionId): State
    requires sid in s.sessions
  {
    var w := s.sessions[sid];
    var w' := w.(phase := Idle, committing := false,
                 tracked := map run | run in w.tracked && run !in w.inserted :: Unknown,
                 fenced := {}, inserted := {}, writes := map[], outbox := []);
    Put(s, sid, w').(locks := Unlocked(s, Worker(sid)))
  }

  /** The guarded UPDATE: the row must still be running under that owner, with that heartbeat if the run is missing. */
  predicate ReaperMatches(s: State, run: RunId, owner: Owner, heartbeat: Option<int>, missing: bool) {
    && run in s.runs
    && s.runs[run].status == Running
    && s.runs[run].owner == owner
    && (missing ==> s.runs[run].heartbeat == heartbeat)
  }

  /** Events that change only the session's own fields. */
  predicate LocalEvent(e: Event) {
    e.Stage? || e.BeginFlush? || e.BeginCommit? || e.FenceDone? || e.WriteStatus? || e.EndFlush? || e.Reload?
  }

  predicate SessionEvent(e: Event) {
    LocalEvent(e) || e.FenceRun? || e.InsertRun? || e.Commit? || e.Rollback?
  }

  function LocalStep(s: State, w: Session, e: Event): Option<Session>
    requires LocalEvent(e)
  {
    match e
    case Stage(_, row) =>
      if w.phase != Idle || w.committing then None else Some(w.(outbox := w.outbox + [row]))
    case BeginFlush(_) =>
      if w.phase != Idle then None
      else if w.lease in s.revoked then Some(w.(committing := false))
      else Some(w.(phase := Fencing(true)))
    case BeginCommit(_) =>
      if w.phase != Idle || w.committing then None
      else if w.lease in s.revoked then Some(w)
      else Some(w.(phase := Fencing(false), committing := true))
    case FenceDone(_) =>
      if !w.phase.Fencing? || !(w.tracked.Keys <= w.fenced) then None
      else Some(w.(phase := if w.phase.flush then Writing else Idle))
    case WriteStatus(_, run, status) =>
      if w.phase != Writing || run !in w.tracked || run !in w.writes then None
      else Some(w.(writes := w.writes[run := w.writes[run].(status := status)],
                   tracked := w.tracked[run := Known(status)]))
    case EndFlush(_) =>
      if w.phase != Writing then None else Some(w.(phase := Idle))
    case Reload(_, run) =>
      if run !in w.tracked || Visible(s, w, run).None? then None
      else Some(w.(tracked := w.tracked[run := Known(Visible(s, w, run).value.status)]))
  }

  function SessionStep(s: State, e: Event): Option<State>
    requires SessionEvent(e) && e.session in s.sessions
  {
    var sid, w := e.session, s.sessions[e.session];
    if LocalEvent(e) then
      var w' := LocalStep(s, w, e);
      if w'.None? then None else Some(Put(s, sid, w'.value))
    else if e.FenceRun? then
      if !w.phase.Fencing? || e.run !in w.tracked || e.run in w.fenced || !FreeFor(s, e.run, Worker(sid)) then None
      else Some(FenceStep(s, sid, e.run, e.now))
    else if e.InsertRun? then
      if w.phase != Writing || e.run in s.runs || e.run in s.locks then None
      else Some(InsertStep(s, sid, e.run, e.status, e.now))
    else if e.Commit? then
      if w.phase != Idle || !w.committing then None else Some(CommitStep(s, sid))
    else
      Some(RollbackStep(s, sid))
  }

  function ReaperStep(s: State, e: Event): Option<State>
    requires e.ReaperUpdate? || e.ReaperCommit? || e.ReaperRollback?
  {
    match e
    case ReaperUpdate(reaper, run, owner, heartbeat, missing) =>
      if reaper in s.pending || run in s.locks then None
      else if !ReaperMatches(s, run, owner, heartbeat, missing) then Some(s)
      else Some(s.(locks := s.locks[run := Reaper(reaper)], pending := s.pending[reaper := run]))
    case ReaperCommit(reaper) =>
      if reaper !in s.pending || s.pending[reaper] !in s.runs then None
      else
        var run := s.pending[reaper];
        Some(s.(runs := s.runs[run := s.runs[run].(status := Failed)], locks := Unlocked(s, Reaper(reaper)),
                pending := s.pending - {reaper}, recovered := s.recovered + {run}))
    case ReaperRollback(reaper) =>
      if reaper !in s.pending then None
      else Some(s.(locks := Unlocked(s, Reaper(reaper)), pending := s.pending - {reaper}))
  }

  /** The next state, or None when the step cannot be taken now (for example, the row lock is held elsewhere). */
  function Step(s: State, e: Event): Option<State> {
    if e.OpenSession? then
      if e.session in s.sessions then None
      else Some(Put(s, e.session, Session(e.owner, e.lease, Idle, false, map[], {}, {}, map[], [])))
    else if e.OwnerFinished? then Some(s.(revoked := s.revoked + {e.lease}))
    else if SessionEvent(e) then
      if e.session in s.sessions then SessionStep(s, e) else None
    else ReaperStep(s, e)
  }

  /** The state after the events, skipping those that cannot be taken. */
  function After(s: State, es: seq<Event>): State
    decreases |es|
  {
    if es == [] then s
    else match Step(s, es[0])
         case None => After(s, es[1..])
         case Some(s') => After(s', es[1..])
  }

  // ----- the invariant -----

  /** What a session holds: a fenced run is locked by it and running under its owner, or its own insert. */
  ghost predicate HeldInv(s: State, sid: SessionId, w: Session) {
    && (forall run :: run in w.fenced ==>
          run in s.locks && s.locks[run] == Worker(sid)
          && (run in w.inserted ==> run !in s.runs)
          && (run !in w.inserted ==> run in s.runs && s.runs[run].status == Running && s.runs[run].owner == w.owner))
    && (forall run :: run in w.writes ==>
          && run in s.locks && s.locks[run] == Worker(sid) && (run in s.runs ==> run in w.fenced)
          && w.writes[run].owner == w.owner)
    && w.inserted <= w.fenced && w.inserted <= w.writes.Keys
  }

  /** What a session tracks: a stored run or its own insert; a status it remembers as ended has ended. */
  ghost predicate TrackInv(s: State, w: Session) {
    && (forall run :: run in w.tracked ==>
        (run in s.runs || run in w.inserted) && (run in w.writes ==> run in w.fenced))
    && (forall run :: run in w.tracked && !MayRun(w.tracked[run]) ==>
          Visible(s, w, run).Some? && Visible(s, w, run).value.status != Running)
    && (w.phase == Writing || (w.committing && w.phase != Fencing(false)) ==> w.tracked.Keys <= w.fenced)
  }

  ghost predicate SessionInv(s: State, sid: SessionId, w: Session) {
    HeldInv(s, sid, w) && TrackInv(s, w)
  }

  /** Every row lock is held by an open session or by a reaper with a pending update. */
  ghost predicate LocksHeld(s: State) {
    forall run :: run in s.locks ==>
      match s.locks[run]
      case Worker(sid) => sid in s.sessions
      case Reaper(reaper) => reaper in s.pending
  }

  ghost predicate Bookkeeping(s: State) {
    && (forall sid :: sid in s.sessions ==> SessionInv(s, sid, s.sessions[sid]))
    && (forall reaper :: reaper in s.pending ==>
          var run := s.pending[reaper];
          run in s.runs && run in s.locks && s.locks[run] == Reaper(reaper) && s.runs[run].status == Running)
    && (forall run :: run in s.recovered ==> run in s.runs && s.runs[run].status == Failed)
  }

  ghost predicate Inv(s: State) {
    Bookkeeping(s) && LocksHeld(s)
  }

  /** What one step may do to the committed table: an ended run never changes again. */
  ghost predicate EndedRunsStay(s: State, t: State) {
    forall run :: run in s.runs && s.runs[run].status != Running ==> run in t.runs && t.runs[run] == s.runs[run]
  }

  /** Nor does any run change its owner. */
  ghost predicate OwnersStay(s: State, t: State) {
    forall run :: run in s.runs ==> run in t.runs && t.runs[run].owner == s.runs[run].owner
  }

  lemma OnlyCommitsStore(s: State, e: Event)
    requires SessionEvent(e) && !e.Commit? && e.session in s.sessions && SessionStep(s, e).Some?
    ensures SessionStep(s, e).value.runs == s.runs
  {
  }

  lemma CommitKeepsOwners(s: State, sid: SessionId)
    requires sid in s.sessions && HeldInv(s, sid, s.sessions[sid])
    ensures OwnersStay(s, CommitStep(s, sid))
  {
  }

  lemma StepKeepsOwners(s: State, e: Event)
    requires Inv(s) && Step(s, e).Some?
    ensures OwnersStay(s, Step(s, e).value)
  {
    if e.Commit? {
      assert SessionInv(s, e.session, s.sessions[e.session]);
      CommitKeepsOwners(s, e.session);
    } else if SessionEvent(e) {
      OnlyCommitsStore(s, e);
    }
  }

  lemma EmptyInv()
    ensures Inv(EMPTY)
  {
  }

  /** A step of one session or of a reaper keeps every other session's bookkeeping true. */
  lemma OthersKeep(s: State, t: State, other: SessionId)
    requires Bookkeeping(s) && other in s.sessions
    requires forall run :: run in s.locks && s.locks[run] == Worker(other) ==>
             run in t.locks && t.locks[run] == s.locks[run]
    requires forall run :: run in s.runs && run in s.locks && s.locks[run] == Worker(other) ==>
             run in t.runs && t.runs[run] == s.runs[run]
    requires forall run :: run in t.runs && run !in s.runs && run in s.locks ==> s.locks[run] != Worker(other)
    requires s.runs.Keys <= t.runs.Keys && EndedRunsStay(s, t)
    ensures SessionInv(t, other, s.sessions[other])
  {
    var w := s.sessions[other];
    assert SessionInv(s, other, w);
  }

  lemma CommitKeepsInv(s: State, sid: SessionId)
    requires Bookkeeping(s) && sid in s.sessions && s.sessions[sid].committing && s.sessions[sid].phase == Idle
    ensures Bookkeeping(CommitStep(s, sid)) && EndedRunsStay(s, CommitStep(s, sid))
  {
    var t, w := CommitStep(s, sid), s.sessions[sid];
    assert SessionInv(s, sid, w);
    forall other | other in s.sessions && other != sid {
      OthersKeep(s, t, other);
    }
    assert SessionInv(t, sid, t.sessions[sid]);
  }

  lemma RollbackKeepsInv(s: State, sid: SessionId)
    requires Bookkeeping(s) && sid in s.sessions
    ensures Bookkeeping(RollbackStep(s, sid)) && EndedRunsStay(s, RollbackStep(s, sid))
  {
    var t := RollbackStep(s, sid);
    forall other | other in s.sessions && other != sid {
      OthersKeep(s, t, other);
    }
    assert SessionInv(t, sid, t.sessions[sid]);
  }

  lemma FenceKeepsOwn(s: State, sid: SessionId, run: RunId, now: int)
    requires sid in s.sessions && SessionInv(s, sid, s.sessions[sid]) && s.sessions[sid].phase.Fencing?
    requires run in s.sessions[sid].tracked && run !in s.sessions[sid].fenced && FreeFor(s, run, Worker(sid))
    ensures var t := FenceStep(s, sid, run, now); HeldInv(t, sid, t.sessions[sid]) && TrackInv(t, t.sessions[sid])
  {
    var t, w := FenceStep(s, sid, run, now), s.sessions[sid];
    assert HeldInv(t, sid, t.sessions[sid]);
    forall r | r in t.sessions[sid].tracked && !MayRun(t.sessions[sid].tracked[r])
      ensures Visible(t, t.sessions[sid], r).Some? && Visible(t, t.sessions[sid], r).value.status != Running
    {
      assert Visible(s, w, r).Some?;
    }
  }

  lemma FenceKeepsInv(s: State, sid: SessionId, run: RunId, now: int)
    requires Bookkeeping(s) && sid in s.sessions && s.sessions[sid].phase.Fencing?
    requires run in s.sessions[sid].tracked && run !in s.sessions[sid].fenced && FreeFor(s, run, Worker(sid))
    ensures Bookkeeping(FenceStep(s, sid, run, now)) && EndedRunsStay(s, FenceStep(s, sid, run, now))
  {
    var t := FenceStep(s, sid, run, now);
    FenceKeepsOwn(s, sid, run, now);
    forall other | other in s.sessions && other != sid {
      OthersKeep(s, t, other);
    }
  }

  lemma InsertKeepsOwn(s: State, sid: SessionId, run: RunId, status: Status, now: int)
    requires sid in s.sessions && SessionInv(s, sid, s.sessions[sid])
    requires s.sessions[sid].phase == Writing && run !in s.runs && run !in s.locks
    ensures var t := InsertStep(s, sid, run, status, now);
            HeldInv(t, sid, t.sessions[sid]) && TrackInv(t, t.sessions[sid])
  {
    var t, w := InsertStep(s, sid, run, status, now), s.sessions[sid];
    assert run !in w.tracked;
    assert HeldInv(t, sid, t.sessions[sid]);
    forall r | r in t.sessions[sid].tracked && !MayRun(t.sessions[sid].tracked[r])
      ensures Visible(t, t.sessions[sid], r).Some? && Visible(t, t.sessions[sid], r).value.status != Running
    {
      assert Visible(s, w, r).Some?;
    }
  }

  lemma InsertKeepsInv(s: State, sid: SessionId, run: RunId, status: Status, now: int)
    requires Bookkeeping(s) && sid in s.sessions && s.sessions[sid].phase == Writing && run !in s.runs
             && run !in s.locks
    ensures Bookkeeping(InsertStep(s, sid, run, status, now)) && EndedRunsStay(s, InsertStep(s, sid, run, status, now))
  {
    var t := InsertStep(s, sid, run, status, now);
    InsertKeepsOwn(s, sid, run, status, now);
    forall other | other in s.sessions && other != sid {
      OthersKeep(s, t, other);
    }
  }

  lemma WriteStatusKeepsInv(s: State, sid: SessionId, w: Session, run: RunId, status: Status)
    requires SessionInv(s, sid, w) && LocalStep(s, w, WriteStatus(sid, run, status)).Some?
    ensures SessionInv(s, sid, LocalStep(s, w, WriteStatus(sid, run, status)).value)
  {
    var w' := LocalStep(s, w, WriteStatus(sid, run, status)).value;
    forall r | r in w'.tracked && !MayRun(w'.tracked[r])
      ensures Visible(s, w', r).Some? && Visible(s, w', r).value.status != Running
    {
      assert r != run ==> Visible(s, w', r) == Visible(s, w, r);
    }
  }

  lemma ReloadKeepsInv(s: State, sid: SessionId, w: Session, run: RunId)
    requires SessionInv(s, sid, w) && LocalStep(s, w, Reload(sid, run)).Some?
    ensures SessionInv(s, sid, LocalStep(s, w, Reload(sid, run)).value)
  {
    var w' := LocalStep(s, w, Reload(sid, run)).value;
    forall r | r in w'.tracked ensures Visible(s, w', r) == Visible(s, w, r) {
    }
  }

  lemma LocalStepKeepsInv(s: State, e: Event)
    requires Bookkeeping(s) && LocalEvent(e) && e.session in s.sessions && LocalStep(s, s.sessions[e.session], e).Some?
    ensures SessionInv(s, e.session, LocalStep(s, s.sessions[e.session], e).value)
  {
    var w := s.sessions[e.session];
    assert SessionInv(s, e.session, w);
    if e.WriteStatus? {
      WriteStatusKeepsInv(s, e.session, w, e.run, e.status);
    } else if e.Reload? {
      ReloadKeepsInv(s, e.session, w, e.run);
    } else {
      var w' := LocalStep(s, w, e).value;
      assert w' == w.(phase := w'.phase, committing := w'.committing, outbox := w'.outbox);
      assert forall r :: Visible(s, w', r) == Visible(s, w, r);
    }
  }

  lemma PutKeepsInv(s: State, sid: SessionId, w: Session)
    requires Bookkeeping(s) && sid in s.sessions && SessionInv(s, sid, w)
    ensures Bookkeeping(Put(s, sid, w)) && EndedRunsStay(s, Put(s, sid, w))
  {
    var t := Put(s, sid, w);
    forall other | other in t.sessions ensures SessionInv(t, other, t.sessions[other]) {
      assert other != sid ==> SessionInv(s, other, s.sessions[other]);
    }
  }

  lemma SessionStepKeepsInv(s: State, e: Event)
    requires Bookkeeping(s) && SessionEvent(e) && e.session in s.sessions && SessionStep(s, e).Some?
    ensures Bookkeeping(SessionStep(s, e).value) && EndedRunsStay(s, SessionStep(s, e).value)
  {
    if LocalEvent(e) {
      LocalStepKeepsInv(s, e);
      PutKeepsInv(s, e.session, LocalStep(s, s.sessions[e.session], e).value);
    } else if e.FenceRun? {
      FenceKeepsInv(s, e.session, e.run, e.now);
    } else if e.InsertRun? {
      InsertKeepsInv(s, e.session, e.run, e.status, e.now);
    } else if e.Commit? {
      CommitKeepsInv(s, e.session);
    } else {
      RollbackKeepsInv(s, e.session);
    }
  }

  lemma ReaperStepKeepsInv(s: State, e: Event)
    requires Bookkeeping(s) && (e.ReaperUpdate? || e.ReaperCommit? || e.ReaperRollback?) && ReaperStep(s, e).Some?
    ensures Bookkeeping(ReaperStep(s, e).value) && EndedRunsStay(s, ReaperStep(s, e).value)
  {
    var t := ReaperStep(s, e).value;
    forall sid | sid in t.sessions ensures SessionInv(t, sid, t.sessions[sid]) {
      OthersKeep(s, t, sid);
    }
  }

  lemma SessionStepKeepsLocks(s: State, e: Event)
    requires LocksHeld(s) && SessionEvent(e) && e.session in s.sessions && SessionStep(s, e).Some?
    ensures LocksHeld(SessionStep(s, e).value)
  {
    var t := SessionStep(s, e).value;
    SessionStepFrame(s, e);
    assert t.pending == s.pending;
    assert forall run :: run in t.locks ==>
           t.locks[run] == Worker(e.session) || (run in s.locks && t.locks[run] == s.locks[run]);
  }

  lemma ReaperStepKeepsLocks(s: State, e: Event)
    requires LocksHeld(s) && (e.ReaperUpdate? || e.ReaperCommit? || e.ReaperRollback?) && ReaperStep(s, e).Some?
    ensures LocksHeld(ReaperStep(s, e).value)
  {
  }

  /** Every step keeps the invariant and leaves ended runs as they are. */
  lemma StepKeepsInv(s: State, e: Event)
    requires Inv(s) && Step(s, e).Some?
    ensures Inv(Step(s, e).value) && EndedRunsStay(s, Step(s, e).value)
  {
    if SessionEvent(e) {
      SessionStepKeepsInv(s, e);
      SessionStepKeepsLocks(s, e);
    } else if e.OpenSession? || e.OwnerFinished? {
      var t := Step(s, e).value;
      forall sid | sid in t.sessions ensures SessionInv(t, sid, t.sessions[sid]) {
        assert sid in s.sessions ==> SessionInv(s, sid, s.sessions[sid]);
      }
    } else {
      ReaperStepKeepsInv(s, e);
      ReaperStepKeepsLocks(s, e);
    }
  }

  /** What a session's own step may change. */
  ghost predicate SessionFrame(s: State, e: Event, w: Session, w': Session) {
    && w'.owner == w.owner && w'.lease == w.lease
    && (w'.committing && !w.committing ==> e.BeginCommit? && w.lease !in s.revoked)
    && (e.Commit? || e.Rollback? || w.tracked.Keys <= w'.tracked.Keys)
  }

  lemma LocalStepFrame(s: State, w: Session, e: Event)
    requires LocalEvent(e) && LocalStep(s, w, e).Some?
    ensures SessionFrame(s, e, w, LocalStep(s, w, e).value)
  {
  }

  lemma SessionStepFrame(s: State, e: Event)
    requires SessionEvent(e) && e.session in s.sessions && SessionStep(s, e).Some?
    ensures var t := SessionStep(s, e).value;
            && t.sessions.Keys == s.sessions.Keys
            && SessionFrame(s, e, s.sessions[e.session], t.sessions[e.session])
            && (forall sid :: sid in s.sessions && sid != e.session ==> t.sessions[sid] == s.sessions[sid])
            && s.revoked <= t.revoked
            && (e.Commit? ==> s.sessions[e.session].committing)
  {
    if LocalEvent(e) {
      LocalStepFrame(s, s.sessions[e.session], e);
    }
  }

  /** A step leaves every other session as it was and never clears a revocation. */
  lemma StepFrame(s: State, e: Event, sid: SessionId)
    requires Step(s, e).Some? && sid in s.sessions
    ensures var t := Step(s, e).value;
            && sid in t.sessions && s.revoked <= t.revoked
            && (if SessionEvent(e) && e.session == sid then SessionFrame(s, e, s.sessions[sid], t.sessions[sid])
                else t.sessions[sid] == s.sessions[sid])
            && (e.Commit? ==> e.session in s.sessions && s.sessions[e.session].committing)
  {
    if SessionEvent(e) {
      SessionStepFrame(s, e);
    }
  }

  // ----- every interleaving -----

  lemma {:induction false} AfterKeepsInv(s: State, es: seq<Event>)
    requires Inv(s)
    ensures Inv(After(s, es)) && EndedRunsStay(s, After(s, es))
    decreases |es|
  {
    if es != [] {
      if Step(s, es[0]).Some? {
        StepKeepsInv(s, es[0]);
        AfterKeepsInv(Step(s, es[0]).value, es[1..]);
      } else {
        AfterKeepsInv(s, es[1..]);
      }
    }
  }

  /**
   In every reachable state, a session that can commit has fenced all it tracks: each tracked run is running under
   the session's owner, or is the transaction's own insert that nobody else can see.
   */
  lemma CommitsOnlyOwnedRunningRuns(es: seq<Event>, sid: SessionId, run: RunId)
    requires var s := After(EMPTY, es);
             sid in s.sessions && run in s.sessions[sid].tracked && Step(s, Commit(sid)).Some?
    ensures var s := After(EMPTY, es);
            var w := s.sessions[sid];
            && run in s.locks && s.locks[run] == Worker(sid)
            && (run in w.inserted ==> run !in s.runs)
            && (run !in w.inserted ==> run in s.runs && s.runs[run].status == Running && s.runs[run].owner == w.owner)
  {
    EmptyInv();
    AfterKeepsInv(EMPTY, es);
    var s := After(EMPTY, es);
    assert SessionInv(s, sid, s.sessions[sid]);
  }

  /** No publication after the first `n` comes from a transaction that tracked `run`. */
  ghost predicate NotPublished(log: seq<Publication>, n: nat, run: RunId) {
    forall i :: n <= i < |log| ==> run !in log[i].runs
  }

  ghost predicate SilentSession(log: seq<Publication>, n: nat, sid: SessionId) {
    forall i :: n <= i < |log| ==> log[i].session != sid
  }

  lemma StepExtendsLog(s: State, e: Event)
    requires Inv(s) && Step(s, e).Some?
    ensures var t := Step(s, e).value;
            if e.Commit? then
              var w := s.sessions[e.session]; t.log == s.log + [Publication(e.session, w.tracked.Keys, w.outbox)]
            else t.log == s.log
  {
  }

  lemma CommitOmitsEnded(s: State, sid: SessionId, run: RunId)
    requires Inv(s) && Step(s, Commit(sid)).Some? && run in s.runs && s.runs[run].status != Running
    ensures run !in s.sessions[sid].tracked
  {
    assert SessionInv(s, sid, s.sessions[sid]);
  }

  /** Once a run has ended, whoever ended it, its row is final and no transaction tracking it commits any more. */
  lemma {:induction false} EndedRunIsFinal(s: State, es: seq<Event>, run: RunId)
    requires Inv(s) && run in s.runs && s.runs[run].status != Running
    ensures run in After(s, es).runs && After(s, es).runs[run] == s.runs[run]
    ensures |After(s, es).log| >= |s.log| && NotPublished(After(s, es).log, |s.log|, run)
    decreases |es|
  {
    if es != [] {
      if Step(s, es[0]).Some? {
        var t := Step(s, es[0]).value;
        StepKeepsInv(s, es[0]);
        StepExtendsLog(s, es[0]);
        if es[0].Commit? {
          CommitOmitsEnded(s, es[0].session, run);
          assert run !in t.log[|s.log|].runs;
        }
        EndedRunIsFinal(t, es[1..], run);
        AfterKeepsLog(t, es[1..]);
      } else {
        EndedRunIsFinal(s, es[1..], run);
      }
    }
  }

  lemma {:induction false} AfterKeepsLog(s: State, es: seq<Event>)
    requires Inv(s)
    ensures |After(s, es).log| >= |s.log| && After(s, es).log[..|s.log|] == s.log
    decreases |es|
  {
    if es != [] {
      if Step(s, es[0]).Some? {
        var t := Step(s, es[0]).value;
        StepKeepsInv(s, es[0]);
        StepExtendsLog(s, es[0]);
        AfterKeepsLog(t, es[1..]);
        assert After(s, es).log[..|s.log|] == After(t, es[1..]).log[..|t.log|][..|s.log|];
      } else {
        AfterKeepsLog(s, es[1..]);
      }
    }
  }

  /** A recovered run: from the reaper's commit on, its row stays failed and nothing is published under it. */
  lemma RecoveryIsFinal(before: seq<Event>, later: seq<Event>, run: RunId)
    requires run in After(EMPTY, before).recovered
    ensures var s, t := After(EMPTY, before), After(After(EMPTY, before), later);
            && run in s.runs && run in t.runs && t.runs[run] == s.runs[run] && t.runs[run].status == Failed
            && |t.log| >= |s.log| && NotPublished(t.log, |s.log|, run)
  {
    EmptyInv();
    AfterKeepsInv(EMPTY, before);
    EndedRunIsFinal(After(EMPTY, before), later, run);
  }

  /**
   What a session whose lease is revoked still needs to publish: its commit has begun, and if it is still inside its
   before_commit fence, every run left to fence is running under its owner. The fence reads the lease only once, at
   its start.
   */
  ghost predicate MayPublish(s: State, sid: SessionId)
    requires sid in s.sessions
  {
    var w := s.sessions[sid];
    && w.committing
    && (w.phase == Fencing(false) ==> forall run :: run in w.tracked.Keys - w.fenced ==> Owned(w, Visible(s, w, run)))
  }

  ghost predicate Rejected(s: State, sid: SessionId) {
    sid in s.sessions && s.sessions[sid].lease in s.revoked && !MayPublish(s, sid)
  }

  /** A stored run that the fence has not reached and will refuse. */
  ghost predicate Blocks(s: State, w: Session, run: RunId) {
    && w.phase == Fencing(false) && run in w.tracked && run !in w.fenced && run !in w.writes
    && run in s.runs && (s.runs[run].status != Running || s.runs[run].owner != w.owner)
  }

  lemma RefusedRunBlocks(s: State, sid: SessionId, run: RunId)
    requires Inv(s) && sid in s.sessions && s.sessions[sid].phase == Fencing(false) && run in s.sessions[sid].tracked
    requires run !in s.sessions[sid].fenced && !Owned(s.sessions[sid], Visible(s, s.sessions[sid], run))
    ensures Blocks(s, s.sessions[sid], run)
  {
    assert SessionInv(s, sid, s.sessions[sid]);
  }

  lemma OwnStepKeepsBlocked(s: State, e: Event, run: RunId)
    requires SessionEvent(e) && e.session in s.sessions && SessionStep(s, e).Some?
             && Blocks(s, s.sessions[e.session], run)
    ensures var t := SessionStep(s, e).value;
            var w := t.sessions[e.session];
            w.committing ==> t.runs == s.runs && Blocks(t, w, run)
  {
  }

  /** A run that the fence will refuse is refused for good. */
  lemma StepKeepsBlocked(s: State, e: Event, sid: SessionId, run: RunId)
    requires Inv(s) && Step(s, e).Some? && sid in s.sessions && Blocks(s, s.sessions[sid], run)
    ensures sid in Step(s, e).value.sessions
    ensures Step(s, e).value.sessions[sid].committing ==> Blocks(Step(s, e).value, Step(s, e).value.sessions[sid], run)
  {
    StepFrame(s, e, sid);
    if SessionEvent(e) && e.session == sid {
      OwnStepKeepsBlocked(s, e, run);
    } else {
      StepKeepsInv(s, e);
      StepKeepsOwners(s, e);
    }
  }

  lemma StepKeepsRejected(s: State, e: Event, sid: SessionId)
    requires Inv(s) && Rejected(s, sid) && Step(s, e).Some?
    ensures Rejected(Step(s, e).value, sid)
    ensures e.Commit? ==> e.session != sid
  {
    StepFrame(s, e, sid);
    var w := s.sessions[sid];
    if w.committing {
      var run :| run in w.tracked.Keys - w.fenced && !Owned(w, Visible(s, w, run));
      RefusedRunBlocks(s, sid, run);
      StepKeepsBlocked(s, e, sid, run);
      var t := Step(s, e).value;
      assert Blocks(t, t.sessions[sid], run) ==>
               run in t.sessions[sid].tracked.Keys - t.sessions[sid].fenced
                   && !Owned(t.sessions[sid], Visible(t, t.sessions[sid], run));
    }
  }

  /** Revocation is permanent: a session of the lease that may not publish at the revocation never publishes again. */
  lemma {:induction false} RejectedForever(s: State, es: seq<Event>, sid: SessionId)
    requires Inv(s) && Rejected(s, sid)
    ensures Rejected(After(s, es), sid)
    ensures |After(s, es).log| >= |s.log| && SilentSession(After(s, es).log, |s.log|, sid)
    decreases |es|
  {
    if es != [] {
      if Step(s, es[0]).Some? {
        var t := Step(s, es[0]).value;
        StepKeepsInv(s, es[0]);
        StepExtendsLog(s, es[0]);
        StepKeepsRejected(s, es[0], sid);
        RejectedForever(t, es[1..], sid);
        AfterKeepsLog(t, es[1..]);
        SilenceExtends(After(t, es[1..]).log, s.log, t.log, sid);
      } else {
        RejectedForever(s, es[1..], sid);
      }
    }
  }

  lemma SilenceExtends(log: seq<Publication>, before: seq<Publication>, after: seq<Publication>, sid: SessionId)
    requires |before| <= |after| <= |log| && log[..|after|] == after
    requires SilentSession(after, |before|, sid) && SilentSession(log, |after|, sid)
    ensures SilentSession(log, |before|, sid)
  {
    forall i | |before| <= i < |log| ensures log[i].session != sid {
      assert i < |after| ==> log[i] == after[i];
    }
  }

  /** `es` leads to a publication by `sid`. */
  ghost predicate LeadsToPublication(s: State, es: seq<Event>, sid: SessionId) {
    exists i :: |s.log| <= i < |After(s, es).log| && After(s, es).log[i].session == sid
  }

  lemma PublishesAfter(s: State, e: Event, es: seq<Event>, sid: SessionId)
    requires Step(s, e).Some? && |s.log| <= |Step(s, e).value.log| && LeadsToPublication(Step(s, e).value, es, sid)
    ensures LeadsToPublication(s, [e] + es, sid)
  {
    var t := Step(s, e).value;
    AfterCons(s, e, es);
    var i :| |t.log| <= i < |After(t, es).log| && After(t, es).log[i].session == sid;
    assert After(s, [e] + es).log[i].session == sid;
  }

  /** Past its fences, a committing session publishes. */
  lemma FencedSessionPublishes(s: State, sid: SessionId) returns (es: seq<Event>)
    requires Inv(s) && sid in s.sessions && s.sessions[sid].committing
    requires s.sessions[sid].tracked.Keys <= s.sessions[sid].fenced
    ensures LeadsToPublication(s, es, sid)
    decreases match s.sessions[sid].phase case Idle => 0 case Writing => 1 case Fencing(_) => 2
  {
    var phase := s.sessions[sid].phase;
    var e := if phase == Idle then Commit(sid) else if phase == Writing then EndFlush(sid) else FenceDone(sid);
    var t := Step(s, e).value;
    StepKeepsInv(s, e);
    if phase == Idle {
      es := [e];
      AfterCons(s, e, []);
      assert es == [e] + [] && After(t, []) == t;
      assert After(s, es).log[|s.log|].session == sid;
    } else {
      var rest := FencedSessionPublishes(t, sid);
      es := [e] + rest;
      PublishesAfter(s, e, rest, sid);
    }
  }

  /** Whoever holds the lock of a run can let it go, which changes neither the run table nor the session. */
  lemma LockCanBeReleased(s: State, sid: SessionId, run: RunId) returns (e: Event)
    requires Inv(s) && sid in s.sessions && !FreeFor(s, run, Worker(sid))
    ensures Step(s, e).Some?
    ensures var t := Step(s, e).value;
            && t.runs == s.runs && t.log == s.log && t.revoked == s.revoked
            && sid in t.sessions && t.sessions[sid] == s.sessions[sid] && FreeFor(t, run, Worker(sid))
  {
    e := match s.locks[run] case Worker(other) => Rollback(other) case Reaper(reaper) => ReaperRollback(reaper);
  }

  lemma FenceOneMore(s: State, sid: SessionId, run: RunId)
    requires Inv(s) && sid in s.sessions && s.sessions[sid].phase == Fencing(false) && MayPublish(s, sid)
    requires run in s.sessions[sid].tracked && run !in s.sessions[sid].fenced && FreeFor(s, run, Worker(sid))
    ensures var w, t := s.sessions[sid], Step(s, FenceRun(sid, run, 0)).value;
            && Step(s, FenceRun(sid, run, 0)).Some? && t.log == s.log && sid in t.sessions && MayPublish(t, sid)
            && t.sessions[sid].phase == Fencing(false) && t.sessions[sid].tracked == w.tracked
            && t.sessions[sid].fenced == w.fenced + {run}
  {
    var t := Step(s, FenceRun(sid, run, 0)).value;
    forall r | r in t.sessions[sid].tracked.Keys - t.sessions[sid].fenced
      ensures Owned(t.sessions[sid], Visible(t, t.sessions[sid], r))
    {
      assert Visible(t, t.sessions[sid], r) == Visible(s, s.sessions[sid], r);
    }
  }

  /**
   Inside its fence, a session that may publish can: other lock holders may roll back, its own runs pass the check.
   */
  lemma FencingSessionPublishes(s: State, sid: SessionId) returns (es: seq<Event>)
    requires Inv(s) && sid in s.sessions && s.sessions[sid].phase == Fencing(false) && MayPublish(s, sid)
    ensures LeadsToPublication(s, es, sid)
    decreases s.sessions[sid].tracked.Keys - s.sessions[sid].fenced
  {
    var w := s.sessions[sid];
    var left := w.tracked.Keys - w.fenced;
    if left == {} {
      assert forall run :: run in w.tracked.Keys && run !in w.fenced ==> run in left;
      es := FencedSessionPublishes(s, sid);
    } else {
      var run := SomeMember(left);
      if FreeFor(s, run, Worker(sid)) {
        es := FreeRunPublishes(s, sid, run);
      } else {
        var e := LockCanBeReleased(s, sid, run);
        var t := Step(s, e).value;
        StepKeepsInv(s, e);
        assert forall r :: Visible(t, w, r) == Visible(s, w, r);
        var rest := FreeRunPublishes(t, sid, run);
        es := [e] + rest;
        PublishesAfter(s, e, rest, sid);
      }
    }
  }

  lemma FreeRunPublishes(s: State, sid: SessionId, run: RunId) returns (es: seq<Event>)
    requires Inv(s) && sid in s.sessions && s.sessions[sid].phase == Fencing(false) && MayPublish(s, sid)
    requires run in s.sessions[sid].tracked && run !in s.sessions[sid].fenced && FreeFor(s, run, Worker(sid))
    ensures LeadsToPublication(s, es, sid)
    decreases s.sessions[sid].tracked.Keys - s.sessions[sid].fenced, 0
  {
    var e := FenceRun(sid, run, 0);
    FenceOneMore(s, sid, run);
    StepKeepsInv(s, e);
    var t, w := Step(s, e).value, s.sessions[sid];
    assert run in w.tracked.Keys - w.fenced;
    assert t.sessions[sid].tracked.Keys - t.sessions[sid].fenced == w.tracked.Keys - w.fenced - {run};
    var rest := FencingSessionPublishes(t, sid);
    es := [e] + rest;
    PublishesAfter(s, e, rest, sid);
  }

  /**
   The exception is exact, in every phase: a session of a revoked lease can still publish if and only if its commit has
   begun and, inside the before_commit fence, every run left to fence is running under its owner.
   */
  lemma RevokedSessionPublishesIff(s: State, sid: SessionId)
    requires Inv(s) && sid in s.sessions && s.sessions[sid].lease in s.revoked
    ensures (exists es :: LeadsToPublication(s, es, sid)) <==> MayPublish(s, sid)
  {
    if !MayPublish(s, sid) {
      forall es ensures !LeadsToPublication(s, es, sid) {
        RejectedForever(s, es, sid);
      }
    } else if s.sessions[sid].phase == Fencing(false) {
      var es := FencingSessionPublishes(s, sid);
    } else {
      assert SessionInv(s, sid, s.sessions[sid]);
      var es := FencedSessionPublishes(s, sid);
    }
  }

  // ----- a standing lease -----

  /** A stored run outside the fence that has ended or belongs to another owner: the fence will refuse it. */
  ghost predicate DoomedBy(s: State, w: Session, run: RunId) {
    && run in w.tracked && run !in w.fenced && run !in w.writes
    && run in s.runs && (s.runs[run].status != Running || s.runs[run].owner != w.owner)
  }

  lemma OwnStepKeepsDoomed(s: State, e: Event, run: RunId)
    requires Inv(s) && SessionEvent(e) && e.session in s.sessions && SessionStep(s, e).Some?
             && DoomedBy(s, s.sessions[e.session], run)
    ensures !e.Commit?
    ensures var t := SessionStep(s, e).value; DoomedBy(t, t.sessions[e.session], run)
  {
    var w := s.sessions[e.session];
    assert SessionInv(s, e.session, w);
    if !e.Commit? {
      OnlyCommitsStore(s, e);
    }
  }

  lemma StepKeepsDoomed(s: State, e: Event, sid: SessionId, run: RunId)
    requires Inv(s) && Step(s, e).Some? && sid in s.sessions && DoomedBy(s, s.sessions[sid], run)
    ensures sid in Step(s, e).value.sessions && DoomedBy(Step(s, e).value, Step(s, e).value.sessions[sid], run)
    ensures e.Commit? ==> e.session != sid
  {
    StepFrame(s, e, sid);
    if SessionEvent(e) && e.session == sid {
      OwnStepKeepsDoomed(s, e, run);
    } else {
      StepKeepsInv(s, e);
      StepKeepsOwners(s, e);
    }
  }

  lemma {:induction false} DoomedIsSilent(s: State, es: seq<Event>, sid: SessionId, run: RunId)
    requires Inv(s) && sid in s.sessions && DoomedBy(s, s.sessions[sid], run)
    ensures |After(s, es).log| >= |s.log| && SilentSession(After(s, es).log, |s.log|, sid)
    decreases |es|
  {
    if es != [] {
      if Step(s, es[0]).Some? {
        var t := Step(s, es[0]).value;
        StepKeepsInv(s, es[0]);
        StepExtendsLog(s, es[0]);
        StepKeepsDoomed(s, es[0], sid, run);
        DoomedIsSilent(t, es[1..], sid, run);
        AfterKeepsLog(t, es[1..]);
        SilenceExtends(After(t, es[1..]).log, s.log, t.log, sid);
      } else {
        DoomedIsSilent(s, es[1..], sid, run);
      }
    }
  }

  /** Rolled back and with its commit begun, a session that tracks only its own running runs is ready to publish. */
  lemma RestartedMayPublish(s: State, sid: SessionId)
    requires Inv(s) && sid in s.sessions && s.sessions[sid].lease !in s.revoked
    requires var w := s.sessions[sid];
             forall run :: run in w.tracked && run !in w.fenced ==>
               run in s.runs && s.runs[run].status == Running && s.runs[run].owner == w.owner
    ensures var t := RollbackStep(s, sid);
            && Step(s, Rollback(sid)) == Some(t) && Step(t, BeginCommit(sid)).Some?
            && var u := Step(t, BeginCommit(sid)).value;
               && t.log == s.log && u.log == s.log && sid in u.sessions
               && u.sessions[sid].phase == Fencing(false) && MayPublish(u, sid)
  {
    var w, t := s.sessions[sid], RollbackStep(s, sid);
    assert SessionInv(s, sid, w);
    var u := Step(t, BeginCommit(sid)).value;
    forall run | run in u.sessions[sid].tracked ensures Owned(u.sessions[sid], Visible(u, u.sessions[sid], run)) {
      assert run in w.tracked && run !in w.inserted;
    }
  }

  lemma StandingSessionPublishes(s: State, sid: SessionId) returns (es: seq<Event>)
    requires Inv(s) && sid in s.sessions && s.sessions[sid].lease !in s.revoked
    requires var w := s.sessions[sid];
             forall run :: run in w.tracked && run !in w.fenced ==>
               run in s.runs && s.runs[run].status == Running && s.runs[run].owner == w.owner
    ensures LeadsToPublication(s, es, sid)
  {
    RestartedMayPublish(s, sid);
    var t := RollbackStep(s, sid);
    StepKeepsInv(s, Rollback(sid));
    var u := Step(t, BeginCommit(sid)).value;
    StepKeepsInv(t, BeginCommit(sid));
    var rest := FencingSessionPublishes(u, sid);
    PublishesAfter(t, BeginCommit(sid), rest, sid);
    PublishesAfter(s, Rollback(sid), [BeginCommit(sid)] + rest, sid);
    es := [Rollback(sid)] + ([BeginCommit(sid)] + rest);
  }

  /**
   While its lease stands, a session can still publish, whatever it is doing, if and only if every run it tracks outside
   its fence is stored, running and its own.
   */
  lemma StandingSessionPublishesIff(s: State, sid: SessionId)
    requires Inv(s) && sid in s.sessions && s.sessions[sid].lease !in s.revoked
    ensures (exists es :: LeadsToPublication(s, es, sid)) <==>
              var w := s.sessions[sid];
              forall run :: run in w.tracked && run !in w.fenced ==>
                run in s.runs && s.runs[run].status == Running && s.runs[run].owner == w.owner
  {
    var w := s.sessions[sid];
    assert SessionInv(s, sid, w);
    if run :| run in w.tracked && run !in w.fenced
              && !(run in s.runs && s.runs[run].status == Running && s.runs[run].owner == w.owner)
    {
      assert DoomedBy(s, w, run);
      forall es ensures !LeadsToPublication(s, es, sid) {
        DoomedIsSilent(s, es, sid, run);
      }
    } else {
      var es := StandingSessionPublishes(s, sid);
    }
  }

  // ----- what a session remembers -----

  /** A fenced run that is not remembered as ended is running. */
  ghost predicate RemembersEnds(s: State, w: Session) {
    forall run :: run in w.tracked && run in w.fenced && w.tracked[run] in {Unknown, Known(Running)} ==>
      Visible(s, w, run).Some? && Visible(s, w, run).value.status == Running
  }

  ghost predicate AllRememberEnds(s: State) {
    forall sid :: sid in s.sessions ==> RemembersEnds(s, s.sessions[sid])
  }

  lemma LocalStepRemembers(s: State, w: Session, e: Event)
    requires TrackInv(s, w) && LocalEvent(e) && LocalStep(s, w, e).Some? && RemembersEnds(s, w)
    ensures RemembersEnds(s, LocalStep(s, w, e).value)
  {
    var w' := LocalStep(s, w, e).value;
    forall run | run in w'.tracked && run in w'.fenced && w'.tracked[run] in {Unknown, Known(Running)}
      ensures Visible(s, w', run).Some? && Visible(s, w', run).value.status == Running
    {
      assert (e.WriteStatus? && e.run == run) || Visible(s, w', run) == Visible(s, w, run);
    }
  }

  lemma FenceRemembers(s: State, sid: SessionId, run: RunId, now: int)
    requires sid in s.sessions && TrackInv(s, s.sessions[sid]) && RemembersEnds(s, s.sessions[sid])
    ensures var t := FenceStep(s, sid, run, now); RemembersEnds(t, t.sessions[sid])
  {
    var t, w := FenceStep(s, sid, run, now), s.sessions[sid];
    forall r | r in w.tracked && r != run ensures Visible(t, t.sessions[sid], r) == Visible(s, w, r) {
    }
  }

  lemma OwnStepRemembers(s: State, e: Event)
    requires Inv(s) && SessionEvent(e) && e.session in s.sessions && SessionStep(s, e).Some?
    requires RemembersEnds(s, s.sessions[e.session])
    ensures RemembersEnds(SessionStep(s, e).value, SessionStep(s, e).value.sessions[e.session])
  {
    var w, t := s.sessions[e.session], SessionStep(s, e).value;
    assert SessionInv(s, e.session, w);
    if LocalEvent(e) {
      LocalStepRemembers(s, w, e);
      assert forall run, v :: Visible(t, v, run) == Visible(s, v, run);
    } else if e.FenceRun? {
      FenceRemembers(s, e.session, e.run, e.now);
    } else if e.InsertRun? {
      assert forall r :: r != e.run ==> Visible(t, t.sessions[e.session], r) == Visible(s, w, r);
    }
  }

  lemma OtherStepRemembers(s: State, e: Event, sid: SessionId)
    requires Inv(s) && Step(s, e).Some? && sid in s.sessions && (SessionEvent(e) ==> e.session != sid)
    requires RemembersEnds(s, s.sessions[sid])
    ensures sid in Step(s, e).value.sessions && RemembersEnds(Step(s, e).value, s.sessions[sid])
  {
    StepFrame(s, e, sid);
    var w, t := s.sessions[sid], Step(s, e).value;
    assert SessionInv(s, sid, w);
    if e.Commit? {
      assert SessionInv(s, e.session, s.sessions[e.session]);
    } else if SessionEvent(e) {
      OnlyCommitsStore(s, e);
    }
    forall run | run in w.tracked && run in w.fenced ensures Visible(t, w, run) == Visible(s, w, run) {
      assert s.locks[run] == Worker(sid);
    }
  }

  lemma StepRemembers(s: State, e: Event)
    requires Inv(s) && AllRememberEnds(s) && Step(s, e).Some?
    ensures AllRememberEnds(Step(s, e).value)
  {
    var t := Step(s, e).value;
    forall sid | sid in t.sessions ensures RemembersEnds(t, t.sessions[sid]) {
      if sid in s.sessions {
        StepFrame(s, e, sid);
        if SessionEvent(e) && e.session == sid {
          OwnStepRemembers(s, e);
        } else {
          OtherStepRemembers(s, e, sid);
        }
      }
    }
  }

  lemma {:induction false} RunRemembers(s: State, es: seq<Event>)
    requires Inv(s) && AllRememberEnds(s)
    ensures AllRememberEnds(After(s, es))
    decreases |es|
  {
    if es != [] {
      if Step(s, es[0]).Some? {
        StepKeepsInv(s, es[0]);
        StepRemembers(s, es[0]);
        RunRemembers(Step(s, es[0]).value, es[1..]);
      } else {
        RunRemembers(s, es[1..]);
      }
    }
  }

  /**
   In every run, a commit drops exactly the runs that it ends: what a session still tracks afterwards is stored, running
   and its own, so its own commit never keeps it from publishing again.
   */
  lemma CommitDropsEndedRuns(es: seq<Event>, sid: SessionId, run: RunId)
    requires Step(After(EMPTY, es), Commit(sid)).Some? && run in After(EMPTY, es).sessions[sid].tracked
    ensures var t := Step(After(EMPTY, es), Commit(sid)).value;
            && sid in t.sessions && run in t.runs && t.runs[run].owner == t.sessions[sid].owner
            && (run in t.sessions[sid].tracked <==> t.runs[run].status == Running)
  {
    EmptyInv();
    AfterKeepsInv(EMPTY, es);
    RunRemembers(EMPTY, es);
    var s := After(EMPTY, es);
    var w := s.sessions[sid];
    assert SessionInv(s, sid, w) && RemembersEnds(s, w);
    assert run in w.fenced;
    assert Visible(s, w, run) == Some(CommitStep(s, sid).runs[run]);
  }

  // ----- what a reaper checked -----

  /** A row that a reaper has updated stays as it is until that reaper commits or rolls back. */
  lemma ReapedRowStays(s: State, e: Event, reaper: ReaperId)
    requires Inv(s) && Step(s, e).Some? && reaper in s.pending && reaper in Step(s, e).value.pending
    ensures var t, run := Step(s, e).value, s.pending[reaper];
            && t.pending[reaper] == run && run in s.runs && run in t.runs && t.runs[run] == s.runs[run]
  {
    if e.Commit? {
      assert SessionInv(s, e.session, s.sessions[e.session]);
    } else if SessionEvent(e) {
      OnlyCommitsStore(s, e);
    }
  }

  /**
   Event `i` is the guarded update: the run is running under the owner the reaper names and, if its orchestrator run is
   missing, has the heartbeat the reaper read. Its row is `row`.
   */
  ghost predicate CheckedAt(es: seq<Event>, i: nat, reaper: ReaperId, run: RunId, row: Run) {
    && i < |es| && es[i].ReaperUpdate? && es[i].reaper == reaper && es[i].run == run
    && row.status == Running && row.owner == es[i].owner && (es[i].missing ==> row.heartbeat == es[i].heartbeat)
    && run in After(EMPTY, es[..i]).runs && After(EMPTY, es[..i]).runs[run] == row
  }

  lemma {:induction false} AfterLast(s: State, es: seq<Event>)
    requires es != []
    ensures var before, e := After(s, es[..|es| - 1]), es[|es| - 1];
            After(s, es) == if Step(before, e).Some? then Step(before, e).value else before
    decreases |es|
  {
    if |es| > 1 {
      assert es[..|es| - 1][1..] == es[1..][..|es| - 2];
      AfterLast(if Step(s, es[0]).Some? then Step(s, es[0]).value else s, es[1..]);
    }
  }

  lemma CheckedEarlier(es: seq<Event>, i: nat, reaper: ReaperId, run: RunId, row: Run)
    requires es != [] && CheckedAt(es[..|es| - 1], i, reaper, run, row)
    ensures CheckedAt(es, i, reaper, run, row)
  {
    assert es[..|es| - 1][..i] == es[..i];
  }

  lemma NewPendingIsChecked(s: State, e: Event, reaper: ReaperId)
    requires Step(s, e).Some? && reaper !in s.pending && reaper in Step(s, e).value.pending
    ensures var t := Step(s, e).value;
            && e.ReaperUpdate? && e.reaper == reaper && e.run == t.pending[reaper] && t.runs == s.runs
            && e.run in s.runs && s.runs[e.run].status == Running && s.runs[e.run].owner == e.owner
            && (e.missing ==> s.runs[e.run].heartbeat == e.heartbeat)
  {
  }

  lemma {:induction false} PendingWasChecked(es: seq<Event>, reaper: ReaperId) returns (i: nat)
    requires reaper in After(EMPTY, es).pending
    ensures var s := After(EMPTY, es);
            var run := s.pending[reaper];
            run in s.runs && CheckedAt(es, i, reaper, run, s.runs[run])
  {
    if es == [] {
      assert false;
    } else {
      var front, e := es[..|es| - 1], es[|es| - 1];
      var s := After(EMPTY, front);
      EmptyInv();
      AfterKeepsInv(EMPTY, front);
      AfterLast(EMPTY, es);
      if reaper in s.pending {
        i := PendingWasChecked(front, reaper);
        if Step(s, e).Some? {
          ReapedRowStays(s, e, reaper);
        }
        CheckedEarlier(es, i, reaper, s.pending[reaper], s.runs[s.pending[reaper]]);
      } else {
        NewPendingIsChecked(s, e, reaper);
        i := |front|;
      }
    }
  }

  /**
   A reaper's commit fails exactly the row it checked: the row is still the one of its guarded update, only its status
   changes, and every other row stays.
   */
  lemma ReaperFailsWhatItChecked(es: seq<Event>, reaper: ReaperId) returns (i: nat, run: RunId)
    requires Step(After(EMPTY, es), ReaperCommit(reaper)).Some?
    ensures var s, t := After(EMPTY, es), Step(After(EMPTY, es), ReaperCommit(reaper)).value;
            && run in s.runs && CheckedAt(es, i, reaper, run, s.runs[run])
            && t.runs == s.runs[run := s.runs[run].(status := Failed)]
  {
    i := PendingWasChecked(es, reaper);
    run := After(EMPTY, es).pending[reaper];
  }

  // ----- what a commit publishes -----

  /** The rows the session has staged since its last commit or rollback, in order. */
  ghost function StagedSince(es: seq<Event>, sid: SessionId): seq<int> {
    if es == [] then []
    else
      var front, e := es[..|es| - 1], es[|es| - 1];
      if !SessionEvent(e) || e.session != sid || Step(After(EMPTY, front), e).None? then StagedSince(front, sid)
      else if e.Commit? || e.Rollback? then []
      else StagedSince(front, sid) + if e.Stage? then [e.row] else []
  }

  lemma StepOutbox(s: State, e: Event, sid: SessionId)
    requires Step(s, e).Some? && SessionEvent(e) && e.session == sid
    ensures var t := Step(s, e).value;
            && sid in s.sessions && sid in t.sessions
            && t.sessions[sid].outbox == if e.Commit? || e.Rollback? then []
                                         else s.sessions[sid].outbox + if e.Stage? then [e.row] else []
  {
  }

  lemma {:induction false} OutboxIsStaged(es: seq<Event>, sid: SessionId)
    ensures var s := After(EMPTY, es);
            StagedSince(es, sid) == if sid in s.sessions then s.sessions[sid].outbox else []
  {
    if es != [] {
      var front, e := es[..|es| - 1], es[|es| - 1];
      var s := After(EMPTY, front);
      OutboxIsStaged(front, sid);
      AfterLast(EMPTY, es);
      if Step(s, e).Some? {
        if SessionEvent(e) && e.session == sid {
          StepOutbox(s, e, sid);
        } else if sid in s.sessions {
          StepFrame(s, e, sid);
        }
      }
    }
  }

  /**
   In every run, a commit publishes exactly the rows its session has staged since its last commit or rollback, under the
   runs it tracks: nothing rolled back is published and nothing is published twice.
   */
  lemma CommitPublishesStagedRows(es: seq<Event>, sid: SessionId)
    requires Step(After(EMPTY, es), Commit(sid)).Some?
    ensures var s := After(EMPTY, es);
            Step(s, Commit(sid)).value.log
            == s.log + [Publication(sid, s.sessions[sid].tracked.Keys, StagedSince(es, sid))]
  {
    EmptyInv();
    AfterKeepsInv(EMPTY, es);
    OutboxIsStaged(es, sid);
    StepExtendsLog(After(EMPTY, es), Commit(sid));
  }

  /** A session stops tracking a run only when the run has ended, or was its own insert and is rolled back. */
  lemma NeverForgetsRunningRun(s: State, e: Event, sid: SessionId, run: RunId)
    requires Inv(s) && Step(s, e).Some? && sid in s.sessions && run in s.sessions[sid].tracked
    requires sid in Step(s, e).value.sessions && run !in Step(s, e).value.sessions[sid].tracked
    ensures var t := Step(s, e).value;
            if run in t.runs then t.runs[run].status != Running
                else e == Rollback(sid) && run in s.sessions[sid].inserted
  {
    StepFrame(s, e, sid);
    assert SessionInv(s, sid, s.sessions[sid]);
    assert e == Commit(sid) || e == Rollback(sid);
  }

  lemma AfterCons(s: State, e: Event, es: seq<Event>)
    requires Step(s, e).Some?
    ensures After(s, [e] + es) == After(Step(s, e).value, es)
  {
    assert ([e] + es)[1..] == es;
  }

  lemma {:induction false} AfterSnoc(s: State, es: seq<Event>, e: Event)
    requires Step(After(s, es), e).Some?
    ensures After(s, es + [e]) == Step(After(s, es), e).value
    decreases |es|
  {
    if es == [] {
      assert es + [e] == [e] + [];
      AfterCons(s, e, []);
    } else {
      assert (es + [e])[1..] == es[1..] + [e];
      AfterSnoc(if Step(s, es[0]).Some? then Step(s, es[0]).value else s, es[1..], e);
    }
  }

  ghost predicate Reachable(s: State) {
    exists es :: After(EMPTY, es) == s
  }

  lemma ReachesNext(s: State, e: Event, t: State)
    requires Reachable(s) && Step(s, e) == Some(t)
    ensures Reachable(t)
  {
    var es :| After(EMPTY, es) == s;
    AfterSnoc(EMPTY, es, e);
  }

  /** A new session of lease 1 and owner 7. */
  const OPENED: Session := Session(7, 1, Idle, false, map[], {}, {}, map[], [])

  const RUN: Run := Run(Running, 7, Some(3))

  /** The session has inserted the running run 5. */
  const INSERTED: Session := Session(7, 1, Idle, false, map[5 := Known(Running)], {5}, {5}, map[5 := RUN], [])

  /** It has committed the run and still tracks it. */
  const STORED: Session := Session(7, 1, Idle, false, map[5 := Known(Running)], {}, {}, map[], [])

  /** Session 2 alone, without and with the lock of run 5. */
  function Alone(w: Session): State {
    EMPTY.(sessions := map[2 := w])
  }

  function Locking(w: Session): State {
    Alone(w).(locks := map[5 := Worker(2)])
  }

  /** Run 5 is stored. */
  function Storing(w: Session): State {
    State(map[5 := RUN], map[], map[2 := w], {}, map[], {}, [Publication(2, {5}, [])])
  }

  lemma LocalStepReaches(s: State, w: Session, e: Event, t: State)
    requires Reachable(s) && LocalEvent(e) && e.session in s.sessions
    requires LocalStep(s, s.sessions[e.session], e) == Some(w) && t == s.(sessions := s.sessions[e.session := w])
    ensures Reachable(t)
  {
    ReachesNext(s, e, t);
  }

  lemma WritingIsReachable()
    ensures Reachable(Alone(OPENED.(phase := Writing)))
  {
    var fencing, writing := OPENED.(phase := Fencing(true)), OPENED.(phase := Writing);
    assert After(EMPTY, []) == EMPTY;
    ReachesNext(EMPTY, OpenSession(2, 7, 1), Alone(OPENED));
    LocalStepReaches(Alone(OPENED), fencing, BeginFlush(2), Alone(fencing));
    LocalStepReaches(Alone(fencing), writing, FenceDone(2), Alone(writing));
  }

  lemma InsertIsReachable()
    ensures Reachable(Locking(INSERTED))
  {
    var before, after := OPENED.(phase := Writing), INSERTED.(phase := Writing);
    WritingIsReachable();
    assert before.fenced + {5} == {5};
    assert InsertStep(Alone(before), 2, 5, Running, 3).sessions[2] == after;
    assert InsertStep(Alone(before), 2, 5, Running, 3) == Locking(after);
    ReachesNext(Alone(before), InsertRun(2, 5, Running, 3), Locking(after));
    LocalStepReaches(Locking(after), INSERTED, EndFlush(2), Locking(INSERTED));
  }

  /** The first commit of the run has passed its fence. */
  lemma CommitIsReachable()
    ensures Reachable(Locking(INSERTED.(committing := true)))
  {
    var fencing, idle := INSERTED.(phase := Fencing(false), committing := true), INSERTED.(committing := true);
    InsertIsReachable();
    LocalStepReaches(Locking(INSERTED), fencing, BeginCommit(2), Locking(fencing));
    LocalStepReaches(Locking(fencing), idle, FenceDone(2), Locking(idle));
  }

  lemma CommitStoresRun()
    ensures CommitStep(Locking(INSERTED.(committing := true)), 2) == Storing(STORED)
  {
    var t := CommitStep(Locking(INSERTED.(committing := true)), 2);
    assert t.locks == map[];
    assert t.runs == map[5 := RUN];
    assert StillTracked(INSERTED.tracked) == INSERTED.tracked;
    assert t.sessions == map[2 := STORED];
    assert INSERTED.tracked.Keys == {5};
  }

  /** The run is stored; a second commit begins. */
  lemma SecondCommitIsReachable()
    ensures Reachable(Storing(STORED.(phase := Fencing(false), committing := true)))
  {
    var fencing := STORED.(phase := Fencing(false), committing := true);
    CommitIsReachable();
    CommitStoresRun();
    ReachesNext(Locking(INSERTED.(committing := true)), Commit(2), Storing(STORED));
    LocalStepReaches(Storing(STORED), fencing, BeginCommit(2), Storing(fencing));
  }

  /** The exception occurs: the lease is revoked while session 2 is inside its fence and has not locked run 5 yet. */
  lemma LateCommitInsideFenceIsReachable()
    ensures exists s :: Reachable(s) && 2 in s.sessions && s.sessions[2].lease in s.revoked && MayPublish(s, 2)
                        && s.sessions[2].phase == Fencing(false)
                            && s.sessions[2].tracked.Keys - s.sessions[2].fenced == {5}
  {
    var w := STORED.(phase := Fencing(false), committing := true);
    SecondCommitIsReachable();
    ReachesNext(Storing(w), OwnerFinished(1), Storing(w).(revoked := Storing(w).revoked + {1}));
  }

  /** It also occurs when the session has passed that fence. */
  lemma LateCommitIsReachable()
    ensures exists s :: Reachable(s) && 2 in s.sessions && s.sessions[2].lease in s.revoked && MayPublish(s, 2)
                        && s.sessions[2].phase == Idle && s.sessions[2].tracked.Keys == s.sessions[2].fenced == {5}
  {
    var w := INSERTED.(committing := true);
    CommitIsReachable();
    ReachesNext(Locking(w), OwnerFinished(1), Locking(w).(revoked := Locking(w).revoked + {1}));
  }

  // ----- the hook itself -----

  /** One per op and owner, shared by all sessions the op opens. */
  class OwnerLease {
    var revoked: bool

    constructor ()
      ensures !revoked
    {
      revoked := false;
    }
  }

  /** The run table as the session's transaction sees it. */
  class RunTable {
    var rows: map<RunId, Run>

    constructor (rows: map<RunId, Run>)
      ensures this.rows == rows
    {
      this.rows := rows;
    }
  }

  predicate OwnedBy(rows: map<RunId, Run>, owner: Owner, run: RunId) {
    run in rows && rows[run].status == Running && rows[run].owner == owner
  }

  /** `after` is the table after a heartbeat on `runs`. */
  ghost predicate Beaten(before: map<RunId, Run>, after: map<RunId, Run>, runs: set<RunId>, now: int) {
    && after.Keys == before.Keys
    && forall run :: run in before ==>
         after[run] == if run in runs then before[run].(heartbeat := Some(now)) else before[run]
  }

  /** What `_fence` has fenced when it ends, and whether it accepted. */
  datatype FenceResult = FenceResult(accepted: bool, fenced: set<RunId>)

  /** The loop of `_fence` over the keys of "collector_runs": it stops at the first run that is not owned. */
  function Fences(rows: map<RunId, Run>, owner: Owner, runs: seq<RunId>, fenced: set<RunId>): FenceResult {
    if runs == [] then FenceResult(true, fenced)
    else if runs[0] in fenced then Fences(rows, owner, runs[1..], fenced)
    else if !OwnedBy(rows, owner, runs[0]) then FenceResult(false, fenced)
    else Fences(rows, owner, runs[1..], fenced + {runs[0]})
  }

  class CollectorSession {
    const owner: Owner
    const lease: OwnerLease
    /** The keys of "collector_runs". */
    var runs: seq<RunId>
    var fenced: set<RunId>

    constructor (owner: Owner, lease: OwnerLease)
      ensures this.owner == owner && this.lease == lease && runs == [] && fenced == {}
    {
      this.owner, this.lease, runs, fenced := owner, lease, [], {};
    }

    /**
     `_fence`: accepted exactly when the lease stands and every unfenced run is running under the owner; then all
     are fenced and get a heartbeat. A rejection revokes the lease and can only have fenced and beaten owned runs.
     */
    method Fence(table: RunTable, now: int) returns (accepted: bool)
      modifies this`fenced, lease, table
      ensures accepted <==>
                !old(lease.revoked) && forall run :: run in runs && run !in old(fenced) ==>
                    OwnedBy(old(table.rows), owner, run)
      ensures lease.revoked == !accepted
      ensures accepted ==> fenced == old(fenced) + set run | run in runs
      ensures old(fenced) <= fenced && forall run :: run in fenced - old(fenced) ==>
              run in runs && OwnedBy(old(table.rows), owner, run)
      ensures Beaten(old(table.rows), table.rows, fenced - old(fenced), now)
      ensures fenced == if old(lease.revoked) then old(fenced)
              else Fences(old(table.rows), owner, runs, old(fenced)).fenced
    {
      assert Beaten(table.rows, table.rows, {}, now);
      if lease.revoked {
        return false;
      }
      for i := 0 to |runs|
        invariant !lease.revoked
        invariant fenced == old(fenced) + set run | run in runs[..i]
        invariant forall run :: run in runs[..i] && run !in old(fenced) ==> OwnedBy(old(table.rows), owner, run)
        invariant Beaten(old(table.rows), table.rows, fenced - old(fenced), now)
        invariant Fences(old(table.rows), owner, runs[i..], fenced) == Fences(old(table.rows), owner, runs, old(fenced))
      {
        var run := runs[i];
        assert runs[..i + 1] == runs[..i] + [run];
        assert runs[i..][0] == run && runs[i..][1..] == runs[i + 1..];
        if run !in fenced {
          if !OwnedBy(table.rows, owner, run) {
            lease.revoked := true;
            return false;
          }
          table.rows := table.rows[run := table.rows[run].(heartbeat := Some(now))];
          fenced := fenced + {run};
        }
      }
      assert runs[..|runs|] == runs;
      return true;
    }
  }

  // ----- the hook as a run of steps -----

  /** The run table as the open transaction of a session sees it. */
  function View(s: State, w: Session): map<RunId, Run> {
    s.runs + w.writes
  }

  function FenceEvents(sid: SessionId, runs: seq<RunId>, now: int): seq<Event> {
    if runs == [] then [FenceDone(sid)] else [FenceRun(sid, runs[0], now)] + FenceEvents(sid, runs[1..], now)
  }

  /** The events of one call of `_fence`, from before_flush or from before_commit. */
  function HookRun(sid: SessionId, flush: bool, runs: seq<RunId>, now: int): seq<Event> {
    [if flush then BeginFlush(sid) else BeginCommit(sid)] + FenceEvents(sid, runs, now)
  }

  lemma {:induction false} IdleSkipsFence(s: State, sid: SessionId, runs: seq<RunId>, now: int)
    requires sid in s.sessions && s.sessions[sid].phase == Idle
    ensures After(s, FenceEvents(sid, runs, now)) == s
  {
    if runs == [] {
      assert After(s, [FenceDone(sid)][1..]) == s;
    } else {
      IdleSkipsFence(s, sid, runs[1..], now);
      assert FenceEvents(sid, runs, now)[1..] == FenceEvents(sid, runs[1..], now);
    }
  }

  /** What a call of the hook that finds the lease standing has done to the state. */
  ghost predicate HookDone(s: State, t: State, sid: SessionId, r: FenceResult, now: int)
    requires sid in s.sessions
  {
    var w := s.sessions[sid];
    && sid in t.sessions && t.runs == s.runs
    && var w' := t.sessions[sid];
       && t.revoked == (if r.accepted then s.revoked else s.revoked + {w.lease})
       && w'.fenced == r.fenced && w'.tracked == w.tracked
       && Beaten(View(s, w), View(t, w'), r.fenced - w.fenced, now)
       && w'.phase == (if r.accepted && w.phase == Fencing(true) then Writing else Idle)
       && w'.committing == (w.committing && r.accepted)
  }

  /** Beating one run first. */
  lemma BeatFirst(
      rows: map<RunId, Run>, after: map<RunId, Run>, run: RunId, fenced: set<RunId>, all: set<RunId>, now: int)
    requires run in rows && run !in fenced && fenced + {run} <= all
    requires Beaten(rows[run := rows[run].(heartbeat := Some(now))], after, all - (fenced + {run}), now)
    ensures Beaten(rows, after, all - fenced, now)
  {
  }

  lemma FencesGrow(rows: map<RunId, Run>, owner: Owner, runs: seq<RunId>, fenced: set<RunId>)
    ensures fenced <= Fences(rows, owner, runs, fenced).fenced
  {
  }

  lemma {:induction false} BeatKeepsFences(rows: map<RunId, Run>, owner: Owner, runs: seq<RunId>, fenced: set<RunId>,
      run: RunId, now: int)
    requires run in rows
    ensures Fences(rows[run := rows[run].(heartbeat := Some(now))], owner, runs, fenced)
            == Fences(rows, owner, runs, fenced)
    decreases |runs|
  {
    if runs != [] {
      BeatKeepsFences(rows, owner, runs[1..], fenced, run, now);
      BeatKeepsFences(rows, owner, runs[1..], fenced + {runs[0]}, run, now);
    }
  }

  /** `t` is `s` after session `sid` has fenced the owned run. */
  ghost predicate FencedOne(s: State, t: State, sid: SessionId, run: RunId, now: int)
    requires sid in s.sessions
  {
    var w := s.sessions[sid];
    && OwnedBy(View(s, w), w.owner, run) && sid in t.sessions
    && t.sessions[sid] == w.(fenced := w.fenced + {run}, writes := t.sessions[sid].writes)
    && View(t, t.sessions[sid]) == View(s, w)[run := View(s, w)[run].(heartbeat := Some(now))]
    && t.runs == s.runs && t.revoked == s.revoked && t.locks == s.locks[run := Worker(sid)]
  }

  lemma FenceOwnedRun(s: State, sid: SessionId, run: RunId, now: int)
    requires sid in s.sessions && OwnedBy(View(s, s.sessions[sid]), s.sessions[sid].owner, run)
    ensures FencedOne(s, FenceStep(s, sid, run, now), sid, run, now)
  {
  }

  lemma FenceRefusedRun(s: State, sid: SessionId, run: RunId, now: int)
    requires sid in s.sessions && !OwnedBy(View(s, s.sessions[sid]), s.sessions[sid].owner, run)
    ensures HookDone(s, FenceStep(s, sid, run, now), sid, FenceResult(false, s.sessions[sid].fenced), now)
  {
    var t, w := FenceStep(s, sid, run, now), s.sessions[sid];
    assert Beaten(View(s, w), View(t, t.sessions[sid]), w.fenced - w.fenced, now);
  }

  lemma FenceEnds(s: State, sid: SessionId, now: int)
    requires sid in s.sessions && s.sessions[sid].phase.Fencing?
             && s.sessions[sid].tracked.Keys <= s.sessions[sid].fenced
    ensures HookDone(s, After(s, [FenceDone(sid)]), sid, FenceResult(true, s.sessions[sid].fenced), now)
  {
    var w, t := s.sessions[sid], Step(s, FenceDone(sid)).value;
    assert After(t, []) == t && [FenceDone(sid)][1..] == [];
    assert Beaten(View(s, w), View(t, t.sessions[sid]), w.fenced - w.fenced, now);
  }

  /** An owned run is fenced first, then the rest. */
  lemma OwnedRunFirst(s: State, t: State, u: State, sid: SessionId, run: RunId, runs: seq<RunId>, now: int)
    requires sid in s.sessions && run !in s.sessions[sid].fenced && FencedOne(s, t, sid, run, now)
    requires HookDone(t, u, sid, Fences(View(t, t.sessions[sid]), s.sessions[sid].owner, runs, t.sessions[sid].fenced),
             now)
    ensures HookDone(s, u, sid,
            Fences(View(s, s.sessions[sid]), s.sessions[sid].owner, runs, s.sessions[sid].fenced + {run}), now)
  {
    var w, rows := s.sessions[sid], View(s, s.sessions[sid]);
    BeatKeepsFences(rows, w.owner, runs, w.fenced + {run}, run, now);
    FencesGrow(rows, w.owner, runs, w.fenced + {run});
    BeatFirst(rows, View(u, u.sessions[sid]), run, w.fenced, Fences(rows, w.owner, runs, w.fenced + {run}).fenced, now);
  }

  /** The loop of the method is the sequence of fence steps: same verdict, same fenced runs, same heartbeats. */
  lemma {:induction false} FenceLoopIsRun(s: State, sid: SessionId, runs: seq<RunId>, now: int)
    requires sid in s.sessions && s.sessions[sid].phase.Fencing?
    requires forall run :: run in runs ==> run in s.sessions[sid].tracked && FreeFor(s, run, Worker(sid))
    requires s.sessions[sid].tracked.Keys <= s.sessions[sid].fenced + set run | run in runs
    ensures var w := s.sessions[sid];
            HookDone(s, After(s, FenceEvents(sid, runs, now)), sid, Fences(View(s, w), w.owner, runs, w.fenced), now)
    decreases |runs|
  {
    var w, es := s.sessions[sid], FenceEvents(sid, runs, now);
    if runs == [] {
      FenceEnds(s, sid, now);
    } else {
      assert es[1..] == FenceEvents(sid, runs[1..], now);
      assert forall run :: run in runs && run != runs[0] ==> run in runs[1..];
      if runs[0] in w.fenced {
        FenceLoopIsRun(s, sid, runs[1..], now);
      } else {
        var t := FenceStep(s, sid, runs[0], now);
        assert Step(s, es[0]) == Some(t);
        if OwnedBy(View(s, w), w.owner, runs[0]) {
          FenceOwnedRun(s, sid, runs[0], now);
          forall run | run in runs[1..] ensures FreeFor(t, run, Worker(sid)) {
            assert FreeFor(s, run, Worker(sid));
          }
          FenceLoopIsRun(t, sid, runs[1..], now);
          OwnedRunFirst(s, t, After(s, es), sid, runs[0], runs[1..], now);
        } else {
          FenceRefusedRun(s, sid, runs[0], now);
          IdleSkipsFence(t, sid, runs[1..], now);
        }
      }
    }
  }

  /**
   One call of the hook whose row locks are free is a run of the state machine with the outcome of
   `CollectorSession.Fence`: the same verdict, fenced runs and heartbeats; a rejection revokes the lease and ends the
   commit.
   */
  lemma FenceIsHookRun(s: State, sid: SessionId, flush: bool, runs: seq<RunId>, now: int)
    requires sid in s.sessions && s.sessions[sid].phase == Idle && (flush || !s.sessions[sid].committing)
    requires s.sessions[sid].tracked.Keys == (set run | run in runs)
    requires forall run :: run in runs ==> FreeFor(s, run, Worker(sid))
    ensures var w, t := s.sessions[sid], After(s, HookRun(sid, flush, runs, now));
            var r := Fences(View(s, w), w.owner, runs, w.fenced);
            && sid in t.sessions
            && var w' := t.sessions[sid];
               var accepted := w.lease !in s.revoked && r.accepted;
               && (w.lease in t.revoked <==> !accepted)
               && w'.fenced == (if w.lease in s.revoked then w.fenced else r.fenced)
               && Beaten(View(s, w), View(t, w'), w'.fenced - w.fenced, now)
               && w'.phase == (if accepted && flush then Writing else Idle)
               && w'.committing == (accepted && (flush ==> w.committing))
  {
    var w, e := s.sessions[sid], if flush then BeginFlush(sid) else BeginCommit(sid);
    var begun := Step(s, e).value;
    AfterCons(s, e, FenceEvents(sid, runs, now));
    if w.lease in s.revoked {
      IdleSkipsFence(begun, sid, runs, now);
      assert Beaten(View(s, w), View(begun, begun.sessions[sid]), w.fenced - w.fenced, now);
    } else {
      FenceLoopIsRun(begun, sid, runs, now);
    }
  }
}
