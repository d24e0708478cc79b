/**
 Every command of the process at once: tasks waiting for a pool's one connection, BEGIN IMMEDIATE taking
 the database's one write lock, statements that may fail, readers in between.

 A task is a `WithTransaction` call on the write pool, a transaction of the queue on its own pool, or a
 statement on its own, which is a transaction around that one statement. The guard decides at the call; past
 it, every call of the closure goes where the bindings of its env and its context take it.
 A label is one atomic step; a run is a sequence of labels, each enabled where it is taken.
 */
module Scheduler {
  import opened Wrappers
  import opened Database
  import opened Scripts
  import opened TxScope

  datatype Phase =
    | Waiting
    | Connected
    | Open(run: Config, choices: seq<bool>)
    | Stuck(run: Config, choices: seq<bool>, waitsFor: PoolName)
    | Finished(answer: Answer)
    | Dropped
    | TurnedAway

  datatype Task = Task(pool: PoolName, app: App, ctx: Ctx, script: Script, phase: Phase)

  /** One commit: whose, which closure, which of its statements failed, and what it answered. */
  datatype Entry = Entry(tid: nat, script: Script, choices: seq<bool>, answer: Answer)

  datatype Snapshot = Snapshot(at: nat, seen: Db)

  /** `inner` is the task that holds the queue's connection from inside a transaction on another pool.
      `log`, `lost` and `snapshots` are history: no step looks at them. */
  datatype Sys = Sys(
    db: Db,
    lock: Option<nat>,
    conn: map<PoolName, nat>,
    inner: Option<nat>,
    tasks: map<nat, Task>,
    metrics: multiset<Counter>,
    log: seq<Entry>,
    lost: multiset<Counter>,
    snapshots: seq<Snapshot>)

  datatype Label =
    | Spawn(tid: nat, pool: PoolName, app: App, ctx: Ctx, script: Script)
    | TakeConn(tid: nat)
    | Begin(tid: nat)
    | GiveUp(tid: nat)
    | Run(tid: nat, fault: bool)
    | Block(tid: nat)
    | Borrow(tid: nat)
    | Expire(tid: nat)
    | Commit(tid: nat)
    | CommitFails(tid: nat)
    | Rollback(tid: nat)
    | Abort(tid: nat)
    | Read

  predicate HoldsConn(p: Phase) { p.Connected? || HoldsLock(p) }

  predicate HoldsLock(p: Phase) { p.Open? || p.Stuck? }

  predicate Unfinished(p: Phase) { p.Waiting? || HoldsConn(p) }

  function ScopeOf(s: Sys, t: nat): Scope
    requires t in s.tasks
  {
    Scope(s.tasks[t].app, s.tasks[t].ctx, t)
  }

  predicate Free(s: Sys, pool: PoolName) { pool !in s.conn && (pool.QueuePool? ==> s.inner.None?) }

  /** The task is inside its transaction and its next call waits for what the transaction holds. */
  predicate Blocks(s: Sys, t: nat) {
    t in s.tasks && s.tasks[t].phase.Open? && TargetOf(ScopeOf(s, t), s.tasks[t].phase.run.rest).Waits?
  }

  predicate Running(phase: Phase) { phase.Open? && !Final(phase.run.rest) }

  predicate Returning(phase: Phase) { phase.Open? && phase.run.rest.Return? }

  predicate Raising(phase: Phase) { phase.Open? && phase.run.rest.Raise? }

  predicate Enabled(s: Sys, l: Label) {
    match l
    case Spawn(t, _, app, _, _) => t !in s.tasks && Built(app)
    case Read => true
    case _ =>
      l.tid in s.tasks &&
      var task := s.tasks[l.tid];
      var phase := task.phase;
      match l
      case TakeConn(_) => phase.Waiting? && Free(s, task.pool)
      case Begin(_) => phase.Connected? && s.lock.None?
      case GiveUp(_) => phase.Waiting? || phase.Connected?
      case Run(t, _) => Running(phase) && !Blocks(s, t)
      case Block(t) => Blocks(s, t)
      case Borrow(_) => phase.Stuck? && phase.waitsFor.QueuePool? && Free(s, QueuePool)
      case Expire(_) => phase.Stuck?
      case Commit(_) => Returning(phase)
      case CommitFails(_) => Returning(phase)
      case Rollback(_) => Raising(phase)
      case Abort(_) => HoldsLock(phase)
      case _ => false
  }

  function To(s: Sys, t: nat, phase: Phase): Sys
    requires t in s.tasks
  {
    s.(tasks := s.tasks[t := s.tasks[t].(phase := phase)])
  }

  /** The task leaves the transaction: lock and connections are free again. */
  function Release(s: Sys, t: nat, phase: Phase): Sys
    requires t in s.tasks
  {
    To(s, t, phase).(lock := None, conn := s.conn - {s.tasks[t].pool}, inner := None)
  }

  /** The task's next call, where its bindings and its context take it. */
  function CarryOut(s: Sys, t: nat, fault: bool): Sys
    requires t in s.tasks && HoldsLock(s.tasks[t].phase)
  {
    var p := s.tasks[t].phase;
    To(s, t, Open(Perform(ScopeOf(s, t), p.run, s.db, fault), p.choices + [fault])).(
      metrics := s.metrics + Counted(p.run.rest))
  }

  /**
   Block and Expire are a call that needs what its own transaction holds: it waits, on the queue pool
   perhaps with that pool's connection in hand, until a busy timeout or a deadline of its context fails it.
   Abort is a cancelled transaction, waiting or not, which database/sql rolls back.
   */
  function Do(s: Sys, l: Label): Sys
    requires Enabled(s, l)
  {
    match l
    case Spawn(t, pool, app, ctx, script) =>
      s.(tasks := s.tasks[t := Task(pool, app, ctx, script, if TxEnvFromCtx(app, ctx).Some? then TurnedAway else Waiting)])
    case Read => s.(snapshots := s.snapshots + [Snapshot(|s.log|, s.db)])
    case TakeConn(t) => To(s, t, Connected).(conn := s.conn[s.tasks[t].pool := t])
    case Begin(t) => To(s, t, Open(Start(s.tasks[t].script, s.db), [])).(lock := Some(t))
    case GiveUp(t) =>
      To(s, t, Dropped).(conn := if s.tasks[t].phase.Connected? then s.conn - {s.tasks[t].pool} else s.conn)
    case Run(t, fault) => CarryOut(s, t, fault)
    case Block(t) =>
      var p := s.tasks[t].phase;
      To(s, t, Stuck(p.run, p.choices, TargetOf(ScopeOf(s, t), p.run.rest).pool))
    case Borrow(t) => s.(inner := Some(t))
    case Expire(t) => CarryOut(s, t, true).(inner := None)
    case Commit(t) =>
      var p := s.tasks[t].phase;
      Release(s, t, Finished(p.run.rest.answer)).(
        db := p.run.db,
        log := s.log + [Entry(t, s.tasks[t].script, p.choices, p.run.rest.answer)])
    case CommitFails(t) => Release(s, t, Dropped).(lost := s.lost + s.tasks[t].phase.run.bumps)
    case Rollback(t) => Release(s, t, Dropped).(lost := s.lost + s.tasks[t].phase.run.bumps)
    case Abort(t) => Release(s, t, Dropped).(lost := s.lost + s.tasks[t].phase.run.bumps)
  }

  ghost predicate Init(s: Sys) {
    && Schema(s.db) && s.lock.None? && s.conn == map[] && s.inner.None? && s.tasks == map[]
    && s.metrics == multiset{} && s.log == [] && s.lost == multiset{} && s.snapshots == []
  }

  predicate Possible(s: Sys, ls: seq<Label>)
    decreases |ls|, 1
  {
    ls == [] || (Possible(s, ls[..|ls| - 1]) && Enabled(After(s, ls[..|ls| - 1]), ls[|ls| - 1]))
  }

  function After(s: Sys, ls: seq<Label>): Sys
    decreases |ls|, 0
  {
    if ls == [] then s
    else
      var before := After(s, ls[..|ls| - 1]);
      if Enabled(before, ls[|ls| - 1]) then Do(before, ls[|ls| - 1]) else before
  }

  // ---------------------------------------------------------------- the atomic system

  /** The committed closures applied one at a time, each alone, in the order they committed. */
  function Replay(db: Db, log: seq<Entry>): Db
    decreases |log|
  {
    if log == [] then db
    else Alone(Replay(db, log[..|log| - 1]), log[|log| - 1]).db
  }

  function Alone(db: Db, e: Entry): Config {
    Steps(Start(e.script, db), e.choices)
  }

  /** Each closure, run alone on what the ones before it left, returns the answer it committed with. */
  predicate Serial(db: Db, log: seq<Entry>)
    decreases |log|
  {
    log == [] ||
    (Serial(db, log[..|log| - 1]) &&
     Alone(Replay(db, log[..|log| - 1]), log[|log| - 1]).rest == Return(log[|log| - 1].answer))
  }

  function CommittedBumps(db: Db, log: seq<Entry>): multiset<Counter>
    decreases |log|
  {
    if log == [] then multiset{}
    else CommittedBumps(db, log[..|log| - 1]) + Alone(Replay(db, log[..|log| - 1]), log[|log| - 1]).bumps
  }

  /** What the open transaction, if there is one, has counted so far. */
  function Pending(s: Sys): multiset<Counter> {
    if s.lock.Some? && s.lock.value in s.tasks && HoldsLock(s.tasks[s.lock.value].phase)
    then s.tasks[s.lock.value].phase.run.bumps else multiset{}
  }

  /** Counted by transactions that have not committed: those that ended without one, and the open one. */
  function Uncommitted(s: Sys): multiset<Counter> { s.lost + Pending(s) }

  // ---------------------------------------------------------------- the invariant

  ghost predicate ConnsOwned(conn: map<PoolName, nat>, tasks: map<nat, Task>) {
    && (forall p | p in conn :: conn[p] in tasks && tasks[conn[p]].pool == p && HoldsConn(tasks[conn[p]].phase))
    && (forall t | t in tasks && HoldsConn(tasks[t].phase) :: tasks[t].pool in conn && conn[tasks[t].pool] == t)
  }

  ghost predicate LockOwned(lock: Option<nat>, tasks: map<nat, Task>) {
    && (lock.Some? ==> lock.value in tasks && HoldsLock(tasks[lock.value].phase))
    && (forall t | t in tasks && HoldsLock(tasks[t].phase) :: lock == Some(t))
  }

  /** Past the guard no transaction is in scope but the task's own. */
  ghost predicate Guarded(tasks: map<nat, Task>) {
    forall t | t in tasks && !tasks[t].phase.TurnedAway? :: Outermost(Scope(tasks[t].app, tasks[t].ctx, t))
  }

  /** A task that waits inside its transaction may have the queue's connection in hand. */
  predicate Lent(inner: Option<nat>, conn: map<PoolName, nat>, tasks: map<nat, Task>) {
    inner.Some? ==> inner.value in tasks && tasks[inner.value].phase.Stuck? && QueuePool !in conn
  }

  ghost predicate Owners(conn: map<PoolName, nat>, lock: Option<nat>, inner: Option<nat>, tasks: map<nat, Task>) {
    ConnsOwned(conn, tasks) && LockOwned(lock, tasks) && Guarded(tasks) && Lent(inner, conn, tasks)
  }

  ghost predicate OneOwner(s: Sys) { Owners(s.conn, s.lock, s.inner, s.tasks) }

  /** An open transaction has seen the committed state it began on and its own writes, nothing else. */
  ghost predicate OwnWrites(s: Sys) {
    forall t | t in s.tasks && HoldsLock(s.tasks[t].phase) ::
      s.tasks[t].phase.run == Steps(Start(s.tasks[t].script, s.db), s.tasks[t].phase.choices)
  }

  ghost predicate LogIsTheCommits(s: Sys) {
    && (forall i | 0 <= i < |s.log| ::
          s.log[i].tid in s.tasks &&
          s.tasks[s.log[i].tid].phase == Finished(s.log[i].answer) &&
          s.tasks[s.log[i].tid].script == s.log[i].script)
    && (forall i, j | 0 <= i < j < |s.log| :: s.log[i].tid != s.log[j].tid)
    && (forall t | t in s.tasks && s.tasks[t].phase.Finished? :: exists i | 0 <= i < |s.log| :: s.log[i].tid == t)
  }

  ghost predicate ReadsAreCommitted(db0: Db, s: Sys) {
    forall r | 0 <= r < |s.snapshots| ::
      s.snapshots[r].at <= |s.log| && s.snapshots[r].seen == Replay(db0, s.log[..s.snapshots[r].at])
  }

  ghost predicate SerialHistory(db0: Db, s: Sys) {
    && Serial(db0, s.log) && s.db == Replay(db0, s.log)
    && LogIsTheCommits(s)
    && ReadsAreCommitted(db0, s)
  }

  ghost predicate MetricsAddUp(db0: Db, s: Sys) {
    s.metrics == CommittedBumps(db0, s.log) + Uncommitted(s)
  }

  ghost predicate Inv(db0: Db, s: Sys) {
    OneOwner(s) && OwnWrites(s) && SerialHistory(db0, s) && MetricsAddUp(db0, s)
  }

  lemma InitInv(s: Sys)
    requires Init(s)
    ensures Inv(s.db, s)
  {
  }

  predicate Drops(l: Label) { l.CommitFails? || l.Rollback? || l.Abort? }

  lemma GivingBackKeepsConns(conn: map<PoolName, nat>, tasks: map<nat, Task>, t: nat, phase: Phase)
    requires ConnsOwned(conn, tasks) && t in tasks && HoldsConn(tasks[t].phase) && !HoldsConn(phase)
    ensures ConnsOwned(conn - {tasks[t].pool}, tasks[t := tasks[t].(phase := phase)])
  {
  }

  lemma ReleaseKeepsOwners(s: Sys, t: nat, phase: Phase)
    requires OneOwner(s) && t in s.tasks && HoldsLock(s.tasks[t].phase) && !HoldsConn(phase) && !phase.TurnedAway?
    ensures OneOwner(Release(s, t, phase))
    ensures forall u | u in s.tasks :: !HoldsLock(Release(s, t, phase).tasks[u].phase)
  {
    GivingBackKeepsConns(s.conn, s.tasks, t, phase);
  }

  lemma SpawnKeepsOwners(s: Sys, l: Label)
    requires OneOwner(s) && Enabled(s, l) && l.Spawn?
    ensures OneOwner(Do(s, l))
  {
  }

  lemma TakeConnKeepsOwners(s: Sys, t: nat)
    requires OneOwner(s) && Enabled(s, TakeConn(t))
    ensures OneOwner(Do(s, TakeConn(t)))
  {
  }

  lemma BeginKeepsOwners(s: Sys, t: nat)
    requires OneOwner(s) && Enabled(s, Begin(t))
    ensures OneOwner(Do(s, Begin(t)))
  {
  }

  lemma GiveUpKeepsOwners(s: Sys, t: nat)
    requires OneOwner(s) && Enabled(s, GiveUp(t))
    ensures OneOwner(Do(s, GiveUp(t)))
  {
    if s.tasks[t].phase.Connected? {
      GivingBackKeepsConns(s.conn, s.tasks, t, Dropped);
    }
    var s' := Do(s, GiveUp(t));
    assert s'.tasks == To(s, t, Dropped).tasks && s'.lock == s.lock && s'.inner == s.inner;
  }

  /** A step inside the transaction: the holder stays the holder. */
  lemma StayingInsideKeepsOwners(s: Sys, t: nat, phase: Phase, inner: Option<nat>)
    requires OneOwner(s) && t in s.tasks && HoldsLock(s.tasks[t].phase) && HoldsLock(phase)
    requires inner.None? || (phase.Stuck? && (inner == s.inner || (inner == Some(t) && QueuePool !in s.conn)))
    ensures Owners(s.conn, s.lock, inner, To(s, t, phase).tasks)
  {
    assert s.lock == Some(t);
  }

  lemma InnerStepKeepsOwners(s: Sys, l: Label)
    requires OneOwner(s) && Enabled(s, l) && (l.Run? || l.Block? || l.Borrow? || l.Expire?)
    ensures OneOwner(Do(s, l))
  {
    var t, s' := l.tid, Do(s, l);
    assert s.lock == Some(t) && s'.conn == s.conn && s'.lock == s.lock;
    assert s'.tasks == To(s, t, s'.tasks[t].phase).tasks;
    StayingInsideKeepsOwners(s, t, s'.tasks[t].phase, s'.inner);
  }

  predicate Exits(l: Label) { l.Commit? || Drops(l) }

  lemma ExitKeepsOwners(s: Sys, l: Label)
    requires OneOwner(s) && Enabled(s, l) && Exits(l)
    ensures OneOwner(Do(s, l)) && Do(s, l).lock.None?
    ensures forall u | u in Do(s, l).tasks :: !HoldsLock(Do(s, l).tasks[u].phase)
  {
    ReleaseKeepsOwners(s, l.tid, if l.Commit? then Finished(s.tasks[l.tid].phase.run.rest.answer) else Dropped);
  }

  lemma StepKeepsOwners(s: Sys, l: Label)
    requires OneOwner(s) && Enabled(s, l)
    ensures OneOwner(Do(s, l))
  {
    if Exits(l) {
      ExitKeepsOwners(s, l);
    } else if l.Run? || l.Block? || l.Borrow? || l.Expire? {
      InnerStepKeepsOwners(s, l);
    } else if l.Spawn? {
      SpawnKeepsOwners(s, l);
    } else if l.TakeConn? {
      TakeConnKeepsOwners(s, l.tid);
    } else if l.Begin? {
      BeginKeepsOwners(s, l.tid);
    } else if l.GiveUp? {
      GiveUpKeepsOwners(s, l.tid);
    }
  }

  /** A call carried out where its bindings take it is the closure's own next step. */
  lemma CallsAreSteps(s: Sys, t: nat, fault: bool)
    requires OneOwner(s) && OwnWrites(s) && t in s.tasks && HoldsLock(s.tasks[t].phase)
    ensures var p := s.tasks[t].phase;
            && Perform(ScopeOf(s, t), p.run, s.db, fault) == Advance(p.run, fault)
            && Advance(p.run, fault) == Steps(Start(s.tasks[t].script, s.db), p.choices + [fault])
  {
    var p := s.tasks[t].phase;
    StepsKeepBase(Start(s.tasks[t].script, s.db), p.choices);
    RebindingIsExact(ScopeOf(s, t), p.run, fault);
    assert (p.choices + [fault])[..|p.choices|] == p.choices;
  }

  lemma StepKeepsOwnWrites(s: Sys, l: Label)
    requires OneOwner(s) && OwnWrites(s) && Enabled(s, l)
    ensures OwnWrites(Do(s, l))
  {
    if l.Run? {
      CallsAreSteps(s, l.tid, l.fault);
    } else if l.Expire? {
      CallsAreSteps(s, l.tid, true);
    }
  }

  lemma ReplayExtends(db0: Db, log: seq<Entry>, e: Entry)
    requires Serial(db0, log) && Alone(Replay(db0, log), e).rest == Return(e.answer)
    ensures Serial(db0, log + [e])
    ensures Replay(db0, log + [e]) == Alone(Replay(db0, log), e).db
    ensures CommittedBumps(db0, log + [e]) == CommittedBumps(db0, log) + Alone(Replay(db0, log), e).bumps
    ensures forall k | 0 <= k <= |log| :: (log + [e])[..k] == log[..k]
  {
  }

  lemma FinishedAreLogged(s: Sys, t: nat, e: Entry, u: nat)
    requires LogIsTheCommits(s) && e.tid == t && u in s.tasks && (u == t || s.tasks[u].phase.Finished?)
    ensures exists i | 0 <= i < |s.log + [e]| :: (s.log + [e])[i].tid == u
  {
    if u == t {
      assert (s.log + [e])[|s.log|].tid == u;
    } else {
      var i :| 0 <= i < |s.log| && s.log[i].tid == u;
      assert (s.log + [e])[i].tid == u;
    }
  }

  lemma CommitKeepsLog(s: Sys, t: nat)
    requires OneOwner(s) && LogIsTheCommits(s) && Enabled(s, Commit(t))
    ensures LogIsTheCommits(Do(s, Commit(t)))
  {
    var s' := Do(s, Commit(t));
    forall u | u in s'.tasks && s'.tasks[u].phase.Finished?
      ensures exists i | 0 <= i < |s'.log| :: s'.log[i].tid == u
    {
      FinishedAreLogged(s, t, s'.log[|s.log|], u);
    }
  }

  lemma TaskStaysFinished(s: Sys, l: Label, u: nat)
    requires Enabled(s, l) && !l.Commit?
    ensures u in Do(s, l).tasks && Do(s, l).tasks[u].phase.Finished? ==> u in s.tasks && s.tasks[u] == Do(s, l).tasks[u]
    ensures u in s.tasks ==> u in Do(s, l).tasks && (s.tasks[u].phase.Finished? ==> s.tasks[u] == Do(s, l).tasks[u])
  {
  }

  /** Only a commit moves the committed state: any other step leaves it and the history of commits alone. */
  lemma OnlyCommitsMoveTheState(s: Sys, l: Label)
    requires Enabled(s, l)
    ensures !l.Commit? ==> Do(s, l).db == s.db && Do(s, l).log == s.log
    ensures !l.Commit? ==> forall u | u in Do(s, l).tasks ::
              Do(s, l).tasks[u].phase.Finished? ==> u in s.tasks && s.tasks[u] == Do(s, l).tasks[u]
    ensures !l.Commit? ==> forall u | u in s.tasks ::
              u in Do(s, l).tasks && (s.tasks[u].phase.Finished? ==> s.tasks[u] == Do(s, l).tasks[u])
  {
    if !l.Commit? {
      var s' := Do(s, l);
      forall u | u in s'.tasks ensures s'.tasks[u].phase.Finished? ==> u in s.tasks && s.tasks[u] == s'.tasks[u] {
        TaskStaysFinished(s, l, u);
      }
      forall u | u in s.tasks ensures u in s'.tasks && (s.tasks[u].phase.Finished? ==> s.tasks[u] == s'.tasks[u]) {
        TaskStaysFinished(s, l, u);
      }
    }
  }

  lemma CommitKeepsHistory(db0: Db, s: Sys, t: nat)
    requires OneOwner(s) && OwnWrites(s) && SerialHistory(db0, s) && Enabled(s, Commit(t))
    ensures SerialHistory(db0, Do(s, Commit(t)))
  {
    var p := s.tasks[t].phase;
    assert s.lock == Some(t);
    ReplayExtends(db0, s.log, Entry(t, s.tasks[t].script, p.choices, p.run.rest.answer));
    CommitKeepsLog(s, t);
  }

  lemma ReadKeepsReads(db0: Db, s: Sys, l: Label)
    requires SerialHistory(db0, s) && Enabled(s, l) && !l.Commit?
    ensures ReadsAreCommitted(db0, Do(s, l))
  {
    if l.Read? {
      assert s.log[..|s.log|] == s.log;
    }
  }

  lemma StepKeepsHistory(db0: Db, s: Sys, l: Label)
    requires OneOwner(s) && OwnWrites(s) && SerialHistory(db0, s) && Enabled(s, l)
    ensures SerialHistory(db0, Do(s, l))
  {
    if l.Commit? {
      CommitKeepsHistory(db0, s, l.tid);
    } else {
      OnlyCommitsMoveTheState(s, l);
      KeepsLog(s, Do(s, l));
      ReadKeepsReads(db0, s, l);
    }
  }

  lemma KeepsLog(s: Sys, s': Sys)
    requires LogIsTheCommits(s) && s'.log == s.log
    requires forall u | u in s'.tasks :: s'.tasks[u].phase.Finished? ==> u in s.tasks && s.tasks[u] == s'.tasks[u]
    requires forall u | u in s.tasks :: u in s'.tasks && (s.tasks[u].phase.Finished? ==> s.tasks[u] == s'.tasks[u])
    ensures LogIsTheCommits(s')
  {
  }

  /** Only a transaction that ends without a commit adds to what was counted for nothing. */
  lemma OnlyDropsLose(s: Sys, l: Label)
    requires Enabled(s, l)
    ensures Drops(l) ==> l.tid in s.tasks && HoldsLock(s.tasks[l.tid].phase)
    ensures Do(s, l).lost == s.lost + if Drops(l) then s.tasks[l.tid].phase.run.bumps else multiset{}
  {
  }

  lemma CommitKeepsMetrics(db0: Db, s: Sys, t: nat)
    requires OneOwner(s) && OwnWrites(s) && Serial(db0, s.log) && s.db == Replay(db0, s.log)
    requires MetricsAddUp(db0, s) && Enabled(s, Commit(t))
    ensures MetricsAddUp(db0, Do(s, Commit(t)))
  {
  }

  lemma HolderIsPending(s: Sys, t: nat)
    requires OneOwner(s) && t in s.tasks && HoldsLock(s.tasks[t].phase)
    ensures s.lock == Some(t) && Pending(s) == s.tasks[t].phase.run.bumps
  {
  }

  lemma CallCounts(c: Config, fault: bool)
    ensures Advance(c, fault).bumps == c.bumps + Counted(c.rest)
  {
  }

  lemma CarryingOutCounts(s: Sys, t: nat, fault: bool)
    requires OneOwner(s) && OwnWrites(s) && t in s.tasks && HoldsLock(s.tasks[t].phase)
    ensures Pending(CarryOut(s, t, fault)) == Pending(s) + Counted(s.tasks[t].phase.run.rest)
  {
    CallsAreSteps(s, t, fault);
    CallCounts(s.tasks[t].phase.run, fault);
    HolderIsPending(s, t);
  }

  /** What a step of an open transaction counts is uncommitted until it commits. */
  lemma RunKeepsMetrics(s: Sys, l: Label)
    requires OneOwner(s) && OwnWrites(s) && Enabled(s, l) && (l.Run? || l.Expire?)
    ensures var counted := Counted(s.tasks[l.tid].phase.run.rest);
            Uncommitted(Do(s, l)) == Uncommitted(s) + counted && Do(s, l).metrics == s.metrics + counted
  {
    CarryingOutCounts(s, l.tid, if l.Run? then l.fault else true);
    assert l.Expire? ==> Pending(Do(s, l)) == Pending(CarryOut(s, l.tid, true));
  }

  lemma DropKeepsMetrics(s: Sys, l: Label)
    requires OneOwner(s) && Enabled(s, l) && Drops(l)
    ensures Uncommitted(Do(s, l)) == Uncommitted(s) && Do(s, l).metrics == s.metrics
  {
    HolderIsPending(s, l.tid);
  }

  lemma QueueingKeepsMetrics(s: Sys, l: Label)
    requires OneOwner(s) && Enabled(s, l) && !l.Commit? && !l.Run? && !l.Expire? && !Drops(l)
    ensures Uncommitted(Do(s, l)) == Uncommitted(s) && Do(s, l).metrics == s.metrics
  {
  }

  lemma StepKeepsMetrics(db0: Db, s: Sys, l: Label)
    requires OneOwner(s) && OwnWrites(s) && Serial(db0, s.log) && s.db == Replay(db0, s.log)
    requires MetricsAddUp(db0, s) && Enabled(s, l)
    ensures MetricsAddUp(db0, Do(s, l))
  {
    if l.Commit? {
      CommitKeepsMetrics(db0, s, l.tid);
    } else {
      OnlyCommitsMoveTheState(s, l);
      if l.Run? || l.Expire? {
        RunKeepsMetrics(s, l);
      } else if Drops(l) {
        DropKeepsMetrics(s, l);
      } else {
        QueueingKeepsMetrics(s, l);
      }
    }
  }

  lemma StepKeepsInv(db0: Db, s: Sys, l: Label)
    requires Inv(db0, s) && Enabled(s, l)
    ensures Inv(db0, Do(s, l))
  {
    StepKeepsOwners(s, l);
    StepKeepsOwnWrites(s, l);
    StepKeepsHistory(db0, s, l);
    StepKeepsMetrics(db0, s, l);
  }

  lemma {:induction false} RunsKeepInv(s: Sys, ls: seq<Label>)
    requires Init(s) && Possible(s, ls)
    ensures Inv(s.db, After(s, ls))
    decreases |ls|
  {
    if ls == [] {
      InitInv(s);
    } else {
      RunsKeepInv(s, ls[..|ls| - 1]);
      StepKeepsInv(s.db, After(s, ls[..|ls| - 1]), ls[|ls| - 1]);
    }
  }

  // ---------------------------------------------------------------- what every run keeps

  /** The runs refine the atomic system: the tables are the committed closures, replayed alone in commit order. */
  lemma RunsAreSerial(s: Sys, ls: seq<Label>)
    requires Init(s) && Possible(s, ls)
    ensures var now := After(s, ls);
            && Serial(s.db, now.log)
            && now.db == Replay(s.db, now.log)
            && now.metrics == CommittedBumps(s.db, now.log) + Uncommitted(now)
  {
    RunsKeepInv(s, ls);
  }

  /** The log holds each finished task exactly once and no dropped one: a failed command contributes nothing. */
  lemma OnlyFinishedTasksContribute(s: Sys, ls: seq<Label>, t: nat)
    requires Init(s) && Possible(s, ls) && t in After(s, ls).tasks
    ensures var now := After(s, ls);
            (now.tasks[t].phase.Finished? <==> exists i | 0 <= i < |now.log| :: now.log[i].tid == t) &&
            (forall i, j | 0 <= i < |now.log| && 0 <= j < |now.log| && now.log[i].tid == t && now.log[j].tid == t :: i == j)
  {
    RunsKeepInv(s, ls);
  }

  /** Outside readers see committed states only: each snapshot is what some prefix of the commits left. */
  lemma ReadersSeeCommittedStates(s: Sys, ls: seq<Label>)
    requires Init(s) && Possible(s, ls)
    ensures var now := After(s, ls);
            forall r | 0 <= r < |now.snapshots| ::
              now.snapshots[r].at <= |now.log| &&
              now.snapshots[r].seen == Replay(s.db, now.log[..now.snapshots[r].at])
  {
    RunsKeepInv(s, ls);
  }

  /**
   Own writes, from the rebinding: in any run a statement the closure makes on its env is executed by its own
   transaction, on the committed state and everything the closure wrote before; a read it makes on the outer
   app is executed on the committed state alone.
   */
  lemma EnvStatementsSeeOwnWrites(s: Sys, ls: seq<Label>, t: nat, fault: bool)
    requires Init(s) && Possible(s, ls) && t in After(s, ls).tasks
    requires After(s, ls).tasks[t].phase.Open? && After(s, ls).tasks[t].phase.run.rest.Stmt?
    ensures var now := After(s, ls);
            var p, sc := now.tasks[t].phase, ScopeOf(now, t);
            var call, step := p.run.rest, Perform(sc, p.run, now.db, fault);
            && p.run.db == Steps(Start(now.tasks[t].script, now.db), p.choices).db
            && (call.on.OnEnv? ==>
                  var e := ExecOrFail(p.run.db, call.op, fault);
                  TargetOf(sc, call) == OnTx(t) && step.rest == call.next(e.reply) && step.db == e.db)
            && (call.on.OnOuter? && IsQuery(call.op) ==>
                  var e := ExecOrFail(now.db, call.op, fault);
                  TargetOf(sc, call) == OnCommitted && step.rest == call.next(e.reply) && step.db == p.run.db)
            && (call.on.OnBase? || (call.on.OnOuter? && !IsQuery(call.op)) ==> TargetOf(sc, call) == Waits(WritePool))
  {
    RunsKeepInv(s, ls);
    var now := After(s, ls);
    RebindingIsExact(ScopeOf(now, t), now.tasks[t].phase.run, fault);
  }

  /** Every exit gives the connection and the lock back: they are held exactly by tasks that are still inside. */
  lemma EveryExitReleases(s: Sys, ls: seq<Label>, t: nat)
    requires Init(s) && Possible(s, ls) && t in After(s, ls).tasks
    ensures var now := After(s, ls);
            && (HoldsLock(now.tasks[t].phase) <==> now.lock == Some(t))
            && (HoldsConn(now.tasks[t].phase) <==>
                  now.tasks[t].pool in now.conn && now.conn[now.tasks[t].pool] == t)
  {
    RunsKeepInv(s, ls);
  }

  // ---------------------------------------------------------------- deadlock

  predicate Asked(ctx: Ctx) { ctx.req.Some? }

  /** What is left of every task asks for nothing its own transaction holds. */
  ghost predicate AllDisciplined(s: Sys) {
    forall t | t in s.tasks ::
      var task := s.tasks[t];
      !task.phase.Stuck? && Always(NoEscape(Asked(task.ctx)), task.script) &&
      (task.phase.Open? ==> Always(NoEscape(Asked(task.ctx)), task.phase.run.rest))
  }

  ghost predicate SpawnsDisciplined(ls: seq<Label>) {
    forall i | 0 <= i < |ls| :: ls[i].Spawn? ==> Always(NoEscape(Asked(ls[i].ctx)), ls[i].script)
  }

  lemma StepKeepsDiscipline(s: Sys, l: Label)
    requires OneOwner(s) && OwnWrites(s) && AllDisciplined(s) && Enabled(s, l)
    requires l.Spawn? ==> Always(NoEscape(Asked(l.ctx)), l.script)
    ensures AllDisciplined(Do(s, l))
  {
    if l.Run? || l.Block? {
      DisciplinedCall(s, l.tid, l.Run? && l.fault);
    }
  }

  lemma DisciplinedCall(s: Sys, t: nat, fault: bool)
    requires OneOwner(s) && OwnWrites(s) && AllDisciplined(s) && t in s.tasks && s.tasks[t].phase.Open?
    ensures !Blocks(s, t)
    ensures Always(NoEscape(Asked(s.tasks[t].ctx)), CarryOut(s, t, fault).tasks[t].phase.run.rest)
  {
    var task := s.tasks[t];
    CallsAreSteps(s, t, fault);
    RebindingIsExact(ScopeOf(s, t), task.phase.run, fault);
    RulesAdvance(NoEscape(Asked(task.ctx)), task.phase.run, fault);
  }

  /** The holder of the one write connection never waits for a pool, in any run of disciplined closures. */
  lemma {:induction false} HoldersNeverWait(s: Sys, ls: seq<Label>)
    requires Init(s) && Possible(s, ls) && SpawnsDisciplined(ls)
    ensures AllDisciplined(After(s, ls))
    decreases |ls|
  {
    if ls != [] {
      var before := ls[..|ls| - 1];
      HoldersNeverWait(s, before);
      RunsKeepInv(s, before);
      StepKeepsDiscipline(After(s, before), ls[|ls| - 1]);
    }
  }

  /** A step that brings a task nearer its end and that nothing has to fail or time out for. */
  predicate Forward(l: Label) {
    l.TakeConn? || l.Begin? || (l.Run? && !l.fault) || l.Commit? || l.Rollback?
  }

  /** The lock's holder waits, or is about to wait, for what it holds itself. */
  predicate Jammed(s: Sys) {
    s.lock.Some? && (Blocks(s, s.lock.value) || (s.lock.value in s.tasks && s.tasks[s.lock.value].phase.Stuck?))
  }

  lemma SomeoneCanStep(s: Sys, t: nat) returns (l: Label)
    requires OneOwner(s) && !Jammed(s) && t in s.tasks && Unfinished(s.tasks[t].phase)
    ensures Forward(l) && Enabled(s, l)
  {
    if s.lock.Some? {
      var holder := s.lock.value;
      var rest := s.tasks[holder].phase.run.rest;
      l := if rest.Return? then Commit(holder) else if rest.Raise? then Rollback(holder) else Run(holder, false);
    } else if s.tasks[t].phase.Waiting? && s.tasks[t].pool !in s.conn {
      l := TakeConn(t);
    } else {
      l := Begin(s.conn[s.tasks[t].pool]);
    }
  }

  /** While any task is unfinished some forward step is enabled: disciplined commands never deadlock. */
  lemma NoDeadlock(s: Sys, ls: seq<Label>, t: nat) returns (l: Label)
    requires Init(s) && Possible(s, ls) && SpawnsDisciplined(ls)
    requires t in After(s, ls).tasks && Unfinished(After(s, ls).tasks[t].phase)
    ensures Forward(l) && Enabled(After(s, ls), l)
  {
    var now := After(s, ls);
    RunsKeepInv(s, ls);
    HoldersNeverWait(s, ls);
    if now.lock.Some? {
      var holder := now.lock.value;
      RebindingIsExact(ScopeOf(now, holder), now.tasks[holder].phase.run, false);
      RulesAdvance(NoEscape(Asked(now.tasks[holder].ctx)), now.tasks[holder].phase.run, false);
    }
    l := SomeoneCanStep(now, t);
  }

  // ---------------------------------------------------------------- what an escape does

  /**
   A stuck holder, step by step: nobody begins, runs, commits or rolls back, and only its own timeout or the
   cancellation of its own transaction changes the task or frees the lock. The timeout leaves it open with its
   call failed; the cancellation ends it.
   */
  lemma OnlyItsOwnTimeoutFreesTheLock(s: Sys, l: Label, t: nat)
    requires OneOwner(s) && OwnWrites(s) && Enabled(s, l) && t in s.tasks && s.tasks[t].phase.Stuck?
    ensures !l.Begin? && !l.Run? && !l.Block? && !l.Commit? && !l.CommitFails? && !l.Rollback?
    ensures Do(s, l).db == s.db && Do(s, l).log == s.log
    ensures if l == Abort(t) then Do(s, l).lock.None? && Do(s, l).tasks[t].phase.Dropped?
            else if l == Expire(t) then
              Do(s, l).lock == Some(t) && Do(s, l).tasks[t].phase.Open? &&
              Do(s, l).tasks[t].phase.run == Advance(s.tasks[t].phase.run, true)
            else t in Do(s, l).tasks && Do(s, l).tasks[t] == s.tasks[t] && Do(s, l).lock == Some(t)
  {
    assert s.lock == Some(t);
    CallsAreSteps(s, t, true);
  }

  /** Over any run without that timeout or cancellation the holder stays stuck and no task moves the tables. */
  lemma {:induction false} AnEscapeStopsEveryWriter(s: Sys, more: seq<Label>, t: nat)
    requires OneOwner(s) && OwnWrites(s) && Possible(s, more) && t in s.tasks && s.tasks[t].phase.Stuck?
    requires Abort(t) !in more && Expire(t) !in more
    ensures var later := After(s, more);
            && OneOwner(later) && OwnWrites(later) && t in later.tasks && later.tasks[t] == s.tasks[t] && later.lock == Some(t)
            && later.db == s.db && later.log == s.log
    decreases |more|
  {
    if more != [] {
      var before := After(s, more[..|more| - 1]);
      AnEscapeStopsEveryWriter(s, more[..|more| - 1], t);
      OnlyItsOwnTimeoutFreesTheLock(before, more[|more| - 1], t);
      StepKeepsOwners(before, more[|more| - 1]);
      StepKeepsOwnWrites(before, more[|more| - 1]);
    }
  }

  lemma OneMore(s: Sys, ls: seq<Label>, l: Label)
    requires Possible(s, ls) && Enabled(After(s, ls), l)
    ensures Possible(s, ls + [l]) && After(s, ls + [l]) == Do(After(s, ls), l)
  {
  }

  lemma SpawnedAlone(s: Sys, app: App, ctx: Ctx, script: Script) returns (s1: Sys)
    requires Init(s) && Outermost(Scope(app, ctx, 0))
    ensures Enabled(s, Spawn(0, WritePool, app, ctx, script)) && s1 == Do(s, Spawn(0, WritePool, app, ctx, script))
    ensures s1 == s.(tasks := map[0 := Task(WritePool, app, ctx, script, Waiting)])
  {
    s1 := Do(s, Spawn(0, WritePool, app, ctx, script));
  }

  lemma ConnectedAlone(s: Sys, s1: Sys, app: App, ctx: Ctx, script: Script) returns (s2: Sys)
    requires Init(s) && s1 == s.(tasks := map[0 := Task(WritePool, app, ctx, script, Waiting)])
    ensures Enabled(s1, TakeConn(0)) && s2 == Do(s1, TakeConn(0))
    ensures s2 == s.(conn := map[WritePool := 0], tasks := map[0 := Task(WritePool, app, ctx, script, Connected)])
  {
    s2 := Do(s1, TakeConn(0));
  }

  lemma BegunAlone(s: Sys, s2: Sys, app: App, ctx: Ctx, script: Script) returns (s3: Sys)
    requires Init(s)
    requires s2 == s.(conn := map[WritePool := 0], tasks := map[0 := Task(WritePool, app, ctx, script, Connected)])
    ensures Enabled(s2, Begin(0)) && s3 == Do(s2, Begin(0))
    ensures 0 in s3.tasks && Free(s3, QueuePool)
    ensures s3.tasks[0] == Task(WritePool, app, ctx, script, Open(Start(script, s.db), []))
  {
    s3 := Do(s2, Begin(0));
  }

  /** One label more, with the states before and after it named. */
  lemma Reaches(s: Sys, ls: seq<Label>, now: Sys, l: Label, next: Sys)
    requires Possible(s, ls) && After(s, ls) == now && Enabled(now, l) && next == Do(now, l)
    ensures Possible(s, ls + [l]) && After(s, ls + [l]) == next
  {
    OneMore(s, ls, l);
  }

  lemma AloneInside(s: Sys, app: App, ctx: Ctx, script: Script) returns (ls: seq<Label>)
    requires Init(s) && Outermost(Scope(app, ctx, 0))
    ensures Possible(s, ls) && 0 in After(s, ls).tasks && Free(After(s, ls), QueuePool)
    ensures After(s, ls).tasks[0] == Task(WritePool, app, ctx, script, Open(Start(script, s.db), []))
  {
    var s1 := SpawnedAlone(s, app, ctx, script);
    var s2 := ConnectedAlone(s, s1, app, ctx, script);
    var s3 := BegunAlone(s, s2, app, ctx, script);
    ls := [];
    Reaches(s, ls, s, Spawn(0, WritePool, app, ctx, script), s1);
    ls := ls + [Spawn(0, WritePool, app, ctx, script)];
    Reaches(s, ls, s1, TakeConn(0), s2);
    ls := ls + [TakeConn(0)];
    Reaches(s, ls, s2, Begin(0), s3);
    ls := ls + [Begin(0)];
  }

  lemma BlockedOn(s: Sys, t: nat)
    requires t in s.tasks && s.tasks[t].phase.Open? && Free(s, QueuePool) && Outermost(ScopeOf(s, t))
    ensures Blocks(s, t) <==> Escapes(s.tasks[t].phase.run.rest, Asked(s.tasks[t].ctx))
    ensures Blocks(s, t) ==>
              var stuck := Do(s, Block(t));
              stuck.tasks[t].phase.Stuck? && (Enabled(stuck, Borrow(t)) <==> s.tasks[t].phase.run.rest.Enqueue?)
  {
    RebindingIsExact(ScopeOf(s, t), s.tasks[t].phase.run, false);
  }

  /**
   The guard, the bindings and the audit buffer stop no escape, and nothing else blocks: a closure whose first
   call escapes gets stuck on it, an enqueue with the queue's connection still to be had, and no other call does.
   */
  lemma EscapesAndOnlyTheyBlock(s: Sys, app: App, ctx: Ctx, script: Script) returns (ls: seq<Label>)
    requires Init(s) && Outermost(Scope(app, ctx, 0))
    ensures Possible(s, ls) && 0 in After(s, ls).tasks && After(s, ls).tasks[0].phase.Open?
    ensures After(s, ls).tasks[0].phase.run.rest == script
    ensures Blocks(After(s, ls), 0) <==> Escapes(script, Asked(ctx))
    ensures Escapes(script, Asked(ctx)) ==>
              var stuck := Do(After(s, ls), Block(0));
              stuck.tasks[0].phase.Stuck? && (Enabled(stuck, Borrow(0)) <==> script.Enqueue?)
  {
    ls := AloneInside(s, app, ctx, script);
    BlockedOn(After(s, ls), 0);
  }

  // ---------------------------------------------------------------- who was spawned

  /** A task keeps the app, the context and the closure it was spawned with. */
  lemma StepsKeepTasks(s: Sys, l: Label, t: nat)
    requires Enabled(s, l) && t in s.tasks
    ensures t in Do(s, l).tasks && Do(s, l).tasks[t] == s.tasks[t].(phase := Do(s, l).tasks[t].phase)
  {
  }

  lemma {:induction false} SpawnedTasksStay(s: Sys, ls: seq<Label>, i: nat)
    requires Init(s) && Possible(s, ls) && i < |ls| && ls[i].Spawn?
    ensures var l, now := ls[i], After(s, ls);
            l.tid in now.tasks && now.tasks[l.tid].script == l.script && now.tasks[l.tid].ctx == l.ctx
    decreases |ls|
  {
    var n := |ls| - 1;
    if i < n {
      SpawnedTasksStay(s, ls[..n], i);
      assert ls[..n][i] == ls[i];
      StepsKeepTasks(After(s, ls[..n]), ls[n], ls[i].tid);
    }
  }
}
