/**
 cmd/server/tx.go: the transaction-scoped copy of `app`, the nesting guard and `WithTransaction`; and where each
 call made inside a transaction lands, which the copy's bindings and the context decide.
 */
module TxScope {
  import opened Wrappers
  import opened Database
  import opened AppReq
  import opened Scripts

  datatype PoolName = WritePool | QueuePool

  /** What a set of generated queries runs on: one of the pools, or one transaction, named by a number. */
  datatype Binding = ToReadPool | ToWritePool | ToTx(tx: nat)

  /** The part of `app` that is copied per transaction. */
  datatype App = App(queries: Binding, writeQueries: Binding, currentTx: Option<nat>)

  /** The app newApp builds; its baseWrite, shared by every copy, is bound to the write pool. */
  const BASE_APP := App(ToReadPool, ToWritePool, None)

  function WithTxQueries(a: App, tx: nat): App {
    a.(queries := ToTx(tx), writeQueries := ToTx(tx), currentTx := Some(tx))
  }

  /** Every app there is: the first one, or a transaction's copy. */
  predicate Built(a: App) {
    a == BASE_APP || (a.currentTx.Some? && a == WithTxQueries(BASE_APP, a.currentTx.value))
  }

  /** What a request carries as its Env: this program stores an app, any other type is ignored. */
  datatype ReqEnv = AppEnv(app: App) | OtherEnv

  datatype Ctx = Ctx(txEnv: Option<App>, req: Option<ReqEnv>)

  function TxEnvFromCtx(a: App, ctx: Ctx): Option<App> {
    if ctx.txEnv.Some? && ctx.txEnv.value.currentTx.Some? then ctx.txEnv
    else if ctx.req.Some? && ctx.req.value.AppEnv? && ctx.req.value.app.currentTx.Some? then
      Some(ctx.req.value.app)
    else if a.currentTx.Some? then Some(a)
    else None
  }

  /** A `WithTransaction` call that the guard lets through: the app it is made on, its context, its transaction. */
  datatype Scope = Scope(app: App, ctx: Ctx, tx: nat)

  predicate Outermost(sc: Scope) {
    Built(sc.app) && TxEnvFromCtx(sc.app, sc.ctx).None?
  }

  function EnvOf(sc: Scope, throughTxEnv: bool): App {
    if throughTxEnv then WithTxQueries(sc.app, sc.tx) else sc.app
  }

  function CtxOf(sc: Scope, throughTxCtx: bool): Ctx {
    if throughTxCtx then sc.ctx.(txEnv := Some(WithTxQueries(sc.app, sc.tx))) else sc.ctx
  }

  /** The transaction a call made through this route finds. */
  function Found(sc: Scope, route: Route): Option<App> {
    TxEnvFromCtx(EnvOf(sc, route.throughTxEnv), CtxOf(sc, route.throughTxCtx))
  }

  /**
   What the guard sees: nothing only if neither the context's env, nor the request's, nor the app it is called
   on holds a transaction; otherwise the first of them that does, in that order.
   */
  lemma GuardSeesEveryEnv(a: App, ctx: Ctx)
    ensures var byCtx := ctx.txEnv.Some? && ctx.txEnv.value.currentTx.Some?;
            var byReq := ctx.req.Some? && ctx.req.value.AppEnv? && ctx.req.value.app.currentTx.Some?;
            var found := TxEnvFromCtx(a, ctx);
            && (found.None? <==> !byCtx && !byReq && a.currentTx.None?)
            && (byCtx ==> found == ctx.txEnv)
            && (!byCtx && byReq ==> found == Some(ctx.req.value.app))
            && (!byCtx && !byReq && a.currentTx.Some? ==> found == Some(a))
  {
  }

  /**
   The guard, exactly: from inside a transaction begun outside any other, the open transaction is found
   if and only if the call goes through the tx env or the tx context. A call that uses the outer app
   with the outer context is not refused: it goes on to wait for the one connection it already holds.
   */
  lemma GuardIsExact(sc: Scope, route: Route)
    requires Outermost(sc)
    ensures Found(sc, route) == if Inside(route) then Some(WithTxQueries(sc.app, sc.tx)) else None
  {
  }

  /** The queries a statement's method is promoted from: reads from Queries, writes from WriteQueries. */
  function BindingOf(sc: Scope, on: Receiver, op: Op): Binding {
    if on.OnBase? then ToWritePool
    else
      var app := EnvOf(sc, on.OnEnv?);
      if IsQuery(op) then app.queries else app.writeQueries
  }

  /**
   Where the next call lands. Inside a transaction a wait for the write pool is one for the connection the
   transaction itself holds; the queue pool may give its own connection, and then waits for the lock.
   */
  datatype Target = OnTx(tx: nat) | OnCommitted | InBuffer | Refusal | Waits(pool: PoolName) | Local

  function TargetOf(sc: Scope, s: Script): Target {
    match s
    case Stmt(on, op, _) =>
      (match BindingOf(sc, on, op)
       case ToTx(tx) => OnTx(tx)
       case ToReadPool => OnCommitted
       case ToWritePool => Waits(WritePool))
    case Enqueue(route, _, _) =>
      var env := Found(sc, route);
      if env.Some? && env.value.currentTx.Some? then OnTx(env.value.currentTx.value) else Waits(QueuePool)
    case Nested(route, _) => if Found(sc, route).Some? then Refusal else Waits(WritePool)
    case Audit(_, _) => if sc.ctx.req.Some? then InBuffer else Waits(WritePool)
    case _ => Local
  }

  /** A statement against a transaction: another one than the caller's own has ended, and says so. */
  function OnTransaction(sc: Scope, c: Config, tx: nat, op: Op, next: Reply -> Script, fault: bool): Config {
    if tx == sc.tx then
      var e := ExecOrFail(c.db, op, fault);
      c.(rest := next(e.reply), db := e.db)
    else c.(rest := next(Failed))
  }

  /** The next call, carried out where it lands; `committed` is what the read pool sees. A wait that ends has failed. */
  function Perform(sc: Scope, c: Config, committed: Db, fault: bool): Config {
    var target := TargetOf(sc, c.rest);
    match c.rest
    case Return(_) => c
    case Raise => c
    case Stmt(_, op, next) =>
      if target.OnTx? then OnTransaction(sc, c, target.tx, op, next, fault)
      else if target.OnCommitted? then c.(rest := next(ExecOrFail(committed, op, fault).reply))
      else c.(rest := next(Failed))
    case Enqueue(_, msg, next) =>
      if target.OnTx? then OnTransaction(sc, c, target.tx, CreateMessage(msg), next, fault)
      else c.(rest := next(Failed))
    case Nested(_, next) => c.(rest := next(if target.Refusal? then Refused else Failed))
    case Audit(_, rest) => c.(rest := rest)
    case Bump(counter, rest) => c.(rest := rest, bumps := c.bumps + multiset{counter})
  }

  /**
   The rebinding: calls on the env the closure was handed land on its own transaction and see its writes,
   reads on the outer app see the committed state and none of them, and what the closure's value says of
   each call is what the bindings do.
   */
  lemma RebindingIsExact(sc: Scope, c: Config, fault: bool)
    requires Outermost(sc)
    ensures Perform(sc, c, c.base, fault) == Advance(c, fault)
    ensures TargetOf(sc, c.rest).Waits? <==> Escapes(c.rest, sc.ctx.req.Some?)
    ensures Obeys(Tidy, c.rest) && !Final(c.rest) ==> TargetOf(sc, c.rest) == if c.rest.Bump? then Local else OnTx(sc.tx)
    ensures TargetOf(sc, c.rest).OnCommitted? <==> c.rest.Stmt? && c.rest.on.OnOuter? && IsQuery(c.rest.op)
  {
    if c.rest.Enqueue? || c.rest.Nested? {
      GuardIsExact(sc, c.rest.route);
    }
  }

  datatype Outcome =
    | ErrNestedTransaction
    | BeginFailed
    | CaseFailed
    | CommitFailed
    | Committed(answer: Answer)

  /** The transaction began, so the closure ran. */
  predicate Ran(out: Outcome) { !out.ErrNestedTransaction? && !out.BeginFailed? }

  /**
   How a `WithTransaction` call past the guard ends, exactly, for whatever fails around it: it commits if and only
   if it began, the closure returned an answer and the commit did not fail, and then the tables are those of the
   closure's run; in every other case they are as before.
   */
  ghost predicate EndsAs(fn: Script, faults: Faults, before: Db, choices: seq<bool>, out: Outcome, after: Db) {
    var run := Steps(Start(fn, before), choices);
    && choices == Under(faults.calls, |choices|)
    && !out.ErrNestedTransaction?
    && (out.BeginFailed? <==> faults.begin)
    && (faults.begin ==> choices == [])
    && (!faults.begin ==>
          && Final(run.rest)
          && (out.CaseFailed? <==> run.rest.Raise?)
          && (out.CommitFailed? <==> run.rest.Return? && faults.commit)
          && (out.Committed? <==> run.rest.Return? && !faults.commit)
          && (out.Committed? ==> run.rest == Return(out.answer)))
    && after == (if out.Committed? then run.db else before)
  }

  /** The database behind the one write connection. */
  class Pool {
    var db: Db
    var metrics: multiset<Counter>
    var inUse: bool
    var nextTx: nat

    constructor (db: Db)
      ensures this.db == db && metrics == multiset{} && !inUse
    {
      this.db, metrics, inUse, nextTx := db, multiset{}, false, 0;
    }

    /** A statement on the pool itself, as baseWrite makes it: it needs the connection to be free, and gives it back. */
    method Statement(op: Op, fault: bool) returns (r: Reply)
      requires !inUse
      modifies this`db
      ensures Effect(db, r) == if fault || Exec(old(db), op).reply.Failed? then Effect(old(db), Failed) else Exec(old(db), op)
    {
      if fault {
        return Failed;
      }
      var e := Exec(db, op);
      if e.reply.Failed? {
        return Failed;
      }
      db, r := e.db, e.reply;
    }

    /** One call of the closure, where its binding and its context take it; it may fail. */
    method TakeCall(sc: Scope, req: AppRequest?, run: Config, fault: bool) returns (next: Config)
      requires Outermost(sc) && (req != null <==> sc.ctx.req.Some?) && (req != null ==> req.Valid())
      requires run.base == db
      modifies this`metrics, InScope(req)`audits, InScope(req)`added
      ensures next == Advance(run, fault)
      ensures metrics == old(metrics) + Counted(run.rest)
      ensures req != null ==>
                req.Valid() && req.audits == old(req.audits) + Noted(run.rest) && req.added == old(req.added) + Noted(run.rest)
    {
      RebindingIsExact(sc, run, fault);
      if run.rest.Audit? && req != null {
        req.AddAudit(run.rest.entry);
      }
      if run.rest.Bump? {
        metrics := metrics + multiset{run.rest.counter};
      }
      next := Perform(sc, run, db, fault);
    }

    /** fn(txCtx, txEnv): call after call until it returns. */
    method RunClosure(sc: Scope, req: AppRequest?, fn: Script, calls: nat -> bool, ghost bound: nat)
      returns (run: Config, ghost choices: seq<bool>)
      requires Outermost(sc) && (req != null <==> sc.ctx.req.Some?) && (req != null ==> req.Valid())
      requires Within(bound, fn)
      modifies this`metrics, InScope(req)`audits, InScope(req)`added
      ensures choices == Under(calls, |choices|) && |choices| <= bound
      ensures run == Steps(Start(fn, db), choices) && Final(run.rest)
      ensures metrics == old(metrics) + run.bumps
      ensures req != null ==>
                req.Valid() && req.audits == old(req.audits) + Audits(Start(fn, db), choices) &&
                req.added == old(req.added) + Audits(Start(fn, db), choices)
    {
      run, choices := Start(fn, db), [];
      ghost var fuel: nat, noted: seq<AuditEntry> := bound, [];
      var k := 0;
      while !Final(run.rest)
        invariant k == |choices| && k + fuel <= bound && choices == Under(calls, k) && OnTrack(Start(fn, db), choices, run, fuel)
        invariant metrics == old(metrics) + run.bumps
        invariant noted == Audits(Start(fn, db), choices)
        invariant req != null ==>
                    req.Valid() && req.audits == old(req.audits) + noted && req.added == old(req.added) + noted
        decreases fuel
      {
        var fault := calls(k);
        UnderGrows(calls, k);
        OneMoreStep(Start(fn, db), choices, run, fault, fuel);
        if req != null {
          Associates(old(req.audits), noted, Noted(run.rest));
          Associates(old(req.added), noted, Noted(run.rest));
        }
        noted := noted + Noted(run.rest);
        run := TakeCall(sc, req, run, fault);
        choices := choices + [fault];
        k := k + 1;
        fuel := fuel - 1;
      }
    }

    /**
     `WithTransaction`. The guard runs before BEGIN, and past it the call ends as its faults and its closure have it.
     The connection is given back either way, and what the closure counted and put in the request's buffer stays. A
     call that waits for what the transaction holds comes back with a timeout's error or a cancellation's.
     */
    method WithTransaction(a: App, ctx: Ctx, req: AppRequest?, fn: Script, faults: Faults, ghost bound: nat)
      returns (out: Outcome, ghost choices: seq<bool>)
      requires Built(a) && (req != null <==> ctx.req.Some?) && (req != null ==> req.Valid())
      requires !inUse || TxEnvFromCtx(a, ctx).Some?
      requires Within(bound, fn)
      modifies this, InScope(req)`audits, InScope(req)`added
      ensures inUse == old(inUse)
      ensures TxEnvFromCtx(a, ctx).Some? ==> out == ErrNestedTransaction && db == old(db) && choices == []
      ensures TxEnvFromCtx(a, ctx).None? ==> EndsAs(fn, faults, old(db), choices, out, db) && |choices| <= bound
      ensures metrics == old(metrics) + if Ran(out) then Steps(Start(fn, old(db)), choices).bumps else multiset{}
      ensures req != null ==>
                req.Valid() && req.audits == old(req.audits) + Audits(Start(fn, old(db)), choices) &&
                req.added == old(req.added) + Audits(Start(fn, old(db)), choices)
    {
      choices := [];
      if TxEnvFromCtx(a, ctx).Some? {
        return ErrNestedTransaction, choices;
      }
      if faults.begin {
        return BeginFailed, choices;
      }
      inUse := true;
      var sc := Scope(a, ctx, nextTx);
      nextTx := nextTx + 1;
      var run;
      run, choices := RunClosure(sc, req, fn, faults.calls, bound);
      if run.rest.Raise? {
        inUse := false;
        return CaseFailed, choices;
      }
      inUse := false;
      if faults.commit {
        return CommitFailed, choices;
      }
      db := run.db;
      return Committed(run.rest.answer), choices;
    }
  }
}
