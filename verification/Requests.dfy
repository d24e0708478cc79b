/**
 cmd/server/http.go and the audit half of cmd/server/auth.go and internal/graph/resolver.go: one request from its
 identity to the flush of its audit buffer. What the handler's resolvers do side by side is in AuditFlow.
 */
module Requests {
  import opened Wrappers
  import opened Database
  import opened AppReq
  import opened Scripts
  import opened TxScope
  import opened ActionLabel
  import Commands
  import SignIns

  /** What a handler does that matters here: a mutation runs its closure in a transaction, or an entry is added. */
  datatype Act = Mutation(fn: Script, bound: nat, faults: Faults) | AddsEntry(entry: AuditEntry)

  /** How an act went: a transaction with its outcome, whichever it was, or the entry. */
  datatype Event = Transaction(before: Db, fn: Script, choices: seq<bool>, outcome: Outcome) | Added(entry: AuditEntry)

  /** The act went like this, from these tables to those. */
  ghost predicate Follows(act: Act, before: Db, event: Event, after: Db) {
    match act
    case Mutation(fn, _, faults) =>
      event.Transaction? && event.before == before && event.fn == fn &&
      EndsAs(fn, faults, before, event.choices, event.outcome, after)
    case AddsEntry(entry) => event == Added(entry) && after == before
  }

  /** What an act put in the request's buffer; a transaction's entries stay whether it committed or rolled back. */
  function EntriesIn(event: Event): seq<AuditEntry> {
    match event
    case Transaction(before, fn, choices, _) => Audits(Start(fn, before), choices)
    case Added(entry) => [entry]
  }

  function EntriesOf(events: seq<Event>): seq<AuditEntry>
    decreases |events|
  {
    if events == [] then [] else EntriesOf(events[..|events| - 1]) + EntriesIn(events[|events| - 1])
  }

  /** The acts so far went like this, one event each, through these states of the tables. */
  ghost predicate AllFollow(acts: seq<Act>, states: seq<Db>, events: seq<Event>) {
    && |events| <= |acts| && |states| == |events| + 1
    && forall i | 0 <= i < |events| :: Follows(acts[i], states[i], events[i], states[i + 1])
  }

  lemma OneMoreFollows(acts: seq<Act>, states: seq<Db>, events: seq<Event>, event: Event, after: Db)
    requires |events| < |acts| && AllFollow(acts, states, events)
    requires Follows(acts[|events|], states[|events|], event, after)
    ensures AllFollow(acts, states + [after], events + [event])
  {
    var states', events' := states + [after], events + [event];
    forall i | 0 <= i < |events'| ensures Follows(acts[i], states'[i], events'[i], states'[i + 1]) {
      assert i < |events| ==> states'[i] == states[i] && states'[i + 1] == states[i + 1] && events'[i] == events[i];
    }
  }

  lemma OneMoreEvent(events: seq<Event>, event: Event)
    ensures EntriesOf(events + [event]) == EntriesOf(events) + EntriesIn(event)
  {
    assert (events + [event])[..|events|] == events;
  }

  // ---------------------------------------------------------------- flushing

  /** The entries among the first n whose insert does not fail, in order. */
  function Inserted(entries: seq<AuditEntry>, fails: nat -> bool, n: nat): seq<AuditEntry>
    requires n <= |entries|
  {
    if n == 0 then [] else Inserted(entries, fails, n - 1) + (if fails(n - 1) then [] else [entries[n - 1]])
  }

  /** The audit log has one more row per inserted entry, in order under the next ids; every other row is as it was. */
  ghost predicate Logged(before: Db, after: Db, inserted: seq<AuditEntry>, now: int) {
    var next := before.nextAuditId;
    && after == before.(audit := after.audit, nextAuditId := next + |inserted|)
    && (forall i :: i in after.audit <==> i in before.audit || next <= i < next + |inserted|)
    && (forall i | i in before.audit && i < next :: after.audit[i] == before.audit[i])
    && (forall j | 0 <= j < |inserted| :: after.audit[next + j] ==
          AuditRow(inserted[j].userId, inserted[j].email, inserted[j].action, inserted[j].detail, inserted[j].ip, now))
  }

  lemma LoggedOneMore(before: Db, mid: Db, inserted: seq<AuditEntry>, entry: AuditEntry, row: AuditRow, now: int)
    requires Logged(before, mid, inserted, now)
    requires row == AuditRow(entry.userId, entry.email, entry.action, entry.detail, entry.ip, now)
    ensures Logged(before, Exec(mid, InsertAuditLog(row)).db, inserted + [entry], now)
  {
  }

  // ---------------------------------------------------------------- identity

  /** A verified token; `issued` is its iat in nanoseconds, None the zero time. */
  datatype Claims = Claims(oidc: Oidc, email: string, name: string, issued: Option<int>)

  /** What the gate says about the request's token. */
  datatype Gate = NoToken | InvalidToken | GateError | Claimed(claims: Claims)

  datatype Identity = Failure | Nobody | Stale | Banned(reason: string) | Known(account: Account, isAdmin: bool)

  /** What fails while an identity is resolved: the lookup, the sign-in mark, or something around a first sign-in. */
  datatype Failures = Failures(lookup: bool, mark: bool, signIn: Faults)

  /** A token's iat as the column holds it. */
  function Stored(issued: Option<int>): Option<int> {
    if issued.Some? then Some(SignIns.Seconds(issued.value)) else None
  }

  function SignInCommand(claims: Claims, now: int): Commands.Command {
    Commands.SignIn(claims.oidc, claims.email, claims.name, Stored(claims.issued), now)
  }

  /** The token is later than the row as it was read, and its second later than the column as it is. */
  predicate Advances(db: Db, row: IdentityRow, issued: Option<int>) {
    && issued.Some? && (row.lastSignin.None? || issued.value > row.lastSignin.value * 1_000_000_000)
    && row.id in db.users
    && (db.users[row.id].lastSignin.None? || db.users[row.id].lastSignin.value < issued.value / 1_000_000_000)
  }

  /** The tables with that user's sign-in column at the token's second. */
  function Marked(db: Db, id: int, issued: int): Db
    requires id in db.users
  {
    db.(users := db.users[id := db.users[id].(lastSignin := Some(issued / 1_000_000_000))])
  }

  /** The first sign-in begins, answers and commits under these faults. */
  ghost predicate SignInCommits(site: Commands.Site, claims: Claims, now: int, db: Db, faults: Faults) {
    && !faults.begin && !faults.commit
    && Steps(Start(Commands.ScriptOf(site, SignInCommand(claims, now)), db), Under(faults.calls, 4)).rest.Return?
  }

  ghost predicate Unchanged(before: Db, after: Db, entries: seq<AuditEntry>) { after == before && entries == [] }

  /**
   What a token makes of a request, exactly: the identity, the tables after it and the entries it leaves. Only a
   known caller changes anything: an existing one the sign-in column, by a later second and with an entry for it;
   a new one what the sign-in command changes.
   */
  ghost predicate Identified(
    site: Commands.Site, gate: Gate, failures: Failures, before: Db, identity: Identity, after: Db, entries: seq<AuditEntry>,
    ip: string, now: int)
  {
    match gate
    case InvalidToken => identity == Stale && Unchanged(before, after, entries)
    case NoToken => identity == Nobody && Unchanged(before, after, entries)
    case GateError => identity == Nobody && Unchanged(before, after, entries)
    case Claimed(claims) =>
      var row := GetIdentityByOIDC(before, claims.oidc);
      if failures.lookup then identity == Failure && Unchanged(before, after, entries)
      else if row.None? then NewIdentity(site, claims, failures.signIn, before, identity, after, entries, ip, now)
      else OldIdentity(row.value, claims, failures.mark, before, identity, after, entries, ip)
  }

  ghost predicate OldIdentity(
    row: IdentityRow, claims: Claims, markFails: bool, before: Db, identity: Identity, after: Db, entries: seq<AuditEntry>,
    ip: string)
  {
    if row.banReason != "" then identity == Banned(row.banReason) && Unchanged(before, after, entries)
    else
      && identity == Known(Account(row.id, row.email), row.isAdmin)
      && if Advances(before, row, claims.issued) && !markFails
         then entries == [AuditEntry(Some(row.id), row.email, "sign_in", "", ip)] && after == Marked(before, row.id, claims.issued.value)
         else Unchanged(before, after, entries)
  }

  ghost predicate NewIdentity(
    site: Commands.Site, claims: Claims, faults: Faults, before: Db, identity: Identity, after: Db, entries: seq<AuditEntry>,
    ip: string, now: int)
  {
    if !SignInCommits(site, claims, now, before, faults) then identity == Failure && Unchanged(before, after, entries)
    else
      var v := Commands.Apply(site, SignInCommand(claims, now), before);
      && v.Answered? && v.answer.SignedIn? && after == v.db
      && identity == Known(Account(v.answer.id, v.answer.user.email), v.answer.isAdmin)
      && entries == [AuditEntry(Some(v.answer.id), v.answer.user.email, "sign_in", "", ip)]
  }

  /** A committed sign-in is the sign-in command, and puts nothing in the buffer itself. */
  lemma CommittedSignIn(site: Commands.Site, claims: Claims, now: int, db: Db, faults: Faults, n: nat)
    requires n <= 4
    ensures Within(4, Commands.ScriptOf(site, SignInCommand(claims, now)))
    ensures Audits(Start(Commands.ScriptOf(site, SignInCommand(claims, now)), db), Under(faults.calls, n)) == []
    ensures var run := Steps(Start(Commands.ScriptOf(site, SignInCommand(claims, now)), db), Under(faults.calls, n));
            var v := Commands.Apply(site, SignInCommand(claims, now), db);
            && (run.rest.Return? ==> v.Answered? && v.answer == run.rest.answer && v.answer.SignedIn? && v.db == run.db)
            && (Final(run.rest) && !faults.begin && !faults.commit ==>
                  (run.rest.Return? <==> SignInCommits(site, claims, now, db, faults)))
  {
    var cmd := SignInCommand(claims, now);
    var start := Start(Commands.ScriptOf(site, cmd), db);
    Commands.CasesAreWellBehaved(site, cmd);
    TidyAddsNoEntries(Commands.ScriptOf(site, cmd), db, Under(faults.calls, n));
    if Final(Steps(start, Under(faults.calls, n)).rest) {
      EndedRunsStay(start, faults.calls, n, 4);
    }
    if Steps(start, Under(faults.calls, n)).rest.Return? {
      Commands.CommandsAreAtomic(site, cmd, db, Under(faults.calls, n));
    }
  }

  /** A second request with the same token finds its sign-in noticed: it leaves no entry and changes nothing. */
  lemma TheSameTokenIsNotNoticedTwice(
    site: Commands.Site, claims: Claims, first: Failures, second: Failures, before: Db, mid: Db, after: Db,
    known: Identity, again: Identity, entries: seq<AuditEntry>, more: seq<AuditEntry>, ip: string, ip': string, now: int, later: int)
    requires Schema(before) && !first.mark && known.Known?
    requires Identified(site, Claimed(claims), first, before, known, mid, entries, ip, now)
    requires Identified(site, Claimed(claims), second, mid, again, after, more, ip', later)
    ensures more == [] && after == mid
  {
    var row := GetIdentityByOIDC(before, claims.oidc);
    if row.None? {
      FirstSignInIsStored(site, claims, before, now);
    } else {
      var id := row.value.id;
      assert mid.byOidc == before.byOidc && id in mid.users;
    }
  }

  /** After a committed first sign-in the identity is in the index, with the token's second in its row. */
  lemma FirstSignInIsStored(site: Commands.Site, claims: Claims, before: Db, now: int)
    requires Schema(before) && Commands.Apply(site, SignInCommand(claims, now), before).Answered?
    ensures var after := Commands.Apply(site, SignInCommand(claims, now), before).db;
            var row := GetIdentityByOIDC(after, claims.oidc);
            row.Some? && row.value.id in after.users && after.users[row.value.id].lastSignin == Stored(claims.issued) &&
            row.value.lastSignin == Stored(claims.issued)
  {
  }

  datatype Response = InternalError | AccessRevoked(reason: string) | StaleToken | Served

  class Server {
    const site: Commands.Site
    const pool: Pool
    var signIns: nat
    var denials: nat
    // history: every entry handed to the database, in order
    ghost var handed: seq<AuditEntry>

    constructor (site: Commands.Site, pool: Pool)
      ensures this.site == site && this.pool == pool && signIns == 0 && denials == 0 && handed == []
    {
      this.site, this.pool, signIns, denials, handed := site, pool, 0, 0, [];
    }

    /**
     Every entry is handed to the database once, in order; a failed insert is logged and skipped. Each insert
     needs the one write connection, so this may be called only while no transaction holds it. `fails` says which
     of the inserts fail.
     */
    method FlushAudit(entries: seq<AuditEntry>, now: int, fails: nat -> bool)
      requires !pool.inUse
      modifies pool`db, this`handed
      ensures handed == old(handed) + entries
      ensures Logged(old(pool.db), pool.db, Inserted(entries, fails, |entries|), now)
    {
      var i := 0;
      while i < |entries|
        invariant 0 <= i <= |entries|
        invariant handed == old(handed) + entries[..i]
        invariant Logged(old(pool.db), pool.db, Inserted(entries, fails, i), now)
      {
        var entry := entries[i];
        var row := AuditRow(entry.userId, entry.email, entry.action, entry.detail, entry.ip, now);
        LoggedOneMore(old(pool.db), pool.db, Inserted(entries, fails, i), entry, row, now);
        assert entries[..i + 1] == entries[..i] + [entries[i]];
        handed := handed + [entries[i]];
        var _ := pool.Statement(InsertAuditLog(row), fails(i));
        i := i + 1;
      }
      assert entries[..|entries|] == entries;
    }

    /** Inside a request an entry is buffered; with none in scope it is written at once. */
    method WriteAudit(req: AppRequest?, entry: AuditEntry, now: int, fails: nat -> bool)
      requires req != null ==> req.Valid()
      requires req == null ==> !pool.inUse
      modifies pool`db, this`handed, InScope(req)`audits, InScope(req)`added
      ensures req != null ==> req.Valid() && req.audits == old(req.audits) + [entry] && req.added == old(req.added) + [entry]
      ensures req != null ==> handed == old(handed) && pool.db == old(pool.db)
      ensures req == null ==>
                handed == old(handed) + [entry] && Logged(old(pool.db), pool.db, if fails(0) then [] else [entry], now)
    {
      if req != null {
        req.AddAudit(entry);
        return;
      }
      assert Inserted([entry], fails, 1) == (if fails(0) then [] else [entry]) by {
        assert Inserted([entry], fails, 0) == [];
      }
      FlushAudit([entry], now, fails);
    }

    /** A sign-in is noticed exactly when the update on baseWrite went through and moved the column. */
    method RecordSignIn(req: AppRequest, row: IdentityRow, issued: Option<int>, now: int, fault: bool) returns (noticed: bool)
      requires req.Valid() && !pool.inUse
      modifies this`signIns, this`handed, pool`db, req`audits, req`added
      ensures req.Valid() && handed == old(handed)
      ensures noticed <==> Advances(old(pool.db), row, issued) && !fault
      ensures pool.db == if noticed then Marked(old(pool.db), row.id, issued.value) else old(pool.db)
      ensures signIns == old(signIns) + (if noticed then 1 else 0)
      ensures req.audits == old(req.audits) + (if noticed then [AuditEntry(Some(row.id), row.email, "sign_in", "", req.ip)] else [])
    {
      noticed := false;
      if issued.None? {
        return;
      }
      if row.lastSignin.Some? && !SignIns.LooksNew(issued, row.lastSignin) {
        return;
      }
      MarkStores(pool.db, row.id, SignIns.Seconds(issued.value));
      var marked := pool.Statement(MarkSignIn(row.id, SignIns.Seconds(issued.value)), fault);
      if marked.Failed? || marked == Affected(0) {
        return;
      }
      noticed := true;
      signIns := signIns + 1;
      WriteAudit(req, AuditEntry(Some(row.id), row.email, ACTION_SIGN_IN, "", req.ip), now, _ => false);
    }

    /** The sign-in of an unknown identity, in a transaction of its own; when that fails nothing is left of it. */
    method FirstSignIn(req: AppRequest, claims: Claims, now: int, faults: Faults) returns (identity: Identity)
      requires req.Valid() && !pool.inUse && req.user.None? && req.audits == []
      modifies this`signIns, this`handed, pool, req
      ensures req.Valid() && !pool.inUse && handed == old(handed) && req.taken == old(req.taken)
      ensures NewIdentity(site, claims, faults, old(pool.db), identity, pool.db, req.audits, req.ip, now)
      ensures signIns == old(signIns) + |req.audits|
      ensures if identity.Known? then req.user == Some(identity.account) && req.isAdmin == identity.isAdmin else req.user.None?
    {
      var fn := Commands.ScriptOf(site, SignInCommand(claims, now));
      CommittedSignIn(site, claims, now, pool.db, faults, 0);
      var outcome, choices := pool.WithTransaction(BASE_APP, Ctx(None, Some(AppEnv(BASE_APP))), req, fn, faults, 4);
      CommittedSignIn(site, claims, now, old(pool.db), faults, |choices|);
      if !outcome.Committed? {
        return Failure;
      }
      var account := Account(outcome.answer.id, outcome.answer.user.email);
      req.SetIdentity(account, outcome.answer.isAdmin);
      signIns := signIns + 1;
      WriteAudit(req, AuditEntry(Some(account.id), account.email, ACTION_SIGN_IN, "", req.ip), now, _ => false);
      return Known(account, outcome.answer.isAdmin);
    }

    /** One lookup of the committed tables turns the token into an identity. */
    method ResolveIdentity(req: AppRequest, gate: Gate, now: int, failures: Failures) returns (identity: Identity)
      requires req.Valid() && !pool.inUse && req.user.None? && req.audits == []
      modifies this`signIns, this`handed, pool, req
      ensures req.Valid() && !pool.inUse && handed == old(handed) && req.taken == old(req.taken)
      ensures Identified(site, gate, failures, old(pool.db), identity, pool.db, req.audits, req.ip, now)
      ensures signIns == old(signIns) + |req.audits|
      ensures if identity.Known? then req.user == Some(identity.account) && req.isAdmin == identity.isAdmin else req.user.None?
    {
      match gate {
        case InvalidToken => return Stale;
        case NoToken => return Nobody;
        case GateError => return Nobody;
        case Claimed(claims) =>
          if failures.lookup {
            return Failure;
          }
          var found := GetIdentityByOIDC(pool.db, claims.oidc);
          if found.None? {
            identity := FirstSignIn(req, claims, now, failures.signIn);
            return;
          }
          var row := found.value;
          if row.banReason != "" {
            return Banned(row.banReason);
          }
          req.SetIdentity(Account(row.id, row.email), row.isAdmin);
          var noticed := RecordSignIn(req, row, claims.issued, now, failures.mark);
          return Known(Account(row.id, row.email), row.isAdmin);
      }
    }

    /** One mutation in its own transaction, or one entry. The request's Env is the app itself. */
    method ServeOne(req: AppRequest, act: Act) returns (ghost event: Event)
      requires req.Valid() && !pool.inUse && (act.Mutation? ==> Within(act.bound, act.fn))
      modifies pool, req`audits, req`added
      ensures req.Valid() && !pool.inUse && Follows(act, old(pool.db), event, pool.db)
      ensures req.added == old(req.added) + EntriesIn(event) && req.audits == old(req.audits) + EntriesIn(event)
    {
      match act {
        case Mutation(fn, bound, faults) =>
          ghost var before := pool.db;
          var outcome, choices := pool.WithTransaction(BASE_APP, Ctx(None, Some(AppEnv(BASE_APP))), req, fn, faults, bound);
          event := Transaction(before, fn, choices, outcome);
        case AddsEntry(entry) =>
          req.AddAudit(entry);
          event := Added(entry);
      }
    }

    /** The handler, until it returns. */
    method Serve(req: AppRequest, acts: seq<Act>) returns (ghost states: seq<Db>, ghost events: seq<Event>)
      requires req.Valid() && !pool.inUse
      requires forall i | 0 <= i < |acts| && acts[i].Mutation? :: Within(acts[i].bound, acts[i].fn)
      modifies pool, req`audits, req`added
      ensures req.Valid() && !pool.inUse
      ensures |events| == |acts| && AllFollow(acts, states, events)
      ensures states[0] == old(pool.db) && states[|events|] == pool.db
      ensures req.added == old(req.added) + EntriesOf(events) && req.audits == old(req.audits) + EntriesOf(events)
    {
      states, events := [pool.db], [];
      ghost var entries := [];
      var i := 0;
      while i < |acts|
        invariant 0 <= i <= |acts| && |events| == i
        invariant AllFollow(acts, states, events) && entries == EntriesOf(events)
        invariant states[0] == old(pool.db) && states[i] == pool.db
        invariant req.Valid() && !pool.inUse
        invariant req.added == old(req.added) + entries && req.audits == old(req.audits) + entries
      {
        ghost var event := ServeOne(req, acts[i]);
        OneMoreFollows(acts, states, events, event, pool.db);
        OneMoreEvent(events, event);
        Associates(old(req.added), entries, EntriesIn(event));
        Associates(old(req.audits), entries, EntriesIn(event));
        states, events, entries := states + [pool.db], events + [event], entries + EntriesIn(event);
        i := i + 1;
      }
    }

    /**
     The middleware. A refusal returns before the handler and leaves nothing buffered and nothing written, the
     tables included; otherwise every entry added while resolving and handling, inside transactions that committed
     or rolled back or outside them, is handed over exactly once, in the order it was added, and the audit log gets
     a row for each whose insert does not fail. The flush may be called because every transaction has given the
     connection back. `states` are the tables from the identity on, act by act.
     */
    method WithRequest(req: AppRequest, gate: Gate, acts: seq<Act>, now: int, failures: Failures, fails: nat -> bool)
      returns (out: Response, ghost identity: Identity, ghost entries: seq<AuditEntry>, ghost states: seq<Db>, ghost events: seq<Event>)
      requires req.Valid() && req.audits == [] && req.added == [] && req.taken == [] && req.user.None? && !pool.inUse
      requires forall i | 0 <= i < |acts| && acts[i].Mutation? :: Within(acts[i].bound, acts[i].fn)
      modifies pool, this, req
      ensures req.Valid() && req.audits == [] && !pool.inUse && states != []
      ensures Identified(site, gate, failures, old(pool.db), identity, states[0], entries, req.ip, now)
      ensures match identity
              case Failure => out == InternalError
              case Banned(reason) => out == AccessRevoked(reason)
              case Stale => out == StaleToken
              case _ => out == Served
      ensures out != Served ==> req.added == [] && handed == old(handed) && pool.db == old(pool.db)
      ensures out == Served ==>
                && |events| == |acts| && AllFollow(acts, states, events)
                && req.added == entries + EntriesOf(events) && handed == old(handed) + req.added
                && Logged(states[|events|], pool.db, Inserted(req.added, fails, |req.added|), now)
    {
      var known := ResolveIdentity(req, gate, now, failures);
      identity, entries, states, events := known, req.audits, [pool.db], [];
      match known {
        case Failure => return InternalError, identity, entries, states, events;
        case Banned(reason) => return AccessRevoked(reason), identity, entries, states, events;
        case Stale => return StaleToken, identity, entries, states, events;
        case _ =>
      }
      states, events := Serve(req, acts);
      var flushed := req.TakeAudit();
      FlushAudit(flushed, now, fails);
      out := Served;
    }

    /** The admin boundary: a denial leaves exactly one entry and one count, an admitted mutation one entry. */
    method CheckAdmin(req: AppRequest?, operation: Operation, fields: seq<string>, variables: string, now: int, fails: nat -> bool)
      returns (admitted: bool)
      requires req != null ==> req.Valid()
      requires req == null ==> !pool.inUse
      modifies pool`db, this`handed, this`denials, InScope(req)`audits, InScope(req)`added
      ensures admitted <==> req != null && req.isAdmin && req.user.Some?
      ensures denials == old(denials) + (if admitted then 0 else 1)
      ensures req != null ==> req.Valid() && handed == old(handed) && pool.db == old(pool.db)
      ensures req != null ==>
                var id := if req.user.Some? then Some(req.user.value.id) else None;
                var email := if req.user.Some? then req.user.value.email else "";
                req.audits == old(req.audits) +
                  (if !admitted then [AuditEntry(id, email, "denied:" + AdminAction(operation, fields), variables, req.ip)]
                   else if operation.Mutation? then [AuditEntry(id, email, AdminAction(operation, fields), variables, req.ip)]
                   else [])
      ensures req == null ==>
                var denied := AuditEntry(None, "", "denied:" + AdminAction(operation, fields), variables, "");
                handed == old(handed) + [denied] && Logged(old(pool.db), pool.db, if fails(0) then [] else [denied], now)
    {
      var action := AdminAction(operation, fields);
      if req == null {
        DenyAdmin(null, AuditEntry(None, "", action, "", ""), variables, now, fails);
        return false;
      }
      var entry := AuditEntry(None, "", action, "", req.ip);
      if req.user.Some? {
        entry := entry.(userId := Some(req.user.value.id), email := req.user.value.email);
      }
      if !req.isAdmin || req.user.None? {
        DenyAdmin(req, entry, variables, now, fails);
        return false;
      }
      if operation.Mutation? {
        WriteAudit(req, entry.(detail := variables), now, fails);
      }
      return true;
    }

    method DenyAdmin(req: AppRequest?, entry: AuditEntry, variables: string, now: int, fails: nat -> bool)
      requires req != null ==> req.Valid()
      requires req == null ==> !pool.inUse
      modifies pool`db, this`handed, this`denials, InScope(req)`audits, InScope(req)`added
      ensures denials == old(denials) + 1
      ensures var denied := AuditEntry(entry.userId, entry.email, "denied:" + entry.action, variables, entry.ip);
              if req != null
              then req.Valid() && req.audits == old(req.audits) + [denied] && req.added == old(req.added) + [denied] &&
                   handed == old(handed) && pool.db == old(pool.db)
              else handed == old(handed) + [denied] &&
                   Logged(old(pool.db), pool.db, if fails(0) then [] else [denied], now)
    {
      WriteAudit(req, entry.(action := PREFIX_DENIED + entry.action, detail := variables), now, fails);
      denials := denials + 1;
    }
  }
}
