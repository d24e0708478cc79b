/**
 The cases under internal/case and the single statements the process runs on its own, twice: as the
 script of statements each of them runs, and as the one change it makes when it commits.
 */
module Commands {
  import opened Wrappers
  import opened Database
  import opened Scripts

  /** Configuration, and the string library the cases call. */
  datatype Site = Site(trim: string -> string, lower: string -> string, bootstrapAdmin: string, retention: int)

  /** `actor` is CurrentUserID, read before the transaction began. Times are unix seconds, Purge's nanoseconds. */
  datatype Command =
    | BanUser(id: int, reason: string, actor: Option<int>, now: int)
    | UnbanUser(id: int)
    | MakeAdmin(id: int, now: int)
    | RemoveAdmin(id: int, actor: Option<int>)
    | SignIn(oidc: Oidc, email: string, name: string, issued: Option<int>, now: int)
    | Purge(now: int)
    | RecordSignIn(id: int, at: int)
    | WriteAudit(row: AuditRow)
    | SchedulePurge
    | FinishJob(msg: Message)

  const NANOS := 1_000_000_000

  const WITHIN_TX := Route(true, true)

  predicate ValidReason(reason: string) { 1 <= |reason| <= 500 }

  // ---------------------------------------------------------------- the scripts

  function NotifyScript(id: int): Script {
    Enqueue(WITHIN_TX, NotifyUserBanned(id), (enqueued: Reply) =>
      if enqueued.Failed? then Raise else Bump(UserBanned, Return(BanUserPayload(id))))
  }

  function RecordBanScript(id: int, actor: Option<int>, reason: string, now: int): Script {
    Stmt(OnEnv, InsertUserBan(id, actor, reason, now), (inserted: Reply) =>
      if inserted.Failed? then Raise else NotifyScript(id))
  }

  function BanUserScript(site: Site, id: int, reason: string, actor: Option<int>, now: int): Script {
    var trimmed := site.trim(reason);
    if id < 1 || !ValidReason(trimmed) then Return(ErrorPayload(InvalidInput))
    else if actor == Some(id) then Return(ErrorPayload(CannotBanYourself))
    else Stmt(OnEnv, GetUserByID(id), (got: Reply) =>
      if got.NotFound? then Return(ErrorPayload(UserNotFound))
      else if got.Failed? then Raise
      else RecordBanScript(id, actor, trimmed, now))
  }

  function UnbanUserScript(id: int): Script {
    if id < 1 then Return(ErrorPayload(InvalidInput))
    else Stmt(OnEnv, DeleteUserBan(id), (deleted: Reply) =>
      if deleted.Failed? then Raise else Return(UnbanUserPayload(id)))
  }

  function GrantScript(id: int, now: int): Script {
    Stmt(OnEnv, InsertAdmin(id, now), (inserted: Reply) =>
      if inserted.Failed? then Raise
      else Bump(AdminMade, Return(MakeAdminPayload(id))))
  }

  function MakeAdminScript(id: int, now: int): Script {
    if id < 1 then Return(ErrorPayload(InvalidInput))
    else Stmt(OnEnv, GetAdminUserByID(id), (got: Reply) =>
      if got.NotFound? then Return(ErrorPayload(UserNotFound))
      else if !got.AdminUserRow? then Raise
      else if got.row.banReason != "" then Return(ErrorPayload(UserIsBanned))
      else GrantScript(id, now))
  }

  function RemoveAdminScript(id: int, actor: Option<int>): Script {
    if id < 1 then Return(ErrorPayload(InvalidInput))
    else if actor == Some(id) then Return(ErrorPayload(OwnAdminAccess))
    else Stmt(OnEnv, DeleteAdmin(id), (removed: Reply) =>
      if !removed.Affected? then Raise
      else if removed.rows == 0 then
        Stmt(OnEnv, GetAdminByUserID(id), (got: Reply) =>
          if got.AdminRow? then Return(ErrorPayload(LastAdmin))
          else if got.NotFound? then Return(RemoveAdminPayload(id))
          else Raise)
      else Bump(AdminRemoved, Return(RemoveAdminPayload(id))))
  }

  function EnsureAdminScript(site: Site, id: int, user: User, now: int): Script {
    var bootstrap := site.lower(site.trim(site.bootstrapAdmin));
    Stmt(OnEnv, GetAdminByUserID(id), (got: Reply) =>
      if got.AdminRow? then Return(SignedIn(id, user, true))
      else if !got.NotFound? then Raise
      else if bootstrap == "" || bootstrap != user.email then Return(SignedIn(id, user, false))
      else Stmt(OnEnv, CountAdmins, (counted: Reply) =>
        if !counted.Count? then Raise
        else if counted.count > 0 then Return(SignedIn(id, user, false))
        else Stmt(OnEnv, InsertAdmin(id, now), (inserted: Reply) =>
          if inserted.Failed? then Raise else Return(SignedIn(id, user, true)))))
  }

  function SignInScript(site: Site, oidc: Oidc, email: string, name: string, issued: Option<int>, now: int): Script {
    var address := site.lower(site.trim(email));
    if oidc.issuer == "" || oidc.subject == "" || address == "" then Raise
    else Stmt(OnEnv, UpsertUserByOIDC(oidc, address, name, issued, now), (upserted: Reply) =>
      if !upserted.UserRow? then Raise
      else EnsureAdminScript(site, upserted.id, upserted.user, now))
  }

  function Cutoff(now: int, retention: int): int { (now - retention) / NANOS }

  function PurgeScript(site: Site, now: int): Script {
    if site.retention <= 0 then Return(Nothing)
    else Stmt(OnEnv, DeleteAuditLogBefore(Cutoff(now, site.retention)), (deleted: Reply) =>
      if deleted.Failed? then Raise else Return(Nothing))
  }

  /** One statement on a pool: the transaction around it is its own and commits when the statement succeeds. */
  function Statement(op: Op): Script {
    Stmt(OnEnv, op, (r: Reply) => if r.Affected? then Return(Rows(r.rows)) else if r.Failed? then Raise else Return(Nothing))
  }

  function ScriptOf(site: Site, cmd: Command): Script {
    match cmd
    case BanUser(id, reason, actor, now) => BanUserScript(site, id, reason, actor, now)
    case UnbanUser(id) => UnbanUserScript(id)
    case MakeAdmin(id, now) => MakeAdminScript(id, now)
    case RemoveAdmin(id, actor) => RemoveAdminScript(id, actor)
    case SignIn(oidc, email, name, issued, now) => SignInScript(site, oidc, email, name, issued, now)
    case Purge(now) => PurgeScript(site, now)
    case RecordSignIn(id, issued) => Statement(MarkSignIn(id, issued))
    case WriteAudit(row) => Statement(InsertAuditLog(row))
    case SchedulePurge => Statement(CreateMessage(PurgeAuditLog))
    case FinishJob(msg) => Statement(DeleteMessage(msg))
  }

  // ---------------------------------------------------------------- what each command does, at once

  /** Answered: the command commits, with this answer and this database. Rejected: it cannot commit. */
  datatype Verdict = Rejected | Answered(answer: Answer, db: Db, bumps: multiset<Counter>)

  function Refuse(refusal: Refusal, db: Db): Verdict { Answered(ErrorPayload(refusal), db, multiset{}) }

  function ApplyBan(site: Site, id: int, reason: string, actor: Option<int>, now: int, db: Db): Verdict {
    var text := site.trim(reason);
    var notified := db.queue + multiset{NotifyUserBanned(id)};
    if id < 1 || !ValidReason(text) then Refuse(InvalidInput, db)
    else if actor == Some(id) then Refuse(CannotBanYourself, db)
    else if id !in db.users then Refuse(UserNotFound, db)
    else if id in db.bans then
      Answered(BanUserPayload(id), db.(bans := db.bans[id := db.bans[id].(reason := text)], queue := notified),
               multiset{UserBanned})
    else if actor.Some? && actor.value !in db.admins then Rejected
    else
      Answered(BanUserPayload(id), db.(bans := db.bans[id := Ban(actor, text, now)], queue := notified),
               multiset{UserBanned})
  }

  function ApplyMakeAdmin(id: int, now: int, db: Db): Verdict {
    if id < 1 then Refuse(InvalidInput, db)
    else if id !in db.users then Refuse(UserNotFound, db)
    else if BanReason(db, id) != "" then Refuse(UserIsBanned, db)
    else Answered(MakeAdminPayload(id), db.(admins := map[id := now] + db.admins), multiset{AdminMade})
  }

  function ApplyRemoveAdmin(id: int, actor: Option<int>, db: Db): Verdict {
    if id < 1 then Refuse(InvalidInput, db)
    else if actor == Some(id) then Refuse(OwnAdminAccess, db)
    else if id !in db.admins then Answered(RemoveAdminPayload(id), db, multiset{})
    else if db.admins.Keys == {id} then Refuse(LastAdmin, db)
    else if Restricted(db, id) then Rejected
    else Answered(RemoveAdminPayload(id), db.(admins := db.admins - {id}), multiset{AdminRemoved})
  }

  /** The bootstrap rule: an empty admins table and the configured address. */
  predicate Bootstraps(site: Site, address: string, db: Db) {
    db.admins == map[] && address != "" && address == site.lower(site.trim(site.bootstrapAdmin))
  }

  function ApplySignIn(site: Site, oidc: Oidc, email: string, name: string, issued: Option<int>, now: int, db: Db): Verdict {
    var address := site.lower(site.trim(email));
    if oidc.issuer == "" || oidc.subject == "" || address == "" then Rejected
    else
      var e := Upsert(db, oidc, address, name, issued, now);
      var id, user := e.reply.id, e.reply.user;
      if Bootstraps(site, address, db) then
        Answered(SignedIn(id, user, true), e.db.(admins := map[id := now]), multiset{})
      else
        Answered(SignedIn(id, user, id in db.admins), e.db, multiset{})
  }

  function Apply(site: Site, cmd: Command, db: Db): Verdict {
    match cmd
    case BanUser(id, reason, actor, now) => ApplyBan(site, id, reason, actor, now, db)
    case UnbanUser(id) =>
      if id < 1 then Refuse(InvalidInput, db)
      else Answered(UnbanUserPayload(id), db.(bans := db.bans - {id}), multiset{})
    case MakeAdmin(id, now) => ApplyMakeAdmin(id, now, db)
    case RemoveAdmin(id, actor) => ApplyRemoveAdmin(id, actor, db)
    case SignIn(oidc, email, name, issued, now) => ApplySignIn(site, oidc, email, name, issued, now, db)
    case Purge(now) =>
      if site.retention <= 0 then Answered(Nothing, db, multiset{})
      else Answered(Nothing, Exec(db, DeleteAuditLogBefore(Cutoff(now, site.retention))).db, multiset{})
    case RecordSignIn(id, issued) =>
      var e := MarkSignInRows(db, id, issued);
      Answered(Rows(e.reply.rows), e.db, multiset{})
    case WriteAudit(row) => Answered(Nothing, Exec(db, InsertAuditLog(row)).db, multiset{})
    case SchedulePurge => Answered(Nothing, db.(queue := db.queue + multiset{PurgeAuditLog}), multiset{})
    case FinishJob(msg) =>
      Answered(Rows(if msg in db.queue then 1 else 0), db.(queue := db.queue - multiset{msg}), multiset{})
  }

  // ---------------------------------------------------------------- the scripts do what the commands say

  lemma EnsureAdminIsShort(site: Site, id: int, user: User, now: int)
    ensures Within(3, EnsureAdminScript(site, id, user, now))
    ensures AlwaysTo(4, Tidy, EnsureAdminScript(site, id, user, now))
  {
  }

  lemma SignInIsShort(site: Site, oidc: Oidc, email: string, name: string, issued: Option<int>, now: int)
    ensures Within(4, SignInScript(site, oidc, email, name, issued, now))
    ensures AlwaysTo(5, Tidy, SignInScript(site, oidc, email, name, issued, now))
  {
    var s := SignInScript(site, oidc, email, name, issued, now);
    if s.Stmt? {
      forall r: Reply ensures Within(3, s.next(r)) && AlwaysTo(4, Tidy, s.next(r)) {
        if r.UserRow? {
          EnsureAdminIsShort(site, r.id, r.user, now);
        }
      }
    }
  }

  lemma RecordBanIsShort(id: int, actor: Option<int>, reason: string, now: int)
    ensures Within(3, RecordBanScript(id, actor, reason, now))
    ensures AlwaysTo(4, Tidy, RecordBanScript(id, actor, reason, now))
  {
  }

  lemma BanUserIsShort(site: Site, id: int, reason: string, actor: Option<int>, now: int)
    ensures Within(4, BanUserScript(site, id, reason, actor, now))
    ensures AlwaysTo(5, Tidy, BanUserScript(site, id, reason, actor, now))
  {
    RecordBanIsShort(id, actor, site.trim(reason), now);
  }

  lemma MakeAdminIsShort(id: int, now: int)
    ensures Within(4, MakeAdminScript(id, now)) && AlwaysTo(5, Tidy, MakeAdminScript(id, now))
  {
  }

  lemma RemoveAdminIsShort(id: int, actor: Option<int>)
    ensures Within(4, RemoveAdminScript(id, actor)) && AlwaysTo(5, Tidy, RemoveAdminScript(id, actor))
  {
  }

  lemma StatementIsShort(op: Op)
    ensures Within(4, Statement(op)) && AlwaysTo(5, Tidy, Statement(op))
  {
  }

  /**
   Every case finishes within four steps, and every statement and enqueue in it is made on the transaction's
   env, none on the app around it or its baseWrite; so it never waits, whether a request is in scope or not. A
   metric is the last thing before its answer.
   */
  lemma CasesAreWellBehaved(site: Site, cmd: Command)
    ensures Within(4, ScriptOf(site, cmd))
    ensures Always(Tidy, ScriptOf(site, cmd))
    ensures forall inRequest :: Always(NoEscape(inRequest), ScriptOf(site, cmd))
  {
    var s := ScriptOf(site, cmd);
    match cmd {
      case BanUser(id, reason, actor, now) => BanUserIsShort(site, id, reason, actor, now);
      case MakeAdmin(id, now) => MakeAdminIsShort(id, now);
      case RemoveAdmin(id, actor) => RemoveAdminIsShort(id, actor);
      case SignIn(oidc, email, name, issued, now) => SignInIsShort(site, oidc, email, name, issued, now);
      case RecordSignIn(id, at) => StatementIsShort(MarkSignIn(id, at));
      case WriteAudit(row) => StatementIsShort(InsertAuditLog(row));
      case SchedulePurge => StatementIsShort(CreateMessage(PurgeAuditLog));
      case FinishJob(msg) => StatementIsShort(DeleteMessage(msg));
      case _ =>
    }
    forall n: nat ensures AlwaysTo(n, Tidy, s) {
      ShortScriptsObey(4, n, Tidy, s);
    }
    forall inRequest, n: nat ensures AlwaysTo(n, NoEscape(inRequest), s) {
      TidyIsNoEscape(n, s, inRequest);
    }
  }

  lemma OneAdminLeft(admins: map<int, int>, id: int)
    requires id in admins
    ensures |admins| <= 1 <==> admins.Keys == {id}
  {
    if |admins| <= 1 {
      assert |admins.Keys - {id}| == 0;
    }
  }

  /** `end` is a way the command's script can finish on `db`; if it commits, it is the command's one change. */
  ghost predicate Faithful(site: Site, cmd: Command, db: Db, end: Config) {
    end.rest.Return? ==> Apply(site, cmd, db) == Answered(end.rest.answer, end.db, end.bumps)
  }

  lemma CountOnce(counter: Counter)
    ensures multiset{} + multiset{counter} == multiset{counter}
  {
  }

  lemma NotifyEnds(id: int, db: Db, base: Db, end: Config)
    requires Ends(2, Config(NotifyScript(id), db, multiset{}, base), end)
    ensures end.rest.Return? ==>
              end == Config(Return(BanUserPayload(id)), db.(queue := db.queue + multiset{NotifyUserBanned(id)}),
                            multiset{UserBanned}, base)
  {
    CountOnce(UserBanned);
  }

  lemma RecordBanEnds(id: int, actor: Option<int>, reason: string, now: int, db: Db, end: Config)
    requires Ends(3, Start(RecordBanScript(id, actor, reason, now), db), end)
    ensures var e := UpsertBan(db, id, actor, reason, now);
            end.rest.Return? ==>
              !e.reply.Failed? &&
              end == Config(Return(BanUserPayload(id)), e.db.(queue := e.db.queue + multiset{NotifyUserBanned(id)}),
                            multiset{UserBanned}, db)
  {
    var start, e := Start(RecordBanScript(id, actor, reason, now), db), UpsertBan(db, id, actor, reason, now);
    assert Advance(start, true) == Config(Raise, db, multiset{}, db);
    if end.rest.Return? {
      assert Ends(2, Advance(start, false), end);
      assert Advance(start, false) == Config(if e.reply.Failed? then Raise else NotifyScript(id), e.db, multiset{}, db);
      if !e.reply.Failed? {
        NotifyEnds(id, e.db, db, end);
      }
    }
  }

  lemma BanUserFaithful(site: Site, id: int, reason: string, actor: Option<int>, now: int, db: Db, end: Config)
    requires Ends(4, Start(BanUserScript(site, id, reason, actor, now), db), end)
    ensures Faithful(site, BanUser(id, reason, actor, now), db, end)
  {
    var start := Start(BanUserScript(site, id, reason, actor, now), db);
    if start.rest.Stmt? && id in db.users && end.rest.Return? {
      assert Advance(start, true) == Config(Raise, db, multiset{}, db);
      assert Advance(start, false) == Start(RecordBanScript(id, actor, site.trim(reason), now), db);
      assert Ends(3, Advance(start, false), end);
      RecordBanEnds(id, actor, site.trim(reason), now, db, end);
    }
  }

  /** `on conflict do nothing`: an admin keeps the row there is. */
  lemma GrantedRows(id: int, now: int, db: Db)
    requires id in db.users
    ensures Exec(db, InsertAdmin(id, now)) == Effect(db.(admins := map[id := now] + db.admins), Done)
  {
  }

  lemma GrantEnds(id: int, now: int, db: Db, end: Config)
    requires id in db.users
    requires Ends(3, Start(GrantScript(id, now), db), end)
    ensures end.rest.Return? ==>
              end == Config(Return(MakeAdminPayload(id)), db.(admins := map[id := now] + db.admins),
                            multiset{AdminMade}, db)
  {
    CountOnce(AdminMade);
    GrantedRows(id, now, db);
    var start, granted := Start(GrantScript(id, now), db), db.(admins := map[id := now] + db.admins);
    assert Advance(start, true) == Config(Raise, db, multiset{}, db);
    assert Advance(start, false) == Config(Bump(AdminMade, Return(MakeAdminPayload(id))), granted, multiset{}, db);
    assert end.rest.Return? ==> Ends(2, Advance(start, false), end);
  }

  lemma MakeAdminFaithful(id: int, now: int, site: Site, db: Db, end: Config)
    requires Ends(4, Start(MakeAdminScript(id, now), db), end)
    ensures Faithful(site, MakeAdmin(id, now), db, end)
  {
    var start := Start(MakeAdminScript(id, now), db);
    if start.rest.Stmt? && id in db.users && BanReason(db, id) == "" && end.rest.Return? {
      assert Advance(start, true) == Config(Raise, db, multiset{}, db);
      assert Advance(start, false) == Start(GrantScript(id, now), db);
      assert Ends(3, Advance(start, false), end);
      GrantEnds(id, now, db, end);
    }
  }

  lemma RemoveAdminFaithful(id: int, actor: Option<int>, site: Site, db: Db, end: Config)
    requires Ends(4, Start(RemoveAdminScript(id, actor), db), end)
    ensures Faithful(site, RemoveAdmin(id, actor), db, end)
  {
    DeleteAdminOutcome(db, id);
    if id in db.admins {
      OneAdminLeft(db.admins, id);
    }
  }

  lemma FirstAdminEnds(site: Site, id: int, user: User, now: int, db: Db, base: Db, end: Config)
    requires Bootstraps(site, user.email, db)
    requires Ends(3, Config(EnsureAdminScript(site, id, user, now), db, multiset{}, base), end)
    ensures end.rest.Return? ==>
              end == Config(Return(SignedIn(id, user, true)), db.(admins := map[id := now]), multiset{}, base)
  {
  }

  lemma EnsureAdminEnds(site: Site, id: int, user: User, now: int, db: Db, base: Db, end: Config)
    requires Ends(3, Config(EnsureAdminScript(site, id, user, now), db, multiset{}, base), end)
    ensures end.rest.Return? && Bootstraps(site, user.email, db) ==>
              end == Config(Return(SignedIn(id, user, true)), db.(admins := map[id := now]), multiset{}, base)
    ensures end.rest.Return? && !Bootstraps(site, user.email, db) ==>
              end == Config(Return(SignedIn(id, user, id in db.admins)), db, multiset{}, base)
  {
    if Bootstraps(site, user.email, db) {
      FirstAdminEnds(site, id, user, now, db, base, end);
    } else if |db.admins| == 0 {
      assert db.admins == map[];
    }
  }

  lemma SignInFaithful(site: Site, oidc: Oidc, email: string, name: string, issued: Option<int>, now: int, db: Db, end: Config)
    requires Ends(4, Start(SignInScript(site, oidc, email, name, issued, now), db), end)
    ensures Faithful(site, SignIn(oidc, email, name, issued, now), db, end)
  {
    var address := site.lower(site.trim(email));
    var start := Start(SignInScript(site, oidc, email, name, issued, now), db);
    if oidc.issuer != "" && oidc.subject != "" && address != "" && end.rest.Return? {
      var e := Upsert(db, oidc, address, name, issued, now);
      assert Advance(start, true) == Config(Raise, db, multiset{}, db);
      assert Advance(start, false) ==
        Config(EnsureAdminScript(site, e.reply.id, e.reply.user, now), e.db, multiset{}, db);
      assert Ends(3, Advance(start, false), end);
      EnsureAdminEnds(site, e.reply.id, e.reply.user, now, e.db, db, end);
    }
  }

  lemma UnbanUserFaithful(id: int, site: Site, db: Db, end: Config)
    requires Ends(4, Start(UnbanUserScript(id), db), end)
    ensures Faithful(site, UnbanUser(id), db, end)
  {
  }

  lemma StatementEnds(op: Op, db: Db, end: Config)
    requires Ends(4, Start(Statement(op), db), end) && end.rest.Return?
    ensures var e := Exec(db, op);
            !e.reply.Failed? &&
            end == Config(Return(if e.reply.Affected? then Rows(e.reply.rows) else Nothing), e.db, multiset{}, db)
  {
  }

  /** The statement a command consists of, where it is only one. */
  function OnlyStatement(cmd: Command): Op
    requires cmd.RecordSignIn? || cmd.WriteAudit? || cmd.SchedulePurge? || cmd.FinishJob?
  {
    match cmd
    case RecordSignIn(id, issued) => MarkSignIn(id, issued)
    case WriteAudit(row) => InsertAuditLog(row)
    case SchedulePurge => CreateMessage(PurgeAuditLog)
    case FinishJob(msg) => DeleteMessage(msg)
  }

  lemma StatementFaithful(site: Site, cmd: Command, db: Db, end: Config)
    requires cmd.RecordSignIn? || cmd.WriteAudit? || cmd.SchedulePurge? || cmd.FinishJob?
    requires Ends(4, Start(Statement(OnlyStatement(cmd)), db), end)
    ensures Faithful(site, cmd, db, end)
  {
    if end.rest.Return? {
      StatementEnds(OnlyStatement(cmd), db, end);
      var e := Exec(db, OnlyStatement(cmd));
      assert Apply(site, cmd, db) == Answered(if e.reply.Affected? then Rows(e.reply.rows) else Nothing, e.db, multiset{});
    }
  }

  lemma PurgeFaithful(site: Site, now: int, db: Db, end: Config)
    requires Ends(4, Start(PurgeScript(site, now), db), end)
    ensures Faithful(site, Purge(now), db, end)
  {
  }

  /**
   A command's closure, whatever fails inside it, either returns an error or leaves exactly the command's
   one change: statement failures decide whether it commits, never what it commits.
   */
  lemma CommandsAreAtomic(site: Site, cmd: Command, db: Db, choices: seq<bool>)
    requires Final(Steps(Start(ScriptOf(site, cmd), db), choices).rest)
    ensures Faithful(site, cmd, db, Steps(Start(ScriptOf(site, cmd), db), choices))
  {
    var end := Steps(Start(ScriptOf(site, cmd), db), choices);
    CasesAreWellBehaved(site, cmd);
    FinishedRunsEnd(4, Start(ScriptOf(site, cmd), db), choices);
    match cmd
    case BanUser(id, reason, actor, now) => BanUserFaithful(site, id, reason, actor, now, db, end);
    case MakeAdmin(id, now) => MakeAdminFaithful(id, now, site, db, end);
    case RemoveAdmin(id, actor) => RemoveAdminFaithful(id, actor, site, db, end);
    case SignIn(oidc, email, name, issued, now) => SignInFaithful(site, oidc, email, name, issued, now, db, end);
    case UnbanUser(id) => UnbanUserFaithful(id, site, db, end);
    case Purge(now) => PurgeFaithful(site, now, db, end);
    case _ => StatementFaithful(site, cmd, db, end);
  }

  /** The run in which no statement fails. */
  function Smooth(n: nat, c: Config): Config
    decreases n
  {
    if n == 0 || Final(c.rest) then c else Smooth(n - 1, Advance(c, false))
  }

  lemma {:induction false} SmoothIsARun(n: nat, c: Config)
    ensures Steps(c, seq(n, i => false)) == Smooth(n, c)
    decreases n
  {
    var choices := seq(n, i => false);
    if Final(c.rest) {
      StepsFinal(c, choices);
    } else if n > 0 {
      StepsUnroll(c, choices);
      assert choices[1..] == seq(n - 1, i => false);
      SmoothIsARun(n - 1, Advance(c, false));
    }
  }

  lemma EnsureAdminRunsThrough(site: Site, id: int, user: User, now: int, db: Db, base: Db)
    requires id in db.users
    ensures Smooth(3, Config(EnsureAdminScript(site, id, user, now), db, multiset{}, base)).rest.Return?
  {
  }

  lemma SignInRunsThrough(site: Site, cmd: Command, db: Db)
    requires cmd.SignIn? && Apply(site, cmd, db).Answered? && Schema(db)
    ensures Smooth(4, Start(ScriptOf(site, cmd), db)).rest.Return?
  {
    var address := site.lower(site.trim(cmd.email));
    var e := Upsert(db, cmd.oidc, address, cmd.name, cmd.issued, cmd.now);
    var start := Start(ScriptOf(site, cmd), db);
    assert Advance(start, false) ==
      Config(EnsureAdminScript(site, e.reply.id, e.reply.user, cmd.now), e.db, multiset{}, db);
    EnsureAdminRunsThrough(site, e.reply.id, e.reply.user, cmd.now, e.db, db);
  }

  lemma BanRunsThrough(site: Site, cmd: Command, db: Db)
    requires cmd.BanUser? && Apply(site, cmd, db).Answered?
    ensures Smooth(4, Start(ScriptOf(site, cmd), db)).rest.Return?
  {
  }

  lemma RemoveAdminRunsThrough(site: Site, cmd: Command, db: Db)
    requires cmd.RemoveAdmin? && Apply(site, cmd, db).Answered?
    ensures Smooth(4, Start(ScriptOf(site, cmd), db)).rest.Return?
  {
  }

  lemma MakeAdminRunsThrough(site: Site, cmd: Command, db: Db)
    requires cmd.MakeAdmin? && Apply(site, cmd, db).Answered?
    ensures Smooth(4, Start(ScriptOf(site, cmd), db)).rest.Return?
  {
  }

  lemma UnbanAndPurgeRunThrough(site: Site, cmd: Command, db: Db)
    requires (cmd.UnbanUser? || cmd.Purge?) && Apply(site, cmd, db).Answered?
    ensures Smooth(4, Start(ScriptOf(site, cmd), db)).rest.Return?
  {
  }

  lemma StatementsRunThrough(site: Site, cmd: Command, db: Db)
    requires cmd.RecordSignIn? || cmd.WriteAudit? || cmd.SchedulePurge? || cmd.FinishJob?
    requires Apply(site, cmd, db).Answered?
    ensures Smooth(4, Start(ScriptOf(site, cmd), db)).rest.Return?
  {
    match cmd
    case RecordSignIn(id, issued) => StatementRunsThrough(MarkSignIn(id, issued), db);
    case WriteAudit(row) => StatementRunsThrough(InsertAuditLog(row), db);
    case SchedulePurge => StatementRunsThrough(CreateMessage(PurgeAuditLog), db);
    case FinishJob(msg) => StatementRunsThrough(DeleteMessage(msg), db);
  }

  lemma StatementRunsThrough(op: Op, db: Db)
    requires !Exec(db, op).reply.Failed?
    ensures Smooth(4, Start(Statement(op), db)).rest.Return?
  {
  }

  lemma RunsThrough(site: Site, cmd: Command, db: Db)
    requires Apply(site, cmd, db).Answered? && Schema(db)
    ensures Smooth(4, Start(ScriptOf(site, cmd), db)).rest.Return?
  {
    match cmd
    case SignIn(_, _, _, _, _) => SignInRunsThrough(site, cmd, db);
    case BanUser(_, _, _, _) => BanRunsThrough(site, cmd, db);
    case RemoveAdmin(_, _) => RemoveAdminRunsThrough(site, cmd, db);
    case MakeAdmin(_, _) => MakeAdminRunsThrough(site, cmd, db);
    case UnbanUser(_) => UnbanAndPurgeRunThrough(site, cmd, db);
    case Purge(_) => UnbanAndPurgeRunThrough(site, cmd, db);
    case _ => StatementsRunThrough(site, cmd, db);
  }

  /**
   When no statement fails a command returns an answer exactly when its one change is possible; so the
   commands' changes are neither more nor less than what their scripts can commit.
   */
  lemma CommandsCommitUnlessRejected(site: Site, cmd: Command, db: Db)
    requires Schema(db)
    ensures Final(Steps(Start(ScriptOf(site, cmd), db), seq(4, i => false)).rest)
    ensures Steps(Start(ScriptOf(site, cmd), db), seq(4, i => false)).rest.Return? <==> Apply(site, cmd, db).Answered?
  {
    var start, choices := Start(ScriptOf(site, cmd), db), seq(4, i => false);
    SmoothIsARun(4, start);
    CasesAreWellBehaved(site, cmd);
    SmoothFinishes(4, start);
    CommandsAreAtomic(site, cmd, db, choices);
    if Apply(site, cmd, db).Answered? {
      RunsThrough(site, cmd, db);
    }
  }

  /** However far its run is followed: once a command in which nothing failed has ended, it has answered iff it could. */
  lemma FaultlessCommandsAnswer(site: Site, cmd: Command, db: Db, calls: nat -> bool, n: nat)
    requires Schema(db) && (forall i :: !calls(i)) && Final(Steps(Start(ScriptOf(site, cmd), db), Under(calls, n)).rest)
    ensures Steps(Start(ScriptOf(site, cmd), db), Under(calls, n)).rest.Return? <==> Apply(site, cmd, db).Answered?
  {
    var start := Start(ScriptOf(site, cmd), db);
    CommandsCommitUnlessRejected(site, cmd, db);
    assert Under(calls, 4) == seq(4, i => false);
    if n <= 4 {
      EndedRunsStay(start, calls, n, 4);
    } else {
      EndedRunsStay(start, calls, 4, n);
    }
  }

  lemma {:induction false} SmoothFinishes(n: nat, c: Config)
    requires Within(n, c.rest)
    ensures Final(Smooth(n, c).rest)
    decreases n
  {
    if !Final(c.rest) {
      SmoothFinishes(n - 1, Advance(c, false));
    }
  }
}
