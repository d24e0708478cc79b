/**
 The tables and the SQL statements over them.

 Exec gives each statement the meaning SQL gives it: an update or a delete acts on every row its
 `where` clause selects, a constraint violation fails the whole statement and changes nothing.
 Strings stand for Go's byte strings; times are unix seconds, as the integer columns hold them.
 */
module Database {
  import opened Wrappers

  datatype Oidc = Oidc(issuer: string, subject: string)

  datatype User = User(oidc: Oidc, email: string, name: string, lastSignin: Option<int>, createdAt: int)

  datatype Ban = Ban(bannedBy: Option<int>, reason: string, createdAt: int)

  datatype AuditRow = AuditRow(
    userId: Option<int>, email: string, action: string, detail: string, ip: string, createdAt: int)

  datatype Message = PurgeAuditLog | NotifyUserBanned(userId: int)

  /** `byOidc` is the unique index users_oidc_identity. */
  datatype Db = Db(
    users: map<int, User>,
    byOidc: map<Oidc, int>,
    nextUserId: int,
    admins: map<int, int>,
    bans: map<int, Ban>,
    audit: map<int, AuditRow>,
    nextAuditId: int,
    queue: multiset<Message>)

  datatype Op =
    | GetUserByID(id: int)
    | GetAdminUserByID(id: int)
    | GetAdminByUserID(id: int)
    | CountAdmins
    | UpsertUserByOIDC(oidc: Oidc, email: string, name: string, lastSignin: Option<int>, at: int)
    | InsertAdmin(id: int, at: int)
    | DeleteAdmin(id: int)
    | InsertUserBan(id: int, bannedBy: Option<int>, reason: string, at: int)
    | DeleteUserBan(id: int)
    | MarkSignIn(id: int, issued: int)
    | InsertAuditLog(row: AuditRow)
    | DeleteAuditLogBefore(cutoff: int)
    | CreateMessage(msg: Message)
    | DeleteMessage(msg: Message)

  /** The generated read queries; the others are write queries. */
  predicate IsQuery(op: Op) {
    op.GetUserByID? || op.GetAdminUserByID? || op.GetAdminByUserID? || op.CountAdmins?
  }

  /** The row the identity query and the admin-user query both select. */
  datatype IdentityRow = IdentityRow(
    id: int, email: string, lastSignin: Option<int>, isAdmin: bool, banReason: string)

  datatype Reply =
    | Failed
    | NotFound
    | Done
    | Refused
    | Affected(rows: nat)
    | Count(count: nat)
    | UserRow(id: int, user: User)
    | AdminRow(adminId: int)
    | AdminUserRow(row: IdentityRow)

  datatype Effect = Effect(db: Db, reply: Reply)

  /** `coalesce(b.reason, '')` over the left join: no ban row reads as the empty string. */
  function BanReason(db: Db, id: int): string {
    if id in db.bans then db.bans[id].reason else ""
  }

  function IdentityOf(db: Db, id: int): IdentityRow
    requires id in db.users
  {
    IdentityRow(id, db.users[id].email, db.users[id].lastSignin, id in db.admins, BanReason(db, id))
  }

  function GetIdentityByOIDC(db: Db, oidc: Oidc): Option<IdentityRow> {
    if oidc in db.byOidc && db.byOidc[oidc] in db.users then Some(IdentityOf(db, db.byOidc[oidc])) else None
  }

  /** The rows `user_bans.banned_by` still points at; `on delete restrict` protects them. */
  predicate Restricted(db: Db, admin: int) {
    exists b | b in db.bans :: db.bans[b].bannedBy == Some(admin)
  }

  function Upsert(db: Db, oidc: Oidc, email: string, name: string, last: Option<int>, at: int): Effect {
    if oidc in db.byOidc && db.byOidc[oidc] in db.users then
      var id := db.byOidc[oidc];
      var user := db.users[id].(email := email, name := name, lastSignin := last);
      Effect(db.(users := map i | i in db.users :: if i == id then user else db.users[i]), UserRow(id, user))
    else
      var id := db.nextUserId;
      var user := User(oidc, email, name, last, at);
      Effect(db.(users := db.users[id := user], byOidc := db.byOidc[oidc := id], nextUserId := id + 1),
             UserRow(id, user))
  }

  /** `delete from admins where user_id = ? and (select count(*) from admins) > 1` */
  function DeleteAdminRows(db: Db, id: int): Effect {
    var kept := map i | i in db.admins && !(i == id && |db.admins| > 1) :: db.admins[i];
    if kept == db.admins then Effect(db, Affected(0))
    else if Restricted(db, id) then Effect(db, Failed)
    else Effect(db.(admins := kept), Affected(1))
  }

  /** `on conflict(user_id) do update set reason = excluded.reason`: nothing else of the row moves. */
  function UpsertBan(db: Db, id: int, bannedBy: Option<int>, reason: string, at: int): Effect {
    if id in db.bans then
      Effect(db.(bans := db.bans[id := db.bans[id].(reason := reason)]), Done)
    else if id !in db.users || (bannedBy.Some? && bannedBy.value !in db.admins) then
      Effect(db, Failed)
    else
      Effect(db.(bans := db.bans[id := Ban(bannedBy, reason, at)]), Done)
  }

  predicate SigninAdvances(user: User, issued: int) {
    user.lastSignin.None? || user.lastSignin.value < issued
  }

  function MarkSignInRows(db: Db, id: int, issued: int): Effect {
    var marked := map i | i in db.users ::
      if i == id && SigninAdvances(db.users[i], issued)
      then db.users[i].(lastSignin := Some(issued)) else db.users[i];
    Effect(db.(users := marked),
           Affected(if id in db.users && SigninAdvances(db.users[id], issued) then 1 else 0))
  }

  /** What one statement does when nothing interferes with it. */
  function Exec(db: Db, op: Op): Effect {
    match op
    case GetUserByID(id) =>
      Effect(db, if id in db.users then UserRow(id, db.users[id]) else NotFound)
    case GetAdminUserByID(id) =>
      Effect(db, if id in db.users then AdminUserRow(IdentityOf(db, id)) else NotFound)
    case GetAdminByUserID(id) =>
      Effect(db, if id in db.admins then AdminRow(id) else NotFound)
    case CountAdmins => Effect(db, Count(|db.admins|))
    case UpsertUserByOIDC(oidc, email, name, last, at) => Upsert(db, oidc, email, name, last, at)
    case InsertAdmin(id, at) =>
      if id in db.admins then Effect(db, Done)
      else if id !in db.users then Effect(db, Failed)
      else Effect(db.(admins := db.admins[id := at]), Done)
    case DeleteAdmin(id) => DeleteAdminRows(db, id)
    case InsertUserBan(id, bannedBy, reason, at) => UpsertBan(db, id, bannedBy, reason, at)
    case DeleteUserBan(id) => Effect(db.(bans := map i | i in db.bans && i != id :: db.bans[i]), Done)
    case MarkSignIn(id, issued) => MarkSignInRows(db, id, issued)
    case InsertAuditLog(row) =>
      Effect(db.(audit := db.audit[db.nextAuditId := row], nextAuditId := db.nextAuditId + 1), Done)
    case DeleteAuditLogBefore(cutoff) =>
      Effect(db.(audit := map i | i in db.audit && !(db.audit[i].createdAt < cutoff) :: db.audit[i]), Done)
    case CreateMessage(msg) => Effect(db.(queue := db.queue + multiset{msg}), Done)
    case DeleteMessage(msg) =>
      Effect(db.(queue := db.queue - multiset{msg}), Affected(if msg in db.queue then 1 else 0))
  }

  /** A statement that fails, for whatever reason, is undone by SQLite and only reports it. */
  function ExecOrFail(db: Db, op: Op, fault: bool): Effect {
    if fault then Effect(db, Failed) else Exec(db, op)
  }

  ghost predicate ForeignKeys(db: Db) {
    && db.admins.Keys <= db.users.Keys
    && db.bans.Keys <= db.users.Keys
    && (forall b | b in db.bans :: db.bans[b].bannedBy.Some? ==> db.bans[b].bannedBy.value in db.admins)
  }

  ghost predicate UniqueIdentities(db: Db) {
    && (forall i | i in db.users :: 1 <= i < db.nextUserId && db.users[i].oidc in db.byOidc && db.byOidc[db.users[i].oidc] == i)
    && (forall o | o in db.byOidc :: db.byOidc[o] in db.users && db.users[db.byOidc[o]].oidc == o)
  }

  ghost predicate FreshAuditIds(db: Db) {
    1 <= db.nextAuditId && forall i | i in db.audit :: 1 <= i < db.nextAuditId
  }

  /** What the schema promises of every state the database can be in. */
  ghost predicate Schema(db: Db) {
    ForeignKeys(db) && UniqueIdentities(db) && FreshAuditIds(db) && 1 <= db.nextUserId
  }

  /** Every ban row carries a reason, so the '' of the left join means exactly "no ban row". */
  ghost predicate Reasoned(db: Db) {
    forall b | b in db.bans :: db.bans[b].reason != ""
  }

  lemma UpsertKeepsSchema(db: Db, oidc: Oidc, email: string, name: string, last: Option<int>, at: int)
    requires Schema(db)
    ensures Schema(Upsert(db, oidc, email, name, last, at).db)
  {
    var db' := Upsert(db, oidc, email, name, last, at).db;
    assert UniqueIdentities(db') by {
      forall i | i in db'.users
        ensures 1 <= i < db'.nextUserId && db'.users[i].oidc in db'.byOidc && db'.byOidc[db'.users[i].oidc] == i
      {
        assert i in db.users || i == db.nextUserId;
      }
    }
    assert ForeignKeys(db');
  }

  lemma MarkKeepsSchema(db: Db, id: int, issued: int)
    requires Schema(db)
    ensures Schema(MarkSignInRows(db, id, issued).db)
  {
  }

  lemma DeleteAdminKeepsSchema(db: Db, id: int)
    requires Schema(db)
    ensures Schema(DeleteAdminRows(db, id).db)
  {
  }

  lemma AccessKeepsSchema(db: Db, op: Op)
    requires Schema(db) && (op.InsertAdmin? || op.InsertUserBan? || op.DeleteUserBan?)
    ensures Schema(Exec(db, op).db)
  {
  }

  lemma LogKeepsSchema(db: Db, op: Op)
    requires Schema(db) && (op.InsertAuditLog? || op.DeleteAuditLogBefore? || op.CreateMessage? || op.DeleteMessage?)
    ensures Schema(Exec(db, op).db)
  {
  }

  /** The foreign keys, the unique index and the autoincrement counters survive every statement, failing or not. */
  lemma ExecKeepsSchema(db: Db, op: Op, fault: bool)
    requires Schema(db)
    ensures Schema(ExecOrFail(db, op, fault).db)
  {
    match op
    case UpsertUserByOIDC(oidc, email, name, last, at) => UpsertKeepsSchema(db, oidc, email, name, last, at);
    case MarkSignIn(id, issued) => MarkKeepsSchema(db, id, issued);
    case DeleteAdmin(id) => DeleteAdminKeepsSchema(db, id);
    case InsertAdmin(_, _) => AccessKeepsSchema(db, op);
    case InsertUserBan(_, _, _, _) => AccessKeepsSchema(db, op);
    case DeleteUserBan(_) => AccessKeepsSchema(db, op);
    case GetUserByID(_) =>
    case GetAdminUserByID(_) =>
    case GetAdminByUserID(_) =>
    case CountAdmins =>
    case _ => LogKeepsSchema(db, op);
  }

  /** A new installation. */
  const EMPTY_DB := Db(map[], map[], 1, map[], map[], map[], 1, multiset{})

  lemma EmptySchema()
    ensures Schema(EMPTY_DB) && Reasoned(EMPTY_DB)
  {
  }

  /** The sentinel of the identity query is exact as long as every ban carries a reason. */
  lemma BanSentinelIsExact(db: Db, oidc: Oidc)
    requires Schema(db) && Reasoned(db) && oidc in db.byOidc
    ensures GetIdentityByOIDC(db, oidc).Some?
    ensures GetIdentityByOIDC(db, oidc).value.id == db.byOidc[oidc]
    ensures GetIdentityByOIDC(db, oidc).value.banReason == "" <==> db.byOidc[oidc] !in db.bans
    ensures GetIdentityByOIDC(db, oidc).value.isAdmin <==> db.byOidc[oidc] in db.admins
  {
  }

  /**
   The guarded delete, in terms a caller can check: it removes the row exactly when the target is one
   of several admins and no standing ban names them; it errors exactly when a standing ban does.
   */
  lemma DeleteAdminOutcome(db: Db, id: int)
    ensures Exec(db, DeleteAdmin(id)).reply.Failed? <==>
            id in db.admins && |db.admins| > 1 && Restricted(db, id)
    ensures Exec(db, DeleteAdmin(id)).reply == Affected(1) <==>
            id in db.admins && |db.admins| > 1 && !Restricted(db, id)
    ensures Exec(db, DeleteAdmin(id)).reply == Affected(0) <==> id !in db.admins || |db.admins| <= 1
    ensures !Exec(db, DeleteAdmin(id)).reply.Affected? || Exec(db, DeleteAdmin(id)).reply.rows == 0
            ==> Exec(db, DeleteAdmin(id)).db == db
    ensures Exec(db, DeleteAdmin(id)).reply == Affected(1)
            ==> Exec(db, DeleteAdmin(id)).db == db.(admins := db.admins - {id})
  {
  }

  // ---------------------------------------------------------------- what the statements store, column by column

  /** Both identity queries select the columns of one user, with a left join to each of the other tables. */
  lemma IdentityIsTheRow(db: Db, id: int)
    requires Schema(db) && id in db.users
    ensures var row := GetIdentityByOIDC(db, db.users[id].oidc);
            && Exec(db, GetAdminUserByID(id)) == Effect(db, if row.Some? then AdminUserRow(row.value) else NotFound)
            && row.Some? && row.value.id == id && row.value.email == db.users[id].email
            && row.value.lastSignin == db.users[id].lastSignin && (row.value.isAdmin <==> id in db.admins)
            && row.value.banReason == (if id in db.bans then db.bans[id].reason else "")
  {
  }

  lemma UnknownIdentities(db: Db, oidc: Oidc, id: int)
    requires Schema(db)
    ensures GetIdentityByOIDC(db, oidc).None? <==> forall i | i in db.users :: db.users[i].oidc != oidc
    ensures id !in db.users ==> Exec(db, GetUserByID(id)).reply.NotFound? && Exec(db, GetAdminUserByID(id)).reply.NotFound?
    ensures id in db.users ==> Exec(db, GetUserByID(id)) == Effect(db, UserRow(id, db.users[id]))
    ensures Exec(db, GetAdminByUserID(id)) == Effect(db, if id in db.admins then AdminRow(id) else NotFound)
    ensures Exec(db, CountAdmins) == Effect(db, Count(|db.admins.Keys|))
  {
    if oidc in db.byOidc {
      assert db.users[db.byOidc[oidc]].oidc == oidc;
    }
  }

  /** No row of any table differs but this user's. */
  ghost predicate OnlyUserMoved(db: Db, db': Db, id: int) {
    && db'.users.Keys == db.users.Keys + {id} && (forall i | i in db.users && i != id :: db'.users[i] == db.users[i])
    && db'.admins == db.admins && db'.bans == db.bans && db'.queue == db.queue
    && db'.audit == db.audit && db'.nextAuditId == db.nextAuditId
  }

  lemma UpsertRefreshes(db: Db, oidc: Oidc, id: int, email: string, name: string, last: Option<int>, at: int)
    requires Schema(db) && id in db.users && db.users[id].oidc == oidc
    ensures var e := Exec(db, UpsertUserByOIDC(oidc, email, name, last, at));
            && e.reply == UserRow(id, User(oidc, email, name, last, db.users[id].createdAt))
            && OnlyUserMoved(db, e.db, id) && e.db.users[id] == e.reply.user
  {
  }

  lemma UpsertInserts(db: Db, oidc: Oidc, email: string, name: string, last: Option<int>, at: int)
    requires Schema(db) && forall i | i in db.users :: db.users[i].oidc != oidc
    ensures var e := Exec(db, UpsertUserByOIDC(oidc, email, name, last, at));
            && e.reply.UserRow? && e.reply.user == User(oidc, email, name, last, at)
            && (forall i | i in db.users :: i < e.reply.id)
            && OnlyUserMoved(db, e.db, e.reply.id) && e.db.users[e.reply.id] == e.reply.user
  {
    var indexed := IndexedIsAUser(db, oidc);
    var id, user := db.nextUserId, User(oidc, email, name, last, at);
    var e := Exec(db, UpsertUserByOIDC(oidc, email, name, last, at));
    assert e.reply == UserRow(id, user);
    assert e.db == db.(users := db.users[id := user], byOidc := db.byOidc[oidc := id], nextUserId := id + 1);
  }

  lemma IndexedIsAUser(db: Db, oidc: Oidc) returns (i: int)
    requires UniqueIdentities(db)
    ensures oidc in db.byOidc ==> i in db.users && db.users[i].oidc == oidc
  {
    i := if oidc in db.byOidc then db.byOidc[oidc] else 0;
  }

  /**
   The upsert stores every column it is given. A known identity keeps its id and its creation time, an unknown
   one gets an id above all others; no other row and no other table moves, and the reply is the stored row.
   */
  lemma UpsertStores(db: Db, oidc: Oidc, email: string, name: string, last: Option<int>, at: int)
    requires Schema(db)
    ensures var e := Exec(db, UpsertUserByOIDC(oidc, email, name, last, at));
            && e.reply.UserRow? && OnlyUserMoved(db, e.db, e.reply.id) && e.db.users[e.reply.id] == e.reply.user
            && (if e.reply.id in db.users
                then db.users[e.reply.id].oidc == oidc &&
                     e.reply.user == User(oidc, email, name, last, db.users[e.reply.id].createdAt)
                else (forall i | i in db.users :: db.users[i].oidc != oidc && i < e.reply.id) &&
                     e.reply.user == User(oidc, email, name, last, at))
  {
    if i :| i in db.users && db.users[i].oidc == oidc {
      UpsertRefreshes(db, oidc, i, email, name, last, at);
    } else {
      UpsertInserts(db, oidc, email, name, last, at);
    }
  }

  /** One more row, under the next id; every earlier row stays as it is. */
  lemma AuditInsertAppends(db: Db, row: AuditRow)
    requires Schema(db)
    ensures var e := Exec(db, InsertAuditLog(row));
            && e.reply.Done? && e.db.audit.Keys == db.audit.Keys + {db.nextAuditId} && db.nextAuditId !in db.audit
            && e.db.audit[db.nextAuditId] == row && (forall i | i in db.audit :: e.db.audit[i] == db.audit[i])
            && e.db.nextAuditId == db.nextAuditId + 1
            && e.db == db.(audit := e.db.audit, nextAuditId := e.db.nextAuditId)
  {
  }

  /** The mark moves that column of that row, to a later second only, and nothing else. */
  lemma MarkStores(db: Db, id: int, at: int)
    ensures var e := Exec(db, MarkSignIn(id, at));
            && (e.reply == Affected(1) <==> id in db.users && (db.users[id].lastSignin.None? || db.users[id].lastSignin.value < at))
            && (e.reply == Affected(0) || e.reply == Affected(1))
            && e.db == (if e.reply == Affected(1) then db.(users := db.users[id := db.users[id].(lastSignin := Some(at))]) else db)
  {
    var e := Exec(db, MarkSignIn(id, at));
    if e.reply == Affected(1) {
      assert e.db.users == db.users[id := db.users[id].(lastSignin := Some(at))];
    } else {
      assert e.db.users == db.users;
    }
  }

  /** What the ban and grant statements store; a conflict keeps author, time and grant as they are. */
  lemma AccessStores(db: Db, id: int, author: Option<int>, reason: string, at: int)
    ensures var e := Exec(db, InsertUserBan(id, author, reason, at));
            if id in db.bans then e == Effect(db.(bans := db.bans[id := Ban(db.bans[id].bannedBy, reason, db.bans[id].createdAt)]), Done)
            else if id in db.users && (author.None? || author.value in db.admins)
            then e == Effect(db.(bans := db.bans[id := Ban(author, reason, at)]), Done)
            else e == Effect(db, Failed)
    ensures var e := Exec(db, InsertAdmin(id, at));
            if id in db.admins then e == Effect(db, Done)
            else if id in db.users then e == Effect(db.(admins := db.admins[id := at]), Done)
            else e == Effect(db, Failed)
    ensures Exec(db, DeleteUserBan(id)) == Effect(db.(bans := db.bans - {id}), Done)
  {
    assert Exec(db, DeleteUserBan(id)).db.bans == db.bans - {id};
  }
}
