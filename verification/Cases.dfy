/**
 The cases as they run: statements against the transaction's env, one after another, any of which may
 fail. Each method follows the script its command stands for, and so does exactly what the command says
 when it returns an answer.
 */
module Cases {
  import opened Wrappers
  import opened Database
  import opened Scripts
  import opened Commands

  /**
   The transaction-scoped `app`: the tables as the open transaction sees them. `script` is what the case
   has left to do, `origin` and `choices` how the transaction got here; `faults` says which of its calls fail.
   */
  class TxEnv {
    var db: Db
    var counted: multiset<Counter>
    const faults: nat -> bool
    var calls: nat
    ghost var script: Script
    ghost var choices: seq<bool>
    ghost const origin: Config

    ghost predicate Valid()
      reads this
    {
      choices == Under(faults, calls) && Steps(origin, choices) == Config(script, db, counted, origin.base)
    }

    constructor (db: Db, faults: nat -> bool, ghost script: Script)
      ensures Valid() && this.db == db && this.script == script && counted == multiset{} && this.faults == faults && calls == 0
      ensures origin == Start(script, db)
    {
      this.db, this.counted, this.faults, this.calls, this.script, this.choices := db, multiset{}, faults, 0, script, [];
      this.origin := Start(script, db);
    }

    /** The script's next call has been made; `was` is the state before it. */
    ghost method Followed(was: Config, fault: bool)
      requires Steps(origin, choices) == was && choices == Under(faults, |choices|)
      requires calls == |choices| + 1 && fault == faults(|choices|)
      requires Advance(was, fault).db == db && Advance(was, fault).bumps == counted
      modifies this`script, this`choices
      ensures Valid() && script == Advance(was, fault).rest && choices == old(choices) + [fault]
    {
      StepsKeepBase(origin, choices + [fault]);
      UnderGrows(faults, |choices|);
      choices := choices + [fault];
      script := Advance(was, fault).rest;
    }

    method DBGetUserByID(id: int) returns (r: Reply)
      requires Valid() && script.Stmt? && script.on.OnEnv? && script.op == GetUserByID(id)
      modifies this
      ensures Valid() && calls == old(calls) + 1 && script == old(script).next(r) && db == old(db) && counted == old(counted)
      ensures r == if faults(old(calls)) then Failed else if id in db.users then UserRow(id, db.users[id]) else NotFound
    {
      ghost var was := Config(script, db, counted, origin.base);
      var fault := faults(calls);
      r := if fault then Failed else if id in db.users then UserRow(id, db.users[id]) else NotFound;
      calls := calls + 1;
      Followed(was, fault);
    }

    method DBGetAdminUserByID(id: int) returns (r: Reply)
      requires Valid() && script.Stmt? && script.on.OnEnv? && script.op == GetAdminUserByID(id)
      modifies this
      ensures Valid() && calls == old(calls) + 1 && script == old(script).next(r) && db == old(db) && counted == old(counted)
      ensures faults(old(calls)) ==> r.Failed?
      ensures !faults(old(calls)) && id !in db.users ==> r.NotFound?
      ensures !faults(old(calls)) && id in db.users ==>
                r == AdminUserRow(IdentityRow(id, db.users[id].email, db.users[id].lastSignin, id in db.admins,
                                              if id in db.bans then db.bans[id].reason else ""))
    {
      ghost var was := Config(script, db, counted, origin.base);
      var fault := faults(calls);
      r := if fault then Failed else if id in db.users then AdminUserRow(IdentityOf(db, id)) else NotFound;
      calls := calls + 1;
      Followed(was, fault);
    }

    method DBGetAdminByUserID(id: int) returns (r: Reply)
      requires Valid() && script.Stmt? && script.on.OnEnv? && script.op == GetAdminByUserID(id)
      modifies this
      ensures Valid() && calls == old(calls) + 1 && script == old(script).next(r) && db == old(db) && counted == old(counted)
      ensures r == if faults(old(calls)) then Failed else if id in db.admins then AdminRow(id) else NotFound
    {
      ghost var was := Config(script, db, counted, origin.base);
      var fault := faults(calls);
      r := if fault then Failed else if id in db.admins then AdminRow(id) else NotFound;
      calls := calls + 1;
      Followed(was, fault);
    }

    method DBCountAdmins() returns (r: Reply)
      requires Valid() && script.Stmt? && script.on.OnEnv? && script.op == CountAdmins
      modifies this
      ensures Valid() && calls == old(calls) + 1 && script == old(script).next(r) && db == old(db) && counted == old(counted)
      ensures r == if faults(old(calls)) then Failed else Count(|db.admins|)
    {
      ghost var was := Config(script, db, counted, origin.base);
      var fault := faults(calls);
      r := if fault then Failed else Count(|db.admins|);
      calls := calls + 1;
      Followed(was, fault);
    }

    /** Through the unique index: the row of that identity is refreshed, or the next id gets a new one. */
    method DBUpsertUserByOIDC(oidc: Oidc, email: string, name: string, last: Option<int>, at: int) returns (r: Reply)
      requires Valid() && script.Stmt? && script.on.OnEnv? && script.op == UpsertUserByOIDC(oidc, email, name, last, at)
      modifies this
      ensures Valid() && calls == old(calls) + 1 && script == old(script).next(r) && counted == old(counted)
      ensures faults(old(calls)) ==> r.Failed? && db == old(db)
      ensures !faults(old(calls)) ==>
                if oidc in old(db).byOidc && old(db).byOidc[oidc] in old(db).users then
                  var id := old(db).byOidc[oidc];
                  var user := User(old(db).users[id].oidc, email, name, last, old(db).users[id].createdAt);
                  r == UserRow(id, user) && db == old(db).(users := old(db).users[id := user])
                else
                  var id, user := old(db).nextUserId, User(oidc, email, name, last, at);
                  r == UserRow(id, user) &&
                  db == old(db).(users := old(db).users[id := user], byOidc := old(db).byOidc[oidc := id], nextUserId := id + 1)
    {
      ghost var was := Config(script, db, counted, origin.base);
      var fault := faults(calls);
      if fault {
        r := Failed;
      } else if oidc in db.byOidc && db.byOidc[oidc] in db.users {
        var id := db.byOidc[oidc];
        var user := db.users[id].(email := email, name := name, lastSignin := last);
        assert db.users[id := user] == map i | i in db.users :: if i == id then user else db.users[i];
        db := db.(users := db.users[id := user]);
        r := UserRow(id, user);
      } else {
        var id := db.nextUserId;
        var user := User(oidc, email, name, last, at);
        db := db.(users := db.users[id := user], byOidc := db.byOidc[oidc := id], nextUserId := id + 1);
        r := UserRow(id, user);
      }
      calls := calls + 1;
      Followed(was, fault);
    }

    method DBInsertAdmin(id: int, at: int) returns (r: Reply)
      requires Valid() && script.Stmt? && script.on.OnEnv? && script.op == InsertAdmin(id, at)
      modifies this
      ensures Valid() && calls == old(calls) + 1 && script == old(script).next(r) && counted == old(counted)
      ensures r == if faults(old(calls)) || (id !in old(db).admins && id !in old(db).users) then Failed else Done
      ensures db == if r.Failed? || id in old(db).admins then old(db) else old(db).(admins := old(db).admins[id := at])
    {
      ghost var was := Config(script, db, counted, origin.base);
      var fault := faults(calls);
      r := Failed;
      if !fault && id in db.admins {
        r := Done;
      } else if !fault && id in db.users {
        db := db.(admins := db.admins[id := at]);
        r := Done;
      }
      calls := calls + 1;
      Followed(was, fault);
    }

    /** The guarded delete: never the last admin, never one a standing ban names. */
    method DBDeleteAdmin(id: int) returns (r: Reply)
      requires Valid() && script.Stmt? && script.on.OnEnv? && script.op == DeleteAdmin(id)
      modifies this
      ensures Valid() && calls == old(calls) + 1 && script == old(script).next(r) && counted == old(counted)
      ensures var last := !(id in old(db).admins && |old(db).admins| > 1);
              var named := exists b | b in old(db).bans :: old(db).bans[b].bannedBy == Some(id);
              r == if faults(old(calls)) then Failed else if last then Affected(0) else if named then Failed else Affected(1)
      ensures db == if r == Affected(1) then old(db).(admins := old(db).admins - {id}) else old(db)
    {
      ghost var was := Config(script, db, counted, origin.base);
      DeleteAdminOutcome(db, id);
      var fault := faults(calls);
      r := Failed;
      if !fault && !(id in db.admins && |db.admins| > 1) {
        r := Affected(0);
      } else if !fault && !(exists b | b in db.bans :: db.bans[b].bannedBy == Some(id)) {
        db := db.(admins := db.admins - {id});
        r := Affected(1);
      }
      calls := calls + 1;
      Followed(was, fault);
    }

    method DBInsertUserBan(id: int, bannedBy: Option<int>, reason: string, at: int) returns (r: Reply)
      requires Valid() && script.Stmt? && script.on.OnEnv? && script.op == InsertUserBan(id, bannedBy, reason, at)
      modifies this
      ensures Valid() && calls == old(calls) + 1 && script == old(script).next(r) && counted == old(counted)
      ensures var refused := id !in old(db).bans &&
                             (id !in old(db).users || (bannedBy.Some? && bannedBy.value !in old(db).admins));
              r == if faults(old(calls)) || refused then Failed else Done
      ensures r.Failed? ==> db == old(db)
      ensures r.Done? ==> db == old(db).(bans := old(db).bans[id :=
                if id in old(db).bans then old(db).bans[id].(reason := reason) else Ban(bannedBy, reason, at)])
    {
      ghost var was := Config(script, db, counted, origin.base);
      var fault := faults(calls);
      r := Failed;
      if !fault && id in db.bans {
        db := db.(bans := db.bans[id := db.bans[id].(reason := reason)]);
        r := Done;
      } else if !fault && id in db.users && (bannedBy.None? || bannedBy.value in db.admins) {
        db := db.(bans := db.bans[id := Ban(bannedBy, reason, at)]);
        r := Done;
      }
      calls := calls + 1;
      Followed(was, fault);
    }

    method DBDeleteUserBan(id: int) returns (r: Reply)
      requires Valid() && script.Stmt? && script.on.OnEnv? && script.op == DeleteUserBan(id)
      modifies this
      ensures Valid() && calls == old(calls) + 1 && script == old(script).next(r) && counted == old(counted)
      ensures r == if faults(old(calls)) then Failed else Done
      ensures db == if r.Done? then old(db).(bans := old(db).bans - {id}) else old(db)
    {
      ghost var was := Config(script, db, counted, origin.base);
      var fault := faults(calls);
      r := Failed;
      if !fault {
        assert db.bans - {id} == map i | i in db.bans && i != id :: db.bans[i];
        db := db.(bans := db.bans - {id});
        r := Done;
      }
      calls := calls + 1;
      Followed(was, fault);
    }

    method DBDeleteAuditLogBefore(cutoff: int) returns (r: Reply)
      requires Valid() && script.Stmt? && script.on.OnEnv? && script.op == DeleteAuditLogBefore(cutoff)
      modifies this
      ensures Valid() && calls == old(calls) + 1 && script == old(script).next(r) && counted == old(counted)
      ensures r == if faults(old(calls)) then Failed else Done
      ensures r.Failed? ==> db == old(db)
      ensures r.Done? ==> db == old(db).(audit := db.audit)
      ensures r.Done? ==> forall i | i in old(db).audit ::
                (i in db.audit <==> cutoff <= old(db).audit[i].createdAt) &&
                (i in db.audit ==> db.audit[i] == old(db).audit[i])
    {
      ghost var was := Config(script, db, counted, origin.base);
      var fault := faults(calls);
      r := Failed;
      if !fault {
        var expired := set i | i in db.audit && db.audit[i].createdAt < cutoff;
        assert db.audit - expired == map i | i in db.audit && !(db.audit[i].createdAt < cutoff) :: db.audit[i];
        db := db.(audit := db.audit - expired);
        r := Done;
      }
      calls := calls + 1;
      Followed(was, fault);
    }

    /** EnqueueJob inside the transaction: the message is part of it. */
    method EnqueueUserBannedNotice(id: int) returns (r: Reply)
      requires Valid() && script.Enqueue? && script.route == WITHIN_TX && script.msg == NotifyUserBanned(id)
      modifies this
      ensures Valid() && calls == old(calls) + 1 && script == old(script).next(r) && counted == old(counted)
      ensures r == if faults(old(calls)) then Failed else Done
      ensures db == if r.Done? then old(db).(queue := old(db).queue + multiset{NotifyUserBanned(id)}) else old(db)
    {
      ghost var was := Config(script, db, counted, origin.base);
      var fault := faults(calls);
      r := Failed;
      if !fault {
        db := db.(queue := db.queue + multiset{NotifyUserBanned(id)});
        r := Done;
      }
      calls := calls + 1;
      Followed(was, fault);
    }

    method Metrics(counter: Counter)
      requires Valid() && script.Bump? && script.counter == counter
      modifies this
      ensures Valid() && calls == old(calls) + 1 && script == old(script).rest && db == old(db)
      ensures counted == old(counted) + multiset{counter}
    {
      ghost var was := Config(script, db, counted, origin.base);
      counted := counted + multiset{counter};
      calls := calls + 1;
      Followed(was, faults(calls - 1));
    }
  }

  /** What a case hands back to `WithTransaction`: an answer, or an error (None). */
  type CaseResult = Option<Answer>

  function EndOf(result: CaseResult): Script {
    if result.Some? then Return(result.value) else Raise
  }

  /** A case starts with its whole script ahead of it, on a fresh transaction. */
  ghost predicate Fresh(env: TxEnv, site: Site, cmd: Command)
    reads env
  {
    env.Valid() && env.script == ScriptOf(site, cmd) && env.calls == 0 && env.origin == Start(env.script, env.db)
  }

  /**
   The script was followed to its end; an answer is the command's own, and so is everything it changed. When no
   call failed there is an answer exactly if the command has one.
   */
  ghost predicate Resolved(env: TxEnv, site: Site, cmd: Command, result: CaseResult)
    reads env
  {
    && env.Valid() && env.script == EndOf(result)
    && (result.Some? ==> Apply(site, cmd, env.origin.db) == Answered(result.value, env.db, env.counted))
    && (Schema(env.origin.db) && (forall i :: !env.faults(i)) ==> (result.Some? <==> Apply(site, cmd, env.origin.db).Answered?))
  }

  lemma FollowedToTheEnd(env: TxEnv, site: Site, cmd: Command, result: CaseResult)
    requires env.Valid() && env.script == EndOf(result) && env.origin == Start(ScriptOf(site, cmd), env.origin.db)
    ensures Resolved(env, site, cmd, result)
  {
    CommandsAreAtomic(site, cmd, env.origin.db, env.choices);
    if Schema(env.origin.db) && forall i :: !env.faults(i) {
      FaultlessCommandsAnswer(site, cmd, env.origin.db, env.faults, env.calls);
    }
  }

  method ResolveBanUser(env: TxEnv, site: Site, id: int, reason: string, actor: Option<int>, now: int)
    returns (result: CaseResult)
    requires Fresh(env, site, BanUser(id, reason, actor, now))
    modifies env
    ensures Resolved(env, site, BanUser(id, reason, actor, now), result)
    ensures result.Some? && result.value.ErrorPayload? ==> env.db == old(env.db) && env.counted == old(env.counted)
    ensures var bans := old(env.db).bans;
            var text := site.trim(reason);
            result.Some? && result.value.BanUserPayload? ==>
              && env.db == old(env.db).(
                   bans := bans[id := if id in bans then Ban(bans[id].bannedBy, text, bans[id].createdAt) else Ban(actor, text, now)],
                   queue := old(env.db).queue + multiset{NotifyUserBanned(id)})
              && env.counted == multiset{UserBanned}
    ensures result == Some(ErrorPayload(InvalidInput)) <==> id < 1 || |site.trim(reason)| < 1 || |site.trim(reason)| > 500
    ensures result == Some(ErrorPayload(CannotBanYourself)) <==> id >= 1 && 1 <= |site.trim(reason)| <= 500 && actor == Some(id)
    ensures result == Some(ErrorPayload(UserNotFound)) <==>
              id >= 1 && 1 <= |site.trim(reason)| <= 500 && actor != Some(id) && !env.faults(0) && id !in old(env.db).users
    ensures result == Some(BanUserPayload(id)) <==>
              && id >= 1 && 1 <= |site.trim(reason)| <= 500 && actor != Some(id) && id in old(env.db).users
              && (id in old(env.db).bans || actor.None? || actor.value in old(env.db).admins)
              && !env.faults(0) && !env.faults(1) && !env.faults(2)
  {
    var text := site.trim(reason);
    if id < 1 || !ValidReason(text) {
      result := Some(ErrorPayload(InvalidInput));
    } else if actor == Some(id) {
      result := Some(ErrorPayload(CannotBanYourself));
    } else {
      var got := env.DBGetUserByID(id);
      if got.NotFound? {
        result := Some(ErrorPayload(UserNotFound));
      } else if got.Failed? {
        result := None;
      } else {
        var inserted := env.DBInsertUserBan(id, actor, text, now);
        if inserted.Failed? {
          result := None;
        } else {
          var enqueued := env.EnqueueUserBannedNotice(id);
          if enqueued.Failed? {
            result := None;
          } else {
            env.Metrics(UserBanned);
            result := Some(BanUserPayload(id));
          }
        }
      }
    }
    FollowedToTheEnd(env, site, BanUser(id, reason, actor, now), result);
  }

  method ResolveUnbanUser(env: TxEnv, site: Site, id: int) returns (result: CaseResult)
    requires Fresh(env, site, UnbanUser(id))
    modifies env
    ensures Resolved(env, site, UnbanUser(id), result)
    ensures result == Some(ErrorPayload(InvalidInput)) <==> id < 1
    ensures result == Some(UnbanUserPayload(id)) <==> id >= 1 && !env.faults(0)
    ensures env.db == if result == Some(UnbanUserPayload(id)) then old(env.db).(bans := old(env.db).bans - {id}) else old(env.db)
  {
    if id < 1 {
      result := Some(ErrorPayload(InvalidInput));
    } else {
      var deleted := env.DBDeleteUserBan(id);
      result := if deleted.Failed? then None else Some(UnbanUserPayload(id));
    }
    FollowedToTheEnd(env, site, UnbanUser(id), result);
  }

  method ResolveMakeAdmin(env: TxEnv, site: Site, id: int, now: int) returns (result: CaseResult)
    requires Fresh(env, site, MakeAdmin(id, now))
    modifies env
    ensures Resolved(env, site, MakeAdmin(id, now), result)
    ensures result == Some(ErrorPayload(InvalidInput)) <==> id < 1
    ensures result == Some(ErrorPayload(UserNotFound)) <==> id >= 1 && !env.faults(0) && id !in old(env.db).users
    ensures result == Some(ErrorPayload(UserIsBanned)) <==>
              id >= 1 && !env.faults(0) && id in old(env.db).users && id in old(env.db).bans && old(env.db).bans[id].reason != ""
    ensures result == Some(MakeAdminPayload(id)) <==>
              && id >= 1 && !env.faults(0) && !env.faults(1) && id in old(env.db).users
              && !(id in old(env.db).bans && old(env.db).bans[id].reason != "")
    ensures var admins := old(env.db).admins;
            result == Some(MakeAdminPayload(id)) ==>
              && env.db == old(env.db).(admins := if id in admins then admins else admins[id := now])
              && env.counted == multiset{AdminMade}
  {
    if id < 1 {
      result := Some(ErrorPayload(InvalidInput));
    } else {
      var got := env.DBGetAdminUserByID(id);
      if got.NotFound? {
        result := Some(ErrorPayload(UserNotFound));
      } else if got.Failed? {
        result := None;
      } else if got.row.banReason != "" {
        result := Some(ErrorPayload(UserIsBanned));
      } else {
        var inserted := env.DBInsertAdmin(id, now);
        if inserted.Failed? {
          result := None;
        } else {
          env.Metrics(AdminMade);
          result := Some(MakeAdminPayload(id));
        }
      }
    }
    FollowedToTheEnd(env, site, MakeAdmin(id, now), result);
  }

  method ResolveRemoveAdmin(env: TxEnv, site: Site, id: int, actor: Option<int>) returns (result: CaseResult)
    requires Fresh(env, site, RemoveAdmin(id, actor))
    modifies env
    ensures Resolved(env, site, RemoveAdmin(id, actor), result)
    ensures result == Some(ErrorPayload(InvalidInput)) <==> id < 1
    ensures result == Some(ErrorPayload(OwnAdminAccess)) <==> id >= 1 && actor == Some(id)
    ensures result.Some? && result.value == RemoveAdminPayload(id) ==> env.db == old(env.db).(admins := old(env.db).admins - {id})
    ensures id >= 1 && actor != Some(id) && !env.faults(0) && id in old(env.db).admins && |old(env.db).admins| > 1 ==>
              (result == Some(RemoveAdminPayload(id)) <==> !exists b | b in old(env.db).bans :: old(env.db).bans[b].bannedBy == Some(id))
    ensures id >= 1 && actor != Some(id) && !env.faults(0) && id !in old(env.db).admins ==>
              (result == Some(RemoveAdminPayload(id)) <==> !env.faults(1)) && env.db == old(env.db)
    ensures result == Some(ErrorPayload(LastAdmin)) <==>
              id >= 1 && actor != Some(id) && !env.faults(0) && !env.faults(1) && old(env.db).admins.Keys == {id}
  {
    if id < 1 {
      result := Some(ErrorPayload(InvalidInput));
    } else if actor == Some(id) {
      result := Some(ErrorPayload(OwnAdminAccess));
    } else {
      var removed := env.DBDeleteAdmin(id);
      if removed.Failed? {
        result := None;
      } else if removed.rows == 0 {
        var got := env.DBGetAdminByUserID(id);
        if got.AdminRow? {
          OneAdminLeft(env.db.admins, id);
          result := Some(ErrorPayload(LastAdmin));
        } else if got.NotFound? {
          result := Some(RemoveAdminPayload(id));
        } else {
          result := None;
        }
      } else {
        env.Metrics(AdminRemoved);
        result := Some(RemoveAdminPayload(id));
      }
    }
    FollowedToTheEnd(env, site, RemoveAdmin(id, actor), result);
  }

  method EnsureAdmin(env: TxEnv, site: Site, id: int, user: User, now: int) returns (result: CaseResult)
    requires env.Valid() && env.script == EnsureAdminScript(site, id, user, now)
    modifies env
    ensures env.Valid() && env.script == EndOf(result)
    ensures result.Some? ==> result.value.SignedIn? && (result.value.isAdmin <==> id in env.db.admins)
    ensures result.Some? ==> result.value.id == id && old(env.db).admins.Keys <= env.db.admins.Keys <= old(env.db).admins.Keys + {id}
    ensures result.Some? && id !in old(env.db).admins && result.value.isAdmin ==>
              old(env.db).admins == map[] && user.email == site.lower(site.trim(site.bootstrapAdmin))
  {
    var got := env.DBGetAdminByUserID(id);
    if got.AdminRow? {
      return Some(SignedIn(id, user, true));
    }
    if !got.NotFound? {
      return None;
    }
    var bootstrap := site.lower(site.trim(site.bootstrapAdmin));
    if bootstrap == "" || bootstrap != user.email {
      return Some(SignedIn(id, user, false));
    }
    var counted := env.DBCountAdmins();
    if counted.Failed? {
      return None;
    }
    if counted.count > 0 {
      return Some(SignedIn(id, user, false));
    }
    var inserted := env.DBInsertAdmin(id, now);
    result := if inserted.Failed? then None else Some(SignedIn(id, user, true));
  }

  method ResolveSignIn(env: TxEnv, site: Site, oidc: Oidc, email: string, name: string, issued: Option<int>, now: int)
    returns (result: CaseResult)
    requires Fresh(env, site, SignIn(oidc, email, name, issued, now))
    modifies env
    ensures Resolved(env, site, SignIn(oidc, email, name, issued, now), result)
    ensures result.Some? ==> result.value.SignedIn? && (result.value.isAdmin <==> result.value.id in env.db.admins)
  {
    var address := site.lower(site.trim(email));
    if oidc.issuer == "" || oidc.subject == "" || address == "" {
      result := None;
    } else {
      var upserted := env.DBUpsertUserByOIDC(oidc, address, name, issued, now);
      if upserted.Failed? {
        result := None;
      } else {
        result := EnsureAdmin(env, site, upserted.id, upserted.user, now);
      }
    }
    FollowedToTheEnd(env, site, SignIn(oidc, email, name, issued, now), result);
  }

  method ResolvePurge(env: TxEnv, site: Site, now: int) returns (result: CaseResult)
    requires Fresh(env, site, Purge(now))
    modifies env
    ensures Resolved(env, site, Purge(now), result)
    ensures result.Some? && site.retention <= 0 ==> env.db == old(env.db)
    ensures result.Some? && site.retention > 0 ==> forall i | i in old(env.db).audit ::
              i in env.db.audit <==> (now - site.retention) / NANOS <= old(env.db).audit[i].createdAt
  {
    if site.retention <= 0 {
      result := Some(Nothing);
    } else {
      var deleted := env.DBDeleteAuditLogBefore(Cutoff(now, site.retention));
      result := if deleted.Failed? then None else Some(Nothing);
    }
    FollowedToTheEnd(env, site, Purge(now), result);
  }
}
