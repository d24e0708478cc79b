/**
 What holds over whole runs of the process: every history of committed commands, whatever interleaving,
 statement failures and stale identities it came from.
 */
module History {
  import opened Wrappers
  import opened Database
  import opened Scripts
  import opened Commands
  import opened Scheduler

  /** One committed command and the answer its caller got. */
  datatype Deed = Deed(cmd: Command, answer: Answer)

  function DbAfter(site: Site, db: Db, deeds: seq<Deed>): Db
    decreases |deeds|
  {
    if deeds == [] then db
    else
      var before := DbAfter(site, db, deeds[..|deeds| - 1]);
      var verdict := Apply(site, deeds[|deeds| - 1].cmd, before);
      if verdict.Answered? then verdict.db else before
  }

  /** The verdict of the last deed on what the earlier ones left. */
  function LastVerdict(site: Site, db: Db, deeds: seq<Deed>): Verdict
    requires deeds != []
  {
    Apply(site, deeds[|deeds| - 1].cmd, DbAfter(site, db, deeds[..|deeds| - 1]))
  }

  predicate Genuine(site: Site, db: Db, deeds: seq<Deed>)
    decreases |deeds|
  {
    deeds == [] ||
    (Genuine(site, db, deeds[..|deeds| - 1]) &&
     LastVerdict(site, db, deeds).Answered? && LastVerdict(site, db, deeds).answer == deeds[|deeds| - 1].answer)
  }

  function CountedBy(site: Site, db: Db, deeds: seq<Deed>): multiset<Counter>
    decreases |deeds|
  {
    if deeds == [] then multiset{}
    else
      CountedBy(site, db, deeds[..|deeds| - 1]) +
      (if LastVerdict(site, db, deeds).Answered? then LastVerdict(site, db, deeds).bumps else multiset{})
  }

  // ---------------------------------------------------------------- from runs to histories

  /** `cmds` names the command each task runs. */
  ghost predicate RunsCommands(site: Site, s: Sys, cmds: map<nat, Command>) {
    forall t | t in s.tasks :: t in cmds && s.tasks[t].script == ScriptOf(site, cmds[t])
  }

  function DeedsOf(log: seq<Entry>, cmds: map<nat, Command>): seq<Deed>
    requires forall i | 0 <= i < |log| :: log[i].tid in cmds
  {
    seq(|log|, i requires 0 <= i < |log| => Deed(cmds[log[i].tid], log[i].answer))
  }

  lemma LastEntryIsItsCommand(site: Site, db: Db, e: Entry, cmd: Command)
    requires Alone(db, e).rest == Return(e.answer) && e.script == ScriptOf(site, cmd)
    ensures Apply(site, cmd, db) == Answered(e.answer, Alone(db, e).db, Alone(db, e).bumps)
  {
    CommandsAreAtomic(site, cmd, db, e.choices);
  }

  lemma OneMoreDeed(site: Site, db: Db, deeds: seq<Deed>, deed: Deed)
    ensures var v := Apply(site, deed.cmd, DbAfter(site, db, deeds));
            && (Genuine(site, db, deeds + [deed]) <==> Genuine(site, db, deeds) && v.Answered? && v.answer == deed.answer)
            && DbAfter(site, db, deeds + [deed]) == (if v.Answered? then v.db else DbAfter(site, db, deeds))
            && CountedBy(site, db, deeds + [deed]) == CountedBy(site, db, deeds) + (if v.Answered? then v.bumps else multiset{})
  {
    assert (deeds + [deed])[..|deeds|] == deeds;
  }

  lemma DeedsOfLast(log: seq<Entry>, cmds: map<nat, Command>)
    requires log != [] && forall i | 0 <= i < |log| :: log[i].tid in cmds
    ensures var n := |log| - 1;
            DeedsOf(log, cmds) == DeedsOf(log[..n], cmds) + [Deed(cmds[log[n].tid], log[n].answer)]
  {
  }

  /** The commands of a serial log, replayed as the commands they are. */
  ghost predicate Mirrors(site: Site, db: Db, log: seq<Entry>, deeds: seq<Deed>) {
    && Genuine(site, db, deeds) && DbAfter(site, db, deeds) == Replay(db, log)
    && CountedBy(site, db, deeds) == CommittedBumps(db, log)
  }

  lemma MirrorsOneMore(site: Site, db: Db, log: seq<Entry>, deeds: seq<Deed>, cmd: Command)
    requires log != [] && Serial(db, log) && Mirrors(site, db, log[..|log| - 1], deeds)
    requires log[|log| - 1].script == ScriptOf(site, cmd)
    ensures Mirrors(site, db, log, deeds + [Deed(cmd, log[|log| - 1].answer)])
  {
    var n := |log| - 1;
    LastEntryIsItsCommand(site, Replay(db, log[..n]), log[n], cmd);
    OneMoreDeed(site, db, deeds, Deed(cmd, log[n].answer));
  }

  lemma {:induction false} SerialIsGenuine(site: Site, db: Db, log: seq<Entry>, cmds: map<nat, Command>)
    requires Serial(db, log)
    requires forall i | 0 <= i < |log| :: log[i].tid in cmds && log[i].script == ScriptOf(site, cmds[log[i].tid])
    ensures Mirrors(site, db, log, DeedsOf(log, cmds))
    decreases |log|
  {
    if log != [] {
      var n := |log| - 1;
      SerialIsGenuine(site, db, log[..n], cmds);
      DeedsOfLast(log, cmds);
      MirrorsOneMore(site, db, log, DeedsOf(log[..n], cmds), cmds[log[n].tid]);
    }
  }

  /**
   The interleaved system refines the atomic one: the tables after any run are the committed commands'
   changes applied one at a time in commit order, and every committed answer is the one its command gives
   on the state it found. Metrics are those of the committed commands plus the uncommitted count.
   */
  lemma RunsRefineCommands(site: Site, s: Sys, ls: seq<Label>, cmds: map<nat, Command>)
    requires Init(s) && Possible(s, ls) && RunsCommands(site, After(s, ls), cmds)
    ensures var now := After(s, ls);
            && (forall i | 0 <= i < |now.log| :: now.log[i].tid in cmds)
            && Genuine(site, s.db, DeedsOf(now.log, cmds))
            && now.db == DbAfter(site, s.db, DeedsOf(now.log, cmds))
            && now.metrics == CountedBy(site, s.db, DeedsOf(now.log, cmds)) + Uncommitted(now)
  {
    RunsKeepInv(s, ls);
    SerialIsGenuine(site, s.db, After(s, ls).log, cmds);
  }

  // ---------------------------------------------------------------- one command

  lemma BanKeepsSchema(site: Site, id: int, reason: string, actor: Option<int>, now: int, db: Db)
    requires Schema(db) && ApplyBan(site, id, reason, actor, now, db).Answered?
    ensures Schema(ApplyBan(site, id, reason, actor, now, db).db)
  {
  }

  lemma RemoveAdminKeepsSchema(id: int, actor: Option<int>, db: Db)
    requires Schema(db) && ApplyRemoveAdmin(id, actor, db).Answered?
    ensures Schema(ApplyRemoveAdmin(id, actor, db).db)
  {
  }

  lemma SignInKeepsSchema(site: Site, cmd: Command, db: Db)
    requires cmd.SignIn? && Schema(db) && Apply(site, cmd, db).Answered?
    ensures Schema(Apply(site, cmd, db).db)
  {
    var address := site.lower(site.trim(cmd.email));
    var e := Upsert(db, cmd.oidc, address, cmd.name, cmd.issued, cmd.now);
    UpsertKeepsSchema(db, cmd.oidc, address, cmd.name, cmd.issued, cmd.now);
    if Bootstraps(site, address, db) {
      assert forall b | b in e.db.bans :: e.db.bans[b].bannedBy.None?;
    }
  }

  lemma CommandKeepsSchema(site: Site, cmd: Command, db: Db)
    requires Schema(db) && Apply(site, cmd, db).Answered?
    ensures Schema(Apply(site, cmd, db).db)
  {
    match cmd
    case BanUser(id, reason, actor, now) => BanKeepsSchema(site, id, reason, actor, now, db);
    case RemoveAdmin(id, actor) => RemoveAdminKeepsSchema(id, actor, db);
    case SignIn(_, _, _, _, _) => SignInKeepsSchema(site, cmd, db);
    case RecordSignIn(id, at) => MarkKeepsSchema(db, id, at);
    case _ =>
  }

  lemma CommandKeepsReasons(site: Site, cmd: Command, db: Db)
    requires Reasoned(db) && Apply(site, cmd, db).Answered?
    ensures Reasoned(Apply(site, cmd, db).db)
  {
  }

  lemma CommandKeepsAnAdmin(site: Site, cmd: Command, db: Db)
    requires db.admins != map[] && Apply(site, cmd, db).Answered?
    ensures Apply(site, cmd, db).db.admins != map[]
  {
    var left := Apply(site, cmd, db).db.admins;
    var admins := db.admins.Keys;
    assert |admins| > 0;
    if cmd.RemoveAdmin? && cmd.id in db.admins && admins != {cmd.id} {
      var others := admins - {cmd.id};
      assert |others| > 0;
      var b := Pick(others);
      assert b in left;
    } else {
      var a := Pick(admins);
      assert a in left;
    }
  }

  /** A sign-in changes the admins table only by the bootstrap rule. */
  lemma SignInPromotesOnlyTheFirst(site: Site, cmd: Command, db: Db)
    requires cmd.SignIn? && Apply(site, cmd, db).Answered? && Apply(site, cmd, db).db.admins != db.admins
    ensures db.admins == map[] && Apply(site, cmd, db).db.admins.Keys == {Apply(site, cmd, db).answer.id}
  {
  }

  lemma OthersLeaveTheQueue(site: Site, cmd: Command, db: Db)
    requires !cmd.BanUser? && !cmd.FinishJob? && !cmd.SchedulePurge? && Apply(site, cmd, db).Answered?
    ensures Apply(site, cmd, db).db.queue == db.queue && !Apply(site, cmd, db).answer.BanUserPayload?
  {
  }

  lemma BanNotices(site: Site, id: int, reason: string, actor: Option<int>, now: int, db: Db, user: int)
    requires ApplyBan(site, id, reason, actor, now, db).Answered?
    ensures var v := ApplyBan(site, id, reason, actor, now, db);
            v.db.queue[NotifyUserBanned(user)] ==
              db.queue[NotifyUserBanned(user)] + (if v.answer == BanUserPayload(user) then 1 else 0)
  {
  }

  lemma CommandNotices(site: Site, cmd: Command, db: Db, user: int)
    requires Apply(site, cmd, db).Answered?
    ensures var v := Apply(site, cmd, db);
            v.db.queue[NotifyUserBanned(user)] +
              (if cmd == FinishJob(NotifyUserBanned(user)) && v.answer == Rows(1) then 1 else 0)
            == db.queue[NotifyUserBanned(user)] + (if v.answer == BanUserPayload(user) then 1 else 0)
  {
    match cmd
    case BanUser(id, reason, actor, now) => BanNotices(site, id, reason, actor, now, db, user);
    case FinishJob(msg) =>
    case SchedulePurge =>
    case _ => OthersLeaveTheQueue(site, cmd, db);
  }

  lemma CommandCountsBans(site: Site, cmd: Command, db: Db)
    requires Apply(site, cmd, db).Answered?
    ensures Apply(site, cmd, db).bumps[UserBanned] == if Apply(site, cmd, db).answer.BanUserPayload? then 1 else 0
  {
  }

  /** A domain refusal is an answer that writes nothing and counts nothing. */
  lemma RefusalsChangeNothing(site: Site, cmd: Command, db: Db)
    requires Apply(site, cmd, db).Answered? && Apply(site, cmd, db).answer.ErrorPayload?
    ensures Apply(site, cmd, db).db == db && Apply(site, cmd, db).bumps == multiset{}
  {
  }

  /** RemoveAdmin's answer tells the state it saw, and its effect follows from its answer. */
  lemma RemoveAdminAnswersTheState(site: Site, id: int, actor: Option<int>, db: Db)
    requires id >= 1 && actor != Some(id)
    ensures var v := Apply(site, RemoveAdmin(id, actor), db);
            && (v.Answered? && v.answer == ErrorPayload(LastAdmin) <==> db.admins.Keys == {id})
            && (v.Answered? && v.answer == RemoveAdminPayload(id) && v.bumps == multiset{} <==> id !in db.admins)
            && (v.Answered? && v.bumps != multiset{} <==>
                  id in db.admins && |db.admins| > 1 && !Restricted(db, id))
            && (v.Rejected? <==> id in db.admins && |db.admins| > 1 && Restricted(db, id))
            && (v.Answered? ==> v.db.admins.Keys == db.admins.Keys - (if v.bumps == multiset{} then {} else {id}))
  {
    if id in db.admins {
      OneAdminLeft(db.admins, id);
    }
    assert AdminRemoved in multiset{AdminRemoved};
  }

  /** MakeAdmin's answer tells the state it saw; a grant adds the one row, at the given time, unless it is there. */
  lemma MakeAdminAnswersTheState(site: Site, id: int, now: int, db: Db)
    ensures var v := Apply(site, MakeAdmin(id, now), db);
            var banned := id in db.bans && db.bans[id].reason != "";
            && v.Answered?
            && (v.answer == ErrorPayload(InvalidInput) <==> id < 1)
            && (v.answer == ErrorPayload(UserNotFound) <==> id >= 1 && id !in db.users)
            && (v.answer == ErrorPayload(UserIsBanned) <==> id >= 1 && id in db.users && banned)
            && (v.answer == MakeAdminPayload(id) <==> id >= 1 && id in db.users && !banned)
            && (v.answer == MakeAdminPayload(id) ==>
                  && v.db == db.(admins := if id in db.admins then db.admins else db.admins[id := now])
                  && v.bumps == multiset{AdminMade})
  {
    if id in db.admins {
      assert map[id := now] + db.admins == db.admins;
    } else {
      assert map[id := now] + db.admins == db.admins[id := now];
    }
  }

  /** BanUser's answer tells its input and the state it saw; a ban stores author, time and trimmed reason, a re-ban the reason. */
  lemma BanUserAnswersTheState(site: Site, id: int, reason: string, actor: Option<int>, now: int, db: Db)
    ensures var v := Apply(site, BanUser(id, reason, actor, now), db);
            var text := site.trim(reason);
            var valid := id >= 1 && 1 <= |text| <= 500;
            var aimed := valid && actor != Some(id);
            var authorGone := id !in db.bans && actor.Some? && actor.value !in db.admins;
            && (v.Answered? && v.answer == ErrorPayload(InvalidInput) <==> !valid)
            && (v.Answered? && v.answer == ErrorPayload(CannotBanYourself) <==> valid && actor == Some(id))
            && (v.Answered? && v.answer == ErrorPayload(UserNotFound) <==> aimed && id !in db.users)
            && (v.Rejected? <==> aimed && id in db.users && authorGone)
            && (v.Answered? && v.answer == BanUserPayload(id) <==> aimed && id in db.users && !authorGone)
            && (v.Answered? && v.answer == BanUserPayload(id) ==>
                  && v.db == db.(bans := db.bans[id :=
                       if id in db.bans then Ban(db.bans[id].bannedBy, text, db.bans[id].createdAt) else Ban(actor, text, now)],
                     queue := db.queue + multiset{NotifyUserBanned(id)})
                  && v.bumps == multiset{UserBanned})
  {
  }

  lemma UnbanUserAnswersTheState(site: Site, id: int, db: Db)
    ensures var v := Apply(site, UnbanUser(id), db);
            if id < 1 then v == Answered(ErrorPayload(InvalidInput), db, multiset{})
            else v == Answered(UnbanUserPayload(id), db.(bans := db.bans - {id}), multiset{})
  {
  }

  /**
   A sign-in is refused for a missing issuer, subject or address only. Otherwise its identity's row holds the
   normalised address, the name and the token's time; a new row its creation time too, a known one keeps id and
   creation time; the answer is that row; and the admins table changes by the bootstrap rule alone.
   */
  lemma SignInAnswersTheState(site: Site, oidc: Oidc, email: string, name: string, issued: Option<int>, now: int, db: Db)
    requires Schema(db)
    ensures var v := Apply(site, SignIn(oidc, email, name, issued, now), db);
            var address := site.lower(site.trim(email));
            && (v.Rejected? <==> oidc.issuer == "" || oidc.subject == "" || address == "")
            && (v.Answered? ==>
                  && v.answer.SignedIn? && v.bumps == multiset{}
                  && SignedInRow(db, v.db, v.answer.id, v.answer.user, oidc, address, name, issued, now)
                  && (if db.admins == map[] && address == site.lower(site.trim(site.bootstrapAdmin))
                      then v.db.admins == map[v.answer.id := now] && v.answer.isAdmin
                      else v.db.admins == db.admins && (v.answer.isAdmin <==> v.answer.id in db.admins)))
  {
    var address := site.lower(site.trim(email));
    UpsertStores(db, oidc, address, name, issued, now);
  }

  /** The identity's row after a sign-in, and every other row as before it. */
  ghost predicate SignedInRow(
    db: Db, db': Db, id: int, user: User, oidc: Oidc, address: string, name: string, last: Option<int>, now: int)
  {
    && id in db'.users && db'.users[id] == user
    && user.oidc == oidc && user.email == address && user.name == name && user.lastSignin == last
    && (if id in db.users then db.users[id].oidc == oidc && user.createdAt == db.users[id].createdAt
        else user.createdAt == now && forall i | i in db.users :: db.users[i].oidc != oidc)
    && db'.users.Keys == db.users.Keys + {id} && (forall i | i in db.users && i != id :: db'.users[i] == db.users[i])
    && db'.bans == db.bans && db'.audit == db.audit && db'.queue == db.queue
  }

  /** The process's own commands: one message more or less, one audit row more, no retention no purge. */
  lemma ChoresAnswerTheState(site: Site, now: int, row: AuditRow, msg: Message, db: Db)
    requires Schema(db)
    ensures site.retention <= 0 ==> Apply(site, Purge(now), db) == Answered(Nothing, db, multiset{})
    ensures site.retention > 0 ==>
              Apply(site, Purge(now), db) == Answered(Nothing, db.(audit := Apply(site, Purge(now), db).db.audit), multiset{})
    ensures Apply(site, SchedulePurge, db) == Answered(Nothing, db.(queue := db.queue + multiset{PurgeAuditLog}), multiset{})
    ensures Apply(site, FinishJob(msg), db) ==
              Answered(Rows(if msg in db.queue then 1 else 0), db.(queue := db.queue - multiset{msg}), multiset{})
    ensures var v := Apply(site, WriteAudit(row), db);
            && v.Answered? && v.answer == Nothing && v.bumps == multiset{}
            && v.db == db.(audit := db.audit[db.nextAuditId := row], nextAuditId := db.nextAuditId + 1)
            && db.nextAuditId !in db.audit
  {
  }

  /** The retention is kept: of the rows a purge leaves exactly those whose second does not end before the cutoff. */
  lemma PurgeKeepsTheRetention(site: Site, now: int, db: Db, row: int)
    requires site.retention > 0
    ensures var left := Apply(site, Purge(now), db).db.audit;
            && (row in left <==> row in db.audit && (db.audit[row].createdAt + 1) * 1_000_000_000 > now - site.retention)
            && (row in left ==> left[row] == db.audit[row])
  {
  }

  // ---------------------------------------------------------------- every history

  lemma {:induction false} HistoriesKeepTheSchema(site: Site, db: Db, deeds: seq<Deed>)
    requires Schema(db) && Reasoned(db) && Genuine(site, db, deeds)
    ensures Schema(DbAfter(site, db, deeds)) && Reasoned(DbAfter(site, db, deeds))
    decreases |deeds|
  {
    if deeds != [] {
      var before := deeds[..|deeds| - 1];
      HistoriesKeepTheSchema(site, db, before);
      CommandKeepsSchema(site, deeds[|deeds| - 1].cmd, DbAfter(site, db, before));
      CommandKeepsReasons(site, deeds[|deeds| - 1].cmd, DbAfter(site, db, before));
    }
  }

  /** Under every interleaving, an admins table that is not empty stays so. */
  lemma {:induction false} AdminsNeverRunOut(site: Site, db: Db, deeds: seq<Deed>)
    requires db.admins != map[] && Genuine(site, db, deeds)
    ensures DbAfter(site, db, deeds).admins != map[]
    decreases |deeds|
  {
    if deeds != [] {
      AdminsNeverRunOut(site, db, deeds[..|deeds| - 1]);
      CommandKeepsAnAdmin(site, deeds[|deeds| - 1].cmd, DbAfter(site, db, deeds[..|deeds| - 1]));
    }
  }

  /** How many sign-ins granted admin, judged by the table before and after each. */
  function Promotions(site: Site, db: Db, deeds: seq<Deed>): nat
    decreases |deeds|
  {
    if deeds == [] then 0
    else
      var before := deeds[..|deeds| - 1];
      Promotions(site, db, before) +
      (if deeds[|deeds| - 1].cmd.SignIn? && DbAfter(site, db, deeds).admins != DbAfter(site, db, before).admins then 1 else 0)
  }

  /** The bootstrap rule fires at most once in a run, never once there is an admin, and then there is one. */
  lemma {:induction false} BootstrapFiresOnce(site: Site, db: Db, deeds: seq<Deed>)
    requires Genuine(site, db, deeds)
    ensures Promotions(site, db, deeds) <= 1
    ensures db.admins != map[] ==> Promotions(site, db, deeds) == 0
    ensures Promotions(site, db, deeds) == 1 ==> DbAfter(site, db, deeds).admins != map[]
    decreases |deeds|
  {
    if deeds != [] {
      var before := deeds[..|deeds| - 1];
      var was := DbAfter(site, db, before);
      BootstrapFiresOnce(site, db, before);
      if db.admins != map[] {
        AdminsNeverRunOut(site, db, before);
      }
      var cmd := deeds[|deeds| - 1].cmd;
      if was.admins != map[] {
        CommandKeepsAnAdmin(site, cmd, was);
      }
      if cmd.SignIn? && DbAfter(site, db, deeds).admins != was.admins {
        SignInPromotesOnlyTheFirst(site, cmd, was);
      }
    }
  }

  function Bans(deeds: seq<Deed>, user: int): nat
    decreases |deeds|
  {
    if deeds == [] then 0
    else Bans(deeds[..|deeds| - 1], user) + (if deeds[|deeds| - 1].answer == BanUserPayload(user) then 1 else 0)
  }

  function AllBans(deeds: seq<Deed>): nat
    decreases |deeds|
  {
    if deeds == [] then 0
    else AllBans(deeds[..|deeds| - 1]) + (if deeds[|deeds| - 1].answer.BanUserPayload? then 1 else 0)
  }

  /** Notices for the user that the queue's runner has finished with. */
  function Handled(deeds: seq<Deed>, user: int): nat
    decreases |deeds|
  {
    if deeds == [] then 0
    else
      var last := deeds[|deeds| - 1];
      Handled(deeds[..|deeds| - 1], user) +
      (if last.cmd == FinishJob(NotifyUserBanned(user)) && last.answer == Rows(1) then 1 else 0)
  }

  /**
   Ban and notice conservation, user by user: every committed ban enqueued exactly one notice, every
   notice in the queue or handled comes from a committed ban, and no failed or refused command adds one.
   */
  lemma {:induction false} EveryBanIsNotifiedOnce(site: Site, db: Db, deeds: seq<Deed>, user: int)
    requires Genuine(site, db, deeds)
    ensures DbAfter(site, db, deeds).queue[NotifyUserBanned(user)] + Handled(deeds, user)
            == db.queue[NotifyUserBanned(user)] + Bans(deeds, user)
    decreases |deeds|
  {
    if deeds != [] {
      var before := deeds[..|deeds| - 1];
      EveryBanIsNotifiedOnce(site, db, before, user);
      CommandNotices(site, deeds[|deeds| - 1].cmd, DbAfter(site, db, before), user);
    }
  }

  lemma {:induction false} CommittedBansAreCounted(site: Site, db: Db, deeds: seq<Deed>)
    requires Genuine(site, db, deeds)
    ensures CountedBy(site, db, deeds)[UserBanned] == AllBans(deeds)
    decreases |deeds|
  {
    if deeds != [] {
      var before := deeds[..|deeds| - 1];
      CommittedBansAreCounted(site, db, before);
      CommandCountsBans(site, deeds[|deeds| - 1].cmd, DbAfter(site, db, before));
    }
  }

  /**
   As long as nobody lifts a ban, re-bans and revocations leave its author in the row and in the admins
   table: the author cannot be removed, whatever else is committed in between.
   */
  lemma {:induction false} AStandingBanPinsItsAuthor(site: Site, db: Db, deeds: seq<Deed>, user: int, author: int)
    requires Schema(db) && Reasoned(db) && Genuine(site, db, deeds)
    requires user in db.bans && db.bans[user].bannedBy == Some(author)
    requires forall i | 0 <= i < |deeds| :: !(deeds[i].cmd.UnbanUser? && deeds[i].cmd.id == user)
    ensures var now := DbAfter(site, db, deeds);
            && user in now.bans && now.bans[user].bannedBy == Some(author) && now.bans[user].createdAt == db.bans[user].createdAt
            && author in now.admins
            && (forall actor :: author >= 1 && actor != Some(author) ==>
                  Apply(site, RemoveAdmin(author, actor), now) ==
                    if now.admins.Keys == {author} then Refuse(LastAdmin, now) else Rejected)
    decreases |deeds|
  {
    HistoriesKeepTheSchema(site, db, deeds);
    if deeds != [] {
      AStandingBanPinsItsAuthor(site, db, deeds[..|deeds| - 1], user, author);
      var was := DbAfter(site, db, deeds[..|deeds| - 1]);
      BanSurvives(site, deeds[|deeds| - 1].cmd, was, user);
    }
    var now := DbAfter(site, db, deeds);
    assert Restricted(now, author) by {
      assert user in now.bans && now.bans[user].bannedBy == Some(author);
    }
  }

  lemma BanSurvives(site: Site, cmd: Command, db: Db, user: int)
    requires user in db.bans && Apply(site, cmd, db).Answered?
    requires !(cmd.UnbanUser? && cmd.id == user)
    ensures var now := Apply(site, cmd, db).db;
            user in now.bans && now.bans[user].bannedBy == db.bans[user].bannedBy &&
            now.bans[user].createdAt == db.bans[user].createdAt
  {
  }

  // ---------------------------------------------------------------- every run of the process

  lemma {:induction false} StateSplits(site: Site, db: Db, a: seq<Deed>, b: seq<Deed>)
    ensures DbAfter(site, db, a + b) == DbAfter(site, DbAfter(site, db, a), b)
    decreases |b|
  {
    if b == [] {
      assert a + b == a;
    } else {
      LastOfConcat(a, b);
      StateSplits(site, db, a, b[..|b| - 1]);
    }
  }

  lemma {:induction false} HistorySplits(site: Site, db: Db, a: seq<Deed>, b: seq<Deed>)
    ensures DbAfter(site, db, a + b) == DbAfter(site, DbAfter(site, db, a), b)
    ensures Genuine(site, db, a + b) <==> Genuine(site, db, a) && Genuine(site, DbAfter(site, db, a), b)
    decreases |b|
  {
    StateSplits(site, db, a, b);
    if b == [] {
      assert a + b == a;
    } else {
      LastOfConcat(a, b);
      StateSplits(site, db, a, b[..|b| - 1]);
      HistorySplits(site, db, a, b[..|b| - 1]);
      assert LastVerdict(site, db, a + b) == LastVerdict(site, DbAfter(site, db, a), b);
    }
  }

  /** No command ever waits inside its transaction: in no run is any task stuck or about to be. */
  lemma CommandsNeverWaitInside(site: Site, s: Sys, ls: seq<Label>, cmds: map<nat, Command>)
    requires Init(s) && Possible(s, ls) && RunsCommands(site, After(s, ls), cmds)
    ensures SpawnsDisciplined(ls)
    ensures forall t | t in After(s, ls).tasks :: !After(s, ls).tasks[t].phase.Stuck? && !Blocks(After(s, ls), t)
  {
    forall i | 0 <= i < |ls| && ls[i].Spawn? ensures Always(NoEscape(Asked(ls[i].ctx)), ls[i].script) {
      SpawnedTasksStay(s, ls, i);
      CasesAreWellBehaved(site, cmds[ls[i].tid]);
    }
    RunsKeepInv(s, ls);
    HoldersNeverWait(s, ls);
    forall t | t in After(s, ls).tasks ensures !Blocks(After(s, ls), t) {
      if After(s, ls).tasks[t].phase.Open? {
        DisciplinedCall(After(s, ls), t, false);
      }
    }
  }

  /** No command deadlocks: while any task is unfinished some step is enabled that nothing has to fail for. */
  lemma CommandsNeverDeadlock(site: Site, s: Sys, ls: seq<Label>, cmds: map<nat, Command>, t: nat) returns (l: Label)
    requires Init(s) && Possible(s, ls) && RunsCommands(site, After(s, ls), cmds)
    requires t in After(s, ls).tasks && Unfinished(After(s, ls).tasks[t].phase)
    ensures Forward(l) && Enabled(After(s, ls), l)
  {
    CommandsNeverWaitInside(site, s, ls, cmds);
    l := NoDeadlock(s, ls, t);
  }

  /** The commands committed during a run, in order. */
  function Committed(s: Sys, cmds: map<nat, Command>): seq<Deed>
    requires forall i | 0 <= i < |s.log| :: s.log[i].tid in cmds
  {
    DeedsOf(s.log, cmds)
  }

  /** The log only grows, and every task keeps its closure. */
  ghost predicate Later(s: Sys, s': Sys) {
    && s.log <= s'.log
    && forall t | t in s.tasks :: t in s'.tasks && s'.tasks[t].script == s.tasks[t].script
  }

  lemma StepsGoLater(s: Sys, l: Label)
    requires Enabled(s, l)
    ensures Later(s, Do(s, l))
  {
    forall t | t in s.tasks ensures t in Do(s, l).tasks && Do(s, l).tasks[t].script == s.tasks[t].script {
      StepsKeepTasks(s, l, t);
    }
    if !l.Commit? {
      OnlyCommitsMoveTheState(s, l);
    }
  }

  lemma LaterStill(a: Sys, b: Sys, c: Sys)
    requires Later(a, b) && Later(b, c)
    ensures Later(a, c)
  {
  }

  lemma {:induction false} LogsGrow(s: Sys, ls: seq<Label>, more: seq<Label>)
    requires Possible(s, ls + more)
    ensures Possible(s, ls) && Later(After(s, ls), After(s, ls + more))
    decreases |more|
  {
    if more == [] {
      assert ls + more == ls;
    } else {
      var n := |more| - 1;
      assert (ls + more)[..|ls + more| - 1] == ls + more[..n];
      LogsGrow(s, ls, more[..n]);
      StepsGoLater(After(s, ls + more[..n]), more[n]);
      LaterStill(After(s, ls), After(s, ls + more[..n]), After(s, ls + more));
    }
  }

  lemma DeedsOfLonger(a: seq<Entry>, b: seq<Entry>, cmds: map<nat, Command>) returns (between: seq<Deed>)
    requires a <= b && forall i | 0 <= i < |b| :: b[i].tid in cmds
    ensures forall i | 0 <= i < |a| :: a[i].tid in cmds
    ensures DeedsOf(b, cmds) == DeedsOf(a, cmds) + between
  {
    assert forall i | 0 <= i < |a| :: a[i] == b[i];
    between := DeedsOf(b, cmds)[|a|..];
  }

  lemma RunsCommandsEarlier(site: Site, s: Sys, ls: seq<Label>, more: seq<Label>, cmds: map<nat, Command>)
    requires Init(s) && Possible(s, ls + more) && RunsCommands(site, After(s, ls + more), cmds)
    ensures Possible(s, ls) && RunsCommands(site, After(s, ls), cmds)
    ensures After(s, ls).log <= After(s, ls + more).log
  {
    LogsGrow(s, ls, more);
  }

  /** From any point of a run to any later one, the tables move by the commands committed in between. */
  lemma Between(site: Site, s: Sys, ls: seq<Label>, more: seq<Label>, cmds: map<nat, Command>) returns (between: seq<Deed>)
    requires Init(s) && Possible(s, ls + more) && RunsCommands(site, After(s, ls + more), cmds)
    ensures forall i | 0 <= i < |After(s, ls).log| :: After(s, ls).log[i].tid in cmds
    ensures forall i | 0 <= i < |After(s, ls + more).log| :: After(s, ls + more).log[i].tid in cmds
    ensures Committed(After(s, ls + more), cmds) == Committed(After(s, ls), cmds) + between
    ensures Genuine(site, After(s, ls).db, between) && After(s, ls + more).db == DbAfter(site, After(s, ls).db, between)
  {
    RunsCommandsEarlier(site, s, ls, more, cmds);
    RunsRefineCommands(site, s, ls + more, cmds);
    RunsRefineCommands(site, s, ls, cmds);
    between := DeedsOfLonger(After(s, ls).log, After(s, ls + more).log, cmds);
    HistorySplits(site, s.db, Committed(After(s, ls), cmds), between);
  }

  /** In every state of every run each ban names a user and a current admin or nobody, and carries a reason. */
  lemma RunsKeepTheSchema(site: Site, s: Sys, ls: seq<Label>, cmds: map<nat, Command>)
    requires Init(s) && Reasoned(s.db) && Possible(s, ls) && RunsCommands(site, After(s, ls), cmds)
    ensures Schema(After(s, ls).db) && Reasoned(After(s, ls).db)
  {
    RunsRefineCommands(site, s, ls, cmds);
    HistoriesKeepTheSchema(site, s.db, Committed(After(s, ls), cmds));
  }

  /** Whatever interleaving follows a state with an admin, there is an admin. */
  lemma RunsNeverRunOutOfAdmins(site: Site, s: Sys, ls: seq<Label>, more: seq<Label>, cmds: map<nat, Command>)
    requires Init(s) && Possible(s, ls + more) && RunsCommands(site, After(s, ls + more), cmds)
    requires After(s, ls).db.admins != map[]
    ensures After(s, ls + more).db.admins != map[]
  {
    var between := Between(site, s, ls, more, cmds);
    AdminsNeverRunOut(site, After(s, ls).db, between);
  }

  /** In every run the bootstrap rule grants admin at most once, and every committed ban has enqueued one notice. */
  lemma RunsBootstrapOnceAndNotifyEveryBan(site: Site, s: Sys, ls: seq<Label>, cmds: map<nat, Command>, user: int)
    requires Init(s) && Possible(s, ls) && RunsCommands(site, After(s, ls), cmds)
    ensures forall i | 0 <= i < |After(s, ls).log| :: After(s, ls).log[i].tid in cmds
    ensures var now := After(s, ls);
            var deeds := Committed(now, cmds);
            && Promotions(site, s.db, deeds) <= 1
            && (s.db.admins != map[] ==> Promotions(site, s.db, deeds) == 0)
            && now.db.queue[NotifyUserBanned(user)] + Handled(deeds, user) ==
                 s.db.queue[NotifyUserBanned(user)] + Bans(deeds, user)
  {
    RunsRefineCommands(site, s, ls, cmds);
    BootstrapFiresOnce(site, s.db, Committed(After(s, ls), cmds));
    EveryBanIsNotifiedOnce(site, s.db, Committed(After(s, ls), cmds), user);
  }

  /** From a ban on, as long as no lifting of it commits, its author stays an admin in every run. */
  lemma RunsPinTheAuthor(site: Site, s: Sys, ls: seq<Label>, more: seq<Label>, cmds: map<nat, Command>, user: int, author: int)
    returns (between: seq<Deed>)
    requires Init(s) && Reasoned(s.db) && Possible(s, ls + more) && RunsCommands(site, After(s, ls + more), cmds)
    requires user in After(s, ls).db.bans && After(s, ls).db.bans[user].bannedBy == Some(author)
    ensures forall i | 0 <= i < |After(s, ls).log| :: After(s, ls).log[i].tid in cmds
    ensures forall i | 0 <= i < |After(s, ls + more).log| :: After(s, ls + more).log[i].tid in cmds
    ensures Committed(After(s, ls + more), cmds) == Committed(After(s, ls), cmds) + between
    ensures (forall i | 0 <= i < |between| :: !(between[i].cmd.UnbanUser? && between[i].cmd.id == user)) ==>
              var now := After(s, ls + more).db;
              user in now.bans && now.bans[user].bannedBy == Some(author) && author in now.admins
  {
    between := Between(site, s, ls, more, cmds);
    RunsCommandsEarlier(site, s, ls, more, cmds);
    RunsKeepTheSchema(site, s, ls, cmds);
    if forall i | 0 <= i < |between| :: !(between[i].cmd.UnbanUser? && between[i].cmd.id == user) {
      AStandingBanPinsItsAuthor(site, After(s, ls).db, between, user, author);
    }
  }

  // ---------------------------------------------------------------- what is counted without a commit

  /** A command that ends in an error has counted nothing. */
  lemma RaisedCountsNothing(site: Site, cmd: Command, db: Db, choices: seq<bool>)
    requires Steps(Start(ScriptOf(site, cmd), db), choices).rest.Raise?
    ensures Steps(Start(ScriptOf(site, cmd), db), choices).bumps == multiset{}
  {
    CasesAreWellBehaved(site, cmd);
    CountedMeansAnswered(ScriptOf(site, cmd), db, choices);
  }

  /** At any moment of a command it has counted a ban exactly when it has returned the ban's payload. */
  lemma BanIsCountedWhenAnswered(site: Site, cmd: Command, db: Db, choices: seq<bool>)
    ensures var run := Steps(Start(ScriptOf(site, cmd), db), choices);
            run.bumps[UserBanned] == if run.rest.Return? && run.rest.answer.BanUserPayload? then 1 else 0
  {
    var run := Steps(Start(ScriptOf(site, cmd), db), choices);
    if run.rest.Return? {
      CommandsAreAtomic(site, cmd, db, choices);
      CommandCountsBans(site, cmd, db);
    } else {
      CasesAreWellBehaved(site, cmd);
      CountedMeansAnswered(ScriptOf(site, cmd), db, choices);
    }
  }

  /** A commit that fails, or a transaction that is cancelled. */
  predicate Breaks(l: Label) { l.CommitFails? || l.Abort? }

  /** The task has answered a ban and not committed it yet. */
  predicate BanAnswered(s: Sys, t: nat) {
    && t in s.tasks && HoldsLock(s.tasks[t].phase)
    && s.tasks[t].phase.run.rest.Return? && s.tasks[t].phase.run.rest.answer.BanUserPayload?
  }

  /** The bans of a run that were answered and then lost, to a failed commit or a cancellation. */
  function BrokenBans(s: Sys, ls: seq<Label>): nat
    decreases |ls|
  {
    if ls == [] then 0
    else
      var before, l := ls[..|ls| - 1], ls[|ls| - 1];
      BrokenBans(s, before) + (if Breaks(l) && BanAnswered(After(s, before), l.tid) then 1 else 0)
  }

  lemma HolderCountsItsBan(site: Site, s: Sys, ls: seq<Label>, cmds: map<nat, Command>, t: nat)
    requires Init(s) && Possible(s, ls) && RunsCommands(site, After(s, ls), cmds)
    requires t in After(s, ls).tasks && HoldsLock(After(s, ls).tasks[t].phase)
    ensures After(s, ls).tasks[t].phase.run.bumps[UserBanned] == if BanAnswered(After(s, ls), t) then 1 else 0
    ensures After(s, ls).tasks[t].phase.run.rest.Raise? ==> After(s, ls).tasks[t].phase.run.bumps == multiset{}
  {
    RunsKeepInv(s, ls);
    var now := After(s, ls);
    BanIsCountedWhenAnswered(site, cmds[t], now.db, now.tasks[t].phase.choices);
    if now.tasks[t].phase.run.rest.Raise? {
      RaisedCountsNothing(site, cmds[t], now.db, now.tasks[t].phase.choices);
    }
  }

  lemma EarlierRun(site: Site, s: Sys, ls: seq<Label>, cmds: map<nat, Command>)
    requires ls != [] && Init(s) && Possible(s, ls) && RunsCommands(site, After(s, ls), cmds)
    ensures Possible(s, ls[..|ls| - 1]) && RunsCommands(site, After(s, ls[..|ls| - 1]), cmds)
  {
    var before, last := ls[..|ls| - 1], ls[|ls| - 1..];
    Halves(ls, |ls| - 1);
    RunsCommandsEarlier(site, s, before, last, cmds);
  }

  /** When no commit fails and nothing is cancelled, nothing is counted for nothing: rolled-back commands count nothing. */
  lemma {:induction false} NothingIsLost(site: Site, s: Sys, ls: seq<Label>, cmds: map<nat, Command>)
    requires Init(s) && Possible(s, ls) && RunsCommands(site, After(s, ls), cmds)
    requires forall i | 0 <= i < |ls| :: !Breaks(ls[i])
    ensures After(s, ls).lost == multiset{}
    decreases |ls|
  {
    if ls != [] {
      var n := |ls| - 1;
      EarlierRun(site, s, ls, cmds);
      NothingIsLost(site, s, ls[..n], cmds);
      OnlyDropsLose(After(s, ls[..n]), ls[n]);
      if ls[n].Rollback? {
        HolderCountsItsBan(site, s, ls[..n], cmds, ls[n].tid);
      }
    }
  }

  lemma {:induction false} LostAreTheBroken(site: Site, s: Sys, ls: seq<Label>, cmds: map<nat, Command>)
    requires Init(s) && Possible(s, ls) && RunsCommands(site, After(s, ls), cmds)
    ensures After(s, ls).lost[UserBanned] == BrokenBans(s, ls)
    decreases |ls|
  {
    if ls != [] {
      var n := |ls| - 1;
      EarlierRun(site, s, ls, cmds);
      LostAreTheBroken(site, s, ls[..n], cmds);
      OnlyDropsLose(After(s, ls[..n]), ls[n]);
      if Drops(ls[n]) {
        HolderCountsItsBan(site, s, ls[..n], cmds, ls[n].tid);
      }
    }
  }

  /**
   The banned counter in any run, exactly: the committed bans, the bans that were answered and then lost to a
   failed commit or a cancellation, and the one an open transaction has answered. So it is at least the
   committed bans, and with no transaction open it is equal to them exactly when no ban was broken so.
   */
  lemma TheBannedCounter(site: Site, s: Sys, ls: seq<Label>, cmds: map<nat, Command>)
    requires Init(s) && Possible(s, ls) && RunsCommands(site, After(s, ls), cmds)
    ensures forall i | 0 <= i < |After(s, ls).log| :: After(s, ls).log[i].tid in cmds
    ensures var now := After(s, ls);
            var bans := AllBans(Committed(now, cmds));
            && now.metrics[UserBanned] == bans + BrokenBans(s, ls) +
                 (if now.lock.Some? && BanAnswered(now, now.lock.value) then 1 else 0)
            && (now.lock.None? ==> (now.metrics[UserBanned] == bans <==> BrokenBans(s, ls) == 0))
  {
    RunsRefineCommands(site, s, ls, cmds);
    CommittedBansAreCounted(site, s.db, Committed(After(s, ls), cmds));
    LostAreTheBroken(site, s, ls, cmds);
    RunsKeepInv(s, ls);
    if After(s, ls).lock.Some? {
      HolderCountsItsBan(site, s, ls, cmds, After(s, ls).lock.value);
    }
  }

  lemma {:induction false} NothingBrokenWithoutBreaks(s: Sys, ls: seq<Label>)
    requires forall i | 0 <= i < |ls| :: !Breaks(ls[i])
    ensures BrokenBans(s, ls) == 0
    decreases |ls|
  {
    if ls != [] {
      NothingBrokenWithoutBreaks(s, ls[..|ls| - 1]);
    }
  }

  /** When no commit fails and nothing is cancelled, the counter is the number of committed bans between transactions. */
  lemma EqualWhenNoCommitFails(site: Site, s: Sys, ls: seq<Label>, cmds: map<nat, Command>)
    requires Init(s) && Possible(s, ls) && RunsCommands(site, After(s, ls), cmds)
    requires forall i | 0 <= i < |ls| :: !Breaks(ls[i])
    requires After(s, ls).lock.None?
    ensures forall i | 0 <= i < |After(s, ls).log| :: After(s, ls).log[i].tid in cmds
    ensures After(s, ls).metrics[UserBanned] == AllBans(Committed(After(s, ls), cmds))
  {
    TheBannedCounter(site, s, ls, cmds);
    NothingBrokenWithoutBreaks(s, ls);
  }
}
