/**
 Requests and the identity they act under: when an installation can end up with nobody able to act.

 A request reads its caller's identity once, at its start, and its commands act under that identity
 whatever is committed in between.
 */
module Lockout {
  import opened Wrappers
  import opened Database
  import opened Scripts
  import opened Commands
  import opened Scheduler
  import opened History

  /** Admins who are not banned: the ones who can still act. */
  function Standing(db: Db): set<int> { db.admins.Keys - db.bans.Keys }

  /** Nobody is banned before there is an admin, and afterwards some admin can act. */
  ghost predicate Unlocked(db: Db) {
    if db.admins == map[] then db.bans == map[] else Standing(db) != {}
  }

  /** The guards of BanUser, read off the state before it. */
  predicate BanGoesThrough(site: Site, id: int, reason: string, actor: Option<int>, db: Db) {
    && id >= 1 && ValidReason(site.trim(reason)) && actor != Some(id) && id in db.users
    && (id in db.bans || actor.None? || actor.value in db.admins)
  }

  /** The guards of RemoveAdmin when it removes a row. */
  predicate RemovalGoesThrough(id: int, actor: Option<int>, db: Db) {
    id >= 1 && actor != Some(id) && id in db.admins && |db.admins| > 1 && !Restricted(db, id)
  }

  /** A ban or a removal that goes through, with the target the only admin standing (or none standing). */
  predicate LocksOut(site: Site, cmd: Command, db: Db) {
    match cmd
    case BanUser(id, reason, actor, _) => BanGoesThrough(site, id, reason, actor, db) && Standing(db) <= {id}
    case RemoveAdmin(id, actor) => RemovalGoesThrough(id, actor, db) && Standing(db) <= {id}
    case _ => false
  }

  lemma BanLockout(site: Site, id: int, reason: string, actor: Option<int>, now: int, db: Db)
    requires Schema(db) && Unlocked(db)
    ensures var v := ApplyBan(site, id, reason, actor, now, db);
            v.Answered? && !Unlocked(v.db) <==> BanGoesThrough(site, id, reason, actor, db) && Standing(db) <= {id}
  {
    var v := ApplyBan(site, id, reason, actor, now, db);
    if BanGoesThrough(site, id, reason, actor, db) {
      assert v.db.bans.Keys == db.bans.Keys + {id};
      assert Standing(v.db) == Standing(db) - {id};
      assert id in v.db.bans;
    }
  }

  lemma RemoveLockout(id: int, actor: Option<int>, db: Db)
    requires Schema(db) && Unlocked(db)
    ensures var v := ApplyRemoveAdmin(id, actor, db);
            v.Answered? && !Unlocked(v.db) <==> RemovalGoesThrough(id, actor, db) && Standing(db) <= {id}
  {
    var v := ApplyRemoveAdmin(id, actor, db);
    if id in db.admins {
      OneAdminLeft(db.admins, id);
    }
    if RemovalGoesThrough(id, actor, db) {
      assert v.db.admins.Keys == db.admins.Keys - {id};
      assert Standing(v.db) == Standing(db) - {id};
      var other := Pick(db.admins.Keys - {id});
      assert other in v.db.admins;
    }
  }

  lemma OthersNeverLockOut(site: Site, cmd: Command, db: Db)
    requires Schema(db) && Unlocked(db) && Apply(site, cmd, db).Answered?
    requires !cmd.BanUser? && !cmd.RemoveAdmin?
    ensures Unlocked(Apply(site, cmd, db).db)
  {
    var now := Apply(site, cmd, db).db;
    if db.admins != map[] {
      CommandKeepsAnAdmin(site, cmd, db);
      assert Standing(db) <= Standing(now);
    } else if now.admins != map[] {
      assert now.bans == map[];
      assert cmd.MakeAdmin? || cmd.SignIn?;
      var id := if cmd.MakeAdmin? then cmd.id else Apply(site, cmd, db).answer.id;
      assert id in Standing(now);
    }
  }

  /** Exactly which command locks everyone out, under any interleaving: a check its caller could make on the state. */
  lemma LockoutIsExact(site: Site, cmd: Command, db: Db)
    requires Schema(db) && Unlocked(db)
    ensures var v := Apply(site, cmd, db);
            v.Answered? && !Unlocked(v.db) <==> LocksOut(site, cmd, db)
  {
    match cmd
    case BanUser(id, reason, actor, now) => BanLockout(site, id, reason, actor, now, db);
    case RemoveAdmin(id, actor) => RemoveLockout(id, actor, db);
    case _ =>
      if Apply(site, cmd, db).Answered? {
        OthersNeverLockOut(site, cmd, db);
      }
  }

  /** Unlocked after every commit of the history, the start included. */
  ghost predicate AlwaysUnlocked(site: Site, db: Db, deeds: seq<Deed>)
    decreases |deeds|
  {
    Unlocked(DbAfter(site, db, deeds)) && (deeds != [] ==> AlwaysUnlocked(site, db, deeds[..|deeds| - 1]))
  }

  /** No command of the history locks out on the state it finds. */
  predicate NoneLocksOut(site: Site, db: Db, deeds: seq<Deed>)
    decreases |deeds|
  {
    deeds != [] ==>
      NoneLocksOut(site, db, deeds[..|deeds| - 1]) &&
      !LocksOut(site, deeds[|deeds| - 1].cmd, DbAfter(site, db, deeds[..|deeds| - 1]))
  }

  /** A whole history stays unlocked at every commit exactly when none of its commands locks out where it commits. */
  lemma {:induction false} HistoriesLockOutExactly(site: Site, db: Db, deeds: seq<Deed>)
    requires Schema(db) && Reasoned(db) && Unlocked(db) && Genuine(site, db, deeds)
    ensures AlwaysUnlocked(site, db, deeds) <==> NoneLocksOut(site, db, deeds)
    decreases |deeds|
  {
    if deeds != [] {
      var before := deeds[..|deeds| - 1];
      HistoriesLockOutExactly(site, db, before);
      HistoriesKeepTheSchema(site, db, before);
      if Unlocked(DbAfter(site, db, before)) {
        LockoutIsExact(site, deeds[|deeds| - 1].cmd, DbAfter(site, db, before));
      }
    }
  }

  // ---------------------------------------------------------------- requests that do not overlap

  /** A request and what it committed, or work the process does on its own (jobs, cron, the audit flush). */
  datatype Request = Background(deeds: seq<Deed>) | Caller(oidc: Oidc, deeds: seq<Deed>)

  predicate Chore(cmd: Command) {
    cmd.Purge? || cmd.SchedulePurge? || cmd.FinishJob? || cmd.WriteAudit? || cmd.RecordSignIn?
  }

  /** What checkAdmin lets through, under the identity the request carries. */
  predicate Permitted(cmd: Command, actor: int, isAdmin: bool) {
    Chore(cmd) ||
    (isAdmin &&
     (cmd.UnbanUser? || cmd.MakeAdmin? || (cmd.BanUser? && cmd.actor == Some(actor)) ||
      (cmd.RemoveAdmin? && cmd.actor == Some(actor))))
  }

  /** The request ran on `db` with no other request's commit between its identity read and its commands. */
  predicate Served(site: Site, db: Db, req: Request) {
    Genuine(site, db, req.deeds) &&
    match req
    case Background(deeds) => forall i | 0 <= i < |deeds| :: Chore(deeds[i].cmd)
    case Caller(oidc, deeds) =>
      match GetIdentityByOIDC(db, oidc)
      case Some(row) =>
        if row.banReason != "" then deeds == []
        else forall i | 0 <= i < |deeds| :: Permitted(deeds[i].cmd, row.id, row.isAdmin)
      case None =>
        deeds == [] ||
        (deeds[0].cmd.SignIn? && deeds[0].cmd.oidc == oidc && deeds[0].answer.SignedIn? &&
         forall i | 1 <= i < |deeds| :: Permitted(deeds[i].cmd, deeds[0].answer.id, deeds[0].answer.isAdmin))
  }

  function Flatten(reqs: seq<Request>): seq<Deed>
    decreases |reqs|
  {
    if reqs == [] then [] else Flatten(reqs[..|reqs| - 1]) + reqs[|reqs| - 1].deeds
  }

  predicate ServedInTurn(site: Site, db: Db, reqs: seq<Request>)
    decreases |reqs|
  {
    reqs == [] ||
    (ServedInTurn(site, db, reqs[..|reqs| - 1]) &&
     Served(site, DbAfter(site, db, Flatten(reqs[..|reqs| - 1])), reqs[|reqs| - 1]))
  }

  lemma ChoresLeaveAccessAlone(site: Site, cmd: Command, db: Db)
    requires Chore(cmd) && Apply(site, cmd, db).Answered?
    ensures Apply(site, cmd, db).db.admins == db.admins && Apply(site, cmd, db).db.bans == db.bans
  {
    match cmd
    case RecordSignIn(id, at) =>
    case WriteAudit(row) =>
    case _ =>
  }

  /** An admin acting under a true identity cannot lose their own standing. */
  lemma ActorKeepsStanding(site: Site, cmd: Command, db: Db, actor: int)
    requires Permitted(cmd, actor, true) && Apply(site, cmd, db).Answered? && actor in Standing(db)
    ensures actor in Standing(Apply(site, cmd, db).db)
  {
  }

  lemma {:induction false} CommandsOfOneCaller(site: Site, db: Db, deeds: seq<Deed>, actor: int, isAdmin: bool)
    requires Genuine(site, db, deeds)
    requires forall i | 0 <= i < |deeds| :: Permitted(deeds[i].cmd, actor, isAdmin)
    requires isAdmin ==> actor in Standing(db)
    ensures isAdmin ==> actor in Standing(DbAfter(site, db, deeds))
    ensures !isAdmin ==> DbAfter(site, db, deeds).admins == db.admins && DbAfter(site, db, deeds).bans == db.bans
    decreases |deeds|
  {
    if deeds != [] {
      var before := deeds[..|deeds| - 1];
      CommandsOfOneCaller(site, db, before, actor, isAdmin);
      if isAdmin {
        ActorKeepsStanding(site, deeds[|deeds| - 1].cmd, DbAfter(site, db, before), actor);
      } else {
        ChoresLeaveAccessAlone(site, deeds[|deeds| - 1].cmd, DbAfter(site, db, before));
      }
    }
  }

  /** A first sign-in is admin exactly when the bootstrap rule fired, and then the new admin stands. */
  lemma FirstSignIn(site: Site, db: Db, cmd: Command)
    requires Schema(db) && Unlocked(db) && cmd.SignIn? && cmd.oidc !in db.byOidc && Apply(site, cmd, db).Answered?
    ensures var v := Apply(site, cmd, db);
            && Unlocked(v.db) && v.answer.SignedIn?
            && (v.answer.isAdmin <==> Bootstraps(site, site.lower(site.trim(cmd.email)), db))
            && (v.answer.isAdmin ==> v.answer.id in Standing(v.db))
  {
    OthersNeverLockOut(site, cmd, db);
    assert db.nextUserId !in db.users;
  }

  lemma OneRequest(site: Site, db: Db, req: Request)
    requires Schema(db) && Reasoned(db) && Unlocked(db) && Served(site, db, req)
    ensures Unlocked(DbAfter(site, db, req.deeds))
  {
    match req
    case Background(deeds) => CommandsOfOneCaller(site, db, deeds, 0, false);
    case Caller(oidc, deeds) =>
      match GetIdentityByOIDC(db, oidc) {
        case Some(row) =>
          BanSentinelIsExact(db, oidc);
          if row.banReason == "" {
            CommandsOfOneCaller(site, db, deeds, row.id, row.isAdmin);
          }
        case None =>
          if deeds != [] {
            var first, rest := deeds[..1], deeds[1..];
            assert deeds == first + rest && first[..0] == [];
            HistorySplits(site, db, first, rest);
            var v := Apply(site, deeds[0].cmd, db);
            assert LastVerdict(site, db, first) == v && DbAfter(site, db, first) == v.db;
            FirstSignIn(site, db, deeds[0].cmd);
            CommandsOfOneCaller(site, v.db, rest, v.answer.id, v.answer.isAdmin);
          }
      }
  }

  /** When requests do not overlap, nobody is banned before there is an admin, and then some admin can always act. */
  lemma {:induction false} NobodyIsLockedOut(site: Site, db: Db, reqs: seq<Request>)
    requires Schema(db) && Reasoned(db) && Unlocked(db) && ServedInTurn(site, db, reqs)
    ensures Genuine(site, db, Flatten(reqs))
    ensures Unlocked(DbAfter(site, db, Flatten(reqs)))
    decreases |reqs|
  {
    if reqs != [] {
      var before := reqs[..|reqs| - 1];
      NobodyIsLockedOut(site, db, before);
      HistoriesKeepTheSchema(site, db, Flatten(before));
      HistorySplits(site, db, Flatten(before), reqs[|reqs| - 1].deeds);
      OneRequest(site, DbAfter(site, db, Flatten(before)), reqs[|reqs| - 1]);
    }
  }

  /** The same for the process: a run whose commits group into requests served one after another. */
  lemma RunsServedInTurnStayUnlocked(site: Site, s: Sys, ls: seq<Label>, cmds: map<nat, Command>, reqs: seq<Request>)
    requires Init(s) && Possible(s, ls) && RunsCommands(site, After(s, ls), cmds)
    requires forall i | 0 <= i < |After(s, ls).log| :: After(s, ls).log[i].tid in cmds
    requires Reasoned(s.db) && Unlocked(s.db)
    requires DeedsOf(After(s, ls).log, cmds) == Flatten(reqs) && ServedInTurn(site, s.db, reqs)
    ensures Unlocked(After(s, ls).db)
  {
    RunsRefineCommands(site, s, ls, cmds);
    NobodyIsLockedOut(site, s.db, reqs);
  }

  // ---------------------------------------------------------------- requests in a run

  /** A request of a run: whose, and the snapshot its identity was read from, at a position of the commit log. */
  datatype Visit = Visit(oidc: Oidc, at: nat, seen: Db)

  /** Who committed each deed: a request, or the process itself (None). */
  type Owners = seq<Option<nat>>

  ghost predicate FirstOf(owners: Owners, v: nat, f: nat) {
    f < |owners| && owners[f] == Some(v) && forall j | 0 <= j < f :: owners[j] != Some(v)
  }

  /** The request v signed in with its deed f: the snapshot did not know its identity. */
  ghost predicate SignedUp(deeds: seq<Deed>, owners: Owners, visit: Visit, v: nat, f: nat) {
    && |owners| == |deeds| && FirstOf(owners, v, f)
    && deeds[f].cmd.SignIn? && deeds[f].cmd.oidc == visit.oidc && deeds[f].answer.SignedIn?
  }

  /** The deed is one its request may commit, under the identity of its snapshot or of its own sign-in. */
  ghost predicate Entitled(deeds: seq<Deed>, owners: Owners, visits: seq<Visit>, i: nat)
    requires |owners| == |deeds| && i < |deeds|
  {
    if owners[i].None? then Chore(deeds[i].cmd)
    else
      var v := owners[i].value;
      && v < |visits| && visits[v].at <= i
      && match GetIdentityByOIDC(visits[v].seen, visits[v].oidc)
         case Some(row) => row.banReason == "" && Permitted(deeds[i].cmd, row.id, row.isAdmin)
         case None =>
           exists f :: 0 <= f <= i && SignedUp(deeds, owners, visits[v], v, f) &&
                       (i == f || Permitted(deeds[i].cmd, deeds[f].answer.id, deeds[f].answer.isAdmin))
  }

  /** No other request committed between this deed's identity read and the deed; the process's own work may have. */
  ghost predicate Undisturbed(deeds: seq<Deed>, owners: Owners, visits: seq<Visit>, i: nat)
    requires |owners| == |deeds| && i < |deeds|
  {
    owners[i].Some? ==>
      owners[i].value < |visits| &&
      forall j | visits[owners[i].value].at <= j < i :: owners[j] == owners[i] || Chore(deeds[j].cmd)
  }

  ghost predicate Unoverlapped(deeds: seq<Deed>, owners: Owners, visits: seq<Visit>) {
    && |owners| == |deeds|
    && forall i | 0 <= i < |deeds| :: Entitled(deeds, owners, visits, i) && Undisturbed(deeds, owners, visits, i)
  }

  ghost predicate Saw(site: Site, db: Db, deeds: seq<Deed>, visit: Visit) {
    visit.at <= |deeds| && visit.seen == DbAfter(site, db, deeds[..visit.at])
  }

  /** Each visit's snapshot is the state at its position of the log. */
  ghost predicate SawTheState(site: Site, db: Db, deeds: seq<Deed>, visits: seq<Visit>) {
    forall v {:trigger Saw(site, db, deeds, visits[v])} | 0 <= v < |visits| :: Saw(site, db, deeds, visits[v])
  }

  /** What a history without overlap starts from and consists of. */
  ghost predicate Lawful(site: Site, db: Db, deeds: seq<Deed>, owners: Owners, visits: seq<Visit>) {
    && Schema(db) && Reasoned(db) && Genuine(site, db, deeds)
    && SawTheState(site, db, deeds, visits) && Unoverlapped(deeds, owners, visits)
  }

  lemma {:induction false} GenuineTo(site: Site, db: Db, deeds: seq<Deed>, n: nat)
    requires Genuine(site, db, deeds) && n <= |deeds|
    ensures Genuine(site, db, deeds[..n])
    decreases |deeds|
  {
    if n == |deeds| {
      assert deeds[..n] == deeds;
    } else {
      assert deeds[..|deeds| - 1][..n] == deeds[..n];
      GenuineTo(site, db, deeds[..|deeds| - 1], n);
    }
  }

  lemma DeedAt(site: Site, db: Db, deeds: seq<Deed>, i: nat)
    requires Genuine(site, db, deeds) && i < |deeds|
    ensures var v := Apply(site, deeds[i].cmd, DbAfter(site, db, deeds[..i]));
            Genuine(site, db, deeds[..i]) && v.Answered? && v.answer == deeds[i].answer && DbAfter(site, db, deeds[..i + 1]) == v.db
  {
    Halves(deeds, i);
    GenuineTo(site, db, deeds, i + 1);
    OneMoreDeed(site, db, deeds[..i], deeds[i]);
  }

  lemma StandsOnceMore(site: Site, db: Db, deeds: seq<Deed>, i: nat, actor: int)
    requires Genuine(site, db, deeds) && i < |deeds| && Permitted(deeds[i].cmd, actor, true)
    requires actor in Standing(DbAfter(site, db, deeds[..i]))
    ensures actor in Standing(DbAfter(site, db, deeds[..i + 1]))
  {
    DeedAt(site, db, deeds, i);
    ActorKeepsStanding(site, deeds[i].cmd, DbAfter(site, db, deeds[..i]), actor);
  }

  lemma {:induction false} StandsThroughout(site: Site, db: Db, deeds: seq<Deed>, p: nat, i: nat, actor: int)
    requires Genuine(site, db, deeds) && p <= i <= |deeds| && actor in Standing(DbAfter(site, db, deeds[..p]))
    requires forall j | p <= j < i :: Permitted(deeds[j].cmd, actor, true)
    ensures actor in Standing(DbAfter(site, db, deeds[..i]))
    decreases |deeds| - p
  {
    if p < i {
      StandsOnceMore(site, db, deeds, p, actor);
      StandsThroughout(site, db, deeds, p + 1, i, actor);
    }
  }

  lemma {:induction false} ChoresKeepIdentities(site: Site, db: Db, deeds: seq<Deed>, p: nat, i: nat)
    requires Genuine(site, db, deeds) && p <= i <= |deeds| && forall j | p <= j < i :: Chore(deeds[j].cmd)
    ensures DbAfter(site, db, deeds[..i]).byOidc == DbAfter(site, db, deeds[..p]).byOidc
    decreases i
  {
    if p < i {
      ChoresKeepIdentities(site, db, deeds, p, i - 1);
      DeedAt(site, db, deeds, i - 1);
      ChoreKeepsIdentities(site, deeds[i - 1].cmd, DbAfter(site, db, deeds[..i - 1]));
    }
  }

  lemma ChoreKeepsIdentities(site: Site, cmd: Command, db: Db)
    requires Chore(cmd) && Apply(site, cmd, db).Answered?
    ensures Apply(site, cmd, db).db.byOidc == db.byOidc
  {
  }

  predicate Targets(cmd: Command) { cmd.BanUser? || cmd.RemoveAdmin? }

  /** The author of an undisturbed ban or removal by a caller the snapshot knew stands when it commits. */
  lemma KnownActorStands(site: Site, db: Db, deeds: seq<Deed>, owners: Owners, visits: seq<Visit>, i: nat) returns (actor: int)
    requires Lawful(site, db, deeds, owners, visits) && i < |deeds| && Targets(deeds[i].cmd)
    requires owners[i].Some? && owners[i].value < |visits|
    requires GetIdentityByOIDC(visits[owners[i].value].seen, visits[owners[i].value].oidc).Some?
    ensures Permitted(deeds[i].cmd, actor, true) && actor in Standing(DbAfter(site, db, deeds[..i]))
  {
    assert Entitled(deeds, owners, visits, i);
    var v := owners[i].value;
    var row := GetIdentityByOIDC(visits[v].seen, visits[v].oidc).value;
    actor := row.id;
    assert Saw(site, db, deeds, visits[v]);
    StartIsLawful(site, db, deeds, visits[v].at);
    BanSentinelIsExact(visits[v].seen, visits[v].oidc);
    forall j | visits[v].at <= j < i ensures Permitted(deeds[j].cmd, actor, true) {
      assert Undisturbed(deeds, owners, visits, i) && Entitled(deeds, owners, visits, j);
    }
    StandsThroughout(site, db, deeds, visits[v].at, i, actor);
  }

  lemma StartIsLawful(site: Site, db: Db, deeds: seq<Deed>, p: nat)
    requires Schema(db) && Reasoned(db) && Genuine(site, db, deeds) && p <= |deeds|
    ensures Genuine(site, db, deeds[..p]) && Schema(DbAfter(site, db, deeds[..p])) && Reasoned(DbAfter(site, db, deeds[..p]))
  {
    GenuineTo(site, db, deeds, p);
    HistoriesKeepTheSchema(site, db, deeds[..p]);
  }

  lemma OneFirst(owners: Owners, v: nat, f: nat, g: nat)
    requires FirstOf(owners, v, f) && FirstOf(owners, v, g)
    ensures f == g
  {
  }

  /** An undisturbed first sign-in finds its identity still unknown; as an admin it stands. */
  lemma NewcomerStands(site: Site, db: Db, deeds: seq<Deed>, owners: Owners, visits: seq<Visit>, v: nat, f: nat)
    requires Lawful(site, db, deeds, owners, visits) && v < |visits| && SignedUp(deeds, owners, visits[v], v, f)
    requires GetIdentityByOIDC(visits[v].seen, visits[v].oidc).None? && visits[v].at <= f
    requires Unlocked(DbAfter(site, db, deeds[..f]))
    ensures deeds[f].answer.isAdmin ==> deeds[f].answer.id in Standing(DbAfter(site, db, deeds[..f + 1]))
  {
    var p := visits[v].at;
    assert Saw(site, db, deeds, visits[v]);
    StartIsLawful(site, db, deeds, p);
    StartIsLawful(site, db, deeds, f);
    forall j | p <= j < f ensures Chore(deeds[j].cmd) {
      assert Undisturbed(deeds, owners, visits, f);
    }
    ChoresKeepIdentities(site, db, deeds, p, f);
    DeedAt(site, db, deeds, f);
    FirstSignIn(site, DbAfter(site, db, deeds[..f]), deeds[f].cmd);
  }

  /** Between a request's own sign-in and an undisturbed deed of it only that request acts, as the one who signed in. */
  lemma NewcomerActs(deeds: seq<Deed>, owners: Owners, visits: seq<Visit>, v: nat, f: nat, i: nat, j: nat)
    requires Unoverlapped(deeds, owners, visits) && v < |visits| && SignedUp(deeds, owners, visits[v], v, f)
    requires GetIdentityByOIDC(visits[v].seen, visits[v].oidc).None? && visits[v].at <= f < j <= i < |deeds|
    requires owners[i] == Some(v)
    ensures Permitted(deeds[j].cmd, deeds[f].answer.id, deeds[f].answer.isAdmin)
  {
    assert Undisturbed(deeds, owners, visits, i) && Entitled(deeds, owners, visits, j);
    if owners[j] == Some(v) {
      var g :| 0 <= g <= j && SignedUp(deeds, owners, visits[v], v, g) &&
               (j == g || Permitted(deeds[j].cmd, deeds[g].answer.id, deeds[g].answer.isAdmin));
      OneFirst(owners, v, f, g);
    }
  }

  lemma OwnSignIn(deeds: seq<Deed>, owners: Owners, visits: seq<Visit>, i: nat) returns (f: nat)
    requires Unoverlapped(deeds, owners, visits) && i < |deeds| && Targets(deeds[i].cmd)
    requires owners[i].Some? && owners[i].value < |visits|
    requires GetIdentityByOIDC(visits[owners[i].value].seen, visits[owners[i].value].oidc).None?
    ensures visits[owners[i].value].at <= f < i && SignedUp(deeds, owners, visits[owners[i].value], owners[i].value, f)
  {
    var v := owners[i].value;
    assert Entitled(deeds, owners, visits, i);
    f :| 0 <= f <= i && SignedUp(deeds, owners, visits[v], v, f) &&
         (i == f || Permitted(deeds[i].cmd, deeds[f].answer.id, deeds[f].answer.isAdmin));
    assert Entitled(deeds, owners, visits, f);
  }

  /** The author of an undisturbed ban or removal by a caller who signed in first stands when it commits. */
  lemma NewActorStands(site: Site, db: Db, deeds: seq<Deed>, owners: Owners, visits: seq<Visit>, i: nat) returns (actor: int)
    requires Lawful(site, db, deeds, owners, visits) && i < |deeds| && Targets(deeds[i].cmd)
    requires owners[i].Some? && owners[i].value < |visits|
    requires GetIdentityByOIDC(visits[owners[i].value].seen, visits[owners[i].value].oidc).None?
    requires UnlockedTo(site, db, deeds, i)
    ensures Permitted(deeds[i].cmd, actor, true) && actor in Standing(DbAfter(site, db, deeds[..i]))
  {
    var v := owners[i].value;
    var f := OwnSignIn(deeds, owners, visits, i);
    actor := deeds[f].answer.id;
    NewcomerActs(deeds, owners, visits, v, f, i, i);
    NewcomerStands(site, db, deeds, owners, visits, v, f);
    forall j | f + 1 <= j < i ensures Permitted(deeds[j].cmd, actor, true) {
      NewcomerActs(deeds, owners, visits, v, f, i, j);
    }
    StandsThroughout(site, db, deeds, f + 1, i, actor);
  }

  lemma OneMoreUnlocked(site: Site, db: Db, deeds: seq<Deed>, owners: Owners, visits: seq<Visit>, i: nat)
    requires Lawful(site, db, deeds, owners, visits) && i < |deeds|
    requires UnlockedTo(site, db, deeds, i)
    ensures Unlocked(DbAfter(site, db, deeds[..i + 1]))
  {
    StartIsLawful(site, db, deeds, i);
    DeedAt(site, db, deeds, i);
    var now, cmd := DbAfter(site, db, deeds[..i]), deeds[i].cmd;
    if Targets(cmd) {
      assert Entitled(deeds, owners, visits, i);
      var v := owners[i].value;
      var actor;
      if GetIdentityByOIDC(visits[v].seen, visits[v].oidc).Some? {
        actor := KnownActorStands(site, db, deeds, owners, visits, i);
      } else {
        actor := NewActorStands(site, db, deeds, owners, visits, i);
      }
      ActorKeepsStanding(site, cmd, now, actor);
    } else {
      OthersNeverLockOut(site, cmd, now);
    }
  }

  ghost predicate UnlockedTo(site: Site, db: Db, deeds: seq<Deed>, n: nat)
    requires n <= |deeds|
  {
    forall m | 0 <= m <= n :: Unlocked(DbAfter(site, db, deeds[..m]))
  }

  /** Without overlap the panel is unlocked after every commit. */
  lemma {:induction false} UnoverlappedStaysUnlocked(
    site: Site, db: Db, deeds: seq<Deed>, owners: Owners, visits: seq<Visit>, n: nat)
    requires Lawful(site, db, deeds, owners, visits) && Unlocked(db) && n <= |deeds|
    ensures UnlockedTo(site, db, deeds, n)
    decreases n
  {
    if n == 0 {
      assert deeds[..0] == [];
    } else {
      UnoverlappedStaysUnlocked(site, db, deeds, owners, visits, n - 1);
      OneMoreUnlocked(site, db, deeds, owners, visits, n - 1);
      UnlockedToHere(site, db, deeds, n);
    }
  }

  lemma UnlockedToHere(site: Site, db: Db, deeds: seq<Deed>, n: nat)
    requires 0 < n <= |deeds| && UnlockedTo(site, db, deeds, n - 1) && Unlocked(DbAfter(site, db, deeds[..n]))
    ensures UnlockedTo(site, db, deeds, n)
  {
  }

  /** A visit's identity was read by a reader of the run. */
  ghost predicate WasRead(s: Sys, visit: Visit) {
    exists r :: 0 <= r < |s.snapshots| && s.snapshots[r] == Snapshot(visit.at, visit.seen)
  }

  lemma ReadersSawTheState(site: Site, s: Sys, ls: seq<Label>, cmds: map<nat, Command>, visits: seq<Visit>)
    requires Init(s) && Possible(s, ls) && RunsCommands(site, After(s, ls), cmds)
    requires forall v | 0 <= v < |visits| :: WasRead(After(s, ls), visits[v])
    requires forall i | 0 <= i < |After(s, ls).log| :: After(s, ls).log[i].tid in cmds
    ensures SawTheState(site, s.db, Committed(After(s, ls), cmds), visits)
  {
    RunsKeepInv(s, ls);
    var now := After(s, ls);
    forall v | 0 <= v < |visits| ensures Saw(site, s.db, Committed(now, cmds), visits[v]) {
      assert WasRead(now, visits[v]);
      var r :| 0 <= r < |now.snapshots| && now.snapshots[r] == Snapshot(visits[v].at, visits[v].seen);
      PrefixOfTheLog(site, s, ls, cmds, visits[v].at);
    }
  }

  lemma DeedsOfPrefix(log: seq<Entry>, cmds: map<nat, Command>, n: nat)
    requires n <= |log| && forall i | 0 <= i < |log| :: log[i].tid in cmds
    ensures DeedsOf(log, cmds)[..n] == DeedsOf(log[..n], cmds)
  {
  }

  lemma PrefixOfTheLog(site: Site, s: Sys, ls: seq<Label>, cmds: map<nat, Command>, n: nat)
    requires Init(s) && Possible(s, ls) && RunsCommands(site, After(s, ls), cmds) && n <= |After(s, ls).log|
    requires forall i | 0 <= i < |After(s, ls).log| :: After(s, ls).log[i].tid in cmds
    ensures DbAfter(site, s.db, Committed(After(s, ls), cmds)[..n]) == Replay(s.db, After(s, ls).log[..n])
  {
    RunsKeepInv(s, ls);
    var log := After(s, ls).log;
    SerialPrefix(s.db, log, n);
    SerialIsGenuine(site, s.db, log[..n], cmds);
    DeedsOfPrefix(log, cmds, n);
  }

  lemma {:induction false} SerialPrefix(db: Db, log: seq<Entry>, n: nat)
    requires Serial(db, log) && n <= |log|
    ensures Serial(db, log[..n])
    decreases |log|
  {
    if n == |log| {
      assert log[..n] == log;
    } else {
      SerialPrefix(db, log[..|log| - 1], n);
      assert log[..|log| - 1][..n] == log[..n];
    }
  }

  /**
   A run in which every request's identity is read from a snapshot and no other request commits between that
   and any of its own commits: nobody is banned before there is an admin, and then some admin can always act.
   The process's own work, and other requests' audit rows and sign-in marks, may commit in between.
   */
  lemma RunsWithoutOverlapStayUnlocked(
    site: Site, s: Sys, ls: seq<Label>, cmds: map<nat, Command>, owners: Owners, visits: seq<Visit>)
    requires Init(s) && Reasoned(s.db) && Unlocked(s.db) && Possible(s, ls) && RunsCommands(site, After(s, ls), cmds)
    requires forall i | 0 <= i < |After(s, ls).log| :: After(s, ls).log[i].tid in cmds
    requires forall v | 0 <= v < |visits| :: WasRead(After(s, ls), visits[v])
    requires Unoverlapped(Committed(After(s, ls), cmds), owners, visits)
    ensures Unlocked(After(s, ls).db)
  {
    var deeds := Committed(After(s, ls), cmds);
    RunsRefineCommands(site, s, ls, cmds);
    ReadersSawTheState(site, s, ls, cmds, visits);
    UnoverlappedStaysUnlocked(site, s.db, deeds, owners, visits, |deeds|);
    assert deeds[..|deeds|] == deeds && Unlocked(DbAfter(site, s.db, deeds[..|deeds|]));
  }

  /** From a new installation on: every run keeps the schema, and without overlap nobody is ever locked out. */
  lemma NewInstallationsStayUnlocked(
    site: Site, s: Sys, ls: seq<Label>, cmds: map<nat, Command>, owners: Owners, visits: seq<Visit>)
    requires Init(s) && s.db == EMPTY_DB && Possible(s, ls) && RunsCommands(site, After(s, ls), cmds)
    requires forall v | 0 <= v < |visits| :: WasRead(After(s, ls), visits[v])
    ensures forall i | 0 <= i < |After(s, ls).log| :: After(s, ls).log[i].tid in cmds
    ensures Schema(After(s, ls).db) && Reasoned(After(s, ls).db)
    ensures Unoverlapped(Committed(After(s, ls), cmds), owners, visits) ==> Unlocked(After(s, ls).db)
  {
    EmptySchema();
    RunsRefineCommands(site, s, ls, cmds);
    RunsKeepTheSchema(site, s, ls, cmds);
    if Unoverlapped(Committed(After(s, ls), cmds), owners, visits) {
      RunsWithoutOverlapStayUnlocked(site, s, ls, cmds, owners, visits);
    }
  }

  /**
   Overlap can lock everyone out: whenever two admins are the only ones and neither is banned, each may
   ban the other under an identity read beforehand, and both bans commit.
   */
  lemma OverlapCanLockOut(site: Site, db: Db, a: int, b: int, oa: Oidc, ob: Oidc, reason: string, now: int)
    requires Schema(db) && Reasoned(db) && db.admins.Keys == {a, b} && a != b && Standing(db) == {a, b}
    requires oa in db.byOidc && db.byOidc[oa] == a && ob in db.byOidc && db.byOidc[ob] == b
    requires ValidReason(site.trim(reason))
    ensures var first := Deed(BanUser(b, reason, Some(a), now), BanUserPayload(b));
            var second := Deed(BanUser(a, reason, Some(b), now), BanUserPayload(a));
            && Served(site, db, Caller(oa, [first])) && Served(site, db, Caller(ob, [second]))
            && Genuine(site, db, [first] + [second])
            && !Unlocked(DbAfter(site, db, [first] + [second]))
  {
  }
}
