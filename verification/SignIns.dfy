/**
 cmd/server/auth.go, recordSignIn: many requests noticing sign-ins of one existing user at once, each
 comparing its token with a row it read earlier, then asking the guarded update to decide.

 Token times are nanoseconds, column values whole seconds.
 */
module SignIns {
  import opened Wrappers
  import opened Database
  import opened Commands

  datatype Phase =
    | Arrived
    | Loaded(seen: Option<int>)
    | Marked(at: int)
    | Counted(at: int)
    | Settled
    | Errored

  /** `issued` is the token's iat; None is the zero time. */
  datatype Visit = Visit(issued: Option<int>, phase: Phase)

  /** One write of the guarded update: the second it stored and the visit that stored it. */
  datatype Advance = Advance(at: int, visit: nat)

  /** `advances` is history, oldest first. */
  datatype Watch = Watch(
    db: Db,
    visits: map<nat, Visit>,
    counted: multiset<int>,
    audited: multiset<int>,
    advances: seq<Advance>)

  datatype Label =
    | Arrive(v: nat, issued: Option<int>)
    | Load(v: nat)
    | Mark(v: nat, fault: bool)
    | Count(v: nat)
    | Audit(v: nat)
    | Elsewhere(db: Db)

  function Seconds(nanos: int): int { nanos / NANOS }

  /** The comparison made in Go, on the row as it was read: the token is later than the stored second. */
  predicate LooksNew(issued: Option<int>, seen: Option<int>) {
    issued.Some? && (seen.None? || issued.value > seen.value * NANOS)
  }

  function Last(w: Watch, id: int): Option<int> {
    if id in w.db.users then w.db.users[id].lastSignin else None
  }

  predicate Enabled(w: Watch, id: int, l: Label) {
    match l
    case Arrive(v, _) => v !in w.visits
    case Load(v) => v in w.visits && w.visits[v].phase.Arrived?
    case Mark(v, _) => v in w.visits && w.visits[v].phase.Loaded?
    case Count(v) => v in w.visits && w.visits[v].phase.Marked?
    case Audit(v) => v in w.visits && w.visits[v].phase.Counted?
    case Elsewhere(db) => id in db.users && db.users[id].lastSignin == Last(w, id)
  }

  function To(w: Watch, v: nat, phase: Phase): Watch
    requires v in w.visits
  {
    w.(visits := w.visits[v := w.visits[v].(phase := phase)])
  }

  function Do(w: Watch, id: int, l: Label): Watch
    requires Enabled(w, id, l)
  {
    match l
    case Arrive(v, issued) => w.(visits := w.visits[v := Visit(issued, Arrived)])
    case Load(v) => To(w, v, Loaded(Last(w, id)))
    case Mark(v, fault) =>
      var visit := w.visits[v];
      if !LooksNew(visit.issued, visit.phase.seen) then To(w, v, Settled)
      else
        var at := Seconds(visit.issued.value);
        var e := ExecOrFail(w.db, MarkSignIn(id, at), fault);
        if e.reply.Failed? then To(w, v, Errored)
        else if e.reply.rows == 0 then To(w, v, Settled).(db := e.db)
        else To(w, v, Marked(at)).(db := e.db, advances := w.advances + [Advance(at, v)])
    case Count(v) =>
      To(w, v, Counted(w.visits[v].phase.at)).(counted := w.counted + multiset{w.visits[v].phase.at})
    case Audit(v) => To(w, v, Settled).(audited := w.audited + multiset{w.visits[v].phase.at})
    case Elsewhere(db) => w.(db := db)
  }

  ghost predicate Init(w: Watch, id: int) {
    id in w.db.users && w.visits == map[] && w.counted == multiset{} && w.audited == multiset{} && w.advances == []
  }

  predicate Possible(w: Watch, id: int, ls: seq<Label>)
    decreases |ls|, 1
  {
    ls == [] || (Possible(w, id, ls[..|ls| - 1]) && Enabled(After(w, id, ls[..|ls| - 1]), id, ls[|ls| - 1]))
  }

  function After(w: Watch, id: int, ls: seq<Label>): Watch
    decreases |ls|, 0
  {
    if ls == [] then w
    else
      var before := After(w, id, ls[..|ls| - 1]);
      if Enabled(before, id, ls[|ls| - 1]) then Do(before, id, ls[|ls| - 1]) else before
  }

  predicate AtLeast(last: Option<int>, at: int) { last.Some? && last.value >= at }

  predicate NoEarlier(last: Option<int>, was: Option<int>) { was.Some? ==> AtLeast(last, was.value) }

  /** The values written rise strictly above the first one, and the column holds the last of them. */
  ghost predicate Rising(w: Watch, id: int, first: Option<int>) {
    && id in w.db.users
    && (forall i, j | 0 <= i < j < |w.advances| :: w.advances[i].at < w.advances[j].at)
    && (forall i | 0 <= i < |w.advances| :: first.Some? ==> first.value < w.advances[i].at)
    && Last(w, id) == if w.advances == [] then first else Some(w.advances[|w.advances| - 1].at)
  }

  /** No visit that got this far, other than by an error, carries a token newer than the column. */
  ghost predicate CaughtUp(w: Watch, id: int) {
    forall v | v in w.visits && (w.visits[v].phase.Marked? || w.visits[v].phase.Counted? || w.visits[v].phase.Settled?) ::
      w.visits[v].issued.Some? ==> AtLeast(Last(w, id), Seconds(w.visits[v].issued.value))
  }

  ghost predicate SeenIsOld(w: Watch, id: int) {
    forall v | v in w.visits && w.visits[v].phase.Loaded? :: NoEarlier(Last(w, id), w.visits[v].phase.seen)
  }

  predicate Reached(visits: map<nat, Visit>, v: nat, audit: bool) {
    v in visits && (visits[v].phase.Settled? || (!audit && visits[v].phase.Counted?))
  }

  /** The advances whose visit has counted them, or has audited them. */
  function Tally(advances: seq<Advance>, visits: map<nat, Visit>, audit: bool): multiset<int>
    decreases |advances|
  {
    if advances == [] then multiset{}
    else
      var last := advances[|advances| - 1];
      Tally(advances[..|advances| - 1], visits, audit) +
      (if Reached(visits, last.visit, audit) then multiset{last.at} else multiset{})
  }

  /** Every advance belongs to one visit, which owes it a count and an audit entry until it has settled. */
  ghost predicate Owned(w: Watch) {
    && (forall i | 0 <= i < |w.advances| ::
          w.advances[i].visit in w.visits && Holds(w.visits[w.advances[i].visit].phase, w.advances[i].at))
    && (forall i, j | 0 <= i < j < |w.advances| :: w.advances[i].visit != w.advances[j].visit)
    && (forall v | v in w.visits && Owes(w.visits[v].phase) :: HasAdvance(w.advances, v))
  }

  predicate Owes(p: Phase) { p.Marked? || p.Counted? }

  predicate Holds(p: Phase, at: int) { p.Settled? || (Owes(p) && p.at == at) }

  ghost predicate HasAdvance(advances: seq<Advance>, v: nat) {
    exists i | 0 <= i < |advances| :: advances[i].visit == v
  }

  ghost predicate Tallied(w: Watch) {
    w.counted == Tally(w.advances, w.visits, false) && w.audited == Tally(w.advances, w.visits, true)
  }

  ghost predicate Ledger(w: Watch) { Owned(w) && Tallied(w) }

  ghost predicate Inv(w: Watch, id: int, first: Option<int>) {
    Rising(w, id, first) && CaughtUp(w, id) && SeenIsOld(w, id) && Ledger(w)
  }

  lemma {:induction false} TallyIgnoresOthers(
    advances: seq<Advance>, visits: map<nat, Visit>, visits': map<nat, Visit>, audit: bool)
    requires forall i | 0 <= i < |advances| ::
               Reached(visits, advances[i].visit, audit) == Reached(visits', advances[i].visit, audit)
    ensures Tally(advances, visits, audit) == Tally(advances, visits', audit)
    decreases |advances|
  {
    if advances != [] {
      TallyIgnoresOthers(advances[..|advances| - 1], visits, visits', audit);
    }
  }

  /** When one visit reaches the point its advance was waiting for, the tally grows by that advance alone. */
  lemma {:induction false} TallyGrows(
    advances: seq<Advance>, visits: map<nat, Visit>, visits': map<nat, Visit>, audit: bool, k: nat)
    requires k < |advances|
    requires forall i, j | 0 <= i < j < |advances| :: advances[i].visit != advances[j].visit
    requires !Reached(visits, advances[k].visit, audit) && Reached(visits', advances[k].visit, audit)
    requires forall i | 0 <= i < |advances| && i != k ::
               Reached(visits, advances[i].visit, audit) == Reached(visits', advances[i].visit, audit)
    ensures Tally(advances, visits', audit) == Tally(advances, visits, audit) + multiset{advances[k].at}
    decreases |advances|
  {
    var n := |advances| - 1;
    var before := advances[..n];
    if k == n {
      TallyIgnoresOthers(before, visits, visits', audit);
    } else {
      TallyGrows(before, visits, visits', audit, k);
      var last := if Reached(visits, advances[n].visit, audit) then multiset{advances[n].at} else multiset{};
      Exchange(Tally(before, visits, audit), multiset{advances[k].at}, last);
    }
  }

  lemma Exchange(a: multiset<int>, b: multiset<int>, c: multiset<int>)
    ensures a + b + c == a + c + b
  {
  }

  /** The update writes only a later second, so what it leaves is rising and at or past every token it looked at. */
  lemma MarkIsGuarded(db: Db, id: int, at: int)
    requires id in db.users
    ensures var e := MarkSignInRows(db, id, at);
            && id in e.db.users
            && (e.reply == Affected(1) <==> (db.users[id].lastSignin.Some? ==> db.users[id].lastSignin.value < at))
            && (e.reply == Affected(1) || e.reply == Affected(0))
            && e.db.users[id].lastSignin == (if e.reply == Affected(1) then Some(at) else db.users[id].lastSignin)
  {
  }

  /** What a Mark step does to the column: nothing, or one strict advance; the visit ends at or past its token. */
  lemma MarkMovesTheColumn(w: Watch, id: int, l: Label)
    requires id in w.db.users && Enabled(w, id, l) && l.Mark?
    requires NoEarlier(Last(w, id), w.visits[l.v].phase.seen)
    ensures var w' := Do(w, id, l);
            var p := w'.visits[l.v].phase;
            && id in w'.db.users
            && (if p.Marked?
                then w'.advances == w.advances + [Advance(p.at, l.v)] && Last(w', id) == Some(p.at) &&
                     (Last(w, id).Some? ==> Last(w, id).value < p.at)
                else w'.advances == w.advances && Last(w', id) == Last(w, id))
            && (p.Errored? || (w.visits[l.v].issued.Some? ==> AtLeast(Last(w', id), Seconds(w.visits[l.v].issued.value))))
            && !p.Loaded? && !p.Counted? && w'.visits == w.visits[l.v := w.visits[l.v].(phase := p)]
  {
    var visit := w.visits[l.v];
    if LooksNew(visit.issued, visit.phase.seen) && !l.fault {
      MarkIsGuarded(w.db, id, Seconds(visit.issued.value));
    }
  }

  lemma MarkKeepsRising(w: Watch, id: int, first: Option<int>, l: Label)
    requires Rising(w, id, first) && CaughtUp(w, id) && SeenIsOld(w, id) && Enabled(w, id, l) && l.Mark?
    ensures Rising(Do(w, id, l), id, first) && CaughtUp(Do(w, id, l), id) && SeenIsOld(Do(w, id, l), id)
    ensures NoEarlier(Last(Do(w, id, l), id), Last(w, id))
  {
    MarkMovesTheColumn(w, id, l);
  }

  lemma StepKeepsRising(w: Watch, id: int, first: Option<int>, l: Label)
    requires Rising(w, id, first) && CaughtUp(w, id) && SeenIsOld(w, id) && Enabled(w, id, l)
    ensures Rising(Do(w, id, l), id, first) && CaughtUp(Do(w, id, l), id) && SeenIsOld(Do(w, id, l), id)
    ensures NoEarlier(Last(Do(w, id, l), id), Last(w, id))
  {
    if l.Mark? {
      MarkKeepsRising(w, id, first, l);
    }
  }

  /** A visit with nothing to settle moves on, or a new one arrives: the ledger is untouched. */
  lemma OthersKeepLedger(w: Watch, w': Watch, v: nat, visit: Visit)
    requires Ledger(w) && w' == w.(visits := w.visits[v := visit], db := w'.db)
    requires v in w.visits ==> w.visits[v].phase.Arrived? || w.visits[v].phase.Loaded?
    requires !Owes(visit.phase)
    ensures Ledger(w')
  {
    TallyIgnoresOthers(w.advances, w.visits, w'.visits, false);
    TallyIgnoresOthers(w.advances, w.visits, w'.visits, true);
  }

  lemma AdvanceKeepsOwners(w: Watch, w': Watch, v: nat, at: int)
    requires Owned(w) && v in w.visits && w.visits[v].phase.Loaded?
    requires w' == To(w, v, Marked(at)).(db := w'.db, advances := w.advances + [Advance(at, v)])
    ensures Owned(w')
  {
    forall u | u in w'.visits && Owes(w'.visits[u].phase)
      ensures HasAdvance(w'.advances, u)
    {
      if u == v {
        assert w'.advances[|w.advances|].visit == u;
      } else {
        assert HasAdvance(w.advances, u);
        var i :| 0 <= i < |w.advances| && w.advances[i].visit == u;
        assert w'.advances[i].visit == u;
      }
    }
  }

  lemma AdvanceKeepsTally(advances: seq<Advance>, visits: map<nat, Visit>, v: nat, visit: Visit, at: int, audit: bool)
    requires v in visits && visits[v].phase.Loaded? && visit.phase.Marked?
    ensures Tally(advances + [Advance(at, v)], visits[v := visit], audit) == Tally(advances, visits, audit)
  {
    assert (advances + [Advance(at, v)])[..|advances|] == advances;
    TallyIgnoresOthers(advances, visits, visits[v := visit], audit);
  }

  lemma SettlingKeepsLedger(w: Watch, w': Watch, v: nat, k: nat)
    requires Ledger(w) && v in w.visits && Owes(w.visits[v].phase) && k < |w.advances| && w.advances[k].visit == v
    requires if w.visits[v].phase.Marked?
             then w' == To(w, v, Counted(w.visits[v].phase.at)).(counted := w.counted + multiset{w.visits[v].phase.at})
             else w' == To(w, v, Settled).(audited := w.audited + multiset{w.visits[v].phase.at})
    ensures Ledger(w')
  {
    SettlingKeepsOwners(w, w', v, k);
    SettlingGrowsOneTally(w.advances, w.visits, w'.visits, v, k);
  }

  lemma SettlingKeepsOwners(w: Watch, w': Watch, v: nat, k: nat)
    requires Owned(w) && v in w.visits && Owes(w.visits[v].phase) && k < |w.advances| && w.advances[k].visit == v
    requires w'.advances == w.advances && v in w'.visits && w'.visits == w.visits[v := w'.visits[v]]
    requires w'.visits[v].phase == if w.visits[v].phase.Marked? then Counted(w.visits[v].phase.at) else Settled
    ensures Owned(w') && Holds(w.visits[v].phase, w.advances[k].at)
    ensures forall i | 0 <= i < |w.advances| && i != k :: w.advances[i].visit != v
  {
  }

  lemma SettlingGrowsOneTally(advances: seq<Advance>, visits: map<nat, Visit>, visits': map<nat, Visit>, v: nat, k: nat)
    requires k < |advances| && advances[k].visit == v
    requires forall i, j | 0 <= i < j < |advances| :: advances[i].visit != advances[j].visit
    requires forall i | 0 <= i < |advances| && i != k :: advances[i].visit != v
    requires v in visits && v in visits' && visits' == visits[v := visits'[v]]
    requires if visits[v].phase.Marked? then visits'[v].phase.Counted? else visits[v].phase.Counted? && visits'[v].phase.Settled?
    ensures var audit := visits[v].phase.Counted?;
            && Tally(advances, visits', audit) == Tally(advances, visits, audit) + multiset{advances[k].at}
            && Tally(advances, visits', !audit) == Tally(advances, visits, !audit)
  {
    var audit := visits[v].phase.Counted?;
    TallyGrows(advances, visits, visits', audit, k);
    TallyIgnoresOthers(advances, visits, visits', !audit);
  }

  lemma MarkKeepsLedger(w: Watch, id: int, l: Label)
    requires Ledger(w) && Enabled(w, id, l) && l.Mark?
    ensures Ledger(Do(w, id, l))
  {
    var w' := Do(w, id, l);
    var v := l.v;
    if w'.visits[v].phase.Marked? {
      AdvanceKeepsOwners(w, w', v, w'.visits[v].phase.at);
      AdvanceKeepsTally(w.advances, w.visits, v, w'.visits[v], w'.visits[v].phase.at, false);
      AdvanceKeepsTally(w.advances, w.visits, v, w'.visits[v], w'.visits[v].phase.at, true);
    } else {
      OthersKeepLedger(w, w', v, w'.visits[v]);
    }
  }

  lemma StepKeepsLedger(w: Watch, id: int, l: Label)
    requires Ledger(w) && Enabled(w, id, l)
    ensures Ledger(Do(w, id, l))
  {
    var w' := Do(w, id, l);
    if l.Mark? {
      MarkKeepsLedger(w, id, l);
    } else if l.Arrive? || l.Load? {
      OthersKeepLedger(w, w', l.v, w'.visits[l.v]);
    } else if l.Count? || l.Audit? {
      assert HasAdvance(w.advances, l.v);
      var k :| 0 <= k < |w.advances| && w.advances[k].visit == l.v;
      SettlingKeepsLedger(w, w', l.v, k);
    }
  }

  lemma {:induction false} RunsKeepInv(w: Watch, id: int, ls: seq<Label>)
    requires Init(w, id) && Possible(w, id, ls)
    ensures Inv(After(w, id, ls), id, Last(w, id))
    decreases |ls|
  {
    if ls != [] {
      var n := |ls| - 1;
      var before := After(w, id, ls[..n]);
      RunsKeepInv(w, id, ls[..n]);
      StepKeepsRising(before, id, Last(w, id), ls[n]);
      StepKeepsLedger(before, id, ls[n]);
    }
  }

  /** However the requests interleave and however stale their reads, the last sign-in never moves back. */
  lemma {:induction false} LastSignInNeverDecreases(w: Watch, id: int, ls: seq<Label>, more: seq<Label>)
    requires Init(w, id) && Possible(w, id, ls + more)
    ensures NoEarlier(Last(After(w, id, ls + more), id), Last(After(w, id, ls), id))
    decreases |more|
  {
    if more == [] {
      assert ls + more == ls;
    } else {
      var n := |more| - 1;
      assert (ls + more)[..|ls + more| - 1] == ls + more[..n];
      LastSignInNeverDecreases(w, id, ls, more[..n]);
      RunsKeepInv(w, id, ls + more[..n]);
      StepKeepsRising(After(w, id, ls + more[..n]), id, Last(w, id), more[n]);
    }
  }

  /** A request that came through without an error leaves the column at its token's second or later. */
  lemma EveryVisitIsCaughtUp(w: Watch, id: int, ls: seq<Label>, v: nat)
    requires Init(w, id) && Possible(w, id, ls)
    requires v in After(w, id, ls).visits && After(w, id, ls).visits[v].phase.Settled?
    requires After(w, id, ls).visits[v].issued.Some?
    ensures AtLeast(Last(After(w, id, ls), id), Seconds(After(w, id, ls).visits[v].issued.value))
  {
    RunsKeepInv(w, id, ls);
  }

  lemma {:induction false} TallyIsWithinTheAdvances(advances: seq<Advance>, visits: map<nat, Visit>, audit: bool, at: int)
    requires forall i, j | 0 <= i < j < |advances| :: advances[i].at < advances[j].at
    ensures Tally(advances, visits, audit)[at] <= 1
    ensures at in Tally(advances, visits, audit) ==> exists i | 0 <= i < |advances| :: advances[i].at == at
    decreases |advances|
  {
    if advances != [] {
      var n := |advances| - 1;
      TallyIsWithinTheAdvances(advances[..n], visits, audit, at);
      if at in Tally(advances[..n], visits, audit) {
        var i :| 0 <= i < n && advances[..n][i].at == at;
        assert advances[i].at == at;
      }
    }
  }

  /** No sign-in is counted or audited twice, and none that was not a strict advance of the column. */
  lemma SignInsAreCountedOnce(w: Watch, id: int, ls: seq<Label>, at: int)
    requires Init(w, id) && Possible(w, id, ls)
    ensures var now := After(w, id, ls);
            && now.counted[at] <= 1 && now.audited[at] <= 1
            && (at in now.counted || at in now.audited ==> exists i | 0 <= i < |now.advances| :: now.advances[i].at == at)
  {
    RunsKeepInv(w, id, ls);
    var now := After(w, id, ls);
    TallyIsWithinTheAdvances(now.advances, now.visits, false, at);
    TallyIsWithinTheAdvances(now.advances, now.visits, true, at);
  }

  lemma {:induction false} SettledTally(advances: seq<Advance>, visits: map<nat, Visit>, audit: bool)
    requires forall i | 0 <= i < |advances| :: Reached(visits, advances[i].visit, audit)
    ensures |Tally(advances, visits, audit)| == |advances|
    ensures forall i | 0 <= i < |advances| :: advances[i].at in Tally(advances, visits, audit)
    decreases |advances|
  {
    if advances != [] {
      SettledTally(advances[..|advances| - 1], visits, audit);
      forall i | 0 <= i < |advances| ensures advances[i].at in Tally(advances, visits, audit) {
        assert i < |advances| - 1 ==> advances[..|advances| - 1][i] == advances[i];
      }
    }
  }

  lemma LedgerSettles(w: Watch)
    requires Ledger(w)
    requires forall v | v in w.visits :: !Owes(w.visits[v].phase)
    ensures |w.counted| == |w.audited| == |w.advances|
    ensures forall i | 0 <= i < |w.advances| :: w.advances[i].at in w.counted && w.advances[i].at in w.audited
  {
    SettledTally(w.advances, w.visits, false);
    SettledTally(w.advances, w.visits, true);
  }

  /**
   Once no request is between its update and its audit entry, the counter has grown by exactly the number
   of strict advances of the column, and each advance has been counted and audited.
   */
  lemma TheCounterIsTheAdvances(w: Watch, id: int, ls: seq<Label>)
    requires Init(w, id) && Possible(w, id, ls)
    requires forall v | v in After(w, id, ls).visits :: !Owes(After(w, id, ls).visits[v].phase)
    ensures var now := After(w, id, ls);
            && |now.counted| == |now.audited| == |now.advances|
            && (forall i | 0 <= i < |now.advances| :: now.advances[i].at in now.counted && now.advances[i].at in now.audited)
            && (forall i, j | 0 <= i < j < |now.advances| :: now.advances[i].at < now.advances[j].at)
            && Last(now, id) == if now.advances == [] then Last(w, id) else Some(now.advances[|now.advances| - 1].at)
  {
    RunsKeepInv(w, id, ls);
    LedgerSettles(After(w, id, ls));
  }
}
