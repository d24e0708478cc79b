/**
 The closure a command hands to `WithTransaction`, as a value.

 A script is what is left to run: a statement and what to do with its reply, an enqueue, a metric, or
 one of the two ways the closure ends. Every statement may fail, so a script's run is steered by a
 sequence of choices: true makes the next statement fail. A nested transaction stands for the call of
 `WithTransaction` alone: what a refused or failed one would have run never starts.
 */
module Scripts {
  import opened Wrappers
  import opened Database
  import opened AppReq

  datatype Counter = UserBanned | AdminMade | AdminRemoved

  /** The domain refusals a case answers with; each stands for one message of an ErrorPayload. */
  datatype Refusal =
    | InvalidInput
    | CannotBanYourself
    | UserNotFound
    | UserIsBanned
    | OwnAdminAccess
    | LastAdmin

  datatype Answer =
    | ErrorPayload(refusal: Refusal)
    | BanUserPayload(id: int)
    | UnbanUserPayload(id: int)
    | MakeAdminPayload(id: int)
    | RemoveAdminPayload(id: int)
    | SignedIn(id: int, user: User, isAdmin: bool)
    | Nothing
    | Rows(rows: nat)

  /** What a statement is called on: the env the closure was handed, the app around it, or that app's baseWrite. */
  datatype Receiver = OnEnv | OnOuter | OnBase

  /** Which env and which context a call made inside the closure goes through. */
  datatype Route = Route(throughTxEnv: bool, throughTxCtx: bool)

  datatype Script =
    | Return(answer: Answer)
    | Raise
    | Stmt(on: Receiver, op: Op, next: Reply -> Script)
    | Enqueue(route: Route, msg: Message, next: Reply -> Script)
    | Nested(route: Route, next: Reply -> Script)
    | Audit(entry: AuditEntry, rest: Script)
    | Bump(counter: Counter, rest: Script)

  /** A run in progress: what is left, what the transaction sees, what it has counted, and the committed state around it. */
  datatype Config = Config(rest: Script, db: Db, bumps: multiset<Counter>, base: Db)

  predicate Final(s: Script) { s.Return? || s.Raise? }

  function Start(s: Script, db: Db): Config { Config(s, db, multiset{}, db) }

  predicate Inside(route: Route) { route.throughTxEnv || route.throughTxCtx }

  /** The next call does not reach the transaction it is made in and needs a connection or the lock that it holds. */
  predicate Escapes(s: Script, inRequest: bool) {
    match s
    case Stmt(on, op, _) => on.OnBase? || (on.OnOuter? && !IsQuery(op))
    case Enqueue(route, _, _) => !Inside(route)
    case Nested(route, _) => !Inside(route)
    case Audit(_, _) => !inRequest
    case _ => false
  }

  /**
   One step of the closure. A statement on the env joins the transaction and so does an enqueue; a read on the
   outer app sees the committed state; a nested transaction is refused; a call that escapes can only fail.
   */
  function Advance(c: Config, fault: bool): Config {
    match c.rest
    case Return(_) => c
    case Raise => c
    case Stmt(on, op, next) =>
      if on.OnEnv? then
        var e := ExecOrFail(c.db, op, fault);
        Config(next(e.reply), e.db, c.bumps, c.base)
      else if on.OnOuter? && IsQuery(op) then c.(rest := next(ExecOrFail(c.base, op, fault).reply))
      else c.(rest := next(Failed))
    case Enqueue(route, msg, next) =>
      if Inside(route) then
        var e := ExecOrFail(c.db, CreateMessage(msg), fault);
        Config(next(e.reply), e.db, c.bumps, c.base)
      else c.(rest := next(Failed))
    case Nested(route, next) => c.(rest := next(if Inside(route) then Refused else Failed))
    case Audit(_, rest) => c.(rest := rest)
    case Bump(counter, rest) => c.(rest := rest, bumps := c.bumps + multiset{counter})
  }

  /** What the next call counts, and what it writes to the audit log or its buffer. */
  function Counted(s: Script): multiset<Counter> {
    if s.Bump? then multiset{s.counter} else multiset{}
  }

  function Noted(s: Script): seq<AuditEntry> {
    if s.Audit? then [s.entry] else []
  }

  function Steps(c: Config, choices: seq<bool>): Config
    decreases |choices|
  {
    if choices == [] then c
    else Advance(Steps(c, choices[..|choices| - 1]), choices[|choices| - 1])
  }

  /** What goes wrong around one transaction: its begin, its k-th call, its commit. */
  datatype Faults = Faults(begin: bool, calls: nat -> bool, commit: bool)

  /** The fates of the first n calls. */
  function Under(calls: nat -> bool, n: nat): (choices: seq<bool>)
    ensures |choices| == n && forall i | 0 <= i < n :: choices[i] == calls(i)
  {
    seq(n, i requires 0 <= i < n => calls(i))
  }

  lemma UnderGrows(calls: nat -> bool, n: nat)
    ensures Under(calls, n + 1) == Under(calls, n) + [calls(n)] && Under(calls, n + 1)[..n] == Under(calls, n)
  {
  }

  lemma {:induction false} EndedStays(c: Config, choices: seq<bool>, more: seq<bool>)
    requires Final(Steps(c, choices).rest)
    ensures Steps(c, choices + more) == Steps(c, choices)
    decreases |more|
  {
    var all := choices + more;
    if more == [] {
      assert all == choices;
    } else {
      assert all[..|all| - 1] == choices + more[..|more| - 1];
      EndedStays(c, choices, more[..|more| - 1]);
    }
  }

  /** A run that has ended stays as it ended, however many fates are left over. */
  lemma EndedRunsStay(c: Config, calls: nat -> bool, n: nat, m: nat)
    requires n <= m && Final(Steps(c, Under(calls, n)).rest)
    ensures Steps(c, Under(calls, m)) == Steps(c, Under(calls, n))
  {
    var first, all := Under(calls, n), Under(calls, m);
    assert all == first + all[n..];
    EndedStays(c, first, all[n..]);
  }

  lemma {:induction false} StepsKeepBase(c: Config, choices: seq<bool>)
    ensures Steps(c, choices).base == c.base
    decreases |choices|
  {
    if choices != [] {
      StepsKeepBase(c, choices[..|choices| - 1]);
    }
  }

  /** The entries a run has written to the audit log or its buffer, in order. */
  function Audits(c: Config, choices: seq<bool>): seq<AuditEntry>
    decreases |choices|
  {
    if choices == [] then []
    else
      var before := choices[..|choices| - 1];
      Audits(c, before) + Noted(Steps(c, before).rest)
  }

  /** The run so far, with enough fuel to finish. */
  ghost predicate OnTrack(c: Config, choices: seq<bool>, run: Config, fuel: nat) {
    run == Steps(c, choices) && run.base == c.base && Within(fuel, run.rest)
  }

  lemma StepsSnoc(c: Config, choices: seq<bool>, fault: bool)
    ensures Steps(c, choices + [fault]) == Advance(Steps(c, choices), fault)
    ensures Audits(c, choices + [fault]) == Audits(c, choices) + Noted(Steps(c, choices).rest)
  {
    assert (choices + [fault])[..|choices|] == choices;
  }

  lemma AdvanceBurns(run: Config, fault: bool, fuel: nat)
    requires Within(fuel, run.rest) && !Final(run.rest)
    ensures fuel > 0 && Within(fuel - 1, Advance(run, fault).rest) && Advance(run, fault).base == run.base
    ensures Advance(run, fault).bumps == run.bumps + Counted(run.rest)
  {
  }

  lemma OneMoreStep(c: Config, choices: seq<bool>, run: Config, fault: bool, fuel: nat)
    requires OnTrack(c, choices, run, fuel) && !Final(run.rest)
    ensures fuel > 0 && OnTrack(c, choices + [fault], Advance(run, fault), fuel - 1)
    ensures Advance(run, fault).bumps == run.bumps + Counted(run.rest)
    ensures Audits(c, choices + [fault]) == Audits(c, choices) + Noted(run.rest)
  {
    StepsSnoc(c, choices, fault);
    AdvanceBurns(run, fault, fuel);
  }

  lemma {:induction false} StepsUnroll(c: Config, choices: seq<bool>)
    requires choices != []
    ensures Steps(c, choices) == Steps(Advance(c, choices[0]), choices[1..])
    decreases |choices|
  {
    var n := |choices| - 1;
    if n == 0 {
      assert choices[..0] == [];
    } else {
      var first, middle, last := Advance(c, choices[0]), choices[1..n], choices[n];
      assert choices[..n][0] == choices[0] && choices[..n][1..] == middle && middle + [last] == choices[1..];
      StepsUnroll(c, choices[..n]);
      StepsSnoc(first, middle, last);
    }
  }

  lemma {:induction false} StepsFinal(c: Config, choices: seq<bool>)
    requires Final(c.rest)
    ensures Steps(c, choices) == c
    decreases |choices|
  {
    if choices != [] {
      StepsFinal(c, choices[..|choices| - 1]);
    }
  }

  /** `end` is one of the ways a script that takes at most `n` steps can finish from `c`. */
  ghost predicate Ends(n: nat, c: Config, end: Config)
    decreases n
  {
    if Final(c.rest) then c == end
    else n > 0 && (Ends(n - 1, Advance(c, false), end) || Ends(n - 1, Advance(c, true), end))
  }

  /** The closure finishes within `n` steps, whatever each statement replies. */
  ghost predicate Within(n: nat, s: Script)
    decreases n
  {
    match s
    case Return(_) => true
    case Raise => true
    case Stmt(_, _, next) => n > 0 && forall r: Reply :: Within(n - 1, next(r))
    case Enqueue(_, _, next) => n > 0 && forall r: Reply :: Within(n - 1, next(r))
    case Nested(_, next) => n > 0 && forall r: Reply :: Within(n - 1, next(r))
    case Audit(_, rest) => n > 0 && Within(n - 1, rest)
    case Bump(_, rest) => n > 0 && Within(n - 1, rest)
  }

  lemma {:induction false} FinishedRunsEnd(n: nat, c: Config, choices: seq<bool>)
    requires Within(n, c.rest)
    requires Final(Steps(c, choices).rest)
    ensures Ends(n, c, Steps(c, choices))
    decreases n
  {
    if Final(c.rest) {
      StepsFinal(c, choices);
    } else {
      assert choices != [];
      StepsUnroll(c, choices);
      FinishedRunsEnd(n - 1, Advance(c, choices[0]), choices[1..]);
    }
  }

  /**
   Tidy: every call is made on the env or its context, and a metric is the last thing before an answer.
   NoEscape: no call waits for what its transaction holds.
   */
  datatype Rule = Tidy | NoEscape(inRequest: bool)

  predicate Obeys(rule: Rule, s: Script) {
    match rule
    case NoEscape(inRequest) => !Escapes(s, inRequest)
    case Tidy =>
      match s
      case Stmt(on, _, _) => on.OnEnv?
      case Enqueue(route, _, _) => Inside(route)
      case Nested(_, _) => false
      case Audit(_, _) => false
      case Bump(_, rest) => rest.Return?
      case _ => true
  }

  /** The rule holds of the next `n` calls, whatever each of them replies. */
  ghost predicate AlwaysTo(n: nat, rule: Rule, s: Script)
    decreases n
  {
    n == 0 ||
    (Obeys(rule, s) &&
     match s
     case Return(_) => true
     case Raise => true
     case Stmt(_, _, next) => forall r: Reply :: AlwaysTo(n - 1, rule, next(r))
     case Enqueue(_, _, next) => forall r: Reply :: AlwaysTo(n - 1, rule, next(r))
     case Nested(_, next) => forall r: Reply :: AlwaysTo(n - 1, rule, next(r))
     case Audit(_, rest) => AlwaysTo(n - 1, rule, rest)
     case Bump(_, rest) => AlwaysTo(n - 1, rule, rest))
  }

  ghost predicate Always(rule: Rule, s: Script) {
    forall n: nat :: AlwaysTo(n, rule, s)
  }

  /** A script that finishes within `n` steps need only be looked at that far. */
  lemma {:induction false} ShortScriptsObey(n: nat, m: nat, rule: Rule, s: Script)
    requires Within(n, s) && AlwaysTo(n + 1, rule, s)
    ensures AlwaysTo(m, rule, s)
    decreases n
  {
    if m > 0 && !Final(s) {
      if s.Bump? || s.Audit? {
        ShortScriptsObey(n - 1, m - 1, rule, s.rest);
      } else {
        forall r: Reply ensures AlwaysTo(m - 1, rule, s.next(r)) {
          ShortScriptsObey(n - 1, m - 1, rule, s.next(r));
        }
      }
    }
  }

  /** A tidy closure never waits, in a request or outside one. */
  lemma {:induction false} TidyIsNoEscape(n: nat, s: Script, inRequest: bool)
    requires AlwaysTo(n, Tidy, s)
    ensures AlwaysTo(n, NoEscape(inRequest), s)
    decreases n
  {
    if n > 0 && !Final(s) {
      if s.Bump? || s.Audit? {
        TidyIsNoEscape(n - 1, s.rest, inRequest);
      } else {
        forall r: Reply ensures AlwaysTo(n - 1, NoEscape(inRequest), s.next(r)) {
          TidyIsNoEscape(n - 1, s.next(r), inRequest);
        }
      }
    }
  }

  lemma {:induction false} RulesAdvance(rule: Rule, c: Config, fault: bool)
    requires Always(rule, c.rest)
    ensures Obeys(rule, c.rest)
    ensures Always(rule, Advance(c, fault).rest)
  {
    assert AlwaysTo(1, rule, c.rest);
    forall n: nat ensures AlwaysTo(n, rule, Advance(c, fault).rest) {
      assert AlwaysTo(n + 1, rule, c.rest);
    }
  }

  /** No run of a closure that keeps the rule ever reaches a call that breaks it. */
  lemma {:induction false} RunsObey(rule: Rule, s: Script, db: Db, choices: seq<bool>)
    requires Always(rule, s)
    ensures Always(rule, Steps(Start(s, db), choices).rest)
    ensures Obeys(rule, Steps(Start(s, db), choices).rest)
    decreases |choices|
  {
    if choices != [] {
      var before := Steps(Start(s, db), choices[..|choices| - 1]);
      RunsObey(rule, s, db, choices[..|choices| - 1]);
      RulesAdvance(rule, before, choices[|choices| - 1]);
    }
    RulesAdvance(rule, Steps(Start(s, db), choices), false);
  }

  /** A tidy closure has counted nothing unless it has returned an answer: an error counts nothing. */
  lemma {:induction false} CountedMeansAnswered(s: Script, db: Db, choices: seq<bool>)
    requires Always(Tidy, s)
    ensures Steps(Start(s, db), choices).bumps == multiset{} || Steps(Start(s, db), choices).rest.Return?
    decreases |choices|
  {
    if choices != [] {
      CountedMeansAnswered(s, db, choices[..|choices| - 1]);
      RunsObey(Tidy, s, db, choices[..|choices| - 1]);
    }
  }

  /** A tidy closure writes nothing to the audit log or its buffer. */
  lemma {:induction false} TidyAddsNoEntries(s: Script, db: Db, choices: seq<bool>)
    requires Always(Tidy, s)
    ensures Audits(Start(s, db), choices) == []
    decreases |choices|
  {
    if choices != [] {
      TidyAddsNoEntries(s, db, choices[..|choices| - 1]);
      RunsObey(Tidy, s, db, choices[..|choices| - 1]);
    }
  }

  lemma {:induction false} StepsKeepSchema(c: Config, choices: seq<bool>)
    requires Schema(c.db)
    ensures Schema(Steps(c, choices).db)
    decreases |choices|
  {
    if choices != [] {
      var before := Steps(c, choices[..|choices| - 1]);
      StepsKeepSchema(c, choices[..|choices| - 1]);
      match before.rest {
        case Stmt(_, op, _) => ExecKeepsSchema(before.db, op, choices[|choices| - 1]);
        case Enqueue(_, msg, _) => ExecKeepsSchema(before.db, CreateMessage(msg), choices[|choices| - 1]);
        case _ =>
      }
    }
  }
}
