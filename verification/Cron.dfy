/**
 internal/cronjobs/cronjobs.go: ticks of scheduled jobs, at most one run per job at a time.

 The class is `run` as one goroutine executes it alone; the step system below it is any number of ticks
 side by side, each advancing one statement at a time, with the mutex that guards `running`.
 */
module Cron {
  import opened Wrappers

  /** Go's map[string]bool: a missing key reads as false. */
  type Running = map<string, bool>

  predicate Reads(running: Running, id: string) {
    id in running && running[id]
  }

  /** How a job's Run ends. */
  datatype Outcome = Succeeded | Failed | Panicked

  datatype Entry = Skipped(id: string) | Ran(id: string) | LoggedFailure(id: string) | LoggedPanic(id: string)

  function Logged(id: string, outcome: Outcome): seq<Entry> {
    [Ran(id)] + (match outcome
                 case Succeeded => []
                 case Failed => [LoggedFailure(id)]
                 case Panicked => [LoggedPanic(id)])
  }

  class Runner {
    var running: Running
    var log: seq<Entry>

    constructor ()
      ensures running == map[] && log == []
    {
      running, log := map[], [];
    }

    /** The first critical section. */
    method Claim(id: string) returns (claimed: bool)
      modifies this`running
      ensures claimed <==> !Reads(old(running), id)
      ensures running == if claimed then old(running)[id := true] else old(running)
    {
      if id in running && running[id] {
        return false;
      }
      running := running[id := true];
      return true;
    }

    /** The deferred critical section. */
    method Clear(id: string)
      modifies this`running
      ensures running == old(running) - {id}
    {
      running := running - {id};
    }

    /** A tick with nothing beside it: however the job ends, its id is free again and nothing else changed. */
    method Run(id: string, outcome: Outcome)
      modifies this
      ensures Reads(old(running), id) ==> running == old(running) && log == old(log) + [Skipped(id)]
      ensures !Reads(old(running), id) ==> running == old(running) - {id} && log == old(log) + Logged(id, outcome)
      ensures !Reads(old(running), id) ==> !Reads(running, id)
    {
      var claimed := Claim(id);
      if !claimed {
        log := log + [Skipped(id)];
        return;
      }
      log := log + [Ran(id)];
      match outcome {
        case Succeeded =>
        case Failed => log := log + [LoggedFailure(id)];
        case Panicked => log := log + [LoggedPanic(id)];
      }
      Clear(id);
      assert old(running)[id := true] - {id} == old(running) - {id};
    }
  }

  // ---------------------------------------------------------------- ticks side by side

  /** Where a tick is. Checking, Marked, Skipping, Clearing and Cleared hold the mutex. */
  datatype Place = Arrived | Checking | Marked | Skipping | Working | Ended(outcome: Outcome) | Clearing | Cleared | Over

  predicate Holds(p: Place) { p.Checking? || p.Marked? || p.Skipping? || p.Clearing? || p.Cleared? }

  /** From the mark to its removal. */
  predicate Active(p: Place) { p.Marked? || p.Working? || p.Ended? || p.Clearing? }

  datatype Tick = Tick(id: string, place: Place)

  datatype State = State(running: Running, owner: Option<nat>, ticks: seq<Tick>)

  datatype Label = Fires(id: string) | Locks(t: nat) | Checks(t: nat) | Unlocks(t: nat) | Ends(t: nat, outcome: Outcome) | Deletes(t: nat)

  const START := State(map[], None, [])

  predicate Enabled(s: State, l: Label) {
    l.Fires? ||
    (l.t < |s.ticks| &&
     var p := s.ticks[l.t].place;
     match l
     case Fires(_) => true
     case Locks(_) => s.owner.None? && (p.Arrived? || p.Ended?)
     case Checks(_) => p.Checking?
     case Unlocks(_) => p.Marked? || p.Skipping? || p.Cleared?
     case Ends(_, _) => p.Working?
     case Deletes(_) => p.Clearing?)
  }

  function At(s: State, t: nat, p: Place): State
    requires t < |s.ticks|
  {
    s.(ticks := s.ticks[t := s.ticks[t].(place := p)])
  }

  function Do(s: State, l: Label): State
    requires Enabled(s, l)
  {
    match l
    case Fires(id) => s.(ticks := s.ticks + [Tick(id, Arrived)])
    case Locks(t) => At(s, t, if s.ticks[t].place.Arrived? then Checking else Clearing).(owner := Some(t))
    case Checks(t) =>
      var id := s.ticks[t].id;
      if Reads(s.running, id) then At(s, t, Skipping) else At(s, t, Marked).(running := s.running[id := true])
    case Unlocks(t) => At(s, t, if s.ticks[t].place.Marked? then Working else Over).(owner := None)
    case Ends(t, outcome) => At(s, t, Ended(outcome))
    case Deletes(t) => At(s, t, Cleared).(running := s.running - {s.ticks[t].id})
  }

  predicate Possible(s: State, labels: seq<Label>)
    decreases |labels|
  {
    labels == [] || (Enabled(s, labels[0]) && Possible(Do(s, labels[0]), labels[1..]))
  }

  function After(s: State, labels: seq<Label>): State
    requires Possible(s, labels)
    decreases |labels|
  {
    if labels == [] then s else After(Do(s, labels[0]), labels[1..])
  }

  predicate OneOwner(s: State) {
    && (s.owner.Some? ==> s.owner.value < |s.ticks|)
    && forall t | 0 <= t < |s.ticks| :: Holds(s.ticks[t].place) <==> s.owner == Some(t)
  }

  predicate OneRunPerId(s: State) {
    forall t, u | 0 <= t < u < |s.ticks| && Active(s.ticks[t].place) && Active(s.ticks[u].place) :: s.ticks[t].id != s.ticks[u].id
  }

  ghost predicate IsActive(s: State, id: string) {
    exists t :: 0 <= t < |s.ticks| && s.ticks[t].id == id && Active(s.ticks[t].place)
  }

  /** The map holds exactly the ids of active runs, and every value in it is true. */
  ghost predicate MapIsTheActive(s: State) {
    && (forall id :: id in s.running <==> IsActive(s, id))
    && (forall id | id in s.running :: s.running[id])
  }

  ghost predicate Inv(s: State) {
    OneOwner(s) && OneRunPerId(s) && MapIsTheActive(s)
  }

  /** An active id is one before and after a step that keeps every tick's activity. */
  lemma SameActivity(s: State, s': State)
    requires |s.ticks| == |s'.ticks|
    requires forall t | 0 <= t < |s.ticks| :: s.ticks[t].id == s'.ticks[t].id && (Active(s.ticks[t].place) <==> Active(s'.ticks[t].place))
    ensures OneRunPerId(s) ==> OneRunPerId(s')
    ensures forall id :: IsActive(s, id) <==> IsActive(s', id)
  {
  }

  lemma FiringKeepsInv(s: State, id: string)
    requires Inv(s)
    ensures Inv(Do(s, Fires(id)))
  {
  }

  lemma CheckingKeepsInv(s: State, t: nat)
    requires Inv(s) && Enabled(s, Checks(t))
    ensures Inv(Do(s, Checks(t)))
    ensures var id := s.ticks[t].id; Do(s, Checks(t)).ticks[t].place == if IsActive(s, id) then Skipping else Marked
  {
  }

  lemma DeletingKeepsInv(s: State, t: nat)
    requires Inv(s) && Enabled(s, Deletes(t))
    ensures Inv(Do(s, Deletes(t))) && !IsActive(Do(s, Deletes(t)), s.ticks[t].id)
  {
  }

  lemma StepsKeepInv(s: State, l: Label)
    requires Inv(s) && Enabled(s, l)
    ensures Inv(Do(s, l))
  {
    match l
    case Fires(id) => FiringKeepsInv(s, id);
    case Checks(t) => CheckingKeepsInv(s, t);
    case Deletes(t) => DeletingKeepsInv(s, t);
    case _ => SameActivity(s, Do(s, l));
  }

  lemma {:induction false} RunsKeepInv(s: State, labels: seq<Label>)
    requires Inv(s) && Possible(s, labels)
    ensures Inv(After(s, labels))
    decreases |labels|
  {
    if labels != [] {
      StepsKeepInv(s, labels[0]);
      RunsKeepInv(Do(s, labels[0]), labels[1..]);
    }
  }

  // ---------------------------------------------------------------- what holds over every interleaving

  /**
   At most one run of a job is active, and the map holds exactly the ids of the active runs; so once every run
   of a job has ended, by return, error or panic, its id is free.
   */
  lemma RunsNeverOverlap(labels: seq<Label>)
    requires Possible(START, labels)
    ensures var s := After(START, labels);
            && OneRunPerId(s) && MapIsTheActive(s)
            && forall id :: (forall t | 0 <= t < |s.ticks| && s.ticks[t].id == id :: s.ticks[t].place.Over?) ==> id !in s.running
  {
    RunsKeepInv(START, labels);
  }

  /** A tick is skipped exactly when a run of its own job is active; another job's run never skips it. */
  lemma SkippedIffOwnRunIsActive(labels: seq<Label>, t: nat)
    requires Possible(START, labels) && Enabled(After(START, labels), Checks(t))
    ensures var s := After(START, labels);
            Do(s, Checks(t)).ticks[t].place.Skipping? <==> IsActive(s, s.ticks[t].id)
  {
    RunsKeepInv(START, labels);
    CheckingKeepsInv(After(START, labels), t);
  }

  /** No job works with the mutex held: a tick neither over nor working never has to wait for a job, some step of the runner's is enabled. */
  lemma SlowJobsBlockNobody(labels: seq<Label>, t: nat) returns (l: Label)
    requires Possible(START, labels) && t < |After(START, labels).ticks|
    requires var p := After(START, labels).ticks[t].place; !p.Over? && !p.Working?
    ensures Enabled(After(START, labels), l) && !l.Fires? && !l.Ends?
  {
    RunsKeepInv(START, labels);
    var s := After(START, labels);
    var u := if s.owner.Some? then s.owner.value else t;
    var p := s.ticks[u].place;
    l := if s.owner.None? then Locks(u)
         else if p.Checking? then Checks(u)
         else if p.Clearing? then Deletes(u)
         else Unlocks(u);
  }
}
