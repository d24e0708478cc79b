/**
 cmd/server/main.go, run and shutdown: the main goroutine, the goroutine that waits for the signal, the HTTP
 requests, the cron runs and the clock, each one step at a time in any order.
 */
module Shutdown {
  import opened Wrappers

  /** The two configured durations; a delay of 0 skips the sleep. */
  datatype Config = Config(delay: nat, timeout: nat)

  /** The main goroutine: in ListenAndServe, waiting for `drained`, then its deferred calls in LIFO order. */
  datatype Main = Serving | Draining | StoppingCron | ClosingConns | Unregistering | Gone

  /** The goroutine behind the signal: a.shutdown, then close(drained). */
  datatype Helper = Waiting | Delaying | ShuttingDown | StoppingMetrics | Finishing | Finished

  datatype Event = NotReady | ShutdownBegan | ShutdownReturned | DrainedClosed | CronStopped | ConnsClosed

  datatype State = State(
    now: nat, signalled: bool, ready: bool, main: Main, helper: Helper,
    notReadyAt: nat, beganAt: nat, timedOut: bool, failed: bool,
    inflight: nat, cronRuns: nat, trace: seq<Event>)

  datatype Label =
    | Elapse(d: nat) | Signal | Arrive | Complete | CronTick | CronDone
    | StoreNotReady | BeginShutdown | ShutdownIdle | ShutdownTimesOut | MetricsDown | CloseDrained
    | ListenClosed | ListenFails | PassDrained | CronStops | ConnsClose | Unregister

  const START := State(0, false, true, Serving, Waiting, 0, 0, false, false, 0, 0, [])

  /** srv.Shutdown has been called. */
  predicate Begun(h: Helper) { !h.Waiting? && !h.Delaying? }

  predicate Returned(h: Helper) { h.StoppingMetrics? || h.Finishing? || h.Finished? }

  predicate Enabled(c: Config, s: State, l: Label) {
    match l
    case Elapse(_) => true
    case Signal => !s.signalled
    // A request can still start while Shutdown polls, and after it gave up; not once it has found the server idle.
    case Arrive => !s.main.Gone? && !(Returned(s.helper) && !s.timedOut)
    case Complete => s.inflight > 0
    case CronTick => s.main.Serving? || s.main.Draining?
    case CronDone => s.cronRuns > 0
    case StoreNotReady => s.helper.Waiting? && s.signalled
    case BeginShutdown => s.helper.Delaying? && s.now >= s.notReadyAt + c.delay
    case ShutdownIdle => s.helper.ShuttingDown? && s.inflight == 0
    case ShutdownTimesOut => s.helper.ShuttingDown? && s.now >= s.beganAt + c.timeout
    case MetricsDown => s.helper.StoppingMetrics?
    case CloseDrained => s.helper.Finishing?
    case ListenClosed => s.main.Serving? && Begun(s.helper)
    case ListenFails => s.main.Serving? && !Begun(s.helper)
    case PassDrained => s.main.Draining? && s.helper.Finished?
    case CronStops => s.main.StoppingCron? && s.cronRuns == 0
    case ConnsClose => s.main.ClosingConns?
    case Unregister => s.main.Unregistering?
  }

  function Do(s: State, l: Label): State {
    match l
    case Elapse(d) => s.(now := s.now + d)
    case Signal => s.(signalled := true)
    case Arrive => s.(inflight := s.inflight + 1)
    case Complete => if s.inflight > 0 then s.(inflight := s.inflight - 1) else s
    case CronTick => s.(cronRuns := s.cronRuns + 1)
    case CronDone => if s.cronRuns > 0 then s.(cronRuns := s.cronRuns - 1) else s
    case StoreNotReady => s.(helper := Delaying, ready := false, notReadyAt := s.now, trace := s.trace + [NotReady])
    case BeginShutdown => s.(helper := ShuttingDown, beganAt := s.now, trace := s.trace + [ShutdownBegan])
    case ShutdownIdle => s.(helper := StoppingMetrics, trace := s.trace + [ShutdownReturned])
    case ShutdownTimesOut => s.(helper := StoppingMetrics, timedOut := true, trace := s.trace + [ShutdownReturned])
    case MetricsDown => s.(helper := Finishing)
    case CloseDrained => s.(helper := Finished, trace := s.trace + [DrainedClosed])
    case ListenClosed => s.(main := Draining)
    case ListenFails => s.(main := StoppingCron, failed := true)
    case PassDrained => s.(main := StoppingCron)
    case CronStops => s.(main := ClosingConns, trace := s.trace + [CronStopped])
    case ConnsClose => s.(main := Unregistering, trace := s.trace + [ConnsClosed])
    case Unregister => s.(main := Gone, signalled := true)
  }

  predicate Possible(c: Config, s: State, labels: seq<Label>)
    decreases |labels|
  {
    labels == [] || (Enabled(c, s, labels[0]) && Possible(c, Do(s, labels[0]), labels[1..]))
  }

  function After(s: State, labels: seq<Label>): State
    decreases |labels|
  {
    if labels == [] then s else After(Do(s, labels[0]), labels[1..])
  }

  predicate Closed(s: State) { s.main.Unregistering? || s.main.Gone? }

  // ---------------------------------------------------------------- the invariant

  function HelperStory(h: Helper): seq<Event> {
    match h
    case Waiting => []
    case Delaying => [NotReady]
    case ShuttingDown => [NotReady, ShutdownBegan]
    case StoppingMetrics => [NotReady, ShutdownBegan, ShutdownReturned]
    case Finishing => [NotReady, ShutdownBegan, ShutdownReturned]
    case Finished => [NotReady, ShutdownBegan, ShutdownReturned, DrainedClosed]
  }

  function MainStory(m: Main): seq<Event> {
    match m
    case Serving => []
    case Draining => []
    case StoppingCron => []
    case ClosingConns => [CronStopped]
    case Unregistering => [CronStopped, ConnsClosed]
    case Gone => [CronStopped, ConnsClosed]
  }

  predicate Clocked(c: Config, s: State) {
    && (!s.helper.Waiting? ==> s.signalled && s.notReadyAt <= s.now)
    && (s.ready <==> s.helper.Waiting?)
    && (Begun(s.helper) ==> s.notReadyAt + c.delay <= s.beganAt <= s.now)
    && (s.timedOut ==> Returned(s.helper) && s.beganAt + c.timeout <= s.now)
  }

  predicate Drained(s: State) {
    && (Returned(s.helper) && !s.timedOut ==> s.inflight == 0)
    && (s.main.Serving? ==> !s.failed)
    && (s.main.Draining? ==> !s.failed && Begun(s.helper))
    && (!s.main.Serving? && !s.main.Draining? && !s.failed ==> s.helper.Finished?)
    && (s.main.ClosingConns? || Closed(s) ==> s.cronRuns == 0)
  }

  predicate Told(s: State) {
    !s.failed ==> s.trace == HelperStory(s.helper) + MainStory(s.main)
  }

  predicate Inv(c: Config, s: State) {
    Clocked(c, s) && Drained(s) && Told(s)
  }

  lemma StepsStayClocked(c: Config, s: State, l: Label)
    requires Inv(c, s) && Enabled(c, s, l)
    ensures Clocked(c, Do(s, l))
  {
  }

  lemma StepsStayDrained(c: Config, s: State, l: Label)
    requires Inv(c, s) && Enabled(c, s, l)
    ensures Drained(Do(s, l))
  {
  }

  lemma StepsStayTold(c: Config, s: State, l: Label)
    requires Inv(c, s) && Enabled(c, s, l)
    ensures Told(Do(s, l))
  {
  }

  lemma {:induction false} RunsKeepInv(c: Config, s: State, labels: seq<Label>)
    requires Inv(c, s) && Possible(c, s, labels)
    ensures Inv(c, After(s, labels))
    decreases |labels|
  {
    if labels != [] {
      StepsStayClocked(c, s, labels[0]);
      StepsStayDrained(c, s, labels[0]);
      StepsStayTold(c, s, labels[0]);
      RunsKeepInv(c, Do(s, labels[0]), labels[1..]);
    }
  }

  // ---------------------------------------------------------------- every run

  /**
   On a run in which the listener did not fail, readiness goes false, the delay passes, Shutdown begins and
   returns, `drained` is closed, cron stops, and only then are the connections closed.
   */
  lemma ShutdownHasOneOrder(c: Config, labels: seq<Label>)
    requires Possible(c, START, labels)
    ensures var s := After(START, labels);
            && (!s.failed ==> s.trace == HelperStory(s.helper) + MainStory(s.main))
            && (!s.failed && Closed(s) ==>
                  && s.trace == [NotReady, ShutdownBegan, ShutdownReturned, DrainedClosed, CronStopped, ConnsClosed]
                  && !s.ready && s.signalled && s.beganAt >= s.notReadyAt + c.delay)
  {
    RunsKeepInv(c, START, labels);
  }

  /**
   A request is in flight when the connections close only if the listener had failed, or Shutdown ran out of
   time, which takes the delay and the whole timeout from the moment readiness went false. A cron run never is.
   */
  lemma ClosingCutsNothingShort(c: Config, labels: seq<Label>)
    requires Possible(c, START, labels) && Closed(After(START, labels))
    ensures var s := After(START, labels);
            && s.cronRuns == 0
            && (s.inflight > 0 ==> s.failed || (s.timedOut && s.now >= s.notReadyAt + c.delay + c.timeout))
  {
    RunsKeepInv(c, START, labels);
  }

  /** The state after labels[i..], when each of them is enabled in turn. */
  function Runs(c: Config, s: State, labels: seq<Label>, i: nat, left: nat): Option<State>
    requires i + left == |labels|
    decreases left
  {
    if left == 0 then Some(s)
    else if Enabled(c, s, labels[i]) then Runs(c, Do(s, labels[i]), labels, i + 1, left - 1)
    else None
  }

  lemma {:induction false} RunsArePossible(c: Config, s: State, labels: seq<Label>, i: nat, left: nat)
    requires i + left == |labels| && Runs(c, s, labels, i, left).Some?
    ensures Possible(c, s, labels[i..]) && After(s, labels[i..]) == Runs(c, s, labels, i, left).value
    decreases left
  {
    if left > 0 {
      assert labels[i..][1..] == labels[i + 1..];
      RunsArePossible(c, Do(s, labels[i]), labels, i + 1, left - 1);
    }
  }

  lemma {:induction false} RunsConcat(c: Config, s: State, a: seq<Label>, b: seq<Label>)
    requires Possible(c, s, a) && Possible(c, After(s, a), b)
    ensures Possible(c, s, a + b) && After(s, a + b) == After(After(s, a), b)
    decreases |a|
  {
    if a == [] {
      assert a + b == b;
    } else {
      assert (a + b)[1..] == a[1..] + b;
      RunsConcat(c, Do(s, a[0]), a[1..], b);
    }
  }

  lemma FirstHalf(c: Config) returns (labels: seq<Label>)
    ensures Possible(c, START, labels)
    ensures After(START, labels) == State(c.delay + c.timeout, true, false, Serving, StoppingMetrics, 0, c.delay, true, false,
                                          1, 0, [NotReady, ShutdownBegan, ShutdownReturned])
  {
    labels := [Arrive, Signal, StoreNotReady, Elapse(c.delay), BeginShutdown, Elapse(c.timeout), ShutdownTimesOut];
    RunsArePossible(c, START, labels, 0, 7);
    assert labels[0..] == labels;
  }

  lemma SecondHalf(c: Config, s: State) returns (labels: seq<Label>)
    requires s.helper.StoppingMetrics? && s.main.Serving?
    ensures Possible(c, s, labels)
    ensures After(s, labels) == s.(helper := Finished, main := Draining, trace := s.trace + [DrainedClosed])
  {
    labels := [MetricsDown, CloseDrained, ListenClosed];
    RunsArePossible(c, s, labels, 0, 3);
    assert labels[0..] == labels;
  }

  lemma LastSteps(c: Config, s: State) returns (labels: seq<Label>)
    requires s.helper.Finished? && s.main.Draining? && s.cronRuns == 0
    ensures Possible(c, s, labels)
    ensures After(s, labels) == s.(main := Unregistering, trace := s.trace + [CronStopped] + [ConnsClosed])
  {
    labels := [PassDrained, CronStops, ConnsClose];
    RunsArePossible(c, s, labels, 0, 3);
    assert labels[0..] == labels;
  }

  lemma AfterAFailure(c: Config) returns (labels: seq<Label>)
    ensures Possible(c, START, labels)
    ensures var s := After(START, labels); Closed(s) && s.inflight > 0 && !s.timedOut && s.ready
  {
    labels := [Arrive, ListenFails, CronStops, ConnsClose];
    RunsArePossible(c, START, labels, 0, 4);
    assert labels[0..] == labels;
  }

  /** Both exceptions are real: a run that cuts a request off after the timeout, and one after a listener failure. */
  lemma BothExceptionsHappen(c: Config) returns (slow: seq<Label>, broken: seq<Label>)
    ensures Possible(c, START, slow) && Possible(c, START, broken)
    ensures var s := After(START, slow); Closed(s) && s.inflight > 0 && !s.failed
    ensures var s := After(START, broken); Closed(s) && s.inflight > 0 && !s.timedOut && s.ready
  {
    var first := FirstHalf(c);
    var second := SecondHalf(c, After(START, first));
    RunsConcat(c, START, first, second);
    var third := LastSteps(c, After(START, first + second));
    RunsConcat(c, START, first + second, third);
    slow := first + second + third;
    broken := AfterAFailure(c);
  }

  /**
   Once the signal is in, nothing but time and running cron jobs can hold the exit up: with the delay and the
   timeout passed, some step that brings the exit nearer is enabled, whatever the requests do.
   */
  lemma TheExitIsNeverStuck(c: Config, labels: seq<Label>) returns (l: Label)
    requires Possible(c, START, labels)
    requires var s := After(START, labels); s.signalled && !s.main.Gone?
    ensures Enabled(c, Do(After(START, labels), Elapse(c.delay + c.timeout)), l)
    ensures !l.Elapse? && !l.Signal? && !l.Arrive? && !l.Complete? && !l.CronTick? && !l.ListenFails?
  {
    RunsKeepInv(c, START, labels);
    var s := After(START, labels);
    l := match s.main
      case Serving =>
        if s.helper.Waiting? then StoreNotReady else if s.helper.Delaying? then BeginShutdown else ListenClosed
      case Draining =>
        if s.helper.ShuttingDown? then ShutdownTimesOut
        else if s.helper.StoppingMetrics? then MetricsDown
        else if s.helper.Finishing? then CloseDrained
        else PassDrained
      case StoppingCron => if s.cronRuns == 0 then CronStops else CronDone
      case ClosingConns => ConnsClose
      case Unregistering => Unregister
      case Gone => Unregister;
  }
}
