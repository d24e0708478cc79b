/**
 One request's audit entries while its resolvers run side by side: internal/appreq's mutex and buffer, the one write
 connection that each mutation's transaction holds, and the middleware that takes the buffer and flushes it.

 A resolver is a goroutine with a list of acts. A mutation's closure may add entries while its transaction is
 open. Other requests come and go on the connection.
 */
module AuditFlow {
  import opened Wrappers
  import opened AppReq

  datatype Act = Mutation(inner: seq<AuditEntry>) | AddsEntry(entry: AuditEntry)

  /** Inside a transaction `left` is what its closure has still to add. Locked and Appended hold the mutex. */
  datatype Place =
    | Between
    | Queued
    | Holding(left: seq<AuditEntry>)
    | Locked(entry: AuditEntry, inside: Option<seq<AuditEntry>>)
    | Appended(inside: Option<seq<AuditEntry>>)

  datatype Worker = Worker(todo: seq<Act>, place: Place)

  /** The middleware: in the handler, in TakeAudit one statement at a time, then in flushAudit entry by entry. */
  datatype Main =
    | Handling
    | Taking
    | MutexHeld
    | Copied(entries: seq<AuditEntry>)
    | Emptied(entries: seq<AuditEntry>)
    | Flushing(entries: seq<AuditEntry>)
    | Writing(entries: seq<AuditEntry>)

  datatype Holder = Nobody | Middleware | Resolver(w: nat) | AnotherRequest

  /** `added` and `handed` are history: the entries in lock order, and those given to the database. */
  datatype State = State(
    workers: seq<Worker>, main: Main, mutex: Holder, conn: Holder,
    buffer: seq<AuditEntry>, added: seq<AuditEntry>, handed: seq<AuditEntry>)

  datatype Label =
    | Spawns(acts: seq<Act>) | Asks(w: nat) | BeginFails(w: nat) | Begins(w: nat) | Ends(w: nat)
    | Locks(w: nat) | Appends(w: nat) | Unlocks(w: nat)
    | HandlerReturns | TakeLocks | TakeCopies | TakeEmpties | TakeUnlocks
    | Connects | Writes | TimesOut
    | OtherTakes | OtherGives

  const START := State([], Handling, Nobody, Nobody, [], [], [])

  predicate HoldsMutex(p: Place) { p.Locked? || p.Appended? }

  predicate InTransaction(p: Place) { p.Holding? || (HoldsMutex(p) && p.inside.Some?) }

  predicate Done(worker: Worker) { worker.place.Between? && worker.todo == [] }

  predicate Over(s: State) { s.main == Flushing([]) }

  predicate MayLock(worker: Worker) {
    (worker.place.Between? && worker.todo != [] && worker.todo[0].AddsEntry?) ||
    (worker.place.Holding? && worker.place.left != [])
  }

  predicate WorkerEnabled(s: State, w: nat, l: Label) {
    w < |s.workers| &&
    var worker := s.workers[w];
    match l
    case Asks(_) => worker.place.Between? && worker.todo != [] && worker.todo[0].Mutation?
    case BeginFails(_) => worker.place.Queued?
    case Begins(_) => worker.place.Queued? && s.conn.Nobody?
    case Ends(_) => worker.place.Holding?
    case Locks(_) => MayLock(worker) && s.mutex.Nobody?
    case Appends(_) => worker.place.Locked?
    case Unlocks(_) => worker.place.Appended?
    case _ => false
  }

  predicate Enabled(s: State, l: Label) {
    match l
    case Spawns(_) => s.main.Handling?
    case HandlerReturns => s.main.Handling? && forall w | 0 <= w < |s.workers| :: Done(s.workers[w])
    case TakeLocks => s.main.Taking? && s.mutex.Nobody?
    case TakeCopies => s.main.MutexHeld?
    case TakeEmpties => s.main.Copied?
    case TakeUnlocks => s.main.Emptied?
    case Connects => s.main.Flushing? && s.main.entries != [] && s.conn.Nobody?
    case Writes => s.main.Writing?
    case TimesOut => s.main.Flushing? && s.main.entries != []
    case OtherTakes => s.conn.Nobody?
    case OtherGives => s.conn.AnotherRequest?
    case _ => WorkerEnabled(s, l.w, l)
  }

  function Put(s: State, w: nat, worker: Worker): State
    requires w < |s.workers|
  {
    s.(workers := s.workers[w := worker])
  }

  function Rest<T>(s: seq<T>): seq<T> { if s == [] then [] else s[1..] }

  function First<T>(s: seq<T>): seq<T> { if s == [] then [] else [s[0]] }

  function Do(s: State, l: Label): State
    requires Enabled(s, l)
  {
    match l
    case Spawns(acts) => s.(workers := s.workers + [Worker(acts, Between)])
    case Asks(w) => Put(s, w, s.workers[w].(place := Queued))
    case BeginFails(w) => Put(s, w, Worker(Rest(s.workers[w].todo), Between))
    case Begins(w) =>
      var todo := s.workers[w].todo;
      Put(s, w, Worker(Rest(todo), Holding(if todo != [] && todo[0].Mutation? then todo[0].inner else []))).(conn := Resolver(w))
    case Ends(w) => Put(s, w, s.workers[w].(place := Between)).(conn := Nobody)
    case Locks(w) =>
      var worker := s.workers[w];
      Put(s, w, if worker.place.Holding? then worker.(place := Locked(worker.place.left[0], Some(worker.place.left[1..])))
                else Worker(worker.todo[1..], Locked(worker.todo[0].entry, None))).(mutex := Resolver(w))
    case Appends(w) =>
      var place := s.workers[w].place;
      Put(s, w, s.workers[w].(place := Appended(place.inside))).(
        buffer := s.buffer + [place.entry], added := s.added + [place.entry])
    case Unlocks(w) =>
      var inside := s.workers[w].place.inside;
      Put(s, w, s.workers[w].(place := if inside.Some? then Holding(inside.value) else Between)).(mutex := Nobody)
    case HandlerReturns => s.(main := Taking)
    case TakeLocks => s.(main := MutexHeld, mutex := Middleware)
    case TakeCopies => s.(main := Copied(s.buffer))
    case TakeEmpties => s.(main := Emptied(s.main.entries), buffer := [])
    case TakeUnlocks => s.(main := Flushing(s.main.entries), mutex := Nobody)
    case Connects => s.(main := Writing(s.main.entries), conn := Middleware)
    case Writes => s.(main := Flushing(Rest(s.main.entries)), conn := Nobody, handed := s.handed + First(s.main.entries))
    case TimesOut => s.(main := Flushing(Rest(s.main.entries)), handed := s.handed + First(s.main.entries))
    case OtherTakes => s.(conn := AnotherRequest)
    case OtherGives => s.(conn := Nobody)
  }

  predicate Possible(s: State, labels: seq<Label>)
    decreases |labels|
  {
    labels == [] || (Enabled(s, labels[0]) && Possible(Do(s, labels[0]), labels[1..]))
  }

  function After(s: State, labels: seq<Label>): State
    requires Possible(s, labels)
    decreases |labels|
  {
    if labels == [] then s else After(Do(s, labels[0]), labels[1..])
  }

  // ---------------------------------------------------------------- the invariant

  /** The mutex has one holder, who is where holders of it are. */
  predicate MutexOwned(s: State) {
    && (s.mutex.Resolver? ==> s.mutex.w < |s.workers|)
    && (forall w | 0 <= w < |s.workers| :: HoldsMutex(s.workers[w].place) <==> s.mutex == Resolver(w))
    && (s.mutex.Middleware? <==> s.main.MutexHeld? || s.main.Copied? || s.main.Emptied?)
    && !s.mutex.AnotherRequest?
  }

  /** And so has the connection. */
  predicate ConnOwned(s: State) {
    && (s.conn.Resolver? ==> s.conn.w < |s.workers|)
    && (forall w | 0 <= w < |s.workers| :: InTransaction(s.workers[w].place) <==> s.conn == Resolver(w))
    && (s.conn.Middleware? <==> s.main.Writing?)
  }

  predicate Held(s: State) { MutexOwned(s) && ConnOwned(s) }

  /** After the handler has returned every resolver has ended. */
  predicate Joined(s: State) {
    !s.main.Handling? ==> forall w | 0 <= w < |s.workers| :: Done(s.workers[w])
  }

  /** What the middleware has taken out of the buffer and not yet handed over. */
  function InHand(m: Main): seq<AuditEntry> {
    if m.Copied? || m.Emptied? || m.Flushing? || m.Writing? then m.entries else []
  }

  predicate Conserved(s: State) {
    && (s.main.Copied? ==> s.buffer == s.main.entries)
    && (s.main.Emptied? || s.main.Flushing? || s.main.Writing? ==> s.buffer == [])
    && (s.main.Writing? ==> s.main.entries != [])
    && s.added == s.handed + (if InHand(s.main) == [] then s.buffer else InHand(s.main))
    && (!s.main.Flushing? && !s.main.Writing? ==> s.handed == [])
  }

  predicate Inv(s: State) { Held(s) && Joined(s) && Conserved(s) }

  predicate OfResolver(l: Label) {
    l.Asks? || l.BeginFails? || l.Begins? || l.Ends? || l.Locks? || l.Appends? || l.Unlocks?
  }

  lemma ResolversKeepMutex(s: State, l: Label)
    requires Held(s) && Enabled(s, l) && OfResolver(l)
    ensures MutexOwned(Do(s, l))
  {
  }

  lemma ResolversKeepConn(s: State, l: Label)
    requires Held(s) && Enabled(s, l) && OfResolver(l)
    ensures ConnOwned(Do(s, l))
  {
  }

  lemma OthersKeepHeld(s: State, l: Label)
    requires Held(s) && Joined(s) && Enabled(s, l) && !OfResolver(l)
    ensures Held(Do(s, l))
  {
  }

  lemma StepsKeepInv(s: State, l: Label)
    requires Inv(s) && Enabled(s, l)
    ensures Inv(Do(s, l))
  {
    if OfResolver(l) {
      ResolversKeepMutex(s, l);
      ResolversKeepConn(s, l);
      assert !Done(s.workers[l.w]);
    } else {
      OthersKeepHeld(s, l);
    }
  }

  lemma {:induction false} RunsKeepInv(s: State, labels: seq<Label>)
    requires Inv(s) && Possible(s, labels)
    ensures Inv(After(s, labels))
    decreases |labels|
  {
    if labels != [] {
      StepsKeepInv(s, labels[0]);
      RunsKeepInv(Do(s, labels[0]), labels[1..]);
    }
  }

  // ---------------------------------------------------------------- what holds over every interleaving

  /** In every state the entries added, in lock order, are those handed over, those taken and those still buffered. */
  lemma EntriesAreConserved(labels: seq<Label>)
    requires Possible(START, labels)
    ensures var s := After(START, labels);
            s.added == s.handed + (if InHand(s.main) == [] then s.buffer else InHand(s.main))
    ensures var s := After(START, labels); Over(s) ==> s.handed == s.added && s.buffer == []
  {
    RunsKeepInv(START, labels);
  }

  /**
   The handler returns when its resolvers have ended. From then on, the flush included, none of them is in a
   transaction, waits for one or holds the mutex, and none starts again: an insert waits at most for other requests.
   */
  lemma FlushHappensOutsideTransactions(labels: seq<Label>)
    requires Possible(START, labels) && !After(START, labels).main.Handling?
    ensures var s := After(START, labels);
            && (forall w | 0 <= w < |s.workers| :: !InTransaction(s.workers[w].place) && !s.workers[w].place.Queued?)
            && !s.conn.Resolver? && !s.mutex.Resolver?
  {
    RunsKeepInv(START, labels);
  }

  /** A step that nothing fails or times out for: a resolver's, the middleware's, or another request giving back. */
  predicate Forward(l: Label) { !l.Spawns? && !l.BeginFails? && !l.TimesOut? && !l.OtherTakes? }

  lemma MutexHolderCanStep(s: State) returns (l: Label)
    requires Inv(s) && !s.mutex.Nobody?
    ensures Forward(l) && Enabled(s, l)
  {
    l := if s.mutex.Middleware? then (if s.main.MutexHeld? then TakeCopies else if s.main.Copied? then TakeEmpties else TakeUnlocks)
         else if s.workers[s.mutex.w].place.Locked? then Appends(s.mutex.w) else Unlocks(s.mutex.w);
  }

  lemma ConnHolderCanStep(s: State) returns (l: Label)
    requires Inv(s) && s.mutex.Nobody? && !s.conn.Nobody?
    ensures Forward(l) && Enabled(s, l)
  {
    l := if s.conn.Middleware? then Writes else if s.conn.AnotherRequest? then OtherGives else Ends(s.conn.w);
  }

  /** No request deadlocks on its mutex and the connection: until its last entry is handed over, some step goes forward. */
  lemma RequestsNeverDeadlock(labels: seq<Label>) returns (l: Label)
    requires Possible(START, labels) && !Over(After(START, labels))
    ensures Forward(l) && Enabled(After(START, labels), l)
  {
    RunsKeepInv(START, labels);
    var s := After(START, labels);
    if !s.mutex.Nobody? {
      l := MutexHolderCanStep(s);
    } else if !s.conn.Nobody? {
      l := ConnHolderCanStep(s);
    } else if s.main.Taking? {
      l := TakeLocks;
    } else if s.main.Flushing? {
      l := Connects;
    } else if w :| 0 <= w < |s.workers| && !Done(s.workers[w]) {
      l := if s.workers[w].place.Queued? then Begins(w) else if s.workers[w].todo[0].Mutation? then Asks(w) else Locks(w);
    } else {
      l := HandlerReturns;
    }
  }
}
