# An admin panel, verified

The repository is an admin panel over SQLite: a Go server with a small set of commands (ban, unban, grant and revoke
admin, sign in, purge the audit log), a job queue, a cron runner, a keyset-paged audit log with its browser client, and
the code generator behind that client. This project models the parts whose properties span several functions or a
whole run, and proves those properties.

- **The transactional commands** (`Database`, `Scripts`, `TxScope`, `Scheduler`, `Commands`, `History`, `Lockout`,
  `Cases`). A statement is a step of the tables. A command is a script, a value: statements, each made on the env the
  closure was handed, on the app around it or on baseWrite; enqueues; nested transactions; audit writes. `TxScope` has
  the app with its bindings, the copy a transaction rebinds and the guard, and from them where each call lands: on the
  transaction, on the committed state, in the request's buffer, or waiting for what the transaction itself holds.
  `Scheduler` runs any number of scripts side by side over those bindings: one connection per pool, one write lock
  taken by BEGIN IMMEDIATE, any statement or commit failing, waits that end by a timeout, transactions that are
  cancelled, readers in between. `Commands` says what each command does at once, and proves that its script,
  whatever fails inside it, does that or nothing. `History` then reasons about whole runs as histories of committed
  commands. `Cases` has the same commands as methods that follow their scripts statement by statement. `Lockout` adds
  the identity that each request reads before its commands.
- **Sign-ins and requests** (`SignIns`, `AppReq`, `Requests`, `AuditFlow`): the read, compare and guarded update that
  notices a sign-in, in many requests at once; the audit buffer of one request from middleware to flush, as methods
  whose mutations are calls of `WithTransaction`, and as a step system of resolvers side by side with the buffer's
  mutex and the one write connection.
- **Paging** (`Paging`): the server's page and the client's cursors over a log that grows and is purged between
  fetches.
- **Code generation** (`Fragments`, `Template`): the fragment registry and its closure, and the escaping of a document
  into a JavaScript template literal and of dollar signs in string literals, against evaluators of such literals.
- **Text and addresses** (`Truncation`, `ActionLabel`, `ClientIp`, over `Strings`).
- **Two protocols** (`Cron`, `Shutdown`), as step systems.

Methods, loops and classes stand where the source works step by step. Functions and lemmas carry their specification.
In a step system a label is one atomic step, a run is any sequence of enabled labels, and a lemma about `After` of a
possible run holds over every interleaving.

Some facts about the code came out of the proofs.

- Two admins whose requests overlap can ban each other, and then nobody can act (`Lockout.OverlapCanLockOut`). Which
  command locks everyone out is exact (`Lockout.LockoutIsExact`), and without overlap none does.
- The nesting guard finds an open transaction exactly when the call goes through the transaction's env or its context.
  A call on the outer app with the outer context is not refused. Like a write on the outer app, a write on baseWrite
  and an audit write with no request in scope it waits for the connection its own transaction holds; an enqueue waits
  on the queue's connection for the lock. Until that wait times out or the transaction is cancelled no task commits
  (`Scheduler.EscapesAndOnlyTheyBlock`, `Scheduler.OnlyItsOwnTimeoutFreesTheLock`). No command makes such a call
  (`Commands.CasesAreWellBehaved`, `History.CommandsNeverDeadlock`).
- The template escaping brings a document back unchanged exactly when it holds no carriage return
  (`Template.RoundTripIffNoReturn`). With one, the document comes back with that line terminator normalised.
- Escaping the dollar signs of the generated types keeps the value of a string literal exactly when no dollar sign in it
  stands behind an escaping backslash (`Template.LiteralsKeepTheirValue`): of `'\$'` it makes `'\\u0024'`, a backslash
  and the text `u0024`.
- The fragment registry is a plain object. A fragment named like an inherited property (`constructor`) is refused as a
  duplicate, and a spread of such a name fails with another error than a missing fragment.

The code and its documentation differ in two places, and the model follows the code. docs/graphql.md:17-18 says that the
env of a mutation is the transaction-scoped copy, but the request's Env stays the outer app (cmd/server/http.go:102).
docs/env-pattern.md:244 shows a callback that returns a bool and an error, and cmd/server/tx.go:52 takes one that
returns an error.

`dafny verify dfyconfig.toml` checks everything.

## Model

| member | source | states |
|---|---|---|
| `Database.ExecKeepsSchema` | db/schema.sql:2-31 | Every statement, failing or not, keeps the foreign keys, the unique identity index and the autoincrement counters |
| `Database.UpsertKeepsSchema` | internal/db/queries.write.sql.go:137-176 | Signing an identity in through the unique index keeps one row per identity, new or refreshed |
| `Database.DeleteAdminOutcome` | internal/db/queries.write.sql.go:14-26 | The guarded delete removes the row iff the target is one of several admins and no standing ban names them; errors iff a ban does; affects nothing iff not an admin or the last one |
| `Database.BanSentinelIsExact` | internal/db/queries.read.sql.go:97-109 | While every ban carries a reason, the empty ban reason of the identity row means exactly that there is no ban row |
| `Database.IdentityIsTheRow` | internal/db/queries.read.sql.go:58-109 | Both identity queries answer with the columns of that one user: id, address, last sign-in, admin iff in the admins table, and the ban reason or empty |
| `Database.UnknownIdentities` | internal/db/queries.read.sql.go:14-169 | An identity is not found iff no user has it; lookups by id answer the row iff there is one, and the count is that of the admins |
| `Database.UpsertStores` | internal/db/queries.write.sql.go:137-176 | Every column given is stored; a known identity keeps id and creation time, an unknown one gets an id above all others; no other row and no other table moves; the reply is the stored row |
| `Database.AccessStores` | internal/db/queries.write.sql.go:37-115 | What the ban and grant statements store, column by column, with their conflicts and their foreign keys |
| `Database.MarkStores` | internal/db/queries.write.sql.go:117-127 | The mark moves that column of that row, to a later second only, and nothing else; its row count says whether it did |
| `Database.AuditInsertAppends` | internal/db/queries.write.sql.go:60-64 | One more row under the next id, exactly the one given; every earlier row stays |
| `Scripts.FinishedRunsEnd` | cmd/server/tx.go:72-80 | Every finished run of a closure, whatever failed in it, is one of its finitely many ends |
| `Scripts.RunsObey` | cmd/server/tx.go:49-83 | A closure all of whose calls keep a rule, being tidy or escaping nowhere, keeps it in every state of every run |
| `Scripts.TidyIsNoEscape` | cmd/server/tx.go:38-47 | A closure that makes every call on its env escapes nowhere, with a request in scope or without |
| `Scripts.CountedMeansAnswered` | internal/case/banuser/resolve.go:68-80 | A closure whose metric is its last step before the answer has counted nothing unless it has answered |
| `TxScope.GuardIsExact` | cmd/server/tx.go:17-36 | From inside a transaction the guard finds it iff the call goes through the tx env or the tx context |
| `TxScope.GuardSeesEveryEnv` | cmd/server/tx.go:17-36 | The guard sees nothing iff neither the context, the request nor the app it is called on holds a transaction; otherwise the first of them, in that order |
| `TxScope.RebindingIsExact` | cmd/server/tx.go:38-47 | From the copied bindings: every call on the env lands on its own transaction, reads on the outer app on the committed state, and exactly the escaping calls wait for what the transaction holds; carried out so, a call is the closure's own next step |
| `TxScope.Pool.RunClosure` | cmd/server/tx.go:69-75 | For whichever calls fail, the closure runs call by call over the bindings to the end of its run under those failures; what it counted and buffered is what that run counts and adds |
| `TxScope.Pool.WithTransaction` | cmd/server/tx.go:52-83 | Refuses exactly when a transaction is found. Otherwise, for whatever fails: begin error iff begin fails; the closure's error iff its run under the failing calls raises; commit error iff that run returns and the commit fails; committed with the run's answer iff it begins, returns and the commit does not fail. Then the tables are that run's, in every other case as before; the connection is given back, counted metrics and buffered entries stay |
| `Scheduler.RunsAreSerial` | cmd/server/tx.go:52-83 | After any interleaving the tables are the committed closures replayed alone in commit order, each with the answer it gave, and the metrics add up |
| `Scheduler.OnlyFinishedTasksContribute` | cmd/server/tx.go:72-80 | The commit log holds each finished command exactly once and no failed one |
| `Scheduler.ReadersSeeCommittedStates` | internal/db/setup.go:94-118 | Outside readers see only states that some prefix of the commits produced |
| `Scheduler.EnvStatementsSeeOwnWrites` | cmd/server/tx.go:38-47 | In every reachable state a statement on the env is executed by its own transaction on the committed state and its own writes; a read on the outer app sees the committed state and none of them; a write on the outer app or baseWrite waits for the connection the transaction holds |
| `Scheduler.CallsAreSteps` | cmd/server/tx.go:69-75 | In every state that keeps the invariant a call carried out over the bindings is the next step of the closure run alone |
| `Scheduler.EveryExitReleases` | cmd/server/tx.go:62-67 | In every reachable state a task holds the lock or a connection iff it is still inside |
| `Scheduler.OnlyCommitsMoveTheState` | cmd/server/tx.go:77-80 | No step but a commit changes the committed tables, the log or a finished task |
| `Scheduler.HoldersNeverWait` | cmd/server/tx.go:49-55 | In no reachable state of closures that escape nowhere does the holder of the connection wait: not by a statement, an enqueue, a nested transaction or an audit write |
| `Scheduler.NoDeadlock` | cmd/server/tx.go:49-83 | While any such task is unfinished a step that needs no failure and no timeout is enabled |
| `Scheduler.SomeoneCanStep` | cmd/server/tx.go:49-55 | For any closures at all such a step is enabled unless the holder of the lock waits for what it holds itself |
| `Scheduler.OnlyItsOwnTimeoutFreesTheLock` | internal/db/setup.go:88-118 | While a holder is stuck no step begins, runs, commits or rolls back anything; its timeout leaves it open with the call failed, its cancellation ends it, and nothing else changes the task or frees the lock |
| `Scheduler.AnEscapeStopsEveryWriter` | cmd/server/tx.go:49-51 | Over any run without that timeout or cancellation the holder stays stuck and no task moves the tables |
| `Scheduler.EscapesAndOnlyTheyBlock` | cmd/server/jobs.go:35-40 | A closure blocks on its first call iff the call escapes, whatever the app and the context it was opened with; an enqueue can take the queue's connection meanwhile, no other call does |
| `Commands.CasesAreWellBehaved` | cmd/server/commands.go:13-49 | Every command finishes within four steps, every statement and enqueue in it is made on the transaction's env, none opens a transaction, a metric comes last, and so none escapes |
| `Commands.CommandsAreAtomic` | cmd/server/commands.go:13-25 | Whatever statements fail, a command's closure either errors or leaves exactly the command's one change, answer and counts |
| `Commands.CommandsCommitUnlessRejected` | cmd/server/commands.go:13-25 | When no statement fails, a command answers iff its one change is possible |
| `Commands.FaultlessCommandsAnswer` | cmd/server/commands.go:13-49 | However far its run is followed, a command in which nothing failed has answered iff its change is possible, once it has ended |
| `Commands.BanUserFaithful` | internal/case/banuser/resolve.go:39-81 | Every committing run of BanUser is the ban change: refusals as listed, a re-ban changes only the reason, one notice, one count |
| `Commands.MakeAdminFaithful` | internal/case/makeadmin/resolve.go:35-64 | The same for MakeAdmin, unknown and banned users refused |
| `Commands.RemoveAdminFaithful` | internal/case/removeadmin/resolve.go:33-65 | The same for RemoveAdmin: own access, last admin, already not an admin, removed |
| `Commands.SignInFaithful` | internal/case/signinbyoidc/resolve.go:38-112 | The same for a sign-in: upsert, then admin by table or by the bootstrap rule |
| `Commands.EnsureAdminEnds` | internal/case/signinbyoidc/resolve.go:80-112 | Admin is granted iff the table is empty and the address is the configured one |
| `Commands.UnbanUserFaithful` | internal/case/unbanuser/resolve.go:29-41 | The same for UnbanUser |
| `Commands.PurgeFaithful` | internal/case/purgeauditlog/resolve.go:19-33 | The same for the purge |
| `Cases.TxEnv.DBDeleteAdmin` | internal/db/queries.write.sql.go:14-26 | Fails iff the call fails or the statement does; otherwise the guarded delete on the open transaction's tables, with its row count |
| `Cases.TxEnv.DBInsertUserBan` | internal/db/queries.write.sql.go:86-115 | A new ban needs its user and an admin as author; a conflict moves only the reason; it fails in no other case than these and a failing call |
| `Cases.TxEnv.DBUpsertUserByOIDC` | internal/db/queries.write.sql.go:137-176 | Refreshes the row of the identity or inserts one under the next id, unless the call fails; what is stored is `Database.UpsertStores` |
| `Cases.TxEnv.DBInsertAdmin` | internal/db/queries.write.sql.go:46-58 | Inserts once, does nothing on a conflict, fails for an unknown user and for a failing call only |
| `Cases.TxEnv.DBDeleteUserBan` | internal/db/queries.write.sql.go:37-44 | Removes the ban row and nothing else |
| `Cases.TxEnv.DBDeleteAuditLogBefore` | internal/db/queries.write.sql.go:28-35 | Keeps exactly the rows not before the cutoff |
| `Cases.TxEnv.EnqueueUserBannedNotice` | cmd/server/jobs.go:27-51 | Inside a transaction the message is part of it |
| `Cases.FollowedToTheEnd` | cmd/server/commands.go:13-25 | A case that followed its script to an answer did exactly what its command says, and one in which no call failed answered iff the command can |
| `Cases.ResolveBanUser` | internal/case/banuser/resolve.go:39-81 | The statements of BanUser in order; each refusal iff its condition on input and tables, the payload iff none of them and no failed call, and then the ban, one more notice, one count |
| `Cases.ResolveUnbanUser` | internal/case/unbanuser/resolve.go:29-41 | The payload iff the id is valid and no call failed, and then the ban row is gone and nothing else moved |
| `Cases.ResolveMakeAdmin` | internal/case/makeadmin/resolve.go:35-64 | An unknown user, a banned one and an invalid id are refused, each iff it is that; otherwise, unless a call fails, the user is an admin afterwards, at the given time if it was none before |
| `Cases.ResolveRemoveAdmin` | internal/case/removeadmin/resolve.go:33-65 | Each answer iff its condition on input, tables and failed calls: own access, the only admin, already no admin, or removed, which a standing ban by the target prevents; success leaves the target no admin |
| `Cases.EnsureAdmin` | internal/case/signinbyoidc/resolve.go:80-112 | The answer says admin iff the user is in the table afterwards; a newly granted one found it empty and has the configured address; no other row moves |
| `Cases.ResolveSignIn` | internal/case/signinbyoidc/resolve.go:38-68 | What it returns and changes is the sign-in command; it reports admin iff the user is in the admins table |
| `Cases.ResolvePurge` | internal/case/purgeauditlog/resolve.go:19-33 | Without a retention nothing changes; with one exactly the rows not before the cutoff are left |
| `History.RunsRefineCommands` | cmd/server/commands.go:13-49 | The interleaved system refines the atomic one: tables, answers and metrics of any run are those of the committed commands applied one at a time |
| `History.Between` | cmd/server/commands.go:13-49 | Between any two points of a run the tables move by the commands committed in between and nothing else |
| `History.CommandsNeverWaitInside` | cmd/server/tx.go:49-55 | In no run of the process's commands is any task stuck inside its transaction or about to be |
| `History.CommandsNeverDeadlock` | cmd/server/tx.go:49-55 | In every such run, while a command is unfinished a step that needs no failure and no timeout is enabled |
| `History.CommandKeepsSchema` | db/schema.sql:13-22 | Each command keeps the schema: every ban names a user and a current admin or nobody |
| `History.HistoriesKeepTheSchema` | db/schema.sql:2-31 | So does every history of committed commands, and every ban keeps a reason |
| `History.RunsKeepTheSchema` | db/schema.sql:2-31 | So does every state of every run of the process, whatever interleaves and fails |
| `History.AdminsNeverRunOut` | internal/db/queries.write.sql.go:14-18 | No history of committed commands empties an admins table that is not empty |
| `History.RunsNeverRunOutOfAdmins` | internal/db/queries.write.sql.go:14-18 | From a state of a run with an admin, every later state of the run has one, under every interleaving |
| `History.SignInPromotesOnlyTheFirst` | internal/case/signinbyoidc/resolve.go:90-111 | A sign-in changes the admins table only from empty to itself |
| `History.BootstrapFiresOnce` | internal/case/signinbyoidc/resolve.go:80-112 | The bootstrap rule grants admin at most once per history, never when there is an admin |
| `History.RemoveAdminAnswersTheState` | internal/case/removeadmin/resolve.go:44-64 | The last-admin refusal iff the target is the sole admin; success with nothing removed iff it was no admin; an error iff a standing ban names it |
| `History.MakeAdminAnswersTheState` | internal/case/makeadmin/resolve.go:35-64 | Each answer iff its condition on input and tables; a grant iff the user exists without a ban, and then the admins table gains that one id, at the given time, unless it is there, and one grant is counted |
| `History.BanUserAnswersTheState` | internal/case/banuser/resolve.go:39-81 | Each refusal iff its condition; an error iff a new ban's author is no admin; the payload iff none, and then author, time and trimmed reason of at most 500 bytes are stored, a re-ban only its reason, with one notice and one count |
| `History.UnbanUserAnswersTheState` | internal/case/unbanuser/resolve.go:29-41 | Refused iff the id is below 1; otherwise that ban row goes and nothing else moves |
| `History.SignInAnswersTheState` | internal/case/signinbyoidc/resolve.go:38-112 | Refused iff issuer, subject or normalised address is missing; otherwise the identity's row holds the normalised address, the name and the token's time, a new one its creation time, a known one keeps id and creation time, every other row stays, the answer is that row, and the admins table moves by the bootstrap rule alone |
| `History.ChoresAnswerTheState` | internal/case/purgeauditlog/resolve.go:19-33 | What the process's own commands change: a message more or less, one audit row more; a purge the audit log alone, and nothing without a retention |
| `History.RefusalsChangeNothing` | internal/case/banuser/resolve.go:42-56 | Any ErrorPayload leaves tables, queue and counters unchanged |
| `History.CommandNotices` | internal/case/banuser/resolve.go:73-80 | The only commands that change a user's notices are their ban, by one more, and a finished notice job, by one less |
| `History.EveryBanIsNotifiedOnce` | internal/case/banuser/resolve.go:68-80 | In every history a user's notices, queued or handled, are the initial ones plus one per committed ban of that user |
| `History.RunsBootstrapOnceAndNotifyEveryBan` | internal/case/banuser/resolve.go:68-80 | Both of every run of the process: at most one bootstrap grant, and one notice per committed ban |
| `History.RaisedCountsNothing` | internal/case/banuser/resolve.go:68-78 | A command that ends in an error has counted nothing, whatever failed in it |
| `History.BanIsCountedWhenAnswered` | internal/case/banuser/resolve.go:78-80 | At every moment of every command a ban is counted iff its payload has been returned |
| `History.NothingIsLost` | cmd/server/tx.go:72-80 | In a run in which no commit fails and nothing is cancelled, nothing is counted without a commit: commands that roll back count nothing |
| `History.TheBannedCounter` | internal/case/banuser/resolve.go:78-80 | In every run the counter is the committed bans, plus the answered bans lost to a failed commit or a cancellation, plus one if the open transaction has answered a ban; so at least the committed bans, and with none open equal iff no answered ban was lost |
| `History.EqualWhenNoCommitFails` | internal/case/banuser/resolve.go:78-80 | When no commit fails and nothing is cancelled, the counter is the number of committed bans whenever no transaction is open |
| `History.CommittedBansAreCounted` | internal/case/banuser/resolve.go:78-80 | Committed commands count exactly the committed bans |
| `History.AStandingBanPinsItsAuthor` | db/schema.sql:17-22 | As long as nobody lifts a ban its author stays in the row and in the admins table, whatever commits, and removing the author fails |
| `History.RunsPinTheAuthor` | db/schema.sql:17-22 | From a state of a run with the ban to any later one, as long as no lifting of it commits in between |
| `History.PurgeKeepsTheRetention` | internal/case/purgeauditlog/resolve.go:19-33 | Of the rows a purge leaves, unchanged, exactly those whose second does not end before the cutoff |
| `Lockout.LockoutIsExact` | internal/case/removeadmin/resolve.go:39-47 | A command leaves nobody able to act iff the guards of a ban or of a removal let it through, read off its input and the tables before it, and its target is the only admin standing |
| `Lockout.HistoriesLockOutExactly` | cmd/server/auth.go:149-160 | A history is unlocked after every commit iff that check fails for each of its commands where it commits |
| `Lockout.OneRequest` | cmd/server/auth.go:115-164 | One request, its identity read first and its commands after with no other commit in between, keeps the panel unlocked |
| `Lockout.FirstSignIn` | cmd/server/auth.go:229-257 | A first sign-in is admin iff the bootstrap rule fires, and then stands unbanned |
| `Lockout.NobodyIsLockedOut` | internal/case/banuser/resolve.go:47-50 | When requests do not overlap, nobody is banned before there is an admin, and afterwards an unbanned admin always exists |
| `Lockout.RunsServedInTurnStayUnlocked` | cmd/server/auth.go:115-164 | The same for any run of the process whose commits group into such requests |
| `Lockout.UnoverlappedStaysUnlocked` | cmd/server/auth.go:140-160 | A history is unlocked after every commit when each deed's request is entitled to it under the identity of its snapshot or its own first sign-in, and no other request's command but chores committed between that snapshot and the deed |
| `Lockout.RunsWithoutOverlapStayUnlocked` | cmd/server/auth.go:115-164 | The same for any run of the process in which those identities are read by readers of the run |
| `Lockout.NewInstallationsStayUnlocked` | db/schema.sql:2-31 | From empty tables on every run keeps the schema and the reasons, and without overlap stays unlocked |
| `Lockout.OverlapCanLockOut` | internal/case/banuser/resolve.go:47-50 | Two admins with overlapping requests can ban each other: both commit, nobody can act |
| `SignIns.MarkIsGuarded` | internal/db/queries.write.sql.go:117-135 | The update affects the row iff the stored second is null or earlier, and then stores the new one |
| `SignIns.LastSignInNeverDecreases` | cmd/server/auth.go:170-202 | However requests interleave and however stale their reads, the last sign-in never moves back |
| `SignIns.EveryVisitIsCaughtUp` | cmd/server/auth.go:170-202 | Every request that came through without an error leaves the column at or past its token |
| `SignIns.SignInsAreCountedOnce` | cmd/server/auth.go:188-201 | Each second is counted and audited at most once, and only if it was a strict advance |
| `SignIns.TheCounterIsTheAdvances` | cmd/server/auth.go:188-201 | With no request in between, counter and audit grew by exactly the strict advances of the column |
| `AppReq.AppRequest.AddAudit` | internal/appreq/appreq.go:37-41 | The entry goes to the end of the buffer |
| `AppReq.AppRequest.TakeAudit` | internal/appreq/appreq.go:43-50 | Everything buffered is handed out once; added entries are those taken and those still buffered |
| `Requests.Server.FlushAudit` | cmd/server/auth.go:72-95 | For whichever inserts fail: the audit log has one more row per entry whose insert did not, in order under the next ids, with that entry's user, address, action, detail and ip and the given time; every other row and table is as before, and every entry was handed over once |
| `Requests.Server.WriteAudit` | cmd/server/auth.go:59-67 | Buffers inside a request, and writes that one row at once outside one, where the connection has to be free |
| `Requests.Server.RecordSignIn` | cmd/server/auth.go:170-202 | A sign-in is noticed, counted and audited iff the token is later than the row as read, its second later than the column as it is, and the update does not fail; then the column holds that second, otherwise the tables are as before |
| `Requests.Server.FirstSignIn` | cmd/server/auth.go:229-257 | Known iff the sign-in begins, its run under the failing calls answers and the commit does not fail; then the tables are those of the sign-in command and there is one entry; otherwise nothing is left of it |
| `Requests.Server.ResolveIdentity` | cmd/server/auth.go:115-164 | For whatever fails, the identity is exactly that of token and committed row, or of the first sign-in; only a known caller changes anything, and then the sign-in column with an entry or what the sign-in command changes |
| `Requests.TheSameTokenIsNotNoticedTwice` | cmd/server/auth.go:165-202 | After a request that made its caller known with no failed mark, a second one with the same token leaves no entry and changes nothing, a first sign-in included |
| `Requests.Server.ServeOne` | cmd/server/http.go:100-106 | A mutation is a `WithTransaction` call on the app and ends as its failures have it; it gives the connection back and its entries stay in the buffer |
| `Requests.Server.WithRequest` | cmd/server/http.go:100-129 | Each refusal iff the identity is that, with nothing buffered, nothing handed over and the tables as they were; otherwise every entry added, in transactions that committed or rolled back or outside them, is flushed exactly once, in order, when every transaction has given the connection back, and the audit log gets the row of each whose insert does not fail |
| `Requests.Server.CheckAdmin` | internal/graph/resolver.go:72-113 | Admits iff the request's user is an admin; a denial leaves one count and one entry: the user, the action behind `denied:`, the variables and the address; an admitted mutation one entry; a query none |
| `AuditFlow.EntriesAreConserved` | internal/appreq/appreq.go:37-50 | With resolvers adding side by side, in every state the entries added, in lock order, are those handed over, those taken and those buffered; at the end each was handed over once |
| `AuditFlow.FlushHappensOutsideTransactions` | cmd/server/auth.go:54-58 | The handler returns when its resolvers have ended; from then on none of them is in a transaction, waits for one or holds the mutex, so the flush never waits for its own request (that each outcome gives the connection back is `TxScope.Pool.WithTransaction`) |
| `AuditFlow.RequestsNeverDeadlock` | cmd/server/auth.go:54-67 | Until the last entry is handed over some step of the request or of the connection's other holder is enabled, with entries added inside open transactions |
| `Paging.Resolve` | internal/case/listauditlog/resolve.go:30-70 | The limit+1 probe gives the promised page; it fails iff one of its two queries does |
| `Paging.PageSizes` | internal/case/listauditlog/resolve.go:13-62 | All rows below the cursor, but 50 at most when no positive limit is asked for and never more than 500; a next page iff rows are left over; the end cursor is the last row shown |
| `Paging.PageShowsTheNewest` | internal/db/queries.read.sql.go:218-223 | The rows shown fall strictly and are the newest of those below the cursor |
| `Paging.PageCovers` | internal/db/queries.read.sql.go:218-223 | One page shows every row of its log from its cursor down to its end cursor, or to the bottom |
| `Paging.CursorsFall` | assets/ui/paging/paging.ts:53-58 | A cursor reached by going on is positive and below all before it |
| `Paging.WalkCovers` | assets/ui/paging/paging.ts:30-38 | Pages so far fall strictly, and a row there all along is shown unless it lies below the next cursor |
| `Paging.ItemsNeverRepeat` | assets/ui/paging/paging.ts:35-38 | Whatever is appended and purged between fetches, no row is shown twice and ids fall strictly |
| `Paging.NothingIsOmitted` | assets/ui/paging/paging.ts:35-38 | A finished walk omits no row that was there from the first fetch to the last |
| `Paging.WalksEnd` | assets/ui/paging/paging.ts:49-58 | Every walk ends: no more pages than ids the log had at the start |
| `Paging.FrozenWalkShowsEverything` | internal/case/listauditlog/resolve.go:30-70 | Over a log that stands still a finished walk shows the whole log reversed, for every requested limit |
| `Paging.Pager.Fetch` | assets/ui/paging/paging.ts:25-28 | A page is fetched at a cursor not asked for before, from the log as it is then, and extends the walk |
| `Paging.Pager.LoadLast` | assets/ui/paging/paging.ts:25-33 | It is fetched once per cursor: one already there stays as it is |
| `Paging.Pager.More` | assets/ui/paging/paging.ts:53-58 | The next cursor is shown iff the last page says there is one |
| `Paging.Pager.Reset` | assets/ui/paging/paging.ts:60-62 | Back to the first cursor, pages kept |
| `Paging.Pager.GetItems` | assets/ui/paging/paging.ts:35-38 | The items are those of the walk up to the cursors shown |
| `Fragments.CollectIsFirstOccurrences` | assets/codegen/ui/molplugin.js:207-215 | The accumulator is the spreads in document order, first occurrences only |
| `Fragments.CollectedExactly` | assets/codegen/ui/molplugin.js:207-215 | Exactly the names spread below the node, each once |
| `Fragments.OccurrencesAreTheSpreads` | assets/codegen/ui/molplugin.js:207-215 | The occurrences are the spreads of the tree at their places, every place once, in document order |
| `Fragments.CollectedInOrder` | assets/codegen/ui/molplugin.js:207-215 | The collected names stand in the order of their first occurrences |
| `Fragments.FragmentClosure` | assets/codegen/ui/molplugin.js:193-205 | Ends on any registry, cyclic ones too; returns the reachable names, each once and nothing else; throws iff a reachable name is undefined |
| `Fragments.SourceIsItsFragment` | assets/codegen/ui/preset.js:53-73 | Where every file defines one thing, a fragment's source, its whole file, defines that fragment and nothing else that executes |
| `Fragments.EmittedDocumentIsValid` | assets/codegen/ui/molplugin.js:125-128 | The printed document, the operation and the files of its closure, holds one definition per closure name and nothing else that executes, and meets sections 5.5.1.1, 5.5.1.4 and 5.5.2.1 of the GraphQL specification (October 2021) |
| `Fragments.BuildRegistry` | assets/codegen/ui/preset.js:41-61 | Succeeds iff no fragment name occurs twice or is inherited; then holds every fragment with its file and spreads |
| `Fragments.BuildSections` | assets/codegen/ui/preset.js:63-106 | Succeeds iff the registry does and every file defines exactly one operation or fragment; one output per file |
| `Fragments.ExternalsAreTheOthers` | assets/codegen/ui/preset.js:75-85 | With distinct paths, a file's external fragments are exactly those of the other files |
| `Template.ThreeRewritesAreOne` | assets/codegen/ui/molplugin.js:219-221 | The three sequential global replacements are one substitution per character |
| `Template.NoDollarIsLeft` | assets/codegen/ui/molplugin.js:96-98 | No dollar sign is left in either kind of output |
| `Template.DollarsComeBack` | assets/codegen/ui/molplugin.js:96-98 | Reading every `\u0024` of the escaped text as a dollar sign gives the text back iff the text held no such escape itself; text without a dollar sign is unchanged |
| `Template.LiteralsKeepTheirValue` | assets/codegen/ui/molplugin.js:46-65 | A string literal (section 12.9.4 of ECMA-262, 2023) of the generated types stays one literal, or none, and its value stays the same iff no dollar sign in it is escaped by a backslash already |
| `Template.EvaluationUndoesEscaping` | assets/codegen/ui/molplugin.js:146-150 | The escaped text is the body of one template literal (section 12.9.6 of ECMA-262, 2023) for every document, and its value is the document up to line terminators |
| `Template.RoundTripIffNoReturn` | assets/codegen/ui/molplugin.js:217-221 | The value is the document itself iff it holds no carriage return |
| `Truncation.Truncate` | internal/graph/audit_entry.go:86-97 | Unchanged up to the limit; otherwise at most 4003 bytes, cut at the last rune start; valid UTF-8 stays valid, its kept part the longest valid prefix within the limit, at most three steps back |
| `Truncation.PrefixesEndAtRuneStarts` | internal/graph/audit_entry.go:91-94 | In valid UTF-8 (section 4 of RFC 3629) a prefix is valid iff it ends where a character starts |
| `Truncation.CharactersAreScalars` | internal/graph/audit_entry.go:91-94 | Text begins with a character iff it begins with the encoding of some scalar value, which is read back from it: the validity used here is that of section 3 of RFC 3629 |
| `Truncation.LastStartEndsTheLongest` | internal/graph/audit_entry.go:91-96 | The cut is the end of the longest valid prefix within the limit |
| `Truncation.EllipsisKeepsValidity` | internal/graph/audit_entry.go:96 | The result is valid iff the kept part is, for any bytes |
| `ActionLabel.SelectedFieldNames` | internal/graph/audit_entry.go:39-66 | Strictly increasing; exactly the smallest min(8, n) of the n distinct names that are not introspection |
| `Strings.BelowMeans` | internal/graph/audit_entry.go:59 | The order of the sorted names: a proper prefix comes first, otherwise the first differing character decides |
| `ActionLabel.SmallestIsUnique` | internal/graph/audit_entry.go:36-38 | That determines the result |
| `ActionLabel.LabelDependsOnTheSet` | internal/graph/audit_entry.go:36-38 | Permuting a selection, repeating fields or adding introspection leaves the label as it is |
| `ActionLabel.ActionIsRecoverable` | internal/graph/audit_entry.go:22-34 | Denial, operation and fields can be read back from the comma-joined action, because GraphQL names (section 2.1.9) hold no comma |
| `ClientIp.Parse` | internal/clientip/clientip.go:15-33 | The readable, non-empty entries in order |
| `ClientIp.ListsAreParsedEntryByEntry` | internal/clientip/clientip.go:18-30 | A malformed entry costs that entry alone |
| `ClientIp.OneEntry` | internal/clientip/clientip.go:18-30 | An entry contributes its prefix iff it has one once the space around it is gone |
| `ClientIp.IsTrusted` | internal/clientip/clientip.go:66-76 | Whether some prefix contains the unmapped address |
| `ClientIp.Resolve` | internal/clientip/clientip.go:35-64 | Behind a trusted peer the rightmost parseable untrusted hop of all headers in order, otherwise the peer |
| `ClientIp.WalkBack` | internal/clientip/clientip.go:50-61 | The loop from the right stops at that hop |
| `ClientIp.PeersSpeakForThemselves` | internal/clientip/clientip.go:35-41 | Who is no trusted proxy gets the host of the remote address, or the whole of it when no port can be taken off, whatever the headers say; so does a proxy whose chain holds no foreign hop |
| `ClientIp.PrependingChangesNothing` | internal/clientip/clientip.go:43-61 | Headers or text put in front never change the answer once the rest holds such a hop |
| `ClientIp.TrustingMoreMovesLeft` | internal/clientip/clientip.go:50-61 | Enlarging the trusted set never moves the chosen hop to the right |
| `ClientIp.TheClientCannotChoose` | internal/clientip/clientip.go:3-5 | When trusted proxies append what they saw, the answer is the client's address whatever the client wrote, if the appended addresses print without a comma and parse back |
| `Cron.Runner.Run` | internal/cronjobs/cronjobs.go:47-77 | A tick alone: skipped and logged if its id is marked; otherwise it runs and frees the id, by return, error or panic |
| `Cron.CheckingKeepsInv` | internal/cronjobs/cronjobs.go:50-58 | The check skips exactly when a run of that id is active, and keeps the invariant |
| `Cron.RunsNeverOverlap` | internal/cronjobs/cronjobs.go:47-77 | Over all interleavings at most one run per id is active, the map is exactly the active ids, and ended runs leave their id free |
| `Cron.SkippedIffOwnRunIsActive` | internal/cronjobs/cronjobs.go:50-55 | In every reachable state a tick is skipped iff its own id is active |
| `Cron.SlowJobsBlockNobody` | internal/cronjobs/cronjobs.go:57-60 | No job works with the mutex held: for a tick that is not over or working some statement of the runner is enabled, without any job ending |
| `Shutdown.ShutdownHasOneOrder` | cmd/server/main.go:96-153 | Unless the listener failed: readiness false, the delay, Shutdown begins and returns, drained, cron stops, and only then the connections close |
| `Shutdown.ClosingCutsNothingShort` | cmd/server/main.go:47-62 | A request in flight at close means the listener failed or Shutdown used up delay and timeout; a cron run never is |
| `Shutdown.BothExceptionsHappen` | cmd/server/main.go:109-118 | Both exceptions are reachable for every configuration |
| `Shutdown.TheExitIsNeverStuck` | cmd/server/main.go:98-118 | After the signal only time and running cron jobs can hold the exit up |

## Left out

- OIDC verification, the gate and JWKS: a request arrives with no token, an invalid one, a gate error or a verified claim.
- SQLite, goqite, gqlgen, net/http and robfig/cron: only what the code relies on is modelled, such as the immediate write lock, foreign keys, autoincrement, enqueue inside a transaction, and a Shutdown that returns without a timeout only when idle.
- The 20 second busy timeout, the audit flush's 5 seconds and context deadlines as times: a waiting task may give up, a call that waits from inside a transaction may fail, and an open transaction may be rolled back, at any moment. That such a wait ends at all is up to those timeouts.
- Queue visibility timeouts, retries and MaxReceive: a message is created and deleted; what a handler does in between is not part of the model.
- Integer widths: ids, times and counters are unbounded; no step of the modelled code comes near 64 bits.
- Error texts and the per-field errors of an ErrorPayload: each refusal is a constructor; of the validation rules the minimum id and the reason's length in bytes are kept.
- TrimSpace, ToLower, ParseAddr, ParsePrefix, Unmap, Contains and SplitHostPort: functions that are parameters.
- A closure that a refused or failed nested call would have run, and a closure's steps after its transaction was cancelled: neither can change the tables.
- Requests.Server.Serve runs a handler's acts one after another; that resolvers interleave is in AuditFlow, whose mutations are their steps on the connection and the entries they add.
- A fragment file without raw text: its source is empty in the code, and stands for the file's definitions here.
- slices.Sort: a specification of the library's result, not its algorithm.
- DBUpsertUserByOIDC overwrites the last sign-in unconditionally: it is a step of the command system and outside the monotonicity lemmas of SignIns.
- A handler that panics: net/http recovers it above the middleware and the flush, which is not deferred, does not happen; WithRequest is about handlers that return.
- Refetching a page the browser cache has dropped: a page is fetched once per cursor, and reset keeps the pages.
- The audit log's total count: a second query that may see a later log than the rows.
- Waiting for queue jobs at shutdown: the job runner's goroutine is not joined, so nothing is claimed about jobs at close.
- Writing generated code to a file: lone surrogates do not survive UTF-8 and are outside the round trip, which is about code units.
- The generated types, names and warnings of the code generator, the views, the metrics exporter and the notifier: rendering and plumbing without state of their own.
- requireIdentity, the health and readiness routes and the content policy: a handler that refuses is a handler that adds no entry.
- The clock inside one request: identity, audit rows and their flush see one reading of it, where the code reads it again for every row.
- dbtime formatting: times appear as the whole seconds the columns hold, and as nanoseconds where the code compares before truncating.
