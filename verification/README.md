# Synapse: causal time, coordination, pagination and server state

A Dafny 4.11 model of the parts of Synapse, a local multi-agent messaging and task service,
whose correctness spans many operations. Every file is one module; `dafny verify dfyconfig.toml`
checks them all.

**Causal time.** `Timestamps` holds the two update rules of the hybrid logical clock on pairs
`(l, c)`; `ClockText` the 20-character text form and its order isomorphism; `HybridClock` the
mutable clock. `CausalRuns` runs any number of nodes with arbitrary, even backward, physical
readings and messages in flight, and `CausalCrashes` lets them crash, losing what they had not
committed. `Envelopes` is the bridge's and the client's merge hooks.
`DurableLog` and `ServiceClock` run one server's write transactions over begin, stamp, commit,
rollback, crash and restart. `HlcMigration` is the backfill of the hlc column.

**Task coordination.** `TaskTables` states what each command does to the tables as a function,
`Coordinator` is the class over the mutable tables whose methods are proved to do just that, and
`Coordination`, `CoordinationBudgets` and `CoordinationJournals` are the theorems over every run of
commands. `CoordinationAccess` says who may do what, and `CoordinationEffects` what every granted
command does, in terms of the columns alone. `CoordinationLog` shows that a server of such commands is a run of `DurableLog`.
`DependencyGraph` is the bounded breadth-first search.

**Reading in pages.** `Base64Url` and `Cursor` are the signed cursors, `Pagination` the keyset
queries and the walks over them, `ChangingTables` the same walks when rows come and go between the
calls, `Listing` the ORDER BY they share with the migration.

**Server state.** `LineFraming` (requests over arbitrary chunks), `ServiceLock` (the lock file, over
all interleavings of servers and restores), `AuthCache` (the authentication cache under concurrent
calls), `Messages` (idempotent sends, first readings), `LoginLockout` (the web login, over all
interleavings of reading the clock, checking the lock and recording the answer).

JSON, HMAC, SHA-256, password verification, the table of Unicode digits and the physical clock are
function or value parameters. A theorem assumes of them only what its `requires` says: that JSON
loads what it dumps, that the digit table is right about ASCII, that times do not run backwards.

## Where the code and its documentation disagree

The model follows the code; the member named states the point:

- The command help (synapse/helpdoc.py:663) requires a result of completed and failed tasks. Those
  without one are exactly those finished by an approval, since asking for it clears the result, or
  by an `update_task_state` without one, where the parameter is optional
  (`Coordination.FinishedTaskHasAResultExactlyWhen`; `Coordination.CompletedWithoutAResult` is a run of
  four calls).
- `request_approval` accepts a `submitted` task, so approval can complete a task whose dependencies
  are unfinished, five calls from an empty database (`Coordination.GateIsSkippedFromScratch`);
  `Coordination.RunIsGatedExactlyWhen` is the exact condition.
- Repeating a `create_task` is answered with the existing task only while that task still has the
  assignee it was created with; after a transfer or an escalation it is refused
  (`Coordination.RetriedCreation`).
- The bridge's comment says that the event it creates is causally after the remote message. With a
  standalone bridge the task's row can be stamped before it (`Envelopes.StandaloneRowIsAfterExactlyWhen`).
- A cursor with a non-ASCII character before its first dot is an internal error and not
  `INVALID_ARGUMENT` (`Cursor.RefusalIsInvalidArgumentExactlyWhen`).
- The service lock does not exclude: it reads the PID and probes the process in two steps and unlinks
  by path, so one recovering process can already remove a live lock (`ServiceLock.OneRecovererClashes`);
  `ServiceLock.TheftIsTheOnlyDanger` is the exact condition.
- The clock's documentation says that without a persisted bound it starts at the physical clock; it
  starts at `(0, 0)` (`HybridClock.HLC.Create`).
- The clock's invariant I1, that happens-before implies a smaller timestamp, holds without crashes. What
  a process absorbed or stamped and did not commit is lost by a crash, and a row committed after the
  restart can precede its cause (`CausalCrashes.LostMessageBreaksTheOrder`);
  `CausalCrashes.CausalityHoldsExactlyWhen` is the exact condition.
- A clock whose rehydration read fails starts over at `(0, 0)`. The order of the log then survives if
  and only if the physical clock is past everything committed
  (`DurableLog.FailedReadKeepsTheOrderExactlyWhen`, with a failing run in
  `DurableLog.FailedReadBreaksTheOrder`).
- The page boundary is no frozen snapshot: created_at is read before the write lock is obtained
  (synapse/service.py:1664) or before COMMIT (synapse/service.py:1305), so a row within the boundary can
  appear after the first page. A walk returns it if and only if its key is still ahead
  (`ChangingTables.LateRowIsFoundExactlyWhenAhead`), and for tables that change in any way
  `ChangingTables.ReturnedExactlyWhenThereAsPassed` says exactly which rows a walk returns.
- The login lockout bounds the failures in a window only of logins that do not overlap
  (`LoginLockout.BoundedExactlyWithoutOverlap`). Two overlapping ones suffice to escape it, because a
  refusal that comes in under a lock lifts it (`LoginLockout.CutsExactlyWhen`). Even when nothing else
  is under way at a locking failure, a lock counted from an early start may be over too soon
  (`LoginLockout.UncoveredRoundIsTheOnlyDanger`, with an instance in
  `LoginLockout.SlowRefusalUncoversItsRound`), and an attempt that is held up between reading the
  clock and checking the lock may be let in after a later failure has taken the lock out of the table
  (`LoginLockout.HeldUpReadingEscapes`).

## Model

| member | source | states |
|---|---|---|
| Timestamps.LocalRuleIsLeast | synapse/hlc.py:118-129 | a local stamp is the least timestamp that is after the clock and not behind the physical reading |
| Timestamps.MergeRuleIsLeast | synapse/hlc.py:142-158 | a merge is the least timestamp after both the clock and the remote one; the defensive branch is never the one taken |
| ClockText.TextOrderIsCausalOrder | synapse/hlc.py:61-72 | byte order of two encoded timestamps is exactly the lexicographic order of the pairs, and the encoding is injective, over the whole range |
| ClockText.DecodeEncode | synapse/hlc.py:75-84 | every encodable timestamp decodes back to itself, for any digit table that is right about ASCII |
| ClockText.EncodeDecode | synapse/hlc.py:87-89 | every string the pattern accepts decodes into the encodable range, and re-encoding restores it if and only if it is ASCII |
| HybridClock.HLC.Create | synapse/hlc.py:104-116 | a new clock starts at (0, 0) or at the decoded persisted bound; a malformed bound is an error |
| HybridClock.HLC.Stamp | synapse/hlc.py:118-129 | the clock moves by the local rule even when the new value cannot be encoded, and the result is the encoding of the new value |
| HybridClock.HLC.Observe | synapse/hlc.py:131-159 | a valid remote text moves the clock by the merge rule, an invalid one is refused and leaves it alone |
| HybridClock.HLC.Peek | synapse/hlc.py:161-164 | the encoding of the current value, without moving the clock |
| CausalRuns.HappensBeforeIsOrdered | synapse/hlc.py:19-20 | I1 over every run without crashes of any nodes with arbitrary readings and message delays: happens-before implies a strictly smaller timestamp |
| CausalRuns.TextNeverContradictsCausality | synapse/hlc.py:61-72 | the same for the stored texts and their byte order, which never coincide |
| CausalRuns.PhysicalPartIsExact | synapse/hlc.py:118-159 | the physical part of a timestamp is exactly the largest reading a stamp has taken in its causal past, itself included |
| CausalRuns.DriftIsBoundedBySkew | synapse/hlc.py:21 | I2: with readings within a skew of a common time, a stamp is never behind its own reading nor more than twice the skew ahead of it |
| CausalRuns.LogicalPartIsExact | synapse/hlc.py:118-159 | the logical part is exactly one less than the longest causal chain of steps that share the physical part |
| CausalRuns.EncodingFailsExactlyWhen | synapse/hlc.py:61-72 | a stamp cannot be written if and only if a reading in its past needs more than 13 digits or a causal chain at its physical part has more than 1000000 links |
| CausalRuns.Drive | synapse/a2a_bridge.py:383-390 | one step on the acting node's clock object, messages being texts, leaves the clock the run says and gives the text of its stamp |
| CausalRuns.Replay | synapse/hlc.py:92-164 | one clock object per node, driven through any run, follows it until the first stamp that cannot be written |
| CausalCrashes.CausalityHoldsExactlyWhen | synapse/service.py:296-319 | I1 across crashes, exactly, over every run of nodes that commit, absorb, crash and restart and for any steps of interest (all, or the rows): every timestamp is after those of them in its causal past if and only if every restart recovers what its node knew: its database is not behind, or the first reading or message after it is past it |
| CausalCrashes.LossIsUncommitted | synapse/service.py:296-319 | a restart that loses a step, as the first to do so, has had no row of its node committed since the node learned of that step |
| CausalCrashes.LostMessageBreaksTheOrder | synapse/a2a_bridge.py:508-524 | a row, a message absorbed by another node, a crash and a row there: the two are in causal order if and only if the reading after the crash is past the first |
| CausalCrashes.BoundIsRehydrated | synapse/db.py:487-501 | the clock a restart starts from is the one rebuilt from MAX(hlc) over the node's rows |
| CausalCrashes.WithoutRestarts | synapse/hlc.py:92-164 | without restarts the timestamps are those of the crash-free runs |
| Envelopes.Bridge.TasksMessage | synapse/a2a_bridge.py:504-533 | receive, create, reply, whether bridge and service share a clock or not: a malformed hlc moves no clock, a well-formed message is absorbed whatever becomes of the creation, and the answer carries the clock's stamp. On one clock the created row is after the message and before the answer; on two it is after the message if and only if the service's clock had reached it or the row's reading is past it |
| Envelopes.SharedClockOrdersTheRow | synapse/a2a_bridge.py:346-352 | with a shared clock, for every granted message: the created row is stamped after the message and before the reply |
| Envelopes.StandaloneRowIsAfterExactlyWhen | synapse/a2a_bridge.py:366-381 | with a standalone bridge the row is after the message if and only if the service's clock had reached it or its reading is past it; the reply always is |
| Envelopes.StandaloneRowCanPrecedeItsCause | synapse/a2a_bridge.py:508-513 | a message ahead of a standalone deployment's service creates a row ordered before it |
| Envelopes.A2AClient.Delegate | synapse/a2a_client.py:109-170 | with an optional provider and an optional observer, of one clock or two: what each clock and the caller have after a stamp that cannot be written, a request that never arrives, a refusal, a lost reply and an answer |
| Envelopes.A2AClient.DelegateToPeer | synapse/a2a_client.py:161-182 | the same for any peer, whose answer may lack an hlc or have a malformed one: then nothing is absorbed, and an observer raises the malformed one |
| Envelopes.RoundTripIsOrdered | synapse/a2a_client.py:79-88 | along an answered round trip the provider's clock, the request, in a server the created row, the reply and every later stamp of the observer are strictly increasing |
| DurableLog.MaxTextIsLatest | synapse/db.py:470-484 | MAX over the text column is the causally latest timestamp, and only that |
| DurableLog.StartClockIsLatest | synapse/service.py:296-319 | the clock built from the persisted bound starts at the latest stored timestamp, or at (0, 0) for empty tables |
| DurableLog.CommittedRowsAreOrdered | synapse/service.py:279-294 | I4 over every run of transactions, rollbacks, crashes and restarts with clocks that may jump back: rows of two transactions compare by hlc strictly as the transactions do, across all three tables, and hlc never decreases with the key; purged rows included; a rehydration read may fail when the physical clock is past everything committed |
| DurableLog.ClockIsNeverBehindTheLog | synapse/hlc.py:22 | I3 across restarts: the clock the next transaction stamps from, live or rebuilt, is never behind anything ever committed |
| DurableLog.RehydrationReachesEverything | synapse/db.py:487-501 | a rebuilt clock is at or after every hlc ever committed, purged ones included, and is one of the stored values |
| DurableLog.PersistedBoundNeverDrops | synapse/db.py:470-484 | MAX(hlc) over the three tables never drops along a run, whatever is purged |
| DurableLog.FailedReadKeepsTheOrderExactlyWhen | synapse/service.py:311-319 | after a rehydration read that fails the next stamp is after everything ever committed if and only if its physical reading is past all of it |
| DurableLog.FailedReadBreaksTheOrder | synapse/service.py:311-319 | a run from the empty database with a crash and a failed read: its two committed rows are in order if and only if the second reading is past the first |
| DurableLog.PurgeKeepsTheBoundExactlyWhen | synapse/store/events.py:56-63 | purging events keeps the rehydration bound if and only if some row that is left, in any table, holds it |
| ServiceClock.SelectMaxHlc | synapse/db.py:470-484 | the scan over the rows returns the text of the latest hlc, or None |
| ServiceClock.WritesAreExact | synapse/db.py:668-692 | what the statements of a transaction leave: a row is there if and only if it was, or a statement inserts it, and no later statement deletes it; each insert takes the next key of its table |
| ServiceClock.Service.Stamp | synapse/service.py:279-294 | the clock is built once, on first use, from the persisted bound, and stamps from there |
| ServiceClock.Service.BeginTransaction | synapse/db.py:668-692 | begin and first stamp: a stamp that cannot be encoded opens nothing and leaves the clock moved |
| ServiceClock.Service.WriteTransaction | synapse/db.py:668-692 | one transaction is exactly the begin, write and commit or rollback steps of the durable log; when it raises, the database is as it was, deletions included; when it commits, it holds the rows that no statement deletes, old ones and the inserted ones, under the next keys and with the one stamp |
| ServiceClock.Service.Crash | synapse/service.py:296-319 | a crash loses the clock and nothing that was committed |
| HlcMigration.LevelClosedForm | synapse/db.py:425-452 | the physical part given to row i is max(i + 1, max over j <= i of at_j + i - j) |
| HlcMigration.LevelsAreLeastAdmissible | synapse/db.py:425-452 | the backfill is the pointwise least strictly increasing sequence that is at least 1 and never before its row's time |
| HlcMigration.MigrationIsIdempotent | synapse/db.py:407-467 | the migrated table is determined by the table, keeps every time, has no NULL, and a second run changes nothing |
| HlcMigration.BackfillFollowsTime | synapse/db.py:429-433 | of two rows that had no hlc, the text of the first is byte-before that of the second if and only if its time is earlier, or the times are equal and its key is smaller |
| HlcMigration.MigratedIsBackfilled | synapse/db.py:425-452 | by key: rows with an hlc are as before; of the others each keeps its time and gets, with counter 0, the physical part max(n, max over the rows up to it of at + the number of rows between), n being the number of rows up to it in (at, key) order; and their texts follow (at, key) |
| HlcMigration.OverflowsExactlyWhenTooLate | synapse/db.py:434-447 | the backfill fails if and only if that physical part of some row has more than 13 digits |
| HlcMigration.Fill | synapse/db.py:425-452 | the loop fills the worklist with counters that are always 0, leaves other rows alone, and fails if and only if a physical part overflows 13 digits |
| HlcMigration.MigrateTable | synapse/db.py:425-452 | selecting the NULL rows in (at, key) order and filling them backfills the table, and fails exactly when a physical part is too large |
| HlcMigration.Migrate | synapse/db.py:407-467 | either every table is backfilled, row by row as its times and keys say, or some table has a row whose physical part is too large, and none is touched |
| DependencyGraph.WithinIsByChains | synapse/service.py:1623-1648 | what the search has seen after k rounds is exactly the ends of dependency chains of at most k hops |
| DependencyGraph.LevelIsByChains | synapse/service.py:1623-1648 | what round k of the search finds is exactly the tasks to which a chain of k hops leads, and no shorter one |
| DependencyGraph.CutOffExactlyWhen | synapse/service.py:1634-1648 | the search is cut off if and only if some task is as many hops away as the limit |
| DependencyGraph.DepthBoundsHops | synapse/service.py:1623-1648 | a search that is not cut off has seen every transitive dependency within one hop less than the limit |
| DependencyGraph.SelectDependencies | synapse/service.py:1634-1645 | the query over a frontier returns its direct dependencies, and no others |
| DependencyGraph.DependencyDepth | synapse/service.py:1623-1648 | the loop returns the number of non-empty levels, cut off at the limit plus one; it exceeds the limit if and only if some task is that many hops away |
| Coordination.StepEvolves | synapse/service.py:1663-1903 | a command adds at most one task and only edges out of it, keeps the identity of the others, and moves states only along the state machine |
| Coordination.TerminalIsAbsorbing | synapse/store/tasks.py:42-45 | no command changes the state of a completed, failed or canceled task |
| Coordination.RunHasUniqueClientIds | synapse/db.py:106-135 | in every run a creator has at most one task per client task id |
| Coordination.RetriedCreation | synapse/service.py:1667-1680 | a repeated creation, at any later time, never makes a second task; it is answered with the first one if and only if that still has the requested assignee |
| Coordination.DependenciesAreAcyclic | synapse/service.py:1685-1705 | no reachable state has a dependency cycle; along every chain creation order descends |
| Coordination.DependenciesAreShallow | synapse/service.py:1685-1705 | in every reachable state a task reaches each of its transitive dependencies in at most 8 hops |
| Coordination.StepStaysGatedExactlyWhen | synapse/service.py:1825-1853 | a command keeps started tasks behind completed dependencies if and only if it is not an approval request for a task with an unfinished dependency |
| Coordination.RunIsGatedExactlyWhen | synapse/service.py:1771-1777 | over whole runs: every state is gated if and only if no unguarded approval request was granted |
| Coordination.ApprovalFromInProgressIsGuarded | synapse/service.py:1831-1839 | in a gated state an approval request for a task in progress is always guarded |
| Coordination.CompletedIsClosed | synapse/store/tasks.py:150-158 | in a gated state every transitive dependency of a started task is completed |
| Coordination.ApprovalSkipsTheGate | synapse/service.py:1831-1839 | a submitted task with an unfinished dependency can be completed by approval, in any state |
| Coordination.GateIsSkippedFromScratch | synapse/service.py:1831-1839 | a run of five calls from the empty tables that does so, and leaves the task without a result |
| Coordination.RunResultsAreFinal | synapse/service.py:1778-1779 | in every run only completed and failed tasks have a result |
| Coordination.FinishedTasksWereFinished | synapse/store/tasks.py:42-45 | in every run each finished task was finished by one of the calls |
| Coordination.FinishedTaskHasAResultExactlyWhen | synapse/service.py:1778-1779 | in every run a completed or failed task has result r if and only if the call that finished it was an update of its state carrying r; it has none if and only if that was an approval or an update without one |
| Coordination.CompletedWithoutAResult | synapse/service.py:1778-1779 | a run of four calls from the empty tables in which an update completes a task without a result |
| CoordinationBudgets.EscalationKeepsBudget | synapse/service.py:1586-1617 | the escalation loop keeps every user within budget, for any rows and however the target's count grows while it iterates |
| CoordinationBudgets.StepKeepsBudget | synapse/service.py:1541-1550 | a user within the active-task budget stays within it through every command that does not lower it, escalations included |
| CoordinationBudgets.BudgetHoldsFromThenOn | synapse/service.py:1541-1550 | over whole runs: once within the budget, within it for as long as it is not lowered |
| CoordinationBudgets.EscalationFillsTheBudget | synapse/service.py:1593-1617 | the escalation loop exactly: the first rows move, as many as the target's budget still takes; the rest and all other tasks stay; the target's count grows by the number moved |
| CoordinationBudgets.DueTasksAreEscalatable | synapse/store/tasks.py:299-320 | the due tasks, in any row order, are different unfinished tasks of other assignees, as that theorem asks |
| CoordinationJournals.RecordReachesBothParties | synapse/store/events.py:66-91 | a recorded command leaves, after what the retention computed for each event keeps, one event row for the creator and one for the assignee, in either order, or one if they are the same |
| CoordinationJournals.PredecessorsAreDistinct | synapse/store/events.py:41-53 | in every run, whatever retention deletes: of two events of one principal the later links no further back than to the earlier, so no two share a predecessor |
| CoordinationJournals.StepWritesWithItsStamp | synapse/service.py:1606-1617 | every row a command journals, in any table, carries its transaction's one stamp, and journaling anything includes an audit row |
| CoordinationJournals.AuditLogHoldsEveryHlc | synapse/store/audit.py:15-40 | in every run the audit log holds every hlc of events and task_events, and loses none |
| CoordinationJournals.RetentionNeverLowersTheBound | synapse/store/events.py:56-63 | the latest hlc of the three tables is that of the audit log, and never drops along a run, whatever retention deletes |
| CoordinationLog.TablesAreALog | synapse/service.py:279-294 | whatever commands a server is given, granted or refused, with whatever envelopes, crashes and retention, its tables and its clock are those of a run of the durable log that meets its premise |
| CoordinationLog.HlcFollowsTheKeys | synapse/hlc.py:23-24 | I4 on the tables themselves: along events, task_events and audit_log hlc never decreases with the key |
| CoordinationLog.LaterRowsAreLater | synapse/hlc.py:22-24 | I3 and I4 across the three tables and across crashes: a row added later has an hlc strictly after any that a table held before, deleted since or not |
| CoordinationAccess.GrantedExactlyWhen | synapse/service.py:1663-1903 | every command is granted exactly when the columns of the tables say so: who calls, the state machine, the dependencies, the accounts, the policies of the two organizations, the budget, the depth |
| CoordinationAccess.NotFoundExactlyWhen | synapse/service.py:1510-1530 | a command on a task is answered TASK_NOT_FOUND if and only if the caller is not entitled to it, as its creator or assignee, for state updates the delegatee of an unexpired delegation, for decisions the approver it names; whether the task exists or not |
| CoordinationAccess.RefusedAssignmentSaysWhy | synapse/service.py:1533-1550 | a refused creation or transfer names a condition that does fail |
| CoordinationAccess.RefusedChangeSaysWhy | synapse/service.py:1769-1777 | so does a refused change of state, request or decision |
| CoordinationAccess.PendingWasAsked | synapse/service.py:1825-1853 | in every run a task that waits for an approval has been waiting, for the same approver, since a request by a party to it that named somebody else with an active account |
| CoordinationAccess.MovesAreAuthorized | synapse/service.py:1510-1530 | in every run whoever moves a task from one state to another is its creator, its assignee then, the delegatee of an unexpired delegation updating its state, or, to approve or reject, the approver whom the request it has been waiting on named, who is not the one who asked |
| CoordinationEffects.EscalationMovesTheLate | synapse/service.py:1586-1617 | of the tasks of an organization with an enabled policy and an active target, only those move to the target that are submitted or in progress and overdue by more than the delay, or in progress without an update for longer than the other delay; as many of them as the target's budget takes; nothing but their assignee and update time changes |
| CoordinationEffects.RoomForAllMovesAll | synapse/service.py:1600-1608 | if the target has room for all of them, all late tasks move |
| CoordinationEffects.StepDoesExactly | synapse/service.py:1663-1903 | every command, on every table but the journals: refused, nothing; granted, the one row it writes, column by column, the edges of a new task, the limits as given or stored, and the late tasks that escalation moves |
| CoordinationEffects.StepSays | synapse/service.py:1780-1791 | the journals gain, for every granted command, one row that says who did what to which task, and one for each task that escalation has moved, each once |
| Coordinator.TaskService.AppendEvent | synapse/store/events.py:27-53 | retention first, then the new row, linked to the last event its principal has left |
| Coordinator.TaskService.AppendForTask | synapse/store/events.py:66-91 | one event for the creator and one for the assignee, in whichever order the set yields them and each with a retention cutoff of its own, or one if they are the same |
| Coordinator.TaskService.Record | synapse/service.py:1780-1791 | the three journals of one command: one task event, the events of the parties, one audit row |
| Coordinator.TaskService.SelectDue | synapse/store/tasks.py:299-320 | the due rows, each once, and no others |
| Coordinator.TaskService.EscalateRow | synapse/service.py:1600-1617 | a due task moves to the target only while the target has room |
| Coordinator.TaskService.CheckEscalations | synapse/service.py:1565-1617 | the due tasks, read once, are escalated row by row against the target's changing count: exactly the late tasks move, as far as its budget goes |
| Coordinator.TaskService.CheckCreation | synapse/service.py:1681-1700 | of the reasons to refuse a creation, the one whose check comes first |
| Coordinator.TaskService.CreateTask | synapse/service.py:1663-1719 | a repeated client id is answered or refused before any other check; otherwise the first failing check decides and nothing changes; a granted creation inserts the task and its edges, journals it, and escalates the due tasks of the assignee's organization |
| Coordinator.TaskService.CheckStateChange | synapse/service.py:1769-1777 | of visibility or a delegation not expired by a reading of its own, the state machine and the dependencies, the first check that refuses a state change |
| Coordinator.TaskService.UpdateTaskState | synapse/service.py:1765-1792 | a visible or delegated task moves along an allowed transition, into progress only with completed dependencies, and keeps a result only when it ends; it is journaled and the caller's organization escalated; a refusal changes nothing |
| Coordinator.TaskService.TransferTask | synapse/service.py:1795-1822 | an unfinished visible task goes to an active account the policies allow and whose budget has room, is journaled, and the new organization escalated; a refusal changes nothing |
| Coordinator.TaskService.RequestApproval | synapse/service.py:1825-1853 | an unfinished visible task not yet pending goes to pending with another active account as approver and its result cleared; a refusal changes nothing |
| Coordinator.TaskService.ApproveTask | synapse/service.py:1856-1878 | only the named approver completes a pending task, whose stored result stays as it is; to others it does not exist |
| Coordinator.TaskService.RejectTask | synapse/service.py:1881-1903 | only the named approver returns a pending task to progress; to others it does not exist |
| Coordinator.TaskService.SetAgentBudget | synapse/service.py:2038-2081 | for an account of the organization: both limits absent delete the row, an absent one keeps the stored value; the answer is what is then stored; one audit row |
| Coordinator.TaskService.Dispatch | synapse/service.py:1565-1903 | any command on the object is one step of the specification, over the rows that are due once it is journaled; and it does to the tables exactly what their columns say, refused or granted, escalation included |
| Coordinator.TaskService.Replay | synapse/service.py:1663-2081 | a fresh object driven through any calls follows a run of the specification, so every theorem about runs holds of it: its dependencies are acyclic and shallow, its results final |
| Listing.ListingIsUnique | synapse/db.py:425-432 | ORDER BY over a total order has one result |
| Listing.OrderBy | synapse/store/accounts.py:102-106 | insertion sorting a set yields its one listing |
| Base64Url.TokenIsClean | synapse/cursor.py:26-27 | a token has no '=' and no '.', is ASCII, and the padding put back is the padding stripped, for every byte length |
| Base64Url.GroupsAreNumbers | synapse/cursor.py:26-27 | each three bytes, as a number to base 256, are four characters of the URL-safe alphabet of RFC 4648 (section 5) that stand for the same number to base 64, with padding where the data has ended |
| Base64Url.RoundTrip | synapse/cursor.py:26-35 | the lenient decoder restores every byte string from its unpadded token |
| Base64Url.DigitsDecodeExactlyWhen | synapse/cursor.py:30-35 | a token of digits of the URL-safe or the standard alphabet decodes if and only if its length is not one more than a multiple of four, and then to as many bytes as its bits fill |
| Base64Url.ValuesOfBothAlphabets | synapse/cursor.py:30-35 | a character stands for a digit if and only if it is of the URL-safe or of the standard alphabet, and then for the one RFC 4648 says |
| Base64Url.OthersAreSkipped | synapse/cursor.py:30-35 | the lenient decoder skips characters of neither alphabet, wherever they are |
| Cursor.CursorRoundTrip | synapse/cursor.py:38-71 | an issued cursor decodes to its payload, for every key and payload of the current version; other versions are refused |
| Cursor.ForeignKeyIsRefused | synapse/cursor.py:58-64 | under another key a cursor is accepted if and only if that key signs its body alike |
| Cursor.RefusalIsInvalidArgumentExactlyWhen | synapse/cursor.py:46-71 | decoding fails otherwise than with INVALID_ARGUMENT if and only if a non-ASCII character precedes the first dot |
| Pagination.ConditionsFollowTheOrder | synapse/store/tasks.py:281-288 | the keyset conditions spelled out over one, two and three columns are the sort order |
| Pagination.KeysAreLexicographic | synapse/store/tasks.py:281-288 | of two keys the first column in which they differ decides |
| Pagination.CursorServesItsRequestOnly | synapse/service.py:631-668 | an issued cursor resumes its own request where and at the boundary it says; under any other command, user, sort or filters it is an invalid argument |
| Pagination.CursorCarries | synapse/service.py:651-668 | a cursor carries its version, command, user, boundary, sort and filters, and a position of at least two columns |
| Pagination.SignedCursorsAreFaithful | synapse/service.py:631-668 | a cursor resumes at the key and the boundary it was issued for, whenever it is used |
| Pagination.ResumesAfter | synapse/service.py:1033-1041 | the query that resumes after a key of the snapshot selects exactly the rest of it, in order |
| Pagination.PageAt | synapse/service.py:764-796 | a page is the next `limit` rows of the snapshot, and its cursor that of the position after them if there is more |
| Pagination.WalkYieldsTheSnapshot | synapse/service.py:1029-1057 | following the cursor until null yields exactly the rows created up to the boundary, each once and in ascending or in descending order of key as the list sorts, in max(1, ceil(n / limit)) pages, whatever is inserted after the boundary meanwhile |
| Pagination.WalkEnds | synapse/service.py:2508-2540 | a client that keeps following the cursor reaches the null |
| Pagination.PageCountIsTheCeiling | synapse/service.py:631-668 | the number of pages is characterized as that ceiling |
| Pagination.ListByOrg | synapse/store/accounts.py:70-107 | the appended conditions select the organization's accounts by kind, boundary, status and position, in name order |
| Pagination.GetOrgAgents | synapse/service.py:764-796 | the handler returns the page of the generic list command over the organization's accounts |
| ChangingTables.CallsWalk | synapse/service.py:631-668 | whoever follows the cursors of a list command walks over its table, whatever happens to it between the calls, and a cursor always resumes |
| ChangingTables.WalkIsIncreasing | synapse/service.py:1029-1057 | whatever happens to the table, no row is returned twice and the order is kept |
| ChangingTables.PassedOnce | synapse/store/queries.py:120-130 | every key is passed by exactly one call of a walk |
| ChangingTables.ReturnedExactlyWhenThereAsPassed | synapse/store/queries.py:108-131 | whatever happens to the table, a walk returns a row if and only if the row is there, within the boundary, at the one call that passes its key |
| ChangingTables.LateRowIsFoundExactlyWhenAhead | synapse/service.py:1664 | of a table that only gains rows, with any created_at: a row that is first there at some call is returned if and only if it is within the boundary and its key is ahead of what had been returned; rows there at the first call always are |
| ChangingTables.ListedByStatusExactlyWhen | synapse/store/queries.py:111-116 | a message of the first snapshot is listed by its status then, unless it is read, not after the boundary, before the walk passes it: then it is listed unless the walk is over the unread |
| ChangingTables.WalksAreShort | synapse/service.py:631-668 | however the table changes, all pages but the last are full; if all rows ever within the boundary are among n, a client gets at most n / limit full pages and one more |
| ChangingTables.ChangingWalkEnds | synapse/service.py:2508-2540 | and then, however far a client has got, following the cursor reaches the null |
| ChangingTables.GainingWalkPages | synapse/service.py:631-668 | of a table that only gains rows the number of pages is max(1, ceil(n / limit)) for the n rows returned |
| LineFraming.ConnectionHandler.ReadLine | synapse/server.py:125-150 | the next line and what is left depend on the unread bytes only, not on how they are split between buffer and chunks; the buffer never exceeds the limit by more than one chunk |
| LineFraming.ConnectionHandler.Admit | synapse/server.py:72-90 | with a listener token, the connection goes on if and only if its first line is the token, and that line is consumed |
| LineFraming.ConnectionHandler.Serve | synapse/server.py:91-122 | the request loop's replies are a function of the unread bytes |
| LineFraming.ConnectionHandler.Handle | synapse/server.py:68-122 | the replies of a connection are a function of its bytes alone. With a token, the requests after a terminated opening line are answered, each once and in order, if that line is the token, and none otherwise; without a complete opening line within the limit nothing is |
| LineFraming.SessionServesFrames | synapse/server.py:68-122 | whatever the stream and however it ends: requests, tail and opening line are answered as that says, without a reference to how they are read |
| LineFraming.OpeningDecides | synapse/server.py:72-90 | a terminated first line within the limit that is the token lets the rest be served as without one; any other lets nothing be |
| LineFraming.NoOpeningNoReply | synapse/server.py:72-90 | without such a line nothing is answered, not even an unterminated tail that is the token |
| LineFraming.FramedRequestsAreAnswered | synapse/server.py:125-150 | newline-terminated requests within the limit are answered one by one, in order |
| LineFraming.StreamSplits | synapse/server.py:125-150 | every stream is such requests followed by a tail or by the first request over the limit |
| LineFraming.TailIsAnswered | synapse/server.py:135-149 | an unterminated tail is answered at the end of the stream, dropped at a timeout or fault, refused over the limit |
| LineFraming.LaterBytesOnlyAddReplies | synapse/server.py:135-150 | what was answered before a timeout is answered alike whatever would have followed |
| ServiceLock.QuietRunsExclude | synapse/server.py:383-408 | over every interleaving in which no process unlinks a live holder's file, at most one process holds the lock |
| ServiceLock.TheftIsTheOnlyDanger | synapse/server.py:391-398 | the condition is exact: a step makes a clash possible if and only if it unlinks a live holder's file |
| ServiceLock.TheftHitsALaterFile | synapse/server.py:295-313 | such a step is always an unlink of a file other than the one that was read |
| ServiceLock.UninterruptedRecoveryExcludes | synapse/backup.py:398-425 | if no lock file is created between another process's stale read and its unlink, at most one process holds the lock |
| ServiceLock.TwoRecoverersClash | synapse/server.py:391-398 | two servers that recover one stale lock both come to hold it |
| ServiceLock.OneRecovererClashes | synapse/server.py:301-313 | a single recoverer suffices, because the PID is read before the process is probed |
| ServiceLock.UndisturbedAcquisition | synapse/server.py:387-408 | undisturbed, a server or a restore gets the lock if and only if there is no file or a stale one |
| ServiceLock.UnmarkedLockIsForever | synapse/server.py:305-310 | a file left by a dead restore, or by a server that died before writing its PID, is never removed and nobody gets the lock again |
| ServiceLock.LockPath.IsStale | synapse/server.py:295-313 | stale means the PID of a dead process; no file, no PID and a live PID do not |
| ServiceLock.Participant.AcquireAsServer | synapse/server.py:383-408 | undisturbed, the two-attempt loop acquires exactly when the lock is free or stale, and leaves its own PID or the old file |
| ServiceLock.Participant.AcquireForRestore | synapse/backup.py:398-425 | the same for a restore and its mark |
| ServiceLock.Participant.ReleaseLock | synapse/server.py:410-416 | only a process that acquired the lock removes the file |
| AuthCache.Service.Lookup | synapse/service.py:490-500 | a hit needs the current hash, the same digest and an unexpired entry |
| AuthCache.Service.Prune | synapse/service.py:515-520 | pruning removes exactly the expired entries |
| AuthCache.Service.Remember | synapse/service.py:505-512 | a success is remembered until the time to live after the call began; a full cache is pruned first |
| AuthCache.Service.CachedPasswordOk | synapse/service.py:478-513 | a call nobody interleaves with: answer and cache afterwards; failures are never cached |
| AuthCache.FullCacheHoldsLiveEntries | synapse/service.py:505-507 | the cache exceeds its limit only with unexpired entries |
| AuthCache.CachedAnswersAreRecent | synapse/service.py:478-513 | over every interleaving a cached answer rests on a verification of the same principal and hash that succeeded less than the time to live ago |
| AuthCache.CachedExactlyWhen | synapse/service.py:490-512 | over every interleaving a call is answered from the cache if and only if the last password verified for the principal has the same digest, was verified against the same hash, and that less than the time to live ago; neither other principals nor a full cache matter |
| AuthCache.CacheAgreesExactlyWhen | synapse/service.py:478-513 | over every interleaving of threads, rotations, expiries and prunes, answers are those of plain verification if and only if no digest mixes accepted and refused passwords |
| Messages.Messenger.Find | synapse/store/messages.py:109-117 | the one message of a sender and client id, or None |
| Messages.Messenger.SendMessage | synapse/service.py:1256-1339 | an existing client id is answered or refused before budget and policies are looked at; a granted send adds one message in the pair's conversation and clears both reply marks; a refusal changes nothing |
| Messages.Messenger.ReadMessage | synapse/service.py:1413-1435 | only the recipient's first reading writes |
| Messages.AtMostOncePerClientId | synapse/db.py:45-56 | in every run there is at most one message per sender and client id |
| Messages.SendIsExactlyOnce | synapse/service.py:1266-1277 | once a send has succeeded, every later send with its client id, whatever has happened and whatever budgets, policies or accounts have become, returns the same message and changes nothing if it repeats the request, and fails if not |
| Messages.FirstReadingWins | synapse/store/messages.py:127-136 | the reading time is set by the first reading and never changes; nor does anything else of a message |
| Messages.KeyIsThePair | synapse/store/messages.py:36-39 | a conversation key stands for one unordered pair of names |
| Messages.ConversationIsThePair | synapse/store/messages.py:56-79 | in every run two messages share a conversation if and only if they are between the same two parties |
| Messages.ClosedOrganizationLearnsNothing | synapse/service.py:1279-1301 | to a member of an organization closed to the outside, the answer to a new message does not depend on whether an outside recipient exists, is active or would accept it |
| Messages.MessagesAreTheDeliveries | synapse/service.py:1256-1339 | in every run a message is there if and only if some send delivered it, that is, one with a new client id that budget, recipient, policies and drawn identifiers allow; that send is the only one, and the message is what it requested |
| Messages.RefusedSendSaysWhy | synapse/service.py:1256-1301 | a refused send names a condition that does fail |
| Messages.OnlyPartiesRead | synapse/service.py:1413-1435 | a message is shown to its sender and its recipient, and for anyone else there is none |
| Messages.ReadExactlyWhen | synapse/store/messages.py:127-136 | in every run a message is unread until its recipient reads it, and then has been read at the time of the first such reading |
| Messages.StepMarks | synapse/service.py:1302-1339 | a delivery clears the reply marks of its two parties in their conversation, a mark is set for the one who sets it, and no other mark is touched |
| LoginLockout.WebUI.Login | synapse/web.py:599-646 | without a secret nobody is asked; a locked organization is refused unasked; a refusal counts or, at the maximum, locks and restarts the count; a success forgets the failures and stores a session after making room; any other error changes nothing |
| LoginLockout.WebUI.RecordFailure | synapse/web.py:624-633 | the critical section after a refusal |
| LoginLockout.WebUI.RecordLogin | synapse/web.py:634-645 | the critical section after a success |
| LoginLockout.WebUI.PruneSessions | synapse/web.py:690-696 | exactly the sessions idle for longer than the time to live go |
| LoginLockout.WebUI.DropOldest | synapse/web.py:637-640 | the organization's oldest sessions go until one more fits |
| LoginLockout.LiveExactlyWhen | synapse/web.py:690-696 | a session survives pruning if and only if it has not been idle for longer than the time to live, and the order is kept |
| LoginLockout.PutReplaces | synapse/web.py:641-645 | a stored session replaces the one under its token, and no other |
| LoginLockout.NewestAreKept | synapse/web.py:637-640 | of the organization's sessions the newest survive, in order, and of the others all |
| LoginLockout.SessionsAreBounded | synapse/web.py:637-645 | after a login the organization holds at most the configured number of sessions |
| LoginLockout.RoomIsMadeExactly | synapse/web.py:637-645 | a login with a new token leaves the organization one live session more than before, or the maximum: no more of the oldest go than it takes |
| LoginLockout.LockedExactlyWhen | synapse/web.py:616-619 | under every interleaving an attempt that began at a given time is refused unasked if and only if the failures recorded since the last login complete a round and the last of them began less than the lockout before that time |
| LoginLockout.CutsExactlyWhen | synapse/web.py:624-635 | under every interleaving a section lifts or shortens a lock in force if and only if it records the answer of a thread already asking when the lock was set, and that answer is a login or a refusal that does not itself lock for as long |
| LoginLockout.WindowIsBounded | synapse/web.py:615-635 | a half-open window of the lockout's length without a login has at most the configured number of failed attempts, in every interleaving in which an organization is only locked while nothing else is under way for it, by an attempt that covers its round, and whoever is let in read the clock after the locks set before |
| LoginLockout.UncoveredRoundIsTheOnlyDanger | synapse/web.py:624-633 | the covering is exact: when nothing else is under way at the lock, later logins can overfill a window, even one after another, if and only if the round is not covered |
| LoginLockout.SlowRefusalUncoversItsRound | synapse/web.py:624-633 | two attempts of which the first is refused last: nothing else is under way at the lock, and more failures than allowed still fit into one window |
| LoginLockout.HeldUpReadingEscapes | synapse/web.py:614-618 | with three attempts allowed or more and every lock clean, an attempt held up between reading the clock under a lock and checking it is one failure too many |
| LoginLockout.OneTryIsALogin | synapse/web.py:599-646 | a reading, a check and a record that nothing overlaps are one login |
| LoginLockout.SequentialLoginsAreBounded | synapse/web.py:615-635 | logins one after another, for any organizations, meet the bound |
| LoginLockout.BoundedExactlyWithoutOverlap | synapse/web.py:615-635 | the bound holds in all runs with at most n attempts under way for an organization, counted from the reading of the clock, if and only if n is at most one |
| LoginLockout.TwoOverlappingSuffice | synapse/web.py:624-633 | with two attempts allowed or more, two overlapping logins at a time suffice for any number of failures at one instant |
| LoginLockout.OverlappingAttemptsEscape | synapse/web.py:616-633 | whatever the settings, any number of attempts that all overlap can fail at one instant |

## Left out

- Base64Url.DigitsDecodeExactlyWhen: what a padding character inside a token does is Python's, and in the model as it is there, but no theorem is about such tokens.
- LoginLockout.WindowIsBounded: the clock, which is a monotonic one, does not run backwards.
- CausalCrashes.CausalityHoldsExactlyWhen: every node has a database of its own and its rehydration reads succeed; a standalone bridge, which rehydrates from the service's database, is not such a node.
- AuthCache.MixedDigestIsFatal: asks for a positive time to live, because a cache that never hits agrees whatever its digest.
- ServiceLock.UninterruptedRecoveryExcludes: PIDs are taken not to be reused, and a process takes part in the protocol once.
- CausalRuns.DriftIsBoundedBySkew: the common time is one that never runs backwards along the run; readings themselves may.
- Pagination.WalkYieldsTheSnapshot: covers tables that only gain rows stamped after the boundary during a walk; what a walk yields under other changes is stated in ChangingTables.
- Messages.Messenger.SendMessage: the sender is authenticated and known, as the dispatcher guarantees; `mark_conversation_no_reply` appears only as a step that sets a mark.
- Messages.Messenger.ReadMessage: the check before the write transaction and the one inside it are one step.
- Coordinator.TaskService.Dispatch: account, policy and delegation commands appear only as a change of the settings.
- The rounding of floating-point times: they are integer ticks or reals.
- Notes, error texts and the columns of task, event and audit rows that no command reads back.
- SQLite, its WAL and its locks: a transaction is one atomic step, and a unique index is the check it makes.
- The cryptography behind passwords, cursors and backups, and JSON: parameters.
- Validation of single fields (which also removes repeated dependencies), Unicode normalization.
- The agent registry, agent cards, groups, reputation and delegation commands, which add no state the theorems depend on.
- Sockets, HTTP, process control, logging, the command line and the web interface beyond its login.
- `destroy_session_for`, `get_session` and the snapshot cache of the web interface.
