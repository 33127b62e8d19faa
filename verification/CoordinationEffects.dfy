/** What every granted command does to the tables, escalation included, in terms of their
    columns: the row it writes, and exactly which late tasks change hands. */
module CoordinationEffects {
  import opened Wrappers
  import opened Listing
  import opened DependencyGraph
  import opened TaskTables
  import opened Coordination
  import opened CoordinationBudgets
  import opened CoordinationAccess
  import opened CoordinationJournals

  type TaskRows = map<TaskId, Task>

  // ----- escalation

  /** The organization has an enabled policy whose target has an active account. */
  predicate CanEscalate(settings: Settings, org: string) {
    && org in settings.escalation && settings.escalation[org].enabled
    && var target := settings.escalation[org].target;
       target in settings.accounts && settings.accounts[target].active
  }

  /** The organization's unfinished tasks that are past their due time by more than the policy's
      delay, or in progress without an update for longer than its other delay; the target's own
      and those that wait for an approval stay out. */
  function LateTasks(settings: Settings, rows: TaskRows, org: string, c: Context): set<TaskId>
    requires CanEscalate(settings, org)
  {
    var policy := settings.escalation[org];
    set id | id in rows && (rows[id].state == Submitted || rows[id].state == InProgress)
             && rows[id].assignee != policy.target
             && rows[id].assignee in settings.accounts && settings.accounts[rows[id].assignee].org == org
             && ((rows[id].dueAt.Some? && c.dueNow - rows[id].dueAt.value > 1000 * policy.dueAfter)
                 || (rows[id].state == InProgress && c.failedNow - rows[id].updatedAt > 1000 * policy.failedAfter))
  }

  function Unfinished(rows: TaskRows, u: User): set<TaskId> {
    set id | id in rows && rows[id].assignee == u && rows[id].state in {Submitted, InProgress, PendingApproval}
  }

  function Reassigned(left: TaskRows, after: TaskRows): set<TaskId> {
    set id | id in left && id in after && after[id].assignee != left[id].assignee
  }

  /** Late tasks go to the target, as many as its budget takes, and nothing else changes. */
  ghost predicate MovesTheLate(settings: Settings, budgets: map<User, Budget>, left: TaskRows, after: TaskRows, org: string,
                               c: Context)
    requires CanEscalate(settings, org)
  {
    var late, target := LateTasks(settings, left, org, c), settings.escalation[org].target;
    && after.Keys == left.Keys
    && (forall id :: id in left ==>
          after[id] == if id in Reassigned(left, after) then left[id].(assignee := target, updatedAt := c.at) else left[id])
    && Reassigned(left, after) <= late
    && |Reassigned(left, after)| ==
       if target !in budgets || budgets[target].tasks == None then |late|
       else
         var space := budgets[target].tasks.value - |Unfinished(left, target)|;
         if |late| <= space then |late| else if space > 0 then space else 0
  }

  lemma ActiveAreUnfinished(t: Tables, u: User)
    ensures ActiveTasks(t, u) == Unfinished(t.tasks, u)
  {
  }

  lemma {:induction false} DueAreLate(t: Tables, org: string, c: Context)
    ensures ActivePolicy(t, org) == if CanEscalate(t.settings, org) then Some(t.settings.escalation[org]) else None
    ensures CanEscalate(t.settings, org) ==> DueTasks(t, org, c) == LateTasks(t.settings, t.tasks, org, c)
  {
  }

  /** A row the loop is given keeps its columns but for the assignee and the update time. */
  predicate RowGoesTo(row: Task, row': Task, target: User, at: int) {
    row' == row || row' == row.(assignee := target, updatedAt := at)
  }

  lemma {:induction false} EscalatedRows(t: Tables, rows: seq<TaskId>, target: User, org: string, c: Context)
    ensures EscalateRows(t, rows, target, org, c).tasks.Keys == t.tasks.Keys
    ensures forall id :: id in t.tasks ==>
              RowGoesTo(t.tasks[id], EscalateRows(t, rows, target, org, c).tasks[id], target, c.at)
  {
    if rows != [] {
      EscalatedRows(t, rows[..|rows| - 1], target, org, c);
    }
  }

  lemma {:induction false} ReassignedAreCounted(left: TaskRows, after: TaskRows, target: User, at: int)
    requires after.Keys == left.Keys && forall id :: id in left ==> RowGoesTo(left[id], after[id], target, at)
    requires forall id :: id in Reassigned(left, after) ==> left[id].state in {Submitted, InProgress, PendingApproval}
    ensures |Unfinished(after, target)| == |Unfinished(left, target)| + |Reassigned(left, after)|
  {
    assert Unfinished(after, target) == Unfinished(left, target) + Reassigned(left, after);
    assert Unfinished(left, target) !! Reassigned(left, after);
  }

  lemma {:induction false} OnlyDueAreReassigned(t: Tables, org: string, rows: seq<TaskId>, c: Context)
    requires CanEscalate(t.settings, org) && IsRowOrder(rows, DueTasks(t, org, c))
    ensures var after, late := Escalate(t, org, rows, c).tasks, LateTasks(t.settings, t.tasks, org, c);
            && Reassigned(t.tasks, after) <= late
            && (forall id :: id in t.tasks && id !in Reassigned(t.tasks, after) ==> id in after && after[id] == t.tasks[id])
  {
    DueAreLate(t, org, c);
    DueTasksAreEscalatable(t, org, c, rows);
    var target := t.settings.escalation[org].target;
    EscalationFillsTheBudget(t, rows, target, org, c);
    EscalatedRows(t, rows, target, org, c);
  }

  lemma {:induction false} ReassignedFillTheBudget(t: Tables, org: string, rows: seq<TaskId>, c: Context)
    requires CanEscalate(t.settings, org) && IsRowOrder(rows, DueTasks(t, org, c))
    ensures var target := t.settings.escalation[org].target;
            |Reassigned(t.tasks, Escalate(t, org, rows, c).tasks)|
            == Fitting(t, target, |LateTasks(t.settings, t.tasks, org, c)|)
  {
    var target := t.settings.escalation[org].target;
    var t' := Escalate(t, org, rows, c);
    DueAreLate(t, org, c);
    DueTasksAreEscalatable(t, org, c, rows);
    EscalationFillsTheBudget(t, rows, target, org, c);
    EscalatedRows(t, rows, target, org, c);
    OnlyDueAreReassigned(t, org, rows, c);
    ReassignedAreCounted(t.tasks, t'.tasks, target, c.at);
    ActiveAreUnfinished(t, target);
    ActiveAreUnfinished(t', target);
  }

  lemma {:induction false} OnlyTheLateChange(t: Tables, org: string, rows: seq<TaskId>, c: Context)
    requires CanEscalate(t.settings, org) && IsRowOrder(rows, DueTasks(t, org, c))
    ensures var after, target := Escalate(t, org, rows, c).tasks, t.settings.escalation[org].target;
            && after.Keys == t.tasks.Keys
            && (forall id :: id in t.tasks ==>
                  after[id] == if id in Reassigned(t.tasks, after) then t.tasks[id].(assignee := target, updatedAt := c.at)
                               else t.tasks[id])
  {
    DueAreLate(t, org, c);
    EscalatedRows(t, rows, t.settings.escalation[org].target, org, c);
    OnlyDueAreReassigned(t, org, rows, c);
  }

  /** An escalation over the rows of the query moves the late tasks, as far as the budget of the
      target goes. */
  lemma {:induction false} EscalationMovesTheLate(t: Tables, org: string, rows: seq<TaskId>, c: Context)
    requires CanEscalate(t.settings, org) && IsRowOrder(rows, DueTasks(t, org, c))
    ensures MovesTheLate(t.settings, t.budgets, t.tasks, Escalate(t, org, rows, c).tasks, org, c)
  {
    var target := t.settings.escalation[org].target;
    OnlyDueAreReassigned(t, org, rows, c);
    OnlyTheLateChange(t, org, rows, c);
    ReassignedFillTheBudget(t, org, rows, c);
    ActiveAreUnfinished(t, target);
    assert Fitting(t, target, |LateTasks(t.settings, t.tasks, org, c)|) ==
           if target !in t.budgets || t.budgets[target].tasks == None then |LateTasks(t.settings, t.tasks, org, c)|
           else
             var space := t.budgets[target].tasks.value - |Unfinished(t.tasks, target)|;
             if |LateTasks(t.settings, t.tasks, org, c)| <= space then |LateTasks(t.settings, t.tasks, org, c)|
             else if space > 0 then space else 0;
  }

  /** If the target has room for all of them, all late tasks move. */
  lemma RoomForAllMovesAll(settings: Settings, budgets: map<User, Budget>, left: TaskRows, after: TaskRows, org: string,
                           c: Context)
    requires CanEscalate(settings, org) && MovesTheLate(settings, budgets, left, after, org, c)
    requires var target := settings.escalation[org].target;
             target in budgets && budgets[target].tasks.Some? ==>
               |Unfinished(left, target)| + |LateTasks(settings, left, org, c)| <= budgets[target].tasks.value
    ensures Reassigned(left, after) == LateTasks(settings, left, org, c)
  {
    var moved, late := Reassigned(left, after), LateTasks(settings, left, org, c);
    assert |late - moved| == |late| - |moved|;
  }

  // ----- the commands

  /** The row of a task as a granted command leaves it, before escalation. */
  function RowLeft(task: Task, c: Context, cmd: Command): Task
    requires IsOnTask(cmd)
  {
    match cmd
    case UpdateTaskState(_, state, result, _) =>
      task.(state := state, result := if state in {Completed, Failed} then result else None, updatedAt := c.at)
    case TransferTask(_, to, _) => task.(assignee := to, updatedAt := c.at)
    case RequestTaskApproval(_, approver) =>
      task.(state := PendingApproval, approver := Some(approver), result := None, updatedAt := c.at)
    case ApproveTask(_) => task.(state := Completed, updatedAt := c.at)
    case RejectTask(_) => task.(state := InProgress, result := None, updatedAt := c.at)
  }

  /** The rows of the tasks as a granted command leaves them, before escalation. */
  ghost function RowsLeft(t: Tables, c: Context, cmd: Command): TaskRows
    requires IsGranted(t, c, cmd)
  {
    if IsOnTask(cmd) then t.tasks[cmd.id := RowLeft(t.tasks[cmd.id], c, cmd)]
    else if cmd.CreateTask? && !Repeats(t, c, cmd)
    then t.tasks[cmd.newId := Task(t.nextRow, cmd.p.clientId, cmd.p.title, c.me, cmd.p.assignee, Submitted, cmd.p.dueAt,
                                   None, None, c.at)]
    else t.tasks
  }

  lemma {:induction false} CoreLeavesTheRows(t: Tables, c: Context, cmd: Command)
    requires Apply(t, c, cmd).Ok? && IsGranted(t, c, cmd)
    ensures Core(t, c, cmd).tasks == RowsLeft(t, c, cmd)
  {
    if cmd.CreateTask? {
      RepeatsExactlyWhen(t, c, cmd);
    }
  }

  /** The limits after u's have been set: of everybody else as before; u's gone if none is given,
      and else those given, and those stored where none is given. */
  predicate SetsLimits(before: map<User, Budget>, after: map<User, Budget>, u: User, given: Budget) {
    && before.Keys - {u} == after.Keys - {u} && (forall v :: v in after && v in before && v != u ==> after[v] == before[v])
    && if given.tasks == None && given.messages == None then u !in after
       else && u in after
            && after[u].tasks == (if given.tasks.Some? || u !in before then given.tasks else before[u].tasks)
            && after[u].messages == (if given.messages.Some? || u !in before then given.messages else before[u].messages)
  }

  /** The tasks table after a granted command: escalation follows in the organization of the new
      assignee, or of the caller who updated a state. */
  ghost predicate ChangesTasks(t: Tables, c: Context, cmd: Command, after: TaskRows)
    requires IsGranted(t, c, cmd)
  {
    if !Escalates(cmd) || Repeats(t, c, cmd) then after == RowsLeft(t, c, cmd)
    else
      var whose := match cmd
                   case CreateTask(p, _, _) => p.assignee
                   case TransferTask(_, to, _) => to
                   case _ => c.me;
      var org := if whose in t.settings.accounts then t.settings.accounts[whose].org else "";
      if CanEscalate(t.settings, org) then MovesTheLate(t.settings, t.budgets, RowsLeft(t, c, cmd), after, org, c)
      else after == RowsLeft(t, c, cmd)
  }

  /** What a command does to every table but the journals. */
  ghost predicate DoesExactly(t: Tables, c: Context, cmd: Command, t': Tables) {
    if !IsGranted(t, c, cmd) then t' == t
    else
      var creates := cmd.CreateTask? && !Repeats(t, c, cmd);
      && ChangesTasks(t, c, cmd, t'.tasks)
      && t'.settings == (if cmd.ChangeSettings? then cmd.settings else t.settings)
      && t'.deps == t.deps + (if creates then set d | d in cmd.p.dependsOn :: (cmd.newId, d) else {})
      && t'.nextRow == t.nextRow + (if creates then 1 else 0)
      && if cmd.SetAgentBudget? then SetsLimits(t.budgets, t'.budgets, cmd.u, cmd.given) else t'.budgets == t.budgets
  }

  lemma {:induction false} CoreDoesTheRest(t: Tables, c: Context, cmd: Command)
    requires Apply(t, c, cmd).Ok? && IsGranted(t, c, cmd)
    ensures var core, creates := Core(t, c, cmd), cmd.CreateTask? && !Repeats(t, c, cmd);
            && core.settings == (if cmd.ChangeSettings? then cmd.settings else t.settings)
            && core.deps == t.deps + (if creates then set d | d in cmd.p.dependsOn :: (cmd.newId, d) else {})
            && core.nextRow == t.nextRow + (if creates then 1 else 0)
            && if cmd.SetAgentBudget? then SetsLimits(t.budgets, core.budgets, cmd.u, cmd.given)
               else core.budgets == t.budgets
  {
    if cmd.CreateTask? {
      RepeatsExactlyWhen(t, c, cmd);
    }
  }

  lemma {:induction false} TasksChange(t: Tables, c: Context, cmd: Command)
    requires Apply(t, c, cmd).Ok? && IsGranted(t, c, cmd) && (Escalates(cmd) ==> RowsAreDue(t, c, cmd))
    ensures ChangesTasks(t, c, cmd, Step(t, c, cmd).tasks)
  {
    CoreLeavesTheRows(t, c, cmd);
    CoreDoesTheRest(t, c, cmd);
    StepIsCoreThenEscalation(t, c, cmd);
    if Escalates(cmd) && !Repeats(t, c, cmd) {
      if cmd.CreateTask? {
        RepeatsExactlyWhen(t, c, cmd);
      }
      var m, org := Journaled(t, c, cmd), EscalatedOrg(t, c, cmd);
      DueAreLate(m, org, c);
      StepEscalates(t, c, cmd);
      if CanEscalate(t.settings, org) {
        EscalationMovesTheLate(m, org, cmd.rows, c);
      }
    }
  }

  lemma {:induction false} StepEscalates(t: Tables, c: Context, cmd: Command)
    requires Apply(t, c, cmd).Ok? && Escalates(cmd) && !(cmd.CreateTask? && SameAsExisting(t, c.me, cmd.p))
    ensures Step(t, c, cmd) == Escalate(Journaled(t, c, cmd), EscalatedOrg(t, c, cmd), cmd.rows, c)
  {
  }

  /** Every command does exactly this: refused, nothing; granted, the one row it writes, and the
      late tasks that go to the target of the policy. */
  lemma {:induction false} StepDoesExactly(t: Tables, c: Context, cmd: Command)
    requires Escalates(cmd) ==> RowsAreDue(t, c, cmd)
    ensures DoesExactly(t, c, cmd, Step(t, c, cmd))
  {
    GrantedExactlyWhen(t, c, cmd);
    if Apply(t, c, cmd).Ok? {
      TasksChange(t, c, cmd);
      CoreDoesTheRest(t, c, cmd);
      StepHasCoreShape(t, c, cmd);
    }
  }

  // ----- what the journals say of it

  /** The rows of a journal for the tasks that escalation has moved, in its order. */
  function Notes(moved: seq<TaskId>, target: User, c: Context): (s: seq<LogRow>) {
    seq(|moved|, i requires 0 <= i < |moved| => LogRow(target, "escalated", moved[i], c.at, c.hlc))
  }

  ghost predicate NoRepeats(moved: seq<TaskId>) {
    forall i, j :: 0 <= i < j < |moved| ==> moved[i] != moved[j]
  }

  lemma {:induction false} OneNoteMore(t: Tables, m: Tables, moved: seq<TaskId>, id: TaskId, target: User, org: string,
                                       c: Context)
    requires id in m.tasks && HasRoom(m, target)
    requires m.audit == t.audit + Notes(moved, target, c) && m.taskEvents == t.taskEvents + Notes(moved, target, c)
    ensures var m' := EscalateOne(m, id, target, org, c);
            && m'.tasks == m.tasks[id := m.tasks[id].(assignee := target, updatedAt := c.at)]
            && m'.audit == t.audit + Notes(moved + [id], target, c)
            && m'.taskEvents == t.taskEvents + Notes(moved + [id], target, c)
  {
    assert Notes(moved + [id], target, c) == Notes(moved, target, c) + [LogRow(target, "escalated", id, c.at, c.hlc)];
  }

  lemma {:induction false} EscalationNotes(t: Tables, rows: seq<TaskId>, target: User, org: string, c: Context)
    returns (moved: seq<TaskId>)
    requires Escalatable(t, rows, target)
    ensures var t' := EscalateRows(t, rows, target, org, c);
            && t'.tasks.Keys == t.tasks.Keys
            && t'.audit == t.audit + Notes(moved, target, c) && t'.taskEvents == t.taskEvents + Notes(moved, target, c)
            && (forall id :: id in t.tasks ==> (id in moved <==> t'.tasks[id].assignee != t.tasks[id].assignee))
    ensures NoRepeats(moved) && forall id :: id in moved ==> id in rows
  {
    if rows == [] {
      moved := [];
    } else {
      var front, id := rows[..|rows| - 1], rows[|rows| - 1];
      moved := EscalationNotes(t, front, target, org, c);
      var m := EscalateRows(t, front, target, org, c);
      assert id !in moved && id in m.tasks;
      if HasRoom(m, target) {
        OneNoteMore(t, m, moved, id, target, org, c);
        moved := moved + [id];
      }
    }
  }

  /** The row a granted command writes into the audit log: who did what to which task. A repeated
      creation is noted under the task there is. */
  ghost predicate IsOwnNote(t: Tables, c: Context, cmd: Command, note: LogRow) {
    && note.principal == c.me && note.at == c.at && note.hlc == c.hlc
    && match cmd
       case CreateTask(p, newId, _) =>
         if Repeats(t, c, cmd)
         then note.kind == "create_task" && IsUnder(t, note.ref, c.me, p.clientId)
              && t.tasks[note.ref].assignee == p.assignee && t.tasks[note.ref].title == p.title
         else note.kind == "created" && note.ref == newId
       case UpdateTaskState(id, _, _, _) => note.kind == "state_changed" && note.ref == id
       case TransferTask(id, _, _) => note.kind == "transferred" && note.ref == id
       case RequestTaskApproval(id, _) => note.kind == "approval_requested" && note.ref == id
       case ApproveTask(id) => note.kind == "approved" && note.ref == id
       case RejectTask(id) => note.kind == "rejected" && note.ref == id
       case SetAgentBudget(u, _) => note.kind == "set_agent_budget" && note.ref == u
       case ChangeSettings(_) => false
  }

  /** The journals after a granted command: its own row, in the audit log and, if it changes a
      task, among the task's events; and one row for each task that escalation has moved. */
  ghost predicate Says(t: Tables, c: Context, cmd: Command, t': Tables, notes: seq<LogRow>, moved: seq<TaskId>,
                       target: User)
    requires IsGranted(t, c, cmd)
  {
    && t'.audit == t.audit + notes + Notes(moved, target, c)
    && t'.taskEvents == t.taskEvents + (if cmd.SetAgentBudget? || Repeats(t, c, cmd) then [] else notes)
                        + Notes(moved, target, c)
    && (if cmd.ChangeSettings? then notes == [] else |notes| == 1 && IsOwnNote(t, c, cmd, notes[0]))
    && NoRepeats(moved) && (forall id :: id in moved <==> id in Reassigned(RowsLeft(t, c, cmd), t'.tasks))
    && (forall id :: id in moved ==> id in t'.tasks && t'.tasks[id].assignee == target)
  }

  lemma RecordNotes(t: Tables, id: TaskId, kind: string, actor: User, org: string, c: Context)
    requires id in t.tasks
    ensures var m := Record(t, id, kind, actor, org, c);
            && m.audit == t.audit + [LogRow(actor, kind, id, c.at, c.hlc)]
            && m.taskEvents == t.taskEvents + [LogRow(actor, kind, id, c.at, c.hlc)]
  {
  }

  lemma {:induction false} OtherSays(t: Tables, c: Context, cmd: Command) returns (notes: seq<LogRow>)
    requires Apply(t, c, cmd).Ok? && IsGranted(t, c, cmd) && (cmd.CreateTask? ==> Repeats(t, c, cmd)) && !IsOnTask(cmd)
    ensures var m := Journaled(t, c, cmd);
            && m.audit == t.audit + notes && m.taskEvents == t.taskEvents
            && if cmd.ChangeSettings? then notes == [] else |notes| == 1 && IsOwnNote(t, c, cmd, notes[0])
  {
    if cmd.CreateTask? {
      RepeatsExactlyWhen(t, c, cmd);
    }
    var m := Journaled(t, c, cmd);
    notes := if cmd.ChangeSettings? then [] else [m.audit[|m.audit| - 1]];
  }

  lemma {:induction false} JournaledSays(t: Tables, c: Context, cmd: Command) returns (notes: seq<LogRow>)
    requires Apply(t, c, cmd).Ok? && IsGranted(t, c, cmd)
    ensures var m := Journaled(t, c, cmd);
            && m.audit == t.audit + notes
            && m.taskEvents == t.taskEvents + (if cmd.SetAgentBudget? || Repeats(t, c, cmd) then [] else notes)
    ensures if cmd.ChangeSettings? then notes == [] else |notes| == 1 && IsOwnNote(t, c, cmd, notes[0])
  {
    if IsOnTask(cmd) || (cmd.CreateTask? && !Repeats(t, c, cmd)) {
      if cmd.CreateTask? {
        RepeatsExactlyWhen(t, c, cmd);
      }
      var (id, kind) := Recorded(t, c, cmd).value;
      CoreKeepsJournals(t, c, cmd);
      JournaledIsRecord(t, c, cmd);
      RecordNotes(Core(t, c, cmd), id, kind, c.me, OrgOf(t, c.me), c);
      notes := [LogRow(c.me, kind, id, c.at, c.hlc)];
    } else {
      notes := OtherSays(t, c, cmd);
    }
  }

  lemma {:induction false} EscalateSays(m: Tables, org: string, rows: seq<TaskId>, c: Context)
    returns (moved: seq<TaskId>, target: User)
    requires ActivePolicy(m, org).Some? ==> IsRowOrder(rows, DueTasks(m, org, c))
    ensures var t' := Escalate(m, org, rows, c);
            && t'.tasks.Keys == m.tasks.Keys
            && t'.audit == m.audit + Notes(moved, target, c) && t'.taskEvents == m.taskEvents + Notes(moved, target, c)
            && NoRepeats(moved) && (forall id :: id in moved <==> id in Reassigned(m.tasks, t'.tasks))
            && (forall id :: id in moved ==> id in t'.tasks && t'.tasks[id].assignee == target)
  {
    moved, target := [], "";
    if ActivePolicy(m, org).Some? {
      target := ActivePolicy(m, org).value.target;
      DueTasksAreEscalatable(m, org, c, rows);
      moved := EscalationNotes(m, rows, target, org, c);
      EscalatedRows(m, rows, target, org, c);
    }
  }

  lemma {:induction false} EscalationSays(t: Tables, c: Context, cmd: Command)
    returns (moved: seq<TaskId>, target: User)
    requires Apply(t, c, cmd).Ok? && (Escalates(cmd) ==> RowsAreDue(t, c, cmd))
    ensures var m, t' := Journaled(t, c, cmd), Step(t, c, cmd);
            && t'.audit == m.audit + Notes(moved, target, c) && t'.taskEvents == m.taskEvents + Notes(moved, target, c)
            && NoRepeats(moved) && (forall id :: id in moved <==> id in Reassigned(m.tasks, t'.tasks))
            && (forall id :: id in moved ==> id in t'.tasks && t'.tasks[id].assignee == target)
  {
    if Escalates(cmd) && !(cmd.CreateTask? && SameAsExisting(t, c.me, cmd.p)) {
      StepEscalates(t, c, cmd);
      moved, target := EscalateSays(Journaled(t, c, cmd), EscalatedOrg(t, c, cmd), cmd.rows, c);
    } else {
      moved, target := [], "";
      NothingEscalates(t, c, cmd);
    }
  }

  lemma NothingEscalates(t: Tables, c: Context, cmd: Command)
    requires Apply(t, c, cmd).Ok? && (Escalates(cmd) ==> cmd.CreateTask? && SameAsExisting(t, c.me, cmd.p))
    ensures Step(t, c, cmd) == Journaled(t, c, cmd)
  {
  }

  /** The journals say of every granted command who did what to which task, and which tasks its
      escalation has moved, each once. */
  lemma {:induction false} StepSays(t: Tables, c: Context, cmd: Command)
    returns (notes: seq<LogRow>, moved: seq<TaskId>, target: User)
    requires Apply(t, c, cmd).Ok? && (Escalates(cmd) ==> RowsAreDue(t, c, cmd))
    ensures IsGranted(t, c, cmd) && Says(t, c, cmd, Step(t, c, cmd), notes, moved, target)
  {
    GrantedExactlyWhen(t, c, cmd);
    notes := JournaledSays(t, c, cmd);
    CoreLeavesTheRows(t, c, cmd);
    StepIsCoreThenEscalation(t, c, cmd);
    assert Journaled(t, c, cmd).tasks == RowsLeft(t, c, cmd);
    moved, target := EscalationSays(t, c, cmd);
  }
}
