/** The command handlers as methods over the mutable tables. Every method runs in one write
    transaction: a refusal leaves the tables as they were. */
module Coordinator {
  import opened Wrappers
  import opened DependencyGraph
  import T = TaskTables
  import opened Coordination
  import A = CoordinationAccess
  import E = CoordinationEffects

  type Tables = T.Tables
  type Context = T.Context

  /** The outcome a handler owes its caller: the new tables on success, else the error and
      unchanged tables. */
  ghost predicate Outcome<R>(before: Tables, after: Tables, spec: Result<Tables, T.ApiError>, r: Result<R, T.ApiError>) {
    match spec
    case Ok(t) => r.Ok? && after == t
    case Err(e) => r == Err(e) && after == before
  }

  class TaskService {
    var settings: T.Settings
    var tasks: map<TaskId, T.Task>
    var nextRow: nat
    var deps: Deps
    var budgets: map<T.User, T.Budget>
    var taskEvents: seq<T.LogRow>
    var events: seq<T.Event>
    var nextEvent: nat
    var audit: seq<T.LogRow>

    function View(): Tables
      reads this
    {
      T.Tables(settings, tasks, nextRow, deps, budgets, taskEvents, events, nextEvent, audit)
    }

    ghost predicate Valid()
      reads this
    {
      UniqueClientIds(View())
    }

    constructor (settings: T.Settings)
      ensures Valid() && View() == T.EMPTY_TABLES.(settings := settings)
    {
      this.settings := settings;
      tasks, nextRow, deps, budgets := map[], 1, {}, map[];
      taskEvents, events, nextEvent, audit := [], [], 1, [];
    }

    // ----- store functions

    method SetState(id: TaskId, state: T.TaskState, result: Option<string>, at: int)
      requires id in tasks
      modifies this`tasks
      ensures View() == T.SetState(old(View()), id, state, result, at)
      ensures old(Valid()) ==> Valid()
    {
      tasks := tasks[id := tasks[id].(state := state, result := result, updatedAt := at)];
    }

    method SetAssignee(id: TaskId, u: T.User, at: int)
      requires id in tasks
      modifies this`tasks
      ensures View() == T.SetAssignee(old(View()), id, u, at)
      ensures old(Valid()) ==> Valid()
    {
      tasks := tasks[id := tasks[id].(assignee := u, updatedAt := at)];
    }

    method SetApprover(id: TaskId, u: T.User, at: int)
      requires id in tasks
      modifies this`tasks
      ensures View() == T.SetApprover(old(View()), id, u, at)
      ensures old(Valid()) ==> Valid()
    {
      tasks := tasks[id := tasks[id].(approver := Some(u), updatedAt := at)];
    }

    /** `events.append`: retention first, then the row with the key of its predecessor. */
    method AppendEvent(row: T.LogRow, cutoff: int)
      modifies this`events, this`nextEvent
      ensures View() == T.AddEvent(old(View()), row, cutoff)
    {
      events := T.Purge(events, cutoff);
      var prev := T.LastKey(events, row.principal);
      events := events + [T.Event(nextEvent, row, prev)];
      nextEvent := nextEvent + 1;
    }

    /** `events.append_for_task`. */
    method AppendForTask(id: TaskId, kind: string, org: string, c: Context)
      requires id in tasks
      modifies this`events, this`nextEvent
      ensures View() == T.AppendForTask(old(View()), id, kind, org, c)
    {
      ghost var start := View();
      var principals := T.Parties(c, tasks[id].creator, tasks[id].assignee);
      for k := 0 to |principals|
        invariant View() == T.AddEvents(start, principals[..k], id, kind, org, c)
      {
        assert principals[..k + 1][..k] == principals[..k];
        AppendEvent(T.LogRow(principals[k], kind, id, c.at, c.hlc), c.cutoff(org, nextEvent));
      }
      assert principals[..|principals|] == principals;
    }

    method Record(id: TaskId, kind: string, actor: T.User, org: string, c: Context)
      requires id in tasks
      modifies this`taskEvents, this`events, this`nextEvent, this`audit
      ensures View() == T.Record(old(View()), id, kind, actor, org, c)
      ensures old(Valid()) ==> Valid()
    {
      taskEvents := taskEvents + [T.LogRow(actor, kind, id, c.at, c.hlc)];
      AppendForTask(id, kind, org, c);
      audit := audit + [T.LogRow(actor, kind, id, c.at, c.hlc)];
    }

    // ----- escalation

    /** One row of the escalation loop: the task moves unless the target's budget is full. */
    method EscalateRow(id: TaskId, target: T.User, org: string, c: Context)
      requires id in tasks
      modifies this`tasks, this`taskEvents, this`events, this`nextEvent, this`audit
      ensures View() == T.EscalateOne(old(View()), id, target, org, c)
    {
      if T.HasRoom(View(), target) {
        SetAssignee(id, target, c.at);
        Record(id, "escalated", target, org, c);
      }
    }

    /** The rows of the due tasks, in an order of the database's choosing. */
    method SelectDue(org: string, policy: T.Escalation, c: Context) returns (rows: seq<TaskId>)
      requires T.ActivePolicy(View(), org) == Some(policy)
      ensures T.IsRowOrder(rows, T.DueTasks(View(), org, c))
    {
      rows := [];
      var due := set id | id in tasks && T.IsDue(View(), id, org, policy, c);
      var todo := due;
      while todo != {}
        invariant todo <= due && |rows| + |todo| == |due|
        invariant forall id :: id in rows <==> id in due - todo
        decreases todo
      {
        var id :| id in todo;
        rows := rows + [id];
        todo := todo - {id};
      }
    }

    method EscalateRows(rows: seq<TaskId>, target: T.User, org: string, c: Context)
      requires forall i :: 0 <= i < |rows| ==> rows[i] in tasks
      modifies this`tasks, this`taskEvents, this`events, this`nextEvent, this`audit
      ensures View() == T.EscalateRows(old(View()), rows, target, org, c)
    {
      ghost var start := View();
      for k := 0 to |rows|
        invariant View() == T.EscalateRows(start, rows[..k], target, org, c)
      {
        EscalationKeepsShape(start, rows[..k], target, org, c);
        EscalateRow(rows[k], target, org, c);
        assert rows[..k + 1][..k] == rows[..k];
      }
      assert rows[..|rows|] == rows;
    }

    /** Moves the organization's due tasks, read once, to the policy's target while its
        budget lasts. */
    method CheckEscalations(org: string, c: Context) returns (rows: seq<TaskId>)
      modifies this`tasks, this`taskEvents, this`events, this`nextEvent, this`audit
      ensures T.IsRowOrder(rows, T.DueTasks(old(View()), org, c))
      ensures View() == T.Escalate(old(View()), org, rows, c)
      ensures if E.CanEscalate(settings, org) then E.MovesTheLate(settings, budgets, old(tasks), tasks, org, c)
              else View() == old(View())
    {
      ghost var before := View();
      E.DueAreLate(before, org, c);
      var policy := T.ActivePolicy(View(), org);
      if policy.None? {
        return [];
      }
      rows := SelectDue(org, policy.value, c);
      assert forall i :: 0 <= i < |rows| ==> rows[i] in rows;
      EscalateRows(rows, policy.value.target, org, c);
      E.EscalationMovesTheLate(before, org, rows, c);
    }

    /** Journals of a task command, then the escalations it triggers. */
    method RecordAndEscalate(id: TaskId, kind: string, org: string, escalated: string, c: Context)
      returns (rows: seq<TaskId>)
      requires id in tasks && Valid()
      modifies this`tasks, this`taskEvents, this`events, this`nextEvent, this`audit
      ensures Valid()
      ensures View() == T.Escalate(T.Record(old(View()), id, kind, c.me, org, c), escalated, rows, c)
      ensures T.IsRowOrder(rows, T.DueTasks(T.Record(old(View()), id, kind, c.me, org, c), escalated, c))
    {
      Record(id, kind, c.me, org, c);
      ghost var journaled := View();
      rows := CheckEscalations(escalated, c);
      EscalateKeepsShape(journaled, escalated, rows, c);
      ShapeKeepsClientIds(journaled, View());
    }

    // ----- commands

    method CheckCreation(c: Context, p: T.NewTask, newId: TaskId) returns (e: Option<T.ApiError>)
      requires p.clientId.Some? ==> !T.ClientIdUsed(View(), c.me, p.clientId.value)
      ensures e == T.CreateRefusal(View(), c, p, newId)
    {
      e := T.RequireActive(View(), p.assignee);
      if e.Some? {
        return;
      }
      if !T.ExternalCommAllowed(View(), c.me, p.assignee) {
        return Some(T.PolicyDenied);
      }
      if !T.HasRoom(View(), p.assignee) {
        return Some(T.QuotaExceeded);
      }
      if exists d :: d in p.dependsOn && d !in tasks {
        return Some(T.InvalidArgument);
      }
      var depth := DependencyDepth(deps, p.dependsOn, T.MAX_DEPENDENCY_DEPTH);
      if depth > T.MAX_DEPENDENCY_DEPTH {
        return Some(T.QuotaExceeded);
      }
      if newId in tasks {
        return Some(T.InternalError);
      }
    }

    method Insert(c: Context, p: T.NewTask, newId: TaskId)
      requires Valid() && T.CreateRefusal(View(), c, p, newId).None?
      modifies this`tasks, this`nextRow, this`deps
      ensures Valid() && View() == T.InsertTask(old(View()), c, p, newId)
    {
      InsertKeepsClientIds(View(), c, p, newId);
      var task := T.Task(nextRow, p.clientId, p.title, c.me, p.assignee, T.Submitted, p.dueAt, None, None, c.at);
      tasks := tasks[newId := task];
      nextRow := nextRow + 1;
      deps := deps + set d | d in p.dependsOn :: (newId, d);
    }

    method CreateTask(c: Context, p: T.NewTask, newId: TaskId) returns (r: Result<TaskId, T.ApiError>, rows: seq<TaskId>)
      requires Valid()
      modifies this
      ensures Valid()
      ensures Outcome(old(View()), View(), T.Create(old(View()), c, p, newId, rows), r)
      ensures RowsAreDue(old(View()), c, T.CreateTask(p, newId, rows))
      ensures r.Ok? ==> r.value == newId || r.value in old(tasks)
    {
      rows := [];
      if p.clientId.Some? && T.ClientIdUsed(View(), c.me, p.clientId.value) {
        var id :| id in tasks && T.HasClientId(View(), id, c.me, p.clientId.value);
        if tasks[id].assignee == p.assignee && tasks[id].title == p.title {
          audit := audit + [T.LogRow(c.me, "create_task", id, c.at, c.hlc)];
          return Ok(id), rows;
        }
        return Err(T.InvalidArgument), rows;
      }
      var refusal := CheckCreation(c, p, newId);
      if refusal.Some? {
        return Err(refusal.value), rows;
      }
      Insert(c, p, newId);
      rows := RecordAndEscalate(newId, "created", T.OrgOf(View(), c.me), T.OrgOf(View(), p.assignee), c);
      r := Ok(newId);
    }

    method CheckStateChange(c: Context, id: TaskId, state: T.TaskState) returns (e: Option<T.ApiError>)
      ensures e == T.UpdateRefusal(View(), c, id, state)
    {
      if !T.Visible(View(), id, c.me) && !(id in tasks && T.Delegated(View(), id, c)) {
        return Some(T.TaskNotFound);
      }
      if !T.AllowedTransition(tasks[id].state, state) {
        return Some(T.TaskStateInvalid);
      }
      if state == T.InProgress && !T.DependenciesMet(View(), id) {
        return Some(T.DependencyNotMet);
      }
      return None;
    }

    /** A granted state change; a result is kept only by a completed or failed task. */
    method ChangeState(c: Context, id: TaskId, state: T.TaskState, result: Option<string>) returns (rows: seq<TaskId>)
      requires Valid() && id in tasks
      modifies this`tasks, this`taskEvents, this`events, this`nextEvent, this`audit
      ensures Valid()
      ensures var moved := T.Moved(old(View()), c, id, state, result);
              && View() == T.Escalate(moved, T.OrgOf(moved, c.me), rows, c)
              && T.IsRowOrder(rows, T.DueTasks(moved, T.OrgOf(moved, c.me), c))
    {
      SetState(id, state, if state == T.Completed || state == T.Failed then result else None, c.at);
      rows := RecordAndEscalate(id, "state_changed", T.OrgOf(View(), c.me), T.OrgOf(View(), c.me), c);
    }

    method UpdateTaskState(c: Context, id: TaskId, state: T.TaskState, result: Option<string>)
      returns (r: Result<(), T.ApiError>, rows: seq<TaskId>)
      requires Valid()
      modifies this`tasks, this`taskEvents, this`events, this`nextEvent, this`audit
      ensures Valid()
      ensures Outcome(old(View()), View(), T.UpdateState(old(View()), c, id, state, result, rows), r)
      ensures r.Ok? ==>
                var moved := T.Moved(old(View()), c, id, state, result);
                T.IsRowOrder(rows, T.DueTasks(moved, T.OrgOf(moved, c.me), c))
    {
      rows := [];
      var refusal := CheckStateChange(c, id, state);
      if refusal.Some? {
        return Err(refusal.value), rows;
      }
      rows := ChangeState(c, id, state, result);
      r := Ok(());
    }

    method TransferTask(c: Context, id: TaskId, to: T.User) returns (r: Result<(), T.ApiError>, rows: seq<TaskId>)
      requires Valid()
      modifies this`tasks, this`taskEvents, this`events, this`nextEvent, this`audit
      ensures Valid()
      ensures Outcome(old(View()), View(), T.Transfer(old(View()), c, id, to, rows), r)
      ensures RowsAreDue(old(View()), c, T.TransferTask(id, to, rows))
    {
      rows := [];
      if !T.Visible(View(), id, c.me) {
        return Err(T.TaskNotFound), rows;
      }
      var inactive := T.RequireActive(View(), to);
      if inactive.Some? {
        return Err(inactive.value), rows;
      }
      if !T.ExternalCommAllowed(View(), c.me, to) {
        return Err(T.PolicyDenied), rows;
      }
      if !T.HasRoom(View(), to) {
        return Err(T.QuotaExceeded), rows;
      }
      if T.Terminal(tasks[id].state) {
        return Err(T.TaskStateInvalid), rows;
      }
      SetAssignee(id, to, c.at);
      rows := RecordAndEscalate(id, "transferred", T.OrgOf(View(), c.me), T.OrgOf(View(), to), c);
      r := Ok(());
    }

    method RequestApproval(c: Context, id: TaskId, approver: T.User) returns (r: Result<(), T.ApiError>)
      requires Valid()
      modifies this`tasks, this`taskEvents, this`events, this`nextEvent, this`audit
      ensures Valid()
      ensures Outcome(old(View()), View(), T.RequestApproval(old(View()), c, id, approver), r)
    {
      if !T.Visible(View(), id, c.me) {
        return Err(T.TaskNotFound);
      }
      if T.Terminal(tasks[id].state) || tasks[id].state == T.PendingApproval {
        return Err(T.TaskStateInvalid);
      }
      var inactive := T.RequireActive(View(), approver);
      if inactive.Some? {
        return Err(inactive.value);
      }
      if approver == c.me {
        return Err(T.InvalidArgument);
      }
      SetApprover(id, approver, c.at);
      SetState(id, T.PendingApproval, None, c.at);
      Record(id, "approval_requested", c.me, T.OrgOf(View(), c.me), c);
      r := Ok(());
    }

    method ApproveTask(c: Context, id: TaskId) returns (r: Result<(), T.ApiError>)
      requires Valid()
      modifies this`tasks, this`taskEvents, this`events, this`nextEvent, this`audit
      ensures Valid()
      ensures Outcome(old(View()), View(), T.Approve(old(View()), c, id), r)
    {
      if id !in tasks || tasks[id].approver != Some(c.me) {
        return Err(T.TaskNotFound);
      }
      if tasks[id].state != T.PendingApproval {
        return Err(T.TaskStateInvalid);
      }
      SetState(id, T.Completed, tasks[id].result, c.at);
      Record(id, "approved", c.me, T.OrgOf(View(), c.me), c);
      r := Ok(());
    }

    method RejectTask(c: Context, id: TaskId) returns (r: Result<(), T.ApiError>)
      requires Valid()
      modifies this`tasks, this`taskEvents, this`events, this`nextEvent, this`audit
      ensures Valid()
      ensures Outcome(old(View()), View(), T.Reject(old(View()), c, id), r)
    {
      if id !in tasks || tasks[id].approver != Some(c.me) {
        return Err(T.TaskNotFound);
      }
      if tasks[id].state != T.PendingApproval {
        return Err(T.TaskStateInvalid);
      }
      SetState(id, T.InProgress, None, c.at);
      Record(id, "rejected", c.me, T.OrgOf(View(), c.me), c);
      r := Ok(());
    }

    /** Answers with the limits then stored. */
    method SetAgentBudget(c: Context, u: T.User, given: T.Budget) returns (r: Result<T.Budget, T.ApiError>)
      requires Valid()
      modifies this`budgets, this`audit
      ensures Valid()
      ensures Outcome(old(View()), View(), T.SetBudget(old(View()), c, u, given), r)
      ensures r.Ok? ==> r.value == T.StoredBudget(View(), u)
    {
      if u !in settings.accounts || settings.accounts[u].org != c.me {
        return Err(T.UserNotFound);
      }
      if given.tasks.None? && given.messages.None? {
        budgets := map v | v in budgets && v != u :: budgets[v];
      } else if u !in budgets {
        budgets := budgets[u := given];
      } else {
        var stored := budgets[u];
        budgets := budgets[u := T.Budget(if given.tasks.Some? then given.tasks else stored.tasks,
                                         if given.messages.Some? then given.messages else stored.messages)];
      }
      assert budgets == T.NewBudgets(old(View()), u, given);
      audit := audit + [T.LogRow(c.me, "set_agent_budget", u, c.at, c.hlc)];
      r := Ok(if u in budgets then budgets[u] else T.Budget(None, None));
    }

    /** The commands of other handlers, which change accounts, policies and delegations. */
    method ChangeSettings(settings: T.Settings)
      requires Valid()
      modifies this`settings
      ensures Valid() && View() == old(View()).(settings := settings)
    {
      this.settings := settings;
    }

    // ----- runs

    /** Any command takes the step of the specification; the rows it goes on to escalate are
        those the query returned. */
    method Dispatch(c: Context, cmd: T.Command) returns (taken: T.Command)
      requires Valid()
      modifies this
      ensures Valid()
      ensures SameRequest(cmd, taken) && View() == T.Step(old(View()), c, taken)
      ensures Escalates(taken) ==> RowsAreDue(old(View()), c, taken)
      ensures E.DoesExactly(old(View()), c, taken, View())
    {
      taken := cmd;
      match cmd {
        case CreateTask(p, newId, _) =>
          var r, rows := CreateTask(c, p, newId);
          taken := T.CreateTask(p, newId, rows);
        case UpdateTaskState(id, state, result, _) =>
          var r, rows := UpdateTaskState(c, id, state, result);
          MovedRowsAreDue(old(View()), c, T.UpdateTaskState(id, state, result, rows));
          taken := T.UpdateTaskState(id, state, result, rows);
        case TransferTask(id, to, _) =>
          var r, rows := TransferTask(c, id, to);
          taken := T.TransferTask(id, to, rows);
        case RequestTaskApproval(id, approver) =>
          var r := RequestApproval(c, id, approver);
        case ApproveTask(id) =>
          var r := ApproveTask(c, id);
        case RejectTask(id) =>
          var r := RejectTask(c, id);
        case SetAgentBudget(u, given) =>
          var r := SetAgentBudget(c, u, given);
        case ChangeSettings(s) =>
          ChangeSettings(s);
      }
      E.StepDoesExactly(old(View()), c, taken);
    }

    /** A fresh service follows a run of the specification, call by call, so that whatever holds
        in every run holds of the object: dependencies are acyclic and shallow, client ids unique,
        results final. */
    method Replay(calls: seq<Call>) returns (run: seq<Call>)
      requires Valid() && View() == T.EMPTY_TABLES
      modifies this
      ensures Valid()
      ensures |run| == |calls|
      ensures forall i :: 0 <= i < |run| ==> run[i].c == calls[i].c && SameRequest(calls[i].cmd, run[i].cmd)
      ensures View() == Exec(run)
      ensures WellLinked(View()) && ShortReach(View()) && ResultsAreFinal(View())
    {
      run := [];
      for k := 0 to |calls|
        invariant Valid()
        invariant |run| == k && View() == Exec(run)
        invariant forall i :: 0 <= i < k ==> run[i].c == calls[i].c && SameRequest(calls[i].cmd, run[i].cmd)
      {
        var taken := Dispatch(calls[k].c, calls[k].cmd);
        ghost var before := run;
        run := run + [Call(calls[k].c, taken)];
        assert run[..|run| - 1] == before;
      }
      RunIsWellLinked(run);
      RunHasShortReach(run);
      RunResultsAreFinal(run);
    }
  }

  lemma MovedRowsAreDue(before: Tables, c: Context, cmd: T.Command)
    requires cmd.UpdateTaskState?
    requires T.Apply(before, c, cmd).Ok? ==>
               var moved := T.Moved(before, c, cmd.id, cmd.state, cmd.result);
               T.IsRowOrder(cmd.rows, T.DueTasks(moved, T.OrgOf(moved, c.me), c))
    ensures RowsAreDue(before, c, cmd)
  {
  }

  /** The two commands differ at most in the rows to escalate. */
  predicate SameRequest(a: T.Command, b: T.Command) {
    match a
    case CreateTask(p, newId, _) => b.CreateTask? && b.p == p && b.newId == newId
    case UpdateTaskState(id, state, result, _) => b.UpdateTaskState? && b.id == id && b.state == state && b.result == result
    case TransferTask(id, to, _) => b.TransferTask? && b.id == id && b.to == to
    case _ => a == b
  }
}
