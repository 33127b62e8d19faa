/** The active-task budget over every run, escalation loop included. */
module CoordinationBudgets {
  import opened DependencyGraph
  import opened Listing
  import opened TaskTables
  import opened Coordination

  /** u has no task limit, or is within it. */
  predicate InBudget(t: Tables, u: User) {
    u in t.budgets && t.budgets[u].tasks.Some? ==> |ActiveTasks(t, u)| <= t.budgets[u].tasks.value
  }

  /** u's limit is not set where there was none, and not reduced. */
  predicate NotLowered(t: Tables, t': Tables, u: User) {
    u in t'.budgets && t'.budgets[u].tasks.Some? ==>
      u in t.budgets && t.budgets[u].tasks.Some? && t.budgets[u].tasks.value <= t'.budgets[u].tasks.value
  }

  /** Replacing one task moves u's count by at most one, and upwards only if the task
      becomes one of u's active tasks. */
  lemma PutMovesCount(t: Tables, id: TaskId, task: Task, u: User)
    ensures |ActiveTasks(Put(t, id, task), u)| <= |ActiveTasks(t, u)| + 1
    ensures (task.assignee == u && !Terminal(task.state) ==> id in ActiveTasks(t, u)) ==>
              |ActiveTasks(Put(t, id, task), u)| <= |ActiveTasks(t, u)|
  {
    var a, b := ActiveTasks(t, u), ActiveTasks(Put(t, id, task), u);
    SubsetIsSmaller(b, a + {id});
    if task.assignee == u && !Terminal(task.state) ==> id in a {
      SubsetIsSmaller(b, a);
    }
  }

  lemma SameTasksSameCount(t: Tables, t': Tables, u: User)
    requires t'.tasks == t.tasks
    ensures ActiveTasks(t', u) == ActiveTasks(t, u)
  {
  }

  lemma EscalateOneKeepsBudget(t: Tables, id: TaskId, target: User, org: string, c: Context, u: User)
    requires InBudget(t, u)
    ensures InBudget(EscalateOne(t, id, target, org, c), u)
  {
    if id in t.tasks && HasRoom(t, target) {
      var moved := SetAssignee(t, id, target, c.at);
      PutMovesCount(t, id, moved.tasks[id], u);
      SameTasksSameCount(moved, Record(moved, id, "escalated", target, org, c), u);
    }
  }

  /** The whole escalation loop, whatever rows it is given and however the target's count
      grows while it iterates. */
  lemma {:induction false} EscalationKeepsBudget(t: Tables, rows: seq<TaskId>, target: User, org: string, c: Context,
                                                 u: User)
    requires InBudget(t, u)
    ensures InBudget(EscalateRows(t, rows, target, org, c), u)
  {
    if rows != [] {
      EscalationKeepsBudget(t, rows[..|rows| - 1], target, org, c, u);
      EscalateOneKeepsBudget(EscalateRows(t, rows[..|rows| - 1], target, org, c), rows[|rows| - 1], target, org, c, u);
    }
  }

  // ----- how far an escalation goes

  /** Of n tasks, how many fit into u's remaining budget. */
  function Fitting(t: Tables, u: User, n: nat): (k: nat)
    ensures k <= n
  {
    var held := |ActiveTasks(t, u)|;
    if u !in t.budgets || t.budgets[u].tasks.None? || held + n <= t.budgets[u].tasks.value then n
    else if held < t.budgets[u].tasks.value then t.budgets[u].tasks.value - held
    else 0
  }

  /** What the escalation query returns: different unfinished tasks of other assignees. */
  ghost predicate Escalatable(t: Tables, rows: seq<TaskId>, target: User) {
    && (forall i :: 0 <= i < |rows| ==>
          rows[i] in t.tasks && !Terminal(t.tasks[rows[i]].state) && t.tasks[rows[i]].assignee != target)
    && (forall i, j :: 0 <= i < j < |rows| ==> rows[i] != rows[j])
  }

  predicate RowMoved(t: Tables, t': Tables, id: TaskId, moved: bool, target: User)
    requires id in t.tasks && id in t'.tasks
  {
    t'.tasks[id].assignee == if moved then target else t.tasks[id].assignee
  }

  /** t' is t with the first k rows reassigned to the target. */
  ghost predicate FirstRowsMoved(t: Tables, t': Tables, rows: seq<TaskId>, k: nat, target: User) {
    && t'.budgets == t.budgets && t'.tasks.Keys == t.tasks.Keys
    && (forall i :: 0 <= i < |rows| && rows[i] in t.tasks ==> RowMoved(t, t', rows[i], i < k, target))
    && (forall id :: id in t.tasks && id !in rows ==> t'.tasks[id] == t.tasks[id])
    && |ActiveTasks(t', target)| == |ActiveTasks(t, target)| + k
  }

  lemma MovedTaskCounts(t: Tables, id: TaskId, target: User, at: int)
    requires id in t.tasks && !Terminal(t.tasks[id].state) && t.tasks[id].assignee != target
    ensures |ActiveTasks(SetAssignee(t, id, target, at), target)| == |ActiveTasks(t, target)| + 1
  {
    assert ActiveTasks(SetAssignee(t, id, target, at), target) == ActiveTasks(t, target) + {id};
    assert id !in ActiveTasks(t, target);
  }

  lemma LastRowStays(t: Tables, m: Tables, rows: seq<TaskId>, k: nat, target: User)
    requires rows != [] && Escalatable(t, rows, target) && k < |rows|
    requires FirstRowsMoved(t, m, rows[..|rows| - 1], k, target)
    ensures FirstRowsMoved(t, m, rows, k, target)
  {
    var front, id := rows[..|rows| - 1], rows[|rows| - 1];
    assert id in t.tasks && id !in front;
    forall i | 0 <= i < |rows| ensures RowMoved(t, m, rows[i], i < k, target) {
      assert i < |front| ==> rows[i] == front[i] && RowMoved(t, m, front[i], i < k, target);
    }
  }

  lemma LastRowMoves(t: Tables, m: Tables, front: seq<TaskId>, id: TaskId, target: User, at: int)
    requires id in t.tasks && id in m.tasks && id !in front
    requires !Terminal(t.tasks[id].state) && t.tasks[id].assignee != target
    requires FirstRowsMoved(t, m, front, |front|, target)
    ensures FirstRowsMoved(t, SetAssignee(m, id, target, at), front + [id], |front| + 1, target)
  {
    assert m.tasks[id] == t.tasks[id];
    MovedTaskCounts(m, id, target, at);
    var next, rows := SetAssignee(m, id, target, at), front + [id];
    forall i | 0 <= i < |rows| && rows[i] in t.tasks ensures RowMoved(t, next, rows[i], i < |rows|, target) {
      assert i < |front| ==> rows[i] == front[i] && RowMoved(t, m, front[i], i < |front|, target);
    }
  }

  lemma JournalsMoveNothing(t: Tables, m: Tables, m': Tables, rows: seq<TaskId>, k: nat, target: User)
    requires FirstRowsMoved(t, m, rows, k, target) && m'.tasks == m.tasks && m'.budgets == m.budgets
    ensures FirstRowsMoved(t, m', rows, k, target)
  {
    SameTasksSameCount(m, m', target);
  }

  lemma OneMoreRow(t: Tables, m: Tables, rows: seq<TaskId>, target: User, org: string, c: Context)
    requires rows != [] && Escalatable(t, rows, target)
    requires FirstRowsMoved(t, m, rows[..|rows| - 1], Fitting(t, target, |rows| - 1), target)
    ensures FirstRowsMoved(t, EscalateOne(m, rows[|rows| - 1], target, org, c), rows, Fitting(t, target, |rows|), target)
  {
    var id := rows[|rows| - 1];
    assert id in t.tasks && id in m.tasks;
    if HasRoom(m, target) {
      assert Fitting(t, target, |rows| - 1) == |rows| - 1 && Fitting(t, target, |rows|) == |rows|;
      assert rows == rows[..|rows| - 1] + [id];
      LastRowMoves(t, m, rows[..|rows| - 1], id, target, c.at);
      var moved := SetAssignee(m, id, target, c.at);
      JournalsMoveNothing(t, moved, Record(moved, id, "escalated", target, org, c), rows, |rows|, target);
    } else {
      assert Fitting(t, target, |rows|) == Fitting(t, target, |rows| - 1);
      LastRowStays(t, m, rows, Fitting(t, target, |rows|), target);
    }
  }

  lemma NoRowsMoved(t: Tables, target: User)
    ensures FirstRowsMoved(t, t, [], 0, target)
  {
  }

  lemma FrontIsEscalatable(t: Tables, rows: seq<TaskId>, target: User)
    requires rows != [] && Escalatable(t, rows, target)
    ensures Escalatable(t, rows[..|rows| - 1], target)
  {
  }

  /** The escalation loop, exactly: the first rows move, as many as the target's budget still
      takes, the rest and all other tasks keep their assignee, and the target's count grows by
      the number moved. */
  lemma {:induction false} EscalationFillsTheBudget(t: Tables, rows: seq<TaskId>, target: User, org: string, c: Context)
    requires Escalatable(t, rows, target)
    ensures FirstRowsMoved(t, EscalateRows(t, rows, target, org, c), rows, Fitting(t, target, |rows|), target)
  {
    if rows == [] {
      NoRowsMoved(t, target);
    } else {
      var front := rows[..|rows| - 1];
      FrontIsEscalatable(t, rows, target);
      EscalationFillsTheBudget(t, front, target, org, c);
      OneMoreRow(t, EscalateRows(t, front, target, org, c), rows, target, org, c);
    }
  }

  /** The due tasks of an organization are what the escalation loop may be given. */
  lemma {:induction false} DueTasksAreEscalatable(t: Tables, org: string, c: Context, rows: seq<TaskId>)
    requires ActivePolicy(t, org).Some? && IsRowOrder(rows, DueTasks(t, org, c))
    ensures Escalatable(t, rows, ActivePolicy(t, org).value.target)
  {
    assert forall i :: 0 <= i < |rows| ==> rows[i] in rows;
    OrderHasNoRepeats(rows, DueTasks(t, org, c));
  }

  lemma {:induction false} OrderHasNoRepeats(rows: seq<TaskId>, ids: set<TaskId>)
    requires IsRowOrder(rows, ids)
    ensures forall i, j :: 0 <= i < j < |rows| ==> rows[i] != rows[j]
    decreases rows
  {
    if rows != [] {
      var front, last := rows[..|rows| - 1], rows[|rows| - 1];
      DistinctCount(front);
      if last in front {
        assert forall id :: id in ids ==> id in front;
        SubsetIsSmaller(ids, set id | id in front);
        assert false;
      }
      assert last in rows && forall id :: id in front <==> id in ids - {last} by {
        forall id ensures id in front <==> id in ids - {last} {
          assert id in rows <==> id in front || id == last;
        }
      }
      OrderHasNoRepeats(front, ids - {last});
      forall i, j | 0 <= i < j < |rows| ensures rows[i] != rows[j] {
        assert i < |front| && rows[i] == front[i];
        assert j < |front| ==> rows[j] == front[j];
      }
    }
  }

  lemma {:induction false} DistinctCount(s: seq<TaskId>)
    ensures |set id | id in s| <= |s|
  {
    if s != [] {
      var front, last := s[..|s| - 1], s[|s| - 1];
      DistinctCount(front);
      assert (set id | id in s) == (set id | id in front) + {last} by {
        forall id ensures id in s <==> id in front || id == last {
          assert s == front + [last];
        }
      }
    }
  }

  lemma CreateKeepsBudget(t: Tables, c: Context, p: NewTask, newId: TaskId, u: User)
    requires InBudget(t, u) && CreateRefusal(t, c, p, newId).None?
    ensures InBudget(InsertTask(t, c, p, newId), u)
  {
    var inserted := InsertTask(t, c, p, newId);
    PutMovesCount(t, newId, inserted.tasks[newId], u);
    SameTasksSameCount(Put(t, newId, inserted.tasks[newId]), inserted, u);
  }

  lemma TransferKeepsBudget(t: Tables, c: Context, id: TaskId, to: User, rows: seq<TaskId>, u: User)
    requires InBudget(t, u) && Transfer(t, c, id, to, rows).Ok?
    ensures InBudget(SetAssignee(t, id, to, c.at), u)
  {
    PutMovesCount(t, id, SetAssignee(t, id, to, c.at).tasks[id], u);
  }

  /** A state change that does not revive a finished task does not raise any count. */
  lemma StateChangeKeepsBudget(t: Tables, id: TaskId, task: Task, u: User)
    requires InBudget(t, u) && id in t.tasks && task.assignee == t.tasks[id].assignee
    requires Terminal(t.tasks[id].state) ==> Terminal(task.state)
    ensures InBudget(Put(t, id, task), u)
  {
    PutMovesCount(t, id, task, u);
  }

  lemma {:induction false} CoreKeepsBudget(t: Tables, c: Context, cmd: Command, u: User)
    requires Apply(t, c, cmd).Ok? && InBudget(t, u) && NotLowered(t, Core(t, c, cmd), u)
    ensures InBudget(Core(t, c, cmd), u)
  {
    if ChangesState(cmd) {
      CoreIsStateChange(t, c, cmd);
      StateChangeKeepsBudget(t, cmd.id, Core(t, c, cmd).tasks[cmd.id], u);
    } else if cmd.TransferTask? {
      TransferKeepsBudget(t, c, cmd.id, cmd.to, cmd.rows, u);
    } else if cmd.CreateTask? {
      if !SameAsExisting(t, c.me, cmd.p) { CreateKeepsBudget(t, c, cmd.p, cmd.newId, u); }
    } else {
      SameTasksSameCount(t, Core(t, c, cmd), u);
    }
  }

  /** A user within the budget stays within it through every command that does not lower
      the budget: creation, transfer, approval moves and the escalations they trigger. */
  lemma {:induction false} StepKeepsBudget(t: Tables, c: Context, cmd: Command, u: User)
    requires InBudget(t, u) && NotLowered(t, Step(t, c, cmd), u)
    ensures InBudget(Step(t, c, cmd), u)
  {
    if Apply(t, c, cmd).Ok? {
      StepHasCoreShape(t, c, cmd);
      StepIsCoreThenEscalation(t, c, cmd);
      CoreKeepsBudget(t, c, cmd, u);
      var journaled := Journaled(t, c, cmd);
      SameTasksSameCount(Core(t, c, cmd), journaled, u);
      if Escalates(cmd) {
        match ActivePolicy(journaled, EscalatedOrg(t, c, cmd))
        case Some(policy) =>
          EscalationKeepsBudget(journaled, cmd.rows, policy.target, EscalatedOrg(t, c, cmd), c, u);
        case None =>
      }
    }
  }

  /** From step `from` on, no step of the run lowers u's budget. */
  ghost predicate NeverLowered(run: seq<Call>, from: nat, u: User) {
    |run| <= from
    || (NeverLowered(run[..|run| - 1], from, u) && NotLowered(Exec(run[..|run| - 1]), Exec(run), u))
  }

  /** Over whole runs: once u is within the budget, u stays within it for as long as the
      budget is not lowered. */
  lemma {:induction false} BudgetHoldsFromThenOn(run: seq<Call>, from: nat, u: User)
    requires from <= |run| && InBudget(Exec(run[..from]), u) && NeverLowered(run, from, u)
    ensures InBudget(Exec(run), u)
  {
    if |run| == from {
      assert run[..from] == run;
    } else {
      var front, last := run[..|run| - 1], run[|run| - 1];
      assert front[..from] == run[..from];
      BudgetHoldsFromThenOn(front, from, u);
      StepKeepsBudget(Exec(front), last.c, last.cmd, u);
    }
  }
}
