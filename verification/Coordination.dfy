/** What every run of coordination commands keeps, whatever the commands, their order, their
    callers, the clock and the retention settings. */
module Coordination {
  import opened Wrappers
  import opened Listing
  import opened DependencyGraph
  import opened TaskTables

  datatype Call = Call(c: Context, cmd: Command)

  /** The tables after a run from the empty database. */
  ghost function Exec(run: seq<Call>): Tables {
    if run == [] then EMPTY_TABLES
    else Step(Exec(run[..|run| - 1]), run[|run| - 1].c, run[|run| - 1].cmd)
  }

  // ----- what one command can change

  /** Everything but assignee and update time. */
  predicate SameTask(a: Task, b: Task) {
    a == b.(assignee := a.assignee, updatedAt := a.updatedAt)
  }

  ghost predicate SameShape(t: Tables, t': Tables) {
    && t'.deps == t.deps && t'.nextRow == t.nextRow && t'.budgets == t.budgets && t'.settings == t.settings
    && t'.tasks.Keys == t.tasks.Keys
    && forall id :: id in t.tasks ==> SameTask(t.tasks[id], t'.tasks[id])
  }

  lemma {:induction false} EscalationKeepsShape(t: Tables, rows: seq<TaskId>, target: User, org: string, c: Context)
    ensures SameShape(t, EscalateRows(t, rows, target, org, c))
  {
    if rows != [] {
      EscalationKeepsShape(t, rows[..|rows| - 1], target, org, c);
    }
  }

  lemma EscalateKeepsShape(t: Tables, org: string, rows: seq<TaskId>, c: Context)
    ensures SameShape(t, Escalate(t, org, rows, c))
  {
    match ActivePolicy(t, org)
    case Some(policy) => EscalationKeepsShape(t, rows, policy.target, org, c);
    case None =>
  }

  /** The state changes a command may make to an existing task. */
  predicate Moves(t: Tables, cmd: Command, id: TaskId, from: TaskState, to: TaskState) {
    || from == to
    || (cmd.UpdateTaskState? && cmd.id == id && cmd.state == to && AllowedTransition(from, to)
        && (to == InProgress ==> DependenciesMet(t, id)))
    || (cmd.RequestTaskApproval? && cmd.id == id && (from == Submitted || from == InProgress) && to == PendingApproval)
    || (cmd.ApproveTask? && cmd.id == id && from == PendingApproval && to == Completed)
    || (cmd.RejectTask? && cmd.id == id && from == PendingApproval && to == InProgress)
  }

  ghost predicate Inserts(t: Tables, t': Tables, cmd: Command) {
    && cmd.CreateTask? && cmd.newId !in t.tasks
    && t'.tasks.Keys == t.tasks.Keys + {cmd.newId}
    && t'.tasks[cmd.newId].state == Submitted && t'.tasks[cmd.newId].rowid == t.nextRow
    && t'.tasks[cmd.newId].result == None
    && t'.tasks[cmd.newId].clientId == cmd.p.clientId
    && (cmd.p.clientId.Some? ==> !ClientIdUsed(t, t'.tasks[cmd.newId].creator, cmd.p.clientId.value))
    && t'.nextRow == t.nextRow + 1
    && t'.deps == t.deps + (set d | d in cmd.p.dependsOn :: (cmd.newId, d))
    && (forall d :: d in cmd.p.dependsOn ==> d in t.tasks)
    && !IsDepth(t.deps, Elements(cmd.p.dependsOn), MAX_DEPENDENCY_DEPTH, MAX_DEPENDENCY_DEPTH + 1)
  }

  predicate KeepsIdentity(a: Task, b: Task) {
    a.rowid == b.rowid && a.creator == b.creator && a.clientId == b.clientId && a.title == b.title && a.dueAt == b.dueAt
  }

  /** Only a creation adds a task or an edge, and its edges start at the new task; existing
      tasks keep their identity and move along the state machine. */
  ghost predicate Evolves(t: Tables, t': Tables, cmd: Command) {
    && (forall id :: id in t.tasks ==> id in t'.tasks && KeepsIdentity(t.tasks[id], t'.tasks[id])
                                       && Moves(t, cmd, id, t.tasks[id].state, t'.tasks[id].state))
    && (|| (t'.tasks.Keys == t.tasks.Keys && t'.deps == t.deps && t'.nextRow == t.nextRow)
        || Inserts(t, t', cmd))
  }

  /** What a granted command does to the tables before journals and escalation. */
  ghost function Core(t: Tables, c: Context, cmd: Command): Tables
    requires Apply(t, c, cmd).Ok?
  {
    match cmd
    case CreateTask(p, newId, _) => if SameAsExisting(t, c.me, p) then t else InsertTask(t, c, p, newId)
    case UpdateTaskState(id, state, result, _) => SetState(t, id, state, KeptResult(state, result), c.at)
    case TransferTask(id, to, _) => SetAssignee(t, id, to, c.at)
    case RequestTaskApproval(id, approver) => SetState(SetApprover(t, id, approver, c.at), id, PendingApproval, None, c.at)
    case ApproveTask(id) => SetState(t, id, Completed, t.tasks[id].result, c.at)
    case RejectTask(id) => SetState(t, id, InProgress, None, c.at)
    case SetAgentBudget(u, given) => t.(budgets := NewBudgets(t, u, given))
    case ChangeSettings(settings) => t.(settings := settings)
  }

  /** The organization whose due tasks a command goes on to escalate. */
  ghost function EscalatedOrg(t: Tables, c: Context, cmd: Command): string {
    match cmd
    case CreateTask(p, _, _) => OrgOf(t, p.assignee)
    case TransferTask(_, to, _) => OrgOf(t, to)
    case _ => OrgOf(t, c.me)
  }

  ghost function Journaled(t: Tables, c: Context, cmd: Command): Tables
    requires Apply(t, c, cmd).Ok?
  {
    var core, org := Core(t, c, cmd), OrgOf(t, c.me);
    match cmd
    case CreateTask(p, newId, _) =>
      if SameAsExisting(t, c.me, p) then Step(t, c, cmd) else Record(core, newId, "created", c.me, org, c)
    case UpdateTaskState(id, _, _, _) => Record(core, id, "state_changed", c.me, org, c)
    case TransferTask(id, _, _) => Record(core, id, "transferred", c.me, org, c)
    case _ => Step(t, c, cmd)
  }

  predicate Escalates(cmd: Command) {
    cmd.CreateTask? || cmd.UpdateTaskState? || cmd.TransferTask?
  }

  /** The rows a granted command escalates are the tasks due once the command is journaled. */
  ghost predicate RowsAreDue(before: Tables, c: Context, cmd: Command)
    requires Escalates(cmd)
  {
    Apply(before, c, cmd).Ok? && !(cmd.CreateTask? && SameAsExisting(before, c.me, cmd.p)) ==>
      IsRowOrder(cmd.rows, DueTasks(Journaled(before, c, cmd), EscalatedOrg(before, c, cmd), c))
  }

  /** The tables after a granted command come from its core effect. */
  ghost predicate IsCoreThenEscalation(t: Tables, c: Context, cmd: Command)
    requires Apply(t, c, cmd).Ok?
  {
    && SameShape(Core(t, c, cmd), Journaled(t, c, cmd)) && Journaled(t, c, cmd).tasks == Core(t, c, cmd).tasks
    && (|| Step(t, c, cmd) == Journaled(t, c, cmd)
        || (Escalates(cmd) && Step(t, c, cmd) == Escalate(Journaled(t, c, cmd), EscalatedOrg(t, c, cmd), cmd.rows, c)))
  }

  lemma CreationIsCoreThenEscalation(t: Tables, c: Context, cmd: Command)
    requires cmd.CreateTask? && Apply(t, c, cmd).Ok?
    ensures IsCoreThenEscalation(t, c, cmd)
  {
  }

  lemma MoveIsCoreThenEscalation(t: Tables, c: Context, cmd: Command)
    requires (cmd.UpdateTaskState? || cmd.TransferTask?) && Apply(t, c, cmd).Ok?
    ensures IsCoreThenEscalation(t, c, cmd)
  {
  }

  /** Every granted command is its core effect, its journal rows, and then escalation. */
  lemma StepIsCoreThenEscalation(t: Tables, c: Context, cmd: Command)
    requires Apply(t, c, cmd).Ok?
    ensures IsCoreThenEscalation(t, c, cmd)
  {
    if cmd.CreateTask? {
      CreationIsCoreThenEscalation(t, c, cmd);
    } else if Escalates(cmd) {
      MoveIsCoreThenEscalation(t, c, cmd);
    }
  }

  lemma {:induction false} StepHasCoreShape(t: Tables, c: Context, cmd: Command)
    requires Apply(t, c, cmd).Ok?
    ensures SameShape(Core(t, c, cmd), Step(t, c, cmd))
  {
    StepIsCoreThenEscalation(t, c, cmd);
    if Escalates(cmd) {
      EscalateKeepsShape(Journaled(t, c, cmd), EscalatedOrg(t, c, cmd), cmd.rows, c);
    }
  }

  lemma {:induction false} CreateEvolves(t: Tables, c: Context, p: NewTask, newId: TaskId, rows: seq<TaskId>)
    requires CreateRefusal(t, c, p, newId).None?
    ensures Inserts(t, InsertTask(t, c, p, newId), CreateTask(p, newId, rows))
  {
  }

  lemma UpdateEvolves(t: Tables, c: Context, id: TaskId, state: TaskState, result: Option<string>, rows: seq<TaskId>)
    requires UpdateState(t, c, id, state, result, rows).Ok?
    ensures id in t.tasks && Moves(t, UpdateTaskState(id, state, result, rows), id, t.tasks[id].state, state)
  {
  }

  lemma PutEvolves(t: Tables, cmd: Command, id: TaskId, task: Task)
    requires id in t.tasks && KeepsIdentity(t.tasks[id], task) && Moves(t, cmd, id, t.tasks[id].state, task.state)
    ensures Evolves(t, Put(t, id, task), cmd)
  {
  }

  predicate ChangesState(cmd: Command) {
    cmd.UpdateTaskState? || cmd.RequestTaskApproval? || cmd.ApproveTask? || cmd.RejectTask?
  }

  /** core replaces one unfinished task of t, keeping its assignee. */
  ghost predicate IsStateChange(t: Tables, core: Tables, cmd: Command)
    requires ChangesState(cmd)
  {
    && cmd.id in t.tasks && cmd.id in core.tasks && !Terminal(t.tasks[cmd.id].state)
    && core == Put(t, cmd.id, core.tasks[cmd.id])
    && core.tasks[cmd.id].assignee == t.tasks[cmd.id].assignee
    && KeepsIdentity(t.tasks[cmd.id], core.tasks[cmd.id])
    && Moves(t, cmd, cmd.id, t.tasks[cmd.id].state, core.tasks[cmd.id].state)
  }

  lemma UpdateIsStateChange(t: Tables, c: Context, cmd: Command)
    requires cmd.UpdateTaskState? && Apply(t, c, cmd).Ok?
    ensures IsStateChange(t, Core(t, c, cmd), cmd)
  {
    UpdateEvolves(t, c, cmd.id, cmd.state, cmd.result, cmd.rows);
  }

  lemma RequestIsStateChange(t: Tables, c: Context, cmd: Command)
    requires cmd.RequestTaskApproval? && Apply(t, c, cmd).Ok?
    ensures IsStateChange(t, Core(t, c, cmd), cmd)
  {
  }

  lemma DecisionIsStateChange(t: Tables, c: Context, cmd: Command)
    requires (cmd.ApproveTask? || cmd.RejectTask?) && Apply(t, c, cmd).Ok?
    ensures IsStateChange(t, Core(t, c, cmd), cmd)
  {
  }

  /** Four commands replace one unfinished task, keeping its assignee. */
  lemma CoreIsStateChange(t: Tables, c: Context, cmd: Command)
    requires Apply(t, c, cmd).Ok? && ChangesState(cmd)
    ensures IsStateChange(t, Core(t, c, cmd), cmd)
  {
    if cmd.UpdateTaskState? {
      UpdateIsStateChange(t, c, cmd);
    } else if cmd.RequestTaskApproval? {
      RequestIsStateChange(t, c, cmd);
    } else {
      DecisionIsStateChange(t, c, cmd);
    }
  }

  lemma {:induction false} CoreEvolves(t: Tables, c: Context, cmd: Command)
    requires Apply(t, c, cmd).Ok?
    ensures Evolves(t, Core(t, c, cmd), cmd)
  {
    if ChangesState(cmd) {
      CoreIsStateChange(t, c, cmd);
      PutEvolves(t, cmd, cmd.id, Core(t, c, cmd).tasks[cmd.id]);
    } else if cmd.TransferTask? {
      PutEvolves(t, cmd, cmd.id, Core(t, c, cmd).tasks[cmd.id]);
    } else if cmd.CreateTask? {
      if !SameAsExisting(t, c.me, cmd.p) { CreateEvolves(t, c, cmd.p, cmd.newId, cmd.rows); }
    }
  }

  lemma {:induction false} EvolvesUpToShape(t: Tables, core: Tables, t': Tables, cmd: Command)
    requires Evolves(t, core, cmd) && SameShape(core, t')
    ensures Evolves(t, t', cmd)
  {
  }

  lemma {:induction false} StepEvolves(t: Tables, c: Context, cmd: Command)
    ensures Evolves(t, Step(t, c, cmd), cmd)
  {
    if Apply(t, c, cmd).Ok? {
      CoreEvolves(t, c, cmd);
      StepHasCoreShape(t, c, cmd);
      EvolvesUpToShape(t, Core(t, c, cmd), Step(t, c, cmd), cmd);
    }
  }

  /** Terminal states are absorbing, in one step and so in every run. */
  lemma {:induction false} TerminalIsAbsorbing(t: Tables, c: Context, cmd: Command, id: TaskId)
    requires id in t.tasks && Terminal(t.tasks[id].state)
    ensures id in Step(t, c, cmd).tasks && Step(t, c, cmd).tasks[id].state == t.tasks[id].state
  {
    StepEvolves(t, c, cmd);
  }

  // ----- client task ids

  predicate SameClientKey(a: Task, b: Task) {
    a.creator == b.creator && a.clientId.Some? && a.clientId == b.clientId
  }

  /** UNIQUE (creator_username, client_task_id). */
  ghost predicate UniqueClientIds(t: Tables) {
    forall a, b :: a in t.tasks && b in t.tasks && SameClientKey(t.tasks[a], t.tasks[b]) ==> a == b
  }

  lemma EvolutionKeepsClientIds(t: Tables, t': Tables, cmd: Command)
    requires UniqueClientIds(t) && Evolves(t, t', cmd)
    ensures UniqueClientIds(t')
  {
    forall a, b | a in t'.tasks && b in t'.tasks && SameClientKey(t'.tasks[a], t'.tasks[b])
      ensures a == b
    {
      if a in t.tasks && b !in t.tasks {
        assert HasClientId(t, a, t'.tasks[b].creator, cmd.p.clientId.value);
      }
    }
  }

  lemma InsertKeepsClientIds(t: Tables, c: Context, p: NewTask, newId: TaskId)
    requires UniqueClientIds(t) && CreateRefusal(t, c, p, newId).None?
    ensures UniqueClientIds(InsertTask(t, c, p, newId))
  {
    CreateEvolves(t, c, p, newId, []);
    EvolutionKeepsClientIds(t, InsertTask(t, c, p, newId), CreateTask(p, newId, []));
  }

  lemma ShapeKeepsClientIds(t: Tables, t': Tables)
    requires UniqueClientIds(t) && SameShape(t, t')
    ensures UniqueClientIds(t')
  {
  }

  lemma {:induction false} RunHasUniqueClientIds(run: seq<Call>)
    ensures UniqueClientIds(Exec(run))
  {
    if run != [] {
      var front, last := run[..|run| - 1], run[|run| - 1];
      RunHasUniqueClientIds(front);
      StepEvolves(Exec(front), last.c, last.cmd);
      EvolutionKeepsClientIds(Exec(front), Exec(run), last.cmd);
    }
  }

  lemma {:induction false} TasksKeepTheirIdentity(run: seq<Call>, k: nat, id: TaskId)
    requires k <= |run| && id in Exec(run[..k]).tasks
    ensures id in Exec(run).tasks && KeepsIdentity(Exec(run[..k]).tasks[id], Exec(run).tasks[id])
  {
    if k == |run| {
      assert run[..k] == run;
    } else {
      var front, last := run[..|run| - 1], run[|run| - 1];
      assert front[..k] == run[..k];
      TasksKeepTheirIdentity(front, k, id);
      StepEvolves(Exec(front), last.c, last.cmd);
    }
  }

  /** Repeating a creation, at any later point of any run, never creates a second task. It is
      answered with the existing task exactly as long as that task still has the assignee it
      was created with: after a transfer or an escalation the same request is refused. */
  lemma {:induction false} RetriedCreation(run: seq<Call>, k: nat, id: TaskId, again: Call)
    requires k <= |run| && id in Exec(run[..k]).tasks && again.cmd.CreateTask?
    requires Exec(run[..k]).tasks[id].creator == again.c.me && again.cmd.p.clientId.Some?
    requires Exec(run[..k]).tasks[id].clientId == again.cmd.p.clientId
    requires Exec(run[..k]).tasks[id].title == again.cmd.p.title
    ensures id in Exec(run).tasks
    ensures Apply(Exec(run), again.c, again.cmd) ==
            if Exec(run).tasks[id].assignee == again.cmd.p.assignee
            then Ok(AddAudit(Exec(run), id, "create_task", again.c.me, again.c))
            else Err(InvalidArgument)
  {
    TasksKeepTheirIdentity(run, k, id);
    RunHasUniqueClientIds(run);
    RetryIsAnswered(Exec(run), id, again.c, again.cmd.p, again.cmd.newId, again.cmd.rows);
  }

  lemma RetryIsAnswered(t: Tables, id: TaskId, c: Context, p: NewTask, newId: TaskId, rows: seq<TaskId>)
    requires UniqueClientIds(t) && id in t.tasks && p.clientId.Some?
    requires t.tasks[id].creator == c.me && t.tasks[id].clientId == p.clientId && t.tasks[id].title == p.title
    ensures Create(t, c, p, newId, rows) ==
            if t.tasks[id].assignee == p.assignee then Ok(AddAudit(t, id, "create_task", c.me, c)) else Err(InvalidArgument)
  {
    assert HasClientId(t, id, c.me, p.clientId.value);
    forall other | HasClientId(t, other, c.me, p.clientId.value) ensures other == id {
      assert SameClientKey(t.tasks[other], t.tasks[id]);
    }
  }

  // ----- the dependency graph

  /** Edges join tasks, from a later one to an earlier one. */
  ghost predicate WellLinked(t: Tables) {
    && (forall id :: id in t.tasks ==> t.tasks[id].rowid < t.nextRow)
    && (forall e :: e in t.deps ==> e.0 in t.tasks && e.1 in t.tasks && t.tasks[e.1].rowid < t.tasks[e.0].rowid)
  }

  lemma {:induction false} EvolutionKeepsLinks(t: Tables, t': Tables, cmd: Command)
    requires WellLinked(t) && Evolves(t, t', cmd)
    ensures WellLinked(t')
  {
  }

  lemma {:induction false} RunIsWellLinked(run: seq<Call>)
    ensures WellLinked(Exec(run))
  {
    if run != [] {
      var front, last := run[..|run| - 1], run[|run| - 1];
      RunIsWellLinked(front);
      StepEvolves(Exec(front), last.c, last.cmd);
      EvolutionKeepsLinks(Exec(front), Exec(run), last.cmd);
    }
  }

  lemma {:induction false} ChainDescends(t: Tables, chain: seq<TaskId>)
    requires WellLinked(t) && IsChain(t.deps, chain) && |chain| > 1
    ensures chain[0] in t.tasks && chain[|chain| - 1] in t.tasks
    ensures t.tasks[chain[|chain| - 1]].rowid < t.tasks[chain[0]].rowid
  {
    var front := chain[..|chain| - 1];
    assert (chain[|chain| - 2], chain[|chain| - 1]) in t.deps;
    if |front| > 1 {
      assert forall i :: 0 < i < |front| ==> (front[i - 1], front[i]) == (chain[i - 1], chain[i]);
      ChainDescends(t, front);
    }
  }

  /** No reachable state has a dependency cycle: along every chain creation order descends. */
  lemma DependenciesAreAcyclic(run: seq<Call>, chain: seq<TaskId>)
    requires IsChain(Exec(run).deps, chain) && |chain| > 1
    ensures chain[0] != chain[|chain| - 1]
    ensures chain[0] in Exec(run).tasks && chain[|chain| - 1] in Exec(run).tasks
    ensures Exec(run).tasks[chain[|chain| - 1]].rowid < Exec(run).tasks[chain[0]].rowid
  {
    RunIsWellLinked(run);
    ChainDescends(Exec(run), chain);
  }

  /** Nothing lies beyond the depth limit. */
  ghost predicate ShortReach(t: Tables) {
    forall id :: id in t.tasks ==> Closed(t.deps, Within(t.deps, {id}, MAX_DEPENDENCY_DEPTH))
  }

  lemma {:induction false} WithinStaysInTasks(t: Tables, roots: set<TaskId>, k: nat)
    requires WellLinked(t) && roots <= t.tasks.Keys
    ensures Within(t.deps, roots, k) <= t.tasks.Keys
  {
    if k > 0 {
      WithinStaysInTasks(t, roots, k - 1);
    }
  }

  /** From a task that nothing depends on, one hop leads to its direct dependencies. */
  lemma {:induction false} WithinFromNewTask(deps: Deps, id: TaskId, roots: set<TaskId>, k: nat)
    requires Direct(deps, {id}) == roots
    ensures Within(deps, {id}, k + 1) == {id} + Within(deps, roots, k)
  {
    if k == 0 {
      assert Within(deps, {id}, 0) == {id};
    } else {
      WithinFromNewTask(deps, id, roots, k - 1);
      DirectOfUnion(deps, {id}, Within(deps, roots, k - 1));
      WithinGrows(deps, roots, 0, k);
    }
  }

  lemma DirectOfUnion(deps: Deps, a: set<TaskId>, b: set<TaskId>)
    ensures Direct(deps, a + b) == Direct(deps, a) + Direct(deps, b)
  {
  }

  lemma {:induction false} InsertKeepsShortReach(t: Tables, t': Tables, cmd: Command)
    requires WellLinked(t) && ShortReach(t) && Inserts(t, t', cmd)
    ensures ShortReach(t')
  {
    var n := cmd.newId;
    var roots := Elements(cmd.p.dependsOn);
    var more := set d | d in cmd.p.dependsOn :: (n, d);
    forall id | id in t'.tasks ensures Closed(t'.deps, Within(t'.deps, {id}, MAX_DEPENDENCY_DEPTH)) {
      if id == n {
        WithinStaysInTasks(t, roots, MAX_DEPENDENCY_DEPTH - 1);
        WithinIgnoresUnreached(t.deps, more, roots, MAX_DEPENDENCY_DEPTH - 1);
        assert Direct(t'.deps, {n}) == roots by {
          forall d | d in roots ensures d in Direct(t'.deps, {n}) {
            assert (n, d) in more;
            DirectMember(t'.deps, {n}, n, d);
          }
        }
        WithinFromNewTask(t'.deps, n, roots, MAX_DEPENDENCY_DEPTH - 1);
        var below := Within(t.deps, roots, MAX_DEPENDENCY_DEPTH - 1);
        DepthBoundsHops(t.deps, roots, MAX_DEPENDENCY_DEPTH);
        DirectOfMore(t.deps, more, below);
        DirectOfUnion(t'.deps, {n}, below);
        WithinGrows(t.deps, roots, 0, MAX_DEPENDENCY_DEPTH - 1);
      } else {
        WithinStaysInTasks(t, {id}, MAX_DEPENDENCY_DEPTH);
        WithinIgnoresUnreached(t.deps, more, {id}, MAX_DEPENDENCY_DEPTH);
        DirectOfMore(t.deps, more, Within(t.deps, {id}, MAX_DEPENDENCY_DEPTH));
      }
    }
  }

  lemma DirectOfMore(deps: Deps, more: Deps, tasks: set<TaskId>)
    requires forall e :: e in more ==> e.0 !in tasks
    ensures Direct(deps + more, tasks) == Direct(deps, tasks)
  {
    forall d | d in Direct(deps + more, tasks) ensures d in Direct(deps, tasks) {
      var e :| e in deps + more && e.0 in tasks && e.1 == d;
      DirectMember(deps, tasks, e.0, d);
    }
    forall d | d in Direct(deps, tasks) ensures d in Direct(deps + more, tasks) {
      var e :| e in deps && e.0 in tasks && e.1 == d;
      DirectMember(deps + more, tasks, e.0, d);
    }
  }

  lemma {:induction false} RunHasShortReach(run: seq<Call>)
    ensures ShortReach(Exec(run))
  {
    if run != [] {
      var front, last := run[..|run| - 1], run[|run| - 1];
      RunHasShortReach(front);
      RunIsWellLinked(front);
      StepEvolves(Exec(front), last.c, last.cmd);
      if Inserts(Exec(front), Exec(run), last.cmd) {
        InsertKeepsShortReach(Exec(front), Exec(run), last.cmd);
      }
    }
  }

  /** In every reachable state every transitive dependency of a task, however it is
      reached, can be reached in at most 8 hops. */
  lemma {:induction false} DependenciesAreShallow(run: seq<Call>, chain: seq<TaskId>)
    requires IsChain(Exec(run).deps, chain) && chain[0] in Exec(run).tasks
    ensures exists short :: IsChain(Exec(run).deps, short) && short[0] == chain[0]
                            && short[|short| - 1] == chain[|chain| - 1] && |short| <= MAX_DEPENDENCY_DEPTH + 1
  {
    RunHasShortReach(run);
    var deps := Exec(run).deps;
    var reach := Within(deps, {chain[0]}, MAX_DEPENDENCY_DEPTH);
    WithinGrows(deps, {chain[0]}, 0, MAX_DEPENDENCY_DEPTH);
    ChainStaysInClosed(deps, reach, chain);
    var short := ChainTo(deps, {chain[0]}, MAX_DEPENDENCY_DEPTH, chain[|chain| - 1]);
  }

  // ----- dependency gating

  predicate Started(s: TaskState) {
    s == InProgress || s == PendingApproval || s == Completed || s == Failed
  }

  /** A task that has started has all its dependencies completed. */
  ghost predicate Gated(t: Tables) {
    forall e :: e in t.deps && e.0 in t.tasks && e.1 in t.tasks && Started(t.tasks[e.0].state) ==>
                  t.tasks[e.1].state == Completed
  }

  /** The guard the code does not have: approval is asked for a task whose dependencies are
      all completed. */
  ghost predicate ApprovalIsGuarded(t: Tables, c: Context, cmd: Command) {
    cmd.RequestTaskApproval? && Apply(t, c, cmd).Ok? ==> DependenciesMet(t, cmd.id)
  }

  lemma {:induction false} GuardedEvolutionStaysGated(t: Tables, t': Tables, cmd: Command)
    requires WellLinked(t) && Gated(t) && Evolves(t, t', cmd)
    requires forall id :: id in t.tasks && cmd.RequestTaskApproval? && t'.tasks[id].state != t.tasks[id].state ==>
                            DependenciesMet(t, id)
    ensures Gated(t')
  {
    forall e | e in t'.deps && e.0 in t'.tasks && e.1 in t'.tasks && Started(t'.tasks[e.0].state)
      ensures t'.tasks[e.1].state == Completed
    {
      if e in t.deps {
        assert Moves(t, cmd, e.0, t.tasks[e.0].state, t'.tasks[e.0].state);
        assert Started(t.tasks[e.0].state) || DependenciesMet(t, e.0);
        assert t.tasks[e.1].state == Completed;
        assert Moves(t, cmd, e.1, t.tasks[e.1].state, t'.tasks[e.1].state);
      }
    }
  }

  /** One step keeps gating exactly when it is not an unguarded approval request. */
  lemma {:induction false} StepStaysGatedExactlyWhen(t: Tables, c: Context, cmd: Command)
    requires WellLinked(t) && Gated(t)
    ensures Gated(Step(t, c, cmd)) <==> ApprovalIsGuarded(t, c, cmd)
  {
    if ApprovalIsGuarded(t, c, cmd) {
      StepEvolves(t, c, cmd);
      GuardedEvolutionStaysGated(t, Step(t, c, cmd), cmd);
    } else {
      var t' := Step(t, c, cmd);
      var e :| e in t.deps && e.0 == cmd.id && e.1 in t.tasks && t.tasks[e.1].state != Completed;
      assert e.0 != e.1;
      assert t'.tasks[e.0].state == PendingApproval && t'.tasks[e.1].state == t.tasks[e.1].state;
      assert e in t'.deps;
    }
  }

  /** Every state along the run is gated. */
  ghost predicate GatedThroughout(run: seq<Call>) {
    Gated(Exec(run)) && (run == [] || GatedThroughout(run[..|run| - 1]))
  }

  /** Every approval request granted along the run was guarded. */
  ghost predicate GuardedThroughout(run: seq<Call>) {
    run == [] || (GuardedThroughout(run[..|run| - 1])
                  && ApprovalIsGuarded(Exec(run[..|run| - 1]), run[|run| - 1].c, run[|run| - 1].cmd))
  }

  /** Over whole runs: every state along the run is gated if and only if no approval request
      was granted to a task with an unfinished dependency. */
  lemma {:induction false} RunIsGatedExactlyWhen(run: seq<Call>)
    ensures GatedThroughout(run) <==> GuardedThroughout(run)
  {
    if run != [] {
      var front, last := run[..|run| - 1], run[|run| - 1];
      RunIsGatedExactlyWhen(front);
      RunIsWellLinked(front);
      if GatedThroughout(front) {
        StepStaysGatedExactlyWhen(Exec(front), last.c, last.cmd);
      }
    }
  }

  /** The documented use, from in_progress, is always guarded. */
  lemma ApprovalFromInProgressIsGuarded(t: Tables, c: Context, cmd: Command)
    requires WellLinked(t) && Gated(t)
    requires cmd.RequestTaskApproval? && cmd.id in t.tasks && t.tasks[cmd.id].state == InProgress
    ensures ApprovalIsGuarded(t, c, cmd)
  {
  }

  /** The completed tasks of a gated state are closed under transitive dependency. */
  lemma {:induction false} CompletedIsClosed(t: Tables, chain: seq<TaskId>)
    requires WellLinked(t) && Gated(t) && IsChain(t.deps, chain)
    requires chain[0] in t.tasks && Started(t.tasks[chain[0]].state) && |chain| > 1
    ensures chain[|chain| - 1] in t.tasks && t.tasks[chain[|chain| - 1]].state == Completed
  {
    var front := chain[..|chain| - 1];
    var e := (chain[|chain| - 2], chain[|chain| - 1]);
    assert e in t.deps;
    if |front| > 1 {
      assert forall i :: 0 < i < |front| ==> (front[i - 1], front[i]) == (chain[i - 1], chain[i]);
      CompletedIsClosed(t, front);
    }
  }

  /** The unguarded path: a submitted task with an unfinished dependency, sent for approval
      and approved, is completed while its dependency is not. */
  lemma {:induction false} ApprovalSkipsTheGate(t: Tables, c: Context, c': Context, id: TaskId, dep: TaskId)
    requires WellLinked(t) && (id, dep) in t.deps
    requires t.tasks[id].state == Submitted && t.tasks[dep].state == Submitted && t.tasks[id].creator == c.me
    requires RequireActive(t, c'.me).None? && c'.me != c.me
    ensures var asked := Step(t, c, RequestTaskApproval(id, c'.me));
            var done := Step(asked, c', ApproveTask(id));
            && (id, dep) in done.deps && done.tasks[dep].state == Submitted
            && done.tasks[id].state == Completed && done.tasks[id].result == None
  {
    assert id != dep;
  }

  /** Two active accounts of one organization. */
  function TwoAccounts(u: User, v: User): Settings {
    Settings(map[u := Account(true, "org"), v := Account(true, "org")], map[], map[], {})
  }

  /** u creates a task and one that depends on it. */
  function DependentRun(c: Context, c': Context): seq<Call> {
    [Call(c, ChangeSettings(TwoAccounts(c.me, c'.me)))]
    + [Call(c, CreateTask(NewTask(None, "first", c.me, None, []), "first", []))]
    + [Call(c, CreateTask(NewTask(None, "second", c.me, None, ["first"]), "second", []))]
  }

  /** And u asks v to approve the second, and v does. */
  function SkippingRun(c: Context, c': Context): seq<Call> {
    DependentRun(c, c') + [Call(c, RequestTaskApproval("second", c'.me))] + [Call(c', ApproveTask("second"))]
  }

  lemma ExecAppend(run: seq<Call>, call: Call)
    ensures Exec(run + [call]) == Step(Exec(run), call.c, call.cmd)
  {
    assert (run + [call])[..|run|] == run;
  }

  lemma {:induction false} CreationIsGranted(t: Tables, c: Context, p: NewTask, newId: TaskId)
    requires RequireActive(t, c.me).None? && p.assignee == c.me && p.clientId == None && t.budgets == map[] && t.deps == {}
    requires newId !in t.tasks && forall d :: d in p.dependsOn ==> d in t.tasks
    ensures CreateRefusal(t, c, p, newId).None?
    ensures var after := Step(t, c, CreateTask(p, newId, []));
            && after.settings == t.settings && after.budgets == t.budgets
            && after.deps == (set d | d in p.dependsOn :: (newId, d))
            && newId in after.tasks && after.tasks[newId].state == Submitted && after.tasks[newId].creator == c.me
            && forall id :: id in t.tasks ==> id in after.tasks && after.tasks[id].state == t.tasks[id].state
  {
    var roots := Elements(p.dependsOn);
    assert Direct({}, Within({}, roots, 0)) == {};
    assert Level({}, roots, 1) == {};
    StepHasCoreShape(t, c, CreateTask(p, newId, []));
  }

  lemma {:induction false} SecondDependsOnFirst(c: Context, c': Context)
    ensures var t := Exec(DependentRun(c, c'));
            && t.settings == TwoAccounts(c.me, c'.me) && ("second", "first") in t.deps
            && {"first", "second"} <= t.tasks.Keys && t.tasks["second"].creator == c.me
            && t.tasks["second"].state == Submitted && t.tasks["first"].state == Submitted
  {
    var first, second := NewTask(None, "first", c.me, None, []), NewTask(None, "second", c.me, None, ["first"]);
    var run1 := [Call(c, ChangeSettings(TwoAccounts(c.me, c'.me)))];
    var run2 := run1 + [Call(c, CreateTask(first, "first", []))];
    assert [] + run1 == run1;
    ExecAppend([], run1[0]);
    ExecAppend(run1, Call(c, CreateTask(first, "first", [])));
    CreationIsGranted(Exec(run1), c, first, "first");
    assert (set d | d in first.dependsOn :: ("first", d)) == {};
    ExecAppend(run2, Call(c, CreateTask(second, "second", [])));
    CreationIsGranted(Exec(run2), c, second, "second");
    assert "first" in second.dependsOn;
  }

  /** The gate is skipped, and the task completed without a result, in a run of five calls from
      the empty database. */
  lemma {:induction false} GateIsSkippedFromScratch(c: Context, c': Context)
    requires c.me != c'.me
    ensures var t := Exec(SkippingRun(c, c'));
            && ("second", "first") in t.deps && {"first", "second"} <= t.tasks.Keys
            && t.tasks["first"].state == Submitted
            && t.tasks["second"].state == Completed && t.tasks["second"].result == None
  {
    var run3 := DependentRun(c, c');
    SecondDependsOnFirst(c, c');
    RunIsWellLinked(run3);
    ApprovalSkipsTheGate(Exec(run3), c, c', "second", "first");
    ExecAppend(run3, Call(c, RequestTaskApproval("second", c'.me)));
    ExecAppend(run3 + [Call(c, RequestTaskApproval("second", c'.me))], Call(c', ApproveTask("second")));
    RunIsWellLinked(SkippingRun(c, c'));
  }

  // ----- results

  /** A result is stored only with a finished task. */
  ghost predicate ResultsAreFinal(t: Tables) {
    forall id :: id in t.tasks && t.tasks[id].result.Some? ==> t.tasks[id].state == Completed || t.tasks[id].state == Failed
  }

  lemma CoreKeepsResultsFinal(t: Tables, c: Context, cmd: Command)
    requires ResultsAreFinal(t) && Apply(t, c, cmd).Ok?
    ensures ResultsAreFinal(Core(t, c, cmd))
  {
  }

  lemma ResultsUpToShape(core: Tables, t': Tables)
    requires ResultsAreFinal(core) && SameShape(core, t')
    ensures ResultsAreFinal(t')
  {
  }

  lemma {:induction false} RunResultsAreFinal(run: seq<Call>)
    ensures ResultsAreFinal(Exec(run))
  {
    if run != [] {
      var t, last := Exec(run[..|run| - 1]), run[|run| - 1];
      RunResultsAreFinal(run[..|run| - 1]);
      if Apply(t, last.c, last.cmd).Ok? {
        CoreKeepsResultsFinal(t, last.c, last.cmd);
        StepHasCoreShape(t, last.c, last.cmd);
        ResultsUpToShape(Core(t, last.c, last.cmd), Step(t, last.c, last.cmd));
      }
    }
  }

  /** The result a command carries for a task it finishes. */
  function Carries(cmd: Command, id: TaskId): Option<string> {
    if cmd.UpdateTaskState? && cmd.id == id && cmd.state != Canceled then cmd.result else None
  }

  lemma {:induction false} CoreSetsTheResult(t: Tables, c: Context, cmd: Command, id: TaskId)
    requires Apply(t, c, cmd).Ok? && ResultsAreFinal(t) && id in t.tasks && id in Core(t, c, cmd).tasks
    requires Terminal(Core(t, c, cmd).tasks[id].state)
    ensures Core(t, c, cmd).tasks[id].result == if Terminal(t.tasks[id].state) then t.tasks[id].result else Carries(cmd, id)
  {
    if ChangesState(cmd) {
      CoreIsStateChange(t, c, cmd);
    }
  }

  /** A finished task keeps its result, and the command that finishes a task gives it the one
      it carries. */
  lemma {:induction false} StepSetsTheResult(t: Tables, c: Context, cmd: Command, id: TaskId)
    requires ResultsAreFinal(t) && id in t.tasks && id in Step(t, c, cmd).tasks && Terminal(Step(t, c, cmd).tasks[id].state)
    ensures Step(t, c, cmd).tasks[id].result == if Terminal(t.tasks[id].state) then t.tasks[id].result else Carries(cmd, id)
  {
    if Apply(t, c, cmd).Ok? {
      StepHasCoreShape(t, c, cmd);
      CoreSetsTheResult(t, c, cmd, id);
    }
  }

  predicate Done(t: Tables, id: TaskId) {
    id in t.tasks && Terminal(t.tasks[id].state)
  }

  /** The tables after the first k calls. */
  ghost function After(run: seq<Call>, k: nat): Tables
    requires k <= |run|
  {
    if k == 0 then EMPTY_TABLES else Step(After(run, k - 1), run[k - 1].c, run[k - 1].cmd)
  }

  lemma {:induction false} AfterIsExec(run: seq<Call>, k: nat)
    requires k <= |run|
    ensures After(run, k) == Exec(run[..k])
    ensures k == |run| ==> After(run, k) == Exec(run)
  {
    if k > 0 {
      AfterIsExec(run, k - 1);
      assert run[..k][..k - 1] == run[..k - 1];
    }
    assert k == |run| ==> run[..k] == run;
  }

  /** Call k finished the task. */
  ghost predicate Finishes(run: seq<Call>, k: nat, id: TaskId) {
    && k < |run| && id in After(run, k).tasks && !Done(After(run, k), id) && Done(After(run, k + 1), id)
  }

  lemma AfterResultsAreFinal(run: seq<Call>, k: nat)
    requires k <= |run|
    ensures ResultsAreFinal(After(run, k))
  {
    AfterIsExec(run, k);
    RunResultsAreFinal(run[..k]);
  }

  lemma StepKeepsDone(t: Tables, c: Context, cmd: Command, id: TaskId)
    requires ResultsAreFinal(t) && Done(t, id)
    ensures Done(Step(t, c, cmd), id) && Step(t, c, cmd).tasks[id].state == t.tasks[id].state
    ensures Step(t, c, cmd).tasks[id].result == t.tasks[id].result
  {
    TerminalIsAbsorbing(t, c, cmd, id);
    StepSetsTheResult(t, c, cmd, id);
  }

  lemma {:induction false} DoneStaysDone(run: seq<Call>, j: nat, k: nat, id: TaskId)
    requires j <= k <= |run| && Done(After(run, j), id)
    ensures Done(After(run, k), id) && After(run, k).tasks[id].state == After(run, j).tasks[id].state
    ensures After(run, k).tasks[id].result == After(run, j).tasks[id].result
  {
    if j < k {
      DoneStaysDone(run, j, k - 1, id);
      AfterResultsAreFinal(run, k - 1);
      StepKeepsDone(After(run, k - 1), run[k - 1].c, run[k - 1].cmd, id);
    }
  }

  /** Every finished task was finished by one of the calls. */
  lemma {:induction false} FinishedTasksWereFinished(run: seq<Call>, n: nat, id: TaskId) returns (k: nat)
    requires n <= |run| && Done(After(run, n), id)
    ensures k < n && Finishes(run, k, id)
  {
    if Done(After(run, n - 1), id) {
      k := FinishedTasksWereFinished(run, n - 1, id);
    } else {
      NewTasksAreNotDone(After(run, n - 1), run[n - 1].c, run[n - 1].cmd, id);
      k := n - 1;
    }
  }

  lemma {:induction false} NewTasksAreNotDone(t: Tables, c: Context, cmd: Command, id: TaskId)
    requires Done(Step(t, c, cmd), id)
    ensures id in t.tasks
  {
    StepEvolves(t, c, cmd);
  }

  /** A finished task has the result that the call that finished it carried. */
  lemma {:induction false} ResultIsThatOfTheFinish(run: seq<Call>, k: nat, id: TaskId)
    requires Finishes(run, k, id)
    ensures Done(Exec(run), id) && Exec(run).tasks[id].state == After(run, k + 1).tasks[id].state
    ensures Exec(run).tasks[id].result == Carries(run[k].cmd, id)
  {
    AfterIsExec(run, |run|);
    AfterResultsAreFinal(run, k);
    StepSetsTheResult(After(run, k), run[k].c, run[k].cmd, id);
    DoneStaysDone(run, k + 1, |run|, id);
  }

  /** In every run a completed or failed task has result r if and only if the call that finished
      it was an update of its state that carried r. One without a result, which the command help
      rules out, is exactly one that was finished by an approval, or by an update without one. */
  lemma {:induction false} FinishedTaskHasAResultExactlyWhen(run: seq<Call>, id: TaskId, k: nat)
    requires Finishes(run, k, id)
    requires id in Exec(run).tasks && Exec(run).tasks[id].state != Canceled
    ensures var cmd := run[k].cmd;
            && (forall r :: Exec(run).tasks[id].result == Some(r) <==>
                  cmd.UpdateTaskState? && cmd.id == id && cmd.result == Some(r))
            && (Exec(run).tasks[id].result == None <==>
                  || (cmd.ApproveTask? && cmd.id == id)
                  || (cmd.UpdateTaskState? && cmd.id == id && cmd.result == None))
  {
    ResultIsThatOfTheFinish(run, k, id);
    var t, call := After(run, k), run[k];
    StepEvolves(t, call.c, call.cmd);
    assert Moves(t, call.cmd, id, t.tasks[id].state, After(run, k + 1).tasks[id].state);
  }

  // ----- a run from the empty database that ends without a result

  const ONE_TASK := "task"

  /** u creates a task. */
  function CreatingRun(c: Context): seq<Call> {
    [Call(c, ChangeSettings(TwoAccounts(c.me, c.me)))]
    + [Call(c, CreateTask(NewTask(None, ONE_TASK, c.me, None, []), ONE_TASK, []))]
  }

  /** And u starts it, and completes it without a result. */
  function SilentRun(c: Context): seq<Call> {
    CreatingRun(c) + [Call(c, UpdateTaskState(ONE_TASK, InProgress, None, []))]
    + [Call(c, UpdateTaskState(ONE_TASK, Completed, None, []))]
  }

  lemma {:induction false} ChangeIsGranted(t: Tables, c: Context, id: TaskId, state: TaskState)
    requires id in t.tasks && t.tasks[id].creator == c.me && AllowedTransition(t.tasks[id].state, state) && t.deps == {}
    ensures var after := Step(t, c, UpdateTaskState(id, state, None, []));
            && after.deps == {} && id in after.tasks && after.tasks[id].creator == c.me
            && after.tasks[id].state == state && after.tasks[id].result == None
  {
    assert UpdateRefusal(t, c, id, state).None?;
    StepHasCoreShape(t, c, UpdateTaskState(id, state, None, []));
  }

  lemma {:induction false} TaskIsCreated(c: Context, id: TaskId)
    requires id == ONE_TASK
    ensures var t := Exec(CreatingRun(c));
            t.deps == {} && id in t.tasks && t.tasks[id].state == Submitted && t.tasks[id].creator == c.me
  {
    var p := NewTask(None, ONE_TASK, c.me, None, []);
    var start := [Call(c, ChangeSettings(TwoAccounts(c.me, c.me)))];
    assert [] + start == start;
    ExecAppend([], start[0]);
    ExecAppend(start, Call(c, CreateTask(p, ONE_TASK, [])));
    CreationIsGranted(Exec(start), c, p, ONE_TASK);
    assert (set d | d in p.dependsOn :: (id, d)) == {};
  }

  /** A task is completed without a result by an update, in four calls from the empty database. */
  lemma {:induction false} CompletedWithoutAResult(c: Context)
    ensures var t := Exec(SilentRun(c));
            ONE_TASK in t.tasks && t.tasks[ONE_TASK].state == Completed && t.tasks[ONE_TASK].result == None
  {
    var run := CreatingRun(c);
    var begin := Call(c, UpdateTaskState(ONE_TASK, InProgress, None, []));
    TaskIsCreated(c, ONE_TASK);
    ExecAppend(run, begin);
    ChangeIsGranted(Exec(run), c, ONE_TASK, InProgress);
    ExecAppend(run + [begin], Call(c, UpdateTaskState(ONE_TASK, Completed, None, [])));
    ChangeIsGranted(Exec(run + [begin]), c, ONE_TASK, Completed);
  }
}
