/** Who may do what with a task: the answers and effects of the commands in terms of the
    columns of the tables, and what every run says about the callers who moved a task. */
module CoordinationAccess {
  import opened Wrappers
  import opened Listing
  import opened DependencyGraph
  import opened TaskTables
  import opened Coordination

  /** The commands on an existing task. */
  predicate IsOnTask(cmd: Command) {
    ChangesState(cmd) || cmd.TransferTask?
  }

  /** The caller created the task or has it; or, to update its state, is its delegatee until a
      later time than now; or, to decide on it, is the approver it names. */
  ghost predicate IsEntitled(t: Tables, c: Context, cmd: Command)
    requires IsOnTask(cmd)
  {
    && cmd.id in t.tasks
    && if cmd.ApproveTask? || cmd.RejectTask? then t.tasks[cmd.id].approver == Some(c.me)
       else || c.me == t.tasks[cmd.id].creator || c.me == t.tasks[cmd.id].assignee
            || (cmd.UpdateTaskState? && exists until :: Delegation(c.me, cmd.id, until) in t.settings.delegations
                                                        && c.delegationNow < until)
  }

  /** Anyone else is told that there is no such task, whether there is one or not, and nobody
      else is. */
  lemma NotFoundExactlyWhen(t: Tables, c: Context, cmd: Command)
    requires IsOnTask(cmd)
    ensures Apply(t, c, cmd) == Err(TaskNotFound) <==> !IsEntitled(t, c, cmd)
  {
    if cmd.UpdateTaskState? {
      DelegationIsHeld(t, c, cmd.id);
    }
  }

  lemma DelegationIsHeld(t: Tables, c: Context, id: TaskId)
    ensures Delegated(t, id, c) <==>
            exists until :: Delegation(c.me, id, until) in t.settings.delegations && c.delegationNow < until
  {
    if Delegated(t, id, c) {
      var d :| d in t.settings.delegations && d.delegatee == c.me && d.task == id && d.expiresAt > c.delegationNow;
      assert d == Delegation(c.me, id, d.expiresAt);
    }
  }

  // ----- what is granted

  predicate IsActive(t: Tables, u: User) {
    u in t.settings.accounts && t.settings.accounts[u].active
  }

  /** The two accounts are of one organization, or of two that let messages out and in. */
  predicate MayReach(t: Tables, u: User, v: User) {
    && u in t.settings.accounts && v in t.settings.accounts
    && var (from, to) := (t.settings.accounts[u].org, t.settings.accounts[v].org);
       || from == to
       || (&& from in t.settings.orgs && t.settings.orgs[from].outgoing
           && to in t.settings.orgs && t.settings.orgs[to].incoming)
  }

  /** No limit, or fewer unfinished tasks than the limit. */
  predicate HasSpace(t: Tables, u: User) {
    u !in t.budgets || t.budgets[u].tasks == None
    || |set id | id in t.tasks && t.tasks[id].assignee == u
                 && t.tasks[id].state in {Submitted, InProgress, PendingApproval}| < t.budgets[u].tasks.value
  }

  /** What it takes to give a task to someone. */
  predicate MayAssign(t: Tables, u: User, v: User) {
    IsActive(t, v) && MayReach(t, u, v) && HasSpace(t, v)
  }

  lemma UnfinishedAreActive(t: Tables, u: User)
    ensures HasSpace(t, u) <==> HasRoom(t, u)
  {
    assert ActiveTasks(t, u) == set id | id in t.tasks && t.tasks[id].assignee == u
                                         && t.tasks[id].state in {Submitted, InProgress, PendingApproval};
  }

  /** The caller has used the client id for this task. */
  predicate IsUnder(t: Tables, id: TaskId, u: User, clientId: Option<string>) {
    id in t.tasks && clientId.Some? && t.tasks[id].creator == u && t.tasks[id].clientId == clientId
  }

  /** The creation repeats one whose task still has the assignee it asks for. */
  ghost predicate Repeats(t: Tables, c: Context, cmd: Command) {
    cmd.CreateTask? && exists id :: IsUnder(t, id, c.me, cmd.p.clientId) && t.tasks[id].assignee == cmd.p.assignee
                                    && t.tasks[id].title == cmd.p.title
  }

  /** What it takes to be granted. A creation needs an unused client id, an assignee who may be
      given the task, dependencies that exist, none of theirs eight hops away from them, and a
      random id that is not taken. States change along the state machine, and to in_progress only
      past the dependencies. Approval is asked of somebody else with an active account. */
  ghost predicate IsGranted(t: Tables, c: Context, cmd: Command) {
    && (IsOnTask(cmd) ==> IsEntitled(t, c, cmd))
    && match cmd
       case CreateTask(p, newId, _) =>
         || Repeats(t, c, cmd)
         || (&& (forall id :: !IsUnder(t, id, c.me, p.clientId)) && MayAssign(t, c.me, p.assignee)
             && (forall d :: d in p.dependsOn ==> d in t.tasks)
             && !(exists d :: IsAway(t.deps, Elements(p.dependsOn), 8, d)) && newId !in t.tasks)
       case UpdateTaskState(id, state, _, _) =>
         && (t.tasks[id].state, state) in {(Submitted, InProgress), (Submitted, Canceled), (InProgress, Completed),
                                           (InProgress, Failed), (InProgress, Canceled)}
         && (state == InProgress ==> forall d :: (id, d) in t.deps && d in t.tasks ==> t.tasks[d].state == Completed)
       case TransferTask(id, to, _) =>
         t.tasks[id].state in {Submitted, InProgress, PendingApproval} && MayAssign(t, c.me, to)
       case RequestTaskApproval(id, approver) =>
         t.tasks[id].state in {Submitted, InProgress} && IsActive(t, approver) && approver != c.me
       case ApproveTask(id) => t.tasks[id].state == PendingApproval
       case RejectTask(id) => t.tasks[id].state == PendingApproval
       case SetAgentBudget(u, _) => u in t.settings.accounts && t.settings.accounts[u].org == c.me
       case ChangeSettings(_) => true
  }

  lemma UsedExactlyWhen(t: Tables, u: User, p: NewTask)
    ensures p.clientId.Some? && ClientIdUsed(t, u, p.clientId.value) <==> exists id :: IsUnder(t, id, u, p.clientId)
  {
    forall id ensures IsUnder(t, id, u, p.clientId) <==> p.clientId.Some? && HasClientId(t, id, u, p.clientId.value) {
    }
  }

  lemma RepeatsExactlyWhen(t: Tables, c: Context, cmd: Command)
    requires cmd.CreateTask?
    ensures SameAsExisting(t, c.me, cmd.p) <==> Repeats(t, c, cmd)
  {
    forall id ensures IsUnder(t, id, c.me, cmd.p.clientId) <==>
                      cmd.p.clientId.Some? && HasClientId(t, id, c.me, cmd.p.clientId.value)
    {
    }
  }

  lemma {:induction false} CreationIsGrantedExactlyWhen(t: Tables, c: Context, cmd: Command)
    requires cmd.CreateTask?
    ensures Apply(t, c, cmd).Ok? <==> IsGranted(t, c, cmd)
  {
    UnfinishedAreActive(t, cmd.p.assignee);
    CutOffExactlyWhen(t.deps, Elements(cmd.p.dependsOn), 8);
    UsedExactlyWhen(t, c.me, cmd.p);
    RepeatsExactlyWhen(t, c, cmd);
  }

  lemma {:induction false} UpdateIsGrantedExactlyWhen(t: Tables, c: Context, cmd: Command)
    requires cmd.UpdateTaskState?
    ensures Apply(t, c, cmd).Ok? <==> IsGranted(t, c, cmd)
  {
    DelegationIsHeld(t, c, cmd.id);
    if DependenciesMet(t, cmd.id) {
      forall d | (cmd.id, d) in t.deps && d in t.tasks ensures t.tasks[d].state == Completed {
        var e := (cmd.id, d);
        assert e in t.deps && e.0 == cmd.id && e.1 in t.tasks;
      }
    }
  }

  /** Every command is granted exactly when the columns say so. */
  lemma {:induction false} GrantedExactlyWhen(t: Tables, c: Context, cmd: Command)
    ensures Apply(t, c, cmd).Ok? <==> IsGranted(t, c, cmd)
  {
    if cmd.CreateTask? {
      CreationIsGrantedExactlyWhen(t, c, cmd);
    } else if cmd.UpdateTaskState? {
      UpdateIsGrantedExactlyWhen(t, c, cmd);
    } else if cmd.TransferTask? {
      UnfinishedAreActive(t, cmd.to);
    }
  }

  /** Why a creation or a transfer may be refused: a refusal names a condition that does fail. */
  ghost predicate AssignmentFails(t: Tables, c: Context, cmd: Command, e: ApiError)
    requires cmd.CreateTask? || cmd.TransferTask?
  {
    var to := if cmd.CreateTask? then cmd.p.assignee else cmd.to;
    match e
    case UserNotFound => to !in t.settings.accounts
    case RecipientNotFound => to in t.settings.accounts && !t.settings.accounts[to].active
    case PolicyDenied => !MayReach(t, c.me, to)
    case QuotaExceeded =>
      !HasSpace(t, to) || (cmd.CreateTask? && exists d :: IsAway(t.deps, Elements(cmd.p.dependsOn), 8, d))
    case TaskNotFound => cmd.TransferTask? && !IsEntitled(t, c, cmd)
    case TaskStateInvalid =>
      cmd.TransferTask? && cmd.id in t.tasks && t.tasks[cmd.id].state in {Completed, Failed, Canceled}
    case InvalidArgument =>
      cmd.CreateTask? && ((exists id :: IsUnder(t, id, c.me, cmd.p.clientId))
                          || exists d :: d in cmd.p.dependsOn && d !in t.tasks)
    case DependencyNotMet => false
    case InternalError => cmd.CreateTask? && cmd.newId in t.tasks
  }

  lemma {:induction false} RefusedAssignmentSaysWhy(t: Tables, c: Context, cmd: Command)
    requires cmd.CreateTask? || cmd.TransferTask?
    ensures Apply(t, c, cmd).Err? ==> AssignmentFails(t, c, cmd, Apply(t, c, cmd).error)
  {
    UnfinishedAreActive(t, if cmd.CreateTask? then cmd.p.assignee else cmd.to);
    if cmd.CreateTask? {
      CutOffExactlyWhen(t.deps, Elements(cmd.p.dependsOn), 8);
      UsedExactlyWhen(t, c.me, cmd.p);
    }
  }

  /** Why a change of state, or an approval, may be refused. */
  ghost predicate ChangeFails(t: Tables, c: Context, cmd: Command, e: ApiError)
    requires ChangesState(cmd)
  {
    if !IsEntitled(t, c, cmd) then e == TaskNotFound
    else
      var from := t.tasks[cmd.id].state;
      match e
      case TaskStateInvalid =>
        if cmd.UpdateTaskState?
        then (from, cmd.state) !in {(Submitted, InProgress), (Submitted, Canceled), (InProgress, Completed),
                                    (InProgress, Failed), (InProgress, Canceled)}
        else if cmd.RequestTaskApproval? then from !in {Submitted, InProgress}
        else from != PendingApproval
      case DependencyNotMet =>
        cmd.UpdateTaskState? && cmd.state == InProgress
        && exists e :: e in t.deps && e.0 == cmd.id && e.1 in t.tasks && t.tasks[e.1].state != Completed
      case UserNotFound => cmd.RequestTaskApproval? && cmd.approver !in t.settings.accounts
      case RecipientNotFound =>
        cmd.RequestTaskApproval? && cmd.approver in t.settings.accounts && !t.settings.accounts[cmd.approver].active
      case InvalidArgument => cmd.RequestTaskApproval? && cmd.approver == c.me
      case _ => false
  }

  lemma {:induction false} RefusedChangeSaysWhy(t: Tables, c: Context, cmd: Command)
    requires ChangesState(cmd)
    ensures Apply(t, c, cmd).Err? ==> ChangeFails(t, c, cmd, Apply(t, c, cmd).error)
  {
    if cmd.UpdateTaskState? {
      DelegationIsHeld(t, c, cmd.id);
    }
  }

  // ----- who moved a task, over whole runs

  lemma {:induction false} StateChangeIsAuthorized(t: Tables, c: Context, cmd: Command, id: TaskId)
    requires id in t.tasks && id in Step(t, c, cmd).tasks && Step(t, c, cmd).tasks[id].state != t.tasks[id].state
    ensures ChangesState(cmd) && cmd.id == id && IsEntitled(t, c, cmd)
  {
    StepEvolves(t, c, cmd);
    NotFoundExactlyWhen(t, c, cmd);
  }

  /** The approver is named by a request, and otherwise stays. */
  lemma {:induction false} ApproverIsAsRequested(t: Tables, c: Context, cmd: Command, id: TaskId)
    requires id in t.tasks && id in Step(t, c, cmd).tasks
    ensures var task := Step(t, c, cmd).tasks[id];
            || (task.approver == t.tasks[id].approver && (cmd.RequestTaskApproval? ==> task.state == t.tasks[id].state))
            || (cmd.RequestTaskApproval? && cmd.id == id && IsGranted(t, c, cmd) && task.approver == Some(cmd.approver))
  {
    if Apply(t, c, cmd).Ok? {
      GrantedExactlyWhen(t, c, cmd);
      StepHasCoreShape(t, c, cmd);
      if ChangesState(cmd) {
        CoreIsStateChange(t, c, cmd);
      }
    }
  }

  /** A task that waits for an approval did so before the call, for the same approver, or the
      call is the request. */
  ghost predicate WaitsOrAsks(t: Tables, call: Call, t': Tables, id: TaskId) {
    id in t'.tasks && t'.tasks[id].state == PendingApproval ==>
      && id in t.tasks
      && if t.tasks[id].state == PendingApproval then t'.tasks[id].approver == t.tasks[id].approver
         else call.cmd.RequestTaskApproval? && call.cmd.id == id && IsGranted(t, call.c, call.cmd)
              && t'.tasks[id].approver == Some(call.cmd.approver)
  }

  lemma {:induction false} WaitedOrAsked(t: Tables, c: Context, cmd: Command, id: TaskId)
    requires id in Step(t, c, cmd).tasks && Step(t, c, cmd).tasks[id].state == PendingApproval
    ensures id in t.tasks
    ensures t.tasks[id].state == PendingApproval || (cmd.RequestTaskApproval? && cmd.id == id)
    ensures t.tasks[id].state != PendingApproval ==> Step(t, c, cmd).tasks[id].state != t.tasks[id].state
  {
    StepEvolves(t, c, cmd);
  }

  lemma {:induction false} StepWaitsOrAsks(t: Tables, c: Context, cmd: Command, id: TaskId)
    ensures WaitsOrAsks(t, Call(c, cmd), Step(t, c, cmd), id)
  {
    if id in Step(t, c, cmd).tasks && Step(t, c, cmd).tasks[id].state == PendingApproval {
      WaitedOrAsked(t, c, cmd, id);
      ApproverIsAsRequested(t, c, cmd, id);
      var t' := Step(t, c, cmd);
      assert cmd.RequestTaskApproval? && cmd.id == id && t'.tasks[id].state != t.tasks[id].state ==>
               IsGranted(t, c, cmd) && t'.tasks[id].approver == Some(cmd.approver);
    }
  }

  /** The tables after each number of calls. */
  ghost function History(run: seq<Call>): (states: seq<Tables>)
    ensures |states| == |run| + 1
    ensures forall k :: 0 <= k <= |run| ==> states[k] == After(run, k)
  {
    seq(|run| + 1, k requires 0 <= k <= |run| => After(run, k))
  }

  predicate IsWaiting(t: Tables, id: TaskId, approver: User) {
    id in t.tasks && t.tasks[id].state == PendingApproval && t.tasks[id].approver == Some(approver)
  }

  /** Call j asked for an approval of the task: a party to it, of somebody else with an active
      account. The task has been waiting for that approver from then to the tables after k calls. */
  ghost predicate WasAsked(run: seq<Call>, states: seq<Tables>, j: nat, k: nat, id: TaskId) {
    && j < k < |states| && k <= |run| && run[j].cmd.RequestTaskApproval? && run[j].cmd.id == id
    && id in states[j].tasks && states[j].tasks[id].state in {Submitted, InProgress}
    && run[j].c.me in {states[j].tasks[id].creator, states[j].tasks[id].assignee}
    && run[j].cmd.approver != run[j].c.me && IsActive(states[j], run[j].cmd.approver)
    && forall i :: j < i <= k ==> IsWaiting(states[i], id, run[j].cmd.approver)
  }

  lemma {:induction false} PendingWasAsked(run: seq<Call>, states: seq<Tables>, k: nat, id: TaskId) returns (j: nat)
    requires k < |states| && k <= |run| && id !in states[0].tasks
    requires forall i :: 0 < i <= k ==> WaitsOrAsks(states[i - 1], run[i - 1], states[i], id)
    requires id in states[k].tasks && states[k].tasks[id].state == PendingApproval
    ensures WasAsked(run, states, j, k, id)
  {
    assert WaitsOrAsks(states[k - 1], run[k - 1], states[k], id);
    if states[k - 1].tasks[id].state == PendingApproval {
      j := PendingWasAsked(run, states, k - 1, id);
      assert IsWaiting(states[k - 1], id, run[j].cmd.approver);
    } else {
      j := k - 1;
    }
  }

  lemma {:induction false} HistoryWaitsOrAsks(run: seq<Call>, k: nat, id: TaskId)
    requires 0 < k <= |run|
    ensures WaitsOrAsks(History(run)[k - 1], run[k - 1], History(run)[k], id)
  {
    StepWaitsOrAsks(After(run, k - 1), run[k - 1].c, run[k - 1].cmd, id);
  }

  /** In every run whoever moves a task from one state to another is entitled to: as its creator,
      its assignee at that time, the delegatee of an unexpired delegation, who may only update its
      state, or the approver whom the request that the task has been waiting on since has named,
      and who is somebody else than who asked. */
  lemma {:induction false} MovesAreAuthorized(run: seq<Call>, k: nat, id: TaskId) returns (j: nat)
    requires k < |run| && id in History(run)[k].tasks && id in History(run)[k + 1].tasks
    requires History(run)[k + 1].tasks[id].state != History(run)[k].tasks[id].state
    ensures ChangesState(run[k].cmd) && run[k].cmd.id == id
    ensures var t, me := History(run)[k], run[k].c.me;
            if run[k].cmd.ApproveTask? || run[k].cmd.RejectTask?
            then WasAsked(run, History(run), j, k, id) && me == run[j].cmd.approver
            else || me == t.tasks[id].creator || me == t.tasks[id].assignee
                 || (run[k].cmd.UpdateTaskState?
                     && exists until :: Delegation(me, id, until) in t.settings.delegations
                                        && run[k].c.delegationNow < until)
  {
    StateChangeIsAuthorized(After(run, k), run[k].c, run[k].cmd, id);
    j := 0;
    if run[k].cmd.ApproveTask? || run[k].cmd.RejectTask? {
      StepEvolves(After(run, k), run[k].c, run[k].cmd);
      forall i | 0 < i <= k ensures WaitsOrAsks(History(run)[i - 1], run[i - 1], History(run)[i], id) {
        HistoryWaitsOrAsks(run, i, id);
      }
      j := PendingWasAsked(run, History(run), k, id);
    }
  }
}
