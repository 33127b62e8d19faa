/** The task tables and what each coordination command does to them, as functions of the
    tables: the specification of the methods in Coordinator. Field names follow the schema
    of synapse/db.py; the store functions are those of synapse/store/tasks.py, events.py
    and audit.py. Times are milliseconds. */
module TaskTables {
  import opened Wrappers
  import opened Timestamps
  import opened DependencyGraph

  type User = string

  datatype TaskState = Submitted | InProgress | Completed | Failed | Canceled | PendingApproval

  predicate Terminal(s: TaskState) {
    s == Completed || s == Failed || s == Canceled
  }

  /** `rowid` is the implicit row number of the tasks table: creation order. */
  datatype Task = Task(
    rowid: nat, clientId: Option<string>, title: string, creator: User, assignee: User,
    state: TaskState, dueAt: Option<int>, result: Option<string>, approver: Option<User>, updatedAt: int)

  datatype Account = Account(active: bool, org: string)

  datatype OrgPolicy = OrgPolicy(outgoing: bool, incoming: bool)

  datatype Escalation = Escalation(enabled: bool, dueAfter: int, failedAfter: int, target: User)

  datatype Delegation = Delegation(delegatee: User, task: TaskId, expiresAt: int)

  /** What coordination commands read and other commands write. */
  datatype Settings = Settings(
    accounts: map<User, Account>, orgs: map<string, OrgPolicy>,
    escalation: map<string, Escalation>, delegations: set<Delegation>)

  /** One row of task_events, events or audit_log; `principal` is the journal's owner in
      events and the actor elsewhere. */
  datatype LogRow = LogRow(principal: User, kind: string, ref: string, at: int, hlc: Timestamp)

  /** A row of events: its AUTOINCREMENT key, and the key of its predecessor in the owner's
      journal. */
  datatype Event = Event(key: nat, row: LogRow, prev: Option<nat>)

  /** The limits of agent_budgets; `None` is no limit. */
  datatype Budget = Budget(tasks: Option<nat>, messages: Option<nat>)

  datatype Tables = Tables(
    settings: Settings, tasks: map<TaskId, Task>, nextRow: nat, deps: Deps, budgets: map<User, Budget>,
    taskEvents: seq<LogRow>, events: seq<Event>, nextEvent: nat, audit: seq<LogRow>)

  datatype ApiError =
    | InvalidArgument | UserNotFound | RecipientNotFound | PolicyDenied | QuotaExceeded
    | TaskNotFound | TaskStateInvalid | DependencyNotMet | InternalError

  /** One write transaction: the caller, its time, its one stamp, an organization's retention
      cutoff as computed for each event, the clock as read for delegations and for the two
      escalation thresholds, and which of two principals an event is recorded for first. */
  datatype Context = Context(
    me: User, at: int, hlc: Timestamp, cutoff: (string, nat) -> int, delegationNow: int, dueNow: int, failedNow: int,
    first: (User, User) -> User)

  datatype NewTask = NewTask(
    clientId: Option<string>, title: string, assignee: User, dueAt: Option<int>, dependsOn: seq<TaskId>)

  const MAX_DEPENDENCY_DEPTH: nat := 8

  // ----- store functions

  function OrgOf(t: Tables, u: User): string {
    if u in t.settings.accounts then t.settings.accounts[u].org else ""
  }

  function ActiveTasks(t: Tables, u: User): set<TaskId> {
    set id | id in t.tasks && t.tasks[id].assignee == u && !Terminal(t.tasks[id].state)
  }

  function Put(t: Tables, id: TaskId, task: Task): Tables {
    t.(tasks := t.tasks[id := task])
  }

  function SetState(t: Tables, id: TaskId, state: TaskState, result: Option<string>, at: int): Tables
    requires id in t.tasks
  {
    Put(t, id, t.tasks[id].(state := state, result := result, updatedAt := at))
  }

  function SetAssignee(t: Tables, id: TaskId, u: User, at: int): Tables
    requires id in t.tasks
  {
    Put(t, id, t.tasks[id].(assignee := u, updatedAt := at))
  }

  function SetApprover(t: Tables, id: TaskId, u: User, at: int): Tables
    requires id in t.tasks
  {
    Put(t, id, t.tasks[id].(approver := Some(u), updatedAt := at))
  }

  function AddTaskEvent(t: Tables, id: TaskId, kind: string, actor: User, c: Context): Tables {
    t.(taskEvents := t.taskEvents + [LogRow(actor, kind, id, c.at, c.hlc)])
  }

  /** DELETE FROM events WHERE at < cutoff. */
  function Purge(events: seq<Event>, cutoff: int): (r: seq<Event>)
    ensures forall e :: e in r <==> e in events && e.row.at >= cutoff
  {
    if events == [] then []
    else if events[0].row.at < cutoff then Purge(events[1..], cutoff)
    else [events[0]] + Purge(events[1..], cutoff)
  }

  /** SELECT MAX(seq) over a principal's events. */
  function LastKey(events: seq<Event>, principal: User): (m: Option<nat>)
    ensures m.None? ==> forall e :: e in events ==> e.row.principal != principal
    ensures m.Some? ==> forall e :: e in events && e.row.principal == principal ==> e.key <= m.value
    ensures m.Some? ==> exists e :: e in events && e.row.principal == principal && e.key == m.value
  {
    if events == [] then None
    else
      var rest := LastKey(events[1..], principal);
      if events[0].row.principal != principal then rest
      else if rest.Some? && rest.value > events[0].key then rest
      else assert events[0] in events; Some(events[0].key)
  }

  /** One event: retention first, then the row, linked to its predecessor. */
  function AddEvent(t: Tables, row: LogRow, cutoff: int): Tables {
    var kept := Purge(t.events, cutoff);
    t.(events := kept + [Event(t.nextEvent, row, LastKey(kept, row.principal))], nextEvent := t.nextEvent + 1)
  }

  /** The parties of a task, each once, in an order the code leaves to iteration over a set. */
  function Parties(c: Context, creator: User, assignee: User): (s: seq<User>)
    ensures forall u :: u in s <==> u == creator || u == assignee
    ensures |s| == if creator == assignee then 1 else 2
  {
    if creator == assignee then [creator]
    else if c.first(creator, assignee) == assignee then [assignee, creator]
    else [creator, assignee]
  }

  function AddEvents(t: Tables, principals: seq<User>, id: TaskId, kind: string, org: string, c: Context): (r: Tables)
    ensures r == t.(events := r.events, nextEvent := r.nextEvent)
  {
    if principals == [] then t
    else
      var front := AddEvents(t, principals[..|principals| - 1], id, kind, org, c);
      AddEvent(front, LogRow(principals[|principals| - 1], kind, id, c.at, c.hlc), c.cutoff(org, front.nextEvent))
  }

  /** One journal row for the creator and one for the assignee, deduplicated. */
  function AppendForTask(t: Tables, id: TaskId, kind: string, org: string, c: Context): Tables
    requires id in t.tasks
  {
    AddEvents(t, Parties(c, t.tasks[id].creator, t.tasks[id].assignee), id, kind, org, c)
  }

  function AddAudit(t: Tables, id: TaskId, kind: string, actor: User, c: Context): Tables {
    t.(audit := t.audit + [LogRow(actor, kind, id, c.at, c.hlc)])
  }

  /** The three journals of one command on one task. */
  function Record(t: Tables, id: TaskId, kind: string, actor: User, org: string, c: Context): Tables
    requires id in t.tasks
  {
    AddAudit(AppendForTask(AddTaskEvent(t, id, kind, actor, c), id, kind, org, c), id, kind, actor, c)
  }

  predicate DependenciesMet(t: Tables, id: TaskId) {
    forall e :: e in t.deps && e.0 == id && e.1 in t.tasks ==> t.tasks[e.1].state == Completed
  }

  predicate Visible(t: Tables, id: TaskId, me: User) {
    id in t.tasks && (t.tasks[id].creator == me || t.tasks[id].assignee == me)
  }

  predicate Delegated(t: Tables, id: TaskId, c: Context) {
    exists d :: d in t.settings.delegations && d.delegatee == c.me && d.task == id && d.expiresAt > c.delegationNow
  }

  predicate AllowedTransition(from: TaskState, to: TaskState) {
    match from
    case Submitted => to == InProgress || to == Canceled
    case InProgress => to == Completed || to == Failed || to == Canceled
    case _ => false
  }

  function RequireActive(t: Tables, u: User): Option<ApiError> {
    if u !in t.settings.accounts then Some(UserNotFound)
    else if !t.settings.accounts[u].active then Some(RecipientNotFound)
    else None
  }

  predicate ExternalCommAllowed(t: Tables, me: User, other: User) {
    && me in t.settings.accounts && other in t.settings.accounts
    && (|| OrgOf(t, me) == OrgOf(t, other)
        || (&& OrgOf(t, me) in t.settings.orgs && OrgOf(t, other) in t.settings.orgs
            && t.settings.orgs[OrgOf(t, me)].outgoing && t.settings.orgs[OrgOf(t, other)].incoming))
  }

  /** `_check_task_budget`: no limit, or a limit that is not reached. */
  predicate HasRoom(t: Tables, u: User) {
    u in t.budgets && t.budgets[u].tasks.Some? ==> |ActiveTasks(t, u)| < t.budgets[u].tasks.value
  }

  // ----- automatic escalation

  /** Late tasks, and tasks in progress without an update, of the organization's assignees. */
  predicate IsDue(t: Tables, id: TaskId, org: string, policy: Escalation, c: Context) {
    && id in t.tasks
    && t.tasks[id].assignee in t.settings.accounts && OrgOf(t, t.tasks[id].assignee) == org
    && t.tasks[id].assignee != policy.target
    && (t.tasks[id].state == Submitted || t.tasks[id].state == InProgress)
    && (|| (t.tasks[id].dueAt.Some? && t.tasks[id].dueAt.value < c.dueNow - 1000 * policy.dueAfter)
        || (t.tasks[id].state == InProgress && t.tasks[id].updatedAt < c.failedNow - 1000 * policy.failedAfter))
  }

  /** The organization's policy, when it is enabled and its target can take tasks. */
  function ActivePolicy(t: Tables, org: string): Option<Escalation> {
    if org in t.settings.escalation && t.settings.escalation[org].enabled
       && RequireActive(t, t.settings.escalation[org].target).None?
    then Some(t.settings.escalation[org]) else None
  }

  function DueTasks(t: Tables, org: string, c: Context): set<TaskId> {
    match ActivePolicy(t, org)
    case Some(policy) => set id | id in t.tasks && IsDue(t, id, org, policy, c)
    case None => {}
  }

  function EscalateOne(t: Tables, id: TaskId, target: User, org: string, c: Context): Tables {
    if id in t.tasks && HasRoom(t, target)
    then Record(SetAssignee(t, id, target, c.at), id, "escalated", target, org, c)
    else t
  }

  function EscalateRows(t: Tables, rows: seq<TaskId>, target: User, org: string, c: Context): Tables {
    if rows == [] then t
    else EscalateOne(EscalateRows(t, rows[..|rows| - 1], target, org, c), rows[|rows| - 1], target, org, c)
  }

  /** `rows` is the order in which the query returned the due tasks: any order. */
  ghost predicate IsRowOrder(rows: seq<TaskId>, ids: set<TaskId>) {
    (forall id :: id in rows <==> id in ids) && |rows| == |ids|
  }

  function Escalate(t: Tables, org: string, rows: seq<TaskId>, c: Context): Tables {
    match ActivePolicy(t, org)
    case Some(policy) => EscalateRows(t, rows, policy.target, org, c)
    case None => t
  }

  // ----- commands

  predicate HasClientId(t: Tables, id: TaskId, me: User, clientId: string) {
    id in t.tasks && t.tasks[id].creator == me && t.tasks[id].clientId == Some(clientId)
  }

  predicate ClientIdUsed(t: Tables, me: User, clientId: string) {
    exists id :: id in t.tasks && HasClientId(t, id, me, clientId)
  }

  /** The idempotent answer exists: same assignee and title under the caller's client id. */
  predicate SameAsExisting(t: Tables, me: User, p: NewTask) {
    p.clientId.Some?
    && exists id :: id in t.tasks && HasClientId(t, id, me, p.clientId.value)
                    && t.tasks[id].assignee == p.assignee && t.tasks[id].title == p.title
  }

  /** Why a creation is refused, in the order of the checks. */
  ghost function CreateRefusal(t: Tables, c: Context, p: NewTask, newId: TaskId): Option<ApiError> {
    if p.clientId.Some? && ClientIdUsed(t, c.me, p.clientId.value) then Some(InvalidArgument)
    else if RequireActive(t, p.assignee).Some? then RequireActive(t, p.assignee)
    else if !ExternalCommAllowed(t, c.me, p.assignee) then Some(PolicyDenied)
    else if !HasRoom(t, p.assignee) then Some(QuotaExceeded)
    else if exists d :: d in p.dependsOn && d !in t.tasks then Some(InvalidArgument)
    else if IsDepth(t.deps, Listing.Elements(p.dependsOn), MAX_DEPENDENCY_DEPTH, MAX_DEPENDENCY_DEPTH + 1) then
      Some(QuotaExceeded)
    else if newId in t.tasks then Some(InternalError)   // a random id already taken violates the primary key
    else None
  }

  function InsertTask(t: Tables, c: Context, p: NewTask, newId: TaskId): Tables {
    t.(tasks := t.tasks[newId := Task(t.nextRow, p.clientId, p.title, c.me, p.assignee, Submitted, p.dueAt,
                                      None, None, c.at)],
       nextRow := t.nextRow + 1,
       deps := t.deps + set d | d in p.dependsOn :: (newId, d))
  }

  /** The idempotent answer records one audit row and nothing else. */
  ghost function Create(t: Tables, c: Context, p: NewTask, newId: TaskId, rows: seq<TaskId>): Result<Tables, ApiError> {
    if SameAsExisting(t, c.me, p) then
      var id :| id in t.tasks && HasClientId(t, id, c.me, p.clientId.value)
                && t.tasks[id].assignee == p.assignee && t.tasks[id].title == p.title;
      Ok(AddAudit(t, id, "create_task", c.me, c))
    else match CreateRefusal(t, c, p, newId)
      case Some(e) => Err(e)
      case None =>
        Ok(Escalate(Record(InsertTask(t, c, p, newId), newId, "created", c.me, OrgOf(t, c.me), c),
                    OrgOf(t, p.assignee), rows, c))
  }

  function KeptResult(state: TaskState, result: Option<string>): Option<string> {
    if state == Completed || state == Failed then result else None
  }

  /** Why a state change is refused, in the order of the checks. */
  function UpdateRefusal(t: Tables, c: Context, id: TaskId, state: TaskState): Option<ApiError> {
    if !(Visible(t, id, c.me) || (id in t.tasks && Delegated(t, id, c))) then Some(TaskNotFound)
    else if !AllowedTransition(t.tasks[id].state, state) then Some(TaskStateInvalid)
    else if state == InProgress && !DependenciesMet(t, id) then Some(DependencyNotMet)
    else None
  }

  /** A state change before the escalation it triggers. */
  function Moved(t: Tables, c: Context, id: TaskId, state: TaskState, result: Option<string>): Tables
    requires id in t.tasks
  {
    Record(SetState(t, id, state, KeptResult(state, result), c.at), id, "state_changed", c.me, OrgOf(t, c.me), c)
  }

  function UpdateState(t: Tables, c: Context, id: TaskId, state: TaskState, result: Option<string>, rows: seq<TaskId>)
    : Result<Tables, ApiError>
  {
    match UpdateRefusal(t, c, id, state)
    case Some(e) => Err(e)
    case None => Ok(Escalate(Moved(t, c, id, state, result), OrgOf(t, c.me), rows, c))
  }

  function Transfer(t: Tables, c: Context, id: TaskId, to: User, rows: seq<TaskId>): Result<Tables, ApiError> {
    if !Visible(t, id, c.me) then Err(TaskNotFound)
    else if RequireActive(t, to).Some? then Err(RequireActive(t, to).value)
    else if !ExternalCommAllowed(t, c.me, to) then Err(PolicyDenied)
    else if !HasRoom(t, to) then Err(QuotaExceeded)
    else if Terminal(t.tasks[id].state) then Err(TaskStateInvalid)
    else Ok(Escalate(Record(SetAssignee(t, id, to, c.at), id, "transferred", c.me, OrgOf(t, c.me), c),
                     OrgOf(t, to), rows, c))
  }

  function RequestApproval(t: Tables, c: Context, id: TaskId, approver: User): Result<Tables, ApiError> {
    if !Visible(t, id, c.me) then Err(TaskNotFound)
    else if Terminal(t.tasks[id].state) || t.tasks[id].state == PendingApproval then Err(TaskStateInvalid)
    else if RequireActive(t, approver).Some? then Err(RequireActive(t, approver).value)
    else if approver == c.me then Err(InvalidArgument)
    else Ok(Record(SetState(SetApprover(t, id, approver, c.at), id, PendingApproval, None, c.at),
                   id, "approval_requested", c.me, OrgOf(t, c.me), c))
  }

  function Approve(t: Tables, c: Context, id: TaskId): Result<Tables, ApiError> {
    if id !in t.tasks || t.tasks[id].approver != Some(c.me) then Err(TaskNotFound)
    else if t.tasks[id].state != PendingApproval then Err(TaskStateInvalid)
    else Ok(Record(SetState(t, id, Completed, t.tasks[id].result, c.at), id, "approved", c.me, OrgOf(t, c.me), c))
  }

  function Reject(t: Tables, c: Context, id: TaskId): Result<Tables, ApiError> {
    if id !in t.tasks || t.tasks[id].approver != Some(c.me) then Err(TaskNotFound)
    else if t.tasks[id].state != PendingApproval then Err(TaskStateInvalid)
    else Ok(Record(SetState(t, id, InProgress, None, c.at), id, "rejected", c.me, OrgOf(t, c.me), c))
  }

  function Given(limit: Option<nat>, stored: Option<nat>): Option<nat> {
    if limit.Some? then limit else stored
  }

  function StoredBudget(t: Tables, u: User): Budget {
    if u in t.budgets then t.budgets[u] else Budget(None, None)
  }

  /** `set_agent_budget`: both limits absent deletes the row, an absent one keeps the stored. */
  function NewBudgets(t: Tables, u: User, given: Budget): map<User, Budget> {
    if given == Budget(None, None) then map v | v in t.budgets && v != u :: t.budgets[v]
    else
      var stored := StoredBudget(t, u);
      t.budgets[u := Budget(Given(given.tasks, stored.tasks), Given(given.messages, stored.messages))]
  }

  function SetBudget(t: Tables, c: Context, u: User, given: Budget): Result<Tables, ApiError> {
    if u !in t.settings.accounts || OrgOf(t, u) != c.me then Err(UserNotFound)
    else Ok(AddAudit(t.(budgets := NewBudgets(t, u, given)), u, "set_agent_budget", c.me, c))
  }

  datatype Command =
    | CreateTask(p: NewTask, newId: TaskId, rows: seq<TaskId>)
    | UpdateTaskState(id: TaskId, state: TaskState, result: Option<string>, rows: seq<TaskId>)
    | TransferTask(id: TaskId, to: User, rows: seq<TaskId>)
    | RequestTaskApproval(id: TaskId, approver: User)
    | ApproveTask(id: TaskId)
    | RejectTask(id: TaskId)
    | SetAgentBudget(u: User, given: Budget)
    | ChangeSettings(settings: Settings)

  ghost function Apply(t: Tables, c: Context, cmd: Command): Result<Tables, ApiError> {
    match cmd
    case CreateTask(p, newId, rows) => Create(t, c, p, newId, rows)
    case UpdateTaskState(id, state, result, rows) => UpdateState(t, c, id, state, result, rows)
    case TransferTask(id, to, rows) => Transfer(t, c, id, to, rows)
    case RequestTaskApproval(id, approver) => RequestApproval(t, c, id, approver)
    case ApproveTask(id) => Approve(t, c, id)
    case RejectTask(id) => Reject(t, c, id)
    case SetAgentBudget(u, given) => SetBudget(t, c, u, given)
    case ChangeSettings(settings) => Ok(t.(settings := settings))
  }

  /** A refused command rolls back. */
  ghost function Step(t: Tables, c: Context, cmd: Command): Tables {
    match Apply(t, c, cmd)
    case Ok(t') => t'
    case Err(_) => t
  }

  const EMPTY_SETTINGS := Settings(map[], map[], map[], {})
  const EMPTY_TABLES := Tables(EMPTY_SETTINGS, map[], 1, {}, map[], [], [], 1, [])
}
