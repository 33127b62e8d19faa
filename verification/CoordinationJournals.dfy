/** The three journals of every run: one stamp per transaction, and an audit row for
    everything that is journaled. */
module CoordinationJournals {
  import opened Wrappers
  import opened Timestamps
  import opened DependencyGraph
  import opened TaskTables
  import opened Coordination
  import DurableLog

  ghost predicate AllStamped(rows: seq<LogRow>, from: nat, h: Timestamp) {
    forall i :: from <= i < |rows| ==> rows[i].hlc == h
  }

  /** t' adds only rows stamped h, deletes nothing but events, and adds an audit row if it
      adds any row at all. */
  ghost predicate WritesWithStamp(t: Tables, t': Tables, h: Timestamp) {
    && t.taskEvents <= t'.taskEvents && AllStamped(t'.taskEvents, |t.taskEvents|, h)
    && t.audit <= t'.audit && AllStamped(t'.audit, |t.audit|, h)
    && (forall e :: e in t'.events ==> e in t.events || e.row.hlc == h)
    && (|t.audit| == |t'.audit| ==> t'.taskEvents == t.taskEvents && t'.events == t.events)
  }

  lemma WritesCompose(t: Tables, m: Tables, t': Tables, h: Timestamp)
    requires WritesWithStamp(t, m, h) && WritesWithStamp(m, t', h)
    ensures WritesWithStamp(t, t', h)
  {
    forall i | |t.taskEvents| <= i < |t'.taskEvents| ensures t'.taskEvents[i].hlc == h {
      if i < |m.taskEvents| { assert t'.taskEvents[i] == m.taskEvents[i]; }
    }
    forall i | |t.audit| <= i < |t'.audit| ensures t'.audit[i].hlc == h {
      if i < |m.audit| { assert t'.audit[i] == m.audit[i]; }
    }
  }

  lemma {:induction false} EventsWrite(t: Tables, ps: seq<User>, id: TaskId, kind: string, org: string, c: Context)
    ensures forall e :: e in AddEvents(t, ps, id, kind, org, c).events ==> e in t.events || e.row.hlc == c.hlc
  {
    if ps != [] {
      EventsWrite(t, ps[..|ps| - 1], id, kind, org, c);
    }
  }

  lemma RecordWrites(t: Tables, id: TaskId, kind: string, actor: User, org: string, c: Context)
    requires id in t.tasks
    ensures WritesWithStamp(t, Record(t, id, kind, actor, org, c), c.hlc)
  {
    var task := t.tasks[id];
    EventsWrite(AddTaskEvent(t, id, kind, actor, c), Parties(c, task.creator, task.assignee), id, kind, org, c);
  }

  lemma {:induction false} EscalationWrites(t: Tables, rows: seq<TaskId>, target: User, org: string, c: Context)
    ensures WritesWithStamp(t, EscalateRows(t, rows, target, org, c), c.hlc)
  {
    if rows != [] {
      var front, id := rows[..|rows| - 1], rows[|rows| - 1];
      EscalationWrites(t, front, target, org, c);
      var m := EscalateRows(t, front, target, org, c);
      if id in m.tasks && HasRoom(m, target) {
        RecordWrites(SetAssignee(m, id, target, c.at), id, "escalated", target, org, c);
        WritesCompose(t, m, EscalateOne(m, id, target, org, c), c.hlc);
      }
    }
  }

  /** The task a granted command records in the three journals, and as what. */
  ghost function Recorded(t: Tables, c: Context, cmd: Command): Option<(TaskId, string)> {
    match cmd
    case CreateTask(p, newId, _) => if SameAsExisting(t, c.me, p) then None else Some((newId, "created"))
    case UpdateTaskState(id, _, _, _) => Some((id, "state_changed"))
    case TransferTask(id, _, _) => Some((id, "transferred"))
    case RequestTaskApproval(id, _) => Some((id, "approval_requested"))
    case ApproveTask(id) => Some((id, "approved"))
    case RejectTask(id) => Some((id, "rejected"))
    case _ => None
  }

  /** Other commands add an audit row at most. */
  ghost predicate OnlyAudits(t: Tables, t': Tables, h: Timestamp) {
    && t'.taskEvents == t.taskEvents && t'.events == t.events && t'.nextEvent == t.nextEvent
    && (t'.audit == t.audit || exists r: LogRow :: t'.audit == t.audit + [r] && r.hlc == h)
  }

  lemma {:induction false} CoreKeepsJournals(t: Tables, c: Context, cmd: Command)
    requires Apply(t, c, cmd).Ok?
    ensures var core := Core(t, c, cmd);
            && core.events == t.events && core.nextEvent == t.nextEvent
            && core.taskEvents == t.taskEvents && core.audit == t.audit
  {
  }

  lemma {:induction false} JournaledIsRecord(t: Tables, c: Context, cmd: Command)
    requires Apply(t, c, cmd).Ok? && Recorded(t, c, cmd).Some?
    ensures var (id, kind) := Recorded(t, c, cmd).value;
            && id in Core(t, c, cmd).tasks
            && Journaled(t, c, cmd) == Record(Core(t, c, cmd), id, kind, c.me, OrgOf(t, c.me), c)
  {
  }

  lemma {:induction false} JournaledOnlyAudits(t: Tables, c: Context, cmd: Command)
    requires Apply(t, c, cmd).Ok? && Recorded(t, c, cmd).None?
    ensures OnlyAudits(t, Journaled(t, c, cmd), c.hlc)
  {
  }

  lemma {:induction false} JournaledWrites(t: Tables, c: Context, cmd: Command)
    requires Apply(t, c, cmd).Ok?
    ensures WritesWithStamp(t, Journaled(t, c, cmd), c.hlc)
  {
    var recorded, core := Recorded(t, c, cmd), Core(t, c, cmd);
    CoreKeepsJournals(t, c, cmd);
    if recorded.None? {
      JournaledOnlyAudits(t, c, cmd);
    } else {
      JournaledIsRecord(t, c, cmd);
      RecordWrites(core, recorded.value.0, recorded.value.1, c.me, OrgOf(t, c.me), c);
      SameJournalsWrite(t, core, Journaled(t, c, cmd), c.hlc);
    }
  }

  lemma SameJournalsWrite(t: Tables, core: Tables, t': Tables, h: Timestamp)
    requires core.events == t.events && core.taskEvents == t.taskEvents && core.audit == t.audit
    requires WritesWithStamp(core, t', h)
    ensures WritesWithStamp(t, t', h)
  {
  }

  /** One stamp per write transaction, and an audit row in every transaction that journals:
      what CoordinationLog needs of a transaction of the durable log. */
  lemma {:induction false} StepWritesWithItsStamp(t: Tables, c: Context, cmd: Command)
    ensures WritesWithStamp(t, Step(t, c, cmd), c.hlc)
  {
    if Apply(t, c, cmd).Ok? {
      JournaledWrites(t, c, cmd);
      StepIsCoreThenEscalation(t, c, cmd);
      var journaled := Journaled(t, c, cmd);
      if Escalates(cmd) {
        match ActivePolicy(journaled, EscalatedOrg(t, c, cmd))
        case Some(policy) =>
          EscalationWrites(journaled, cmd.rows, policy.target, EscalatedOrg(t, c, cmd), c);
          WritesCompose(t, journaled, Escalate(journaled, EscalatedOrg(t, c, cmd), cmd.rows, c), c.hlc);
        case None =>
      }
    }
  }

  // ----- the event journals

  /** Keys grow along the table; a row's predecessor is no earlier than any row of the same
      owner that is still there, and earlier than the row itself. */
  predicate Follows(a: Event, b: Event) {
    && a.key < b.key
    && (a.row.principal == b.row.principal ==> b.prev.Some? && a.key <= b.prev.value)
  }

  ghost predicate Linked(t: Tables) {
    && (forall e :: e in t.events ==> e.key < t.nextEvent && (e.prev.Some? ==> e.prev.value < e.key))
    && InOrder(t.events)
  }

  ghost predicate InOrder(events: seq<Event>) {
    forall i, j :: 0 <= i < j < |events| ==> Follows(events[i], events[j])
  }

  lemma {:induction false} PurgeKeepsOrder(events: seq<Event>, cutoff: int)
    requires InOrder(events)
    ensures InOrder(Purge(events, cutoff))
  {
    if events != [] {
      PurgeKeepsOrder(events[1..], cutoff);
      var rest := Purge(events[1..], cutoff);
      forall e | e in rest ensures Follows(events[0], e) {
        assert e in events[1..];
        var j :| 0 < j < |events| && events[j] == e;
      }
      forall j | 0 <= j < |rest| ensures Follows(events[0], rest[j]) {
        assert rest[j] in rest;
      }
    }
  }

  lemma {:induction false} EventStaysLinked(t: Tables, row: LogRow, cutoff: int)
    requires Linked(t)
    ensures Linked(AddEvent(t, row, cutoff))
  {
    PurgeKeepsOrder(t.events, cutoff);
    var kept := Purge(t.events, cutoff);
    var added := Event(t.nextEvent, row, LastKey(kept, row.principal));
    forall i | 0 <= i < |kept| ensures Follows(kept[i], added) {
      assert kept[i] in kept && kept[i] in t.events;
    }
  }

  lemma {:induction false} EventsStayLinked(t: Tables, ps: seq<User>, id: TaskId, kind: string, org: string, c: Context)
    requires Linked(t)
    ensures Linked(AddEvents(t, ps, id, kind, org, c))
  {
    if ps != [] {
      EventsStayLinked(t, ps[..|ps| - 1], id, kind, org, c);
      var front := AddEvents(t, ps[..|ps| - 1], id, kind, org, c);
      EventStaysLinked(front, LogRow(ps[|ps| - 1], kind, id, c.at, c.hlc), c.cutoff(org, front.nextEvent));
    }
  }

  lemma {:induction false} RecordStaysLinked(t: Tables, id: TaskId, kind: string, actor: User, org: string, c: Context)
    requires Linked(t) && id in t.tasks
    ensures Linked(Record(t, id, kind, actor, org, c))
  {
    var task := t.tasks[id];
    EventsStayLinked(AddTaskEvent(t, id, kind, actor, c), Parties(c, task.creator, task.assignee), id, kind, org, c);
  }

  lemma {:induction false} EscalationStaysLinked(t: Tables, rows: seq<TaskId>, target: User, org: string, c: Context)
    requires Linked(t)
    ensures Linked(EscalateRows(t, rows, target, org, c))
  {
    if rows != [] {
      var front, id := rows[..|rows| - 1], rows[|rows| - 1];
      EscalationStaysLinked(t, front, target, org, c);
      var m := EscalateRows(t, front, target, org, c);
      if id in m.tasks && HasRoom(m, target) {
        RecordStaysLinked(SetAssignee(m, id, target, c.at), id, "escalated", target, org, c);
      }
    }
  }

  lemma {:induction false} JournaledStaysLinked(t: Tables, c: Context, cmd: Command)
    requires Linked(t) && Apply(t, c, cmd).Ok?
    ensures Linked(Journaled(t, c, cmd))
  {
    var recorded := Recorded(t, c, cmd);
    CoreKeepsJournals(t, c, cmd);
    if recorded.None? {
      JournaledOnlyAudits(t, c, cmd);
    } else {
      JournaledIsRecord(t, c, cmd);
      RecordStaysLinked(Core(t, c, cmd), recorded.value.0, recorded.value.1, c.me, OrgOf(t, c.me), c);
    }
  }

  lemma {:induction false} RunIsLinked(run: seq<Call>)
    ensures Linked(Exec(run))
  {
    if run != [] {
      var t, last := Exec(run[..|run| - 1]), run[|run| - 1];
      RunIsLinked(run[..|run| - 1]);
      if Apply(t, last.c, last.cmd).Ok? {
        JournaledStaysLinked(t, last.c, last.cmd);
        StepIsCoreThenEscalation(t, last.c, last.cmd);
        var journaled, org := Journaled(t, last.c, last.cmd), EscalatedOrg(t, last.c, last.cmd);
        if Escalates(last.cmd) && ActivePolicy(journaled, org).Some? {
          EscalationStaysLinked(journaled, last.cmd.rows, ActivePolicy(journaled, org).value.target, org, last.c);
        }
      }
    }
  }

  /** In every run, whatever retention deletes: of two events of one owner the later links no
      further back than to the earlier, so no two of them link to the same predecessor. */
  lemma PredecessorsAreDistinct(run: seq<Call>, i: nat, j: nat)
    requires var events := Exec(run).events;
             i < j < |events| && events[i].row.principal == events[j].row.principal
    ensures var (a, b) := (Exec(run).events[i], Exec(run).events[j]);
            b.prev.Some? && a.key <= b.prev.value < b.key && a.prev != b.prev
  {
    RunIsLinked(run);
    assert Follows(Exec(run).events[i], Exec(run).events[j]);
    assert Exec(run).events[i] in Exec(run).events && Exec(run).events[j] in Exec(run).events;
  }

  lemma {:induction false} PurgeAppend(a: seq<Event>, b: seq<Event>, cutoff: int)
    ensures Purge(a + b, cutoff) == Purge(a, cutoff) + Purge(b, cutoff)
  {
    if a == [] {
      assert a + b == b;
    } else {
      assert (a + b)[1..] == a[1..] + b;
      PurgeAppend(a[1..], b, cutoff);
    }
  }

  lemma {:induction false} PurgeTwice(a: seq<Event>, cutoff: int, later: int)
    ensures Purge(Purge(a, cutoff), later) == Purge(a, Max(cutoff, later))
  {
    if a != [] {
      PurgeTwice(a[1..], cutoff, later);
    }
  }

  lemma {:induction false} OneEventMore(t: Tables, row: LogRow, cutoff: int, later: int) returns (added: Event)
    requires later <= row.at
    ensures added.row == row && AddEvent(t, row, cutoff).events == Purge(t.events, cutoff) + [added]
    ensures Purge(AddEvent(t, row, cutoff).events, later) == Purge(t.events, Max(cutoff, later)) + [added]
  {
    var kept := Purge(t.events, cutoff);
    added := Event(t.nextEvent, row, LastKey(kept, row.principal));
    PurgeAppend(kept, [added], later);
    PurgeTwice(t.events, cutoff, later);
    assert [added][1..] == [] && Purge([added], later) == [added];
  }

  lemma {:induction false} FirstEvent(t: Tables, ps: seq<User>, id: TaskId, kind: string, org: string, c: Context,
                                      later: int)
    returns (a: Event)
    requires |ps| == 1 && later <= c.at
    ensures a.row == LogRow(ps[0], kind, id, c.at, c.hlc)
    ensures var after := AddEvents(t, ps, id, kind, org, c);
            && after.events == Purge(t.events, c.cutoff(org, t.nextEvent)) + [a] && after.nextEvent == t.nextEvent + 1
            && Purge(after.events, later) == Purge(t.events, Max(c.cutoff(org, t.nextEvent), later)) + [a]
  {
    assert ps[..0] == [];
    a := OneEventMore(t, LogRow(ps[0], kind, id, c.at, c.hlc), c.cutoff(org, t.nextEvent), later);
  }

  lemma {:induction false} LastEvent(t: Tables, ps: seq<User>, id: TaskId, kind: string, org: string, c: Context)
    returns (b: Event)
    requires |ps| > 0
    ensures b.row == LogRow(ps[|ps| - 1], kind, id, c.at, c.hlc)
    ensures var front := AddEvents(t, ps[..|ps| - 1], id, kind, org, c);
            AddEvents(t, ps, id, kind, org, c).events == Purge(front.events, c.cutoff(org, front.nextEvent)) + [b]
  {
    var front := AddEvents(t, ps[..|ps| - 1], id, kind, org, c);
    b := OneEventMore(front, LogRow(ps[|ps| - 1], kind, id, c.at, c.hlc), c.cutoff(org, front.nextEvent), c.at);
  }

  /** The later of the retention cutoffs of n events recorded together, one or two. */
  function Cutoff(t: Tables, org: string, c: Context, n: nat): int {
    if n == 1 then c.cutoff(org, t.nextEvent) else Max(c.cutoff(org, t.nextEvent), c.cutoff(org, t.nextEvent + 1))
  }

  /** One row for u and one for v in some order, or one if they are the same. */
  ghost predicate OneEach(added: seq<Event>, u: User, v: User, id: TaskId, kind: string, c: Context) {
    var x, y := LogRow(u, kind, id, c.at, c.hlc), LogRow(v, kind, id, c.at, c.hlc);
    if u == v then |added| == 1 && added[0].row == x
    else |added| == 2 && (added[0].row, added[1].row) in {(x, y), (y, x)}
  }

  lemma {:induction false} PartiesGetEvents(t: Tables, u: User, v: User, id: TaskId, kind: string, org: string, c: Context)
    returns (added: seq<Event>)
    requires Cutoff(t, org, c, if u == v then 1 else 2) <= c.at
    ensures OneEach(added, u, v, id, kind, c)
    ensures AddEvents(t, Parties(c, u, v), id, kind, org, c).events == Purge(t.events, Cutoff(t, org, c, |added|)) + added
  {
    var parties := Parties(c, u, v);
    if u == v {
      var a := FirstEvent(t, parties, id, kind, org, c, c.at);
      added := [a];
    } else {
      var kept := Purge(t.events, Cutoff(t, org, c, 2));
      var a := FirstEvent(t, parties[..1], id, kind, org, c, c.cutoff(org, t.nextEvent + 1));
      var b := LastEvent(t, parties, id, kind, org, c);
      added := [a, b];
      assert kept + [a] + [b] == kept + [a, b];
    }
  }

  /** The events of one recorded command, its time being within the retention: after what
      retention leaves of the earlier ones, one for the creator and one for the assignee in some
      order, or one if they are the same. Each computes the cutoff anew. */
  lemma {:induction false} RecordReachesBothParties(t: Tables, id: TaskId, kind: string, actor: User, org: string,
                                                    c: Context)
    returns (added: seq<Event>)
    requires id in t.tasks && Cutoff(t, org, c, if t.tasks[id].creator == t.tasks[id].assignee then 1 else 2) <= c.at
    ensures Record(t, id, kind, actor, org, c).events == Purge(t.events, Cutoff(t, org, c, |added|)) + added
    ensures OneEach(added, t.tasks[id].creator, t.tasks[id].assignee, id, kind, c)
  {
    var noted := AddTaskEvent(t, id, kind, actor, c);
    added := PartiesGetEvents(noted, t.tasks[id].creator, t.tasks[id].assignee, id, kind, org, c);
    assert Cutoff(noted, org, c, |added|) == Cutoff(t, org, c, |added|);
  }

  function HlcsOf(rows: seq<LogRow>): set<Timestamp> {
    set r | r in rows :: r.hlc
  }

  /** Every hlc in the events and task_events tables is also in the audit log. */
  ghost predicate AuditCovers(t: Tables) {
    && (forall e :: e in t.events ==> e.row.hlc in HlcsOf(t.audit))
    && (forall r :: r in t.taskEvents ==> r.hlc in HlcsOf(t.audit))
  }

  lemma WritesKeepCover(t: Tables, t': Tables, h: Timestamp)
    requires AuditCovers(t) && WritesWithStamp(t, t', h)
    ensures AuditCovers(t') && HlcsOf(t.audit) <= HlcsOf(t'.audit)
  {
    assert HlcsOf(t.audit) <= HlcsOf(t'.audit) by {
      forall r | r in t.audit ensures r in t'.audit {
        var i :| 0 <= i < |t.audit| && t.audit[i] == r;
        assert t'.audit[i] == r;
      }
    }
    if |t.audit| < |t'.audit| {
      assert t'.audit[|t.audit|] in t'.audit;
      forall r | r in t'.taskEvents ensures r.hlc in HlcsOf(t'.audit) {
        var i :| 0 <= i < |t'.taskEvents| && t'.taskEvents[i] == r;
        if i < |t.taskEvents| {
          assert t.taskEvents[i] == r;
          assert r in t.taskEvents;
        }
      }
    }
  }

  /** From an empty database, whatever is purged and whenever: the audit log holds every hlc
      the other two tables hold, and it only grows; so the largest hlc of the three tables
      is the largest of the audit log. */
  lemma {:induction false} AuditLogHoldsEveryHlc(run: seq<Call>)
    ensures AuditCovers(Exec(run))
    ensures run != [] ==> HlcsOf(Exec(run[..|run| - 1]).audit) <= HlcsOf(Exec(run).audit)
  {
    if run != [] {
      var front, last := run[..|run| - 1], run[|run| - 1];
      AuditLogHoldsEveryHlc(front);
      StepWritesWithItsStamp(Exec(front), last.c, last.cmd);
      WritesKeepCover(Exec(front), Exec(run), last.c.hlc);
    }
  }

  function AllHlcs(t: Tables): set<Timestamp> {
    (set e | e in t.events :: e.row.hlc) + HlcsOf(t.taskEvents) + HlcsOf(t.audit)
  }

  lemma {:induction false} AuditLogOnlyGrows(run: seq<Call>, k: nat)
    requires k <= |run|
    ensures HlcsOf(Exec(run[..k]).audit) <= HlcsOf(Exec(run).audit)
  {
    if k == |run| {
      assert run[..k] == run;
    } else {
      assert run[..|run| - 1][..k] == run[..k];
      AuditLogOnlyGrows(run[..|run| - 1], k);
      AuditLogHoldsEveryHlc(run);
    }
  }

  /** The clock's rehydration bound: the latest hlc of the three tables is always that of the
      audit log, and along a run it never drops, whatever events retention deletes. */
  lemma RetentionNeverLowersTheBound(run: seq<Call>, k: nat, m: Timestamp, n: Timestamp)
    requires k <= |run|
    requires DurableLog.IsLatest(AllHlcs(Exec(run[..k])), m) && DurableLog.IsLatest(AllHlcs(Exec(run)), n)
    ensures DurableLog.IsLatest(HlcsOf(Exec(run).audit), n)
    ensures AtMost(m, n)
  {
    AuditLogHoldsEveryHlc(run);
    AuditLogHoldsEveryHlc(run[..k]);
    AuditLogOnlyGrows(run, k);
    LatestIsAudited(Exec(run[..k]), m);
    LatestIsAudited(Exec(run), n);
  }

  lemma LatestIsAudited(t: Tables, m: Timestamp)
    requires AuditCovers(t) && DurableLog.IsLatest(AllHlcs(t), m)
    ensures DurableLog.IsLatest(HlcsOf(t.audit), m)
  {
  }
}
