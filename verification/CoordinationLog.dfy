/** The coordination tables on the durable log: a server that serves coordination commands, each
    with the stamp its write transaction begins with, is a run of DurableLog that satisfies its
    premise, so that the theorems about the log hold of the tables. */
module CoordinationLog {
  import opened Wrappers
  import opened ClockText
  import opened Timestamps
  import opened DependencyGraph
  import opened TaskTables
  import opened Coordination
  import opened CoordinationJournals
  import D = DurableLog
  import S = ServiceClock

  /** The table has a row with this key and hlc; the keys of the append-only tables count up. */
  ghost predicate Holds(t: Tables, table: D.Table, key: nat, hlc: Timestamp) {
    match table
    case TaskEvents => 0 < key <= |t.taskEvents| && t.taskEvents[key - 1].hlc == hlc
    case Audit => 0 < key <= |t.audit| && t.audit[key - 1].hlc == hlc
    case Events => exists e :: e in t.events && IsEvent(e, key, hlc)
  }

  predicate IsEvent(e: Event, key: nat, hlc: Timestamp) {
    e.key == key && e.row.hlc == hlc
  }

  /** The log has such a row, of whatever transaction. */
  ghost predicate Stored(rows: set<D.Row>, table: D.Table, key: nat, hlc: Timestamp) {
    exists tx: nat :: D.Row(table, key, hlc, tx) in rows
  }

  function NextKeys(t: Tables): D.Keys {
    D.Keys(t.nextEvent, |t.taskEvents| + 1, |t.audit| + 1)
  }

  /** The rows of the log are those of the three tables. */
  ghost predicate Shows(t: Tables, rows: set<D.Row>, next: D.Keys) {
    && next == NextKeys(t)
    && forall table, key: nat, hlc :: Holds(t, table, key, hlc) <==> Stored(rows, table, key, hlc)
  }

  /** The open transaction sees the tables, and stamps with h. */
  ghost predicate Sees(t: Tables, tx: D.Transaction, h: Timestamp) {
    tx.stamp == h && Linked(t) && Shows(t, tx.kept + tx.written, tx.next)
  }

  predicate AreStatements(steps: seq<D.Step>) {
    forall i :: 0 <= i < |steps| ==> steps[i].Insert? || steps[i].PurgeEvents?
  }

  /** Nothing is written, or an audit row is among it. */
  predicate IsAudited(tx: D.Transaction) {
    tx.written == {} || tx.id in D.AuditedTxs(tx.written)
  }

  // ----- one statement

  lemma InsertIsStored(rows: set<D.Row>, r: D.Row, table: D.Table, key: nat, hlc: Timestamp)
    ensures Stored(rows + {r}, table, key, hlc) <==>
            Stored(rows, table, key, hlc) || (table == r.table && key == r.key && hlc == r.hlc)
  {
    if Stored(rows, table, key, hlc) {
      var tx: nat :| D.Row(table, key, hlc, tx) in rows;
      assert D.Row(table, key, hlc, tx) in rows + {r};
    }
    if table == r.table && key == r.key && hlc == r.hlc {
      assert D.Row(table, key, hlc, r.tx) in rows + {r};
    }
  }

  /** A row inserted into the log is the next row of its table. */
  lemma {:induction false} InsertShows(t: Tables, t': Tables, tx: D.Transaction, table: D.Table)
    requires Shows(t, tx.kept + tx.written, tx.next) && NextKeys(t') == D.Advance(tx.next, table)
    requires forall tb, key: nat, hlc :: Holds(t', tb, key, hlc) <==>
               Holds(t, tb, key, hlc) || (tb == table && key == D.KeyOf(tx.next, table) && hlc == tx.stamp)
    ensures var after := D.Write(tx, D.Insert(table));
            Shows(t', after.kept + after.written, after.next)
  {
    var after := D.Write(tx, D.Insert(table));
    var rows, r := tx.kept + tx.written, D.Row(table, D.KeyOf(tx.next, table), tx.stamp, tx.id);
    assert after.kept + after.written == rows + {r};
    forall tb, key: nat, hlc ensures Holds(t', tb, key, hlc) <==> Stored(rows + {r}, tb, key, hlc) {
      InsertIsStored(rows, r, tb, key, hlc);
      assert Holds(t, tb, key, hlc) <==> Stored(rows, tb, key, hlc);
    }
  }

  lemma {:induction false} TaskEventIsInserted(t: Tables, id: TaskId, kind: string, actor: User, c: Context,
                                               tx: D.Transaction)
    requires Sees(t, tx, c.hlc)
    ensures Sees(AddTaskEvent(t, id, kind, actor, c), D.Write(tx, D.Insert(D.TaskEvents)), c.hlc)
  {
    InsertShows(t, AddTaskEvent(t, id, kind, actor, c), tx, D.TaskEvents);
  }

  lemma {:induction false} AuditRowIsInserted(t: Tables, t': Tables, r: LogRow, tx: D.Transaction)
    requires Sees(t, tx, r.hlc) && t' == t.(audit := t.audit + [r])
    ensures var after := D.Write(tx, D.Insert(D.Audit));
            Sees(t', after, r.hlc) && after.id in D.AuditedTxs(after.written)
  {
    InsertShows(t, t', tx, D.Audit);
    var row := D.Row(D.Audit, D.KeyOf(tx.next, D.Audit), tx.stamp, tx.id);
    assert row in D.Write(tx, D.Insert(D.Audit)).written;
  }

  /** The keys of the events that retention deletes. */
  function OldKeys(events: seq<Event>, cutoff: int): set<nat> {
    set e | e in events && e.row.at < cutoff :: e.key
  }

  lemma PurgeIsStored(rows: set<D.Row>, purged: set<nat>, table: D.Table, key: nat, hlc: Timestamp)
    ensures Stored(D.Unpurged(rows, purged), table, key, hlc) <==>
            Stored(rows, table, key, hlc) && !(table == D.Events && key in purged)
  {
    if Stored(rows, table, key, hlc) && !(table == D.Events && key in purged) {
      var tx: nat :| D.Row(table, key, hlc, tx) in rows;
      assert D.Row(table, key, hlc, tx) in D.Unpurged(rows, purged);
    }
  }

  lemma {:induction false} KeysAreDistinct(t: Tables, e: Event, f: Event)
    requires Linked(t) && e in t.events && f in t.events && e.key == f.key
    ensures e == f
  {
    var i, j :| 0 <= i < |t.events| && 0 <= j < |t.events| && t.events[i] == e && t.events[j] == f;
    assert i < j ==> Follows(t.events[i], t.events[j]);
    assert j < i ==> Follows(t.events[j], t.events[i]);
  }

  lemma {:induction false} PurgeHolds(t: Tables, cutoff: int, table: D.Table, key: nat, hlc: Timestamp)
    requires Linked(t)
    ensures var t' := t.(events := Purge(t.events, cutoff));
            Holds(t', table, key, hlc) <==>
            Holds(t, table, key, hlc) && !(table == D.Events && key in OldKeys(t.events, cutoff))
  {
    if table == D.Events {
      if e: Event :| e in t.events && IsEvent(e, key, hlc) {
        if key in OldKeys(t.events, cutoff) {
          var f :| f in t.events && f.row.at < cutoff && f.key == key;
          KeysAreDistinct(t, e, f);
          forall g | g in t.events && IsEvent(g, key, hlc) ensures g !in Purge(t.events, cutoff) {
            KeysAreDistinct(t, e, g);
          }
        } else {
          assert e in Purge(t.events, cutoff);
        }
      }
    }
  }

  lemma {:induction false} RetentionIsPurge(t: Tables, cutoff: int, tx: D.Transaction, h: Timestamp)
    requires Sees(t, tx, h)
    ensures Sees(t.(events := Purge(t.events, cutoff)), D.Write(tx, D.PurgeEvents(OldKeys(t.events, cutoff))), h)
  {
    var t', purged := t.(events := Purge(t.events, cutoff)), OldKeys(t.events, cutoff);
    var rows, after := tx.kept + tx.written, D.Write(tx, D.PurgeEvents(OldKeys(t.events, cutoff)));
    assert after.kept + after.written == D.Unpurged(rows, purged);
    forall table, key: nat, hlc ensures Holds(t', table, key, hlc) <==> Stored(D.Unpurged(rows, purged), table, key, hlc) {
      PurgeHolds(t, cutoff, table, key, hlc);
      PurgeIsStored(rows, purged, table, key, hlc);
    }
    PurgeKeepsOrder(t.events, cutoff);
  }

  lemma {:induction false} AppendHolds(t: Tables, e: Event, table: D.Table, key: nat, hlc: Timestamp)
    ensures var t' := t.(events := t.events + [e], nextEvent := t.nextEvent + 1);
            Holds(t', table, key, hlc) <==> Holds(t, table, key, hlc) || (table == D.Events && IsEvent(e, key, hlc))
  {
    if table == D.Events {
      if f: Event :| f in t.events && IsEvent(f, key, hlc) {
        assert f in t.events + [e];
      }
      if IsEvent(e, key, hlc) {
        assert e in t.events + [e];
      }
    }
  }

  /** One event: the retention's DELETE, and the row. */
  lemma {:induction false} EventIsWritten(t: Tables, row: LogRow, cutoff: int, tx: D.Transaction)
    returns (steps: seq<D.Step>)
    requires Sees(t, tx, row.hlc)
    ensures AreStatements(steps) && Sees(AddEvent(t, row, cutoff), S.Writes(tx, steps), row.hlc)
  {
    var purge := D.PurgeEvents(OldKeys(t.events, cutoff));
    var kept := t.(events := Purge(t.events, cutoff));
    var mid := D.Write(tx, purge);
    RetentionIsPurge(t, cutoff, tx, row.hlc);
    var e := Event(t.nextEvent, row, LastKey(kept.events, row.principal));
    var t' := AddEvent(t, row, cutoff);
    forall table, key: nat, hlc
      ensures Holds(t', table, key, hlc) <==>
              Holds(kept, table, key, hlc) || (table == D.Events && key == t.nextEvent && hlc == row.hlc)
    {
      AppendHolds(kept, e, table, key, hlc);
    }
    InsertShows(kept, t', mid, D.Events);
    EventStaysLinked(t, row, cutoff);
    steps := [purge, D.Insert(D.Events)];
    TwoWrites(tx, purge, D.Insert(D.Events));
  }

  lemma TwoWrites(tx: D.Transaction, a: D.Step, b: D.Step)
    ensures S.Writes(tx, [a, b]) == D.Write(D.Write(tx, a), b)
  {
    assert S.Writes(tx, []) == tx;
    assert [a][..0] == [];
    assert S.Writes(tx, [a]) == D.Write(tx, a);
    assert [a, b][..1] == [a];
  }

  // ----- the statements of a command

  lemma {:induction false} WritesAppend(tx: D.Transaction, a: seq<D.Step>, b: seq<D.Step>)
    ensures S.Writes(tx, a + b) == S.Writes(S.Writes(tx, a), b)
  {
    if b == [] {
      assert a + b == a;
    } else {
      assert (a + b)[..|a + b| - 1] == a + b[..|b| - 1];
      WritesAppend(tx, a, b[..|b| - 1]);
    }
  }

  lemma OneWriteMore(tx: D.Transaction, a: seq<D.Step>, s: D.Step)
    ensures S.Writes(tx, a + [s]) == D.Write(S.Writes(tx, a), s)
  {
    assert (a + [s])[..|a|] == a;
  }

  /** Audit rows stay, and so do the transaction's number and stamp. */
  lemma {:induction false} WritesKeepAudit(tx: D.Transaction, steps: seq<D.Step>)
    requires AreStatements(steps)
    ensures var after := S.Writes(tx, steps);
            after.id == tx.id && after.stamp == tx.stamp && D.AuditedTxs(tx.written) <= D.AuditedTxs(after.written)
  {
    if steps != [] {
      var before := S.Writes(tx, steps[..|steps| - 1]);
      WritesKeepAudit(tx, steps[..|steps| - 1]);
      var after := S.Writes(tx, steps);
      forall n | n in D.AuditedTxs(before.written) ensures n in D.AuditedTxs(after.written) {
        var r :| r in before.written && r.table == D.Audit && r.tx == n;
        assert r in after.written;
      }
    }
  }

  lemma {:induction false} EventsAreWritten(t: Tables, ps: seq<User>, id: TaskId, kind: string, org: string, c: Context,
                                            tx: D.Transaction) returns (steps: seq<D.Step>)
    requires Sees(t, tx, c.hlc)
    ensures AreStatements(steps) && Sees(AddEvents(t, ps, id, kind, org, c), S.Writes(tx, steps), c.hlc)
  {
    steps := [];
    if ps != [] {
      var front := AddEvents(t, ps[..|ps| - 1], id, kind, org, c);
      var some := EventsAreWritten(t, ps[..|ps| - 1], id, kind, org, c, tx);
      var row := LogRow(ps[|ps| - 1], kind, id, c.at, c.hlc);
      var more := EventIsWritten(front, row, c.cutoff(org, front.nextEvent), S.Writes(tx, some));
      WritesAppend(tx, some, more);
      steps := some + more;
    }
  }

  /** The journal rows of one command are statements of its transaction, an audit row among them. */
  lemma {:induction false} RecordIsWritten(t: Tables, id: TaskId, kind: string, actor: User, org: string, c: Context,
                                           tx: D.Transaction) returns (steps: seq<D.Step>)
    requires Sees(t, tx, c.hlc) && id in t.tasks
    ensures var after := S.Writes(tx, steps);
            && AreStatements(steps) && Sees(Record(t, id, kind, actor, org, c), after, c.hlc)
            && tx.id in D.AuditedTxs(after.written)
  {
    var noted := AddTaskEvent(t, id, kind, actor, c);
    var first := [D.Insert(D.TaskEvents)];
    TaskEventIsInserted(t, id, kind, actor, c, tx);
    OneWriteMore(tx, [], first[0]);
    assert [] + first == first;
    var events := EventsAreWritten(noted, Parties(c, t.tasks[id].creator, t.tasks[id].assignee), id, kind, org, c,
                                   S.Writes(tx, first));
    WritesAppend(tx, first, events);
    var mid := S.Writes(tx, first + events);
    WritesKeepAudit(tx, first + events);
    AuditRowIsInserted(AppendForTask(noted, id, kind, org, c), Record(t, id, kind, actor, org, c),
                       LogRow(actor, kind, id, c.at, c.hlc), mid);
    OneWriteMore(tx, first + events, D.Insert(D.Audit));
    steps := first + events + [D.Insert(D.Audit)];
  }

  /** Changes to other columns and tables are not seen by the log. */
  lemma SameJournalsSeen(t: Tables, t': Tables, tx: D.Transaction, h: Timestamp)
    requires Sees(t, tx, h) && t'.events == t.events && t'.nextEvent == t.nextEvent
    requires t'.taskEvents == t.taskEvents && t'.audit == t.audit
    ensures Sees(t', tx, h)
  {
    forall table, key: nat, hlc ensures Holds(t', table, key, hlc) <==> Holds(t, table, key, hlc) {
    }
  }

  lemma {:induction false} EscalationIsWritten(t: Tables, rows: seq<TaskId>, target: User, org: string, c: Context,
                                               tx: D.Transaction) returns (steps: seq<D.Step>)
    requires Sees(t, tx, c.hlc)
    ensures AreStatements(steps) && Sees(EscalateRows(t, rows, target, org, c), S.Writes(tx, steps), c.hlc)
  {
    steps := [];
    if rows != [] {
      var front, id := rows[..|rows| - 1], rows[|rows| - 1];
      var m := EscalateRows(t, front, target, org, c);
      steps := EscalationIsWritten(t, front, target, org, c, tx);
      if id in m.tasks && HasRoom(m, target) {
        var moved := SetAssignee(m, id, target, c.at);
        SameJournalsSeen(m, moved, S.Writes(tx, steps), c.hlc);
        var more := RecordIsWritten(moved, id, "escalated", target, org, c, S.Writes(tx, steps));
        WritesAppend(tx, steps, more);
        steps := steps + more;
      }
    }
  }

  lemma {:induction false} JournalsAreWritten(t: Tables, c: Context, cmd: Command, tx: D.Transaction)
    returns (steps: seq<D.Step>)
    requires Apply(t, c, cmd).Ok? && Sees(t, tx, c.hlc) && tx.written == {}
    ensures AreStatements(steps) && Sees(Journaled(t, c, cmd), S.Writes(tx, steps), c.hlc)
    ensures IsAudited(S.Writes(tx, steps))
    ensures Recorded(t, c, cmd).Some? ==> tx.id in D.AuditedTxs(S.Writes(tx, steps).written)
  {
    var core, journaled, recorded := Core(t, c, cmd), Journaled(t, c, cmd), Recorded(t, c, cmd);
    CoreKeepsJournals(t, c, cmd);
    if recorded.Some? {
      JournaledIsRecord(t, c, cmd);
      SameJournalsSeen(t, core, tx, c.hlc);
      steps := RecordIsWritten(core, recorded.value.0, recorded.value.1, c.me, OrgOf(t, c.me), c, tx);
    } else {
      JournaledOnlyAudits(t, c, cmd);
      steps := AuditIsWritten(t, journaled, tx, c.hlc);
    }
    WritesKeepAudit(tx, steps);
  }

  /** What a command without journal rows of its own leaves. */
  lemma {:induction false} AuditIsWritten(t: Tables, t': Tables, tx: D.Transaction, h: Timestamp)
    returns (steps: seq<D.Step>)
    requires Sees(t, tx, h) && tx.written == {} && OnlyAudits(t, t', h)
    ensures AreStatements(steps) && Sees(t', S.Writes(tx, steps), h) && IsAudited(S.Writes(tx, steps))
  {
    if t'.audit == t.audit {
      steps := [];
      SameJournalsSeen(t, t', tx, h);
    } else {
      var r: LogRow :| t'.audit == t.audit + [r] && r.hlc == h;
      var others := t'.(audit := t.audit);
      SameJournalsSeen(t, others, tx, h);
      AuditRowIsInserted(others, t', r, tx);
      OneWriteMore(tx, [], D.Insert(D.Audit));
      steps := [] + [D.Insert(D.Audit)];
    }
  }

  /** A granted command is a number of statements, and leaves an audit row if it writes at all. */
  lemma {:induction false} CommandIsWritten(t: Tables, c: Context, cmd: Command, tx: D.Transaction)
    returns (steps: seq<D.Step>)
    requires Apply(t, c, cmd).Ok? && Sees(t, tx, c.hlc) && tx.written == {}
    ensures AreStatements(steps) && Sees(Step(t, c, cmd), S.Writes(tx, steps), c.hlc) && IsAudited(S.Writes(tx, steps))
  {
    steps := JournalsAreWritten(t, c, cmd, tx);
    WritesKeepAudit(tx, steps);
    StepIsCoreThenEscalation(t, c, cmd);
    var journaled, org := Journaled(t, c, cmd), EscalatedOrg(t, c, cmd);
    if Step(t, c, cmd) != journaled && ActivePolicy(journaled, org).Some? {
      var target := ActivePolicy(journaled, org).value.target;
      var more := EscalationIsWritten(journaled, cmd.rows, target, org, c, S.Writes(tx, steps));
      WritesAppend(tx, steps, more);
      WritesKeepAudit(S.Writes(tx, steps), more);
      steps := steps + more;
    }
  }

  // ----- a server

  /** What a server does next: a command in one write transaction, with the reading of its stamp;
      an envelope of a bridge that shares the clock; or a crash. */
  datatype Turn =
    | Serve(c: Context, cmd: Command, pt: int, readOk: bool)
    | Stamped(pt: int)
    | Merged(remote: Timestamp)
    | Crashed

  /** The tables and the clock of the process, once it has been used. */
  datatype Server = Server(tables: Tables, clock: Option<Timestamp>)

  const FRESH_SERVER := Server(EMPTY_TABLES, None)

  /** The clock rebuilt from the tables: their latest hlc. */
  ghost function Rebuilt(t: Tables): Timestamp {
    if AllHlcs(t) == {} || !D.AllInRange(AllHlcs(t)) then ORIGIN else D.MaxText(AllHlcs(t))
  }

  ghost function Awake(v: Server, readOk: bool): Timestamp {
    if v.clock.Some? then v.clock.value else if readOk then Rebuilt(v.tables) else ORIGIN
  }

  /** A command is served with the stamp its transaction begins with; a stamp that cannot be
      encoded moves the clock and nothing else. */
  ghost function Next(v: Server, turn: Turn): Server {
    match turn
    case Serve(c, cmd, pt, readOk) =>
      var stamp := LocalRule(Awake(v, readOk), pt);
      Server(if InRange(stamp) then Step(v.tables, c.(hlc := stamp), cmd) else v.tables, Some(stamp))
    case Stamped(pt) => if v.clock.None? then v else v.(clock := Some(LocalRule(v.clock.value, pt)))
    case Merged(remote) => if v.clock.None? then v else v.(clock := Some(MergeRule(v.clock.value, remote)))
    case Crashed => v.(clock := None)
  }

  ghost function Run(turns: seq<Turn>): Server {
    if turns == [] then FRESH_SERVER else Next(Run(turns[..|turns| - 1]), turns[|turns| - 1])
  }

  /** A clock that has to be rebuilt is, from the tables, or the reading is past all they hold. */
  ghost predicate Rehydrates(v: Server, turn: Turn) {
    turn.Serve? && v.clock.None? ==> turn.readOk || forall h :: h in AllHlcs(v.tables) ==> h.l < turn.pt
  }

  ghost predicate IsSound(turns: seq<Turn>) {
    turns == []
    || (IsSound(turns[..|turns| - 1]) && Rehydrates(Run(turns[..|turns| - 1]), turns[|turns| - 1]))
  }

  /** The state of the log that shows the tables, between transactions. */
  ghost predicate Represents(v: Server, s: D.State) {
    s.open.None? && s.clock == v.clock && Linked(v.tables) && Shows(v.tables, s.db.rows, s.db.next)
  }

  lemma {:induction false} SameHlcs(t: Tables, rows: set<D.Row>, next: D.Keys)
    requires Shows(t, rows, next)
    ensures D.Hlcs(rows) == AllHlcs(t)
  {
    forall h ensures h in D.Hlcs(rows) <==> h in AllHlcs(t) {
      if h in D.Hlcs(rows) {
        var r :| r in rows && r.hlc == h;
        assert D.Row(r.table, r.key, h, r.tx) in rows;
        assert Stored(rows, r.table, r.key, h);
        HeldIsInTables(t, r.table, r.key, h);
      }
      if h in AllHlcs(t) {
        var table, key := TableHolds(t, h);
        assert Stored(rows, table, key, h);
        var tx: nat :| D.Row(table, key, h, tx) in rows;
      }
    }
  }

  lemma HeldIsInTables(t: Tables, table: D.Table, key: nat, h: Timestamp)
    requires Holds(t, table, key, h)
    ensures h in AllHlcs(t)
  {
    match table
    case TaskEvents => assert t.taskEvents[key - 1] in t.taskEvents;
    case Audit => assert t.audit[key - 1] in t.audit;
    case Events =>
  }

  lemma TableHolds(t: Tables, h: Timestamp) returns (table: D.Table, key: nat)
    requires h in AllHlcs(t)
    ensures Holds(t, table, key, h)
  {
    if r: LogRow :| r in t.taskEvents && r.hlc == h {
      var i :| 0 <= i < |t.taskEvents| && t.taskEvents[i] == r;
      table, key := D.TaskEvents, i + 1;
    } else if r: LogRow :| r in t.audit && r.hlc == h {
      var i :| 0 <= i < |t.audit| && t.audit[i] == r;
      table, key := D.Audit, i + 1;
    } else {
      var e :| e in t.events && e.row.hlc == h;
      table, key := D.Events, e.key;
      assert IsEvent(e, key, h);
    }
  }

  /** Both clocks wake alike. */
  lemma {:induction false} AwakeAlike(v: Server, s: D.State, readOk: bool)
    requires Represents(v, s) && D.Stored(s.db)
    ensures Awake(v, readOk) == D.Awake(s, readOk)
  {
    SameHlcs(v.tables, s.db.rows, s.db.next);
    D.StartClockIsLatest(s.db.rows);
  }

  // ----- its run of the log

  /** A run of the log, and the state it has reached. */
  ghost predicate Reaches(steps: seq<D.Step>, states: seq<D.State>, s: D.State) {
    D.IsRun(steps, states) && states[|steps|] == s && D.Inv(s) && D.Stored(s.db)
  }

  lemma {:induction false} OneStepOn(steps: seq<D.Step>, states: seq<D.State>, s: D.State, step: D.Step)
    requires Reaches(steps, states, s) && D.Audited(s, step)
    ensures Reaches(steps + [step], states + [D.Next(s, step)], D.Next(s, step))
  {
    var more, reached := steps + [step], states + [D.Next(s, step)];
    forall k | 0 <= k < |more| && D.Stored(reached[k].db) ensures reached[k + 1] == D.Next(reached[k], more[k]) {
      if k < |steps| {
        assert states[k + 1] == D.Next(states[k], steps[k]);
      }
    }
    forall k | 0 <= k < |more| ensures D.Audited(reached[k], more[k]) {
      if k < |steps| {
        assert D.Audited(states[k], steps[k]);
      }
    }
    D.RunInv(more, reached, |more|);
    D.InvStored(D.Next(s, step));
  }

  lemma {:induction false} StatementsOn(steps: seq<D.Step>, states: seq<D.State>, s: D.State, statements: seq<D.Step>)
    returns (more: seq<D.Step>, reached: seq<D.State>)
    requires Reaches(steps, states, s) && s.open.Some? && AreStatements(statements)
    ensures Reaches(more, reached, s.(open := Some(S.Writes(s.open.value, statements))))
  {
    if statements == [] {
      more, reached := steps, states;
    } else {
      var front, last := statements[..|statements| - 1], statements[|statements| - 1];
      more, reached := StatementsOn(steps, states, s, front);
      var mid := s.(open := Some(S.Writes(s.open.value, front)));
      OneStepOn(more, reached, mid, last);
      more, reached := more + [last], reached + [D.Next(mid, last)];
    }
  }

  /** Whatever was ever committed has its hlc in the tables still: its transaction's audit row. */
  lemma {:induction false} EverIsStillThere(s: D.State, r: D.Row)
    requires D.Inv(s) && r in s.ever
    ensures r.hlc in D.Hlcs(s.db.rows)
  {
    assert r.tx in D.AuditedTxs(s.db.rows);
    var a :| a in s.db.rows && a.table == D.Audit && a.tx == r.tx;
    assert D.Ordered(a, r);
  }

  lemma {:induction false} MayBegin(v: Server, s: D.State, c: Context, cmd: Command, pt: int, readOk: bool)
    requires Represents(v, s) && D.Inv(s) && Rehydrates(v, Serve(c, cmd, pt, readOk))
    ensures D.Audited(s, D.Begin(pt, readOk))
  {
    SameHlcs(v.tables, s.db.rows, s.db.next);
    if s.clock.None? && !readOk {
      forall r | r in s.ever ensures r.hlc.l < pt {
        EverIsStillThere(s, r);
      }
    }
  }

  /** The rows after a turn are those before it, and new ones with the turn's stamp and new keys. */
  ghost predicate AddsStamped(t: Tables, t': Tables, stamp: Timestamp) {
    forall table, key: nat, h :: Holds(t', table, key, h) ==>
      Holds(t, table, key, h) || (D.KeyOf(NextKeys(t), table) <= key && h == stamp)
  }

  /** The commit of a transaction that sees the tables. */
  lemma {:induction false} CommitOn(t: Tables, t': Tables, s: D.State, steps: seq<D.Step>, states: seq<D.State>)
    requires Reaches(steps, states, s) && s.open.Some? && Sees(t', s.open.value, s.open.value.stamp)
    requires IsAudited(s.open.value) && Shows(t, s.db.rows, s.db.next)
    ensures var s' := D.Next(s, D.Commit);
            && Reaches(steps + [D.Commit], states + [s'], s') && Represents(Server(t', s.clock), s')
            && AddsStamped(t, t', s.open.value.stamp)
  {
    var tx, s' := s.open.value, D.Next(s, D.Commit);
    OneStepOn(steps, states, s, D.Commit);
    forall table, key: nat, h | Holds(t', table, key, h)
      ensures Holds(t, table, key, h) || (D.KeyOf(NextKeys(t), table) <= key && h == tx.stamp)
    {
      assert Stored(tx.kept + tx.written, table, key, h);
      var n: nat :| D.Row(table, key, h, n) in tx.kept + tx.written;
      var r := D.Row(table, key, h, n);
      if r in tx.written {
        assert D.Own(r, tx, s.db.next);
      } else {
        assert r in s.db.rows;
        assert Stored(s.db.rows, table, key, h);
      }
    }
  }

  /** A command, as steps of the log. */
  lemma {:induction false} ServeIsLogged(v: Server, s: D.State, c: Context, cmd: Command, pt: int, readOk: bool,
                                         steps: seq<D.Step>, states: seq<D.State>)
    returns (more: seq<D.Step>, reached: seq<D.State>, s': D.State)
    requires Reaches(steps, states, s) && Represents(v, s) && Rehydrates(v, Serve(c, cmd, pt, readOk))
    ensures var after := Next(v, Serve(c, cmd, pt, readOk));
            && Reaches(more, reached, s') && Represents(after, s')
            && AddsStamped(v.tables, after.tables, LocalRule(Awake(v, readOk), pt))
  {
    var begin := D.Begin(pt, readOk);
    MayBegin(v, s, c, cmd, pt, readOk);
    AwakeAlike(v, s, readOk);
    OneStepOn(steps, states, s, begin);
    var stamp, begun := LocalRule(Awake(v, readOk), pt), D.Next(s, begin);
    more, reached, s' := steps + [begin], states + [begun], begun;
    if InRange(stamp) {
      var tx := begun.open.value;
      assert tx.kept + tx.written == s.db.rows;
      more, reached, s' := TransactionIsLogged(v.tables, c.(hlc := stamp), cmd, begun, more, reached);
    }
  }

  lemma {:induction false} TransactionIsLogged(t: Tables, c: Context, cmd: Command, begun: D.State, steps: seq<D.Step>,
                                               states: seq<D.State>)
    returns (more: seq<D.Step>, reached: seq<D.State>, s': D.State)
    requires Reaches(steps, states, begun) && begun.open.Some? && Sees(t, begun.open.value, c.hlc)
    requires begun.open.value.written == {} && Shows(t, begun.db.rows, begun.db.next)
    ensures Reaches(more, reached, s') && Represents(Server(Step(t, c, cmd), begun.clock), s')
    ensures AddsStamped(t, Step(t, c, cmd), c.hlc)
  {
    if Apply(t, c, cmd).Ok? {
      var statements := CommandIsWritten(t, c, cmd, begun.open.value);
      more, reached := StatementsOn(steps, states, begun, statements);
      var written := begun.(open := Some(S.Writes(begun.open.value, statements)));
      CommitOn(t, Step(t, c, cmd), written, more, reached);
      s' := D.Next(written, D.Commit);
      more, reached := more + [D.Commit], reached + [s'];
    } else {
      OneStepOn(steps, states, begun, D.Rollback);
      s' := D.Next(begun, D.Rollback);
      more, reached := steps + [D.Rollback], states + [s'];
    }
  }

  /** The log's step for a turn that is no command. */
  function LogStep(turn: Turn): D.Step
    requires !turn.Serve?
  {
    match turn
    case Stamped(pt) => D.EnvelopeStamp(pt)
    case Merged(remote) => D.EnvelopeMerge(remote)
    case Crashed => D.Crash
  }

  /** The hlc of the rows a turn adds. */
  ghost function StampOf(v: Server, turn: Turn): Timestamp {
    if turn.Serve? then LocalRule(Awake(v, turn.readOk), turn.pt) else ORIGIN
  }

  lemma {:induction false} TurnIsLogged(v: Server, turn: Turn, s: D.State, steps: seq<D.Step>, states: seq<D.State>)
    returns (more: seq<D.Step>, reached: seq<D.State>, s': D.State)
    requires Reaches(steps, states, s) && Represents(v, s) && Rehydrates(v, turn)
    ensures Reaches(more, reached, s') && Represents(Next(v, turn), s')
    ensures AddsStamped(v.tables, Next(v, turn).tables, StampOf(v, turn))
  {
    if turn.Serve? {
      more, reached, s' := ServeIsLogged(v, s, turn.c, turn.cmd, turn.pt, turn.readOk, steps, states);
    } else {
      OneStepOn(steps, states, s, LogStep(turn));
      s' := D.Next(s, LogStep(turn));
      more, reached := steps + [LogStep(turn)], states + [s'];
    }
  }

  /** The refinement: whatever commands a server is given, in any order and whether granted or
      refused, with whatever envelopes and crashes between them, its tables and its clock are those
      of a run of the durable log that satisfies its premise. */
  lemma {:induction false} TablesAreALog(turns: seq<Turn>)
    returns (steps: seq<D.Step>, states: seq<D.State>)
    requires IsSound(turns)
    ensures D.IsRun(steps, states) && Represents(Run(turns), states[|steps|])
    ensures Reaches(steps, states, states[|steps|])
  {
    if turns == [] {
      steps, states := [], [D.FRESH];
      FreshIsRepresented();
      D.RunInv(steps, states, 0);
      D.InvStored(D.FRESH);
    } else {
      var front := turns[..|turns| - 1];
      steps, states := TablesAreALog(front);
      var s := states[|steps|];
      var s';
      steps, states, s' := TurnIsLogged(Run(front), turns[|turns| - 1], s, steps, states);
    }
  }

  lemma FreshIsRepresented()
    ensures Represents(FRESH_SERVER, D.FRESH)
  {
    forall table, key: nat, h ensures Holds(EMPTY_TABLES, table, key, h) <==> Stored({}, table, key, h) {
    }
  }

  // ----- what follows for the tables

  /** I4 on the tables themselves: along each of the three, hlc never decreases with the key. */
  lemma {:induction false} HlcFollowsTheKeys(turns: seq<Turn>, table: D.Table, key: nat, h: Timestamp,
                                             key': nat, h': Timestamp)
    requires IsSound(turns) && key <= key'
    requires Holds(Run(turns).tables, table, key, h) && Holds(Run(turns).tables, table, key', h')
    ensures AtMost(h, h')
  {
    var steps, states := TablesAreALog(turns);
    var s := states[|steps|];
    assert Stored(s.db.rows, table, key, h) && Stored(s.db.rows, table, key', h');
    var m: nat :| D.Row(table, key, h, m) in s.db.rows;
    var n: nat :| D.Row(table, key', h', n) in s.db.rows;
    D.CommittedRowsAreOrdered(steps, states, |steps|, D.Row(table, key, h, m), D.Row(table, key', h', n));
  }

  lemma {:induction false} StampIsAfterTheTables(turns: seq<Turn>, turn: Turn)
    requires IsSound(turns) && turn.Serve? && Rehydrates(Run(turns), turn)
    ensures forall h :: h in AllHlcs(Run(turns).tables) ==> Before(h, StampOf(Run(turns), turn))
    ensures AddsStamped(Run(turns).tables, Next(Run(turns), turn).tables, StampOf(Run(turns), turn))
  {
    var v := Run(turns);
    var steps, states := TablesAreALog(turns);
    var s := states[|steps|];
    MayBegin(v, s, turn.c, turn.cmd, turn.pt, turn.readOk);
    AwakeAlike(v, s, turn.readOk);
    SameHlcs(v.tables, s.db.rows, s.db.next);
    D.StampIsAfterEverything(s, turn.pt, turn.readOk);
    forall h | h in AllHlcs(v.tables) ensures Before(h, StampOf(v, turn)) {
      var r :| r in s.db.rows && r.hlc == h;
      assert r in s.ever;
    }
    var more, reached, s' := TurnIsLogged(v, turn, s, steps, states);
  }

  lemma {:induction false} AuditKeepsAll(turns: seq<Turn>, k: nat)
    requires k <= |turns|
    ensures AuditCovers(Run(turns).tables)
    ensures AllHlcs(Run(turns[..k]).tables) <= HlcsOf(Run(turns).tables.audit)
    decreases |turns|
  {
    if turns != [] {
      var front, turn := turns[..|turns| - 1], turns[|turns| - 1];
      AuditKeepsAll(front, if k < |turns| then k else 0);
      var v := Run(front);
      if turn.Serve? && InRange(StampOf(v, turn)) {
        var c := turn.c.(hlc := StampOf(v, turn));
        StepWritesWithItsStamp(v.tables, c, turn.cmd);
        WritesKeepCover(v.tables, Step(v.tables, c, turn.cmd), c.hlc);
      }
      if k < |turns| {
        assert front[..k] == turns[..k];
      } else {
        assert turns[..k] == turns;
        CoverIsAll(Run(turns).tables);
      }
    }
  }

  lemma CoverIsAll(t: Tables)
    requires AuditCovers(t)
    ensures AllHlcs(t) <= HlcsOf(t.audit)
  {
  }

  /** I3 and I4 on the tables, across all three and across crashes: every row added after turn k has
      an hlc strictly after any that a table held then, deleted since or not. */
  lemma {:induction false} LaterRowsAreLater(turns: seq<Turn>, k: nat, table: D.Table, key: nat, h: Timestamp,
                                             before: Timestamp)
    requires IsSound(turns) && k <= |turns|
    requires Holds(Run(turns).tables, table, key, h) && D.KeyOf(NextKeys(Run(turns[..k]).tables), table) <= key
    requires before in AllHlcs(Run(turns[..k]).tables)
    ensures Before(before, h)
    decreases |turns|
  {
    if k == |turns| {
      assert turns[..k] == turns;
      KeysAreBelow(turns, table, key, h);
    } else {
      var front, turn := turns[..|turns| - 1], turns[|turns| - 1];
      assert front[..k] == turns[..k];
      if Holds(Run(front).tables, table, key, h) {
        LaterRowsAreLater(front, k, table, key, h, before);
      } else {
        StampIsAfterTheTables(front, turn);
        AuditKeepsAll(front, k);
      }
    }
  }

  lemma {:induction false} KeysAreBelow(turns: seq<Turn>, table: D.Table, key: nat, h: Timestamp)
    requires IsSound(turns) && Holds(Run(turns).tables, table, key, h)
    ensures key < D.KeyOf(NextKeys(Run(turns).tables), table)
  {
    var steps, states := TablesAreALog(turns);
    if table == D.Events {
      var e :| e in Run(turns).tables.events && IsEvent(e, key, h);
    }
  }
}
