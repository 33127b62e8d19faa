/** One server process and its database, over runs of serialized write transactions,
    rollbacks, crashes and restarts. The three tables with an hlc column (`events`,
    `task_events`, `audit_log`) are one set of tagged rows; keys are AUTOINCREMENT.
    Physical readings are arbitrary. The process clock may also move between and inside
    transactions, for the envelopes of a bridge that shares it. */
module DurableLog {
  import opened Wrappers
  import opened TextOrder
  import opened Timestamps
  import opened ClockText

  datatype Table = Events | TaskEvents | Audit

  /** A row of one of the tables: its key, its hlc, and the transaction that wrote it. */
  datatype Row = Row(table: Table, key: nat, hlc: Timestamp, tx: nat)

  /** The next AUTOINCREMENT key of each table; it survives the deletion of rows. */
  datatype Keys = Keys(events: nat, taskEvents: nat, audit: nat)

  datatype Db = Db(rows: set<Row>, next: Keys)

  /** An open write transaction: the committed rows it has not deleted, the rows it has
      written, and its one stamp. */
  datatype Transaction = Transaction(id: nat, stamp: Timestamp, kept: set<Row>, written: set<Row>, next: Keys)

  /** `ever` collects every row that was ever committed, purged or not. */
  datatype State = State(db: Db, open: Option<Transaction>, clock: Option<Timestamp>, started: nat, ever: set<Row>)

  datatype Step =
    | Begin(pt: int, readOk: bool)   // BEGIN IMMEDIATE, then the transaction's one stamp
    | Insert(table: Table)
    | PurgeEvents(purged: set<nat>)  // DELETE FROM events, any rows
    | Commit
    | Rollback
    | EnvelopeStamp(pt: int)
    | EnvelopeMerge(remote: Timestamp)
    | Crash

  const FRESH := State(Db({}, Keys(1, 1, 1)), None, None, 0, {})

  function KeyOf(next: Keys, table: Table): nat {
    match table
    case Events => next.events
    case TaskEvents => next.taskEvents
    case Audit => next.audit
  }

  function Advance(next: Keys, table: Table): Keys {
    match table
    case Events => next.(events := next.events + 1)
    case TaskEvents => next.(taskEvents := next.taskEvents + 1)
    case Audit => next.(audit := next.audit + 1)
  }

  // ----- SELECT MAX(hlc), and the clock rebuilt from it

  function AsciiDigit(c: char): int {
    if '0' <= c <= '9' then c as int - '0' as int else -1
  }

  function Hlcs(rows: set<Row>): set<Timestamp> {
    set r | r in rows :: r.hlc
  }

  ghost predicate AllInRange(hlcs: set<Timestamp>) {
    forall t :: t in hlcs ==> InRange(t)
  }

  ghost predicate IsLatest(hlcs: set<Timestamp>, m: Timestamp) {
    m in hlcs && forall t :: t in hlcs ==> AtMost(t, m)
  }

  ghost predicate IsMaxText(hlcs: set<Timestamp>, m: Timestamp)
    requires AllInRange(hlcs)
  {
    m in hlcs && forall t :: t in hlcs ==> !TextBefore(Text(m), Text(t))
  }

  /** MAX over the text column picks the causally latest timestamp. */
  lemma MaxTextIsLatest(hlcs: set<Timestamp>, m: Timestamp)
    requires AllInRange(hlcs)
    ensures IsMaxText(hlcs, m) <==> IsLatest(hlcs, m)
  {
    if m in hlcs {
      forall t | t in hlcs ensures !TextBefore(Text(m), Text(t)) <==> AtMost(t, m) {
        TextOrderIsCausalOrder(m, t);
      }
    }
  }

  lemma {:induction false} LatestExists(hlcs: set<Timestamp>) returns (m: Timestamp)
    requires hlcs != {}
    ensures IsLatest(hlcs, m)
  {
    m :| m in hlcs;
    if hlcs != {m} {
      var rest := hlcs - {m};
      var other := LatestExists(rest);
      assert forall t :: t in hlcs ==> t == m || t in rest;
      m := if Before(m, other) then other else m;
    }
  }

  ghost function MaxText(hlcs: set<Timestamp>): (m: Timestamp)
    requires hlcs != {} && AllInRange(hlcs)
    ensures IsLatest(hlcs, m)
  {
    assert exists t :: IsMaxText(hlcs, t) by {
      var t := LatestExists(hlcs);
      MaxTextIsLatest(hlcs, t);
    }
    var t :| IsMaxText(hlcs, t);
    MaxTextIsLatest(hlcs, t);
    t
  }

  /** `max_hlc`: the text of the maximum, or None for empty tables. */
  ghost function MaxHlc(rows: set<Row>): Option<string>
    requires AllInRange(Hlcs(rows))
  {
    if Hlcs(rows) == {} then None else Some(Text(MaxText(Hlcs(rows))))
  }

  /** `HLC(initial=...)`: a fresh clock, or one that starts at the persisted bound. */
  function StartClock(bound: Option<string>): Timestamp {
    if bound.None? then ORIGIN
    else match Decode(AsciiDigit, bound.value)
         case Ok(t) => t
         case Err(_) => ORIGIN
  }

  lemma StartClockIsLatest(rows: set<Row>)
    requires AllInRange(Hlcs(rows))
    ensures Hlcs(rows) == {} ==> StartClock(MaxHlc(rows)) == ORIGIN
    ensures Hlcs(rows) != {} ==> IsLatest(Hlcs(rows), StartClock(MaxHlc(rows)))
  {
    if Hlcs(rows) != {} {
      DecodeEncode(AsciiDigit, MaxText(Hlcs(rows)));
    }
  }

  // ----- steps

  ghost predicate Stored(db: Db) {
    AllInRange(Hlcs(db.rows))
  }

  /** The clock at its next use: the live one, or one rebuilt from the committed rows when
      that read succeeds. */
  ghost function Awake(s: State, readOk: bool): Timestamp
    requires Stored(s.db)
  {
    match s.clock
    case Some(t) => t
    case None => if readOk then StartClock(MaxHlc(s.db.rows)) else ORIGIN
  }

  function InsertRow(tx: Transaction, table: Table): Transaction {
    tx.(written := tx.written + {Row(table, KeyOf(tx.next, table), tx.stamp, tx.id)},
        next := Advance(tx.next, table))
  }

  function Unpurged(rows: set<Row>, purged: set<nat>): set<Row> {
    set r | r in rows && !(r.table == Events && r.key in purged)
  }

  /** One statement of an open transaction. */
  function Write(tx: Transaction, step: Step): Transaction {
    match step
    case Insert(table) => InsertRow(tx, table)
    case PurgeEvents(purged) => tx.(kept := Unpurged(tx.kept, purged), written := Unpurged(tx.written, purged))
    case _ => tx
  }

  /** A step that is not possible in the current state (a second BEGIN waits for the
      write lock, for one) leaves it unchanged. */
  ghost function Next(s: State, step: Step): State
    requires Stored(s.db)
  {
    match step
    case Begin(pt, readOk) =>
      if s.open.Some? then s
      else
        var now := LocalRule(Awake(s, readOk), pt);
        // a stamp that cannot be encoded raises: the transaction rolls back, the clock has moved
        if InRange(now)
        then s.(open := Some(Transaction(s.started, now, s.db.rows, {}, s.db.next)),
                clock := Some(now), started := s.started + 1)
        else s.(clock := Some(now))
    case Insert(_) => if s.open.None? then s else s.(open := Some(Write(s.open.value, step)))
    case PurgeEvents(_) => if s.open.None? then s else s.(open := Some(Write(s.open.value, step)))
    case Commit =>
      if s.open.None? then s
      else
        var tx := s.open.value;
        s.(db := Db(tx.kept + tx.written, tx.next), open := None, ever := s.ever + tx.written)
    case Rollback => s.(open := None)
    case EnvelopeStamp(pt) => if s.clock.None? then s else s.(clock := Some(LocalRule(s.clock.value, pt)))
    case EnvelopeMerge(remote) => if s.clock.None? then s else s.(clock := Some(MergeRule(s.clock.value, remote)))
    case Crash => s.(open := None, clock := None)
  }

  // ----- the invariant

  /** Same transaction, same hlc; earlier transaction, smaller hlc; keys follow transactions. */
  predicate Ordered(r: Row, q: Row) {
    && (r.tx == q.tx ==> r.hlc == q.hlc)
    && (r.tx < q.tx ==> Before(r.hlc, q.hlc))
    && (r.table == q.table && r.key < q.key ==> r.tx <= q.tx)
    && (r.table == q.table && r.key == q.key ==> r == q)
  }

  ghost predicate AllOrdered(rows: set<Row>) {
    forall r, q :: r in rows && q in rows ==> Ordered(r, q)
  }

  predicate RowOk(r: Row, next: Keys, started: nat) {
    InRange(r.hlc) && r.key < KeyOf(next, r.table) && r.tx < started
  }

  /** The transactions that still have a row in the audit log. */
  function AuditedTxs(rows: set<Row>): set<nat> {
    set r | r in rows && r.table == Audit :: r.tx
  }

  /** A row committed before the open transaction began. */
  predicate Older(r: Row, tx: Transaction, next: Keys) {
    r.tx < tx.id && Before(r.hlc, tx.stamp) && r.key < KeyOf(next, r.table)
  }

  predicate Own(r: Row, tx: Transaction, next: Keys) {
    r.tx == tx.id && r.hlc == tx.stamp && KeyOf(next, r.table) <= r.key < KeyOf(tx.next, r.table)
  }

  predicate KeysAtMost(a: Keys, b: Keys) {
    a.events <= b.events && a.taskEvents <= b.taskEvents && a.audit <= b.audit
  }

  ghost predicate TransactionOk(s: State, tx: Transaction) {
    && tx.id < s.started && InRange(tx.stamp) && Before(ORIGIN, tx.stamp) && KeysAtMost(s.db.next, tx.next)
    && s.clock.Some? && AtMost(tx.stamp, s.clock.value)
    && tx.kept <= s.db.rows
    && AuditedTxs(s.db.rows) <= AuditedTxs(tx.kept)
    && (forall r :: r in s.ever ==> Older(r, tx, s.db.next))
    && (forall r :: r in tx.written ==> Own(r, tx, s.db.next))
  }

  ghost predicate Inv(s: State) {
    && s.db.rows <= s.ever
    && AllOrdered(s.ever)
    && (forall r :: r in s.ever ==> RowOk(r, s.db.next, s.started))
    && (forall r :: r in s.ever ==> r.tx in AuditedTxs(s.db.rows))
    && (forall r :: r in s.ever ==> Before(ORIGIN, r.hlc))
    && (s.clock.Some? ==> AtMost(ORIGIN, s.clock.value))
    && (s.clock.Some? ==> forall r :: r in s.ever ==> AtMost(r.hlc, s.clock.value))
    && (s.open.Some? ==> TransactionOk(s, s.open.value))
  }

  /** The physical reading is past everything ever committed. */
  ghost predicate PastEverything(s: State, pt: int) {
    forall r :: r in s.ever ==> r.hlc.l < pt
  }

  /** A transaction that commits rows commits an audit row; and a clock that has to be rebuilt
      reads the database, or the transaction begins past everything committed. */
  ghost predicate Audited(s: State, step: Step) {
    && (step.Begin? && s.open.None? && s.clock.None? ==> step.readOk || PastEverything(s, step.pt))
    && (step.Commit? && s.open.Some? ==>
          s.open.value.written == {} || s.open.value.id in AuditedTxs(s.open.value.written))
  }

  lemma InvStored(s: State)
    requires Inv(s)
    ensures Stored(s.db)
  {
    forall t | t in Hlcs(s.db.rows) ensures InRange(t) {
      var r :| r in s.db.rows && r.hlc == t;
      assert r in s.ever;
    }
  }

  /** Rehydration loses nothing: the rebuilt clock is at or after every hlc that was ever
      committed, purged rows included, and is itself one of the stored values. */
  lemma RehydrationReachesEverything(s: State)
    requires Inv(s) && Stored(s.db)
    ensures forall r :: r in s.ever ==> AtMost(r.hlc, StartClock(MaxHlc(s.db.rows)))
    ensures s.ever != {} ==> StartClock(MaxHlc(s.db.rows)) in Hlcs(s.db.rows)
  {
    StartClockIsLatest(s.db.rows);
    var start := StartClock(MaxHlc(s.db.rows));
    forall r | r in s.ever ensures AtMost(r.hlc, start) && start in Hlcs(s.db.rows) {
      assert r.tx in AuditedTxs(s.db.rows);
      var a :| a in s.db.rows && a.table == Audit && a.tx == r.tx;
      assert Ordered(a, r);
      assert a.hlc in Hlcs(s.db.rows);
    }
  }

  lemma RebuiltClockIsNotNegative(s: State)
    requires Inv(s) && Stored(s.db)
    ensures AtMost(ORIGIN, StartClock(MaxHlc(s.db.rows)))
  {
    StartClockIsLatest(s.db.rows);
    if Hlcs(s.db.rows) != {} {
      var r :| r in s.db.rows && r.hlc == StartClock(MaxHlc(s.db.rows));
      assert r in s.ever;
    }
  }

  /** When a clock has to be rebuilt and reading the database fails, the stamp of the next
      transaction is after everything ever committed if and only if its physical reading is past
      all of it. */
  lemma FailedReadKeepsTheOrderExactlyWhen(s: State, pt: int)
    requires Inv(s) && s.open.None? && s.clock.None?
    ensures Stored(s.db)
    ensures (forall r :: r in s.ever ==> Before(r.hlc, LocalRule(Awake(s, false), pt))) <==> PastEverything(s, pt)
  {
    InvStored(s);
    forall r | r in s.ever ensures Before(r.hlc, LocalRule(ORIGIN, pt)) <==> r.hlc.l < pt {
      assert RowOk(r, s.db.next, s.started);
    }
  }

  /** A new transaction's stamp is after everything ever committed. */
  lemma {:induction false} StampIsAfterEverything(s: State, pt: int, readOk: bool)
    requires Inv(s) && Stored(s.db) && Audited(s, Begin(pt, readOk)) && s.open.None?
    ensures var now := LocalRule(Awake(s, readOk), pt);
            Before(ORIGIN, now) && forall r :: r in s.ever ==> Before(r.hlc, now)
  {
    if s.clock.None? && readOk {
      RehydrationReachesEverything(s);
      RebuiltClockIsNotNegative(s);
    } else if s.clock.None? {
      FailedReadKeepsTheOrderExactlyWhen(s, pt);
    }
  }

  lemma {:induction false} BeginPreserves(s: State, pt: int, readOk: bool)
    requires Inv(s) && Stored(s.db) && Audited(s, Begin(pt, readOk))
    ensures Inv(Next(s, Begin(pt, readOk)))
  {
    if s.open.None? {
      StampIsAfterEverything(s, pt, readOk);
    }
  }

  lemma {:induction false} WritePreserves(s: State, step: Step)
    requires Inv(s) && Stored(s.db) && (step.Insert? || step.PurgeEvents?)
    ensures Inv(Next(s, step))
  {
    if s.open.Some? && step.PurgeEvents? {
      var tx, tx' := s.open.value, Next(s, step).open.value;
      forall t | t in AuditedTxs(tx.kept) ensures t in AuditedTxs(tx'.kept) {
        var a :| a in tx.kept && a.table == Audit && a.tx == t;
        assert a in tx'.kept;
      }
    }
  }

  lemma {:induction false} CommitPreserves(s: State)
    requires Inv(s) && Stored(s.db) && s.open.Some? && Audited(s, Commit)
    ensures Inv(Next(s, Commit))
  {
    var tx := s.open.value;
    var s' := Next(s, Commit);
    assert AuditedTxs(tx.kept) <= AuditedTxs(s'.db.rows) && AuditedTxs(tx.written) <= AuditedTxs(s'.db.rows) by {
      forall t | t in AuditedTxs(tx.kept) ensures t in AuditedTxs(s'.db.rows) {
        var a :| a in tx.kept && a.table == Audit && a.tx == t;
        assert a in s'.db.rows;
      }
      forall t | t in AuditedTxs(tx.written) ensures t in AuditedTxs(s'.db.rows) {
        var a :| a in tx.written && a.table == Audit && a.tx == t;
        assert a in s'.db.rows;
      }
    }
    forall r, q | r in s'.ever && q in s'.ever ensures Ordered(r, q) {
      assert r in tx.written ==> Own(r, tx, s.db.next);
      assert q in tx.written ==> Own(q, tx, s.db.next);
      assert r in s.ever ==> Older(r, tx, s.db.next);
      assert q in s.ever ==> Older(q, tx, s.db.next);
    }
  }

  lemma {:induction false} StepPreserves(s: State, step: Step)
    requires Inv(s) && Stored(s.db) && Audited(s, step)
    ensures Inv(Next(s, step))
  {
    match step
    case Begin(pt, readOk) => BeginPreserves(s, pt, readOk);
    case Insert(_) => WritePreserves(s, step);
    case PurgeEvents(_) => WritePreserves(s, step);
    case Commit => if s.open.Some? { CommitPreserves(s); }
    case Rollback =>
    case EnvelopeStamp(_) =>
    case EnvelopeMerge(_) =>
    case Crash =>
  }

  // ----- runs

  /** `states` are the states of a run from an empty database: one more than steps. */
  ghost predicate Executes(steps: seq<Step>, states: seq<State>) {
    && |states| == |steps| + 1
    && states[0] == FRESH
    && forall k :: 0 <= k < |steps| && Stored(states[k].db) ==> states[k + 1] == Next(states[k], steps[k])
  }

  /** A run all of whose steps are audited. */
  ghost predicate IsRun(steps: seq<Step>, states: seq<State>) {
    Executes(steps, states) && forall k :: 0 <= k < |steps| ==> Audited(states[k], steps[k])
  }

  lemma {:induction false} RunInv(steps: seq<Step>, states: seq<State>, k: nat)
    requires IsRun(steps, states) && k < |states|
    ensures Inv(states[k])
  {
    if k > 0 {
      RunInv(steps, states, k - 1);
      InvStored(states[k - 1]);
      StepPreserves(states[k - 1], steps[k - 1]);
    }
  }

  /** I4 over whole runs: two rows of one transaction share the hlc, rows of different
      transactions, in any two tables, compare by hlc strictly as their transactions do, and
      within a table hlc never decreases with the key. Purged rows are included. */
  lemma CommittedRowsAreOrdered(steps: seq<Step>, states: seq<State>, k: nat, r: Row, q: Row)
    requires IsRun(steps, states) && k < |states|
    requires r in states[k].ever && q in states[k].ever
    ensures r.tx < q.tx <==> Before(r.hlc, q.hlc)
    ensures r.table == q.table && r.key <= q.key ==> AtMost(r.hlc, q.hlc)
    ensures r.table == q.table && r.key < q.key && r.tx != q.tx ==> Before(r.hlc, q.hlc)
  {
    RunInv(steps, states, k);
    assert Ordered(r, q) && Ordered(q, r);
  }

  /** I3 across restarts: in every state of every run, the clock the next transaction will
      stamp from, live or rebuilt after a crash, is at or after every hlc ever committed. */
  lemma ClockIsNeverBehindTheLog(steps: seq<Step>, states: seq<State>, k: nat)
    requires IsRun(steps, states) && k < |states|
    ensures Stored(states[k].db) && states[k].db.rows <= states[k].ever
    ensures forall r :: r in states[k].ever ==> AtMost(r.hlc, Awake(states[k], true))
  {
    RunInv(steps, states, k);
    InvStored(states[k]);
    RehydrationReachesEverything(states[k]);
  }

  /** Purging never lowers the bound: MAX(hlc) over the tables only grows along a run. */
  lemma {:induction false} PersistedBoundNeverDrops(steps: seq<Step>, states: seq<State>, k: nat)
    requires IsRun(steps, states) && k + 1 < |states|
    ensures Stored(states[k].db) && Stored(states[k + 1].db)
    ensures AtMost(StartClock(MaxHlc(states[k].db.rows)), StartClock(MaxHlc(states[k + 1].db.rows)))
  {
    RunInv(steps, states, k);
    RunInv(steps, states, k + 1);
    InvStored(states[k]);
    InvStored(states[k + 1]);
    LaterBoundIsLater(states[k], states[k + 1]);
  }

  lemma LaterBoundIsLater(s: State, s': State)
    requires Inv(s) && Inv(s') && s.ever <= s'.ever && Stored(s.db) && Stored(s'.db)
    ensures AtMost(StartClock(MaxHlc(s.db.rows)), StartClock(MaxHlc(s'.db.rows)))
  {
    StartClockIsLatest(s.db.rows);
    StartClockIsLatest(s'.db.rows);
    RehydrationReachesEverything(s');
    var before := StartClock(MaxHlc(s.db.rows));
    if Hlcs(s.db.rows) != {} {
      var r :| r in s.db.rows && r.hlc == before;
      assert r in s'.ever;
    }
  }

  // ----- both premises are needed

  /** A transaction, a crash, and another transaction whose clock cannot be rehydrated. */
  function TwoTransactions(p: int, q: int): seq<Step> {
    [Begin(p, true), Insert(Audit), Commit, Crash, Begin(q, false), Insert(Audit), Commit]
  }

  const AFTER_ONE := Keys(1, 1, 2)

  function FirstRow(p: int): Row {
    Row(Audit, 1, Timestamp(p, 0), 0)
  }

  function SecondRow(q: int): Row {
    Row(Audit, 2, Timestamp(q, 0), 1)
  }

  /** The states of that run. */
  function TwoTransactionStates(p: int, q: int): seq<State> {
    var (a, b) := (FirstRow(p), SecondRow(q));
    var one := Db({a}, AFTER_ONE);
    [FRESH,
     State(FRESH.db, Some(Transaction(0, a.hlc, {}, {}, Keys(1, 1, 1))), Some(a.hlc), 1, {}),
     State(FRESH.db, Some(Transaction(0, a.hlc, {}, {a}, AFTER_ONE)), Some(a.hlc), 1, {}),
     State(one, None, Some(a.hlc), 1, {a}),
     State(one, None, None, 1, {a}),
     State(one, Some(Transaction(1, b.hlc, {a}, {}, AFTER_ONE)), Some(b.hlc), 2, {a}),
     State(one, Some(Transaction(1, b.hlc, {a}, {b}, Keys(1, 1, 3))), Some(b.hlc), 2, {a}),
     State(Db({a, b}, Keys(1, 1, 3)), None, Some(b.hlc), 2, {a, b})]
  }

  lemma FirstTransactionRuns(p: int, q: int)
    requires 0 < p <= MAX_L
    ensures var states, steps := TwoTransactionStates(p, q), TwoTransactions(p, q);
            forall k :: 0 <= k < 3 ==> Stored(states[k].db) && states[k + 1] == Next(states[k], steps[k])
  {
    StartClockIsLatest({});
    assert {} + {FirstRow(p)} == {FirstRow(p)};
  }

  lemma SecondTransactionRuns(p: int, q: int)
    requires 0 < p <= MAX_L && 0 < q <= MAX_L
    ensures var states, steps := TwoTransactionStates(p, q), TwoTransactions(p, q);
            forall k :: 3 <= k < 7 ==> Stored(states[k].db) && states[k + 1] == Next(states[k], steps[k])
  {
    assert {} + {SecondRow(q)} == {SecondRow(q)} && {FirstRow(p)} + {SecondRow(q)} == {FirstRow(p), SecondRow(q)};
  }

  /** The failing run, from the empty database: if the physical clock reads p and, after the
      crash, q, the two committed rows are in order if and only if q is past p. */
  lemma FailedReadBreaksTheOrder(p: int, q: int)
    requires 0 < p <= MAX_L && 0 < q <= MAX_L
    ensures var states := TwoTransactionStates(p, q);
            && Executes(TwoTransactions(p, q), states)
            && FirstRow(p) in states[7].ever && SecondRow(q) in states[7].ever
    ensures FirstRow(p).tx < SecondRow(q).tx && (Before(FirstRow(p).hlc, SecondRow(q).hlc) <==> p < q)
  {
    FirstTransactionRuns(p, q);
    SecondTransactionRuns(p, q);
    var states, steps := TwoTransactionStates(p, q), TwoTransactions(p, q);
    forall k | 0 <= k < |steps| ensures states[k + 1] == Next(states[k], steps[k]) {
      assert k < 3 || 3 <= k < 7;
    }
  }

  /** Purging events keeps the rehydration bound if and only if some row that is left holds it,
      as the audit row of its transaction does. */
  lemma PurgeKeepsTheBoundExactlyWhen(rows: set<Row>, purged: set<nat>)
    requires AllInRange(Hlcs(rows)) && rows != {} && forall r :: r in rows ==> Before(ORIGIN, r.hlc)
    ensures AllInRange(Hlcs(Unpurged(rows, purged)))
    ensures StartClock(MaxHlc(Unpurged(rows, purged))) == StartClock(MaxHlc(rows)) <==>
            exists r :: r in Unpurged(rows, purged) && IsLatest(Hlcs(rows), r.hlc)
  {
    var left := Unpurged(rows, purged);
    assert Hlcs(left) <= Hlcs(rows);
    var any :| any in rows;
    assert any.hlc in Hlcs(rows);
    StartClockIsLatest(rows);
    StartClockIsLatest(left);
    var before, after := StartClock(MaxHlc(rows)), StartClock(MaxHlc(left));
    var top :| top in rows && top.hlc == before;
    if after == before {
      assert Hlcs(left) != {};
      var r :| r in left && r.hlc == after;
    }
    forall r | r in left && IsLatest(Hlcs(rows), r.hlc) ensures after == before {
      assert r.hlc in Hlcs(left);
    }
  }
}
