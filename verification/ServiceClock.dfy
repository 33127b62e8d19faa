/** The service object's side of the durable log: the lazily built process clock and the
    write transaction around it, proved to take the steps of DurableLog. */
module ServiceClock {
  import opened Wrappers
  import opened TextOrder
  import opened Timestamps
  import opened ClockText
  import opened HybridClock
  import opened DurableLog

  /** The statements of one transaction, in order. */
  function Writes(tx: Transaction, statements: seq<Step>): Transaction {
    if statements == [] then tx
    else Write(Writes(tx, statements[..|statements| - 1]), statements[|statements| - 1])
  }

  function InsertsInto(statements: seq<Step>, table: Table): nat {
    if statements == [] then 0
    else InsertsInto(statements[..|statements| - 1], table) + if statements[|statements| - 1] == Insert(table) then 1 else 0
  }

  predicate Purges(statement: Step, r: Row) {
    statement.PurgeEvents? && r.table == Events && r.key in statement.purged
  }

  ghost predicate IsPurged(statements: seq<Step>, from: nat, r: Row) {
    exists j :: from <= j < |statements| && Purges(statements[j], r)
  }

  /** Statement k inserts the row under the next key of its table, and none after it deletes it. */
  ghost predicate IsInserted(next: Keys, stamp: Timestamp, id: nat, statements: seq<Step>, k: nat, r: Row) {
    && k < |statements| && statements[k] == Insert(r.table) && !IsPurged(statements, k, r)
    && r == Row(r.table, KeyOf(next, r.table) + InsertsInto(statements[..k], r.table), stamp, id)
  }

  /** The row is there after the statements: an old one or an inserted one that none deletes. */
  ghost predicate IsLeft(rows: set<Row>, next: Keys, stamp: Timestamp, id: nat, statements: seq<Step>, r: Row) {
    (r in rows && !IsPurged(statements, 0, r)) || exists k :: IsInserted(next, stamp, id, statements, k, r)
  }

  lemma {:induction false} OneStatementMore(next: Keys, stamp: Timestamp, id: nat, statements: seq<Step>, r: Row)
    requires statements != []
    ensures var front, last := statements[..|statements| - 1], statements[|statements| - 1];
            && (IsPurged(statements, 0, r) <==> IsPurged(front, 0, r) || Purges(last, r))
            && ((exists k :: IsInserted(next, stamp, id, statements, k, r)) <==>
                  || ((exists k :: IsInserted(next, stamp, id, front, k, r)) && !Purges(last, r))
                  || (last == Insert(r.table)
                      && r == Row(r.table, KeyOf(next, r.table) + InsertsInto(front, r.table), stamp, id)))
  {
    var n := |statements| - 1;
    var front, last := statements[..n], statements[n];
    forall k: nat | k <= n ensures IsPurged(statements, k, r) <==> IsPurged(front, k, r) || Purges(last, r) {
      assert Purges(last, r) ==> Purges(statements[n], r);
      forall j | k <= j < n ensures front[j] == statements[j] {
      }
    }
    forall k: nat | k < n ensures IsInserted(next, stamp, id, statements, k, r) <==>
                                  IsInserted(next, stamp, id, front, k, r) && !Purges(last, r)
    {
      assert front[..k] == statements[..k];
    }
    assert IsPurged(statements, n, r) <==> Purges(last, r);
    assert IsInserted(next, stamp, id, statements, n, r) <==>
             last == Insert(r.table) && r == Row(r.table, KeyOf(next, r.table) + InsertsInto(front, r.table), stamp, id);
    if k :| IsInserted(next, stamp, id, front, k, r) && !Purges(last, r) {
      assert IsInserted(next, stamp, id, statements, k, r);
    }
    if k :| IsInserted(next, stamp, id, statements, k, r) && k != n {
      assert IsInserted(next, stamp, id, front, k, r);
    }
  }

  lemma {:induction false} KeptExactly(tx: Transaction, statements: seq<Step>, r: Row)
    ensures r in Writes(tx, statements).kept <==> r in tx.kept && !IsPurged(statements, 0, r)
  {
    if statements != [] {
      KeptExactly(tx, statements[..|statements| - 1], r);
      OneStatementMore(tx.next, tx.stamp, tx.id, statements, r);
    }
  }

  lemma {:induction false} KeysExactly(tx: Transaction, statements: seq<Step>, table: Table)
    ensures var done := Writes(tx, statements);
            && done.id == tx.id && done.stamp == tx.stamp
            && KeyOf(done.next, table) == KeyOf(tx.next, table) + InsertsInto(statements, table)
  {
    if statements != [] {
      KeysExactly(tx, statements[..|statements| - 1], table);
    }
  }

  lemma {:induction false} WrittenExactly(tx: Transaction, statements: seq<Step>, r: Row)
    requires tx.written == {}
    ensures r in Writes(tx, statements).written <==> exists k :: IsInserted(tx.next, tx.stamp, tx.id, statements, k, r)
  {
    if statements != [] {
      var front := statements[..|statements| - 1];
      WrittenExactly(tx, front, r);
      KeysExactly(tx, front, r.table);
      OneStatementMore(tx.next, tx.stamp, tx.id, statements, r);
    }
  }

  /** What the statements of a transaction leave, and the keys they use up. */
  lemma WritesAreExact(tx: Transaction, statements: seq<Step>)
    requires tx.written == {}
    ensures var done := Writes(tx, statements);
            && (forall r :: r in done.kept <==> r in tx.kept && !IsPurged(statements, 0, r))
            && (forall r :: r in done.written <==> exists k :: IsInserted(tx.next, tx.stamp, tx.id, statements, k, r))
            && (forall table :: KeyOf(done.next, table) == KeyOf(tx.next, table) + InsertsInto(statements, table))
  {
    var done := Writes(tx, statements);
    forall r ensures r in done.kept <==> r in tx.kept && !IsPurged(statements, 0, r) {
      KeptExactly(tx, statements, r);
    }
    forall r ensures r in done.written <==> exists k :: IsInserted(tx.next, tx.stamp, tx.id, statements, k, r) {
      WrittenExactly(tx, statements, r);
    }
    forall table ensures KeyOf(done.next, table) == KeyOf(tx.next, table) + InsertsInto(statements, table) {
      KeysExactly(tx, statements, table);
    }
  }

  /** SELECT MAX(hlc) over the three tables. */
  method SelectMaxHlc(rows: set<Row>) returns (m: Option<string>)
    requires AllInRange(Hlcs(rows))
    ensures m == MaxHlc(rows)
  {
    var todo, best: Option<Timestamp> := rows, None;
    while todo != {}
      invariant todo <= rows
      invariant best.None? ==> todo == rows
      invariant best.Some? ==> best.value in Hlcs(rows)
                               && forall r :: r in rows && r !in todo ==> !TextBefore(Text(best.value), Text(r.hlc))
      decreases todo
    {
      var r :| r in todo;
      assert r.hlc in Hlcs(rows);
      if best.None? {
        TextBeforeIrreflexive(Text(r.hlc));
        best := Some(r.hlc);
      } else if TextBefore(Text(best.value), Text(r.hlc)) {
        forall q | q in rows && q !in todo ensures !TextBefore(Text(r.hlc), Text(q.hlc)) {
          assert q.hlc in Hlcs(rows);
          TextOrderIsCausalOrder(best.value, r.hlc);
          TextOrderIsCausalOrder(best.value, q.hlc);
          TextOrderIsCausalOrder(r.hlc, q.hlc);
        }
        TextBeforeIrreflexive(Text(r.hlc));
        best := Some(r.hlc);
      }
      todo := todo - {r};
    }
    if best.None? {
      assert Hlcs(rows) == {};
      return None;
    }
    var hlcs := Hlcs(rows);
    assert IsMaxText(hlcs, best.value);
    MaxTextIsLatest(hlcs, best.value);
    m := Some(Text(best.value));
  }

  class Service {
    var rows: set<Row>
    var next: Keys
    var clock: HLC?
    var started: nat
    ghost var ever: set<Row>

    ghost function View(): State
      reads this, clock
    {
      State(Db(rows, next), None, if clock == null then None else Some(clock.Now()), started, ever)
    }

    constructor ()
      ensures View() == FRESH && clock == null
    {
      rows, next, clock, started, ever := {}, Keys(1, 1, 1), null, 0, {};
    }

    /** The one stamp of a write transaction; the clock is built on first use, from the
        persisted bound unless reading it fails. */
    method Stamp(pt: int, readOk: bool) returns (r: Result<string, ClockError>)
      requires Stored(View().db)
      modifies this`clock, clock
      ensures clock != null && (if old(clock) == null then fresh(clock) else clock == old(clock))
      ensures clock.Now() == LocalRule(old(Awake(View(), readOk)), pt)
      ensures r == Encode(clock.Now())
    {
      if clock == null {
        var initial := None;
        if readOk {
          initial := SelectMaxHlc(rows);
          StartClockIsLatest(rows);
          if Hlcs(rows) != {} {
            DecodeEncode(AsciiDigit, MaxText(Hlcs(rows)));
          }
        }
        clock := new HLC(AsciiDigit, StartClock(initial));
      }
      r := clock.Stamp(pt);
    }

    /** The statements of an open transaction, which sees its own writes. */
    method Perform(begun: Transaction, statements: seq<Step>) returns (tx: Transaction)
      requires rows == begun.kept + begun.written && next == begun.next
      requires forall k :: 0 <= k < |statements| ==> statements[k].Insert? || statements[k].PurgeEvents?
      modifies this`rows, this`next
      ensures tx == Writes(begun, statements) && rows == tx.kept + tx.written && next == tx.next
    {
      tx := begun;
      for k := 0 to |statements|
        invariant tx == Writes(begun, statements[..k])
        invariant rows == tx.kept + tx.written && next == tx.next
      {
        assert statements[..k + 1][..k] == statements[..k];
        tx := Write(tx, statements[k]);
        rows, next := tx.kept + tx.written, tx.next;
      }
      assert statements[..|statements|] == statements;
    }

    /** BEGIN IMMEDIATE and the stamp; a stamp that cannot be encoded opens nothing. */
    method BeginTransaction(pt: int, readOk: bool) returns (tx: Option<Transaction>)
      requires Stored(View().db)
      modifies this`clock, this`started, clock
      ensures clock != null && (if old(clock) == null then fresh(clock) else clock == old(clock))
      ensures tx == Next(old(View()), Begin(pt, readOk)).open
      ensures View() == Next(old(View()), Begin(pt, readOk)).(open := None)
    {
      var r := Stamp(pt, readOk);
      if r.Err? {
        return None;
      }
      tx := Some(Transaction(started, clock.Now(), rows, {}, next));
      started := started + 1;
    }

    /** A write transaction: the statements, then COMMIT, or ROLLBACK when the body raises, as a
        stamp that cannot be encoded does. After a rollback the database is as it was, deletions
        included; after a commit it holds the rows that no statement deletes, old ones and the
        inserted ones, each of these under the next key and with the one stamp. */
    method WriteTransaction(pt: int, readOk: bool, statements: seq<Step>, raises: bool) returns (ok: bool)
      requires Stored(View().db)
      requires forall k :: 0 <= k < |statements| ==> statements[k].Insert? || statements[k].PurgeEvents?
      modifies this, clock
      ensures !ok ==> rows == old(rows) && next == old(next) && ever == old(ever)
      ensures ok ==> clock != null && forall r :: r in rows <==>
                IsLeft(old(rows), old(next), clock.Now(), old(started), statements, r)
      ensures ok ==> forall table :: KeyOf(next, table) == KeyOf(old(next), table) + InsertsInto(statements, table)
      ensures var begun := Next(old(View()), Begin(pt, readOk));
              if begun.open.None? then !ok && View() == begun
              else ok == !raises
                   && View() == Next(begun.(open := Some(Writes(begun.open.value, statements))),
                                     if raises then Rollback else Commit)
    {
      var savedRows, savedNext := rows, next;
      var begun := BeginTransaction(pt, readOk);
      if begun.None? {
        return false;
      }
      var tx := Perform(begun.value, statements);
      WritesAreExact(begun.value, statements);
      if raises {
        rows, next := savedRows, savedNext;
        return false;
      }
      ever := ever + tx.written;
      ok := true;
    }

    /** A crash loses the clock and keeps the committed rows. */
    method Crash()
      modifies this`clock
      ensures clock == null
      ensures old(Stored(View().db)) ==> View() == Next(old(View()), DurableLog.Crash)
    {
      clock := null;
    }
  }
}
