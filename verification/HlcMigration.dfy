/** The backfill of the hlc column (synapse/db.py, `_migrate_hlc`). A table maps its
    integer key to the row's time, in milliseconds, and its hlc, None for SQL NULL. */
module HlcMigration {
  import opened Wrappers
  import opened Timestamps
  import opened ClockText
  import opened Listing
  import opened TextOrder

  datatype Row = Row(at: int, hlc: Option<string>)

  type Rows = map<nat, Row>

  /** `_at_ms`: never negative. */
  function AtMs(at: int): int {
    Max(0, at)
  }

  predicate Earlier(a: (int, nat), b: (int, nat)) {
    a.0 < b.0 || (a.0 == b.0 && a.1 < b.1)
  }

  /** The rows a run will touch, as (at, key). */
  function Pending(rows: Rows): set<(int, nat)> {
    set k | k in rows && rows[k].hlc.None? :: (rows[k].at, k)
  }

  /** WHERE hlc IS NULL ORDER BY at ASC, key ASC. */
  ghost function Worklist(rows: Rows): (s: seq<(int, nat)>)
    ensures Lists(Earlier, s, Pending(rows))
  {
    ListOf(Earlier, Pending(rows))
  }

  /** The physical part given to row i of the worklist: the loop's recurrence. */
  function Level(work: seq<(int, nat)>, i: int): int
    requires -1 <= i < |work|
    decreases i
  {
    if i < 0 then 0 else Max(AtMs(work[i].0), Level(work, i - 1) + 1)
  }

  /** Closed form: Level(i) = max(i + 1, max over j <= i of at_j + i - j). */
  lemma {:induction false} LevelClosedForm(work: seq<(int, nat)>, i: nat)
    requires i < |work|
    ensures Level(work, i) >= i + 1
    ensures forall j :: 0 <= j <= i ==> Level(work, i) >= work[j].0 + i - j
    ensures Level(work, i) == i + 1 || exists j :: 0 <= j <= i && Level(work, i) == work[j].0 + i - j
    decreases i
  {
    if i > 0 {
      LevelClosedForm(work, i - 1);
      if Level(work, i) != AtMs(work[i].0) && Level(work, i - 1) != i {
        var j :| 0 <= j <= i - 1 && Level(work, i - 1) == work[j].0 + (i - 1) - j;
        assert Level(work, i) == work[j].0 + i - j;
      }
    }
    if Level(work, i) == AtMs(work[i].0) && work[i].0 >= 0 {
      assert Level(work, i) == work[i].0 + i - i;
    }
  }

  /** A strictly increasing sequence of positive physical parts, none before its row's time. */
  ghost predicate Admissible(work: seq<(int, nat)>, s: seq<int>) {
    |s| == |work|
    && (forall i :: 0 <= i < |s| ==> s[i] >= 1 && s[i] >= work[i].0)
    && (forall i, j :: 0 <= i < j < |s| ==> s[i] < s[j])
  }

  function Levels(work: seq<(int, nat)>): (s: seq<int>) {
    seq(|work|, i requires 0 <= i < |work| => Level(work, i))
  }

  lemma {:induction false} LevelsIncrease(work: seq<(int, nat)>, i: nat, j: nat)
    requires i < j < |work|
    ensures Level(work, i) < Level(work, j)
  {
    if i + 1 < j {
      LevelsIncrease(work, i, j - 1);
    }
  }

  lemma {:induction false} NoSmallerLevel(work: seq<(int, nat)>, s: seq<int>, i: nat)
    requires Admissible(work, s) && i < |work|
    ensures Level(work, i) <= s[i]
  {
    if i > 0 {
      NoSmallerLevel(work, s, i - 1);
      assert s[i - 1] < s[i];
    }
  }

  /** The backfilled physical parts are the pointwise least admissible sequence. */
  lemma LevelsAreLeastAdmissible(work: seq<(int, nat)>)
    ensures Admissible(work, Levels(work))
    ensures forall s :: Admissible(work, s) ==> forall i :: 0 <= i < |work| ==> Levels(work)[i] <= s[i]
  {
    forall i | 0 <= i < |work| ensures Levels(work)[i] >= 1 && Levels(work)[i] >= work[i].0 {
      LevelClosedForm(work, i);
      assert Level(work, i) >= work[i].0 + i - i;
    }
    forall i, j | 0 <= i < j < |work| ensures Levels(work)[i] < Levels(work)[j] {
      LevelsIncrease(work, i, j);
    }
    forall s, i | Admissible(work, s) && 0 <= i < |work| ensures Levels(work)[i] <= s[i] {
      NoSmallerLevel(work, s, i);
    }
  }

  // ----- what one run does to one table

  ghost predicate Overflows(work: seq<(int, nat)>) {
    exists i :: 0 <= i < |work| && Level(work, i) > MAX_L
  }

  /** Row i of the worklist has received (Level(i), 0): the counter is always 0. */
  predicate Filled(rows: Rows, work: seq<(int, nat)>, i: nat)
    requires i < |work|
  {
    work[i].1 in rows && 0 <= Level(work, i) <= MAX_L
    && rows[work[i].1] == Row(work[i].0, Some(Text(Timestamp(Level(work, i), 0))))
  }

  /** The table after the first n rows of the worklist. */
  ghost predicate FilledUpTo(rows: Rows, work: seq<(int, nat)>, done: Rows, n: nat)
    requires n <= |work|
  {
    && done.Keys == rows.Keys
    && (forall k :: k in rows && rows[k].hlc.Some? ==> done[k] == rows[k])
    && (forall i :: 0 <= i < n ==> Filled(done, work, i))
  }

  ghost predicate IsMigrated(rows: Rows, done: Rows) {
    FilledUpTo(rows, Worklist(rows), done, |Worklist(rows)|)
  }

  lemma PendingIsListed(rows: Rows, k: nat) returns (i: nat)
    requires k in rows && rows[k].hlc.None?
    ensures i < |Worklist(rows)| && Worklist(rows)[i] == (rows[k].at, k)
  {
    var work := Worklist(rows);
    assert (rows[k].at, k) in Pending(rows);
    assert (rows[k].at, k) in Elements(work);
    i :| 0 <= i < |work| && work[i] == (rows[k].at, k);
  }

  /** The result of a run is determined by the table, keeps every row's time, leaves no
      NULL, and a second run changes nothing. */
  lemma {:induction false} MigrationIsIdempotent(rows: Rows, done: Rows, again: Rows)
    requires IsMigrated(rows, done) && IsMigrated(done, again)
    ensures forall k :: k in rows ==> done[k].hlc.Some? && done[k].at == rows[k].at
    ensures again == done
    ensures forall other :: IsMigrated(rows, other) ==> other == done
  {
    forall k | k in rows ensures done[k].hlc.Some? && done[k].at == rows[k].at {
      if rows[k].hlc.None? {
        var i := PendingIsListed(rows, k);
        assert Filled(done, Worklist(rows), i);
      }
    }
    forall k | k in done ensures again[k] == done[k] {
    }
    forall other | IsMigrated(rows, other) ensures other == done {
      forall k | k in rows ensures other[k] == done[k] {
        if rows[k].hlc.None? {
          var i := PendingIsListed(rows, k);
          assert Filled(done, Worklist(rows), i) && Filled(other, Worklist(rows), i);
        }
      }
    }
  }

  lemma EarlierIsTotal()
    ensures StrictTotal(Earlier)
  {
  }

  /** Each entry is a pending row of the table, and no row is listed twice. */
  ghost predicate EntriesArePending(rows: Rows, work: seq<(int, nat)>) {
    (forall n :: 0 <= n < |work| ==> work[n].1 in rows && rows[work[n].1] == Row(work[n].0, None))
    && (forall i, n :: 0 <= i < n < |work| ==> work[i].1 != work[n].1)
  }

  lemma WorklistIsPending(rows: Rows)
    ensures EntriesArePending(rows, Worklist(rows))
  {
    var work := Worklist(rows);
    forall n | 0 <= n < |work| ensures work[n].1 in rows && rows[work[n].1] == Row(work[n].0, None) {
      assert work[n] in Elements(work);
      assert work[n] in Pending(rows);
    }
    forall i, n | 0 <= i < n < |work| ensures work[i].1 != work[n].1 {
      assert Earlier(work[i], work[n]);
      assert rows[work[i].1].at == work[i].0;
    }
  }

  lemma FillNext(rows: Rows, work: seq<(int, nat)>, done: Rows, n: nat, row: Row)
    requires n < |work| && FilledUpTo(rows, work, done, n)
    requires EntriesArePending(rows, work)
    requires Filled(map[work[n].1 := row], work, n)
    ensures FilledUpTo(rows, work, done[work[n].1 := row], n + 1)
  {
    var after := done[work[n].1 := row];
    forall i | 0 <= i < n + 1 ensures Filled(after, work, i) {
      if i < n {
        assert Filled(done, work, i);
      }
    }
  }

  // ----- the backfill by key, without the worklist

  /** The rows without an hlc whose time, or at equal times whose key, is not after that of k. */
  ghost function UpTo(rows: Rows, k: nat): set<nat>
    requires k in rows
  {
    set j | j in rows && rows[j].hlc.None? && (rows[j].at < rows[k].at || (rows[j].at == rows[k].at && j <= k))
  }

  /** The physical part of k's new hlc is m: the least that leaves room below for every earlier
      row, and above each of them for the rows between. */
  ghost predicate IsPhysicalPart(rows: Rows, k: nat, m: int)
    requires k in rows
  {
    && |UpTo(rows, k)| <= m
    && (forall j :: j in UpTo(rows, k) ==> rows[j].at + |UpTo(rows, k)| - |UpTo(rows, j)| <= m)
    && (m == |UpTo(rows, k)|
        || exists j :: j in UpTo(rows, k) && m == rows[j].at + |UpTo(rows, k)| - |UpTo(rows, j)|)
  }

  lemma {:induction false} ListedUpTo(rows: Rows, i: nat, k: nat, j: nat)
    requires k in rows && i < |Worklist(rows)| && Worklist(rows)[i] == (rows[k].at, k)
    ensures j in UpTo(rows, k) <==> j in rows && (rows[j].at, j) in Worklist(rows)[..i + 1]
  {
    var work := Worklist(rows);
    EarlierIsTotal();
    WorklistIsPending(rows);
    if j in UpTo(rows, k) {
      var n := PendingIsListed(rows, j);
      assert n > i ==> Earlier(work[i], work[n]);
      assert work[..i + 1][n] == work[n];
    }
    if j in rows && (rows[j].at, j) in work[..i + 1] {
      var n :| 0 <= n < i + 1 && work[..i + 1][n] == (rows[j].at, j);
      assert n < i ==> Earlier(work[n], work[i]);
    }
  }

  lemma {:induction false} KeysUpTo(rows: Rows, i: nat, k: nat)
    requires k in rows && i < |Worklist(rows)| && Worklist(rows)[i] == (rows[k].at, k)
    ensures |UpTo(rows, k)| == i + 1
  {
    var front := Worklist(rows)[..i + 1];
    var listed := Elements(front);
    EarlierIsTotal();
    WorklistIsPending(rows);
    ListingHasItsSize(Earlier, front, listed);
    forall j | j in UpTo(rows, k) ensures (rows[j].at, j) in listed {
      ListedUpTo(rows, i, k, j);
    }
    forall e | e in listed ensures e.1 in UpTo(rows, k) && e.0 == rows[e.1].at {
      var n :| 0 <= n < |front| && front[n] == e;
      assert Worklist(rows)[n] == e;
      ListedUpTo(rows, i, k, e.1);
    }
    SameSize(rows, listed, UpTo(rows, k));
  }

  lemma {:induction false} SameSize(rows: Rows, listed: set<(int, nat)>, keys: set<nat>)
    requires forall j :: j in keys ==> j in rows && (rows[j].at, j) in listed
    requires forall e :: e in listed ==> e.1 in keys && e.1 in rows && e.0 == rows[e.1].at
    ensures |listed| == |keys|
    decreases keys
  {
    if keys == {} {
      assert listed == {};
    } else {
      var j :| j in keys;
      SameSize(rows, listed - {(rows[j].at, j)}, keys - {j});
    }
  }

  lemma {:induction false} LevelIsPhysicalPart(rows: Rows, i: nat, k: nat)
    requires k in rows && i < |Worklist(rows)| && Worklist(rows)[i] == (rows[k].at, k)
    ensures IsPhysicalPart(rows, k, Level(Worklist(rows), i)) && Level(Worklist(rows), i) >= 1
  {
    var work, m := Worklist(rows), Level(Worklist(rows), i);
    LevelClosedForm(work, i);
    KeysUpTo(rows, i, k);
    WorklistIsPending(rows);
    forall j | j in UpTo(rows, k) ensures rows[j].at + |UpTo(rows, k)| - |UpTo(rows, j)| <= m {
      var n := PendingIsListed(rows, j);
      KeysUpTo(rows, n, j);
      assert n > i ==> Earlier(work[i], work[n]);
    }
    if m != i + 1 {
      var n :| 0 <= n <= i && m == work[n].0 + i - n;
      var j := work[n].1;
      KeysUpTo(rows, n, j);
      assert n < i ==> Earlier(work[n], work[i]);
      assert j in UpTo(rows, k);
    }
  }

  /** The byte order of the two rows' texts is the order of time, and at equal times of keys. */
  ghost predicate FollowsTime(rows: Rows, done: Rows, j: nat, k: nat)
    requires j in rows && k in rows
  {
    && j in done && k in done && done[j].hlc.Some? && done[k].hlc.Some?
    && (TextBefore(done[j].hlc.value, done[k].hlc.value) <==>
        rows[j].at < rows[k].at || (rows[j].at == rows[k].at && j < k))
  }

  lemma {:induction false} BackfillFollowsTime(rows: Rows, done: Rows, j: nat, k: nat)
    requires IsMigrated(rows, done) && {j, k} <= rows.Keys && rows[j].hlc.None? && rows[k].hlc.None?
    ensures FollowsTime(rows, done, j, k)
  {
    var work := Worklist(rows);
    var a := PendingIsListed(rows, j);
    var b := PendingIsListed(rows, k);
    assert Filled(done, work, a) && Filled(done, work, b);
    if a < b {
      LevelsIncrease(work, a, b);
      assert Earlier(work[a], work[b]);
    }
    if b < a {
      LevelsIncrease(work, b, a);
      assert Earlier(work[b], work[a]);
    }
    TextOrderIsCausalOrder(Timestamp(Level(work, a), 0), Timestamp(Level(work, b), 0));
  }

  /** What a table must not have to be migrated: a row whose physical part has too many digits. */
  ghost predicate IsTooLate(rows: Rows) {
    exists k, m :: k in rows && rows[k].hlc.None? && IsPhysicalPart(rows, k, m) && m > MAX_L
  }

  lemma {:induction false} OverflowsExactlyWhenTooLate(rows: Rows)
    ensures Overflows(Worklist(rows)) <==> IsTooLate(rows)
  {
    var work := Worklist(rows);
    if Overflows(work) {
      var i :| 0 <= i < |work| && Level(work, i) > MAX_L;
      WorklistIsPending(rows);
      LevelIsPhysicalPart(rows, i, work[i].1);
    }
    if IsTooLate(rows) {
      var k, m :| k in rows && rows[k].hlc.None? && IsPhysicalPart(rows, k, m) && m > MAX_L;
      var i := PendingIsListed(rows, k);
      LevelIsPhysicalPart(rows, i, k);
    }
  }

  /** The rows that had an hlc are as before; each of the others keeps its time and has its own
      hlc, and these are in the order of time. */
  ghost predicate IsBackfilled(rows: Rows, done: Rows) {
    && done.Keys == rows.Keys
    && (forall k :: k in rows && rows[k].hlc.Some? ==> done[k] == rows[k])
    && AllHaveTheirHlc(rows, done) && AllFollowTime(rows, done)
  }

  ghost predicate AllHaveTheirHlc(rows: Rows, done: Rows) {
    forall k :: k in rows && rows[k].hlc.None? ==> HasItsHlc(rows, done, k)
  }

  ghost predicate AllFollowTime(rows: Rows, done: Rows) {
    forall j, k :: j in rows && k in rows && rows[j].hlc.None? && rows[k].hlc.None? ==> FollowsTime(rows, done, j, k)
  }

  ghost predicate HasItsHlc(rows: Rows, done: Rows, k: nat)
    requires k in rows
  {
    exists m :: IsPhysicalPart(rows, k, m) && 1 <= m <= MAX_L && k in done
                && done[k] == Row(rows[k].at, Some(Text(Timestamp(m, 0))))
  }

  lemma {:induction false} BackfillOfKey(rows: Rows, done: Rows, k: nat)
    requires IsMigrated(rows, done) && k in rows && rows[k].hlc.None?
    ensures HasItsHlc(rows, done, k)
  {
    var work := Worklist(rows);
    var i := PendingIsListed(rows, k);
    assert Filled(done, work, i);
    LevelIsPhysicalPart(rows, i, k);
  }

  lemma {:induction false} KeysHaveTheirHlc(rows: Rows, done: Rows)
    requires IsMigrated(rows, done)
    ensures AllHaveTheirHlc(rows, done)
  {
    forall k | k in rows && rows[k].hlc.None? ensures HasItsHlc(rows, done, k) {
      BackfillOfKey(rows, done, k);
    }
  }

  lemma {:induction false} KeysFollowTime(rows: Rows, done: Rows)
    requires IsMigrated(rows, done)
    ensures AllFollowTime(rows, done)
  {
    forall j, k | j in rows && k in rows && rows[j].hlc.None? && rows[k].hlc.None?
      ensures FollowsTime(rows, done, j, k)
    {
      BackfillFollowsTime(rows, done, j, k);
    }
  }

  lemma MigratedIsBackfilled(rows: Rows, done: Rows)
    requires IsMigrated(rows, done)
    ensures IsBackfilled(rows, done)
  {
    KeysHaveTheirHlc(rows, done);
    KeysFollowTime(rows, done);
  }

  method Fill(rows: Rows, work: seq<(int, nat)>) returns (r: Result<Rows, ClockError>)
    requires EntriesArePending(rows, work)
    ensures r.Ok? ==> FilledUpTo(rows, work, r.value, |work|)
    ensures r.Err? <==> Overflows(work)
  {
    var lPrev, cSameL := 0, 0;
    var done := rows;
    for n := 0 to |work|
      invariant lPrev == Level(work, n - 1) && cSameL == 0
      invariant FilledUpTo(rows, work, done, n)
      invariant forall i :: 0 <= i < n ==> Level(work, i) <= MAX_L
    {
      var (at, key) := work[n];
      var l := Max(AtMs(at), lPrev + 1);
      if l == lPrev {
        cSameL := cSameL + 1;
      } else {
        cSameL := 0;
      }
      LevelClosedForm(work, n);
      var text := Encode(Timestamp(l, cSameL));
      if text.Err? {
        return Err(text.error);
      }
      FillNext(rows, work, done, n, Row(at, Some(text.value)));
      done := done[key := Row(at, Some(text.value))];
      lPrev := l;
    }
    r := Ok(done);
  }

  method MigrateTable(rows: Rows) returns (r: Result<Rows, ClockError>)
    ensures r.Ok? ==> IsMigrated(rows, r.value) && IsBackfilled(rows, r.value)
    ensures r.Err? <==> IsTooLate(rows)
  {
    EarlierIsTotal();
    WorklistIsPending(rows);
    OverflowsExactlyWhenTooLate(rows);
    var work := OrderBy(Earlier, Pending(rows));
    r := Fill(rows, work);
    if r.Ok? {
      MigratedIsBackfilled(rows, r.value);
    }
  }

  /** Each of the first n tables is migrated. */
  ghost predicate AllMigrated(tables: seq<Rows>, after: seq<Rows>, n: nat)
    requires n <= |tables| && n <= |after|
  {
    forall t :: 0 <= t < n ==> IsMigrated(tables[t], after[t]) && IsBackfilled(tables[t], after[t]) && !IsTooLate(tables[t])
  }

  lemma OneTableMore(tables: seq<Rows>, after: seq<Rows>, done: Rows)
    requires |after| < |tables| && AllMigrated(tables, after, |after|)
    requires var rows := tables[|after|]; IsMigrated(rows, done) && IsBackfilled(rows, done) && !IsTooLate(rows)
    ensures AllMigrated(tables, after + [done], |after| + 1)
  {
  }

  /** The whole migration is one transaction over the tables: either every table is
      migrated, or some table overflows the encoding and none is touched. */
  method Migrate(tables: seq<Rows>) returns (after: seq<Rows>, committed: bool)
    ensures |after| == |tables|
    ensures committed ==> AllMigrated(tables, after, |tables|)
    ensures !committed ==> after == tables
    ensures !committed <==> exists t :: 0 <= t < |tables| && IsTooLate(tables[t])
  {
    after := [];
    for t := 0 to |tables|
      invariant |after| == t && AllMigrated(tables, after, t)
    {
      var r := MigrateTable(tables[t]);
      if r.Err? {
        return tables, false;
      }
      OneTableMore(tables, after, r.value);
      after := after + [r.value];
    }
    committed := true;
  }
}
