/** Runs of any number of nodes that crash and restart. Each node is a server process with its own
    database: some of its stamps are those of committed rows, and a process that restarts rebuilds
    its clock from the latest of them. What it absorbed, or stamped without committing, since then
    is lost. Happens-before is that of CausalRuns: it does not notice a crash. */
module CausalCrashes {
  import opened Wrappers
  import opened Timestamps
  import opened CausalRuns
  import DurableLog

  /** The steps of all nodes; the stamps that were committed with a row; and the steps before which
      their node crashed and restarted. */
  datatype History = History(run: seq<Step>, rows: set<nat>, restarts: set<nat>)

  ghost predicate Valid(h: History) {
    WellFormed(h.run) && forall i :: i in h.rows ==> i < |h.run| && h.run[i].Stamp?
  }

  function Latest(a: Timestamp, b: Timestamp): Timestamp {
    if Before(a, b) then b else a
  }

  /** The latest hlc the node had committed before step k, or that of a fresh clock. */
  ghost function Bound(h: History, k: nat, node: nat): Timestamp
    requires Valid(h) && k <= |h.run|
    decreases k, 0
  {
    if k == 0 then ORIGIN
    else if h.run[k - 1].node == node && k - 1 in h.rows then Latest(Bound(h, k - 1, node), TimeOf(h, k - 1))
    else Bound(h, k - 1, node)
  }

  /** The clock of the acting node right before step j. */
  ghost function ClockBefore(h: History, j: nat): Timestamp
    requires Valid(h) && j < |h.run|
    decreases j, 1
  {
    var previous := LastOf(h.run, j, h.run[j].node);
    if j in h.restarts then Bound(h, j, h.run[j].node)
    else if previous.None? then ORIGIN
    else TimeOf(h, previous.value)
  }

  /** And right after it: the stamp, for a Stamp step. */
  ghost function TimeOf(h: History, j: nat): Timestamp
    requires Valid(h) && j < |h.run|
    decreases j, 2
  {
    match h.run[j]
    case Stamp(node, pt) => LocalRule(ClockBefore(h, j), pt)
    case Absorb(node, source) => MergeRule(ClockBefore(h, j), TimeOf(h, source))
  }

  // ----- a run without restarts is one of CausalRuns

  lemma {:induction false} WithoutRestarts(h: History, j: nat)
    requires Valid(h) && h.restarts == {} && j < |h.run|
    ensures TimeOf(h, j) == After(h.run, j)
    decreases j
  {
    var node := h.run[j].node;
    ClockIsLastStep(h.run, j, node);
    var previous := LastOf(h.run, j, node);
    if previous.Some? {
      WithoutRestarts(h, previous.value);
    }
    if h.run[j].Absorb? {
      WithoutRestarts(h, h.run[j].source);
    }
  }

  // ----- the bound is what rehydration reads

  ghost predicate IsRowOf(h: History, k: nat, node: nat, i: nat) {
    i < k && i in h.rows && i < |h.run| && h.run[i].node == node
  }

  lemma {:induction false} BoundCoversRows(h: History, k: nat, node: nat)
    requires Valid(h) && k <= |h.run|
    ensures forall i: nat :: IsRowOf(h, k, node, i) ==> AtMost(TimeOf(h, i), Bound(h, k, node))
    ensures Bound(h, k, node) == ORIGIN || exists i: nat :: IsRowOf(h, k, node, i) && TimeOf(h, i) == Bound(h, k, node)
    ensures AtMost(ORIGIN, Bound(h, k, node))
  {
    if k > 0 {
      BoundCoversRows(h, k - 1, node);
      forall i: nat | IsRowOf(h, k, node, i) ensures AtMost(TimeOf(h, i), Bound(h, k, node)) {
        assert i < k - 1 ==> IsRowOf(h, k - 1, node, i);
      }
      if Bound(h, k, node) != ORIGIN {
        if Bound(h, k, node) == Bound(h, k - 1, node) {
          var i: nat :| IsRowOf(h, k - 1, node, i) && TimeOf(h, i) == Bound(h, k - 1, node);
          assert IsRowOf(h, k, node, i);
        } else {
          assert IsRowOf(h, k, node, k - 1);
        }
      }
    }
  }

  /** The clock rebuilt from a database that holds the node's rows is the bound. */
  lemma {:induction false} BoundIsRehydrated(h: History, k: nat, node: nat, rows: set<DurableLog.Row>)
    requires Valid(h) && k <= |h.run|
    requires DurableLog.AllInRange(DurableLog.Hlcs(rows))
    requires forall t :: t in DurableLog.Hlcs(rows) <==> exists i: nat :: IsRowOf(h, k, node, i) && TimeOf(h, i) == t
    requires forall t :: t in DurableLog.Hlcs(rows) ==> Before(ORIGIN, t)
    ensures DurableLog.StartClock(DurableLog.MaxHlc(rows)) == Bound(h, k, node)
  {
    DurableLog.StartClockIsLatest(rows);
    BoundCoversRows(h, k, node);
    var hlcs, bound := DurableLog.Hlcs(rows), Bound(h, k, node);
    if bound != ORIGIN {
      var i: nat :| IsRowOf(h, k, node, i) && TimeOf(h, i) == bound;
      assert bound in hlcs;
    }
    if hlcs != {} {
      var latest := DurableLog.StartClock(DurableLog.MaxHlc(rows));
      var i: nat :| IsRowOf(h, k, node, i) && TimeOf(h, i) == latest;
      assert AtMost(latest, bound);
    }
  }

  // ----- what a restart loses

  /** The step is one the node has itself taken, or learned of, before step j. */
  ghost predicate Known(h: History, i: nat, j: nat)
    requires j < |h.run|
  {
    var previous := LastOf(h.run, j, h.run[j].node);
    previous.Some? && InPast(h.run, i, previous.value)
  }

  /** The database is not behind the step, or the reading or the message of step j is past it. */
  ghost predicate Covers(h: History, j: nat, i: nat)
    requires Valid(h) && j < |h.run| && i < |h.run|
  {
    var t := TimeOf(h, i);
    || AtMost(t, Bound(h, j, h.run[j].node))
    || match h.run[j]
       case Stamp(_, pt) => t.l < pt
       case Absorb(_, source) => AtMost(t, TimeOf(h, source))
  }

  /** Of the given steps a restart loses none. */
  ghost predicate Recovers(h: History, steps: set<nat>, j: nat)
    requires Valid(h) && j < |h.run|
  {
    forall i :: i in steps && i < |h.run| && Known(h, i, j) ==> Covers(h, j, i)
  }

  ghost predicate AllRecover(h: History, steps: set<nat>)
    requires Valid(h)
  {
    forall j :: j in h.restarts && j < |h.run| ==> Recovers(h, steps, j)
  }

  /** Every step is after those of the given steps that happened before it. */
  ghost predicate OrderedAfter(h: History, steps: set<nat>, j: nat)
    requires Valid(h) && j < |h.run|
  {
    forall i :: i in steps && i < |h.run| && HappensBefore(h.run, i, j) ==> Before(TimeOf(h, i), TimeOf(h, j))
  }

  ghost predicate AllOrdered(h: History, steps: set<nat>)
    requires Valid(h)
  {
    forall j :: 0 <= j < |h.run| ==> OrderedAfter(h, steps, j)
  }

  lemma {:induction false} CountersAreNatural(h: History, j: nat)
    requires Valid(h) && j < |h.run|
    ensures 0 <= TimeOf(h, j).c && 0 <= ClockBefore(h, j).c
    decreases j
  {
    var node := h.run[j].node;
    var previous := LastOf(h.run, j, node);
    if j in h.restarts {
      BoundCoversRows(h, j, node);
      if Bound(h, j, node) != ORIGIN {
        var i: nat :| IsRowOf(h, j, node, i) && TimeOf(h, i) == Bound(h, j, node);
        CountersAreNatural(h, i);
      }
    } else if previous.Some? {
      CountersAreNatural(h, previous.value);
    }
    if h.run[j].Absorb? {
      CountersAreNatural(h, h.run[j].source);
    }
  }

  /** A step that follows a restart is after an earlier one if and only if it covers it. */
  lemma {:induction false} AfterExactlyWhenCovered(h: History, j: nat, i: nat)
    requires Valid(h) && j < |h.run| && i < |h.run| && j in h.restarts
    ensures Before(TimeOf(h, i), TimeOf(h, j)) <==> Covers(h, j, i)
  {
    CountersAreNatural(h, i);
    CountersAreNatural(h, j);
    if h.run[j].Absorb? {
      CountersAreNatural(h, h.run[j].source);
    }
  }

  /** The last edge of a causal path: from the node's previous step, or from the message. */
  lemma {:induction false} LastEdge(run: seq<Step>, i: nat, j: nat)
    requires WellFormed(run) && j < |run| && HappensBefore(run, i, j)
    ensures i < |run|
    ensures || (LastOf(run, j, run[j].node).Some? && InPast(run, i, LastOf(run, j, run[j].node).value))
            || (run[j].Absorb? && InPast(run, i, run[j].source))
  {
    HappensBeforeIsOrdered(run, i, j);
    var path :| IsPath(run, path, i, j) && |path| >= 2;
    var front := path[..|path| - 1];
    var p := front[|front| - 1];
    assert Edge(run, p, j);
    assert InPast(run, i, p) by {
      if |front| >= 2 {
        assert IsPath(run, front, i, p);
      }
    }
    if run[p].node == run[j].node {
      PreviousIsLast(run, p, j);
      var q := LastOf(run, j, run[j].node).value;
      if p != q {
        ExtendPath(run, i, p, q);
      }
    }
  }

  lemma {:induction false} PreviousIsLast(run: seq<Step>, p: nat, k: nat)
    requires p < k <= |run|
    ensures LastOf(run, k, run[p].node).Some? && p <= LastOf(run, k, run[p].node).value
  {
    if p < k - 1 && run[k - 1].node != run[p].node {
      PreviousIsLast(run, p, k - 1);
    }
  }

  /** As long as restarts lose nothing, steps are after those that happened before them. */
  lemma {:induction false} OrderedSoFar(h: History, steps: set<nat>, n: nat, i: nat, j: nat)
    requires Valid(h) && j < n <= |h.run| && i in steps && HappensBefore(h.run, i, j)
    requires forall k :: k in h.restarts && k < n ==> Recovers(h, steps, k)
    ensures i < |h.run| && Before(TimeOf(h, i), TimeOf(h, j))
    decreases j
  {
    LastEdge(h.run, i, j);
    var previous := LastOf(h.run, j, h.run[j].node);
    if previous.Some? && InPast(h.run, i, previous.value) {
      if i != previous.value {
        OrderedSoFar(h, steps, n, i, previous.value);
      }
      if j in h.restarts {
        assert Recovers(h, steps, j) && Known(h, i, j);
        AfterExactlyWhenCovered(h, j, i);
      }
    } else if i != h.run[j].source {
      OrderedSoFar(h, steps, n, i, h.run[j].source);
    }
  }

  /** Causality across crashes, exactly, for any steps of interest: every timestamp is after those
      of the given steps in its causal past if and only if no restart loses one of them: its
      database is not behind those the node knew of, or its first reading or message is past them.
      With all steps this is I1, and with the rows the causal order of the log. */
  lemma {:induction false} CausalityHoldsExactlyWhen(h: History, steps: set<nat>)
    requires Valid(h)
    ensures AllOrdered(h, steps) <==> AllRecover(h, steps)
  {
    if AllRecover(h, steps) {
      forall j | 0 <= j < |h.run| ensures OrderedAfter(h, steps, j) {
        forall i | i in steps && i < |h.run| && HappensBefore(h.run, i, j)
          ensures Before(TimeOf(h, i), TimeOf(h, j))
        {
          OrderedSoFar(h, steps, |h.run|, i, j);
        }
      }
    }
    if AllOrdered(h, steps) {
      forall j | j in h.restarts && j < |h.run| ensures Recovers(h, steps, j) {
        assert OrderedAfter(h, steps, j);
        forall i | i in steps && i < |h.run| && Known(h, i, j) ensures Covers(h, j, i) {
          var previous := LastOf(h.run, j, h.run[j].node).value;
          assert Edge(h.run, previous, j);
          ExtendPath(h.run, i, previous, j);
          AfterExactlyWhenCovered(h, j, i);
        }
      }
    }
  }

  // ----- where such a loss comes from

  /** A row committed after the node knew of a step keeps it: a restart that loses a step, the first
      of its run to lose any, has no row of its node committed since the node learned of it. */
  lemma {:induction false} LossIsUncommitted(h: History, steps: set<nat>, j: nat, i: nat, d: nat)
    requires Valid(h) && j < |h.run| && i in steps && i < |h.run|
    requires forall k :: k in h.restarts && k < j ==> Recovers(h, steps, k)
    requires !Covers(h, j, i) && IsRowOf(h, j, h.run[j].node, d)
    ensures !InPast(h.run, i, d)
  {
    if InPast(h.run, i, d) {
      BoundCoversRows(h, j, h.run[j].node);
      if i != d {
        OrderedSoFar(h, steps, j, i, d);
      }
    }
  }

  /** The loss of an absorbed stamp: node 0 commits a row and sends its stamp, node 1 absorbs it,
      crashes, and commits a row of its own. */
  function LostMessage(p: int, q: int): History {
    History([Stamp(0, p), Absorb(1, 0), Stamp(1, q)], {0, 2}, {2})
  }

  /** The second row is after the first, which happened before it, if and only if the reading after
      the crash is past the first one. */
  lemma {:induction false} LostMessageBreaksTheOrder(p: int, q: int)
    requires 0 < p && 0 < q
    ensures var h := LostMessage(p, q);
            && Valid(h) && HappensBefore(h.run, 0, 2)
            && TimeOf(h, 0) == Timestamp(p, 0) && TimeOf(h, 2) == Timestamp(q, 0)
            && (Before(TimeOf(h, 0), TimeOf(h, 2)) <==> p < q)
  {
    var h := LostMessage(p, q);
    assert Edge(h.run, 0, 1) && Edge(h.run, 1, 2);
    assert IsPath(h.run, [0, 1, 2], 0, 2);
    assert LastOf(h.run, 0, 0) == None;
    assert Bound(h, 1, 1) == ORIGIN && Bound(h, 2, 1) == ORIGIN;
  }
}
