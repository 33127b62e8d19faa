/** Runs of any number of nodes that stamp (a local event, or a send that attaches the
    stamp to a message) and absorb the stamp of an earlier message, in any interleaving.
    Physical readings are arbitrary and may jump backwards; a message may be absorbed
    late, out of order, several times or never. A bridge and the service of one server
    share the server's clock and are one node; a standalone bridge is a node of its own. */
module CausalRuns {
  import opened Wrappers
  import opened Timestamps
  import opened ClockText
  import opened HybridClock

  datatype Step =
    | Stamp(node: nat, pt: int)
    | Absorb(node: nat, source: nat)   // source: the step whose stamp the message carries

  ghost predicate WellFormed(run: seq<Step>) {
    forall j :: 0 <= j < |run| && run[j].Absorb? ==> run[j].source < j && run[run[j].source].Stamp?
  }

  /** The clock of `node` after the first k steps; every clock starts fresh. */
  ghost function ClockAt(run: seq<Step>, k: nat, node: nat): Timestamp
    requires WellFormed(run) && k <= |run|
    decreases k, 0
  {
    if k == 0 then ORIGIN
    else if run[k - 1].node == node then After(run, k - 1)
    else ClockAt(run, k - 1, node)
  }

  /** The clock of the acting node right after step j: the emitted stamp, for a Stamp step. */
  ghost function After(run: seq<Step>, j: nat): Timestamp
    requires WellFormed(run) && j < |run|
    decreases j, 1
  {
    match run[j]
    case Stamp(node, pt) => LocalRule(ClockAt(run, j, node), pt)
    case Absorb(node, source) => MergeRule(ClockAt(run, j, node), After(run, source))
  }

  // ----- happens-before

  ghost predicate Edge(run: seq<Step>, i: nat, j: nat) {
    i < j < |run| && (run[i].node == run[j].node || (run[j].Absorb? && run[j].source == i))
  }

  ghost predicate IsPath(run: seq<Step>, path: seq<nat>, i: nat, j: nat) {
    path != [] && path[0] == i && path[|path| - 1] == j
    && forall k :: 0 < k < |path| ==> Edge(run, path[k - 1], path[k])
  }

  ghost predicate HappensBefore(run: seq<Step>, i: nat, j: nat) {
    exists path :: IsPath(run, path, i, j) && |path| >= 2
  }

  ghost predicate InPast(run: seq<Step>, i: nat, j: nat) {
    i == j || HappensBefore(run, i, j)
  }

  lemma {:induction false} ClocksOnlyMoveForward(run: seq<Step>, k: nat, k': nat, node: nat)
    requires WellFormed(run) && k <= k' <= |run|
    ensures AtMost(ClockAt(run, k, node), ClockAt(run, k', node))
  {
    if k < k' {
      ClocksOnlyMoveForward(run, k, k' - 1, node);
      assert AtMost(ClockAt(run, k' - 1, node), ClockAt(run, k', node));
    }
  }

  lemma EdgeIncreases(run: seq<Step>, i: nat, j: nat)
    requires WellFormed(run) && Edge(run, i, j)
    ensures Before(After(run, i), After(run, j))
  {
    if run[i].node == run[j].node {
      var node := run[j].node;
      assert ClockAt(run, i + 1, node) == After(run, i);
      ClocksOnlyMoveForward(run, i + 1, j, node);
      assert Before(ClockAt(run, j, node), After(run, j));
    }
  }

  lemma {:induction false} PathIncreases(run: seq<Step>, path: seq<nat>, i: nat, j: nat)
    requires WellFormed(run) && IsPath(run, path, i, j) && |path| >= 2
    ensures i < j < |run| && Before(After(run, i), After(run, j))
  {
    var front := path[..|path| - 1];
    var mid := front[|front| - 1];
    assert Edge(run, mid, j);
    EdgeIncreases(run, mid, j);
    if |front| >= 2 {
      assert IsPath(run, front, i, mid);
      PathIncreases(run, front, i, mid);
    }
  }

  /** I1: happens-before implies a strictly smaller timestamp, in every run. */
  lemma HappensBeforeIsOrdered(run: seq<Step>, i: nat, j: nat)
    requires WellFormed(run) && HappensBefore(run, i, j)
    ensures i < j < |run| && Before(After(run, i), After(run, j))
  {
    var path :| IsPath(run, path, i, j) && |path| >= 2;
    PathIncreases(run, path, i, j);
  }

  /** The texts of two stamps are in byte order, and so never coincide, when one is in the past
      of the other. */
  lemma TextNeverContradictsCausality(run: seq<Step>, i: nat, j: nat)
    requires WellFormed(run) && HappensBefore(run, i, j) && i < |run| && j < |run|
    requires InRange(After(run, i)) && InRange(After(run, j))
    ensures TextOrder.TextBefore(Text(After(run, i)), Text(After(run, j)))
    ensures Text(After(run, i)) != Text(After(run, j))
  {
    HappensBeforeIsOrdered(run, i, j);
    TextOrderIsCausalOrder(After(run, i), After(run, j));
  }

  // ----- building paths

  lemma ExtendPath(run: seq<Step>, i: nat, p: nat, j: nat)
    requires InPast(run, i, p) && Edge(run, p, j)
    ensures HappensBefore(run, i, j)
  {
    if i == p {
      assert IsPath(run, [i, j], i, j);
    } else {
      var path :| IsPath(run, path, i, p) && |path| >= 2;
      var longer := path + [j];
      forall k | 0 < k < |longer| ensures Edge(run, longer[k - 1], longer[k]) {
        if k < |path| {
          assert Edge(run, path[k - 1], path[k]);
        }
      }
      assert IsPath(run, longer, i, j);
    }
  }

  /** The last step of `node` before step k, when there is one. */
  ghost function LastOf(run: seq<Step>, k: nat, node: nat): (r: Option<nat>)
    requires k <= |run|
    ensures r.Some? ==> r.value < k && run[r.value].node == node
    ensures r.None? ==> forall i :: 0 <= i < k ==> run[i].node != node
  {
    if k == 0 then None
    else if run[k - 1].node == node then Some(k - 1)
    else LastOf(run, k - 1, node)
  }

  lemma {:induction false} ClockIsLastStep(run: seq<Step>, k: nat, node: nat)
    requires WellFormed(run) && k <= |run|
    ensures LastOf(run, k, node).None? ==> ClockAt(run, k, node) == ORIGIN
    ensures LastOf(run, k, node).Some? ==> ClockAt(run, k, node) == After(run, LastOf(run, k, node).value)
  {
    if k > 0 && run[k - 1].node != node {
      ClockIsLastStep(run, k - 1, node);
    }
  }

  // ----- the physical component

  lemma {:induction false} NeverNegative(run: seq<Step>, k: nat, node: nat)
    requires WellFormed(run) && k <= |run|
    ensures AtMost(ORIGIN, ClockAt(run, k, node)) && 0 <= ClockAt(run, k, node).c
    ensures k > 0 ==> Before(ORIGIN, After(run, k - 1)) && 0 <= After(run, k - 1).c
    decreases k
  {
    if k > 0 {
      NeverNegative(run, k - 1, node);
      NeverNegative(run, k - 1, run[k - 1].node);
      if run[k - 1].Absorb? {
        NeverNegative(run, run[k - 1].source + 1, node);
      }
    }
  }

  ghost predicate ReadingInPast(run: seq<Step>, i: nat, j: nat) {
    i < |run| && run[i].Stamp? && InPast(run, i, j)
  }

  lemma {:induction false} PhysicalPartIsRead(run: seq<Step>, j: nat) returns (i: nat)
    requires WellFormed(run) && j < |run|
    requires After(run, j).l != 0
    ensures ReadingInPast(run, i, j) && run[i].pt == After(run, j).l
    decreases j
  {
    var node := run[j].node;
    var now := ClockAt(run, j, node);
    NeverNegative(run, j, node);
    ClockIsLastStep(run, j, node);
    if run[j].Stamp? && run[j].pt == After(run, j).l {
      return j;
    }
    var p: nat;
    if now.l == After(run, j).l {
      p := LastOf(run, j, node).value;
    } else {
      p := run[j].source;
    }
    i := PhysicalPartIsRead(run, p);
    ExtendPath(run, i, p, j);
  }

  /** The physical part of a timestamp is exactly the largest reading taken by a stamp in
      its causal past, itself included (0 stands for a past with no positive reading). */
  lemma PhysicalPartIsExact(run: seq<Step>, j: nat)
    requires WellFormed(run) && j < |run|
    ensures 0 <= After(run, j).l
    ensures forall i: nat :: ReadingInPast(run, i, j) ==> run[i].pt <= After(run, j).l
    ensures After(run, j).l == 0 || exists i: nat :: ReadingInPast(run, i, j) && run[i].pt == After(run, j).l
  {
    NeverNegative(run, j + 1, run[j].node);
    forall i: nat | ReadingInPast(run, i, j) ensures run[i].pt <= After(run, j).l {
      assert run[i].pt <= After(run, i).l;
      if i != j {
        HappensBeforeIsOrdered(run, i, j);
      }
    }
    if After(run, j).l != 0 {
      var i := PhysicalPartIsRead(run, j);
    }
  }

  /** I2: when every reading is within `skew` of a common time that never runs backwards
      along the run, a stamp is never behind its own reading and never more than twice
      the skew ahead of it. */
  lemma DriftIsBoundedBySkew(run: seq<Step>, time: nat -> int, skew: int, j: nat)
    requires WellFormed(run) && j < |run| && run[j].Stamp?
    requires forall i, k :: 0 <= i <= k < |run| ==> time(i) <= time(k)
    requires forall i :: 0 <= i < |run| && run[i].Stamp? ==> 0 <= run[i].pt && time(i) - skew <= run[i].pt <= time(i) + skew
    ensures run[j].pt <= After(run, j).l <= time(j) + skew <= run[j].pt + 2 * skew
  {
    PhysicalPartIsExact(run, j);
    assert ReadingInPast(run, j, j);
    if After(run, j).l != 0 {
      var i: nat :| ReadingInPast(run, i, j) && run[i].pt == After(run, j).l;
      if i != j {
        HappensBeforeIsOrdered(run, i, j);
      }
      assert time(i) <= time(j);
    }
  }

  // ----- the logical component

  /** A causal chain of steps that share the physical part of step j, ending at j. */
  ghost predicate IsLevelChain(run: seq<Step>, chain: seq<nat>, j: nat)
    requires WellFormed(run) && j < |run|
  {
    chain != [] && chain[|chain| - 1] == j
    && (forall k :: 0 <= k < |chain| ==> chain[k] < |run| && After(run, chain[k]).l == After(run, j).l)
    && (forall k :: 0 < k < |chain| ==> HappensBefore(run, chain[k - 1], chain[k]))
  }

  /** At physical part 0 the fresh clock itself, (0, 0), counts as one more link. */
  function OriginLink(t: Timestamp): int {
    if t.l == 0 then 1 else 0
  }

  lemma {:induction false} LevelChainIsShort(run: seq<Step>, chain: seq<nat>, j: nat)
    requires WellFormed(run) && j < |run| && IsLevelChain(run, chain, j)
    ensures |chain| + OriginLink(After(run, j)) <= After(run, j).c + 1
    decreases |chain|
  {
    NeverNegative(run, j + 1, run[j].node);
    if |chain| > 1 {
      var front := chain[..|chain| - 1];
      var p := front[|front| - 1];
      assert HappensBefore(run, p, j);
      HappensBeforeIsOrdered(run, p, j);
      assert IsLevelChain(run, front, p);
      LevelChainIsShort(run, front, p);
    }
  }

  lemma ExtendLevelChain(run: seq<Step>, front: seq<nat>, p: nat, j: nat)
    requires WellFormed(run) && p < |run| && j < |run|
    requires IsLevelChain(run, front, p) && Edge(run, p, j) && After(run, p).l == After(run, j).l
    ensures IsLevelChain(run, front + [j], j)
  {
    ExtendPath(run, p, p, j);
    var chain := front + [j];
    forall k | 0 < k < |chain| ensures HappensBefore(run, chain[k - 1], chain[k]) {
      if k < |front| {
        assert HappensBefore(run, front[k - 1], front[k]);
      }
    }
  }

  /** The step whose counter step j continues, if any. */
  lemma LevelPredecessor(run: seq<Step>, j: nat) returns (p: Option<nat>)
    requires WellFormed(run) && j < |run|
    ensures p.Some? ==> Edge(run, p.value, j) && After(run, p.value).l == After(run, j).l
                        && After(run, j).c == After(run, p.value).c + 1
    ensures p.None? ==> After(run, j).c == OriginLink(After(run, j))
  {
    var node := run[j].node;
    var now, here := ClockAt(run, j, node), After(run, j);
    ClockIsLastStep(run, j, node);
    NeverNegative(run, j, node);
    var previous := LastOf(run, j, node);
    if previous.Some? && now.l == here.l && here.c == now.c + 1 {
      return previous;
    }
    if run[j].Absorb? {
      NeverNegative(run, run[j].source + 1, node);
      return Some(run[j].source);
    }
    p := None;
  }

  lemma {:induction false} LevelChainOf(run: seq<Step>, j: nat) returns (chain: seq<nat>)
    requires WellFormed(run) && j < |run|
    ensures IsLevelChain(run, chain, j)
    ensures |chain| + OriginLink(After(run, j)) == After(run, j).c + 1
    decreases j
  {
    var p := LevelPredecessor(run, j);
    if p.None? {
      return [j];
    }
    var front := LevelChainOf(run, p.value);
    ExtendLevelChain(run, front, p.value, j);
    chain := front + [j];
  }

  /** The logical part is exactly one less than the longest causal chain of steps sharing
      the physical part (the fresh clock counting as a link at physical part 0). */
  lemma LogicalPartIsExact(run: seq<Step>, j: nat)
    requires WellFormed(run) && j < |run|
    ensures forall chain :: IsLevelChain(run, chain, j) ==> |chain| + OriginLink(After(run, j)) <= After(run, j).c + 1
    ensures exists chain :: IsLevelChain(run, chain, j) && |chain| + OriginLink(After(run, j)) == After(run, j).c + 1
  {
    forall chain | IsLevelChain(run, chain, j)
      ensures |chain| + OriginLink(After(run, j)) <= After(run, j).c + 1
    {
      LevelChainIsShort(run, chain, j);
    }
    var chain := LevelChainOf(run, j);
  }

  /** A stamp cannot be written down exactly when a reading in its causal past needs more
      than 13 digits, or some causal chain at its physical part has more than MAX_C + 1
      links. */
  lemma EncodingFailsExactlyWhen(run: seq<Step>, j: nat)
    requires WellFormed(run) && j < |run|
    ensures Encode(After(run, j)).Err? <==>
            || (exists i: nat :: ReadingInPast(run, i, j) && run[i].pt > MAX_L)
            || (exists chain :: IsLevelChain(run, chain, j) && |chain| + OriginLink(After(run, j)) > MAX_C + 1)
  {
    PhysicalPartIsExact(run, j);
    LogicalPartIsExact(run, j);
    NeverNegative(run, j + 1, run[j].node);
  }

  // ----- the clock objects follow the run

  /** Text j is the stamp of step j. */
  ghost predicate Written(run: seq<Step>, texts: seq<string>, j: nat)
    requires WellFormed(run) && j < |run| && j < |texts|
  {
    run[j].Stamp? ==> Encode(After(run, j)) == Ok(texts[j])
  }

  /** One step of a run on the acting node's clock object; messages travel as text. */
  method Drive(run: seq<Step>, j: nat, clock: HLC, texts: seq<string>) returns (r: Result<string, ClockError>)
    requires WellFormed(run) && j == |texts| < |run| && IsDigitTable(clock.digitValue)
    requires clock.Now() == ClockAt(run, j, run[j].node)
    requires forall i :: 0 <= i < j ==> Written(run, texts, i)
    modifies clock
    ensures clock.Now() == After(run, j)
    ensures run[j].Stamp? ==> r == Encode(After(run, j))
    ensures run[j].Absorb? ==> r.Ok?
  {
    match run[j] {
      case Stamp(node, pt) =>
        r := clock.Stamp(pt);
      case Absorb(node, source) =>
        assert Written(run, texts, source);
        DecodeEncode(clock.digitValue, After(run, source));
        var merged := clock.Observe(texts[source]);
        r := Ok("");
    }
  }

  /** Drives one clock object per node through a run until a stamp cannot be written. */
  method Replay(run: seq<Step>, clocks: array<HLC>) returns (texts: seq<string>, done: nat)
    requires WellFormed(run)
    requires forall j :: 0 <= j < |run| ==> run[j].node < clocks.Length
    requires forall m, n :: 0 <= m < n < clocks.Length ==> clocks[m] != clocks[n]
    requires forall n :: 0 <= n < clocks.Length ==> clocks[n].Now() == ORIGIN && IsDigitTable(clocks[n].digitValue)
    modifies clocks[..]
    ensures done == |texts| <= |run|
    ensures forall j :: 0 <= j < done ==> Written(run, texts, j)
    ensures done < |run| ==> run[done].Stamp? && Encode(After(run, done)).Err?
    ensures done == |run| ==> forall n :: 0 <= n < clocks.Length ==> clocks[n].Now() == ClockAt(run, done, n)
  {
    texts, done := [], 0;
    while done < |run|
      invariant done == |texts| <= |run|
      invariant forall n :: 0 <= n < clocks.Length ==> clocks[n].Now() == ClockAt(run, done, n)
      invariant forall j :: 0 <= j < done ==> Written(run, texts, j)
    {
      var clock := clocks[run[done].node];
      var r := Drive(run, done, clock, texts);
      if r.Err? {
        return;
      }
      forall n | 0 <= n < clocks.Length ensures clocks[n].Now() == ClockAt(run, done + 1, n) {
        assert n != run[done].node ==> clocks[n] != clock;
      }
      ghost var before := texts;
      texts := texts + [r.value];
      done := done + 1;
      forall j | 0 <= j < done ensures Written(run, texts, j) {
        if j < done - 1 {
          assert Written(run, before, j);
        }
      }
    }
  }
}
