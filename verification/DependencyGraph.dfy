/** The task_dependencies table as a graph, and the bounded breadth-first search over it
    (synapse/service.py, `_dependency_depth`). An edge (t, d) says that t depends on d. */
module DependencyGraph {
  import opened Listing

  type TaskId = string

  type Deps = set<(TaskId, TaskId)>

  /** The direct dependencies of a set of tasks. */
  function Direct(deps: Deps, tasks: set<TaskId>): set<TaskId> {
    set e | e in deps && e.0 in tasks :: e.1
  }

  /** The tasks at most k hops from the roots. */
  function Within(deps: Deps, roots: set<TaskId>, k: nat): set<TaskId> {
    if k == 0 then roots else Within(deps, roots, k - 1) + Direct(deps, Within(deps, roots, k - 1))
  }

  /** The tasks whose distance from the roots is exactly k. */
  function Level(deps: Deps, roots: set<TaskId>, k: nat): set<TaskId> {
    if k == 0 then roots else Within(deps, roots, k) - Within(deps, roots, k - 1)
  }

  predicate Closed(deps: Deps, tasks: set<TaskId>) {
    Direct(deps, tasks) <= tasks
  }

  /** A dependency chain: each task depends directly on the next one. */
  ghost predicate IsChain(deps: Deps, chain: seq<TaskId>) {
    chain != [] && forall k :: 0 < k < |chain| ==> (chain[k - 1], chain[k]) in deps
  }

  lemma DirectMember(deps: Deps, tasks: set<TaskId>, t: TaskId, d: TaskId)
    requires (t, d) in deps && t in tasks
    ensures d in Direct(deps, tasks)
  {
    var e := (t, d);
    assert e in deps && e.0 in tasks;
  }

  /** Hop distance is chain length: Within(k) holds exactly the ends of chains of at most
      k hops that start at a root. */
  lemma {:induction false} WithinIsByChains(deps: Deps, roots: set<TaskId>, k: nat, t: TaskId)
    ensures t in Within(deps, roots, k) <==>
            exists chain :: IsChain(deps, chain) && chain[0] in roots && chain[|chain| - 1] == t && |chain| <= k + 1
  {
    if t in Within(deps, roots, k) {
      var chain := ChainTo(deps, roots, k, t);
    }
    forall chain | IsChain(deps, chain) && chain[0] in roots && chain[|chain| - 1] == t && |chain| <= k + 1
      ensures t in Within(deps, roots, k)
    {
      ChainStaysWithin(deps, roots, k, chain);
    }
  }

  lemma {:induction false} ChainTo(deps: Deps, roots: set<TaskId>, k: nat, t: TaskId) returns (chain: seq<TaskId>)
    requires t in Within(deps, roots, k)
    ensures IsChain(deps, chain) && chain[0] in roots && chain[|chain| - 1] == t && |chain| <= k + 1
  {
    if t in roots {
      chain := [t];
    } else if t in Within(deps, roots, k - 1) {
      chain := ChainTo(deps, roots, k - 1, t);
    } else {
      var e :| e in deps && e.0 in Within(deps, roots, k - 1) && e.1 == t;
      var front := ChainTo(deps, roots, k - 1, e.0);
      chain := front + [t];
      forall i | 0 < i < |chain| ensures (chain[i - 1], chain[i]) in deps {
        if i < |front| {
          assert (front[i - 1], front[i]) in deps;
        }
      }
    }
  }

  lemma {:induction false} ChainStaysWithin(deps: Deps, roots: set<TaskId>, k: nat, chain: seq<TaskId>)
    requires IsChain(deps, chain) && chain[0] in roots && |chain| <= k + 1
    ensures chain[|chain| - 1] in Within(deps, roots, k)
  {
    if |chain| == 1 {
      WithinGrows(deps, roots, 0, k);
    } else {
      var front := chain[..|chain| - 1];
      assert forall i :: 0 < i < |front| ==> (front[i - 1], front[i]) == (chain[i - 1], chain[i]);
      ChainStaysWithin(deps, roots, k - 1, front);
      DirectMember(deps, Within(deps, roots, k - 1), chain[|chain| - 2], chain[|chain| - 1]);
    }
  }

  lemma {:induction false} WithinGrows(deps: Deps, roots: set<TaskId>, j: nat, k: nat)
    requires j <= k
    ensures Within(deps, roots, j) <= Within(deps, roots, k)
  {
    if j < k {
      WithinGrows(deps, roots, j, k - 1);
    }
  }

  /** Once a level is empty the search has seen everything there is to see. */
  lemma EmptyLevelIsClosed(deps: Deps, roots: set<TaskId>, k: nat)
    requires Level(deps, roots, k) == {}
    ensures k == 0 ==> roots == {}
    ensures k > 0 ==> Closed(deps, Within(deps, roots, k - 1))
  {
    if k > 0 {
      var before := Within(deps, roots, k - 1);
      forall d | d in Direct(deps, before) ensures d in before {
        assert d in Within(deps, roots, k);
        assert d !in Level(deps, roots, k);
      }
    }
  }

  lemma {:induction false} ChainStaysInClosed(deps: Deps, tasks: set<TaskId>, chain: seq<TaskId>)
    requires Closed(deps, tasks) && IsChain(deps, chain) && chain[0] in tasks
    ensures chain[|chain| - 1] in tasks
  {
    if |chain| > 1 {
      var front := chain[..|chain| - 1];
      assert forall i :: 0 < i < |front| ==> (front[i - 1], front[i]) == (chain[i - 1], chain[i]);
      ChainStaysInClosed(deps, tasks, front);
      DirectMember(deps, tasks, chain[|chain| - 2], chain[|chain| - 1]);
    }
  }

  // ----- the bounded search

  /** d is the number of non-empty levels, cut off at maxDepth + 1. */
  ghost predicate IsDepth(deps: Deps, roots: set<TaskId>, maxDepth: nat, d: nat) {
    && d <= maxDepth + 1
    && (forall k :: 0 <= k < d ==> Level(deps, roots, k) != {})
    && (d <= maxDepth ==> Level(deps, roots, d) == {})
  }

  /** A search that is not cut off leaves every transitive dependency of the roots within
      maxDepth - 1 hops of them, so within maxDepth hops of a task that depends on the roots. */
  lemma DepthBoundsHops(deps: Deps, roots: set<TaskId>, maxDepth: nat)
    requires maxDepth > 0 && !IsDepth(deps, roots, maxDepth, maxDepth + 1)
    ensures Closed(deps, Within(deps, roots, maxDepth - 1))
  {
    var k: nat :| k <= maxDepth && Level(deps, roots, k) == {};
    EmptyLevelEndsTheSearch(deps, roots, k, maxDepth - 1);
  }

  lemma EmptyLevelEndsTheSearch(deps: Deps, roots: set<TaskId>, k: nat, n: nat)
    requires Level(deps, roots, k) == {} && k <= n + 1
    ensures Closed(deps, Within(deps, roots, n))
  {
    EmptyLevelIsClosed(deps, roots, k);
    if k > 0 {
      ClosedStays(deps, roots, k - 1, n);
    } else {
      assert Direct(deps, roots) == {};
      ClosedStays(deps, roots, 0, n);
    }
  }

  lemma {:induction false} ClosedStaysOnce(deps: Deps, roots: set<TaskId>, k: nat)
    requires Closed(deps, Within(deps, roots, k))
    ensures Within(deps, roots, k + 1) == Within(deps, roots, k)
  {
  }

  lemma {:induction false} ClosedStays(deps: Deps, roots: set<TaskId>, j: nat, k: nat)
    requires j <= k && Closed(deps, Within(deps, roots, j))
    ensures Within(deps, roots, k) == Within(deps, roots, j)
    decreases k - j
  {
    if j < k {
      ClosedStaysOnce(deps, roots, j);
      ClosedStays(deps, roots, j + 1, k);
    }
  }

  /** A chain from one of the roots to t. */
  ghost predicate Leads(deps: Deps, roots: set<TaskId>, t: TaskId, chain: seq<TaskId>) {
    IsChain(deps, chain) && chain[0] in roots && chain[|chain| - 1] == t
  }

  /** t is exactly k hops away from the roots: a chain of k hops leads to it, and no shorter one. */
  ghost predicate IsAway(deps: Deps, roots: set<TaskId>, k: nat, t: TaskId) {
    && (exists chain :: Leads(deps, roots, t, chain) && |chain| == k + 1)
    && (forall chain :: Leads(deps, roots, t, chain) ==> |chain| > k)
  }

  lemma {:induction false} LevelIsByChains(deps: Deps, roots: set<TaskId>, k: nat, t: TaskId)
    ensures t in Level(deps, roots, k) <==> IsAway(deps, roots, k, t)
  {
    WithinIsByChains(deps, roots, k, t);
    if k == 0 {
      forall chain | Leads(deps, roots, t, chain) && |chain| == 1 ensures t in roots {
      }
      if t in roots {
        assert Leads(deps, roots, t, [t]);
      }
    } else {
      WithinIsByChains(deps, roots, k - 1, t);
      forall chain | Leads(deps, roots, t, chain) && |chain| <= k ensures t in Within(deps, roots, k - 1) {
      }
      if t in Level(deps, roots, k) {
        var chain := ChainTo(deps, roots, k, t);
        assert Leads(deps, roots, t, chain);
      }
    }
  }

  lemma {:induction false} LevelsHaveNoGap(deps: Deps, roots: set<TaskId>, j: nat, k: nat)
    requires j <= k && Level(deps, roots, j) == {}
    ensures Level(deps, roots, k) == {}
  {
    if j < k {
      EmptyLevelEndsTheSearch(deps, roots, j, k - 1);
      ClosedStays(deps, roots, k - 1, k);
    }
  }

  /** The search is cut off if and only if some task is `maxDepth` hops away. */
  lemma {:induction false} CutOffExactlyWhen(deps: Deps, roots: set<TaskId>, maxDepth: nat)
    ensures IsDepth(deps, roots, maxDepth, maxDepth + 1) <==> exists t :: IsAway(deps, roots, maxDepth, t)
  {
    if IsDepth(deps, roots, maxDepth, maxDepth + 1) {
      var t :| t in Level(deps, roots, maxDepth);
      LevelIsByChains(deps, roots, maxDepth, t);
    }
    if t :| IsAway(deps, roots, maxDepth, t) {
      LevelIsByChains(deps, roots, maxDepth, t);
      forall k | 0 <= k <= maxDepth ensures Level(deps, roots, k) != {} {
        if Level(deps, roots, k) == {} {
          LevelsHaveNoGap(deps, roots, k, maxDepth);
        }
      }
    }
  }

  lemma DirectOfOneMore(deps: Deps, e: (TaskId, TaskId), tasks: set<TaskId>)
    ensures Direct(deps + {e}, tasks) == Direct(deps, tasks) + (if e.0 in tasks then {e.1} else {})
  {
    forall d ensures d in Direct(deps + {e}, tasks) <==> d in Direct(deps, tasks) || (e.0 in tasks && d == e.1) {
      if d in Direct(deps, tasks) {
        var f :| f in deps && f.0 in tasks && f.1 == d;
        assert f in deps + {e};
      }
      if e.0 in tasks && d == e.1 {
        assert e in deps + {e};
      }
    }
  }

  lemma Appended(s: seq<TaskId>, x: TaskId)
    ensures Elements(s + [x]) == Elements(s) + {x}
  {
  }

  /** SELECT depends_on_task_id ... WHERE task_id IN (frontier), in some order. */
  method SelectDependencies(deps: Deps, frontier: seq<TaskId>) returns (rows: seq<TaskId>)
    ensures Elements(rows) == Direct(deps, Elements(frontier))
  {
    rows := [];
    var todo := deps;
    while todo != {}
      invariant todo <= deps
      invariant Elements(rows) == Direct(deps - todo, Elements(frontier))
      decreases todo
    {
      var e :| e in todo;
      DirectOfOneMore(deps - todo, e, Elements(frontier));
      todo := todo - {e};
      assert deps - todo == (deps - todo - {e}) + {e};
      if e.0 in frontier {
        Appended(rows, e.1);
        rows := rows + [e.1];
      }
    }
    assert deps - todo == deps;
  }

  /** The entries not seen yet; a task may occur several times. */
  function Unseen(rows: seq<TaskId>, seen: set<TaskId>): (r: seq<TaskId>)
    ensures Elements(r) == Elements(rows) - seen
  {
    if rows == [] then []
    else
      var front := Unseen(rows[..|rows| - 1], seen);
      var last := rows[|rows| - 1];
      assert rows == rows[..|rows| - 1] + [last];
      Appended(rows[..|rows| - 1], last);
      Appended(front, last);
      if last in seen then front else front + [last]
  }

  method DependencyDepth(deps: Deps, taskIds: seq<TaskId>, maxDepth: nat) returns (depth: nat)
    ensures IsDepth(deps, Elements(taskIds), maxDepth, depth)
    ensures depth > maxDepth <==> exists t :: IsAway(deps, Elements(taskIds), maxDepth, t)
  {
    ghost var roots := Elements(taskIds);
    var seen := set t | t in taskIds;
    var frontier := taskIds;
    depth := 0;
    while frontier != [] && depth <= maxDepth
      invariant depth <= maxDepth + 1
      invariant seen == Within(deps, roots, depth) && Elements(frontier) == Level(deps, roots, depth)
      invariant forall k :: 0 <= k < depth ==> Level(deps, roots, k) != {}
      decreases maxDepth + 1 - depth
    {
      assert frontier[0] in Elements(frontier);
      SearchStep(deps, roots, depth);
      var rows := SelectDependencies(deps, frontier);
      frontier := Unseen(rows, seen);
      seen := seen + set t | t in frontier;
      depth := depth + 1;
    }
    NoElements(frontier);
    CutOffExactlyWhen(deps, roots, maxDepth);
  }

  lemma SearchStep(deps: Deps, roots: set<TaskId>, k: nat)
    ensures Level(deps, roots, k + 1) == Direct(deps, Level(deps, roots, k)) - Within(deps, roots, k)
    ensures Within(deps, roots, k + 1) == Within(deps, roots, k) + Level(deps, roots, k + 1)
  {
    var here := Within(deps, roots, k);
    forall d | d in Direct(deps, here) && d !in here ensures d in Direct(deps, Level(deps, roots, k)) {
      var e :| e in deps && e.0 in here && e.1 == d;
      if k > 0 && e.0 in Within(deps, roots, k - 1) {
        assert false;
      }
    }
    forall d | d in Direct(deps, Level(deps, roots, k)) ensures d in Direct(deps, here) {
      var e :| e in deps && e.0 in Level(deps, roots, k) && e.1 == d;
      DirectMember(deps, here, e.0, d);
    }
  }

  // ----- adding a task

  /** Edges out of a task that the walk never reaches do not change the walk. */
  lemma {:induction false} WithinIgnoresUnreached(deps: Deps, more: Deps, roots: set<TaskId>, k: nat)
    requires forall e :: e in more ==> e.0 !in Within(deps, roots, k)
    ensures Within(deps + more, roots, k) == Within(deps, roots, k)
  {
    if k > 0 {
      WithinIgnoresUnreached(deps, more, roots, k - 1);
      var here := Within(deps, roots, k - 1);
      assert Direct(deps + more, here) == Direct(deps, here) by {
        forall d | d in Direct(deps + more, here) ensures d in Direct(deps, here) {
          var e :| e in deps + more && e.0 in here && e.1 == d;
          assert e in deps;
        }
        forall d | d in Direct(deps, here) ensures d in Direct(deps + more, here) {
          var e :| e in deps && e.0 in here && e.1 == d;
          assert e in deps + more;
        }
      }
    }
  }
}
