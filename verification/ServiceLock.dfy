/** The service lock of synapse/server.py and synapse/backup.py: a file created exclusively by
    a server or a restore, and removed by whoever finds in it the PID of a dead process. Every
    system call is one step; the steps of any number of processes interleave freely, and a
    process may die at any point. PIDs are not reused. */
module ServiceLock {
  import opened Wrappers

  type Pid = nat

  datatype Content = Empty | PidOf(pid: Pid) | RestoreMark

  /** A process creates at most one file, so its creator identifies it. */
  datatype File = File(owner: Pid, content: Content)

  datatype Kind = Server | Restore

  /** `seen` is the PID read from the file. */
  datatype Phase =
    | Looking | Creating(canRecover: bool) | Reading | Probing(seen: Pid) | Unlinking(seen: Pid)
    | Created | Holding | Released | Refused | Gone

  datatype Process = Process(kind: Kind, phase: Phase)

  datatype State = State(processes: map<Pid, Process>, file: Option<File>)

  datatype Step =
    | Arrive(p: Pid, kind: Kind) | Look(p: Pid) | Create(p: Pid) | Read(p: Pid) | Probe(p: Pid)
    | Unlink(p: Pid) | Write(p: Pid) | Release(p: Pid) | Die(p: Pid)

  const START := State(map[], None)

  predicate Alive(s: State, p: Pid) {
    p in s.processes && s.processes[p].phase != Gone
  }

  predicate Enabled(s: State, step: Step) {
    if step.Arrive? then step.p !in s.processes
    else
      && step.p in s.processes
      && var phase := s.processes[step.p].phase;
         match step
         case Look(_) => phase == Looking
         case Create(_) => phase.Creating?
         case Read(_) => phase == Reading
         case Probe(_) => phase.Probing?
         case Unlink(_) => phase.Unlinking?
         case Write(_) => phase == Created
         case Release(_) => phase == Holding
         case Die(_) => phase != Gone
  }

  function Goes(s: State, p: Pid, phase: Phase): State
    requires p in s.processes
  {
    s.(processes := s.processes[p := s.processes[p].(phase := phase)])
  }

  function Mark(kind: Kind, p: Pid): Content {
    if kind == Server then PidOf(p) else RestoreMark
  }

  /** A step a process cannot take leaves the state as it is. */
  function Next(s: State, step: Step): State {
    if !Enabled(s, step) then s
    else match step
      case Arrive(p, kind) =>
        s.(processes := s.processes[p := Process(kind, if kind == Server then Creating(true) else Looking)])
      case Look(p) => Goes(s, p, if s.file.Some? then Reading else Creating(false))
      case Create(p) =>
        if s.file.None? then Goes(s, p, Created).(file := Some(File(p, Empty)))
        else Goes(s, p, if s.processes[p].phase.canRecover then Reading else Refused)
      case Read(p) =>
        Goes(s, p, if s.file.Some? && s.file.value.content.PidOf? then Probing(s.file.value.content.pid) else Refused)
      case Probe(p) =>
        var seen := s.processes[p].phase.seen;
        Goes(s, p, if Alive(s, seen) then Refused else Unlinking(seen))
      case Unlink(p) => Goes(s, p, Creating(false)).(file := None)
      case Write(p) =>
        var file := if s.file.Some? && s.file.value.owner == p then Some(File(p, Mark(s.processes[p].kind, p))) else s.file;
        Goes(s, p, Holding).(file := file)
      case Release(p) => Goes(s, p, Released).(file := None)
      case Die(p) => Goes(s, p, Gone)
  }

  function After(s: State, steps: seq<Step>): State
    decreases steps
  {
    if steps == [] then s else After(Next(s, steps[0]), steps[1..])
  }

  /** Between the successful creation and the release. */
  predicate Holds(s: State, p: Pid) {
    p in s.processes && (s.processes[p].phase == Created || s.processes[p].phase == Holding)
  }

  ghost predicate MutualExclusion(s: State) {
    forall p, q :: Holds(s, p) && Holds(s, q) ==> p == q
  }

  /** The step removes the lock file of another process that holds the lock. */
  predicate Steals(s: State, step: Step) {
    && Enabled(s, step) && (step.Unlink? || step.Release?)
    && s.file.Some? && s.file.value.owner != step.p && Holds(s, s.file.value.owner)
  }

  predicate Quiet(s: State, steps: seq<Step>)
    decreases steps
  {
    steps != [] ==> !Steals(s, steps[0]) && Quiet(Next(s, steps[0]), steps[1..])
  }

  // ----- a run without a theft

  /** The holder's file is the one at the path; a PID in a file is its creator's; a process
      about to unlink has seen a dead process. */
  ghost predicate Inv(s: State) {
    && (forall p :: Holds(s, p) ==> s.file.Some? && s.file.value.owner == p)
    && (s.file.Some? && s.file.value.content.PidOf? ==> s.file.value.content.pid == s.file.value.owner)
    && (forall p :: p in s.processes && s.processes[p].phase.Unlinking? ==> !Alive(s, s.processes[p].phase.seen))
    && (s.file.Some? ==> s.file.value.owner in s.processes)
    && (forall p :: p in s.processes && s.processes[p].phase.Probing? ==> s.processes[p].phase.seen in s.processes)
    && (forall p :: p in s.processes && s.processes[p].phase.Unlinking? ==> s.processes[p].phase.seen in s.processes)
  }

  lemma {:induction false} StepKeepsInv(s: State, step: Step)
    requires Inv(s) && !Steals(s, step)
    ensures Inv(Next(s, step))
  {
    var t := Next(s, step);
    forall p | Holds(t, p) ensures t.file.Some? && t.file.value.owner == p {
      assert step.Create? || Holds(s, p);
      assert p != step.p ==> Holds(s, p);
    }
  }

  lemma {:induction false} QuietRunKeepsInv(s: State, steps: seq<Step>)
    requires Inv(s) && Quiet(s, steps)
    ensures Inv(After(s, steps))
    decreases steps
  {
    if steps != [] {
      StepKeepsInv(s, steps[0]);
      QuietRunKeepsInv(Next(s, steps[0]), steps[1..]);
    }
  }

  lemma {:induction false} PrefixIsQuiet(s: State, steps: seq<Step>, k: nat)
    requires Quiet(s, steps) && k <= |steps|
    ensures Quiet(s, steps[..k])
    decreases steps
  {
    if k > 0 {
      PrefixIsQuiet(Next(s, steps[0]), steps[1..], k - 1);
      assert steps[..k][1..] == steps[1..][..k - 1];
    }
  }

  /** Over every interleaving in which no process removes the file of a live holder, at most
      one process holds the lock at any time. */
  lemma QuietRunsExclude(steps: seq<Step>, k: nat)
    requires Quiet(START, steps) && k <= |steps|
    ensures MutualExclusion(After(START, steps[..k]))
  {
    PrefixIsQuiet(START, steps, k);
    QuietRunKeepsInv(START, steps[..k]);
  }

  // ----- and a run with one

  lemma {:induction false} AfterAppend(s: State, steps: seq<Step>, more: seq<Step>)
    ensures After(s, steps + more) == After(After(s, steps), more)
    decreases steps
  {
    if steps == [] {
      assert steps + more == more;
    } else {
      assert (steps + more)[1..] == steps[1..] + more;
      AfterAppend(Next(s, steps[0]), steps[1..], more);
    }
  }

  ghost predicate LeadsToClash(s: State, tail: seq<Step>) {
    Quiet(s, tail) && !MutualExclusion(After(s, tail))
  }

  /** The condition is exact: after a run without a theft, the next step is a theft if and only
      if two processes can come to hold the lock without any further one. */
  lemma {:induction false} TheftIsTheOnlyDanger(steps: seq<Step>, step: Step)
    requires Quiet(START, steps)
    ensures var s := Next(After(START, steps), step);
            Steals(After(START, steps), step) <==>
            exists tail :: LeadsToClash(s, tail)
  {
    var before := After(START, steps);
    var s := Next(before, step);
    QuietRunKeepsInv(START, steps);
    if Steals(before, step) {
      var owner := before.file.value.owner;
      assert step.Release? ==> Holds(before, step.p);
      var tail := [Create(step.p)];
      assert tail[1..] == [];
      assert After(s, tail) == Next(s, Create(step.p)) && Quiet(s, tail);
      assert Holds(After(s, tail), step.p) && Holds(After(s, tail), owner);
      assert LeadsToClash(s, tail);
    } else {
      StepKeepsInv(before, step);
      forall tail ensures !LeadsToClash(s, tail) {
        if Quiet(s, tail) {
          QuietRunKeepsInv(s, tail);
        }
      }
    }
  }

  // ----- when there is none

  predicate Recovering(s: State, p: Pid) {
    p in s.processes && (s.processes[p].phase.Probing? || s.processes[p].phase.Unlinking?)
  }

  /** No lock file is created while a process is between its reading of the old one and its
      unlinking. */
  ghost predicate Uninterrupted(s: State, steps: seq<Step>)
    decreases steps
  {
    steps != [] ==>
      && (steps[0].Create? && Enabled(s, steps[0]) && s.file.None? ==> forall p :: !Recovering(s, p))
      && Uninterrupted(Next(s, steps[0]), steps[1..])
  }

  /** The file at the path, if any, is the one a recovering process has read. */
  ghost predicate Current(s: State) {
    forall p :: Recovering(s, p) && s.file.Some? ==> s.processes[p].phase.seen == s.file.value.owner
  }

  lemma {:induction false} StepStaysCurrent(s: State, step: Step)
    requires Inv(s) && Current(s)
    requires step.Create? && Enabled(s, step) && s.file.None? ==> forall p :: !Recovering(s, p)
    ensures !Steals(s, step) && Current(Next(s, step))
  {
    var t := Next(s, step);
    assert Enabled(s, step) && step.Unlink? ==> Recovering(s, step.p);
    assert Enabled(s, step) && step.Release? ==> Holds(s, step.p);
    forall p | Recovering(t, p) && t.file.Some? ensures t.processes[p].phase.seen == t.file.value.owner {
      assert step.Read? || Recovering(s, p);
      assert p != step.p ==> Recovering(s, p);
    }
  }

  lemma {:induction false} UninterruptedIsQuiet(s: State, steps: seq<Step>)
    requires Inv(s) && Current(s) && Uninterrupted(s, steps)
    ensures Quiet(s, steps)
    decreases steps
  {
    if steps != [] {
      StepStaysCurrent(s, steps[0]);
      StepKeepsInv(s, steps[0]);
      UninterruptedIsQuiet(Next(s, steps[0]), steps[1..]);
    }
  }

  /** If no lock file is created between another process's stale read and its unlink, at most
      one process holds the lock at any time. */
  lemma UninterruptedRecoveryExcludes(steps: seq<Step>, k: nat)
    requires Uninterrupted(START, steps) && k <= |steps|
    ensures MutualExclusion(After(START, steps[..k]))
  {
    UninterruptedIsQuiet(START, steps);
    QuietRunsExclude(steps, k);
  }

  /** A theft takes three processes: the file unlinked was created, by a process still holding
      the lock, after the thief had read the file of a process that is now dead. */
  lemma {:induction false} TheftHitsALaterFile(steps: seq<Step>, step: Step)
    requires Quiet(START, steps)
    ensures var s := After(START, steps);
            Steals(s, step) <==>
            && Enabled(s, step) && step.Unlink? && s.file.Some? && Holds(s, s.file.value.owner)
            && s.file.value.owner != s.processes[step.p].phase.seen && !Alive(s, s.processes[step.p].phase.seen)
  {
    QuietRunKeepsInv(START, steps);
    var s := After(START, steps);
    assert Enabled(s, step) && step.Release? ==> Holds(s, step.p);
  }

  // ----- the premise is needed

  lemma AfterThree(s: State, a: Step, b: Step, c: Step)
    ensures After(s, [a, b, c]) == Next(Next(Next(s, a), b), c)
  {
    assert [a, b, c][1..] == [b, c] && [b, c][1..] == [c] && [c][1..] == [];
    assert After(Next(s, a), [b, c]) == After(Next(Next(s, a), b), [c]);
  }

  lemma AfterFour(s: State, a: Step, b: Step, c: Step, d: Step)
    ensures After(s, [a, b, c, d]) == Next(Next(Next(Next(s, a), b), c), d)
  {
    assert [a, b, c, d][1..] == [b, c, d];
    AfterThree(Next(s, a), b, c, d);
  }

  /** Server 1 has died holding the lock. */
  const CRASHED := State(map[1 := Process(Server, Gone)], Some(File(1, PidOf(1))))
  const CRASH := [Arrive(1, Server), Create(1), Write(1), Die(1)]

  lemma {:induction false} ServerOneCrashes()
    ensures After(START, CRASH) == CRASHED
  {
    AfterFour(START, CRASH[0], CRASH[1], CRASH[2], CRASH[3]);
  }

  const BOTH_FOUND := State(
    map[1 := Process(Server, Gone), 2 := Process(Server, Reading), 3 := Process(Server, Reading)],
    Some(File(1, PidOf(1))))
  const MEET := [Arrive(2, Server), Arrive(3, Server), Create(2), Create(3)]

  lemma TwoServersMeet()
    ensures After(CRASHED, MEET) == BOTH_FOUND
  {
    AfterFour(CRASHED, MEET[0], MEET[1], MEET[2], MEET[3]);
  }

  const BOTH_JUDGED := State(
    map[1 := Process(Server, Gone), 2 := Process(Server, Unlinking(1)), 3 := Process(Server, Unlinking(1))],
    Some(File(1, PidOf(1))))
  const JUDGE := [Read(2), Read(3), Probe(2), Probe(3)]

  lemma {:induction false} BothJudgeItStale()
    ensures After(BOTH_FOUND, JUDGE) == BOTH_JUDGED
  {
    AfterFour(BOTH_FOUND, JUDGE[0], JUDGE[1], JUDGE[2], JUDGE[3]);
  }

  const TAKE := [Unlink(2), Create(2), Unlink(3), Create(3)]

  lemma BothTakeIt()
    ensures Holds(After(BOTH_JUDGED, TAKE), 2) && Holds(After(BOTH_JUDGED, TAKE), 3)
  {
    AfterFour(BOTH_JUDGED, TAKE[0], TAKE[1], TAKE[2], TAKE[3]);
  }

  /** Two servers recover the lock of a dead one, and both end up holding it. */
  lemma TwoRecoverersClash()
    ensures !MutualExclusion(After(START, CRASH + (MEET + (JUDGE + TAKE))))
  {
    ServerOneCrashes();
    TwoServersMeet();
    BothJudgeItStale();
    BothTakeIt();
    AfterAppend(START, CRASH, MEET + (JUDGE + TAKE));
    AfterAppend(CRASHED, MEET, JUDGE + TAKE);
    AfterAppend(BOTH_FOUND, JUDGE, TAKE);
  }

  // One recoverer is enough: the PID is read before the process is probed.

  const ONE_RUNS := State(
    map[1 := Process(Server, Holding), 2 := Process(Server, Creating(true))], Some(File(1, PidOf(1))))
  const RUN := [Arrive(1, Server), Create(1), Write(1), Arrive(2, Server)]

  lemma ServerOneRuns()
    ensures After(START, RUN) == ONE_RUNS
  {
    AfterFour(START, RUN[0], RUN[1], RUN[2], RUN[3]);
  }

  const ONE_STOPPED := State(map[1 := Process(Server, Gone), 2 := Process(Server, Probing(1))], None)
  const STOP := [Create(2), Read(2), Release(1), Die(1)]

  lemma {:induction false} ServerOneStops()
    ensures After(ONE_RUNS, STOP) == ONE_STOPPED
  {
    AfterFour(ONE_RUNS, STOP[0], STOP[1], STOP[2], STOP[3]);
  }

  const THREE_ROBBED := State(
    map[1 := Process(Server, Gone), 2 := Process(Server, Creating(false)), 3 := Process(Server, Created)], None)
  const ROB := [Arrive(3, Server), Create(3), Probe(2), Unlink(2)]

  lemma ServerThreeIsRobbed()
    ensures After(ONE_STOPPED, ROB) == THREE_ROBBED
  {
    AfterFour(ONE_STOPPED, ROB[0], ROB[1], ROB[2], ROB[3]);
  }

  const SINGLE_RECOVERY := RUN + (STOP + (ROB + [Create(2)]))

  lemma {:induction false} OnlyReadersRecover(s: State, steps: seq<Step>, reader: Pid)
    requires forall p :: Recovering(s, p) ==> p == reader
    requires forall i :: 0 <= i < |steps| && steps[i].Read? ==> steps[i].p == reader
    ensures forall p :: Recovering(After(s, steps), p) ==> p == reader
    decreases steps
  {
    if steps != [] {
      forall p | Recovering(Next(s, steps[0]), p) ensures p == reader {
        assert steps[0].Read? || Recovering(s, p);
        assert p != steps[0].p ==> Recovering(s, p);
      }
      OnlyReadersRecover(Next(s, steps[0]), steps[1..], reader);
    }
  }

  /** That no two processes recover the lock at once does not suffice: in this run only server
      2 ever does, between the moment server 1 stops and server 3 has started. */
  lemma {:induction false} OneRecovererClashes(k: nat)
    requires k <= |SINGLE_RECOVERY|
    ensures var s := After(START, SINGLE_RECOVERY[..k]); forall p, q :: Recovering(s, p) && Recovering(s, q) ==> p == q
    ensures !MutualExclusion(After(START, SINGLE_RECOVERY))
  {
    OnlyReadersRecover(START, SINGLE_RECOVERY[..k], 2);
    SingleRecoveryClashes();
  }

  lemma SingleRecoveryClashes()
    ensures !MutualExclusion(After(START, SINGLE_RECOVERY))
  {
    ServerOneRuns();
    ServerOneStops();
    ServerThreeIsRobbed();
    AfterAppend(START, RUN, STOP + (ROB + [Create(2)]));
    AfterAppend(ONE_RUNS, STOP, ROB + [Create(2)]);
    AfterAppend(ONE_STOPPED, ROB, [Create(2)]);
    assert [Create(2)][1..] == [];
    var end := Next(THREE_ROBBED, Create(2));
    assert After(START, SINGLE_RECOVERY) == end;
    assert Holds(end, 2) && Holds(end, 3);
  }

  // ----- an undisturbed acquisition

  predicate StaleFile(file: File, alive: set<Pid>) {
    file.content.PidOf? && file.content.pid !in alive
  }

  function Living(s: State): set<Pid> {
    set p | p in s.processes && Alive(s, p)
  }

  /** The calls of one process, from its start to its writing the file; calls it does not come
      to make change nothing. */
  function Acquisition(p: Pid, kind: Kind): seq<Step> {
    Approach(p, kind) + [Unlink(p), Create(p), Write(p)]
  }

  function Approach(p: Pid, kind: Kind): seq<Step> {
    [Arrive(p, kind), if kind == Server then Create(p) else Look(p), Read(p), Probe(p)]
  }

  /** Where the look at the path, or the first attempt to create it, leaves the process. */
  function Found(s: State, p: Pid, kind: Kind): State {
    if s.file.Some? then State(s.processes[p := Process(kind, Reading)], s.file)
    else if kind == Server then State(s.processes[p := Process(kind, Created)], Some(File(p, Empty)))
    else State(s.processes[p := Process(kind, Creating(false))], None)
  }

  lemma FirstTwoCalls(s: State, p: Pid, kind: Kind)
    requires p !in s.processes
    ensures Next(Next(s, Approach(p, kind)[0]), Approach(p, kind)[1]) == Found(s, p, kind)
  {
    var phase := if kind == Server then Creating(true) else Looking;
    assert Next(s, Arrive(p, kind)) == State(s.processes[p := Process(kind, phase)], s.file);
  }

  lemma {:induction false} UndisturbedApproach(s: State, p: Pid, kind: Kind)
    requires Inv(s) && p !in s.processes
    ensures After(s, Approach(p, kind)) ==
            if s.file.None? then Found(s, p, kind)
            else if StaleFile(s.file.value, Living(s)) then
              State(s.processes[p := Process(kind, Unlinking(s.file.value.content.pid))], s.file)
            else State(s.processes[p := Process(kind, Refused)], s.file)
  {
    var steps := Approach(p, kind);
    AfterFour(s, steps[0], steps[1], steps[2], steps[3]);
    FirstTwoCalls(s, p, kind);
    var found := Found(s, p, kind);
    if s.file.Some? && s.file.value.content.PidOf? {
      var pid := s.file.value.content.pid;
      assert Next(found, Read(p)) == State(s.processes[p := Process(kind, Probing(pid))], s.file);
      assert pid != p;
    }
  }

  /** Undisturbed, a process gets the lock if and only if there is no lock file or a stale one,
      and then its own file is there; otherwise the file is unchanged. */
  lemma {:induction false} UndisturbedAcquisition(s: State, p: Pid, kind: Kind)
    requires Inv(s) && p !in s.processes
    ensures var t := After(s, Acquisition(p, kind));
            && (Holds(t, p) <==> Obtains(s.file, Living(s)))
            && t.file == FileAfter(p, kind, s.file, Living(s))
  {
    UndisturbedApproach(s, p, kind);
    var mid := After(s, Approach(p, kind));
    var rest := [Unlink(p), Create(p), Write(p)];
    AfterAppend(s, Approach(p, kind), rest);
    AfterThree(mid, rest[0], rest[1], rest[2]);
  }

  predicate Obtains(file: Option<File>, alive: set<Pid>) {
    file.None? || StaleFile(file.value, alive)
  }

  function FileAfter(p: Pid, kind: Kind, file: Option<File>, alive: set<Pid>): Option<File> {
    if Obtains(file, alive) then Some(File(p, Mark(kind, p))) else file
  }

  /** A lock file whose creator is dead and that holds no PID, because the creator was a restore
      or died before writing it, is never removed: nobody gets the lock again. */
  lemma {:induction false} UnmarkedLockIsForever(s: State, steps: seq<Step>)
    requires Inv(s) && s.file.Some? && !s.file.value.content.PidOf? && !Alive(s, s.file.value.owner)
    requires forall p :: !Recovering(s, p)
    ensures After(s, steps).file == s.file && forall p :: !Holds(After(s, steps), p)
    decreases steps
  {
    assert forall p :: !Holds(s, p);
    if steps != [] {
      var t := Next(s, steps[0]);
      assert !Recovering(s, steps[0].p) && !Holds(s, steps[0].p);
      StepKeepsInv(s, steps[0]);
      forall p ensures !Recovering(t, p) {
        assert p != steps[0].p ==> !Recovering(s, p);
        assert !Recovering(s, p);
      }
      UnmarkedLockIsForever(t, steps[1..]);
    }
  }

  // ----- the code, undisturbed

  class LockPath {
    var file: Option<File>

    constructor ()
      ensures file == None
    {
      file := None;
    }

    method IsStale(alive: set<Pid>) returns (stale: bool)
      ensures stale <==> file.Some? && StaleFile(file.value, alive)
    {
      if file.None? {
        return false;
      }
      match file.value.content {
        case Empty => stale := false;
        case RestoreMark => stale := false;
        case PidOf(pid) => stale := pid !in alive;
      }
    }

    /** open with O_CREAT | O_EXCL. */
    method CreateExclusively(p: Pid) returns (created: bool)
      modifies this
      ensures created <==> old(file).None?
      ensures file == if created then Some(File(p, Empty)) else old(file)
    {
      created := file.None?;
      if created {
        file := Some(File(p, Empty));
      }
    }
  }

  class Participant {
    const pid: Pid
    const path: LockPath
    var acquired: bool

    constructor (pid: Pid, path: LockPath)
      ensures this.pid == pid && this.path == path && !acquired
    {
      this.pid, this.path, acquired := pid, path, false;
    }

    /** `_acquire_lock` of the server: at most two attempts, and only the first may recover. */
    method AcquireAsServer(alive: set<Pid>)
      requires !acquired
      modifies this, path
      ensures acquired <==> Obtains(old(path.file), alive)
      ensures path.file == FileAfter(pid, Server, old(path.file), alive)
    {
      var attempt := 0;
      var created := false;
      while attempt < 2 && !created
        invariant attempt <= 2 && !acquired
        invariant created ==> Obtains(old(path.file), alive) && path.file == Some(File(pid, Empty))
        invariant !created && attempt == 0 ==> path.file == old(path.file)
        invariant !created && attempt == 1 ==> path.file == None && Obtains(old(path.file), alive)
        invariant !created ==> attempt < 2
      {
        created := path.CreateExclusively(pid);
        if !created {
          if attempt != 0 {
            return;
          }
          var stale := path.IsStale(alive);
          if !stale {
            return;
          }
          path.file := None;
        }
        attempt := attempt + 1;
      }
      path.file := Some(path.file.value.(content := PidOf(pid)));
      acquired := true;
    }

    /** `_acquire_service_lock` of a restore. */
    method AcquireForRestore(alive: set<Pid>)
      requires !acquired
      modifies this, path
      ensures acquired <==> Obtains(old(path.file), alive)
      ensures path.file == FileAfter(pid, Restore, old(path.file), alive)
    {
      if path.file.Some? {
        var stale := path.IsStale(alive);
        if !stale {
          return;
        }
        path.file := None;
      }
      var created := path.CreateExclusively(pid);
      if !created {
        return;
      }
      path.file := Some(path.file.value.(content := RestoreMark));
      acquired := true;
    }

    /** Only a participant that acquired the lock removes the file, whoever's it is. */
    method ReleaseLock()
      modifies this, path
      ensures !acquired
      ensures path.file == if old(acquired) then None else old(path.file)
    {
      if acquired {
        path.file := None;
        acquired := false;
      }
    }
  }
}
