/** The web login of synapse/web.py. Failures are counted per organization, and after the
    configured number of them the organization is locked for a while. A login reads the clock,
    checks the lock, asks the service and records the answer; check and record are critical
    sections of their own, so logins overlap freely. */
module LoginLockout {
  import opened Wrappers

  /** Readings of the monotonic clock, in its ticks. */
  type Time = int

  type Org = string

  datatype Settings = Settings(maxAttempts: int, lockout: Time, maxSessions: int, sessionTtl: Time)

  /** A stored failure count and lock; an organization without one has (0, 0). */
  datatype Failures = Failures(count: nat, lockedUntil: Time)

  type Table = map<Org, Failures>

  function FailuresOf(table: Table, org: Org): Failures {
    if org in table then table[org] else Failures(0, 0)
  }

  predicate IsLocked(table: Table, org: Org, now: Time) {
    FailuresOf(table, org).lockedUntil > now
  }

  /** The failure is the last one allowed: recording it locks the organization. */
  predicate Fills(x: Settings, f: Failures) {
    f.count + 1 >= x.maxAttempts
  }

  /** `start` is the time the failed attempt began. */
  function AfterFailure(x: Settings, f: Failures, start: Time): Failures {
    if Fills(x, f) then Failures(0, start + x.lockout) else Failures(f.count + 1, 0)
  }

  /** What the service answers; `Raised` is any error but a refusal, and passes through. */
  datatype Answer = Accepted | Rejected | Raised

  function TableAfter(x: Settings, table: Table, org: Org, start: Time, answer: Answer): Table {
    match answer
    case Accepted => table - {org}
    case Rejected => table[org := AfterFailure(x, FailuresOf(table, org), start)]
    case Raised => table
  }

  /** `NoSecret`: neither a password nor a local trust token; nobody is asked. */
  datatype Outcome = NoSecret | Locked | Answered(answer: Answer)

  datatype Session = Session(token: string, org: Org, lastUsed: Time)

  // ----- sessions

  function Live(x: Settings, sessions: seq<Session>, now: Time): seq<Session> {
    if sessions == [] then []
    else
      var rest := Live(x, sessions[..|sessions| - 1], now);
      var last := sessions[|sessions| - 1];
      if now - last.lastUsed > x.sessionTtl then rest else rest + [last]
  }

  function OfOrg(sessions: seq<Session>, org: Org): seq<Session> {
    if sessions == [] then []
    else
      var rest := OfOrg(sessions[..|sessions| - 1], org);
      var last := sessions[|sessions| - 1];
      if last.org == org then rest + [last] else rest
  }

  /** The sessions without the first n of the organization's. */
  function WithoutOldest(sessions: seq<Session>, org: Org, n: nat): seq<Session> {
    if sessions == [] then []
    else
      var before := sessions[..|sessions| - 1];
      var last := sessions[|sessions| - 1];
      if last.org == org && |OfOrg(before, org)| < n then WithoutOldest(before, org, n)
      else WithoutOldest(before, org, n) + [last]
  }

  /** Storing under a token: in place if it is taken, else at the end. */
  function Put(sessions: seq<Session>, s: Session): seq<Session> {
    if sessions == [] then [s]
    else if sessions[0].token == s.token then [s] + sessions[1..]
    else [sessions[0]] + Put(sessions[1..], s)
  }

  function Excess(x: Settings, held: nat): nat {
    if held - x.maxSessions + 1 > 0 then held - x.maxSessions + 1 else 0
  }

  /** The sessions after a login: expired ones go, then the organization's oldest. */
  function SessionsAfter(x: Settings, sessions: seq<Session>, org: Org, now: Time, token: string): seq<Session> {
    var live := Live(x, sessions, now);
    Put(WithoutOldest(live, org, Excess(x, |OfOrg(live, org)|)), Session(token, org, now))
  }

  class WebUI {
    const x: Settings
    var webToken: Option<string>
    var failures: Table
    var sessions: seq<Session>

    constructor (x: Settings, webToken: Option<string>)
      ensures this.x == x && this.webToken == webToken && failures == map[] && sessions == []
    {
      this.x, this.webToken, failures, sessions := x, webToken, map[], [];
    }

    /** One login nobody overlaps with; `ask` is what the service answers to a secret, `token`
        the token drawn on success. */
    method Login(org: Org, password: Option<string>, now: Time, ask: string -> Answer, token: string)
      returns (outcome: Outcome)
      modifies this`failures, this`sessions
      ensures var secret := if password.Some? then password else webToken;
              outcome == if secret.None? then NoSecret
                         else if IsLocked(old(failures), org, now) then Locked
                         else Answered(ask(secret.value))
      ensures failures == if outcome.Answered? then TableAfter(x, old(failures), org, now, outcome.answer)
                          else old(failures)
      ensures sessions == if outcome == Answered(Accepted) then SessionsAfter(x, old(sessions), org, now, token)
                          else old(sessions)
    {
      var secret := if password.Some? then password else webToken;
      if secret.None? {
        return NoSecret;
      }
      var locked := CheckLock(org, now);
      if locked {
        return Locked;
      }
      var answer := ask(secret.value);
      outcome := Answered(answer);
      match answer {
        case Rejected =>
          RecordFailure(org, now);
        case Accepted =>
          RecordLogin(org, now, token);
        case Raised =>
      }
    }

    /** The first critical section. */
    method CheckLock(org: Org, now: Time) returns (locked: bool)
      ensures locked <==> IsLocked(failures, org, now)
    {
      var lockedUntil := if org in failures then failures[org].lockedUntil else 0;
      locked := lockedUntil > now;
    }

    /** The second one after a refusal; `now` is still the time the login began. */
    method RecordFailure(org: Org, now: Time)
      modifies this`failures
      ensures failures == TableAfter(x, old(failures), org, now, Rejected)
    {
      var count := if org in failures then failures[org].count else 0;
      count := count + 1;
      var lockedUntil := 0;
      if count >= x.maxAttempts {
        lockedUntil := now + x.lockout;
        count := 0;
      }
      failures := failures[org := Failures(count, lockedUntil)];
    }

    /** The second one after a success. */
    method RecordLogin(org: Org, now: Time, token: string)
      modifies this`failures, this`sessions
      ensures failures == TableAfter(x, old(failures), org, now, Accepted)
      ensures sessions == SessionsAfter(x, old(sessions), org, now, token)
    {
      failures := failures - {org};
      PruneSessions(now);
      DropOldest(org);
      sessions := Put(sessions, Session(token, org, now));
    }

    method PruneSessions(now: Time)
      modifies this`sessions
      ensures sessions == Live(x, old(sessions), now)
    {
      var kept := [];
      for i := 0 to |sessions|
        invariant kept == Live(x, sessions[..i], now)
      {
        assert sessions[..i + 1][..i] == sessions[..i];
        if !(now - sessions[i].lastUsed > x.sessionTtl) {
          kept := kept + [sessions[i]];
        }
      }
      assert sessions[..|sessions|] == sessions;
      sessions := kept;
    }

    method DropOldest(org: Org)
      modifies this`sessions
      ensures sessions == WithoutOldest(old(sessions), org, Excess(x, |OfOrg(old(sessions), org)|))
    {
      var held := 0;
      for i := 0 to |sessions|
        invariant held == |OfOrg(sessions[..i], org)|
      {
        assert sessions[..i + 1][..i] == sessions[..i];
        if sessions[i].org == org {
          held := held + 1;
        }
      }
      assert sessions[..|sessions|] == sessions;
      var excess := Excess(x, held);
      var kept, seen := [], 0;
      for i := 0 to |sessions|
        invariant seen == |OfOrg(sessions[..i], org)|
        invariant kept == WithoutOldest(sessions[..i], org, excess)
      {
        assert sessions[..i + 1][..i] == sessions[..i];
        if sessions[i].org != org || seen >= excess {
          kept := kept + [sessions[i]];
        }
        if sessions[i].org == org {
          seen := seen + 1;
        }
      }
      sessions := kept;
    }
  }

  /** Pruning keeps exactly the sessions that have not been idle for longer than the time to live,
      in their order: those of a front part come before those of the rest. */
  lemma {:induction false} LiveExactlyWhen(x: Settings, sessions: seq<Session>, now: Time, rest: seq<Session>)
    ensures forall s :: s in Live(x, sessions, now) <==> s in sessions && now <= s.lastUsed + x.sessionTtl
    ensures Live(x, sessions + rest, now) == Live(x, sessions, now) + Live(x, rest, now)
    decreases |sessions| + |rest|
  {
    if rest != [] {
      var n := |rest| - 1;
      LiveExactlyWhen(x, sessions, now, rest[..n]);
      assert (sessions + rest)[..|sessions| + n] == sessions + rest[..n];
    } else {
      assert sessions + rest == sessions;
      if sessions != [] {
        var n := |sessions| - 1;
        LiveExactlyWhen(x, sessions[..n], now, []);
        assert sessions == sessions[..n] + [sessions[n]];
      }
    }
  }

  predicate DistinctTokens(sessions: seq<Session>) {
    forall i, j :: 0 <= i < j < |sessions| ==> sessions[i].token != sessions[j].token
  }

  /** Storing a session replaces the one under its token, and touches no other. */
  lemma {:induction false} PutReplaces(sessions: seq<Session>, s: Session)
    requires DistinctTokens(sessions)
    ensures DistinctTokens(Put(sessions, s))
    ensures forall other :: other in Put(sessions, s) <==> other == s || (other in sessions && other.token != s.token)
  {
    if sessions != [] && sessions[0].token != s.token {
      var rest := Put(sessions[1..], s);
      PutReplaces(sessions[1..], s);
      forall j | 0 <= j < |rest| ensures rest[j].token != sessions[0].token {
        assert rest[j] in rest;
      }
      assert forall other :: other in sessions <==> other == sessions[0] || other in sessions[1..];
    }
  }

  /** Of the organization's sessions the newest are kept, of the others all. */
  lemma {:induction false} NewestAreKept(sessions: seq<Session>, org: Org, other: Org, n: nat)
    ensures OfOrg(WithoutOldest(sessions, org, n), other) ==
            if other != org then OfOrg(sessions, other)
            else if n <= |OfOrg(sessions, org)| then OfOrg(sessions, org)[n..]
            else []
  {
    if sessions != [] {
      var before, last := sessions[..|sessions| - 1], sessions[|sessions| - 1];
      NewestAreKept(before, org, other, n);
      OfOrgAppend(WithoutOldest(before, org, n), last, other);
      DropAppend(OfOrg(before, org), last, n);
    }
  }

  lemma {:induction false} OfOrgAppend(sessions: seq<Session>, last: Session, org: Org)
    ensures OfOrg(sessions + [last], org) == OfOrg(sessions, org) + (if last.org == org then [last] else [])
  {
    assert (sessions + [last])[..|sessions|] == sessions;
  }

  lemma DropAppend<T>(s: seq<T>, last: T, n: nat)
    ensures n <= |s| ==> (s + [last])[n..] == s[n..] + [last]
    ensures n == |s| + 1 ==> (s + [last])[n..] == []
  {
  }

  lemma {:induction false} PutAddsAtMostOne(sessions: seq<Session>, s: Session, org: Org)
    ensures CountOf(Put(sessions, s), org) <= CountOf(sessions, org) + (if s.org == org then 1 else 0)
  {
    if sessions != [] && sessions[0].token != s.token {
      PutAddsAtMostOne(sessions[1..], s, org);
      assert Put(sessions, s)[1..] == Put(sessions[1..], s);
    }
  }

  function CountOf(sessions: seq<Session>, org: Org): nat {
    if sessions == [] then 0 else (if sessions[0].org == org then 1 else 0) + CountOf(sessions[1..], org)
  }

  lemma {:induction false} CountIsLength(sessions: seq<Session>, org: Org)
    ensures CountOf(sessions, org) == |OfOrg(sessions, org)|
  {
    if sessions != [] {
      var before, last := sessions[..|sessions| - 1], sessions[|sessions| - 1];
      CountIsLength(before, org);
      CountAppend(before, last, org);
      assert before + [last] == sessions;
    }
  }

  lemma {:induction false} CountAppend(sessions: seq<Session>, last: Session, org: Org)
    ensures CountOf(sessions + [last], org) == CountOf(sessions, org) + (if last.org == org then 1 else 0)
  {
    if sessions == [] {
      assert sessions + [last] == [last] && [last][1..] == [];
    } else {
      CountAppend(sessions[1..], last, org);
      assert (sessions + [last])[1..] == sessions[1..] + [last];
    }
  }

  /** After a login the organization holds at most the configured number of sessions, or one. */
  lemma SessionsAreBounded(x: Settings, sessions: seq<Session>, org: Org, now: Time, token: string)
    ensures |OfOrg(SessionsAfter(x, sessions, org, now, token), org)| <= if x.maxSessions > 1 then x.maxSessions else 1
  {
    var live := Live(x, sessions, now);
    var n := Excess(x, |OfOrg(live, org)|);
    var kept := WithoutOldest(live, org, n);
    NewestAreKept(live, org, org, n);
    CountIsLength(kept, org);
    PutAddsAtMostOne(kept, Session(token, org, now), org);
    CountIsLength(Put(kept, Session(token, org, now)), org);
  }

  lemma {:induction false} PutCounts(sessions: seq<Session>, s: Session, org: Org)
    requires forall other :: other in sessions ==> other.token != s.token
    ensures Put(sessions, s) == sessions + [s]
    ensures CountOf(Put(sessions, s), org) == CountOf(sessions, org) + (if s.org == org then 1 else 0)
  {
    if sessions != [] {
      PutCounts(sessions[1..], s, org);
    }
  }

  lemma {:induction false} KeptWereLive(sessions: seq<Session>, org: Org, n: nat)
    ensures forall s :: s in WithoutOldest(sessions, org, n) ==> s in sessions
  {
    if sessions != [] {
      KeptWereLive(sessions[..|sessions| - 1], org, n);
    }
  }

  /** With a token that is new, exactly as many of the organization's live sessions go as it takes
      to make room: it then holds one more than before, or the maximum. */
  lemma {:induction false} RoomIsMadeExactly(x: Settings, sessions: seq<Session>, org: Org, now: Time, token: string)
    requires forall s :: s in sessions ==> s.token != token
    ensures var held := |OfOrg(Live(x, sessions, now), org)|;
            |OfOrg(SessionsAfter(x, sessions, org, now, token), org)| ==
            if held + 1 <= x.maxSessions then held + 1 else if x.maxSessions > 1 then x.maxSessions else 1
  {
    var live := Live(x, sessions, now);
    var n := Excess(x, |OfOrg(live, org)|);
    var kept, s := WithoutOldest(live, org, n), Session(token, org, now);
    LiveExactlyWhen(x, sessions, now, []);
    KeptWereLive(live, org, n);
    NewestAreKept(live, org, org, n);
    CountIsLength(kept, org);
    PutCounts(kept, s, org);
    CountIsLength(Put(kept, s), org);
  }

  // ----- overlapping logins

  /** A thread reads the clock, checks the lock at time `at`, or records at `at` the answer it got. */
  datatype Section =
    | Read(thread: nat, org: Org, now: Time)
    | Check(thread: nat, at: Time)
    | Record(thread: nat, answer: Answer, at: Time)

  /** A login under way: when it began, and whether it was let in to ask the service. */
  datatype Attempt = Attempt(org: Org, start: Time, asking: bool)

  /** An answer that was recorded. */
  datatype Entry = Entry(org: Org, start: Time, answer: Answer)

  /** The failure table, the attempts under way, and the answers recorded so far, oldest first. */
  datatype Crowd = Crowd(table: Table, underway: map<nat, Attempt>, log: seq<Entry>)

  const NOBODY := Crowd(map[], map[], [])

  function TimeOf(s: Section): Time {
    if s.Read? then s.now else s.at
  }

  /** The thread has read the clock for the organization, and goes on to check the lock. */
  predicate Waits(c: Crowd, t: nat, org: Org) {
    t in c.underway && c.underway[t].org == org && !c.underway[t].asking
  }

  /** The thread asks the service about the organization. */
  predicate Asks(c: Crowd, t: nat, org: Org) {
    t in c.underway && c.underway[t].org == org && c.underway[t].asking
  }

  /** The section is the recording of an answer about the organization. */
  predicate Answers(c: Crowd, s: Section, org: Org) {
    s.Record? && Asks(c, s.thread, org) && s.answer != Raised
  }

  /** The section lets a thread in to ask about the organization. */
  predicate Enters(c: Crowd, s: Section, org: Org) {
    s.Check? && Waits(c, s.thread, org) && !IsLocked(c.table, org, c.underway[s.thread].start)
  }

  function Next(x: Settings, c: Crowd, s: Section): Crowd {
    match s
    case Read(t, org, now) =>
      if t in c.underway then c else c.(underway := c.underway[t := Attempt(org, now, false)])
    case Check(t, _) =>
      if t !in c.underway || c.underway[t].asking then c
      else
        var a := c.underway[t];
        c.(underway := if IsLocked(c.table, a.org, a.start) then c.underway - {t}
                       else c.underway[t := a.(asking := true)])
    case Record(t, answer, _) =>
      if t !in c.underway || !c.underway[t].asking then c
      else
        var a := c.underway[t];
        Crowd(TableAfter(x, c.table, a.org, a.start, answer), c.underway - {t},
              if answer == Raised then c.log else c.log + [Entry(a.org, a.start, answer)])
  }

  function Run(x: Settings, sections: seq<Section>): Crowd {
    if sections == [] then NOBODY else Next(x, Run(x, Front(sections)), Last(sections))
  }

  function Front<T>(s: seq<T>): seq<T>
    requires s != []
  {
    s[..|s| - 1]
  }

  function Last<T>(s: seq<T>): T
    requires s != []
  {
    s[|s| - 1]
  }

  /** The clock starts at or after zero and does not run backwards. */
  predicate Timely(sections: seq<Section>) {
    sections == []
    || (&& Timely(Front(sections)) && TimeOf(Last(sections)) >= 0
        && (Front(sections) != [] ==> TimeOf(Last(Front(sections))) <= TimeOf(Last(sections))))
  }

  function Now(sections: seq<Section>): Time {
    if sections == [] then 0 else TimeOf(Last(sections))
  }

  // ----- what the table holds, under every interleaving

  /** When the organization's failures since its last login began, in the order recorded. */
  function Since(log: seq<Entry>, org: Org): seq<Time> {
    if log == [] then []
    else
      var before := Since(Front(log), org);
      if Last(log).org != org then before
      else if Last(log).answer == Accepted then []
      else before + [Last(log).start]
  }

  /** Failures come in rounds of this length. */
  function RoundLength(x: Settings): (m: nat)
    ensures m >= 1
  {
    if x.maxAttempts > 1 then x.maxAttempts else 1
  }

  /** The failures of the current round after n of them. */
  function InRound(m: nat, n: nat): (c: nat)
    requires m >= 1
    ensures c < m
  {
    if n == 0 || InRound(m, n - 1) + 1 == m then 0 else InRound(m, n - 1) + 1
  }

  /** The n-th failure, counted from one, is the last of its round. */
  predicate EndsRound(m: nat, n: nat)
    requires m >= 1
  {
    n > 0 && InRound(m, n) == 0
  }

  /** What the table holds for an organization with these failures. */
  function Expected(x: Settings, f: seq<Time>): Failures {
    var m := RoundLength(x);
    Failures(InRound(m, |f|), if EndsRound(m, |f|) then f[|f| - 1] + x.lockout else 0)
  }

  lemma FailureIsExpected(x: Settings, f: seq<Time>, start: Time)
    ensures Expected(x, f + [start]) == AfterFailure(x, Expected(x, f), start)
  {
  }

  lemma SinceOneMore(log: seq<Entry>, e: Entry, org: Org)
    ensures Since(log + [e], org) ==
            if e.org != org then Since(log, org) else if e.answer == Accepted then [] else Since(log, org) + [e.start]
  {
    assert Front(log + [e]) == log;
  }

  /** The failures an organization has after a section. */
  function SinceAfter(c: Crowd, s: Section, org: Org): seq<Time> {
    if !Answers(c, s, org) then Since(c.log, org)
    else if s.answer == Accepted then []
    else Since(c.log, org) + [c.underway[s.thread].start]
  }

  lemma {:induction false} SinceFollows(x: Settings, c: Crowd, s: Section, org: Org)
    ensures Since(Next(x, c, s).log, org) == SinceAfter(c, s, org)
  {
    if s.Record? && s.thread in c.underway && c.underway[s.thread].asking && s.answer != Raised {
      SinceOneMore(c.log, Entry(c.underway[s.thread].org, c.underway[s.thread].start, s.answer), org);
    }
  }

  lemma {:induction false} TableIsExpected(x: Settings, sections: seq<Section>, org: Org)
    ensures FailuresOf(Run(x, sections).table, org) == Expected(x, Since(Run(x, sections).log, org))
  {
    if sections != [] {
      var c, s := Run(x, Front(sections)), Last(sections);
      TableIsExpected(x, Front(sections), org);
      SinceFollows(x, c, s, org);
      if Answers(c, s, org) && s.answer == Rejected {
        FailureIsExpected(x, Since(c.log, org), c.underway[s.thread].start);
      }
    }
  }

  /** Under every interleaving an attempt is refused unasked if and only if the answer recorded
      last for the organization is a failure that completes a round and began less than the
      lockout ago. */
  lemma LockedExactlyWhen(x: Settings, sections: seq<Section>, org: Org, now: Time)
    requires now >= 0
    ensures var f := Since(Run(x, sections).log, org);
            IsLocked(Run(x, sections).table, org, now) <==>
            EndsRound(RoundLength(x), |f|) && now < f[|f| - 1] + x.lockout
  {
    TableIsExpected(x, sections, org);
  }

  // ----- which section cuts a lock short

  /** The section lifts a lock that is in force, or makes it end earlier. */
  predicate Cuts(x: Settings, c: Crowd, s: Section, org: Org) {
    && IsLocked(c.table, org, TimeOf(s))
    && FailuresOf(Next(x, c, s).table, org).lockedUntil < FailuresOf(c.table, org).lockedUntil
  }

  /** The section that recorded the last answer for the organization: what set the lock, if
      there is one. */
  function LastAnswer(x: Settings, sections: seq<Section>, org: Org): (k: Option<nat>)
    ensures k.Some? ==> k.value < |sections|
  {
    if sections == [] then None
    else if Answers(Run(x, Front(sections)), Last(sections), org) then Some(|sections| - 1)
    else LastAnswer(x, Front(sections), org)
  }

  /** The thread was already asking when the last answer was recorded, and still is. */
  predicate Straggles(x: Settings, sections: seq<Section>, t: nat, org: Org) {
    && LastAnswer(x, sections, org).Some?
    && var c, locked := Run(x, sections), Run(x, sections[..LastAnswer(x, sections, org).value + 1]);
       Asks(c, t, org) && Asks(locked, t, org) && locked.underway[t] == c.underway[t]
  }

  lemma {:induction false} StartsAreReadings(x: Settings, sections: seq<Section>, t: nat)
    requires Timely(sections) && t in Run(x, sections).underway
    ensures Run(x, sections).underway[t].start <= Now(sections)
  {
    if t in Run(x, Front(sections)).underway {
      StartsAreReadings(x, Front(sections), t);
    }
  }

  lemma {:induction false} StragglesOn(x: Settings, sections: seq<Section>, t: nat, org: Org)
    requires sections != [] && !Answers(Run(x, Front(sections)), Last(sections), org)
    requires Straggles(x, Front(sections), t, org) && Asks(Run(x, sections), t, org)
    requires Run(x, sections).underway[t] == Run(x, Front(sections)).underway[t]
    ensures Straggles(x, sections, t, org)
  {
    var k := LastAnswer(x, Front(sections), org).value;
    assert sections[..k + 1] == Front(sections)[..k + 1];
  }

  lemma {:induction false} AskingUnderALockStraggles(x: Settings, sections: seq<Section>, t: nat, org: Org, at: Time)
    requires Timely(sections) && Now(sections) <= at && at >= 0
    requires Asks(Run(x, sections), t, org) && IsLocked(Run(x, sections).table, org, at)
    ensures Straggles(x, sections, t, org)
  {
    var before, s := Run(x, Front(sections)), Last(sections);
    StartsAreReadings(x, sections, t);
    if Answers(before, s, org) {
      assert sections[..|sections|] == sections;
    } else {
      assert FailuresOf(Run(x, sections).table, org) == FailuresOf(before.table, org);
      AskingUnderALockStraggles(x, Front(sections), t, org, at);
      StragglesOn(x, sections, t, org);
    }
  }

  /** A section cuts a lock in force if and only if it records the answer of a thread that was
      already asking when the lock was set, and that answer is a login, or a refusal that does
      not itself lock for at least as long: with more than one attempt allowed, any refusal. */
  lemma CutsExactlyWhen(x: Settings, sections: seq<Section>, s: Section, org: Org)
    requires Timely(sections + [s])
    ensures var c := Run(x, sections);
            Cuts(x, c, s, org) <==>
            && IsLocked(c.table, org, TimeOf(s)) && Answers(c, s, org) && Straggles(x, sections, s.thread, org)
            && (|| s.answer == Accepted || x.maxAttempts > 1
                || c.underway[s.thread].start + x.lockout < FailuresOf(c.table, org).lockedUntil)
  {
    var c := Run(x, sections);
    assert Front(sections + [s]) == sections;
    TableIsExpected(x, sections, org);
    if IsLocked(c.table, org, TimeOf(s)) && Answers(c, s, org) {
      AskingUnderALockStraggles(x, sections, s.thread, org, TimeOf(s));
    }
  }

  // ----- the window bound

  function CountIn(f: seq<Time>, start: Time, end: Time): (n: nat)
    ensures n <= |f|
  {
    if f == [] then 0 else CountIn(Front(f), start, end) + (if start <= Last(f) < end then 1 else 0)
  }

  /** Within some window as long as the lockout, the organization has had more failures, with no
      login among them, than it is allowed. */
  ghost predicate TooMany(x: Settings, log: seq<Entry>, org: Org) {
    exists start :: Overfull(x, Since(log, org), start)
  }

  predicate Overfull(x: Settings, f: seq<Time>, start: Time) {
    CountIn(f, start, start + x.lockout) > RoundLength(x)
  }

  /** Of the attempts under way for the organization that of t is the only one. */
  predicate Alone(c: Crowd, t: nat, org: Org) {
    forall u :: u in c.underway && c.underway[u].org == org ==> u == t
  }

  /** The lock of a round completed by an attempt from `start` on, recorded at `at`, lasts for
      the lockout after every failure of the round that began later than that attempt, or the
      lockout after it is over. */
  predicate Covered(x: Settings, f: seq<Time>, start: Time, at: Time) {
    forall i :: |f| - InRound(RoundLength(x), |f|) <= i < |f| && i >= 0 ==> f[i] <= start || f[i] + x.lockout <= at
  }

  predicate Locks(x: Settings, c: Crowd, s: Section, org: Org) {
    Answers(c, s, org) && s.answer == Rejected && Fills(x, FailuresOf(c.table, org))
  }

  predicate LocksCleanly(x: Settings, c: Crowd, s: Section, org: Org) {
    Locks(x, c, s, org) ==>
      Alone(c, s.thread, org) && Covered(x, Since(c.log, org), c.underway[s.thread].start, s.at)
  }

  /** Failure e, counted from zero, is the last of its round. */
  predicate Closes(x: Settings, e: nat) {
    EndsRound(RoundLength(x), e + 1)
  }

  /** Every lock set so far is over by y. */
  predicate AfterLocks(x: Settings, f: seq<Time>, y: Time) {
    forall e :: 0 <= e < |f| && Closes(x, e) ==> f[e] + x.lockout <= y
  }

  /** Who is let in began after the locks set so far, and not under one that a later failure has
      taken out of the table. */
  predicate EntersFresh(x: Settings, c: Crowd, s: Section, org: Org) {
    Enters(c, s, org) ==> AfterLocks(x, Since(c.log, org), c.underway[s.thread].start)
  }

  /** Whenever the organization gets locked, nothing else is under way and the round is covered. */
  predicate CleanLocks(x: Settings, sections: seq<Section>, org: Org) {
    sections == []
    || (CleanLocks(x, Front(sections), org) && LocksCleanly(x, Run(x, Front(sections)), Last(sections), org))
  }

  /** Whoever is let in began after the locks set before. */
  predicate FreshEntries(x: Settings, sections: seq<Section>, org: Org) {
    sections == []
    || (FreshEntries(x, Front(sections), org) && EntersFresh(x, Run(x, Front(sections)), Last(sections), org))
  }

  predicate Orderly(x: Settings, sections: seq<Section>, org: Org) {
    CleanLocks(x, sections, org) && FreshEntries(x, sections, org)
  }

  /** Every failure up to the end of the last complete round is the lockout before y. */
  ghost predicate Clear(x: Settings, f: seq<Time>, y: Time) {
    forall i, e :: 0 <= i <= e < |f| && Closes(x, e) ==> f[i] + x.lockout <= y
  }

  /** Or before the end of that round's lock. */
  ghost predicate Settled(x: Settings, f: seq<Time>, y: Time) {
    forall i, e :: 0 <= i <= e < |f| && Closes(x, e) ==> f[i] + x.lockout <= Later(y, f[e] + x.lockout)
  }

  ghost predicate Separated(x: Settings, f: seq<Time>) {
    f == [] || (Separated(x, Front(f)) && Clear(x, Front(f), Last(f)))
  }

  function Later(a: Time, b: Time): Time {
    if a > b then a else b
  }

  /** Thread t's attempt for the organization began clear of the complete rounds, or may still
      be refused. */
  ghost predicate BeganClear(x: Settings, c: Crowd, f: seq<Time>, t: nat, org: Org, now: Time) {
    t in c.underway && c.underway[t].org == org ==>
      var a := c.underway[t];
      a.start <= now && Settled(x, f, a.start) && (a.asking ==> Clear(x, f, a.start))
  }

  ghost predicate Inv(x: Settings, c: Crowd, org: Org, now: Time) {
    var f := Since(c.log, org);
    && Separated(x, f)
    && Settled(x, f, now)
    && (forall i :: 0 <= i < |f| ==> f[i] <= now)
    && (forall t :: BeganClear(x, c, f, t, org, now))
  }

  lemma {:induction false} RoundBegins(m: nat, n: nat)
    requires m >= 1
    ensures InRound(m, n) <= n && (InRound(m, n) < n ==> EndsRound(m, n - InRound(m, n)))
  {
    if n > 0 && InRound(m, n) > 0 {
      RoundBegins(m, n - 1);
    }
  }

  /** A refusal that does not lock leaves the complete rounds as they are. */
  lemma OpenRound(x: Settings, f: seq<Time>, start: Time, y: Time)
    requires !Closes(x, |f|)
    ensures Clear(x, f, y) ==> Clear(x, f + [start], y)
    ensures Settled(x, f, y) ==> Settled(x, f + [start], y)
  {
    var g := f + [start];
    forall i, e | 0 <= i <= e < |g| && Closes(x, e) ensures e < |f| && g[i] == f[i] && g[e] == f[e] {
    }
  }

  /** After a clean lock the round is settled. */
  lemma ClosedRound(x: Settings, f: seq<Time>, start: Time, at: Time)
    requires Clear(x, f, start) && Covered(x, f, start, at) && start <= at
    ensures Settled(x, f + [start], at)
  {
    var g, m := f + [start], RoundLength(x);
    RoundBegins(m, |f|);
    var first := |f| - InRound(m, |f|);
    forall i, e | 0 <= i <= e < |g| && Closes(x, e) ensures g[i] + x.lockout <= Later(at, g[e] + x.lockout) {
      if e < |f| {
        assert f[i] + x.lockout <= start;
      } else if i < first {
        assert Closes(x, first - 1);
        assert f[i] + x.lockout <= start;
      } else {
        assert i < |f| ==> f[i] <= start || f[i] + x.lockout <= at;
      }
    }
  }

  lemma SettledLater(x: Settings, f: seq<Time>, y: Time, z: Time)
    requires Settled(x, f, y) && y <= z
    ensures Settled(x, f, z)
  {
  }

  /** What began after the locks began clear of their rounds. */
  lemma FreshIsClear(x: Settings, f: seq<Time>, y: Time)
    requires Settled(x, f, y) && AfterLocks(x, f, y)
    ensures Clear(x, f, y)
  {
  }

  /** Whoever begins after all recorded failures and is let in began after the locks. */
  lemma LastIsFresh(x: Settings, f: seq<Time>, y: Time)
    requires Separated(x, f) && Expected(x, f).lockedUntil <= y && forall i :: 0 <= i < |f| ==> f[i] <= y
    ensures AfterLocks(x, f, y)
  {
    forall e | 0 <= e < |f| && Closes(x, e) ensures f[e] + x.lockout <= y {
      if e < |f| - 1 {
        assert Front(f)[e] + x.lockout <= Last(f);
      }
    }
  }

  /** The failures after one more. */
  lemma {:induction false} OneMoreFailure(x: Settings, f: seq<Time>, start: Time, now: Time, at: Time)
    requires Separated(x, f) && Clear(x, f, start) && Settled(x, f, now) && start <= now <= at
    requires Closes(x, |f|) ==> Covered(x, f, start, at)
    ensures Separated(x, f + [start]) && Settled(x, f + [start], at)
  {
    assert Front(f + [start]) == f;
    if Closes(x, |f|) {
      ClosedRound(x, f, start, at);
    } else {
      SettledLater(x, f, now, at);
      OpenRound(x, f, start, at);
    }
  }

  lemma LockingCloses(x: Settings, f: seq<Time>)
    ensures Fills(x, Expected(x, f)) <==> Closes(x, |f|)
  {
  }

  lemma {:induction false} OthersStayClear(x: Settings, c: Crowd, s: Section, org: Org, now: Time, t: nat)
    requires BeganClear(x, c, Since(c.log, org), t, org, now) && now <= TimeOf(s) && LocksCleanly(x, c, s, org)
    requires Answers(c, s, org) && s.answer == Rejected
    requires Closes(x, |Since(c.log, org)|) ==> Locks(x, c, s, org)
    ensures BeganClear(x, Next(x, c, s), Since(c.log, org) + [c.underway[s.thread].start], t, org, TimeOf(s))
  {
    var f, start, d := Since(c.log, org), c.underway[s.thread].start, Next(x, c, s);
    if t in d.underway && d.underway[t].org == org {
      assert t != s.thread && d.underway[t] == c.underway[t];
      OpenRound(x, f, start, c.underway[t].start);
    }
  }

  lemma {:induction false} FailureKeepsInv(x: Settings, c: Crowd, s: Section, org: Org, now: Time)
    requires Inv(x, c, org, now) && now <= TimeOf(s) && LocksCleanly(x, c, s, org)
    requires Answers(c, s, org) && s.answer == Rejected
    requires Closes(x, |Since(c.log, org)|) ==> Locks(x, c, s, org)
    ensures Inv(x, Next(x, c, s), org, TimeOf(s))
  {
    var f, start := Since(c.log, org), c.underway[s.thread].start;
    var d := Next(x, c, s);
    assert BeganClear(x, c, f, s.thread, org, now);
    OneMoreFailure(x, f, start, now, s.at);
    forall t ensures BeganClear(x, d, f + [start], t, org, s.at) {
      assert BeganClear(x, c, f, t, org, now);
      OthersStayClear(x, c, s, org, now, t);
    }
    assert Since(d.log, org) == f + [start] by {
      SinceFollows(x, c, s, org);
    }
  }

  lemma {:induction false} BeganClearStill(x: Settings, c: Crowd, s: Section, org: Org, now: Time, t: nat)
    requires BeganClear(x, c, Since(c.log, org), t, org, now) && Settled(x, Since(c.log, org), TimeOf(s))
    requires now <= TimeOf(s) && EntersFresh(x, c, s, org)
    ensures BeganClear(x, Next(x, c, s), Since(c.log, org), t, org, TimeOf(s))
  {
    if Enters(c, s, org) && t == s.thread {
      FreshIsClear(x, Since(c.log, org), c.underway[t].start);
    }
  }

  lemma {:induction false} OtherSectionKeepsInv(x: Settings, c: Crowd, s: Section, org: Org, now: Time)
    requires Inv(x, c, org, now) && now <= TimeOf(s) && EntersFresh(x, c, s, org) && !Answers(c, s, org)
    ensures Inv(x, Next(x, c, s), org, TimeOf(s))
  {
    var f := Since(c.log, org);
    SettledLater(x, f, now, TimeOf(s));
    forall t ensures BeganClear(x, Next(x, c, s), f, t, org, TimeOf(s)) {
      assert BeganClear(x, c, f, t, org, now);
      BeganClearStill(x, c, s, org, now, t);
    }
    assert Since(Next(x, c, s).log, org) == f by {
      SinceFollows(x, c, s, org);
    }
  }

  lemma {:induction false} OrderlyKeepsInv(x: Settings, sections: seq<Section>, org: Org)
    requires Timely(sections) && Orderly(x, sections, org)
    ensures Inv(x, Run(x, sections), org, Now(sections))
  {
    if sections != [] {
      var c, s := Run(x, Front(sections)), Last(sections);
      OrderlyKeepsInv(x, Front(sections), org);
      TableIsExpected(x, Front(sections), org);
      if !Answers(c, s, org) {
        OtherSectionKeepsInv(x, c, s, org, Now(Front(sections)));
      } else if s.answer == Rejected {
        LockingCloses(x, Since(c.log, org));
        FailureKeepsInv(x, c, s, org, Now(Front(sections)));
      } else {
        LoginKeepsInv(x, c, s, org, Now(Front(sections)));
      }
    }
  }

  lemma {:induction false} LoginKeepsInv(x: Settings, c: Crowd, s: Section, org: Org, now: Time)
    requires Inv(x, c, org, now) && now <= TimeOf(s) && Answers(c, s, org) && s.answer == Accepted
    ensures Inv(x, Next(x, c, s), org, TimeOf(s))
  {
    SinceFollows(x, c, s, org);
    forall t ensures BeganClear(x, Next(x, c, s), [], t, org, TimeOf(s)) {
      assert BeganClear(x, c, Since(c.log, org), t, org, now);
    }
  }

  /** Between a failure and the end of its round there are fewer failures than a round has. */
  lemma RoundEnds(m: nat, i: nat) returns (e: nat)
    requires m >= 1
    ensures i <= e < i + m - InRound(m, i) && EndsRound(m, e + 1)
    decreases m - InRound(m, i)
  {
    if EndsRound(m, i + 1) {
      e := i;
    } else {
      e := RoundEnds(m, i + 1);
    }
  }

  lemma {:induction false} NoneBefore(f: seq<Time>, start: Time, end: Time, k: nat)
    requires k <= |f| && forall i :: 0 <= i < k ==> f[i] < start
    ensures CountIn(f, start, end) <= |f| - k
  {
    if f != [] {
      NoneBefore(Front(f), start, end, if k < |f| then k else k - 1);
    }
  }

  lemma {:induction false} SeparatedTimesAreFew(x: Settings, f: seq<Time>, start: Time)
    requires Separated(x, f)
    ensures CountIn(f, start, start + x.lockout) <= RoundLength(x)
  {
    var m := RoundLength(x);
    if f != [] {
      var front, last := Front(f), Last(f);
      if start <= last < start + x.lockout {
        var k := if |f| > m then |f| - m else 0;
        forall i | 0 <= i < k ensures f[i] < start {
          var e := RoundEnds(m, i);
          assert Closes(x, e) && front[i] + x.lockout <= last;
        }
        NoneBefore(f, start, start + x.lockout, k);
      } else {
        SeparatedTimesAreFew(x, front, start);
      }
    }
  }

  /** The window bound, for every interleaving in which an organization only gets locked while
      nothing else is under way for it, by an attempt that covers its round, and whoever is let in
      began after the locks set before. */
  lemma WindowIsBounded(x: Settings, sections: seq<Section>, org: Org)
    requires Timely(sections) && Orderly(x, sections, org)
    ensures !TooMany(x, Run(x, sections).log, org)
  {
    OrderlyKeepsInv(x, sections, org);
    var f := Since(Run(x, sections).log, org);
    forall start ensures !Overfull(x, f, start) {
      SeparatedTimesAreFew(x, f, start);
    }
  }

  // ----- one login after another

  /** A login attempt made on its own, and what the service answers if it is asked. */
  datatype Try = Try(org: Org, now: Time, answer: Answer)

  /** The sections, and then thread t's logins, one after another. */
  function Then(sections: seq<Section>, t: nat, tries: seq<Try>): seq<Section> {
    if tries == [] then sections
    else
      var last := Last(tries);
      Then(sections, t, Front(tries)) + [Read(t, last.org, last.now)] + [Check(t, last.now)]
      + [Record(t, last.answer, last.now)]
  }

  lemma OneSectionMore(x: Settings, sections: seq<Section>, s: Section)
    ensures Run(x, sections + [s]) == Next(x, Run(x, sections), s)
    ensures Timely(sections + [s]) <==>
            Timely(sections) && TimeOf(s) >= 0 && (sections != [] ==> Now(sections) <= TimeOf(s))
    ensures Now(sections + [s]) == TimeOf(s)
  {
    assert Front(sections + [s]) == sections;
  }

  lemma OrderOneMore(x: Settings, sections: seq<Section>, s: Section, org: Org)
    ensures CleanLocks(x, sections + [s], org) <==>
            CleanLocks(x, sections, org) && LocksCleanly(x, Run(x, sections), s, org)
    ensures FreshEntries(x, sections + [s], org) <==>
            FreshEntries(x, sections, org) && EntersFresh(x, Run(x, sections), s, org)
  {
    assert Front(sections + [s]) == sections;
  }

  /** Thread t reads the clock and at once checks the lock. */
  lemma {:induction false} TwoSectionsMore(x: Settings, sections: seq<Section>, t: nat, org: Org, now: Time)
    requires t !in Run(x, sections).underway
    ensures var more := sections + [Read(t, org, now)] + [Check(t, now)];
            && Run(x, more) == Entered(Run(x, sections), t, org, now) && Now(more) == now
            && (Timely(more) <==> Timely(sections) && now >= 0 && (sections != [] ==> Now(sections) <= now))
  {
    OneSectionMore(x, sections, Read(t, org, now));
    OneSectionMore(x, sections + [Read(t, org, now)], Check(t, now));
    ReadThenCheck(x, Run(x, sections), t, org, now);
  }

  /** That keeps an order if the thread is refused, or begins after the locks. */
  lemma {:induction false} OrderTwoMore(x: Settings, sections: seq<Section>, t: nat, org: Org, now: Time, o: Org)
    requires t !in Run(x, sections).underway
    requires o == org && !IsLocked(Run(x, sections).table, org, now) ==>
               AfterLocks(x, Since(Run(x, sections).log, org), now)
    ensures var more := sections + [Read(t, org, now)] + [Check(t, now)];
            && (CleanLocks(x, sections, o) ==> CleanLocks(x, more, o))
            && (FreshEntries(x, sections, o) ==> FreshEntries(x, more, o))
  {
    OneSectionMore(x, sections, Read(t, org, now));
    OrderOneMore(x, sections, Read(t, org, now), o);
    OrderOneMore(x, sections + [Read(t, org, now)], Check(t, now), o);
  }

  lemma ReadThenCheck(x: Settings, c: Crowd, t: nat, org: Org, now: Time)
    requires t !in c.underway
    ensures Next(x, Next(x, c, Read(t, org, now)), Check(t, now)) == Entered(c, t, org, now)
  {
    var d := Next(x, c, Read(t, org, now));
    assert d.underway - {t} == c.underway;
    assert d.underway[t := Attempt(org, now, true)] == c.underway[t := Attempt(org, now, true)];
  }

  /** The crowd after thread t has read the clock and at once checked the lock. */
  function Entered(c: Crowd, t: nat, org: Org, now: Time): Crowd {
    if IsLocked(c.table, org, now) then c else c.(underway := c.underway[t := Attempt(org, now, true)])
  }

  /** Reading, check and record without an overlap are one login, as `Login` performs it. */
  lemma OneTryIsALogin(x: Settings, c: Crowd, t: nat, try: Try)
    requires t !in c.underway
    ensures var d := Login(x, c, t, try);
            && d.underway == c.underway
            && d.table == (if IsLocked(c.table, try.org, try.now) then c.table
                           else TableAfter(x, c.table, try.org, try.now, try.answer))
            && d.log == (if IsLocked(c.table, try.org, try.now) || try.answer == Raised then c.log
                         else c.log + [Entry(try.org, try.now, try.answer)])
  {
    var read := Next(x, c, Read(t, try.org, try.now));
    var checked := Next(x, read, Check(t, try.now));
    assert read.underway - {t} == c.underway;
    if !IsLocked(c.table, try.org, try.now) {
      assert checked.underway - {t} == c.underway;
    }
  }

  /** The three sections of a try. */
  function Login(x: Settings, c: Crowd, t: nat, try: Try): Crowd {
    Next(x, Next(x, Next(x, c, Read(t, try.org, try.now)), Check(t, try.now)), Record(t, try.answer, try.now))
  }

  /** Nothing is under way for the organization, and nothing of thread t. */
  predicate Idle(c: Crowd, t: nat, org: Org) {
    t !in c.underway && forall u :: u in c.underway ==> c.underway[u].org != org
  }

  /** A try made when nothing is under way keeps a run orderly. */
  lemma {:induction false} TryStaysOrderly(x: Settings, sections: seq<Section>, t: nat, try: Try, org: Org)
    requires Timely(sections) && Orderly(x, sections, org) && Idle(Run(x, sections), t, org)
    requires 0 <= try.now && Now(sections) <= try.now
    ensures var more := sections + [Read(t, try.org, try.now)] + [Check(t, try.now)] + [Record(t, try.answer, try.now)];
            Timely(more) && Orderly(x, more, org) && Run(x, more) == Login(x, Run(x, sections), t, try)
  {
    var c, f := Run(x, sections), Since(Run(x, sections).log, org);
    var read, check, record := Read(t, try.org, try.now), Check(t, try.now), Record(t, try.answer, try.now);
    OneSectionMore(x, sections, read);
    OneSectionMore(x, sections + [read], check);
    OneSectionMore(x, sections + [read] + [check], record);
    if try.org == org && !IsLocked(c.table, org, try.now) {
      OrderlyKeepsInv(x, sections, org);
      TableIsExpected(x, sections, org);
      LastIsFresh(x, f, try.now);
    }
    OrderTwoMore(x, sections, t, try.org, try.now, org);
    OrderOneMore(x, sections + [read] + [check], record, org);
    SoleRecordIsClean(x, sections, t, try, org);
  }

  /** Recorded with nothing else under way, a failure that began last covers its round. */
  lemma {:induction false} SoleRecordIsClean(x: Settings, sections: seq<Section>, t: nat, try: Try, org: Org)
    requires Timely(sections) && Orderly(x, sections, org) && Idle(Run(x, sections), t, org)
    requires 0 <= try.now && Now(sections) <= try.now
    ensures LocksCleanly(x, Run(x, sections + [Read(t, try.org, try.now)] + [Check(t, try.now)]),
                         Record(t, try.answer, try.now), org)
  {
    TwoSectionsMore(x, sections, t, try.org, try.now);
    OrderlyKeepsInv(x, sections, org);
  }

  lemma {:induction false} TriesStayOrderly(x: Settings, sections: seq<Section>, t: nat, tries: seq<Try>, org: Org)
    requires Timely(Then(sections, t, tries)) && Orderly(x, sections, org) && Idle(Run(x, sections), t, org)
    ensures Orderly(x, Then(sections, t, tries), org) && Idle(Run(x, Then(sections, t, tries)), t, org)
  {
    if tries != [] {
      var before, last := Then(sections, t, Front(tries)), Last(tries);
      ThenIsTimely(x, sections, t, tries);
      TriesStayOrderly(x, sections, t, Front(tries), org);
      TryStaysOrderly(x, before, t, last, org);
      OneTryIsALogin(x, Run(x, before), t, last);
    }
  }

  lemma ThenIsTimely(x: Settings, sections: seq<Section>, t: nat, tries: seq<Try>)
    requires tries != [] && Timely(Then(sections, t, tries))
    ensures var before := Then(sections, t, Front(tries));
            Timely(before) && 0 <= Last(tries).now && Now(before) <= Last(tries).now
  {
    var before, last := Then(sections, t, Front(tries)), Last(tries);
    var read, check := Read(t, last.org, last.now), Check(t, last.now);
    OneSectionMore(x, before, read);
    OneSectionMore(x, before + [read], check);
    OneSectionMore(x, before + [read] + [check], Record(t, last.answer, last.now));
  }

  /** Logins that do not overlap are bounded, whatever organizations they are for. */
  lemma SequentialLoginsAreBounded(x: Settings, t: nat, tries: seq<Try>, org: Org)
    requires Timely(Then([], t, tries))
    ensures !TooMany(x, Run(x, Then([], t, tries)).log, org)
  {
    TriesStayOrderly(x, [], t, tries, org);
    WindowIsBounded(x, Then([], t, tries), org);
  }

  // ----- the covering is needed

  function Copies(now: Time, n: nat): seq<Time> {
    if n == 0 then [] else Copies(now, n - 1) + [now]
  }

  lemma {:induction false} RoundGoesOn(m: nat, n: nat, j: nat)
    requires m >= 1 && InRound(m, n) == 0 && j <= m
    ensures InRound(m, n + j) == if j < m then j else 0
  {
    if j > 0 {
      RoundGoesOn(m, n, j - 1);
    }
  }

  lemma RoundIsOpen(x: Settings, f: seq<Time>, z: Time, j: nat)
    requires InRound(RoundLength(x), |f|) == 0 && Expected(x, f).lockedUntil <= z && 0 <= z && j < RoundLength(x)
    ensures Expected(x, f + Copies(z, j)).lockedUntil <= z
  {
    RoundGoesOn(RoundLength(x), |f|, j);
    CopiesAreMany(z, j);
    if j == 0 {
      assert f + Copies(z, 0) == f;
    }
  }

  /** The crowd after thread t's logins, one after another. */
  function Perform(x: Settings, c: Crowd, t: nat, tries: seq<Try>): Crowd {
    if tries == [] then c else Login(x, Perform(x, c, t, Front(tries)), t, Last(tries))
  }

  lemma {:induction false} ThenPerforms(x: Settings, sections: seq<Section>, t: nat, tries: seq<Try>, z: Time)
    requires Timely(sections) && Now(sections) <= z && 0 <= z && forall i :: 0 <= i < |tries| ==> tries[i].now == z
    ensures Run(x, Then(sections, t, tries)) == Perform(x, Run(x, sections), t, tries)
    ensures Timely(Then(sections, t, tries)) && Now(Then(sections, t, tries)) <= z
  {
    if tries != [] {
      var before, last := Then(sections, t, Front(tries)), Last(tries);
      var read, check := Read(t, last.org, last.now), Check(t, last.now);
      ThenPerforms(x, sections, t, Front(tries), z);
      OneSectionMore(x, before, read);
      OneSectionMore(x, before + [read], check);
      OneSectionMore(x, before + [read] + [check], Record(t, last.answer, last.now));
    }
  }

  /** A login refused by the service, on its own. */
  lemma {:induction false} OneFailedTry(x: Settings, c: Crowd, t: nat, org: Org, z: Time)
    requires t !in c.underway && FailuresOf(c.table, org) == Expected(x, Since(c.log, org)) && !IsLocked(c.table, org, z)
    ensures var d := Login(x, c, t, Try(org, z, Rejected));
            && d.underway == c.underway && Since(d.log, org) == Since(c.log, org) + [z]
            && FailuresOf(d.table, org) == Expected(x, Since(d.log, org))
  {
    OneTryIsALogin(x, c, t, Try(org, z, Rejected));
    SinceOneMore(c.log, Entry(org, z, Rejected), org);
    FailureIsExpected(x, Since(c.log, org), z);
  }

  /** From the start of a round, once its lock is over, a whole round of failures fits into one
      instant. */
  lemma {:induction false} RoundAtOnce(x: Settings, c: Crowd, t: nat, org: Org, z: Time, j: nat) returns (tries: seq<Try>)
    requires t !in c.underway && FailuresOf(c.table, org) == Expected(x, Since(c.log, org))
    requires InRound(RoundLength(x), |Since(c.log, org)|) == 0 && !IsLocked(c.table, org, z)
    requires 0 <= z && j <= RoundLength(x)
    ensures forall i :: 0 <= i < |tries| ==> tries[i].now == z
    ensures var d := Perform(x, c, t, tries);
            && d.underway == c.underway && Since(d.log, org) == Since(c.log, org) + Copies(z, j)
            && FailuresOf(d.table, org) == Expected(x, Since(d.log, org))
  {
    var f := Since(c.log, org);
    if j == 0 {
      tries := [];
      assert f + Copies(z, 0) == f;
    } else {
      var fewer := RoundAtOnce(x, c, t, org, z, j - 1);
      tries := fewer + [Try(org, z, Rejected)];
      assert Front(tries) == fewer;
      OneMoreInRound(x, Perform(x, c, t, fewer), f, t, org, z, j - 1);
    }
  }

  lemma {:induction false} OneMoreInRound(x: Settings, c: Crowd, f: seq<Time>, t: nat, org: Org, z: Time, j: nat)
    requires t !in c.underway && FailuresOf(c.table, org) == Expected(x, Since(c.log, org))
    requires InRound(RoundLength(x), |f|) == 0 && Expected(x, f).lockedUntil <= z && 0 <= z && j < RoundLength(x)
    requires Since(c.log, org) == f + Copies(z, j)
    ensures var d := Login(x, c, t, Try(org, z, Rejected));
            && d.underway == c.underway && Since(d.log, org) == f + Copies(z, j + 1)
            && FailuresOf(d.table, org) == Expected(x, Since(d.log, org))
  {
    RoundIsOpen(x, f, z, j);
    OneFailedTry(x, c, t, org, z);
    OneCopyMore(f, z, j);
  }

  lemma OneCopyMore(f: seq<Time>, z: Time, n: nat)
    ensures f + Copies(z, n + 1) == f + Copies(z, n) + [z]
  {
  }

  lemma {:induction false} CopiesAreMany(z: Time, n: nat)
    ensures |Copies(z, n)| == n && forall i :: 0 <= i < n ==> Copies(z, n)[i] == z
  {
    if n > 0 {
      CopiesAreMany(z, n - 1);
    }
  }

  lemma {:induction false} CopiesAllCount(f: seq<Time>, z: Time, n: nat, start: Time, end: Time)
    requires start <= z < end
    ensures CountIn(f + Copies(z, n), start, end) == CountIn(f, start, end) + n
  {
    if n == 0 {
      assert f + Copies(z, 0) == f;
    } else {
      OneCopyMore(f, z, n - 1);
      assert Front(f + Copies(z, n)) == f + Copies(z, n - 1);
      CopiesAllCount(f, z, n - 1, start, end);
    }
  }

  lemma {:induction false} MemberCounts(f: seq<Time>, i: nat, start: Time, end: Time)
    requires i < |f| && start <= f[i] < end
    ensures CountIn(f, start, end) >= 1
  {
    if i < |f| - 1 {
      MemberCounts(Front(f), i, start, end);
    }
  }

  lemma RoundOverfills(x: Settings, f: seq<Time>, i: nat, z: Time)
    requires i < |f| && f[i] <= z < f[i] + x.lockout
    ensures Overfull(x, f + Copies(z, RoundLength(x)), f[i])
  {
    MemberCounts(f, i, f[i], f[i] + x.lockout);
    CopiesAllCount(f, z, RoundLength(x), f[i], f[i] + x.lockout);
  }

  /** Thread t's further logins, made one after another, can overfill a window. */
  predicate Overfills(x: Settings, sections: seq<Section>, t: nat, tries: seq<Try>, org: Org, start: Time) {
    Timely(Then(sections, t, tries)) && Overfull(x, Since(Run(x, Then(sections, t, tries)).log, org), start)
  }

  /** After an orderly run, when the organization gets locked with nothing else under way for it,
      later logins can overfill a window, even one after another, if and only if the round is
      not covered: some failure of it began after the one that locks, and less than the lockout
      ago. */
  lemma {:induction false} UncoveredRoundIsTheOnlyDanger(x: Settings, sections: seq<Section>, s: Section, org: Org)
    requires Timely(sections + [s]) && Orderly(x, sections, org)
    requires var c := Run(x, sections); Locks(x, c, s, org) && Alone(c, s.thread, org)
    ensures var c := Run(x, sections);
            (exists tries, start :: Overfills(x, sections + [s], s.thread, tries, org, start)) <==>
            !Covered(x, Since(c.log, org), c.underway[s.thread].start, s.at)
  {
    var c, t := Run(x, sections), s.thread;
    var locked := sections + [s];
    OneSectionMore(x, sections, s);
    OrderOneMore(x, sections, s, org);
    if Covered(x, Since(c.log, org), c.underway[t].start, s.at) {
      forall tries, start ensures !Overfills(x, locked, t, tries, org, start) {
        if Timely(Then(locked, t, tries)) {
          TriesStayOrderly(x, locked, t, tries, org);
          WindowIsBounded(x, Then(locked, t, tries), org);
        }
      }
    } else {
      var tries, start := UncoveredRoundOverfills(x, sections, s, org);
      assert Overfills(x, locked, t, tries, org, start);
    }
  }

  lemma {:induction false} UncoveredRoundOverfills(x: Settings, sections: seq<Section>, s: Section, org: Org)
    returns (tries: seq<Try>, start: Time)
    requires Timely(sections + [s]) && Orderly(x, sections, org)
    requires Locks(x, Run(x, sections), s, org)
    requires var c := Run(x, sections); !Covered(x, Since(c.log, org), c.underway[s.thread].start, s.at)
    ensures Overfills(x, sections + [s], s.thread, tries, org, start)
  {
    var c, t, m := Run(x, sections), s.thread, RoundLength(x);
    var f, y := Since(c.log, org), c.underway[t].start;
    var locked := sections + [s];
    OneSectionMore(x, sections, s);
    TableIsExpected(x, sections, org);
    OrderlyKeepsInv(x, sections, org);
    SinceFollows(x, c, s, org);
    LockingCloses(x, f);
    var i :| 0 <= i < |f| && f[i] > y && f[i] + x.lockout > s.at;
    start := f[i];
    var z := Later(s.at, y + x.lockout);
    TableIsExpected(x, locked, org);
    tries := RoundAtOnce(x, Run(x, locked), t, org, z, m);
    ThenPerforms(x, locked, t, tries, z);
    RoundOverfills(x, f + [y], i, z);
  }

  /** Such rounds exist: two attempts overlap, and the one that began first is refused last.
      Nothing else is under way when it locks, and yet three failures begin within one lockout
      where two are allowed. */
  lemma {:induction false} SlowRefusalUncoversItsRound(org: Org, x: Settings)
    requires x.maxAttempts == 2 && x.lockout == 10
    ensures exists tries, start :: Overfills(x, SlowRefusal(org), 0, tries, org, start)
  {
    var sections, s := Overtaken(org) + [Record(1, Rejected, 5)], Record(0, Rejected, 5);
    assert SlowRefusal(org) == sections + [s];
    OneRefusedOneAsking(x, org);
    OneSectionMore(x, sections, s);
    var f := Since(Run(x, sections).log, org);
    assert f[0] > 0 && f[0] + x.lockout > 5;
    UncoveredRoundIsTheOnlyDanger(x, sections, s, org);
  }

  function FirstIn(org: Org): seq<Section> {
    [] + [Read(0, org, 0)] + [Check(0, 0)]
  }

  /** Two attempts have begun, half a lockout apart, and ask. */
  function Overtaken(org: Org): seq<Section> {
    FirstIn(org) + [Read(1, org, 5)] + [Check(1, 5)]
  }

  function SlowRefusal(org: Org): seq<Section> {
    Overtaken(org) + [Record(1, Rejected, 5)] + [Record(0, Rejected, 5)]
  }

  /** Thread t begins, and is let in, before any failure is recorded. */
  lemma {:induction false} LetIn(x: Settings, sections: seq<Section>, t: nat, org: Org, now: Time, c: Crowd)
    requires Run(x, sections) == c && c.table == map[] && c.log == [] && t !in c.underway && 0 <= now
    requires Timely(sections) && Now(sections) <= now && Orderly(x, sections, org)
    ensures var more := sections + [Read(t, org, now)] + [Check(t, now)];
            && Timely(more) && Now(more) == now && Orderly(x, more, org)
            && Run(x, more) == c.(underway := c.underway[t := Attempt(org, now, true)])
  {
    TwoSectionsMore(x, sections, t, org, now);
    OrderTwoMore(x, sections, t, org, now, org);
  }

  lemma {:induction false} TwoAsking(x: Settings, org: Org)
    ensures var sections := Overtaken(org);
            && Timely(sections) && Now(sections) == 5 && Orderly(x, sections, org)
            && Run(x, sections) == Crowd(map[], map[0 := Attempt(org, 0, true), 1 := Attempt(org, 5, true)], [])
  {
    LetIn(x, [], 0, org, 0, NOBODY);
    LetIn(x, FirstIn(org), 1, org, 5, Crowd(map[], map[0 := Attempt(org, 0, true)], []));
  }

  lemma {:induction false} OneRefusedOneAsking(x: Settings, org: Org)
    requires x.maxAttempts == 2 && x.lockout == 10
    ensures var sections := Overtaken(org) + [Record(1, Rejected, 5)]; var c := Run(x, sections);
            && Timely(sections) && Now(sections) == 5 && Orderly(x, sections, org)
            && c.underway == map[0 := Attempt(org, 0, true)] && FailuresOf(c.table, org) == Failures(1, 0)
            && Since(c.log, org) == [5] && InRound(2, 1) == 1
  {
    var both := map[0 := Attempt(org, 0, true), 1 := Attempt(org, 5, true)];
    TwoAsking(x, org);
    OneSectionMore(x, Overtaken(org), Record(1, Rejected, 5));
    OrderOneMore(x, Overtaken(org), Record(1, Rejected, 5), org);
    assert both - {1} == map[0 := Attempt(org, 0, true)];
    FirstRefusal(org);
  }

  lemma FirstRefusal(org: Org)
    ensures Since([] + [Entry(org, 5, Rejected)], org) == [5]
  {
    SinceOneMore([], Entry(org, 5, Rejected), org);
    assert [] + [5] == [5];
  }

  // ----- the fresh entry is needed

  lemma {:induction false} CleanAfterOneMore(x: Settings, sections: seq<Section>, s: Section, org: Org)
    requires Timely(sections) && CleanLocks(x, sections, org) && !Locks(x, Run(x, sections), s, org)
    requires Now(sections) <= TimeOf(s) && 0 <= TimeOf(s)
    ensures Timely(sections + [s]) && CleanLocks(x, sections + [s], org) && Now(sections + [s]) == TimeOf(s)
    ensures Run(x, sections + [s]) == Next(x, Run(x, sections), s)
  {
    OneSectionMore(x, sections, s);
    OrderOneMore(x, sections, s, org);
  }

  /** After the lock of a round, one thread has read the clock at its beginning, and another begins
      when it is over and is refused, which takes the lock out of the table. */
  lemma {:induction false} LockIsTakenOut(x: Settings, before: seq<Section>, org: Org) returns (sections: seq<Section>)
    requires x.maxAttempts >= 3 && x.lockout > 0
    requires Timely(before) && Now(before) == 0 && CleanLocks(x, before, org)
    requires Run(x, before).underway == map[] && FailuresOf(Run(x, before).table, org) == Failures(0, x.lockout)
    ensures Timely(sections) && Now(sections) == x.lockout && CleanLocks(x, sections, org)
    ensures var c := Run(x, sections);
            && c.underway == map[1 := Attempt(org, 0, false)] && FailuresOf(c.table, org) == Failures(1, 0)
            && Since(c.log, org) == Since(Run(x, before).log, org) + [x.lockout]
  {
    var read, record := Read(1, org, 0), Record(0, Rejected, x.lockout);
    CleanAfterOneMore(x, before, read, org);
    var one := before + [read];
    TwoSectionsMore(x, one, 0, org, x.lockout);
    CleanAfterOneMore(x, one, Read(0, org, x.lockout), org);
    CleanAfterOneMore(x, one + [Read(0, org, x.lockout)], Check(0, x.lockout), org);
    var two := one + [Read(0, org, x.lockout)] + [Check(0, x.lockout)];
    assert Run(x, two).underway == map[1 := Attempt(org, 0, false), 0 := Attempt(org, x.lockout, true)];
    SinceFollows(x, Run(x, two), record, org);
    CleanAfterOneMore(x, two, record, org);
    sections := two + [record];
    assert Run(x, sections).underway == map[1 := Attempt(org, 0, false)];
  }

  /** Then the first checks, is let in, and is refused. */
  lemma {:induction false} HeldUpIsLetIn(x: Settings, before: seq<Section>, org: Org) returns (sections: seq<Section>)
    requires x.maxAttempts >= 3 && x.lockout > 0
    requires Timely(before) && Now(before) == x.lockout && CleanLocks(x, before, org)
    requires Run(x, before).underway == map[1 := Attempt(org, 0, false)]
    requires FailuresOf(Run(x, before).table, org) == Failures(1, 0)
    ensures Timely(sections) && CleanLocks(x, sections, org)
    ensures Since(Run(x, sections).log, org) == Since(Run(x, before).log, org) + [0]
  {
    var check, record := Check(1, x.lockout), Record(1, Rejected, x.lockout);
    CleanAfterOneMore(x, before, check, org);
    var one := before + [check];
    SinceFollows(x, Run(x, before), check, org);
    SinceFollows(x, Run(x, one), record, org);
    CleanAfterOneMore(x, one, record, org);
    sections := one + [record];
  }

  /** Clean locks are not enough: with three attempts allowed or more, an attempt that read the
      clock under a lock and is held up until a failure has taken it out of the table is one
      failure too many within the lockout. */
  lemma {:induction false} HeldUpReadingEscapes(x: Settings, org: Org) returns (sections: seq<Section>)
    requires x.maxAttempts >= 3 && x.lockout > 0
    ensures Timely(sections) && CleanLocks(x, sections, org)
    ensures Overfull(x, Since(Run(x, sections).log, org), 0)
  {
    var before := WholeRound(x, org);
    var taken := LockIsTakenOut(x, before, org);
    sections := HeldUpIsLetIn(x, taken, org);
    OneTooMany(x, RoundLength(x));
  }

  lemma {:induction false} WholeRound(x: Settings, org: Org) returns (sections: seq<Section>)
    ensures Timely(sections) && Now(sections) == 0 && CleanLocks(x, sections, org)
    ensures var c := Run(x, sections);
            && c.underway == map[] && Since(c.log, org) == Copies(0, RoundLength(x))
            && FailuresOf(c.table, org) == Failures(0, x.lockout)
  {
    var m := RoundLength(x);
    var tries := RoundAtOnce(x, NOBODY, 0, org, 0, m);
    sections := Then([], 0, tries);
    ThenPerforms(x, [], 0, tries, 0);
    TriesStayOrderly(x, [], 0, tries, org);
    assert [] + Copies(0, m) == Copies(0, m);
    RoundGoesOn(m, 0, m);
    CopiesAreMany(0, m);
    NowIsNotNegative(sections);
  }

  lemma NowIsNotNegative(sections: seq<Section>)
    requires Timely(sections)
    ensures Now(sections) >= 0
  {
  }

  lemma OneTooMany(x: Settings, m: nat)
    requires x.lockout > 0
    ensures CountIn(Copies(0, m) + [x.lockout] + [0], 0, x.lockout) == m + 1
  {
    var f, l := Copies(0, m), x.lockout;
    CopiesAllCount([], 0, m, 0, l);
    assert [] + f == f;
    assert Front(f + [l] + [0]) == f + [l] && Front(f + [l]) == f;
  }

  // ----- how many may overlap

  function UnderWay(c: Crowd, org: Org): set<nat> {
    set t | t in c.underway && c.underway[t].org == org
  }

  /** At no time are more than n attempts under way for the organization. */
  predicate AtMostUnderWay(x: Settings, sections: seq<Section>, org: Org, n: nat) {
    sections == [] || (AtMostUnderWay(x, Front(sections), org, n) && |UnderWay(Run(x, sections), org)| <= n)
  }

  lemma OneIsAlone(c: Crowd, t: nat, u: nat, org: Org)
    requires |UnderWay(c, org)| <= 1 && t in UnderWay(c, org) && u in UnderWay(c, org)
    ensures t == u
  {
    var others := UnderWay(c, org) - {t};
    assert |others| == |UnderWay(c, org)| - 1;
    assert others == {};
  }

  /** An attempt about the organization began after all its recorded failures. */
  predicate BeganLast(c: Crowd, t: nat, org: Org, now: Time) {
    t in UnderWay(c, org) ==>
      c.underway[t].start <= now && forall i :: 0 <= i < |Since(c.log, org)| ==> Since(c.log, org)[i] <= c.underway[t].start
  }

  /** So did every attempt under way. */
  ghost predicate AllBeganLast(c: Crowd, org: Org, now: Time) {
    && (forall t :: BeganLast(c, t, org, now))
    && (forall i :: 0 <= i < |Since(c.log, org)| ==> Since(c.log, org)[i] <= now)
  }

  lemma {:induction false} SoleAttemptBeganLast(x: Settings, c: Crowd, s: Section, org: Org, now: Time)
    requires AllBeganLast(c, org, now) && now <= TimeOf(s) && |UnderWay(c, org)| <= 1
    ensures AllBeganLast(Next(x, c, s), org, TimeOf(s))
  {
    var d := Next(x, c, s);
    SinceFollows(x, c, s, org);
    assert !s.Read? ==> BeganLast(c, s.thread, org, now);
    forall t ensures BeganLast(d, t, org, TimeOf(s)) {
      assert BeganLast(c, t, org, now);
      if Answers(c, s, org) && t in UnderWay(d, org) {
        OneIsAlone(c, t, s.thread, org);
      }
    }
  }

  lemma {:induction false} SoleAttemptLocksCleanly(x: Settings, c: Crowd, s: Section, org: Org, now: Time)
    requires AllBeganLast(c, org, now) && |UnderWay(c, org)| <= 1
    ensures LocksCleanly(x, c, s, org)
  {
    if Answers(c, s, org) {
      assert BeganLast(c, s.thread, org, now);
      forall u | u in c.underway && c.underway[u].org == org ensures u == s.thread {
        OneIsAlone(c, u, s.thread, org);
      }
    }
  }

  lemma {:induction false} SoleAttemptEntersFresh(x: Settings, c: Crowd, s: Section, org: Org, now: Time)
    requires AllBeganLast(c, org, now) && Inv(x, c, org, now)
    requires FailuresOf(c.table, org) == Expected(x, Since(c.log, org))
    ensures EntersFresh(x, c, s, org)
  {
    if Enters(c, s, org) {
      assert BeganLast(c, s.thread, org, now);
      LastIsFresh(x, Since(c.log, org), c.underway[s.thread].start);
    }
  }

  /** One at a time, every attempt begins after the failures recorded before it, so that every
      lock is clean and every entry fresh. */
  lemma {:induction false} OneAtATimeIsOrderly(x: Settings, sections: seq<Section>, org: Org)
    requires Timely(sections) && AtMostUnderWay(x, sections, org, 1)
    ensures Orderly(x, sections, org) && AllBeganLast(Run(x, sections), org, Now(sections))
  {
    if sections != [] {
      var front, s := Front(sections), Last(sections);
      OneAtATimeIsOrderly(x, front, org);
      OrderlyKeepsInv(x, front, org);
      TableIsExpected(x, front, org);
      assert |UnderWay(Run(x, front), org)| <= 1;
      SoleAttemptBeganLast(x, Run(x, front), s, org, Now(front));
      SoleAttemptLocksCleanly(x, Run(x, front), s, org, Now(front));
      SoleAttemptEntersFresh(x, Run(x, front), s, org, Now(front));
    }
  }

  lemma AtMostTwo(c: Crowd, org: Org)
    requires c.underway.Keys <= {0, 1}
    ensures |UnderWay(c, org)| <= 2
  {
    assert {0, 1} == UnderWay(c, org) + ({0, 1} - UnderWay(c, org));
  }

  /** The sections, all at time zero and with two attempts under way at most, lead to the crowd. */
  ghost predicate LeadsTo(x: Settings, sections: seq<Section>, org: Org, c: Crowd) {
    Timely(sections) && Now(sections) == 0 && AtMostUnderWay(x, sections, org, 2) && Run(x, sections) == c
  }

  ghost predicate IsReached(x: Settings, org: Org, c: Crowd) {
    exists sections :: LeadsTo(x, sections, org, c)
  }

  lemma {:induction false} GoOn(x: Settings, c: Crowd, s: Section, org: Org)
    requires IsReached(x, org, c) && TimeOf(s) == 0 && Next(x, c, s).underway.Keys <= {0, 1}
    ensures IsReached(x, org, Next(x, c, s))
  {
    var sections :| LeadsTo(x, sections, org, c);
    OneSectionMore(x, sections, s);
    AtMostTwo(Next(x, c, s), org);
    assert Front(sections + [s]) == sections;
    assert LeadsTo(x, sections + [s], org, Next(x, c, s));
  }

  /** Thread t begins, and is let in, at time zero. */
  lemma {:induction false} GoIn(x: Settings, c: Crowd, t: nat, org: Org)
    requires IsReached(x, org, c) && t in {0, 1} && t !in c.underway && c.underway.Keys <= {0, 1}
    requires !IsLocked(c.table, org, 0)
    ensures IsReached(x, org, Entered(c, t, org, 0))
  {
    ReadThenCheck(x, c, t, org, 0);
    GoOn(x, c, Read(t, org, 0), org);
    GoOn(x, Next(x, c, Read(t, org, 0)), Check(t, 0), org);
  }

  /** Two attempts overlap and are both refused, at time zero: the first refusal locks, and the
      second lifts the lock unless one attempt is all that is allowed. */
  lemma {:induction false} PairIsRefused(x: Settings, c: Crowd, org: Org)
    requires c.underway == map[0 := Attempt(org, 0, true), 1 := Attempt(org, 0, true)]
    requires Fills(x, FailuresOf(c.table, org))
    ensures var one := Next(x, c, Record(0, Rejected, 0)); var both := Next(x, one, Record(1, Rejected, 0));
            && one.underway == map[1 := Attempt(org, 0, true)] && both.underway == map[]
            && Since(both.log, org) == Since(c.log, org) + [0] + [0]
            && (x.maxAttempts >= 2 ==> !IsLocked(both.table, org, 0))
  {
    var one := Next(x, c, Record(0, Rejected, 0));
    SinceFollows(x, c, Record(0, Rejected, 0), org);
    SinceFollows(x, one, Record(1, Rejected, 0), org);
  }

  lemma {:induction false} OverlappingPair(x: Settings, c: Crowd, org: Org) returns (d: Crowd)
    requires IsReached(x, org, c) && c.underway == map[]
    requires !IsLocked(c.table, org, 0) && Fills(x, FailuresOf(c.table, org))
    ensures IsReached(x, org, d) && d.underway == map[] && Since(d.log, org) == Since(c.log, org) + [0] + [0]
    ensures x.maxAttempts >= 2 ==> !IsLocked(d.table, org, 0)
  {
    GoIn(x, c, 0, org);
    var one := Entered(c, 0, org, 0);
    GoIn(x, one, 1, org);
    var two := Entered(one, 1, org, 0);
    assert two.underway == map[0 := Attempt(org, 0, true), 1 := Attempt(org, 0, true)];
    PairIsRefused(x, two, org);
    GoOn(x, two, Record(0, Rejected, 0), org);
    var three := Next(x, two, Record(0, Rejected, 0));
    GoOn(x, three, Record(1, Rejected, 0), org);
    d := Next(x, three, Record(1, Rejected, 0));
  }

  lemma {:induction false} SingleTry(x: Settings, c: Crowd, org: Org) returns (d: Crowd)
    requires IsReached(x, org, c) && c.underway == map[]
    requires !IsLocked(c.table, org, 0) && !Fills(x, FailuresOf(c.table, org))
    ensures IsReached(x, org, d) && d.underway == map[] && Since(d.log, org) == Since(c.log, org) + [0]
    ensures !IsLocked(d.table, org, 0)
  {
    var record := Record(0, Rejected, 0);
    GoIn(x, c, 0, org);
    var one := Entered(c, 0, org, 0);
    assert one.underway == map[0 := Attempt(org, 0, true)];
    GoOn(x, one, record, org);
    SinceFollows(x, one, record, org);
    d := Next(x, one, record);
  }

  /** With two attempts allowed or more, two logins that overlap suffice for any number of
      failures at one instant: some run with two attempts under way at most has them. */
  lemma {:induction false} TwoOverlappingSuffice(x: Settings, org: Org, n: nat) returns (c: Crowd, k: nat)
    requires x.maxAttempts >= 2
    ensures IsReached(x, org, c) && k >= n && Since(c.log, org) == Copies(0, k)
    ensures c.underway == map[] && !IsLocked(c.table, org, 0)
  {
    if n == 0 {
      c, k := NOBODY, 0;
      assert LeadsTo(x, [], org, c);
    } else {
      c, k := TwoOverlappingSuffice(x, org, n - 1);
      OneCopyMore([], 0, k);
      OneCopyMore([], 0, k + 1);
      if Fills(x, FailuresOf(c.table, org)) {
        c := OverlappingPair(x, c, org);
        k := k + 2;
      } else {
        c := SingleTry(x, c, org);
        k := k + 1;
      }
    }
  }

  lemma {:induction false} FewerUnderWay(x: Settings, sections: seq<Section>, org: Org, n: nat, more: nat)
    requires AtMostUnderWay(x, sections, org, n) && n <= more
    ensures AtMostUnderWay(x, sections, org, more)
  {
    if sections != [] {
      FewerUnderWay(x, Front(sections), org, n, more);
    }
  }

  /** At most n attempts are under way for the organization at a time, and yet a window is overfull. */
  predicate Escapes(x: Settings, sections: seq<Section>, org: Org, n: nat, start: Time) {
    Timely(sections) && AtMostUnderWay(x, sections, org, n) && Overfull(x, Since(Run(x, sections).log, org), start)
  }

  lemma {:induction false} TwoAtATimeEscape(x: Settings, org: Org) returns (sections: seq<Section>)
    requires x.lockout > 0
    ensures Escapes(x, sections, org, 2, 0)
  {
    var c, k;
    if x.maxAttempts >= 2 {
      c, k := TwoOverlappingSuffice(x, org, RoundLength(x) + 1);
    } else {
      assert LeadsTo(x, [], org, NOBODY);
      c := OverlappingPair(x, NOBODY, org);
      k := 2;
      OneCopyMore([], 0, 0);
      OneCopyMore([], 0, 1);
    }
    CopiesAllCount([], 0, k, 0, x.lockout);
    assert [] + Copies(0, k) == Copies(0, k);
    sections :| LeadsTo(x, sections, org, c);
  }

  /** The window bound is one of logins that do not overlap: it holds in every run with at most
      n attempts under way for an organization at a time if and only if n is at most one. */
  lemma {:induction false} BoundedExactlyWithoutOverlap(x: Settings, org: Org, n: nat)
    requires x.lockout > 0
    ensures (exists sections, start :: Escapes(x, sections, org, n, start)) <==> n > 1
  {
    if n > 1 {
      var sections := TwoAtATimeEscape(x, org);
      FewerUnderWay(x, sections, org, 2, n);
      assert Escapes(x, sections, org, n, 0);
    } else {
      forall sections, start ensures !Escapes(x, sections, org, n, start) {
        if Timely(sections) && AtMostUnderWay(x, sections, org, n) {
          FewerUnderWay(x, sections, org, n, 1);
          OneAtATimeIsOrderly(x, sections, org);
          WindowIsBounded(x, sections, org);
        }
      }
    }
  }

  /** The sections, all at time zero, lead to the crowd. */
  ghost predicate RunsTo(x: Settings, sections: seq<Section>, c: Crowd) {
    Timely(sections) && Now(sections) == 0 && Run(x, sections) == c
  }

  ghost predicate IsRun(x: Settings, c: Crowd) {
    exists sections :: RunsTo(x, sections, c)
  }

  lemma {:induction false} RunGoesOn(x: Settings, c: Crowd, s: Section)
    requires IsRun(x, c) && TimeOf(s) == 0
    ensures IsRun(x, Next(x, c, s))
  {
    var sections :| RunsTo(x, sections, c);
    OneSectionMore(x, sections, s);
    assert RunsTo(x, sections + [s], Next(x, c, s));
  }

  /** Threads 0 to n - 1 began and were let in, and then the first k of them were refused. */
  ghost predicate Rushed(c: Crowd, org: Org, n: nat, k: nat) {
    && Since(c.log, org) == Copies(0, k)
    && (forall t :: t in c.underway <==> k <= t < n)
    && (forall t :: t in c.underway ==> c.underway[t] == Attempt(org, 0, true))
    && (k == 0 ==> c.table == map[])
  }

  lemma OneMoreIsLetIn(c: Crowd, org: Org, n: nat)
    requires Rushed(c, org, n, 0)
    ensures Rushed(Entered(c, n, org, 0), org, n + 1, 0)
  {
  }

  lemma {:induction false} OneMoreIsRefused(x: Settings, c: Crowd, org: Org, n: nat, k: nat)
    requires Rushed(c, org, n, k) && k < n
    ensures Rushed(Next(x, c, Record(k, Rejected, 0)), org, n, k + 1)
  {
    SinceFollows(x, c, Record(k, Rejected, 0), org);
  }

  lemma {:induction false} RushFails(x: Settings, org: Org, n: nat, k: nat) returns (c: Crowd)
    requires k <= n
    ensures IsRun(x, c) && Rushed(c, org, n, k)
    decreases n, k
  {
    if k > 0 {
      var before := RushFails(x, org, n, k - 1);
      RunGoesOn(x, before, Record(k - 1, Rejected, 0));
      OneMoreIsRefused(x, before, org, n, k - 1);
      c := Next(x, before, Record(k - 1, Rejected, 0));
    } else if n > 0 {
      var before := RushFails(x, org, n - 1, 0);
      ReadThenCheck(x, before, n - 1, org, 0);
      RunGoesOn(x, before, Read(n - 1, org, 0));
      RunGoesOn(x, Next(x, before, Read(n - 1, org, 0)), Check(n - 1, 0));
      OneMoreIsLetIn(before, org, n - 1);
      c := Entered(before, n - 1, org, 0);
    } else {
      c := NOBODY;
      assert RunsTo(x, [], c);
    }
  }

  /** Whatever the settings, any number of overlapping attempts can fail at one instant. */
  lemma OverlappingAttemptsEscape(x: Settings, org: Org, n: nat)
    ensures exists sections :: Timely(sections) && Since(Run(x, sections).log, org) == Copies(0, n)
  {
    var c := RushFails(x, org, n, n);
    var sections :| RunsTo(x, sections, c);
  }
}
