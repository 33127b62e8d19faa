/** The authentication cache of synapse/service.py. Lookup and remembering are two separate
    critical sections; the slow password verification runs between them, outside the lock, so
    the sections of concurrent calls interleave freely. */
module AuthCache {
  import opened Wrappers

  const MAX_ENTRIES := 2048

  type Hash = string
  type Password = string
  type Digest = string
  type Time = real

  datatype Entry = Entry(hash: Hash, digest: Digest, expires: Time)

  type Cache = map<string, Entry>

  /** The SHA-256 digest, the password verification, and how long a success is remembered. */
  datatype Scheme = Scheme(digest: Password -> Digest, verify: (Hash, Password) -> bool, ttl: Time)

  /** `key` is the principal; `hash` is the password hash the database holds at the time of
      the call, `now` the clock when the call began. */
  datatype Call = Call(key: string, hash: Hash, password: Password, now: Time)

  predicate Hits(x: Scheme, cache: Cache, call: Call) {
    && call.key in cache && cache[call.key].hash == call.hash && cache[call.key].digest == x.digest(call.password)
    && cache[call.key].expires > call.now
  }

  function Pruned(cache: Cache, now: Time): Cache {
    map k | k in cache && cache[k].expires > now :: cache[k]
  }

  /** Remembering a success; `now` is the clock if the cache has to be pruned. */
  function Remembered(x: Scheme, cache: Cache, call: Call, now: Time): Cache {
    (if |cache| >= MAX_ENTRIES then Pruned(cache, now) else cache)
      [call.key := Entry(call.hash, x.digest(call.password), call.now + x.ttl)]
  }

  class Service {
    const x: Scheme
    var cache: Cache

    constructor (x: Scheme)
      ensures this.x == x && cache == map[]
    {
      this.x, cache := x, map[];
    }

    method Lookup(call: Call) returns (hit: bool)
      ensures hit <==> Hits(x, cache, call)
    {
      if call.key !in cache {
        return false;
      }
      var entry := cache[call.key];
      hit := entry.hash == call.hash && entry.digest == x.digest(call.password) && entry.expires > call.now;
    }

    method Prune(now: Time)
      modifies this
      ensures cache == Pruned(old(cache), now)
    {
      var expired := set k | k in cache && cache[k].expires <= now;
      ghost var before, all := cache, expired;
      while expired != {}
        invariant cache == map k | k in before && k !in all - expired :: before[k]
        invariant expired <= all
        decreases expired
      {
        var key :| key in expired;
        cache := cache - {key};
        expired := expired - {key};
      }
    }

    method Remember(call: Call, now: Time)
      modifies this
      ensures cache == Remembered(x, old(cache), call, now)
    {
      if |cache| >= MAX_ENTRIES {
        Prune(now);
      }
      cache := cache[call.key := Entry(call.hash, x.digest(call.password), call.now + x.ttl)];
    }

    /** A call nobody interleaves with. */
    method CachedPasswordOk(call: Call, later: Time) returns (ok: bool)
      modifies this
      ensures ok <==> Hits(x, old(cache), call) || x.verify(call.hash, call.password)
      ensures cache == if ok && !Hits(x, old(cache), call) then Remembered(x, old(cache), call, later) else old(cache)
    {
      ok := Lookup(call);
      if ok {
        return;
      }
      ok := x.verify(call.hash, call.password);
      if ok {
        Remember(call, later);
      }
    }
  }

  /** When the cache is full, remembering leaves room for no expired entry but the new one. */
  lemma FullCacheHoldsLiveEntries(x: Scheme, cache: Cache, call: Call, now: Time, key: string)
    requires |Remembered(x, cache, call, now)| > MAX_ENTRIES
    requires key in Remembered(x, cache, call, now) && key != call.key
    ensures Remembered(x, cache, call, now)[key].expires > now
  {
    var grown := cache[call.key := Entry(call.hash, x.digest(call.password), call.now + x.ttl)];
    assert grown.Keys == cache.Keys + {call.key};
    assert |grown.Keys| == |grown| && |cache.Keys| == |cache|;
    assert |grown| <= |cache| + 1;
  }

  // ----- concurrent calls

  type Thread = nat

  datatype Answer = Answer(call: Call, ok: bool, cached: bool)

  datatype State = State(cache: Cache, verifying: map<Thread, Call>, answers: seq<Answer>)

  const START := State(map[], map[], [])

  /** A thread runs the first section of a call, or finishes the call it is verifying. */
  datatype Event = Enter(t: Thread, call: Call) | Finish(t: Thread, now: Time)

  function Next(x: Scheme, s: State, e: Event): State {
    match e
    case Enter(t, call) =>
      if t in s.verifying then s
      else if Hits(x, s.cache, call) then s.(answers := s.answers + [Answer(call, true, true)])
      else s.(verifying := s.verifying[t := call])
    case Finish(t, now) =>
      if t !in s.verifying then s
      else
        var call := s.verifying[t];
        var ok := x.verify(call.hash, call.password);
        State(if ok then Remembered(x, s.cache, call, now) else s.cache, s.verifying - {t},
              s.answers + [Answer(call, ok, false)])
  }

  function Run(x: Scheme, events: seq<Event>): State {
    if events == [] then START else Next(x, Run(x, events[..|events| - 1]), events[|events| - 1])
  }

  /** The verified answer an entry comes from. */
  predicate Vouches(x: Scheme, a: Answer, key: string, entry: Entry) {
    && a.ok && !a.cached && a.call.key == key && a.call.hash == entry.hash
    && x.digest(a.call.password) == entry.digest && a.call.now + x.ttl == entry.expires
    && x.verify(a.call.hash, a.call.password)
  }

  ghost predicate Vouched(x: Scheme, answers: seq<Answer>, key: string, entry: Entry) {
    exists j :: 0 <= j < |answers| && Vouches(x, answers[j], key, entry)
  }

  ghost predicate Inv(x: Scheme, s: State) {
    && (forall k :: k in s.cache ==> Vouched(x, s.answers, k, s.cache[k]))
    && (forall i :: 0 <= i < |s.answers| ==> Justified(x, s.answers, i))
  }

  /** The answer is what verification gives, or an earlier successful verification of the same
      principal against the same hash, of a password with the same digest, is not older than
      the time to live. */
  ghost predicate Justified(x: Scheme, answers: seq<Answer>, i: nat)
    requires i < |answers|
  {
    var a := answers[i];
    if a.cached then
      a.ok && exists j :: 0 <= j < i && Recent(x, answers[j], a)
    else a.ok == x.verify(a.call.hash, a.call.password)
  }

  predicate Recent(x: Scheme, earlier: Answer, a: Answer) {
    && earlier.ok && !earlier.cached && earlier.call.key == a.call.key && earlier.call.hash == a.call.hash
    && x.digest(earlier.call.password) == x.digest(a.call.password)
    && a.call.now < earlier.call.now + x.ttl
    && x.verify(earlier.call.hash, earlier.call.password)
  }

  lemma AnswerKeepsInv(x: Scheme, s: State, cache: Cache, a: Answer)
    requires Inv(x, s)
    requires forall k :: k in cache ==> Vouched(x, s.answers + [a], k, cache[k])
    requires Justified(x, s.answers + [a], |s.answers|)
    ensures forall verifying :: Inv(x, State(cache, verifying, s.answers + [a]))
  {
    var answers := s.answers + [a];
    forall i | 0 <= i < |answers| ensures Justified(x, answers, i) {
      if i < |s.answers| {
        assert Justified(x, s.answers, i);
        assert answers[i] == s.answers[i];
        if s.answers[i].cached {
          var j :| 0 <= j < i && Recent(x, s.answers[j], s.answers[i]);
          assert Recent(x, answers[j], answers[i]);
        }
      }
    }
  }

  lemma StillVouched(x: Scheme, s: State, a: Answer, key: string)
    requires Inv(x, s) && key in s.cache
    ensures Vouched(x, s.answers + [a], key, s.cache[key])
  {
    var j :| 0 <= j < |s.answers| && Vouches(x, s.answers[j], key, s.cache[key]);
    assert Vouches(x, (s.answers + [a])[j], key, s.cache[key]);
  }

  lemma {:induction false} StepKeepsInv(x: Scheme, s: State, e: Event)
    requires Inv(x, s)
    ensures Inv(x, Next(x, s, e))
  {
    match e
    case Enter(t, call) =>
      if t !in s.verifying && Hits(x, s.cache, call) {
        var a := Answer(call, true, true);
        forall k | k in s.cache ensures Vouched(x, s.answers + [a], k, s.cache[k]) {
          StillVouched(x, s, a, k);
        }
        var entry := s.cache[call.key];
        var j :| 0 <= j < |s.answers| && Vouches(x, s.answers[j], call.key, entry);
        assert Recent(x, (s.answers + [a])[j], a);
        AnswerKeepsInv(x, s, s.cache, a);
      }
    case Finish(t, now) =>
      if t in s.verifying {
        var call := s.verifying[t];
        var a := Answer(call, x.verify(call.hash, call.password), false);
        var cache := Next(x, s, e).cache;
        forall k | k in cache ensures Vouched(x, s.answers + [a], k, cache[k]) {
          if a.ok && k == call.key {
            assert Vouches(x, (s.answers + [a])[|s.answers|], k, cache[k]);
          } else {
            StillVouched(x, s, a, k);
          }
        }
        AnswerKeepsInv(x, s, cache, a);
      }
  }

  lemma {:induction false} RunKeepsInv(x: Scheme, events: seq<Event>)
    ensures Inv(x, Run(x, events))
  {
    if events != [] {
      RunKeepsInv(x, events[..|events| - 1]);
      StepKeepsInv(x, Run(x, events[..|events| - 1]), events[|events| - 1]);
    }
  }

  /** A cached answer rests on a verification that succeeded less than the time to live ago,
      for the same principal and against the hash the database still holds. */
  lemma CachedAnswersAreRecent(x: Scheme, events: seq<Event>, i: nat)
    requires i < |Run(x, events).answers| && Run(x, events).answers[i].cached
    ensures var answers := Run(x, events).answers; exists j :: 0 <= j < i && Recent(x, answers[j], answers[i])
  {
    RunKeepsInv(x, events);
    assert Justified(x, Run(x, events).answers, i);
  }

  /** The last successful verification for a principal. */
  function LastSuccess(answers: seq<Answer>, key: string): Option<Call> {
    if answers == [] then None
    else
      var last := answers[|answers| - 1];
      if last.ok && !last.cached && last.call.key == key then Some(last.call)
      else LastSuccess(answers[..|answers| - 1], key)
  }

  /** No pruning has read a later clock. */
  ghost predicate NotAfter(events: seq<Event>, now: Time) {
    forall e :: e in events && e.Finish? ==> e.now <= now
  }

  /** The entry comes from the call. */
  predicate ComesFrom(x: Scheme, entry: Entry, call: Call) {
    entry == Entry(call.hash, x.digest(call.password), call.now + x.ttl)
  }

  /** Of the entries that are live at a time, the cache holds what the last success says. */
  ghost predicate HoldsLastSuccess(x: Scheme, s: State, key: string, now: Time) {
    var last := LastSuccess(s.answers, key);
    if last.Some? && last.value.now + x.ttl > now then key in s.cache && ComesFrom(x, s.cache[key], last.value)
    else key in s.cache ==> s.cache[key].expires <= now
  }

  lemma {:induction false} StepHoldsLastSuccess(x: Scheme, s: State, e: Event, key: string, now: Time)
    requires HoldsLastSuccess(x, s, key, now) && (e.Finish? ==> e.now <= now)
    ensures HoldsLastSuccess(x, Next(x, s, e), key, now)
  {
    var s' := Next(x, s, e);
    if s'.answers != s.answers {
      assert s'.answers[..|s'.answers| - 1] == s.answers;
    }
  }

  lemma {:induction false} RunHoldsLastSuccess(x: Scheme, events: seq<Event>, key: string, now: Time)
    requires NotAfter(events, now)
    ensures HoldsLastSuccess(x, Run(x, events), key, now)
  {
    if events != [] {
      RunHoldsLastSuccess(x, events[..|events| - 1], key, now);
      StepHoldsLastSuccess(x, Run(x, events[..|events| - 1]), events[|events| - 1], key, now);
    }
  }

  /** Under every interleaving a call is answered from the cache if and only if the last password
      that was verified for the principal has the same digest, was verified against the same hash,
      and that less than the time to live ago. Neither other principals nor a full cache matter. */
  lemma {:induction false} CachedExactlyWhen(x: Scheme, events: seq<Event>, call: Call)
    requires NotAfter(events, call.now)
    ensures Hits(x, Run(x, events).cache, call) <==>
            var last := LastSuccess(Run(x, events).answers, call.key);
            && last.Some? && last.value.hash == call.hash && x.digest(last.value.password) == x.digest(call.password)
            && call.now < last.value.now + x.ttl
  {
    RunHoldsLastSuccess(x, events, call.key, call.now);
  }

  /** No two passwords with one digest, one of which a hash accepts and the other not. */
  ghost predicate DigestsSeparate(x: Scheme) {
    forall h, p, q :: x.digest(p) == x.digest(q) ==> x.verify(h, p) == x.verify(h, q)
  }

  ghost predicate AnswersAreVerifications(x: Scheme, events: seq<Event>) {
    forall i :: 0 <= i < |Run(x, events).answers| ==>
      var a := Run(x, events).answers[i]; a.ok == x.verify(a.call.hash, a.call.password)
  }

  lemma SeparatedDigestsSuffice(x: Scheme, events: seq<Event>)
    requires DigestsSeparate(x)
    ensures AnswersAreVerifications(x, events)
  {
    RunKeepsInv(x, events);
    var answers := Run(x, events).answers;
    forall i | 0 <= i < |answers| ensures answers[i].ok == x.verify(answers[i].call.hash, answers[i].call.password) {
      assert Justified(x, answers, i);
      if answers[i].cached {
        var j :| 0 <= j < i && Recent(x, answers[j], answers[i]);
      }
    }
  }

  lemma MixedDigestIsFatal(x: Scheme, h: Hash, p: Password, q: Password)
    requires x.ttl > 0.0 && x.digest(p) == x.digest(q) && x.verify(h, p) && !x.verify(h, q)
    ensures !AnswersAreVerifications(x, MixedRun(h, p, q))
  {
    var events := MixedRun(h, p, q);
    assert events[..2][..1] == [events[0]] && events[..2] == [events[0], events[1]] && events[..1][..0] == [];
    var s1 := Next(x, START, events[0]);
    assert Run(x, [events[0]]) == s1;
    var s2 := Next(x, s1, events[1]);
    assert [events[0], events[1]][..1] == [events[0]];
    assert Run(x, events[..2]) == s2;
    var s3 := Next(x, s2, events[2]);
    assert Run(x, events) == s3;
    assert Hits(x, s2.cache, Call("", h, q, 0.0));
    assert s3.answers[1] == Answer(Call("", h, q, 0.0), true, true);
  }

  function MixedRun(h: Hash, p: Password, q: Password): seq<Event> {
    [Enter(0, Call("", h, p, 0.0)), Finish(0, 0.0), Enter(0, Call("", h, q, 0.0))]
  }

  /** With a positive time to live, every call of every run, under any interleaving, rotation
      of hashes, expiry and pruning, is answered as plain verification would answer it if and
      only if no digest mixes accepted and refused passwords. */
  lemma CacheAgreesExactlyWhen(x: Scheme)
    requires x.ttl > 0.0
    ensures (forall events :: AnswersAreVerifications(x, events)) <==> DigestsSeparate(x)
  {
    if DigestsSeparate(x) {
      forall events ensures AnswersAreVerifications(x, events) {
        SeparatedDigestsSuffice(x, events);
      }
    } else {
      var h, p, q :| x.digest(p) == x.digest(q) && x.verify(h, p) != x.verify(h, q);
      if x.verify(h, p) {
        MixedDigestIsFatal(x, h, p, q);
      } else {
        MixedDigestIsFatal(x, h, q, p);
      }
    }
  }
}
