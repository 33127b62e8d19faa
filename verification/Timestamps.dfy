/** Hybrid logical timestamps (l, c) and the two update rules of synapse/hlc.py,
    on pairs. The text form is in ClockText, the mutable clock in HybridClock. */
module Timestamps {

  datatype Timestamp = Timestamp(l: int, c: int)

  const ORIGIN := Timestamp(0, 0)

  predicate Before(a: Timestamp, b: Timestamp) {
    a.l < b.l || (a.l == b.l && a.c < b.c)
  }

  predicate AtMost(a: Timestamp, b: Timestamp) {
    a.l < b.l || (a.l == b.l && a.c <= b.c)
  }

  function Max(a: int, b: int): int {
    if a > b then a else b
  }

  /** The local-event rule: what `stamp` does to the pair. */
  function LocalRule(now: Timestamp, pt: int): Timestamp {
    var l := if now.l > pt then now.l else pt;
    Timestamp(l, if l == now.l then now.c + 1 else 0)
  }

  /** The receive rule: what `observe` does to the pair, defensive branch included. */
  function MergeRule(now: Timestamp, remote: Timestamp): Timestamp {
    var l := if now.l > remote.l then now.l else remote.l;
    Timestamp(l,
              if now.l == remote.l == l then Max(now.c, remote.c) + 1
              else if now.l == l then now.c + 1
              else if remote.l == l then remote.c + 1
              else 0)
  }

  /** A stamp is the least timestamp that is after the clock and not behind the
      physical reading. */
  lemma LocalRuleIsLeast(now: Timestamp, pt: int, other: Timestamp)
    ensures Before(now, LocalRule(now, pt)) && pt <= LocalRule(now, pt).l
    ensures Before(now, other) && pt <= other.l && 0 <= other.c ==> AtMost(LocalRule(now, pt), other)
  {
  }

  /** A merge yields the least timestamp after both the clock and the remote one;
      in particular the defensive branch (counter 0) is never the one taken. */
  lemma MergeRuleIsLeast(now: Timestamp, remote: Timestamp, other: Timestamp)
    ensures Before(now, MergeRule(now, remote)) && Before(remote, MergeRule(now, remote))
    ensures Before(now, other) && Before(remote, other) ==> AtMost(MergeRule(now, remote), other)
    ensures now.l == MergeRule(now, remote).l || remote.l == MergeRule(now, remote).l
  {
  }
}
