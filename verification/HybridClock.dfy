/** The mutable clock object of synapse/hlc.py. The lock around `stamp`, `observe`
    and `peek` makes each of them one atomic step; the physical clock reading is
    a parameter. */
module HybridClock {
  import opened Wrappers
  import opened Timestamps
  import opened ClockText

  class HLC {
    var l: int
    var c: int
    const digitValue: char -> int

    function Now(): Timestamp
      reads this
    {
      Timestamp(l, c)
    }

    constructor (digitValue: char -> int, start: Timestamp)
      ensures Now() == start && this.digitValue == digitValue
    {
      this.digitValue := digitValue;
      l, c := start.l, start.c;
    }

    /** Construction from the persisted upper bound. */
    static method Create(digitValue: char -> int, initial: Option<string>) returns (r: Result<HLC, ClockError>)
      ensures initial.None? ==>
                r.Ok? && fresh(r.value) && r.value.Now() == ORIGIN && r.value.digitValue == digitValue
      ensures initial.Some? && IsValid(digitValue, initial.value) ==>
                r.Ok? && fresh(r.value) && r.value.Now() == Decode(digitValue, initial.value).value
                && r.value.digitValue == digitValue
      ensures initial.Some? && !IsValid(digitValue, initial.value) ==> r == Err(Malformed)
    {
      if initial.Some? {
        if !IsValid(digitValue, initial.value) {
          return Err(Malformed);
        }
        var clock := new HLC(digitValue, Decode(digitValue, initial.value).value);
        return Ok(clock);
      }
      var clock := new HLC(digitValue, ORIGIN);
      return Ok(clock);
    }

    /** The clock has moved even when the text form cannot hold the new value. */
    method Stamp(pt: int) returns (r: Result<string, ClockError>)
      modifies this
      ensures Now() == LocalRule(old(Now()), pt)
      ensures r == Encode(Now())
    {
      var newL := if this.l > pt then this.l else pt;
      var newC := if newL == this.l then this.c + 1 else 0;
      this.l, this.c := newL, newC;
      r := Encode(Timestamp(newL, newC));
    }

    method Observe(remote: string) returns (r: Result<(), ClockError>)
      modifies this
      ensures !IsValid(digitValue, remote) ==> r == Err(Malformed) && Now() == old(Now())
      ensures IsValid(digitValue, remote) ==>
                r.Ok? && Now() == MergeRule(old(Now()), Decode(digitValue, remote).value)
    {
      if !IsValid(digitValue, remote) {
        return Err(Malformed);
      }
      var Timestamp(lR, cR) := Decode(digitValue, remote).value;
      var newL := if l > lR then l else lR;
      var newC;
      if l == lR && lR == newL {
        newC := (if c > cR then c else cR) + 1;
      } else if l == newL {
        newC := c + 1;
      } else if lR == newL {
        newC := cR + 1;
      } else {
        newC := 0;
      }
      l, c := newL, newC;
      r := Ok(());
    }

    method Peek() returns (r: Result<string, ClockError>)
      ensures r == Encode(Now())
    {
      r := Encode(Timestamp(l, c));
    }
  }
}
