/** The merge hooks at the two ends of a delegation: `_tasks_message` and `_envelope_hlc` of
    synapse/a2a_bridge.py, `delegate` and `_call` of synapse/a2a_client.py. In a server the
    bridge shares the service's clock; a standalone bridge has a clock of its own, and the
    service that creates the task then never sees the message's timestamp. */
module Envelopes {
  import opened ClockText
  import opened HybridClock
  import opened Timestamps
  import opened Wrappers

  /** The first three are the bridge's answers; the others are raised at the client. */
  datatype RpcError = InvalidParams | Refused | InternalError | ClockFailure | TransportFailure

  /** The clocks a message passes: one, or the bridge's and the service's. */
  datatype Clocks = Shared(t: Timestamp) | Apart(bridge: Timestamp, service: Timestamp)

  function BridgeClock(cs: Clocks): Timestamp {
    match cs
    case Shared(t) => t
    case Apart(bridge, _) => bridge
  }

  function ServiceClock(cs: Clocks): Timestamp {
    match cs
    case Shared(t) => t
    case Apart(_, service) => service
  }

  function SetBridge(cs: Clocks, t: Timestamp): Clocks {
    if cs.Shared? then Shared(t) else cs.(bridge := t)
  }

  function SetService(cs: Clocks, t: Timestamp): Clocks {
    if cs.Shared? then Shared(t) else cs.(service := t)
  }

  function Absorbed(cs: Clocks, remote: Option<Timestamp>): Clocks {
    if remote.None? then cs else SetBridge(cs, MergeRule(BridgeClock(cs), remote.value))
  }

  /** The service stamps the transaction that creates the task. */
  function Created(cs: Clocks, pt: int): Clocks {
    SetService(cs, LocalRule(ServiceClock(cs), pt))
  }

  function Replied(cs: Clocks, pt: int): Clocks {
    SetBridge(cs, LocalRule(BridgeClock(cs), pt))
  }

  /** What the service does with the creation: refuse it before or after stamping, or grant it. */
  datatype Creation = RefusedUnstamped | RefusedStamped | Granted

  datatype Reply = Reply(row: Timestamp, hlc: string)

  class Bridge {
    const clock: HLC
    const service: HLC

    constructor (clock: HLC, service: HLC)
      ensures this.clock == clock && this.service == service
    {
      this.clock, this.service := clock, service;
    }

    ghost function View(): Clocks
      reads clock, service
    {
      if clock == service then Shared(clock.Now()) else Apart(clock.Now(), service.Now())
    }

    /** `pt` and `replyPt` are the physical readings of the row's and the reply's stamps. */
    method TasksMessage(remote: Option<string>, creation: Creation, pt: int, replyPt: int)
      returns (r: Result<Reply, RpcError>)
      modifies clock, service
      ensures (View(), r) ==
              if remote.None? then Handled(old(View()), None, creation, pt, replyPt)
              else if !IsValid(clock.digitValue, remote.value) then (old(View()), Err(InvalidParams))
              else Handled(old(View()), Some(Decode(clock.digitValue, remote.value).value), creation, pt, replyPt)
      ensures remote.None? || IsValid(clock.digitValue, remote.value) ==>
                IsOrdered(old(View()), View(),
                          if remote.None? then None else Some(Decode(clock.digitValue, remote.value).value),
                          creation, pt, replyPt, r)
    {
      HandledIsOrdered(View(), None, creation, pt, replyPt);
      if remote.Some? {
        if !IsValid(clock.digitValue, remote.value) {
          return Err(InvalidParams);
        }
        DecodedIsNatural(clock.digitValue, remote.value);
        HandledIsOrdered(View(), Some(Decode(clock.digitValue, remote.value).value), creation, pt, replyPt);
        var observed := clock.Observe(remote.value);
      }
      if creation == RefusedUnstamped {
        return Err(Refused);
      }
      var row := service.Stamp(pt);
      var created := Timestamp(service.l, service.c);
      if creation == RefusedStamped || row.Err? {
        return Err(Refused);
      }
      var hlc := clock.Stamp(replyPt);
      if hlc.Err? {
        return Err(InternalError);
      }
      r := Ok(Reply(created, hlc.value));
    }
  }

  /** The clocks and the answer after a well-formed message. */
  function Handled(before: Clocks, remote: Option<Timestamp>, creation: Creation, pt: int, replyPt: int)
    : (Clocks, Result<Reply, RpcError>)
  {
    var absorbed := Absorbed(before, remote);
    var created := Created(absorbed, pt);
    var replied := Replied(created, replyPt);
    if creation == RefusedUnstamped then (absorbed, Err(Refused))
    else if creation == RefusedStamped || !InRange(ServiceClock(created)) then (created, Err(Refused))
    else if !InRange(BridgeClock(replied)) then (replied, Err(InternalError))
    else (replied, Ok(Reply(ServiceClock(created), Text(BridgeClock(replied)))))
  }

  /** What the clocks and the answer owe a message, in whatever way it is handled. It is absorbed
      whatever becomes of the creation. An answer carries the bridge's clock, and its row is after
      the service's clock of before. On one clock the row is after the message and before the
      answer; on two it is after the message if and only if the service's clock had reached the
      message by itself, or its physical reading is past it. */
  ghost predicate IsOrdered(before: Clocks, after: Clocks, message: Option<Timestamp>, creation: Creation,
                            pt: int, replyPt: int, r: Result<Reply, RpcError>)
  {
    && before.Shared? == after.Shared?
    && (message.Some? ==> Before(message.value, BridgeClock(after)))
    && (creation == RefusedUnstamped && after.Apart? ==> after.service == before.service)
    && (r.Ok? ==>
          && creation == Granted && Ok(r.value.hlc) == Encode(BridgeClock(after))
          && pt <= r.value.row.l && replyPt <= BridgeClock(after).l
          && Before(ServiceClock(before), r.value.row) && Before(BridgeClock(before), BridgeClock(after))
          && if after.Shared? then
               Before(r.value.row, after.t) && (message.Some? ==> Before(message.value, r.value.row))
             else
               && r.value.row == after.service
               && (message.Some? ==> (Before(message.value, r.value.row) <==>
                                      AtMost(message.value, before.service) || message.value.l < pt)))
  }

  lemma HandledIsOrdered(before: Clocks, message: Option<Timestamp>, creation: Creation, pt: int, replyPt: int)
    requires message.Some? ==> 0 <= message.value.c
    ensures var (after, r) := Handled(before, message, creation, pt, replyPt);
            IsOrdered(before, after, message, creation, pt, replyPt, r)
  {
  }

  /** With a shared clock the created row is after the message and before the reply. */
  lemma SharedClockOrdersTheRow(before: Clocks, remote: Option<Timestamp>, creation: Creation, pt: int, replyPt: int)
    requires before.Shared?
    ensures var (after, r) := Handled(before, remote, creation, pt, replyPt);
            r.Ok? ==>
              && after.Shared? && Ok(r.value.hlc) == Encode(after.t)
              && (remote.Some? ==> Before(remote.value, r.value.row))
              && Before(before.t, r.value.row) && Before(r.value.row, after.t)
  {
  }

  /** With a standalone bridge the reply is after the message, but the created row is after it
      if and only if the service's clock had reached the message by itself, or its physical
      reading is past it. */
  lemma StandaloneRowIsAfterExactlyWhen(before: Clocks, remote: Timestamp, creation: Creation, pt: int, replyPt: int)
    requires before.Apart? && 0 <= remote.c
    ensures var (after, r) := Handled(before, Some(remote), creation, pt, replyPt);
            r.Ok? ==>
              && after.Apart? && Ok(r.value.hlc) == Encode(after.bridge) && Before(remote, after.bridge)
              && (Before(remote, r.value.row) <==> AtMost(remote, before.service) || remote.l < pt)
  {
  }

  /** A message two seconds ahead of a standalone deployment's service creates a row that is
      ordered before it. */
  lemma StandaloneRowCanPrecedeItsCause()
    ensures var before, message := Apart(Timestamp(1000, 0), Timestamp(1000, 0)), Timestamp(3000, 0);
            var r := Handled(before, Some(message), Granted, 1000, 1000).1;
            r.Ok? && r.value.row == Timestamp(1000, 1) && Before(r.value.row, message)
  {
  }

  /** The answer to a message is after it, on the bridge's clock. */
  lemma ReplyIsAfterTheMessage(before: Clocks, remote: Timestamp, creation: Creation, pt: int, replyPt: int)
    ensures var (after, r) := Handled(before, Some(remote), creation, pt, replyPt);
            var reply := BridgeClock(after);
            r.Ok? ==> r.value.hlc == Text(reply) && InRange(reply) && Before(remote, reply)
  {
  }

  /** What becomes of a request on its way: it arrives and is answered, it never arrives, or it
      is handled and its answer is lost. */
  datatype Transport = Delivered | Undelivered | ReplyLost

  /** The two hooks are independent: either may be missing, and they may be of one clock or two. */
  class A2AClient {
    const provider: HLC?
    const observer: HLC?

    constructor (provider: HLC?, observer: HLC?)
      ensures this.provider == provider && this.observer == observer
    {
      this.provider, this.observer := provider, observer;
    }

    /** The client's clocks are not those of the deployment it talks to. */
    ghost predicate IsApartFrom(bridge: Bridge) {
      && provider != bridge.clock && provider != bridge.service
      && observer != bridge.clock && observer != bridge.service
    }

    /** The stamp of the outbound envelope. */
    method Provide(pt: int) returns (sent: Option<Timestamp>, metadata: Result<Option<string>, RpcError>)
      modifies provider
      ensures sent == if provider == null then None else Some(LocalRule(old(provider.Now()), pt))
      ensures provider != null ==> provider.Now() == sent.value
      ensures metadata ==
              if sent.None? then Ok(None)
              else if InRange(sent.value) then Ok(Some(Text(sent.value)))
              else Err(ClockFailure)
    {
      if provider == null {
        return None, Ok(None);
      }
      var stamp := provider.Stamp(pt);
      sent := Some(Timestamp(provider.l, provider.c));
      metadata := if stamp.Err? then Err(ClockFailure) else Ok(Some(stamp.value));
    }

    /** The merge of an answer's stamp, if it has one; a malformed one is raised. */
    method Absorb(hlc: Option<string>) returns (ok: bool)
      modifies observer
      ensures ok <==> observer == null || hlc.None? || IsValid(observer.digitValue, hlc.value)
      ensures observer != null ==>
                observer.Now() == if ok && hlc.Some? then MergeRule(old(observer.Now()),
                                                                    Decode(observer.digitValue, hlc.value).value)
                                  else old(observer.Now())
    {
      if observer == null || hlc.None? {
        return true;
      }
      var observed := observer.Observe(hlc.value);
      ok := observed.Ok?;
    }

    /** `delegate`: the envelope carries the provider's stamp, if there is one; an answer's stamp
        is absorbed by the observer, if there is one, before the caller sees the answer. A stamp
        that cannot be written is not sent; what is lost on the way out touches no other clock,
        and what is lost on the way back has moved the deployment's clocks only. */
    method Delegate(bridge: Bridge, pt: int, transport: Transport, creation: Creation, rowPt: int, replyPt: int)
      returns (r: Result<Reply, RpcError>, sent: Option<Timestamp>)
      requires IsApartFrom(bridge) && IsDigitTable(bridge.clock.digitValue)
      requires observer != null ==> IsDigitTable(observer.digitValue)
      modifies bridge.clock, bridge.service, provider, observer
      ensures sent == if provider == null then None else Some(LocalRule(old(provider.Now()), pt))
      ensures var unwritable := sent.Some? && !InRange(sent.value);
              (bridge.View(), r) ==
              if unwritable then (old(bridge.View()), Err(ClockFailure))
              else if transport == Undelivered then (old(bridge.View()), Err(TransportFailure))
              else
                var (after, answer) := Handled(old(bridge.View()), sent, creation, rowPt, replyPt);
                (after, if transport == ReplyLost then Err(TransportFailure) else answer)
      ensures provider != null && (r.Err? || provider != observer) ==> provider.Now() == sent.value
      ensures observer != null && r.Err? && provider != observer ==> observer.Now() == old(observer.Now())
      ensures observer != null && r.Ok? ==>
                observer.Now() == MergeRule(if provider == observer then sent.value else old(observer.Now()),
                                            BridgeClock(bridge.View()))
    {
      ghost var before := bridge.View();
      var metadata;
      sent, metadata := Provide(pt);
      assert bridge.View() == before;
      if metadata.Err? {
        return Err(metadata.error), sent;
      }
      if transport == Undelivered {
        return Err(TransportFailure), sent;
      }
      if sent.Some? {
        DecodeEncode(bridge.clock.digitValue, sent.value);
      }
      r := bridge.TasksMessage(metadata.value, creation, rowPt, replyPt);
      if transport == ReplyLost {
        return Err(TransportFailure), sent;
      }
      if r.Ok? {
        ghost var after := bridge.View();
        if observer != null {
          DecodeEncode(observer.digitValue, BridgeClock(after));
        }
        var ok := Absorb(Some(r.value.hlc));
        assert bridge.View() == after;
      }
    }

    /** `delegate` to any peer: `peer` is its answer to a message's hlc, and the answer may lack
        an hlc or have a malformed one. Then nothing is absorbed; an observer raises the latter. */
    method DelegateToPeer(peer: Option<string> -> Result<Option<string>, RpcError>, pt: int, transport: Transport)
      returns (r: Result<Option<string>, RpcError>, sent: Option<Timestamp>)
      modifies provider, observer
      ensures sent == if provider == null then None else Some(LocalRule(old(provider.Now()), pt))
      ensures r ==
              if sent.Some? && !InRange(sent.value) then Err(ClockFailure)
              else if transport != Delivered then Err(TransportFailure)
              else
                var answer := peer(if sent.Some? then Some(Text(sent.value)) else None);
                if answer.Ok? && answer.value.Some? && observer != null && !IsValid(observer.digitValue, answer.value.value)
                then Err(ClockFailure) else answer
      ensures provider != null && provider != observer ==> provider.Now() == sent.value
      ensures observer != null ==>
                var before := if provider == observer then sent.value else old(observer.Now());
                observer.Now() == if r.Ok? && r.value.Some?
                                  then MergeRule(before, Decode(observer.digitValue, r.value.value).value)
                                  else before
    {
      var metadata;
      sent, metadata := Provide(pt);
      if metadata.Err? {
        return Err(metadata.error), sent;
      }
      if transport != Delivered {
        return Err(TransportFailure), sent;
      }
      r := peer(metadata.value);
      if r.Ok? {
        var ok := Absorb(r.value);
        if !ok {
          r := Err(ClockFailure);
        }
      }
    }
  }

  /** Along a round trip time only moves forward, whatever the two hooks are: the provider's
      clock before, the request, the row it creates in a server, the reply, and every stamp the
      observer's clock gives after. */
  lemma RoundTripIsOrdered(client: Timestamp, pt: int, before: Clocks, creation: Creation, rowPt: int, replyPt: int,
                           observer: Timestamp, next: int)
    requires Handled(before, Some(LocalRule(client, pt)), creation, rowPt, replyPt).1.Ok?
    ensures var request := LocalRule(client, pt);
            var (after, r) := Handled(before, Some(request), creation, rowPt, replyPt);
            var reply := BridgeClock(after);
            && Before(client, request) && Before(request, reply)
            && (before.Shared? ==> Before(request, r.value.row) && Before(r.value.row, reply))
            && Before(reply, LocalRule(MergeRule(observer, reply), next))
  {
    ReplyIsAfterTheMessage(before, LocalRule(client, pt), creation, rowPt, replyPt);
  }
}
