/** Request framing of synapse/server.py: one newline-terminated request per line, read from
    a socket that delivers the bytes in chunks of its own choosing. */
module LineFraming {
  import opened Bytes
  import opened Wrappers

  const READ_CHUNK := 65536
  const NEWLINE: Byte := 10

  /** What one recv brings. When nothing is left, recv reports the end of the stream. */
  datatype Recv = Data(chunk: seq<Byte>) | Timeout | Fault

  /** How the bytes stop coming. */
  datatype Ending = Eof | TimedOut | Broken

  function Stream(incoming: seq<Recv>): seq<Byte> {
    if incoming == [] || !incoming[0].Data? then [] else incoming[0].chunk + Stream(incoming[1..])
  }

  function EndingOf(incoming: seq<Recv>): Ending {
    if incoming == [] then Eof
    else match incoming[0]
      case Data(_) => EndingOf(incoming[1..])
      case Timeout => TimedOut
      case Fault => Broken
  }

  /** The position of the first newline, or the length. */
  function FindNewline(s: seq<Byte>): (p: nat)
    ensures p <= |s|
    ensures NEWLINE !in s[..p]
    ensures p < |s| ==> s[p] == NEWLINE
  {
    if s == [] || s[0] == NEWLINE then 0
    else
      var q := FindNewline(s[1..]);
      assert s[..1 + q] == [s[0]] + s[1..][..q];
      1 + q
  }

  /** `NoLine` closes the connection; `TooLarge` and `Failed` are raised. */
  datatype Outcome = Line(bytes: seq<Byte>) | NoLine | TooLarge | Failed

  /** The next line of a stream of which `s` is still unread, however it is cut. */
  function NextLine(s: seq<Byte>, ending: Ending, max: nat): (r: Outcome)
    ensures r.Line? ==> s != [] && |r.bytes| <= max && NEWLINE !in r.bytes
  {
    var p := FindNewline(s);
    if p > max then TooLarge
    else if p < |s| then Line(s[..p])
    else match ending
      case Eof => if s == [] then NoLine else Line(s)
      case TimedOut => NoLine
      case Broken => Failed
  }

  function AfterLine(s: seq<Byte>): (rest: seq<Byte>)
    ensures s != [] ==> |rest| < |s|
  {
    var p := FindNewline(s);
    if p < |s| then s[p + 1..] else []
  }

  datatype Reply = Answer(request: seq<Byte>) | EmptyRequest | RequestTooLarge

  function ReplyTo(line: seq<Byte>): Reply {
    if line == [] then EmptyRequest else Answer(line)
  }

  /** The replies of a connection, as a function of the bytes alone. */
  function Replies(s: seq<Byte>, ending: Ending, max: nat): seq<Reply>
    decreases |s|
  {
    match NextLine(s, ending, max)
    case Line(line) => [ReplyTo(line)] + Replies(AfterLine(s), ending, max)
    case TooLarge => [RequestTooLarge]
    case NoLine => []
    case Failed => []
  }

  /** With a listener token, the first line must be the token; it gets no reply. */
  function Session(token: Option<seq<Byte> -> bool>, s: seq<Byte>, ending: Ending, max: nat): seq<Reply> {
    if token.None? then Replies(s, ending, max)
    else match NextLine(s, ending, max)
      case Line(line) => if line != [] && token.value(line) then Replies(AfterLine(s), ending, max) else []
      case _ => []
  }

  class ConnectionHandler {
    const maxBytes: nat
    var buffer: seq<Byte>
    var incoming: seq<Recv>

    constructor (maxBytes: nat, incoming: seq<Recv>)
      ensures this.maxBytes == maxBytes && this.incoming == incoming && buffer == []
    {
      this.maxBytes, this.incoming, buffer := maxBytes, incoming, [];
    }

    /** recv returns between one and READ_CHUNK bytes. */
    ghost predicate Valid()
      reads this
    {
      && |buffer| <= maxBytes + READ_CHUNK
      && forall i :: 0 <= i < |incoming| ==> incoming[i].Data? ==> 0 < |incoming[i].chunk| <= READ_CHUNK
    }

    ghost function Unread(): seq<Byte>
      reads this
    {
      buffer + Stream(incoming)
    }

    /** The result and what is left depend on the unread bytes only, not on how they are split
        between the buffer and the chunks to come; the buffer stays within its bound. */
    method ReadLine() returns (r: Outcome)
      requires Valid()
      modifies this
      ensures Valid()
      ensures r == NextLine(old(Unread()), old(EndingOf(incoming)), maxBytes)
      ensures r.Line? ==> Unread() == AfterLine(old(Unread())) && EndingOf(incoming) == old(EndingOf(incoming))
    {
      ghost var all := Unread();
      while true
        invariant Valid()
        invariant Unread() == all && EndingOf(incoming) == old(EndingOf(incoming))
        decreases |incoming|
      {
        var newline := FindNewline(buffer);
        FirstNewline(buffer, Stream(incoming));
        if newline < |buffer| {
          var line := buffer[..newline];
          SlicesOfFront(buffer, Stream(incoming), newline);
          buffer := buffer[newline + 1..];
          if |line| > maxBytes {
            return TooLarge;
          }
          return Line(line);
        }
        if |buffer| > maxBytes {
          return TooLarge;
        }
        if incoming == [] {
          assert all == buffer;
          if buffer != [] {
            var line := buffer;
            buffer := [];
            return Line(line);
          }
          return NoLine;
        }
        var event := incoming[0];
        incoming := incoming[1..];
        match event {
          case Timeout =>
            assert all == buffer;
            return NoLine;
          case Fault =>
            assert all == buffer;
            return Failed;
          case Data(chunk) =>
            assert buffer + (chunk + Stream(incoming)) == (buffer + chunk) + Stream(incoming);
            buffer := buffer + chunk;
        }
      }
    }

    /** With a listener token, the first line decides whether the connection goes on. */
    method Admit(token: Option<seq<Byte> -> bool>) returns (ok: bool)
      requires Valid()
      modifies this
      ensures Valid()
      ensures token.None? ==> ok && Unread() == old(Unread()) && EndingOf(incoming) == old(EndingOf(incoming))
      ensures token.Some? ==>
                var opening := NextLine(old(Unread()), old(EndingOf(incoming)), maxBytes);
                && (ok <==> opening.Line? && opening.bytes != [] && token.value(opening.bytes))
                && (ok ==> Unread() == AfterLine(old(Unread())) && EndingOf(incoming) == old(EndingOf(incoming)))
    {
      if token.None? {
        return true;
      }
      var line := ReadLine();
      ok := line.Line? && line.bytes != [] && token.value(line.bytes);
    }

    /** The request loop. */
    method Serve() returns (replies: seq<Reply>)
      requires Valid()
      modifies this
      ensures Valid()
      ensures replies == Replies(old(Unread()), old(EndingOf(incoming)), maxBytes)
    {
      replies := [];
      ghost var all, ending := Unread(), EndingOf(incoming);
      while true
        invariant Valid()
        invariant EndingOf(incoming) == ending
        invariant Replies(all, ending, maxBytes) == replies + Replies(Unread(), ending, maxBytes)
        decreases |Unread()|
      {
        ghost var before, sent := Unread(), replies;
        var line := ReadLine();
        match line {
          case TooLarge =>
            replies := replies + [RequestTooLarge];
            return;
          case Failed =>
            return;
          case NoLine =>
            return;
          case Line(request) =>
            if request == [] {
              replies := replies + [EmptyRequest];
            } else {
              replies := replies + [Answer(request)];
            }
            OneReplyMore(before, sent, request, ending, maxBytes);
        }
      }
    }

    /** The replies sent, oldest first, before the connection is closed. With a listener token
        the requests that follow the opening line are answered if the line is the token, and not
        otherwise; without a complete opening line within the limit nothing is. */
    method Handle(token: Option<seq<Byte> -> bool>) returns (replies: seq<Reply>)
      requires Valid() && buffer == []
      modifies this
      ensures Valid()
      ensures replies == Session(token, old(Stream(incoming)), old(EndingOf(incoming)), maxBytes)
      ensures ServesFrames(token, old(Stream(incoming)), old(EndingOf(incoming)), maxBytes, replies)
    {
      ghost var s, ending := Stream(incoming), EndingOf(incoming);
      assert Unread() == s;
      var ok := Admit(token);
      if ok {
        replies := Serve();
      } else {
        replies := [];
      }
      SessionServesFrames(token, s, ending, maxBytes);
    }
  }

  lemma SlicesOfFront(a: seq<Byte>, b: seq<Byte>, p: nat)
    requires p < |a|
    ensures (a + b)[..p] == a[..p] && (a + b)[p + 1..] == a[p + 1..] + b
  {
  }

  lemma OneReplyMore(s: seq<Byte>, sent: seq<Reply>, line: seq<Byte>, ending: Ending, max: nat)
    requires NextLine(s, ending, max) == Line(line)
    ensures sent + Replies(s, ending, max) == (sent + [ReplyTo(line)]) + Replies(AfterLine(s), ending, max)
  {
  }

  lemma {:induction false} FirstNewline(a: seq<Byte>, b: seq<Byte>)
    ensures FindNewline(a + b) == if FindNewline(a) < |a| then FindNewline(a) else |a| + FindNewline(b)
  {
    if a == [] {
      assert a + b == b;
    } else {
      assert (a + b)[1..] == a[1..] + b;
      FirstNewline(a[1..], b);
    }
  }

  // ----- the client's side

  /** Each request followed by a newline. */
  function Frame(requests: seq<seq<Byte>>): seq<Byte> {
    if requests == [] then [] else requests[0] + [NEWLINE] + Frame(requests[1..])
  }

  function RepliesTo(requests: seq<seq<Byte>>): seq<Reply> {
    if requests == [] then [] else [ReplyTo(requests[0])] + RepliesTo(requests[1..])
  }

  predicate Sendable(request: seq<Byte>, max: nat) {
    NEWLINE !in request && |request| <= max
  }

  lemma NextOfFrame(request: seq<Byte>, rest: seq<Byte>, ending: Ending, max: nat)
    requires NEWLINE !in request
    ensures FindNewline(request + [NEWLINE] + rest) == |request|
    ensures AfterLine(request + [NEWLINE] + rest) == rest
    ensures NextLine(request + [NEWLINE] + rest, ending, max) == if |request| > max then TooLarge else Line(request)
  {
    var s := request + [NEWLINE] + rest;
    assert s == request + ([NEWLINE] + rest);
    FirstNewline(request, [NEWLINE] + rest);
    assert s[..|request|] == request && s[|request| + 1..] == rest;
  }

  predicate AllSendable(requests: seq<seq<Byte>>, max: nat) {
    forall r :: r in requests ==> Sendable(r, max)
  }

  /** One reply for each request, in order: an empty request is told so. */
  predicate AreAnswers(replies: seq<Reply>, requests: seq<seq<Byte>>) {
    && |replies| == |requests|
    && forall i :: 0 <= i < |replies| ==> replies[i] == if requests[i] == [] then EmptyRequest else Answer(requests[i])
  }

  lemma {:induction false} RepliesAreAnswers(requests: seq<seq<Byte>>)
    ensures AreAnswers(RepliesTo(requests), requests)
  {
    if requests != [] {
      RepliesAreAnswers(requests[1..]);
    }
  }

  /** Framed requests are each answered, in order, and then the rest of the stream is. */
  lemma {:induction false} FramedRequestsAreAnswered(requests: seq<seq<Byte>>, rest: seq<Byte>, ending: Ending, max: nat)
    requires AllSendable(requests, max)
    ensures Replies(Frame(requests) + rest, ending, max) == RepliesTo(requests) + Replies(rest, ending, max)
  {
    if requests == [] {
      assert Frame(requests) + rest == rest;
    } else {
      var next := Frame(requests[1..]) + rest;
      assert Sendable(requests[0], max);
      assert Frame(requests) + rest == requests[0] + [NEWLINE] + next;
      NextOfFrame(requests[0], next, ending, max);
      FramedRequestsAreAnswered(requests[1..], rest, ending, max);
    }
  }

  /** There is no complete line within the limit. */
  predicate IsTail(rest: seq<Byte>, max: nat) {
    forall i :: 0 <= i <= max && i < |rest| ==> rest[i] != NEWLINE
  }

  /** Every stream is a number of sendable requests and then either the end, an unterminated
      tail, or the first request over the limit. */
  lemma {:induction false} StreamSplits(s: seq<Byte>, max: nat) returns (requests: seq<seq<Byte>>, rest: seq<Byte>)
    ensures s == Frame(requests) + rest
    ensures AllSendable(requests, max)
    ensures IsTail(rest, max)
    decreases |s|
  {
    var p := FindNewline(s);
    if p < |s| && p <= max {
      var requests', rest' := StreamSplits(s[p + 1..], max);
      requests, rest := [s[..p]] + requests', rest';
      assert s == s[..p] + [NEWLINE] + s[p + 1..];
      assert requests[1..] == requests';
    } else {
      requests, rest := [], s;
      assert p == |s| ==> s[..p] == s;
    }
  }

  /** What follows the last sendable request is answered as one request if the stream ends
      there, is dropped if it is cut off, and is refused if it is over the limit. */
  lemma TailIsAnswered(rest: seq<Byte>, ending: Ending, max: nat)
    requires IsTail(rest, max)
    ensures Replies(rest, ending, max) ==
            if |rest| > max then [RequestTooLarge]
            else if ending == Eof && rest != [] then [Answer(rest)]
            else []
  {
    assert FindNewline(rest) < |rest| ==> rest[FindNewline(rest)] == NEWLINE;
  }

  lemma {:induction false} TailOnlyGains(rest: seq<Byte>, more: seq<Byte>, ending: Ending, max: nat)
    requires IsTail(rest, max)
    ensures Replies(rest, TimedOut, max) <= Replies(rest + more, ending, max)
  {
    TailIsAnswered(rest, TimedOut, max);
    if |rest| > max {
      FirstNewline(rest, more);
      assert FindNewline(rest) < |rest| ==> rest[FindNewline(rest)] == NEWLINE;
    }
  }

  /** What has been received is answered alike whatever still follows: bytes that arrive later
      only add replies, once a request in progress is terminated. */
  lemma {:induction false} LaterBytesOnlyAddReplies(s: seq<Byte>, more: seq<Byte>, ending: Ending, max: nat)
    ensures Replies(s, TimedOut, max) <= Replies(s + more, ending, max)
  {
    var requests, rest := StreamSplits(s, max);
    FramedRequestsAreAnswered(requests, rest, TimedOut, max);
    assert s + more == Frame(requests) + (rest + more);
    FramedRequestsAreAnswered(requests, rest + more, ending, max);
    TailOnlyGains(rest, more, ending, max);
  }

  // ----- connections with a listener token

  /** With a token a terminated first line within the limit decides the connection: if it is the
      token the rest is served as without one, and otherwise nothing is. */
  lemma OpeningDecides(accepts: seq<Byte> -> bool, opening: seq<Byte>, rest: seq<Byte>, ending: Ending, max: nat)
    requires NEWLINE !in opening
    ensures Session(Some(accepts), opening + [NEWLINE] + rest, ending, max) ==
            if 0 < |opening| <= max && accepts(opening) then Session(None, rest, ending, max) else []
  {
    NextOfFrame(opening, rest, ending, max);
  }

  /** Without a complete first line within the limit nothing is answered, not even an unterminated
      tail that is the token. */
  lemma NoOpeningNoReply(accepts: seq<Byte> -> bool, s: seq<Byte>, ending: Ending, max: nat)
    requires IsTail(s, max)
    ensures Session(Some(accepts), s, ending, max) == []
  {
    assert FindNewline(s) < |s| ==> s[FindNewline(s)] == NEWLINE;
  }

  /** The answers to the requests, and what becomes of the bytes after the last of them. */
  predicate AreReplies(replies: seq<Reply>, requests: seq<seq<Byte>>, rest: seq<Byte>, ending: Ending, max: nat) {
    && |requests| <= |replies| && AreAnswers(replies[..|requests|], requests)
    && replies[|requests|..] == if |rest| > max then [RequestTooLarge]
                                else if ending == Eof && rest != [] then [Answer(rest)]
                                else []
  }

  /** What a connection owes its client, however the bytes stop coming. With a token the requests
      that follow the opening line are served, if it is the token; without a complete opening
      line nothing is, not even an unterminated tail that is the token. */
  ghost predicate ServesFrames(token: Option<seq<Byte> -> bool>, s: seq<Byte>, ending: Ending, max: nat,
                               replies: seq<Reply>)
  {
    if token.None? then
      forall requests, rest :: AllSendable(requests, max) && IsTail(rest, max) && s == Frame(requests) + rest ==>
        AreReplies(replies, requests, rest, ending, max)
    else
      && (forall opening, requests, rest ::
            && Sendable(opening, max) && AllSendable(requests, max) && IsTail(rest, max)
            && s == Frame([opening] + requests) + rest ==>
              if opening != [] && token.value(opening) then AreReplies(replies, requests, rest, ending, max)
              else replies == [])
      && (IsTail(s, max) ==> replies == [])
  }

  lemma {:induction false} FramesAreServed(requests: seq<seq<Byte>>, rest: seq<Byte>, ending: Ending, max: nat)
    requires AllSendable(requests, max) && IsTail(rest, max)
    ensures AreReplies(Replies(Frame(requests) + rest, ending, max), requests, rest, ending, max)
  {
    FramedRequestsAreAnswered(requests, rest, ending, max);
    RepliesAreAnswers(requests);
    TailIsAnswered(rest, ending, max);
  }

  lemma {:induction false} AdmittedFramesAreServed(accepts: seq<Byte> -> bool, opening: seq<Byte>, requests: seq<seq<Byte>>,
                                                   rest: seq<Byte>, ending: Ending, max: nat)
    requires Sendable(opening, max) && AllSendable(requests, max) && IsTail(rest, max)
    ensures var replies := Session(Some(accepts), Frame([opening] + requests) + rest, ending, max);
            if opening != [] && accepts(opening) then AreReplies(replies, requests, rest, ending, max) else replies == []
  {
    assert ([opening] + requests)[1..] == requests;
    assert Frame([opening] + requests) + rest == opening + [NEWLINE] + (Frame(requests) + rest);
    OpeningDecides(accepts, opening, Frame(requests) + rest, ending, max);
    FramesAreServed(requests, rest, ending, max);
  }

  lemma {:induction false} SessionServesFrames(token: Option<seq<Byte> -> bool>, s: seq<Byte>, ending: Ending, max: nat)
    ensures ServesFrames(token, s, ending, max, Session(token, s, ending, max))
  {
    if token.None? {
      forall requests, rest | AllSendable(requests, max) && IsTail(rest, max) && s == Frame(requests) + rest
        ensures AreReplies(Session(token, s, ending, max), requests, rest, ending, max)
      {
        FramesAreServed(requests, rest, ending, max);
      }
    } else {
      forall opening, requests, rest | && Sendable(opening, max) && AllSendable(requests, max) && IsTail(rest, max)
                                       && s == Frame([opening] + requests) + rest
        ensures if opening != [] && token.value(opening)
                then AreReplies(Session(token, s, ending, max), requests, rest, ending, max)
                else Session(token, s, ending, max) == []
      {
        AdmittedFramesAreServed(token.value, opening, requests, rest, ending, max);
      }
      if IsTail(s, max) {
        NoOpeningNoReply(token.value, s, ending, max);
      }
    }
  }
}
