/** Signed pagination cursors (synapse/cursor.py). JSON and HMAC are parameters. */
module Cursor {
  import opened Wrappers
  import opened Base64Url
  import opened Bytes
  import opened TextOrder

  datatype FilterValue = Null | Text(text: string) | Texts(texts: seq<string>)

  type Filters = map<string, FilterValue>

  datatype Payload = Payload(
    v: int, cmd: string, user: string, boundary: string, sort: string,
    filters: Option<Filters>, last: Option<seq<string>>)

  const CURSOR_VERSION := 1

  /** The signing key, the HMAC of a token body under a key, and the JSON coding of a
      payload; `loads` gives None for text that is not a JSON object. */
  datatype Signing = Signing(
    key: seq<Byte>, mac: (seq<Byte>, string) -> seq<Byte>,
    dumps: Payload -> seq<Byte>, loads: seq<Byte> -> Option<Payload>)

  ghost predicate JsonRoundTrips(k: Signing) {
    forall p :: k.loads(k.dumps(p)) == Some(p)
  }

  /** InternalError: the body of a cursor is encoded to ASCII outside the guarded blocks. */
  datatype CursorError = InvalidArgument | InternalError

  function BuildPayload(cmd: string, user: string, boundary: string, sort: string,
                        last: Option<seq<string>>, filters: Option<Filters>): Payload {
    Payload(CURSOR_VERSION, cmd, user, boundary, sort, filters, last)
  }

  function EncodeCursor(k: Signing, p: Payload): string {
    var body := B64Url(k.dumps(p));
    body + "." + B64Url(k.mac(k.key, body))
  }

  /** str.split(".", 1): the text before the first dot and the text after it. */
  function SplitAtDot(s: string): (r: Option<(string, string)>)
    ensures r.Some? <==> '.' in s
    ensures r.Some? ==> s == r.value.0 + "." + r.value.1 && '.' !in r.value.0
  {
    if s == "" then None
    else if s[0] == '.' then Some(("", s[1..]))
    else
      match SplitAtDot(s[1..])
      case None => None
      case Some((head, tail)) => Some(([s[0]] + head, tail))
  }

  function DecodeCursor(k: Signing, cursor: string): Result<Payload, CursorError> {
    match SplitAtDot(cursor)
    case None => Err(InvalidArgument)
    case Some((body, signature)) =>
      if !IsAscii(body) then Err(InternalError)
      else if Unb64Url(signature) != Some(k.mac(k.key, body)) then Err(InvalidArgument)
      else
        match Unb64Url(body)
        case None => Err(InvalidArgument)
        case Some(raw) =>
          match k.loads(raw)
          case None => Err(InvalidArgument)
          case Some(p) => if p.v == CURSOR_VERSION then Ok(p) else Err(InvalidArgument)
  }

  /** `validate_cursor_binding`: an absent request filter stands for the empty object, an
      absent payload filter does not. */
  predicate Bound(p: Payload, cmd: string, user: string, sort: string, filters: Option<Filters>) {
    && p.cmd == cmd && p.user == user && p.sort == sort
    && p.filters == Some(if filters.None? then map[] else filters.value)
  }

  // ----- properties

  lemma {:induction false} SplitIsAtFirstDot(body: string, rest: string)
    requires '.' !in body
    ensures SplitAtDot(body + "." + rest) == Some((body, rest))
  {
    var s := body + "." + rest;
    if body == "" {
      assert s[0] == '.' && s[1..] == rest;
    } else {
      assert s[0] == body[0] && s[1..] == body[1..] + "." + rest;
      SplitIsAtFirstDot(body[1..], rest);
      assert [body[0]] + body[1..] == body;
    }
  }

  lemma SplitsIntoItsParts(k: Signing, p: Payload)
    ensures var body := B64Url(k.dumps(p));
            SplitAtDot(EncodeCursor(k, p)) == Some((body, B64Url(k.mac(k.key, body)))) && IsAscii(body)
  {
    var body := B64Url(k.dumps(p));
    TokenIsClean(k.dumps(p));
    SplitIsAtFirstDot(body, B64Url(k.mac(k.key, body)));
  }

  /** An issued cursor decodes to its payload, for every key and payload of the current
      version; a payload of any other version is refused. */
  lemma CursorRoundTrip(k: Signing, p: Payload)
    requires JsonRoundTrips(k)
    ensures DecodeCursor(k, EncodeCursor(k, p)) == if p.v == CURSOR_VERSION then Ok(p) else Err(InvalidArgument)
  {
    SplitsIntoItsParts(k, p);
    RoundTrip(k.dumps(p));
    RoundTrip(k.mac(k.key, B64Url(k.dumps(p))));
  }

  /** A cursor issued under one key is accepted under another exactly when the two keys sign
      its body alike. */
  lemma ForeignKeyIsRefused(k: Signing, other: seq<Byte>, p: Payload)
    requires JsonRoundTrips(k) && p.v == CURSOR_VERSION
    ensures var body := B64Url(k.dumps(p));
            DecodeCursor(k.(key := other), EncodeCursor(k, p)) ==
            if k.mac(other, body) == k.mac(k.key, body) then Ok(p) else Err(InvalidArgument)
  {
    SplitsIntoItsParts(k, p);
    RoundTrip(k.dumps(p));
    RoundTrip(k.mac(k.key, B64Url(k.dumps(p))));
  }

  /** Every refusal is INVALID_ARGUMENT, as documented, except that of a cursor with a dot
      and a character outside ASCII before it, which surfaces as an internal error. */
  lemma RefusalIsInvalidArgumentExactlyWhen(k: Signing, cursor: string)
    ensures DecodeCursor(k, cursor) == Err(InternalError) <==>
            exists i, j :: 0 <= i < j < |cursor| && cursor[i] >= 128 as char && cursor[j] == '.' && '.' !in cursor[..j]
  {
    var split := SplitAtDot(cursor);
    if split.Some? {
      var (body, rest) := split.value;
      assert cursor[|body|] == '.' && cursor[..|body|] == body;
      if !IsAscii(body) {
        var i :| 0 <= i < |body| && !(body[i] < 128 as char);
        assert cursor[i] == body[i];
      }
      forall i, j | 0 <= i < j < |cursor| && cursor[i] >= 128 as char && cursor[j] == '.' && '.' !in cursor[..j]
        ensures !IsAscii(body)
      {
        assert '.' in cursor[..|body| + 1];
        assert j == |body| by {
          assert cursor[..j] <= cursor && body + "." <= cursor;
        }
        assert cursor[i] == body[i];
      }
    }
  }
}
