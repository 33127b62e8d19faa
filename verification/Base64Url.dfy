/** Unpadded URL-safe base64 (sections 3.2 and 5 of RFC 4648) as synapse/cursor.py uses it:
    padded encoding with trailing '=' stripped, and Python's lenient decoder after the
    padding has been put back. */
module Base64Url {
  import opened Bytes
  import opened TextOrder
  import opened Wrappers

  function SextetChar(n: int): (c: char)
    requires 0 <= n < 64
    ensures SextetValue(c) == n && c != '=' && c != '.' && c < 128 as char
  {
    if n < 26 then ('A' as int + n) as char
    else if n < 52 then ('a' as int + n - 26) as char
    else if n < 62 then ('0' as int + n - 52) as char
    else if n == 62 then '-' else '_'
  }

  /** -1 for a character outside the alphabet; the standard '+' and '/' are accepted too. */
  function SextetValue(c: char): (v: int)
    ensures -1 <= v < 64
  {
    if 'A' <= c <= 'Z' then c as int - 'A' as int
    else if 'a' <= c <= 'z' then c as int - 'a' as int + 26
    else if '0' <= c <= '9' then c as int - '0' as int + 52
    else if c == '-' || c == '+' then 62
    else if c == '_' || c == '/' then 63
    else -1
  }

  function Group3(a: Byte, b: Byte, c: Byte): string {
    [SextetChar(a / 4), SextetChar(a % 4 * 16 + b / 16), SextetChar(b % 16 * 4 + c / 64), SextetChar(c % 64)]
  }

  /** urlsafe_b64encode: groups of four characters, the last one padded. */
  function Padded(data: seq<Byte>): string {
    if |data| == 0 then ""
    else if |data| == 1 then [SextetChar(data[0] / 4), SextetChar(data[0] % 4 * 16), '=', '=']
    else if |data| == 2 then
      [SextetChar(data[0] / 4), SextetChar(data[0] % 4 * 16 + data[1] / 16), SextetChar(data[1] % 16 * 4), '=']
    else Group3(data[0], data[1], data[2]) + Padded(data[3..])
  }

  function StripPadding(s: string): string {
    if s != "" && s[|s| - 1] == '=' then StripPadding(s[..|s| - 1]) else s
  }

  function B64Url(data: seq<Byte>): string {
    StripPadding(Padded(data))
  }

  /** Python's non-strict scan: `quad` characters of the current group have been read,
      `left` holds their unused bits. Characters outside the alphabet are skipped; enough
      padding ends the scan. */
  function Scan(s: string, quad: int, left: int, pads: nat, out: seq<Byte>): Option<seq<Byte>>
    requires 0 <= quad < 4 && 0 <= left
    requires (quad == 1 ==> left < 64) && (quad == 2 ==> left < 16) && (quad == 3 ==> left < 4)
    decreases |s|
  {
    if s == "" then if quad == 0 then Some(out) else None
    else if s[0] == '=' then
      if quad >= 2 && quad + pads + 1 >= 4 then Some(out)
      else Scan(s[1..], quad, left, if quad >= 2 then pads + 1 else pads, out)
    else
      var v := SextetValue(s[0]);
      if v < 0 then Scan(s[1..], quad, left, pads, out)
      else if quad == 0 then Scan(s[1..], 1, v, 0, out)
      else if quad == 1 then Scan(s[1..], 2, v % 16, 0, out + [left * 4 + v / 16])
      else if quad == 2 then Scan(s[1..], 3, v % 4, 0, out + [left * 16 + v / 4])
      else Scan(s[1..], 0, 0, 0, out + [left * 64 + v])
  }

  /** "=" * (-n % 4), with Python's non-negative remainder. */
  function Padding(n: nat): string {
    if n % 4 == 0 then "" else if n % 4 == 3 then "=" else if n % 4 == 2 then "==" else "==="
  }

  /** None is the decoding error; a non-ASCII token is one. */
  function Unb64Url(token: string): Option<seq<Byte>> {
    if IsAscii(token) then Scan(token + Padding(|token|), 0, 0, 0, []) else None
  }

  // ----- the alphabet and the digits

  function Chars(first: char, n: nat): string
    requires first as int + n <= 128
  {
    seq(n, i requires 0 <= i < n => (first as int + i) as char)
  }

  /** Table 2 of RFC 4648. */
  const ALPHABET := Chars('A', 26) + Chars('a', 26) + Chars('0', 10) + "-_"

  lemma CharIsInAlphabet(v: int)
    requires 0 <= v < 64
    ensures SextetChar(v) == ALPHABET[v]
  {
  }

  /** Beyond the end of the data there are zeros. */
  function ByteAt(data: seq<Byte>, i: nat): Byte {
    if i < |data| then data[i] else 0
  }

  /** Character k of group g of the padded form is the one for a digit, or padding where the data
      has ended. */
  predicate Spells(data: seq<Byte>, g: nat, k: nat, digit: int) {
    && 0 <= digit < 64 && k < 4 && 4 * g + k < |Padded(data)|
    && Padded(data)[4 * g + k] == if k < 2 || 3 * g + k - 1 < |data| then ALPHABET[digit] else '='
  }

  /** The digits to base 64 of a number of three bytes. */
  datatype Digits = Digits(d0: int, d1: int, d2: int, d3: int)

  function NumberOf(d: Digits): int {
    64 * (64 * (64 * d.d0 + d.d1) + d.d2) + d.d3
  }

  /** Three bytes as a number to base 256. */
  function NumberAt(data: seq<Byte>, g: nat): int {
    256 * (256 * ByteAt(data, 3 * g) + ByteAt(data, 3 * g + 1)) + ByteAt(data, 3 * g + 2)
  }

  predicate SpellsAll(data: seq<Byte>, g: nat, d: Digits) {
    Spells(data, g, 0, d.d0) && Spells(data, g, 1, d.d1) && Spells(data, g, 2, d.d2) && Spells(data, g, 3, d.d3)
  }

  function Digits3(a: Byte, b: Byte, c: Byte): Digits {
    Digits(a / 4, a % 4 * 16 + b / 16, b % 16 * 4 + c / 64, c % 64)
  }

  lemma NumberOfDigits(a: Byte, b: Byte, c: Byte)
    ensures var d := Digits3(a, b, c);
            && NumberOf(d) == 256 * (256 * a + b) + c
            && 0 <= d.d0 < 64 && 0 <= d.d1 < 64 && 0 <= d.d2 < 64 && 0 <= d.d3 < 64
  {
  }

  lemma OneByteSpells(a: Byte)
    ensures SpellsAll([a], 0, Digits3(a, 0, 0))
  {
    NumberOfDigits(a, 0, 0);
    CharIsInAlphabet(a / 4);
    CharIsInAlphabet(a % 4 * 16);
  }

  lemma TwoBytesSpell(a: Byte, b: Byte)
    ensures SpellsAll([a, b], 0, Digits3(a, b, 0))
  {
    NumberOfDigits(a, b, 0);
    CharIsInAlphabet(a / 4);
    CharIsInAlphabet(a % 4 * 16 + b / 16);
    CharIsInAlphabet(b % 16 * 4);
  }

  lemma ThreeBytesSpell(data: seq<Byte>)
    requires |data| >= 3
    ensures SpellsAll(data, 0, Digits3(data[0], data[1], data[2]))
  {
    var d := Digits3(data[0], data[1], data[2]);
    NumberOfDigits(data[0], data[1], data[2]);
    CharIsInAlphabet(d.d0);
    CharIsInAlphabet(d.d1);
    CharIsInAlphabet(d.d2);
    CharIsInAlphabet(d.d3);
    var rest := Padded(data[3..]);
    assert Padded(data) == [SextetChar(d.d0), SextetChar(d.d1), SextetChar(d.d2), SextetChar(d.d3)] + rest;
  }

  lemma FirstGroup(data: seq<Byte>)
    requires data != []
    ensures SpellsAll(data, 0, Digits3(data[0], ByteAt(data, 1), ByteAt(data, 2)))
  {
    if |data| == 1 {
      assert data == [data[0]];
      OneByteSpells(data[0]);
    } else if |data| == 2 {
      assert data == [data[0], data[1]];
      TwoBytesSpell(data[0], data[1]);
    } else {
      ThreeBytesSpell(data);
    }
  }

  lemma {:induction false} CharOfTheRest(data: seq<Byte>, g: nat, k: nat, digit: int)
    requires |data| >= 3 && g > 0 && Spells(data[3..], g - 1, k, digit)
    ensures Spells(data, g, k, digit)
  {
    assert Padded(data) == Group3(data[0], data[1], data[2]) + Padded(data[3..]);
    assert 4 * g + k == 4 + (4 * (g - 1) + k);
  }

  lemma {:induction false} GroupOfTheRest(data: seq<Byte>, g: nat, d: Digits)
    requires |data| >= 3 && g > 0 && SpellsAll(data[3..], g - 1, d)
    ensures SpellsAll(data, g, d) && NumberAt(data, g) == NumberAt(data[3..], g - 1)
  {
    CharOfTheRest(data, g, 0, d.d0);
    CharOfTheRest(data, g, 1, d.d1);
    CharOfTheRest(data, g, 2, d.d2);
    CharOfTheRest(data, g, 3, d.d3);
  }

  /** Each three bytes, read as a number to base 256, are in the padded form four characters that
      stand for the same number to base 64. */
  lemma {:induction false} GroupsAreNumbers(data: seq<Byte>, g: nat) returns (d: Digits)
    requires 3 * g < |data|
    ensures SpellsAll(data, g, d) && NumberOf(d) == NumberAt(data, g)
  {
    if g == 0 {
      d := Digits3(data[0], ByteAt(data, 1), ByteAt(data, 2));
      NumberOfDigits(data[0], ByteAt(data, 1), ByteAt(data, 2));
      FirstGroup(data);
    } else {
      d := GroupsAreNumbers(data[3..], g - 1);
      GroupOfTheRest(data, g, d);
    }
  }

  // ----- stripping and restoring the padding

  predicate Clean(s: string) {
    forall i :: 0 <= i < |s| ==> s[i] != '=' && s[i] != '.' && s[i] < 128 as char
  }

  lemma {:induction false} PaddedSplits(data: seq<Byte>) returns (body: string)
    ensures Padded(data) == body + Padding(|body|) && Clean(body) && |body| % 4 != 1
  {
    if |data| == 0 {
      body := "";
    } else if |data| == 1 {
      body := [SextetChar(data[0] / 4), SextetChar(data[0] % 4 * 16)];
      assert Padding(2) == ['=', '='];
    } else if |data| == 2 {
      body := [SextetChar(data[0] / 4), SextetChar(data[0] % 4 * 16 + data[1] / 16), SextetChar(data[1] % 16 * 4)];
      assert Padding(3) == ['='];
    } else {
      var rest := PaddedSplits(data[3..]);
      var group := Group3(data[0], data[1], data[2]);
      body := CleanAppend(group, rest);
    }
  }

  lemma CleanAppend(group: string, rest: string) returns (body: string)
    requires |group| == 4 && Clean(group) && Clean(rest)
    ensures body == group + rest && Clean(body) && |body| % 4 == |rest| % 4
    ensures group + (rest + Padding(|rest|)) == body + Padding(|body|)
  {
    body := group + rest;
  }

  lemma StripOne(s: string)
    ensures StripPadding(s + "=") == StripPadding(s)
  {
    assert (s + "=")[..|s|] == s;
  }

  lemma StripRemovesPadding(body: string)
    requires Clean(body) && |body| % 4 != 1
    ensures StripPadding(body + Padding(|body|)) == body
  {
    assert StripPadding(body) == body;
    StripOne(body);
    StripOne(body + "=");
    assert body + "==" == body + "=" + "=" && body + "" == body;
  }

  /** The token contains neither '=' nor '.', and restoring the padding gives the padded form. */
  lemma TokenIsClean(data: seq<Byte>)
    ensures Clean(B64Url(data)) && B64Url(data) + Padding(|B64Url(data)|) == Padded(data)
  {
    var body := PaddedSplits(data);
    StripRemovesPadding(body);
  }

  // ----- round trip

  lemma {:induction false} ScanGroup(a: Byte, b: Byte, c: Byte, rest: string, out: seq<Byte>)
    ensures Scan(Group3(a, b, c) + rest, 0, 0, 0, out) == Scan(rest, 0, 0, 0, out + [a, b, c])
  {
    var s := Group3(a, b, c) + rest;
    var s1, s2, s3 := s[1..], s[2..], s[3..];
    assert s1[1..] == s2 && s2[1..] == s3 && s3[1..] == rest;
    var v0, v1, v2, v3 := SextetValue(s[0]), SextetValue(s1[0]), SextetValue(s2[0]), SextetValue(s3[0]);
    assert v0 == a / 4 && v1 == a % 4 * 16 + b / 16 && v2 == b % 16 * 4 + c / 64 && v3 == c % 64;
    assert v0 * 4 + v1 / 16 == a;
    assert v1 % 16 * 16 + v2 / 4 == b;
    assert v2 % 4 * 64 + v3 == c;
    assert Scan(s, 0, 0, 0, out) == Scan(s1, 1, v0, 0, out);
    assert Scan(s1, 1, v0, 0, out) == Scan(s2, 2, v1 % 16, 0, out + [a]);
    assert Scan(s2, 2, v1 % 16, 0, out + [a]) == Scan(s3, 3, v2 % 4, 0, out + [a] + [b]);
    assert Scan(s3, 3, v2 % 4, 0, out + [a] + [b]) == Scan(rest, 0, 0, 0, out + [a] + [b] + [c]);
    assert out + [a] + [b] + [c] == out + [a, b, c];
  }

  lemma ScanLast1(a: Byte, out: seq<Byte>)
    ensures Scan(Padded([a]), 0, 0, 0, out) == Some(out + [a])
  {
    var s := Padded([a]);
    var s1, s2, s3 := s[1..], s[2..], s[3..];
    assert s1[1..] == s2 && s2[1..] == s3;
    assert Scan(s, 0, 0, 0, out) == Scan(s1, 1, a / 4, 0, out);
    assert a / 4 * 4 + a % 4 * 16 / 16 == a;
    assert Scan(s1, 1, a / 4, 0, out) == Scan(s2, 2, a % 4 * 16 % 16, 0, out + [a]);
    assert Scan(s2, 2, a % 4 * 16 % 16, 0, out + [a]) == Scan(s3, 2, a % 4 * 16 % 16, 1, out + [a]);
  }

  lemma {:induction false} ScanLast2(a: Byte, b: Byte, out: seq<Byte>)
    ensures Scan(Padded([a, b]), 0, 0, 0, out) == Some(out + [a, b])
  {
    var s := Padded([a, b]);
    var s1, s2, s3 := s[1..], s[2..], s[3..];
    assert s1[1..] == s2 && s2[1..] == s3;
    var v1, v2 := a % 4 * 16 + b / 16, b % 16 * 4;
    assert Scan(s, 0, 0, 0, out) == Scan(s1, 1, a / 4, 0, out);
    assert a / 4 * 4 + v1 / 16 == a && v1 % 16 * 16 + v2 / 4 == b;
    assert Scan(s1, 1, a / 4, 0, out) == Scan(s2, 2, v1 % 16, 0, out + [a]);
    assert Scan(s2, 2, v1 % 16, 0, out + [a]) == Scan(s3, 3, v2 % 4, 0, out + [a] + [b]);
    assert out + [a] + [b] == out + [a, b];
  }

  lemma {:induction false} ScanPadded(data: seq<Byte>, out: seq<Byte>)
    ensures Scan(Padded(data), 0, 0, 0, out) == Some(out + data)
  {
    if |data| == 0 {
      assert out + data == out;
    } else if |data| == 1 {
      assert data == [data[0]];
      ScanLast1(data[0], out);
    } else if |data| == 2 {
      assert data == [data[0], data[1]];
      ScanLast2(data[0], data[1], out);
    } else {
      var a, b, c := data[0], data[1], data[2];
      ScanGroup(a, b, c, Padded(data[3..]), out);
      ScanPadded(data[3..], out + [a, b, c]);
      assert out + [a, b, c] + data[3..] == out + data;
    }
  }

  /** Decoding restores every byte string, of every length. */
  lemma RoundTrip(data: seq<Byte>)
    ensures Unb64Url(B64Url(data)) == Some(data)
  {
    TokenIsClean(data);
    ScanPadded(data, []);
    assert [] + data == data;
  }

  // ----- the decoder's tolerance

  /** The characters of the URL-safe and of the standard alphabet stand for their digits, and no
      others for any. */
  lemma ValuesOfBothAlphabets(c: char)
    ensures SextetValue(c) >= 0 ==> c == ALPHABET[SextetValue(c)] || (c, SextetValue(c)) in {('+', 62), ('/', 63)}
    ensures (exists v :: 0 <= v < 64 && c == ALPHABET[v]) || c == '+' || c == '/' ==> SextetValue(c) >= 0
  {
    if v :| 0 <= v < 64 && c == ALPHABET[v] {
      CharIsInAlphabet(v);
    }
  }

  /** Characters of neither alphabet are skipped wherever they are. */
  lemma {:induction false} OthersAreSkipped(a: string, c: char, b: string, quad: int, left: int, pads: nat, out: seq<Byte>)
    requires c != '=' && SextetValue(c) < 0
    requires 0 <= quad < 4 && 0 <= left
    requires (quad == 1 ==> left < 64) && (quad == 2 ==> left < 16) && (quad == 3 ==> left < 4)
    ensures Scan(a + [c] + b, quad, left, pads, out) == Scan(a + b, quad, left, pads, out)
  {
    if a == "" {
      assert ([c] + b)[1..] == b && a + [c] + b == [c] + b && a + b == b;
    } else {
      var v := SextetValue(a[0]);
      assert (a + [c] + b)[1..] == a[1..] + [c] + b && (a + b)[1..] == a[1..] + b;
      if a[0] == '=' {
        OthersAreSkipped(a[1..], c, b, quad, left, if quad >= 2 then pads + 1 else pads, out);
      } else if v < 0 {
        OthersAreSkipped(a[1..], c, b, quad, left, pads, out);
      } else if quad == 0 {
        OthersAreSkipped(a[1..], c, b, 1, v, 0, out);
      } else if quad == 1 {
        OthersAreSkipped(a[1..], c, b, 2, v % 16, 0, out + [left * 4 + v / 16]);
      } else if quad == 2 {
        OthersAreSkipped(a[1..], c, b, 3, v % 4, 0, out + [left * 16 + v / 4]);
      } else {
        OthersAreSkipped(a[1..], c, b, 0, 0, 0, out + [left * 64 + v]);
      }
    }
  }

  /** Every character stands for a digit. */
  predicate AllDigits(s: string) {
    forall i :: 0 <= i < |s| ==> s[i] != '=' && SextetValue(s[i]) >= 0
  }

  /** The bytes that the bits of n characters fill. */
  function BytesOf(n: nat): int {
    n / 4 * 3 + (if n % 4 > 1 then n % 4 - 1 else 0)
  }

  lemma FourMore(n: nat)
    requires n >= 4
    ensures Padding(n) == Padding(n - 4) && BytesOf(n) == BytesOf(n - 4) + 3 && n % 4 == (n - 4) % 4
  {
  }

  lemma ScanPadding(n: nat, left: int, out: seq<Byte>)
    requires n < 4 && 0 <= left && (n == 1 ==> left < 64) && (n == 2 ==> left < 16) && (n == 3 ==> left < 4)
    ensures Scan(Padding(n), n, left, 0, out) == if n == 1 then None else Some(out)
  {
    assert "=="[1..] == "=" && "==="[1..] == "==" && "="[1..] == "";
  }

  lemma NextDigit(s: string, n: nat, quad: int, left: int, out: seq<Byte>)
    requires s != "" && AllDigits(s) && 0 <= quad < 4 && 0 <= left && n == quad + |s|
    requires (quad == 1 ==> left < 64) && (quad == 2 ==> left < 16) && (quad == 3 ==> left < 4)
    ensures AllDigits(s[1..])
    ensures var v, rest := SextetValue(s[0]), s[1..] + Padding(n);
            Scan(s + Padding(n), quad, left, 0, out) ==
            if quad == 0 then Scan(rest, 1, v, 0, out)
            else if quad == 1 then Scan(rest, 2, v % 16, 0, out + [left * 4 + v / 16])
            else if quad == 2 then Scan(rest, 3, v % 4, 0, out + [left * 16 + v / 4])
            else Scan(rest, 0, 0, 0, out + [left * 64 + v])
  {
    assert (s + Padding(n))[1..] == s[1..] + Padding(n);
  }

  lemma {:induction false} ScanFails(s: string, n: nat, quad: int, left: int, out: seq<Byte>)
    requires AllDigits(s) && 0 <= quad < 4 && 0 <= left && n == quad + |s|
    requires (quad == 1 ==> left < 64) && (quad == 2 ==> left < 16) && (quad == 3 ==> left < 4)
    ensures Scan(s + Padding(n), quad, left, 0, out) == None <==> n % 4 == 1
  {
    if s == "" {
      assert s + Padding(n) == Padding(n);
      ScanPadding(n, left, out);
    } else {
      var v, rest := SextetValue(s[0]), s[1..];
      NextDigit(s, n, quad, left, out);
      if quad == 0 {
        ScanFails(rest, n, 1, v, out);
      } else if quad == 1 {
        ScanFails(rest, n, 2, v % 16, out + [left * 4 + v / 16]);
      } else if quad == 2 {
        ScanFails(rest, n, 3, v % 4, out + [left * 16 + v / 4]);
      } else {
        FourMore(n);
        ScanFails(rest, n - 4, 0, 0, out + [left * 64 + v]);
      }
    }
  }

  lemma {:induction false} ScanFills(s: string, n: nat, quad: int, left: int, out: seq<Byte>)
    requires AllDigits(s) && 0 <= quad < 4 && 0 <= left && n == quad + |s|
    requires (quad == 1 ==> left < 64) && (quad == 2 ==> left < 16) && (quad == 3 ==> left < 4)
    ensures var r := Scan(s + Padding(n), quad, left, 0, out);
            r.Some? ==> |r.value| == |out| + BytesOf(n) - BytesOf(quad)
  {
    if s == "" {
      assert s + Padding(n) == Padding(n);
      ScanPadding(n, left, out);
    } else {
      var v, rest := SextetValue(s[0]), s[1..];
      NextDigit(s, n, quad, left, out);
      if quad == 0 {
        ScanFills(rest, n, 1, v, out);
      } else if quad == 1 {
        ScanFills(rest, n, 2, v % 16, out + [left * 4 + v / 16]);
      } else if quad == 2 {
        ScanFills(rest, n, 3, v % 4, out + [left * 16 + v / 4]);
      } else {
        FourMore(n);
        ScanFills(rest, n - 4, 0, 0, out + [left * 64 + v]);
      }
    }
  }

  /** A token of digits of either alphabet decodes if and only if its length is not one more than
      a multiple of four, and then to as many bytes as its bits fill. */
  lemma DigitsDecodeExactlyWhen(token: string)
    requires AllDigits(token)
    ensures Unb64Url(token) == None <==> |token| % 4 == 1
    ensures Unb64Url(token).Some? ==> |Unb64Url(token).value| == |token| * 6 / 8
  {
    ScanFails(token, |token|, 0, 0, []);
    ScanFills(token, |token|, 0, 0, []);
  }
}
