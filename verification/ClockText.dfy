/** The fixed-width TEXT form of a timestamp (synapse/hlc.py, `encode`, `decode`,
    `is_valid`). Strings are sequences of characters; `digitValue` is the digit
    table behind the regular expression's \d and Python's int(): it gives 0..9 to
    the ASCII digits, -1 to every other ASCII character, and may also give a digit
    value to characters outside ASCII, as Unicode does. */
module ClockText {
  import opened Wrappers
  import opened TextOrder
  import opened Timestamps

  const L_DIGITS: nat := 13
  const C_DIGITS: nat := 6
  const MAX_L := 9_999_999_999_999
  const MAX_C := 999_999

  datatype ClockError = OutOfRange | Malformed

  ghost predicate IsDigitTable(digitValue: char -> int) {
    forall c :: -1 <= digitValue(c) <= 9
                && ('0' <= c <= '9' ==> digitValue(c) == c as int - '0' as int)
                && (c < 128 as char && !('0' <= c <= '9') ==> digitValue(c) == -1)
  }

  function Pow10(k: nat): (p: nat)
    ensures p > 0
  {
    if k == 0 then 1 else 10 * Pow10(k - 1)
  }

  function DigitChar(d: int): char
    requires 0 <= d <= 9
  {
    ('0' as int + d) as char
  }

  /** `{n:0wd}` for a number of at most w digits. */
  function PadDecimal(n: nat, w: nat): (s: string)
    requires n < Pow10(w)
    ensures |s| == w
  {
    if w == 0 then "" else PadDecimal(n / 10, w - 1) + [DigitChar(n % 10)]
  }

  predicate InRange(t: Timestamp) {
    0 <= t.l <= MAX_L && 0 <= t.c <= MAX_C
  }

  lemma Widths()
    ensures Pow10(L_DIGITS) == MAX_L + 1
    ensures Pow10(C_DIGITS) == MAX_C + 1
  {
    assert Pow10(4) == 10_000;
    assert Pow10(8) == 100_000_000;
    assert Pow10(12) == 1_000_000_000_000;
  }

  function Text(t: Timestamp): (s: string)
    requires InRange(t)
    ensures |s| == L_DIGITS + 1 + C_DIGITS
  {
    Widths();
    PadDecimal(t.l, L_DIGITS) + "." + PadDecimal(t.c, C_DIGITS)
  }

  function Encode(t: Timestamp): Result<string, ClockError> {
    if InRange(t) then Ok(Text(t)) else Err(OutOfRange)
  }

  predicate AllDigits(digitValue: char -> int, s: string) {
    forall i :: 0 <= i < |s| ==> digitValue(s[i]) >= 0
  }

  predicate IsValid(digitValue: char -> int, s: string) {
    |s| == L_DIGITS + 1 + C_DIGITS
    && AllDigits(digitValue, s[..L_DIGITS])
    && s[L_DIGITS] == '.'
    && AllDigits(digitValue, s[L_DIGITS + 1..])
  }

  /** Python's int() on a string of digits. */
  function ValueOf(digitValue: char -> int, s: string): int {
    if s == [] then 0
    else ValueOf(digitValue, s[..|s| - 1]) * 10 + digitValue(s[|s| - 1])
  }

  function Decode(digitValue: char -> int, s: string): Result<Timestamp, ClockError> {
    if IsValid(digitValue, s)
    then Ok(Timestamp(ValueOf(digitValue, s[..L_DIGITS]), ValueOf(digitValue, s[L_DIGITS + 1..])))
    else Err(Malformed)
  }

  // ----- order

  lemma {:induction false} PadDecimalOrder(m: nat, n: nat, w: nat)
    requires m < Pow10(w) && n < Pow10(w)
    ensures TextBefore(PadDecimal(m, w), PadDecimal(n, w)) <==> m < n
    ensures PadDecimal(m, w) == PadDecimal(n, w) <==> m == n
  {
    if w > 0 {
      PadDecimalOrder(m / 10, n / 10, w - 1);
      var a, b := PadDecimal(m / 10, w - 1), PadDecimal(n / 10, w - 1);
      var x, y := [DigitChar(m % 10)], [DigitChar(n % 10)];
      FixedWidthFields(a, x, b, y);
      assert TextBefore(x, y) <==> m % 10 < n % 10;
      assert (a + x)[..w - 1] == a && (b + y)[..w - 1] == b;
      assert (a + x)[w - 1] == x[0] && (b + y)[w - 1] == y[0];
    }
  }

  lemma FieldsDecide(a: string, x: string, b: string, y: string)
    requires |a| == |b|
    ensures TextBefore(a + "." + x, b + "." + y) <==> TextBefore(a, b) || (a == b && TextBefore(x, y))
    ensures a + "." + x == b + "." + y <==> a == b && x == y
  {
    var s, t := a + "." + x, b + "." + y;
    assert s == a + ("." + x) && t == b + ("." + y);
    FixedWidthFields(a, "." + x, b, "." + y);
    FixedWidthFields(".", x, ".", y);
    TextBeforeIrreflexive(".");
    if s == t {
      assert s[..|a|] == a && t[..|a|] == b;
      assert s[|a| + 1..] == x && t[|a| + 1..] == y;
    }
  }

  /** Byte order of the text is lexicographic order of the pairs, over the whole range. */
  lemma {:induction false} TextOrderIsCausalOrder(s: Timestamp, t: Timestamp)
    requires InRange(s) && InRange(t)
    ensures TextBefore(Text(s), Text(t)) <==> Before(s, t)
    ensures Text(s) == Text(t) <==> s == t
  {
    Widths();
    PadDecimalOrder(s.l, t.l, L_DIGITS);
    PadDecimalOrder(s.c, t.c, C_DIGITS);
    FieldsDecide(PadDecimal(s.l, L_DIGITS), PadDecimal(s.c, C_DIGITS),
                 PadDecimal(t.l, L_DIGITS), PadDecimal(t.c, C_DIGITS));
  }

  // ----- round trips

  lemma {:induction false} ValueOfPadDecimal(digitValue: char -> int, n: nat, w: nat)
    requires IsDigitTable(digitValue) && n < Pow10(w)
    ensures AllDigits(digitValue, PadDecimal(n, w)) && IsAscii(PadDecimal(n, w))
    ensures ValueOf(digitValue, PadDecimal(n, w)) == n
  {
    if w > 0 {
      ValueOfPadDecimal(digitValue, n / 10, w - 1);
      var s := PadDecimal(n, w);
      assert s[..w - 1] == PadDecimal(n / 10, w - 1);
      assert s[w - 1] == DigitChar(n % 10);
      assert forall i :: 0 <= i < w - 1 ==> s[i] == PadDecimal(n / 10, w - 1)[i];
    }
  }

  lemma DecodeEncode(digitValue: char -> int, t: Timestamp)
    requires IsDigitTable(digitValue)
    requires InRange(t)
    ensures IsAscii(Text(t)) && Decode(digitValue, Text(t)) == Ok(t)
  {
    Widths();
    ValueOfPadDecimal(digitValue, t.l, L_DIGITS);
    ValueOfPadDecimal(digitValue, t.c, C_DIGITS);
    assert Text(t)[..L_DIGITS] == PadDecimal(t.l, L_DIGITS);
    assert Text(t)[L_DIGITS + 1..] == PadDecimal(t.c, C_DIGITS);
  }

  lemma {:induction false} DigitsAreNatural(digitValue: char -> int, s: string)
    requires AllDigits(digitValue, s)
    ensures ValueOf(digitValue, s) >= 0
  {
    if s != [] {
      var front := s[..|s| - 1];
      assert forall i :: 0 <= i < |front| ==> front[i] == s[i];
      DigitsAreNatural(digitValue, front);
    }
  }

  lemma DecodedIsNatural(digitValue: char -> int, s: string)
    requires IsValid(digitValue, s)
    ensures var t := Decode(digitValue, s).value; t.l >= 0 && t.c >= 0
  {
    DigitsAreNatural(digitValue, s[..L_DIGITS]);
    DigitsAreNatural(digitValue, s[L_DIGITS + 1..]);
  }

  lemma PadOneMore(v: nat, d: int, w: nat)
    requires 0 <= d <= 9 && v < Pow10(w)
    ensures v * 10 + d < Pow10(w + 1) && PadDecimal(v * 10 + d, w + 1) == PadDecimal(v, w) + [DigitChar(d)]
  {
    assert (v * 10 + d) / 10 == v && (v * 10 + d) % 10 == d;
  }

  lemma OnlyAsciiDigitsAreKept(digitValue: char -> int, c: char)
    requires IsDigitTable(digitValue) && digitValue(c) >= 0
    ensures digitValue(c) <= 9 && (DigitChar(digitValue(c)) == c <==> c < 128 as char)
  {
  }

  lemma AsciiOneMore(front: string, last: char)
    ensures IsAscii(front + [last]) <==> IsAscii(front) && last < 128 as char
  {
    assert (front + [last])[|front|] == last;
    assert forall i :: 0 <= i < |front| ==> (front + [last])[i] == front[i];
  }

  lemma {:induction false} PadDecimalOfValue(digitValue: char -> int, s: string)
    requires IsDigitTable(digitValue) && AllDigits(digitValue, s)
    ensures 0 <= ValueOf(digitValue, s) < Pow10(|s|)
    ensures PadDecimal(ValueOf(digitValue, s), |s|) == s <==> IsAscii(s)
  {
    if s != [] {
      var front, last := s[..|s| - 1], s[|s| - 1];
      var v, d := ValueOf(digitValue, front), digitValue(last);
      PadDecimalOfValue(digitValue, front);
      OnlyAsciiDigitsAreKept(digitValue, last);
      PadOneMore(v, d, |front|);
      assert s == front + [last];
      AsciiOneMore(front, last);
      LastElements(PadDecimal(v, |front|), front, DigitChar(d), last);
    }
  }

  lemma LastElements(a: string, b: string, x: char, y: char)
    ensures a + [x] == b + [y] <==> a == b && x == y
  {
    if a + [x] == b + [y] {
      assert (a + [x])[..|a|] == a && (b + [y])[..|b|] == b;
      assert (a + [x])[|a|] == x && (b + [y])[|b|] == y;
    }
  }

  /** Every accepted string decodes to an encodable pair, and encoding that pair
      gives the string back exactly when the string is ASCII. */
  lemma {:induction false} EncodeDecode(digitValue: char -> int, s: string)
    requires IsDigitTable(digitValue)
    requires IsValid(digitValue, s)
    ensures var t := Decode(digitValue, s).value;
            InRange(t) && (Encode(t) == Ok(s) <==> IsAscii(s))
  {
    Widths();
    var a, b := s[..L_DIGITS], s[L_DIGITS + 1..];
    PadDecimalOfValue(digitValue, a);
    PadDecimalOfValue(digitValue, b);
    assert s == a + "." + b;
    var t := Decode(digitValue, s).value;
    var text := Text(t);
    assert text[..L_DIGITS] == PadDecimal(t.l, L_DIGITS);
    assert text[L_DIGITS + 1..] == PadDecimal(t.c, C_DIGITS);
    assert IsAscii(s) <==> IsAscii(a) && IsAscii(b) by {
      if IsAscii(a) && IsAscii(b) {
        forall i | 0 <= i < |s| ensures s[i] < 128 as char {
          if i < L_DIGITS { assert a[i] == s[i]; }
          else if i > L_DIGITS { assert b[i - L_DIGITS - 1] == s[i]; }
        }
      }
    }
  }
}
