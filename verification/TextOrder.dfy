/** SQLite's BINARY collation: TEXT values compare byte by byte, and a proper
    prefix comes first. */
module TextOrder {

  predicate TextBefore(a: string, b: string) {
    if b == [] then false
    else if a == [] then true
    else a[0] < b[0] || (a[0] == b[0] && TextBefore(a[1..], b[1..]))
  }

  lemma {:induction false} TextBeforeIrreflexive(a: string)
    ensures !TextBefore(a, a)
  {
    if a != [] {
      TextBeforeIrreflexive(a[1..]);
    }
  }

  lemma {:induction false} TextBeforeTransitive(a: string, b: string, c: string)
    requires TextBefore(a, b) && TextBefore(b, c)
    ensures TextBefore(a, c)
  {
    if a != [] && a[0] == b[0] == c[0] {
      TextBeforeTransitive(a[1..], b[1..], c[1..]);
    }
  }

  lemma {:induction false} TextBeforeTotal(a: string, b: string)
    ensures a == b || TextBefore(a, b) || TextBefore(b, a)
  {
    if a != [] && b != [] && a[0] == b[0] {
      TextBeforeTotal(a[1..], b[1..]);
      assert a == [a[0]] + a[1..];
      assert b == [b[0]] + b[1..];
    }
  }

  predicate IsAscii(s: string) {
    forall i :: 0 <= i < |s| ==> s[i] < 128 as char
  }

  /** Fixed-width fields: the first differing field decides. */
  lemma {:induction false} FixedWidthFields(a: string, x: string, b: string, y: string)
    requires |a| == |b|
    ensures TextBefore(a + x, b + y) <==> TextBefore(a, b) || (a == b && TextBefore(x, y))
  {
    if a == [] {
      assert a + x == x && b + y == y;
      TextBeforeIrreflexive(a);
    } else {
      FixedWidthFields(a[1..], x, b[1..], y);
      assert (a + x)[1..] == a[1..] + x;
      assert (b + y)[1..] == b[1..] + y;
      assert a == [a[0]] + a[1..];
      assert b == [b[0]] + b[1..];
    }
  }
}
