/** ORDER BY: the listing of a finite set in a strict total order. */
module Listing {

  ghost predicate StrictTotal<K(!new)>(lt: (K, K) -> bool) {
    && (forall a :: !lt(a, a))
    && (forall a, b :: a == b || lt(a, b) || lt(b, a))
    && (forall a, b, c :: lt(a, b) && lt(b, c) ==> lt(a, c))
  }

  ghost predicate Increasing<K>(lt: (K, K) -> bool, s: seq<K>) {
    forall i, j :: 0 <= i < j < |s| ==> lt(s[i], s[j])
  }

  ghost function Elements<K>(s: seq<K>): set<K> {
    set k | k in s
  }

  ghost predicate Lists<K>(lt: (K, K) -> bool, s: seq<K>, ks: set<K>) {
    Increasing(lt, s) && Elements(s) == ks
  }

  lemma {:induction false} LeastExists<K(!new)>(lt: (K, K) -> bool, ks: set<K>) returns (least: K)
    requires StrictTotal(lt) && ks != {}
    ensures least in ks && forall k :: k in ks ==> k == least || lt(least, k)
  {
    least :| least in ks;
    var rest := ks - {least};
    assert forall k :: k in ks ==> k == least || k in rest;
    if rest != {} {
      var other := LeastExists(lt, rest);
      var first := least;
      least := if lt(first, other) then first else other;
      forall k | k in ks ensures k == least || lt(least, k) {
        if k != first {
          assert k in rest;
          assert k == other || lt(other, k);
        }
      }
    }
  }

  ghost function ListOf<K(!new)>(lt: (K, K) -> bool, ks: set<K>): (s: seq<K>)
    requires StrictTotal(lt)
    ensures Lists(lt, s, ks)
  {
    if ks == {} then []
    else
      assert exists least :: least in ks && forall k :: k in ks ==> k == least || lt(least, k) by {
        var least := LeastExists(lt, ks);
      }
      var least :| least in ks && forall k :: k in ks ==> k == least || lt(least, k);
      var rest := ListOf(lt, ks - {least});
      assert forall k :: k in rest <==> k in Elements(rest);
      [least] + rest
  }

  lemma NoElements<K>(s: seq<K>)
    ensures Elements(s) == {} <==> s == []
  {
    if s != [] {
      assert s[0] in Elements(s);
    }
  }

  /** A set has only one listing. */
  lemma {:induction false} ListingIsUnique<K(!new)>(lt: (K, K) -> bool, s: seq<K>, t: seq<K>)
    requires StrictTotal(lt) && Increasing(lt, s) && Increasing(lt, t) && Elements(s) == Elements(t)
    ensures s == t
  {
    if s == [] || t == [] {
      NoElements(s);
      NoElements(t);
    } else {
      assert s[0] in Elements(t) && t[0] in Elements(s);
      assert s[0] == t[0];
      forall k ensures k in Elements(s[1..]) <==> k in Elements(t[1..]) {
        assert k in Elements(s[1..]) <==> k in Elements(s) && k != s[0];
        assert k in Elements(t[1..]) <==> k in Elements(t) && k != t[0];
      }
      ListingIsUnique(lt, s[1..], t[1..]);
      assert s == [s[0]] + s[1..] && t == [t[0]] + t[1..];
    }
  }

  lemma {:induction false} ListingHasItsSize<K(!new)>(lt: (K, K) -> bool, s: seq<K>, ks: set<K>)
    requires StrictTotal(lt) && Lists(lt, s, ks)
    ensures |s| == |ks|
    decreases s
  {
    if s == [] {
      assert ks == {};
    } else {
      assert s[0] in Elements(s);
      assert Elements(s[1..]) == ks - {s[0]} by {
        forall k ensures k in Elements(s[1..]) <==> k in ks && k != s[0] {
          assert k in ks <==> k in Elements(s);
        }
      }
      ListingHasItsSize(lt, s[1..], ks - {s[0]});
    }
  }

  lemma SubsetIsSmaller<K>(a: set<K>, b: set<K>)
    requires a <= b
    ensures |a| <= |b|
  {
    assert b == a + (b - a);
  }

  /** The position of a new element: before everything larger. */
  function Place<K>(lt: (K, K) -> bool, s: seq<K>, x: K): (p: nat)
    ensures p <= |s|
    ensures forall i :: 0 <= i < p ==> !lt(x, s[i])
    ensures p < |s| ==> lt(x, s[p])
  {
    if s == [] || lt(x, s[0]) then 0 else 1 + Place(lt, s[1..], x)
  }

  /** A new element at its place. */
  lemma {:induction false} InsertionIsListed<K(!new)>(lt: (K, K) -> bool, s: seq<K>, ks: set<K>, x: K)
    requires StrictTotal(lt) && Lists(lt, s, ks) && x !in ks
    ensures var p := Place(lt, s, x);
            Lists(lt, s[..p] + [x] + s[p..], ks + {x})
  {
    var p := Place(lt, s, x);
    var t := s[..p] + [x] + s[p..];
    forall k ensures k in t <==> k in s || k == x {
      assert s == s[..p] + s[p..];
    }
    forall i | 0 <= i < p ensures lt(s[i], x) {
      assert s[i] in Elements(s);
    }
    forall i, j | 0 <= i < j < |t| ensures lt(t[i], t[j]) {
      if i < p && j > p {
        assert lt(s[i], s[j - 1]);
      } else if i == p && p < |s| && j > p + 1 {
        assert lt(s[p], s[j - 1]);
      }
    }
    assert Elements(t) == Elements(s) + {x};
  }

  /** The database's ORDER BY, by insertion. */
  method OrderBy<K(==,!new)>(lt: (K, K) -> bool, ks: set<K>) returns (s: seq<K>)
    requires StrictTotal(lt)
    ensures s == ListOf(lt, ks)
  {
    s := [];
    var todo := ks;
    while todo != {}
      invariant todo <= ks
      invariant Lists(lt, s, ks - todo)
      decreases todo
    {
      var x :| x in todo;
      var p := Place(lt, s, x);
      InsertionIsListed(lt, s, ks - todo, x);
      s := s[..p] + [x] + s[p..];
      todo := todo - {x};
      assert ks - todo == ks - (todo + {x}) + {x};
    }
    assert ks - todo == ks;
    ListingIsUnique(lt, s, ListOf(lt, ks));
  }
}
