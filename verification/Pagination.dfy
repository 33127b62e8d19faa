/** Keyset pagination with bound cursors: the list handlers of synapse/service.py and the
    queries behind them. A table is the rows that match a request's fixed filters: it maps
    the sort key, a list of text columns that ends in a unique one, to created_at. */
module Pagination {
  import opened Wrappers
  import opened TextOrder
  import opened Listing
  import opened Cursor

  type Key = seq<string>

  type Rows = map<Key, string>

  datatype Sort = Ascending | Descending

  // ----- ORDER BY and the keyset condition

  /** Column by column, in text order. */
  predicate KeyBefore(a: Key, b: Key) {
    if b == [] then false
    else if a == [] then true
    else TextBefore(a[0], b[0]) || (a[0] == b[0] && KeyBefore(a[1..], b[1..]))
  }

  predicate KeyAfter(a: Key, b: Key) {
    KeyBefore(b, a)
  }

  function Order(sort: Sort): (Key, Key) -> bool {
    if sort == Ascending then KeyBefore else KeyAfter
  }

  /** The conditions the queries spell out, for one, two and three sort columns; the
      descending queries exchange the operands. */
  predicate After1(last: Key, a: string)
    requires |last| >= 1
  {
    TextBefore(last[0], a)
  }

  predicate After2(last: Key, a: string, b: string)
    requires |last| == 2
  {
    TextBefore(last[0], a) || (a == last[0] && TextBefore(last[1], b))
  }

  predicate After3(last: Key, a: string, b: string, c: string)
    requires |last| == 3
  {
    TextBefore(last[0], a) || (a == last[0] && TextBefore(last[1], b))
    || (a == last[0] && b == last[1] && TextBefore(last[2], c))
  }

  /** The spelled-out conditions are the sort order. */
  lemma ConditionsFollowTheOrder(last: Key, a: string, b: string, c: string)
    ensures |last| == 1 ==> (After1(last, a) <==> KeyBefore(last, [a]))
    ensures |last| == 2 ==> (After2(last, a, b) <==> KeyBefore(last, [a, b]))
    ensures |last| == 3 ==> (After3(last, a, b, c) <==> KeyBefore(last, [a, b, c]))
  {
    assert [a, b][1..] == [b] && [a, b, c][1..] == [b, c];
    if |last| == 1 {
      OneColumn(last, a);
    } else if |last| == 2 {
      OneColumn(last[1..], b);
    } else if |last| == 3 {
      ConditionsFollowTheOrder(last[1..], b, c, c);
    }
  }

  /** The order of keys is lexicographic: the first column in which they differ decides. */
  lemma {:induction false} KeysAreLexicographic(a: Key, b: Key)
    requires |a| == |b|
    ensures KeyBefore(a, b) <==> exists i :: 0 <= i < |a| && a[..i] == b[..i] && TextBefore(a[i], b[i])
  {
    if a != [] {
      var a', b' := a[1..], b[1..];
      KeysAreLexicographic(a', b');
      if i :| 0 <= i < |a'| && a[0] == b[0] && a'[..i] == b'[..i] && TextBefore(a'[i], b'[i]) {
        assert a[..i + 1] == [a[0]] + a'[..i] && b[..i + 1] == [b[0]] + b'[..i];
        assert TextBefore(a[i + 1], b[i + 1]);
      }
      if i :| 0 < i < |a| && a[..i] == b[..i] && TextBefore(a[i], b[i]) {
        assert a[..i][0] == a[0] && b[..i][0] == b[0];
        assert a'[..i - 1] == a[..i][1..] && b'[..i - 1] == b[..i][1..];
        assert TextBefore(a'[i - 1], b'[i - 1]);
      }
    }
  }

  lemma OneColumn(last: Key, a: string)
    requires |last| == 1
    ensures KeyBefore(last, [a]) <==> TextBefore(last[0], a)
  {
    assert last[1..] == [] && [a][1..] == [];
  }

  lemma {:induction false} KeyBeforeTransitive(a: Key, b: Key, c: Key)
    requires KeyBefore(a, b) && KeyBefore(b, c)
    ensures KeyBefore(a, c)
  {
    if a != [] {
      if TextBefore(a[0], b[0]) && TextBefore(b[0], c[0]) {
        TextBeforeTransitive(a[0], b[0], c[0]);
      } else if a[0] == b[0] == c[0] {
        KeyBeforeTransitive(a[1..], b[1..], c[1..]);
      }
    }
  }

  lemma {:induction false} KeyBeforeTotal(a: Key, b: Key)
    ensures a == b || KeyBefore(a, b) || KeyBefore(b, a)
    ensures !KeyBefore(a, a)
  {
    if a != [] {
      TextBeforeIrreflexive(a[0]);
      KeyBeforeTotal(a[1..], a[1..]);
    }
    if a != [] && b != [] {
      TextBeforeTotal(a[0], b[0]);
      if a[0] == b[0] {
        KeyBeforeTotal(a[1..], b[1..]);
        assert a == [a[0]] + a[1..] && b == [b[0]] + b[1..];
      }
    }
  }

  lemma OrderIsTotal(sort: Sort)
    ensures StrictTotal(Order(sort))
  {
    var lt := Order(sort);
    forall a ensures !lt(a, a) {
      KeyBeforeTotal(a, a);
    }
    forall a, b ensures a == b || lt(a, b) || lt(b, a) {
      KeyBeforeTotal(a, b);
    }
    forall a, b, c | lt(a, b) && lt(b, c) ensures lt(a, c) {
      if sort == Ascending {
        KeyBeforeTransitive(a, b, c);
      } else {
        KeyBeforeTransitive(c, b, a);
      }
    }
  }

  // ----- one page

  predicate InSnapshot(rows: Rows, boundary: string, key: Key)
    requires key in rows
  {
    !TextBefore(boundary, rows[key])   // created_at <= boundary
  }

  /** The rows a page query selects, before LIMIT. */
  function Selected(sort: Sort, rows: Rows, boundary: string, last: Option<Key>): set<Key> {
    set k | k in rows && InSnapshot(rows, boundary, k) && (last.None? || Order(sort)(last.value, k))
  }

  function Take<T>(s: seq<T>, n: nat): seq<T> {
    if n <= |s| then s[..n] else s
  }

  /** The given keys in sort order. */
  ghost function Listed(sort: Sort, keys: set<Key>): seq<Key> {
    OrderIsTotal(sort);
    ListOf(Order(sort), keys)
  }

  ghost function Query(sort: Sort, rows: Rows, boundary: string, last: Option<Key>, n: nat): seq<Key> {
    Take(Listed(sort, Selected(sort, rows, boundary, last)), n)
  }

  /** What identifies a request; the cursor is bound to it. */
  datatype Request = Request(cmd: string, user: string, sortName: string, filters: Filters)

  /** The position a cursor carries: single-column keys are followed by an empty string. */
  function Position(key: Key): seq<string> {
    if |key| == 1 then key + [""] else key
  }

  function KeyOfPosition(width: nat, last: seq<string>): Key {
    if width <= |last| then last[..width] else last
  }

  /** `_pagination`: where to resume, and the snapshot boundary. */
  function Resume(k: Signing, req: Request, width: nat, cursor: Option<string>, now: string)
    : Result<(Option<Key>, string), CursorError>
  {
    match cursor
    case None => Ok((None, now))
    case Some(text) =>
      match DecodeCursor(k, text)
      case Err(e) => Err(e)
      case Ok(p) =>
        if !Bound(p, req.cmd, req.user, req.sortName, Some(req.filters)) then Err(InvalidArgument)
        else Ok((if p.last.Some? && p.last.value != [] then Some(KeyOfPosition(width, p.last.value)) else None, p.boundary))
  }

  function NextCursor(k: Signing, req: Request, boundary: string, last: Key): string {
    EncodeCursor(k, BuildPayload(req.cmd, req.user, boundary, req.sortName, Some(Position(last)), Some(req.filters)))
  }

  datatype Page = Page(keys: seq<Key>, next: Option<string>)

  /** The cursors of one request: where a call with a cursor resumes, at what boundary, and
      the text that resumes after a key. */
  datatype Cursors = Cursors(
    resume: (Option<string>, string) -> Result<(Option<Key>, string), CursorError>,
    next: (string, Key) -> string)

  function CursorsOf(k: Signing, req: Request, width: nat): Cursors {
    Cursors((cursor, now) => Resume(k, req, width, cursor, now), (boundary, last) => NextCursor(k, req, boundary, last))
  }

  /** What a page query returns for the position to resume after and the boundary. */
  type Reader = (Option<Key>, string) -> seq<Key>

  /** One call of a list command, whose query asks for one row more than the page holds: the
      page and the cursor of the next one, or None. */
  function ListPage(cursors: Cursors, limit: nat, query: Reader, cursor: Option<string>, now: string)
    : Result<Page, CursorError>
    requires limit >= 1
  {
    match cursors.resume(cursor, now)
    case Err(e) => Err(e)
    case Ok((last, boundary)) => Ok(PageOf(cursors, limit, boundary, query(last, boundary)))
  }

  /** Of at most limit + 1 rows found, those of the page, and the cursor of the next one if
      there are more. */
  function PageOf(cursors: Cursors, limit: nat, boundary: string, found: seq<Key>): Page
    requires limit >= 1
  {
    var keys := Take(found, limit);
    Page(keys, if |found| > limit then Some(cursors.next(boundary, keys[|keys| - 1])) else None)
  }

  /** The page query of a list command over a table. */
  ghost function TableQuery(sort: Sort, rows: Rows, limit: nat): Reader {
    (last, boundary) => Query(sort, rows, boundary, last, limit + 1)
  }

  // ----- walking

  /** The table may gain rows, and nothing happens to those it has. */
  ghost predicate Gains(rows: Rows, later: Rows) {
    rows.Keys <= later.Keys && forall k :: k in rows ==> later[k] == rows[k]
  }

  /** Between two calls the table may gain rows stamped after the boundary, and nothing
      else happens to the rows the request matches. */
  ghost predicate Grows(rows: Rows, later: Rows, boundary: string) {
    && Gains(rows, later)
    && (forall k :: k in later && k !in rows ==> TextBefore(boundary, later[k]))
  }

  ghost predicate Stable(tables: nat -> Rows, boundary: string, width: nat) {
    && (forall i: nat :: Grows(tables(i), tables(i + 1), boundary))
    && (forall i: nat :: forall k :: k in tables(i) ==> |k| == width)
  }

  ghost function Snapshot(sort: Sort, rows: Rows, boundary: string): seq<Key> {
    Listed(sort, Selected(sort, rows, boundary, None))
  }

  lemma {:induction false} SnapshotIsFrozen(sort: Sort, tables: nat -> Rows, boundary: string, width: nat, i: nat)
    requires Stable(tables, boundary, width)
    ensures Selected(sort, tables(i), boundary, None) == Selected(sort, tables(0), boundary, None)
  {
    if i > 0 {
      SnapshotIsFrozen(sort, tables, boundary, width, i - 1);
      assert Grows(tables(i - 1), tables(i - 1 + 1), boundary);
      assert tables(i - 1 + 1) == tables(i);
    }
  }

  function Prior(all: seq<Key>, m: nat): Option<Key>
    requires m <= |all|
  {
    if m == 0 then None else Some(all[m - 1])
  }

  /** Resuming after element m - 1 of the snapshot selects the rest of it. */
  lemma ResumesAfter(sort: Sort, rows: Rows, boundary: string, all: seq<Key>, m: nat)
    requires Lists(Order(sort), all, Selected(sort, rows, boundary, None)) && m <= |all|
    ensures Listed(sort, Selected(sort, rows, boundary, Prior(all, m))) == all[m..]
  {
    OrderIsTotal(sort);
    var lt := Order(sort);
    var rest := Selected(sort, rows, boundary, Prior(all, m));
    forall k ensures k in all[m..] <==> k in rest {
      if k in rest {
        assert k in Elements(all);
        var j :| 0 <= j < |all| && all[j] == k;
        assert j >= m;
        assert all[m..][j - m] == k;
      }
      if k in all[m..] {
        var j :| m <= j < |all| && all[j] == k;
        assert m > 0 ==> lt(all[m - 1], all[j]);
        assert k in Elements(all);
      }
    }
    assert Elements(all[m..]) == rest;
    ListingIsUnique(lt, Listed(sort, rest), all[m..]);
  }

  /** A reader serves a list if it returns, from every position, the rest of it. */
  ghost predicate Serves(query: Reader, boundary: string, all: seq<Key>, limit: nat) {
    forall m :: 0 <= m <= |all| ==> ServesAt(query, boundary, all, limit, m)
  }

  predicate ServesAt(query: Reader, boundary: string, all: seq<Key>, limit: nat, m: nat)
    requires m <= |all|
  {
    query(Prior(all, m), boundary) == Take(all[m..], limit + 1)
  }

  /** Every table of a stable run serves the snapshot of the first. */
  lemma TablesServeTheSnapshot(sort: Sort, tables: nat -> Rows, boundary: string, width: nat, limit: nat, i: nat)
    requires Stable(tables, boundary, width)
    ensures Serves(TableQuery(sort, tables(i), limit), boundary, Snapshot(sort, tables(0), boundary), limit)
  {
    var all := Snapshot(sort, tables(0), boundary);
    SnapshotIsFrozen(sort, tables, boundary, width, i);
    forall m | 0 <= m <= |all|
      ensures ServesAt(TableQuery(sort, tables(i), limit), boundary, all, limit, m)
    {
      ResumesAfter(sort, tables(i), boundary, all, m);
    }
  }

  predicate HasWidth(all: seq<Key>, i: nat, width: nat)
    requires i < |all|
  {
    |all[i]| == width
  }

  ghost predicate AllOfWidth(all: seq<Key>, width: nat) {
    forall i :: 0 <= i < |all| ==> HasWidth(all, i, width)
  }

  lemma SnapshotKeysHaveWidth(sort: Sort, tables: nat -> Rows, boundary: string, width: nat)
    requires Stable(tables, boundary, width)
    ensures AllOfWidth(Snapshot(sort, tables(0), boundary), width)
  {
    var all := Snapshot(sort, tables(0), boundary);
    forall i | 0 <= i < |all| ensures HasWidth(all, i, width) {
      assert all[i] in Elements(all);
    }
  }

  /** A cursor resumes at the key and the boundary it was issued for, whenever it is used. */
  ghost predicate Faithful(cursors: Cursors, width: nat) {
    && (forall now :: cursors.resume(None, now) == Ok((None, now)))
    && (forall boundary, key, now :: |key| == width ==> Returns(cursors, boundary, key, now))
  }

  predicate Returns(cursors: Cursors, boundary: string, key: Key, now: string) {
    cursors.resume(Some(cursors.next(boundary, key)), now) == Ok((Some(key), boundary))
  }

  /** A cursor issued for a request resumes that request where and at the boundary it says, and
      under any other command, user, sort or filters it is an invalid argument. */
  lemma CursorServesItsRequestOnly(k: Signing, req: Request, other: Request, width: nat, boundary: string, last: Key,
                                   now: string)
    requires JsonRoundTrips(k) && 0 < width == |last|
    ensures Resume(k, other, width, Some(NextCursor(k, req, boundary, last)), now) ==
            if other == req then Ok((Some(last), boundary)) else Err(InvalidArgument)
  {
    CursorRoundTrip(k, BuildPayload(req.cmd, req.user, boundary, req.sortName, Some(Position(last)), Some(req.filters)));
    assert Position(last)[..width] == last;
  }

  /** What a cursor carries: the request, the boundary, and the position, of two columns at least. */
  lemma CursorCarries(k: Signing, req: Request, boundary: string, last: Key)
    requires JsonRoundTrips(k) && last != []
    ensures DecodeCursor(k, NextCursor(k, req, boundary, last)) ==
            Ok(Payload(1, req.cmd, req.user, boundary, req.sortName, Some(req.filters),
                       Some(if |last| == 1 then [last[0], ""] else last)))
  {
    assert |last| == 1 ==> last + [""] == [last[0], ""];
    CursorRoundTrip(k, BuildPayload(req.cmd, req.user, boundary, req.sortName, Some(Position(last)), Some(req.filters)));
  }

  lemma {:induction false} SignedCursorsAreFaithful(k: Signing, req: Request, width: nat)
    requires JsonRoundTrips(k) && 0 < width
    ensures Faithful(CursorsOf(k, req, width), width)
  {
    forall boundary: string, key: Key, now: string | |key| == width
      ensures Returns(CursorsOf(k, req, width), boundary, key, now)
    {
      CursorServesItsRequestOnly(k, req, req, width, boundary, key, now);
    }
  }

  /** The cursor text for position m of a list; None for the first page. */
  function CursorAt(cursors: Cursors, boundary: string, all: seq<Key>, m: nat): Option<string>
    requires m <= |all|
  {
    if m == 0 then None else Some(cursors.next(boundary, all[m - 1]))
  }

  /** The elements returned after i pages. */
  function Passed(i: nat, limit: nat, n: nat): (m: nat)
    ensures m <= n
  {
    if i == 0 then 0 else if Passed(i - 1, limit, n) + limit < n then Passed(i - 1, limit, n) + limit else n
  }

  lemma {:induction false} PassedIsBounded(i: nat, limit: nat, n: nat)
    ensures Passed(i, limit, n) == if i * limit < n then i * limit else n
  {
    if i > 0 {
      PassedIsBounded(i - 1, limit, n);
      assert i * limit == (i - 1) * limit + limit;
    }
  }

  function End(m: nat, limit: nat, n: nat): (end: nat)
    requires m <= n
    ensures m <= end <= n
  {
    if m + limit < n then m + limit else n
  }

  /** The next `limit` elements of the list from position m, and the cursor of the position
      after them if the list goes on. */
  function PageFrom(cursors: Cursors, limit: nat, boundary: string, all: seq<Key>, m: nat): Page
    requires m <= |all|
  {
    var end := End(m, limit, |all|);
    Page(all[m..end], if end < |all| then CursorAt(cursors, boundary, all, end) else None)
  }

  /** The call at position m returns the page from there. */
  lemma {:induction false} PageAt(cursors: Cursors, width: nat, limit: nat, query: Reader, boundary: string, now: string,
                                  all: seq<Key>, m: nat)
    requires Faithful(cursors, width) && limit >= 1 && m <= |all|
    requires Serves(query, boundary, all, limit)
    requires AllOfWidth(all, width)
    requires m == 0 ==> now == boundary
    ensures ListPage(cursors, limit, query, CursorAt(cursors, boundary, all, m), now) ==
            Ok(PageFrom(cursors, limit, boundary, all, m))
  {
    assert m > 0 ==> HasWidth(all, m - 1, width) && Returns(cursors, boundary, all[m - 1], now);
    assert ServesAt(query, boundary, all, limit, m);
    var rest := all[m..];
    var found := Take(rest, limit + 1);
    if |rest| > limit {
      assert Take(found, limit) == all[m..m + limit];
    } else {
      assert Take(found, limit) == rest == all[m..|all|];
    }
  }

  /** A walk: call i is answered by queries(i) and carries the cursor call i - 1 returned, the
      first one carries none, and the last one returns none. */
  ghost predicate IsWalk(cursors: Cursors, limit: nat, queries: nat -> Reader,
                         nows: nat -> string, pages: seq<Page>)
    requires limit >= 1
  {
    && pages != []
    && pages[|pages| - 1].next == None
    && IsWalkSoFar(cursors, limit, queries, nows, pages)
    && (forall i :: 0 <= i < |pages| - 1 ==> pages[i].next.Some?)
  }

  ghost predicate IsWalkSoFar(cursors: Cursors, limit: nat, queries: nat -> Reader, nows: nat -> string, pages: seq<Page>)
    requires limit >= 1
  {
    forall i :: 0 <= i < |pages| ==> Answers(cursors, limit, queries, nows, pages, i)
  }

  /** Page i answers a call with the cursor of page i - 1. */
  ghost predicate Answers(cursors: Cursors, limit: nat, queries: nat -> Reader, nows: nat -> string,
                          pages: seq<Page>, i: nat)
    requires limit >= 1 && i < |pages|
  {
    Ok(pages[i]) == ListPage(cursors, limit, queries(i), if i == 0 then None else pages[i - 1].next, nows(i))
  }

  function Concat(pages: seq<Page>): seq<Key> {
    if pages == [] then [] else Concat(pages[..|pages| - 1]) + pages[|pages| - 1].keys
  }

  ghost predicate CallServes(queries: nat -> Reader, i: nat, boundary: string, all: seq<Key>, limit: nat) {
    Serves(queries(i), boundary, all, limit)
  }

  /** The premises of a walk over one frozen list. */
  ghost predicate Walkable(cursors: Cursors, width: nat, limit: nat, queries: nat -> Reader, boundary: string,
                           all: seq<Key>)
  {
    && Faithful(cursors, width) && limit >= 1
    && (forall i: nat :: CallServes(queries, i, boundary, all, limit))
    && AllOfWidth(all, width)
  }

  /** Page i of a walk starts where i full pages end. */
  lemma {:induction false} WalkPage(cursors: Cursors, width: nat, limit: nat, queries: nat -> Reader,
                                    nows: nat -> string, pages: seq<Page>, all: seq<Key>, i: nat)
    requires Walkable(cursors, width, limit, queries, nows(0), all)
    requires IsWalk(cursors, limit, queries, nows, pages) && i < |pages|
    ensures pages[i] == PageFrom(cursors, limit, nows(0), all, Passed(i, limit, |all|))
    ensures i > 0 ==> Passed(i, limit, |all|) < |all|
  {
    var m := Passed(i, limit, |all|);
    if i > 0 {
      WalkPage(cursors, width, limit, queries, nows, pages, all, i - 1);
      assert pages[i - 1].next.Some?;
    }
    assert Answers(cursors, limit, queries, nows, pages, i) && CallServes(queries, i, nows(0), all, limit);
    PageAt(cursors, width, limit, queries(i), nows(0), nows(i), all, m);
  }

  /** Page i holds the elements that follow those of i full pages. */
  predicate CoversNext(pages: seq<Page>, limit: nat, all: seq<Key>, i: nat)
    requires i < |pages|
  {
    var m := Passed(i, limit, |all|);
    pages[i].keys == all[m..End(m, limit, |all|)]
  }

  lemma {:induction false} ConcatCovers(pages: seq<Page>, limit: nat, all: seq<Key>, n: nat)
    requires n <= |pages|
    requires forall i :: 0 <= i < n ==> CoversNext(pages, limit, all, i)
    ensures Concat(pages[..n]) == all[..Passed(n, limit, |all|)]
  {
    if n > 0 {
      ConcatCovers(pages, limit, all, n - 1);
      var m := Passed(n - 1, limit, |all|);
      assert CoversNext(pages, limit, all, n - 1);
      assert Passed(n, limit, |all|) == End(m, limit, |all|);
      assert pages[..n][..n - 1] == pages[..n - 1];
      assert all[..m] + all[m..End(m, limit, |all|)] == all[..End(m, limit, |all|)];
    }
  }

  lemma {:induction false} WalkCoversTheList(cursors: Cursors, width: nat, limit: nat, queries: nat -> Reader,
                                             nows: nat -> string, pages: seq<Page>, all: seq<Key>)
    requires Walkable(cursors, width, limit, queries, nows(0), all)
    requires IsWalk(cursors, limit, queries, nows, pages)
    ensures Concat(pages) == all
    ensures |pages| == PageCount(|all|, limit)
  {
    var n := |pages|;
    forall i | 0 <= i < n ensures CoversNext(pages, limit, all, i) {
      PageCovers(cursors, width, limit, queries, nows, pages, all, i);
    }
    PageCovers(cursors, width, limit, queries, nows, pages, all, n - 1);
    ConcatCovers(pages, limit, all, n);
    LastPageIsReached(n - 1, limit, |all|);
    assert pages[..n] == pages && all[..|all|] == all;
  }

  lemma {:induction false} PageCovers(cursors: Cursors, width: nat, limit: nat, queries: nat -> Reader,
                                      nows: nat -> string, pages: seq<Page>, all: seq<Key>, i: nat)
    requires Walkable(cursors, width, limit, queries, nows(0), all)
    requires IsWalk(cursors, limit, queries, nows, pages) && i < |pages|
    ensures CoversNext(pages, limit, all, i)
    ensures i > 0 ==> Passed(i, limit, |all|) < |all|
    ensures i == |pages| - 1 ==> End(Passed(i, limit, |all|), limit, |all|) == |all|
  {
    WalkPage(cursors, width, limit, queries, nows, pages, all, i);
  }

  /** max(1, ceil(n / limit)), the number of pages of a list of n elements. */
  function PageCount(n: nat, limit: nat): nat
    requires limit >= 1
  {
    if n <= limit then 1 else 1 + PageCount(n - limit, limit)
  }

  lemma {:induction false} PageCountIsTheCeiling(n: nat, limit: nat, c: nat)
    requires limit >= 1 && c >= 1
    ensures PageCount(n, limit) == c <==> n <= c * limit && (c == 1 || (c - 1) * limit < n)
  {
    if n > limit {
      assert c * limit == (c - 1) * limit + limit;
      if c > 1 {
        assert (c - 1) * limit == (c - 2) * limit + limit;
        PageCountIsTheCeiling(n - limit, limit, c - 1);
      }
    } else if c > 1 {
      assert (c - 1) * limit == (c - 2) * limit + limit && (c - 2) * limit >= 0;
    }
  }

  /** If the page after i full ones is the last, there are i + 1 of them. */
  lemma LastPageIsReached(i: nat, limit: nat, n: nat)
    requires limit >= 1
    requires i == 0 || Passed(i, limit, n) < n
    requires End(Passed(i, limit, n), limit, n) == n
    ensures Passed(i + 1, limit, n) == n && i + 1 == PageCount(n, limit)
  {
    PassedIsBounded(i, limit, n);
    PageCountIsTheCeiling(n, limit, i + 1);
    assert (i + 1) * limit == i * limit + limit;
  }

  ghost function Queries(sort: Sort, tables: nat -> Rows, limit: nat): nat -> Reader {
    (i: nat) => TableQuery(sort, tables(i), limit)
  }

  lemma StableTablesAreWalkable(k: Signing, req: Request, sort: Sort, tables: nat -> Rows, boundary: string,
                                width: nat, limit: nat)
    requires JsonRoundTrips(k) && limit >= 1 && 0 < width && Stable(tables, boundary, width)
    ensures Walkable(CursorsOf(k, req, width), width, limit, Queries(sort, tables, limit), boundary,
                     Snapshot(sort, tables(0), boundary))
  {
    SignedCursorsAreFaithful(k, req, width);
    SnapshotKeysHaveWidth(sort, tables, boundary, width);
    forall i: nat
      ensures CallServes(Queries(sort, tables, limit), i, boundary, Snapshot(sort, tables(0), boundary), limit)
    {
      TablesServeTheSnapshot(sort, tables, boundary, width, limit, i);
    }
  }

  /** The rows created up to the boundary, each once, in ascending or in descending order of key. */
  ghost predicate AreTheRows(sort: Sort, keys: seq<Key>, rows: Rows, boundary: string) {
    && (forall key :: key in keys <==> key in rows && !TextBefore(boundary, rows[key]))
    && (forall i, j :: 0 <= i < j < |keys| ==>
          if sort == Ascending then KeyBefore(keys[i], keys[j]) else KeyBefore(keys[j], keys[i]))
  }

  lemma ListedAreTheRows(sort: Sort, keys: seq<Key>, rows: Rows, boundary: string)
    requires Lists(Order(sort), keys, Selected(sort, rows, boundary, None))
    ensures AreTheRows(sort, keys, rows, boundary)
  {
    forall key ensures key in keys <==> key in rows && !TextBefore(boundary, rows[key]) {
      assert key in keys <==> key in Elements(keys);
    }
    forall i, j | 0 <= i < j < |keys| ensures Order(sort)(keys[i], keys[j]) {
    }
  }

  /** Following next_cursor from the first page until null yields exactly the rows within the
      boundary, each once and in order, in max(1, ceil(n / limit)) pages, whatever rows are
      inserted after the boundary meanwhile. */
  lemma WalkYieldsTheSnapshot(k: Signing, req: Request, sort: Sort, width: nat, tables: nat -> Rows, limit: nat,
                              nows: nat -> string, pages: seq<Page>)
    requires JsonRoundTrips(k) && limit >= 1 && 0 < width && Stable(tables, nows(0), width)
    requires IsWalk(CursorsOf(k, req, width), limit, Queries(sort, tables, limit), nows, pages)
    ensures Lists(Order(sort), Concat(pages), Selected(sort, tables(0), nows(0), None))
    ensures AreTheRows(sort, Concat(pages), tables(0), nows(0))
    ensures |pages| == PageCount(|Selected(sort, tables(0), nows(0), None)|, limit)
  {
    var all := Snapshot(sort, tables(0), nows(0));
    StableTablesAreWalkable(k, req, sort, tables, nows(0), width, limit);
    WalkCoversTheList(CursorsOf(k, req, width), width, limit, Queries(sort, tables, limit), nows, pages, all);
    OrderIsTotal(sort);
    ListingHasItsSize(Order(sort), all, Selected(sort, tables(0), nows(0), None));
    ListedAreTheRows(sort, all, tables(0), nows(0));
  }

  /** The walk always ends: a client that keeps following the cursor completes one. */
  lemma WalkEnds(k: Signing, req: Request, sort: Sort, width: nat, tables: nat -> Rows, limit: nat, nows: nat -> string)
    returns (pages: seq<Page>)
    requires JsonRoundTrips(k) && limit >= 1 && 0 < width && Stable(tables, nows(0), width)
    ensures IsWalk(CursorsOf(k, req, width), limit, Queries(sort, tables, limit), nows, pages)
  {
    var all := Snapshot(sort, tables(0), nows(0));
    StableTablesAreWalkable(k, req, sort, tables, nows(0), width, limit);
    pages := CompleteWalk(CursorsOf(k, req, width), width, limit, Queries(sort, tables, limit), nows, [], all, 0);
  }

  lemma {:induction false} CompleteWalk(cursors: Cursors, width: nat, limit: nat, queries: nat -> Reader,
                                        nows: nat -> string, sofar: seq<Page>, all: seq<Key>, m: nat)
    returns (pages: seq<Page>)
    requires Walkable(cursors, width, limit, queries, nows(0), all) && m <= |all|
    requires IsWalkSoFar(cursors, limit, queries, nows, sofar)
    requires forall i :: 0 <= i < |sofar| ==> sofar[i].next.Some?
    requires if sofar == [] then m == 0 else 0 < m && sofar[|sofar| - 1].next == CursorAt(cursors, nows(0), all, m)
    ensures IsWalk(cursors, limit, queries, nows, pages)
    decreases |all| - m
  {
    var i := |sofar|;
    assert CallServes(queries, i, nows(0), all, limit);
    PageAt(cursors, width, limit, queries(i), nows(0), nows(i), all, m);
    var page := ListPage(cursors, limit, queries(i), CursorAt(cursors, nows(0), all, m), nows(i)).value;
    pages := sofar + [page];
    forall j | 0 <= j < |pages| ensures Answers(cursors, limit, queries, nows, pages, j) {
      if j < i {
        assert Answers(cursors, limit, queries, nows, sofar, j);
      }
    }
    if page.next.Some? {
      pages := CompleteWalk(cursors, width, limit, queries, nows, pages, all, m + limit);
    }
  }

  // ----- the organization's agents

  datatype Account = Account(organization: string, human: bool, active: bool, createdAt: string)

  /** The conditions of `list_by_org`, in the order the code appends them. */
  datatype Clause =
    | InOrganization(name: string) | NotHuman | CreatedBy(boundary: string) | IsActive | After(username: string)

  predicate Satisfies(username: string, row: Account, clause: Clause) {
    match clause
    case InOrganization(name) => row.organization == name
    case NotHuman => !row.human
    case CreatedBy(boundary) => !TextBefore(boundary, row.createdAt)
    case IsActive => row.active
    case After(last) => TextBefore(last, username)
  }

  /** The organization's accounts a listing is about, as a table keyed by username. */
  function AgentRows(accounts: map<string, Account>, organization: string, activeOnly: bool, includeHumans: bool): Rows {
    map u | u in accounts && accounts[u].organization == organization
            && (includeHumans || !accounts[u].human) && (activeOnly ==> accounts[u].active)
      :: [u] := accounts[u].createdAt
  }

  /** The keys `list_by_org` selects, before LIMIT; without a boundary every account counts. */
  function AgentKeys(accounts: map<string, Account>, organization: string, after: Option<string>,
                     boundary: Option<string>, activeOnly: bool, includeHumans: bool): set<Key>
  {
    var rows := AgentRows(accounts, organization, activeOnly, includeHumans);
    set key | key in rows && (boundary.None? || InSnapshot(rows, boundary.value, key))
              && (after.None? || KeyBefore([after.value], key))
  }

  method ListByOrg(accounts: map<string, Account>, organization: string, limit: nat, after: Option<string>,
                   boundary: Option<string>, activeOnly: bool, includeHumans: bool) returns (keys: seq<Key>)
    ensures keys ==
            Take(Listed(Ascending, AgentKeys(accounts, organization, after, boundary, activeOnly, includeHumans)), limit)
  {
    var clauses := [InOrganization(organization)];
    if !includeHumans {
      clauses := clauses + [NotHuman];
    }
    if boundary.Some? {
      clauses := clauses + [CreatedBy(boundary.value)];
    }
    if activeOnly {
      clauses := clauses + [IsActive];
    }
    if after.Some? {
      clauses := clauses + [After(after.value)];
    }
    var found: set<Key> := set u | u in accounts && SatisfiesAll(u, accounts[u], clauses) :: [u];
    ClausesSelect(accounts, organization, after, boundary, activeOnly, includeHumans, clauses);
    OrderIsTotal(Ascending);
    keys := OrderBy(Order(Ascending), found);
    keys := Take(keys, limit);
  }

  predicate SatisfiesAll(username: string, row: Account, clauses: seq<Clause>) {
    forall c :: c in clauses ==> Satisfies(username, row, c)
  }

  lemma {:induction false} ClausesSelect(accounts: map<string, Account>, organization: string, after: Option<string>,
                      boundary: Option<string>, activeOnly: bool, includeHumans: bool, clauses: seq<Clause>)
    requires forall c :: c in clauses <==>
               || c == InOrganization(organization) || (!includeHumans && c == NotHuman)
               || (boundary.Some? && c == CreatedBy(boundary.value)) || (activeOnly && c == IsActive)
               || (after.Some? && c == After(after.value))
    ensures (set u | u in accounts && SatisfiesAll(u, accounts[u], clauses) :: [u])
            == AgentKeys(accounts, organization, after, boundary, activeOnly, includeHumans)
  {
    var rows := AgentRows(accounts, organization, activeOnly, includeHumans);
    var keys := AgentKeys(accounts, organization, after, boundary, activeOnly, includeHumans);
    forall u | u in accounts ensures SatisfiesAll(u, accounts[u], clauses) <==> [u] in keys {
      if after.Some? {
        OneColumn([after.value], u);
      }
      if SatisfiesAll(u, accounts[u], clauses) {
        assert InOrganization(organization) in clauses;
        assert !includeHumans ==> NotHuman in clauses;
        assert boundary.Some? ==> CreatedBy(boundary.value) in clauses;
        assert activeOnly ==> IsActive in clauses;
        assert after.Some? ==> After(after.value) in clauses;
        assert [u] in rows;
      }
    }
  }

  function AgentsRequest(organization: string): Request {
    Request("get_org_agents", organization, "username_asc", map[])
  }

  lemma AgentQuery(accounts: map<string, Account>, organization: string, last: Option<Key>, boundary: string, limit: nat)
    requires last.Some? ==> |last.value| == 1
    ensures var after := if last.None? then None else Some(last.value[0]);
            Take(Listed(Ascending, AgentKeys(accounts, organization, after, Some(boundary), false, true)), limit + 1)
            == Query(Ascending, AgentRows(accounts, organization, false, true), boundary, last, limit + 1)
  {
    var after := if last.None? then None else Some(last.value[0]);
    assert last.Some? ==> [after.value] == last.value;
    assert AgentKeys(accounts, organization, after, Some(boundary), false, true)
           == Selected(Ascending, AgentRows(accounts, organization, false, true), boundary, last);
  }

  /** `_org_get_agents`: one page of the organization's agents, humans and inactive ones
      included. */
  method GetOrgAgents(k: Signing, accounts: map<string, Account>, organization: string, limit: nat,
                      cursor: Option<string>, now: string) returns (answer: Result<Page, CursorError>)
    requires limit >= 1
    ensures answer ==
            ListPage(CursorsOf(k, Request("get_org_agents", organization, "username_asc", map[]), 1), limit,
                     TableQuery(Ascending, AgentRows(accounts, organization, false, true), limit), cursor, now)
  {
    var resumed := Resume(k, AgentsRequest(organization), 1, cursor, now);
    if resumed.Err? {
      return Err(resumed.error);
    }
    var (last, boundary) := resumed.value;
    var page := AgentsPage(CursorsOf(k, AgentsRequest(organization), 1), accounts, organization, limit, last, boundary);
    answer := Ok(page);
  }

  method AgentsPage(cursors: Cursors, accounts: map<string, Account>, organization: string, limit: nat,
                    last: Option<Key>, boundary: string) returns (page: Page)
    requires limit >= 1 && (last.Some? ==> |last.value| == 1)
    ensures page == PageOf(cursors, limit, boundary,
                           Query(Ascending, AgentRows(accounts, organization, false, true), boundary, last, limit + 1))
  {
    var found := AgentsFound(accounts, organization, limit, last, boundary);
    var keys := Take(found, limit);
    var next := None;
    if |found| > limit {
      next := Some(cursors.next(boundary, keys[|keys| - 1]));
    }
    page := Page(keys, next);
  }

  method AgentsFound(accounts: map<string, Account>, organization: string, limit: nat, last: Option<Key>,
                     boundary: string) returns (found: seq<Key>)
    requires last.Some? ==> |last.value| == 1
    ensures found == Query(Ascending, AgentRows(accounts, organization, false, true), boundary, last, limit + 1)
  {
    var after := if last.None? then None else Some(last.value[0]);
    found := ListByOrg(accounts, organization, limit + 1, after, Some(boundary), false, true);
    AgentQuery(accounts, organization, last, boundary, limit);
  }
}
