/** Page walks over tables that change in any way between the calls. Rows stamped before the
    boundary may still be committed after the first page, because their time is read before
    the write lock is obtained, and rows may come and go under a filter. */
module ChangingTables {
  import opened Listing
  import opened Pagination
  import opened TextOrder
  import opened Wrappers

  /** The key has not been passed by a walk that has returned all keys up to `pos`. */
  predicate Ahead(sort: Sort, pos: Option<Key>, key: Key) {
    pos.None? || Order(sort)(pos.value, key)
  }

  /** The last key returned before call i. */
  function Pos(pages: seq<Page>, i: nat): Option<Key>
    requires i <= |pages|
  {
    if i == 0 || pages[i - 1].keys == [] then None else Some(pages[i - 1].keys[|pages[i - 1].keys| - 1])
  }

  /** The page holds the first rows after the position, and says whether there are more. */
  ghost predicate IsPageOf(sort: Sort, rows: Rows, boundary: string, pos: Option<Key>, limit: nat, page: Page) {
    var rest := Listed(sort, Selected(sort, rows, boundary, pos));
    page.keys == Take(rest, limit) && (page.next.Some? <==> |rest| > limit)
  }

  /** A walk over a changing table, as far as it has got. */
  ghost predicate WalksOn(sort: Sort, tables: nat -> Rows, boundary: string, limit: nat, pages: seq<Page>) {
    limit >= 1 && forall i :: 0 <= i < |pages| ==> IsPageAt(sort, tables, boundary, limit, pages, i)
  }

  /** A walk that has ended. */
  ghost predicate Walks(sort: Sort, tables: nat -> Rows, boundary: string, limit: nat, pages: seq<Page>) {
    WalksOn(sort, tables, boundary, limit, pages) && pages != [] && pages[|pages| - 1].next.None?
  }

  ghost predicate IsPageAt(sort: Sort, tables: nat -> Rows, boundary: string, limit: nat, pages: seq<Page>, i: nat)
    requires i < |pages|
  {
    && IsPageOf(sort, tables(i), boundary, Pos(pages, i), limit, pages[i])
    && (i < |pages| - 1 ==> pages[i].next.Some?)
  }

  lemma OnePage(cursors: Cursors, sort: Sort, rows: Rows, limit: nat, cursor: Option<string>, now: string,
                pos: Option<Key>, boundary: string, page: Page)
    requires limit >= 1 && cursors.resume(cursor, now) == Ok((pos, boundary))
    requires Ok(page) == ListPage(cursors, limit, TableQuery(sort, rows, limit), cursor, now)
    ensures IsPageOf(sort, rows, boundary, pos, limit, page)
    ensures page.next.Some? ==>
              page.keys != [] && page.keys[|page.keys| - 1] in rows
              && page.next == Some(cursors.next(boundary, page.keys[|page.keys| - 1]))
  {
    var rest := Listed(sort, Selected(sort, rows, boundary, pos));
    assert Take(Take(rest, limit + 1), limit) == Take(rest, limit);
    if page.next.Some? {
      assert page.keys[|page.keys| - 1] == rest[|page.keys| - 1];
      assert rest[|page.keys| - 1] in Elements(rest);
    }
  }

  /** The cursor a call after these pages carries. */
  function NextText(pages: seq<Page>): Option<string> {
    if pages == [] then None else pages[|pages| - 1].next
  }

  /** Such a call resumes at the position of the walk and at the first boundary. */
  predicate Resumes(cursors: Cursors, nows: nat -> string, pages: seq<Page>) {
    cursors.resume(NextText(pages), nows(|pages|)) == Ok((Pos(pages, |pages|), nows(0)))
  }

  /** The cursor call i returned, if any, is that of the last row of its page. */
  predicate LeadsOn(cursors: Cursors, tables: nat -> Rows, nows: nat -> string, pages: seq<Page>, i: nat)
    requires i < |pages|
  {
    pages[i].next.Some? ==>
      && pages[i].keys != [] && Pos(pages, i + 1).value in tables(i)
      && pages[i].next == Some(cursors.next(nows(0), Pos(pages, i + 1).value))
  }

  /** The calls of a client that follows the cursors, as far as it has got. */
  ghost predicate Calls(cursors: Cursors, sort: Sort, tables: nat -> Rows, limit: nat, nows: nat -> string,
                        pages: seq<Page>)
  {
    && limit >= 1 && IsWalkSoFar(cursors, limit, Queries(sort, tables, limit), nows, pages)
    && (forall i :: 0 <= i < |pages| - 1 ==> pages[i].next.Some?)
  }

  ghost predicate AllHaveWidth(tables: nat -> Rows, width: nat) {
    forall i: nat :: forall key :: key in tables(i) ==> |key| == width
  }

  lemma {:induction false} ResumedCall(cursors: Cursors, sort: Sort, tables: nat -> Rows, limit: nat, nows: nat -> string,
                                       pages: seq<Page>, i: nat)
    requires limit >= 1 && i < |pages| && Resumes(cursors, nows, pages[..i])
    requires Answers(cursors, limit, Queries(sort, tables, limit), nows, pages, i)
    ensures IsPageOf(sort, tables(i), nows(0), Pos(pages, i), limit, pages[i])
    ensures LeadsOn(cursors, tables, nows, pages, i)
  {
    OnePage(cursors, sort, tables(i), limit, NextText(pages[..i]), nows(i), Pos(pages, i), nows(0), pages[i]);
  }

  lemma {:induction false} NextCallResumes(cursors: Cursors, width: nat, tables: nat -> Rows, nows: nat -> string,
                                           pages: seq<Page>, i: nat)
    requires Faithful(cursors, width) && 0 < i <= |pages| && AllHaveWidth(tables, width)
    requires pages[i - 1].next.Some? && LeadsOn(cursors, tables, nows, pages, i - 1)
    ensures Resumes(cursors, nows, pages[..i])
  {
    assert Pos(pages, i).value in tables(i - 1);
    assert Returns(cursors, nows(0), Pos(pages, i).value, nows(i));
    assert Pos(pages[..i], i) == Pos(pages, i);
  }

  lemma {:induction false} CallReturnsItsPage(cursors: Cursors, width: nat, sort: Sort, tables: nat -> Rows, limit: nat,
                                              nows: nat -> string, pages: seq<Page>, i: nat)
    requires Faithful(cursors, width) && AllHaveWidth(tables, width) && i < |pages|
    requires Calls(cursors, sort, tables, limit, nows, pages)
    ensures IsPageOf(sort, tables(i), nows(0), Pos(pages, i), limit, pages[i])
    ensures LeadsOn(cursors, tables, nows, pages, i)
  {
    assert Resumes(cursors, nows, pages[..i]) by {
      if i > 0 {
        CallReturnsItsPage(cursors, width, sort, tables, limit, nows, pages, i - 1);
        NextCallResumes(cursors, width, tables, nows, pages, i);
      }
    }
    assert Answers(cursors, limit, Queries(sort, tables, limit), nows, pages, i);
    ResumedCall(cursors, sort, tables, limit, nows, pages, i);
  }

  /** Whoever follows the cursors of a list command walks over its table, and while there is a
      next cursor there is a next page. */
  lemma {:induction false} CallsWalk(cursors: Cursors, width: nat, sort: Sort, tables: nat -> Rows, limit: nat,
                                     nows: nat -> string, pages: seq<Page>)
    requires Faithful(cursors, width) && AllHaveWidth(tables, width)
    requires Calls(cursors, sort, tables, limit, nows, pages)
    ensures WalksOn(sort, tables, nows(0), limit, pages)
    ensures IsWalk(cursors, limit, Queries(sort, tables, limit), nows, pages) ==> Walks(sort, tables, nows(0), limit, pages)
    ensures pages == [] || pages[|pages| - 1].next.Some? ==> Resumes(cursors, nows, pages)
  {
    forall i | 0 <= i < |pages| ensures IsPageAt(sort, tables, nows(0), limit, pages, i) {
      CallReturnsItsPage(cursors, width, sort, tables, limit, nows, pages, i);
    }
    if pages != [] && pages[|pages| - 1].next.Some? {
      CallReturnsItsPage(cursors, width, sort, tables, limit, nows, pages, |pages| - 1);
      NextCallResumes(cursors, width, tables, nows, pages, |pages|);
      assert pages[..|pages|] == pages;
    }
  }

  /** Everything selected is on the page or after its last row. */
  lemma {:induction false} PageIsAPrefix(sort: Sort, rows: Rows, boundary: string, pos: Option<Key>, limit: nat, page: Page)
    requires IsPageOf(sort, rows, boundary, pos, limit, page) && limit >= 1
    ensures Increasing(Order(sort), page.keys)
    ensures forall key :: key in page.keys ==> key in Selected(sort, rows, boundary, pos)
    ensures page.next.Some? ==> page.keys != []
    ensures forall key :: key in Selected(sort, rows, boundary, pos) && key !in page.keys ==>
              page.next.Some? && Order(sort)(page.keys[|page.keys| - 1], key)
  {
    var selected := Selected(sort, rows, boundary, pos);
    var rest := Listed(sort, selected);
    forall key | key in page.keys ensures key in selected {
      assert key in Elements(rest);
    }
    assert forall i :: 0 <= i < |page.keys| ==> page.keys[i] == rest[i];
    forall key | key in selected && key !in page.keys
      ensures page.next.Some? && Order(sort)(page.keys[|page.keys| - 1], key)
    {
      assert key in Elements(rest);
      var j :| 0 <= j < |rest| && rest[j] == key;
      assert j >= |page.keys|;
      assert Order(sort)(rest[|page.keys| - 1], rest[j]);
    }
  }

  lemma {:induction false} GainsKeep(sort: Sort, tables: nat -> Rows, i: nat, j: nat, key: Key)
    requires (forall n: nat :: Gains(tables(n), tables(n + 1))) && i <= j && key in tables(i)
    ensures key in tables(j) && tables(j)[key] == tables(i)[key]
  {
    if i < j {
      GainsKeep(sort, tables, i, j - 1, key);
      assert Gains(tables(j - 1), tables(j - 1 + 1));
      assert tables(j - 1 + 1) == tables(j);
    }
  }

  lemma OrderIsTransitive(sort: Sort, a: Key, b: Key, c: Key)
    requires Order(sort)(a, b) && Order(sort)(b, c)
    ensures Order(sort)(a, c)
  {
    if sort == Ascending {
      KeyBeforeTransitive(a, b, c);
    } else {
      KeyBeforeTransitive(c, b, a);
    }
  }

  /** The next position is ahead. */
  lemma {:induction false} PositionAdvances(sort: Sort, tables: nat -> Rows, boundary: string, limit: nat,
                                            pages: seq<Page>, i: nat, key: Key)
    requires WalksOn(sort, tables, boundary, limit, pages) && i + 1 < |pages|
    requires Ahead(sort, Pos(pages, i + 1), key)
    ensures Pos(pages, i + 1).Some? && Ahead(sort, Pos(pages, i), key)
  {
    assert IsPageAt(sort, tables, boundary, limit, pages, i);
    PageIsAPrefix(sort, tables(i), boundary, Pos(pages, i), limit, pages[i]);
    var last := Pos(pages, i + 1).value;
    assert last in pages[i].keys;
    if Pos(pages, i).Some? {
      OrderIsTransitive(sort, Pos(pages, i).value, last, key);
    }
  }

  /** The position only moves ahead. */
  lemma {:induction false} PositionsIncrease(sort: Sort, tables: nat -> Rows, boundary: string, limit: nat,
                                             pages: seq<Page>, i: nat, j: nat, key: Key)
    requires WalksOn(sort, tables, boundary, limit, pages) && i <= j < |pages| && Ahead(sort, Pos(pages, j), key)
    ensures Ahead(sort, Pos(pages, i), key)
  {
    if i < j {
      PositionAdvances(sort, tables, boundary, limit, pages, j - 1, key);
      PositionsIncrease(sort, tables, boundary, limit, pages, i, j - 1, key);
    }
  }

  lemma {:induction false} OnSomePage(pages: seq<Page>, key: Key)
    ensures key in Concat(pages) <==> exists j :: 0 <= j < |pages| && key in pages[j].keys
  {
    if pages != [] {
      var front := pages[..|pages| - 1];
      OnSomePage(front, key);
      if key in Concat(front) {
        var j :| 0 <= j < |front| && key in front[j].keys;
        assert key in pages[j].keys;
      }
      forall j | 0 <= j < |pages| && key in pages[j].keys ensures key in Concat(pages) {
        assert j < |front| ==> key in front[j].keys;
      }
    }
  }

  /** The key is after all that was returned before call i, and not after what call i returned. */
  predicate PassedAt(sort: Sort, pages: seq<Page>, i: nat, key: Key) {
    i < |pages| && Ahead(sort, Pos(pages, i), key) && (i + 1 < |pages| ==> !Ahead(sort, Pos(pages, i + 1), key))
  }

  /** Every key is passed by exactly one call. */
  lemma {:induction false} PassedOnce(sort: Sort, tables: nat -> Rows, boundary: string, limit: nat,
                                      pages: seq<Page>, key: Key)
    returns (i: nat)
    requires Walks(sort, tables, boundary, limit, pages)
    ensures forall j: nat :: PassedAt(sort, pages, j, key) <==> j == i
  {
    i := 0;
    while i + 1 < |pages| && Ahead(sort, Pos(pages, i + 1), key)
      invariant i < |pages| && Ahead(sort, Pos(pages, i), key)
    {
      i := i + 1;
    }
    forall j: nat | PassedAt(sort, pages, j, key) ensures j == i {
      if j < i {
        PositionsIncrease(sort, tables, boundary, limit, pages, j + 1, i, key);
      } else if i < j {
        PositionsIncrease(sort, tables, boundary, limit, pages, i + 1, j, key);
      }
    }
  }

  lemma {:induction false} LastIsNotBefore(sort: Sort, keys: seq<Key>, key: Key)
    requires Increasing(Order(sort), keys) && key in keys
    ensures !Order(sort)(keys[|keys| - 1], key)
  {
    var n :| 0 <= n < |keys| && keys[n] == key;
    OrderIsTotal(sort);
    if n < |keys| - 1 {
      assert Order(sort)(keys[n], keys[|keys| - 1]);
    }
  }

  lemma {:induction false} ReturnedAsPassed(sort: Sort, tables: nat -> Rows, boundary: string, limit: nat,
                                            pages: seq<Page>, j: nat, key: Key)
    requires Walks(sort, tables, boundary, limit, pages) && j < |pages| && key in pages[j].keys
    ensures PassedAt(sort, pages, j, key) && key in tables(j) && InSnapshot(tables(j), boundary, key)
  {
    assert IsPageAt(sort, tables, boundary, limit, pages, j);
    PageIsAPrefix(sort, tables(j), boundary, Pos(pages, j), limit, pages[j]);
    LastIsNotBefore(sort, pages[j].keys, key);
  }

  /** However the table changes from call to call, the walk returns a row if and only if the row
      is in the table, within the boundary, at the one call that passes its key. */
  lemma {:induction false} ReturnedExactlyWhenThereAsPassed(sort: Sort, tables: nat -> Rows, boundary: string, limit: nat,
                                                            pages: seq<Page>, i: nat, key: Key)
    requires Walks(sort, tables, boundary, limit, pages) && PassedAt(sort, pages, i, key)
    ensures key in Concat(pages) <==> key in tables(i) && InSnapshot(tables(i), boundary, key)
  {
    OnSomePage(pages, key);
    assert IsPageAt(sort, tables, boundary, limit, pages, i);
    PageIsAPrefix(sort, tables(i), boundary, Pos(pages, i), limit, pages[i]);
    forall j | 0 <= j < |pages| && key in pages[j].keys
      ensures key in tables(i) && InSnapshot(tables(i), boundary, key)
    {
      ReturnedAsPassed(sort, tables, boundary, limit, pages, j, key);
      var once := PassedOnce(sort, tables, boundary, limit, pages, key);
      assert j == i;
    }
  }

  /** If the table only gains rows, whatever their created_at, a row that is first there at call
      a is returned if and only if it is within the boundary and its key was still ahead of all
      that had been returned. Rows there at the first call are always ahead. */
  lemma {:induction false} LateRowIsFoundExactlyWhenAhead(sort: Sort, tables: nat -> Rows, boundary: string, limit: nat,
                                                          pages: seq<Page>, a: nat, key: Key)
    requires Walks(sort, tables, boundary, limit, pages) && a < |pages|
    requires forall i: nat :: Gains(tables(i), tables(i + 1))
    requires key in tables(a) && (a > 0 ==> key !in tables(a - 1))
    ensures key in Concat(pages) <==> InSnapshot(tables(a), boundary, key) && Ahead(sort, Pos(pages, a), key)
    ensures a == 0 ==> Ahead(sort, Pos(pages, a), key)
  {
    var i := PassedOnce(sort, tables, boundary, limit, pages, key);
    assert PassedAt(sort, pages, i, key);
    ReturnedExactlyWhenThereAsPassed(sort, tables, boundary, limit, pages, i, key);
    if i < a {
      if key in tables(i) {
        GainsKeep(sort, tables, i, a - 1, key);
      }
      if Ahead(sort, Pos(pages, a), key) {
        PositionsIncrease(sort, tables, boundary, limit, pages, i + 1, a, key);
      }
    } else {
      GainsKeep(sort, tables, a, i, key);
      PositionsIncrease(sort, tables, boundary, limit, pages, a, i, key);
    }
  }

  /** Appending a page of keys that are all ahead. */
  lemma IncreasingAppend(sort: Sort, before: seq<Key>, keys: seq<Key>)
    requires Increasing(Order(sort), before) && Increasing(Order(sort), keys)
    requires before != [] ==> forall key :: key in keys ==> Order(sort)(before[|before| - 1], key)
    ensures Increasing(Order(sort), before + keys)
  {
    forall i, j | 0 <= i < j < |before + keys| ensures Order(sort)((before + keys)[i], (before + keys)[j]) {
      if i < |before| <= j {
        var key := keys[j - |before|];
        assert key in keys;
        if i < |before| - 1 {
          OrderIsTransitive(sort, before[i], before[|before| - 1], key);
        }
      }
    }
  }

  /** What the first n calls returned is in order and ends at the position of the walk. */
  ghost predicate InOrderUpTo(sort: Sort, pages: seq<Page>, n: nat)
    requires n <= |pages|
  {
    var keys := Concat(pages[..n]);
    && Increasing(Order(sort), keys)
    && (n == 0 ==> keys == [])
    && (0 < n < |pages| ==> keys != [] && Pos(pages, n) == Some(keys[|keys| - 1]))
  }

  lemma {:induction false} OnePageMore(sort: Sort, tables: nat -> Rows, boundary: string, limit: nat,
                                       pages: seq<Page>, n: nat)
    requires WalksOn(sort, tables, boundary, limit, pages) && n < |pages| && InOrderUpTo(sort, pages, n)
    ensures InOrderUpTo(sort, pages, n + 1)
  {
    ConcatOneMore(pages, n + 1);
    assert IsPageAt(sort, tables, boundary, limit, pages, n);
    PageIsAPrefix(sort, tables(n), boundary, Pos(pages, n), limit, pages[n]);
    IncreasingAppend(sort, Concat(pages[..n]), pages[n].keys);
  }

  lemma {:induction false} PagesAreInOrder(sort: Sort, tables: nat -> Rows, boundary: string, limit: nat,
                                           pages: seq<Page>, n: nat)
    requires WalksOn(sort, tables, boundary, limit, pages) && n <= |pages|
    ensures InOrderUpTo(sort, pages, n)
  {
    if n > 0 {
      PagesAreInOrder(sort, tables, boundary, limit, pages, n - 1);
      OnePageMore(sort, tables, boundary, limit, pages, n - 1);
    }
  }

  /** Whatever appears or goes, no row is returned twice and the order is kept. */
  lemma {:induction false} WalkIsIncreasing(sort: Sort, tables: nat -> Rows, boundary: string, limit: nat, pages: seq<Page>)
    requires Walks(sort, tables, boundary, limit, pages)
    ensures Increasing(Order(sort), Concat(pages))
  {
    PagesAreInOrder(sort, tables, boundary, limit, pages, |pages|);
    assert pages[..|pages|] == pages;
  }

  lemma ConcatOneMore(pages: seq<Page>, n: nat)
    requires 0 < n <= |pages|
    ensures Concat(pages[..n]) == Concat(pages[..n - 1]) + pages[n - 1].keys
  {
    assert pages[..n][..n - 1] == pages[..n - 1];
  }

  // ----- how long a walk is

  /** Every row within the boundary, at whatever call, is one of these. */
  ghost predicate Confined(sort: Sort, tables: nat -> Rows, boundary: string, all: set<Key>) {
    forall i: nat :: Selected(sort, tables(i), boundary, None) <= all
  }

  /** Pages that have a next cursor are full. */
  lemma {:induction false} FullPages(sort: Sort, tables: nat -> Rows, boundary: string, limit: nat,
                                     pages: seq<Page>, n: nat)
    requires WalksOn(sort, tables, boundary, limit, pages) && n <= |pages|
    requires n == |pages| > 0 ==> pages[n - 1].next.Some?
    ensures |Concat(pages[..n])| == n * limit
  {
    if n > 0 {
      FullPages(sort, tables, boundary, limit, pages, n - 1);
      ConcatOneMore(pages, n);
      assert IsPageAt(sort, tables, boundary, limit, pages, n - 1);
      assert n * limit == (n - 1) * limit + limit;
    }
  }

  lemma {:induction false} ReturnedIsConfined(sort: Sort, tables: nat -> Rows, boundary: string, limit: nat,
                                              pages: seq<Page>, all: set<Key>)
    requires WalksOn(sort, tables, boundary, limit, pages) && Confined(sort, tables, boundary, all)
    ensures Elements(Concat(pages)) <= all
  {
    forall key | key in Concat(pages) ensures key in all {
      OnSomePage(pages, key);
      var j :| 0 <= j < |pages| && key in pages[j].keys;
      assert IsPageAt(sort, tables, boundary, limit, pages, j);
      PageIsAPrefix(sort, tables(j), boundary, Pos(pages, j), limit, pages[j]);
      assert key in Selected(sort, tables(j), boundary, None);
    }
  }

  /** A walk returns no more rows than there ever are within the boundary. */
  lemma {:induction false} ReturnedIsNoMore(sort: Sort, tables: nat -> Rows, boundary: string, limit: nat,
                                            pages: seq<Page>, all: set<Key>)
    requires WalksOn(sort, tables, boundary, limit, pages) && Confined(sort, tables, boundary, all)
    ensures |Concat(pages)| <= |all|
  {
    PagesAreInOrder(sort, tables, boundary, limit, pages, |pages|);
    assert pages[..|pages|] == pages;
    OrderIsTotal(sort);
    ListingHasItsSize(Order(sort), Concat(pages), Elements(Concat(pages)));
    ReturnedIsConfined(sort, tables, boundary, limit, pages, all);
    SubsetIsSmaller(Elements(Concat(pages)), all);
  }

  lemma ConcatGrows(pages: seq<Page>)
    requires pages != []
    ensures |Concat(pages[..|pages| - 1])| <= |Concat(pages)|
  {
  }

  /** However the table changes, all pages of a walk but the last are full, so that if only
      finitely many rows are ever within the boundary, a client gets at most that many full
      pages and one more. */
  lemma {:induction false} WalksAreShort(sort: Sort, tables: nat -> Rows, boundary: string, limit: nat,
                                         pages: seq<Page>, all: set<Key>)
    requires WalksOn(sort, tables, boundary, limit, pages) && Confined(sort, tables, boundary, all) && pages != []
    ensures (|pages| - 1) * limit <= |Concat(pages)| <= |all|
    ensures pages[|pages| - 1].next.Some? ==> |pages| * limit <= |all|
  {
    var n := |pages| - 1;
    FullPages(sort, tables, boundary, limit, pages, n);
    ConcatGrows(pages);
    ReturnedIsNoMore(sort, tables, boundary, limit, pages, all);
    if pages[n].next.Some? {
      FullPages(sort, tables, boundary, limit, pages, n + 1);
      assert pages[..n + 1] == pages;
    }
  }

  /** And then every walk ends: however far a client has got, it reaches the null. */
  lemma {:induction false} ChangingWalkEnds(cursors: Cursors, width: nat, sort: Sort, tables: nat -> Rows, limit: nat,
                                            nows: nat -> string, all: set<Key>, sofar: seq<Page>)
    returns (pages: seq<Page>)
    requires Faithful(cursors, width) && AllHaveWidth(tables, width) && Confined(sort, tables, nows(0), all)
    requires Calls(cursors, sort, tables, limit, nows, sofar)
    ensures IsWalk(cursors, limit, Queries(sort, tables, limit), nows, pages) && sofar <= pages
    decreases |all| + 1 - |sofar|
  {
    if sofar != [] && sofar[|sofar| - 1].next.None? {
      pages := sofar;
    } else {
      WalkIsShortSoFar(cursors, width, sort, tables, limit, nows, all, sofar);
      var page := NextPage(cursors, sort, tables, limit, nows, sofar);
      pages := ChangingWalkEnds(cursors, width, sort, tables, limit, nows, all, sofar + [page]);
    }
  }

  lemma {:induction false} WalkIsShortSoFar(cursors: Cursors, width: nat, sort: Sort, tables: nat -> Rows, limit: nat,
                                            nows: nat -> string, all: set<Key>, sofar: seq<Page>)
    requires Faithful(cursors, width) && AllHaveWidth(tables, width) && Confined(sort, tables, nows(0), all)
    requires Calls(cursors, sort, tables, limit, nows, sofar) && (sofar == [] || sofar[|sofar| - 1].next.Some?)
    ensures Resumes(cursors, nows, sofar) && |sofar| <= |all|
  {
    CallsWalk(cursors, width, sort, tables, limit, nows, sofar);
    if sofar != [] {
      WalksAreShort(sort, tables, nows(0), limit, sofar, all);
      TimesAtLeastOne(|sofar|, limit);
    }
  }

  lemma TimesAtLeastOne(n: nat, limit: nat)
    requires limit >= 1
    ensures n <= n * limit
  {
  }

  lemma {:induction false} NextPage(cursors: Cursors, sort: Sort, tables: nat -> Rows, limit: nat, nows: nat -> string,
                                    sofar: seq<Page>) returns (page: Page)
    requires Calls(cursors, sort, tables, limit, nows, sofar) && (sofar == [] || sofar[|sofar| - 1].next.Some?)
    requires Resumes(cursors, nows, sofar)
    ensures Calls(cursors, sort, tables, limit, nows, sofar + [page])
  {
    page := ListPage(cursors, limit, Queries(sort, tables, limit)(|sofar|), NextText(sofar), nows(|sofar|)).value;
    var pages := sofar + [page];
    forall i | 0 <= i < |pages| ensures Answers(cursors, limit, Queries(sort, tables, limit), nows, pages, i) {
      assert i < |sofar| ==> Answers(cursors, limit, Queries(sort, tables, limit), nows, sofar, i);
    }
  }

  /** Of a table that only gains rows the last of several pages is not empty either, so that the
      number of pages is the ceiling for the rows returned. */
  lemma {:induction false} GainingWalkPages(sort: Sort, tables: nat -> Rows, boundary: string, limit: nat, pages: seq<Page>)
    requires Walks(sort, tables, boundary, limit, pages) && forall i: nat :: Gains(tables(i), tables(i + 1))
    ensures |pages| == PageCount(|Concat(pages)|, limit)
  {
    var n := |pages| - 1;
    FullPages(sort, tables, boundary, limit, pages, n);
    if n > 0 {
      LastPageHasARow(sort, tables, boundary, limit, pages);
    }
    ConcatOneMore(pages, n + 1);
    assert pages[..n + 1] == pages;
    assert |pages[n].keys| <= limit by {
      assert IsPageAt(sort, tables, boundary, limit, pages, n);
    }
    assert (n + 1) * limit == n * limit + limit;
    PageCountIsTheCeiling(|Concat(pages)|, limit, n + 1);
  }

  lemma {:induction false} LastPageHasARow(sort: Sort, tables: nat -> Rows, boundary: string, limit: nat, pages: seq<Page>)
    requires Walks(sort, tables, boundary, limit, pages) && forall i: nat :: Gains(tables(i), tables(i + 1))
    requires |pages| > 1
    ensures pages[|pages| - 1].keys != []
  {
    var n := |pages| - 1;
    assert IsPageAt(sort, tables, boundary, limit, pages, n - 1) && IsPageAt(sort, tables, boundary, limit, pages, n);
    var rest := Listed(sort, Selected(sort, tables(n - 1), boundary, Pos(pages, n - 1)));
    var key := rest[limit];
    assert key in Elements(rest);
    assert Order(sort)(rest[limit - 1], key);
    assert Pos(pages, n) == Some(rest[limit - 1]);
    GainsKeep(sort, tables, n - 1, n, key);
    var last := Selected(sort, tables(n), boundary, Pos(pages, n));
    assert key in last;
    assert key in Elements(Listed(sort, last));
  }

  // ----- the read-status filter of get_messages

  datatype ReadFilter = AnyStatus | Unread | Read

  datatype Letter = Letter(createdAt: string, readAt: Option<string>)

  type Inbox = map<Key, Letter>

  predicate MatchesStatus(filter: ReadFilter, readAt: Option<string>, boundary: string) {
    match filter
    case AnyStatus => true
    case Unread => readAt.None? || TextBefore(boundary, readAt.value)
    case Read => readAt.Some? && !TextBefore(boundary, readAt.value)
  }

  /** The messages `message_page` selects from. */
  function InboxRows(inbox: Inbox, filter: ReadFilter, boundary: string): Rows {
    map key | key in inbox && MatchesStatus(filter, inbox[key].readAt, boundary) :: inbox[key].createdAt
  }

  /** Messages are only added, and a reading time is set once. */
  ghost predicate Ages(inbox: Inbox, later: Inbox) {
    forall key :: key in inbox ==> key in later && IsAged(inbox[key], later[key])
  }

  predicate IsAged(letter: Letter, later: Letter) {
    later.createdAt == letter.createdAt && (letter.readAt.Some? ==> later.readAt == letter.readAt)
  }

  lemma {:induction false} AgesOverCalls(inboxes: nat -> Inbox, i: nat, key: Key)
    requires (forall n: nat :: Ages(inboxes(n), inboxes(n + 1))) && key in inboxes(0)
    ensures key in inboxes(i) && IsAged(inboxes(0)[key], inboxes(i)[key])
  {
    if i > 0 {
      AgesOverCalls(inboxes, i - 1, key);
      assert Ages(inboxes(i - 1), inboxes(i - 1 + 1));
      assert inboxes(i - 1 + 1) == inboxes(i);
    }
  }

  /** The message was read since, and not after the boundary. */
  predicate ReadLate(letter: Letter, now: Letter, boundary: string) {
    letter.readAt.None? && now.readAt.Some? && !TextBefore(boundary, now.readAt.value)
  }

  ghost function InboxTables(inboxes: nat -> Inbox, filter: ReadFilter, boundary: string): nat -> Rows {
    (n: nat) => InboxRows(inboxes(n), filter, boundary)
  }

  /** A message of the first snapshot is listed by its status at the first call, unless it is
      read, with a time not after the boundary, before the walk passes it: then every walk but
      one over the unread lists it. Readings stamped after the boundary are never noticed. */
  lemma {:induction false} ListedByStatusExactlyWhen(inboxes: nat -> Inbox, filter: ReadFilter, boundary: string,
                                                     limit: nat, pages: seq<Page>, i: nat, key: Key)
    requires forall n: nat :: Ages(inboxes(n), inboxes(n + 1))
    requires Walks(Descending, InboxTables(inboxes, filter, boundary), boundary, limit, pages)
    requires key in inboxes(0) && !TextBefore(boundary, inboxes(0)[key].createdAt)
    requires PassedAt(Descending, pages, i, key)
    ensures key in inboxes(i)
    ensures key in Concat(pages) <==>
            if ReadLate(inboxes(0)[key], inboxes(i)[key], boundary) then filter != Unread
            else MatchesStatus(filter, inboxes(0)[key].readAt, boundary)
  {
    AgesOverCalls(inboxes, i, key);
    ReturnedExactlyWhenThereAsPassed(Descending, InboxTables(inboxes, filter, boundary), boundary, limit, pages, i, key);
  }
}
