/** ListTasks of the A2A protocol 1.0, section 3.1.4: keyset pages over a grant's tasks, latest first. */
module ProtocolListing {
  import opened Options
  import opened Sequences
  import ProtocolTasks

  type Time = ProtocolTasks.Time
  type TaskId = ProtocolTasks.TaskId
  type State = ProtocolTasks.State

  datatype Row = Row(id: TaskId, grant: nat, contextId: nat, state: State, updatedAt: Time)

  /** The value whose digest binds a page token to its query; equal digests mean equal queries. */
  datatype Filter = Filter(grant: nat, contextId: Option<nat>, status: Option<State>, after: Option<Time>)

  datatype Cursor = Cursor(id: TaskId, time: Time, filter: Filter)

  datatype Query = Query(filter: Filter, pageSize: Option<int>, pageToken: Option<Cursor>)

  datatype Page = Page(tasks: seq<Row>, pageSize: nat, totalSize: nat, nextPageToken: Option<Cursor>)

  datatype Error = InvalidParameters | ForeignToken

  // ---- the query ----

  predicate Matches(f: Filter, r: Row) {
    && r.grant == f.grant
    && (f.contextId.None? || r.contextId == f.contextId.value)
    && (f.status.None? || r.state == f.status.value)
    && (f.after.None? || r.updatedAt >= f.after.value)
  }

  /** `r` comes after `s` in the listing. */
  predicate Precedes(s: Row, r: Row) {
    r.updatedAt < s.updatedAt || (r.updatedAt == s.updatedAt && r.id < s.id)
  }

  predicate Below(cursor: Option<Cursor>, r: Row) {
    cursor.None? || r.updatedAt < cursor.value.time || (r.updatedAt == cursor.value.time && r.id < cursor.value.id)
  }

  function Selected(rows: seq<Row>, f: Filter, cursor: Option<Cursor>): (picked: seq<Row>)
    ensures forall r :: r in picked <==> r in rows && Matches(f, r) && Below(cursor, r)
  {
    if rows == [] then []
    else (if Matches(f, rows[0]) && Below(cursor, rows[0]) then [rows[0]] else []) + Selected(rows[1..], f, cursor)
  }

  /** `ORDER BY` time and id, both descending. */
  function Ordered(rows: seq<Row>): seq<Row> {
    Sorted(Precedes, rows)
  }

  function Take(rows: seq<Row>, n: nat): seq<Row> {
    if |rows| <= n then rows else rows[..n]
  }

  /** Answers one page of what was selected; `total` counts what all pages select. */
  function Answer(selected: seq<Row>, total: nat, q: Query): Result<Page, Error> {
    var size := if q.pageSize.Some? then q.pageSize.value else 50;
    if !(1 <= size <= 100) then Err(InvalidParameters)
    else if q.pageToken.Some? && q.pageToken.value.filter != q.filter then Err(ForeignToken)
    else
      var found := Take(Ordered(selected), size + 1);
      var page := Take(found, size);
      var token := if |found| > size && page != [] then
          Some(Cursor(page[|page| - 1].id, page[|page| - 1].updatedAt, q.filter)) else None;
      Ok(Page(page, size, total, token))
  }

  /** A page size outside 1 to 100 is refused, and so is a token of another query. */
  function List(rows: seq<Row>, q: Query): Result<Page, Error> {
    Answer(Selected(rows, q.filter, q.pageToken), |Selected(rows, q.filter, None)|, q)
  }

  // ---- what the listing is ----

  ghost predicate DistinctIds(rows: seq<Row>) {
    forall i, j :: 0 <= i < j < |rows| ==> rows[i].id != rows[j].id
  }

  /** Latest first, and rows of one time by descending id. */
  ghost predicate Descending(rows: seq<Row>) {
    forall i, j :: 0 <= i < j < |rows| ==>
      rows[j].updatedAt < rows[i].updatedAt || (rows[j].updatedAt == rows[i].updatedAt && rows[j].id < rows[i].id)
  }

  /** The task is of the grant, in the context, in the state and not before the time that the query asks for. */
  ghost predicate IsAskedFor(f: Filter, r: Row) {
    && r.grant == f.grant
    && (f.contextId.Some? ==> r.contextId == f.contextId.value)
    && (f.status.Some? ==> r.state == f.status.value)
    && (f.after.Some? ==> f.after.value <= r.updatedAt)
  }

  /** Exactly the matching rows, each once, latest first; rows of one time by descending id. */
  ghost predicate IsListing(rows: seq<Row>, f: Filter, listing: seq<Row>) {
    && Descending(listing)
    && (forall r :: r in listing <==> r in rows && IsAskedFor(f, r))
    && multiset(listing) == multiset(Selected(rows, f, None))
  }

  lemma OrderedOrders(rows: seq<Row>)
    requires DistinctIds(rows)
    ensures Descending(Ordered(rows)) && multiset(Ordered(rows)) == multiset(rows) && |Ordered(rows)| == |rows|
    ensures forall r :: r in Ordered(rows) <==> r in rows
  {
    assert Strict(Precedes) && Comparable(Precedes, rows);
    SortAscends(Precedes, rows);
    SortedElements(Precedes, rows);
    SameMultiset(Ordered(rows), rows);
  }

  lemma {:induction false} SelectedDistinct(rows: seq<Row>, f: Filter, cursor: Option<Cursor>)
    requires DistinctIds(rows)
    ensures DistinctIds(Selected(rows, f, cursor))
  {
    if rows != [] {
      SelectedDistinct(rows[1..], f, cursor);
      var rest := Selected(rows[1..], f, cursor);
      assert forall i :: 0 <= i < |rest| ==> rest[i] in rest;
      assert forall s <- rest :: s.id != rows[0].id;
    }
  }

  /** A listing is determined by its rows. */
  lemma DescendingUnique(a: seq<Row>, b: seq<Row>)
    requires Descending(a) && Descending(b)
    requires forall r :: r in a <==> r in b
    ensures a == b
  {
    assert Strict(Precedes) && Ascending(Precedes, a) && Ascending(Precedes, b);
    AscendingUnique(Precedes, a, b);
  }

  lemma SortedIsListing(rows: seq<Row>, f: Filter)
    requires DistinctIds(rows)
    ensures IsListing(rows, f, Ordered(Selected(rows, f, None)))
  {
    SelectedDistinct(rows, f, None);
    OrderedOrders(Selected(rows, f, None));
  }

  function After(r: Row, f: Filter): Option<Cursor> {
    Some(Cursor(r.id, r.updatedAt, f))
  }

  lemma TailIsBelow(listing: seq<Row>, f: Filter, n: nat, r: Row)
    requires Descending(listing) && 0 < n <= |listing| && r in listing
    ensures r in listing[n..] <==> Below(After(listing[n - 1], f), r)
  {
    var i :| 0 <= i < |listing| && listing[i] == r;
    if i < n {
      assert i == n - 1 || Precedes(r, listing[n - 1]);
      assert forall k :: 0 <= k < |listing[n..]| ==> Precedes(r, listing[n..][k]);
    } else {
      assert listing[n..][i - n] == r;
      assert Precedes(listing[n - 1], r);
    }
  }

  lemma SelectionSorts(rows: seq<Row>, f: Filter, cursor: Option<Cursor>)
    requires DistinctIds(rows)
    ensures var sorted := Ordered(Selected(rows, f, cursor));
            && Descending(sorted)
            && (forall r :: r in sorted <==> r in rows && Matches(f, r) && Below(cursor, r))
            && |sorted| == |Selected(rows, f, cursor)|
  {
    SelectedDistinct(rows, f, cursor);
    OrderedOrders(Selected(rows, f, cursor));
  }

  /** Below a row of the listing lies the rest of the listing. */
  lemma SelectedBelow(rows: seq<Row>, f: Filter, listing: seq<Row>, n: nat)
    requires DistinctIds(rows) && listing == Ordered(Selected(rows, f, None)) && 0 < n <= |listing|
    ensures Ordered(Selected(rows, f, After(listing[n - 1], f))) == listing[n..]
  {
    SelectionSorts(rows, f, None);
    SelectionSorts(rows, f, After(listing[n - 1], f));
    var below := Ordered(Selected(rows, f, After(listing[n - 1], f)));
    forall r ensures r in listing[n..] <==> r in below {
      if r in listing {
        TailIsBelow(listing, f, n, r);
      }
    }
    DescendingUnique(below, listing[n..]);
  }

  // ---- following the tokens ----

  function Tasks(pages: seq<Page>): seq<Row> {
    if pages == [] then [] else Tasks(pages[..|pages| - 1]) + pages[|pages| - 1].tasks
  }

  /** The token that page `i` is asked with. */
  function TokenFor(pages: seq<Page>, i: nat): Option<Cursor>
    requires i <= |pages|
  {
    if i == 0 then None else pages[i - 1].nextPageToken
  }

  /** Page `i` is the answer when asked with the token of the page before it. */
  ghost predicate Asked(tables: seq<seq<Row>>, f: Filter, sizes: seq<Option<int>>, pages: seq<Page>, i: int)
    requires 0 <= i < |pages| <= |tables| && |pages| <= |sizes|
  {
    DistinctIds(tables[i]) && List(tables[i], Query(f, sizes[i], TokenFor(pages, i))) == Ok(pages[i])
  }

  /** Page after page, each asked with the token of the one before it and any page size, from tables that may change. */
  ghost predicate Walk(tables: seq<seq<Row>>, f: Filter, sizes: seq<Option<int>>, pages: seq<Page>) {
    && |tables| == |sizes| == |pages|
    && (forall i :: 0 <= i < |pages| - 1 ==> pages[i].nextPageToken.Some?)
    && (forall i :: 0 <= i < |pages| ==> Asked(tables, f, sizes, pages, i))
  }

  /** A page is the beginning of the selection, all of it unless there is a token, which then is that of its last
    * row.
    */
  lemma PageIsPrefix(rows: seq<Row>, q: Query, page: Page)
    requires List(rows, q) == Ok(page)
    ensures page.totalSize == |Selected(rows, q.filter, None)|
    ensures var sorted := Ordered(Selected(rows, q.filter, q.pageToken));
            && page.tasks <= sorted
            && (page.nextPageToken.None? ==> page.tasks == sorted)
            && (page.nextPageToken.Some? ==>
               0 < |page.tasks| && page.nextPageToken == After(sorted[|page.tasks| - 1], q.filter))
  {
  }

  /** One page of an unchanging table, when the pages before it hold the first `n` rows of the listing. */
  lemma PageContinues(rows: seq<Row>, f: Filter, size: Option<int>, listing: seq<Row>, n: nat, page: Page)
    requires DistinctIds(rows) && listing == Ordered(Selected(rows, f, None)) && n <= |listing|
    requires List(rows, Query(f, size, if n == 0 then None else After(listing[n - 1], f))) == Ok(page)
    ensures page.tasks <= listing[n..]
    ensures page.nextPageToken.None? ==> page.tasks == listing[n..]
    ensures page.nextPageToken.Some? ==>
        0 < |page.tasks| && page.nextPageToken == After(listing[n + |page.tasks| - 1], f)
  {
    PageIsPrefix(rows, Query(f, size, if n == 0 then None else After(listing[n - 1], f)), page);
    if n > 0 {
      SelectedBelow(rows, f, listing, n);
    } else {
      assert listing[n..] == listing;
    }
    if page.nextPageToken.Some? {
      assert listing[n..][|page.tasks| - 1] == listing[n + |page.tasks| - 1];
    }
  }

  function TokenAfter(listing: seq<Row>, n: nat, f: Filter): Option<Cursor>
    requires n <= |listing|
  {
    if n == 0 then None else After(listing[n - 1], f)
  }

  /** The page holds rows of the listing from number `n` on: all the rest, or some and the token of the last. */
  predicate IsPageAt(page: Page, listing: seq<Row>, n: nat, f: Filter)
    requires n <= |listing|
  {
    && page.tasks <= listing[n..]
    && (page.nextPageToken.None? ==> page.tasks == listing[n..])
    && (page.nextPageToken.Some? ==> 0 < |page.tasks| && page.nextPageToken == TokenAfter(listing, n + |page.tasks|, f))
  }

  lemma WalkContinues(
    tables: seq<seq<Row>>, f: Filter, sizes: seq<Option<int>>, pages: seq<Page>, rows: seq<Row>, listing: seq<Row>,
        i: nat, n: nat)
    requires Walk(tables, f, sizes, pages) && (forall t <- tables :: t == rows)
    requires listing == Ordered(Selected(rows, f, None)) && n <= |listing|
    requires i < |pages| && TokenFor(pages, i) == TokenAfter(listing, n, f)
    ensures IsPageAt(pages[i], listing, n, f)
  {
    assert tables[i] in tables && Asked(tables, f, sizes, pages, i);
    PageContinues(rows, f, sizes[i], listing, n, pages[i]);
  }

  ghost predicate Continuing(pages: seq<Page>, listing: seq<Row>, f: Filter) {
    && (forall i :: 0 <= i < |pages| - 1 ==> pages[i].nextPageToken.Some?)
    && (forall i, n | 0 <= i < |pages| && 0 <= n <= |listing| && TokenFor(pages, i) == TokenAfter(listing, n, f) ::
          IsPageAt(pages[i], listing, n, f))
  }

  /** The pages so far hold the first rows of the listing: all of them, or some and the token of the last. */
  ghost predicate HoldPrefix(pages: seq<Page>, listing: seq<Row>, f: Filter)
    requires pages != []
  {
    var token, n := pages[|pages| - 1].nextPageToken, |Tasks(pages)|;
    && Tasks(pages) <= listing
    && |pages| - 1 <= n
    && (token.None? ==> Tasks(pages) == listing)
    && (token.Some? ==> token == TokenAfter(listing, n, f) && |pages| <= n)
  }

  lemma PageExtendsPrefix(before: seq<Row>, page: Page, listing: seq<Row>, f: Filter)
    requires before <= listing && IsPageAt(page, listing, |before|, f)
    ensures before + page.tasks <= listing
    ensures page.nextPageToken.None? ==> before + page.tasks == listing
    ensures page.nextPageToken.Some? ==>
              0 < |page.tasks| && page.nextPageToken == TokenAfter(listing, |before + page.tasks|, f)
  {
    assert listing == before + listing[|before|..];
  }

  lemma ContinuingBefore(pages: seq<Page>, listing: seq<Row>, f: Filter)
    requires Continuing(pages, listing, f) && pages != []
    ensures Continuing(pages[..|pages| - 1], listing, f)
  {
    var before := pages[..|pages| - 1];
    assert forall i :: 0 <= i < |before| ==> TokenFor(before, i) == TokenFor(pages, i) && before[i] == pages[i];
  }

  /** Pages that continue one another hold a prefix of the listing, and all of it once there is no token. */
  lemma {:induction false} PagesArePrefix(pages: seq<Page>, listing: seq<Row>, f: Filter)
    requires Continuing(pages, listing, f) && pages != []
    ensures HoldPrefix(pages, listing, f)
    decreases |pages|
  {
    var k := |pages| - 1;
    var before := pages[..k];
    if k > 0 {
      ContinuingBefore(pages, listing, f);
      PagesArePrefix(before, listing, f);
    }
    assert TokenFor(pages, k) == TokenAfter(listing, |Tasks(before)|, f);
    PageExtendsPrefix(Tasks(before), pages[k], listing, f);
  }

  lemma TotalSizeCounts(rows: seq<Row>, q: Query, page: Page, listing: seq<Row>)
    requires DistinctIds(rows) && List(rows, q) == Ok(page) && listing == Ordered(Selected(rows, q.filter, None))
    ensures page.totalSize == |listing|
  {
    SelectionSorts(rows, q.filter, None);
    PageIsPrefix(rows, q, page);
  }

  lemma ListingIsSorted(rows: seq<Row>, f: Filter, listing: seq<Row>)
    requires DistinctIds(rows) && IsListing(rows, f, listing)
    ensures listing == Ordered(Selected(rows, f, None))
  {
    SelectionSorts(rows, f, None);
    DescendingUnique(listing, Ordered(Selected(rows, f, None)));
  }

  /** Following the tokens of an unchanging table to the end, with any page sizes, yields the listing: every matching
    * task exactly once, in order. Every page announces its length, and no walk is longer than the listing allows.
    */
  lemma WalkYieldsListing(
    tables: seq<seq<Row>>, f: Filter, sizes: seq<Option<int>>, pages: seq<Page>, rows: seq<Row>, listing: seq<Row>)
    requires Walk(tables, f, sizes, pages) && pages != [] && (forall t <- tables :: t == rows)
    requires IsListing(rows, f, listing)
    ensures pages[|pages| - 1].nextPageToken.None? ==> Tasks(pages) == listing
    ensures forall i :: 0 <= i < |pages| ==> pages[i].totalSize == |listing|
    ensures |pages| <= |listing| + 1
  {
    assert tables[0] in tables && Asked(tables, f, sizes, pages, 0);
    ListingIsSorted(rows, f, listing);
    forall i, n | 0 <= i < |pages| && 0 <= n <= |listing| && TokenFor(pages, i) == TokenAfter(listing, n, f)
      ensures IsPageAt(pages[i], listing, n, f)
    {
      WalkContinues(tables, f, sizes, pages, rows, listing, i, n);
    }
    PagesArePrefix(pages, listing, f);
    forall i | 0 <= i < |pages| ensures pages[i].totalSize == |listing| {
      assert tables[i] in tables && Asked(tables, f, sizes, pages, i);
      TotalSizeCounts(rows, Query(f, sizes[i], TokenFor(pages, i)), pages[i], listing);
    }
  }

  // ---- tables that change between the pages ----

  /** A task that is in both tables has not moved to an earlier time. */
  ghost predicate OnlyLater(before: seq<Row>, after: seq<Row>) {
    forall r <- before, s <- after :: r.id == s.id ==> r.updatedAt <= s.updatedAt
  }

  /** One page lists rows of its table strictly below the token it was asked with and not below its own. */
  lemma PageLiesBetween(rows: seq<Row>, q: Query, page: Page, r: Row)
    requires DistinctIds(rows) && List(rows, q) == Ok(page)
    ensures r in page.tasks ==>
        r in rows && Below(q.pageToken, r) && !(page.nextPageToken.Some? && Below(page.nextPageToken, r))
    ensures page.nextPageToken.Some? && Below(page.nextPageToken, r) ==> Below(q.pageToken, r)
  {
    var sorted := Ordered(Selected(rows, q.filter, q.pageToken));
    SelectionSorts(rows, q.filter, q.pageToken);
    PageIsPrefix(rows, q, page);
    if page.nextPageToken.Some? {
      var last := sorted[|page.tasks| - 1];
      assert page.nextPageToken == After(last, q.filter);
      assert last in sorted;
      if r in page.tasks {
        var i :| 0 <= i < |page.tasks| && sorted[i] == r;
        assert r == last || Precedes(r, last);
      }
    }
  }

  /** Page `i` lists rows below its token and not below the next page's; what is below the next token is below its
    * own.
    */
  ghost predicate LiesBetween(tables: seq<seq<Row>>, pages: seq<Page>, i: int, r: Row)
    requires 0 <= i < |pages| <= |tables|
  {
    && (r in pages[i].tasks ==>
          r in tables[i] && Below(TokenFor(pages, i), r)
              && !(TokenFor(pages, i + 1).Some? && Below(TokenFor(pages, i + 1), r)))
    && (TokenFor(pages, i + 1).Some? && Below(TokenFor(pages, i + 1), r) ==> Below(TokenFor(pages, i), r))
  }

  lemma AskedLiesBetween(tables: seq<seq<Row>>, f: Filter, sizes: seq<Option<int>>, pages: seq<Page>, i: int, r: Row)
    requires 0 <= i < |pages| == |tables| == |sizes| && Asked(tables, f, sizes, pages, i)
    ensures LiesBetween(tables, pages, i, r)
  {
    PageLiesBetween(tables[i], Query(f, sizes[i], TokenFor(pages, i)), pages[i], r);
  }

  lemma WalkLiesBetween(tables: seq<seq<Row>>, f: Filter, sizes: seq<Option<int>>, pages: seq<Page>, r: Row)
    requires Walk(tables, f, sizes, pages)
    ensures forall i :: 0 <= i < |pages| ==> LiesBetween(tables, pages, i, r)
  {
    forall i | 0 <= i < |pages| ensures LiesBetween(tables, pages, i, r) {
      AskedLiesBetween(tables, f, sizes, pages, i, r);
    }
  }

  /** What lies below a later token lies below every earlier one. */
  lemma {:induction false} TokensDescend(tables: seq<seq<Row>>, pages: seq<Page>, i: int, j: int, r: Row)
    requires 0 < i <= j < |pages| == |tables|
    requires forall k :: 0 <= k < |pages| - 1 ==> pages[k].nextPageToken.Some?
    requires forall k :: 0 <= k < |pages| ==> LiesBetween(tables, pages, k, r)
    requires Below(TokenFor(pages, j), r)
    ensures Below(TokenFor(pages, i), r)
    decreases j
  {
    if i < j {
      assert LiesBetween(tables, pages, j - 1, r);
      TokensDescend(tables, pages, i, j - 1, r);
    }
  }

  /** If tasks that stay are only moved to later times while the pages are read, no task is listed twice, whatever else
    * is created, changed or deleted.
    */
  lemma NoTaskTwice(tables: seq<seq<Row>>, f: Filter, sizes: seq<Option<int>>, pages: seq<Page>, i: nat, j: nat,
      r: Row, s: Row)
    requires Walk(tables, f, sizes, pages) && i < j < |pages|
    requires OnlyLater(tables[i], tables[j])
    requires r in pages[i].tasks && s in pages[j].tasks
    ensures r.id != s.id
  {
    WalkLiesBetween(tables, f, sizes, pages, r);
    WalkLiesBetween(tables, f, sizes, pages, s);
    assert LiesBetween(tables, pages, i, r) && LiesBetween(tables, pages, j, s);
    TokensDescend(tables, pages, i + 1, j, s);
  }

  /** A token is accepted exactly by the query it was issued for; the page size is not part of that query. */
  lemma TokenIsBound(rows: seq<Row>, before: seq<Row>, issued: Query, page: Page, q: Query)
    requires List(before, issued) == Ok(page) && page.nextPageToken.Some?
    requires q.pageToken == page.nextPageToken
    requires q.pageSize.None? || 1 <= q.pageSize.value <= 100
    ensures List(rows, q).Ok? <==> q.filter == issued.filter
  {
  }

  ghost predicate Answered(tables: seq<seq<Row>>, queries: seq<Query>, pages: seq<Page>, i: int)
    requires 0 <= i < |pages| && |tables| == |queries| == |pages|
  {
    DistinctIds(tables[i]) && List(tables[i], queries[i]) == Ok(pages[i])
  }

  /** Page `i` is asked with the token of the one before it, with whatever filter and page size. */
  ghost predicate Continues(queries: seq<Query>, pages: seq<Page>, i: int)
    requires 0 <= i < |pages| == |queries|
  {
    if i == 0 then queries[0].pageToken.None?
    else pages[i - 1].nextPageToken.Some? && queries[i].pageToken == pages[i - 1].nextPageToken
  }

  ghost predicate Following(tables: seq<seq<Row>>, queries: seq<Query>, pages: seq<Page>) {
    && |tables| == |queries| == |pages|
    && (forall i :: 0 <= i < |pages| ==> Answered(tables, queries, pages, i))
    && (forall i :: 0 <= i < |pages| ==> Continues(queries, pages, i))
  }

  lemma NextKeepsFilter(tables: seq<seq<Row>>, queries: seq<Query>, pages: seq<Page>, i: nat)
    requires |tables| == |queries| == |pages| && 0 < i < |pages|
    requires Answered(tables, queries, pages, i - 1) && Answered(tables, queries, pages, i)
    requires Continues(queries, pages, i)
    ensures queries[i].filter == queries[i - 1].filter
  {
    TokenIsBound(tables[i], tables[i - 1], queries[i - 1], pages[i - 1], queries[i]);
  }

  /** The tokens bind whoever follows them to the filter of the first query: all that can vary are the page sizes. */
  lemma {:induction false} FollowingKeepsFilter(tables: seq<seq<Row>>, queries: seq<Query>, pages: seq<Page>, i: nat)
    requires Following(tables, queries, pages) && i < |pages|
    ensures queries[i].filter == queries[0].filter
  {
    if i > 0 {
      FollowingKeepsFilter(tables, queries, pages, i - 1);
      NextKeepsFilter(tables, queries, pages, i);
    }
  }

  function Sizes(queries: seq<Query>): (sizes: seq<Option<int>>)
    ensures |sizes| == |queries| && forall i :: 0 <= i < |queries| ==> sizes[i] == queries[i].pageSize
  {
    seq(|queries|, i requires 0 <= i < |queries| => queries[i].pageSize)
  }

  lemma AnsweredIsAsked(tables: seq<seq<Row>>, queries: seq<Query>, pages: seq<Page>, i: nat)
    requires |tables| == |queries| == |pages| && i < |pages|
    requires Answered(tables, queries, pages, i) && Continues(queries, pages, i)
    requires queries[i].filter == queries[0].filter
    ensures Asked(tables, queries[0].filter, Sizes(queries), pages, i)
  {
    assert Query(queries[0].filter, Sizes(queries)[i], TokenFor(pages, i)) == queries[i];
  }

  /** So whatever is answered when tokens are followed is a walk, to which the theorems about walks apply. */
  lemma FollowingIsWalk(tables: seq<seq<Row>>, queries: seq<Query>, pages: seq<Page>)
    requires Following(tables, queries, pages) && pages != []
    ensures Walk(tables, queries[0].filter, Sizes(queries), pages)
  {
    forall i | 0 <= i < |pages| ensures Asked(tables, queries[0].filter, Sizes(queries), pages, i) {
      FollowingKeepsFilter(tables, queries, pages, i);
      AnsweredIsAsked(tables, queries, pages, i);
    }
    forall i | 0 <= i < |pages| - 1 ensures pages[i].nextPageToken.Some? {
      assert Continues(queries, pages, i + 1);
    }
  }

  // ---- what a page shows ----

  /** An answer is refused exactly for its page size or for a token of another query; a page holds fifty tasks unless
    * asked otherwise.
    */
  lemma RefusedExactly(rows: seq<Row>, q: Query)
    ensures List(rows, q) == Err(InvalidParameters) <==> q.pageSize.Some? && !(1 <= q.pageSize.value <= 100)
    ensures List(rows, q) == Err(ForeignToken) <==>
              (q.pageSize.Some? ==> 1 <= q.pageSize.value <= 100)
              && q.pageToken.Some? && q.pageToken.value.filter != q.filter
    ensures List(rows, q).Ok? ==>
              var page := List(rows, q).value;
              page.pageSize == (if q.pageSize.Some? then q.pageSize.value else 50) && |page.tasks| <= page.pageSize
  {
  }

  /** A page shows rows of the asking grant, context, state and time only. */
  lemma PageShowsAsked(rows: seq<Row>, q: Query, page: Page, r: Row)
    requires DistinctIds(rows) && List(rows, q) == Ok(page) && r in page.tasks
    ensures r in rows && r.grant == q.filter.grant
    ensures q.filter.contextId.Some? ==> r.contextId == q.filter.contextId.value
    ensures q.filter.status.Some? ==> r.state == q.filter.status.value
    ensures q.filter.after.Some? ==> q.filter.after.value <= r.updatedAt
  {
    PageIsPrefix(rows, q, page);
    SelectionSorts(rows, q.filter, q.pageToken);
  }

  /** A first page that leaves no token shows every row that was asked for, and its total counts them. */
  lemma LastFirstPageShowsAll(rows: seq<Row>, q: Query, page: Page, r: Row)
    requires DistinctIds(rows) && List(rows, q) == Ok(page) && q.pageToken.None? && page.nextPageToken.None?
    requires r in rows && r.grant == q.filter.grant
    requires q.filter.contextId.Some? ==> r.contextId == q.filter.contextId.value
    requires q.filter.status.Some? ==> r.state == q.filter.status.value
    requires q.filter.after.Some? ==> q.filter.after.value <= r.updatedAt
    ensures r in page.tasks && page.totalSize == |page.tasks|
  {
    PageIsPrefix(rows, q, page);
    SelectionSorts(rows, q.filter, None);
  }

  function OfGrant(rows: seq<Row>, grant: nat): seq<Row> {
    if rows == [] then [] else (if rows[0].grant == grant then [rows[0]] else []) + OfGrant(rows[1..], grant)
  }

  lemma {:induction false} SelectedOfGrant(rows: seq<Row>, f: Filter, cursor: Option<Cursor>)
    ensures Selected(OfGrant(rows, f.grant), f, cursor) == Selected(rows, f, cursor)
  {
    if rows != [] {
      var rest := OfGrant(rows[1..], f.grant);
      SelectedOfGrant(rows[1..], f, cursor);
      if rows[0].grant == f.grant {
        assert ([rows[0]] + rest)[1..] == rest;
        assert OfGrant(rows, f.grant)[0] == rows[0];
      } else {
        assert OfGrant(rows, f.grant) == rest;
      }
    }
  }

  /** The tasks of other grants make no difference to any answer. */
  lemma OtherGrantsDoNotShow(rows: seq<Row>, q: Query)
    ensures List(rows, q) == List(OfGrant(rows, q.filter.grant), q)
  {
    SelectedOfGrant(rows, q.filter, q.pageToken);
    SelectedOfGrant(rows, q.filter, None);
  }
}
