/**
 internal/case/listauditlog and assets/ui/paging: keyset pages over a log that grows and is purged while
 it is being walked.
 */
module Paging {
  import opened Wrappers
  import opened Database

  const DEFAULT_LIMIT := 50
  const MAX_LIMIT := 500

  /** audit_log at one moment: the rows by id, and the next id autoincrement will give. */
  datatype Log = Log(rows: map<int, AuditRow>, next: int)

  datatype Node = Node(id: int, row: AuditRow)

  datatype PageInfo = PageInfo(hasNextPage: bool, endCursor: Option<int>)

  datatype Page = Page(nodes: seq<Node>, pageInfo: PageInfo, totalCount: nat)

  predicate ValidLog(log: Log) {
    1 <= log.next && forall id | id in log.rows :: 1 <= id < log.next
  }

  /** Between two fetches rows are appended with fresh ids and any rows are purged; a row never changes. */
  predicate Evolves(a: Log, b: Log) {
    a.next <= b.next &&
    forall id | id in b.rows :: (id in a.rows && b.rows[id] == a.rows[id]) || a.next <= id
  }

  // ---------------------------------------------------------------- the query

  predicate IsMax(m: int, s: set<int>) {
    m in s && forall x | x in s :: x <= m
  }

  lemma {:induction false} MaxExists(s: set<int>)
    requires s != {}
    ensures exists m | m in s :: IsMax(m, s)
    decreases |s|
  {
    var x := Pick(s);
    var rest := s - {x};
    if forall y | y in rest :: y <= x {
      assert forall y | y in s :: y == x || y in rest;
      assert IsMax(x, s);
    } else {
      MaxExists(rest);
      var m :| m in rest && IsMax(m, rest);
      assert forall y | y in s :: y == x || y in rest;
      assert IsMax(m, s);
    }
  }

  /** `order by id desc` */
  function Descending(ids: set<int>): seq<int>
    decreases |ids|
  {
    if ids == {} then []
    else
      MaxExists(ids);
      var m :| m in ids && IsMax(m, ids);
      [m] + Descending(ids - {m})
  }

  predicate StrictlyFalls(s: seq<int>) {
    forall i, j | 0 <= i < j < |s| :: s[i] > s[j]
  }

  lemma FirstIsMax(m: int, rest: seq<int>, ids: set<int>)
    requires m in ids && IsMax(m, ids) && StrictlyFalls(rest)
    requires forall x :: x in rest <==> x in ids - {m}
    ensures StrictlyFalls([m] + rest)
    ensures forall x :: x in [m] + rest <==> x in ids
  {
    forall i | 0 <= i < |rest| ensures m > rest[i] {
      assert rest[i] in rest;
    }
  }

  lemma {:induction false} DescendingIsSorted(ids: set<int>)
    ensures StrictlyFalls(Descending(ids))
    ensures forall x :: x in Descending(ids) <==> x in ids
    ensures |Descending(ids)| == |ids|
    decreases |ids|
  {
    if ids != {} {
      MaxExists(ids);
      var m :| m in ids && IsMax(m, ids);
      DescendingIsSorted(ids - {m});
      FirstIsMax(m, Descending(ids - {m}), ids);
    }
  }

  function Elements<T>(s: seq<T>): set<T> { set x | x in s }

  lemma EmptyElements(s: seq<int>)
    ensures Elements(s) == {} <==> s == []
  {
    assert s != [] ==> s[0] in Elements(s);
  }

  /** A set has one strictly falling arrangement. */
  lemma {:induction false} FallingIsUnique(a: seq<int>, b: seq<int>)
    requires StrictlyFalls(a) && StrictlyFalls(b) && Elements(a) == Elements(b)
    ensures a == b
    decreases |a|
  {
    EmptyElements(a);
    EmptyElements(b);
    if a != [] {
      assert a[0] in Elements(b) && b[0] in Elements(a);
      assert a[0] == b[0];
      assert Elements(a[1..]) == Elements(a) - {a[0]};
      assert Elements(b[1..]) == Elements(b) - {b[0]};
      FallingIsUnique(a[1..], b[1..]);
    }
  }

  /** `where (id < ?1 or ?1 = 0)` */
  function Below(log: Log, before: int): set<int> {
    set id | id in log.rows && (id < before || before == 0)
  }

  function Remaining(log: Log, before: int): seq<int> { Descending(Below(log, before)) }

  function Take<T>(s: seq<T>, n: nat): seq<T> { if n <= |s| then s[..n] else s }

  function Rows(log: Log, ids: seq<int>): seq<Node>
    requires forall i | 0 <= i < |ids| :: ids[i] in log.rows
  {
    seq(|ids|, i requires 0 <= i < |ids| => Node(ids[i], log.rows[ids[i]]))
  }

  lemma RemainingAreRows(log: Log, before: int)
    ensures forall i | 0 <= i < |Remaining(log, before)| :: Remaining(log, before)[i] in log.rows
    ensures StrictlyFalls(Remaining(log, before))
    ensures forall x :: x in Remaining(log, before) <==> x in Below(log, before)
  {
    DescendingIsSorted(Below(log, before));
    forall i | 0 <= i < |Remaining(log, before)| ensures Remaining(log, before)[i] in log.rows {
      assert Remaining(log, before)[i] in Below(log, before);
    }
  }

  /** DBListAuditLog: the query as the read pool answers it. */
  function DBListAuditLog(log: Log, before: int, limit: nat): seq<Node> {
    RemainingAreRows(log, before);
    Rows(log, Take(Remaining(log, before), limit))
  }

  // ---------------------------------------------------------------- the case

  function Clamp(limit: int): nat {
    if limit <= 0 then DEFAULT_LIMIT else if limit > MAX_LIMIT then MAX_LIMIT else limit
  }

  /** The page a caller is promised: the clamped number of rows below the cursor, and whether any are left. */
  function PageOf(log: Log, before: int, limit: int, total: nat): Page {
    RemainingAreRows(log, before);
    var ids := Remaining(log, before);
    var nodes := Rows(log, Take(ids, Clamp(limit)));
    Page(nodes, PageInfo(|ids| > Clamp(limit), if nodes == [] then None else Some(nodes[|nodes| - 1].id)), total)
  }

  /**
   Resolve asks for one row more than the limit and drops it: that the probe row came back is how it knows
   there is another page. The count is a second query, so it may see a later log than the rows.
   */
  method Resolve(listed: Option<Log>, counted: Option<Log>, limit: int, before: Option<int>) returns (result: Option<Page>)
    ensures result.None? <==> listed.None? || counted.None?
    ensures result.Some? ==>
              result.value == PageOf(listed.value, if before.Some? then before.value else 0, limit, |counted.value.rows|)
  {
    var effective := limit;
    if effective <= 0 {
      effective := DEFAULT_LIMIT;
    }
    if effective > MAX_LIMIT {
      effective := MAX_LIMIT;
    }
    var cursor := 0;
    if before.Some? {
      cursor := before.value;
    }
    if listed.None? {
      return None;
    }
    var rows := DBListAuditLog(listed.value, cursor, effective + 1);
    var nodes, info := rows, PageInfo(false, None);
    if |rows| > effective {
      nodes := rows[..effective];
      info := info.(hasNextPage := true);
    }
    if |nodes| > 0 {
      info := info.(endCursor := Some(nodes[|nodes| - 1].id));
    }
    assert nodes == (if |rows| > effective then rows[..effective] else rows);
    if counted.None? {
      return None;
    }
    ProbedPage(listed.value, cursor, limit, effective, |counted.value.rows|);
    return Some(Page(nodes, info, |counted.value.rows|));
  }

  /** What the probe leaves is the promised page. */
  lemma ProbedPage(log: Log, before: int, limit: int, effective: nat, total: nat)
    requires effective == Clamp(limit)
    ensures var rows := DBListAuditLog(log, before, effective + 1);
            var nodes := if |rows| > effective then rows[..effective] else rows;
            PageOf(log, before, limit, total) ==
              Page(nodes, PageInfo(|rows| > effective, if nodes == [] then None else Some(nodes[|nodes| - 1].id)), total)
  {
  }

  // ---------------------------------------------------------------- a walk

  function IdsOf(nodes: seq<Node>): seq<int> { seq(|nodes|, i requires 0 <= i < |nodes| => nodes[i].id) }

  function Items(pages: seq<Page>): seq<Node>
    decreases |pages|
  {
    if pages == [] then [] else Items(pages[..|pages| - 1]) + pages[|pages| - 1].nodes
  }

  /** The cursor page k is asked for at: 0 for the first, then the end cursor of the page before it. */
  function Cursor(pages: seq<Page>, k: nat): int
    requires k <= |pages|
  {
    if k == 0 || pages[k - 1].pageInfo.endCursor.None? then 0 else pages[k - 1].pageInfo.endCursor.value
  }

  /** The page was fetched at this cursor from this log; the count may be of a later one. */
  predicate Fetched(page: Page, log: Log, before: int, limit: int) {
    page == PageOf(log, before, limit, page.totalCount)
  }

  predicate HasNext(pages: seq<Page>) { pages != [] && pages[|pages| - 1].pageInfo.hasNextPage }

  /** Each page was fetched once, at the cursor the page before it gave, from the log as it then was. */
  ghost predicate Walk(logs: seq<Log>, pages: seq<Page>, limit: int)
    decreases |pages|
  {
    |logs| == |pages| &&
    (pages != [] ==>
      var n := |pages| - 1;
      && Walk(logs[..n], pages[..n], limit)
      && ValidLog(logs[n]) && Fetched(pages[n], logs[n], Cursor(pages, n), limit)
      && (n > 0 ==> HasNext(pages[..n]) && Evolves(logs[n - 1], logs[n])))
  }

  /** What the client sees of a walk: another page means a cursor, positive and lower than all before it. */
  predicate Chained(pages: seq<Page>) {
    && (forall k | 0 <= k < |pages| :: k + 1 < |pages| ==> pages[k].pageInfo.hasNextPage)
    && (forall k {:trigger Cursor(pages, k)} | 0 < k <= |pages| && pages[k - 1].pageInfo.hasNextPage ::
          pages[k - 1].pageInfo.endCursor.Some? && Cursor(pages, k) >= 1)
    && (forall i, k {:trigger Cursor(pages, i), Cursor(pages, k)} |
          0 < i < k <= |pages| && pages[k - 1].pageInfo.hasNextPage :: Cursor(pages, k) < Cursor(pages, i))
  }

  /** One page covers the rows of its log from its cursor down to its end cursor, or to the bottom. */
  lemma PageCovers(page: Page, log: Log, before: int, limit: int)
    requires ValidLog(log) && before >= 0 && Fetched(page, log, before, limit)
    ensures StrictlyFalls(IdsOf(page.nodes))
    ensures forall id :: id in IdsOf(page.nodes) ==> id in Below(log, before)
    ensures page.pageInfo.hasNextPage ==>
              page.pageInfo.endCursor.Some? && 1 <= page.pageInfo.endCursor.value < log.next &&
              (before > 0 ==> page.pageInfo.endCursor.value < before) &&
              (forall id | id in IdsOf(page.nodes) :: id >= page.pageInfo.endCursor.value)
    ensures forall id | id in Below(log, before) ::
              id in IdsOf(page.nodes) || (page.pageInfo.hasNextPage && id < page.pageInfo.endCursor.value)
    ensures forall i | 0 <= i < |page.nodes| :: page.nodes[i].id in log.rows && page.nodes[i].row == log.rows[page.nodes[i].id]
  {
    PageIds(page, log, before, limit);
    PageShowsTheNewest(page, log, before, limit);
    var ids, shown := Remaining(log, before), IdsOf(page.nodes);
    if page.pageInfo.hasNextPage {
      assert page.pageInfo.endCursor == Some(shown[|shown| - 1]) && shown[|shown| - 1] in shown;
    } else {
      assert shown == ids;
    }
  }

  lemma PageIds(page: Page, log: Log, before: int, limit: int)
    requires Fetched(page, log, before, limit)
    ensures var ids, shown := Remaining(log, before), IdsOf(page.nodes);
            && StrictlyFalls(ids) && (forall x :: x in ids <==> x in Below(log, before))
            && shown == Take(ids, Clamp(limit))
            && (page.pageInfo.hasNextPage <==> |ids| > Clamp(limit))
            && (shown != [] ==> page.pageInfo.endCursor == Some(shown[|shown| - 1]))
    ensures forall i | 0 <= i < |page.nodes| :: page.nodes[i].id in log.rows && page.nodes[i].row == log.rows[page.nodes[i].id]
  {
    RemainingAreRows(log, before);
  }

  lemma FirstsAreTheLargest(ids: seq<int>, n: nat, from: set<int>)
    requires StrictlyFalls(ids) && forall x :: x in ids <==> x in from
    ensures StrictlyFalls(Take(ids, n)) && forall x | x in Take(ids, n) :: x in from
    ensures forall x | x in from :: x in Take(ids, n) || forall y | y in Take(ids, n) :: x < y
  {
    forall x | x in from ensures x in Take(ids, n) || forall y | y in Take(ids, n) :: x < y {
      assert x in ids;
      var i :| 0 <= i < |ids| && ids[i] == x;
      assert i < |Take(ids, n)| ==> Take(ids, n)[i] == x;
    }
  }

  /**
   A page's length: all rows below the cursor, but 50 at most when no positive limit is asked for, and never more
   than 500. It has a next page if and only if rows are left over.
   */
  lemma PageSizes(page: Page, log: Log, before: int, limit: int)
    requires Fetched(page, log, before, limit)
    ensures var open, size := |Below(log, before)|, if limit <= 0 then 50 else if limit > 500 then 500 else limit;
            |page.nodes| == (if open < size then open else size) && (page.pageInfo.hasNextPage <==> open > size)
    ensures page.pageInfo.endCursor == if page.nodes == [] then None else Some(page.nodes[|page.nodes| - 1].id)
  {
    RemainingAreRows(log, before);
    DescendingIsSorted(Below(log, before));
  }

  /** A page shows the newest of the rows below the cursor, in falling order. */
  lemma PageShowsTheNewest(page: Page, log: Log, before: int, limit: int)
    requires Fetched(page, log, before, limit)
    ensures StrictlyFalls(IdsOf(page.nodes)) && forall x | x in IdsOf(page.nodes) :: x in Below(log, before)
    ensures forall id | id in Below(log, before) :: id in IdsOf(page.nodes) || forall x | x in IdsOf(page.nodes) :: id < x
  {
    PageIds(page, log, before, limit);
    FirstsAreTheLargest(Remaining(log, before), Clamp(limit), Below(log, before));
  }

  /** A cursor reached by going on is positive and lower than every cursor before it. */
  lemma {:induction false} CursorsFall(logs: seq<Log>, pages: seq<Page>, limit: int, i: nat)
    requires Walk(logs, pages, limit) && HasNext(pages) && i < |pages|
    ensures pages[|pages| - 1].pageInfo.endCursor.Some? && Cursor(pages, |pages|) >= 1
    ensures i > 0 ==> Cursor(pages, |pages|) < Cursor(pages, i)
    decreases |pages|
  {
    var n := |pages| - 1;
    if n > 0 {
      var before := pages[..n];
      CursorsFall(logs[..n], before, limit, if i < n then i else 0);
      assert Cursor(before, n) == Cursor(pages, n);
      assert i < n ==> Cursor(before, i) == Cursor(pages, i);
    }
    PageCovers(pages[n], logs[n], Cursor(pages, n), limit);
  }

  lemma PrefixCursors(pages: seq<Page>, n: nat, k: nat)
    requires k <= n <= |pages|
    ensures Cursor(pages[..n], k) == Cursor(pages, k)
  {
  }

  lemma {:induction false} WalksAreChained(logs: seq<Log>, pages: seq<Page>, limit: int)
    requires Walk(logs, pages, limit)
    ensures Chained(pages)
    decreases |pages|
  {
    if pages != [] {
      var n := |pages| - 1;
      WalksAreChained(logs[..n], pages[..n], limit);
      forall k: nat | 0 < k <= |pages| && pages[k - 1].pageInfo.hasNextPage
        ensures pages[k - 1].pageInfo.endCursor.Some? && Cursor(pages, k) >= 1
      {
        NextIsPositive(logs, pages, limit, k);
      }
      forall i: nat, k: nat | 0 < i < k <= |pages| && pages[k - 1].pageInfo.hasNextPage
        ensures Cursor(pages, k) < Cursor(pages, i)
      {
        if k <= n {
          PrefixCursors(pages, n, k);
          PrefixCursors(pages, n, i);
          assert pages[..n][k - 1] == pages[k - 1];
        } else {
          CursorsFall(logs, pages, limit, i);
        }
      }
    }
  }

  lemma NextIsPositive(logs: seq<Log>, pages: seq<Page>, limit: int, k: nat)
    requires Walk(logs, pages, limit) && 0 < k <= |pages| && pages[k - 1].pageInfo.hasNextPage
    requires Chained(pages[..|pages| - 1])
    ensures pages[k - 1].pageInfo.endCursor.Some? && Cursor(pages, k) >= 1
  {
    var n := |pages| - 1;
    if k <= n {
      PrefixCursors(pages, n, k);
      assert pages[..n][k - 1] == pages[k - 1];
    } else {
      CursorsFall(logs, pages, limit, 0);
    }
  }

  lemma WalkGrows(logs: seq<Log>, pages: seq<Page>, limit: int)
    requires |logs| == |pages| > 0
    requires Walk(logs[..|pages| - 1], pages[..|pages| - 1], limit)
    requires ValidLog(logs[|pages| - 1])
    requires Fetched(pages[|pages| - 1], logs[|pages| - 1], Cursor(pages, |pages| - 1), limit)
    requires |pages| > 1 ==> HasNext(pages[..|pages| - 1]) && Evolves(logs[|pages| - 2], logs[|pages| - 1])
    ensures Walk(logs, pages, limit)
  {
  }

  lemma CursorsKept(pages: seq<Page>, page: Page)
    ensures (pages + [page])[..|pages|] == pages
    ensures forall k {:trigger Cursor(pages + [page], k)} | 0 <= k <= |pages| :: Cursor(pages + [page], k) == Cursor(pages, k)
  {
  }

  lemma AppendPage(pages: seq<Page>)
    requires pages != []
    ensures IdsOf(Items(pages)) == IdsOf(Items(pages[..|pages| - 1])) + IdsOf(pages[|pages| - 1].nodes)
  {
    IdsOfConcat(Items(pages[..|pages| - 1]), pages[|pages| - 1].nodes);
  }

  lemma IdsOfConcat(a: seq<Node>, b: seq<Node>)
    ensures IdsOf(a + b) == IdsOf(a) + IdsOf(b)
  {
  }

  lemma CursorIsNonNegative(logs: seq<Log>, pages: seq<Page>, limit: int)
    requires Walk(logs, pages, limit) && pages != []
    ensures var n := |pages| - 1;
            Cursor(pages, n) >= 0 && (n > 0 ==> Cursor(pages, n) >= 1) && Cursor(pages, n) == Cursor(pages[..n], n)
  {
    var n := |pages| - 1;
    if n > 0 {
      CursorsFall(logs[..n], pages[..n], limit, 0);
    }
  }

  ghost predicate AlwaysThere(logs: seq<Log>, id: int) {
    forall k | 0 <= k < |logs| :: id in logs[k].rows
  }

  /**
   The pages so far hold strictly falling ids, none below the next cursor, and every row that has been
   there all along is among them unless it lies below that cursor.
   */
  lemma {:induction false} WalkCovers(logs: seq<Log>, pages: seq<Page>, limit: int)
    requires Walk(logs, pages, limit)
    ensures StrictlyFalls(IdsOf(Items(pages)))
    ensures HasNext(pages) ==> forall id | id in IdsOf(Items(pages)) :: id >= Cursor(pages, |pages|)
    ensures pages != [] ==> forall id | AlwaysThere(logs, id) ::
              id in IdsOf(Items(pages)) || (HasNext(pages) && id < Cursor(pages, |pages|))
    decreases |pages|
  {
    if pages != [] {
      var n := |pages| - 1;
      WalkCovers(logs[..n], pages[..n], limit);
      CursorIsNonNegative(logs, pages, limit);
      PageCovers(pages[n], logs[n], Cursor(pages, n), limit);
      AppendPage(pages);
      var a, b := IdsOf(Items(pages[..n])), IdsOf(pages[n].nodes);
      if n > 0 {
        assert HasNext(pages[..n]);
        Joined(a, b, Cursor(pages, n));
      } else {
        assert a == [];
        assert a + b == b;
      }
      forall id | AlwaysThere(logs, id)
        ensures id in a + b || (HasNext(pages) && id < Cursor(pages, |pages|))
      {
        assert id in logs[n].rows;
        assert AlwaysThere(logs[..n], id);
        if id !in a {
          assert id in Below(logs[n], Cursor(pages, n));
        }
      }
    }
  }

  lemma Joined(a: seq<int>, b: seq<int>, cut: int)
    requires StrictlyFalls(a) && StrictlyFalls(b)
    requires forall x | x in a :: x >= cut
    requires forall x | x in b :: x < cut
    ensures StrictlyFalls(a + b)
  {
    forall i, j | 0 <= i < j < |a + b| ensures (a + b)[i] > (a + b)[j] {
      if i < |a| <= j {
        assert a[i] in a && b[j - |a|] in b;
      }
    }
  }

  /** Whatever is appended and purged between the fetches, the rows shown fall strictly: none is shown twice. */
  lemma ItemsNeverRepeat(logs: seq<Log>, pages: seq<Page>, limit: int)
    requires Walk(logs, pages, limit)
    ensures StrictlyFalls(IdsOf(Items(pages)))
  {
    WalkCovers(logs, pages, limit);
  }

  /** A finished walk omits no row that was there from the first fetch to the last. */
  lemma NothingIsOmitted(logs: seq<Log>, pages: seq<Page>, limit: int, id: int)
    requires Walk(logs, pages, limit) && pages != [] && !HasNext(pages) && AlwaysThere(logs, id)
    ensures id in IdsOf(Items(pages))
  {
    WalkCovers(logs, pages, limit);
  }

  /** Every walk ends: the cursor falls at each page and stays positive, so there are at most as many pages as ids. */
  lemma {:induction false} WalksEnd(logs: seq<Log>, pages: seq<Page>, limit: int)
    requires Walk(logs, pages, limit) && pages != []
    ensures |pages| <= logs[0].next
    ensures HasNext(pages) ==> 1 <= Cursor(pages, |pages|) <= logs[0].next - |pages|
    decreases |pages|
  {
    var n := |pages| - 1;
    if n == 0 {
      PageCovers(pages[0], logs[0], 0, limit);
    } else {
      WalksEnd(logs[..n], pages[..n], limit);
      CursorIsNonNegative(logs, pages, limit);
      if HasNext(pages) {
        CursorsFall(logs, pages, limit, n);
      }
    }
  }

  lemma {:induction false} ItemsAreRows(log: Log, logs: seq<Log>, pages: seq<Page>, limit: int)
    requires Walk(logs, pages, limit)
    requires forall k | 0 <= k < |logs| :: logs[k] == log
    ensures forall i | 0 <= i < |Items(pages)| ::
              Items(pages)[i].id in log.rows && Items(pages)[i].row == log.rows[Items(pages)[i].id]
    decreases |pages|
  {
    if pages != [] {
      var n := |pages| - 1;
      ItemsAreRows(log, logs[..n], pages[..n], limit);
      CursorIsNonNegative(logs, pages, limit);
      PageCovers(pages[n], logs[n], Cursor(pages, n), limit);
    }
  }

  /** Over a log that stands still a finished walk shows the whole log, newest first, for any requested limit. */
  lemma FrozenWalkShowsEverything(log: Log, logs: seq<Log>, pages: seq<Page>, limit: int)
    requires Walk(logs, pages, limit) && pages != [] && !HasNext(pages)
    requires forall k | 0 <= k < |logs| :: logs[k] == log
    ensures IdsOf(Items(pages)) == Descending(log.rows.Keys)
    ensures forall i | 0 <= i < |Items(pages)| ::
              Items(pages)[i].id in log.rows && Items(pages)[i].row == log.rows[Items(pages)[i].id]
  {
    ItemsNeverRepeat(logs, pages, limit);
    ItemsAreRows(log, logs, pages, limit);
    forall x | x in log.rows.Keys ensures x in IdsOf(Items(pages)) {
      NothingIsOmitted(logs, pages, limit, x);
    }
    OneDescendingOrder(IdsOf(Items(pages)), log.rows.Keys);
  }

  lemma OneDescendingOrder(ids: seq<int>, keys: set<int>)
    requires StrictlyFalls(ids)
    requires forall i | 0 <= i < |ids| :: ids[i] in keys
    requires forall x | x in keys :: x in ids
    ensures ids == Descending(keys)
  {
    DescendingIsSorted(keys);
    forall x | x in keys ensures x in ids {
    }
    SameElements(ids, keys);
    SameElements(Descending(keys), keys);
    FallingIsUnique(ids, Descending(keys));
  }

  lemma SameElements<T>(s: seq<T>, elements: set<T>)
    requires forall i | 0 <= i < |s| :: s[i] in elements
    requires forall x | x in elements :: x in s
    ensures Elements(s) == elements
  {
  }

  // ---------------------------------------------------------------- the client

  /** The cache holds the walk's pages, each under the cursor it was fetched at. */
  ghost predicate Caches(loaded: map<int, Page>, pages: seq<Page>) {
    && (forall i {:trigger Cursor(pages, i)} | 0 <= i < |pages| ::
          Cursor(pages, i) in loaded && loaded[Cursor(pages, i)] == pages[i])
    && (forall c | c in loaded :: exists i | 0 <= i < |pages| :: c == Cursor(pages, i))
  }

  lemma Reload(was: seq<Page>, pages: seq<Page>, cached: map<int, Page>, loaded: map<int, Page>, before: int, page: Page)
    requires Caches(cached, was) && before !in cached && before == Cursor(was, |was|)
    requires pages == was + [page] && loaded == cached[before := page]
    requires forall k {:trigger Cursor(pages, k)} | 0 <= k <= |was| :: Cursor(pages, k) == Cursor(was, k)
    ensures Caches(loaded, pages)
  {
    forall c | c in loaded ensures exists i | 0 <= i < |pages| :: c == Cursor(pages, i) {
      if c == before {
        assert c == Cursor(pages, |was|);
      } else {
        var i :| 0 <= i < |was| && c == Cursor(was, i);
        assert c == Cursor(pages, i);
      }
    }
  }

  /** The cursors shown are those of the first pages fetched, and every page fetched is in the cache. */
  ghost predicate Shows(cursors: seq<int>, loaded: map<int, Page>, pages: seq<Page>) {
    && 1 <= |cursors| <= |pages| + 1 && Chained(pages)
    && (forall i | 0 <= i < |cursors| :: cursors[i] == Cursor(pages, i))
    && (|cursors| > 1 ==> pages[|cursors| - 2].pageInfo.hasNextPage)
    && Caches(loaded, pages)
  }

  lemma ShownIsLoaded(cursors: seq<int>, loaded: map<int, Page>, pages: seq<Page>, i: nat)
    requires Shows(cursors, loaded, pages) && |cursors| <= |pages| && i < |cursors|
    ensures cursors[i] in loaded
  {
    assert Cursor(pages, i) in loaded;
  }

  lemma ShowsOneMore(cursors: seq<int>, loaded: map<int, Page>, pages: seq<Page>, page: Page, loaded': map<int, Page>)
    requires Shows(cursors, loaded, pages) && |cursors| == |pages| + 1
    requires Chained(pages + [page]) && Caches(loaded', pages + [page])
    requires forall k {:trigger Cursor(pages + [page], k)} | 0 <= k <= |pages| :: Cursor(pages + [page], k) == Cursor(pages, k)
    ensures Shows(cursors, loaded', pages + [page])
  {
    forall i | 0 <= i < |cursors| ensures cursors[i] == Cursor(pages + [page], i) {
      assert Cursor(pages + [page], i) == Cursor(pages, i);
    }
  }

  /** A page fetched at the next cursor extends the walk, and the cache with it. */
  lemma OnePageMore(logs: seq<Log>, pages: seq<Page>, loaded: map<int, Page>, limit: int, log: Log, page: Page)
    requires Walk(logs, pages, limit) && Caches(loaded, pages)
    requires ValidLog(log) && (logs != [] ==> HasNext(pages) && Evolves(logs[|logs| - 1], log))
    requires Cursor(pages, |pages|) !in loaded && Fetched(page, log, Cursor(pages, |pages|), limit)
    ensures Walk(logs + [log], pages + [page], limit) && Chained(pages + [page])
    ensures Caches(loaded[Cursor(pages, |pages|) := page], pages + [page])
    ensures forall k {:trigger Cursor(pages + [page], k)} | 0 <= k <= |pages| :: Cursor(pages + [page], k) == Cursor(pages, k)
  {
    CursorsKept(pages, page);
    assert (logs + [log])[..|logs|] == logs;
    WalkGrows(logs + [log], pages + [page], limit);
    WalksAreChained(logs + [log], pages + [page], limit);
    Reload(pages, pages + [page], loaded, loaded[Cursor(pages, |pages|) := page], Cursor(pages, |pages|), page);
  }

  /** $starterkit_paging: the cursors shown, and the page of every cursor asked for so far, fetched once each. */
  class Pager {
    const pageSize: int
    var cursors: seq<int>
    var loaded: map<int, Page>
    // history: the pages in the order they were fetched, and the log each was fetched from
    ghost var pages: seq<Page>
    ghost var logs: seq<Log>

    ghost predicate Valid()
      reads this
    {
      |logs| == |pages| && Shows(cursors, loaded, pages)
    }

    /** Every cursor shown has its page. */
    predicate Ready()
      reads this
    {
      cursors != [] && forall i | 0 <= i < |cursors| :: cursors[i] in loaded
    }

    constructor (pageSize: int)
      ensures Valid() && this.pageSize == pageSize && cursors == [0] && pages == [] && logs == []
    {
      this.pageSize, cursors, loaded, pages, logs := pageSize, [0], map[], [], [];
    }

    /** The last cursor's page is there exactly when it was fetched before: no two pages share a cursor. */
    lemma LoadedIffFetched()
      requires Valid()
      ensures cursors[|cursors| - 1] in loaded <==> |cursors| <= |pages|
    {
    }

    lemma AllLoaded()
      requires Valid() && |cursors| <= |pages|
      ensures Ready()
    {
      forall i | 0 <= i < |cursors| ensures cursors[i] in loaded {
        ShownIsLoaded(cursors, loaded, pages, i);
      }
    }

    /** fetch(): the page at a cursor not asked for before, from the log as it is now. */
    method Fetch(log: Log, counted: Log)
      requires Valid() && Walk(logs, pages, pageSize) && |cursors| == |pages| + 1
      requires ValidLog(log) && (logs != [] ==> Evolves(logs[|logs| - 1], log))
      modifies this`loaded, this`pages, this`logs
      ensures Valid() && |cursors| == |pages| && Walk(logs, pages, pageSize) && logs == old(logs) + [log]
      ensures |pages| == |old(pages)| + 1 && pages[..|old(pages)|] == old(pages)
    {
      var before := cursors[|cursors| - 1];
      LoadedIffFetched();
      var page := Resolve(Some(log), Some(counted), pageSize, if before == 0 then None else Some(before));
      OnePageMore(logs, pages, loaded, pageSize, log, page.value);
      ShowsOneMore(cursors, loaded, pages, page.value, loaded[before := page.value]);
      loaded, pages, logs := loaded[before := page.value], pages + [page.value], logs + [log];
    }

    /** The page of the last cursor: the one already there, or a fetch from the log as it is now. */
    method LoadLast(log: Log, counted: Log)
      requires Valid() && Walk(logs, pages, pageSize)
      requires ValidLog(log) && (logs != [] ==> Evolves(logs[|logs| - 1], log))
      modifies this`loaded, this`pages, this`logs
      ensures Valid() && Ready() && Walk(logs, pages, pageSize)
      ensures if old(|cursors| <= |pages|) then pages == old(pages) && logs == old(logs)
              else logs == old(logs) + [log] && |pages| == |old(pages)| + 1 && pages[..|old(pages)|] == old(pages)
    {
      LoadedIffFetched();
      if cursors[|cursors| - 1] !in loaded {
        Fetch(log, counted);
      }
      AllLoaded();
    }

    /** more(): the next cursor is shown exactly when the last page says there is one. */
    method More()
      requires Valid() && Ready()
      modifies this`cursors
      ensures Valid()
      ensures loaded[old(cursors)[|old(cursors)| - 1]].pageInfo.hasNextPage ==>
                loaded[old(cursors)[|old(cursors)| - 1]].pageInfo.endCursor.Some?
      ensures var last := loaded[old(cursors)[|old(cursors)| - 1]].pageInfo;
              cursors == old(cursors) + (if last.hasNextPage then [last.endCursor.value] else [])
    {
      LoadedIffFetched();
      var last := loaded[cursors[|cursors| - 1]].pageInfo;
      assert last == pages[|cursors| - 1].pageInfo;
      ghost var next := Cursor(pages, |cursors|);
      assert last.hasNextPage ==> last.endCursor.Some? && last.endCursor.value == Cursor(pages, |cursors|);
      if !last.hasNextPage || last.endCursor.None? {
        return;
      }
      cursors := cursors + [last.endCursor.value];
    }

    /** reset(): back to the first page; the pages already fetched stay. */
    method Reset()
      requires Valid()
      modifies this`cursors
      ensures Valid() && cursors == [0]
    {
      cursors := [0];
    }

    /** items(): the nodes of the shown pages, one after another, which are those of the walk so far. */
    method GetItems() returns (nodes: seq<Node>)
      requires Valid() && Ready()
      ensures |cursors| <= |pages| && nodes == Items(pages[..|cursors|])
    {
      LoadedIffFetched();
      nodes := [];
      var i := 0;
      while i < |cursors|
        invariant 0 <= i <= |cursors| && nodes == Items(pages[..i])
      {
        assert pages[..i + 1][..i] == pages[..i];
        nodes := nodes + loaded[cursors[i]].nodes;
        i := i + 1;
      }
    }
  }
}
