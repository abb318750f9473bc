/**
 * The export endpoints: one page of rows by descending id, found with a query for one row more than a
 * page, and a Link header whose `next` link carries the last id as the cursor of the following page.
 */
module ExportPages {
  import opened Wrappers
  import opened LinkHeader
  import opened Decimal
  import opened ExportQuery
  import opened ExportLinks
  import opened Sequences

  datatype Response = Response(rows: seq<Row>, header: string)

  /** The row loop: a page of results, and the probe row's id when there is one. */
  method ReadRows(rows: seq<Row>) returns (results: seq<Row>, next: string)
    requires |rows| <= PAGE_LENGTH + 1
    ensures results == Limited(rows, PAGE_LENGTH)
    ensures next == if |rows| > PAGE_LENGTH then Itoa(rows[PAGE_LENGTH].id) else ""
  {
    results, next := [], "";
    var count := 0;
    for i := 0 to |rows|
      invariant count == i
      invariant results == Limited(rows[..i], PAGE_LENGTH)
      invariant next == if i > PAGE_LENGTH then Itoa(rows[PAGE_LENGTH].id) else ""
    {
      count := count + 1;
      assert rows[..i + 1] == rows[..i] + [rows[i]];
      if count > PAGE_LENGTH {
        next := Itoa(rows[i].id);
      } else {
        results := results + [rows[i]];
      }
    }
    assert rows[..|rows|] == rows;
  }

  ghost function Served(table: Table, uri: string): Option<Response> {
    match IdMaxOf(uri)
    case None => None
    case Some(idMax) =>
      var all := Query(table, idMax);
      var rows := Limited(all, PAGE_LENGTH);
      Some(Response(rows, Printed(PageLinksOf(PathOf(uri), rows, |all| > PAGE_LENGTH))))
  }

  /** The handler, given the answer of the database to its query. */
  method Handle(ghost table: Table, uri: string, database: seq<Row>) returns (r: Option<Response>)
    requires IdMaxOf(uri).Some? ==> database == Query(table, IdMaxOf(uri).value)
    ensures r == Served(table, uri)
  {
    hide Printed;
    hide IdMaxOf;
    hide Digits;
    hide Remaining;
    if IdMaxOf(uri).None? {
      return None;
    }
    var rows, next := ReadRows(database);
    var links := new PageLinks(PathOf(uri));
    if |rows| > 0 {
      links.Current(Itoa(rows[0].id));
    }
    if next != "" {
      links.Next(Itoa(rows[|rows| - 1].id));
    }
    var header := links.Header();
    assert links.links == PageLinksOf(PathOf(uri), rows, next != "");
    r := Some(Response(rows, header));
  }

  lemma CursorRead(path: string, value: string)
    requires ProperPath(path)
    ensures var uri := path + "?id_max=" + value;
            PathOf(uri) == path && IdMaxOf(uri) == if value == "" then Some(0) else Atoi(value)
  {
    hide IndexOf, Atoi;
    var uri := path + "?id_max=" + value;
    Regroup(path, "?id_max=", value);
    QueryAt(path, "?id_max=" + value);
    assert ("?id_max=" + value)[|"?id_max="|..] == value;
    assert uri[|path| + |"?id_max="|..] == value;
  }

  /** What a page holds: the rows with the highest ids under the cursor, at most a thousand. */
  ghost predicate PageOf(rows: seq<Row>, table: Table, cursor: int) {
    && |rows| <= 1000
    && (forall i, j :: 0 <= i < j < |rows| ==> rows[i].id > rows[j].id)
    && (forall i :: 0 <= i < |rows| ==> rows[i].id in table && rows[i].data == table[rows[i].id] && (cursor == 0 || rows[i].id < cursor))
    && (forall id :: id in table && (cursor == 0 || id < cursor) && (|rows| < 1000 || id >= rows[999].id) ==> Row(id, table[id]) in rows)
  }

  /** The handler fails exactly for a cursor that is no number, and otherwise serves the page under it. */
  lemma PageServed(table: Table, path: string, value: string)
    requires ProperPath(path)
    ensures var r, cursor := Served(table, path + "?id_max=" + value), if value == "" then Some(0) else Atoi(value);
            && (r.None? <==> cursor.None?)
            && (r.Some? ==> PageOf(r.value.rows, table, cursor.value))
  {
    hide Atoi, IdMaxOf, PathOf, Printed, PageLinksOf, PageOf;
    CursorRead(path, value);
    var cursor := if value == "" then Some(0) else Atoi(value);
    if cursor.Some? {
      PageFilled(table, cursor.value);
    }
  }

  lemma PageFilled(table: Table, cursor: int)
    ensures PageOf(Limited(Query(table, cursor), PAGE_LENGTH), table, cursor)
  {
    var ids := Ordered(Below(table, cursor));
    var rows := Limited(Query(table, cursor), PAGE_LENGTH);
    assert |rows| == if |ids| < 1000 then |ids| else 1000;
    assert forall k :: 0 <= k < |rows| ==> rows[k] == Row(ids[k], table[ids[k]]);
    hide Ordered, Limited, Query, Below;
    BelowExact(table, cursor);
    forall id | id in table && (cursor == 0 || id < cursor) && (|rows| < 1000 || id >= rows[999].id)
      ensures Row(id, table[id]) in rows
    {
      assert id in ids;
      var k :| 0 <= k < |ids| && ids[k] == id;
      if |ids| >= 1000 {
        Early(ids, Below(table, cursor), k, 999);
      }
      assert rows[k] == Row(id, table[id]);
    }
  }

  lemma Early(ids: seq<int>, of: set<int>, k: nat, n: nat)
    requires IsSorted(ids, of, ExportQuery.Above) && k < |ids| && n < |ids|
    ensures ids[k] >= ids[n] ==> k <= n
  {
    if k > n {
      assert ExportQuery.Above(ids[n], ids[k]);
    }
  }

  lemma BelowExact(table: Table, cursor: int)
    ensures forall id :: id in Below(table, cursor) <==> id in table && (cursor == 0 || id < cursor)
  {
  }

  /** The rows of at most `requests` requests, request `i` seeing table `i`; `None` if they do not suffice. */
  ghost function Crawled(tables: nat -> Table, i: nat, uri: string, requests: nat): Option<seq<Row>>
    decreases requests
  {
    if requests == 0 then None else
      match Served(tables(i), uri)
      case None => None
      case Some(response) =>
        match NextUri(response.header)
        case None => Some(response.rows)
        case Some(next) =>
          var rest := Crawled(tables, i + 1, next, requests - 1);
          if rest.Some? then Some(response.rows + rest.value) else None
  }

  /** Between two requests rows are only added, with ids above all that are there. */
  ghost predicate GrowsAt(tables: nat -> Table, i: nat) {
    && ProperIds(tables(i))
    && (forall id :: id in tables(i) ==> id in tables(i + 1) && tables(i + 1)[id] == tables(i)[id])
    && (forall id, added :: id in tables(i) && added in tables(i + 1) && added !in tables(i) ==> id < added)
  }

  ghost predicate Grows(tables: nat -> Table) {
    forall i: nat :: GrowsAt(tables, i)
  }

  /** Rows added later do not show under a cursor that was in the table before. */
  lemma RemainingStable(tables: nat -> Table, i: nat, cursor: int)
    requires Grows(tables) && cursor in tables(i)
    ensures cursor in tables(i + 1) && Remaining(tables(i + 1), cursor) == Remaining(tables(i), cursor)
  {
    assert GrowsAt(tables, i);
    assert Below(tables(i + 1), cursor) == Below(tables(i), cursor);
    hide Below;
    hide Ordered;
  }

  function Pages(rows: nat): nat {
    1 + (if rows == 0 then 0 else (rows - 1) / PAGE_LENGTH)
  }

  lemma {:induction false} CrawlFrom(tables: nat -> Table, i: nat, path: string, uri: string, idMax: nat, all: seq<Row>)
    requires Grows(tables) && ProperPath(path)
    requires PathOf(uri) == path && IdMaxOf(uri) == Some(idMax)
    requires all == Remaining(tables(i), idMax)
    ensures Crawled(tables, i, uri, Pages(|all|)) == Some(all)
    decreases |all|
  {
    hide *;
    PagesTurn(|all|);
    var header := ServedPageOf(tables, i, path, uri, idMax, all);
    CrawledTurn(tables, i, uri, Limited(all, PAGE_LENGTH), header, Pages(|all|) - 1);
    Whole(all);
    if |all| > PAGE_LENGTH {
      var last := NextPage(tables, i, path, idMax);
      CrawlFrom(tables, i + 1, path, PageUri(path, Itoa(last)), last, all[PAGE_LENGTH..]);
    }
  }

  lemma ServedPageOf(tables: nat -> Table, i: nat, path: string, uri: string, idMax: nat, all: seq<Row>)
    returns (header: string)
    requires Grows(tables) && ProperPath(path)
    requires PathOf(uri) == path && IdMaxOf(uri) == Some(idMax)
    requires all == Remaining(tables(i), idMax)
    ensures Served(tables(i), uri) == Some(Response(Limited(all, PAGE_LENGTH), header))
    ensures NextUri(header) == if |all| > PAGE_LENGTH then Some(PageUri(path, Itoa(all[PAGE_LENGTH - 1].id))) else None
  {
    assert GrowsAt(tables, i);
    header := ServedBack(tables(i), path, uri, idMax);
  }

  lemma Whole(all: seq<Row>)
    ensures if |all| > PAGE_LENGTH then Limited(all, PAGE_LENGTH) + all[PAGE_LENGTH..] == all
            else Limited(all, PAGE_LENGTH) == all
  {
  }

  /** Where the page after a full one starts, and what is left for it. */
  lemma NextPage(tables: nat -> Table, i: nat, path: string, idMax: nat) returns (last: nat)
    requires Grows(tables) && ProperPath(path) && |Remaining(tables(i), idMax)| > PAGE_LENGTH
    ensures var all := Remaining(tables(i), idMax);
            last == all[PAGE_LENGTH - 1].id && Remaining(tables(i + 1), last) == all[PAGE_LENGTH..] &&
            Limited(all, PAGE_LENGTH) + all[PAGE_LENGTH..] == all
    ensures PathOf(PageUri(path, Itoa(last))) == path && IdMaxOf(PageUri(path, Itoa(last))) == Some(last)
  {
    var all := Remaining(tables(i), idMax);
    assert GrowsAt(tables, i);
    RemainingRows(tables(i), idMax);
    assert all[PAGE_LENGTH - 1] in all;
    last := all[PAGE_LENGTH - 1].id;
    UriBack(path, last);
    RemainingTail(tables(i), idMax, PAGE_LENGTH);
    RemainingStable(tables, i, last);
    Whole(all);
    hide *;
  }

  lemma PagesTurn(n: nat)
    ensures Pages(n) > 0 && if n > PAGE_LENGTH then Pages(n) - 1 == Pages(n - PAGE_LENGTH) else Pages(n) == 1
  {
  }

  /** The served page and where its header leads. */
  lemma ServedBack(table: Table, path: string, uri: string, idMax: nat) returns (header: string)
    requires ProperIds(table) && ProperPath(path) && PathOf(uri) == path && IdMaxOf(uri) == Some(idMax)
    ensures var all := Remaining(table, idMax);
            Served(table, uri) == Some(Response(Limited(all, PAGE_LENGTH), header)) &&
            NextUri(header) == if |all| > PAGE_LENGTH then Some(PageUri(path, Itoa(all[PAGE_LENGTH - 1].id))) else None
  {
    hide Served, Remaining, PageUri, NextUri;
    var all := Remaining(table, idMax);
    var rows := Limited(all, PAGE_LENGTH);
    RemainingRows(table, idMax);
    assert forall k :: 0 <= k < |all| ==> all[k] in all;
    ServedPage(table, path, uri, idMax);
    HeaderBack(path, rows, |all| > PAGE_LENGTH);
    header := Printed(PageLinksOf(path, rows, |all| > PAGE_LENGTH));
  }

  /** One request of a crawl. */
  lemma CrawledTurn(tables: nat -> Table, i: nat, uri: string, rows: seq<Row>, header: string, requests: nat)
    ensures Served(tables(i), uri) == Some(Response(rows, header)) ==>
              Crawled(tables, i, uri, requests + 1) ==
              if NextUri(header).None? then Some(rows) else
                var rest := Crawled(tables, i + 1, NextUri(header).value, requests);
                if rest.Some? then Some(rows + rest.value) else None
  {
    hide Served;
    hide NextUri;
  }

  lemma ServedPage(table: Table, path: string, uri: string, idMax: nat)
    requires PathOf(uri) == path && IdMaxOf(uri) == Some(idMax)
    ensures var all := Remaining(table, idMax); var rows := Limited(all, PAGE_LENGTH);
            Served(table, uri) == Some(Response(rows, Printed(PageLinksOf(path, rows, |all| > PAGE_LENGTH))))
  {
    hide Printed;
    var all := Remaining(table, idMax);
    assert Limited(Query(table, idMax), PAGE_LENGTH) == Limited(all, PAGE_LENGTH);
  }

  /**
   * Following the printed and parsed next links from the bare path, with rows being added between the
   * requests, returns every row of the first table exactly once in descending order, and stops after
   * one request for each started page.
   */
  lemma CrawlComplete(tables: nat -> Table, path: string)
    requires Grows(tables) && ProperPath(path)
    ensures Crawled(tables, 0, path, Pages(|tables(0)|)) == Some(Remaining(tables(0), 0))
    ensures var rows := Remaining(tables(0), 0);
            |rows| == |tables(0)| &&
            (forall i, j :: 0 <= i < j < |rows| ==> rows[i].id > rows[j].id) &&
            forall id :: id in tables(0) ==> Row(id, tables(0)[id]) in rows
    ensures var n := |tables(0)|; if n == 0 then Pages(n) == 1 else 1000 * (Pages(n) - 1) < n <= 1000 * Pages(n)
  {
    BarePath(path);
    var table := tables(0);
    assert Below(table, 0) == table.Keys;
    var ids, rows := Ordered(table.Keys), Remaining(table, 0);
    OrderedSize(ids, table.Keys);
    forall id | id in table ensures Row(id, table[id]) in rows {
      assert id in ids;
      var k :| 0 <= k < |ids| && ids[k] == id;
      assert rows[k] == Row(id, table[id]);
    }
    CrawlFrom(tables, 0, path, path, 0, rows);
  }
}
