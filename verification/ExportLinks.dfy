/** The Link header of an export page: its cursor parameter, printed and read back. */
module ExportLinks {
  import opened Sequences
  import opened Wrappers
  import opened LinkHeader
  import opened LinkRoundTrip
  import opened Decimal
  import opened ExportQuery

  // ---------------------------------------------------------------- the page links

  const CURSOR := "?id_max="

  function PageUri(path: string, value: string): string {
    path + CURSOR + value
  }

  class PageLinks {
    const path: string
    var links: seq<Link>

    constructor (path: string)
      ensures this.path == path && links == []
    {
      this.path := path;
      links := [];
    }

    method Current(value: string)
      modifies this
      ensures links == old(links) + [Link(PageUri(path, value), "current", map[])]
    {
      links := links + [Link(PageUri(path, value), "current", map[])];
    }

    method Next(value: string)
      modifies this
      ensures links == old(links) + [Link(PageUri(path, value), "next", map[])]
    {
      links := links + [Link(PageUri(path, value), "next", map[])];
    }

    method Header() returns (text: string)
      ensures text == Printed(links)
    {
      text := Format(links);
    }
  }

  /** The value of the cursor parameter of a request. */
  function CursorOf(uri: string): string {
    var i := IndexOf(uri, '?');
    if CURSOR <= uri[i..] then uri[i + |CURSOR|..] else ""
  }

  function PathOf(uri: string): string {
    uri[..IndexOf(uri, '?')]
  }

  /** A cursor that is no number makes the handler panic. */
  function IdMaxOf(uri: string): Option<int> {
    if CursorOf(uri) == "" then Some(0) else Atoi(CursorOf(uri))
  }

  function PageLinksOf(path: string, rows: seq<Row>, more: bool): seq<Link>
    requires more ==> rows != []
  {
    (if rows != [] then [Link(PageUri(path, Itoa(rows[0].id)), "current", map[])] else [])
    + (if more then [Link(PageUri(path, Itoa(rows[|rows| - 1].id)), "next", map[])] else [])
  }

  /** What a client does with a header: parse it and take the first `next` link. */
  function NextUri(header: string): Option<string> {
    match Parsed(header)
    case Failure(_) => None
    case Success(links) => FirstNext(links)
  }

  function FirstNext(links: seq<Link>): Option<string> {
    if links == [] then None else if links[0].rel == "next" then Some(links[0].uri) else FirstNext(links[1..])
  }

  predicate ProperPath(path: string) {
    '?' !in path && '>' !in path
  }

  /** The query of a URI starts at its first question mark. */
  lemma QueryAt(path: string, query: string)
    requires '?' !in path && query != "" && query[0] == '?'
    ensures var uri := path + query; IndexOf(uri, '?') == |path| && uri[|path|..] == query && uri[..|path|] == path
  {
    hide IndexOf;
    var uri := path + query;
    var i := IndexOf(uri, '?');
    assert uri[|path|] == '?';
    assert forall k :: 0 <= k < i ==> uri[k] == uri[..i][k];
    assert forall k :: 0 <= k < |path| ==> uri[k] == path[k];
  }

  lemma UriBack(path: string, id: int)
    requires ProperPath(path) && 0 <= id <= MAX_INT
    ensures var uri := PageUri(path, Itoa(id));
            PathOf(uri) == path && IdMaxOf(uri) == Some(id) && '>' !in uri
  {
    hide IndexOf, Atoi, Digits;
    var value := Itoa(id);
    Regroup(path, CURSOR, value);
    QueryAt(path, CURSOR + value);
    assert (CURSOR + value)[|CURSOR|..] == value;
    AtoiItoa(id);
    assert forall k :: 0 <= k < |value| ==> value[k] != '>';
  }

  lemma BarePath(path: string)
    requires ProperPath(path)
    ensures PathOf(path) == path && IdMaxOf(path) == Some(0)
  {
    hide IndexOf;
    assert IndexOf(path, '?') == |path|;
    assert path[|path|..] == "";
  }

  lemma PageLinkProper(path: string, id: int, rel: string)
    requires ProperPath(path) && 0 <= id <= MAX_INT && (rel == "current" || rel == "next")
    ensures WellFormed(Link(PageUri(path, Itoa(id)), rel, map[]))
  {
    hide PageUri;
    hide Itoa;
    hide PathOf;
    hide IdMaxOf;
    UriBack(path, id);
  }

  /**
   * The printed header, parsed again, is a current link with the first row's id as its cursor when the
   * page has rows, and after it a next link with the last row's id when there is a following page.
   */
  lemma HeaderLinks(path: string, rows: seq<Row>, more: bool)
    requires ProperPath(path) && (more ==> rows != []) && forall i :: 0 <= i < |rows| ==> 0 <= rows[i].id <= MAX_INT
    ensures var r := Parsed(Printed(PageLinksOf(path, rows, more)));
            && r.Success?
            && |r.value| == (if rows != [] then 1 else 0) + (if more then 1 else 0)
            && (rows != [] ==> r.value[0] == Link(path + "?id_max=" + Itoa(rows[0].id), "current", map[]))
            && (rows != [] ==> IdMaxOf(r.value[0].uri) == Some(rows[0].id))
            && (more ==> r.value[1] == Link(path + "?id_max=" + Itoa(rows[|rows| - 1].id), "next", map[]))
            && (more ==> IdMaxOf(r.value[1].uri) == Some(rows[|rows| - 1].id))
  {
    hide WellFormed, Itoa, Printed, Parsed, IdMaxOf;
    var links := PageLinksOf(path, rows, more);
    if rows != [] {
      PageLinkProper(path, rows[0].id, "current");
      PageLinkProper(path, rows[|rows| - 1].id, "next");
      UriBack(path, rows[0].id);
      UriBack(path, rows[|rows| - 1].id);
    }
    assert forall l :: l in links ==> WellFormed(l);
    RoundTrip(links);
  }

  /** The printed header, parsed again, names the following page exactly when there is one. */
  lemma HeaderBack(path: string, rows: seq<Row>, more: bool)
    requires ProperPath(path) && (more ==> rows != []) && forall i :: 0 <= i < |rows| ==> 0 <= rows[i].id <= MAX_INT
    ensures NextUri(Printed(PageLinksOf(path, rows, more)))
         == if more then Some(PageUri(path, Itoa(rows[|rows| - 1].id))) else None
  {
    hide PageUri, WellFormed, Itoa, Printed, Parsed;
    var links := PageLinksOf(path, rows, more);
    if rows != [] {
      PageLinkProper(path, rows[0].id, "current");
      PageLinkProper(path, rows[|rows| - 1].id, "next");
    }
    assert forall l :: l in links ==> WellFormed(l);
    RoundTrip(links);
    FirstNextOf(links);
  }

  lemma FirstNextOf(links: seq<Link>)
    requires |links| <= 2 && (|links| > 0 ==> links[0].rel == "current") && (|links| == 2 ==> links[1].rel == "next")
    ensures FirstNext(links) == if |links| == 2 then Some(links[1].uri) else None
  {
    if |links| == 2 {
      assert links[1..][0] == links[1];
    }
  }
}
