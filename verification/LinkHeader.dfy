/** Link header values (RFC 5988, section 5): the printer, the parser and their round trip. */
module LinkHeader {
  import opened Sequences
  import opened Wrappers

  datatype Link = Link(uri: string, rel: string, params: map<string, string>)

  datatype ParseError = NoOpeningBracket | NoClosingBracket | ExpectedSeparator | MalformedParam

  /** One `name=value` parameter and the text that follows it. */
  datatype Param = Param(name: string, value: string, rest: string)

  /** What the parameters of one link come to, and the text of the next link. */
  datatype Params = Params(rel: string, params: map<string, string>, rest: string)

  // ---------------------------------------------------------------- characters

  predicate IsSpace(c: char) {
    || '\t' <= c <= '\r' || c == ' ' || c == '\U{85}' || c == '\U{A0}' || c == '\U{1680}'
    || '\U{2000}' <= c <= '\U{200A}' || c == '\U{2028}' || c == '\U{2029}' || c == '\U{202F}'
    || c == '\U{205F}' || c == '\U{3000}'
  }

  predicate IsTokenChar(c: char) {
    '\U{20}' < c < '\U{7F}' && c != '"' && c != ',' && c != '=' && c != ';'
  }

  /** Only tokens are lower-cased, and tokens are ASCII. */
  function LowerChar(c: char): char {
    if 'A' <= c <= 'Z' then c - 'A' + 'a' else c
  }

  function ToLower(s: string): string {
    seq(|s|, i requires 0 <= i < |s| => LowerChar(s[i]))
  }

  function TrimLeft(s: string): (r: string)
    ensures |r| <= |s|
  {
    if s != "" && IsSpace(s[0]) then TrimLeft(s[1..]) else s
  }

  function TrimRight(s: string): string {
    if s != "" && IsSpace(s[|s| - 1]) then TrimRight(s[..|s| - 1]) else s
  }

  function TokenLength(s: string): (n: nat)
    ensures n <= |s| && (n < |s| ==> !IsTokenChar(s[n]))
    ensures forall i :: 0 <= i < n ==> IsTokenChar(s[i])
  {
    if s == "" || !IsTokenChar(s[0]) then 0 else 1 + TokenLength(s[1..])
  }

  // ---------------------------------------------------------------- what is parsed

  /** A quoted value after its opening quote: the unescaped text and what follows the closing quote. */
  function Unquote(s: string, literal: bool): (r: Option<(string, string)>)
    ensures r.Some? ==> |r.value.1| < |s|
  {
    if s == "" then None
    else if literal then Prefixed([s[0]], Unquote(s[1..], false))
    else if s[0] == '"' then Some(("", s[1..]))
    else if s[0] == '\\' then Unquote(s[1..], true)
    else if s[0] != '\r' && s[0] != '\n' then Prefixed([s[0]], Unquote(s[1..], false))
    else None
  }

  function Prefixed(p: string, r: Option<(string, string)>): Option<(string, string)> {
    if r.Some? then Some((p + r.value.0, r.value.1)) else None
  }

  /** `None` is the source's nil value: an empty token and an empty quoted string are both nil. */
  function ValueOf(s: string): (r: Option<(string, string)>)
    requires s != ""
    ensures r.Some? ==> r.value.0 != "" && |r.value.1| < |s|
  {
    if s[0] == '"' then
      var r := Unquote(s[1..], false);
      if r.Some? && r.value.0 != "" then r else None
    else
      var n := TokenLength(s);
      if n == 0 then None else Some((s[..n], s[n..]))
  }

  /** Lower-casing a nil name gives an empty one that is not nil, so an empty name is accepted. */
  function ParamOf(s: string): (r: Option<Param>)
    ensures r.Some? ==> r.value.value != "" && |r.value.rest| < |s|
  {
    var n := TokenLength(s);
    var afterName := TrimLeft(s[n..]);
    if afterName == "" || afterName[0] != '=' then None else
      var afterEquals := TrimLeft(afterName[1..]);
      if afterEquals == "" then None else
        match ValueOf(afterEquals)
        case None => None
        case Some((value, rest)) => Some(Param(ToLower(s[..n]), value, rest))
  }

  /** The first non-empty `rel` stays; any other parameter keeps its last value. */
  function WithParam(rel: string, params: map<string, string>, p: Param): (string, map<string, string>) {
    if p.name != "rel" then (rel, params[p.name := p.value])
    else if rel == "" then (p.value, params)
    else (rel, params)
  }

  function ParamsOf(s: string, rel: string, params: map<string, string>): (r: Result<Params, ParseError>)
    ensures r.Success? ==> |r.value.rest| <= |s|
    decreases |s|
  {
    if s == "" then Success(Params(rel, params, ""))
    else if s[0] != ';' && s[0] != ',' then Failure(ExpectedSeparator)
    else
      var after := TrimLeft(s[1..]);
      if s[0] == ',' || after == "" then Success(Params(rel, params, after)) else
        match ParamOf(after)
        case None => Failure(MalformedParam)
        case Some(p) =>
          var (rel', params') := WithParam(rel, params, p);
          ParamsOf(TrimLeft(p.rest), rel', params')
  }

  function LinksOf(s: string): Result<seq<Link>, ParseError>
    decreases |s|
  {
    if s == "" then Success([])
    else if s[0] != '<' then Failure(NoOpeningBracket)
    else
      var end := IndexOf(s, '>');
      if end == |s| then Failure(NoClosingBracket) else
        match ParamsOf(TrimLeft(s[end + 1..]), "", map[])
        case Failure(e) => Failure(e)
        case Success(p) => Consed(Link(s[1..end], p.rel, p.params), LinksOf(p.rest))
  }

  function Consed(l: Link, r: Result<seq<Link>, ParseError>): Result<seq<Link>, ParseError> {
    if r.Success? then Success([l] + r.value) else r
  }

  function Parsed(header: string): Result<seq<Link>, ParseError> {
    LinksOf(TrimRight(TrimLeft(header)))
  }

  // ---------------------------------------------------------------- what is printed

  /** Order of strings by code point, which is their order by UTF-8 bytes. */
  predicate Less(a: string, b: string) {
    b != "" && (a == "" || a[0] < b[0] || (a[0] == b[0] && Less(a[1..], b[1..])))
  }

  function ParamText(name: string, value: string): string {
    "; " + name + "=\"" + value + "\""
  }

  function ParamsText(keys: seq<string>, params: map<string, string>): string
    requires forall k :: k in keys ==> k in params
  {
    if keys == [] then "" else ParamText(keys[0], params[keys[0]]) + ParamsText(keys[1..], params)
  }

  ghost function SortedKeys(of: set<string>): (keys: seq<string>)
    ensures IsSorted(keys, of, Less)
  {
    LessOrders();
    assert exists keys :: IsSorted(keys, of, Less) by {
      var keys := SortedExists(of, Less);
    }
    var keys :| IsSorted(keys, of, Less);
    keys
  }

  ghost function LinkText(l: Link): string {
    "<" + l.uri + ">" + (ParamText("rel", l.rel) + ParamsText(SortedKeys(l.params.Keys), l.params))
  }

  ghost function Printed(links: seq<Link>): string {
    if links == [] then ""
    else if |links| == 1 then LinkText(links[0])
    else LinkText(links[0]) + ", " + Printed(links[1..])
  }

  // ---------------------------------------------------------------- sorting facts

  lemma {:induction false} LessTrichotomy(a: string, b: string)
    ensures Less(a, b) || Less(b, a) || a == b
    ensures !(Less(a, b) && Less(b, a))
    ensures !Less(a, a)
  {
    if a != "" {
      LessTrichotomy(a[1..], if b != "" then b[1..] else "");
      if b != "" && a[0] == b[0] && a[1..] == b[1..] {
        assert a == [a[0]] + a[1..] && b == [b[0]] + b[1..];
      }
    }
  }

  lemma {:induction false} LessTransitive(a: string, b: string, c: string)
    requires Less(a, b) && Less(b, c)
    ensures Less(a, c)
  {
    if a != "" && a[0] == b[0] && b[0] == c[0] {
      LessTransitive(a[1..], b[1..], c[1..]);
    }
  }

  lemma LessOrders()
    ensures StrictOrder(Less)
  {
    forall a, b ensures (Less(a, b) || Less(b, a) || a == b) && !(Less(a, b) && Less(b, a)) {
      LessTrichotomy(a, b);
    }
    forall a, b, c | Less(a, b) && Less(b, c) ensures Less(a, c) {
      LessTransitive(a, b, c);
    }
  }

  // ---------------------------------------------------------------- the loops of the source

  method ConsumeValue(v: string) returns (r: Option<(string, string)>)
    requires v != "" && v[0] == '"'
    ensures r == Unquote(v[1..], false)
  {
    var rest := v[1..];
    var buffer: string := "";
    var nextIsLiteral := false;
    assert rest[0..] == rest;
    PrefixedTwice("", "", Unquote(rest, false));
    for idx := 0 to |rest|
      invariant Unquote(rest, false) == Prefixed(buffer, Unquote(rest[idx..], nextIsLiteral))
    {
      var c := rest[idx];
      assert rest[idx..][1..] == rest[idx + 1..];
      PrefixedTwice(buffer, [c], Unquote(rest[idx + 1..], false));
      if nextIsLiteral {
        buffer := buffer + [c];
        nextIsLiteral := false;
      } else if c == '"' {
        assert buffer + "" == buffer;
        return Some((buffer, rest[idx + 1..]));
      } else if c == '\\' {
        nextIsLiteral := true;
      } else if c != '\r' && c != '\n' {
        buffer := buffer + [c];
      } else {
        return None;
      }
    }
    return None;
  }

  lemma PrefixedTwice(p: string, q: string, r: Option<(string, string)>)
    ensures Prefixed(p, Prefixed(q, r)) == Prefixed(p + q, r)
    ensures Prefixed("", r) == r
  {
    if r.Some? {
      assert p + (q + r.value.0) == (p + q) + r.value.0;
      assert "" + r.value.0 == r.value.0;
    }
  }

  method ConsumeParam(v: string) returns (r: Option<Param>)
    ensures r == ParamOf(v)
  {
    var n := TokenLength(v);
    var rest := TrimLeft(v[n..]);
    if rest == "" || rest[0] != '=' {
      return None;
    }
    rest := TrimLeft(rest[1..]);
    if rest == "" {
      return None;
    }
    var value: Option<(string, string)>;
    if rest[0] != '"' {
      value := ValueOf(rest);
    } else {
      value := ConsumeValue(rest);
      if value.Some? && value.value.0 == "" {
        value := None;
      }
    }
    match value
    case None => return None;
    case Some((text, after)) => return Some(Param(ToLower(v[..n]), text, after));
  }

  method Parse(header: string) returns (r: Result<seq<Link>, ParseError>)
    ensures r == Parsed(header)
  {
    var v := TrimRight(TrimLeft(header));
    var links: seq<Link> := [];
    JoinedStep([], Link("", "", map[]), LinksOf(v));
    hide IndexOf, ParamsOf, TrimLeft;
    while v != ""
      invariant Parsed(header) == Joined(links, LinksOf(v))
      decreases |v|
    {
      if v[0] != '<' {
        return Failure(NoOpeningBracket);
      }
      var lend := IndexOf(v, '>');
      if lend == |v| {
        return Failure(NoClosingBracket);
      }
      var uri := v[1..lend];
      var p := ParseParams(TrimLeft(v[lend + 1..]));
      match p
      case Failure(e) => return Failure(e);
      case Success(params) =>
        var link := Link(uri, params.rel, params.params);
        LinksNext(v, params);
        JoinedStep(links, link, LinksOf(params.rest));
        links, v := links + [link], params.rest;
    }
    assert links + [] == links;
    return Success(links);
  }

  /** One turn of the link loop. */
  lemma LinksNext(v: string, p: Params)
    requires v != "" && v[0] == '<' && IndexOf(v, '>') < |v|
    requires ParamsOf(TrimLeft(v[IndexOf(v, '>') + 1..]), "", map[]) == Success(p)
    ensures LinksOf(v) == Consed(Link(v[1..IndexOf(v, '>')], p.rel, p.params), LinksOf(p.rest))
  {
    hide ParamsOf, TrimLeft, IndexOf;
  }

  method ParseParams(s: string) returns (r: Result<Params, ParseError>)
    ensures r == ParamsOf(s, "", map[])
  {
    var v, rel, params := s, "", map[];
    while v != ""
      invariant ParamsOf(s, "", map[]) == ParamsOf(v, rel, params)
      decreases |v|
    {
      if v[0] != ';' && v[0] != ',' {
        return Failure(ExpectedSeparator);
      }
      var next := v[0] == ',';
      v := TrimLeft(v[1..]);
      if next || v == "" {
        return Success(Params(rel, params, v));
      }
      var p := ConsumeParam(v);
      match p
      case None => return Failure(MalformedParam);
      case Some(param) =>
        if param.name == "rel" {
          if rel == "" {
            rel := param.value;
          }
        } else {
          params := params[param.name := param.value];
        }
        v := TrimLeft(param.rest);
    }
    return Success(Params(rel, params, v));
  }

  function Joined(links: seq<Link>, r: Result<seq<Link>, ParseError>): Result<seq<Link>, ParseError> {
    if r.Success? then Success(links + r.value) else r
  }

  lemma JoinedStep(links: seq<Link>, l: Link, r: Result<seq<Link>, ParseError>)
    ensures Joined(links, Consed(l, r)) == Joined(links + [l], r)
    ensures Joined([], r) == r
  {
    if r.Success? {
      assert links + ([l] + r.value) == links + [l] + r.value;
      assert [] + r.value == r.value;
    }
  }

  method SortStrings(keys: set<string>) returns (sorted: seq<string>)
    ensures sorted == SortedKeys(keys)
  {
    LessOrders();
    hide Less, StrictOrder;
    sorted := [];
    var left := keys;
    while left != {}
      invariant left <= keys
      invariant IsSorted(sorted, keys - left, Less)
    {
      var k :| k in left;
      InsertSorts(sorted, k, keys - left, Less);
      assert keys - (left - {k}) == keys - left + {k};
      sorted, left := Insert(sorted, k, Less), left - {k};
    }
    assert keys - left == keys;
    SortedUnique(sorted, SortedKeys(keys), keys, Less);
  }

  method Format(links: seq<Link>) returns (text: string)
    ensures text == Printed(links)
  {
    text := "";
    for i := 0 to |links|
      invariant text == Printed(links[..i])
    {
      PrintedSnoc(links[..i], links[i]);
      assert links[..i + 1] == links[..i] + [links[i]];
      assert i == 0 ==> text + "" == text;
      if i > 0 {
        text := text + ", ";
      }
      text := WriteLink(text, links[i]);
    }
    assert links[..|links|] == links;
  }

  lemma ParamsTextFrom(keys: seq<string>, j: nat, params: map<string, string>)
    requires j < |keys| && forall k :: k in keys ==> k in params
    ensures ParamsText(keys[j..], params) == ParamText(keys[j], params[keys[j]]) + ParamsText(keys[j + 1..], params)
  {
    assert keys[j..][1..] == keys[j + 1..];
  }

  lemma ParamsTextNone(params: map<string, string>)
    ensures ParamsText([], params) == ""
  {
  }

  method WriteLink(buffer: string, l: Link) returns (text: string)
    ensures text == buffer + LinkText(l)
  {
    hide ParamsText, ParamText, Less;
    var head := "<" + l.uri + ">";
    var rel := ParamText("rel", l.rel);
    var keys := SortStrings(l.params.Keys);
    var tail := "";
    for j := 0 to |keys|
      invariant tail + ParamsText(keys[j..], l.params) == ParamsText(keys, l.params)
    {
      ghost var next := ParamText(keys[j], l.params[keys[j]]);
      ParamsTextFrom(keys, j, l.params);
      Regroup(tail, next, ParamsText(keys[j + 1..], l.params));
      tail := tail + ParamText(keys[j], l.params[keys[j]]);
    }
    ParamsTextNone(l.params);
    assert tail + "" == tail;
    text := buffer + (head + (rel + tail));
  }

  lemma {:induction false} PrintedSnoc(links: seq<Link>, l: Link)
    ensures Printed(links + [l]) == Printed(links) + (if links == [] then "" else ", ") + LinkText(l)
  {
    if |links| == 0 {
      assert "" + "" + LinkText(l) == LinkText(l);
    } else {
      assert (links + [l])[1..] == links[1..] + [l];
      PrintedSnoc(links[1..], l);
      hide LinkText;
      var text := LinkText(l);
      assert |links| == 1 ==> "" + "" + text == text;
    }
  }
}
