/** Which lists of links come back: exactly those in which every link is well formed. */
module LinkLists {
  import opened LinkExact
  import opened LinkHeader
  import opened LinkRoundTrip
  import opened Sequences
  import opened Wrappers

  // ---------------------------------------------------------------- reading without what follows

  /** What follows a printed link that is not the last. */
  function Next(rest: string): string {
    ", " + rest
  }

  lemma NextStarts(rest: string, literal: bool)
    ensures var e := Next(rest);
            && !IsSpace(e[0]) && !IsTokenChar(e[0]) && e[0] != '=' && TokenLength(e) == 0 && ValueOf(e).None?
            && (Unquote(e, literal).Some? ==> |Unquote(e, literal).value.1| < |rest|)
  {
    var e := Next(rest);
    assert e[1..] == " " + rest && e[1..][1..] == rest;
  }

  lemma {:induction false} UnquoteBefore(z: string, rest: string, literal: bool)
    requires Unquote(z + Next(rest), literal).Some? && |Unquote(z + Next(rest), literal).value.1| >= |rest|
    ensures var r := Unquote(z + Next(rest), literal).value;
            Unquote(z, literal).Some? && Unquote(z, literal).value.0 == r.0 && Unquote(z, literal).value.1 + Next(rest) == r.1
    decreases |z|
  {
    var e := Next(rest);
    NextStarts(rest, literal);
    assert z == "" ==> z + e == e;
    assert (z + e)[0] == z[0] && (z + e)[1..] == z[1..] + e;
    if literal || z[0] != '"' {
      UnquoteBefore(z[1..], rest, !literal && z[0] == '\\');
    }
  }

  lemma ValueBefore(z: string, rest: string)
    requires ValueOf(z + Next(rest)).Some? && |ValueOf(z + Next(rest)).value.1| >= |rest|
    ensures var r := ValueOf(z + Next(rest)).value;
            z != "" && ValueOf(z).Some? && ValueOf(z).value.0 == r.0 && ValueOf(z).value.1 + Next(rest) == r.1
  {
    var e := Next(rest);
    NextStarts(rest, false);
    assert z == "" ==> z + e == e;
    assert (z + e)[0] == z[0] && (z + e)[1..] == z[1..] + e;
    if z[0] == '"' {
      UnquoteBefore(z[1..], rest, false);
    } else {
      TokenBefore(z, e);
      var n := TokenLength(z);
      assert (z + e)[..n] == z[..n] && (z + e)[n..] == z[n..] + e;
    }
  }

  /** The name of a parameter, and where its value begins. */
  predicate NameThen(s: string, n: nat, value: string) {
    && n == TokenLength(s) && TrimLeft(s[n..]) != "" && TrimLeft(s[n..])[0] == '='
    && value == TrimLeft(TrimLeft(s[n..])[1..]) && value != ""
  }

  lemma ParamParts(s: string) returns (n: nat, value: string)
    requires ParamOf(s).Some?
    ensures NameThen(s, n, value) && ValueOf(value).Some?
    ensures ParamOf(s).value == Param(ToLower(s[..n]), ValueOf(value).value.0, ValueOf(value).value.1)
  {
    hide TrimLeft, TokenLength, ValueOf, ToLower;
    n, value := TokenLength(s), TrimLeft(TrimLeft(s[TokenLength(s)..])[1..]);
  }

  lemma ParamWhole(s: string, n: nat, value: string)
    requires NameThen(s, n, value) && ValueOf(value).Some?
    ensures ParamOf(s) == Some(Param(ToLower(s[..n]), ValueOf(value).value.0, ValueOf(value).value.1))
  {
    hide TrimLeft, TokenLength, ValueOf, ToLower;
  }

  lemma ValueStarts(a: string, rest: string, n: nat, value: string) returns (z: string)
    requires NameThen(a + Next(rest), n, value)
    ensures n <= |a| && (a + Next(rest))[..n] == a[..n] && value == z + Next(rest) && (z != "" ==> NameThen(a, n, z))
  {
    hide TrimLeft, TokenLength, ValueOf;
    var e := Next(rest);
    NextStarts(rest, false);
    TokenBefore(a, e);
    assert (a + e)[n..] == a[n..] + e && (a + e)[..n] == a[..n];
    TrimBefore(a[n..], e);
    var t := TrimLeft(a[n..]);
    assert t == "" ==> t + e == e;
    assert (t + e)[0] == t[0] && (t + e)[1..] == t[1..] + e;
    TrimBefore(t[1..], e);
    z := TrimLeft(t[1..]);
  }

  /** A parameter that leaves the next link unread is read without it. */
  lemma ParamBeforeNext(a: string, rest: string)
    requires ParamOf(a + Next(rest)).Some? && |ParamOf(a + Next(rest)).value.rest| >= |rest|
    ensures ParamOf(a).Some?
    ensures var p, q := ParamOf(a + Next(rest)).value, ParamOf(a).value;
            q.name == p.name && q.value == p.value && q.rest + Next(rest) == p.rest
  {
    hide TrimLeft, TokenLength, ValueOf, ToLower, ParamOf;
    var n, value := ParamParts(a + Next(rest));
    var z := ValueStarts(a, rest, n, value);
    ValueBefore(z, rest);
    ParamWhole(a, n, z);
  }

  /** The two loops give the same relation and parameters. */
  ghost predicate SameLoop(a: string, s: string, rel: string, done: map<string, string>) {
    var q, r := ParamsOf(a, rel, done), ParamsOf(s, rel, done);
    q.Success? && r.Success? && q.value.rel == r.value.rel && q.value.params == r.value.params
  }

  lemma LoopStops(s: string, rel: string, done: map<string, string>)
    requires s == "" || s[0] == ','
    ensures var r := ParamsOf(s, rel, done); r.Success? && r.value.rel == rel && r.value.params == done
  {
  }

  lemma SameTurn(a: string, s: string, b: string, c: string, p: Param, q: Param, rel: string, done: map<string, string>)
    requires a != "" && a[0] == ';' && b != "" && TrimLeft(a[1..]) == b && ParamOf(b) == Some(q)
    requires s != "" && s[0] == ';' && c != "" && TrimLeft(s[1..]) == c && ParamOf(c) == Some(p)
    requires p.name == q.name && p.value == q.value
    requires var (rel', done') := WithParam(rel, done, p); SameLoop(TrimLeft(q.rest), TrimLeft(p.rest), rel', done')
    ensures SameLoop(a, s, rel, done)
  {
    hide ParamsOf, TrimLeft, ParamOf;
    ParamsTurn(a, b, q, rel, done);
    ParamsTurn(s, c, p, rel, done);
  }

  /** The parameter loop on a link's own text, when all of it leaves what follows. */
  lemma {:induction false} LoopBefore(a: string, rest: string, rel: string, done: map<string, string>)
    requires var r := ParamsOf(a + Next(rest), rel, done); r.Success? && |r.value.rest| >= |rest|
    ensures SameLoop(a, a + Next(rest), rel, done)
    decreases |a|
  {
    hide ParamsOf, TrimLeft, ParamOf;
    var e := Next(rest);
    var s := a + e;
    assert a == "" ==> s == e;
    assert s[0] == (a + e)[0];
    if a == "" || a[0] == ',' {
      LoopStops(a, rel, done);
      LoopStops(s, rel, done);
    } else {
      assert s[0] == a[0] && s[1..] == a[1..] + e;
      NextStarts(rest, false);
      LoopGoes(s, rel, done);
      TrimBefore(a[1..], e);
      var b := TrimLeft(a[1..]);
      LoopTurns(s, b + e, rel, done);
      var p := ParamOf(b + e).value;
      ParamBeforeNext(b, rest);
      var q := ParamOf(b).value;
      TrimBefore(q.rest, e);
      NotEmptyParam(b);
      var (rel', done') := WithParam(rel, done, p);
      LoopBefore(TrimLeft(q.rest), rest, rel', done');
      SameTurn(a, s, b, b + e, p, q, rel, done);
    }
  }

  lemma LoopGoes(s: string, rel: string, done: map<string, string>)
    requires s != "" && ParamsOf(s, rel, done).Success?
    ensures s[0] == ',' || s[0] == ';'
  {
  }

  lemma NotEmptyParam(b: string)
    requires ParamOf(b).Some?
    ensures b != ""
  {
  }

  lemma LoopTurns(s: string, after: string, rel: string, done: map<string, string>)
    requires s != "" && s[0] == ';' && TrimLeft(s[1..]) == after && after != "" && ParamsOf(s, rel, done).Success?
    ensures ParamOf(after).Some?
    ensures var p := ParamOf(after).value; var (rel', done') := WithParam(rel, done, p);
            ParamsOf(s, rel, done) == ParamsOf(TrimLeft(p.rest), rel', done')
            && |ParamsOf(s, rel, done).value.rest| <= |p.rest|
  {
  }

  // ---------------------------------------------------------------- where the next link begins

  /** The text ends with a comma and perhaps spaces. */
  ghost predicate AfterComma(h: string) {
    exists c: nat :: c < |h| && CommaAt(h, c)
  }

  predicate CommaAt(h: string, c: nat) {
    c < |h| && h[c] == ',' && forall i :: c < i < |h| ==> IsSpace(h[i])
  }

  /** The text ends with `t`, after a comma. */
  ghost predicate CommaThen(s: string, t: string) {
    EndsWith(s, t) && AfterComma(s[..|s| - |t|])
  }

  lemma CommaLater(s: string, t: string, u: string)
    requires EndsWith(s, t) && CommaThen(t, u)
    ensures CommaThen(s, u)
  {
    EndsTwice(s, t, u);
    var g, h := s[..|s| - |u|], t[..|t| - |u|];
    var c: nat :| c < |h| && CommaAt(h, c);
    var o := |s| - |t|;
    assert forall i :: 0 <= i < |h| ==> g[o + i] == h[i];
    assert CommaAt(g, o + c);
  }

  lemma {:induction false} TrimSpaces(s: string)
    ensures EndsWith(s, TrimLeft(s)) && forall i :: 0 <= i < |s| - |TrimLeft(s)| ==> IsSpace(s[i])
  {
    if s != "" && IsSpace(s[0]) {
      TrimSpaces(s[1..]);
    }
  }

  /** The parameter loop stops at the end of the text or after a comma. */
  lemma {:induction false} LoopEnds(s: string, rel: string, done: map<string, string>)
    requires ParamsOf(s, rel, done).Success?
    ensures var rest := ParamsOf(s, rel, done).value.rest; rest == "" || CommaThen(s, rest)
    decreases |s|
  {
    if s != "" {
      var after := TrimLeft(s[1..]);
      if s[0] == ',' {
        TrimSpaces(s[1..]);
        assert CommaAt(s[..|s| - |after|], 0);
      } else if after != "" {
        LoopTurns(s, after, rel, done);
        var p := ParamOf(after).value;
        assert NextParam(s) == Some(p);
        NextEnds(s);
        hide *;
        var (rel', done') := WithParam(rel, done, p);
        LoopEnds(TrimLeft(p.rest), rel', done');
        var rest := ParamsOf(TrimLeft(p.rest), rel', done').value.rest;
        if rest != "" {
          CommaLater(s, TrimLeft(p.rest), rest);
        }
      }
    }
  }

  /** A relation in the result was there before or is read somewhere in the text. */
  lemma {:induction false} RelRead(s: string, rel: string, done: map<string, string>)
    ensures var r := ParamsOf(s, rel, done);
            r.Success? && r.value.rel != "" ==> r.value.rel == rel || ReadIn(s, "rel", r.value.rel)
    decreases |s|
  {
    var r := ParamsOf(s, rel, done);
    if NextParam(s).None? {
      NoNextParam(s, rel, done);
    } else if r.Success? && r.value.rel != "" {
      var p := NextParam(s).value;
      ParamsTurn(s, TrimLeft(s[1..]), p, rel, done);
      NextEnds(s);
      var (rel', done') := WithParam(rel, done, p);
      var t := TrimLeft(p.rest);
      assert rel' == rel || (p.name == "rel" && rel' == p.value);
      hide *;
      RelRead(t, rel', done');
      if ReadIn(t, "rel", r.value.rel) {
        ReadLater(s, t, "rel", r.value.rel);
      }
    }
  }

  // ---------------------------------------------------------------- a link that begins too late

  lemma CommaWithin(head: string, v: string, rest: string, h: string, y: string, c: nat)
    requires head + (v + ("\"" + rest)) == h + y && CommaAt(h, c) && |head| <= c < |head| + |v|
    ensures |head| < |h| <= |head| + |v| && ',' in v && y == v[|h| - |head|..] + ("\"" + rest)
  {
    var text := head + (v + ("\"" + rest));
    assert text[|head| + |v|] == '"' && forall i :: 0 <= i < |h| ==> text[i] == h[i];
    assert v[c - |head|] == text[c];
    assert y == text[|h|..];
  }

  lemma CommaBeyond(head: string, v: string, rest: string, h: string, y: string, c: nat)
    requires head + (v + ("\"" + rest)) == h + y && CommaAt(h, c) && |head| + |v| < c
    ensures h[|head| + |v| + 1..] + y == rest && AfterComma(h[|head| + |v| + 1..])
  {
    var n := |head| + |v| + 1;
    assert CommaAt(h[n..], c - n);
    assert (head + (v + ("\"" + rest)))[n..] == rest;
    assert (h + y)[n..] == h[n..] + y;
  }

  /** One printed parameter and what follows, up to a place after a comma: it is in the value, or further on. */
  lemma CommaStep(m: string, v: string, rest: string, h: string, y: string) returns (inside: bool, x: nat, h': string)
    requires LowerToken(m) && ParamText(m, v) + rest == h + y && AfterComma(h)
    ensures inside ==> ',' in v && x <= |v| && y == v[x..] + ("\"" + rest)
    ensures !inside ==> h' + y == rest && AfterComma(h')
  {
    hide LowerToken, ParamText, CommaAt;
    var c: nat :| c < |h| && CommaAt(h, c);
    var head, n := "; " + m + "=\"", |m| + 4 + |v|;
    HeadParts(m, v, rest);
    HeadCommas(m, c, head);
    CommaPlace(head, v, rest, h, y, c);
    inside, x, h' := c < n, 0, "";
    if inside {
      CommaWithin(head, v, rest, h, y, c);
      x := |h| - |head|;
    } else {
      CommaBeyond(head, v, rest, h, y, c);
      h' := h[n + 1..];
    }
  }

  lemma CommaPlace(head: string, v: string, rest: string, h: string, y: string, c: nat)
    requires head + (v + ("\"" + rest)) == h + y && CommaAt(h, c) && (c < |head| ==> head[c] != ',')
    ensures c >= |head| && c != |head| + |v|
  {
    var text := head + (v + ("\"" + rest));
    assert text[c] == (h + y)[c] == h[c] == ',';
    assert text[|head| + |v|] == '"';
  }

  /** A comma in printed parameters, with nothing but spaces up to some place, is in a value, and so is the place. */
  lemma {:induction false} CommaInside(keys: seq<string>, params: map<string, string>, h: string, y: string)
    returns (n: nat, x: nat)
    requires TokenNames(keys, params) && ParamsText(keys, params) == h + y && AfterComma(h)
    ensures n < |keys| && keys[n] in params && ',' in params[keys[n]] && x <= |params[keys[n]]|
    ensures TokenNames(keys[n + 1..], params)
    ensures y == params[keys[n]][x..] + ("\"" + ParamsText(keys[n + 1..], params))
    decreases |keys|
  {
    assert keys != [];
    NamesRest(keys, params);
    var m, rest := keys[0], ParamsText(keys[1..], params);
    assert ParamsText(keys, params) == ParamText(m, params[m]) + rest;
    hide AfterComma, ParamsText, ParamText, TokenNames;
    var inside, h';
    inside, x, h' := CommaStep(m, params[m], rest, h, y);
    n := 0;
    if !inside {
      n, x := CommaInside(keys[1..], params, h', y);
      n := n + 1;
      assert keys[1..][n - 1] == keys[n] && keys[1..][n..] == keys[n + 1..];
    }
  }

  lemma HeadCommas(m: string, c: nat, head: string)
    requires LowerToken(m) && head == "; " + m + "=\""
    ensures c < |head| ==> head[c] != ','
  {
    assert forall i :: 2 <= i < |m| + 2 ==> head[i] == m[i - 2];
  }

  /** The relation and the parameters of a link as one table, printed in this order. */
  ghost function AllKeys(l: Link): seq<string> {
    ["rel"] + SortedKeys(l.params.Keys)
  }

  function AllParams(l: Link): map<string, string> {
    l.params["rel" := l.rel]
  }

  /** What every parsed link satisfies. */
  predicate Proper(l: Link) {
    forall k :: k in l.params ==> k != "rel" && ProperParam(k, l.params[k])
  }

  lemma RelToken()
    ensures LowerToken("rel")
  {
  }

  lemma KeysOf(l: Link)
    ensures var keys := SortedKeys(l.params.Keys); forall k :: k in keys <==> k in l.params
  {
    hide SortedKeys;
  }

  lemma AllKeysOnce(l: Link)
    requires Proper(l)
    ensures TokenNames(AllKeys(l), AllParams(l))
    ensures forall k :: k in AllKeys(l) <==> k in AllParams(l)
    ensures forall n :: 0 <= n < |AllKeys(l)| ==> AllKeys(l)[n] !in AllKeys(l)[n + 1..]
  {
    hide SortedKeys, Less, StrictOrder, LowerToken;
    LessOrders();
    KeysOf(l);
    var keys := SortedKeys(l.params.Keys);
    forall n | 0 <= n < |AllKeys(l)| ensures AllKeys(l)[n] !in AllKeys(l)[n + 1..] {
      assert AllKeys(l)[n + 1..] == keys[n..];
      if n > 0 {
        SortedOnce(keys, l.params.Keys, Less, n - 1);
      }
    }
    RelToken();
  }

  lemma {:induction false} SameText(keys: seq<string>, a: map<string, string>, b: map<string, string>)
    requires forall k :: k in keys ==> k in a && k in b && a[k] == b[k]
    ensures ParamsText(keys, a) == ParamsText(keys, b)
  {
    if keys != [] {
      SameText(keys[1..], a, b);
    }
  }

  lemma AllText(l: Link)
    requires Proper(l)
    ensures forall k :: k in AllKeys(l) ==> k in AllParams(l)
    ensures LinkText(l) == "<" + l.uri + ">" + ParamsText(AllKeys(l), AllParams(l))
  {
    hide SortedKeys;
    AllKeysOnce(l);
    var keys := SortedKeys(l.params.Keys);
    assert AllKeys(l)[0] == "rel" && AllKeys(l)[1..] == keys;
    SameText(keys, l.params, AllParams(l));
  }

  lemma ReadInner(v: string, x: nat, rest: string, i: nat, k: string, val: string)
    requires x <= |v| && i < |v| - x && ReadAt(v[x..] + ("\"" + rest), i, k, val)
    ensures InnerRead(v, x + i, rest, k, val)
  {
    hide NextParam;
    var text := v[x..] + ("\"" + rest);
    assert text[i..] == v[x + i..] + ("\"" + rest);
    assert text[i..][0..] == text[i..];
  }

  /** A read of text that begins inside a printed value. */
  lemma ReadWithin(v: string, x: nat, rest: string, k: string, val: string) returns (j: nat)
    requires x <= |v| && ReadIn(v[x..] + ("\"" + rest), k, val)
    ensures InnerRead(v, j, rest, k, val) || ReadIn(rest, k, val)
  {
    hide ReadAt, InnerRead;
    var text := v[x..] + ("\"" + rest);
    var i: nat :| ReadAt(text, i, k, val);
    SemicolonAt(text, i, k, val);
    j := 0;
    if i < |v| - x {
      j := x + i;
      ReadInner(v, x, rest, i, k, val);
    } else {
      assert text[|v| - x] == '"' && text == v[x..] + "\"" + rest;
      InRest(text, v[x..] + "\"", rest, i, k, val);
    }
  }

  /** A value with a comma in it can be read in no other place than its own. */
  lemma CommaReadOnce(keys: seq<string>, params: map<string, string>, n: nat, x: nat, y: string)
    requires ComesBack(keys, params) && n < |keys| && keys[n] !in keys[n + 1..]
    requires keys[n] in params && ',' in params[keys[n]] && x <= |params[keys[n]]|
    requires TokenNames(keys[n + 1..], params)
    requires y == params[keys[n]][x..] + ("\"" + ParamsText(keys[n + 1..], params))
    ensures !ReadIn(y, keys[n], params[keys[n]])
  {
    hide ParamsText, ReadIn, InnerRead, FromToken, FromQuoted, FromBetween, Follows, LowerToken;
    var k, later := keys[n], keys[n + 1..];
    var val := params[k];
    var rest := ParamsText(later, params);
    if ReadIn(y, k, val) {
      var j := ReadWithin(val, x, rest, k, val);
      var m := k;
      FollowsNext(later, params);
      if InnerRead(val, j, rest, k, val) {
        InnerKinds(val, j, rest, k, val);
      } else {
        m, j, rest := Locate(later, params, k, val);
        assert forall i :: 0 <= i < |later| ==> later[i] == keys[n + 1 + i];
        assert k !in later;
        InnerKinds(params[m], j, rest, k, val);
      }
      NoQuotes(keys, params, m);
      NoKindOf(params[m], val);
    }
  }

  lemma NoKindOf(v: string, val: string)
    requires ',' in val && '"' !in v
    ensures !FromToken(v, val) && !FromQuoted(v, val) && !FromBetween(val)
  {
    var i :| 0 <= i < |val| && val[i] == ',';
    assert !IsTokenChar(val[i]);
  }

  // ---------------------------------------------------------------- no link begins too late

  /** A text whose first link is `l`, read up to where `rest` is left. */
  ghost predicate Reads(x: string, l: Link, rest: string) {
    && x != "" && x[0] == '<' && IndexOf(x, '>') < |x| && x[1..IndexOf(x, '>')] == l.uri
    && var r := ParamsOf(TrimLeft(x[IndexOf(x, '>') + 1..]), "", map[]);
       r.Success? && r.value.rel == l.rel && r.value.params == l.params && r.value.rest == rest
  }

  lemma FirstReads(x: string, links: seq<Link>) returns (rest: string)
    requires LinksOf(x) == Success(links) && links != []
    ensures Reads(x, links[0], rest) && LinksOf(rest) == Success(links[1..])
    ensures rest == "" || CommaThen(x, rest)
    ensures Proper(links[0])
  {
    hide ParamsOf, CommaThen, TrimLeft;
    assert x != "" && x[0] == '<' && IndexOf(x, '>') < |x|;
    var end := IndexOf(x, '>');
    var after := TrimLeft(x[end + 1..]);
    assert ParamsOf(after, "", map[]).Success?;
    var p := ParamsOf(after, "", map[]).value;
    rest := p.rest;
    assert links == [Link(x[1..end], p.rel, p.params)] + LinksOf(rest).value;
    ParsedNames(after, "", map[]);
    LoopEnds(after, "", map[]);
    if rest != "" {
      TrimEnds(x[end + 1..]);
      CommaLater(x[end + 1..], after, rest);
      EndsFrom(x, end + 1);
      CommaLater(x, x[end + 1..], rest);
    }
  }

  /** The parameter loop of a link, on its own part of the text. */
  lemma OwnPart(y: string, tail: string, rest: string, p: Params)
    requires ParamsOf(TrimLeft(y + Tail(tail)), "", map[]) == Success(p) && |p.rest| >= |tail|
    ensures var r := ParamsOf(TrimLeft(y), "", map[]);
            r.Success? && r.value.rel == p.rel && r.value.params == p.params
  {
    hide ParamsOf, TrimLeft;
    if tail == "" {
      assert y + Tail(tail) == y;
    } else {
      assert Tail(tail) == Next(tail);
      TrimBefore(y, Next(tail));
      LoopBefore(TrimLeft(y), tail, "", map[]);
    }
  }

  lemma TailBrackets(rest: string)
    ensures var e := Tail(rest); |rest| <= |e| && forall i :: 0 <= i < |e| - |rest| ==> e[i] != '<' && e[i] != '>'
  {
  }

  /** Where a link's text begins again: not before its own closing bracket. */
  lemma AfterBracket(text: string, n: nat, h: string, x: string)
    requires text == h + x && 0 < n < |text| && text[n - 1] == '>'
    requires n <= |x| && forall i :: 0 <= i < n - 1 ==> x[i] != '>'
    requires AfterComma(h)
    ensures |h| >= n && text[n..] == h[n..] + x && AfterComma(h[n..])
  {
    var c: nat :| c < |h| && CommaAt(h, c);
    assert forall i :: 0 <= i < |x| ==> x[i] == text[|h| + i];
    assert |h| >= n && text[n - 1] == h[n - 1];
    assert CommaAt(h[n..], c - n);
  }

  /** Such text, without what follows the link. */
  lemma OwnText(p: string, rest: string, h: string, x: string, end: nat, left: nat) returns (y: string)
    requires p + Tail(rest) == h + x && x != "" && x[0] == '<' && end < |x| && x[end] == '>' && left >= |rest|
    requires left < |x| - end
    ensures p == h + y && x == y + Tail(rest) && end < |y| && x[end + 1..] == y[end + 1..] + Tail(rest)
  {
    hide Tail;
    var e := Tail(rest);
    var text := p + e;
    TailBrackets(rest);
    assert forall i :: 0 <= i < |x| ==> x[i] == text[|h| + i];
    assert forall i :: |p| <= i < |text| ==> text[i] == e[i - |p|];
    assert |h| + end < |p|;
    y := p[|h|..];
    assert x == text[|h|..];
  }

  /** The printed text of a link that is read again from further on. */
  lemma DisplacedText(l: Link, tail: string, h: string, x: string, rest: string) returns (g: string, y: string, z: string)
    requires Followed(l, tail) == h + x && AfterComma(h) && Proper(l)
    requires Reads(x, l, rest) && |rest| >= |tail|
    ensures forall k :: k in AllKeys(l) ==> k in AllParams(l)
    ensures ParamsText(AllKeys(l), AllParams(l)) == g + y && AfterComma(g) && EndsWith(y, z) && GivesBack(z, l)
  {
    AllText(l);
    hide LinkText, AllKeys, AllParams, ParamsText, ParamsOf, TrimLeft, AfterComma, Tail;
    var p := ParamsText(AllKeys(l), AllParams(l));
    var n, end := |l.uri| + 2, IndexOf(x, '>');
    var text := Followed(l, tail);
    Regroup("<" + l.uri + ">", p, Tail(tail));
    assert text == "<" + l.uri + ">" + (p + Tail(tail)) && text[n..] == p + Tail(tail) && text[n - 1] == '>';
    assert end == n - 1;
    AfterBracket(text, n, h, x);
    g := h[n..];
    y := OwnText(p, tail, g, x, end, |rest|);
    var q := ParamsOf(TrimLeft(x[end + 1..]), "", map[]).value;
    OwnPart(y[end + 1..], tail, rest, q);
    z := TrimLeft(y[end + 1..]);
    TrimEnds(y[end + 1..]);
    EndsFrom(y, end + 1);
    EndsTwice(y, y[end + 1..], z);
  }

  /** The parameter loop gives the link's relation and parameters. */
  ghost predicate GivesBack(z: string, l: Link) {
    var r := ParamsOf(z, "", map[]);
    r.Success? && r.value.rel == l.rel && r.value.params == l.params
  }

  lemma ReadFrom(l: Link, y: string, z: string, k: string)
    requires Proper(l) && EndsWith(y, z) && GivesBack(z, l) && k in AllParams(l)
    ensures AllParams(l)[k] == "" || ReadIn(y, k, AllParams(l)[k])
  {
    hide ParamsOf, ReadIn, EndsWith;
    if k == "rel" {
      RelRead(z, "", map[]);
    } else {
      AllRead(z, "", map[], k);
    }
    if ReadIn(z, k, AllParams(l)[k]) {
      ReadLater(y, z, k, AllParams(l)[k]);
    }
  }

  /**
   * Text that gives a link back does not begin after a comma of the link's own printed parameters: the
   * value with that comma could not be read again.
   */
  lemma NotAfterComma(l: Link, g: string, y: string, z: string)
    requires Proper(l) && EndsWith(y, z) && GivesBack(z, l)
    requires (forall k :: k in AllKeys(l) ==> k in AllParams(l)) && ParamsText(AllKeys(l), AllParams(l)) == g + y
    ensures !AfterComma(g)
  {
    hide ParamsText, ReadIn, EndsWith, GivesBack, AllKeys, AllParams, AfterComma;
    AllKeysOnce(l);
    var keys, params := AllKeys(l), AllParams(l);
    forall k | k in keys ensures params[k] == "" || (ReadIn(y, k, params[k]) && ReadIn(g + y, k, params[k])) {
      ReadFrom(l, y, z, k);
      if ReadIn(y, k, params[k]) {
        JoinEnds(g, y);
        ReadLater(g + y, y, k, params[k]);
      }
    }
    if AfterComma(g) {
      var n, x := CommaInside(keys, params, g, y);
      assert keys[n] in keys;
      CommaReadOnce(keys, params, n, x, y);
    }
  }

  lemma JoinEnds(g: string, y: string)
    ensures EndsWith(g + y, y)
  {
  }

  // ---------------------------------------------------------------- whole lists

  lemma CommaNear(a: string, h: string)
    requires AfterComma(a + h) && h != "" && !IsSpace(h[0])
    ensures AfterComma(h)
  {
    var c: nat :| c < |a + h| && CommaAt(a + h, c);
    assert (a + h)[|a|] == h[0];
    assert forall i :: 0 <= i < |h| ==> (a + h)[|a| + i] == h[i];
    assert c >= |a| && CommaAt(h, c - |a|);
  }

  /** A shorter ending of the text after a comma leaves a front that ends with that comma. */
  lemma FrontComma(text: string, r: string, rest: string) returns (h: string)
    requires EndsWith(text, r) && CommaThen(text, rest) && |rest| < |r| && !IsSpace(r[0])
    ensures h != "" && r == h + rest && AfterComma(h)
  {
    h := r[..|r| - |rest|];
    var a := text[..|text| - |r|];
    assert text == a + r;
    assert text[..|text| - |rest|] == a + h;
    CommaNear(a, h);
  }

  lemma EndsFollowed(l: Link, rest: string)
    ensures EndsWith(Followed(l, rest), rest)
  {
    hide LinkText;
    var text := Followed(l, rest);
    if rest != "" {
      Regroup(LinkText(l), ", ", rest);
    }
  }

  lemma PrintedStarts(links: seq<Link>, x: string)
    requires links != [] && LinksOf(x) == Success(links)
    ensures x != "" && Printed(links) != "" && !IsSpace(Printed(links)[0])
  {
    PrintedFollowed(links);
    FollowedParts(links[0], Printed(links[1..]));
  }

  /** What is left after reading a link is at least the printed text of the later ones. */
  lemma LeavesRest(l: Link, later: seq<Link>, x: string, rest: string)
    requires EndsWith(Followed(l, Printed(later)), x) && LinksOf(rest) == Success(later)
    requires rest == "" || CommaThen(x, rest)
    ensures |rest| >= |Printed(later)|
    decreases |later|, 1
  {
    var r := Printed(later);
    if later == [] {
      PrintedNone();
    } else if |rest| < |r| {
      PrintedStarts(later, rest);
      EndsFollowed(l, r);
      hide *;
      CommaLater(Followed(l, r), x, rest);
      var h := FrontComma(Followed(l, r), r, rest);
      NoShift(later, h, rest);
    }
  }

  /** No list is read back from text that begins after a comma of its own printed text. */
  lemma {:induction false} NoShift(links: seq<Link>, h: string, x: string)
    requires Printed(links) == h + x && LinksOf(x) == Success(links) && (h != "" ==> AfterComma(h))
    ensures h == ""
    decreases |links|, 0
  {
    if links == [] {
      PrintedNone();
    } else if h != "" {
      var l, later := links[0], links[1..];
      PrintedFollowed(links);
      hide *;
      var rest := FirstReads(x, links);
      JoinEnds(h, x);
      LeavesRest(l, later, x, rest);
      var g, y, z := DisplacedText(l, Printed(later), h, x, rest);
      NotAfterComma(l, g, y, z);
      assert false;
    }
  }

  lemma PrintedNone()
    ensures Printed([]) == ""
  {
  }

  /** The parameter loop on the text of a link that comes back. */
  lemma OwnLoop(l: Link, tail: string, rest: string)
    requires Reads(Followed(l, tail), l, rest) && |rest| >= |tail|
    ensures GivesBack(AfterUri(l, ""), l) && '>' !in l.uri
  {
    FollowedParts(l, tail);
    BracketBack(l.uri, AfterUri(l, tail));
    AfterUriText(l);
    hide ParamsOf, LinksOf, ParamsText, ParamText, SortedKeys, TrimLeft, IndexOf, Followed;
    var params := ParamsText(SortedKeys(l.params.Keys), l.params);
    Regroup(ParamText("rel", l.rel), params, Tail(tail));
    assert AfterUri(l, tail) == AfterUri(l, "") + Tail(tail);
    if tail == "" {
      assert AfterUri(l, "") + Tail(tail) == AfterUri(l, "");
    } else {
      assert Tail(tail) == Next(tail);
      LoopBefore(AfterUri(l, ""), tail, "", map[]);
    }
  }

  lemma AfterUriText(l: Link)
    ensures AfterUri(l, "") == ParamText("rel", l.rel) + ParamsText(SortedKeys(l.params.Keys), l.params)
  {
    hide ParamsText, ParamText, SortedKeys;
    assert ParamsText(SortedKeys(l.params.Keys), l.params) + Tail("") == ParamsText(SortedKeys(l.params.Keys), l.params);
  }

  lemma RelFirst(rel: string, text: string)
    requires Plain(rel) && rel != "" && Separated(text)
    ensures ParamsOf(ParamText("rel", rel) + text, "", map[]) == ParamsOf(text, rel, map[])
  {
    hide ParamsOf, ParamText;
    ParamsStep("rel", rel, text, "", map[]);
  }

  /** A link whose own text gives it back is well formed. */
  lemma GivenBackOnly(l: Link)
    requires Proper(l) && GivesBack(AfterUri(l, ""), l) && '>' !in l.uri
    ensures WellFormed(l)
  {
    hide ParamsText, SortedKeys, ParamsOf, Plain, AfterUri, ParamText, LowerToken;
    AfterUriText(l);
    KeysOf(l);
    var keys := SortedKeys(l.params.Keys);
    var text := ParamsText(keys, l.params);
    RelBackOnly(l.rel, text);
    assert text + "" == text;
    ParamsTextSeparated(keys, l.params, "");
    RelFirst(l.rel, text);
    ValuesPlain(keys, l.params, l.rel);
  }

  lemma {:induction false} ListBackOnly(links: seq<Link>)
    requires LinksOf(Printed(links)) == Success(links)
    ensures forall l :: l in links ==> WellFormed(l)
  {
    hide *;
    if links != [] {
      var l, later := links[0], links[1..];
      PrintedFollowed(links);
      var rest := FirstReads(Printed(links), links);
      WholeEnds(Printed(links));
      LeavesRest(l, later, Printed(links), rest);
      OwnLoop(l, Printed(later), rest);
      GivenBackOnly(l);
      LinkBack(l, Printed(later));
      ConsedBack(links, LinksOf(Printed(later)));
      ListBackOnly(later);
      assert links == [l] + later;
    }
  }

  lemma WholeEnds(s: string)
    ensures EndsWith(s, s)
  {
  }

  lemma ConsedBack(links: seq<Link>, r: Result<seq<Link>, ParseError>)
    requires links != [] && Consed(links[0], r) == Success(links)
    ensures r == Success(links[1..])
  {
    assert ([links[0]] + r.value)[1..] == r.value;
  }

  /** The links of a list come back from the printed text exactly when each is well formed. */
  lemma RoundTripExact(links: seq<Link>)
    ensures Parsed(Printed(links)) == Success(links) <==> forall l :: l in links ==> WellFormed(l)
  {
    hide LinksOf, Printed, TrimLeft, TrimRight, WellFormed;
    PrintedTrimmed(links);
    if Parsed(Printed(links)) == Success(links) {
      ListBackOnly(links);
    }
    if forall l :: l in links ==> WellFormed(l) {
      RoundTrip(links);
    }
  }

  /** A relation with a quote in it is printed unescaped and does not come back. */
  lemma QuoteLost()
    ensures Parsed(Printed([Link("/a", "x\"y", map[])])) != Success([Link("/a", "x\"y", map[])])
  {
    hide LinksOf, Printed, Parsed;
    var l := Link("/a", "x\"y", map[]);
    assert '"' in l.rel;
    assert l in [l];
    RoundTripExact([l]);
  }
}
