/** Printing a list of links and parsing the text back: well-formed links come back. */
module LinkRoundTrip {
  import opened Sequences
  import opened Wrappers
  import opened LinkHeader

  /** Text that stands for itself inside quotes. */
  predicate Plain(s: string) {
    forall i :: 0 <= i < |s| ==> s[i] != '"' && s[i] != '\\' && s[i] != '\r' && s[i] != '\n'
  }

  predicate LowerToken(s: string) {
    forall i :: 0 <= i < |s| ==> IsTokenChar(s[i]) && LowerChar(s[i]) == s[i]
  }

  predicate WellFormed(l: Link) {
    && '>' !in l.uri
    && l.rel != "" && Plain(l.rel)
    && forall k :: k in l.params ==> LowerToken(k) && k != "rel" && l.params[k] != "" && Plain(l.params[k])
  }

  // ---------------------------------------------------------------- one parameter

  lemma {:induction false} UnquotePlain(value: string, tail: string)
    requires Plain(value)
    ensures Unquote(value + "\"" + tail, false) == Some((value, tail))
  {
    var text := value + "\"" + tail;
    if value == "" {
      assert text[1..] == tail;
    } else {
      UnquotePlain(value[1..], tail);
      assert text[0] == value[0];
      assert text[1..] == value[1..] + "\"" + tail;
      assert [value[0]] + value[1..] == value;
    }
  }

  lemma {:induction false} TokenThen(token: string, tail: string)
    requires forall i :: 0 <= i < |token| ==> IsTokenChar(token[i])
    requires tail != "" && !IsTokenChar(tail[0])
    ensures TokenLength(token + tail) == |token|
  {
    if token == "" {
      assert token + tail == tail;
    } else {
      TokenThen(token[1..], tail);
      assert (token + tail)[0] == token[0];
      assert (token + tail)[1..] == token[1..] + tail;
    }
  }

  lemma ParamBack(name: string, value: string, tail: string)
    requires LowerToken(name) && Plain(value) && value != ""
    ensures ParamOf(name + "=\"" + value + "\"" + tail) == Some(Param(name, value, tail))
  {
    hide TokenLength, TrimLeft, ToLower, Unquote, LowerToken, Plain;
    var quoted := "\"" + value + "\"" + tail;
    var text := name + "=\"" + value + "\"" + tail;
    NameBack(name, quoted);
    assert text == name + ("=" + quoted);
    assert quoted[1..] == value + "\"" + tail;
    UnquotePlain(value, tail);
    assert ValueOf(quoted) == Some((value, tail));
    assert ("=" + quoted)[1..] == quoted;
    assert text[..|name|] == name;
  }

  /** Before its value, a printed parameter is read as its name and an equals sign. */
  lemma NameBack(name: string, quoted: string)
    requires LowerToken(name) && quoted != "" && quoted[0] == '"'
    ensures var text := name + ("=" + quoted);
            TokenLength(text) == |name| && ToLower(text[..|name|]) == name && TrimLeft(text[|name|..]) == "=" + quoted
    ensures TrimLeft(quoted) == quoted
  {
    TokenThen(name, "=" + quoted);
    var text := name + ("=" + quoted);
    assert text[..|name|] == name && text[|name|..] == "=" + quoted;
    assert ToLower(name) == name;
  }

  /** Text that can follow a printed parameter. */
  predicate Separated(tail: string) {
    tail == "" || tail[0] == ';' || tail[0] == ','
  }

  /** One turn of the parameter loop. */
  lemma ParamsTurn(s: string, after: string, p: Param, rel: string, params: map<string, string>)
    requires s != "" && s[0] == ';' && after != "" && TrimLeft(s[1..]) == after && ParamOf(after) == Some(p)
    ensures var (rel', params') := WithParam(rel, params, p);
            ParamsOf(s, rel, params) == ParamsOf(TrimLeft(p.rest), rel', params')
  {
  }

  lemma SkipSpace(after: string)
    requires after != "" && !IsSpace(after[0])
    ensures TrimLeft(" " + after) == after
  {
    assert (" " + after)[1..] == after;
  }

  lemma ParamsStep(name: string, value: string, tail: string, rel: string, params: map<string, string>)
    requires LowerToken(name) && Plain(value) && value != "" && Separated(tail)
    ensures var (rel', params') := WithParam(rel, params, Param(name, value, tail));
            ParamsOf(ParamText(name, value) + tail, rel, params) == ParamsOf(tail, rel', params')
  {
    var after := name + "=\"" + value + "\"" + tail;
    var text := ParamText(name, value) + tail;
    assert text[1..] == " " + after;
    assert after[0] == (if name == "" then '=' else name[0]);
    SkipSpace(after);
    ParamBack(name, value, tail);
    assert TrimLeft(tail) == tail;
    ParamsTurn(text, after, Param(name, value, tail), rel, params);
  }

  // ---------------------------------------------------------------- one link

  ghost predicate Names(keys: seq<string>, params: map<string, string>) {
    forall k :: k in keys ==>
      k in params && LowerToken(k) && k != "rel" && Plain(params[k]) && params[k] != ""
  }

  function Restricted(keys: seq<string>, params: map<string, string>): map<string, string>
    requires forall k :: k in keys ==> k in params
  {
    map k | k in keys :: params[k]
  }

  lemma ParamsTextFirst(keys: seq<string>, params: map<string, string>, tail: string)
    requires keys != [] && forall k :: k in keys ==> k in params
    ensures ParamsText(keys, params) + tail
         == ParamText(keys[0], params[keys[0]]) + (ParamsText(keys[1..], params) + tail)
  {
    Regroup(ParamText(keys[0], params[keys[0]]), ParamsText(keys[1..], params), tail);
  }

  lemma RestrictedNone(params: map<string, string>, done: map<string, string>)
    ensures done + Restricted([], params) == done
  {
  }

  lemma RestrictedFirst(keys: seq<string>, params: map<string, string>, done: map<string, string>)
    requires keys != [] && forall k :: k in keys ==> k in params
    ensures keys[0] in params && forall k :: k in keys[1..] ==> k in params
    ensures done[keys[0] := params[keys[0]]] + Restricted(keys[1..], params) == done + Restricted(keys, params)
  {
    assert keys[0] in keys && forall k :: k in keys <==> k == keys[0] || k in keys[1..];
  }

  lemma {:induction false} ParamsBack(keys: seq<string>, params: map<string, string>, tail: string,
                                      rel: string, done: map<string, string>)
    requires Names(keys, params) && Separated(tail)
    ensures ParamsOf(ParamsText(keys, params) + tail, rel, done) == ParamsOf(tail, rel, done + Restricted(keys, params))
  {
    hide ParamsOf, ParamsText, ParamText, LowerToken, Plain, Restricted;
    if keys == [] {
      ParamsTextNone(params);
      assert ParamsText(keys, params) + tail == tail;
      RestrictedNone(params, done);
    } else {
      var k, rest := keys[0], keys[1..];
      assert k in keys && forall j :: j in rest ==> j in keys;
      ParamsTextFirst(keys, params, tail);
      ParamsTextSeparated(rest, params, tail);
      RestrictedFirst(keys, params, done);
      ParamsStep(k, params[k], ParamsText(rest, params) + tail, rel, done);
      ParamsBack(rest, params, tail, rel, done[k := params[k]]);
    }
  }

  lemma ParamsTextSeparated(keys: seq<string>, params: map<string, string>, tail: string)
    requires (forall k :: k in keys ==> k in params) && Separated(tail)
    ensures Separated(ParamsText(keys, params) + tail)
  {
    if keys == [] {
      assert ParamsText(keys, params) + tail == tail;
    }
  }

  /** What follows a link: the separator and the next link's text, or nothing. */
  function Tail(rest: string): string {
    if rest == "" then "" else ", " + rest
  }

  ghost function Followed(l: Link, rest: string): string {
    LinkText(l) + Tail(rest)
  }

  ghost function AfterUri(l: Link, rest: string): string {
    ParamText("rel", l.rel) + (ParamsText(SortedKeys(l.params.Keys), l.params) + Tail(rest))
  }

  lemma FollowedParts(l: Link, rest: string)
    ensures Followed(l, rest) == "<" + l.uri + ">" + AfterUri(l, rest)
    ensures AfterUri(l, rest)[0] == ';'
  {
    hide ParamsText;
    hide SortedKeys;
    var params := ParamsText(SortedKeys(l.params.Keys), l.params);
    Regroup("<" + l.uri + ">", ParamText("rel", l.rel), params);
    Regroup("<" + l.uri + ">", ParamText("rel", l.rel) + params, Tail(rest));
    Regroup(ParamText("rel", l.rel), params, Tail(rest));
  }

  /** Text up to the first closing bracket. */
  lemma BracketBack(uri: string, after: string)
    requires after != "" && after[0] == ';'
    ensures var text := "<" + uri + ">" + after; var end := IndexOf(text, '>');
            text[0] == '<' && 1 <= end < |text| && (text[1..end] == uri <==> '>' !in uri)
    ensures var text := "<" + uri + ">" + after;
            '>' !in uri ==> IndexOf(text, '>') == |uri| + 1 && TrimLeft(text[|uri| + 2..]) == after
  {
    hide IndexOf;
    var text := "<" + uri + ">" + after;
    var end := IndexOf(text, '>');
    assert text[|uri| + 1] == '>';
    assert forall i :: 0 <= i < end ==> text[i] == text[..end][i];
    if end < |uri| + 1 {
      assert text[end] == uri[end - 1];
      assert |text[1..end]| < |uri|;
    }
    assert text[1..|uri| + 1] == uri;
    assert text[|uri| + 2..] == after;
  }

  lemma LinkBack(l: Link, rest: string)
    requires WellFormed(l) && (rest == "" || rest[0] == '<')
    ensures LinksOf(Followed(l, rest)) == Consed(l, LinksOf(rest))
  {
    hide LinksOf, ParamsOf, TrimLeft, IndexOf, Followed, LowerToken, Plain;
    FollowedParts(l, rest);
    BracketBack(l.uri, AfterUri(l, rest));
    AfterUriBack(l, rest);
    var text := Followed(l, rest);
    LinksTurn(text, l.uri, AfterUri(l, rest), Params(l.rel, l.params, rest));
  }

  /** One turn of the link loop. */
  lemma LinksTurn(s: string, uri: string, after: string, p: Params)
    requires s != "" && s[0] == '<' && IndexOf(s, '>') == |uri| + 1 < |s| && s[1..|uri| + 1] == uri
    requires TrimLeft(s[|uri| + 2..]) == after && ParamsOf(after, "", map[]) == Success(p)
    ensures LinksOf(s) == Consed(Link(uri, p.rel, p.params), LinksOf(p.rest))
  {
    hide ParamsOf;
  }

  lemma TailBack(rest: string, rel: string, params: map<string, string>)
    requires rest == "" || rest[0] == '<'
    ensures ParamsOf(Tail(rest), rel, params) == Success(Params(rel, params, rest))
    ensures Separated(Tail(rest))
  {
    if rest != "" {
      assert Tail(rest)[1..] == " " + rest;
      SkipSpace(rest);
    }
  }

  lemma AfterUriBack(l: Link, rest: string)
    requires WellFormed(l) && (rest == "" || rest[0] == '<')
    ensures ParamsOf(AfterUri(l, rest), "", map[]) == Success(Params(l.rel, l.params, rest))
  {
    hide ParamsOf, ParamsText, Tail;
    var keys := SortedKeys(l.params.Keys);
    TailBack(rest, l.rel, l.params);
    ParamsTextSeparated(keys, l.params, Tail(rest));
    assert map[] + Restricted(keys, l.params) == l.params;
    ParamsStep("rel", l.rel, ParamsText(keys, l.params) + Tail(rest), "", map[]);
    ParamsBack(keys, l.params, Tail(rest), l.rel, map[]);
  }

  // ---------------------------------------------------------------- a list of links

  lemma PrintedFollowed(links: seq<Link>)
    requires links != []
    ensures Printed(links) == Followed(links[0], Printed(links[1..]))
    ensures Printed(links[1..]) == "" || Printed(links[1..])[0] == '<'
  {
    if |links| == 1 {
      assert LinkText(links[0]) + "" == LinkText(links[0]);
    } else {
      Regroup(LinkText(links[0]), ", ", Printed(links[1..]));
    }
  }

  lemma {:induction false} LinksBack(links: seq<Link>)
    requires forall l :: l in links ==> WellFormed(l)
    ensures LinksOf(Printed(links)) == Success(links)
  {
    if links != [] {
      PrintedFollowed(links);
      hide LinksOf;
      hide LinkText;
      hide Printed;
      hide Followed;
      LinksBack(links[1..]);
      LinkBack(links[0], Printed(links[1..]));
      assert [links[0]] + links[1..] == links;
    }
  }

  /** A printed list begins with `<` and ends with a quote, so trimming does not touch it. */
  lemma {:induction false} PrintedTrimmed(links: seq<Link>)
    ensures TrimRight(TrimLeft(Printed(links))) == Printed(links)
    ensures links != [] ==> Printed(links) != "" && Printed(links)[|Printed(links)| - 1] == '"'
  {
    if links != [] {
      var l := links[0];
      ParamsTextEnd(SortedKeys(l.params.Keys), l.params, ParamText("rel", l.rel));
      PrintedTrimmed(links[1..]);
      PrintedFollowed(links);
    }
  }

  lemma {:induction false} ParamsTextEnd(keys: seq<string>, params: map<string, string>, before: string)
    requires (forall k :: k in keys ==> k in params) && before != "" && before[|before| - 1] == '"'
    ensures var text := before + ParamsText(keys, params); text[|text| - 1] == '"'
  {
    if keys != [] {
      var next := ParamText(keys[0], params[keys[0]]);
      assert next[|next| - 1] == '"';
      ParamsTextEnd(keys[1..], params, before + next);
      Regroup(before, next, ParamsText(keys[1..], params));
    }
  }

  lemma RoundTrip(links: seq<Link>)
    requires forall l :: l in links ==> WellFormed(l)
    ensures Parsed(Printed(links)) == Success(links)
  {
    PrintedTrimmed(links);
    LinksBack(links);
  }

  // ---------------------------------------------------------------- nothing else comes back

  ghost predicate Backslashes(s: string) {
    forall c :: c in s ==> c == '\\'
  }

  /** Unescaping falls behind at every backslash and never catches up. */
  lemma {:induction false} UnquoteLags(lag: string, s: string, tail: string)
    requires Backslashes(lag)
    requires lag != "" || (s != "" && s[0] == '\\')
    ensures var r := Unquote(s + "\"" + tail, false); r.Some? ==> r.value.0 != lag + s
    decreases |s|
  {
    var text := s + "\"" + tail;
    var r := Unquote(text, false);
    if lag != "" { assert lag[0] in lag; }
    assert (lag + s)[0] == '\\';
    if r.Some? && r.value.0 == lag + s && s != "" && s[0] == '\\' {
      assert text[0] == '\\' && text[1..] == s[1..] + "\"" + tail;
      assert r == Unquote(text[1..], true);
      assert r == Prefixed([text[1..][0]], Unquote(text[1..][1..], false));
      assert r.value.0[0] == text[1];
      assert |s| >= 2 && s[1] == '\\';
      assert text[1..][1..] == text[2..] == s[2..] + "\"" + tail;
      var r' := Unquote(s[2..] + "\"" + tail, false);
      assert r.value.0 == "\\" + r'.value.0;
      assert lag + s == "\\" + (lag + "\\" + s[2..]) by { LagShift(lag, s); }
      assert r'.value.0 == r.value.0[1..];
      UnquoteLags(lag + "\\", s[2..], tail);
    }
  }

  lemma LagShift(lag: string, s: string)
    requires Backslashes(lag) && |s| >= 2 && s[0] == '\\' && s[1] == '\\'
    ensures lag + s == "\\" + (lag + "\\" + s[2..])
  {
    var a, b := lag + s, "\\" + (lag + "\\" + s[2..]);
    forall i | 0 <= i < |a| ensures a[i] == b[i] {
      if i < |lag| { assert lag[i] in lag; }
      if 0 < i <= |lag| { assert lag[i - 1] in lag; }
    }
  }

  lemma {:induction false} UnquoteOnlyPlain(value: string, tail: string)
    ensures var r := Unquote(value + "\"" + tail, false); r.Some? && r.value.0 == value ==> Plain(value)
  {
    var text := value + "\"" + tail;
    if value != "" {
      assert text[1..] == value[1..] + "\"" + tail;
      if value[0] == '\\' {
        UnquoteLags("", value, tail);
        assert "" + value == value;
      } else {
        UnquoteOnlyPlain(value[1..], tail);
        assert value == [value[0]] + value[1..];
      }
    }
  }

  /** The parameter that the next turn of the loop reads, if the turn reads one. */
  function NextParam(s: string): Option<Param> {
    if s != "" && s[0] == ';' && TrimLeft(s[1..]) != "" then ParamOf(TrimLeft(s[1..])) else None
  }

  lemma NoNextParam(s: string, rel: string, params: map<string, string>)
    requires NextParam(s).None?
    ensures var r := ParamsOf(s, rel, params); r.Success? ==> r.value.rel == rel && r.value.params == params
  {
  }

  lemma {:induction false} RelKept(s: string, rel: string, params: map<string, string>)
    requires rel != ""
    ensures var r := ParamsOf(s, rel, params); r.Success? ==> r.value.rel == rel
    decreases |s|
  {
    if NextParam(s).Some? {
      var p := NextParam(s).value;
      ParamsTurn(s, TrimLeft(s[1..]), p, rel, params);
      hide ParamsOf;
      RelKept(TrimLeft(p.rest), rel, WithParam(rel, params, p).1);
    } else {
      NoNextParam(s, rel, params);
    }
  }

  predicate ProperParam(name: string, value: string) {
    LowerToken(name) && value != ""
  }

  lemma ParamProper(s: string)
    requires ParamOf(s).Some?
    ensures ProperParam(ParamOf(s).value.name, ParamOf(s).value.value)
  {
  }

  /** Every parsed parameter has a lower-case token for a name, is not `rel` and is not empty. */
  lemma {:induction false} ParsedNames(s: string, rel: string, params: map<string, string>)
    requires forall k :: k in params ==> k != "rel" && ProperParam(k, params[k])
    ensures var r := ParamsOf(s, rel, params); r.Success? ==>
              forall k :: k in r.value.params ==> k != "rel" && ProperParam(k, r.value.params[k])
    decreases |s|
  {
    if NextParam(s).Some? {
      var p := NextParam(s).value;
      ParamsTurn(s, TrimLeft(s[1..]), p, rel, params);
      ParamProper(TrimLeft(s[1..]));
      hide ParamsOf;
      hide ParamOf;
      var (rel', params') := WithParam(rel, params, p);
      ParsedNames(TrimLeft(p.rest), rel', params');
    } else {
      NoNextParam(s, rel, params);
    }
  }

  /** A relation comes back only if it is not empty and plain. */
  lemma RelBackOnly(rel: string, tail: string)
    ensures var r := ParamsOf(ParamText("rel", rel) + tail, "", map[]);
            r.Success? && r.value.rel == rel ==> rel != "" && Plain(rel)
  {
    var text := ParamText("rel", rel) + tail;
    var quoted := "\"" + rel + "\"" + tail;
    var after := "rel" + ("=" + quoted);
    assert text[1..] == " " + after;
    SkipSpace(after);
    if ParamOf(after).None? {
      assert NextParam(text).None?;
      NoNextParam(text, "", map[]);
    } else {
      var p := ParamOf(after).value;
      ParamsTurn(text, after, p, "", map[]);
      hide ParamsOf;
      RelParamOnly(rel, tail, after, p);
      RelKept(TrimLeft(p.rest), p.value, map[]);
    }
  }

  lemma RelParamOnly(rel: string, tail: string, after: string, p: Param)
    requires after == "rel" + ("=" + ("\"" + rel + "\"" + tail)) && ParamOf(after) == Some(p)
    ensures p.name == "rel" && p.value != "" && (p.value == rel ==> Plain(rel))
  {
    var quoted := "\"" + rel + "\"" + tail;
    NameBack("rel", quoted);
    assert ("=" + quoted)[1..] == quoted;
    assert quoted[1..] == rel + "\"" + tail;
    UnquoteOnlyPlain(rel, tail);
  }
}
