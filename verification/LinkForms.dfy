/** What the parser makes of every way to write a parameter: a token, or quoted text with escapes, with spaces around. */
module LinkForms {
  import opened LinkHeader
  import opened LinkRoundTrip
  import opened Sequences
  import opened Wrappers

  // ---------------------------------------------------------------- how a header can be written

  /** Visible ASCII that separates nothing. */
  predicate Plainest(c: char) {
    '!' <= c <= '~' && c != '"' && c != ',' && c != '=' && c != ';'
  }

  predicate Word(s: string) {
    forall i :: 0 <= i < |s| ==> Plainest(s[i])
  }

  predicate Gap(s: string) {
    forall i :: 0 <= i < |s| ==> s[i] == ' ' || s[i] == '\t'
  }

  function Small(s: string): string {
    if s == "" then "" else [if 'A' <= s[0] <= 'Z' then (s[0] as int + 32) as char else s[0]] + Small(s[1..])
  }

  function EscapedChar(c: char): string {
    if c in "\"\\\r\n" then ['\\', c] else [c]
  }

  /** A backslash stands before each quote, backslash and line break. */
  function Escaped(s: string): string {
    if s == "" then ""
    else EscapedChar(s[0]) + Escaped(s[1..])
  }

  /** A parameter: what it means, and with which spaces and quotes it is written. */
  datatype Written = Written(name: string, value: string, quoted: bool, lead: string, before: string, middle: string, after: string)

  predicate Proper(w: Written) {
    && Word(w.name) && (w.name == "" ==> w.middle == "") && w.value != "" && (w.quoted || Word(w.value))
    && Gap(w.lead) && Gap(w.before) && Gap(w.middle) && Gap(w.after)
  }

  function ValueText(w: Written): string {
    if w.quoted then "\"" + (Escaped(w.value) + "\"") else w.value
  }

  function WrittenText(w: Written): string {
    w.lead + (";" + (w.before + (w.name + (w.middle + ("=" + (w.after + ValueText(w)))))))
  }

  function AllText(ws: seq<Written>): string {
    if ws == [] then "" else WrittenText(ws[0]) + AllText(ws[1..])
  }

  /** The value of the first parameter that is named `rel` in any case. */
  function FirstRel(ws: seq<Written>): string {
    if ws == [] then "" else if Small(ws[0].name) == "rel" then ws[0].value else FirstRel(ws[1..])
  }

  /** What one parameter leaves beside the relation. */
  function One(w: Written): map<string, string> {
    if Small(w.name) == "rel" then map[] else map[Small(w.name) := w.value]
  }

  /** The last value of every other name. */
  function LastValues(ws: seq<Written>): map<string, string> {
    if ws == [] then map[] else LastValues(ws[..|ws| - 1]) + One(ws[|ws| - 1])
  }

  // ---------------------------------------------------------------- one parameter

  lemma SameChars(c: char)
    ensures Plainest(c) <==> IsTokenChar(c)
    ensures Plainest(c) || c == '=' || c == '"' || c == ';' || c == ',' ==> !IsSpace(c)
    ensures c == ' ' || c == '\t' ==> IsSpace(c)
  {
  }

  lemma {:induction false} SmallIs(s: string)
    requires Word(s)
    ensures ToLower(s) == Small(s)
  {
    if s != "" {
      SmallIs(s[1..]);
      assert ToLower(s) == [LowerChar(s[0])] + ToLower(s[1..]);
      assert 'a' as int - 'A' as int == 32;
    }
  }

  lemma {:induction false} GapTrimmed(gap: string, e: string)
    requires Gap(gap) && e != "" && !IsSpace(e[0])
    ensures TrimLeft(gap + e) == e
  {
    if gap == "" {
      assert gap + e == e;
    } else {
      SameChars(gap[0]);
      assert (gap + e)[0] == gap[0] && (gap + e)[1..] == gap[1..] + e;
      GapTrimmed(gap[1..], e);
    }
  }

  /** Text that ends a word: nothing, or a character that no word has. */
  predicate Ends(e: string) {
    e == "" || !Plainest(e[0])
  }

  lemma {:induction false} WordLength(word: string, e: string)
    requires Word(word) && Ends(e)
    ensures TokenLength(word + e) == |word|
  {
    if word == "" {
      assert word + e == e;
      if e != "" { SameChars(e[0]); }
    } else {
      SameChars(word[0]);
      assert (word + e)[0] == word[0] && (word + e)[1..] == word[1..] + e;
      WordLength(word[1..], e);
    }
  }

  lemma CharBack(c: char, rest: string)
    ensures Unquote(EscapedChar(c) + rest, false) == Prefixed([c], Unquote(rest, false))
  {
    var text := EscapedChar(c) + rest;
    assert text == ['\\', c] + rest || text == [c] + rest;
    if c in "\"\\\r\n" {
      assert text[0] == '\\' && text[1..] == [c] + rest && text[1..][1..] == rest;
      assert Unquote(text, false) == Unquote(text[1..], true);
    } else {
      assert c != '"' && c != '\\' && c != '\r' && c != '\n' by {
        var special := "\"\\\r\n";
        assert special[0] == '"' && special[1] == '\\' && special[2] == '\r' && special[3] == '\n';
      }
      assert text[0] == c && text[1..] == rest;
    }
  }

  lemma QuoteEnds(tail: string)
    ensures Unquote("\"" + tail, false) == Some(("", tail))
  {
    assert ("\"" + tail)[1..] == tail;
  }

  /** Unescaping undoes escaping, whatever the value is. */
  lemma {:induction false} EscapedBack(value: string, tail: string)
    ensures Unquote(Escaped(value) + ("\"" + tail), false) == Some((value, tail))
  {
    hide Unquote, EscapedChar;
    var end := "\"" + tail;
    if value == "" {
      assert "" + end == end;
      QuoteEnds(tail);
    } else {
      EscapedBack(value[1..], tail);
      CharBack(value[0], Escaped(value[1..]) + end);
      Regroup(EscapedChar(value[0]), Escaped(value[1..]), end);
      assert [value[0]] + value[1..] == value;
    }
  }

  lemma ValueRead(w: Written, tail: string)
    requires Proper(w) && Ends(tail)
    ensures ValueText(w) + tail != "" && !IsSpace((ValueText(w) + tail)[0])
    ensures ValueOf(ValueText(w) + tail) == Some((w.value, tail))
  {
    hide Unquote, Escaped;
    var text := ValueText(w) + tail;
    if w.quoted {
      EscapedBack(w.value, tail);
      assert text[0] == '"' && text[1..] == Escaped(w.value) + ("\"" + tail);
    } else {
      assert text[0] == w.value[0];
      SameChars(w.value[0]);
      WordLength(w.value, tail);
      assert text[..|w.value|] == w.value && text[|w.value|..] == tail;
    }
  }

  lemma NameRead(name: string, middle: string, after: string, value: string)
    requires Word(name) && Gap(middle) && Gap(after) && value != "" && !IsSpace(value[0])
    ensures var text := name + (middle + ("=" + (after + value)));
            && TokenLength(text) == |name| && text[..|name|] == name
            && TrimLeft(text[|name|..]) == "=" + (after + value)
            && TrimLeft(("=" + (after + value))[1..]) == value
  {
    hide TrimLeft, TokenLength, IsSpace;
    var behind := "=" + (after + value);
    var text := name + (middle + behind);
    SameChars('=');
    GapTrimmed(middle, behind);
    GapTrimmed(after, value);
    assert behind[1..] == after + value;
    assert middle + behind != "" && ((middle + behind)[0] == '=' || (middle + behind)[0] == middle[0]);
    WordLength(name, middle + behind);
    assert text[..|name|] == name && text[|name|..] == middle + behind;
  }

  lemma ParamRead(w: Written, tail: string)
    requires Proper(w) && Ends(tail)
    ensures ParamOf(w.name + (w.middle + ("=" + (w.after + (ValueText(w) + tail)))))
         == Some(Param(Small(w.name), w.value, tail))
  {
    hide TrimLeft, TokenLength, ValueOf, ToLower, IsSpace;
    ValueRead(w, tail);
    NameRead(w.name, w.middle, w.after, ValueText(w) + tail);
    SmallIs(w.name);
  }

  // ---------------------------------------------------------------- all parameters of a link

  lemma WrittenParts(w: Written, tail: string)
    ensures WrittenText(w) + tail == w.lead + (";" + (w.before + (w.name + (w.middle + ("=" + (w.after + (ValueText(w) + tail)))))))
  {
    hide ValueText;
  }

  lemma LeadTrimmed(w: Written, tail: string)
    requires Proper(w)
    ensures Ends(WrittenText(w) + tail)
    ensures var after := w.name + (w.middle + ("=" + (w.after + (ValueText(w) + tail))));
            TrimLeft(WrittenText(w) + tail) == ";" + (w.before + after) && TrimLeft(w.before + after) == after && after != ""
  {
    hide ValueText, TrimLeft, IsSpace;
    var after := w.name + (w.middle + ("=" + (w.after + (ValueText(w) + tail))));
    WrittenParts(w, tail);
    SameChars(';');
    GapTrimmed(w.lead, ";" + (w.before + after));
    NameStarts(w.name, w.middle, "=" + (w.after + (ValueText(w) + tail)));
    GapTrimmed(w.before, after);
  }

  lemma NameStarts(name: string, middle: string, rest: string)
    requires Word(name) && (name == "" ==> middle == "") && rest != "" && rest[0] == '='
    ensures name + (middle + rest) != "" && !IsSpace((name + (middle + rest))[0])
  {
    SameChars('=');
    if name == "" {
      assert "" + ("" + rest) == rest;
    } else {
      SameChars(name[0]);
    }
  }

  /** One turn of the parameter loop. */
  lemma WrittenRead(w: Written, tail: string, rel: string, done: map<string, string>)
    requires Proper(w) && Ends(tail)
    ensures ParamsOf(TrimLeft(WrittenText(w) + tail), rel, done)
         == (var (rel', done') := WithParam(rel, done, Param(Small(w.name), w.value, tail));
             ParamsOf(TrimLeft(tail), rel', done'))
  {
    hide ParamsOf, ParamOf, TrimLeft, ValueText, WrittenText;
    var after := w.name + (w.middle + ("=" + (w.after + (ValueText(w) + tail))));
    var s := ";" + (w.before + after);
    LeadTrimmed(w, tail);
    ParamRead(w, tail);
    assert s[1..] == w.before + after;
    ParamsTurn(s, after, Param(Small(w.name), w.value, tail), rel, done);
  }

  lemma LastNext(ws: seq<Written>)
    requires ws != []
    ensures LastValues(ws) == LastValues(ws[..|ws| - 1]) + One(ws[|ws| - 1])
  {
  }

  lemma MapsRegroup<K, V>(a: map<K, V>, b: map<K, V>, c: map<K, V>)
    ensures a + b + c == a + (b + c)
  {
  }

  lemma NoneBefore<K, V>(a: map<K, V>)
    ensures map[] + a == a && a + map[] == a
  {
  }

  lemma {:induction false} LastFirst(ws: seq<Written>)
    requires ws != []
    ensures LastValues(ws) == One(ws[0]) + LastValues(ws[1..])
  {
    hide *;
    var n := |ws| - 1;
    LastNext(ws);
    if n == 0 {
      NoneLast(map[]);
      NoneBefore(LastValues([]));
      NoneBefore(One(ws[0]));
      assert ws[..0] == [] && ws[1..] == [];
    } else {
      var more := ws[1..];
      LastNext(more);
      LastFirst(ws[..n]);
      assert ws[..n][1..] == more[..n - 1] && ws[..n][0] == ws[0];
      MapsRegroup(One(ws[0]), LastValues(more[..n - 1]), One(ws[n]));
    }
  }

  lemma EndsAll(ws: seq<Written>, tail: string)
    requires (forall i :: 0 <= i < |ws| ==> Proper(ws[i])) && Ends(tail)
    ensures Ends(AllText(ws) + tail)
  {
    hide WrittenText;
    if ws == [] {
      assert "" + tail == tail;
    } else {
      Regroup(WrittenText(ws[0]), AllText(ws[1..]), tail);
      LeadTrimmed(ws[0], AllText(ws[1..]) + tail);
    }
  }

  lemma {:induction false} LoopRead(ws: seq<Written>, tail: string, rel: string, done: map<string, string>)
    requires (forall i :: 0 <= i < |ws| ==> Proper(ws[i])) && Ends(tail)
    ensures ParamsOf(TrimLeft(AllText(ws) + tail), rel, done)
         == ParamsOf(TrimLeft(tail), if rel != "" then rel else FirstRel(ws), done + LastValues(ws))
  {
    hide ParamsOf, TrimLeft, WrittenText, LastValues, Proper;
    if ws == [] {
      assert "" + tail == tail;
      NoneLast(done);
    } else {
      var w, more := ws[0], ws[1..];
      Regroup(WrittenText(w), AllText(more), tail);
      EndsAll(more, tail);
      WrittenRead(w, AllText(more) + tail, rel, done);
      var (rel', done') := WithParam(rel, done, Param(Small(w.name), w.value, AllText(more) + tail));
      LoopRead(more, tail, rel', done');
      LastFirst(ws);
      ValueThere(w);
      if Small(w.name) == "rel" {
        assert map[] + LastValues(more) == LastValues(more);
      } else {
        assert done + (map[Small(w.name) := w.value] + LastValues(more)) == done[Small(w.name) := w.value] + LastValues(more);
      }
    }
  }

  lemma NoneLast(done: map<string, string>)
    ensures done + LastValues([]) == done
  {
  }

  lemma ValueThere(w: Written)
    requires Proper(w)
    ensures w.value != ""
  {
  }

  // ---------------------------------------------------------------- a header of links

  datatype WrittenLink = WrittenLink(uri: string, params: seq<Written>, before: string, behind: string)

  predicate ProperLink(l: WrittenLink) {
    '>' !in l.uri && Gap(l.before) && Gap(l.behind) && forall i :: 0 <= i < |l.params| ==> Proper(l.params[i])
  }

  /** Links after the first follow a comma with spaces around it. */
  function HeaderText(links: seq<WrittenLink>): string
    decreases |links|, 0
  {
    if links == [] then ""
    else "<" + links[0].uri + ">" + (AllText(links[0].params) + MoreText(links[1..]))
  }

  function MoreText(links: seq<WrittenLink>): string
    decreases |links|, 1
  {
    if links == [] then "" else links[0].before + ("," + (links[0].behind + HeaderText(links)))
  }

  function Meanings(links: seq<WrittenLink>): seq<Link> {
    if links == [] then []
    else [Link(links[0].uri, FirstRel(links[0].params), LastValues(links[0].params))] + Meanings(links[1..])
  }

  lemma BracketAt(uri: string, rest: string)
    requires '>' !in uri
    ensures var text := "<" + uri + ">" + rest;
            text[0] == '<' && IndexOf(text, '>') == |uri| + 1 < |text| && text[1..|uri| + 1] == uri && text[|uri| + 2..] == rest
  {
    hide IndexOf;
    var text := "<" + uri + ">" + rest;
    assert text[|uri| + 1] == '>' && forall i :: 0 < i <= |uri| ==> text[i] == uri[i - 1];
  }

  /** Where the parameters end, the loop stops with the next link. */
  lemma MoreRead(links: seq<WrittenLink>, rel: string, done: map<string, string>)
    requires forall i :: 0 <= i < |links| ==> ProperLink(links[i])
    ensures Ends(MoreText(links))
    ensures ParamsOf(TrimLeft(MoreText(links)), rel, done) == Success(Params(rel, done, HeaderText(links)))
  {
    if links != [] {
      var l, text := links[0], HeaderText(links);
      assert text[0] == '<';
      SameChars('<');
      SameChars(',');
      GapTrimmed(l.before, "," + (l.behind + text));
      GapTrimmed(l.behind, text);
      var s := "," + (l.behind + text);
      assert s[1..] == l.behind + text;
      hide TrimLeft, HeaderText, AllText;
      assert MoreText(links) == l.before + s;
    }
  }

  lemma {:induction false} LinksRead(links: seq<WrittenLink>)
    requires forall i :: 0 <= i < |links| ==> ProperLink(links[i])
    ensures LinksOf(HeaderText(links)) == Success(Meanings(links))
  {
    if links != [] {
      var l, more := links[0], links[1..];
      var rest := AllText(l.params) + MoreText(more);
      FirstText(links);
      hide LinksOf, ParamsOf, TrimLeft, AllText, HeaderText, MoreText, LastValues, FirstRel, IndexOf, Proper;
      LinksRead(more);
      MoreRead(more, FirstRel(l.params), LastValues(l.params));
      LoopRead(l.params, MoreText(more), "", map[]);
      assert map[] + LastValues(l.params) == LastValues(l.params);
      BracketAt(l.uri, rest);
      LinksTurn(HeaderText(links), l.uri, TrimLeft(rest), Params(FirstRel(l.params), LastValues(l.params), HeaderText(more)));
    }
  }

  lemma FirstText(links: seq<WrittenLink>)
    requires links != []
    ensures HeaderText(links) == "<" + links[0].uri + ">" + (AllText(links[0].params) + MoreText(links[1..]))
  {
  }

  // ---------------------------------------------------------------- spaces around the header

  lemma {:induction false} GapEndTrimmed(text: string, gap: string)
    requires Gap(gap) && text != "" && !IsSpace(text[|text| - 1])
    ensures TrimRight(text + gap) == text
  {
    var s, n := text + gap, |gap| - 1;
    if gap == "" {
      assert s == text;
    } else {
      SameChars(gap[n]);
      assert s[|s| - 1] == gap[n] && s[..|s| - 1] == text + gap[..n];
      GapEndTrimmed(text, gap[..n]);
    }
  }

  lemma {:induction false} GapAlone(gap: string)
    requires Gap(gap)
    ensures TrimLeft(gap) == ""
  {
    if gap != "" {
      SameChars(gap[0]);
      GapAlone(gap[1..]);
    }
  }

  lemma ValueTextEnds(w: Written)
    requires Proper(w)
    ensures WrittenText(w) != "" && !IsSpace(WrittenText(w)[|WrittenText(w)| - 1])
  {
    var value := ValueText(w);
    assert value != "" && (w.quoted ==> value[|value| - 1] == '"');
    SameChars(value[|value| - 1]);
    hide ValueText;
    var text := WrittenText(w);
    assert text[|text| - 1] == value[|value| - 1];
  }

  lemma {:induction false} ParamsEnd(ws: seq<Written>, text: string)
    requires forall i :: 0 <= i < |ws| ==> Proper(ws[i])
    requires text != "" && !IsSpace(text[|text| - 1])
    ensures var all := text + AllText(ws); all != "" && !IsSpace(all[|all| - 1])
  {
    hide WrittenText, Proper, IsSpace;
    if ws == [] {
      assert text + "" == text;
    } else {
      ValueTextEnds(ws[0]);
      Regroup(text, WrittenText(ws[0]), AllText(ws[1..]));
      ParamsEnd(ws[1..], text + WrittenText(ws[0]));
    }
  }

  lemma {:induction false} HeaderEnds(links: seq<WrittenLink>)
    requires links != [] && forall i :: 0 <= i < |links| ==> ProperLink(links[i])
    ensures var text := HeaderText(links); text != "" && text[0] == '<' && !IsSpace(text[|text| - 1])
  {
    var l, more := links[0], links[1..];
    var head := "<" + l.uri + ">";
    SameChars('>');
    FirstText(links);
    ParamsEnd(l.params, head);
    hide AllText, HeaderText, Proper, IsSpace;
    Regroup(head, AllText(l.params), MoreText(more));
    if more == [] {
      assert head + AllText(l.params) + "" == head + AllText(l.params);
    } else {
      HeaderEnds(more);
      var text := HeaderText(more);
      assert MoreText(more)[|MoreText(more)| - 1] == text[|text| - 1];
    }
  }

  /**
   * Every header that writes links with any mixture of tokens and quoted, escaped values, and with any
   * spaces around them, is parsed into exactly the links it means: the first relation, the last value of
   * each other name in lower case.
   */
  lemma HeaderRead(front: string, links: seq<WrittenLink>, back: string)
    requires Gap(front) && Gap(back) && forall i :: 0 <= i < |links| ==> ProperLink(links[i])
    ensures Parsed(front + HeaderText(links) + back) == Success(Meanings(links))
  {
    hide *;
    var text := HeaderText(links);
    var header := front + text + back;
    LinksRead(links);
    TrimsFirst(header);
    if links == [] {
      NoLinks();
      GapsJoin(front, back);
      assert header == front + back;
      GapAlone(front + back);
    } else {
      HeaderEnds(links);
      NotSpace('<');
      Regroup(front, text, back);
      GapTrimmed(front, text + back);
      GapEndTrimmed(text, back);
    }
  }

  lemma TrimsFirst(header: string)
    ensures Parsed(header) == LinksOf(TrimRight(TrimLeft(header))) && TrimRight("") == ""
  {
    hide LinksOf, TrimLeft;
  }

  lemma GapsJoin(a: string, b: string)
    requires Gap(a) && Gap(b)
    ensures Gap(a + b)
  {
  }

  lemma NotSpace(c: char)
    requires '!' <= c <= '~'
    ensures !IsSpace(c)
  {
  }

  lemma NoLinks()
    ensures HeaderText([]) == "" && Meanings([]) == []
  {
  }

  // ---------------------------------------------------------------- tokens

  /** An unquoted relation is read whole, whatever comes after it. */
  lemma TokenRel(uri: string, t: string, rest: string)
    requires '>' !in uri && t != "" && Word(t) && (rest == "" || rest[0] == ';' || rest[0] == ',')
    ensures var r := Parsed("<" + uri + ">; rel=" + t + rest);
            r.Success? ==> r.value != [] && r.value[0].uri == uri && r.value[0].rel == t
  {
    hide LinksOf, ParamsOf, TrimLeft, TrimRight, IndexOf;
    var head, params := "<" + uri + ">", "; rel=" + t;
    SameChars(t[|t| - 1]);
    NotSpace('<');
    NotSpace(';');
    NotSpace(',');
    assert (head + params)[|head + params| - 1] == t[|t| - 1];
    assert "<" + uri + ">; rel=" + t == head + params;
    GapTrimmed("", head + params + rest);
    assert "" + (head + params + rest) == head + params + rest;
    var rest' := RightTrimmed(head + params, rest);
    Regroup(head, params, rest');
    FirstLink(uri, params + rest');
    RelRead(t, rest');
  }

  /** An unquoted relation alone makes a link. */
  lemma TokenAlone(uri: string, t: string)
    requires '>' !in uri && t != "" && Word(t)
    ensures Parsed("<" + uri + ">; rel=" + t) == Success([Link(uri, t, map[])])
  {
    hide *;
    var w := Written("rel", t, false, "", " ", "", "");
    var l := WrittenLink(uri, [w], "", "");
    AloneProper(uri, t, w);
    AloneText(uri, t, w);
    AloneMeaning(uri, t, w);
    var text := HeaderText([l]);
    assert "" + text + "" == text;
    HeaderRead("", [l], "");
  }

  lemma AloneProper(uri: string, t: string, w: Written)
    requires '>' !in uri && t != "" && Word(t) && w == Written("rel", t, false, "", " ", "", "")
    ensures ProperLink(WrittenLink(uri, [w], "", "")) && Gap("")
  {
  }

  lemma AloneText(uri: string, t: string, w: Written)
    requires w == Written("rel", t, false, "", " ", "", "")
    ensures HeaderText([WrittenLink(uri, [w], "", "")]) == "<" + uri + ">; rel=" + t
  {
    assert WrittenText(w) == "; rel=" + t;
    assert [w][1..] == [];
    assert AllText([w]) == "; rel=" + t + "";
    assert "<" + uri + ">" + ("; rel=" + t) == "<" + uri + ">; rel=" + t;
  }

  lemma AloneMeaning(uri: string, t: string, w: Written)
    requires w == Written("rel", t, false, "", " ", "", "")
    ensures Meanings([WrittenLink(uri, [w], "", "")]) == [Link(uri, t, map[])]
  {
    assert Small("rel") == "rel" by {
      SmallIs("rel");
    }
    assert [w][..0] == [] && LastValues([]) == map[];
    assert FirstRel([w]) == t && LastValues([w]) == map[];
    assert [WrittenLink(uri, [w], "", "")][1..] == [];
    assert Meanings([]) == [];
  }

  lemma {:induction false} RightTrimmed(head: string, rest: string) returns (rest': string)
    requires head != "" && !IsSpace(head[|head| - 1]) && (rest == "" || !IsSpace(rest[0]))
    ensures TrimRight(head + rest) == head + rest' && (rest == "" ==> rest' == "")
    ensures rest != "" ==> rest' != "" && rest'[0] == rest[0]
    decreases |rest|
  {
    var s, n := head + rest, |rest| - 1;
    if rest == "" || !IsSpace(rest[n]) {
      rest' := rest;
      assert s[|s| - 1] == if rest == "" then head[|head| - 1] else rest[n];
    } else {
      assert s[|s| - 1] == rest[n] && s[..|s| - 1] == head + rest[..n];
      rest' := RightTrimmed(head, rest[..n]);
    }
  }

  lemma FirstLink(uri: string, rest: string)
    requires '>' !in uri
    ensures var r, p := LinksOf("<" + uri + ">" + rest), ParamsOf(TrimLeft(rest), "", map[]);
            r.Success? ==> p.Success? && r.value != [] && r.value[0] == Link(uri, p.value.rel, p.value.params)
  {
    hide ParamsOf, TrimLeft, IndexOf;
    BracketAt(uri, rest);
  }

  lemma RelRead(t: string, rest: string)
    requires t != "" && Word(t) && (rest == "" || rest[0] == ';' || rest[0] == ',')
    ensures var r := ParamsOf(TrimLeft("; rel=" + t + rest), "", map[]); r.Success? ==> r.value.rel == t
  {
    hide ParamsOf, TrimLeft;
    var w := Written("rel", t, false, "", " ", "", "");
    WrittenRead(w, rest, "", map[]);
    assert WrittenText(w) == "; rel=" + t;
    assert Small("rel") == "rel" by {
      SmallIs("rel");
    }
    RelKept(TrimLeft(rest), t, map[]);
  }

  /** So is any other unquoted value. */
  lemma TokenParam(name: string, t: string, rest: string, rel: string, done: map<string, string>)
    requires Word(name) && Small(name) != "rel" && t != "" && Word(t) && (rest == "" || rest[0] == ';' || rest[0] == ',')
    ensures ParamsOf("; " + name + "=" + t + rest, rel, done) == ParamsOf(rest, rel, done[Small(name) := t])
  {
    hide ParamsOf, LowerChar;
    var w := Written(name, t, false, "", " ", "", "");
    WrittenRead(w, rest, rel, done);
    assert WrittenText(w) == "; " + name + "=" + t;
    NoGap(rest);
    hide WrittenText;
    NoGap(WrittenText(w) + rest);
  }

  lemma NoGap(s: string)
    requires s == "" || s[0] == ';' || s[0] == ','
    ensures TrimLeft(s) == s
  {
  }

  // ---------------------------------------------------------------- the four errors

  /** After links that are written properly, each kind of bad text has its own error. */
  lemma ErrorsExact(uri: string, ws: seq<Written>, bad: string)
    requires '>' !in uri && (forall i :: 0 <= i < |ws| ==> Proper(ws[i])) && bad != "" && !IsSpace(bad[0])
    ensures bad[0] != '<' ==> LinksOf(bad) == Failure(NoOpeningBracket)
    ensures bad[0] == '<' && '>' !in bad ==> LinksOf(bad) == Failure(NoClosingBracket)
    ensures var text := "<" + uri + ">" + (AllText(ws) + bad);
            && (Ends(bad) && bad[0] != ';' && bad[0] != ',' ==> LinksOf(text) == Failure(ExpectedSeparator))
            && (bad[0] == ';' && Unreadable(bad[1..]) ==> LinksOf(text) == Failure(MalformedParam))
  {
    hide ParamsOf, ParamOf, TrimLeft, AllText, FirstRel, LastValues;
    NoBracket(bad);
    if Ends(bad) {
      GapTrimmed("", bad);
      assert "" + bad == bad;
      LoopRead(ws, bad, "", map[]);
      BadEnd(bad, FirstRel(ws), map[] + LastValues(ws));
      BracketAt(uri, AllText(ws) + bad);
    } else {
      assert bad[0] != ';';
    }
  }

  /** A word that neither an equals sign nor its value follows. */
  ghost predicate Unreadable(s: string) {
    exists gap, word, rest ::
      Gap(gap) && Word(word) && s == gap + (word + rest) && word + rest != "" && (rest == "" || NoValue(rest))
  }

  /** Something other than an equals sign, or nothing or an empty value after it. */
  predicate NoValue(rest: string) {
    rest != "" && !Plainest(rest[0]) && !IsSpace(rest[0])
    && (rest[0] != '=' || rest == "=" || rest[1] in ",;=" || (|rest| > 2 && rest[1] == '"' && rest[2] == '"'))
  }

  lemma NoBracket(bad: string)
    requires bad != ""
    ensures bad[0] != '<' ==> LinksOf(bad) == Failure(NoOpeningBracket)
    ensures bad[0] == '<' && '>' !in bad ==> LinksOf(bad) == Failure(NoClosingBracket)
  {
    hide IndexOf, ParamsOf;
    assert IndexOf(bad, '>') < |bad| ==> bad[IndexOf(bad, '>')] in bad;
  }

  lemma BadEnd(bad: string, rel: string, done: map<string, string>)
    requires bad != "" && !IsSpace(bad[0])
    ensures bad[0] != ';' && bad[0] != ',' ==> ParamsOf(bad, rel, done) == Failure(ExpectedSeparator)
    ensures bad[0] == ';' && Unreadable(bad[1..]) ==> ParamsOf(bad, rel, done) == Failure(MalformedParam)
  {
    if bad[0] == ';' && Unreadable(bad[1..]) {
      var gap, word, rest :|
        Gap(gap) && Word(word) && bad[1..] == gap + (word + rest) && word + rest != "" && (rest == "" || NoValue(rest));
      WordStarts(word, rest);
      GapTrimmed(gap, word + rest);
      NoParam(word, rest);
    }
  }

  lemma NoParam(word: string, rest: string)
    requires Word(word) && (rest == "" || NoValue(rest))
    ensures ParamOf(word + rest).None?
  {
    hide Unquote, IsSpace;
    WordLength(word, rest);
    assert (word + rest)[|word|..] == rest;
    NoGapAt(rest);
    if rest != "" && rest[0] == '=' && rest != "=" {
      var value := rest[1..];
      NotSpaceAfter(rest);
      NoGapAt(value);
      EmptyValue(value);
    }
  }

  lemma WordStarts(word: string, rest: string)
    requires Word(word) && word + rest != "" && (rest == "" || NoValue(rest))
    ensures !IsSpace((word + rest)[0])
  {
    hide IsSpace;
    if word == "" {
      assert word + rest == rest;
    } else {
      assert (word + rest)[0] == word[0];
      SameChars(word[0]);
    }
  }

  lemma NotSpaceAfter(rest: string)
    requires NoValue(rest) && rest[0] == '=' && rest != "="
    ensures !IsSpace(rest[1])
  {
  }

  lemma NoGapAt(s: string)
    requires s == "" || !IsSpace(s[0])
    ensures TrimLeft(s) == s
  {
  }

  lemma EmptyValue(s: string)
    requires s != "" && (s[0] in ",;=" || (|s| > 1 && s[0] == '"' && s[1] == '"'))
    ensures ValueOf(s).None?
  {
    if s[0] == '"' {
      assert Unquote(s[1..], false) == Some(("", s[1..][1..]));
    }
  }

  // ---------------------------------------------------------------- how links are printed

  /** Up to here the texts agree; then the first one ends or has the smaller character. */
  predicate DifferAt(a: string, b: string, i: nat) {
    i <= |a| && i < |b| && a[..i] == b[..i] && (i == |a| || a[i] < b[i])
  }

  ghost predicate Precedes(a: string, b: string) {
    exists i: nat :: DifferAt(a, b, i)
  }

  lemma {:induction false} LessExact(a: string, b: string)
    ensures Less(a, b) <==> Precedes(a, b)
  {
    if a == "" || b == "" {
      assert b != "" ==> DifferAt(a, b, 0);
    } else {
      PrecedesFirst(a, b);
      LessExact(a[1..], b[1..]);
      hide Precedes;
    }
  }

  lemma PrecedesFirst(a: string, b: string)
    requires a != "" && b != ""
    ensures Precedes(a, b) <==> a[0] < b[0] || (a[0] == b[0] && Precedes(a[1..], b[1..]))
  {
    hide DifferAt;
    if i: nat :| DifferAt(a, b, i) {
      Later(a, b, i);
    }
    if a[0] < b[0] {
      Later(a, b, 0);
    } else if a[0] == b[0] && Precedes(a[1..], b[1..]) {
      var j: nat :| DifferAt(a[1..], b[1..], j);
      Later(a, b, j + 1);
    }
  }

  lemma Later(a: string, b: string, i: nat)
    requires a != "" && b != ""
    ensures DifferAt(a, b, i) <==> if i == 0 then a[0] < b[0] else a[0] == b[0] && DifferAt(a[1..], b[1..], i - 1)
  {
    if 0 < i <= |a| && i < |b| {
      assert a[..i] == [a[0]] + a[1..][..i - 1] && b[..i] == [b[0]] + b[1..][..i - 1];
      assert a[..i][0] == a[0] && b[..i][0] == b[0];
      assert a[..i][1..] == a[1..][..i - 1] && b[..i][1..] == b[1..][..i - 1];
    }
  }

  /** A link is printed with its relation first and then each parameter once, by ascending name. */
  lemma PrintedExact(l: Link) returns (names: seq<string>, texts: seq<string>)
    ensures (forall i, j :: 0 <= i < j < |names| ==> Precedes(names[i], names[j])) && forall k :: k in names <==> k in l.params
    ensures |texts| == |names|
    ensures forall i :: 0 <= i < |names| ==> texts[i] == "; " + names[i] + "=\"" + l.params[names[i]] + "\""
    ensures Printed([l]) == "<" + l.uri + ">; rel=\"" + l.rel + "\"" + Concat(texts)
  {
    hide Less, Precedes, ParamsText, Concat;
    names := SortedKeys(l.params.Keys);
    forall i, j | 0 <= i < j < |names| ensures Precedes(names[i], names[j]) {
      LessExact(names[i], names[j]);
    }
    texts := TextsOf(names, l.params);
    var rest := ParamsText(names, l.params);
    assert "<" + l.uri + ">" + ("; rel=\"" + l.rel + "\"" + rest) == "<" + l.uri + ">; rel=\"" + l.rel + "\"" + rest;
  }

  lemma {:induction false} TextsOf(names: seq<string>, params: map<string, string>) returns (texts: seq<string>)
    requires forall k :: k in names ==> k in params
    ensures |texts| == |names| && ParamsText(names, params) == Concat(texts)
    ensures forall i :: 0 <= i < |names| ==> texts[i] == "; " + names[i] + "=\"" + params[names[i]] + "\""
  {
    if names == [] {
      texts := [];
    } else {
      var more := TextsOf(names[1..], params);
      texts := ["; " + names[0] + "=\"" + params[names[0]] + "\""] + more;
      assert texts[1..] == more;
    }
  }
}
