/** The values of a link whose printed parameters are parsed to themselves: each one is plain. */
module LinkExact {
  import opened LinkHeader
  import opened LinkRoundTrip
  import opened Wrappers

  // ---------------------------------------------------------------- where parameters are read

  /** The parameter loop reads this name and value at a semicolon of the text. */
  predicate ReadAt(s: string, i: nat, k: string, v: string) {
    && i < |s| && s[i] == ';' && NextParam(s[i..]).Some?
    && NextParam(s[i..]).value.name == k && NextParam(s[i..]).value.value == v
  }

  ghost predicate ReadIn(s: string, k: string, v: string) {
    exists i: nat :: ReadAt(s, i, k, v)
  }

  /** The text ends with `t`. */
  predicate EndsWith(s: string, t: string) {
    |t| <= |s| && s[|s| - |t|..] == t
  }

  lemma EndsFrom(s: string, i: nat)
    requires i <= |s|
    ensures EndsWith(s, s[i..])
  {
  }

  lemma EndsTwice(s: string, t: string, u: string)
    requires EndsWith(s, t) && EndsWith(t, u)
    ensures EndsWith(s, u)
  {
    assert s[|s| - |t|..][|t| - |u|..] == s[|s| - |u|..];
  }

  lemma {:induction false} TrimEnds(s: string)
    ensures EndsWith(s, TrimLeft(s))
  {
    if s != "" && IsSpace(s[0]) {
      TrimEnds(s[1..]);
      EndsFrom(s, 1);
      EndsTwice(s, s[1..], TrimLeft(s[1..]));
    }
  }

  lemma {:induction false} UnquoteEnds(s: string, literal: bool)
    ensures Unquote(s, literal).Some? ==> EndsWith(s, Unquote(s, literal).value.1)
  {
    if s != "" && Unquote(s, literal).Some? {
      EndsFrom(s, 1);
      if literal || s[0] != '"' {
        UnquoteEnds(s[1..], !literal && s[0] == '\\');
        EndsTwice(s, s[1..], Unquote(s, literal).value.1);
      }
    }
  }

  lemma ValueEnds(s: string)
    requires s != "" && ValueOf(s).Some?
    ensures EndsWith(s, ValueOf(s).value.1)
  {
    if s[0] == '"' {
      UnquoteEnds(s[1..], false);
      EndsFrom(s, 1);
      hide Unquote;
      EndsTwice(s, s[1..], ValueOf(s).value.1);
    } else {
      EndsFrom(s, TokenLength(s));
    }
  }

  lemma ParamEnds(s: string)
    requires ParamOf(s).Some?
    ensures EndsWith(s, ParamOf(s).value.rest)
  {
    hide TrimLeft, TokenLength, ValueOf, EndsWith;
    var n := TokenLength(s);
    var t := TrimLeft(s[n..]);
    var u := TrimLeft(t[1..]);
    TrimEnds(s[n..]);
    TrimEnds(t[1..]);
    ValueEnds(u);
    EndsFrom(s, n);
    EndsFrom(t, 1);
    var rest := ParamOf(s).value.rest;
    assert rest == ValueOf(u).value.1;
    EndsTwice(t[1..], u, rest);
    EndsTwice(t, t[1..], rest);
    EndsTwice(s[n..], t, rest);
    EndsTwice(s, s[n..], rest);
  }

  lemma ReadLater(s: string, t: string, k: string, v: string)
    requires EndsWith(s, t) && ReadIn(t, k, v)
    ensures ReadIn(s, k, v)
  {
    hide NextParam;
    var j: nat :| ReadAt(t, j, k, v);
    var i := |s| - |t|;
    assert s[i..][j..] == s[i + j..];
    assert ReadAt(s, i + j, k, v);
  }

  /** Where the loop is after reading a parameter. */
  lemma NextEnds(s: string)
    requires NextParam(s).Some?
    ensures EndsWith(s, TrimLeft(NextParam(s).value.rest)) && |TrimLeft(NextParam(s).value.rest)| < |s|
    ensures ReadIn(s, NextParam(s).value.name, NextParam(s).value.value)
  {
    hide TrimLeft, ParamOf, EndsWith;
    var after := TrimLeft(s[1..]);
    var rest := ParamOf(after).value.rest;
    TrimEnds(s[1..]);
    TrimEnds(rest);
    ParamEnds(after);
    EndsFrom(s, 1);
    assert s[0..] == s;
    assert ReadAt(s, 0, NextParam(s).value.name, NextParam(s).value.value);
    EndsTwice(after, rest, TrimLeft(rest));
    EndsTwice(s[1..], after, TrimLeft(rest));
    EndsTwice(s, s[1..], TrimLeft(rest));
  }

  /** Every parameter of the result was there before or is read somewhere in the text. */
  lemma {:induction false} AllRead(s: string, rel: string, done: map<string, string>, k: string)
    ensures var r := ParamsOf(s, rel, done);
            r.Success? && k in r.value.params ==>
              (k in done && r.value.params[k] == done[k]) || ReadIn(s, k, r.value.params[k])
    decreases |s|
  {
    var r := ParamsOf(s, rel, done);
    if NextParam(s).None? {
      NoNextParam(s, rel, done);
    } else if r.Success? && k in r.value.params {
      var p := NextParam(s).value;
      ParamsTurn(s, TrimLeft(s[1..]), p, rel, done);
      NextEnds(s);
      var (rel', done') := WithParam(rel, done, p);
      var t := TrimLeft(p.rest);
      assert k in done' && done'[k] == r.value.params[k] ==>
               (k in done && r.value.params[k] == done[k]) || (k == p.name && r.value.params[k] == p.value);
      hide *;
      AllRead(t, rel', done', k);
      if ReadIn(t, k, r.value.params[k]) {
        ReadLater(s, t, k, r.value.params[k]);
      }
    }
  }

  // ---------------------------------------------------------------- reads of printed parameters

  /** What can follow a printed value: nothing, or the next parameter. */
  ghost predicate Follows(rest: string) {
    rest == "" || exists m, t :: LowerToken(m) && rest == "; " + m + "=\"" + t
  }

  ghost predicate TokenNames(keys: seq<string>, params: map<string, string>) {
    forall k :: k in keys ==> k in params && LowerToken(k)
  }

  /** The value that is read where it was printed. */
  ghost predicate OwnRead(m: string, v: string, rest: string, k: string, val: string) {
    k == m && Unquote(v + "\"" + rest, false).Some? && Unquote(v + "\"" + rest, false).value.0 == val
  }

  /** A value that is read from a semicolon inside a printed value. */
  predicate InnerRead(v: string, j: nat, rest: string, k: string, val: string) {
    j < |v| && ReadAt(v[j..] + ("\"" + rest), 0, k, val)
  }

  lemma HeadParts(m: string, v: string, rest: string)
    ensures ParamText(m, v) + rest == "; " + m + "=\"" + (v + ("\"" + rest))
  {
  }

  lemma StartParam(m: string, quoted: string)
    requires LowerToken(m) && quoted != "" && quoted[0] == '"'
    ensures var r := ParamOf(m + ("=" + quoted));
            r.Some? ==> r.value.name == m && ValueOf(quoted).Some?
                        && r.value.value == ValueOf(quoted).value.0 && r.value.rest == ValueOf(quoted).value.1
  {
    hide TrimLeft, TokenLength, ValueOf, ToLower, LowerToken;
    NameBack(m, quoted);
    assert ("=" + quoted)[1..] == quoted;
  }

  lemma StartText(m: string, v: string, rest: string)
    requires LowerToken(m)
    ensures var text := ParamText(m, v) + rest;
            text != "" && TrimLeft(text[1..]) == m + ("=" + ("\"" + (v + "\"" + rest)))
  {
    hide TrimLeft;
    var after := m + ("=" + ("\"" + (v + "\"" + rest)));
    var text := ParamText(m, v) + rest;
    assert text[1..] == " " + after;
    assert after[0] == (if m == "" then '=' else m[0]);
    SkipSpace(after);
  }

  /** Reading at the start of a printed parameter reads its name, and its value from its opening quote. */
  lemma ReadAtStart(m: string, v: string, rest: string, k: string, val: string)
    requires LowerToken(m) && ReadAt(ParamText(m, v) + rest, 0, k, val)
    ensures OwnRead(m, v, rest, k, val)
  {
    hide TrimLeft, ParamOf, Unquote, ParamText, LowerToken;
    var text, inner := ParamText(m, v) + rest, v + "\"" + rest;
    var quoted := "\"" + inner;
    StartText(m, v, rest);
    StartParam(m, quoted);
    assert text[0..] == text && quoted[1..] == inner;
  }

  /** Where a read of printed parameters is: at a parameter's start, inside its value, or further on. */
  lemma {:induction false} Locate(keys: seq<string>, params: map<string, string>, k: string, val: string)
    returns (m: string, j: nat, rest: string)
    requires TokenNames(keys, params) && ReadIn(ParamsText(keys, params), k, val)
    ensures m in keys && m in params && Follows(rest)
    ensures OwnRead(m, params[m], rest, k, val) || InnerRead(params[m], j, rest, k, val)
  {
    var text := ParamsText(keys, params);
    var i: nat :| ReadAt(text, i, k, val);
    assert keys != [];
    m, j, rest := keys[0], 0, ParamsText(keys[1..], params);
    NamesRest(keys, params);
    var v := params[m];
    FollowsNext(keys[1..], params);
    assert text == ParamText(m, v) + rest;
    var where := ReadWhere(m, v, rest, i, k, val);
    hide *;
    if where == 1 {
      j := i - |m| - 4;
    } else if where == 2 {
      m, j, rest := Locate(keys[1..], params, k, val);
      InTail(m, keys);
    }
  }

  lemma InTail(m: string, keys: seq<string>)
    requires keys != [] && m in keys[1..]
    ensures m in keys
  {
  }

  lemma NamesRest(keys: seq<string>, params: map<string, string>)
    requires keys != [] && TokenNames(keys, params)
    ensures TokenNames(keys[1..], params) && keys[0] in keys && keys[0] in params && LowerToken(keys[0])
  {
    hide LowerToken;
  }

  /** One printed parameter: the read is at its start (0), in its value (1) or after it (2). */
  lemma ReadWhere(m: string, v: string, rest: string, i: nat, k: string, val: string) returns (where: nat)
    requires LowerToken(m) && ReadAt(ParamText(m, v) + rest, i, k, val)
    ensures where <= 2
    ensures where == 0 ==> OwnRead(m, v, rest, k, val)
    ensures where == 1 ==> i >= |m| + 4 && InnerRead(v, i - |m| - 4, rest, k, val)
    ensures where == 2 ==> ReadIn(rest, k, val)
  {
    hide ReadAt, ParamText, OwnRead, ReadIn, LowerToken;
    var text, head, n := ParamText(m, v) + rest, "; " + m + "=\"", |m| + 4;
    HeadParts(m, v, rest);
    SemicolonAt(text, i, k, val);
    Semicolons(m, v, rest, i);
    if i == 0 {
      where := 0;
      ReadAtStart(m, v, rest, k, val);
    } else if i < n + |v| {
      where := 1;
      InValue(text, head, v, "\"" + rest, i, k, val);
    } else {
      where := 2;
      assert text == (head + v + "\"") + rest;
      InRest(text, head + v + "\"", rest, i, k, val);
    }
  }

  lemma SemicolonAt(text: string, i: nat, k: string, val: string)
    requires ReadAt(text, i, k, val)
    ensures i < |text| && text[i] == ';'
  {
  }

  /** Outside its value, a printed parameter has a semicolon only at its start. */
  lemma Semicolons(m: string, v: string, rest: string, i: nat)
    requires LowerToken(m) && i < |ParamText(m, v) + rest| && (ParamText(m, v) + rest)[i] == ';'
    ensures i == 0 || |m| + 4 <= i < |m| + 4 + |v| || i > |m| + 4 + |v|
  {
    var text := ParamText(m, v) + rest;
    HeadParts(m, v, rest);
    assert forall x :: 2 <= x < |m| + 2 ==> text[x] == m[x - 2];
    assert text[|m| + 4 + |v|] == '"';
  }

  lemma FollowsNext(keys: seq<string>, params: map<string, string>)
    requires TokenNames(keys, params)
    ensures Follows(ParamsText(keys, params))
  {
    if keys != [] {
      var m := keys[0];
      assert m in keys;
      HeadParts(m, params[m], ParamsText(keys[1..], params));
    }
  }

  lemma InValue(text: string, head: string, v: string, rest: string, i: nat, k: string, val: string)
    requires text == head + (v + rest) && |head| <= i < |head| + |v| && ReadAt(text, i, k, val)
    requires rest != "" && rest[0] == '"'
    ensures ReadAt(v[i - |head|..] + rest, 0, k, val)
  {
    hide NextParam;
    var t := v[i - |head|..] + rest;
    assert text[i..] == t && t[0..] == t;
  }

  lemma InRest(text: string, front: string, rest: string, i: nat, k: string, val: string)
    requires text == front + rest && |front| <= i && ReadAt(text, i, k, val)
    ensures ReadIn(rest, k, val)
  {
    hide NextParam;
    assert text[i..] == rest[i - |front|..];
    assert ReadAt(rest, i - |front|, k, val);
  }

  // ---------------------------------------------------------------- what an inner read can give

  function Quotes(s: string): nat {
    if s == "" then 0 else Quotes(s[..|s| - 1]) + if s[|s| - 1] == '"' then 1 else 0
  }

  lemma {:induction false} QuotesJoin(a: string, b: string)
    ensures Quotes(a + b) == Quotes(a) + Quotes(b)
  {
    if b == "" {
      assert a + b == a;
    } else {
      QuotesJoin(a, b[..|b| - 1]);
      assert (a + b)[..|a + b| - 1] == a + b[..|b| - 1];
    }
  }

  lemma {:induction false} QuotesZero(s: string)
    ensures Quotes(s) == 0 <==> '"' !in s
  {
    if s != "" {
      QuotesZero(s[..|s| - 1]);
      assert s == s[..|s| - 1] + [s[|s| - 1]];
    }
  }

  lemma QuotesEnd(s: string, t: string)
    requires EndsWith(s, t)
    ensures Quotes(t) <= Quotes(s)
  {
    assert s == s[..|s| - |t|] + t;
    QuotesJoin(s[..|s| - |t|], t);
  }

  predicate Last(s: string, c: char) {
    s != "" && s[|s| - 1] == c
  }

  /** An equals sign stands at the end of the text and nowhere else. */
  predicate EqualsAtEnd(s: string) {
    Last(s, '=') && forall i :: 0 <= i < |s| - 1 ==> s[i] != '='
  }

  /** A value that is the text between two printed ones. */
  ghost predicate FromBetween(val: string) {
    '"' !in val && ',' !in val && EqualsAtEnd(val)
  }

  predicate NameChar(c: char) {
    c != '"' && c != ',' && c != '=' && c != '\r' && c != '\n'
  }

  /** Unquoting text from a name up to the next opening quote. */
  lemma {:induction false} NameRun(n: string, t: string, literal: bool)
    requires forall i :: 0 <= i < |n| ==> NameChar(n[i])
    ensures var r := Unquote(n + "=\"" + t, literal);
            r.Some? && FromBetween(r.value.0)
    decreases |n|
  {
    var text := n + "=\"" + t;
    if n == "" {
      assert text[1..] == "\"" + t && text[1..][0] == '"';
      assert Unquote(text[1..], false) == Some(("", text[1..][1..]));
      assert Unquote(text, literal) == Prefixed("=", Unquote(text[1..], false));
      assert "=" + "" == "=";
    } else {
      assert text[1..] == n[1..] + "=\"" + t && text[0] == n[0];
      var inner := !literal && n[0] == '\\';
      NameRun(n[1..], t, inner);
      var r := Unquote(text[1..], inner);
      if !inner {
        assert Unquote(text, literal) == Prefixed([n[0]], r);
        BetweenAfter(n[0], r.value.0);
      }
    }
  }

  lemma BetweenAfter(c: char, s: string)
    requires c != '"' && c != ',' && c != '=' && FromBetween(s)
    ensures FromBetween([c] + s)
  {
    var t := [c] + s;
    assert forall i :: 0 < i < |t| ==> t[i] == s[i - 1];
  }

  lemma FollowsRun(rest: string)
    requires Follows(rest)
    ensures var r := Unquote(rest, false);
            r.Some? ==> FromBetween(r.value.0)
  {
    if rest != "" {
      var m, t :| LowerToken(m) && rest == "; " + m + "=\"" + t;
      NameRun("; " + m, t, false);
    }
  }

  ghost predicate Bounded(val: string, z: string, literal: bool) {
    || Quotes(val) <= Quotes(z)
    || (Quotes(val) <= Quotes(z) + 1 && Last(val, '=') && if z == "" then literal else Last(z, '\\'))
  }

  /** Unquoting never makes more quotes, except by running over a closing quote into the next name. */
  lemma {:induction false} UnquoteBound(z: string, rest: string, literal: bool)
    requires Follows(rest)
    ensures var r := Unquote(z + ("\"" + rest), literal); r.Some? ==> Bounded(r.value.0, z, literal)
    decreases |z|
  {
    var text := z + ("\"" + rest);
    var r := Unquote(text, literal);
    if r.Some? {
      if z == "" {
        assert text == "\"" + rest && text[1..] == rest;
        if literal {
          FollowsRun(rest);
          var val := Unquote(rest, false).value.0;
          QuotesJoin("\"", val);
          QuotesZero(val);
          assert Quotes("\"") == 1 by {
            assert "\""[..0] == "";
          }
        }
      } else {
        assert text[0] == z[0] && text[1..] == z[1..] + ("\"" + rest);
        var inner := !literal && z[0] == '\\';
        UnquoteBound(z[1..], rest, inner);
        assert z == [z[0]] + z[1..];
        QuotesJoin([z[0]], z[1..]);
        if literal || z[0] != '"' {
          var t := Unquote(text[1..], inner).value.0;
          BoundedNext(z, t, r.value.0, inner);
        }
      }
    }
  }

  lemma BoundedNext(z: string, t: string, val: string, inner: bool)
    requires z != "" && Bounded(t, z[1..], inner) && (inner ==> z[0] == '\\')
    requires val == if inner then t else [z[0]] + t
    ensures Bounded(val, z, !inner)
  {
    assert z == [z[0]] + z[1..];
    QuotesJoin([z[0]], z[1..]);
    QuotesJoin([z[0]], t);
  }

  lemma {:induction false} TrimBefore(a: string, e: string)
    requires e != "" && !IsSpace(e[0])
    ensures TrimLeft(a + e) == TrimLeft(a) + e
  {
    if a == "" {
      assert a + e == e;
    } else {
      assert (a + e)[0] == a[0] && (a + e)[1..] == a[1..] + e;
      TrimBefore(a[1..], e);
    }
  }

  lemma {:induction false} TokenBefore(a: string, e: string)
    requires e != "" && !IsTokenChar(e[0])
    ensures TokenLength(a + e) == TokenLength(a)
  {
    if a == "" {
      assert a + e == e;
    } else {
      assert (a + e)[0] == a[0] && (a + e)[1..] == a[1..] + e;
      TokenBefore(a[1..], e);
    }
  }

  /** An equals sign stands in the text before its end `z`. */
  predicate EqualsBefore(a: string, z: string) {
    EndsWith(a, z) && exists i :: 0 <= i < |a| - |z| && a[i] == '='
  }

  /** A parameter read from text before a quote has its equals sign in that text. */
  lemma ParamBefore(a: string, e: string) returns (z: string)
    requires e != "" && e[0] == '"' && ParamOf(a + e).Some?
    ensures EqualsBefore(a, z) && ValueOf(z + e).Some? && ParamOf(a + e).value.value == ValueOf(z + e).value.0
  {
    hide ParamOf, TrimLeft, TokenLength, ValueOf, EndsWith, EqualsBefore;
    var n := TokenLength(a);
    var t := TrimLeft(a[n..]);
    NameBefore(a, e);
    EqualsFirst(a + e, t + e);
    assert t != "" ==> (t + e)[0] == t[0] && (t + e)[1..] == t[1..] + e;
    TrimBefore(t[1..], e);
    z := TrimLeft(t[1..]);
    TrimEnds(a[n..]);
    TrimEnds(t[1..]);
    EndsFrom(a, n);
    EqualsStands(a, a[n..], t, z);
  }

  lemma NameBefore(a: string, e: string)
    requires e != "" && e[0] == '"'
    ensures TrimLeft((a + e)[TokenLength(a + e)..]) == TrimLeft(a[TokenLength(a)..]) + e
  {
    hide TrimLeft, TokenLength;
    var n := TokenLength(a);
    TokenBefore(a, e);
    assert (a + e)[n..] == a[n..] + e;
    TrimBefore(a[n..], e);
  }

  lemma EqualsFirst(s: string, t: string)
    requires ParamOf(s).Some? && t == TrimLeft(s[TokenLength(s)..])
    ensures t != "" && t[0] == '=' && ValueOf(TrimLeft(t[1..])).Some? && TrimLeft(t[1..]) != ""
    ensures ParamOf(s).value.value == ValueOf(TrimLeft(t[1..])).value.0
  {
    hide TrimLeft, TokenLength, ValueOf;
  }

  lemma EqualsStands(a: string, b: string, t: string, z: string)
    requires EndsWith(a, b) && EndsWith(b, t) && t != "" && t[0] == '=' && EndsWith(t[1..], z)
    ensures EqualsBefore(a, z)
  {
    EndsTwice(a, b, t);
    EndsFrom(t, 1);
    EndsTwice(t, t[1..], z);
    EndsTwice(a, t, z);
    assert a[|a| - |t|] == t[0];
  }

  predicate TokenText(s: string) {
    forall i :: 0 <= i < |s| ==> IsTokenChar(s[i])
  }

  /** Text with a semicolon, and with an equals sign before its last character. */
  predicate Structured(v: string) {
    ';' in v && exists i :: 0 <= i < |v| - 1 && v[i] == '='
  }

  /** An unquoted value inside a printed one. */
  ghost predicate FromToken(v: string, val: string) {
    TokenText(val) && Structured(v) && forall c :: c in val ==> c in v
  }

  /** A quoted value that begins inside a printed one. */
  ghost predicate FromQuoted(v: string, val: string) {
    '"' in v && (Quotes(val) < Quotes(v) || (Quotes(val) <= Quotes(v) && Last(val, '=') && Last(v, '\\')))
  }

  lemma InnerKinds(v: string, j: nat, rest: string, k: string, val: string)
    requires InnerRead(v, j, rest, k, val) && Follows(rest)
    ensures FromToken(v, val) || FromQuoted(v, val) || FromBetween(val)
  {
    hide TrimLeft, ParamOf, ValueOf, Follows;
    var e := "\"" + rest;
    var s, a := v[j..] + e, v[j + 1..];
    assert s[0..] == s && s[1..] == a + e && s[0] == v[j] == ';';
    TrimBefore(a, e);
    var b := TrimLeft(a);
    TrimEnds(a);
    EndsFrom(v, j + 1);
    EndsTwice(v, a, b);
    assert ParamOf(b + e).Some? && ParamOf(b + e).value.value == val;
    var z := ParamBefore(b, e);
    EqualsInner(v, b, z);
    ValueKinds(v, z, rest, val);
  }

  lemma EqualsInner(v: string, b: string, z: string)
    requires EndsWith(v, b) && EqualsBefore(b, z)
    ensures EqualsBefore(v, z)
  {
    EndsTwice(v, b, z);
    var i :| 0 <= i < |b| - |z| && b[i] == '=';
    assert v[|v| - |b| + i] == b[i];
  }

  lemma ValueKinds(v: string, z: string, rest: string, val: string)
    requires ';' in v && EqualsBefore(v, z) && Follows(rest)
    requires ValueOf(z + ("\"" + rest)).Some? && ValueOf(z + ("\"" + rest)).value.0 == val
    ensures FromToken(v, val) || FromQuoted(v, val) || FromBetween(val)
  {
    var e := "\"" + rest;
    var text := z + e;
    if z == "" {
      assert text == e && text[1..] == rest;
      FollowsRun(rest);
    } else if z[0] == '"' {
      assert text[0] == z[0] && text[1..] == z[1..] + e;
      UnquoteBound(z[1..], rest, false);
      QuotedKind(v, z, val);
    } else {
      assert text[0] == z[0];
      TokenBefore(z, e);
      assert val == z[..TokenLength(z)];
      TokenKind(v, z, val);
    }
  }

  lemma QuotedKind(v: string, z: string, val: string)
    requires EndsWith(v, z) && z != "" && z[0] == '"' && Bounded(val, z[1..], false)
    ensures FromQuoted(v, val)
  {
    assert z == [z[0]] + z[1..];
    QuotesJoin([z[0]], z[1..]);
    assert Quotes("\"") == 1 by {
      assert "\""[..0] == "";
    }
    QuotesEnd(v, z);
    assert v[|v| - |z|] == z[0];
    assert z[1..] != "" && Last(z[1..], '\\') ==> v[|v| - 1] == z[|z| - 1];
  }

  lemma TokenKind(v: string, z: string, val: string)
    requires ';' in v && EqualsBefore(v, z) && z != "" && val == z[..TokenLength(z)]
    ensures FromToken(v, val)
  {
    hide TokenLength;
    forall c | c in val ensures c in v {
      var i :| 0 <= i < |val| && val[i] == c;
      assert v[|v| - |z| + i] == c;
    }
  }

  // ---------------------------------------------------------------- the values of a link that comes back

  /** Every parameter that is not empty is read somewhere in the printed parameters. */
  ghost predicate ComesBack(keys: seq<string>, params: map<string, string>) {
    TokenNames(keys, params) && forall k :: k in keys ==> params[k] == "" || ReadIn(ParamsText(keys, params), k, params[k])
  }

  /** A value that is not plain is read inside some printed value. */
  lemma NotPlainInner(keys: seq<string>, params: map<string, string>, k: string) returns (m: string)
    requires ComesBack(keys, params) && k in keys && !Plain(params[k])
    ensures m in keys && m in params
    ensures var v, val := params[m], params[k]; FromToken(v, val) || FromQuoted(v, val) || FromBetween(val)
  {
    var j, rest;
    m, j, rest := Locate(keys, params, k, params[k]);
    if OwnRead(m, params[m], rest, k, params[k]) {
      OwnName(m, params[m], rest, k, params[k]);
      OwnPlain(m, params[m], rest);
    } else {
      hide InnerRead, Follows, Plain, FromToken, FromQuoted, FromBetween;
      InnerKinds(params[m], j, rest, k, params[k]);
    }
  }

  lemma OwnName(m: string, v: string, rest: string, k: string, val: string)
    requires OwnRead(m, v, rest, k, val)
    ensures k == m
  {
  }

  lemma OwnPlain(m: string, v: string, rest: string)
    requires OwnRead(m, v, rest, m, v)
    ensures Plain(v)
  {
    UnquoteOnlyPlain(v, rest);
  }

  lemma {:induction false} MostQuotes(keys: seq<string>, params: map<string, string>) returns (k: string)
    requires keys != [] && forall k :: k in keys ==> k in params
    ensures k in keys && forall m :: m in keys ==> Quotes(params[m]) <= Quotes(params[k])
  {
    k := keys[0];
    if |keys| > 1 {
      var other := MostQuotes(keys[1..], params);
      if Quotes(params[other]) > Quotes(params[k]) {
        k := other;
      }
      assert forall m :: m in keys ==> m == keys[0] || m in keys[1..];
    }
  }

  lemma QuoteNotPlain(v: string)
    requires '"' in v || '\\' in v
    ensures !Plain(v)
  {
  }

  lemma NoQuoteInside(v: string, val: string)
    requires '"' in val
    ensures !FromToken(v, val) && !FromBetween(val)
  {
    var i :| 0 <= i < |val| && val[i] == '"';
    assert !IsTokenChar(val[i]);
  }

  /** No value has a quote: one with the most quotes would have to be read from one with more. */
  lemma NoQuotes(keys: seq<string>, params: map<string, string>, k: string)
    requires ComesBack(keys, params) && k in keys
    ensures '"' !in params[k]
  {
    var top := MostQuotes(keys, params);
    QuotesZero(params[k]);
    QuotesZero(params[top]);
    if '"' in params[top] {
      QuoteNotPlain(params[top]);
      var m := NotPlainInner(keys, params, top);
      NoQuoteInside(params[m], params[top]);
      assert FromQuoted(params[m], params[top]);
      assert Quotes(params[m]) == Quotes(params[top]) && Last(params[m], '\\');
      QuoteNotPlain(params[m]);
      var n := NotPlainInner(keys, params, m);
      NoQuoteInside(params[n], params[m]);
    }
  }

  /** Without quotes no value ends with a backslash: what it would be read from could not come back itself. */
  lemma NoBackslashEnds(keys: seq<string>, params: map<string, string>, k: string)
    requires ComesBack(keys, params) && k in keys
    ensures !Last(params[k], '\\')
  {
    if Last(params[k], '\\') {
      var v := params[k];
      assert v[|v| - 1] in v;
      QuoteNotPlain(v);
      var m := NotPlainInner(keys, params, k);
      NoQuotes(keys, params, m);
      assert FromToken(params[m], v);
      QuoteNotPlain(params[m]);
      var n := NotPlainInner(keys, params, m);
      NoQuotes(keys, params, n);
      StructuredStays(params[n], params[m]);
    }
  }

  /** Structured text is neither a token nor the text between two printed values. */
  lemma StructuredStays(v: string, val: string)
    requires Structured(val)
    ensures !FromToken(v, val) && !FromBetween(val)
  {
    var i :| 0 <= i < |val| && val[i] == ';';
    assert !IsTokenChar(val[i]);
  }

  // ---------------------------------------------------------------- reading in step with the printing

  /** Quoted text without quotes that does not end with a backslash ends at its own closing quote. */
  lemma {:induction false} ClosesAt(v: string, rest: string, literal: bool)
    requires '"' !in v && !Last(v, '\\') && (v == "" ==> !literal)
    ensures var r := Unquote(v + "\"" + rest, literal); r.Some? ==> r.value.1 == rest
  {
    var text := v + "\"" + rest;
    if v == "" {
      assert text[1..] == rest;
    } else {
      assert v[0] in v && text[0] == v[0] && text[1..] == v[1..] + "\"" + rest;
      ClosesAt(v[1..], rest, !literal && v[0] == '\\');
    }
  }

  lemma NextAtStart(m: string, v: string, rest: string)
    requires LowerToken(m) && '"' !in v && !Last(v, '\\') && NextParam(ParamText(m, v) + rest).Some?
    ensures var p := NextParam(ParamText(m, v) + rest).value;
            OwnRead(m, v, rest, p.name, p.value) && p.rest == rest
  {
    hide TrimLeft, ParamOf, Unquote, ParamText, LowerToken;
    var text, inner := ParamText(m, v) + rest, v + "\"" + rest;
    var quoted := "\"" + inner;
    StartText(m, v, rest);
    StartParam(m, quoted);
    ClosesAt(v, rest, false);
    assert text[0] == ';' && quoted[1..] == inner;
  }

  ghost predicate OwnSomewhere(k: string, v: string, val: string) {
    exists rest :: OwnRead(k, v, rest, k, val)
  }

  ghost predicate Closing(keys: seq<string>, params: map<string, string>) {
    TokenNames(keys, params) && forall k :: k in keys ==> '"' !in params[k] && !Last(params[k], '\\')
  }

  /** Such values are each read where they were printed and nowhere else. */
  lemma {:induction false} InPhase(keys: seq<string>, params: map<string, string>, rel: string, done: map<string, string>, k: string)
    requires Closing(keys, params)
    ensures var r := ParamsOf(ParamsText(keys, params), rel, done);
            r.Success? && k in r.value.params ==>
              (k in done && r.value.params[k] == done[k]) || (k in keys && OwnSomewhere(k, params[k], r.value.params[k]))
    decreases |keys|
  {
    var s := ParamsText(keys, params);
    var r := ParamsOf(s, rel, done);
    if NextParam(s).None? {
      NoNextParam(s, rel, done);
    } else if keys != [] && r.Success? && k in r.value.params {
      var m, rest := keys[0], ParamsText(keys[1..], params);
      assert m in keys && s == ParamText(m, params[m]) + rest;
      NextAtStart(m, params[m], rest);
      var p := NextParam(s).value;
      ParamsTurn(s, TrimLeft(s[1..]), p, rel, done);
      SeparatedTrim(keys[1..], params);
      ClosingRest(keys, params);
      var (rel', done') := WithParam(rel, done, p);
      assert k in done' && done'[k] == r.value.params[k] ==>
               (k in done && r.value.params[k] == done[k]) || (k == p.name && r.value.params[k] == p.value);
      OwnName(m, params[m], rest, p.name, p.value);
      assert OwnSomewhere(m, params[m], p.value);
      hide *;
      InPhase(keys[1..], params, rel', done', k);
      InTailIf(k, keys);
    }
  }

  lemma InTailIf(k: string, keys: seq<string>)
    requires keys != []
    ensures k in keys[1..] ==> k in keys
    ensures keys[0] in keys
  {
  }

  lemma ClosingRest(keys: seq<string>, params: map<string, string>)
    requires keys != [] && Closing(keys, params)
    ensures Closing(keys[1..], params)
  {
    hide LowerToken;
  }

  lemma SeparatedTrim(keys: seq<string>, params: map<string, string>)
    requires TokenNames(keys, params)
    ensures TrimLeft(ParamsText(keys, params)) == ParamsText(keys, params)
  {
    if keys != [] {
      assert ParamsText(keys, params)[0] == ';';
    }
  }

  /** Where printed parameters are parsed to themselves, every value is plain. */
  lemma ValuesPlain(keys: seq<string>, params: map<string, string>, rel: string)
    requires TokenNames(keys, params) && forall k :: k in params ==> k in keys
    requires var r := ParamsOf(ParamsText(keys, params), rel, map[]); r.Success? && r.value.params == params
    ensures forall k :: k in params ==> Plain(params[k])
  {
    hide ParamsOf, ParamsText, ReadIn, Plain, LowerToken, Last;
    var r := ParamsOf(ParamsText(keys, params), rel, map[]);
    forall k | k in keys ensures ReadIn(ParamsText(keys, params), k, params[k]) {
      AllRead(ParamsText(keys, params), rel, map[], k);
    }
    forall k | k in keys ensures '"' !in params[k] && !Last(params[k], '\\') {
      NoQuotes(keys, params, k);
      NoBackslashEnds(keys, params, k);
    }
    forall k | k in params ensures Plain(params[k]) {
      InPhase(keys, params, rel, map[], k);
      var rest :| OwnRead(k, params[k], rest, k, params[k]);
      OwnPlain(k, params[k], rest);
    }
  }
}
