/** What the client reads from every session the transport prints. */
module ServiceSessions {
  import opened Sequences
  import opened Wrappers
  import opened ServiceLines

  // ---------------------------------------------------------------- one line

  lemma IndexAt(a: string, b: string, c: char)
    requires c !in a
    ensures IndexOf(a + [c] + b, c) == |a| && (a + [c] + b)[..|a|] == a && (a + [c] + b)[|a| + 1..] == b
    ensures IndexOf(a, c) == |a|
  {
    hide IndexOf;
    var s := a + [c] + b;
    assert s[|a|] == c;
    assert forall k :: 0 <= k < |a| ==> s[k] == a[k] && a[k] in a;
  }

  ghost predicate Fields(a: string, b: string, c: string) {
    Field(a) && Field(b) && Field(c)
  }

  function Joined(keyword: string, a: string, b: string, c: string): string {
    keyword + " " + (a + " " + (b + " " + c))
  }

  /** The field recogniser accepts exactly the lines made of the keyword and three fields. */
  lemma FieldsExact(keyword: string, line: string, a: string, b: string, c: string)
    ensures FieldsOf(keyword, line) == Some((a, b, c)) <==> line == Joined(keyword, a, b, c) && Fields(a, b, c)
  {
    if line == Joined(keyword, a, b, c) && Fields(a, b, c) {
      FieldsForward(keyword, a, b, c);
    }
    if FieldsOf(keyword, line) == Some((a, b, c)) {
      FieldsBackward(keyword, line, a, b, c);
    }
  }

  lemma FieldsBackward(keyword: string, line: string, a: string, b: string, c: string)
    requires FieldsOf(keyword, line) == Some((a, b, c))
    ensures line == Joined(keyword, a, b, c) && Fields(a, b, c)
  {
    hide IndexOf;
    var rest := line[|keyword| + 1..];
    var i := IndexOf(rest, ' ');
    var rest' := rest[i + 1..];
    var j := IndexOf(rest', ' ');
    assert rest' == b + " " + c by {
      Split(rest', j);
    }
    assert rest == a + " " + rest' by {
      Split(rest, i);
    }
    assert line == keyword + " " + rest;
  }

  lemma Split(s: string, i: nat)
    requires i < |s|
    ensures s == s[..i] + [s[i]] + s[i + 1..]
  {
  }

  lemma FieldsForward(keyword: string, a: string, b: string, c: string)
    requires Fields(a, b, c)
    ensures FieldsOf(keyword, Joined(keyword, a, b, c)) == Some((a, b, c))
  {
    hide IndexOf;
    var line := Joined(keyword, a, b, c);
    var rest := a + " " + (b + " " + c);
    assert keyword + " " <= line && line[|keyword| + 1..] == rest;
    IndexAt(a, b + " " + c, ' ');
    IndexAt(b, c, ' ');
  }

  lemma ThreeArgs(l: Line)
    requires l.Expose? || l.Parent?
    ensures Text(l) == Joined(Keyword(l), l.name, l.protocol, l.addr)
  {
    hide WithArgs;
    WithThree(l.name, l.protocol, l.addr);
    assert Args(l) == [l.name, l.protocol, l.addr];
    Regroup(Keyword(l), " ", l.name + " " + (l.protocol + " " + l.addr));
  }

  lemma WithOne(a: string)
    ensures WithArgs([a]) == " " + a
  {
    assert [a][1..] == [];
    assert " " + a + "" == " " + a;
  }

  lemma WithMore(a: string, rest: seq<string>)
    ensures WithArgs([a] + rest) == " " + a + WithArgs(rest)
  {
    assert ([a] + rest)[1..] == rest;
  }

  lemma WithThree(a: string, b: string, c: string)
    ensures WithArgs([a, b, c]) == " " + (a + " " + (b + " " + c))
  {
    hide WithArgs;
    WithOne(c);
    WithMore(b, [c]);
    WithMore(a, [b, c]);
    assert [b] + [c] == [b, c] && [a] + [b, c] == [a, b, c];
    assert " " + b + (" " + c) == " " + (b + " " + c);
    assert " " + a + (" " + (b + " " + c)) == " " + (a + " " + (b + " " + c));
  }

  function Got(l: Line): Event
    requires l.Expose? || l.Parent?
  {
    if l.Expose? then GotExpose(l.name, l.protocol, l.addr) else GotParent(l.name, l.protocol, l.addr)
  }

  predicate Clean(l: Line) {
    l.Expose? || l.Parent? ==>
      Field(l.name) && Field(l.protocol) && Field(l.addr) && l.addr[|l.addr| - 1] != '\r'
  }

  lemma ExposeNoError(l: Line)
    requires l.Expose?
    ensures Text(l)[1] == 'X' && !("ERROR" <= DropCR(Text(l))) && DropCR(Text(l)) != "DONE" && !("VERSION " <= DropCR(Text(l)))
  {
    var text := Text(l);
    assert text[0] == 'E' && text[1] == 'X';
    assert |DropCR(text)| >= 5 && DropCR(text)[0] == 'E' && DropCR(text)[1] == 'X';
  }

  lemma ParentNoOther(l: Line)
    requires l.Parent?
    ensures var t := DropCR(Text(l)); !("ERROR" <= t) && t != "DONE" && !("VERSION " <= t) && FieldsOf("EXPOSE", t).None?
  {
    var text := Text(l);
    assert text[0] == 'P';
    assert |DropCR(text)| >= 5 && DropCR(text)[0] == 'P';
  }

  lemma LastChar(keyword: string, a: string, b: string, c: string)
    ensures var s := Joined(keyword, a, b, c); s != "" && s[|s| - 1] == if c == "" then ' ' else c[|c| - 1]
  {
  }

  /**
   * An EXPOSE or PARENT line is recognised as itself exactly when its three arguments are non-empty
   * and free of spaces and its address does not end with a carriage return (which the scanner drops).
   */
  lemma LineExact(l: Line)
    requires l.Expose? || l.Parent?
    ensures Recognised(DropCR(Text(l))) == Got(l) <==> Clean(l)
  {
    hide Recognised, FieldsOf, Text, Joined, DropCR, Keyword;
    var text := Text(l);
    ThreeArgs(l);
    LastChar(Keyword(l), l.name, l.protocol, l.addr);
    FieldsExact(Keyword(l), DropCR(text), l.name, l.protocol, l.addr);
    ByFields(l);
    DropCRExact(text);
  }

  lemma ByFields(l: Line)
    requires l.Expose? || l.Parent?
    ensures var t := DropCR(Text(l));
            Recognised(t) == Got(l) <==> FieldsOf(Keyword(l), t) == Some((l.name, l.protocol, l.addr))
  {
    hide Text, DropCR, FieldsOf;
    if l.Expose? { ExposeNoError(l); } else { ParentNoOther(l); }
  }

  lemma DropCRExact(s: string)
    ensures DropCR(s) == s <==> s == "" || s[|s| - 1] != '\r'
  {
  }

  // ---------------------------------------------------------------- what is printed

  /** The argument's characters are ASCII without NUL and line feed. */
  predicate Plain(arg: string) {
    forall i :: 0 <= i < |arg| ==> 1 <= arg[i] as int <= 127 && arg[i] as int != 10
  }

  /** A line is printed exactly when its arguments are such text, and then as it stands in the protocol. */
  lemma PrintedExact(l: Line)
    ensures Formatted(Keyword(l), Args(l)) == if Safe(l) then Some(Text(l)) else None
    ensures match l
            case Version(v) => Text(l) == "VERSION " + v && (Safe(l) <==> Plain(v))
            case Parent(n, p, a) =>
              Text(l) == "PARENT " + n + " " + p + " " + a && (Safe(l) <==> Plain(n) && Plain(p) && Plain(a))
            case Expose(n, p, a) =>
              Text(l) == "EXPOSE " + n + " " + p + " " + a && (Safe(l) <==> Plain(n) && Plain(p) && Plain(a))
            case Error(n, t) => Text(l) == "ERROR " + n + " " + t && (Safe(l) <==> Plain(n) && Plain(t))
            case Done => Text(l) == "DONE" && Safe(l)
  {
    hide Plain, Text, Safe, Formatted;
    FormattedExact(l);
    match l
    case Version(v) => PrintedVersion(v);
    case Parent(n, p, a) => PrintedThree(l);
    case Expose(n, p, a) => PrintedThree(l);
    case Error(n, t) => PrintedError(n, t);
    case Done => DoneRead(); DoneSafe();
  }

  lemma FormattedExact(l: Line)
    ensures Formatted(Keyword(l), Args(l)) == if Safe(l) then Some(Text(l)) else None
  {
    hide ArgIsSafe, WithArgs, Args;
  }

  lemma DoneSafe()
    ensures Safe(Done)
  {
  }

  lemma PrintedVersion(v: string)
    ensures Text(Version(v)) == "VERSION " + v && (Safe(Version(v)) <==> Plain(v))
  {
    hide ArgIsSafe, Plain, WithArgs;
    WithOne(v);
    PlainExact(v);
    assert Args(Version(v)) == [v] && [v][0] == v;
  }

  lemma PrintedError(n: string, t: string)
    ensures Text(Error(n, t)) == "ERROR " + n + " " + t && (Safe(Error(n, t)) <==> Plain(n) && Plain(t))
  {
    hide ArgIsSafe, Plain, WithArgs;
    PlainExact(n);
    PlainExact(t);
    WithOne(t);
    WithMore(n, [t]);
    assert Args(Error(n, t)) == [n, t] == [n] + [t] && [n, t][0] == n && [n, t][1] == t;
    assert "ERROR" + (" " + n + (" " + t)) == "ERROR " + n + " " + t;
  }

  lemma PrintedThree(l: Line)
    requires l.Parent? || l.Expose?
    ensures Text(l) == (if l.Parent? then "PARENT " else "EXPOSE ") + l.name + " " + l.protocol + " " + l.addr
    ensures Safe(l) <==> Plain(l.name) && Plain(l.protocol) && Plain(l.addr)
  {
    hide Plain, Text, Safe, ArgIsSafe;
    PlainExact(l.name);
    PlainExact(l.protocol);
    PlainExact(l.addr);
    ThreeSafe(l);
    ThreeArgs(l);
    ThreeSpaced(Keyword(l), l.name, l.protocol, l.addr);
  }

  lemma PlainExact(arg: string)
    ensures ArgIsSafe(arg) <==> Plain(arg)
  {
    forall i | 0 <= i < |arg|
      ensures arg[i] < '\U{80}' && arg[i] != '\0' && arg[i] != '\n' <==> 1 <= arg[i] as int <= 127 && arg[i] as int != 10
    {
    }
  }

  lemma ThreeSafe(l: Line)
    requires l.Parent? || l.Expose?
    ensures Safe(l) <==> ArgIsSafe(l.name) && ArgIsSafe(l.protocol) && ArgIsSafe(l.addr)
  {
    hide ArgIsSafe;
    assert Args(l)[0] == l.name && Args(l)[1] == l.protocol && Args(l)[2] == l.addr;
  }

  lemma ThreeSpaced(keyword: string, n: string, p: string, a: string)
    ensures Joined(keyword, n, p, a) == keyword + " " + n + " " + p + " " + a
  {
  }

  // ---------------------------------------------------------------- a whole session

  predicate Fits(l: Line) {
    |Text(l)| < 65536
  }

  lemma {:induction false} NoNewline(args: seq<string>)
    requires forall i :: 0 <= i < |args| ==> ArgIsSafe(args[i])
    ensures '\n' !in WithArgs(args)
  {
    if args != [] {
      NoNewline(args[1..]);
      assert '\n' !in args[0];
    }
  }

  lemma TextNoNewline(l: Line)
    requires Safe(l)
    ensures '\n' !in Text(l)
  {
    hide WithArgs;
    NoNewline(Args(l));
  }

  lemma LineRead(l: Line, after: string)
    requires Safe(l) && Fits(l)
    ensures NextLine(Text(l) + "\n" + after) == Some((DropCR(Text(l)), after))
  {
    hide Text;
    TextNoNewline(l);
    IndexAt(Text(l), after, '\n');
  }

  /** What a printed line does to the session that is being read. */
  function Absorbed(s: Session, l: Line): Session {
    match l
    case Expose(n, p, a) => Exposed(s, n, p, a)
    case Parent(_, _, a) => Parented(s, a)
    case _ => s
  }

  function AllAbsorbed(s: Session, lines: seq<Line>): Session
    decreases |lines|
  {
    if lines == [] then s else AllAbsorbed(Absorbed(s, lines[0]), lines[1..])
  }

  predicate Middle(l: Line) {
    l.Version? || l.Parent? || l.Expose?
  }

  lemma VersionRead(l: Line)
    requires l.Version?
    ensures Recognised(DropCR(Text(l))) == GotVersion
  {
    var text, t := Text(l), DropCR(Text(l));
    assert Args(l)[1..] == [];
    assert WithArgs(Args(l)) == " " + l.version + "";
    assert text == "VERSION " + l.version;
    assert "VERSION " <= t;
    assert t[0] == 'V';
  }

  lemma DoneRead()
    ensures Text(Done) == "DONE" && Recognised(DropCR(Text(Done))) == GotDone
  {
  }

  lemma ErrorRead(l: Line)
    requires l.Error?
    ensures Recognised(DropCR(Text(l))) == GotError
  {
    var t := DropCR(Text(l));
    assert "ERROR" <= Text(l);
    assert WithArgs(Args(l)) != "" && |Text(l)| > 5;
    assert "ERROR" <= t;
  }

  lemma {:induction false} ReadMiddle(lines: seq<Line>, after: string, s: Session)
    requires forall i :: 0 <= i < |lines| ==> Middle(lines[i]) && Safe(lines[i]) && Fits(lines[i]) && Clean(lines[i])
    ensures Read(Printed(lines) + after, s) == Read(after, AllAbsorbed(s, lines))
  {
    if lines == [] {
      assert "" + after == after;
    } else {
      var l := lines[0];
      assert AllAbsorbed(s, lines) == AllAbsorbed(Absorbed(s, l), lines[1..]);
      assert Printed(lines) == Text(l) + "\n" + Printed(lines[1..]);
      hide *;
      Regroup(Text(l) + "\n", Printed(lines[1..]), after);
      ReadTurn(l, Printed(lines[1..]) + after, s);
      ReadMiddle(lines[1..], after, Absorbed(s, l));
    }
  }

  /** One clean line is read as itself. */
  lemma ReadTurn(l: Line, rest: string, s: Session)
    requires Middle(l) && Safe(l) && Fits(l) && Clean(l)
    ensures Read(Text(l) + "\n" + rest, s) == Read(rest, Absorbed(s, l))
  {
    hide Read, Recognised, Text, DropCR, NextLine;
    LineRead(l, rest);
    if l.Version? { VersionRead(l); } else { LineExact(l); }
    ReadStep(Text(l) + "\n" + rest, DropCR(Text(l)), rest, s);
  }

  function Took(e: Event, s: Session): Session {
    match e
    case GotExpose(n, p, a) => Exposed(s, n, p, a)
    case GotParent(_, _, a) => Parented(s, a)
    case _ => s
  }

  /** One turn of the start-up loop. */
  lemma ReadStep(text: string, line: string, rest: string, s: Session)
    requires NextLine(text) == Some((line, rest))
    ensures var e := Recognised(line);
            Read(text, s) == match e
                             case GotError => Failure(ErrorLine)
                             case Unhandled => Failure(UnhandledLine)
                             case GotDone => Success(s)
                             case _ => Read(rest, Took(e, s))
  {
    hide Recognised;
    hide NextLine;
  }

  /** The EXPOSE lines of a session, in order. */
  function Methods(lines: seq<Line>): seq<Method> {
    if lines == [] then []
    else MethodOf(lines[0]) + Methods(lines[1..])
  }

  function MethodOf(l: Line): seq<Method> {
    if l.Expose? then [Method(l.name, l.protocol, l.addr)] else []
  }

  /** The address of the last PARENT line, or the one before the session. */
  function LastParent(lines: seq<Line>, before: Option<string>): Option<string>
    decreases |lines|
  {
    if lines == [] then before
    else LastParent(lines[1..], if lines[0].Parent? then Some(lines[0].addr) else before)
  }

  lemma AbsorbedOne(s: Session, l: Line)
    ensures var r := Absorbed(s, l);
            && r.methods == s.methods + MethodOf(l)
            && Lookup(r.response, "parentaddr") == (if l.Parent? then Some(l.addr) else Lookup(s.response, "parentaddr"))
            && Lookup(r.response, "bindaddr") == (if l.Expose? then Some(l.addr) else Lookup(s.response, "bindaddr"))
            && Lookup(r.response, "protocol") == (if l.Expose? then Some(l.protocol) else Lookup(s.response, "protocol"))
  {
    assert "parentaddr" != "bindaddr" && "parentaddr" != "protocol" && "bindaddr" != "protocol";
    assert s.methods + [] == s.methods;
  }

  lemma {:induction false} AbsorbedExact(s: Session, lines: seq<Line>)
    decreases |lines|
    ensures var r := AllAbsorbed(s, lines);
            && r.methods == s.methods + Methods(lines)
            && Lookup(r.response, "parentaddr") == LastParent(lines, Lookup(s.response, "parentaddr"))
    ensures var r := AllAbsorbed(s, lines);
            if Methods(lines) == [] then
              Lookup(r.response, "bindaddr") == Lookup(s.response, "bindaddr") &&
              Lookup(r.response, "protocol") == Lookup(s.response, "protocol")
            else
              Lookup(r.response, "bindaddr") == Some(Methods(lines)[|Methods(lines)| - 1].bindAddr) &&
              Lookup(r.response, "protocol") == Some(Methods(lines)[|Methods(lines)| - 1].protocol)
  {
    hide Absorbed, Lookup;
    if lines == [] {
      assert s.methods + [] == s.methods;
    } else {
      var more := Methods(lines[1..]);
      AbsorbedOne(s, lines[0]);
      AbsorbedExact(Absorbed(s, lines[0]), lines[1..]);
      Regroup(s.methods, MethodOf(lines[0]), more);
      assert more != [] ==> (MethodOf(lines[0]) + more)[|MethodOf(lines[0]) + more| - 1] == more[|more| - 1];
    }
  }

  /**
   * For every printed session of any mix of VERSION, PARENT and EXPOSE lines with clean arguments and
   * then DONE, the reader succeeds with the EXPOSE lines as methods in order, the last of them as
   * address and protocol and the last PARENT address, whatever is printed after DONE.
   */
  lemma SessionRead(lines: seq<Line>, after: string)
    requires forall i :: 0 <= i < |lines| ==> Middle(lines[i]) && Safe(lines[i]) && Fits(lines[i]) && Clean(lines[i])
    ensures var r := Read(Printed(lines + [Done]) + after, Session(map[], [])); var methods := Methods(lines);
            && r.Success?
            && r.value.methods == methods
            && Lookup(r.value.response, "parentaddr") == LastParent(lines, None)
            && Lookup(r.value.response, "bindaddr")
               == (if methods == [] then None else Some(methods[|methods| - 1].bindAddr))
            && Lookup(r.value.response, "protocol")
               == (if methods == [] then None else Some(methods[|methods| - 1].protocol))
  {
    var s := Session(map[], []);
    assert Lookup(s.response, "parentaddr") == Lookup(s.response, "bindaddr") == Lookup(s.response, "protocol") == None;
    AbsorbedExact(s, lines);
    assert [] + Methods(lines) == Methods(lines);
    hide *;
    PrintedSnoc(lines, Done);
    Regroup(Printed(lines), Text(Done), "\n");
    Regroup(Printed(lines), Text(Done) + "\n", after);
    ReadMiddle(lines, Text(Done) + "\n" + after, s);
    ReadDone(after, AllAbsorbed(s, lines));
  }

  lemma ReadDone(after: string, s: Session)
    ensures Read(Text(Done) + "\n" + after, s) == Success(s)
  {
    DoneRead();
    LineRead(Done, after);
    ReadStep(Text(Done) + "\n" + after, DropCR(Text(Done)), after, s);
    hide *;
  }

  /** A line that is too long ends the start-up as if the session ended before it, without a failure. */
  lemma LongLineEnds(lines: seq<Line>, long: string, after: string, s: Session)
    requires forall i :: 0 <= i < |lines| ==> Middle(lines[i]) && Safe(lines[i]) && Fits(lines[i]) && Clean(lines[i])
    requires '\n' !in long && |long| >= 65536
    ensures Read(Printed(lines) + (long + "\n" + after), s) == Read(Printed(lines), s) == Success(AllAbsorbed(s, lines))
  {
    IndexAt(long, after, '\n');
    assert NextLine(long + "\n" + after) == None;
    assert Read("", AllAbsorbed(s, lines)) == Success(AllAbsorbed(s, lines));
    hide *;
    ReadMiddle(lines, long + "\n" + after, s);
    ReadMiddle(lines, "", s);
    assert Printed(lines) + "" == Printed(lines);
    ReadEnds(long + "\n" + after, AllAbsorbed(s, lines));
  }

  lemma ReadEnds(text: string, s: Session)
    requires NextLine(text) == None
    ensures Read(text, s) == Success(s)
  {
    hide NextLine;
  }

  /** A session that prints ERROR before DONE always fails, whatever its safe arguments are. */
  lemma {:induction false} ErrorFails(lines: seq<Line>, error: Line, after: string, s: Session)
    requires forall i :: 0 <= i < |lines| ==> Middle(lines[i]) && Safe(lines[i]) && Fits(lines[i])
    requires error.Error? && Safe(error) && Fits(error)
    ensures Read(Printed(lines) + (Text(error) + "\n" + after), s).Failure?
  {
    var tail := Text(error) + "\n" + after;
    if lines == [] {
      assert "" + tail == tail;
      LineRead(error, after);
      ErrorRead(error);
      ReadStep(tail, DropCR(Text(error)), after, s);
      hide *;
    } else {
      var l, rest := lines[0], Printed(lines[1..]) + tail;
      LineRead(l, rest);
      Regroup(Text(l) + "\n", Printed(lines[1..]), tail);
      var t := DropCR(Text(l));
      if l.Version? { VersionRead(l); } else if l.Expose? { ExposeNoError(l); } else { ParentNoOther(l); }
      assert Recognised(t) != GotDone;
      hide Recognised;
      ReadStep(Text(l) + "\n" + rest, t, rest, s);
      hide *;
      ErrorFails(lines[1..], error, after, Took(Recognised(t), s));
    }
  }

  /** An address that ends with a carriage return is safe to print but comes back without it. */
  lemma CarriageReturnLost(l: Line, addr: string)
    requires (l.Expose? || l.Parent?) && l.addr == addr + "\r" && Clean(l.(addr := addr))
    ensures Recognised(DropCR(Text(l))) == Got(l.(addr := addr))
  {
    hide Recognised, Text, Joined;
    var short := l.(addr := addr);
    LineExact(short);
    ThreeArgs(l);
    ThreeArgs(short);
    assert Keyword(short) == Keyword(l);
    LastChar(Keyword(l), l.name, l.protocol, addr);
    JoinedSnoc(Keyword(l), l.name, l.protocol, addr, "\r");
    var text := Text(short);
    assert Text(l) == text + "\r" && text[|text| - 1] != '\r';
    assert (text + "\r")[..|text|] == text;
  }

  lemma JoinedSnoc(keyword: string, a: string, b: string, c: string, d: string)
    ensures Joined(keyword, a, b, c + d) == Joined(keyword, a, b, c) + d
  {
    Regroup(b + " ", c, d);
    Regroup(a + " ", b + " " + c, d);
    Regroup(keyword + " ", a + " " + (b + " " + c), d);
  }
}
