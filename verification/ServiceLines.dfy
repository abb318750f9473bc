/** The start-up lines between a transport process, which prints them, and the client that launched it. */
module ServiceLines {
  import opened Sequences
  import opened Wrappers

  /** A line of at least this many bytes with its newline does not fit the scanner's buffer. */
  const MAX_TOKEN: nat := 65536

  // ---------------------------------------------------------------- printing

  predicate KeywordChar(c: char) {
    'a' <= c <= 'z' || 'A' <= c <= 'Z' || '0' <= c <= '9' || c == '_' || c == '-'
  }

  predicate KeywordIsSafe(keyword: string) {
    keyword != "" && forall i :: 0 <= i < |keyword| ==> KeywordChar(keyword[i])
  }

  predicate ArgIsSafe(arg: string) {
    forall i :: 0 <= i < |arg| ==> arg[i] < '\U{80}' && arg[i] != '\0' && arg[i] != '\n'
  }

  function WithArgs(args: seq<string>): string {
    if args == [] then "" else " " + args[0] + WithArgs(args[1..])
  }

  /** `None` is the panic on forbidden bytes. */
  function Formatted(keyword: string, args: seq<string>): Option<string> {
    if KeywordIsSafe(keyword) && forall i :: 0 <= i < |args| ==> ArgIsSafe(args[i])
    then Some(keyword + WithArgs(args)) else None
  }

  method FormatLine(keyword: string, args: seq<string>) returns (text: Option<string>)
    ensures text == Formatted(keyword, args)
  {
    if !KeywordIsSafe(keyword) {
      return None;
    }
    var buf := keyword;
    for i := 0 to |args|
      invariant buf + WithArgs(args[i..]) == keyword + WithArgs(args)
      invariant forall j :: 0 <= j < i ==> ArgIsSafe(args[j])
    {
      if !ArgIsSafe(args[i]) {
        return None;
      }
      var x := " " + args[i];
      assert args[i..][1..] == args[i + 1..];
      assert buf + (x + WithArgs(args[i + 1..])) == (buf + x) + WithArgs(args[i + 1..]);
      buf := buf + x;
    }
    assert buf + "" == buf;
    text := Some(buf);
  }

  datatype Line =
    | Version(version: string)
    | Parent(name: string, protocol: string, addr: string)
    | Expose(name: string, protocol: string, addr: string)
    | Error(name: string, text: string)
    | Done

  function Keyword(l: Line): string {
    match l
    case Version(_) => "VERSION"
    case Parent(_, _, _) => "PARENT"
    case Expose(_, _, _) => "EXPOSE"
    case Error(_, _) => "ERROR"
    case Done => "DONE"
  }

  function Args(l: Line): seq<string> {
    match l
    case Version(v) => [v]
    case Parent(n, p, a) => [n, p, a]
    case Expose(n, p, a) => [n, p, a]
    case Error(n, t) => [n, t]
    case Done => []
  }

  predicate Safe(l: Line) {
    forall i :: 0 <= i < |Args(l)| ==> ArgIsSafe(Args(l)[i])
  }

  function Text(l: Line): string {
    Keyword(l) + WithArgs(Args(l))
  }

  function Printed(lines: seq<Line>): string {
    if lines == [] then "" else Text(lines[0]) + "\n" + Printed(lines[1..])
  }

  lemma {:induction false} PrintedSnoc(lines: seq<Line>, l: Line)
    ensures Printed(lines + [l]) == Printed(lines) + Text(l) + "\n"
  {
    hide Text;
    if lines == [] {
      assert [l][1..] == [];
      assert [] + [l] == [l];
      Regroup("", Text(l), "\n");
      assert Text(l) + "\n" + "" == Text(l) + "\n";
    } else {
      PrintedSnoc(lines[1..], l);
      assert (lines + [l])[1..] == lines[1..] + [l];
      var head, rest := Text(lines[0]) + "\n", Printed(lines[1..]);
      Regroup(head, rest + Text(l), "\n");
      Regroup(head, rest, Text(l));
    }
  }

  class MethodHandler {
    const name: string
    const version: string
    var stdout: string
    ghost var lines: seq<Line>

    ghost predicate Valid()
      reads this
    {
      stdout == Printed(lines)
    }

    constructor (name: string)
      ensures Valid() && lines == [] && this.name == name && version == "1.0"
    {
      this.name, version := name, "1.0";
      stdout, lines := "", [];
    }

    /** Prints one line, or panics on forbidden bytes and prints nothing. */
    method Print(l: Line) returns (ok: bool)
      requires Valid()
      modifies this
      ensures Valid() && ok == Safe(l) && lines == if ok then old(lines) + [l] else old(lines)
    {
      var text := FormatLine(Keyword(l), Args(l));
      ok := text.Some?;
      if ok {
        PrintedSnoc(lines, l);
        stdout := stdout + text.value + "\n";
        lines := lines + [l];
      }
    }

    /** `problem` is what is wrong with the required `service` option, if anything. */
    method PrintVersion(problem: Option<string>) returns (ok: bool)
      requires Valid()
      modifies this
      ensures Valid()
      ensures ok == (Safe(Version(version)) && (problem.Some? ==> Safe(Error(name, problem.value))))
      ensures ok ==> lines == old(lines) + [Version(version)]
                              + if problem.Some? then [Error(name, problem.value)] else []
    {
      ok := Print(Version(version));
      if ok && problem.Some? {
        ok := PrintError(problem.value);
      }
    }

    method PrintParent(protocol: string, addr: string) returns (ok: bool)
      requires Valid()
      modifies this
      ensures Valid() && ok == Safe(Parent(name, protocol, addr))
      ensures lines == if ok then old(lines) + [Parent(name, protocol, addr)] else old(lines)
    {
      ok := Print(Parent(name, protocol, addr));
    }

    method PrintExpose(protocol: string, addr: string) returns (ok: bool)
      requires Valid()
      modifies this
      ensures Valid() && ok == Safe(Expose(name, protocol, addr))
      ensures lines == if ok then old(lines) + [Expose(name, protocol, addr)] else old(lines)
    {
      ok := Print(Expose(name, protocol, addr));
    }

    method PrintError(text: string) returns (ok: bool)
      requires Valid()
      modifies this
      ensures Valid() && ok == Safe(Error(name, text))
      ensures lines == if ok then old(lines) + [Error(name, text)] else old(lines)
    {
      ok := Print(Error(name, text));
    }

    method PrintDone()
      requires Valid()
      modifies this
      ensures Valid() && lines == old(lines) + [Done]
    {
      var _ := Print(Done);
    }
  }

  // ---------------------------------------------------------------- reading

  /** The scanner drops one carriage return at the end of a line. */
  function DropCR(s: string): string {
    if s != "" && s[|s| - 1] == '\r' then s[..|s| - 1] else s
  }

  /** The next line and what follows it; none at the end and none when the line is too long. */
  function NextLine(text: string): (r: Option<(string, string)>)
    ensures r.Some? ==> |r.value.1| < |text|
  {
    var i := IndexOf(text, '\n');
    if text == "" || i >= MAX_TOKEN then None
    else Some((DropCR(text[..i]), if i < |text| then text[i + 1..] else ""))
  }

  predicate Field(s: string) {
    s != "" && ' ' !in s
  }

  /** The three space-free fields after a keyword and a space. */
  function FieldsOf(keyword: string, line: string): Option<(string, string, string)> {
    if !(keyword + " " <= line) then None else
      var rest := line[|keyword| + 1..];
      var i := IndexOf(rest, ' ');
      if i == |rest| then None else
        var rest' := rest[i + 1..];
        var j := IndexOf(rest', ' ');
        if j == |rest'| then None else
          var (a, b, c) := (rest[..i], rest'[..j], rest'[j + 1..]);
          if Field(a) && Field(b) && Field(c) then Some((a, b, c)) else None
  }

  datatype Event =
    | GotError
    | GotDone
    | GotExpose(name: string, protocol: string, addr: string)
    | GotVersion
    | GotParent(name: string, protocol: string, addr: string)
    | Unhandled

  /** The recognisers in the order in which they are tried. */
  function Recognised(line: string): Event {
    if "ERROR" <= line then GotError
    else if line == "DONE" then GotDone
    else
      match FieldsOf("EXPOSE", line)
      case Some((a, b, c)) => GotExpose(a, b, c)
      case None =>
        if "VERSION " <= line then GotVersion else
          match FieldsOf("PARENT", line)
          case Some((a, b, c)) => GotParent(a, b, c)
          case None => Unhandled
  }

  datatype Method = Method(name: string, protocol: string, bindAddr: string)

  datatype Session = Session(response: map<string, string>, methods: seq<Method>)

  datatype Failure = ErrorLine | UnhandledLine

  function Exposed(s: Session, name: string, protocol: string, addr: string): Session {
    Session(s.response["bindaddr" := addr]["protocol" := protocol], s.methods + [Method(name, protocol, addr)])
  }

  function Parented(s: Session, addr: string): Session {
    s.(response := s.response["parentaddr" := addr])
  }

  /** The start-up loop; the end of the input without DONE is no failure. */
  function Read(text: string, s: Session): Result<Session, Failure>
    decreases |text|
  {
    match NextLine(text)
    case None => Success(s)
    case Some((line, rest)) =>
      match Recognised(line)
      case GotError => Failure(ErrorLine)
      case GotDone => Success(s)
      case GotExpose(n, p, a) => Read(rest, Exposed(s, n, p, a))
      case GotVersion => Read(rest, s)
      case GotParent(_, _, a) => Read(rest, Parented(s, a))
      case Unhandled => Failure(UnhandledLine)
  }

  class Service {
    var response: map<string, string>
    var methods: seq<Method>

    constructor ()
      ensures response == map[] && methods == []
    {
      response, methods := map[], [];
    }

    method InitService(stdout: string) returns (error: Option<Failure>)
      modifies this
      ensures var r := Read(stdout, Session(old(response), old(methods)));
              if r.Failure? then error == Some(r.error)
              else error == None && Session(response, methods) == r.value
    {
      var text := stdout;
      var next := NextLine(text);
      while next.Some?
        invariant next == NextLine(text)
        invariant Read(stdout, Session(old(response), old(methods))) == Read(text, Session(response, methods))
        decreases |text|
      {
        var line := next.value.0;
        text := next.value.1;
        match Recognised(line) {
          case GotError => return Some(ErrorLine);
          case GotDone => return None;
          case GotExpose(n, p, a) =>
            response := response["bindaddr" := a];
            response := response["protocol" := p];
            methods := methods + [Method(n, p, a)];
          case GotVersion =>
          case GotParent(_, _, a) =>
            response := response["parentaddr" := a];
          case Unhandled => return Some(UnhandledLine);
        }
        next := NextLine(text);
      }
      error := None;
    }
  }
}
