/** Transport connections and the text form in which users exchange them. */
module Connections {
  import opened Wrappers

  datatype Connection = Connection(
    transport: string,
    secret: string,
    addr: string,
    disabled: bool,
    isProtected: bool,
    id: string)

  /** What the identifier is a digest of; the digest itself is taken to be injective. */
  function Id(c: Connection): string {
    "ADDR" + c.addr + "TRANSPORT" + c.transport + "SECRET" + c.secret
  }

  function EnsureId(c: Connection): Connection {
    if c.id == "" then c.(id := Id(c)) else c
  }

  /** A pasted text: absent, undecodable, or the object it carries, whose flags default to false. */
  datatype Encoded = Missing | Unreadable
                   | Payload(transport: string, secret: string, addr: string, disabled: bool, isProtected: bool)

  /** Shared texts carry no flags. */
  function Encode(c: Connection): (e: Encoded)
    ensures Decode(e) == Some(EnsureId(c.(disabled := false, isProtected := false, id := "")))
  {
    Payload(c.transport, c.secret, c.addr, false, false)
  }

  function Decode(e: Encoded): (c: Option<Connection>)
    ensures c.Some? ==> c.value.id == Id(c.value)
  {
    match e
    case Payload(t, s, a, d, p) => Some(EnsureId(Connection(t, s, a, d, p, "")))
    case _ => None
  }

  /** The connection a failed decoding leaves behind. */
  const ZERO: Connection := Connection("", "", "", false, false, "")

  function Enabled(connections: seq<Connection>): (r: seq<Connection>)
    ensures r != [] <==> exists i :: 0 <= i < |connections| && !connections[i].disabled
    ensures forall c :: c in r <==> c in connections && !c.disabled
  {
    if connections == [] then []
    else
      var last := connections[|connections| - 1];
      assert connections == connections[..|connections| - 1] + [last];
      Enabled(connections[..|connections| - 1]) + if last.disabled then [] else [last]
  }

  lemma EnabledNext(connections: seq<Connection>, i: nat)
    requires i < |connections|
    ensures Enabled(connections[..i + 1])
         == Enabled(connections[..i]) + if connections[i].disabled then [] else [connections[i]]
  {
    assert connections[..i + 1][..i] == connections[..i];
  }

  predicate SameFields(a: Connection, b: Connection) {
    a.addr == b.addr && a.transport == b.transport && a.secret == b.secret
  }

  /** The two inner labels stand at `i` and `j` of a joined text, each after the label before it. */
  predicate SplitAt(text: string, i: nat, j: nat) {
    && 4 <= i && i + 9 <= j && j + 6 <= |text|
    && text[i..i + 9] == "TRANSPORT" && text[j..j + 6] == "SECRET"
  }

  /** Where the labels of a connection's own text stand. */
  function FirstSplit(c: Connection): nat {
    4 + |c.addr|
  }

  function SecondSplit(c: Connection): nat {
    FirstSplit(c) + 9 + |c.transport|
  }

  /** A connection's text is split at its own labels, and what lies between them are its fields. */
  lemma OwnSplit(c: Connection)
    ensures var (text, i, j) := (Id(c), FirstSplit(c), SecondSplit(c));
            && SplitAt(text, i, j) && text[..4] == "ADDR"
            && c.addr == text[4..i] && c.transport == text[i + 9..j] && c.secret == text[j + 6..]
  {
    var text, i, j := Id(c), FirstSplit(c), SecondSplit(c);
    assert text[..i] == "ADDR" + c.addr;
    assert text[..j] == "ADDR" + c.addr + "TRANSPORT" + c.transport;
  }

  /** Cutting a joined text at any split gives a connection with that text. */
  lemma CutAt(text: string, i: nat, j: nat) returns (c: Connection)
    requires SplitAt(text, i, j) && text[..4] == "ADDR"
    ensures Id(c) == text && FirstSplit(c) == i && SecondSplit(c) == j
  {
    c := Connection(text[i + 9..j], text[j + 6..], text[4..i], false, false, "");
    assert text == text[..4] + text[4..i] + text[i..i + 9] + text[i + 9..j] + text[j..j + 6] + text[j + 6..];
  }

  ghost predicate OtherSplit(c: Connection, i: nat, j: nat) {
    SplitAt(Id(c), i, j) && (i, j) != (FirstSplit(c), SecondSplit(c))
  }

  /**
   * Another connection shares a connection's identifier exactly when its joined text can be split at
   * the inner labels in another place than its own.
   */
  lemma IdExact(a: Connection)
    ensures (exists b :: Id(b) == Id(a) && !SameFields(a, b)) <==> (exists i: nat, j: nat :: OtherSplit(a, i, j))
  {
    OwnSplit(a);
    if b :| Id(b) == Id(a) && !SameFields(a, b) {
      OwnSplit(b);
      assert OtherSplit(a, FirstSplit(b), SecondSplit(b));
    }
    if i: nat, j: nat :| OtherSplit(a, i, j) {
      var b := CutAt(Id(a), i, j);
      assert Id(b) == Id(a) && !SameFields(a, b);
    }
  }

  /** The identifier of a connection whose text has only its own split is its alone. */
  lemma IdsDiffer(a: Connection, b: Connection)
    requires !exists i: nat, j: nat :: OtherSplit(a, i, j)
    requires Id(a) == Id(b)
    ensures a.addr == b.addr && a.transport == b.transport && a.secret == b.secret
  {
    IdExact(a);
  }

  /** In particular among connections where no address has a `T` and no transport an `S`. */
  lemma PlainIdsDiffer(a: Connection, b: Connection)
    requires 'T' !in a.addr && 'T' !in b.addr && 'S' !in a.transport && 'S' !in b.transport
    requires Id(a) == Id(b)
    ensures SameFields(a, b)
  {
    hide Id;
    OwnSplit(a);
    OwnSplit(b);
    var text := Id(a);
    LabelEnds(text, 4, FirstSplit(a), FirstSplit(b), 'T');
    LabelEnds(text, FirstSplit(a) + 9, SecondSplit(a), SecondSplit(b), 'S');
  }

  /** A label that begins with a character that neither field before it has stands in one place. */
  lemma LabelEnds(text: string, from: nat, i: nat, j: nat, stop: char)
    requires from <= i < |text| && from <= j < |text|
    requires stop !in text[from..i] && stop !in text[from..j] && text[i] == text[j] == stop
    ensures i == j
  {
    assert forall k :: from <= k < i ==> text[k] == text[from..i][k - from];
    assert forall k :: from <= k < j ==> text[k] == text[from..j][k - from];
  }

  /** Two connections that share an identifier. */
  lemma IdsClash() returns (a: Connection, b: Connection)
    ensures Id(a) == Id(b) && a.addr != b.addr && a.transport != b.transport
  {
    a := Connection("x", "", "TRANSPORT", false, false, "");
    b := Connection("TRANSPORTx", "", "", false, false, "");
    assert Id(a) == "ADDRTRANSPORTTRANSPORTxSECRET" == Id(b);
  }
}
