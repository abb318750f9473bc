/**
 * The relay's two request parsers. The local proxy reads a SOCKS5 CONNECT request (sections 3 to 5 of
 * RFC 1928) and hands on the bytes from the address type; the remote server reads those bytes.
 */
module Socks {
  import opened Wrappers
  import opened Streams

  const VERSION: byte := 5
  const CONNECT: byte := 1
  const TYPE_IPV4: byte := 1
  const TYPE_DOMAIN: byte := 3
  const TYPE_IPV6: byte := 4

  datatype Address = IPv4(ip: seq<byte>) | IPv6(ip: seq<byte>) | Domain(name: seq<byte>)

  datatype Error = EndOfInput | BadVersion | BadCommand | BadAddressType | ExtraData

  /** `Panic` is a slice whose end lies before its start. */
  datatype Outcome<T> = Done(value: T) | Failed(error: Error) | Panic

  datatype Request = Request(address: Address, port: nat, raw: seq<byte>, unread: seq<seq<byte>>)
  datatype Relayed = Relayed(address: Address, port: nat, extra: seq<byte>, unread: seq<seq<byte>>)

  // ---------------------------------------------------------------- the format

  predicate Proper(a: Address) {
    match a
    case IPv4(ip) => |ip| == 4
    case IPv6(ip) => |ip| == 16
    case Domain(name) => |name| < 256
  }

  function PortBytes(port: nat): seq<byte>
    requires port < 65536
  {
    [(port / 256) as byte, (port % 256) as byte]
  }

  function Encoded(a: Address, port: nat): seq<byte>
    requires Proper(a) && port < 65536
  {
    var tail := PortBytes(port);
    match a
    case IPv4(ip) => [TYPE_IPV4] + ip + tail
    case IPv6(ip) => [TYPE_IPV6] + ip + tail
    case Domain(name) => [TYPE_DOMAIN, |name| as byte] + name + tail
  }

  function ConnectRequest(reserved: byte, a: Address, port: nat): seq<byte>
    requires Proper(a) && port < 65536
  {
    [VERSION, CONNECT, reserved] + Encoded(a, port)
  }

  // ---------------------------------------------------------------- what the parsers compute

  /** The length of an encoded address with its port, from its type and the byte after that. */
  function AddressLength(kind: byte, next: byte): Option<nat> {
    if kind == TYPE_IPV4 then Some(1 + 4 + 2)
    else if kind == TYPE_IPV6 then Some(1 + 16 + 2)
    else if kind == TYPE_DOMAIN then Some(next as nat + 1 + 1 + 2)
    else None
  }

  /** A message that ends with the address and port that begin at `at`. */
  predicate Whole(msg: seq<byte>, at: nat) {
    at + 2 <= |msg| && at <= 3 &&
    var length := AddressLength(msg[at], msg[at + 1]);
    length.Some? && |msg| == at + length.value
  }

  /** The address in a buffer; a domain's end index is computed in one byte and wraps. */
  function AddressAt(buf: seq<byte>, at: nat): Option<Address>
    requires Whole(buf, at)
  {
    if buf[at] == TYPE_IPV4 then Some(IPv4(buf[at + 1..at + 5]))
    else if buf[at] == TYPE_IPV6 then Some(IPv6(buf[at + 1..at + 17]))
    else
      var end := (at + 2 + buf[at + 1] as nat) % 256;
      if end < at + 2 then None else Some(Domain(buf[at + 2..end]))
  }

  function PortAt(buf: seq<byte>): nat
    requires |buf| >= 2
  {
    256 * buf[|buf| - 2] as nat + buf[|buf| - 1] as nat
  }

  /** The rest of a message of `length` bytes of which `head` is already read. */
  function Completed(head: seq<byte>, unread: seq<seq<byte>>, length: nat): (r: Option<(seq<byte>, seq<seq<byte>>)>)
    requires |head| <= length
    ensures r.Some? ==> |r.value.0| == length && r.value.0[..|head|] == head
  {
    With(head, Pulled(unread, length - |head|, length - |head|))
  }

  lemma CompletedAlready(msg: seq<byte>, unread: seq<seq<byte>>)
    ensures Completed(msg, unread, |msg|) == Some((msg, unread))
  {
    assert msg + [] == msg;
  }

  function ClientRequest(chunks: seq<seq<byte>>): Outcome<Request> {
    match Pulled(chunks, 263, 5)
    case None => Failed(EndOfInput)
    case Some((head, unread)) =>
      if head[0] != VERSION then Failed(BadVersion)
      else if head[1] != CONNECT then Failed(BadCommand)
      else
        match AddressLength(head[3], head[4])
        case None => Failed(BadAddressType)
        case Some(length) =>
          if |head| > 3 + length then Failed(ExtraData) else ClientBody(Completed(head, unread, 3 + length))
  }

  function ClientBody(read: Option<(seq<byte>, seq<seq<byte>>)>): Outcome<Request>
    requires read.Some? ==> Whole(read.value.0, 3)
  {
    match read
    case None => Failed(EndOfInput)
    case Some((msg, unread)) =>
      match AddressAt(msg, 3)
      case None => Panic
      case Some(a) => Done(Request(a, PortAt(msg), msg[3..], unread))
  }

  function ServerRequest(chunks: seq<seq<byte>>): Outcome<Relayed> {
    match Pulled(chunks, 260, 2)
    case None => Failed(EndOfInput)
    case Some((head, unread)) =>
      match AddressLength(head[0], head[1])
      case None => Failed(BadAddressType)
      case Some(length) =>
        var extra := if |head| > length then head[length..] else [];
        ServerBody(Completed(if |head| > length then head[..length] else head, unread, length), extra)
  }

  function ServerBody(read: Option<(seq<byte>, seq<seq<byte>>)>, extra: seq<byte>): Outcome<Relayed>
    requires read.Some? ==> Whole(read.value.0, 0)
  {
    match read
    case None => Failed(EndOfInput)
    case Some((msg, unread)) =>
      match AddressAt(msg, 0)
      case None => Panic
      case Some(a) => Done(Relayed(a, PortAt(msg), extra, unread))
  }

  /** The greeting: version, number of methods and that many methods, and nothing more in one read. */
  function HandShake(chunks: seq<seq<byte>>): Outcome<seq<seq<byte>>> {
    match Pulled(chunks, 258, 2)
    case None => Failed(EndOfInput)
    case Some((head, unread)) =>
      if head[0] != VERSION then Failed(BadVersion)
      else
        var length := head[1] as nat + 2;
        if |head| > length then Failed(ExtraData) else
          match Completed(head, unread, length)
          case None => Failed(EndOfInput)
          case Some((_, unread')) => Done(unread')
  }

  // ---------------------------------------------------------------- the code

  /** The first read into an empty buffer. */
  method Start(conn: Conn, buf: array<byte>, least: nat) returns (n: Option<nat>)
    requires least <= buf.Length
    modifies conn, buf
    ensures var r := Pulled(old(conn.pending), buf.Length, least);
            if r.None? then n.None? else
              n == Some(|r.value.0|) && buf[..|r.value.0|] == r.value.0 && conn.pending == r.value.1
  {
    hide Pulled;
    assert buf[..0] == [];
    n := conn.ReadAtLeast(buf, 0, buf.Length, least);
    ghost var r := Pulled(old(conn.pending), buf.Length, least);
    assert r.Some? ==> [] + r.value.0 == r.value.0;
  }

  /** Reads the rest of a message into the buffer after what is already there. */
  method Complete(conn: Conn, buf: array<byte>, n: nat, length: nat) returns (ok: bool)
    requires n <= length <= buf.Length
    modifies conn, buf
    ensures var r := Completed(old(buf[..n]), old(conn.pending), length);
            ok == r.Some? && (ok ==> buf[..length] == r.value.0 && conn.pending == r.value.1)
  {
    hide Pulled;
    var m := conn.ReadAtLeast(buf, n, length, length - n);
    ok := m.Some?;
  }

  method GetRequest(conn: Conn) returns (r: Outcome<Request>)
    modifies conn
    ensures r == ClientRequest(old(conn.pending))
    ensures r.Done? ==> conn.pending == r.value.unread
  {
    hide Pulled;
    var buf := new byte[263];
    var n := Start(conn, buf, 5);
    if n.None? {
      return Failed(EndOfInput);
    }
    ghost var head := buf[..n.value];
    if buf[0] != VERSION {
      return Failed(BadVersion);
    }
    if buf[1] != CONNECT {
      return Failed(BadCommand);
    }
    var length := AddressLength(buf[3], buf[4]);
    if length.None? {
      return Failed(BadAddressType);
    }
    var reqLen := 3 + length.value;
    if n.value > reqLen {
      return Failed(ExtraData);
    }
    var ok := Complete(conn, buf, n.value, reqLen);
    if !ok {
      return Failed(EndOfInput);
    }
    var a := AddressAt(buf[..reqLen], 3);
    if a.None? {
      return Panic;
    }
    r := Done(Request(a.value, PortAt(buf[..reqLen]), buf[..reqLen][3..], conn.pending));
  }

  method GetRelayed(conn: Conn) returns (r: Outcome<Relayed>)
    modifies conn
    ensures r == ServerRequest(old(conn.pending))
    ensures r.Done? ==> conn.pending == r.value.unread
  {
    hide Pulled;
    var buf := new byte[260];
    var n := Start(conn, buf, 2);
    if n.None? {
      return Failed(EndOfInput);
    }
    var length := AddressLength(buf[0], buf[1]);
    if length.None? {
      return Failed(BadAddressType);
    }
    var reqLen := length.value;
    var extra := [];
    if n.value < reqLen {
      var ok := Complete(conn, buf, n.value, reqLen);
      if !ok {
        return Failed(EndOfInput);
      }
    } else {
      CompletedAlready(buf[..reqLen], conn.pending);
      assert buf[..n.value][..reqLen] == buf[..reqLen];
      if n.value > reqLen {
        extra := buf[reqLen..n.value];
      }
    }
    var a := AddressAt(buf[..reqLen], 0);
    if a.None? {
      return Panic;
    }
    r := Done(Relayed(a.value, PortAt(buf[..reqLen]), extra, conn.pending));
  }

  method ShakeHands(conn: Conn) returns (r: Outcome<seq<seq<byte>>>)
    modifies conn
    ensures r == HandShake(old(conn.pending))
    ensures r.Done? ==> conn.pending == r.value
  {
    hide Pulled;
    var buf := new byte[258];
    var n := Start(conn, buf, 2);
    if n.None? {
      return Failed(EndOfInput);
    }
    if buf[0] != VERSION {
      return Failed(BadVersion);
    }
    var msgLen := buf[1] as nat + 2;
    if n.value > msgLen {
      return Failed(ExtraData);
    }
    var ok := Complete(conn, buf, n.value, msgLen);
    if !ok {
      return Failed(EndOfInput);
    }
    r := Done(conn.pending);
  }
}
