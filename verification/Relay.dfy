/** What the two request parsers do with every encoded request, however its bytes are cut into reads. */
module Relay {
  import opened Sequences
  import opened Wrappers
  import opened Streams
  import opened Socks

  // ---------------------------------------------------------------- one message

  lemma PortBack(before: seq<byte>, port: nat)
    requires port < 65536
    ensures PortAt(before + PortBytes(port)) == port
  {
  }

  /** An encoded address is read back, unless it is a domain too long for the one-byte index. */
  lemma EncodedBack(front: seq<byte>, a: Address, port: nat)
    requires Proper(a) && port < 65536 && |front| <= 3
    ensures var msg := front + Encoded(a, port); var at := |front|;
            Whole(msg, at) && PortAt(msg) == port &&
            AddressAt(msg, at) == if a.Domain? && at + 2 + |a.name| > 255 then None else Some(a)
  {
    var msg := front + Encoded(a, port);
    if a.Domain? {
      Laid(msg, front, [TYPE_DOMAIN, |a.name| as byte], a.name, PortBytes(port));
      PortBack(front + [TYPE_DOMAIN, |a.name| as byte] + a.name, port);
      LaidDomain(msg, front, a.name, PortBytes(port));
    } else {
      var kind := if a.IPv4? then TYPE_IPV4 else TYPE_IPV6;
      Laid(msg, front, [kind], a.ip, PortBytes(port));
      PortBack(front + [kind] + a.ip, port);
      LaidIP(msg, front, kind, a.ip, PortBytes(port));
    }
  }

  /** Where the parts of a message lie. */
  lemma Laid(msg: seq<byte>, front: seq<byte>, head: seq<byte>, body: seq<byte>, tail: seq<byte>)
    requires msg == front + (head + body + tail)
    ensures msg == front + head + body + tail
  {
  }

  lemma LaidIP(msg: seq<byte>, front: seq<byte>, kind: byte, ip: seq<byte>, tail: seq<byte>)
    requires msg == front + [kind] + ip + tail && |tail| == 2 && |front| <= 3
    requires (kind == TYPE_IPV4 && |ip| == 4) || (kind == TYPE_IPV6 && |ip| == 16)
    ensures Whole(msg, |front|)
    ensures AddressAt(msg, |front|) == Some(if kind == TYPE_IPV4 then IPv4(ip) else IPv6(ip))
  {
    var at := |front|;
    assert msg[at] == kind;
    assert msg[at + 1..at + 1 + |ip|] == ip;
  }

  lemma LaidDomain(msg: seq<byte>, front: seq<byte>, name: seq<byte>, tail: seq<byte>)
    requires |name| < 256
    requires msg == front + [TYPE_DOMAIN, |name| as byte] + name + tail && |tail| == 2 && |front| <= 3
    ensures Whole(msg, |front|)
    ensures AddressAt(msg, |front|) == if |front| + 2 + |name| > 255 then None else Some(Domain(name))
  {
    var at := |front|;
    assert msg[at] == TYPE_DOMAIN && msg[at + 1] == |name| as byte;
    assert msg[at + 2..at + 2 + |name|] == name;
  }

  /** A whole message whose address can be read is an encoding of that address. */
  lemma OnlyEncoded(msg: seq<byte>, at: nat)
    requires Whole(msg, at) && AddressAt(msg, at).Some?
    ensures var a, port := AddressAt(msg, at).value, PortAt(msg);
            Proper(a) && port < 65536 && msg[at..] == Encoded(a, port)
  {
    var a, port := AddressAt(msg, at).value, PortAt(msg);
    var tail := msg[|msg| - 2..];
    assert tail == [(port / 256) as byte, (port % 256) as byte];
    match a
    case IPv4(ip) => assert msg[at..] == [msg[at]] + ip + tail;
    case IPv6(ip) => assert msg[at..] == [msg[at]] + ip + tail;
    case Domain(name) => assert msg[at..] == [msg[at], msg[at + 1]] + name + tail;
  }

  /** Completing a message of which a prefix was read gives the message and leaves the rest. */
  lemma CompletedSplits(head: seq<byte>, unread: seq<seq<byte>>, length: nat)
    requires |head| <= length
    ensures var r := Completed(head, unread, length); var all := head + Flat(unread);
            (r.Some? <==> length <= |all|) &&
            (r.Some? ==> r.value.0 == all[..length] && Flat(r.value.1) == all[length..])
  {
    PulledSplits(unread, length - |head|, length - |head|);
    var r := Completed(head, unread, length);
    if r.Some? {
      var more := r.value.0[|head|..];
      assert r.value.0 == head + more;
      Regroup(head, more, Flat(r.value.1));
    }
  }

  // ---------------------------------------------------------------- the local proxy

  ghost function FirstRead(chunks: seq<seq<byte>>, room: nat, least: nat): nat
    requires least <= room
  {
    var r := Pulled(chunks, room, least);
    if r.Some? then |r.value.0| else 0
  }

  predicate TooLong(a: Address, limit: nat) {
    a.Domain? && |a.name| > limit
  }

  /**
   * For every CONNECT request and every cut of the stream that carries it: extra data is refused
   * when the first read passes the request; otherwise the request is handed on byte for byte and
   * nothing after it is read, except that a domain over 250 bytes panics.
   */
  lemma ClientAccepts(chunks: seq<seq<byte>>, reserved: byte, a: Address, port: nat, more: seq<byte>)
    requires Proper(a) && port < 65536 && Flat(chunks) == ConnectRequest(reserved, a, port) + more
    ensures var r := ClientRequest(chunks);
            if FirstRead(chunks, 263, 5) > |ConnectRequest(reserved, a, port)| then r == Failed(ExtraData)
            else if TooLong(a, 250) then r == Panic
            else r.Done? && r.value == Request(a, port, Encoded(a, port), r.value.unread) && Flat(r.value.unread) == more
  {
    var front, msg := [VERSION, CONNECT, reserved], ConnectRequest(reserved, a, port);
    EncodedBack(front, a, port);
    assert msg == front + Encoded(a, port) && msg[3..] == Encoded(a, port);
    assert msg[0] == front[0] && msg[1] == front[1];
    hide ConnectRequest;
    hide Encoded;
    ClientReads(chunks, msg, more);
    if FirstRead(chunks, 263, 5) <= |msg| {
      var unread :| ClientRequest(chunks) == ClientBody(Some((msg, unread))) && Flat(unread) == more;
      assert TooLong(a, 250) <==> AddressAt(msg, 3).None?;
    }
  }

  lemma HeadOf(head: seq<byte>, rest: seq<byte>, msg: seq<byte>, more: seq<byte>)
    requires head + rest == msg + more
    ensures forall i :: 0 <= i < |head| && i < |msg| ==> head[i] == msg[i]
  {
    forall i | 0 <= i < |head| && i < |msg| ensures head[i] == msg[i] {
      assert head[i] == (head + rest)[i];
      assert msg[i] == (msg + more)[i];
    }
  }

  /** The reading half of the local parser, on a stream that begins with a whole message. */
  lemma ClientReads(chunks: seq<seq<byte>>, msg: seq<byte>, more: seq<byte>)
    requires Whole(msg, 3) && msg[0] == VERSION && msg[1] == CONNECT && Flat(chunks) == msg + more
    ensures var r := ClientRequest(chunks);
            if FirstRead(chunks, 263, 5) > |msg| then r == Failed(ExtraData) else
              exists unread :: r == ClientBody(Some((msg, unread))) && Flat(unread) == more
  {
    hide Pulled, Flat, ClientBody;
    PulledSplits(chunks, 263, 5);
    var (head, unread) := Pulled(chunks, 263, 5).value;
    HeadOf(head, Flat(unread), msg, more);
    if |head| <= |msg| {
      CompletedWhole(head, unread, msg, more);
      var unread' := Completed(head, unread, |msg|).value.1;
      assert ClientRequest(chunks) == ClientBody(Some((msg, unread')));
    }
  }

  lemma CompletedWhole(head: seq<byte>, unread: seq<seq<byte>>, msg: seq<byte>, more: seq<byte>)
    requires |head| <= |msg| && head + Flat(unread) == msg + more
    ensures var r := Completed(head, unread, |msg|); r.Some? && r.value.0 == msg && Flat(r.value.1) == more
  {
    CompletedSplits(head, unread, |msg|);
    assert (msg + more)[..|msg|] == msg && (msg + more)[|msg|..] == more;
  }

  /** The message behind a request that is handed on. */
  lemma ClientMessage(chunks: seq<seq<byte>>) returns (msg: seq<byte>)
    requires ClientRequest(chunks).Done?
    ensures Whole(msg, 3) && msg[0] == VERSION && msg[1] == CONNECT
    ensures ClientRequest(chunks) == ClientBody(Some((msg, ClientRequest(chunks).value.unread)))
    ensures Flat(chunks) == msg + Flat(ClientRequest(chunks).value.unread)
  {
    hide Pulled, Flat, Completed;
    PulledSplits(chunks, 263, 5);
    var (head, unread) := Pulled(chunks, 263, 5).value;
    var length := AddressLength(head[3], head[4]).value;
    var (whole, unread') := Completed(head, unread, 3 + length).value;
    assert forall i :: 0 <= i < 5 ==> whole[i] == whole[..|head|][i];
    msg := whole;
    MessageSplits(head, unread, 3 + length);
  }

  lemma MessageSplits(head: seq<byte>, unread: seq<seq<byte>>, length: nat)
    requires |head| <= length && Completed(head, unread, length).Some?
    ensures var r := Completed(head, unread, length).value; head + Flat(unread) == r.0 + Flat(r.1)
  {
    CompletedSplits(head, unread, length);
    var all := head + Flat(unread);
    assert all == all[..length] + all[length..];
  }

  /** Nothing but a CONNECT request is ever handed on. */
  lemma ClientOnly(chunks: seq<seq<byte>>)
    requires ClientRequest(chunks).Done?
    ensures var q := ClientRequest(chunks).value;
            Proper(q.address) && q.port < 65536 && q.raw == Encoded(q.address, q.port) &&
            exists reserved :: Flat(chunks) == ConnectRequest(reserved, q.address, q.port) + Flat(q.unread)
  {
    hide ClientRequest, Flat;
    var msg := ClientMessage(chunks);
    var q := ClientRequest(chunks).value;
    assert AddressAt(msg, 3) == Some(q.address) && q.port == PortAt(msg) && q.raw == msg[3..];
    OnlyEncoded(msg, 3);
    assert msg == [VERSION, CONNECT, msg[2]] + msg[3..];
    assert Flat(chunks) == ConnectRequest(msg[2], q.address, q.port) + Flat(q.unread);
  }

  // ---------------------------------------------------------------- the remote server

  /**
   * For every encoded address followed by any payload and every cut into reads, the server recovers
   * the address and port, and its extra bytes with what is still unread are the payload; a domain
   * over 253 bytes panics.
   */
  lemma ServerAccepts(chunks: seq<seq<byte>>, a: Address, port: nat, payload: seq<byte>)
    requires Proper(a) && port < 65536 && Flat(chunks) == Encoded(a, port) + payload
    ensures var r := ServerRequest(chunks);
            if TooLong(a, 253) then r == Panic
            else r.Done? && r.value.address == a && r.value.port == port &&
                 r.value.extra + Flat(r.value.unread) == payload
  {
    hide Encoded;
    var msg := Encoded(a, port);
    assert [] + msg == msg;
    EncodedBack([], a, port);
    ServerReads(chunks, msg, payload);
  }

  /** The reading half of the remote parser, on a stream that begins with a whole message. */
  lemma ServerReads(chunks: seq<seq<byte>>, msg: seq<byte>, payload: seq<byte>)
    requires Whole(msg, 0) && Flat(chunks) == msg + payload
    ensures exists unread, extra ::
              ServerRequest(chunks) == ServerBody(Some((msg, unread)), extra) && extra + Flat(unread) == payload
  {
    hide Pulled, Flat, ServerBody;
    PulledSplits(chunks, 260, 2);
    var (head, unread) := Pulled(chunks, 260, 2).value;
    HeadOf(head, Flat(unread), msg, payload);
    if |head| <= |msg| {
      CompletedWhole(head, unread, msg, payload);
      var unread' := Completed(head, unread, |msg|).value.1;
      assert [] + Flat(unread') == payload;
      assert ServerRequest(chunks) == ServerBody(Some((msg, unread')), []);
    } else {
      ServerOverread(head, unread, msg, payload);
      CompletedAlready(msg, unread);
      assert ServerRequest(chunks) == ServerBody(Some((msg, unread)), head[|msg|..]);
    }
  }

  /** A first read that passes the message has it as a prefix; the rest of the read is payload. */
  lemma ServerOverread(head: seq<byte>, unread: seq<seq<byte>>, msg: seq<byte>, payload: seq<byte>)
    requires |head| > |msg| && head + Flat(unread) == msg + payload
    ensures head[..|msg|] == msg && head[|msg|..] + Flat(unread) == payload
  {
    assert head[..|msg|] == (msg + payload)[..|msg|] == msg;
    assert head[|msg|..] + Flat(unread) == (head + Flat(unread))[|msg|..] == (msg + payload)[|msg|..] == payload;
  }

  // ---------------------------------------------------------------- both ends

  /**
   * End to end: for every greeting and request sent in any number of reads with a pause after each
   * (the client waits for an answer), the greeting is accepted, the request that the handshake leaves
   * unread is handed on, and the server, fed those bytes and any payload in any cut, recovers host,
   * port and the whole payload.
   */
  lemma EndToEnd(greeting: seq<seq<byte>>, methods: seq<byte>, request: seq<seq<byte>>, after: seq<seq<byte>>,
                 reserved: byte, a: Address, port: nat, wire: seq<seq<byte>>, payload: seq<byte>)
    requires |methods| < 256 && Flat(greeting) == [VERSION, |methods| as byte] + methods
    requires Proper(a) && port < 65536 && !TooLong(a, 250)
    requires Flat(request) == ConnectRequest(reserved, a, port)
    requires Handed(greeting + (request + after)).Done? ==>
               Flat(wire) == Handed(greeting + (request + after)).value.raw + payload
    ensures var c := Handed(greeting + (request + after)); c.Done? && Flat(c.value.unread) == Flat(after)
    ensures var s := ServerRequest(wire);
            s.Done? && s.value.address == a && s.value.port == port && s.value.extra + Flat(s.value.unread) == payload
  {
    hide Flat, Pulled, ClientRequest, ServerRequest, HandShake;
    var empty := GreetingLeaves(greeting, methods, request + after);
    var left := empty + request;
    assert empty + (request + after) == left + after;
    FlatConcat(empty, request);
    assert [] + Flat(request) == Flat(request);
    FlatConcat(left, after);
    PulledUpTo(left, after, 263, 5);
    ClientAccepts(left + after, reserved, a, port, Flat(after));
    ServerAccepts(wire, a, port, payload);
  }

  /** The local proxy's two parsers in a row: the request is read from what the handshake leaves unread. */
  function Handed(chunks: seq<seq<byte>>): Outcome<Request> {
    match HandShake(chunks)
    case Done(unread) => ClientRequest(unread)
    case Failed(e) => Failed(e)
    case Panic => Panic
  }

  /** A greeting that ends at a read boundary is consumed exactly. */
  lemma GreetingAccepted(greeting: seq<seq<byte>>, methods: seq<byte>, after: seq<seq<byte>>)
    requires |methods| < 256 && Flat(greeting) == [VERSION, |methods| as byte] + methods
    ensures var r := HandShake(greeting + after); r.Done? && Flat(r.value) == Flat(after)
  {
    var empty := GreetingLeaves(greeting, methods, after);
    FlatConcat(empty, after);
    assert [] + Flat(after) == Flat(after);
  }

  /** What it leaves unread are the chunks after it, behind empty ones at most. */
  lemma GreetingLeaves(greeting: seq<seq<byte>>, methods: seq<byte>, after: seq<seq<byte>>) returns (empty: seq<seq<byte>>)
    requires |methods| < 256 && Flat(greeting) == [VERSION, |methods| as byte] + methods
    ensures HandShake(greeting + after) == Done(empty + after) && Flat(empty) == []
  {
    hide Flat, Pulled;
    var msg := Flat(greeting);
    var left := PulledLeaves(greeting, after, 258, 2);
    var (head, unread) := Pulled(greeting + after, 258, 2).value;
    assert head[0] == msg[0] == VERSION && head[1] == msg[1] == |methods| as byte;
    var n := |msg| - |head|;
    empty := PulledLeaves(left, after, n, n);
    var r := Pulled(left + after, n, n);
    assert |r.value.0| == n;
  }

  /** The longest domains RFC 1928 allows are refused by a panic on either side. */
  lemma LongDomains(name: seq<byte>, port: nat)
    requires |name| == 255 && port < 65536
    ensures ClientRequest([ConnectRequest(0, Domain(name), port)]) == Panic
    ensures ServerRequest([Encoded(Domain(name), port)]) == Panic
  {
    var a, request := Domain(name), ConnectRequest(0, Domain(name), port);
    assert Flat([request]) == request + Flat([]) == request + [];
    assert Flat([Encoded(a, port)]) == Encoded(a, port) + Flat([]) == Encoded(a, port) + [];
    assert [request] + [] == [request];
    PulledUpTo([request], [], 263, 5);
    ClientAccepts([request], 0, a, port, []);
    ServerAccepts([Encoded(a, port)], a, port, []);
  }
}
