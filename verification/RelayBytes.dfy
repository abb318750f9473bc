/** What the relay's parsers do with every stream of bytes, in the numbers of RFC 1928. */
module RelayBytes {
  import opened Relay
  import opened Socks
  import opened Streams
  import opened Wrappers

  /** What the first read takes from the stream, and whether it is enough. */
  lemma Headed(chunks: seq<seq<byte>>, room: nat, least: nat)
    requires least <= room
    ensures var r := Pulled(chunks, room, least);
            && (r.Some? <==> |Flat(chunks)| >= least)
            && (r.Some? ==> r.value.0 <= Flat(chunks) && FirstRead(chunks, room, least) == |r.value.0| >= least)
            && (r.Some? ==> Flat(chunks)[|r.value.0|..] == Flat(r.value.1))
  {
    hide Flat, Pulled;
    PulledSplits(chunks, room, least);
  }

  lemma Completion(bytes: seq<byte>, head: seq<byte>, unread: seq<seq<byte>>, length: nat)
    requires bytes == head + Flat(unread) && |head| <= length
    ensures var r := Completed(head, unread, length);
            && (r.Some? <==> |bytes| >= length)
            && (r.Some? ==> r.value.0 == bytes[..length] && Flat(r.value.1) == bytes[length..])
  {
    hide Flat, Completed;
    CompletedSplits(head, unread, length);
  }

  /**
   * The greeting, for every stream: another version than 5 is refused, so is data beyond the methods in
   * the first read; a short stream ends it; otherwise what follows the methods is left.
   */
  lemma GreetingExact(chunks: seq<seq<byte>>)
    ensures var bytes, read, r := Flat(chunks), FirstRead(chunks, 258, 2), HandShake(chunks);
            if |bytes| < 2 then r == Failed(EndOfInput)
            else if bytes[0] != 5 then r == Failed(BadVersion)
            else if read > bytes[1] as nat + 2 then r == Failed(ExtraData)
            else if |bytes| < bytes[1] as nat + 2 then r == Failed(EndOfInput)
            else r.Done? && Flat(r.value) == bytes[bytes[1] as nat + 2..]
  {
    hide Flat, Pulled, Completed, FirstRead;
    var bytes := Flat(chunks);
    Headed(chunks, 258, 2);
    if |bytes| >= 2 {
      var (head, unread) := Pulled(chunks, 258, 2).value;
      assert bytes == head + Flat(unread);
      assert head[0] == bytes[0] && head[1] == bytes[1];
      if |head| <= head[1] as nat + 2 {
        Completion(bytes, head, unread, head[1] as nat + 2);
      }
    }
  }

  /** How long a request is whose address type stands at `at`: IPv4 is 1, a domain 3, IPv6 4. */
  function Length(bytes: seq<byte>, at: nat): (n: nat)
    requires at + 1 < |bytes|
    ensures n >= at + 4
  {
    if bytes[at] == 1 then at + 7 else if bytes[at] == 4 then at + 19 else at + 4 + bytes[at + 1] as nat
  }

  predicate KnownType(b: byte) {
    b == 1 || b == 3 || b == 4
  }

  lemma LengthIs(bytes: seq<byte>, at: nat)
    requires at + 1 < |bytes|
    ensures AddressLength(bytes[at], bytes[at + 1]).Some? <==> KnownType(bytes[at])
    ensures KnownType(bytes[at]) ==> at + AddressLength(bytes[at], bytes[at + 1]).value == Length(bytes, at)
  {
  }

  /** The address of a whole message: its four or sixteen bytes, or as many as the length byte says. */
  predicate Names(a: Address, bytes: seq<byte>, at: nat)
    requires at + 1 < |bytes| && KnownType(bytes[at]) && Length(bytes, at) <= |bytes|
  {
    var body := bytes[if bytes[at] == 3 then at + 2 else at + 1..Length(bytes, at) - 2];
    a == if bytes[at] == 1 then IPv4(body) else if bytes[at] == 4 then IPv6(body) else Domain(body)
  }

  lemma NamesIs(bytes: seq<byte>, at: nat)
    requires at <= 3 && at + 1 < |bytes| && KnownType(bytes[at]) && Length(bytes, at) <= |bytes|
    ensures var msg := bytes[..Length(bytes, at)];
            && Whole(msg, at)
            && (AddressAt(msg, at).None? <==> bytes[at] == 3 && at + 2 + bytes[at + 1] as nat > 255)
            && (AddressAt(msg, at).Some? ==> Names(AddressAt(msg, at).value, bytes, at))
  {
    var n := Length(bytes, at);
    var msg := bytes[..n];
    assert msg[at] == bytes[at] && msg[at + 1] == bytes[at + 1];
    if bytes[at] == 1 {
      assert msg[at + 1..at + 5] == bytes[at + 1..n - 2];
    } else if bytes[at] == 4 {
      assert msg[at + 1..at + 17] == bytes[at + 1..n - 2];
    } else if at + 2 + bytes[at + 1] as nat <= 255 {
      assert msg[at + 2..at + 2 + bytes[at + 1] as nat] == bytes[at + 2..n - 2];
    }
  }

  function Port(bytes: seq<byte>, n: nat): nat
    requires 2 <= n <= |bytes|
  {
    256 * bytes[n - 2] as nat + bytes[n - 1] as nat
  }

  /** What the local proxy makes of a stream. */
  ghost predicate ClientOutcome(bytes: seq<byte>, read: nat, r: Outcome<Request>) {
    if |bytes| < 5 then r == Failed(EndOfInput)
    else if bytes[0] != 5 then r == Failed(BadVersion)
    else if bytes[1] != 1 then r == Failed(BadCommand)
    else if !KnownType(bytes[3]) then r == Failed(BadAddressType)
    else
      var n := Length(bytes, 3);
      if read > n then r == Failed(ExtraData)
      else if |bytes| < n then r == Failed(EndOfInput)
      else if bytes[3] == 3 && bytes[4] > 250 then r == Panic
      else r.Done? && Names(r.value.address, bytes, 3) && r.value.port == Port(bytes, n) && r.value.raw == bytes[3..n]
           && Flat(r.value.unread) == bytes[n..]
  }

  /** The local proxy's request, for every stream and every cut of it. */
  lemma ClientExact(chunks: seq<seq<byte>>)
    ensures ClientOutcome(Flat(chunks), FirstRead(chunks, 263, 5), ClientRequest(chunks))
  {
    hide Flat, Pulled, Completed, FirstRead, AddressLength, AddressAt, Names, Length;
    var bytes := Flat(chunks);
    Headed(chunks, 263, 5);
    if |bytes| >= 5 {
      var (head, unread) := Pulled(chunks, 263, 5).value;
      assert bytes == head + Flat(unread);
      assert forall i :: 0 <= i < 5 ==> head[i] == bytes[i];
      LengthIs(bytes, 3);
      if bytes[0] == 5 && bytes[1] == 1 && KnownType(bytes[3]) && |head| <= Length(bytes, 3) {
        Completion(bytes, head, unread, Length(bytes, 3));
        if |bytes| >= Length(bytes, 3) {
          ClientMeaning(bytes, Completed(head, unread, Length(bytes, 3)));
        }
      }
    }
  }

  lemma ClientMeaning(bytes: seq<byte>, read: Option<(seq<byte>, seq<seq<byte>>)>)
    requires 4 < |bytes| && KnownType(bytes[3]) && 7 <= Length(bytes, 3) <= |bytes|
    requires read.Some? && read.value.0 == bytes[..Length(bytes, 3)]
    ensures Whole(read.value.0, 3)
    ensures var r := ClientBody(read);
            if bytes[3] == 3 && bytes[4] > 250 then r == Panic
            else r.Done? && Names(r.value.address, bytes, 3) && r.value.port == Port(bytes, Length(bytes, 3))
                 && r.value.raw == bytes[3..Length(bytes, 3)] && r.value.unread == read.value.1
  {
    NamesIs(bytes, 3);
    hide AddressLength, AddressAt, Names, Length, Whole;
  }

  /** What the remote server makes of a stream. */
  ghost predicate ServerOutcome(bytes: seq<byte>, r: Outcome<Relayed>) {
    if |bytes| < 2 then r == Failed(EndOfInput)
    else if !KnownType(bytes[0]) then r == Failed(BadAddressType)
    else
      var n := Length(bytes, 0);
      if |bytes| < n then r == Failed(EndOfInput)
      else if bytes[0] == 3 && bytes[1] > 253 then r == Panic
      else r.Done? && Names(r.value.address, bytes, 0) && r.value.port == Port(bytes, n)
           && r.value.extra + Flat(r.value.unread) == bytes[n..]
  }

  /** The remote server's request, for every stream and every cut of it. */
  lemma ServerExact(chunks: seq<seq<byte>>)
    ensures ServerOutcome(Flat(chunks), ServerRequest(chunks))
  {
    hide Flat, Pulled, Completed, FirstRead, AddressLength, AddressAt, Names, Length;
    var bytes := Flat(chunks);
    Headed(chunks, 260, 2);
    if |bytes| >= 2 {
      var (head, unread) := Pulled(chunks, 260, 2).value;
      assert bytes == head + Flat(unread);
      assert head[0] == bytes[0] && head[1] == bytes[1];
      LengthIs(bytes, 0);
      if KnownType(bytes[0]) {
        var n := Length(bytes, 0);
        if |head| <= n {
          Completion(bytes, head, unread, n);
          if |bytes| >= n {
            ServerMeaning(bytes, Completed(head, unread, n), []);
            assert [] + bytes[n..] == bytes[n..];
          }
        } else {
          CompletedAlready(head[..n], unread);
          assert head[..n] == bytes[..n] && head[n..] + Flat(unread) == bytes[n..];
          ServerMeaning(bytes, Some((head[..n], unread)), head[n..]);
        }
      }
    }
  }

  lemma ServerMeaning(bytes: seq<byte>, read: Option<(seq<byte>, seq<seq<byte>>)>, extra: seq<byte>)
    requires 1 < |bytes| && KnownType(bytes[0]) && 4 <= Length(bytes, 0) <= |bytes|
    requires read.Some? && read.value.0 == bytes[..Length(bytes, 0)]
    ensures Whole(read.value.0, 0)
    ensures var r := ServerBody(read, extra);
            if bytes[0] == 3 && bytes[1] > 253 then r == Panic
            else r.Done? && Names(r.value.address, bytes, 0) && r.value.port == Port(bytes, Length(bytes, 0))
                 && r.value.extra == extra && r.value.unread == read.value.1
  {
    NamesIs(bytes, 0);
    hide AddressLength, AddressAt, Names, Length, Whole;
  }
}
