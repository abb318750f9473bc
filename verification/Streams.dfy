/** A connection's incoming bytes, cut into reads in any way, and the reading helpers built on them. */
module Streams {
  import opened Sequences
  import opened Wrappers

  newtype byte = x: int | 0 <= x < 256

  function Flat(chunks: seq<seq<byte>>): seq<byte> {
    if chunks == [] then [] else chunks[0] + Flat(chunks[1..])
  }

  function Min(a: nat, b: nat): nat {
    if a < b then a else b
  }

  /** One read of at most `room` bytes: a prefix of the first chunk; the rest of it stays unread. */
  function AfterRead(chunks: seq<seq<byte>>, room: nat): seq<seq<byte>>
    requires chunks != []
  {
    if room < |chunks[0]| then [chunks[0][room..]] + chunks[1..] else chunks[1..]
  }

  /** Reads until at least `least` bytes are there, or `None` when the stream ends first. */
  function Pulled(chunks: seq<seq<byte>>, room: nat, least: nat): (r: Option<(seq<byte>, seq<seq<byte>>)>)
    requires least <= room
    ensures r.Some? ==> least <= |r.value.0| <= room
    decreases least, |chunks|
  {
    if least == 0 then Some(([], chunks))
    else if chunks == [] then None
    else
      var got := chunks[0][..Min(room, |chunks[0]|)];
      With(got, Pulled(AfterRead(chunks, room), room - |got|, Less(least, |got|)))
  }

  function Less(least: nat, got: nat): nat {
    if got < least then least - got else 0
  }

  function With(got: seq<byte>, r: Option<(seq<byte>, seq<seq<byte>>)>): Option<(seq<byte>, seq<seq<byte>>)> {
    if r.Some? then Some((got + r.value.0, r.value.1)) else None
  }

  lemma WithTwice(a: seq<byte>, b: seq<byte>, r: Option<(seq<byte>, seq<seq<byte>>)>)
    ensures With(a, With(b, r)) == With(a + b, r) && With([], r) == r
  {
    if r.Some? {
      Regroup(a, b, r.value.0);
      assert [] + r.value.0 == r.value.0;
    }
  }

  lemma ReadSplits(chunks: seq<seq<byte>>, room: nat)
    requires chunks != []
    ensures Flat(chunks) == chunks[0][..Min(room, |chunks[0]|)] + Flat(AfterRead(chunks, room))
  {
    var got := chunks[0][..Min(room, |chunks[0]|)];
    if room < |chunks[0]| {
      assert AfterRead(chunks, room)[1..] == chunks[1..];
      assert chunks[0] == got + chunks[0][room..];
      Regroup(got, chunks[0][room..], Flat(chunks[1..]));
    } else {
      assert got == chunks[0];
    }
  }

  lemma {:induction false} PulledSplits(chunks: seq<seq<byte>>, room: nat, least: nat)
    requires least <= room
    ensures var r := Pulled(chunks, room, least);
            (r.Some? <==> least <= |Flat(chunks)|) && (r.Some? ==> Flat(chunks) == r.value.0 + Flat(r.value.1))
    decreases least, |chunks|
  {
    if least > 0 && chunks != [] {
      var got := chunks[0][..Min(room, |chunks[0]|)];
      var after := AfterRead(chunks, room);
      ReadSplits(chunks, room);
      hide Flat;
      PulledSplits(after, room - |got|, Less(least, |got|));
      var r := Pulled(after, room - |got|, Less(least, |got|));
      if r.Some? {
        Regroup(got, r.value.0, Flat(r.value.1));
      }
    }
  }

  /** Reads that stop at a chunk boundary which is at least `least` bytes in never pass it. */
  lemma {:induction false} PulledStops(front: seq<seq<byte>>, back: seq<seq<byte>>, room: nat, least: nat)
    requires least <= room && least <= |Flat(front)|
    ensures var r := Pulled(front + back, room, least); r.Some? && |r.value.0| <= |Flat(front)|
    decreases least, |front|
  {
    var whole := front + back;
    if least > 0 {
      assert whole[0] == front[0] && whole[1..] == front[1..] + back;
      var got := front[0][..Min(room, |front[0]|)];
      if room >= |front[0]| {
        assert got == front[0];
        PulledStops(front[1..], back, room - |got|, Less(least, |got|));
      }
    }
  }

  /** Such reads leave the unread part of the front, still cut where it was, before the rest. */
  lemma {:induction false} PulledLeaves(front: seq<seq<byte>>, back: seq<seq<byte>>, room: nat, least: nat)
    returns (left: seq<seq<byte>>)
    requires least <= room && least <= |Flat(front)|
    ensures var r := Pulled(front + back, room, least);
            r.Some? && r.value.1 == left + back && Flat(front) == r.value.0 + Flat(left)
    decreases least, |front|
  {
    var whole := front + back;
    if least == 0 {
      left := front;
      assert [] + Flat(front) == Flat(front);
    } else {
      assert whole[0] == front[0] && whole[1..] == front[1..] + back;
      var got := front[0][..Min(room, |front[0]|)];
      var after := AfterRead(front, room);
      assert AfterRead(whole, room) == after + back;
      ReadSplits(front, room);
      PulledTurn(whole, room, least, got, after + back);
      hide Flat, Pulled;
      left := PulledLeaves(after, back, room - |got|, Less(least, |got|));
      var r := Pulled(after + back, room - |got|, Less(least, |got|));
      Regroup(got, r.value.0, Flat(left));
    }
  }

  lemma PulledUpTo(front: seq<seq<byte>>, back: seq<seq<byte>>, room: nat, least: nat)
    requires least <= room && least <= |Flat(front)|
    ensures var r := Pulled(front + back, room, least);
            r.Some? && |r.value.0| <= |Flat(front)| && Flat(front) + Flat(back) == r.value.0 + Flat(r.value.1)
  {
    PulledStops(front, back, room, least);
    PulledSplits(front + back, room, least);
    FlatConcat(front, back);
  }

  lemma {:induction false} FlatConcat(a: seq<seq<byte>>, b: seq<seq<byte>>)
    ensures Flat(a + b) == Flat(a) + Flat(b)
  {
    if a == [] {
      assert a + b == b;
    } else {
      FlatConcat(a[1..], b);
      assert (a + b)[1..] == a[1..] + b;
      Regroup(a[0], Flat(a[1..]), Flat(b));
    }
  }

  class Conn {
    var pending: seq<seq<byte>>

    constructor (chunks: seq<seq<byte>>)
      ensures pending == chunks
    {
      pending := chunks;
    }

    /** One read into `buf[lo..hi]`. */
    method Read(buf: array<byte>, lo: nat, hi: nat) returns (m: nat)
      requires lo <= hi <= buf.Length && pending != []
      modifies this, buf
      ensures m == Min(hi - lo, |old(pending)[0]|) && pending == AfterRead(old(pending), hi - lo)
      ensures buf[..lo + m] == old(buf[..lo]) + old(pending)[0][..m]
    {
      m := Min(hi - lo, |pending[0]|);
      var got := pending[0][..m];
      forall i | 0 <= i < m {
        buf[lo + i] := got[i];
      }
      assert buf[..lo + m] == old(buf[..lo]) + got;
      pending := AfterRead(pending, hi - lo);
    }

    /** Fills the buffer from `lo`, never past `hi`; `None` is end of input before `least` bytes. */
    method ReadAtLeast(buf: array<byte>, lo: nat, hi: nat, least: nat) returns (n: Option<nat>)
      requires lo <= hi <= buf.Length && least <= hi - lo
      modifies this, buf
      ensures var r := Pulled(old(pending), hi - lo, least);
              if r.None? then n.None? else
                n == Some(|r.value.0|) && buf[..lo + |r.value.0|] == old(buf[..lo]) + r.value.0 && pending == r.value.1
    {
      hide Pulled, With, Reading, Less;
      var k := lo;
      ghost var start, before, read := pending, buf[..lo], [];
      ReadingStarts(start, hi - lo, least);
      assert before + [] == before;
      while k < lo + least
        invariant lo <= k <= hi && buf[..k] == before + read && |read| == k - lo
        invariant Reading(start, hi - lo, least, read, pending)
        decreases lo + least - k, |pending|
      {
        if pending == [] {
          ReadingFails(start, hi - lo, least, read);
          return None;
        }
        ghost var got := pending[0][..Min(hi - k, |pending[0]|)];
        ReadingNext(start, hi - lo, least, read, pending, got);
        Regroup(before, read, got);
        var m := Read(buf, k, hi);
        read := read + got;
        k := k + m;
      }
      ReadingEnds(start, hi - lo, least, read, pending);
      n := Some(k - lo);
    }
  }

  /** What has been read so far and what is pending come to the same in the end. */
  ghost predicate Reading(start: seq<seq<byte>>, room: nat, least: nat, read: seq<byte>, pending: seq<seq<byte>>)
    requires least <= room
  {
    && |read| <= room && Less(least, |read|) <= room - |read|
    && Pulled(start, room, least) == With(read, Pulled(pending, room - |read|, Less(least, |read|)))
  }

  lemma ReadingStarts(start: seq<seq<byte>>, room: nat, least: nat)
    requires least <= room
    ensures Reading(start, room, least, [], start)
  {
    hide Pulled, With;
    WithTwice([], [], Pulled(start, room, least));
  }

  lemma ReadingNext(start: seq<seq<byte>>, room: nat, least: nat, read: seq<byte>, pending: seq<seq<byte>>, got: seq<byte>)
    requires least <= room && Reading(start, room, least, read, pending) && |read| < least && pending != []
    requires got == pending[0][..Min(room - |read|, |pending[0]|)]
    ensures Reading(start, room, least, read + got, AfterRead(pending, room - |read|))
  {
    hide Pulled, With;
    PulledMore(pending, room - |read|, Less(least, |read|), read, got, AfterRead(pending, room - |read|));
  }

  lemma ReadingFails(start: seq<seq<byte>>, room: nat, least: nat, read: seq<byte>)
    requires least <= room && Reading(start, room, least, read, []) && |read| < least
    ensures Pulled(start, room, least).None?
  {
    hide Pulled, With;
    PulledEnds(room - |read|, Less(least, |read|));
    WithEnds(read, []);
  }

  lemma ReadingEnds(start: seq<seq<byte>>, room: nat, least: nat, read: seq<byte>, pending: seq<seq<byte>>)
    requires least <= room && Reading(start, room, least, read, pending) && |read| >= least
    ensures Pulled(start, room, least) == Some((read, pending))
  {
    hide Pulled, With;
    PulledDone(pending, room - |read|);
    WithEnds(read, pending);
  }

  lemma PulledEnds(room: nat, least: nat)
    requires 0 < least <= room
    ensures Pulled([], room, least).None?
  {
  }

  lemma PulledDone(chunks: seq<seq<byte>>, room: nat)
    ensures Pulled(chunks, room, 0) == Some(([], chunks))
  {
  }

  lemma WithEnds(read: seq<byte>, rest: seq<seq<byte>>)
    ensures With(read, None) == None && With(read, Some(([], rest))) == Some((read, rest))
  {
    assert read + [] == read;
  }

  lemma PulledMore(chunks: seq<seq<byte>>, room: nat, least: nat, read: seq<byte>, got: seq<byte>, after: seq<seq<byte>>)
    requires 0 < least <= room && chunks != []
    requires got == chunks[0][..Min(room, |chunks[0]|)] && after == AfterRead(chunks, room)
    ensures With(read, Pulled(chunks, room, least)) == With(read + got, Pulled(after, room - |got|, Less(least, |got|)))
  {
    hide Pulled, With;
    PulledTurn(chunks, room, least, got, after);
    WithTwice(read, got, Pulled(after, room - |got|, Less(least, |got|)));
  }

  lemma PulledTurn(chunks: seq<seq<byte>>, room: nat, least: nat, got: seq<byte>, after: seq<seq<byte>>)
    requires 0 < least <= room && chunks != []
    requires got == chunks[0][..Min(room, |chunks[0]|)] && after == AfterRead(chunks, room)
    ensures Pulled(chunks, room, least) == With(got, Pulled(after, room - |got|, Less(least, |got|)))
  {
  }
}
