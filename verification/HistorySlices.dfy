/**
 * The history of one connection as the slice it is: listeners are handed the manager's own backing array,
 * so a later event can change what they were given.
 */
module HistorySlices {
  import opened Histories

  /** A history handed to listeners: the first `length` places of an array. */
  datatype Slice = Slice(events: array<Event>, length: nat)

  /** What the history handed out with event `i` reads as once the connection has this log. */
  function Seen(log: seq<Event>, i: nat): seq<Event>
    requires i < |log|
  {
    if i < LIMIT then log[..i + 1] else log[..LIMIT] + [log[|log| - 1]]
  }

  /**
   * One more event leaves what was handed out with event `i` as it was exactly when that held at most
   * twenty events, or the new event is equal to the one it overwrites.
   */
  lemma SeenStays(log: seq<Event>, i: nat, e: Event)
    requires i < |log|
    ensures Seen(log + [e], i) == Seen(log, i) <==> i < LIMIT || e == log[|log| - 1]
  {
    var longer := log + [e];
    if i < LIMIT {
      assert longer[..i + 1] == log[..i + 1];
    } else {
      assert longer[..LIMIT] == log[..LIMIT];
      assert Seen(longer, i)[LIMIT] == e && Seen(log, i)[LIMIT] == log[|log| - 1];
    }
  }

  /** When it is handed out, a history is what is kept of the log. */
  lemma SeenKept(log: seq<Event>)
    requires log != []
    ensures Seen(log, |log| - 1) == Kept(log)
  {
  }

  lemma SeenNext(log: seq<Event>, i: nat, e: Event)
    requires i < |log|
    ensures Seen(log + [e], i) == if i < LIMIT then Seen(log, i) else Seen(log, i)[..LIMIT] + [e]
    ensures |Seen(log, i)| == (if i < LIMIT then i + 1 else LIMIT + 1) && |Seen(log, i)| <= |Kept(log)|
  {
    assert i < LIMIT ==> (log + [e])[..i + 1] == log[..i + 1];
    assert i >= LIMIT ==> (log + [e])[..LIMIT] == log[..LIMIT];
  }

  /** The slice reads as these events. */
  ghost predicate Reads(s: Slice, shown: seq<Event>)
    reads s.events
  {
    s.length == |shown| && shown <= s.events[..]
  }

  /** Where the next event is written. */
  function Place(log: seq<Event>): nat {
    if |log| > LIMIT then LIMIT else |log|
  }

  /** Writing the next event into an array shows in just the histories of full length. */
  lemma Written(log: seq<Event>, i: nat, e: Event, before: seq<Event>, after: seq<Event>)
    requires i < |log| && Seen(log, i) <= before && |after| == |before|
    requires forall k :: 0 <= k < |before| && k != Place(log) ==> after[k] == before[k]
    requires i >= LIMIT ==> Place(log) < |after| && after[Place(log)] == e
    ensures Seen(log + [e], i) <= after && |Seen(log + [e], i)| == |Seen(log, i)|
  {
    SeenNext(log, i, e);
  }

  lemma KeptPlace(log: seq<Event>, e: Event)
    ensures |Kept(log)| == (if |log| > LIMIT then LIMIT + 1 else |log|)
    ensures Kept(log + [e]) == Kept(log)[..Place(log)] + [e]
  {
    KeptNext(log, e);
  }

  class History {
    var events: array<Event>
    var length: nat
    /** Every event of the connection, the histories handed out with them, and the arrays behind those. */
    ghost var log: seq<Event>
    ghost var emitted: seq<Slice>
    ghost var arrays: set<array<Event>>

    ghost predicate Valid()
      reads this, arrays
    {
      && events in arrays && length <= events.Length && events[..length] == Kept(log)
      && |emitted| == |log| && forall i :: 0 <= i < |emitted| ==> HandedOut(i)
    }

    /** What event `i` handed out; histories of full length share the array that is in use. */
    ghost predicate HandedOut(i: nat)
      requires i < |emitted| == |log|
      reads this, arrays
    {
      emitted[i].events in arrays && Reads(emitted[i], Seen(log, i)) && (i >= LIMIT ==> emitted[i].events == events)
    }

    constructor ()
      ensures Valid() && log == [] && fresh(arrays)
    {
      events := new Event[0];
      length, log, emitted := 0, [], [];
      new;
      arrays := {events};
    }

    /** Appending in place when there is room, else in a larger copy; `spare` is the runtime's choice. */
    method Extend(event: Event, spare: nat)
      requires length <= events.Length
      modifies this`events, this`length, events
      ensures length == old(length) + 1 <= events.Length
      ensures events[..length] == old(events[..length]) + [event]
      ensures if old(length) < old(events.Length) then events == old(events) else fresh(events)
      ensures forall k :: 0 <= k < old(events.Length) && k != old(length) ==> old(events)[k] == old(events[k])
    {
      if length == events.Length {
        var larger := new Event[length + 1 + spare];
        forall k | 0 <= k < length {
          larger[k] := events[k];
        }
        assert larger[..length] == events[..length];
        events := larger;
      }
      events[length] := event;
      length := length + 1;
    }

    /** The event is appended to the trimmed history, and what that is now is handed out. */
    method Append(event: Event, spare: nat) returns (slice: Slice)
      requires Valid()
      modifies this, arrays
      ensures Valid() && log == old(log) + [event] && emitted == old(emitted) + [slice]
      ensures fresh(arrays - old(arrays)) && Reads(slice, Kept(log))
    {
      hide Kept, Seen;
      KeptPlace(log, event);
      ghost var was, handed := log, emitted;
      if length > LIMIT {
        length := LIMIT;
      }
      Extend(event, spare);
      slice := Slice(events, length);
      log, emitted, arrays := log + [event], emitted + [slice], arrays + {events};
      SeenKept(log);
      forall i | 0 <= i < |handed| ensures HandedOut(i) {
        assert old(HandedOut(i));
        Written(was, i, event, old(handed[i].events[..]), handed[i].events[..]);
      }
      assert forall i :: 0 <= i < |emitted| ==> HandedOut(i);
    }
  }
}
