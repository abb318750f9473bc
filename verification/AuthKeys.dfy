/** Keys that authenticate once and only for a while. */
module AuthKeys {
  import opened Wrappers

  type Entries = map<string, nat>

  datatype Event = New(key: string, time: nat) | Authenticate(key: string, time: nat) | Cleanup(time: nat)

  // ---------------------------------------------------------------- the store

  function Cleaned(entries: Entries, ttl: nat, now: nat): Entries {
    map k | k in entries && !(now > entries[k] + ttl) :: entries[k]
  }

  function Answer(entries: Entries, ttl: nat, key: string, now: nat): bool {
    key in entries && now < entries[key] + ttl
  }

  function After(entries: Entries, ttl: nat, e: Event): Entries {
    match e
    case New(key, time) => entries[key := time]
    case Authenticate(key, _) => entries - {key}
    case Cleanup(time) => Cleaned(entries, ttl, time)
  }

  class KeyStore {
    var entries: Entries
    const ttl: nat

    constructor (ttl: nat)
      ensures this.ttl == ttl && entries == map[]
    {
      this.ttl := ttl;
      entries := map[];
    }

    method Authenticate(key: string, now: nat) returns (ok: bool)
      modifies this
      ensures ok == Answer(old(entries), ttl, key, now)
      ensures entries == After(old(entries), ttl, Event.Authenticate(key, now))
    {
      if key in entries {
        var v := entries[key];
        entries := entries - {key};
        return now < v + ttl;
      }
      return false;
    }

    /** `key` is the random key drawn. */
    method New(key: string, now: nat)
      modifies this
      ensures entries == After(old(entries), ttl, Event.New(key, now))
    {
      entries := entries[key := now];
    }

    method Cleanup(now: nat)
      modifies this
      ensures entries == After(old(entries), ttl, Event.Cleanup(now))
    {
      var rest := entries.Keys;
      ghost var was := entries;
      while rest != {}
        invariant rest <= was.Keys && forall k :: k in entries ==> k in was && entries[k] == was[k]
        invariant forall k :: k in was ==> (k in entries <==> k in rest || now <= was[k] + ttl)
        decreases |rest|
      {
        var k :| k in rest;
        rest := rest - {k};
        if now > entries[k] + ttl {
          entries := entries - {k};
        }
      }
    }
  }

  // ---------------------------------------------------------------- runs

  function Run(ttl: nat, events: seq<Event>): Entries {
    if events == [] then map[] else After(Run(ttl, events[..|events| - 1]), ttl, events[|events| - 1])
  }

  /** Time does not go back and is at most `now`. */
  ghost predicate Timed(events: seq<Event>, now: nat) {
    && (forall i :: 0 <= i < |events| ==> events[i].time <= now)
    && (forall i, j :: 0 <= i < j < |events| ==> events[i].time <= events[j].time)
  }

  /** When the key was issued last, unless it has been presented since. Cleaning up plays no part. */
  function Unused(events: seq<Event>, key: string): Option<nat> {
    if events == [] then None
    else
      match events[|events| - 1]
      case New(k, time) => if k == key then Some(time) else Unused(events[..|events| - 1], key)
      case Authenticate(k, _) => if k == key then None else Unused(events[..|events| - 1], key)
      case Cleanup(_) => Unused(events[..|events| - 1], key)
  }

  /** The store holds the unused keys, except that expired ones may be missing. */
  lemma {:induction false} StoreHolds(ttl: nat, events: seq<Event>, key: string, now: nat)
    requires Timed(events, now)
    ensures var entries := Run(ttl, events);
            && (key in entries ==> Unused(events, key) == Some(entries[key]))
            && (key !in entries && Unused(events, key).Some? ==> now > Unused(events, key).value + ttl)
    decreases |events|
  {
    if events != [] {
      var init, e := events[..|events| - 1], events[|events| - 1];
      StoreHolds(ttl, init, key, e.time);
    }
  }

  /** A key is accepted exactly when it was issued less than its lifetime ago and not presented since. */
  lemma AnswerExact(ttl: nat, events: seq<Event>, key: string, now: nat)
    requires Timed(events, now)
    ensures Answer(Run(ttl, events), ttl, key, now)
       <==> Unused(events, key).Some? && now < Unused(events, key).value + ttl
  {
    StoreHolds(ttl, events, key, now);
  }

  /** After a cleanup the store holds exactly the unused keys whose lifetime is not over. */
  lemma CleanupExact(ttl: nat, events: seq<Event>, key: string, now: nat)
    requires Timed(events, now)
    ensures key in Run(ttl, events + [Cleanup(now)])
       <==> Unused(events, key).Some? && now <= Unused(events, key).value + ttl
  {
    StoreHolds(ttl, events, key, now);
    assert (events + [Cleanup(now)])[..|events|] == events;
  }

  function WithoutCleanups(events: seq<Event>): seq<Event> {
    if events == [] then []
    else
      var last := events[|events| - 1];
      WithoutCleanups(events[..|events| - 1]) + if last.Cleanup? then [] else [last]
  }

  lemma {:induction false} UnusedWithout(events: seq<Event>, key: string)
    ensures Unused(events, key) == Unused(WithoutCleanups(events), key)
  {
    if events != [] {
      var init, last := events[..|events| - 1], events[|events| - 1];
      UnusedWithout(init, key);
      var w := WithoutCleanups(init);
      assert (w + [last])[..|w|] == w;
      assert w + [] == w;
    }
  }

  /** Runs that differ only in when the store is cleaned up answer alike. */
  lemma CleanupsInvisible(ttl: nat, a: seq<Event>, b: seq<Event>, key: string, now: nat)
    requires Timed(a, now) && Timed(b, now) && WithoutCleanups(a) == WithoutCleanups(b)
    ensures Answer(Run(ttl, a), ttl, key, now) == Answer(Run(ttl, b), ttl, key, now)
  {
    AnswerExact(ttl, a, key, now);
    AnswerExact(ttl, b, key, now);
    UnusedWithout(a, key);
    UnusedWithout(b, key);
  }

  function Issued(events: seq<Event>, key: string): nat {
    if events == [] then 0
    else
      var last := events[|events| - 1];
      Issued(events[..|events| - 1], key) + if last.New? && last.key == key then 1 else 0
  }

  function Accepted(ttl: nat, events: seq<Event>, key: string): nat {
    if events == [] then 0
    else
      var init, last := events[..|events| - 1], events[|events| - 1];
      Accepted(ttl, init, key)
      + if last.Authenticate? && last.key == key && Answer(Run(ttl, init), ttl, key, last.time) then 1 else 0
  }

  /** A key is accepted at most as often as it is issued, whatever the clock does. */
  lemma {:induction false} AtMostOnce(ttl: nat, events: seq<Event>, key: string)
    ensures Accepted(ttl, events, key) + (if key in Run(ttl, events) then 1 else 0) <= Issued(events, key)
  {
    if events != [] {
      AtMostOnce(ttl, events[..|events| - 1], key);
    }
  }
}
