/** The rotation list of connections: a Fisher-Yates shuffle of the enabled ones and a wrapping index. */
module Rotation {
  import opened Connections
  import opened Sequences
  import opened Wrappers

  // ---------------------------------------------------------------- the shuffle

  /** One random choice for each position, among it and the positions after it. */
  ghost predicate IsChoice(choices: seq<nat>, n: nat)
    decreases n
  {
    |choices| == n && (n > 0 ==> choices[0] < n && IsChoice(choices[1..], n - 1))
  }

  function Swapped<T>(s: seq<T>, i: nat, j: nat): (r: seq<T>)
    requires i < |s| && j < |s|
  {
    s[i := s[j]][j := s[i]]
  }

  /** The order the choices pick: the chosen element first, then an order of the rest. */
  ghost function Shuffled<T>(s: seq<T>, choices: seq<nat>): (r: seq<T>)
    requires IsChoice(choices, |s|)
    ensures |r| == |s|
    decreases |s|
  {
    if s == [] then []
    else [s[choices[0]]] + Shuffled(Swapped(s, 0, choices[0])[1..], choices[1..])
  }

  lemma SwapSame<T>(s: seq<T>, i: nat, j: nat)
    requires i < |s| && j < |s|
    ensures multiset(Swapped(s, i, j)) == multiset(s)
  {
  }

  lemma HeadAndTail<T>(s: seq<T>)
    requires s != []
    ensures multiset(s) == multiset([s[0]]) + multiset(s[1..])
  {
    assert s == [s[0]] + s[1..];
  }

  /** Every choice gives a permutation. */
  lemma {:induction false} Permutes<T>(s: seq<T>, choices: seq<nat>)
    requires IsChoice(choices, |s|)
    ensures multiset(Shuffled(s, choices)) == multiset(s)
    decreases |s|
  {
    if s != [] {
      var t := Swapped(s, 0, choices[0]);
      Permutes(t[1..], choices[1..]);
      SwapSame(s, 0, choices[0]);
      HeadAndTail(t);
    }
  }

  /** Every permutation is given by a choice. */
  lemma {:induction false} Reaches<T>(s: seq<T>, target: seq<T>) returns (choices: seq<nat>)
    requires multiset(s) == multiset(target)
    ensures IsChoice(choices, |s|) && Shuffled(s, choices) == target
    decreases |s|
  {
    assert |multiset(s)| == |s| && |multiset(target)| == |target|;
    if s == [] {
      choices := [];
    } else {
      assert target[0] in multiset(s);
      var c: nat :| c < |s| && s[c] == target[0];
      RestMatches(s, target, c);
      var rest := Reaches(Swapped(s, 0, c)[1..], target[1..]);
      choices := [c] + rest;
      ShuffledHead(s, c, rest);
      hide Shuffled;
      hide IsChoice;
      hide Swapped;
      assert target == [target[0]] + target[1..];
    }
  }

  lemma ShuffledHead<T>(s: seq<T>, c: nat, rest: seq<nat>)
    requires c < |s| && IsChoice(rest, |s| - 1)
    ensures IsChoice([c] + rest, |s|)
    ensures Shuffled(s, [c] + rest) == [s[c]] + Shuffled(Swapped(s, 0, c)[1..], rest)
  {
    assert ([c] + rest)[1..] == rest;
  }

  lemma RestMatches<T>(s: seq<T>, target: seq<T>, c: nat)
    requires target != [] && multiset(s) == multiset(target) && c < |s| && s[c] == target[0]
    ensures multiset(Swapped(s, 0, c)[1..]) == multiset(target[1..])
  {
    var t := Swapped(s, 0, c);
    assert t[0] == target[0];
    SwapSame(s, 0, c);
    HeadAndTail(t);
    HeadAndTail(target);
    hide Swapped;
    Cancel(multiset([t[0]]), multiset(t[1..]), multiset(target[1..]));
  }

  lemma Cancel<T>(x: multiset<T>, a: multiset<T>, b: multiset<T>)
    requires x + a == x + b
    ensures a == b
  {
    assert a == (x + a) - x && b == (x + b) - x;
  }

  /**
   * Of different elements, different choices give different orders. With `Reaches`, choices and orders
   * correspond one to one, so that uniform choices make a uniform order.
   */
  lemma {:induction false} OneChoiceEach<T>(s: seq<T>, a: seq<nat>, b: seq<nat>)
    requires Distinct(s) && IsChoice(a, |s|) && IsChoice(b, |s|) && Shuffled(s, a) == Shuffled(s, b)
    ensures a == b
    decreases |s|
  {
    if s != [] {
      assert Shuffled(s, a)[0] == s[a[0]] && Shuffled(s, b)[0] == s[b[0]];
      assert a[0] == b[0];
      var t := Swapped(s, 0, a[0]);
      assert Distinct(t[1..]);
      assert Shuffled(s, a)[1..] == Shuffled(t[1..], a[1..]);
      assert Shuffled(s, b)[1..] == Shuffled(t[1..], b[1..]);
      OneChoiceEach(t[1..], a[1..], b[1..]);
      assert a == [a[0]] + a[1..] && b == [b[0]] + b[1..];
    }
  }

  /** `choices[i]` stands for the number drawn below `a.Length - i`. */
  method ShuffleConnections<T>(a: array<T>, choices: seq<nat>)
    requires IsChoice(choices, a.Length)
    modifies a
    ensures a[..] == Shuffled(old(a[..]), choices)
  {
    hide ShuffledUpTo, Shuffled, IsChoice;
    var n := a.Length;
    ghost var whole := Shuffled(a[..], choices);
    ShuffleStarts(a[..], choices);
    for i := 0 to n
      invariant ShuffledUpTo(a[..], choices, i, whole)
    {
      ShuffleTurn(a[..], choices, i, whole);
      ghost var before := a[..];
      var r := i + choices[i];
      a[r], a[i] := a[i], a[r];
      assert a[..] == before[i := before[r]][r := before[i]];
    }
    ShuffleEnds(a[..], choices, whole);
  }

  lemma ShuffleStarts<T>(s: seq<T>, choices: seq<nat>)
    requires IsChoice(choices, |s|)
    ensures ShuffledUpTo(s, choices, 0, Shuffled(s, choices))
  {
    hide Shuffled;
    assert choices[0..] == choices && s[0..] == s;
    assert s[..0] + Shuffled(s, choices) == Shuffled(s, choices);
  }

  lemma ShuffleEnds<T>(s: seq<T>, choices: seq<nat>, whole: seq<T>)
    requires ShuffledUpTo(s, choices, |s|, whole)
    ensures s == whole
  {
  }

  /** The first `i` places are final and shuffling the rest by the remaining choices gives `whole`. */
  ghost predicate ShuffledUpTo<T>(now: seq<T>, choices: seq<nat>, i: nat, whole: seq<T>) {
    && i <= |now| == |choices|
    && IsChoice(choices[i..], |now| - i)
    && now[..i] + Shuffled(now[i..], choices[i..]) == whole
  }

  lemma ShuffleTurn<T>(now: seq<T>, choices: seq<nat>, i: nat, whole: seq<T>)
    requires i < |now| && ShuffledUpTo(now, choices, i, whole)
    ensures |now| == |choices| && choices[i] < |now| - i
    ensures var r := i + choices[i]; ShuffledUpTo(now[i := now[r]][r := now[i]], choices, i + 1, whole)
  {
    hide Shuffled;
    var rest, tail := choices[i + 1..], now[i..];
    assert choices[i..] == [choices[i]] + rest && choices[i..][1..] == rest;
    var c := choices[i];
    var after := now[i := now[i + c]][i + c := now[i]];
    ShuffledHead(tail, c, rest);
    assert after[i + 1..] == Swapped(tail, 0, c)[1..];
    assert after[..i + 1] == now[..i] + [tail[c]];
    Regroup(now[..i], [tail[c]], Shuffled(after[i + 1..], rest));
  }

  // ---------------------------------------------------------------- the list and its index

  function NextIndex(i: nat, n: nat): (next: nat)
    requires n > 0
    ensures next < n
  {
    (i + 1) % n
  }

  lemma NextIndexWithin(i: nat, n: nat)
    requires i < n
    ensures NextIndex(i, n) == if i + 1 < n then i + 1 else 0
  {
  }

  /** The connections tried by `count` reconnects in a row from `index` in an unchanged list. */
  function Tried<T>(list: seq<T>, index: nat, count: nat): seq<T>
    requires list != []
    decreases count
  {
    if count == 0 then []
    else
      var i := NextIndex(index, |list|);
      [list[i]] + Tried(list, i, count - 1)
  }

  lemma TriedNext<T>(list: seq<T>, i: nat, count: nat)
    requires list != [] && count > 0
    ensures var next := NextIndex(i, |list|);
            Tried(list, i, count) == [list[next]] + Tried(list, next, count - 1)
  {
    hide NextIndex;
  }

  lemma {:induction false} TriedAhead<T>(list: seq<T>, i: nat, count: nat)
    requires i + 1 + count <= |list|
    ensures Tried(list, i, count) == list[i + 1..i + 1 + count]
    decreases count
  {
    if count > 0 {
      TriedNext(list, i, count);
      NextIndexWithin(i, |list|);
      hide Tried, NextIndex;
      TriedAhead(list, i + 1, count - 1);
    }
  }

  lemma {:induction false} TriedAround<T>(list: seq<T>, i: nat, count: nat)
    requires i < |list| < i + 1 + count && count <= |list|
    ensures Tried(list, i, count) == list[i + 1..] + list[..i + 1 + count - |list|]
    decreases count
  {
    hide *;
    TriedNext(list, i, count);
    NextIndexWithin(i, |list|);
    if i + 1 < |list| {
      TriedAround(list, i + 1, count - 1);
      HeadOf(list, i + 1);
      Regroup([list[i + 1]], list[i + 2..], list[..i + 1 + count - |list|]);
    } else {
      TriedAhead(list, 0, count - 1);
      FirstOf(list, count);
    }
  }

  lemma HeadOf<T>(list: seq<T>, i: nat)
    requires i < |list|
    ensures list[i..] == [list[i]] + list[i + 1..]
  {
  }

  lemma FirstOf<T>(list: seq<T>, count: nat)
    requires 0 < count <= |list|
    ensures [list[0]] + list[1..count] == list[|list|..] + list[..count]
  {
  }

  /**
   * As many reconnects in a row as there are connections try each of them exactly once, in list order
   * from the one after the current, whatever index an earlier list left behind.
   */
  lemma FullTurn<T>(list: seq<T>, index: nat)
    requires list != []
    ensures var start := NextIndex(index, |list|);
            Tried(list, index, |list|) == list[start..] + list[..start]
    ensures multiset(Tried(list, index, |list|)) == multiset(list)
  {
    hide *;
    var start := NextIndex(index, |list|);
    TriedNext(list, index, |list|);
    TurnFrom(list, start);
    Rotated(list, start);
  }

  lemma TurnFrom<T>(list: seq<T>, start: nat)
    requires start < |list|
    ensures [list[start]] + Tried(list, start, |list| - 1) == list[start..] + list[..start]
  {
    hide *;
    HeadOf(list, start);
    if start == 0 {
      TriedAhead(list, 0, |list| - 1);
      NothingBefore(list);
    } else {
      TriedAround(list, start, |list| - 1);
      Regroup([list[start]], list[start + 1..], list[..start]);
    }
  }

  lemma NothingBefore<T>(list: seq<T>)
    requires list != []
    ensures list[0..] + list[..0] == list[0..] && list[1..1 + (|list| - 1)] == list[1..]
  {
  }

  lemma Rotated<T>(list: seq<T>, start: nat)
    requires start < |list|
    ensures multiset(list[start..] + list[..start]) == multiset(list)
  {
    assert list == list[..start] + list[start..];
  }

  class Manager {
    var currentConnections: array<Connection>
    var currentConnIdx: nat

    constructor (initial: array<Connection>)
      ensures currentConnections == initial && currentConnIdx == 0
    {
      currentConnections, currentConnIdx := initial, 0;
    }

    /** Starting uses the first connection and has no answer for an empty list. */
    method Start() returns (c: Connection)
      requires currentConnections.Length > 0
      modifies this`currentConnIdx
      ensures currentConnIdx == 0 && c == currentConnections[0]
    {
      currentConnIdx := 0;
      c := currentConnections[currentConnIdx];
    }

    method UpdateConnections(connections: seq<Connection>, choices: seq<nat>)
      requires IsChoice(choices, |Enabled(connections)|)
      modifies this`currentConnections
      ensures fresh(currentConnections)
      ensures currentConnections[..] == Shuffled(Enabled(connections), choices)
      ensures multiset(currentConnections[..]) == multiset(Enabled(connections))
    {
      var enabled: seq<Connection> := [];
      for i := 0 to |connections|
        invariant enabled == Enabled(connections[..i])
      {
        EnabledNext(connections, i);
        hide Enabled;
        if !connections[i].disabled {
          enabled := enabled + [connections[i]];
        }
      }
      hide Shuffled, IsChoice, Enabled;
      assert connections[..|connections|] == connections;
      var list := new Connection[|enabled|](i requires 0 <= i < |enabled| => enabled[i]);
      assert list[..] == enabled;
      ShuffleConnections(list, choices);
      currentConnections := list;
      Permutes(enabled, choices);
    }

    /** The connection tried next: always one of the list, even when a shorter list replaced the last one. */
    method Reconnect() returns (c: Option<Connection>)
      modifies this`currentConnIdx
      ensures currentConnections.Length == 0 ==> c == None && currentConnIdx == old(currentConnIdx)
      ensures currentConnections.Length > 0 ==>
                && currentConnIdx < currentConnections.Length
                && c.Some? && [c.value] == Tried(currentConnections[..], old(currentConnIdx), 1)
                && c.value == currentConnections[currentConnIdx]
    {
      hide NextIndex;
      if currentConnections.Length < 1 {
        return None;
      }
      currentConnIdx := NextIndex(currentConnIdx, currentConnections.Length);
      c := Some(currentConnections[currentConnIdx]);
    }
  }
}
