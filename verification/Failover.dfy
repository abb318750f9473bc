/** The choice of a shadowsocks server: fail counts, random skipping and the order of dialling. */
module Failover {
  import opened Sequences

  const MAX_FAILS: nat := 30
  const BASE_FAILS: nat := 20

  datatype Outcome = Connected(server: nat) | Refused | Neither

  // ---------------------------------------------------------------- the specification

  /** A failed server is skipped at first unless zero is drawn for it. */
  predicate Skip(fails: nat, draw: nat) {
    fails > 0 && draw != 0
  }

  ghost predicate Ascending(s: seq<nat>) {
    forall j, k :: 0 <= j < k < |s| ==> s[j] < s[k]
  }

  /** The servers below `n` that are skipped, or that are not. */
  ghost function Picked(fails: seq<nat>, draws: seq<nat>, n: nat, skipped: bool): (r: seq<nat>)
    requires n <= |fails| && n <= |draws|
    decreases n
  {
    if n == 0 then []
    else Picked(fails, draws, n - 1, skipped)
         + if Skip(fails[n - 1], draws[n - 1]) == skipped then [n - 1] else []
  }

  /** All that are picked, each once and in order. */
  ghost predicate RightlyPicked(r: seq<nat>, fails: seq<nat>, draws: seq<nat>, n: nat, skipped: bool)
    requires n <= |fails| && n <= |draws|
  {
    Ascending(r) && forall i :: i in r <==> 0 <= i < n && Skip(fails[i], draws[i]) == skipped
  }

  lemma NothingPicked(fails: seq<nat>, draws: seq<nat>, skipped: bool)
    ensures RightlyPicked(Picked(fails, draws, 0, skipped), fails, draws, 0, skipped)
  {
  }

  lemma RightlyNext(r: seq<nat>, fails: seq<nat>, draws: seq<nat>, n: nat, skipped: bool)
    requires 0 < n <= |fails| && n <= |draws| && RightlyPicked(r, fails, draws, n - 1, skipped)
    ensures RightlyPicked(if Skip(fails[n - 1], draws[n - 1]) == skipped then r + [n - 1] else r, fails, draws, n, skipped)
  {
    hide Ascending;
    AscendingNext(r, n - 1);
    assert forall i :: i in r + [n - 1] <==> i in r || i == n - 1;
  }

  lemma PickedStep(fails: seq<nat>, draws: seq<nat>, n: nat, skipped: bool)
    requires 0 < n <= |fails| && n <= |draws|
    ensures var init := Picked(fails, draws, n - 1, skipped);
            Picked(fails, draws, n, skipped) == if Skip(fails[n - 1], draws[n - 1]) == skipped then init + [n - 1] else init
  {
    hide Skip;
  }

  lemma AscendingNext(s: seq<nat>, n: nat)
    requires Ascending(s) && forall i :: i in s ==> i < n
    ensures Ascending(s + [n])
  {
    assert forall j :: 0 <= j < |s| ==> s[j] in s;
  }

  lemma {:induction false} PickedExact(fails: seq<nat>, draws: seq<nat>, n: nat, skipped: bool)
    requires n <= |fails| && n <= |draws|
    ensures RightlyPicked(Picked(fails, draws, n, skipped), fails, draws, n, skipped)
    decreases n
  {
    hide Skip, RightlyPicked, Picked;
    if n > 0 {
      PickedStep(fails, draws, n, skipped);
      PickedExact(fails, draws, n - 1, skipped);
      RightlyNext(Picked(fails, draws, n - 1, skipped), fails, draws, n, skipped);
    } else {
      NothingPicked(fails, draws, skipped);
    }
  }

  /** The order of dialling: the servers not skipped, then as a last resort the skipped ones. */
  ghost function Order(fails: seq<nat>, draws: seq<nat>): seq<nat>
    requires |fails| <= |draws|
  {
    Picked(fails, draws, |fails|, false) + Picked(fails, draws, |fails|, true)
  }

  /** Dialling stops at the first server that accepts. */
  function UpTo(order: seq<nat>, accepts: nat -> bool): seq<nat> {
    if order == [] then []
    else [order[0]] + if accepts(order[0]) then [] else UpTo(order[1..], accepts)
  }

  function OutcomeOf(dialled: seq<nat>, accepts: nat -> bool): Outcome {
    if dialled == [] then Neither
    else
      var last := dialled[|dialled| - 1];
      if accepts(last) then Connected(last) else Refused
  }

  /** The fail count of a server after an attempt that dialled these. */
  function Count(fails: nat, server: nat, dialled: seq<nat>, accepts: nat -> bool): nat {
    if server !in dialled then fails
    else if accepts(server) then 0
    else if fails < MAX_FAILS then fails + 1
    else fails
  }

  // ---------------------------------------------------------------- the algorithm

  class Servers {
    var failCnt: array<nat>

    ghost predicate Valid()
      reads this, failCnt
    {
      forall i :: 0 <= i < failCnt.Length ==> failCnt[i] <= MAX_FAILS
    }

    constructor (n: nat)
      ensures Valid() && fresh(failCnt) && failCnt.Length == n
      ensures forall i :: 0 <= i < n ==> failCnt[i] == 0
    {
      failCnt := new nat[n](_ => 0);
    }

    method ConnectToServer(id: nat, accepts: nat -> bool) returns (ok: bool)
      requires id < failCnt.Length
      modifies failCnt
      ensures ok == accepts(id)
      ensures failCnt[..] == old(failCnt[..])[id := Count(old(failCnt[id]), id, [id], accepts)]
    {
      if !accepts(id) {
        if failCnt[id] < MAX_FAILS {
          failCnt[id] := failCnt[id] + 1;
        }
        return false;
      }
      failCnt[id] := 0;
      return true;
    }

    /** `draws[i]` is the number drawn for server `i` if one is. */
    method CreateServerConn(draws: seq<nat>, accepts: nat -> bool) returns (r: Outcome, dialled: seq<nat>)
      requires Valid() && |draws| == failCnt.Length
      requires forall i :: 0 <= i < |draws| ==> draws[i] < failCnt[i] + BASE_FAILS
      modifies failCnt
      ensures Valid()
      ensures dialled == UpTo(Order(old(failCnt[..]), draws), accepts)
      ensures r == OutcomeOf(dialled, accepts)
      ensures forall i :: 0 <= i < failCnt.Length ==> failCnt[i] == Count(old(failCnt[i]), i, dialled, accepts)
    {
      hide Picked, Order, UpTo, Counted, Progress;
      var n := failCnt.Length;
      ghost var fails := failCnt[..];
      ghost var order := Order(fails, draws);
      var skipped: seq<nat> := [];
      dialled, r := [], Neither;
      Begin(fails, draws, accepts);
      for i := 0 to n
        invariant failCnt.Length == n == |fails| && order == Order(fails, draws) && (forall j :: i <= j < n ==> failCnt[j] == fails[j])
        invariant skipped == Picked(fails, draws, i, true) && dialled == Picked(fails, draws, i, false)
        invariant Progress(failCnt[..], fails, order, dialled, accepts)
        invariant r == if dialled == [] then Neither else Refused
      {
        PickedNext(fails, draws, i);
        if failCnt[i] > 0 && draws[i] != 0 {
          skipped := skipped + [i];
          continue;
        }
        Turn(failCnt[..], fails, order, dialled, i, accepts);
        var ok := ConnectToServer(i, accepts);
        dialled := dialled + [i];
        if ok {
          Finish(failCnt[..], fails, dialled, accepts);
          return Connected(i), dialled;
        }
        r := Refused;
      }
      Halfway(fails, draws);
      OrderOnce(fails, draws);
      ghost var first := dialled;
      for k := 0 to |skipped|
        invariant order == first + skipped && dialled == first + skipped[..k]
        invariant failCnt.Length == |fails| && Progress(failCnt[..], fails, order, dialled, accepts)
        invariant r == if dialled == [] then Neither else Refused
      {
        var i := skipped[k];
        assert order[|dialled|] == i;
        assert i in order;
        Turn(failCnt[..], fails, order, dialled, i, accepts);
        var ok := ConnectToServer(i, accepts);
        dialled := dialled + [i];
        assert dialled == first + skipped[..k + 1];
        if ok {
          Finish(failCnt[..], fails, dialled, accepts);
          return Connected(i), dialled;
        }
        r := Refused;
      }
      assert dialled == order;
      Exhausted(failCnt[..], fails, order, accepts);
      Finish(failCnt[..], fails, dialled, accepts);
    }
  }

  ghost predicate Counted(now: seq<nat>, fails: seq<nat>, dialled: seq<nat>, accepts: nat -> bool) {
    |now| == |fails| && forall i :: 0 <= i < |now| ==> now[i] == Count(fails[i], i, dialled, accepts)
  }

  /** Those dialled begin the order, all refused, and the counts say so. */
  ghost predicate Progress(now: seq<nat>, fails: seq<nat>, order: seq<nat>, dialled: seq<nat>, accepts: nat -> bool) {
    && dialled <= order
    && Distinct(order)
    && (forall k :: 0 <= k < |dialled| ==> !accepts(dialled[k]))
    && Counted(now, fails, dialled, accepts)
  }

  lemma Begin(fails: seq<nat>, draws: seq<nat>, accepts: nat -> bool)
    requires |fails| <= |draws|
    ensures Picked(fails, draws, 0, true) == [] == Picked(fails, draws, 0, false)
    ensures Progress(fails, fails, Order(fails, draws), [], accepts)
  {
    OrderOnce(fails, draws);
  }

  lemma Halfway(fails: seq<nat>, draws: seq<nat>)
    requires |fails| <= |draws|
    ensures Order(fails, draws) == Picked(fails, draws, |fails|, false) + Picked(fails, draws, |fails|, true)
  {
  }

  lemma {:induction false} PickedPrefix(fails: seq<nat>, draws: seq<nat>, i: nat, n: nat, skipped: bool)
    requires i <= n <= |fails| && n <= |draws|
    ensures Picked(fails, draws, i, skipped) <= Picked(fails, draws, n, skipped)
  {
    if i < n {
      PickedPrefix(fails, draws, i, n - 1, skipped);
    }
  }

  lemma PickedNext(fails: seq<nat>, draws: seq<nat>, i: nat)
    requires i < |fails| <= |draws|
    ensures var s := Skip(fails[i], draws[i]);
            && Picked(fails, draws, i + 1, s) == Picked(fails, draws, i, s) + [i]
            && Picked(fails, draws, i + 1, !s) == Picked(fails, draws, i, !s)
    ensures var first := Picked(fails, draws, i, false);
            !Skip(fails[i], draws[i]) ==> |first| < |Order(fails, draws)| && Order(fails, draws)[|first|] == i
  {
    hide Picked, Skip, Order;
    PickedStep(fails, draws, i + 1, true);
    PickedStep(fails, draws, i + 1, false);
    if !Skip(fails[i], draws[i]) {
      PickedPlace(fails, draws, i);
    }
  }

  lemma PickedPlace(fails: seq<nat>, draws: seq<nat>, i: nat)
    requires i < |fails| <= |draws| && !Skip(fails[i], draws[i])
    ensures var first := Picked(fails, draws, i, false);
            |first| < |Order(fails, draws)| && Order(fails, draws)[|first|] == i
  {
    hide Picked, Skip, Order;
    PickedStep(fails, draws, i + 1, false);
    PickedPrefix(fails, draws, i + 1, |fails|, false);
    Halfway(fails, draws);
    AtPrefix(Picked(fails, draws, i, false), i, Picked(fails, draws, |fails|, false), Picked(fails, draws, |fails|, true));
  }

  lemma AtPrefix(first: seq<nat>, i: nat, all: seq<nat>, more: seq<nat>)
    requires first + [i] <= all
    ensures |first| < |all + more| && (all + more)[|first|] == i
  {
    assert (first + [i])[|first|] == i;
  }

  /** One more server is dialled, the next in the order. */
  lemma Turn(now: seq<nat>, fails: seq<nat>, order: seq<nat>, dialled: seq<nat>, i: nat, accepts: nat -> bool)
    requires Progress(now, fails, order, dialled, accepts) && |dialled| < |order| && order[|dialled|] == i
    requires i < |now|
    ensures |now| == |fails|
    ensures var next := now[i := Count(now[i], i, [i], accepts)];
            && Counted(next, fails, dialled + [i], accepts)
            && (accepts(i) ==> dialled + [i] == UpTo(order, accepts))
            && (!accepts(i) ==> Progress(next, fails, order, dialled + [i], accepts))
  {
    hide UpTo, Counted;
    NotDialledYet(order, dialled);
    TurnCounted(now, fails, dialled, i, accepts);
    if accepts(i) {
      UpToTurn(order, dialled, accepts);
    } else {
      assert order[..|dialled| + 1] == dialled + [i];
    }
  }

  lemma NotDialledYet(order: seq<nat>, dialled: seq<nat>)
    requires Distinct(order) && dialled < order
    ensures order[|dialled|] !in dialled
  {
    assert forall k :: 0 <= k < |dialled| ==> dialled[k] == order[k];
  }

  lemma TurnCounted(now: seq<nat>, fails: seq<nat>, dialled: seq<nat>, i: nat, accepts: nat -> bool)
    requires Counted(now, fails, dialled, accepts) && i !in dialled && i < |now|
    ensures |now| == |fails| && Counted(now[i := Count(now[i], i, [i], accepts)], fails, dialled + [i], accepts)
  {
  }

  lemma UpToTurn(order: seq<nat>, dialled: seq<nat>, accepts: nat -> bool)
    requires dialled < order && accepts(order[|dialled|])
    requires forall k :: 0 <= k < |dialled| ==> !accepts(dialled[k])
    ensures UpTo(order, accepts) == dialled + [order[|dialled|]]
  {
    hide UpTo;
    var i, rest := order[|dialled|], order[|dialled| + 1..];
    assert order == dialled + ([i] + rest);
    UpToRefused(dialled, [i] + rest, accepts);
    UpToAccepted(i, rest, accepts);
  }

  lemma UpToAccepted(x: nat, rest: seq<nat>, accepts: nat -> bool)
    requires accepts(x)
    ensures UpTo([x] + rest, accepts) == [x]
  {
  }

  lemma UpToCons(x: nat, rest: seq<nat>, accepts: nat -> bool)
    requires !accepts(x)
    ensures UpTo([x] + rest, accepts) == [x] + UpTo(rest, accepts)
  {
    assert ([x] + rest)[1..] == rest;
  }

  lemma {:induction false} UpToRefused(refused: seq<nat>, rest: seq<nat>, accepts: nat -> bool)
    requires forall k :: 0 <= k < |refused| ==> !accepts(refused[k])
    ensures UpTo(refused + rest, accepts) == refused + UpTo(rest, accepts)
    decreases |refused|
  {
    hide UpTo;
    if refused == [] {
      assert refused + rest == rest && refused + UpTo(rest, accepts) == UpTo(rest, accepts);
    } else {
      var x, more := refused[0], refused[1..];
      assert refused == [x] + more;
      Regroup([x], more, rest);
      UpToCons(x, more + rest, accepts);
      UpToRefused(more, rest, accepts);
      Regroup([x], more, UpTo(rest, accepts));
    }
  }

  lemma Exhausted(now: seq<nat>, fails: seq<nat>, order: seq<nat>, accepts: nat -> bool)
    requires Progress(now, fails, order, order, accepts)
    ensures UpTo(order, accepts) == order && Counted(now, fails, order, accepts)
    ensures OutcomeOf(order, accepts) == if order == [] then Neither else Refused
  {
    UpToRefused(order, [], accepts);
    assert order + [] == order;
  }

  lemma Finish(now: seq<nat>, fails: seq<nat>, dialled: seq<nat>, accepts: nat -> bool)
    requires Counted(now, fails, dialled, accepts) && forall i :: 0 <= i < |fails| ==> fails[i] <= MAX_FAILS
    ensures forall i :: 0 <= i < |now| ==> now[i] == Count(fails[i], i, dialled, accepts) && now[i] <= MAX_FAILS
  {
  }

  // ---------------------------------------------------------------- what it means

  /** Every server has exactly one place in the order. */
  lemma OrderOnce(fails: seq<nat>, draws: seq<nat>)
    requires |fails| <= |draws|
    ensures Distinct(Order(fails, draws)) && forall i :: i in Order(fails, draws) <==> 0 <= i < |fails|
  {
    hide Picked;
    var first, last := Picked(fails, draws, |fails|, false), Picked(fails, draws, |fails|, true);
    PickedExact(fails, draws, |fails|, false);
    PickedExact(fails, draws, |fails|, true);
    forall i | 0 <= i < |fails| ensures i in first + last {
      assert i in first || i in last;
    }
    forall j, k | 0 <= j < k < |first + last| ensures (first + last)[j] != (first + last)[k] {
      if j < |first| <= k {
        assert first[j] in first && last[k - |first|] in last;
      }
    }
  }

  lemma {:induction false} UpToPrefix(order: seq<nat>, accepts: nat -> bool)
    ensures var d := UpTo(order, accepts);
            && d <= order && (order != [] ==> d != [])
            && (forall k :: 0 <= k < |d| - 1 ==> !accepts(d[k]))
            && (d != [] && !accepts(d[|d| - 1]) ==> d == order)
  {
    if order != [] && !accepts(order[0]) {
      UpToPrefix(order[1..], accepts);
    }
  }

  /**
   * Whatever was drawn: no server is dialled twice, a connection results exactly when some server accepts,
   * a refusal only after all have been dialled, and without servers there is neither.
   */
  lemma AttemptExact(fails: seq<nat>, draws: seq<nat>, accepts: nat -> bool)
    requires |fails| <= |draws|
    ensures var dialled := UpTo(Order(fails, draws), accepts);
            var r := OutcomeOf(dialled, accepts);
            && Distinct(dialled)
            && (r == Neither <==> fails == [])
            && (r.Connected? <==> exists i: nat :: i < |fails| && accepts(i))
            && (r.Connected? ==> r.server < |fails| && accepts(r.server) && Count(fails[r.server], r.server, dialled, accepts) == 0)
            && (r == Refused ==> forall i :: 0 <= i < |fails| ==> i in dialled)
  {
    hide Order, UpTo;
    var order := Order(fails, draws);
    OrderOnce(fails, draws);
    assert fails != [] ==> 0 in order;
    assert order != [] ==> order[0] in order;
    DialledExact(order, accepts);
    if i: nat :| i < |fails| && accepts(i) {
      assert i in order;
    }
  }

  lemma DialledExact(order: seq<nat>, accepts: nat -> bool)
    requires Distinct(order)
    ensures var dialled := UpTo(order, accepts);
            var r := OutcomeOf(dialled, accepts);
            && Distinct(dialled)
            && (r == Neither <==> order == [])
            && (r.Connected? ==> r.server in order && r.server in dialled && accepts(r.server))
            && (!r.Connected? ==> dialled == order && forall i :: i in order ==> !accepts(i))
  {
    hide UpTo;
    UpToPrefix(order, accepts);
    var dialled := UpTo(order, accepts);
    assert forall k :: 0 <= k < |dialled| ==> dialled[k] == order[k];
  }
}
