/** In which order servers are dialled, which of them are, and what their counts come to. */
module FailoverOrder {
  import opened Failover
  import opened Sequences

  /** Server `i` is dialled ahead of `j`: a last resort goes after the others, and the order of the list decides within both. */
  predicate Ahead(fails: seq<nat>, draws: seq<nat>, i: nat, j: nat)
    requires i < |fails| <= |draws| && j < |fails|
  {
    if LastResort(fails[i], draws[i]) == LastResort(fails[j], draws[j]) then i < j else LastResort(fails[j], draws[j])
  }

  /** The server has failed before, and a number other than zero was drawn for it. */
  predicate LastResort(fails: nat, draw: nat) {
    !(fails == 0 || draw == 0)
  }

  ghost predicate Before(order: seq<nat>, i: nat, j: nat) {
    exists a, b :: 0 <= a < b < |order| && order[a] == i && order[b] == j
  }

  lemma BeforeIf(fails: seq<nat>, draws: seq<nat>, i: nat, j: nat)
    requires i < |fails| <= |draws| && j < |fails| && Ahead(fails, draws, i, j)
    ensures Before(Order(fails, draws), i, j)
  {
    hide Picked;
    var n := |fails|;
    var first, last := Picked(fails, draws, n, false), Picked(fails, draws, n, true);
    PickedExact(fails, draws, n, false);
    PickedExact(fails, draws, n, true);
    var order := first + last;
    if !LastResort(fails[j], draws[j]) {
      assert i in first && j in first;
      InTurn(first, i, j);
    } else if LastResort(fails[i], draws[i]) {
      assert i in last && j in last;
      InTurn(last, i, j);
      var a, b :| 0 <= a < b < |last| && last[a] == i && last[b] == j;
      assert order[|first| + a] == i && order[|first| + b] == j;
    } else {
      assert i in first && j in last;
      var a :| 0 <= a < |first| && first[a] == i;
      var b :| 0 <= b < |last| && last[b] == j;
      assert order[a] == i && order[|first| + b] == j;
    }
    if !LastResort(fails[j], draws[j]) {
      var a, b :| 0 <= a < b < |first| && first[a] == i && first[b] == j;
      assert order[a] == i && order[b] == j;
    }
  }

  lemma InTurn(s: seq<nat>, i: nat, j: nat)
    requires Ascending(s) && i in s && j in s && i < j
    ensures Before(s, i, j)
  {
    var a :| 0 <= a < |s| && s[a] == i;
    var b :| 0 <= b < |s| && s[b] == j;
    assert a < b;
  }

  lemma NotBoth(order: seq<nat>, i: nat, j: nat)
    requires Distinct(order) && Before(order, i, j)
    ensures !Before(order, j, i) && i != j
  {
  }

  /**
   * A server stands before another exactly when it has not failed or zero was drawn for it while the
   * other is a last resort, or both are in the same of these groups and it is listed first.
   */
  lemma OrderExact(fails: seq<nat>, draws: seq<nat>, i: nat, j: nat)
    requires i < |fails| <= |draws| && j < |fails| && i != j
    ensures Before(Order(fails, draws), i, j)
       <==> ((fails[i] == 0 || draws[i] == 0) && fails[j] > 0 && draws[j] != 0)
            || (((fails[i] == 0 || draws[i] == 0) <==> (fails[j] == 0 || draws[j] == 0)) && i < j)
  {
    hide Order, Before;
    OrderOnce(fails, draws);
    if Ahead(fails, draws, i, j) {
      BeforeIf(fails, draws, i, j);
    } else {
      BeforeIf(fails, draws, j, i);
      NotBoth(Order(fails, draws), j, i);
    }
  }

  /** A server is reached exactly when every server before it refuses. */
  lemma ReachedExact(order: seq<nat>, accepts: nat -> bool, j: nat)
    requires Distinct(order) && j in order
    ensures j in UpTo(order, accepts) <==> forall i :: Before(order, i, j) ==> !accepts(i)
  {
    hide UpTo;
    UpToPrefix(order, accepts);
    var dialled := UpTo(order, accepts);
    var b :| 0 <= b < |order| && order[b] == j;
    NotReached(order, accepts, b);
    if j in dialled {
      var c :| 0 <= c < |dialled| && dialled[c] == j;
      assert dialled[c] == order[c];
      forall i | Before(order, i, j) ensures !accepts(i) {
        var a, d :| 0 <= a < d < |order| && order[a] == i && order[d] == j;
        assert d == b && c == b;
        assert dialled[a] == order[a];
      }
    }
  }

  lemma NotReached(order: seq<nat>, accepts: nat -> bool, b: nat)
    requires b < |order|
    ensures order[b] in UpTo(order, accepts) || exists i :: Before(order, i, order[b]) && accepts(i)
  {
    hide UpTo;
    UpToPrefix(order, accepts);
    var dialled := UpTo(order, accepts);
    var n := |dialled| - 1;
    assert forall k :: 0 <= k < |dialled| ==> dialled[k] == order[k];
    if order[b] !in dialled {
      assert Before(order, order[n], order[b]);
    }
  }

  /**
   * What an attempt does to each server, from the counts and draws alone: it is dialled exactly when no
   * server ahead of it accepts, and then its count drops to zero or grows by one up to thirty.
   */
  lemma AttemptMeaning(fails: seq<nat>, draws: seq<nat>, accepts: nat -> bool, j: nat)
    requires j < |fails| <= |draws| && fails[j] <= 30
    ensures var dialled := UpTo(Order(fails, draws), accepts);
            && (j in dialled <==> forall i: nat :: i < |fails| && i != j && Ahead(fails, draws, i, j) ==> !accepts(i))
            && Count(fails[j], j, dialled, accepts) ==
                 if j !in dialled then fails[j] else if accepts(j) then 0 else if fails[j] == 30 then 30 else fails[j] + 1
  {
    hide UpTo, Order, Before;
    var order := Order(fails, draws);
    OrderOnce(fails, draws);
    ReachedExact(order, accepts, j);
    forall i: nat | i < |fails| && i != j ensures Before(order, i, j) <==> Ahead(fails, draws, i, j) {
      OrderExact(fails, draws, i, j);
    }
    forall i: nat | Before(order, i, j) ensures i < |fails| && i != j {
      BeforeIn(order, i, j);
    }
  }

  lemma BeforeIn(order: seq<nat>, i: nat, j: nat)
    requires Distinct(order) && Before(order, i, j)
    ensures i in order && i != j
  {
  }

  /** While some server without failures accepts, no last resort is dialled. */
  lemma HealthyFirst(fails: seq<nat>, draws: seq<nat>, accepts: nat -> bool, h: nat, j: nat)
    requires h < |fails| <= |draws| && fails[h] == 0 && accepts(h)
    requires j < |fails| && fails[j] > 0 && draws[j] != 0
    ensures j !in UpTo(Order(fails, draws), accepts)
  {
    hide UpTo, Order, Before;
    OrderOnce(fails, draws);
    OrderExact(fails, draws, h, j);
    ReachedExact(Order(fails, draws), accepts, j);
  }
}
