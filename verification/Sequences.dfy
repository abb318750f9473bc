/** Facts about sequences that several models use. */
module Sequences {
  lemma Regroup<T>(a: seq<T>, b: seq<T>, c: seq<T>)
    ensures a + b + c == a + (b + c)
  {
  }

  lemma LastAfter<T>(s: seq<T>)
    requires s != []
    ensures s[..|s| - 1] + [s[|s| - 1]] == s
  {
  }

  lemma NothingAfter<T>(s: seq<T>)
    ensures s + [] == s
  {
  }

  ghost predicate Distinct<T>(s: seq<T>) {
    forall i, j :: 0 <= i < j < |s| ==> s[i] != s[j]
  }

  lemma DistinctJoin<T>(a: seq<T>, b: seq<T>)
    requires Distinct(a) && Distinct(b) && forall x :: x in a ==> x !in b
    ensures Distinct(a + b)
  {
    assert forall i :: 0 <= i < |a| ==> a[i] in a;
    assert forall i :: 0 <= i < |b| ==> b[i] in b;
  }

  function Concat<T>(parts: seq<seq<T>>): seq<T> {
    if parts == [] then [] else parts[0] + Concat(parts[1..])
  }

  /** The second list is the first one at these places, which ascend. */
  ghost predicate Picks<T>(all: seq<T>, picked: seq<T>, places: seq<nat>) {
    && |places| == |picked|
    && (forall a, b :: 0 <= a < b < |places| ==> places[a] < places[b])
    && forall a :: 0 <= a < |places| ==> places[a] < |all| && picked[a] == all[places[a]]
  }

  /** Just the elements that are to be kept, in order. */
  ghost predicate Filters<T>(all: seq<T>, picked: seq<T>, places: seq<nat>, keep: T -> bool) {
    Picks(all, picked, places) && forall i: nat :: i < |all| ==> (i in places <==> keep(all[i]))
  }

  lemma FiltersNone<T>(keep: T -> bool)
    ensures Filters([], [], [], keep)
  {
  }

  lemma FiltersNext<T>(all: seq<T>, picked: seq<T>, places: seq<nat>, x: T, keep: T -> bool)
    requires Filters(all, picked, places, keep)
    ensures Filters(all + [x], if keep(x) then picked + [x] else picked, if keep(x) then places + [|all|] else places, keep)
  {
    var more, n := all + [x], |all|;
    assert forall i :: 0 <= i < n ==> more[i] == all[i];
    assert n !in places by {
      assert forall a :: 0 <= a < |places| ==> places[a] < n;
    }
    assert forall i: nat :: i in places + [n] <==> i in places || i == n;
  }

  lemma TwoPlaces(places: seq<nat>, i: nat, j: nat)
    requires i in places && j in places && i != j
    ensures |places| >= 2
  {
  }

  /** With an element left out there are fewer. */
  lemma FewerPlaces<T>(all: seq<T>, picked: seq<T>, places: seq<nat>, i: nat)
    requires Picks(all, picked, places) && i < |all| && i !in places
    ensures |picked| < |all|
  {
    if |places| >= |all| {
      PlaceAfter(all, picked, places, i);
      PlaceBefore(all, picked, places, i);
    }
  }

  lemma {:induction false} PlaceAfter<T>(all: seq<T>, picked: seq<T>, places: seq<nat>, a: nat)
    requires Picks(all, picked, places) && a < |places|
    ensures places[a] >= a
  {
    if a > 0 {
      PlaceAfter(all, picked, places, a - 1);
    }
  }

  lemma {:induction false} PlaceBefore<T>(all: seq<T>, picked: seq<T>, places: seq<nat>, a: nat)
    requires Picks(all, picked, places) && a < |places|
    ensures places[a] + (|places| - a) <= |all|
    decreases |places| - a
  {
    if a + 1 < |places| {
      PlaceBefore(all, picked, places, a + 1);
    }
  }

  /** The first index of `c`, or the length when there is none. */
  function IndexOf(s: string, c: char): (i: nat)
    ensures i <= |s| && (i < |s| ==> s[i] == c) && forall k :: 0 <= k < i ==> s[k] != c
  {
    if s == "" || s[0] == c then 0 else
      var i := 1 + IndexOf(s[1..], c);
      assert forall k :: 1 <= k < i ==> s[k] == s[1..][k - 1];
      i
  }

  // ---------------------------------------------------------------- sorted lists

  ghost predicate StrictOrder<T(!new)>(less: (T, T) -> bool) {
    && (forall a, b :: less(a, b) || less(b, a) || a == b)
    && (forall a, b :: !(less(a, b) && less(b, a)))
    && (forall a, b, c :: less(a, b) && less(b, c) ==> less(a, c))
  }

  /** The elements of a set, each once, in order. */
  ghost predicate IsSorted<T(!new)>(keys: seq<T>, of: set<T>, less: (T, T) -> bool) {
    && (forall i, j :: 0 <= i < j < |keys| ==> less(keys[i], keys[j]))
    && (forall k :: k in keys <==> k in of)
  }

  /** Inserting a new element at its place. */
  function Insert<T>(keys: seq<T>, k: T, less: (T, T) -> bool): seq<T> {
    if keys == [] || less(k, keys[0]) then [k] + keys else [keys[0]] + Insert(keys[1..], k, less)
  }

  /** In a sorted list no element comes again. */
  lemma SortedOnce<T(!new)>(keys: seq<T>, of: set<T>, less: (T, T) -> bool, n: nat)
    requires StrictOrder(less) && IsSorted(keys, of, less) && n < |keys|
    ensures keys[n] !in keys[n + 1..]
  {
    forall j | n < j < |keys| ensures keys[j] != keys[n] {
      assert less(keys[n], keys[j]);
    }
  }

  lemma SortedTail<T(!new)>(keys: seq<T>, of: set<T>, less: (T, T) -> bool)
    requires StrictOrder(less) && IsSorted(keys, of, less) && keys != []
    ensures IsSorted(keys[1..], of - {keys[0]}, less)
  {
    forall k ensures k in keys[1..] <==> k in of - {keys[0]} {
      if k in keys[1..] {
        var j :| 0 <= j < |keys[1..]| && keys[1..][j] == k;
        assert keys[j + 1] == k && k in keys && less(keys[0], keys[j + 1]);
      }
      assert k in keys <==> k == keys[0] || k in keys[1..];
    }
  }

  lemma {:induction false} InsertSorts<T(!new)>(keys: seq<T>, k: T, of: set<T>, less: (T, T) -> bool)
    requires StrictOrder(less) && IsSorted(keys, of, less) && k !in of
    ensures IsSorted(Insert(keys, k, less), of + {k}, less)
  {
    if keys == [] {
    } else if less(k, keys[0]) {
      forall j | 0 <= j < |keys| ensures less(k, keys[j]) {
        if j > 0 {
          assert less(keys[0], keys[j]);
        }
      }
    } else {
      SortedTail(keys, of, less);
      assert keys[0] in keys;
      InsertSorts(keys[1..], k, of - {keys[0]}, less);
      Prepended(keys[0], keys[1..], Insert(keys[1..], k, less), of - {keys[0]}, k, less);
      assert of + {k} == (of - {keys[0]} + {k}) + {keys[0]};
    }
  }

  /** An element below all others goes in front of a sorted list. */
  lemma Prepended<T(!new)>(first: T, tail: seq<T>, rest: seq<T>, of: set<T>, k: T, less: (T, T) -> bool)
    requires StrictOrder(less) && IsSorted([first] + tail, of + {first}, less) && first !in of && first != k
    requires IsSorted(rest, of + {k}, less) && less(first, k)
    ensures IsSorted([first] + rest, of + {k} + {first}, less)
  {
    var all := [first] + tail;
    forall j | 0 <= j < |rest| ensures less(first, rest[j]) {
      assert rest[j] in rest;
      if rest[j] != k {
        assert rest[j] in all;
        var i :| 0 <= i < |all| && all[i] == rest[j];
        assert less(all[0], all[i]);
      }
    }
  }

  lemma {:induction false} SortedExists<T(!new)>(of: set<T>, less: (T, T) -> bool) returns (keys: seq<T>)
    requires StrictOrder(less)
    ensures IsSorted(keys, of, less)
  {
    if of == {} {
      keys := [];
    } else {
      var k :| k in of;
      keys := SortedExists(of - {k}, less);
      InsertSorts(keys, k, of - {k}, less);
      keys := Insert(keys, k, less);
      assert of - {k} + {k} == of;
    }
  }

  /** A set has only one sorted list. */
  lemma {:induction false} SortedUnique<T(!new)>(a: seq<T>, b: seq<T>, of: set<T>, less: (T, T) -> bool)
    requires StrictOrder(less) && IsSorted(a, of, less) && IsSorted(b, of, less)
    ensures a == b
  {
    assert a != [] ==> a[0] in a;
    assert b != [] ==> b[0] in b;
    if a != [] && b != [] {
      assert a[0] in b && b[0] in a;
      var i :| 0 <= i < |b| && b[i] == a[0];
      var j :| 0 <= j < |a| && a[j] == b[0];
      assert a[0] == b[0];
      SortedTail(a, of, less);
      SortedTail(b, of, less);
      SortedUnique(a[1..], b[1..], of - {a[0]}, less);
      assert a == [a[0]] + a[1..] && b == [b[0]] + b[1..];
    }
  }
}
