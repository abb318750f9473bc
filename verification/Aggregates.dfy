/** Errors that hold errors: filtering by matchers and flattening. */
module Aggregates {
  import Sequences

  /** A nil error, a single error, or an aggregate of errors. */
  datatype Error<T> = Nil | Leaf(value: T) | Agg(errors: seq<Error<T>>)

  type Matchers<!T> = seq<T -> bool>

  // ---------------------------------------------------------------- the specification

  function NewAggregate<T>(list: seq<Error<T>>): Error<T> {
    if list == [] then Nil else Agg(list)
  }

  ghost predicate Matched<T>(value: T, fns: Matchers<T>) {
    exists i :: 0 <= i < |fns| && fns[i](value)
  }

  ghost function Filtered<T>(err: Error<T>, fns: Matchers<T>): Error<T>
    decreases err, 1
  {
    match err
    case Nil => Nil
    case Leaf(value) => if Matched(value, fns) then Nil else err
    case Agg(list) => NewAggregate(FilteredAll(list, fns))
  }

  ghost function FilteredAll<T>(list: seq<Error<T>>, fns: Matchers<T>): seq<Error<T>>
    decreases list, 0
  {
    if list == [] then []
    else
      var r := Filtered(list[|list| - 1], fns);
      FilteredAll(list[..|list| - 1], fns) + if r == Nil then [] else [r]
  }

  /** The single errors in a tree, in order. */
  function Leaves<T>(err: Error<T>): seq<T>
    decreases err, 1
  {
    match err
    case Nil => []
    case Leaf(value) => [value]
    case Agg(list) => LeavesAll(list)
  }

  function LeavesAll<T>(list: seq<Error<T>>): seq<T>
    decreases list, 0
  {
    if list == [] then [] else LeavesAll(list[..|list| - 1]) + Leaves(list[|list| - 1])
  }

  function Wrap<T>(values: seq<T>): (list: seq<Error<T>>)
    ensures |list| == |values| && forall i :: 0 <= i < |list| ==> list[i] == Leaf(values[i])
  {
    seq(|values|, i requires 0 <= i < |values| => Leaf(values[i]))
  }

  ghost function Unmatched<T>(values: seq<T>, fns: Matchers<T>): seq<T> {
    if values == [] then []
    else
      var last := values[|values| - 1];
      Unmatched(values[..|values| - 1], fns) + if Matched(last, fns) then [] else [last]
  }

  // ---------------------------------------------------------------- the algorithms

  method MatchesError<T>(value: T, fns: Matchers<T>) returns (matched: bool)
    ensures matched <==> Matched(value, fns)
  {
    for i := 0 to |fns|
      invariant forall j :: 0 <= j < i ==> !fns[j](value)
    {
      if fns[i](value) {
        return true;
      }
    }
    return false;
  }

  method FilterOut<T(==)>(err: Error<T>, fns: Matchers<T>) returns (r: Error<T>)
    ensures r == Filtered(err, fns)
    decreases err, 1
  {
    match err {
      case Nil =>
        return Nil;
      case Agg(list) =>
        var kept := FilterErrors(list, fns);
        return NewAggregate(kept);
      case Leaf(value) =>
        var matched := MatchesError(value, fns);
        return if matched then Nil else err;
    }
  }

  method FilterErrors<T(==)>(list: seq<Error<T>>, fns: Matchers<T>) returns (result: seq<Error<T>>)
    ensures result == FilteredAll(list, fns)
    decreases list, 0
  {
    result := [];
    for i := 0 to |list|
      invariant result == FilteredAll(list[..i], fns)
    {
      assert list[..i + 1][..i] == list[..i];
      var r := FilterOut(list[i], fns);
      if r != Nil {
        result := result + [r];
      }
    }
    assert list[..|list|] == list;
  }

  /** Flattens an aggregate, or nothing. */
  method Flatten<T(==)>(agg: Error<T>) returns (r: Error<T>)
    requires !agg.Leaf?
    ensures r == NewAggregate(Wrap(Leaves(agg)))
    decreases agg
  {
    var result: seq<Error<T>> := [];
    if agg == Nil {
      return Nil;
    }
    var list := agg.errors;
    for i := 0 to |list|
      invariant result == Wrap(LeavesAll(list[..i]))
    {
      assert list[..i + 1][..i] == list[..i];
      var err := list[i];
      if err.Agg? {
        var inner := Flatten(err);
        if inner != Nil {
          result := result + inner.errors;
        }
      } else if err != Nil {
        result := result + [err];
      }
    }
    assert list[..|list|] == list;
    return NewAggregate(result);
  }

  // ---------------------------------------------------------------- what filtering keeps

  lemma UnmatchedJoin<T>(a: seq<T>, b: seq<T>, fns: Matchers<T>)
    ensures Unmatched(a + b, fns) == Unmatched(a, fns) + Unmatched(b, fns)
  {
    if b == [] {
      assert a + b == a;
    } else {
      assert (a + b)[..|a + b| - 1] == a + b[..|b| - 1];
      UnmatchedJoin(a, b[..|b| - 1], fns);
    }
  }

  /** The leaves after filtering are the leaves no matcher accepts, in order. */
  lemma {:induction false} FilteredLeaves<T>(err: Error<T>, fns: Matchers<T>)
    ensures Leaves(Filtered(err, fns)) == Unmatched(Leaves(err), fns)
    decreases err, 1
  {
    match err
    case Nil =>
    case Leaf(value) =>
      assert [value][..0] == [];
    case Agg(list) =>
      FilteredAllLeaves(list, fns);
  }

  lemma {:induction false} FilteredAllLeaves<T>(list: seq<Error<T>>, fns: Matchers<T>)
    ensures LeavesAll(FilteredAll(list, fns)) == Unmatched(LeavesAll(list), fns)
    decreases list, 0
  {
    if list != [] {
      var init, last := list[..|list| - 1], list[|list| - 1];
      FilteredAllLeaves(init, fns);
      FilteredLeaves(last, fns);
      UnmatchedJoin(LeavesAll(init), Leaves(last), fns);
      LeavesAppended(FilteredAll(init, fns), Filtered(last, fns));
    }
  }

  lemma LeavesAppended<T>(list: seq<Error<T>>, r: Error<T>)
    ensures LeavesAll(list + if r == Nil then [] else [r]) == LeavesAll(list) + Leaves(r)
  {
    if r == Nil {
      assert list + [] == list;
    } else {
      assert (list + [r])[..|list|] == list;
    }
  }

  lemma {:induction false} UnmatchedPlaces<T(!new)>(values: seq<T>, fns: Matchers<T>) returns (places: seq<nat>)
    ensures Sequences.Filters(values, Unmatched(values, fns), places,
                              (v: T) => forall i :: 0 <= i < |fns| ==> !fns[i](v))
  {
    hide Unmatched, Sequences.Filters;
    var keep := (v: T) => forall i :: 0 <= i < |fns| ==> !fns[i](v);
    if values == [] {
      Sequences.FiltersNone(keep);
      places := [];
      NoneUnmatched(fns);
    } else {
      var n := |values| - 1;
      var before := UnmatchedPlaces(values[..n], fns);
      Sequences.FiltersNext(values[..n], Unmatched(values[..n], fns), before, values[n], keep);
      UnmatchedNext(values[..n], values[n], fns);
      assert values == values[..n] + [values[n]];
      places := if keep(values[n]) then before + [n] else before;
    }
  }

  lemma NoneUnmatched<T>(fns: Matchers<T>)
    ensures Unmatched([], fns) == []
  {
  }

  lemma UnmatchedNext<T>(values: seq<T>, v: T, fns: Matchers<T>)
    ensures Unmatched(values + [v], fns)
         == if forall i :: 0 <= i < |fns| ==> !fns[i](v) then Unmatched(values, fns) + [v] else Unmatched(values, fns)
  {
    assert (values + [v])[..|values|] == values;
    assert Unmatched(values, fns) + [] == Unmatched(values, fns);
  }

  /** Of the leaves of an error, filtering keeps just those that every matcher refuses, in order. */
  lemma KeptLeaves<T(!new)>(err: Error<T>, fns: Matchers<T>) returns (places: seq<nat>)
    ensures Sequences.Filters(Leaves(err), Leaves(Filtered(err, fns)), places,
                              (v: T) => forall i :: 0 <= i < |fns| ==> !fns[i](v))
  {
    hide Leaves, Filtered, Unmatched, Sequences.Filters;
    FilteredLeaves(err, fns);
    places := UnmatchedPlaces(Leaves(err), fns);
  }

  /** The leaves of an aggregate are those of its errors, from the first error to the last. */
  lemma {:induction false} LeavesInOrder<T>(first: Error<T>, rest: seq<Error<T>>)
    ensures Leaves(Agg([first] + rest)) == Leaves(first) + Leaves(Agg(rest))
    decreases |rest|
  {
    var list := [first] + rest;
    if rest == [] {
      assert list[..0] == [];
      assert [] + Leaves(first) == Leaves(first) == Leaves(first) + [];
    } else {
      var init, last := rest[..|rest| - 1], rest[|rest| - 1];
      LeavesInOrder(first, init);
      assert list[..|list| - 1] == [first] + init && list[|list| - 1] == last;
      Sequences.Regroup(Leaves(first), LeavesAll(init), Leaves(last));
    }
  }

  /** Flattening what filtering an aggregate leaves gives just those leaves, or nothing if there are none. */
  lemma FlattenAfterFilter<T>(err: Error<T>, fns: Matchers<T>)
    ensures NewAggregate(Wrap(Leaves(Filtered(err, fns)))) == NewAggregate(Wrap(Unmatched(Leaves(err), fns)))
    ensures Filtered(err, fns) == Nil <==> Unmatched(Leaves(err), fns) == []
  {
    FilteredLeaves(err, fns);
    FilteredClean(err, fns);
    if Filtered(err, fns) != Nil {
      CleanHasLeaves(Filtered(err, fns));
    }
  }

  /** No nil and no empty aggregate anywhere inside. */
  ghost predicate Clean<T>(err: Error<T>) {
    err.Agg? ==> err.errors != [] && forall i :: 0 <= i < |err.errors| ==> err.errors[i] != Nil && Clean(err.errors[i])
  }

  lemma {:induction false} FilteredClean<T>(err: Error<T>, fns: Matchers<T>)
    ensures Clean(Filtered(err, fns))
    decreases err, 1
  {
    if err.Agg? {
      var kept := FilteredAll(err.errors, fns);
      FilteredAllClean(err.errors, fns);
      assert forall i :: 0 <= i < |kept| ==> kept[i] in kept;
    }
  }

  lemma {:induction false} FilteredAllClean<T>(list: seq<Error<T>>, fns: Matchers<T>)
    ensures forall r :: r in FilteredAll(list, fns) ==> r != Nil && Clean(r)
    decreases list, 0
  {
    if list != [] {
      FilteredAllClean(list[..|list| - 1], fns);
      FilteredClean(list[|list| - 1], fns);
    }
  }

  lemma {:induction false} CleanHasLeaves<T>(err: Error<T>)
    requires Clean(err) && err != Nil
    ensures Leaves(err) != []
    decreases err
  {
    if err.Agg? {
      CleanHasLeaves(err.errors[|err.errors| - 1]);
    }
  }

  /** Filtering by some matchers and then by others is filtering by all of them. */
  lemma {:induction false} FilterTwice<T>(err: Error<T>, f: Matchers<T>, g: Matchers<T>)
    ensures Filtered(Filtered(err, f), g) == Filtered(err, f + g)
    decreases err, 1
  {
    match err
    case Nil =>
    case Leaf(value) =>
      MatchedJoin(value, f, g);
    case Agg(list) =>
      FilterAllTwice(list, f, g);
  }

  lemma MatchedJoin<T>(value: T, f: Matchers<T>, g: Matchers<T>)
    ensures Matched(value, f + g) <==> Matched(value, f) || Matched(value, g)
  {
    if i :| 0 <= i < |f| && f[i](value) {
      assert (f + g)[i](value);
    }
    if i :| 0 <= i < |g| && g[i](value) {
      assert (f + g)[|f| + i](value);
    }
  }

  lemma {:induction false} FilterAllTwice<T>(list: seq<Error<T>>, f: Matchers<T>, g: Matchers<T>)
    ensures FilteredAll(FilteredAll(list, f), g) == FilteredAll(list, f + g)
    decreases list, 0
  {
    if list != [] {
      var init, last := list[..|list| - 1], list[|list| - 1];
      FilterAllTwice(init, f, g);
      FilterTwice(last, f, g);
      var r, before := Filtered(last, f), FilteredAll(init, f);
      if r == Nil {
        assert before + [] == before;
      } else {
        assert (before + [r])[..|before|] == before;
      }
    }
  }

  // ---------------------------------------------------------------- nesting stays

  ghost predicate Flat<T>(err: Error<T>) {
    err.Agg? ==> forall i :: 0 <= i < |err.errors| ==> !err.errors[i].Agg?
  }

  /** Filtering an aggregate flattens it only where the nested aggregates lose all their leaves. */
  lemma FlatExactly<T>(list: seq<Error<T>>, fns: Matchers<T>)
    ensures Flat(Filtered(Agg(list), fns))
       <==> forall i :: 0 <= i < |list| && list[i].Agg? ==> Unmatched(Leaves(list[i]), fns) == []
  {
    hide Leaves, Unmatched;
    NestedStay(list, fns);
    forall i | 0 <= i < |list| && list[i].Agg?
      ensures Unmatched(Leaves(list[i]), fns) == [] <==> Filtered(list[i], fns) == Nil
    {
      FlattenAfterFilter(list[i], fns);
    }
    var kept := FilteredAll(list, fns);
    assert Filtered(Agg(list), fns) == NewAggregate(kept);
    assert Flat(NewAggregate(kept)) <==> !HasNested(kept);
    assert HasNested(kept) <==> Stays(list, fns);
  }

  ghost predicate HasNested<T>(list: seq<Error<T>>) {
    exists i :: 0 <= i < |list| && list[i].Agg?
  }

  /** A nested aggregate that filtering does not remove. */
  ghost predicate Stays<T>(list: seq<Error<T>>, fns: Matchers<T>) {
    exists i :: 0 <= i < |list| && list[i].Agg? && Filtered(list[i], fns) != Nil
  }

  lemma {:induction false} NestedStay<T>(list: seq<Error<T>>, fns: Matchers<T>)
    ensures HasNested(FilteredAll(list, fns)) <==> Stays(list, fns)
  {
    hide *;
    if list == [] {
      NoneNested(fns);
    } else {
      var n := |list| - 1;
      var r := Filtered(list[n], fns);
      NestedStay(list[..n], fns);
      KindStays(list[n], fns);
      StaysLast(list, fns);
      NestedNext(FilteredAll(list[..n], fns), r);
      FilteredLast(list, fns);
    }
  }

  lemma NoneNested<T>(fns: Matchers<T>)
    ensures !HasNested(FilteredAll([], fns)) && !Stays([], fns)
  {
  }

  lemma KindStays<T>(err: Error<T>, fns: Matchers<T>)
    ensures Filtered(err, fns).Agg? <==> err.Agg? && Filtered(err, fns) != Nil
  {
    hide FilteredAll;
  }

  lemma StaysLast<T>(list: seq<Error<T>>, fns: Matchers<T>)
    requires list != []
    ensures var n := |list| - 1; Stays(list, fns) <==> Stays(list[..n], fns) || (list[n].Agg? && Filtered(list[n], fns) != Nil)
  {
    hide Filtered;
    var n := |list| - 1;
    assert forall i :: 0 <= i < n ==> list[..n][i] == list[i];
  }

  lemma FilteredLast<T>(list: seq<Error<T>>, fns: Matchers<T>)
    requires list != []
    ensures var n := |list| - 1; var before, r := FilteredAll(list[..n], fns), Filtered(list[n], fns);
            FilteredAll(list, fns) == if r == Nil then before else before + [r]
  {
    hide Filtered;
    var before := FilteredAll(list[..|list| - 1], fns);
    assert before + [] == before;
  }

  lemma NestedNext<T>(init: seq<Error<T>>, r: Error<T>)
    ensures HasNested(init + [r]) <==> HasNested(init) || r.Agg?
  {
    if i :| 0 <= i < |init| && init[i].Agg? {
      assert (init + [r])[i].Agg?;
    }
    if r.Agg? {
      assert (init + [r])[|init|].Agg?;
    }
  }

  /** An aggregate in an aggregate, filtered by nothing, stays as it is. */
  lemma NestingStays(value: int)
    ensures var err := Agg([Agg([Leaf(value)])]); Filtered(err, []) == err && !Flat(err)
  {
    var inner, none := Agg([Leaf(value)]), [];
    assert [Leaf(value)][..0] == [] && [inner][..0] == [];
    assert Filtered(Leaf(value), none) == Leaf(value);
    assert FilteredAll([Leaf(value)], none) == [Leaf(value)];
    assert Filtered(inner, none) == inner;
    assert FilteredAll([inner], none) == [inner];
    assert [inner][0].Agg?;
  }
}
