/** What each answer of the settings handlers means for the list, in terms of the entries alone. */
module SettingsAnswers {
  import opened Connections
  import opened Sequences
  import opened Settings

  /** Some entry has the identifier. */
  ghost predicate Named(all: seq<Connection>, id: string) {
    exists i :: 0 <= i < |all| && all[i].id == id
  }

  /** `i` is the last entry with the identifier. */
  predicate LastNamed(all: seq<Connection>, id: string, i: nat) {
    i < |all| && all[i].id == id && forall j :: i < j < |all| ==> all[j].id != id
  }

  lemma {:induction false} LastIndexLast(all: seq<Connection>, id: string)
    ensures LastIndex(all, id).Some? <==> Named(all, id)
    ensures LastIndex(all, id).Some? ==> LastNamed(all, id, LastIndex(all, id).value)
  {
    if all != [] {
      LastIndexLast(all[..|all| - 1], id);
    }
  }

  // ---------------------------------------------------------------- enabled connections

  /** The enabled connections are the entries that are not disabled, in order. */
  lemma {:induction false} EnabledExact(all: seq<Connection>) returns (places: seq<nat>)
    ensures Filters(all, Enabled(all), places, (c: Connection) => !c.disabled)
  {
    hide Enabled, Filters;
    var keep := (c: Connection) => !c.disabled;
    if all == [] {
      FiltersNone(keep);
      places := [];
      NoneEnabled();
    } else {
      var n := |all| - 1;
      var before := EnabledExact(all[..n]);
      FiltersNext(all[..n], Enabled(all[..n]), before, all[n], keep);
      EnabledLast(all);
      LastAfter(all);
      NothingAfter(Enabled(all[..n]));
      places := if !all[n].disabled then before + [n] else before;
    }
  }

  lemma NoneEnabled()
    ensures Enabled([]) == []
  {
  }

  lemma TwoEnabled(all: seq<Connection>, i: nat, j: nat)
    requires i < |all| && j < |all| && i != j && !all[i].disabled && !all[j].disabled
    ensures |Enabled(all)| >= 2
  {
    hide Enabled;
    var places := EnabledExact(all);
    TwoPlaces(places, i, j);
  }

  // ---------------------------------------------------------------- toggling

  ghost predicate FlippedAt(all: seq<Connection>, now: seq<Connection>, i: nat)
    requires i < |all|
  {
    && |now| == |all| && now[i].disabled != all[i].disabled && now[i].(disabled := all[i].disabled) == all[i]
    && forall j :: 0 <= j < |all| && j != i ==> now[j] == all[j]
  }

  /**
   * A toggle is refused for an unknown identifier, and when the last entry with it is the only enabled
   * one. Otherwise it flips that entry and nothing else.
   */
  lemma ToggleExact(all: seq<Connection>, id: string, i: nat)
    ensures var (now, answer) := Answered(all, ToggleRequest(id));
            && (answer == NotFound <==> !Named(all, id))
            && (answer != Done ==> now == all)
            && (LastNamed(all, id, i) ==>
                 && (answer == Forbidden <==> !all[i].disabled && forall j :: 0 <= j < |all| && j != i ==> all[j].disabled)
                 && (answer == Forbidden || answer == Done)
                 && (answer == Done ==> FlippedAt(all, now, i)))
  {
    hide LastIndex, Enabled;
    LastIndexLast(all, id);
    if LastNamed(all, id, i) {
      assert LastIndex(all, id).value == i;
      if !all[i].disabled {
        if |Enabled(all)| >= 2 {
          var j := OtherEnabled(all, i);
          assert j != i && !all[j].disabled;
        } else if j :| 0 <= j < |all| && j != i && !all[j].disabled {
          TwoEnabled(all, i, j);
        }
      }
    }
  }

  // ---------------------------------------------------------------- deleting

  lemma {:induction false} WithoutExact(all: seq<Connection>, id: string) returns (places: seq<nat>)
    ensures Filters(all, Without(all, id), places, (c: Connection) => c.id != id)
  {
    hide Without, Filters;
    var keep := (c: Connection) => c.id != id;
    if all == [] {
      FiltersNone(keep);
      places := [];
      WithoutNone(id);
    } else {
      var n := |all| - 1;
      var before := WithoutExact(all[..n], id);
      FiltersNext(all[..n], Without(all[..n], id), before, all[n], keep);
      WithoutLast(all, id);
      LastAfter(all);
      places := if all[n].id != id then before + [n] else before;
    }
  }

  /** An entry with another identifier is enabled. */
  ghost predicate OtherStays(all: seq<Connection>, id: string) {
    exists i :: 0 <= i < |all| && all[i].id != id && !all[i].disabled
  }

  ghost predicate Guarded(all: seq<Connection>, id: string) {
    exists i :: 0 <= i < |all| && all[i].id == id && all[i].isProtected
  }

  /**
   * A deletion is refused for an unknown identifier, for a protected entry and when no other entry is
   * enabled. Otherwise all entries with the identifier go, and the others stay in order.
   */
  lemma DeleteExact(all: seq<Connection>, id: string) returns (places: seq<nat>)
    ensures var (now, answer) := Answered(all, DeleteRequest(id));
            && (answer == NotFound <==> !Named(all, id))
            && (answer == Forbidden <==> Guarded(all, id) || (Named(all, id) && !OtherStays(all, id)))
            && (answer == Done <==> Named(all, id) && !Guarded(all, id) && OtherStays(all, id))
            && (answer != Done ==> now == all)
            && (answer == Done ==> Filters(all, now, places, (c: Connection) => c.id != id) && |now| < |all|)
            && (answer == Done ==> forall c :: c in now ==> c.id != id)
  {
    hide LastIndex, Without, Enabled;
    places := WithoutExact(all, id);
    LastIndexLast(all, id);
    StaysExact(all, id);
    if i :| 0 <= i < |all| && all[i].id == id {
      FewerPlaces(all, Without(all, id), places, i);
    }
  }

  lemma StaysExact(all: seq<Connection>, id: string)
    ensures Enabled(Without(all, id)) != [] <==> OtherStays(all, id)
  {
    hide Enabled;
    var left := Without(all, id);
    if OtherStays(all, id) {
      var i :| 0 <= i < |all| && all[i].id != id && !all[i].disabled;
      assert all[i] in left;
      var k :| 0 <= k < |left| && left[k] == all[i];
    }
    if k :| 0 <= k < |left| && !left[k].disabled {
      assert left[k] in left && left[k] in all;
      var i :| 0 <= i < |all| && all[i] == left[k];
    }
  }

  // ---------------------------------------------------------------- posting

  /** The pasted object is listed already, whatever its flags. */
  ghost predicate Listed(all: seq<Connection>, e: Encoded)
    requires e.Payload?
  {
    exists i :: 0 <= i < |all| && all[i].transport == e.transport && all[i].secret == e.secret && all[i].addr == e.addr
  }

  /** The entry carries what the pasted object does. */
  predicate Carries(c: Connection, e: Encoded)
    requires e.Payload?
  {
    && c.transport == e.transport && c.secret == e.secret && c.addr == e.addr
    && c.disabled == e.disabled && c.isProtected == e.isProtected && c.id == Id(c)
  }

  /**
   * A post is accepted exactly when the text decodes, its identifier is empty or known and what it
   * carries is not listed. Then the object is appended, or it replaces the last entry with the identifier.
   */
  lemma PostExact(all: seq<Connection>, form: Form, i: nat)
    ensures var (now, answer) := Answered(all, PostRequest(form));
            && (answer == Done <==> form.encoded.Payload? && (form.id == "" || Named(all, form.id)) && !Listed(all, form.encoded))
            && (answer != Done ==> now == all && answer.Rejected?)
            && (answer == Done && form.id == "" ==>
                 |now| == |all| + 1 && now[..|all|] == all && Carries(now[|all|], form.encoded))
            && (answer == Done && form.id != "" && LastNamed(all, form.id, i) ==>
                 && |now| == |all| && Carries(now[i], form.encoded)
                 && forall j :: 0 <= j < |all| && j != i ==> now[j] == all[j])
  {
    hide LastIndex;
    LastIndexLast(all, form.id);
    ListedExact(all, form);
    hide Has;
  }

  lemma ListedExact(all: seq<Connection>, form: Form)
    ensures form.encoded.Payload? ==> (Has(all, Decoded(form.encoded)) <==> Listed(all, form.encoded))
  {
    if form.encoded.Payload? {
      var c := Decoded(form.encoded);
      forall i | 0 <= i < |all|
        ensures Same(all[i], c) <==>
                  all[i].transport == form.encoded.transport && all[i].secret == form.encoded.secret && all[i].addr == form.encoded.addr
      {
      }
    }
  }

  /** The order of the checks. */
  function Rank(reason: Invalid): nat {
    match reason case Required => 0 case Formatting => 1 case UnknownId(_) => 2 case Duplicate => 3
  }

  /** A rejected post gives each reason that applies once, in the order of the checks. */
  lemma ReasonsExact(all: seq<Connection>, form: Form)
    ensures var answer := Answered(all, PostRequest(form)).1;
            answer.Rejected? ==>
              && (Required in answer.invalids <==> form.encoded == Missing)
              && (Formatting in answer.invalids <==> !form.encoded.Payload?)
              && (UnknownId(form.id) in answer.invalids <==> form.id != "" && !Named(all, form.id))
              && (Duplicate in answer.invalids <==>
                    if form.encoded.Payload? then Listed(all, form.encoded)
                    else exists i :: 0 <= i < |all| && all[i].transport == all[i].secret == all[i].addr == "")
              && Ascending(answer.invalids)
  {
    hide LastIndex, Has, Invalids, ReasonsOf, Listed, Named, Ascending;
    LastIndexLast(all, form.id);
    ListedExact(all, form);
    ZeroListed(all);
    InvalidsExact(all, form);
    ReasonsOnce(form.encoded == Missing, !form.encoded.Payload?, form.id != "" && LastIndex(all, form.id).None?,
                Has(all, Decoded(form.encoded)), form.id);
  }

  /** The reasons for these four findings. */
  function ReasonsOf(a: bool, b: bool, c: bool, d: bool, id: string): seq<Invalid> {
    Noted(Noted(Noted(Noted([], Required, a), Formatting, b), UnknownId(id), c), Duplicate, d)
  }

  function Noted(r: seq<Invalid>, x: Invalid, found: bool): seq<Invalid> {
    if found then r + [x] else r
  }

  lemma InvalidsExact(all: seq<Connection>, form: Form)
    ensures Answered(all, PostRequest(form)).1.Rejected? ==> Answered(all, PostRequest(form)).1 == Rejected(Invalids(all, form))
    ensures Invalids(all, form)
         == ReasonsOf(form.encoded == Missing, !form.encoded.Payload?, form.id != "" && LastIndex(all, form.id).None?,
                      Has(all, Decoded(form.encoded)), form.id)
  {
    hide LastIndex, Has;
  }

  predicate Ascending(r: seq<Invalid>) {
    forall i, j :: 0 <= i < j < |r| ==> Rank(r[i]) < Rank(r[j])
  }

  predicate Under(r: seq<Invalid>, bound: nat) {
    forall i :: 0 <= i < |r| ==> Rank(r[i]) < bound
  }

  /** Each finding comes after all that are checked before it. */
  lemma OnceMore(r: seq<Invalid>, x: Invalid, found: bool)
    requires Ascending(r) && Under(r, Rank(x))
    ensures var more := Noted(r, x, found);
            Ascending(more) && Under(more, Rank(x) + 1) && forall y :: y in more <==> y in r || (found && y == x)
  {
  }

  lemma Ranks(id: string)
    ensures Rank(Required) == 0 && Rank(Formatting) == 1 && Rank(UnknownId(id)) == 2 && Rank(Duplicate) == 3
    ensures Ascending([]) && Under([], 0)
  {
  }

  lemma ReasonsOnce(a: bool, b: bool, c: bool, d: bool, id: string)
    ensures var r := ReasonsOf(a, b, c, d, id);
            && (Required in r <==> a) && (Formatting in r <==> b) && (UnknownId(id) in r <==> c) && (Duplicate in r <==> d)
            && Ascending(r)
  {
    hide Ascending, Under, Rank, Noted;
    Ranks(id);
    var r1 := Noted([], Required, a);
    var r2 := Noted(r1, Formatting, b);
    var r3 := Noted(r2, UnknownId(id), c);
    OnceMore([], Required, a);
    OnceMore(r1, Formatting, b);
    OnceMore(r2, UnknownId(id), c);
    OnceMore(r3, Duplicate, d);
  }

  /** What a failed decoding leaves behind is listed only as an empty entry. */
  lemma ZeroListed(all: seq<Connection>)
    ensures Has(all, ZERO) <==> exists i :: 0 <= i < |all| && all[i].transport == all[i].secret == all[i].addr == ""
  {
    forall i | 0 <= i < |all| ensures Same(all[i], ZERO) <==> all[i].transport == all[i].secret == all[i].addr == "" {
    }
  }
}
