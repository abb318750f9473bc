/** The analysis of samples: a persisted cursor over a growing table. */
module Analysis {
  import opened Sequences
  import opened Wrappers

  datatype Row = Row(id: nat, origin: string, kind: string, token: string)

  predicate Relevant(r: Row) {
    r.origin == "Central" && r.kind == "HTTPHeader"
  }

  /** The state of one analysis process and the cursor in the database. */
  datatype State = State(lastId: nat, lastPersistedId: nat, stored: nat, dispatched: seq<Row>)

  // ---------------------------------------------------------------- one tick

  function Highest(from: nat, rows: seq<Row>): (id: nat) {
    if rows == [] then from
    else
      var before, last := Highest(from, rows[..|rows| - 1]), rows[|rows| - 1].id;
      if last > before then last else before
  }

  function Dispatches(rows: seq<Row>): seq<Row> {
    if rows == [] then []
    else
      var last := rows[|rows| - 1];
      Dispatches(rows[..|rows| - 1]) + if Relevant(last) then [last] else []
  }

  /** A tick: the query fails or answers with rows, and storing the cursor may fail. */
  function Ticked(s: State, answer: Option<seq<Row>>, saves: bool): State {
    match answer
    case None => s
    case Some(rows) =>
      var lastId := Highest(s.lastId, rows);
      var saved := lastId != s.lastPersistedId && saves;
      State(lastId,
            if saved then lastId else s.lastPersistedId,
            if saved then lastId else s.stored,
            s.dispatched + Dispatches(rows))
  }

  /** A process starts from the stored cursor. */
  function Started(stored: nat, dispatched: seq<Row>): State {
    State(stored, stored, stored, dispatched)
  }

  class Analyzer {
    var lastId: nat
    var lastPersistedId: nat
    var stored: nat
    var dispatched: seq<Row>

    ghost function Value(): State
      reads this
    {
      State(lastId, lastPersistedId, stored, dispatched)
    }

    constructor (cursor: nat)
      ensures Value() == Started(cursor, [])
    {
      lastId, lastPersistedId, stored, dispatched := cursor, cursor, cursor, [];
    }

    method Tick(answer: Option<seq<Row>>, saves: bool)
      modifies this
      ensures Value() == Ticked(old(Value()), answer, saves)
    {
      if answer == None {
        return;
      }
      var rows := answer.value;
      for i := 0 to |rows|
        invariant lastPersistedId == old(lastPersistedId) && stored == old(stored)
        invariant lastId == Highest(old(lastId), rows[..i])
        invariant dispatched == old(dispatched) + Dispatches(rows[..i])
      {
        assert rows[..i + 1][..i] == rows[..i];
        if rows[i].id > lastId {
          lastId := rows[i].id;
        }
        if rows[i].origin == "Central" && rows[i].kind == "HTTPHeader" {
          dispatched := dispatched + [rows[i]];
        }
      }
      assert rows[..|rows|] == rows;
      if lastId != lastPersistedId {
        if saves {
          stored := lastId;
          lastPersistedId := lastId;
        }
      }
    }
  }

  lemma {:induction false} HighestBounds(from: nat, rows: seq<Row>)
    ensures Highest(from, rows) >= from
    ensures forall i :: 0 <= i < |rows| ==> rows[i].id <= Highest(from, rows)
    ensures Highest(from, rows) == from || exists i :: 0 <= i < |rows| && rows[i].id == Highest(from, rows)
  {
    if rows != [] {
      var init := rows[..|rows| - 1];
      HighestBounds(from, init);
      assert forall i :: 0 <= i < |init| ==> init[i] == rows[i];
    }
  }

  lemma {:induction false} DispatchesExact(rows: seq<Row>)
    ensures forall r :: r in Dispatches(rows) <==> r in rows && Relevant(r)
    ensures Distinct(rows) ==> Distinct(Dispatches(rows))
  {
    if rows != [] {
      var init, last := rows[..|rows| - 1], rows[|rows| - 1];
      assert rows == init + [last];
      DispatchesExact(init);
      hide Relevant;
      if Distinct(rows) {
        assert last !in init;
      }
    }
  }

  /** Dispatched are just central's header samples among the rows of an answer, in their order. */
  lemma {:induction false} DispatchesOf(rows: seq<Row>) returns (places: seq<nat>)
    ensures Filters(rows, Dispatches(rows), places, (r: Row) => r.origin == "Central" && r.kind == "HTTPHeader")
  {
    hide Dispatches, Filters;
    var keep := (r: Row) => r.origin == "Central" && r.kind == "HTTPHeader";
    if rows == [] {
      FiltersNone(keep);
      NoneDispatched();
      places := [];
    } else {
      var n := |rows| - 1;
      var before := DispatchesOf(rows[..n]);
      FiltersNext(rows[..n], Dispatches(rows[..n]), before, rows[n], keep);
      DispatchesNext(rows[..n], rows[n]);
      assert rows == rows[..n] + [rows[n]];
      places := if keep(rows[n]) then before + [n] else before;
    }
  }

  lemma NoneDispatched()
    ensures Dispatches([]) == []
  {
  }

  lemma DispatchesNext(rows: seq<Row>, r: Row)
    ensures Dispatches(rows + [r]) == Dispatches(rows) + if r.origin == "Central" && r.kind == "HTTPHeader" then [r] else []
    ensures Dispatches(rows) + [] == Dispatches(rows)
  {
    assert (rows + [r])[..|rows|] == rows;
  }

  // ---------------------------------------------------------------- one run

  /** The rows that are visible at a tick, and how the tick goes. */
  datatype Tick = Tick(visible: set<Row>, answer: Option<seq<Row>>, saves: bool)

  function Run(cursor: nat, ticks: seq<Tick>): State {
    if ticks == [] then Started(cursor, [])
    else
      var t := ticks[|ticks| - 1];
      Ticked(Run(cursor, ticks[..|ticks| - 1]), t.answer, t.saves)
  }

  /** The rows visible after these ticks, when the process started with these. */
  function Visible(seen: set<Row>, ticks: seq<Tick>): set<Row> {
    if ticks == [] then seen else ticks[|ticks| - 1].visible
  }

  /** An answer lists, in any order, each visible row above the cursor once. */
  ghost predicate Answers(rows: seq<Row>, visible: set<Row>, cursor: nat) {
    Distinct(rows) && forall r :: r in rows <==> r in visible && r.id > cursor
  }

  /** Rows never disappear and every answer is a query's. */
  ghost predicate Proper(seen: set<Row>, cursor: nat, ticks: seq<Tick>) {
    ticks != [] ==>
      var init, t := ticks[..|ticks| - 1], ticks[|ticks| - 1];
      && Proper(seen, cursor, init)
      && Visible(seen, init) <= t.visible
      && (t.answer.Some? ==> Answers(t.answer.value, t.visible, Run(cursor, init).lastId))
  }

  ghost function AtOrBelow(rows: set<Row>, id: nat): set<Row> {
    set r | r in rows && r.id <= id
  }

  /** The rows that became visible when the cursor had already reached or passed them. */
  ghost function Late(seen: set<Row>, cursor: nat, ticks: seq<Tick>): set<Row> {
    if ticks == [] then AtOrBelow(seen, cursor)
    else
      var init, t := ticks[..|ticks| - 1], ticks[|ticks| - 1];
      Late(seen, cursor, init) + AtOrBelow(t.visible - Visible(seen, init), Run(cursor, init).lastId)
  }

  ghost predicate IdIn(id: nat, rows: set<Row>) {
    exists r :: r in rows && r.id == id
  }

  /** What holds after every tick. */
  ghost predicate Inv(s: State, visible: set<Row>, late: set<Row>, cursor: nat) {
    && cursor <= s.stored == s.lastPersistedId <= s.lastId
    && (s.lastId == cursor || IdIn(s.lastId, visible))
    && (s.stored == cursor || IdIn(s.stored, visible))
    && (forall r :: r in late ==> r.id <= s.lastId)
    && Distinct(s.dispatched)
    && (forall r :: r in s.dispatched <==> r in visible && Relevant(r) && r !in late && r.id <= s.lastId)
  }

  lemma TickKeeps(s: State, visible: set<Row>, late: set<Row>, cursor: nat, t: Tick)
    requires Inv(s, visible, late, cursor) && visible <= t.visible
    requires t.answer.Some? ==> Answers(t.answer.value, t.visible, s.lastId)
    ensures Inv(Ticked(s, t.answer, t.saves), t.visible, late + AtOrBelow(t.visible - visible, s.lastId), cursor)
    ensures t.answer.Some? ==> forall r :: r in t.visible ==> r.id <= Ticked(s, t.answer, t.saves).lastId
  {
    if t.answer.Some? {
      var rows := t.answer.value;
      HighestBounds(s.lastId, rows);
      DispatchesExact(rows);
      DistinctJoin(s.dispatched, Dispatches(rows));
      hide Highest, Dispatches, Relevant, Distinct;
      forall r | r in t.visible ensures r.id <= Highest(s.lastId, rows) {
        if r.id > s.lastId {
          assert r in rows;
        }
      }
    }
  }

  lemma {:induction false} RunKeeps(seen: set<Row>, cursor: nat, ticks: seq<Tick>)
    requires Proper(seen, cursor, ticks)
    ensures Inv(Run(cursor, ticks), Visible(seen, ticks), Late(seen, cursor, ticks), cursor)
    ensures ticks != [] && ticks[|ticks| - 1].answer.Some?
        ==> forall r :: r in Visible(seen, ticks) ==> r.id <= Run(cursor, ticks).lastId
  {
    if ticks != [] {
      var init, t := ticks[..|ticks| - 1], ticks[|ticks| - 1];
      RunKeeps(seen, cursor, init);
      TickKeeps(Run(cursor, init), Visible(seen, init), Late(seen, cursor, init), cursor, t);
      hide Inv, Ticked;
    }
  }

  /**
   * After a tick with an answer, each relevant row has been dispatched exactly once if it became visible
   * above the cursor, and never otherwise, whatever the order of rows in the answers.
   */
  lemma DispatchedExactly(seen: set<Row>, cursor: nat, ticks: seq<Tick>)
    requires Proper(seen, cursor, ticks) && ticks != [] && ticks[|ticks| - 1].answer.Some?
    ensures var dispatched := Run(cursor, ticks).dispatched;
            && Distinct(dispatched)
            && forall r :: r in dispatched <==> r in Visible(seen, ticks) && Relevant(r) && r !in Late(seen, cursor, ticks)
  {
    hide Run, Visible, Late, Proper;
    RunKeeps(seen, cursor, ticks);
  }

  // ---------------------------------------------------------------- rows in id order

  /** New rows have larger ids than all visible before. */
  ghost predicate InIdOrder(seen: set<Row>, ticks: seq<Tick>) {
    ticks != [] ==>
      var init, t := ticks[..|ticks| - 1], ticks[|ticks| - 1];
      InIdOrder(seen, init) && Above(t.visible - Visible(seen, init), Visible(seen, init))
  }

  ghost predicate Above(rows: set<Row>, others: set<Row>) {
    forall r, q :: r in rows && q in others ==> r.id > q.id
  }

  /** Then no row above the first cursor is late except those the process itself starts above. */
  lemma {:induction false} NoneLate(first: nat, seen: set<Row>, cursor: nat, ticks: seq<Tick>)
    requires Proper(seen, cursor, ticks) && InIdOrder(seen, ticks)
    requires cursor == first || IdIn(cursor, seen)
    ensures forall r :: r in Late(seen, cursor, ticks) ==> r.id <= first || r in AtOrBelow(seen, cursor)
    ensures seen <= Visible(seen, ticks)
  {
    if ticks != [] {
      var init, t := ticks[..|ticks| - 1], ticks[|ticks| - 1];
      NoneLate(first, seen, cursor, init);
      RunKeeps(seen, cursor, init);
      var lastId := Run(cursor, init).lastId;
      assert lastId == first || IdIn(lastId, Visible(seen, init));
      hide Run, Late, Inv, Proper;
    }
  }

  /** In id order every relevant row above the cursor is dispatched exactly once. */
  lemma InOrderExactlyOnce(seen: set<Row>, cursor: nat, ticks: seq<Tick>)
    requires Proper(seen, cursor, ticks) && InIdOrder(seen, ticks)
    requires ticks != [] && ticks[|ticks| - 1].answer.Some?
    ensures var dispatched := Run(cursor, ticks).dispatched;
            && Distinct(dispatched)
            && forall r :: r in dispatched <==> r in Visible(seen, ticks) && Relevant(r) && r.id > cursor
  {
    DispatchedExactly(seen, cursor, ticks);
    NoneLate(cursor, seen, cursor, ticks);
    LateBelow(seen, cursor, ticks);
  }

  lemma {:induction false} LateBelow(seen: set<Row>, cursor: nat, ticks: seq<Tick>)
    requires Proper(seen, cursor, ticks)
    ensures forall r :: r in Visible(seen, ticks) && r.id <= cursor ==> r in Late(seen, cursor, ticks)
  {
    if ticks != [] {
      LateBelow(seen, cursor, ticks[..|ticks| - 1]);
      RunKeeps(seen, cursor, ticks[..|ticks| - 1]);
    }
  }

  // ---------------------------------------------------------------- restarts

  /** A process and what it had dispatched of an answer when it stopped in the middle. */
  datatype Process = Process(ticks: seq<Tick>, partial: seq<Row>)

  function StoredAfter(cursor: nat, ps: seq<Process>): nat {
    if ps == [] then cursor
    else Run(StoredAfter(cursor, ps[..|ps| - 1]), ps[|ps| - 1].ticks).stored
  }

  function VisibleAfter(ps: seq<Process>): set<Row> {
    if ps == [] then {} else Visible(VisibleAfter(ps[..|ps| - 1]), ps[|ps| - 1].ticks)
  }

  function DispatchedBy(cursor: nat, ps: seq<Process>): seq<Row> {
    if ps == [] then []
    else
      var init, p := ps[..|ps| - 1], ps[|ps| - 1];
      DispatchedBy(cursor, init) + Run(StoredAfter(cursor, init), p.ticks).dispatched + Dispatches(p.partial)
  }

  ghost predicate ProperProcesses(cursor: nat, ps: seq<Process>) {
    ps != [] ==>
      var init, ticks := ps[..|ps| - 1], ps[|ps| - 1].ticks;
      && ProperProcesses(cursor, init)
      && Proper(VisibleAfter(init), StoredAfter(cursor, init), ticks)
      && InIdOrder(VisibleAfter(init), ticks)
  }

  /** No process leaves the stored cursor beyond a row that none has dispatched. */
  lemma {:induction false} StoredCovers(cursor: nat, ps: seq<Process>)
    requires ProperProcesses(cursor, ps)
    ensures var stored := StoredAfter(cursor, ps);
            && stored >= cursor
            && (stored == cursor || IdIn(stored, VisibleAfter(ps)))
            && forall r :: r in VisibleAfter(ps) && Relevant(r) && cursor < r.id <= stored ==> r in DispatchedBy(cursor, ps)
  {
    if ps != [] {
      var init, p := ps[..|ps| - 1], ps[|ps| - 1];
      StoredCovers(cursor, init);
      ProcessCovers(cursor, VisibleAfter(init), StoredAfter(cursor, init), p.ticks);
    }
  }

  lemma ProcessCovers(first: nat, seen: set<Row>, cursor: nat, ticks: seq<Tick>)
    requires Proper(seen, cursor, ticks) && InIdOrder(seen, ticks)
    requires first <= cursor && (cursor == first || IdIn(cursor, seen))
    ensures var s := Run(cursor, ticks);
            && cursor <= s.stored <= s.lastId
            && (s.stored == cursor || IdIn(s.stored, Visible(seen, ticks)))
            && seen <= Visible(seen, ticks)
            && forall r :: r in Visible(seen, ticks) && Relevant(r) && first < r.id <= s.lastId
                 ==> r in s.dispatched || (r in seen && r.id <= cursor)
  {
    hide Run, Late, Proper, InIdOrder, Relevant;
    RunKeeps(seen, cursor, ticks);
    NoneLate(first, seen, cursor, ticks);
  }

  /** Restarts skip no row: once the last process has an answer, every relevant row has been dispatched. */
  lemma RestartsSkipNone(cursor: nat, ps: seq<Process>)
    requires ProperProcesses(cursor, ps) && ps != []
    requires var ticks := ps[|ps| - 1].ticks; ticks != [] && ticks[|ticks| - 1].answer.Some?
    ensures forall r :: r in VisibleAfter(ps) && Relevant(r) && r.id > cursor ==> r in DispatchedBy(cursor, ps)
  {
    hide Run, Visible, Inv, Relevant;
    var init, p := ps[..|ps| - 1], ps[|ps| - 1];
    StoredCovers(cursor, init);
    ProcessCovers(cursor, VisibleAfter(init), StoredAfter(cursor, init), p.ticks);
    RunKeeps(VisibleAfter(init), StoredAfter(cursor, init), p.ticks);
  }

  // ---------------------------------------------------------------- no row twice

  ghost predicate AllSaved(ticks: seq<Tick>) {
    forall i :: 0 <= i < |ticks| ==> ticks[i].saves
  }

  /** A process whose cursor is stored after every tick dispatches only rows between its cursors. */
  lemma {:induction false} SavedBetween(seen: set<Row>, cursor: nat, ticks: seq<Tick>)
    requires Proper(seen, cursor, ticks) && AllSaved(ticks)
    ensures var s := Run(cursor, ticks);
            s.stored == s.lastId >= cursor && forall r :: r in s.dispatched ==> cursor < r.id <= s.stored
  {
    if ticks != [] {
      var init, t := ticks[..|ticks| - 1], ticks[|ticks| - 1];
      assert t.saves;
      SavedBetween(seen, cursor, init);
      RunKeeps(seen, cursor, init);
      var s := Run(cursor, init);
      if t.answer.Some? {
        HighestBounds(s.lastId, t.answer.value);
        DispatchesExact(t.answer.value);
      }
      hide Highest, Dispatches, Proper;
    }
  }

  ghost predicate NothingFailed(ps: seq<Process>) {
    forall i :: 0 <= i < |ps| ==> AllSaved(ps[i].ticks) && ps[i].partial == []
  }

  /** When each cursor is stored and no process stops within an answer, restarts repeat no row. */
  lemma {:induction false} RestartsRepeatNone(cursor: nat, ps: seq<Process>)
    requires ProperProcesses(cursor, ps) && NothingFailed(ps)
    ensures Distinct(DispatchedBy(cursor, ps))
    ensures StoredAfter(cursor, ps) >= cursor
    ensures forall r :: r in DispatchedBy(cursor, ps) ==> cursor < r.id <= StoredAfter(cursor, ps)
  {
    if ps != [] {
      var init, p := ps[..|ps| - 1], ps[|ps| - 1];
      RestartsRepeatNone(cursor, init);
      RunKeeps(VisibleAfter(init), StoredAfter(cursor, init), p.ticks);
      SavedBetween(VisibleAfter(init), StoredAfter(cursor, init), p.ticks);
      var before, now := DispatchedBy(cursor, init), Run(StoredAfter(cursor, init), p.ticks).dispatched;
      DistinctJoin(before, now);
      assert DispatchedBy(cursor, ps) == before + now + [] == before + now;
      hide Run, Proper, Distinct, Inv;
    }
  }

  lemma {:induction false} DispatchedRelevant(cursor: nat, ps: seq<Process>)
    requires ProperProcesses(cursor, ps)
    ensures forall r :: r in DispatchedBy(cursor, ps) ==> Relevant(r)
  {
    if ps != [] {
      var init, p := ps[..|ps| - 1], ps[|ps| - 1];
      DispatchedRelevant(cursor, init);
      RunKeeps(VisibleAfter(init), StoredAfter(cursor, init), p.ticks);
      DispatchesExact(p.partial);
      hide Run, Proper, Dispatches, Late, Visible;
    }
  }

  /** What one more process adds. */
  lemma OneProcess(cursor: nat, ps: seq<Process>, p: Process)
    requires ProperProcesses(cursor, ps + [p]) && p.partial == []
    ensures ProperProcesses(cursor, ps) && Proper(VisibleAfter(ps), StoredAfter(cursor, ps), p.ticks)
    ensures InIdOrder(VisibleAfter(ps), p.ticks)
    ensures DispatchedBy(cursor, ps + [p]) == DispatchedBy(cursor, ps) + Run(StoredAfter(cursor, ps), p.ticks).dispatched
  {
    hide Run, Proper, InIdOrder;
    assert (ps + [p])[..|ps|] == ps;
    var all := DispatchedBy(cursor, ps) + Run(StoredAfter(cursor, ps), p.ticks).dispatched;
    assert all + [] == all;
  }

  lemma NotDistinct<T>(a: seq<T>, b: seq<T>, x: T)
    requires x in a && x in b
    ensures !Distinct(a + b)
  {
    var i :| 0 <= i < |a| && a[i] == x;
    var j :| 0 <= j < |b| && b[j] == x;
    assert (a + b)[i] == (a + b)[|a| + j];
  }

  /**
   * A restarted process that gets an answer repeats no row if and only if no row has been dispatched
   * above the cursor it starts from.
   */
  lemma RestartExact(cursor: nat, ps: seq<Process>, p: Process)
    requires ProperProcesses(cursor, ps + [p]) && p.partial == []
    requires p.ticks != [] && p.ticks[|p.ticks| - 1].answer.Some?
    requires Distinct(DispatchedBy(cursor, ps)) && forall r :: r in DispatchedBy(cursor, ps) ==> r in VisibleAfter(ps)
    ensures Distinct(DispatchedBy(cursor, ps + [p]))
       <==> forall r :: r in DispatchedBy(cursor, ps) ==> r.id <= StoredAfter(cursor, ps)
  {
    hide Run, Visible, Late, Proper, InIdOrder, ProperProcesses, DispatchedBy, StoredAfter, VisibleAfter, Relevant, Distinct;
    OneProcess(cursor, ps, p);
    var before, seen, stored := DispatchedBy(cursor, ps), VisibleAfter(ps), StoredAfter(cursor, ps);
    var now := Run(stored, p.ticks).dispatched;
    DispatchedExactly(seen, stored, p.ticks);
    LateBelow(seen, stored, p.ticks);
    NoneLate(stored, seen, stored, p.ticks);
    if r :| r in before && r.id > stored {
      DispatchedRelevant(cursor, ps);
      assert r in now;
      NotDistinct(before, now, r);
    } else {
      DistinctJoin(before, now);
    }
  }

  /** A row that was dispatched before its cursor could be stored is dispatched again after a restart. */
  lemma UnsavedRepeats() returns (ps: seq<Process>, r: Row)
    ensures ProperProcesses(0, ps) && !Distinct(DispatchedBy(0, ps)) && multiset(DispatchedBy(0, ps))[r] == 2
  {
    r := Row(1, "Central", "HTTPHeader", "a");
    var t := Tick({r}, Some([r]), false);
    var p := Process([t], []);
    ps := [p, p];
    assert ps[..1] == [p] && [p][..0] == [] && [t][..0] == [] && [r][..0] == [];
    assert Dispatches([r]) == [r] && Highest(0, [r]) == 1;
    assert Answers([r], {r}, 0);
    assert Run(0, []) == Started(0, []);
    assert Run(0, [t]) == State(1, 0, 0, [r]);
    assert StoredAfter(0, []) == 0 && StoredAfter(0, [p]) == 0;
    assert Proper({}, 0, []) && Proper({r}, 0, []);
    assert Proper({}, 0, [t]) && Proper({r}, 0, [t]);
    assert Visible({}, [t]) == {r} && Visible({}, []) == {} && Visible({r}, []) == {r};
    assert VisibleAfter([]) == {} && VisibleAfter([p]) == {r};
    assert InIdOrder({}, []) && InIdOrder({r}, []);
    assert InIdOrder({}, [t]) && InIdOrder({r}, [t]);
    assert ProperProcesses(0, []);
    assert ProperProcesses(0, [p]);
    assert Dispatches([]) == [];
    assert DispatchedBy(0, [p]) == [r];
    assert DispatchedBy(0, ps) == [r, r];
    assert [r, r][0] == [r, r][1];
  }

  /** A smaller id that becomes visible after a larger one is never dispatched. */
  lemma LateIsLost() returns (ticks: seq<Tick>, lost: Row)
    ensures Proper({}, 0, ticks) && ticks != [] && ticks[|ticks| - 1].answer.Some?
    ensures lost in Visible({}, ticks) && Relevant(lost) && lost.id > 0 && lost !in Run(0, ticks).dispatched
  {
    lost := Row(1, "Central", "HTTPHeader", "a");
    var other := Row(2, "Central", "HTTPHeader", "b");
    var t1, t2 := Tick({other}, Some([other]), true), Tick({other, lost}, Some([]), true);
    ticks := [t1, t2];
    assert ticks[..1] == [t1] && [t1][..0] == [];
    assert [other][..0] == [];
    assert Run(0, []) == Started(0, []);
    assert Highest(0, [other]) == 2;
    assert Answers([other], {other}, 0);
    assert Proper({}, 0, []);
    assert Proper({}, 0, [t1]);
    assert Run(0, [t1]) == Ticked(Started(0, []), t1.answer, true);
    assert Dispatches([other]) == [other];
    assert Run(0, ticks).dispatched == [other] + [];
  }
}
