/** The connection manager's record of events: a bounded history and a current state per connection. */
module Histories {
  datatype State = Init | ServiceInit | ServiceStart | Test | Up | Backoff
                 | WrongProtocol | Failed | NotConfigured | TestFailed | Ended

  datatype Event = Event(state: State, connection: string, service: string)

  /** A history longer than this is trimmed to this before the next event is appended. */
  const LIMIT: nat := 20

  /** The events of one connection, in order. */
  function LogOf(log: seq<Event>, id: string): seq<Event> {
    if log == [] then []
    else
      var last := log[|log| - 1];
      LogOf(log[..|log| - 1], id) + if last.connection == id then [last] else []
  }

  /** What is kept of a connection's events: all of them, or the first twenty and the last. */
  function Kept(events: seq<Event>): seq<Event> {
    if |events| <= LIMIT + 1 then events else events[..LIMIT] + [events[|events| - 1]]
  }

  predicate Noisy(e: Event) {
    e.state in {Up, Failed, TestFailed}
  }

  ghost predicate Quiet(log: seq<Event>) {
    forall i :: 0 <= i < |log| ==> !Noisy(log[i])
  }

  /** The notification an event causes: the first success is silent when nothing failed before it. */
  ghost function Notices(before: seq<Event>, e: Event): seq<string> {
    match e.state
    case Up => if Quiet(before) then [] else ["transport_connected_message"]
    case Failed => ["transport_error_message"]
    case TestFailed => ["transport_retry"]
    case _ => []
  }

  lemma LogOfNext(log: seq<Event>, e: Event, id: string)
    ensures LogOf(log + [e], id) == LogOf(log, id) + if e.connection == id then [e] else []
  {
    assert (log + [e])[..|log|] == log;
  }

  lemma KeptNext(events: seq<Event>, e: Event)
    ensures var kept := Kept(events);
            Kept(events + [e]) == (if |kept| > LIMIT then kept[..LIMIT] else kept) + [e]
  {
  }

  lemma {:induction false} LogOfOnly(log: seq<Event>, id: string)
    ensures forall i :: 0 <= i < |LogOf(log, id)| ==> LogOf(log, id)[i].connection == id
    ensures multiset(LogOf(log, id)) <= multiset(log)
  {
    if log != [] {
      LogOfOnly(log[..|log| - 1], id);
      assert log == log[..|log| - 1] + [log[|log| - 1]];
    }
  }

  ghost predicate OfConnection(events: seq<Event>, id: string) {
    forall i :: 0 <= i < |events| ==> events[i].connection == id
  }

  /** What is kept of a connection are events of that connection alone, each as often as it was handled at most. */
  lemma KeptOnly(log: seq<Event>, id: string)
    ensures OfConnection(Kept(LogOf(log, id)), id)
    ensures multiset(Kept(LogOf(log, id))) <= multiset(log)
  {
    hide LogOf;
    LogOfOnly(log, id);
    var events := LogOf(log, id);
    if |events| > LIMIT + 1 {
      var last := |events| - 1;
      assert events == events[..LIMIT] + events[LIMIT..last] + [events[last]];
    }
  }

  /** The current state is always defined: it is the state of the last event, whether or not history was dropped. */
  lemma CurrentIsLast(events: seq<Event>)
    requires events != []
    ensures Kept(events) != [] && Kept(events)[|Kept(events)| - 1] == events[|events| - 1]
    ensures |Kept(events)| <= 21
    ensures |Kept(events)| == |events| || |Kept(events)| == 21
  {
  }

  /** A connection is current when it has events and the last of them is not its end. */
  ghost predicate Running(events: seq<Event>) {
    events != [] && events[|events| - 1].state != Ended
  }

  ghost predicate HistoryKept(histories: map<string, seq<Event>>, log: seq<Event>, id: string) {
    var events := LogOf(log, id);
    && (id in histories <==> events != [])
    && (id in histories ==> histories[id] == Kept(events))
  }

  ghost predicate CurrentKept(currents: map<string, Event>, log: seq<Event>, id: string) {
    var events := LogOf(log, id);
    && (id in currents <==> Running(events))
    && (id in currents ==> currents[id] == events[|events| - 1])
  }

  function Appended(histories: map<string, seq<Event>>, e: Event): (events: seq<Event>)
    ensures events != [] && events[|events| - 1] == e
  {
    var id := e.connection;
    if id !in histories then [e]
    else if |histories[id]| > LIMIT then histories[id][..LIMIT] + [e]
    else histories[id] + [e]
  }

  function Updated(currents: map<string, Event>, e: Event): map<string, Event> {
    if e.state == Ended then currents - {e.connection} else currents[e.connection := e]
  }

  lemma HistoryNext(histories: map<string, seq<Event>>, log: seq<Event>, e: Event, id: string)
    requires HistoryKept(histories, log, id)
    ensures HistoryKept(histories[e.connection := Appended(histories, e)], log + [e], id)
  {
    hide LogOf;
    LogOfNext(log, e, id);
    KeptNext(LogOf(log, id), e);
    if id == e.connection && id !in histories {
      assert LogOf(log, id) + [e] == [e];
    }
  }

  lemma CurrentNext(currents: map<string, Event>, log: seq<Event>, e: Event, id: string)
    requires CurrentKept(currents, log, id)
    ensures CurrentKept(Updated(currents, e), log + [e], id)
  {
    hide LogOf;
    LogOfNext(log, e, id);
  }

  /** Every history holds what is kept of that connection's part of the log. */
  ghost predicate HistoriesKept(histories: map<string, seq<Event>>, log: seq<Event>) {
    forall id :: HistoryKept(histories, log, id)
  }

  /** A connection is current exactly while its last event is not its end, and then by that event. */
  ghost predicate CurrentsKept(currents: map<string, Event>, log: seq<Event>) {
    forall id :: CurrentKept(currents, log, id)
  }

  lemma HistoriesNext(histories: map<string, seq<Event>>, log: seq<Event>, e: Event)
    requires HistoriesKept(histories, log)
    ensures HistoriesKept(histories[e.connection := Appended(histories, e)], log + [e])
    ensures Appended(histories, e) == Kept(LogOf(log + [e], e.connection))
  {
    hide LogOf, Kept, Appended;
    var h := histories[e.connection := Appended(histories, e)];
    forall id ensures HistoryKept(h, log + [e], id) {
      HistoryNext(histories, log, e, id);
    }
    assert HistoryKept(h, log + [e], e.connection);
  }

  lemma CurrentsNext(currents: map<string, Event>, log: seq<Event>, e: Event)
    requires CurrentsKept(currents, log)
    ensures CurrentsKept(Updated(currents, e), log + [e])
  {
    hide CurrentKept, Updated;
    var c := Updated(currents, e);
    forall id ensures CurrentKept(c, log + [e], id) {
      CurrentNext(currents, log, e, id);
    }
  }

  lemma QuietNext(log: seq<Event>, e: Event)
    ensures Quiet(log + [e]) == (Quiet(log) && !Noisy(e))
  {
    assert forall i :: 0 <= i < |log| ==> (log + [e])[i] == log[i];
    assert (log + [e])[|log|] == e;
  }

  // ---------------------------------------------------------------- notices over a whole log

  /** Everything the user is told while the log is handled. */
  ghost function Told(log: seq<Event>): seq<string> {
    if log == [] then [] else Told(log[..|log| - 1]) + Notices(log[..|log| - 1], log[|log| - 1])
  }

  function Count(log: seq<Event>, state: State): nat {
    if log == [] then 0
    else Count(log[..|log| - 1], state) + if log[|log| - 1].state == state then 1 else 0
  }

  /** The first success, failure or failed test of the log is a success. */
  ghost predicate StartsWell(log: seq<Event>) {
    exists i :: 0 <= i < |log| && log[i].state == Up && forall j :: 0 <= j < i ==> log[j].state !in {Up, Failed, TestFailed}
  }

  lemma StartsWellNext(log: seq<Event>, e: Event)
    ensures StartsWell(log + [e]) <==> StartsWell(log) || (e.state == Up && Quiet(log))
    ensures StartsWell(log) ==> !Quiet(log)
  {
    var more := log + [e];
    assert more[|log|] == e && forall i :: 0 <= i < |log| ==> more[i] == log[i];
    if StartsWell(log) {
      var i :| 0 <= i < |log| && log[i].state == Up && forall j :: 0 <= j < i ==> log[j].state !in {Up, Failed, TestFailed};
      assert Noisy(log[i]) && more[i].state == Up;
      assert StartsWell(more);
    }
    if e.state == Up && Quiet(log) {
      assert forall j :: 0 <= j < |log| ==> !Noisy(log[j]);
      assert more[|log|].state == Up;
    }
    if StartsWell(more) {
      var i :| 0 <= i < |more| && more[i].state == Up && forall j :: 0 <= j < i ==> more[j].state !in {Up, Failed, TestFailed};
      if i < |log| {
        assert log[i].state == Up;
      } else {
        assert forall j :: 0 <= j < |log| ==> !Noisy(log[j]);
      }
    }
  }

  /**
   * The user is told of every failure and every failed test once, and of every success once except a
   * first one with nothing gone wrong before it; of nothing else.
   */
  lemma {:induction false} ToldExact(log: seq<Event>)
    ensures var told := multiset(Told(log));
            && told["transport_error_message"] == Count(log, Failed)
            && told["transport_retry"] == Count(log, TestFailed)
            && told["transport_connected_message"] == Count(log, Up) - (if StartsWell(log) then 1 else 0)
    ensures |Told(log)| == Count(log, Failed) + Count(log, TestFailed) + Count(log, Up) - if StartsWell(log) then 1 else 0
  {
    hide *;
    if log == [] {
      NothingTold();
    } else {
      var init, e := log[..|log| - 1], log[|log| - 1];
      ToldExact(init);
      StartsWellNext(init, e);
      NoticesCounted(Told(init), init, e);
      assert log == init + [e];
      ToldNext(init, e);
    }
  }

  lemma NothingTold()
    ensures Told([]) == [] && !StartsWell([]) && forall state :: Count([], state) == 0
  {
  }

  lemma ToldNext(log: seq<Event>, e: Event)
    ensures Told(log + [e]) == Told(log) + Notices(log, e)
    ensures forall state :: Count(log + [e], state) == Count(log, state) + if e.state == state then 1 else 0
  {
    hide Notices;
    assert (log + [e])[..|log|] == log;
  }

  /** What one event adds. */
  lemma NoticesCounted(told: seq<string>, before: seq<Event>, e: Event)
    ensures var now := told + Notices(before, e);
            && multiset(now)["transport_error_message"] == multiset(told)["transport_error_message"] + (if e.state == Failed then 1 else 0)
            && multiset(now)["transport_retry"] == multiset(told)["transport_retry"] + (if e.state == TestFailed then 1 else 0)
            && multiset(now)["transport_connected_message"] == multiset(told)["transport_connected_message"]
                 + (if e.state == Up && !Quiet(before) then 1 else 0)
            && |now| == |told| + (if e.state == Failed || e.state == TestFailed || (e.state == Up && !Quiet(before)) then 1 else 0)
  {
    hide Quiet;
    assert |"transport_error_message"| == 23 && |"transport_retry"| == 15 && |"transport_connected_message"| == 27;
    assert multiset(told + Notices(before, e)) == multiset(told) + multiset(Notices(before, e));
  }

  /** What one turn of the loop has to keep. */
  ghost predicate InStep(histories: map<string, seq<Event>>, currents: map<string, Event>, quiet: bool, log: seq<Event>) {
    HistoriesKept(histories, log) && CurrentsKept(currents, log) && quiet == Quiet(log)
  }

  lemma EventRecorded(histories: map<string, seq<Event>>, currents: map<string, Event>, log: seq<Event>, e: Event)
    requires InStep(histories, currents, Quiet(log), log)
    ensures InStep(histories[e.connection := Appended(histories, e)], Updated(currents, e), Quiet(log) && !Noisy(e), log + [e])
    ensures Appended(histories, e) == Kept(LogOf(log + [e], e.connection))
    ensures OfConnection(Appended(histories, e), e.connection)
  {
    hide LogOf, Kept, HistoriesKept, CurrentsKept, Quiet, Appended, Updated, Noisy, OfConnection;
    KeptOnly(log + [e], e.connection);
    HistoriesNext(histories, log, e);
    CurrentsNext(currents, log, e);
    QuietNext(log, e);
  }

  class ConnectionManager {
    var histories: map<string, seq<Event>>
    var currents: map<string, Event>
    var firstUpNoProblems: bool
    /** Every event handled so far. */
    ghost var log: seq<Event>

    ghost predicate Valid()
      reads this
    {
      InStep(histories, currents, firstUpNoProblems, log)
    }

    constructor ()
      ensures Valid() && log == []
    {
      histories, currents, firstUpNoProblems, log := map[], map[], true, [];
    }

    /** Trims and extends the history of the event's connection. */
    method Append(event: Event) returns (emitted: seq<Event>)
      modifies this`histories
      ensures histories == old(histories)[event.connection := Appended(old(histories), event)]
      ensures emitted == Appended(old(histories), event)
    {
      var id := event.connection;
      if id !in histories {
        histories := histories[id := []];
      } else if |histories[id]| > LIMIT {
        histories := histories[id := histories[id][..LIMIT]];
      }
      emitted := histories[id] + [event];
      assert [] + [event] == [event];
      histories := histories[id := emitted];
    }

    method Track(event: Event)
      modifies this`currents
      ensures currents == Updated(old(currents), event)
    {
      currents := currents[event.connection := event];
      if event.state == Ended {
        currents := currents - {event.connection};
      }
    }

    method Notify(event: Event) returns (notices: seq<string>)
      requires firstUpNoProblems == Quiet(log)
      modifies this`firstUpNoProblems
      ensures notices == Notices(log, event) && firstUpNoProblems == (Quiet(log) && !Noisy(event))
    {
      notices := [];
      match event.state {
        case Up =>
          if firstUpNoProblems {
            firstUpNoProblems := false;
          } else {
            notices := ["transport_connected_message"];
          }
        case Failed =>
          firstUpNoProblems := false;
          notices := ["transport_error_message"];
        case TestFailed =>
          firstUpNoProblems := false;
          notices := ["transport_retry"];
        case _ =>
      }
    }

    /** One turn of the event loop. */
    method Handle(event: Event) returns (emitted: seq<Event>, notices: seq<string>)
      requires Valid()
      modifies this
      ensures Valid() && log == old(log) + [event]
      ensures emitted == Kept(LogOf(log, event.connection)) && emitted != [] && emitted[|emitted| - 1] == event
      ensures OfConnection(emitted, event.connection)
      ensures notices == Notices(old(log), event)
    {
      assert firstUpNoProblems == Quiet(log);
      EventRecorded(histories, currents, log, event);
      hide InStep, OfConnection, LogOf, Kept, HistoriesKept, CurrentsKept, Quiet, Appended, Notices, Updated, Noisy;
      emitted := Append(event);
      Track(event);
      notices := Notify(event);
      log := log + [event];
    }
  }
}
