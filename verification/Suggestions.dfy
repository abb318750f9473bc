/**
 * The client's suggestion store. One owner goroutine holds the suggestions and applies modifications
 * by id; any number of senders work through snapshots that may be stale. A run is any interleaving.
 */
module Suggestions {
  import opened Wrappers
  import Sequences

  datatype Sample = Sample(id: nat, data: string)

  /** An empty token means that central has not opened a session. */
  datatype Suggestion = Suggestion(token: string, samples: seq<Sample>, prepared: bool)

  datatype Mod = SetToken(token: string) | Prepare | AddSample(sample: Sample) | RemoveSample(sample: Sample)

  type Store = map<nat, Suggestion>

  // ---------------------------------------------------------------- the owner

  function Without(samples: seq<Sample>, id: nat): seq<Sample> {
    if samples == [] then []
    else (if samples[0].id != id then [samples[0]] else []) + Without(samples[1..], id)
  }

  function Changed(s: Suggestion, m: Mod): Suggestion {
    match m
    case SetToken(token) => s.(token := token)
    case Prepare => s.(prepared := true)
    case AddSample(sample) => s.(samples := s.samples + [sample])
    case RemoveSample(sample) => s.(samples := Without(s.samples, sample.id))
  }

  /** `None` is the owner's panic on an unknown id. */
  function Modified(store: Store, id: nat, m: Mod): Option<Store> {
    if id in store then Some(store[id := Changed(store[id], m)]) else None
  }

  class Owner {
    var suggestions: Store

    constructor ()
      ensures suggestions == map[]
    {
      suggestions := map[];
    }

    method Add(id: nat, s: Suggestion)
      modifies this
      ensures suggestions == old(suggestions)[id := s]
    {
      suggestions := suggestions[id := s];
    }

    method Get(id: nat) returns (s: Option<Suggestion>)
      ensures s == if id in suggestions then Some(suggestions[id]) else None
    {
      s := if id in suggestions then Some(suggestions[id]) else None;
    }

    method Modify(id: nat, m: Mod) returns (ok: bool)
      modifies this
      ensures ok <==> Modified(old(suggestions), id, m).Some?
      ensures suggestions == if ok then Modified(old(suggestions), id, m).value else old(suggestions)
    {
      if id !in suggestions {
        return false;
      }
      var s := suggestions[id];
      match m {
        case SetToken(token) =>
          s := s.(token := token);
        case Prepare =>
          s := s.(prepared := true);
        case AddSample(sample) =>
          s := s.(samples := s.samples + [sample]);
        case RemoveSample(sample) =>
          var samples := Removed(s.samples, sample.id);
          s := s.(samples := samples);
      }
      suggestions := suggestions[id := s];
      ok := true;
    }

    ghost predicate Sendable(id: nat)
      reads this
    {
      id in suggestions && suggestions[id].token != ""
    }

    /**
     * One send run with nobody else at work: it counts the accepted samples and leaves in the queue,
     * in order, those that were not accepted. `replies` are central's, sample by sample.
     */
    method SendSamples(id: nat, replies: seq<Reply>) returns (n: nat, error: SendError)
      requires Sendable(id) ==> |replies| == |suggestions[id].samples| && Distinct(suggestions[id].samples)
      modifies this
      ensures id !in old(suggestions) ==> error == NoSuggestion && n == 0 && suggestions == old(suggestions)
      ensures id in old(suggestions) && old(suggestions[id].token) == ""
          ==> error == NoToken && n == 0 && suggestions == old(suggestions)
      ensures old(Sendable(id)) ==>
                && n == |AcceptedIn(old(suggestions[id].samples), replies)|
                && error == (if n < |replies| then NotAccepted else NoError)
                && suggestions == old(suggestions)[id := old(suggestions[id]).(samples :=
                     Kept(old(suggestions[id].samples), AcceptedIn(old(suggestions[id].samples), replies)))]
    {
      var found := Get(id);
      if found == None {
        return 0, NoSuggestion;
      }
      if found.value.token == "" {
        return 0, NoToken;
      }
      hide Kept, AcceptedIn;
      n, error := SendAll(id, found.value, replies);
    }

    /** The loop over a snapshot. */
    method SendAll(id: nat, s: Suggestion, replies: seq<Reply>) returns (n: nat, error: SendError)
      requires id in suggestions && suggestions[id] == s && |replies| == |s.samples| && Distinct(s.samples)
      modifies this
      ensures n == |AcceptedIn(s.samples, replies)| && error == if n < |replies| then NotAccepted else NoError
      ensures suggestions == old(suggestions)[id := s.(samples := Kept(s.samples, AcceptedIn(s.samples, replies)))]
    {
      hide Kept, AcceptedIn;
      n, error := 0, NoError;
      Unsent(s.samples, replies);
      for i := 0 to |s.samples|
        invariant id in suggestions && 0 <= n <= i && error == if n < i then NotAccepted else NoError
        invariant n == |AcceptedBefore(s.samples, replies, i)|
        invariant suggestions == old(suggestions)[id := s.(samples := Kept(s.samples, AcceptedBefore(s.samples, replies, i)))]
      {
        SendStep(s.samples, replies, i);
        if !replies[i].Accepted? {
          error := NotAccepted;
        } else {
          n := n + 1;
          var _ := Modify(id, RemoveSample(s.samples[i]));
        }
      }
      assert s.samples[..|replies|] == s.samples && replies[..|replies|] == replies;
    }
  }

  datatype SendError = NoError | NoSuggestion | NoToken | NotAccepted

  predicate Distinct(samples: seq<Sample>) {
    forall i, j :: 0 <= i < j < |samples| ==> samples[i].id != samples[j].id
  }

  function AcceptedBefore(samples: seq<Sample>, replies: seq<Reply>, i: nat): set<nat>
    requires i <= |samples| == |replies|
  {
    AcceptedIn(samples[..i], replies[..i])
  }

  lemma Unsent(samples: seq<Sample>, replies: seq<Reply>)
    requires |samples| == |replies|
    ensures AcceptedBefore(samples, replies, 0) == {} && Kept(samples, {}) == samples
  {
    KeptAll(samples);
  }

  lemma SendStep(samples: seq<Sample>, replies: seq<Reply>, i: nat)
    requires i < |samples| == |replies| && Distinct(samples)
    ensures var done, done' := AcceptedBefore(samples, replies, i), AcceptedBefore(samples, replies, i + 1);
            if replies[i].Accepted? then
              |done'| == |done| + 1 && Without(Kept(samples, done), samples[i].id) == Kept(samples, done')
            else done' == done
  {
    hide AcceptedIn;
    hide Kept;
    hide Without;
    AcceptedSnoc(samples[..i], replies[..i], samples[i], replies[i]);
    assert samples[..i + 1] == samples[..i] + [samples[i]] && replies[..i + 1] == replies[..i] + [replies[i]];
    AcceptedFrom(samples[..i], replies[..i]);
    WithoutKept(samples, AcceptedBefore(samples, replies, i), samples[i].id);
  }

  lemma WithoutFrom(samples: seq<Sample>, i: nat, id: nat)
    requires i < |samples|
    ensures Without(samples[i..], id) == if samples[i].id != id then [samples[i]] + Without(samples[i + 1..], id)
                                         else Without(samples[i + 1..], id)
  {
    assert samples[i..][1..] == samples[i + 1..];
  }

  /** The rebuilding loop behind a removal. */
  method Removed(samples: seq<Sample>, id: nat) returns (left: seq<Sample>)
    ensures left == Without(samples, id)
  {
    left := [];
    for i := 0 to |samples|
      invariant left + Without(samples[i..], id) == Without(samples, id)
    {
      WithoutFrom(samples, i, id);
      hide Without;
      if samples[i].id != id {
        Sequences.Regroup(left, [samples[i]], Without(samples[i + 1..], id));
        left := left + [samples[i]];
      }
    }
  }

  /**
   * How a post ends. Only after `Accepted` does the sender see no error; after `AnswerLost` it sees one
   * although central takes the sample, then or later.
   */
  datatype Reply = Unreachable | Rejected | Accepted | AnswerLost

  // ---------------------------------------------------------------- what is kept

  /** The samples, in order, whose ids are not in the set. */
  function Kept(samples: seq<Sample>, gone: set<nat>): seq<Sample> {
    if samples == [] then []
    else (if samples[0].id !in gone then [samples[0]] else []) + Kept(samples[1..], gone)
  }

  function Ids(samples: seq<Sample>): set<nat> {
    set s | s in samples :: s.id
  }

  function AcceptedIn(samples: seq<Sample>, replies: seq<Reply>): set<nat>
    requires |samples| == |replies|
  {
    if samples == [] then {}
    else (if replies[0].Accepted? then {samples[0].id} else {}) + AcceptedIn(samples[1..], replies[1..])
  }

  lemma {:induction false} AcceptedSnoc(samples: seq<Sample>, replies: seq<Reply>, s: Sample, r: Reply)
    requires |samples| == |replies|
    ensures AcceptedIn(samples + [s], replies + [r]) == AcceptedIn(samples, replies) + if r.Accepted? then {s.id} else {}
  {
    if samples != [] {
      AcceptedSnoc(samples[1..], replies[1..], s, r);
      assert (samples + [s])[1..] == samples[1..] + [s] && (replies + [r])[1..] == replies[1..] + [r];
    }
  }

  lemma {:induction false} AcceptedFrom(samples: seq<Sample>, replies: seq<Reply>)
    requires |samples| == |replies|
    ensures forall x :: x in AcceptedIn(samples, replies) ==> exists i :: 0 <= i < |samples| && samples[i].id == x
  {
    if samples != [] {
      AcceptedFrom(samples[1..], replies[1..]);
      forall x | x in AcceptedIn(samples, replies) ensures exists i :: 0 <= i < |samples| && samples[i].id == x {
        if x in AcceptedIn(samples[1..], replies[1..]) {
          var i :| 0 <= i < |samples[1..]| && samples[1..][i].id == x;
          assert samples[i + 1].id == x;
        }
      }
    }
  }

  lemma {:induction false} KeptAll(samples: seq<Sample>)
    ensures Kept(samples, {}) == samples
  {
    if samples != [] {
      KeptAll(samples[1..]);
    }
  }

  lemma {:induction false} WithoutKept(samples: seq<Sample>, gone: set<nat>, id: nat)
    ensures Without(Kept(samples, gone), id) == Kept(samples, gone + {id})
  {
    if samples != [] {
      WithoutKept(samples[1..], gone, id);
      var rest := Kept(samples[1..], gone);
      assert ([samples[0]] + rest)[1..] == rest;
      assert [] + rest == rest;
    }
  }

  lemma {:induction false} KeptSnoc(samples: seq<Sample>, gone: set<nat>, s: Sample)
    requires s.id !in gone
    ensures Kept(samples + [s], gone) == Kept(samples, gone) + [s]
  {
    if samples != [] {
      KeptSnoc(samples[1..], gone, s);
      assert (samples + [s])[1..] == samples[1..] + [s];
    }
  }

  lemma {:induction false} KeptMembers(samples: seq<Sample>, gone: set<nat>)
    ensures forall s :: s in Kept(samples, gone) <==> s in samples && s.id !in gone
  {
    if samples != [] {
      KeptMembers(samples[1..], gone);
      assert samples == [samples[0]] + samples[1..];
    }
  }

  // ---------------------------------------------------------------- every interleaving

  /** A send run: its snapshot, how far it is, its count, and whether a removal is still to be sent. */
  datatype Sender = Sender(target: nat, snapshot: Suggestion, next: nat, count: nat, removing: bool)

  /** A sample that central takes from a sender. */
  datatype Delivery = Delivery(sender: nat, target: nat, sample: Sample)

  /**
   * `taken` is what central takes and `acknowledged` that part of it whose answer arrives. `added` and
   * `used` record every sample ever added; `removed` records what the owner took out.
   */
  datatype State = State(store: Store, senders: seq<Sender>, acknowledged: seq<Delivery>, taken: seq<Delivery>,
                         added: map<nat, seq<Sample>>, removed: map<nat, set<nat>>, used: set<nat>, panicked: bool)

  datatype Step =
    | NewSuggestion(id: nat)
    | Request(id: nat, token: string)
    | Done(id: nat)
    | Add(id: nat, sample: Sample)
    | StartSend(id: nat)
    | Post(k: nat, reply: Reply)
    | Remove(k: nat)

  function Init(): State {
    State(map[], [], [], [], map[], map[], {}, false)
  }

  /** Ids are drawn from a space where they never repeat; a handle comes from a created suggestion. */
  predicate Enabled(s: State, step: Step) {
    && !s.panicked
    && match step
       case NewSuggestion(id) => id !in s.store
       case Request(id, token) => id in s.added
       case Done(id) => id in s.added
       case Add(id, sample) => id in s.added && sample.id !in s.used
       case StartSend(id) => id in s.store && s.store[id].token != ""
       case Post(k, _) => k < |s.senders| && !s.senders[k].removing && s.senders[k].next < |s.senders[k].snapshot.samples|
       case Remove(k) => k < |s.senders| && s.senders[k].removing && s.senders[k].next < |s.senders[k].snapshot.samples|
  }

  function Apply(s: State, step: Step): State
    requires Enabled(s, step)
  {
    match step
    case NewSuggestion(id) =>
      s.(store := s.store[id := Suggestion("", [], false)], added := s.added[id := []], removed := s.removed[id := {}])
    case Request(id, token) => Owned(s, id, SetToken(token))
    case Done(id) => Owned(s, id, Prepare)
    case Add(id, sample) =>
      Owned(s, id, AddSample(sample)).(added := s.added[id := s.added[id] + [sample]], used := s.used + {sample.id})
    case StartSend(id) =>
      s.(senders := s.senders + [Sender(id, s.store[id], 0, 0, false)])
    case Post(k, reply) =>
      var a := s.senders[k];
      var d := Posted(s, k);
      if reply.Accepted? then
        s.(senders := s.senders[k := a.(count := a.count + 1, removing := true)],
           acknowledged := s.acknowledged + [d], taken := s.taken + [d])
      else
        s.(senders := s.senders[k := a.(next := a.next + 1)],
           taken := if reply.AnswerLost? then s.taken + [d] else s.taken)
    case Remove(k) =>
      var a := s.senders[k];
      var sample := a.snapshot.samples[a.next];
      Owned(s, a.target, RemoveSample(sample)).(
        senders := s.senders[k := a.(next := a.next + 1, removing := false)],
        removed := if a.target in s.removed then s.removed[a.target := s.removed[a.target] + {sample.id}] else s.removed)
  }

  /** What a sender posts next. */
  function Posted(s: State, k: nat): Delivery
    requires k < |s.senders| && s.senders[k].next < |s.senders[k].snapshot.samples|
  {
    Delivery(k, s.senders[k].target, s.senders[k].snapshot.samples[s.senders[k].next])
  }

  function Owned(s: State, id: nat, m: Mod): State {
    match Modified(s.store, id, m)
    case None => s.(panicked := true)
    case Some(store) => s.(store := store)
  }

  ghost predicate Next(s: State, s': State) {
    exists step :: Enabled(s, step) && s' == Apply(s, step)
  }

  ghost predicate IsRun(run: seq<State>) {
    run != [] && run[0] == Init() && forall i :: 0 < i < |run| ==> Next(run[i - 1], run[i])
  }

  function DeliveredIds(deliveries: seq<Delivery>, id: nat): set<nat> {
    set d | d in deliveries && d.target == id :: d.sample.id
  }

  function SentBy(deliveries: seq<Delivery>, k: nat): nat {
    if deliveries == [] then 0
    else SentBy(deliveries[..|deliveries| - 1], k) + if deliveries[|deliveries| - 1].sender == k then 1 else 0
  }

  /** A sender has had `x` acknowledged and its removal is on the way to the owner. */
  ghost predicate BeingRemoved(s: State, id: nat, x: nat) {
    exists k :: 0 <= k < |s.senders| && Removing(s.senders[k], id, x)
  }

  predicate Removing(a: Sender, id: nat, x: nat) {
    a.target == id && a.removing && a.next < |a.snapshot.samples| && a.snapshot.samples[a.next].id == x
  }

  /** The queue of a suggestion is what was added without what was removed; only acknowledged samples go. */
  ghost predicate QueueExact(s: State, id: nat)
    requires id in s.store && id in s.added && id in s.removed
  {
    && s.store[id].samples == Kept(s.added[id], s.removed[id])
    && s.removed[id] <= DeliveredIds(s.acknowledged, id) <= Ids(s.added[id]) <= s.used
    && Distinct(s.added[id])
    && forall x :: x in DeliveredIds(s.acknowledged, id) && x !in s.removed[id] ==> BeingRemoved(s, id, x)
  }

  ghost predicate SenderExact(s: State, k: nat)
    requires k < |s.senders|
  {
    var a := s.senders[k];
    && a.target in s.added
    && a.count == SentBy(s.acknowledged, k)
    && a.next <= |a.snapshot.samples|
    && (forall x :: x in a.snapshot.samples ==> x in s.added[a.target])
    && (a.removing ==> a.next < |a.snapshot.samples| && a.snapshot.samples[a.next].id in DeliveredIds(s.acknowledged, a.target))
  }

  ghost predicate Inv(s: State) {
    && !s.panicked
    && s.store.Keys == s.added.Keys == s.removed.Keys
    && (forall id :: id in s.store ==> QueueExact(s, id))
    && (forall k :: 0 <= k < |s.senders| ==> SenderExact(s, k))
    && (forall d :: d in s.acknowledged ==> d.sender < |s.senders| && d.target in s.added)
  }

  lemma {:induction false} NoneFrom(deliveries: seq<Delivery>, k: nat)
    requires forall d :: d in deliveries ==> d.sender != k
    ensures SentBy(deliveries, k) == 0
  {
    if deliveries != [] {
      NoneFrom(deliveries[..|deliveries| - 1], k);
      assert deliveries[|deliveries| - 1] in deliveries;
    }
  }

  lemma DeliveredGrows(deliveries: seq<Delivery>, d: Delivery)
    ensures forall k :: SentBy(deliveries + [d], k)
                     == SentBy(deliveries, k) + if d.sender == k then 1 else 0
    ensures forall id :: DeliveredIds(deliveries + [d], id)
                      == DeliveredIds(deliveries, id) + if d.target == id then {d.sample.id} else {}
  {
    assert (deliveries + [d])[..|deliveries|] == deliveries;
  }

  /** Everything a queue depends on is as it was. */
  lemma QueueSame(s: State, s': State, id: nat)
    requires id in s.store && id in s.added && id in s.removed && QueueExact(s, id)
    requires id in s'.store && id in s'.added && id in s'.removed
    requires s'.store[id].samples == s.store[id].samples && s'.added[id] == s.added[id] && s'.removed[id] == s.removed[id]
    requires s'.acknowledged == s.acknowledged && s.used <= s'.used && RemovalsGoOn(s, s', id)
    ensures QueueExact(s', id)
  {
    hide DeliveredIds, Kept, Ids, Distinct, Removing;
    forall x | BeingRemoved(s, id, x) ensures BeingRemoved(s', id, x) {
      var k :| 0 <= k < |s.senders| && Removing(s.senders[k], id, x);
      assert Removing(s'.senders[k], id, x);
    }
  }

  ghost predicate RemovalsGoOn(s: State, s': State, id: nat) {
    && |s.senders| <= |s'.senders|
    && forall k, x :: 0 <= k < |s.senders| && Removing(s.senders[k], id, x) ==> Removing(s'.senders[k], id, x)
  }

  lemma SenderSame(s: State, s': State, k: nat)
    requires k < |s.senders| && SenderExact(s, k)
    requires k < |s'.senders| && s'.senders[k] == s.senders[k]
    requires s'.acknowledged == s.acknowledged && AddedGoesOn(s.added, s'.added)
    ensures SenderExact(s', k)
  {
    hide DeliveredIds, SentBy;
  }

  ghost predicate AddedGoesOn(before: map<nat, seq<Sample>>, after: map<nat, seq<Sample>>) {
    forall id :: id in before ==> id in after && before[id] <= after[id]
  }

  lemma OwnerInv(s: State, step: Step)
    requires Inv(s) && Enabled(s, step) && (step.NewSuggestion? || step.Request? || step.Done?)
    ensures Inv(Apply(s, step))
  {
    hide QueueExact, SenderExact, Removing;
    var s' := Apply(s, step);
    forall id | id in s'.store ensures QueueExact(s', id) {
      if id in s.store {
        QueueSame(s, s', id);
      } else {
        QueueStarts(s', id);
      }
    }
    forall k | 0 <= k < |s'.senders| ensures SenderExact(s', k) {
      SenderSame(s, s', k);
    }
  }

  lemma QueueStarts(s: State, id: nat)
    requires id in s.store && id in s.added && id in s.removed && forall d :: d in s.acknowledged ==> d.target != id
    requires s.store[id].samples == [] && s.added[id] == [] && s.removed[id] == {}
    ensures QueueExact(s, id)
  {
    assert DeliveredIds(s.acknowledged, id) == {};
  }

  lemma AddInv(s: State, step: Step)
    requires Inv(s) && Enabled(s, step) && step.Add?
    ensures Inv(Apply(s, step))
  {
    hide QueueExact, SenderExact, Removing;
    var s' := Apply(s, step);
    forall id | id in s'.store ensures QueueExact(s', id) {
      if id == step.id {
        AddQueue(s, s', id, step.sample);
      } else {
        QueueSame(s, s', id);
      }
    }
    forall k | 0 <= k < |s'.senders| ensures SenderExact(s', k) {
      SenderSame(s, s', k);
    }
  }

  lemma AddQueue(s: State, s': State, id: nat, sample: Sample)
    requires id in s.store && id in s.added && id in s.removed && QueueExact(s, id) && sample.id !in s.used
    requires id in s'.store && id in s'.added && id in s'.removed
    requires s'.store[id].samples == s.store[id].samples + [sample] && s'.added[id] == s.added[id] + [sample]
    requires s'.removed[id] == s.removed[id] && s'.used == s.used + {sample.id}
    requires s'.acknowledged == s.acknowledged && s'.senders == s.senders
    ensures QueueExact(s', id)
  {
    hide DeliveredIds, Kept, Ids, Distinct, Removing;
    AddExact(s.added[id], s.removed[id], sample, s.used);
    assert forall x :: BeingRemoved(s, id, x) ==> BeingRemoved(s', id, x);
  }

  lemma AddExact(added: seq<Sample>, gone: set<nat>, sample: Sample, used: set<nat>)
    requires Distinct(added) && gone <= used && Ids(added) <= used && sample.id !in used
    ensures Kept(added + [sample], gone) == Kept(added, gone) + [sample]
    ensures Distinct(added + [sample]) && Ids(added + [sample]) == Ids(added) + {sample.id}
  {
    KeptSnoc(added, gone, sample);
    forall i | 0 <= i < |added| ensures added[i].id != sample.id {
      assert added[i] in added && added[i].id in Ids(added);
    }
    assert sample in added + [sample];
    assert forall x :: x in added + [sample] <==> x in added || x == sample;
  }

  lemma StartInv(s: State, step: Step)
    requires Inv(s) && Enabled(s, step) && step.StartSend?
    ensures Inv(Apply(s, step))
  {
    hide QueueExact, SenderExact, Removing;
    var s' := Apply(s, step);
    forall id | id in s'.store ensures QueueExact(s', id) {
      QueueSame(s, s', id);
    }
    forall k | 0 <= k < |s'.senders| ensures SenderExact(s', k) {
      if k < |s.senders| {
        SenderSame(s, s', k);
      } else {
        SenderStarts(s, s', step.id);
      }
    }
  }

  lemma SenderStarts(s: State, s': State, id: nat)
    requires id in s.store && id in s.added && id in s.removed && QueueExact(s, id)
    requires forall d :: d in s.acknowledged ==> d.sender < |s.senders|
    requires s'.senders == s.senders + [Sender(id, s.store[id], 0, 0, false)]
    requires s'.acknowledged == s.acknowledged && s'.added == s.added
    ensures SenderExact(s', |s.senders|)
  {
    NoneFrom(s.acknowledged, |s.senders|);
    KeptMembers(s.added[id], s.removed[id]);
  }

  lemma RefusedInv(s: State, step: Step)
    requires Inv(s) && Enabled(s, step) && step.Post? && !step.reply.Accepted?
    ensures Inv(Apply(s, step))
  {
    hide QueueExact, SenderExact;
    var s' := Apply(s, step);
    forall id | id in s'.store ensures QueueExact(s', id) {
      QueueSame(s, s', id);
    }
    forall k | 0 <= k < |s'.senders| ensures SenderExact(s', k) {
      if k == step.k {
        RefusedSender(s, s', k);
      } else {
        SenderSame(s, s', k);
      }
    }
  }

  lemma RefusedSender(s: State, s': State, k: nat)
    requires k < |s.senders| && SenderExact(s, k) && !s.senders[k].removing
    requires s.senders[k].next < |s.senders[k].snapshot.samples|
    requires s'.senders == s.senders[k := s.senders[k].(next := s.senders[k].next + 1)]
    requires s'.acknowledged == s.acknowledged && s'.added == s.added
    ensures SenderExact(s', k)
  {
    hide DeliveredIds, SentBy;
  }

  /** What an acknowledged post changes. */
  ghost predicate AcceptedBy(s: State, s': State, k: nat) {
    && k < |s.senders| && !s.senders[k].removing && s.senders[k].next < |s.senders[k].snapshot.samples|
    && s'.store == s.store && s'.added == s.added && s'.removed == s.removed && s'.used == s.used
    && s'.senders == s.senders[k := s.senders[k].(count := s.senders[k].count + 1, removing := true)]
    && s'.acknowledged == s.acknowledged + [Posted(s, k)] && s'.taken == s.taken + [Posted(s, k)]
    && s'.panicked == s.panicked
  }

  lemma AcceptedQueue(s: State, s': State, k: nat, id: nat)
    requires AcceptedBy(s, s', k) && SenderExact(s, k)
    requires id in s.store && id in s.added && id in s.removed && QueueExact(s, id)
    ensures QueueExact(s', id)
  {
    hide DeliveredIds, SentBy, Kept, Distinct;
    var d := Posted(s, k);
    DeliveredGrows(s.acknowledged, d);
    assert id == d.target ==> d.sample in s.added[id];
    forall x | x in DeliveredIds(s'.acknowledged, id) && x !in s'.removed[id] ensures BeingRemoved(s', id, x) {
      if id == d.target && x == d.sample.id {
        assert Removing(s'.senders[k], id, x);
      } else {
        var j :| 0 <= j < |s.senders| && Removing(s.senders[j], id, x);
        assert Removing(s'.senders[j], id, x);
      }
    }
  }

  lemma AcceptedSender(s: State, s': State, k: nat, j: nat)
    requires AcceptedBy(s, s', k) && j < |s.senders| && SenderExact(s, j)
    ensures SenderExact(s', j)
  {
    hide DeliveredIds, SentBy;
    DeliveredGrows(s.acknowledged, Posted(s, k));
  }

  lemma AcceptedInv(s: State, step: Step)
    requires Inv(s) && Enabled(s, step) && step.Post? && step.reply.Accepted?
    ensures Inv(Apply(s, step)) && AcceptedBy(s, Apply(s, step), step.k)
  {
    hide QueueExact, SenderExact;
    var s' := Apply(s, step);
    forall id | id in s'.store ensures QueueExact(s', id) {
      AcceptedQueue(s, s', step.k, id);
    }
    forall k | 0 <= k < |s'.senders| ensures SenderExact(s', k) {
      AcceptedSender(s, s', step.k, k);
    }
    TargetKnown(s, step.k);
  }

  lemma TargetKnown(s: State, k: nat)
    requires Inv(s) && k < |s.senders|
    ensures s.store.Keys == s.added.Keys == s.removed.Keys && s.senders[k].target in s.added
  {
    hide QueueExact;
    assert SenderExact(s, k);
  }

  /** What a removal changes. */
  ghost predicate RemovedBy(s: State, s': State, k: nat) {
    && k < |s.senders| && s.senders[k].removing && s.senders[k].next < |s.senders[k].snapshot.samples|
    && var a := s.senders[k];
       var id, gone := a.target, a.snapshot.samples[a.next].id;
       && id in s.store && id in s.removed
       && s'.store == s.store[id := s.store[id].(samples := Without(s.store[id].samples, gone))]
       && s'.senders == s.senders[k := a.(next := a.next + 1, removing := false)]
       && s'.removed == s.removed[id := s.removed[id] + {gone}]
       && s'.added == s.added && s'.used == s.used && s'.acknowledged == s.acknowledged && s'.taken == s.taken
       && s'.panicked == s.panicked
  }

  lemma Removal(s: State, step: Step)
    requires Inv(s) && Enabled(s, step) && step.Remove?
    ensures RemovedBy(s, Apply(s, step), step.k)
  {
    hide Inv, Without;
    TargetKnown(s, step.k);
  }

  lemma RemoveQueue(s: State, s': State, k: nat, id: nat)
    requires RemovedBy(s, s', k) && SenderExact(s, k)
    requires id in s.store && id in s.added && id in s.removed && QueueExact(s, id)
    ensures QueueExact(s', id)
  {
    hide DeliveredIds, SentBy, Kept, Without, Ids, Distinct;
    var gone := s.senders[k].snapshot.samples[s.senders[k].next].id;
    WithoutKept(s.added[id], s.removed[id], gone);
    forall x | x in DeliveredIds(s'.acknowledged, id) && x !in s'.removed[id] ensures BeingRemoved(s', id, x) {
      var j :| 0 <= j < |s.senders| && Removing(s.senders[j], id, x);
      assert Removing(s'.senders[j], id, x);
    }
  }

  lemma RemoveSender(s: State, s': State, k: nat, j: nat)
    requires RemovedBy(s, s', k) && j < |s.senders| && SenderExact(s, j)
    ensures SenderExact(s', j)
  {
    hide DeliveredIds, SentBy, Without;
  }

  lemma RemoveInv(s: State, step: Step)
    requires Inv(s) && Enabled(s, step) && step.Remove?
    ensures Inv(Apply(s, step)) && RemovedBy(s, Apply(s, step), step.k)
  {
    hide Apply, Enabled, QueueExact, SenderExact, Without;
    var s' := Apply(s, step);
    Removal(s, step);
    forall id | id in s'.store ensures QueueExact(s', id) {
      RemoveQueue(s, s', step.k, id);
    }
    forall k | 0 <= k < |s'.senders| ensures SenderExact(s', k) {
      RemoveSender(s, s', step.k, k);
    }
  }

  /** Every step of the owner, of a caller and of a sender keeps the invariant. */
  lemma StepInv(s: State, s': State)
    requires Inv(s) && Next(s, s')
    ensures Inv(s')
  {
    hide Apply, Inv;
    var step :| Enabled(s, step) && s' == Apply(s, step);
    match step
    case NewSuggestion(_) => OwnerInv(s, step);
    case Request(_, _) => OwnerInv(s, step);
    case Done(_) => OwnerInv(s, step);
    case Add(_, _) => AddInv(s, step);
    case StartSend(_) => StartInv(s, step);
    case Post(_, reply) => if reply.Accepted? { AcceptedInv(s, step); } else { RefusedInv(s, step); }
    case Remove(_) => RemoveInv(s, step);
  }

  // ---------------------------------------------------------------- what central takes

  /** How many posts of a sender ended in an error. */
  function Failures(a: Sender): int {
    a.next + (if a.removing then 1 else 0) - a.count
  }

  ghost predicate Recorded(s: State, d: Delivery) {
    && d.sender < |s.senders| && s.senders[d.sender].target == d.target
    && d.target in s.added && d.sample in s.added[d.target]
    && (d in s.acknowledged || Failures(s.senders[d.sender]) > 0)
  }

  /** Central takes only what was added, and takes without an answer only what ended in an error. */
  ghost predicate TakenExact(s: State) {
    && (forall d :: d in s.acknowledged ==> d in s.taken)
    && (forall d :: d in s.taken ==> Recorded(s, d))
    && (forall k :: 0 <= k < |s.senders| ==> Failures(s.senders[k]) >= 0)
  }

  lemma Known(s: State)
    requires Inv(s)
    ensures !s.panicked && s.store.Keys == s.added.Keys == s.removed.Keys
    ensures forall k :: 0 <= k < |s.senders| ==> s.senders[k].target in s.added
    ensures forall k, x :: 0 <= k < |s.senders| && x in s.senders[k].snapshot.samples ==> x in s.added[s.senders[k].target]
  {
    forall k | 0 <= k < |s.senders|
      ensures s.senders[k].target in s.added
      ensures forall x :: x in s.senders[k].snapshot.samples ==> x in s.added[s.senders[k].target]
    {
      assert SenderExact(s, k);
    }
  }

  /** A sender goes on without forgetting a failure, or there is a new one. */
  ghost predicate SendersGoOn(before: seq<Sender>, after: seq<Sender>) {
    && |before| <= |after|
    && (forall k :: 0 <= k < |before| ==> before[k].target == after[k].target && Failures(before[k]) <= Failures(after[k]))
    && (forall k :: |before| <= k < |after| ==> Failures(after[k]) == 0)
  }

  lemma StillTaken(s: State, s': State)
    requires TakenExact(s) && SendersGoOn(s.senders, s'.senders) && AddedGoesOn(s.added, s'.added)
    requires s'.acknowledged == s.acknowledged && s'.taken == s.taken
    ensures TakenExact(s')
  {
    hide Failures;
    forall d | d in s'.taken ensures Recorded(s', d) {
      assert Recorded(s, d);
    }
  }

  /** A step that takes nothing. */
  lemma NothingTaken(s: State, step: Step)
    requires Inv(s) && TakenExact(s) && Enabled(s, step) && !step.Post?
    ensures TakenExact(Apply(s, step))
  {
    hide Inv, TakenExact, Without;
    Known(s);
    StillTaken(s, Apply(s, step));
  }

  lemma PostTaken(s: State, step: Step)
    requires Inv(s) && TakenExact(s) && Enabled(s, step) && step.Post?
    ensures TakenExact(Apply(s, step))
  {
    hide Inv;
    var s' := Apply(s, step);
    Known(s);
    assert s.senders[step.k].snapshot.samples[s.senders[step.k].next] in s.senders[step.k].snapshot.samples;
    forall d | d in s'.taken ensures Recorded(s', d) {
      if d in s.taken {
        assert Recorded(s, d);
      }
    }
  }

  lemma StepTaken(s: State, s': State)
    requires Inv(s) && TakenExact(s) && Next(s, s')
    ensures TakenExact(s')
  {
    hide Apply, Inv, TakenExact;
    var step :| Enabled(s, step) && s' == Apply(s, step);
    if step.Post? {
      PostTaken(s, step);
    } else {
      NothingTaken(s, step);
    }
  }

  lemma {:induction false} RunInv(run: seq<State>)
    requires IsRun(run)
    ensures Inv(run[|run| - 1]) && TakenExact(run[|run| - 1])
  {
    if |run| > 1 {
      RunInv(run[..|run| - 1]);
      StepInv(run[|run| - 2], run[|run| - 1]);
      StepTaken(run[|run| - 2], run[|run| - 1]);
    }
  }

  /** The owner never meets an unknown id. */
  lemma OwnerNeverPanics(run: seq<State>, i: nat)
    requires IsRun(run) && i < |run|
    ensures !run[i].panicked
  {
    RunInv(run[..i + 1]);
  }

  /** Central takes the sample for the suggestion and its sender is told so. */
  ghost predicate Acknowledged(s: State, id: nat, sample: Sample) {
    exists d :: d in s.acknowledged && d in s.taken && d.target == id && d.sample == sample
  }

  lemma SameSample(samples: seq<Sample>, x: Sample, y: Sample)
    requires Distinct(samples) && x in samples && y in samples && x.id == y.id
    ensures x == y
  {
  }

  /** No sample is lost: each one ever added is still queued, or central took it and its sender was told so. */
  lemma NothingLost(run: seq<State>, id: nat, sample: Sample)
    requires IsRun(run)
    ensures var s := run[|run| - 1];
            s.store.Keys == s.added.Keys &&
            (id in s.store && sample in s.added[id] ==>
              sample in s.store[id].samples || Acknowledged(s, id, sample))
  {
    RunInv(run);
    var s := run[|run| - 1];
    if id in s.store && sample in s.added[id] && sample !in s.store[id].samples {
      assert QueueExact(s, id);
      KeptMembers(s.added[id], s.removed[id]);
      var d :| d in s.acknowledged && d.target == id && d.sample.id == sample.id;
      assert Recorded(s, d);
      SameSample(s.added[id], d.sample, sample);
    }
  }

  predicate Quiet(s: State) {
    forall k :: 0 <= k < |s.senders| ==> !s.senders[k].removing
  }

  /**
   * Once no removal is on its way, a queue is exactly what was added, in order, without what was
   * acknowledged: sends that end in an error remove nothing, whether or not central takes the sample, and
   * samples added while a run was sending are still there.
   */
  lemma QueueWhenQuiet(run: seq<State>, id: nat)
    requires IsRun(run) && id in run[|run| - 1].store
    requires Quiet(run[|run| - 1])
    ensures var s := run[|run| - 1];
            id in s.added && s.store[id].samples == Kept(s.added[id], DeliveredIds(s.acknowledged, id))
  {
    RunInv(run);
    var s := run[|run| - 1];
    assert QueueExact(s, id);
    assert forall x :: !BeingRemoved(s, id, x);
    assert s.removed[id] == DeliveredIds(s.acknowledged, id);
  }

  /** The count a send run reports is the number of its sends that were acknowledged. */
  lemma CountsExact(run: seq<State>, k: nat)
    requires IsRun(run) && k < |run[|run| - 1].senders|
    ensures run[|run| - 1].senders[k].count == SentBy(run[|run| - 1].acknowledged, k)
  {
    RunInv(run);
    assert SenderExact(run[|run| - 1], k);
  }
}
