/**
 * When central takes each sample at most once: exactly while no send of a suggestion is started beside a
 * running one, or over a queued sample that central took without the sender being told.
 */
module SuggestionDelivery {
  import opened Suggestions

  predicate Finished(a: Sender) {
    a.next == |a.snapshot.samples|
  }

  /** No send of the suggestion is running. */
  ghost predicate AllFinished(s: State, id: nat) {
    forall k :: 0 <= k < |s.senders| && s.senders[k].target == id ==> Finished(s.senders[k])
  }

  /** No queued sample was taken with its answer lost. */
  ghost predicate NoneLost(s: State, id: nat) {
    id in s.store ==> forall d :: d in s.taken && d !in s.acknowledged ==> d.sample !in s.store[id].samples
  }

  ghost predicate MaySend(s: State, id: nat) {
    AllFinished(s, id) && NoneLost(s, id)
  }

  ghost predicate Careful(s: State, step: Step) {
    Enabled(s, step) && (step.StartSend? ==> MaySend(s, step.id))
  }

  ghost predicate CarefulNext(s: State, s': State) {
    exists step :: Careful(s, step) && s' == Apply(s, step)
  }

  /** A run in which every send is started while none is running and no queued sample's answer was lost. */
  ghost predicate IsCarefulRun(run: seq<State>) {
    run != [] && run[0] == Init() && forall i :: 0 < i < |run| ==> CarefulNext(run[i - 1], run[i])
  }

  ghost predicate TwiceDelivered(s: State) {
    exists i, j :: 0 <= i < j < |s.taken| && s.taken[i].sample == s.taken[j].sample
  }

  // ---------------------------------------------------------------- the invariant

  predicate ToSend(a: Sender, p: int) {
    a.next <= p < |a.snapshot.samples| && (p > a.next || !a.removing)
  }

  /** What a running send has still to send was not taken, and what it has to remove is still queued. */
  ghost predicate SendsOnce(s: State, k: nat)
    requires k < |s.senders|
  {
    var a := s.senders[k];
    && Distinct(a.snapshot.samples)
    && (forall p :: ToSend(a, p) ==> a.snapshot.samples[p].id !in DeliveredIds(s.taken, a.target))
    && (a.removing && a.next < |a.snapshot.samples| && a.target in s.removed ==>
          a.snapshot.samples[a.next].id !in s.removed[a.target])
  }

  ghost predicate OneRunning(s: State) {
    forall j, k :: 0 <= j < k < |s.senders| && s.senders[j].target == s.senders[k].target
      ==> Finished(s.senders[j]) || Finished(s.senders[k])
  }

  ghost predicate TakenOnce(taken: seq<Delivery>) {
    forall i, j :: 0 <= i < j < |taken| ==> taken[i].sample.id != taken[j].sample.id
  }

  /** A sample belongs to one suggestion. */
  ghost predicate Apart(added: map<nat, seq<Sample>>) {
    forall id, other :: id in added && other in added && id != other ==> Ids(added[id]) !! Ids(added[other])
  }

  ghost predicate OnceInv(s: State) {
    && Inv(s) && TakenExact(s) && OneRunning(s) && TakenOnce(s.taken) && Apart(s.added)
    && forall k :: 0 <= k < |s.senders| ==> SendsOnce(s, k)
  }

  lemma {:induction false} KeptDistinct(samples: seq<Sample>, gone: set<nat>)
    requires Distinct(samples)
    ensures Distinct(Kept(samples, gone))
  {
    if samples != [] {
      KeptDistinct(samples[1..], gone);
      KeptMembers(samples[1..], gone);
      var rest := Kept(samples[1..], gone);
      forall j | 0 <= j < |rest| ensures samples[0].id != rest[j].id {
        assert rest[j] in rest;
        var i :| 0 <= i < |samples[1..]| && samples[1..][i] == rest[j];
        assert samples[i + 1] == rest[j];
      }
    }
  }

  /** A step that leaves a sender, what was taken and what was removed alone. */
  lemma SendsSame(s: State, s': State, k: nat)
    requires k < |s.senders| && k < |s'.senders| && SendsOnce(s, k)
    requires s'.senders[k] == s.senders[k] && s'.taken == s.taken
    requires var id := s.senders[k].target;
             id in s.removed && id in s'.removed && s'.removed[id] == s.removed[id]
    ensures SendsOnce(s', k)
  {
    hide DeliveredIds, Distinct;
  }

  lemma AllOnce(s: State)
    requires Inv(s) && TakenExact(s) && OneRunning(s) && TakenOnce(s.taken) && Apart(s.added)
    requires forall k :: 0 <= k < |s.senders| ==> SendsOnce(s, k)
    ensures OnceInv(s)
  {
  }

  lemma Parts(s: State)
    requires OnceInv(s)
    ensures Inv(s) && TakenExact(s) && OneRunning(s) && TakenOnce(s.taken) && Apart(s.added)
    ensures forall k :: 0 <= k < |s.senders| ==> SendsOnce(s, k)
  {
    hide Inv, TakenExact, OneRunning, TakenOnce, Apart, SendsOnce;
  }

  // ---------------------------------------------------------------- steps of the owner and of callers

  lemma OwnerRest(s: State, step: Step)
    requires Inv(s) && Enabled(s, step) && (step.NewSuggestion? || step.Request? || step.Done?) && Apart(s.added)
    ensures var s' := Apply(s, step);
            && s'.senders == s.senders && s'.taken == s.taken && Apart(s'.added)
            && forall id :: id in s.removed ==> id in s'.removed && s'.removed[id] == s.removed[id]
  {
    hide Inv;
    Known(s);
  }

  lemma OwnerOnce(s: State, step: Step)
    requires OnceInv(s) && Enabled(s, step) && (step.NewSuggestion? || step.Request? || step.Done?)
    ensures OnceInv(Apply(s, step))
  {
    hide *;
    var s' := Apply(s, step);
    Parts(s);
    OwnerInv(s, step);
    NothingTaken(s, step);
    OwnerRest(s, step);
    OneRunningSame(s, s');
    forall k | 0 <= k < |s'.senders| ensures SendsOnce(s', k) {
      TargetKnown(s, k);
      SendsSame(s, s', k);
    }
    AllOnce(s');
  }

  lemma OneRunningSame(s: State, s': State)
    requires OneRunning(s) && s'.senders == s.senders
    ensures OneRunning(s')
  {
  }

  lemma AddRest(s: State, step: Step)
    requires Inv(s) && Enabled(s, step) && step.Add? && Apart(s.added)
    ensures var s' := Apply(s, step);
            s'.senders == s.senders && s'.taken == s.taken && s'.removed == s.removed && Apart(s'.added)
  {
    hide Inv, Apart, Ids;
    Known(s);
    AddedUsed(s);
    AddApart(s.added, s.used, step.id, step.sample);
  }

  lemma AddedUsed(s: State)
    requires Inv(s)
    ensures forall id :: id in s.added ==> Ids(s.added[id]) <= s.used
  {
    hide SenderExact;
    forall id | id in s.added ensures Ids(s.added[id]) <= s.used {
      assert QueueExact(s, id);
    }
  }

  lemma AddApart(added: map<nat, seq<Sample>>, used: set<nat>, id: nat, sample: Sample)
    requires Apart(added) && id in added && sample.id !in used && forall x :: x in added ==> Ids(added[x]) <= used
    ensures Apart(added[id := added[id] + [sample]])
  {
    hide Ids;
    IdsSnoc(added[id], sample);
  }

  lemma IdsSnoc(samples: seq<Sample>, sample: Sample)
    ensures Ids(samples + [sample]) == Ids(samples) + {sample.id}
  {
    assert sample in samples + [sample];
    assert forall x :: x in samples + [sample] <==> x in samples || x == sample;
  }

  lemma AddOnce(s: State, step: Step)
    requires OnceInv(s) && Enabled(s, step) && step.Add?
    ensures OnceInv(Apply(s, step))
  {
    hide *;
    var s' := Apply(s, step);
    Parts(s);
    AddInv(s, step);
    NothingTaken(s, step);
    AddRest(s, step);
    OneRunningSame(s, s');
    forall k | 0 <= k < |s'.senders| ensures SendsOnce(s', k) {
      TargetKnown(s, k);
      SendsSame(s, s', k);
    }
    AllOnce(s');
  }

  // ---------------------------------------------------------------- starting a send

  /** When a send may start, what is queued has not been taken. */
  lemma SnapshotFree(s: State, id: nat)
    requires OnceInv(s) && id in s.store && MaySend(s, id)
    ensures Distinct(s.store[id].samples)
    ensures forall p :: 0 <= p < |s.store[id].samples| ==> s.store[id].samples[p].id !in DeliveredIds(s.taken, id)
  {
    hide SendsOnce, SenderExact, Apart, TakenOnce, OneRunning;
    assert QueueExact(s, id);
    KeptDistinct(s.added[id], s.removed[id]);
    KeptMembers(s.added[id], s.removed[id]);
    var queue := s.store[id].samples;
    forall p | 0 <= p < |queue| ensures queue[p].id !in DeliveredIds(s.taken, id) {
      QueuedFree(s, id, queue[p]);
    }
  }

  lemma QueuedFree(s: State, id: nat, x: Sample)
    requires id in s.store && id in s.added && id in s.removed && QueueExact(s, id) && TakenExact(s) && MaySend(s, id)
    requires x in s.store[id].samples && x in s.added[id] && x.id !in s.removed[id]
    ensures x.id !in DeliveredIds(s.taken, id)
  {
    hide Kept, Ids;
    assert !BeingRemoved(s, id, x.id);
    assert x.id !in DeliveredIds(s.acknowledged, id);
    forall d | d in s.taken && d.target == id ensures d.sample.id != x.id {
      assert Recorded(s, d);
      if d.sample.id == x.id {
        SameSample(s.added[id], d.sample, x);
      }
    }
  }

  lemma StartRest(s: State, step: Step)
    requires Inv(s) && OneRunning(s) && Careful(s, step) && step.StartSend?
    ensures var s' := Apply(s, step);
            && step.id in s.store && OneRunning(s')
            && s'.senders == s.senders + [Sender(step.id, s.store[step.id], 0, 0, false)]
            && s'.taken == s.taken && s'.removed == s.removed && s'.added == s.added
  {
    hide Inv, NoneLost;
  }

  lemma StartOnce(s: State, step: Step)
    requires OnceInv(s) && Careful(s, step) && step.StartSend?
    ensures OnceInv(Apply(s, step))
  {
    hide Apply, OnceInv, MaySend, Inv, TakenExact, OneRunning, TakenOnce, Apart, SendsOnce;
    var s' := Apply(s, step);
    Parts(s);
    StartInv(s, step);
    NothingTaken(s, step);
    StartRest(s, step);
    forall k | 0 <= k < |s'.senders| ensures SendsOnce(s', k) {
      if k < |s.senders| {
        TargetKnown(s, k);
        SendsSame(s, s', k);
      } else {
        SnapshotFree(s, step.id);
        SendsFree(s', k);
      }
    }
    AllOnce(s');
  }

  lemma SendsFree(s: State, k: nat)
    requires k < |s.senders| && s.senders[k].next == 0 && !s.senders[k].removing
    requires var a := s.senders[k];
             && Distinct(a.snapshot.samples)
             && forall p :: 0 <= p < |a.snapshot.samples| ==> a.snapshot.samples[p].id !in DeliveredIds(s.taken, a.target)
    ensures SendsOnce(s, k)
  {
    hide DeliveredIds, Distinct;
  }

  // ---------------------------------------------------------------- posts

  /** What a post changes that is not acknowledged. */
  ghost predicate Failed(s: State, s': State, k: nat, lost: bool) {
    && k < |s.senders| && !s.senders[k].removing && s.senders[k].next < |s.senders[k].snapshot.samples|
    && s'.senders == s.senders[k := s.senders[k].(next := s.senders[k].next + 1)]
    && s'.taken == (if lost then s.taken + [Posted(s, k)] else s.taken)
    && s'.acknowledged == s.acknowledged && s'.added == s.added && s'.removed == s.removed
  }

  lemma Failure(s: State, step: Step)
    requires Enabled(s, step) && step.Post? && !step.reply.Accepted?
    ensures Failed(s, Apply(s, step), step.k, step.reply.AnswerLost?)
  {
  }

  /** A sample that is still to be sent has not been taken for any suggestion. */
  lemma NotTakenYet(s: State, k: nat)
    requires OnceInv(s) && k < |s.senders| && ToSend(s.senders[k], s.senders[k].next)
    ensures forall d :: d in s.taken ==> d.sample.id != Posted(s, k).sample.id
  {
    hide Inv, OneRunning, TakenOnce, Ids, Distinct;
    var x := Posted(s, k).sample;
    var a := s.senders[k];
    Known(s);
    assert SendsOnce(s, k);
    assert x in a.snapshot.samples;
    forall d | d in s.taken ensures d.sample.id != x.id {
      assert Recorded(s, d);
      InIds(s.added[d.target], d.sample);
      InIds(s.added[a.target], x);
    }
  }

  lemma InIds(samples: seq<Sample>, x: Sample)
    requires x in samples
    ensures x.id in Ids(samples)
  {
  }

  lemma TakenOnceMore(taken: seq<Delivery>, d: Delivery)
    requires TakenOnce(taken) && forall e :: e in taken ==> e.sample.id != d.sample.id
    ensures TakenOnce(taken + [d])
  {
    assert forall i :: 0 <= i < |taken| ==> taken[i] in taken;
  }

  /** A sender that goes on after it was running lets no other run. */
  lemma StillOneRunning(s: State, s': State, k: nat)
    requires OneRunning(s) && k < |s.senders| && !Finished(s.senders[k])
    requires |s'.senders| == |s.senders| && s'.senders[k].target == s.senders[k].target
    requires forall j :: 0 <= j < |s.senders| && j != k ==> s'.senders[j] == s.senders[j]
    ensures OneRunning(s')
  {
  }

  /** The other senders after one of them goes on: none of them has anything to do for the same suggestion. */
  lemma OtherSends(s: State, s': State, k: nat, j: nat)
    requires j < |s.senders| && k < |s.senders| && j != k && SendsOnce(s, j) && OneRunning(s)
    requires s.senders[k].next < |s.senders[k].snapshot.samples|
    requires |s'.senders| == |s.senders| && s'.senders[j] == s.senders[j]
    requires s'.taken == s.taken || s'.taken == s.taken + [Posted(s, k)]
    requires s.senders[j].target != s.senders[k].target ==>
               var id := s.senders[j].target; id in s.removed && id in s'.removed && s'.removed[id] == s.removed[id]
    requires s.senders[j].removing ==> s.senders[j].next < |s.senders[j].snapshot.samples|
    ensures SendsOnce(s', j)
  {
    hide DeliveredIds, SentBy, Distinct;
    if s.senders[j].target != s.senders[k].target {
      DeliveredGrows(s.taken, Posted(s, k));
    } else {
      assert Finished(s.senders[j]);
    }
  }

  lemma RemovingNext(s: State, k: nat)
    requires Inv(s) && k < |s.senders|
    ensures s.senders[k].next <= |s.senders[k].snapshot.samples|
    ensures s.senders[k].removing ==> s.senders[k].next < |s.senders[k].snapshot.samples|
  {
    assert SenderExact(s, k);
  }

  lemma FailedSender(s: State, s': State, k: nat, lost: bool)
    requires Failed(s, s', k, lost) && SendsOnce(s, k)
    ensures SendsOnce(s', k)
  {
    hide DeliveredIds, SentBy;
    DeliveredGrows(s.taken, Posted(s, k));
  }

  lemma FailedRest(s: State, s': State, k: nat, lost: bool)
    requires OnceInv(s) && Failed(s, s', k, lost)
    ensures OneRunning(s') && TakenOnce(s'.taken) && s'.added == s.added
  {
    hide OnceInv, OneRunning, TakenOnce, Inv, TakenExact;
    Parts(s);
    StillOneRunning(s, s', k);
    if lost {
      NotTakenYet(s, k);
      TakenOnceMore(s.taken, Posted(s, k));
    }
  }

  lemma FailedOnce(s: State, step: Step)
    requires OnceInv(s) && Enabled(s, step) && step.Post? && !step.reply.Accepted?
    ensures OnceInv(Apply(s, step))
  {
    hide Inv, TakenExact, OneRunning, TakenOnce, Apart, SendsOnce, Apply;
    var s' := Apply(s, step);
    var lost := step.reply.AnswerLost?;
    RefusedInv(s, step);
    PostTaken(s, step);
    Failure(s, step);
    FailedRest(s, s', step.k, lost);
    forall j | 0 <= j < |s'.senders| ensures SendsOnce(s', j) {
      if j == step.k {
        FailedSender(s, s', step.k, lost);
      } else {
        TargetKnown(s, j);
        RemovingNext(s, j);
        OtherSends(s, s', step.k, j);
      }
    }
  }

  lemma AcceptedSends(s: State, s': State, k: nat)
    requires AcceptedBy(s, s', k) && SendsOnce(s, k) && TakenExact(s)
    requires var id := s.senders[k].target; id in s.store && id in s.added && id in s.removed && QueueExact(s, id)
    ensures SendsOnce(s', k)
  {
    hide SentBy, Kept, Ids, Recorded;
    var a, id := s.senders[k], s.senders[k].target;
    assert ToSend(a, a.next);
    assert DeliveredIds(s.acknowledged, id) <= DeliveredIds(s.taken, id);
    DeliveredGrows(s.taken, Posted(s, k));
    AcceptedSendsOn(s, s', k);
  }

  lemma AcceptedSendsOn(s: State, s': State, k: nat)
    requires AcceptedBy(s, s', k) && SendsOnce(s, k)
    requires var a := s.senders[k];
             a.target in s.removed && a.snapshot.samples[a.next].id !in s.removed[a.target]
    ensures SendsOnce(s', k)
  {
    hide DeliveredIds, SentBy;
    DeliveredGrows(s.taken, Posted(s, k));
  }

  lemma AcceptedRest(s: State, s': State, k: nat)
    requires OnceInv(s) && AcceptedBy(s, s', k)
    ensures OneRunning(s') && TakenOnce(s'.taken) && s'.added == s.added
  {
    hide OnceInv, OneRunning, TakenOnce, Inv, TakenExact;
    Parts(s);
    StillOneRunning(s, s', k);
    NotTakenYet(s, k);
    TakenOnceMore(s.taken, Posted(s, k));
  }

  lemma QueueOf(s: State, id: nat)
    requires Inv(s) && id in s.store
    ensures id in s.added && id in s.removed && QueueExact(s, id)
  {
    hide SenderExact;
  }

  lemma AcceptedOnce(s: State, step: Step)
    requires OnceInv(s) && Enabled(s, step) && step.Post? && step.reply.Accepted?
    ensures OnceInv(Apply(s, step))
  {
    hide Inv, TakenExact, OneRunning, TakenOnce, Apart, SendsOnce, QueueExact, Apply;
    var s', k := Apply(s, step), step.k;
    AcceptedInv(s, step);
    PostTaken(s, step);
    AcceptedRest(s, s', k);
    forall j | 0 <= j < |s'.senders| ensures SendsOnce(s', j) {
      TargetKnown(s, j);
      if j == k {
        QueueOf(s, s.senders[k].target);
        AcceptedSends(s, s', k);
      } else {
        RemovingNext(s, j);
        OtherSends(s, s', k, j);
      }
    }
  }

  // ---------------------------------------------------------------- removals

  lemma RemovedSender(s: State, s': State, k: nat)
    requires RemovedBy(s, s', k) && SendsOnce(s, k)
    ensures SendsOnce(s', k)
  {
    hide DeliveredIds, Without;
  }

  lemma RemoveOnce(s: State, step: Step)
    requires OnceInv(s) && Enabled(s, step) && step.Remove?
    ensures OnceInv(Apply(s, step))
  {
    hide Inv, TakenExact, OneRunning, TakenOnce, Apart, SendsOnce, Apply, Without;
    var s', k := Apply(s, step), step.k;
    RemoveInv(s, step);
    NothingTaken(s, step);
    StillOneRunning(s, s', k);
    forall j | 0 <= j < |s'.senders| ensures SendsOnce(s', j) {
      if j == k {
        RemovedSender(s, s', k);
      } else {
        TargetKnown(s, j);
        RemovingNext(s, j);
        OtherSends(s, s', k, j);
      }
    }
  }

  lemma StepOnce(s: State, step: Step)
    requires OnceInv(s) && Careful(s, step)
    ensures OnceInv(Apply(s, step))
  {
    hide Apply, OnceInv, MaySend, Enabled;
    match step
    case NewSuggestion(_) => OwnerOnce(s, step);
    case Request(_, _) => OwnerOnce(s, step);
    case Done(_) => OwnerOnce(s, step);
    case Add(_, _) => AddOnce(s, step);
    case StartSend(_) => StartOnce(s, step);
    case Post(_, reply) => if reply.Accepted? { AcceptedOnce(s, step); } else { FailedOnce(s, step); }
    case Remove(_) => RemoveOnce(s, step);
  }

  lemma {:induction false} RunOnce(run: seq<State>)
    requires IsCarefulRun(run)
    ensures OnceInv(run[|run| - 1])
  {
    if |run| > 1 {
      RunOnce(run[..|run| - 1]);
      OnceNext(run[|run| - 2], run[|run| - 1]);
    }
  }

  lemma OnceNext(s: State, s': State)
    requires OnceInv(s) && CarefulNext(s, s')
    ensures OnceInv(s')
  {
    hide MaySend, Apply, OnceInv;
    var step :| Careful(s, step) && s' == Apply(s, step);
    StepOnce(s, step);
  }

  // ---------------------------------------------------------------- both halves

  /** Careful runs have central take no sample twice, whichever answers are lost. */
  lemma DeliveredOnce(run: seq<State>)
    requires IsCarefulRun(run)
    ensures !TwiceDelivered(run[|run| - 1]) && TakenOnce(run[|run| - 1].taken)
  {
    hide Inv, TakenExact, OneRunning, Apart, SendsOnce;
    RunOnce(run);
  }

  /**
   * What a caller sees is enough to be careful: when every send of the suggestion has returned and none
   * reported an error, no queued sample's answer was lost.
   */
  lemma NoErrorsNoneLost(run: seq<State>, id: nat)
    requires IsCarefulRun(run) && AllFinished(run[|run| - 1], id)
    requires var s := run[|run| - 1];
             forall k :: 0 <= k < |s.senders| && s.senders[k].target == id
               ==> s.senders[k].count == |s.senders[k].snapshot.samples|
    ensures MaySend(run[|run| - 1], id)
  {
    hide OneRunning, TakenOnce, SendsOnce, SenderExact;
    var s := run[|run| - 1];
    RunOnce(run);
    if id in s.store {
      assert QueueExact(s, id);
      KeptMembers(s.added[id], s.removed[id]);
      forall d | d in s.taken && d !in s.acknowledged ensures d.sample !in s.store[id].samples {
        assert Recorded(s, d);
        RemovingNext(s, d.sender);
        InIds(s.added[d.target], d.sample);
      }
    }
  }

  /** The run goes on to this one, and starts no send carelessly. */
  ghost predicate Continues(run: seq<State>, longer: seq<State>) {
    && run != [] && run <= longer
    && forall i :: |run| <= i < |longer| ==> CarefulNext(longer[i - 1], longer[i])
  }

  lemma Extended(run: seq<State>, longer: seq<State>, step: Step) returns (more: seq<State>)
    requires Continues(run, longer) && Careful(longer[|longer| - 1], step)
    ensures Continues(run, more) && more == longer + [Apply(longer[|longer| - 1], step)]
  {
    hide Apply, MaySend;
    more := longer + [Apply(longer[|longer| - 1], step)];
    forall i | |run| <= i < |more| ensures CarefulNext(more[i - 1], more[i]) {
      if i < |longer| {
        assert CarefulNext(longer[i - 1], longer[i]);
      }
    }
  }

  /** A sender has its next sends refused until it is at `p`. */
  lemma {:induction false} Refused(run: seq<State>, longer: seq<State>, m: nat, p: nat) returns (more: seq<State>)
    requires Continues(run, longer)
    requires !longer[|longer| - 1].panicked && m < |longer[|longer| - 1].senders|
    requires var a := longer[|longer| - 1].senders[m]; !a.removing && a.next <= p <= |a.snapshot.samples|
    ensures Continues(run, more)
    ensures var s := longer[|longer| - 1];
            more[|more| - 1] == s.(senders := s.senders[m := s.senders[m].(next := p)])
    decreases p - longer[|longer| - 1].senders[m].next
  {
    var s := longer[|longer| - 1];
    if s.senders[m].next == p {
      more := longer;
      assert s.senders[m := s.senders[m].(next := p)] == s.senders;
    } else {
      more := Extended(run, longer, Post(m, Rejected));
      var u := more[|more| - 1];
      assert u == s.(senders := s.senders[m := s.senders[m].(next := s.senders[m].next + 1)]);
      more := Refused(run, more, m, p);
      assert u.senders[m := u.senders[m].(next := p)] == s.senders[m := s.senders[m].(next := p)];
    }
  }

  predicate Delivered(s: State, x: Sample) {
    exists i :: 0 <= i < |s.taken| && s.taken[i].sample == x
  }

  /** What a running send is at is still queued. */
  lemma StillQueued(s: State, k: nat)
    requires OnceInv(s) && k < |s.senders| && !Finished(s.senders[k])
    ensures var a := s.senders[k];
            && a.target in s.store && a.next < |a.snapshot.samples|
            && a.snapshot.samples[a.next] in s.store[a.target].samples
            && (a.removing ==> Delivered(s, a.snapshot.samples[a.next]))
  {
    hide OneRunning, TakenOnce, Apart, Delivered;
    var a := s.senders[k];
    assert SenderExact(s, k) && SendsOnce(s, k);
    assert QueueExact(s, a.target);
    var x := a.snapshot.samples[a.next];
    KeptMembers(s.added[a.target], s.removed[a.target]);
    if a.removing {
      WasTaken(s, a.target, x);
    } else {
      assert ToSend(a, a.next);
      assert DeliveredIds(s.acknowledged, a.target) <= DeliveredIds(s.taken, a.target);
    }
  }

  lemma WasTaken(s: State, id: nat, x: Sample)
    requires TakenExact(s) && id in s.added && Distinct(s.added[id]) && x in s.added[id]
    requires x.id in DeliveredIds(s.acknowledged, id)
    ensures Delivered(s, x)
  {
    var d :| d in s.acknowledged && d.target == id && d.sample.id == x.id;
    assert Recorded(s, d);
    SameSample(s.added[id], d.sample, x);
    assert d in s.taken;
    var i :| 0 <= i < |s.taken| && s.taken[i] == d;
    assert s.taken[i].sample == x;
  }

  /** A send that is at a sample which central has taken, or which another send is about to post. */
  ghost predicate Doomed(s: State, m: nat, x: Sample) {
    && !s.panicked && m < |s.senders| && !s.senders[m].removing
    && s.senders[m].next < |s.senders[m].snapshot.samples| && s.senders[m].snapshot.samples[s.senders[m].next] == x
    && (Delivered(s, x) || exists k :: AtSample(s, k, x) && k != m)
  }

  predicate AtSample(s: State, k: int, x: Sample) {
    && 0 <= k < |s.senders| && !s.senders[k].removing && s.senders[k].next < |s.senders[k].snapshot.samples|
    && s.senders[k].snapshot.samples[s.senders[k].next] == x
  }

  lemma Posts(run: seq<State>, longer: seq<State>, k: nat, x: Sample) returns (more: seq<State>)
    requires Continues(run, longer) && AtSample(longer[|longer| - 1], k, x) && !longer[|longer| - 1].panicked
    ensures Continues(run, more) && !more[|more| - 1].panicked
    ensures var s, u := longer[|longer| - 1], more[|more| - 1];
            && |u.taken| == |s.taken| + 1 && u.taken[..|s.taken|] == s.taken && u.taken[|s.taken|].sample == x
            && |u.senders| == |s.senders| && forall j :: 0 <= j < |s.senders| && j != k ==> u.senders[j] == s.senders[j]
  {
    more := Extended(run, longer, Post(k, Accepted));
  }

  lemma DoomedTwice(run: seq<State>, longer: seq<State>, m: nat, x: Sample) returns (more: seq<State>)
    requires Continues(run, longer) && Doomed(longer[|longer| - 1], m, x)
    ensures Continues(run, more) && TwiceDelivered(more[|more| - 1])
  {
    var s := longer[|longer| - 1];
    more := Posts(run, longer, m, x);
    var u := more[|more| - 1];
    if Delivered(s, x) {
      var i :| 0 <= i < |s.taken| && s.taken[i].sample == x;
      assert u.taken[i] == u.taken[..|s.taken|][i];
    } else {
      var k :| AtSample(s, k, x) && k != m;
      more := Posts(run, more, k, x);
      var v := more[|more| - 1];
      assert v.taken[|s.taken|] == v.taken[..|u.taken|][|s.taken|];
    }
  }

  /** A careless start is over a queued sample that was taken, or that a running send is at. */
  lemma CarelessSample(s: State, id: nat) returns (p: nat)
    requires OnceInv(s) && id in s.store && !MaySend(s, id)
    ensures p < |s.store[id].samples|
    ensures var x := s.store[id].samples[p]; Delivered(s, x) || exists k :: AtSample(s, k, x)
  {
    hide OnceInv, AtSample, Delivered;
    var x: Sample;
    if AllFinished(s, id) {
      var d :| d in s.taken && d !in s.acknowledged && d.sample in s.store[id].samples;
      x := d.sample;
      TakenDelivered(s, d);
    } else {
      var k :| 0 <= k < |s.senders| && s.senders[k].target == id && !Finished(s.senders[k]);
      StillQueued(s, k);
      x := s.senders[k].snapshot.samples[s.senders[k].next];
      AtNext(s, k);
    }
    p :| 0 <= p < |s.store[id].samples| && s.store[id].samples[p] == x;
  }

  lemma TakenDelivered(s: State, d: Delivery)
    requires d in s.taken
    ensures Delivered(s, d.sample)
  {
    var i :| 0 <= i < |s.taken| && s.taken[i] == d;
  }

  lemma AtNext(s: State, k: nat)
    requires k < |s.senders| && s.senders[k].next < |s.senders[k].snapshot.samples|
    ensures s.senders[k].removing || AtSample(s, k, s.senders[k].snapshot.samples[s.senders[k].next])
  {
  }

  /**
   * From any state careful runs lead to: starting a send carelessly can deliver a sample twice, even if
   * every later send is started with care.
   */
  lemma CarelessDeliversTwice(run: seq<State>, id: nat) returns (longer: seq<State>)
    requires IsCarefulRun(run) && Enabled(run[|run| - 1], StartSend(id)) && !MaySend(run[|run| - 1], id)
    ensures Continues(run + [Apply(run[|run| - 1], StartSend(id))], longer)
    ensures TwiceDelivered(longer[|longer| - 1])
  {
    hide MaySend, OnceInv, Delivered, AtSample, TwiceDelivered;
    RunOnce(run);
    var s := run[|run| - 1];
    var p := CarelessSample(s, id);
    longer := AfterCareless(run, id, p);
  }

  lemma AfterCareless(run: seq<State>, id: nat, p: nat) returns (longer: seq<State>)
    requires run != [] && Enabled(run[|run| - 1], StartSend(id))
    requires var s := run[|run| - 1];
             && p < |s.store[id].samples|
             && (Delivered(s, s.store[id].samples[p]) || exists k :: AtSample(s, k, s.store[id].samples[p]))
    ensures Continues(run + [Apply(run[|run| - 1], StartSend(id))], longer)
    ensures TwiceDelivered(longer[|longer| - 1])
  {
    hide TwiceDelivered, CarefulNext;
    var s := run[|run| - 1];
    var x := s.store[id].samples[p];
    var s1, m := Apply(s, StartSend(id)), |s.senders|;
    var begun := run + [s1];
    longer := Refused(begun, begun, m, p);
    var u := longer[|longer| - 1];
    if !Delivered(s, x) {
      var k :| AtSample(s, k, x);
      assert AtSample(u, k, x);
    }
    longer := DoomedTwice(begun, longer, m, x);
  }

  lemma CarefulContinues(run: seq<State>, step: Step, longer: seq<State>)
    requires IsCarefulRun(run) && Careful(run[|run| - 1], step)
    requires Continues(run + [Apply(run[|run| - 1], step)], longer)
    ensures IsCarefulRun(longer)
  {
    hide Apply, MaySend;
    var begun := run + [Apply(run[|run| - 1], step)];
    assert forall i :: 0 <= i < |begun| ==> longer[i] == begun[i];
    forall i | 0 < i < |longer| ensures CarefulNext(longer[i - 1], longer[i]) {
      if i < |run| {
        assert CarefulNext(run[i - 1], run[i]);
      }
    }
  }

  /**
   * Starting a send is safe exactly when no other send of the suggestion is running and no queued sample
   * was taken with its answer lost: then, and only then, no careful continuation delivers a sample twice.
   */
  lemma StartExact(run: seq<State>, id: nat)
    requires IsCarefulRun(run) && Enabled(run[|run| - 1], StartSend(id))
    ensures MaySend(run[|run| - 1], id)
       <==> forall longer :: Continues(run + [Apply(run[|run| - 1], StartSend(id))], longer)
                         ==> !TwiceDelivered(longer[|longer| - 1])
  {
    hide MaySend, TwiceDelivered;
    if MaySend(run[|run| - 1], id) {
      forall longer | Continues(run + [Apply(run[|run| - 1], StartSend(id))], longer)
        ensures !TwiceDelivered(longer[|longer| - 1])
      {
        CarefulContinues(run, StartSend(id), longer);
        DeliveredOnce(longer);
      }
    } else {
      var longer := CarelessDeliversTwice(run, id);
    }
  }

  // ---------------------------------------------------------------- two runs

  lemma RunNext(run: seq<State>, step: Step) returns (longer: seq<State>)
    requires IsRun(run) && Enabled(run[|run| - 1], step)
    ensures IsRun(longer) && longer == run + [Apply(run[|run| - 1], step)]
  {
    hide Apply, Enabled;
    longer := run + [Apply(run[|run| - 1], step)];
    forall i | 0 < i < |longer| ensures Next(longer[i - 1], longer[i]) {
      if i < |run| {
        assert Next(run[i - 1], run[i]);
      }
    }
  }

  /** A suggestion with a token and one sample, and nothing sent. */
  predicate OneQueued(s: State, x: Sample) {
    && 1 in s.store && s.store[1].token != "" && s.store[1].samples == [x]
    && !s.panicked && s.senders == [] && s.taken == []
  }

  lemma Begun(x: Sample) returns (run: seq<State>)
    ensures IsRun(run) && OneQueued(run[|run| - 1], x)
    ensures forall i :: 0 <= i < |run| ==> run[i].senders == []
  {
    hide IsRun, Next;
    run := [Init()];
    InitRun();
    run := RunNext(run, NewSuggestion(1));
    run := RunNext(run, Request(1, "token"));
    run := RunNext(run, Add(1, x));
  }

  lemma InitRun()
    ensures IsRun([Init()])
  {
  }

  /** Two sends of one suggestion beside each other deliver the same sample twice. */
  lemma DeliveredTwice() returns (run: seq<State>)
    ensures IsRun(run) && TwiceDelivered(run[|run| - 1])
  {
    hide Next;
    run := Begun(Sample(7, "data"));
    run := RunNext(run, StartSend(1));
    run := RunNext(run, StartSend(1));
    run := RunNext(run, Post(0, Accepted));
    run := RunNext(run, Post(1, Accepted));
    var s := run[|run| - 1];
    assert s.taken[0].sample == s.taken[1].sample;
  }

  /** So do two sends one after the other, when the answer to the first is lost. */
  lemma LostAnswerDeliversTwice() returns (run: seq<State>)
    ensures IsRun(run) && TwiceDelivered(run[|run| - 1]) && forall i :: 0 <= i < |run| ==> OneRunning(run[i])
  {
    hide Next;
    run := Begun(Sample(7, "data"));
    run := RunNext(run, StartSend(1));
    run := RunNext(run, Post(0, AnswerLost));
    assert Finished(run[|run| - 1].senders[0]);
    run := RunNext(run, StartSend(1));
    run := RunNext(run, Post(1, Accepted));
    var s := run[|run| - 1];
    assert s.taken[0].sample == s.taken[1].sample;
  }
}
