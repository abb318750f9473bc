/** Where the token and the flag of a stored suggestion come from, in every interleaving. */
module SuggestionTokens {
  import opened Wrappers
  import opened Suggestions

  /** The state the steps lead to, if each is possible when it is taken. */
  function Reached(steps: seq<Step>): Option<State> {
    if steps == [] then Some(Init())
    else
      match Reached(steps[..|steps| - 1])
      case None => None
      case Some(s) => if Enabled(s, steps[|steps| - 1]) then Some(Apply(s, steps[|steps| - 1])) else None
  }

  /** Every run is made by such steps. */
  lemma {:induction false} RunSteps(run: seq<State>) returns (steps: seq<Step>)
    requires IsRun(run)
    ensures |steps| == |run| - 1 && Reached(steps) == Some(run[|run| - 1])
  {
    if |run| == 1 {
      steps := [];
    } else {
      var before := RunSteps(run[..|run| - 1]);
      assert Next(run[|run| - 2], run[|run| - 1]);
      var step :| Enabled(run[|run| - 2], step) && run[|run| - 1] == Apply(run[|run| - 2], step);
      steps := before + [step];
      assert steps[..|before|] == before;
    }
  }

  ghost predicate Requested(steps: seq<Step>, id: nat) {
    exists i :: 0 <= i < |steps| && steps[i].Request? && steps[i].id == id
  }

  ghost predicate LastRequest(steps: seq<Step>, id: nat, i: nat) {
    && i < |steps| && steps[i].Request? && steps[i].id == id
    && forall j :: i < j < |steps| && steps[j].Request? ==> steps[j].id != id
  }

  ghost predicate Finished(steps: seq<Step>, id: nat) {
    exists i :: 0 <= i < |steps| && steps[i] == Step.Done(id)
  }

  /** The token is that of the last answered request, whenever it came, and preparing is never undone. */
  ghost predicate FieldsExact(steps: seq<Step>, s: State, id: nat) {
    && (id !in s.store ==> !Requested(steps, id) && !Finished(steps, id))
    && (id in s.store ==>
         && (!Requested(steps, id) ==> s.store[id].token == "")
         && (forall i: nat :: LastRequest(steps, id, i) ==> s.store[id].token == steps[i].token)
         && (s.store[id].prepared <==> Finished(steps, id)))
  }

  /** What one step does to the token and the flag of a suggestion. */
  lemma FieldsNext(s: State, step: Step, id: nat)
    requires Enabled(s, step) && s.store.Keys == s.added.Keys
    ensures var s' := Apply(s, step);
            && s'.store.Keys == s'.added.Keys
            && (id in s'.store <==> id in s.store || step == NewSuggestion(id))
            && ((step.Request? || step.Done?) && step.id == id ==> id in s.store)
            && (id in s'.store && id !in s.store ==> s'.store[id].token == "" && !s'.store[id].prepared)
            && (id in s.store ==>
                 && s'.store[id].token == (if step.Request? && step.id == id then step.token else s.store[id].token)
                 && s'.store[id].prepared == (s.store[id].prepared || step == Step.Done(id)))
  {
    hide Without;
  }

  lemma {:induction false} TokenExact(steps: seq<Step>, id: nat)
    requires Reached(steps).Some?
    ensures Reached(steps).value.store.Keys == Reached(steps).value.added.Keys
    ensures FieldsExact(steps, Reached(steps).value, id)
  {
    if steps != [] {
      var n := |steps| - 1;
      var before, step := steps[..n], steps[n];
      TokenExact(before, id);
      var s, s' := Reached(before).value, Reached(steps).value;
      FieldsNext(s, step, id);
      RequestsNext(before, step, id);
      assert steps == before + [step];
      hide Reached, Enabled, Apply;
      forall i: nat | id in s'.store && LastRequest(steps, id, i) ensures s'.store[id].token == steps[i].token {
        if i < n {
          assert LastRequest(before, id, i);
        }
      }
    }
  }

  lemma RequestsNext(before: seq<Step>, step: Step, id: nat)
    ensures Requested(before + [step], id) <==> Requested(before, id) || (step.Request? && step.id == id)
    ensures Finished(before + [step], id) <==> Finished(before, id) || step == Step.Done(id)
    ensures forall i: nat :: i < |before| && LastRequest(before + [step], id, i) ==>
              LastRequest(before, id, i) && !(step.Request? && step.id == id)
  {
    var more := before + [step];
    assert more[|before|] == step && forall i :: 0 <= i < |before| ==> more[i] == before[i];
  }

  lemma {:induction false} ReachedInv(steps: seq<Step>)
    requires Reached(steps).Some?
    ensures Inv(Reached(steps).value)
  {
    if steps != [] {
      hide Inv, Apply, Enabled;
      ReachedInv(steps[..|steps| - 1]);
      StepInv(Reached(steps[..|steps| - 1]).value, Reached(steps).value);
    } else {
      assert Reached(steps).value == Init();
    }
  }

  /** A send can start exactly when the last answered request for the suggestion brought a token. */
  lemma SendsExact(steps: seq<Step>, id: nat, i: nat)
    requires Reached(steps).Some?
    ensures !Requested(steps, id) ==> !Enabled(Reached(steps).value, StartSend(id))
    ensures LastRequest(steps, id, i) ==>
              (Enabled(Reached(steps).value, StartSend(id)) <==> steps[i].token != "")
  {
    hide Reached, QueueExact, SenderExact;
    TokenExact(steps, id);
    ReachedInv(steps);
  }
}
