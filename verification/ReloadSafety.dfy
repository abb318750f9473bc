/** What a caller can check before a reload: when every interleaving of it ends right. */
module ReloadSafety {
  import opened Wrappers
  import opened Reload
  import opened ReloadRuns

  /** The turn of the port at hand, then the ports left. */
  function Turn(s: State): nat {
    match s.at
    case None => 0
    case Some(l) => if ToClose(l, s.config.portPassword) then 2 else 1
  }

  function ToRegister(s: State): nat {
    if s.exited then 0 else |s.pending|
  }

  predicate Works(s: State, step: Step) {
    Enabled(s, step) && !step.Begin? && !step.Register?
  }

  /** Every reload that is not done has a next step of its own. */
  lemma NextStep(s: State) returns (step: Step)
    requires !s.exited && !Quiet(s)
    ensures Works(s, step)
  {
    if s.at.Some? {
      step := if ToClose(s.at.value, s.config.portPassword) then Shut else Finish;
    } else if s.rest != {} {
      var port :| port in s.rest;
      step := LookUp(port);
    } else {
      var port :| port in s.dropped;
      step := LookUp(port);
    }
  }

  lemma LessLeft(s: State, step: Step)
    requires Works(s, step)
    ensures var t := Apply(s, step);
            && (step.LookUp? ==> t == LookedUp(s, step.port)) && !t.exited
            && s.pending <= t.pending && t.rest <= s.rest && t.dropped <= s.dropped
            && if step.LookUp? then
                 (s.rest + s.dropped) - {step.port} == t.rest + t.dropped && |t.rest + t.dropped| < |s.rest + s.dropped|
               else t.rest == s.rest && t.dropped == s.dropped && Turn(t) < Turn(s)
  {
    if step.LookUp? {
      var t := LookedUp(s, step.port);
      assert t.rest + t.dropped == (s.rest + s.dropped) - {step.port};
    }
  }

  lemma StepThen(s: State, step: Step, steps: seq<Step>, t: State)
    requires Enabled(s, step) && !step.Begin? && Reaches(Apply(s, step), steps, t) && OneReload(steps)
    ensures Reaches(s, [step] + steps, t) && OneReload([step] + steps)
  {
    hide Reaches, Enabled;
    FirstStep(s, step);
    ReachesJoin(s, [step], Apply(s, step), steps, t);
  }

  /** A reload that has begun can be finished, and what it started can register, or the program exits. */
  lemma {:induction false} Completes(s: State) returns (steps: seq<Step>, t: State)
    ensures Reaches(s, steps, t) && OneReload(steps) && Over(t)
    decreases |s.rest + s.dropped|, Turn(s), ToRegister(s)
  {
    hide Reaches, Apply;
    if Over(s) {
      steps, t := [], s;
      ReachesSelf(s);
    } else {
      var step: Step;
      if Quiet(s) {
        var r :| r in s.pending;
        step := Register(r);
        OneLessPending(s, r);
      } else {
        step := NextStep(s);
        LessLeft(s, step);
      }
      steps, t := Completes(Apply(s, step));
      StepThen(s, step, steps, t);
      steps := [step] + steps;
    }
  }

  lemma OneLessPending(s: State, r: Start)
    requires Enabled(s, Register(r))
    ensures var t := Apply(s, Register(r));
            t.rest == s.rest && t.dropped == s.dropped && Turn(t) == Turn(s) && ToRegister(t) < ToRegister(s)
  {
    assert |s.pending - multiset{r}| == |s.pending| - 1;
  }

  /** A port that a reload has yet to look up while an earlier start of it is pending. */
  ghost predicate Behind(s: State, p: string) {
    Fresh(s) && (p in s.rest || p in s.dropped) && StartsAt(s.pending, p)
  }

  lemma StillBehind(s: State, step: Step, p: string)
    requires Behind(s, p) && Works(s, step) && (step.LookUp? ==> !StartsAt(s.pending, step.port))
    ensures Behind(Apply(s, step), p)
  {
    hide Fresh;
    StepKeeps(s, step);
    LessLeft(s, step);
    var r :| r in s.pending && r.port == p;
    assert r in Apply(s, step).pending;
  }

  /** If no registration gets the lock, the reload looks some such port up. */
  lemma {:induction false} BadRun(s: State, p: string) returns (steps: seq<Step>, t: State)
    requires Behind(s, p)
    ensures Reaches(s, steps, t) && OneReload(steps) && Over(t) && !(Settled(t) && Matches(t))
    decreases |s.rest + s.dropped|, Turn(s)
  {
    hide Reaches, Apply, OneReload, Settled, Matches, Over;
    assert !s.exited && !Quiet(s);
    var step := NextStep(s);
    LessLeft(s, step);
    if step.LookUp? && StartsAt(s.pending, step.port) {
      steps, t := Completes(Apply(s, step));
      ReloadTooEarly(s, step.port, steps, t);
    } else {
      StillBehind(s, step, p);
      steps, t := BadRun(Apply(s, step), p);
    }
    StepThen(s, step, steps, t);
    steps := [step] + steps;
  }

  /** Every interleaving of the reload with registrations ends with the listeners matching the table. */
  ghost predicate Safe(s: State) {
    forall steps, t :: Reaches(s, steps, t) && OneReload(steps) && Over(t) ==> Settled(t) && Matches(t)
  }

  /**
   * What can be checked before a reload: every interleaving of it ends right if and only if everything
   * started has registered and every port served is in the old or the new table.
   */
  lemma SafeExact(s: State, c: Config)
    requires Fresh(s) && Quiet(s) && Unified(c).Some?
    ensures Safe(Begun(s, Some(c)))
       <==> s.pending == multiset{} && Served(s) <= s.config.portPassword.Keys + Unified(c).value.portPassword.Keys
  {
    var begun, tables := Begun(s, Some(c)), s.config.portPassword.Keys + Unified(c).value.portPassword.Keys;
    if s.pending == multiset{} && Served(s) <= tables {
      forall steps, t | Reaches(begun, steps, t) && OneReload(steps) && Over(t) ensures Settled(t) && Matches(t) {
        ReloadSettles(s, c, steps, t);
      }
    } else {
      var steps, t := WrongRun(s, c);
    }
  }

  lemma WrongRun(s: State, c: Config) returns (steps: seq<Step>, t: State)
    requires Fresh(s) && Quiet(s) && Unified(c).Some?
    requires s.pending != multiset{} || !(Served(s) <= s.config.portPassword.Keys + Unified(c).value.portPassword.Keys)
    ensures Reaches(Begun(s, Some(c)), steps, t) && OneReload(steps) && Over(t) && !(Settled(t) && Matches(t))
  {
    hide Reaches, OneReload, Over, Settled, Matches, GuardedReaches, Fresh;
    var begun, tables := Begun(s, Some(c)), s.config.portPassword.Keys + Unified(c).value.portPassword.Keys;
    if Served(s) <= tables {
      var r :| r in s.pending;
      assert r.port in Served(s);
      BeginKeeps(s, Some(c));
      steps, t := BadRun(begun, r.port);
    } else {
      steps, t := Completes(begun);
      ReloadExact(s, c, steps, t);
    }
  }
}
