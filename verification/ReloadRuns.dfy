/** When reloads and registrations, in any interleaving, bring the listeners into line with the configuration. */
module ReloadRuns {
  import opened Wrappers
  import opened Reload

  function Passwords(listeners: map<string, Listener>): map<string, string> {
    map p | p in listeners :: listeners[p].password
  }

  ghost predicate StartsAt(pending: multiset<Start>, port: string) {
    exists r :: r in pending && r.port == port
  }

  predicate At(s: State, port: string) {
    s.at.Some? && s.at.value.port == port
  }

  predicate Differs(listeners: map<string, Listener>, port: string, password: string) {
    port in listeners ==> listeners[port].password != password
  }

  // ---------------------------------------------------------------- the invariant

  /** What a reload has still to look up is in its tables, and apart from the port it is working on. */
  ghost predicate Placed(s: State) {
    && s.rest <= s.config.portPassword.Keys
    && s.dropped !! s.config.portPassword.Keys
    && (s.at.Some? ==> s.at.value.port !in s.rest + s.dropped)
  }

  /** Open listeners are the registered ones, and a registered one that is closed is about to be replaced. */
  ghost predicate Bound(s: State) {
    && (forall p :: p in s.open ==> p in s.listeners && s.open[p] == s.listeners[p].handle)
    && (forall p :: p in s.listeners ==>
          s.listeners[p].handle < s.next && (p in s.open || StartsAt(s.pending, p) || (At(s, p) && s.at.value.closed)))
  }

  /** At most one goroutine is starting for a port, on a port that is free, with a new password. */
  ghost predicate Awaited(s: State) {
    forall r :: r in s.pending ==>
      && s.pending[r] == 1
      && r.port !in s.open
      && Differs(s.listeners, r.port, r.password)
      && forall q :: q in s.pending && q.port == r.port ==> q == r
  }

  /** What the reload found is still there, and nothing is starting at that port. */
  ghost predicate Current(s: State) {
    s.at.Some? ==>
      var l := s.at.value;
      && !StartsAt(s.pending, l.port)
      && l.found == Lookup(s.listeners, l.port)
      && (l.closed ==> l.found.Some? && !Same(l, s.config.portPassword) && l.port !in s.open)
  }

  ghost predicate Fresh(s: State) {
    !s.exited && Placed(s) && Bound(s) && Awaited(s) && Current(s)
  }

  /** No reload is at work and everything started has registered. */
  ghost predicate Settled(s: State) {
    Fresh(s) && Quiet(s) && s.pending == multiset{}
  }

  ghost predicate Matches(s: State) {
    Passwords(s.listeners) == s.config.portPassword
  }

  /** Every earlier start of a port has registered when a reload looks the port up. */
  ghost predicate Guard(s: State, step: Step) {
    match step
    case Begin(parsed) => parsed.Some? ==> Unified(parsed.value).Some?
    case LookUp(port) => !StartsAt(s.pending, port)
    case _ => true
  }

  lemma BeginKeeps(s: State, parsed: Option<Config>)
    requires Fresh(s) && Quiet(s)
    ensures Fresh(Begun(s, parsed))
  {
    hide StartsAt, Unified;
  }

  lemma LookUpKeeps(s: State, port: string)
    requires Fresh(s) && Enabled(s, LookUp(port)) && Guard(s, LookUp(port))
    ensures Fresh(LookedUp(s, port))
  {
    hide StartsAt;
  }

  lemma ShutKeeps(s: State)
    requires Fresh(s) && Enabled(s, Shut)
    ensures Fresh(ShutDown(s, s.at.value))
  {
    hide StartsAt;
  }

  lemma LeaveKeeps(s: State)
    requires Fresh(s) && Enabled(s, Finish)
    requires s.at.value.port !in s.config.portPassword || Same(s.at.value, s.config.portPassword)
    ensures Fresh(Finished(s, s.at.value))
  {
    hide StartsAt;
  }

  lemma FreeToStart(s: State)
    requires Fresh(s) && Enabled(s, Finish)
    requires var l := s.at.value; l.port in s.config.portPassword && !Same(l, s.config.portPassword)
    ensures var p := s.at.value.port; p !in s.open && Differs(s.listeners, p, s.config.portPassword[p])
  {
    hide StartsAt;
  }

  lemma FinishKeeps(s: State)
    requires Fresh(s) && Enabled(s, Finish)
    ensures Fresh(Finished(s, s.at.value))
  {
    hide Fresh;
    var l := s.at.value;
    if l.port in s.config.portPassword && !Same(l, s.config.portPassword) {
      FreeToStart(s);
      StartKeeps(s, Start(l.port, s.config.portPassword[l.port]));
    } else {
      LeaveKeeps(s);
    }
  }

  lemma StartKeeps(s: State, r: Start)
    requires Fresh(s) && At(s, r.port) && r.port !in s.open && Differs(s.listeners, r.port, r.password)
    ensures Fresh(s.(at := None, pending := s.pending + multiset{r}))
  {
    hide StartsAt, Awaited, Bound;
    StartAwaited(s, r);
    StartBound(s, r);
  }

  lemma StartBound(s: State, r: Start)
    requires Bound(s) && At(s, r.port)
    ensures Bound(s.(at := None, pending := s.pending + multiset{r}))
  {
    StartsHere(s.pending, r);
    forall p ensures StartsAt(s.pending, p) ==> StartsAt(s.pending + multiset{r}, p) {
      MoreStay(s.pending, r, p);
    }
    hide StartsAt;
  }

  lemma StartsHere(pending: multiset<Start>, r: Start)
    ensures StartsAt(pending + multiset{r}, r.port)
  {
    assert r in pending + multiset{r};
  }

  lemma StartAwaited(s: State, r: Start)
    requires Awaited(s) && !StartsAt(s.pending, r.port) && r.port !in s.open && Differs(s.listeners, r.port, r.password)
    ensures Awaited(s.(at := None, pending := s.pending + multiset{r}))
  {
    var t := s.(at := None, pending := s.pending + multiset{r});
    assert forall q :: q in t.pending <==> q == r || q in s.pending;
  }

  lemma RegisterKeeps(s: State, r: Start)
    requires Fresh(s) && r in s.pending
    ensures Fresh(Registered(s, r))
  {
    hide Bound, Awaited, Current;
    AwaitedFree(s, r);
    RegisteredBound(s, r);
    RegisteredAwaited(s, r);
    RegisteredCurrent(s, r);
  }

  lemma AwaitedFree(s: State, r: Start)
    requires Awaited(s) && r in s.pending
    ensures r.port !in s.open
  {
  }

  lemma RegisteredBound(s: State, r: Start)
    requires Bound(s) && r in s.pending && r.port !in s.open
    ensures Bound(Registered(s, r))
  {
    var t := Registered(s, r);
    forall p | p in t.listeners ensures p in t.open || StartsAt(t.pending, p) || (At(t, p) && t.at.value.closed) {
      if p != r.port && StartsAt(s.pending, p) {
        var q :| q in s.pending && q.port == p;
        assert q in t.pending;
      }
    }
  }

  lemma RegisteredAwaited(s: State, r: Start)
    requires Awaited(s) && r in s.pending
    ensures Awaited(Registered(s, r))
  {
    var t := Registered(s, r);
    forall q | q in t.pending ensures q in s.pending && q.port != r.port {
    }
  }

  lemma RegisteredCurrent(s: State, r: Start)
    requires Current(s) && r in s.pending && r.port !in s.open
    ensures Current(Registered(s, r))
  {
    var t := Registered(s, r);
    assert forall q :: q in t.pending ==> q in s.pending;
    assert StartsAt(s.pending, r.port);
  }

  lemma StepKeeps(s: State, step: Step)
    requires Fresh(s) && Enabled(s, step) && Guard(s, step)
    ensures Fresh(Apply(s, step))
  {
    match step
    case Begin(parsed) => BeginKeeps(s, parsed);
    case LookUp(port) => LookUpKeeps(s, port);
    case Shut => ShutKeeps(s);
    case Finish => FinishKeeps(s);
    case Register(r) => RegisterKeeps(s, r);
  }

  // ---------------------------------------------------------------- what becomes of a port

  /** The port ends up with this password once everything started has registered. */
  ghost predicate Will(s: State, p: string, password: string) {
    if StartsAt(s.pending, p) then Start(p, password) in s.pending
    else p in s.listeners && s.listeners[p].password == password
  }

  ghost predicate WillServe(s: State, p: string) {
    StartsAt(s.pending, p) || p in s.listeners
  }

  predicate Unsettled(s: State, p: string) {
    p in s.rest || p in s.dropped || At(s, p)
  }

  ghost predicate Agrees(s: State, p: string) {
    if p in s.config.portPassword then Will(s, p, s.config.portPassword[p]) else !WillServe(s, p)
  }

  /** Every port the reload is done with agrees with the table; `extra` ports are served that none names. */
  ghost predicate InStep(s: State, extra: set<string>) {
    forall p :: Keeps(s, extra, p)
  }

  ghost predicate Keeps(s: State, extra: set<string>, p: string) {
    if p in extra then WillServe(s, p) && p !in s.config.portPassword && !Unsettled(s, p)
    else Unsettled(s, p) || Agrees(s, p)
  }

  lemma FreshAwaited(s: State)
    requires Fresh(s)
    ensures Awaited(s)
  {
    hide Awaited;
  }

  lemma RegisterHere(s: State, r: Start, extra: set<string>)
    requires Awaited(s) && r in s.pending && Keeps(s, extra, r.port)
    ensures Keeps(Registered(s, r), extra, r.port)
  {
    var t := Registered(s, r);
    assert StartsAt(s.pending, r.port);
    assert !StartsAt(t.pending, r.port);
  }

  lemma RegisterElsewhere(s: State, r: Start, p: string)
    requires r in s.pending && r.port != p && r.port !in s.open
    ensures SameAt(s, Registered(s, r), p)
  {
    hide StartsAt;
    OthersStay(s.pending, r, p);
  }

  lemma RegisterInStep(s: State, r: Start, extra: set<string>, p: string)
    requires Fresh(s) && r in s.pending && Keeps(s, extra, p)
    ensures Keeps(Registered(s, r), extra, p)
  {
    hide Fresh, StartsAt, Keeps, SameAt;
    FreshAwaited(s);
    AwaitedFree(s, r);
    if p == r.port {
      RegisterHere(s, r, extra);
    } else {
      RegisterElsewhere(s, r, p);
      SameKeeps(s, Registered(s, r), extra, p);
    }
  }

  lemma FinishInStep(s: State, extra: set<string>, p: string)
    requires Fresh(s) && Enabled(s, Finish) && Keeps(s, extra, p)
    ensures Keeps(Finished(s, s.at.value), extra, p)
  {
    var l, t := s.at.value, Finished(s, s.at.value);
    if p != l.port {
      FinishElsewhere(s, p);
      SameKeeps(s, t, extra, p);
    } else if l.port in s.config.portPassword && !Same(l, s.config.portPassword) {
      assert Start(p, s.config.portPassword[p]) in t.pending;
      hide Fresh;
    } else {
      hide StartsAt;
    }
  }

  /** The two states agree on what is starting and registered at the port. */
  ghost predicate SameAt(s: State, t: State, p: string) {
    && (forall w :: Start(p, w) in s.pending <==> Start(p, w) in t.pending)
    && StartsAt(s.pending, p) == StartsAt(t.pending, p)
    && Lookup(s.listeners, p) == Lookup(t.listeners, p)
    && Lookup(s.open, p) == Lookup(t.open, p)
  }

  lemma FinishElsewhere(s: State, p: string)
    requires Enabled(s, Finish) && s.at.value.port != p
    ensures SameAt(s, Finished(s, s.at.value), p)
  {
    hide StartsAt;
    var l, t := s.at.value, Finished(s, s.at.value);
    if l.port in s.config.portPassword {
      MoreStay(s.pending, Start(l.port, s.config.portPassword[l.port]), p);
    }
  }

  lemma SameKeeps(s: State, t: State, extra: set<string>, p: string)
    requires Keeps(s, extra, p) && SameAt(s, t, p)
    requires t.config == s.config && Unsettled(s, p) == Unsettled(t, p)
    ensures Keeps(t, extra, p)
  {
    hide StartsAt, Unsettled;
  }

  lemma StepInStep(s: State, step: Step, extra: set<string>)
    requires Fresh(s) && Enabled(s, step) && !step.Begin? && InStep(s, extra)
    ensures InStep(Apply(s, step), extra)
  {
    var t := Apply(s, step);
    forall p ensures Keeps(t, extra, p) {
      assert Keeps(s, extra, p);
      match step
      case Finish => FinishInStep(s, extra, p);
      case Register(r) => RegisterInStep(s, r, extra, p);
      case _ => hide StartsAt;
    }
  }

  // ---------------------------------------------------------------- guarded runs

  /** Like `Reaches`, with the guard met at every step. */
  ghost predicate GuardedReaches(s: State, steps: seq<Step>, t: State) {
    if steps == [] then t == s
    else
      var n := |steps| - 1;
      exists u :: GuardedReaches(s, steps[..n], u) && Enabled(u, steps[n]) && Guard(u, steps[n]) && t == Apply(u, steps[n])
  }

  lemma {:induction false} GuardedKeeps(s: State, steps: seq<Step>, t: State)
    requires Fresh(s) && GuardedReaches(s, steps, t)
    ensures Fresh(t)
    decreases |steps|
  {
    if steps != [] {
      var n := |steps| - 1;
      var u :| GuardedReaches(s, steps[..n], u) && Enabled(u, steps[n]) && Guard(u, steps[n]) && t == Apply(u, steps[n]);
      hide *;
      GuardedKeeps(s, steps[..n], u);
      StepKeeps(u, steps[n]);
    }
  }

  lemma {:induction false} GuardedInStep(s: State, steps: seq<Step>, t: State, extra: set<string>)
    requires Fresh(s) && InStep(s, extra) && GuardedReaches(s, steps, t) && OneReload(steps)
    ensures InStep(t, extra) && t.config == s.config
    decreases |steps|
  {
    if steps != [] {
      var n := |steps| - 1;
      var u :| GuardedReaches(s, steps[..n], u) && Enabled(u, steps[n]) && Guard(u, steps[n]) && t == Apply(u, steps[n]);
      InitOf(steps);
      GuardedInStep(s, steps[..n], u, extra);
      GuardedKeeps(s, steps[..n], u);
      ConfigStays(u, steps[n]);
      hide *;
      StepInStep(u, steps[n], extra);
    }
  }

  lemma InitOf(steps: seq<Step>)
    requires steps != [] && OneReload(steps)
    ensures OneReload(steps[..|steps| - 1]) && !steps[|steps| - 1].Begin?
  {
  }

  lemma ConfigStays(s: State, step: Step)
    requires Enabled(s, step) && !step.Begin?
    ensures Apply(s, step).config == s.config
  {
  }

  /** The ports that are served, or will be. */
  ghost function Served(s: State): set<string> {
    s.listeners.Keys + set r | r in s.pending :: r.port
  }

  lemma BegunInStep(s: State, parsed: Option<Config>)
    requires Fresh(s) && Quiet(s) && parsed.Some? && Unified(parsed.value).Some?
    ensures var u := Unified(parsed.value).value;
            InStep(Begun(s, parsed), Served(s) - s.config.portPassword.Keys - u.portPassword.Keys)
  {
    var t, u := Begun(s, parsed), Unified(parsed.value).value;
    var extra := Served(s) - s.config.portPassword.Keys - u.portPassword.Keys;
    forall p ensures Keeps(t, extra, p) {
      assert p in Served(s) <==> WillServe(s, p);
    }
  }

  lemma SettledMatches(t: State, extra: set<string>)
    requires Fresh(t) && Quiet(t) && t.pending == multiset{} && InStep(t, extra)
    ensures Matches(t) <==> extra == {}
  {
    var table, served := t.config.portPassword, Passwords(t.listeners);
    forall p ensures p in extra ==> p in served && p !in table {
      assert Keeps(t, extra, p) && !StartsAt(t.pending, p);
    }
    forall p ensures p !in extra ==> Lookup(served, p) == Lookup(table, p) {
      assert Keeps(t, extra, p) && !StartsAt(t.pending, p);
    }
    if extra == {} {
      EqualMaps(served, table);
    }
  }

  lemma EqualMaps(a: map<string, string>, b: map<string, string>)
    requires forall p :: Lookup(a, p) == Lookup(b, p)
    ensures a == b
  {
    forall p ensures (p in a <==> p in b) && (p in a ==> a[p] == b[p]) {
      assert Lookup(a, p) == Lookup(b, p);
    }
  }

  // ---------------------------------------------------------------- an unguarded look-up

  /** Somebody else's listener is open: not the one the reload found and may close. */
  predicate Foreign(s: State, p: string) {
    p in s.open && (At(s, p) && s.at.value.found.Some? ==> s.open[p] != s.at.value.found.value.handle)
  }

  predicate OldHandle(s: State, p: string) {
    At(s, p) && s.at.value.found.Some? ==> s.at.value.found.value.handle < s.next
  }

  ghost predicate HasTwo(pending: multiset<Start>, p: string) {
    exists r, q :: multiset{r, q} <= pending && r.port == p && q.port == p
  }

  /** The reload is about to start a second goroutine for the port. */
  ghost predicate WillStart(s: State, p: string) {
    && At(s, p) && p in s.config.portPassword && !Same(s.at.value, s.config.portPassword)
    && (StartsAt(s.pending, p) || Foreign(s, p)) && OldHandle(s, p)
  }

  /** Two goroutines contend for the port, one of them perhaps with its listener open. */
  ghost predicate Contended(s: State, p: string) {
    !At(s, p) && ((p in s.open && StartsAt(s.pending, p)) || HasTwo(s.pending, p))
  }

  /** The port is or will be served with another password than the table's. */
  ghost predicate Wrong(s: State, p: string) {
    && p in s.config.portPassword && (At(s, p) ==> Same(s.at.value, s.config.portPassword))
    && (forall r :: r in s.pending && r.port == p ==> r.password != s.config.portPassword[p])
    && (StartsAt(s.pending, p) || (p in s.listeners && s.listeners[p].password != s.config.portPassword[p]))
  }

  /** A port that was dropped is or will be open. */
  ghost predicate Stale(s: State, p: string) {
    p !in s.config.portPassword && (StartsAt(s.pending, p) || Foreign(s, p)) && OldHandle(s, p)
  }

  ghost predicate Lost(s: State, p: string) {
    && p !in s.rest && p !in s.dropped
    && (WillStart(s, p) || Contended(s, p) || Wrong(s, p) || Stale(s, p))
  }

  ghost predicate Doomed(s: State) {
    s.exited || exists p :: Lost(s, p)
  }

  /** Looking a port up while an earlier start of it is pending loses the port. */
  lemma UnguardedLoses(s: State, port: string)
    requires Fresh(s) && Enabled(s, LookUp(port)) && StartsAt(s.pending, port)
    ensures Lost(LookedUp(s, port), port)
  {
    var t := LookedUp(s, port);
    var r :| r in s.pending && r.port == port;
    if port in s.config.portPassword && Same(t.at.value, s.config.portPassword) {
      assert Wrong(t, port);
    } else if port in s.config.portPassword {
      assert WillStart(t, port);
    } else {
      assert Stale(t, port);
    }
  }

  lemma LostRegister(s: State, r: Start, p: string)
    requires Lost(s, p) && r in s.pending
    ensures Registered(s, r).exited || Lost(Registered(s, r), p)
  {
    if r.port !in s.open {
      if r.port == p {
        LostOpens(s, r);
      } else {
        OthersStay(s.pending, r, p);
        RegisterElsewhere(s, r, p);
        LostCarries(s, Registered(s, r), p);
      }
    }
  }

  lemma LostOpens(s: State, r: Start)
    requires Lost(s, r.port) && r in s.pending && r.port !in s.open
    ensures Lost(Registered(s, r), r.port)
  {
    hide WillStart, Contended, Wrong, Stale;
    if Contended(s, r.port) {
      ContendedOpens(s, r);
    } else if WillStart(s, r.port) {
      ForeignOpens(s, r);
    } else if Stale(s, r.port) {
      ForeignOpens(s, r);
    } else {
      WrongOpens(s, r);
    }
  }

  lemma ContendedOpens(s: State, r: Start)
    requires Contended(s, r.port) && r in s.pending && r.port !in s.open
    ensures Contended(Registered(s, r), r.port)
  {
    var t, p := Registered(s, r), r.port;
    var x, y :| multiset{x, y} <= s.pending && x.port == p && y.port == p;
    assert x in t.pending || y in t.pending;
  }

  lemma ForeignOpens(s: State, r: Start)
    requires r in s.pending && r.port !in s.open
    ensures WillStart(s, r.port) ==> WillStart(Registered(s, r), r.port)
    ensures Stale(s, r.port) ==> Stale(Registered(s, r), r.port)
  {
    hide StartsAt;
  }

  lemma WrongOpens(s: State, r: Start)
    requires Wrong(s, r.port) && r in s.pending && r.port !in s.open
    ensures Wrong(Registered(s, r), r.port)
  {
    assert forall q :: q in s.pending - multiset{r} ==> q in s.pending;
  }

  lemma LostCarries(s: State, t: State, p: string)
    requires Lost(s, p) && SameAt(s, t, p) && (HasTwo(s.pending, p) ==> HasTwo(t.pending, p))
    requires t.config == s.config && t.rest <= s.rest && t.dropped <= s.dropped && s.next <= t.next
    requires At(s, p) == At(t, p) && (At(s, p) ==> s.at == t.at)
    requires forall r :: r in t.pending && r.port == p ==> r in s.pending
    ensures Lost(t, p)
  {
    hide StartsAt, HasTwo;
    if WillStart(s, p) {
      assert WillStart(t, p);
    } else if Stale(s, p) {
      assert Stale(t, p);
    } else if Wrong(s, p) {
      assert Wrong(t, p);
    } else {
      assert Contended(t, p);
    }
  }

  lemma OthersStay(pending: multiset<Start>, r: Start, p: string)
    requires r in pending && r.port != p
    ensures StartsAt(pending - multiset{r}, p) == StartsAt(pending, p)
    ensures HasTwo(pending, p) ==> HasTwo(pending - multiset{r}, p)
    ensures forall q :: q in pending - multiset{r} ==> q in pending
  {
    var left := pending - multiset{r};
    assert forall q: Start :: q.port == p ==> (q in left <==> q in pending);
    if HasTwo(pending, p) {
      var x, y :| multiset{x, y} <= pending && x.port == p && y.port == p;
      assert multiset{x, y} <= left;
    }
  }

  lemma LostFinish(s: State, p: string)
    requires Lost(s, p) && Enabled(s, Finish)
    ensures Lost(Finished(s, s.at.value), p)
  {
    var l, t := s.at.value, Finished(s, s.at.value);
    if l.port == p {
      LostFinishHere(s, p);
    } else {
      FinishElsewhere(s, p);
      if l.port in s.config.portPassword {
        MoreStay(s.pending, Start(l.port, s.config.portPassword[l.port]), p);
      }
      assert t.pending == s.pending || (l.port in s.config.portPassword
             && t.pending == s.pending + multiset{Start(l.port, s.config.portPassword[l.port])});
      LostCarries(s, t, p);
    }
  }

  lemma LostFinishHere(s: State, p: string)
    requires Lost(s, p) && Enabled(s, Finish) && s.at.value.port == p
    ensures Lost(Finished(s, s.at.value), p)
  {
    if WillStart(s, p) {
      SecondStart(s, p);
      hide WillStart, Wrong, Stale, Contended;
    } else {
      hide StartsAt, HasTwo;
    }
  }

  lemma SecondStart(s: State, p: string)
    requires WillStart(s, p) && Enabled(s, Finish)
    ensures var t := Finished(s, s.at.value); Contended(t, p) && t.rest == s.rest && t.dropped == s.dropped
  {
    var r, more := Start(p, s.config.portPassword[p]), s.pending + multiset{Start(p, s.config.portPassword[p])};
    assert r in more;
    if StartsAt(s.pending, p) {
      var q :| q in s.pending && q.port == p;
      assert multiset{q, r} <= more;
      assert HasTwo(more, p);
    } else {
      assert StartsAt(more, p);
    }
  }

  lemma MoreStay(pending: multiset<Start>, r: Start, p: string)
    ensures StartsAt(pending, p) ==> StartsAt(pending + multiset{r}, p)
    ensures HasTwo(pending, p) ==> HasTwo(pending + multiset{r}, p)
    ensures r.port != p ==> StartsAt(pending, p) == StartsAt(pending + multiset{r}, p)
    ensures forall q :: q in pending + multiset{r} ==> q in pending || q == r
  {
    var more := pending + multiset{r};
    assert forall q :: q in pending ==> q in more;
    assert forall q :: q in more ==> q in pending || q == r;
    if HasTwo(pending, p) {
      var x, y :| multiset{x, y} <= pending && x.port == p && y.port == p;
      assert multiset{x, y} <= more;
    }
  }

  lemma LostStep(s: State, step: Step, p: string)
    requires Lost(s, p) && Enabled(s, step) && !step.Begin?
    ensures Apply(s, step).exited || Lost(Apply(s, step), p)
  {
    match step
    case Register(r) => LostRegister(s, r, p);
    case Finish => LostFinish(s, p);
    case _ => hide StartsAt, HasTwo;
  }

  /** Once lost, a reload never ends right. */
  lemma LostNotRight(s: State, p: string)
    requires Lost(s, p) && Settled(s)
    ensures !Matches(s)
  {
    assert !StartsAt(s.pending, p);
    assert !HasTwo(s.pending, p) by {
      NoTwo(p);
    }
    assert Wrong(s, p) || Stale(s, p);
    if p in s.config.portPassword {
      assert Lookup(Passwords(s.listeners), p) != Lookup(s.config.portPassword, p);
    } else {
      assert p in Passwords(s.listeners);
    }
  }

  lemma NoTwo(p: string)
    ensures !HasTwo(multiset{}, p)
  {
    forall r: Start, q: Start ensures !(multiset{r, q} <= multiset{}) {
      assert multiset{r, q}[r] > 0;
    }
  }

  lemma {:induction false} GuardedOrDoomed(s: State, steps: seq<Step>, t: State)
    requires Fresh(s) && Reaches(s, steps, t) && OneReload(steps)
    ensures GuardedReaches(s, steps, t) || Doomed(t)
    decreases |steps|
  {
    if steps != [] {
      var n := |steps| - 1;
      var u :| Reaches(s, steps[..n], u) && Enabled(u, steps[n]) && t == Apply(u, steps[n]);
      InitOf(steps);
      GuardedOrDoomed(s, steps[..n], u);
      if p :| Lost(u, p) {
        LostStep(u, steps[n], p);
      } else if !Guard(u, steps[n]) {
        GuardedKeeps(s, steps[..n], u);
        UnguardedLoses(u, steps[n].port);
      }
      hide Lost, Fresh, Apply, Guard;
    }
  }

  // ---------------------------------------------------------------- one reload

  /** The reload is done and everything started has registered, or the program has exited. */
  predicate Over(t: State) {
    t.exited || (Quiet(t) && t.pending == multiset{})
  }

  /**
   * From any state that well-guarded reloads lead to, and for every interleaving of the next reload with
   * registrations: it ends with the listeners matching the table exactly when each earlier start of a
   * port had registered when the reload looked the port up, and no port is served that neither table names.
   */
  lemma ReloadExact(s: State, c: Config, steps: seq<Step>, t: State)
    requires Fresh(s) && Quiet(s) && Unified(c).Some?
    requires Reaches(Begun(s, Some(c)), steps, t) && OneReload(steps) && Over(t)
    ensures Settled(t) && Matches(t)
       <==> GuardedReaches(Begun(s, Some(c)), steps, t)
            && Served(s) <= s.config.portPassword.Keys + Unified(c).value.portPassword.Keys
  {
    var extra := Served(s) - s.config.portPassword.Keys - Unified(c).value.portPassword.Keys;
    var begun := Begun(s, Some(c));
    BeginKeeps(s, Some(c));
    BegunInStep(s, Some(c));
    GuardedOrDoomed(begun, steps, t);
    hide Fresh, Quiet, Served, Lost, Matches, InStep, Reaches, GuardedReaches, Begun, Unified, OneReload;
    if GuardedReaches(begun, steps, t) {
      GuardedKeeps(begun, steps, t);
      GuardedInStep(begun, steps, t, extra);
      FreshOver(t);
      SettledMatches(t, extra);
    } else if Settled(t) {
      SettledRuns(t);
      var p :| Lost(t, p);
      LostNotRight(t, p);
    }
  }

  lemma FreshOver(t: State)
    requires Fresh(t) && Over(t)
    ensures Quiet(t) && t.pending == multiset{} && Settled(t)
  {
  }

  lemma SettledRuns(t: State)
    requires Settled(t)
    ensures !t.exited
  {
  }

  // ---------------------------------------------------------------- settled reloads

  /** Nothing started earlier is left for a port that the reload has still to look up. */
  ghost predicate OwnOnly(s: State) {
    forall r :: r in s.pending ==> r.port !in s.rest && r.port !in s.dropped
  }

  lemma OwnStep(s: State, step: Step)
    requires Fresh(s) && OwnOnly(s) && Enabled(s, step) && (step.Begin? ==> s.pending == multiset{})
    ensures OwnOnly(Apply(s, step)) && (step.LookUp? ==> Guard(s, step))
  {
    match step
    case Register(r) =>
      assert forall q :: q in s.pending - multiset{r} ==> q in s.pending;
      hide Fresh;
    case Finish =>
      OwnFinish(s);
    case LookUp(port) =>
      assert !StartsAt(s.pending, port);
      hide Fresh;
    case _ =>
      hide Fresh;
  }

  lemma OwnFinish(s: State)
    requires Fresh(s) && OwnOnly(s) && Enabled(s, Finish)
    ensures OwnOnly(Finished(s, s.at.value))
  {
    hide Bound, Awaited, Current;
  }

  /** A reload of a settled server is guarded in every interleaving. */
  lemma {:induction false} OwnGuarded(s: State, steps: seq<Step>, t: State)
    requires Fresh(s) && OwnOnly(s) && Reaches(s, steps, t) && OneReload(steps)
    ensures GuardedReaches(s, steps, t) && OwnOnly(t)
    decreases |steps|
  {
    if steps != [] {
      var n := |steps| - 1;
      var u :| Reaches(s, steps[..n], u) && Enabled(u, steps[n]) && t == Apply(u, steps[n]);
      InitOf(steps);
      OwnGuarded(s, steps[..n], u);
      GuardedKeeps(s, steps[..n], u);
      OwnStep(u, steps[n]);
      hide Fresh, OwnOnly, Apply, Enabled;
    }
  }

  /** The port is served by this listener, with the table's password, and the reload leaves it alone. */
  ghost predicate Untouched(s: State, p: string, l: Listener) {
    && p in s.open && Lookup(s.listeners, p) == Some(l)
    && p in s.config.portPassword && s.config.portPassword[p] == l.password
  }

  lemma UntouchedStep(s: State, step: Step, p: string, l: Listener)
    requires Fresh(s) && Enabled(s, step) && !step.Begin? && Untouched(s, p, l)
    ensures Untouched(Apply(s, step), p, l)
  {
    hide StartsAt;
    match step
    case Register(r) => AwaitedFree(s, r);
    case _ =>
  }

  lemma {:induction false} UntouchedRun(s: State, steps: seq<Step>, t: State, p: string, l: Listener)
    requires Fresh(s) && Untouched(s, p, l) && GuardedReaches(s, steps, t) && OneReload(steps)
    ensures Untouched(t, p, l)
    decreases |steps|
  {
    if steps != [] {
      var n := |steps| - 1;
      var u :| GuardedReaches(s, steps[..n], u) && Enabled(u, steps[n]) && Guard(u, steps[n]) && t == Apply(u, steps[n]);
      InitOf(steps);
      UntouchedRun(s, steps[..n], u, p, l);
      GuardedKeeps(s, steps[..n], u);
      hide *;
      UntouchedStep(u, steps[n], p, l);
    }
  }

  /**
   * A reload of a settled server, in every interleaving of its steps with registrations: the program
   * goes on, ports with an unchanged password keep their listener, and the listeners match the new
   * table exactly when every port served before is in the old or the new table.
   */
  lemma ReloadSettles(s: State, c: Config, steps: seq<Step>, t: State)
    requires Settled(s) && Unified(c).Some?
    requires Reaches(Begun(s, Some(c)), steps, t) && OneReload(steps) && Over(t)
    ensures var table := Unified(c).value.portPassword;
            && Settled(t) && t.config == Unified(c).value
            && (Matches(t) <==> s.listeners.Keys <= s.config.portPassword.Keys + table.Keys)
            && forall p :: p in s.listeners && p in table && s.listeners[p].password == table[p]
                           ==> Lookup(t.listeners, p) == Some(s.listeners[p])
  {
    var begun, table := Begun(s, Some(c)), Unified(c).value.portPassword;
    BeginKeeps(s, Some(c));
    BegunInStep(s, Some(c));
    assert OwnOnly(begun);
    OwnGuarded(begun, steps, t);
    var extra := Served(s) - s.config.portPassword.Keys - table.Keys;
    GuardedKeeps(begun, steps, t);
    GuardedInStep(begun, steps, t, extra);
    FreshOver(t);
    SettledMatches(t, extra);
    assert Served(s) == s.listeners.Keys;
    forall p | p in s.listeners && p in table && s.listeners[p].password == table[p]
      ensures Lookup(t.listeners, p) == Some(s.listeners[p])
    {
      assert Untouched(begun, p, s.listeners[p]);
      UntouchedRun(begun, steps, t, p, s.listeners[p]);
    }
    hide *;
  }

  // ---------------------------------------------------------------- any number of reloads

  /** Every reload begins when all has registered, with a file that is unreadable or names something. */
  ghost predicate CalmReaches(s: State, steps: seq<Step>, t: State) {
    if steps == [] then t == s
    else
      var n := |steps| - 1;
      exists u :: CalmReaches(s, steps[..n], u) && Enabled(u, steps[n]) && Calm(u, steps[n]) && t == Apply(u, steps[n])
  }

  ghost predicate Calm(s: State, step: Step) {
    step.Begin? ==> s.pending == multiset{} && (step.parsed.Some? ==> Unified(step.parsed.value).Some?)
  }

  lemma BeginInStep(s: State, parsed: Option<Config>)
    requires Fresh(s) && Quiet(s) && InStep(s, {}) && Guard(s, Begin(parsed))
    ensures InStep(Begun(s, parsed), {})
  {
    if parsed.Some? {
      forall p ensures Keeps(Begun(s, parsed), {}, p) {
        assert Keeps(s, {}, p);
      }
    }
  }

  /**
   * Whatever reloads and registrations interleave, as long as each port is looked up only when its
   * earlier start has registered and no file names nothing: whenever no reload is at work and
   * everything has registered, the listeners match the configuration.
   */
  lemma {:induction false} GuardedRunsMatch(s: State, steps: seq<Step>, t: State)
    requires Fresh(s) && InStep(s, {}) && GuardedReaches(s, steps, t)
    ensures Fresh(t) && InStep(t, {}) && (Quiet(t) && t.pending == multiset{} ==> Settled(t) && Matches(t))
    decreases |steps|
  {
    GuardedKeeps(s, steps, t);
    if steps != [] {
      var n := |steps| - 1;
      var u :| GuardedReaches(s, steps[..n], u) && Enabled(u, steps[n]) && Guard(u, steps[n]) && t == Apply(u, steps[n]);
      GuardedRunsMatch(s, steps[..n], u);
      InStepNext(u, steps[n]);
    }
    hide Fresh, InStep, Quiet, Reaches, GuardedReaches, Matches;
    if Quiet(t) && t.pending == multiset{} {
      SettledMatches(t, {});
    }
  }

  lemma InStepNext(s: State, step: Step)
    requires Fresh(s) && InStep(s, {}) && Enabled(s, step) && Guard(s, step)
    ensures InStep(Apply(s, step), {})
  {
    hide Fresh, InStep;
    match step
    case Begin(parsed) => BeginInStep(s, parsed);
    case _ => StepInStep(s, step, {});
  }

  /** Over any number of reloads that each begin when all has registered, the listeners match each time. */
  lemma RunsMatch(s: State, steps: seq<Step>, t: State)
    requires Settled(s) && Matches(s) && CalmReaches(s, steps, t)
    ensures !t.exited && (Quiet(t) && t.pending == multiset{} ==> Settled(t) && Matches(t))
  {
    assert OwnOnly(s);
    CalmGuarded(s, steps, t);
    MatchingInStep(s);
    GuardedRunsMatch(s, steps, t);
  }

  lemma MatchingInStep(s: State)
    requires Settled(s) && Matches(s)
    ensures InStep(s, {})
  {
    forall p ensures Keeps(s, {}, p) {
      assert Lookup(Passwords(s.listeners), p) == Lookup(s.config.portPassword, p);
      assert !StartsAt(s.pending, p);
    }
  }

  lemma {:induction false} CalmGuarded(s: State, steps: seq<Step>, t: State)
    requires Fresh(s) && OwnOnly(s) && CalmReaches(s, steps, t)
    ensures GuardedReaches(s, steps, t) && OwnOnly(t)
    decreases |steps|
  {
    if steps != [] {
      var n := |steps| - 1;
      var u :| CalmReaches(s, steps[..n], u) && Enabled(u, steps[n]) && Calm(u, steps[n]) && t == Apply(u, steps[n]);
      CalmGuarded(s, steps[..n], u);
      GuardedKeeps(s, steps[..n], u);
      OwnStep(u, steps[n]);
      hide Fresh, OwnOnly, Apply, Enabled;
    }
  }

  const NOTHING: State := State(Config(map[], 0, ""), map[], map[], multiset{}, 0, false, {}, {}, None)

  /** The program's start is a reload of a server that serves nothing. */
  lemma StartUp(c: Config, steps: seq<Step>, t: State)
    requires Unified(c).Some? && Reaches(Begun(NOTHING, Some(c)), steps, t) && OneReload(steps) && Over(t)
    ensures Settled(t) && Matches(t) && t.config == Unified(c).value
  {
    assert Settled(NOTHING);
    ReloadSettles(NOTHING, c, steps, t);
    hide *;
  }

  /** A file that names nothing to serve changes no listener, but the next reload then leaves dropped ports open. */
  lemma AfterEmptyFile(s: State, empty: Config, c: Config, steps: seq<Step>, t: State)
    requires Settled(s) && Unified(empty) == None && Unified(c).Some?
    requires Reaches(Begun(Begun(s, Some(empty)), Some(c)), steps, t) && OneReload(steps) && Over(t)
    ensures Settled(t) && (Matches(t) <==> s.listeners.Keys <= Unified(c).value.portPassword.Keys)
  {
    var u := Begun(s, Some(empty));
    assert u == s.(config := empty) && empty.portPassword == map[];
    BeginKeeps(s, Some(empty));
    assert Settled(u);
    ReloadSettles(u, c, steps, t);
    hide *;
  }

  // ---------------------------------------------------------------- how a reload goes wrong

  /**
   * A reload that looks a port up while an earlier start of it is pending never ends right, however
   * its remaining steps and the registrations interleave.
   */
  lemma ReloadTooEarly(s: State, port: string, steps: seq<Step>, t: State)
    requires Fresh(s) && Enabled(s, LookUp(port)) && StartsAt(s.pending, port)
    requires Reaches(LookedUp(s, port), steps, t) && OneReload(steps)
    ensures !(Settled(t) && Matches(t))
  {
    hide *;
    UnguardedLoses(s, port);
    LostRun(LookedUp(s, port), steps, t, port);
    if Settled(t) {
      SettledRuns(t);
      LostNotRight(t, port);
    }
  }

  lemma {:induction false} LostRun(s: State, steps: seq<Step>, t: State, p: string)
    requires Lost(s, p) && Reaches(s, steps, t) && OneReload(steps)
    ensures t.exited || Lost(t, p)
    decreases |steps|
  {
    if steps != [] {
      var n := |steps| - 1;
      var u :| Reaches(s, steps[..n], u) && Enabled(u, steps[n]) && t == Apply(u, steps[n]);
      InitOf(steps);
      LostRun(s, steps[..n], u, p);
      if !u.exited {
        LostStep(u, steps[n], p);
      }
      hide Lost, Apply;
    }
  }

  lemma OnePort(s: State, port: string, password: string)
    ensures var c := Config(map[port := password], 0, "");
            Unified(c) == Some(c)
            && Begun(s, Some(c)) == s.(config := c, rest := {port}, dropped := s.config.portPassword.Keys - {port})
  {
    var c := Config(map[port := password], 0, "");
    assert port in c.portPassword && c.portPassword.Keys == {port};
  }

  /** From the first step of a reload of one port that has no listener to the last. */
  lemma OneStart(s: State, port: string)
    requires !s.exited && s.at == None && s.rest == {port} && s.dropped == {}
    requires port !in s.listeners && port in s.config.portPassword
    ensures Reaches(s, [LookUp(port), Finish],
                    s.(rest := {}, pending := s.pending + multiset{Start(port, s.config.portPassword[port])}))
  {
    hide Reaches;
    FirstStep(s, LookUp(port));
    var looked := s.(rest := {}, at := Some(Look(port, None, false)));
    assert LookedUp(s, port) == looked;
    ReachesNext(s, [LookUp(port)], looked, Finish);
    assert [LookUp(port)] + [Finish] == [LookUp(port), Finish];
  }

  /** A reload whose file names one unregistered port starts it. */
  lemma StartOne(before: seq<Step>, s: State, port: string, password: string) returns (steps: seq<Step>)
    requires Reaches(NOTHING, before, s) && !s.exited && Quiet(s)
    requires port !in s.listeners && s.config.portPassword.Keys <= {port}
    ensures var c := Config(map[port := password], 0, "");
            Reaches(NOTHING, steps, s.(config := c, pending := s.pending + multiset{Start(port, password)}))
  {
    var c := Config(map[port := password], 0, "");
    OnePort(s, port, password);
    var begun := s.(config := c, rest := {port}, dropped := {});
    assert Begun(s, Some(c)) == begun;
    ReachesNext(NOTHING, before, s, Begin(Some(c)));
    OneStart(begun, port);
    hide *;
    steps := before + [Begin(Some(c))] + [LookUp(port), Finish];
    var t := begun.(rest := {}, pending := begun.pending + multiset{Start(port, password)});
    ReachesJoin(NOTHING, before + [Begin(Some(c))], begun, [LookUp(port), Finish], t);
    assert t == s.(config := c, pending := s.pending + multiset{Start(port, password)}) by {
      QuietParts(s);
    }
  }

  lemma QuietParts(s: State)
    requires Quiet(s)
    ensures s.rest == {} && s.dropped == {} && s.at == None
  {
  }

  /** One such run: a port is given two passwords in two reloads before it registers, and the program exits. */
  lemma TwoStartsExit(port: string, a: string, b: string) returns (steps: seq<Step>, t: State)
    ensures Reaches(NOTHING, steps, t) && t.exited
  {
    hide Reaches;
    var x, y := Start(port, a), Start(port, b);
    ReachesSelf(NOTHING);
    var s := NOTHING.(config := Config(map[port := a], 0, ""), pending := multiset{x});
    steps := StartOne([], NOTHING, port, a);
    assert multiset{} + multiset{x} == multiset{x};
    steps := StartOne(steps, s, port, b);
    s := s.(config := Config(map[port := b], 0, ""), pending := multiset{x, y});
    assert multiset{x} + multiset{y} == multiset{x, y};
    ReachesNext(NOTHING, steps, s, Register(x));
    steps, s := steps + [Register(x)], Registered(s, x);
    assert y in s.pending;
    ReachesNext(NOTHING, steps, s, Register(y));
    steps, t := steps + [Register(y)], Registered(s, y);
  }

  /** Two ports are served, then an empty file and a file with the first port are read: the second stays open. */
  lemma PortForgotten(p: string, q: string) returns (s: State, empty: Config, c: Config, steps: seq<Step>, t: State)
    requires p != q
    ensures Settled(s) && Matches(s) && Unified(empty) == None && Unified(c) == Some(c)
    ensures Reaches(Begun(Begun(s, Some(empty)), Some(c)), steps, t) && OneReload(steps) && Over(t)
    ensures q in t.open && q !in t.config.portPassword && !Matches(t)
  {
    empty, c := Config(map[], 0, ""), Config(map[p := "a"], 0, "");
    s := TwoPorts(p, q);
    var begun := s.(config := c, rest := {p}, dropped := {});
    assert Begun(s, Some(empty)) == s.(config := empty);
    OnePort(s.(config := empty), p, "a");
    assert empty.portPassword.Keys - {p} == {};
    FirstStep(begun, LookUp(p));
    var looked := begun.(rest := {}, at := Some(Look(p, Some(Listener("a", 0)), false)));
    assert LookedUp(begun, p) == looked;
    ReachesNext(begun, [LookUp(p)], looked, Finish);
    steps, t := [LookUp(p)] + [Finish], looked.(at := None);
    assert q in Passwords(t.listeners);
  }

  lemma TwoPorts(p: string, q: string) returns (s: State)
    requires p != q
    ensures s == State(Config(map[p := "a", q := "b"], 0, ""), map[p := Listener("a", 0), q := Listener("b", 1)],
                       map[p := 0, q := 1], multiset{}, 2, false, {}, {}, None)
    ensures Settled(s) && Matches(s)
  {
    s := State(Config(map[p := "a", q := "b"], 0, ""), map[p := Listener("a", 0), q := Listener("b", 1)],
               map[p := 0, q := 1], multiset{}, 2, false, {}, {}, None);
  }
}
