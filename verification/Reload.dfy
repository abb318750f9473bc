/**
 * The shadowsocks server's ports. A reload reconciles the listeners with a new configuration port by
 * port, while goroutines that were started before register their listeners between its steps.
 */
module Reload {
  import opened Wrappers
  import opened Decimal

  datatype Config = Config(portPassword: map<string, string>, serverPort: int, password: string)

  /** An open network listener is known by its number. */
  datatype Listener = Listener(password: string, handle: nat)

  /** A started goroutine that has not registered its listener yet. */
  datatype Start = Start(port: string, password: string)

  /** The port a reload is working on, what it found registered there, and whether it has closed that. */
  datatype Look = Look(port: string, found: Option<Listener>, closed: bool)

  /**
   * `rest` are the new ports the first loop has not looked up yet, `dropped` the old ports the second
   * loop has not looked up yet.
   */
  datatype State = State(
    config: Config,
    listeners: map<string, Listener>,
    open: map<string, nat>,
    pending: multiset<Start>,
    next: nat,
    exited: bool,
    rest: set<string>,
    dropped: set<string>,
    at: Option<Look>)

  datatype Step = Begin(parsed: Option<Config>) | LookUp(port: string) | Shut | Finish | Register(start: Start)

  // ---------------------------------------------------------------- the steps

  /** A single port and password stand for a table of one; without either there is nothing to serve. */
  function Unified(c: Config): Option<Config> {
    if c.portPassword != map[] then Some(c)
    else if c.serverPort != 0 && c.password != ""
    then Some(c.(portPassword := map[Itoa(c.serverPort) := c.password]))
    else None
  }

  /** No reload is at work. */
  predicate Quiet(s: State) {
    s.rest == {} && s.dropped == {} && s.at == None
  }

  /** What a reload does with what it found: nothing for the same password, else close and start. */
  predicate Same(l: Look, passwords: map<string, string>) {
    l.port in passwords && l.found.Some? && l.found.value.password == passwords[l.port]
  }

  /** The same password, or nothing found at a dropped port. */
  predicate Unchanging(l: Look, passwords: map<string, string>) {
    Same(l, passwords) || (l.port !in passwords && l.found == None)
  }

  predicate ToClose(l: Look, passwords: map<string, string>) {
    l.found.Some? && !Same(l, passwords) && !l.closed
  }

  predicate Enabled(s: State, step: Step) {
    && !s.exited
    && match step
       case Begin(_) => Quiet(s)
       case LookUp(port) => s.at == None && (port in s.rest || (s.rest == {} && port in s.dropped))
       case Shut => s.at.Some? && ToClose(s.at.value, s.config.portPassword)
       case Finish => s.at.Some? && !ToClose(s.at.value, s.config.portPassword)
       case Register(r) => r in s.pending
  }

  function Closed(open: map<string, nat>, port: string, l: Listener): map<string, nat> {
    if port in open && open[port] == l.handle then open - {port} else open
  }

  function Begun(s: State, parsed: Option<Config>): State {
    match parsed
    case None => s
    case Some(c) =>
      match Unified(c)
      case None => s.(config := c)
      case Some(u) =>
        s.(config := u, rest := u.portPassword.Keys, dropped := s.config.portPassword.Keys - u.portPassword.Keys)
  }

  function LookedUp(s: State, port: string): State {
    s.(rest := s.rest - {port}, dropped := s.dropped - {port}, at := Some(Look(port, Lookup(s.listeners, port), false)))
  }

  function ShutDown(s: State, l: Look): State
    requires l.found.Some?
  {
    s.(at := Some(l.(closed := true)), open := Closed(s.open, l.port, l.found.value))
  }

  function Finished(s: State, l: Look): State {
    var passwords := s.config.portPassword;
    if Same(l, passwords) then s.(at := None)
    else if l.port in passwords then s.(at := None, pending := s.pending + multiset{Start(l.port, passwords[l.port])})
    else if l.found.Some? then s.(at := None, listeners := s.listeners - {l.port})
    else s.(at := None)
  }

  /** A started goroutine opens and registers its listener; on a port that is in use the program exits. */
  function Registered(s: State, r: Start): State {
    if r.port in s.open then s.(exited := true)
    else
      s.(listeners := s.listeners[r.port := Listener(r.password, s.next)],
         open := s.open[r.port := s.next],
         pending := s.pending - multiset{r},
         next := s.next + 1)
  }

  function Apply(s: State, step: Step): State
    requires Enabled(s, step)
  {
    match step
    case Begin(parsed) => Begun(s, parsed)
    case LookUp(port) => LookedUp(s, port)
    case Shut => ShutDown(s, s.at.value)
    case Finish => Finished(s, s.at.value)
    case Register(r) => Registered(s, r)
  }

  // ---------------------------------------------------------------- runs

  /** These steps lead from one state to the other. */
  ghost predicate Reaches(s: State, steps: seq<Step>, t: State) {
    if steps == [] then t == s
    else
      var n := |steps| - 1;
      exists u :: Reaches(s, steps[..n], u) && Enabled(u, steps[n]) && t == Apply(u, steps[n])
  }

  lemma ReachesNext(s: State, steps: seq<Step>, t: State, step: Step)
    requires Reaches(s, steps, t) && Enabled(t, step)
    ensures Reaches(s, steps + [step], Apply(t, step))
  {
    hide Apply;
    assert (steps + [step])[..|steps|] == steps;
  }

  lemma ReachesNone(s: State, t: State)
    requires Reaches(s, [], t)
    ensures s == t
  {
  }

  lemma ReachesLast(s: State, steps: seq<Step>, t: State) returns (u: State)
    requires Reaches(s, steps, t) && steps != []
    ensures var n := |steps| - 1; Reaches(s, steps[..n], u) && Enabled(u, steps[n]) && t == Apply(u, steps[n])
  {
    hide Apply, Enabled;
    var n := |steps| - 1;
    u :| Reaches(s, steps[..n], u) && Enabled(u, steps[n]) && t == Apply(u, steps[n]);
  }

  lemma {:induction false} ReachesJoin(s: State, a: seq<Step>, t: State, b: seq<Step>, u: State)
    requires Reaches(s, a, t) && Reaches(t, b, u)
    ensures Reaches(s, a + b, u)
    decreases |b|
  {
    hide Reaches, Apply, Enabled;
    if b == [] {
      ReachesNone(t, u);
      assert a + b == a;
    } else {
      var n := |b| - 1;
      var v := ReachesLast(t, b, u);
      ReachesJoin(s, a, t, b[..n], v);
      ReachesNext(s, a + b[..n], v, b[n]);
      assert a + b[..n] + [b[n]] == a + b;
    }
  }

  /** Steps of a reload that has begun, and registrations. */
  ghost predicate OneReload(steps: seq<Step>) {
    forall i :: 0 <= i < |steps| ==> !steps[i].Begin?
  }

  // ---------------------------------------------------------------- the program

  class Server {
    var config: Config
    var portListener: map<string, Listener>
    var open: map<string, nat>
    var pending: multiset<Start>
    var next: nat
    var exited: bool
    /** Where the reload is. */
    ghost var rest: set<string>
    ghost var dropped: set<string>
    ghost var at: Option<Look>
    /** Which goroutines get the lock between two steps of a reload. */
    const schedule: nat -> seq<Start>
    var turn: nat

    ghost function Value(): State
      reads this
    {
      State(config, portListener, open, pending, next, exited, rest, dropped, at)
    }

    constructor (initial: Config, schedule: nat -> seq<Start>)
      ensures Value() == State(initial, map[], map[], multiset{}, 0, false, {}, {}, None)
    {
      config, portListener, open, pending, next, exited := initial, map[], map[], multiset{}, 0, false;
      rest, dropped, at := {}, {}, None;
      this.schedule, turn := schedule, 0;
    }

    method Add(port: string, l: Listener)
      requires l.handle == next
      modifies this`open, this`portListener, this`next
      ensures open == old(open)[port := l.handle] && portListener == old(portListener)[port := l] && next == old(next) + 1
    {
      open := open[port := next];
      portListener := portListener[port := l];
      next := next + 1;
    }

    /** The accepting goroutine up to its registration. */
    method Run(r: Start)
      requires r in pending && !exited
      modifies this
      ensures Value() == Registered(old(Value()), r)
    {
      if r.port in open {
        exited := true;
      } else {
        Add(r.port, Listener(r.password, next));
        pending := pending - multiset{r};
      }
    }

    /** The lock is free: some started goroutines register. */
    method Yield() returns (ghost steps: seq<Step>)
      modifies this
      ensures Reaches(old(Value()), steps, Value()) && OneReload(steps)
      ensures (rest, dropped, at, config) == old((rest, dropped, at, config))
    {
      var starts := schedule(turn);
      turn := turn + 1;
      steps := [];
      for i := 0 to |starts|
        invariant Reaches(old(Value()), steps, Value()) && OneReload(steps)
        invariant (rest, dropped, at, config) == old((rest, dropped, at, config))
      {
        hide Reaches, Registered;
        if !exited && starts[i] in pending {
          ReachesNext(old(Value()), steps, Value(), Register(starts[i]));
          RegisterKeepsPlace(Value(), starts[i]);
          Run(starts[i]);
          steps := steps + [Register(starts[i])];
        }
      }
    }

    /** What is registered at the port. */
    method Get(port: string) returns (found: Option<Listener>)
      modifies this`rest, this`dropped, this`at
      ensures found == Lookup(portListener, port)
      ensures Value() == LookedUp(old(Value()), port)
    {
      found := Lookup(portListener, port);
      rest, dropped, at := rest - {port}, dropped - {port}, Some(Look(port, found, false));
    }

    method Close(port: string, found: Listener)
      requires at.Some? && at.value.port == port && at.value.found == Some(found)
      modifies this`open, this`at
      ensures Value() == ShutDown(old(Value()), old(at.value))
    {
      open := Closed(open, port, found);
      at := Some(at.value.(closed := true));
    }

    /** One turn of the first loop. */
    method UpdatePortPasswd(port: string, password: string) returns (ghost steps: seq<Step>)
      requires !exited && at == None && port in rest && port !in dropped
      requires Lookup(config.portPassword, port) == Some(password)
      modifies this
      ensures Reaches(old(Value()), steps, Value()) && OneReload(steps) && config == old(config)
      ensures !exited ==> at == None && rest == old(rest) - {port} && dropped == old(dropped)
    {
      hide Reaches, LookedUp, ShutDown, Finished;
      ghost var begin := Value();
      FirstStep(begin, LookUp(port));
      AfterLook(begin, port);
      var found := Get(port);
      steps := [LookUp(port)];
      ghost var registered := Yield();
      ReachesJoin(begin, steps, LookedUp(begin, port), registered, Value());
      steps := steps + registered;
      if exited {
        return;
      }
      if found.Some? {
        if found.value.password == password {
          steps := Leave(begin, steps);
          return;
        }
        ghost var s := Value();
        ReachesNext(begin, steps, s, Shut);
        AfterShut(s);
        Close(port, found.value);
        steps := steps + [Shut];
        registered := Yield();
        ReachesJoin(begin, steps, ShutDown(s, s.at.value), registered, Value());
        steps := steps + registered;
        if exited {
          return;
        }
      }
      steps := Launch(begin, steps, port, password);
    }

    /** The turn ends without a change. */
    method Leave(ghost begin: State, ghost before: seq<Step>) returns (ghost steps: seq<Step>)
      requires !exited && at.Some?
      modifies this`at
      ensures at == None && steps == before + [Finish]
      ensures Reaches(begin, before, old(Value())) && Unchanging(old(at.value), config.portPassword) ==>
                Reaches(begin, steps, Value())
    {
      ghost var s := Value();
      if Reaches(begin, before, s) && Unchanging(at.value, config.portPassword) {
        ReachesNext(begin, before, s, Finish);
      }
      steps := before + [Finish];
      at := None;
    }

    /** The turn ends with a new goroutine. */
    method Launch(ghost begin: State, ghost before: seq<Step>, port: string, password: string) returns (ghost steps: seq<Step>)
      requires !exited && Reaches(begin, before, Value()) && OneReload(before)
      requires at.Some? && at.value.port == port && Lookup(config.portPassword, port) == Some(password)
      requires !Same(at.value, config.portPassword) && (at.value.found.Some? ==> at.value.closed)
      modifies this`at, this`pending
      ensures at == None && Reaches(begin, steps, Value()) && OneReload(steps)
    {
      ReachesNext(begin, before, Value(), Finish);
      steps := before + [Finish];
      pending := pending + multiset{Start(port, password)};
      at := None;
    }

    /** One turn of the second loop. */
    method Del(port: string) returns (ghost steps: seq<Step>)
      requires !exited && at == None && rest == {} && port in dropped && port !in config.portPassword
      modifies this
      ensures Reaches(old(Value()), steps, Value()) && OneReload(steps) && config == old(config)
      ensures !exited ==> at == None && rest == {} && dropped == old(dropped) - {port}
    {
      hide Reaches, LookedUp, ShutDown, Finished;
      ghost var begin := Value();
      FirstStep(begin, LookUp(port));
      AfterLook(begin, port);
      var found := Get(port);
      steps := [LookUp(port)];
      ghost var registered := Yield();
      ReachesJoin(begin, steps, LookedUp(begin, port), registered, Value());
      steps := steps + registered;
      if exited {
        return;
      }
      if found == None {
        steps := Leave(begin, steps);
        return;
      }
      ghost var s := Value();
      ReachesNext(begin, steps, s, Shut);
      AfterShut(s);
      Close(port, found.value);
      steps := steps + [Shut];
      registered := Yield();
      ReachesJoin(begin, steps, ShutDown(s, s.at.value), registered, Value());
      steps := steps + registered;
      if !exited {
        steps := Forget(begin, steps, port);
      }
    }

    /** The turn ends with the port's entry deleted. */
    method Forget(ghost begin: State, ghost before: seq<Step>, port: string) returns (ghost steps: seq<Step>)
      requires !exited && Reaches(begin, before, Value()) && OneReload(before)
      requires at.Some? && at.value.port == port && port !in config.portPassword
      requires at.value.found.Some? && at.value.closed
      modifies this`at, this`portListener
      ensures at == None && Reaches(begin, steps, Value()) && OneReload(steps)
    {
      ReachesNext(begin, before, Value(), Finish);
      steps := before + [Finish];
      portListener := portListener - {port};
      at := None;
    }

    /**
     * A reload, with registrations between its steps as the schedule has it: it takes the configuration
     * and then steps until it is done, unless a registration makes the program exit.
     */
    method UpdatePasswd(parsed: Option<Config>) returns (ghost steps: seq<Step>)
      requires !exited && Quiet(Value())
      modifies this
      ensures Reaches(Begun(old(Value()), parsed), steps, Value()) && OneReload(steps)
      ensures exited || Quiet(Value())
    {
      steps := [];
      if parsed == None {
        return;
      }
      var oldPasswords := config.portPassword;
      config := parsed.value;
      var unified := Unified(config);
      if unified == None {
        return;
      }
      config := unified.value;
      rest, dropped := config.portPassword.Keys, oldPasswords.Keys - config.portPassword.Keys;
      ghost var begin := Value();
      var left;
      left, steps := StartAll(oldPasswords);
      if exited {
        return;
      }
      ghost var s := Value();
      ghost var more := CloseAll(left.Keys);
      ReachesJoin(begin, steps, s, more, Value());
      steps := steps + more;
    }

    /** The first loop: it returns what is left of the old table. */
    method StartAll(oldPasswords: map<string, string>) returns (left: map<string, string>, ghost steps: seq<Step>)
      requires !exited && at == None && rest == config.portPassword.Keys
      requires dropped == oldPasswords.Keys - config.portPassword.Keys
      modifies this
      ensures Reaches(old(Value()), steps, Value()) && OneReload(steps) && config == old(config)
      ensures !exited ==> at == None && rest == {} && dropped == left.Keys == oldPasswords.Keys - config.portPassword.Keys
    {
      hide Reaches;
      left, steps := oldPasswords, [];
      var passwords := config.portPassword;
      var ports := passwords.Keys;
      ReachesSelf(Value());
      while ports != {}
        invariant Reaches(old(Value()), steps, Value()) && OneReload(steps) && config == old(config)
        invariant !exited && at == None && rest == ports <= passwords.Keys
        invariant dropped == oldPasswords.Keys - passwords.Keys
        invariant left.Keys == oldPasswords.Keys - (passwords.Keys - ports)
        decreases |ports|
      {
        var port :| port in ports;
        ghost var s := Value();
        ghost var more := UpdatePortPasswd(port, passwords[port]);
        ReachesJoin(old(Value()), steps, s, more, Value());
        steps := steps + more;
        if exited {
          return;
        }
        left := left - {port};
        ports := ports - {port};
      }
    }

    /** The second loop. */
    method CloseAll(ports: set<string>) returns (ghost steps: seq<Step>)
      requires !exited && at == None && rest == {} && dropped == ports && ports !! config.portPassword.Keys
      modifies this
      ensures Reaches(old(Value()), steps, Value()) && OneReload(steps)
      ensures exited || Quiet(Value())
    {
      hide Reaches;
      var left := ports;
      steps := [];
      ReachesSelf(Value());
      while left != {}
        invariant Reaches(old(Value()), steps, Value()) && OneReload(steps) && config == old(config)
        invariant !exited && at == None && rest == {} && dropped == left <= ports
        decreases |left|
      {
        var port :| port in left;
        ghost var s := Value();
        ghost var more := Del(port);
        ReachesJoin(old(Value()), steps, s, more, Value());
        steps := steps + more;
        if exited {
          return;
        }
        left := left - {port};
      }
    }
  }

  lemma RegisterKeepsPlace(s: State, r: Start)
    requires Enabled(s, Register(r))
    ensures var t := Apply(s, Register(r));
            t.rest == s.rest && t.dropped == s.dropped && t.at == s.at && t.config == s.config
  {
  }

  lemma ReachesSelf(s: State)
    ensures Reaches(s, [], s)
  {
  }

  lemma FirstStep(s: State, step: Step)
    requires Enabled(s, step)
    ensures Reaches(s, [step], Apply(s, step))
  {
    assert Reaches(s, [], s);
    ReachesNext(s, [], s, step);
    assert [] + [step] == [step];
  }

  lemma AfterLook(s: State, port: string)
    ensures var t := LookedUp(s, port);
            t.at == Some(Look(port, Lookup(s.listeners, port), false)) && t.rest == s.rest - {port}
            && t.dropped == s.dropped - {port} && t.config == s.config && t.exited == s.exited
  {
  }

  lemma AfterShut(s: State)
    requires s.at.Some? && s.at.value.found.Some?
    ensures var t := ShutDown(s, s.at.value);
            t.at == Some(s.at.value.(closed := true)) && t.rest == s.rest && t.dropped == s.dropped && t.config == s.config
  {
  }
}
