/** What the listeners are after a configuration file of each kind has been read. */
module ReloadFiles {
  import opened Wrappers
  import opened Decimal
  import opened Reload
  import opened ReloadRuns

  /** The file says nothing about what to serve. */
  predicate Silent(c: Config) {
    c.portPassword == map[] && (c.serverPort == 0 || c.password == "")
  }

  /**
   * A table of ports is served as it stands, whatever the single port and password of the file are. A
   * single port with a password is served under its decimal name.
   */
  lemma FileServed(s: State, c: Config, steps: seq<Step>, t: State)
    requires Settled(s) && s.listeners.Keys <= s.config.portPassword.Keys && !Silent(c)
    requires Reaches(Begun(s, Some(c)), steps, t) && OneReload(steps) && Over(t)
    ensures !t.exited
    ensures c.portPassword != map[] ==> Passwords(t.listeners) == c.portPassword
    ensures c.portPassword == map[] ==> Passwords(t.listeners) == map[Itoa(c.serverPort) := c.password]
  {
    hide Reaches, Begun, OneReload, Over, Fresh;
    ReloadSettles(s, c, steps, t);
    SettledRuns(t);
  }

  lemma StartServed(c: Config, steps: seq<Step>, t: State)
    requires !Silent(c) && Reaches(Begun(NOTHING, Some(c)), steps, t) && OneReload(steps) && Over(t)
    ensures !t.exited
    ensures c.portPassword != map[] ==> Passwords(t.listeners) == c.portPassword
    ensures c.portPassword == map[] ==> Passwords(t.listeners) == map[Itoa(c.serverPort) := c.password]
  {
    hide Reaches, Begun, OneReload, Over;
    NothingSettled();
    FileServed(NOTHING, c, steps, t);
  }

  lemma NothingSettled()
    ensures Settled(NOTHING) && NOTHING.listeners == map[]
  {
  }

  /** A file that is unreadable or silent changes no listener, and nothing is left to do after it. */
  lemma SilentChangesNothing(s: State, parsed: Option<Config>, steps: seq<Step>, t: State)
    requires Settled(s) && (parsed.Some? ==> Silent(parsed.value))
    requires Reaches(Begun(s, parsed), steps, t) && OneReload(steps)
    ensures t.listeners == s.listeners && t.open == s.open && !t.exited && steps == []
  {
  }
}
