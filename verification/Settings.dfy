/** The settings handlers that edit the list of connections, and what they keep of it. */
module Settings {
  import opened Wrappers
  import opened Connections
  import Rotation

  datatype Invalid = Required | Formatting | UnknownId(id: string) | Duplicate

  datatype Answer = Done | NotFound | Forbidden | Rejected(invalids: seq<Invalid>)

  datatype Form = Form(id: string, encoded: Encoded)

  // ---------------------------------------------------------------- what each request does

  /** The last connection with the identifier, if any. */
  function LastIndex(all: seq<Connection>, id: string): (r: Option<nat>)
    ensures r.Some? ==> r.value < |all| && all[r.value].id == id
    ensures r.None? <==> forall i :: 0 <= i < |all| ==> all[i].id != id
  {
    if all == [] then None
    else if all[|all| - 1].id == id then Some(|all| - 1)
    else LastIndex(all[..|all| - 1], id)
  }

  function Toggled(all: seq<Connection>, id: string): (seq<Connection>, Answer) {
    match LastIndex(all, id)
    case None => (all, NotFound)
    case Some(i) =>
      if |Enabled(all)| < 2 && !all[i].disabled then (all, Forbidden)
      else (all[i := all[i].(disabled := !all[i].disabled)], Done)
  }

  /** The connections with other identifiers. */
  function Without(all: seq<Connection>, id: string): (r: seq<Connection>)
    ensures forall c :: c in r <==> c in all && c.id != id
  {
    if all == [] then []
    else
      var last := all[|all| - 1];
      assert all == all[..|all| - 1] + [last];
      Without(all[..|all| - 1], id) + if last.id == id then [] else [last]
  }

  predicate AnyProtected(all: seq<Connection>, id: string) {
    exists i :: 0 <= i < |all| && all[i].id == id && all[i].isProtected
  }

  function Deleted(all: seq<Connection>, id: string): (seq<Connection>, Answer) {
    if AnyProtected(all, id) then (all, Forbidden)
    else if LastIndex(all, id) == None then (all, NotFound)
    else if Enabled(Without(all, id)) == [] then (all, Forbidden)
    else (Without(all, id), Done)
  }

  /** What makes two connections the same to their users. */
  predicate Same(a: Connection, b: Connection) {
    Encode(a) == Encode(b)
  }

  predicate Has(all: seq<Connection>, c: Connection) {
    exists i :: 0 <= i < |all| && Same(all[i], c)
  }

  function Decoded(e: Encoded): Connection {
    if Decode(e) == None then ZERO else Decode(e).value
  }

  function Invalids(all: seq<Connection>, form: Form): seq<Invalid> {
    (if form.encoded == Missing then [Required] else [])
    + (if Decode(form.encoded) == None then [Formatting] else [])
    + (if form.id != "" && LastIndex(all, form.id) == None then [UnknownId(form.id)] else [])
    + (if Has(all, Decoded(form.encoded)) then [Duplicate] else [])
  }

  function Posted(all: seq<Connection>, form: Form): (seq<Connection>, Answer) {
    if Invalids(all, form) != [] then (all, Rejected(Invalids(all, form)))
    else if form.id == "" then (all + [Decoded(form.encoded)], Done)
    else
      // a missing identifier has been rejected
      (all[LastIndex(all, form.id).value := Decoded(form.encoded)], Done)
  }

  lemma LastIndexNext(all: seq<Connection>, k: nat, id: string)
    requires k < |all|
    ensures LastIndex(all[..k + 1], id) == if all[k].id == id then Some(k) else LastIndex(all[..k], id)
  {
    assert all[..k + 1][..k] == all[..k];
  }

  lemma WithoutNext(all: seq<Connection>, k: nat, id: string)
    requires k < |all|
    ensures Without(all[..k + 1], id) == Without(all[..k], id) + if all[k].id == id then [] else [all[k]]
  {
    assert all[..k + 1][..k] == all[..k];
  }

  lemma EnabledAppended(result: seq<Connection>, v: Connection)
    ensures Enabled(result + [v]) == Enabled(result) + if v.disabled then [] else [v]
  {
    assert (result + [v])[..|result|] == result;
  }

  lemma ProtectedYet(all: seq<Connection>, k: nat, id: string)
    requires k < |all|
    ensures AnyProtected(all[..k + 1], id) <==> AnyProtected(all[..k], id) || (all[k].id == id && all[k].isProtected)
    ensures all[k].id == id && all[k].isProtected ==> AnyProtected(all, id)
  {
    var now := all[..k + 1];
    assert forall i :: 0 <= i < k ==> now[i] == all[..k][i];
    assert now[k] == all[k];
  }

  // ---------------------------------------------------------------- the handlers

  class ClientSettings {
    var connections: seq<Connection>
    /** The list last handed to the connection manager. */
    var handed: seq<Connection>

    constructor (initial: seq<Connection>)
      ensures connections == handed == initial
    {
      connections, handed := initial, initial;
    }

    method Toggle(id: string) returns (answer: Answer)
      modifies this
      ensures (connections, answer) == Toggled(old(connections), id)
      ensures handed == if answer == Done then connections else old(handed)
    {
      var all := connections;
      var foundIdx, found, nEnabled := 0, false, 0;
      for k := 0 to |all|
        invariant connections == all && handed == old(handed)
        invariant nEnabled == |Enabled(all[..k])|
        invariant LastIndex(all[..k], id) == if found then Some(foundIdx) else None
      {
        LastIndexNext(all, k, id);
        EnabledNext(all, k);
        hide Enabled, LastIndex;
        if !all[k].disabled {
          nEnabled := nEnabled + 1;
        }
        if all[k].id == id {
          found, foundIdx := true, k;
        }
      }
      assert all[..|all|] == all;
      hide Enabled, LastIndex;
      if !found {
        return NotFound;
      }
      if nEnabled < 2 && !connections[foundIdx].disabled {
        return Forbidden;
      }
      connections := connections[foundIdx := connections[foundIdx].(disabled := !connections[foundIdx].disabled)];
      handed := connections;
      return Done;
    }

    /** The scan of a deletion: it stops at a protected connection with the identifier. */
    method Scan(id: string) returns (found: bool, guarded: bool, nEnabled: nat, result: seq<Connection>)
      ensures guarded <==> AnyProtected(connections, id)
      ensures !guarded ==> result == Without(connections, id) && nEnabled == |Enabled(result)|
      ensures !guarded ==> (found <==> LastIndex(connections, id).Some?)
    {
      found, guarded, nEnabled, result := false, false, 0, [];
      assert connections[..0] == [];
      for k := 0 to |connections|
        invariant result == Without(connections[..k], id) && nEnabled == |Enabled(result)|
        invariant found <==> LastIndex(connections[..k], id).Some?
        invariant !AnyProtected(connections[..k], id) && !guarded
      {
        var v := connections[k];
        LastIndexNext(connections, k, id);
        WithoutNext(connections, k, id);
        ProtectedYet(connections, k, id);
        EnabledAppended(result, v);
        hide *;
        if v.id == id {
          found := true;
          if v.isProtected {
            guarded := true;
            return;
          }
        } else {
          if !v.disabled {
            nEnabled := nEnabled + 1;
          }
          result := result + [v];
        }
      }
      assert connections[..|connections|] == connections;
    }

    method Delete(id: string) returns (answer: Answer)
      modifies this
      ensures (connections, answer) == Deleted(old(connections), id)
      ensures handed == if answer == Done then connections else old(handed)
    {
      var found, guarded, nEnabled, result := Scan(id);
      hide Enabled, LastIndex, Without, AnyProtected;
      if guarded {
        return Forbidden;
      }
      if !found {
        return NotFound;
      }
      if nEnabled < 1 {
        return Forbidden;
      }
      handed := result;
      connections := result;
      return Done;
    }

    method FindLast(id: string) returns (found: bool, foundIdx: nat)
      ensures LastIndex(connections, id) == if found then Some(foundIdx) else None
    {
      found, foundIdx := false, 0;
      for k := 0 to |connections|
        invariant LastIndex(connections[..k], id) == if found then Some(foundIdx) else None
      {
        LastIndexNext(connections, k, id);
        hide LastIndex;
        if connections[k].id == id {
          found, foundIdx := true, k;
        }
      }
      assert connections[..|connections|] == connections;
    }

    method FindSame(connection: Connection) returns (found: bool)
      ensures found <==> Has(connections, connection)
    {
      found := false;
      for k := 0 to |connections|
        invariant found <==> exists i :: 0 <= i < k && Same(connections[i], connection)
      {
        if Encode(connections[k]) == Encode(connection) {
          assert Same(connections[k], connection);
          found := true;
        }
      }
    }

    method Post(form: Form) returns (answer: Answer)
      modifies this
      ensures (connections, answer) == Posted(old(connections), form)
      ensures handed == if answer == Done then connections else old(handed)
    {
      var connection := ZERO;
      var invalids: seq<Invalid> := [];
      if form.encoded == Missing {
        invalids := invalids + [Required];
      }
      var decoded := Decode(form.encoded);
      if decoded == None {
        invalids := invalids + [Formatting];
      } else {
        connection := decoded.value;
      }
      var foundIdx := 0;
      if form.id != "" {
        var found;
        found, foundIdx := FindLast(form.id);
        if !found {
          invalids := invalids + [UnknownId(form.id)];
        }
      }
      var duplicate := FindSame(connection);
      if duplicate {
        invalids := invalids + [Duplicate];
      }
      assert invalids == Invalids(connections, form);
      if |invalids| > 0 {
        return Rejected(invalids);
      }
      if form.id == "" {
        connection := EnsureId(connection);
        connections := connections + [connection];
      } else {
        connections := connections[foundIdx := connection];
      }
      handed := connections;
      return Done;
    }
  }

  // ---------------------------------------------------------------- what every request keeps

  ghost predicate SomeEnabled(all: seq<Connection>) {
    exists i :: 0 <= i < |all| && !all[i].disabled
  }

  ghost predicate NoneTwice(all: seq<Connection>) {
    forall i, j :: 0 <= i < j < |all| ==> !Same(all[i], all[j])
  }

  /** The list the handlers start from: a connection enabled, none twice. */
  ghost predicate Sound(all: seq<Connection>) {
    SomeEnabled(all) && NoneTwice(all)
  }

  /** The transport, secret and address of the protected connections. */
  ghost function Protected(all: seq<Connection>): set<Encoded> {
    set i | 0 <= i < |all| && all[i].isProtected :: Encode(all[i])
  }

  lemma ToggleKeeps(all: seq<Connection>, id: string)
    requires Sound(all)
    ensures Sound(Toggled(all, id).0) && Protected(Toggled(all, id).0) == Protected(all)
  {
    var (now, answer) := Toggled(all, id);
    if answer == Done {
      var i := LastIndex(all, id).value;
      SameFlags(all, i);
      if all[i].disabled {
        assert !now[i].disabled;
      } else {
        var j := OtherEnabled(all, i);
        assert !now[j].disabled;
      }
    }
  }

  lemma SameFlags(all: seq<Connection>, i: nat)
    requires i < |all|
    ensures var now := all[i := all[i].(disabled := !all[i].disabled)];
            (NoneTwice(all) ==> NoneTwice(now)) && Protected(now) == Protected(all)
  {
    var now := all[i := all[i].(disabled := !all[i].disabled)];
    assert forall j :: 0 <= j < |all| ==> Encode(now[j]) == Encode(all[j]) && now[j].isProtected == all[j].isProtected;
    forall e | e in Protected(all) ensures e in Protected(now) {
      var j :| 0 <= j < |all| && all[j].isProtected && Encode(all[j]) == e;
      assert now[j].isProtected && Encode(now[j]) == e;
    }
    forall e | e in Protected(now) ensures e in Protected(all) {
      var j :| 0 <= j < |now| && now[j].isProtected && Encode(now[j]) == e;
      assert all[j].isProtected && Encode(all[j]) == e;
    }
  }

  /** Of two enabled connections, one is not at `i`. */
  lemma EnabledLast(all: seq<Connection>)
    requires all != []
    ensures var n := |all| - 1;
            Enabled(all) == Enabled(all[..n]) + if all[n].disabled then [] else [all[n]]
  {
  }

  lemma {:induction false} OtherEnabled(all: seq<Connection>, i: nat) returns (j: nat)
    requires i < |all| && |Enabled(all)| >= 2
    ensures j < |all| && j != i && !all[j].disabled
  {
    hide Enabled;
    EnabledLast(all);
    var n := |all| - 1;
    if i == n {
      assert Enabled(all[..n]) != [];
      j :| 0 <= j < n && !all[..n][j].disabled;
    } else if !all[n].disabled {
      j := n;
    } else {
      j := OtherEnabled(all[..n], i);
    }
  }

  lemma WithoutNone(id: string)
    ensures Without([], id) == []
  {
  }

  lemma WithoutLast(all: seq<Connection>, id: string)
    requires all != []
    ensures var init, last := all[..|all| - 1], all[|all| - 1];
            Without(all, id) == if last.id != id then Without(init, id) + [last] else Without(init, id)
  {
  }

  lemma {:induction false} WithoutNoneTwice(all: seq<Connection>, id: string)
    requires NoneTwice(all)
    ensures NoneTwice(Without(all, id))
  {
    hide NoneTwice, Without;
    if all != [] {
      var init, last := all[..|all| - 1], all[|all| - 1];
      assert all == init + [last];
      WithoutLast(all, id);
      NoneTwiceNext(init, last);
      NoneTwiceNext(Without(init, id), last);
      WithoutNoneTwice(init, id);
    } else {
      WithoutNone(id);
    }
  }

  lemma {:induction false} WithoutProtected(all: seq<Connection>, id: string)
    requires !AnyProtected(all, id)
    ensures Protected(Without(all, id)) == Protected(all)
  {
    if all != [] {
      var n := |all| - 1;
      assert all[..n + 1] == all && all == all[..n] + [all[n]];
      WithoutNext(all, n, id);
      ProtectedYet(all, n, id);
      ProtectedNext(all[..n], all[n]);
      ProtectedNext(Without(all[..n], id), all[n]);
      hide *;
      WithoutProtected(all[..n], id);
    }
  }

  lemma NoneTwiceNext(init: seq<Connection>, last: Connection)
    ensures NoneTwice(init + [last]) <==> NoneTwice(init) && !Has(init, last)
  {
    var all := init + [last];
    if NoneTwice(all) {
      forall i, j | 0 <= i < j < |init| ensures !Same(init[i], init[j]) {
        assert all[i] == init[i] && all[j] == init[j];
      }
      forall i | 0 <= i < |init| ensures !Same(init[i], last) {
        assert all[i] == init[i] && all[|init|] == last;
      }
    }
  }

  lemma ProtectedNext(init: seq<Connection>, last: Connection)
    ensures Protected(init + [last]) == Protected(init) + if last.isProtected then {Encode(last)} else {}
  {
    var all := init + [last];
    assert all[|init|] == last;
    forall e | e in Protected(init) ensures e in Protected(all) {
      var j :| 0 <= j < |init| && init[j].isProtected && Encode(init[j]) == e;
      assert all[j].isProtected && Encode(all[j]) == e;
    }
    forall e | e in Protected(all) ensures e in Protected(init) + if last.isProtected then {Encode(last)} else {} {
      var j :| 0 <= j < |all| && all[j].isProtected && Encode(all[j]) == e;
      if j < |init| {
        assert init[j].isProtected && Encode(init[j]) == e;
      }
    }
  }

  lemma DeleteKeeps(all: seq<Connection>, id: string)
    requires Sound(all)
    ensures Sound(Deleted(all, id).0) && Protected(Deleted(all, id).0) == Protected(all)
  {
    hide Protected, NoneTwice, AnyProtected, LastIndex, Without;
    WithoutNoneTwice(all, id);
    if !AnyProtected(all, id) {
      WithoutProtected(all, id);
    }
  }

  /** The post replaces the entry at `i`. */
  predicate Replaces(all: seq<Connection>, form: Form, i: nat) {
    Invalids(all, form) == [] && form.id != "" && LastIndex(all, form.id) == Some(i)
  }

  /** The pasted object is marked disabled and takes the place of the only enabled connection. */
  ghost predicate DisablesLast(all: seq<Connection>, form: Form) {
    exists i: nat :: Replaces(all, form, i) && Decoded(form.encoded).disabled
                     && forall j :: 0 <= j < |all| && j != i ==> all[j].disabled
  }

  /** A post never lists a connection twice. */
  lemma PostOnce(all: seq<Connection>, form: Form)
    requires NoneTwice(all)
    ensures NoneTwice(Posted(all, form).0)
  {
    var c := Decoded(form.encoded);
    if Invalids(all, form) != [] {
    } else if form.id == "" {
      NoneTwiceNext(all, c);
    } else {
      ReplacedOnce(all, LastIndex(all, form.id).value, c);
    }
  }

  /** A post keeps the list sound unless it disables the only enabled connection. */
  lemma PostKeeps(all: seq<Connection>, form: Form)
    requires Sound(all)
    ensures Sound(Posted(all, form).0) <==> !DisablesLast(all, form)
    ensures NoneTwice(Posted(all, form).0)
  {
    hide NoneTwice;
    var c := Decoded(form.encoded);
    var now := Posted(all, form).0;
    PostOnce(all, form);
    if Invalids(all, form) != [] {
    } else if form.id == "" {
      var i :| 0 <= i < |all| && !all[i].disabled;
      assert !now[i].disabled;
    } else {
      var i := LastIndex(all, form.id).value;
      assert Replaces(all, form, i);
      ReplacedEnabled(all, i, c);
    }
  }

  lemma ReplacedOnce(all: seq<Connection>, i: nat, c: Connection)
    requires i < |all| && NoneTwice(all) && !Has(all, c)
    ensures NoneTwice(all[i := c])
  {
  }

  lemma ReplacedEnabled(all: seq<Connection>, i: nat, c: Connection)
    requires i < |all|
    ensures SomeEnabled(all[i := c]) <==> !c.disabled || !forall j :: 0 <= j < |all| && j != i ==> all[j].disabled
  {
    var now := all[i := c];
    assert now[i] == c && forall j :: 0 <= j < |all| && j != i ==> now[j] == all[j];
    if j :| 0 <= j < |all| && j != i && !all[j].disabled {
      assert !now[j].disabled;
    }
  }

  /** A post keeps every protected connection unless it names one: then that one is gone. */
  lemma PostProtects(all: seq<Connection>, form: Form)
    requires NoneTwice(all)
    ensures Protected(all) <= Protected(Posted(all, form).0)
       <==> !exists i: nat :: Replaces(all, form, i) && all[i].isProtected
  {
    var c := Decoded(form.encoded);
    if Invalids(all, form) != [] {
    } else if form.id == "" {
      ProtectedNext(all, c);
    } else {
      var i := LastIndex(all, form.id).value;
      assert Replaces(all, form, i);
      ReplacedProtected(all, i, c);
      hide Protected;
    }
  }

  lemma ReplacedProtected(all: seq<Connection>, i: nat, c: Connection)
    requires i < |all| && NoneTwice(all) && !Has(all, c)
    ensures Protected(all) <= Protected(all[i := c]) <==> !all[i].isProtected
  {
    var now := all[i := c];
    assert forall j :: 0 <= j < |all| && j != i ==> now[j] == all[j];
    if all[i].isProtected {
      assert Encode(all[i]) in Protected(all);
      forall j | 0 <= j < |now| ensures Encode(now[j]) != Encode(all[i]) {
        assert !Same(all[i], c);
        if j != i {
          assert !Same(all[i], all[j]) && !Same(all[j], all[i]);
        }
      }
    } else {
      forall e | e in Protected(all) ensures e in Protected(now) {
        var j :| 0 <= j < |all| && all[j].isProtected && Encode(all[j]) == e;
        assert now[j].isProtected && Encode(now[j]) == e;
      }
    }
  }

  /** One post can do both: replace a protected connection, and leave nothing enabled. */
  lemma PostCanBreak() returns (all: seq<Connection>, form: Form)
    ensures Sound(all) && Posted(all, form).1 == Done
    ensures !SomeEnabled(Posted(all, form).0) && !(Protected(all) <= Protected(Posted(all, form).0))
  {
    var c := Connection("obfs4", "", "a:1", false, true, "x");
    all := [c];
    form := Form("x", Payload("obfs4", "", "b:1", true, false));
    assert !Same(c, Decoded(form.encoded));
    assert Encode(c) in Protected(all) by {
      assert all[0].isProtected;
    }
    assert all[..0] == [];
    assert LastIndex(all, "x") == Some(0);
    assert Posted(all, form).0 == [Decoded(form.encoded)];
  }

  // ---------------------------------------------------------------- whole runs

  datatype Request = ToggleRequest(id: string) | DeleteRequest(id: string) | PostRequest(form: Form)

  function Answered(all: seq<Connection>, r: Request): (seq<Connection>, Answer) {
    match r
    case ToggleRequest(id) => Toggled(all, id)
    case DeleteRequest(id) => Deleted(all, id)
    case PostRequest(form) => Posted(all, form)
  }

  function Run(all: seq<Connection>, requests: seq<Request>): seq<Connection>
    decreases |requests|
  {
    if requests == [] then all else Run(Answered(all, requests[0]).0, requests[1..])
  }

  /** The request pastes, if anything, a text made from a connection. */
  predicate Shared(r: Request) {
    r.PostRequest? && r.form.encoded.Payload? ==> !r.form.encoded.disabled
  }

  lemma SharedByEncode(c: Connection, id: string)
    ensures Shared(PostRequest(Form(id, Encode(c))))
  {
  }

  lemma RequestKeeps(all: seq<Connection>, r: Request)
    requires Sound(all) && Shared(r)
    ensures Sound(Answered(all, r).0)
  {
    match r
    case ToggleRequest(id) => ToggleKeeps(all, id);
    case DeleteRequest(id) => DeleteKeeps(all, id);
    case PostRequest(form) => PostKeeps(all, form);
  }

  /**
   * After any run of requests whose pasted texts were made by sharing connections, some connection is
   * enabled, none is listed twice, and the list the manager would rotate through is not empty.
   */
  lemma {:induction false} RunKeeps(all: seq<Connection>, requests: seq<Request>)
    requires Sound(all) && forall i :: 0 <= i < |requests| ==> Shared(requests[i])
    ensures Sound(Run(all, requests)) && Enabled(Run(all, requests)) != []
    decreases |requests|
  {
    if requests != [] {
      RequestKeeps(all, requests[0]);
      RunKeeps(Answered(all, requests[0]).0, requests[1..]);
    }
  }

  /** The request is an accepted post over a protected entry. */
  ghost predicate TakesProtected(all: seq<Connection>, r: Request) {
    r.PostRequest? && exists i: nat :: Replaces(all, r.form, i) && all[i].isProtected
  }

  /** No request of the run does that when its turn comes. */
  ghost predicate Spares(all: seq<Connection>, requests: seq<Request>)
    decreases |requests|
  {
    requests != [] ==>
      !TakesProtected(all, requests[0]) && Spares(Answered(all, requests[0]).0, requests[1..])
  }

  /** Runs without an accepted post over a protected entry keep every protected connection. */
  lemma {:induction false} RunProtects(all: seq<Connection>, requests: seq<Request>)
    requires NoneTwice(all) && Spares(all, requests)
    ensures NoneTwice(Run(all, requests)) && Protected(all) <= Protected(Run(all, requests))
    decreases |requests|
  {
    if requests != [] {
      var r := requests[0];
      RequestProtects(all, r);
      RunProtects(Answered(all, r).0, requests[1..]);
      hide Protected, NoneTwice, TakesProtected;
    }
  }

  /** A request keeps the protected connections exactly unless it takes one. */
  lemma RequestProtects(all: seq<Connection>, r: Request)
    requires NoneTwice(all)
    ensures NoneTwice(Answered(all, r).0)
    ensures Protected(all) <= Protected(Answered(all, r).0) <==> !TakesProtected(all, r)
  {
    match r
    case ToggleRequest(id) =>
      if LastIndex(all, id).Some? {
        SameFlags(all, LastIndex(all, id).value);
      }
      hide Protected, NoneTwice, LastIndex, Enabled;
    case DeleteRequest(id) =>
      WithoutNoneTwice(all, id);
      if !AnyProtected(all, id) {
        WithoutProtected(all, id);
      }
      hide Protected, NoneTwice, AnyProtected, LastIndex, Without;
    case PostRequest(form) =>
      PostOnce(all, form);
      PostProtects(all, form);
  }

  /** Toggling the same connection again is always allowed and restores the list. */
  lemma ToggleTwice(all: seq<Connection>, id: string)
    requires SomeEnabled(all) && Toggled(all, id).1 == Done
    ensures Toggled(Toggled(all, id).0, id) == (all, Done)
  {
    var i := LastIndex(all, id).value;
    var now := Toggled(all, id).0;
    LastIndexSame(all, now, id);
    if all[i].disabled {
      EnabledMore(all, i);
    }
    assert now[i := all[i]] == all;
  }

  lemma {:induction false} LastIndexSame(a: seq<Connection>, b: seq<Connection>, id: string)
    requires |a| == |b| && forall i :: 0 <= i < |a| ==> a[i].id == b[i].id
    ensures LastIndex(a, id) == LastIndex(b, id)
  {
    if a != [] {
      LastIndexSame(a[..|a| - 1], b[..|b| - 1], id);
    }
  }

  lemma EnabledSize(all: seq<Connection>)
    requires all != []
    ensures var n := |all| - 1;
            |Enabled(all)| == |Enabled(all[..n])| + if all[n].disabled then 0 else 1
  {
    EnabledLast(all);
  }

  lemma {:induction false} EnabledMore(all: seq<Connection>, i: nat)
    requires i < |all| && all[i].disabled
    ensures |Enabled(all[i := all[i].(disabled := false)])| == |Enabled(all)| + 1
  {
    hide Enabled;
    var n := |all| - 1;
    var now := all[i := all[i].(disabled := false)];
    EnabledSize(all);
    EnabledSize(now);
    if i == n {
      assert now[..n] == all[..n];
    } else {
      EnabledMore(all[..n], i);
      assert now[..n] == all[..n][i := all[..n][i].(disabled := false)];
    }
  }

  /** What the manager starts or continues with after a sound update is a non-empty order of the enabled ones. */
  method HandToManager(settings: ClientSettings, manager: Rotation.Manager, choices: seq<nat>)
    requires Sound(settings.handed) && Rotation.IsChoice(choices, |Enabled(settings.handed)|)
    modifies manager
    ensures manager.currentConnections.Length > 0
    ensures multiset(manager.currentConnections[..]) == multiset(Enabled(settings.handed))
  {
    manager.UpdateConnections(settings.handed, choices);
    var enabled := Enabled(settings.handed);
    assert |manager.currentConnections[..]| == |multiset(manager.currentConnections[..])| == |multiset(enabled)| == |enabled|;
  }
}
