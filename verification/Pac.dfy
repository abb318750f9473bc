/** The proxy auto-configuration script: which domain a host belongs to and how its requests are routed. */
module Pac {
  import opened Decimal

  // ---------------------------------------------------------------- labels

  /** The index of the last dot, or -1. */
  function LastDot(s: string): (i: int)
    ensures -1 <= i < |s|
  {
    if s == "" then -1
    else if s[|s| - 1] == '.' then |s| - 1
    else LastDot(s[..|s| - 1])
  }

  lemma {:induction false} LastDotExact(s: string)
    ensures var i := LastDot(s); (i >= 0 ==> s[i] == '.') && forall j :: i < j < |s| ==> s[j] != '.'
  {
    if s != "" && s[|s| - 1] != '.' {
      LastDotExact(s[..|s| - 1]);
    }
  }

  /** Splitting at the dots. */
  function Labels(s: string): (labels: seq<string>)
    ensures labels != []
  {
    var d := LastDot(s);
    if d < 0 then [s] else Labels(s[..d]) + [s[d + 1..]]
  }

  function Join(labels: seq<string>): string
    requires labels != []
  {
    var n := |labels| - 1;
    if n == 0 then labels[0] else Join(labels[..n]) + "." + labels[n]
  }

  lemma {:induction false} JoinLabels(s: string)
    ensures Join(Labels(s)) == s
  {
    var d := LastDot(s);
    if d >= 0 {
      LastDotExact(s);
      JoinLabels(s[..d]);
      var labels := Labels(s);
      assert labels[..|labels| - 1] == Labels(s[..d]);
      assert s == s[..d] + "." + s[d + 1..];
    }
  }

  ghost predicate DotFree(s: string) {
    forall i :: 0 <= i < |s| ==> s[i] != '.'
  }

  lemma {:induction false} LabelsDotFree(s: string)
    ensures forall i :: 0 <= i < |Labels(s)| ==> DotFree(Labels(s)[i])
  {
    var d := LastDot(s);
    LastDotExact(s);
    if d >= 0 {
      LabelsDotFree(s[..d]);
    }
  }

  lemma {:induction false} LastDotAt(s: string, t: string)
    requires DotFree(t)
    ensures LastDot(s + "." + t) == |s|
  {
    var all, n := s + "." + t, |t| - 1;
    if n < 0 {
      assert all == s + ".";
    } else {
      assert all[|all| - 1] == t[n];
      assert all[..|all| - 1] == s + "." + t[..n];
      LastDotAt(s, t[..n]);
    }
  }

  lemma LabelsNext(s: string, t: string)
    requires DotFree(t)
    ensures Labels(s + "." + t) == Labels(s) + [t]
  {
    hide LastDot;
    LastDotAt(s, t);
    assert (s + "." + t)[..|s|] == s && (s + "." + t)[|s| + 1..] == t;
  }

  lemma {:induction false} LabelsJoin(labels: seq<string>)
    requires labels != [] && forall i :: 0 <= i < |labels| ==> DotFree(labels[i])
    ensures Labels(Join(labels)) == labels
  {
    var n := |labels| - 1;
    if n == 0 {
      LastDotExact(labels[0]);
      hide LastDot;
    } else {
      hide Labels, LastDot, DotFree;
      LabelsJoin(labels[..n]);
      LabelsNext(Join(labels[..n]), labels[n]);
      assert labels == labels[..n] + [labels[n]];
    }
  }

  // ---------------------------------------------------------------- IPv4 addresses

  predicate IsNumber(name: string) {
    1 <= |name| <= 3 && AllDigits(name) && Value(name) <= 255
  }

  predicate IsIP(host: string) {
    var part := Labels(host);
    && |part| == 4
    && forall i :: 0 <= i < 4 ==> IsNumber(part[i])
  }

  predicate IsPrivate(host: string) {
    var part := Labels(host);
    && IsIP(host)
    && (part[0] == "127" || part[0] == "10" || (part[0] == "192" && part[1] == "168")
        || (part[0] == "172" && 16 <= Value(part[1]) <= 31))
  }

  method HostIsIP(host: string) returns (isIP: bool, isPrivate: bool)
    ensures isIP == IsIP(host) && isPrivate == IsPrivate(host)
  {
    var part := Labels(host);
    if |part| != 4 {
      return false, false;
    }
    for i := 4 downto 0
      invariant forall j :: i <= j < 4 ==> IsNumber(part[j])
    {
      if |part[i]| == 0 || |part[i]| > 3 {
        return false, false;
      }
      if !AllDigits(part[i]) || Value(part[i]) > 255 {
        return false, false;
      }
    }
    if part[0] == "127" || part[0] == "10" || (part[0] == "192" && part[1] == "168") {
      return true, true;
    }
    if part[0] == "172" {
      var n := Value(part[1]);
      if 16 <= n && n <= 31 {
        return true, true;
      }
    }
    return true, false;
  }

  /** The blocks of section 3 of RFC 1918 and the loopback block, by their first two octets. */
  predicate PrivateBlock(a: nat, b: nat) {
    a == 10 || (a == 172 && 16 <= b <= 31) || (a == 192 && b == 168) || a == 127
  }

  /** An address is private exactly when it is in one of the blocks, unless ten is written with a leading zero. */
  lemma PrivateExact(host: string)
    requires IsIP(host)
    ensures var part := Labels(host);
            IsPrivate(host) <==> PrivateBlock(Value(part[0]), Value(part[1])) && part[0] != "010"
  {
    var part := Labels(host);
    assert IsNumber(part[0]) && IsNumber(part[1]);
    Known(part[0]);
    Known(part[1]);
  }

  /** `010.0.0.1` is an address in the first private block and is not taken as private. */
  lemma LeadingZeroTen()
    ensures IsIP("010.0.0.1") && !IsPrivate("010.0.0.1")
    ensures PrivateBlock(Value(Labels("010.0.0.1")[0]), Value(Labels("010.0.0.1")[1]))
  {
    hide Labels, IsNumber, Value, IsPrivate;
    FourLabels("010", "0", "0", "1");
    assert "010" + "." + "0" + "." + "0" + "." + "1" == "010.0.0.1";
    SmallNumbers();
    PrivateExact("010.0.0.1");
  }

  lemma SmallNumbers()
    ensures IsNumber("010") && Value("010") == 10 && IsNumber("0") && Value("0") == 0 && IsNumber("1")
  {
    hide Value;
    ValueOf("010");
    ValueOf("0");
    ValueOf("1");
  }

  lemma FourLabels(a: string, b: string, c: string, d: string)
    requires DotFree(a) && DotFree(b) && DotFree(c) && DotFree(d)
    ensures Labels(a + "." + b + "." + c + "." + d) == [a, b, c, d]
  {
    LastDotExact(a);
    assert Labels(a) == [a];
    LabelsNext(a, b);
    LabelsNext(a + "." + b, c);
    LabelsNext(a + "." + b + "." + c, d);
  }

  lemma Known(name: string)
    requires IsNumber(name)
    ensures Value(name) == 10 <==> name == "10" || name == "010"
    ensures Value(name) == 127 <==> name == "127"
    ensures Value(name) == 168 <==> name == "168"
    ensures Value(name) == 172 <==> name == "172"
    ensures Value(name) == 192 <==> name == "192"
  {
    hide Value;
    ValueOf(name);
  }

  // ---------------------------------------------------------------- domains

  const TOP_LEVELS: seq<string> := ["ac", "co", "com", "edu", "gov", "net", "org", "se"]

  predicate TopLevel(name: string) {
    name in TOP_LEVELS
  }

  /** The index of the last dot at or before a position; a negative position counts as zero. */
  function LastDotBefore(s: string, position: int): (i: int)
    ensures -1 <= i < |s|
  {
    var p := if position < 0 then 0 else position;
    if p >= |s| then LastDot(s) else LastDot(s[..p + 1])
  }

  /** The text between two positions, in whichever order they come. */
  function Substring(s: string, from: nat, to: nat): string
    requires from <= |s| && to <= |s|
  {
    if from <= to then s[from..to] else s[to..from]
  }

  function Host2Domain(host: string): string {
    if IsPrivate(host) then ""
    else if IsIP(host) then host
    else NameDomain(host)
  }

  /** The domain of a host that is not an address. */
  function NameDomain(host: string): string {
    var lastDot := LastDot(host);
    if lastDot == -1 then ""
    else
      var dot2ndLast := LastDotBefore(host, lastDot - 1);
      if dot2ndLast == -1 then host
      else if TopLevel(Substring(host, dot2ndLast + 1, lastDot)) then
        var dot3rdLast := LastDotBefore(host, dot2ndLast - 1);
        if dot3rdLast == -1 then host else host[dot3rdLast + 1..]
      else host[dot2ndLast + 1..]
  }

  /** How many labels make the domain: two, or three under a second-level registry. */
  function Count(labels: seq<string>): (k: nat)
    requires |labels| >= 2
    ensures 2 <= k <= 3 && k <= |labels|
  {
    if |labels| >= 3 && TopLevel(labels[|labels| - 2]) then 3 else 2
  }

  function LastLabels(labels: seq<string>, k: nat): string
    requires 0 < k <= |labels|
  {
    Join(labels[|labels| - k..])
  }

  /** The host begins with a dot and its domain would be all of it. */
  predicate LeadingDot(labels: seq<string>)
    requires |labels| >= 2
  {
    labels[0] == "" && Count(labels) == |labels|
  }

  lemma {:induction false} JoinTail(labels: seq<string>, k: nat)
    requires 0 < k < |labels|
    ensures Join(labels) == Join(labels[..k]) + "." + Join(labels[k..])
  {
    var n := |labels| - 1;
    assert labels[k..][..n - k] == labels[..n][k..];
    if k < n {
      JoinTail(labels[..n], k);
      assert labels[..n][..k] == labels[..k];
      assert Join(labels[k..]) == Join(labels[..n][k..]) + "." + labels[n];
    }
  }

  lemma LabelsSplit(s: string)
    ensures LastDot(s) < 0 ==> Labels(s) == [s]
    ensures LastDot(s) >= 0 ==> Labels(s) == Labels(s[..LastDot(s)]) + [s[LastDot(s) + 1..]]
    ensures s != "" ==> Labels(s) != [""]
  {
  }

  lemma LastDotFirst(host: string)
    requires host != "" && host[0] == '.'
    ensures LastDotBefore(host, -1) == 0
  {
  }

  /** The last `k` labels, or all but the first where those would begin with a dot. */
  function DomainOf(labels: seq<string>): string {
    if |labels| <= 1 then ""
    else if LeadingDot(labels) then Join(labels[1..])
    else LastLabels(labels, Count(labels))
  }

  lemma OneDot(host: string)
    requires LastDot(host) == 0
    ensures Labels(host) == ["", host[1..]] && NameDomain(host) == host[1..]
  {
    hide Labels, LastDot, NameDomain;
    LabelsSplit(host);
    NoLabels();
    assert host[..0] == "";
    JoinedLabel(host[1..]);
    FirstDot(host);
    LastDotFirst(host);
    OneDotDomain(host);
  }

  lemma JoinedLabel(last: string)
    ensures [""] + [last] == ["", last]
  {
  }

  lemma FirstDot(host: string)
    requires LastDot(host) == 0
    ensures host != "" && host[0] == '.'
  {
    hide LastDot;
    LastDotExact(host);
  }

  lemma OneDotDomain(host: string)
    requires LastDot(host) == 0 && LastDotBefore(host, -1) == 0 && host != "" && host[0] == '.'
    ensures NameDomain(host) == host[1..]
  {
    hide LastDot, TopLevel, LastDotBefore;
    NotTopLevel();
    assert host[0..1] == ".";
    assert Substring(host, 1, 0) == host[0..1];
  }

  lemma NotTopLevel()
    ensures !TopLevel(".")
  {
  }

  lemma NoLabels()
    ensures Labels("") == [""]
  {
  }

  lemma BeforeDot(host: string, p: nat)
    requires 0 < p <= |host|
    ensures LastDotBefore(host, p - 1) == LastDot(host[..p])
  {
    hide LastDot;
    assert host[..p - 1 + 1] == host[..p];
  }

  /** `d` and `e` are the last two dots. */
  ghost predicate TwoDots(host: string, e: nat, d: nat) {
    e < d < |host| && LastDot(host) == d && LastDot(host[..d]) == e
  }

  lemma TwoDotsDomain(host: string, e: nat, d: nat)
    requires TwoDots(host, e, d)
    ensures NameDomain(host) ==
            if !TopLevel(host[e + 1..d]) then host[e + 1..]
            else if LastDotBefore(host, e - 1) == -1 then host
            else host[LastDotBefore(host, e - 1) + 1..]
  {
    hide TopLevel, LastDot, LastDotBefore, NameDomain;
    BeforeDot(host, d);
    NameDomainTurn(host, e, d);
  }

  lemma NameDomainTurn(host: string, e: nat, d: nat)
    requires LastDot(host) == d < |host| && LastDotBefore(host, d - 1) == e < d
    ensures NameDomain(host) ==
            if !TopLevel(host[e + 1..d]) then host[e + 1..]
            else if LastDotBefore(host, e - 1) == -1 then host
            else host[LastDotBefore(host, e - 1) + 1..]
  {
    hide TopLevel, LastDot, LastDotBefore, Substring;
    SubstringUp(host, e + 1, d);
  }

  lemma SubstringUp(s: string, from: nat, to: nat)
    requires from <= to <= |s|
    ensures Substring(s, from, to) == s[from..to]
  {
  }

  lemma TwoDotsLabels(host: string, e: nat, d: nat)
    requires TwoDots(host, e, d)
    ensures Labels(host) == Labels(host[..e]) + [host[e + 1..d], host[d + 1..]]
  {
    hide Labels;
    LabelsSplit(host);
    LabelsSplit(host[..d]);
    assert host[..d][..e] == host[..e] && host[..d][e + 1..] == host[e + 1..d];
  }

  lemma JoinTwo(a: string, b: string)
    ensures Join([a, b]) == a + "." + b
  {
    assert [a, b][..1] == [a];
  }

  lemma JoinThree(a: string, b: string, c: string)
    ensures Join([a, b, c]) == a + "." + b + "." + c
  {
    assert [a, b, c][..2] == [a, b];
    JoinTwo(a, b);
  }

  lemma TwoDotsSplit(host: string, e: nat, d: nat)
    requires TwoDots(host, e, d)
    ensures host == host[..e] + ("." + (host[e + 1..d] + "." + host[d + 1..]))
    ensures host[e + 1..] == host[e + 1..d] + "." + host[d + 1..]
  {
    hide LastDot;
    LastDotExact(host);
    LastDotExact(host[..d]);
    assert host[..d][e] == '.';
  }

  lemma CountOf(before: seq<string>, m: string, t: string)
    requires before != []
    ensures var labels := before + [m, t]; Count(labels) == if TopLevel(m) then 3 else 2
  {
    hide TopLevel;
  }

  lemma NotUnderRegistry(host: string, e: nat, d: nat)
    requires TwoDots(host, e, d) && !TopLevel(host[e + 1..d])
    ensures NameDomain(host) == DomainOf(Labels(host))
  {
    var before, m, t := Labels(host[..e]), host[e + 1..d], host[d + 1..];
    TwoDotsLabels(host, e, d);
    TwoDotsDomain(host, e, d);
    TwoDotsSplit(host, e, d);
    CountOf(before, m, t);
    JoinTwo(m, t);
    var labels := before + [m, t];
    hide Labels, Join, NameDomain, TopLevel, LastDotBefore, TwoDots, Count;
    assert labels[|labels| - 2..] == [m, t];
  }

  lemma UnderRegistry(host: string, e: nat, d: nat)
    requires e < d < |host| && TwoDots(host, e, d) && TopLevel(host[e + 1..d])
    ensures NameDomain(host) == DomainOf(Labels(host))
  {
    hide *;
    TwoDotsLabels(host, e, d);
    DomainFromThird(host, e, d);
    TwoDotsSplit(host, e, d);
    ThirdLabels(host, host[..e], host[e + 1..d], host[d + 1..], "." + (host[e + 1..d] + "." + host[d + 1..]));
  }

  lemma ThirdLabels(host: string, h: string, m: string, t: string, end: string)
    requires host == h + end && end == "." + (m + "." + t) && TopLevel(m)
    ensures var f := LastDotBefore(host, |h| - 1);
            DomainOf(Labels(h) + [m, t]) == if f == -1 then host else host[f + 1..]
  {
    hide *;
    CountOf(Labels(h), m, t);
    OfThree(Labels(h) + [m, t]);
    if h == "" {
      assert host == end;
      FirstDotLabels(host, Labels(h), m, t);
    } else {
      LaterLabels(host, h, m, t, end);
    }
  }

  lemma LaterLabels(host: string, h: string, m: string, t: string, end: string)
    requires host == h + end && end == "." + (m + "." + t) && h != ""
    ensures var f := LastDotBefore(host, |h| - 1);
            LastLabels(Labels(h) + [m, t], 3) == if f == -1 then host else host[f + 1..]
    ensures var labels := Labels(h) + [m, t]; !(labels[0] == "" && |labels| == 3)
  {
    hide *;
    BeforeEnd(host, h, end);
    ThirdDot(h, m, t, end);
    CutAt(host, h, end);
  }

  lemma BeforeEnd(host: string, h: string, end: string)
    requires host == h + end && h != ""
    ensures LastDotBefore(host, |h| - 1) == LastDot(h)
  {
    hide *;
    BeforeDot(host, |h|);
    assert host[..|h|] == h;
  }

  lemma CutAt(host: string, h: string, end: string)
    requires host == h + end && h != ""
    ensures var f := LastDot(h); FromDot(h) + end == if f == -1 then host else host[f + 1..]
  {
    hide LastDot;
  }

  lemma DomainFromThird(host: string, e: nat, d: nat)
    requires TwoDots(host, e, d) && TopLevel(host[e + 1..d])
    ensures var f := LastDotBefore(host, e - 1); NameDomain(host) == if f == -1 then host else host[f + 1..]
  {
    hide *;
    TwoDotsDomain(host, e, d);
  }

  lemma OfThree(labels: seq<string>)
    requires |labels| >= 3 && Count(labels) == 3
    ensures DomainOf(labels) == if labels[0] == "" && |labels| == 3 then Join(labels[1..]) else LastLabels(labels, 3)
  {
    hide Count;
  }

  lemma FirstDotLabels(host: string, before: seq<string>, m: string, t: string)
    requires before == Labels("") && host == "." + (m + "." + t)
    ensures LastDotBefore(host, -1) == 0 && Join((before + [m, t])[1..]) == host[1..] && (before + [m, t])[0] == ""
    ensures |before| == 1
  {
    hide Labels, Join, LastDot;
    NoLabels();
    LastDotFirst(host);
    JoinTwo(m, t);
    assert ([""] + [m, t])[1..] == [m, t];
  }

  /** The text from the dot before `e` on, or from the start. */
  function FromDot(h: string): string {
    h[LastDot(h) + 1..]
  }

  lemma ThirdDot(h: string, m: string, t: string, end: string)
    requires h != "" && end == "." + (m + "." + t)
    ensures var labels := Labels(h) + [m, t];
            && LastLabels(labels, 3) == FromDot(h) + end
            && !(labels[0] == "" && |labels| == 3)
  {
    hide *;
    LastOfLabels(h);
    LastLabelsThree(Labels(h), m, t);
    DotsRegroup(FromDot(h), m, t);
    FirstNotAlone(h, m, t);
  }

  lemma FirstNotAlone(h: string, m: string, t: string)
    requires h != ""
    ensures var labels := Labels(h) + [m, t]; !(labels[0] == "" && |labels| == 3)
  {
    hide *;
    LabelsSplit(h);
    var before := Labels(h);
    if |before| == 1 {
      assert before == [before[0]];
    }
  }

  lemma LastLabelsOf(labels: seq<string>)
    requires |labels| >= 3
    ensures LastLabels(labels, 3) == Join(labels[|labels| - 3..])
  {
  }

  lemma DotsRegroup(a: string, b: string, c: string)
    ensures a + "." + b + "." + c == a + ("." + (b + "." + c))
  {
  }

  lemma LastThree(before: seq<string>, x: string, m: string, t: string)
    requires before != [] && before[|before| - 1] == x
    ensures (before + [m, t])[|before + [m, t]| - 3..] == [x, m, t]
  {
  }

  lemma LastLabelsThree(before: seq<string>, m: string, t: string)
    requires before != []
    ensures LastLabels(before + [m, t], 3) == before[|before| - 1] + "." + m + "." + t
  {
    hide Join;
    LastThree(before, before[|before| - 1], m, t);
    LastLabelsOf(before + [m, t]);
    JoinThree(before[|before| - 1], m, t);
  }

  lemma LastOfLabels(h: string)
    ensures Labels(h)[|Labels(h)| - 1] == FromDot(h)
  {
    hide LastDot;
  }

  lemma TwoLabels(host: string, d: nat)
    requires 0 < d < |host| && LastDot(host) == d && LastDot(host[..d]) == -1
    ensures NameDomain(host) == DomainOf(Labels(host))
  {
    hide Labels, Join, LastDot, TopLevel;
    LabelsSplit(host);
    LabelsSplit(host[..d]);
    JoinLabels(host);
    assert host[..d - 1 + 1] == host[..d];
    assert Labels(host) == [host[..d], host[d + 1..]];
    assert Labels(host)[0..] == Labels(host);
  }

  lemma BeforeLastDot(host: string, d: nat)
    requires 0 < d < |host| && LastDot(host) == d
    ensures NameDomain(host) == DomainOf(Labels(host))
  {
    hide *;
    var e := LastDot(host[..d]);
    if e < 0 {
      TwoLabels(host, d);
    } else {
      HaveTwoDots(host, e, d);
      if TopLevel(host[e + 1..d]) {
        UnderRegistry(host, e, d);
      } else {
        NotUnderRegistry(host, e, d);
      }
    }
  }

  lemma HaveTwoDots(host: string, e: nat, d: nat)
    requires d < |host| && LastDot(host) == d && LastDot(host[..d]) == e
    ensures TwoDots(host, e, d)
  {
  }

  /** The domain by labels. Only where it would take in a leading dot is that dot lost. */
  lemma DomainExact(host: string)
    ensures NameDomain(host) == DomainOf(Labels(host))
  {
    var d := LastDot(host);
    LabelsSplit(host);
    if d == 0 {
      OneDot(host);
      assert ["", host[1..]][1..] == [host[1..]];
      hide *;
    } else if d > 0 {
      BeforeLastDot(host, d);
    }
  }

  /** The labels of a domain. */
  function Taken(labels: seq<string>): (taken: seq<string>)
    requires |labels| >= 2
    ensures 1 <= |taken| <= 3
  {
    if LeadingDot(labels) then labels[1..] else labels[|labels| - Count(labels)..]
  }

  lemma TakenDotFree(labels: seq<string>)
    requires |labels| >= 2 && forall i :: 0 <= i < |labels| ==> DotFree(labels[i])
    ensures forall i :: 0 <= i < |Taken(labels)| ==> DotFree(Taken(labels)[i])
  {
    hide DotFree, TopLevel;
    var from := |labels| - |Taken(labels)|;
    assert forall i :: 0 <= i < |Taken(labels)| ==> Taken(labels)[i] == labels[from + i];
  }

  lemma DomainTaken(labels: seq<string>)
    requires |labels| >= 2
    ensures DomainOf(labels) == Join(Taken(labels))
  {
    hide Join, TopLevel;
  }

  lemma NameIs(host: string)
    requires !IsIP(host)
    ensures Host2Domain(host) == NameDomain(host)
  {
    hide NameDomain, Labels;
  }

  /** The domain of a name with a dot consists of the labels taken, and is not an address itself. */
  lemma DomainShort(host: string)
    requires !IsIP(host) && |Labels(host)| >= 2
    ensures var domain := Host2Domain(host);
            domain == Join(Taken(Labels(host))) && Labels(domain) == Taken(Labels(host)) && !IsIP(domain)
  {
    hide Labels, Taken, Host2Domain, NameDomain, DomainOf, DotFree, Join;
    var labels := Labels(host);
    NameIs(host);
    DomainExact(host);
    LabelsDotFree(host);
    DomainTaken(labels);
    TakenDotFree(labels);
    LabelsJoin(Taken(labels));
  }

  lemma DomainTwice(host: string)
    requires !IsIP(host) && |Labels(host)| >= 2
    ensures Host2Domain(Host2Domain(host)) == DomainOf(Taken(Labels(host)))
  {
    hide *;
    DomainShort(host);
    var domain := Host2Domain(host);
    NameIs(domain);
    DomainExact(domain);
  }

  lemma Whole(taken: seq<string>)
    requires 2 <= |taken| && Count(taken) == |taken|
    ensures DomainOf(taken) == Join(taken) <==> taken[0] != ""
  {
    JoinTail(taken, 1);
    assert taken[..1] == [taken[0]] && taken[0..] == taken;
    hide Count;
    assert Join([taken[0]]) == taken[0];
    hide Join;
  }

  lemma TakenAgain(labels: seq<string>)
    requires |labels| >= 2
    ensures var k := Count(labels);
            (DomainOf(Taken(labels)) == Join(Taken(labels))
             <==> labels[|labels| - k] != "" || (k == |labels| && (k == 3 || labels[1] == "")))
  {
    var k, taken := Count(labels), Taken(labels);
    if !LeadingDot(labels) {
      assert taken == labels[|labels| - k..] && taken[0] == labels[|labels| - k];
      if k == 3 {
        assert taken[1] == labels[|labels| - 2];
      }
      hide TopLevel;
      Whole(taken);
    } else if k == 2 {
      hide TopLevel, Count;
      assert taken == [labels[1]];
      assert Join(taken) == labels[1];
    } else {
      assert taken == [labels[1], labels[2]] && labels[1] != "";
      hide TopLevel;
      Whole(taken);
    }
  }

  /** The domain of a name with a dot is its own domain exactly when it does not begin with an empty label. */
  lemma IdempotentExact(host: string)
    requires !IsIP(host) && |Labels(host)| >= 2
    ensures var labels := Labels(host);
            var k := Count(labels);
            (Host2Domain(Host2Domain(host)) == Host2Domain(host)
             <==> labels[|labels| - k] != "" || (k == |labels| && (k == 3 || labels[1] == "")))
  {
    hide *;
    DomainShort(host);
    DomainTwice(host);
    TakenAgain(Labels(host));
  }

  /**
   * The domain of a name with at least two labels, none of them empty, is its last two or three labels,
   * and is its own domain.
   */
  lemma DomainIdempotent(host: string)
    requires !IsIP(host) && |Labels(host)| >= 2 && "" !in Labels(host)
    ensures var domain := Host2Domain(host);
            && domain == LastLabels(Labels(host), Count(Labels(host)))
            && Host2Domain(domain) == domain
  {
    var labels := Labels(host);
    assert labels[0] in labels && labels[|labels| - Count(labels)] in labels;
    assert !LeadingDot(labels);
    assert DomainOf(labels) == LastLabels(labels, Count(labels));
    hide *;
    IdempotentExact(host);
    NameIs(host);
    DomainExact(host);
  }

  /** `.com` is not its own domain's domain. */
  lemma NotIdempotent()
    ensures Host2Domain(".com") == "com" && Host2Domain("com") == ""
  {
    hide LastDot, Labels, TopLevel, NameDomain, Host2Domain;
    LabelsNext("", "com");
    NoLabels();
    assert "" + "." + "com" == ".com";
    LastDotExact("com");
    LabelsSplit("com");
    assert Labels(".com") == ["", "com"] && Labels("com") == ["com"];
    NameIs(".com");
    NameIs("com");
    DomainExact(".com");
    DomainExact("com");
    assert ["", "com"][1..] == ["com"];
  }

  // ---------------------------------------------------------------- routes

  datatype Route = Direct | Blocked | Default

  function Acc(hosts: seq<string>): set<string> {
    set h | h in hosts
  }

  /** A lookup table of a list of hosts. */
  method Table(hosts: seq<string>) returns (acc: set<string>)
    ensures acc == Acc(hosts)
  {
    acc := {};
    for i := 0 to |hosts|
      invariant acc == Acc(hosts[..i])
    {
      acc := acc + {hosts[i]};
    }
  }

  /** The lists as the script is generated: no domain is always direct, `alkasir.com` always blocked. */
  function DirectHosts(direct: seq<string>): seq<string> {
    [""] + direct
  }

  function BlockedHosts(blocked: seq<string>): seq<string> {
    ["alkasir.com"] + blocked
  }

  function FindProxyForURL(url: string, host: string, directAcc: set<string>, blockedAcc: set<string>): Route {
    if |url| >= 4 && url[..4] == "ftp:" then Direct
    else
      var domain := Host2Domain(host);
      if host in directAcc || domain in directAcc then Direct
      else if host in blockedAcc || domain in blockedAcc then Blocked
      else Default
  }

  /** Names without dots, private addresses and listed hosts go direct, even when they are blocked too. */
  lemma AlwaysDirect(url: string, host: string, direct: seq<string>, blocked: seq<string>)
    ensures |Labels(host)| == 1 || IsPrivate(host) || host in direct || Host2Domain(host) in direct
        ==> FindProxyForURL(url, host, Acc(DirectHosts(direct)), Acc(BlockedHosts(blocked))) == Direct
  {
    assert DirectHosts(direct)[0] == "";
    if |Labels(host)| == 1 {
      NameIs(host);
      DomainExact(host);
      hide Labels, NameDomain;
    }
    hide Host2Domain, Labels;
  }

  /** A name that is in neither list is routed as its domain is. */
  lemma RoutedAsDomain(url: string, host: string, directAcc: set<string>, blockedAcc: set<string>)
    requires !IsIP(host) && |Labels(host)| >= 2 && "" !in Labels(host)
    requires host !in directAcc + blockedAcc
    ensures FindProxyForURL(url, host, directAcc, blockedAcc)
         == FindProxyForURL(url, Host2Domain(host), directAcc, blockedAcc)
  {
    hide Host2Domain, Labels, IsIP;
    DomainIdempotent(host);
  }
}
