/** Which way a request goes, for every address and the lists the script is generated with. */
module PacRoutes {
  import opened Pac

  predicate Ftp(url: string) {
    |url| >= 4 && url[0] == 'f' && url[1] == 't' && url[2] == 'p' && url[3] == ':'
  }

  /** The names under which registries give out domains. */
  predicate Registry(name: string) {
    || name == "ac" || name == "co" || name == "com" || name == "edu"
    || name == "gov" || name == "net" || name == "org" || name == "se"
  }

  function Routed(url: string, host: string, direct: seq<string>, blocked: seq<string>): Route {
    FindProxyForURL(url, host, Acc(DirectHosts(direct)), Acc(BlockedHosts(blocked)))
  }

  /** The lists also hold the empty name and the program's own domain. */
  lemma ListsExact(direct: seq<string>, blocked: seq<string>, name: string)
    ensures name in Acc(DirectHosts(direct)) <==> name == "" || name in direct
    ensures name in Acc(BlockedHosts(blocked)) <==> name == "alkasir.com" || name in blocked
  {
    assert DirectHosts(direct)[0] == "" && BlockedHosts(blocked)[0] == "alkasir.com";
    assert forall i :: 0 <= i < |direct| ==> DirectHosts(direct)[i + 1] == direct[i];
    assert forall i :: 0 <= i < |blocked| ==> BlockedHosts(blocked)[i + 1] == blocked[i];
  }

  predicate GoesDirect(name: string, direct: seq<string>) {
    name == "" || name in direct
  }

  predicate GoesBlocked(name: string, blocked: seq<string>) {
    name == "alkasir.com" || name in blocked
  }

  lemma FtpDirect(url: string, host: string, direct: seq<string>, blocked: seq<string>)
    requires Ftp(url)
    ensures Routed(url, host, direct, blocked) == Direct
  {
    hide Host2Domain;
    FtpIs(url);
  }

  lemma FtpIs(url: string)
    ensures Ftp(url) <==> |url| >= 4 && url[..4] == "ftp:"
  {
    assert |url| >= 4 ==> url[..4] == [url[0], url[1], url[2], url[3]];
  }

  lemma RegistryExact(name: string)
    ensures TopLevel(name) <==> Registry(name)
  {
    var t := TOP_LEVELS;
    assert t[0] == "ac" && t[1] == "co" && t[2] == "com" && t[3] == "edu";
    assert t[4] == "gov" && t[5] == "net" && t[6] == "org" && t[7] == "se";
  }

  /** The last labels that make the domain of a name: two, or three under a registry. */
  function DomainLabels(labels: seq<string>): seq<string>
    requires |labels| >= 2
  {
    var n := |labels|;
    if n >= 3 && Registry(labels[n - 2]) then [labels[n - 3], labels[n - 2], labels[n - 1]]
    else [labels[n - 2], labels[n - 1]]
  }

  /** The domain of any host; a leading dot is lost where it would begin the domain. */
  function DomainName(host: string): string {
    var labels := Labels(host);
    if IsPrivate(host) || |labels| == 1 then ""
    else if IsIP(host) then host
    else if labels[0] == "" && |DomainLabels(labels)| == |labels| then Join(DomainLabels(labels)[1..])
    else Join(DomainLabels(labels))
  }

  lemma DomainIs(host: string)
    ensures Host2Domain(host) == DomainName(host)
  {
    hide Labels, Join, NameDomain, IsNumber, TopLevel, Registry;
    var labels := Labels(host);
    DomainExact(host);
    if |labels| >= 2 {
      DomainOfIs(labels);
    }
  }

  lemma DomainOfIs(labels: seq<string>)
    requires |labels| >= 2
    ensures DomainOf(labels) ==
            if labels[0] == "" && |DomainLabels(labels)| == |labels| then Join(DomainLabels(labels)[1..]) else Join(DomainLabels(labels))
  {
    hide Join, TopLevel, Registry;
    var n := |labels|;
    RegistryExact(labels[n - 2]);
    assert labels[n - Count(labels)..] == DomainLabels(labels);
    assert Count(labels) == n ==> labels == DomainLabels(labels);
  }

  lemma ByDomain(url: string, host: string, domain: string, direct: seq<string>, blocked: seq<string>)
    requires !Ftp(url) && Host2Domain(host) == domain
    ensures Routed(url, host, direct, blocked) ==
            if GoesDirect(host, direct) || GoesDirect(domain, direct) then Direct
            else if GoesBlocked(host, blocked) || GoesBlocked(domain, blocked) then Blocked
            else Default
  {
    hide Host2Domain, Acc, DirectHosts, BlockedHosts;
    ListsExact(direct, blocked, host);
    ListsExact(direct, blocked, domain);
    FtpIs(url);
  }

  /**
   * Every request but ftp's: blocked exactly when neither the host nor its domain goes direct and one of
   * them is blocked, by the default way exactly when both are in neither list.
   */
  lemma RouteExact(url: string, host: string, direct: seq<string>, blocked: seq<string>)
    requires !Ftp(url)
    ensures var domain, route := DomainName(host), Routed(url, host, direct, blocked);
            var straight := host in direct || domain in direct || host == "" || domain == "";
            var barred := host in blocked || domain in blocked || host == "alkasir.com" || domain == "alkasir.com";
            && (route == Direct <==> straight)
            && (route == Blocked <==> !straight && barred)
            && (route == Default <==> !straight && !barred)
  {
    hide Host2Domain, DomainName, FindProxyForURL;
    DomainIs(host);
    ByDomain(url, host, DomainName(host), direct, blocked);
  }

  /** The program's own site is blocked for every list, unless it is named as direct. */
  lemma OwnSiteBlocked(url: string, host: string, direct: seq<string>, blocked: seq<string>)
    requires !Ftp(url) && !IsIP(host) && "" !in Labels(host)
    requires var labels := Labels(host); |labels| >= 2 && labels[|labels| - 2] == "alkasir" && labels[|labels| - 1] == "com"
    ensures host !in direct && "alkasir.com" !in direct ==> Routed(url, host, direct, blocked) == Blocked
  {
    hide Labels, Host2Domain, FindProxyForURL, IsIP, Join;
    var labels := Labels(host);
    assert labels[0] in labels;
    OwnDomain(labels);
    assert DomainName(host) == "alkasir.com";
    HostNotEmpty(host);
    RouteExact(url, host, direct, blocked);
  }

  lemma OwnDomain(labels: seq<string>)
    requires |labels| >= 2 && labels[|labels| - 2] == "alkasir" && labels[|labels| - 1] == "com"
    ensures DomainLabels(labels) == ["alkasir", "com"] && Join(["alkasir", "com"]) == "alkasir.com"
  {
    assert "alkasir"[0] == 'a' && "alkasir"[1] == 'l' && "ac"[1] == 'c';
    hide Join;
    JoinTwo("alkasir", "com");
    assert "alkasir" + "." + "com" == "alkasir.com";
  }

  lemma HostNotEmpty(host: string)
    requires |Labels(host)| >= 2
    ensures host != ""
  {
    NoLabels();
  }
}
