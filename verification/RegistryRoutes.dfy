/** The containerd registry routes of a local cluster, and their compilation to bootstrap commands
    that write one hosts file per registry namespace. */
module RegistryRoutes {
  import opened Wrappers
  import opened Strings

  datatype Capability = Pull | Resolve | Push

  datatype Scheme = Http | Https {
    function Text(): string { if this == Http then "http" else "https" }
  }

  /** A host is a direct URL or a port published on the Docker gateway; the scheme is kept, and not
      used, on a direct one. */
  datatype Endpoint = Url(url: string) | GatewayPort(port: nat)

  datatype Host = Host(endpoint: Endpoint, scheme: Scheme, capabilities: seq<Capability>)

  datatype Route = Route(server: string, hosts: seq<Host>)

  /** The uniqueness that the route's validator demands. */
  predicate ValidHosts(route: Route) {
    forall i, j :: 0 <= i < j < |route.hosts| ==>
      (route.hosts[i].endpoint, route.hosts[i].scheme) != (route.hosts[j].endpoint, route.hosts[j].scheme)
  }

  predicate UsesGateway(route: Route) { exists i :: 0 <= i < |route.hosts| && route.hosts[i].endpoint.GatewayPort? }

  /** What stands for the gateway's host until the node knows it. */
  function Placeholder(): string { "__CA4S_REGISTRY_HOST__" }

  function GatewayUrl(scheme: Scheme, host: string, port: nat): string {
    scheme.Text() + "://" + host + (":" + Decimal(port))
  }

  /** The URL of a host once the gateway is known to be at some address. */
  function UrlOf(h: Host, gateway: string): string {
    match h.endpoint
    case Url(url) => url
    case GatewayPort(port) => GatewayUrl(h.scheme, gateway, port)
  }

  /* ----- Hosts files ----- */

  datatype Entry = Entry(url: string, capabilities: seq<Capability>)

  /** A hosts file: the server and the table of hosts, in order. */
  datatype HostsFile = HostsFile(server: string, hosts: seq<Entry>)

  predicate HasUrl(entries: seq<Entry>, url: string) { exists i :: 0 <= i < |entries| && entries[i].url == url }

  /** Python's assignment to a dictionary key: in place for a known key, else at the end. */
  function Put(entries: seq<Entry>, e: Entry): seq<Entry> {
    if HasUrl(entries, e.url)
    then seq(|entries|, i requires 0 <= i < |entries| => if entries[i].url == e.url then e else entries[i])
    else entries + [e]
  }

  function EntryOf(h: Host): Entry { Entry(UrlOf(h, Placeholder()), h.capabilities) }

  function Table(hosts: seq<Host>): seq<Entry> {
    if hosts == [] then [] else Put(Table(hosts[..|hosts| - 1]), EntryOf(hosts[|hosts| - 1]))
  }

  function Content(route: Route): HostsFile { HostsFile(route.server, Table(route.hosts)) }

  /** `sed s|placeholder|host|g`. */
  function Substitute(s: string, host: string): string
    decreases |s|
  {
    if s == "" then ""
    else if Placeholder() <= s then host + Substitute(s[|Placeholder()|..], host)
    else [s[0]] + Substitute(s[1..], host)
  }

  function SubstituteFile(f: HostsFile, host: string): HostsFile {
    HostsFile(Substitute(f.server, host),
              seq(|f.hosts|, i requires 0 <= i < |f.hosts| =>
                Entry(Substitute(f.hosts[i].url, host), f.hosts[i].capabilities)))
  }

  /** What ends up in the file of a route; the substitution runs only when some host needs it. */
  function Written(route: Route, gateway: string): HostsFile {
    if UsesGateway(route) then SubstituteFile(Content(route), gateway) else Content(route)
  }

  /** A URL that a node can use for a host: the direct one, or that of a port of the gateway. */
  predicate IsUrlOf(h: Host, gateway: string, url: string) {
    match h.endpoint
    case Url(direct) => url == direct
    case GatewayPort(port) => url == (if h.scheme.Http? then "http://" else "https://") + gateway + ":" + Decimal(port)
  }

  lemma UrlIs(h: Host, gateway: string, url: string)
    ensures IsUrlOf(h, gateway, url) <==> url == UrlOf(h, gateway)
  {
    hide Decimal;
    if h.endpoint.GatewayPort? {
      var end := Decimal(h.endpoint.port);
      assert "http://" == "http" + "://" && "https://" == "https" + "://";
      assert gateway + ":" + end == gateway + (":" + end);
    }
  }

  /** The file is readable, having no table twice, and says just what the route says. */
  predicate Denotes(f: HostsFile, route: Route, gateway: string) {
    && (forall i, j :: 0 <= i < j < |f.hosts| ==> f.hosts[i].url != f.hosts[j].url)
    && f.server == route.server && |f.hosts| == |route.hosts|
    && forall i :: 0 <= i < |f.hosts| ==>
         IsUrlOf(route.hosts[i], gateway, f.hosts[i].url) && f.hosts[i].capabilities == route.hosts[i].capabilities
  }

  lemma DenotesUrls(f: HostsFile, route: Route, gateway: string)
    requires |f.hosts| == |route.hosts|
    ensures (forall i :: 0 <= i < |f.hosts| ==>
               IsUrlOf(route.hosts[i], gateway, f.hosts[i].url)
               && f.hosts[i].capabilities == route.hosts[i].capabilities)
            <==>
            (forall i :: 0 <= i < |f.hosts| ==>
               f.hosts[i] == Entry(UrlOf(route.hosts[i], gateway), route.hosts[i].capabilities))
  {
    forall i | 0 <= i < |f.hosts| { UrlIs(route.hosts[i], gateway, f.hosts[i].url); }
    hide IsUrlOf, UrlOf;
  }

  /* ----- Substitution ----- */

  lemma PlaceholderShape()
    ensures Placeholder() == "__CA4S_REGISTRY_HOST__" && |Placeholder()| == 22 && Placeholder()[0] == '_'
  {
  }

  lemma {:induction false} SubstituteElsewhere(s: string, host: string)
    requires '_' !in s
    ensures Substitute(s, host) == s
  {
    PlaceholderShape();
    hide Placeholder;
    if s != "" {
      assert !(Placeholder() <= s) by { assert s[0] in s; }
      SubstituteElsewhere(s[1..], host);
    }
  }

  lemma SubstituteHere(back: string, host: string)
    ensures Substitute(Placeholder() + back, host) == host + Substitute(back, host)
  {
    PlaceholderShape();
    hide Placeholder;
    var s := Placeholder() + back;
    assert Placeholder() <= s && s[|Placeholder()|..] == back;
  }

  lemma SubstituteStep(c: char, rest: string, host: string)
    requires c != '_'
    ensures Substitute([c] + rest, host) == [c] + Substitute(rest, host)
  {
    PlaceholderShape();
    hide Placeholder;
    var s := [c] + rest;
    assert s[0] == c && s[1..] == rest;
  }

  lemma {:induction false} SubstituteAfter(front: string, back: string, host: string)
    requires '_' !in front
    ensures Substitute(front + Placeholder() + back, host) == front + host + Substitute(back, host)
  {
    hide Placeholder, Substitute;
    if front == "" {
      SubstituteHere(back, host);
      assert front + Placeholder() + back == Placeholder() + back;
      assert front + host == host;
    } else {
      var c, rest := front[0], front[1..];
      assert c in front && front == [c] + rest;
      SubstituteStep(c, rest + Placeholder() + back, host);
      SubstituteAfter(rest, back, host);
      assert front + Placeholder() + back == [c] + (rest + Placeholder() + back);
      assert [c] + (rest + host + Substitute(back, host)) == front + host + Substitute(back, host);
    }
  }

  lemma OccursHead(part: string, s: string)
    ensures Occurs(part, s) <==> part <= s || (s != "" && Occurs(part, s[1..]))
  {
    if part <= s { assert OccursAt(part, s, 0); }
    if s != "" {
      if i: nat :| i <= |s[1..]| && OccursAt(part, s[1..], i) {
        assert s[1..][i..i + |part|] == s[i + 1..i + 1 + |part|];
        assert OccursAt(part, s, i + 1);
      }
      if i: nat :| i <= |s| && OccursAt(part, s, i) && i != 0 {
        assert s[1..][i - 1..i - 1 + |part|] == s[i..i + |part|];
        assert OccursAt(part, s[1..], i - 1);
      }
    }
    if i: nat :| i <= |s| && OccursAt(part, s, i) && i == 0 { assert s[..|part|] == part; }
  }

  /** Substitution changes lengths one way only. */
  lemma {:induction false} SubstituteLength(s: string, host: string)
    ensures |host| <= |Placeholder()| ==> |Substitute(s, host)| <= |s|
    ensures |Placeholder()| <= |host| ==> |s| <= |Substitute(s, host)|
    decreases |s|
  {
    PlaceholderShape();
    hide Placeholder;
    if s != "" {
      if Placeholder() <= s { SubstituteLength(s[|Placeholder()|..], host); } else { SubstituteLength(s[1..], host); }
    }
  }

  /** A text survives the substitution exactly when the placeholder does not occur in it. */
  lemma {:induction false} SubstituteFixes(s: string, host: string)
    requires host != Placeholder()
    ensures Substitute(s, host) == s <==> !Occurs(Placeholder(), s)
    decreases |s|
  {
    PlaceholderShape();
    OccursHead(Placeholder(), s);
    hide Placeholder, Occurs;
    if Placeholder() <= s {
      var rest := s[|Placeholder()|..];
      SubstituteLength(rest, host);
      assert s == Placeholder() + rest;
      assert |host| == |Placeholder()| ==>
          (host + Substitute(rest, host))[..|host|] == host && s[..|host|] == Placeholder();
    } else if s != "" {
      SubstituteFixes(s[1..], host);
      assert s == [s[0]] + s[1..];
      assert ([s[0]] + Substitute(s[1..], host))[1..] == Substitute(s[1..], host);
    } else {
      assert !Occurs(Placeholder(), s);
    }
  }

  lemma {:induction false} DecimalIsPlain(n: nat)
    ensures '_' !in Decimal(n)
  {
    if 10 <= n { DecimalIsPlain(n / 10); }
  }

  /** A gateway URL is written with the placeholder, and the substitution puts the gateway in. */
  lemma SubstituteGatewayUrl(scheme: Scheme, port: nat, gateway: string)
    ensures Substitute(GatewayUrl(scheme, Placeholder(), port), gateway) == GatewayUrl(scheme, gateway, port)
    ensures Occurs(Placeholder(), GatewayUrl(scheme, Placeholder(), port))
  {
    var front, back := scheme.Text() + "://", ":" + Decimal(port);
    DecimalIsPlain(port);
    assert '_' !in front && '_' !in back;
    hide Placeholder, Decimal;
    SubstituteAfter(front, back, gateway);
    SubstituteElsewhere(back, gateway);
    var s := GatewayUrl(scheme, Placeholder(), port);
    assert s == front + Placeholder() + back;
    assert s[|front|..|front| + |Placeholder()|] == Placeholder();
    assert OccursAt(Placeholder(), s, |front|);
  }

  /* ----- What a hosts file says ----- */

  /** The text that the file's own strings are: the server and the direct URLs. */
  predicate PlaceholderFree(route: Route) {
    && !Occurs(Placeholder(), route.server)
    && forall i :: 0 <= i < |route.hosts| && route.hosts[i].endpoint.Url? ==>
         !Occurs(Placeholder(), route.hosts[i].endpoint.url)
  }

  /** The hosts' URLs, with the gateway resolved, differ from each other. */
  predicate DistinctUrls(route: Route, gateway: string) {
    forall i, j :: 0 <= i < j < |route.hosts| ==> UrlOf(route.hosts[i], gateway) != UrlOf(route.hosts[j], gateway)
  }

  predicate DistinctTexts(hosts: seq<Host>) {
    forall i, j :: 0 <= i < j < |hosts| ==> EntryOf(hosts[i]).url != EntryOf(hosts[j]).url
  }

  lemma {:induction false} TableListsAll(hosts: seq<Host>)
    ensures |Table(hosts)| <= |hosts|
    ensures forall i :: 0 <= i < |hosts| ==> HasUrl(Table(hosts), EntryOf(hosts[i]).url)
  {
    hide EntryOf, Put, HasUrl;
    if hosts != [] {
      var n := |hosts| - 1;
      TableListsAll(hosts[..n]);
      PutKeeps(Table(hosts[..n]), EntryOf(hosts[n]));
      forall i | 0 <= i < |hosts| ensures HasUrl(Table(hosts), EntryOf(hosts[i]).url) {
        assert i < n ==> hosts[..n][i] == hosts[i];
      }
    }
  }

  lemma {:induction false} TableOfDistinct(hosts: seq<Host>)
    requires DistinctTexts(hosts)
    ensures |Table(hosts)| == |hosts| && forall i :: 0 <= i < |hosts| ==> Table(hosts)[i] == EntryOf(hosts[i])
  {
    hide EntryOf;
    if hosts != [] {
      var n := |hosts| - 1;
      TableOfDistinct(hosts[..n]);
      NotYetListed(hosts, n);
      PutKeeps(Table(hosts[..n]), EntryOf(hosts[n]));
    }
  }

  lemma FullTableGrew(hosts: seq<Host>, n: nat)
    requires |Table(hosts)| == |hosts| == n + 1
    ensures |Table(hosts[..n])| == n && !HasUrl(Table(hosts[..n]), EntryOf(hosts[n]).url)
  {
    TableListsAll(hosts[..n]);
    PutKeeps(Table(hosts[..n]), EntryOf(hosts[n]));
    hide EntryOf, Put, HasUrl;
  }

  lemma {:induction false} FullTableIsDistinct(hosts: seq<Host>)
    requires |Table(hosts)| == |hosts|
    ensures DistinctTexts(hosts)
  {
    hide EntryOf, Put, HasUrl, Table;
    if hosts != [] {
      var n := |hosts| - 1;
      FullTableGrew(hosts, n);
      TableListsAll(hosts[..n]);
      FullTableIsDistinct(hosts[..n]);
      forall i, j | 0 <= i < j < |hosts| ensures EntryOf(hosts[i]).url != EntryOf(hosts[j]).url {
        assert hosts[..n][i] == hosts[i];
        assert j < n ==> hosts[..n][j] == hosts[j];
      }
    }
  }

  lemma PutKeeps(entries: seq<Entry>, e: Entry)
    ensures HasUrl(Put(entries, e), e.url)
    ensures forall u :: HasUrl(entries, u) ==> HasUrl(Put(entries, e), u)
    ensures if HasUrl(entries, e.url) then |Put(entries, e)| == |entries| else Put(entries, e) == entries + [e]
  {
    var after := Put(entries, e);
    if i :| 0 <= i < |entries| && entries[i].url == e.url {
      assert after[i].url == e.url;
    } else {
      assert after[|entries|] == e;
    }
    forall u | HasUrl(entries, u) ensures HasUrl(after, u) {
      var i :| 0 <= i < |entries| && entries[i].url == u;
      assert after[i].url == u;
    }
  }

  lemma PutInPlace(entries: seq<Entry>, e: Entry)
    ensures |entries| <= |Put(entries, e)|
    ensures forall i :: 0 <= i < |entries| ==>
              Put(entries, e)[i] == if entries[i].url == e.url then e else entries[i]
    ensures forall x :: x in Put(entries, e) ==> x == e || (x in entries && x.url != e.url)
  {
  }

  predicate DistinctEntries(entries: seq<Entry>) {
    forall i, j :: 0 <= i < j < |entries| ==> entries[i].url != entries[j].url
  }

  /** Some host brings the entry, and no later one has its URL. */
  predicate IsLastOfUrl(hosts: seq<Host>, e: Entry) {
    exists i :: 0 <= i < |hosts| && EntryOf(hosts[i]) == e
                && forall j :: i < j < |hosts| ==> EntryOf(hosts[j]).url != e.url
  }

  /** Whatever the hosts, a URL is listed once, where the first host with it puts it, since every
      beginning of the list fills a beginning of the table; its capabilities are the last host's. */
  lemma {:induction false} TableIsOrdered(hosts: seq<Host>, n: nat)
    requires n <= |hosts|
    ensures DistinctEntries(Table(hosts))
    ensures forall e :: e in Table(hosts) ==> IsLastOfUrl(hosts, e)
    ensures |Table(hosts[..n])| <= |Table(hosts)|
    ensures forall i :: 0 <= i < |Table(hosts[..n])| ==> Table(hosts)[i].url == Table(hosts[..n])[i].url
    decreases |hosts|
  {
    hide EntryOf, Put, HasUrl, IsLastOfUrl, DistinctEntries;
    if hosts == [] {
      assert hosts[..n] == hosts;
      NothingListed(hosts);
    } else {
      var k := |hosts| - 1;
      var before, e := Table(hosts[..k]), EntryOf(hosts[k]);
      TableIsOrdered(hosts[..k], if n < k then n else k);
      PutInPlace(before, e);
      PutKeeps(before, e);
      PutStaysDistinct(before, e);
      if n == |hosts| { assert hosts[..n] == hosts; } else { assert hosts[..k][..n] == hosts[..n]; }
      forall x | x in Table(hosts) ensures IsLastOfUrl(hosts, x) {
        if x == e { LastIsLast(hosts, k); } else { LastOfMore(hosts, k, x); }
      }
    }
  }

  lemma NothingListed(hosts: seq<Host>)
    requires hosts == []
    ensures DistinctEntries(Table(hosts)) && Table(hosts) == []
  {
  }

  lemma LastIsLast(hosts: seq<Host>, k: nat)
    requires k + 1 == |hosts|
    ensures IsLastOfUrl(hosts, EntryOf(hosts[k]))
  {
    hide EntryOf;
  }

  lemma PutStaysDistinct(entries: seq<Entry>, e: Entry)
    requires DistinctEntries(entries)
    ensures DistinctEntries(Put(entries, e))
  {
  }

  lemma LastOfMore(hosts: seq<Host>, k: nat, x: Entry)
    requires k + 1 == |hosts| && IsLastOfUrl(hosts[..k], x) && x.url != EntryOf(hosts[k]).url
    ensures IsLastOfUrl(hosts, x)
  {
    hide EntryOf;
    var i :| 0 <= i < k && EntryOf(hosts[..k][i]) == x
             && forall j :: i < j < k ==> EntryOf(hosts[..k][j]).url != x.url;
    assert EntryOf(hosts[i]) == x;
    forall j | i < j < |hosts| ensures EntryOf(hosts[j]).url != x.url { assert j < k ==> hosts[..k][j] == hosts[j]; }
  }

  lemma NotYetListed(hosts: seq<Host>, n: nat)
    requires n < |hosts| && DistinctTexts(hosts)
    requires |Table(hosts[..n])| == n && forall i :: 0 <= i < n ==> Table(hosts[..n])[i] == EntryOf(hosts[..n][i])
    ensures !HasUrl(Table(hosts[..n]), EntryOf(hosts[n]).url)
  {
  }

  lemma SubstituteEntries(route: Route, gateway: string)
    requires gateway != Placeholder() && PlaceholderFree(route)
    ensures forall i :: 0 <= i < |route.hosts| ==>
                Substitute(EntryOf(route.hosts[i]).url, gateway) == UrlOf(route.hosts[i], gateway)
  {
    hide Placeholder, Substitute, GatewayUrl;
    forall i | 0 <= i < |route.hosts|
      ensures Substitute(EntryOf(route.hosts[i]).url, gateway) == UrlOf(route.hosts[i], gateway)
    {
      match route.hosts[i].endpoint
      case Url(url) => SubstituteFixes(url, gateway);
      case GatewayPort(port) => SubstituteGatewayUrl(route.hosts[i].scheme, port, gateway);
    }
  }

  lemma DirectEntries(route: Route, gateway: string)
    requires !UsesGateway(route)
    ensures forall i :: 0 <= i < |route.hosts| ==> EntryOf(route.hosts[i]).url == UrlOf(route.hosts[i], gateway)
  {
    hide GatewayUrl;
  }

  /** Enough for a file that says just what its route says. */
  lemma CleanRouteIsDenoted(route: Route, gateway: string)
    requires gateway != Placeholder() && DistinctUrls(route, gateway) && (UsesGateway(route) ==> PlaceholderFree(route))
    ensures Denotes(Written(route, gateway), route, gateway)
  {
    if UsesGateway(route) { SubstituteEntries(route, gateway); } else { DirectEntries(route, gateway); }
    assert DistinctTexts(route.hosts) by {
      forall i, j | 0 <= i < j < |route.hosts| ensures EntryOf(route.hosts[i]).url != EntryOf(route.hosts[j]).url { }
    }
    TableOfDistinct(route.hosts);
    if UsesGateway(route) { SubstituteFixes(route.server, gateway); }
    DenotesUrls(Written(route, gateway), route, gateway);
    hide Placeholder, Substitute, Table, UrlOf, IsUrlOf, PlaceholderFree;
  }

  /** And necessary. */
  lemma DenotedRouteIsClean(route: Route, gateway: string)
    requires gateway != Placeholder() && Denotes(Written(route, gateway), route, gateway)
    ensures DistinctUrls(route, gateway) && (UsesGateway(route) ==> PlaceholderFree(route))
  {
    hide GatewayUrl, Placeholder, Substitute, IsUrlOf;
    DenotesUrls(Written(route, gateway), route, gateway);
    assert |Table(route.hosts)| == |route.hosts|;
    FullTableIsDistinct(route.hosts);
    TableOfDistinct(route.hosts);
    var file := Written(route, gateway);
    assert forall i :: 0 <= i < |route.hosts| ==> file.hosts[i].url == UrlOf(route.hosts[i], gateway);
    if UsesGateway(route) {
      SubstituteFixes(route.server, gateway);
      forall i | 0 <= i < |route.hosts| && route.hosts[i].endpoint.Url?
        ensures !Occurs(Placeholder(), route.hosts[i].endpoint.url)
      {
        SubstituteFixes(route.hosts[i].endpoint.url, gateway);
        assert file.hosts[i].url == Substitute(EntryOf(route.hosts[i]).url, gateway);
      }
    }
  }

  /** A written file denotes its route exactly when the URLs, with the gateway resolved, are pairwise
      distinct and, if the file is substituted at all, no text of its own holds the placeholder. */
  lemma WrittenFileDenotesRoute(route: Route, gateway: string)
    requires gateway != Placeholder()
    ensures Denotes(Written(route, gateway), route, gateway) <==>
              DistinctUrls(route, gateway) && (UsesGateway(route) ==> PlaceholderFree(route))
  {
    hide Denotes, Written, DistinctUrls, PlaceholderFree, UsesGateway, Placeholder;
    if DistinctUrls(route, gateway) && (UsesGateway(route) ==> PlaceholderFree(route)) {
      CleanRouteIsDenoted(route, gateway);
    }
    if Denotes(Written(route, gateway), route, gateway) { DenotedRouteIsClean(route, gateway); }
  }

  /** Two hosts with one URL and different schemes pass the validator, yet only the last of them
      reaches the file. */
  lemma SameUrlTwoSchemes(server: string, url: string, first: seq<Capability>, second: seq<Capability>, gateway: string)
    ensures var route := Route(server, [Host(Url(url), Http, first), Host(Url(url), Https, second)]);
            ValidHosts(route) && Written(route, gateway) == HostsFile(server, [Entry(url, second)])
  {
    var a, b := Host(Url(url), Http, first), Host(Url(url), Https, second);
    var route := Route(server, [a, b]);
    assert [a, b][..1] == [a] && [a][..0] == [];
    assert Table([a]) == [Entry(url, first)];
    assert HasUrl([Entry(url, first)], url) by { assert [Entry(url, first)][0].url == url; }
    assert Table([a, b]) == [Entry(url, second)];
  }

  /* ----- Commands ----- */

  /** The bootstrap commands, by what they do on the node. */
  datatype Command =
    | ProbeGateway
    | MakeDirectory(namespace: string)
    | WriteHosts(namespace: string, content: HostsFile, substituted: bool)
    | RestartContainerd

  /** Routes in dictionary order, one a namespace. */
  type Routes = seq<(string, Route)>

  predicate IsDictionary(routes: Routes) { forall i, j :: 0 <= i < j < |routes| ==> routes[i].0 != routes[j].0 }

  predicate NeedsGateway(routes: Routes) { exists i :: 0 <= i < |routes| && UsesGateway(routes[i].1) }

  function CommandsOfRoute(r: (string, Route)): seq<Command> {
    [MakeDirectory(r.0), WriteHosts(r.0, Content(r.1), UsesGateway(r.1))]
  }

  function CommandsOfAll(routes: Routes): seq<Command> {
    if routes == [] then [] else CommandsOfAll(routes[..|routes| - 1]) + CommandsOfRoute(routes[|routes| - 1])
  }

  function CommandsOf(routes: Routes): seq<Command> {
    if routes == [] then []
    else (if NeedsGateway(routes) then [ProbeGateway] else []) + CommandsOfAll(routes) + [RestartContainerd]
  }

  method CompileTable(hosts: seq<Host>) returns (table: seq<Entry>)
    ensures table == Table(hosts)
  {
    table := [];
    for i := 0 to |hosts|
      invariant table == Table(hosts[..i])
    {
      assert hosts[..i + 1][..i] == hosts[..i];
      table := Put(table, EntryOf(hosts[i]));
    }
    assert hosts[..|hosts|] == hosts;
  }

  lemma CompiledSoFar(routes: Routes, i: nat)
    requires i <= |routes|
    ensures CommandsOfAll(routes[..i]) ==
                if i == 0 then [] else CommandsOfAll(routes[..i - 1]) + CommandsOfRoute(routes[i - 1])
  {
    hide CommandsOfRoute;
    if i != 0 { assert routes[..i][..i - 1] == routes[..i - 1]; }
  }

  lemma CommandsOfOne(r: (string, Route), table: seq<Entry>)
    requires table == Table(r.1.hosts)
    ensures CommandsOfRoute(r) == [MakeDirectory(r.0), WriteHosts(r.0, HostsFile(r.1.server, table), UsesGateway(r.1))]
  {
    hide Table, UsesGateway;
  }

  method Compile(routes: Routes) returns (commands: seq<Command>)
    ensures commands == CommandsOf(routes)
  {
    hide Table, UsesGateway, NeedsGateway, CommandsOfAll, CommandsOfRoute;
    if routes == [] { return []; }
    commands := [];
    if NeedsGateway(routes) { commands := commands + [ProbeGateway]; }
    ghost var opening := commands;
    CompiledSoFar(routes, 0);
    for i := 0 to |routes|
      invariant commands == opening + CommandsOfAll(routes[..i])
    {
      var namespace, route := routes[i].0, routes[i].1;
      var table := CompileTable(route.hosts);
      ghost var before := commands;
      commands := commands + [MakeDirectory(namespace)];
      commands := commands + [WriteHosts(namespace, HostsFile(route.server, table), UsesGateway(route))];
      CompiledSoFar(routes, i + 1);
      CommandsOfOne(routes[i], table);
      assert commands == before + CommandsOfRoute(routes[i]);
    }
    assert routes[..|routes|] == routes;
    commands := commands + [RestartContainerd];
  }

  /* ----- Running the commands ----- */

  /** A namespace's directory and file, the directories above them by their depth, and all else. */
  datatype Path =
    | Above(depth: nat)
    | CertsDirectory(namespace: string)
    | HostsToml(namespace: string)
    | Elsewhere(name: string)

  /** `/etc`, `/etc/containerd` and the certs directory itself. */
  const ABOVE: set<Path> := {Above(1), Above(2), Above(3)}

  /** The directories that `mkdir -p` makes for a namespace. */
  function MadeFor(namespace: string): set<Path> { ABOVE + {CertsDirectory(namespace)} }

  datatype Text = Hosts(file: HostsFile) | Other(text: string)

  datatype Node = Node(files: map<Path, Text>, directories: set<Path>, gateway: Option<string>, restarts: nat)

  /** Where the gateway is found: by its Docker Desktop name, or as the default route. */
  datatype Network = Network(resolvesDesktopHost: bool, defaultRoute: string) {
    function Gateway(): string { if resolvesDesktopHost then "host.docker.internal" else defaultRoute }
  }

  /** One command; a failing one stops the bootstrap. */
  function Step(n: Node, c: Command, net: Network): Option<Node> {
    match c
    case ProbeGateway => if net.Gateway() == "" then None else Some(n.(gateway := Some(net.Gateway())))
    case MakeDirectory(namespace) =>
      if exists p :: p in MadeFor(namespace) && p in n.files then None
      else Some(n.(directories := n.directories + MadeFor(namespace)))
    case WriteHosts(namespace, content, substituted) =>
      if CertsDirectory(namespace) !in n.directories || HostsToml(namespace) in n.directories then None
      else
        var host := if n.gateway.Some? then n.gateway.value else "";
        var written := if substituted then SubstituteFile(content, host) else content;
        Some(n.(files := n.files[HostsToml(namespace) := Hosts(written)]))
    case RestartContainerd => Some(n.(restarts := n.restarts + 1))
  }

  function Execute(n: Node, commands: seq<Command>, net: Network): Option<Node> {
    if commands == [] then Some(n)
    else
      var before := Execute(n, commands[..|commands| - 1], net);
      if before.None? then None else Step(before.value, commands[|commands| - 1], net)
  }

  lemma {:induction false} ExecuteConcat(n: Node, a: seq<Command>, b: seq<Command>, net: Network)
    ensures Execute(n, a + b, net) ==
                if Execute(n, a, net).None? then None else Execute(Execute(n, a, net).value, b, net)
  {
    hide Step;
    if b == [] {
      assert a + b == a;
    } else {
      assert (a + b)[..|a| + |b| - 1] == a + b[..|b| - 1];
      ExecuteConcat(n, a, b[..|b| - 1], net);
    }
  }

  /** Nothing on the node stands where the directories and the file of a namespace have to go. */
  predicate Clear(n: Node, namespace: string) {
    && Above(1) !in n.files && Above(2) !in n.files && Above(3) !in n.files && CertsDirectory(namespace) !in n.files
    && HostsToml(namespace) !in n.directories
  }

  predicate Unobstructed(n: Node, routes: Routes) { forall i :: 0 <= i < |routes| ==> Clear(n, routes[i].0) }

  /** The file of a route, as the commands write it under a gateway variable. */
  function FileUnder(route: Route, gateway: Option<string>): HostsFile {
    Written(route, if gateway.Some? then gateway.value else "")
  }

  predicate IsRouteFile(routes: Routes, p: Path) { exists i :: 0 <= i < |routes| && p == HostsToml(routes[i].0) }

  /** The directory of a namespace, or one of the three above it. */
  predicate LeadsTo(p: Path, namespace: string) {
    p == CertsDirectory(namespace) || p == Above(1) || p == Above(2) || p == Above(3)
  }

  lemma MadeForLeads(p: Path, namespace: string)
    ensures p in MadeFor(namespace) <==> LeadsTo(p, namespace)
  {
  }

  predicate IsRouteDirectory(routes: Routes, p: Path) {
    exists i :: 0 <= i < |routes| && LeadsTo(p, routes[i].0)
  }

  predicate SameFileAt(a: Node, b: Node, p: Path) {
    (p in a.files <==> p in b.files) && (p in a.files ==> a.files[p] == b.files[p])
  }

  predicate HoldsFile(n: Node, namespace: string, f: HostsFile) {
    HostsToml(namespace) in n.files && n.files[HostsToml(namespace)] == Hosts(f)
  }

  /** The node after the routes' own commands. */
  ghost predicate RoutesWritten(n: Node, n': Node, routes: Routes) {
    && n'.gateway == n.gateway && n'.restarts == n.restarts
    && (forall p :: p in n'.directories <==> p in n.directories || IsRouteDirectory(routes, p))
    && (forall i :: 0 <= i < |routes| ==> HoldsFile(n', routes[i].0, FileUnder(routes[i].1, n.gateway)))
    && forall p :: !IsRouteFile(routes, p) ==> SameFileAt(n, n', p)
  }

  /** One route's directory made and its file written. */
  function WithRoute(n: Node, r: (string, Route)): Node {
    n.(directories := n.directories + MadeFor(r.0),
       files := n.files[HostsToml(r.0) := Hosts(FileUnder(r.1, n.gateway))])
  }

  lemma ExecuteOne(n: Node, c: Command, net: Network)
    ensures Execute(n, [c], net) == Step(n, c, net)
  {
    hide Step;
    assert [c][..0] == [];
  }

  lemma TwoCommands(n: Node, r: (string, Route), net: Network)
    ensures Execute(n, CommandsOfRoute(r), net) == if Clear(n, r.0) then Some(WithRoute(n, r)) else None
  {
    hide Execute, UsesGateway, SubstituteFile, Content, Network.Gateway;
    var make, write := MakeDirectory(r.0), WriteHosts(r.0, Content(r.1), UsesGateway(r.1));
    ExecuteConcat(n, [make], [write], net);
    ExecuteOne(n, make, net);
    if Step(n, make, net).Some? { ExecuteOne(Step(n, make, net).value, write, net); }
    assert CommandsOfRoute(r) == [make] + [write];
  }

  lemma NothingWritten(n: Node, routes: Routes, net: Network)
    requires routes == []
    ensures Execute(n, CommandsOfAll(routes), net) == Some(n) && RoutesWritten(n, n, routes) && Unobstructed(n, routes)
  {
  }

  lemma LessToCompile(routes: Routes, k: nat)
    requires k + 1 == |routes| && IsDictionary(routes)
    ensures IsDictionary(routes[..k])
    ensures CommandsOfAll(routes) == CommandsOfAll(routes[..k]) + CommandsOfRoute(routes[k])
  {
    hide CommandsOfRoute;
  }

  lemma LessToWrite(n: Node, routes: Routes, k: nat)
    requires k + 1 == |routes|
    ensures Unobstructed(n, routes) <==> Unobstructed(n, routes[..k]) && Clear(n, routes[k].0)
  {
    hide Clear;
    forall i | 0 <= i < k ensures routes[..k][i] == routes[i] { }
    if Unobstructed(n, routes[..k]) && Clear(n, routes[k].0) {
      forall i | 0 <= i < |routes| ensures Clear(n, routes[i].0) { if i < k { assert Clear(n, routes[..k][i].0); } }
    }
    if Unobstructed(n, routes) {
      forall i | 0 <= i < k ensures Clear(n, routes[..k][i].0) { assert Clear(n, routes[i].0); }
    }
  }

  /** The routes' own commands succeed exactly on a node without obstructions, and write every file. */
  lemma {:induction false} RoutesRun(n: Node, routes: Routes, net: Network)
    requires IsDictionary(routes)
    ensures var r := Execute(n, CommandsOfAll(routes), net);
            (r.Some? <==> Unobstructed(n, routes)) && (r.Some? ==> RoutesWritten(n, r.value, routes))
  {
    hide *;
    if routes == [] {
      NothingWritten(n, routes, net);
    } else {
      var k := |routes| - 1;
      var rest := routes[..k];
      LessToCompile(routes, k);
      LessToWrite(n, routes, k);
      RoutesRun(n, rest, net);
      ExecuteConcat(n, CommandsOfAll(rest), CommandsOfRoute(routes[k]), net);
      if Unobstructed(n, rest) {
        var mid := Execute(n, CommandsOfAll(rest), net).value;
        ClearLater(n, mid, routes, k);
        TwoCommands(mid, routes[k], net);
        if Clear(mid, routes[k].0) { OneMoreWritten(n, mid, routes, k); }
      }
    }
  }

  lemma ClearLater(n: Node, mid: Node, routes: Routes, k: nat)
    requires k + 1 == |routes| && IsDictionary(routes) && RoutesWritten(n, mid, routes[..k])
    ensures Clear(mid, routes[k].0) <==> Clear(n, routes[k].0)
  {
    hide FileUnder;
    forall p | p in MadeFor(routes[k].0) ensures p in mid.files <==> p in n.files {
      assert !IsRouteFile(routes[..k], p) && SameFileAt(n, mid, p);
    }
    assert !IsRouteDirectory(routes[..k], HostsToml(routes[k].0));
  }

  lemma OneMoreWritten(n: Node, mid: Node, routes: Routes, k: nat)
    requires k + 1 == |routes| && IsDictionary(routes) && RoutesWritten(n, mid, routes[..k])
    ensures RoutesWritten(n, WithRoute(mid, routes[k]), routes)
  {
    hide FileUnder;
    var n' := WithRoute(mid, routes[k]);
    forall p ensures IsRouteDirectory(routes, p) <==> IsRouteDirectory(routes[..k], p) || p in MadeFor(routes[k].0)
             ensures IsRouteFile(routes, p) <==> IsRouteFile(routes[..k], p) || p == HostsToml(routes[k].0)
    {
      OneMorePath(routes, k, p);
    }
    hide IsRouteDirectory, IsRouteFile;
    forall i | 0 <= i < |routes| ensures HoldsFile(n', routes[i].0, FileUnder(routes[i].1, n.gateway)) {
      if i < k {
        assert routes[..k][i] == routes[i];
        assert HoldsFile(mid, routes[i].0, FileUnder(routes[i].1, n.gateway));
      }
    }
    forall p | !IsRouteFile(routes, p) ensures SameFileAt(n, n', p) { assert SameFileAt(n, mid, p); }
  }

  lemma OneMorePath(routes: Routes, k: nat, p: Path)
    requires k + 1 == |routes|
    ensures IsRouteDirectory(routes, p) <==> IsRouteDirectory(routes[..k], p) || p in MadeFor(routes[k].0)
    ensures IsRouteFile(routes, p) <==> IsRouteFile(routes[..k], p) || p == HostsToml(routes[k].0)
  {
    MadeForLeads(p, routes[k].0);
    hide MadeFor, LeadsTo;
    var rest := routes[..k];
    if i :| 0 <= i < |routes| && LeadsTo(p, routes[i].0) && i != k { assert rest[i] == routes[i]; }
    if i :| 0 <= i < |rest| && LeadsTo(p, rest[i].0) { assert rest[i] == routes[i]; }
    if i :| 0 <= i < |routes| && p == HostsToml(routes[i].0) && i != k { assert rest[i] == routes[i]; }
    if i :| 0 <= i < |rest| && p == HostsToml(rest[i].0) { assert rest[i] == routes[i]; }
  }

  /** What the whole command list leaves behind. */
  ghost predicate Bootstrapped(n: Node, n': Node, routes: Routes, gateway: string) {
    && n'.restarts == n.restarts + 1
    && (forall p :: p in n'.directories <==> p in n.directories || IsRouteDirectory(routes, p))
    && (forall i :: 0 <= i < |routes| ==> HoldsFile(n', routes[i].0, Written(routes[i].1, gateway)))
    && forall p :: !IsRouteFile(routes, p) ==> SameFileAt(n, n', p)
  }

  predicate HasGatewayHost(routes: Routes) {
    exists i, j :: 0 <= i < |routes| && 0 <= j < |routes[i].1.hosts| && routes[i].1.hosts[j].endpoint.GatewayPort?
  }

  lemma GatewayIsMissing(routes: Routes, net: Network)
    ensures NeedsGateway(routes) && net.Gateway() == "" <==>
            HasGatewayHost(routes) && !net.resolvesDesktopHost && net.defaultRoute == ""
  {
    assert "host.docker.internal" != "";
    if i :| 0 <= i < |routes| && UsesGateway(routes[i].1) {
      var j :| 0 <= j < |routes[i].1.hosts| && routes[i].1.hosts[j].endpoint.GatewayPort?;
    }
    if i, j :| 0 <= i < |routes| && 0 <= j < |routes[i].1.hosts| && routes[i].1.hosts[j].endpoint.GatewayPort? {
      assert UsesGateway(routes[i].1);
    }
  }

  /** Running the compiled commands on any node: they fail exactly when a host needs the gateway and
      none is found, or something stands in the way of a directory or a file; else every namespace has
      the hosts file of its route, nothing else is changed, and containerd is restarted once. */
  lemma CompiledRoutesRun(n: Node, routes: Routes, net: Network)
    requires routes != [] && IsDictionary(routes)
    ensures var r := Execute(n, CommandsOf(routes), net);
            && (r.None? <==> (HasGatewayHost(routes) && !net.resolvesDesktopHost && net.defaultRoute == "")
                             || !Unobstructed(n, routes))
            && (r.Some? ==> Bootstrapped(n, r.value, routes, net.Gateway()))
  {
    GatewayIsMissing(routes, net);
    hide Execute, CommandsOfAll, NeedsGateway, Network.Gateway, Bootstrapped, RoutesWritten, HasGatewayHost;
    var opening := if NeedsGateway(routes) then [ProbeGateway] else [];
    assert CommandsOf(routes) == opening + CommandsOfAll(routes) + [RestartContainerd];
    ExecuteConcat(n, opening + CommandsOfAll(routes), [RestartContainerd], net);
    ExecuteConcat(n, opening, CommandsOfAll(routes), net);
    Opening(n, routes, net);
    if !(NeedsGateway(routes) && net.Gateway() == "") {
      var ready := if NeedsGateway(routes) then n.(gateway := Some(net.Gateway())) else n;
      assert Unobstructed(ready, routes) <==> Unobstructed(n, routes);
      RoutesRun(ready, routes, net);
      if Unobstructed(n, routes) {
        var written := Execute(ready, CommandsOfAll(routes), net).value;
        ExecuteOne(written, RestartContainerd, net);
        WrittenThenRestarted(n, ready, written, routes, net);
      }
    }
  }

  /** After a bootstrap that did not fail, a namespace's file on the node denotes its route exactly when
      the route's URLs, with the gateway resolved, are distinct and its own texts, if substituted, are
      free of the placeholder. */
  lemma NodeDenotesRoutes(n: Node, routes: Routes, net: Network, i: nat)
    requires IsDictionary(routes) && i < |routes| && net.Gateway() != Placeholder()
    requires Execute(n, CommandsOf(routes), net).Some?
    ensures var n', route := Execute(n, CommandsOf(routes), net).value, routes[i].1;
            var gateway := if net.resolvesDesktopHost then "host.docker.internal" else net.defaultRoute;
            && HostsToml(routes[i].0) in n'.files && n'.files[HostsToml(routes[i].0)].Hosts?
            && (Denotes(n'.files[HostsToml(routes[i].0)].file, route, gateway) <==>
                  && DistinctUrls(route, gateway)
                  && ((exists h :: h in route.hosts && h.endpoint.GatewayPort?) ==> PlaceholderFree(route)))
  {
    GatewayIs(net);
    HostOfGateway(routes[i].1);
    hide Execute, CommandsOf, NeedsGateway, Network.Gateway, Denotes, Written, DistinctUrls, PlaceholderFree,
         UsesGateway, Placeholder, Unobstructed;
    CompiledRoutesRun(n, routes, net);
    WrittenFileDenotesRoute(routes[i].1, net.Gateway());
    assert HoldsFile(Execute(n, CommandsOf(routes), net).value, routes[i].0, Written(routes[i].1, net.Gateway()));
  }

  lemma GatewayIs(net: Network)
    ensures net.Gateway() == if net.resolvesDesktopHost then "host.docker.internal" else net.defaultRoute
  {
  }

  lemma HostOfGateway(route: Route)
    ensures UsesGateway(route) <==> exists h :: h in route.hosts && h.endpoint.GatewayPort?
  {
    if i :| 0 <= i < |route.hosts| && route.hosts[i].endpoint.GatewayPort? { assert route.hosts[i] in route.hosts; }
  }

  lemma Opening(n: Node, routes: Routes, net: Network)
    ensures Execute(n, if NeedsGateway(routes) then [ProbeGateway] else [], net)
            == if NeedsGateway(routes) && net.Gateway() == "" then None
               else Some(if NeedsGateway(routes) then n.(gateway := Some(net.Gateway())) else n)
  {
    ExecuteOne(n, ProbeGateway, net);
    hide NeedsGateway, Network.Gateway;
    if NeedsGateway(routes) { hide Execute; }
  }

  lemma WrittenThenRestarted(n: Node, ready: Node, written: Node, routes: Routes, net: Network)
    requires ready == if NeedsGateway(routes) then n.(gateway := Some(net.Gateway())) else n
    requires RoutesWritten(ready, written, routes)
    ensures Bootstrapped(n, written.(restarts := written.restarts + 1), routes, net.Gateway())
  {
    hide FileUnder, Written, IsRouteFile, IsRouteDirectory, Network.Gateway, NeedsGateway;
    var last := written.(restarts := written.restarts + 1);
    forall i | 0 <= i < |routes| ensures HoldsFile(last, routes[i].0, Written(routes[i].1, net.Gateway())) {
      GatewayMatters(routes, i, ready.gateway, net);
    }
    forall p | !IsRouteFile(routes, p) ensures SameFileAt(n, last, p) { assert SameFileAt(ready, written, p); }
  }

  lemma GatewayMatters(routes: Routes, i: nat, gateway: Option<string>, net: Network)
    requires i < |routes| && (NeedsGateway(routes) ==> gateway == Some(net.Gateway()))
    ensures FileUnder(routes[i].1, gateway) == Written(routes[i].1, net.Gateway())
  {
    hide SubstituteFile, Content, UsesGateway;
    assert UsesGateway(routes[i].1) ==> NeedsGateway(routes);
  }

  /** The shape of the commands: the probe is there exactly when some host needs it, and comes first
      and once; the restart comes last and once. */
  lemma CommandsAreOrdered(routes: Routes)
    requires routes != []
    ensures var c := CommandsOf(routes);
            && c[|c| - 1] == RestartContainerd
            && (NeedsGateway(routes) <==> c[0] == ProbeGateway)
            && forall i :: 0 <= i < |c| ==>
                 (c[i] == ProbeGateway ==> i == 0) && (c[i] == RestartContainerd ==> i == |c| - 1)
                 && (c[i].WriteHosts? && c[i].substituted ==> NeedsGateway(routes))
  {
    hide NeedsGateway, CommandsOfAll;
    OnlyFileCommands(routes);
    SomeFileCommands(routes);
    var opening := if NeedsGateway(routes) then [ProbeGateway] else [];
    Framed(opening, CommandsOfAll(routes), NeedsGateway(routes));
  }

  lemma SomeFileCommands(routes: Routes)
    requires routes != []
    ensures CommandsOfAll(routes) != []
  {
  }

  /** File commands between an optional probe and a restart. */
  lemma Framed(opening: seq<Command>, middle: seq<Command>, needed: bool)
    requires opening == if needed then [ProbeGateway] else []
    requires middle != []
    requires forall c :: c in middle ==>
               (c.MakeDirectory? || c.WriteHosts?) && (c.WriteHosts? && c.substituted ==> needed)
    ensures var c := opening + middle + [RestartContainerd];
            && c[|c| - 1] == RestartContainerd
            && (needed <==> c[0] == ProbeGateway)
            && forall i :: 0 <= i < |c| ==>
                 (c[i] == ProbeGateway ==> i == 0) && (c[i] == RestartContainerd ==> i == |c| - 1)
                 && (c[i].WriteHosts? && c[i].substituted ==> needed)
  {
    var c := opening + middle + [RestartContainerd];
    assert c[|opening|] == middle[0];
    forall i | |opening| <= i < |c| - 1 ensures c[i] in middle { assert c[i] == middle[i - |opening|]; }
  }

  lemma {:induction false} OnlyFileCommands(routes: Routes)
    ensures forall c :: c in CommandsOfAll(routes) ==>
              && (c.MakeDirectory? || c.WriteHosts?)
              && (c.WriteHosts? && c.substituted ==> NeedsGateway(routes))
  {
    hide UsesGateway;
    if routes != [] {
      var k := |routes| - 1;
      OnlyFileCommands(routes[..k]);
      assert NeedsGateway(routes[..k]) ==> NeedsGateway(routes) by {
        if i :| 0 <= i < k && UsesGateway(routes[..k][i].1) { assert UsesGateway(routes[i].1); }
      }
    }
  }

  /* ----- The routes of a local cluster ----- */

  predicate HasNamespace(routes: Routes, namespace: string) {
    exists i :: 0 <= i < |routes| && routes[i].0 == namespace
  }

  predicate Maps(routes: Routes, namespace: string, route: Route) {
    exists i :: 0 <= i < |routes| && routes[i] == (namespace, route)
  }

  function SetRoute(routes: Routes, namespace: string, route: Route): Routes {
    if HasNamespace(routes, namespace)
    then
      seq(|routes|, i requires 0 <= i < |routes| =>
        if routes[i].0 == namespace then (namespace, route) else routes[i])
    else routes + [(namespace, route)]
  }

  /** The routes that are built in: Docker Hub through the cache or the public mirror, and the
      registry of custom builds if there is one. */
  function BuiltIn(cachePort: Option<nat>, custom: Option<(string, nat)>, namespace: string): Option<Route> {
    if custom.Some? && namespace == custom.value.0 + ":5000" then
      Some(Route("http://" + namespace, [Host(GatewayPort(custom.value.1), Http, [Pull, Resolve])]))
    else if namespace == "docker.io" then
      Some(Route("https://registry-1.docker.io",
                 [if cachePort.Some? then Host(GatewayPort(cachePort.value), Http, [Pull, Resolve])
                  else Host(Url("https://mirror.gcr.io"), Http, [Pull, Resolve])]))
    else None
  }

  lemma SetRouteMaps(routes: Routes, namespace: string, route: Route, n: string, r: Route)
    requires IsDictionary(routes)
    ensures IsDictionary(SetRoute(routes, namespace, route))
    ensures Maps(SetRoute(routes, namespace, route), n, r) <==>
                if n == namespace then r == route else Maps(routes, n, r)
  {
    var after := SetRoute(routes, namespace, route);
    if HasNamespace(routes, namespace) {
      var k :| 0 <= k < |routes| && routes[k].0 == namespace;
      assert after[k] == (namespace, route);
    } else {
      assert after[|routes|] == (namespace, route);
    }
    if i :| 0 <= i < |routes| && routes[i] == (n, r) && n != namespace { assert after[i] == (n, r); }
    if i :| 0 <= i < |after| && after[i] == (n, r) { assert n != namespace ==> i < |routes| && routes[i] == (n, r); }
  }

  /** Docker Hub by way of the cache that runs on a port of the gateway, or else of the public mirror. */
  ghost function HubRoute(cachePort: Option<nat>): Route {
    var endpoint := match cachePort case Some(port) => GatewayPort(port) case None => Url("https://mirror.gcr.io");
    Route("https://registry-1.docker.io", [Host(endpoint, Http, [Pull, Resolve])])
  }

  /** The registry of custom builds, named and with its port, over plain HTTP. */
  ghost function CustomRoute(custom: (string, nat)): Route {
    Route("http://" + custom.0 + ":5000", [Host(GatewayPort(custom.1), Http, [Pull, Resolve])])
  }

  lemma BuiltInAre(cachePort: Option<nat>, custom: Option<(string, nat)>)
    ensures BuiltIn(cachePort, custom, "docker.io") == Some(HubRoute(cachePort))
    ensures custom.Some? ==> BuiltIn(cachePort, custom, custom.value.0 + ":5000") == Some(CustomRoute(custom.value))
    ensures forall n :: BuiltIn(cachePort, custom, n).Some? ==>
              n == "docker.io" || (custom.Some? && n == custom.value.0 + ":5000")
  {
    if custom.Some? {
      var endpoint := custom.value.0 + ":5000";
      assert endpoint[|endpoint| - 1] == '0' && "docker.io"[8] == 'o';
      assert "http://" + endpoint == "http://" + custom.value.0 + ":5000";
    }
  }

  method LocalRoutes(cachePort: Option<nat>, custom: Option<(string, nat)>, overrides: Routes) returns (routes: Routes)
    requires IsDictionary(overrides)
    ensures IsDictionary(routes)
    ensures forall n, r :: Maps(routes, n, r) <==>
              if HasNamespace(overrides, n) then Maps(overrides, n, r) else BuiltIn(cachePort, custom, n) == Some(r)
    ensures !HasNamespace(overrides, "docker.io") ==> Maps(routes, "docker.io", HubRoute(cachePort))
    ensures custom.Some? && !HasNamespace(overrides, custom.value.0 + ":5000") ==>
              Maps(routes, custom.value.0 + ":5000", CustomRoute(custom.value))
    ensures forall n, r :: Maps(routes, n, r) ==>
              HasNamespace(overrides, n) || n == "docker.io" || (custom.Some? && n == custom.value.0 + ":5000")
  {
    var hub := BuiltIn(cachePort, None, "docker.io").value;
    routes := [("docker.io", hub)];
    assert routes[0] == ("docker.io", hub);
    if custom.Some? {
      var endpoint := custom.value.0 + ":5000";
      var route := Route("http://" + endpoint, [Host(GatewayPort(custom.value.1), Http, [Pull, Resolve])]);
      forall n, r { SetRouteMaps(routes, endpoint, route, n, r); }
      routes := SetRoute(routes, endpoint, route);
      assert endpoint[|endpoint| - 1] == '0' && "docker.io"[8] == 'o';
    }
    ghost var builtIn := routes;
    assert forall n, r :: Maps(builtIn, n, r) <==> BuiltIn(cachePort, custom, n) == Some(r);
    hide BuiltIn, HubRoute, CustomRoute;
    for i := 0 to |overrides|
      invariant IsDictionary(routes)
      invariant forall n, r :: Maps(routes, n, r) <==>
                  if HasNamespace(overrides[..i], n) then Maps(overrides[..i], n, r) else Maps(builtIn, n, r)
    {
      ghost var before := routes;
      var (namespace, route) := overrides[i];
      forall n, r { SetRouteMaps(before, namespace, route, n, r); }
      routes := SetRoute(routes, namespace, route);
      OverrideNext(overrides, i);
    }
    assert overrides[..|overrides|] == overrides;
    BuiltInAre(cachePort, custom);
  }

  lemma OverrideNext(overrides: Routes, i: nat)
    requires i < |overrides| && IsDictionary(overrides)
    ensures forall n :: HasNamespace(overrides[..i + 1], n) <==> HasNamespace(overrides[..i], n) || n == overrides[i].0
    ensures !HasNamespace(overrides[..i], overrides[i].0)
    ensures forall n, r :: Maps(overrides[..i + 1], n, r) <==> Maps(overrides[..i], n, r) || (n, r) == overrides[i]
  {
    var a, b := overrides[..i], overrides[..i + 1];
    assert b == a + [overrides[i]];
    forall n ensures HasNamespace(b, n) <==> HasNamespace(a, n) || n == overrides[i].0 {
      if k :| 0 <= k < |a| && a[k].0 == n { assert b[k].0 == n; }
      if n == overrides[i].0 { assert b[i].0 == n; }
    }
    forall n, r ensures Maps(b, n, r) <==> Maps(a, n, r) || (n, r) == overrides[i] {
      if k :| 0 <= k < |a| && a[k] == (n, r) { assert b[k] == (n, r); }
      if (n, r) == overrides[i] { assert b[i] == (n, r); }
    }
  }
}
