/** Azure resource IDs: the subnet ID that an explicit network prints, and the decomposition of a
    discovered subnet ID into the names of its collections. */
module ResourceIds {
  import opened Wrappers
  import opened Strings

  predicate SlashFree(s: string) { forall i :: 0 <= i < |s| ==> s[i] != '/' }

  predicate IsName(s: string) { s != "" && SlashFree(s) }

  predicate SameFolded(a: string, b: string) { LowerAll(a) == LowerAll(b) }

  /** The text of a subscription's UUID. */
  predicate IsUuidText(s: string) {
    s != "" && forall i :: 0 <= i < |s| ==> '0' <= s[i] <= '9' || 'a' <= s[i] <= 'f' || s[i] == '-'
  }

  /* ----- Printing ----- */

  function Subscriptions(): string { "subscriptions" }
  function ResourceGroups(): string { "resourceGroups" }
  function Providers(): string { "providers" }
  function Network(): string { "Microsoft.Network" }
  function VirtualNetworks(): string { "virtualNetworks" }
  function Subnets(): string { "subnets" }

  function Segment(part: string): string { "/" + part }

  function ResourceId(subscription: string, group: string, providerPath: string): string {
    Segment(Subscriptions()) + Segment(subscription) + Segment(ResourceGroups()) + Segment(group)
    + Segment(Providers()) + Segment(providerPath)
  }

  function VnetId(subscription: string, group: string, vnet: string): string {
    ResourceId(subscription, group, Network() + Segment(VirtualNetworks()) + Segment(vnet))
  }

  function SubnetId(subscription: string, group: string, vnet: string, subnet: string): string {
    VnetId(subscription, group, vnet) + Segment(Subnets()) + Segment(subnet)
  }

  /** The printed ID, as Azure documents it. */
  lemma SubnetIdIs(subscription: string, group: string, vnet: string, subnet: string)
    ensures SubnetId(subscription, group, vnet, subnet) ==
            "/subscriptions/" + subscription + "/resourceGroups/" + group
            + "/providers/" + "Microsoft.Network" + "/virtualNetworks/" + vnet + "/subnets/" + subnet
  {
    assert Segment(Subscriptions()) + "/" == "/subscriptions/" && Segment(ResourceGroups()) + "/" == "/resourceGroups/";
    assert Segment(Subnets()) + "/" == "/subnets/";
    assert Segment(Providers()) + "/" == "/providers/" && Segment(VirtualNetworks()) + "/" == "/virtualNetworks/";
    assert Network() == "Microsoft.Network";
    hide Subscriptions, ResourceGroups, Providers, Network, VirtualNetworks, Subnets;
    Regrouped(Segment(Subscriptions()), subscription, Segment(ResourceGroups()), group, Segment(Providers()), Network(),
        Segment(VirtualNetworks()), vnet, Segment(Subnets()), subnet);
  }

  lemma Regrouped(a: string, b: string, c: string, d: string, e: string, f: string, g: string, h: string, i: string,
                  j: string)
    ensures a + Segment(b) + c + Segment(d) + e + Segment(f + g + Segment(h)) + i + Segment(j)
            == (a + "/") + b + (c + "/") + d + (e + "/") + f + (g + "/") + h + (i + "/") + j
  {
    FourRegrouped(a, b, c, d);
    var front := (a + "/") + b + (c + "/") + d;
    var middle := front + (e + "/") + f + (g + "/") + h;
    assert front + e + ("/" + (f + g + ("/" + h))) == middle;
    assert middle + i + ("/" + j) == middle + (i + "/") + j;
  }

  lemma FourRegrouped(a: string, b: string, c: string, d: string)
    ensures a + Segment(b) + c + Segment(d) == (a + "/") + b + (c + "/") + d
  {
    assert a + Segment(b) == (a + "/") + b;
    assert (a + "/") + b + c + ("/" + d) == (a + "/") + b + (c + "/") + d;
  }

  /* ----- Splitting ----- */

  function FirstSlash(s: string): (n: nat)
    ensures n <= |s| && (forall i :: 0 <= i < n ==> s[i] != '/') && (n < |s| ==> s[n] == '/')
  {
    if s == "" || s[0] == '/' then 0 else 1 + FirstSlash(s[1..])
  }

  /** The non-empty parts between slashes. */
  function Parts(s: string): seq<string>
    decreases |s|
  {
    var n := FirstSlash(s);
    (if n == 0 then [] else [s[..n]]) + (if n == |s| then [] else Parts(s[n + 1..]))
  }

  function Joined(parts: seq<string>): string {
    if parts == [] then "" else Segment(parts[0]) + Joined(parts[1..])
  }

  lemma FirstSlashIs(s: string, n: nat)
    requires n <= |s| && (forall i :: 0 <= i < n ==> s[i] != '/') && (n < |s| ==> s[n] == '/')
    ensures FirstSlash(s) == n
  {
  }

  lemma PartsOfSlash(s: string)
    requires s != "" && s[0] == '/'
    ensures Parts(s) == Parts(s[1..])
  {
    FirstSlashIs(s, 0);
    hide FirstSlash;
    assert FirstSlash(s) == 0 && Parts(s) == [] + Parts(s[1..]);
  }

  lemma PartsCutAt(s: string, n: nat)
    requires 0 < n == FirstSlash(s) < |s|
    ensures Parts(s) == [s[..n]] + Parts(s[n + 1..])
  {
    hide FirstSlash;
    assert Parts(s) == (if n == 0 then [] else [s[..n]]) + (if n == |s| then [] else Parts(s[n + 1..]));
  }

  lemma NameStandsFirst(a: string, s: string)
    requires IsName(a) && a <= s
    ensures a != "" && s[..|a|] == a && forall i :: 0 <= i < |a| ==> s[i] != '/'
  {
    assert forall i :: 0 <= i < |a| ==> s[i] == a[i];
  }

  lemma PartsOfName(a: string, s: string)
    requires IsName(a) && a <= s && |a| < |s| && s[|a|] == '/'
    ensures Parts(s) == [a] + Parts(s[|a| + 1..])
  {
    hide *;
    NameStandsFirst(a, s);
    FirstSlashIs(s, |a|);
    PartsCutAt(s, |a|);
  }

  lemma PartsOfLast(a: string)
    requires IsName(a)
    ensures Parts(a) == [a] && Parts("") == []
  {
    FirstSlashIs(a, |a|);
    FirstSlashIs("", 0);
    assert a[..|a|] == a;
  }

  lemma PartsOfFirst(a: string, rest: string)
    requires IsName(a) && (rest == "" || rest[0] == '/')
    ensures Parts("/" + a + rest) == [a] + Parts(rest)
  {
    var tail := a + rest;
    var s := "/" + a + rest;
    hide FirstSlash, Parts, IsName;
    PartsOfSlash(s);
    assert s[1..] == tail;
    if rest == "" {
      PartsOfLast(a);
      assert tail == a;
    } else {
      PartsOfSlash(rest);
      PartsOfName(a, tail);
      assert tail[|a| + 1..] == rest[1..];
    }
  }

  /** Splitting undoes joining, for names. */
  lemma {:induction false} PartsOfJoined(parts: seq<string>)
    requires forall i :: 0 <= i < |parts| ==> IsName(parts[i])
    ensures Parts(Joined(parts)) == parts
  {
    if parts == [] {
      FirstSlashIs("", 0);
    } else {
      hide IsName, Parts;
      PartsOfJoined(parts[1..]);
      PartsOfFirst(parts[0], Joined(parts[1..]));
    }
  }

  /** The ten parts of a subnet ID. */
  function SubnetParts(subscription: string, group: string, vnet: string, subnet: string): seq<string> {
    [Subscriptions(), subscription, ResourceGroups(), group, Providers(), Network(),
     VirtualNetworks(), vnet, Subnets(), subnet]
  }

  /** Joining by a running prefix gives the same text. */
  function Appended(prefix: string, parts: seq<string>): string
    decreases |parts|
  {
    if parts == [] then prefix else Appended(prefix + Segment(parts[0]), parts[1..])
  }

  lemma {:induction false} AppendedIsJoined(prefix: string, parts: seq<string>)
    ensures Appended(prefix, parts) == prefix + Joined(parts)
    decreases |parts|
  {
    if parts == [] {
      assert prefix + "" == prefix;
    } else {
      AppendedIsJoined(prefix + Segment(parts[0]), parts[1..]);
      assert prefix + Segment(parts[0]) + Joined(parts[1..]) == prefix + (Segment(parts[0]) + Joined(parts[1..]));
    }
  }

  lemma AppendedNext(prefix: string, part: string, rest: seq<string>)
    ensures Appended(prefix, [part] + rest) == Appended(prefix + Segment(part), rest)
  {
    assert ([part] + rest)[1..] == rest;
  }

  lemma SegmentOfPath(front: string, a: string, b: string, c: string)
    ensures front + Segment(a + Segment(b) + Segment(c)) == front + Segment(a) + Segment(b) + Segment(c)
  {
  }

  lemma SubnetIdIsJoined(subscription: string, group: string, vnet: string, subnet: string)
    ensures SubnetId(subscription, group, vnet, subnet) == Joined(SubnetParts(subscription, group, vnet, subnet))
  {
    hide Subscriptions, ResourceGroups, Providers, Network, VirtualNetworks, Subnets;
    var p := SubnetParts(subscription, group, vnet, subnet);
    AppendedIsJoined("", p);
    assert "" + Joined(p) == Joined(p);
    assert "" + Segment(Subscriptions()) == Segment(Subscriptions());
    var front := Segment(Subscriptions()) + Segment(subscription) + Segment(ResourceGroups()) + Segment(group)
               + Segment(Providers());
    SegmentOfPath(front, Network(), VirtualNetworks(), vnet);
    hide Segment, Joined;
    TenAppended("", p);
  }

  lemma TenAppended(prefix: string, p: seq<string>)
    requires |p| == 10
    ensures Appended(prefix, p) ==
            prefix + Segment(p[0]) + Segment(p[1]) + Segment(p[2]) + Segment(p[3]) + Segment(p[4])
            + Segment(p[5]) + Segment(p[6]) + Segment(p[7]) + Segment(p[8]) + Segment(p[9])
  {
    hide Segment;
    var half := prefix + Segment(p[0]) + Segment(p[1]) + Segment(p[2]) + Segment(p[3]) + Segment(p[4]);
    assert p == p[..5] + p[5..];
    FiveAppended(prefix, p[..5], p[5..]);
    FiveAppended(half, p[5..], []);
    assert p[5..] + [] == p[5..];
  }

  lemma FiveAppended(prefix: string, p: seq<string>, rest: seq<string>)
    requires |p| == 5
    ensures Appended(prefix, p + rest) ==
            Appended(prefix + Segment(p[0]) + Segment(p[1]) + Segment(p[2]) + Segment(p[3]) + Segment(p[4]), rest)
  {
    hide Segment;
    assert p + rest == [p[0]] + ([p[1]] + ([p[2]] + ([p[3]] + ([p[4]] + rest))));
    hide Appended;
    AppendedNext(prefix, p[0], [p[1]] + ([p[2]] + ([p[3]] + ([p[4]] + rest))));
    AppendedNext(prefix + Segment(p[0]), p[1], [p[2]] + ([p[3]] + ([p[4]] + rest)));
    AppendedNext(prefix + Segment(p[0]) + Segment(p[1]), p[2], [p[3]] + ([p[4]] + rest));
    AppendedNext(prefix + Segment(p[0]) + Segment(p[1]) + Segment(p[2]), p[3], [p[4]] + rest);
    AppendedNext(prefix + Segment(p[0]) + Segment(p[1]) + Segment(p[2]) + Segment(p[3]), p[4], rest);
  }

  /* ----- The decomposition ----- */

  predicate IsAt(parts: seq<string>, collection: string, i: nat) {
    i + 1 < |parts| && SameFolded(parts[i], collection)
  }

  /** The part after the first one that names the collection, if any. */
  ghost predicate IsPartAfter(parts: seq<string>, collection: string, r: Option<string>) {
    match r
    case None => forall i: nat :: !IsAt(parts, collection, i)
    case Some(part) => exists i: nat :: IsAt(parts, collection, i) && parts[i + 1] == part
                                        && forall j: nat :: j < i ==> !IsAt(parts, collection, j)
  }

  method ResourceIdPart(resourceId: string, collection: string) returns (r: Option<string>)
    ensures IsPartAfter(Parts(resourceId), collection, r)
  {
    hide Parts, SameFolded;
    var parts := Parts(resourceId);
    var i := 0;
    while i < |parts| - 1
      invariant 0 <= i
      invariant forall j: nat :: j < i ==> !IsAt(parts, collection, j)
    {
      if SameFolded(parts[i], collection) {
        assert IsAt(parts, collection, i);
        return Some(parts[i + 1]);
      }
      i := i + 1;
    }
    return None;
  }

  lemma PartAfterFirst(parts: seq<string>, collection: string, i: nat, r: Option<string>)
    requires IsPartAfter(parts, collection, r)
    requires IsAt(parts, collection, i) && forall j: nat :: j < i ==> !IsAt(parts, collection, j)
    ensures r == Some(parts[i + 1])
  {
  }

  lemma FoldedLength(s: string)
    ensures |LowerAll(s)| == |s|
  {
  }

  lemma UuidIsNoKeyword(s: string)
    requires IsUuidText(s)
    ensures !SameFolded(s, ResourceGroups()) && !SameFolded(s, VirtualNetworks()) && !SameFolded(s, Subnets())
  {
    assert LowerAll(s)[0] == s[0];
    assert LowerAll(ResourceGroups())[0] == 'r';
    assert LowerAll(VirtualNetworks())[0] == 'v' && LowerAll(Subnets())[0] == 's';
  }

  /** The fixed parts of a subnet ID differ from each other, whatever their case. */
  lemma KeywordsDiffer()
    ensures !SameFolded(Subscriptions(), ResourceGroups()) && !SameFolded(Subscriptions(), VirtualNetworks())
    ensures !SameFolded(Subscriptions(), Subnets()) && !SameFolded(ResourceGroups(), VirtualNetworks())
    ensures !SameFolded(ResourceGroups(), Subnets()) && !SameFolded(Providers(), VirtualNetworks())
    ensures !SameFolded(Providers(), Subnets()) && !SameFolded(Network(), VirtualNetworks())
    ensures !SameFolded(Network(), Subnets()) && !SameFolded(VirtualNetworks(), Subnets())
  {
    assert |Subscriptions()| == 13 && |ResourceGroups()| == 14 && |VirtualNetworks()| == 15 && |Subnets()| == 7;
    assert |Providers()| == 9 && |Network()| == 17;
    hide Subscriptions, ResourceGroups, Providers, Network, VirtualNetworks, Subnets;
    FoldedLength(Subscriptions()); FoldedLength(ResourceGroups()); FoldedLength(VirtualNetworks());
    FoldedLength(Subnets()); FoldedLength(Providers()); FoldedLength(Network());
    hide LowerAll;
  }

  lemma FoldedIsFolded(a: string, b: string, c: string)
    ensures SameFolded(a, a) && SameFolded(b, b) && SameFolded(c, c)
  {
  }

  /** The decomposition of an ID into resource group, network and subnet. */
  ghost predicate Decomposes(id: string, rg: Option<string>, vn: Option<string>, sn: Option<string>) {
    && IsPartAfter(Parts(id), ResourceGroups(), rg) && IsPartAfter(Parts(id), VirtualNetworks(), vn)
    && IsPartAfter(Parts(id), Subnets(), sn)
  }

  /** What the decomposition reads out of a printed subnet ID: a group or a network that is named
      like a later collection is taken for that collection. */
  lemma PartsOfSubnetId(subscription: string, group: string, vnet: string, subnet: string,
                        rg: Option<string>, vn: Option<string>, sn: Option<string>)
    requires IsUuidText(subscription) && IsName(group) && IsName(vnet) && IsName(subnet)
    requires Decomposes(SubnetId(subscription, group, vnet, subnet), rg, vn, sn)
    ensures rg == Some(group)
    ensures vn == Some(if SameFolded(group, VirtualNetworks()) then Providers() else vnet)
    ensures sn == Some(if SameFolded(group, Subnets()) then Providers()
                       else if SameFolded(vnet, Subnets()) then Subnets() else subnet)
  {
    hide Parts, SubnetId, Joined, LowerAll, IsUuidText, IsName, SameFolded, IsPartAfter,
         Subscriptions, ResourceGroups, Providers, Network, VirtualNetworks, Subnets;
    var parts := SubnetParts(subscription, group, vnet, subnet);
    SubnetIdIsJoined(subscription, group, vnet, subnet);
    PartsAreNames(subscription, group, vnet, subnet);
    PartsOfJoined(parts);
    UuidIsNoKeyword(subscription);
    KeywordsDiffer();
    FoldedIsFolded(ResourceGroups(), VirtualNetworks(), Subnets());
    FirstAmongTen(parts, ResourceGroups(), 2, rg);
    FirstAmongTen(parts, VirtualNetworks(), if SameFolded(group, VirtualNetworks()) then 3 else 6, vn);
    var last: nat := if SameFolded(group, Subnets()) then 3 else if SameFolded(vnet, Subnets()) then 7 else 8;
    FirstAmongTen(parts, Subnets(), last, sn);
  }

  lemma FirstAmongTen(parts: seq<string>, collection: string, i: nat, r: Option<string>)
    requires |parts| == 10 && IsPartAfter(parts, collection, r) && i < 9 && SameFolded(parts[i], collection)
    requires 0 < i ==> !SameFolded(parts[0], collection)
    requires 1 < i ==> !SameFolded(parts[1], collection)
    requires 2 < i ==> !SameFolded(parts[2], collection)
    requires 3 < i ==> !SameFolded(parts[3], collection)
    requires 4 < i ==> !SameFolded(parts[4], collection)
    requires 5 < i ==> !SameFolded(parts[5], collection)
    requires 6 < i ==> !SameFolded(parts[6], collection)
    requires 7 < i ==> !SameFolded(parts[7], collection)
    ensures r == Some(parts[i + 1])
  {
    hide SameFolded;
    PartAfterFirst(parts, collection, i, r);
  }

  lemma PartsAreNames(subscription: string, group: string, vnet: string, subnet: string)
    requires IsUuidText(subscription) && IsName(group) && IsName(vnet) && IsName(subnet)
    ensures forall i :: 0 <= i < 10 ==> IsName(SubnetParts(subscription, group, vnet, subnet)[i])
  {
    var parts := SubnetParts(subscription, group, vnet, subnet);
    assert IsName(Subscriptions()) && IsName(ResourceGroups()) && IsName(Providers());
    assert IsName(Network()) && IsName(VirtualNetworks()) && IsName(Subnets());
    assert IsName(subscription);
  }

  /* ----- The network's own ID ----- */

  /** The text before the last occurrence of a separator: `rsplit(separator, 1)[0]`. */
  ghost predicate IsBeforeLast(s: string, separator: string, r: string) {
    if exists i: nat :: OccursAt(separator, s, i)
    then
      && |r| <= |s| && r == s[..|r|] && OccursAt(separator, s, |r|)
      && forall i: nat :: |r| < i ==> !OccursAt(separator, s, i)
    else r == s
  }

  lemma BeforeLastIs(front: string, keyword: string, name: string, r: string)
    requires SlashFree(keyword) && SlashFree(name)
    requires IsBeforeLast(front + Segment(keyword) + Segment(name), Segment(keyword) + "/", r)
    ensures r == front
  {
    var s, separator := front + Segment(keyword) + Segment(name), Segment(keyword) + "/";
    var n := |front|;
    assert s[n..n + |separator|] == separator;
    assert OccursAt(separator, s, n);
    forall i: nat | n < i ensures !OccursAt(separator, s, i) {
      NotLater(front, keyword, name, i);
    }
    assert |r| == n;
    assert s[..n] == front;
  }

  lemma NotLater(front: string, keyword: string, name: string, i: nat)
    requires SlashFree(keyword) && SlashFree(name) && |front| < i
    ensures !OccursAt(Segment(keyword) + "/", front + Segment(keyword) + Segment(name), i)
  {
    var s, separator := front + Segment(keyword) + Segment(name), Segment(keyword) + "/";
    assert forall k :: |front| < k < |s| && s[k] == '/' ==> k == |front| + 1 + |keyword|;
    assert separator[0] == '/' && separator[|separator| - 1] == '/';
    if OccursAt(separator, s, i) { EndsOfOccurrence(separator, s, i); }
  }

  lemma EndsOfOccurrence(part: string, s: string, i: nat)
    requires OccursAt(part, s, i) && part != ""
    ensures s[i] == part[0] && s[i + |part| - 1] == part[|part| - 1]
  {
    assert s[i..i + |part|][0] == s[i] && s[i..i + |part|][|part| - 1] == s[i + |part| - 1];
  }

  /** Round trip: splitting the printed subnet ID gives back the group, the network, the subnet and
      the network's ID exactly when neither the group nor the network is named, ignoring case, like
      a later collection, save where the part that is then read happens to be the name looked for. */
  lemma SubnetIdRoundTrip(subscription: string, group: string, vnet: string, subnet: string,
                          rg: Option<string>, vn: Option<string>, sn: Option<string>, id: string)
    requires IsUuidText(subscription) && IsName(group) && IsName(vnet) && IsName(subnet)
    requires Decomposes(SubnetId(subscription, group, vnet, subnet), rg, vn, sn)
    requires IsBeforeLast(SubnetId(subscription, group, vnet, subnet), Segment(Subnets()) + "/", id)
    ensures id == VnetId(subscription, group, vnet) && rg == Some(group)
    ensures vn == Some(vnet) && sn == Some(subnet) <==>
            && (SameFolded(group, VirtualNetworks()) ==> vnet == Providers())
            && (if SameFolded(group, Subnets()) then subnet == Providers()
                else SameFolded(vnet, Subnets()) ==> subnet == Subnets())
  {
    assert SlashFree(Subnets());
    PartsOfSubnetId(subscription, group, vnet, subnet, rg, vn, sn);
    hide Subscriptions, ResourceGroups, Providers, Network, VirtualNetworks, Subnets, LowerAll, Decomposes, IsUuidText;
    BeforeLastIs(VnetId(subscription, group, vnet), Subnets(), subnet, id);
  }
}
