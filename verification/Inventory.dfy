/** The AWX dynamic inventory: a loop that grows a nested group graph in place from the listed
    machines, and then sorts every list in it. */
module Inventory {
  import opened Wrappers
  import opened Sorting
  import opened Strings

  const CLUSTER_NAME_LABEL := "cluster.x-k8s.io/cluster-name"

  datatype Address = Address(kind: Option<string>, address: Option<string>)

  datatype Machine = Machine(
    name: Option<string>, namespace: Option<string>, labels: map<string, string>,
    addresses: seq<Address>, nodeRefName: Option<string>)

  datatype Settings = Settings(nodeTypeLabel: string, controllerNodeType: string, computeNodeType: string)

  datatype HostVars =
    | LocalHost
    | MachineHost(capiCluster: string, capiMachine: Option<string>, capiNamespace: Option<string>,
                  nodeType: string, ansibleHost: Option<string>)

  /** A group's dictionary: either key may be absent. */
  datatype Group = Group(children: Option<seq<string>>, hosts: Option<seq<string>>)

  /* ----- Names ----- */

  predicate IsWord(c: char) { 'a' <= c <= 'z' || 'A' <= c <= 'Z' || '0' <= c <= '9' || c == '_' }

  function Underscored(s: string): (r: string)
    ensures |r| == |s| && forall i :: 0 <= i < |r| ==> IsWord(r[i])
  {
    seq(|s|, i requires 0 <= i < |s| => if IsWord(s[i]) then s[i] else '_')
  }

  function Sanitize(value: string): string {
    var name := LowerAll(RightStrip(LeftStrip(Underscored(value), '_'), '_'));
    if name == "" then "unknown" else name
  }

  predicate IsGroupName(s: string) {
    && s != "" && s[0] != '_' && s[|s| - 1] != '_'
    && forall i :: 0 <= i < |s| ==> 'a' <= s[i] <= 'z' || '0' <= s[i] <= '9' || s[i] == '_'
  }

  lemma {:induction false} LeftStripKeepsWords(s: string)
    requires forall i :: 0 <= i < |s| ==> IsWord(s[i])
    ensures forall i :: 0 <= i < |LeftStrip(s, '_')| ==> IsWord(LeftStrip(s, '_')[i])
    ensures LeftStrip(s, '_') == "" || LeftStrip(s, '_')[0] != '_'
  {
    if s != [] && s[0] == '_' { LeftStripKeepsWords(s[1..]); }
  }

  lemma {:induction false} RightStripKeepsWords(s: string)
    requires forall i :: 0 <= i < |s| ==> IsWord(s[i])
    requires s == "" || s[0] != '_'
    ensures forall i :: 0 <= i < |RightStrip(s, '_')| ==> IsWord(RightStrip(s, '_')[i])
    ensures var r := RightStrip(s, '_'); r == "" || (r[0] != '_' && r[|r| - 1] != '_')
  {
    if s != [] && s[|s| - 1] == '_' { RightStripKeepsWords(s[..|s| - 1]); }
  }

  /** A sanitised name is a non-empty lower-case word without outer underscores, so neither it nor
      a name built on it is ever the reserved `_meta`. */
  lemma SanitizedIsGroupName(value: string)
    ensures IsGroupName(Sanitize(value))
  {
    LeftStripKeepsWords(Underscored(value));
    RightStripKeepsWords(LeftStrip(Underscored(value), '_'));
  }

  /** A sanitised name is left alone by another pass. */
  lemma SanitizeIsIdempotent(value: string)
    ensures Sanitize(Sanitize(value)) == Sanitize(value)
  {
    SanitizedIsGroupName(value);
    var s := Sanitize(value);
    assert Underscored(s) == s;
    assert LowerAll(s) == s;
  }

  predicate IsLetterOrDigit(c: char) { 'a' <= c <= 'z' || 'A' <= c <= 'Z' || '0' <= c <= '9' }

  /** Where the letters and digits of a text begin and end. */
  ghost predicate Spans(value: string, lo: nat, hi: nat) {
    && lo < hi <= |value| && IsLetterOrDigit(value[lo]) && IsLetterOrDigit(value[hi - 1])
    && (forall i :: 0 <= i < lo ==> !IsLetterOrDigit(value[i]))
    && forall i :: hi <= i < |value| ==> !IsLetterOrDigit(value[i])
  }

  /** One character of a sanitised name. */
  predicate IsSanitized(c: char, r: char) {
    if 'A' <= c <= 'Z' then r == 'a' + (c - 'A')
    else if 'a' <= c <= 'z' || '0' <= c <= '9' then r == c
    else r == '_'
  }

  /** A sanitised name is the text from its first to its last letter or digit, in lower case and with
      underscores for everything else; a text without any becomes `unknown`. */
  lemma SanitizedIs(value: string, lo: nat, hi: nat)
    requires Spans(value, lo, hi)
    ensures |Sanitize(value)| == hi - lo
    ensures forall i :: 0 <= i < hi - lo ==> IsSanitized(value[lo + i], Sanitize(value)[i])
  {
    hide LeftStrip, RightStrip, Underscored, Lower, Spans, IsSanitized;
    var s := Underscored(value);
    UnderscoredSpans(value, lo, hi);
    LeftStripped(s, '_', lo);
    RightStripped(s[lo..], '_', hi - lo);
    assert s[lo..][..hi - lo] == s[lo..hi];
    assert Sanitize(value) == LowerAll(s[lo..hi]);
    forall i | 0 <= i < hi - lo ensures IsSanitized(value[lo + i], Sanitize(value)[i]) {
      assert s[lo..hi][i] == s[lo + i];
      SanitizedAt(value, lo + i);
    }
  }

  lemma UnderscoredSpans(value: string, lo: nat, hi: nat)
    requires Spans(value, lo, hi)
    ensures lo < hi <= |Underscored(value)|
    ensures Underscored(value)[lo] != '_' && Underscored(value)[hi - 1] != '_'
    ensures forall i :: 0 <= i < lo || hi <= i < |value| ==> Underscored(value)[i] == '_'
  {
  }

  lemma SanitizedAt(value: string, i: nat)
    requires i < |value|
    ensures IsSanitized(value[i], Lower(Underscored(value)[i]))
  {
  }

  lemma SanitizedNothing(value: string)
    requires forall i :: 0 <= i < |value| ==> !IsLetterOrDigit(value[i])
    ensures Sanitize(value) == "unknown"
  {
    LeftStripped(Underscored(value), '_', |value|);
  }

  /* ----- One machine ----- */

  predicate Truthy(o: Option<string>) { o.Some? && o.value != "" }

  function Lookup(m: map<string, string>, key: string): Option<string> {
    if key in m then Some(m[key]) else None
  }

  function AddressOf(addresses: seq<Address>, kind: string): Option<string> {
    if addresses == [] then None
    else if addresses[0].kind == Some(kind) && Truthy(addresses[0].address) then addresses[0].address
    else AddressOf(addresses[1..], kind)
  }

  predicate IsAddress(a: Address, kind: string) { a.kind == Some(kind) && Truthy(a.address) }

  /** The address of a kind is the first one listed that is not empty, if there is any. */
  lemma {:induction false} AddressIsFirst(addresses: seq<Address>, kind: string)
    ensures match AddressOf(addresses, kind)
            case None => forall i :: 0 <= i < |addresses| ==> !IsAddress(addresses[i], kind)
            case Some(address) =>
              exists i :: 0 <= i < |addresses| && IsAddress(addresses[i], kind) && addresses[i].address == Some(address)
                          && forall j :: 0 <= j < i ==> !IsAddress(addresses[j], kind)
  {
    if addresses != [] && !IsAddress(addresses[0], kind) {
      AddressIsFirst(addresses[1..], kind);
      if AddressOf(addresses[1..], kind).Some? {
        var rest := addresses[1..];
        var i :| 0 <= i < |rest| && IsAddress(rest[i], kind) && rest[i].address == AddressOf(rest, kind)
                 && forall j :: 0 <= j < i ==> !IsAddress(rest[j], kind);
        assert addresses[i + 1] == rest[i];
        assert forall j :: 0 < j < i + 1 ==> addresses[j] == rest[j - 1];
      }
    } else if addresses != [] {
      assert IsAddress(addresses[0], kind);
    }
  }

  predicate IsFirstAddress(addresses: seq<Address>, kind: string, i: int) {
    0 <= i < |addresses| && IsAddress(addresses[i], kind) && forall j :: 0 <= j < i ==> !IsAddress(addresses[j], kind)
  }

  lemma FirstAddressIs(addresses: seq<Address>, kind: string, i: int)
    requires IsFirstAddress(addresses, kind, i)
    ensures AddressOf(addresses, kind) == addresses[i].address
  {
    AddressIsFirst(addresses, kind);
    hide AddressOf, IsAddress;
  }

  function HostName(m: Machine): string {
    var address := AddressOf(m.addresses, "Hostname");
    if Truthy(address) then address.value
    else if Truthy(m.nodeRefName) then m.nodeRefName.value
    else if Truthy(m.name) then m.name.value
    else "unknown"
  }

  function HostVarsOf(settings: Settings, m: Machine): HostVars {
    var external := AddressOf(m.addresses, "ExternalIP");
    MachineHost(
      Or(Lookup(m.labels, CLUSTER_NAME_LABEL), "unknown"), m.name, m.namespace,
      Or(Lookup(m.labels, settings.nodeTypeLabel), "unknown"),
      if external.Some? then external else AddressOf(m.addresses, "InternalIP"))
  }

  /** A machine goes by its first host name address; without one by its node, by its own name, or by
      `unknown`, whichever is there first. */
  lemma HostNameIs(m: Machine)
    ensures forall i :: IsFirstAddress(m.addresses, "Hostname", i) ==> m.addresses[i].address == Some(HostName(m))
    ensures (forall i :: 0 <= i < |m.addresses| ==> !IsAddress(m.addresses[i], "Hostname")) ==>
              && (Truthy(m.nodeRefName) ==> m.nodeRefName == Some(HostName(m)))
              && (!Truthy(m.nodeRefName) && Truthy(m.name) ==> m.name == Some(HostName(m)))
              && (!Truthy(m.nodeRefName) && !Truthy(m.name) ==> HostName(m) == "unknown")
  {
    AddressIsFirst(m.addresses, "Hostname");
    forall i | IsFirstAddress(m.addresses, "Hostname", i) { FirstAddressIs(m.addresses, "Hostname", i); }
    hide AddressOf;
  }

  /** Its variables: its labels, name and namespace, and to connect to its first external address, or
      else its first internal one. */
  lemma HostVarsAre(settings: Settings, m: Machine)
    ensures var v, clusterLabel := HostVarsOf(settings, m), "cluster.x-k8s.io/cluster-name";
            && v.MachineHost? && v.capiMachine == m.name && v.capiNamespace == m.namespace
            && v.capiCluster == (if clusterLabel in m.labels then m.labels[clusterLabel] else "unknown")
            && v.nodeType
               == (if settings.nodeTypeLabel in m.labels then m.labels[settings.nodeTypeLabel] else "unknown")
            && (forall i :: IsFirstAddress(m.addresses, "ExternalIP", i) ==> v.ansibleHost == m.addresses[i].address)
            && ((forall i :: 0 <= i < |m.addresses| ==> !IsAddress(m.addresses[i], "ExternalIP")) ==>
                  && (forall i :: IsFirstAddress(m.addresses, "InternalIP", i) ==>
                        v.ansibleHost == m.addresses[i].address)
                  && ((forall i :: 0 <= i < |m.addresses| ==> !IsAddress(m.addresses[i], "InternalIP")) ==>
                        v.ansibleHost.None?))
  {
    AddressIsFirst(m.addresses, "ExternalIP");
    AddressIsFirst(m.addresses, "InternalIP");
    forall i | IsFirstAddress(m.addresses, "ExternalIP", i) { FirstAddressIs(m.addresses, "ExternalIP", i); }
    forall i | IsFirstAddress(m.addresses, "InternalIP", i) { FirstAddressIs(m.addresses, "InternalIP", i); }
    hide AddressOf;
  }

  predicate Eligible(settings: Settings, m: Machine) {
    Truthy(Lookup(m.labels, settings.nodeTypeLabel)) && Truthy(Lookup(m.labels, CLUSTER_NAME_LABEL))
  }

  /** All that the group graph takes from a machine. */
  datatype Placement = Placement(cluster: string, nodeType: string, host: string) {
    function ClusterName(): string { Sanitize(cluster) }
    function TypeGroup(): string { Sanitize(nodeType) }
    function ClusterGroup(): string { "cluster_" + ClusterName() }
    function ClusterTypeGroup(): string { TypeGroup() + "_" + ClusterName() }
  }

  function PlacementOf(settings: Settings, m: Machine): Placement
    requires Eligible(settings, m)
  {
    Placement(m.labels[CLUSTER_NAME_LABEL], m.labels[settings.nodeTypeLabel], HostName(m))
  }

  /* ----- The graph as a set of facts ----- */

  datatype Fact =
    | Name(group: string)                    // the group exists
    | Parent(group: string)                  // it has a list of children
    | Holder(group: string)                  // it has a list of hosts
    | Child(group: string, child: string)
    | Member(group: string, host: string)

  function RootFacts(all: string, management: string, slurm: string, host: string): set<Fact> {
    {Name(all), Parent(all), Child(all, management), Child(all, slurm),
     Name(management), Holder(management), Member(management, host),
     Name(slurm), Parent(slurm)}
  }

  function BaseFacts(): set<Fact> { RootFacts("all", "management", "slurm", "localhost") }

  function LinkFacts(all: string, slurm: string, cluster: string, kind: string, clusterKind: string,
                     host: string): set<Fact> {
    {Name(cluster), Name(kind), Name(clusterKind),
     Child(all, cluster), Child(slurm, cluster), Child(slurm, kind),
     Child(cluster, clusterKind), Child(kind, clusterKind),
     Parent(all), Parent(slurm), Parent(cluster), Parent(kind), Holder(clusterKind), Member(clusterKind, host)}
  }

  function ExtraFacts(group: string, child: string): set<Fact> {
    {Name(group), Parent(group), Child(group, child)}
  }

  function FactsOf(settings: Settings, p: Placement): set<Fact> {
    LinkFacts("all", "slurm", p.ClusterGroup(), p.TypeGroup(), p.ClusterTypeGroup(), p.host)
    + (if p.nodeType == settings.controllerNodeType then ExtraFacts("controller", p.ClusterTypeGroup()) else {})
    + (if p.nodeType == settings.computeNodeType then ExtraFacts("compute", p.ClusterTypeGroup()) else {})
  }

  function Placements(settings: Settings, ms: seq<Machine>): set<Placement> {
    set m | m in ms && Eligible(settings, m) :: PlacementOf(settings, m)
  }

  /** The inventory's facts, read off the set of placements alone. */
  ghost function AllFacts(settings: Settings, ps: set<Placement>): set<Fact> {
    BaseFacts() + set p, f | p in ps && f in FactsOf(settings, p) :: f
  }

  ghost function ChildrenIn(facts: set<Fact>, group: string): set<string> {
    set f | f in facts && f.Child? && f.group == group :: f.child
  }

  ghost function MembersIn(facts: set<Fact>, group: string): set<string> {
    set f | f in facts && f.Member? && f.group == group :: f.host
  }

  ghost function NamesIn(facts: set<Fact>): set<string> {
    set f | f in facts && f.Name? :: f.group
  }

  /** The inventory that a set of facts describes: every list sorted and free of repetitions. */
  ghost function Render(facts: set<Fact>): map<string, Group> {
    map g | g in NamesIn(facts) :: Group(
      if Parent(g) in facts then Some(SortedSet(StringLe, ChildrenIn(facts, g))) else None,
      if Holder(g) in facts then Some(SortedSet(StringLe, MembersIn(facts, g))) else None)
  }

  predicate Lists(o: Option<seq<string>>, x: string) { o.Some? && x in o.value }

  predicate Holds(groups: map<string, Group>, f: Fact) {
    && f.group in groups
    && match f
       case Name(g) => true
       case Parent(g) => groups[g].children.Some?
       case Holder(g) => groups[g].hosts.Some?
       case Child(g, c) => Lists(groups[g].children, c)
       case Member(g, h) => Lists(groups[g].hosts, h)
  }

  /** The facts that a dictionary of groups holds. */
  ghost function Reading(groups: map<string, Group>): (facts: set<Fact>)
    ensures forall f :: f in facts <==> Holds(groups, f)
  {
    (set g | g in groups :: Name(g))
    + (set g | g in groups && groups[g].children.Some? :: Parent(g))
    + (set g | g in groups && groups[g].hosts.Some? :: Holder(g))
    + (set g, c | g in groups && groups[g].children.Some? && c in groups[g].children.value :: Child(g, c))
    + (set g, h | g in groups && groups[g].hosts.Some? && h in groups[g].hosts.value :: Member(g, h))
  }

  ghost predicate ListsAreDistinct(groups: map<string, Group>) {
    forall g :: g in groups ==>
      && (groups[g].children.Some? ==> Distinct(groups[g].children.value))
      && (groups[g].hosts.Some? ==> Distinct(groups[g].hosts.value))
  }

  function SortedList(o: Option<seq<string>>): Option<seq<string>> {
    if o.Some? then Some(Sort(StringLe, o.value)) else None
  }

  function SortedGroup(g: Group): Group { Group(SortedList(g.children), SortedList(g.hosts)) }

  lemma SortedGroupIsRendered(groups: map<string, Group>, g: string)
    requires ListsAreDistinct(groups) && g in groups
    ensures g in NamesIn(Reading(groups)) && SortedGroup(groups[g]) == Render(Reading(groups))[g]
  {
    hide Reading, Sort, SortedSet;
    var facts := Reading(groups);
    StringOrder();
    assert Name(g) in facts;
    assert Parent(g) in facts <==> groups[g].children.Some?;
    assert Holder(g) in facts <==> groups[g].hosts.Some?;
    if groups[g].children.Some? {
      ChildrenAreListed(groups, g);
      SortOfDistinct(StringLe, groups[g].children.value);
    }
    if groups[g].hosts.Some? {
      MembersAreListed(groups, g);
      SortOfDistinct(StringLe, groups[g].hosts.value);
    }
  }

  lemma ChildrenAreListed(groups: map<string, Group>, g: string)
    requires g in groups && groups[g].children.Some?
    ensures ChildrenIn(Reading(groups), g) == Elements(groups[g].children.value)
  {
    hide Reading;
    forall c ensures c in ChildrenIn(Reading(groups), g) <==> c in Elements(groups[g].children.value) {
      assert Child(g, c) in Reading(groups) <==> c in groups[g].children.value;
    }
  }

  lemma MembersAreListed(groups: map<string, Group>, g: string)
    requires g in groups && groups[g].hosts.Some?
    ensures MembersIn(Reading(groups), g) == Elements(groups[g].hosts.value)
  {
    hide Reading;
    forall h ensures h in MembersIn(Reading(groups), g) <==> h in Elements(groups[g].hosts.value) {
      assert Member(g, h) in Reading(groups) <==> h in groups[g].hosts.value;
    }
  }

  /** Sorting the lists of a dictionary gives the inventory that its facts describe. */
  lemma SortedDictionaryIsRendered(groups: map<string, Group>)
    requires ListsAreDistinct(groups)
    ensures (map g | g in groups :: SortedGroup(groups[g])) == Render(Reading(groups))
  {
    hide Reading, SortedGroup, ListsAreDistinct;
    forall g | g in groups
      ensures g in NamesIn(Reading(groups)) && SortedGroup(groups[g]) == Render(Reading(groups))[g]
    {
      SortedGroupIsRendered(groups, g);
    }
  }

  lemma BaseReading(all: string, management: string, slurm: string, host: string)
    requires all != management && all != slurm && management != slurm
    ensures Reading(map[all := Group(Some([management, slurm]), None),
                        management := Group(None, Some([host])),
                        slurm := Group(Some([]), None)])
            == RootFacts(all, management, slurm, host)
  {
    hide Reading;
  }

  lemma ReadingOfChild(before: map<string, Group>, parent: string, child: string, children: seq<string>)
    requires parent in before
    requires var listed := if before[parent].children.Some? then before[parent].children.value else [];
             children == if child in listed then listed else listed + [child]
    ensures Reading(before[parent := before[parent].(children := Some(children))])
            == Reading(before) + {Parent(parent), Child(parent, child)}
  {
    hide Reading;
  }

  lemma ReadingOfHost(before: map<string, Group>, name: string, host: string, hosts: seq<string>)
    requires name in before
    requires var listed := if before[name].hosts.Some? then before[name].hosts.value else [];
             hosts == if host in listed then listed else listed + [host]
    ensures Reading(before[name := before[name].(hosts := Some(hosts))])
            == Reading(before) + {Holder(name), Member(name, host)}
  {
    hide Reading;
  }

  /** A new group brings its name and at most the key of its empty list. */
  lemma ReadingOfNew(before: map<string, Group>, name: string, group: Group)
    requires name !in before && (group == Group(Some([]), None) || group == Group(None, Some([])))
    ensures Reading(before[name := group])
            == Reading(before) + {Name(name), if group.children.Some? then Parent(name) else Holder(name)}
  {
    hide Reading;
  }

  /* ----- The builder ----- */

  ghost function GroupsOf(settings: Settings, ms: seq<Machine>): map<string, Group> {
    Render(AllFacts(settings, Placements(settings, ms)))
  }

  /** The host variables: the last eligible machine of a name wins. */
  function HostVarsMap(settings: Settings, ms: seq<Machine>): map<string, HostVars> {
    if ms == [] then map["localhost" := LocalHost]
    else
      var before, m := HostVarsMap(settings, ms[..|ms| - 1]), ms[|ms| - 1];
      if Eligible(settings, m) then before[HostName(m) := HostVarsOf(settings, m)] else before
  }

  class Builder {
    const settings: Settings
    var groups: map<string, Group>
    var hostvars: map<string, HostVars>

    constructor (settings: Settings)
      ensures this.settings == settings && hostvars == HostVarsMap(settings, [])
      ensures Reading(groups) == BaseFacts() && ListsAreDistinct(groups)
    {
      this.settings := settings;
      hostvars := map["localhost" := LocalHost];
      groups := map[
        "all" := Group(Some(["management", "slurm"]), None),
        "management" := Group(None, Some(["localhost"])),
        "slurm" := Group(Some([]), None)];
      new;
      hide Reading;
      BaseReading("all", "management", "slurm", "localhost");
    }

    /** Python's `setdefault` on the inventory, for a group with one empty list. */
    method SetDefault(name: string, group: Group)
      requires ListsAreDistinct(groups)
      requires group == Group(Some([]), None) || group == Group(None, Some([]))
      modifies this`groups
      ensures ListsAreDistinct(groups) && groups.Keys == old(groups.Keys) + {name}
      ensures old(Reading(groups)) + {Name(name)} <= Reading(groups)
              <= old(Reading(groups)) + {Name(name), if group.children.Some? then Parent(name) else Holder(name)}
    {
      if name in groups {
        assert Name(name) in Reading(groups);
      } else {
        ReadingOfNew(groups, name, group);
        groups := groups[name := group];
      }
    }

    /** Adds a child to a group's list, which it makes if absent, unless the child is listed. */
    method AddChild(parent: string, child: string)
      requires parent in groups && ListsAreDistinct(groups)
      modifies this`groups
      ensures ListsAreDistinct(groups) && groups.Keys == old(groups.Keys)
      ensures Reading(groups) == old(Reading(groups)) + {Parent(parent), Child(parent, child)}
    {
      hide Reading;
      var group := groups[parent];
      var children := if group.children.Some? then group.children.value else [];
      if child !in children { children := children + [child]; }
      ReadingOfChild(groups, parent, child, children);
      groups := groups[parent := group.(children := Some(children))];
    }

    method AddHost(name: string, host: string)
      requires name in groups && ListsAreDistinct(groups)
      modifies this`groups
      ensures ListsAreDistinct(groups) && groups.Keys == old(groups.Keys)
      ensures Reading(groups) == old(Reading(groups)) + {Holder(name), Member(name, host)}
    {
      hide Reading;
      var group := groups[name];
      var hosts := if group.hosts.Some? then group.hosts.value else [];
      if host !in hosts { hosts := hosts + [host]; }
      ReadingOfHost(groups, name, host, hosts);
      groups := groups[name := group.(hosts := Some(hosts))];
    }

    /** The extra group of a role, alongside the type's own. */
    method AddRole(matches: bool, role: string, child: string)
      requires ListsAreDistinct(groups)
      modifies this`groups
      ensures ListsAreDistinct(groups) && old(groups.Keys) <= groups.Keys
      ensures Reading(groups) == old(Reading(groups)) + if matches then ExtraFacts(role, child) else {}
    {
      hide Reading, ListsAreDistinct;
      if matches {
        SetDefault(role, Group(Some([]), None));
        AddChild(role, child);
      }
    }

    method MakeGroups(cluster: string, kind: string, clusterKind: string)
      requires ListsAreDistinct(groups)
      modifies this`groups
      ensures ListsAreDistinct(groups) && groups.Keys == old(groups.Keys) + {cluster, kind, clusterKind}
      ensures old(Reading(groups)) + {Name(cluster), Name(kind), Name(clusterKind)} <= Reading(groups)
              <= old(Reading(groups)) + {Name(cluster), Name(kind), Name(clusterKind),
                                         Parent(cluster), Parent(kind), Holder(clusterKind)}
    {
      hide Reading, ListsAreDistinct;
      SetDefault(cluster, Group(Some([]), None));
      SetDefault(kind, Group(Some([]), None));
      SetDefault(clusterKind, Group(None, Some([])));
    }

    method LinkParents(all: string, slurm: string, cluster: string, kind: string, clusterKind: string)
      requires ListsAreDistinct(groups) && {all, slurm, cluster, kind} <= groups.Keys
      modifies this`groups
      ensures ListsAreDistinct(groups) && groups.Keys == old(groups.Keys)
      ensures Reading(groups) == old(Reading(groups))
              + {Parent(all), Parent(slurm), Parent(cluster), Parent(kind), Child(all, cluster), Child(slurm, cluster),
                 Child(cluster, clusterKind), Child(kind, clusterKind), Child(slurm, kind)}
    {
      hide Reading, ListsAreDistinct, Holds;
      AddChild(all, cluster);
      AddChild(slurm, cluster);
      AddChild(cluster, clusterKind);
      AddChild(kind, clusterKind);
      AddChild(slurm, kind);
    }

    method Link(all: string, slurm: string, cluster: string, kind: string, clusterKind: string, host: string)
      requires ListsAreDistinct(groups) && {all, slurm} <= groups.Keys
      modifies this`groups
      ensures ListsAreDistinct(groups) && old(groups.Keys) <= groups.Keys
      ensures Reading(groups) == old(Reading(groups)) + LinkFacts(all, slurm, cluster, kind, clusterKind, host)
    {
      hide Reading, ListsAreDistinct, Holds;
      MakeGroups(cluster, kind, clusterKind);
      LinkParents(all, slurm, cluster, kind, clusterKind);
      AddHost(clusterKind, host);
    }

    /** The loop body for an eligible machine. */
    method AddMachine(m: Machine)
      requires Eligible(settings, m) && ListsAreDistinct(groups) && {"all", "slurm"} <= groups.Keys
      modifies this
      ensures ListsAreDistinct(groups) && old(groups.Keys) <= groups.Keys
      ensures Reading(groups) == old(Reading(groups)) + FactsOf(settings, PlacementOf(settings, m))
      ensures hostvars == old(hostvars)[HostName(m) := HostVarsOf(settings, m)]
    {
      hide Reading, ListsAreDistinct, HostName, LinkFacts, ExtraFacts,
           Placement.ClusterGroup, Placement.TypeGroup, Placement.ClusterTypeGroup;
      var p := PlacementOf(settings, m);
      hostvars := hostvars[p.host := HostVarsOf(settings, m)];
      Link("all", "slurm", p.ClusterGroup(), p.TypeGroup(), p.ClusterTypeGroup(), p.host);
      AddRole(p.nodeType == settings.controllerNodeType, "controller", p.ClusterTypeGroup());
      AddRole(p.nodeType == settings.computeNodeType, "compute", p.ClusterTypeGroup());
    }

    /** The final loop over the groups. */
    method SortLists()
      requires ListsAreDistinct(groups)
      modifies this`groups
      ensures groups == Render(old(Reading(groups)))
    {
      var todo := groups.Keys;
      while todo != {}
        invariant todo <= groups.Keys == old(groups).Keys
        invariant forall g :: g in groups ==>
                    groups[g] == if g in todo then old(groups)[g] else SortedGroup(old(groups)[g])
        decreases todo
      {
        var g :| g in todo;
        groups := groups[g := SortedGroup(groups[g])];
        todo := todo - {g};
      }
      assert groups == map g | g in old(groups) :: SortedGroup(old(groups)[g]);
      SortedDictionaryIsRendered(old(groups));
    }

    method Build(machines: seq<Machine>)
      requires Reading(groups) == BaseFacts() && ListsAreDistinct(groups) && hostvars == HostVarsMap(settings, [])
      modifies this
      ensures groups == GroupsOf(settings, machines) && hostvars == HostVarsMap(settings, machines)
    {
      hide FactsOf, Reading, ListsAreDistinct;
      assert {"all", "slurm"} <= groups.Keys by {
        assert Name("all") in Reading(groups) && Name("slurm") in Reading(groups);
      }
      for i := 0 to |machines|
        invariant ListsAreDistinct(groups) && {"all", "slurm"} <= groups.Keys
        invariant Reading(groups) == AllFacts(settings, Placements(settings, machines[..i]))
        invariant hostvars == HostVarsMap(settings, machines[..i])
      {
        var m := machines[i];
        assert machines[..i + 1][..i] == machines[..i];
        PlacementsNext(settings, machines, i);
        if Eligible(settings, m) { AddMachine(m); }
      }
      assert machines[..|machines|] == machines;
      SortLists();
    }
  }

  lemma PlacementsNext(settings: Settings, ms: seq<Machine>, i: nat)
    requires i < |ms|
    ensures AllFacts(settings, Placements(settings, ms[..i + 1]))
            == AllFacts(settings, Placements(settings, ms[..i]))
               + if Eligible(settings, ms[i]) then FactsOf(settings, PlacementOf(settings, ms[i])) else {}
  {
    hide FactsOf;
    assert ms[..i + 1] == ms[..i] + [ms[i]];
    assert Placements(settings, ms[..i + 1])
        == Placements(settings, ms[..i]) + if Eligible(settings, ms[i]) then {PlacementOf(settings, ms[i])} else {};
  }

  /* ----- What the inventory depends on ----- */

  /** Order independence: the groups are a function of the set of placements, so permuting or
      repeating the machines, or adding ineligible ones, changes no group. */
  lemma GroupsDependOnPlacements(settings: Settings, ms: seq<Machine>, ms': seq<Machine>)
    requires forall m :: Eligible(settings, m) ==> (m in ms <==> m in ms')
    ensures GroupsOf(settings, ms) == GroupsOf(settings, ms')
  {
    assert Placements(settings, ms) == Placements(settings, ms');
  }

  /** The lists of the groups are sorted, without repetitions, and hold what the facts say. */
  lemma ListsAreSortedSets(settings: Settings, ms: seq<Machine>, g: string)
    requires g in GroupsOf(settings, ms)
    ensures var facts, group := AllFacts(settings, Placements(settings, ms)), GroupsOf(settings, ms)[g];
            && (group.children.Some? <==> Parent(g) in facts)
            && (group.hosts.Some? <==> Holder(g) in facts)
            && (group.children.Some? ==>
                  && Sorted(StringLe, group.children.value) && Distinct(group.children.value)
                  && forall c :: c in group.children.value <==> Child(g, c) in facts)
            && (group.hosts.Some? ==>
                  && Sorted(StringLe, group.hosts.value) && Distinct(group.hosts.value)
                  && forall h :: h in group.hosts.value <==> Member(g, h) in facts)
  {
    var facts := AllFacts(settings, Placements(settings, ms));
    hide AllFacts, SortedSet, Sorted, Distinct;
    StringOrder();
    var children, members := ChildrenIn(facts, g), MembersIn(facts, g);
    SortedSetIsSorted(StringLe, children);
    SortedSetIsSorted(StringLe, members);
    forall c ensures c in SortedSet(StringLe, children) <==> Child(g, c) in facts {
      assert c in Elements(SortedSet(StringLe, children)) <==> c in children;
    }
    forall h ensures h in SortedSet(StringLe, members) <==> Member(g, h) in facts {
      assert h in Elements(SortedSet(StringLe, members)) <==> h in members;
    }
  }

  /** Two eligible machines of one name carry the same host variables. */
  ghost predicate HostVarsAgree(settings: Settings, ms: seq<Machine>) {
    forall a, b :: a in ms && b in ms && Eligible(settings, a) && Eligible(settings, b) && HostName(a) == HostName(b)
      ==> HostVarsOf(settings, a) == HostVarsOf(settings, b)
  }

  lemma {:induction false} HostVarsOfLast(settings: Settings, ms: seq<Machine>, h: string)
    ensures h in HostVarsMap(settings, ms) <==>
            h == "localhost" || exists m :: m in ms && Eligible(settings, m) && HostName(m) == h
    ensures h in HostVarsMap(settings, ms) ==>
            || (h == "localhost" && HostVarsMap(settings, ms)[h] == LocalHost
                && forall m :: m in ms && Eligible(settings, m) ==> HostName(m) != h)
            || exists m :: m in ms && Eligible(settings, m) && HostName(m) == h
                           && HostVarsMap(settings, ms)[h] == HostVarsOf(settings, m)
  {
    hide HostName, HostVarsOf, Eligible;
    if ms != [] {
      var n := |ms| - 1;
      HostVarsOfLast(settings, ms[..n], h);
      assert ms == ms[..n] + [ms[n]];
      assert forall m :: m in ms <==> m in ms[..n] || m == ms[n];
    }
  }

  lemma HostVarsAreOrderFree(settings: Settings, ms: seq<Machine>, ms': seq<Machine>)
    requires HostVarsAgree(settings, ms) && forall m :: m in ms <==> m in ms'
    ensures HostVarsMap(settings, ms) == HostVarsMap(settings, ms')
  {
    hide HostName, HostVarsOf, Eligible, HostVarsMap;
    forall h ensures h in HostVarsMap(settings, ms) <==> h in HostVarsMap(settings, ms') {
      HostVarsOfLast(settings, ms, h);
      HostVarsOfLast(settings, ms', h);
    }
    forall h | h in HostVarsMap(settings, ms) ensures HostVarsMap(settings, ms)[h] == HostVarsMap(settings, ms')[h] {
      HostVarsOfLast(settings, ms, h);
      HostVarsOfLast(settings, ms', h);
    }
  }

  /** The machines with one of them moved to the end. */
  function MovedLast(ms: seq<Machine>, i: nat): (r: seq<Machine>)
    requires i < |ms|
    ensures multiset(r) == multiset(ms)
  {
    assert ms == ms[..i] + [ms[i]] + ms[i + 1..];
    ms[..i] + ms[i + 1..] + [ms[i]]
  }

  lemma MovedLastWins(settings: Settings, ms: seq<Machine>, i: nat)
    requires i < |ms| && Eligible(settings, ms[i])
    ensures HostName(ms[i]) in HostVarsMap(settings, MovedLast(ms, i))
    ensures HostVarsMap(settings, MovedLast(ms, i))[HostName(ms[i])] == HostVarsOf(settings, ms[i])
  {
    var r := MovedLast(ms, i);
    assert r[..|r| - 1] == ms[..i] + ms[i + 1..] && r[|r| - 1] == ms[i];
  }

  ghost predicate SameHostVars(settings: Settings, ms: seq<Machine>, ms': seq<Machine>) {
    HostVarsMap(settings, ms) == HostVarsMap(settings, ms')
  }

  /** The host variables survive every reordering exactly when machines of one name agree on them:
      the last of the disagreeing machines wins, so listing order then shows. */
  lemma HostVarsOrderIndependence(settings: Settings, ms: seq<Machine>)
    ensures HostVarsAgree(settings, ms) <==>
            forall ms' :: multiset(ms') == multiset(ms) ==> SameHostVars(settings, ms, ms')
  {
    hide HostName, HostVarsOf, Eligible, HostVarsMap, MovedLast;
    if HostVarsAgree(settings, ms) {
      forall ms' | multiset(ms') == multiset(ms) ensures SameHostVars(settings, ms, ms') {
        assert forall m :: (m in ms <==> m in multiset(ms)) && (m in ms' <==> m in multiset(ms'));
        HostVarsAreOrderFree(settings, ms, ms');
      }
    } else {
      var a, b :| a in ms && b in ms && Eligible(settings, a) && Eligible(settings, b) &&
                  HostName(a) == HostName(b) && HostVarsOf(settings, a) != HostVarsOf(settings, b);
      var i :| 0 <= i < |ms| && ms[i] == a;
      var j :| 0 <= j < |ms| && ms[j] == b;
      MovedLastWins(settings, ms, i);
      MovedLastWins(settings, ms, j);
      assert !SameHostVars(settings, ms, MovedLast(ms, i)) || !SameHostVars(settings, ms, MovedLast(ms, j));
    }
  }

  /** The summary's host count is the number of hosts other than the local one. */
  lemma SummaryCountsHosts(settings: Settings, ms: seq<Machine>)
    ensures var hosts := HostVarsMap(settings, ms).Keys - {"localhost"};
            |HostVarsMap(settings, ms)| - 1 == |hosts| &&
            forall h :: h in hosts <==>
                h != "localhost" && exists m :: m in ms && Eligible(settings, m) && HostName(m) == h
  {
    hide HostName, HostVarsOf, Eligible, HostVarsMap;
    var keys := HostVarsMap(settings, ms).Keys;
    forall h
      ensures h in keys <==> h == "localhost" || exists m :: m in ms && Eligible(settings, m) && HostName(m) == h
    {
      HostVarsOfLast(settings, ms, h);
    }
    assert keys == (keys - {"localhost"}) + {"localhost"};
  }

  /** The summary: sorted listings of the clusters, of the hosts and of the groups, and a count. */
  datatype Summary = Summary(clusters: seq<string>, hosts: seq<string>, hostCount: int, groups: seq<string>)

  ghost function ClustersIn(hostVars: map<string, HostVars>): set<string> {
    set h | h in hostVars && h != "localhost" && hostVars[h].MachineHost? && hostVars[h].capiCluster != "" ::
      hostVars[h].capiCluster
  }

  ghost function SummaryOf(settings: Settings, ms: seq<Machine>): Summary {
    var hostVars := HostVarsMap(settings, ms);
    Summary(SortedSet(StringLe, ClustersIn(hostVars)),
            SortedSet(StringLe, hostVars.Keys - {"localhost"}),
            if 0 < |hostVars| - 1 then |hostVars| - 1 else 0,
            SortedSet(StringLe, GroupsOf(settings, ms).Keys))
  }

  ghost predicate IsListing(list: seq<string>) { Sorted(StringLe, list) && Distinct(list) }

  lemma ListingOf(s: set<string>)
    ensures IsListing(SortedSet(StringLe, s)) && |SortedSet(StringLe, s)| == |s|
    ensures forall x :: x in SortedSet(StringLe, s) <==> x in s
  {
    StringOrder();
    SortedSetIsSorted(StringLe, s);
    assert |multiset(SortedSet(StringLe, s))| == |multiset(s)|;
    forall x ensures x in SortedSet(StringLe, s) <==> x in s {
      assert x in SortedSet(StringLe, s) <==> x in Elements(SortedSet(StringLe, s));
    }
  }

  /** An eligible machine of the cluster, which the summary does not pass over as the local host. */
  predicate InCluster(settings: Settings, m: Machine, cluster: string) {
    Eligible(settings, m) && HostName(m) != "localhost" && Lookup(m.labels, CLUSTER_NAME_LABEL) == Some(cluster)
  }

  lemma ClusterIsListed(settings: Settings, ms: seq<Machine>, cluster: string)
    ensures cluster in ClustersIn(HostVarsMap(settings, ms)) ==> exists m :: m in ms && InCluster(settings, m, cluster)
    ensures HostVarsAgree(settings, ms) && (exists m :: m in ms && InCluster(settings, m, cluster)) ==>
              cluster in ClustersIn(HostVarsMap(settings, ms))
  {
    hide HostName, HostVarsMap;
    var hostVars := HostVarsMap(settings, ms);
    if h :| h in hostVars && h != "localhost" && hostVars[h].MachineHost? && hostVars[h].capiCluster == cluster {
      HostVarsOfLast(settings, ms, h);
      var m :| m in ms && Eligible(settings, m) && HostName(m) == h && hostVars[h] == HostVarsOf(settings, m);
      assert InCluster(settings, m, cluster);
    }
    if m :| m in ms && InCluster(settings, m, cluster) && HostVarsAgree(settings, ms) {
      HostVarsOfLast(settings, ms, HostName(m));
    }
  }

  /** The lists of the summary are sorted and free of repetitions. The hosts are the eligible ones, and
      are counted; the groups are all groups; every cluster is that of some eligible machine, and, when
      machines of one name agree on their host variables, no cluster is missing. */
  lemma SummaryIsExact(settings: Settings, ms: seq<Machine>)
    ensures var y := SummaryOf(settings, ms);
            && IsListing(y.clusters) && IsListing(y.hosts) && IsListing(y.groups) && y.hostCount == |y.hosts|
            && (forall h :: h in y.hosts <==>
                 h != "localhost" && exists m :: m in ms && Eligible(settings, m) && HostName(m) == h)
            && (forall g :: g in y.groups <==> g in GroupsOf(settings, ms))
            && (forall c :: c in y.clusters ==> exists m :: m in ms && InCluster(settings, m, c))
            && (HostVarsAgree(settings, ms) ==>
                  forall c :: c in y.clusters <==> exists m :: m in ms && InCluster(settings, m, c))
  {
    hide IsListing, SortedSet, HostVarsMap, GroupsOf, Eligible, HostName, InCluster, ClustersIn, HostVarsAgree;
    var hostVars := HostVarsMap(settings, ms);
    ListingOf(ClustersIn(hostVars));
    ListingOf(hostVars.Keys - {"localhost"});
    ListingOf(GroupsOf(settings, ms).Keys);
    SummaryCountsHosts(settings, ms);
    forall c { ClusterIsListed(settings, ms, c); }
  }

  /* ----- The graph ----- */

  ghost function GraphOf(settings: Settings, ms: seq<Machine>): set<Fact> {
    AllFacts(settings, Placements(settings, ms))
  }

  /** A machine that counts, and the names of its three groups, said on its labels. */
  predicate IsPlaced(settings: Settings, m: Machine, cluster: string, kind: string, clusterKind: string) {
    && settings.nodeTypeLabel in m.labels && "cluster.x-k8s.io/cluster-name" in m.labels
    && m.labels[settings.nodeTypeLabel] != "" && m.labels["cluster.x-k8s.io/cluster-name"] != ""
    && cluster == "cluster_" + Sanitize(m.labels["cluster.x-k8s.io/cluster-name"])
    && kind == Sanitize(m.labels[settings.nodeTypeLabel])
    && clusterKind == kind + "_" + Sanitize(m.labels["cluster.x-k8s.io/cluster-name"])
  }

  /** The role groups that it is put into besides. */
  predicate HasRole(settings: Settings, m: Machine, role: string) {
    && settings.nodeTypeLabel in m.labels
    && (|| (role == "controller" && m.labels[settings.nodeTypeLabel] == settings.controllerNodeType)
        || (role == "compute" && m.labels[settings.nodeTypeLabel] == settings.computeNodeType))
  }

  /** The facts that it brings, fact by fact. */
  predicate Brings(settings: Settings, m: Machine, f: Fact, cluster: string, kind: string, clusterKind: string) {
    && IsPlaced(settings, m, cluster, kind, clusterKind)
    && match f
       case Child(g, c) =>
         || ((g == "all" || g == "slurm") && c == cluster)
         || (g == "slurm" && c == kind)
         || (c == clusterKind && (g == cluster || g == kind || HasRole(settings, m, g)))
       case Member(g, h) => g == clusterKind && h == HostName(m)
       case Holder(g) => g == clusterKind
       case Parent(g) => g == "all" || g == "slurm" || g == cluster || g == kind || HasRole(settings, m, g)
       case Name(g) => g == cluster || g == kind || g == clusterKind || HasRole(settings, m, g)
  }

  /** The facts that are there without any machine. */
  predicate IsRoot(f: Fact) {
    match f
    case Child(g, c) => g == "all" && (c == "management" || c == "slurm")
    case Member(g, h) => g == "management" && h == "localhost"
    case Holder(g) => g == "management"
    case Parent(g) => g == "all" || g == "slurm"
    case Name(g) => g == "all" || g == "management" || g == "slurm"
  }

  lemma PlacedAsPlacement(settings: Settings, ms: seq<Machine>, m: Machine, cluster: string, kind: string,
                          clusterKind: string)
    requires m in ms && IsPlaced(settings, m, cluster, kind, clusterKind)
    ensures Eligible(settings, m) && PlacementOf(settings, m) in Placements(settings, ms)
    ensures var p := PlacementOf(settings, m);
            && p.ClusterGroup() == cluster && p.TypeGroup() == kind && p.ClusterTypeGroup() == clusterKind
  {
    hide Sanitize, HostName;
  }

  lemma PlacementAsPlaced(settings: Settings, ms: seq<Machine>, p: Placement)
    requires p in Placements(settings, ms)
    ensures exists m :: m in ms && Eligible(settings, m) && PlacementOf(settings, m) == p
                         && IsPlaced(settings, m, p.ClusterGroup(), p.TypeGroup(), p.ClusterTypeGroup())
  {
    hide Sanitize, HostName;
    var m :| m in ms && Eligible(settings, m) && PlacementOf(settings, m) == p;
  }

  lemma LinkFactsAre(all: string, slurm: string, cluster: string, kind: string, clusterKind: string, host: string,
                     f: Fact)
    ensures f in LinkFacts(all, slurm, cluster, kind, clusterKind, host) <==>
            match f
            case Child(g, c) =>
              || ((g == all || g == slurm) && c == cluster)
              || (g == slurm && c == kind)
              || (c == clusterKind && (g == cluster || g == kind))
            case Member(g, h) => g == clusterKind && h == host
            case Holder(g) => g == clusterKind
            case Parent(g) => g == all || g == slurm || g == cluster || g == kind
            case Name(g) => g == cluster || g == kind || g == clusterKind
  {
  }

  lemma BroughtFacts(settings: Settings, m: Machine, f: Fact)
    requires Eligible(settings, m)
    ensures var p := PlacementOf(settings, m);
            && IsPlaced(settings, m, p.ClusterGroup(), p.TypeGroup(), p.ClusterTypeGroup())
            && (f in FactsOf(settings, p) <==>
                Brings(settings, m, f, p.ClusterGroup(), p.TypeGroup(), p.ClusterTypeGroup()))
  {
    var p := PlacementOf(settings, m);
    LinkFactsAre("all", "slurm", p.ClusterGroup(), p.TypeGroup(), p.ClusterTypeGroup(), p.host, f);
    hide Sanitize, HostName, LinkFacts;
  }

  lemma RootsAre(f: Fact)
    ensures f in BaseFacts() <==> IsRoot(f)
  {
  }

  /** The graph, exactly: its facts are the roots and what the machines bring. */
  lemma GraphIs(settings: Settings, ms: seq<Machine>, f: Fact)
    ensures f in GraphOf(settings, ms) <==>
            || IsRoot(f)
            || exists m, cluster, kind, clusterKind ::
                 m in ms && Brings(settings, m, f, cluster, kind, clusterKind)
  {
    hide FactsOf, BaseFacts, IsRoot, Brings, PlacementOf, Placements, IsPlaced, Placement.ClusterGroup,
         Placement.TypeGroup, Placement.ClusterTypeGroup;
    RootsAre(f);
    if p :| p in Placements(settings, ms) && f in FactsOf(settings, p) {
      PlacementAsPlaced(settings, ms, p);
      var m :| m in ms && Eligible(settings, m) && PlacementOf(settings, m) == p;
      BroughtFacts(settings, m, f);
    }
    if m, cluster, kind, clusterKind :| m in ms && Brings(settings, m, f, cluster, kind, clusterKind) {
      BringerIsPlaced(settings, m, f, cluster, kind, clusterKind);
      PlacedAsPlacement(settings, ms, m, cluster, kind, clusterKind);
      BroughtFacts(settings, m, f);
    }
  }

  lemma BringerIsPlaced(settings: Settings, m: Machine, f: Fact, cluster: string, kind: string, clusterKind: string)
    requires Brings(settings, m, f, cluster, kind, clusterKind)
    ensures IsPlaced(settings, m, cluster, kind, clusterKind)
  {
  }

  /** An eligible machine whose cluster's group of its type is c, and whose type is the given one or
      makes a group of the given name. */
  predicate ListedIn(settings: Settings, m: Machine, role: string, nodeType: string, cluster: string, kind: string,
                     c: string) {
    IsPlaced(settings, m, cluster, kind, c) && (m.labels[settings.nodeTypeLabel] == nodeType || kind == role)
  }

  predicate IsRole(settings: Settings, role: string, nodeType: string) {
    || (role == "controller" && nodeType == settings.controllerNodeType)
    || (role == "compute" && nodeType == settings.computeNodeType)
  }

  lemma RoleNames(settings: Settings, role: string, nodeType: string)
    requires IsRole(settings, role, nodeType)
    ensures role != "all" && role != "slurm" && forall cluster: string :: role != "cluster_" + cluster
    ensures forall m: Machine :: settings.nodeTypeLabel in m.labels ==>
              (HasRole(settings, m, role) <==> m.labels[settings.nodeTypeLabel] == nodeType)
  {
    assert "controller"[1] == 'o' && "compute"[1] == 'o' && |"controller"| == 10 && |"compute"| == 7;
    assert forall cluster: string :: ("cluster_" + cluster)[1] == 'l';
  }

  lemma RoleChild(settings: Settings, m: Machine, role: string, nodeType: string, c: string, cluster: string,
                  kind: string, clusterKind: string)
    requires IsRole(settings, role, nodeType)
    ensures Brings(settings, m, Child(role, c), cluster, kind, clusterKind) <==>
            c == clusterKind && ListedIn(settings, m, role, nodeType, cluster, kind, c)
  {
    RoleNames(settings, role, nodeType);
    hide Sanitize, HasRole, IsRole;
  }

  /** So the group of the controllers lists the cluster's group of every eligible machine that has the
      configured type, and besides those only what a type of that very name brings; and likewise that
      of the compute nodes. */
  lemma RolesAre(settings: Settings, ms: seq<Machine>, role: string, nodeType: string, c: string)
    requires || (role == "controller" && nodeType == settings.controllerNodeType)
             || (role == "compute" && nodeType == settings.computeNodeType)
    ensures Child(role, c) in GraphOf(settings, ms) <==>
            exists m, cluster, kind :: m in ms && ListedIn(settings, m, role, nodeType, cluster, kind, c)
  {
    assert IsRole(settings, role, nodeType);
    RoleNames(settings, role, nodeType);
    GraphIs(settings, ms, Child(role, c));
    hide GraphOf, Brings, ListedIn, IsRole;
    if m, cluster, kind, clusterKind :| m in ms && Brings(settings, m, Child(role, c), cluster, kind, clusterKind) {
      RoleChild(settings, m, role, nodeType, c, cluster, kind, clusterKind);
    }
    if m, cluster, kind :| m in ms && ListedIn(settings, m, role, nodeType, cluster, kind, c) {
      RoleChild(settings, m, role, nodeType, c, cluster, kind, c);
    }
  }

  /** The groups that a fact mentions are groups among some facts. */
  ghost predicate Grounded(facts: set<Fact>, f: Fact) {
    Name(f.group) in facts && (f.Child? ==> Name(f.child) in facts)
  }

  lemma LinkIsGrounded(all: string, slurm: string, cluster: string, kind: string, clusterKind: string, host: string)
    ensures var facts := LinkFacts(all, slurm, cluster, kind, clusterKind, host);
            forall f :: f in facts ==> Grounded(facts + {Name(all), Name(slurm)}, f) && (f.Member? ==> f.host == host)
  {
  }

  lemma PlacementIsGrounded(settings: Settings, p: Placement, f: Fact)
    requires f in FactsOf(settings, p)
    ensures Grounded(FactsOf(settings, p) + {Name("all"), Name("slurm")}, f) && (f.Member? ==> f.host == p.host)
  {
    LinkIsGrounded("all", "slurm", p.ClusterGroup(), p.TypeGroup(), p.ClusterTypeGroup(), p.host);
    assert Name(p.ClusterTypeGroup())
        in LinkFacts("all", "slurm", p.ClusterGroup(), p.TypeGroup(), p.ClusterTypeGroup(), p.host);
    hide LinkFacts, Placement.ClusterGroup, Placement.TypeGroup, Placement.ClusterTypeGroup;
  }

  lemma RootsAreGrounded(all: string, management: string, slurm: string, host: string)
    ensures var facts := RootFacts(all, management, slurm, host);
            && Name(all) in facts && Name(slurm) in facts
            && forall f :: f in facts ==> Grounded(facts, f) && (f.Member? ==> f.host == host)
  {
  }

  /** Closure: every named child is a group and every listed host has variables. */
  lemma GraphIsClosed(settings: Settings, ms: seq<Machine>, f: Fact)
    requires f in GraphOf(settings, ms)
    ensures Grounded(GraphOf(settings, ms), f)
    ensures f.Member? ==> f.host in HostVarsMap(settings, ms)
  {
    hide HostName, HostVarsOf, HostVarsMap, FactsOf, RootFacts;
    if f.Member? { HostVarsOfLast(settings, ms, f.host); }
    RootsAreGrounded("all", "management", "slurm", "localhost");
    if f !in BaseFacts() {
      var p :| p in Placements(settings, ms) && f in FactsOf(settings, p);
      PlacementIsGrounded(settings, p, f);
      forall n | n in FactsOf(settings, p) ensures n in GraphOf(settings, ms) { }
    }
  }

  ghost predicate IsWalk(facts: set<Fact>, walk: seq<string>) {
    walk != [] && forall i :: 0 < i < |walk| ==> Child(walk[i - 1], walk[i]) in facts
  }

  lemma TwoSteps(facts: set<Fact>, a: string, b: string, c: string)
    requires Child(a, b) in facts && Child(b, c) in facts
    ensures IsWalk(facts, [a, b, c])
  {
  }

  lemma FactsAreInGraph(settings: Settings, ms: seq<Machine>, p: Placement)
    requires p in Placements(settings, ms)
    ensures BaseFacts() + FactsOf(settings, p) <= GraphOf(settings, ms)
  {
    hide Placements, FactsOf, BaseFacts;
  }

  lemma LinksOf(settings: Settings, p: Placement)
    ensures Child("all", p.ClusterGroup()) in FactsOf(settings, p)
    ensures Child("slurm", p.TypeGroup()) in FactsOf(settings, p)
    ensures Child(p.ClusterGroup(), p.ClusterTypeGroup()) in FactsOf(settings, p)
    ensures Child(p.TypeGroup(), p.ClusterTypeGroup()) in FactsOf(settings, p)
    ensures Member(p.ClusterTypeGroup(), p.host) in FactsOf(settings, p)
  {
    hide Placement.ClusterGroup, Placement.TypeGroup, Placement.ClusterTypeGroup, ExtraFacts;
  }

  /** Every eligible machine's host hangs below `all` through its cluster, and below `slurm`
      through its node type. */
  lemma HostsAreReachable(settings: Settings, ms: seq<Machine>, m: Machine)
    requires m in ms && Eligible(settings, m)
    ensures var p := PlacementOf(settings, m);
            && IsWalk(GraphOf(settings, ms), ["all", p.ClusterGroup(), p.ClusterTypeGroup()])
            && IsWalk(GraphOf(settings, ms), ["slurm", p.TypeGroup(), p.ClusterTypeGroup()])
            && Member(p.ClusterTypeGroup(), HostName(m)) in GraphOf(settings, ms)
  {
    var p := PlacementOf(settings, m);
    FactsAreInGraph(settings, ms, p);
    LinksOf(settings, p);
    hide Placements, GraphOf, FactsOf, HostName, Placement.ClusterGroup, Placement.TypeGroup,
         Placement.ClusterTypeGroup, IsWalk;
    TwoSteps(GraphOf(settings, ms), "all", p.ClusterGroup(), p.ClusterTypeGroup());
    TwoSteps(GraphOf(settings, ms), "slurm", p.TypeGroup(), p.ClusterTypeGroup());
  }

  ghost predicate Acyclic(facts: set<Fact>) {
    forall walk :: IsWalk(facts, walk) && 2 <= |walk| ==> walk[0] != walk[|walk| - 1]
  }

  /** A node type whose group name collides with a name that the builder itself uses. */
  predicate CollidingType(nodeType: string) { Sanitize(nodeType) in {"all", "slurm", "cluster"} }

  /** Names ranked so that every edge climbs: first by kind, then by length. */
  function Rank(name: string): nat {
    if name == "all" then 0
    else if name == "slurm" then 1
    else if name == "controller" || name == "compute" then 2
    else if "cluster_" <= name then 3
    else 4
  }

  predicate Below(a: string, b: string) { Rank(a) < Rank(b) || (Rank(a) == Rank(b) && |a| < |b|) }

  lemma WithUnderscore(kind: string, cluster: string)
    requires kind != ""
    ensures Rank(kind + "_" + cluster) >= 3
  {
    var name := kind + "_" + cluster;
    assert name[|kind|] == '_';
    assert forall i :: 0 <= i < |"all"| ==> "all"[i] != '_';
    assert forall i :: 0 <= i < |"slurm"| ==> "slurm"[i] != '_';
    assert forall i :: 0 <= i < |"controller"| ==> "controller"[i] != '_';
    assert forall i :: 0 <= i < |"compute"| ==> "compute"[i] != '_';
  }

  /** Only a type that itself starts with `cluster_`, or is `cluster`, makes a name that does. */
  lemma ClusterPrefix(kind: string, cluster: string)
    requires kind != "" && kind != "cluster"
    ensures "cluster_" <= kind + "_" + cluster <==> "cluster_" <= kind
  {
    var name := kind + "_" + cluster;
    assert forall i :: 0 <= i < |kind| ==> name[i] == kind[i];
    assert name[|kind|] == '_';
    assert "cluster_"[..7] == "cluster";
    assert forall i :: 0 <= i < 7 ==> "cluster"[i] != '_';
    assert "cluster_" <= name ==> name[..7] == "cluster" && name[..8] == "cluster_";
    assert |kind| == 7 ==> kind == name[..7];
    assert 8 <= |kind| ==> kind[..8] == name[..8];
  }

  /** How the groups of a placement rank, when its type collides with nothing. */
  lemma GroupsClimb(p: Placement)
    requires !CollidingType(p.nodeType)
    ensures Rank(p.ClusterGroup()) == 3 && 2 <= Rank(p.TypeGroup())
    ensures Below(p.ClusterGroup(), p.ClusterTypeGroup()) && Below(p.TypeGroup(), p.ClusterTypeGroup())
    ensures Rank("all") == 0 && Rank("slurm") == 1
    ensures Rank("controller") == Rank("compute") == 2 <= Rank(p.ClusterTypeGroup()) - 1
  {
    var c, t := p.ClusterName(), p.TypeGroup();
    SanitizedIsGroupName(p.nodeType);
    hide Sanitize, IsGroupName;
    WithUnderscore("cluster", c);
    WithUnderscore(t, c);
    ClusterPrefix(t, c);
    assert "cluster" + "_" + c == "cluster_" + c == p.ClusterGroup();
    assert p.ClusterTypeGroup() == t + "_" + c;
    assert |p.ClusterGroup()| == 8 + |c| && |p.ClusterTypeGroup()| == |t| + 1 + |c|;
    assert Rank(t) == 3 ==> 8 <= |t|;
  }

  /** Without colliding types every edge climbs. */
  lemma LinkClimbs(settings: Settings, p: Placement, f: Fact)
    requires f in FactsOf(settings, p) && f.Child? && !CollidingType(p.nodeType)
    ensures Below(f.group, f.child)
  {
    hide Rank, CollidingType, Placement.ClusterGroup, Placement.TypeGroup, Placement.ClusterTypeGroup;
    GroupsClimb(p);
  }

  ghost predicate Climbs(facts: set<Fact>) {
    forall a, b :: Child(a, b) in facts ==> Below(a, b)
  }

  lemma {:induction false} WalksClimb(facts: set<Fact>, walk: seq<string>)
    requires Climbs(facts) && IsWalk(facts, walk) && 2 <= |walk|
    ensures Below(walk[0], walk[|walk| - 1])
  {
    hide Rank;
    var n := |walk| - 1;
    assert Child(walk[n - 1], walk[n]) in facts;
    if 2 < |walk| { WalksClimb(facts, walk[..n]); }
  }

  lemma RootsClimb(a: string, b: string)
    requires Child(a, b) in BaseFacts()
    ensures Below(a, b)
  {
    assert Child(a, b) == Child("all", "management") || Child(a, b) == Child("all", "slurm");
  }

  lemma GraphClimbs(settings: Settings, ms: seq<Machine>)
    requires forall p :: p in Placements(settings, ms) ==> !CollidingType(p.nodeType)
    ensures Climbs(GraphOf(settings, ms))
  {
    hide FactsOf, BaseFacts, Below, CollidingType, Placements;
    forall a, b | Child(a, b) in GraphOf(settings, ms) ensures Below(a, b) {
      if Child(a, b) in BaseFacts() {
        RootsClimb(a, b);
      } else {
        var p :| p in Placements(settings, ms) && Child(a, b) in FactsOf(settings, p);
        LinkClimbs(settings, p, Child(a, b));
      }
    }
  }

  lemma CollisionMakesCycle(settings: Settings, ms: seq<Machine>, p: Placement)
    requires p in Placements(settings, ms) && CollidingType(p.nodeType)
    ensures !Acyclic(GraphOf(settings, ms))
  {
    var facts := GraphOf(settings, ms);
    FactsAreInGraph(settings, ms, p);
    LinksOf(settings, p);
    SlurmIsBelowAll();
    CollidingGroups(p);
    hide GraphOf, FactsOf, BaseFacts, Placements, Acyclic, CollidingType,
         Placement.ClusterGroup, Placement.TypeGroup, Placement.ClusterTypeGroup;
    if p.TypeGroup() == "slurm" {
      SelfLoop(facts, "slurm");
    } else if p.TypeGroup() == "all" {
      TwoCycle(facts, "slurm", "all");
    } else {
      SelfLoop(facts, p.ClusterGroup());
    }
  }

  lemma SlurmIsBelowAll()
    ensures Child("all", "slurm") in BaseFacts()
  {
  }

  lemma CollidingGroups(p: Placement)
    requires CollidingType(p.nodeType)
    ensures p.TypeGroup() == "slurm" || p.TypeGroup() == "all" || p.ClusterGroup() == p.ClusterTypeGroup()
  {
    hide Sanitize;
    assert "cluster" + "_" + p.ClusterName() == "cluster_" + p.ClusterName();
  }

  lemma SelfLoop(facts: set<Fact>, a: string)
    requires Child(a, a) in facts
    ensures !Acyclic(facts)
  {
    var walk := [a, a];
    assert IsWalk(facts, walk) && walk[0] == walk[|walk| - 1];
  }

  lemma TwoCycle(facts: set<Fact>, a: string, b: string)
    requires Child(a, b) in facts && Child(b, a) in facts
    ensures !Acyclic(facts)
  {
    var walk := [a, b, a];
    assert IsWalk(facts, walk) && walk[0] == walk[|walk| - 1];
  }

  /** The group graph is acyclic exactly when no eligible machine has a node type whose sanitised
      name is `all`, `slurm` or `cluster`. */
  lemma GraphIsAcyclic(settings: Settings, ms: seq<Machine>)
    ensures Acyclic(GraphOf(settings, ms)) <==>
            forall m :: m in ms && Eligible(settings, m) ==> !CollidingType(m.labels[settings.nodeTypeLabel])
  {
    hide AllFacts, CollidingType, HostName, Acyclic;
    if m :| m in ms && Eligible(settings, m) && CollidingType(m.labels[settings.nodeTypeLabel]) {
      assert PlacementOf(settings, m) in Placements(settings, ms);
      CollisionMakesCycle(settings, ms, PlacementOf(settings, m));
    } else {
      GraphClimbs(settings, ms);
      ClimbingIsAcyclic(GraphOf(settings, ms));
    }
  }

  lemma ClimbingIsAcyclic(facts: set<Fact>)
    requires Climbs(facts)
    ensures Acyclic(facts)
  {
    hide Rank, Climbs;
    forall walk | IsWalk(facts, walk) && 2 <= |walk| ensures walk[0] != walk[|walk| - 1] {
      WalksClimb(facts, walk);
    }
  }
}
