/** The dynamic resource for a local image registry that ctlptl manages: its provider hooks, the
    engine that calls them, and what whole runs of that engine keep. */
module CtlptlRegistry {
  import opened Wrappers

  const DEFAULT_ENV: seq<string> := ["REGISTRY_PROXY_REMOTEURL=https://mirror.gcr.io"]

  /** A resource's dictionary, as inputs or as outputs; an absent key is None. A port of 0, like an
      absent one, leaves the port to ctlptl. */
  datatype Props = Props(
    registryName: Option<string>, port: Option<nat>, env: Option<seq<string>>,
    adoptExisting: Option<bool>, adopted: Option<bool>, deleteOnDestroy: Option<bool>, seed: Option<string>)

  const NO_PROPS := Props(None, None, None, None, None, None, None)

  datatype Registry = Registry(port: nat, env: seq<string>)

  /** The registries that ctlptl knows, by name. */
  type World = map<string, Registry>

  /** One entry of ctlptl's list. */
  datatype Item = Item(name: Option<string>, port: Option<nat>, env: seq<string>)

  datatype Handle = Handle(id: string, props: Props)

  /* ----- Property readers ----- */

  function BoolProp(value: Option<bool>, default: bool): bool { if value.Some? then value.value else default }

  function AdoptExisting(p: Props): bool { BoolProp(p.adoptExisting, true) }
  function DeleteOnDestroy(p: Props): bool { BoolProp(p.deleteOnDestroy, false) }
  function Adopted(p: Props): bool { BoolProp(p.adopted, false) }

  /** The port that is pinned, or 0. */
  function PortProp(p: Props): nat { if p.port.Some? then p.port.value else 0 }

  /** The name that is pinned, or the empty string. */
  function NameProp(p: Props): string { if p.registryName.Some? then p.registryName.value else "" }

  function EnvProp(p: Props): Option<seq<string>> {
    match p.env
    case None => Some(DEFAULT_ENV)
    case Some(env) => if env == [] then None else Some(env)
  }

  /* ----- Adoption ----- */

  predicate StartsWith(s: string, prefix: string) { prefix <= s }

  predicate EnvIsCompatible(item: Item, env: Option<seq<string>>) {
    env.Some? ==> forall e :: e in env.value ==> e in item.env
  }

  /** A named, compatible item under the prefix. */
  predicate Candidate(item: Item, prefix: string, env: Option<seq<string>>) {
    item.name.Some? && item.name.value != "" && StartsWith(item.name.value, prefix) && EnvIsCompatible(item, env)
  }

  predicate HasPort(item: Item) { item.port.Some? && item.port.value != 0 }

  /** The item that ends the search: a candidate of the wanted port, or one without a port. */
  predicate EndsSearch(item: Item, prefix: string, env: Option<seq<string>>, port: nat) {
    Candidate(item, prefix, env) && (HasPort(item) ==> port == 0 || item.port.value == port)
  }

  datatype Search = NoMatch | Match(name: string, port: nat) | NoObservedPort

  /** What the search finds in a list. */
  ghost predicate IsFirstMatch(items: seq<Item>, prefix: string, env: Option<seq<string>>, port: nat, r: Search) {
    match r
    case NoMatch => forall i :: 0 <= i < |items| ==> !EndsSearch(items[i], prefix, env, port)
    case Match(name, p) => exists i :: 0 <= i < |items| && FirstEnding(items, prefix, env, port, i) && HasPort(items[i])
                                       && items[i].name == Some(name) && items[i].port == Some(p)
    case NoObservedPort =>
      exists i :: 0 <= i < |items| && FirstEnding(items, prefix, env, port, i) && !HasPort(items[i])
  }

  ghost predicate FirstEnding(items: seq<Item>, prefix: string, env: Option<seq<string>>, port: nat, i: nat) {
    && i < |items| && EndsSearch(items[i], prefix, env, port)
    && forall j :: 0 <= j < i ==> !EndsSearch(items[j], prefix, env, port)
  }

  function FirstMatch(items: seq<Item>, prefix: string, env: Option<seq<string>>, port: nat): Search {
    if items == [] then NoMatch
    else if !EndsSearch(items[0], prefix, env, port) then FirstMatch(items[1..], prefix, env, port)
    else if HasPort(items[0]) then Match(items[0].name.value, items[0].port.value)
    else NoObservedPort
  }

  /** The recursion finds the first item that ends the search, and nothing else is its answer. */
  lemma {:induction false} FirstMatchIsExact(items: seq<Item>, prefix: string, env: Option<seq<string>>, port: nat,
                                             r: Search)
    ensures r == FirstMatch(items, prefix, env, port) <==> IsFirstMatch(items, prefix, env, port, r)
  {
    if items != [] {
      var rest := items[1..];
      FirstMatchIsExact(rest, prefix, env, port, r);
      if EndsSearch(items[0], prefix, env, port) {
        assert FirstEnding(items, prefix, env, port, 0);
        forall i: nat | FirstEnding(items, prefix, env, port, i) ensures i == 0 { }
      } else {
        forall i: nat | i < |rest|
          ensures FirstEnding(items, prefix, env, port, i + 1) <==> FirstEnding(rest, prefix, env, port, i)
        {
          ShiftEnding(items, prefix, env, port, i);
        }
        forall i: nat | FirstEnding(items, prefix, env, port, i)
          ensures i != 0 && FirstEnding(rest, prefix, env, port, i - 1) && rest[i - 1] == items[i] { }
        forall i: nat | FirstEnding(rest, prefix, env, port, i)
          ensures FirstEnding(items, prefix, env, port, i + 1) && rest[i] == items[i + 1] { }
        assert (forall i :: 0 <= i < |items| ==> !EndsSearch(items[i], prefix, env, port)) <==>
               (forall i :: 0 <= i < |rest| ==> !EndsSearch(rest[i], prefix, env, port)) by {
          forall i | 0 < i < |items| ensures items[i] == rest[i - 1] { }
          forall i | 0 <= i < |rest| ensures rest[i] == items[i + 1] { }
        }
      }
    }
  }

  lemma ShiftEnding(items: seq<Item>, prefix: string, env: Option<seq<string>>, port: nat, i: nat)
    requires items != [] && i < |items[1..]| && !EndsSearch(items[0], prefix, env, port)
    ensures FirstEnding(items, prefix, env, port, i + 1) <==> FirstEnding(items[1..], prefix, env, port, i)
  {
    var rest := items[1..];
    assert rest[i] == items[i + 1];
    forall j | 0 <= j < i ensures rest[j] == items[j + 1] { }
    if FirstEnding(rest, prefix, env, port, i) {
      forall j | 0 <= j < i + 1 ensures !EndsSearch(items[j], prefix, env, port) {
        assert j == 0 || items[j] == rest[j - 1];
      }
    }
  }

  /** The search loop over the listed registries. */
  method FirstRegistryWithPrefix(items: seq<Item>, prefix: string, env: Option<seq<string>>, port: nat)
    returns (r: Search)
    ensures IsFirstMatch(items, prefix, env, port, r)
  {
    hide EnvIsCompatible;
    for i := 0 to |items|
      invariant forall j :: 0 <= j < i ==> !EndsSearch(items[j], prefix, env, port)
    {
      var item := items[i];
      if item.name.None? || item.name.value == "" || !StartsWith(item.name.value, prefix) { continue; }
      if !EnvIsCompatible(item, env) { continue; }
      if !HasPort(item) {
        assert FirstEnding(items, prefix, env, port, i);
        return NoObservedPort;
      }
      if port != 0 && item.port.value != port { continue; }
      assert FirstEnding(items, prefix, env, port, i);
      return Match(item.name.value, item.port.value);
    }
    return NoMatch;
  }

  /* ----- The external tool ----- */

  /** How `ctlptl apply` ends; a failing one may have bound the registry before. A registry bound
      without a pinned port keeps its own or gets the free port that ctlptl finds. */
  datatype ApplyOutcome = Applied(freePort: nat) | FailedLate(freePort: nat) | FailedEarly

  function ApplyTo(world: World, name: string, port: nat, env: Option<seq<string>>, outcome: ApplyOutcome): World {
    if outcome.FailedEarly? then world
    else
      world[name := Registry(
        if port != 0 then port else if name in world then world[name].port else outcome.freePort,
        if env.Some? then env.value else [])]
  }

  /** A port read back from ctlptl: it raises when ctlptl does not answer or knows no port. */
  function Observe(world: World, name: string, answers: bool): Option<nat> {
    if answers && name in world && world[name].port != 0 then Some(world[name].port) else None
  }

  class Ctlptl {
    var registries: World

    constructor (registries: World)
      ensures this.registries == registries
    {
      this.registries := registries;
    }

    method Apply(name: string, port: nat, env: Option<seq<string>>, outcome: ApplyOutcome) returns (ok: bool)
      modifies this
      ensures registries == ApplyTo(old(registries), name, port, env, outcome) && ok == outcome.Applied?
    {
      ok := outcome.Applied?;
      if !outcome.FailedEarly? {
        var bound := if port != 0 then port else if name in registries then registries[name].port else outcome.freePort;
        registries := registries[name := Registry(bound, if env.Some? then env.value else [])];
      }
    }

    method Delete(name: string, works: bool)
      modifies this
      ensures registries == if works then old(registries) - {name} else old(registries)
    {
      if works { registries := registries - {name}; }
    }
  }

  /* ----- The provider's hooks ----- */

  datatype Error = PortMissing | ApplyFailed | NotObserved

  /** What the surroundings answer during one call: the registry list if it can be had, the random
      suffix, the end of an apply, and whether later reads and the delete command work. */
  datatype Answers = Answers(listing: Option<seq<Item>>, suffix: string, apply: ApplyOutcome, readable: bool,
                             deletable: bool)

  /** Port carry-forward: an unpinned port takes the old one. */
  function Check(olds: Props, news: Props): Props {
    if PortProp(news) == 0 && PortProp(olds) != 0 then news.(port := Some(PortProp(olds))) else news
  }

  function AutoName(props: Props, suffix: string): string {
    (if props.seed.Some? && props.seed.value != "" then props.seed.value else "ctlptl-registry") + "-" + suffix
  }

  /** The name that a create which adopts nothing applies. */
  function NewName(props: Props, suffix: string): string {
    if NameProp(props) != "" then NameProp(props) else AutoName(props, suffix)
  }

  function Adoption(props: Props, answers: Answers): Search {
    if AdoptExisting(props) && answers.listing.Some?
    then FirstMatch(answers.listing.value, NameProp(props), EnvProp(props), PortProp(props))
    else NoMatch
  }

  function OutputsOf(props: Props, name: string, port: nat, adopted: bool): Props {
    Props(Some(name), Some(port), EnvProp(props), Some(AdoptExisting(props)), Some(adopted),
        Some(DeleteOnDestroy(props)), None)
  }

  function WorldAfterCreate(world: World, props: Props, answers: Answers): World {
    if Adoption(props, answers).NoMatch?
    then ApplyTo(world, NewName(props, answers.suffix), PortProp(props), EnvProp(props), answers.apply)
    else world
  }

  function Created(world: World, props: Props, answers: Answers): Result<Handle, Error> {
    match Adoption(props, answers)
    case NoObservedPort => Failure(PortMissing)
    case Match(name, port) => Success(Handle(name, OutputsOf(props, name, port, true)))
    case NoMatch =>
      if !answers.apply.Applied? then Failure(ApplyFailed)
      else
        var name := NewName(props, answers.suffix);
        var port := Observe(WorldAfterCreate(world, props, answers), name, answers.readable);
        if port.None? then Failure(NotObserved) else Success(Handle(name, OutputsOf(props, name, port.value, false)))
  }

  method Create(ctl: Ctlptl, props: Props, answers: Answers) returns (r: Result<Handle, Error>)
    modifies ctl
    ensures ctl.registries == WorldAfterCreate(old(ctl.registries), props, answers)
    ensures r == Created(old(ctl.registries), props, answers)
  {
    var env := EnvProp(props);
    if AdoptExisting(props) && answers.listing.Some? {
      var found := FirstRegistryWithPrefix(answers.listing.value, NameProp(props), env, PortProp(props));
      FirstMatchIsExact(answers.listing.value, NameProp(props), env, PortProp(props), found);
      match found {
        case Match(name, port) => return Success(Handle(name, OutputsOf(props, name, port, true)));
        case NoObservedPort => return Failure(PortMissing);
        case NoMatch =>
      }
    }
    var name := NewName(props, answers.suffix);
    var applied := ctl.Apply(name, PortProp(props), env, answers.apply);
    if !applied { return Failure(ApplyFailed); }
    var port := Observe(ctl.registries, name, answers.readable);
    if port.None? { return Failure(NotObserved); }
    return Success(Handle(name, OutputsOf(props, name, port.value, false)));
  }

  /** What a handle stores, said on its fields. */
  predicate Stores(h: Handle, id: string, flags: Props, adopted: Option<bool>, port: Option<nat>) {
    && h.id == id && h.props.registryName == Some(id) && h.props.port == port
    && h.props.adoptExisting == Some(flags.adoptExisting != Some(false))
    && h.props.deleteOnDestroy == Some(flags.deleteOnDestroy == Some(true))
    && h.props.adopted == Some(adopted == Some(true))
    && h.props.env == (if flags.env.None? then Some(["REGISTRY_PROXY_REMOTEURL=https://mirror.gcr.io"])
                       else if flags.env == Some([]) then None else flags.env)
    && h.props.seed == flags.seed
  }

  /** An item that may be adopted for some inputs, said on their fields: it is under the name that is
      pinned, has the environment that is asked for or the mirror's, and the port if both pin one. */
  predicate Suits(item: Item, inputs: Props) {
    && item.name.Some? && item.name.value != ""
    && (inputs.registryName.Some? ==> inputs.registryName.value <= item.name.value)
    && (inputs.env.None? ==> "REGISTRY_PROXY_REMOTEURL=https://mirror.gcr.io" in item.env)
    && (inputs.env.Some? ==> forall e :: e in inputs.env.value ==> e in item.env)
    && (Pinned(item.port) && Pinned(inputs.port) ==> item.port == inputs.port)
  }

  predicate Pinned(port: Option<nat>) { port.Some? && port.value != 0 }

  lemma SuitableEndsSearch(item: Item, inputs: Props)
    ensures EndsSearch(item, NameProp(inputs), EnvProp(inputs), PortProp(inputs)) <==> Suits(item, inputs)
  {
    assert DEFAULT_ENV == ["REGISTRY_PROXY_REMOTEURL=https://mirror.gcr.io"];
    assert forall e :: e in DEFAULT_ENV <==> e == DEFAULT_ENV[0];
  }

  /** The first suitable item of the list is the one adopted, without touching a registry; if it has no
      port the create fails. */
  lemma AdoptsFirstSuitable(world: World, inputs: Props, answers: Answers, i: nat)
    requires inputs.adoptExisting != Some(false) && answers.listing.Some? && i < |answers.listing.value|
    requires Suits(answers.listing.value[i], inputs)
    requires forall j :: 0 <= j < i ==> !Suits(answers.listing.value[j], inputs)
    ensures var item, created := answers.listing.value[i], Created(world, inputs, answers);
            && WorldAfterCreate(world, inputs, answers) == world
            && if !Pinned(item.port) then created == Failure(PortMissing)
               else created.Success?
                    && Stores(created.value, item.name.value, inputs.(seed := None), Some(true), item.port)
  {
    var items, item := answers.listing.value, answers.listing.value[i];
    forall j | 0 <= j <= i
      ensures EndsSearch(items[j], NameProp(inputs), EnvProp(inputs), PortProp(inputs)) <==> Suits(items[j], inputs)
    {
      SuitableEndsSearch(items[j], inputs);
    }
    hide EndsSearch, Suits, FirstMatch, NameProp, EnvProp, PortProp;
    var found := if Pinned(item.port) then Match(item.name.value, item.port.value) else NoObservedPort;
    FirstMatchIsExact(items, NameProp(inputs), EnvProp(inputs), PortProp(inputs), found);
    assert FirstEnding(items, NameProp(inputs), EnvProp(inputs), PortProp(inputs), i);
  }

  /** With nothing to adopt, or none looked for, the registry is applied under the name that is pinned,
      or under a new one; the handle that comes back names it, with the port and the environment that
      it has, and no other registry changes. */
  lemma CreatesNamedRegistry(world: World, inputs: Props, answers: Answers)
    requires inputs.adoptExisting == Some(false) || answers.listing.None?
             || forall i :: 0 <= i < |answers.listing.value| ==> !Suits(answers.listing.value[i], inputs)
    ensures var after, created := WorldAfterCreate(world, inputs, answers), Created(world, inputs, answers);
            var name := if inputs.registryName.Some? && inputs.registryName.value != "" then inputs.registryName.value
                        else (if inputs.seed.Some? && inputs.seed.value != "" then inputs.seed.value
                              else "ctlptl-registry") + "-" + answers.suffix;
            && after - {name} == world - {name}
            && (answers.apply.FailedEarly? ==> after == world)
            && (!answers.apply.FailedEarly? ==>
                  && name in after
                  && (Pinned(inputs.port) ==> after[name].port == inputs.port.value)
                  && (!Pinned(inputs.port) && name in world ==> after[name].port == world[name].port)
                  && (!Pinned(inputs.port) && name !in world ==> after[name].port == answers.apply.freePort)
                  && after[name].env == (if inputs.env.Some? then inputs.env.value
                                         else ["REGISTRY_PROXY_REMOTEURL=https://mirror.gcr.io"]))
            && (!answers.apply.Applied? ==> created == Failure(ApplyFailed))
            && (answers.apply.Applied? ==>
                  if answers.readable && after[name].port != 0 then
                    created.Success?
                    && Stores(created.value, name, inputs.(seed := None), Some(false), Some(after[name].port))
                  else created == Failure(NotObserved))
  {
    if inputs.adoptExisting != Some(false) && answers.listing.Some? {
      NothingToAdopt(answers.listing.value, inputs);
    }
    var name := NewName(inputs, answers.suffix);
    var after := WorldAfterCreate(world, inputs, answers);
    if name in after { OutputsStore(inputs, name, after[name].port, false); }
    EnvIs(inputs);
    hide FirstMatch, EnvIsCompatible, OutputsOf, Stores, EnvProp;
  }

  lemma OutputsStore(inputs: Props, name: string, port: nat, adopted: bool)
    ensures Stores(Handle(name, OutputsOf(inputs, name, port, adopted)), name, inputs.(seed := None), Some(adopted),
                   Some(port))
  {
  }

  lemma NothingToAdopt(items: seq<Item>, inputs: Props)
    requires forall i :: 0 <= i < |items| ==> !Suits(items[i], inputs)
    ensures FirstMatch(items, NameProp(inputs), EnvProp(inputs), PortProp(inputs)).NoMatch?
  {
    forall i | 0 <= i < |items| ensures !EndsSearch(items[i], NameProp(inputs), EnvProp(inputs), PortProp(inputs)) {
      SuitableEndsSearch(items[i], inputs);
    }
    FirstMatchIsExact(items, NameProp(inputs), EnvProp(inputs), PortProp(inputs), NoMatch);
  }

  predicate Deletes(h: Handle) { !Adopted(h.props) && DeleteOnDestroy(h.props) }

  function WorldAfterDelete(world: World, h: Handle, works: bool): World {
    if Deletes(h) && works then world - {h.id} else world
  }

  method Delete(ctl: Ctlptl, h: Handle, works: bool)
    modifies ctl
    ensures ctl.registries == WorldAfterDelete(old(ctl.registries), h, works)
    ensures ctl.registries == if works && h.props.deleteOnDestroy == Some(true) && h.props.adopted != Some(true)
                              then old(ctl.registries) - {h.id} else old(ctl.registries)
  {
    if Adopted(h.props) || !DeleteOnDestroy(h.props) { return; }
    ctl.Delete(h.id, works);
  }

  /** The fields whose change forces a replacement. */
  datatype Field = RegistryName | Port | Env

  predicate ForcesReplace(f: Field, h: Handle, news: Props) {
    match f
    case RegistryName =>
      var oldName := if NameProp(h.props) != "" then NameProp(h.props) else h.id;
      if AdoptExisting(news) then NameProp(news) != "" && !StartsWith(oldName, NameProp(news))
      else NameProp(news) != "" && NameProp(news) != oldName
    case Port => PortProp(news) != 0 && PortProp(news) != PortProp(h.props)
    case Env => EnvProp(news) != EnvProp(h.props)
  }

  predicate ChangesInPlace(h: Handle, news: Props) {
    AdoptExisting(news) != AdoptExisting(h.props) || DeleteOnDestroy(news) != DeleteOnDestroy(h.props)
  }

  function ReplacedFields(h: Handle, news: Props): seq<Field> {
    (if ForcesReplace(RegistryName, h, news) then [RegistryName] else [])
    + (if ForcesReplace(Port, h, news) then [Port] else [])
    + (if ForcesReplace(Env, h, news) then [Env] else [])
  }

  /** What asks for a replacement, said on the fields: a newly pinned port that is another one; a newly
      pinned name that is no prefix of the old one, or with adoption off is another one; and another
      environment, where an absent one is the mirror's. */
  lemma ReplacedFieldsAre(h: Handle, news: Props)
    ensures Port in ReplacedFields(h, news) <==> Pinned(news.port) && news.port != h.props.port
    ensures var before := if h.props.registryName.Some? && h.props.registryName.value != ""
                          then h.props.registryName.value else h.id;
            RegistryName in ReplacedFields(h, news) <==>
              && news.registryName.Some? && news.registryName.value != ""
              && if news.adoptExisting == Some(false) then news.registryName.value != before
                 else !(news.registryName.value <= before)
    ensures var mirror := ["REGISTRY_PROXY_REMOTEURL=https://mirror.gcr.io"];
            var asked := if news.env.Some? then news.env.value else mirror;
            var had := if h.props.env.Some? then h.props.env.value else mirror;
            Env in ReplacedFields(h, news) <==> asked != had
  {
    EnvIs(news);
    EnvIs(h.props);
    hide EnvProp;
  }

  lemma EnvIs(p: Props)
    ensures var env := if p.env.Some? then p.env.value else ["REGISTRY_PROXY_REMOTEURL=https://mirror.gcr.io"];
            EnvProp(p) == if env == [] then None else Some(env)
  {
  }

  method Diff(h: Handle, news: Props) returns (changes: bool, replaced: seq<Field>)
    ensures replaced == ReplacedFields(h, news)
    ensures changes <==> ChangesInPlace(h, news) || exists f :: ForcesReplace(f, h, news)
  {
    replaced := [];
    var mutable := false;
    var pinned := NameProp(news);
    var oldName := if NameProp(h.props) != "" then NameProp(h.props) else h.id;
    if AdoptExisting(news) {
      if pinned != "" && !StartsWith(oldName, pinned) { replaced := replaced + [RegistryName]; }
    } else if pinned != "" && pinned != oldName {
      replaced := replaced + [RegistryName];
    }
    var newPort, oldPort := PortProp(news), PortProp(h.props);
    if newPort != 0 && newPort != oldPort { replaced := replaced + [Port]; }
    if EnvProp(news) != EnvProp(h.props) { replaced := replaced + [Env]; }
    if AdoptExisting(news) != AdoptExisting(h.props) { mutable := true; }
    if DeleteOnDestroy(news) != DeleteOnDestroy(h.props) { mutable := true; }
    changes := replaced != [] || mutable;
    assert replaced != [] <==>
        ForcesReplace(RegistryName, h, news) || ForcesReplace(Port, h, news) || ForcesReplace(Env, h, news);
    if replaced == [] {
      forall f ensures !ForcesReplace(f, h, news) {
        match f
        case RegistryName =>
        case Port =>
        case Env =>
      }
    }
  }

  /** The new inputs with what is observed, or else what was known, filled in. */
  function Updated(world: World, h: Handle, news: Props, answers: Answers): Handle {
    var observed := Observe(world, h.id, answers.readable);
    var port := if observed.Some? then observed.value else PortProp(h.props);
    Handle(h.id, Props(
      Some(h.id), if port != 0 then Some(port) else news.port, EnvProp(news),
      Some(AdoptExisting(news)), Some(Adopted(h.props)), Some(DeleteOnDestroy(news)), news.seed))
  }

  /** A refresh: any failure to read the registry drops the handle. */
  function Refreshed(world: World, h: Handle, answers: Answers): Option<Handle> {
    if !answers.readable || h.id !in world then None
    else
      var port := world[h.id].port;
      Some(Handle(h.id, Props(
        Some(h.id), if port != 0 then Some(port) else h.props.port, EnvProp(h.props),
        Some(AdoptExisting(h.props)), Some(Adopted(h.props)), Some(DeleteOnDestroy(h.props)), h.props.seed)))
  }

  /* ----- The engine ----- */

  /** The world and the engine's handles, by logical name. */
  datatype State = State(world: World, handles: map<string, Handle>)

  /** What an operator can ask of one logical name. */
  datatype Event =
    | Up(urn: string, inputs: Props, answers: Answers)
    | Refresh(urn: string, answers: Answers)
    | Destroy(urn: string, answers: Answers)

  function CreateStep(s: State, urn: string, inputs: Props, answers: Answers): State {
    var created := Created(s.world, inputs, answers);
    State(WorldAfterCreate(s.world, inputs, answers),
          if created.Success? then s.handles[urn := created.value] else s.handles - {urn})
  }

  function DeleteStep(s: State, urn: string, works: bool): State
    requires urn in s.handles
  {
    State(WorldAfterDelete(s.world, s.handles[urn], works), s.handles - {urn})
  }

  /** The up replaces the handle: it is deleted, and then created from the inputs afresh. */
  predicate Replacing(s: State, e: Event) {
    e.Up? && e.urn in s.handles && ReplacedFields(s.handles[e.urn], Check(s.handles[e.urn].props, e.inputs)) != []
  }

  function Next(s: State, e: Event): State {
    match e
    case Up(urn, inputs, answers) =>
      if urn !in s.handles then CreateStep(s, urn, Check(NO_PROPS, inputs), answers)
      else if Replacing(s, e) then
        CreateStep(DeleteStep(s, urn, answers.deletable), urn, Check(NO_PROPS, inputs), answers)
      else
        var h := s.handles[urn];
        var news := Check(h.props, inputs);
        if ChangesInPlace(h, news) then s.(handles := s.handles[urn := Updated(s.world, h, news, answers)]) else s
    case Refresh(urn, answers) =>
      if urn !in s.handles then s
      else
        var h := Refreshed(s.world, s.handles[urn], answers);
        s.(handles := if h.Some? then s.handles[urn := h.value] else s.handles - {urn})
    case Destroy(urn, answers) =>
      if urn !in s.handles then s else DeleteStep(s, urn, answers.deletable)
  }

  function Run(s: State, es: seq<Event>): State {
    if es == [] then s else Next(Run(s, es[..|es| - 1]), es[|es| - 1])
  }

  /* ----- Retention ----- */

  /** The event deletes a handle that ctlptl is told to tear down. */
  predicate TearsDown(s: State, e: Event, name: string) {
    && e.urn in s.handles && (e.Destroy? || Replacing(s, e))
    && s.handles[e.urn].id == name && Deletes(s.handles[e.urn]) && e.answers.deletable
  }

  /** The event, having replaced a handle, binds the name again. */
  predicate Rebinds(e: Event, name: string) {
    && e.Up? && Adoption(e.inputs, e.answers).NoMatch?
    && NewName(e.inputs, e.answers.suffix) == name && !e.answers.apply.FailedEarly?
  }

  /** A name leaves the world exactly by the deletion of a handle on it that was not adopted and asks
      for deletion, unless the event that deletes it goes on to bind the name again. */
  lemma NameLeavesByTearDown(s: State, e: Event, name: string)
    requires name in s.world
    ensures name !in Next(s, e).world <==> TearsDown(s, e, name) && !Rebinds(e, name)
  {
    hide NewName, Adoption;
    if e.Up? { assert Check(NO_PROPS, e.inputs) == e.inputs; }
  }

  /** So the registry of an adopted handle leaves exactly when an event deletes it through another
      handle, which was not adopted. */
  lemma AdoptedLeavesByAnother(s: State, e: Event, urn: string)
    requires urn in s.handles && Adopted(s.handles[urn].props) && s.handles[urn].id in s.world
    ensures var name := s.handles[urn].id;
            name !in Next(s, e).world <==> e.urn != urn && TearsDown(s, e, name) && !Rebinds(e, name)
  {
    NameLeavesByTearDown(s, e, s.handles[urn].id);
    hide Next, Rebinds, Replacing;
  }

  /** A handle that outlives an event without being replaced keeps its id and its adopted flag. */
  lemma HandleIsFixed(s: State, e: Event, urn: string)
    requires urn in s.handles && urn in Next(s, e).handles
    requires !(Replacing(s, e) && e.urn == urn)
    ensures Next(s, e).handles[urn].id == s.handles[urn].id
    ensures Adopted(Next(s, e).handles[urn].props) == Adopted(s.handles[urn].props)
  {
  }

  /** Over a run that neither drops nor replaces it, a handle keeps its id and its adopted flag. */
  lemma {:induction false} HandleIsFixedOverRuns(s: State, es: seq<Event>, urn: string)
    requires forall k :: 0 <= k <= |es| ==> urn in Run(s, es[..k]).handles
    requires forall k :: 0 <= k < |es| ==> !(Replacing(Run(s, es[..k]), es[k]) && es[k].urn == urn)
    ensures urn in s.handles && urn in Run(s, es).handles
    ensures Run(s, es).handles[urn].id == s.handles[urn].id
    ensures Adopted(Run(s, es).handles[urn].props) == Adopted(s.handles[urn].props)
  {
    assert es[..|es|] == es && es[..0] == [];
    if es != [] {
      var n := |es| - 1;
      forall k | 0 <= k <= n ensures es[..n][..k] == es[..k] { }
      hide Next, Replacing;
      HandleIsFixedOverRuns(s, es[..n], urn);
      HandleIsFixed(Run(s, es[..n]), es[n], urn);
    }
  }

  /** The port that an input leaves away is carried over; nothing else is. */
  lemma CheckCarriesPort(olds: Props, news: Props)
    ensures Check(olds, news).(port := news.port) == news
    ensures Check(olds, news).port == if Pinned(news.port) || !Pinned(olds.port) then news.port else olds.port
  {
  }

  /** An event touches no handle but its own, and no registry but one it deletes or applies. */
  lemma StepTouchesItsOwn(s: State, e: Event, name: string)
    ensures Next(s, e).handles - {e.urn} == s.handles - {e.urn}
    ensures name in s.world && !TearsDown(s, e, name) && !Binds(s, e, name) ==>
              name in Next(s, e).world && Next(s, e).world[name] == s.world[name]
  {
    hide NewName, Adoption, EnvProp, ForcesReplace, ReplacedFields, Observe, OutputsOf, Updated, Refreshed;
    if e.Up? { assert Check(NO_PROPS, e.inputs) == e.inputs; }
  }

  /** The port that is stored after a look at the registry: the one it has, or else the one known. */
  function SeenPort(world: World, h: Handle, readable: bool): Option<nat> {
    if readable && h.id in world && world[h.id].port != 0 then Some(world[h.id].port) else h.props.port
  }

  /** An up that changes a handle in place stores the flags that it asks for, and a refresh keeps those
      it finds, each under its default if it is absent; both store the port that they see. */
  lemma StoredInPlace(s: State, urn: string, inputs: Props, answers: Answers)
    requires urn in s.handles && WellFormed(s.handles[urn])
    requires !Replacing(s, Up(urn, inputs, answers)) && urn in Next(s, Refresh(urn, answers)).handles
    ensures var h, port := s.handles[urn], SeenPort(s.world, s.handles[urn], answers.readable);
            var up, refresh := Next(s, Up(urn, inputs, answers)), Next(s, Refresh(urn, answers));
            && up.world == s.world && refresh.world == s.world
            && urn in up.handles
            && (up == s || Stores(up.handles[urn], h.id, inputs, h.props.adopted, port))
            && (up.handles[urn].props.adoptExisting == Some(false) <==> inputs.adoptExisting == Some(false))
            && (up.handles[urn].props.deleteOnDestroy == Some(true) <==> inputs.deleteOnDestroy == Some(true))
            && Stores(refresh.handles[urn], h.id, h.props, h.props.adopted, port)
  {
  }

  /** Nobody has asked for deletion: the flag is absent or false wherever it is stored. */
  ghost predicate NothingDeletes(s: State) {
    forall urn :: urn in s.handles ==>
      s.handles[urn].props.deleteOnDestroy.None? || s.handles[urn].props.deleteOnDestroy == Some(false)
  }

  lemma FlagsStayOff(s: State, e: Event)
    requires NothingDeletes(s)
    requires e.Up? ==> e.inputs.deleteOnDestroy.None? || e.inputs.deleteOnDestroy == Some(false)
    ensures NothingDeletes(Next(s, e))
  {
    hide Adoption, NewName, EnvProp, ForcesReplace, ReplacedFields, Observe, WorldAfterCreate, WorldAfterDelete;
  }

  lemma DefaultStepRetains(s: State, e: Event)
    requires NothingDeletes(s)
    requires e.Up? ==> e.inputs.deleteOnDestroy.None? || e.inputs.deleteOnDestroy == Some(false)
    ensures NothingDeletes(Next(s, e)) && s.world.Keys <= Next(s, e).world.Keys
  {
    FlagsStayOff(s, e);
    forall name | name in s.world ensures name in Next(s, e).world { NameLeavesByTearDown(s, e, name); }
    hide Next, Replacing, Rebinds, Adopted;
  }

  /** As long as every up leaves the deletion flag away, or sets it to false, the set of names never
      shrinks, over any run. */
  lemma {:induction false} DefaultRunsRetain(s: State, es: seq<Event>)
    requires NothingDeletes(s)
    requires forall e :: e in es && e.Up? ==>
               e.inputs.deleteOnDestroy.None? || e.inputs.deleteOnDestroy == Some(false)
    ensures NothingDeletes(Run(s, es)) && s.world.Keys <= Run(s, es).world.Keys
  {
    if es != [] {
      hide Next, NothingDeletes;
      DefaultRunsRetain(s, es[..|es| - 1]);
      DefaultStepRetains(Run(s, es[..|es| - 1]), es[|es| - 1]);
    }
  }

  /** No handle that was created, rather than adopted, is on the name. */
  ghost predicate NotOurs(s: State, name: string) {
    forall urn :: urn in s.handles && !Adopted(s.handles[urn].props) ==> s.handles[urn].id != name
  }

  lemma ForeignSurvivesStep(s: State, e: Event, name: string)
    requires name in s.world && NotOurs(s, name)
    requires e.Up? ==> NewName(e.inputs, e.answers.suffix) != name
    ensures name in Next(s, e).world && NotOurs(Next(s, e), name)
  {
    hide NewName;
    NameLeavesByTearDown(s, e, name);
    if e.Up? {
      assert Check(NO_PROPS, e.inputs) == e.inputs;
    }
  }

  /** A registry that was there before the run survives it, whatever is destroyed and replaced, as
      long as no up would itself apply that name. */
  lemma {:induction false} ForeignSurvives(s: State, es: seq<Event>, name: string)
    requires name in s.world && NotOurs(s, name)
    requires forall e :: e in es && e.Up? ==> NewName(e.inputs, e.answers.suffix) != name
    ensures name in Run(s, es).world && NotOurs(Run(s, es), name)
  {
    if es != [] {
      hide Next, NotOurs, NewName;
      ForeignSurvives(s, es[..|es| - 1], name);
      ForeignSurvivesStep(Run(s, es[..|es| - 1]), es[|es| - 1], name);
    }
  }

  /** A refresh drops a handle exactly when its registry cannot be read or is gone, and touches no
      registry. */
  lemma RefreshDropsUnread(s: State, urn: string, answers: Answers)
    requires urn in s.handles
    ensures Next(s, Refresh(urn, answers)).world == s.world
    ensures urn !in Next(s, Refresh(urn, answers)).handles <==> !answers.readable || s.handles[urn].id !in s.world
  {
  }

  /** What one unreadable refresh costs: when the next up adopts the registry again, the handle counts
      as adopted, and no later run destroys the registry, though the handle asks for it, unless some up
      applies that very name. */
  lemma UnreadRefreshLosesOwnership(s: State, urn: string, unread: Answers, inputs: Props, again: Answers, port: nat,
                                    es: seq<Event>)
    requires urn in s.handles && s.handles[urn].id in s.world && !unread.readable
    requires forall u :: u in s.handles && u != urn && s.handles[u].id == s.handles[urn].id ==>
               Adopted(s.handles[u].props)
    requires Adoption(inputs, again) == Match(s.handles[urn].id, port)
    requires forall e :: e in es && e.Up? ==> NewName(e.inputs, e.answers.suffix) != s.handles[urn].id
    ensures var name, s' := s.handles[urn].id, Next(Next(s, Refresh(urn, unread)), Up(urn, inputs, again));
            && urn in s'.handles && s'.handles[urn].id == name && Adopted(s'.handles[urn].props)
            && DeleteOnDestroy(s'.handles[urn].props) == DeleteOnDestroy(inputs)
            && name in Run(s', es).world
  {
    var name := s.handles[urn].id;
    var dropped := Next(s, Refresh(urn, unread));
    var s' := Next(dropped, Up(urn, inputs, again));
    assert Check(NO_PROPS, inputs) == inputs;
    hide Adoption;
    assert s' == State(s.world, dropped.handles[urn := Handle(name, OutputsOf(inputs, name, port, true))]);
    ForeignSurvives(s', es, name);
  }

  /** The event applies the name, and the apply binds it. */
  predicate Binds(s: State, e: Event, name: string) {
    e.Up? && (e.urn !in s.handles || Replacing(s, e)) && Rebinds(e, name)
  }

  lemma NameAfterStep(s: State, e: Event, name: string)
    ensures name in Next(s, e).world <==> Binds(s, e, name) || (name in s.world && !TearsDown(s, e, name))
  {
    hide NewName, Adoption;
    if e.Up? { assert Check(NO_PROPS, e.inputs) == e.inputs; }
  }

  predicate NameAt(s: State, es: seq<Event>, k: nat, name: string) { k <= |es| && name in Run(s, es[..k]).world }

  predicate BindsAt(s: State, es: seq<Event>, k: nat, name: string) { k < |es| && Binds(Run(s, es[..k]), es[k], name) }

  /** The k-th event of a run deletes the name's registry and does not bind the name again. */
  predicate LosesAt(s: State, es: seq<Event>, k: nat, name: string) {
    k < |es| && TearsDown(Run(s, es[..k]), es[k], name) && !BindsAt(s, es, k, name)
  }

  /** No step from the k-th on satisfies p. */
  ghost predicate NoneFrom(p: nat -> bool, k: nat, n: nat) { forall j: nat :: k <= j < n ==> !p(j) }

  ghost predicate IsHistory(present: nat -> bool, binds: nat -> bool, loses: nat -> bool, n: nat) {
    forall k: nat, next: nat :: k < n && next == k + 1 ==>
      (present(next) <==> binds(k) || (present(k) && !loses(k))) && !(binds(k) && loses(k))
  }

  lemma ShorterHistory(present: nat -> bool, binds: nat -> bool, loses: nat -> bool, n: nat)
    requires 0 < n && IsHistory(present, binds, loses, n)
    ensures IsHistory(present, binds, loses, n - 1)
  {
  }

  /** What was bound or lost last decides. */
  lemma {:induction false} LastWord(present: nat -> bool, binds: nat -> bool, loses: nat -> bool, n: nat)
    requires IsHistory(present, binds, loses, n)
    ensures present(n) <==>
              || (present(0) && NoneFrom(loses, 0, n))
              || exists k: nat, next: nat :: k < n && next == k + 1 && binds(k) && NoneFrom(loses, next, n)
    ensures present(0) ==>
              (!present(n) <==>
                 exists k: nat, next: nat :: k < n && next == k + 1 && loses(k) && NoneFrom(binds, next, n))
  {
    if n != 0 {
      var m := n - 1;
      ShorterHistory(present, binds, loses, n);
      LastWord(present, binds, loses, m);
      assert present(n) <==> binds(m) || (present(m) && !loses(m));
      forall k: nat ensures NoneFrom(loses, k, n) <==> NoneFrom(loses, k, m) && (k <= m ==> !loses(m))
                    ensures NoneFrom(binds, k, n) <==> NoneFrom(binds, k, m) && (k <= m ==> !binds(m)) {
        LongerNone(loses, k, n);
        LongerNone(binds, k, n);
      }
      hide NoneFrom, IsHistory;
      NoneAtEnd(loses, n);
      NoneAtEnd(binds, n);
    }
  }

  lemma LongerNone(p: nat -> bool, k: nat, n: nat)
    requires 0 < n
    ensures NoneFrom(p, k, n) <==> NoneFrom(p, k, n - 1) && (k <= n - 1 ==> !p(n - 1))
  {
  }

  lemma NoneAtEnd(p: nat -> bool, n: nat)
    ensures NoneFrom(p, n, n)
  {
  }

  lemma RunIsHistory(s: State, es: seq<Event>, name: string)
    ensures IsHistory((k: nat) => NameAt(s, es, k, name), (k: nat) => BindsAt(s, es, k, name),
                      (k: nat) => LosesAt(s, es, k, name), |es|)
  {
    hide Next, Binds, TearsDown;
    forall k: nat | k < |es|
      ensures NameAt(s, es, k + 1, name) <==>
                  BindsAt(s, es, k, name) || (NameAt(s, es, k, name) && !LosesAt(s, es, k, name))
    {
      assert es[..k + 1][..k] == es[..k];
      NameAfterStep(Run(s, es[..k]), es[k], name);
    }
  }

  /** No event from the k-th on loses the name. */
  ghost predicate KeptFrom(s: State, es: seq<Event>, k: nat, name: string) {
    forall j: nat :: k <= j < |es| ==> !LosesAt(s, es, j, name)
  }

  /** No event from the k-th on binds the name. */
  ghost predicate UnboundFrom(s: State, es: seq<Event>, k: nat, name: string) {
    forall j: nat :: k <= j < |es| ==> !BindsAt(s, es, j, name)
  }

  lemma FromAsNone(s: State, es: seq<Event>, k: nat, name: string)
    ensures NoneFrom((j: nat) => LosesAt(s, es, j, name), k, |es|) <==> KeptFrom(s, es, k, name)
    ensures NoneFrom((j: nat) => BindsAt(s, es, j, name), k, |es|) <==> UnboundFrom(s, es, k, name)
  {
    hide LosesAt, BindsAt;
    var loses, binds := (j: nat) => LosesAt(s, es, j, name), (j: nat) => BindsAt(s, es, j, name);
    assert forall j: nat :: loses(j) <==> LosesAt(s, es, j, name);
    assert forall j: nat :: binds(j) <==> BindsAt(s, es, j, name);
  }

  /** Retention over whole runs, exactly. A name is there at the end when it was there at the start, or
      some event binds it, and no event after that loses it; so one that was there at the start is gone
      exactly when some event loses it and none after that binds it. */
  lemma NameAfterRun(s: State, es: seq<Event>, name: string)
    ensures name in Run(s, es).world <==>
              || (name in s.world && KeptFrom(s, es, 0, name))
              || exists k: nat, next: nat :: next == k + 1 && BindsAt(s, es, k, name) && KeptFrom(s, es, next, name)
    ensures name in s.world ==>
              (name !in Run(s, es).world <==>
                 exists k: nat, next: nat :: next == k + 1 && LosesAt(s, es, k, name) && UnboundFrom(s, es, next, name))
  {
    RunIsHistory(s, es, name);
    assert es[..|es|] == es && es[..0] == [];
    forall k: nat
      ensures NoneFrom((j: nat) => LosesAt(s, es, j, name), k, |es|) <==> KeptFrom(s, es, k, name)
      ensures NoneFrom((j: nat) => BindsAt(s, es, j, name), k, |es|) <==> UnboundFrom(s, es, k, name)
    {
      FromAsNone(s, es, k, name);
    }
    hide Run, Binds, TearsDown, NoneFrom, KeptFrom, UnboundFrom, IsHistory;
    var present, binds, loses :=
      (k: nat) => NameAt(s, es, k, name), (k: nat) => BindsAt(s, es, k, name), (k: nat) => LosesAt(s, es, k, name);
    LastWord(present, binds, loses, |es|);
    assert present(|es|) <==> name in Run(s, es).world;
    assert present(0) <==> name in s.world by { RunOfNone(s); }
    if k: nat, next: nat :| next == k + 1 && BindsAt(s, es, k, name) && KeptFrom(s, es, next, name) {
      assert k < |es| && binds(k) && NoneFrom(loses, next, |es|);
    }
    if k: nat, next: nat :| next == k + 1 && LosesAt(s, es, k, name) && UnboundFrom(s, es, next, name) {
      assert k < |es| && loses(k) && NoneFrom(binds, next, |es|);
    }
    if k: nat, next: nat :| k < |es| && next == k + 1 && binds(k) && NoneFrom(loses, next, |es|) {
      assert BindsAt(s, es, k, name) && KeptFrom(s, es, next, name);
    }
    if k: nat, next: nat :| k < |es| && next == k + 1 && loses(k) && NoneFrom(binds, next, |es|) {
      assert LosesAt(s, es, k, name) && UnboundFrom(s, es, next, name);
    }
  }

  lemma RunOfNone(s: State)
    ensures Run(s, []) == s
  {
  }

  /** Two handles can share a registry: one that adopted it does not keep it from being deleted by
      the other, which created it. */
  lemma AdoptedRegistryCanBeDeleted(name: string, suffix: string, port: nat)
    requires name != "" && port != 0
    ensures var first := NO_PROPS.(registryName := Some(name), adoptExisting := Some(false),
                                   deleteOnDestroy := Some(true));
            var alone := Answers(None, suffix, Applied(port), true, true);
            var listed := alone.(listing := Some([Item(Some(name), Some(port), DEFAULT_ENV)]));
            var s := Run(State(map[], map[]), [Up("a", first, alone), Up("b", NO_PROPS, listed), Destroy("a", alone)]);
            && "b" in s.handles && s.handles["b"].id == name && Adopted(s.handles["b"].props)
            && name !in s.world
  {
    var first := NO_PROPS.(registryName := Some(name), adoptExisting := Some(false), deleteOnDestroy := Some(true));
    var alone := Answers(None, suffix, Applied(port), true, true);
    var item := Item(Some(name), Some(port), DEFAULT_ENV);
    var listed := alone.(listing := Some([item]));
    var es := [Up("a", first, alone), Up("b", NO_PROPS, listed), Destroy("a", alone)];
    assert es[..2] == [es[0], es[1]] && es[..2][..1] == [es[0]] && es[..2][..1][..0] == [];
    var s0 := State(map[], map[]);
    var s1 := Next(s0, es[0]);
    var s2 := Next(s1, es[1]);
    assert Run(s0, es) == Next(s2, es[2]) by {
      hide Next;
      assert Run(s0, es[..2][..1]) == s1;
      assert Run(s0, es[..2]) == s2;
    }
    assert "a" != "b";
    assert name in s1.world && "a" in s1.handles && s1.handles["a"].id == name && Deletes(s1.handles["a"]);
    assert FirstMatch([item], "", Some(DEFAULT_ENV), 0) == Match(name, port);
    assert s2.handles["b"] == Handle(name, OutputsOf(NO_PROPS, name, port, true)) && s2.world == s1.world;
  }

  /* ----- Convergence ----- */

  /** Asking again for the same inputs changes nothing. */
  predicate Settled(h: Handle, inputs: Props) {
    var news := Check(h.props, inputs);
    ReplacedFields(h, news) == [] && !ChangesInPlace(h, news)
  }

  /** What every handle of a run satisfies. */
  predicate WellFormed(h: Handle) {
    h.id != "" && h.props.registryName == Some(h.id) && PortProp(h.props) != 0 && h.props.env != Some([])
  }

  lemma MatchSuits(items: seq<Item>, prefix: string, env: Option<seq<string>>, port: nat)
    ensures var r := FirstMatch(items, prefix, env, port);
            r.Match? ==> r.name != "" && StartsWith(r.name, prefix) && r.port != 0 && (port != 0 ==> r.port == port)
  {
  }

  lemma CreatedIsWellFormed(world: World, inputs: Props, answers: Answers)
    requires Created(world, inputs, answers).Success?
    ensures WellFormed(Created(world, inputs, answers).value)
    ensures PortProp(inputs) != 0 ==> PortProp(Created(world, inputs, answers).value.props) == PortProp(inputs)
    ensures StartsWith(Created(world, inputs, answers).value.id, NameProp(inputs))
    ensures !AdoptExisting(inputs) && NameProp(inputs) != "" ==>
                Created(world, inputs, answers).value.id == NameProp(inputs)
  {
    if answers.listing.Some? { MatchSuits(answers.listing.value, NameProp(inputs), EnvProp(inputs), PortProp(inputs)); }
    assert |AutoName(inputs, answers.suffix)| > 0;
    hide FirstMatch, AutoName;
  }

  /** A created or adopted handle is settled for its inputs exactly when their environment is not
      the empty list; that one reads back as the default, and so asks for a replacement. */
  lemma CreateSettles(world: World, inputs: Props, answers: Answers)
    requires Created(world, inputs, answers).Success?
    ensures Settled(Created(world, inputs, answers).value, inputs) <==> inputs.env != Some([])
    ensures inputs.env == Some([]) ==>
              ReplacedFields(Created(world, inputs, answers).value,
                  Check(Created(world, inputs, answers).value.props, inputs)) == [Env]
  {
    CreatedIsWellFormed(world, inputs, answers);
    var h := Created(world, inputs, answers).value;
    assert h.props.env == EnvProp(inputs) && AdoptExisting(h.props) == AdoptExisting(inputs)
        && DeleteOnDestroy(h.props) == DeleteOnDestroy(inputs);
    hide Created, DEFAULT_ENV;
    assert [] != DEFAULT_ENV;
  }

  /** Nobody else has rebound the handle's registry. */
  predicate Undisturbed(world: World, h: Handle) {
    h.id in world && world[h.id].port != 0 ==> world[h.id].port == PortProp(h.props)
  }

  /** An update in place leaves the handle settled, whether or not its registry could be read. */
  lemma UpdateSettles(world: World, h: Handle, inputs: Props, answers: Answers)
    requires WellFormed(h) && Undisturbed(world, h) && ReplacedFields(h, Check(h.props, inputs)) == []
    ensures var h' := Updated(world, h, Check(h.props, inputs), answers); WellFormed(h') && Settled(h', inputs)
  {
    var news := Check(h.props, inputs);
    assert EnvProp(news) == EnvProp(h.props) && EnvProp(h.props).Some? by {
      assert !ForcesReplace(Env, h, news);
    }
    assert !ForcesReplace(RegistryName, h, news) && !ForcesReplace(Port, h, news);
  }

  /** A refresh of an undisturbed handle leaves it settled. */
  lemma RefreshSettles(world: World, h: Handle, inputs: Props, answers: Answers)
    requires WellFormed(h) && Undisturbed(world, h) && Settled(h, inputs) && Refreshed(world, h, answers).Some?
    ensures var h' := Refreshed(world, h, answers).value; WellFormed(h') && Settled(h', inputs)
  {
    var news := Check(h.props, inputs);
    assert !ForcesReplace(RegistryName, h, news) && !ForcesReplace(Port, h, news) && !ForcesReplace(Env, h, news);
  }

  ghost predicate Reachable(s: State) { forall urn :: urn in s.handles ==> WellFormed(s.handles[urn]) }

  /** Every event keeps the handles well formed. */
  lemma StepsKeepWellFormed(s: State, e: Event)
    requires Reachable(s)
    ensures Reachable(Next(s, e))
  {
    if e.Up? {
      assert Check(NO_PROPS, e.inputs) == e.inputs;
      var before := if Replacing(s, e) then DeleteStep(s, e.urn, e.answers.deletable) else s;
      if Created(before.world, e.inputs, e.answers).Success? { CreatedIsWellFormed(before.world, e.inputs, e.answers); }
      hide Created, Check, ForcesReplace;
    }
  }

  /** Convergence: after an up that leaves a handle, a second up with the same inputs changes
      neither the world nor the handles, whatever its surroundings answer, unless the environment is
      the empty list; then it replaces the resource, every time. */
  lemma UpConverges(s: State, e: Event, again: Answers)
    requires e.Up? && Reachable(s) && e.urn in Next(s, e).handles
    requires e.urn in s.handles ==> Undisturbed(s.world, s.handles[e.urn])
    ensures var s' := Next(s, e);
            if e.inputs.env == Some([]) then Replacing(s', Up(e.urn, e.inputs, again))
            else Next(s', Up(e.urn, e.inputs, again)) == s'
  {
    var s' := Next(s, e);
    assert Check(NO_PROPS, e.inputs) == e.inputs;
    if e.urn !in s.handles || Replacing(s, e) {
      var before := if e.urn in s.handles then DeleteStep(s, e.urn, e.answers.deletable) else s;
      assert s' == CreateStep(before, e.urn, e.inputs, e.answers);
      hide Created, WorldAfterCreate, Check, ForcesReplace, ChangesInPlace;
      CreateSettles(before.world, e.inputs, e.answers);
    } else {
      var h := s.handles[e.urn];
      if e.inputs.env == Some([]) { EmptyEnvReplaces(h, e.inputs); }
      hide Check, ForcesReplace, ChangesInPlace, Updated;
      UpdateSettles(s.world, h, e.inputs, e.answers);
    }
  }

  lemma EmptyEnvReplaces(h: Handle, inputs: Props)
    requires inputs.env == Some([]) && WellFormed(h)
    ensures ReplacedFields(h, Check(h.props, inputs)) != []
  {
  }
}
