/** Where source builds are published, and how the references of what was built are merged into the
    workloads: local clusters pull from the local registry, Azure clusters from the ACR. */
module BuildRouting {
  import opened Wrappers
  import opened References
  import opened Publishing
  import opened Strings
  import RegistryRoutes

  /* ----- Workloads ----- */

  datatype Slinky = Slinky(prefix: string, plainHttp: bool,
                           crdsVersion: string, operatorVersion: string, slurmVersion: string,
                           operatorImage: Option<Image>, webhookImage: Option<Image>)

  datatype CustomRegistry = CustomRegistry(name: string, port: nat)

  datatype Parameters = Parameters(resourceGroup: Option<string>, useDiscovered: bool)

  datatype Workload =
    | Local(slinky: Slinky, registry: Option<nat>, custom: Option<CustomRegistry>)
    | Aks(slinky: Slinky, acr: Option<string>, identities: Option<string>, parameters: Parameters)
    | AzureByo(slinky: Slinky, acr: Option<string>)

  type Workloads = map<string, Workload>

  predicate HasLocal(ws: Workloads) { exists n :: n in ws && ws[n].Local? }

  predicate HasAzure(ws: Workloads) { exists n :: n in ws && !ws[n].Local? }

  predicate HasByo(ws: Workloads) { exists n :: n in ws && ws[n].AzureByo? }

  predicate SameClass(a: Workload, b: Workload) { (a.Local? <==> b.Local?) && (a.Aks? <==> b.Aks?) }

  datatype Problem =
    | InvalidBuilds
    | NoRunnerIdentity
    | InvalidImage(reference: string)
    | NoArtifact
    | NoAksIdentity
    | InvalidRegistry

  /* ----- The validators, which copies of a model skip ----- */

  predicate ValidImage(image: Image) {
    && image.repository != "" && (image.tag.None? != image.digest.None?)
    && image.tag != Some("") && image.digest != Some("")
  }

  function OciScheme(): string { "oci://" }

  predicate ValidSlinky(s: Slinky) {
    && s.prefix != "" && s.crdsVersion != "" && s.operatorVersion != "" && s.slurmVersion != ""
    && (s.operatorImage.Some? ==> ValidImage(s.operatorImage.value))
    && (s.webhookImage.Some? ==> ValidImage(s.webhookImage.value))
    && (s.plainHttp ==> OciScheme() <= s.prefix)
  }

  /** What each field of a valid deployment has to be, the others being as they are. */
  lemma EachFieldCounts(s: Slinky, text: string, image: Image)
    requires ValidSlinky(s)
    ensures ValidSlinky(s.(prefix := text)) <==> text != "" && (s.plainHttp ==> "oci://" <= text)
    ensures ValidSlinky(s.(plainHttp := true)) <==> "oci://" <= s.prefix
    ensures ValidSlinky(s.(crdsVersion := text)) <==> text != ""
    ensures ValidSlinky(s.(operatorVersion := text)) <==> text != ""
    ensures ValidSlinky(s.(slurmVersion := text)) <==> text != ""
    ensures var byTag := image.tag.Some? && image.tag.value != "" && image.digest.None?;
            var byDigest := image.digest.Some? && image.digest.value != "" && image.tag.None?;
            && (ValidSlinky(s.(operatorImage := Some(image))) <==> image.repository != "" && (byTag || byDigest))
            && (ValidSlinky(s.(webhookImage := Some(image))) <==> image.repository != "" && (byTag || byDigest))
  {
  }

  predicate AllValid(ws: Workloads) { forall n :: n in ws ==> ValidSlinky(ws[n].slinky) }

  predicate IsAlphanumeric(c: char) { 'a' <= c <= 'z' || 'A' <= c <= 'Z' || '0' <= c <= '9' }

  predicate ValidRegistry(name: string, port: nat) {
    && name != "" && IsAlphanumeric(name[0]) && 1 <= port
    && forall i :: 0 <= i < |name| ==> IsAlphanumeric(name[i]) || name[i] in ['.', '_', ':', '-']
  }

  /* ----- Merging ----- */

  function SlinkyImage(reference: Option<string>): Result<Option<Image>, Problem> {
    if reference.None? then Success(None)
    else
      match ParseImage(reference.value)
      case Failure(e) => Failure(InvalidImage(e.reference))
      case Success(image) => Success(Some(image))
  }

  function OrElse<T>(update: Option<T>, otherwise: Option<T>): Option<T> { if update.Some? then update else otherwise }

  /** The chart source and the images that are given replace those of a deployment. */
  function Overridden(s: Slinky, prefix: Option<string>, version: Option<string>,
                      operator: Option<Image>, webhook: Option<Image>): Slinky {
    Slinky(Or(prefix, s.prefix), prefix.Some? || s.plainHttp,
           Or(version, s.crdsVersion), Or(version, s.operatorVersion), Or(version, s.slurmVersion),
           OrElse(operator, s.operatorImage), OrElse(webhook, s.webhookImage))
  }

  datatype LocalOverrides = LocalOverrides(prefix: Option<string>, version: Option<string>,
                                           operator: Option<string>, webhook: Option<string>,
                                           registryName: Option<string>, registryPort: Option<nat>)

  datatype LocalSettings = LocalSettings(operator: Option<Image>, webhook: Option<Image>,
                                         custom: Option<CustomRegistry>)

  /** What every local workload gets, or the problem that the first one raises. */
  function SettingsOf(o: LocalOverrides): Result<LocalSettings, Problem> {
    var operator, webhook := SlinkyImage(o.operator), SlinkyImage(o.webhook);
    if operator.Failure? then Failure(operator.error)
    else if webhook.Failure? then Failure(webhook.error)
    else if o.registryName.None? || o.registryPort.None? then
      Success(LocalSettings(operator.value, webhook.value, None))
    else if !ValidRegistry(o.registryName.value, o.registryPort.value) then Failure(InvalidRegistry)
    else
      Success(LocalSettings(operator.value, webhook.value,
                            Some(CustomRegistry(o.registryName.value, o.registryPort.value))))
  }

  function LocalUpdated(w: Workload, o: LocalOverrides, s: LocalSettings): Workload
    requires w.Local?
  {
    Local(Overridden(w.slinky, o.prefix, o.version, s.operator, s.webhook), w.registry, OrElse(s.custom, w.custom))
  }

  function MergedLocal(ws: Workloads, o: LocalOverrides): Result<Workloads, Problem> {
    var settings := SettingsOf(o);
    if !HasLocal(ws) then Success(ws)
    else if settings.Failure? then Failure(settings.error)
    else Success(map n | n in ws :: if ws[n].Local? then LocalUpdated(ws[n], o, settings.value) else ws[n])
  }

  /** One local workload: chart source, images, registry, in this order. */
  method UpdateLocal(workload: Workload, o: LocalOverrides) returns (r: Result<Workload, Problem>)
    requires workload.Local?
    ensures r == if SettingsOf(o).Failure? then Failure(SettingsOf(o).error)
                 else Success(LocalUpdated(workload, o, SettingsOf(o).value))
  {
    hide SlinkyImage, ValidRegistry;
    var slinky, custom := workload.slinky, workload.custom;
    if o.prefix.Some? { slinky := slinky.(prefix := o.prefix.value, plainHttp := true); }
    if o.version.Some? {
      var version := o.version.value;
      slinky := slinky.(crdsVersion := version, operatorVersion := version, slurmVersion := version);
    }
    var operator := SlinkyImage(o.operator);
    if operator.Failure? { return Failure(operator.error); }
    if operator.value.Some? { slinky := slinky.(operatorImage := operator.value); }
    var webhook := SlinkyImage(o.webhook);
    if webhook.Failure? { return Failure(webhook.error); }
    if webhook.value.Some? { slinky := slinky.(webhookImage := webhook.value); }
    if o.registryName.Some? && o.registryPort.Some? {
      if !ValidRegistry(o.registryName.value, o.registryPort.value) { return Failure(InvalidRegistry); }
      custom := Some(CustomRegistry(o.registryName.value, o.registryPort.value));
    }
    return Success(Local(slinky, workload.registry, custom));
  }

  method MergeLocal(ws: Workloads, o: LocalOverrides) returns (r: Result<Workloads, Problem>)
    ensures r == MergedLocal(ws, o)
  {
    hide SettingsOf, LocalUpdated;
    var merged: Workloads := map[];
    var pending := ws.Keys;
    while pending != {}
      invariant pending <= ws.Keys && merged.Keys == ws.Keys - pending
      invariant forall n :: n in merged && ws[n].Local? ==> SettingsOf(o).Success?
      invariant forall n :: n in merged ==>
                  merged[n] == if ws[n].Local? then LocalUpdated(ws[n], o, SettingsOf(o).value) else ws[n]
    {
      var name :| name in pending;
      var w := ws[name];
      if w.Local? {
        var updated := UpdateLocal(w, o);
        if updated.Failure? { return Failure(updated.error); }
        w := updated.value;
      }
      merged := merged[name := w];
      pending := pending - {name};
    }
    r := Success(merged);
    if n :| n in ws && ws[n].Local? {
      assert n in merged;
      assert merged == MergedLocal(ws, o).value;
    } else {
      assert merged == ws;
    }
  }

  datatype BuildName =
    | SlinkyOperator
    | SlinkyWebhook
    | SlinkyCharts
    | CapzController
    | CapzProvider
    | Named(name: string)

  /** The ACR, the references built for it, the chart source, and what is known of AKS workloads. */
  datatype AzureOverrides = AzureOverrides(acr: string, references: map<BuildName, seq<string>>,
                                           prefix: Option<string>, version: Option<string>,
                                           identities: map<string, string>, groups: map<string, string>)

  /** The image of a build for Azure: the first of its references. */
  function AzureImage(references: map<BuildName, seq<string>>, build: BuildName): Result<Option<Image>, Problem> {
    if build !in references then Success(None)
    else if references[build] == [] then Failure(NoArtifact)
    else SlinkyImage(Some(references[build][0]))
  }

  function AzureImages(o: AzureOverrides): Result<(Option<Image>, Option<Image>), Problem> {
    var operator, webhook := AzureImage(o.references, SlinkyOperator), AzureImage(o.references, SlinkyWebhook);
    if operator.Failure? then Failure(operator.error)
    else if webhook.Failure? then Failure(webhook.error)
    else Success((operator.value, webhook.value))
  }

  predicate KnowsAks(ws: Workloads, o: AzureOverrides) {
    forall n :: n in ws && ws[n].Aks? ==> n in o.identities && n in o.groups
  }

  function AzureUpdated(name: string, w: Workload, o: AzureOverrides, images: (Option<Image>, Option<Image>)): Workload
    requires !w.Local? && (w.Aks? ==> name in o.identities && name in o.groups)
  {
    var slinky := Overridden(w.slinky, o.prefix, o.version, images.0, images.1);
    if w.Aks? then Aks(slinky, Some(o.acr), Some(o.identities[name]), Parameters(Some(o.groups[name]), false))
    else AzureByo(slinky, Some(o.acr))
  }

  function MergedAzure(ws: Workloads, o: AzureOverrides): Result<Workloads, Problem> {
    var images := AzureImages(o);
    if !HasAzure(ws) then Success(ws)
    else if images.Failure? then Failure(images.error)
    else if !KnowsAks(ws, o) then Failure(NoAksIdentity)
    else Success(map n | n in ws :: if ws[n].Local? then ws[n] else AzureUpdated(n, ws[n], o, images.value))
  }

  /** One Azure workload: images, chart source, registry, and what AKS needs, in this order. */
  method UpdateAzure(name: string, workload: Workload, o: AzureOverrides) returns (r: Result<Workload, Problem>)
    requires !workload.Local?
    ensures r == if AzureImages(o).Failure? then Failure(AzureImages(o).error)
                 else if workload.Aks? && !(name in o.identities && name in o.groups) then Failure(NoAksIdentity)
                 else Success(AzureUpdated(name, workload, o, AzureImages(o).value))
  {
    hide AzureImage;
    var w, slinky := workload, workload.slinky;
    var operator := AzureImage(o.references, SlinkyOperator);
    if operator.Failure? { return Failure(operator.error); }
    if operator.value.Some? { slinky := slinky.(operatorImage := operator.value); }
    var webhook := AzureImage(o.references, SlinkyWebhook);
    if webhook.Failure? { return Failure(webhook.error); }
    if webhook.value.Some? { slinky := slinky.(webhookImage := webhook.value); }
    if o.prefix.Some? { slinky := slinky.(prefix := o.prefix.value, plainHttp := true); }
    if o.version.Some? {
      var version := o.version.value;
      slinky := slinky.(crdsVersion := version, operatorVersion := version, slurmVersion := version);
    }
    w := w.(acr := Some(o.acr), slinky := slinky);
    if w.Aks? {
      if name !in o.identities || name !in o.groups { return Failure(NoAksIdentity); }
      w := w.(identities := Some(o.identities[name]), parameters := Parameters(Some(o.groups[name]), false));
    }
    return Success(w);
  }

  method MergeAzure(ws: Workloads, o: AzureOverrides) returns (r: Result<Workloads, Problem>)
    ensures r == MergedAzure(ws, o)
  {
    hide AzureImages, AzureUpdated;
    var merged: Workloads := map[];
    var pending := ws.Keys;
    while pending != {}
      invariant pending <= ws.Keys && merged.Keys == ws.Keys - pending
      invariant forall n :: n in merged && !ws[n].Local? ==> AzureImages(o).Success?
      invariant forall n :: n in merged && ws[n].Aks? ==> n in o.identities && n in o.groups
      invariant forall n :: n in merged ==>
                  merged[n] == if ws[n].Local? then ws[n] else AzureUpdated(n, ws[n], o, AzureImages(o).value)
    {
      var name :| name in pending;
      var w := ws[name];
      if !w.Local? {
        var updated := UpdateAzure(name, w, o);
        if updated.Failure? { return Failure(updated.error); }
        w := updated.value;
      }
      merged := merged[name := w];
      pending := pending - {name};
    }
    r := Success(merged);
    if n :| n in ws && !ws[n].Local? {
      assert n in merged;
      assert merged == map n | n in ws ::
        if ws[n].Local? then ws[n] else AzureUpdated(n, ws[n], o, AzureImages(o).value);
    } else {
      assert merged == ws;
    }
  }

  /* ----- What the merges keep ----- */

  function Then(r: Result<Workloads, Problem>, next: Workloads -> Result<Workloads, Problem>)
    : Result<Workloads, Problem>
  {
    if r.Failure? then r else next(r.value)
  }

  /** Keys and classes stay; the local merge leaves Azure workloads alone and conversely. */
  lemma MergesKeepClasses(ws: Workloads, o: LocalOverrides, a: AzureOverrides)
    ensures MergedLocal(ws, o).Success? ==>
              var after := MergedLocal(ws, o).value;
              && after.Keys == ws.Keys && (HasLocal(after) <==> HasLocal(ws)) && (HasAzure(after) <==> HasAzure(ws))
              && forall n :: n in ws ==> SameClass(after[n], ws[n]) && (!ws[n].Local? ==> after[n] == ws[n])
    ensures MergedAzure(ws, a).Success? ==>
              var after := MergedAzure(ws, a).value;
              && after.Keys == ws.Keys && (HasLocal(after) <==> HasLocal(ws)) && (HasAzure(after) <==> HasAzure(ws))
              && forall n :: n in ws ==> SameClass(after[n], ws[n]) && (ws[n].Local? ==> after[n] == ws[n])
  {
    hide SettingsOf, AzureImages, Overridden;
  }

  /** The two merges commute: in either order they give the same workloads, or the same problem
      unless each of them has one of its own. */
  lemma MergesCommute(ws: Workloads, o: LocalOverrides, a: AzureOverrides)
    ensures var one, other := Then(MergedLocal(ws, o), after => MergedAzure(after, a)),
                              Then(MergedAzure(ws, a), after => MergedLocal(after, o));
            && (one.Success? <==> other.Success?)
            && (one != other ==> MergedLocal(ws, o).Failure? && MergedAzure(ws, a).Failure?)
  {
    MergesKeepClasses(ws, o, a);
    hide SettingsOf, AzureImages, Overridden, HasLocal, HasAzure;
    var local, azure := MergedLocal(ws, o), MergedAzure(ws, a);
    if local.Success? { assert KnowsAks(local.value, a) <==> KnowsAks(ws, a); }
    if local.Success? && azure.Success? {
      var one, other := MergedAzure(local.value, a).value, MergedLocal(azure.value, o).value;
      assert one.Keys == other.Keys;
      assert forall n :: n in ws ==> one[n] == if ws[n].Local? then local.value[n] else azure.value[n];
      assert forall n :: n in ws ==> other[n] == if ws[n].Local? then local.value[n] else azure.value[n];
      assert one == other;
    }
  }

  /** When a merge for local workloads fails: with one of them there, the first reference that does not
      parse is reported, the operator's before the webhook's, and then a registry that is none. */
  lemma LocalMergeFailsExactly(ws: Workloads, o: LocalOverrides)
    ensures var fails := (reference: Option<string>) => reference.Some? && ParseImage(reference.value).Failure?;
            var r := MergedLocal(ws, o);
            if !HasLocal(ws) then r == Success(ws)
            else if fails(o.operator) then r == Failure(InvalidImage(o.operator.value))
            else if fails(o.webhook) then r == Failure(InvalidImage(o.webhook.value))
            else if o.registryName.Some? && o.registryPort.Some?
                    && !ValidRegistry(o.registryName.value, o.registryPort.value)
            then r == Failure(InvalidRegistry)
            else r.Success?
  {
    ParseNames(o.operator);
    ParseNames(o.webhook);
    hide ParseImage, ValidRegistry, HasLocal, LocalUpdated;
  }

  lemma ParseNames(reference: Option<string>)
    ensures reference.Some? && ParseImage(reference.value).Failure? ==>
              SlinkyImage(reference) == Failure(InvalidImage(reference.value))
  {
  }

  /** And for Azure workloads: a build without any artifact, then a reference that does not parse, the
      operator's before the webhook's, and then an AKS workload without identity or group. */
  lemma AzureMergeFailsExactly(ws: Workloads, o: AzureOverrides)
    ensures var none := (b: BuildName) => b in o.references && o.references[b] == [];
            var fails := (b: BuildName) => b in o.references && o.references[b] != []
                                           && ParseImage(o.references[b][0]).Failure?;
            var r := MergedAzure(ws, o);
            if !HasAzure(ws) then r == Success(ws)
            else if none(SlinkyOperator) then r == Failure(NoArtifact)
            else if fails(SlinkyOperator) then r == Failure(InvalidImage(o.references[SlinkyOperator][0]))
            else if none(SlinkyWebhook) then r == Failure(NoArtifact)
            else if fails(SlinkyWebhook) then r == Failure(InvalidImage(o.references[SlinkyWebhook][0]))
            else if exists n :: n in ws && ws[n].Aks? && (n !in o.identities || n !in o.groups)
            then r == Failure(NoAksIdentity)
            else r.Success?
  {
    forall b | b in o.references && o.references[b] != [] { ParseNames(Some(o.references[b][0])); }
    hide ParseImage, HasAzure, AzureUpdated;
  }

  lemma ParsedImageIsValid(reference: string)
    ensures ParseImage(reference).Success? ==> ValidImage(ParseImage(reference).value)
  {
  }

  /** What a chart source must be for the skipped validator to hold of the copy. */
  predicate ValidSource(prefix: Option<string>, version: Option<string>) {
    (prefix.Some? ==> OciScheme() <= prefix.value) && version != Some("")
  }

  lemma OverriddenIsValid(s: Slinky, prefix: Option<string>, version: Option<string>,
                          operator: Option<Image>, webhook: Option<Image>)
    requires ValidSlinky(s)
    requires operator.Some? ==> ValidImage(operator.value)
    requires webhook.Some? ==> ValidImage(webhook.value)
    ensures ValidSlinky(Overridden(s, prefix, version, operator, webhook)) <==> ValidSource(prefix, version)
  {
    hide ValidImage;
  }

  lemma SettingsAreValid(o: LocalOverrides)
    ensures SettingsOf(o).Success? ==>
              && (SettingsOf(o).value.operator.Some? ==> ValidImage(SettingsOf(o).value.operator.value))
              && (SettingsOf(o).value.webhook.Some? ==> ValidImage(SettingsOf(o).value.webhook.value))
  {
    if o.operator.Some? { ParsedImageIsValid(o.operator.value); }
    if o.webhook.Some? { ParsedImageIsValid(o.webhook.value); }
    hide ParseImage, ValidImage, ValidRegistry;
  }

  /** The validators that the copies skip hold of every merged local workload exactly when the chart
      prefix that is merged, if any, is an OCI one and the version, if any, is not empty: the images
      always pass. */
  lemma MergedLocalIsValid(ws: Workloads, o: LocalOverrides)
    requires AllValid(ws) && HasLocal(ws) && MergedLocal(ws, o).Success?
    ensures AllValid(MergedLocal(ws, o).value) <==> ValidSource(o.prefix, o.version)
  {
    SettingsAreValid(o);
    hide SettingsOf, Overridden, ValidSlinky, ValidSource, ValidImage;
    var s, after := SettingsOf(o).value, MergedLocal(ws, o).value;
    forall n | n in ws && ws[n].Local? ensures ValidSlinky(after[n].slinky) <==> ValidSource(o.prefix, o.version) {
      OverriddenIsValid(ws[n].slinky, o.prefix, o.version, s.operator, s.webhook);
    }
    var n :| n in ws && ws[n].Local?;
    assert n in after;
  }

  lemma ImagesAreValid(o: AzureOverrides)
    ensures AzureImages(o).Success? ==>
              && (AzureImages(o).value.0.Some? ==> ValidImage(AzureImages(o).value.0.value))
              && (AzureImages(o).value.1.Some? ==> ValidImage(AzureImages(o).value.1.value))
  {
    forall reference ensures ParseImage(reference).Success? ==> ValidImage(ParseImage(reference).value) {
      ParsedImageIsValid(reference);
    }
    hide ParseImage, ValidImage;
  }

  lemma MergedAzureIsValid(ws: Workloads, o: AzureOverrides)
    requires AllValid(ws) && HasAzure(ws) && MergedAzure(ws, o).Success?
    ensures AllValid(MergedAzure(ws, o).value) <==> ValidSource(o.prefix, o.version)
  {
    ImagesAreValid(o);
    hide AzureImages, Overridden, ValidSlinky, ValidSource, ValidImage;
    var images, after := AzureImages(o).value, MergedAzure(ws, o).value;
    forall n | n in ws && !ws[n].Local? ensures ValidSlinky(after[n].slinky) <==> ValidSource(o.prefix, o.version) {
      OverriddenIsValid(ws[n].slinky, o.prefix, o.version, images.0, images.1);
    }
    var n :| n in ws && !ws[n].Local?;
    assert n in after;
  }

  /* ----- Where builds go ----- */

  datatype Builder = DockerImage(imageName: string) | CapzBundle | SlinkyChartSet

  type Builds = map<BuildName, Builder>

  datatype Target = LocalTarget | AcrTarget

  /** What a stack is made from: its configuration, and what its resources turn out to be. Each
      publication resolves the source to a commit of its own. */
  datatype Stack = Stack(workloads: Workloads, builds: Builds, registryName: string, runnerIdentity: Option<string>,
                         acrServer: string, acr: string, localName: string, localPort: nat, cachePort: nat,
                         service: string, namespace: string,
                         commit: (BuildName, Target) -> string, identity: string -> string, group: string -> string)

  predicate ValidConsumers(builds: Builds) {
    && (CapzController in builds ==> builds[CapzController].DockerImage?)
    && (CapzProvider in builds ==> builds[CapzProvider].CapzBundle?)
    && (SlinkyOperator in builds ==> builds[SlinkyOperator].DockerImage?)
    && (SlinkyWebhook in builds ==> builds[SlinkyWebhook].DockerImage?)
    && (SlinkyCharts in builds ==>
          builds[SlinkyCharts].SlinkyChartSet? && SlinkyOperator in builds && SlinkyWebhook in builds)
  }

  function TargetsOf(s: Stack, build: BuildName): seq<Target> {
    if HasAzure(s.workloads) && build in {SlinkyOperator, SlinkyWebhook} then
      if HasLocal(s.workloads) then [LocalTarget, AcrTarget] else [AcrTarget]
    else [LocalTarget]
  }

  predicate NeedsLocalRegistry(s: Stack) { exists b :: b in s.builds && LocalTarget in TargetsOf(s, b) }

  function DestinationOf(s: Stack, target: Target): Destination {
    if target == AcrTarget then Destination(s.acrServer, s.acrServer)
    else Destination("localhost:" + Decimal(s.localPort), s.localName + ":5000")
  }

  method ChooseDestinations(s: Stack) returns (destinations: map<Target, Destination>)
    ensures AcrTarget in destinations <==> HasAzure(s.workloads)
    ensures LocalTarget in destinations <==> NeedsLocalRegistry(s)
    ensures forall t :: t in destinations ==> destinations[t] == DestinationOf(s, t)
  {
    destinations := map[];
    if HasAzure(s.workloads) { destinations := destinations[AcrTarget := DestinationOf(s, AcrTarget)]; }
    if exists b | b in s.builds :: LocalTarget in TargetsOf(s, b) {
      destinations := destinations[LocalTarget := DestinationOf(s, LocalTarget)];
    }
  }

  predicate AnyWorkload(s: Stack, local: bool) { exists n :: n in s.workloads && s.workloads[n].Local? == local }

  /** The images of the operator go to the registries that some workload pulls from, and to no other,
      once each; without workloads they go to the local one, as all other builds always do. */
  lemma TargetsAre(s: Stack, build: BuildName)
    ensures var targets := TargetsOf(s, build); |targets| <= 2 && (|targets| == 2 ==> targets[0] != targets[1])
    ensures build in {SlinkyOperator, SlinkyWebhook} ==>
              && (AcrTarget in TargetsOf(s, build) <==> AnyWorkload(s, false))
              && (LocalTarget in TargetsOf(s, build) <==> AnyWorkload(s, true) || !AnyWorkload(s, false))
    ensures build !in {SlinkyOperator, SlinkyWebhook} ==> TargetsOf(s, build) == [LocalTarget]
  {
    if n :| n in s.workloads && !s.workloads[n].Local? { assert HasAzure(s.workloads); }
    if n :| n in s.workloads && s.workloads[n].Local? { assert HasLocal(s.workloads); }
  }

  /** A registry stands behind every target that is chosen, and is made for no other reason but Azure
      workloads; each image goes to every registry that one of its consumers pulls from. */
  lemma TargetsAreServed(s: Stack, build: BuildName)
    requires build in s.builds
    ensures TargetsOf(s, build) != []
    ensures AcrTarget in TargetsOf(s, build) ==> HasAzure(s.workloads)
    ensures LocalTarget in TargetsOf(s, build) ==> NeedsLocalRegistry(s)
    ensures build in {SlinkyOperator, SlinkyWebhook} ==>
              forall n :: n in s.workloads ==> TargetFor(s.workloads[n]) in TargetsOf(s, build)
    ensures NeedsLocalRegistry(s) <==>
              exists b :: b in s.builds && (b in {SlinkyOperator, SlinkyWebhook} ==>
                                              AnyWorkload(s, true) || !AnyWorkload(s, false))
  {
    forall b | b in s.builds { TargetsAre(s, b); }
    if n :| n in s.workloads && s.workloads[n].Local? { assert HasLocal(s.workloads); }
    if n :| n in s.workloads && !s.workloads[n].Local? { assert HasAzure(s.workloads); }
  }

  function TargetFor(w: Workload): Target { if w.Local? then LocalTarget else AcrTarget }

  function First12(commit: string): string { if |commit| <= 12 then commit else commit[..12] }

  function SourceTag(commit: string): string { "source-" + First12(commit) }

  function ChartVersion(commit: string): string { "0.0.0-source" + First12(commit) }

  function PlanOf(builder: Builder, commit: string): Plan {
    match builder
    case DockerImage(imageName) => [(imageName, SourceTag(commit))]
    case CapzBundle => [("capz/cluster-api-provider-azure", SourceTag(commit))]
    case SlinkyChartSet =>
      var version := ChartVersion(commit);
      [("charts/slurm-operator-crds", version), ("charts/slurm-operator", version), ("charts/slurm", version)]
  }

  function PublicationOf(s: Stack, build: BuildName, target: Target): Outputs
    requires build in s.builds
  {
    var commit := s.commit(build, target);
    OutputsOf(Inputs(DestinationOf(s, target), map[]), commit, PlanOf(s.builds[build], commit))
  }

  /** Publish one build on each of its targets; the destination of each is there. */
  method PublishBuild(s: Stack, build: BuildName, destinations: map<Target, Destination>,
                      local: map<BuildName, Outputs>, azure: map<BuildName, Outputs>)
    returns (local': map<BuildName, Outputs>, azure': map<BuildName, Outputs>)
    requires build in s.builds
    requires forall t :: t in TargetsOf(s, build) ==> t in destinations && destinations[t] == DestinationOf(s, t)
    ensures local' ==
            if LocalTarget in TargetsOf(s, build) then local[build := PublicationOf(s, build, LocalTarget)] else local
    ensures azure' ==
            if AcrTarget in TargetsOf(s, build) then azure[build := PublicationOf(s, build, AcrTarget)] else azure
  {
    hide PlanOf, OutputsOf, DestinationOf, HasLocal, HasAzure;
    local', azure' := local, azure;
    var targets := TargetsOf(s, build);
    for i := 0 to |targets|
      invariant local' ==
                if LocalTarget in targets[..i] then local[build := PublicationOf(s, build, LocalTarget)] else local
      invariant azure' ==
                if AcrTarget in targets[..i] then azure[build := PublicationOf(s, build, AcrTarget)] else azure
    {
      var target := targets[i];
      assert target in targets;
      var commit := s.commit(build, target);
      var publication := OutputsOf(Inputs(destinations[target], map[]), commit, PlanOf(s.builds[build], commit));
      if target == LocalTarget {
        local' := local'[build := publication];
      } else {
        azure' := azure'[build := publication];
      }
    }
    assert targets[..|targets|] == targets;
  }

  /** The publications of some builds on one target. */
  function PublishedOf(s: Stack, builds: set<BuildName>, target: Target): map<BuildName, Outputs>
    requires builds <= s.builds.Keys
  {
    map b | b in builds && target in TargetsOf(s, b) :: PublicationOf(s, b, target)
  }

  function PublicationsOn(s: Stack, target: Target): map<BuildName, Outputs> { PublishedOf(s, s.builds.Keys, target) }

  lemma PublishedNext(s: Stack, builds: set<BuildName>, build: BuildName, target: Target)
    requires builds <= s.builds.Keys && build in s.builds
    ensures PublishedOf(s, builds + {build}, target) ==
            if target in TargetsOf(s, build) then
              PublishedOf(s, builds, target)[build := PublicationOf(s, build, target)]
            else PublishedOf(s, builds - {build}, target)
  {
    hide PublicationOf, TargetsOf;
  }

  method Publish(s: Stack, destinations: map<Target, Destination>)
    returns (local: map<BuildName, Outputs>, azure: map<BuildName, Outputs>)
    requires AcrTarget in destinations <==> HasAzure(s.workloads)
    requires LocalTarget in destinations <==> NeedsLocalRegistry(s)
    requires forall t :: t in destinations ==> destinations[t] == DestinationOf(s, t)
    ensures local == PublicationsOn(s, LocalTarget) && azure == PublicationsOn(s, AcrTarget)
  {
    hide PublicationOf, DestinationOf, HasLocal, HasAzure, NeedsLocalRegistry, TargetsOf, PublishedOf;
    local, azure := map[], map[];
    var pending := s.builds.Keys;
    NothingPublished(s);
    while pending != {}
      invariant pending <= s.builds.Keys
      invariant local == PublishedOf(s, s.builds.Keys - pending, LocalTarget)
      invariant azure == PublishedOf(s, s.builds.Keys - pending, AcrTarget)
    {
      var build :| build in pending;
      TargetsAreServed(s, build);
      ghost var done := s.builds.Keys - pending;
      PublishedNext(s, done, build, LocalTarget);
      PublishedNext(s, done, build, AcrTarget);
      assert done - {build} == done && s.builds.Keys - (pending - {build}) == done + {build};
      assert forall t :: t in TargetsOf(s, build) ==> t == LocalTarget || t == AcrTarget;
      local, azure := PublishBuild(s, build, destinations, local, azure);
      pending := pending - {build};
    }
    assert s.builds.Keys - pending == s.builds.Keys;
  }

  lemma NothingPublished(s: Stack)
    ensures PublishedOf(s, {}, LocalTarget) == map[] && PublishedOf(s, {}, AcrTarget) == map[]
    ensures s.builds.Keys - s.builds.Keys == {}
  {
  }

  /* ----- What every workload ends with ----- */

  function ChartPrefix(s: Stack): string {
    OciScheme() + s.service + "." + s.namespace + ".svc.cluster.local:5000/charts"
  }

  function BuiltImage(s: Stack, build: BuildName, target: Target): Option<Image> {
    if build in s.builds && s.builds[build].DockerImage? then
      Some(Image(DestinationOf(s, target).consumerServer + "/" + s.builds[build].imageName,
                 Some(SourceTag(s.commit(build, target))), None))
    else None
  }

  /** The charts that are built are served from the management cluster, and to Azure workloads too. */
  function ExpectedCharts(s: Stack): (Option<string>, Option<string>) {
    if SlinkyCharts !in s.builds then (None, None)
    else (Some(ChartPrefix(s)), Some(ChartVersion(s.commit(SlinkyCharts, LocalTarget))))
  }

  /** The deployment of a workload that pulls from a target. */
  function RoutedSlinky(s: Stack, slinky: Slinky, target: Target): Slinky {
    var (prefix, version) := ExpectedCharts(s);
    Overridden(slinky, prefix, version, BuiltImage(s, SlinkyOperator, target), BuiltImage(s, SlinkyWebhook, target))
  }

  predicate BuildsSlinky(s: Stack) {
    SlinkyCharts in s.builds || SlinkyOperator in s.builds || SlinkyWebhook in s.builds
  }

  function Routed(s: Stack, name: string, w: Workload): Workload {
    match w
    case Local(slinky, _, custom) =>
      Local(RoutedSlinky(s, slinky, LocalTarget), Some(s.cachePort),
            if BuildsSlinky(s) then Some(CustomRegistry(s.registryName, s.localPort)) else custom)
    case Aks(slinky, _, _, _) =>
      Aks(RoutedSlinky(s, slinky, AcrTarget), Some(s.acr), Some(s.identity(name)),
          Parameters(Some(s.group(name)), false))
    case AzureByo(slinky, _) => AzureByo(RoutedSlinky(s, slinky, AcrTarget), Some(s.acr))
  }

  /** The whole routing of a stack, said workload by workload. */
  function Routing(s: Stack): Result<Workloads, Problem> {
    if !ValidConsumers(s.builds) then Failure(InvalidBuilds)
    else if HasByo(s.workloads) && s.runnerIdentity.None? then Failure(NoRunnerIdentity)
    else if HasLocal(s.workloads) && BuildsSlinky(s) && !ValidRegistry(s.registryName, s.localPort) then
      Failure(InvalidRegistry)
    else Success(map n | n in s.workloads :: Routed(s, n, s.workloads[n]))
  }

  /** The builds that the workloads consume are of the kind that they expect, the charts not without the
      two images. */
  predicate BuildsSuit(builds: Builds) {
    && (forall b :: b in builds && b in {CapzController, SlinkyOperator, SlinkyWebhook} ==> builds[b].DockerImage?)
    && (CapzProvider in builds ==> builds[CapzProvider] == CapzBundle)
    && (SlinkyCharts in builds ==>
          builds[SlinkyCharts] == SlinkyChartSet && {SlinkyOperator, SlinkyWebhook} <= builds.Keys)
  }

  /** A name of letters, digits, dots, underscores, colons and hyphens, the first a letter or digit. */
  predicate IsRegistryName(name: string) {
    && name != "" && name[0] !in "._:-"
    && forall i :: 0 <= i < |name| ==>
         'a' <= name[i] <= 'z' || 'A' <= name[i] <= 'Z' || '0' <= name[i] <= '9' || name[i] in "._:-"
  }

  lemma RegistryNames(name: string, port: nat)
    ensures ValidRegistry(name, port) <==> IsRegistryName(name) && port != 0
  {
    assert forall c: char :: c in "._:-" <==> c in ['.', '_', ':', '-'];
  }

  /** Which stacks fail, and how: those with builds that do not suit, then those that bring their own
      cluster but no identity for it, then local ones with a build and a registry that is none. */
  lemma RoutingFailsExactly(s: Stack)
    ensures var noIdentity := (exists n :: n in s.workloads && s.workloads[n].AzureByo?) && s.runnerIdentity.None?;
            var noRegistry := && (exists n :: n in s.workloads && s.workloads[n].Local?)
                              && (exists b :: b in s.builds && b in {SlinkyCharts, SlinkyOperator, SlinkyWebhook})
                              && !(IsRegistryName(s.registryName) && s.localPort != 0);
            && (Routing(s) == Failure(InvalidBuilds) <==> !BuildsSuit(s.builds))
            && (Routing(s) == Failure(NoRunnerIdentity) <==> BuildsSuit(s.builds) && noIdentity)
            && (Routing(s) == Failure(InvalidRegistry) <==> BuildsSuit(s.builds) && !noIdentity && noRegistry)
            && (Routing(s).Success? <==> BuildsSuit(s.builds) && !noIdentity && !noRegistry)
  {
    RegistryNames(s.registryName, s.localPort);
    assert ValidConsumers(s.builds) <==> BuildsSuit(s.builds);
    hide ValidRegistry, Routed, IsRegistryName;
  }

  /* ----- The stack's own steps ----- */

  function Registered(ws: Workloads, port: nat): Workloads {
    map n | n in ws :: if ws[n].Local? then ws[n].(registry := Some(port)) else ws[n]
  }

  method RegisterCache(ws: Workloads, port: nat) returns (registered: Workloads)
    ensures registered == Registered(ws, port)
  {
    registered := map[];
    var pending := ws.Keys;
    while pending != {}
      invariant pending <= ws.Keys && registered.Keys == ws.Keys - pending
      invariant forall n :: n in registered ==> registered[n] == Registered(ws, port)[n]
    {
      var name :| name in pending;
      var w := ws[name];
      if w.Local? { w := w.(registry := Some(port)); }
      registered := registered[name := w];
      pending := pending - {name};
    }
  }

  /** The tag of a planned repository. */
  function TagOf(plan: Plan, repository: string): Option<string> {
    if plan == [] then None else if plan[0].0 == repository then Some(plan[0].1) else TagOf(plan[1..], repository)
  }

  function SlurmChart(): string { "charts/slurm" }

  /** The first reference of a publication, if there is one. */
  function FirstReference(published: map<BuildName, Outputs>, build: BuildName): Option<string> {
    if build in published && published[build].artifactRefs != [] then Some(published[build].artifactRefs[0]) else None
  }

  function ChartSource(s: Stack, local: map<BuildName, Outputs>): (Option<string>, Option<string>) {
    if SlinkyCharts !in local then
      (None, None)
    else
      (Some(ChartPrefix(s)), TagOf(local[SlinkyCharts].tags, SlurmChart()))
  }

  function LocalOverridesOf(s: Stack, local: map<BuildName, Outputs>): LocalOverrides {
    var overridden := SlinkyCharts in local || SlinkyOperator in local || SlinkyWebhook in local;
    var (prefix, version) := ChartSource(s, local);
    LocalOverrides(prefix, version, FirstReference(local, SlinkyOperator), FirstReference(local, SlinkyWebhook),
                   if overridden then Some(s.registryName) else None, if overridden then Some(s.localPort) else None)
  }

  function AzureOverridesOf(s: Stack, local: map<BuildName, Outputs>, azure: map<BuildName, Outputs>): AzureOverrides {
    var (prefix, version) := ChartSource(s, local);
    AzureOverrides(s.acr, map b | b in azure :: azure[b].artifactRefs, prefix, version,
                   map n | n in s.workloads && s.workloads[n].Aks? :: s.identity(n),
                   map n | n in s.workloads && s.workloads[n].Aks? :: s.group(n))
  }

  /** Commits are hexadecimal; all that matters is that they have no colon. */
  ghost predicate PlainCommits(s: Stack) { forall b, t :: ':' !in s.commit(b, t) }

  /** Plan the destinations, publish on them, merge what was published: every workload ends as the
      routing says, or the stack fails as it says. */
  method Deploy(s: Stack) returns (r: Result<Workloads, Problem>)
    requires PlainCommits(s)
    ensures r == Routing(s)
  {
    hide ValidRegistry, DestinationOf, Routed, PlainCommits, Registered, HasByo, HasAzure, PublicationOf,
         MergedLocal, MergedAzure;
    if !ValidConsumers(s.builds) { return Failure(InvalidBuilds); }
    if HasByo(s.workloads) && s.runnerIdentity.None? { return Failure(NoRunnerIdentity); }
    MergingIsRouting(s);
    var destinations := ChooseDestinations(s);
    var local, azure := Publish(s, destinations);
    var base := RegisterCache(s.workloads, s.cachePort);
    hide ValidConsumers, LocalOverridesOf, AzureOverridesOf, PublicationsOn, Routing;
    r := MergeLocal(base, LocalOverridesOf(s, local));
    if r.Success? && HasAzure(s.workloads) { r := MergeAzure(r.value, AzureOverridesOf(s, local, azure)); }
  }

  /* ----- The merges give the routing ----- */

  lemma First12IsPlain(commit: string)
    requires ':' !in commit
    ensures ':' !in SourceTag(commit) && SourceTag(commit) != ""
  {
    assert forall c :: c in First12(commit) ==> c in commit;
  }

  /** The reference of a published image parses back to the image. */
  lemma PublishedImageParses(s: Stack, build: BuildName, target: Target)
    requires PlainCommits(s) && build in s.builds && s.builds[build].DockerImage?
    ensures PublicationOf(s, build, target).artifactRefs != []
    ensures SlinkyImage(Some(PublicationOf(s, build, target).artifactRefs[0])) == Success(BuiltImage(s, build, target))
  {
    var commit := s.commit(build, target);
    First12IsPlain(commit);
    ParseOfPrinted(DestinationOf(s, target).consumerServer, s.builds[build].imageName, SourceTag(commit));
    hide ParseImage, SourceTag, Printed, DestinationOf;
  }

  lemma ChartSourceOf(s: Stack)
    requires ValidConsumers(s.builds)
    ensures ChartSource(s, PublicationsOn(s, LocalTarget)) == ExpectedCharts(s)
  {
    if SlinkyCharts in s.builds {
      assert LocalTarget in TargetsOf(s, SlinkyCharts);
      ChartTag(s.commit(SlinkyCharts, LocalTarget));
    }
    hide ChartPrefix, ChartVersion, DestinationOf, PlanOf, TagOf;
  }

  lemma {:induction false} TagOfThird(a: (string, string), b: (string, string), c: (string, string), repository: string)
    requires a.0 != repository && b.0 != repository && c.0 == repository
    ensures TagOf([a, b, c], repository) == Some(c.1)
  {
    assert [a, b, c][1..] == [b, c] && [b, c][1..] == [c];
    assert TagOf([c], repository) == Some(c.1);
    assert TagOf([b, c], repository) == TagOf([c], repository);
  }

  lemma ChartTag(commit: string)
    ensures TagOf(PlanOf(SlinkyChartSet, commit), SlurmChart()) == Some(ChartVersion(commit))
  {
    var plan := PlanOf(SlinkyChartSet, commit);
    assert |plan[0].0| == 26 && |plan[1].0| == 21 && |SlurmChart()| == 12;
    TagOfThird(plan[0], plan[1], plan[2], SlurmChart());
    assert plan == [plan[0], plan[1], plan[2]];
  }

  predicate Consumes(s: Stack, target: Target) { exists n :: n in s.workloads && TargetFor(s.workloads[n]) == target }

  /** What a workload's merge parses is the image that was built for its registry. */
  lemma ImageOnTarget(s: Stack, build: BuildName, target: Target)
    requires PlainCommits(s) && ValidConsumers(s.builds) && Consumes(s, target)
    requires build in {SlinkyOperator, SlinkyWebhook}
    ensures build in s.builds <==> build in PublicationsOn(s, target)
    ensures build in s.builds ==> PublicationsOn(s, target)[build].artifactRefs != []
    ensures SlinkyImage(FirstReference(PublicationsOn(s, target), build)) == Success(BuiltImage(s, build, target))
  {
    if build in s.builds {
      TargetsAreServed(s, build);
      PublishedImageParses(s, build, target);
    }
    hide PublicationOf, ParseImage, PlainCommits, TargetsOf, SourceTag, DestinationOf;
  }

  function ExpectedSettings(s: Stack): LocalSettings {
    LocalSettings(BuiltImage(s, SlinkyOperator, LocalTarget), BuiltImage(s, SlinkyWebhook, LocalTarget),
                  if BuildsSlinky(s) then Some(CustomRegistry(s.registryName, s.localPort)) else None)
  }

  lemma ChartsArePublished(s: Stack)
    ensures SlinkyCharts in s.builds <==> SlinkyCharts in PublicationsOn(s, LocalTarget)
  {
    hide PublicationOf;
  }

  lemma LocalSettingsOf(s: Stack)
    requires PlainCommits(s) && ValidConsumers(s.builds) && Consumes(s, LocalTarget)
    ensures SettingsOf(LocalOverridesOf(s, PublicationsOn(s, LocalTarget))) ==
            if BuildsSlinky(s) && !ValidRegistry(s.registryName, s.localPort) then Failure(InvalidRegistry)
            else Success(ExpectedSettings(s))
  {
    hide ValidRegistry, PlainCommits, SlinkyImage, FirstReference, PublicationsOn, BuiltImage, Consumes, ValidConsumers;
    ImageOnTarget(s, SlinkyOperator, LocalTarget);
    ImageOnTarget(s, SlinkyWebhook, LocalTarget);
    ChartsArePublished(s);
  }

  lemma AzureImageIsFirst(published: map<BuildName, Outputs>, build: BuildName)
    requires build in published ==> published[build].artifactRefs != []
    ensures AzureImage(map b | b in published :: published[b].artifactRefs, build)
                == SlinkyImage(FirstReference(published, build))
  {
    hide ParseImage;
  }

  lemma AzureImagesOf(s: Stack)
    requires PlainCommits(s) && ValidConsumers(s.builds) && Consumes(s, AcrTarget)
    ensures AzureImages(AzureOverridesOf(s, PublicationsOn(s, LocalTarget), PublicationsOn(s, AcrTarget))) ==
            Success((BuiltImage(s, SlinkyOperator, AcrTarget), BuiltImage(s, SlinkyWebhook, AcrTarget)))
  {
    ImageOnTarget(s, SlinkyOperator, AcrTarget);
    ImageOnTarget(s, SlinkyWebhook, AcrTarget);
    hide PlainCommits, ValidConsumers, Consumes, BuiltImage, ChartSource, PublicationsOn, SlinkyImage,
         FirstReference, AzureImage;
    AzureImageIsFirst(PublicationsOn(s, AcrTarget), SlinkyOperator);
    AzureImageIsFirst(PublicationsOn(s, AcrTarget), SlinkyWebhook);
  }

  lemma ConsumersAre(s: Stack)
    ensures Consumes(s, LocalTarget) <==> HasLocal(s.workloads)
    ensures Consumes(s, AcrTarget) <==> HasAzure(s.workloads)
  {
    if n :| n in s.workloads && TargetFor(s.workloads[n]) == LocalTarget { assert HasLocal(s.workloads); }
    if n :| n in s.workloads && TargetFor(s.workloads[n]) == AcrTarget { assert HasAzure(s.workloads); }
    if n :| n in s.workloads && s.workloads[n].Local? { assert TargetFor(s.workloads[n]) == LocalTarget; }
    if n :| n in s.workloads && !s.workloads[n].Local? { assert TargetFor(s.workloads[n]) == AcrTarget; }
  }

  lemma RegisteredClasses(ws: Workloads, port: nat)
    ensures var after := Registered(ws, port);
            && (HasLocal(after) <==> HasLocal(ws)) && (HasAzure(after) <==> HasAzure(ws))
            && forall n :: n in ws ==> SameClass(after[n], ws[n])
  {
    var after := Registered(ws, port);
    if n :| n in ws && ws[n].Local? { assert after[n].Local?; }
    if n :| n in ws && !ws[n].Local? { assert !after[n].Local?; }
  }

  /** The arguments that the stack merges with, said from its builds. */
  predicate RoutingLocal(s: Stack, o: LocalOverrides) {
    && (o.prefix, o.version) == ExpectedCharts(s)
    && (HasLocal(s.workloads) ==>
          SettingsOf(o) == if BuildsSlinky(s) && !ValidRegistry(s.registryName, s.localPort)
                           then Failure(InvalidRegistry)
                           else Success(ExpectedSettings(s)))
  }

  predicate RoutingAzure(s: Stack, a: AzureOverrides) {
    && (a.prefix, a.version) == ExpectedCharts(s) && a.acr == s.acr
    && (forall n :: n in s.workloads && s.workloads[n].Aks? ==>
          n in a.identities && a.identities[n] == s.identity(n) && n in a.groups && a.groups[n] == s.group(n))
    && (HasAzure(s.workloads) ==>
          AzureImages(a) ==
          Success((BuiltImage(s, SlinkyOperator, AcrTarget), BuiltImage(s, SlinkyWebhook, AcrTarget))))
  }

  lemma LocalIsRouted(s: Stack, n: string, o: LocalOverrides)
    requires n in s.workloads && s.workloads[n].Local? && (o.prefix, o.version) == ExpectedCharts(s)
    ensures LocalUpdated(s.workloads[n].(registry := Some(s.cachePort)), o, ExpectedSettings(s))
                == Routed(s, n, s.workloads[n])
  {
    hide BuiltImage, ChartPrefix, ChartVersion, BuildsSlinky;
  }

  lemma AzureIsRouted(s: Stack, n: string, a: AzureOverrides)
    requires n in s.workloads && !s.workloads[n].Local? && RoutingAzure(s, a)
    ensures AzureUpdated(n, s.workloads[n], a,
                (BuiltImage(s, SlinkyOperator, AcrTarget), BuiltImage(s, SlinkyWebhook, AcrTarget)))
            == Routed(s, n, s.workloads[n])
  {
    hide BuiltImage, ChartPrefix, ChartVersion, AzureImages, HasAzure;
  }

  lemma MergingIsRouting(s: Stack)
    requires PlainCommits(s) && ValidConsumers(s.builds) && (HasByo(s.workloads) ==> s.runnerIdentity.Some?)
    ensures var local, azure := PublicationsOn(s, LocalTarget), PublicationsOn(s, AcrTarget);
            var merged := MergedLocal(Registered(s.workloads, s.cachePort), LocalOverridesOf(s, local));
            Routing(s) == if merged.Success? && HasAzure(s.workloads)
                          then MergedAzure(merged.value, AzureOverridesOf(s, local, azure)) else merged
  {
    hide SettingsOf, AzureImages, BuiltImage, ValidRegistry, PublicationsOn, PlainCommits, ValidConsumers,
         BuildsSlinky, HasLocal, HasAzure, Routing, MergedLocal, MergedAzure, Registered, ExpectedCharts,
         ExpectedSettings, Consumes, FirstReference, ChartSource;
    var local, azure := PublicationsOn(s, LocalTarget), PublicationsOn(s, AcrTarget);
    ChartSourceOf(s);
    ConsumersAre(s);
    if HasLocal(s.workloads) { LocalSettingsOf(s); }
    if HasAzure(s.workloads) { AzureImagesOf(s); }
    ExpectedMergesRoute(s, LocalOverridesOf(s, local), AzureOverridesOf(s, local, azure));
  }

  lemma LocalMergeRoutes(s: Stack, o: LocalOverrides)
    requires RoutingLocal(s, o)
    ensures var merged := MergedLocal(Registered(s.workloads, s.cachePort), o);
            if HasLocal(s.workloads) && BuildsSlinky(s) && !ValidRegistry(s.registryName, s.localPort)
            then merged == Failure(InvalidRegistry)
            else && merged.Success? && merged.value.Keys == s.workloads.Keys
                 && forall n :: n in s.workloads ==>
                      merged.value[n] == if s.workloads[n].Local? then Routed(s, n, s.workloads[n]) else s.workloads[n]
  {
    RegisteredClasses(s.workloads, s.cachePort);
    hide SettingsOf, BuiltImage, ValidRegistry, BuildsSlinky, HasLocal, HasAzure, Routed, LocalUpdated,
         ExpectedSettings, ExpectedCharts;
    forall n | n in s.workloads && s.workloads[n].Local? ensures HasLocal(s.workloads) { OneIsLocal(s.workloads, n); }
    forall n | n in s.workloads && s.workloads[n].Local?
      ensures LocalUpdated(Registered(s.workloads, s.cachePort)[n], o, ExpectedSettings(s))
                  == Routed(s, n, s.workloads[n])
    {
      LocalIsRouted(s, n, o);
    }
  }

  lemma AzureMergeRoutes(s: Stack, mid: Workloads, a: AzureOverrides)
    requires RoutingAzure(s, a) && mid.Keys == s.workloads.Keys && HasAzure(s.workloads) && HasAzure(mid)
    requires forall n :: n in s.workloads ==>
               if s.workloads[n].Local? then
                 mid[n].Local? && mid[n] == Routed(s, n, s.workloads[n])
               else
                 mid[n] == s.workloads[n]
    ensures MergedAzure(mid, a) == Success(map n | n in s.workloads :: Routed(s, n, s.workloads[n]))
  {
    hide AzureImages, BuiltImage, HasAzure, Routed, AzureUpdated, ExpectedCharts;
    assert KnowsAks(mid, a);
    assert AzureImages(a)
        == Success((BuiltImage(s, SlinkyOperator, AcrTarget), BuiltImage(s, SlinkyWebhook, AcrTarget)));
    var r := MergedAzure(mid, a).value;
    forall n | n in s.workloads ensures r[n] == Routed(s, n, s.workloads[n]) {
      if !s.workloads[n].Local? { AzureIsRouted(s, n, a); }
    }
    assert r == map n | n in s.workloads :: Routed(s, n, s.workloads[n]);
  }

  lemma ExpectedMergesRoute(s: Stack, o: LocalOverrides, a: AzureOverrides)
    requires ValidConsumers(s.builds) && (HasByo(s.workloads) ==> s.runnerIdentity.Some?)
    requires RoutingLocal(s, o) && RoutingAzure(s, a)
    ensures var merged := MergedLocal(Registered(s.workloads, s.cachePort), o);
            Routing(s) == if merged.Success? && HasAzure(s.workloads) then MergedAzure(merged.value, a) else merged
  {
    hide RoutingLocal, RoutingAzure, MergedLocal, MergedAzure, ValidRegistry, ValidConsumers, BuildsSlinky,
         HasLocal, HasByo, Routed, Registered;
    LocalMergeRoutes(s, o);
    RoutedClass(s);
    var merged := MergedLocal(Registered(s.workloads, s.cachePort), o);
    if merged.Success? {
      if n :| n in s.workloads && !s.workloads[n].Local? {
        assert !merged.value[n].Local?;
        AzureMergeRoutes(s, merged.value, a);
      } else {
        assert merged.value == Routing(s).value;
      }
    }
  }

  lemma RoutedClass(s: Stack)
    ensures forall n :: n in s.workloads ==> SameClass(Routed(s, n, s.workloads[n]), s.workloads[n])
  {
    hide RoutedSlinky;
  }

  lemma OneIsLocal(ws: Workloads, n: string)
    requires n in ws && ws[n].Local?
    ensures HasLocal(ws)
  {
  }

  /* ----- What the routing means ----- */

  predicate Refers(image: Option<Image>, reference: string) {
    image.Some? && image.value.tag.Some? && image.value.repository + ":" + image.value.tag.value == reference
  }

  /** An image that was built is, in every workload, the one published on the registry which the
      workload pulls from; one that was not built stays as configured. */
  predicate ImageIsRouted(s: Stack, target: Target, build: BuildName, before: Option<Image>, after: Option<Image>) {
    if build in s.builds then
      && target in TargetsOf(s, build) && PublicationOf(s, build, target).artifactRefs != []
      && Refers(after, PublicationOf(s, build, target).artifactRefs[0])
    else after == before
  }

  /** The image of a build as a workload names it: below the name by which it reaches its registry, at
      the tag made of the first twelve characters of the commit, or of a whole shorter one. */
  predicate IsBuilt(image: Option<Image>, server: string, imageName: string, commit: string) {
    && image.Some? && image.value.repository == server + "/" + imageName && image.value.digest.None?
    && image.value.tag == Some("source-" + if |commit| < 12 then commit else commit[..12])
  }

  /** A local workload's image is the one on its ctlptl registry, an Azure workload's the one on the ACR. */
  predicate PullsBuild(s: Stack, w: Workload, build: BuildName, image: Option<Image>) {
    build in s.builds ==>
      && s.builds[build].DockerImage?
      && if w.Local? then
           IsBuilt(image, s.localName + ":5000", s.builds[build].imageName, s.commit(build, LocalTarget))
         else
           IsBuilt(image, s.acrServer, s.builds[build].imageName, s.commit(build, AcrTarget))
  }

  lemma BuiltImageIs(s: Stack, build: BuildName)
    requires build in s.builds ==> s.builds[build].DockerImage?
    ensures build in s.builds ==>
              && IsBuilt(BuiltImage(s, build, LocalTarget), s.localName + ":5000", s.builds[build].imageName,
                         s.commit(build, LocalTarget))
              && IsBuilt(BuiltImage(s, build, AcrTarget), s.acrServer, s.builds[build].imageName,
                         s.commit(build, AcrTarget))
  {
    if build in s.builds {
      WholeCommit(s.commit(build, LocalTarget));
      WholeCommit(s.commit(build, AcrTarget));
    }
    hide First12, Decimal;
  }

  lemma WholeCommit(commit: string)
    ensures First12(commit) == if |commit| < 12 then commit else commit[..12]
  {
  }

  lemma RoutedImagesAreBuilt(s: Stack, n: string)
    requires n in s.workloads && Routing(s).Success?
    ensures var before, after := s.workloads[n], Routing(s).value[n];
            && PullsBuild(s, before, SlinkyOperator, after.slinky.operatorImage)
            && PullsBuild(s, before, SlinkyWebhook, after.slinky.webhookImage)
  {
    BuiltImageIs(s, SlinkyOperator);
    BuiltImageIs(s, SlinkyWebhook);
    hide HasLocal, HasByo, ValidRegistry, ExpectedCharts, BuiltImage, IsBuilt;
  }

  lemma BuiltImageIsPublished(s: Stack, build: BuildName, target: Target)
    requires build in s.builds && s.builds[build].DockerImage?
    ensures PublicationOf(s, build, target).artifactRefs != []
    ensures Refers(BuiltImage(s, build, target), PublicationOf(s, build, target).artifactRefs[0])
  {
    var image := BuiltImage(s, build, target).value;
    hide SourceTag, DestinationOf;
    assert image.repository + ":" + image.tag.value
        == Printed(DestinationOf(s, target).consumerServer, s.builds[build].imageName,
            SourceTag(s.commit(build, target)));
  }

  lemma RoutedImagesArePublished(s: Stack, n: string)
    requires n in s.workloads && Routing(s).Success?
    ensures var before, after := s.workloads[n], Routing(s).value[n];
            && SameClass(before, after)
            && ImageIsRouted(s, TargetFor(before), SlinkyOperator, before.slinky.operatorImage,
                 after.slinky.operatorImage)
            && ImageIsRouted(s, TargetFor(before), SlinkyWebhook, before.slinky.webhookImage, after.slinky.webhookImage)
            && PullsBuild(s, before, SlinkyOperator, after.slinky.operatorImage)
            && PullsBuild(s, before, SlinkyWebhook, after.slinky.webhookImage)
  {
    RoutedImagesAreBuilt(s, n);
    var target := TargetFor(s.workloads[n]);
    if SlinkyOperator in s.builds {
      TargetsAreServed(s, SlinkyOperator);
      BuiltImageIsPublished(s, SlinkyOperator, target);
    }
    if SlinkyWebhook in s.builds {
      TargetsAreServed(s, SlinkyWebhook);
      BuiltImageIsPublished(s, SlinkyWebhook, target);
    }
    hide TargetsOf, PublicationOf, Refers, HasLocal, HasByo, ValidRegistry, SourceTag, DestinationOf, ChartPrefix,
         ChartVersion, PullsBuild;
  }

  /** The recipe and the inputs behind a publication. */
  function RecipeOf(s: Stack, build: BuildName): Recipe
    requires build in s.builds
  {
    Recipe((options: Options, commit: string) => PlanOf(s.builds[build], commit), None)
  }

  /** The CAPZ bundle is one artifact of a fixed name; and every recipe plans what a publication needs:
      something, and no repository twice. */
  lemma RecipesAreValid(s: Stack, build: BuildName)
    requires build in s.builds
    ensures RecipeOf(s, build).Valid()
    ensures s.builds[build].CapzBundle? ==>
              forall options, commit :: RecipeOf(s, build).plan(options, commit)
                                        == [("capz/cluster-api-provider-azure", SourceTag(commit))]
  {
    forall commit ensures IsPlan(PlanOf(s.builds[build], commit)) { PlanIsPlan(s.builds[build], commit); }
    hide SourceTag, ChartVersion;
  }

  lemma PlanIsPlan(builder: Builder, commit: string)
    ensures IsPlan(PlanOf(builder, commit))
  {
    hide SourceTag, ChartVersion;
    if builder.SlinkyChartSet? {
      var plan := PlanOf(builder, commit);
      assert |plan[0].0| == 26 && |plan[1].0| == 21 && |plan[2].0| == 12;
    }
  }

  function InputsOf(s: Stack, target: Target): Inputs { Inputs(DestinationOf(s, target), map[]) }

  lemma ServersAre(s: Stack)
    ensures DestinationOf(s, LocalTarget).server == "localhost:" + Decimal(s.localPort)
    ensures DestinationOf(s, AcrTarget).server == s.acrServer
  {
  }

  function WorkloadImage(w: Workload, build: BuildName): Option<Image> {
    if build == SlinkyOperator then w.slinky.operatorImage else w.slinky.webhookImage
  }

  /** What a workload pulls is there: once the ensure of its registry's publication has returned, at
      whatever point of a run, the manifest of the very repository and tag that its image names is at the
      end of the run on that registry: the ACR, or the one that listens on the local port. */
  lemma RoutedImagesAreThere(s: Stack, n: string, build: BuildName, world: World, before: seq<Event>,
                             after: seq<Event>, answers: Answers)
    requires n in s.workloads && Routing(s).Success? && build in {SlinkyOperator, SlinkyWebhook} && build in s.builds
    requires var target := TargetFor(s.workloads[n]);
             && answers.commit == Some(s.commit(build, target))
             && EnsureResult(Run(world, before), RecipeOf(s, build), InputsOf(s, target), answers).Success?
    ensures var w, target := s.workloads[n], TargetFor(s.workloads[n]);
            var image := WorkloadImage(Routing(s).value[n], build);
            && target in TargetsOf(s, build) && PullsBuild(s, w, build, image)
            && image.Some? && image.value.tag.Some? && s.builds[build].DockerImage?
            && Manifest(if w.Local? then "localhost:" + Decimal(s.localPort) else s.acrServer,
                        s.builds[build].imageName, image.value.tag.value)
               in Run(world, before + [EnsureEvent(RecipeOf(s, build), InputsOf(s, target), answers)] + after)
  {
    RoutedImagesAreBuilt(s, n);
    ServersAre(s);
    hide HasLocal, HasByo, ValidRegistry, SourceTag, DestinationOf, ExpectedCharts, Run, EnsureResult, TargetsOf,
         PullsBuild, Decimal;
    var w := s.workloads[n];
    var target := TargetFor(w);
    TargetsAreServed(s, build);
    PlanStaysPresent(world, before, after, RecipeOf(s, build), InputsOf(s, target), answers);
    var tag := SourceTag(s.commit(build, target));
    var plan := PlanOf(s.builds[build], s.commit(build, target));
    assert plan == [(s.builds[build].imageName, tag)] && plan[0].0 == s.builds[build].imageName;
    var manifest := Manifest(DestinationOf(s, target).server, s.builds[build].imageName, tag);
    assert manifest in PlannedBy(InputsOf(s, target), plan);
    assert WorkloadImage(Routed(s, n, w), build) == BuiltImage(s, build, target);
  }

  /** A deployment with the built charts: the service of the management cluster as their source, and one
      version, made of the first twelve characters of the commit, or of a whole shorter one. */
  predicate ServesCharts(s: Stack, slinky: Slinky) {
    var commit := s.commit(SlinkyCharts, LocalTarget);
    && slinky.prefix == "oci://" + s.service + "." + s.namespace + ".svc.cluster.local:5000/charts"
    && slinky.plainHttp && slinky.crdsVersion == slinky.operatorVersion == slinky.slurmVersion
    && slinky.slurmVersion == "0.0.0-source" + if |commit| < 12 then commit else commit[..12]
  }

  lemma RoutedChartsAre(s: Stack, n: string)
    requires n in s.workloads && Routing(s).Success? && SlinkyCharts in s.builds
    ensures ServesCharts(s, Routing(s).value[n].slinky)
  {
    hide BuiltImage, DestinationOf, HasLocal, HasByo, ValidRegistry;
  }

  /** The charts that a workload installs are there: once the ensure of the charts' publication has
      returned, at whatever point of a run, each chart is at the end of it on the local registry, under
      the repository of the workload's chart source and at the version that the workload carries. */
  lemma RoutedChartsAreThere(s: Stack, n: string, chart: string, world: World, before: seq<Event>, after: seq<Event>,
                             answers: Answers)
    requires n in s.workloads && Routing(s).Success? && SlinkyCharts in s.builds
    requires chart == "slurm-operator-crds" || chart == "slurm-operator" || chart == "slurm"
    requires answers.commit == Some(s.commit(SlinkyCharts, LocalTarget))
    requires EnsureResult(Run(world, before), RecipeOf(s, SlinkyCharts), InputsOf(s, LocalTarget), answers).Success?
    ensures var slinky := Routing(s).value[n].slinky;
            && LocalTarget in TargetsOf(s, SlinkyCharts) && ServesCharts(s, slinky)
            && Manifest("localhost:" + Decimal(s.localPort), "charts/" + chart, slinky.slurmVersion)
               in Run(world,
                      before + [EnsureEvent(RecipeOf(s, SlinkyCharts), InputsOf(s, LocalTarget), answers)] + after)
  {
    RoutedChartsAre(s, n);
    ServersAre(s);
    hide HasLocal, HasByo, ValidRegistry, ChartVersion, DestinationOf, BuiltImage, ChartPrefix, Run, EnsureResult,
         ServesCharts, Decimal;
    PlanStaysPresent(world, before, after, RecipeOf(s, SlinkyCharts), InputsOf(s, LocalTarget), answers);
    ChartIsPlanned(s, chart);
  }

  lemma ChartIsPlanned(s: Stack, chart: string)
    requires SlinkyCharts in s.builds && s.builds[SlinkyCharts].SlinkyChartSet?
    requires chart == "slurm-operator-crds" || chart == "slurm-operator" || chart == "slurm"
    ensures var commit := s.commit(SlinkyCharts, LocalTarget);
            Manifest(DestinationOf(s, LocalTarget).server, "charts/" + chart, ChartVersion(commit))
            in PlannedBy(InputsOf(s, LocalTarget), PlanOf(s.builds[SlinkyCharts], commit))
  {
    hide ChartVersion, DestinationOf;
    var plan := PlanOf(s.builds[SlinkyCharts], s.commit(SlinkyCharts, LocalTarget));
    assert plan[0].0 == "charts/" + "slurm-operator-crds";
    assert plan[1].0 == "charts/" + "slurm-operator" && plan[2].0 == "charts/" + "slurm";
  }

  /** The custom route of a local cluster is for the configured registry name, and its images are on the
      registry that ctlptl made or adopted: the route serves the images exactly when the names are one. */
  lemma CustomRouteServesImages(s: Stack, n: string)
    requires n in s.workloads && s.workloads[n].Local? && Routing(s).Success? && BuildsSlinky(s)
    ensures var after := Routing(s).value[n];
            && after.custom.Some?
            && (RegistryRoutes.BuiltIn(after.registry, Some((after.custom.value.name, after.custom.value.port)),
                                       s.localName + ":5000").Some?
                <==> s.localName == s.registryName)
  {
    hide RoutedSlinky, HasLocal, HasByo, ValidRegistry, Decimal;
    var server, docker := s.localName + ":5000", "docker.io";
    assert server[|server| - 1] == '0' && docker[|docker| - 1] == 'o';
    assert (s.localName + ":5000")[..|s.localName|] == s.localName;
    assert (s.registryName + ":5000")[..|s.registryName|] == s.registryName;
    assert s.localName + ":5000" == s.registryName + ":5000" ==> |s.localName| == |s.registryName|;
  }

  /** Charts that are built replace the source and all three versions of every workload's charts; with
      none built they stay. Azure workloads get the ACR, and AKS ones the identity made for them. */
  lemma RoutedChartsAreServed(s: Stack, n: string)
    requires n in s.workloads && Routing(s).Success?
    ensures var before, after := s.workloads[n], Routing(s).value[n];
            && (if SlinkyCharts in s.builds then
                  && ServesCharts(s, after.slinky)
                  && after.slinky.slurmVersion == PublicationOf(s, SlinkyCharts, LocalTarget).tags[0].1
                else
                  && after.slinky.prefix == before.slinky.prefix && after.slinky.plainHttp == before.slinky.plainHttp
                  && after.slinky.crdsVersion == before.slinky.crdsVersion
                  && after.slinky.operatorVersion == before.slinky.operatorVersion
                  && after.slinky.slurmVersion == before.slinky.slurmVersion)
            && (before.Local? ==>
                  && after.registry == Some(s.cachePort)
                  && after.custom == if exists b :: b in s.builds && b in {SlinkyCharts, SlinkyOperator, SlinkyWebhook}
                                     then Some(CustomRegistry(s.registryName, s.localPort)) else before.custom)
            && (!before.Local? ==> after.acr == Some(s.acr))
            && (before.Aks? ==>
                  after.identities == Some(s.identity(n)) && after.parameters == Parameters(Some(s.group(n)), false))
  {
    if SlinkyCharts in s.builds { RoutedChartsAre(s, n); }
    hide BuiltImage, ChartVersion, DestinationOf, HasLocal, HasByo, ValidRegistry, ServesCharts;
  }

  /** The validators that the copies skip hold of every workload that comes out. */
  lemma RoutedWorkloadsAreValid(s: Stack)
    requires AllValid(s.workloads) && Routing(s).Success?
    ensures AllValid(Routing(s).value)
  {
    hide Overridden, ValidSlinky, ValidImage, ValidRegistry, ValidConsumers, HasLocal, HasByo;
    assert ValidSource(ExpectedCharts(s).0, ExpectedCharts(s).1);
    forall n | n in s.workloads ensures ValidSlinky(Routed(s, n, s.workloads[n]).slinky) {
      var target := TargetFor(s.workloads[n]);
      BuiltImageIsValid(s, SlinkyOperator, target);
      BuiltImageIsValid(s, SlinkyWebhook, target);
      OverriddenIsValid(s.workloads[n].slinky, ExpectedCharts(s).0, ExpectedCharts(s).1,
                        BuiltImage(s, SlinkyOperator, target), BuiltImage(s, SlinkyWebhook, target));
    }
  }

  lemma BuiltImageIsValid(s: Stack, build: BuildName, target: Target)
    ensures BuiltImage(s, build, target).Some? ==> ValidImage(BuiltImage(s, build, target).value)
  {
    hide DestinationOf;
  }
}
