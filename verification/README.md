# Verified model of the cluster tooling

This project models the parts of the repository that hold real algorithms and lifecycles, and proves
what they keep over every input and every run. `dafny verify dfyconfig.toml` checks all of it.

| file | what it models |
|---|---|
| `SlurmLoad.dfy` | the cyclic Slurm load generator: midpoint integration, phase accumulator, pacing |
| `Inventory.dfy` | the AWX dynamic inventory: a group graph grown in place, then sorted |
| `CtlptlRegistry.dfy` | the ctlptl registry resource, its hooks, and the engine that calls them |
| `Publishing.dfy` | the lifecycle of source-built artifacts, with builds that fail half way |
| `PollFence.dfy` | one deadline poll loop, and its three users: project sync, API readiness, Git push |
| `PatchSource.dfy` | the patcher that splices function spans in descending line order |
| `SdkTrees.dfy` | comparing, replacing and cleaning generated SDK trees on disk |
| `RegistryRoutes.dfy` | containerd registry routes, compiled to bootstrap commands and executed on a node |
| `BuildRouting.dfy` | where builds are published, and how references are merged into the workloads |
| `DnsNames.dfy` | DNS-label names of Azure and local resources, and node pools |
| `ResourceIds.dfy` | printing and splitting Azure subnet IDs |
| `References.dfy` | printed artifact references and Flux revisions, and their parsers |
| `Sorting.dfy`, `Strings.dfy`, `Wrappers.dfy` | sorted listings, string operations, optional values and results |

Code that works step by step is a method or a class here (`LoadGenerator`, `Builder`, `Ctlptl`,
`Registry`, `Tree`, the poll loops, the splicing and merging loops), proved against a specification
function. The theorems about whole runs are lemmas about those functions.

How the outside world is represented:

- Floating-point numbers are `real`. The cosine envelope is any function into [0, 1] on one period
  that is 0 at its start and 1 in its middle and adds up to 1 with itself half a period later; for one
  theorem it also reads the same backwards, and for one it rises on the first half.
- Clocks, registries, Git, Docker, HTTP and ctlptl are adversaries: each call takes what they answer
  as a parameter, and every theorem holds for all answers. A clock may move at any time, and moves by
  at least the sleep during a sleep. A failing `ctlptl apply` has bound the registry or has left all
  registries as they were.
- The bootstrap commands of a node run in one shell, so that the gateway variable set by the first is
  there for the others, and a failing command ends the bootstrap.
- A signal can end a load-generator run at any point of any tick, so an endless run is every run that a
  signal ends.
- On an update the Pulumi engine checks, diffs and then updates or replaces; a replacement deletes
  first, and creates from the inputs without the old outputs. Check is given the outputs of the last
  operation here, where the engine gives it the inputs. The two differ for a port that was never pinned,
  which is carried forward here and stays unpinned there; diff reports no change of it either way.
- Lower-casing and case folding are those of ASCII.

## Where the code and its documentation part, and what is proved about it

- A node type that sanitises to `all`, `slurm` or `cluster` makes the inventory cyclic
  (`Inventory.GraphIsAcyclic` says exactly when).
- The host variables follow the listing order when machines of one name disagree
  (`Inventory.HostVarsOrderIndependence`, exactly).
- "If `adopted` is true, deletion is always skipped" (pulumi/ctlptl/ctlptl_registry.py:87-89) holds of
  each handle, yet the registry can be deleted through another handle which created it
  (`CtlptlRegistry.AdoptedRegistryCanBeDeleted` is a run, `CtlptlRegistry.AdoptedLeavesByAnother` says
  exactly when).
- An empty `env` list is stored as an absent one and read back as the default, so the resource is
  replaced at every update (`CtlptlRegistry.CreateSettles`, `CtlptlRegistry.UpConverges`).
- A refresh drops the handle on any failure of `ctlptl get`, not only when the registry is gone
  (`CtlptlRegistry.RefreshDropsUnread`, exactly). An up that adopts the registry again then makes it an
  adopted one, which no destroy removes any more (`CtlptlRegistry.UnreadRefreshLosesOwnership`).
- A failure status that an earlier AWX update left behind ends a project sync which would have
  succeeded (`ProjectSync.SyncEndsExactly` says when a sync returns and when it fails so).
- A capacity that is an integer too large for a float ends the readiness wait with an error which
  nothing catches (`ApiReadiness.WaitEndsExactly`, exactly).
- A resource suffix of 62 characters is accepted and gives a name with a leading hyphen
  (`DnsNames.ResourceNameIsLabel`, exactly); names that are distinct before truncation can collide
  after it (`DnsNames.NamesCollideExactly` says when, `DnsNames.CutNamesCollide` gives a family of inputs).
- Two route hosts with one URL and different schemes pass the validator, and the last one wins in the
  file (`RegistryRoutes.SameUrlTwoSchemes`); a hosts file says what its route says exactly when the
  resolved URLs differ and no text of a substituted file holds the placeholder
  (`RegistryRoutes.WrittenFileDenotesRoute`).
- Patching a patched file changes nothing only while the marker stays within five lines
  (`PatchSource.SecondPassExactly`, in terms of the file before the first pass); a module that opens with the first function is refused
  the second time (`PatchSource.MarkerPushedOut`).
- Cleaning raises exactly when one listed artifact lies inside another, such as a `.pyc` file in an
  `.egg-info` directory (`SdkTrees.Tree.CleanArtifacts`, `SdkTrees.NestedExactly`, `SdkTrees.ByteCodeInEggInfo`); below a directory with the name
  of a build directory it finds nothing and leaves every artifact (`SdkTrees.ArtifactsOfRoot`, exactly).
- A resource group or a network named like a later collection misleads the ID parser
  (`ResourceIds.SubnetIdRoundTrip`, exactly).
- A submission that `sbatch` refuses still counts in `total_jobs`, which is therefore the number of
  accepted jobs exactly when none was refused (`SlurmLoad.LoadGenerator.Run`; `SlurmLoad.OneJobIsOwed`
  is a run with a job to refuse).
- A signal in a tick, normally in its sleep, finds the tick's jobs off the phase and not in `total_jobs`:
  the summary then accounts for the work exactly when no job is missing (`SlurmLoad.CutConservesExactly`;
  `SlurmLoad.OneJobIsOwed` is a run that reports nothing for the work of one job).
- A refresh asks for the commit that the source has by then, so it drops a resource whose manifests are
  all present exactly when those of the new commit are not (`Publishing.MovedSourceDrops`, and
  `Publishing.MovedSource` for the input).
- A local cluster's custom route is for the configured registry name, its images are on the registry
  that was made or adopted by prefix; the route serves the images exactly when both names are one
  (`BuildRouting.CustomRouteServesImages`).

## Model

| member | source | states |
|---|---|---|
| SlurmLoad.Conservation | scripts/slurm_load_generator.py:270-274 | after any increments, jobs issued plus the carried phase equal the work fed in up to one tolerance a tick, and the phase stays in [0, 1), despite the floor's nudge, the clamp and the snap to zero |
| SlurmLoad.ExactWithoutTolerance | scripts/slurm_load_generator.py:270-274 | without tolerance the jobs issued are the floor of the exact sum |
| SlurmLoad.WholeJobsAreTaken | scripts/slurm_load_generator.py:271-274 | a job is issued as soon as the phase is within a million-millionth of it, and the rest of the phase is carried over, or nothing if that is all there is |
| SlurmLoad.LogicalIsTiled | scripts/slurm_load_generator.py:253-275 | tick k starts at k ticks, cut at the duration |
| SlurmLoad.TickCount | scripts/slurm_load_generator.py:253-267 | a finite run takes exactly ceil(duration / tick) ticks and ends exactly at the duration |
| SlurmLoad.JobBounds | scripts/slurm_load_generator.py:242-288 | the jobs of a finite run lie within one job and the drift of the extreme rates held over the duration |
| SlurmLoad.OpposedRates | scripts/slurm_load_generator.py:122-188 | rates half a cycle apart add up to the sum of the extreme rates |
| SlurmLoad.RateIsCyclic | scripts/slurm_load_generator.py:182-188 | the rate repeats itself with every cycle |
| SlurmLoad.CyclesRunFromLowToHigh | scripts/slurm_load_generator.py:122-188 | the rate is the lowest at the start of every cycle and the highest half a cycle later |
| SlurmLoad.LoadBuildsUp | scripts/slurm_load_generator.py:122-270 | on the first half of every cycle a tick owes no less than an earlier one |
| SlurmLoad.MirroredTicks | scripts/slurm_load_generator.py:264-270 | by the midpoint rule the i-th tick of a cycle owes what the i-th from its end does |
| SlurmLoad.MeanIsExact | scripts/slurm_load_generator.py:253-275 | the work owed over m whole cycles of an even number of ticks is exactly m cycles at the mean rate |
| SlurmLoad.FullCycleMean | scripts/slurm_load_generator.py:253-286 | the jobs issued over m whole cycles differ from that mean by less than one job and a million-millionth a tick |
| SlurmLoad.LoadGenerator.Accumulate | scripts/slurm_load_generator.py:264-275 | one loop body's integration changes phase and logical time as the accumulator says for the rate at the tick's midpoint, which runs from low to high, or as far as a signal lets it come |
| SlurmLoad.LoadGenerator.Submit | scripts/slurm_load_generator.py:284-286 | the jobs of a tick, or as many as the signal allows, are submitted and counted, no earlier than the target wall time |
| SlurmLoad.LoadGenerator.Tick | scripts/slurm_load_generator.py:259-286 | one pass keeps the invariant that ties the fields to the tick count, and all submissions on pace; under a signal it stops in the state of that point |
| SlurmLoad.LoadGenerator.Run | scripts/slurm_load_generator.py:242-288 | the loop stops where the signal finds it, in the state that the specification gives for that point, or after the configured minutes, in the fewest ticks that reach them; the i-th submission carries the logical end of the tick in which the accumulator issued job i and is made no earlier than the start plus that many minutes of the configured wall seconds; every submission is counted, but for one that a signal finds between the call and the count, and all are accepted if and only if none was refused |
| SlurmLoad.CutAccounts | scripts/slurm_load_generator.py:190-286 | at whatever point a signal ends a run, the reported jobs and phase and the missing jobs account for the work up to the drift |
| SlurmLoad.CutConservesExactly | scripts/slurm_load_generator.py:264-286 | for runs whose drift is below half a job, the reported jobs and phase alone do so if and only if the signal came before jobs were taken off the phase, or all jobs of the tick are counted |
| SlurmLoad.AcceptedAreAll | scripts/slurm_load_generator.py:218-221 | the accepted submissions are all if and only if each was accepted |
| SlurmLoad.OneJobIsOwed | scripts/slurm_load_generator.py:253-286 | a configuration whose first tick issues one job, whatever sbatch answers, and whose first sleep is a point at which a signal reports no job and no phase |
| Inventory.SanitizedIsGroupName | projects/awx/inventory/capi_slurm_inventory.py:133-134 | a sanitised name is a non-empty lower-case word without outer underscores, so it never is `_meta` |
| Inventory.SanitizeIsIdempotent | projects/awx/inventory/capi_slurm_inventory.py:133-134 | sanitising twice is sanitising once |
| Inventory.SanitizedIs | projects/awx/inventory/capi_slurm_inventory.py:133-134 | a sanitised name is the text from its first to its last letter or digit, in lower case, with an underscore for every other character |
| Inventory.SanitizedNothing | projects/awx/inventory/capi_slurm_inventory.py:133-134 | a text without letter or digit becomes `unknown` |
| Inventory.AddressIsFirst | projects/awx/inventory/capi_slurm_inventory.py:137-141 | an address is the first non-empty one of its kind, or there is none of that kind |
| Inventory.HostNameIs | projects/awx/inventory/capi_slurm_inventory.py:144-150 | a machine goes by its first host name address, or else by its node, by its own name, or by `unknown`, in this order |
| Inventory.HostVarsAre | projects/awx/inventory/capi_slurm_inventory.py:153-165 | its variables are its labels, name and namespace, and its first external address or else its first internal one |
| Inventory.Builder.AddChild | projects/awx/inventory/capi_slurm_inventory.py:209-218 | a de-duplicating insert adds just its fact and keeps lists free of repetitions |
| Inventory.Builder.AddMachine | projects/awx/inventory/capi_slurm_inventory.py:190-229 | the loop body adds exactly the facts of the machine's placement and its host variables; what these facts are, Inventory.GraphIs says on the labels |
| Inventory.Builder.SortLists | projects/awx/inventory/capi_slurm_inventory.py:231-235 | after sorting, the dictionary is the rendering of its facts |
| Inventory.Builder.Build | projects/awx/inventory/capi_slurm_inventory.py:168-236 | the loop computes the inventory that the set of placements determines, controllers and compute nodes below the groups of their roles (Inventory.GraphIs, Inventory.RolesAre) |
| Inventory.SortedDictionaryIsRendered | projects/awx/inventory/capi_slurm_inventory.py:231-235 | sorting duplicate-free lists gives a dictionary that depends only on the facts held |
| Inventory.GroupsDependOnPlacements | projects/awx/inventory/capi_slurm_inventory.py:168-236 | listings with the same eligible machines give the same groups, whatever the order and repetitions |
| Inventory.ListsAreSortedSets | projects/awx/inventory/capi_slurm_inventory.py:231-236 | every list is sorted, free of repetitions, and holds exactly what the facts say |
| Inventory.HostVarsOrderIndependence | projects/awx/inventory/capi_slurm_inventory.py:197-199 | host variables survive every reordering if and only if machines of one name agree on them |
| Inventory.HostVarsAreOrderFree | projects/awx/inventory/capi_slurm_inventory.py:197-199 | when they agree, the same machines give the same host variables |
| Inventory.SummaryIsExact | projects/awx/inventory/capi_slurm_inventory.py:239-253 | clusters, hosts and groups are sorted listings; the hosts are the eligible ones and are counted, the groups are all; every cluster is that of an eligible machine, and none is missing when machines of one name agree |
| Inventory.GraphIsClosed | projects/awx/inventory/capi_slurm_inventory.py:205-229 | every child is a group and every listed host has variables |
| Inventory.HostsAreReachable | projects/awx/inventory/capi_slurm_inventory.py:201-220 | every eligible host hangs below `all` by its cluster and below `slurm` by its type |
| Inventory.GraphIs | projects/awx/inventory/capi_slurm_inventory.py:168-229 | the graph, fact by fact: besides the roots there is exactly what the labels of some eligible machine bring |
| Inventory.RolesAre | projects/awx/inventory/capi_slurm_inventory.py:222-229 | the group `controller` lists exactly the cluster groups of the machines of the controller type, and those of a type of that very name; likewise `compute` |
| Inventory.GraphIsAcyclic | projects/awx/inventory/capi_slurm_inventory.py:201-229 | the graph is acyclic if and only if no eligible type sanitises to `all`, `slurm` or `cluster` |
| CtlptlRegistry.FirstMatchIsExact | pulumi/ctlptl/ctlptl_registry.py:282-316 | the adoption search returns the first compatible item of the wanted port, or its missing port, or nothing, and only that |
| CtlptlRegistry.FirstRegistryWithPrefix | pulumi/ctlptl/ctlptl_registry.py:301-316 | the search loop finds that item |
| CtlptlRegistry.Ctlptl.Apply | pulumi/ctlptl/ctlptl_registry.py:390-397 | an apply binds the name to its port and environment; a failing one does so or changes nothing |
| CtlptlRegistry.Create | pulumi/ctlptl/ctlptl_registry.py:364-408 | create adopts, or applies and observes, with the world and the handle of the specification |
| CtlptlRegistry.AdoptsFirstSuitable | pulumi/ctlptl/ctlptl_registry.py:282-383 | unless adoption is switched off, the first listed registry under the pinned name, with the environment asked for and the port if both pin one, is adopted, and no registry is touched; without a port the create fails |
| CtlptlRegistry.CreatesNamedRegistry | pulumi/ctlptl/ctlptl_registry.py:384-408 | else the pinned or a new name is applied with its port and environment, no other registry changes, and the handle stores what was asked for and the port observed |
| CtlptlRegistry.Delete | pulumi/ctlptl/ctlptl_registry.py:410-422 | delete removes the registry if and only if the stored `delete_on_destroy` is true and `adopted` is not, an absent one of either being false |
| CtlptlRegistry.Diff | pulumi/ctlptl/ctlptl_registry.py:424-461 | the replaced fields, in order, and whether anything changes |
| CtlptlRegistry.ReplacedFieldsAre | pulumi/ctlptl/ctlptl_registry.py:430-450 | on the fields: a pinned port that is another one, a pinned name that is no prefix of the old one or, without adoption, another one, and another environment, an absent one being the mirror's, are what asks for a replacement |
| CtlptlRegistry.StoredInPlace | pulumi/ctlptl/ctlptl_registry.py:463-502 | an update in place stores the flags asked for and a refresh those it finds, an absent one under its default, and both the port they see |
| CtlptlRegistry.StepTouchesItsOwn | pulumi/ctlptl/ctlptl_registry.py:364-502 | an event touches no handle but its own, and no registry but one it deletes or applies |
| CtlptlRegistry.NameLeavesByTearDown | pulumi/ctlptl/ctlptl_registry.py:364-422 | a name leaves the world if and only if a handle on it that was not adopted and asks for deletion is deleted and the same event does not bind the name again |
| CtlptlRegistry.NameAfterRun | pulumi/ctlptl/ctlptl_registry.py:364-422 | over any run, a name that was there is gone if and only if some event so deletes it and none after that binds it; and a name is there if and only if it was, or some event binds it, and none after that deletes it |
| CtlptlRegistry.AdoptedLeavesByAnother | pulumi/ctlptl/ctlptl_registry.py:364-422 | the registry of an adopted handle leaves if and only if an event so deletes it through another handle |
| CtlptlRegistry.RefreshDropsUnread | pulumi/ctlptl/ctlptl_registry.py:479-502 | a refresh drops the handle if and only if the registry cannot be read or is gone, and touches no registry |
| CtlptlRegistry.UnreadRefreshLosesOwnership | pulumi/ctlptl/ctlptl_registry.py:364-502 | after an unreadable refresh and an up that adopts the registry again, no run removes it, whatever `delete_on_destroy` asks, unless an up applies its name |
| CtlptlRegistry.HandleIsFixed | pulumi/ctlptl/ctlptl_registry.py:463-502 | no event short of replacement changes a handle's id or adopted flag |
| CtlptlRegistry.HandleIsFixedOverRuns | pulumi/ctlptl/ctlptl_registry.py:364-502 | nor does any run |
| CtlptlRegistry.DefaultRunsRetain | pulumi/ctlptl/ctlptl_registry.py:337-422 | as long as every `delete_on_destroy`, given or stored, is absent or false, the set of names never shrinks over any run |
| CtlptlRegistry.ForeignSurvives | pulumi/ctlptl/ctlptl_registry.py:364-422 | a registry that no handle created survives every run that does not itself apply its name |
| CtlptlRegistry.AdoptedRegistryCanBeDeleted | pulumi/ctlptl/ctlptl_registry.py:368-422 | a run in which an adopted registry is deleted through the handle that created it |
| CtlptlRegistry.CreateSettles | pulumi/ctlptl/ctlptl_registry.py:324-461 | check and diff after a create report nothing if and only if `env` is not the empty list |
| CtlptlRegistry.UpdateSettles | pulumi/ctlptl/ctlptl_registry.py:424-477 | an update in place leaves nothing to report |
| CtlptlRegistry.RefreshSettles | pulumi/ctlptl/ctlptl_registry.py:424-502 | nor does a refresh of an undisturbed registry |
| CtlptlRegistry.StepsKeepWellFormed | pulumi/ctlptl/ctlptl_registry.py:349-502 | every event keeps each handle's recorded name, port and environment consistent |
| CtlptlRegistry.UpConverges | pulumi/ctlptl/ctlptl_registry.py:349-477 | a second up with the same inputs changes nothing, or replaces every time when `env` is empty |
| Publishing.Registry.ProbePlan | pulumi/artifacts/publishing.py:56-58 | the probes run in order and stop at the first absence or error |
| Publishing.Ensure | pulumi/artifacts/publishing.py:54-63 | the ensure builds only on a definite absence, and fails as its surroundings do |
| Publishing.Read | pulumi/artifacts/publishing.py:81-92 | the refresh keeps the ID on any error |
| Publishing.ProbeIsExact | pulumi/artifacts/publishing.py:57-58 | presence and absence are reported exactly when the probes before them allow it |
| Publishing.EnsureLeavesPlanPresent | pulumi/artifacts/publishing.py:54-63 | an ensure that returns leaves every planned manifest present, and built exactly when one was absent |
| Publishing.EnsureOfPresentIsQuiet | pulumi/artifacts/publishing.py:54-63 | with the plan present nothing is built and nothing changes |
| Publishing.ReadDropsOnAbsenceOnly | pulumi/artifacts/publishing.py:81-92 | the ID is dropped if and only if some planned manifest is definitely absent |
| Publishing.RunsOnlyPublish | pulumi/artifacts/publishing.py:54-92 | over any run with failures the published manifests only grow |
| Publishing.EnsuredStaysEnsured | pulumi/artifacts/publishing.py:54-92 | after an ensure returned, anywhere in a run, no later ensure of that commit builds and no refresh drops it, whatever ran between |
| Publishing.PlanStaysPresent | pulumi/artifacts/publishing.py:54-92 | the manifests of an ensure that returned, anywhere in a run, are there at its end |
| Publishing.MovedSourceDrops | pulumi/artifacts/publishing.py:81-92 | a refresh that meets no error drops an ensured resource, whose manifests are all there, if and only if those of the commit that the source now has are not |
| Publishing.MovedSource | pulumi/artifacts/publishing.py:81-92 | a source that has moved on after its only build is such an input |
| Publishing.OutputsParse | pulumi/artifacts/publishing.py:38-70 | an output reference parses back to its server, repository and tag if and only if the tag is not empty and has no colon |
| Publishing.OutputsAre | pulumi/artifacts/publishing.py:38-70 | the outputs of an ensure are those planned for its commit, and its ID is the grouping repository or the first planned one, on the consumer's server, at the first tag |
| PollFence.FenceIsExact | pulumi/stacks/init/awx_project_sync.py:87-113 | the loop ends at the first attempt that is good, fatal or too late, and as that attempt says, and at no other outcome |
| PollFence.AttemptsAreBounded | pulumi/stacks/init/awx_api_readiness.py:86-114 | at least one attempt, exactly one when the timeout is not positive, and else all but two of them, five seconds apart, fit into the timeout |
| PollFence.BoundIsReached | pulumi/stacks/init/awx_api_readiness.py:86-114 | and when attempts take no time and none succeeds, it times out only at the attempt whose sleeps fill the timeout |
| PollFence.ReturnsInTime | pulumi/stacks/init/awx_api_readiness.py:90-114 | an environment that turns good, and stays so, by a poll which the deadline allows makes the loop return; else it times out |
| ProjectSync.Sync | pulumi/stacks/init/awx_project_sync.py:77-113 | the loop refines the fence, under the configured timeout or else 300 seconds, and requests one update exactly when the revision differs |
| ProjectSync.SyncIsSound | pulumi/stacks/init/awx_project_sync.py:87-107 | a sync that returns read the expected revision in a success status and met no failure before |
| ProjectSync.SyncEndsExactly | pulumi/stacks/init/awx_project_sync.py:87-113 | a sync returns, or ends at a failure status, at poll n if and only if that poll shows it and every earlier poll is a project, neither failed nor done, read before the deadline |
| ApiReadiness.CountReady | pulumi/stacks/init/awx_api_readiness.py:40-70 | the loop counts the enabled ready dispatch nodes with positive capacity, or raises if and only if the capacity of such a node is too large for a float |
| ApiReadiness.Wait | pulumi/stacks/init/awx_api_readiness.py:82-114 | the loop refines the fence, under the configured timeout or else 300 seconds |
| ApiReadiness.WaitEndsExactly | pulumi/stacks/init/awx_api_readiness.py:82-114 | the wait returns at an attempt if and only if it shows a ready instance, and raises early if and only if it shows a capacity too large, all attempts before having shown neither before the deadline |
| GitPush.Push | pulumi/gitrepo/git_sync.py:157-172 | the loop refines the fence, under 180 seconds |
| GitPush.TransientIs | pulumi/gitrepo/git_sync.py:42-111 | a failure is tried again if and only if git printed one of the seven texts of a passing connection trouble |
| GitPush.PushIsSound | pulumi/gitrepo/git_sync.py:40-172 | only transient failures are retried, at most 37 pushes are made, and the last failure is the one raised |
| GitPush.PushEndsExactly | pulumi/gitrepo/git_sync.py:157-172 | when a push returns, raises at once, or raises for want of time, in terms of the attempts, each if and only if |
| PatchSource.SpliceOne | scripts/patch_crd_sdk_provider_defaults.py:84-91 | splicing a span by its original line numbers replaces its block, when all later blocks are done |
| PatchSource.SpliceInOrder | scripts/patch_crd_sdk_provider_defaults.py:83-92 | splicing in descending order equals replacing all at once |
| PatchSource.Patch | scripts/patch_crd_sdk_provider_defaults.py:68-92 | the whole pass, with its two refusals |
| PatchSource.ReplacementDefines | scripts/patch_crd_sdk_provider_defaults.py:49-65 | what is put in place of a function defines that very function, with nothing but comments, those of the resources with the three texts of the target, and the return of fresh options |
| PatchSource.RefusedExactly | scripts/patch_crd_sdk_provider_defaults.py:69-81 | a module is refused if and only if none of its first five lines has the mark, or else a function has no definition, and then just the missing ones are named |
| PatchSource.OutsideLinesSurvive | scripts/patch_crd_sdk_provider_defaults.py:83-92 | every line outside the two functions is in the result, moved by the lines that the replacements before it add |
| PatchSource.OutsideLinesKeepOrder | scripts/patch_crd_sdk_provider_defaults.py:83-92 | one of two such lines stands before the other in the result if and only if it did in the file |
| PatchSource.LaterDefLaterLine | scripts/patch_crd_sdk_provider_defaults.py:84-86 | spans of different definitions are disjoint and ordered like them |
| PatchSource.PatchedTwice | scripts/patch_crd_sdk_provider_defaults.py:49-92 | replacing twice is replacing once |
| PatchSource.PatchingIsIdempotent | scripts/patch_crd_sdk_provider_defaults.py:68-92 | a second pass returns the same text, or refuses it when the first five lines have lost the marker |
| PatchSource.SecondPassExactly | scripts/patch_crd_sdk_provider_defaults.py:68-92 | a second pass gives what the first gave if and only if some line of the file outside the two functions holds the marker and is not moved beyond line five |
| PatchSource.MarkerBeforeFunctions | scripts/patch_crd_sdk_provider_defaults.py:69-70 | a marker before both functions stays in reach |
| PatchSource.MarkerPushedOut | scripts/patch_crd_sdk_provider_defaults.py:49-70 | a module that opens with the first function is refused the second time |
| SdkTrees.CompareTrees | scripts/regenerate_sdks.py:302-318 | the three sorted reports, in order |
| SdkTrees.GeneratedAreNotKept | scripts/regenerate_sdks.py:25-29 | the generated files are all but those below `crds`, four of the root, those with a part named like build output, and compiled modules |
| SdkTrees.DifferencesAreExact | scripts/regenerate_sdks.py:305-317 | every missing, untracked or differing file is reported as such, and nothing else is |
| SdkTrees.DifferencesAreSorted | scripts/regenerate_sdks.py:305-317 | the reports stand by kind, each kind sorted by path without repetitions |
| SdkTrees.NoDifferenceMeansEqual | scripts/regenerate_sdks.py:302-318 | nothing is reported if and only if the filtered trees are equal |
| SdkTrees.Tree.ReplaceGeneratedFiles | scripts/regenerate_sdks.py:321-329 | succeeds if and only if nothing kept stands in the way; in any case the CRD sources, the four maintained root files, build output and compiled modules are as before, and after a success every other file is exactly the generated one |
| SdkTrees.Tree.CleanArtifacts | scripts/regenerate_sdks.py:83-89 | in any case changes neither the view nor any file outside the artifacts; raises if and only if artifacts are nested; else removes exactly the artifacts and what is below them, and the tree is free of them if and only if its root is not below a build directory or it had none |
| SdkTrees.CleanMeansNothingDiscarded | scripts/regenerate_sdks.py:68-89 | a tree that is looked into has no artifact if and only if it has no directory of build output and no compiled module |
| SdkTrees.NestedExactly | scripts/regenerate_sdks.py:68-89 | artifacts are nested if and only if an `.egg-info` directory holds build output or a compiled module with no other build output on the way |
| SdkTrees.RemovedAreDiscarded | scripts/regenerate_sdks.py:68-89 | a file that goes with the artifacts is a compiled module or lies below build output |
| SdkTrees.ByteCodeInEggInfo | scripts/regenerate_sdks.py:68-89 | a byte-code file in an `.egg-info` directory is such a nesting |
| SdkTrees.NoArtifactLeft | scripts/regenerate_sdks.py:68-89 | a tree whose artifacts are all removed has none |
| SdkTrees.ArtifactsAreNotInView | scripts/regenerate_sdks.py:68-89 | removing any artifacts leaves the generated view alone |
| SdkTrees.ArtifactsOfRoot | scripts/regenerate_sdks.py:68-80 | the artifacts are those of the tree wherever it is, except that there are none below a build directory |
| RegistryRoutes.SubstituteFixes | pulumi/stacks/workload_cluster/workload_cluster_infrastructure_local.py:156-158 | the substitution leaves a text alone if and only if the placeholder does not occur in it |
| RegistryRoutes.TableOfDistinct | pulumi/stacks/workload_cluster/workload_cluster_infrastructure_local.py:148-152 | distinct host texts fill the table in order |
| RegistryRoutes.FullTableIsDistinct | pulumi/stacks/workload_cluster/workload_cluster_infrastructure_local.py:148-152 | and only distinct ones fill it |
| RegistryRoutes.TableIsOrdered | pulumi/stacks/workload_cluster/workload_cluster_infrastructure_local.py:148-152 | whatever the hosts, a URL is listed once, at the place of the first host with it and with the capabilities of the last |
| RegistryRoutes.UrlIs | pulumi/stacks/workload_cluster/workload_cluster_infrastructure_local.py:149 | a host's URL is its own, or its scheme, the gateway and its port |
| RegistryRoutes.WrittenFileDenotesRoute | pulumi/stacks/workload_cluster/workload_cluster_infrastructure_local.py:147-158 | the file written says exactly what its route says, with the gateway resolved, if and only if the route is clean |
| RegistryRoutes.SameUrlTwoSchemes | pulumi/stacks/workload_cluster/registry_setting.py:50-61 | a validated route of which only the last host reaches the file |
| RegistryRoutes.Compile | pulumi/stacks/workload_cluster/workload_cluster_infrastructure_local.py:131-159 | the loop builds the specified command list |
| RegistryRoutes.CommandsAreOrdered | pulumi/stacks/workload_cluster/workload_cluster_infrastructure_local.py:131-159 | the probe is there exactly when some host needs it, first and once; the restart is last and once |
| RegistryRoutes.RoutesRun | pulumi/stacks/workload_cluster/workload_cluster_infrastructure_local.py:147-158 | the routes' own commands succeed if and only if nothing stands in the way, and then every file is written |
| RegistryRoutes.CompiledRoutesRun | pulumi/stacks/workload_cluster/workload_cluster_infrastructure_local.py:131-159 | on any node, executing the commands fails if and only if some host needs a gateway and neither the Docker Desktop name resolves nor a default route is there, or something stands in the way; else it writes every route's file and nothing else |
| RegistryRoutes.NodeDenotesRoutes | pulumi/stacks/workload_cluster/workload_cluster_infrastructure_local.py:131-159 | after a bootstrap that did not fail, a namespace's file on the node says exactly what its route says if and only if the route is clean |
| RegistryRoutes.LocalRoutes | pulumi/stacks/workload_cluster/workload_cluster_infrastructure_local.py:112-128 | the routes are the overrides and, where nothing overrides them, Docker Hub by the cache's port or else the public mirror, and the custom registry by its port; nothing else |
| BuildRouting.ChooseDestinations | pulumi/stack.py:151-215 | a destination stands for exactly the targets that are needed |
| BuildRouting.TargetsAre | pulumi/stack.py:186-193 | the Slinky images go to the registries that some workload pulls from and to no other, without workloads to the local one, and all other builds to the local one |
| BuildRouting.TargetsAreServed | pulumi/stack.py:186-210 | each chosen target has its registry, each Slinky image goes to every registry a workload pulls from, and the local registry is made if and only if some build goes there |
| BuildRouting.Publish | pulumi/stack.py:211-241 | the loops publish every build on each of its targets, with a destination always at hand |
| BuildRouting.MergeLocal | pulumi/stack.py:453-509 | the loop computes the local merge, or the problem it raises |
| BuildRouting.LocalMergeFailsExactly | pulumi/stack.py:453-509 | when the local merge fails, and which problem it raises first |
| BuildRouting.MergeAzure | pulumi/stack.py:387-420 | the loop computes the Azure merge, or the problem it raises |
| BuildRouting.AzureMergeFailsExactly | pulumi/stack.py:387-420 | when the Azure merge fails, and which problem it raises first |
| BuildRouting.RegisterCache | pulumi/stack.py:423-441 | local workloads get the cache registry, others nothing |
| BuildRouting.MergesKeepClasses | pulumi/stack.py:387-509 | the merges keep keys and classes, and leave each other's workloads alone |
| BuildRouting.MergesCommute | pulumi/stack.py:387-509 | the two merges give the same result in either order |
| BuildRouting.MergedLocalIsValid | pulumi/stacks/workload_cluster/workload_cluster_deployments.py:61-97 | the skipped validators hold after the local merge if and only if the merged chart source is an OCI one with a version |
| BuildRouting.MergedAzureIsValid | pulumi/stacks/workload_cluster/workload_cluster_deployments.py:61-97 | the same for the Azure merge |
| BuildRouting.Deploy | pulumi/stack.py:130-353 | planning, publishing and merging end in the routing said workload by workload, or in its refusals |
| BuildRouting.RoutingFailsExactly | pulumi/stack.py:130-353 | which stacks fail, and how, said on their builds, workloads and registry |
| BuildRouting.RecipesAreValid | pulumi/artifacts/capz.py:11-16 | every recipe of a stack plans something and no repository twice, and that of the CAPZ bundle one artifact of a fixed name |
| BuildRouting.RoutedImagesArePublished | pulumi/stack.py:186-353 | every built image is, in every workload, the one that the publication on the registry of the workload's class names: an Azure workload's below the ACR's server, a local one's below the registry's name and port 5000, at the tag of the commit's first twelve characters; others stay |
| BuildRouting.RoutedImagesAreThere | pulumi/stack.py:211-353 | once that publication's ensure has returned, anywhere in a run, the manifest of the image's own repository and tag is at the end on the ACR, or on the registry at the local port |
| BuildRouting.RoutedChartsAreThere | pulumi/stack.py:211-353 | once the ensure of the charts has returned, anywhere in a run, each chart is at the end on the registry at the local port, at the version, made of the commit, that every workload carries, and every workload's source is the management cluster's service |
| BuildRouting.CustomRouteServesImages | pulumi/stack.py:186-342 | the custom route of a local workload serves its images if and only if the registry bears the configured name |
| BuildRouting.RoutedChartsAreServed | pulumi/stack.py:323-353 | built charts replace source and versions in every workload; local workloads get the cache port and, if anything of Slinky is built, the custom registry; Azure workloads get the ACR, and AKS ones their own identity and group |
| BuildRouting.RoutedWorkloadsAreValid | pulumi/stacks/workload_cluster/workload_cluster_deployments.py:61-97 | the skipped validators hold of every workload that comes out |
| DnsNames.NormalizeIsIdempotent | pulumi/stacks/workload_cluster/workload_cluster_infrastructure_azure_byo.py:157-162 | normalising twice is normalising once |
| DnsNames.NormalizeJoins | pulumi/stacks/workload_cluster/workload_cluster_infrastructure_azure_byo.py:157-162 | a character that is neither letter nor digit separates: the pieces on its two sides, normalised, are joined by one hyphen, or stand alone where the other is empty |
| DnsNames.NormalizeOfWord | pulumi/stacks/workload_cluster/workload_cluster_infrastructure_azure_byo.py:157-162 | a piece of letters and digits is put into lower case |
| DnsNames.NormalizedIsEmpty | pulumi/stacks/workload_cluster/workload_cluster_infrastructure_azure_byo.py:157-164 | normalising leaves nothing if and only if there is no letter or digit |
| DnsNames.ResourceNameIsLabel | pulumi/stacks/workload_cluster/workload_cluster_infrastructure_azure_byo.py:156-170 | when a name is refused, exactly; an accepted one is a DNS label if and only if its suffix takes at most 61 characters |
| DnsNames.ClusterNameIsLabel | pulumi/stacks/workload_cluster/workload_cluster_infrastructure_azure_byo.py:173-177 | an accepted cluster name is always a DNS label: the normalised instance, uncut whenever it fits and else at most one character short |
| DnsNames.ResourceNameKeepsSuffix | pulumi/stacks/workload_cluster/workload_cluster_infrastructure_azure_byo.py:160-170 | an accepted name is a prefix of the normalised instance, uncut whenever it fits and else at most one character short, and the whole normalised suffix |
| DnsNames.LocalNameIsLabel | pulumi/stacks/workload_cluster/workload_cluster_infrastructure_local.py:162-167 | for any suffix, a local name is a DNS label if and only if the suffix can end one and takes at most 61 characters |
| DnsNames.LocalNameKeepsSuffix | pulumi/stacks/workload_cluster/workload_cluster_infrastructure_local.py:162-167 | a local name is the whole suffix behind as much of the normalised tenant as fits, or one character less; beside a suffix that leaves no room the tenant loses as many characters as the suffix has too many |
| DnsNames.NamesCollideExactly | pulumi/stacks/workload_cluster/workload_cluster_infrastructure_azure_byo.py:156-170 | two accepted names of one instance, cut or not, are the same if and only if the suffixes normalise alike or the longer puts back what its name cuts off more |
| DnsNames.UncutNamesAreDistinct | pulumi/stacks/workload_cluster/workload_cluster_infrastructure_azure_byo.py:156-170 | so names that need no cut collide if and only if the suffixes normalise alike |
| DnsNames.CutNamesCollide | pulumi/stacks/workload_cluster/workload_cluster_infrastructure_azure_byo.py:167-170 | every instance that just fits beside a suffix collides at each of its hyphens |
| DnsNames.PartitionIsLossless | pulumi/stacks/workload_cluster/workload_cluster_infrastructure_azure_byo.py:180-195 | putting the control plane back among the workers gives the pools again |
| DnsNames.PartitionSucceedsExactly | pulumi/stacks/workload_cluster/workload_cluster_infrastructure_azure_byo.py:180-195 | pools are refused if and only if not exactly one is a control plane, or nothing stands beside it |
| DnsNames.PoolNamesAreDistinct | pulumi/stacks/workload_cluster/workload_cluster_infrastructure_azure_byo.py:180-209 | accepted pools render pairwise distinct names across the partition |
| ResourceIds.PartsOfJoined | pulumi/localenv/_azure.py:143 | splitting undoes joining |
| ResourceIds.SubnetIdIsJoined | pulumi/stacks/workload_cluster/workload_cluster_class_azure_byo.py:203-232 | the printed subnet ID is its ten parts joined |
| ResourceIds.SubnetIdIs | pulumi/stacks/workload_cluster/workload_cluster_class_azure_byo.py:203-232 | the printed subnet ID has the form that Azure documents |
| ResourceIds.ResourceIdPart | pulumi/localenv/_azure.py:142-147 | the search loop returns the part after the first that names the collection, ignoring case |
| ResourceIds.PartsOfSubnetId | pulumi/localenv/_azure.py:409-411 | what the decomposition reads out of a printed subnet ID, for all names |
| ResourceIds.BeforeLastIs | pulumi/localenv/_azure.py:414 | cutting at the last collection leaves the network's own ID |
| ResourceIds.SubnetIdRoundTrip | pulumi/localenv/_azure.py:409-414 | the decomposition gives back what was printed if and only if no name is taken for a later collection |
| References.RPartitionSplits | pulumi/stack.py:447 | the split at the last separator loses nothing |
| References.LastSplitIsUnique | pulumi/stack.py:447 | and is the only one whose last part has no separator |
| References.ParseOfPrinted | pulumi/stack.py:444-450 | a printed reference parses back if and only if its tag is non-empty and colon-free, whatever the server's port |
| References.PrintOfParsed | pulumi/stack.py:444-450 | whatever parses prints back to itself |
| References.ParsesExactly | pulumi/stack.py:444-450 | a text parses if and only if something stands before and after its last colon |
| References.ShaOfRevision | pulumi/stacks/init/awx_project_sync.py:35-42 | the SHA read out of a printed Flux revision is its commit if and only if the commit has no colon |
| References.RevisionShaIs | pulumi/stacks/init/awx_project_sync.py:35-42 | any revision gives what stands behind its last colon if it names a SHA, else itself; without one the read fails |
| Strings.DecimalReads | pulumi/stack.py:203 | a printed port is made of digits, has no leading zero, and reads as its number |
| Sorting.PythonOrders | scripts/regenerate_sdks.py:305-317 | texts are sorted by their first differing character and paths by their first differing part, a beginning first |

## Left out

- Pulumi resources, outputs, Helm values, manifests and RBAC: declarative data with no algorithm.
- Subprocess, Docker, Git, HTTP, Azure and AWX calls: adversarial answers stand for them.
- IEEE rounding and the cosine itself: reals and the wave's facts stand for them.
- Logging in the load generator: it changes nothing that is counted. A signal between the steps of one statement is taken to come before or after it.
- Texts of YAML, JSON, TOML and shell quoting: documents and commands are datatypes; a gateway address or route text with `sed`'s own special characters, and a namespace with a slash, are not modelled.
- Python's parser: a module is a list of blocks, and decorators, nested definitions and line separators that only `splitlines` knows are not modelled; the second, unused refusal of a missing end line cannot happen.
- File modes, symbolic links and errors of the file system: a tree holds files and directories only, and removing is all or nothing for each path.
- `_with_owner_tag_config` and the overrides of the CAPZ provider: the first adds one tag to Azure workloads that have none of that name, the second sets two fields of the control plane; no modelled step reads the tag or the fields.
- Identity and pull-access resources of Azure workloads: only the identity and group that reach the merge are modelled.
- The names of builds other than the five that the stack looks up: they stand behind one constructor.
- `uuid5` and hash naming, redaction, key files and credential discovery: nothing to prove without the hash or the environment.
- Non-ASCII case folding and Unicode digits in names.
- SlurmLoad.FullCycleMean: needs a tick that divides the cycle into an even number of parts, because otherwise the midpoints do not pair.
- BuildRouting.Deploy: takes commits without a colon, because Git names them in hexadecimal.
- CtlptlRegistry.Ctlptl.Apply: a failing apply that removes a registry is not modelled, because nothing in this repository says that ctlptl does so.
- RegistryRoutes.CompiledRoutesRun: commands that each run in a shell of their own are not modelled, because the generated ones share a variable.
- ResourceIds.SubnetIdRoundTrip: takes slash-free non-empty names and a subscription in UUID form, as the configuration does.
