/** The lifecycle shared by all source-built artifacts: plan the outputs of a commit, probe the
    registry for them, and build when one is absent; a build may fail after publishing some. */
module Publishing {
  import opened Wrappers
  import opened References

  /** Planned outputs in order: repository and tag. */
  type Plan = seq<(string, string)>

  type Options = map<string, string>

  /** A recipe's plan is a dictionary that is not empty. */
  ghost predicate IsPlan(plan: Plan) {
    plan != [] && forall i, j :: 0 <= i < j < |plan| ==> plan[i].0 != plan[j].0
  }

  datatype Recipe = Recipe(plan: (Options, string) -> Plan, idRepository: Option<string>) {
    ghost predicate Valid() { forall o, c :: IsPlan(plan(o, c)) }
  }

  datatype Destination = Destination(server: string, consumerServer: string)

  datatype Inputs = Inputs(destination: Destination, options: Options)

  datatype Manifest = Manifest(server: string, repository: string, tag: string)

  type World = set<Manifest>

  function PlannedBy(inputs: Inputs, plan: Plan): World {
    set i | 0 <= i < |plan| :: Manifest(inputs.destination.server, plan[i].0, plan[i].1)
  }

  /** A build that returns has published its whole plan; one that fails, whatever it got to. */
  datatype BuildOutcome = Completes(extra: World) | Fails(published: World)

  /** What the surroundings answer during one call: the commit that the source resolves to, whether
      a registry session opens, the probe that fails, whether a worktree is had, and the build. */
  datatype Answers = Answers(commit: Option<string>, session: bool, failingProbe: Option<nat>, worktree: bool,
                             build: BuildOutcome)

  datatype Probe = AllPresent | SomeAbsent | ProbeError

  /** The probes from the i-th on stop at the first absence or error. */
  function ProbeFrom(world: World, inputs: Inputs, plan: Plan, failing: Option<nat>, i: nat): Probe
    requires i <= |plan|
    decreases |plan| - i
  {
    if i == |plan| then AllPresent
    else if failing == Some(i) then ProbeError
    else if Manifest(inputs.destination.server, plan[i].0, plan[i].1) !in world then SomeAbsent
    else ProbeFrom(world, inputs, plan, failing, i + 1)
  }

  datatype Outputs = Outputs(inputs: Inputs, commit: string, tags: Plan, artifactRefs: seq<string>,
                             hostRefs: seq<string>)

  function OutputsOf(inputs: Inputs, commit: string, plan: Plan): Outputs {
    Outputs(inputs, commit, plan,
            seq(|plan|, i requires 0 <= i < |plan| => Printed(inputs.destination.consumerServer, plan[i].0, plan[i].1)),
            seq(|plan|, i requires 0 <= i < |plan| => Printed(inputs.destination.server, plan[i].0, plan[i].1)))
  }

  datatype Error = NoCommit | NoSession | ProbeFailed | NoWorktree | BuildFailed

  datatype Ensured = Ensured(outputs: Outputs, built: bool)

  function ProbeAll(world: World, recipe: Recipe, inputs: Inputs, answers: Answers): Probe
    requires answers.commit.Some?
  {
    ProbeFrom(world, inputs, recipe.plan(inputs.options, answers.commit.value), answers.failingProbe, 0)
  }

  predicate Builds(world: World, recipe: Recipe, inputs: Inputs, answers: Answers) {
    && answers.commit.Some? && answers.session && answers.worktree
    && ProbeAll(world, recipe, inputs, answers) == SomeAbsent
  }

  function WorldAfterEnsure(world: World, recipe: Recipe, inputs: Inputs, answers: Answers): World {
    if !Builds(world, recipe, inputs, answers) then world
    else match answers.build
         case Completes(extra) => world + PlannedBy(inputs, recipe.plan(inputs.options, answers.commit.value)) + extra
         case Fails(published) => world + published
  }

  function EnsureResult(world: World, recipe: Recipe, inputs: Inputs, answers: Answers): Result<Ensured, Error> {
    if answers.commit.None? then Failure(NoCommit)
    else if !answers.session then Failure(NoSession)
    else
      var outputs := OutputsOf(inputs, answers.commit.value, recipe.plan(inputs.options, answers.commit.value));
      match ProbeAll(world, recipe, inputs, answers)
      case ProbeError => Failure(ProbeFailed)
      case AllPresent => Success(Ensured(outputs, false))
      case SomeAbsent =>
        if !answers.worktree then Failure(NoWorktree)
        else if answers.build.Fails? then Failure(BuildFailed)
        else Success(Ensured(outputs, true))
  }

  class Registry {
    var manifests: World

    constructor (manifests: World)
      ensures this.manifests == manifests
    {
      this.manifests := manifests;
    }

    /** `all(session.manifest_exists(...))` over the plan. */
    method ProbePlan(inputs: Inputs, plan: Plan, failing: Option<nat>) returns (r: Probe)
      ensures r == ProbeFrom(manifests, inputs, plan, failing, 0)
    {
      for i := 0 to |plan|
        invariant ProbeFrom(manifests, inputs, plan, failing, 0) == ProbeFrom(manifests, inputs, plan, failing, i)
      {
        if failing == Some(i) { return ProbeError; }
        if Manifest(inputs.destination.server, plan[i].0, plan[i].1) !in manifests { return SomeAbsent; }
      }
      return AllPresent;
    }

    method Build(inputs: Inputs, plan: Plan, outcome: BuildOutcome) returns (ok: bool)
      modifies this
      ensures ok == outcome.Completes?
      ensures manifests == old(manifests) +
                if outcome.Completes? then PlannedBy(inputs, plan) + outcome.extra else outcome.published
    {
      match outcome {
        case Completes(extra) => manifests := manifests + PlannedBy(inputs, plan) + extra; ok := true;
        case Fails(published) => manifests := manifests + published; ok := false;
      }
    }
  }

  method Ensure(registry: Registry, recipe: Recipe, inputs: Inputs, answers: Answers)
    returns (r: Result<Ensured, Error>)
    modifies registry
    ensures registry.manifests == WorldAfterEnsure(old(registry.manifests), recipe, inputs, answers)
    ensures r == EnsureResult(old(registry.manifests), recipe, inputs, answers)
  {
    if answers.commit.None? { return Failure(NoCommit); }
    var commit := answers.commit.value;
    var tags := recipe.plan(inputs.options, commit);
    if !answers.session { return Failure(NoSession); }
    var probe := registry.ProbePlan(inputs, tags, answers.failingProbe);
    if probe == ProbeError { return Failure(ProbeFailed); }
    var built := probe == SomeAbsent;
    if built {
      if !answers.worktree { return Failure(NoWorktree); }
      var ok := registry.Build(inputs, tags, answers.build);
      if !ok { return Failure(BuildFailed); }
    }
    return Success(Ensured(OutputsOf(inputs, commit, tags), built));
  }

  /** The resource's ID: the grouping repository, or else the first planned one, at the first tag. */
  function ResourceId(recipe: Recipe, e: Ensured): string
    requires e.outputs.tags != []
  {
    var repository := if recipe.idRepository.Some? && recipe.idRepository.value != "" then recipe.idRepository.value
                      else e.outputs.tags[0].0;
    Printed(e.outputs.inputs.destination.consumerServer, repository, e.outputs.tags[0].1)
  }

  /** A refresh: None drops the resource from the state. */
  function ReadResult(world: World, recipe: Recipe, id: string, inputs: Inputs, answers: Answers): Option<string> {
    if answers.commit.Some? && answers.session && ProbeAll(world, recipe, inputs, answers) == SomeAbsent then
      None
    else
      Some(id)
  }

  method Read(registry: Registry, recipe: Recipe, id: string, inputs: Inputs, answers: Answers)
    returns (r: Option<string>)
    ensures r == ReadResult(registry.manifests, recipe, id, inputs, answers)
  {
    if answers.commit.None? || !answers.session { return Some(id); }
    var probe := registry.ProbePlan(inputs, recipe.plan(inputs.options, answers.commit.value), answers.failingProbe);
    match probe {
      case SomeAbsent => return None;
      case ProbeError => return Some(id);
      case AllPresent => return Some(id);
    }
  }

  /* ----- One call ----- */

  /** The probes, exactly: all are present when none fails and none is absent; an absence is
      reported when it comes before any failure. */
  lemma {:induction false} ProbeIsExact(world: World, inputs: Inputs, plan: Plan, failing: Option<nat>, i: nat)
    requires i <= |plan|
    ensures var r := ProbeFrom(world, inputs, plan, failing, i);
            && (r == AllPresent <==>
                  forall k :: i <= k < |plan| ==> Present(world, inputs, plan, k) && failing != Some(k))
            && (r == SomeAbsent <==> exists k :: i <= k < |plan| && SeenAbsent(world, inputs, plan, failing, i, k))
    decreases |plan| - i
  {
    if i < |plan| && failing != Some(i) && Present(world, inputs, plan, i) {
      var next := i + 1;
      ProbeIsExact(world, inputs, plan, failing, next);
      forall k | i < k < |plan|
        ensures SeenAbsent(world, inputs, plan, failing, i, k) <==> SeenAbsent(world, inputs, plan, failing, next, k)
      {
      }
    } else if i < |plan| && failing != Some(i) {
      assert SeenAbsent(world, inputs, plan, failing, i, i);
    }
  }

  /** The k-th manifest is absent and no probe from the i-th up to it fails. */
  ghost predicate SeenAbsent(world: World, inputs: Inputs, plan: Plan, failing: Option<nat>, i: nat, k: nat)
    requires k < |plan|
  {
    !Present(world, inputs, plan, k) && forall j :: i <= j <= k ==> failing != Some(j)
  }

  predicate Present(world: World, inputs: Inputs, plan: Plan, k: nat)
    requires k < |plan|
  {
    Manifest(inputs.destination.server, plan[k].0, plan[k].1) in world
  }

  lemma PlannedMeansPresent(world: World, inputs: Inputs, plan: Plan)
    ensures PlannedBy(inputs, plan) <= world <==> forall k :: 0 <= k < |plan| ==> Present(world, inputs, plan, k)
  {
    forall k | 0 <= k < |plan| ensures Present(PlannedBy(inputs, plan), inputs, plan, k) { }
    if PlannedBy(inputs, plan) <= world {
      forall k | 0 <= k < |plan| ensures Present(world, inputs, plan, k) {
        assert Present(PlannedBy(inputs, plan), inputs, plan, k);
      }
    } else {
      var m :| m in PlannedBy(inputs, plan) && m !in world;
      var k :| 0 <= k < |plan| && m == Manifest(inputs.destination.server, plan[k].0, plan[k].1);
      assert !Present(world, inputs, plan, k);
    }
  }

  /** An ensure that returns leaves every planned manifest present, and it built exactly when one
      was absent before. */
  lemma EnsureLeavesPlanPresent(world: World, recipe: Recipe, inputs: Inputs, answers: Answers)
    requires EnsureResult(world, recipe, inputs, answers).Success?
    ensures var plan := recipe.plan(inputs.options, answers.commit.value);
            && PlannedBy(inputs, plan) <= WorldAfterEnsure(world, recipe, inputs, answers)
            && (EnsureResult(world, recipe, inputs, answers).value.built <==> !(PlannedBy(inputs, plan) <= world))
  {
    var plan := recipe.plan(inputs.options, answers.commit.value);
    ProbeIsExact(world, inputs, plan, answers.failingProbe, 0);
    PlannedMeansPresent(world, inputs, plan);
    hide ProbeFrom, PlannedBy;
    match ProbeAll(world, recipe, inputs, answers) {
      case AllPresent => assert PlannedBy(inputs, plan) <= world;
      case SomeAbsent =>
        assert !(PlannedBy(inputs, plan) <= world);
      case ProbeError =>
    }
  }

  /** With its plan present an ensure never builds and changes nothing: it returns unless the
      source, the session or a probe fails. */
  lemma EnsureOfPresentIsQuiet(world: World, recipe: Recipe, inputs: Inputs, answers: Answers)
    requires answers.commit.Some? && PlannedBy(inputs, recipe.plan(inputs.options, answers.commit.value)) <= world
    ensures WorldAfterEnsure(world, recipe, inputs, answers) == world
    ensures var r := EnsureResult(world, recipe, inputs, answers);
            && (r.Success? ==> !r.value.built)
            && (answers.session && answers.failingProbe.None? ==> r.Success?)
  {
    var plan := recipe.plan(inputs.options, answers.commit.value);
    ProbeIsExact(world, inputs, plan, answers.failingProbe, 0);
    PlannedMeansPresent(world, inputs, plan);
    hide ProbeFrom, Present, PlannedBy;
  }

  /** A refresh drops the ID exactly on a definite absence: the source resolved, the session opened
      and some planned manifest was absent with no probe failing up to it. */
  lemma ReadDropsOnAbsenceOnly(world: World, recipe: Recipe, id: string, inputs: Inputs, answers: Answers)
    ensures ReadResult(world, recipe, id, inputs, answers).None? <==>
              && answers.commit.Some? && answers.session
              && var plan := recipe.plan(inputs.options, answers.commit.value);
                 exists k :: 0 <= k < |plan| && SeenAbsent(world, inputs, plan, answers.failingProbe, 0, k)
  {
    if answers.commit.Some? {
      ProbeIsExact(world, inputs, recipe.plan(inputs.options, answers.commit.value), answers.failingProbe, 0);
    }
  }

  /* ----- Runs ----- */

  /** A call on one of the stack's artifact resources: create and update ensure, refresh reads. */
  datatype Event = EnsureEvent(recipe: Recipe, inputs: Inputs, answers: Answers) | ReadEvent

  function Next(world: World, e: Event): World {
    match e
    case EnsureEvent(recipe, inputs, answers) => WorldAfterEnsure(world, recipe, inputs, answers)
    case ReadEvent => world
  }

  function Run(world: World, es: seq<Event>): World {
    if es == [] then world else Next(Run(world, es[..|es| - 1]), es[|es| - 1])
  }

  /** The set of published manifests only grows, whatever fails. */
  lemma {:induction false} RunsOnlyPublish(world: World, es: seq<Event>)
    ensures world <= Run(world, es)
  {
    if es != [] { RunsOnlyPublish(world, es[..|es| - 1]); }
  }

  lemma {:induction false} RunSplits(world: World, es: seq<Event>, fs: seq<Event>)
    ensures Run(world, es + fs) == Run(Run(world, es), fs)
  {
    hide Next;
    if fs == [] {
      assert es + fs == es;
    } else {
      var n := |fs| - 1;
      assert (es + fs)[..|es| + n] == es + fs[..n];
      RunSplits(world, es, fs[..n]);
    }
  }

  /** Once an ensure has returned for a commit, anywhere in a run of calls that may fail half way, no
      later ensure of the commit builds, and no later refresh at it drops the resource. */
  lemma EnsuredStaysEnsured(world: World, before: seq<Event>, after: seq<Event>, recipe: Recipe, inputs: Inputs,
                            first: Answers, id: string, later: Answers)
    requires EnsureResult(Run(world, before), recipe, inputs, first).Success? && later.commit == first.commit
    ensures var now := Run(world, before + [EnsureEvent(recipe, inputs, first)] + after);
            && WorldAfterEnsure(now, recipe, inputs, later) == now
            && (EnsureResult(now, recipe, inputs, later).Success? ==>
                 !EnsureResult(now, recipe, inputs, later).value.built)
            && ReadResult(now, recipe, id, inputs, later) == Some(id)
  {
    hide PlannedBy, Run, WorldAfterEnsure, EnsureResult, ProbeAll;
    PlanStaysPresent(world, before, after, recipe, inputs, first);
    var plan := recipe.plan(inputs.options, later.commit.value);
    var now := Run(world, before + [EnsureEvent(recipe, inputs, first)] + after);
    EnsureOfPresentIsQuiet(now, recipe, inputs, later);
    PlannedMeansPresent(now, inputs, plan);
    ReadDropsOnAbsenceOnly(now, recipe, id, inputs, later);
  }

  /** A refresh asks for the commit that the source resolves to by then. So a resource whose manifests
      are all present is dropped exactly when those of the present commit are not all there. */
  lemma MovedSourceDrops(world: World, before: seq<Event>, after: seq<Event>, recipe: Recipe, inputs: Inputs,
                         first: Answers, id: string, later: Answers)
    requires EnsureResult(Run(world, before), recipe, inputs, first).Success?
    requires later.commit.Some? && later.session && later.failingProbe.None?
    ensures first.commit.Some?
    ensures var now := Run(world, before + [EnsureEvent(recipe, inputs, first)] + after);
            && PlannedBy(inputs, recipe.plan(inputs.options, first.commit.value)) <= now
            && (ReadResult(now, recipe, id, inputs, later).None? <==>
                  !(PlannedBy(inputs, recipe.plan(inputs.options, later.commit.value)) <= now))
  {
    hide PlannedBy, Run, WorldAfterEnsure, EnsureResult, ProbeAll, ReadResult, Present;
    PlanStaysPresent(world, before, after, recipe, inputs, first);
    var plan := recipe.plan(inputs.options, later.commit.value);
    var now := Run(world, before + [EnsureEvent(recipe, inputs, first)] + after);
    PlannedMeansPresent(now, inputs, plan);
    ReadDropsOnAbsenceOnly(now, recipe, id, inputs, later);
    if k :| 0 <= k < |plan| && !Present(now, inputs, plan, k) { assert SeenAbsent(now, inputs, plan, None, 0, k); }
  }

  /** A source that has moved on after its only build is such an input. */
  lemma MovedSource(inputs: Inputs, name: string, old_: string, new_: string, id: string)
    requires old_ != new_
    ensures var recipe := Recipe((options: Options, commit: string) => [(name, commit)], None);
            var at := (commit: string) => Answers(Some(commit), true, None, true, Completes({}));
            var now := Run({}, [EnsureEvent(recipe, inputs, at(old_))]);
            && Manifest(inputs.destination.server, name, old_) in now
            && ReadResult(now, recipe, id, inputs, at(old_)) == Some(id)
            && ReadResult(now, recipe, id, inputs, at(new_)) == None
  {
    var recipe := Recipe((options: Options, commit: string) => [(name, commit)], None);
    var first := Answers(Some(old_), true, None, true, Completes({}));
    var later := Answers(Some(new_), true, None, true, Completes({}));
    var es := [EnsureEvent(recipe, inputs, first)];
    assert es[..0] == [] && [] + es + [] == es;
    PlannedAlone(inputs, name, old_);
    PlannedAlone(inputs, name, new_);
    hide PlannedBy;
    EnsuredStaysEnsured({}, [], [], recipe, inputs, first, id, first);
    MovedSourceDrops({}, [], [], recipe, inputs, first, id, later);
  }

  lemma PlannedAlone(inputs: Inputs, name: string, tag: string)
    ensures PlannedBy(inputs, [(name, tag)]) == {Manifest(inputs.destination.server, name, tag)}
  {
    var plan := [(name, tag)];
    forall m ensures m in PlannedBy(inputs, plan) <==> m == Manifest(inputs.destination.server, name, tag) {
      assert plan[0] == (name, tag);
    }
  }

  /** The manifests of an ensure that returned, anywhere in a run, are there at its end. */
  lemma PlanStaysPresent(world: World, before: seq<Event>, after: seq<Event>, recipe: Recipe, inputs: Inputs,
                         answers: Answers)
    requires EnsureResult(Run(world, before), recipe, inputs, answers).Success?
    ensures answers.commit.Some?
    ensures PlannedBy(inputs, recipe.plan(inputs.options, answers.commit.value))
            <= Run(world, before + [EnsureEvent(recipe, inputs, answers)] + after)
  {
    var ensured := EnsureEvent(recipe, inputs, answers);
    RunSplits(world, before + [ensured], after);
    RunSplits(world, before, [ensured]);
    assert [ensured][..0] == [];
    EnsureLeavesPlanPresent(Run(world, before), recipe, inputs, answers);
    RunsOnlyPublish(Run(world, before + [ensured]), after);
  }

  /* ----- Outputs ----- */

  /** The outputs of an ensure that returned are those planned for its commit, and its ID names the first
      planned tag below the grouping repository, or else below the first planned one. */
  lemma OutputsAre(world: World, recipe: Recipe, inputs: Inputs, answers: Answers)
    requires recipe.Valid() && EnsureResult(world, recipe, inputs, answers).Success?
    ensures var e := EnsureResult(world, recipe, inputs, answers).value;
            && Some(e.outputs.commit) == answers.commit && e.outputs.inputs == inputs
            && e.outputs.tags == recipe.plan(inputs.options, e.outputs.commit) != []
            && var group := if recipe.idRepository.None? || recipe.idRepository == Some("") then e.outputs.tags[0].0
                            else recipe.idRepository.value;
               var (consumer, tag) := (inputs.destination.consumerServer, e.outputs.tags[0].1);
               ResourceId(recipe, e) == consumer + "/" + group + ":" + tag
  {
    assert IsPlan(recipe.plan(inputs.options, answers.commit.value));
  }

  /** An output reference parses back to its repository on the consumer's or the publisher's server
      exactly when its tag is not empty and has no colon; without a grouping repository the ID is the
      first of them. */
  lemma OutputsParse(world: World, recipe: Recipe, inputs: Inputs, answers: Answers, i: nat)
    requires recipe.Valid() && EnsureResult(world, recipe, inputs, answers).Success?
    requires i < |EnsureResult(world, recipe, inputs, answers).value.outputs.tags|
    ensures var e := EnsureResult(world, recipe, inputs, answers).value;
            var (repository, tag) := e.outputs.tags[i];
            && |e.outputs.artifactRefs| == |e.outputs.hostRefs| == |e.outputs.tags|
            && (ParseImage(e.outputs.artifactRefs[i])
                == Success(Image(inputs.destination.consumerServer + "/" + repository, Some(tag), None))
                <==> tag != "" && ':' !in tag)
            && (ParseImage(e.outputs.hostRefs[i])
                == Success(Image(inputs.destination.server + "/" + repository, Some(tag), None))
                <==> tag != "" && ':' !in tag)
            && (recipe.idRepository.None? ==> ResourceId(recipe, e) == e.outputs.artifactRefs[0])
  {
    hide ParseImage, Printed;
    var e := EnsureResult(world, recipe, inputs, answers).value;
    var (repository, tag) := e.outputs.tags[i];
    ParseOfPrinted(inputs.destination.consumerServer, repository, tag);
    ParseOfPrinted(inputs.destination.server, repository, tag);
  }
}
