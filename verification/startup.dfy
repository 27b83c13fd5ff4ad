/**
  The control flow of the command line entry point: how the provider mode is chosen, when
  a run aborts before anything is started, how an intent is dispatched, and the fail-fast
  chain of cluster creation with its single cleanup.

  What the provider module, the validator, the client and the creation stages do is given
  as a `World` of outcomes; what the run does is returned as a trace of events.
*/
module StartUp {
  import opened Wrappers
  import opened JavaText
  import opened CommandLine

  /** The creation stages, in the order the builder chain calls them. */
  datatype Stage =
    | EnvironmentStage | NetworkStage | SubnetStage | SecurityGroupStage
    | PlacementGroupStage | MasterConfigStage | SlaveConfigStage | LaunchStage

  const Stages: seq<Stage> := [
    EnvironmentStage, NetworkStage, SubnetStage, SecurityGroupStage,
    PlacementGroupStage, MasterConfigStage, SlaveConfigStage, LaunchStage]

  /** How a stage ends: it returns, throws a ConfigurationException, or throws anything else. */
  datatype StageOutcome = Completed | ConfigurationFailure | OtherFailure

  /** What `runCreateIntent` comes to: a returned boolean, or an exception it does not catch. */
  datatype CreateResult = Returned(success: bool) | Crashed

  datatype CreateRun = CreateRun(reached: seq<Stage>, cleanups: nat, result: CreateResult)

  /** The position of the first stage, from `from` on, that throws. */
  function FirstFailure(behaviour: Stage -> StageOutcome, from: nat): (r: Option<nat>)
    requires from <= |Stages|
    decreases |Stages| - from
    ensures r.Some? ==>
      && from <= r.value < |Stages| && behaviour(Stages[r.value]) != Completed
      && forall i :: from <= i < r.value ==> behaviour(Stages[i]) == Completed
    ensures r.None? ==> forall i :: from <= i < |Stages| ==> behaviour(Stages[i]) == Completed
  {
    if from == |Stages| then None
    else if behaviour(Stages[from]) != Completed then Some(from)
    else FirstFailure(behaviour, from + 1)
  }

  /**
    `runCreateIntent`: the stages run in order and the first one that throws stops the
    rest. A ConfigurationException gives false and no cleanup; any other exception
    propagates. When every stage returns, a launch reporting false terminates the cluster
    once and gives false; a successful launch gives true.
  */
  function RunCreateIntent(behaviour: Stage -> StageOutcome, launchSucceeded: bool): (r: CreateRun)
    ensures r.reached <= Stages && |r.reached| > 0
  {
    match FirstFailure(behaviour, 0)
    case Some(k) =>
      if behaviour(Stages[k]) == ConfigurationFailure then CreateRun(Stages[..k + 1], 0, Returned(false))
      else CreateRun(Stages[..k + 1], 0, Crashed)
    case None =>
      if launchSucceeded then CreateRun(Stages, 0, Returned(true))
      else CreateRun(Stages, 1, Returned(false))
  }

  predicate AllStagesComplete(behaviour: Stage -> StageOutcome) {
    forall i :: 0 <= i < |Stages| ==> behaviour(Stages[i]) == Completed
  }

  /** The stages run in the fixed order, and a stage runs only when all before it returned. */
  lemma StagesInOrder(behaviour: Stage -> StageOutcome, launchSucceeded: bool)
    ensures var r := RunCreateIntent(behaviour, launchSucceeded);
      && r.reached == Stages[..|r.reached|]
      && (forall i :: 0 <= i < |r.reached| - 1 ==> behaviour(r.reached[i]) == Completed)
      && (|r.reached| < |Stages| ==> behaviour(r.reached[|r.reached| - 1]) != Completed)
  {
  }

  /** Exactly one cleanup happens, and only when every stage returned and the launch reported false. */
  lemma CleanupOnlyAfterFailedLaunch(behaviour: Stage -> StageOutcome, launchSucceeded: bool)
    ensures var r := RunCreateIntent(behaviour, launchSucceeded);
      && r.cleanups <= 1
      && (r.cleanups == 1 <==> AllStagesComplete(behaviour) && !launchSucceeded)
      && (r.cleanups == 1 ==> r.result == Returned(false))
  {
  }

  /** A ConfigurationException from any stage gives false and never a cleanup. */
  lemma ConfigurationFailureNoCleanup(behaviour: Stage -> StageOutcome, launchSucceeded: bool, k: nat)
    requires k < |Stages| && behaviour(Stages[k]) == ConfigurationFailure
    requires forall i :: 0 <= i < k ==> behaviour(Stages[i]) == Completed
    ensures var r := RunCreateIntent(behaviour, launchSucceeded);
      r.result == Returned(false) && r.cleanups == 0 && r.reached == Stages[..k + 1]
  {
    var f := FirstFailure(behaviour, 0);
    assert behaviour(Stages[k]) != Completed;
  }

  /** True comes back exactly when every stage returned and the launch succeeded, and then nothing is cleaned up. */
  lemma CreateSucceedsIff(behaviour: Stage -> StageOutcome, launchSucceeded: bool)
    ensures var r := RunCreateIntent(behaviour, launchSucceeded);
      && (r.result == Returned(true) <==> AllStagesComplete(behaviour) && launchSucceeded)
      && (r.result == Returned(true) ==> r.cleanups == 0 && r.reached == Stages)
  {
  }

  // ---------------------------------------------------------------------------
  // runIntent
  // ---------------------------------------------------------------------------

  /**
    The provider mode: the "mode" option, defaulting to the properties file's mode. The
    default is read first, so an unreadable properties file (`None`) gives no mode even when
    the option is given. A missing value is dereferenced by the trim, which throws.
  */
  function ParseProviderMode(optionMode: Option<string>, propertiesMode: Option<Option<string>>): (r: Result<Option<string>, ()>)
    ensures propertiesMode.None? ==> r == Success(None)
    ensures r.Failure? <==> propertiesMode.Some? && optionMode.None? && propertiesMode.value.None?
    ensures r.Success? && r.value.Some? ==>
      && propertiesMode.Some?
      && (optionMode.Some? ==> r.value.value == Trim(optionMode.value))
      && (optionMode.None? ==> r.value.value == Trim(propertiesMode.value.value))
  {
    match propertiesMode
    case None => Success(None)
    case Some(fallback) =>
      var chosen := if optionMode.Some? then optionMode else fallback;
      match chosen
      case None => Failure(())
      case Some(mode) => Success(Some(Trim(mode)))
  }

  /** What the provider module, validator, client and intents will do in this run. */
  datatype World = World(
    optionMode: Option<string>,
    propertiesMode: Option<Option<string>>,
    providers: set<string>,
    validates: bool,
    clientConnects: bool,
    providerTypesValid: bool,
    hasValidateIntent: bool,
    stageBehaviour: Stage -> StageOutcome,
    launchSucceeded: bool)

  datatype Event =
    | Aborted
    | ClientCreated
    | ProviderTypesRejected
    | InstanceTypesPrinted
    | ClustersListed
    | ClusterValidated
    | StageRun(stage: Stage)
    | Cleanup
    | Prepared
    | ClusterTerminated

  datatype IntentRun = IntentRun(events: seq<Event>, crashed: bool)

  function StageEvents(stages: seq<Stage>): (r: seq<Event>)
    ensures |r| == |stages| && forall i :: 0 <= i < |stages| ==> r[i] == StageRun(stages[i])
  {
    seq(|stages|, i requires 0 <= i < |stages| => StageRun(stages[i]))
  }

  function CreateEvents(c: CreateRun): seq<Event> {
    StageEvents(c.reached) + (if c.cleanups == 1 then [Cleanup] else [])
  }

  /**
    The intent switch, after the client exists. Only the create stages can throw here: the
    other intents, and prepare and terminate after a successful create, are taken not to.
  */
  function Dispatch(w: World, mode: IntentMode): IntentRun {
    match mode
    case Help => IntentRun([InstanceTypesPrinted], false)
    case List => IntentRun([ClustersListed], false)
    case Validate => IntentRun(if w.hasValidateIntent then [ClusterValidated] else [], false)
    case Create =>
      var c := RunCreateIntent(w.stageBehaviour, w.launchSucceeded);
      IntentRun(CreateEvents(c), c.result.Crashed?)
    case Prepare =>
      var c := RunCreateIntent(w.stageBehaviour, w.launchSucceeded);
      IntentRun(CreateEvents(c) + (if c.result == Returned(true) then [Prepared, ClusterTerminated] else []), c.result.Crashed?)
    case Terminate => IntentRun([ClusterTerminated], false)
    case _ => IntentRun([], false)
  }

  /**
    `runIntent`: no mode, an unknown provider or a failed validation aborts before a client
    exists; a client that cannot connect aborts too. A failed provider-type check is only
    reported and the intent still runs.
  */
  function RunIntent(w: World, mode: IntentMode): (r: IntentRun)
    ensures r.crashed ==> mode == Create || mode == Prepare || ParseProviderMode(w.optionMode, w.propertiesMode).Failure?
  {
    match ParseProviderMode(w.optionMode, w.propertiesMode)
    case Failure(_) => IntentRun([], true)
    case Success(None) => IntentRun([Aborted], false)
    case Success(Some(provider)) =>
      if provider !in w.providers || !w.validates || !w.clientConnects then IntentRun([Aborted], false)
      else
        var d := Dispatch(w, mode);
        IntentRun([ClientCreated] + (if w.providerTypesValid then [] else [ProviderTypesRejected]) + d.events, d.crashed)
  }

  predicate Proceeds(w: World) {
    var p := ParseProviderMode(w.optionMode, w.propertiesMode);
    p.Success? && p.value.Some? && p.value.value in w.providers && w.validates
  }

  /** Without a mode, a known provider and a passing validation, nothing but the abort happens: no client, no intent. */
  lemma AbortBeforeClient(w: World, mode: IntentMode)
    requires ParseProviderMode(w.optionMode, w.propertiesMode).Success?
    requires !Proceeds(w)
    ensures RunIntent(w, mode) == IntentRun([Aborted], false)
  {
  }

  /** A failed provider-type check changes nothing but the report: the same intent events follow. */
  lemma TypeCheckOnlyReported(w: World, mode: IntentMode)
    requires Proceeds(w) && w.clientConnects
    ensures RunIntent(w.(providerTypesValid := false), mode).events
      == [ClientCreated, ProviderTypesRejected] + RunIntent(w.(providerTypesValid := true), mode).events[1..]
    ensures RunIntent(w.(providerTypesValid := false), mode).crashed == RunIntent(w.(providerTypesValid := true), mode).crashed
  {
    var w0 := w.(providerTypesValid := false);
    var w1 := w.(providerTypesValid := true);
    var d := Dispatch(w, mode);
    DispatchReadsIntentsOnly(w0, w, mode);
    DispatchReadsIntentsOnly(w1, w, mode);
    assert Proceeds(w0) && Proceeds(w1);
    RunIntentShape(w0, mode, [ClientCreated, ProviderTypesRejected]);
    RunIntentShape(w1, mode, [ClientCreated]);
    assert ([ClientCreated] + d.events)[1..] == d.events;
  }

  /** The intent switch sees only what the intents do, not how the run got there. */
  lemma DispatchReadsIntentsOnly(w: World, v: World, mode: IntentMode)
    requires w.hasValidateIntent == v.hasValidateIntent
    requires w.stageBehaviour == v.stageBehaviour && w.launchSucceeded == v.launchSucceeded
    ensures Dispatch(w, mode) == Dispatch(v, mode)
  {
  }

  /** Creation only produces stage events and the cleanup. */
  lemma CreateEventsOnlyStages(c: CreateRun)
    ensures forall e :: e in CreateEvents(c) ==> e.StageRun? || e == Cleanup
  {
    var se := StageEvents(c.reached);
    assert forall e :: e in se ==> e.StageRun?;
  }

  /**
    PREPARE prepares and then terminates the cluster exactly when creation returned true;
    a failed creation runs neither.
  */
  lemma PrepareOnlyAfterCreate(w: World)
    ensures var events := Dispatch(w, Prepare).events;
      var c := RunCreateIntent(w.stageBehaviour, w.launchSucceeded);
      && (Prepared in events <==> c.result == Returned(true))
      && (ClusterTerminated in events <==> c.result == Returned(true))
      && (c.result == Returned(true) ==>
           |events| >= 2 && events[|events| - 2] == Prepared && events[|events| - 1] == ClusterTerminated)
  {
    var c := RunCreateIntent(w.stageBehaviour, w.launchSucceeded);
    var tail := if c.result == Returned(true) then [Prepared, ClusterTerminated] else [];
    DispatchPrepare(w);
    var events := Dispatch(w, Prepare).events;
    assert events == [] + (CreateEvents(c) + tail);
    PrepareEvents(c, [], events);
  }

  /** PREPARE runs creation and, after a true result, prepare and terminate. */
  lemma DispatchPrepare(w: World)
    ensures var c := RunCreateIntent(w.stageBehaviour, w.launchSucceeded);
      Dispatch(w, Prepare).events == CreateEvents(c) + (if c.result == Returned(true) then [Prepared, ClusterTerminated] else [])
  {
  }

  lemma PrepareEvents(c: CreateRun, pre: seq<Event>, events: seq<Event>)
    requires Prepared !in pre && ClusterTerminated !in pre
    requires events == pre + (CreateEvents(c) + (if c.result == Returned(true) then [Prepared, ClusterTerminated] else []))
    ensures
      && (Prepared in events <==> c.result == Returned(true))
      && (ClusterTerminated in events <==> c.result == Returned(true))
      && (c.result == Returned(true) ==>
           |events| >= 2 && events[|events| - 2] == Prepared && events[|events| - 1] == ClusterTerminated)
  {
    CreateEventsOnlyStages(c);
    var head := pre + CreateEvents(c);
    assert forall e :: e in head ==> e in pre || e in CreateEvents(c);
    assert events == head + (if c.result == Returned(true) then [Prepared, ClusterTerminated] else []);
  }

  /** Once past the aborts, the run is the client, the optional report, then the intent's events. */
  lemma RunIntentShape(w: World, mode: IntentMode, pre: seq<Event>)
    requires Proceeds(w) && w.clientConnects
    requires pre == [ClientCreated] + (if w.providerTypesValid then [] else [ProviderTypesRejected])
    ensures RunIntent(w, mode).events == pre + Dispatch(w, mode).events
    ensures RunIntent(w, mode).crashed == Dispatch(w, mode).crashed
  {
  }
}
