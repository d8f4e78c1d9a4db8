/** The native entry points that create, step and destroy simulations. A
    simulation and the capture object holding the native closure pointer are
    kept in two handle-indexed directories that must stay aligned. The
    directories hand out fresh handles and the engine builds the simulation;
    neither is visible here, so fresh handles arrive as parameters and a
    simulation is represented by the configuration it was created with. */
module Entrypoints {
  import opened Wrappers
  import Bits
  import Handles
  import SimulationConfig
  import opened PoseCallbacks

  /** The interop mode field is a C# enum: it may hold one of the named
      modes or any other integer. */
  datatype InteropMode = Named(mode: AngularIntegrationMode) | Unnamed

  /** The interop layout of the pose-integrator callbacks: a mode, three
      flag bytes and three nullable function pointers. */
  datatype PoseIntegratorCallbacksInterop = PoseIntegratorCallbacksInterop(
    angularIntegrationMode: InteropMode,
    allowSubstepsForUnconstrainedBodies: bv8,
    integrateVelocityForKinematics: bv8,
    useScalarCallback: bv8,
    initialize: Option<Pointer>,
    prepareForIntegration: Option<Pointer>,
    integrateVelocity: Option<Pointer>)

  datatype SolveDescriptionInterop = SolveDescriptionInterop(
    velocityIterationCount: int, substepCount: int, fallbackBatchThreshold: int, scheduler: Option<Pointer>)

  datatype Fault = NullIntegrateVelocity | MisalignedDirectories | UnknownHandle

  /** What a registered simulation is known by: its pose-integrator
      callbacks and the settings it was created with. */
  datatype SimulationEntry = SimulationEntry(
    poseCallbacks: PoseIntegratorCallbacks,
    solve: SimulationConfig.SolveDescription,
    allocation: SimulationConfig.SimulationAllocationSizes)

  /** The two directories: simulations, and the capture objects holding the
      current native closure pointer. */
  datatype Registry = Registry(
    simulations: map<Handles.InstanceHandle, SimulationEntry>,
    callbacks: map<Handles.InstanceHandle, Option<Pointer>>)

  /** The directories are aligned: the same handles in both, and every
      simulation's integrator knows its own handle and reads the capture
      object registered under it. */
  predicate Aligned(r: Registry) {
    r.simulations.Keys == r.callbacks.Keys
    && forall h :: h in r.simulations ==>
         r.simulations[h].poseCallbacks.simulation == h && r.simulations[h].poseCallbacks.callbackKey == h
  }

  const EMPTY_REGISTRY: Registry := Registry(map[], map[])

  /** The first level of the dispatch chain: the mode becomes a conservation
      tag, with every unnamed value treated as non-conserving. */
  function ConservationTagOf(mode: InteropMode): (tag: ConservationTag)
    ensures tag == GyroTorqueTag <==> mode == Named(ConserveMomentumWithGyroscopicTorque)
    ensures tag == ConserveTag <==> mode == Named(ConserveMomentum)
  {
    match mode
    case Named(ConserveMomentumWithGyroscopicTorque) => GyroTorqueTag
    case Named(ConserveMomentum) => ConserveTag
    case _ => NonConservingTag
  }

  /** The other levels: a flag byte selects the `True` tag iff it is not
      zero. */
  function FlagOf(b: bv8): (f: Flag)
    ensures f == TrueTag <==> b != 0
  {
    if b != 0 then TrueTag else FalseTag
  }

  /** The tags the whole dispatch chain selects. */
  function SelectTags(interop: PoseIntegratorCallbacksInterop): (t: Tags)
    ensures t.conservation == ConservationTagOf(interop.angularIntegrationMode)
    ensures Holds(t.unconstrainedSubstepping) <==> interop.allowSubstepsForUnconstrainedBodies != 0
    ensures Holds(t.kinematicIntegration) <==> interop.integrateVelocityForKinematics != 0
    ensures Holds(t.scalar) <==> interop.useScalarCallback != 0
  {
    Tags(ConservationTagOf(interop.angularIntegrationMode),
         FlagOf(interop.allowSubstepsForUnconstrainedBodies),
         FlagOf(interop.integrateVelocityForKinematics),
         FlagOf(interop.useScalarCallback))
  }

  /** The settings the interop structure asks for, as the engine should see
      them: an unnamed mode does not conserve. */
  function Requested(interop: PoseIntegratorCallbacksInterop): IntegratorSettings {
    IntegratorSettings(
      if interop.angularIntegrationMode.Named? then interop.angularIntegrationMode.mode else Nonconserving,
      interop.allowSubstepsForUnconstrainedBodies != 0,
      interop.integrateVelocityForKinematics != 0)
  }

  /** Builds the generic callbacks from the interop structure; fails when no
      velocity integrator is given. */
  function BuildPoseCallbacks(interop: PoseIntegratorCallbacksInterop, captureKey: Handles.InstanceHandle)
    : (r: Result<PoseIntegratorCallbacks, Fault>)
    ensures r.Err? <==> interop.integrateVelocity.None?
    ensures r.Ok? ==> r.value.tags == SelectTags(interop) && r.value.callbackKey == captureKey
    ensures r.Ok? ==> r.value.initializeFunction == interop.initialize
    ensures r.Ok? ==> r.value.prepareForIntegrationFunction == interop.prepareForIntegration
    ensures r.Ok? ==> Some(r.value.integrateVelocityFunction) == interop.integrateVelocity
  {
    if interop.integrateVelocity.None? then Err(NullIntegrateVelocity)
    else Ok(PoseIntegratorCallbacks(SelectTags(interop), interop.initialize, interop.prepareForIntegration,
                                    interop.integrateVelocity.value, captureKey, Handles.NULL_HANDLE))
  }

  /** The dispatch chain round-trips: the callbacks built from an interop
      structure report exactly the settings it requested. */
  lemma DispatchRoundTrip(interop: PoseIntegratorCallbacksInterop, captureKey: Handles.InstanceHandle)
    requires interop.integrateVelocity.Some?
    ensures Settings(BuildPoseCallbacks(interop, captureKey).value) == Requested(interop)
  {
  }

  /** The solve description conversion copies the three counts and keeps a
      null scheduler null. */
  function ConvertSolve(d: SolveDescriptionInterop): (s: SimulationConfig.SolveDescription)
    ensures s.velocityIterationCount == d.velocityIterationCount && s.substepCount == d.substepCount
    ensures s.fallbackBatchThreshold == d.fallbackBatchThreshold
    ensures s.scheduler.None? <==> d.scheduler.None?
  {
    SimulationConfig.SolveDescription(d.velocityIterationCount, d.substepCount, d.fallbackBatchThreshold, d.scheduler)
  }

  /** Without a scheduler, the converted description is the one the crate's
      constructor builds, and every substep runs the given count. */
  lemma ConvertedSolveWithoutScheduler(d: SolveDescriptionInterop, substep: int, answer: int -> int)
    requires d.scheduler.None?
    ensures ConvertSolve(d) == SimulationConfig.NewSolve(d.velocityIterationCount, d.substepCount, d.fallbackBatchThreshold)
    ensures SimulationConfig.EffectiveIterations(ConvertSolve(d), substep, answer) == d.velocityIterationCount
  {
  }

  datatype Created = Created(registry: Registry, handle: Handles.InstanceHandle, calls: seq<NativeCall>)

  /** Creates a simulation. `simulationHandle` and `callbackHandle` are the
      handles the two directories hand out. A missing velocity integrator
      fails before anything is registered; otherwise the simulation is
      registered, its integrator initialised with its handle, the capture
      object registered, and the two handles asserted equal. */
  function CreateSimulation(r: Registry, interop: PoseIntegratorCallbacksInterop, capture: Option<Pointer>,
                            solve: SolveDescriptionInterop, allocation: SimulationConfig.SimulationAllocationSizes,
                            simulationHandle: Handles.InstanceHandle, callbackHandle: Handles.InstanceHandle)
    : (c: Result<Created, Fault>)
    ensures interop.integrateVelocity.None? ==> c == Err(NullIntegrateVelocity)
    ensures interop.integrateVelocity.Some? && simulationHandle != callbackHandle ==> c == Err(MisalignedDirectories)
    ensures c.Ok? <==> interop.integrateVelocity.Some? && simulationHandle == callbackHandle
    ensures c.Ok? ==> c.value.handle == simulationHandle
    ensures c.Ok? && Aligned(r) ==> Aligned(c.value.registry)
    ensures c.Ok? ==> c.value.registry.callbacks == r.callbacks[simulationHandle := capture]
    ensures c.Ok? ==> c.value.registry.simulations.Keys == r.simulations.Keys + {simulationHandle}
    ensures c.Ok? ==> forall h :: h in r.simulations && h != simulationHandle ==>
                         c.value.registry.simulations[h] == r.simulations[h]
  {
    match BuildPoseCallbacks(interop, callbackHandle)
    case Err(e) => Err(e)
    case Ok(built) =>
      var (initialised, calls) := InitializeWithHandle(built, simulationHandle);
      var entry := SimulationEntry(initialised, ConvertSolve(solve), allocation);
      if simulationHandle != callbackHandle then Err(MisalignedDirectories)
      else Ok(Created(Registry(r.simulations[simulationHandle := entry], r.callbacks[callbackHandle := capture]),
                      simulationHandle, calls))
  }

  /** A created simulation reports the settings its interop structure asked
      for, and its integrator's initialiser was called with its handle
      exactly when one was given. */
  lemma CreatedSimulationIsConfigured(r: Registry, interop: PoseIntegratorCallbacksInterop, capture: Option<Pointer>,
                                      solve: SolveDescriptionInterop, allocation: SimulationConfig.SimulationAllocationSizes,
                                      h: Handles.InstanceHandle)
    requires interop.integrateVelocity.Some?
    ensures var c := CreateSimulation(r, interop, capture, solve, allocation, h, h).value;
            && Settings(c.registry.simulations[h].poseCallbacks) == Requested(interop)
            && c.registry.simulations[h].solve == ConvertSolve(solve)
            && (c.calls == [] <==> interop.initialize.None?)
            && (interop.initialize.Some? ==> c.calls == [InitializeCall(interop.initialize.value, h)])
  {
    DispatchRoundTrip(interop, h);
  }

  /** Removes a simulation and its capture object; an unknown handle is an
      error and changes nothing. */
  function DestroySimulation(r: Registry, h: Handles.InstanceHandle): (d: Result<Registry, Fault>)
    ensures d.Err? <==> h !in r.simulations
    ensures d.Ok? ==> h !in d.value.simulations && h !in d.value.callbacks
    ensures d.Ok? ==> d.value.simulations.Keys == r.simulations.Keys - {h}
    ensures d.Ok? ==> d.value.callbacks.Keys == r.callbacks.Keys - {h}
    ensures d.Ok? ==> forall k :: k in d.value.simulations ==> d.value.simulations[k] == r.simulations[k]
    ensures d.Ok? && Aligned(r) ==> Aligned(d.value)
  {
    if h !in r.simulations then Err(UnknownHandle)
    else Ok(Registry(r.simulations - {h}, r.callbacks - {h}))
  }

  /** Creating a simulation under a handle not yet in use and then destroying
      it gives back the registry it started from. */
  lemma CreateThenDestroy(r: Registry, interop: PoseIntegratorCallbacksInterop, capture: Option<Pointer>,
                          solve: SolveDescriptionInterop, allocation: SimulationConfig.SimulationAllocationSizes,
                          h: Handles.InstanceHandle)
    requires interop.integrateVelocity.Some?
    requires h !in r.simulations && h !in r.callbacks
    ensures DestroySimulation(CreateSimulation(r, interop, capture, solve, allocation, h, h).value.registry, h) == Ok(r)
  {
    var c := CreateSimulation(r, interop, capture, solve, allocation, h, h).value.registry;
    assert c.simulations - {h} == r.simulations;
    assert c.callbacks - {h} == r.callbacks;
  }

  datatype Stepped = Stepped(registry: Registry, dispatcher: Option<Handles.InstanceHandle>)

  /** Steps a simulation: no dispatcher when the dispatcher handle is null,
      and the simulation's capture object is overwritten with this call's
      closure pointer before the step. The step itself is the engine's. */
  function Timestep(r: Registry, h: Handles.InstanceHandle, callback: Option<Pointer>,
                    dispatcherHandle: Handles.InstanceHandle): (s: Result<Stepped, Fault>)
    ensures s.Err? <==> h !in r.callbacks || h !in r.simulations
    ensures s.Ok? ==> (s.value.dispatcher.None? <==> Handles.IsNull(dispatcherHandle))
    ensures s.Ok? ==> s.value.registry.simulations == r.simulations
    ensures s.Ok? ==> s.value.registry.callbacks == r.callbacks[h := callback]
    ensures s.Ok? && Aligned(r) ==> Aligned(s.value.registry)
  {
    var dispatcher := if Handles.IsNull(dispatcherHandle) then None else Some(dispatcherHandle);
    if h !in r.callbacks || h !in r.simulations then Err(UnknownHandle)
    else Ok(Stepped(Registry(r.simulations, r.callbacks[h := callback]), dispatcher))
  }

  /** The native integration call a registered simulation's integrator makes
      now: through its own hook, with the pointer its capture object holds. */
  function IntegrationCall(r: Registry, h: Handles.InstanceHandle): NativeCall
    requires Aligned(r) && h in r.simulations
  {
    var c := r.simulations[h].poseCallbacks;
    IntegrateVelocity(c, r.callbacks[c.callbackKey])
  }

  /** Within a step, velocity integration forwards this step's closure
      pointer and the simulation's own handle, whatever was stored before;
      other simulations keep the pointer they had. */
  lemma TimestepForwardsItsPointer(r: Registry, h: Handles.InstanceHandle, callback: Option<Pointer>,
                                   dispatcherHandle: Handles.InstanceHandle, other: Handles.InstanceHandle)
    requires Aligned(r) && h in r.simulations
    ensures var s := Timestep(r, h, callback, dispatcherHandle).value.registry;
            && IntegrationCall(s, h) == IntegrateCall(r.simulations[h].poseCallbacks.integrateVelocityFunction, h, callback)
            && (other in r.simulations && other != h ==> IntegrationCall(s, other) == IntegrationCall(r, other))
  {
  }
}
