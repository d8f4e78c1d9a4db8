/** The generic pose-integrator callbacks the native side registers. Its
    three settings are chosen by generic type arguments (tags) rather than
    stored values, and its hooks are nullable native function pointers. A
    call into native code is not followed; the model returns the call it
    makes as a `NativeCall` value. */
module PoseCallbacks {
  import opened Wrappers
  import Handles
  import SimulationConfig

  type Pointer = SimulationConfig.Pointer

  datatype AngularIntegrationMode = Nonconserving | ConserveMomentum | ConserveMomentumWithGyroscopicTorque

  /** The settings an integrator reports to the engine. */
  datatype IntegratorSettings = IntegratorSettings(
    angularIntegrationMode: AngularIntegrationMode,
    allowSubstepsForUnconstrainedBodies: bool,
    integrateVelocityForKinematics: bool)

  /** The type arguments: a conservation tag and three boolean tags. */
  datatype ConservationTag = NonConservingTag | ConserveTag | GyroTorqueTag
  datatype Flag = TrueTag | FalseTag

  datatype Tags = Tags(conservation: ConservationTag, unconstrainedSubstepping: Flag,
                       kinematicIntegration: Flag, scalar: Flag)

  /** A call into native code: the function called and its arguments. */
  datatype NativeCall =
    | InitializeCall(target: Pointer, simulation: Handles.InstanceHandle)
    | PrepareCall(target: Pointer, simulation: Handles.InstanceHandle, dt: real)
    | IntegrateCall(target: Pointer, simulation: Handles.InstanceHandle, capture: Option<Pointer>)

  /** `callbackKey` names the shared capture object the integrator holds a
      reference to; its current pointer is read at integration time.
      `simulation` is the handle stored by `InitializeWithHandle`. */
  datatype PoseIntegratorCallbacks = PoseIntegratorCallbacks(
    tags: Tags,
    initializeFunction: Option<Pointer>,
    prepareForIntegrationFunction: Option<Pointer>,
    integrateVelocityFunction: Pointer,
    callbackKey: Handles.InstanceHandle,
    simulation: Handles.InstanceHandle)

  /** The mode a conservation tag stands for: gyroscopic and plain
      conservation are recognised, anything else does not conserve. */
  function ModeOf(tag: ConservationTag): (m: AngularIntegrationMode)
    ensures m == ConserveMomentumWithGyroscopicTorque <==> tag == GyroTorqueTag
    ensures m == ConserveMomentum <==> tag == ConserveTag
  {
    if tag == GyroTorqueTag then ConserveMomentumWithGyroscopicTorque
    else if tag == ConserveTag then ConserveMomentum
    else Nonconserving
  }

  /** A boolean tag holds exactly when it is the `True` type. */
  predicate Holds(flag: Flag) {
    flag == TrueTag
  }

  /** What the callbacks report: the conservation mode and the two boolean
      settings, each read from its tag alone. */
  function Settings(c: PoseIntegratorCallbacks): (s: IntegratorSettings)
    ensures s.angularIntegrationMode == ModeOf(c.tags.conservation)
    ensures s.allowSubstepsForUnconstrainedBodies <==> c.tags.unconstrainedSubstepping == TrueTag
    ensures s.integrateVelocityForKinematics <==> c.tags.kinematicIntegration == TrueTag
  {
    IntegratorSettings(ModeOf(c.tags.conservation), Holds(c.tags.unconstrainedSubstepping),
                       Holds(c.tags.kinematicIntegration))
  }

  /** The conservation tag a mode is requested with. */
  function TagOf(m: AngularIntegrationMode): ConservationTag {
    match m
    case Nonconserving => NonConservingTag
    case ConserveMomentum => ConserveTag
    case ConserveMomentumWithGyroscopicTorque => GyroTorqueTag
  }

  /** Every mode is reported by exactly one conservation tag: `TagOf` is a
      two-sided inverse of `ModeOf`. */
  lemma ModeOfIsBijective(t: ConservationTag, u: ConservationTag, m: AngularIntegrationMode)
    ensures ModeOf(t) == ModeOf(u) ==> t == u
    ensures exists tag :: ModeOf(tag) == Nonconserving
    ensures TagOf(ModeOf(t)) == t
    ensures ModeOf(TagOf(m)) == m
  {
    assert ModeOf(NonConservingTag) == Nonconserving;
  }

  /** The engine's initialisation hook: no handle exists yet, so nothing
      happens. */
  function InitializeWithSimulation(c: PoseIntegratorCallbacks): (r: PoseIntegratorCallbacks)
    ensures r == c
  {
    c
  }

  /** The handle-taking initialisation: always stores the handle, and calls
      the native initialiser with it only when one was given. */
  function InitializeWithHandle(c: PoseIntegratorCallbacks, simulation: Handles.InstanceHandle)
    : (r: (PoseIntegratorCallbacks, seq<NativeCall>))
    ensures r.0 == c.(simulation := simulation)
    ensures c.initializeFunction.None? <==> r.1 == []
    ensures c.initializeFunction.Some? ==> r.1 == [InitializeCall(c.initializeFunction.value, simulation)]
  {
    var stored := c.(simulation := simulation);
    if c.initializeFunction.Some? then (stored, [InitializeCall(c.initializeFunction.value, simulation)])
    else (stored, [])
  }

  /** Calls the native preparation hook with the stored handle, when there
      is one. */
  function PrepareForIntegration(c: PoseIntegratorCallbacks, dt: real): (calls: seq<NativeCall>)
    ensures c.prepareForIntegrationFunction.None? <==> calls == []
    ensures c.prepareForIntegrationFunction.Some? ==>
              calls == [PrepareCall(c.prepareForIntegrationFunction.value, c.simulation, dt)]
  {
    if c.prepareForIntegrationFunction.Some? then [PrepareCall(c.prepareForIntegrationFunction.value, c.simulation, dt)]
    else []
  }

  /** Forwards to the native integrator with the stored handle and the
      pointer the shared capture object holds now (`capture`). */
  function IntegrateVelocity(c: PoseIntegratorCallbacks, capture: Option<Pointer>): (call: NativeCall)
    ensures call.IntegrateCall? && call.target == c.integrateVelocityFunction
    ensures call.simulation == c.simulation && call.capture == capture
  {
    IntegrateCall(c.integrateVelocityFunction, c.simulation, capture)
  }

  /** After initialisation with a handle, every later hook call carries that
      handle, and initialisation changes neither the settings nor the
      hooks. */
  lemma HooksSeeTheInitializedHandle(c: PoseIntegratorCallbacks, simulation: Handles.InstanceHandle,
                                     dt: real, capture: Option<Pointer>)
    ensures Settings(InitializeWithHandle(c, simulation).0) == Settings(c)
    ensures forall call <- PrepareForIntegration(InitializeWithHandle(c, simulation).0, dt) :: call.simulation == simulation
    ensures IntegrateVelocity(InitializeWithHandle(c, simulation).0, capture).simulation == simulation
    ensures InitializeWithHandle(InitializeWithSimulation(c), simulation) == InitializeWithHandle(c, simulation)
  {
  }
}
