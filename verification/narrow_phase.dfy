/** The demo callbacks the native side hands to the engine: the narrow-phase
    filter and material configuration, and the fixed-gravity pose
    integrator's reported settings. `f32` is modelled as `real`. */
module NarrowPhase {
  import opened Wrappers
  import Poses
  import Springs
  import Collisions
  import Handles
  import opened PoseCallbacks

  datatype NarrowPhaseCallbacks = NarrowPhaseCallbacks(
    contactSpringiness: Springs.SpringSettings, maximumRecoveryVelocity: real, frictionCoefficient: real)

  /** The constructor's default recovery velocity and friction. */
  const DEFAULT_RECOVERY: real := 2.0
  const DEFAULT_FRICTION: real := 1.0

  /** The springiness used when none was set: 30 Hz, critically damped. */
  const DEFAULT_SPRINGINESS: Springs.SpringSettings := Springs.NewSpring(30.0, 1.0)

  /** The constructor stores its three arguments; recovery and friction
      default to 2 and 1 when left out. */
  function NewCallbacks(springiness: Springs.SpringSettings, maximumRecovery: real := DEFAULT_RECOVERY,
                        friction: real := DEFAULT_FRICTION): (c: NarrowPhaseCallbacks)
    ensures c.contactSpringiness == springiness
    ensures c.maximumRecoveryVelocity == maximumRecovery && c.frictionCoefficient == friction
  {
    NarrowPhaseCallbacks(springiness, maximumRecovery, friction)
  }

  /** A springiness left zero-initialised: both raw fields zero. */
  predicate Unset(s: Springs.SpringSettings) {
    s.angularFrequency == 0.0 && s.twiceDampingRatio == 0.0
  }

  /** Replaces all three values with the defaults exactly when the
      springiness was left unset, and otherwise changes nothing. */
  function Initialize(c: NarrowPhaseCallbacks): (r: NarrowPhaseCallbacks)
    ensures Unset(c.contactSpringiness) ==> r == NewCallbacks(DEFAULT_SPRINGINESS, DEFAULT_RECOVERY, DEFAULT_FRICTION)
    ensures !Unset(c.contactSpringiness) ==> r == c
    ensures !Unset(r.contactSpringiness)
  {
    if c.contactSpringiness.angularFrequency == 0.0 && c.contactSpringiness.twiceDampingRatio == 0.0 then
      NarrowPhaseCallbacks(Springs.SpringSettings(30.0 * (2.0 * Springs.BPI), 1.0 * 2.0), 2.0, 1.0)
    else c
  }

  /** Initialising twice is initialising once, and the default springiness
      reads back as 30 Hz with damping ratio 1. */
  lemma InitializeIsIdempotent(c: NarrowPhaseCallbacks)
    ensures Initialize(Initialize(c)) == Initialize(c)
    ensures Springs.Frequency(DEFAULT_SPRINGINESS) == 30.0 && Springs.DampingRatio(DEFAULT_SPRINGINESS) == 1.0
  {
  }

  /** The pair-level filter: a pair gets contacts only if at least one side
      is a dynamic body. */
  function AllowContactGeneration(a: Collisions.CollidableReference, b: Collisions.CollidableReference): (allow: bool)
    ensures allow <==> Collisions.MobilityOf(a) == Some(Collisions.Dynamic) || Collisions.MobilityOf(b) == Some(Collisions.Dynamic)
  {
    var ma := Collisions.MobilityOf(a);
    var mb := Collisions.MobilityOf(b);
    (ma.Some? && ma.value == Collisions.Dynamic) || (mb.Some? && mb.value == Collisions.Dynamic)
  }

  /** The filter is symmetric; it rejects every pair without a dynamic side
      (kinematic-kinematic, kinematic-static) and accepts every pair with
      one, whatever the other side is. */
  lemma FilterNeedsADynamicSide(a: Collisions.CollidableReference, b: Collisions.CollidableReference,
                                h: Handles.BodyHandle)
    ensures AllowContactGeneration(a, b) == AllowContactGeneration(b, a)
    ensures Collisions.MobilityOf(a) != Some(Collisions.Dynamic) && Collisions.MobilityOf(b) != Some(Collisions.Dynamic)
        ==> !AllowContactGeneration(a, b)
    ensures Collisions.FitsHandleField(h.value) ==> AllowContactGeneration(Collisions.CreateDynamic(h), b)
  {
    if Collisions.FitsHandleField(h.value) {
      Collisions.CreateKeepsMobility(Collisions.Dynamic, h.value);
    }
  }

  /** The child-level filter accepts every pair of children. */
  function AllowChildContactGeneration(pair: (Collisions.CollidableReference, Collisions.CollidableReference),
                                       childIndexA: int, childIndexB: int): (allow: bool)
    ensures allow
  {
    true
  }

  /** The pair-level configuration: always builds constraints, with the
      material taken from the three stored values. */
  function ConfigureContactManifold(c: NarrowPhaseCallbacks): (r: (bool, Collisions.PairMaterialProperties))
    ensures r.0
    ensures r.1 == Collisions.NewMaterial(c.frictionCoefficient, c.maximumRecoveryVelocity, c.contactSpringiness)
  {
    (true, Collisions.PairMaterialProperties(c.frictionCoefficient, c.maximumRecoveryVelocity, c.contactSpringiness))
  }

  /** The material of initialised callbacks built with an unset springiness
      is the default one: friction 1, recovery 2, 30 Hz critically damped. */
  lemma InitializedMaterialIsDefault(c: NarrowPhaseCallbacks)
    requires Unset(c.contactSpringiness)
    ensures ConfigureContactManifold(Initialize(c)).1.frictionCoefficient == 1.0
    ensures ConfigureContactManifold(Initialize(c)).1.maximumRecoveryVelocity == 2.0
    ensures Springs.Frequency(ConfigureContactManifold(Initialize(c)).1.contactSpringSettings) == 30.0
    ensures Springs.DampingRatio(ConfigureContactManifold(Initialize(c)).1.contactSpringSettings) == 1.0
  {
  }

  /** The child-level configuration builds constraints and leaves the
      manifold as the engine produced it. */
  function ConfigureChildManifold(manifold: Collisions.ConvexContactManifold): (r: (bool, Collisions.ConvexContactManifold))
    ensures r.0 && r.1 == manifold
  {
    (true, manifold)
  }

  /** The demo pose integrator: fixed gravity and two damping fractions. */
  datatype PoseIntegrator = PoseIntegrator(gravity: Poses.Vector3, linearDamping: real, angularDamping: real)

  /** The constructor's default damping fraction, for both damping values. */
  const DEFAULT_DAMPING: real := 0.03

  /** The constructor stores gravity and both damping fractions, each
      defaulting to 0.03 when left out. */
  function NewPoseIntegrator(gravity: Poses.Vector3, linearDamping: real := DEFAULT_DAMPING,
                             angularDamping: real := DEFAULT_DAMPING): (p: PoseIntegrator)
    ensures p.gravity == gravity && p.linearDamping == linearDamping && p.angularDamping == angularDamping
  {
    PoseIntegrator(gravity, linearDamping, angularDamping)
  }

  /** Whatever its configuration, the demo integrator does not conserve
      angular momentum, does not substep unconstrained bodies and does not
      integrate kinematic ones. */
  function ReportedSettings(p: PoseIntegrator): (s: IntegratorSettings)
    ensures s.angularIntegrationMode == Nonconserving
    ensures !s.allowSubstepsForUnconstrainedBodies && !s.integrateVelocityForKinematics
  {
    IntegratorSettings(Nonconserving, false, false)
  }

  /** The per-unit-time velocity factor left after damping: one minus the
      damping fraction, clamped to `[0, 1]` before exponentiation. */
  function DampingBase(damping: real): (b: real)
    ensures 0.0 <= b <= 1.0
  {
    var kept := 1.0 - damping;
    if kept < 0.0 then 0.0 else if kept > 1.0 then 1.0 else kept
  }

  /** A damping fraction within `[0, 1]` keeps the rest of the velocity;
      out-of-range fractions saturate at no damping and at full damping;
      and more damping never keeps more velocity. */
  lemma DampingBaseClamps(damping: real, more: real)
    ensures 0.0 <= damping <= 1.0 ==> DampingBase(damping) == 1.0 - damping
    ensures damping <= 0.0 ==> DampingBase(damping) == 1.0
    ensures damping >= 1.0 ==> DampingBase(damping) == 0.0
    ensures damping <= more ==> DampingBase(more) <= DampingBase(damping)
  {
  }

  /** The demo builds both callbacks from one argument each. The narrow-phase
      callbacks then carry recovery 2 and friction 1, and with the 30 Hz
      critically damped springiness they are already what initialising
      unset callbacks produces, so initialising them changes nothing. The
      pose integrator damps both velocities by 0.03. */
  lemma OneArgumentConstructors(springiness: Springs.SpringSettings, unset: NarrowPhaseCallbacks, gravity: Poses.Vector3)
    requires Unset(unset.contactSpringiness)
    ensures NewCallbacks(springiness).maximumRecoveryVelocity == 2.0 && NewCallbacks(springiness).frictionCoefficient == 1.0
    ensures Initialize(NewCallbacks(DEFAULT_SPRINGINESS)) == NewCallbacks(DEFAULT_SPRINGINESS) == Initialize(unset)
    ensures NewPoseIntegrator(gravity).linearDamping == 0.03 && NewPoseIntegrator(gravity).angularDamping == 0.03
  {
  }
}
