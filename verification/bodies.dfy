/** Body descriptions and their factories: velocity, inertia, collidable,
    activity. The crate has two copies; the second (`bepu`) copy's factories
    are stated here in terms of the first. `f32` is modelled as `real`. */
module Bodies {
  import opened Poses
  import Handles
  import Continuity

  datatype BodyVelocity = BodyVelocity(linear: Vector3, pad0: int, angular: Vector3, pad1: int)

  /** A velocity from its two parts, with both pads zero. */
  function NewVelocity(linear: Vector3, angular: Vector3): (v: BodyVelocity)
    ensures v.linear == linear && v.angular == angular && v.pad0 == 0 && v.pad1 == 0
  {
    BodyVelocity(linear, 0, angular, 0)
  }

  /** A velocity with no angular part. */
  function FromLinear(linear: Vector3): (v: BodyVelocity)
    ensures v == NewVelocity(linear, ZERO_VECTOR)
  {
    NewVelocity(linear, Vector3(0.0, 0.0, 0.0))
  }

  const ZERO_VELOCITY: BodyVelocity := NewVelocity(ZERO_VECTOR, ZERO_VECTOR)

  /** The derived default of the second copy: every field zero. */
  const DEFAULT_VELOCITY: BodyVelocity := BodyVelocity(ZERO_VECTOR, 0, ZERO_VECTOR, 0)

  function Dot(a: Vector3, b: Vector3): real {
    a.x * b.x + a.y * b.y + a.z * b.z
  }

  /** The quantity the sleep threshold is compared against. */
  function SquaredSpeed(v: BodyVelocity): real {
    Dot(v.linear, v.linear) + Dot(v.angular, v.angular)
  }

  /** The zero velocity is the derived default and has no speed. */
  lemma ZeroVelocityIsDefault()
    ensures ZERO_VELOCITY == DEFAULT_VELOCITY && SquaredSpeed(ZERO_VELOCITY) == 0.0
  {
  }

  datatype BodyInertia = BodyInertia(inverseInertiaTensor: Symmetric3x3, inverseMass: real, pad: int)

  /** An inertia from an inverse tensor and an inverse mass, pad zero. */
  function FromSymmetric(inverseTensor: Symmetric3x3, inverseMass: real): (i: BodyInertia)
    ensures i.inverseInertiaTensor == inverseTensor && i.inverseMass == inverseMass && i.pad == 0
  {
    BodyInertia(inverseTensor, inverseMass, 0)
  }

  /** Infinite inertia: inverse mass and inverse tensor zero. */
  const KINEMATIC_INERTIA: BodyInertia := BodyInertia(ZERO_SYMMETRIC, 0.0, 0)

  datatype CollidableDescription = CollidableDescription(
    shape: Handles.TypedIndex, continuity: Continuity.ContinuousDetection,
    minimumSpeculativeMargin: real, maximumSpeculativeMargin: real)

  /** The general constructor: all four fields as given. */
  function NewCollidable(shape: Handles.TypedIndex, minimumMargin: real, maximumMargin: real,
                         continuity: Continuity.ContinuousDetection): (c: CollidableDescription)
    ensures c.shape == shape && c.continuity == continuity
    ensures c.minimumSpeculativeMargin == minimumMargin && c.maximumSpeculativeMargin == maximumMargin
  {
    CollidableDescription(shape, continuity, minimumMargin, maximumMargin)
  }

  function WithDiscrete(shape: Handles.TypedIndex, minimumMargin: real, maximumMargin: real): (c: CollidableDescription)
    ensures c.continuity.mode == Continuity.Discrete
  {
    CollidableDescription(shape, Continuity.DiscreteDetection(), minimumMargin, maximumMargin)
  }

  function WithMinimumSpeculativeMargin(shape: Handles.TypedIndex, maximumMargin: real,
                                        continuity: Continuity.ContinuousDetection): (c: CollidableDescription)
    ensures c.minimumSpeculativeMargin == 0.0 && c.maximumSpeculativeMargin == maximumMargin
  {
    CollidableDescription(shape, continuity, 0.0, maximumMargin)
  }

  function WithMaxSpeculativeMargin(shape: Handles.TypedIndex, continuity: Continuity.ContinuousDetection): (c: CollidableDescription)
    ensures c.minimumSpeculativeMargin == 0.0 && c.maximumSpeculativeMargin == F32_MAX
  {
    CollidableDescription(shape, continuity, 0.0, F32_MAX)
  }

  function PassiveCollidable(shape: Handles.TypedIndex): (c: CollidableDescription)
    ensures c.continuity.mode == Continuity.Passive
    ensures c.minimumSpeculativeMargin == 0.0 && c.maximumSpeculativeMargin == F32_MAX
  {
    CollidableDescription(shape, Continuity.PassiveDetection(), 0.0, F32_MAX)
  }

  function WithMaxSpeculativeMarginDiscrete(shape: Handles.TypedIndex, maximumMargin: real): (c: CollidableDescription)
    ensures c.continuity.mode == Continuity.Discrete && c.minimumSpeculativeMargin == 0.0
  {
    CollidableDescription(shape, Continuity.DiscreteDetection(), 0.0, maximumMargin)
  }

  /** The second copy's single-argument constructor. */
  function DefaultCollidable(shape: Handles.TypedIndex): (c: CollidableDescription)
    ensures c.continuity.mode == Continuity.Discrete
    ensures c.minimumSpeculativeMargin == 0.0 && c.maximumSpeculativeMargin == F32_MAX
  {
    CollidableDescription(shape, Continuity.DiscreteDetection(), 0.0, F32_MAX)
  }

  /** A speculative margin range that is not empty and starts at zero or
      above. */
  predicate MarginsOrdered(c: CollidableDescription) {
    0.0 <= c.minimumSpeculativeMargin <= c.maximumSpeculativeMargin
  }

  /** Every factory is the general constructor with some fields fixed, so
      the factories agree wherever their fixed fields agree. */
  lemma FactoriesAreSpecialisations(shape: Handles.TypedIndex, minimumMargin: real, maximumMargin: real,
                                    continuity: Continuity.ContinuousDetection)
    ensures WithDiscrete(shape, minimumMargin, maximumMargin)
         == NewCollidable(shape, minimumMargin, maximumMargin, Continuity.DiscreteDetection())
    ensures WithMinimumSpeculativeMargin(shape, maximumMargin, continuity)
         == NewCollidable(shape, 0.0, maximumMargin, continuity)
    ensures WithMaxSpeculativeMargin(shape, continuity) == WithMinimumSpeculativeMargin(shape, F32_MAX, continuity)
    ensures PassiveCollidable(shape) == WithMaxSpeculativeMargin(shape, Continuity.PassiveDetection())
    ensures WithMaxSpeculativeMarginDiscrete(shape, maximumMargin) == WithDiscrete(shape, 0.0, maximumMargin)
    ensures DefaultCollidable(shape) == WithMaxSpeculativeMargin(shape, Continuity.DiscreteDetection())
  {
  }

  /** The factories that fix the maximum at `f32::MAX` always give an
      ordered margin range; the others do exactly when their arguments
      are ordered. */
  lemma FactoryMarginsOrdered(shape: Handles.TypedIndex, minimumMargin: real, maximumMargin: real,
                              continuity: Continuity.ContinuousDetection)
    ensures MarginsOrdered(WithMaxSpeculativeMargin(shape, continuity))
    ensures MarginsOrdered(PassiveCollidable(shape)) && MarginsOrdered(DefaultCollidable(shape))
    ensures MarginsOrdered(WithMinimumSpeculativeMargin(shape, maximumMargin, continuity)) <==> 0.0 <= maximumMargin
    ensures MarginsOrdered(NewCollidable(shape, minimumMargin, maximumMargin, continuity))
        <==> 0.0 <= minimumMargin <= maximumMargin
  {
  }

  datatype BodyActivityDescription = BodyActivityDescription(sleepThreshold: real, minimumTimestepCountUnderThreshold: int)

  /** The first copy's constructor: both fields as given (the count a `u8`). */
  function NewActivity(sleepThreshold: real, minimumTimesteps: int): (a: BodyActivityDescription)
    requires 0 <= minimumTimesteps < 256
    ensures a.sleepThreshold == sleepThreshold && a.minimumTimestepCountUnderThreshold == minimumTimesteps
  {
    BodyActivityDescription(sleepThreshold, minimumTimesteps)
  }

  /** The second copy's constructor: 32 timesteps under the threshold. */
  function ActivityWithThreshold(sleepThreshold: real): (a: BodyActivityDescription)
    ensures a == NewActivity(sleepThreshold, 32)
  {
    BodyActivityDescription(sleepThreshold, 32)
  }

  /** A body's velocity is under its sleep threshold. */
  predicate UnderSleepThreshold(a: BodyActivityDescription, v: BodyVelocity) {
    SquaredSpeed(v) < a.sleepThreshold
  }

  /** A negative threshold can never be met, whatever the velocity; a
      positive one is met by a body at rest. */
  lemma NegativeThresholdNeverSleeps(a: BodyActivityDescription, v: BodyVelocity)
    ensures a.sleepThreshold < 0.0 ==> !UnderSleepThreshold(a, v)
    ensures a.sleepThreshold > 0.0 ==> UnderSleepThreshold(a, ZERO_VELOCITY)
  {
  }

  datatype BodyDescription = BodyDescription(
    pose: RigidPose, velocity: BodyVelocity, localInertia: BodyInertia,
    collidable: CollidableDescription, activity: BodyActivityDescription)

  /** A kinematic body: zero inverse mass and zero inverse inertia tensor. */
  predicate IsKinematic(d: BodyDescription) {
    d.localInertia.inverseMass == 0.0 && d.localInertia.inverseInertiaTensor == ZERO_SYMMETRIC
  }

  /** All five fields as given; both copies' general constructors. */
  function CreateDynamic(pose: RigidPose, velocity: BodyVelocity, inertia: BodyInertia,
                         collidable: CollidableDescription, activity: BodyActivityDescription): (d: BodyDescription)
    ensures d.pose == pose && d.velocity == velocity && d.localInertia == inertia
    ensures d.collidable == collidable && d.activity == activity
  {
    BodyDescription(pose, velocity, inertia, collidable, activity)
  }

  function CreateDynamicAtRest(pose: RigidPose, inertia: BodyInertia,
                               collidable: CollidableDescription, activity: BodyActivityDescription): (d: BodyDescription)
    ensures d == CreateDynamic(pose, ZERO_VELOCITY, inertia, collidable, activity)
  {
    BodyDescription(pose, NewVelocity(ZERO_VECTOR, ZERO_VECTOR), inertia, collidable, activity)
  }

  /** The second copy's dynamic factory, with the derived default velocity. */
  function NewDynamic(pose: RigidPose, inertia: BodyInertia,
                      collidable: CollidableDescription, activity: BodyActivityDescription): (d: BodyDescription)
    ensures d.velocity == DEFAULT_VELOCITY && d.localInertia == inertia
  {
    BodyDescription(pose, DEFAULT_VELOCITY, inertia, collidable, activity)
  }

  /** Kinematic whatever the pose, velocity and collidable given. */
  function CreateKinematic(pose: RigidPose, velocity: BodyVelocity,
                           collidable: CollidableDescription, activity: BodyActivityDescription): (d: BodyDescription)
    ensures IsKinematic(d)
    ensures d.pose == pose && d.velocity == velocity && d.collidable == collidable && d.activity == activity
  {
    BodyDescription(pose, velocity, BodyInertia(ZERO_SYMMETRIC, 0.0, 0), collidable, activity)
  }

  function CreateKinematicAtRest(pose: RigidPose, collidable: CollidableDescription,
                                 activity: BodyActivityDescription): (d: BodyDescription)
    ensures IsKinematic(d) && SquaredSpeed(d.velocity) == 0.0
  {
    BodyDescription(pose, NewVelocity(ZERO_VECTOR, ZERO_VECTOR), BodyInertia(ZERO_SYMMETRIC, 0.0, 0), collidable, activity)
  }

  /** A kinematic factory is the dynamic one given infinite inertia, and a
      dynamic body is kinematic exactly when the inertia it was given is. */
  lemma KinematicIsInfiniteInertia(pose: RigidPose, velocity: BodyVelocity, inertia: BodyInertia,
                                   collidable: CollidableDescription, activity: BodyActivityDescription)
    ensures CreateKinematic(pose, velocity, collidable, activity)
         == CreateDynamic(pose, velocity, KINEMATIC_INERTIA, collidable, activity)
    ensures IsKinematic(CreateDynamic(pose, velocity, inertia, collidable, activity))
        <==> inertia.inverseMass == 0.0 && inertia.inverseInertiaTensor == ZERO_SYMMETRIC
  {
  }

  /** The kinematic at-rest factory passes the zero velocity. */
  lemma KinematicAtRestIsZeroVelocity(pose: RigidPose, collidable: CollidableDescription,
                                      activity: BodyActivityDescription)
    ensures CreateKinematicAtRest(pose, collidable, activity)
         == CreateKinematic(pose, ZERO_VELOCITY, collidable, activity)
  {
  }

  /** The second copy's dynamic factory is the first copy's at-rest one. */
  lemma NewDynamicIsAtRest(pose: RigidPose, inertia: BodyInertia,
                           collidable: CollidableDescription, activity: BodyActivityDescription)
    ensures NewDynamic(pose, inertia, collidable, activity) == CreateDynamicAtRest(pose, inertia, collidable, activity)
  {
  }
}
