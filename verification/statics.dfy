/** Static descriptions: a pose, a shape and continuity settings. The
    second (`bepu`) copy's constructors are stated in terms of the first. */
module Statics {
  import opened Poses
  import Handles
  import Continuity

  datatype StaticDescription = StaticDescription(
    pose: RigidPose, shape: Handles.TypedIndex, continuity: Continuity.ContinuousDetection)

  /** All three fields as given. */
  function Create(pose: RigidPose, shape: Handles.TypedIndex, continuity: Continuity.ContinuousDetection): (d: StaticDescription)
    ensures d.pose == pose && d.shape == shape && d.continuity == continuity
  {
    StaticDescription(pose, shape, continuity)
  }

  /** Discrete continuity: no sweep and no expansion beyond the margin. */
  function CreateDiscrete(pose: RigidPose, shape: Handles.TypedIndex): (d: StaticDescription)
    ensures d.pose == pose && d.shape == shape
    ensures !Continuity.AllowExpansionBeyondSpeculativeMargin(d.continuity)
  {
    StaticDescription(pose, shape, Continuity.DiscreteDetection())
  }

  /** The pose is built from a position and an orientation, pad zero. */
  function CreateWithPositionOrientation(position: Vector3, orientation: Quaternion, shape: Handles.TypedIndex,
                                         continuity: Continuity.ContinuousDetection): (d: StaticDescription)
    ensures d.pose.position == position && d.pose.orientation == orientation && d.pose.pad == 0
    ensures d.shape == shape && d.continuity == continuity
  {
    StaticDescription(NewPose(position, orientation), shape, continuity)
  }

  function CreateWithPositionOrientationDiscrete(position: Vector3, orientation: Quaternion,
                                                 shape: Handles.TypedIndex): (d: StaticDescription)
    ensures d.pose.position == position && d.pose.orientation == orientation && d.pose.pad == 0
    ensures d.shape == shape && d.continuity.mode == Continuity.Discrete
  {
    StaticDescription(NewPose(position, orientation), shape, Continuity.DiscreteDetection())
  }

  /** The second copy's positional constructor, whose pose constructor
      takes the orientation first. */
  function CreateAt(position: Vector3, orientation: Quaternion, shape: Handles.TypedIndex): (d: StaticDescription)
    ensures d.pose == NewPoseOrientationFirst(orientation, position)
    ensures d.shape == shape && d.continuity == Continuity.DiscreteDetection()
  {
    StaticDescription(NewPoseOrientationFirst(orientation, position), shape, Continuity.DiscreteDetection())
  }

  /** The discrete constructors are the general ones with `DiscreteDetection()`
      continuity, and the positional ones are the general ones with the
      pose built from its parts. */
  lemma ConstructorsFactor(pose: RigidPose, position: Vector3, orientation: Quaternion,
                           shape: Handles.TypedIndex, continuity: Continuity.ContinuousDetection)
    ensures CreateDiscrete(pose, shape) == Create(pose, shape, Continuity.DiscreteDetection())
    ensures CreateWithPositionOrientation(position, orientation, shape, continuity)
         == Create(NewPose(position, orientation), shape, continuity)
    ensures CreateWithPositionOrientationDiscrete(position, orientation, shape)
         == CreateWithPositionOrientation(position, orientation, shape, Continuity.DiscreteDetection())
  {
  }

  /** The two copies agree: the second copy's positional constructor,
      despite its swapped pose argument order, builds the same static as the
      first copy's discrete positional one. */
  lemma CopiesAgree(position: Vector3, orientation: Quaternion, shape: Handles.TypedIndex)
    ensures CreateAt(position, orientation, shape) == CreateWithPositionOrientationDiscrete(position, orientation, shape)
  {
    PoseConstructorsAgree(position, orientation);
  }
}
