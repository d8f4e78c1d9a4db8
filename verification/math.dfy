/** The scalar interop math types: vectors, quaternions, rigid poses and
    symmetric 3x3 matrices. `f32` is modelled as `real`; rounding is not
    modelled. The Rust crate carries two copies of these constructors with the
    same meaning, and a third `RigidPose` constructor that takes its
    arguments in the opposite order. */
module Poses {

  /** `f32::MAX`, the largest finite single-precision value. */
  const F32_MAX: real := 340282346638528859811704183484516925440.0

  datatype Vector3 = Vector3(x: real, y: real, z: real)

  datatype Quaternion = Quaternion(x: real, y: real, z: real, w: real)

  /** A rigid transformation; `pad` is the explicit layout padding. */
  datatype RigidPose = RigidPose(orientation: Quaternion, position: Vector3, pad: int)

  /** The lower triangle of a symmetric 3x3 matrix. */
  datatype Symmetric3x3 = Symmetric3x3(xx: real, yx: real, yy: real, zx: real, zy: real, zz: real)

  /** The zero vector, which is also `Vector3::default()`. */
  const ZERO_VECTOR: Vector3 := Vector3(0.0, 0.0, 0.0)

  /** The identity rotation, which is also `Quaternion::default()` and glam's
      `Quat::IDENTITY`. */
  const IDENTITY_QUATERNION: Quaternion := Quaternion(0.0, 0.0, 0.0, 1.0)

  function Add(a: Vector3, b: Vector3): Vector3 {
    Vector3(a.x + b.x, a.y + b.y, a.z + b.z)
  }

  /** The Hamilton product. */
  function Mul(a: Quaternion, b: Quaternion): Quaternion {
    Quaternion(
      a.w * b.x + a.x * b.w + a.y * b.z - a.z * b.y,
      a.w * b.y - a.x * b.z + a.y * b.w + a.z * b.x,
      a.w * b.z + a.x * b.y - a.y * b.x + a.z * b.w,
      a.w * b.w - a.x * b.x - a.y * b.y - a.z * b.z)
  }

  function Conjugate(q: Quaternion): Quaternion {
    Quaternion(-q.x, -q.y, -q.z, q.w)
  }

  /** `v` rotated by `q`, as the vector part of `q v q*`. */
  function Rotate(q: Quaternion, v: Vector3): Vector3 {
    var p := Mul(Mul(q, Quaternion(v.x, v.y, v.z, 0.0)), Conjugate(q));
    Vector3(p.x, p.y, p.z)
  }

  /** A point carried through a pose: rotated, then translated. */
  function Apply(pose: RigidPose, v: Vector3): Vector3 {
    Add(Rotate(pose.orientation, v), pose.position)
  }

  /** The zero vector is neutral for addition. */
  lemma ZeroVectorIsNeutral(v: Vector3)
    ensures Add(ZERO_VECTOR, v) == v && Add(v, ZERO_VECTOR) == v
  {
  }

  /** The identity quaternion is a unit quaternion that is neutral for the
      Hamilton product and leaves every vector where it is. */
  lemma IdentityQuaternionIsNeutral(q: Quaternion, v: Vector3)
    ensures Mul(IDENTITY_QUATERNION, q) == q && Mul(q, IDENTITY_QUATERNION) == q
    ensures Rotate(IDENTITY_QUATERNION, v) == v
    ensures IDENTITY_QUATERNION.x * IDENTITY_QUATERNION.x + IDENTITY_QUATERNION.y * IDENTITY_QUATERNION.y
          + IDENTITY_QUATERNION.z * IDENTITY_QUATERNION.z + IDENTITY_QUATERNION.w * IDENTITY_QUATERNION.w == 1.0
  {
  }

  /** `RigidPose::new(position, orientation)`, the argument order of the
      scalar math modules; the padding is zero. */
  function NewPose(position: Vector3, orientation: Quaternion): (p: RigidPose)
    ensures p.pad == 0
    ensures forall v :: Apply(p, v) == Add(Rotate(orientation, v), position)
  {
    RigidPose(orientation, position, 0)
  }

  /** `RigidPose::new(orientation, position)`, the argument order of the glam
      math module. */
  function NewPoseOrientationFirst(orientation: Quaternion, position: Vector3): (p: RigidPose)
    ensures p.pad == 0
    ensures forall v :: Apply(p, v) == Add(Rotate(orientation, v), position)
  {
    RigidPose(orientation, position, 0)
  }

  /** The two constructors build the same pose once their arguments are
      swapped, so neither order loses or mixes up a field. */
  lemma PoseConstructorsAgree(position: Vector3, orientation: Quaternion)
    ensures NewPose(position, orientation) == NewPoseOrientationFirst(orientation, position)
    ensures NewPose(position, orientation).position == position
    ensures NewPose(position, orientation).orientation == orientation
  {
  }

  /** A pure translation: the identity orientation at `position`. */
  function FromPosition(position: Vector3): (p: RigidPose)
    ensures p == NewPose(position, IDENTITY_QUATERNION)
  {
    RigidPose(IDENTITY_QUATERNION, position, 0)
  }

  /** A pose built from a position alone moves every point by that position. */
  lemma FromPositionTranslates(position: Vector3, v: Vector3)
    ensures Apply(FromPosition(position), v) == Add(v, position)
  {
    IdentityQuaternionIsNeutral(IDENTITY_QUATERNION, v);
  }

  /** The identity pose: no rotation, no translation. It is also the derived
      default of the glam pose, whose fields default to the identity
      quaternion, the zero vector and a zero pad. */
  const IDENTITY_POSE: RigidPose := FromPosition(ZERO_VECTOR)

  /** The identity pose leaves every point where it is. */
  lemma IdentityPoseFixesEveryPoint(v: Vector3)
    ensures Apply(IDENTITY_POSE, v) == v
    ensures IDENTITY_POSE == RigidPose(IDENTITY_QUATERNION, ZERO_VECTOR, 0)
  {
    FromPositionTranslates(ZERO_VECTOR, v);
    ZeroVectorIsNeutral(v);
  }

  /** Entry `(i, j)` of the full matrix, for rows and columns 0..2. */
  function Entry(m: Symmetric3x3, i: nat, j: nat): real
    requires i < 3 && j < 3
    decreases if i < j then 1 else 0
  {
    if i < j then Entry(m, j, i)
    else if i == 0 then m.xx
    else if i == 1 then (if j == 0 then m.yx else m.yy)
    else (if j == 0 then m.zx else if j == 1 then m.zy else m.zz)
  }

  /** The matrix every entry of which is `value`. */
  function Uniform(value: real): (m: Symmetric3x3)
    ensures forall i: nat, j: nat :: i < 3 && j < 3 ==> Entry(m, i, j) == value
  {
    Symmetric3x3(value, value, value, value, value, value)
  }

  /** The zero matrix, which is also the derived default. */
  const ZERO_SYMMETRIC: Symmetric3x3 := Symmetric3x3(0.0, 0.0, 0.0, 0.0, 0.0, 0.0)

  /** The zero matrix is the uniform matrix of 0: every entry is zero. */
  lemma ZeroSymmetricIsZero()
    ensures ZERO_SYMMETRIC == Uniform(0.0)
    ensures forall i: nat, j: nat :: i < 3 && j < 3 ==> Entry(ZERO_SYMMETRIC, i, j) == 0.0
  {
  }

  /** Storing only the lower triangle makes every stored matrix symmetric. */
  lemma StoredMatrixIsSymmetric(m: Symmetric3x3, i: nat, j: nat)
    requires i < 3 && j < 3
    ensures Entry(m, i, j) == Entry(m, j, i)
  {
  }
}
