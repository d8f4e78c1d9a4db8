/** Shapes: the shape-type discriminants, the box constructor, the mesh
    scale setter and the packed leaf of a bounding-volume tree. */
module Shapes {
  import opened Bits
  import opened Wrappers
  import opened Poses
  import Buffers

  datatype ShapeType =
    | Sphere | Capsule | Box | Triangle | Cylinder | ConvexHull | Compound | BigCompound | Mesh

  /** The enum's declared discriminants. */
  function ShapeDiscriminant(t: ShapeType): (d: nat)
    ensures d <= 8
  {
    match t
    case Sphere => 0
    case Capsule => 1
    case Box => 2
    case Triangle => 3
    case Cylinder => 4
    case ConvexHull => 5
    case Compound => 6
    case BigCompound => 7
    case Mesh => 8
  }

  /** The shape type with a given discriminant, if there is one. */
  function ShapeFromDiscriminant(d: int): (t: Option<ShapeType>)
    ensures t.Some? <==> 0 <= d <= 8
    ensures t.Some? ==> ShapeDiscriminant(t.value) == d
  {
    if d == 0 then Some(Sphere)
    else if d == 1 then Some(Capsule)
    else if d == 2 then Some(Box)
    else if d == 3 then Some(Triangle)
    else if d == 4 then Some(Cylinder)
    else if d == 5 then Some(ConvexHull)
    else if d == 6 then Some(Compound)
    else if d == 7 then Some(BigCompound)
    else if d == 8 then Some(Mesh)
    else None
  }

  /** Every shape type is recovered from its discriminant, so the nine
      discriminants are distinct and fill `0..=8`. */
  lemma ShapeDiscriminantRoundTrip(t: ShapeType, u: ShapeType)
    ensures ShapeFromDiscriminant(ShapeDiscriminant(t)) == Some(t)
    ensures ShapeDiscriminant(t) == ShapeDiscriminant(u) ==> t == u
  {
  }

  /** A box stored as its half extents. */
  datatype BoxShape = BoxShape(halfWidth: real, halfHeight: real, halfLength: real)

  /** A box from its full width, height and length. */
  function NewBox(width: real, height: real, length: real): (b: BoxShape)
    ensures 2.0 * b.halfWidth == width && 2.0 * b.halfHeight == height && 2.0 * b.halfLength == length
  {
    BoxShape(width * 0.5, height * 0.5, length * 0.5)
  }

  /** A two-child tree: node, metanode and leaf buffers and their counts. */
  datatype Tree = Tree(
    nodes: Buffers.Buffer, metanodes: Buffers.Buffer, leaves: Buffers.Buffer, nodeCount: int, leafCount: int)

  /** A triangle mesh with its scale and the cached reciprocal of the scale. */
  datatype MeshShape = MeshShape(tree: Tree, triangles: Buffers.Buffer, scale: Vector3, inverseScale: Vector3)

  /** The reciprocal of one scale component, with `f32::MAX` standing in
      for the reciprocal of zero. */
  function InverseComponent(s: real): (r: real)
    ensures s != 0.0 ==> r * s == 1.0
    ensures s == 0.0 ==> r == F32_MAX
  {
    if s != 0.0 then 1.0 / s else F32_MAX
  }

  function InverseOf(v: Vector3): Vector3 {
    Vector3(InverseComponent(v.x), InverseComponent(v.y), InverseComponent(v.z))
  }

  /** The cached inverse scale is the reciprocal of the stored scale. */
  predicate ScaleConsistent(m: MeshShape) {
    m.inverseScale == InverseOf(m.scale)
  }

  /** The scale setter as written: it recomputes the inverse scale from the
      new scale and assigns nothing else, the scale included. */
  function SetScale(m: MeshShape, scale: Vector3): (r: MeshShape)
    ensures r.inverseScale == InverseOf(scale)
    ensures r.scale == m.scale && r.tree == m.tree && r.triangles == m.triangles
  {
    m.(inverseScale := Vector3(
      if scale.x != 0.0 then 1.0 / scale.x else F32_MAX,
      if scale.y != 0.0 then 1.0 / scale.y else F32_MAX,
      if scale.z != 0.0 then 1.0 / scale.z else F32_MAX))
  }

  /** Because the scale itself is never assigned, setting a new scale on a
      consistent unit-scale mesh leaves the old scale beside the new
      reciprocal. */
  lemma SetScaleLeavesScaleStale(m: MeshShape)
    requires m.scale == Vector3(1.0, 1.0, 1.0) && ScaleConsistent(m)
    ensures SetScale(m, Vector3(2.0, 2.0, 2.0)).scale == Vector3(1.0, 1.0, 1.0)
    ensures !ScaleConsistent(SetScale(m, Vector3(2.0, 2.0, 2.0)))
  {
    assert SetScale(m, Vector3(2.0, 2.0, 2.0)).inverseScale.x == 0.5;
  }

  /** The setter with the scale assigned too: the mesh then carries the new
      scale and its reciprocal, and nothing else changes. */
  function SetScaleCorrected(m: MeshShape, scale: Vector3): (r: MeshShape)
    ensures r.scale == scale && ScaleConsistent(r)
    ensures r.tree == m.tree && r.triangles == m.triangles
    ensures r.inverseScale == SetScale(m, scale).inverseScale
  {
    SetScale(m, scale).(scale := scale)
  }

  /** Setting the same scale twice is the same as setting it once. */
  lemma SetScaleCorrectedIsIdempotent(m: MeshShape, scale: Vector3)
    ensures SetScaleCorrected(SetScaleCorrected(m, scale), scale) == SetScaleCorrected(m, scale)
  {
  }

  /** Where a leaf sits in its tree: bits 0..30 hold the node index and bit
      31 says which of the node's two children it is. */
  datatype Leaf = Leaf(packed: Word)

  const NODE_MASK: Word := 0x7FFF_FFFF

  /** The node index; never a negative `i32`. */
  function NodeIndex(l: Leaf): (r: Word)
    ensures !IsNegative(r)
  {
    l.packed & NODE_MASK
  }

  /** The child slot within the node: 0 or 1. */
  function ChildIndex(l: Leaf): (r: Word)
    ensures r <= 1
  {
    l.packed >> 31
  }

  datatype Fault = ChildIndexNotABit

  /** The leaf constructor: asserts that the child index is 0 or 1, then
      packs the low 31 bits of the node index beside it. */
  function NewLeaf(nodeIndex: Word, childIndex: Word): (r: Result<Leaf, Fault>)
    ensures r.Ok? <==> childIndex <= 1
  {
    if childIndex & !1 == 0 then Ok(Leaf((nodeIndex & NODE_MASK) | (childIndex << 31)))
    else Err(ChildIndexNotABit)
  }

  /** The two fields of a leaf word occupy disjoint bits. */
  lemma LeafFieldsAreDisjoint(n: Word, c: Word)
    requires c <= 1
    ensures ((n & NODE_MASK) | (c << 31)) & NODE_MASK == n & NODE_MASK
    ensures ((n & NODE_MASK) | (c << 31)) >> 31 == c
    ensures !IsNegative(n) ==> n & NODE_MASK == n
    ensures c & !1 == 0
  {
  }

  /** A leaf gives back the child index it was built with, and the node
      index when that is a non-negative `i32`. */
  lemma LeafRoundTrip(nodeIndex: Word, childIndex: Word)
    requires childIndex <= 1
    ensures NewLeaf(nodeIndex, childIndex).Ok?
    ensures ChildIndex(NewLeaf(nodeIndex, childIndex).value) == childIndex
    ensures NodeIndex(NewLeaf(nodeIndex, childIndex).value) == nodeIndex & NODE_MASK
    ensures !IsNegative(nodeIndex) ==> NodeIndex(NewLeaf(nodeIndex, childIndex).value) == nodeIndex
  {
    LeafFieldsAreDisjoint(nodeIndex, childIndex);
    var l := Leaf((nodeIndex & NODE_MASK) | (childIndex << 31));
    assert NewLeaf(nodeIndex, childIndex) == Ok(l);
    assert NodeIndex(l) == nodeIndex & NODE_MASK;
    assert ChildIndex(l) == childIndex;
  }

  /** The two fields of a leaf word make up the word. */
  lemma LeafFieldsCoverWord(w: Word)
    ensures (w & NODE_MASK) | ((w >> 31) << 31) == w
  {
  }

  /** Every leaf is rebuilt by the constructor from its own fields. */
  lemma LeafDecomposition(l: Leaf)
    ensures NewLeaf(NodeIndex(l), ChildIndex(l)) == Ok(l)
  {
    LeafFieldsCoverWord(l.packed);
  }

  /** The constructor masks the node index without asserting on it: a
      negative node index is accepted and comes back as a large positive
      one. */
  lemma NegativeNodeIndexIsMasked()
    ensures NewLeaf(0xFFFF_FFFF, 0).Ok?
    ensures NodeIndex(NewLeaf(0xFFFF_FFFF, 0).value) == 0x7FFF_FFFF
  {
  }
}
