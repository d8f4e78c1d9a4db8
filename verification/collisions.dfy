/** Collidable references, contact manifolds and pair materials. A collidable
    reference packs the owner's mobility into bits 30..31 and the owner's
    body or static handle into bits 0..29 of a `u32`. */
module Collisions {
  import opened Bits
  import opened Wrappers
  import opened Handles
  import Poses
  import Springs

  datatype Mobility = Dynamic | Kinematic | Static

  /** The enum's declared discriminants. */
  function Discriminant(m: Mobility): (d: Word)
    ensures d < 3
  {
    match m
    case Dynamic => 0
    case Kinematic => 1
    case Static => 2
  }

  datatype CollidableReference = CollidableReference(packed: Word)

  /** The assertions of this module that can fail. */
  datatype Fault = NotABody | NotAStatic | ContactIndexOutOfRange

  const HANDLE_MASK: Word := 0x3FFF_FFFF

  /** The mobility stored in the top two bits. The value 3 is not a
      discriminant of the enum; the source transmutes it anyway, which is
      undefined, and the model answers `None`. */
  function MobilityOf(r: CollidableReference): (m: Option<Mobility>)
    ensures m.Some? ==> Discriminant(m.value) == r.packed >> 30
    ensures m.None? <==> r.packed >= 0xC000_0000
  {
    TopBitsAreAShift(r.packed);
    FromDiscriminant(r.packed >> 30)
  }

  /** The top two bits hold 3 exactly when the word is at least 3 * 2^30. */
  lemma TopBitsAreAShift(w: Word)
    ensures w >> 30 == 3 <==> w >= 0xC000_0000
    ensures w >> 30 <= 3
  {
  }

  /** The mobility with a given discriminant, if there is one. */
  function FromDiscriminant(d: Word): (m: Option<Mobility>)
    ensures m.Some? ==> Discriminant(m.value) == d
    ensures m.None? <==> !(d < 3)
  {
    if d == 0 then Some(Dynamic)
    else if d == 1 then Some(Kinematic)
    else if d == 2 then Some(Static)
    else None
  }

  /** Every mobility is recovered from its discriminant. */
  lemma DiscriminantRoundTrip(m: Mobility)
    ensures FromDiscriminant(Discriminant(m)) == Some(m)
  {
  }

  /** The decoded mobility is the one whose discriminant sits in the top two
      bits, and there is none exactly when those bits are 3. */
  lemma MobilityOfReadsTopBits(r: CollidableReference)
    ensures MobilityOf(r).None? <==> r.packed >> 30 == 3
    ensures MobilityOf(r).Some? ==> Discriminant(MobilityOf(r).value) == r.packed >> 30
  {
  }

  /** The owner is a dynamic or kinematic body. */
  predicate OwnedByBody(r: CollidableReference) {
    MobilityOf(r) == Some(Dynamic) || MobilityOf(r) == Some(Kinematic)
  }

  /** The owner is a static. */
  predicate OwnedByStatic(r: CollidableReference) {
    MobilityOf(r) == Some(Static)
  }

  /** The owning body's handle: the low 30 bits. Asserts that the owner is
      a dynamic or kinematic body. */
  function BodyHandleOf(r: CollidableReference): (h: Result<BodyHandle, Fault>)
    ensures h.Ok? <==> OwnedByBody(r)
    ensures h.Ok? ==> h.value.value < 0x4000_0000
  {
    if OwnedByBody(r) then Ok(BodyHandle(r.packed & HANDLE_MASK)) else Err(NotABody)
  }

  /** The owning static's handle: the low 30 bits. Asserts that the owner is
      a static. */
  function StaticHandleOf(r: CollidableReference): (h: Result<StaticHandle, Fault>)
    ensures h.Ok? <==> OwnedByStatic(r)
    ensures h.Ok? ==> h.value.value < 0x4000_0000
  {
    if OwnedByStatic(r) then Ok(StaticHandle(r.packed & HANDLE_MASK)) else Err(NotAStatic)
  }

  /** The low 30 bits whatever the mobility; never a negative `i32`. */
  function RawHandleValue(r: CollidableReference): (v: Word)
    ensures v < 0x4000_0000 && !IsNegative(v)
  {
    r.packed & HANDLE_MASK
  }

  /** The reference encoding: the discriminant in the top two bits or-ed with
      the handle's bit pattern, unmasked. */
  function Create(m: Mobility, handle: Word): CollidableReference {
    CollidableReference((Discriminant(m) << 30) | handle)
  }

  function CreateStatic(handle: StaticHandle): (r: CollidableReference)
    ensures r == Create(Static, handle.value)
    ensures FitsHandleField(handle.value) ==> MobilityOf(r) == Some(Static) && StaticHandleOf(r) == Ok(handle)
  {
    var r := CollidableReference((2 << 30) | handle.value);
    if FitsHandleField(handle.value) then CreateRoundTrip(Static, handle.value); r else r
  }

  function CreateDynamic(handle: BodyHandle): (r: CollidableReference)
    ensures r == Create(Dynamic, handle.value)
    ensures FitsHandleField(handle.value) ==> MobilityOf(r) == Some(Dynamic) && BodyHandleOf(r) == Ok(handle)
  {
    var r := CollidableReference((0 << 30) | handle.value);
    if FitsHandleField(handle.value) then CreateRoundTrip(Dynamic, handle.value); r else r
  }

  function CreateKinematic(handle: BodyHandle): (r: CollidableReference)
    ensures r == Create(Kinematic, handle.value)
    ensures FitsHandleField(handle.value) ==> MobilityOf(r) == Some(Kinematic) && BodyHandleOf(r) == Ok(handle)
  {
    var r := CollidableReference((1 << 30) | handle.value);
    if FitsHandleField(handle.value) then CreateRoundTrip(Kinematic, handle.value); r else r
  }

  /** A handle fits the 30-bit field: non-negative and below 2^30. */
  predicate FitsHandleField(handle: Word) {
    handle < 0x4000_0000
  }

  /** The two fields of a reference word occupy disjoint bits. */
  lemma FieldsOfPackedWord(d: Word, handle: Word)
    requires d < 4 && handle < 0x4000_0000
    ensures ((d << 30) | handle) >> 30 == d
    ensures ((d << 30) | handle) & HANDLE_MASK == handle
  {
  }

  /** The top two bits and the low 30 bits of a word make up the word. */
  lemma FieldsCoverWord(d: Word, w: Word)
    requires d == w >> 30
    ensures (d << 30) | (w & HANDLE_MASK) == w
  {
  }

  /** For handles that fit, the mobility reads back as packed. */
  lemma CreateKeepsMobility(m: Mobility, handle: Word)
    requires FitsHandleField(handle)
    ensures MobilityOf(Create(m, handle)) == Some(m)
  {
    FieldsOfPackedWord(Discriminant(m), handle);
  }

  /** For handles that fit, the handle reads back as packed. */
  lemma CreateKeepsHandle(m: Mobility, handle: Word)
    requires FitsHandleField(handle)
    ensures RawHandleValue(Create(m, handle)) == handle
  {
    FieldsOfPackedWord(Discriminant(m), handle);
  }

  /** For handles that fit, the decoders give back the mobility and the
      handle that were packed, and the getter matching the mobility
      succeeds. */
  lemma CreateRoundTrip(m: Mobility, handle: Word)
    requires FitsHandleField(handle)
    ensures MobilityOf(Create(m, handle)) == Some(m)
    ensures RawHandleValue(Create(m, handle)) == handle
    ensures m != Static ==> BodyHandleOf(Create(m, handle)) == Ok(BodyHandle(handle))
    ensures m == Static ==> StaticHandleOf(Create(m, handle)) == Ok(StaticHandle(handle))
  {
    CreateKeepsMobility(m, handle);
    CreateKeepsHandle(m, handle);
    var r := Create(m, handle);
    if m != Static {
      assert OwnedByBody(r);
      assert BodyHandleOf(r) == Ok(BodyHandle(RawHandleValue(r)));
    } else {
      assert OwnedByStatic(r);
      assert StaticHandleOf(r) == Ok(StaticHandle(RawHandleValue(r)));
    }
  }

  /** Every reference with a valid mobility is the encoding of its decoded
      mobility and handle, so the decoders lose nothing. */
  lemma CreateDecomposition(r: CollidableReference)
    requires MobilityOf(r).Some?
    ensures Create(MobilityOf(r).value, RawHandleValue(r)) == r
  {
    FieldsCoverWord(Discriminant(MobilityOf(r).value), r.packed);
  }

  /** The creators do not mask the handle: a handle at or above 2^30 spills
      into the mobility bits, so a dynamic body reads back as kinematic and a
      negative handle reads back as the invalid mobility 3. */
  lemma OversizedHandleCorruptsMobility()
    ensures MobilityOf(CreateDynamic(BodyHandle(0x4000_0000))) == Some(Kinematic)
    ensures MobilityOf(CreateDynamic(BodyHandle(0xFFFF_FFFF))).None?
  {
  }

  /** The second copy of the body-handle getter, which returns the whole
      packed word as the handle instead of its low 30 bits. */
  function BodyHandleUnmasked(r: CollidableReference): (h: Result<BodyHandle, Fault>)
    ensures h.Ok? <==> BodyHandleOf(r).Ok?
    ensures h.Ok? ==> h.value.value & HANDLE_MASK == BodyHandleOf(r).value.value
  {
    if OwnedByBody(r) then Ok(BodyHandle(r.packed)) else Err(NotABody)
  }

  /** The second copy of the static-handle getter, also unmasked. */
  function StaticHandleUnmasked(r: CollidableReference): (h: Result<StaticHandle, Fault>)
    ensures h.Ok? <==> StaticHandleOf(r).Ok?
    ensures h.Ok? ==> h.value.value & HANDLE_MASK == StaticHandleOf(r).value.value
  {
    if OwnedByStatic(r) then Ok(StaticHandle(r.packed)) else Err(NotAStatic)
  }

  /** For a dynamic body the unmasked getter happens to agree with the
      masked one, since the mobility bits are zero. */
  lemma UnmaskedGetterAgreesForDynamic(handle: Word)
    requires FitsHandleField(handle)
    ensures BodyHandleUnmasked(CreateDynamic(BodyHandle(handle))) == Ok(BodyHandle(handle))
  {
    FieldsOfPackedWord(0, handle);
    CreateKeepsMobility(Dynamic, handle);
  }

  /** For a kinematic body the unmasked getter returns the handle with bit 30
      set, 2^30 larger than the handle that was packed. */
  lemma UnmaskedGetterMisreadsKinematic(handle: Word)
    requires FitsHandleField(handle)
    ensures BodyHandleUnmasked(CreateKinematic(BodyHandle(handle))) == Ok(BodyHandle(handle | 0x4000_0000))
    ensures handle | 0x4000_0000 != handle
  {
    CreateKeepsMobility(Kinematic, handle);
  }

  /** For a static the unmasked getter returns a negative `i32`. */
  lemma UnmaskedGetterMisreadsStatic(handle: Word)
    requires FitsHandleField(handle)
    ensures StaticHandleUnmasked(CreateStatic(StaticHandle(handle))).Ok?
    ensures IsNegative(StaticHandleUnmasked(CreateStatic(StaticHandle(handle))).value.value)
  {
    CreateKeepsMobility(Static, handle);
  }

  datatype ConvexContact = ConvexContact(offset: Poses.Vector3, depth: real, featureId: int)

  /** A convex manifold: up to four contacts sharing one normal. `count`
      says how many of the four slots are in use. */
  datatype ConvexContactManifold = ConvexContactManifold(
    offsetB: Poses.Vector3, count: int, normal: Poses.Vector3, contacts: seq<ConvexContact>)

  datatype NonconvexContact = NonconvexContact(offset: Poses.Vector3, depth: real, normal: Poses.Vector3, featureId: int)

  /** A nonconvex manifold: up to four contacts with their own normals. */
  datatype NonconvexContactManifold = NonconvexContactManifold(
    offsetB: Poses.Vector3, count: int, contacts: seq<NonconvexContact>)

  /** The fixed contact array of four slots, and a count that stays within it. */
  predicate WellFormed(m: ConvexContactManifold) {
    |m.contacts| == 4 && 0 <= m.count <= 4
  }

  /** Asserts that a contact index lies in `0..count`. */
  function ValidateIndex(m: ConvexContactManifold, contactIndex: int): (r: Result<(), Fault>)
    ensures r.Ok? <==> 0 <= contactIndex < m.count
  {
    if contactIndex >= 0 && contactIndex < m.count then Ok(())
    else Err(ContactIndexOutOfRange)
  }

  /** In a well-formed manifold every accepted index names a slot of the
      contact array. */
  lemma ValidatedIndexIsInBounds(m: ConvexContactManifold, contactIndex: int)
    requires WellFormed(m)
    requires ValidateIndex(m, contactIndex).Ok?
    ensures 0 <= contactIndex < |m.contacts|
  {
  }

  /** What the narrow phase uses to build the contact constraints of a
      pair. */
  datatype PairMaterialProperties = PairMaterialProperties(
    frictionCoefficient: real, maximumRecoveryVelocity: real, contactSpringSettings: Springs.SpringSettings)

  /** Both copies of the constructor store the three arguments as given. */
  function NewMaterial(friction: real, maxRecovery: real, spring: Springs.SpringSettings): (p: PairMaterialProperties)
    ensures p.frictionCoefficient == friction
    ensures p.maximumRecoveryVelocity == maxRecovery
    ensures p.contactSpringSettings == spring
  {
    PairMaterialProperties(friction, maxRecovery, spring)
  }

  /** The all-zero material: no friction, no recovery, and a spring built
      from zero frequency and zero damping. */
  const ZERO_MATERIAL: PairMaterialProperties := NewMaterial(0.0, 0.0, Springs.NewSpring(0.0, 0.0))

  /** The zero material reads as zero in every unit the crate exposes. */
  lemma ZeroMaterialReadsZero()
    ensures ZERO_MATERIAL.frictionCoefficient == 0.0 && ZERO_MATERIAL.maximumRecoveryVelocity == 0.0
    ensures Springs.Frequency(ZERO_MATERIAL.contactSpringSettings) == 0.0
    ensures Springs.DampingRatio(ZERO_MATERIAL.contactSpringSettings) == 0.0
    ensures ZERO_MATERIAL.contactSpringSettings == Springs.DEFAULT_SPRING
  {
  }
}
