/** Handles shared by the Rust side and the C# side: the typed index of a
    shape, the instance handle of a simulation, buffer pool or thread
    dispatcher, and the plain body, static and constraint handles. */
module Handles {
  import opened Bits
  import opened Wrappers

  /** An index with a type packed beside it: bit 31 says whether it refers
      to anything, bits 24..30 hold the type and bits 0..23 the index. */
  datatype TypedIndex = TypedIndex(packed: Word)

  const TYPE_MASK: Word := 0x7F00_0000
  const INDEX_MASK: Word := 0x00FF_FFFF

  /** The type of the object; always a non-negative `i32` below 128. */
  function TypeOf(t: TypedIndex): (r: Word)
    ensures r < 0x80 && !IsNegative(r)
  {
    (t.packed & TYPE_MASK) >> 24
  }

  /** The index of the object; always a non-negative `i32` below 2^24. */
  function IndexOf(t: TypedIndex): (r: Word)
    ensures r < 0x100_0000 && !IsNegative(r)
  {
    t.packed & INDEX_MASK
  }

  /** Whether the typed index refers to anything: the top bit, read through
      an unsigned comparison with zero. */
  function Exists(t: TypedIndex): (b: bool)
    ensures b <==> t.packed >= 0x8000_0000
  {
    ExistsReadsTopBit(t.packed);
    t.packed & (1 << 31) > 0
  }

  /** The top bit of a word is set exactly when the word is at least 2^31. */
  lemma ExistsReadsTopBit(w: Word)
    ensures w & (1 << 31) > 0 <==> w >= 0x8000_0000
  {
  }

  /** The reference encoding of a typed index from its three parts. */
  function PackTypedIndex(live: bool, ty: Word, index: Word): (t: TypedIndex)
    requires ty < 0x80 && index < 0x100_0000
  {
    TypedIndex((if live then SIGN_BIT else 0) | (ty << 24) | index)
  }

  /** Decoding a packed typed index gives back the three parts. */
  lemma TypedIndexRoundTrip(live: bool, ty: Word, index: Word)
    requires ty < 0x80 && index < 0x100_0000
    ensures Exists(PackTypedIndex(live, ty, index)) == live
    ensures TypeOf(PackTypedIndex(live, ty, index)) == ty
    ensures IndexOf(PackTypedIndex(live, ty, index)) == index
  {
  }

  /** The three fields of a typed index cover all 32 bits. */
  lemma TypedIndexFieldsCoverWord(w: Word)
    ensures (w & SIGN_BIT) | (((w & TYPE_MASK) >> 24) << 24) | (w & INDEX_MASK) == w
  {
  }

  /** Every word is the packing of its decoded parts, so the three decoders
      lose nothing. */
  lemma TypedIndexDecomposition(t: TypedIndex)
    ensures PackTypedIndex(Exists(t), TypeOf(t), IndexOf(t)) == t
  {
    var w := t.packed;
    TypedIndexFieldsCoverWord(w);
    assert (if Exists(t) then SIGN_BIT else 0) == w & SIGN_BIT;
  }

  /** The panic of `unwrap` on a failed conversion. */
  datatype UnwrapFailed = UnwrapFailed

  /** `u32::try_into::<i32>()`: fails on words at or above 2^31. */
  function TryIntoI32(w: Word): (r: Option<Word>)
    ensures r.Some? <==> !IsNegative(w)
    ensures r.Some? ==> r.value == w
  {
    if w & SIGN_BIT != 0 then None else Some(w)
  }

  /** The type through a checked conversion whose failure panics. The
      conversion never fails and the value agrees with `TypeOf`. */
  function GetType(t: TypedIndex): (r: Result<Word, UnwrapFailed>)
    ensures r == Ok(TypeOf(t))
  {
    match TryIntoI32((t.packed & TYPE_MASK) >> 24)
    case None => Err(UnwrapFailed)
    case Some(v) => Ok(v)
  }

  /** The index through a checked conversion whose failure panics. The
      conversion never fails and the value agrees with `IndexOf`. */
  function GetIndex(t: TypedIndex): (r: Result<Word, UnwrapFailed>)
    ensures r == Ok(IndexOf(t))
  {
    match TryIntoI32(t.packed & INDEX_MASK)
    case None => Err(UnwrapFailed)
    case Some(v) => Ok(v)
  }

  /** A handle into an instance directory, stored as an `i32`/`int`: bit 31
      marks a live handle, bits 28..30 hold the directory's type index,
      bits 24..27 the version and bits 0..23 the slot index. */
  datatype InstanceHandle = InstanceHandle(raw: Word)

  /** The null handle, which is also the derived default. */
  const NULL_HANDLE: InstanceHandle := InstanceHandle(0)

  function HandleIndex(h: InstanceHandle): (r: Word)
    ensures r < 0x100_0000
  {
    h.raw & INDEX_MASK
  }

  /** The version, read through a sign-propagating shift of an `i32`. */
  function Version(h: InstanceHandle): (r: Word)
    ensures r < 0x10
  {
    ArithShiftRight(h.raw, 24) & 0xF
  }

  /** The type index, read through a sign-propagating shift of an `i32`. */
  function TypeIndex(h: InstanceHandle): (r: Word)
    ensures r < 0x8
  {
    ArithShiftRight(h.raw, 28) & 0x7
  }

  /** Only the default handle is null. */
  function IsNull(h: InstanceHandle): (b: bool)
    ensures b <==> h == NULL_HANDLE
  {
    h.raw == 0
  }

  /** A handle's four fields cover all 32 bits. */
  lemma HandleFieldsCoverWord(w: Word)
    ensures w == 0 <==> (w & INDEX_MASK == 0 && (w >> 24) & 0xF == 0 && (w >> 28) & 0x7 == 0 && w & SIGN_BIT == 0)
  {
  }

  /** The default handle is the null handle, and a handle is null exactly
      when its live bit and its three fields are all zero. */
  lemma NullIffAllFieldsZero(h: InstanceHandle)
    ensures IsNull(NULL_HANDLE)
    ensures IsNull(h) <==> (!IsNegative(h.raw) && HandleIndex(h) == 0 && Version(h) == 0 && TypeIndex(h) == 0)
  {
    SignExtensionIsMaskedAway(h);
    HandleFieldsCoverWord(h.raw);
  }

  /** The copied sign bits never reach the masked fields: reading the
      version and the type index through a sign-propagating shift gives the
      same bits as an unsigned shift would. */
  lemma SignExtensionIsMaskedAway(h: InstanceHandle)
    ensures Version(h) == (h.raw >> 24) & 0xF
    ensures TypeIndex(h) == (h.raw >> 28) & 0x7
  {
  }

  /** What the handle constructor asserts of its arguments: both bounds are
      signed comparisons, so a negative index or type index passes. */
  predicate ConstructorAccepts(index: Word, typeIndex: Word) {
    SignedLess(index, 1 << 24) && SignedLess(typeIndex, 8)
  }

  /** The constructor: the live bit, the index, the version shifted to bit 24
      and the type index shifted to bit 28, or-ed together. The result is
      never the null handle. */
  function NewHandle(index: Word, version: Word, typeIndex: Word): (h: InstanceHandle)
    requires ConstructorAccepts(index, typeIndex)
    ensures IsNegative(h.raw) && !IsNull(h)
  {
    InstanceHandle(SIGN_BIT | index | (version << 24) | (typeIndex << 28))
  }

  /** Within the intended ranges (a non-negative index, a four-bit version, a
      non-negative type index) the decoders give back what was packed. */
  lemma HandleRoundTrip(index: Word, version: Word, typeIndex: Word)
    requires ConstructorAccepts(index, typeIndex)
    requires !IsNegative(index) && !IsNegative(typeIndex) && version < 0x10
    ensures HandleIndex(NewHandle(index, version, typeIndex)) == index
    ensures Version(NewHandle(index, version, typeIndex)) == version
    ensures TypeIndex(NewHandle(index, version, typeIndex)) == typeIndex
  {
    SignExtensionIsMaskedAway(NewHandle(index, version, typeIndex));
  }

  /** Within the intended ranges the handle determines its three fields, so
      two handles built from different fields differ. */
  lemma NewHandleInjective(i1: Word, v1: Word, t1: Word, i2: Word, v2: Word, t2: Word)
    requires ConstructorAccepts(i1, t1) && !IsNegative(i1) && !IsNegative(t1) && v1 < 0x10
    requires ConstructorAccepts(i2, t2) && !IsNegative(i2) && !IsNegative(t2) && v2 < 0x10
    requires NewHandle(i1, v1, t1) == NewHandle(i2, v2, t2)
    ensures i1 == i2 && v1 == v2 && t1 == t2
  {
    HandleRoundTrip(i1, v1, t1);
    HandleRoundTrip(i2, v2, t2);
  }

  /** Handles of two directories with different type indices never compare
      equal, whatever their slots and versions. */
  lemma DistinctTypeIndicesNeverCollide(i1: Word, v1: Word, t1: Word, i2: Word, v2: Word, t2: Word)
    requires ConstructorAccepts(i1, t1) && !IsNegative(i1) && !IsNegative(t1) && v1 < 0x10
    requires ConstructorAccepts(i2, t2) && !IsNegative(i2) && !IsNegative(t2) && v2 < 0x10
    requires t1 != t2
    ensures NewHandle(i1, v1, t1) != NewHandle(i2, v2, t2)
  {
    if NewHandle(i1, v1, t1) == NewHandle(i2, v2, t2) {
      NewHandleInjective(i1, v1, t1, i2, v2, t2);
    }
  }

  /** The constructor's assertions let a negative index through, and its
      sign bits then overwrite the version and the type index. */
  lemma NegativeIndexPassesTheAssertions()
    ensures ConstructorAccepts(0xFFFF_FFFF, 0)
    ensures Version(NewHandle(0xFFFF_FFFF, 0, 0)) == 0xF
    ensures TypeIndex(NewHandle(0xFFFF_FFFF, 0, 0)) == 0x7
  {
  }

  /** Nothing bounds the version: a version of 16 carries into the type
      index. */
  lemma VersionOverflowCarriesIntoType()
    ensures TypeIndex(NewHandle(0, 16, 0)) == 1 && Version(NewHandle(0, 16, 0)) == 0
  {
  }

  /** Plain handles of bodies, statics and constraints, each an `i32`. */
  datatype BodyHandle = BodyHandle(value: Word)
  datatype StaticHandle = StaticHandle(value: Word)
  datatype ConstraintHandle = ConstraintHandle(value: Word)
}
