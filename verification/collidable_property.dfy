/** Per-collidable extra data indexed by body or static handle: two typed
    buffers, one per handle space, grown through the buffer pool when a
    handle falls outside them. The element type is represented by its size
    in bytes. The simulation's handle mappings and the pool are outside the
    model: their answers arrive as parameters constrained by the pool's
    promises (`AllocatedAtLeast`, `ResizedToAtLeast`). */
module CollidableProperties {
  import opened Wrappers
  import opened Bits
  import opened Arith
  import Buffers
  import Handles
  import Collisions

  /** Bodies and statics have separate handle spaces, so each has a buffer. */
  datatype Space = Bodies | Statics

  datatype CollidableProperty = CollidableProperty(
    simulation: int, pool: int, bodyData: Buffers.Buffer, staticData: Buffers.Buffer, size: nat)

  datatype Fault = ArithmeticOverflow | DivisionByZero | IndexOutOfRange | WrongMobility

  function Data(p: CollidableProperty, s: Space): Buffers.Buffer {
    if s.Bodies? then p.bodyData else p.staticData
  }

  /** `p` with the buffer of space `s` replaced; nothing else changes. */
  function WithData(p: CollidableProperty, s: Space, b: Buffers.Buffer): (r: CollidableProperty)
    ensures Data(r, s) == b
    ensures s.Bodies? ==> r.staticData == p.staticData
    ensures s.Statics? ==> r.bodyData == p.bodyData
    ensures r.simulation == p.simulation && r.pool == p.pool && r.size == p.size
  {
    if s.Bodies? then p.(bodyData := b) else p.(staticData := b)
  }

  /** A typed buffer whose memory holds its elements and whose byte length
      fits an `i32`. */
  predicate ValidData(b: Buffers.Buffer, size: nat) {
    0 <= b.len && b.len * size <= I32_MAX && Buffers.Backed(b.memory, b.len, size)
  }

  /** The invariant every operation keeps: a non-zero element size that fits
      an `i32`, and two valid buffers. */
  predicate Valid(p: CollidableProperty) {
    0 < p.size <= I32_MAX && ValidData(p.bodyData, p.size) && ValidData(p.staticData, p.size)
  }

  /** The pool's promise for a fresh allocation of at least `target` bytes. */
  predicate AllocatedAtLeast(b: Buffers.ByteBuffer, target: int) {
    0 <= b.len <= I32_MAX && target <= b.len && Buffers.Backed(b.memory, b.len, 1)
  }

  /** The pool's promise for a resize to at least `target` bytes: a fresh
      allocation whose first `copyCount` bytes (as far as both blocks reach)
      are those of the old memory. */
  predicate ResizedToAtLeast(previous: Buffers.Memory, b: Buffers.ByteBuffer, target: int, copyCount: int) {
    AllocatedAtLeast(b, target)
    && forall k :: 0 <= k < copyCount && k < b.len && previous.Block? && k < |previous.bytes| ==>
         b.memory.bytes[k] == previous.bytes[k]
  }

  /** A quotient bound: `c * size <= len` puts `c` at or below the quotient. */
  lemma QuotientAtLeast(len: int, size: int, q: int, c: int)
    requires 0 < size && c * size <= len < q * size + size
    ensures c <= q
  {
    if c > q {
      MulMonotone(q + 1, c, size);
    }
  }

  /** The pool view of a grown buffer, for a positive element size. */
  function Grown(resized: Buffers.ByteBuffer, size: nat): (g: Buffers.Buffer)
    requires 0 < size <= I32_MAX
    ensures g.memory == resized.memory && g.id == resized.id
  {
    Buffers.AsBuffer(resized, size).value
  }

  /** A pool answer of at least `c` elements' worth of bytes is a valid
      buffer of at least `c` elements. */
  lemma GrownHolds(resized: Buffers.ByteBuffer, size: nat, target: int, c: int)
    requires 0 < size <= I32_MAX && AllocatedAtLeast(resized, target)
    requires c * size <= target
    ensures ValidData(Grown(resized, size), size) && c <= Grown(resized, size).len
  {
    QuotientAtLeast(resized.len, size, Grown(resized, size).len, c);
  }

  /** One element read from the pool's answer equals the old element when
      the copy covered it. */
  lemma CopiedElement(data: Buffers.Buffer, size: nat, resized: Buffers.ByteBuffer, target: int, copyCount: int, i: int)
    requires 0 < size <= I32_MAX && ValidData(data, size)
    requires data.len * size <= copyCount && data.len * size <= resized.len
    requires ResizedToAtLeast(data.memory, resized, target, copyCount)
    requires 0 <= i < data.len
    ensures (i + 1) * size <= |resized.memory.bytes| && (i + 1) * size <= |data.memory.bytes|
    ensures Buffers.Element(resized.memory.bytes, size, i) == Buffers.Element(data.memory.bytes, size, i)
  {
    MulMonotone(i + 1, data.len, size);
    assert (i + 1) * size == i * size + size;
    var x := Buffers.Element(resized.memory.bytes, size, i);
    var y := Buffers.Element(data.memory.bytes, size, i);
    assert forall k :: 0 <= k < size ==> x[k] == resized.memory.bytes[i * size + k] == data.memory.bytes[i * size + k] == y[k];
  }

  /** A pool answer holding at least the old buffer's bytes, with the old
      contents copied, keeps every old element in place. */
  lemma GrowthKeepsElements(data: Buffers.Buffer, size: nat, resized: Buffers.ByteBuffer, target: int, copyCount: int)
    requires 0 < size <= I32_MAX && ValidData(data, size)
    requires data.len * size <= copyCount && data.len * size <= resized.len
    requires ResizedToAtLeast(data.memory, resized, target, copyCount)
    ensures ValidData(Grown(resized, size), size) && data.len <= Grown(resized, size).len
    ensures forall i :: 0 <= i < data.len ==>
      Buffers.Get(Grown(resized, size), size, i) == Buffers.Get(data, size, i)
  {
    GrownHolds(resized, size, resized.len, data.len);
    forall i | 0 <= i < data.len
      ensures Buffers.Get(Grown(resized, size), size, i) == Buffers.Get(data, size, i)
    {
      CopiedElement(data, size, resized, target, copyCount, i);
    }
  }

  /** The constructor: one allocation per handle space, sized in bytes by
      the simulation's current mapping length times the element size (an
      `i32` product), each viewed as elements. */
  function New(simulation: int, pool: int, bodyMappingLen: int, staticMappingLen: int, size: nat,
               bodyAlloc: Buffers.ByteBuffer, staticAlloc: Buffers.ByteBuffer): (r: Result<CollidableProperty, Fault>)
    requires 0 <= bodyMappingLen <= I32_MAX && 0 <= staticMappingLen <= I32_MAX && size <= I32_MAX
    requires InI32(bodyMappingLen * size) ==> AllocatedAtLeast(bodyAlloc, bodyMappingLen * size)
    requires InI32(staticMappingLen * size) ==> AllocatedAtLeast(staticAlloc, staticMappingLen * size)
    ensures r.Ok? <==> 0 < size && InI32(bodyMappingLen * size) && InI32(staticMappingLen * size)
    ensures r.Ok? ==> Valid(r.value) && r.value.simulation == simulation && r.value.pool == pool && r.value.size == size
    ensures r.Ok? ==> bodyMappingLen <= r.value.bodyData.len && staticMappingLen <= r.value.staticData.len
    ensures r.Ok? ==> r.value.bodyData.id == bodyAlloc.id && r.value.staticData.id == staticAlloc.id
  {
    if !InI32(bodyMappingLen * size) || !InI32(staticMappingLen * size) then Err(ArithmeticOverflow)
    else if size == 0 then Err(DivisionByZero)
    else
      GrownHolds(bodyAlloc, size, bodyMappingLen * size, bodyMappingLen);
      GrownHolds(staticAlloc, size, staticMappingLen * size, staticMappingLen);
      Ok(CollidableProperty(simulation, pool, Grown(bodyAlloc, size), Grown(staticAlloc, size), size))
  }

  /** A handle at or past the end of its buffer makes the buffer grow. */
  predicate NeedsGrowth(p: CollidableProperty, s: Space, handle: int) {
    handle >= Data(p, s).len
  }

  /** The byte capacity requested when growing for `handle`: `handle + 1`
      elements, computed in `usize` and cast to `i32`. */
  function AllocateTarget(size: nat, handle: int): int {
    WrapI32(size * (handle + 1))
  }

  /** The bytes copied when growing for a handle: the whole old contents. */
  function AllocateCopy(size: nat, len: int): int {
    WrapI32(size * len)
  }

  /** What the pool answered when `Allocate` grows. */
  predicate AllocateAnswer(p: CollidableProperty, s: Space, handle: int, resized: Buffers.ByteBuffer) {
    NeedsGrowth(p, s, handle) ==>
      ResizedToAtLeast(Data(p, s).memory, resized, AllocateTarget(p.size, handle), AllocateCopy(p.size, Data(p, s).len))
  }

  /** `allocate_body` / `allocate_static`: grow the space's buffer to hold
      `handle` if it is too short, then hand out slot `handle` (the index
      assertion rejects a negative handle, and one the grown buffer still
      does not reach). The result is the property after the call; the slot
      is element `handle` of its buffer. */
  function Allocate(p: CollidableProperty, s: Space, handle: int, resized: Buffers.ByteBuffer): (r: Result<CollidableProperty, Fault>)
    requires Valid(p) && InI32(handle) && AllocateAnswer(p, s, handle, resized)
    ensures r.Ok? ==> Valid(r.value) && 0 <= handle < Data(r.value, s).len
    ensures r.Ok? ==> r.value == WithData(p, s, Data(r.value, s))
    ensures 0 <= handle < Data(p, s).len ==> r == Ok(p)
    ensures handle < 0 ==> r == Err(IndexOutOfRange)
    ensures NeedsGrowth(p, s, handle) && (handle + 1) * p.size <= I32_MAX ==> r.Ok?
  {
    var data := Data(p, s);
    if handle >= data.len then
      if handle == I32_MAX then Err(ArithmeticOverflow)
      else
        var g := Grown(resized, p.size);
        ReachesHandle(resized, p.size, handle);
        if handle < g.len then
          GrownHolds(resized, p.size, 0, 0);
          Ok(WithData(p, s, g))
        else Err(IndexOutOfRange)
    else if handle < 0 then Err(IndexOutOfRange)
    else Ok(p)
  }

  /** When the byte size of `handle + 1` elements fits an `i32`, the pool's
      answer to the request reaches slot `handle`. */
  lemma ReachesHandle(resized: Buffers.ByteBuffer, size: nat, handle: int)
    requires 0 < size <= I32_MAX && 0 <= handle
    ensures (handle + 1) * size <= I32_MAX && AllocatedAtLeast(resized, AllocateTarget(size, handle))
            ==> handle < Grown(resized, size).len
  {
    if (handle + 1) * size <= I32_MAX && AllocatedAtLeast(resized, AllocateTarget(size, handle)) {
      GrownHolds(resized, size, AllocateTarget(size, handle), handle + 1);
    }
  }

  /** Growing for a handle copies the whole old contents, so every element
      stored before the call keeps its value. */
  lemma AllocateKeepsElements(p: CollidableProperty, s: Space, handle: int, resized: Buffers.ByteBuffer)
    requires Valid(p) && InI32(handle) && AllocateAnswer(p, s, handle, resized)
    requires Allocate(p, s, handle, resized).Ok?
    ensures forall i :: 0 <= i < Data(p, s).len ==>
      Buffers.Get(Data(Allocate(p, s, handle, resized).value, s), p.size, i) == Buffers.Get(Data(p, s), p.size, i)
  {
    var data := Data(p, s);
    if handle >= data.len {
      var g := Grown(resized, p.size);
      MulMonotone(data.len, g.len, p.size);
      GrowthKeepsElements(data, p.size, resized, AllocateTarget(p.size, handle), AllocateCopy(p.size, data.len));
    }
  }

  /** `allocate_body`: only the body buffer may change. */
  function AllocateBody(p: CollidableProperty, handle: Handles.BodyHandle, resized: Buffers.ByteBuffer): (r: Result<CollidableProperty, Fault>)
    requires Valid(p) && AllocateAnswer(p, Bodies, ToInt(handle.value), resized)
    ensures r.Ok? ==> r.value.staticData == p.staticData && 0 <= ToInt(handle.value) < r.value.bodyData.len
  {
    Allocate(p, Bodies, ToInt(handle.value), resized)
  }

  /** `allocate_static`: only the static buffer may change. */
  function AllocateStatic(p: CollidableProperty, handle: Handles.StaticHandle, resized: Buffers.ByteBuffer): (r: Result<CollidableProperty, Fault>)
    requires Valid(p) && AllocateAnswer(p, Statics, ToInt(handle.value), resized)
    ensures r.Ok? ==> r.value.bodyData == p.bodyData && 0 <= ToInt(handle.value) < r.value.staticData.len
  {
    Allocate(p, Statics, ToInt(handle.value), resized)
  }

  /** The handle space a reference's owner lives in. */
  function SpaceOf(c: Collisions.CollidableReference): Space {
    if Collisions.OwnedByStatic(c) then Statics else Bodies
  }

  /** The handle a reference carries: its low 30 bits, which both handle
      getters return once their mobility assertion passes. */
  function HandleOf(c: Collisions.CollidableReference): int {
    ToInt(Collisions.RawHandleValue(c))
  }

  /** `allocate_collidable`: a static's reference allocates in the static
      space, any other in the body space, where the body-handle getter's
      assertion rejects a reference that names no body. */
  function AllocateCollidable(p: CollidableProperty, c: Collisions.CollidableReference, resized: Buffers.ByteBuffer): (r: Result<CollidableProperty, Fault>)
    requires Valid(p) && AllocateAnswer(p, SpaceOf(c), HandleOf(c), resized)
    ensures Collisions.OwnedByStatic(c) || Collisions.OwnedByBody(c) ==>
      r == Allocate(p, SpaceOf(c), HandleOf(c), resized)
    ensures !Collisions.OwnedByStatic(c) && !Collisions.OwnedByBody(c) ==> r == Err(WrongMobility)
  {
    if Collisions.MobilityOf(c) == Some(Collisions.Static) then
      Allocate(p, Statics, HandleOf(c), resized)
    else if !Collisions.OwnedByBody(c) then Err(WrongMobility)
    else Allocate(p, Bodies, HandleOf(c), resized)
  }

  /** What the pool answered when `EnsureCapacity` grows, for the copy count
      the call passes. */
  predicate CapacityAnswer(p: CollidableProperty, s: Space, capacity: int, copyCount: int, resized: Buffers.ByteBuffer) {
    capacity > Data(p, s).len && InI32(capacity * p.size) ==>
      ResizedToAtLeast(Data(p, s).memory, resized, capacity * p.size, copyCount)
  }

  /** `ensure_body_capacity` / `ensure_static_capacity` as written: a
      capacity beyond the buffer asks the pool for `capacity` elements' worth
      of bytes (an `i32` product), copying the buffer's length, an element
      count, as a byte count. */
  function EnsureCapacity(p: CollidableProperty, s: Space, capacity: int, resized: Buffers.ByteBuffer): (r: Result<CollidableProperty, Fault>)
    requires Valid(p) && InI32(capacity) && CapacityAnswer(p, s, capacity, Data(p, s).len, resized)
    ensures r.Ok? <==> capacity <= Data(p, s).len || InI32(capacity * p.size)
    ensures capacity <= Data(p, s).len ==> r == Ok(p)
    ensures r.Ok? ==> Valid(r.value) && capacity <= Data(r.value, s).len
    ensures r.Ok? ==> r.value == WithData(p, s, Data(r.value, s))
  {
    var data := Data(p, s);
    if capacity > data.len then
      if !InI32(capacity * p.size) then Err(ArithmeticOverflow)
      else
        GrownHolds(resized, p.size, capacity * p.size, capacity);
        Ok(WithData(p, s, Grown(resized, p.size)))
    else Ok(p)
  }

  /** With the copy count an element count, a pool answer that copies exactly
      what it is asked to loses the tail of the first element: two 4-byte
      elements grown to four keep only 2 of their 8 bytes. */
  lemma EnsureCapacityDropsBytes()
    ensures var p := CollidableProperty(0, 0, Buffers.Buffer(Buffers.Block([1, 2, 3, 4, 5, 6, 7, 8]), 2, 0), Buffers.NULL_BUFFER, 4);
            var resized := Buffers.ByteBuffer(Buffers.Block([1, 2, 0, 0, 0, 0, 0, 0, 0, 0, 0, 0, 0, 0, 0, 0]), 16, 1);
            && Valid(p) && CapacityAnswer(p, Bodies, 4, Data(p, Bodies).len, resized)
            && EnsureCapacity(p, Bodies, 4, resized).Ok?
            && Buffers.Get(EnsureCapacity(p, Bodies, 4, resized).value.bodyData, 4, 0) != Buffers.Get(p.bodyData, 4, 0)
  {
    var p := CollidableProperty(0, 0, Buffers.Buffer(Buffers.Block([1, 2, 3, 4, 5, 6, 7, 8]), 2, 0), Buffers.NULL_BUFFER, 4);
    var resized := Buffers.ByteBuffer(Buffers.Block([1, 2, 0, 0, 0, 0, 0, 0, 0, 0, 0, 0, 0, 0, 0, 0]), 16, 1);
    var r := EnsureCapacity(p, Bodies, 4, resized);
    assert r.value.bodyData == Buffers.Buffer(resized.memory, 4, 1);
    assert Buffers.Get(r.value.bodyData, 4, 0).value[2] == 0;
    assert Buffers.Get(p.bodyData, 4, 0).value[2] == 3;
  }

  /** The capacity setter with the copy count in bytes (`len * size`): every
      element already stored keeps its value. */
  function EnsureCapacityCorrected(p: CollidableProperty, s: Space, capacity: int, resized: Buffers.ByteBuffer): (r: Result<CollidableProperty, Fault>)
    requires Valid(p) && InI32(capacity) && CapacityAnswer(p, s, capacity, Data(p, s).len * p.size, resized)
    ensures r.Ok? <==> capacity <= Data(p, s).len || InI32(capacity * p.size)
    ensures capacity <= Data(p, s).len ==> r == Ok(p)
    ensures r.Ok? ==> Valid(r.value) && capacity <= Data(r.value, s).len
    ensures r.Ok? ==> r.value == WithData(p, s, Data(r.value, s))
  {
    var data := Data(p, s);
    if capacity > data.len then
      if !InI32(capacity * p.size) then Err(ArithmeticOverflow)
      else
        GrownHolds(resized, p.size, capacity * p.size, capacity);
        Ok(WithData(p, s, Grown(resized, p.size)))
    else Ok(p)
  }

  /** With the byte copy count, every element stored before the call keeps
      its value. */
  lemma EnsureCapacityCorrectedKeepsElements(p: CollidableProperty, s: Space, capacity: int, resized: Buffers.ByteBuffer)
    requires Valid(p) && InI32(capacity) && CapacityAnswer(p, s, capacity, Data(p, s).len * p.size, resized)
    requires EnsureCapacityCorrected(p, s, capacity, resized).Ok?
    ensures forall i :: 0 <= i < Data(p, s).len ==>
      Buffers.Get(Data(EnsureCapacityCorrected(p, s, capacity, resized).value, s), p.size, i)
      == Buffers.Get(Data(p, s), p.size, i)
  {
    var data := Data(p, s);
    if capacity > data.len {
      MulMonotone(data.len, capacity, p.size);
      GrowthKeepsElements(data, p.size, resized, capacity * p.size, data.len * p.size);
    }
  }

  /** The indexers: slot `handle` of the space's buffer, after asserting it
      is in range. */
  function Read(p: CollidableProperty, s: Space, handle: int): (r: Result<seq<Buffers.Byte>, Fault>)
    requires Valid(p)
    ensures r.Ok? <==> 0 <= handle < Data(p, s).len
    ensures r.Ok? ==> Buffers.Get(Data(p, s), p.size, handle) == Ok(r.value)
  {
    if handle >= 0 && handle < Data(p, s).len then Ok(Buffers.Get(Data(p, s), p.size, handle).value)
    else Err(IndexOutOfRange)
  }

  /** The reference indexer routes like `AllocateCollidable`. */
  function ReadCollidable(p: CollidableProperty, c: Collisions.CollidableReference): (r: Result<seq<Buffers.Byte>, Fault>)
    requires Valid(p)
    ensures Collisions.OwnedByStatic(c) || Collisions.OwnedByBody(c) ==>
      r == Read(p, SpaceOf(c), HandleOf(c))
    ensures !Collisions.OwnedByStatic(c) && !Collisions.OwnedByBody(c) ==> r == Err(WrongMobility)
  {
    if Collisions.MobilityOf(c) == Some(Collisions.Static) then Read(p, Statics, HandleOf(c))
    else if !Collisions.OwnedByBody(c) then Err(WrongMobility)
    else Read(p, Bodies, HandleOf(c))
  }

  /** A slot handed out by `Allocate` can be read, the old slots of the
      space read as before, and the other space is untouched. */
  lemma AllocatedSlotIsReadable(p: CollidableProperty, s: Space, handle: int, resized: Buffers.ByteBuffer, other: Space, i: int)
    requires Valid(p) && InI32(handle) && AllocateAnswer(p, s, handle, resized)
    requires Allocate(p, s, handle, resized).Ok?
    ensures Read(Allocate(p, s, handle, resized).value, s, handle).Ok?
    ensures 0 <= i < Data(p, s).len ==> Read(Allocate(p, s, handle, resized).value, s, i) == Read(p, s, i)
    ensures other != s ==> Read(Allocate(p, s, handle, resized).value, other, i) == Read(p, other, i)
  {
    AllocateKeepsElements(p, s, handle, resized);
  }

  /** `dispose`: the ids handed back to the pool, body buffer first. */
  function Dispose(p: CollidableProperty): (ids: seq<int>)
    ensures |ids| == 2
  {
    [p.bodyData.id, p.staticData.id]
  }

  /** Disposing a fresh property releases exactly the two allocations the
      constructor took. */
  lemma NewThenDispose(simulation: int, pool: int, bodyMappingLen: int, staticMappingLen: int, size: nat,
                       bodyAlloc: Buffers.ByteBuffer, staticAlloc: Buffers.ByteBuffer)
    requires 0 <= bodyMappingLen <= I32_MAX && 0 <= staticMappingLen <= I32_MAX && size <= I32_MAX
    requires InI32(bodyMappingLen * size) ==> AllocatedAtLeast(bodyAlloc, bodyMappingLen * size)
    requires InI32(staticMappingLen * size) ==> AllocatedAtLeast(staticAlloc, staticMappingLen * size)
    requires New(simulation, pool, bodyMappingLen, staticMappingLen, size, bodyAlloc, staticAlloc).Ok?
    ensures Dispose(New(simulation, pool, bodyMappingLen, staticMappingLen, size, bodyAlloc, staticAlloc).value)
         == [bodyAlloc.id, staticAlloc.id]
  {
  }
}
