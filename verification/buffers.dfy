/** Unmanaged spans shared across the language boundary: an untyped
    `ByteBuffer` counted in bytes, a typed `Buffer<T>` counted in elements of
    `size_of::<T>()` bytes, and the `QuickList<T>` that sits on a buffer.
    Memory is modelled as the bytes of the allocation the pointer refers to; a
    typed element is its byte image. Lengths and ids are `i32`. */
module Buffers {
  import opened Bits
  import opened Wrappers
  import opened Arith

  type Byte = bv8

  /** What a buffer's pointer refers to: nothing, or an allocation. */
  datatype Memory = Null | Block(bytes: seq<Byte>)

  /** A span counted in bytes. */
  datatype ByteBuffer = ByteBuffer(memory: Memory, len: int, id: int)

  /** A span counted in elements; the element size is a parameter of the
      operations, standing for `size_of::<T>()` / `sizeof(T)`. */
  datatype Buffer = Buffer(memory: Memory, len: int, id: int)

  /** A list on a buffer: slots `0..count` hold data. */
  datatype QuickList = QuickList(span: Buffer, count: int)

  /** The assertions and checked operations of this module that can fail. */
  datatype Fault = IndexOutOfRange | DivisionByZero | MultiplyOverflow

  /** The memory holds every element the length promises. */
  predicate Backed(memory: Memory, len: int, size: nat) {
    len <= 0 || (memory.Block? && len * size <= |memory.bytes|)
  }

  /** Element `i` of `bytes` read as elements of `size` bytes. */
  function Element(bytes: seq<Byte>, size: nat, i: nat): (e: seq<Byte>)
    requires (i + 1) * size <= |bytes|
    ensures |e| == size
  {
    bytes[i * size .. i * size + size]
  }

  /** `bytes` with element `i` replaced by `value`. */
  function WriteElement(bytes: seq<Byte>, size: nat, i: nat, value: seq<Byte>): (r: seq<Byte>)
    requires (i + 1) * size <= |bytes| && |value| == size
    ensures |r| == |bytes|
  {
    bytes[.. i * size] + value + bytes[i * size + size ..]
  }

  /** Elements `i < j` occupy disjoint byte ranges. */
  lemma ElementsAreDisjoint(size: nat, i: nat, j: nat)
    requires i < j
    ensures i * size + size <= j * size
  {
    MulMonotone(i + 1, j, size);
  }

  /** A written element reads back, and every other element is unchanged. */
  lemma ReadAfterWrite(bytes: seq<Byte>, size: nat, i: nat, j: nat, value: seq<Byte>)
    requires (i + 1) * size <= |bytes| && (j + 1) * size <= |bytes| && |value| == size
    ensures Element(WriteElement(bytes, size, i, value), size, j)
         == if i == j then value else Element(bytes, size, j)
  {
    var w := WriteElement(bytes, size, i, value);
    if i < j {
      ElementsAreDisjoint(size, i, j);
      assert forall k :: j * size <= k < j * size + size ==> w[k] == bytes[k];
    } else if j < i {
      ElementsAreDisjoint(size, j, i);
      assert forall k :: j * size <= k < j * size + size ==> w[k] == bytes[k];
    }
  }

  /** Reads element `i` of a typed buffer after the bounds assertion. */
  function Get(b: Buffer, size: nat, i: int): (r: Result<seq<Byte>, Fault>)
    requires Backed(b.memory, b.len, size)
    ensures r.Ok? <==> 0 <= i < b.len
    ensures r.Ok? ==> |r.value| == size
  {
    if i >= 0 && i < b.len then
      MulMonotone(i + 1, b.len, size);
      Ok(Element(b.memory.bytes, size, i))
    else Err(IndexOutOfRange)
  }

  /** Writes element `i` of a typed buffer after the bounds assertion; the
      span itself (length, id, allocation size) is unchanged. */
  function Set(b: Buffer, size: nat, i: int, value: seq<Byte>): (r: Result<Buffer, Fault>)
    requires Backed(b.memory, b.len, size) && |value| == size
    ensures r.Ok? <==> 0 <= i < b.len
    ensures r.Ok? ==> r.value.len == b.len && r.value.id == b.id && Backed(r.value.memory, r.value.len, size)
  {
    if i >= 0 && i < b.len then
      MulMonotone(i + 1, b.len, size);
      Ok(b.(memory := Block(WriteElement(b.memory.bytes, size, i, value))))
    else Err(IndexOutOfRange)
  }

  /** Through the indexing operators, a written element reads back and every
      other element keeps its value. */
  lemma GetAfterSet(b: Buffer, size: nat, i: int, j: int, value: seq<Byte>)
    requires Backed(b.memory, b.len, size) && |value| == size
    requires Set(b, size, i, value).Ok?
    ensures Get(Set(b, size, i, value).value, size, j)
         == if i == j then Ok(value) else Get(b, size, j)
  {
    if 0 <= j < b.len {
      MulMonotone(i + 1, b.len, size);
      MulMonotone(j + 1, b.len, size);
      ReadAfterWrite(b.memory.bytes, size, i, j, value);
    }
  }

  /** Reads byte `i` of a byte buffer after the bounds assertion. */
  function GetByte(b: ByteBuffer, i: int): (r: Result<Byte, Fault>)
    requires Backed(b.memory, b.len, 1)
    ensures r.Ok? <==> 0 <= i < b.len
    ensures r.Ok? ==> r.value == b.memory.bytes[i]
  {
    if i >= 0 && i < b.len then Ok(b.memory.bytes[i]) else Err(IndexOutOfRange)
  }

  /** Writes byte `i` of a byte buffer after the bounds assertion. */
  function SetByte(b: ByteBuffer, i: int, value: Byte): (r: Result<ByteBuffer, Fault>)
    requires Backed(b.memory, b.len, 1)
    ensures r.Ok? <==> 0 <= i < b.len
    ensures r.Ok? ==> r.value.len == b.len && r.value.id == b.id && Backed(r.value.memory, r.value.len, 1)
  {
    if i >= 0 && i < b.len then Ok(b.(memory := Block(b.memory.bytes[i := value]))) else Err(IndexOutOfRange)
  }

  /** A written byte reads back and every other byte keeps its value. */
  lemma GetByteAfterSetByte(b: ByteBuffer, i: int, j: int, value: Byte)
    requires Backed(b.memory, b.len, 1)
    requires SetByte(b, i, value).Ok?
    ensures GetByte(SetByte(b, i, value).value, j) == if i == j then Ok(value) else GetByte(b, j)
  {
  }

  /** The null buffer: no memory, no elements, id 0. */
  const NULL_BUFFER: Buffer := Buffer(Null, 0, 0)

  /** A buffer over caller-provided memory, its length and id stored as given. */
  function FromRaw(memory: Memory, length: int, id: int): (b: Buffer)
    ensures b.memory == memory && b.len == length && b.id == id
  {
    Buffer(memory, length, id)
  }

  /** The empty list on the null buffer. */
  const EMPTY_LIST: QuickList := QuickList(NULL_BUFFER, 0)

  /** Reads slot `i` of a list: asserts `0 <= i < count`, then indexes the
      span, which asserts again against the span's length. */
  function ListGet(q: QuickList, size: nat, i: int): (r: Result<seq<Byte>, Fault>)
    requires Backed(q.span.memory, q.span.len, size)
    ensures r.Ok? <==> 0 <= i < q.count && i < q.span.len
    ensures r.Ok? ==> r == Get(q.span, size, i)
  {
    if i >= 0 && i < q.count then Get(q.span, size, i) else Err(IndexOutOfRange)
  }

  /** The null buffer and the empty list reject every index. */
  lemma EmptySpansRejectEveryIndex(size: nat, i: int)
    ensures Get(NULL_BUFFER, size, i) == Err(IndexOutOfRange)
    ensures ListGet(EMPTY_LIST, size, i) == Err(IndexOutOfRange)
  {
  }

  /** A byte buffer viewed as elements of `size` bytes: the length is the
      byte length divided by the size (a zero size divides by zero), the
      memory and the id are kept. Both `as_buffer` and the two `From`
      conversions compute this. */
  function AsBuffer(b: ByteBuffer, size: nat): (r: Result<Buffer, Fault>)
    requires size <= I32_MAX
    ensures r.Ok? <==> size > 0
    ensures r.Ok? ==> r.value.memory == b.memory && r.value.id == b.id
    ensures r.Ok? && b.len >= 0 ==> 0 <= r.value.len * size <= b.len < r.value.len * size + size
  {
    if size == 0 then Err(DivisionByZero)
    else Ok(Buffer(b.memory, TruncDiv(b.len, size), b.id))
  }

  /** A typed buffer viewed as bytes: the length is the element count times
      the size, checked for `i32` overflow; the memory and the id are kept. */
  function ToByteBuffer(b: Buffer, size: nat): (r: Result<ByteBuffer, Fault>)
    ensures r.Ok? <==> InI32(b.len * size)
    ensures r.Ok? ==> r.value.memory == b.memory && r.value.id == b.id && r.value.len == b.len * size
  {
    if InI32(b.len * size) then Ok(ByteBuffer(b.memory, b.len * size, b.id)) else Err(MultiplyOverflow)
  }

  /** Typed to bytes to typed gives back the same buffer whenever the byte
      length fits an `i32`. */
  lemma TypedRoundTrip(b: Buffer, size: nat)
    requires 0 < size <= I32_MAX
    requires ToByteBuffer(b, size).Ok?
    ensures AsBuffer(ToByteBuffer(b, size).value, size) == Ok(b)
  {
    TruncDivCancels(b.len, size);
  }

  /** Bytes to typed to bytes never overflows and gives back the byte length
      rounded toward zero to a whole number of elements: for a non-negative
      length it is at most the original, a multiple of the size, and short by
      less than one element. */
  lemma ByteRoundTrip(b: ByteBuffer, size: nat)
    requires 0 < size <= I32_MAX
    requires InI32(b.len)
    ensures ToByteBuffer(AsBuffer(b, size).value, size).Ok?
    ensures var r := ToByteBuffer(AsBuffer(b, size).value, size).value;
      r.memory == b.memory && r.id == b.id && r.len % size == 0 &&
      (b.len >= 0 ==> 0 <= b.len - r.len < size)
  {
    MultipleHasNoRemainder(TruncDiv(b.len, size), size);
  }

  /** A non-negative `int32_t` length survives the trip through `size_t`
      and its quotient fits back. */
  lemma QuotientFits(len: int, size: int)
    requires 0 < size
    ensures 0 <= len <= I32_MAX ==> WrapI32((len % TWO_64) / size) == len / size
  {
    if 0 <= len <= I32_MAX {
      DivUnique(len, TWO_64, 0, len);
      DivAtMost(len, size);
    }
  }

  /** A non-negative `int32_t` length whose byte length fits survives the
      trip through `size_t`. */
  lemma ProductFits(len: int, size: int)
    requires 0 < size
    ensures 0 <= len && len * size <= I32_MAX ==> WrapI32(((len % TWO_64) * size) % TWO_64) == len * size
  {
    if 0 <= len && len * size <= I32_MAX {
      MulMonotone(1, size, len);
      DivUnique(len, TWO_64, 0, len);
      DivUnique(len * size, TWO_64, 0, len * size);
    }
  }

  /** `Buffer(ByteBuffer)` of the C++ header: the `int32_t` length is
      converted to the unsigned `size_t` of `sizeof(T)`, divided, and the
      quotient converted back to `int32_t`. */
  function CppFromByteBuffer(b: ByteBuffer, size: int): (r: Buffer)
    requires 0 < size <= I32_MAX
    ensures r.memory == b.memory && r.id == b.id
    ensures 0 <= b.len <= I32_MAX ==> r.len == b.len / size
  {
    QuotientFits(b.len, size);
    Buffer(b.memory, WrapI32((b.len % TWO_64) / size), b.id)
  }

  /** `operator ByteBuffer` of the C++ header: the length times `sizeof(T)`
      in `size_t` arithmetic, converted back to `int32_t`. */
  function CppToByteBuffer(b: Buffer, size: int): (r: ByteBuffer)
    requires 0 < size <= I32_MAX
    ensures r.memory == b.memory && r.id == b.id
    ensures 0 <= b.len && b.len * size <= I32_MAX ==> r.len == b.len * size
  {
    ProductFits(b.len, size);
    ByteBuffer(b.memory, WrapI32(((b.len % TWO_64) * size) % TWO_64), b.id)
  }

  /** Typed to bytes to typed in the C++ header gives back the buffer when
      the length is non-negative and the byte length fits an `int32_t`. */
  lemma CppTypedRoundTrip(b: Buffer, size: int)
    requires 0 < size <= I32_MAX
    requires 0 <= b.len && b.len * size <= I32_MAX
    ensures CppFromByteBuffer(CppToByteBuffer(b, size), size) == b
  {
    MulMonotone(1, size, b.len);
    DivUnique(b.len * size, size, b.len, 0);
  }

  /** Past `i32` range the C++ conversion wraps silently where the Rust one
      reports the overflow: 2^29 four-byte elements become a byte length of
      -2^31. */
  lemma CppLengthWraps()
    ensures CppToByteBuffer(Buffer(Null, 0x2000_0000, 0), 4).len == -0x8000_0000
    ensures ToByteBuffer(Buffer(Null, 0x2000_0000, 0), 4) == Err(MultiplyOverflow)
  {
  }
}
