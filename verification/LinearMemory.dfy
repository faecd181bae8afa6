/**
  The orders, links and headers of the freeing-bump allocator, and the 64-bit little-endian
  accesses it makes to the linear memory. A memory is a sequence of bytes here; the allocator
  class works in place on an array and is proved against these functions.
 */
module LinearMemory {
  import opened Common

  const N_ORDERS := 23
  const MIN_POSSIBLE_ALLOCATION := 8
  const MAX_POSSIBLE_ALLOCATION := 33554432
  const HEADER_SIZE := 8
  const NIL_MARKER := 0xFFFF_FFFF
  const U64_LIMIT := 0x1_0000_0000_0000_0000

  datatype Error =
    | Poisoned
    | MemoryShrinked
    | RequestedAllocationTooLarge
    | AllocatorOutOfSpace
    | InvalidOrder
    | InvalidPointer
    | EmptyHeader
    | OccupiedHeaderInFreeList
    | ReadOutOfBounds
    | WriteOutOfBounds
    | AllocatedBytesUnderflow

  type Memory = seq<Byte>

  // ---- orders ----

  type Order = o: nat | o < N_ORDERS

  function OrderFromRaw(raw: nat): Result<Order, Error> {
    if raw < N_ORDERS then Ok(raw) else Err(InvalidOrder)
  }

  function ClampedSize(size: nat): nat {
    if size < MIN_POSSIBLE_ALLOCATION then MIN_POSSIBLE_ALLOCATION else size
  }

  function OrderSize(order: Order): (size: nat)
    ensures MIN_POSSIBLE_ALLOCATION <= size <= MAX_POSSIBLE_ALLOCATION
    ensures size % 8 == 0
  {
    OrderSizeBounds(order);
    MIN_POSSIBLE_ALLOCATION * Pow2(order)
  }

  lemma OrderSizeBounds(order: Order)
    ensures 1 <= Pow2(order) <= 4194304
  {
    Pow2Monotone(order, 22);
    Pow2Of22();
  }

  lemma Pow2Of22()
    ensures Pow2(22) == 4194304
  {
    assert Pow2(8) == 256;
    assert Pow2(16) == 65536;
  }

  function WithHeader(size: nat): (span: nat)
    requires size % 8 == 0
    ensures span % 8 == 0
  {
    size + HEADER_SIZE
  }

  /** The bytes one chunk takes from the bump area: its header and its payload. */
  function Span(order: Order): (span: nat)
    ensures 16 <= span <= 33554440
    ensures span % 8 == 0
  {
    WithHeader(OrderSize(order))
  }

  lemma ClampedSizeHasAnOrder(size: nat)
    requires size <= MAX_POSSIBLE_ALLOCATION
    ensures NextPowerOfTwo(ClampedSize(size)) == Pow2(CeilLog2(ClampedSize(size)))
    ensures TrailingZeros(NextPowerOfTwo(ClampedSize(size))) == CeilLog2(ClampedSize(size))
    ensures 3 <= CeilLog2(ClampedSize(size)) < 3 + N_ORDERS
  {
    var clamped := ClampedSize(size);
    NextPowerOfTwoIsLeast(clamped);
    TrailingZerosOfPow2(CeilLog2(clamped));
    CeilLog2Bounds(clamped);
    var exponent := CeilLog2(clamped);
    if exponent < 3 {
      Pow2Monotone(exponent, 2);
      assert false;
    }
    if exponent > 25 {
      Pow2Of25();
      Pow2Monotone(25, exponent - 1);
      assert false;
    }
  }

  lemma Pow2Of25()
    ensures Pow2(25) == MAX_POSSIBLE_ALLOCATION
  {
    Pow2Of22();
  }

  function OrderFromSize(size: nat): (r: Result<Order, Error>)
    ensures r.Ok? <==> size <= MAX_POSSIBLE_ALLOCATION
    ensures r.Err? ==> r.error == RequestedAllocationTooLarge
  {
    if size > MAX_POSSIBLE_ALLOCATION then
      Err(RequestedAllocationTooLarge)
    else
      ClampedSizeHasAnOrder(size);
      Ok(TrailingZeros(NextPowerOfTwo(ClampedSize(size))) - TrailingZeros(MIN_POSSIBLE_ALLOCATION))
  }

  /** The order of a request is the least one whose payload holds the request. */
  lemma OrderFromSizeIsLeast(size: nat)
    requires size <= MAX_POSSIBLE_ALLOCATION
    ensures size <= OrderSize(OrderFromSize(size).value)
    ensures forall o: Order :: size <= OrderSize(o) ==> OrderFromSize(size).value <= o
  {
    var clamped := ClampedSize(size);
    var order := OrderFromSize(size).value;
    ClampedSizeHasAnOrder(size);
    CeilLog2Bounds(clamped);
    assert TrailingZeros(8) == 3;
    Pow2PlusThree(order);
    forall o: Order | size <= OrderSize(o)
      ensures order <= o
    {
      if o < order {
        SmallerOrderIsTooSmall(size, order, o);
      }
    }
  }

  lemma SmallerOrderIsTooSmall(size: nat, order: Order, o: Order)
    requires o < order && CeilLog2(ClampedSize(size)) == order + 3
    ensures OrderSize(o) < size
  {
    CeilLog2Bounds(ClampedSize(size));
    Pow2PlusThree(o);
    Pow2Monotone(o + 3, order + 2);
  }

  lemma Pow2PlusThree(k: nat)
    ensures Pow2(k + 3) == 8 * Pow2(k)
  {
    assert Pow2(k + 3) == 2 * Pow2(k + 2);
    assert Pow2(k + 2) == 2 * Pow2(k + 1);
  }

  // ---- links and headers ----

  datatype Link = Nil | Ptr(ptr: U32)

  function LinkFromRaw(raw: U32): Link {
    if raw != NIL_MARKER then Ptr(raw) else Nil
  }

  function LinkIntoRaw(link: Link): U32 {
    match link
    case Nil => NIL_MARKER
    case Ptr(ptr) => ptr
  }

  datatype Header = Free(next: Link) | Occupied(order: Order) {
    /** A header that `Encode` can tell apart from every other one. */
    predicate Storable() {
      Free? && next.Ptr? ==> next.ptr < NIL_MARKER
    }
  }

  function HeaderWord(header: Header): (word: nat)
    ensures word < U64_LIMIT
  {
    match header
    case Occupied(order) => order + U32_LIMIT
    case Free(link) => LinkIntoRaw(link)
  }

  function HeaderFromWord(word: nat): Result<Header, Error> {
    var occupied := word / U32_LIMIT % 2 != 0;
    var data := word % U32_LIMIT;
    if occupied then
      match OrderFromRaw(data)
      case Ok(order) => Ok(Occupied(order))
      case Err(e) => Err(e)
    else
      Ok(Free(LinkFromRaw(data)))
  }

  lemma HeaderWordRoundTrip(header: Header)
    requires header.Storable()
    ensures HeaderFromWord(HeaderWord(header)) == Ok(header)
  {
  }

  // ---- byte accesses ----

  /** `heap_range`: the end is computed with a checked `u32` addition. */
  predicate InHeapRange(offset: nat, length: nat, heapLen: nat) {
    offset + length < U32_LIMIT && offset + length <= heapLen
  }

  function LeValue(bytes: seq<Byte>): nat {
    if bytes == [] then 0 else bytes[0] + 256 * LeValue(bytes[1..])
  }

  function LeBytes(word: nat, n: nat): (bytes: seq<Byte>)
    ensures |bytes| == n
  {
    if n == 0 then [] else [word % 256] + LeBytes(word / 256, n - 1)
  }

  function Pow256(n: nat): nat {
    if n == 0 then 1 else 256 * Pow256(n - 1)
  }

  lemma {:induction false} LeRoundTrip(word: nat, n: nat)
    requires word < Pow256(n)
    ensures LeValue(LeBytes(word, n)) == word
  {
    if n > 0 {
      LeRoundTrip(word / 256, n - 1);
      assert LeBytes(word, n)[1..] == LeBytes(word / 256, n - 1);
    }
  }

  function ReadLeU64(mem: Memory, ptr: nat): Result<nat, Error> {
    if InHeapRange(ptr, 8, |mem|) then Ok(LeValue(mem[ptr..ptr + 8])) else Err(ReadOutOfBounds)
  }

  function WriteLeU64(mem: Memory, ptr: nat, word: nat): Result<Memory, Error> {
    if InHeapRange(ptr, 8, |mem|) then
      Ok(mem[..ptr] + LeBytes(word, 8) + mem[ptr + 8..])
    else
      Err(WriteOutOfBounds)
  }

  lemma WordRoundTrip(mem: Memory, ptr: nat, word: nat)
    requires word < U64_LIMIT && InHeapRange(ptr, 8, |mem|)
    ensures var r := WriteLeU64(mem, ptr, word);
            && r.Ok? && |r.value| == |mem|
            && ReadLeU64(r.value, ptr) == Ok(word)
            && (forall a :: 0 <= a < |mem| && !(ptr <= a < ptr + 8) ==> r.value[a] == mem[a])
  {
    var m := WriteLeU64(mem, ptr, word).value;
    assert m[ptr..ptr + 8] == LeBytes(word, 8);
    assert Pow256(4) == U32_LIMIT;
    assert Pow256(8) == U64_LIMIT;
    LeRoundTrip(word, 8);
  }

  function ReadHeader(mem: Memory, ptr: nat): Result<Header, Error> {
    match ReadLeU64(mem, ptr)
    case Ok(word) => HeaderFromWord(word)
    case Err(e) => Err(e)
  }

  function WriteHeader(mem: Memory, ptr: nat, header: Header): Result<Memory, Error> {
    WriteLeU64(mem, ptr, HeaderWord(header))
  }

  /** A header written to memory is read back, and no byte outside its eight changes. */
  lemma HeaderRoundTrip(mem: Memory, ptr: nat, header: Header)
    requires header.Storable() && InHeapRange(ptr, 8, |mem|)
    ensures var r := WriteHeader(mem, ptr, header);
            && r.Ok? && |r.value| == |mem|
            && ReadHeader(r.value, ptr) == Ok(header)
            && (forall a :: 0 <= a < |mem| && !(ptr <= a < ptr + 8) ==> r.value[a] == mem[a])
  {
    HeaderWordRoundTrip(header);
    WordRoundTrip(mem, ptr, HeaderWord(header));
  }

  /** Four bytes, least significant first. */
  function LowWord(b0: Byte, b1: Byte, b2: Byte, b3: Byte): nat {
    b0 as int + 0x100 * (b1 as int) + 0x1_0000 * (b2 as int) + 0x100_0000 * (b3 as int)
  }

  /**
    The layout of a header in memory: the low four bytes, least significant first, are the order or the
    next link, all ones for no link; the fifth byte tells an occupied header, and the last three are zero.
   */
  lemma HeaderLayout(mem: Memory, ptr: nat, header: Header)
    requires InHeapRange(ptr, 8, |mem|)
    ensures
      var m := WriteHeader(mem, ptr, header).value;
      && |m| == |mem|
      && LowWord(m[ptr], m[ptr + 1], m[ptr + 2], m[ptr + 3]) ==
         (match header
          case Occupied(order) => order
          case Free(Nil) => 0xFFFF_FFFF
          case Free(Ptr(next)) => next)
      && m[ptr + 4] == (if header.Occupied? then 1 else 0)
      && m[ptr + 5] == m[ptr + 6] == m[ptr + 7] == 0
  {
    var word := HeaderWord(header);
    var m := WriteHeader(mem, ptr, header).value;
    assert forall k :: 0 <= k < 8 ==> m[ptr + k] == LeBytes(word, 8)[k];
    WordBytes(word);
  }

  lemma ByteDigits(word: nat)
    requires word < 2 * U32_LIMIT
    ensures
      var w1, w2, w3 := word / 256, word / 256 / 256, word / 256 / 256 / 256;
      && LowWord(word % 256, w1 % 256, w2 % 256, w3 % 256) == word % U32_LIMIT
      && w3 / 256 == word / U32_LIMIT < 2
  {
    var w1 := word / 256;
    var w2 := w1 / 256;
    var w3 := w2 / 256;
    var w4 := w3 / 256;
    DigitsSum(word, w1, w2, w3, w4, word % 256, w1 % 256, w2 % 256, w3 % 256);
    SplitWord(word, w4, LowWord(word % 256, w1 % 256, w2 % 256, w3 % 256));
  }

  lemma DigitsSum(word: nat, w1: nat, w2: nat, w3: nat, w4: nat, b0: Byte, b1: Byte, b2: Byte, b3: Byte)
    requires word == 256 * w1 + b0 && w1 == 256 * w2 + b1 && w2 == 256 * w3 + b2 && w3 == 256 * w4 + b3
    ensures word == U32_LIMIT * w4 + LowWord(b0, b1, b2, b3) && LowWord(b0, b1, b2, b3) < U32_LIMIT
  {
  }

  lemma SplitWord(word: nat, high: nat, low: nat)
    requires word == U32_LIMIT * high + low && low < U32_LIMIT
    ensures word % U32_LIMIT == low && word / U32_LIMIT == high
  {
  }

  lemma WordBytes(word: nat)
    requires word < 2 * U32_LIMIT
    ensures
      var b := LeBytes(word, 8);
      && LowWord(b[0], b[1], b[2], b[3]) == word % U32_LIMIT
      && b[4] == word / U32_LIMIT && b[5] == b[6] == b[7] == 0
  {
    ByteDigits(word);
    var w1 := word / 256;
    var w2 := w1 / 256;
    var w3 := w2 / 256;
    LeBytesUnroll(word, w1, w2, w3, w3 / 256);
  }

  lemma LeBytesUnroll(word: nat, w1: nat, w2: nat, w3: nat, w4: nat)
    requires w1 == word / 256 && w2 == w1 / 256 && w3 == w2 / 256 && w4 == w3 / 256 && w4 < 256
    ensures LeBytes(word, 8) == [word % 256, w1 % 256, w2 % 256, w3 % 256, w4, 0, 0, 0]
  {
    assert LeBytes(word, 8) == [word % 256] + LeBytes(w1, 7);
    assert LeBytes(w1, 7) == [w1 % 256] + LeBytes(w2, 6);
    assert LeBytes(w2, 6) == [w2 % 256] + LeBytes(w3, 5);
    assert LeBytes(w3, 5) == [w3 % 256] + LeBytes(w4, 4);
    assert LeBytes(w4, 4) == [w4] + LeBytes(0, 3);
    assert LeBytes(0, 3) == [0] + LeBytes(0, 2);
    assert LeBytes(0, 2) == [0] + LeBytes(0, 1);
  }

  /** Reading a header depends on its own eight bytes only. */
  lemma HeaderFrame(mem: Memory, mem': Memory, ptr: nat)
    requires ptr + 8 <= |mem| && ptr + 8 <= |mem'|
    requires forall a :: ptr <= a < ptr + 8 ==> mem'[a] == mem[a]
    ensures ReadHeader(mem', ptr) == ReadHeader(mem, ptr)
  {
    assert mem'[ptr..ptr + 8] == mem[ptr..ptr + 8];
  }
}
