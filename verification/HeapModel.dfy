/**
  The freeing-bump allocator as functions on values: one call takes the allocator's fields and
  the bytes of the linear memory, and gives the new fields, the new bytes and the outcome.
  `u32` additions wrap, as they do in a release build; `new` and `bump` are the two places
  where that can matter.
 */
module HeapModel {
  import opened Common
  import opened LinearMemory

  datatype Stats = Stats(
    bytesAllocated: U32,
    bytesAllocatedPeak: U32,
    bytesAllocatedSum: nat,
    addressSpaceUsed: U32)

  datatype Heap = Heap(
    originalHeapBase: U32,
    bumper: U32,
    heads: seq<Link>,
    poisoned: bool,
    lastObservedMemorySize: U32,
    stats: Stats)

  datatype Outcome<+T> = Returned(value: T) | Failed(error: Error) | Panicked

  datatype Reply<+T> = Reply(heap: Heap, mem: Memory, outcome: Outcome<T>)

  const U128_LIMIT := 0x1_0000_0000_0000_0000_0000_0000_0000_0000

  function AlignedHeapBase(heapBase: U32): U32 {
    Wrap32(heapBase + 8 - 1) / 8 * 8
  }

  function NewHeap(heapBase: U32): Heap {
    var base := AlignedHeapBase(heapBase);
    Heap(base, base, seq(N_ORDERS, _ => Nil), false, 0, Stats(0, 0, 0, 0))
  }

  /** Every error path after the poison check leaves the allocator poisoned. */
  function Poison<T>(heap: Heap, mem: Memory, outcome: Outcome<T>): Reply<T> {
    Reply(heap.(poisoned := true), mem, outcome)
  }

  /** The new bumper, or the error that leaves it alone. */
  function Bump(bumper: U32, size: U32, heapEnd: U32): Result<U32, Error> {
    if Wrap32(bumper + size) > heapEnd then Err(AllocatorOutOfSpace) else Ok(Wrap32(bumper + size))
  }

  datatype Taken = Taken(heap: Heap, ptr: U32) | NotTaken(outcome: Outcome<U32>)

  /** Where the header of the next chunk of `order` goes: the head of its free list, or the bumper. */
  function TakeChunk(heap: Heap, mem: Memory, order: Order): (t: Taken)
    requires |heap.heads| == N_ORDERS && |mem| < U32_LIMIT
    ensures t.NotTaken? ==> !t.outcome.Returned?
    ensures t.Taken? ==> |t.heap.heads| == N_ORDERS
  {
    match heap.heads[order]
    case Ptr(ptr) =>
      if Wrap32(Wrap32(ptr + OrderSize(order)) + HEADER_SIZE) > |mem| then
        NotTaken(Panicked)
      else (
        match ReadHeader(mem, ptr)
        case Err(e) => NotTaken(Failed(e))
        case Ok(Occupied(_)) => NotTaken(Failed(OccupiedHeaderInFreeList))
        case Ok(Free(next)) => Taken(heap.(heads := heap.heads[order := next]), ptr)
      )
    case Nil =>
      match Bump(heap.bumper, Span(order), |mem|)
      case Err(e) => NotTaken(Failed(e))
      case Ok(bumper) => Taken(heap.(bumper := bumper), heap.bumper)
  }

  function StatsAfterAllocation(stats: Stats, span: U32, addressSpaceUsed: U32): Stats {
    var inUse := Wrap32(stats.bytesAllocated + span);
    Stats(
      inUse,
      if stats.bytesAllocatedPeak >= inUse then stats.bytesAllocatedPeak else inUse,
      (stats.bytesAllocatedSum + span) % U128_LIMIT,
      addressSpaceUsed)
  }

  function AfterAllocation(heap: Heap, order: Order): Heap {
    heap.(stats := StatsAfterAllocation(
      heap.stats, Span(order), Wrap32(heap.bumper - heap.originalHeapBase)))
  }

  /** The part of `allocate` between choosing the order and disarming the poison guard. */
  function ServeOrder(heap: Heap, mem: Memory, order: Order): (r: Reply<U32>)
    requires |heap.heads| == N_ORDERS && |mem| < U32_LIMIT
    ensures |r.heap.heads| == N_ORDERS && |r.mem| == |mem|
  {
    match TakeChunk(heap, mem, order)
    case NotTaken(outcome) => Reply(heap, mem, outcome)
    case Taken(taken, ptr) =>
      match WriteHeader(mem, ptr, Occupied(order))
      case Err(e) => Reply(taken, mem, Failed(e))
      case Ok(written) => Reply(AfterAllocation(taken, order), written, Returned(ptr + HEADER_SIZE))
  }

  /** The part of `deallocate` between reading the order and disarming the poison guard. */
  function ReleaseChunk(heap: Heap, mem: Memory, headerPtr: U32, order: Order): (r: Reply<()>)
    requires |heap.heads| == N_ORDERS && |mem| < U32_LIMIT
    ensures |r.heap.heads| == N_ORDERS && |r.mem| == |mem|
  {
    var relinked := heap.(heads := heap.heads[order := Ptr(headerPtr)]);
    match WriteHeader(mem, headerPtr, Free(heap.heads[order]))
    case Err(e) => Reply(relinked, mem, Failed(e))
    case Ok(written) =>
      if relinked.stats.bytesAllocated < Span(order) then
        Reply(relinked, written, Failed(AllocatedBytesUnderflow))
      else
        var inUse := relinked.stats.bytesAllocated - Span(order);
        Reply(relinked.(stats := relinked.stats.(bytesAllocated := inUse)), written, Returned(()))
  }

  /** The poison guard: dropped while armed, it marks the allocator. */
  function Guarded<T>(r: Reply<T>): Reply<T> {
    if r.outcome.Returned? then r else Poison(r.heap, r.mem, r.outcome)
  }

  function Allocate(heap: Heap, mem: Memory, size: U32): (r: Reply<U32>)
    requires |heap.heads| == N_ORDERS && |mem| < U32_LIMIT
    ensures |r.heap.heads| == N_ORDERS && |r.mem| == |mem|
  {
    if heap.poisoned then
      Reply(heap, mem, Failed(Poisoned))
    else if |mem| < heap.lastObservedMemorySize then
      Poison(heap, mem, Failed(MemoryShrinked))
    else
      var observed := heap.(lastObservedMemorySize := |mem|);
      match OrderFromSize(size)
      case Err(e) => Poison(observed, mem, Failed(e))
      case Ok(order) => Guarded(ServeOrder(observed, mem, order))
  }

  function Deallocate(heap: Heap, mem: Memory, ptr: U32): (r: Reply<()>)
    requires |heap.heads| == N_ORDERS && |mem| < U32_LIMIT
    ensures |r.heap.heads| == N_ORDERS && |r.mem| == |mem|
  {
    if heap.poisoned then
      Reply(heap, mem, Failed(Poisoned))
    else if |mem| < heap.lastObservedMemorySize then
      Poison(heap, mem, Failed(MemoryShrinked))
    else
      var observed := heap.(lastObservedMemorySize := |mem|);
      if ptr < HEADER_SIZE then
        Poison(observed, mem, Failed(InvalidPointer))
      else
        match ReadHeader(mem, ptr - HEADER_SIZE)
        case Err(e) => Poison(observed, mem, Failed(e))
        case Ok(Free(_)) => Poison(observed, mem, Failed(EmptyHeader))
        case Ok(Occupied(order)) => Guarded(ReleaseChunk(observed, mem, ptr - HEADER_SIZE, order))
  }

  // ---- where `u32` wrap-around matters ----

  /** The base is rounded up to eight exactly when rounding up stays below 2^32. */
  lemma AlignedHeapBaseExact(heapBase: U32)
    ensures AlignedHeapBase(heapBase) % 8 == 0
    ensures heapBase + 7 < U32_LIMIT <==> heapBase <= AlignedHeapBase(heapBase) < heapBase + 8
  {
  }

  /** The space check of `bump` is right exactly when the sum stays below 2^32. */
  lemma BumpExact(bumper: U32, size: U32, heapEnd: U32)
    requires size > 0
    ensures bumper + size < U32_LIMIT ==>
              Bump(bumper, size, heapEnd) ==
              if bumper + size <= heapEnd then Ok(bumper + size) else Err(AllocatorOutOfSpace)
    ensures Bump(bumper, size, heapEnd).Ok? ==>
              (bumper + size <= heapEnd <==> bumper + size < U32_LIMIT)
  {
  }

  /** A memory close to 4 GiB: the check passes and the chunk reaches past the end of the memory. */
  lemma BumpWrapsNearTheTop()
    ensures var bumper: U32 := 0xFFFF_FF00; var heapEnd: U32 := 0xFFFF_FFF0; var size: U32 := 520;
            Bump(bumper, size, heapEnd).Ok? && bumper + size > heapEnd
  {
  }
}
