/** The allocator as it runs: an object with mutable fields that works in place on the memory. */
module HeapAllocator {
  import opened Common
  import opened LinearMemory
  import opened HeapModel

  method WriteWordInPlace(mem: array<Byte>, ptr: U32, word: nat) returns (r: Result<(), Error>)
    modifies mem
    ensures r.Ok? <==> WriteLeU64(old(mem[..]), ptr, word).Ok?
    ensures r.Ok? ==> mem[..] == WriteLeU64(old(mem[..]), ptr, word).value
    ensures r.Err? ==> mem[..] == old(mem[..]) && r.error == WriteOutOfBounds
  {
    if !InHeapRange(ptr, 8, mem.Length) {
      return Err(WriteOutOfBounds);
    }
    var bytes := LeBytes(word, 8);
    for i := 0 to 8
      invariant forall a :: 0 <= a < mem.Length ==>
        mem[a] == if ptr <= a < ptr + i then bytes[a - ptr] else old(mem[a])
    {
      mem[ptr + i] := bytes[i];
    }
    assert mem[..] == WriteLeU64(old(mem[..]), ptr, word).value;
    return Ok(());
  }

  class FreeingBumpHeapAllocator {
    const originalHeapBase: U32
    var bumper: U32
    const heads: array<Link>
    var poisoned: bool
    var lastObservedMemorySize: U32
    var stats: Stats

    ghost predicate Valid()
      reads this
    {
      heads.Length == N_ORDERS
    }

    ghost function State(): Heap
      reads this, heads
    {
      Heap(originalHeapBase, bumper, heads[..], poisoned, lastObservedMemorySize, stats)
    }

    constructor (heapBase: U32)
      ensures Valid() && fresh(heads)
      ensures State() == NewHeap(heapBase)
    {
      originalHeapBase := Wrap32(heapBase + 8 - 1) / 8 * 8;
      bumper := Wrap32(heapBase + 8 - 1) / 8 * 8;
      heads := new Link[N_ORDERS](_ => Nil);
      poisoned := false;
      lastObservedMemorySize := 0;
      stats := Stats(0, 0, 0, 0);
      new;
      assert heads[..] == NewHeap(heapBase).heads;
    }

    /** Takes the header of a free chunk, or moves the bumper; the poison flag is the caller's. */
    method Take(mem: array<Byte>, order: Order) returns (r: Outcome<U32>)
      requires Valid() && mem.Length < U32_LIMIT
      modifies this`bumper, heads
      ensures Valid()
      ensures var t := TakeChunk(old(State()), mem[..], order);
              if t.Taken? then r == Returned(t.ptr) && State() == t.heap
              else r == t.outcome && State() == old(State())
    {
      match heads[order]
      case Ptr(ptr) =>
        if Wrap32(Wrap32(ptr + OrderSize(order)) + HEADER_SIZE) > mem.Length {
          return Panicked;
        }
        match ReadHeader(mem[..], ptr) {
          case Err(e) => return Failed(e);
          case Ok(Occupied(_)) => return Failed(OccupiedHeaderInFreeList);
          case Ok(Free(next)) =>
            heads[order] := next;
            return Returned(ptr);
        }
      case Nil =>
        var sum := Wrap32(bumper + Span(order));
        if sum > mem.Length {
          return Failed(AllocatorOutOfSpace);
        }
        var ptr := bumper;
        bumper := sum;
        return Returned(ptr);
    }

    method Serve(mem: array<Byte>, order: Order) returns (r: Outcome<U32>)
      requires Valid() && mem.Length < U32_LIMIT
      modifies this`bumper, this`stats, heads, mem
      ensures Valid()
      ensures ServeOrder(old(State()), old(mem[..]), order) == Reply(State(), mem[..], r)
    {
      r := Take(mem, order);
      if !r.Returned? {
        return;
      }
      var headerPtr := r.value;
      var written := WriteWordInPlace(mem, headerPtr, HeaderWord(Occupied(order)));
      match written
      case Err(e) =>
        r := Failed(e);
      case Ok(_) =>
        stats := StatsAfterAllocation(stats, Span(order), Wrap32(bumper - originalHeapBase));
        r := Returned(headerPtr + HEADER_SIZE);
    }

    method Release(mem: array<Byte>, headerPtr: U32, order: Order) returns (r: Outcome<()>)
      requires Valid() && mem.Length < U32_LIMIT
      modifies this`stats, heads, mem
      ensures Valid()
      ensures ReleaseChunk(old(State()), old(mem[..]), headerPtr, order) == Reply(State(), mem[..], r)
    {
      var prevHead := heads[order];
      heads[order] := Ptr(headerPtr);
      var written := WriteWordInPlace(mem, headerPtr, HeaderWord(Free(prevHead)));
      match written
      case Err(e) =>
        r := Failed(e);
      case Ok(_) =>
        if stats.bytesAllocated < Span(order) {
          r := Failed(AllocatedBytesUnderflow);
        } else {
          stats := stats.(bytesAllocated := stats.bytesAllocated - Span(order));
          r := Returned(());
        }
    }

    /** One `allocate` call is exactly the step that the model's `Allocate` describes. */
    method Allocate(mem: array<Byte>, size: U32) returns (r: Outcome<U32>)
      requires Valid() && mem.Length < U32_LIMIT
      modifies this, heads, mem
      ensures Valid()
      ensures HeapModel.Allocate(old(State()), old(mem[..]), size) == Reply(State(), mem[..], r)
    {
      if poisoned {
        return Failed(Poisoned);
      }
      if mem.Length < lastObservedMemorySize {
        r := Failed(MemoryShrinked);
      } else {
        lastObservedMemorySize := mem.Length;
        match OrderFromSize(size) {
          case Err(e) => r := Failed(e);
          case Ok(order) => r := Serve(mem, order);
        }
      }
      poisoned := !r.Returned?;
    }

    /** One `deallocate` call is exactly the step that the model's `Deallocate` describes. */
    method Deallocate(mem: array<Byte>, ptr: U32) returns (r: Outcome<()>)
      requires Valid() && mem.Length < U32_LIMIT
      modifies this, heads, mem
      ensures Valid()
      ensures HeapModel.Deallocate(old(State()), old(mem[..]), ptr) == Reply(State(), mem[..], r)
    {
      if poisoned {
        return Failed(Poisoned);
      }
      if mem.Length < lastObservedMemorySize {
        r := Failed(MemoryShrinked);
      } else {
        lastObservedMemorySize := mem.Length;
        if ptr < HEADER_SIZE {
          r := Failed(InvalidPointer);
        } else {
          match ReadHeader(mem[..], ptr - HEADER_SIZE) {
            case Err(e) => r := Failed(e);
            case Ok(Free(_)) => r := Failed(EmptyHeader);
            case Ok(Occupied(order)) => r := Release(mem, ptr - HEADER_SIZE, order);
          }
        }
      }
      poisoned := !r.Returned?;
    }
  }
}
