/**
  What every call does to the heap shape, and safety over whole runs: with a client that frees
  only what it holds and writes only where it may, an allocator that has not failed keeps the
  chunk tiling, the free lists and the counters exact, and it fails only for lack of space.
 */
module HeapSafety {
  import opened Common
  import opened LinearMemory
  import opened HeapModel
  import opened HeapInvariant

  // ---- the three ways the shape changes ----

  ghost function Reused(s: Shape, o: Order): Shape
    requires |s.free| == N_ORDERS && s.free[o] != []
  {
    s.(live := s.live + {s.free[o][0]}, free := s.free[o := s.free[o][1..]])
  }

  ghost function Bumped(s: Shape, p: U32, o: Order): Shape {
    s.(orderOf := s.orderOf[p := o], live := s.live + {p})
  }

  ghost function Freed(s: Shape, p: U32): Shape
    requires |s.free| == N_ORDERS && p in s.orderOf
  {
    var o := s.orderOf[p];
    s.(live := s.live - {p}, free := s.free[o := [p] + s.free[o]])
  }

  lemma ReusedPartitioned(s: Shape, o: Order)
    requires Partitioned(s) && s.free[o] != []
    ensures Partitioned(Reused(s, o))
  {
    var p, s' := s.free[o][0], Reused(s, o);
    assert FreeOnly(s, o);
    forall o': Order
      ensures FreeOnly(s', o')
    {
      assert FreeOnly(s, o');
    }
    forall q | q in s'.orderOf
      ensures LiveOrFree(s', q)
    {
      assert LiveOrFree(s, q);
      if q !in s.live && q != p && s.orderOf[q] == o {
        var i :| 0 <= i < |s.free[o]| && s.free[o][i] == q;
        assert s.free[o][1..][i - 1] == q;
      }
    }
  }

  lemma BumpedPartitioned(s: Shape, p: U32, o: Order)
    requires Partitioned(s) && p !in s.orderOf
    ensures Partitioned(Bumped(s, p, o))
  {
    var s' := Bumped(s, p, o);
    forall o': Order
      ensures FreeOnly(s', o')
    {
      assert FreeOnly(s, o');
    }
    forall q | q in s'.orderOf
      ensures LiveOrFree(s', q)
    {
      if q != p {
        assert LiveOrFree(s, q);
      }
    }
  }

  lemma FreedPartitioned(s: Shape, p: U32)
    requires Partitioned(s) && p in s.live
    ensures Partitioned(Freed(s, p))
  {
    var s' := Freed(s, p);
    forall o': Order
      ensures FreeOnly(s', o')
    {
      assert FreeOnly(s, o');
    }
    forall q | q in s'.orderOf
      ensures LiveOrFree(s', q)
    {
      assert LiveOrFree(s, q);
    }
  }

  lemma BumpedTiled(base: int, bumper: U32, orderOf: map<U32, Order>, o: Order)
    requires Tiled(base, bumper, orderOf)
    ensures bumper !in orderOf
    ensures Tiled(base, bumper + Span(o), orderOf[bumper := o])
  {
    var orderOf' := orderOf[bumper := o];
    forall a | base <= a < bumper + Span(o)
      ensures Covered(orderOf', a)
    {
      if a < bumper {
        assert Covered(orderOf, a);
        var p :| Covers(orderOf, p, a);
        assert Covers(orderOf', p, a);
      } else {
        assert Covers(orderOf', bumper, a);
      }
    }
  }

  // ---- headers after a call ----

  lemma ReusedHeaders(heap: Heap, mem: Memory, mem': Memory, s: Shape, o: Order)
    requires Partitioned(s) && s.free[o] != [] && HeadersMatch(heap, mem, s)
    requires ReadHeader(mem', s.free[o][0]) == Ok(Occupied(o))
    requires forall q :: q in s.orderOf && q != s.free[o][0] ==> ReadHeader(mem', q) == ReadHeader(mem, q)
    ensures HeadersMatch(heap.(heads := heap.heads[o := LinkTo(s.free[o], 1)]), mem', Reused(s, o))
  {
    var s', p := Reused(s, o), s.free[o][0];
    assert FreeOnly(s, o);
    assert ListInMemory(mem, heap.heads[o], s.free[o]);
    forall o': Order
      ensures ListInMemory(mem', heap.heads[o := LinkTo(s.free[o], 1)][o'], s'.free[o'])
    {
      assert FreeOnly(s, o');
      assert ListInMemory(mem, heap.heads[o'], s.free[o']);
    }
  }

  lemma BumpedHeaders(heap: Heap, mem: Memory, mem': Memory, s: Shape, p: U32, o: Order)
    requires Partitioned(s) && p !in s.orderOf && HeadersMatch(heap, mem, s)
    requires ReadHeader(mem', p) == Ok(Occupied(o))
    requires forall q :: q in s.orderOf ==> ReadHeader(mem', q) == ReadHeader(mem, q)
    ensures HeadersMatch(heap, mem', Bumped(s, p, o))
  {
    forall o': Order
      ensures ListInMemory(mem', heap.heads[o'], s.free[o'])
    {
      assert FreeOnly(s, o');
      assert ListInMemory(mem, heap.heads[o'], s.free[o']);
    }
  }

  lemma FreedHeaders(heap: Heap, mem: Memory, mem': Memory, s: Shape, p: U32)
    requires Partitioned(s) && p in s.live && HeadersMatch(heap, mem, s)
    requires ReadHeader(mem', p) == Ok(Free(heap.heads[s.orderOf[p]]))
    requires forall q :: q in s.orderOf && q != p ==> ReadHeader(mem', q) == ReadHeader(mem, q)
    ensures HeadersMatch(heap.(heads := heap.heads[s.orderOf[p] := Ptr(p)]), mem', Freed(s, p))
  {
    var o, s' := s.orderOf[p], Freed(s, p);
    forall o': Order
      ensures ListInMemory(mem', heap.heads[o := Ptr(p)][o'], s'.free[o'])
    {
      assert FreeOnly(s, o');
      assert ListInMemory(mem, heap.heads[o'], s.free[o']);
    }
  }

  // ---- counters after a call ----

  lemma ReusedTotals(s: Shape, o: Order)
    requires Partitioned(s) && s.free[o] != []
    ensures Reused(s, o).live <= s.orderOf.Keys
    ensures Total(Reused(s, o).live, s.orderOf) == Total(s.live, s.orderOf) + Span(o)
    ensures Total(Reused(s, o).live, s.orderOf) <= Total(s.orderOf.Keys, s.orderOf)
  {
    assert FreeOnly(s, o);
    TotalAdd(s.live, s.orderOf, s.free[o][0]);
    TotalMonotone(Reused(s, o).live, s.orderOf.Keys, s.orderOf);
  }

  lemma BumpedTotals(s: Shape, p: U32, o: Order)
    requires Partitioned(s) && p !in s.orderOf
    ensures var s' := Bumped(s, p, o);
            && Total(s'.live, s'.orderOf) == Total(s.live, s.orderOf) + Span(o)
            && Total(s'.orderOf.Keys, s'.orderOf) == Total(s.orderOf.Keys, s.orderOf) + Span(o)
            && Total(s'.live, s'.orderOf) <= Total(s'.orderOf.Keys, s'.orderOf)
  {
    var s' := Bumped(s, p, o);
    TotalExtend(s.live, s.orderOf, p, o);
    TotalAdd(s.live, s'.orderOf, p);
    TotalExtend(s.orderOf.Keys, s.orderOf, p, o);
    TotalAdd(s.orderOf.Keys, s'.orderOf, p);
    assert s'.orderOf.Keys == s.orderOf.Keys + {p};
    TotalMonotone(s'.live, s'.orderOf.Keys, s'.orderOf);
  }

  // ---- one call, once its order is known ----

  lemma ObservedInv(heap: Heap, mem: Memory, s: Shape)
    requires Inv(heap, mem, s)
    ensures Inv(heap.(lastObservedMemorySize := |mem|), mem, s)
  {
  }

  lemma ServeReusesReply(heap: Heap, mem: Memory, o: Order, p: U32, next: Link)
    requires |heap.heads| == N_ORDERS && p + Span(o) <= |mem| < U32_LIMIT
    requires heap.heads[o] == Ptr(p) && ReadHeader(mem, p) == Ok(Free(next))
    ensures WriteHeader(mem, p, Occupied(o)).Ok?
    ensures ServeOrder(heap, mem, o) == Reply(
              AfterAllocation(heap.(heads := heap.heads[o := next]), o),
              WriteHeader(mem, p, Occupied(o)).value,
              Returned(p + HEADER_SIZE))
  {
  }

  lemma FreeChunkFacts(heap: Heap, mem: Memory, s: Shape, o: Order)
    requires Inv(heap, mem, s) && s.free[o] != []
    ensures var p := s.free[o][0];
            && p in s.orderOf && s.orderOf[p] == o && p + Span(o) <= |mem| && heap.bumper <= |mem|
            && heap.heads[o] == Ptr(p) && ReadHeader(mem, p) == Ok(Free(LinkTo(s.free[o], 1)))
  {
    assert FreeOnly(s, o);
    assert ListInMemory(mem, heap.heads[o], s.free[o]);
    assert s.orderOf != map[];
  }

  lemma ReusedHeadersWritten(heap: Heap, mem: Memory, mem': Memory, s: Shape, o: Order)
    requires Inv(heap, mem, s) && s.free[o] != []
    requires WriteHeader(mem, s.free[o][0], Occupied(o)) == Ok(mem')
    ensures HeadersMatch(heap.(heads := heap.heads[o := LinkTo(s.free[o], 1)]), mem', Reused(s, o))
  {
    var p := s.free[o][0];
    FreeChunkFacts(heap, mem, s, o);
    HeaderRoundTrip(mem, p, Occupied(o));
    OtherHeadersKept(heap, mem, mem', s.orderOf, p);
    ReusedHeaders(heap, mem, mem', s, o);
  }

  /** A non-empty free list serves the request: its head is handed out and nothing else moves. */
  lemma ServeReuses(heap: Heap, mem: Memory, s: Shape, o: Order)
    requires Inv(heap, mem, s) && s.free[o] != []
    ensures var r := ServeOrder(heap, mem, o);
            && r.outcome == Returned(s.free[o][0] + HEADER_SIZE)
            && Inv(r.heap, r.mem, Reused(s, o))
  {
    FreeChunkFacts(heap, mem, s, o);
    ServeReusesReply(heap, mem, o, s.free[o][0], LinkTo(s.free[o], 1));
    var mem' := WriteHeader(mem, s.free[o][0], Occupied(o)).value;
    ReusedHeadersWritten(heap, mem, mem', s, o);
    ReusedPartitioned(s, o);
    ReusedTotals(s, o);
  }

  lemma ServeBumpsReply(heap: Heap, mem: Memory, o: Order)
    requires |heap.heads| == N_ORDERS && heap.bumper + Span(o) <= |mem| < U32_LIMIT
    requires heap.heads[o] == Nil
    ensures WriteHeader(mem, heap.bumper, Occupied(o)).Ok?
    ensures ServeOrder(heap, mem, o) == Reply(
              AfterAllocation(heap.(bumper := heap.bumper + Span(o)), o),
              WriteHeader(mem, heap.bumper, Occupied(o)).value,
              Returned(heap.bumper + HEADER_SIZE))
  {
  }

  lemma EmptyListFacts(heap: Heap, mem: Memory, s: Shape, o: Order)
    requires Inv(heap, mem, s) && s.free[o] == []
    ensures heap.heads[o] == Nil
  {
    assert ListInMemory(mem, heap.heads[o], s.free[o]);
  }

  lemma BumpedHeadersWritten(heap: Heap, mem: Memory, mem': Memory, s: Shape, o: Order)
    requires Inv(heap, mem, s) && heap.bumper + Span(o) <= |mem|
    requires WriteHeader(mem, heap.bumper, Occupied(o)) == Ok(mem')
    ensures HeadersMatch(heap, mem', Bumped(s, heap.bumper, o))
  {
    var p := heap.bumper;
    var s' := Bumped(s, p, o);
    BumpedTiled(heap.originalHeapBase, p, s.orderOf, o);
    HeaderRoundTrip(mem, p, Occupied(o));
    OtherHeadersKept(heap.(bumper := p + Span(o)), mem, mem', s'.orderOf, p);
    assert forall q :: q in s.orderOf ==> q in s'.orderOf && q != p;
    BumpedHeaders(heap, mem, mem', s, p, o);
  }

  lemma BumpedStats(heap: Heap, s: Shape, o: Order)
    requires StatsMatch(heap, s) && Partitioned(s) && heap.bumper !in s.orderOf
    requires heap.bumper + Span(o) < U32_LIMIT && 0 <= heap.originalHeapBase
    ensures StatsMatch(AfterAllocation(heap.(bumper := heap.bumper + Span(o)), o), Bumped(s, heap.bumper, o))
  {
    BumpedTotals(s, heap.bumper, o);
  }

  lemma BumpedInv(heap: Heap, mem: Memory, mem': Memory, s: Shape, o: Order)
    requires Inv(heap, mem, s) && heap.bumper + Span(o) <= |mem| == |mem'|
    requires heap.lastObservedMemorySize == |mem|
    requires HeadersMatch(heap, mem', Bumped(s, heap.bumper, o))
    ensures Inv(AfterAllocation(heap.(bumper := heap.bumper + Span(o)), o), mem', Bumped(s, heap.bumper, o))
  {
    BumpedTiled(heap.originalHeapBase, heap.bumper, s.orderOf, o);
    BumpedPartitioned(s, heap.bumper, o);
    BumpedStats(heap, s, o);
  }

  /** With an empty free list and room below the end of memory, the chunk comes off the bumper. */
  lemma ServeBumps(heap: Heap, mem: Memory, s: Shape, o: Order)
    requires Inv(heap, mem, s) && s.free[o] == [] && heap.bumper + Span(o) <= |mem|
    requires heap.lastObservedMemorySize == |mem|
    ensures var r := ServeOrder(heap, mem, o);
            && r.outcome == Returned(heap.bumper + HEADER_SIZE)
            && Inv(r.heap, r.mem, Bumped(s, heap.bumper, o))
  {
    EmptyListFacts(heap, mem, s, o);
    ServeBumpsReply(heap, mem, o);
    var mem' := WriteHeader(mem, heap.bumper, Occupied(o)).value;
    BumpedHeadersWritten(heap, mem, mem', s, o);
    BumpedInv(heap, mem, mem', s, o);
  }

  /** With an empty free list and no room, the request fails. */
  lemma ServeRunsOut(heap: Heap, mem: Memory, s: Shape, o: Order)
    requires Inv(heap, mem, s) && s.free[o] == [] && |mem| < heap.bumper + Span(o) < U32_LIMIT
    ensures ServeOrder(heap, mem, o).outcome == Failed(AllocatorOutOfSpace)
  {
    EmptyListFacts(heap, mem, s, o);
  }

  lemma ReleaseReply(heap: Heap, mem: Memory, p: U32, o: Order)
    requires |heap.heads| == N_ORDERS && p + 8 <= |mem| < U32_LIMIT
    requires Span(o) <= heap.stats.bytesAllocated
    ensures WriteHeader(mem, p, Free(heap.heads[o])).Ok?
    ensures ReleaseChunk(heap, mem, p, o) == Reply(
              heap.(heads := heap.heads[o := Ptr(p)],
                    stats := heap.stats.(bytesAllocated := heap.stats.bytesAllocated - Span(o))),
              WriteHeader(mem, p, Free(heap.heads[o])).value,
              Returned(()))
  {
  }

  lemma LiveChunkFacts(heap: Heap, mem: Memory, s: Shape, p: U32)
    requires Inv(heap, mem, s) && p in s.live
    ensures p % 8 == 0 && p + Span(s.orderOf[p]) <= |mem| && heap.bumper <= |mem|
    ensures ReadHeader(mem, p) == Ok(Occupied(s.orderOf[p]))
    ensures Total(s.live, s.orderOf) == Span(s.orderOf[p]) + Total(s.live - {p}, s.orderOf)
    ensures Free(heap.heads[s.orderOf[p]]).Storable()
  {
    var o := s.orderOf[p];
    assert s.orderOf != map[];
    assert p % 8 == 0;
    assert FreeOnly(s, o);
    assert ListInMemory(mem, heap.heads[o], s.free[o]);
    TotalRemove(s.live, s.orderOf, p);
  }

  lemma FreedHeadersWritten(heap: Heap, mem: Memory, mem': Memory, s: Shape, p: U32)
    requires Inv(heap, mem, s) && p in s.live
    requires WriteHeader(mem, p, Free(heap.heads[s.orderOf[p]])) == Ok(mem')
    ensures HeadersMatch(heap.(heads := heap.heads[s.orderOf[p] := Ptr(p)]), mem', Freed(s, p))
  {
    LiveChunkFacts(heap, mem, s, p);
    HeaderRoundTrip(mem, p, Free(heap.heads[s.orderOf[p]]));
    OtherHeadersKept(heap, mem, mem', s.orderOf, p);
    FreedHeaders(heap, mem, mem', s, p);
  }

  /** Freeing a chunk in use always succeeds and puts it at the head of its order's list. */
  lemma ReleaseFrees(heap: Heap, mem: Memory, s: Shape, p: U32)
    requires Inv(heap, mem, s) && p in s.live
    ensures var r := ReleaseChunk(heap, mem, p, s.orderOf[p]);
            r.outcome == Returned(()) && Inv(r.heap, r.mem, Freed(s, p))
  {
    LiveChunkFacts(heap, mem, s, p);
    ReleaseReply(heap, mem, p, s.orderOf[p]);
    var mem' := WriteHeader(mem, p, Free(heap.heads[s.orderOf[p]])).value;
    FreedHeadersWritten(heap, mem, mem', s, p);
    FreedPartitioned(s, p);
  }

  // ---- one call ----

  lemma AllocateServes(heap: Heap, mem: Memory, size: U32)
    requires !heap.poisoned && |heap.heads| == N_ORDERS
    requires heap.lastObservedMemorySize <= |mem| < U32_LIMIT && size <= MAX_POSSIBLE_ALLOCATION
    ensures Allocate(heap, mem, size) ==
              Guarded(ServeOrder(heap.(lastObservedMemorySize := |mem|), mem, OrderFromSize(size).value))
  {
  }

  lemma DeallocateReleases(heap: Heap, mem: Memory, p: U32, o: Order)
    requires !heap.poisoned && |heap.heads| == N_ORDERS && p + HEADER_SIZE <= |mem|
    requires heap.lastObservedMemorySize <= |mem| < U32_LIMIT && ReadHeader(mem, p) == Ok(Occupied(o))
    ensures Deallocate(heap, mem, p + HEADER_SIZE) ==
              Guarded(ReleaseChunk(heap.(lastObservedMemorySize := |mem|), mem, p, o))
  {
  }

  /** A client's `deallocate` of a pointer it holds always succeeds. */
  lemma DeallocateFrees(heap: Heap, mem: Memory, s: Shape, p: U32)
    requires Inv(heap, mem, s) && p in s.live
    ensures p + HEADER_SIZE < U32_LIMIT
    ensures var r := Deallocate(heap, mem, p + HEADER_SIZE);
            r.outcome == Returned(()) && Inv(r.heap, r.mem, Freed(s, p))
  {
    LiveChunkFacts(heap, mem, s, p);
    DeallocateReleases(heap, mem, p, s.orderOf[p]);
    ObservedInv(heap, mem, s);
    ReleaseFrees(heap.(lastObservedMemorySize := |mem|), mem, s, p);
  }

  /**
    What `deallocate` refuses: a shrunk memory, a pointer that leaves no room for a header or lies outside
    the memory, and a chunk that is already free. A refusal poisons the allocator.
   */
  lemma DeallocateRefuses(heap: Heap, held: Memory, mem: Memory, s: Shape, ptr: U32)
    requires Inv(heap, held, s) && |mem| < U32_LIMIT
    requires heap.lastObservedMemorySize <= |mem| ==> Inv(heap, mem, s)
    ensures
      var r := Deallocate(heap, mem, ptr);
      && r.heap.poisoned == !r.outcome.Returned?
      && (if |mem| < heap.lastObservedMemorySize then r.outcome == Failed(MemoryShrinked)
          else if ptr < 8 then r.outcome == Failed(InvalidPointer)
          else if ptr > |mem| then r.outcome == Failed(ReadOutOfBounds)
          else (exists o: Order :: ptr - 8 in s.free[o]) ==> r.outcome == Failed(EmptyHeader))
  {
    PoisonIsForever(heap, mem, 0, ptr);
    DeallocateOutcome(heap, mem, ptr);
    if heap.lastObservedMemorySize <= |mem| && 8 <= ptr <= |mem| {
      if o: Order :| ptr - 8 in s.free[o] {
        FreeHeaderRead(heap, mem, s, o, ptr - 8);
      }
    }
  }

  lemma DeallocateOutcome(heap: Heap, mem: Memory, ptr: U32)
    requires !heap.poisoned && |heap.heads| == N_ORDERS && |mem| < U32_LIMIT
    ensures
      var outcome := Deallocate(heap, mem, ptr).outcome;
      if |mem| < heap.lastObservedMemorySize then outcome == Failed(MemoryShrinked)
      else if ptr < 8 then outcome == Failed(InvalidPointer)
      else if ptr > |mem| then outcome == Failed(ReadOutOfBounds)
      else ReadHeader(mem, ptr - 8).Ok? && ReadHeader(mem, ptr - 8).value.Free? ==> outcome == Failed(EmptyHeader)
  {
  }

  lemma FreeHeaderRead(heap: Heap, mem: Memory, s: Shape, o: Order, p: U32)
    requires Inv(heap, mem, s) && p in s.free[o]
    ensures ReadHeader(mem, p).Ok? && ReadHeader(mem, p).value.Free?
  {
    var i :| 0 <= i < |s.free[o]| && s.free[o][i] == p;
    assert ListInMemory(mem, heap.heads[o], s.free[o]);
    assert ReadHeader(mem, s.free[o][i]).Ok?;
  }

  ghost predicate SumFits(heap: Heap, s: Shape, o: Order)
    requires |s.free| == N_ORDERS
  {
    s.free[o] == [] ==> heap.bumper + Span(o) < U32_LIMIT
  }

  ghost function Served(heap: Heap, s: Shape, o: Order): (s': Shape)
    requires |s.free| == N_ORDERS
    ensures |s'.free| == N_ORDERS
  {
    if s.free[o] != [] then Reused(s, o) else Bumped(s, heap.bumper, o)
  }

  /**
    A request of a known order succeeds exactly when its list is non-empty or the bumper has
    room; the pointer is then the list's head or the bumper, and the invariant is kept.
   */
  lemma ServeExact(heap: Heap, mem: Memory, s: Shape, o: Order)
    requires Inv(heap, mem, s) && heap.lastObservedMemorySize == |mem| && SumFits(heap, s, o)
    ensures s.free[o] == [] && heap.bumper + Span(o) > |mem| ==>
              ServeOrder(heap, mem, o).outcome == Failed(AllocatorOutOfSpace)
    ensures s.free[o] == [] && heap.bumper + Span(o) <= |mem| ==>
              var r := ServeOrder(heap, mem, o);
              r.outcome == Returned(heap.bumper + HEADER_SIZE) && Inv(r.heap, r.mem, Served(heap, s, o))
    ensures s.free[o] != [] ==>
              var r := ServeOrder(heap, mem, o);
              r.outcome == Returned(s.free[o][0] + HEADER_SIZE) && Inv(r.heap, r.mem, Served(heap, s, o))
  {
    if s.free[o] != [] {
      ServeReuses(heap, mem, s, o);
      assert Served(heap, s, o) == Reused(s, o);
    } else if heap.bumper + Span(o) <= |mem| {
      ServeBumps(heap, mem, s, o);
    } else {
      ServeRunsOut(heap, mem, s, o);
    }
  }

  /**
    An allocator that has not failed refuses a request exactly when the memory shrank, the
    request is oversize, or its list is empty and the bumper has no room. It never panics and
    never finds an occupied header in a free list or an access out of bounds.
   */
  lemma AllocateFailsExactly(heap: Heap, held: Memory, mem: Memory, s: Shape, size: U32)
    requires Inv(heap, held, s) && |mem| < U32_LIMIT
    requires size <= MAX_POSSIBLE_ALLOCATION ==> SumFits(heap, s, OrderFromSize(size).value)
    requires heap.lastObservedMemorySize <= |mem| ==> Inv(heap, mem, s)
    ensures var r := Allocate(heap, mem, size);
            && r.heap.poisoned == !r.outcome.Returned?
            && if |mem| < heap.lastObservedMemorySize then r.outcome == Failed(MemoryShrinked)
               else if size > MAX_POSSIBLE_ALLOCATION then r.outcome == Failed(RequestedAllocationTooLarge)
               else var o := OrderFromSize(size).value;
                    if s.free[o] == [] && heap.bumper + Span(o) > |mem|
                    then r.outcome == Failed(AllocatorOutOfSpace)
                    else r.outcome.Returned?
  {
    PoisonIsForever(heap, mem, size, 0);
    if heap.lastObservedMemorySize <= |mem| && size <= MAX_POSSIBLE_ALLOCATION {
      AllocateServes(heap, mem, size);
      ObservedInv(heap, mem, s);
      ServeExact(heap.(lastObservedMemorySize := |mem|), mem, s, OrderFromSize(size).value);
    }
  }

  /** Once a call has failed, every later call fails and changes nothing. */
  lemma PoisonIsForever(heap: Heap, mem: Memory, size: U32, ptr: U32)
    requires |heap.heads| == N_ORDERS && |mem| < U32_LIMIT
    ensures !Allocate(heap, mem, size).outcome.Returned? <==> Allocate(heap, mem, size).heap.poisoned
    ensures !Deallocate(heap, mem, ptr).outcome.Returned? <==> Deallocate(heap, mem, ptr).heap.poisoned
    ensures heap.poisoned ==>
              && Allocate(heap, mem, size) == Reply(heap, mem, Failed(Poisoned))
              && Deallocate(heap, mem, ptr) == Reply(heap, mem, Failed(Poisoned))
  {
  }

  // ---- what the invariant means to the client ----

  /** Payloads in use lie inside the memory, are aligned, and never share a byte with another chunk. */
  lemma LivePayloadsAreExclusive(heap: Heap, mem: Memory, s: Shape, p: U32, q: U32)
    requires Inv(heap, mem, s) && p in s.live && q in s.orderOf && p != q
    ensures (p + HEADER_SIZE) % 8 == 0
    ensures p + Span(s.orderOf[p]) <= |mem|
    ensures p + Span(s.orderOf[p]) <= q || q + Span(s.orderOf[q]) <= p
  {
    ChunksApart(heap.originalHeapBase, heap.bumper, s.orderOf, p, q);
    assert s.orderOf != map[];
  }

  lemma ChunksApart(base: int, bumper: int, orderOf: map<U32, Order>, p: U32, q: U32)
    requires Tiled(base, bumper, orderOf) && p in orderOf && q in orderOf && p != q
    ensures (p + HEADER_SIZE) % 8 == 0 && p + Span(orderOf[p]) <= bumper
    ensures p + Span(orderOf[p]) <= q || q + Span(orderOf[q]) <= p
  {
    assert p % 8 == 0;
  }

  /** Every address between the base and the bumper belongs to exactly one chunk. */
  lemma ChunksTile(heap: Heap, mem: Memory, s: Shape, a: int)
    requires Inv(heap, mem, s)
    ensures heap.originalHeapBase <= a < heap.bumper <==> Covered(s.orderOf, a)
    ensures forall p, q :: Covers(s.orderOf, p, a) && Covers(s.orderOf, q, a) ==> p == q
  {
    if heap.originalHeapBase <= a < heap.bumper {
      assert Covered(s.orderOf, a);
    }
  }

  /** The chunks met by following the links in the header bytes, ending at the nil link. */
  ghost predicate Chain(mem: Memory, head: Link, list: seq<U32>)
    decreases |list|
  {
    if list == [] then
      head == Nil
    else
      && head == Ptr(list[0])
      && ReadHeader(mem, list[0]).Ok?
      && ReadHeader(mem, list[0]).value.Free?
      && Chain(mem, ReadHeader(mem, list[0]).value.next, list[1..])
  }

  lemma {:induction false} ListIsChain(mem: Memory, list: seq<U32>, k: nat)
    requires k <= |list| && ListInMemory(mem, LinkTo(list, 0), list)
    ensures Chain(mem, LinkTo(list, k), list[k..])
    decreases |list| - k
  {
    if k < |list| {
      ListIsChain(mem, list, k + 1);
      assert list[k..][1..] == list[k + 1..];
    }
  }

  lemma {:induction false} ChainUnique(mem: Memory, head: Link, list: seq<U32>, other: seq<U32>)
    requires Chain(mem, head, list) && Chain(mem, head, other)
    ensures list == other
    decreases |list|
  {
    if list != [] && other != [] {
      ChainUnique(mem, ReadHeader(mem, list[0]).value.next, list[1..], other[1..]);
      assert list == [list[0]] + list[1..] && other == [other[0]] + other[1..];
    }
  }

  /**
    Following the bytes of any order's list ends at the nil link after meeting exactly the free
    chunks of that order, each once.
   */
  lemma FreeListsAreExact(heap: Heap, mem: Memory, s: Shape, o: Order)
    requires Inv(heap, mem, s)
    ensures Chain(mem, heap.heads[o], s.free[o])
    ensures forall other :: Chain(mem, heap.heads[o], other) ==> other == s.free[o]
    ensures forall i, j :: 0 <= i < j < |s.free[o]| ==> s.free[o][i] != s.free[o][j]
    ensures forall p :: p in s.free[o] <==> p in s.orderOf && s.orderOf[p] == o && p !in s.live
  {
    assert FreeOnly(s, o);
    assert ListInMemory(mem, heap.heads[o], s.free[o]);
    forall p | p in s.orderOf && s.orderOf[p] == o && p !in s.live
      ensures p in s.free[o]
    {
      assert LiveOrFree(s, p);
    }
    ListIsChain(mem, s.free[o], 0);
    assert s.free[o][0..] == s.free[o];
    forall other | Chain(mem, heap.heads[o], other)
      ensures other == s.free[o]
    {
      ChainUnique(mem, heap.heads[o], s.free[o], other);
    }
  }

  // ---- whole runs ----

  datatype World = World(heap: Heap, mem: Memory, shape: Shape)

  /** `DoDeallocate` names the chunk; the pointer the client holds and passes is past its header. */
  datatype Action = DoAllocate(size: U32) | DoDeallocate(chunk: U32) | DoClient(mem: Memory)

  ghost predicate InLivePayload(s: Shape, a: int) {
    exists p :: p in s.live && p in s.orderOf && p + HEADER_SIZE <= a < p + Span(s.orderOf[p])
  }

  /**
    The client frees only pointers it holds, writes only inside payloads it holds, and never
    shrinks the memory. A request that has to bump needs the new bumper below 2^32.
   */
  ghost predicate Allowed(w: World, a: Action)
    requires Sized(w)
  {
    w.heap.poisoned ||
    match a
    case DoAllocate(size) =>
      size <= MAX_POSSIBLE_ALLOCATION ==> SumFits(w.heap, w.shape, OrderFromSize(size).value)
    case DoDeallocate(p) => p in w.shape.live && p in w.shape.orderOf && p + HEADER_SIZE < U32_LIMIT
    case DoClient(mem) =>
      && |w.mem| <= |mem| < U32_LIMIT
      && forall i :: 0 <= i < |w.mem| && mem[i] != w.mem[i] ==> InLivePayload(w.shape, i)
  }

  ghost predicate Sized(w: World) {
    |w.heap.heads| == N_ORDERS && |w.mem| < U32_LIMIT && |w.shape.free| == N_ORDERS
  }

  ghost predicate Safe(w: World) {
    Sized(w) && (!w.heap.poisoned ==> Inv(w.heap, w.mem, w.shape))
  }

  ghost function ShapeAfterAllocate(w: World, size: U32): (s: Shape)
    requires Sized(w)
    ensures |s.free| == N_ORDERS
  {
    if Allocate(w.heap, w.mem, size).outcome.Returned? && size <= MAX_POSSIBLE_ALLOCATION then
      Served(w.heap, w.shape, OrderFromSize(size).value)
    else
      w.shape
  }

  ghost function Next(w: World, a: Action): (w': World)
    requires Sized(w) && Allowed(w, a)
    ensures Sized(w')
  {
    match a
    case DoAllocate(size) =>
      var r := Allocate(w.heap, w.mem, size);
      World(r.heap, r.mem, ShapeAfterAllocate(w, size))
    case DoDeallocate(p) =>
      if w.heap.poisoned then w else
        var r := Deallocate(w.heap, w.mem, p + HEADER_SIZE);
        World(r.heap, r.mem, Freed(w.shape, p))
    case DoClient(mem) => if w.heap.poisoned then w else World(w.heap, mem, w.shape)
  }

  lemma HeaderBytesAreNotPayload(heap: Heap, mem: Memory, s: Shape, q: U32, i: int)
    requires Inv(heap, mem, s) && q in s.orderOf && q <= i < q + HEADER_SIZE
    ensures !InLivePayload(s, i)
  {
    forall p | p in s.live && p in s.orderOf
      ensures !(p + HEADER_SIZE <= i < p + Span(s.orderOf[p]))
    {
      assert p < q ==> p + Span(s.orderOf[p]) <= q;
    }
  }

  lemma ClientKeeps(w: World, mem: Memory)
    requires Safe(w) && !w.heap.poisoned && Allowed(w, DoClient(mem))
    ensures Inv(w.heap, mem, w.shape)
  {
    var s := w.shape;
    forall q | q in s.orderOf
      ensures ReadHeader(mem, q) == ReadHeader(w.mem, q)
    {
      assert s.orderOf != map[];
      forall i | q <= i < q + 8
        ensures mem[i] == w.mem[i]
      {
        HeaderBytesAreNotPayload(w.heap, w.mem, s, q, i);
      }
      HeaderFrame(w.mem, mem, q);
    }
    forall o: Order
      ensures ListInMemory(mem, w.heap.heads[o], s.free[o])
    {
      assert FreeOnly(s, o);
      assert ListInMemory(w.mem, w.heap.heads[o], s.free[o]);
    }
  }

  lemma AllocateIsSafe(w: World, size: U32)
    requires Safe(w) && !w.heap.poisoned && Allowed(w, DoAllocate(size))
    ensures Safe(Next(w, DoAllocate(size)))
  {
    PoisonIsForever(w.heap, w.mem, size, 0);
    if Allocate(w.heap, w.mem, size).outcome.Returned? {
      var o := OrderFromSize(size).value;
      var observed := w.heap.(lastObservedMemorySize := |w.mem|);
      AllocateServes(w.heap, w.mem, size);
      ObservedInv(w.heap, w.mem, w.shape);
      ServeExact(observed, w.mem, w.shape, o);
      assert Served(observed, w.shape, o) == Served(w.heap, w.shape, o);
    }
  }

  lemma DeallocateIsSafe(w: World, p: U32)
    requires Safe(w) && !w.heap.poisoned && Allowed(w, DoDeallocate(p))
    ensures Safe(Next(w, DoDeallocate(p)))
  {
    DeallocateFrees(w.heap, w.mem, w.shape, p);
  }

  lemma PoisonedIsSafe(w: World, a: Action)
    requires Safe(w) && w.heap.poisoned
    ensures Safe(Next(w, a))
  {
    match a
    case DoAllocate(size) => PoisonIsForever(w.heap, w.mem, size, 0);
    case DoDeallocate(_) =>
    case DoClient(_) =>
  }

  lemma NextIsSafe(w: World, a: Action)
    requires Safe(w) && Allowed(w, a)
    ensures Safe(Next(w, a))
  {
    if w.heap.poisoned {
      PoisonedIsSafe(w, a);
    } else {
      match a
      case DoAllocate(size) => AllocateIsSafe(w, size);
      case DoDeallocate(p) => DeallocateIsSafe(w, p);
      case DoClient(mem) => ClientKeeps(w, mem);
    }
  }

  lemma NextKeepsBase(w: World, a: Action)
    requires Sized(w) && Allowed(w, a)
    ensures Next(w, a).heap.originalHeapBase == w.heap.originalHeapBase
  {
  }

  ghost predicate RunAllowed(w: World, actions: seq<Action>)
    requires Sized(w)
    decreases |actions|
  {
    actions != [] ==> Allowed(w, actions[0]) && RunAllowed(Next(w, actions[0]), actions[1..])
  }

  ghost function Run(w: World, actions: seq<Action>): (w': World)
    requires Sized(w) && RunAllowed(w, actions)
    decreases |actions|
  {
    if actions == [] then w else Run(Next(w, actions[0]), actions[1..])
  }

  ghost function Start(heapBase: U32, mem: Memory): World {
    World(NewHeap(heapBase), mem, Shape(map[], {}, seq(N_ORDERS, _ => [])))
  }

  lemma StartIsSafe(heapBase: U32, mem: Memory)
    requires heapBase + 7 < U32_LIMIT && |mem| < U32_LIMIT
    ensures Safe(Start(heapBase, mem))
  {
    var w := Start(heapBase, mem);
    forall o: Order
      ensures FreeOnly(w.shape, o) && ListInMemory(mem, w.heap.heads[o], w.shape.free[o])
    {
    }
  }

  /**
    In every run of the allocator with such a client, a state that is not poisoned satisfies the
    whole invariant, and its counters are bounded by the address space in use.
   */
  lemma {:induction false} RunKeepsInvariant(heapBase: U32, mem: Memory, actions: seq<Action>)
    requires heapBase + 7 < U32_LIMIT && |mem| < U32_LIMIT
    requires RunAllowed(Start(heapBase, mem), actions)
    ensures var w := Run(Start(heapBase, mem), actions);
            !w.heap.poisoned ==>
              && Inv(w.heap, w.mem, w.shape)
              && w.heap.stats.bytesAllocated == Total(w.shape.live, w.shape.orderOf)
              && w.heap.stats.bytesAllocated <= w.heap.stats.bytesAllocatedPeak
              && w.heap.stats.bytesAllocatedPeak <= w.heap.bumper - w.heap.originalHeapBase
              && w.heap.originalHeapBase == AlignedHeapBase(heapBase)
  {
    StartIsSafe(heapBase, mem);
    RunFromSafe(Start(heapBase, mem), actions);
  }

  lemma {:induction false} RunFromSafe(w: World, actions: seq<Action>)
    requires Safe(w) && RunAllowed(w, actions)
    ensures Safe(Run(w, actions))
    ensures Run(w, actions).heap.originalHeapBase == w.heap.originalHeapBase
    decreases |actions|
  {
    if actions != [] {
      NextIsSafe(w, actions[0]);
      NextKeepsBase(w, actions[0]);
      RunFromSafe(Next(w, actions[0]), actions[1..]);
    }
  }
}
