/**
  The shape of the heap that the allocator's fields and the header bytes stand for, and what
  every call keeps of it. A chunk is known by the address of its header.
 */
module HeapInvariant {
  import opened Common
  import opened LinearMemory
  import opened HeapModel

  /** Every chunk ever bumped with its order, the ones in use, and the free list of each order. */
  datatype Shape = Shape(orderOf: map<U32, Order>, live: set<U32>, free: seq<seq<U32>>)

  // ---- the chunks tile [base, bumper) ----

  ghost predicate Covers(orderOf: map<U32, Order>, p: U32, a: int) {
    p in orderOf && p <= a < p + Span(orderOf[p])
  }

  ghost predicate Covered(orderOf: map<U32, Order>, a: int) {
    exists p :: Covers(orderOf, p, a)
  }

  ghost predicate Apart(orderOf: map<U32, Order>) {
    forall p, q :: p in orderOf && q in orderOf && p < q ==> p + Span(orderOf[p]) <= q
  }

  /** Aligned chunks, pairwise disjoint, that cover every address from the base to the bumper. */
  ghost predicate Tiled(base: int, bumper: int, orderOf: map<U32, Order>) {
    && base % 8 == 0 && bumper % 8 == 0 && base <= bumper
    && (forall p :: p in orderOf ==> p % 8 == 0 && base <= p && p + Span(orderOf[p]) <= bumper)
    && Apart(orderOf)
    && (forall a :: base <= a < bumper ==> Covered(orderOf, a))
  }

  // ---- a chunk is live or in the free list of its order ----

  ghost predicate FreeOnly(s: Shape, o: Order)
    requires |s.free| == N_ORDERS
  {
    && (forall i :: 0 <= i < |s.free[o]| ==>
          s.free[o][i] in s.orderOf && s.orderOf[s.free[o][i]] == o && s.free[o][i] !in s.live)
    && (forall i, j :: 0 <= i < j < |s.free[o]| ==> s.free[o][i] != s.free[o][j])
  }

  ghost predicate LiveOrFree(s: Shape, p: U32)
    requires |s.free| == N_ORDERS && p in s.orderOf
  {
    p in s.live || p in s.free[s.orderOf[p]]
  }

  ghost predicate Partitioned(s: Shape) {
    && |s.free| == N_ORDERS
    && s.live <= s.orderOf.Keys
    && (forall o: Order :: FreeOnly(s, o))
    && (forall p {:trigger LiveOrFree(s, p)} :: p in s.orderOf ==> LiveOrFree(s, p))
  }

  // ---- the bytes say so ----

  function LinkTo(list: seq<U32>, i: nat): Link {
    if i < |list| then Ptr(list[i]) else Nil
  }

  ghost predicate ListInMemory(mem: Memory, head: Link, list: seq<U32>) {
    && head == LinkTo(list, 0)
    && forall i {:trigger ReadHeader(mem, list[i])} :: 0 <= i < |list| ==>
         ReadHeader(mem, list[i]) == Ok(Free(LinkTo(list, i + 1)))
  }

  ghost predicate HeadersMatch(heap: Heap, mem: Memory, s: Shape) {
    && |heap.heads| == N_ORDERS && |s.free| == N_ORDERS
    && s.live <= s.orderOf.Keys
    && (forall p :: p in s.live ==> ReadHeader(mem, p) == Ok(Occupied(s.orderOf[p])))
    && (forall o: Order :: ListInMemory(mem, heap.heads[o], s.free[o]))
  }

  // ---- the counters say so ----

  ghost function Total(ps: set<U32>, orderOf: map<U32, Order>): (sum: nat)
    requires ps <= orderOf.Keys
  {
    if ps == {} then 0 else
      var p :| p in ps;
      Span(orderOf[p]) + Total(ps - {p}, orderOf)
  }

  ghost predicate StatsMatch(heap: Heap, s: Shape) {
    && s.live <= s.orderOf.Keys
    && heap.stats.bytesAllocated == Total(s.live, s.orderOf)
    && Total(s.orderOf.Keys, s.orderOf) == heap.bumper - heap.originalHeapBase
    && heap.stats.bytesAllocated <= heap.stats.bytesAllocatedPeak <= heap.stats.addressSpaceUsed
    && heap.stats.addressSpaceUsed == heap.bumper - heap.originalHeapBase
  }

  ghost predicate InsideMemory(heap: Heap, mem: Memory, s: Shape) {
    && heap.lastObservedMemorySize <= |mem| < U32_LIMIT
    && (s.orderOf != map[] ==> heap.bumper <= heap.lastObservedMemorySize)
  }

  ghost predicate Inv(heap: Heap, mem: Memory, s: Shape) {
    && !heap.poisoned
    && Tiled(heap.originalHeapBase, heap.bumper, s.orderOf)
    && Partitioned(s)
    && HeadersMatch(heap, mem, s)
    && StatsMatch(heap, s)
    && InsideMemory(heap, mem, s)
  }

  // ---- sums ----

  lemma {:induction false} TotalRemove(ps: set<U32>, orderOf: map<U32, Order>, p: U32)
    requires ps <= orderOf.Keys && p in ps
    ensures Total(ps, orderOf) == Span(orderOf[p]) + Total(ps - {p}, orderOf)
  {
    var q :| q in ps && Total(ps, orderOf) == Span(orderOf[q]) + Total(ps - {q}, orderOf);
    if p != q {
      TotalRemove(ps - {q}, orderOf, p);
      TotalRemove(ps - {p}, orderOf, q);
      assert ps - {q} - {p} == ps - {p} - {q};
    }
  }

  lemma TotalAdd(ps: set<U32>, orderOf: map<U32, Order>, p: U32)
    requires ps <= orderOf.Keys && p in orderOf && p !in ps
    ensures Total(ps + {p}, orderOf) == Total(ps, orderOf) + Span(orderOf[p])
  {
    TotalRemove(ps + {p}, orderOf, p);
    assert ps + {p} - {p} == ps;
  }

  lemma {:induction false} TotalExtend(ps: set<U32>, orderOf: map<U32, Order>, p: U32, o: Order)
    requires ps <= orderOf.Keys && p !in ps
    ensures ps <= orderOf[p := o].Keys
    ensures Total(ps, orderOf[p := o]) == Total(ps, orderOf)
  {
    if ps != {} {
      var q :| q in ps;
      TotalRemove(ps, orderOf, q);
      TotalRemove(ps, orderOf[p := o], q);
      TotalExtend(ps - {q}, orderOf, p, o);
    }
  }

  lemma {:induction false} TotalMonotone(ps: set<U32>, qs: set<U32>, orderOf: map<U32, Order>)
    requires ps <= qs <= orderOf.Keys
    ensures Total(ps, orderOf) <= Total(qs, orderOf)
    decreases qs
  {
    if ps != qs {
      var q :| q in qs && q !in ps;
      TotalRemove(qs, orderOf, q);
      TotalMonotone(ps, qs - {q}, orderOf);
    }
  }

  // ---- framing ----

  /** Writing one header leaves every other chunk's header as it was. */
  lemma OtherHeadersKept(heap: Heap, mem: Memory, mem': Memory, orderOf: map<U32, Order>, p: U32)
    requires Tiled(heap.originalHeapBase, heap.bumper, orderOf) && heap.bumper <= |mem| == |mem'|
    requires p in orderOf
    requires forall a :: 0 <= a < |mem| && !(p <= a < p + 8) ==> mem'[a] == mem[a]
    ensures forall q :: q in orderOf && q != p ==> ReadHeader(mem', q) == ReadHeader(mem, q)
  {
    forall q | q in orderOf && q != p
      ensures ReadHeader(mem', q) == ReadHeader(mem, q)
    {
      assert if q < p then q + Span(orderOf[q]) <= p else p + Span(orderOf[p]) <= q;
      HeaderFrame(mem, mem', q);
    }
  }
}
