/** What the allocator's counters have counted, over whole runs. */
module HeapCounters {
  import opened Common
  import opened LinearMemory
  import opened HeapModel
  import opened HeapInvariant
  import opened HeapSafety

  /** The bytes of the chunks that the client holds. */
  ghost function InUse(w: World): nat
    requires w.shape.live <= w.shape.orderOf.Keys
  {
    Total(w.shape.live, w.shape.orderOf)
  }

  /** The most that the client holds in any state of the run. */
  ghost function MostInUse(w: World, actions: seq<Action>): nat
    requires Safe(w) && RunAllowed(w, actions) && !Run(w, actions).heap.poisoned
    decreases |actions|
  {
    RunStaysClean(w, actions);
    if actions == [] then InUse(w)
    else Max(InUse(w), MostInUse(Next(w, actions[0]), actions[1..]))
  }

  /** The size of the chunk that a successful request is given. */
  ghost function Granted(w: World, a: Action): nat
    requires Sized(w)
  {
    if a.DoAllocate? && a.size <= MAX_POSSIBLE_ALLOCATION && Allocate(w.heap, w.mem, a.size).outcome.Returned?
    then OrderSize(OrderFromSize(a.size).value) + HEADER_SIZE
    else 0
  }

  ghost function AllGranted(w: World, actions: seq<Action>): nat
    requires Sized(w) && RunAllowed(w, actions)
    decreases |actions|
  {
    if actions == [] then 0 else Granted(w, actions[0]) + AllGranted(Next(w, actions[0]), actions[1..])
  }

  /** A run that ends well has gone well all along. */
  lemma {:induction false} RunStaysClean(w: World, actions: seq<Action>)
    requires Safe(w) && RunAllowed(w, actions) && !Run(w, actions).heap.poisoned
    ensures !w.heap.poisoned && Inv(w.heap, w.mem, w.shape)
    ensures actions != [] ==> Safe(Next(w, actions[0]))
    decreases |actions|
  {
    if actions != [] {
      NextIsSafe(w, actions[0]);
      RunStaysClean(Next(w, actions[0]), actions[1..]);
      if w.heap.poisoned {
        PoisonStays(w, actions[0]);
      }
    }
  }

  lemma PoisonStays(w: World, a: Action)
    requires Safe(w) && Allowed(w, a) && w.heap.poisoned
    ensures Next(w, a).heap.poisoned
  {
    if a.DoAllocate? {
      PoisonIsForever(w.heap, w.mem, a.size, 0);
    }
  }

  // ---- one step ----

  lemma ServedStats(heap: Heap, mem: Memory, order: Order)
    requires |heap.heads| == N_ORDERS && |mem| < U32_LIMIT && ServeOrder(heap, mem, order).outcome.Returned?
    ensures
      var stats := ServeOrder(heap, mem, order).heap.stats;
      && stats.bytesAllocatedPeak == Max(heap.stats.bytesAllocatedPeak, stats.bytesAllocated)
      && stats.bytesAllocatedSum == (heap.stats.bytesAllocatedSum + OrderSize(order) + HEADER_SIZE) % U128_LIMIT
  {
  }

  lemma AllocatedStats(heap: Heap, mem: Memory, size: U32)
    requires |heap.heads| == N_ORDERS && |mem| < U32_LIMIT && Allocate(heap, mem, size).outcome.Returned?
    ensures
      var stats := Allocate(heap, mem, size).heap.stats;
      && size <= MAX_POSSIBLE_ALLOCATION
      && stats.bytesAllocatedPeak == Max(heap.stats.bytesAllocatedPeak, stats.bytesAllocated)
      && stats.bytesAllocatedSum ==
         (heap.stats.bytesAllocatedSum + OrderSize(OrderFromSize(size).value) + HEADER_SIZE) % U128_LIMIT
  {
    ServedStats(heap.(lastObservedMemorySize := |mem|), mem, OrderFromSize(size).value);
  }

  lemma DeallocatedStats(heap: Heap, mem: Memory, ptr: U32)
    requires |heap.heads| == N_ORDERS && |mem| < U32_LIMIT
    ensures
      var stats := Deallocate(heap, mem, ptr).heap.stats;
      && stats.bytesAllocatedPeak == heap.stats.bytesAllocatedPeak
      && stats.bytesAllocatedSum == heap.stats.bytesAllocatedSum
  {
  }

  lemma NextPeak(w: World, a: Action)
    requires Sized(w) && Allowed(w, a) && !w.heap.poisoned && !Next(w, a).heap.poisoned
    ensures
      var before, after := w.heap.stats, Next(w, a).heap.stats;
      after.bytesAllocatedPeak ==
        if a.DoAllocate? then Max(before.bytesAllocatedPeak, after.bytesAllocated) else before.bytesAllocatedPeak
  {
    match a
    case DoAllocate(size) =>
      PoisonIsForever(w.heap, w.mem, size, 0);
      AllocatedStats(w.heap, w.mem, size);
    case DoDeallocate(p) => DeallocatedStats(w.heap, w.mem, p + HEADER_SIZE);
    case DoClient(_) =>
  }

  /** The sum counter loses a multiple of its limit, no more. */
  ghost predicate Wrapped(exact: nat, counter: nat, times: nat) {
    counter < U128_LIMIT && exact == counter + U128_LIMIT * times
  }

  lemma WrappedIsRemainder(exact: nat, counter: nat, times: nat)
    requires Wrapped(exact, counter, times)
    ensures counter == exact % U128_LIMIT
  {
  }

  lemma NextSum(w: World, a: Action) returns (times: nat)
    requires Sized(w) && Allowed(w, a) && !w.heap.poisoned && !Next(w, a).heap.poisoned
    requires w.heap.stats.bytesAllocatedSum < U128_LIMIT
    ensures Wrapped(w.heap.stats.bytesAllocatedSum + Granted(w, a), Next(w, a).heap.stats.bytesAllocatedSum, times)
  {
    times := 0;
    match a
    case DoAllocate(size) =>
      PoisonIsForever(w.heap, w.mem, size, 0);
      AllocatedStats(w.heap, w.mem, size);
      times := (w.heap.stats.bytesAllocatedSum + Granted(w, a)) / U128_LIMIT;
    case DoDeallocate(p) => DeallocatedStats(w.heap, w.mem, p + HEADER_SIZE);
    case DoClient(_) =>
  }

  /** What the invariant says of the counters. */
  lemma InUseCounted(w: World)
    requires Inv(w.heap, w.mem, w.shape)
    ensures w.shape.live <= w.shape.orderOf.Keys
    ensures InUse(w) == w.heap.stats.bytesAllocated <= w.heap.stats.bytesAllocatedPeak
  {
  }

  // ---- whole runs ----

  /** The counters of a run from its second state on. */
  lemma RunNext(w: World, actions: seq<Action>)
    requires Safe(w) && RunAllowed(w, actions) && !Run(w, actions).heap.poisoned && actions != []
    ensures
      var w' := Next(w, actions[0]);
      && Safe(w') && RunAllowed(w', actions[1..]) && Run(w, actions) == Run(w', actions[1..])
      && !w.heap.poisoned && !w'.heap.poisoned && Inv(w.heap, w.mem, w.shape) && Inv(w'.heap, w'.mem, w'.shape)
  {
    RunStaysClean(w, actions);
    RunStaysClean(Next(w, actions[0]), actions[1..]);
  }

  lemma {:induction false} MostFromHere(w: World, actions: seq<Action>)
    requires Safe(w) && RunAllowed(w, actions) && !Run(w, actions).heap.poisoned
    ensures w.shape.live <= w.shape.orderOf.Keys && InUse(w) <= MostInUse(w, actions)
  {
    RunStaysClean(w, actions);
  }

  lemma {:induction false} RunPeak(w: World, actions: seq<Action>)
    requires Safe(w) && RunAllowed(w, actions) && !Run(w, actions).heap.poisoned
    ensures Run(w, actions).heap.stats.bytesAllocatedPeak ==
            Max(w.heap.stats.bytesAllocatedPeak, MostInUse(w, actions))
    decreases |actions|
  {
    RunStaysClean(w, actions);
    InUseCounted(w);
    if actions != [] {
      var w' := Next(w, actions[0]);
      RunNext(w, actions);
      NextPeak(w, actions[0]);
      InUseCounted(w');
      MostFromHere(w', actions[1..]);
      RunPeak(w', actions[1..]);
    }
  }

  lemma {:induction false} RunSum(w: World, actions: seq<Action>) returns (times: nat)
    requires Safe(w) && RunAllowed(w, actions) && !Run(w, actions).heap.poisoned
    requires w.heap.stats.bytesAllocatedSum < U128_LIMIT
    ensures Wrapped(
              w.heap.stats.bytesAllocatedSum + AllGranted(w, actions),
              Run(w, actions).heap.stats.bytesAllocatedSum, times)
    decreases |actions|
  {
    times := 0;
    if actions != [] {
      RunNext(w, actions);
      var first := NextSum(w, actions[0]);
      var rest := RunSum(Next(w, actions[0]), actions[1..]);
      times := first + rest;
    }
  }

  /**
    After every run that has not failed, the peak counter is the most that the client ever held at once,
    and the sum counter is everything it was ever given, modulo 2^128.
   */
  lemma RunCountsExactly(heapBase: U32, mem: Memory, actions: seq<Action>)
    requires heapBase + 7 < U32_LIMIT && |mem| < U32_LIMIT
    requires RunAllowed(Start(heapBase, mem), actions) && !Run(Start(heapBase, mem), actions).heap.poisoned
    ensures Safe(Start(heapBase, mem))
    ensures
      var start := Start(heapBase, mem);
      var stats := Run(start, actions).heap.stats;
      && stats.bytesAllocatedPeak == MostInUse(start, actions)
      && stats.bytesAllocatedSum == AllGranted(start, actions) % U128_LIMIT
  {
    var start := Start(heapBase, mem);
    StartIsSafe(heapBase, mem);
    RunPeak(start, actions);
    var times := RunSum(start, actions);
    WrappedIsRemainder(AllGranted(start, actions), Run(start, actions).heap.stats.bytesAllocatedSum, times);
  }
}
