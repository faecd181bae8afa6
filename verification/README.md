# Substrate client: verified models

Models and proofs, in Dafny, of six stateful parts of the Substrate client. `dafny verify dfyconfig.toml`
checks all of them.

- **The freeing-bump heap allocator** of the Wasm runtime (`LinearMemory`, `HeapModel`, `HeapInvariant`,
  `HeapSafety`, `HeapCounters`, `HeapAllocator`). Memory is a byte array; the free lists live in its header bytes.
  The main result is an invariant over every run of allocations, deallocations and client writes: chunks
  tile the heap, the lists read through the bytes are exactly the free chunks, the counters are what they
  claim to be.
- **The BEEFY voter** (`BeefyRounds`, `BeefyAgreement`, `BeefySplit`, `BeefyProof`, `BeefyTarget`,
  `BeefyWorkerModel`, `BeefySafety`, `BeefyReplay`, `BeefyProvenance`, `BeefyDelivery`, `BeefyWorker`). Quorum agreement
  between sessions with its tight bound, safety of whole runs of the worker, delivery (no vote is lost, a
  quorum makes a block final), the power-of-two target rule, and exactly when published proofs are accepted.
- **The shared state cache** (`StateCacheModel`, `StateCacheCoherence`, `StateCacheRuns`, `StateCache`).
  Across commits, forks, reorganizations, wipes and evictions, an admitted answer is the uncached value, and
  exactly what is admitted, listed and kept is stated too.
- **Block-tree bookkeeping**: the leaf set (`LeafSetModel`, `LeafSetRuns`, `LeafSet`), the canonical index
  (`CanonicalIndex`, `CanonicalRuns`, `CanonicalBackend`), pruning of displaced branches
  (`DisplacedBranches`) and indexed bodies (`IndexedBody`). Each summary agrees with the tree it summarises.
- **Offchain compare-and-set** (`OffchainCas`, `OffchainLinear`). Any number of threads, any interleaving:
  the lock protocol's invariants and linearizability.
- **GRANDPA ancestry proofs** (`GrandpaAncestry`). What the producer collects is exactly what the verifier
  accepts.

Each part has a model made of functions on values, theorems about that model, and, where the code updates
things in place, a class or loops proved to refine the model. Where a promise does not hold of the code,
there is a lemma with an input that breaks it and one that says exactly when it holds:

- `bump` and the rounding of the heap base are right exactly when their 32-bit sums do not wrap; arithmetic
  is modelled as wrapping, as in release builds.
- Acceptance of a BEEFY proof shows a quorum of distinct signers exactly for sets without repeated keys,
  and a proof assembled from votes is accepted exactly when enough of them name the validator set: the
  worker does not look at that field when it counts a vote.
- Replay of buffered items differs from triage for the largest block number only.
- A best block committed to the state cache without a parent hash leaves it coherent exactly when the block
  is on the old best path or was listed, or when, with the route's keys purged, what is cached of its changes
  has the new values already and either nothing changed or no listed block is taken for canonical.
- A block imported at or below the finalized height on top of a leaf leaves that leaf listed.
- A head imported above an unknown parent is never linked to it in the number index, and importing the
  finalized block again as the head is refused although the new path contains it.
- Where displaced branches are pruned, a block imported as final has the body of its parent deleted exactly
  when the parent was a leaf: leaves are displaced before the block joins the leaf set.
- A compare-and-set that found what it expects can be placed in an order of effects that gives the real
  database exactly when, at the moment of its write, the key holds what it found or already what it writes;
  another plain write in between is lost, and until the next one the real value is not that of the order.
- The verifier of GRANDPA ancestries compares sets, so it does not notice a header given twice.

Where documentation and code differ the model follows the code: the number index key is documented as
little-endian and is written most significant byte first (substrate/client/db/src/utils.rs:90-101), and the
comment in the pruning loop says displaced leaves cannot have canonical parents while the code prunes the
leaf itself before looking at the canonical chain at its own number
(substrate/client/db/src/lib.rs:1744-1762).

Assumptions on the surroundings are preconditions of the theorems: the allocator's client frees only what
it holds and writes only inside payloads it holds; `tree_route` returns the route down to the last common
block and up again (its behaviour in substrate/client/db/src/lib.rs:2792-2849); each block hash has one
change set and one header; votes are authentic and justifications verified before the worker sees them; the
voter starts from a finality notification, so from block 1 on, and is given the set active there; hashes of stored data are consistent with their contents.

## Model

| member | source | states |
|---|---|---|
| LinearMemory.OrderFromSize | substrate/client/allocator/src/freeing_bump.rs:136-161 | A request has an order exactly when it is not above the largest allocation; otherwise the error is `RequestedAllocationTooLarge`. |
| LinearMemory.OrderFromSizeIsLeast | substrate/client/allocator/src/freeing_bump.rs:136-168 | The order of a request is the least one whose payload size holds it. |
| LinearMemory.HeaderWordRoundTrip | substrate/client/allocator/src/freeing_bump.rs:188-266 | Every header that can be stored (links never equal to the nil marker, orders in range) survives its 64-bit encoding. |
| LinearMemory.HeaderRoundTrip | substrate/client/allocator/src/freeing_bump.rs:240-266 | Writing a header to the bytes and reading it back gives the header, and no byte outside its eight changes. |
| LinearMemory.HeaderLayout | substrate/client/allocator/src/freeing_bump.rs:188-266 | In memory a header is its order or next link in the low four bytes, least significant first, all ones for no link, then one for occupied or zero for free, then three zeros. |
| LinearMemory.HeaderFrame | substrate/client/allocator/src/freeing_bump.rs:240-253 | Reading a header depends on its own eight bytes only. |
| HeapModel.AlignedHeapBaseExact | substrate/client/allocator/src/freeing_bump.rs:370-381 | The base is rounded up to a multiple of eight exactly when `heap_base + 7` does not wrap. |
| HeapModel.BumpExact | substrate/client/allocator/src/freeing_bump.rs:506-520 | The space check of `bump` is right exactly when the sum stays below 2^32. |
| HeapModel.BumpWrapsNearTheTop | substrate/client/allocator/src/freeing_bump.rs:506-520 | Near 4 GiB the sum wraps, the check passes, and the chunk reaches past the end of the memory. |
| HeapSafety.ServeReuses | substrate/client/allocator/src/freeing_bump.rs:412-446 | With a free chunk of the order, the head of its list is handed out and the whole invariant is kept. |
| HeapSafety.ServeBumps | substrate/client/allocator/src/freeing_bump.rs:412-446 | With an empty list and room, the chunk at the bumper is handed out and the whole invariant is kept. |
| HeapSafety.ServeExact | substrate/client/allocator/src/freeing_bump.rs:412-446 | A request of a known order succeeds exactly when its list is non-empty or the bumper has room, with that pointer. |
| HeapSafety.AllocateFailsExactly | substrate/client/allocator/src/freeing_bump.rs:398-447 | An allocator that has not failed refuses a request exactly for shrunk memory, an oversize request, or an empty list without room; the assertion and the occupied-header error cannot fire. |
| HeapSafety.ReleaseFrees | substrate/client/allocator/src/freeing_bump.rs:473-490 | Freeing a chunk in use succeeds, puts it at the head of its order's list and keeps the invariant; the underflow error is unreachable. |
| HeapSafety.DeallocateFrees | substrate/client/allocator/src/freeing_bump.rs:460-495 | `deallocate` of any pointer the client holds succeeds and keeps the invariant. |
| HeapSafety.DeallocateRefuses | substrate/client/allocator/src/freeing_bump.rs:460-495 | `deallocate` refuses a shrunk memory, a pointer without room for a header, one outside the memory, and a chunk that is already free, each with its error, and is poisoned then. |
| HeapSafety.PoisonIsForever | substrate/client/allocator/src/freeing_bump.rs:583-598 | A call fails exactly when it leaves the allocator poisoned, and a poisoned allocator refuses every call and changes nothing. |
| HeapSafety.LivePayloadsAreExclusive | substrate/client/allocator/src/freeing_bump.rs:398-447 | A payload in use is 8-aligned, inside the memory, and shares no byte, header included, with any other chunk. |
| HeapSafety.ChunksTile | substrate/client/allocator/src/freeing_bump.rs:370-447 | Every address from the base up to the bumper belongs to exactly one chunk, and no other address to any. |
| HeapSafety.FreeListsAreExact | substrate/client/allocator/src/freeing_bump.rs:286-316 | Following an order's links through the header bytes ends at nil after meeting exactly the free chunks of that order, each once; no other chain exists. |
| HeapSafety.ClientKeeps | substrate/client/allocator/src/freeing_bump.rs:383-397 | A client that writes only inside payloads in use, and memory that only grows, keep the invariant. |
| HeapSafety.RunKeepsInvariant | substrate/client/allocator/src/freeing_bump.rs:370-520 | In every run of allocations, deallocations and client writes, an unpoisoned state tiles the heap, has exact free lists, and bytes in use = sum of live chunks ≤ peak ≤ bumper − base. |
| HeapCounters.RunCountsExactly | substrate/client/allocator/src/freeing_bump.rs:320-335 | After every run that has not failed, the peak counter is the most that the client ever held at once, and the sum counter everything it was ever given, modulo 2^128. |
| HeapAllocator.WriteWordInPlace | substrate/client/allocator/src/freeing_bump.rs:561-567 | The in-place write of a little-endian word is the model's write. |
| HeapAllocator.FreeingBumpHeapAllocator.constructor | substrate/client/allocator/src/freeing_bump.rs:370-381 | A fresh allocator over the memory is the model's start. |
| HeapAllocator.FreeingBumpHeapAllocator.Take | substrate/client/allocator/src/freeing_bump.rs:412-432 | Choosing a chunk on the byte array is the model's choice, error for error. |
| HeapAllocator.FreeingBumpHeapAllocator.Serve | substrate/client/allocator/src/freeing_bump.rs:412-446 | Choosing, marking and counting a chunk in place is the model's step. |
| HeapAllocator.FreeingBumpHeapAllocator.Release | substrate/client/allocator/src/freeing_bump.rs:473-490 | Linking a chunk back into its list in place is the model's step. |
| HeapAllocator.FreeingBumpHeapAllocator.Allocate | substrate/client/allocator/src/freeing_bump.rs:398-447 | The mutable `allocate`, poison guard included, refines the model on memory, lists, counters and outcome. |
| HeapAllocator.FreeingBumpHeapAllocator.Deallocate | substrate/client/allocator/src/freeing_bump.rs:460-495 | The mutable `deallocate` refines the model on memory, lists, counters and outcome. |
| BeefyRounds.AddVoteKeeps | substrate/client/beefy/src/round.rs:116-136 | Adding a vote keeps only live rounds and only votes of members. |
| BeefyRounds.ConcludeKeeps | substrate/client/beefy/src/round.rs:163-169 | Concluding a number keeps only rounds above it. |
| BeefyRounds.TryConcludeKeeps | substrate/client/beefy/src/round.rs:138-161 | Trying to conclude a round keeps the same, whether it succeeds or not. |
| BeefyRounds.RunKeepsOk | substrate/client/beefy/src/round.rs:116-169 | Over every run of a session each concluded round is backed by a threshold of members who signed it, and numbers increase. |
| BeefyRounds.ConclusionsIncrease | substrate/client/beefy/src/round.rs:138-169 | In every run the concluded rounds have strictly increasing numbers, hence one payload per number. |
| BeefyRounds.SessionConcludesExactly | substrate/client/beefy/src/round.rs:163-185 | Over any run of a session its mandatory block is done exactly when that block was concluded, and its best block is the highest concluded. |
| BeefyAgreement.QuorumsOverlap | substrate/client/beefy/src/round.rs:63-66 | Two payloads of one number that both reach the threshold T share at least 2T − m signers, m being the number of distinct keys. |
| BeefyAgreement.FaultsAreTolerated | substrate/client/beefy/src/round.rs:63-66 | The tolerated (n − 1)/3 faulty validators are fewer than that, by exactly one for n = 3f + 1 distinct keys. |
| BeefyAgreement.SessionsAgree | substrate/client/beefy/src/round.rs:63-169 | With fewer than 2T − m equivocators, and so with at most (n − 1)/3, no two sessions over one validator set conclude different payloads for a number, whatever votes each sees. |
| BeefySplit.BoundIsTight | substrate/client/beefy/src/round.rs:63-169 | The bound is tight for every validator set that can conclude anything: with exactly 2T − m equivocators two authentic runs conclude any two payloads for any block. |
| BeefySplit.TooFewMembersNeverConclude | substrate/client/beefy/src/round.rs:63-66 | A set with fewer distinct keys than the threshold never concludes a round. |
| BeefyRounds.NoSecondSelfVote | substrate/client/beefy/src/round.rs:43-54 | Once a local vote was counted for a round, the session never asks for another. |
| BeefyProof.ConcludedProofIsAccepted | substrate/client/beefy/src/justification.rs:44-79 | The signatures of a concluded round make a proof the session's own set accepts, even when the set repeats a key. |
| BeefyProof.AcceptanceProvesQuorum | substrate/client/beefy/src/justification.rs:44-79 | Acceptance proves a threshold of distinct signers exactly for the validator sets that list no key twice. |
| BeefyProof.AcceptsExactly | substrate/client/beefy/src/justification.rs:44-79 | Acceptance is a count of slots for every validator set; without repeated keys it is a count of signers. |
| BeefyProof.AcceptedProofHasQuorum | substrate/client/beefy/src/justification.rs:44-79 | Over a set without repeated keys an accepted proof carries a threshold of distinct signers, all members. |
| BeefyProof.RepeatedKeyFakesQuorum | substrate/client/beefy/src/justification.rs:44-79 | Every set that repeats a key accepts some proof with too few distinct signers. |
| BeefyProof.ConcludedProofExact | substrate/client/beefy/src/justification.rs:44-79 | The proof of a concluded round is accepted exactly when as many slots as the threshold belong to counted votes that verify over the commitment naming the session's set; without repeated keys, as many votes. |
| BeefyTarget.VoteTargetExact | substrate/client/beefy/src/worker.rs:877-929 | Past the mandatory block a target lies in (best BEEFY, best GRANDPA] exactly when adding the minimum delta does not wrap, and then exists exactly when the gap is at least that delta. |
| BeefyTarget.MandatoryTarget | substrate/client/beefy/src/worker.rs:877-893 | Until the mandatory block is final it is the target, as soon as GRANDPA has it. |
| BeefyTarget.PowerOfTwoTarget | substrate/client/beefy/src/worker.rs:893-925 | Past it the target is best BEEFY plus the least power of two that is at least half the gap, or plus the minimum delta if that is more, if GRANDPA has that block; sums wrap. |
| BeefyTarget.PowerExists | substrate/client/beefy/src/worker.rs:900-908 | There always is such a power of two. |
| BeefyTarget.VotersMeet | substrate/client/beefy/src/worker.rs:893-925 | Voters whose gaps round to the same power of two vote for the same block. |
| BeefyTarget.VoteTargetHalves | substrate/client/beefy/src/worker.rs:877-929 | Finalizing the target leaves at most half the gap exactly when the gap plus one fits 32 bits, or the delta itself reaches that far. |
| BeefyTarget.CatchUpIsFast | substrate/client/beefy/src/worker.rs:877-929 | At most ⌊log2 gap⌋ + 1 finalized targets bring the gap below the minimum delta, one more when the gap spans all 32 bits. |
| BeefySafety.FinalizeKeeps | substrate/client/beefy/src/worker.rs:462-499 | Finalizing an accepted block keeps the session queue in its documented states and never loses a pending mandatory block. |
| BeefySafety.HandleVoteFinalizes | substrate/client/beefy/src/worker.rs:421-454 | Concluding in the round and again in `finalize` is one finalization with the vote added. |
| BeefySafety.HandleVoteKeeps | substrate/client/beefy/src/worker.rs:421-454 | A vote up to the end of the accepted interval keeps the invariant. |
| BeefySafety.InitSessionsKeeps | substrate/client/beefy/src/worker.rs:312-344 | New sessions join the queue in order and keep it in its documented states. |
| BeefySafety.HandleFinalityKeeps | substrate/client/beefy/src/worker.rs:346-374 | A finality notification moves best GRANDPA, queues every announced session and keeps the invariant. |
| BeefySafety.TriageVoteKeeps | substrate/client/beefy/src/worker.rs:377-396 | An incoming vote keeps the invariant, whether handled, buffered or dropped. |
| BeefySafety.TriageJustificationKeeps | substrate/client/beefy/src/worker.rs:401-419 | An incoming justification keeps the invariant, whether handled, buffered or dropped. |
| BeefySafety.ReplayKeeps | substrate/client/beefy/src/worker.rs:502-553 | Replaying buffered items keeps the invariant. |
| BeefySafety.TryToVoteKeeps | substrate/client/beefy/src/worker.rs:556-652 | The local vote keeps the invariant. |
| BeefySafety.RunKeeps | substrate/client/beefy/src/worker.rs:69-652 | Every run of worker events keeps the invariant, and published proofs are only ever appended to. |
| BeefySafety.MandatoryFirst | substrate/client/beefy/src/worker.rs:117-132 | No block above a known session's start is published before that start is. |
| BeefySafety.RunIsSafe | substrate/client/beefy/src/worker.rs:312-566 | Over every run the queue is in one of its three states, published numbers strictly increase and never pass best GRANDPA, and mandatory blocks come first. |
| BeefyReplay.ReplaySplits | substrate/client/beefy/src/worker.rs:506-518 | Buffered items are handled, kept or dropped; none is lost, doubled or changed. |
| BeefyReplay.ReplayAgreesWithTriage | substrate/client/beefy/src/worker.rs:135-148 | Replay handles, keeps and drops exactly what triage says for the same interval, with the largest number as the one exception. |
| BeefyReplay.BatchStaysInSession | substrate/client/beefy/src/worker.rs:502-553 | A batch of votes touches only the session it was let in for, even when it moves the queue on. |
| BeefyReplay.ReplayVotesStaysInSession | substrate/client/beefy/src/worker.rs:536-549 | Replaying all buffered votes touches no later session and keeps exactly the votes past the interval. |
| BeefyReplay.InitializeExact | substrate/client/beefy/src/worker.rs:658-722 | Start-up gives a safe voter exactly when the header is at least block 1 or the active set is not the genesis set. |
| BeefyReplay.InitializesExactly | substrate/client/beefy/src/worker.rs:658-722 | A voter starts with best GRANDPA at the notified header and one session: at block 1 under the genesis set, else at the last block with a justification, which is then final, or with an announced set; it fails exactly without one. |
| BeefyReplay.VoterRunIsSafe | substrate/client/beefy/src/worker.rs:658-722 | Safety of whole runs, from start-up on. |
| BeefyReplay.PublishedProofIsAccepted | substrate/client/beefy/src/worker.rs:421-454 | A proof that `handle_vote` publishes is accepted by the session's set when each counted vote was signed over the commitment naming that set. |
| BeefyReplay.PublishedProofExact | substrate/client/beefy/src/worker.rs:421-454 | In general it is accepted exactly when as many slots as the threshold belong to counted votes that verify over that commitment. |
| BeefyReplay.SessionProofsAreAccepted | substrate/client/beefy/src/round.rs:116-161 | In every run of a session over such votes, a done round yields an accepted proof. |
| BeefyReplay.ForeignSetIdSpoilsProof | substrate/client/beefy/src/worker.rs:377-396 | An input where it is not: a vote signed for another set id is counted and spoils the proof. |
| BeefyProvenance.FrontGoverns | substrate/client/beefy/src/worker.rs:117-148 | Whatever number the worker accepts belongs to the session at the front: its set governs the block. |
| BeefyProvenance.StartGoverns | substrate/client/beefy/src/worker.rs:658-722 | The session a voter starts with, found by walking back, votes with the set that governs its blocks. |
| BeefyProvenance.RunStaysSourced | substrate/client/beefy/src/worker.rs:312-652 | Over every run the sessions follow the chain's validator sets, and each published proof is a justification that was given or is assembled, for the set of its block, from votes that were cast. |
| BeefyProvenance.RunProofsExact | substrate/client/beefy/src/worker.rs:312-652 | Over every run from start-up a published proof is accepted by the set of its block exactly when it is a given justification or votes that name that set fill as many slots as the threshold. |
| BeefyProvenance.RunProofsAreAccepted | substrate/client/beefy/src/worker.rs:312-652 | When every vote names the set of its block, every published proof is accepted, even with repeated keys. |
| BeefyDelivery.TriageVoteExact | substrate/client/beefy/src/worker.rs:377-398 | A vote in the accepted interval is handled; above it, it goes last in the buffer of its number and nothing else changes; otherwise nothing does. |
| BeefyDelivery.TriageJustificationExact | substrate/client/beefy/src/worker.rs:401-419 | The same for a justification, except that the first one buffered for a number stays. |
| BeefyDelivery.FinalityAdvances | substrate/client/beefy/src/worker.rs:346-374 | A notification moves best GRANDPA up to its header, and an old one changes nothing. |
| BeefyDelivery.RunAccounts | substrate/client/beefy/src/worker.rs:377-555 | Over every run a vote that came in is waiting in the buffer, counted, stale, or not a member's: none is lost. |
| BeefyDelivery.RunAccountsJustification | substrate/client/beefy/src/worker.rs:401-555 | Over every run a justification that came in has its number waiting, final, or in a session that is over. |
| BeefyDelivery.QuorumIsFinal | substrate/client/beefy/src/worker.rs:377-555 | Once a threshold of members has voted for a block, at any time and in any order, and the block is in reach, one replay makes it or a later one final and published; justifications are replayed first, so votes behind a waiting one count. |
| BeefyDelivery.JustificationIsFinal | substrate/client/beefy/src/worker.rs:401-555 | A justification that came in makes its block final after replay in the same way. |
| BeefyDelivery.VotingTargetExact | substrate/client/beefy/src/worker.rs:152-180 | A running voter's target: the mandatory block of its front session until that is final, then a power of two or the minimum delta above best BEEFY. |
| BeefyDelivery.DeltaIsConfigured | substrate/client/beefy/src/worker.rs:85-91 | Over every run the minimum delta is the configured one, and at least one. |
| BeefyDelivery.LocalVoteCounted | substrate/client/beefy/src/worker.rs:556-652 | A complete ballot for the target, by a member that has not voted on it, is counted as the worker's own vote, unless it makes the block final. |
| BeefyDelivery.NoVoteCast | substrate/client/beefy/src/worker.rs:556-652 | Without a target, payload, key or signature nothing is cast. |
| BeefyWorker.VotingRounds.AddVote | substrate/client/beefy/src/round.rs:116-136 | The mutable rounds refine the model and say whether the vote counted. |
| BeefyWorker.VotingRounds.TryConclude | substrate/client/beefy/src/round.rs:138-161 | The same, with the signatures in validator order. |
| BeefyWorker.VotingRounds.Conclude | substrate/client/beefy/src/round.rs:163-169 | The same for concluding a number. |
| BeefyWorker.Worker.TryPrune | substrate/client/beefy/src/worker.rs:109-114 | Dropping finished sessions in place is the model's prune. |
| BeefyWorker.Worker.HandleFinalityNotification | substrate/client/beefy/src/worker.rs:346-374 | The mutable handler, loop over the route included, refines the model. |
| BeefyWorker.Worker.Finalize | substrate/client/beefy/src/worker.rs:462-499 | The mutable `finalize` refines the model. |
| BeefyWorker.Worker.HandleVote | substrate/client/beefy/src/worker.rs:421-454 | The mutable `handle_vote` refines the model. |
| BeefyWorker.Worker.TriageIncomingVote | substrate/client/beefy/src/worker.rs:377-396 | The mutable vote triage refines the model. |
| BeefyWorker.Worker.TriageIncomingJustification | substrate/client/beefy/src/worker.rs:401-419 | The mutable justification triage refines the model. |
| BeefyWorker.Worker.TryPendingJustifAndVotes | substrate/client/beefy/src/worker.rs:502-553 | The two replay loops refine the model. |
| BeefyWorker.Worker.TryToVote | substrate/client/beefy/src/worker.rs:556-652 | The local vote on the mutable worker refines the model. |
| BeefyWorker.Worker.InitializeVoter | substrate/client/beefy/src/worker.rs:658-722 | The walk back to the last session start refines the model. |
| StateCacheCoherence.SameValue | substrate/client/db/src/storage_cache.rs:471-520 | A key changed by no block on only one of two paths has one value at the end of both. |
| StateCacheCoherence.AllowedMeans | substrate/client/db/src/storage_cache.rs:471-520 | When the scan of recent blocks admits a key for a block, the block and the best block hold one value for it. |
| StateCacheCoherence.AdmittedExactly | substrate/client/db/src/storage_cache.rs:471-513 | A key is admitted for a block exactly when some canonical entry is reached from it through the parent links before that entry, and no entry before it has the key. |
| StateCacheCoherence.AdmittedIsExact | substrate/client/db/src/storage_cache.rs:471-579 | In a coherent cache whatever is admitted and present, value or digest, is what the asking block's own state holds. |
| StateCacheCoherence.MarkAllMeans | substrate/client/db/src/storage_cache.rs:172-217 | Marking blocks removes their keys, and no others, and sets exactly their flags. |
| StateCacheRuns.SyncKeeps | substrate/client/db/src/storage_cache.rs:172-226 | Following an exact route to a new best block keeps the cache coherent, or wipes it. |
| StateCacheRuns.SyncExact | substrate/client/db/src/storage_cache.rs:172-226 | A route of listed blocks is followed, setting their flags and purging the keys of its blocks and no others; any other route wipes the cache. |
| StateCacheRuns.EvictionKeeps | substrate/client/db/src/storage_cache.rs:111-140 | Losing entries keeps it coherent. |
| StateCacheRuns.BestCommitKeeps | substrate/client/db/src/storage_cache.rs:330-443 | Committing a new best block, local reads and changes included, keeps the cache coherent with it. |
| StateCacheRuns.SideCommitKeeps | substrate/client/db/src/storage_cache.rs:330-443 | Committing any other block keeps the cache coherent. |
| StateCacheRuns.ReadsCommitKeeps | substrate/client/db/src/storage_cache.rs:929-945 | A sync without a block, as dropping a state on the best block makes it, brings in that state's reads and keeps the cache coherent. |
| StateCacheRuns.CommitKeeps | substrate/client/db/src/storage_cache.rs:330-443 | Every such call, for any block, first time or again, with whatever reorganization comes along, or without a block, keeps the cache coherent. |
| StateCacheRuns.CommitContents | substrate/client/db/src/storage_cache.rs:374-442 | Key by key, a commit leaves a best block's own write, else what was read under it, else what the route left; another block adds nothing. |
| StateCacheRuns.CommitDigests | substrate/client/db/src/storage_cache.rs:374-442 | Digests of written keys are forgotten, digests read under a best block are added, others stay. |
| StateCacheRuns.RecordedList | substrate/client/db/src/storage_cache.rs:396-442 | A recorded block goes in its place by number, and the list loses its last entry only when it has twelve. |
| StateCacheRuns.RunListBounded | substrate/client/db/src/storage_cache.rs:396-442 | At any time at most twelve blocks are listed. |
| StateCacheRuns.RecordedFirst | substrate/client/db/src/storage_cache.rs:340-442 | After a commit the block is listed, and counts as canonical exactly when it was committed as best. |
| StateCacheRuns.BestWritesAreServed | substrate/client/db/src/storage_cache.rs:396-513 | After a best block is committed with its parent hash, each of its writes is cached, and admitted for it exactly when no earlier entry has the key. |
| StateCacheRuns.RunKeeps | substrate/client/db/src/storage_cache.rs:172-443 | So does every run of commits, reorganizations, wipes and evictions. |
| StateCacheRuns.RunAnswersExactly | substrate/client/db/src/storage_cache.rs:471-555 | After any such run from an empty cache an admitted entry has exactly the value, or digest, of the asking block's uncached state. |
| StateCacheRuns.UnrecordedCommitExact | substrate/client/db/src/storage_cache.rs:396-442 | A best block committed without a parent hash, along any route, leaves the cache coherent exactly when it is on the old best path or was listed, or when, with the route's keys purged, what is cached of its changes is current and either nothing changed or no listed block counts as canonical. |
| StateCacheRuns.UnrecordedCommitGoesStale | substrate/client/db/src/storage_cache.rs:396-442 | An input where it is not, and the next block reads a replaced value. |
| StateCache.LRUMap.Remove | substrate/client/db/src/storage_cache.rs:102-109 | The entry goes and the size counter stays the sum of what is left. |
| StateCache.LRUMap.Add | substrate/client/db/src/storage_cache.rs:111-140 | The entry is stored, then the oldest entries go, no more than the limit asks for, and the counter is exact. |
| StateCache.LRUMap.Get | substrate/client/db/src/storage_cache.rs:143-149 | A hit becomes the newest entry; contents do not change. |
| StateCache.SharedCache.constructor | substrate/client/db/src/storage_cache.rs:235-250 | A new shared cache is empty, and its limits are the shares of the total size. |
| StateCache.SharedCache.AddValues | substrate/client/db/src/storage_cache.rs:381-391 | Values go to the map of their kind; none is altered, and with room none is evicted. |
| StateCache.SharedCache.Sync | substrate/client/db/src/storage_cache.rs:172-226 | The loops over enacted and retracted blocks, and the wipe, refine the model. |
| StateCache.ScanAllowed | substrate/client/db/src/storage_cache.rs:471-520 | The loop over recent blocks decides what the model's scan decides. |
| StateCache.CachingState.Storage | substrate/client/db/src/storage_cache.rs:528-555 | Reading through both caches returns what the backend holds, top or child key, and changes no cached value; one that the shared cache serves becomes the newest there, any other is noted locally. |
| StateCache.CachingState.StorageHash | substrate/client/db/src/storage_cache.rs:557-579 | The same for the digest of a value. |
| StateCache.CachingState.SyncCache | substrate/client/db/src/storage_cache.rs:330-443 | Committing on the mutable caches is the model's commit but for evictions, exactly so with room for reads and changes, and keeps the shared cache coherent. |
| StateCache.CachingState.SyncOnDrop | substrate/client/db/src/storage_cache.rs:929-945 | Dropping a state passes its reads on if it stands on the best block, and keeps the shared cache coherent. |
| LeafSetModel.ImportUndone | substrate/client/api/src/leaves.rs:310-317 | `undo_import` restores every leaf, up to order in a level, exactly when the block was new and its parent listed at most once. |
| LeafSetModel.RemoveUndone | substrate/client/api/src/leaves.rs:320-327 | `undo_remove` restores every leaf, up to order in a level, exactly when the leaf was listed once and the parent was new. |
| LeafSetModel.FinalizationUndone | substrate/client/api/src/leaves.rs:330-332 | Undoing a finalization restores the leaf map exactly; the displaced leaves are those below the height. |
| LeafSetModel.FinalizationsMerge | substrate/client/api/src/leaves.rs:52-60 | Finalizing twice and merging is finalizing the higher block once, in either order. |
| LeafSetModel.RevertExact | substrate/client/api/src/leaves.rs:202-229 | The assertion in `revert` fails exactly when a level above the target lists a hash twice; otherwise the levels up to the target stay, with the target among them. |
| LeafSetRuns.ImportKeeps | substrate/client/db/src/lib.rs:1549-1576 | An import keeps leaves and tree in step exactly when the block can still be finalized or its parent is no leaf. |
| LeafSetRuns.RemoveKeeps | substrate/client/db/src/lib.rs:2235-2289 | An accepted leaf removal removes one childless block and keeps leaves, children lists and tree in step. |
| LeafSetRuns.RemoveAcceptsChildless | substrate/client/db/src/lib.rs:2235-2262 | Of the blocks that can still be finalized, exactly the childless ones that are not best and have state can be removed. |
| LeafSetRuns.RemoveRefusesExactly | substrate/client/db/src/lib.rs:2235-2290 | Which error a refused removal gives: best block, unknown block, missing state, or not a leaf. |
| LeafSetRuns.OperationEffects | substrate/client/db/src/lib.rs:2235-2290 | Importing, removing and finalizing change the blocks, the best block and the finalized height as named and no others; finalizing drops exactly the leaves below. |
| LeafSetRuns.FinalizeKeeps | substrate/client/db/src/lib.rs:1704-1704 | Finalizing a height keeps them in step. |
| LeafSetRuns.LeavesAreChildless | substrate/client/api/src/leaves.rs:106-152 | After every run each leaf is a childless block listed once, every childless block above the finalized height is a leaf, without finalization the leaves are the childless blocks, and `revert` never fails. |
| LeafSetRuns.LateImportLeavesStaleLeaf | substrate/client/db/src/lib.rs:1549-1559 | A block imported at the finalized height on a leaf below it leaves that leaf listed although it has a child. |
| LeafSet.LeafSet.RemoveLeaf | substrate/client/api/src/leaves.rs:265-290 | The in-place removal drops every copy, and an emptied level, and says whether there was one. |
| LeafSet.LeafSet.Import | substrate/client/api/src/leaves.rs:106-120 | The mutable import and its outcome are the model's. |
| LeafSet.LeafSet.Remove | substrate/client/api/src/leaves.rs:129-152 | The mutable removal and its outcome are the model's. |
| LeafSet.LeafSet.FinalizeHeight | substrate/client/api/src/leaves.rs:161-170 | What is displaced is what the simulation says, and the rest stays. |
| LeafSet.LeafSet.DisplacedByFinalizeHeight | substrate/client/api/src/leaves.rs:177-188 | The simulation names exactly the leaves that finalizing would displace. |
| LeafSet.LeafSet.UndoImport | substrate/client/api/src/leaves.rs:310-317 | The mutable undo of an import is the model's. |
| LeafSet.LeafSet.UndoRemove | substrate/client/api/src/leaves.rs:320-327 | The mutable undo of a removal is the model's. |
| LeafSet.LeafSet.UndoFinalization | substrate/client/api/src/leaves.rs:330-332 | Appending the displaced leaves gives back the leaf map they came from. |
| LeafSet.LeafSet.Revert | substrate/client/api/src/leaves.rs:202-229 | The loop succeeds exactly when no level above the target repeats a hash, with the result of the model. |
| CanonicalIndex.KeyRoundTrip | substrate/client/db/src/utils.rs:95-101 | A number has a key exactly below 2^32: four bytes, most significant first, from which it is read back. |
| CanonicalIndex.LookupKeyExact | substrate/client/db/src/utils.rs:106-114 | A lookup key is the four bytes of the number, then the hash. |
| CanonicalIndex.RetractMeans | substrate/client/db/src/lib.rs:1213-1227 | Retracting takes exactly the entries above the common block away, or fails when the finalized block is among them. |
| CanonicalIndex.EnactMeans | substrate/client/db/src/lib.rs:1229-1238 | Enacting adds exactly the entries of the new branch. |
| CanonicalIndex.RetractedMeans | substrate/client/db/src/lib.rs:2792-2849 | The blocks a route retracts are those only the old path has. |
| CanonicalIndex.SetHeadExact | substrate/client/db/src/lib.rs:1186-1251 | A head change succeeds exactly when it is not too old, its route does not leave the finalized block behind and its number has a key. The index is then the path to the new head exactly when a route was walked or the head is a first block with nothing above it; hash keys are untouched. |
| CanonicalIndex.SetHeadEntries | substrate/client/db/src/lib.rs:1186-1251 | Any head change, whatever it is called with, fails with its error or leaves exactly the walked path with the head entered at its number. |
| CanonicalIndex.RevertsExactly | substrate/client/db/src/lib.rs:1213-1227 | The route leaves the finalized block behind exactly when the new path does, or when the finalized block itself is imported again as the head. |
| CanonicalRuns.IndexIsBestPath | substrate/client/db/src/lib.rs:1186-1251 | After every run, with blocks imported once or again, the number index leads to the blocks of the path from genesis to the best block and to nothing above, and the finalized block is on it. |
| CanonicalRuns.ImportedStays | substrate/client/db/src/lib.rs:1383-1392 | A block that is imported is in the tree with its header to the end of every run, and is the best block right after an import as best. |
| CanonicalRuns.HeadIsSet | substrate/client/db/src/lib.rs:1626-1648 | Setting the head takes effect exactly when the head change succeeds, and changes no block. |
| CanonicalRuns.FinalizedIsLast | substrate/client/db/src/lib.rs:1272-1297 | After every run the finalized block is the one finalized last. |
| CanonicalRuns.HeadIsLinkedExactly | substrate/client/db/src/lib.rs:1206-1251 | After an import of a head above number zero, known before or not, the entry below it is its parent exactly when there was a best block and the parent is known; a detached head is never linked. |
| CanonicalBackend.InsertNumberToKeyMapping | substrate/client/db/src/utils.rs:127-139 | Appending the mapping to the transaction has the model's effect once committed. |
| CanonicalBackend.RemoveNumberToKeyMapping | substrate/client/db/src/utils.rs:116-123 | The same for removing a mapping. |
| CanonicalBackend.SetHeadWithTransaction | substrate/client/db/src/lib.rs:1186-1251 | The transaction filled while walking the route has, once committed, the effect of the model's head change, error for error. |
| DisplacedBranches.LeafWalkMeans | substrate/client/db/src/lib.rs:1744-1762 | Walking back from a leaf prunes the leaf, unless it is the block at the finalized number, and its ancestors off the canonical chain. |
| DisplacedBranches.PrunesExactly | substrate/client/db/src/lib.rs:1738-1765 | From leaves off the canonical chain exactly the rest of their branches off it is pruned. |
| DisplacedBranches.CanonicalPrunedOnlyAsLeaf | substrate/client/db/src/lib.rs:1738-1765 | A canonical block is pruned exactly when it is itself a displaced leaf away from the finalized number. |
| DisplacedBranches.DisplacedLeafIsOffChain | substrate/client/db/src/lib.rs:1745-1752 | A childless block below the finalized one is not canonical. |
| DisplacedBranches.DisplacedPrunedExactly | substrate/client/db/src/lib.rs:1738-1765 | For childless leaves below the finalized number exactly the leaves and the part of their branches off the canonical chain are pruned. |
| DisplacedBranches.CanonicalPrunedExactly | substrate/client/db/src/lib.rs:1738-1765 | A canonical block is pruned exactly when it is the best block and was displaced as a leaf, which finality up to the best block never does. |
| DisplacedBranches.FinalImportPrunes | substrate/client/db/src/lib.rs:1534-1559 | Of the chain that a block imported as final finalizes, exactly a parent that was a leaf and what displaced branches share below the canonical chain are pruned. |
| DisplacedBranches.FinalImportKeepsChain | substrate/client/db/src/lib.rs:1534-1559 | On top of the canonical chain such an import keeps all bodies of that chain exactly when the parent was not a leaf. |
| DisplacedBranches.FinalImportPrunesParent | substrate/client/db/src/lib.rs:1534-1559 | An input where the parent of a block imported as final loses its body. |
| DisplacedBranches.PruneDisplacedBranches | substrate/client/db/src/lib.rs:1738-1765 | The nested loops terminate with the blocks of the walk, and so prune exactly that. |
| IndexedBody.TrailingIgnored | substrate/client/db/src/lib.rs:599-613 | A decoder that is done has no use for the bytes that follow. |
| IndexedBody.JoinInput.Read | substrate/client/db/src/utils.rs:568-578 | A read of any size succeeds, fills the buffer and advances exactly as on the concatenated slices. |
| IndexedBody.DecodeJoined | substrate/client/db/src/lib.rs:599-613 | Decoding from the joined slices is decoding from their concatenation, for every decoder. |
| IndexedBody.EntryReadsBack | substrate/client/db/src/lib.rs:1860-1889 | A stored extrinsic reads back exactly when the data under its hash is there. |
| IndexedBody.IndexExact | substrate/client/db/src/lib.rs:1861-1893 | Entry i is decided by the operations on extrinsic i: the last renewal keeps the whole encoding, else the last insertion that fits keeps what it does not cut off, else the extrinsic is stored in full. |
| IndexedBody.StoreAllExact | substrate/client/db/src/lib.rs:1861-1893 | The store keeps what it had, holds every cut under its hash, and nothing else new. |
| IndexedBody.BodyRoundTrip | substrate/client/db/src/lib.rs:1842-1899 | A body stored with any index operations reads back as it was exactly when the data named by the last renewal of every renewed extrinsic is in the store. |
| IndexedBody.ApplyIndexOps | substrate/client/db/src/lib.rs:1842-1899 | The loops over operations and extrinsics leave for every extrinsic the entry, and in the store the data, that the last operations on that extrinsic ask for. |
| IndexedBody.Body | substrate/client/db/src/lib.rs:593-636 | Reading gives every extrinsic, or the error of the first one that cannot be read. |
| OffchainCas.MutualExclusion | substrate/client/db/src/offchain.rs:91-100 | At most one thread at a time is between taking and releasing the lock of a key. |
| OffchainCas.CallTouchesItsKey | substrate/client/db/src/offchain.rs:78-100 | A call reads and writes the database under its prefix followed by its item's key, and changes no other key. |
| OffchainCas.LockMapKept | substrate/client/db/src/offchain.rs:86-111 | Every step of every thread keeps handles, entries and locks in step. |
| OffchainCas.OwnersKept | substrate/client/db/src/offchain.rs:91-100 | Every step keeps lock owners and critical sections in step. |
| OffchainLinear.WriteExact | substrate/client/db/src/offchain.rs:93-100 | In any order that explains the run so far, the write of a thread that found what it expects has a place that gives the real database exactly when the key holds, at that moment, what it found or already what it writes. |
| OffchainLinear.StepExplained | substrate/client/db/src/offchain.rs:78-113 | Every step, overwriting ones included, can be added to the order, as long as a call finds what it expects exactly if it does in the order: a write whose value was taken away had its effect before the plain write that took it. |
| OffchainLinear.InStepExactly | substrate/client/db/src/offchain.rs:56-100 | A key has its real value in the order after a plain write of it, and after a call's write exactly when that overwrote no other plain write; nothing else changes that. |
| OffchainLinear.SparingRunsAllowed | substrate/client/db/src/offchain.rs:56-72 | Runs whose plain writes and removals take nothing from a thread about to write are all explained, with the real database at the end; runs of calls alone are among them. |
| OffchainLinear.Linearizable | substrate/client/db/src/offchain.rs:78-113 | The history of every run in which calls find what they expect exactly if they do in the order has moments of effect, one between the invocation and the answer of each call and with the answered result, that make it a sequential run to the database of that order. |
| OffchainLinear.LockMapExact | substrate/client/db/src/offchain.rs:86-111 | At any time all handles on a key are to one lock, and the map has an entry exactly for the keys in use. |
| OffchainLinear.QuiescentMapEmpty | substrate/client/db/src/offchain.rs:103-111 | Once every thread has returned, the lock map is empty and no lock is held. |
| OffchainLinear.SomeoneMoves | substrate/client/db/src/offchain.rs:78-113 | No deadlock: while a call is under way some thread can go on. |
| OffchainLinear.PlainWriteBetweenIsLost | substrate/client/db/src/offchain.rs:93-100 | An input where a plain write in between is lost: no place in the order explains the call. |
| GrandpaAncestry.MinByNumber | substrate/client/finality-grandpa/src/justification.rs:85-98 | The base is the first precommit of the lowest number; there is none only without precommits. |
| GrandpaAncestry.TreeIsRanked | substrate/client/finality-grandpa/src/justification.rs:287-309 | Headers whose parents are one number lower make every walk back end. |
| GrandpaAncestry.FloorNeverStops | substrate/client/finality-grandpa/src/justification.rs:109-114 | With the base at its own number, the number check never stops a walk that would arrive. |
| GrandpaAncestry.RouteAboveExact | substrate/client/finality-grandpa/src/justification.rs:101-126 | The producer's number check costs exactly the routes that pass a header not above the lowest number. |
| GrandpaAncestry.AcceptsExactly | substrate/client/finality-grandpa/src/justification.rs:207-257 | Of lists of known headers the verifier accepts exactly those whose hashes are the ones on the precommits' routes. |
| GrandpaAncestry.RepeatedHeaderPasses | substrate/client/finality-grandpa/src/justification.rs:243-257 | A header given twice makes no difference to the verifier. |
| GrandpaAncestry.FromCommit | substrate/client/finality-grandpa/src/justification.rs:70-129 | Headers are produced exactly when every precommit routes to the lowest one above its number; they are known, distinct and accepted by the verifier's ancestry checks. |
| GrandpaAncestry.Ancestry | substrate/client/finality-grandpa/src/justification.rs:287-309 | The route without its first block and without the base, or an error when a header is missing. |
| GrandpaAncestry.VerifyWithVoterSet | substrate/client/finality-grandpa/src/justification.rs:169-259 | With a valid commit the verdict is good exactly when all precommits are signed and the headers accepted; headers are reported unused exactly when the routes exist and the sets differ; an invalid signature or ancestry is reported exactly when it is the first problem met. |

## Left out

- Gossip, keystore, block import and notification streams of BEEFY: networking and cryptography; votes are taken as authentic, signatures are an abstract predicate.
- `verify_validator_set` and the payload and MMR root lookups of the BEEFY worker: runtime and digest access; their results are parameters of the local vote.
- Block numbers of BEEFY are 32-bit as in the runtimes; other widths would only move the wrap-around bounds.
- Hashes, keys, digests and signatures are numbers or byte strings; collisions of hash functions are excluded by having one block per hash.
- `StateDb`, tries, `validate_commit`, the internals of `tree_route` and the SCALE codec: external code, used through contracts; a decoder is any program that reads bytes and then decides, and its use of `remaining_len` is not modelled.
- Sizes in the cache are lengths, not vector capacities, and the digest size is 32 bytes; usage statistics are not modelled.
- The changes of a block are a map from keys to values, so a key listed twice in one change list counts with its last value, and the order of additions to the LRU maps is left open.
- The read-write locks of the shared cache: each read, commit and sync is one step.
- Reference counts of indexed transactions: two displaced leaves can release a shared ancestor twice; only presence of data is modelled.
- Storing data under a hash that is already present keeps the old data; with consistent hashes this is the same data.
- Monotone finalized numbers and atomicity of in-memory leaves with the commit: the code does not promise them; finalization steps are assumed not to go down.
- The block gap, warp sync of detached blocks and header caches of the database.
- `LeafSet::read_from_db` and `prepare_transaction`, `hashes`, `count`, `highest_leaf`: persistence and one-line queries.
- The loop of `Backend::revert`: only the leaf set's part of it is modelled.
- Failures of the state backend behind the cache: a backend read always answers.
- Plain reads of the offchain storage, and failures of the database itself.
- The encodings of justifications and the round, set id and signature checks of GRANDPA, which enter as the results of those checks.
- Block authorship, CLI, chain specification, executor glue, authority discovery, metrics, database opening and upgrades.
- HeapSafety.RunKeepsInvariant: in its runs a request whose free list is empty finds the bumper plus the chunk of that order below 2^32; beyond it `bump` wraps, as BumpWrapsNearTheTop shows.
- OffchainLinear.Linearizable: leaves out runs in which a call reads a key between an overwritten plain write and the next one and is thereby answered otherwise than in the order; orders that also move other unanswered calls are not considered.
- CanonicalRuns.IndexIsBestPath: its runs make no detached block the head, no first block the head of a chain that has grown, and finalize blocks of the best chain only, which the code leaves to its callers; SetHeadExact and HeadIsLinkedExactly say what the first two do.
- BeefyDelivery.QuorumIsFinal: for every block number but the largest of 32 bits, which replay leaves buffered, as BeefyReplay.ReplayAgreesWithTriage shows.
- BeefyDelivery.JustificationIsFinal: for every block number but the largest of 32 bits, for the same reason.
