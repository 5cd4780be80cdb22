# Verified models of the memory and hashing cores

This project models six parts of the ROCm compatibility layer and proves what they promise: the
single-counter accounting of the pinned host pool, the open-addressing hash set, xxHash64 with the
blocked Bloom filter, reservations on memory spaces and their manager, exclusive stream lending, and
the reservation-aware GPU adaptor with its spill cascade. `dafny verify dfyconfig.toml` checks all of it.

## How the models are built

Code that updates fields becomes a class whose methods do the same updates; what each method does is
stated by specification functions, and the promises are lemmas about those functions and invariants
the methods keep. Code that runs on several threads becomes, in addition, a step model: a `State`, an
`Action` per atomic step (one load, one compare-and-swap, one atomicOr, one locked span, one driver
call), `Enabled` and `Apply`. A run is any sequence of states from the initial one in which each step
belongs to any thread, so a lemma over `run` and `events` speaks about every schedule. A weak
compare-and-swap may fail for no reason (`spurious`); the last loaded value is then reloaded. Allocators
and policies are parameters that fail or return a pointer that is not out.

| files | what they model |
|---|---|
| `HostAccounting`, `HostResource` | the overflow formulas with their int64 casts, the potential, and the pool as a class |
| `HostInterleaving`, `HostRuns`, `HostAdmission`, `HostPinned` | the pool under any number of threads, what holds over whole runs, when a request may be refused, and how far pinned memory and the counter can be apart |
| `Stride`, `ProbeWords`, `StaticSet`, `StaticSetRace`, `StaticSetComplete`, `StaticSetKeys` | double hashing in 64-bit arithmetic and in the shifts of the code, the table, racing insert and lookup threads, which capacities store every batch, and the table with the default hash |
| `Word64`, `XxHashSpec`, `XxHash`, `XxHashKeys` | 64-bit words, XXH64 as specified, the pointer loops, and keys of 4 and 8 bytes |
| `XxHashStripes`, `XxHashTail`, `MachineWords`, `XxHashEval`, `XxHashKnown` | what every stripe, lane, byte, length and seed does to the result, and five known hashes computed step by step |
| `Bloom`, `BloomPolicies`, `BloomBlocks`, `BloomRace` | the word array as a set of bits, the two policies and the size check, which blocks keys reach, racing kernels |
| `MemorySpace`, `MemorySpaceRace`, `MemorySpaceAdmission` | the three reservation calls and the release, alone and racing, and when a call may be refused |
| `RequestDecision`, `ReservationManager` | what the two passes of a request decide, the strategies, and the manager as a class |
| `RequestRace`, `RequestAdmission`, `RequestCompleteness` | requests over several spaces under any number of threads, what their answers go by, and when they are complete |
| `StreamPool`, `StreamLending` | the pool and the handle as classes, and every history of acquiring and moving handles |
| `GpuBooks`, `GpuAdaptor`, `GpuAdaptorRace`, `GpuCascade`, `GpuLimits` | the adaptor's records, the cascade as a class, the adaptor under threads, the order of its cascade, and how far a stream can pass its limit |
| `Width`, `Sums`, `Search` | integer widths, sums over maps, the first flag that is set, and fresh numbers |

## The central arguments

* Host pool. The counter is a potential: every registered reservation at max(size, used), every live
  byte without a registered reservation once, plus what threads in flight hold, less what the mutex
  holder has put on a tracker and not on the counter. Each of the eighteen kinds of step keeps it.
* Refusals. For the pool, a memory space and the manager, what a thread refuses by it has read since its
  request, so the counter was too full at some moment in between; with no other thread's step in between,
  the answer is exact; and no thread is ever stuck. In the cascade, whoever is asked comes after
  exactly the tiers before it have refused.
* Hash set. A stored key has only filled slots earlier on its path, filled slots never change, and an
  odd stride visits all slots of a power-of-two table; a pigeonhole over distinct keys does the rest.
  For any other capacity some key's path never visits some slot.
* xxHash64. The loops are proved over abstract words against Steps 1 to 6 of the section "XXH64
  Algorithm Description"; then every stage is inverted (odd multiplications modulo 2^64, rotations, xor
  with a constant, xorshift), so that every stripe shows in the accumulators and every lane and byte behind
  the stripes in the hash. Primes and rotation amounts are pinned by known hashes, one for each length class.
* Bloom filter. An array stands for the set of its bits; oring in one bit adds one position.
* Lending. A pool entry is not free exactly when one live handle owns it, through every move.
* GPU adaptor. Every pointer is with one caller or one thread, and its tag names its origin; the spilled
  pointer is freed and erased inside one locked span, so that an address handed out again is never
  confused with the old one.

## Where a promise fails, and exactly when

* `memory_reservation_manager.hpp:134-137` says that the second pass tries every matching space. It
  returns what the first matching space answers (lines 158-168). `RequestCompleteness.CompleteIff` says
  over all runs when a request cannot come back empty while a matching space has room: exactly if it asks
  for nothing or no match behind the first one is large enough for it. `SecondPassStopsAtFirstMatch` is a
  run with two spaces on which it does.
* `fixed_size_host_memory_resource.hpp:20-22` says that a deallocation credits the overflow charged when
  its memory was allocated. The credit is recomputed from the current tracker; `CreditIsChargeIff` says
  when the two agree. The sum over all allocations is right all the same (`EachByteCountedOnce`).
* A deallocation gives its headroom back before it frees the block, so the counter, which bounds the
  live bytes at all times, can for a moment be below the pinned bytes. `PinnedWithinIff` says when it never
  is, over all runs: exactly if at most one thread uses the pool, whatever the limit. `PinnedBalance` gives
  the difference to the byte, `PinnedBound` the most it can be, and `PinnedCanOvershoot` a run, for every
  limit, that pins twice the limit.
* `reservation_aware_resource_adaptor.hpp:67-71` checks the limit before it charges, in separate locked
  spans. `LimitHoldsIff` says over all runs without an overriding policy when a stream stays within its
  limit: exactly if its allocations never overlap, or all are of zero bytes. `WorstIsExact` gives the least
  bound for every number of overlapping allocations and every size, and `LimitCanBeOvershot` a run from
  the initial state that attains it.
* `static_set.cuh:65` walks `capacity` probes. `StoresEveryBatchIffPow2` says over all runs from the empty
  table which capacities store every batch that fits: exactly the powers of two, for any hash function that
  reaches every word. `DefaultSetIsCompleteIffPow2` says it of the default hash on 64-bit keys.
* `bloom_filter_policies.cuh:57-69` lets hashes of one key fall on one bit. `ArrowMaskSizeIff` says for
  which hashes the bits are distinct.

## Model

| member | source | states |
|---|---|---|
| HostAccounting.OverflowChargeIsGrowth | cucascade-rocm/include/cucascade/memory/fixed_size_host_memory_resource.hpp:255-267 | with the int64 casts written out, the charge of an allocation under a reservation is the growth of max(size, used) |
| HostAccounting.OverflowCreditIsShrinkage | cucascade-rocm/include/cucascade/memory/fixed_size_host_memory_resource.hpp:333-345 | the credit of a deallocation, recomputed from the current tracker, is the shrinkage of max(size, used) |
| HostAccounting.CreditIsChargeIff | cucascade-rocm/include/cucascade/memory/fixed_size_host_memory_resource.hpp:332-345 | an allocation is credited what it was charged exactly if the use below it is unchanged, or both times it lies wholly inside or wholly outside the reservation |
| HostAccounting.UnconsumedIsSlack | cucascade-rocm/include/cucascade/memory/fixed_size_host_memory_resource.hpp:470-474 | a release credits exactly what max(size, used) exceeds the use by |
| HostAccounting.ChargeOfFreshReservation | cucascade-rocm/include/cucascade/memory/fixed_size_host_memory_resource.hpp:255-266 | on an unused reservation the charge is right exactly for requests below 2^63, where the cast changes nothing |
| HostAccounting.AlignUpIsLeastMultiple | cucascade-rocm/include/cucascade/memory/fixed_size_host_memory_resource.hpp:408-412 | rounding gives the least multiple of the block size that holds the request, saturates where that does not fit, and does nothing without a block size |
| HostAccounting.BlockBytesCovers | cucascade-rocm/include/cucascade/memory/fixed_size_host_memory_resource.hpp:232-234 | the bytes of the whole blocks are the rounded request, or at least 2^63 where rounding saturates |
| HostAccounting.PotentialRelease | cucascade-rocm/include/cucascade/memory/fixed_size_host_memory_resource.hpp:347-349 | dropping a reservation with live allocations turns them into committed bytes of their own |
| HostAccounting.LiveWithinPotential | cucascade-rocm/include/cucascade/memory/fixed_size_host_memory_resource.hpp:485-488 | all live bytes are among the committed bytes if each tracker covers its arena |
| HostAccounting.ReservedWithinPotential | cucascade-rocm/include/cucascade/memory/fixed_size_host_memory_resource.hpp:161-171 | the sum of reservation sizes is at most the committed bytes |
| HostInterleaving.StepKeepsInv | cucascade-rocm/include/cucascade/memory/fixed_size_host_memory_resource.hpp:185-478 | every step of every thread keeps the accounting equation, the trackers, the lock, the limit and the peak |
| HostInterleaving.ReleaseKeepsInv | cucascade-rocm/include/cucascade/memory/fixed_size_host_memory_resource.hpp:465-478 | so does releasing a reservation whose allocations are still live |
| HostInterleaving.DeallocKeepsInv | cucascade-rocm/include/cucascade/memory/fixed_size_host_memory_resource.hpp:318-351 | so does taking an allocation out while its credit is still to come |
| HostInterleaving.StartUnderKeepsInv | cucascade-rocm/include/cucascade/memory/fixed_size_host_memory_resource.hpp:247-268 | so does charging a tracker before the counter |
| HostInterleaving.RollBackKeepsInv | cucascade-rocm/include/cucascade/memory/fixed_size_host_memory_resource.hpp:270-292 | so does rolling a tracker back after a failure |
| HostRuns.EachByteCountedOnce | cucascade-rocm/include/cucascade/memory/fixed_size_host_memory_resource.hpp:10-24 | in every state of every run the counter counts each byte exactly once, is within the limit and covers the reserved bytes |
| HostRuns.ClampNeverFires | cucascade-rocm/include/cucascade/memory/fixed_size_host_memory_resource.hpp:440-452 | no credit is ever clamped at zero |
| HostRuns.DrainedMeansZero | cucascade-rocm/include/cucascade/memory/fixed_size_host_memory_resource.hpp:312-358 | once everything has been returned, in any order, the counter is zero |
| HostRuns.LiveWithinCounter | cucascade-rocm/include/cucascade/memory/fixed_size_host_memory_resource.hpp:485-488 | live bytes are within the counter in every state of every run |
| HostPinned.PinnedBalance | cucascade-rocm/include/cucascade/memory/fixed_size_host_memory_resource.hpp:352-358 | in every state of every run, what pinned memory and the counter differ by, to the byte |
| HostPinned.PinnedWithinIff | cucascade-rocm/include/cucascade/memory/fixed_size_host_memory_resource.hpp:352-358 | over all runs of at most n threads pinned memory is within the counter exactly if n is at most one, whatever the limit |
| HostPinned.PinnedBound | cucascade-rocm/include/cucascade/memory/fixed_size_host_memory_resource.hpp:352-358 | it exceeds the counter by no more than the blocks about to be freed have had credited to their reservations |
| HostPinned.PinnedWithinCounter | cucascade-rocm/include/cucascade/memory/fixed_size_host_memory_resource.hpp:352-358 | it is within the counter and the limit while no block about to be freed is short of its bytes |
| HostPinned.PinnedCanOvershoot | cucascade-rocm/include/cucascade/memory/fixed_size_host_memory_resource.hpp:352-358 | for every limit a run of two threads from the empty pool pins twice the limit in the middle of a deallocation |
| HostRuns.HeadroomIsHonoured | cucascade-rocm/include/cucascade/memory/fixed_size_host_memory_resource.hpp:259-270 | an allocation that fits its reservation is admitted without charging the counter, whatever others charge |
| HostRuns.OnlyOverflowFails | cucascade-rocm/include/cucascade/memory/fixed_size_host_memory_resource.hpp:270-280 | a capacity failure under a reservation means the reservation is overdrawn; `HostAdmission.RefusedWhenFull` says what it means for the counter |
| HostRuns.UnfinishedStepIsAccounted | cucascade-rocm/include/cucascade/memory/fixed_size_host_memory_resource.hpp:254-296 | each step of an unfinished allocation moves counter and tracker by what the thread accounts for |
| HostRuns.OwnStepsTelescope | cucascade-rocm/include/cucascade/memory/fixed_size_host_memory_resource.hpp:254-296 | over any stretch of a run a thread's own moves on the counter and on any tracker add up to what it currently holds |
| HostRuns.FailedAllocationUndoesItself | cucascade-rocm/include/cucascade/memory/fixed_size_host_memory_resource.hpp:270-296 | a failed allocation, managed or not, leaves no charge of its own on the counter or on any tracker, however other threads interleave |
| HostRuns.PeakNeverFalls | cucascade-rocm/include/cucascade/memory/fixed_size_host_memory_resource.hpp:454-459 | the recorded peak never falls |
| HostRuns.PeakIsSound | cucascade-rocm/include/cucascade/memory/fixed_size_host_memory_resource.hpp:419-459 | the peak is within the limit and covers every counter value seen while no thread was updating it |
| HostRuns.GrowingBreaksTheAccounting | cucascade-rocm/include/cucascade/memory/fixed_size_host_memory_resource.hpp:509-512 | growing a live arena, saturating or not, keeps the equation exactly if the size does not change or stays within the bytes already in use |
| HostAdmission.StartDecides | cucascade-rocm/include/cucascade/memory/fixed_size_host_memory_resource.hpp:185-296 | an operation ends at once only if a reservation is larger than the limit or its arena is unknown; otherwise it goes to the counter with what it needs, or is admitted if it needs nothing |
| HostAdmission.RefusedWhenFull | cucascade-rocm/include/cucascade/memory/fixed_size_host_memory_resource.hpp:419-438 | in every run a refusal is honest: at some moment since the same request was made the counter and what the request needs exceeded the limit |
| HostAdmission.QuietRequestIsExact | cucascade-rocm/include/cucascade/memory/fixed_size_host_memory_resource.hpp:419-438 | with no other thread's step in between, a request is refused exactly if it did not fit the counter as it was made, however often the swap fails for no reason; otherwise it charges exactly what it needs |
| HostAdmission.PeakWasReached | cucascade-rocm/include/cucascade/memory/fixed_size_host_memory_resource.hpp:454-459 | the recorded peak is a value the counter has had |
| HostAdmission.NobodyIsStuck | cucascade-rocm/include/cucascade/memory/fixed_size_host_memory_resource.hpp:185-478 | in every state of every run a thread in the middle of an operation can step, or waits for the mutex, whose holder can step |
| HostResource.MaxOfIsMaximum | cucascade-rocm/include/cucascade/memory/fixed_size_host_memory_resource.hpp:176-178 | the historical maximum the peak is compared with is one |
| HostResource.BooksAlloc | cucascade-rocm/include/cucascade/memory/fixed_size_host_memory_resource.hpp:247-308 | an allocation, under a reservation or not, keeps the books in order |
| HostResource.BooksDealloc | cucascade-rocm/include/cucascade/memory/fixed_size_host_memory_resource.hpp:318-350 | a deallocation finds its credit on the counter and keeps the books in order |
| HostResource.BooksRelease | cucascade-rocm/include/cucascade/memory/fixed_size_host_memory_resource.hpp:465-478 | a release finds its credit on the counter and keeps the books in order |
| HostResource.FixedSizeHostMemoryResource.constructor | cucascade-rocm/include/cucascade/memory/fixed_size_host_memory_resource.hpp:128-138 | a new pool is in order and empty; block size zero means the default |
| HostResource.FixedSizeHostMemoryResource.DoReserve | cucascade-rocm/include/cucascade/memory/fixed_size_host_memory_resource.hpp:419-438 | charges exactly if the sum is within the limit; the peak stays the exact maximum of the counter's history |
| HostResource.FixedSizeHostMemoryResource.DoRelease | cucascade-rocm/include/cucascade/memory/fixed_size_host_memory_resource.hpp:442-452 | takes the bytes off, clamped at zero |
| HostResource.FixedSizeHostMemoryResource.UpdatePeak | cucascade-rocm/include/cucascade/memory/fixed_size_host_memory_resource.hpp:454-459 | raises the peak to the counter and never lowers it |
| HostResource.FixedSizeHostMemoryResource.Reserve | cucascade-rocm/include/cucascade/memory/fixed_size_host_memory_resource.hpp:185-220 | throws, gives null or registers the rounded size; it succeeds exactly if that is available |
| HostResource.FixedSizeHostMemoryResource.ReleaseReservation | cucascade-rocm/include/cucascade/memory/fixed_size_host_memory_resource.hpp:465-478 | credits the unconsumed part once and forgets the reservation |
| HostResource.FixedSizeHostMemoryResource.AllocateMultipleBlocks | cucascade-rocm/include/cucascade/memory/fixed_size_host_memory_resource.hpp:227-310 | decides each failure exactly, undoes everything but the peak on failure, and tiles the memory with blocks on success |
| HostResource.FixedSizeHostMemoryResource.DeallocateMultipleBlocks | cucascade-rocm/include/cucascade/memory/fixed_size_host_memory_resource.hpp:312-359 | gives back what the counter still holds for the allocation; an unknown handle changes nothing |
| HostResource.FixedSizeHostMemoryResource.Allocate | cucascade-rocm/include/cucascade/memory/fixed_size_host_memory_resource.hpp:361-383 | charges an unmanaged block in full or leaves the counter as it was |
| HostResource.FixedSizeHostMemoryResource.Deallocate | cucascade-rocm/include/cucascade/memory/fixed_size_host_memory_resource.hpp:384-390 | takes the given bytes off, clamped; with the size that was allocated nothing is clamped and the books stay in order |
| Stride.OddCancels | cuco-rocm/include/cuco/static_set.cuh:41 | an odd stride can be cancelled modulo a power of two |
| ProbeWords.StrideIsWord | cuco-rocm/include/cuco/static_set.cuh:41 | for every hash `h` the stride is `(h >> 32) | 1`, in shifts and bitwise or |
| ProbeWords.SlotInWords | cuco-rocm/include/cuco/static_set.cuh:42 | for every capacity, probe `i` is at `h + i * ((h >> 32) | 1)` in 64-bit arithmetic, modulo the capacity |
| ProbeWords.SlotOfPow2 | cuco-rocm/include/cuco/static_set.cuh:41-43 | with a power-of-two capacity the 64-bit wrap-around is invisible in the slot of any probe, written with `h` and its shift alone |
| Stride.ProbesDistinct | cuco-rocm/include/cuco/static_set.cuh:39-43 | no two probes of one path meet in a power-of-two table |
| Stride.PathCoversTable | cuco-rocm/include/cuco/static_set.cuh:39-43 | within `capacity` probes an odd stride visits every slot of a power-of-two table |
| Stride.MissedSlot | cuco-rocm/include/cuco/static_set.cuh:39-43 | for any other capacity, and any low half of the hash, some hash has a slot that its path never visits |
| Stride.CoversIffPow2 | cuco-rocm/include/cuco/static_set.cuh:39-43 | every path covers the table exactly if the capacity is a power of two |
| StaticSet.NoDuplicates | cuco-rocm/include/cuco/static_set.cuh:64-69 | in a well-placed table no key is in two slots |
| StaticSet.StoredLiesAhead | cuco-rocm/include/cuco/static_set.cuh:65-68 | a stored key is met no earlier than where its walk has got to |
| StaticSet.EmptySlotMeansAbsent | cuco-rocm/include/cuco/static_set.cuh:104-105 | reaching an empty slot proves the key absent from the whole table |
| StaticSet.WholePathMeansAbsent | cuco-rocm/include/cuco/static_set.cuh:101-107 | so does walking the whole path without meeting it, for every capacity |
| StaticSet.FillKeepsPlaces | cuco-rocm/include/cuco/static_set.cuh:67-68 | filling the empty slot a walk has reached keeps every stored key reachable and adds exactly this key |
| StaticSet.PlaceExists | cuco-rocm/include/cuco/static_set.cuh:65-69 | with a power-of-two capacity a table with room has a place on the path of every key |
| StaticSetComplete.JammedHasNoPlace | cuco-rocm/include/cuco/static_set.cuh:65-69 | a table with an empty slot, every key in its home slot, in which no key of one hash has a place |
| StaticSetComplete.SomeBatchIsLost | cuco-rocm/include/cuco/static_set.cuh:58-70 | for every capacity that is not a power of two, a run from the empty table that produces such a table and ends without one of its keys, although all fit |
| StaticSetComplete.StoresEveryBatchIffPow2 | cuco-rocm/include/cuco/static_set.cuh:58-70 | over all runs from the empty table: every finished batch of no more keys than slots is exactly what the table then holds, exactly if the capacity is a power of two, for any hash function that reaches every word |
| StaticSetKeys.DefaultSetIsCompleteIffPow2 | cuco-rocm/include/cuco/static_set.cuh:137-144 | so for the default hash on 64-bit keys, whatever key marks the empty slots |
| StaticSetKeys.PathInWords | cuco-rocm/include/cuco/static_set.cuh:65-66 | with the default hash, probe `i` of a 64-bit key is at `h + i * ((h >> 32) | 1)` for the XXH64 of its bytes, modulo the capacity |
| StaticSet.FillEmptyKey | cuco-rocm/include/cuco/static_set.cuh:51-55 | one thread empties exactly the slots of its grid and touches no other |
| StaticSet.GridCovers | cuco-rocm/include/cuco/static_set.cuh:52 | every slot is on the grid of some thread |
| StaticSet.AtomicCAS | cuco-rocm/include/cuco/static_set.cuh:67 | returns what was there and swaps only on a match |
| StaticSet.Insert | cuco-rocm/include/cuco/static_set.cuh:58-70 | stores the key exactly if its path has a place for it, and changes nothing else |
| StaticSet.Contains | cuco-rocm/include/cuco/static_set.cuh:73-108 | answers whether some slot holds the key; for the empty key, whether its path has an empty slot |
| StaticSetRace.StepKeepsInv | cuco-rocm/include/cuco/static_set.cuh:65-69 | every probe of every thread keeps the table well placed and only fills empty slots |
| StaticSetRace.TableOnlyGrows | cuco-rocm/include/cuco/static_set.cuh:67 | over a whole run filled slots never change |
| StaticSetRace.StoredOnce | cuco-rocm/include/cuco/static_set.cuh:64-69 | under every schedule no key is stored twice, nothing is lost and only requested keys appear |
| StaticSetRace.LookupIsLinearizable | cuco-rocm/include/cuco/static_set.cuh:81-86 | a lookup racing with inserts answers whether the key is in the table at its deciding read |
| StaticSetRace.LossNeedsOverflow | cuco-rocm/include/cuco/static_set.cuh:65-69 | with a power-of-two capacity an insertion is lost only if old and new keys outnumber the slots |
| StaticSetRace.BatchIsStored | cuco-rocm/include/cuco/static_set.cuh:58-70 | otherwise, once all threads have finished, the table holds exactly the old keys and the batch |
| Word64.XorShiftInverse | cuco-rocm/include/cuco/hash_functions.cuh:100-102 | an xorshift can be undone |
| Word64.RotlInverse | cuco-rocm/include/cuco/hash_functions.cuh:33-35 | the rotation by shifts and or is undone by the complementary one |
| Word64.MulInverse | cuco-rocm/include/cuco/hash_functions.cuh:82 | a multiplication modulo 2^64 is undone by the inverse factor |
| XxHash.Run | cuco-rocm/include/cuco/hash_functions.cuh:21-104 | the pointer loops compute Steps 1 to 6 of the specified hash and read each byte once, in order, inside the input; `XxHashKnown` and `XxHashTail` say what those steps compute |
| XxHash.Head | cuco-rocm/include/cuco/hash_functions.cuh:37-66 | Steps 1 to 3 over all whole stripes, or the start for short inputs |
| XxHash.StripeLoop | cuco-rocm/include/cuco/hash_functions.cuh:43-58 | the do-while loop absorbs all whole stripes and reads each of their bytes once |
| XxHash.Gather | cuco-rocm/include/cuco/hash_functions.cuh:59-63 | the merge lines are Step 3 |
| XxHash.Tail | cuco-rocm/include/cuco/hash_functions.cuh:69-99 | the tail loops are Step 5 and read exactly the rest of the input |
| XxHash.FinalMix | cuco-rocm/include/cuco/hash_functions.cuh:100-102 | the last lines are Step 6 |
| XxHashKeys.ReadIsLittleEndian | cuco-rocm/include/cuco/hash_functions.cuh:44-53 | the shift-and-or read is the little-endian number of the bytes |
| XxHashKeys.WordsAgree | cuco-rocm/include/cuco/hash_functions.cuh:33-53 | reads and rotations of the code agree with the specified ones on all lanes and amounts used |
| XxHashKeys.Compute | cuco-rocm/include/cuco/hash_functions.cuh:21-104 | for every input and seed the code computes XXH64 and reads each byte exactly once |
| XxHashKeys.PrimesInvert | cuco-rocm/include/cuco/hash_functions.cuh:23-25 | the multiplying primes have inverses modulo 2^64 |
| XxHashKeys.FinishInverse | cuco-rocm/include/cuco/hash_functions.cuh:100-103 | the avalanche is a bijection of 64-bit words |
| XxHashKeys.Take8Inverse | cuco-rocm/include/cuco/hash_functions.cuh:80-81 | absorbing an eight-byte lane is a bijection in the lane |
| XxHashKeys.Take4Inverse | cuco-rocm/include/cuco/hash_functions.cuh:91-92 | absorbing a four-byte lane can be undone |
| XxHashKeys.NoCollisionsOn8Bytes | cuco-rocm/include/cuco/hash_functions.cuh:109-114 | two eight-byte keys hash alike exactly if they are equal |
| XxHashKeys.EveryHashHasANumber | cuco-rocm/include/cuco/hash_functions.cuh:109-114 | every 64-bit number is the hash of the bytes of a 64-bit number |
| XxHashKeys.EveryHashIsReached | cuco-rocm/include/cuco/hash_functions.cuh:109-114 | every 64-bit number is the hash of an eight-byte key |
| XxHashKeys.NoCollisionsOn4Bytes | cuco-rocm/include/cuco/hash_functions.cuh:109-114 | two four-byte keys hash alike exactly if they are equal |
| XxHashStripes.StripesCompose | cuco-rocm/include/cuco/hash_functions.cuh:43-58 | the stripes of one input and then those of another are the stripes of the two together |
| XxHashStripes.OneStripeSeparates | cuco-rocm/include/cuco/hash_functions.cuh:43-58 | two inputs that differ in one stripe leave different accumulators, whatever comes before and after it |
| XxHashStripes.LengthIsRecovered | cuco-rocm/include/cuco/hash_functions.cuh:67 | the length of an input of whole stripes can be told from its hash by undoing Step 6 |
| XxHashTail.OneLaneSeparates | cuco-rocm/include/cuco/hash_functions.cuh:69-103 | two inputs of one length that agree on their whole stripes and differ in one lane behind them have different hashes, under every seed |
| XxHashTail.OneByteSeparates | cuco-rocm/include/cuco/hash_functions.cuh:69-103 | so do two inputs of one length that differ in a single byte behind the whole stripes |
| XxHashTail.SeedsSeparate | cuco-rocm/include/cuco/hash_functions.cuh:65-103 | an input shorter than a stripe has different hashes under different seeds |
| MachineWords.XorIsMachineXor | cuco-rocm/include/cuco/hash_functions.cuh:81 | exclusive or by recursion on the bits is that of machine bytes, for all words given byte by byte |
| XxHashKnown.HashOfEmpty | cuco-rocm/include/cuco/hash_functions.cuh:21-104 | XXH64 of no bytes with seed 0 is 0xEF46DB3751D8E999 |
| XxHashKnown.HashOfA | cuco-rocm/include/cuco/hash_functions.cuh:21-104 | XXH64 of "a" with seed 0 is 0xD24EC4F1A98C6E5B |
| XxHashKnown.HashOfAbcd | cuco-rocm/include/cuco/hash_functions.cuh:21-104 | XXH64 of "abcd" with seed 0 is 0xDE0327B0D25D92CC |
| XxHashKnown.HashOfAbcdefgh | cuco-rocm/include/cuco/hash_functions.cuh:21-104 | XXH64 of "abcdefgh" with seed 0 is 0x3AD351775B4634B7 |
| XxHashKnown.HashOfStripeAndSeed | cuco-rocm/include/cuco/hash_functions.cuh:21-104 | a known hash of 32 bytes under the seed 0x9E3779B1, through all four accumulators |
| Bloom.OrSetsBit | cuco-rocm/include/cuco/bloom_filter.cuh:61 | oring in a one-bit word sets that bit and no other |
| Bloom.AndTestsBit | cuco-rocm/include/cuco/bloom_filter.cuh:93 | the mask test tests that bit |
| Bloom.SetBitAdds | cuco-rocm/include/cuco/bloom_filter.cuh:61 | one atomicOr adds one position to the set the array stands for |
| Bloom.WordInRange | cuco-rocm/include/cuco/bloom_filter.cuh:49-61 | every word a kernel touches is inside the array |
| Bloom.Add | cuco-rocm/include/cuco/bloom_filter.cuh:35-63 | afterwards the array stands for the old set and the key's mask |
| Bloom.Probe | cuco-rocm/include/cuco/bloom_filter.cuh:66-98 | answers true exactly if the whole mask is set |
| BloomRace.StepKeepsInv | cuco-rocm/include/cuco/bloom_filter.cuh:56-62 | every atomicOr and every read of every thread keeps the set between the old one and the requested masks |
| BloomRace.BitsOnlyGrow | cuco-rocm/include/cuco/bloom_filter.cuh:61 | bits are never cleared |
| BloomRace.AddsAreUnion | cuco-rocm/include/cuco/bloom_filter.cuh:41-62 | once all adds have finished the set is the union, for every schedule |
| BloomRace.ProbeIsLinearizable | cuco-rocm/include/cuco/bloom_filter.cuh:85-97 | a racing probe answers whether the mask is set at its deciding read |
| BloomRace.NoFalseNegatives | cuco-rocm/include/cuco/bloom_filter.cuh:85-97 | a key whose add has finished is always found |
| BloomPolicies.FillBuffer | cuco-rocm/include/cuco/bloom_filter_policies.cuh:37-39 | a policy writes exactly the first k hashes; `BloomBlocks` says what those hashes are in the words of the code |
| BloomPolicies.DefaultIndicesDistinct | cuco-rocm/include/cuco/bloom_filter_policies.cuh:34-40 | under the default policy the bits of one key are pairwise distinct in a power-of-two block of sixteen bits or more |
| BloomPolicies.DefaultMaskSize | cuco-rocm/include/cuco/bloom_filter_policies.cuh:34-40 | so a key owns exactly as many bits as there are hash functions, or sixteen if there are more |
| BloomPolicies.ArrowIndexIsWindow | cuco-rocm/include/cuco/bloom_filter_policies.cuh:57-69 | the bit an Arrow hash sets is a window of 32 on a ring of 8192, given by the remainder of the first hash, in spite of the 64-bit wrap-around |
| BloomPolicies.ArrowCollision | cuco-rocm/include/cuco/bloom_filter_policies.cuh:57-69 | two Arrow hashes of a key set one bit exactly if the gap between them, counted from the offset in the window, does not leave it or comes round into it again |
| BloomPolicies.ArrowMaskSizeIff | cuco-rocm/include/cuco/bloom_filter_policies.cuh:57-69 | a key owns as many bits as there are hash functions exactly if no two of them share a window, a condition on the hash modulo 8192 |
| BloomPolicies.ArrowGapsSuffice | cuco-rocm/include/cuco/bloom_filter_policies.cuh:57-69 | it does if no multiple of the step comes within 32 of a full turn |
| BloomPolicies.ArrowMaskCanCollapse | cuco-rocm/include/cuco/bloom_filter_policies.cuh:57-69 | under the Arrow policy some eight-byte key owns a single bit |
| BloomBlocks.DefaultHashIsWord | cuco-rocm/include/cuco/bloom_filter_policies.cuh:34-40 | hash `i` of the default policy is `h1 + i * ((h1 >> 32) | 1)` in 64-bit arithmetic |
| BloomBlocks.ArrowHashIsWord | cuco-rocm/include/cuco/bloom_filter_policies.cuh:57-69 | hash `i` of the Arrow policy is `(h1 + i * (h1 * 0x9E3779B97F4A7C15)) >> 5`: 32 times it, plus a remainder below 32, is the whole sum |
| BloomBlocks.EveryArrowBlockIsUsed | cuco-rocm/include/cuco/bloom_filter_policies.cuh:62-66 | under the Arrow policy every block of a filter of up to 2^59 blocks is that of some eight-byte key |
| BloomBlocks.EveryDefaultBlockIsUsed | cuco-rocm/include/cuco/bloom_filter_policies.cuh:34-40 | under the default policy so is every block of any filter that fits the address space |
| BloomBlocks.PositionNumber | cuco-rocm/include/cuco/bloom_filter.cuh:49-61 | in the order of the whole bit array, bit `i` of a key is in the block of its first hash, at its `i`-th hash modulo the bits of a block |
| BloomPolicies.AllocationSize | cuco-rocm/include/cuco/bloom_filter.cuh:126-140 | the size is rejected exactly if a product wraps, and never wrapped otherwise |
| BloomPolicies.TouchedBytesInside | cuco-rocm/include/cuco/bloom_filter.cuh:126-140 | every byte a kernel touches is inside the unwrapped allocation |
| MemorySpace.MemorySpace.AvailableMemory | cucascade-rocm/include/cucascade/memory/memory_space.hpp:102-106 | the rest of the maximum, and zero instead of a wrapped difference |
| MemorySpace.MemorySpace.MakeReservation | cucascade-rocm/include/cucascade/memory/memory_space.hpp:109-135 | grants exactly if the bytes are available, and charges them |
| MemorySpace.MemorySpace.MakeReservationOrNull | cucascade-rocm/include/cucascade/memory/memory_space.hpp:136-157 | the same with null instead of an exception |
| MemorySpace.MemorySpace.MakeReservationUpto | cucascade-rocm/include/cucascade/memory/memory_space.hpp:158-181 | grants the smaller of request and rest, and nothing only for nothing |
| MemorySpace.MemorySpace.ReleaseReservation | cucascade-rocm/include/cucascade/memory/memory_space.hpp:183-190 | credits if the counter holds that much |
| MemorySpaceRace.StepKeepsInv | cucascade-rocm/include/cucascade/memory/memory_space.hpp:109-190 | every step of every thread, arena growth included, keeps the counter equal to what was granted |
| MemorySpaceRace.ReservedIsGranted | cucascade-rocm/include/cucascade/memory/memory_space.hpp:109-190 | in every run the counter is the granted bytes outstanding and in flight, within the maximum, and zero when all are gone |
| MemorySpaceRace.ReleaseNeverSkips | cucascade-rocm/include/cucascade/memory/memory_space.hpp:187 | the guard of the release loop never skips a credit |
| MemorySpaceRace.SwapGrants | cucascade-rocm/include/cucascade/memory/memory_space.hpp:165-174 | at its swap a call gets all it asked for, or for upto the smaller of that and what is then left |
| MemorySpaceAdmission.RefusedWhenFull | cucascade-rocm/include/cucascade/memory/memory_space.hpp:109-181 | in every run a refusal is honest: at some moment since the same call was made the space had nothing to give to it |
| MemorySpaceAdmission.QuietCallIsExact | cucascade-rocm/include/cucascade/memory/memory_space.hpp:109-181 | with no other thread's step in between, a call is refused exactly if the space had nothing to give to it as it was made; otherwise it charges what it is given |
| MemorySpaceAdmission.NobodyIsStuck | cucascade-rocm/include/cucascade/memory/memory_space.hpp:109-190 | no thread is ever stuck in the middle of a call |
| MemorySpaceAdmission.ArenaIsGrown | cucascade-rocm/include/cucascade/memory/memory_space.hpp:245-249 | in every run the arena of an outstanding handle says what was granted and grown since, saturating |
| RequestDecision.RequestUnderRaces | cucascade-rocm/include/cucascade/memory/memory_reservation_manager.hpp:127-170 | the two passes end on the space the decision function names, for all that they are shown |
| RequestDecision.QuietRequest | cucascade-rocm/include/cucascade/memory/memory_reservation_manager.hpp:138-169 | without races: the first matching space with room, no room exactly if some match and none has any, an exception exactly if none matches |
| RequestRace.StepKeepsInv | cucascade-rocm/include/cucascade/memory/memory_reservation_manager.hpp:127-170 | every load, swap and counter update of every thread keeps the spaces, the active counter and what each request has been shown |
| RequestRace.CountersAreExact | cucascade-rocm/include/cucascade/memory/memory_reservation_manager.hpp:127-170 | in every state of every run each space holds the bytes outstanding and in flight on it, and the active counter is the outstanding handles and those being destroyed |
| RequestRace.RequestsEndAsDecided | cucascade-rocm/include/cucascade/memory/memory_reservation_manager.hpp:138-169 | in every run a request ends as the decision function says of the values its own loads and swaps read, none above a maximum |
| RequestRace.RacingRequest | cucascade-rocm/include/cucascade/memory/memory_reservation_manager.hpp:138-169 | so in every run it throws exactly if no space matches, and a space it is granted matches and is large enough |
| RequestRace.SwapsFindTheirBytes | cucascade-rocm/include/cucascade/memory/memory_space.hpp:136-190 | a swap that grants finds the room, and no release skips its credit |
| RequestAdmission.HonestSince | cucascade-rocm/include/cucascade/memory/memory_reservation_manager.hpp:138-169 | in every run a thread in the middle of a request goes by nothing but the room it has itself read since |
| RequestAdmission.AnswersInOrder | cucascade-rocm/include/cucascade/memory/memory_reservation_manager.hpp:138-169 | in every run each answer is borne out: the matches before some space were each short of room at a moment since the request, that space had room, and it is granted, or was short too and the first match decides; an exception means no match |
| RequestAdmission.QuietRequestIsExact | cucascade-rocm/include/cucascade/memory/memory_reservation_manager.hpp:138-169 | with no other thread's step in between, a request gets the first matching space that had room as it was made, nothing exactly if some match and none had room, an exception exactly if none match |
| RequestAdmission.NobodyIsStuck | cucascade-rocm/include/cucascade/memory/memory_reservation_manager.hpp:127-170 | no thread is ever stuck in the middle of a request or a release |
| RequestCompleteness.BadSchedule | cucascade-rocm/include/cucascade/memory/memory_reservation_manager.hpp:158-168 | with another large enough match there is a run from the initial state on which the request comes back empty while a match has room |
| RequestCompleteness.CompleteIff | cucascade-rocm/include/cucascade/memory/memory_reservation_manager.hpp:134-137 | over all runs of all threads: a request comes back empty only while no match has room, exactly if it asks for nothing or no match behind the first one is large enough |
| RequestCompleteness.SecondPassStopsAtFirstMatch | cucascade-rocm/include/cucascade/memory/memory_reservation_manager.hpp:158-168 | such a run for two spaces of one byte |
| ReservationManager.Reservation.Destroy | cucascade-rocm/include/cucascade/memory/memory_reservation_manager.hpp:142-145 | destroying a handle gives its bytes back to its space and takes one off the active counter |
| ReservationManager.BuildSpaces | cucascade-rocm/include/cucascade/memory/memory_reservation_manager.hpp:80-97 | one new space for every GPU and host configuration, in order; others are passed over |
| ReservationManager.KeptInOrder | cucascade-rocm/include/cucascade/memory/memory_reservation_manager.hpp:80-97 | the spaces of two lists of configurations are those of the first and then those of the second |
| ReservationManager.KeptOfOne | cucascade-rocm/include/cucascade/memory/memory_reservation_manager.hpp:80-97 | a GPU or a host configuration gives one space of its tier, device and limit, any other none |
| ReservationManager.StrategiesRelate | cucascade-rocm/include/cucascade/memory/memory_reservation_manager.hpp:30-73 | how the seven strategies relate: a preference for no device is none, a list of tiers is each of them, one space is a tier and a device, and every space can be downgraded or upgraded and not both |
| ReservationManager.MemoryReservationManager.constructor | cucascade-rocm/include/cucascade/memory/memory_reservation_manager.hpp:80-103 | a new manager has these spaces, all empty, and no reservation |
| ReservationManager.MemoryReservationManager.FirstPass | cucascade-rocm/include/cucascade/memory/memory_reservation_manager.hpp:138-156 | charges the first space that matches and shows room, and otherwise nothing |
| ReservationManager.MemoryReservationManager.SecondPass | cucascade-rocm/include/cucascade/memory/memory_reservation_manager.hpp:158-169 | ends on the first matching space, or throws if there is none |
| ReservationManager.MemoryReservationManager.RequestReservation | cucascade-rocm/include/cucascade/memory/memory_reservation_manager.hpp:127-170 | throws exactly if no space has the tier and device the strategy asks for, and a granted handle is on one that has; charges exactly the decided space, issues a new handle, keeps the counter equal to the outstanding handles and every space equal to their bytes |
| ReservationManager.MemoryReservationManager.Shutdown | cucascade-rocm/include/cucascade/memory/memory_reservation_manager.hpp:184-201 | afterwards the counter is zero and every request throws |
| StreamPool.ExclusiveStreamPool.constructor | cucascade-rocm/include/cucascade/memory/stream_pool.hpp:78-97 | exactly the streams that could be created, in order, all free |
| StreamPool.SuccessesInOrder | cucascade-rocm/include/cucascade/memory/stream_pool.hpp:78-97 | the streams of two batches of creations are those of the first and then those of the second |
| StreamPool.SuccessesOfOne | cucascade-rocm/include/cucascade/memory/stream_pool.hpp:78-97 | a creation gives one stream, or none if it fails |
| StreamPool.ExclusiveStreamPool.AcquireStream | cucascade-rocm/include/cucascade/memory/stream_pool.hpp:113-143 | lends the first free stream, else a new one if the policy grows and creation works, else an unowned default stream |
| StreamPool.BlockNeverGrows | cucascade-rocm/include/cucascade/memory/stream_pool.hpp:113-143 | a pool that blocks never changes its size, and lends exactly if a stream is free |
| StreamPool.GrowAlwaysLends | cucascade-rocm/include/cucascade/memory/stream_pool.hpp:113-143 | a pool that grows always lends if a stream can be created, and grows exactly if none is free |
| StreamPool.LentIsTaken | cucascade-rocm/include/cucascade/memory/stream_pool.hpp:113-143 | an owned handle shows the stream of the first entry that was free, or of a new one if none was, and that entry is then taken, and no other entry changes; any other handle shows the per-thread stream and the pool is unchanged |
| StreamPool.ExclusiveStreamPool.ReturnStream | cucascade-rocm/include/cucascade/memory/stream_pool.hpp:145-148 | frees a known index and ignores any other |
| StreamPool.BorrowedStream.Move | cucascade-rocm/include/cucascade/memory/stream_pool.hpp:39-43 | the claim moves; the source keeps only the view |
| StreamPool.BorrowedStream.MoveAssign | cucascade-rocm/include/cucascade/memory/stream_pool.hpp:45-55 | the stream held so far goes back, then the claim moves; assigning to itself changes nothing |
| StreamPool.BorrowedStream.Release | cucascade-rocm/include/cucascade/memory/stream_pool.hpp:194-201 | an owner gives its stream back once, and afterwards owns nothing and shows the default stream |
| StreamPool.BorrowedStream.Destroy | cucascade-rocm/include/cucascade/memory/stream_pool.hpp:57 | a destroyed handle has given its stream back |
| StreamLending.ReleaseIsTwoSteps | cucascade-rocm/include/cucascade/memory/stream_pool.hpp:194-201 | returning the stream and clearing the fields together are the release of the handle |
| StreamLending.StepKeepsInv | cucascade-rocm/include/cucascade/memory/stream_pool.hpp:39-57 | acquiring, moving, assigning, returning, clearing and destroying, each step on its own, keep lending exclusive, grounded and complete |
| StreamLending.NotFreeMeansOneOwner | cucascade-rocm/include/cucascade/memory/stream_pool.hpp:120-138 | in every history an entry is not free exactly if a live handle owns it and has not returned it, and then only one does |
| StreamLending.OwnersShareNoStream | cucascade-rocm/include/cucascade/memory/stream_pool.hpp:113-143 | two live owners never show the same stream, not even across pools |
| StreamLending.MovedFromStillShows | cucascade-rocm/include/cucascade/memory/stream_pool.hpp:39-43 | a moved-from handle owns nothing and still shows the stream |
| StreamLending.ReturnedMayBeLentAgain | cucascade-rocm/include/cucascade/memory/stream_pool.hpp:194-199 | between returning its stream and clearing its fields a handle names what the next acquiring thread is lent, exactly if every earlier entry is out |
| StreamLending.LentIsOwners | cucascade-rocm/include/cucascade/memory/stream_pool.hpp:120-125 | the entries not free are as many as the handles that own a stream of the pool |
| StreamLending.GrowthIsLent | cucascade-rocm/include/cucascade/memory/stream_pool.hpp:131-140 | a pool grows only when all its streams are out |
| StreamLending.PoolSizeIsBounded | cucascade-rocm/include/cucascade/memory/stream_pool.hpp:131-140 | over a history the size stays within its first size and the most handles out at once |
| StreamLending.AllReturned | cucascade-rocm/include/cucascade/memory/stream_pool.hpp:194-201 | once no handle owns a stream every entry is free |
| GpuAdaptor.HandingOut | cucascade-rocm/include/cucascade/memory/reservation_aware_resource_adaptor.hpp:180-189 | recording and charging a pointer keeps map, total and limit sound |
| GpuAdaptor.TakingBack | cucascade-rocm/include/cucascade/memory/reservation_aware_resource_adaptor.hpp:202-249 | a pointer is taken for what it is, its bytes are on the total, and crediting them keeps the books sound |
| GpuAdaptor.ReservationAwareResourceAdaptor.RaisePeak | cucascade-rocm/include/cucascade/memory/reservation_aware_resource_adaptor.hpp:333-336 | the loop ends with the larger of the two |
| GpuAdaptor.ReservationAwareResourceAdaptor.ChargeStream | cucascade-rocm/include/cucascade/memory/reservation_aware_resource_adaptor.hpp:329-338 | adds the bytes to stream and total, raises the peak to the new charge if that is higher, and leaves policy and other streams alone |
| GpuAdaptor.ReservationAwareResourceAdaptor.Obtain | cucascade-rocm/include/cucascade/memory/reservation_aware_resource_adaptor.hpp:106-179 | device, then managed, then pinned memory, each only if those before it failed, the policy last; only a fallback pointer is tagged |
| GpuAdaptor.ReservationAwareResourceAdaptor.Allocate | cucascade-rocm/include/cucascade/memory/reservation_aware_resource_adaptor.hpp:56-191 | over the limit only the policy is asked, else device, managed, pinned and policy in that order; a failure changes nothing but an empty tracker; no stream passes the limit unless the policy took it there |
| GpuAdaptor.ReservationAwareResourceAdaptor.Deallocate | cucascade-rocm/include/cucascade/memory/reservation_aware_resource_adaptor.hpp:198-250 | frees by what the map says and takes the given size off stream and total, clamped; for a caller's own pointer and size that is the function of its origin and exactly its bytes |
| GpuAdaptor.ReservationAwareResourceAdaptor.ResetStreamReservation | cucascade-rocm/include/cucascade/memory/reservation_aware_resource_adaptor.hpp:259-266 | clears a known stream's charge and peak, leaves its policy, the total and other streams alone, and keeps the books sound |
| GpuAdaptor.ReservationAwareResourceAdaptor.AttachReservationToTracker | cucascade-rocm/include/cucascade/memory/reservation_aware_resource_adaptor.hpp:307-317 | sets the policy and moves no counter |
| GpuAdaptorRace.StepKeepsHeld | cucascade-rocm/include/cucascade/memory/reservation_aware_resource_adaptor.hpp:56-250 | every pointer out of the allocators stays with exactly one caller or thread |
| GpuAdaptorRace.StepKeepsTags | cucascade-rocm/include/cucascade/memory/reservation_aware_resource_adaptor.hpp:117-153 | tags keep matching origins, although addresses are reused and the lock is dropped between calls |
| GpuAdaptorRace.StepKeepsTotal | cucascade-rocm/include/cucascade/memory/reservation_aware_resource_adaptor.hpp:230-248 | the total stays the bytes live or about to be credited |
| GpuAdaptorRace.SpillMapIsExact | cucascade-rocm/include/cucascade/memory/reservation_aware_resource_adaptor.hpp:376-383 | in every run the map holds exactly the fallback pointers of callers, under their tags, and those about to be looked up |
| GpuCascade.LookingSince | cucascade-rocm/include/cucascade/memory/reservation_aware_resource_adaptor.hpp:106-170 | in every run a thread that is about to ask a tier or the policy has been refused since its request by exactly the tiers before it, in order, or was over the limit |
| GpuCascade.HoldingSince | cucascade-rocm/include/cucascade/memory/reservation_aware_resource_adaptor.hpp:106-179 | in every run a pointer about to be charged was answered by the tier its origin names after exactly the tiers before it had refused, or by the policy last of all |
| GpuCascade.EveryTierIsReached | cucascade-rocm/include/cucascade/memory/reservation_aware_resource_adaptor.hpp:110-131 | for every tier and every request within the limit there is a run from the initial state after which a caller holds a pointer of that tier, tagged in the spill map exactly if it is a fallback |
| GpuCascade.PolicyIsLastAttached | cucascade-rocm/include/cucascade/memory/reservation_aware_resource_adaptor.hpp:307-317 | in every run the policy asked for a stream is the one attached last |
| GpuCascade.NobodyIsStuck | cucascade-rocm/include/cucascade/memory/reservation_aware_resource_adaptor.hpp:56-250 | no thread is ever stuck in the middle of a call |
| GpuAdaptorRace.FreedByItsOrigin | cucascade-rocm/include/cucascade/memory/reservation_aware_resource_adaptor.hpp:202-235 | whatever frees a pointer matches its origin, no one else holds it, and the total is not clamped |
| GpuAdaptorRace.TotalIsLiveBytes | cucascade-rocm/include/cucascade/memory/reservation_aware_resource_adaptor.hpp:243-248 | between calls the total is the live bytes, whatever streams were used or reset |
| GpuAdaptorRace.StreamWithinLiveBytes | cucascade-rocm/include/cucascade/memory/reservation_aware_resource_adaptor.hpp:217-222 | with pointers freed on their own stream its charge is at most the bytes due on it, and equal without a reset |
| GpuAdaptorRace.PeakIsHighest | cucascade-rocm/include/cucascade/memory/reservation_aware_resource_adaptor.hpp:333-336 | since the last reset the peak is the highest charge there has been |
| GpuLimits.LimitHoldsWithoutRaces | cucascade-rocm/include/cucascade/memory/reservation_aware_resource_adaptor.hpp:70-104 | if allocations on a stream do not overlap and no policy overrides, the charge stays within the limit |
| GpuLimits.LimitBound | cucascade-rocm/include/cucascade/memory/reservation_aware_resource_adaptor.hpp:62-104 | if at most k of them overlap, of at most B bytes, it exceeds the limit by at most (k - 1) B, under every schedule |
| GpuLimits.NoWorse | cucascade-rocm/include/cucascade/memory/reservation_aware_resource_adaptor.hpp:62-104 | every charge stays within the worst case: the limit and k - 1 further requests of the smaller of B and the limit, and zero if B is zero |
| GpuLimits.LimitCanBeOvershot | cucascade-rocm/include/cucascade/memory/reservation_aware_resource_adaptor.hpp:62-71 | for every limit, k and B a run from the initial state ends charged with exactly the worst case |
| GpuLimits.WorstIsExact | cucascade-rocm/include/cucascade/memory/reservation_aware_resource_adaptor.hpp:62-104 | over all runs with at most k overlapping allocations of at most B bytes, a number bounds the charge exactly if it is at least the worst case |
| GpuLimits.LimitHoldsIff | cucascade-rocm/include/cucascade/memory/reservation_aware_resource_adaptor.hpp:62-104 | so the charge stays within the limit in all of them exactly if k is one or B is zero |

## Left out

- The HIP, RMM and cuDF calls themselves, memset, logging, device selection, stream priorities and stream synchronisation: allocators and stream creation are parameters that fail or return something not in use.
- Relaxed memory order and data-race rules: steps interleave sequentially consistently.
- Kernel launch arithmetic in 32 bits: each index is taken to get exactly one thread.
- Stride.MissedSlot: capacities below 2^32, which is what the 32-bit indices of the kernels reach.
- Stride.CoversIffPow2: capacities below 2^32, for the same reason; that powers of two are covered is proved for all of them.
- StaticSetComplete.StoresEveryBatchIffPow2: capacities below 2^32, for the same reason.
- StaticSetComplete.SomeBatchIsLost: the same bound.
- StaticSetComplete.JammedHasNoPlace: the same bound.
- StaticSetKeys.DefaultSetIsCompleteIffPow2: the same bound.
- HostResource.FixedSizeHostMemoryResource.constructor: does not model unlimited mode (`mem_limit == 0`), in which the counter can wrap; limits are below 2^62.
- HostResource.FixedSizeHostMemoryResource.AllocateMultipleBlocks: under a live reservation requests are below 2^62 after rounding, where the int64 casts are exact; `ChargeOfFreshReservation` shows what the casts do from 2^63 on.
- HostInterleaving.StepKeepsInv: the same bound for allocations under a live reservation; other requests have none.
- Arena addresses reused for a new reservation: arenas are fresh identities, and each allocation is returned at most once.
- Direct external calls of `release_reservation(bytes)` and `return_stream`, and changing the maximum of a space while it is in use.
- ReservationManager.Reservation.Destroy: handles destroyed after shutdown, whose callback would use a space that no longer exists; the shutdown flag is therefore never seen set by a release.
- RequestRace: shutdown is not among its steps.
- XxHashTail.OneByteSeparates: claims nothing for bytes inside whole stripes, whose four accumulators are merged into one word; `XxHashStripes.OneStripeSeparates` says what holds of them.
- Wrap-around of the adaptor's 64-bit byte counters: live bytes are taken to fit the address space.
- Successful upstream calls that return a null pointer: every successful call returns a pointer that is not out.
- Words of the hash and of the filter are natural numbers below 2^64 with bitwise operations by recursion; signed shifts do not occur.
- The text of the xxHash specification: the repository refers to it (`cuco-rocm/include/cuco/hash_functions.cuh:20`) without carrying it. The module XxHashSpec states Steps 1 to 6 of its section "XXH64 Algorithm Description".
- The host-side wrappers that launch the kernels and own the device arrays, the extent and operator headers, and the cub and cuda/std shims.
- data_batch, data_repository, converters, configurator, disk_access_limiter, notification channels and topology discovery.
