/** The pinned host pool as one thread sees it: the operations of the resource, updating its counter,
    its peak, its reservation trackers and its table of live allocations in place. */
module HostResource {
  import opened Sums
  import opened HostAccounting
  import opened Width

  type Ptr = nat

  const DEFAULT_BLOCK_SIZE: nat := 0x10_0000

  datatype Block = Block(ptr: Ptr, bytes: nat)

  /** The handle of a multi-block allocation. */
  datatype MultipleBlocks = MultipleBlocks(id: AllocId, blocks: seq<Block>, totalBytes: nat, arena: Option<Arena>)

  datatype Failure = ReservationTooLarge | ReservationFreed | OutOfMemory | DriverFailed

  datatype Result<+T> = Ok(value: T) | Null | Threw(failure: Failure)

  function MaxOf(values: seq<nat>): nat {
    if values == [] then 0
    else if MaxOf(values[..|values| - 1]) > values[|values| - 1] then MaxOf(values[..|values| - 1])
    else values[|values| - 1]
  }

  /** MaxOf is a maximum. */
  lemma {:induction false} MaxOfIsMaximum(values: seq<nat>, i: nat)
    requires i < |values|
    ensures values[i] <= MaxOf(values) && MaxOf(values) in values
  {
    var rest := values[..|values| - 1];
    if i < |rest| {
      MaxOfIsMaximum(rest, i);
    } else if rest != [] {
      MaxOfIsMaximum(rest, 0);
    }
  }

  lemma MaxOfAppend(values: seq<nat>, v: nat)
    ensures MaxOf(values + [v]) == if MaxOf(values) > v then MaxOf(values) else v
  {
    assert (values + [v])[..|values|] == values;
  }

  /** `n` consecutive blocks of `size` bytes from `ptr`: they tile the allocated range. */
  predicate Tiles(blocks: seq<Block>, ptr: Ptr, size: nat) {
    forall i :: 0 <= i < |blocks| ==> blocks[i] == Block(ptr + i * size, size)
  }

  /** The growth of the committed bytes that an allocation of `n` bytes causes. */
  function Owed(res: map<Arena, Tracker>, arena: Option<Arena>, n: nat): int {
    if arena.Some? && arena.value in res
    then Max(res[arena.value].size, res[arena.value].used + n) - Max(res[arena.value].size, res[arena.value].used)
    else n
  }

  function Charge(res: map<Arena, Tracker>, arena: Option<Arena>, n: int): map<Arena, Tracker> {
    if arena.Some? && arena.value in res
    then res[arena.value := res[arena.value].(used := res[arena.value].used + n)]
    else res
  }

  function Discharge(res: map<Arena, Tracker>, arena: Option<Arena>, n: int): map<Arena, Tracker> {
    if arena.Some? && arena.value in res
    then res[arena.value := res[arena.value].(used := res[arena.value].used - n)]
    else res
  }

  /** What a deallocation of `n` bytes takes off the committed bytes. */
  function Refund(res: map<Arena, Tracker>, arena: Option<Arena>, n: nat): int {
    if arena.Some? && arena.value in res
    then Max(res[arena.value].size, res[arena.value].used) - Max(res[arena.value].size, res[arena.value].used - n)
    else n
  }

  /** The books are in order: the counter is the potential, each tracker is the live bytes under its
      arena, and no arena is in use that has not been handed out. */
  ghost predicate Books(limit: nat, total: nat, res: map<Arena, Tracker>, live: map<AllocId, Alloc>,
                        raw: map<AllocId, int>, issued: set<Arena>) {
    && 0 < limit < TWO_62
    && total == Potential(res, live, raw)
    && total <= limit
    && (forall a :: a in res ==> res[a].used == Under(live, a))
    && (forall a :: a in res ==> a in issued)
    && (forall i :: i in live && live[i].arena.Some? ==> live[i].arena.value in issued)
    && (forall i :: i in raw ==> 0 <= raw[i])
  }

  lemma BooksRegister(limit: nat, total: nat, res: map<Arena, Tracker>, live: map<AllocId, Alloc>,
                      raw: map<AllocId, int>, issued: set<Arena>, arena: Arena, size: nat)
    requires Books(limit, total, res, live, raw, issued) && arena !in issued && total + size <= limit
    ensures Books(limit, total + size, res[arena := Tracker(size, 0)], live, raw, issued + {arena})
  {
    PotentialRegister(res, live, raw, arena, Tracker(size, 0));
    SumZero(UnderMap(live, arena));
  }

  lemma BooksRelease(limit: nat, total: nat, res: map<Arena, Tracker>, live: map<AllocId, Alloc>,
                     raw: map<AllocId, int>, issued: set<Arena>, arena: Arena)
    requires Books(limit, total, res, live, raw, issued) && arena in res
    ensures res[arena].size <= limit && 0 <= res[arena].used
    ensures var slack := Unconsumed(res[arena].size, res[arena].used);
            && slack == Max(res[arena].size - res[arena].used, 0)
            && slack <= total && Books(limit, total - slack, res - {arena}, live, raw, issued)
  {
    UnderBounds(live, 0, arena);
    PotentialBounds(res, live, raw, arena, 0);
    UnconsumedIsSlack(res[arena].size, res[arena].used);
    PotentialRelease(res, live, raw, arena);
    PotentialBounds(res - {arena}, live, raw, arena, 0);
  }

  /** A tracker in use is small enough for the int64 arithmetic. */
  lemma BooksCharge(limit: nat, total: nat, res: map<Arena, Tracker>, live: map<AllocId, Alloc>,
                    raw: map<AllocId, int>, issued: set<Arena>, arena: Arena, n: nat)
    requires Books(limit, total, res, live, raw, issued) && arena in res && n < TWO_62
    ensures OverflowCharge(res[arena].size, res[arena].used, n) == Owed(res, Some(arena), n) >= 0
    ensures n <= res[arena].used ==>
              OverflowCredit(res[arena].size, res[arena].used, n) == Refund(res, Some(arena), n) >= 0
  {
    UnderBounds(live, 0, arena);
    PotentialBounds(res, live, raw, arena, 0);
    OverflowChargeIsGrowth(res[arena].size, res[arena].used, n);
    if n <= res[arena].used { OverflowCreditIsShrinkage(res[arena].size, res[arena].used, n); }
  }

  lemma BooksAlloc(limit: nat, total: nat, res: map<Arena, Tracker>, live: map<AllocId, Alloc>,
                   raw: map<AllocId, int>, issued: set<Arena>, id: AllocId, n: nat, arena: Option<Arena>)
    requires Books(limit, total, res, live, raw, issued) && id !in live
    requires arena.Some? ==> arena.value in res
    requires 0 <= total + Owed(res, arena, n) <= limit
    ensures Books(limit, total + Owed(res, arena, n), Charge(res, arena, n), live[id := Alloc(n, arena)], raw, issued)
  {
    var res', live' := Charge(res, arena, n), live[id := Alloc(n, arena)];
    PotentialAlloc(res, live, raw, id, Alloc(n, arena));
    if arena.Some? { PotentialTracker(res, live', raw, arena.value, res'[arena.value]); }
    forall a | a in res' ensures res'[a].used == Under(live', a) {
      UnderOfAdded(live, id, Alloc(n, arena), a);
    }
  }

  lemma BooksDealloc(limit: nat, total: nat, res: map<Arena, Tracker>, live: map<AllocId, Alloc>,
                     raw: map<AllocId, int>, issued: set<Arena>, id: AllocId)
    requires Books(limit, total, res, live, raw, issued) && id in live
    ensures var x := live[id];
            && 0 <= Refund(res, x.arena, x.bytes) <= total
            && (x.arena.Some? && x.arena.value in res ==>
                OverflowCredit(res[x.arena.value].size, res[x.arena.value].used, x.bytes)
                  == Refund(res, x.arena, x.bytes))
            && Books(limit, total - Refund(res, x.arena, x.bytes), Discharge(res, x.arena, x.bytes), live - {id}, raw,
                     issued)
  {
    var x := live[id];
    var res', live' := Discharge(res, x.arena, x.bytes), live - {id};
    PotentialDealloc(res, live, raw, id);
    if x.arena.Some? && x.arena.value in res {
      UnderBounds(live, id, x.arena.value);
      PotentialBounds(res, live, raw, x.arena.value, 0);
      BooksCharge(limit, total, res, live, raw, issued, x.arena.value, x.bytes);
      PotentialTracker(res, live', raw, x.arena.value, res'[x.arena.value]);
    }
    PotentialBounds(res', live', raw, 0, 0);
    forall a | a in res' ensures res'[a].used == Under(live', a) {
      UnderOfRemoved(live, id, a);
    }
  }

  lemma BooksRaw(limit: nat, total: nat, res: map<Arena, Tracker>, live: map<AllocId, Alloc>,
                 raw: map<AllocId, int>, issued: set<Arena>, id: AllocId, n: nat)
    requires Books(limit, total, res, live, raw, issued)
    ensures id !in raw && total + n <= limit ==> Books(limit, total + n, res, live, raw[id := n], issued)
    ensures id in raw ==> raw[id] <= total && Books(limit, total - raw[id], res, live, raw - {id}, issued)
  {
    PotentialRaw(res, live, raw, id, n);
    PotentialBounds(res, live, raw, 0, id);
  }

  class FixedSizeHostMemoryResource {
    const memLimit: nat
    const blockSize: nat
    var totalAllocated: nat
    var peakAllocated: nat
    var activeReservations: map<Arena, Tracker>
    var liveAllocs: map<AllocId, (Ptr, nat)>
    ghost var live: map<AllocId, Alloc>  // the table, with the arenas kept in the allocation handles
    ghost var raw: map<AllocId, int>     // live allocations made through `allocate`
    ghost var issued: set<Arena>         // every arena ever handed out
    ghost var history: seq<nat>          // every value the counter has had

    ghost predicate Valid()
      reads this
    {
      && 0 < blockSize <= SIZE_MAX
      && TableMatches()
      && Books(memLimit, totalAllocated, activeReservations, live, raw, issued)
      && Recorded()
    }

    /** The recorded peak is the exact historical maximum of the counter. */
    ghost predicate Recorded()
      reads this`history, this`totalAllocated, this`peakAllocated
    {
      history != [] && history[|history| - 1] == totalAllocated && peakAllocated == MaxOf(history)
    }

    constructor (limit: nat, size: nat)
      requires 0 < limit < TWO_62 && size <= SIZE_MAX
      ensures Valid() && memLimit == limit && blockSize == if size == 0 then DEFAULT_BLOCK_SIZE else size
      ensures totalAllocated == 0 && peakAllocated == 0
      ensures activeReservations == map[] && liveAllocs == map[] && raw == map[]
    {
      memLimit, blockSize := limit, if size == 0 then DEFAULT_BLOCK_SIZE else size;
      totalAllocated, peakAllocated := 0, 0;
      activeReservations, liveAllocs := map[], map[];
      live, raw, issued, history := map[], map[], {}, [0];
      new;
      assert CommittedMap(activeReservations) == map[];
      assert OrphanMap(live, activeReservations.Keys) == map[];
    }

    function AvailableMemory(): nat
      reads this`totalAllocated
    {
      if memLimit > totalAllocated then memLimit - totalAllocated else 0
    }

    /** do_reserve: `spurious` is how often the weak compare-and-swap fails for no reason. */
    method DoReserve(bytes: nat, spurious: nat) returns (ok: bool)
      requires Recorded() && 0 < memLimit
      modifies this`totalAllocated, this`peakAllocated, this`history
      ensures Recorded()
      ensures ok <==> bytes == 0 || old(totalAllocated) + bytes <= memLimit
      ensures totalAllocated == old(totalAllocated) + if ok then bytes else 0
      ensures peakAllocated == Max(old(peakAllocated), totalAllocated)
    {
      MaxOfIsMaximum(history, |history| - 1);
      if bytes == 0 { return true; }
      if bytes > memLimit { return false; }
      var cur := totalAllocated;
      var retries := spurious;
      while true
        invariant cur == totalAllocated == old(totalAllocated)
        decreases retries
      {
        if cur > memLimit - bytes { return false; }
        if retries == 0 {
          totalAllocated := cur + bytes;
          break;
        }
        cur := totalAllocated;
        retries := retries - 1;
      }
      MaxOfAppend(history, totalAllocated);
      history := history + [totalAllocated];
      UpdatePeak(spurious);
      return true;
    }

    method UpdatePeak(spurious: nat)
      modifies this`peakAllocated
      ensures peakAllocated == Max(old(peakAllocated), totalAllocated)
    {
      var now := totalAllocated;
      var peak := peakAllocated;
      var retries := spurious;
      while now > peak
        invariant peak == peakAllocated
        invariant peakAllocated == old(peakAllocated)
        decreases retries
      {
        if retries == 0 {
          peakAllocated := now;
          break;
        }
        peak := peakAllocated;
        retries := retries - 1;
      }
    }

    /** do_release: credits are clamped at zero. */
    method DoRelease(bytes: nat, spurious: nat)
      requires Recorded()
      modifies this`totalAllocated, this`history
      ensures Recorded()
      ensures totalAllocated == if old(totalAllocated) >= bytes then old(totalAllocated) - bytes else 0
    {
      if bytes == 0 { return; }
      var cur := totalAllocated;
      var retries := spurious;
      while true
        invariant cur == totalAllocated == old(totalAllocated)
        decreases retries
      {
        var next := if cur >= bytes then cur - bytes else 0;
        if retries == 0 {
          totalAllocated := next;
          break;
        }
        cur := totalAllocated;
        retries := retries - 1;
      }
      MaxOfIsMaximum(history, |history| - 1);
      MaxOfAppend(history, totalAllocated);
      history := history + [totalAllocated];
    }

    /** reserve: a pre-charge. It succeeds exactly if the rounded size is within what
        get_available_memory reports; an oversized request throws, any other gives null. */
    method Reserve(bytes: nat, arena: Arena, spurious: nat) returns (r: Result<Arena>)
      requires Valid() && arena !in issued
      modifies this
      ensures Valid()
      ensures var size := AlignUp(bytes, blockSize);
              && (r == Threw(ReservationTooLarge) <==> size > memLimit)
              && (r == Ok(arena) <==> size <= old(AvailableMemory()))
              && (r.Ok? || r == Null || r == Threw(ReservationTooLarge))
              && totalAllocated == old(totalAllocated) + (if r.Ok? then size else 0)
              && activeReservations ==
                   (if r.Ok? then old(activeReservations)[arena := Tracker(size, 0)] else old(activeReservations))
      ensures liveAllocs == old(liveAllocs) && live == old(live) && raw == old(raw)
    {
      var size := AlignUp(bytes, blockSize);
      if size > memLimit { return Threw(ReservationTooLarge); }
      var ok := DoReserve(size, spurious);
      if !ok { return Null; }
      BooksRegister(memLimit, old(totalAllocated), activeReservations, live, raw, issued, arena, size);
      activeReservations := activeReservations[arena := Tracker(size, 0)];
      issued := issued + {arena};
      return Ok(arena);
    }

    /** release_reservation: credits what the reservation has not consumed; the live allocations made
        under it stay charged, now in their own right. Releasing twice does nothing. */
    method ReleaseReservation(arena: Arena, spurious: nat)
      requires Valid()
      modifies this
      ensures Valid()
      ensures activeReservations == old(activeReservations) - {arena}
      ensures totalAllocated == old(totalAllocated) -
                (if arena in old(activeReservations)
                 then Max(old(activeReservations)[arena].size - old(activeReservations)[arena].used, 0) else 0)
      ensures peakAllocated == old(peakAllocated)
      ensures liveAllocs == old(liveAllocs) && live == old(live) && raw == old(raw) && issued == old(issued)
    {
      if arena !in activeReservations {
        assert activeReservations - {arena} == activeReservations;
        return;
      }
      var tr := activeReservations[arena];
      var reclaimed := Unconsumed(tr.size, tr.used);
      BooksRelease(memLimit, totalAllocated, activeReservations, live, raw, issued, arena);
      activeReservations := activeReservations - {arena};
      MaxOfIsMaximum(history, |history| - 1);
      DoRelease(reclaimed, spurious);
    }

    /** allocate_multiple_blocks. `malloc` is the driver's answer and `id` the address of the new
        handle. On every failure the maps and the counter are as before; only the peak may have
        moved, and only if the driver failed after the charge. */
    method AllocateMultipleBlocks(bytes: nat, arena: Option<Arena>, malloc: Option<Ptr>, id: AllocId, spurious: nat)
      returns (r: Result<MultipleBlocks>)
      requires Valid() && bytes <= SIZE_MAX && id !in liveAllocs
      requires arena.Some? && arena.value in activeReservations ==> BlockBytes(bytes, blockSize) < TWO_62
      modifies this
      ensures Valid()
      ensures r != Null
      ensures issued == old(issued) && raw == old(raw)
      ensures !r.Ok? || bytes == 0 ==>
                && totalAllocated == old(totalAllocated) && activeReservations == old(activeReservations)
                && liveAllocs == old(liveAllocs) && live == old(live)
      ensures bytes == 0 <==> r.Ok? && r.value.blocks == []
      ensures r == Threw(ReservationFreed) <==>
                bytes > 0 && arena.Some? && arena.value !in old(activeReservations)
      ensures bytes > 0 && r != Threw(ReservationFreed) ==>
                var n := BlockBytes(bytes, blockSize);
                var owed := Owed(old(activeReservations), arena, n);
                && (r == Threw(OutOfMemory) <==> owed > 0 && owed > old(AvailableMemory()))
                && (r == Threw(OutOfMemory) ==> peakAllocated == old(peakAllocated))
                && (r == Threw(DriverFailed) <==> r != Threw(OutOfMemory) && malloc.None?)
                && (r == Threw(DriverFailed) ==> peakAllocated == Max(old(peakAllocated), old(totalAllocated) + owed))
                && (r.Ok? ==>
                    && totalAllocated == old(totalAllocated) + owed
                    && liveAllocs == old(liveAllocs)[id := (malloc.value, n)]
                    && live == old(live)[id := Alloc(n, arena)]
                    && activeReservations == Charge(old(activeReservations), arena, n)
                    && r.value.id == id && r.value.totalBytes == n && r.value.arena == arena
                    && |r.value.blocks| * blockSize == n && Tiles(r.value.blocks, malloc.value, blockSize))
    {
      if bytes == 0 { return Ok(MultipleBlocks(id, [], 0, None)); }
      var nBlocks, n := CountBlocks(bytes);
      if arena.Some? && arena.value !in activeReservations { return Threw(ReservationFreed); }
      var failure := ChargeAndMap(arena, n, malloc, spurious);
      if failure.Some? { return Threw(failure.value); }
      var blocks := Carve(malloc.value, nBlocks);
      BooksAlloc(memLimit, old(totalAllocated), old(activeReservations), live, raw, issued, id, n, arena);
      Enter(malloc.value, n, id, arena);
      return Ok(MultipleBlocks(id, blocks, n, arena));
    }

    method CountBlocks(bytes: nat) returns (nBlocks: nat, n: nat)
      requires 0 < bytes <= SIZE_MAX && 0 < blockSize <= SIZE_MAX
      ensures n == nBlocks * blockSize == BlockBytes(bytes, blockSize) && n > 0 && nBlocks > 0
    {
      BlockBytesCovers(bytes, blockSize);
      nBlocks := AlignUp(bytes, blockSize) / blockSize;
      n := nBlocks * blockSize;
    }

    method Enter(ptr: Ptr, n: nat, id: AllocId, ghost arena: Option<Arena>)
      requires TableMatches()
      modifies this`liveAllocs, this`live
      ensures TableMatches()
      ensures liveAllocs == old(liveAllocs)[id := (ptr, n)] && live == old(live)[id := Alloc(n, arena)]
    {
      liveAllocs := liveAllocs[id := (ptr, n)];
      live := live[id := Alloc(n, arena)];
    }

    /** The charging half of an allocation: the tracker first, then the counter, then the driver. A
        failure of either undoes what was charged before it. */
    method ChargeAndMap(arena: Option<Arena>, n: nat, malloc: Option<Ptr>, spurious: nat)
      returns (failure: Option<Failure>)
      requires Valid() && 0 < n && (arena.Some? ==> n < TWO_62 && arena.value in activeReservations)
      modifies this`totalAllocated, this`peakAllocated, this`history, this`activeReservations
      ensures Recorded()
      ensures var owed := Owed(old(activeReservations), arena, n);
              && 0 <= owed
              && (failure == Some(OutOfMemory) <==> owed > 0 && owed > old(AvailableMemory()))
              && (failure == Some(DriverFailed) <==> failure != Some(OutOfMemory) && malloc.None?)
              && totalAllocated == old(totalAllocated) + (if failure.None? then owed else 0)
              && (failure == Some(OutOfMemory) ==> peakAllocated == old(peakAllocated))
              && (failure == Some(DriverFailed) ==>
                  peakAllocated == Max(old(peakAllocated), old(totalAllocated) + owed))
      ensures failure in {None, Some(OutOfMemory), Some(DriverFailed)}
      ensures totalAllocated <= memLimit
      ensures failure.None? ==> activeReservations == Charge(old(activeReservations), arena, n)
      ensures failure.Some? ==> activeReservations == old(activeReservations)
    {
      var upstream := n;
      if arena.Some? {
        BooksCharge(memLimit, totalAllocated, activeReservations, live, raw, issued, arena.value, n);
        upstream := OverflowCharge(activeReservations[arena.value].size, activeReservations[arena.value].used, n);
      }
      ChargeUndone(activeReservations, arena, n);
      activeReservations := Charge(activeReservations, arena, n);
      MaxOfIsMaximum(history, |history| - 1);
      var ok := DoReserve(upstream, spurious);
      if !ok {
        activeReservations := Discharge(activeReservations, arena, n);
        return Some(OutOfMemory);
      }
      if malloc.None? {
        DoRelease(upstream, spurious);
        activeReservations := Discharge(activeReservations, arena, n);
        return Some(DriverFailed);
      }
      return None;
    }

    method Carve(ptr: Ptr, nBlocks: nat) returns (blocks: seq<Block>)
      ensures |blocks| == nBlocks && Tiles(blocks, ptr, blockSize)
    {
      blocks := [];
      while |blocks| < nBlocks
        invariant |blocks| <= nBlocks && Tiles(blocks, ptr, blockSize)
      {
        blocks := blocks + [Block(ptr + |blocks| * blockSize, blockSize)];
      }
    }

    /** deallocate_multiple_blocks. A handle that is not in the table (an empty allocation, or one
        already returned) changes nothing. A live one gives back what the counter still holds for it:
        the overflow of its reservation, or all of it if the reservation is gone. */
    method DeallocateMultipleBlocks(alloc: MultipleBlocks, spurious: nat) returns (freed: Option<Ptr>)
      requires Valid()
      requires alloc.id in live ==> live[alloc.id].arena == alloc.arena
      modifies this
      ensures Valid()
      ensures raw == old(raw) && issued == old(issued) && peakAllocated == old(peakAllocated)
      ensures alloc.id !in old(liveAllocs) ==>
                && freed.None? && totalAllocated == old(totalAllocated) && liveAllocs == old(liveAllocs)
                && activeReservations == old(activeReservations)
      ensures alloc.id in old(liveAllocs) ==>
                var n := old(liveAllocs)[alloc.id].1;
                && freed == Some(old(liveAllocs)[alloc.id].0)
                && liveAllocs == old(liveAllocs) - {alloc.id} && live == old(live) - {alloc.id}
                && totalAllocated == old(totalAllocated) - Refund(old(activeReservations), alloc.arena, n)
                && activeReservations == Discharge(old(activeReservations), alloc.arena, n)
    {
      if alloc.id !in liveAllocs { return None; }
      var ptr, tracked := TakeOut(alloc);
      MaxOfIsMaximum(history, |history| - 1);
      DoRelease(tracked, spurious);
      return Some(ptr);
    }

    ghost predicate TableMatches()
      reads this`liveAllocs, this`live
    {
      && liveAllocs.Keys == live.Keys
      && (forall i :: i in live ==> liveAllocs[i].1 == live[i].bytes)
    }

    /** The span under the mutex: the table entry and the tracker go first, the credit is left over. */
    method TakeOut(alloc: MultipleBlocks) returns (ptr: Ptr, credit: nat)
      requires Valid() && alloc.id in liveAllocs && live[alloc.id].arena == alloc.arena
      modifies this`liveAllocs, this`live, this`activeReservations
      ensures var n := old(liveAllocs)[alloc.id].1;
              && ptr == old(liveAllocs)[alloc.id].0
              && credit == Refund(old(activeReservations), alloc.arena, n) <= totalAllocated
              && activeReservations == Discharge(old(activeReservations), alloc.arena, n)
      ensures liveAllocs == old(liveAllocs) - {alloc.id} && live == old(live) - {alloc.id} && TableMatches()
      ensures Books(memLimit, totalAllocated - credit, activeReservations, live, raw, issued)
    {
      BooksDealloc(memLimit, totalAllocated, activeReservations, live, raw, issued, alloc.id);
      ptr := liveAllocs[alloc.id].0;
      credit := liveAllocs[alloc.id].1;
      liveAllocs := liveAllocs - {alloc.id};
      live := live - {alloc.id};
      if alloc.arena.Some? && alloc.arena.value in activeReservations {
        var tr := activeReservations[alloc.arena.value];
        activeReservations := Discharge(activeReservations, alloc.arena, credit);
        credit := OverflowCredit(tr.size, tr.used, credit);
      }
    }

    /** allocate: one unmanaged block, charged in full. */
    method Allocate(bytes: nat, malloc: Option<Ptr>, ghost id: AllocId, spurious: nat) returns (r: Result<Ptr>)
      requires Valid() && id !in raw
      modifies this
      ensures Valid()
      ensures liveAllocs == old(liveAllocs) && live == old(live) && activeReservations == old(activeReservations)
      ensures r == Null <==> bytes == 0
      ensures bytes > 0 ==>
                && (r == Threw(OutOfMemory) <==> bytes > old(AvailableMemory()))
                && (r == Threw(DriverFailed) <==> bytes <= old(AvailableMemory()) && malloc.None?)
                && (r.Ok? ==> malloc == Some(r.value))
      ensures peakAllocated
           == if bytes <= old(AvailableMemory()) then Max(old(peakAllocated), old(totalAllocated) + bytes)
              else old(peakAllocated)
      ensures if r.Ok? then totalAllocated == old(totalAllocated) + bytes && raw == old(raw)[id := bytes]
              else totalAllocated == old(totalAllocated) && raw == old(raw)
    {
      if bytes == 0 { return Null; }
      MaxOfIsMaximum(history, |history| - 1);
      var ok := DoReserve(bytes, spurious);
      if !ok { return Threw(OutOfMemory); }
      if malloc.None? {
        DoRelease(bytes, spurious);
        return Threw(DriverFailed);
      }
      BooksRaw(memLimit, old(totalAllocated), activeReservations, live, raw, issued, id, bytes);
      raw := raw[id := bytes];
      return Ok(malloc.value);
    }

    /** deallocate takes the size on trust and clamps; the books stay in order exactly as far as the
        caller passes back what it allocated. */
    method Deallocate(ptr: Ptr, bytes: nat, ghost id: AllocId, spurious: nat)
      requires Valid()
      modifies this
      ensures ptr == 0 || (id in old(raw) && old(raw)[id] == bytes) ==> Valid()
      ensures ptr != 0 && id in old(raw) && old(raw)[id] == bytes ==> totalAllocated == old(totalAllocated) - bytes
      ensures liveAllocs == old(liveAllocs) && live == old(live) && activeReservations == old(activeReservations)
      ensures peakAllocated == old(peakAllocated) && Recorded()
      ensures raw == if ptr == 0 then old(raw) else old(raw) - {id}
      ensures totalAllocated == if ptr == 0 then old(totalAllocated) else Max(0, old(totalAllocated) - bytes)
    {
      if ptr != 0 {
        BooksRaw(memLimit, totalAllocated, activeReservations, live, raw, issued, id, bytes);
        raw := raw - {id};
        MaxOfIsMaximum(history, |history| - 1);
        DoRelease(bytes, spurious);
      }
    }
  }

  lemma ChargeUndone(res: map<Arena, Tracker>, arena: Option<Arena>, n: nat)
    ensures Discharge(Charge(res, arena, n), arena, n) == res
  {}
}
