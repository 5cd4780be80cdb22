/** The byte arithmetic of the pinned host pool: what is charged, what is credited, and what the
    single counter is supposed to equal. Shared by the sequential class and by the thread model. */
module HostAccounting {
  import opened Sums
  import opened Width

  type Arena = nat
  type AllocId = nat

  /** An entry of the reservation map: the arena's size and the bytes allocated under it. */
  datatype Tracker = Tracker(size: nat, used: int)

  /** A live multi-block allocation and the arena it was charged against, if any. */
  datatype Alloc = Alloc(bytes: nat, arena: Option<Arena>)

  /** `static_cast<int64_t>` of a 64-bit quantity. */
  function AsInt64(x: int): int {
    var w := x % TWO_64;
    if w < TWO_63 then w else w - TWO_64
  }

  function AlignUp(bytes: nat, blockSize: nat): nat {
    if blockSize == 0 then bytes
    else if bytes > SIZE_MAX - (blockSize - 1) then SIZE_MAX
    else ((bytes + blockSize - 1) / blockSize) * blockSize
  }

  /** Bytes an allocation under a reservation adds to the counter. */
  function OverflowCharge(size: nat, pre: int, bytes: nat): int {
    var limit := AsInt64(size);
    var post := AsInt64(pre + AsInt64(bytes));
    if post <= limit then 0
    else if pre < limit then (post - limit) % TWO_64
    else bytes
  }

  /** Bytes a deallocation under a reservation takes off the counter. */
  function OverflowCredit(size: nat, pre: int, bytes: nat): int {
    var limit := AsInt64(size);
    var post := AsInt64(pre - AsInt64(bytes));
    if pre <= limit then 0
    else if post < limit then (pre - limit) % TWO_64
    else bytes
  }

  /** Bytes the release of a reservation takes off the counter. */
  function Unconsumed(size: nat, used: int): nat {
    var current := Max(0, used);
    var limit := AsInt64(size);
    if limit > current then limit - current else 0
  }

  /** What the counter holds for one registered reservation. */
  function Committed(t: Tracker): int { Max(t.size, t.used) }

  function CommittedMap(res: map<Arena, Tracker>): map<Arena, int> {
    map a | a in res :: Committed(res[a])
  }

  predicate Orphaned(x: Alloc, arenas: set<Arena>) {
    x.arena.None? || x.arena.value !in arenas
  }

  /** Bytes of the live allocations without a registered reservation; zero for the others. */
  function OrphanMap(live: map<AllocId, Alloc>, arenas: set<Arena>): map<AllocId, int> {
    map i | i in live :: if Orphaned(live[i], arenas) then live[i].bytes else 0
  }

  function UnderMap(live: map<AllocId, Alloc>, a: Arena): map<AllocId, int> {
    map i | i in live :: if live[i].arena == Some(a) then live[i].bytes else 0
  }

  ghost function Under(live: map<AllocId, Alloc>, a: Arena): int { Sum(UnderMap(live, a)) }

  /** The committed bytes of the pool: each reservation once at the larger of its size and its use,
      and each unreserved live byte once. */
  ghost function Potential(res: map<Arena, Tracker>, live: map<AllocId, Alloc>, raw: map<AllocId, int>): int {
    Sum(CommittedMap(res)) + Sum(OrphanMap(live, res.Keys)) + Sum(raw)
  }

  // ---- the formulas ----

  lemma CastIsExact(x: int)
    requires 0 - TWO_63 <= x < TWO_63
    ensures AsInt64(x) == x
  {}

  /** In the admitted range the casts change nothing: the charge is the growth of max(size, used). */
  lemma OverflowChargeIsGrowth(size: nat, pre: nat, bytes: nat)
    requires size < TWO_62 && pre < TWO_62 && bytes < TWO_62
    ensures OverflowCharge(size, pre, bytes) == Max(size, pre + bytes) - Max(size, pre)
  {
    CastIsExact(size);
    CastIsExact(bytes);
    CastIsExact(pre + bytes);
  }

  lemma OverflowCreditIsShrinkage(size: nat, pre: nat, bytes: nat)
    requires size < TWO_62 && bytes <= pre < TWO_62
    ensures OverflowCredit(size, pre, bytes) == Max(size, pre) - Max(size, pre - bytes)
  {
    CastIsExact(size);
    CastIsExact(bytes);
    CastIsExact(pre - bytes);
  }

  /** The credit of one allocation need not be what it was charged: it is exactly if the use below the
      allocation is the same at both times, or both times all of it, or none of it, fits the size. */
  lemma CreditIsChargeIff(size: nat, pre: nat, now: nat, bytes: nat)
    requires size < TWO_62 && pre < TWO_62 && 0 < bytes <= now < TWO_62
    ensures OverflowCharge(size, pre, bytes) == OverflowCredit(size, now, bytes)
            <==> pre == now - bytes || (pre + bytes <= size && now <= size) || (pre >= size && now - bytes >= size)
  {
    OverflowChargeIsGrowth(size, pre, bytes);
    OverflowCreditIsShrinkage(size, now, bytes);
  }

  lemma UnconsumedIsSlack(size: nat, used: nat)
    requires size < TWO_62
    ensures Unconsumed(size, used) == Max(size, used) - used
  {}

  /** Outside that range the charge is wrong: half of the 64-bit sizes read as negative numbers
      and are charged nothing at all. Exactly the sizes from 2^63 on are affected. */
  lemma ChargeOfFreshReservation(size: nat, bytes: nat)
    requires size < TWO_62 && bytes <= SIZE_MAX
    ensures OverflowCharge(size, 0, bytes) == Max(size, bytes) - size <==> bytes < TWO_63
  {}

  /** Rounding up gives the least multiple of the block size that holds the request, saturates where that
      would not fit 64 bits, and does nothing without a block size. */
  lemma AlignUpIsLeastMultiple(bytes: nat, blockSize: nat, k: nat)
    requires bytes <= SIZE_MAX && blockSize <= SIZE_MAX
    ensures blockSize == 0 ==> AlignUp(bytes, blockSize) == bytes
    ensures blockSize > 0 && bytes + blockSize - 1 > SIZE_MAX ==> AlignUp(bytes, blockSize) == SIZE_MAX
    ensures blockSize > 0 && bytes + blockSize - 1 <= SIZE_MAX ==>
              && AlignUp(bytes, blockSize) % blockSize == 0
              && bytes <= AlignUp(bytes, blockSize) < bytes + blockSize
              && (bytes <= k * blockSize ==> AlignUp(bytes, blockSize) <= k * blockSize)
  {
    if blockSize > 0 {
      LeastMultiple(bytes, blockSize, k);
    }
  }

  lemma LeastMultiple(bytes: nat, b: nat, k: nat)
    requires b > 0
    ensures var up := ((bytes + b - 1) / b) * b;
            up % b == 0 && bytes <= up < bytes + b && (bytes <= k * b ==> up <= k * b)
  {
    var x := bytes + b - 1;
    var q := x / b;
    ModOfMultiple(q, b);
    assert x == q * b + x % b;
    if bytes <= k * b { LeastFactor(q, k, b, x); }
  }

  lemma LeastFactor(q: nat, k: nat, b: nat, x: nat)
    requires b > 0 && q * b <= x && x < k * b + b
    ensures q * b <= k * b
  {
    assert q >= k + 1 ==> q * b >= (k + 1) * b;
    assert (k + 1) * b == k * b + b;
  }

  /** The bytes of the whole blocks an allocation asks for. */
  function BlockBytes(bytes: nat, blockSize: nat): nat
    requires blockSize > 0
  {
    (AlignUp(bytes, blockSize) / blockSize) * blockSize
  }

  /** They are the rounded request; where that saturates, they are more than any limit in use. */
  lemma BlockBytesCovers(bytes: nat, blockSize: nat)
    requires bytes <= SIZE_MAX && 0 < blockSize <= SIZE_MAX
    ensures bytes + blockSize - 1 <= SIZE_MAX ==> BlockBytes(bytes, blockSize) == AlignUp(bytes, blockSize)
    ensures bytes + blockSize - 1 > SIZE_MAX ==> BlockBytes(bytes, blockSize) > TWO_63 - 1
    ensures BlockBytes(bytes, blockSize) % blockSize == 0
    ensures BlockBytes(bytes, blockSize) / blockSize == AlignUp(bytes, blockSize) / blockSize
    ensures bytes > 0 ==> BlockBytes(bytes, blockSize) > 0
  {
    ModOfMultiple(AlignUp(bytes, blockSize) / blockSize, blockSize);
    if bytes + blockSize - 1 <= SIZE_MAX {
      LeastMultiple(bytes, blockSize, 0);
    } else {
      FloorIsHalf(SIZE_MAX, blockSize);
    }
  }

  /** The largest multiple of `b` up to `w` is more than half of it. */
  lemma FloorIsHalf(w: nat, b: nat)
    requires 0 < b <= w
    ensures 2 * ((w / b) * b) > w
  {
    var q := w / b;
    assert w == q * b + w % b;
    assert q >= 1 ==> q * b >= b;
  }

  lemma ModOfMultiple(q: nat, b: nat)
    requires b > 0
    ensures (q * b) % b == 0 && (q * b) / b == q
  {
    var x := q * b;
    var d := x / b - q;
    assert d * b == -(x % b);
    assert d >= 1 ==> d * b >= b;
    assert d <= -1 ==> d * b <= -1 * b;
  }

  // ---- how the potential moves ----

  /** Allocating adds the bytes to the arena they were charged against, and to no other. */
  lemma UnderOfAdded(live: map<AllocId, Alloc>, id: AllocId, x: Alloc, a: Arena)
    requires id !in live
    ensures Under(live[id := x], a) == Under(live, a) + if x.arena == Some(a) then x.bytes else 0
  {
    var v := if x.arena == Some(a) then x.bytes else 0;
    assert UnderMap(live[id := x], a) == UnderMap(live, a)[id := v];
    SumSet(UnderMap(live, a), id, v);
  }

  lemma UnderOfRemoved(live: map<AllocId, Alloc>, id: AllocId, a: Arena)
    requires id in live
    ensures Under(live - {id}, a) == Under(live, a) - if live[id].arena == Some(a) then live[id].bytes else 0
  {
    assert UnderMap(live - {id}, a) == UnderMap(live, a) - {id};
    SumSplit(UnderMap(live, a), id);
  }

  lemma UnderBounds(live: map<AllocId, Alloc>, id: AllocId, a: Arena)
    ensures 0 <= Under(live, a)
    ensures id in live && live[id].arena == Some(a) ==> live[id].bytes <= Under(live, a)
  {
    SumBounds(UnderMap(live, a), id);
  }

  lemma PotentialTracker(res: map<Arena, Tracker>, live: map<AllocId, Alloc>, raw: map<AllocId, int>,
                         a: Arena, t: Tracker)
    requires a in res
    ensures Potential(res[a := t], live, raw) == Potential(res, live, raw) - Committed(res[a]) + Committed(t)
  {
    assert CommittedMap(res[a := t]) == CommittedMap(res)[a := Committed(t)];
    SumSet(CommittedMap(res), a, Committed(t));
    assert res[a := t].Keys == res.Keys;
  }

  /** Registering an arena no allocation refers to commits exactly its size. */
  lemma PotentialRegister(res: map<Arena, Tracker>, live: map<AllocId, Alloc>, raw: map<AllocId, int>,
                          a: Arena, t: Tracker)
    requires a !in res
    requires forall i :: i in live ==> live[i].arena != Some(a)
    ensures Potential(res[a := t], live, raw) == Potential(res, live, raw) + Committed(t)
  {
    assert CommittedMap(res[a := t]) == CommittedMap(res)[a := Committed(t)];
    SumSet(CommittedMap(res), a, Committed(t));
    assert OrphanMap(live, res[a := t].Keys) == OrphanMap(live, res.Keys);
  }

  /** Dropping a reservation orphans its live allocations: they become committed in their own right. */
  lemma PotentialRelease(res: map<Arena, Tracker>, live: map<AllocId, Alloc>, raw: map<AllocId, int>, a: Arena)
    requires a in res
    ensures Potential(res - {a}, live, raw)
         == Potential(res, live, raw) - Committed(res[a]) + Under(live, a)
  {
    assert CommittedMap(res - {a}) == CommittedMap(res) - {a};
    SumSplit(CommittedMap(res), a);
    OrphansOfRelease(live, res.Keys, a);
    assert (res - {a}).Keys == res.Keys - {a};
  }

  lemma OrphansOfRelease(live: map<AllocId, Alloc>, arenas: set<Arena>, a: Arena)
    requires a in arenas
    ensures Sum(OrphanMap(live, arenas - {a})) == Sum(OrphanMap(live, arenas)) + Under(live, a)
  {
    SumZip(OrphanMap(live, arenas), UnderMap(live, a), OrphanMap(live, arenas - {a}));
  }

  lemma PotentialAlloc(res: map<Arena, Tracker>, live: map<AllocId, Alloc>, raw: map<AllocId, int>,
                       id: AllocId, x: Alloc)
    requires id !in live
    ensures Potential(res, live[id := x], raw)
         == Potential(res, live, raw) + if Orphaned(x, res.Keys) then x.bytes else 0
  {
    var v := if Orphaned(x, res.Keys) then x.bytes else 0;
    assert OrphanMap(live[id := x], res.Keys) == OrphanMap(live, res.Keys)[id := v];
    SumSet(OrphanMap(live, res.Keys), id, v);
  }

  lemma PotentialDealloc(res: map<Arena, Tracker>, live: map<AllocId, Alloc>, raw: map<AllocId, int>, id: AllocId)
    requires id in live
    ensures Potential(res, live - {id}, raw)
         == Potential(res, live, raw) - if Orphaned(live[id], res.Keys) then live[id].bytes else 0
  {
    assert OrphanMap(live - {id}, res.Keys) == OrphanMap(live, res.Keys) - {id};
    SumSplit(OrphanMap(live, res.Keys), id);
  }

  lemma PotentialRaw(res: map<Arena, Tracker>, live: map<AllocId, Alloc>, raw: map<AllocId, int>, id: AllocId, v: int)
    ensures Potential(res, live, raw[id := v]) == Potential(res, live, raw) - At(raw, id) + v
    ensures id in raw ==> Potential(res, live, raw - {id}) == Potential(res, live, raw) - raw[id]
  {
    SumSet(raw, id, v);
    if id in raw { SumSplit(raw, id); }
  }

  /** Every part of the potential is non-negative, so each is at most the whole. */
  lemma PotentialBounds(res: map<Arena, Tracker>, live: map<AllocId, Alloc>, raw: map<AllocId, int>,
                        a: Arena, id: AllocId)
    requires forall i :: i in raw ==> 0 <= raw[i]
    ensures 0 <= Potential(res, live, raw)
    ensures a in res ==> res[a].size <= Committed(res[a]) <= Potential(res, live, raw)
    ensures a in res ==> res[a].used <= Committed(res[a])
    ensures id in live && Orphaned(live[id], res.Keys) ==> live[id].bytes <= Potential(res, live, raw)
    ensures id in raw ==> raw[id] <= Potential(res, live, raw)
  {
    SumBounds(CommittedMap(res), a);
    SumBounds(OrphanMap(live, res.Keys), id);
    SumBounds(raw, id);
  }

  // ---- what the potential covers ----

  function SizeMap(res: map<Arena, Tracker>): map<Arena, int> { map a | a in res :: res[a].size }

  function BytesMap(live: map<AllocId, Alloc>): map<AllocId, int> { map i | i in live :: live[i].bytes }

  ghost function ReservedBytes(res: map<Arena, Tracker>): int { Sum(SizeMap(res)) }

  ghost function LiveBytes(live: map<AllocId, Alloc>): int { Sum(BytesMap(live)) }

  /** Reserved bytes never exceed the committed bytes; with any one reservation counted at its use. */
  lemma ReservedWithinPotential(res: map<Arena, Tracker>, live: map<AllocId, Alloc>, raw: map<AllocId, int>, a: Arena)
    requires forall i :: i in raw ==> 0 <= raw[i]
    ensures ReservedBytes(res) <= Potential(res, live, raw)
    ensures a in res ==> ReservedBytes(res) + Committed(res[a]) - res[a].size <= Potential(res, live, raw)
  {
    SumGap(SizeMap(res), CommittedMap(res), a);
    SumBounds(OrphanMap(live, res.Keys), 0);
    SumBounds(raw, 0);
  }

  /** If every tracker holds at least the live bytes under its arena, all live bytes are committed. */
  lemma {:induction false} LiveWithinPotential(res: map<Arena, Tracker>, live: map<AllocId, Alloc>)
    requires forall a :: a in res ==> Under(live, a) <= res[a].used
    ensures LiveBytes(live) <= Sum(CommittedMap(res)) + Sum(OrphanMap(live, res.Keys))
    decreases res.Keys
  {
    if res == map[] {
      assert OrphanMap(live, res.Keys) == BytesMap(live);
      assert CommittedMap(res) == map[];
    } else {
      var a :| a in res;
      var rest := res - {a};
      assert rest.Keys == res.Keys - {a};
      LiveWithinPotential(rest, live);
      OrphansOfRelease(live, res.Keys, a);
      assert CommittedMap(rest) == CommittedMap(res) - {a};
      SumSplit(CommittedMap(res), a);
    }
  }
}
