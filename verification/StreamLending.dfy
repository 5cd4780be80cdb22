/** Every sequence of acquiring, moving, releasing and destroying handles, by any number of threads and
    over any number of pools. A handle is used by one thread at a time; taking a stream and putting it
    back happen under the pool's mutex, and a handle clears its fields only after that. */
module StreamLending {
  import opened Sums
  import opened Search
  import opened StreamPool

  type HandleId = nat

  /** All pools, all live handles, and the handles that have returned their stream and still show it. */
  datatype World = World(pools: map<PoolId, Pool>, handles: map<HandleId, Handle>, closing: set<HandleId>)

  /** Releasing is ReturnStream and NullOut; assigning is releasing the target, if it owns anything, and
      Transfer; destroying is releasing and Drop. */
  datatype Event =
    | Acquire(id: PoolId, policy: AcquirePolicy, created: Option<Stream>, h: HandleId)
    | MoveConstruct(src: HandleId, h: HandleId)
    | Transfer(dst: HandleId, src: HandleId)
    | ReturnStream(h: HandleId)
    | NullOut(h: HandleId)
    | Drop(h: HandleId)

  /** A new handle is not one of the live ones, and a stream just created is in no pool yet. */
  ghost predicate Enabled(w: World, e: Event) {
    match e
    case Acquire(p, _, created, h) =>
      && p in w.pools && h !in w.handles && |w.pools[p].streams| == |w.pools[p].free|
      && forall q :: q in w.pools && created.Some? ==> created.value !in w.pools[q].streams
    case MoveConstruct(src, h) => src in w.handles && src !in w.closing && h !in w.handles
    case Transfer(dst, src) =>
      dst != src && dst in w.handles && src in w.handles && !w.handles[dst].Owns() && src !in w.closing
    case ReturnStream(h) => h in w.handles && h !in w.closing && w.handles[h].Owns()
    case NullOut(h) => h in w.handles && h in w.closing
    case Drop(h) => h in w.handles && !w.handles[h].Owns()
  }

  /** The pools after a handle has given up what it owns. */
  function GivenUp(pools: map<PoolId, Pool>, x: Handle): map<PoolId, Pool> {
    if x.Owns() && x.pool.value in pools then pools[x.pool.value := pools[x.pool.value].Return(x.index.value)]
    else pools
  }

  ghost function Apply(w: World, e: Event): World
    requires Enabled(w, e)
  {
    match e
    case Acquire(p, policy, created, h) =>
      var (pool, x) := w.pools[p].Acquire(p, policy, created);
      w.(pools := w.pools[p := pool], handles := w.handles[h := x])
    case MoveConstruct(src, h) =>
      w.(handles := w.handles[h := w.handles[src]][src := w.handles[src].MovedFrom()])
    case Transfer(dst, src) =>
      w.(handles := w.handles[dst := w.handles[src]][src := w.handles[src].MovedFrom()])
    case ReturnStream(h) => w.(pools := GivenUp(w.pools, w.handles[h]), closing := w.closing + {h})
    case NullOut(h) => w.(handles := w.handles[h := w.handles[h].Released()], closing := w.closing - {h})
    case Drop(h) => w.(handles := w.handles - {h})
  }

  /** A handle's release and assignment, all told, are what the methods of the handle do. */
  lemma ReleaseIsTwoSteps(w: World, h: HandleId)
    requires Enabled(w, ReturnStream(h))
    ensures Enabled(Apply(w, ReturnStream(h)), NullOut(h))
    ensures Apply(Apply(w, ReturnStream(h)), NullOut(h))
         == World(GivenUp(w.pools, w.handles[h]), w.handles[h := w.handles[h].Released()], w.closing)
  {
    assert w.closing + {h} - {h} == w.closing;
  }

  /** The handle says entry `i` of pool `p` is its own. */
  predicate Holds(w: World, h: HandleId, p: PoolId, i: nat) {
    h in w.handles && w.handles[h].pool == Some(p) && w.handles[h].index == Some(i)
  }

  /** And it has not returned it. */
  predicate Owner(w: World, h: HandleId, p: PoolId, i: nat) { Holds(w, h, p, i) && h !in w.closing }

  predicate Out(w: World, p: PoolId, i: nat) {
    p in w.pools && i < |w.pools[p].free| && !w.pools[p].free[i]
  }

  predicate Has(w: World, p: PoolId, i: nat) { p in w.pools && i < |w.pools[p].streams| }

  ghost predicate Shaped(pools: map<PoolId, Pool>) {
    && (forall p :: p in pools ==> |pools[p].streams| == |pools[p].free|)
    && (forall p, q, i: nat, j: nat | p in pools && i < |pools[p].streams| && q in pools && j < |pools[q].streams| ::
          pools[p].streams[i] == pools[q].streams[j] ==> p == q && i == j)
  }

  /** A claim is on a stream of a pool, and the handle shows it; one without a pool has no index. */
  predicate Claims(w: World, x: Handle) {
    && (x.pool.Some? <==> x.index.Some?)
    && (x.Owns() ==> Has(w, x.pool.value, x.index.value) && x.view == Of(w.pools[x.pool.value].streams[x.index.value]))
  }

  ghost predicate Grounded(w: World) {
    && (forall h :: h in w.handles ==> Claims(w, w.handles[h]))
    && (forall h :: h in w.closing ==> h in w.handles && w.handles[h].Owns())
    && (forall h, p, i :: Owner(w, h, p, i) ==> Out(w, p, i))
  }

  ghost predicate Exclusive(w: World) {
    forall g, h, p, i :: Owner(w, g, p, i) && Owner(w, h, p, i) ==> g == h
  }

  ghost predicate Covered(w: World) {
    forall p, i :: Out(w, p, i) ==> exists h :: Owner(w, h, p, i)
  }

  ghost predicate Inv(w: World) {
    Shaped(w.pools) && Grounded(w) && Exclusive(w) && Covered(w)
  }

  // ---- what the steps keep ----

  /** Acquiring leaves everything as it was except, unless it falls back, for one entry that was not out
      before, is out now and is owned by the new handle. */
  lemma AcquireTakesOne(w: World, e: Event, p: PoolId, i: nat)
    requires Inv(w) && Enabled(w, e) && e.Acquire?
    ensures var w', x := Apply(w, e), Apply(w, e).handles[e.h];
            && (Out(w', p, i) <==> Out(w, p, i) || Holds(w', e.h, p, i))
            && (Holds(w', e.h, p, i) ==> !Out(w, p, i))
            && (Has(w, p, i) ==> Has(w', p, i) && w'.pools[p].streams[i] == w.pools[p].streams[i])
            && (Has(w', p, i) && !Has(w, p, i) ==>
                e.created == Some(w'.pools[p].streams[i]) && p == e.id && i == |w.pools[p].streams|)
            && Claims(w', x)
  {}

  lemma AcquireKeepsShape(w: World, e: Event)
    requires Inv(w) && Enabled(w, e) && e.Acquire?
    ensures Shaped(Apply(w, e).pools)
  {
    var w' := Apply(w, e);
    forall p, q, i: nat, j: nat | Has(w', p, i) && Has(w', q, j) && w'.pools[p].streams[i] == w'.pools[q].streams[j]
      ensures p == q && i == j
    {
      AcquireTakesOne(w, e, p, i);
      AcquireTakesOne(w, e, q, j);
    }
  }

  lemma AcquireKeepsInv(w: World, e: Event)
    requires Inv(w) && Enabled(w, e) && e.Acquire?
    ensures Inv(Apply(w, e))
  {
    var w' := Apply(w, e);
    AcquireKeepsShape(w, e);
    AcquireTakesOne(w, e, 0, 0);
    forall g, p, i ensures Owner(w', g, p, i) <==> if g == e.h then Holds(w', g, p, i) else Owner(w, g, p, i) {}
    forall p, i | Out(w', p, i) ensures exists h :: Owner(w', h, p, i) {
      AcquireTakesOne(w, e, p, i);
      if Out(w, p, i) {
        var h :| Owner(w, h, p, i);
        assert Owner(w', h, p, i);
      }
    }
    forall h | h in w'.handles ensures Claims(w', w'.handles[h]) {
      var x := w'.handles[h];
      if x.Owns() { AcquireTakesOne(w, e, x.pool.value, x.index.value); }
    }
    forall h, p, i | Owner(w', h, p, i) ensures Out(w', p, i) { AcquireTakesOne(w, e, p, i); }
    forall g, h, p, i | Owner(w', g, p, i) && Owner(w', h, p, i) ensures g == h { AcquireTakesOne(w, e, p, i); }
  }

  /** Moving hands a claim from one handle to another. */
  lemma MoveKeepsInv(w: World, e: Event)
    requires Inv(w) && Enabled(w, e) && (e.MoveConstruct? || e.Transfer?)
    ensures Inv(Apply(w, e))
  {
    var w' := Apply(w, e);
    var to: HandleId := if e.MoveConstruct? then e.h else e.dst;
    forall g, p, i ensures Owner(w', g, p, i) <==> g != e.src && Owner(w, if g == to then e.src else g, p, i) {}
    forall p, i | Out(w', p, i) ensures exists h :: Owner(w', h, p, i) {
      assert Out(w, p, i);
      var h: HandleId :| Owner(w, h, p, i);
      var h': HandleId := if h == e.src then to else h;
      assert Owner(w', h', p, i);
    }
  }

  /** What giving up does: exactly the given-up entry is no longer out. */
  lemma GivingUp(w: World, x: Handle, p: PoolId, i: nat)
    ensures var w' := w.(pools := GivenUp(w.pools, x));
            && (Out(w', p, i) <==> Out(w, p, i) && !(x.pool == Some(p) && x.index == Some(i)))
            && (Has(w', p, i) <==> Has(w, p, i))
            && (Has(w, p, i) ==> w'.pools[p].streams == w.pools[p].streams)
  {}

  lemma GivingUpKeepsShape(pools: map<PoolId, Pool>, x: Handle)
    requires Shaped(pools)
    ensures Shaped(GivenUp(pools, x))
  {}

  lemma ReturnKeepsInv(w: World, e: Event)
    requires Inv(w) && Enabled(w, e) && e.ReturnStream?
    ensures Inv(Apply(w, e))
  {
    var w', x := Apply(w, e), w.handles[e.h];
    GivingUpKeepsShape(w.pools, x);
    forall g, p, i ensures Owner(w', g, p, i) <==> g != e.h && Owner(w, g, p, i) {}
    assert Owner(w, e.h, x.pool.value, x.index.value);
    forall p, i | Out(w', p, i) ensures exists h :: Owner(w', h, p, i) {
      GivingUp(w, x, p, i);
      var h :| Owner(w, h, p, i);
      assert Owner(w', h, p, i);
    }
    forall h, p, i | Owner(w', h, p, i) ensures Out(w', p, i) { GivingUp(w, x, p, i); }
    forall h | h in w'.handles ensures Claims(w', w'.handles[h]) {
      var y := w'.handles[h];
      if y.Owns() { GivingUp(w, x, y.pool.value, y.index.value); }
    }
  }

  lemma ClearingKeepsInv(w: World, e: Event)
    requires Inv(w) && Enabled(w, e) && (e.NullOut? || e.Drop?)
    ensures Inv(Apply(w, e))
  {
    var w' := Apply(w, e);
    forall g, p, i ensures Owner(w', g, p, i) <==> Owner(w, g, p, i) {}
    forall p, i | Out(w', p, i) ensures exists h :: Owner(w', h, p, i) {
      assert Out(w, p, i);
      var h :| Owner(w, h, p, i);
      assert Owner(w', h, p, i);
    }
  }

  lemma StepKeepsInv(w: World, e: Event)
    requires Inv(w) && Enabled(w, e)
    ensures Inv(Apply(w, e))
  {
    match e
    case Acquire(_, _, _, _) => AcquireKeepsInv(w, e);
    case MoveConstruct(_, _) => MoveKeepsInv(w, e);
    case Transfer(_, _) => MoveKeepsInv(w, e);
    case ReturnStream(_) => ReturnKeepsInv(w, e);
    case _ => ClearingKeepsInv(w, e);
  }

  // ---- runs ----

  /** Pools as built, nothing lent. */
  ghost predicate Init(w: World) {
    Shaped(w.pools) && w.handles == map[] && w.closing == {} && forall p, i :: !Out(w, p, i)
  }

  ghost predicate StepAt(run: seq<World>, events: seq<Event>, i: nat)
    requires i < |events| && |run| == |events| + 1
  {
    Enabled(run[i], events[i]) && run[i + 1] == Apply(run[i], events[i])
  }

  ghost predicate IsRun(run: seq<World>, events: seq<Event>) {
    && |run| == |events| + 1
    && Init(run[0])
    && forall i :: 0 <= i < |events| ==> StepAt(run, events, i)
  }

  lemma {:induction false} RunKeepsInv(run: seq<World>, events: seq<Event>, n: nat)
    requires IsRun(run, events) && n < |run|
    ensures Inv(run[n])
  {
    if n > 0 {
      RunKeepsInv(run, events, n - 1);
      assert StepAt(run, events, n - 1);
      StepKeepsInv(run[n - 1], events[n - 1]);
    }
  }

  /** At every point of every history an entry of a pool is not free exactly when some live handle owns
      it, and then only one does. */
  lemma NotFreeMeansOneOwner(run: seq<World>, events: seq<Event>, n: nat, p: PoolId, i: nat)
    requires IsRun(run, events) && n < |run|
    ensures Out(run[n], p, i) <==> exists h :: Owner(run[n], h, p, i)
    ensures forall g, h :: Owner(run[n], g, p, i) && Owner(run[n], h, p, i) ==> g == h
  {
    RunKeepsInv(run, events, n);
  }

  /** Two live owners never show the same stream, not even across pools. */
  lemma OwnersShareNoStream(run: seq<World>, events: seq<Event>, n: nat, g: HandleId, h: HandleId)
    requires IsRun(run, events) && n < |run|
    requires g in run[n].handles && h in run[n].handles && g != h && g !in run[n].closing && h !in run[n].closing
    requires run[n].handles[g].Owns() && run[n].handles[h].Owns()
    ensures run[n].handles[g].view != run[n].handles[h].view
  {
    var w, x, y := run[n], run[n].handles[g], run[n].handles[h];
    RunKeepsInv(run, events, n);
    assert Claims(w, x) && Claims(w, y);
    assert Owner(w, g, x.pool.value, x.index.value) && Owner(w, h, y.pool.value, y.index.value);
  }

  /** A moved-from handle owns nothing yet still shows the stream; "exclusive" is about owners only. */
  lemma MovedFromStillShows(w: World, src: HandleId, h: HandleId)
    requires Inv(w) && Enabled(w, MoveConstruct(src, h)) && w.handles[src].Owns()
    ensures var w' := Apply(w, MoveConstruct(src, h));
            && !w'.handles[src].Owns() && w'.handles[h].Owns()
            && w'.handles[src].view == w'.handles[h].view
  {}

  /** Between returning its stream and clearing its fields, a handle names an entry that is free: a thread
      that acquires then is lent the very same entry exactly if every earlier one is out. */
  lemma ReturnedMayBeLentAgain(w: World, h: HandleId, e: Event)
    requires Inv(w) && Enabled(w, ReturnStream(h)) && e.Acquire? && w.handles[h].pool == Some(e.id)
    requires Enabled(Apply(w, ReturnStream(h)), e)
    ensures var w1 := Apply(w, ReturnStream(h));
            var x, y := w1.handles[h], Apply(w1, e).handles[e.h];
            && x == w.handles[h]
            && (y == x <==> forall i: nat :: i < x.index.value ==> Out(w, e.id, i))
  {
    var x := w.handles[h];
    assert Claims(w, x);
    var w1 := Apply(w, ReturnStream(h));
    var free := w1.pools[e.id].free;
    assert Owner(w, h, e.id, x.index.value);
    assert free == w.pools[e.id].free[x.index.value := true] && free[x.index.value];
    var k, n := First(free), x.index.value;
    assert k <= n && Apply(w1, e).handles[e.h].index == Some(k);
    forall i: nat | i < k ensures Out(w, e.id, i) { assert !free[i]; }
    if k < n { assert !Out(w, e.id, k); }
  }

  // ---- pool size ----

  /** How many entries are lent, that is, not free. */
  function Lent(free: seq<bool>): (n: nat)
    ensures n <= |free|
    ensures (forall i :: 0 <= i < |free| ==> !free[i]) ==> n == |free|
  {
    if free == [] then 0 else Lent(free[..|free| - 1]) + if free[|free| - 1] then 0 else 1
  }

  /** The live handles that own a stream of the pool. */
  ghost function Owners(w: World, p: PoolId): set<HandleId> {
    set h | h in w.handles && h !in w.closing && w.handles[h].Owns() && w.handles[h].pool.value == p
  }

  ghost function OwnersBelow(w: World, p: PoolId, n: nat): set<HandleId> {
    set h | h in Owners(w, p) && w.handles[h].index.value < n
  }

  /** One entry more: one owner more if it is out, and none if it is not. */
  lemma OneMoreEntry(w: World, p: PoolId, n: nat)
    requires Inv(w) && p in w.pools && n < |w.pools[p].free|
    ensures |OwnersBelow(w, p, n + 1)| == |OwnersBelow(w, p, n)| + if w.pools[p].free[n] then 0 else 1
  {
    var below, upTo := OwnersBelow(w, p, n), OwnersBelow(w, p, n + 1);
    forall g | g in upTo ensures Owner(w, g, p, w.handles[g].index.value) {}
    if Out(w, p, n) {
      var h :| Owner(w, h, p, n);
      assert upTo == below + {h};
    } else {
      assert upTo == below;
    }
  }

  lemma {:induction false} LentBelow(w: World, p: PoolId, n: nat)
    requires Inv(w) && p in w.pools && n <= |w.pools[p].free|
    ensures |OwnersBelow(w, p, n)| == Lent(w.pools[p].free[..n])
  {
    var free := w.pools[p].free;
    if n == 0 {
      assert OwnersBelow(w, p, 0) == {};
    } else {
      LentBelow(w, p, n - 1);
      OneMoreEntry(w, p, n - 1);
      assert free[..n][..n - 1] == free[..n - 1];
    }
  }

  /** The entries not free are as many as the live handles that own a stream of the pool. */
  lemma LentIsOwners(w: World, p: PoolId)
    requires Inv(w) && p in w.pools
    ensures Lent(w.pools[p].free) == |Owners(w, p)|
  {
    var free := w.pools[p].free;
    LentBelow(w, p, |free|);
    assert free[..|free|] == free;
    forall h | h in Owners(w, p) ensures w.handles[h].index.value < |free| { assert Claims(w, w.handles[h]); }
    assert OwnersBelow(w, p, |free|) == Owners(w, p);
  }

  /** A pool grows only when all its streams are out, so its new size is what is out then. */
  lemma GrowthIsLent(w: World, e: Event, p: PoolId)
    requires Inv(w) && Enabled(w, e) && p in w.pools
    ensures p in Apply(w, e).pools
    ensures |w.pools[p].streams| <= |Apply(w, e).pools[p].streams|
    ensures |Apply(w, e).pools[p].streams| <= Max(|w.pools[p].streams|, |Owners(Apply(w, e), p)|)
  {
    var w' := Apply(w, e);
    StepKeepsInv(w, e);
    LentIsOwners(w', p);
    if |w'.pools[p].streams| > |w.pools[p].streams| {
      assert w'.pools[p].free == w.pools[p].free + [false];
    }
  }

  /** Over a whole history a pool never holds more streams than it began with or than were ever out at
      one time, whichever is more. */
  lemma {:induction false} PoolSizeIsBounded(run: seq<World>, events: seq<Event>, n: nat, p: PoolId, most: nat)
    requires IsRun(run, events) && n < |run| && p in run[0].pools
    requires forall j :: 0 <= j <= n ==> |Owners(run[j], p)| <= most
    ensures p in run[n].pools
    ensures |run[0].pools[p].streams| <= |run[n].pools[p].streams| <= Max(|run[0].pools[p].streams|, most)
  {
    if n > 0 {
      PoolSizeIsBounded(run, events, n - 1, p, most);
      RunKeepsInv(run, events, n - 1);
      assert StepAt(run, events, n - 1);
      GrowthIsLent(run[n - 1], events[n - 1], p);
    }
  }

  /** Once no live handle owns anything, every stream is free again. */
  lemma AllReturned(run: seq<World>, events: seq<Event>, n: nat, p: PoolId)
    requires IsRun(run, events) && n < |run| && p in run[n].pools && Owners(run[n], p) == {}
    ensures forall i :: 0 <= i < |run[n].pools[p].free| ==> run[n].pools[p].free[i]
  {
    RunKeepsInv(run, events, n);
    LentIsOwners(run[n], p);
    NoneLent(run[n].pools[p].free);
  }

  lemma {:induction false} NoneLent(free: seq<bool>)
    requires Lent(free) == 0
    ensures forall i :: 0 <= i < |free| ==> free[i]
  {
    if free != [] {
      NoneLent(free[..|free| - 1]);
      assert forall i :: 0 <= i < |free| - 1 ==> free[i] == free[..|free| - 1][i];
    }
  }
}
