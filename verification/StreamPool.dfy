/** Exclusive stream lending: a pool marks which of its streams are out, and a handle owes its stream
    back exactly once, however it is moved around before. */
module StreamPool {
  import opened Sums
  import opened Search

  type Stream = nat
  type PoolId = nat

  /** What a handle shows: a pool's stream, the per-thread default stream, or the default view. */
  datatype View = Of(stream: Stream) | PerThread | Default

  datatype AcquirePolicy = GROW | BLOCK

  /** The values of a handle's fields; no index is the all-ones index. */
  datatype Handle = Handle(view: View, index: Option<nat>, pool: Option<PoolId>) {
    predicate Owns() { pool.Some? && index.Some? }

    /** What a move leaves behind: no claim, but still the old view. */
    function MovedFrom(): Handle { Handle(view, None, None) }

    function Released(): Handle { if Owns() then Handle(Default, None, None) else this }
  }

  /** The values of a pool's fields. */
  datatype Pool = Pool(streams: seq<Stream>, free: seq<bool>) {
    function Return(i: nat): Pool { if i < |free| then this.(free := free[i := true]) else this }

    /** The first free stream; else a new one, if the policy grows and creating one works; else the
        per-thread stream, which the pool does not own. */
    function Acquire(id: PoolId, policy: AcquirePolicy, created: Option<Stream>): (Pool, Handle)
      requires |streams| == |free|
    {
      var i := First(free);
      if i < |free| then
        (Pool(streams, free[i := false]), Handle(Of(streams[i]), Some(i), Some(id)))
      else if policy.GROW? && created.Some? then
        (Pool(streams + [created.value], free + [false]), Handle(Of(created.value), Some(|streams|), Some(id)))
      else
        (this, Handle(PerThread, None, None))
    }
  }

  /** A pool that blocks never changes its size, and lends exactly if a stream is free. */
  lemma BlockNeverGrows(p: Pool, id: PoolId, created: Option<Stream>)
    requires |p.streams| == |p.free|
    ensures var (p', h) := p.Acquire(id, BLOCK, created);
            p'.streams == p.streams && (h.Owns() <==> exists i :: 0 <= i < |p.free| && p.free[i])
  {}

  /** A pool that grows always lends if a stream can be created, and grows exactly if none is free. */
  lemma GrowAlwaysLends(p: Pool, id: PoolId, stream: Stream)
    requires |p.streams| == |p.free|
    ensures var (p', h) := p.Acquire(id, GROW, Some(stream));
            && h.Owns()
            && p'.streams == if exists i :: 0 <= i < |p.free| && p.free[i] then p.streams else p.streams + [stream]
  {}

  /** Whatever the policy: an owned handle shows the stream of the first entry that was free, or of a new entry if
      none was, and that entry is then taken; a handle that is not owned shows the per-thread stream and has left
      the pool alone. */
  lemma LentIsTaken(p: Pool, id: PoolId, policy: AcquirePolicy, created: Option<Stream>)
    requires |p.streams| == |p.free|
    ensures var (p', h) := p.Acquire(id, policy, created);
            && |p'.streams| == |p'.free| >= |p.free|
            && (h.Owns() ==>
                  && h.pool == Some(id) && h.index.value < |p'.free| && !p'.free[h.index.value]
                  && h.view == Of(p'.streams[h.index.value])
                  && (h.index.value < |p.free| ==> p.free[h.index.value])
                  && (forall j :: 0 <= j < h.index.value && j < |p.free| ==> !p.free[j])
                  && forall j :: 0 <= j < |p.free| && j != h.index.value ==>
                       p'.free[j] == p.free[j] && p'.streams[j] == p.streams[j])
            && (!h.Owns() ==> p' == p && h.view.PerThread?)
  {}

  /** The results that are there, in order. */
  function Successes(results: seq<Option<Stream>>): (s: seq<Stream>)
    ensures |s| <= |results|
    ensures forall x :: x in s <==> Some(x) in results
  {
    if results == [] then []
    else
      var n := |results| - 1;
      assert results == results[..n] + [results[n]];
      Successes(results[..n]) + if results[n].Some? then [results[n].value] else []
  }

  /** One call gives one stream, or none if it fails. */
  lemma SuccessesOfOne(r: Option<Stream>)
    ensures Successes([r]) == if r.Some? then [r.value] else []
  {
    assert [r][..0] == [];
  }

  lemma SuccessesSnoc(results: seq<Option<Stream>>, r: Option<Stream>)
    ensures Successes(results + [r]) == Successes(results) + Successes([r])
  {
    assert (results + [r])[..|results|] == results;
    SuccessesOfOne(r);
  }

  /** They are those of the first calls and then those of the others. */
  lemma {:induction false} SuccessesInOrder(a: seq<Option<Stream>>, b: seq<Option<Stream>>)
    ensures Successes(a + b) == Successes(a) + Successes(b)
    decreases |b|
  {
    if b == [] {
      assert a + b == a;
    } else {
      var rest, last := b[..|b| - 1], b[|b| - 1];
      assert a + b == (a + rest) + [last] && b == rest + [last];
      SuccessesInOrder(a, rest);
      SuccessesSnoc(a + rest, last);
      SuccessesSnoc(rest, last);
      var k, k', one := Successes(a), Successes(rest), Successes([last]);
      assert k + k' + one == k + (k' + one);
    }
  }

  class ExclusiveStreamPool {
    const id: PoolId
    var streams: seq<Stream>
    var free: seq<bool>

    /** `created` are the outcomes of creating the initial streams; failures are left out. */
    constructor (id: PoolId, created: seq<Option<Stream>>)
      ensures this.id == id && streams == Successes(created)
      ensures |free| == |streams| && forall i :: 0 <= i < |free| ==> free[i]
    {
      this.id := id;
      streams, free := [], [];
      new;
      for i := 0 to |created|
        invariant |free| == |streams| && forall j :: 0 <= j < |free| ==> free[j]
        invariant streams == Successes(created[..i])
      {
        assert created[..i + 1][..i] == created[..i];
        if created[i].Some? {
          streams := streams + [created[i].value];
          free := free + [true];
        }
      }
      assert created[..|created|] == created;
    }

    function Fields(): Pool
      reads this
    {
      Pool(streams, free)
    }

    method AcquireStream(policy: AcquirePolicy, created: Option<Stream>) returns (h: BorrowedStream)
      requires |streams| == |free|
      modifies this
      ensures fresh(h) && (h.pool == null || h.pool == this)
      ensures (Fields(), h.Fields()) == old(Fields()).Acquire(id, policy, created)
    {
      var i := 0;
      while i < |free|
        invariant i <= |free|
        invariant First(free) == First(free, i)
      {
        if free[i] {
          free := free[i := false];
          h := new BorrowedStream(Of(streams[i]), Some(i), this);
          return;
        }
        i := i + 1;
      }
      if policy == GROW {
        var index := |streams|;
        if created.Some? {
          streams := streams + [created.value];
          free := free + [false];
          h := new BorrowedStream(Of(created.value), Some(index), this);
          return;
        }
      }
      h := new BorrowedStream(PerThread, None, null);
    }

    method ReturnStream(index: nat)
      modifies this`free
      ensures Fields() == old(Fields()).Return(index)
    {
      if index < |free| {
        free := free[index := true];
      }
    }
  }

  class BorrowedStream {
    var view: View
    var index: Option<nat>
    var pool: ExclusiveStreamPool?

    constructor (view: View, index: Option<nat>, pool: ExclusiveStreamPool?)
      ensures this.view == view && this.index == index && this.pool == pool
    {
      this.view, this.index, this.pool := view, index, pool;
    }

    function Fields(): Handle
      reads this
    {
      Handle(view, index, if pool == null then None else Some(pool.id))
    }

    constructor Move(other: BorrowedStream)
      modifies other
      ensures Fields() == old(other.Fields()) && pool == old(other.pool)
      ensures other.Fields() == old(other.Fields()).MovedFrom()
    {
      view, index, pool := other.view, other.index, other.pool;
      new;
      other.pool := null;
      other.index := None;
    }

    method Release()
      modifies this, if pool == null then {} else {pool}
      ensures Fields() == old(Fields()).Released()
      ensures old(Fields()).Owns() ==> view == Default && index == None && pool == null
      ensures old(Fields()).Owns() ==> old(pool).Fields() == old(pool.Fields()).Return(old(index).value)
      ensures !old(Fields()).Owns() ==> pool == old(pool) && (pool != null ==> pool.Fields() == old(pool.Fields()))
    {
      if pool != null && index.Some? {
        pool.ReturnStream(index.value);
        pool := null;
        index := None;
        view := Default;
      }
    }

    /** Assigning a handle to itself changes nothing; otherwise the stream held so far goes back
        first and the source keeps no claim. */
    method MoveAssign(other: BorrowedStream)
      modifies this, other, if pool == null then {} else {pool}
      ensures this == other ==> Fields() == old(Fields()) && pool == old(pool)
      ensures this != other ==>
                && Fields() == old(other.Fields()) && pool == old(other.pool)
                && other.Fields() == old(other.Fields()).MovedFrom()
      ensures old(pool) != null ==>
                old(pool).Fields()
                  == if this != other && old(index).Some? then old(pool.Fields()).Return(old(index).value)
                     else old(pool.Fields())
    {
      if this != other {
        Release();
        view, index, pool := other.view, other.index, other.pool;
        other.pool := null;
        other.index := None;
      }
    }

    method Destroy()
      modifies this, if pool == null then {} else {pool}
      ensures !Fields().Owns()
      ensures old(Fields()).Owns() ==> old(pool).Fields() == old(pool.Fields()).Return(old(index).value)
      ensures old(pool) != null && !old(Fields()).Owns() ==> old(pool).Fields() == old(pool.Fields())
    {
      Release();
    }
  }
}
