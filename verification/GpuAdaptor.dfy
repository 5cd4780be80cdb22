/** The reservation-aware adaptor between whole calls: the spill cascade, the policies and the
    counters. What the underlying allocators and the policy answer are parameters. */
module GpuAdaptor {
  import opened Sums
  import opened GpuBooks

  /** A pointer in the hands of a caller. */
  datatype Handed = Handed(bytes: nat, origin: Origin)

  /** The answers of the four places a pointer can come from; none means a failure of any kind. */
  datatype Answers = Answers(upstream: Option<Ptr>, managed: Option<Ptr>, pinned: Option<Ptr>, policy: Option<Ptr>)

  ghost function BytesOf(live: map<Ptr, Handed>): map<Ptr, int> { map p | p in live :: live[p].bytes }

  /** The spill map the live pointers call for. */
  ghost function SpillsOf(live: map<Ptr, Handed>): map<Ptr, Spill> {
    map p | p in live && !live[p].origin.Upstream? :: Spill(live[p].bytes, live[p].origin.Managed?)
  }

  /** The spill map is exactly the live fallback pointers with their tags, the total is exactly the
      live bytes, and no stream is over the limit unless a policy took it there. */
  ghost predicate Sound(limit: nat, b: Books, live: map<Ptr, Handed>, overridden: set<StreamId>) {
    && b.spilled == SpillsOf(live)
    && b.total == Sum(BytesOf(live))
    && (limit != 0 ==> forall s :: s in b.trackers && s !in overridden ==> b.trackers[s].current <= limit)
  }

  /** A pointer handed out keeps the books sound if its stream stays within the limit or a policy took
      responsibility for it. */
  lemma HandingOut(limit: nat, b: Books, live: map<Ptr, Handed>, ov: set<StreamId>, p: Ptr, s: StreamId, n: nat,
                   o: Origin)
    requires Sound(limit, b, live, ov) && p !in live
    requires limit == 0 || s in ov || TrackerOf(b, s).current + n <= limit
    ensures Sound(limit, Charged(Recorded(b, p, n, o), s, n), live[p := Handed(n, o)], ov)
  {
    var live' := live[p := Handed(n, o)];
    assert BytesOf(live') == BytesOf(live)[p := n];
    SumSet(BytesOf(live), p, n);
    assert SpillsOf(live') == if o.Upstream? then SpillsOf(live) else SpillsOf(live)[p := Spill(n, o.Managed?)];
  }

  /** The tracker a call makes on entry does not show in what it charges later. */
  lemma TouchingIsQuiet(b: Books, s: StreamId, p: Ptr, n: nat, o: Origin)
    ensures Charged(Recorded(Touched(b, s), p, n, o), s, n) == Charged(Recorded(b, p, n, o), s, n)
  {}

  /** A pointer taken back with its own size keeps the books sound, and the total is not clamped. */
  lemma TakingBack(limit: nat, b: Books, live: map<Ptr, Handed>, ov: set<StreamId>, p: Ptr, s: StreamId)
    requires Sound(limit, b, live, ov) && p in live
    ensures FreedAs(b, p) == live[p].origin
    ensures b.total >= live[p].bytes
    ensures Sound(limit, Credited(b, s, live[p].bytes).(spilled := b.spilled - {p}), live - {p}, ov)
  {
    SumSplit(BytesOf(live), p);
    assert BytesOf(live - {p}) == BytesOf(live) - {p};
    SumBounds(BytesOf(live - {p}), p);
    assert SpillsOf(live - {p}) == SpillsOf(live) - {p};
  }

  class ReservationAwareResourceAdaptor {
    const reservationLimit: nat
    var totalAllocated: nat
    var streamTracker: map<StreamId, Tracker>
    var hostSpilled: map<Ptr, Spill>
    ghost var live: map<Ptr, Handed>
    ghost var overridden: set<StreamId>    // streams a policy took over the limit

    constructor (limit: nat)
      ensures Valid() && reservationLimit == limit && live == map[] && Records() == Books(0, map[], map[])
    {
      reservationLimit, totalAllocated, streamTracker, hostSpilled := limit, 0, map[], map[];
      live, overridden := map[], {};
      new;
      SumZero(BytesOf(live));
    }

    function Records(): Books
      reads this`totalAllocated, this`streamTracker, this`hostSpilled
    {
      Books(totalAllocated, streamTracker, hostSpilled)
    }

    ghost predicate Valid()
      reads this
    {
      Sound(reservationLimit, Records(), live, overridden)
    }

    method RaisePeak(peak: nat, now: nat, spurious: nat) returns (raised: nat)
      ensures raised == Max(peak, now)
    {
      raised := peak;
      var retries := spurious;
      while now > raised
        invariant raised == peak || raised == now
        decreases now - raised, retries
      {
        if retries == 0 { raised := now; } else { retries := retries - 1; }
      }
    }

    method ChargeStream(stream: StreamId, bytes: nat)
      modifies this`totalAllocated, this`streamTracker
      ensures Records() == Charged(old(Records()), stream, bytes)
      ensures totalAllocated == old(totalAllocated) + bytes && streamTracker - {stream} == old(streamTracker) - {stream}
      ensures var t, t' := TrackerOf(old(Records()), stream), TrackerOf(Records(), stream);
              && t'.current == t.current + bytes && t'.hasPolicy == t.hasPolicy
              && t'.peak == if t.peak < t'.current then t'.current else t.peak
    {
      var tracker := if stream in streamTracker then streamTracker[stream] else Tracker(0, 0, false);
      var now := tracker.current + bytes;
      var peak := RaisePeak(tracker.peak, now, 0);
      streamTracker := streamTracker[stream := tracker.(current := now, peak := peak)];
      totalAllocated := totalAllocated + bytes;
    }

    /** The cascade below the limit check: device, managed, pinned, policy. A fallback pointer is put
        into the spill map with its tag. */
    method Obtain(bytes: nat, a: Answers, hasPolicy: bool) returns (r: Option<Ptr>, origin: Origin)
      modifies this`hostSpilled
      ensures a.upstream.Some? ==> r == a.upstream && origin.Upstream?
      ensures a.upstream.None? && a.managed.Some? ==> r == a.managed && origin.Managed?
      ensures a.upstream.None? && a.managed.None? && a.pinned.Some? ==> r == a.pinned && origin.Pinned?
      ensures a.upstream.None? && a.managed.None? && a.pinned.None? ==>
                r == (if hasPolicy then a.policy else None) && origin.Upstream?
      ensures Records() == if r.Some? then Recorded(old(Records()), r.value, bytes, origin) else old(Records())
    {
      if a.upstream.Some? { return a.upstream, Upstream; }
      if a.managed.Some? {
        hostSpilled := hostSpilled[a.managed.value := Spill(bytes, true)];
        return a.managed, Managed;
      }
      if a.pinned.Some? {
        hostSpilled := hostSpilled[a.pinned.value := Spill(bytes, false)];
        return a.pinned, Pinned;
      }
      return if hasPolicy then a.policy else None, Upstream;
    }

    /** An exception is a missing result; then nothing but an empty tracker can be new. Over the limit
        only the policy is asked, otherwise the first tier that answers is used and the policy last. */
    method Allocate(stream: StreamId, bytes: nat, a: Answers) returns (r: Option<Ptr>, ghost origin: Origin)
      requires Valid()
      requires forall p :: Some(p) in {a.upstream, a.managed, a.pinned, a.policy} ==> p !in live
      modifies this
      ensures Valid()
      ensures var t := TrackerOf(old(Records()), stream);
              var over := reservationLimit != 0 && t.current + bytes > reservationLimit;
              && (over ==> r == (if t.hasPolicy then a.policy else None) && origin.Upstream?)
              && (!over && a.upstream.Some? ==> r == a.upstream && origin.Upstream?)
              && (!over && a.upstream.None? && a.managed.Some? ==> r == a.managed && origin.Managed?)
              && (!over && a.upstream.None? && a.managed.None? && a.pinned.Some? ==> r == a.pinned && origin.Pinned?)
              && (!over && a.upstream.None? && a.managed.None? && a.pinned.None? ==>
                    r == (if t.hasPolicy then a.policy else None) && origin.Upstream?)
              && overridden == old(overridden) + if over && r.Some? then {stream} else {}
      ensures r.None? ==> Records() == Touched(old(Records()), stream) && live == old(live)
      ensures r.Some? ==>
                && live == old(live)[r.value := Handed(bytes, origin)]
                && Records() == Charged(Recorded(old(Records()), r.value, bytes, origin), stream, bytes)
    {
      var tracker := if stream in streamTracker then streamTracker[stream] else Tracker(0, 0, false);
      streamTracker := streamTracker[stream := tracker];
      assert Records() == Touched(old(Records()), stream);
      if reservationLimit != 0 && (bytes > reservationLimit || tracker.current > reservationLimit - bytes) {
        r, origin := if tracker.hasPolicy then a.policy else None, Upstream;
        overridden := overridden + if r.Some? then {stream} else {};
      } else {
        r, origin := Obtain(bytes, a, tracker.hasPolicy);
      }
      if r.Some? {
        HandingOut(reservationLimit, old(Records()), live, overridden, r.value, stream, bytes, origin);
        TouchingIsQuiet(old(Records()), stream, r.value, bytes, origin);
        ChargeStream(stream, bytes);
        live := live[r.value := Handed(bytes, origin)];
      }
    }

    /** The pointer is freed by what the spill map says of it and the size is taken on trust, clamped. A
        caller's own pointer, returned with its own size, is freed by the function that matches its
        origin, is not clamped on the total, and leaves the books sound. */
    method Deallocate(stream: StreamId, ptr: Ptr, bytes: nat) returns (freedBy: Origin)
      requires Valid()
      modifies this
      ensures freedBy == FreedAs(old(Records()), ptr)
      ensures Records() == Credited(old(Records()), stream, bytes).(spilled := old(hostSpilled) - {ptr})
      ensures live == old(live) - {ptr} && overridden == old(overridden)
      ensures totalAllocated == if old(totalAllocated) > bytes then old(totalAllocated) - bytes else 0
      ensures streamTracker.Keys == old(streamTracker).Keys && streamTracker - {stream} == old(streamTracker) - {stream}
      ensures stream in streamTracker ==>
                var c := old(streamTracker)[stream].current;
                streamTracker[stream] == old(streamTracker)[stream].(current := if c > bytes then c - bytes else 0)
      ensures ptr in old(live) && bytes == old(live)[ptr].bytes ==>
                Valid() && freedBy == old(live)[ptr].origin && totalAllocated == old(totalAllocated) - bytes
    {
      if ptr in live { TakingBack(reservationLimit, Records(), live, overridden, ptr, stream); }
      live := live - {ptr};
      if ptr in hostSpilled {
        freedBy := if hostSpilled[ptr].isUvm then Managed else Pinned;
        hostSpilled := hostSpilled - {ptr};
        if stream in streamTracker {
          var t := streamTracker[stream];
          streamTracker := streamTracker[stream := t.(current := ClampedSub(t.current, bytes))];
        }
        totalAllocated := ClampedSub(totalAllocated, bytes);
        return;
      }
      freedBy := Upstream;
      assert hostSpilled == old(hostSpilled) - {ptr};
      if stream in streamTracker {
        var t := streamTracker[stream];
        streamTracker := streamTracker[stream := t.(current := ClampedSub(t.current, bytes))];
      }
      totalAllocated := ClampedSub(totalAllocated, bytes);
    }

    method ResetStreamReservation(stream: StreamId)
      requires Valid()
      modifies this`streamTracker, this`overridden
      ensures Valid() && Records() == Reset(old(Records()), stream)
      ensures streamTracker.Keys == old(streamTracker).Keys && streamTracker - {stream} == old(streamTracker) - {stream}
      ensures stream in streamTracker ==>
                && streamTracker[stream].current == streamTracker[stream].peak == 0 && stream !in overridden
                && streamTracker[stream].hasPolicy == old(streamTracker)[stream].hasPolicy
    {
      if stream in streamTracker {
        streamTracker := streamTracker[stream := streamTracker[stream].(current := 0, peak := 0)];
        overridden := overridden - {stream};
      }
    }

    method AttachReservationToTracker(stream: StreamId, oomPolicy: bool)
      requires Valid()
      modifies this`streamTracker
      ensures Valid() && Records() == Attached(old(Records()), stream, oomPolicy)
      ensures streamTracker - {stream} == old(streamTracker) - {stream} && stream in streamTracker
      ensures streamTracker[stream].hasPolicy == oomPolicy
      ensures var t := TrackerOf(old(Records()), stream);
              streamTracker[stream].current == t.current && streamTracker[stream].peak == t.peak
    {
      var tracker := if stream in streamTracker then streamTracker[stream] else Tracker(0, 0, false);
      streamTracker := streamTracker[stream := tracker.(hasPolicy := oomPolicy)];
    }
  }
}
