/** The adaptor's records as values: what each locked span does to them. */
module GpuBooks {
  import opened Sums

  type StreamId = nat
  type Ptr = nat

  /** Which call produced a pointer, and with it which call must free it. */
  datatype Origin = Upstream | Managed | Pinned

  datatype Tracker = Tracker(current: nat, peak: nat, hasPolicy: bool)

  datatype Spill = Spill(bytes: nat, isUvm: bool)

  datatype Books = Books(total: nat, trackers: map<StreamId, Tracker>, spilled: map<Ptr, Spill>)

  function TrackerOf(b: Books, s: StreamId): Tracker {
    if s in b.trackers then b.trackers[s] else Tracker(0, 0, false)
  }

  function Touched(b: Books, s: StreamId): Books { b.(trackers := b.trackers[s := TrackerOf(b, s)]) }

  function Charged(b: Books, s: StreamId, n: nat): Books {
    var t := TrackerOf(b, s);
    b.(total := b.total + n,
       trackers := b.trackers[s := t.(current := t.current + n, peak := Max(t.peak, t.current + n))])
  }

  /** A fallback pointer is recorded before it is charged. */
  function Recorded(b: Books, p: Ptr, n: nat, origin: Origin): Books {
    if origin.Upstream? then b else b.(spilled := b.spilled[p := Spill(n, origin.Managed?)])
  }

  function ClampedSub(c: nat, n: nat): nat { if c > n then c - n else 0 }

  function Credited(b: Books, s: StreamId, n: nat): Books {
    b.(total := ClampedSub(b.total, n),
       trackers := if s !in b.trackers then b.trackers
                   else b.trackers[s := b.trackers[s].(current := ClampedSub(b.trackers[s].current, n))])
  }

  function Reset(b: Books, s: StreamId): Books {
    b.(trackers := if s in b.trackers then b.trackers[s := b.trackers[s].(current := 0, peak := 0)] else b.trackers)
  }

  function Attached(b: Books, s: StreamId, policy: bool): Books {
    b.(trackers := b.trackers[s := TrackerOf(b, s).(hasPolicy := policy)])
  }

  predicate Exceeds(limit: nat, current: nat, n: nat) {
    limit != 0 && (n > limit || current > limit - n)
  }

  /** The function that frees what a tagged or untagged pointer is taken for. */
  function FreedAs(b: Books, p: Ptr): Origin {
    if p !in b.spilled then Upstream else if b.spilled[p].isUvm then Managed else Pinned
  }
}
