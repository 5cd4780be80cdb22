/** The order of the spill cascade over all runs: who was asked before a pointer is handed out, and that every
    tier is reached. */
module GpuCascade {
  import opened Sums
  import opened GpuBooks
  import opened GpuAdaptorRace

  /** The tiers that are asked before `tier`. */
  function Before(tier: Origin): seq<Origin> {
    match tier
    case Upstream => []
    case Managed => [Upstream]
    case Pinned => [Upstream, Managed]
  }

  const ALL: seq<Origin> := [Upstream, Managed, Pinned]

  /** The tiers that refused thread `t` between two states, in order. */
  ghost function Refusals(run: seq<State>, events: seq<Event>, t: Tid, from: nat, n: nat): seq<Origin>
    requires from <= n < |run| == |events| + 1
  {
    if from == n then []
    else
      Refusals(run, events, t, from, n - 1) +
      if events[n - 1] == Event(t, Answer(None)) && t in run[n - 1].pcs && run[n - 1].pcs[t].Trying?
      then [run[n - 1].pcs[t].tier] else []
  }

  /** The stream's charge and the request together exceed the limit. */
  predicate Over(c: Config, s: State, stream: StreamId, bytes: nat) {
    c.limit != 0 && Current(s, stream) + bytes > c.limit
  }

  /** Step `from` is the request of thread `t`, and it has only been refused since. */
  ghost predicate Asking(run: seq<State>, events: seq<Event>, t: Tid, from: nat, n: nat, stream: StreamId, bytes: nat)
    requires n < |run| == |events| + 1
  {
    && from < n && events[from] == Event(t, Ask(stream, bytes))
    && forall j :: from < j < n && events[j].thread == t ==> events[j].action == Answer(None)
  }

  predicate Looking(pc: PC) { pc.OverLimit? || pc.Trying? || pc.LastResort? }

  /** Where a thread that looks for memory stands agrees with who has refused it. */
  predicate Stands(pc: PC, over: bool, refusals: seq<Origin>)
    requires Looking(pc)
  {
    match pc
    case OverLimit(_, _) => over && refusals == []
    case Trying(tier, _, _) => !over && refusals == Before(tier)
    case LastResort(_, _) => !over && refusals == ALL
  }

  /** A step after which its thread is looking for memory: its request, or one more refusal. */
  lemma StepToLooking(c: Config, s: State, e: Event, s': State)
    requires Enabled(c, s, e.thread, e.action) && s' == Apply(c, s, e.thread, e.action)
    requires e.thread in s'.pcs && Looking(s'.pcs[e.thread])
    ensures e.action.Ask? || (e.action == Answer(None) && s.pcs[e.thread].Trying?)
    ensures s'.pcs[e.thread].bytes == if e.action.Ask? then e.action.bytes else s.pcs[e.thread].bytes
    ensures s'.pcs[e.thread].stream == if e.action.Ask? then e.action.stream else s.pcs[e.thread].stream
  {}

  lemma AskStands(c: Config, s: State, e: Event, s': State)
    requires Enabled(c, s, e.thread, e.action) && s' == Apply(c, s, e.thread, e.action) && e.action.Ask?
    ensures e.thread in s'.pcs && Looking(s'.pcs[e.thread])
    ensures Stands(s'.pcs[e.thread], Over(c, s, e.action.stream, e.action.bytes), [])
  {}

  lemma RefusalStands(c: Config, s: State, e: Event, s': State, over: bool, refusals: seq<Origin>)
    requires Enabled(c, s, e.thread, e.action) && s' == Apply(c, s, e.thread, e.action)
    requires e.action == Answer(None) && s.pcs[e.thread].Trying? && Stands(s.pcs[e.thread], over, refusals)
    ensures e.thread in s'.pcs && Looking(s'.pcs[e.thread])
    ensures Stands(s'.pcs[e.thread], over, refusals + [s.pcs[e.thread].tier])
  {}

  /** In every run, a thread about to ask a tier has been refused by exactly the tiers before it since its request,
      one about to ask the policy as the last resort by all three, in this order, and the limit was exceeded as
      the request was made exactly if only the policy is asked. */
  lemma {:induction false} LookingSince(c: Config, threads: set<Tid>, run: seq<State>, events: seq<Event>, t: Tid,
                                        n: nat)
    returns (from: nat)
    requires IsRun(c, threads, run, events) && n < |run| && t in run[n].pcs && Looking(run[n].pcs[t])
    ensures Asking(run, events, t, from, n, run[n].pcs[t].stream, run[n].pcs[t].bytes)
    ensures Stands(run[n].pcs[t], Over(c, run[from], run[n].pcs[t].stream, run[n].pcs[t].bytes),
                   Refusals(run, events, t, from + 1, n))
  {
    var e := events[n - 1];
    assert StepAt(c, run, events, n - 1);
    OnlyOwnPc(c, run[n - 1], e.thread, e.action);
    if e.thread != t {
      from := LookingSince(c, threads, run, events, t, n - 1);
    } else {
      StepToLooking(c, run[n - 1], e, run[n]);
      if e.action.Ask? {
        from := n - 1;
        AskStands(c, run[n - 1], e, run[n]);
      } else {
        from := LookingSince(c, threads, run, events, t, n - 1);
        RefusalStands(c, run[n - 1], e, run[n], Over(c, run[from], run[n].pcs[t].stream, run[n].pcs[t].bytes),
                      Refusals(run, events, t, from + 1, n - 1));
      }
    }
  }

  // ---- pointers ----

  lemma StepToHolding(c: Config, s: State, e: Event, s': State)
    requires Enabled(c, s, e.thread, e.action) && s' == Apply(c, s, e.thread, e.action)
    requires e.thread in s'.pcs && s'.pcs[e.thread].Holding?
    ensures Looking(s.pcs[e.thread])
    ensures var pc, pc' := s.pcs[e.thread], s'.pcs[e.thread];
            && e.action == Answer(Some(pc'.ptr)) && pc'.stream == pc.stream && pc'.bytes == pc.bytes
            && pc'.tier == (if pc.Trying? then pc.tier else Upstream) && (pc'.overridden <==> pc.OverLimit?)
            && (!pc.Trying? ==> TrackerOf(s.books, pc.stream).hasPolicy)
  {}

  /** In every run, a thread that holds a pointer was answered at some step, as it stood in the cascade then: by a
      tier whose predecessors had all refused, or by the policy, over the limit or as the last resort. */
  lemma {:induction false} HoldingSince(c: Config, threads: set<Tid>, run: seq<State>, events: seq<Event>, t: Tid,
                                        n: nat)
    returns (from: nat, k: nat)
    requires IsRun(c, threads, run, events) && n < |run| && t in run[n].pcs && run[n].pcs[t].Holding?
    ensures k < n && events[k] == Event(t, Answer(Some(run[n].pcs[t].ptr))) && t in run[k].pcs && Looking(run[k].pcs[t])
    ensures forall j :: k < j < n ==> events[j].thread != t
    ensures var pc := run[n].pcs[t];
            && Asking(run, events, t, from, k, pc.stream, pc.bytes)
            && Stands(run[k].pcs[t], Over(c, run[from], pc.stream, pc.bytes), Refusals(run, events, t, from + 1, k))
            && pc.tier == (if run[k].pcs[t].Trying? then run[k].pcs[t].tier else Upstream)
            && (pc.overridden <==> Over(c, run[from], pc.stream, pc.bytes))
            && (!run[k].pcs[t].Trying? ==> TrackerOf(run[k].books, pc.stream).hasPolicy)
  {
    var e := events[n - 1];
    assert StepAt(c, run, events, n - 1);
    OnlyOwnPc(c, run[n - 1], e.thread, e.action);
    if e.thread != t {
      from, k := HoldingSince(c, threads, run, events, t, n - 1);
    } else {
      StepToHolding(c, run[n - 1], e, run[n]);
      k := n - 1;
      from := LookingSince(c, threads, run, events, t, n - 1);
    }
  }

  // ---- every tier is reached ----

  lemma Extend(c: Config, r: seq<State>, e: seq<Event>, a: Action) returns (run: seq<State>, events: seq<Event>)
    requires IsRun(c, {0}, r, e) && Enabled(c, r[|e|], 0, a)
    ensures IsRun(c, {0}, run, events) && |events| == |e| + 1 && run[|events|] == Apply(c, r[|e|], 0, a)
  {
    run, events := r + [Apply(c, r[|e|], 0, a)], e + [Event(0, a)];
    forall i | 0 <= i < |events| ensures StepAt(c, run, events, i) {
      if i < |e| { assert StepAt(c, r, e, i); }
    }
  }

  /** A fresh adaptor with one request that has been refused by all tiers before `tier`. */
  lemma Refused(c: Config, tier: Origin, stream: StreamId, bytes: nat) returns (run: seq<State>, events: seq<Event>)
    requires c.limit == 0 || bytes <= c.limit
    ensures IsRun(c, {0}, run, events)
    ensures var s := run[|events|];
            && s.books == Touched(Books(0, map[], map[]), stream) && s.heap == map[] && s.live == map[]
            && 0 in s.pcs && s.pcs[0] == Trying(tier, stream, bytes)
  {
    run, events := Extend(c, [Init({0})], [], Ask(stream, bytes));
    if !tier.Upstream? { run, events := Extend(c, run, events, Answer(None)); }
    if tier.Pinned? { run, events := Extend(c, run, events, Answer(None)); }
  }

  /** Every request within the limit can be served by every tier: there is a run after which a caller holds the
      pointer, and exactly if the tier is a fallback the spill map holds it, under its tag. */
  lemma EveryTierIsReached(c: Config, tier: Origin, stream: StreamId, bytes: nat, p: Ptr)
    returns (run: seq<State>, events: seq<Event>)
    requires c.limit == 0 || bytes <= c.limit
    ensures IsRun(c, {0}, run, events)
    ensures var s := run[|events|];
            && s.live == map[p := Live(bytes, stream)] && s.heap == map[p := tier]
            && 0 in s.pcs && s.pcs[0].Idle?
            && s.books.total == Current(s, stream) == bytes
            && s.books.spilled == if tier.Upstream? then map[] else map[p := Spill(bytes, tier.Managed?)]
  {
    run, events := Refused(c, tier, stream, bytes);
    run, events := Extend(c, run, events, Answer(Some(p)));
    run, events := Extend(c, run, events, Commit);
  }

  // ---- the policy ----

  /** The policy a stream was last attached to, if any. */
  function LastAttached(events: seq<Event>, stream: StreamId, n: nat): bool
    requires n <= |events|
  {
    if n == 0 then false
    else if events[n - 1].action.Attach? && events[n - 1].action.stream == stream then events[n - 1].action.policy
    else LastAttached(events, stream, n - 1)
  }

  lemma StepKeepsPolicy(c: Config, s: State, e: Event, s': State, stream: StreamId)
    requires Enabled(c, s, e.thread, e.action) && s' == Apply(c, s, e.thread, e.action)
    ensures TrackerOf(s'.books, stream).hasPolicy
         == if e.action.Attach? && e.action.stream == stream then e.action.policy
            else TrackerOf(s.books, stream).hasPolicy
  {}

  /** The policy that is asked for a stream is the one attached last; charging, crediting and resetting leave it. */
  lemma {:induction false} PolicyIsLastAttached(c: Config, threads: set<Tid>, run: seq<State>, events: seq<Event>,
                                                stream: StreamId, n: nat)
    requires IsRun(c, threads, run, events) && n < |run|
    ensures TrackerOf(run[n].books, stream).hasPolicy == LastAttached(events, stream, n)
  {
    if n > 0 {
      PolicyIsLastAttached(c, threads, run, events, stream, n - 1);
      assert StepAt(c, run, events, n - 1);
      StepKeepsPolicy(c, run[n - 1], events[n - 1], run[n], stream);
    }
  }

  /** No thread is ever stuck in the middle of a call. */
  lemma NobodyIsStuck(c: Config, s: State, t: Tid)
    requires t in s.pcs && !s.pcs[t].Idle?
    ensures exists a: Action :: Enabled(c, s, t, a)
  {
    match s.pcs[t]
    case OverLimit(_, _) => assert Enabled(c, s, t, Answer(None));
    case Trying(_, _, _) => assert Enabled(c, s, t, Answer(None));
    case LastResort(_, _) => assert Enabled(c, s, t, Answer(None));
    case Holding(_, _, _, _, _) => assert Enabled(c, s, t, Commit);
    case Probing(_, _, _) => assert Enabled(c, s, t, Probe);
    case Freeing(_, _, _) => assert Enabled(c, s, t, Free);
    case Crediting(_, _) => assert Enabled(c, s, t, Credit);
  }
}
