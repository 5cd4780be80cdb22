/** When a memory space may refuse a reservation, over all runs, and that no call is ever stuck. */
module MemorySpaceAdmission {
  import opened Sums
  import opened MemorySpaceRace
  import opened Search
  import opened Width

  /** A space with `reserved` bytes charged has nothing to give to this call. */
  predicate Full(max: nat, reserved: nat, call: Call, bytes: nat) {
    match call
    case Upto => bytes == 0 || reserved >= max
    case OrThrow => reserved + bytes > max
    case OrNull => reserved + bytes > max
  }

  /** Thread `t` made its call at step `from` and has been in the loop of it ever since. */
  ghost predicate Waits(run: seq<State>, events: seq<Event>, t: Tid, from: nat, n: nat)
    requires |run| == |events| + 1 && n < |run|
  {
    && from < n && events[from].thread == t && events[from].action.Start?
    && t in run[from].pcs && run[from].pcs[t].Idle?
    && forall j :: from < j <= n ==>
         && t in run[j].pcs && run[j].pcs[t].Making?
         && run[j].pcs[t].call == events[from].action.call && run[j].pcs[t].bytes == events[from].action.bytes
  }

  /** What a thread has read, the counter has been since its call. */
  ghost predicate ReadSince(run: seq<State>, t: Tid, from: nat, n: nat)
    requires n < |run| && t in run[n].pcs && run[n].pcs[t].Making?
  {
    run[n].pcs[t].seen.Some? ==> exists k :: from < k < n && run[k].reserved == run[n].pcs[t].seen.value
  }

  /** How a thread gets to be in the loop after a step: by its call, or by reading the counter. */
  lemma StepToLoop(max: nat, s: State, e: Event, s': State, t: Tid)
    requires Enabled(max, s, e.thread, e.action) && s' == Apply(max, s, e.thread, e.action)
    requires t in s'.pcs && s'.pcs[t].Making?
    ensures t in s.pcs
    ensures e.thread != t ==> s'.pcs[t] == s.pcs[t]
    ensures e.thread == t ==> s'.reserved == s.reserved
    ensures e.thread == t && e.action.Start? ==>
              s.pcs[t].Idle? && s'.pcs[t] == Making(e.action.call, e.action.bytes, None)
    ensures e.thread == t && !e.action.Start? ==>
              s.pcs[t].Making? && s'.pcs[t] == Making(s.pcs[t].call, s.pcs[t].bytes, Some(s.reserved))
  {}

  lemma {:induction false} WaitsSince(max: nat, threads: set<Tid>, run: seq<State>, events: seq<Event>, t: Tid, n: nat)
    returns (from: nat)
    requires IsRun(max, threads, run, events) && n < |run| && t in run[n].pcs && run[n].pcs[t].Making?
    ensures Waits(run, events, t, from, n) && ReadSince(run, t, from, n)
  {
    var e := events[n - 1];
    assert StepAt(max, run, events, n - 1);
    StepToLoop(max, run[n - 1], e, run[n], t);
    if e.thread == t && e.action.Start? {
      from := n - 1;
    } else {
      from := WaitsSince(max, threads, run, events, t, n - 1);
      if e.thread == t { assert run[n - 1].reserved == run[n].pcs[t].seen.value; }
    }
  }

  /** A refusal is honest, whatever the schedule: at some moment since the call was made the space had nothing to
      give to it. */
  lemma RefusedWhenFull(max: nat, threads: set<Tid>, run: seq<State>, events: seq<Event>, n: nat)
    returns (from: nat, k: nat)
    requires IsRun(max, threads, run, events) && n < |events| && events[n].action.Refuse?
    ensures Waits(run, events, events[n].thread, from, n) && from < k < n
    ensures Full(max, run[k].reserved, events[from].action.call, events[from].action.bytes)
  {
    var t := events[n].thread;
    assert StepAt(max, run, events, n);
    from := WaitsSince(max, threads, run, events, t, n);
    k :| from < k < n && run[k].reserved == run[n].pcs[t].seen.value;
  }

  // ---- a call nobody interferes with ----

  ghost predicate OnlyMoves(events: seq<Event>, t: Tid, from: nat, n: nat)
    requires n <= |events|
  {
    forall j :: from <= j < n ==> events[j].thread == t
  }

  lemma {:induction false} QuietWait(max: nat, threads: set<Tid>, run: seq<State>, events: seq<Event>, t: Tid,
                                     from: nat, n: nat)
    requires IsRun(max, threads, run, events) && n < |run| && Waits(run, events, t, from, n)
    requires OnlyMoves(events, t, from, n)
    ensures run[n].reserved == run[from].reserved
    ensures run[n].pcs[t].seen.Some? ==> run[n].pcs[t].seen.value == run[from].reserved
  {
    assert StepAt(max, run, events, n - 1);
    StepToLoop(max, run[n - 1], events[n - 1], run[n], t);
    if n > from + 1 {
      QuietWait(max, threads, run, events, t, from, n - 1);
    }
  }

  /** If no other thread steps in between, a call is refused exactly if the space had nothing to give to it as it
      was made, however often the swap fails for no reason; otherwise it charges what it is given. */
  lemma QuietCallIsExact(max: nat, threads: set<Tid>, run: seq<State>, events: seq<Event>, t: Tid, from: nat, n: nat)
    requires IsRun(max, threads, run, events) && n < |events| && Waits(run, events, t, from, n)
    requires OnlyMoves(events, t, from, n + 1) && t in run[n + 1].pcs && !run[n + 1].pcs[t].Making?
    ensures var call, bytes := events[from].action.call, events[from].action.bytes;
            && (events[n].action.Refuse? <==> Full(max, run[from].reserved, call, bytes))
            && (!events[n].action.Refuse? ==>
                  run[n + 1].reserved == run[from].reserved
                    + if call.Upto? then Min(bytes, max - run[from].reserved) else bytes)
  {
    QuietWait(max, threads, run, events, t, from, n);
    RunKeepsInv(max, threads, run, events, n);
    assert StepAt(max, run, events, n);
  }

  /** No thread is ever stuck in the middle of a call. */
  lemma NobodyIsStuck(max: nat, threads: set<Tid>, run: seq<State>, events: seq<Event>, n: nat, t: Tid)
    requires IsRun(max, threads, run, events) && n < |run| && t in run[n].pcs && !run[n].pcs[t].Idle?
    ensures exists a: Action :: Enabled(max, run[n], t, a)
  {
    var s, pc := run[n], run[n].pcs[t];
    RunKeepsInv(max, threads, run, events, n);
    if pc.Charged? {
      var id := Unused(s.out.Keys);
      assert Enabled(max, s, t, Build(id));
    } else if pc.seen.None? {
      assert Enabled(max, s, t, Load);
    } else if pc.Releasing? || !Refuses(pc.call, pc.bytes, Avail(max, pc.seen.value)) {
      assert Enabled(max, s, t, Swap(false));
    } else {
      assert Enabled(max, s, t, Refuse);
    }
  }

  // ---- growing arenas ----

  /** What handle `id` has been grown by since step `from`. */
  function GrownBy(events: seq<Event>, id: Handle, from: nat, n: nat): nat
    requires from <= n <= |events|
  {
    if from == n then 0
    else
      GrownBy(events, id, from, n - 1) +
      if events[n - 1].action.Grow? && events[n - 1].action.id == id then events[n - 1].action.more else 0
  }

  /** The arena of an outstanding handle says what was granted and grown, up to the largest number there is. */
  lemma {:induction false} ArenaIsGrown(max: nat, threads: set<Tid>, run: seq<State>, events: seq<Event>, id: Handle,
                                        from: nat, n: nat)
    requires IsRun(max, threads, run, events) && from < n < |run|
    requires events[from].action == Build(id) && forall j :: from < j < n ==> events[j].action != Destroy(id)
    ensures id in run[n].out
    ensures run[n].out[id].granted <= SIZE_MAX ==>
              run[n].out[id].arena == Min(SIZE_MAX, run[n].out[id].granted + GrownBy(events, id, from, n))
  {
    assert StepAt(max, run, events, n - 1);
    if from + 1 < n {
      ArenaIsGrown(max, threads, run, events, id, from, n - 1);
    } else {
      assert GrownBy(events, id, from, from) == 0;
    }
  }
}
