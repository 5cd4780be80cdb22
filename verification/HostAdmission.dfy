/** When the pinned host pool may refuse a request, over all runs; that the peak is one of the counter's values;
    and that no thread is ever stuck. */
module HostAdmission {
  import opened Sums
  import opened HostAccounting
  import opened HostInterleaving
  import opened HostRuns
  import opened Search
  import opened Width

  // ---- what a start asks for ----

  predicate IsRequest(a: Action) { a.StartReserve? || a.StartBlocks? || a.StartRaw? }

  /** What a request needs from the counter: under a reservation, by how much it raises max(size, used). */
  function Needs(s: State, a: Action): nat
    requires IsRequest(a)
  {
    match a
    case StartReserve(b) => b
    case StartRaw(b) => b
    case StartBlocks(b, under) =>
      if under.None? || under.value !in s.res then b
      else
        var tr := s.res[under.value];
        Max(Max(tr.size, tr.used + b) - Max(tr.size, tr.used), 0)
  }

  /** The operation a thread works on is the one its request asked for. */
  ghost predicate WorksFor(s: State, a: Action, op: Op) {
    && IsRequest(a) && Amount(op) == Needs(s, a)
    && match a {
         case StartReserve(b) => op == Reserve(b)
         case StartRaw(b) => op == Raw(b)
         case StartBlocks(b, under) => op.Blocks? && op.bytes == b && op.arena == under
       }
  }

  /** A request that nothing stops at once: a reservation over the limit and an unknown arena are refused
      before the counter is looked at. */
  predicate Proceeds(limit: nat, s: State, a: Action) {
    match a
    case StartReserve(b) => b <= limit
    case StartRaw(_) => true
    case StartBlocks(_, under) => under.None? || under.value in s.res
    case _ => false
  }

  lemma UnderNeeds(limit: nat, s: State, b: nat, arena: Arena)
    requires limit < TWO_62 && Inv(limit, s) && s.lock.None? && arena in s.res && b < TWO_62
    ensures OverflowCharge(s.res[arena].size, s.res[arena].used, b) == Needs(s, StartBlocks(b, Some(arena)))
  {
    FreeLockRange(limit, s, arena);
    OverflowChargeIsGrowth(s.res[arena].size, s.res[arena].used, b);
  }

  /** A request leaves its thread idle, at the counter with what it needs, or already admitted if it needs
      nothing; and it moves neither counter nor peak. */
  lemma StartDecides(limit: nat, s: State, t: Tid, a: Action)
    requires limit < TWO_62 && Inv(limit, s) && Enabled(limit, s, t, a) && IsRequest(a)
    ensures var s' := Apply(limit, s, t, a);
            && t in s'.pcs && s'.total == s.total
            && (!Proceeds(limit, s, a) ==> s' == s)
            && (Proceeds(limit, s, a) ==>
                  && (s'.pcs[t].Charging? || s'.pcs[t].Charged?)
                  && WorksFor(s, a, s'.pcs[t].op)
                  && (s'.pcs[t].Charging? <==> Needs(s, a) > 0)
                  && (s'.pcs[t].Charging? ==> s'.pcs[t].seen.None?))
  {
    if a.StartBlocks? && a.under.Some? && a.under.value in s.res {
      UnderNeeds(limit, s, a.bytes, a.under.value);
    }
  }

  // ---- on the way to the counter ----

  /** A thread at the counter has just read it. */
  ghost predicate Reads(s: State, s': State, t: Tid) {
    && t in s.pcs && t in s'.pcs && s.pcs[t].Charging? && s'.total == s.total
    && s'.pcs[t] == Charging(s.pcs[t].op, Some(s.total))
  }

  lemma LoadReads(limit: nat, s: State, e: Event, s': State)
    requires Steps(limit, s, e, s') && e.thread in s'.pcs && s'.pcs[e.thread].Charging? && e.action.LoadCounter?
    ensures Reads(s, s', e.thread)
  {}

  lemma SwapReads(limit: nat, s: State, e: Event, s': State)
    requires Steps(limit, s, e, s') && e.thread in s'.pcs && s'.pcs[e.thread].Charging? && e.action.SwapCounter?
    ensures Reads(s, s', e.thread)
  {}

  predicate IsPeakStep(a: Action) { a.LoadNow? || a.LoadPeak? || a.SwapPeak? || a.PeakDone? }

  predicate IsReturn(a: Action) { a.StartDealloc? || a.StartRawDealloc? || a.StartRelease? }

  predicate Finishes(a: Action) {
    a.Register? || a.MallocDone? || a.MallocFailed? || a.RollBackTracker? || a.FreePinned?
  }

  lemma PeakStepLeaves(limit: nat, s: State, e: Event, s': State)
    requires Steps(limit, s, e, s') && e.thread in s'.pcs && (IsPeakStep(e.action) || e.action.GiveUp?)
    ensures !s'.pcs[e.thread].Charging?
  {}

  lemma ReturnLeaves(limit: nat, s: State, e: Event, s': State)
    requires Steps(limit, s, e, s') && e.thread in s'.pcs && IsReturn(e.action)
    ensures !s'.pcs[e.thread].Charging? && !s'.pcs[e.thread].Peaking?
  {}

  lemma PinningLeaves(limit: nat, s: State, e: Event, s': State)
    requires Steps(limit, s, e, s') && e.thread in s'.pcs && (e.action.MallocDone? || e.action.MallocFailed?)
    ensures !s'.pcs[e.thread].Charging? && !s'.pcs[e.thread].Peaking?
  {}

  lemma FinishLeaves(limit: nat, s: State, e: Event, s': State)
    requires Steps(limit, s, e, s') && e.thread in s'.pcs && Finishes(e.action)
    ensures !s'.pcs[e.thread].Charging? && !s'.pcs[e.thread].Peaking?
  {
    if e.action.MallocDone? || e.action.MallocFailed? { PinningLeaves(limit, s, e, s'); }
  }

  /** A step after which its thread is at the counter: the request itself, or a read of the counter. */
  lemma ReadsTheCounter(limit: nat, s: State, e: Event, s': State)
    requires Steps(limit, s, e, s') && e.thread in s'.pcs && s'.pcs[e.thread].Charging? && !IsRequest(e.action)
    ensures Reads(s, s', e.thread)
  {
    if e.action.LoadCounter? {
      LoadReads(limit, s, e, s');
    } else if e.action.SwapCounter? {
      SwapReads(limit, s, e, s');
    } else if IsReturn(e.action) {
      ReturnLeaves(limit, s, e, s');
    } else if Finishes(e.action) {
      FinishLeaves(limit, s, e, s');
    } else {
      PeakStepLeaves(limit, s, e, s');
    }
  }

  /** Thread `t` made its request at step `from` and has been at the counter for it ever since. */
  ghost predicate Waits(run: seq<State>, events: seq<Event>, t: Tid, from: nat, n: nat)
    requires |run| == |events| + 1 && n < |run|
  {
    && from < n && events[from].thread == t && IsRequest(events[from].action)
    && t in run[from].pcs && run[from].pcs[t].Idle?
    && (t in run[from + 1].pcs && run[from + 1].pcs[t].Charging?)
    && WorksFor(run[from], events[from].action, run[from + 1].pcs[t].op)
    && forall j :: from < j <= n ==>
         t in run[j].pcs && run[j].pcs[t].Charging? && run[j].pcs[t].op == run[from + 1].pcs[t].op
  }

  /** What a thread has read, the counter has been since its request. */
  ghost predicate ReadSince(run: seq<State>, t: Tid, from: nat, n: nat)
    requires n < |run| && t in run[n].pcs && run[n].pcs[t].Charging?
  {
    run[n].pcs[t].seen.Some? ==> exists k :: from < k < n && run[k].total == run[n].pcs[t].seen.value
  }

  /** How a thread gets to be at the counter after a step of the run. */
  lemma StepToCounter(limit: nat, threads: set<Tid>, run: seq<State>, events: seq<Event>, t: Tid, n: nat)
    requires IsRun(limit, threads, run, events) && n < |events| && t in run[n + 1].pcs && run[n + 1].pcs[t].Charging?
    ensures t in run[n].pcs
    ensures events[n].thread != t ==> run[n + 1].pcs[t] == run[n].pcs[t]
    ensures events[n].thread == t && IsRequest(events[n].action) ==>
              run[n + 1].pcs[t].seen.None? && Waits(run, events, t, n, n + 1)
    ensures events[n].thread == t && !IsRequest(events[n].action) ==> Reads(run[n], run[n + 1], t)
  {
    RunStep(limit, threads, run, events, n);
    assert StepAt(limit, run, events, n);
    if events[n].thread == t {
      if IsRequest(events[n].action) {
        StartDecides(limit, run[n], t, events[n].action);
      } else {
        ReadsTheCounter(limit, run[n], events[n], run[n + 1]);
      }
    }
  }

  lemma {:induction false} WaitsSince(limit: nat, threads: set<Tid>, run: seq<State>, events: seq<Event>, t: Tid,
                                      n: nat)
    returns (from: nat)
    requires IsRun(limit, threads, run, events) && n < |run| && t in run[n].pcs && run[n].pcs[t].Charging?
    ensures Waits(run, events, t, from, n) && ReadSince(run, t, from, n)
  {
    NobodyWaitsAtFirst(limit, threads, run, events, t, n);
    StepToCounter(limit, threads, run, events, t, n - 1);
    if events[n - 1].thread == t && IsRequest(events[n - 1].action) {
      from := n - 1;
    } else {
      from := WaitsSince(limit, threads, run, events, t, n - 1);
      if events[n - 1].thread == t { assert run[n - 1].total == run[n].pcs[t].seen.value; }
    }
  }

  lemma NobodyWaitsAtFirst(limit: nat, threads: set<Tid>, run: seq<State>, events: seq<Event>, t: Tid, n: nat)
    requires IsRun(limit, threads, run, events) && n < |run| && t in run[n].pcs && !run[n].pcs[t].Idle?
    ensures n > 0
  {}

  /** A refusal is honest, whatever the schedule: at some moment since the request was made the counter was too
      full for what it needs. */
  lemma RefusedWhenFull(limit: nat, threads: set<Tid>, run: seq<State>, events: seq<Event>, n: nat)
    returns (from: nat, k: nat)
    requires IsRun(limit, threads, run, events) && n < |events| && events[n].action.GiveUp?
    ensures Waits(run, events, events[n].thread, from, n) && from < k <= n
    ensures run[k].total + Needs(run[from], events[from].action) > limit
  {
    var t := events[n].thread;
    assert StepAt(limit, run, events, n);
    from := WaitsSince(limit, threads, run, events, t, n);
    if Amount(run[n].pcs[t].op) > limit {
      k := n;
    } else {
      k :| from < k < n && run[k].total == run[n].pcs[t].seen.value;
    }
  }

  // ---- a request nobody interferes with ----

  ghost predicate OnlyMoves(events: seq<Event>, t: Tid, from: nat, n: nat)
    requires n <= |events|
  {
    forall j :: from <= j < n ==> events[j].thread == t
  }

  lemma QuietStart(limit: nat, threads: set<Tid>, run: seq<State>, events: seq<Event>, t: Tid, from: nat)
    requires IsRun(limit, threads, run, events) && from < |events| && Waits(run, events, t, from, from + 1)
    ensures run[from + 1].total == run[from].total && run[from + 1].pcs[t].seen.None?
    ensures Amount(run[from + 1].pcs[t].op) == Needs(run[from], events[from].action)
  {
    RunStep(limit, threads, run, events, from);
    assert StepAt(limit, run, events, from);
    StartDecides(limit, run[from], t, events[from].action);
  }

  /** Until it is decided, a request leaves the counter alone, and has read what it still is. */
  lemma {:induction false} QuietWait(limit: nat, threads: set<Tid>, run: seq<State>, events: seq<Event>, t: Tid,
                                     from: nat, n: nat)
    requires IsRun(limit, threads, run, events) && n < |run| && Waits(run, events, t, from, n)
    requires OnlyMoves(events, t, from, n)
    ensures run[n].total == run[from].total
    ensures run[n].pcs[t].seen.Some? ==> run[n].pcs[t].seen.value == run[from].total
    ensures Amount(run[n].pcs[t].op) == Needs(run[from], events[from].action)
  {
    if n == from + 1 {
      QuietStart(limit, threads, run, events, t, from);
    } else {
      StepToCounter(limit, threads, run, events, t, n - 1);
      QuietWait(limit, threads, run, events, t, from, n - 1);
      assert !IsRequest(events[n - 1].action) by { NotIdleRequestsNothing(limit, threads, run, events, n - 1); }
    }
  }

  lemma NotIdleRequestsNothing(limit: nat, threads: set<Tid>, run: seq<State>, events: seq<Event>, n: nat)
    requires IsRun(limit, threads, run, events) && n < |events|
    requires events[n].thread in run[n].pcs && !run[n].pcs[events[n].thread].Idle?
    ensures !IsRequest(events[n].action)
  {
    assert StepAt(limit, run, events, n);
  }

  /** A thread leaves the counter by being refused or by charging it. */
  lemma Decision(limit: nat, s: State, e: Event, s': State)
    requires Steps(limit, s, e, s') && e.thread in s'.pcs && s.pcs[e.thread].Charging? && !s'.pcs[e.thread].Charging?
    ensures var pc := s.pcs[e.thread];
            if e.action.GiveUp? then
              s'.total == s.total && (Amount(pc.op) > limit || (pc.seen.Some? && pc.seen.value + Amount(pc.op) > limit))
            else
              && s'.pcs[e.thread] == Peaking(pc.op, None, None)
              && s'.total == s.total + Amount(pc.op) && pc.seen == Some(s.total) && s.total + Amount(pc.op) <= limit
  {}

  /** If no other thread steps in between, a request is refused exactly if it did not fit the counter as it was
      made, however often the swap fails for no reason; otherwise it charges what it needs. */
  lemma QuietRequestIsExact(limit: nat, threads: set<Tid>, run: seq<State>, events: seq<Event>, t: Tid,
                            from: nat, n: nat)
    requires IsRun(limit, threads, run, events) && n < |events| && Waits(run, events, t, from, n)
    requires OnlyMoves(events, t, from, n + 1) && t in run[n + 1].pcs && !run[n + 1].pcs[t].Charging?
    ensures events[n].action.GiveUp? <==> run[from].total + Needs(run[from], events[from].action) > limit
    ensures run[n + 1].total
         == run[from].total + if events[n].action.GiveUp? then 0 else Needs(run[from], events[from].action)
  {
    QuietWait(limit, threads, run, events, t, from, n);
    assert StepAt(limit, run, events, n);
    Decision(limit, run[n], events[n], run[n + 1]);
  }

  // ---- the peak ----

  ghost predicate WasReached(run: seq<State>, n: nat, x: nat)
    requires n < |run|
  {
    exists j :: 0 <= j <= n && run[j].total == x
  }

  lemma PeakSwapTakesNow(limit: nat, s: State, e: Event, s': State)
    requires Steps(limit, s, e, s') && e.thread in s.pcs && e.action.SwapPeak?
    ensures s'.peak == s.peak || (s.pcs[e.thread].Peaking? && s.pcs[e.thread].now == Some(s'.peak))
  {}

  lemma PeakMoves(limit: nat, s: State, e: Event, s': State)
    requires Steps(limit, s, e, s') && e.thread in s.pcs
    ensures s'.peak == s.peak || (s.pcs[e.thread].Peaking? && s.pcs[e.thread].now == Some(s'.peak))
  {
    if e.action.SwapPeak? {
      PeakSwapTakesNow(limit, s, e, s');
    } else {
      OnlyPeakSwapMoves(limit, s, e.thread, e.action);
    }
  }

  /** The value a thread raises the peak to is the counter as it loaded it. */
  ghost predicate NowIsLoaded(s: State, s': State, t: Tid) {
    t in s.pcs && t in s'.pcs && (s'.pcs[t].Peaking? && s'.pcs[t].now.Some? ==>
      s'.pcs[t].now == Some(s.total) || (s.pcs[t].Peaking? && s'.pcs[t].now == s.pcs[t].now))
  }

  lemma PeakStepLoadsNow(limit: nat, s: State, e: Event, s': State)
    requires Steps(limit, s, e, s') && e.thread in s'.pcs && IsPeakStep(e.action)
    ensures NowIsLoaded(s, s', e.thread)
  {}

  lemma CounterStepLoadsNow(limit: nat, s: State, e: Event, s': State)
    requires Steps(limit, s, e, s') && e.thread in s'.pcs
    requires e.action.LoadCounter? || e.action.SwapCounter? || e.action.GiveUp?
    ensures NowIsLoaded(s, s', e.thread)
  {}

  lemma StepLoadsNow(limit: nat, s: State, e: Event, s': State)
    requires limit < TWO_62 && Inv(limit, s) && Steps(limit, s, e, s') && e.thread in s.pcs && e.thread in s'.pcs
    ensures NowIsLoaded(s, s', e.thread)
  {
    if IsRequest(e.action) {
      StartDecides(limit, s, e.thread, e.action);
    } else if IsReturn(e.action) {
      ReturnLeaves(limit, s, e, s');
    } else if Finishes(e.action) {
      FinishLeaves(limit, s, e, s');
    } else if IsPeakStep(e.action) {
      PeakStepLoadsNow(limit, s, e, s');
    } else {
      CounterStepLoadsNow(limit, s, e, s');
    }
  }

  lemma RunLoadsNow(limit: nat, threads: set<Tid>, run: seq<State>, events: seq<Event>, n: nat)
    requires IsRun(limit, threads, run, events) && n < |events|
    ensures NowIsLoaded(run[n], run[n + 1], events[n].thread) && Moves(run[n], run[n + 1], events[n].thread)
    ensures var pc := run[n].pcs[events[n].thread];
            run[n + 1].peak == run[n].peak || (pc.Peaking? && pc.now == Some(run[n + 1].peak))
  {
    RunStep(limit, threads, run, events, n);
    assert StepAt(limit, run, events, n);
    StepLoadsNow(limit, run[n], events[n], run[n + 1]);
    PeakMoves(limit, run[n], events[n], run[n + 1]);
  }

  /** Whatever a thread is about to raise the peak to, the counter has been. */
  lemma {:induction false} NowWasReached(limit: nat, threads: set<Tid>, run: seq<State>, events: seq<Event>, t: Tid,
                                         n: nat)
    requires IsRun(limit, threads, run, events) && n < |run|
    requires t in run[n].pcs && run[n].pcs[t].Peaking? && run[n].pcs[t].now.Some?
    ensures WasReached(run, n, run[n].pcs[t].now.value)
  {
    NobodyWaitsAtFirst(limit, threads, run, events, t, n);
    RunLoadsNow(limit, threads, run, events, n - 1);
    if events[n - 1].thread == t && run[n].pcs[t].now == Some(run[n - 1].total) {
    } else {
      NowWasReached(limit, threads, run, events, t, n - 1);
    }
  }

  /** The recorded peak is never made up: the counter has had that value. */
  lemma {:induction false} PeakWasReached(limit: nat, threads: set<Tid>, run: seq<State>, events: seq<Event>, n: nat)
    requires IsRun(limit, threads, run, events) && n < |run|
    ensures WasReached(run, n, run[n].peak)
  {
    if n == 0 {
      assert run[0].total == run[0].peak;
    } else {
      RunLoadsNow(limit, threads, run, events, n - 1);
      if run[n].peak == run[n - 1].peak {
        PeakWasReached(limit, threads, run, events, n - 1);
      } else {
        NowWasReached(limit, threads, run, events, events[n - 1].thread, n - 1);
      }
    }
  }

  // ---- nobody is stuck ----

  ghost predicate CanStep(limit: nat, s: State, t: Tid) { exists a: Action :: Enabled(limit, s, t, a) }

  /** The only thing a thread can have to wait for. */
  predicate NeedsLock(pc: PC) { pc.Charged? && pc.op.Reserve? }

  lemma AtTheCounterCanStep(limit: nat, s: State, t: Tid)
    requires t in s.pcs && s.pcs[t].Charging?
    ensures CanStep(limit, s, t)
  {
    var pc := s.pcs[t];
    if Amount(pc.op) > limit || (pc.seen.Some? && pc.seen.value > limit - Amount(pc.op)) {
      assert Enabled(limit, s, t, GiveUp);
    } else if pc.seen.None? {
      assert Enabled(limit, s, t, LoadCounter);
    } else {
      assert Enabled(limit, s, t, SwapCounter(false));
    }
  }

  lemma AtThePeakCanStep(limit: nat, s: State, t: Tid)
    requires t in s.pcs && s.pcs[t].Peaking?
    ensures CanStep(limit, s, t)
  {
    var pc := s.pcs[t];
    if pc.now.None? {
      assert Enabled(limit, s, t, LoadNow);
    } else if pc.top.None? {
      assert Enabled(limit, s, t, LoadPeak);
    } else if pc.now.value > pc.top.value {
      assert Enabled(limit, s, t, SwapPeak(false));
    } else {
      assert Enabled(limit, s, t, PeakDone);
    }
  }

  lemma CreditingCanStep(limit: nat, s: State, t: Tid)
    requires t in s.pcs && (s.pcs[t].Undoing? || s.pcs[t].Crediting?)
    ensures CanStep(limit, s, t)
  {
    if s.pcs[t].seen.None? {
      assert Enabled(limit, s, t, LoadCounter);
    } else {
      assert Enabled(limit, s, t, SwapCounter(false));
    }
  }

  lemma BusyCanStep(limit: nat, s: State, t: Tid)
    requires t in s.pcs && OpInv(limit, s, s.pcs[t]) && !s.pcs[t].Idle? && !NeedsLock(s.pcs[t])
    ensures CanStep(limit, s, t)
  {
    match s.pcs[t]
    case Charging(_, _) => AtTheCounterCanStep(limit, s, t);
    case Peaking(_, _, _) => AtThePeakCanStep(limit, s, t);
    case Charged(_) => assert Enabled(limit, s, t, MallocFailed);
    case Undoing(_, _) => CreditingCanStep(limit, s, t);
    case Untracking(_) => assert Enabled(limit, s, t, RollBackTracker);
    case Freeing(_, _) => assert Enabled(limit, s, t, FreePinned);
    case Crediting(_, _, _) => CreditingCanStep(limit, s, t);
  }

  /** No thread is ever stuck in the middle of an operation: it can step, or it waits to register its
      reservation while the thread that holds the mutex can step. */
  lemma NobodyIsStuck(limit: nat, threads: set<Tid>, run: seq<State>, events: seq<Event>, n: nat, t: Tid)
    requires IsRun(limit, threads, run, events) && n < |run| && t in run[n].pcs && !run[n].pcs[t].Idle?
    ensures var s := run[n];
            CanStep(limit, s, t) ||
            (NeedsLock(s.pcs[t]) && s.lock.Some? && s.lock.value != t && CanStep(limit, s, s.lock.value))
  {
    var s := run[n];
    RunKeepsInv(limit, threads, run, events, n);
    if !NeedsLock(s.pcs[t]) {
      assert OpInv(limit, s, s.pcs[t]);
      BusyCanStep(limit, s, t);
    } else if s.lock.None? {
      var arena := Unused(s.issued);
      assert Enabled(limit, s, t, Register(arena));
    } else {
      var u := s.lock.value;
      assert HoldsLock(s.pcs[u]) && OpInv(limit, s, s.pcs[u]);
      BusyCanStep(limit, s, u);
    }
  }
}
