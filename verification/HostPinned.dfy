/** How much pinned memory the counter covers: exactly how far apart the two can be, and a run on which
    they are. */
module HostPinned {
  import opened Sums
  import opened HostAccounting
  import opened HostInterleaving
  import opened HostRuns
  import opened Width

  /** Pinned memory: live bytes and blocks on their way to hipFreeHost. */
  function FreeingMap(pcs: map<Tid, PC>): map<Tid, int> {
    map t | t in pcs :: if pcs[t].Freeing? then pcs[t].bytes else 0
  }

  ghost function Pinned(s: State): int { LiveBytes(s.live) + Sum(s.raw) + Sum(FreeingMap(s.pcs)) }

  /** Blocks about to be freed whose bytes the counter no longer holds: the headroom of their reservation
      has been given back already. */
  function ShortfallMap(pcs: map<Tid, PC>): map<Tid, int> {
    map t | t in pcs :: if pcs[t].Freeing? then pcs[t].bytes - pcs[t].credit else 0
  }

  /** What the counter holds for threads that have nothing pinned for it yet, or any more. */
  function WaitingMap(pcs: map<Tid, PC>): map<Tid, int> {
    map t | t in pcs :: if pcs[t].Freeing? then 0 else Credit(pcs[t])
  }

  /** What a registered reservation holds beyond the live bytes under it. */
  ghost function UnusedMap(res: map<Arena, Tracker>, live: map<AllocId, Alloc>): map<Arena, int> {
    map a | a in res :: Committed(res[a]) - Under(live, a)
  }

  // ---- the exact balance ----

  ghost function UnderAll(res: map<Arena, Tracker>, live: map<AllocId, Alloc>): map<Arena, int> {
    map a | a in res :: Under(live, a)
  }

  /** Every live allocation is under one registered reservation or under none. */
  lemma {:induction false} LiveSplits(res: map<Arena, Tracker>, live: map<AllocId, Alloc>)
    ensures LiveBytes(live) == Sum(UnderAll(res, live)) + Sum(OrphanMap(live, res.Keys))
    decreases res.Keys
  {
    if res == map[] {
      assert OrphanMap(live, res.Keys) == BytesMap(live);
      assert UnderAll(res, live) == map[];
    } else {
      var a :| a in res;
      var rest := res - {a};
      assert rest.Keys == res.Keys - {a};
      LiveSplits(rest, live);
      OrphansOfRelease(live, res.Keys, a);
      assert UnderAll(rest, live) == UnderAll(res, live) - {a};
      SumSplit(UnderAll(res, live), a);
    }
  }

  /** Live bytes are the committed bytes less what the reservations hold unused. */
  lemma LiveAndUnused(res: map<Arena, Tracker>, live: map<AllocId, Alloc>)
    ensures LiveBytes(live) + Sum(UnusedMap(res, live)) == Sum(CommittedMap(res)) + Sum(OrphanMap(live, res.Keys))
  {
    LiveSplits(res, live);
    SumZip(UnusedMap(res, live), UnderAll(res, live), CommittedMap(res));
  }

  lemma CreditsSplit(pcs: map<Tid, PC>)
    ensures Sum(CreditMap(pcs)) + Sum(ShortfallMap(pcs)) == Sum(WaitingMap(pcs)) + Sum(FreeingMap(pcs))
  {
    var both := map t | t in pcs :: Credit(pcs[t]) + ShortfallMap(pcs)[t];
    SumZip(CreditMap(pcs), ShortfallMap(pcs), both);
    SumZip(WaitingMap(pcs), FreeingMap(pcs), both);
  }

  /** Pinned memory against the counter, to the byte, in every state of every run. */
  lemma PinnedBalance(limit: nat, threads: set<Tid>, run: seq<State>, events: seq<Event>, i: nat)
    requires IsRun(limit, threads, run, events) && i < |run|
    ensures var s := run[i];
            Pinned(s) + Sum(UnusedMap(s.res, s.live)) + Sum(WaitingMap(s.pcs))
              == s.total + Sum(DebitMap(s.pcs)) + Sum(ShortfallMap(s.pcs))
  {
    RunKeepsInv(limit, threads, run, events, i);
    LiveAndUnused(run[i].res, run[i].live);
    CreditsSplit(run[i].pcs);
  }

  lemma WaitingIsNotNegative(limit: nat, s: State)
    requires Inv(limit, s)
    ensures 0 <= Sum(WaitingMap(s.pcs))
  {
    CreditsAreNotNegative(limit, s);
    SumBounds(WaitingMap(s.pcs), 0);
  }

  /** In any case it exceeds the counter by no more than the blocks about to be freed are short of. */
  lemma PinnedBound(limit: nat, threads: set<Tid>, run: seq<State>, events: seq<Event>, i: nat)
    requires IsRun(limit, threads, run, events) && i < |run|
    ensures Pinned(run[i]) <= run[i].total + Sum(ShortfallMap(run[i].pcs))
  {
    RunKeepsInv(limit, threads, run, events, i);
    LiveAndCredits(limit, run[i]);
    CreditsSplit(run[i].pcs);
    WaitingIsNotNegative(limit, run[i]);
  }

  lemma NoShortfall(pcs: map<Tid, PC>)
    requires forall t :: t in pcs && pcs[t].Freeing? ==> pcs[t].credit >= pcs[t].bytes
    ensures Sum(ShortfallMap(pcs)) <= 0
  {
    var zero := map t | t in pcs :: 0;
    SumGap(ShortfallMap(pcs), zero, 0);
    SumZero(zero);
  }

  /** While no thread is short of anything, in particular between whole operations, pinned memory is within
      the counter, hence within the limit. */
  lemma PinnedWithinCounter(limit: nat, threads: set<Tid>, run: seq<State>, events: seq<Event>, i: nat)
    requires IsRun(limit, threads, run, events) && i < |run|
    requires forall t :: t in run[i].pcs && run[i].pcs[t].Freeing? ==> run[i].pcs[t].credit >= run[i].pcs[t].bytes
    ensures Pinned(run[i]) <= run[i].total <= limit
  {
    PinnedBound(limit, threads, run, events, i);
    NoShortfall(run[i].pcs);
    RunKeepsInv(limit, threads, run, events, i);
  }

  // ---- a run that pins twice the limit ----

  /** One more step of the run. */
  lemma Extend(limit: nat, threads: set<Tid>, run: seq<State>, events: seq<Event>, e: Event)
    returns (run': seq<State>, events': seq<Event>)
    requires IsRun(limit, threads, run, events) && Enabled(limit, run[|events|], e.thread, e.action)
    ensures IsRun(limit, threads, run', events') && |events'| == |events| + 1
    ensures run'[|events'|] == Apply(limit, run[|events|], e.thread, e.action)
  {
    run', events' := run + [Apply(limit, run[|events|], e.thread, e.action)], events + [e];
    forall i | 0 <= i < |events'| ensures StepAt(limit, run', events', i) {
      if i < |events| { assert StepAt(limit, run, events, i); }
    }
  }

  /** Two threads and at most one reservation, of the whole limit; thread 1 is idle. */
  ghost predicate Stage(s: State, total: nat, peak: nat, used: Option<nat>, live: set<AllocId>, pc: PC) {
    && s.total == total && s.peak == peak && s.lock.None? && s.raw == map[]
    && s.pcs.Keys == {0, 1} && s.pcs[0] == pc && s.pcs[1] == Idle
    && s.res.Keys == s.issued == (if used.None? then {} else {0})
    && (used.Some? ==> s.res[0] == Tracker(total, used.value))
    && s.live.Keys == live && forall a :: a in live ==> s.live[a] == Alloc(total, Some(0))
  }

  lemma ChargeTheLimit(limit: nat) returns (run: seq<State>, events: seq<Event>)
    requires 0 < limit < TWO_62
    ensures IsRun(limit, {0, 1}, run, events) && |events| == 3
    ensures Stage(run[3], limit, 0, None, {}, Peaking(Reserve(limit), None, None))
  {
    run, events := [Init({0, 1})], [];
    run, events := Extend(limit, {0, 1}, run, events, Event(0, StartReserve(limit)));
    run, events := Extend(limit, {0, 1}, run, events, Event(0, LoadCounter));
    run, events := Extend(limit, {0, 1}, run, events, Event(0, SwapCounter(false)));
  }

  lemma RaiseThePeak(limit: nat, r: seq<State>, e: seq<Event>) returns (run: seq<State>, events: seq<Event>)
    requires IsRun(limit, {0, 1}, r, e) && |e| == 3
    requires Stage(r[3], limit, 0, None, {}, Peaking(Reserve(limit), None, None))
    ensures IsRun(limit, {0, 1}, run, events) && |events| == 6
    ensures Stage(run[6], limit, limit, None, {}, Charged(Reserve(limit)))
  {
    run, events := Extend(limit, {0, 1}, r, e, Event(0, LoadNow));
    run, events := Extend(limit, {0, 1}, run, events, Event(0, LoadPeak));
    run, events := Extend(limit, {0, 1}, run, events, Event(0, SwapPeak(false)));
  }

  lemma RegisterIt(limit: nat, r: seq<State>, e: seq<Event>) returns (run: seq<State>, events: seq<Event>)
    requires IsRun(limit, {0, 1}, r, e) && |e| == 6
    requires Stage(r[6], limit, limit, None, {}, Charged(Reserve(limit)))
    ensures IsRun(limit, {0, 1}, run, events) && |events| == 7
    ensures Stage(run[7], limit, limit, Some(0), {}, Idle)
  {
    run, events := Extend(limit, {0, 1}, r, e, Event(0, Register(0)));
  }

  /** Thread `t` has put the whole limit on the tracker and owes the counter nothing. */
  ghost predicate Admitted(limit: nat, s: State, t: Tid, s': State) {
    && s'.pcs == s.pcs[t := Charged(Blocks(limit, Some(0), 0))] && s'.lock == Some(t)
    && s'.res == s.res[0 := Tracker(limit, limit)]
    && s'.total == s.total && s'.peak == s.peak && s'.live == s.live && s'.raw == s.raw && s'.issued == s.issued
  }

  lemma AdmitWhole(limit: nat, s: State, t: Tid, pc: PC)
    requires 0 < limit < TWO_62 && t in {0, 1} && Stage(s, limit, limit, Some(0), s.live.Keys, pc) && s.pcs[t] == Idle
    ensures Enabled(limit, s, t, StartBlocks(limit, Some(0)))
    ensures Admitted(limit, s, t, Apply(limit, s, t, StartBlocks(limit, Some(0))))
  {
    OverflowChargeIsGrowth(limit, 0, limit);
  }

  lemma PinIt(limit: nat, s: State, t: Tid, s': State, id: AllocId, pc: PC)
    requires t in {0, 1} && id !in s.live && Stage(s, limit, limit, Some(0), s.live.Keys, pc) && s.pcs[t] == Idle
    requires Admitted(limit, s, t, s')
    ensures Enabled(limit, s', t, MallocDone(id))
    ensures Stage(Apply(limit, s', t, MallocDone(id)), limit, limit, Some(limit), s.live.Keys + {id}, pc)
  {}

  /** A thread allocates the whole reservation: nothing is charged, one block is pinned. */
  lemma UseItAll(limit: nat, s: State, t: Tid, id: AllocId, pc: PC)
    requires 0 < limit < TWO_62 && t in {0, 1} && id !in s.live && Stage(s, limit, limit, Some(0), s.live.Keys, pc)
    requires s.pcs[t] == Idle
    ensures Enabled(limit, s, t, StartBlocks(limit, Some(0)))
    ensures var s1 := Apply(limit, s, t, StartBlocks(limit, Some(0)));
            Enabled(limit, s1, t, MallocDone(id)) &&
            Stage(Apply(limit, s1, t, MallocDone(id)), limit, limit, Some(limit), s.live.Keys + {id}, pc)
  {
    AdmitWhole(limit, s, t, pc);
    PinIt(limit, s, t, Apply(limit, s, t, StartBlocks(limit, Some(0))), id, pc);
  }

  lemma GiveItBack(limit: nat, s: State)
    requires 0 < limit < TWO_62 && Stage(s, limit, limit, Some(limit), {0}, Idle)
    ensures Enabled(limit, s, 0, StartDealloc(0))
    ensures Stage(Apply(limit, s, 0, StartDealloc(0)), limit, limit, Some(0), {}, Freeing(limit, 0))
  {
    OverflowCreditIsShrinkage(limit, limit, limit);
  }

  lemma BothPinned(limit: nat, s: State)
    requires Stage(s, limit, limit, Some(limit), {1}, Freeing(limit, 0))
    ensures Pinned(s) == 2 * limit
  {
    SumSingle(BytesMap(s.live), 1);
    SumSingle(FreeingMap(s.pcs), 0);
    SumZero(s.raw);
  }

  lemma AllInUse(limit: nat) returns (run: seq<State>, events: seq<Event>)
    requires 0 < limit < TWO_62
    ensures IsRun(limit, {0, 1}, run, events) && |events| == 9
    ensures Stage(run[9], limit, limit, Some(limit), {0}, Idle)
  {
    run, events := ChargeTheLimit(limit);
    run, events := RaiseThePeak(limit, run, events);
    run, events := RegisterIt(limit, run, events);
    UseItAll(limit, run[7], 0, 0, Idle);
    run, events := Extend(limit, {0, 1}, run, events, Event(0, StartBlocks(limit, Some(0))));
    run, events := Extend(limit, {0, 1}, run, events, Event(0, MallocDone(0)));
  }

  /** In the middle of a deallocation pinned memory can overshoot: the headroom is given back before the
      block is freed, so another thread can use it while both blocks are pinned. For every limit some run
      of two threads pins twice the limit, with the counter at the limit. */
  lemma PinnedCanOvershoot(limit: nat) returns (run: seq<State>, events: seq<Event>)
    requires 0 < limit < TWO_62
    ensures IsRun(limit, {0, 1}, run, events) && |events| == 12
    ensures run[12].total == limit && Pinned(run[12]) == 2 * limit
  {
    run, events := AllInUse(limit);
    GiveItBack(limit, run[9]);
    run, events := Extend(limit, {0, 1}, run, events, Event(0, StartDealloc(0)));
    UseItAll(limit, run[10], 1, 1, Freeing(limit, 0));
    run, events := Extend(limit, {0, 1}, run, events, Event(1, StartBlocks(limit, Some(0))));
    run, events := Extend(limit, {0, 1}, run, events, Event(1, MallocDone(1)));
    BothPinned(limit, run[12]);
  }

  // ---- and exactly when it can ----

  /** Taking a live allocation for freeing moves its bytes from the live ones to those about to be freed. */
  lemma DeallocKeepsPinned(limit: nat, s: State, t: Tid, id: AllocId)
    requires Enabled(limit, s, t, StartDealloc(id))
    ensures var s' := Apply(limit, s, t, StartDealloc(id)); Pinned(s') == Pinned(s) && s'.total == s.total
  {
    var s' := Apply(limit, s, t, StartDealloc(id));
    if id in s.live {
      assert BytesMap(s'.live) == BytesMap(s.live) - {id};
      SumSplit(BytesMap(s.live), id);
      assert FreeingMap(s'.pcs) == FreeingMap(s.pcs)[t := s.live[id].bytes];
      SumSet(FreeingMap(s.pcs), t, s.live[id].bytes);
    }
  }

  /** The counter no longer holds all the bytes of the block this thread is about to free. */
  predicate FallsShort(pc: PC) { pc.Freeing? && pc.credit < pc.bytes }

  predicate IsCounterStep(a: Action) { a.LoadCounter? || a.GiveUp? }

  predicate IsPeakStep(a: Action) { a.LoadNow? || a.LoadPeak? || a.SwapPeak? || a.PeakDone? }

  predicate IsStart(a: Action) {
    a.StartReserve? || a.StartBlocks? || a.StartRaw? || a.StartRawDealloc? || a.StartRelease?
  }

  lemma CounterStepFreesNothing(limit: nat, s: State, e: Event, s': State)
    requires e.thread in s'.pcs && Steps(limit, s, e, s') && IsCounterStep(e.action)
    ensures !FallsShort(s'.pcs[e.thread])
  {}

  lemma SwapFreesNothing(limit: nat, s: State, e: Event, s': State)
    requires e.thread in s'.pcs && Steps(limit, s, e, s') && e.action.SwapCounter?
    ensures !FallsShort(s'.pcs[e.thread])
  {}

  lemma PeakStepFreesNothing(limit: nat, s: State, e: Event, s': State)
    requires e.thread in s'.pcs && Steps(limit, s, e, s') && IsPeakStep(e.action)
    ensures !FallsShort(s'.pcs[e.thread])
  {}

  lemma StartHasItsBytes(limit: nat, s: State, e: Event, s': State)
    requires e.thread in s'.pcs && Steps(limit, s, e, s') && IsStart(e.action)
    ensures !FallsShort(s'.pcs[e.thread])
  {}

  lemma ReturnFreesNothing(limit: nat, s: State, e: Event, s': State)
    requires e.thread in s'.pcs && Steps(limit, s, e, s') && !e.action.StartDealloc?
    requires !IsCounterStep(e.action) && !e.action.SwapCounter? && !IsPeakStep(e.action) && !IsStart(e.action)
    ensures !FallsShort(s'.pcs[e.thread])
  {}

  /** That is the only way to fall short. */
  lemma OnlyDeallocFallsShort(limit: nat, s: State, e: Event, s': State)
    requires e.thread in s'.pcs && Steps(limit, s, e, s') && !e.action.StartDealloc?
    ensures !FallsShort(s'.pcs[e.thread])
  {
    if IsCounterStep(e.action) {
      CounterStepFreesNothing(limit, s, e, s');
    } else if e.action.SwapCounter? {
      SwapFreesNothing(limit, s, e, s');
    } else if IsPeakStep(e.action) {
      PeakStepFreesNothing(limit, s, e, s');
    } else if IsStart(e.action) {
      StartHasItsBytes(limit, s, e, s');
    } else {
      ReturnFreesNothing(limit, s, e, s');
    }
  }

  lemma {:induction false} ThreadsStay(limit: nat, threads: set<Tid>, run: seq<State>, events: seq<Event>, i: nat)
    requires IsRun(limit, threads, run, events) && i < |run|
    ensures run[i].pcs.Keys == threads
  {
    if i > 0 {
      ThreadsStay(limit, threads, run, events, i - 1);
      RunStep(limit, threads, run, events, i - 1);
    }
  }

  /** Falling short moves neither pinned memory nor the counter. */
  lemma FallingShortKeepsPinned(limit: nat, s: State, e: Event, s': State)
    requires Moves(s, s', e.thread) && FallsShort(s'.pcs[e.thread]) && Steps(limit, s, e, s')
    ensures Pinned(s') == Pinned(s) && s'.total == s.total
  {
    if e.action.StartDealloc? {
      DeallocKeepsPinned(limit, s, e.thread, e.action.id);
    } else {
      OnlyDeallocFallsShort(limit, s, e, s');
    }
  }

  lemma AtMostOne<T>(s: set<T>, x: T, y: T)
    requires |s| <= 1 && x in s && y in s
    ensures x == y
  {
    assert |s - {x}| == 0;
  }

  /** With one thread, only the one that stepped last can be short of anything. */
  lemma NobodyElseFallsShort(limit: nat, threads: set<Tid>, run: seq<State>, events: seq<Event>, i: nat)
    requires IsRun(limit, threads, run, events) && i < |run| && |threads| <= 1
    requires i > 0 && events[i - 1].thread in run[i].pcs ==> !FallsShort(run[i].pcs[events[i - 1].thread])
    ensures forall t :: t in run[i].pcs ==> !FallsShort(run[i].pcs[t])
  {
    if i > 0 {
      ThreadsStay(limit, threads, run, events, i);
      RunStep(limit, threads, run, events, i - 1);
      forall t | t in run[i].pcs ensures t == events[i - 1].thread { AtMostOne(threads, t, events[i - 1].thread); }
    }
  }

  lemma ShortStepKeepsPinned(limit: nat, threads: set<Tid>, run: seq<State>, events: seq<Event>, i: nat)
    requires IsRun(limit, threads, run, events) && i < |events|
    requires events[i].thread in run[i + 1].pcs && FallsShort(run[i + 1].pcs[events[i].thread])
    ensures Pinned(run[i + 1]) == Pinned(run[i]) && run[i + 1].total == run[i].total
  {
    RunStep(limit, threads, run, events, i);
    assert StepAt(limit, run, events, i);
    FallingShortKeepsPinned(limit, run[i], events[i], run[i + 1]);
  }

  /** A lone thread leaves pinned memory within the counter. */
  lemma {:induction false} OneThread(limit: nat, threads: set<Tid>, run: seq<State>, events: seq<Event>, i: nat)
    requires IsRun(limit, threads, run, events) && i < |run| && |threads| <= 1
    ensures Pinned(run[i]) <= run[i].total
  {
    if i > 0 && events[i - 1].thread in run[i].pcs && FallsShort(run[i].pcs[events[i - 1].thread]) {
      OneThread(limit, threads, run, events, i - 1);
      ShortStepKeepsPinned(limit, threads, run, events, i - 1);
    } else {
      NobodyElseFallsShort(limit, threads, run, events, i);
      PinnedWithinCounter(limit, threads, run, events, i);
    }
  }

  /** In every run of at most `n` threads, pinned memory stays within the counter. */
  ghost predicate StaysCovered(limit: nat, n: nat) {
    forall threads: set<Tid>, run: seq<State>, events: seq<Event>, i: nat
      | IsRun(limit, threads, run, events) && i < |run| && |threads| <= n :: Pinned(run[i]) <= run[i].total
  }

  /** Whatever the limit, the counter covers pinned memory under every schedule exactly if no two threads
      use the pool. */
  lemma PinnedWithinIff(limit: nat, n: nat)
    requires 0 < limit < TWO_62
    ensures StaysCovered(limit, n) <==> n <= 1
  {
    if n <= 1 {
      forall threads: set<Tid>, run: seq<State>, events: seq<Event>, i: nat
        | IsRun(limit, threads, run, events) && i < |run| && |threads| <= n
        ensures Pinned(run[i]) <= run[i].total
      {
        OneThread(limit, threads, run, events, i);
      }
    } else {
      var run, events := PinnedCanOvershoot(limit);
      assert |{0, 1}| <= n && Pinned(run[12]) > run[12].total;
    }
  }
}
