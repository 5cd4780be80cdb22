/** What the accounting of the pinned host pool guarantees over whole runs, under every schedule. */
module HostRuns {
  import opened Sums
  import opened HostAccounting
  import opened HostInterleaving
  import opened Width

  datatype Event = Event(thread: Tid, action: Action)

  /** `run` is a sequence of states from the empty pool, each reached by one step of one thread. The pool
      has a limit, and one in whose range the int64 casts are exact. */
  ghost predicate IsRun(limit: nat, threads: set<Tid>, run: seq<State>, events: seq<Event>) {
    && 0 < limit < TWO_62
    && |run| == |events| + 1
    && run[0] == Init(threads)
    && forall i :: 0 <= i < |events| ==> StepAt(limit, run, events, i)
  }

  ghost predicate StepAt(limit: nat, run: seq<State>, events: seq<Event>, i: nat)
    requires i < |events| && |run| == |events| + 1
  {
    Steps(limit, run[i], events[i], run[i + 1])
  }

  ghost predicate Steps(limit: nat, s: State, e: Event, s': State) {
    Enabled(limit, s, e.thread, e.action) && s' == Apply(limit, s, e.thread, e.action)
  }

  lemma {:induction false} RunKeepsInv(limit: nat, threads: set<Tid>, run: seq<State>, events: seq<Event>, i: nat)
    requires IsRun(limit, threads, run, events) && i < |run|
    ensures Inv(limit, run[i])
  {
    if i == 0 {
      InitInv(limit, threads);
    } else {
      RunKeepsInv(limit, threads, run, events, i - 1);
      assert StepAt(limit, run, events, i - 1);
      StepKeepsInv(limit, run[i - 1], events[i - 1].thread, events[i - 1].action);
    }
  }

  /** The header's promise, at every step of every interleaving: each byte is counted exactly once.
      The counter is the reservations, each at the larger of its size and its use, plus the live
      bytes that have no registered reservation, plus what threads in flight hold, less what the
      thread inside the mutex has put on a tracker but not (or no longer) on the counter. */
  lemma EachByteCountedOnce(limit: nat, threads: set<Tid>, run: seq<State>, events: seq<Event>, i: nat)
    requires IsRun(limit, threads, run, events) && i < |run|
    ensures run[i].total == Sum(CommittedMap(run[i].res)) + Sum(OrphanMap(run[i].live, run[i].res.Keys))
                          + Sum(run[i].raw) + Sum(CreditMap(run[i].pcs)) - Sum(DebitMap(run[i].pcs))
    ensures forall a :: a in run[i].res ==> run[i].res[a].used == Under(run[i].live, a) + Held(run[i], a)
    ensures run[i].total <= limit
    ensures ReservedBytes(run[i].res) <= run[i].total
  {
    RunKeepsInv(limit, threads, run, events, i);
    DebtIsCovered(limit, run[i]);
    CreditsAreNotNegative(limit, run[i]);
  }

  /** No credit is ever clamped: the swap of do_release takes off exactly its bytes. */
  lemma ClampNeverFires(limit: nat, threads: set<Tid>, run: seq<State>, events: seq<Event>, i: nat, t: Tid)
    requires IsRun(limit, threads, run, events) && i < |run| && t in run[i].pcs
    ensures run[i].pcs[t].Crediting? ==>
              Lowered(run[i].total, run[i].pcs[t].credit) == run[i].total - run[i].pcs[t].credit
    ensures run[i].pcs[t].Undoing? ==>
              Lowered(run[i].total, Amount(run[i].pcs[t].op)) == run[i].total - Amount(run[i].pcs[t].op)
  {
    RunKeepsInv(limit, threads, run, events, i);
    CounterCovers(limit, run[i], t);
  }

  /** Once everything has been returned, in whatever order, the counter is back at zero. */
  lemma DrainedMeansZero(limit: nat, threads: set<Tid>, run: seq<State>, events: seq<Event>, i: nat)
    requires IsRun(limit, threads, run, events) && i < |run|
    requires run[i].res == map[] && run[i].live == map[] && run[i].raw == map[]
    requires forall t :: t in run[i].pcs ==> run[i].pcs[t].Idle?
    ensures run[i].total == 0
  {
    var s := run[i];
    RunKeepsInv(limit, threads, run, events, i);
    SumZero(CreditMap(s.pcs));
    SumZero(DebitMap(s.pcs));
    assert CommittedMap(s.res) == map[] && OrphanMap(s.live, s.res.Keys) == map[];
  }

  // ---- live bytes ----

  /** Taking the mutex holder's unpaid bytes back off its tracker settles the debt. */
  lemma SettledPotential(limit: nat, s: State) returns (settled: map<Arena, Tracker>)
    requires Inv(limit, s)
    ensures settled.Keys == s.res.Keys
    ensures Potential(settled, s.live, s.raw) == Potential(s.res, s.live, s.raw) - Sum(DebitMap(s.pcs))
    ensures forall a :: a in settled ==> Under(s.live, a) <= settled[a].used
  {
    DebitOfHolder(s);
    settled := s.res;
    if s.lock.Some? && Debit(s.pcs[s.lock.value]) > 0 {
      settled := HolderPotential(limit, s);
    }
  }

  lemma HolderPotential(limit: nat, s: State) returns (settled: map<Arena, Tracker>)
    requires Inv(limit, s) && s.lock.Some? && s.lock.value in s.pcs && Debit(s.pcs[s.lock.value]) > 0
    ensures settled.Keys == s.res.Keys
    ensures Potential(settled, s.live, s.raw) == Potential(s.res, s.live, s.raw) - Debit(s.pcs[s.lock.value])
    ensures forall a :: a in settled ==> Under(s.live, a) <= settled[a].used
  {
    var op := s.pcs[s.lock.value].op;
    var a := op.arena.value;
    assert OpInv(limit, s, s.pcs[s.lock.value]);
    var tr := s.res[a].(used := s.res[a].used - op.bytes);
    settled := s.res[a := tr];
    PotentialTracker(s.res, s.live, s.raw, a, tr);
  }

  /** What the counter holds for threads comes on top of the live bytes. */
  lemma LiveAndCredits(limit: nat, s: State)
    requires Inv(limit, s)
    ensures LiveBytes(s.live) + Sum(s.raw) + Sum(CreditMap(s.pcs)) <= s.total
  {
    var settled := SettledPotential(limit, s);
    LiveWithinPotential(settled, s.live);
  }

  lemma CreditsAreNotNegative(limit: nat, s: State)
    requires Inv(limit, s)
    ensures forall j :: j in s.pcs ==> 0 <= Credit(s.pcs[j])
    ensures 0 <= Sum(CreditMap(s.pcs))
  {
    forall j | j in s.pcs ensures 0 <= Credit(s.pcs[j]) { CreditIsNotNegative(s.pcs[j]); }
    SumBounds(CreditMap(s.pcs), 0);
  }

  /** Live bytes never exceed the counter, in any state of any run. */
  lemma LiveWithinCounter(limit: nat, threads: set<Tid>, run: seq<State>, events: seq<Event>, i: nat)
    requires IsRun(limit, threads, run, events) && i < |run|
    ensures LiveBytes(run[i].live) + Sum(run[i].raw) <= run[i].total
  {
    RunKeepsInv(limit, threads, run, events, i);
    LiveAndCredits(limit, run[i]);
    CreditsAreNotNegative(limit, run[i]);
  }

  // ---- headroom ----

  /** A request that fits its reservation is admitted without looking at the counter at all, whatever
      the other threads have charged; any other request has to charge its overflow. */
  lemma HeadroomIsHonoured(limit: nat, threads: set<Tid>, run: seq<State>, events: seq<Event>, i: nat,
                           t: Tid, bytes: nat, a: Arena)
    requires IsRun(limit, threads, run, events) && i < |run|
    requires Enabled(limit, run[i], t, StartBlocks(bytes, Some(a))) && a in run[i].res
    ensures var s' := Apply(limit, run[i], t, StartBlocks(bytes, Some(a)));
            && s'.total == run[i].total
            && (s'.pcs[t].Charged? <==> run[i].res[a].used + bytes <= run[i].res[a].size)
            && (s'.pcs[t].Charging? ==>
                  s'.pcs[t].op.owed == run[i].res[a].used + bytes - Max(run[i].res[a].size, run[i].res[a].used))
  {
    RunKeepsInv(limit, threads, run, events, i);
    FreeLockRange(limit, run[i], a);
    OverflowChargeIsGrowth(run[i].res[a].size, run[i].res[a].used, bytes);
  }

  /** A capacity failure under a reservation means the reservation is overdrawn. */
  lemma OnlyOverflowFails(limit: nat, threads: set<Tid>, run: seq<State>, events: seq<Event>, i: nat, t: Tid)
    requires IsRun(limit, threads, run, events) && i < |run|
    requires Enabled(limit, run[i], t, GiveUp) && run[i].pcs[t].op.Blocks? && run[i].pcs[t].op.arena.Some?
    ensures run[i].pcs[t].op.arena.value in run[i].res
    ensures var tr := run[i].res[run[i].pcs[t].op.arena.value]; tr.used > tr.size
  {
    RunKeepsInv(limit, threads, run, events, i);
    assert OpInv(limit, run[i], run[i].pcs[t]);
  }

  // ---- failed allocations ----

  /** Counter bytes a thread has charged for its unfinished operation. */
  function Spent(pc: PC): int {
    if pc.Peaking? || pc.Charged? || pc.Undoing? then Amount(pc.op) else 0
  }

  /** Steps of an allocation that has not got its memory yet. */
  predicate Unfinished(pc: PC, a: Action) {
    && !a.MallocDone? && !a.Register? && !a.StartDealloc? && !a.StartRawDealloc? && !a.StartRelease?
    && !pc.Freeing? && !pc.Crediting?
  }

  /** Each of them changes the counter and the trackers by what the thread itself accounts for. */
  ghost predicate Accounted(s: State, s': State, t: Tid, x: Arena) {
    && t in s.pcs && t in s'.pcs
    && s'.total - s.total == Spent(s'.pcs[t]) - Spent(s.pcs[t])
    && s'.res.Keys == s.res.Keys && s'.live == s.live && s'.raw == s.raw
    && (x in s.res ==> s'.res[x].used - s.res[x].used == Tracked(s'.pcs[t], x) - Tracked(s.pcs[t], x))
  }

  lemma SwapWonIsAccounted(limit: nat, s: State, t: Tid, a: Action, x: Arena)
    requires Local(limit, s, t) && Enabled(limit, s, t, a) && a.SwapCounter? && Unfinished(s.pcs[t], a)
    requires !a.spurious && s.pcs[t].seen.value == s.total
    ensures Accounted(s, Apply(limit, s, t, a), t, x)
  {}

  lemma SwapLostIsAccounted(limit: nat, s: State, t: Tid, a: Action, x: Arena)
    requires Local(limit, s, t) && Enabled(limit, s, t, a) && a.SwapCounter? && Unfinished(s.pcs[t], a)
    requires a.spurious || s.pcs[t].seen.value != s.total
    ensures Accounted(s, Apply(limit, s, t, a), t, x)
  {}

  lemma TrackerStepIsAccounted(limit: nat, s: State, t: Tid, a: Action, x: Arena)
    requires Local(limit, s, t) && Enabled(limit, s, t, a) && (a.StartBlocks? || a.RollBackTracker?)
    ensures Accounted(s, Apply(limit, s, t, a), t, x)
  {}

  lemma PeakStepIsAccounted(limit: nat, s: State, t: Tid, a: Action, x: Arena)
    requires Local(limit, s, t) && Enabled(limit, s, t, a)
    requires a.LoadNow? || a.LoadPeak? || a.SwapPeak? || a.PeakDone?
    ensures Accounted(s, Apply(limit, s, t, a), t, x)
  {}

  lemma OtherStepIsAccounted(limit: nat, s: State, t: Tid, a: Action, x: Arena)
    requires Local(limit, s, t) && Enabled(limit, s, t, a) && Unfinished(s.pcs[t], a)
    requires a.StartReserve? || a.StartRaw? || a.LoadCounter?
    ensures Accounted(s, Apply(limit, s, t, a), t, x)
  {}

  lemma FailureIsAccounted(limit: nat, s: State, t: Tid, a: Action, x: Arena)
    requires Local(limit, s, t) && Enabled(limit, s, t, a) && Unfinished(s.pcs[t], a)
    requires a.GiveUp? || a.MallocFailed?
    ensures Accounted(s, Apply(limit, s, t, a), t, x)
  {}

  lemma UnfinishedStepIsAccounted(limit: nat, s: State, t: Tid, a: Action, x: Arena)
    requires Inv(limit, s) && Enabled(limit, s, t, a) && Unfinished(s.pcs[t], a)
    ensures Accounted(s, Apply(limit, s, t, a), t, x)
  {
    InvIsLocal(limit, s, t);
    match a
    case SwapCounter(spurious) =>
      if spurious || s.pcs[t].seen.value != s.total { SwapLostIsAccounted(limit, s, t, a, x); }
      else { SwapWonIsAccounted(limit, s, t, a, x); }
    case StartBlocks(_, _) => TrackerStepIsAccounted(limit, s, t, a, x);
    case RollBackTracker => TrackerStepIsAccounted(limit, s, t, a, x);
    case LoadNow => PeakStepIsAccounted(limit, s, t, a, x);
    case LoadPeak => PeakStepIsAccounted(limit, s, t, a, x);
    case SwapPeak(_) => PeakStepIsAccounted(limit, s, t, a, x);
    case PeakDone => PeakStepIsAccounted(limit, s, t, a, x);
    case GiveUp => FailureIsAccounted(limit, s, t, a, x);
    case MallocFailed => FailureIsAccounted(limit, s, t, a, x);
    case _ => OtherStepIsAccounted(limit, s, t, a, x);
  }

  /** What thread `t` itself did to the counter, and to the tracker of `x`, between two states. */
  function OwnCharge(run: seq<State>, events: seq<Event>, t: Tid, i: nat, j: nat): int
    requires i <= j < |run| == |events| + 1
  {
    if i == j then 0
    else OwnCharge(run, events, t, i, j - 1) +
         if events[j - 1].thread == t then run[j].total - run[j - 1].total else 0
  }

  function UsedUnder(s: State, x: Arena): int { if x in s.res then s.res[x].used else 0 }

  function OwnUse(run: seq<State>, events: seq<Event>, t: Tid, x: Arena, i: nat, j: nat): int
    requires i <= j < |run| == |events| + 1
  {
    if i == j then 0
    else OwnUse(run, events, t, x, i, j - 1) +
         if events[j - 1].thread == t then UsedUnder(run[j], x) - UsedUnder(run[j - 1], x) else 0
  }

  ghost predicate OnlyUnfinished(run: seq<State>, events: seq<Event>, t: Tid, i: nat, j: nat)
    requires i <= j < |run| == |events| + 1
  {
    forall k :: i <= k < j && events[k].thread == t && t in run[k].pcs ==> Unfinished(run[k].pcs[t], events[k].action)
  }

  /** One step of a run, with everything the inductions below need to know about it. */
  lemma RunStep(limit: nat, threads: set<Tid>, run: seq<State>, events: seq<Event>, k: nat)
    requires IsRun(limit, threads, run, events) && k < |events|
    ensures Inv(limit, run[k]) && Moves(run[k], run[k + 1], events[k].thread)
    ensures run[k].peak <= run[k + 1].peak
  {
    RunKeepsInv(limit, threads, run, events, k);
    assert StepAt(limit, run, events, k);
    StepKeepsInv(limit, run[k], events[k].thread, events[k].action);
    PeakStepsUp(limit, run[k], events[k].thread, events[k].action);
  }

  lemma RunStepIsAccounted(limit: nat, threads: set<Tid>, run: seq<State>, events: seq<Event>, k: nat, x: Arena)
    requires IsRun(limit, threads, run, events) && k < |events|
    requires events[k].thread in run[k].pcs && Unfinished(run[k].pcs[events[k].thread], events[k].action)
    ensures Accounted(run[k], run[k + 1], events[k].thread, x)
  {
    RunKeepsInv(limit, threads, run, events, k);
    assert StepAt(limit, run, events, k);
    UnfinishedStepIsAccounted(limit, run[k], events[k].thread, events[k].action, x);
  }

  /** What a step of the run adds to the thread's own sums, its own step or another's. */
  lemma OwnStep(limit: nat, threads: set<Tid>, run: seq<State>, events: seq<Event>, t: Tid, k: nat)
    requires IsRun(limit, threads, run, events) && k < |events| && t in run[k].pcs
    requires events[k].thread == t ==> Unfinished(run[k].pcs[t], events[k].action)
    ensures t in run[k + 1].pcs
    ensures events[k].thread != t ==> run[k + 1].pcs[t] == run[k].pcs[t]
    ensures events[k].thread == t ==> run[k + 1].total - run[k].total == Spent(run[k + 1].pcs[t]) - Spent(run[k].pcs[t])
  {
    RunStep(limit, threads, run, events, k);
    if events[k].thread == t {
      RunStepIsAccounted(limit, threads, run, events, k, 0);
    }
  }

  lemma {:induction false} OwnChargeTelescopes(limit: nat, threads: set<Tid>, run: seq<State>, events: seq<Event>,
                                               t: Tid, i: nat, j: nat)
    requires IsRun(limit, threads, run, events) && i <= j < |run| && t in run[i].pcs
    requires OnlyUnfinished(run, events, t, i, j)
    ensures t in run[j].pcs
    ensures OwnCharge(run, events, t, i, j) == Spent(run[j].pcs[t]) - Spent(run[i].pcs[t])
  {
    if i < j {
      OwnChargeTelescopes(limit, threads, run, events, t, i, j - 1);
      OwnStep(limit, threads, run, events, t, j - 1);
    }
  }

  /** No thread has anything on a tracker that is not there. */
  lemma NothingTracked(limit: nat, threads: set<Tid>, run: seq<State>, events: seq<Event>, t: Tid, x: Arena, k: nat)
    requires IsRun(limit, threads, run, events) && k < |run| && t in run[k].pcs && x !in run[k].res
    ensures Tracked(run[k].pcs[t], x) == 0
  {
    RunKeepsInv(limit, threads, run, events, k);
    assert OpInv(limit, run[k], run[k].pcs[t]);
  }

  lemma OwnUseStep(limit: nat, threads: set<Tid>, run: seq<State>, events: seq<Event>, t: Tid, x: Arena, k: nat)
    requires IsRun(limit, threads, run, events) && k < |events| && t in run[k].pcs && t in run[k + 1].pcs
    requires events[k].thread == t && Unfinished(run[k].pcs[t], events[k].action)
    ensures UsedUnder(run[k + 1], x) - UsedUnder(run[k], x) == Tracked(run[k + 1].pcs[t], x) - Tracked(run[k].pcs[t], x)
  {
    RunStepIsAccounted(limit, threads, run, events, k, x);
    if x !in run[k].res {
      NothingTracked(limit, threads, run, events, t, x, k);
      NothingTracked(limit, threads, run, events, t, x, k + 1);
    }
  }

  lemma {:induction false} OwnUseTelescopes(limit: nat, threads: set<Tid>, run: seq<State>, events: seq<Event>,
                                            t: Tid, x: Arena, i: nat, j: nat)
    requires IsRun(limit, threads, run, events) && i <= j < |run| && t in run[i].pcs
    requires OnlyUnfinished(run, events, t, i, j)
    ensures t in run[j].pcs
    ensures OwnUse(run, events, t, x, i, j) == Tracked(run[j].pcs[t], x) - Tracked(run[i].pcs[t], x)
  {
    if i < j {
      OwnUseTelescopes(limit, threads, run, events, t, x, i, j - 1);
      OwnStep(limit, threads, run, events, t, j - 1);
      if events[j - 1].thread == t {
        OwnUseStep(limit, threads, run, events, t, x, j - 1);
      }
    }
  }

  /** What a thread itself did to the counter and to any tracker over a stretch of the run is what it holds
      of them now, less what it held then. */
  lemma OwnStepsTelescope(limit: nat, threads: set<Tid>, run: seq<State>, events: seq<Event>, t: Tid, x: Arena,
                          i: nat, j: nat)
    requires IsRun(limit, threads, run, events) && i <= j < |run| && t in run[i].pcs
    requires OnlyUnfinished(run, events, t, i, j)
    ensures t in run[j].pcs
    ensures OwnCharge(run, events, t, i, j) == Spent(run[j].pcs[t]) - Spent(run[i].pcs[t])
    ensures OwnUse(run, events, t, x, i, j) == Tracked(run[j].pcs[t], x) - Tracked(run[i].pcs[t], x)
  {
    OwnChargeTelescopes(limit, threads, run, events, t, i, j);
    OwnUseTelescopes(limit, threads, run, events, t, x, i, j);
  }

  /** A thread that is idle at both ends and obtained nothing in between has, all told, left the counter
      and every tracker as it found them: every failed allocation, managed or not, undoes its own charges,
      however the steps of other threads fall in between. Only the peak can differ. */
  lemma FailedAllocationUndoesItself(limit: nat, threads: set<Tid>, run: seq<State>, events: seq<Event>,
                                     t: Tid, x: Arena, i: nat, j: nat)
    requires IsRun(limit, threads, run, events) && i <= j < |run|
    requires t in run[i].pcs && run[i].pcs[t].Idle? && t in run[j].pcs && run[j].pcs[t].Idle?
    requires OnlyUnfinished(run, events, t, i, j)
    ensures OwnCharge(run, events, t, i, j) == 0
    ensures OwnUse(run, events, t, x, i, j) == 0
  {
    OwnStepsTelescope(limit, threads, run, events, t, x, i, j);
  }

  // ---- peak ----

  lemma {:induction false} PeakNeverFalls(limit: nat, threads: set<Tid>, run: seq<State>, events: seq<Event>, i: nat,
                                          j: nat)
    requires IsRun(limit, threads, run, events) && i <= j < |run|
    ensures run[i].peak <= run[j].peak
  {
    if i < j {
      PeakNeverFalls(limit, threads, run, events, i, j - 1);
      RunStep(limit, threads, run, events, j - 1);
    }
  }

  /** The recorded peak is within the limit, and has caught up with the counter, hence with every
      earlier value of it seen in such a state, whenever no thread is between a successful charge
      and the end of update_peak. */
  lemma PeakIsSound(limit: nat, threads: set<Tid>, run: seq<State>, events: seq<Event>, i: nat, j: nat)
    requires IsRun(limit, threads, run, events) && i <= j < |run|
    ensures run[j].peak <= limit
    ensures (forall t :: t in run[i].pcs ==> !run[i].pcs[t].Peaking?) ==> run[i].total <= run[j].peak
  {
    RunKeepsInv(limit, threads, run, events, i);
    RunKeepsInv(limit, threads, run, events, j);
    PeakNeverFalls(limit, threads, run, events, i, j);
  }

  lemma PeakStepsUp(limit: nat, s: State, t: Tid, a: Action)
    requires Enabled(limit, s, t, a) && OpInv(limit, s, s.pcs[t])
    ensures s.peak <= Apply(limit, s, t, a).peak
  {
    if a.SwapPeak? { PeakSwapRaises(limit, s, t, a); } else { OnlyPeakSwapMoves(limit, s, t, a); }
  }

  lemma PeakSwapRaises(limit: nat, s: State, t: Tid, a: Action)
    requires Enabled(limit, s, t, a) && a.SwapPeak?
    ensures s.peak <= Apply(limit, s, t, a).peak
  {}

  lemma OnlyPeakSwapMoves(limit: nat, s: State, t: Tid, a: Action)
    requires Enabled(limit, s, t, a) && !a.SwapPeak?
    ensures s.peak == Apply(limit, s, t, a).peak
  {}

  // ---- growing a live reservation ----

  /** `grow_by` raises the size of a registered arena and nothing else. */
  function Grown(s: State, a: Arena, n: nat): State
    requires a in s.res
  {
    s.(res := s.res[a := s.res[a].(size := if n > SIZE_MAX - s.res[a].size then SIZE_MAX else s.res[a].size + n)])
  }

  /** It is outside the accounting: the equation survives it exactly if nothing was added or the new size
      still lies within the bytes already in use. */
  lemma GrowingBreaksTheAccounting(limit: nat, s: State, a: Arena, n: nat)
    requires Inv(limit, s) && a in s.res
    ensures var size := Grown(s, a, n).res[a].size;
            Balanced(Grown(s, a, n)) <==> size == s.res[a].size || Max(size, s.res[a].size) <= s.res[a].used
  {
    PotentialTracker(s.res, s.live, s.raw, a, Grown(s, a, n).res[a]);
  }
}
