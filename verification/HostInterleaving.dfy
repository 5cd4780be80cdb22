/** The pinned host pool under any number of threads. Every load, every compare-and-swap on the
    counter or the peak, every driver call and every span that only touches lock-protected maps is
    one step of its own; the mutex is explicit, so the spans of `allocate_multiple_blocks` and
    `release_reservation` that update the counter while holding it interleave with the
    compare-and-swaps of threads that do not hold it. */
module HostInterleaving {
  import opened Sums
  import opened HostAccounting
  import opened Width

  type Tid = nat

  /** The operation a thread is charging the counter for. */
  datatype Op =
    | Reserve(bytes: nat)
    | Blocks(bytes: nat, arena: Option<Arena>, owed: nat)
    | Raw(bytes: nat)

  /** Where a thread is. `seen`, `now` and `top` are the values it loaded last. */
  datatype PC =
    | Idle
    | Charging(op: Op, seen: Option<nat>)                   // do_reserve, before the charge
    | Peaking(op: Op, now: Option<nat>, top: Option<nat>)   // update_peak
    | Charged(op: Op)                                       // do_reserve has returned true
    | Undoing(op: Op, seen: Option<nat>)                    // hipMallocHost failed, in do_release
    | Untracking(op: Op)                                    // tracker charge still to be rolled back
    | Freeing(bytes: nat, credit: nat)                      // allocation taken, hipFreeHost to come
    | Crediting(credit: nat, seen: Option<nat>, locked: bool) // do_release

  datatype State = State(
    total: nat,
    peak: nat,
    lock: Option<Tid>,
    res: map<Arena, Tracker>,
    issued: set<Arena>,
    live: map<AllocId, Alloc>,
    raw: map<AllocId, int>,
    pcs: map<Tid, PC>)

  datatype Action =
    | StartReserve(bytes: nat)
    | StartBlocks(bytes: nat, under: Option<Arena>)
    | StartRaw(bytes: nat)
    | StartDealloc(id: AllocId)
    | StartRawDealloc(id: AllocId)
    | StartRelease(arena: Arena)
    | LoadCounter
    | SwapCounter(spurious: bool)
    | GiveUp
    | LoadNow
    | LoadPeak
    | SwapPeak(spurious: bool)
    | PeakDone
    | Register(arena: Arena)
    | MallocDone(id: AllocId)
    | MallocFailed
    | RollBackTracker
    | FreePinned

  function Amount(op: Op): nat {
    match op
    case Reserve(b) => b
    case Blocks(_, _, owed) => owed
    case Raw(b) => b
  }

  /** A thread holds the mutex through all of a block allocation and of a reservation release. */
  predicate HoldsLock(pc: PC) {
    match pc
    case Idle => false
    case Charging(op, _) => op.Blocks?
    case Peaking(op, _, _) => op.Blocks?
    case Charged(op) => op.Blocks?
    case Undoing(op, _) => op.Blocks?
    case Untracking(op) => op.Blocks?
    case Freeing(_, _) => false
    case Crediting(_, _, locked) => locked
  }

  function To(s: State, t: Tid, pc: PC): State { s.(pcs := s.pcs[t := pc]) }

  /** Back to idle, dropping the mutex if this thread holds it. */
  function Finish(s: State, t: Tid): State {
    To(s.(lock := if s.lock == Some(t) then None else s.lock), t, Idle)
  }

  /** do_reserve of nothing succeeds at once, without touching counter or peak. */
  function BeginCharge(s: State, t: Tid, op: Op): State {
    To(s, t, if Amount(op) == 0 then Charged(op) else Charging(op, None))
  }

  function BeginCredit(s: State, t: Tid, credit: nat): State {
    if credit == 0 then Finish(s, t) else To(s, t, Crediting(credit, None, s.lock == Some(t)))
  }

  function FailTracked(s: State, t: Tid, op: Op): State {
    if op.Blocks? && op.arena.Some? then To(s, t, Untracking(op)) else Finish(s, t)
  }

  /** The value do_release swaps in: clamped at zero. */
  function Lowered(cur: nat, bytes: nat): nat { if cur >= bytes then cur - bytes else 0 }

  predicate Enabled(limit: nat, s: State, t: Tid, a: Action) {
    t in s.pcs &&
    var pc := s.pcs[t];
    match a
    case StartReserve(_) => pc.Idle?
    case StartRaw(b) => pc.Idle? && 0 < b
    case StartBlocks(b, under) =>
      pc.Idle? && s.lock.None? && 0 < b && (under.Some? && under.value in s.res ==> b < TWO_62)
    case StartDealloc(_) => pc.Idle? && s.lock.None?
    case StartRawDealloc(id) => pc.Idle? && id in s.raw
    case StartRelease(_) => pc.Idle? && s.lock.None?
    case LoadCounter =>
      || (pc.Charging? && pc.seen.None? && Amount(pc.op) <= limit)
      || (pc.Undoing? && pc.seen.None?)
      || (pc.Crediting? && pc.seen.None?)
    case GiveUp =>
      pc.Charging? && (Amount(pc.op) > limit || (pc.seen.Some? && pc.seen.value > limit - Amount(pc.op)))
    case SwapCounter(_) =>
      || (pc.Charging? && Amount(pc.op) <= limit && pc.seen.Some? && pc.seen.value <= limit - Amount(pc.op))
      || (pc.Undoing? && pc.seen.Some?)
      || (pc.Crediting? && pc.seen.Some?)
    case LoadNow => pc.Peaking? && pc.now.None?
    case LoadPeak => pc.Peaking? && pc.now.Some? && pc.top.None?
    case SwapPeak(_) => pc.Peaking? && pc.now.Some? && pc.top.Some? && pc.now.value > pc.top.value
    case PeakDone => pc.Peaking? && pc.now.Some? && pc.top.Some? && pc.now.value <= pc.top.value
    case Register(arena) => pc.Charged? && pc.op.Reserve? && s.lock.None? && arena !in s.issued
    case MallocDone(id) => pc.Charged? && !pc.op.Reserve? && id !in s.live && id !in s.raw
    case MallocFailed => pc.Charged? && !pc.op.Reserve?
    case RollBackTracker => pc.Untracking? && pc.op.Blocks? && pc.op.arena.Some? && pc.op.arena.value in s.res
    case FreePinned => pc.Freeing?
  }

  function Apply(limit: nat, s: State, t: Tid, a: Action): State
    requires Enabled(limit, s, t, a)
  {
    var pc := s.pcs[t];
    match a
    case StartReserve(b) => if b > limit then s else BeginCharge(s, t, Reserve(b))
    case StartRaw(b) => BeginCharge(s, t, Raw(b))
    case StartBlocks(b, arena) =>
      if arena.None? then BeginCharge(s.(lock := Some(t)), t, Blocks(b, None, b))
      else if arena.value !in s.res then s
      else
        var tr := s.res[arena.value];
        var owed := OverflowCharge(tr.size, tr.used, b);
        BeginCharge(s.(lock := Some(t), res := s.res[arena.value := tr.(used := tr.used + b)]), t,
                    Blocks(b, arena, if owed < 0 then 0 else owed))
    case StartDealloc(id) =>
      if id !in s.live then s
      else
        var x := s.live[id];
        var s1 := s.(live := s.live - {id});
        if Orphaned(x, s.res.Keys) then To(s1, t, Freeing(x.bytes, x.bytes))
        else
          var tr := s.res[x.arena.value];
          var credit := OverflowCredit(tr.size, tr.used, x.bytes);
          To(s1.(res := s.res[x.arena.value := tr.(used := tr.used - x.bytes)]), t,
             Freeing(x.bytes, if credit < 0 then 0 else credit))
    case StartRawDealloc(id) =>
      To(s.(raw := s.raw - {id}), t, Freeing(Max(0, s.raw[id]), Max(0, s.raw[id])))
    case StartRelease(arena) =>
      if arena !in s.res then s
      else
        var tr := s.res[arena];
        BeginCredit(s.(lock := Some(t), res := s.res - {arena}), t, Unconsumed(tr.size, tr.used))
    case LoadCounter =>
      To(s, t, pc.(seen := Some(s.total)))
    case GiveUp => FailTracked(s, t, pc.op)
    case SwapCounter(spurious) =>
      if spurious || pc.seen.value != s.total then To(s, t, pc.(seen := Some(s.total)))
      else if pc.Charging? then To(s.(total := s.total + Amount(pc.op)), t, Peaking(pc.op, None, None))
      else if pc.Undoing? then FailTracked(s.(total := Lowered(s.total, Amount(pc.op))), t, pc.op)
      else Finish(s.(total := Lowered(s.total, pc.credit)), t)
    case LoadNow => To(s, t, pc.(now := Some(s.total)))
    case LoadPeak => To(s, t, pc.(top := Some(s.peak)))
    case SwapPeak(spurious) =>
      if spurious || pc.top.value != s.peak then To(s, t, pc.(top := Some(s.peak)))
      else To(s.(peak := pc.now.value), t, Charged(pc.op))
    case PeakDone => To(s, t, Charged(pc.op))
    case Register(arena) =>
      Finish(s.(res := s.res[arena := Tracker(pc.op.bytes, 0)], issued := s.issued + {arena}), t)
    case MallocDone(id) =>
      if pc.op.Raw? then Finish(s.(raw := s.raw[id := pc.op.bytes]), t)
      else Finish(s.(live := s.live[id := Alloc(pc.op.bytes, pc.op.arena)]), t)
    case MallocFailed =>
      if Amount(pc.op) == 0 then FailTracked(s, t, pc.op) else To(s, t, Undoing(pc.op, None))
    case RollBackTracker =>
      var tr := s.res[pc.op.arena.value];
      Finish(s.(res := s.res[pc.op.arena.value := tr.(used := tr.used - pc.op.bytes)]), t)
    case FreePinned => BeginCredit(s, t, pc.credit)
  }

  // ---- the invariant ----

  /** Bytes the counter holds for a thread in flight and for nothing else. */
  function Credit(pc: PC): int {
    match pc
    case Peaking(op, _, _) => Unregistered(op)
    case Charged(op) => Unregistered(op)
    case Undoing(op, _) => Unregistered(op)
    case Freeing(_, credit) => credit
    case Crediting(credit, _, _) => credit
    case _ => 0
  }

  /** An operation on behalf of a reservation is already visible in its tracker. */
  function Unregistered(op: Op): int {
    match op
    case Reserve(b) => b
    case Raw(b) => b
    case Blocks(b, arena, _) => if arena.None? then b else 0
  }

  /** Bytes a tracker already shows that the counter does not hold yet, or no longer holds. */
  function Debit(pc: PC): int {
    if pc.Charging? && pc.op.Blocks? && pc.op.arena.Some? then pc.op.owed
    else if pc.Untracking? && pc.op.Blocks? && pc.op.arena.Some? then pc.op.owed
    else 0
  }

  function CreditMap(pcs: map<Tid, PC>): map<Tid, int> { map t | t in pcs :: Credit(pcs[t]) }

  function DebitMap(pcs: map<Tid, PC>): map<Tid, int> { map t | t in pcs :: Debit(pcs[t]) }

  /** The operation a thread is working for, if any. */
  function OpOf(pc: PC): Option<Op> {
    match pc
    case Charging(op, _) => Some(op)
    case Peaking(op, _, _) => Some(op)
    case Charged(op) => Some(op)
    case Undoing(op, _) => Some(op)
    case Untracking(op) => Some(op)
    case _ => None
  }

  /** Bytes a thread has put on the tracker of `a` without owning a live allocation for them. */
  function Tracked(pc: PC, a: Arena): nat {
    match OpOf(pc)
    case Some(Blocks(b, arena, _)) => if arena == Some(a) then b else 0
    case _ => 0
  }

  function Held(s: State, a: Arena): nat {
    if s.lock.Some? && s.lock.value in s.pcs then Tracked(s.pcs[s.lock.value], a) else 0
  }

  ghost predicate LockInv(s: State) {
    && (forall t :: t in s.pcs ==> (HoldsLock(s.pcs[t]) <==> s.lock == Some(t)))
    && (s.lock.Some? ==> s.lock.value in s.pcs)
  }

  /** Each tracker shows exactly the live bytes under its arena plus what the mutex holder added. */
  ghost predicate TrackerInv(s: State) {
    && (forall a :: a in s.res ==> s.res[a].used == Under(s.live, a) + Held(s, a))
    && (forall a :: a in s.res ==> a in s.issued)
    && (forall i :: i in s.live && s.live[i].arena.Some? ==> s.live[i].arena.value in s.issued)
    && (forall i :: i in s.raw ==> 0 <= s.raw[i])
  }

  /** What a thread remembers about its own operation is still true of the shared state. */
  ghost predicate OpInv(limit: nat, s: State, pc: PC) {
    && (OpOf(pc).Some? ==>
        var op := OpOf(pc).value;
        op.Blocks? ==>
          && 0 < op.bytes
          && (op.arena.None? ==> op.owed == op.bytes)
          && (op.arena.Some? ==>
              && op.arena.value in s.res
              && op.bytes <= s.res[op.arena.value].used
              && op.owed == Max(s.res[op.arena.value].size, s.res[op.arena.value].used)
                          - Max(s.res[op.arena.value].size, s.res[op.arena.value].used - op.bytes)))
    && (pc.Untracking? ==> pc.op.Blocks? && pc.op.arena.Some?)
    && (pc.Peaking? && pc.now.Some? ==> pc.now.value <= limit)
    && (pc.Peaking? && pc.top.Some? ==> pc.top.value <= s.peak)
    && ((pc.Charging? || pc.Peaking? || pc.Undoing?) ==> Amount(pc.op) > 0)
  }

  ghost predicate OpsInv(limit: nat, s: State) {
    forall t :: t in s.pcs ==> OpInv(limit, s, s.pcs[t])
  }

  /** This thread will raise the peak to at least `total`. */
  predicate Raises(pc: PC, total: nat) {
    pc.Peaking? && (pc.now.None? || pc.now.value >= total)
  }

  ghost predicate PeakInv(limit: nat, s: State) {
    && s.total <= limit
    && s.peak <= limit
    && (s.peak >= s.total || exists t :: t in s.pcs && Raises(s.pcs[t], s.total))
  }

  /** The accounting equation, at every step. */
  ghost predicate Balanced(s: State) {
    s.total + Sum(DebitMap(s.pcs)) == Potential(s.res, s.live, s.raw) + Sum(CreditMap(s.pcs))
  }

  ghost predicate Inv(limit: nat, s: State) {
    && LockInv(s) && TrackerInv(s) && OpsInv(limit, s) && PeakInv(limit, s) && Balanced(s)
  }

  function Init(threads: set<Tid>): State {
    State(0, 0, None, map[], {}, map[], map[], map t | t in threads :: Idle)
  }

  // ---- lemmas about sums over threads ----

  lemma SumsMove(pcs: map<Tid, PC>, t: Tid, pc: PC)
    requires t in pcs
    ensures Sum(CreditMap(pcs[t := pc])) == Sum(CreditMap(pcs)) - Credit(pcs[t]) + Credit(pc)
    ensures Sum(DebitMap(pcs[t := pc])) == Sum(DebitMap(pcs)) - Debit(pcs[t]) + Debit(pc)
  {
    assert CreditMap(pcs[t := pc]) == CreditMap(pcs)[t := Credit(pc)];
    assert DebitMap(pcs[t := pc]) == DebitMap(pcs)[t := Debit(pc)];
    SumSet(CreditMap(pcs), t, Credit(pc));
    SumSet(DebitMap(pcs), t, Debit(pc));
  }

  /** Only the mutex holder can owe the counter anything. */
  lemma DebitOfHolder(s: State)
    requires LockInv(s)
    ensures Sum(DebitMap(s.pcs)) == if s.lock.Some? then Debit(s.pcs[s.lock.value]) else 0
  {
    if s.lock.Some? {
      SumSingle(DebitMap(s.pcs), s.lock.value);
    } else {
      SumZero(DebitMap(s.pcs));
    }
  }

  /** Whatever the mutex holder owes is covered by the reservation it allocates under. */
  lemma DebtIsCovered(limit: nat, s: State)
    requires Inv(limit, s)
    ensures Sum(DebitMap(s.pcs)) + ReservedBytes(s.res) <= Potential(s.res, s.live, s.raw)
    ensures s.total >= Sum(CreditMap(s.pcs)) + ReservedBytes(s.res)
    ensures 0 <= ReservedBytes(s.res)
  {
    DebitOfHolder(s);
    SumBounds(SizeMap(s.res), 0);
    var a := if s.lock.Some? && Debit(s.pcs[s.lock.value]) > 0 then s.pcs[s.lock.value].op.arena.value else 0;
    ReservedWithinPotential(s.res, s.live, s.raw, a);
  }

  /** The clamp of do_release never fires: what a thread is about to credit is in the counter. */
  lemma CounterCovers(limit: nat, s: State, t: Tid)
    requires Inv(limit, s) && t in s.pcs
    ensures Credit(s.pcs[t]) <= s.total
    ensures s.pcs[t].Undoing? ==> Amount(s.pcs[t].op) <= s.total
    ensures s.pcs[t].Crediting? ==> s.pcs[t].credit <= s.total
  {
    CreditCovered(limit, s, t);
    if s.pcs[t].Undoing? && s.pcs[t].op.Blocks? && s.pcs[t].op.arena.Some? {
      UndoCovered(limit, s, t);
    }
  }

  lemma CreditIsNotNegative(pc: PC)
    ensures 0 <= Credit(pc)
  {}

  lemma CreditCovered(limit: nat, s: State, t: Tid)
    requires Inv(limit, s) && t in s.pcs
    ensures Credit(s.pcs[t]) <= Sum(CreditMap(s.pcs)) <= s.total
  {
    DebtIsCovered(limit, s);
    forall j | j in s.pcs ensures 0 <= CreditMap(s.pcs)[j] { CreditIsNotNegative(s.pcs[j]); }
    SumBounds(CreditMap(s.pcs), t);
  }

  /** An allocation that has to be undone is visible in its tracker, and the mutex holder owes nothing. */
  lemma UndoCovered(limit: nat, s: State, t: Tid)
    requires Inv(limit, s) && t in s.pcs && s.pcs[t].Undoing? && s.pcs[t].op.Blocks? && s.pcs[t].op.arena.Some?
    ensures Amount(s.pcs[t].op) <= s.total
  {
    assert OpInv(limit, s, s.pcs[t]);
    DebitOfHolder(s);
    CreditCovered(limit, s, t);
    PotentialBounds(s.res, s.live, s.raw, s.pcs[t].op.arena.value, 0);
  }

  /** With the mutex free, every size and every tracker is small enough for the int64 casts. */
  lemma FreeLockRange(limit: nat, s: State, a: Arena)
    requires limit < TWO_62 && Inv(limit, s) && s.lock.None? && a in s.res
    ensures s.res[a].size <= limit && 0 <= s.res[a].used <= limit
  {
    DebitOfHolder(s);
    SumBoundsNone(s);
    UnderBounds(s.live, 0, a);
  }

  lemma SumBoundsNone(s: State)
    requires TrackerInv(s) && LockInv(s) && s.lock.None? && Balanced(s)
    ensures Potential(s.res, s.live, s.raw) <= s.total
    ensures forall a :: a in s.res ==> s.res[a].size <= s.total && s.res[a].used <= s.total
  {
    DebitOfHolder(s);
    SumBounds(CreditMap(s.pcs), 0);
    forall a | a in s.res ensures s.res[a].size <= s.total && s.res[a].used <= s.total {
      PotentialBounds(s.res, s.live, s.raw, a, 0);
    }
  }

  // ---- every step keeps the invariant ----

  lemma InitInv(limit: nat, threads: set<Tid>)
    ensures Inv(limit, Init(threads))
  {
    var s := Init(threads);
    SumZero(DebitMap(s.pcs));
    SumZero(CreditMap(s.pcs));
    assert CommittedMap(s.res) == map[] && OrphanMap(s.live, s.res.Keys) == map[];
  }

  /** A step moves one thread, which may take a free mutex or drop its own; the lock-protected maps
      stay as they are while another thread holds the mutex. */
  ghost predicate Moves(s: State, s': State, t: Tid) {
    && t in s.pcs && t in s'.pcs
    && s'.pcs == s.pcs[t := s'.pcs[t]]
    && (HoldsLock(s'.pcs[t]) <==> s'.lock == Some(t))
    && (s'.lock == s.lock || (s.lock.None? && s'.lock == Some(t)) || (s.lock == Some(t) && s'.lock.None?))
    && (s.lock.Some? && s.lock != Some(t) ==> s'.res == s.res)
  }

  lemma MoveKeepsThreads(limit: nat, s: State, s': State, t: Tid)
    requires LockInv(s) && OpsInv(limit, s) && Moves(s, s', t) && OpInv(limit, s', s'.pcs[t])
    requires s.peak <= s'.peak
    ensures LockInv(s') && OpsInv(limit, s')
  {
    forall j | j in s'.pcs ensures OpInv(limit, s', s'.pcs[j]) {
      if j != t { assert OpInv(limit, s, s.pcs[j]); }
    }
  }

  lemma MoveKeepsBalance(s: State, s': State, t: Tid)
    requires Balanced(s) && Moves(s, s', t)
    requires s'.total - s.total == Potential(s'.res, s'.live, s'.raw) - Potential(s.res, s.live, s.raw)
                                 + Credit(s'.pcs[t]) - Credit(s.pcs[t]) - Debit(s'.pcs[t]) + Debit(s.pcs[t])
    ensures Balanced(s')
  {
    SumsMove(s.pcs, t, s'.pcs[t]);
  }

  lemma MoveKeepsPeak(limit: nat, s: State, s': State, t: Tid)
    requires PeakInv(limit, s) && Moves(s, s', t)
    requires s'.total <= limit && s.peak <= s'.peak <= limit
    requires Raises(s'.pcs[t], s'.total) ||
             (s'.total <= s.total && (Raises(s.pcs[t], s.total) ==> s'.peak >= s'.total))
    ensures PeakInv(limit, s')
  {
    if Raises(s'.pcs[t], s'.total) {
    } else if s.peak < s.total {
      var r :| r in s.pcs && Raises(s.pcs[r], s.total);
      if r != t { assert Raises(s'.pcs[r], s'.total); }
    }
  }

  /** A step that leaves the lock-protected maps and the raw allocations alone. */
  ghost predicate Quiet(s: State, s': State, t: Tid) {
    && Moves(s, s', t)
    && s'.res == s.res && s'.live == s.live && s'.raw == s.raw && s'.issued == s.issued
    && (forall a :: Tracked(s'.pcs[t], a) == Tracked(s.pcs[t], a))
  }

  /** What thread `t` may use about the state when it takes a step. */
  ghost predicate Local(limit: nat, s: State, t: Tid) {
    && t in s.pcs
    && OpInv(limit, s, s.pcs[t])
    && (HoldsLock(s.pcs[t]) <==> s.lock == Some(t))
    && s.total <= limit && s.peak <= limit
    && Credit(s.pcs[t]) <= s.total
    && (s.pcs[t].Undoing? ==> Amount(s.pcs[t].op) <= s.total)
  }

  lemma InvIsLocal(limit: nat, s: State, t: Tid)
    requires Inv(limit, s) && t in s.pcs
    ensures Local(limit, s, t)
  {
    CounterCovers(limit, s, t);
  }

  /** The step pays for what it claims: counter, credits and debits move together. */
  ghost predicate Pays(limit: nat, s: State, s': State, t: Tid, potential: int)
    requires t in s.pcs && t in s'.pcs
  {
    && s'.total - s.total == potential + Credit(s'.pcs[t]) - Credit(s.pcs[t]) - Debit(s'.pcs[t]) + Debit(s.pcs[t])
    && s'.total <= limit && s.peak <= s'.peak <= limit
    && (Raises(s'.pcs[t], s'.total) ||
        (s'.total <= s.total && (Raises(s.pcs[t], s.total) ==> s'.peak >= s'.total)))
  }

  ghost predicate QuietStep(limit: nat, s: State, s': State, t: Tid) {
    Quiet(s, s', t) && OpInv(limit, s', s'.pcs[t]) && Pays(limit, s, s', t, 0)
  }

  lemma QuietKeepsInv(limit: nat, s: State, s': State, t: Tid)
    requires Inv(limit, s) && QuietStep(limit, s, s', t)
    ensures Inv(limit, s')
  {
    MoveKeepsThreads(limit, s, s', t);
    MoveKeepsBalance(s, s', t);
    MoveKeepsPeak(limit, s, s', t);
    forall a ensures Held(s', a) == Held(s, a) {
      TrackedNeedsLock(s.pcs[t], a);
      TrackedNeedsLock(s'.pcs[t], a);
    }
  }

  lemma TrackedNeedsLock(pc: PC, a: Arena)
    ensures Tracked(pc, a) > 0 ==> HoldsLock(pc)
  {}

  lemma PeakLoadIsQuiet(limit: nat, s: State, t: Tid, a: Action)
    requires Local(limit, s, t) && Enabled(limit, s, t, a) && (a.LoadNow? || a.LoadPeak?)
    ensures QuietStep(limit, s, Apply(limit, s, t, a), t)
  {}

  lemma PeakSwapIsQuiet(limit: nat, s: State, t: Tid, a: Action)
    requires Local(limit, s, t) && Enabled(limit, s, t, a) && a.SwapPeak?
    ensures QuietStep(limit, s, Apply(limit, s, t, a), t)
  {}

  lemma PeakDoneIsQuiet(limit: nat, s: State, t: Tid, a: Action)
    requires Local(limit, s, t) && Enabled(limit, s, t, a) && a.PeakDone?
    ensures QuietStep(limit, s, Apply(limit, s, t, a), t)
  {}

  predicate IsQuietStart(a: Action) {
    a.StartReserve? || a.StartRaw? || (a.StartBlocks? && a.under.None?)
  }

  lemma StartIsQuiet(limit: nat, s: State, t: Tid, a: Action)
    requires Local(limit, s, t) && Enabled(limit, s, t, a) && IsQuietStart(a)
    ensures QuietStep(limit, s, Apply(limit, s, t, a), t)
  {
    if a.StartReserve? && a.bytes > limit { assert s.pcs == s.pcs[t := s.pcs[t]]; }
  }

  lemma LoadIsQuiet(limit: nat, s: State, t: Tid, a: Action)
    requires Local(limit, s, t) && Enabled(limit, s, t, a) && a.LoadCounter?
    ensures QuietStep(limit, s, Apply(limit, s, t, a), t)
  {}

  lemma FailureIsQuiet(limit: nat, s: State, t: Tid, a: Action)
    requires Local(limit, s, t) && Enabled(limit, s, t, a)
    requires a.GiveUp? || (a.MallocFailed? && Amount(s.pcs[t].op) == 0)
    ensures QuietStep(limit, s, Apply(limit, s, t, a), t)
  {}

  lemma DriverIsQuiet(limit: nat, s: State, t: Tid, a: Action)
    requires Local(limit, s, t) && Enabled(limit, s, t, a)
    requires a.FreePinned? || (a.MallocFailed? && Amount(s.pcs[t].op) != 0)
    ensures QuietStep(limit, s, Apply(limit, s, t, a), t)
  {}

  /** The compare-and-swap failed: the thread only learns the current value. */
  lemma SwapLostIsQuiet(limit: nat, s: State, t: Tid, a: Action)
    requires Local(limit, s, t) && Enabled(limit, s, t, a) && a.SwapCounter?
    requires a.spurious || s.pcs[t].seen.value != s.total
    ensures QuietStep(limit, s, Apply(limit, s, t, a), t)
  {}

  lemma ChargeIsQuiet(limit: nat, s: State, t: Tid, a: Action)
    requires Local(limit, s, t) && Enabled(limit, s, t, a) && a.SwapCounter? && s.pcs[t].Charging?
    requires !a.spurious && s.pcs[t].seen.value == s.total
    ensures QuietStep(limit, s, Apply(limit, s, t, a), t)
  {}

  lemma UndoIsQuiet(limit: nat, s: State, t: Tid, a: Action)
    requires Local(limit, s, t) && Enabled(limit, s, t, a) && a.SwapCounter? && s.pcs[t].Undoing?
    requires !a.spurious && s.pcs[t].seen.value == s.total
    ensures QuietStep(limit, s, Apply(limit, s, t, a), t)
  {}

  lemma CreditIsQuiet(limit: nat, s: State, t: Tid, a: Action)
    requires Local(limit, s, t) && Enabled(limit, s, t, a) && a.SwapCounter? && s.pcs[t].Crediting?
    requires !a.spurious && s.pcs[t].seen.value == s.total
    ensures QuietStep(limit, s, Apply(limit, s, t, a), t)
  {}

  /** A step that changes the lock-protected maps: the potential moves with it. */
  lemma MapStepKeepsInv(limit: nat, s: State, s': State, t: Tid)
    requires Inv(limit, s) && Moves(s, s', t) && OpInv(limit, s', s'.pcs[t]) && TrackerInv(s')
    requires Pays(limit, s, s', t, Potential(s'.res, s'.live, s'.raw) - Potential(s.res, s.live, s.raw))
    ensures Inv(limit, s')
  {
    MoveKeepsThreads(limit, s, s', t);
    MoveKeepsBalance(s, s', t);
    MoveKeepsPeak(limit, s, s', t);
  }

  lemma StartUnderPays(limit: nat, s: State, t: Tid, b: nat, arena: Arena)
    requires limit < TWO_62 && Local(limit, s, t) && Enabled(limit, s, t, StartBlocks(b, Some(arena)))
    requires arena in s.res && s.res[arena].size <= limit && 0 <= s.res[arena].used <= limit
    ensures
      var s' := Apply(limit, s, t, StartBlocks(b, Some(arena)));
      var tr' := s.res[arena].(used := s.res[arena].used + b);
      Moves(s, s', t) && OpInv(limit, s', s'.pcs[t]) && s'.res == s.res[arena := tr'] &&
      Pays(limit, s, s', t, Committed(tr') - Committed(s.res[arena]))
  {
    OverflowChargeIsGrowth(s.res[arena].size, s.res[arena].used, b);
  }

  lemma StartUnderKeepsTrackers(limit: nat, s: State, t: Tid, b: nat, arena: Arena)
    requires TrackerInv(s) && Enabled(limit, s, t, StartBlocks(b, Some(arena))) && arena in s.res
    ensures TrackerInv(Apply(limit, s, t, StartBlocks(b, Some(arena))))
  {}

  lemma StartUnderPotential(limit: nat, s: State, t: Tid, b: nat, arena: Arena)
    requires Enabled(limit, s, t, StartBlocks(b, Some(arena))) && arena in s.res
    ensures
      var s' := Apply(limit, s, t, StartBlocks(b, Some(arena)));
      var tr' := s.res[arena].(used := s.res[arena].used + b);
      Potential(s'.res, s'.live, s'.raw) - Potential(s.res, s.live, s.raw) == Committed(tr') - Committed(s.res[arena])
  {
    PotentialTracker(s.res, s.live, s.raw, arena, s.res[arena].(used := s.res[arena].used + b));
  }

  lemma StartUnderKeepsInv(limit: nat, s: State, t: Tid, b: nat, arena: Arena)
    requires limit < TWO_62 && Inv(limit, s) && Enabled(limit, s, t, StartBlocks(b, Some(arena))) && arena in s.res
    ensures Inv(limit, Apply(limit, s, t, StartBlocks(b, Some(arena))))
    ensures Moves(s, Apply(limit, s, t, StartBlocks(b, Some(arena))), t)
  {
    FreeLockRange(limit, s, arena);
    InvIsLocal(limit, s, t);
    StartUnderPays(limit, s, t, b, arena);
    StartUnderKeepsTrackers(limit, s, t, b, arena);
    StartUnderPotential(limit, s, t, b, arena);
    MapStepKeepsInv(limit, s, Apply(limit, s, t, StartBlocks(b, Some(arena))), t);
  }

  lemma RollBackPays(limit: nat, s: State, t: Tid)
    requires Local(limit, s, t) && Enabled(limit, s, t, RollBackTracker)
    ensures
      var s' := Apply(limit, s, t, RollBackTracker);
      var a := s.pcs[t].op.arena.value;
      var tr' := s.res[a].(used := s.res[a].used - s.pcs[t].op.bytes);
      Moves(s, s', t) && OpInv(limit, s', s'.pcs[t]) && s'.res == s.res[a := tr'] &&
      Pays(limit, s, s', t, Committed(tr') - Committed(s.res[a]))
  {}

  lemma RollBackKeepsTrackers(limit: nat, s: State, t: Tid)
    requires TrackerInv(s) && Local(limit, s, t) && Enabled(limit, s, t, RollBackTracker)
    ensures TrackerInv(Apply(limit, s, t, RollBackTracker))
  {}

  lemma RollBackPotential(limit: nat, s: State, t: Tid)
    requires Enabled(limit, s, t, RollBackTracker)
    ensures
      var s' := Apply(limit, s, t, RollBackTracker);
      var a := s.pcs[t].op.arena.value;
      var tr' := s.res[a].(used := s.res[a].used - s.pcs[t].op.bytes);
      Potential(s'.res, s'.live, s'.raw) - Potential(s.res, s.live, s.raw) == Committed(tr') - Committed(s.res[a])
  {
    var a := s.pcs[t].op.arena.value;
    PotentialTracker(s.res, s.live, s.raw, a, s.res[a].(used := s.res[a].used - s.pcs[t].op.bytes));
  }

  lemma RollBackKeepsInv(limit: nat, s: State, t: Tid)
    requires Inv(limit, s) && Enabled(limit, s, t, RollBackTracker)
    ensures Inv(limit, Apply(limit, s, t, RollBackTracker))
    ensures Moves(s, Apply(limit, s, t, RollBackTracker), t)
  {
    InvIsLocal(limit, s, t);
    RollBackPays(limit, s, t);
    RollBackKeepsTrackers(limit, s, t);
    RollBackPotential(limit, s, t);
    MapStepKeepsInv(limit, s, Apply(limit, s, t, RollBackTracker), t);
  }

  lemma RegisterPays(limit: nat, s: State, t: Tid, arena: Arena)
    requires Local(limit, s, t) && Enabled(limit, s, t, Register(arena)) && arena !in s.res
    ensures
      var s' := Apply(limit, s, t, Register(arena));
      Moves(s, s', t) && OpInv(limit, s', s'.pcs[t]) && s'.res == s.res[arena := Tracker(s.pcs[t].op.bytes, 0)] &&
      Pays(limit, s, s', t, Committed(Tracker(s.pcs[t].op.bytes, 0)))
  {}

  lemma RegisterKeepsTrackers(limit: nat, s: State, t: Tid, arena: Arena)
    requires TrackerInv(s) && Enabled(limit, s, t, Register(arena))
    ensures TrackerInv(Apply(limit, s, t, Register(arena)))
  {
    SumZero(UnderMap(s.live, arena));
  }

  lemma RegisterKeepsInv(limit: nat, s: State, t: Tid, arena: Arena)
    requires Inv(limit, s) && Enabled(limit, s, t, Register(arena))
    ensures Inv(limit, Apply(limit, s, t, Register(arena)))
    ensures Moves(s, Apply(limit, s, t, Register(arena)), t)
  {
    InvIsLocal(limit, s, t);
    RegisterPays(limit, s, t, arena);
    RegisterKeepsTrackers(limit, s, t, arena);
    PotentialRegister(s.res, s.live, s.raw, arena, Tracker(s.pcs[t].op.bytes, 0));
    MapStepKeepsInv(limit, s, Apply(limit, s, t, Register(arena)), t);
  }

  lemma ReleasePays(limit: nat, s: State, t: Tid, arena: Arena)
    requires limit < TWO_62 && Local(limit, s, t) && Enabled(limit, s, t, StartRelease(arena))
    requires arena in s.res && s.res[arena].size <= limit && 0 <= s.res[arena].used
    ensures
      var s' := Apply(limit, s, t, StartRelease(arena));
      && Moves(s, s', t) && OpInv(limit, s', s'.pcs[t])
      && s'.res == s.res - {arena} && s'.live == s.live && s'.raw == s.raw
      && Pays(limit, s, s', t, s.res[arena].used - Committed(s.res[arena]))
  {
    UnconsumedIsSlack(s.res[arena].size, s.res[arena].used);
  }

  lemma ReleaseKeepsTrackers(limit: nat, s: State, t: Tid, arena: Arena)
    requires TrackerInv(s) && Enabled(limit, s, t, StartRelease(arena)) && arena in s.res
    ensures TrackerInv(Apply(limit, s, t, StartRelease(arena)))
  {}

  lemma ReleasePotential(limit: nat, s: State, arena: Arena)
    requires limit < TWO_62 && Inv(limit, s) && s.lock.None? && arena in s.res
    ensures Potential(s.res - {arena}, s.live, s.raw) - Potential(s.res, s.live, s.raw)
         == s.res[arena].used - Committed(s.res[arena])
    ensures s.res[arena].size <= limit && 0 <= s.res[arena].used
  {
    FreeLockRange(limit, s, arena);
    PotentialRelease(s.res, s.live, s.raw, arena);
  }

  lemma ReleaseKeepsInv(limit: nat, s: State, t: Tid, arena: Arena)
    requires limit < TWO_62 && Inv(limit, s) && Enabled(limit, s, t, StartRelease(arena)) && arena in s.res
    ensures Inv(limit, Apply(limit, s, t, StartRelease(arena)))
    ensures Moves(s, Apply(limit, s, t, StartRelease(arena)), t)
  {
    ReleasePotential(limit, s, arena);
    InvIsLocal(limit, s, t);
    ReleasePays(limit, s, t, arena);
    ReleaseKeepsTrackers(limit, s, t, arena);
    MapStepKeepsInv(limit, s, Apply(limit, s, t, StartRelease(arena)), t);
  }

  lemma DeallocKeepsTrackers(limit: nat, s: State, t: Tid, id: AllocId)
    requires TrackerInv(s) && Enabled(limit, s, t, StartDealloc(id)) && id in s.live
    ensures TrackerInv(Apply(limit, s, t, StartDealloc(id)))
  {
    var s' := Apply(limit, s, t, StartDealloc(id));
    forall a | a in s'.res ensures s'.res[a].used == Under(s'.live, a) + Held(s', a) {
      UnderOfRemoved(s.live, id, a);
    }
  }

  /** What a deallocation takes out of the potential. */
  function Withdrawn(s: State, id: AllocId): int
    requires id in s.live
  {
    var x := s.live[id];
    if Orphaned(x, s.res.Keys) then x.bytes
    else
      var tr := s.res[x.arena.value];
      Committed(tr) - Committed(tr.(used := tr.used - x.bytes))
  }

  lemma DeallocPays(limit: nat, s: State, t: Tid, id: AllocId)
    requires limit < TWO_62 && Local(limit, s, t) && Enabled(limit, s, t, StartDealloc(id)) && id in s.live
    requires !Orphaned(s.live[id], s.res.Keys) ==>
               var tr := s.res[s.live[id].arena.value];
               tr.size <= limit && s.live[id].bytes <= tr.used <= limit
    ensures
      var s' := Apply(limit, s, t, StartDealloc(id));
      Moves(s, s', t) && OpInv(limit, s', s'.pcs[t]) && Pays(limit, s, s', t, -Withdrawn(s, id))
  {
    if !Orphaned(s.live[id], s.res.Keys) {
      var tr := s.res[s.live[id].arena.value];
      OverflowCreditIsShrinkage(tr.size, tr.used, s.live[id].bytes);
    }
  }

  /** What a deallocation does to the lock-protected maps. */
  lemma DeallocMaps(limit: nat, s: State, t: Tid, id: AllocId)
    requires Enabled(limit, s, t, StartDealloc(id)) && id in s.live
    ensures
      var s', x := Apply(limit, s, t, StartDealloc(id)), s.live[id];
      && s'.live == s.live - {id} && s'.raw == s.raw
      && s'.res == if Orphaned(x, s.res.Keys) then s.res
                   else s.res[x.arena.value := s.res[x.arena.value].(used := s.res[x.arena.value].used - x.bytes)]
  {}

  lemma DeallocPotential(limit: nat, s: State, t: Tid, id: AllocId)
    requires Enabled(limit, s, t, StartDealloc(id)) && id in s.live
    ensures
      var s' := Apply(limit, s, t, StartDealloc(id));
      Potential(s'.res, s'.live, s'.raw) == Potential(s.res, s.live, s.raw) - Withdrawn(s, id)
  {
    DeallocMaps(limit, s, t, id);
    WithdrawnFromPotential(s, id);
  }

  lemma WithdrawnFromPotential(s: State, id: AllocId)
    requires id in s.live
    ensures
      var x := s.live[id];
      var res := if Orphaned(x, s.res.Keys) then s.res
                 else s.res[x.arena.value := s.res[x.arena.value].(used := s.res[x.arena.value].used - x.bytes)];
      Potential(res, s.live - {id}, s.raw) == Potential(s.res, s.live, s.raw) - Withdrawn(s, id)
  {
    var x := s.live[id];
    PotentialDealloc(s.res, s.live, s.raw, id);
    if !Orphaned(x, s.res.Keys) {
      var tr := s.res[x.arena.value];
      PotentialTracker(s.res, s.live - {id}, s.raw, x.arena.value, tr.(used := tr.used - x.bytes));
    }
  }

  lemma DeallocKeepsInv(limit: nat, s: State, t: Tid, id: AllocId)
    requires limit < TWO_62 && Inv(limit, s) && Enabled(limit, s, t, StartDealloc(id)) && id in s.live
    ensures Inv(limit, Apply(limit, s, t, StartDealloc(id)))
    ensures Moves(s, Apply(limit, s, t, StartDealloc(id)), t)
  {
    var x := s.live[id];
    if !Orphaned(x, s.res.Keys) {
      FreeLockRange(limit, s, x.arena.value);
      UnderBounds(s.live, id, x.arena.value);
    }
    InvIsLocal(limit, s, t);
    DeallocPays(limit, s, t, id);
    DeallocKeepsTrackers(limit, s, t, id);
    DeallocPotential(limit, s, t, id);
    MapStepKeepsInv(limit, s, Apply(limit, s, t, StartDealloc(id)), t);
  }

  lemma RawDeallocKeepsInv(limit: nat, s: State, t: Tid, id: AllocId)
    requires Inv(limit, s) && Enabled(limit, s, t, StartRawDealloc(id))
    ensures Inv(limit, Apply(limit, s, t, StartRawDealloc(id)))
    ensures Moves(s, Apply(limit, s, t, StartRawDealloc(id)), t)
  {
    PotentialRaw(s.res, s.live, s.raw, id, 0);
    MapStepKeepsInv(limit, s, Apply(limit, s, t, StartRawDealloc(id)), t);
  }

  lemma MallocKeepsTrackers(limit: nat, s: State, t: Tid, id: AllocId)
    requires TrackerInv(s) && LockInv(s) && OpsInv(limit, s) && Enabled(limit, s, t, MallocDone(id))
    requires s.pcs[t].op.Blocks?
    ensures TrackerInv(Apply(limit, s, t, MallocDone(id)))
  {
    var op := s.pcs[t].op;
    var s' := Apply(limit, s, t, MallocDone(id));
    assert s.lock == Some(t) && s'.lock.None?;
    forall a | a in s'.res ensures s'.res[a].used == Under(s'.live, a) + Held(s', a) {
      UnderOfAdded(s.live, id, Alloc(op.bytes, op.arena), a);
    }
  }

  lemma RawMallocKeepsInv(limit: nat, s: State, t: Tid, id: AllocId)
    requires Inv(limit, s) && Enabled(limit, s, t, MallocDone(id)) && s.pcs[t].op.Raw?
    ensures Inv(limit, Apply(limit, s, t, MallocDone(id)))
    ensures Moves(s, Apply(limit, s, t, MallocDone(id)), t)
  {
    InvIsLocal(limit, s, t);
    RawMallocPays(limit, s, t, id);
    PotentialRaw(s.res, s.live, s.raw, id, s.pcs[t].op.bytes);
    MapStepKeepsInv(limit, s, Apply(limit, s, t, MallocDone(id)), t);
  }

  lemma RawMallocPays(limit: nat, s: State, t: Tid, id: AllocId)
    requires Local(limit, s, t) && TrackerInv(s) && Enabled(limit, s, t, MallocDone(id)) && s.pcs[t].op.Raw?
    ensures
      var s' := Apply(limit, s, t, MallocDone(id));
      && s'.res == s.res && s'.live == s.live && s'.raw == s.raw[id := s.pcs[t].op.bytes]
      && Moves(s, s', t) && OpInv(limit, s', s'.pcs[t]) && TrackerInv(s') && Pays(limit, s, s', t, s.pcs[t].op.bytes)
  {}

  lemma BlockMallocKeepsInv(limit: nat, s: State, t: Tid, id: AllocId)
    requires Inv(limit, s) && Enabled(limit, s, t, MallocDone(id)) && !s.pcs[t].op.Raw?
    ensures Inv(limit, Apply(limit, s, t, MallocDone(id)))
    ensures Moves(s, Apply(limit, s, t, MallocDone(id)), t)
  {
    MallocKeepsTrackers(limit, s, t, id);
    PotentialAlloc(s.res, s.live, s.raw, id, Alloc(s.pcs[t].op.bytes, s.pcs[t].op.arena));
    MapStepKeepsInv(limit, s, Apply(limit, s, t, MallocDone(id)), t);
  }

  // ---- the main results ----

  /** Steps that move one thread and pay for what they move on the spot. */
  lemma PlainStepIsQuiet(limit: nat, s: State, t: Tid, a: Action)
    requires Local(limit, s, t) && Enabled(limit, s, t, a)
    requires a.LoadCounter? || a.GiveUp? || a.LoadNow? || a.LoadPeak? || a.SwapPeak? || a.PeakDone? ||
             a.MallocFailed? || a.FreePinned?
    ensures QuietStep(limit, s, Apply(limit, s, t, a), t)
  {
    match a
    case LoadCounter => LoadIsQuiet(limit, s, t, a);
    case GiveUp => FailureIsQuiet(limit, s, t, a);
    case MallocFailed =>
      if Amount(s.pcs[t].op) == 0 { FailureIsQuiet(limit, s, t, a); } else { DriverIsQuiet(limit, s, t, a); }
    case FreePinned => DriverIsQuiet(limit, s, t, a);
    case SwapPeak(_) => PeakSwapIsQuiet(limit, s, t, a);
    case PeakDone => PeakDoneIsQuiet(limit, s, t, a);
    case _ => PeakLoadIsQuiet(limit, s, t, a);
  }

  lemma SwapKeepsInv(limit: nat, s: State, t: Tid, a: Action)
    requires Inv(limit, s) && Enabled(limit, s, t, a) && a.SwapCounter?
    ensures Inv(limit, Apply(limit, s, t, a))
    ensures Moves(s, Apply(limit, s, t, a), t)
  {
    InvIsLocal(limit, s, t);
    if a.spurious || s.pcs[t].seen.value != s.total { SwapLostIsQuiet(limit, s, t, a); }
    else if s.pcs[t].Charging? { ChargeIsQuiet(limit, s, t, a); }
    else if s.pcs[t].Undoing? { UndoIsQuiet(limit, s, t, a); }
    else { CreditIsQuiet(limit, s, t, a); }
    QuietKeepsInv(limit, s, Apply(limit, s, t, a), t);
  }

  lemma StartKeepsInv(limit: nat, s: State, t: Tid, a: Action)
    requires limit < TWO_62 && Inv(limit, s) && Enabled(limit, s, t, a)
    requires a.StartReserve? || a.StartRaw? || a.StartBlocks?
    ensures Inv(limit, Apply(limit, s, t, a))
    ensures Moves(s, Apply(limit, s, t, a), t)
  {
    if IsQuietStart(a) {
      InvIsLocal(limit, s, t);
      StartIsQuiet(limit, s, t, a);
      QuietKeepsInv(limit, s, Apply(limit, s, t, a), t);
    } else if a.under.value in s.res {
      StartUnderKeepsInv(limit, s, t, a.bytes, a.under.value);
    }
  }

  /** Every step of every thread keeps the invariant; in particular the accounting equation. */
  lemma StepKeepsInv(limit: nat, s: State, t: Tid, a: Action)
    requires limit < TWO_62 && Inv(limit, s) && Enabled(limit, s, t, a)
    ensures Inv(limit, Apply(limit, s, t, a))
    ensures Moves(s, Apply(limit, s, t, a), t)
  {
    if a.StartReserve? || a.StartRaw? || a.StartBlocks? {
      StartKeepsInv(limit, s, t, a);
    } else if a.SwapCounter? {
      SwapKeepsInv(limit, s, t, a);
    } else if IsMapStep(a) {
      MapStepsKeepInv(limit, s, t, a);
    } else {
      InvIsLocal(limit, s, t);
      PlainStepIsQuiet(limit, s, t, a);
      QuietKeepsInv(limit, s, Apply(limit, s, t, a), t);
    }
  }

  predicate IsMapStep(a: Action) {
    a.StartDealloc? || a.StartRawDealloc? || a.StartRelease? || a.Register? || a.MallocDone? || a.RollBackTracker?
  }

  lemma MapStepsKeepInv(limit: nat, s: State, t: Tid, a: Action)
    requires limit < TWO_62 && Inv(limit, s) && Enabled(limit, s, t, a) && IsMapStep(a)
    ensures Inv(limit, Apply(limit, s, t, a))
    ensures Moves(s, Apply(limit, s, t, a), t)
  {
    match a
    case StartDealloc(id) => if id in s.live { DeallocKeepsInv(limit, s, t, id); }
    case StartRawDealloc(id) => RawDeallocKeepsInv(limit, s, t, id);
    case StartRelease(arena) => if arena in s.res { ReleaseKeepsInv(limit, s, t, arena); }
    case Register(arena) => RegisterKeepsInv(limit, s, t, arena);
    case MallocDone(id) =>
      if s.pcs[t].op.Raw? { RawMallocKeepsInv(limit, s, t, id); } else { BlockMallocKeepsInv(limit, s, t, id); }
    case RollBackTracker => RollBackKeepsInv(limit, s, t);
  }
}
