/** The adaptor under any number of threads: every locked span and every call into an allocator or a
    policy is a step of its own. */
module GpuAdaptorRace {
  import opened Sums
  import opened GpuBooks

  type Tid = nat

  /** A pointer in the hands of a caller: what it asked for and on which stream. */
  datatype Live = Live(bytes: nat, stream: StreamId)

  /** The limit, and whether callers free every pointer on the stream they allocated it on. */
  datatype Config = Config(limit: nat, ownStream: bool)

  datatype PC =
    | Idle
    | OverLimit(stream: StreamId, bytes: nat)               // about to ask the policy
    | Trying(tier: Origin, stream: StreamId, bytes: nat)    // past the limit check, about to ask a tier
    | LastResort(stream: StreamId, bytes: nat)              // every tier failed, about to ask the policy
    | Holding(ptr: Ptr, tier: Origin, stream: StreamId, bytes: nat, overridden: bool) // about to record and charge
    | Probing(ptr: Ptr, stream: StreamId, bytes: nat)       // about to look the pointer up
    | Freeing(ptr: Ptr, stream: StreamId, bytes: nat)       // not in the spill map, about to free upstream
    | Crediting(stream: StreamId, bytes: nat)               // freed, about to credit

  /** `heap` says what the allocators underneath have out, `live` what callers hold. */
  datatype State = State(books: Books, heap: map<Ptr, Origin>, live: map<Ptr, Live>, pcs: map<Tid, PC>)

  datatype Action =
    | Ask(stream: StreamId, bytes: nat)    // locked: read the stream's charge, check the limit
    | Answer(result: Option<Ptr>)          // a tier or the policy returns a pointer or fails
    | Commit                               // locked: record the tag, charge, hand the pointer out
    | GiveBack(ptr: Ptr, stream: StreamId) // a caller passes the pointer and its size
    | Probe                                // locked: a spilled pointer is freed, erased and credited here
    | Free
    | Credit                               // locked
    | ResetStream(stream: StreamId)        // locked
    | Attach(stream: StreamId, policy: bool)

  ghost predicate Enabled(c: Config, s: State, t: Tid, a: Action) {
    t in s.pcs &&
    var pc := s.pcs[t];
    match a
    case Ask(_, _) => pc.Idle?
    case Answer(r) =>
      && (pc.Trying? || pc.OverLimit? || pc.LastResort?)
      && (r.Some? ==> r.value !in s.heap && (pc.Trying? || TrackerOf(s.books, pc.stream).hasPolicy))
    case Commit => pc.Holding?
    case GiveBack(p, stream) => pc.Idle? && p in s.live && (c.ownStream ==> stream == s.live[p].stream)
    case Probe => pc.Probing?
    case Free => pc.Freeing?
    case Credit => pc.Crediting?
    case ResetStream(_) => pc.Idle?
    case Attach(_, _) => pc.Idle?
  }

  function To(s: State, t: Tid, pc: PC): State { s.(pcs := s.pcs[t := pc]) }

  /** Where a failed tier leads. */
  function NextTier(pc: PC): PC
    requires pc.Trying?
  {
    match pc.tier
    case Upstream => Trying(Managed, pc.stream, pc.bytes)
    case Managed => Trying(Pinned, pc.stream, pc.bytes)
    case Pinned => LastResort(pc.stream, pc.bytes)
  }

  ghost function Apply(c: Config, s: State, t: Tid, a: Action): State
    requires Enabled(c, s, t, a)
  {
    var pc := s.pcs[t];
    match a
    case Ask(stream, n) =>
      var over := Exceeds(c.limit, TrackerOf(s.books, stream).current, n);
      To(s.(books := Touched(s.books, stream)), t,
         if over then PC.OverLimit(stream, n) else Trying(Upstream, stream, n))
    case Answer(r) =>
      if r.Some? then
        var tier := if pc.Trying? then pc.tier else Upstream;
        To(s.(heap := s.heap[r.value := tier]), t, Holding(r.value, tier, pc.stream, pc.bytes, pc.OverLimit?))
      else To(s, t, if pc.Trying? then NextTier(pc) else Idle)
    case Commit =>
      To(s.(books := Charged(Recorded(s.books, pc.ptr, pc.bytes, pc.tier), pc.stream, pc.bytes),
            live := s.live[pc.ptr := Live(pc.bytes, pc.stream)]), t, Idle)
    case GiveBack(p, stream) => To(s.(live := s.live - {p}), t, Probing(p, stream, s.live[p].bytes))
    case Probe =>
      if pc.ptr in s.books.spilled then
        To(s.(books := Credited(s.books, pc.stream, pc.bytes).(spilled := s.books.spilled - {pc.ptr}),
              heap := s.heap - {pc.ptr}), t, Idle)
      else To(s, t, Freeing(pc.ptr, pc.stream, pc.bytes))
    case Free => To(s.(heap := s.heap - {pc.ptr}), t, Crediting(pc.stream, pc.bytes))
    case Credit => To(s.(books := Credited(s.books, pc.stream, pc.bytes)), t, Idle)
    case ResetStream(stream) => s.(books := Reset(s.books, stream))
    case Attach(stream, policy) => s.(books := Attached(s.books, stream, policy))
  }

  // ---- who holds a pointer ----

  predicate Grips(pc: PC, p: Ptr) {
    (pc.Holding? || pc.Probing? || pc.Freeing?) && pc.ptr == p
  }

  predicate Gripped(s: State, t: Tid, p: Ptr) { t in s.pcs && Grips(s.pcs[t], p) }

  /** Every pointer out of the allocators is with exactly one caller or one thread. */
  ghost predicate HeldOnce(s: State) {
    && (forall p :: p in s.live ==> p in s.heap && forall t :: !Gripped(s, t, p))
    && (forall p, t :: Gripped(s, t, p) ==> p in s.heap)
    && (forall p, t, u :: Gripped(s, t, p) && Gripped(s, u, p) ==> t == u)
    && (forall p :: p in s.heap ==> p in s.live || exists t :: Gripped(s, t, p))
  }

  /** A pointer's entry in the spill map, or the lack of one, says where it came from. */
  predicate Tagged(s: State, p: Ptr, n: nat) {
    && p in s.heap
    && (p in s.books.spilled <==> !s.heap[p].Upstream?)
    && (p in s.books.spilled ==> s.books.spilled[p] == Spill(n, s.heap[p].Managed?))
  }

  /** What a thread's own pointer looks like to it. */
  predicate ThreadTagged(s: State, pc: PC) {
    && (pc.Holding? ==> pc.ptr in s.heap && s.heap[pc.ptr] == pc.tier && pc.ptr !in s.books.spilled)
    && (pc.Probing? ==> Tagged(s, pc.ptr, pc.bytes))
    && (pc.Freeing? ==> pc.ptr in s.heap && s.heap[pc.ptr].Upstream? && pc.ptr !in s.books.spilled)
  }

  ghost predicate TagsMatch(s: State) {
    && (forall p :: p in s.live ==> Tagged(s, p, s.live[p].bytes))
    && (forall t :: t in s.pcs ==> ThreadTagged(s, s.pcs[t]))
    && s.books.spilled.Keys <= s.heap.Keys
  }

  lemma AnswerKeepsHeld(c: Config, s: State, t: Tid, a: Action)
    requires HeldOnce(s) && Enabled(c, s, t, a) && a.Answer?
    ensures HeldOnce(Apply(c, s, t, a))
  {
    var s' := Apply(c, s, t, a);
    forall u: Tid, p: Ptr ensures Gripped(s', u, p) <==> if u == t then a.result == Some(p) else Gripped(s, u, p) {}
    forall p | p in s'.heap ensures p in s'.live || exists u :: Gripped(s', u, p) {
      if a.result == Some(p) {
        assert Gripped(s', t, p);
      } else if p !in s.live {
        var u :| Gripped(s, u, p);
        assert Gripped(s', u, p);
      }
    }
  }

  /** A pointer that changes hands between a thread and the callers. */
  lemma HandoverKeepsHeld(c: Config, s: State, t: Tid, a: Action)
    requires HeldOnce(s) && Enabled(c, s, t, a) && (a.Commit? || a.GiveBack?)
    ensures HeldOnce(Apply(c, s, t, a))
  {
    var s' := Apply(c, s, t, a);
    var mine := if a.Commit? then s.pcs[t].ptr else a.ptr;
    assert a.Commit? ==> Gripped(s, t, mine);
    forall u: Tid, p: Ptr
      ensures Gripped(s', u, p) <==> if u == t then a.GiveBack? && p == mine else Gripped(s, u, p)
    {}
    forall p | p in s'.heap ensures p in s'.live || exists u :: Gripped(s', u, p) {
      if p == mine {
        assert a.GiveBack? ==> Gripped(s', t, p);
      } else if p !in s.live {
        var u :| Gripped(s, u, p);
        assert Gripped(s', u, p);
      }
    }
  }

  /** A pointer that is freed, or looked up and not found. */
  lemma FreeingKeepsHeld(c: Config, s: State, t: Tid, a: Action)
    requires HeldOnce(s) && Enabled(c, s, t, a) && (a.Probe? || a.Free?)
    ensures HeldOnce(Apply(c, s, t, a))
  {
    var s' := Apply(c, s, t, a);
    var mine := s.pcs[t].ptr;
    assert Gripped(s, t, mine);
    forall u: Tid, p: Ptr
      ensures Gripped(s', u, p) <==> if u == t then p == mine && mine in s'.heap else Gripped(s, u, p)
    {}
    forall p | p in s'.heap ensures p in s'.live || exists u :: Gripped(s', u, p) {
      if p == mine {
        assert Gripped(s', t, p);
      } else if p !in s.live {
        var u :| Gripped(s, u, p);
        assert Gripped(s', u, p);
      }
    }
  }

  lemma StepKeepsHeld(c: Config, s: State, t: Tid, a: Action)
    requires HeldOnce(s) && Enabled(c, s, t, a)
    ensures HeldOnce(Apply(c, s, t, a))
  {
    match a
    case Answer(_) => AnswerKeepsHeld(c, s, t, a);
    case Commit => HandoverKeepsHeld(c, s, t, a);
    case GiveBack(_, _) => HandoverKeepsHeld(c, s, t, a);
    case Probe => FreeingKeepsHeld(c, s, t, a);
    case Free => FreeingKeepsHeld(c, s, t, a);
    case _ =>
      var s' := Apply(c, s, t, a);
      assert forall u, p :: Gripped(s', u, p) <==> Gripped(s, u, p);
  }

  lemma CommitKeepsTags(c: Config, s: State, t: Tid, a: Action)
    requires HeldOnce(s) && TagsMatch(s) && Enabled(c, s, t, a) && a.Commit?
    ensures TagsMatch(Apply(c, s, t, a))
  {
    var s', mine := Apply(c, s, t, a), s.pcs[t].ptr;
    assert Gripped(s, t, mine) && ThreadTagged(s, s.pcs[t]);
    forall p | p in s'.live ensures Tagged(s', p, s'.live[p].bytes) {
      assert p != mine ==> Tagged(s, p, s.live[p].bytes);
    }
    forall u | u in s'.pcs ensures ThreadTagged(s', s'.pcs[u]) {
      assert ThreadTagged(s, s.pcs[u]);
      assert u != t ==> !Gripped(s, u, mine);
    }
  }

  lemma FreeingKeepsTags(c: Config, s: State, t: Tid, a: Action)
    requires HeldOnce(s) && TagsMatch(s) && Enabled(c, s, t, a) && (a.Probe? || a.Free?)
    ensures TagsMatch(Apply(c, s, t, a))
  {
    var s', mine := Apply(c, s, t, a), s.pcs[t].ptr;
    assert Gripped(s, t, mine) && ThreadTagged(s, s.pcs[t]);
    forall p | p in s'.live ensures Tagged(s', p, s'.live[p].bytes) {
      assert p != mine && Tagged(s, p, s.live[p].bytes);
    }
    forall u | u in s'.pcs ensures ThreadTagged(s', s'.pcs[u]) {
      assert ThreadTagged(s, s.pcs[u]);
      assert u != t ==> !Gripped(s, u, mine);
    }
  }

  lemma StepKeepsTags(c: Config, s: State, t: Tid, a: Action)
    requires HeldOnce(s) && TagsMatch(s) && Enabled(c, s, t, a)
    ensures TagsMatch(Apply(c, s, t, a))
  {
    match a
    case Commit => CommitKeepsTags(c, s, t, a);
    case Probe => FreeingKeepsTags(c, s, t, a);
    case Free => FreeingKeepsTags(c, s, t, a);
    case _ =>
      var s' := Apply(c, s, t, a);
      forall p | p in s'.live ensures Tagged(s', p, s'.live[p].bytes) {
        assert Tagged(s, p, s.live[p].bytes);
      }
      forall u | u in s'.pcs ensures ThreadTagged(s', s'.pcs[u]) {
        assert ThreadTagged(s, s.pcs[u]);
      }
  }

  // ---- bytes ----

  /** The bytes that count: all, or those of one stream. */
  function Part(sel: Option<StreamId>, stream: StreamId, n: nat): nat {
    if sel.None? || sel.value == stream then n else 0
  }

  /** What a thread still owes the books for a pointer it has taken back. */
  function Owed(sel: Option<StreamId>, pc: PC): nat {
    if pc.Probing? || pc.Freeing? || pc.Crediting? then Part(sel, pc.stream, pc.bytes) else 0
  }

  ghost function LiveMap(sel: Option<StreamId>, live: map<Ptr, Live>): map<Ptr, int> {
    map p | p in live :: Part(sel, live[p].stream, live[p].bytes)
  }

  ghost function OwedMap(sel: Option<StreamId>, pcs: map<Tid, PC>): map<Tid, int> {
    map t | t in pcs :: Owed(sel, pcs[t])
  }

  /** Live bytes plus what threads still owe. */
  ghost function Due(sel: Option<StreamId>, s: State): int {
    Sum(LiveMap(sel, s.live)) + Sum(OwedMap(sel, s.pcs))
  }

  lemma OwedMoves(sel: Option<StreamId>, pcs: map<Tid, PC>, t: Tid, pc: PC)
    requires t in pcs
    ensures Sum(OwedMap(sel, pcs[t := pc])) == Sum(OwedMap(sel, pcs)) - Owed(sel, pcs[t]) + Owed(sel, pc)
    ensures Owed(sel, pcs[t]) <= Sum(OwedMap(sel, pcs))
  {
    assert OwedMap(sel, pcs[t := pc]) == OwedMap(sel, pcs)[t := Owed(sel, pc)];
    SumSet(OwedMap(sel, pcs), t, Owed(sel, pc));
    SumBounds(OwedMap(sel, pcs), t);
  }

  lemma LiveMoves(sel: Option<StreamId>, live: map<Ptr, Live>, p: Ptr, x: Live)
    ensures p !in live ==> Sum(LiveMap(sel, live[p := x])) == Sum(LiveMap(sel, live)) + Part(sel, x.stream, x.bytes)
    ensures p in live ==>
              Sum(LiveMap(sel, live - {p})) == Sum(LiveMap(sel, live)) - Part(sel, live[p].stream, live[p].bytes)
    ensures 0 <= Sum(LiveMap(sel, live))
  {
    SumBounds(LiveMap(sel, live), p);
    if p in live {
      SumSplit(LiveMap(sel, live), p);
      assert LiveMap(sel, live - {p}) == LiveMap(sel, live) - {p};
    } else {
      assert LiveMap(sel, live[p := x]) == LiveMap(sel, live)[p := Part(sel, x.stream, x.bytes)];
      SumSet(LiveMap(sel, live), p, Part(sel, x.stream, x.bytes));
    }
  }

  predicate Settles(s: State, t: Tid, a: Action) {
    && t in s.pcs
    && ((a.Probe? && s.pcs[t].Probing? && s.pcs[t].ptr in s.books.spilled) || (a.Credit? && s.pcs[t].Crediting?))
  }

  /** A step moves the acting thread alone. */
  lemma OnlyOwnPc(c: Config, s: State, t: Tid, a: Action)
    requires Enabled(c, s, t, a)
    ensures t in Apply(c, s, t, a).pcs && Apply(c, s, t, a).pcs == s.pcs[t := Apply(c, s, t, a).pcs[t]]
  {}

  lemma LiveOfStep(c: Config, sel: Option<StreamId>, s: State, t: Tid, a: Action)
    requires HeldOnce(s) && Enabled(c, s, t, a)
    ensures Sum(LiveMap(sel, Apply(c, s, t, a).live)) == Sum(LiveMap(sel, s.live))
              + (if a.Commit? then Part(sel, s.pcs[t].stream, s.pcs[t].bytes) else 0)
              - (if a.GiveBack? then Part(sel, s.live[a.ptr].stream, s.live[a.ptr].bytes) else 0)
    ensures 0 <= Sum(LiveMap(sel, s.live))
  {
    if a.Commit? {
      assert Gripped(s, t, s.pcs[t].ptr);
      LiveMoves(sel, s.live, s.pcs[t].ptr, Live(s.pcs[t].bytes, s.pcs[t].stream));
    } else if a.GiveBack? {
      LiveMoves(sel, s.live, a.ptr, s.live[a.ptr]);
    } else {
      LiveMoves(sel, s.live, 0, Live(0, 0));
    }
  }

  /** The bytes due change when a pointer is handed out and when one is credited, and never otherwise. */
  lemma DueMoves(c: Config, sel: Option<StreamId>, s: State, t: Tid, a: Action)
    requires HeldOnce(s) && Enabled(c, s, t, a) && (sel.None? || c.ownStream)
    ensures var pc := s.pcs[t];
            Due(sel, Apply(c, s, t, a)) == Due(sel, s)
              + (if a.Commit? then Part(sel, pc.stream, pc.bytes) else 0)
              - (if Settles(s, t, a) then Part(sel, pc.stream, pc.bytes) else 0)
    ensures Owed(sel, s.pcs[t]) <= Due(sel, s)
  {
    OnlyOwnPc(c, s, t, a);
    OwedMoves(sel, s.pcs, t, Apply(c, s, t, a).pcs[t]);
    LiveOfStep(c, sel, s, t, a);
  }

  ghost predicate TotalIsDue(s: State) { s.books.total == Due(None, s) }

  lemma StepKeepsTotal(c: Config, s: State, t: Tid, a: Action)
    requires HeldOnce(s) && TotalIsDue(s) && Enabled(c, s, t, a)
    ensures TotalIsDue(Apply(c, s, t, a))
  {
    DueMoves(c, None, s, t, a);
  }

  function Current(s: State, st: StreamId): nat { TrackerOf(s.books, st).current }

  function Peak(s: State, st: StreamId): nat { TrackerOf(s.books, st).peak }

  /** Pointers freed on their own stream: the stream's charge stays within the bytes due on it, and
      equal to them as long as the stream is not reset. */
  lemma StepBoundsStream(c: Config, s: State, t: Tid, a: Action, st: StreamId)
    requires HeldOnce(s) && Enabled(c, s, t, a) && c.ownStream
    requires Current(s, st) <= Due(Some(st), s)
    ensures Current(Apply(c, s, t, a), st) <= Due(Some(st), Apply(c, s, t, a))
    ensures Current(s, st) == Due(Some(st), s) && a != ResetStream(st) ==>
              Current(Apply(c, s, t, a), st) == Due(Some(st), Apply(c, s, t, a))
  {
    DueMoves(c, Some(st), s, t, a);
  }

  lemma StepRaisesPeak(c: Config, s: State, t: Tid, a: Action, st: StreamId)
    requires Enabled(c, s, t, a) && Current(s, st) <= Peak(s, st)
    ensures var s' := Apply(c, s, t, a);
            Peak(s', st) == if a == ResetStream(st) then Current(s', st) else Max(Peak(s, st), Current(s', st))
  {}

  // ---- runs ----

  datatype Event = Event(thread: Tid, action: Action)

  function Init(threads: set<Tid>): State { State(Books(0, map[], map[]), map[], map[], map t | t in threads :: Idle) }

  ghost predicate StepAt(c: Config, run: seq<State>, events: seq<Event>, i: nat)
    requires i < |events| && |run| == |events| + 1
  {
    && Enabled(c, run[i], events[i].thread, events[i].action)
    && run[i + 1] == Apply(c, run[i], events[i].thread, events[i].action)
  }

  ghost predicate IsRun(c: Config, threads: set<Tid>, run: seq<State>, events: seq<Event>) {
    && |run| == |events| + 1
    && run[0] == Init(threads)
    && forall i :: 0 <= i < |events| ==> StepAt(c, run, events, i)
  }

  ghost predicate Inv(s: State) { HeldOnce(s) && TagsMatch(s) && TotalIsDue(s) }

  lemma {:induction false} RunKeepsInv(c: Config, threads: set<Tid>, run: seq<State>, events: seq<Event>, n: nat)
    requires IsRun(c, threads, run, events) && n < |run|
    ensures Inv(run[n])
  {
    if n == 0 {
      SumZero(OwedMap(None, run[0].pcs));
      SumZero(LiveMap(None, run[0].live));
    } else {
      var s, t, a := run[n - 1], events[n - 1].thread, events[n - 1].action;
      RunKeepsInv(c, threads, run, events, n - 1);
      assert StepAt(c, run, events, n - 1);
      StepKeepsHeld(c, s, t, a);
      StepKeepsTags(c, s, t, a);
      StepKeepsTotal(c, s, t, a);
    }
  }

  /** In every state a caller's pointer is in the spill map exactly if a fallback tier produced it, under
      the tag of that tier (so never if a policy recovered it), and the map holds nothing but such
      pointers and those a thread is about to look up. */
  lemma SpillMapIsExact(c: Config, threads: set<Tid>, run: seq<State>, events: seq<Event>, n: nat, p: Ptr)
    requires IsRun(c, threads, run, events) && n < |run|
    ensures p in run[n].live ==> p in run[n].heap && FreedAs(run[n].books, p) == run[n].heap[p]
    ensures p in run[n].books.spilled ==>
              p in run[n].live || exists t :: Gripped(run[n], t, p) && run[n].pcs[t].Probing?
  {
    RunKeepsInv(c, threads, run, events, n);
    var s := run[n];
    if p in s.live {
      assert Tagged(s, p, s.live[p].bytes);
    } else if p in s.books.spilled {
      var t :| Gripped(s, t, p);
      assert ThreadTagged(s, s.pcs[t]);
    }
  }

  /** Whatever frees a pointer is the function that matches its origin, on a pointer that is out and
      that no one else holds, and the total is never clamped. */
  lemma FreedByItsOrigin(c: Config, threads: set<Tid>, run: seq<State>, events: seq<Event>, n: nat)
    requires IsRun(c, threads, run, events) && n < |events| && events[n].thread in run[n].pcs
    ensures var s, pc, a := run[n], run[n].pcs[events[n].thread], events[n].action;
            && (Settles(s, events[n].thread, a) ==> pc.bytes <= s.books.total)
            && ((a.Probe? && Settles(s, events[n].thread, a)) || a.Free? ==>
                  && (pc.Probing? || pc.Freeing?) && pc.ptr in s.heap
                  && s.heap[pc.ptr] == FreedAs(s.books, pc.ptr)
                  && (a.Free? ==> s.heap[pc.ptr].Upstream?)
                  && pc.ptr !in s.live
                  && forall u :: Gripped(s, u, pc.ptr) ==> u == events[n].thread)
  {
    RunKeepsInv(c, threads, run, events, n);
    assert StepAt(c, run, events, n);
    var s, t, a := run[n], events[n].thread, events[n].action;
    DueMoves(c, None, s, t, a);
    assert ThreadTagged(s, s.pcs[t]);
    if a.Probe? || a.Free? { assert Gripped(s, t, s.pcs[t].ptr); }
  }

  /** With no call in progress the total is exactly the bytes callers hold, whatever streams they were
      freed on and however often streams were reset. */
  lemma TotalIsLiveBytes(c: Config, threads: set<Tid>, run: seq<State>, events: seq<Event>, n: nat)
    requires IsRun(c, threads, run, events) && n < |run|
    requires forall t :: t in run[n].pcs ==> run[n].pcs[t].Idle?
    ensures run[n].books.total == Sum(LiveMap(None, run[n].live))
  {
    RunKeepsInv(c, threads, run, events, n);
    SumZero(OwedMap(None, run[n].pcs));
  }

  /** With every pointer freed on its own stream, a stream's charge is at most the bytes due on it, and
      exactly those if it was never reset; between calls these are the live bytes on it. */
  lemma {:induction false} StreamWithinLiveBytes(c: Config, threads: set<Tid>, run: seq<State>, events: seq<Event>,
                                                 n: nat, st: StreamId)
    requires IsRun(c, threads, run, events) && n < |run| && c.ownStream
    ensures Current(run[n], st) <= Due(Some(st), run[n])
    ensures (forall i :: 0 <= i < n ==> events[i].action != ResetStream(st)) ==>
              Current(run[n], st) == Due(Some(st), run[n])
    ensures (forall t :: t in run[n].pcs ==> run[n].pcs[t].Idle?) ==>
              Due(Some(st), run[n]) == Sum(LiveMap(Some(st), run[n].live))
  {
    if forall t :: t in run[n].pcs ==> run[n].pcs[t].Idle? {
      SumZero(OwedMap(Some(st), run[n].pcs));
    }
    if n == 0 {
      SumZero(OwedMap(Some(st), run[0].pcs));
      SumZero(LiveMap(Some(st), run[0].live));
    } else {
      RunKeepsInv(c, threads, run, events, n - 1);
      StreamWithinLiveBytes(c, threads, run, events, n - 1, st);
      assert StepAt(c, run, events, n - 1);
      StepBoundsStream(c, run[n - 1], events[n - 1].thread, events[n - 1].action, st);
    }
  }

  /** Since the last reset, or the start, the peak is the highest charge the stream has had. */
  lemma {:induction false} PeakIsHighest(c: Config, threads: set<Tid>, run: seq<State>, events: seq<Event>, since: nat,
                                                n: nat, st: StreamId)
    requires IsRun(c, threads, run, events) && since <= n < |run|
    requires since == 0 || events[since - 1].action == ResetStream(st)
    requires forall i :: since <= i < n ==> events[i].action != ResetStream(st)
    ensures forall j :: since <= j <= n ==> Current(run[j], st) <= Peak(run[n], st)
    ensures exists j :: since <= j <= n && Current(run[j], st) == Peak(run[n], st)
  {
    PeakCoversCurrent(c, threads, run, events, n, st);
    if since == n {
      if n > 0 {
        PeakCoversCurrent(c, threads, run, events, n - 1, st);
        assert StepAt(c, run, events, n - 1);
        StepRaisesPeak(c, run[n - 1], events[n - 1].thread, events[n - 1].action, st);
      }
      assert Current(run[n], st) == Peak(run[n], st);
    } else {
      PeakIsHighest(c, threads, run, events, since, n - 1, st);
      PeakCoversCurrent(c, threads, run, events, n - 1, st);
      assert StepAt(c, run, events, n - 1);
      StepRaisesPeak(c, run[n - 1], events[n - 1].thread, events[n - 1].action, st);
      var j :| since <= j <= n - 1 && Current(run[j], st) == Peak(run[n - 1], st);
      assert Current(run[j], st) == Peak(run[n], st) || Current(run[n], st) == Peak(run[n], st);
    }
  }

  lemma {:induction false} PeakCoversCurrent(c: Config, threads: set<Tid>, run: seq<State>, events: seq<Event>,
                                             n: nat, st: StreamId)
    requires IsRun(c, threads, run, events) && n < |run|
    ensures Current(run[n], st) <= Peak(run[n], st)
  {
    if n > 0 {
      PeakCoversCurrent(c, threads, run, events, n - 1, st);
      assert StepAt(c, run, events, n - 1);
      StepRaisesPeak(c, run[n - 1], events[n - 1].thread, events[n - 1].action, st);
    }
  }
}
