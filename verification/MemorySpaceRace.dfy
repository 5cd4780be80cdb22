/** A memory space under any number of threads: every load and every compare-and-swap on the counter
    is a step of its own, and live arenas may be grown at any time. */
module MemorySpaceRace {
  import opened Sums
  import opened Width

  type Tid = nat
  type Handle = nat

  datatype Call = OrThrow | OrNull | Upto

  datatype PC =
    | Idle
    | Making(call: Call, bytes: nat, seen: Option<nat>)
    | Charged(granted: nat)                     // the swap succeeded, the handle is being built
    | Releasing(credit: nat, seen: Option<nat>) // the handle is gone, the credit is not in yet

  /** An issued handle: what its release callback will credit, and what its arena says now. */
  datatype Issued = Issued(granted: nat, arena: nat)

  datatype State = State(reserved: nat, out: map<Handle, Issued>, pcs: map<Tid, PC>)

  datatype Action =
    | Start(call: Call, bytes: nat)
    | Load
    | Swap(spurious: bool)
    | Refuse
    | Build(id: Handle)
    | Destroy(id: Handle)
    | Skip                       // the release loop ends without crediting
    | Grow(id: Handle, more: nat)

  function Avail(max: nat, cur: nat): nat { if max > cur then max - cur else 0 }

  /** What a call takes from what it saw available. */
  function Take(call: Call, bytes: nat, avail: nat): nat { if call.Upto? then Min(bytes, avail) else bytes }

  predicate Refuses(call: Call, bytes: nat, avail: nat) {
    if call.Upto? then Take(call, bytes, avail) == 0 else bytes > avail
  }

  predicate Enabled(max: nat, s: State, t: Tid, a: Action) {
    t in s.pcs &&
    var pc := s.pcs[t];
    match a
    case Start(_, _) => pc.Idle?
    case Load => (pc.Making? || pc.Releasing?) && pc.seen.None?
    case Swap(_) =>
      || (pc.Making? && pc.seen.Some? && !Refuses(pc.call, pc.bytes, Avail(max, pc.seen.value)))
      || (pc.Releasing? && pc.seen.Some? && pc.seen.value >= pc.credit)
    case Refuse => pc.Making? && pc.seen.Some? && Refuses(pc.call, pc.bytes, Avail(max, pc.seen.value))
    case Build(id) => pc.Charged? && id !in s.out
    case Destroy(id) => pc.Idle? && id in s.out
    case Skip => pc.Releasing? && pc.seen.Some? && pc.seen.value < pc.credit
    case Grow(id, _) => pc.Idle? && id in s.out
  }

  function To(s: State, t: Tid, pc: PC): State { s.(pcs := s.pcs[t := pc]) }

  function Apply(max: nat, s: State, t: Tid, a: Action): State
    requires Enabled(max, s, t, a)
  {
    var pc := s.pcs[t];
    match a
    case Start(call, bytes) => To(s, t, Making(call, bytes, None))
    case Load => To(s, t, pc.(seen := Some(s.reserved)))
    case Refuse => To(s, t, Idle)
    case Skip => To(s, t, Idle)
    case Swap(spurious) =>
      if spurious || pc.seen.value != s.reserved then To(s, t, pc.(seen := Some(s.reserved)))
      else if pc.Making? then
        var take := Take(pc.call, pc.bytes, Avail(max, s.reserved));
        To(s.(reserved := s.reserved + take), t, Charged(take))
      else To(s.(reserved := s.reserved - pc.credit), t, Idle)
    case Build(id) => To(s.(out := s.out[id := Issued(pc.granted, pc.granted)]), t, Idle)
    case Destroy(id) => To(s.(out := s.out - {id}), t, Releasing(s.out[id].granted, None))
    case Grow(id, more) =>
      var arena := s.out[id].arena;
      s.(out := s.out[id := s.out[id].(arena := if more > SIZE_MAX - arena then SIZE_MAX else arena + more)])
  }

  function InFlight(pc: PC): int {
    match pc
    case Charged(granted) => granted
    case Releasing(credit, _) => credit
    case _ => 0
  }

  function FlightMap(pcs: map<Tid, PC>): map<Tid, int> { map t | t in pcs :: InFlight(pcs[t]) }

  function GrantMap(out: map<Handle, Issued>): map<Handle, int> { map h | h in out :: out[h].granted }

  /** The counter is the granted bytes of the outstanding handles plus those in flight; whatever a
      releasing thread saw is enough to credit. */
  ghost predicate Inv(max: nat, s: State) {
    && s.reserved == Sum(GrantMap(s.out)) + Sum(FlightMap(s.pcs))
    && s.reserved <= max
    && (forall t :: t in s.pcs && s.pcs[t].Releasing? && s.pcs[t].seen.Some? ==> s.pcs[t].seen.value >= s.pcs[t].credit)
  }

  lemma FlightMoves(pcs: map<Tid, PC>, t: Tid, pc: PC)
    requires t in pcs
    ensures Sum(FlightMap(pcs[t := pc])) == Sum(FlightMap(pcs)) - InFlight(pcs[t]) + InFlight(pc)
  {
    assert FlightMap(pcs[t := pc]) == FlightMap(pcs)[t := InFlight(pc)];
    SumSet(FlightMap(pcs), t, InFlight(pc));
  }

  lemma FlightIsHeld(max: nat, s: State, t: Tid)
    requires Inv(max, s) && t in s.pcs
    ensures InFlight(s.pcs[t]) <= s.reserved
  {
    SumBounds(FlightMap(s.pcs), t);
    SumBounds(GrantMap(s.out), 0);
  }

  lemma GrantsMove(out: map<Handle, Issued>, id: Handle, x: Issued)
    ensures Sum(GrantMap(out[id := x])) == Sum(GrantMap(out)) - (if id in out then out[id].granted else 0) + x.granted
    ensures id in out ==> Sum(GrantMap(out - {id})) == Sum(GrantMap(out)) - out[id].granted
  {
    assert GrantMap(out[id := x]) == GrantMap(out)[id := x.granted];
    SumSet(GrantMap(out), id, x.granted);
    if id in out {
      assert GrantMap(out - {id}) == GrantMap(out) - {id};
      SumSplit(GrantMap(out), id);
    }
  }

  lemma HandleStepKeepsInv(max: nat, s: State, t: Tid, a: Action)
    requires Inv(max, s) && Enabled(max, s, t, a) && (a.Grow? || a.Build? || a.Destroy?)
    ensures Inv(max, Apply(max, s, t, a))
  {
    var s' := Apply(max, s, t, a);
    GrantsMove(s.out, a.id, if a.Destroy? then s.out[a.id] else s'.out[a.id]);
    FlightMoves(s.pcs, t, s'.pcs[t]);
  }

  lemma StepKeepsInv(max: nat, s: State, t: Tid, a: Action)
    requires Inv(max, s) && Enabled(max, s, t, a)
    ensures Inv(max, Apply(max, s, t, a))
  {
    if a.Grow? || a.Build? || a.Destroy? {
      HandleStepKeepsInv(max, s, t, a);
    } else {
      FlightIsHeld(max, s, t);
      FlightMoves(s.pcs, t, Apply(max, s, t, a).pcs[t]);
    }
  }

  // ---- runs ----

  datatype Event = Event(thread: Tid, action: Action)

  function Init(threads: set<Tid>): State { State(0, map[], map t | t in threads :: Idle) }

  ghost predicate StepAt(max: nat, run: seq<State>, events: seq<Event>, i: nat)
    requires i < |events| && |run| == |events| + 1
  {
    && Enabled(max, run[i], events[i].thread, events[i].action)
    && run[i + 1] == Apply(max, run[i], events[i].thread, events[i].action)
  }

  ghost predicate IsRun(max: nat, threads: set<Tid>, run: seq<State>, events: seq<Event>) {
    && |run| == |events| + 1
    && run[0] == Init(threads)
    && forall i :: 0 <= i < |events| ==> StepAt(max, run, events, i)
  }

  lemma {:induction false} RunKeepsInv(max: nat, threads: set<Tid>, run: seq<State>, events: seq<Event>, i: nat)
    requires IsRun(max, threads, run, events) && i < |run|
    ensures Inv(max, run[i])
  {
    if i == 0 {
      SumZero(FlightMap(run[0].pcs));
      SumZero(GrantMap(run[0].out));
    } else {
      RunKeepsInv(max, threads, run, events, i - 1);
      assert StepAt(max, run, events, i - 1);
      StepKeepsInv(max, run[i - 1], events[i - 1].thread, events[i - 1].action);
    }
  }

  /** In every state of every run the counter is exactly the bytes originally granted to the
      outstanding handles plus those in flight, and within the maximum; growing arenas along the way
      does not disturb it. */
  lemma ReservedIsGranted(max: nat, threads: set<Tid>, run: seq<State>, events: seq<Event>, i: nat)
    requires IsRun(max, threads, run, events) && i < |run|
    ensures run[i].reserved == Sum(GrantMap(run[i].out)) + Sum(FlightMap(run[i].pcs)) <= max
    ensures (forall t :: t in run[i].pcs ==> run[i].pcs[t].Idle?) && run[i].out == map[] ==> run[i].reserved == 0
  {
    RunKeepsInv(max, threads, run, events, i);
    if (forall t :: t in run[i].pcs ==> run[i].pcs[t].Idle?) && run[i].out == map[] {
      SumZero(FlightMap(run[i].pcs));
      SumZero(GrantMap(run[i].out));
    }
  }

  /** The guard of the release loop never skips a credit. */
  lemma ReleaseNeverSkips(max: nat, threads: set<Tid>, run: seq<State>, events: seq<Event>, i: nat)
    requires IsRun(max, threads, run, events) && i < |events|
    ensures !events[i].action.Skip?
  {
    RunKeepsInv(max, threads, run, events, i);
    assert StepAt(max, run, events, i);
  }

  /** At its swap a call gets exactly what it should out of what is then available: all it asked for,
      or, for `upto`, the smaller of that and everything left. */
  lemma SwapGrants(max: nat, threads: set<Tid>, run: seq<State>, events: seq<Event>, i: nat)
    requires IsRun(max, threads, run, events) && i < |events|
    requires events[i].action.Swap? && events[i].thread in run[i].pcs && run[i].pcs[events[i].thread].Making?
    ensures events[i].thread in run[i + 1].pcs
    ensures var pc, pc' := run[i].pcs[events[i].thread], run[i + 1].pcs[events[i].thread];
            pc'.Charged? ==>
              && run[i + 1].reserved == run[i].reserved + pc'.granted
              && pc'.granted == (if pc.call.Upto? then Min(pc.bytes, max - run[i].reserved) else pc.bytes)
              && (pc.call.Upto? ==> pc'.granted > 0)
  {
    RunKeepsInv(max, threads, run, events, i);
    assert StepAt(max, run, events, i);
  }
}
