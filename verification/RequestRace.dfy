/** Reservation requests under any number of threads: every load and every compare-and-swap on a space's
    counter, and every update of the active counter, is a step of its own. */
module RequestRace {
  import opened Sums
  import opened Search
  import opened RequestDecision

  type Tid = nat
  type Handle = nat

  /** What a request asks for: which spaces match its strategy, and how much. */
  datatype Req = Req(matching: seq<bool>, bytes: nat)

  /** A request that has returned: what it asked, what it was shown, how it ended. */
  datatype Answer = Answer(req: Req, shown: seq<Seen>, outcome: Outcome)

  datatype PC =
    | Idle(last: Option<Answer>)
    | Scanning(req: Req, shown: seq<Seen>, i: nat)   // first pass, about to look at space i
    | Making(req: Req, shown: seq<Seen>, i: nat, seen: Option<nat>, first: bool) // in the swap loop of space i
    | Turning(req: Req, shown: seq<Seen>)            // the first pass has lost its race
    | Counting(req: Req, shown: seq<Seen>, i: nat)   // space i is charged, the active counter is not yet
    | Crediting(i: nat, bytes: nat, seen: Option<nat>) // a handle is being destroyed: in the release loop
    | Discounting                                      // credited, the active counter still to come

  datatype Issued = Issued(space: nat, bytes: nat)

  datatype State = State(reserved: seq<nat>, active: int, out: map<Handle, Issued>, pcs: map<Tid, PC>)

  datatype Action =
    | Request(req: Req)
    | Look                     // the hint of the first pass
    | Turn                     // start the second pass
    | Load
    | Swap(spurious: bool)
    | Count(h: Handle)
    | Destroy(h: Handle)
    | Skip                     // the release loop ends without crediting
    | Discount

  function Room(max: seq<nat>, s: State, i: nat): nat
    requires i < |max| == |s.reserved|
  {
    if max[i] > s.reserved[i] then max[i] - s.reserved[i] else 0
  }

  function RoomAt(max: nat, cur: nat): nat { if max > cur then max - cur else 0 }

  predicate Enabled(max: seq<nat>, s: State, t: Tid, a: Action) {
    && |s.reserved| == |max| && t in s.pcs
    && var pc := s.pcs[t];
    match a
    case Request(req) => pc.Idle? && |req.matching| == |max|
    case Look => pc.Scanning? && pc.i < |max| && |pc.shown| == |pc.req.matching| == |max|
    case Turn => (pc.Turning? || (pc.Scanning? && pc.i == |max|)) && |pc.shown| == |pc.req.matching| == |max|
    case Load =>
      || (pc.Making? && pc.seen.None? && pc.i < |max| == |pc.shown|)
      || (pc.Crediting? && pc.seen.None? && pc.i < |max|)
    case Swap(_) =>
      || (pc.Making? && pc.seen.Some? && pc.i < |max| == |pc.shown|)
      || (pc.Crediting? && pc.seen.Some? && pc.i < |max| && pc.seen.value >= pc.bytes)
    case Count(h) => pc.Counting? && h !in s.out
    case Destroy(h) => pc.Idle? && h in s.out
    case Skip => pc.Crediting? && pc.seen.Some? && pc.seen.value < pc.bytes
    case Discount => pc.Discounting?
  }

  function To(s: State, t: Tid, pc: PC): State { s.(pcs := s.pcs[t := pc]) }

  function Note(shown: seq<Seen>, i: nat, first: bool, room: nat): seq<Seen>
    requires i < |shown|
  {
    shown[i := if first then shown[i].(atSwap := room) else shown[i].(later := room)]
  }

  /** A thread in a swap loop has just read the counter: it goes on, or gives this space up. */
  function Reload(pc: PC, cur: nat, room: nat): PC
    requires pc.Making? && pc.i < |pc.shown|
  {
    var shown := Note(pc.shown, pc.i, pc.first, room);
    if pc.req.bytes <= room then Making(pc.req, shown, pc.i, Some(cur), pc.first)
    else if pc.first then Turning(pc.req, shown)
    else Idle(Some(Answer(pc.req, shown, NoRoom)))
  }

  function Apply(max: seq<nat>, s: State, t: Tid, a: Action): State
    requires Enabled(max, s, t, a)
  {
    var pc := s.pcs[t];
    match a
    case Request(req) => To(s, t, Scanning(req, seq(|max|, _ => Seen(0, 0, 0)), 0))
    case Look =>
      if !pc.req.matching[pc.i] then To(s, t, Scanning(pc.req, pc.shown, pc.i + 1))
      else
        var shown := pc.shown[pc.i := pc.shown[pc.i].(hint := Room(max, s, pc.i))];
        To(s, t, if Room(max, s, pc.i) >= pc.req.bytes then Making(pc.req, shown, pc.i, None, true)
                 else Scanning(pc.req, shown, pc.i + 1))
    case Turn =>
      var m := First(pc.req.matching);
      To(s, t, if m == |max| then Idle(Some(Answer(pc.req, pc.shown, NoMatch)))
               else Making(pc.req, pc.shown, m, None, false))
    case Load =>
      To(s, t, if pc.Making? then Reload(pc, s.reserved[pc.i], Room(max, s, pc.i))
               else Crediting(pc.i, pc.bytes, Some(s.reserved[pc.i])))
    case Swap(spurious) =>
      if spurious || pc.seen.value != s.reserved[pc.i] then
        To(s, t, if pc.Making? then Reload(pc, s.reserved[pc.i], Room(max, s, pc.i))
               else Crediting(pc.i, pc.bytes, Some(s.reserved[pc.i])))
      else if pc.Making? then
        To(s.(reserved := s.reserved[pc.i := s.reserved[pc.i] + pc.req.bytes]), t, Counting(pc.req, pc.shown, pc.i))
      else
        To(s.(reserved := s.reserved[pc.i := s.reserved[pc.i] - pc.bytes]), t, Discounting)
    case Count(h) =>
      To(s.(active := s.active + 1, out := s.out[h := Issued(pc.i, pc.req.bytes)]), t,
         Idle(Some(Answer(pc.req, pc.shown, Space(pc.i)))))
    case Destroy(h) =>
      To(s.(out := s.out - {h}), t, Crediting(s.out[h].space, s.out[h].bytes, None))
    case Skip => To(s, t, Discounting)
    case Discount => To(s.(active := s.active - 1), t, Idle(None))
  }

  // ---- what a thread knows ----

  /** What a space shows is never more than its maximum. */
  predicate Within(max: seq<nat>, shown: seq<Seen>) {
    && |shown| == |max|
    && forall k :: 0 <= k < |shown| ==> shown[k].hint <= max[k] && shown[k].atSwap <= max[k] && shown[k].later <= max[k]
  }

  ghost predicate Shown(max: seq<nat>, req: Req, shown: seq<Seen>) { |req.matching| == |max| && Within(max, shown) }

  /** No match before `i` has shown room to the first pass. */
  ghost predicate NoneHinted(req: Req, shown: seq<Seen>, i: nat)
    requires |shown| == |req.matching|
  {
    forall j: nat :: j < i && j < |shown| ==> !(req.matching[j] && req.bytes <= shown[j].hint)
  }

  /** The first pass has come to nothing: the first match that showed room, if any, had none at its swap. */
  ghost predicate FirstPassFailed(req: Req, shown: seq<Seen>)
    requires |shown| == |req.matching|
  {
    forall j: nat :: j < |shown| && req.matching[j] && req.bytes <= shown[j].hint && NoneHinted(req, shown, j) ==>
      shown[j].atSwap < req.bytes
  }

  /** Everything a thread remembers bears out the decision it is heading for. */
  ghost predicate PcInv(max: seq<nat>, pc: PC) {
    match pc
    case Idle(last) =>
      last.Some? ==>
        && Shown(max, last.value.req, last.value.shown)
        && last.value.outcome == Decide(last.value.req.matching, last.value.req.bytes, last.value.shown)
    case Scanning(req, shown, i) => Shown(max, req, shown) && i <= |max| && NoneHinted(req, shown, i)
    case Making(req, shown, i, seen, first) =>
      && Shown(max, req, shown) && i < |max| && req.matching[i]
      && (if first then req.bytes <= shown[i].hint && NoneHinted(req, shown, i)
          else FirstPassFailed(req, shown) && i == First(req.matching))
      && (seen.Some? ==> req.bytes <= RoomAt(max[i], seen.value) == if first then shown[i].atSwap else shown[i].later)
    case Turning(req, shown) => Shown(max, req, shown) && FirstPassFailed(req, shown)
    case Counting(req, shown, i) =>
      Shown(max, req, shown) && i < |max| && Decide(req.matching, req.bytes, shown) == Space(i)
    case Crediting(i, bytes, seen) => i < |max| && (seen.Some? ==> seen.value >= bytes)
    case Discounting => true
  }

  lemma FailedMeansFallback(req: Req, shown: seq<Seen>)
    requires |shown| == |req.matching| && FirstPassFailed(req, shown)
    ensures Decide(req.matching, req.bytes, shown) == Fallback(req.matching, req.bytes, shown)
  {
    var flags := Hinted(req.matching, req.bytes, shown);
    var k := First(flags);
    if k < |shown| {
      forall j: nat | j < k ensures !(req.matching[j] && req.bytes <= shown[j].hint) { assert !flags[j]; }
      assert flags[k];
    }
  }

  lemma HintedMeansFirst(req: Req, shown: seq<Seen>, i: nat)
    requires |shown| == |req.matching| && i < |shown| && req.matching[i] && req.bytes <= shown[i].hint
    requires NoneHinted(req, shown, i)
    ensures First(Hinted(req.matching, req.bytes, shown)) == i
  {
    var flags := Hinted(req.matching, req.bytes, shown);
    var k := First(flags);
    assert flags[i] && k <= i && flags[k];
  }

  /** What one more value shown to the swap loop leaves unchanged. */
  lemma NoteKeeps(req: Req, shown: seq<Seen>, i: nat, first: bool, room: nat)
    requires |shown| == |req.matching| && i < |shown|
    ensures var shown' := Note(shown, i, first, room);
            && |shown'| == |shown|
            && (forall j: nat :: j < |shown| ==> shown'[j].hint == shown[j].hint)
            && (forall j: nat :: NoneHinted(req, shown', j) <==> NoneHinted(req, shown, j))
            && (!first ==> (FirstPassFailed(req, shown') <==> FirstPassFailed(req, shown)))
  {
    var shown' := Note(shown, i, first, room);
    assert forall j: nat :: j < |shown| ==>
        shown'[j].hint == shown[j].hint && (!first ==> shown'[j].atSwap == shown[j].atSwap);
  }

  /** The two ends of the second pass. */
  lemma SecondPassEnds(req: Req, shown: seq<Seen>, m: nat)
    requires |shown| == |req.matching| && FirstPassFailed(req, shown) && m == First(req.matching)
    ensures Decide(req.matching, req.bytes, shown)
         == if m == |shown| then NoMatch else if req.bytes <= shown[m].later then Space(m) else NoRoom
  {
    FailedMeansFallback(req, shown);
  }

  lemma ReloadKeepsPc(max: seq<nat>, pc: PC, cur: nat)
    requires PcInv(max, pc) && pc.Making?
    ensures PcInv(max, Reload(pc, cur, RoomAt(max[pc.i], cur)))
  {
    var room := RoomAt(max[pc.i], cur);
    var shown := Note(pc.shown, pc.i, pc.first, room);
    NoteKeeps(pc.req, pc.shown, pc.i, pc.first, room);
    if pc.req.bytes > room {
      if pc.first {
        assert forall j: nat :: j < |shown| && j > pc.i ==> !NoneHinted(pc.req, shown, j) by {
          assert pc.req.matching[pc.i] && pc.req.bytes <= shown[pc.i].hint;
        }
      } else {
        SecondPassEnds(pc.req, shown, pc.i);
      }
    }
  }

  /** A successful swap charges the space the request is decided on. */
  lemma ChargeKeepsPc(max: seq<nat>, pc: PC)
    requires PcInv(max, pc) && pc.Making? && pc.seen.Some?
    ensures PcInv(max, Counting(pc.req, pc.shown, pc.i))
  {
    if pc.first {
      HintedMeansFirst(pc.req, pc.shown, pc.i);
    } else {
      SecondPassEnds(pc.req, pc.shown, pc.i);
    }
  }

  lemma LookKeepsPc(max: seq<nat>, s: State, t: Tid)
    requires Enabled(max, s, t, Look) && PcInv(max, s.pcs[t])
    ensures PcInv(max, Apply(max, s, t, Look).pcs[t])
  {}

  lemma TurnKeepsPc(max: seq<nat>, s: State, t: Tid)
    requires Enabled(max, s, t, Turn) && PcInv(max, s.pcs[t])
    ensures PcInv(max, Apply(max, s, t, Turn).pcs[t])
  {
    var pc := s.pcs[t];
    var m := First(pc.req.matching);
    if pc.Scanning? {
      assert FirstPassFailed(pc.req, pc.shown);
    }
    if m == |max| { SecondPassEnds(pc.req, pc.shown, m); }
  }

  // ---- the counters ----

  function InFlight(i: nat, pc: PC): nat {
    match pc
    case Counting(req, _, k) => if k == i then req.bytes else 0
    case Crediting(k, bytes, _) => if k == i then bytes else 0
    case _ => 0
  }

  ghost function FlightMap(i: nat, pcs: map<Tid, PC>): map<Tid, int> { map t | t in pcs :: InFlight(i, pcs[t]) }

  ghost function GrantMap(i: nat, out: map<Handle, Issued>): map<Handle, int> {
    map h | h in out :: if out[h].space == i then out[h].bytes else 0
  }

  /** What space `i` should hold: the bytes of the outstanding handles on it and those in flight. */
  ghost function Due(i: nat, s: State): int { Sum(GrantMap(i, s.out)) + Sum(FlightMap(i, s.pcs)) }

  function Releasing(pcs: map<Tid, PC>): set<Tid> { set t | t in pcs && (pcs[t].Crediting? || pcs[t].Discounting?) }

  /** The active counter is the outstanding handles and those whose destruction has not got to it. */
  ghost predicate ActiveIsExact(s: State) { s.active == |s.out| + |Releasing(s.pcs)| }

  ghost predicate Inv(max: seq<nat>, s: State) {
    && |s.reserved| == |max|
    && (forall i: nat :: i < |max| ==> s.reserved[i] == Due(i, s) && s.reserved[i] <= max[i])
    && ActiveIsExact(s)
    && (forall t :: t in s.pcs ==> PcInv(max, s.pcs[t]))
    && (forall h :: h in s.out ==> s.out[h].space < |max|)
  }

  lemma FlightMoves(i: nat, pcs: map<Tid, PC>, t: Tid, pc: PC)
    requires t in pcs
    ensures Sum(FlightMap(i, pcs[t := pc])) == Sum(FlightMap(i, pcs)) - InFlight(i, pcs[t]) + InFlight(i, pc)
    ensures InFlight(i, pcs[t]) <= Sum(FlightMap(i, pcs))
  {
    assert FlightMap(i, pcs[t := pc]) == FlightMap(i, pcs)[t := InFlight(i, pc)];
    SumSet(FlightMap(i, pcs), t, InFlight(i, pc));
    SumBounds(FlightMap(i, pcs), t);
  }

  lemma GrantsMove(i: nat, out: map<Handle, Issued>, h: Handle, x: Issued)
    ensures h !in out ==> Sum(GrantMap(i, out[h := x])) == Sum(GrantMap(i, out)) + if x.space == i then x.bytes else 0
    ensures h in out ==>
              Sum(GrantMap(i, out - {h})) == Sum(GrantMap(i, out)) - if out[h].space == i then out[h].bytes else 0
    ensures 0 <= Sum(GrantMap(i, out))
  {
    SumBounds(GrantMap(i, out), h);
    if h in out {
      assert GrantMap(i, out - {h}) == GrantMap(i, out) - {h};
      SumSplit(GrantMap(i, out), h);
    } else {
      var v := if x.space == i then x.bytes else 0;
      assert GrantMap(i, out[h := x]) == GrantMap(i, out)[h := v];
      SumSet(GrantMap(i, out), h, v);
    }
  }

  lemma OnlyOwnPc(max: seq<nat>, s: State, t: Tid, a: Action)
    requires Enabled(max, s, t, a)
    ensures t in Apply(max, s, t, a).pcs && Apply(max, s, t, a).pcs == s.pcs[t := Apply(max, s, t, a).pcs[t]]
  {}

  lemma HandleStepKeepsDue(max: seq<nat>, s: State, t: Tid, a: Action, i: nat)
    requires Inv(max, s) && Enabled(max, s, t, a) && i < |max| && (a.Count? || a.Destroy?)
    ensures var s' := Apply(max, s, t, a); s'.reserved == s.reserved && Due(i, s') == Due(i, s)
  {
    var s' := Apply(max, s, t, a);
    FlightMoves(i, s.pcs, t, s'.pcs[t]);
    GrantsMove(i, s.out, a.h, if a.Count? then s'.out[a.h] else s.out[a.h]);
  }

  lemma DueMoves(i: nat, s: State, s': State, t: Tid)
    requires t in s.pcs && t in s'.pcs && s'.pcs == s.pcs[t := s'.pcs[t]] && s'.out == s.out
    ensures Due(i, s') == Due(i, s) - InFlight(i, s.pcs[t]) + InFlight(i, s'.pcs[t])
    ensures InFlight(i, s.pcs[t]) <= Due(i, s)
  {
    FlightMoves(i, s.pcs, t, s'.pcs[t]);
    GrantsMove(i, s.out, 0, Issued(0, 0));
  }

  /** The swap succeeds: nothing has moved the counter since it was read. */
  predicate Wins(max: seq<nat>, s: State, t: Tid, a: Action) {
    Enabled(max, s, t, a) && a.Swap? && !a.spurious && s.pcs[t].seen.value == s.reserved[s.pcs[t].i]
  }

  lemma ChargeKeepsDue(max: seq<nat>, s: State, t: Tid, a: Action, i: nat)
    requires Inv(max, s) && Wins(max, s, t, a) && s.pcs[t].Making? && i < |max|
    ensures var s' := Apply(max, s, t, a);
            |s'.reserved| == |max| && s'.reserved[i] == Due(i, s') && s'.reserved[i] <= max[i]
  {
    assert PcInv(max, s.pcs[t]);
    OnlyOwnPc(max, s, t, a);
    DueMoves(i, s, Apply(max, s, t, a), t);
  }

  lemma CreditKeepsDue(max: seq<nat>, s: State, t: Tid, a: Action, i: nat)
    requires Inv(max, s) && Wins(max, s, t, a) && s.pcs[t].Crediting? && i < |max|
    ensures var s' := Apply(max, s, t, a);
            |s'.reserved| == |max| && s'.reserved[i] == Due(i, s') && s'.reserved[i] <= max[i]
  {
    assert s.reserved[i] == Due(i, s);
    OnlyOwnPc(max, s, t, a);
    DueMoves(i, s, Apply(max, s, t, a), t);
  }

  lemma OtherStepKeepsDue(max: seq<nat>, s: State, t: Tid, a: Action, i: nat)
    requires Enabled(max, s, t, a) && PcInv(max, s.pcs[t])
    requires i < |max| && !a.Count? && !a.Destroy? && !Wins(max, s, t, a)
    ensures var s' := Apply(max, s, t, a); s'.reserved == s.reserved && Due(i, s') == Due(i, s)
  {
    var s' := Apply(max, s, t, a);
    OnlyOwnPc(max, s, t, a);
    DueMoves(i, s, s', t);
  }

  /** Each counter moves with what is due on its space. */
  lemma StepKeepsDue(max: seq<nat>, s: State, t: Tid, a: Action, i: nat)
    requires Inv(max, s) && Enabled(max, s, t, a) && i < |max|
    ensures var s' := Apply(max, s, t, a);
            |s'.reserved| == |max| && s'.reserved[i] == Due(i, s') && s'.reserved[i] <= max[i]
  {
    if a.Count? || a.Destroy? {
      HandleStepKeepsDue(max, s, t, a, i);
    } else if !Wins(max, s, t, a) {
      assert PcInv(max, s.pcs[t]);
      OtherStepKeepsDue(max, s, t, a, i);
    } else if s.pcs[t].Making? {
      ChargeKeepsDue(max, s, t, a, i);
    } else {
      CreditKeepsDue(max, s, t, a, i);
    }
  }

  lemma ReleasingMoves(pcs: map<Tid, PC>, t: Tid, pc: PC)
    requires t in pcs
    ensures |Releasing(pcs[t := pc])| == |Releasing(pcs)| - (if t in Releasing(pcs) then 1 else 0)
                                       + (if pc.Crediting? || pc.Discounting? then 1 else 0)
  {
    var rest := Releasing(pcs) - {t};
    if pc.Crediting? || pc.Discounting? {
      assert Releasing(pcs[t := pc]) == rest + {t};
    } else {
      assert Releasing(pcs[t := pc]) == rest;
    }
  }

  lemma HandleStepKeepsActive(max: seq<nat>, s: State, t: Tid, a: Action)
    requires ActiveIsExact(s) && Enabled(max, s, t, a) && (a.Count? || a.Destroy?)
    ensures ActiveIsExact(Apply(max, s, t, a))
  {
    var s' := Apply(max, s, t, a);
    ReleasingMoves(s.pcs, t, s'.pcs[t]);
    assert s'.out.Keys == if a.Count? then s.out.Keys + {a.h} else s.out.Keys - {a.h};
  }

  lemma StepKeepsActive(max: seq<nat>, s: State, t: Tid, a: Action)
    requires ActiveIsExact(s) && Enabled(max, s, t, a)
    ensures ActiveIsExact(Apply(max, s, t, a))
  {
    if a.Count? || a.Destroy? {
      HandleStepKeepsActive(max, s, t, a);
    } else {
      var s' := Apply(max, s, t, a);
      OnlyOwnPc(max, s, t, a);
      ReleasingMoves(s.pcs, t, s'.pcs[t]);
    }
  }

  /** A thread that is about to credit finds its bytes on the counter. */
  lemma CreditIsThere(max: seq<nat>, s: State, t: Tid)
    requires Inv(max, s) && t in s.pcs && s.pcs[t].Crediting?
    ensures s.pcs[t].bytes <= s.reserved[s.pcs[t].i]
  {
    assert PcInv(max, s.pcs[t]);
    FlightMoves(s.pcs[t].i, s.pcs, t, s.pcs[t]);
    GrantsMove(s.pcs[t].i, s.out, 0, Issued(0, 0));
  }

  lemma OtherStepKeepsPc(max: seq<nat>, s: State, t: Tid, a: Action)
    requires Enabled(max, s, t, a) && PcInv(max, s.pcs[t]) && (a.Request? || a.Count? || a.Destroy? || a.Discount?)
    requires forall h :: h in s.out ==> s.out[h].space < |max|
    ensures PcInv(max, Apply(max, s, t, a).pcs[t])
  {}

  /** A step of a loop that grants: a read of the counter, or a swap that goes through. */
  lemma MakingMoves(max: seq<nat>, s: State, t: Tid, a: Action)
    requires Enabled(max, s, t, a) && s.pcs[t].Making?
    ensures var pc := s.pcs[t];
            pc.i < |max| == |pc.shown| &&
            Apply(max, s, t, a).pcs[t] == if Wins(max, s, t, a) then Counting(pc.req, pc.shown, pc.i)
                                          else Reload(pc, s.reserved[pc.i], Room(max, s, pc.i))
    ensures Wins(max, s, t, a) ==> s.pcs[t].seen.Some?
  {}

  lemma MakingKeepsPc(max: seq<nat>, s: State, t: Tid, a: Action)
    requires Enabled(max, s, t, a) && s.pcs[t].Making? && PcInv(max, s.pcs[t])
    ensures PcInv(max, Apply(max, s, t, a).pcs[t])
  {
    MakingMoves(max, s, t, a);
    if Wins(max, s, t, a) {
      ChargeKeepsPc(max, s.pcs[t]);
    } else {
      ReloadKeepsPc(max, s.pcs[t], s.reserved[s.pcs[t].i]);
    }
  }

  /** A loop that releases does the same. */
  lemma CreditingKeepsPc(max: seq<nat>, s: State, t: Tid, a: Action)
    requires Inv(max, s) && Enabled(max, s, t, a) && s.pcs[t].Crediting?
    ensures PcInv(max, Apply(max, s, t, a).pcs[t])
  {
    assert PcInv(max, s.pcs[t]);
    CreditIsThere(max, s, t);
  }

  lemma StepKeepsPc(max: seq<nat>, s: State, t: Tid, a: Action)
    requires Inv(max, s) && Enabled(max, s, t, a)
    ensures PcInv(max, Apply(max, s, t, a).pcs[t])
  {
    assert PcInv(max, s.pcs[t]);
    if s.pcs[t].Making? {
      MakingKeepsPc(max, s, t, a);
    } else if s.pcs[t].Crediting? {
      CreditingKeepsPc(max, s, t, a);
    } else if a.Look? {
      LookKeepsPc(max, s, t);
    } else if a.Turn? {
      TurnKeepsPc(max, s, t);
    } else {
      OtherStepKeepsPc(max, s, t, a);
    }
  }

  lemma StepKeepsInv(max: seq<nat>, s: State, t: Tid, a: Action)
    requires Inv(max, s) && Enabled(max, s, t, a)
    ensures Inv(max, Apply(max, s, t, a))
  {
    var s' := Apply(max, s, t, a);
    forall i: nat | i < |max| ensures s'.reserved[i] == Due(i, s') && s'.reserved[i] <= max[i] {
      StepKeepsDue(max, s, t, a, i);
    }
    StepKeepsActive(max, s, t, a);
    StepKeepsPc(max, s, t, a);
    OnlyOwnPc(max, s, t, a);
    assert PcInv(max, s.pcs[t]);
  }

  // ---- runs ----

  datatype Event = Event(thread: Tid, action: Action)

  function Init(max: seq<nat>, threads: set<Tid>): State {
    State(seq(|max|, _ => 0), 0, map[], map t | t in threads :: Idle(None))
  }

  ghost predicate StepAt(max: seq<nat>, run: seq<State>, events: seq<Event>, i: nat)
    requires i < |events| && |run| == |events| + 1
  {
    && Enabled(max, run[i], events[i].thread, events[i].action)
    && run[i + 1] == Apply(max, run[i], events[i].thread, events[i].action)
  }

  ghost predicate IsRun(max: seq<nat>, threads: set<Tid>, run: seq<State>, events: seq<Event>) {
    && |run| == |events| + 1
    && run[0] == Init(max, threads)
    && forall i :: 0 <= i < |events| ==> StepAt(max, run, events, i)
  }

  lemma InitInv(max: seq<nat>, threads: set<Tid>)
    ensures Inv(max, Init(max, threads))
  {
    var s := Init(max, threads);
    forall i: nat | i < |max| ensures Due(i, s) == 0 {
      SumZero(GrantMap(i, s.out));
      SumZero(FlightMap(i, s.pcs));
    }
    assert Releasing(s.pcs) == {};
  }

  lemma {:induction false} RunKeepsInv(max: seq<nat>, threads: set<Tid>, run: seq<State>, events: seq<Event>, n: nat)
    requires IsRun(max, threads, run, events) && n < |run|
    ensures Inv(max, run[n])
  {
    if n == 0 {
      InitInv(max, threads);
    } else {
      RunKeepsInv(max, threads, run, events, n - 1);
      assert StepAt(max, run, events, n - 1);
      StepKeepsInv(max, run[n - 1], events[n - 1].thread, events[n - 1].action);
    }
  }

  /** In every state of every run each space holds exactly the bytes of its outstanding handles and those in
      flight, within its maximum; and the active counter is the outstanding handles and those whose
      destruction has not got to it, hence the outstanding handles whenever no call is in progress. */
  lemma CountersAreExact(max: seq<nat>, threads: set<Tid>, run: seq<State>, events: seq<Event>, n: nat)
    requires IsRun(max, threads, run, events) && n < |run|
    ensures |run[n].reserved| == |max|
    ensures forall i: nat :: i < |max| ==> run[n].reserved[i] == Due(i, run[n]) && run[n].reserved[i] <= max[i]
    ensures run[n].active == |run[n].out| + |Releasing(run[n].pcs)|
    ensures (forall t :: t in run[n].pcs ==> run[n].pcs[t].Idle?) ==> run[n].active == |run[n].out|
  {
    RunKeepsInv(max, threads, run, events, n);
    if forall t :: t in run[n].pcs ==> run[n].pcs[t].Idle? {
      assert Releasing(run[n].pcs) == {};
    }
  }

  /** Whatever the schedule, a request that has returned was shown no more than the spaces have, and ended
      as the two passes decide on what it was shown: every value is one its own steps read. */
  lemma RequestsEndAsDecided(max: seq<nat>, threads: set<Tid>, run: seq<State>, events: seq<Event>, n: nat, t: Tid)
    requires IsRun(max, threads, run, events) && n < |run| && t in run[n].pcs
    requires run[n].pcs[t].Idle? && run[n].pcs[t].last.Some?
    ensures var ans := run[n].pcs[t].last.value;
            && |ans.req.matching| == |max| && Within(max, ans.shown)
            && ans.outcome == Decide(ans.req.matching, ans.req.bytes, ans.shown)
  {
    RunKeepsInv(max, threads, run, events, n);
    assert PcInv(max, run[n].pcs[t]);
  }

  /** So it throws exactly if nothing matches, and a space it is granted matches and is large enough. */
  lemma RacingRequest(max: seq<nat>, threads: set<Tid>, run: seq<State>, events: seq<Event>, n: nat, t: Tid)
    requires IsRun(max, threads, run, events) && n < |run| && t in run[n].pcs
    requires run[n].pcs[t].Idle? && run[n].pcs[t].last.Some?
    ensures var ans := run[n].pcs[t].last.value;
            && |ans.req.matching| == |max|
            && (ans.outcome.NoMatch? <==> forall j :: 0 <= j < |max| ==> !ans.req.matching[j])
            && (ans.outcome.Space? ==>
                var k := ans.outcome.index; k < |max| && ans.req.matching[k] && ans.req.bytes <= max[k])
  {
    RequestsEndAsDecided(max, threads, run, events, n, t);
  }

  /** The guard of the release loop never skips a credit, and the swap that grants finds the room. */
  lemma SwapsFindTheirBytes(max: seq<nat>, threads: set<Tid>, run: seq<State>, events: seq<Event>, n: nat)
    requires IsRun(max, threads, run, events) && n < |events|
    ensures !events[n].action.Skip?
    ensures events[n].thread in run[n].pcs && events[n].thread in run[n + 1].pcs
    ensures var pc, pc' := run[n].pcs[events[n].thread], run[n + 1].pcs[events[n].thread];
            events[n].action.Swap? && pc.Making? && pc'.Counting? ==>
              pc'.i == pc.i < |max| == |run[n].reserved| && pc.req.bytes <= Room(max, run[n], pc.i)
  {
    RunKeepsInv(max, threads, run, events, n);
    assert StepAt(max, run, events, n);
    assert PcInv(max, run[n].pcs[events[n].thread]);
  }
}
