/** What a reservation request goes by, over all runs: every value it decides on was the room of that space as the
    request itself read it, and no request is ever stuck. */
module RequestAdmission {
  import opened Search
  import opened RequestDecision
  import opened RequestRace

  predicate InRequest(pc: PC) { pc.Scanning? || pc.Making? || pc.Turning? || pc.Counting? }

  /** The request a thread is working on, or has just answered. */
  function ReqOf(pc: PC): Req
    requires InRequest(pc) || (pc.Idle? && pc.last.Some?)
  {
    if pc.Idle? then pc.last.value.req else pc.req
  }

  /** Thread `t` made its request at step `from` and has been working on it ever since. */
  ghost predicate Working(run: seq<State>, events: seq<Event>, t: Tid, from: nat, n: nat)
    requires |run| == |events| + 1 && n < |run|
  {
    && from < n && events[from].thread == t && events[from].action.Request?
    && t in run[from].pcs && run[from].pcs[t].Idle?
    && forall j :: from < j <= n ==>
         t in run[j].pcs && InRequest(run[j].pcs[t]) && ReqOf(run[j].pcs[t]) == events[from].action.req
  }

  /** A step of thread `t` that reads how much room the space it is at has. */
  predicate Reads(max: seq<nat>, s: State, t: Tid) {
    && t in s.pcs && (s.pcs[t].Scanning? || s.pcs[t].Making?)
    && s.pcs[t].i < |max| == |s.reserved|
  }

  /** The space thread `t` reads in a step, with the room it has. */
  function NewlyRead(max: seq<nat>, s: State, e: Event, t: Tid): set<(nat, nat)> {
    if e.thread == t && Reads(max, s, t) then {(s.pcs[t].i, Room(max, s, s.pcs[t].i))} else {}
  }

  /** The spaces thread `t` has read since step `from`, each with the room it had. */
  function ReadSince(max: seq<nat>, run: seq<State>, events: seq<Event>, t: Tid, from: nat, n: nat): set<(nat, nat)>
    requires from <= n <= |events| < |run|
  {
    if n == from then {}
    else ReadSince(max, run, events, t, from, n - 1) + NewlyRead(max, run[n - 1], events[n - 1], t)
  }

  lemma {:induction false} ReadWasRoom(max: seq<nat>, run: seq<State>, events: seq<Event>, t: Tid, from: nat, n: nat,
                                       i: nat, room: nat)
    returns (k: nat)
    requires from <= n <= |events| < |run| && (i, room) in ReadSince(max, run, events, t, from, n)
    ensures from <= k < n && events[k].thread == t && Reads(max, run[k], t)
    ensures i < |max| == |run[k].reserved| && Room(max, run[k], i) == room
  {
    if (i, room) in NewlyRead(max, run[n - 1], events[n - 1], t) {
      k := n - 1;
    } else {
      k := ReadWasRoom(max, run, events, t, from, n - 1, i, room);
    }
  }

  // ---- what a thread goes by, it has read ----

  /** The hints of the matches before `i`, as far as the first pass has looked. */
  ghost predicate HintsRead(read: set<(nat, nat)>, req: Req, shown: seq<Seen>, i: nat)
    requires |shown| == |req.matching|
  {
    forall j: nat :: j < i && j < |shown| && req.matching[j] && NoneHinted(req, shown, j) ==> (j, shown[j].hint) in read
  }

  /** All hints, and what the swap loop of the first match that showed room has seen. */
  ghost predicate FirstPassRead(read: set<(nat, nat)>, req: Req, shown: seq<Seen>)
    requires |shown| == |req.matching|
  {
    && HintsRead(read, req, shown, |shown|)
    && forall j: nat :: j < |shown| && req.matching[j] && req.bytes <= shown[j].hint && NoneHinted(req, shown, j) ==>
         (j, shown[j].atSwap) in read
  }

  /** All of that, and what the second pass has seen of the first match, if it has come to that. */
  ghost predicate AllRead(read: set<(nat, nat)>, req: Req, shown: seq<Seen>)
    requires |shown| == |req.matching|
  {
    && FirstPassRead(read, req, shown)
    && var m := First(req.matching);
       FirstPassFailed(req, shown) && m < |shown| ==> (m, shown[m].later) in read
  }

  ghost predicate Honest(read: set<(nat, nat)>, pc: PC) {
    match pc
    case Scanning(req, shown, i) => |shown| == |req.matching| && HintsRead(read, req, shown, i)
    case Making(req, shown, i, seen, first) =>
      && i < |shown| == |req.matching|
      && if first then HintsRead(read, req, shown, i + 1) && (seen.Some? ==> (i, shown[i].atSwap) in read)
         else FirstPassRead(read, req, shown) && (seen.Some? ==> (i, shown[i].later) in read)
    case Turning(req, shown) => |shown| == |req.matching| && FirstPassRead(read, req, shown)
    case Counting(req, shown, i) => |shown| == |req.matching| && AllRead(read, req, shown)
    case Idle(last) =>
      last.Some? ==>
        |last.value.shown| == |last.value.req.matching| && AllRead(read, last.value.req, last.value.shown)
    case _ => true
  }

  lemma MoreRead(read: set<(nat, nat)>, more: set<(nat, nat)>, pc: PC)
    requires Honest(read, pc)
    ensures Honest(read + more, pc)
  {}

  /** The first pass has found a match with room: what there is behind it does not matter. */
  lemma FirstPassEnds(read: set<(nat, nat)>, req: Req, shown: seq<Seen>, i: nat)
    requires |shown| == |req.matching| && i < |shown| && req.matching[i] && req.bytes <= shown[i].hint
    requires NoneHinted(req, shown, i) && HintsRead(read, req, shown, i + 1) && (i, shown[i].atSwap) in read
    ensures FirstPassRead(read, req, shown)
  {
    assert forall j: nat :: j < |shown| && j > i ==> !NoneHinted(req, shown, j);
    assert forall j: nat :: j < i && req.matching[j] && NoneHinted(req, shown, i) ==> !(req.bytes <= shown[j].hint);
  }

  lemma ReloadIsHonest(max: seq<nat>, read: set<(nat, nat)>, pc: PC, cur: nat)
    requires PcInv(max, pc) && pc.Making? && Honest(read, pc)
    ensures var room := RoomAt(max[pc.i], cur);
            Honest(read + {(pc.i, room)}, Reload(pc, cur, room))
  {
    var room := RoomAt(max[pc.i], cur);
    var shown := Note(pc.shown, pc.i, pc.first, room);
    var read' := read + {(pc.i, room)};
    ReloadKeepsPc(max, pc, cur);
    NoteKeeps(pc.req, pc.shown, pc.i, pc.first, room);
    if pc.first {
      assert HintsRead(read', pc.req, shown, pc.i + 1);
      FirstPassEnds(read', pc.req, shown, pc.i);
    } else {
      assert FirstPassRead(read', pc.req, shown);
    }
  }

  lemma ChargeIsHonest(max: seq<nat>, read: set<(nat, nat)>, pc: PC)
    requires PcInv(max, pc) && pc.Making? && pc.seen.Some? && Honest(read, pc)
    ensures Honest(read, Counting(pc.req, pc.shown, pc.i))
  {
    ChargeKeepsPc(max, pc);
    if pc.first { FirstPassEnds(read, pc.req, pc.shown, pc.i); }
  }

  /** The two ways a step of a swap loop can go. */
  lemma NextIsHonest(max: seq<nat>, read: set<(nat, nat)>, pc: PC, cur: nat, wins: bool, pc': PC)
    requires PcInv(max, pc) && pc.Making? && Honest(read, pc) && (wins ==> pc.seen.Some?)
    requires pc' == if wins then Counting(pc.req, pc.shown, pc.i) else Reload(pc, cur, RoomAt(max[pc.i], cur))
    ensures Honest(read + {(pc.i, RoomAt(max[pc.i], cur))}, pc')
  {
    if wins {
      ChargeIsHonest(max, read, pc);
      MoreRead(read, {(pc.i, RoomAt(max[pc.i], cur))}, pc');
    } else {
      ReloadIsHonest(max, read, pc, cur);
    }
  }

  lemma MakingIsHonest(max: seq<nat>, s: State, t: Tid, a: Action, read: set<(nat, nat)>)
    requires Enabled(max, s, t, a) && s.pcs[t].Making? && PcInv(max, s.pcs[t])
    requires Honest(read, s.pcs[t])
    ensures var pc' := Apply(max, s, t, a).pcs[t];
            Honest(read + {(s.pcs[t].i, Room(max, s, s.pcs[t].i))}, pc')
  {
    var pc := s.pcs[t];
    MakingMoves(max, s, t, a);
    NextIsHonest(max, read, pc, s.reserved[pc.i], Wins(max, s, t, a), Apply(max, s, t, a).pcs[t]);
  }

  lemma LookIsHonest(max: seq<nat>, s: State, t: Tid, read: set<(nat, nat)>)
    requires Enabled(max, s, t, Look) && PcInv(max, s.pcs[t]) && Honest(read, s.pcs[t])
    ensures var pc' := Apply(max, s, t, Look).pcs[t];
            Honest(read + {(s.pcs[t].i, Room(max, s, s.pcs[t].i))}, pc')
  {
    LookKeepsPc(max, s, t);
  }

  lemma TurnIsHonest(max: seq<nat>, s: State, t: Tid, read: set<(nat, nat)>)
    requires Enabled(max, s, t, Turn) && PcInv(max, s.pcs[t]) && Honest(read, s.pcs[t])
    ensures Honest(read, Apply(max, s, t, Turn).pcs[t])
  {
    var pc := s.pcs[t];
    TurnKeepsPc(max, s, t);
    if pc.Scanning? { assert FirstPassRead(read, pc.req, pc.shown); }
  }

  // ---- runs ----

  /** How a thread gets to be in a request after a step: by making it, or by one more step of it. */
  lemma StepToRequest(max: seq<nat>, s: State, e: Event, s': State, t: Tid)
    requires Enabled(max, s, e.thread, e.action) && s' == Apply(max, s, e.thread, e.action)
    requires t in s'.pcs && InRequest(s'.pcs[t])
    ensures t in s.pcs
    ensures e.thread != t ==> s'.pcs[t] == s.pcs[t]
    ensures e.thread == t && e.action.Request? ==>
              s.pcs[t].Idle? && s'.pcs[t] == Scanning(e.action.req, seq(|max|, _ => Seen(0, 0, 0)), 0)
    ensures e.thread == t && !e.action.Request? ==>
              InRequest(s.pcs[t]) && !s.pcs[t].Counting? && ReqOf(s'.pcs[t]) == ReqOf(s.pcs[t])
    ensures !s'.pcs[t].Counting? && e.thread == t ==> s'.reserved == s.reserved
  {}

  /** What a step of a request adds to what was read is all its thread goes by from then on. */
  lemma StepIsHonest(max: seq<nat>, s: State, t: Tid, a: Action, read: set<(nat, nat)>)
    requires Enabled(max, s, t, a) && InRequest(s.pcs[t])
    requires PcInv(max, s.pcs[t]) && Honest(read, s.pcs[t])
    ensures var pc' := Apply(max, s, t, a).pcs[t];
            Honest(read + NewlyRead(max, s, Event(t, a), t), pc')
  {
    var pc := s.pcs[t];
    var more := NewlyRead(max, s, Event(t, a), t);
    if pc.Making? {
      MakingIsHonest(max, s, t, a, read);
    } else if a.Look? {
      LookIsHonest(max, s, t, read);
    } else if a.Turn? {
      TurnIsHonest(max, s, t, read);
      MoreRead(read, more, Apply(max, s, t, a).pcs[t]);
    } else {
      assert pc.Counting? && more == {} && read + more == read;
    }
  }

  lemma {:induction false} WorkingSince(max: seq<nat>, threads: set<Tid>, run: seq<State>, events: seq<Event>, t: Tid,
                                        n: nat)
    returns (from: nat)
    requires IsRun(max, threads, run, events) && n < |run| && t in run[n].pcs && InRequest(run[n].pcs[t])
    ensures Working(run, events, t, from, n)
  {
    var e := events[n - 1];
    assert StepAt(max, run, events, n - 1);
    StepToRequest(max, run[n - 1], e, run[n], t);
    if e.thread == t && e.action.Request? {
      from := n - 1;
    } else {
      from := WorkingSince(max, threads, run, events, t, n - 1);
    }
  }

  lemma PcInvAt(max: seq<nat>, threads: set<Tid>, run: seq<State>, events: seq<Event>, t: Tid, n: nat)
    requires IsRun(max, threads, run, events) && n < |run| && t in run[n].pcs
    ensures PcInv(max, run[n].pcs[t])
  {
    RunKeepsInv(max, threads, run, events, n);
  }

  lemma FirstStep(max: seq<nat>, threads: set<Tid>, run: seq<State>, events: seq<Event>, t: Tid, from: nat)
    requires IsRun(max, threads, run, events) && from < |events| && Working(run, events, t, from, from + 1)
    ensures Honest(ReadSince(max, run, events, t, from, from + 1), run[from + 1].pcs[t])
  {
    PcInvAt(max, threads, run, events, t, from + 1);
    assert StepAt(max, run, events, from);
    StepToRequest(max, run[from], events[from], run[from + 1], t);
  }

  /** The same for any step, be it another thread's. */
  lemma AnyStepIsHonest(max: seq<nat>, s: State, e: Event, s': State, t: Tid, read: set<(nat, nat)>)
    requires Enabled(max, s, e.thread, e.action) && s' == Apply(max, s, e.thread, e.action)
    requires t in s.pcs && InRequest(s.pcs[t]) && PcInv(max, s.pcs[t]) && Honest(read, s.pcs[t])
    ensures t in s'.pcs && Honest(read + NewlyRead(max, s, e, t), s'.pcs[t])
  {
    OnlyOwnPc(max, s, e.thread, e.action);
    if e.thread == t {
      StepIsHonest(max, s, t, e.action, read);
    } else {
      assert read + NewlyRead(max, s, e, t) == read;
    }
  }

  lemma OneMoreStep(max: seq<nat>, threads: set<Tid>, run: seq<State>, events: seq<Event>, t: Tid, from: nat, n: nat)
    requires IsRun(max, threads, run, events) && from < n <= |events|
    requires t in run[n - 1].pcs && InRequest(run[n - 1].pcs[t])
    requires Honest(ReadSince(max, run, events, t, from, n - 1), run[n - 1].pcs[t])
    ensures t in run[n].pcs && Honest(ReadSince(max, run, events, t, from, n), run[n].pcs[t])
  {
    assert StepAt(max, run, events, n - 1);
    PcInvAt(max, threads, run, events, t, n - 1);
    var s, e, read := run[n - 1], events[n - 1], ReadSince(max, run, events, t, from, n - 1);
    AnyStepIsHonest(max, s, e, run[n], t, read);
    assert ReadSince(max, run, events, t, from, n) == read + NewlyRead(max, s, e, t);
  }

  /** Whatever the schedule, a thread in the middle of a request goes by nothing but what it has read since. */
  lemma {:induction false} HonestSince(max: seq<nat>, threads: set<Tid>, run: seq<State>, events: seq<Event>, t: Tid,
                                       from: nat, n: nat)
    requires IsRun(max, threads, run, events) && n < |run| && Working(run, events, t, from, n)
    ensures Honest(ReadSince(max, run, events, t, from, n), run[n].pcs[t])
  {
    if n == from + 1 {
      FirstStep(max, threads, run, events, t, from);
    } else {
      assert Working(run, events, t, from, n - 1);
      HonestSince(max, threads, run, events, t, from, n - 1);
      OneMoreStep(max, threads, run, events, t, from, n);
    }
  }

  /** Step `n` is the one on which thread `t` answers its request. */
  ghost predicate Answers(run: seq<State>, events: seq<Event>, t: Tid, n: nat)
    requires |run| == |events| + 1 && n < |events|
  {
    && events[n].thread == t && t in run[n].pcs && InRequest(run[n].pcs[t])
    && t in run[n + 1].pcs && run[n + 1].pcs[t].Idle? && run[n + 1].pcs[t].last.Some?
  }

  lemma AnswerKeepsReq(max: seq<nat>, s: State, t: Tid, a: Action)
    requires Enabled(max, s, t, a) && InRequest(s.pcs[t])
    requires var pc' := Apply(max, s, t, a).pcs[t]; pc'.Idle? && pc'.last.Some?
    ensures ReqOf(Apply(max, s, t, a).pcs[t]) == ReqOf(s.pcs[t])
  {}

  lemma AnswerFollows(max: seq<nat>, threads: set<Tid>, run: seq<State>, events: seq<Event>, t: Tid, n: nat)
    returns (from: nat)
    requires IsRun(max, threads, run, events) && n < |events| && Answers(run, events, t, n)
    ensures Working(run, events, t, from, n)
    ensures var ans := run[n + 1].pcs[t].last.value;
            && ans.req == events[from].action.req && |ans.shown| == |ans.req.matching| == |max|
            && ans.outcome == Decide(ans.req.matching, ans.req.bytes, ans.shown)
  {
    RequestsEndAsDecided(max, threads, run, events, n + 1, t);
    assert StepAt(max, run, events, n);
    AnswerKeepsReq(max, run[n], t, events[n].action);
    from := WorkingSince(max, threads, run, events, t, n);
  }

  lemma AnswerWasRead(max: seq<nat>, threads: set<Tid>, run: seq<State>, events: seq<Event>, t: Tid,
                      from: nat, n: nat, ans: Answer)
    requires IsRun(max, threads, run, events) && n < |events| && Answers(run, events, t, n)
    requires Working(run, events, t, from, n) && ans == run[n + 1].pcs[t].last.value
    ensures |ans.shown| == |ans.req.matching|
    ensures AllRead(ReadSince(max, run, events, t, from, n + 1), ans.req, ans.shown)
  {
    HonestSince(max, threads, run, events, t, from, n);
    OneMoreStep(max, threads, run, events, t, from, n + 1);
    assert run[n + 1].pcs[t].last.value == ans;
  }

  lemma AnswerIsHonest(max: seq<nat>, threads: set<Tid>, run: seq<State>, events: seq<Event>, t: Tid, n: nat)
    returns (from: nat)
    requires IsRun(max, threads, run, events) && n < |events| && Answers(run, events, t, n)
    ensures Working(run, events, t, from, n)
    ensures var ans := run[n + 1].pcs[t].last.value;
            && ans.req == events[from].action.req && |ans.shown| == |ans.req.matching| == |max|
            && ans.outcome == Decide(ans.req.matching, ans.req.bytes, ans.shown)
            && AllRead(ReadSince(max, run, events, t, from, n + 1), ans.req, ans.shown)
  {
    from := AnswerFollows(max, threads, run, events, t, n);
    AnswerWasRead(max, threads, run, events, t, from, n, run[n + 1].pcs[t].last.value);
  }

  /** At some moment from step `from` to step `n` the room of space `i` was below `bytes`, or it was not. */
  ghost predicate WasShort(max: seq<nat>, run: seq<State>, from: nat, n: nat, i: nat, bytes: nat)
    requires n < |run| && i < |max|
  {
    exists k :: from <= k <= n && |run[k].reserved| == |max| && Room(max, run[k], i) < bytes
  }

  ghost predicate HadRoom(max: seq<nat>, run: seq<State>, from: nat, n: nat, i: nat, bytes: nat)
    requires n < |run| && i < |max|
  {
    exists k :: from <= k <= n && |run[k].reserved| == |max| && bytes <= Room(max, run[k], i)
  }

  lemma ReadMeansWas(max: seq<nat>, run: seq<State>, events: seq<Event>, t: Tid, from: nat, n: nat,
                     i: nat, room: nat, bytes: nat)
    requires from <= n < |events| < |run| && i < |max|
    requires (i, room) in ReadSince(max, run, events, t, from, n + 1)
    ensures if bytes <= room then HadRoom(max, run, from, n, i, bytes) else WasShort(max, run, from, n, i, bytes)
  {
    var k := ReadWasRoom(max, run, events, t, from, n + 1, i, room);
    assert Room(max, run[k], i) == room;
  }

  /** Every answer is borne out, whatever the schedule. Up to some space `h` each match was short of room at some
      moment since the request was made, and `h`, if there is one, had room. A request that is granted gets `h`, or
      else `h` was also short at some moment and it gets the first match, which had room. A request that comes back
      empty has found `h` short as well. An exception means that no space matches. */
  lemma AnswersInOrder(max: seq<nat>, threads: set<Tid>, run: seq<State>, events: seq<Event>, t: Tid, n: nat)
    returns (from: nat, h: nat)
    requires IsRun(max, threads, run, events) && n < |events| && Answers(run, events, t, n)
    ensures Working(run, events, t, from, n) && |events[from].action.req.matching| == |max| && h <= |max|
    ensures var req := events[from].action.req;
            && (forall j: nat :: j < h && req.matching[j] ==> WasShort(max, run, from, n, j, req.bytes))
            && (h < |max| ==> req.matching[h] && HadRoom(max, run, from, n, h, req.bytes))
            && match run[n + 1].pcs[t].last.value.outcome {
                 case Space(k) =>
                   && k < |max| && HadRoom(max, run, from, n, k, req.bytes)
                   && (k == h || (k == First(req.matching)
                                  && (h < |max| ==> WasShort(max, run, from, n, h, req.bytes))))
                 case NoRoom => h < |max| ==> WasShort(max, run, from, n, h, req.bytes)
                 case NoMatch => forall j :: 0 <= j < |max| ==> !req.matching[j]
               }
  {
    from := AnswerIsHonest(max, threads, run, events, t, n);
    var req, shown := events[from].action.req, run[n + 1].pcs[t].last.value.shown;
    var flags := Hinted(req.matching, req.bytes, shown);
    h := First(flags);
    forall j: nat | j < h && req.matching[j] ensures WasShort(max, run, from, n, j, req.bytes) {
      HintWasRead(max, run, events, t, from, n, req, shown, j);
    }
    if h < |max| {
      HintWasRead(max, run, events, t, from, n, req, shown, h);
      ReadMeansWas(max, run, events, t, from, n, h, shown[h].atSwap, req.bytes);
    }
    if h == |max| || req.bytes > shown[h].atSwap {
      SecondPassWasRead(max, run, events, t, from, n, req, shown);
    }
  }

  lemma HintWasRead(max: seq<nat>, run: seq<State>, events: seq<Event>, t: Tid, from: nat, n: nat,
                    req: Req, shown: seq<Seen>, j: nat)
    requires from <= n < |events| < |run| && |shown| == |req.matching| == |max|
    requires AllRead(ReadSince(max, run, events, t, from, n + 1), req, shown)
    requires j < |max| && j <= First(Hinted(req.matching, req.bytes, shown)) && req.matching[j]
    ensures (j, shown[j].hint) in ReadSince(max, run, events, t, from, n + 1)
    ensures if req.bytes <= shown[j].hint then HadRoom(max, run, from, n, j, req.bytes)
            else WasShort(max, run, from, n, j, req.bytes)
    ensures req.bytes <= shown[j].hint ==> (j, shown[j].atSwap) in ReadSince(max, run, events, t, from, n + 1)
  {
    var flags := Hinted(req.matching, req.bytes, shown);
    assert NoneHinted(req, shown, j) by {
      forall i: nat | i < j ensures !(req.matching[i] && req.bytes <= shown[i].hint) { assert !flags[i]; }
    }
    ReadMeansWas(max, run, events, t, from, n, j, shown[j].hint, req.bytes);
  }

  lemma SecondPassWasRead(max: seq<nat>, run: seq<State>, events: seq<Event>, t: Tid, from: nat, n: nat,
                          req: Req, shown: seq<Seen>)
    requires from <= n < |events| < |run| && |shown| == |req.matching| == |max|
    requires AllRead(ReadSince(max, run, events, t, from, n + 1), req, shown)
    requires var h := First(Hinted(req.matching, req.bytes, shown)); h < |max| ==> shown[h].atSwap < req.bytes
    ensures var m := First(req.matching);
            m < |max| ==>
              && (m, shown[m].later) in ReadSince(max, run, events, t, from, n + 1)
              && if req.bytes <= shown[m].later then HadRoom(max, run, from, n, m, req.bytes)
                 else WasShort(max, run, from, n, m, req.bytes)
  {
    var m, flags := First(req.matching), Hinted(req.matching, req.bytes, shown);
    forall j: nat | j < |shown| && req.matching[j] && req.bytes <= shown[j].hint && NoneHinted(req, shown, j)
      ensures shown[j].atSwap < req.bytes
    {
      HintedMeansFirst(req, shown, j);
    }
    if m < |max| { ReadMeansWas(max, run, events, t, from, n, m, shown[m].later, req.bytes); }
  }

  // ---- a request nobody interferes with ----

  ghost predicate OnlyMoves(events: seq<Event>, t: Tid, from: nat, n: nat)
    requires n <= |events|
  {
    forall j :: from <= j < n ==> events[j].thread == t
  }

  lemma {:induction false} QuietWork(max: seq<nat>, threads: set<Tid>, run: seq<State>, events: seq<Event>, t: Tid,
                                     from: nat, n: nat)
    requires IsRun(max, threads, run, events) && n < |run| && Working(run, events, t, from, n)
    requires OnlyMoves(events, t, from, n) && !run[n].pcs[t].Counting?
    ensures run[n].reserved == run[from].reserved
  {
    assert StepAt(max, run, events, n - 1);
    StepToRequest(max, run[n - 1], events[n - 1], run[n], t);
    if n > from + 1 {
      assert Working(run, events, t, from, n - 1);
      QuietWork(max, threads, run, events, t, from, n - 1);
    }
  }

  lemma QuietRead(max: seq<nat>, threads: set<Tid>, run: seq<State>, events: seq<Event>, t: Tid, from: nat, n: nat,
                  i: nat, room: nat)
    requires IsRun(max, threads, run, events) && n < |events| && Working(run, events, t, from, n)
    requires OnlyMoves(events, t, from, n + 1) && (i, room) in ReadSince(max, run, events, t, from, n + 1)
    ensures i < |max| == |run[from].reserved| && room == Room(max, run[from], i)
  {
    var k := ReadWasRoom(max, run, events, t, from, n + 1, i, room);
    assert Working(run, events, t, from, k);
    QuietWork(max, threads, run, events, t, from, k);
  }

  /** If no other thread steps in between, a request gets the first matching space that had room as it was made,
      comes back empty exactly if some space matches and none of those had room, and throws exactly if none does,
      however often its swaps fail for no reason. */
  lemma QuietRequestIsExact(max: seq<nat>, threads: set<Tid>, run: seq<State>, events: seq<Event>, t: Tid, n: nat)
    returns (from: nat)
    requires IsRun(max, threads, run, events) && n < |events| && Answers(run, events, t, n)
    ensures Working(run, events, t, from, n) && |events[from].action.req.matching| == |max| == |run[from].reserved|
    ensures var req, s := events[from].action.req, run[from];
            OnlyMoves(events, t, from, n + 1) ==>
              match run[n + 1].pcs[t].last.value.outcome {
                case Space(k) =>
                  && k < |max| && req.matching[k] && req.bytes <= Room(max, s, k)
                  && forall j: nat :: j < k ==> !(req.matching[j] && req.bytes <= Room(max, s, j))
                case NoRoom =>
                  && (exists j: nat :: j < |max| && req.matching[j])
                  && forall j: nat :: j < |max| ==> !(req.matching[j] && req.bytes <= Room(max, s, j))
                case NoMatch => forall j: nat :: j < |max| ==> !req.matching[j]
              }
  {
    from := AnswerIsHonest(max, threads, run, events, t, n);
    CountersAreExact(max, threads, run, events, from);
    if OnlyMoves(events, t, from, n + 1) {
      var req, shown := events[from].action.req, run[n + 1].pcs[t].last.value.shown;
      var h := First(Hinted(req.matching, req.bytes, shown));
      forall j: nat | j <= h && j < |max| && req.matching[j] ensures shown[j].hint == Room(max, run[from], j) {
        HintWasRead(max, run, events, t, from, n, req, shown, j);
        QuietRead(max, threads, run, events, t, from, n, j, shown[j].hint);
      }
      if h < |max| {
        HintWasRead(max, run, events, t, from, n, req, shown, h);
        QuietRead(max, threads, run, events, t, from, n, h, shown[h].atSwap);
      } else if First(req.matching) < |max| {
        SecondPassWasRead(max, run, events, t, from, n, req, shown);
        QuietRead(max, threads, run, events, t, from, n, First(req.matching), shown[First(req.matching)].later);
      }
    }
  }

  /** No thread is ever stuck in the middle of a request or of a release. */
  lemma NobodyIsStuck(max: seq<nat>, threads: set<Tid>, run: seq<State>, events: seq<Event>, n: nat, t: Tid)
    requires IsRun(max, threads, run, events) && n < |run| && t in run[n].pcs && !run[n].pcs[t].Idle?
    ensures exists a: Action :: Enabled(max, run[n], t, a)
  {
    var s, pc := run[n], run[n].pcs[t];
    CountersAreExact(max, threads, run, events, n);
    PcInvAt(max, threads, run, events, t, n);
    match pc
    case Scanning(_, _, i) => assert Enabled(max, s, t, if i < |max| then Look else Turn);
    case Turning(_, _) => assert Enabled(max, s, t, Turn);
    case Making(_, _, _, seen, _) => assert Enabled(max, s, t, if seen.None? then Load else Swap(false));
    case Crediting(_, _, seen) => assert Enabled(max, s, t, if seen.None? then Load else Swap(false));
    case Discounting => assert Enabled(max, s, t, Discount);
    case Counting(_, _, _) =>
      var h := Unused(s.out.Keys);
      assert Enabled(max, s, t, Count(h));
  }
}
