/** When a reservation request can come back empty although a matching space has room: over all runs of all
    schedules, exactly when a match behind the first one is large enough to serve it. */
module RequestCompleteness {
  import opened Search
  import opened Sums
  import opened RequestDecision
  import opened RequestRace

  /** Step `n` is the read on which a request for `req` comes back without room. */
  ghost predicate ComesBackEmpty(run: seq<State>, events: seq<Event>, n: nat, req: Req) {
    && n < |events| && |run| == |events| + 1
    && var t := events[n].thread;
    && t in run[n].pcs && t in run[n + 1].pcs
    && run[n].pcs[t].Making? && run[n].pcs[t].req == req
    && run[n + 1].pcs[t].Idle? && run[n + 1].pcs[t].last.Some? && run[n + 1].pcs[t].last.value.outcome.NoRoom?
  }

  ghost predicate RoomSomewhere(max: seq<nat>, s: State, req: Req) {
    |req.matching| == |max| == |s.reserved| &&
    exists j: nat :: j < |max| && req.matching[j] && req.bytes <= Room(max, s, j)
  }

  /** The request asks for nothing, or no match behind the first one is large enough for it. */
  predicate OnlyFirstCanServe(matching: seq<bool>, bytes: nat, max: seq<nat>)
    requires |max| == |matching|
  {
    bytes == 0 || forall j :: First(matching) < j < |matching| && matching[j] ==> max[j] < bytes
  }

  /** Whatever the schedule, the request comes back empty only while no matching space has room. */
  ghost predicate CompleteOnAllRuns(max: seq<nat>, req: Req) {
    forall threads, run, events, n: nat | IsRun(max, threads, run, events) && ComesBackEmpty(run, events, n, req) ::
      !RoomSomewhere(max, run[n], req)
  }

  /** A step on which a thread comes back empty is a read of the first match, in the second pass. */
  lemma EmptyStep(max: seq<nat>, s: State, t: Tid, a: Action)
    requires Enabled(max, s, t, a) && s.pcs[t].Making? && PcInv(max, s.pcs[t])
    requires var pc' := Apply(max, s, t, a).pcs[t]; pc'.Idle? && pc'.last.Some? && pc'.last.value.outcome.NoRoom?
    ensures var pc := s.pcs[t];
            |pc.req.matching| == |max| && pc.i == First(pc.req.matching) < |max| && pc.req.bytes > Room(max, s, pc.i)
  {}

  lemma EmptyMeansNoRoom(max: seq<nat>, threads: set<Tid>, run: seq<State>, events: seq<Event>, n: nat, req: Req)
    requires IsRun(max, threads, run, events) && ComesBackEmpty(run, events, n, req)
    requires |req.matching| == |max| && OnlyFirstCanServe(req.matching, req.bytes, max)
    ensures !RoomSomewhere(max, run[n], req)
  {
    var s, t := run[n], events[n].thread;
    RunKeepsInv(max, threads, run, events, n);
    assert StepAt(max, run, events, n);
    EmptyStep(max, s, t, events[n].action);
    NoneButFirst(max, s, req);
  }

  lemma NoneButFirst(max: seq<nat>, s: State, req: Req)
    requires |req.matching| == |max| == |s.reserved| && OnlyFirstCanServe(req.matching, req.bytes, max)
    requires First(req.matching) < |max| && req.bytes > Room(max, s, First(req.matching))
    ensures !RoomSomewhere(max, s, req)
  {
    forall j: nat | j < |max| ensures !(req.matching[j] && req.bytes <= Room(max, s, j)) {
      assert j < First(req.matching) ==> !req.matching[j];
    }
  }

  // ---- building the bad schedule ----

  lemma Extend(max: seq<nat>, run: seq<State>, events: seq<Event>, e: Event)
    returns (run': seq<State>, events': seq<Event>)
    requires IsRun(max, {0, 1}, run, events) && Enabled(max, run[|events|], e.thread, e.action)
    ensures IsRun(max, {0, 1}, run', events') && |events'| == |events| + 1
    ensures run'[|events'|] == Apply(max, run[|events|], e.thread, e.action)
    ensures run'[..|run|] == run && events'[..|events|] == events && events'[|events|] == e
  {
    run', events' := run + [Apply(max, run[|events|], e.thread, e.action)], events + [e];
    forall i | 0 <= i < |events'| ensures StepAt(max, run', events', i) {
      if i < |events| { assert StepAt(max, run, events, i); }
    }
  }

  /** Only thread `t` has moved, and no counter has. */
  ghost predicate Beside(s: State, s': State, t: Tid) {
    && s'.reserved == s.reserved && s'.out == s.out
    && s.pcs.Keys == s'.pcs.Keys && forall u :: u in s.pcs && u != t ==> s'.pcs[u] == s.pcs[u]
  }

  ghost predicate InLoop(pc: PC, req: Req, i: nat, first: bool) {
    pc.Making? && pc.req == req && pc.i == i && pc.seen.None? && pc.first == first && |pc.shown| == |req.matching|
  }

  /** The first pass walks past every space without room, up to the first match that has some. */
  lemma {:induction false} Walk(max: seq<nat>, r: seq<State>, e: seq<Event>, t: Tid, k: nat)
    returns (run: seq<State>, events: seq<Event>)
    requires IsRun(max, {0, 1}, r, e) && t in r[|e|].pcs && r[|e|].pcs[t].Scanning?
    requires var s, pc := r[|e|], r[|e|].pcs[t];
             && |pc.shown| == |pc.req.matching| == |max| == |s.reserved| && pc.i <= k < |max|
             && pc.req.matching[k] && pc.req.bytes <= Room(max, s, k)
             && forall x: nat :: pc.i <= x < k ==> !(pc.req.matching[x] && pc.req.bytes <= Room(max, s, x))
    ensures IsRun(max, {0, 1}, run, events) && Beside(r[|e|], run[|events|], t)
    ensures InLoop(run[|events|].pcs[t], r[|e|].pcs[t].req, k, true)
    decreases k - r[|e|].pcs[t].i
  {
    run, events := Extend(max, r, e, Event(t, Look));
    if r[|e|].pcs[t].i < k {
      var s := run[|events|];
      assert forall x: nat :: x < |max| ==> Room(max, s, x) == Room(max, r[|e|], x);
      run, events := Walk(max, run, events, t, k);
    }
  }

  lemma Arrive(max: seq<nat>, r: seq<State>, e: seq<Event>, t: Tid, req: Req, k: nat)
    returns (run: seq<State>, events: seq<Event>)
    requires IsRun(max, {0, 1}, r, e) && t in r[|e|].pcs && r[|e|].pcs[t].Idle?
    requires |req.matching| == |max| == |r[|e|].reserved| && k < |max| && req.matching[k]
    requires req.bytes <= Room(max, r[|e|], k)
    requires forall x: nat :: x < k ==> !(req.matching[x] && req.bytes <= Room(max, r[|e|], x))
    ensures IsRun(max, {0, 1}, run, events) && Beside(r[|e|], run[|events|], t)
    ensures InLoop(run[|events|].pcs[t], req, k, true)
  {
    run, events := Extend(max, r, e, Event(t, Request(req)));
    var s := run[|events|];
    assert forall x: nat :: x < |max| ==> Room(max, s, x) == Room(max, r[|e|], x);
    run, events := Walk(max, run, events, t, k);
  }

  /** Space `k` holds `v` bytes and the others none. */
  ghost predicate Holding(max: seq<nat>, s: State, k: nat, v: nat) {
    |s.reserved| == |max| && forall x: nat :: x < |max| ==> s.reserved[x] == if x == k then v else 0
  }

  /** Thread 1 takes all of space `k`. */
  lemma TakeAll(max: seq<nat>, r: seq<State>, e: seq<Event>, k: nat) returns (run: seq<State>, events: seq<Event>)
    requires IsRun(max, {0, 1}, r, e) && k < |max| && max[k] > 0
    requires var s := r[|e|]; Holding(max, s, k, 0) && s.out == map[] && 0 in s.pcs && 1 in s.pcs && s.pcs[1].Idle?
    ensures IsRun(max, {0, 1}, run, events)
    ensures var s := run[|events|];
            && Holding(max, s, k, max[k]) && s.out == map[0 := Issued(k, max[k])]
            && 0 in s.pcs && 1 in s.pcs && s.pcs[0] == r[|e|].pcs[0] && s.pcs[1].Idle?
  {
    var only := Req(seq(|max|, x => x == k), max[k]);
    run, events := Arrive(max, r, e, 1, only, k);
    run, events := Extend(max, run, events, Event(1, Load));
    run, events := Extend(max, run, events, Event(1, Swap(false)));
    run, events := Extend(max, run, events, Event(1, Count(0)));
  }

  /** And gives it back. */
  lemma GiveAllBack(max: seq<nat>, r: seq<State>, e: seq<Event>, k: nat) returns (run: seq<State>, events: seq<Event>)
    requires IsRun(max, {0, 1}, r, e) && k < |max|
    requires var s := r[|e|];
             && Holding(max, s, k, max[k]) && s.out == map[0 := Issued(k, max[k])]
             && 0 in s.pcs && 1 in s.pcs && s.pcs[1].Idle?
    ensures IsRun(max, {0, 1}, run, events)
    ensures var s := run[|events|]; Holding(max, s, k, 0) && 0 in s.pcs && s.pcs[0] == r[|e|].pcs[0]
  {
    run, events := Extend(max, r, e, Event(1, Destroy(0)));
    run, events := Extend(max, run, events, Event(1, Load));
    run, events := Extend(max, run, events, Event(1, Swap(false)));
    run, events := Extend(max, run, events, Event(1, Discount));
  }

  /** Thread 0 finds its space full and turns to the first match of all. */
  lemma LoseTheRace(max: seq<nat>, r: seq<State>, e: seq<Event>, req: Req, k: nat)
    returns (run: seq<State>, events: seq<Event>)
    requires IsRun(max, {0, 1}, r, e) && k < |max| == |req.matching| && req.bytes > 0 && First(req.matching) < |max|
    requires 0 in r[|e|].pcs && InLoop(r[|e|].pcs[0], req, k, true) && Holding(max, r[|e|], k, max[k])
    ensures IsRun(max, {0, 1}, run, events) && Beside(r[|e|], run[|events|], 0)
    ensures InLoop(run[|events|].pcs[0], req, First(req.matching), false)
  {
    run, events := Extend(max, r, e, Event(0, Load));
    run, events := Extend(max, run, events, Event(0, Turn));
  }

  /** With another match `j` large enough: the first large enough match `k` shows room, is filled by a
      rival, and is emptied again unless it is the first match; the first match has no room, `j` or `k` has. */
  lemma BadSchedule(max: seq<nat>, req: Req, j: nat, k: nat) returns (run: seq<State>, events: seq<Event>, n: nat)
    requires |req.matching| == |max| && 0 < req.bytes && First(req.matching) < j < |max| && req.matching[j]
    requires req.bytes <= max[j]
    requires k <= j && req.matching[k] && req.bytes <= max[k]
    requires forall x: nat :: x < k ==> !(req.matching[x] && req.bytes <= max[x])
    ensures IsRun(max, {0, 1}, run, events) && ComesBackEmpty(run, events, n, req) && RoomSomewhere(max, run[n], req)
  {
    var m := First(req.matching);
    run, events := Arrive(max, [Init(max, {0, 1})], [], 0, req, k);
    run, events := TakeAll(max, run, events, k);
    run, events := LoseTheRace(max, run, events, req, k);
    if k != m { run, events := GiveAllBack(max, run, events, k); }
    n := |events|;
    var s, free := run[n], if k == m then j else k;
    assert req.matching[free] && req.bytes <= Room(max, s, free);
    assert RoomSomewhere(max, s, req);
    run, events := Extend(max, run, events, Event(0, Load));
    assert run[n] == s;
  }

  /** The request is complete on all runs exactly if it asks for nothing or no match behind the first one is
      large enough to serve it. */
  lemma CompleteIff(max: seq<nat>, req: Req)
    requires |req.matching| == |max|
    ensures CompleteOnAllRuns(max, req) <==> OnlyFirstCanServe(req.matching, req.bytes, max)
  {
    if OnlyFirstCanServe(req.matching, req.bytes, max) {
      forall threads, run, events, n: nat | IsRun(max, threads, run, events) && ComesBackEmpty(run, events, n, req)
        ensures !RoomSomewhere(max, run[n], req)
      {
        EmptyMeansNoRoom(max, threads, run, events, n, req);
      }
    } else {
      var j: nat :| First(req.matching) < j < |max| && req.matching[j] && max[j] >= req.bytes;
      var large := seq(|max|, x requires 0 <= x < |max| => req.matching[x] && req.bytes <= max[x]);
      var k := First(large);
      assert large[j] && k <= j && large[k];
      forall x: nat | x < k ensures !(req.matching[x] && req.bytes <= max[x]) { assert !large[x]; }
      var run, events, n := BadSchedule(max, req, j, k);
    }
  }

  /** Two matching spaces with room for one byte each: on some run a request for that byte comes back empty
      while a space has it. */
  lemma SecondPassStopsAtFirstMatch() returns (run: seq<State>, events: seq<Event>, n: nat)
    ensures IsRun([1, 1], {0, 1}, run, events)
    ensures ComesBackEmpty(run, events, n, Req([true, true], 1)) && RoomSomewhere([1, 1], run[n], Req([true, true], 1))
  {
    var req := Req([true, true], 1);
    assert req.matching[0] && First(req.matching) == 0;
    run, events, n := BadSchedule([1, 1], req, 1, 0);
  }
}
