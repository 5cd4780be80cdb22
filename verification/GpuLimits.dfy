/** The adaptor's limit under any number of threads: a stream's charge is checked in one locked span and
    raised in another. How far it can exceed the limit, to the byte, and when it cannot. */
module GpuLimits {
  import opened Sums
  import opened GpuBooks
  import opened GpuAdaptorRace

  // ---- the limit ----

  /** Past the limit check for a stream, and not yet charged. */
  predicate Approved(s: State, t: Tid, st: StreamId) {
    t in s.pcs &&
    var pc := s.pcs[t];
    (pc.Trying? || pc.LastResort? || (pc.Holding? && !pc.overridden)) && pc.stream == st
  }

  /** No two allocations on the stream overlap. */
  ghost predicate Solo(s: State, st: StreamId) {
    forall t, u :: Approved(s, t, st) && Approved(s, u, st) ==> t == u
  }

  predicate Overrides(s: State, e: Event, st: StreamId) {
    && e.thread in s.pcs && e.action.Commit?
    && s.pcs[e.thread].Holding? && s.pcs[e.thread].overridden && s.pcs[e.thread].stream == st
  }

  ghost predicate WithinLimit(c: Config, s: State, st: StreamId) {
    && Current(s, st) <= c.limit
    && forall t :: Approved(s, t, st) ==> Current(s, st) + s.pcs[t].bytes <= c.limit
  }

  lemma CommitKeepsLimit(c: Config, s: State, e: Event, st: StreamId)
    requires c.limit != 0 && Enabled(c, s, e.thread, e.action) && e.action.Commit?
    requires WithinLimit(c, s, st) && Solo(s, st) && !Overrides(s, e, st)
    ensures WithinLimit(c, Apply(c, s, e.thread, e.action), st)
  {
    var s', t := Apply(c, s, e.thread, e.action), e.thread;
    if s.pcs[t].stream == st {
      assert Approved(s, t, st);
      assert forall u :: Approved(s', u, st) ==> Approved(s, u, st) && u != t;
    } else {
      assert forall u :: Approved(s', u, st) ==> Approved(s, u, st) && s'.pcs[u] == s.pcs[u];
    }
  }

  lemma StepKeepsLimit(c: Config, s: State, e: Event, st: StreamId)
    requires c.limit != 0 && Enabled(c, s, e.thread, e.action)
    requires WithinLimit(c, s, st) && Solo(s, st) && Solo(Apply(c, s, e.thread, e.action), st) && !Overrides(s, e, st)
    ensures WithinLimit(c, Apply(c, s, e.thread, e.action), st)
  {
    var s', t, a := Apply(c, s, e.thread, e.action), e.thread, e.action;
    if a.Commit? {
      CommitKeepsLimit(c, s, e, st);
      return;
    }
    forall u | Approved(s', u, st) ensures Current(s', st) + s'.pcs[u].bytes <= c.limit {
      if u == t && a.Ask? {
      } else {
        assert Approved(s, u, st);
      }
    }
  }

  /** As long as allocations on a stream do not overlap and no policy recovers one on the limit path,
      the stream's charge never exceeds the limit. */
  lemma {:induction false} LimitHoldsWithoutRaces(c: Config, threads: set<Tid>, run: seq<State>, events: seq<Event>,
                                                  n: nat, st: StreamId)
    requires IsRun(c, threads, run, events) && n < |run| && c.limit != 0
    requires forall i :: 0 <= i <= n ==> Solo(run[i], st)
    requires forall i :: 0 <= i < n ==> !Overrides(run[i], events[i], st)
    ensures WithinLimit(c, run[n], st)
  {
    if n > 0 {
      LimitHoldsWithoutRaces(c, threads, run, events, n - 1, st);
      assert StepAt(c, run, events, n - 1);
      StepKeepsLimit(c, run[n - 1], events[n - 1], st);
    }
  }

  // ---- allocations that overlap ----

  /** Bytes past the check and not charged yet. */
  function ApprovedMap(s: State, st: StreamId): map<Tid, int> {
    map t | t in s.pcs :: if Approved(s, t, st) then s.pcs[t].bytes else 0
  }

  function ApprovedSet(s: State, st: StreamId): set<Tid> { set t | t in s.pcs && Approved(s, t, st) }

  /** At most `k` allocations on the stream overlap, of at most `most` bytes each. */
  ghost predicate Crowd(s: State, st: StreamId, k: nat, most: nat) {
    |ApprovedSet(s, st)| <= k && forall t :: Approved(s, t, st) ==> s.pcs[t].bytes <= most
  }

  /** When a call passes the check, the charge and its bytes are within the limit; the others approved at
      that moment are at most `k - 1`. */
  lemma AskIsBounded(c: Config, s: State, t: Tid, a: Action, st: StreamId, k: nat, most: nat)
    requires c.limit != 0 && k > 0 && Enabled(c, s, t, a) && a.Ask? && a.stream == st
    requires Approved(Apply(c, s, t, a), t, st) && Crowd(Apply(c, s, t, a), st, k, most)
    ensures var s' := Apply(c, s, t, a);
            Current(s', st) + Sum(ApprovedMap(s', st)) <= c.limit + (k - 1) * most
  {
    var s' := Apply(c, s, t, a);
    var m, others := ApprovedMap(s', st), ApprovedSet(s', st) - {t};
    SumSplit(m, t);
    SumAtMost(m - {t}, others, most);
    assert |others| == |ApprovedSet(s', st)| - 1;
    Bigger(|others|, k - 1, most);
  }

  lemma Bigger(a: nat, b: nat, most: nat)
    requires a <= b
    ensures a * most <= b * most
  {}

  /** Any other step moves bytes from approved to charged, or takes some of either away. */
  lemma StepKeepsBound(c: Config, s: State, e: Event, st: StreamId)
    requires Enabled(c, s, e.thread, e.action) && !Overrides(s, e, st)
    requires e.action.Ask? && e.action.stream == st ==> !Approved(Apply(c, s, e.thread, e.action), e.thread, st)
    ensures var s' := Apply(c, s, e.thread, e.action);
            Current(s', st) + Sum(ApprovedMap(s', st)) <= Current(s, st) + Sum(ApprovedMap(s, st))
  {
    OnlyOwnPc(c, s, e.thread, e.action);
    ApprovedMoves(s, Apply(c, s, e.thread, e.action), e.thread, st);
    OwnBound(c, s, e, st);
  }

  function ApprovedBytes(s: State, t: Tid, st: StreamId): nat { if Approved(s, t, st) then s.pcs[t].bytes else 0 }

  lemma ApprovedMoves(s: State, s': State, t: Tid, st: StreamId)
    requires t in s.pcs && t in s'.pcs && s'.pcs == s.pcs[t := s'.pcs[t]]
    ensures Sum(ApprovedMap(s', st)) == Sum(ApprovedMap(s, st)) - ApprovedBytes(s, t, st) + ApprovedBytes(s', t, st)
  {
    assert ApprovedMap(s', st) == ApprovedMap(s, st)[t := ApprovedBytes(s', t, st)];
    SumSet(ApprovedMap(s, st), t, ApprovedBytes(s', t, st));
  }

  lemma OwnBound(c: Config, s: State, e: Event, st: StreamId)
    requires Enabled(c, s, e.thread, e.action) && !Overrides(s, e, st)
    requires e.action.Ask? && e.action.stream == st ==> !Approved(Apply(c, s, e.thread, e.action), e.thread, st)
    ensures var s' := Apply(c, s, e.thread, e.action);
            Current(s', st) + ApprovedBytes(s', e.thread, st) <= Current(s, st) + ApprovedBytes(s, e.thread, st)
  {}

  /** The charge and what is approved stay within the limit and `over` bytes. */
  ghost predicate Bounded(c: Config, s: State, st: StreamId, over: nat) {
    Current(s, st) + Sum(ApprovedMap(s, st)) <= c.limit + over
  }

  lemma StepIsBounded(c: Config, s: State, e: Event, st: StreamId, k: nat, most: nat, over: nat)
    requires c.limit != 0 && k > 0 && over == (k - 1) * most && Enabled(c, s, e.thread, e.action)
    requires !Overrides(s, e, st)
    requires Crowd(Apply(c, s, e.thread, e.action), st, k, most) && Bounded(c, s, st, over)
    ensures Bounded(c, Apply(c, s, e.thread, e.action), st, over)
  {
    if e.action.Ask? && e.action.stream == st && Approved(Apply(c, s, e.thread, e.action), e.thread, st) {
      AskIsBounded(c, s, e.thread, e.action, st, k, most);
    } else {
      StepKeepsBound(c, s, e, st);
    }
  }

  lemma {:induction false} RunIsBounded(c: Config, threads: set<Tid>, run: seq<State>, events: seq<Event>, n: nat,
                                        st: StreamId, k: nat, most: nat, over: nat)
    requires IsRun(c, threads, run, events) && n < |run| && c.limit != 0 && k > 0 && over == (k - 1) * most
    requires forall i :: 0 <= i <= n ==> Crowd(run[i], st, k, most)
    requires forall i :: 0 <= i < n ==> !Overrides(run[i], events[i], st)
    ensures Bounded(c, run[n], st, over)
  {
    if n == 0 {
      SumZero(ApprovedMap(run[0], st));
    } else {
      RunIsBounded(c, threads, run, events, n - 1, st, k, most, over);
      assert StepAt(c, run, events, n - 1);
      StepIsBounded(c, run[n - 1], events[n - 1], st, k, most, over);
    }
  }

  /** Under every schedule: if never more than `k` allocations on a stream overlap, of at most `most` bytes
      each, and no policy recovers one on the limit path, the stream's charge exceeds the limit by no more
      than the bytes of `k - 1` of them. */
  lemma LimitBound(c: Config, threads: set<Tid>, run: seq<State>, events: seq<Event>, n: nat, st: StreamId, k: nat,
                   most: nat)
    requires IsRun(c, threads, run, events) && n < |run| && c.limit != 0 && k > 0
    requires forall i :: 0 <= i <= n ==> Crowd(run[i], st, k, most)
    requires forall i :: 0 <= i < n ==> !Overrides(run[i], events[i], st)
    ensures Current(run[n], st) <= c.limit + (k - 1) * most
  {
    RunIsBounded(c, threads, run, events, n, st, k, most, (k - 1) * most);
    SumBounds(ApprovedMap(run[n], st), 0);
  }

  // ---- the worst that can happen ----

  /** A run that never has more than `k` overlapping calls of at most `most` bytes on stream `st`, and on
      which no policy overrides its limit, up to state `n`. */
  ghost predicate Crowded(c: Config, threads: set<Tid>, run: seq<State>, events: seq<Event>, n: nat,
                          st: StreamId, k: nat, most: nat) {
    && IsRun(c, threads, run, events) && n < |run|
    && (forall i :: 0 <= i <= n ==> Crowd(run[i], st, k, most))
    && (forall i :: 0 <= i < n ==> !Overrides(run[i], events[i], st))
  }

  /** On all such runs the charge of the stream is at most `x`. */
  ghost predicate StaysWithin(c: Config, st: StreamId, k: nat, most: nat, x: nat) {
    forall threads, run, events, n: nat | Crowded(c, threads, run, events, n, st, k, most) :: Current(run[n], st) <= x
  }

  /** The highest charge: all but one of `k` calls come on top of a full stream, none of them larger than
      the limit. Calls for nothing charge nothing. */
  function Worst(c: Config, k: nat, most: nat): nat
    requires k > 0
  {
    if most == 0 then 0 else c.limit + (k - 1) * Min(most, c.limit)
  }

  // ---- it is no worse ----

  ghost predicate ApprovedFit(c: Config, s: State, st: StreamId) {
    forall t :: Approved(s, t, st) ==> s.pcs[t].bytes <= c.limit
  }

  lemma StepKeepsFit(c: Config, s: State, e: Event, st: StreamId)
    requires c.limit != 0 && Enabled(c, s, e.thread, e.action) && ApprovedFit(c, s, st)
    ensures ApprovedFit(c, Apply(c, s, e.thread, e.action), st)
  {
    var s' := Apply(c, s, e.thread, e.action);
    forall u | Approved(s', u, st) ensures s'.pcs[u].bytes <= c.limit {
      assert (u == e.thread && e.action.Ask?) || Approved(s, u, st);
    }
  }

  /** No approved call is larger than the limit. */
  lemma {:induction false} RunKeepsFit(c: Config, threads: set<Tid>, run: seq<State>, events: seq<Event>, n: nat,
                                       st: StreamId)
    requires IsRun(c, threads, run, events) && n < |run| && c.limit != 0
    ensures ApprovedFit(c, run[n], st)
  {
    if n > 0 {
      RunKeepsFit(c, threads, run, events, n - 1, st);
      assert StepAt(c, run, events, n - 1);
      StepKeepsFit(c, run[n - 1], events[n - 1], st);
    }
  }

  lemma CrowdedFits(c: Config, threads: set<Tid>, run: seq<State>, events: seq<Event>, n: nat, st: StreamId, k: nat,
                    most: nat)
    requires Crowded(c, threads, run, events, n, st, k, most) && c.limit != 0
    ensures Crowded(c, threads, run, events, n, st, k, Min(most, c.limit))
  {
    forall i | 0 <= i <= n ensures Crowd(run[i], st, k, Min(most, c.limit)) {
      RunKeepsFit(c, threads, run, events, i, st);
    }
  }

  /** Calls for nothing leave the stream uncharged. */
  lemma {:induction false} NothingCharged(c: Config, threads: set<Tid>, run: seq<State>, events: seq<Event>, n: nat,
                                          st: StreamId, k: nat)
    requires Crowded(c, threads, run, events, n, st, k, 0)
    ensures Current(run[n], st) == 0
  {
    if n > 0 {
      NothingCharged(c, threads, run, events, n - 1, st, k);
      assert StepAt(c, run, events, n - 1);
      NothingAdded(c, run[n - 1], events[n - 1], st, k);
    }
  }

  lemma NothingAdded(c: Config, s: State, e: Event, st: StreamId, k: nat)
    requires Enabled(c, s, e.thread, e.action) && !Overrides(s, e, st) && Crowd(s, st, k, 0)
    ensures Current(Apply(c, s, e.thread, e.action), st) <= Current(s, st)
  {
    if e.action.Commit? && s.pcs[e.thread].stream == st {
      assert Approved(s, e.thread, st);
    }
  }

  lemma NoWorse(c: Config, threads: set<Tid>, run: seq<State>, events: seq<Event>, n: nat, st: StreamId, k: nat,
                most: nat)
    requires Crowded(c, threads, run, events, n, st, k, most) && c.limit != 0 && k > 0
    ensures Current(run[n], st) <= Worst(c, k, most)
  {
    if most == 0 {
      NothingCharged(c, threads, run, events, n, st, k);
    } else {
      CrowdedFits(c, threads, run, events, n, st, k, most);
      LimitBound(c, threads, run, events, n, st, k, Min(most, c.limit));
    }
  }

  // ---- and it can be that bad ----

  function Threads(k: nat): (s: set<Tid>)
    ensures |s| == k
    ensures forall t :: t in s <==> 0 <= t < k
  {
    if k == 0 then {} else Threads(k - 1) + {k - 1}
  }

  /** A run of `k` threads all of whose states are crowded as allowed. */
  ghost predicate Good(c: Config, st: StreamId, k: nat, most: nat, run: seq<State>, events: seq<Event>) {
    |run| == |events| + 1 && Crowded(c, Threads(k), run, events, |events|, st, k, most)
  }

  ghost predicate HasThreads(s: State, k: nat) { forall t: Tid :: t in s.pcs <==> t < k }

  lemma SmallCrowd(s: State, st: StreamId, k: nat, most: nat)
    requires HasThreads(s, k) && forall t :: Approved(s, t, st) ==> s.pcs[t].bytes <= most
    ensures Crowd(s, st, k, most)
  {
    SubsetIsSmaller(ApprovedSet(s, st), Threads(k));
  }

  lemma {:induction false} SubsetIsSmaller(a: set<Tid>, b: set<Tid>)
    requires a <= b
    ensures |a| <= |b|
    decreases a
  {
    if a != {} {
      var x :| x in a;
      SubsetIsSmaller(a - {x}, b - {x});
    }
  }

  lemma Extend(c: Config, st: StreamId, k: nat, most: nat, r: seq<State>, e: seq<Event>, t: Tid, a: Action)
    returns (run: seq<State>, events: seq<Event>)
    requires Good(c, st, k, most, r, e) && Enabled(c, r[|e|], t, a) && !Overrides(r[|e|], Event(t, a), st)
    requires Crowd(Apply(c, r[|e|], t, a), st, k, most)
    ensures Good(c, st, k, most, run, events) && run[|events|] == Apply(c, r[|e|], t, a)
  {
    run, events := r + [Apply(c, r[|e|], t, a)], e + [Event(t, a)];
    forall i | 0 <= i < |events| ensures StepAt(c, run, events, i) {
      if i < |e| { assert StepAt(c, r, e, i); }
    }
  }

  /** The stream is charged `cur`; threads from `done` up to `asked` have passed the check with `n` bytes
      each, the others are idle; every pointer out is below `next`. */
  ghost predicate Stage(s: State, st: StreamId, k: nat, cur: nat, done: nat, asked: nat, n: nat, next: nat) {
    && HasThreads(s, k) && Current(s, st) == cur
    && (forall t: nat :: t < k ==> s.pcs[t] == if done <= t < asked then Trying(Upstream, st, n) else Idle)
    && (forall p :: p in s.heap ==> p < next)
  }

  lemma StageIsCrowd(s: State, st: StreamId, k: nat, cur: nat, done: nat, asked: nat, n: nat, next: nat, most: nat)
    requires Stage(s, st, k, cur, done, asked, n, next) && n <= most
    ensures Crowd(s, st, k, most)
  {
    SmallCrowd(s, st, k, most);
  }

  /** The next thread passes the check. */
  lemma AskStage(c: Config, s: State, st: StreamId, k: nat, cur: nat, asked: nat, n: nat, next: nat)
    requires Stage(s, st, k, cur, 0, asked, n, next) && asked < k && c.limit != 0 && cur + n <= c.limit
    ensures Enabled(c, s, asked, Ask(st, n))
    ensures Stage(Apply(c, s, asked, Ask(st, n)), st, k, cur, 0, asked + 1, n, next)
  {}

  lemma AskNext(c: Config, st: StreamId, k: nat, most: nat, r: seq<State>, e: seq<Event>,
                cur: nat, asked: nat, n: nat, next: nat)
    returns (run: seq<State>, events: seq<Event>)
    requires Good(c, st, k, most, r, e) && Stage(r[|e|], st, k, cur, 0, asked, n, next)
    requires asked < k && n <= most && c.limit != 0 && cur + n <= c.limit
    ensures Good(c, st, k, most, run, events) && Stage(run[|events|], st, k, cur, 0, asked + 1, n, next)
  {
    AskStage(c, r[|e|], st, k, cur, asked, n, next);
    StageIsCrowd(Apply(c, r[|e|], asked, Ask(st, n)), st, k, cur, 0, asked + 1, n, next, most);
    run, events := Extend(c, st, k, most, r, e, asked, Ask(st, n));
  }

  /** In between, the first thread past the check holds its pointer. */
  ghost predicate Held(s: State, st: StreamId, k: nat, cur: nat, done: nat, asked: nat, n: nat, p: Ptr) {
    && HasThreads(s, k) && Current(s, st) == cur && done < asked <= k
    && s.pcs[done] == Holding(p, Upstream, st, n, false)
    && (forall t: nat :: t < k && t != done ==> s.pcs[t] == if done <= t < asked then Trying(Upstream, st, n) else Idle)
    && (forall q :: q in s.heap ==> q < p + 1)
  }

  lemma AnswerStage(c: Config, s: State, st: StreamId, k: nat, cur: nat, done: nat, asked: nat, n: nat, next: nat)
    requires Stage(s, st, k, cur, done, asked, n, next) && done < asked <= k
    ensures Enabled(c, s, done, Answer(Some(next)))
    ensures Held(Apply(c, s, done, Answer(Some(next))), st, k, cur, done, asked, n, next)
  {}

  lemma CommitStage(c: Config, s: State, st: StreamId, k: nat, cur: nat, done: nat, asked: nat, n: nat, p: Ptr)
    requires Held(s, st, k, cur, done, asked, n, p)
    ensures Enabled(c, s, done, Commit)
    ensures Stage(Apply(c, s, done, Commit), st, k, cur + n, done + 1, asked, n, p + 1)
  {}

  /** It gets its pointer and is charged. */
  lemma ChargeNext(c: Config, st: StreamId, k: nat, most: nat, r: seq<State>, e: seq<Event>,
                   cur: nat, done: nat, asked: nat, n: nat, next: nat)
    returns (run: seq<State>, events: seq<Event>)
    requires Good(c, st, k, most, r, e) && Stage(r[|e|], st, k, cur, done, asked, n, next)
    requires done < asked <= k && n <= most
    ensures Good(c, st, k, most, run, events) && Stage(run[|events|], st, k, cur + n, done + 1, asked, n, next + 1)
  {
    AnswerStage(c, r[|e|], st, k, cur, done, asked, n, next);
    SmallCrowd(Apply(c, r[|e|], done, Answer(Some(next))), st, k, most);
    run, events := Extend(c, st, k, most, r, e, done, Answer(Some(next)));
    CommitStage(c, run[|events|], st, k, cur, done, asked, n, next);
    StageIsCrowd(Apply(c, run[|events|], done, Commit), st, k, cur + n, done + 1, asked, n, next + 1, most);
    run, events := Extend(c, st, k, most, run, events, done, Commit);
  }

  lemma Begin(c: Config, st: StreamId, k: nat, most: nat) returns (run: seq<State>, events: seq<Event>)
    ensures Good(c, st, k, most, run, events) && Stage(run[|events|], st, k, 0, 0, 0, 0, 0)
  {
    run, events := [Init(Threads(k))], [];
    StageIsCrowd(run[0], st, k, 0, 0, 0, 0, 0, most);
  }

  /** Thread 0 fills the stream byte by byte. */
  lemma {:induction false} Fill(c: Config, st: StreamId, k: nat, most: nat, x: nat)
    returns (run: seq<State>, events: seq<Event>)
    requires c.limit != 0 && k > 0 && most > 0 && x <= c.limit
    ensures Good(c, st, k, most, run, events) && Stage(run[|events|], st, k, x, 0, 0, 0, x)
  {
    if x == 0 {
      run, events := Begin(c, st, k, most);
    } else {
      run, events := Fill(c, st, k, most, x - 1);
      run, events := AskNext(c, st, k, most, run, events, x - 1, 0, 1, x - 1);
      run, events := ChargeNext(c, st, k, most, run, events, x - 1, 0, 1, 1, x - 1);
    }
  }

  lemma {:induction false} AskAll(c: Config, st: StreamId, k: nat, most: nat, n: nat, asked: nat)
    returns (run: seq<State>, events: seq<Event>)
    requires c.limit != 0 && k > 0 && most > 0 && n <= most && n <= c.limit && asked <= k
    ensures Good(c, st, k, most, run, events)
    ensures Stage(run[|events|], st, k, c.limit - n, 0, asked, n, c.limit - n)
  {
    if asked == 0 {
      run, events := Fill(c, st, k, most, c.limit - n);
    } else {
      run, events := AskAll(c, st, k, most, n, asked - 1);
      run, events := AskNext(c, st, k, most, run, events, c.limit - n, asked - 1, n, c.limit - n);
    }
  }

  function Times(k: nat, n: nat): nat { if k == 0 then 0 else Times(k - 1, n) + n }

  lemma {:induction false} TimesIsProduct(k: nat, n: nat)
    ensures Times(k, n) == k * n
  {
    if k > 0 {
      TimesIsProduct(k - 1, n);
      assert k * n == (k - 1) * n + n;
    }
  }

  lemma {:induction false} ChargeAll(c: Config, st: StreamId, k: nat, most: nat, n: nat, done: nat)
    returns (run: seq<State>, events: seq<Event>)
    requires c.limit != 0 && k > 0 && most > 0 && n <= most && n <= c.limit && done <= k
    ensures Good(c, st, k, most, run, events)
    ensures Stage(run[|events|], st, k, c.limit - n + Times(done, n), done, k, n, c.limit - n + done)
  {
    if done == 0 {
      run, events := AskAll(c, st, k, most, n, k);
    } else {
      run, events := ChargeAll(c, st, k, most, n, done - 1);
      var cur := c.limit - n + Times(done - 1, n);
      run, events := ChargeNext(c, st, k, most, run, events, cur, done - 1, k, n, c.limit - n + done - 1);
    }
  }

  /** Fill the stream up to one call below the limit, let `k` calls pass the check, then charge them all. */
  lemma LimitCanBeOvershot(c: Config, st: StreamId, k: nat, most: nat) returns (run: seq<State>, events: seq<Event>)
    requires c.limit != 0 && k > 0
    ensures Crowded(c, Threads(k), run, events, |events|, st, k, most)
    ensures Current(run[|events|], st) == Worst(c, k, most)
  {
    var n := Min(most, c.limit);
    if most == 0 {
      run, events := Begin(c, st, k, 0);
    } else {
      run, events := ChargeAll(c, st, k, most, n, k);
      TimesIsProduct(k - 1, n);
    }
  }

  /** Over all runs of all schedules, with at most `k` overlapping calls of at most `most` bytes, `x` bounds
      the charge of the stream exactly if it is at least the worst case. */
  lemma WorstIsExact(c: Config, st: StreamId, k: nat, most: nat, x: nat)
    requires c.limit != 0 && k > 0
    ensures StaysWithin(c, st, k, most, x) <==> Worst(c, k, most) <= x
  {
    if Worst(c, k, most) <= x {
      forall threads, run, events, n: nat | Crowded(c, threads, run, events, n, st, k, most)
        ensures Current(run[n], st) <= x
      {
        NoWorse(c, threads, run, events, n, st, k, most);
      }
    } else {
      var run, events := LimitCanBeOvershot(c, st, k, most);
    }
  }

  /** So the limit holds on all of them exactly if calls do not overlap, or ask for nothing. */
  lemma LimitHoldsIff(c: Config, st: StreamId, k: nat, most: nat)
    requires c.limit != 0 && k > 0
    ensures StaysWithin(c, st, k, most, c.limit) <==> k == 1 || most == 0
  {
    WorstIsExact(c, st, k, most, c.limit);
    if k > 1 && most > 0 { Excess(k - 1, Min(most, c.limit)); }
  }

  lemma Excess(a: nat, b: nat)
    requires a > 0 && b > 0
    ensures a * b > 0
  {}
}
