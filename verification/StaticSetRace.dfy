/** The hash set under concurrent kernels: any number of insert and lookup threads, started at any
    time, each taking one probe (one atomicCAS or one load) per step. */
module StaticSetRace {
  import opened Stride
  import opened StaticSet

  type Tid = nat

  datatype PC =
    | Inserting(key: Key, probe: nat)
    | Placed(key: Key)               // the swap met an empty slot or the key itself
    | Lost(key: Key)                 // the probe loop ran out
    | Looking(key: Key, probe: nat)
    | Answered(key: Key, found: bool)

  datatype State = State(slots: seq<Key>, pcs: map<Tid, PC>, asked: set<Key>)

  datatype Action = LaunchInsert(key: Key) | LaunchLookup(key: Key) | ProbeOnce

  predicate Enabled(s: State, t: Tid, a: Action) {
    match a
    case LaunchInsert(_) => t !in s.pcs
    case LaunchLookup(_) => t !in s.pcs
    case ProbeOnce => t in s.pcs && (s.pcs[t].Inserting? || s.pcs[t].Looking?)
  }

  function Apply(c: Config, s: State, t: Tid, a: Action): State
    requires Fits(c, s.slots) && Enabled(s, t, a)
  {
    match a
    case LaunchInsert(key) => s.(pcs := s.pcs[t := Inserting(key, 0)], asked := s.asked + {key})
    case LaunchLookup(key) => s.(pcs := s.pcs[t := Looking(key, 0)])
    case ProbeOnce =>
      var pc := s.pcs[t];
      var i := Path(c, pc.key, pc.probe);
      if pc.Inserting? then
        var s1 := s.(slots := s.slots[i := if s.slots[i] == c.empty then pc.key else s.slots[i]]);
        s1.(pcs := s.pcs[t :=
          if s.slots[i] == c.empty || s.slots[i] == pc.key then Placed(pc.key)
          else if pc.probe + 1 < c.capacity then Inserting(pc.key, pc.probe + 1)
          else Lost(pc.key)])
      else
        s.(pcs := s.pcs[t :=
          if s.slots[i] == pc.key then Answered(pc.key, true)
          else if s.slots[i] == c.empty then Answered(pc.key, false)
          else if pc.probe + 1 < c.capacity then Looking(pc.key, pc.probe + 1)
          else Answered(pc.key, false)])
  }

  // ---- the invariant ----

  ghost predicate PcInv(c: Config, slots: seq<Key>, pc: PC)
    requires Fits(c, slots)
  {
    match pc
    case Inserting(key, probe) => probe < c.capacity && Passed(c, slots, key, probe)
    case Placed(key) => key == c.empty || key in slots
    case Lost(key) => Passed(c, slots, key, c.capacity)
    case Looking(key, probe) => probe < c.capacity && Passed(c, slots, key, probe)
    case Answered(key, found) => found && key != c.empty ==> key in slots
  }

  /** `base` is what the table held before any of the threads started. */
  ghost predicate Inv(c: Config, base: set<Key>, s: State) {
    && WellPlaced(c, s.slots)
    && (forall t :: t in s.pcs ==> PcInv(c, s.slots, s.pcs[t]))
    && (forall t :: t in s.pcs && (s.pcs[t].Inserting? || s.pcs[t].Placed? || s.pcs[t].Lost?) ==>
          s.pcs[t].key in s.asked)
    && (forall k :: k in s.asked ==> exists t :: t in s.pcs && Works(s.pcs[t], k))
    && base <= Stored(c, s.slots) <= base + s.asked - {c.empty}
  }

  /** The thread that was launched to insert `k`. */
  predicate Works(pc: PC, k: Key) { (pc.Inserting? || pc.Placed? || pc.Lost?) && pc.key == k }

  ghost predicate Start(c: Config, s: State) {
    WellPlaced(c, s.slots) && s.pcs == map[] && s.asked == {}
  }

  lemma PcInvGrows(c: Config, a: seq<Key>, b: seq<Key>, pc: PC)
    requires Fits(c, a) && Fits(c, b) && Grows(c, a, b) && PcInv(c, a, pc)
    ensures PcInv(c, b, pc)
  {
    if pc.Placed? || pc.Answered? {
      if pc.key in a && pc.key != c.empty {
        var i :| 0 <= i < |a| && a[i] == pc.key;
        assert b[i] == pc.key;
      }
    }
  }

  /** One probe of an insert thread: the table stays well placed and only grows, by this key at most. */
  lemma InsertProbe(c: Config, s: State, t: Tid)
    requires WellPlaced(c, s.slots) && Enabled(s, t, ProbeOnce) && s.pcs[t].Inserting? && PcInv(c, s.slots, s.pcs[t])
    ensures var s' := Apply(c, s, t, ProbeOnce);
            && WellPlaced(c, s'.slots) && Grows(c, s.slots, s'.slots) && PcInv(c, s'.slots, s'.pcs[t])
            && Stored(c, s.slots) <= Stored(c, s'.slots) <= Stored(c, s.slots) + ({s.pcs[t].key} - {c.empty})
  {
    var pc := s.pcs[t];
    var i := Path(c, pc.key, pc.probe);
    var s' := Apply(c, s, t, ProbeOnce);
    if s.slots[i] == c.empty && pc.key != c.empty {
      FillKeepsPlaces(c, s.slots, pc.key, pc.probe);
      assert s'.slots[i] == pc.key;
    } else {
      assert s'.slots == s.slots;
    }
  }

  lemma LookupProbe(c: Config, s: State, t: Tid)
    requires WellPlaced(c, s.slots) && Enabled(s, t, ProbeOnce) && s.pcs[t].Looking? && PcInv(c, s.slots, s.pcs[t])
    ensures var s' := Apply(c, s, t, ProbeOnce);
            s'.slots == s.slots && PcInv(c, s'.slots, s'.pcs[t])
  {}

  /** What a step does to the table, and what the acting thread then knows. */
  lemma TableStep(c: Config, base: set<Key>, s: State, t: Tid, a: Action)
    requires Inv(c, base, s) && Enabled(s, t, a)
    ensures var s' := Apply(c, s, t, a);
            && WellPlaced(c, s'.slots) && Grows(c, s.slots, s'.slots)
            && base <= Stored(c, s'.slots) <= base + s'.asked - {c.empty}
            && t in s'.pcs && PcInv(c, s'.slots, s'.pcs[t]) && s'.pcs == s.pcs[t := s'.pcs[t]]
  {
    if a.ProbeOnce? {
      if s.pcs[t].Inserting? { InsertProbe(c, s, t); } else { LookupProbe(c, s, t); }
    }
  }

  /** Every requested key stays with the thread that was launched for it. */
  lemma AskedStep(c: Config, base: set<Key>, s: State, t: Tid, a: Action)
    requires Inv(c, base, s) && Enabled(s, t, a)
    ensures var s' := Apply(c, s, t, a);
            && (forall j :: j in s'.pcs && (s'.pcs[j].Inserting? || s'.pcs[j].Placed? || s'.pcs[j].Lost?) ==>
                  s'.pcs[j].key in s'.asked)
            && (forall k :: k in s'.asked ==> exists j :: j in s'.pcs && Works(s'.pcs[j], k))
  {
    var s' := Apply(c, s, t, a);
    forall k | k in s'.asked ensures exists j :: j in s'.pcs && Works(s'.pcs[j], k) {
      if k in s.asked {
        var j :| j in s.pcs && Works(s.pcs[j], k);
        assert Works(s'.pcs[j], k);
      } else {
        assert Works(s'.pcs[t], k);
      }
    }
  }

  lemma StepKeepsInv(c: Config, base: set<Key>, s: State, t: Tid, a: Action)
    requires Inv(c, base, s) && Enabled(s, t, a)
    ensures Inv(c, base, Apply(c, s, t, a))
    ensures Grows(c, s.slots, Apply(c, s, t, a).slots)
  {
    var s' := Apply(c, s, t, a);
    TableStep(c, base, s, t, a);
    AskedStep(c, base, s, t, a);
    forall j | j in s'.pcs ensures PcInv(c, s'.slots, s'.pcs[j]) {
      if j != t { PcInvGrows(c, s.slots, s'.slots, s.pcs[j]); }
    }
  }

  // ---- runs ----

  datatype Event = Event(thread: Tid, action: Action)

  ghost predicate StepAt(c: Config, run: seq<State>, events: seq<Event>, i: nat)
    requires i < |events| && |run| == |events| + 1
  {
    && Fits(c, run[i].slots)
    && Enabled(run[i], events[i].thread, events[i].action)
    && run[i + 1] == Apply(c, run[i], events[i].thread, events[i].action)
  }

  ghost predicate IsRun(c: Config, run: seq<State>, events: seq<Event>) {
    && |run| == |events| + 1
    && Start(c, run[0])
    && forall i :: 0 <= i < |events| ==> StepAt(c, run, events, i)
  }

  lemma {:induction false} RunKeepsInv(c: Config, run: seq<State>, events: seq<Event>, i: nat)
    requires IsRun(c, run, events) && i < |run|
    ensures Inv(c, Stored(c, run[0].slots), run[i])
  {
    if i > 0 {
      RunKeepsInv(c, run, events, i - 1);
      assert StepAt(c, run, events, i - 1);
      StepKeepsInv(c, Stored(c, run[0].slots), run[i - 1], events[i - 1].thread, events[i - 1].action);
    }
  }

  /** A filled slot keeps its key for the rest of the run. */
  lemma {:induction false} TableOnlyGrows(c: Config, run: seq<State>, events: seq<Event>, i: nat, j: nat)
    requires IsRun(c, run, events) && i <= j < |run|
    ensures Grows(c, run[i].slots, run[j].slots)
  {
    if i < j {
      TableOnlyGrows(c, run, events, i, j - 1);
      RunKeepsInv(c, run, events, j - 1);
      assert StepAt(c, run, events, j - 1);
      StepKeepsInv(c, Stored(c, run[0].slots), run[j - 1], events[j - 1].thread, events[j - 1].action);
    }
  }

  lemma AllDistinct(c: Config, slots: seq<Key>)
    requires WellPlaced(c, slots)
    ensures forall a: nat, b: nat :: a < |slots| && b < |slots| && slots[a] == slots[b] != c.empty ==> a == b
  {
    forall a: nat, b: nat | a < |slots| && b < |slots| && slots[a] == slots[b] != c.empty ensures a == b {
      NoDuplicates(c, slots, a, b);
    }
  }

  /** Whatever the schedule, in every state no key is stored in two slots, nothing that was stored is
      gone, and only requested keys have been added. */
  lemma StoredOnce(c: Config, run: seq<State>, events: seq<Event>, i: nat)
    requires IsRun(c, run, events) && i < |run|
    ensures Stored(c, run[0].slots) <= Stored(c, run[i].slots) <= Stored(c, run[0].slots) + run[i].asked - {c.empty}
    ensures var slots := run[i].slots;
            forall a: nat, b: nat :: a < |slots| && b < |slots| && slots[a] == slots[b] != c.empty ==> a == b
  {
    RunKeepsInv(c, run, events, i);
    AllDistinct(c, run[i].slots);
  }

  /** Lookups are linearizable: whatever inserts run at the same time, the answer is exactly whether
      the key is in the table in the state of the deciding read. For every capacity. */
  lemma LookupIsLinearizable(c: Config, run: seq<State>, events: seq<Event>, i: nat)
    requires IsRun(c, run, events) && i < |events|
    requires events[i].action.ProbeOnce? && events[i].thread in run[i].pcs
    requires run[i].pcs[events[i].thread].Looking? && run[i].pcs[events[i].thread].key != c.empty
    ensures events[i].thread in run[i + 1].pcs
    ensures var t := events[i].thread;
            run[i + 1].pcs[t].Answered? ==>
              (run[i + 1].pcs[t].found <==> run[i].pcs[t].key in run[i].slots)
  {
    var t := events[i].thread;
    RunKeepsInv(c, run, events, i);
    assert StepAt(c, run, events, i);
    var pc := run[i].pcs[t];
    var slot := run[i].slots[Path(c, pc.key, pc.probe)];
    if slot == c.empty {
      EmptySlotMeansAbsent(c, run[i].slots, pc.key, pc.probe);
    } else if slot != pc.key && pc.probe + 1 == c.capacity {
      WholePathMeansAbsent(c, run[i].slots, pc.key);
    }
  }

  // ---- completeness for power-of-two capacities ----

  ghost function FirstKeys(slots: seq<Key>, n: nat): set<Key>
    requires n <= |slots|
  {
    set i: nat | i < n :: slots[i]
  }

  lemma OneMoreKey(c: Config, slots: seq<Key>, n: nat)
    requires WellPlaced(c, slots) && n < |slots| && slots[n] != c.empty
    ensures FirstKeys(slots, n + 1) == FirstKeys(slots, n) + {slots[n]} && slots[n] !in FirstKeys(slots, n)
  {
    forall i: nat | i < n ensures slots[i] != slots[n] {
      if slots[i] == slots[n] { NoDuplicates(c, slots, i, n); }
    }
  }

  lemma {:induction false} DistinctKeysFill(c: Config, slots: seq<Key>, n: nat)
    requires WellPlaced(c, slots) && n <= |slots| && (forall i: nat :: i < n ==> slots[i] != c.empty)
    ensures |FirstKeys(slots, n)| == n
  {
    if n == 0 {
      assert FirstKeys(slots, 0) == {};
    } else {
      DistinctKeysFill(c, slots, n - 1);
      OneMoreKey(c, slots, n - 1);
    }
  }

  /** A lost insertion in a power-of-two table means the table is full of other keys. */
  lemma LostMeansFull(c: Config, slots: seq<Key>, key: Key)
    requires WellPlaced(c, slots) && IsPow2(c.capacity) && key != c.empty
    requires Passed(c, slots, key, c.capacity)
    ensures key !in slots && |Stored(c, slots)| == c.capacity
  {
    WholePathMeansAbsent(c, slots, key);
    forall i: nat | i < |slots| ensures slots[i] != c.empty {
      if slots[i] == c.empty { PlaceExists(c, slots, key, i); }
    }
    DistinctKeysFill(c, slots, |slots|);
    assert Stored(c, slots) == FirstKeys(slots, |slots|);
  }

  /** An insertion is lost only if there are more keys than slots: the old ones and the batch
      together outnumber the capacity. */
  lemma LossNeedsOverflow(c: Config, run: seq<State>, events: seq<Event>, i: nat, t: Tid)
    requires IsRun(c, run, events) && i < |run| && IsPow2(c.capacity)
    requires t in run[i].pcs && run[i].pcs[t].Lost? && run[i].pcs[t].key != c.empty
    ensures |Stored(c, run[0].slots) + run[i].asked - {c.empty}| > c.capacity
  {
    var key := run[i].pcs[t].key;
    RunKeepsInv(c, run, events, i);
    LostMeansFull(c, run[i].slots, key);
    SubsetSize(Stored(c, run[i].slots) + {key}, Stored(c, run[0].slots) + run[i].asked - {c.empty});
    assert |Stored(c, run[i].slots) + {key}| == c.capacity + 1;
  }

  /** Completeness: with a power-of-two capacity that holds all keys, once every insert thread has
      finished the table holds exactly the old keys and the batch, for every schedule. */
  lemma BatchIsStored(c: Config, run: seq<State>, events: seq<Event>, i: nat)
    requires IsRun(c, run, events) && i < |run|
    requires IsPow2(c.capacity)
    requires |Stored(c, run[0].slots) + run[i].asked - {c.empty}| <= c.capacity
    requires forall t :: t in run[i].pcs ==> !run[i].pcs[t].Inserting?
    ensures Stored(c, run[i].slots) == Stored(c, run[0].slots) + run[i].asked - {c.empty}
  {
    RunKeepsInv(c, run, events, i);
    forall k | k in run[i].asked && k != c.empty ensures k in run[i].slots {
      var t :| t in run[i].pcs && Works(run[i].pcs[t], k);
      if run[i].pcs[t].Lost? { LossNeedsOverflow(c, run, events, i, t); }
    }
  }
}
