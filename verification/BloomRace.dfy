/** The Bloom filter under concurrent kernels: any number of add and probe threads, started at any
    time, each setting or reading one bit per step. */
module BloomRace {
  import opened Stride
  import opened Word64
  import opened Bloom

  type Tid = nat

  datatype PC<K> =
    | Adding(key: K, i: nat)
    | Added(key: K)
    | Probing(key: K, i: nat)
    | Answered(key: K, found: bool)

  datatype State<K(==)> = State(words: seq<nat>, pcs: map<Tid, PC<K>>, asked: set<K>)

  datatype Action<K> = LaunchAdd(key: K) | LaunchProbe(key: K) | OneBit

  predicate Enabled<K(==)>(s: State<K>, t: Tid, a: Action<K>) {
    match a
    case LaunchAdd(_) => t !in s.pcs
    case LaunchProbe(_) => t !in s.pcs
    case OneBit => t in s.pcs && (s.pcs[t].Adding? || s.pcs[t].Probing?)
  }

  function Apply<K(==)>(f: Filter<K>, s: State<K>, t: Tid, a: Action<K>): State<K>
    requires Fits(f, s.words) && Enabled(s, t, a)
  {
    match a
    case LaunchAdd(key) => s.(pcs := s.pcs[t := Adding(key, 0)], asked := s.asked + {key})
    case LaunchProbe(key) => s.(pcs := s.pcs[t := Probing(key, 0)])
    case OneBit =>
      var pc := s.pcs[t];
      var p := Pos(f, pc.key, pc.i);
      WordInRange(f, pc.key, pc.i);
      if pc.Adding? then
        s.(words := SetBit(s.words, p),
           pcs := s.pcs[t := if pc.i + 1 < f.Hashes() then Adding(pc.key, pc.i + 1) else Added(pc.key)])
      else
        s.(pcs := s.pcs[t :=
          if AndBits(s.words[p.0], Pow2(p.1)) == 0 then Answered(pc.key, false)
          else if pc.i + 1 < f.Hashes() then Probing(pc.key, pc.i + 1)
          else Answered(pc.key, true)])
  }

  ghost predicate PcInv<K(!new)>(f: Filter<K>, words: seq<nat>, pc: PC<K>)
    requires f.Valid()
  {
    match pc
    case Adding(key, i) => i < f.Hashes() && Contains(Bits(words), Partial(f, key, i))
    case Added(key) => Contains(Bits(words), Mask(f, key))
    case Probing(key, i) => i < f.Hashes() && Contains(Bits(words), Partial(f, key, i))
    case Answered(key, found) => found ==> Contains(Bits(words), Mask(f, key))
  }

  /** The bits of all keys anyone has asked to add. */
  ghost function Masks<K(!new)>(f: Filter<K>, keys: set<K>): iset<Position>
    requires f.Valid()
  {
    iset k: K, p: Position | k in keys && p in Mask(f, k) :: p
  }

  predicate Works<K(==)>(pc: PC<K>, key: K) { (pc.Adding? || pc.Added?) && pc.key == key }

  /** `base` is what the filter represented before any of the threads started. */
  ghost predicate Inv<K(!new)>(f: Filter<K>, base: iset<Position>, s: State<K>) {
    && Fits(f, s.words)
    && (forall t :: t in s.pcs ==> PcInv(f, s.words, s.pcs[t]))
    && (forall t :: t in s.pcs && s.pcs[t].Adding? ==> s.pcs[t].key in s.asked)
    && (forall k :: k in s.asked ==> exists t :: t in s.pcs && Works(s.pcs[t], k))
    && base <= Bits(s.words) <= base + Masks(f, s.asked)
  }

  lemma MasksGrow<K(!new)>(f: Filter<K>, keys: set<K>, key: K)
    requires f.Valid()
    ensures Masks(f, keys) <= Masks(f, keys + {key})
  {}

  /** One atomicOr: the set gains this position, which belongs to a requested key. */
  lemma AddOneBit<K(!new)>(f: Filter<K>, s: State<K>, t: Tid)
    requires Fits(f, s.words) && Enabled(s, t, OneBit) && s.pcs[t].Adding? && PcInv(f, s.words, s.pcs[t])
    ensures var s' := Apply(f, s, t, OneBit);
            && Fits(f, s'.words) && PcInv(f, s'.words, s'.pcs[t])
            && Bits(s'.words) == Bits(s.words) + iset{Pos(f, s.pcs[t].key, s.pcs[t].i)}
            && Pos(f, s.pcs[t].key, s.pcs[t].i) in Mask(f, s.pcs[t].key)
  {
    var pc := s.pcs[t];
    WordInRange(f, pc.key, pc.i);
    SetBitAdds(s.words, Pos(f, pc.key, pc.i));
    PartialGrows(f, pc.key, pc.i);
  }

  lemma ProbeOneBit<K(!new)>(f: Filter<K>, s: State<K>, t: Tid)
    requires Fits(f, s.words) && Enabled(s, t, OneBit) && s.pcs[t].Probing? && PcInv(f, s.words, s.pcs[t])
    ensures var s' := Apply(f, s, t, OneBit);
            && s'.words == s.words && PcInv(f, s.words, s'.pcs[t])
            && (s'.pcs[t].Answered? ==> (s'.pcs[t].found <==> Contains(Bits(s.words), Mask(f, s.pcs[t].key))))
  {
    var pc := s.pcs[t];
    var p := Pos(f, pc.key, pc.i);
    WordInRange(f, pc.key, pc.i);
    AndTestsBit(s.words[p.0], p.1);
    PartialGrows(f, pc.key, pc.i);
    assert p in Mask(f, pc.key);
    assert p in Bits(s.words) <==> Bit(s.words[p.0], p.1);
  }

  lemma StepKeepsInv<K(!new)>(f: Filter<K>, base: iset<Position>, s: State<K>, t: Tid, a: Action<K>)
    requires Inv(f, base, s) && Enabled(s, t, a)
    ensures Inv(f, base, Apply(f, s, t, a))
    ensures Bits(s.words) <= Bits(Apply(f, s, t, a).words)
  {
    var s' := Apply(f, s, t, a);
    if a.OneBit? {
      if s.pcs[t].Adding? { AddOneBit(f, s, t); } else { ProbeOneBit(f, s, t); }
    } else if a.LaunchAdd? {
      MasksGrow(f, s.asked, a.key);
    }
    forall k | k in s'.asked ensures exists j :: j in s'.pcs && Works(s'.pcs[j], k) {
      if k in s.asked {
        var j :| j in s.pcs && Works(s.pcs[j], k);
        assert Works(s'.pcs[j], k);
      } else {
        assert Works(s'.pcs[t], k);
      }
    }
  }

  // ---- runs ----

  datatype Event<K> = Event(thread: Tid, action: Action<K>)

  ghost predicate StepAt<K>(f: Filter<K>, run: seq<State<K>>, events: seq<Event<K>>, i: nat)
    requires i < |events| && |run| == |events| + 1
  {
    && Fits(f, run[i].words)
    && Enabled(run[i], events[i].thread, events[i].action)
    && run[i + 1] == Apply(f, run[i], events[i].thread, events[i].action)
  }

  ghost predicate IsRun<K>(f: Filter<K>, run: seq<State<K>>, events: seq<Event<K>>) {
    && |run| == |events| + 1
    && Fits(f, run[0].words) && run[0].pcs == map[] && run[0].asked == {}
    && forall i :: 0 <= i < |events| ==> StepAt(f, run, events, i)
  }

  lemma {:induction false} RunKeepsInv<K(!new)>(f: Filter<K>, run: seq<State<K>>, events: seq<Event<K>>, i: nat)
    requires IsRun(f, run, events) && i < |run|
    ensures Inv(f, Bits(run[0].words), run[i])
  {
    if i > 0 {
      RunKeepsInv(f, run, events, i - 1);
      assert StepAt(f, run, events, i - 1);
      StepKeepsInv(f, Bits(run[0].words), run[i - 1], events[i - 1].thread, events[i - 1].action);
    }
  }

  /** Bits are never cleared. */
  lemma {:induction false} BitsOnlyGrow<K(!new)>(f: Filter<K>, run: seq<State<K>>, events: seq<Event<K>>, i: nat,
                                               j: nat)
    requires IsRun(f, run, events) && i <= j < |run|
    ensures Bits(run[i].words) <= Bits(run[j].words)
  {
    if i < j {
      BitsOnlyGrow(f, run, events, i, j - 1);
      RunKeepsInv(f, run, events, j - 1);
      assert StepAt(f, run, events, j - 1);
      StepKeepsInv(f, Bits(run[0].words), run[j - 1], events[j - 1].thread, events[j - 1].action);
    }
  }

  /** Once every add thread has finished, the array stands for exactly the old set and the masks of
      the added keys: the same set for every schedule, every grouping and every repetition. */
  lemma AddsAreUnion<K(!new)>(f: Filter<K>, run: seq<State<K>>, events: seq<Event<K>>, i: nat)
    requires IsRun(f, run, events) && i < |run|
    requires forall t :: t in run[i].pcs ==> !run[i].pcs[t].Adding?
    ensures Bits(run[i].words) == Bits(run[0].words) + Masks(f, run[i].asked)
  {
    RunKeepsInv(f, run, events, i);
    var s := run[i];
    forall p | p in Masks(f, s.asked) ensures p in Bits(s.words) {
      var k :| k in s.asked && p in Mask(f, k);
      var t :| t in s.pcs && Works(s.pcs[t], k);
      assert PcInv(f, s.words, s.pcs[t]);
    }
  }

  /** A probe answers true exactly if the key's whole mask is set in the state of its deciding read. */
  lemma ProbeIsLinearizable<K(!new)>(f: Filter<K>, run: seq<State<K>>, events: seq<Event<K>>, i: nat)
    requires IsRun(f, run, events) && i < |events|
    requires events[i].action.OneBit? && events[i].thread in run[i].pcs && run[i].pcs[events[i].thread].Probing?
    ensures events[i].thread in run[i + 1].pcs
    ensures var pc := run[i + 1].pcs[events[i].thread];
            pc.Answered? ==> (pc.found <==> Contains(Bits(run[i].words), Mask(f, run[i].pcs[events[i].thread].key)))
  {
    RunKeepsInv(f, run, events, i);
    assert StepAt(f, run, events, i);
    ProbeOneBit(f, run[i], events[i].thread);
  }

  /** No false negatives: a probe that is decided after some thread has finished adding the key
      answers true, whatever else runs. */
  lemma NoFalseNegatives<K(!new)>(f: Filter<K>, run: seq<State<K>>, events: seq<Event<K>>, i: nat, j: nat, adder: Tid)
    requires IsRun(f, run, events) && i <= j < |events|
    requires adder in run[i].pcs && run[i].pcs[adder].Added?
    requires events[j].action.OneBit? && events[j].thread in run[j].pcs && run[j].pcs[events[j].thread].Probing?
    requires run[j].pcs[events[j].thread].key == run[i].pcs[adder].key
    ensures events[j].thread in run[j + 1].pcs
    ensures var pc := run[j + 1].pcs[events[j].thread]; pc.Answered? ==> pc.found
  {
    RunKeepsInv(f, run, events, i);
    BitsOnlyGrow(f, run, events, i, j);
    ProbeIsLinearizable(f, run, events, j);
    assert PcInv(f, run[i].words, run[i].pcs[adder]);
  }
}
