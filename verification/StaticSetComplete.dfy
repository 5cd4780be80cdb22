/** Completeness of the set under concurrent insertions from the empty table: exactly the power-of-two
    capacities store every batch that fits. */
module StaticSetComplete {
  import opened Stride
  import opened StaticSet
  import opened StaticSetRace
  import opened Width

  ghost predicate EmptyTable(c: Config, slots: seq<Key>) { Fits(c, slots) && forall k :: k in slots ==> k == c.empty }

  /** State `i` ends a batch: every insert thread has finished, and the keys asked for, of the key type and
      not counting the empty one, are no more than the slots. */
  ghost predicate EndsBatch(c: Config, keys: iset<Key>, run: seq<State>, events: seq<Event>, i: nat) {
    && IsRun(c, run, events) && i < |run| && EmptyTable(c, run[0].slots)
    && (forall t :: t in run[i].pcs ==> !run[i].pcs[t].Inserting?)
    && (forall k :: k in run[i].asked ==> k in keys)
    && |run[i].asked - {c.empty}| <= c.capacity
  }

  /** Whatever the schedule, every batch that fits ends with exactly its keys in the table. */
  ghost predicate StoresEveryBatch(c: Config, keys: iset<Key>) {
    forall run: seq<State>, events: seq<Event>, i: nat | EndsBatch(c, keys, run, events, i) ::
      Stored(c, run[i].slots) == run[i].asked - {c.empty}
  }

  lemma EmptyStoresNothing(c: Config, slots: seq<Key>)
    requires EmptyTable(c, slots)
    ensures Stored(c, slots) == {}
  {}

  // ---- a table that loses a key ----

  /** Some key of the key type hashes to `w`. */
  ghost predicate Hits(c: Config, keys: iset<Key>, w: nat) {
    exists k :: k in keys && c.hash(k) % TWO_64 == w
  }

  ghost function KeyFor(c: Config, keys: iset<Key>, w: nat): (k: Key)
    requires Hits(c, keys, w)
    ensures k in keys && c.hash(k) % TWO_64 == w
  {
    var k :| k in keys && c.hash(k) % TWO_64 == w;
    k
  }

  /** The hash function reaches every word. */
  ghost predicate Onto(c: Config, keys: iset<Key>) { forall w: nat :: w < TWO_64 ==> Hits(c, keys, w) }

  /** A word whose home slot is `i` and which is not that of the empty key. */
  ghost function HomeWord(c: Config, i: nat): (w: nat)
    requires c.Valid() && c.capacity < TWO_32 && i < c.capacity
    ensures w < 2 * TWO_32 && w % c.capacity == i && w != c.hash(c.empty) % TWO_64
  {
    ModUnique(i, c.capacity, 0, i);
    ModUnique(i + c.capacity, c.capacity, 1, i);
    if c.hash(c.empty) % TWO_64 == i then i + c.capacity else i
  }

  /** The worst table for the path of `h`: filled exactly where that path leads, with keys at home. */
  ghost function Jammed(c: Config, keys: iset<Key>, h: nat): (slots: seq<Key>)
    requires c.Valid() && c.capacity < TWO_32 && Onto(c, keys)
    ensures |slots| == c.capacity
    ensures forall i: nat :: i < c.capacity ==>
              slots[i] == if Reaches(h, i, c.capacity) then KeyFor(c, keys, HomeWord(c, i)) else c.empty
  {
    seq(c.capacity, i requires 0 <= i < c.capacity =>
      if Reaches(h, i, c.capacity) then KeyFor(c, keys, HomeWord(c, i)) else c.empty)
  }

  /** The first probe of a key is its hash modulo the capacity. */
  lemma HomeSlot(c: Config, key: Key)
    requires c.Valid()
    ensures Path(c, key, 0) == (c.hash(key) % TWO_64) % c.capacity
  {
    assert Probe(c.hash(key) % TWO_64, 0) == c.hash(key) % TWO_64;
  }

  lemma JammedIsWellPlaced(c: Config, keys: iset<Key>, h: nat)
    requires c.Valid() && c.capacity < TWO_32 && Onto(c, keys)
    ensures WellPlaced(c, Jammed(c, keys, h))
  {
    var slots := Jammed(c, keys, h);
    forall i: nat | i < |slots| && slots[i] != c.empty ensures Anchored(c, slots, i) {
      HomeSlot(c, slots[i]);
      assert FoundAt(c, slots, slots[i], 0);
    }
  }

  /** No key that hashes to `h` has a place in it. */
  lemma JammedHasNoPlace(c: Config, keys: iset<Key>, h: nat, key: Key)
    requires c.Valid() && c.capacity < TWO_32 && Onto(c, keys)
    requires 2 * TWO_32 <= h < TWO_64 && c.hash(key) % TWO_64 == h
    ensures !CanPlace(c, Jammed(c, keys, h), key)
  {
    var slots := Jammed(c, keys, h);
    forall q: nat | q < c.capacity ensures slots[Path(c, key, q)] != c.empty && slots[Path(c, key, q)] != key {
      var i := Path(c, key, q);
      assert Slot(h, q, c.capacity) == i;
      assert Reaches(h, i, c.capacity);
      assert c.hash(slots[i]) % TWO_64 == HomeWord(c, i);
    }
  }

  /** The jammed table while it is being filled: its first `n` slots. */
  ghost function JammedTo(c: Config, keys: iset<Key>, h: nat, n: nat): (slots: seq<Key>)
    requires c.Valid() && c.capacity < TWO_32 && Onto(c, keys) && n <= c.capacity
    ensures |slots| == c.capacity
    ensures forall i: nat :: i < c.capacity ==> slots[i] == if i < n then Jammed(c, keys, h)[i] else c.empty
  {
    seq(c.capacity, i requires 0 <= i < c.capacity => if i < n then Jammed(c, keys, h)[i] else c.empty)
  }

  lemma Extend(c: Config, r: seq<State>, e: seq<Event>, t: Tid, a: Action) returns (run: seq<State>, events: seq<Event>)
    requires IsRun(c, r, e) && Fits(c, r[|e|].slots) && Enabled(r[|e|], t, a)
    ensures IsRun(c, run, events) && |events| == |e| + 1 && run[0] == r[0]
    ensures run[|events|] == Apply(c, r[|e|], t, a)
  {
    run, events := r + [Apply(c, r[|e|], t, a)], e + [Event(t, a)];
    forall i | 0 <= i < |events| ensures StepAt(c, run, events, i) {
      if i < |e| { assert StepAt(c, r, e, i); }
    }
  }

  /** All insertions so far, by threads below `n`, have stored their keys; there were no others. */
  ghost predicate Settled(c: Config, keys: iset<Key>, s: State, n: nat) {
    && s.asked == Stored(c, s.slots) && (forall k :: k in s.asked ==> k in keys)
    && (forall t :: t in s.pcs ==> t < n && s.pcs[t].Placed?)
  }

  /** An insertion whose home slot is empty ends there. */
  lemma PlaceAtHome(c: Config, keys: iset<Key>, r: seq<State>, e: seq<Event>, n: nat, key: Key)
    returns (run: seq<State>, events: seq<Event>)
    requires IsRun(c, r, e) && Fits(c, r[|e|].slots) && Settled(c, keys, r[|e|], n) && key in keys && key != c.empty
    requires r[|e|].slots[Path(c, key, 0)] == c.empty
    ensures IsRun(c, run, events) && run[0] == r[0]
    ensures run[|events|].slots == r[|e|].slots[Path(c, key, 0) := key] && Settled(c, keys, run[|events|], n + 1)
  {
    FillStores(c, r[|e|].slots, Path(c, key, 0), key);
    run, events := Extend(c, r, e, n, LaunchInsert(key));
    run, events := Extend(c, run, events, n, ProbeOnce);
  }

  lemma HomeOfWord(c: Config, keys: iset<Key>, i: nat)
    requires c.Valid() && c.capacity < TWO_32 && Onto(c, keys) && i < c.capacity
    ensures var key := KeyFor(c, keys, HomeWord(c, i)); key != c.empty && Path(c, key, 0) == i
  {
    HomeSlot(c, KeyFor(c, keys, HomeWord(c, i)));
  }

  /** Launching its keys one after the other produces the jammed table. */
  lemma {:induction false} Fill(c: Config, keys: iset<Key>, h: nat, n: nat)
    returns (run: seq<State>, events: seq<Event>)
    requires c.Valid() && c.capacity < TWO_32 && Onto(c, keys) && n <= c.capacity
    ensures IsRun(c, run, events) && EmptyTable(c, run[0].slots)
    ensures run[|events|].slots == JammedTo(c, keys, h, n) && Settled(c, keys, run[|events|], n)
  {
    if n == 0 {
      run, events := [State(JammedTo(c, keys, h, 0), map[], {})], [];
      EmptyStoresNothing(c, run[0].slots);
    } else {
      run, events := Fill(c, keys, h, n - 1);
      if Reaches(h, n - 1, c.capacity) {
        HomeOfWord(c, keys, n - 1);
        run, events := PlaceAtHome(c, keys, run, events, n - 1, KeyFor(c, keys, HomeWord(c, n - 1)));
      }
      assert run[|events|].slots == JammedTo(c, keys, h, n);
    }
  }

  /** A thread that finds no place on its path walks to the end of it and changes nothing. */
  lemma {:induction false} WalkToTheEnd(c: Config, r: seq<State>, e: seq<Event>, t: Tid, key: Key, p: nat)
    returns (run: seq<State>, events: seq<Event>)
    requires IsRun(c, r, e) && Fits(c, r[|e|].slots) && t in r[|e|].pcs && r[|e|].pcs[t] == Inserting(key, p)
    requires p < c.capacity && !CanPlace(c, r[|e|].slots, key)
    ensures IsRun(c, run, events) && run[0] == r[0]
    ensures run[|events|] == r[|e|].(pcs := r[|e|].pcs[t := Lost(key)])
    decreases c.capacity - p
  {
    run, events := Extend(c, r, e, t, ProbeOnce);
    if p + 1 < c.capacity {
      run, events := WalkToTheEnd(c, run, events, t, key, p + 1);
    }
  }

  /** A table with an empty slot stores fewer keys than it has slots. */
  lemma {:induction false} FewerKeysThanSlots(slots: seq<Key>, all: set<Key>)
    requires forall k :: k in all ==> k in slots
    ensures |all| <= |slots|
  {
    if slots == [] {
      assert !exists k :: k in all;
    } else {
      var rest := all - {slots[0]};
      FewerKeysThanSlots(slots[1..], rest);
      assert slots[0] !in all ==> rest == all;
    }
  }

  /** For every other capacity, some batch that fits loses a key. */
  lemma SomeBatchIsLost(c: Config, keys: iset<Key>) returns (run: seq<State>, events: seq<Event>)
    requires 0 < c.capacity < TWO_32 && !IsPow2(c.capacity) && Onto(c, keys)
    ensures EndsBatch(c, keys, run, events, |events|)
    ensures Stored(c, run[|events|].slots) < run[|events|].asked - {c.empty}
  {
    var m := c.capacity;
    var h, free := MissedSlot(m, if c.hash(c.empty) % TWO_64 % TWO_32 == 0 then 1 else 0);
    var key := KeyFor(c, keys, h);
    var slots := Jammed(c, keys, h);
    run, events := Fill(c, keys, h, m);
    assert run[|events|].slots == slots;
    JammedHasNoPlace(c, keys, h, key);
    JammedIsWellPlaced(c, keys, h);
    run, events := Extend(c, run, events, m, LaunchInsert(key));
    run, events := WalkToTheEnd(c, run, events, m, key, 0);
    WholePathMeansAbsent(c, slots, key);
    assert slots[free] == c.empty;
    FewerKeysThanSlots(slots, Stored(c, slots) + {c.empty});
    assert run[|events|].asked - {c.empty} == Stored(c, slots) + {key};
  }

  /** For a hash function that reaches every word, exactly the power-of-two capacities store every batch
      that fits, under every schedule. */
  lemma StoresEveryBatchIffPow2(c: Config, keys: iset<Key>)
    requires 0 < c.capacity < TWO_32 && Onto(c, keys)
    ensures StoresEveryBatch(c, keys) <==> IsPow2(c.capacity)
  {
    if IsPow2(c.capacity) {
      forall run: seq<State>, events: seq<Event>, i: nat | EndsBatch(c, keys, run, events, i)
        ensures Stored(c, run[i].slots) == run[i].asked - {c.empty}
      {
        EmptyStoresNothing(c, run[0].slots);
        BatchIsStored(c, run, events, i);
      }
    } else {
      var run, events := SomeBatchIsLost(c, keys);
    }
  }
}
