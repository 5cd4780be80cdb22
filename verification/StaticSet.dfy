/** The open-addressing hash set as one thread sees it: filling, inserting and probing an array of
    slots along the double-hashing path of a key. */
module StaticSet {
  import opened Stride
  import opened Width

  type Key = int

  /** What a table fixes: its capacity, the key that marks an empty slot, and the hash function. */
  datatype Config = Config(capacity: nat, empty: Key, hash: Key -> nat) {
    predicate Valid() { capacity > 0 }
  }

  function Path(c: Config, key: Key, probe: nat): (slot: nat)
    requires c.Valid()
    ensures slot < c.capacity
  {
    Slot(c.hash(key) % TWO_64, probe, c.capacity)
  }

  ghost predicate Fits(c: Config, slots: seq<Key>) { c.Valid() && |slots| == c.capacity }

  /** The first `n` probes of `key` find neither an empty slot nor the key. */
  ghost predicate Passed(c: Config, slots: seq<Key>, key: Key, n: nat)
    requires Fits(c, slots)
  {
    forall q: nat :: q < n ==> slots[Path(c, key, q)] != c.empty && slots[Path(c, key, q)] != key
  }

  /** Probe `p` is where a lookup of `key` succeeds. */
  ghost predicate FoundAt(c: Config, slots: seq<Key>, key: Key, p: nat)
    requires Fits(c, slots)
  {
    p < c.capacity && slots[Path(c, key, p)] == key && Passed(c, slots, key, p)
  }

  /** Slot `i` is where its own key's path first leads. */
  ghost predicate Anchored(c: Config, slots: seq<Key>, i: nat)
    requires Fits(c, slots) && i < |slots|
  {
    exists p: nat :: FoundAt(c, slots, slots[i], p) && Path(c, slots[i], p) == i
  }

  /** The table invariant: every stored key has only filled slots earlier on its path. */
  ghost predicate WellPlaced(c: Config, slots: seq<Key>) {
    && Fits(c, slots)
    && forall i: nat :: i < |slots| && slots[i] != c.empty ==> Anchored(c, slots, i)
  }

  ghost function Stored(c: Config, slots: seq<Key>): set<Key> {
    set k | k in slots && k != c.empty
  }

  /** Filled slots never change. */
  ghost predicate Grows(c: Config, old_: seq<Key>, new_: seq<Key>) {
    |old_| == |new_| && forall i: nat :: i < |old_| && old_[i] != c.empty ==> new_[i] == old_[i]
  }

  // ---- lemmas about tables ----

  /** A key has at most one first hit. */
  lemma FoundAtUnique(c: Config, slots: seq<Key>, key: Key, p: nat, q: nat)
    requires Fits(c, slots) && FoundAt(c, slots, key, p) && FoundAt(c, slots, key, q)
    ensures p == q
  {}

  /** No key is stored twice. */
  lemma NoDuplicates(c: Config, slots: seq<Key>, i: nat, j: nat)
    requires WellPlaced(c, slots) && i < |slots| && j < |slots|
    requires slots[i] == slots[j] != c.empty
    ensures i == j
  {
    assert Anchored(c, slots, i) && Anchored(c, slots, j);
    var p: nat :| FoundAt(c, slots, slots[i], p) && Path(c, slots[i], p) == i;
    var q: nat :| FoundAt(c, slots, slots[j], q) && Path(c, slots[j], q) == j;
    FoundAtUnique(c, slots, slots[i], p, q);
  }

  /** A stored key is met no earlier than where its walk has got to, and before the path ends. */
  lemma StoredLiesAhead(c: Config, slots: seq<Key>, key: Key, p: nat)
    requires WellPlaced(c, slots) && key != c.empty && Passed(c, slots, key, p)
    ensures key in slots ==> exists q: nat :: p <= q && FoundAt(c, slots, key, q)
  {
    if key in slots {
      var i :| 0 <= i < |slots| && slots[i] == key;
      assert Anchored(c, slots, i);
      var q: nat :| FoundAt(c, slots, key, q) && Path(c, key, q) == i;
      assert p <= q;
    }
  }

  /** Reaching an empty slot proves a key absent from the whole table. */
  lemma EmptySlotMeansAbsent(c: Config, slots: seq<Key>, key: Key, p: nat)
    requires WellPlaced(c, slots) && key != c.empty
    requires Passed(c, slots, key, p) && slots[Path(c, key, p)] == c.empty
    ensures key !in slots
  {
    StoredLiesAhead(c, slots, key, p);
  }

  /** So does walking the whole path without meeting it. */
  lemma WholePathMeansAbsent(c: Config, slots: seq<Key>, key: Key)
    requires WellPlaced(c, slots) && key != c.empty && Passed(c, slots, key, c.capacity)
    ensures key !in slots
  {
    StoredLiesAhead(c, slots, key, c.capacity);
  }

  lemma PassedGrows(c: Config, a: seq<Key>, b: seq<Key>, key: Key, n: nat)
    requires Fits(c, a) && Fits(c, b) && Grows(c, a, b) && Passed(c, a, key, n)
    ensures Passed(c, b, key, n)
  {}

  /** Filling the empty slot a key's walk has reached keeps every key anchored. */
  lemma FillKeepsPlaces(c: Config, slots: seq<Key>, key: Key, p: nat)
    requires WellPlaced(c, slots) && p < c.capacity && key != c.empty
    requires Passed(c, slots, key, p) && slots[Path(c, key, p)] == c.empty
    ensures WellPlaced(c, slots[Path(c, key, p) := key])
    ensures Grows(c, slots, slots[Path(c, key, p) := key])
    ensures Stored(c, slots[Path(c, key, p) := key]) == Stored(c, slots) + {key}
  {
    var s := Path(c, key, p);
    var slots' := slots[s := key];
    EmptySlotMeansAbsent(c, slots, key, p);
    forall i: nat | i < |slots'| && slots'[i] != c.empty ensures Anchored(c, slots', i) {
      if i == s {
        PassedGrows(c, slots, slots', key, p);
        assert FoundAt(c, slots', key, p);
      } else {
        assert Anchored(c, slots, i);
        var q: nat :| FoundAt(c, slots, slots[i], q) && Path(c, slots[i], q) == i;
        PassedGrows(c, slots, slots', slots[i], q);
        assert FoundAt(c, slots', slots[i], q);
      }
    }
    FillStores(c, slots, s, key);
  }

  lemma FillStores(c: Config, slots: seq<Key>, s: nat, key: Key)
    requires s < |slots| && slots[s] == c.empty != key
    ensures Stored(c, slots[s := key]) == Stored(c, slots) + {key}
  {
    var slots' := slots[s := key];
    assert slots'[s] == key;
    forall k | k in slots && k != c.empty ensures k in slots' {
      var i :| 0 <= i < |slots| && slots[i] == k;
      assert slots'[i] == k;
    }
  }

  // ---- what an insertion and a lookup are supposed to do ----

  /** The path of `key` leads to a slot that is empty or already holds it. */
  ghost predicate CanPlace(c: Config, slots: seq<Key>, key: Key)
    requires Fits(c, slots)
  {
    !Passed(c, slots, key, c.capacity)
  }

  /** With a power-of-two capacity, a key that is not stored can be placed unless the table is full. */
  lemma PlaceExists(c: Config, slots: seq<Key>, key: Key, free: nat)
    requires Fits(c, slots) && IsPow2(c.capacity)
    requires free < |slots| && slots[free] == c.empty
    ensures CanPlace(c, slots, key)
  {
    PathCoversTable(c.hash(key) % TWO_64, c.capacity, free);
    var p: nat :| p < c.capacity && Slot(c.hash(key) % TWO_64, p, c.capacity) == free;
    assert Path(c, key, p) == free;
  }

  // ---- the kernels ----

  /** The indices a grid-stride loop visits. */
  ghost predicate OnGrid(first: nat, stride: nat, i: nat) { exists r: nat :: i == GridIndex(first, stride, r) }

  function GridIndex(first: nat, stride: nat, r: nat): nat { first + r * stride }

  lemma GridGap(first: nat, stride: nat, r: nat, i: nat)
    requires GridIndex(first, stride, r) < i < GridIndex(first, stride, r) + stride
    ensures !OnGrid(first, stride, i)
  {
    forall q: nat ensures i != GridIndex(first, stride, q) {
      var d := q - r;
      assert GridIndex(first, stride, q) == GridIndex(first, stride, r) + d * stride;
      assert d >= 1 ==> d * stride >= stride;
      assert d <= 0 ==> d * stride <= 0;
    }
  }

  /** fill_empty_key_kernel: the grid-stride loop of one thread of a grid of `stride` threads. */
  method FillEmptyKey(slots: array<Key>, empty: Key, first: nat, stride: nat)
    requires stride > 0
    modifies slots
    ensures forall i: nat :: i < slots.Length ==>
              slots[i] == if OnGrid(first, stride, i) then empty else old(slots[i])
  {
    var i := first;
    ghost var rounds := 0;
    forall j: nat | j < first ensures !OnGrid(first, stride, j) {}
    while i < slots.Length
      invariant i == GridIndex(first, stride, rounds)
      invariant forall j: nat :: j < slots.Length ==>
                  slots[j] == if j < i && OnGrid(first, stride, j) then empty else old(slots[j])
    {
      slots[i] := empty;
      assert OnGrid(first, stride, i);
      forall j: nat | i < j < i + stride ensures !OnGrid(first, stride, j) {
        GridGap(first, stride, rounds, j);
      }
      i := i + stride;
      rounds := rounds + 1;
    }
  }

  /** With as many threads as slots, or with any grid, the threads together fill every slot. */
  lemma GridCovers(stride: nat, i: nat)
    requires stride > 0
    ensures i % stride < stride && OnGrid(i % stride, stride, i)
  {
    assert i == GridIndex(i % stride, stride, i / stride);
  }

  /** atomicCAS on one slot. */
  method AtomicCAS(slots: array<Key>, i: nat, compare: Key, val: Key) returns (old_: Key)
    requires i < slots.Length
    modifies slots
    ensures old_ == old(slots[i])
    ensures slots[..] == old(slots[..])[i := if old_ == compare then val else old_]
  {
    old_ := slots[i];
    if old_ == compare { slots[i] := val; }
  }

  /** set_insert_kernel, one thread running alone. The key ends up in the table exactly if its path
      leads to a place for it, and nothing else changes. */
  method Insert(c: Config, slots: array<Key>, key: Key) returns (placed: bool)
    requires WellPlaced(c, slots[..])
    modifies slots
    ensures WellPlaced(c, slots[..]) && Grows(c, old(slots[..]), slots[..])
    ensures placed <==> CanPlace(c, old(slots[..]), key)
    ensures Stored(c, slots[..]) == Stored(c, old(slots[..])) + if placed && key != c.empty then {key} else {}
    ensures placed && key != c.empty ==> key in slots[..]
    ensures !placed ==> slots[..] == old(slots[..])
  {
    var probe := 0;
    while probe < c.capacity
      invariant probe <= c.capacity
      invariant slots[..] == old(slots[..])
      invariant Passed(c, slots[..], key, probe)
    {
      var i := Path(c, key, probe);
      ghost var before := slots[..];
      assert before[i] == slots[i];
      if key != c.empty && slots[i] == c.empty { FillKeepsPlaces(c, before, key, probe); }
      var was := AtomicCAS(slots, i, c.empty, key);
      if was == c.empty || was == key {
        assert slots[..] == before[i := if was == c.empty then key else was];
        assert slots[..][i] == key;
        if was == key || key == c.empty { assert slots[..] == before; }
        return true;
      }
      assert slots[..] == before;
      probe := probe + 1;
    }
    return false;
  }

  /** A walk that meets neither its key nor an empty slot goes on. */
  lemma PassedNext(c: Config, slots: seq<Key>, key: Key, p: nat)
    requires Fits(c, slots) && Passed(c, slots, key, p)
    requires slots[Path(c, key, p)] != c.empty && slots[Path(c, key, p)] != key
    ensures Passed(c, slots, key, p + 1)
  {}

  /** A walk that meets its key, or an empty slot, has found a place. */
  lemma StopMeansPlace(c: Config, slots: seq<Key>, key: Key, p: nat)
    requires Fits(c, slots) && p < c.capacity && (slots[Path(c, key, p)] == key || slots[Path(c, key, p)] == c.empty)
    ensures CanPlace(c, slots, key)
  {}

  /** set_probe_kernel and set_ref::operator(): a lookup of a key answers true exactly if some slot
      holds it; a lookup of the empty key, exactly if its path meets an empty slot. */
  method Contains(c: Config, slots: array<Key>, key: Key) returns (found: bool)
    requires WellPlaced(c, slots[..])
    ensures key != c.empty ==> (found <==> key in slots[..])
    ensures key == c.empty ==> (found <==> CanPlace(c, slots[..], key))
  {
    ghost var table := slots[..];
    var probe := 0;
    while probe < c.capacity
      invariant probe <= c.capacity
      invariant Passed(c, table, key, probe)
    {
      var i := Path(c, key, probe);
      assert slots[i] == table[i];
      if slots[i] == key {
        StopMeansPlace(c, table, key, probe);
        return true;
      }
      if slots[i] == c.empty {
        EmptySlotMeansAbsent(c, table, key, probe);
        return false;
      }
      PassedNext(c, table, key, probe);
      probe := probe + 1;
    }
    if key != c.empty { WholePathMeansAbsent(c, table, key); }
    return false;
  }
}
