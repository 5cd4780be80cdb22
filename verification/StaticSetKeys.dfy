/** The set with the default hash on eight-byte keys: which capacities can lose an insertion. */
module StaticSetKeys {
  import opened ProbeWords
  import opened Stride
  import opened Word64
  import opened XxHashKeys
  import opened StaticSet
  import opened StaticSetComplete
  import opened Width

  /** The probing path in the words of the code: `(h + probe * ((h >> 32) | 1)) % capacity` in 64 bits. */
  lemma PathInWords(c: Config, key: Key, probe: Word, h: Word)
    requires c.Valid() && h == c.hash(key) % TWO_64
    ensures Path(c, key, probe) == Word64.Add(h, Mul(probe, Or(Shr(h, 32), 1))) % c.capacity
  {
    SlotInWords(h, probe, c.capacity);
  }

  /** The 64-bit key type. */
  predicate IsWord64(k: Key) { 0 <= k < TWO_64 }

  ghost function Words64(): iset<Key> { iset k: Key | IsWord64(k) }

  /** The set's hash function is `f` on 64-bit keys. */
  ghost predicate HashesBy(c: Config, f: Word -> Word) { forall k: Word :: c.hash(k) == f(k) }

  lemma HashReaches(c: Config, f: Word -> Word, k: Word)
    requires HashesBy(c, f)
    ensures Hits(c, Words64(), f(k))
  {
    assert IsWord64(k) && k in Words64();
    assert c.hash(k) == f(k);
  }

  /** default_hash_function: the hash of the eight bytes of the key, with seed zero. */
  function DefaultHash(k: Word): Word { Xxh64(Bytes(k, 8), 0) }

  lemma DefaultHashReaches(w: Word) returns (k: Word)
    ensures DefaultHash(k) == w
  {
    k := EveryHashHasANumber(w, 0);
  }

  lemma DefaultHits(c: Config, w: Word)
    requires HashesBy(c, DefaultHash)
    ensures Hits(c, Words64(), w)
  {
    var k := DefaultHashReaches(w);
    HashReaches(c, DefaultHash, k);
  }

  /** With the default hash, whatever 64-bit key marks the empty slots, exactly the power-of-two capacities
      store every batch of 64-bit keys that fits. */
  lemma DefaultSetIsCompleteIffPow2(c: Config)
    requires HashesBy(c, DefaultHash) && 0 < c.capacity < TWO_32
    ensures StoresEveryBatch(c, Words64()) <==> IsPow2(c.capacity)
  {
    forall w: Word ensures Hits(c, Words64(), w) { DefaultHits(c, w); }
    StoresEveryBatchIffPow2(c, Words64());
  }
}
