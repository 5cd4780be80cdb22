/** The policies' hashes in the words of the code, and what they reach: no block of a filter is out of reach. */
module BloomBlocks {
  import opened Stride
  import opened Width
  import opened Word64
  import opened ProbeWords
  import opened XxHashSpec
  import opened XxHashKeys
  import opened Bloom
  import opened BloomPolicies

  /** `h1 + i * ((h1 >> 32) | 1)`. */
  lemma DefaultHashIsWord(h1: Word, i: Word)
    ensures DefaultHash(h1, i) == Word64.Add(h1, Mul(i, Or(Shr(h1, 32), 1)))
  {
    ProbeIsWord(h1, i);
  }

  lemma ShiftByFive(x: Word)
    ensures Shr(x, 5) == x / 32
  {
    ShrIsQuotient(x, 5);
    assert Pow2(5) == 32;
  }

  lemma ArrowSum(h1: Word, i: Word, step: Word, turn: Word, sum: Word)
    requires step == Mul(h1, 0x9E37_79B9_7F4A_7C15) && turn == Mul(i, step) && sum == Word64.Add(h1, turn)
    ensures ArrowHash(h1, i) == sum / 32
  {}

  /** `(h1 + i * (h1 * 0x9E3779B97F4A7C15)) >> 5`: only the lowest five bits of the sum are lost. */
  lemma ArrowHashIsWord(h1: Word, i: Word) returns (low: nat)
    ensures ArrowHash(h1, i) == Shr(Word64.Add(h1, Mul(i, Mul(h1, 0x9E37_79B9_7F4A_7C15))), 5)
    ensures low < 32 && 32 * ArrowHash(h1, i) + low == Word64.Add(h1, Mul(i, Mul(h1, 0x9E37_79B9_7F4A_7C15)))
  {
    var step := Mul(h1, 0x9E37_79B9_7F4A_7C15);
    var sum := Word64.Add(h1, Mul(i, step));
    ArrowSum(h1, i, step, Mul(i, step), sum);
    ShiftByFive(sum);
    low := sum % 32;
  }

  /** The filter hashes byte strings with xxHash, under the Arrow policy or the default one. */
  ghost predicate ArrowOnBytes(f: Filter<seq<Byte>>) {
    f.Valid() && forall k: seq<Byte>, n: nat :: f.hash(k, n) == ArrowHash(Xxh64(k, 0), n)
  }

  ghost predicate DefaultOnBytes(f: Filter<seq<Byte>>) {
    f.Valid() && forall k: seq<Byte>, n: nat :: f.hash(k, n) == DefaultHash(Xxh64(k, 0), n)
  }

  lemma FirstHashes(h1: Word)
    ensures ArrowHash(h1, 0) == h1 / 32 && DefaultHash(h1, 0) == h1
  {
    assert 0 * ((h1 * GOLDEN) % TWO_64) == 0 && 0 * StrideOf(h1) == 0;
  }

  lemma BlockOfHash(f: Filter<seq<Byte>>, key: seq<Byte>, b: nat)
    requires f.Valid() && f.hash(key, 0) == b < f.numBlocks
    ensures BlockOf(f, key) == b
  {}

  lemma ArrowHashOfKey(f: Filter<seq<Byte>>, key: seq<Byte>, h: Word)
    requires ArrowOnBytes(f) && Xxh64(key, 0) == h
    ensures f.hash(key, 0) == h / 32
  {
    assert f.hash(key, 0) == ArrowHash(h, 0);
    FirstHashes(h);
  }

  lemma DefaultHashOfKey(f: Filter<seq<Byte>>, key: seq<Byte>, h: Word)
    requires DefaultOnBytes(f) && Xxh64(key, 0) == h
    ensures f.hash(key, 0) == h
  {
    assert f.hash(key, 0) == DefaultHash(h, 0);
    FirstHashes(h);
  }

  /** Under the Arrow policy every block of a filter of up to 2^59 blocks is that of some eight-byte key; the
      largest filter the policy admits has 2^26. */
  lemma EveryArrowBlockIsUsed(f: Filter<seq<Byte>>, b: nat) returns (key: seq<Byte>)
    requires ArrowOnBytes(f) && b < f.numBlocks <= 0x800_0000_0000_0000
    ensures |key| == 8 && BlockOf(f, key) == b
  {
    var h: Word := 32 * b;
    key := EveryHashIsReached(h, 0);
    ArrowHashOfKey(f, key, h);
    BlockOfHash(f, key, b);
  }

  /** So it is under the default policy, whatever the number of blocks. */
  lemma EveryDefaultBlockIsUsed(f: Filter<seq<Byte>>, b: nat) returns (key: seq<Byte>)
    requires DefaultOnBytes(f) && b < f.numBlocks <= TWO_64
    ensures |key| == 8 && BlockOf(f, key) == b
  {
    key := EveryHashIsReached(b, 0);
    DefaultHashOfKey(f, key, b);
    BlockOfHash(f, key, b);
  }

  /** The bits of the whole filter in order: bit `i` of a key is in its block, at its index. */
  lemma PositionNumber<K>(f: Filter<K>, key: K, i: nat)
    requires f.Valid()
    ensures f.BitsPerBlock() > 0
    ensures WordOf(f, key, i) * f.bitsPerWord + OffsetOf(f, key, i)
         == (f.hash(key, 0) % f.numBlocks) * f.BitsPerBlock() + f.hash(key, i) % f.BitsPerBlock()
  {
    BlockHasBits(f);
    PositionIsIndex(f, key, i);
    var b, w, m := BlockOf(f, key), f.wordsPerBlock, f.bitsPerWord;
    Distribute(b * w, WordOf(f, key, i), m);
    Regroup(b, w, m);
  }
}
