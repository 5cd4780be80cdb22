/** The blocked Bloom filter: an array of words that stands for a set of bit positions. */
module Bloom {
  import opened Stride
  import opened Word64

  // ---- bits of a word ----

  predicate Bit(w: nat, j: nat) { ShrBits(w, j) % 2 == 1 }

  /** Bitwise and, lowest bit first. */
  function AndBits(x: nat, y: nat): nat
    decreases x + y
  {
    if x == 0 || y == 0 then 0
    else 2 * AndBits(x / 2, y / 2) + if x % 2 == 1 && y % 2 == 1 then 1 else 0
  }

  /** Oring in `1 << i` sets bit `i` and no other. */
  lemma {:induction false} OrSetsBit(w: nat, i: nat, j: nat)
    ensures Bit(OrBits(w, Pow2(i)), j) <==> Bit(w, j) || i == j
    decreases i + j
  {
    OrHalf(w, Pow2(i));
    if i == 0 && j > 0 {
      OrZero(w / 2);
    } else if i > 0 && j == 0 {
    } else if i > 0 && j > 0 {
      OrSetsBit(w / 2, i - 1, j - 1);
    }
  }

  /** Testing `w & (1 << j)` tests bit `j`. */
  lemma {:induction false} AndTestsBit(w: nat, j: nat)
    ensures AndBits(w, Pow2(j)) != 0 <==> Bit(w, j)
    decreases j
  {
    if w == 0 {
      ShiftOfZero(j);
    } else if j == 0 {
      AndZero(w / 2);
    } else {
      AndTestsBit(w / 2, j - 1);
    }
  }

  lemma AndZero(x: nat)
    ensures AndBits(x, 0) == 0
  {}

  // ---- the filter ----

  /** A filter: its size, the number of hash functions its policy asks for, and the policy's hashes. */
  datatype Filter<!K> = Filter(numBlocks: nat, wordsPerBlock: nat, bitsPerWord: nat, functions: nat,
                               hash: (K, nat) -> nat) {
    predicate Valid() { numBlocks > 0 && wordsPerBlock > 0 && bitsPerWord > 0 && functions > 0 }

    function BitsPerBlock(): nat { wordsPerBlock * bitsPerWord }

    /** The kernels keep at most sixteen hashes. */
    function Hashes(): nat { if functions > 16 then 16 else functions }
  }

  lemma BlockHasBits<K>(f: Filter<K>)
    requires f.Valid()
    ensures f.BitsPerBlock() > 0
  {}

  function BlockOf<K>(f: Filter<K>, key: K): (b: nat)
    requires f.Valid()
    ensures b < f.numBlocks
  {
    f.hash(key, 0) % f.numBlocks
  }

  function BitIndex<K>(f: Filter<K>, key: K, i: nat): (b: nat)
    requires f.Valid()
    ensures b < f.BitsPerBlock()
  {
    BlockHasBits(f);
    f.hash(key, i) % f.BitsPerBlock()
  }

  /** The word a hash touches, and the bit in it. */
  function WordOf<K>(f: Filter<K>, key: K, i: nat): nat
    requires f.Valid()
  {
    BlockOf(f, key) * f.wordsPerBlock + BitIndex(f, key, i) / f.bitsPerWord
  }

  function OffsetOf<K>(f: Filter<K>, key: K, i: nat): nat
    requires f.Valid()
  {
    BitIndex(f, key, i) % f.bitsPerWord
  }

  /** A bit of the filter, as a pair of word and offset. */
  type Position = (nat, nat)

  function Pos<K>(f: Filter<K>, key: K, i: nat): Position
    requires f.Valid()
  {
    (WordOf(f, key, i), OffsetOf(f, key, i))
  }

  function Partial<K>(f: Filter<K>, key: K, n: nat): set<Position>
    requires f.Valid()
  {
    set i: nat | i < n :: Pos(f, key, i)
  }

  /** The bits an added key owns. */
  function Mask<K>(f: Filter<K>, key: K): set<Position>
    requires f.Valid()
  {
    Partial(f, key, f.Hashes())
  }

  /** The set of bit positions a word array represents. */
  ghost function Bits(words: seq<nat>): iset<Position> {
    iset p: Position | p.0 < |words| && Bit(words[p.0], p.1)
  }

  ghost predicate Fits<K>(f: Filter<K>, words: seq<nat>) {
    f.Valid() && |words| == f.numBlocks * f.wordsPerBlock
  }

  /** Every word a kernel touches lies inside the array. */
  lemma WordInRange<K>(f: Filter<K>, key: K, i: nat)
    requires f.Valid()
    ensures WordOf(f, key, i) < f.numBlocks * f.wordsPerBlock
  {
    var b, w := BlockOf(f, key), f.wordsPerBlock;
    QuotientBelow(BitIndex(f, key, i), w, f.bitsPerWord);
    BlockEnds(b, f.numBlocks, w);
  }

  lemma BlockEnds(b: nat, n: nat, w: nat)
    requires b < n
    ensures b * w + w <= n * w
  {
    Distribute(b + 1, n, w);
    assert (b + 1) * w == b * w + w;
  }

  lemma QuotientBelow(x: nat, w: nat, m: nat)
    requires m > 0 && x < w * m
    ensures x / m < w
  {
    var q := x / m;
    assert x == q * m + x % m;
    assert q >= w ==> q * m >= w * m;
  }

  /** What one atomicOr does to the set: it adds one position. */
  function SetBit(words: seq<nat>, p: Position): seq<nat>
    requires p.0 < |words|
  {
    words[p.0 := OrBits(words[p.0], Pow2(p.1))]
  }

  lemma SetBitAdds(words: seq<nat>, p: Position)
    requires p.0 < |words|
    ensures Bits(SetBit(words, p)) == Bits(words) + iset{p}
  {
    var words' := SetBit(words, p);
    forall q: Position ensures q in Bits(words') <==> q in Bits(words) || q == p {
      if q.0 == p.0 { OrSetsBit(words[p.0], p.1, q.1); }
    }
  }

  ghost predicate Contains(s: iset<Position>, mask: set<Position>) { forall p :: p in mask ==> p in s }

  // ---- the kernels, one thread each ----

  /** bloom_add_kernel: afterwards the array stands for the old set and the key's mask. */
  method Add<K>(f: Filter<K>, words: array<nat>, key: K)
    requires Fits(f, words[..])
    modifies words
    ensures Fits(f, words[..])
    ensures Bits(words[..]) == Bits(old(words[..])) + iset p | p in Mask(f, key)
  {
    var hashes := FillHashes(f, key);
    var block := (hashes[0] % f.numBlocks) * f.wordsPerBlock;
    BlockHasBits(f);
    var i := 0;
    while i < 16 && i < f.Hashes()
      invariant i <= f.Hashes()
      invariant Fits(f, words[..])
      invariant Bits(words[..]) == Bits(old(words[..])) + iset p | p in Partial(f, key, i)
    {
      var bitIdx := hashes[i] % f.BitsPerBlock();
      var word := block + bitIdx / f.bitsPerWord;
      WordInRange(f, key, i);
      ghost var before := words[..];
      words[word] := OrBits(words[word], Pow2(bitIdx % f.bitsPerWord));
      SetBitAdds(before, Pos(f, key, i));
      assert words[..] == SetBit(before, Pos(f, key, i));
      PartialGrows(f, key, i);
      i := i + 1;
    }
  }

  lemma PartialGrows<K>(f: Filter<K>, key: K, n: nat)
    requires f.Valid()
    ensures Partial(f, key, n + 1) == Partial(f, key, n) + {Pos(f, key, n)}
  {}

  /** The stack buffer of hashes, filled by the policy. */
  method FillHashes<K>(f: Filter<K>, key: K) returns (hashes: seq<nat>)
    requires f.Valid()
    ensures |hashes| == f.Hashes() && forall i: nat :: i < |hashes| ==> hashes[i] == f.hash(key, i)
  {
    hashes := [];
    while |hashes| < f.Hashes()
      invariant |hashes| <= f.Hashes()
      invariant forall i: nat :: i < |hashes| ==> hashes[i] == f.hash(key, i)
    {
      hashes := hashes + [f.hash(key, |hashes|)];
    }
  }

  /** bloom_probe_kernel: true exactly if the key's whole mask is set. */
  method Probe<K>(f: Filter<K>, words: array<nat>, key: K) returns (found: bool)
    requires Fits(f, words[..])
    ensures found <==> Contains(Bits(words[..]), Mask(f, key))
  {
    var hashes := FillHashes(f, key);
    var block := (hashes[0] % f.numBlocks) * f.wordsPerBlock;
    BlockHasBits(f);
    found := true;
    var i := 0;
    while i < 16 && i < f.Hashes() && found
      invariant i <= f.Hashes()
      invariant found ==> Contains(Bits(words[..]), Partial(f, key, i))
      invariant !found ==> !Contains(Bits(words[..]), Mask(f, key))
    {
      var bitIdx := hashes[i] % f.BitsPerBlock();
      var word := block + bitIdx / f.bitsPerWord;
      WordInRange(f, key, i);
      AndTestsBit(words[word], bitIdx % f.bitsPerWord);
      assert Pos(f, key, i) in Mask(f, key);
      if AndBits(words[word], Pow2(bitIdx % f.bitsPerWord)) == 0 {
        found := false;
        assert Pos(f, key, i) !in Bits(words[..]);
      } else {
        assert Pos(f, key, i) in Bits(words[..]);
      }
      PartialGrows(f, key, i);
      i := i + 1;
    }
  }
}
