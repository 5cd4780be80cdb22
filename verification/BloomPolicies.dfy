/** The two hashing policies of the Bloom filter, and the size arithmetic of its constructor. */
module BloomPolicies {
  import opened Stride
  import opened Word64
  import opened Bloom
  import Xxh = XxHashKeys
  import opened XxHashSpec
  import opened Width

  /** default_filter_policy::hash: double hashing with an odd stride, in 64-bit arithmetic. */
  function DefaultHash(h1: nat, i: nat): nat { Stride.Probe(h1, i) }

  /** arrow_filter_policy::hash: the stride is the hash times the golden ratio, and need not be odd. */
  const GOLDEN: nat := 0x9E3779B97F4A7C15

  function ArrowHash(h1: nat, i: nat): nat {
    ((h1 + (i * ((h1 * GOLDEN) % TWO_64)) % TWO_64) % TWO_64) / 32
  }

  /** The hash loop of a policy, filling the caller's buffer. */
  method FillBuffer(out: array<nat>, k: nat, h1: nat, arrow: bool)
    requires k <= out.Length
    modifies out
    ensures forall i: nat :: i < k ==> out[i] == if arrow then ArrowHash(h1, i) else DefaultHash(h1, i)
    ensures forall i: nat :: k <= i < out.Length ==> out[i] == old(out[i])
  {
    var i := 0;
    while i < k
      invariant i <= k
      invariant forall j: nat :: j < i ==> out[j] == if arrow then ArrowHash(h1, j) else DefaultHash(h1, j)
      invariant forall j: nat :: i <= j < out.Length ==> out[j] == old(out[j])
    {
      out[i] := if arrow then ArrowHash(h1, i) else DefaultHash(h1, i);
      i := i + 1;
    }
  }

  // ---- how many bits a key owns ----

  /** Under the default policy the bit indices of one key in its block are pairwise distinct as soon
      as a block has a power-of-two number of bits, sixteen or more. */
  lemma DefaultIndicesDistinct<K>(f: Filter<K>, base: K -> nat, key: K, i: nat, j: nat)
    requires f.Valid() && (forall k: K, n: nat :: f.hash(k, n) == DefaultHash(base(k), n))
    requires IsPow2(f.BitsPerBlock()) && 16 <= f.BitsPerBlock() && i < j < f.Hashes()
    ensures BitIndex(f, key, i) != BitIndex(f, key, j)
    ensures Pos(f, key, i) != Pos(f, key, j)
  {
    var k: nat :| k <= 64 && f.BitsPerBlock() == Pow2(k);
    ProbesDistinct(base(key), i, j, k);
    PositionIsIndex(f, key, i);
    PositionIsIndex(f, key, j);
  }

  /** A position determines the bit index in the block. */
  lemma PositionIsIndex<K>(f: Filter<K>, key: K, i: nat)
    requires f.Valid()
    ensures BitIndex(f, key, i)
         == (WordOf(f, key, i) - BlockOf(f, key) * f.wordsPerBlock) * f.bitsPerWord + OffsetOf(f, key, i)
  {
    var x := BitIndex(f, key, i);
    assert x == (x / f.bitsPerWord) * f.bitsPerWord + x % f.bitsPerWord;
  }

  /** So an added key owns exactly as many bits as there are hash functions. */
  lemma DefaultMaskSize<K>(f: Filter<K>, base: K -> nat, key: K)
    requires f.Valid() && (forall k: K, n: nat :: f.hash(k, n) == DefaultHash(base(k), n))
    requires IsPow2(f.BitsPerBlock()) && 16 <= f.BitsPerBlock()
    ensures |Mask(f, key)| == if f.functions < 16 then f.functions else 16
  {
    SizeIffDistinct(f, key, f.Hashes());
    forall i: nat, j: nat | i < j < f.Hashes() ensures Pos(f, key, i) != Pos(f, key, j) {
      DefaultIndicesDistinct(f, base, key, i, j);
    }
  }

  /** The first `n` hashes set `n` bits exactly if no two of them set the same one. */
  lemma {:induction false} SizeIffDistinct<K>(f: Filter<K>, key: K, n: nat)
    requires f.Valid()
    ensures |Partial(f, key, n)| <= n
    ensures |Partial(f, key, n)| == n <==> forall i: nat, j: nat :: i < j < n ==> Pos(f, key, i) != Pos(f, key, j)
  {
    if n == 0 {
      assert Partial(f, key, 0) == {};
    } else {
      SizeIffDistinct(f, key, n - 1);
      OneMoreHash(f, key, n - 1);
    }
  }

  /** One hash more sets one bit more, unless an earlier hash has set it. */
  lemma OneMoreHash<K>(f: Filter<K>, key: K, n: nat)
    requires f.Valid()
    ensures |Partial(f, key, n + 1)| == |Partial(f, key, n)| + if Pos(f, key, n) in Partial(f, key, n) then 0 else 1
    ensures Pos(f, key, n) in Partial(f, key, n) <==> exists i: nat :: i < n && Pos(f, key, i) == Pos(f, key, n)
  {
    PartialGrows(f, key, n);
    if Pos(f, key, n) in Partial(f, key, n) {
      assert Partial(f, key, n + 1) == Partial(f, key, n);
    }
  }

  /** In one block, two hashes set the same bit exactly if their bit indices agree. */
  lemma SameBitIffSameIndex<K>(f: Filter<K>, key: K, i: nat, j: nat)
    requires f.Valid()
    ensures Pos(f, key, i) == Pos(f, key, j) <==> BitIndex(f, key, i) == BitIndex(f, key, j)
  {
    PositionIsIndex(f, key, i);
    PositionIsIndex(f, key, j);
  }

  // ---- the Arrow policy ----

  /** The Arrow policy's block: eight words of thirty-two bits, hence windows of 32 on a ring of 8192. */
  const RING: nat := 8192

  ghost predicate IsArrow<K(!new)>(f: Filter<K>, base: K -> nat) {
    && f.Valid() && f.wordsPerBlock == 8 && f.bitsPerWord == 32
    && forall k: K, n: nat :: f.hash(k, n) == ArrowHash(base(k), n)
  }

  /** How far each hash moves on the ring, and where hash `i` lands, given the remainder of the first. */
  function RingStep(r: nat): nat { (r * GOLDEN) % RING }

  function RingAt(r: nat, i: nat): (x: nat)
    ensures x < RING
  {
    (r + i * RingStep(r)) % RING
  }

  /** Two hashes of one key land in one window exactly if the gap between them, counted from the offset in
      the first one's window, does not leave the window or comes all the way round into it again. */
  predicate SharesWindow(r: nat, i: nat, j: nat)
    requires i < j
  {
    var reach := RingAt(r, i) % 32 + ((j - i) * RingStep(r)) % RING;
    reach < 32 || reach >= RING
  }

  lemma WindowOfSum(u: nat, gap: nat)
    requires u < RING && gap < RING
    ensures u / 32 == ((u + gap) % RING) / 32 <==> u % 32 + gap < 32 || u % 32 + gap >= RING
  {
    var q, t := u / 32, u % 32 + gap;
    assert u + gap == 32 * q + t;
    if u + gap < RING {
      assert (u + gap) % RING == 32 * q + t;
      assert (32 * q + t) / 32 == q + t / 32;
    } else {
      assert (u + gap) % RING == 32 * q + t - RING;
      assert (32 * q + t - RING) / 32 == q + t / 32 - 256;
    }
  }

  lemma ReduceBoth(h: nat, i: nat, s: nat, m: nat)
    requires m > 0
    ensures (h + i * s) % m == (h % m + i * (s % m)) % m
  {
    var a, b := h / m, s / m;
    var x := h % m + i * (s % m);
    ModSplit(h, m);
    ModSplit(s, m);
    assert i * s == i * (s % m) + (i * b) * m by { Spread3(i, s % m, b, m); }
    assert h + i * s == x + (a + i * b) * m by { Gather2(a, i * b, m); }
    ModOfSum(x, a + i * b, m);
  }

  lemma ModSplit(x: nat, m: nat)
    requires m > 0
    ensures x == x % m + (x / m) * m
  {}

  lemma Spread3(i: nat, r: nat, b: nat, m: nat)
    ensures i * (r + b * m) == i * r + (i * b) * m
  {}

  lemma Gather2(a: nat, b: nat, m: nat)
    ensures a * m + b * m == (a + b) * m
  {}

  /** In 64-bit arithmetic, too, the bit index of an Arrow hash is its window on the ring. */
  lemma ArrowIndexIsWindow(h1: nat, i: nat)
    ensures ArrowHash(h1, i) % 256 == RingAt(h1 % RING, i) / 32
  {
    var h2 := (h1 * GOLDEN) % TWO_64;
    var rest := 0x8_0000_0000_0000;
    WrapIsInvisible(h1, i * h2, RING, rest);
    ReduceBoth(h1, i, h2, RING);
    ModOfMod(h1 * GOLDEN, RING, rest);
    ReduceBoth(0, GOLDEN, h1, RING);
    ReduceBoth(0, GOLDEN, h1 % RING, RING);
    assert h2 % RING == RingStep(h1 % RING);
    BitsOfRing((h1 + (i * h2) % TWO_64) % TWO_64);
  }

  lemma BitsOfRing(x: nat)
    ensures (x / 32) % 256 == (x % RING) / 32
  {
    var q, r := x / RING, x % RING;
    assert x == q * RING + r;
    assert x / 32 == q * 256 + r / 32;
    ModUnique(x / 32, 256, q, r / 32);
  }

  lemma RingAdds(r: nat, i: nat, j: nat)
    requires i <= j
    ensures RingAt(r, j) == (RingAt(r, i) + ((j - i) * RingStep(r)) % RING) % RING
  {
    var s := RingStep(r);
    Distribute(i, j, s);
    ReduceBoth(r + i * s, 1, (j - i) * s, RING);
  }

  lemma ArrowCollision<K(!new)>(f: Filter<K>, base: K -> nat, key: K, i: nat, j: nat)
    requires IsArrow(f, base) && i < j
    ensures Pos(f, key, i) == Pos(f, key, j) <==> SharesWindow(base(key) % RING, i, j)
  {
    var r := base(key) % RING;
    SameBitIffSameIndex(f, key, i, j);
    ArrowIndexIsWindow(base(key), i);
    ArrowIndexIsWindow(base(key), j);
    RingAdds(r, i, j);
    WindowOfSum(RingAt(r, i), ((j - i) * RingStep(r)) % RING);
  }

  /** Under the Arrow policy a key owns as many bits as there are hash functions exactly if no two of them
      share a window, which depends on the remainder of its hash modulo 8192 alone. */
  lemma ArrowMaskSizeIff<K(!new)>(f: Filter<K>, base: K -> nat, key: K)
    requires IsArrow(f, base)
    ensures |Mask(f, key)| == f.Hashes() <==>
            forall i: nat, j: nat :: i < j < f.Hashes() ==> !SharesWindow(base(key) % RING, i, j)
  {
    SizeIffDistinct(f, key, f.Hashes());
    forall i: nat, j: nat | i < j < f.Hashes()
      ensures Pos(f, key, i) == Pos(f, key, j) <==> SharesWindow(base(key) % RING, i, j)
    {
      ArrowCollision(f, base, key, i, j);
    }
  }

  /** It is enough that no multiple of the step comes within a window's width of a full turn. */
  lemma ArrowGapsSuffice<K(!new)>(f: Filter<K>, base: K -> nat, key: K)
    requires IsArrow(f, base)
    requires forall n: nat :: 0 < n < f.Hashes() ==> 32 <= (n * RingStep(base(key) % RING)) % RING <= RING - 32
    ensures |Mask(f, key)| == f.Hashes()
  {
    ArrowMaskSizeIff(f, base, key);
  }

  /** The condition can fail as badly as possible: some eight-byte key hashes to zero, and that key owns a
      single bit however many hash functions there are. */
  lemma ArrowMaskCanCollapse(f: Filter<seq<Byte>>) returns (key: seq<Byte>)
    requires f.Valid()
    requires forall k: seq<Byte>, n: nat :: f.hash(k, n) == ArrowHash(Xxh.Xxh64(k, 0), n)
    ensures |key| == 8 && |Mask(f, key)| == 1
  {
    key := Xxh.EveryHashIsReached(0, 0);
    forall i: nat ensures f.hash(key, i) == 0 {
      assert f.hash(key, i) == ArrowHash(0, i);
      ArrowOfZero(i);
    }
    OneBitMask(f, key);
  }

  lemma ArrowOfZero(i: nat)
    ensures ArrowHash(0, i) == 0
  {
    assert (0 * GOLDEN) % TWO_64 == 0 && i * 0 == 0;
  }

  lemma OneBitMask<K>(f: Filter<K>, key: K)
    requires f.Valid() && forall i: nat :: f.hash(key, i) == 0
    ensures |Mask(f, key)| == 1
  {
    forall i: nat ensures Pos(f, key, i) == Pos(f, key, 0) {
      assert f.hash(key, i) == f.hash(key, 0);
    }
    assert Pos(f, key, 0) in Mask(f, key);
    assert Mask(f, key) == {Pos(f, key, 0)};
  }

  // ---- the constructor ----

  datatype Size = Allocated(bytes: nat) | Rejected

  /** The size arithmetic of the constructor: the 64-bit product is returned only if it did not wrap. */
  method AllocationSize(blockExtent: nat, wordsPerBlock: nat, wordBytes: nat) returns (r: Size)
    requires blockExtent <= SIZE_MAX && wordsPerBlock <= SIZE_MAX && 0 < wordBytes
    ensures r == Rejected <==> blockExtent == 0 || blockExtent * wordsPerBlock > SIZE_MAX
                               || (blockExtent * wordsPerBlock) * wordBytes > SIZE_MAX
    ensures r.Allocated? ==> r.bytes == (blockExtent * wordsPerBlock) * wordBytes
  {
    if blockExtent == 0 { return Rejected; }
    QuotientTest(wordsPerBlock, blockExtent);
    if wordsPerBlock > SIZE_MAX / blockExtent { return Rejected; }
    assert wordsPerBlock * blockExtent == blockExtent * wordsPerBlock;
    var wordsTotal := (blockExtent * wordsPerBlock) % TWO_64;
    if wordsTotal != 0 {
      QuotientTest(wordBytes, wordsTotal);
      if wordBytes > SIZE_MAX / wordsTotal { return Rejected; }
      assert wordBytes * wordsTotal == wordsTotal * wordBytes;
    }
    return Allocated((wordsTotal * wordBytes) % TWO_64);
  }

  /** `a > MAX / b` is the overflow test for `a * b`. */
  lemma QuotientTest(a: nat, b: nat)
    requires b > 0
    ensures a > SIZE_MAX / b <==> a * b > SIZE_MAX
  {
    var q := SIZE_MAX / b;
    assert SIZE_MAX == q * b + SIZE_MAX % b;
    assert a <= q ==> a * b <= q * b;
    assert a >= q + 1 ==> a * b >= (q + 1) * b;
    assert (q + 1) * b == q * b + b;
  }

  /** Every word the kernels touch lies inside the unwrapped allocation. */
  lemma TouchedBytesInside<K>(f: Filter<K>, key: K, i: nat, wordBytes: nat)
    requires f.Valid()
    ensures WordOf(f, key, i) * wordBytes + wordBytes <= (f.numBlocks * f.wordsPerBlock) * wordBytes
  {
    WordInRange(f, key, i);
    BlockEnds(WordOf(f, key, i), f.numBlocks * f.wordsPerBlock, wordBytes);
  }
}
