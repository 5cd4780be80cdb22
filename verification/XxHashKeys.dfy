/** xxHash on 64-bit words: the code's reads and rotations are those of the specification, and on keys
    of eight and of four bytes the hash has no collisions. */
module XxHashKeys {
  import opened Stride
  import opened Word64
  import opened XxHashSpec
  import XxHash
  import opened Width

  const PRIME1: Word := 0x9E3779B185EBCA87
  const PRIME2: Word := 0xC2B2AE3D27D4EB4F
  const PRIME3: Word := 0x165667B19E3779F9
  const PRIME4: Word := 0x85EBCA77C2B2AE63
  const PRIME5: Word := 0x27D4EB2F165667C5

  // ---- lanes ----

  /** The number a byte string stands for, least significant byte first. */
  function LittleEndian(s: seq<Byte>): nat {
    if s == [] then 0 else s[0] + 256 * LittleEndian(s[1..])
  }

  lemma {:induction false} LittleEndianBound(s: seq<Byte>)
    ensures LittleEndian(s) < Pow2(8 * |s|)
  {
    if s != [] {
      LittleEndianBound(s[1..]);
      Pow2Splits(8, 8 * |s|);
      Pow2Of8();
    }
  }

  lemma Pow2Of8()
    ensures Pow2(8) == 256
  {
    assert Pow2(4) == 16;
  }

  function Lane(s: seq<Byte>): Word {
    if |s| <= 8 then
      LittleEndianBound(s);
      Pow2Of64();
      Pow2Splits(8 * |s|, 64);
      PowerAtMost(8 * |s|);
      LittleEndian(s)
    else 0
  }

  lemma PowerAtMost(k: nat)
    requires k <= 64
    ensures Pow2(k) <= TWO_64
  {
    Pow2Of64();
    Pow2Splits(k, 64);
    assert Pow2(k) * Pow2(64 - k) >= Pow2(k);
  }

  /** Byte strings of one length are determined by their number... */
  lemma {:induction false} LittleEndianInjective(s: seq<Byte>, t: seq<Byte>)
    requires |s| == |t| && LittleEndian(s) == LittleEndian(t)
    ensures s == t
  {
    if s != [] {
      LittleEndianInjective(s[1..], t[1..]);
      assert s == [s[0]] + s[1..] && t == [t[0]] + t[1..];
    }
  }

  /** ...and every number in range is that of some byte string. */
  function Bytes(w: nat, n: nat): (s: seq<Byte>)
    ensures |s| == n
    decreases n
  {
    if n == 0 then [] else [w % 256] + Bytes(w / 256, n - 1)
  }

  lemma {:induction false} BytesInverse(w: nat, n: nat)
    requires w < Pow2(8 * n)
    ensures LittleEndian(Bytes(w, n)) == w
    decreases n
  {
    if n > 0 {
      Pow2Splits(8, 8 * n);
      Pow2Of8();
      BytesInverse(w / 256, n - 1);
      assert Bytes(w, n)[1..] == Bytes(w / 256, n - 1);
    }
  }

  // ---- the reads of the code ----

  /** `d[0] | (d[1] << 8) | ...` over `n` bytes. */
  function ReadBytes(d: seq<Byte>, n: nat): Word
    requires n <= |d| && n <= 8
    decreases n
  {
    if n == 0 then 0
    else if n == 1 then d[0]
    else Or(ReadBytes(d, n - 1), Shl(d[n - 1], 8 * (n - 1)))
  }

  function CodeLane(d: seq<Byte>): Word { if |d| <= 8 then ReadBytes(d, |d|) else 0 }

  lemma {:induction false} LittleEndianSnoc(s: seq<Byte>, b: Byte)
    ensures LittleEndian(s + [b]) == LittleEndian(s) + b * Pow2(8 * |s|)
  {
    if s == [] {
      assert s + [b] == [b];
      assert LittleEndian([b][1..]) == 0;
    } else {
      LittleEndianSnoc(s[1..], b);
      assert (s + [b])[1..] == s[1..] + [b];
      ByteShift(8 * |s[1..]|);
      Swap256(b, Pow2(8 * |s[1..]|));
    }
  }

  lemma Swap256(b: nat, n: nat)
    ensures 256 * (b * n) == b * (256 * n)
  {}

  lemma ByteTimes(b: Byte, n: nat, w: nat)
    requires n > 0 && 256 * n <= w
    ensures (b * n) % w == b * n
  {
    assert b * n <= 255 * n;
    ModUnique(b * n, w, 0, b * n);
  }

  lemma ByteShift(k: nat)
    ensures Pow2(k + 8) == 256 * Pow2(k)
  {
    Pow2Splits(8, k + 8);
    Pow2Of8();
  }

  lemma ShlOfByte(b: Byte, k: nat)
    requires k <= 56
    ensures Shl(b, k) == b * Pow2(k)
  {
    ByteShift(k);
    PowerAtMost(k + 8);
    ByteTimes(b, Pow2(k), TWO_64);
  }

  lemma {:induction false} ReadIsLittleEndian(d: seq<Byte>, n: nat)
    requires n <= |d| && n <= 8
    ensures ReadBytes(d, n) == LittleEndian(d[..n])
    decreases n
  {
    if n == 1 {
      assert LittleEndian(d[..1][1..]) == 0;
    } else if n > 1 {
      ReadIsLittleEndian(d, n - 1);
      LittleEndianBound(d[..n - 1]);
      ShlOfByte(d[n - 1], 8 * (n - 1));
      OrOfDisjoint(d[n - 1], LittleEndian(d[..n - 1]), 8 * (n - 1));
      LittleEndianSnoc(d[..n - 1], d[n - 1]);
      assert d[..n] == d[..n - 1] + [d[n - 1]];
    }
  }

  // ---- the two arithmetics ----

  /** Rotation as the specification means it: high and low parts change places. */
  function RotateLeft(x: Word, r: nat): Word {
    if r <= 64 then RotlSplits(x, r); LowBits(x, 64 - r) * Pow2(r) + Shr(x, 64 - r) else x
  }

  function OfNat(n: nat): Word { n % TWO_64 }

  const SPECIFIED: Words<Word> :=
    Words(0, PRIME1, PRIME2, PRIME3, PRIME4, PRIME5, OfNat, Lane, Add, Sub, Mul, Xor, Shr, RotateLeft)

  const CODED: Words<Word> :=
    Words(0, PRIME1, PRIME2, PRIME3, PRIME4, PRIME5, OfNat, CodeLane, Add, Sub, Mul, Xor, Shr, Rotl)

  /** XXH64 as specified. */
  function Xxh64(input: seq<Byte>, seed: Word): Word { Hash(SPECIFIED, input, seed) }

  lemma WordsAgree()
    ensures Agree(CODED, SPECIFIED)
  {
    forall s: seq<Byte> | |s| == 1 || |s| == 4 || |s| == 8 ensures CodeLane(s) == Lane(s) {
      ReadIsLittleEndian(s, |s|);
      assert s[..|s|] == s;
    }
    forall x: Word, r: nat | 0 < r < 64 ensures Rotl(x, r) == RotateLeft(x, r) {
      RotlSplits(x, r);
    }
  }

  /** The code, on every input and seed: it computes XXH64 and reads each byte exactly once. */
  method Compute(input: seq<Byte>, seed: Word) returns (h: Word, ghost read: seq<nat>)
    ensures h == Xxh64(input, seed)
    ensures |read| == |input| && forall i :: 0 <= i < |read| ==> read[i] == i
  {
    forall x: Word ensures CODED.add(CODED.zero, x) == x {}
    h, read := XxHash.Run(CODED, input, seed);
    WordsAgree();
    HashAgrees(CODED, SPECIFIED, input, seed);
  }

  // ---- keys: every stage can be undone ----

  const INVERSE1: Word := 0x0887493432BADB37
  const INVERSE2: Word := 0x0BA79078168D4BAF
  const INVERSE3: Word := 0xE9E9F4C41D6DF849

  /** The three primes that multiply are odd, so each has an inverse modulo 2^64. */
  lemma PrimesInvert(x: Word)
    ensures Mul(Mul(x, PRIME1), INVERSE1) == x && Mul(Mul(x, INVERSE1), PRIME1) == x
    ensures Mul(Mul(x, PRIME2), INVERSE2) == x && Mul(Mul(x, INVERSE2), PRIME2) == x
    ensures Mul(Mul(x, PRIME3), INVERSE3) == x && Mul(Mul(x, INVERSE3), PRIME3) == x
  {
    MulInverse(x, PRIME1, INVERSE1, 0x0545584CCD1FA67A);
    MulInverse(x, INVERSE1, PRIME1, 0x0545584CCD1FA67A);
    MulInverse(x, PRIME2, INVERSE2, 0x08DD1DEC21860607);
    MulInverse(x, INVERSE2, PRIME2, 0x08DD1DEC21860607);
    MulInverse(x, PRIME3, INVERSE3, 0x14690E6081378F7F);
    MulInverse(x, INVERSE3, PRIME3, 0x14690E6081378F7F);
  }

  lemma RotateInverse(x: Word, r: nat)
    requires 0 < r < 64
    ensures RotateLeft(RotateLeft(x, r), 64 - r) == x
  {
    RotlSplits(x, r);
    RotlSplits(RotateLeft(x, r), 64 - r);
    RotlInverse(x, r);
  }

  /** Step 6, as one function of the accumulator, and its inverse. */
  function Finish(x: Word): Word {
    XorShift(Mul(XorShift(Mul(XorShift(x, 33), PRIME2), 29), PRIME3), 32)
  }

  function UnFinish(y: Word): Word {
    UnXorShift(Mul(UnXorShift(Mul(UnXorShift(y, 32), INVERSE3), 29), INVERSE2), 33)
  }

  lemma FinishInverse(x: Word)
    ensures UnFinish(Finish(x)) == x && Finish(UnFinish(x)) == x
  {
    var a := XorShift(x, 33);
    var b := XorShift(Mul(a, PRIME2), 29);
    XorShiftInverse(x, 33);
    PrimesInvert(a);
    XorShiftInverse(Mul(a, PRIME2), 29);
    PrimesInvert(b);
    XorShiftInverse(Mul(b, PRIME3), 32);
    var c := UnXorShift(x, 32);
    var d := UnXorShift(Mul(c, INVERSE3), 29);
    XorShiftInverse(x, 32);
    PrimesInvert(c);
    XorShiftInverse(Mul(c, INVERSE3), 29);
    PrimesInvert(d);
    XorShiftInverse(Mul(d, INVERSE2), 33);
  }

  /** A round from an empty accumulator, and its inverse. */
  function Scramble(lane: Word): Word { Mul(RotateLeft(Mul(lane, PRIME2), 31), PRIME1) }

  function UnScramble(y: Word): Word { Mul(RotateLeft(Mul(y, INVERSE1), 33), INVERSE2) }

  lemma ScrambleInverse(x: Word)
    ensures UnScramble(Scramble(x)) == x && Scramble(UnScramble(x)) == x
  {
    PrimesInvert(x);
    RotateInverse(Mul(x, PRIME2), 31);
    PrimesInvert(RotateLeft(Mul(x, PRIME2), 31));
    RotateInverse(Mul(x, INVERSE1), 33);
    PrimesInvert(RotateLeft(Mul(x, INVERSE1), 33));
  }

  /** The second half of absorbing a lane of eight bytes, and its inverse. */
  function Spread(b: Word): Word { Add(Mul(RotateLeft(b, 27), PRIME1), PRIME4) }

  function UnSpread(y: Word): Word { RotateLeft(Mul(Sub(y, PRIME4), INVERSE1), 37) }

  lemma SpreadInverse(x: Word)
    ensures UnSpread(Spread(x)) == x && Spread(UnSpread(x)) == x
  {
    AddInverse(Mul(RotateLeft(x, 27), PRIME1), PRIME4);
    PrimesInvert(RotateLeft(x, 27));
    RotateInverse(x, 27);
    AddInverse(x, PRIME4);
    PrimesInvert(Sub(x, PRIME4));
    RotateInverse(Mul(Sub(x, PRIME4), INVERSE1), 37);
  }

  /** Absorbing one lane of eight bytes, and its inverse in the lane. */
  function Take8(acc: Word, lane: Word): Word { Spread(Xor(acc, Scramble(lane))) }

  function UnTake8(acc: Word, y: Word): Word { UnScramble(Xor(acc, UnSpread(y))) }

  lemma Take8Inverse(acc: Word, x: Word)
    ensures UnTake8(acc, Take8(acc, x)) == x && Take8(acc, UnTake8(acc, x)) == x
  {
    SpreadInverse(Xor(acc, Scramble(x)));
    XorCancels(acc, Scramble(x));
    ScrambleInverse(x);
    SpreadInverse(x);
    XorCancels(acc, UnSpread(x));
    ScrambleInverse(Xor(acc, UnSpread(x)));
  }

  /** Absorbing a lane of four bytes, and its inverse in the lane. */
  function Take4(acc: Word, lane: Word): Word {
    Add(Mul(RotateLeft(Xor(acc, Mul(lane, PRIME1)), 23), PRIME2), PRIME3)
  }

  function UnTake4(acc: Word, y: Word): Word {
    Mul(Xor(acc, RotateLeft(Mul(Sub(y, PRIME3), INVERSE2), 41)), INVERSE1)
  }

  lemma Take4Inverse(acc: Word, x: Word)
    ensures UnTake4(acc, Take4(acc, x)) == x
  {
    var b := Xor(acc, Mul(x, PRIME1));
    PrimesInvert(x);
    XorCancels(acc, Mul(x, PRIME1));
    RotateInverse(b, 23);
    PrimesInvert(RotateLeft(b, 23));
    AddInverse(Mul(RotateLeft(b, 23), PRIME2), PRIME3);
  }

  /** What the hash of a short key starts from. */
  function Base(seed: Word, n: nat): Word { Add(Add(seed, PRIME5), OfNat(n)) }

  /** A key of eight bytes is one lane and nothing else. */
  lemma OneLane8(m: Words<Word>, acc: Word, key: seq<Byte>)
    requires |key| == 8
    ensures Tail8(m, acc, Remainder(key)) == Mix8(m, acc, m.lane(key))
  {
    assert Remainder(key) == key && key[..8] == key && key[8..] == [];
  }

  lemma OneLane4(m: Words<Word>, acc: Word, key: seq<Byte>)
    requires |key| == 4
    ensures Tail8(m, acc, Remainder(key)) == Mix4(m, acc, m.lane(key))
  {
    assert Remainder(key) == key && key[..4] == key && key[4..] == [];
  }

  lemma Mix8IsTake8(acc: Word, lane: Word)
    ensures Mix8(SPECIFIED, acc, lane) == Take8(acc, lane)
  {
    assert Add(0, Mul(lane, PRIME2)) == Mul(lane, PRIME2);
  }

  lemma AvalancheIsFinish(acc: Word)
    ensures Avalanche(SPECIFIED, acc) == Finish(acc)
  {}

  lemma HashOf8(key: seq<Byte>, seed: Word)
    requires |key| == 8
    ensures Xxh64(key, seed) == Finish(Take8(Base(seed, 8), Lane(key)))
  {
    OneLane8(SPECIFIED, Base(seed, 8), key);
    Mix8IsTake8(Base(seed, 8), Lane(key));
    AvalancheIsFinish(Take8(Base(seed, 8), Lane(key)));
  }

  lemma HashOf4(key: seq<Byte>, seed: Word)
    requires |key| == 4
    ensures Xxh64(key, seed) == Finish(Take4(Base(seed, 4), Lane(key)))
  {
    OneLane4(SPECIFIED, Base(seed, 4), key);
    AvalancheIsFinish(Take4(Base(seed, 4), Lane(key)));
  }

  /** Two different keys of eight bytes never have the same hash. */
  lemma NoCollisionsOn8Bytes(x: seq<Byte>, y: seq<Byte>, seed: Word)
    requires |x| == |y| == 8
    ensures Xxh64(x, seed) == Xxh64(y, seed) <==> x == y
  {
    if Xxh64(x, seed) == Xxh64(y, seed) {
      HashOf8(x, seed);
      HashOf8(y, seed);
      FinishInverse(Take8(Base(seed, 8), Lane(x)));
      FinishInverse(Take8(Base(seed, 8), Lane(y)));
      Take8Inverse(Base(seed, 8), Lane(x));
      Take8Inverse(Base(seed, 8), Lane(y));
      LittleEndianInjective(x, y);
    }
  }

  /** Every 64-bit number is the hash of a 64-bit number... */
  lemma EveryHashHasANumber(h: Word, seed: Word) returns (n: Word)
    ensures Xxh64(Bytes(n, 8), seed) == h
  {
    n := UnTake8(Base(seed, 8), UnFinish(h));
    Pow2Of64();
    BytesInverse(n, 8);
    HashOf8(Bytes(n, 8), seed);
    Take8Inverse(Base(seed, 8), UnFinish(h));
    FinishInverse(h);
  }

  /** ...that is, of an eight-byte key: the hash is a bijection. */
  lemma EveryHashIsReached(h: Word, seed: Word) returns (key: seq<Byte>)
    ensures |key| == 8 && Xxh64(key, seed) == h
  {
    var n := EveryHashHasANumber(h, seed);
    key := Bytes(n, 8);
  }

  /** Two different keys of four bytes never have the same hash. */
  lemma NoCollisionsOn4Bytes(x: seq<Byte>, y: seq<Byte>, seed: Word)
    requires |x| == |y| == 4
    ensures Xxh64(x, seed) == Xxh64(y, seed) <==> x == y
  {
    if Xxh64(x, seed) == Xxh64(y, seed) {
      HashOf4(x, seed);
      HashOf4(y, seed);
      FinishInverse(Take4(Base(seed, 4), Lane(x)));
      FinishInverse(Take4(Base(seed, 4), Lane(y)));
      Take4Inverse(Base(seed, 4), Lane(x));
      Take4Inverse(Base(seed, 4), Lane(y));
      LittleEndianInjective(x, y);
    }
  }
}
