/** How each stage of XXH64 is worked out on given numbers, one machine operation after the other. */
module XxHashEval {
  import opened Stride
  import opened Width
  import opened Word64
  import opened MachineWords
  import opened ProbeWords
  import opened XxHashSpec
  import opened XxHashKeys
  import opened XxHashTail

  lemma LowBitsIsRemainder(x: nat, k: nat)
    ensures LowBits(x, k) == x % Pow2(k)
  {
    HighAndLow(x, k);
    ModUnique(x, Pow2(k), ShrBits(x, k), LowBits(x, k));
  }

  /** The powers of two the shifts and rotations need. */
  lemma SmallPowers()
    ensures Pow2(1) == 2 && Pow2(7) == 0x80 && Pow2(11) == 0x800 && Pow2(12) == 0x1000 && Pow2(18) == 0x4_0000
    ensures Pow2(23) == 0x80_0000 && Pow2(27) == 0x800_0000 && Pow2(29) == 0x2000_0000 && Pow2(31) == 0x8000_0000
  {
    assert Pow2(3) == 8 && Pow2(4) == 16;
    Pow2Splits(3, 7);
    Pow2Splits(4, 8);
    Pow2Splits(4, 11);
    Pow2Splits(4, 12);
    Pow2Splits(7, 18);
    Pow2Splits(11, 23);
    Pow2Splits(4, 27);
    Pow2Splits(11, 29);
    Pow2Splits(4, 31);
  }

  lemma LargePowers()
    ensures Pow2(33) == 0x2_0000_0000 && Pow2(37) == 0x20_0000_0000 && Pow2(41) == 0x200_0000_0000
    ensures Pow2(46) == 0x4000_0000_0000 && Pow2(52) == 0x10_0000_0000_0000 && Pow2(53) == 0x20_0000_0000_0000
    ensures Pow2(57) == 0x200_0000_0000_0000 && Pow2(63) == 0x8000_0000_0000_0000
  {
    SmallPowers();
    Pow2Of32();
    assert Pow2(4) == 16;
    Pow2Splits(1, 33);
    Pow2Splits(4, 37);
    Pow2Splits(4, 41);
    Pow2Splits(23, 46);
    Pow2Splits(11, 52);
    Pow2Splits(7, 53);
    Pow2Splits(4, 57);
    Pow2Splits(31, 63);
  }

  /** Rotation by `r`, where `p` is 2 to the `r` and `q` is 2 to the rest. */
  function Turn(x: Word, p: nat, q: nat): nat
    requires q > 0
  {
    (x % q) * p + x / q
  }

  lemma TurnIs(x: Word, r: nat, p: nat, q: nat)
    requires r <= 64 && Pow2(r) == p && Pow2(64 - r) == q
    ensures RotateLeft(x, r) == Turn(x, p, q)
  {
    ShrIsQuotient(x, 64 - r);
    LowBitsIsRemainder(x, 64 - r);
  }

  lemma XorShiftIs(x: Word, k: nat, p: nat, s: Word, y: Word)
    requires k <= 64 && Pow2(k) == p && s == x / p && Xors(x, s, y)
    ensures XorShift(x, k) == y
  {
    ShrIsQuotient(x, k);
    XorOf(x, s, y);
  }

  // ---- operations on given numbers, with what they carry out ----

  lemma MulIs(x: Word, y: Word, carry: nat, z: Word)
    requires x * y == carry * TWO_64 + z
    ensures Mul(x, y) == z
  {
    ModUnique(x * y, TWO_64, carry, z);
  }

  lemma AddIs(x: Word, y: Word, carry: nat, z: Word)
    requires x + y == carry * TWO_64 + z
    ensures Add(x, y) == z
  {}

  lemma QuotientIs(x: nat, p: nat, q: nat, r: nat)
    requires x == q * p + r && r < p
    ensures x / p == q
  {
    ModUnique(x, p, q, r);
  }

  lemma TurnOf(x: Word, p: nat, q: nat, high: nat, low: nat, y: nat)
    requires x == high * q + low && low < q && y == low * p + high
    ensures Turn(x, p, q) == y
  {
    ModUnique(x, q, high, low);
  }

  // ---- the stages ----

  lemma FinishIs(x: Word, s: Word, a: Word, m: Word, t: Word, b: Word, n: Word, u: Word, c: Word)
    requires s == x / 0x2_0000_0000 && Xors(x, s, a) && m == Mul(a, PRIME2)
    requires t == m / 0x2000_0000 && Xors(m, t, b) && n == Mul(b, PRIME3)
    requires u == n / TWO_32 && Xors(n, u, c)
    ensures Avalanche(SPECIFIED, x) == c
  {
    SmallPowers();
    LargePowers();
    Pow2Of32();
    XorShiftIs(x, 33, 0x2_0000_0000, s, a);
    XorShiftIs(m, 29, 0x2000_0000, t, b);
    XorShiftIs(n, 32, TWO_32, u, c);
    AvalancheIsFinish(x);
  }

  lemma Mix1Is(acc: Word, lane: Word, k: Word, a: Word, r: Word, y: Word)
    requires k == Mul(lane, PRIME5) && Xors(acc, k, a)
    requires r == Turn(a, 0x800, 0x20_0000_0000_0000) && y == Mul(r, PRIME1)
    ensures Mix1(SPECIFIED, acc, lane) == y
  {
    SmallPowers();
    LargePowers();
    XorOf(acc, k, a);
    TurnIs(a, 11, 0x800, 0x20_0000_0000_0000);
  }

  lemma Mix4Is(acc: Word, lane: Word, k: Word, a: Word, r: Word, w: Word, y: Word)
    requires k == Mul(lane, PRIME1) && Xors(acc, k, a) && r == Turn(a, 0x80_0000, 0x200_0000_0000)
    requires w == Mul(r, PRIME2) && y == Add(w, PRIME3)
    ensures Mix4(SPECIFIED, acc, lane) == y
  {
    SmallPowers();
    LargePowers();
    XorOf(acc, k, a);
    TurnIs(a, 23, 0x80_0000, 0x200_0000_0000);
  }

  lemma RoundIs(acc: Word, lane: Word, w: Word, k: Word, r: Word, y: Word)
    requires w == Mul(lane, PRIME2) && k == Add(acc, w)
    requires r == Turn(k, 0x8000_0000, 0x2_0000_0000) && y == Mul(r, PRIME1)
    ensures Round(SPECIFIED, acc, lane) == y
  {
    SmallPowers();
    LargePowers();
    TurnIs(k, 31, 0x8000_0000, 0x2_0000_0000);
  }

  lemma RoundFromZero(lane: Word, k: Word, r: Word, y: Word)
    requires k == Mul(lane, PRIME2) && r == Turn(k, 0x8000_0000, 0x2_0000_0000) && y == Mul(r, PRIME1)
    ensures Round(SPECIFIED, 0, lane) == y
  {
    assert Add(0, k) == k;
    RoundIs(0, lane, k, k, r, y);
  }

  lemma Mix8Is(acc: Word, lane: Word, k: Word, r: Word, l: Word, a: Word, t: Word, w: Word, y: Word)
    requires k == Mul(lane, PRIME2) && r == Turn(k, 0x8000_0000, 0x2_0000_0000) && l == Mul(r, PRIME1)
    requires Xors(acc, l, a) && t == Turn(a, 0x800_0000, 0x20_0000_0000)
    requires w == Mul(t, PRIME1) && y == Add(w, PRIME4)
    ensures Mix8(SPECIFIED, acc, lane) == y
  {
    SmallPowers();
    LargePowers();
    RoundFromZero(lane, k, r, l);
    XorOf(acc, l, a);
    TurnIs(a, 27, 0x800_0000, 0x20_0000_0000);
  }

  lemma MergeIs(acc: Word, v: Word, k: Word, r: Word, l: Word, a: Word, w: Word, y: Word)
    requires k == Mul(v, PRIME2) && r == Turn(k, 0x8000_0000, 0x2_0000_0000) && l == Mul(r, PRIME1)
    requires Xors(acc, l, a) && w == Mul(a, PRIME1) && y == Add(w, PRIME4)
    ensures Merge(SPECIFIED, acc, v) == y
  {
    RoundFromZero(v, k, r, l);
    XorOf(acc, l, a);
  }

  lemma SumIs(v: Accumulators<Word>, r1: Word, r2: Word, r3: Word, r4: Word, s: Word, t: Word, y: Word)
    requires r1 == Turn(v.a1, 2, 0x8000_0000_0000_0000) && r2 == Turn(v.a2, 0x80, 0x200_0000_0000_0000)
    requires r3 == Turn(v.a3, 0x1000, 0x10_0000_0000_0000) && r4 == Turn(v.a4, 0x4_0000, 0x4000_0000_0000)
    requires s == Add(r1, r2) && t == Add(s, r3) && y == Add(t, r4)
    ensures Converge(SPECIFIED, v)
         == Merge(SPECIFIED, Merge(SPECIFIED, Merge(SPECIFIED, Merge(SPECIFIED, y, v.a1), v.a2), v.a3), v.a4)
  {
    SmallPowers();
    LargePowers();
    TurnIs(v.a1, 1, 2, 0x8000_0000_0000_0000);
    TurnIs(v.a2, 7, 0x80, 0x200_0000_0000_0000);
    TurnIs(v.a3, 12, 0x1000, 0x10_0000_0000_0000);
    TurnIs(v.a4, 18, 0x4_0000, 0x4000_0000_0000);
  }

  // ---- lanes and inputs ----

  lemma Lane1Is(s: seq<Byte>)
    requires |s| == 1
    ensures Lane(s) == s[0]
  {
    assert LittleEndian(s[1..]) == 0;
  }

  function Quad(b0: nat, b1: nat, b2: nat, b3: nat): nat { b0 + 0x100 * b1 + 0x1_0000 * b2 + 0x100_0000 * b3 }

  lemma {:induction false} FirstFour(s: seq<Byte>)
    requires |s| >= 4
    ensures LittleEndian(s) == Quad(s[0], s[1], s[2], s[3]) + TWO_32 * LittleEndian(s[4..])
  {
    var s1, s2, s3 := s[1..], s[2..], s[3..];
    assert s1[1..] == s2 && s2[1..] == s3 && s3[1..] == s[4..];
    assert LittleEndian(s) == s[0] + 0x100 * LittleEndian(s1);
    assert LittleEndian(s1) == s[1] + 0x100 * LittleEndian(s2);
    assert LittleEndian(s2) == s[2] + 0x100 * LittleEndian(s3);
  }

  lemma Lane4Is(s: seq<Byte>)
    requires |s| == 4
    ensures Lane(s) == Quad(s[0], s[1], s[2], s[3])
  {
    FirstFour(s);
  }

  lemma Lane8Is(s: seq<Byte>)
    requires |s| == 8
    ensures Lane(s) == Quad(s[0], s[1], s[2], s[3]) + TWO_32 * Quad(s[4], s[5], s[6], s[7])
  {
    FirstFour(s);
    FirstFour(s[4..]);
  }

  lemma HashOfNothing(seed: Word)
    ensures Xxh64([], seed) == Avalanche(SPECIFIED, Base(seed, 0))
  {}

  lemma OneLane1(m: Words<Word>, acc: Word, key: seq<Byte>)
    requires |key| == 1
    ensures Tail8(m, acc, Remainder(key)) == Mix1(m, acc, m.lane(key))
  {
    assert Remainder(key) == key && key[..1] == key && key[1..] == [];
    assert Tail1(m, Mix1(m, acc, m.lane(key)), []) == Mix1(m, acc, m.lane(key));
    assert Tail1(m, acc, key) == Mix1(m, acc, m.lane(key));
    assert Tail8(m, acc, key) == Tail4(m, acc, key) == Tail1(m, acc, key);
  }

  lemma HashOfByte(x: seq<Byte>, seed: Word)
    requires |x| == 1
    ensures Xxh64(x, seed) == Avalanche(SPECIFIED, Mix1(SPECIFIED, Base(seed, 1), Lane(x)))
  {
    OneLane1(SPECIFIED, Base(seed, 1), x);
  }

  lemma HashOfFour(x: seq<Byte>, seed: Word)
    requires |x| == 4
    ensures Xxh64(x, seed) == Avalanche(SPECIFIED, Mix4(SPECIFIED, Base(seed, 4), Lane(x)))
  {
    OneLane4(SPECIFIED, Base(seed, 4), x);
  }

  lemma HashOfEight(x: seq<Byte>, seed: Word)
    requires |x| == 8
    ensures Xxh64(x, seed) == Avalanche(SPECIFIED, Mix8(SPECIFIED, Base(seed, 8), Lane(x)))
  {
    OneLane8(SPECIFIED, Base(seed, 8), x);
  }

  lemma OneStripe(m: Words<Word>, x: seq<Byte>, seed: Word)
    requires |x| == 32
    ensures Hash(m, x, seed) == Avalanche(m, m.add(Converge(m, Stripe(m, Initial(m, seed), x)), m.ofNat(32)))
  {
    assert Remainder(x) == [] && x[..32] == x && x[32..] == [];
    var acc := Stripe(m, Initial(m, seed), x);
    assert Stripes(m, acc, []) == acc;
    assert Stripes(m, Initial(m, seed), x) == acc;
    assert forall h :: Tail8(m, h, []) == Tail4(m, h, []) == Tail1(m, h, []) == h;
  }

  lemma HashOfStripe(x: seq<Byte>, seed: Word)
    requires |x| == 32
    ensures Xxh64(x, seed)
         == Avalanche(SPECIFIED, Add(Converge(SPECIFIED, Stripe(SPECIFIED, Initial(SPECIFIED, seed), x)), 32))
  {
    OneStripe(SPECIFIED, x, seed);
  }
}
