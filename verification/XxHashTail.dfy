/** What the end of an input does to its hash: past the whole stripes, no lane is lost. */
module XxHashTail {
  import opened Word64
  import opened XxHashSpec
  import opened XxHashKeys

  const INVERSE5: Word := 0xC592C09FDFBA7F0D

  /** Absorbing a single byte, and its inverse in the byte. */
  function Take1(acc: Word, lane: Word): Word { Mul(RotateLeft(Xor(acc, Mul(lane, PRIME5)), 11), PRIME1) }

  function UnTake1(acc: Word, y: Word): Word { Mul(Xor(acc, RotateLeft(Mul(y, INVERSE1), 53)), INVERSE5) }

  lemma Take1Inverse(acc: Word, x: Word)
    ensures UnTake1(acc, Take1(acc, x)) == x
  {
    var b := Xor(acc, Mul(x, PRIME5));
    MulInverse(x, PRIME5, INVERSE5, 0x1EBDAE61ED7C1B77);
    XorCancels(acc, Mul(x, PRIME5));
    RotateInverse(b, 11);
    PrimesInvert(RotateLeft(b, 11));
  }

  // ---- each lane, and what came before it, can be told from the result ----

  lemma Mix8InAcc(acc: Word, acc': Word, lane: Word)
    requires acc != acc'
    ensures Mix8(SPECIFIED, acc, lane) != Mix8(SPECIFIED, acc', lane)
  {
    Mix8IsTake8(acc, lane);
    Mix8IsTake8(acc', lane);
    SpreadInverse(Xor(acc, Scramble(lane)));
    SpreadInverse(Xor(acc', Scramble(lane)));
    XorCancels(acc, Scramble(lane));
    XorCancels(acc', Scramble(lane));
  }

  lemma Mix8InLane(acc: Word, x: Word, y: Word)
    requires x != y
    ensures Mix8(SPECIFIED, acc, x) != Mix8(SPECIFIED, acc, y)
  {
    Mix8IsTake8(acc, x);
    Mix8IsTake8(acc, y);
    Take8Inverse(acc, x);
    Take8Inverse(acc, y);
  }

  lemma Mix4InAcc(acc: Word, acc': Word, lane: Word)
    requires acc != acc'
    ensures Mix4(SPECIFIED, acc, lane) != Mix4(SPECIFIED, acc', lane)
  {
    UndoMix4(acc, lane);
    UndoMix4(acc', lane);
  }

  lemma UndoMix4(acc: Word, lane: Word)
    ensures Xor(RotateLeft(Mul(Sub(Mix4(SPECIFIED, acc, lane), PRIME3), INVERSE2), 41), Mul(lane, PRIME1)) == acc
  {
    var b := Xor(acc, Mul(lane, PRIME1));
    AddInverse(Mul(RotateLeft(b, 23), PRIME2), PRIME3);
    PrimesInvert(RotateLeft(b, 23));
    RotateInverse(b, 23);
    XorCancels(acc, Mul(lane, PRIME1));
  }

  lemma Mix4InLane(acc: Word, x: Word, y: Word)
    requires x != y
    ensures Mix4(SPECIFIED, acc, x) != Mix4(SPECIFIED, acc, y)
  {
    Take4Inverse(acc, x);
    Take4Inverse(acc, y);
  }

  lemma Mix1InAcc(acc: Word, acc': Word, lane: Word)
    requires acc != acc'
    ensures Mix1(SPECIFIED, acc, lane) != Mix1(SPECIFIED, acc', lane)
  {
    UndoMix1(acc, lane);
    UndoMix1(acc', lane);
  }

  lemma UndoMix1(acc: Word, lane: Word)
    ensures Xor(RotateLeft(Mul(Mix1(SPECIFIED, acc, lane), INVERSE1), 53), Mul(lane, PRIME5)) == acc
  {
    var b := Xor(acc, Mul(lane, PRIME5));
    PrimesInvert(RotateLeft(b, 11));
    RotateInverse(b, 11);
    XorCancels(acc, Mul(lane, PRIME5));
  }

  lemma Mix1InLane(acc: Word, x: Word, y: Word)
    requires x != y
    ensures Mix1(SPECIFIED, acc, x) != Mix1(SPECIFIED, acc, y)
  {
    Take1Inverse(acc, x);
    Take1Inverse(acc, y);
  }

  // ---- the whole tail ----

  lemma {:induction false} Tail1InAcc(acc: Word, acc': Word, s: seq<Byte>)
    requires acc != acc'
    ensures Tail1(SPECIFIED, acc, s) != Tail1(SPECIFIED, acc', s)
    decreases |s|
  {
    if s != [] {
      Mix1InAcc(acc, acc', Lane(s[..1]));
      Tail1InAcc(Mix1(SPECIFIED, acc, Lane(s[..1])), Mix1(SPECIFIED, acc', Lane(s[..1])), s[1..]);
    }
  }

  lemma {:induction false} Tail8InAcc(acc: Word, acc': Word, s: seq<Byte>)
    requires acc != acc'
    ensures Tail8(SPECIFIED, acc, s) != Tail8(SPECIFIED, acc', s)
    decreases |s|
  {
    if |s| >= 8 {
      Mix8InAcc(acc, acc', Lane(s[..8]));
      Tail8InAcc(Mix8(SPECIFIED, acc, Lane(s[..8])), Mix8(SPECIFIED, acc', Lane(s[..8])), s[8..]);
    } else if |s| >= 4 {
      Mix4InAcc(acc, acc', Lane(s[..4]));
      Tail1InAcc(Mix4(SPECIFIED, acc, Lane(s[..4])), Mix4(SPECIFIED, acc', Lane(s[..4])), s[4..]);
    } else {
      Tail1InAcc(acc, acc', s);
    }
  }

  /** How many bytes the first lane of a tail has. */
  function Width(n: nat): nat { if n >= 8 then 8 else if n >= 4 then 4 else 1 }

  /** Two tails of one length that differ in a single lane. */
  predicate OneLaneApart(s: seq<Byte>, t: seq<Byte>)
    requires |s| == |t|
    decreases |s|
  {
    s != [] &&
    var w := Width(|s|);
    if s[..w] == t[..w] then OneLaneApart(s[w..], t[w..]) else s[w..] == t[w..]
  }

  lemma LanesDiffer(s: seq<Byte>, t: seq<Byte>)
    requires |s| == |t| <= 8 && s != t
    ensures Lane(s) != Lane(t)
  {
    if Lane(s) == Lane(t) { LittleEndianInjective(s, t); }
  }

  lemma {:induction false} Tail1Differs(acc: Word, s: seq<Byte>, t: seq<Byte>)
    requires |s| == |t| < 4 && OneLaneApart(s, t)
    ensures Tail1(SPECIFIED, acc, s) != Tail1(SPECIFIED, acc, t)
    decreases |s|
  {
    var x, y := Mix1(SPECIFIED, acc, Lane(s[..1])), Mix1(SPECIFIED, acc, Lane(t[..1]));
    if s[..1] == t[..1] {
      Tail1Differs(x, s[1..], t[1..]);
    } else {
      LanesDiffer(s[..1], t[..1]);
      Mix1InLane(acc, Lane(s[..1]), Lane(t[..1]));
      Tail1InAcc(x, y, s[1..]);
    }
  }

  lemma Tail4Differs(acc: Word, s: seq<Byte>, t: seq<Byte>)
    requires 4 <= |s| == |t| < 8 && OneLaneApart(s, t)
    ensures Tail8(SPECIFIED, acc, s) != Tail8(SPECIFIED, acc, t)
  {
    var x, y := Mix4(SPECIFIED, acc, Lane(s[..4])), Mix4(SPECIFIED, acc, Lane(t[..4]));
    if s[..4] == t[..4] {
      Tail1Differs(x, s[4..], t[4..]);
    } else {
      LanesDiffer(s[..4], t[..4]);
      Mix4InLane(acc, Lane(s[..4]), Lane(t[..4]));
      Tail1InAcc(x, y, s[4..]);
    }
  }

  lemma {:induction false} Tail8Differs(acc: Word, s: seq<Byte>, t: seq<Byte>)
    requires |s| == |t| && OneLaneApart(s, t)
    ensures Tail8(SPECIFIED, acc, s) != Tail8(SPECIFIED, acc, t)
    decreases |s|
  {
    if |s| < 4 {
      Tail1Differs(acc, s, t);
    } else if |s| < 8 {
      Tail4Differs(acc, s, t);
    } else {
      var x, y := Mix8(SPECIFIED, acc, Lane(s[..8])), Mix8(SPECIFIED, acc, Lane(t[..8]));
      if s[..8] == t[..8] {
        Tail8Differs(x, s[8..], t[8..]);
      } else {
        LanesDiffer(s[..8], t[..8]);
        Mix8InLane(acc, Lane(s[..8]), Lane(t[..8]));
        Tail8InAcc(x, y, s[8..]);
      }
    }
  }

  // ---- hashes ----

  /** The bytes in whole stripes. */
  function Striped(x: seq<Byte>): seq<Byte> { x[..(|x| / 32) * 32] }

  lemma StripedSplits(x: seq<Byte>)
    requires |x| >= 32
    ensures Striped(x)[..32] == x[..32] && Striped(x)[32..] == Striped(x[32..]) && |Striped(x)| >= 32
  {}

  lemma {:induction false} StripesOfPrefix<W>(m: Words<W>, acc: Accumulators<W>, x: seq<Byte>)
    ensures Stripes(m, acc, x) == Stripes(m, acc, Striped(x))
    decreases |x|
  {
    if |x| >= 32 {
      StripedSplits(x);
      StripesOfPrefix(m, Stripe(m, acc, x[..32]), x[32..]);
    }
  }

  lemma SameStripesAbsorbAlike(x: seq<Byte>, y: seq<Byte>, seed: Word)
    requires |x| == |y| && Striped(x) == Striped(y)
    ensures Absorb(SPECIFIED, x, seed) == Absorb(SPECIFIED, y, seed)
  {
    StripesOfPrefix(SPECIFIED, Initial(SPECIFIED, seed), x);
    StripesOfPrefix(SPECIFIED, Initial(SPECIFIED, seed), y);
  }

  lemma AvalancheDiffers(a: Word, b: Word)
    requires a != b
    ensures Avalanche(SPECIFIED, a) != Avalanche(SPECIFIED, b)
  {
    AvalancheIsFinish(a);
    AvalancheIsFinish(b);
    FinishInverse(a);
    FinishInverse(b);
  }

  /** Two inputs of one length that agree on their whole stripes and differ in a single lane behind them
      never have the same hash, under any seed. */
  lemma OneLaneSeparates(x: seq<Byte>, y: seq<Byte>, seed: Word)
    requires |x| == |y| && Striped(x) == Striped(y) && OneLaneApart(Remainder(x), Remainder(y))
    ensures Xxh64(x, seed) != Xxh64(y, seed)
  {
    SameStripesAbsorbAlike(x, y, seed);
    var acc := Add(Absorb(SPECIFIED, x, seed), OfNat(|x|));
    Tail8Differs(acc, Remainder(x), Remainder(y));
    AvalancheDiffers(Tail8(SPECIFIED, acc, Remainder(x)), Tail8(SPECIFIED, acc, Remainder(y)));
  }

  ghost predicate DifferAt(s: seq<Byte>, t: seq<Byte>, i: nat) {
    i < |s| == |t| && s[i] != t[i] && forall j: nat :: j < |s| && j != i ==> s[j] == t[j]
  }

  lemma {:induction false} OneByteIsOneLane(s: seq<Byte>, t: seq<Byte>, i: nat)
    requires DifferAt(s, t, i)
    ensures OneLaneApart(s, t)
    decreases |s|
  {
    var w := Width(|s|);
    if i < w {
      assert s[..w][i] != t[..w][i];
      assert s[w..] == t[w..];
    } else {
      assert s[..w] == t[..w];
      assert s[w..][i - w] != t[w..][i - w];
      OneByteIsOneLane(s[w..], t[w..], i - w);
    }
  }

  /** In particular no single byte behind the whole stripes is lost: changing one changes the hash. */
  lemma OneByteSeparates(x: seq<Byte>, y: seq<Byte>, i: nat, seed: Word)
    requires DifferAt(x, y, i) && (|x| / 32) * 32 <= i
    ensures Xxh64(x, seed) != Xxh64(y, seed)
  {
    var n := (|x| / 32) * 32;
    assert Striped(x) == Striped(y);
    assert forall j: nat :: j < |x| - n ==> Remainder(x)[j] == x[n + j] && Remainder(y)[j] == y[n + j];
    OneByteIsOneLane(Remainder(x), Remainder(y), i - n);
    OneLaneSeparates(x, y, seed);
  }

  /** Inputs shorter than a stripe have different hashes under different seeds. */
  lemma SeedsSeparate(x: seq<Byte>, seed: Word, seed': Word)
    requires |x| < 32 && seed != seed'
    ensures Xxh64(x, seed) != Xxh64(x, seed')
  {
    var a, b := Base(seed, |x|), Base(seed', |x|);
    AddInverse(seed, PRIME5);
    AddInverse(seed', PRIME5);
    AddInverse(Add(seed, PRIME5), OfNat(|x|));
    AddInverse(Add(seed', PRIME5), OfNat(|x|));
    Tail8InAcc(a, b, Remainder(x));
    AvalancheDiffers(Tail8(SPECIFIED, a, Remainder(x)), Tail8(SPECIFIED, b, Remainder(x)));
  }
}
