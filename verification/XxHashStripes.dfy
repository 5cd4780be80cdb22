/** What the whole stripes of an input do: they are absorbed one after the other, none is lost, and the length of
    the input can be told from its hash. */
module XxHashStripes {
  import opened Word64
  import opened XxHashSpec
  import opened XxHashKeys
  import opened XxHashTail
  import opened Width

  /** The stripes of one input and then those of another are the stripes of the two together. */
  lemma {:induction false} StripesCompose<W>(m: Words<W>, acc: Accumulators<W>, x: seq<Byte>, y: seq<Byte>)
    requires |x| % 32 == 0
    ensures Stripes(m, acc, x + y) == Stripes(m, Stripes(m, acc, x), y)
    decreases |x|
  {
    if x == [] {
      assert x + y == y;
    } else {
      assert (x + y)[..32] == x[..32] && (x + y)[32..] == x[32..] + y;
      StripesCompose(m, Stripe(m, acc, x[..32]), x[32..], y);
    }
  }

  // ---- a round can be undone ----

  lemma UndoRound(acc: Word, lane: Word)
    ensures var y := RotateLeft(Mul(Round(SPECIFIED, acc, lane), INVERSE1), 33);
            Sub(y, Mul(lane, PRIME2)) == acc && Mul(Sub(y, acc), INVERSE2) == lane
  {
    var b := Add(acc, Mul(lane, PRIME2));
    PrimesInvert(RotateLeft(b, 31));
    RotateInverse(b, 31);
    AddInverse(acc, Mul(lane, PRIME2));
    AddInverse(Mul(lane, PRIME2), acc);
    PrimesInvert(lane);
  }

  lemma RoundSeparates(acc: Word, acc': Word, lane: Word, lane': Word)
    requires (acc == acc') != (lane == lane')
    ensures Round(SPECIFIED, acc, lane) != Round(SPECIFIED, acc', lane')
  {
    UndoRound(acc, lane);
    UndoRound(acc', lane');
  }

  lemma SameStripeSeparates(acc: Accumulators<Word>, acc': Accumulators<Word>, s: seq<Byte>)
    requires acc != acc' && |s| == 32
    ensures Stripe(SPECIFIED, acc, s) != Stripe(SPECIFIED, acc', s)
  {
    var m := SPECIFIED;
    if acc.a1 != acc'.a1 { RoundSeparates(acc.a1, acc'.a1, m.lane(s[..8]), m.lane(s[..8])); }
    if acc.a2 != acc'.a2 { RoundSeparates(acc.a2, acc'.a2, m.lane(s[8..16]), m.lane(s[8..16])); }
    if acc.a3 != acc'.a3 { RoundSeparates(acc.a3, acc'.a3, m.lane(s[16..24]), m.lane(s[16..24])); }
    if acc.a4 != acc'.a4 { RoundSeparates(acc.a4, acc'.a4, m.lane(s[24..]), m.lane(s[24..])); }
  }

  lemma {:induction false} SameStripesSeparate(acc: Accumulators<Word>, acc': Accumulators<Word>, x: seq<Byte>)
    requires acc != acc'
    ensures Stripes(SPECIFIED, acc, x) != Stripes(SPECIFIED, acc', x)
    decreases |x|
  {
    if |x| >= 32 {
      SameStripeSeparates(acc, acc', x[..32]);
      SameStripesSeparate(Stripe(SPECIFIED, acc, x[..32]), Stripe(SPECIFIED, acc', x[..32]), x[32..]);
    }
  }

  lemma LaneSeparates(acc: Word, s: seq<Byte>, t: seq<Byte>)
    requires |s| == |t| == 8 && s != t
    ensures Round(SPECIFIED, acc, SPECIFIED.lane(s)) != Round(SPECIFIED, acc, SPECIFIED.lane(t))
  {
    if LittleEndian(s) == LittleEndian(t) { LittleEndianInjective(s, t); }
    RoundSeparates(acc, acc, Lane(s), Lane(t));
  }

  lemma FourLanes(s: seq<Byte>)
    requires |s| == 32
    ensures s == s[..8] + s[8..16] + s[16..24] + s[24..]
  {}

  lemma StripeSeparates(acc: Accumulators<Word>, s: seq<Byte>, t: seq<Byte>)
    requires |s| == |t| == 32 && s != t
    ensures Stripe(SPECIFIED, acc, s) != Stripe(SPECIFIED, acc, t)
  {
    FourLanes(s);
    FourLanes(t);
    if s[..8] != t[..8] {
      LaneSeparates(acc.a1, s[..8], t[..8]);
    } else if s[8..16] != t[8..16] {
      LaneSeparates(acc.a2, s[8..16], t[8..16]);
    } else if s[16..24] != t[16..24] {
      LaneSeparates(acc.a3, s[16..24], t[16..24]);
    } else {
      assert s[24..] != t[24..];
      LaneSeparates(acc.a4, s[24..], t[24..]);
    }
  }

  /** No stripe is lost: two inputs that differ in one stripe leave different accumulators, whatever comes before
      and after it. */
  lemma OneStripeSeparates(acc: Accumulators<Word>, before: seq<Byte>, s: seq<Byte>, t: seq<Byte>, after: seq<Byte>)
    requires |before| % 32 == 0 && |s| == |t| == 32 && s != t
    ensures Stripes(SPECIFIED, acc, before + (s + after)) != Stripes(SPECIFIED, acc, before + (t + after))
  {
    var m, mid := SPECIFIED, Stripes(SPECIFIED, acc, before);
    StripesCompose(m, acc, before, s + after);
    StripesCompose(m, acc, before, t + after);
    assert (s + after)[..32] == s && (s + after)[32..] == after;
    assert (t + after)[..32] == t && (t + after)[32..] == after;
    StripeSeparates(mid, s, t);
    SameStripesSeparate(Stripe(m, mid, s), Stripe(m, mid, t), after);
  }

  /** The length of an input of whole stripes is what its hash holds besides its stripes. */
  lemma LengthIsRecovered(x: seq<Byte>, seed: Word)
    requires |x| % 32 == 0
    ensures Sub(UnFinish(Xxh64(x, seed)), Absorb(SPECIFIED, x, seed)) == |x| % TWO_64
  {
    var acc := Absorb(SPECIFIED, x, seed);
    var sum := Add(acc, OfNat(|x|));
    assert Remainder(x) == [];
    AvalancheIsFinish(sum);
    FinishInverse(sum);
    AddInverse(OfNat(|x|), acc);
  }
}
