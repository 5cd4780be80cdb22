/** The probe sequence in the words of the code: shifts and bitwise or instead of quotients and parity. */
module ProbeWords {
  import opened Stride
  import opened Width
  import opened Word64

  lemma ShrIsQuotient(x: nat, k: nat)
    ensures ShrBits(x, k) == x / Pow2(k)
  {
    HighAndLow(x, k);
    ModUnique(x, Pow2(k), ShrBits(x, k), LowBits(x, k));
  }

  lemma OrOne(x: nat)
    ensures OrBits(x, 1) == 2 * (x / 2) + 1
  {
    OrHalf(x, 1);
    OrZero(x / 2);
  }

  /** The stride is `(h >> 32) | 1`. */
  lemma StrideIsWord(h: Word)
    ensures StrideOf(h) == Or(Shr(h, 32), 1)
  {
    ShrIsQuotient(h, 32);
    Pow2Of32();
    OrOne(Shr(h, 32));
  }

  /** The double hash is `h + probe * ((h >> 32) | 1)` in 64-bit arithmetic. */
  lemma ProbeIsWord(h: Word, probe: Word)
    ensures Probe(h, probe) == Add(h, Mul(probe, Or(Shr(h, 32), 1)))
  {
    StrideIsWord(h);
  }

  /** The slot of a probe, in a table of any capacity. */
  lemma SlotInWords(h: Word, probe: Word, capacity: nat)
    requires capacity > 0
    ensures Slot(h, probe, capacity) == Add(h, Mul(probe, Or(Shr(h, 32), 1))) % capacity
  {
    ProbeIsWord(h, probe);
  }

  /** In a power-of-two table the wrap-around is invisible: probe `p` is at `h + p * ((h >> 32) | 1)`. */
  lemma SlotOfPow2(h: Word, p: nat, k: nat)
    requires k <= 64
    ensures Slot(h, p, Pow2(k)) == (h + p * Or(Shr(h, 32), 1)) % Pow2(k)
  {
    StrideIsWord(h);
    SlotIsLinear(h, p, k);
  }
}
