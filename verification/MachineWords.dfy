/** Words given byte by byte, in machine bytes: exclusive or on natural numbers is that of the machine. */
module MachineWords {
  import opened Word64

  function One(d: bool): nat { if d then 1 else 0 }

  function FourBits(d3: bool, d2: bool, d1: bool, d0: bool): nat {
    2 * (2 * (2 * One(d3) + One(d2)) + One(d1)) + One(d0)
  }

  lemma XorOneBit(x: nat, y: nat, d: bool, e: bool, p: nat, q: nat)
    requires p == 2 * x + One(d) && q == 2 * y + One(e)
    ensures XorBits(p, q) == 2 * XorBits(x, y) + One(d != e)
  {
    assert p / 2 == x && q / 2 == y && p % 2 == One(d) && q % 2 == One(e);
    XorHalf(p, q);
  }

  lemma XorTwoBits(x: nat, y: nat, d1: bool, d0: bool, e1: bool, e0: bool, p: nat, q: nat)
    requires p == 2 * (2 * x + One(d1)) + One(d0) && q == 2 * (2 * y + One(e1)) + One(e0)
    ensures XorBits(p, q) == 2 * (2 * XorBits(x, y) + One(d1 != e1)) + One(d0 != e0)
  {
    var p', q' := 2 * x + One(d1), 2 * y + One(e1);
    assert XorBits(p', q') == 2 * XorBits(x, y) + One(d1 != e1) by { XorOneBit(x, y, d1, e1, p', q'); }
    XorOneBit(p', q', d0, e0, p, q);
  }

  lemma XorFourBits(x: nat, y: nat, d3: bool, d2: bool, d1: bool, d0: bool, e3: bool, e2: bool, e1: bool, e0: bool,
                    p: nat, q: nat)
    requires p == 16 * x + FourBits(d3, d2, d1, d0) && q == 16 * y + FourBits(e3, e2, e1, e0)
    ensures XorBits(p, q) == 16 * XorBits(x, y) + FourBits(d3 != e3, d2 != e2, d1 != e1, d0 != e0)
  {
    var p', q' := 2 * (2 * x + One(d3)) + One(d2), 2 * (2 * y + One(e3)) + One(e2);
    assert XorBits(p', q') == 2 * (2 * XorBits(x, y) + One(d3 != e3)) + One(d2 != e2) by {
      XorTwoBits(x, y, d3, d2, e3, e2, p', q');
    }
    XorTwoBits(p', q', d1, d0, e1, e0, p, q);
  }

  lemma DigitBits(b: bv4)
    ensures b as int == FourBits(b & 8 == 8, b & 4 == 4, b & 2 == 2, b & 1 == 1)
  {}

  lemma DigitOfXor(b: bv4, c: bv4)
    ensures (b ^ c) as int == FourBits((b & 8 == 8) != (c & 8 == 8), (b & 4 == 4) != (c & 4 == 4),
                                       (b & 2 == 2) != (c & 2 == 2), (b & 1 == 1) != (c & 1 == 1))
  {
    DigitBits(b ^ c);
  }

  lemma XorDigit(x: nat, y: nat, b: bv4, c: bv4, p: nat, q: nat)
    requires p == 16 * x + b as int && q == 16 * y + c as int
    ensures XorBits(p, q) == 16 * XorBits(x, y) + (b ^ c) as int
  {
    DigitBits(b);
    DigitBits(c);
    DigitOfXor(b, c);
    XorFourBits(x, y, b & 8 == 8, b & 4 == 4, b & 2 == 2, b & 1 == 1,
                c & 8 == 8, c & 4 == 4, c & 2 == 2, c & 1 == 1, p, q);
  }

  function High4(b: bv8): bv4 { (b >> 4) as bv4 }

  function Low4(b: bv8): bv4 { (b & 15) as bv4 }

  lemma ByteDigits(b: bv8)
    ensures b as int == 16 * High4(b) as int + Low4(b) as int
  {}

  lemma ByteOfXor(b: bv8, c: bv8)
    ensures High4(b ^ c) == High4(b) ^ High4(c) && Low4(b ^ c) == Low4(b) ^ Low4(c)
  {}

  lemma XorByte(x: nat, y: nat, b: bv8, c: bv8, p: nat, q: nat)
    requires p == 0x100 * x + b as int && q == 0x100 * y + c as int
    ensures XorBits(p, q) == 0x100 * XorBits(x, y) + (b ^ c) as int
  {
    ByteDigits(b);
    ByteDigits(c);
    ByteDigits(b ^ c);
    ByteOfXor(b, c);
    var p', q' := 16 * x + High4(b) as int, 16 * y + High4(c) as int;
    XorDigit(x, y, High4(b), High4(c), p', q');
    XorDigit(p', q', Low4(b), Low4(c), p, q);
  }

  /** Two and four bytes below `x`, most significant first. */
  function TwoBelow(x: nat, a1: bv8, a0: bv8): nat { 0x100 * (0x100 * x + a1 as int) + a0 as int }

  function FourBelow(x: nat, a3: bv8, a2: bv8, a1: bv8, a0: bv8): nat { TwoBelow(TwoBelow(x, a3, a2), a1, a0) }

  lemma XorTwoBytes(x: nat, y: nat, a1: bv8, a0: bv8, b1: bv8, b0: bv8, p: nat, q: nat)
    requires p == TwoBelow(x, a1, a0) && q == TwoBelow(y, b1, b0)
    ensures XorBits(p, q) == TwoBelow(XorBits(x, y), a1 ^ b1, a0 ^ b0)
  {
    var p', q' := 0x100 * x + a1 as int, 0x100 * y + b1 as int;
    assert XorBits(p', q') == 0x100 * XorBits(x, y) + (a1 ^ b1) as int by { XorByte(x, y, a1, b1, p', q'); }
    XorByte(p', q', a0, b0, p, q);
  }

  lemma XorFourBytes(x: nat, y: nat, a3: bv8, a2: bv8, a1: bv8, a0: bv8, b3: bv8, b2: bv8, b1: bv8, b0: bv8,
                     p: nat, q: nat)
    requires p == FourBelow(x, a3, a2, a1, a0) && q == FourBelow(y, b3, b2, b1, b0)
    ensures XorBits(p, q) == FourBelow(XorBits(x, y), a3 ^ b3, a2 ^ b2, a1 ^ b1, a0 ^ b0)
  {
    var p', q' := TwoBelow(x, a3, a2), TwoBelow(y, b3, b2);
    assert XorBits(p', q') == TwoBelow(XorBits(x, y), a3 ^ b3, a2 ^ b2) by {
      XorTwoBytes(x, y, a3, a2, b3, b2, p', q');
    }
    XorTwoBytes(p', q', a1, a0, b1, b0, p, q);
  }

  lemma XorEightBytes(a7: bv8, a6: bv8, a5: bv8, a4: bv8, a3: bv8, a2: bv8, a1: bv8, a0: bv8,
                      b7: bv8, b6: bv8, b5: bv8, b4: bv8, b3: bv8, b2: bv8, b1: bv8, b0: bv8, p: nat, q: nat)
    requires p == FourBelow(FourBelow(0, a7, a6, a5, a4), a3, a2, a1, a0)
    requires q == FourBelow(FourBelow(0, b7, b6, b5, b4), b3, b2, b1, b0)
    ensures XorBits(p, q)
         == FourBelow(FourBelow(0, a7 ^ b7, a6 ^ b6, a5 ^ b5, a4 ^ b4), a3 ^ b3, a2 ^ b2, a1 ^ b1, a0 ^ b0)
  {
    var p', q' := FourBelow(0, a7, a6, a5, a4), FourBelow(0, b7, b6, b5, b4);
    assert XorBits(p', q') == FourBelow(0, a7 ^ b7, a6 ^ b6, a5 ^ b5, a4 ^ b4) by {
      XorFourBytes(0, 0, a7, a6, a5, a4, b7, b6, b5, b4, p', q');
    }
    XorFourBytes(p', q', a3, a2, a1, a0, b3, b2, b1, b0, p, q);
  }

  /** Eight bytes, most significant first, and the numbers of one word and of the exclusive or of two. */
  datatype Octets = Octets(b7: bv8, b6: bv8, b5: bv8, b4: bv8, b3: bv8, b2: bv8, b1: bv8, b0: bv8)

  function Number(a: Octets): nat { FourBelow(FourBelow(0, a.b7, a.b6, a.b5, a.b4), a.b3, a.b2, a.b1, a.b0) }

  function XorNumber(a: Octets, b: Octets): nat {
    FourBelow(FourBelow(0, a.b7 ^ b.b7, a.b6 ^ b.b6, a.b5 ^ b.b5, a.b4 ^ b.b4),
              a.b3 ^ b.b3, a.b2 ^ b.b2, a.b1 ^ b.b1, a.b0 ^ b.b0)
  }

  lemma XorNumberIs(a: Octets, b: Octets)
    ensures XorNumber(a, b) == FourBelow(FourBelow(0, a.b7 ^ b.b7, a.b6 ^ b.b6, a.b5 ^ b.b5, a.b4 ^ b.b4),
                                         a.b3 ^ b.b3, a.b2 ^ b.b2, a.b1 ^ b.b1, a.b0 ^ b.b0)
  {}

  lemma XorIsMachineXor(a: Octets, b: Octets)
    ensures XorBits(Number(a), Number(b)) == XorNumber(a, b)
  {
    XorNumberIs(a, b);
    XorEightBytes(a.b7, a.b6, a.b5, a.b4, a.b3, a.b2, a.b1, a.b0, b.b7, b.b6, b.b5, b.b4, b.b3, b.b2, b.b1, b.b0,
                  Number(a), Number(b));
  }

  /** `x`, `y` and `z` are the numbers of two machine words and of their exclusive or. */
  ghost predicate Xors(x: nat, y: nat, z: nat) {
    exists a: Octets, b: Octets :: Number(a) == x && Number(b) == y && XorNumber(a, b) == z
  }

  lemma Witness(a: Octets, b: Octets, x: nat, y: nat, z: nat)
    requires Number(a) == x && Number(b) == y && XorNumber(a, b) == z
    ensures Xors(x, y, z)
  {}

  lemma XorOf(x: Word, y: Word, z: Word)
    requires Xors(x, y, z)
    ensures Xor(x, y) == z
  {
    var a: Octets, b: Octets :| Number(a) == x && Number(b) == y && XorNumber(a, b) == z;
    XorIsMachineXor(a, b);
  }
}
