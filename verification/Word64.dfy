/** 64-bit words as the integers below 2^64: wrap-around arithmetic, shifts, and the bitwise operators
    defined bit by bit, with the laws that make each of them invertible. */
module Word64 {
  import opened Stride
  import opened Width

  type Word = x: int | 0 <= x < TWO_64 witness 0

  function Add(x: Word, y: Word): Word { (x + y) % TWO_64 }

  function Sub(x: Word, y: Word): Word { (x - y) % TWO_64 }

  function Mul(x: Word, y: Word): Word { (x * y) % TWO_64 }

  /** Bitwise exclusive or, lowest bit first. */
  function XorBits(x: nat, y: nat): nat
    decreases x + y
  {
    if x == 0 && y == 0 then 0
    else 2 * XorBits(x / 2, y / 2) + if x % 2 == y % 2 then 0 else 1
  }

  /** Bitwise or, lowest bit first. */
  function OrBits(x: nat, y: nat): nat
    decreases x + y
  {
    if x == 0 && y == 0 then 0
    else 2 * OrBits(x / 2, y / 2) + if x % 2 == 0 && y % 2 == 0 then 0 else 1
  }

  function Xor(x: Word, y: Word): Word {
    Pow2Of64();
    XorBound(x, y, 64);
    XorBits(x, y)
  }

  function Or(x: Word, y: Word): Word {
    Pow2Of64();
    OrBound(x, y, 64);
    OrBits(x, y)
  }

  /** Shifting right, one bit at a time. */
  function ShrBits(x: nat, k: nat): (r: nat)
    ensures r <= x
    decreases k
  {
    if k == 0 then x else ShrBits(x / 2, k - 1)
  }

  function Shr(x: Word, k: nat): Word { ShrBits(x, k) }

  function Shl(x: Word, k: nat): Word { (x * Pow2(k)) % TWO_64 }

  // ---- bounds ----

  lemma {:induction false} XorBound(x: nat, y: nat, k: nat)
    requires x < Pow2(k) && y < Pow2(k)
    ensures XorBits(x, y) < Pow2(k)
  {
    if k > 0 && (x != 0 || y != 0) { XorBound(x / 2, y / 2, k - 1); }
  }

  lemma {:induction false} OrBound(x: nat, y: nat, k: nat)
    requires x < Pow2(k) && y < Pow2(k)
    ensures OrBits(x, y) < Pow2(k)
  {
    if k > 0 && (x != 0 || y != 0) { OrBound(x / 2, y / 2, k - 1); }
  }

  // ---- exclusive or ----

  lemma {:induction false} XorZero(x: nat)
    ensures XorBits(x, 0) == x == XorBits(0, x)
  {
    if x > 0 { XorZero(x / 2); }
  }

  lemma {:induction false} XorSelf(x: nat)
    ensures XorBits(x, x) == 0
  {
    if x > 0 { XorSelf(x / 2); }
  }

  lemma {:induction false} XorAssoc(x: nat, y: nat, z: nat)
    ensures XorBits(XorBits(x, y), z) == XorBits(x, XorBits(y, z))
    decreases x + y + z
  {
    if x == 0 && y == 0 && z == 0 {
    } else {
      XorAssoc(x / 2, y / 2, z / 2);
      XorHalf(x, y);
      XorHalf(y, z);
      XorHalf(XorBits(x, y), z);
      XorHalf(x, XorBits(y, z));
      HalfAndParity(XorBits(XorBits(x, y), z), XorBits(x, XorBits(y, z)));
    }
  }

  lemma XorHalf(x: nat, y: nat)
    ensures XorBits(x, y) / 2 == XorBits(x / 2, y / 2)
    ensures XorBits(x, y) % 2 == if x % 2 == y % 2 then 0 else 1
  {}

  lemma HalfAndParity(x: nat, y: nat)
    requires x / 2 == y / 2 && x % 2 == y % 2
    ensures x == y
  {}

  /** Exclusive or with the same word twice changes nothing. */
  lemma XorCancels(x: nat, y: nat)
    ensures XorBits(XorBits(x, y), y) == x
    ensures XorBits(x, XorBits(x, y)) == y
  {
    XorAssoc(x, y, y);
    XorSelf(y);
    XorZero(x);
    XorAssoc(x, x, y);
    XorSelf(x);
    XorZero(y);
  }

  lemma {:induction false} XorShiftsDown(x: nat, y: nat, k: nat)
    ensures ShrBits(XorBits(x, y), k) == XorBits(ShrBits(x, k), ShrBits(y, k))
    decreases k
  {
    if k > 0 {
      XorHalf(x, y);
      XorShiftsDown(x / 2, y / 2, k - 1);
    }
  }

  lemma {:induction false} ShiftsAdd(x: nat, j: nat, k: nat)
    ensures ShrBits(ShrBits(x, j), k) == ShrBits(x, j + k)
    decreases j
  {
    if j > 0 { ShiftsAdd(x / 2, j - 1, k); }
  }

  /** A shift leaves no more bits than there were above it. */
  lemma {:induction false} ShrBound(x: nat, k: nat, j: nat)
    requires x < Pow2(k + j)
    ensures ShrBits(x, k) < Pow2(j)
    decreases k
  {
    if k > 0 { ShrBound(x / 2, k - 1, j); }
  }

  lemma ShiftedOut(x: Word, k: nat)
    requires k >= 64
    ensures Shr(x, k) == 0
  {
    Pow2Of64();
    ShrBound(x, 64, 0);
    ShiftsAdd(x, 64, k - 64);
    ShiftOfZero(k - 64);
  }

  lemma {:induction false} ShiftOfZero(k: nat)
    ensures ShrBits(0, k) == 0
  {
    if k > 0 { ShiftOfZero(k - 1); }
  }

  /** `x ^ (x >> k)`. */
  function XorShift(x: Word, k: nat): Word { Xor(x, Shr(x, k)) }

  /** The inverse of XorShift for shifts of at least 22 bits. */
  function UnXorShift(y: Word, k: nat): Word { Xor(y, Xor(Shr(y, k), Shr(y, 2 * k))) }

  lemma ShiftOfXor(x: Word, y: Word, k: nat)
    ensures Shr(Xor(x, y), k) == Xor(Shr(x, k), Shr(y, k))
  {
    XorShiftsDown(x, y, k);
  }

  lemma XorShiftInverse(x: Word, k: nat)
    requires 22 <= k
    ensures UnXorShift(XorShift(x, k), k) == x
    ensures XorShift(UnXorShift(x, k), k) == x
  {
    var a, b := Shr(x, k), Shr(x, 2 * k);
    ShiftsAdd(x, k, k);
    ShiftsAdd(x, k, 2 * k);
    ShiftsAdd(x, 2 * k, k);
    ShiftsAdd(x, 2 * k, 2 * k);
    ShiftedOut(x, 3 * k);
    if 4 * k >= 64 { ShiftedOut(x, 4 * k); }
    var y := Xor(x, a);
    ShiftOfXor(x, a, k);
    ShiftOfXor(x, a, 2 * k);
    XorZero(b);
    assert Shr(y, k) == Xor(a, b) && Shr(y, 2 * k) == b;
    XorCancels(a, b);
    XorCancels(x, a);
    var z := Xor(x, Xor(a, b));
    ShiftOfXor(x, Xor(a, b), k);
    ShiftOfXor(a, b, k);
    assert Shr(z, k) == Xor(a, b);
    XorCancels(x, Xor(a, b));
  }

  // ---- rotation ----

  /** Or of two words without a common bit is their sum. */
  lemma {:induction false} OrOfDisjoint(x: nat, y: nat, k: nat)
    requires y < Pow2(k)
    ensures OrBits(x * Pow2(k), y) == x * Pow2(k) + y
    ensures OrBits(y, x * Pow2(k)) == x * Pow2(k) + y
  {
    if k == 0 {
      OrZero(x);
    } else {
      var m := Pow2(k - 1);
      assert x * Pow2(k) == 2 * (x * m);
      OrOfDisjoint(x, y / 2, k - 1);
      var w := 2 * (x * m);
      assert w / 2 == x * m && w % 2 == 0;
      OrHalf(w, y);
      OrHalf(y, w);
    }
  }

  lemma OrHalf(x: nat, y: nat)
    ensures OrBits(x, y) == 2 * OrBits(x / 2, y / 2) + if x % 2 == 0 && y % 2 == 0 then 0 else 1
  {}

  lemma {:induction false} OrZero(x: nat)
    ensures OrBits(x, 0) == x == OrBits(0, x)
  {
    if x > 0 { OrZero(x / 2); }
  }

  /** `(x << r) | (x >> (64 - r))`, as the code writes it. */
  function Rotl(x: Word, r: nat): Word
  {
    if r <= 64 then Or(Shl(x, r), Shr(x, 64 - r)) else x
  }

  /** The `k` lowest bits. */
  function LowBits(x: nat, k: nat): nat
    decreases k
  {
    if k == 0 then 0 else 2 * LowBits(x / 2, k - 1) + x % 2
  }

  lemma {:induction false} HighAndLow(x: nat, k: nat)
    ensures x == ShrBits(x, k) * Pow2(k) + LowBits(x, k)
    ensures LowBits(x, k) < Pow2(k)
    decreases k
  {
    if k > 0 {
      HighAndLow(x / 2, k - 1);
      DoubleProduct(ShrBits(x / 2, k - 1), Pow2(k - 1));
    }
  }

  lemma DoubleProduct(a: nat, b: nat)
    ensures a * (2 * b) == 2 * (a * b)
  {}

  lemma HighAndLowUnique(x: nat, k: nat, hi: nat, lo: nat)
    requires x == hi * Pow2(k) + lo && lo < Pow2(k)
    ensures ShrBits(x, k) == hi && LowBits(x, k) == lo
  {
    HighAndLow(x, k);
    ModUnique(x, Pow2(k), hi, lo);
    ModUnique(x, Pow2(k), ShrBits(x, k), LowBits(x, k));
  }

  /** Rotation exchanges the high and the low part of a word. */
  lemma RotlSplits(x: Word, r: nat)
    requires r <= 64
    ensures Rotl(x, r) == LowBits(x, 64 - r) * Pow2(r) + Shr(x, 64 - r)
    ensures Shr(x, 64 - r) < Pow2(r) && LowBits(x, 64 - r) < Pow2(64 - r)
  {
    var hi, lo := Shr(x, 64 - r), LowBits(x, 64 - r);
    Pow2Of64();
    ShrBound(x, 64 - r, r);
    HighAndLow(x, 64 - r);
    ShlDropsHigh(x, r, hi, lo);
    OrOfDisjoint(lo, hi, r);
  }

  lemma ShlDropsHigh(x: Word, r: nat, hi: nat, lo: nat)
    requires r <= 64 && x == hi * Pow2(64 - r) + lo && lo < Pow2(64 - r)
    ensures Shl(x, r) == lo * Pow2(r)
  {
    Pow2Of64();
    Pow2Splits(r, 64);
    DropHigh(hi, lo, Pow2(64 - r), Pow2(r));
  }

  lemma DropHigh(hi: nat, lo: nat, m: nat, n: nat)
    requires lo < m && n > 0
    ensures n * m > 0 && ((hi * m + lo) * n) % (n * m) == lo * n
  {
    var rest, whole := lo * n, n * m;
    assert rest < whole by {
      assert (m - lo) * n > 0;
      assert (m - lo) * n == whole - rest;
    }
    assert (hi * m + lo) * n == hi * whole + rest by {
      assert (hi * m) * n == hi * whole;
    }
    ModUnique(hi * whole + rest, whole, hi, rest);
  }

  lemma RotlInverse(x: Word, r: nat)
    requires r <= 64
    ensures Rotl(Rotl(x, r), 64 - r) == x
  {
    RotatedParts(x, r);
    RotlSplits(Rotl(x, r), 64 - r);
    HighAndLow(x, 64 - r);
  }

  /** What was the low part is the high part after a rotation, and the other way round. */
  lemma RotatedParts(x: Word, r: nat)
    requires r <= 64
    ensures Shr(Rotl(x, r), r) == LowBits(x, 64 - r) && LowBits(Rotl(x, r), r) == Shr(x, 64 - r)
  {
    RotlSplits(x, r);
    HighAndLowUnique(Rotl(x, r), r, LowBits(x, 64 - r), Shr(x, 64 - r));
  }

  // ---- addition and multiplication ----

  lemma AddInverse(x: Word, y: Word)
    ensures Sub(Add(x, y), y) == x && Add(Sub(x, y), y) == x
  {
    ModUnique(x + y, TWO_64, (x + y) / TWO_64, (x + y) % TWO_64);
  }

  /** Multiplying by a number and then by its inverse modulo 2^64 changes nothing. */
  lemma MulInverse(x: Word, p: Word, inv: Word, q: nat)
    requires p * inv == q * TWO_64 + 1
    ensures Mul(Mul(x, p), inv) == x
  {
    UndoProduct(x, p, inv, q, TWO_64);
  }

  lemma UndoProduct(x: nat, p: nat, inv: nat, q: nat, w: nat)
    requires x < w && p * inv == q * w + 1
    ensures ((x * p) % w * inv) % w == x
  {
    var k, r := (x * p) / w, (x * p) % w;
    TimesInverse(x, p, inv, q, w);
    Distributed(k, w, r, inv);
    Gathered(x * q, k * inv, w);
    ModUnique(r * inv, w, x * q - k * inv, x);
  }

  lemma Distributed(k: nat, w: nat, r: nat, inv: nat)
    ensures (k * w + r) * inv == (k * inv) * w + r * inv
  {}

  lemma Gathered(a: int, b: int, w: int)
    ensures (a - b) * w == a * w - b * w
  {}

  lemma TimesInverse(x: nat, p: nat, inv: nat, q: nat, w: nat)
    requires p * inv == q * w + 1
    ensures (x * p) * inv == x + (x * q) * w
  {
    assert (x * p) * inv == x * (p * inv);
    assert x * (q * w + 1) == x * (q * w) + x;
    assert x * (q * w) == (x * q) * w;
  }
}
