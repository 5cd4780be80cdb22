/** The probe sequence of double hashing: 64-bit wrap-around, an odd stride, and why it covers a
    table whose capacity is a power of two. */
module Stride {
  import opened Width

  /** `(h >> 32) | 1`: the stride is always odd. */
  function StrideOf(h: nat): (s: nat)
    ensures s % 2 == 1
    ensures h < TWO_64 ==> s < TWO_32
  {
    var high := h / TWO_32;
    if high % 2 == 0 then high + 1 else high
  }

  /** `h1 + probe * h2` in 64-bit arithmetic. */
  function Probe(h: nat, probe: nat): nat {
    (h + (probe * StrideOf(h)) % TWO_64) % TWO_64
  }

  function Slot(h: nat, probe: nat, capacity: nat): (slot: nat)
    requires capacity > 0
    ensures slot < capacity
  {
    Probe(h, probe) % capacity
  }

  function Pow2(k: nat): (n: nat)
    ensures n > 0
  {
    if k == 0 then 1 else 2 * Pow2(k - 1)
  }

  ghost predicate IsPow2(n: nat) { exists k: nat :: k <= 64 && n == Pow2(k) }

  // ---- arithmetic ----

  /** Euclidean division is unique. */
  lemma ModUnique(x: nat, m: nat, q: int, r: nat)
    requires m > 0 && x == q * m + r && r < m
    ensures x % m == r && x / m == q
  {
    var d := x / m - q;
    assert d * m == r - x % m;
    assert d >= 1 ==> d * m >= m;
    assert d <= -1 ==> d * m <= -1 * m;
  }

  lemma ModOfSum(x: nat, q: nat, m: nat)
    requires m > 0
    ensures (x + q * m) % m == x % m
  {
    ModUnique(x + q * m, m, x / m + q, x % m);
  }

  lemma Regroup(q: nat, m: nat, f: nat)
    ensures q * (m * f) == (q * f) * m
  {}

  /** What wrapping around `m * f` takes off is a multiple of `m`. */
  lemma WholeTurns(x: nat, m: nat, f: nat) returns (k: nat)
    requires m > 0 && f > 0
    ensures m * f > 0 && x == x % (m * f) + k * m
  {
    assert m * f >= m;
    k := (x / (m * f)) * f;
    Regroup(x / (m * f), m, f);
  }

  /** Reducing first modulo a multiple of `m` changes nothing modulo `m`. */
  lemma ModOfMod(x: nat, m: nat, f: nat)
    requires m > 0 && f > 0
    ensures m * f > 0 && (x % (m * f)) % m == x % m
  {
    var k := WholeTurns(x, m, f);
    ModOfSum(x % (m * f), k, m);
  }

  lemma {:induction false} Pow2Splits(k: nat, n: nat)
    requires k <= n
    ensures Pow2(n) == Pow2(k) * Pow2(n - k)
  {
    if k > 0 {
      Pow2Splits(k - 1, n - 1);
    }
  }

  lemma Pow2Of32()
    ensures Pow2(32) == TWO_32
  {
    assert Pow2(16) == 0x1_0000 by {
      assert Pow2(8) == 256 by { assert Pow2(4) == 16; }
      Pow2Splits(8, 16);
    }
    Pow2Splits(16, 32);
  }

  lemma Pow2Of64()
    ensures Pow2(64) == TWO_64
  {
    Pow2Of32();
    Pow2Splits(32, 64);
  }

  /** Wrapping an offset around a multiple of `m` changes nothing modulo `m`. */
  lemma WrapIsInvisible(h: nat, x: nat, m: nat, f: nat)
    requires m > 0 && f > 0
    ensures m * f > 0 && (h + x % (m * f)) % (m * f) % m == (h + x) % m
  {
    var k := WholeTurns(x, m, f);
    ModOfMod(h + x % (m * f), m, f);
    ModOfSum(h + x % (m * f), k, m);
  }

  /** With a power-of-two capacity the wrap-around is invisible: the path is `h + p * s` modulo it. */
  lemma SlotIsLinear(h: nat, p: nat, k: nat)
    requires k <= 64
    ensures Slot(h, p, Pow2(k)) == (h + p * StrideOf(h)) % Pow2(k)
  {
    Pow2Splits(k, 64);
    Pow2Of64();
    WrapIsInvisible(h, p * StrideOf(h), Pow2(k), Pow2(64 - k));
  }

  /** An odd factor can be cancelled modulo a power of two. */
  lemma {:induction false} OddCancels(k: nat, s: nat, d: nat, q: nat)
    requires s % 2 == 1 && d * s == q * Pow2(k)
    ensures d % Pow2(k) == 0
  {
    if k > 0 {
      var half := Pow2(k - 1);
      Halve(d, s, q, half);
      OddCancels(k - 1, s, d / 2, q);
      Redouble(d, half);
    }
  }

  lemma Halve(d: nat, s: nat, q: nat, half: nat)
    requires s % 2 == 1 && d * s == q * (2 * half)
    ensures d % 2 == 0 && (d / 2) * s == q * half
  {
    assert d * s == 2 * (q * half);
    OddTimesOdd(d, s);
    assert (2 * (d / 2)) * s == 2 * ((d / 2) * s);
  }

  lemma Redouble(d: nat, half: nat)
    requires half > 0 && d % 2 == 0 && (d / 2) % half == 0
    ensures d % (2 * half) == 0
  {
    var e := d / 2;
    assert e == (e / half) * half;
    assert d == (e / half) * (2 * half);
    ModUnique(d, 2 * half, e / half, 0);
  }

  lemma OddTimesOdd(d: nat, s: nat)
    requires s % 2 == 1
    ensures (d * s) % 2 == d % 2
  {
    var t := s / 2;
    assert s == 2 * t + 1;
    assert d * s == d + (d * t) * 2 by { assert d * (2 * t + 1) == d * (2 * t) + d; assert d * (2 * t) == (d * t) * 2; }
    ModOfSum(d, d * t, 2);
  }

  lemma SameRemainder(x: nat, y: nat, m: nat) returns (q: nat)
    requires m > 0 && x <= y && x % m == y % m
    ensures y - x == q * m
  {
    var d := y / m - x / m;
    assert y - x == d * m;
    assert d <= -1 ==> d * m <= -1 * m;
    q := d;
  }

  /** Two probes of one key meet only if they are a multiple of the capacity apart. */
  lemma ProbesApart(h: nat, i: nat, j: nat, k: nat)
    requires k <= 64 && i < j && Slot(h, i, Pow2(k)) == Slot(h, j, Pow2(k))
    ensures (j - i) % Pow2(k) == 0
  {
    SlotIsLinear(h, i, k);
    SlotIsLinear(h, j, k);
    var q := ApartByMultiple(h, i, j, StrideOf(h), Pow2(k));
    OddCancels(k, StrideOf(h), j - i, q);
  }

  lemma ApartByMultiple(h: nat, i: nat, j: nat, s: nat, m: nat) returns (q: nat)
    requires m > 0 && i <= j && (h + i * s) % m == (h + j * s) % m
    ensures (j - i) * s == q * m
  {
    Distribute(i, j, s);
    q := SameRemainder(h + i * s, h + j * s, m);
  }

  lemma Distribute(i: nat, j: nat, s: nat)
    requires i <= j
    ensures j * s == i * s + (j - i) * s && i * s <= j * s
  {}

  lemma ProbesDistinct(h: nat, i: nat, j: nat, k: nat)
    requires k <= 64 && i < j < Pow2(k)
    ensures Slot(h, i, Pow2(k)) != Slot(h, j, Pow2(k))
  {
    if Slot(h, i, Pow2(k)) == Slot(h, j, Pow2(k)) {
      ProbesApart(h, i, j, k);
      ModUnique(j - i, Pow2(k), 0, j - i);
    }
  }

  // ---- coverage ----

  /** The slots of a table with `n` slots. */
  ghost function Range(n: nat): (r: set<nat>)
    ensures |r| == n
    ensures forall i: nat :: i in r <==> i < n
  {
    if n == 0 then {} else Range(n - 1) + {n - 1}
  }

  function Visited(h: nat, n: nat, capacity: nat): set<nat>
    requires capacity > 0
  {
    set p: nat | p < n :: Slot(h, p, capacity)
  }

  lemma {:induction false} VisitedSize(h: nat, n: nat, k: nat)
    requires k <= 64 && n <= Pow2(k)
    ensures |Visited(h, n, Pow2(k))| == n
  {
    var m := Pow2(k);
    if n == 0 {
      assert Visited(h, 0, m) == {};
    } else {
      VisitedSize(h, n - 1, k);
      var last := Slot(h, n - 1, m);
      assert Visited(h, n, m) == Visited(h, n - 1, m) + {last};
      forall p: nat | p < n - 1 ensures Slot(h, p, m) != last {
        ProbesDistinct(h, p, n - 1, k);
      }
      assert last !in Visited(h, n - 1, m);
    }
  }

  /** Within `capacity` probes an odd stride visits every slot of a power-of-two table. */
  lemma PathCoversTable(h: nat, capacity: nat, slot: nat)
    requires IsPow2(capacity) && slot < capacity
    ensures exists p: nat :: p < capacity && Slot(h, p, capacity) == slot
  {
    var k: nat :| k <= 64 && capacity == Pow2(k);
    VisitedSize(h, capacity, k);
    SubsetOfSameSize(Visited(h, capacity, capacity), Range(capacity));
    assert slot in Visited(h, capacity, capacity);
  }

  // ---- and only of a power-of-two table ----

  lemma {:induction false} Pow2Smaller(j: nat, k: nat)
    requires Pow2(j) < Pow2(k)
    ensures j < k
  {
    if k <= j {
      Pow2Splits(k, j);
      Distribute(1, Pow2(j - k), Pow2(k));
    }
  }

  lemma HalfIsNoPower(m: nat, k: nat)
    requires 0 < m < Pow2(k) && k <= 64 && !IsPow2(m) && m % 2 == 0
    ensures k > 0 && 0 < m / 2 < Pow2(k - 1) && !IsPow2(m / 2)
  {
    if j: nat :| j <= 64 && m / 2 == Pow2(j) {
      assert m == Pow2(j + 1);
      Pow2Smaller(j + 1, k);
    }
  }

  lemma TwiceFactor(q: nat, f: nat)
    ensures q * (2 * f) == 2 * (q * f)
  {}

  /** A number that is not a power of two has an odd factor of at least three. */
  lemma {:induction false} OddFactor(m: nat, k: nat) returns (q: nat, f: nat)
    requires 0 < m < Pow2(k) && k <= 64 && !IsPow2(m)
    ensures q % 2 == 1 && 3 <= q <= m && f > 0 && m == q * f
  {
    if m % 2 == 1 {
      assert Pow2(0) == 1;
      q, f := m, 1;
    } else {
      HalfIsNoPower(m, k);
      q, f := OddFactor(m / 2, k - 1);
      TwiceFactor(q, f);
      f := 2 * f;
    }
  }

  /** What is left of `low` modulo `q` before and after a 64-bit wrap-around. */
  function ClassBefore(q: nat, low: nat): nat
    requires q > 0
  {
    low % q
  }

  function ClassAfter(q: nat, low: nat): nat
    requires q > 0
  {
    (low as int - TWO_64 as int) % q
  }

  lemma ClassOf(q: nat, a: nat, low: nat, x: nat)
    requires q > 0 && (x == low + q * a || x == low + q * a - TWO_64)
    ensures x % q == ClassBefore(q, low) || x % q == ClassAfter(q, low)
  {
    var n: int := if x == low + q * a then low as int else low as int - TWO_64 as int;
    var d := n / q;
    assert n == d * q + n % q;
    assert x == (a + d) * q + n % q by { assert (a + d) * q == q * a + d * q; }
    ModUnique(x, q, a + d, n % q);
  }

  /** With the odd stride `q` and a capacity that `q` divides, the path stays in one residue class modulo
      `q` until the 64-bit sum wraps, and in one other after that. */
  lemma TwoClasses(m: nat, q: nat, f: nat, low: nat, p: nat)
    requires q % 2 == 1 && 0 < q < TWO_32 && f > 0 && m > 0 && m == q * f && low < TWO_32 && p < TWO_32
    ensures var r := Slot(q * TWO_32 + low, p, m) % q; r == ClassBefore(q, low) || r == ClassAfter(q, low)
  {
    var x := Probe(q * TWO_32 + low, p);
    ModOfMod(x, q, f);
    HomeAndProbe(q, low, p);
    ClassOf(q, TWO_32 + p, low, x);
  }

  lemma SumWraps(h: nat, y: nat)
    requires h < TWO_64 && y < TWO_64
    ensures (h + y % TWO_64) % TWO_64 == h + y || (h + y % TWO_64) % TWO_64 == h + y - TWO_64
  {}

  lemma ProductFits(q: nat, p: nat, w: nat)
    requires 0 < q < w && p < w
    ensures p * q < w * w && q * (w + p) == q * w + p * q
  {
    Distribute(p, w, q);
    Distribute(q, w, w);
    assert p * q < w * q by { assert (w - p) * q >= q by { Distribute(1, w - p, q); } }
  }

  lemma HomeAndProbe(q: nat, low: nat, p: nat)
    requires q % 2 == 1 && 0 < q < TWO_32 && low < TWO_32 && p < TWO_32
    ensures var x := Probe(q * TWO_32 + low, p);
            x == low + q * (TWO_32 + p) || x == low + q * (TWO_32 + p) - TWO_64
  {
    ProductFits(q, p, TWO_32);
    assert StrideOf(q * TWO_32 + low) == q;
    SumWraps(q * TWO_32 + low, p * q);
  }

  /** The least number that is neither of two others. */
  function Avoiding(a: nat, b: nat): (x: nat)
    ensures x < 3 && x != a && x != b
  {
    if a != 0 && b != 0 then 0 else if a != 1 && b != 1 then 1 else 2
  }

  lemma Missed(m: nat, q: nat, f: nat, low: nat, p: nat, slot: nat)
    requires q % 2 == 1 && 3 <= q < TWO_32 && f > 0 && m > 0 && m == q * f && low < TWO_32 && p < TWO_32
    requires slot == Avoiding(ClassBefore(q, low), ClassAfter(q, low))
    ensures Slot(q * TWO_32 + low, p, m) != slot
  {
    TwoClasses(m, q, f, low, p);
    ModUnique(slot, q, 0, slot);
  }

  /** So for every capacity that is not a power of two some path misses some slot, whatever the low half of
      the hash is. */
  lemma MissedSlot(m: nat, low: nat) returns (h: nat, slot: nat)
    requires 0 < m < TWO_32 && !IsPow2(m) && low < TWO_32
    ensures 3 * TWO_32 <= h < TWO_64 && h % TWO_32 == low && slot < m
    ensures forall p: nat :: p < TWO_32 ==> Slot(h, p, m) != slot
  {
    Pow2Of32();
    var q, f := OddFactor(m, 32);
    slot := Avoiding(ClassBefore(q, low), ClassAfter(q, low));
    h := q * TWO_32 + low;
    forall p: nat | p < TWO_32 ensures Slot(h, p, m) != slot {
      Missed(m, q, f, low, p, slot);
    }
  }

  /** Some probe of the path of `h` is `slot`. */
  ghost predicate Reaches(h: nat, slot: nat, m: nat)
    requires m > 0
  {
    exists p: nat :: p < m && Slot(h, p, m) == slot
  }

  /** Every path covers the table exactly if the capacity is a power of two. */
  lemma CoversIffPow2(m: nat)
    requires 0 < m < TWO_32
    ensures (forall h: nat, slot: nat :: h < TWO_64 && slot < m ==> Reaches(h, slot, m)) <==> IsPow2(m)
  {
    if IsPow2(m) {
      forall h: nat, slot: nat | h < TWO_64 && slot < m ensures Reaches(h, slot, m) {
        PathCoversTable(h, m, slot);
      }
    } else {
      var h, slot := MissedSlot(m, 0);
      assert !Reaches(h, slot, m);
    }
  }

  // ---- set sizes ----

  lemma SubsetOfSameSize<T>(a: set<T>, b: set<T>)
    requires a <= b && |a| == |b|
    ensures a == b
  {
    if x :| x in b && x !in a {
      assert a <= b - {x};
      SubsetSize(a, b - {x});
    }
  }

  lemma {:induction false} SubsetSize<T>(a: set<T>, b: set<T>)
    requires a <= b
    ensures |a| <= |b|
    decreases a
  {
    if a != {} {
      var x :| x in a;
      SubsetSize(a - {x}, b - {x});
    }
  }
}
