/** The XXH64 algorithm, as the xxHash specification describes it: section "XXH64 Algorithm
    Description", Steps 1 to 6. The steps are stated over any arithmetic of words. */
module XxHashSpec {
  type Byte = b: int | 0 <= b < 256

  /** The word operations the algorithm uses. `lane` reads a little-endian lane. */
  datatype Words<!W> = Words(
    zero: W, prime1: W, prime2: W, prime3: W, prime4: W, prime5: W,
    ofNat: nat -> W,
    lane: seq<Byte> -> W,
    add: (W, W) -> W,
    sub: (W, W) -> W,
    mul: (W, W) -> W,
    xor: (W, W) -> W,
    shr: (W, nat) -> W,
    rotl: (W, nat) -> W)

  datatype Accumulators<W> = Accumulators(a1: W, a2: W, a3: W, a4: W)

  /** Step 1. */
  function Initial<W>(m: Words<W>, seed: W): Accumulators<W> {
    Accumulators(m.add(m.add(seed, m.prime1), m.prime2), m.add(seed, m.prime2), seed, m.sub(seed, m.prime1))
  }

  /** Step 2. */
  function Round<W>(m: Words<W>, acc: W, lane: W): W {
    m.mul(m.rotl(m.add(acc, m.mul(lane, m.prime2)), 31), m.prime1)
  }

  function Stripe<W>(m: Words<W>, acc: Accumulators<W>, s: seq<Byte>): Accumulators<W>
    requires |s| == 32
  {
    Accumulators(Round(m, acc.a1, m.lane(s[..8])), Round(m, acc.a2, m.lane(s[8..16])),
                 Round(m, acc.a3, m.lane(s[16..24])), Round(m, acc.a4, m.lane(s[24..])))
  }

  /** All whole stripes of the input. */
  function Stripes<W>(m: Words<W>, acc: Accumulators<W>, input: seq<Byte>): Accumulators<W>
    decreases |input|
  {
    if |input| < 32 then acc else Stripes(m, Stripe(m, acc, input[..32]), input[32..])
  }

  /** Step 3. */
  function Merge<W>(m: Words<W>, acc: W, accN: W): W {
    m.add(m.mul(m.xor(acc, Round(m, m.zero, accN)), m.prime1), m.prime4)
  }

  function Converge<W>(m: Words<W>, acc: Accumulators<W>): W {
    var sum := m.add(m.add(m.add(m.rotl(acc.a1, 1), m.rotl(acc.a2, 7)), m.rotl(acc.a3, 12)), m.rotl(acc.a4, 18));
    Merge(m, Merge(m, Merge(m, Merge(m, sum, acc.a1), acc.a2), acc.a3), acc.a4)
  }

  /** Step 5: lanes of eight bytes, at most one of four, then single bytes. */
  function Mix8<W>(m: Words<W>, acc: W, lane: W): W {
    m.add(m.mul(m.rotl(m.xor(acc, Round(m, m.zero, lane)), 27), m.prime1), m.prime4)
  }

  function Mix4<W>(m: Words<W>, acc: W, lane: W): W {
    m.add(m.mul(m.rotl(m.xor(acc, m.mul(lane, m.prime1)), 23), m.prime2), m.prime3)
  }

  function Mix1<W>(m: Words<W>, acc: W, lane: W): W {
    m.mul(m.rotl(m.xor(acc, m.mul(lane, m.prime5)), 11), m.prime1)
  }

  function Tail8<W>(m: Words<W>, acc: W, rest: seq<Byte>): W
    decreases |rest|
  {
    if |rest| < 8 then Tail4(m, acc, rest) else Tail8(m, Mix8(m, acc, m.lane(rest[..8])), rest[8..])
  }

  function Tail4<W>(m: Words<W>, acc: W, rest: seq<Byte>): W {
    if |rest| < 4 then Tail1(m, acc, rest) else Tail1(m, Mix4(m, acc, m.lane(rest[..4])), rest[4..])
  }

  function Tail1<W>(m: Words<W>, acc: W, rest: seq<Byte>): W
    decreases |rest|
  {
    if rest == [] then acc else Tail1(m, Mix1(m, acc, m.lane(rest[..1])), rest[1..])
  }

  /** Step 6. */
  function Avalanche<W>(m: Words<W>, acc: W): W {
    var a := m.mul(m.xor(acc, m.shr(acc, 33)), m.prime2);
    var b := m.mul(m.xor(a, m.shr(a, 29)), m.prime3);
    m.xor(b, m.shr(b, 32))
  }

  /** The bytes left over after the whole stripes. */
  function Remainder(input: seq<Byte>): seq<Byte> { input[(|input| / 32) * 32..] }

  /** Steps 1 to 3, with the special case for inputs shorter than a stripe. */
  function Absorb<W>(m: Words<W>, input: seq<Byte>, seed: W): W {
    if |input| < 32 then m.add(seed, m.prime5) else Converge(m, Stripes(m, Initial(m, seed), input))
  }

  /** Steps 1 to 6; Step 4 adds the input length. */
  function Hash<W>(m: Words<W>, input: seq<Byte>, seed: W): W {
    Avalanche(m, Tail8(m, m.add(Absorb(m, input, seed), m.ofNat(|input|)), Remainder(input)))
  }

  // ---- words that agree give the same hash ----

  ghost predicate Agree<W(!new)>(m: Words<W>, n: Words<W>) {
    && m.zero == n.zero && m.prime1 == n.prime1 && m.prime2 == n.prime2 && m.prime3 == n.prime3
    && m.prime4 == n.prime4 && m.prime5 == n.prime5
    && m.ofNat == n.ofNat && m.add == n.add && m.sub == n.sub && m.mul == n.mul && m.xor == n.xor && m.shr == n.shr
    && (forall s :: |s| == 1 || |s| == 4 || |s| == 8 ==> m.lane(s) == n.lane(s))
    && (forall x, r :: 0 < r < 64 ==> m.rotl(x, r) == n.rotl(x, r))
  }

  lemma StripeAgrees<W(!new)>(m: Words<W>, n: Words<W>, acc: Accumulators<W>, s: seq<Byte>)
    requires Agree(m, n) && |s| == 32
    ensures Stripe(m, acc, s) == Stripe(n, acc, s)
  {
    RoundAgrees(m, n, acc.a1, m.lane(s[..8]));
    RoundAgrees(m, n, acc.a2, m.lane(s[8..16]));
    RoundAgrees(m, n, acc.a3, m.lane(s[16..24]));
    RoundAgrees(m, n, acc.a4, m.lane(s[24..]));
  }

  lemma RoundAgrees<W(!new)>(m: Words<W>, n: Words<W>, acc: W, lane: W)
    requires Agree(m, n)
    ensures Round(m, acc, lane) == Round(n, acc, lane)
  {}

  lemma {:induction false} StripesAgree<W(!new)>(m: Words<W>, n: Words<W>, acc: Accumulators<W>, input: seq<Byte>)
    requires Agree(m, n)
    ensures Stripes(m, acc, input) == Stripes(n, acc, input)
    decreases |input|
  {
    if |input| >= 32 {
      StripeAgrees(m, n, acc, input[..32]);
      StripesAgree(m, n, Stripe(m, acc, input[..32]), input[32..]);
    }
  }

  lemma {:induction false} Tail1Agrees<W(!new)>(m: Words<W>, n: Words<W>, acc: W, rest: seq<Byte>)
    requires Agree(m, n)
    ensures Tail1(m, acc, rest) == Tail1(n, acc, rest)
    decreases |rest|
  {
    if rest != [] {
      Tail1Agrees(m, n, Mix1(m, acc, m.lane(rest[..1])), rest[1..]);
    }
  }

  lemma {:induction false} Tail8Agrees<W(!new)>(m: Words<W>, n: Words<W>, acc: W, rest: seq<Byte>)
    requires Agree(m, n)
    ensures Tail8(m, acc, rest) == Tail8(n, acc, rest)
    decreases |rest|
  {
    if |rest| >= 8 {
      assert Mix8(m, acc, m.lane(rest[..8])) == Mix8(n, acc, n.lane(rest[..8]));
      Tail8Agrees(m, n, Mix8(m, acc, m.lane(rest[..8])), rest[8..]);
    } else if |rest| >= 4 {
      assert Mix4(m, acc, m.lane(rest[..4])) == Mix4(n, acc, n.lane(rest[..4]));
      Tail1Agrees(m, n, Mix4(m, acc, m.lane(rest[..4])), rest[4..]);
    } else {
      Tail1Agrees(m, n, acc, rest);
    }
  }

  lemma HashAgrees<W(!new)>(m: Words<W>, n: Words<W>, input: seq<Byte>, seed: W)
    requires Agree(m, n)
    ensures Hash(m, input, seed) == Hash(n, input, seed)
  {
    StripesAgree(m, n, Initial(m, seed), input);
    var acc := Stripes(m, Initial(m, seed), input);
    assert Converge(m, acc) == Converge(n, acc);
    assert Absorb(m, input, seed) == Absorb(n, input, seed);
    Tail8Agrees(m, n, m.add(Absorb(m, input, seed), m.ofNat(|input|)), Remainder(input));
  }
}
