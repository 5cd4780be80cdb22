/** `detail::xxh64`: the pointer loops of the code, with its arithmetic written out, proved to compute
    the specified hash of every input. */
module XxHash {
  import opened XxHashSpec

  /** The byte offsets `0, 1, ..., n - 1`. */
  function Offsets(n: nat): (s: seq<nat>)
    ensures |s| == n && forall i :: 0 <= i < n ==> s[i] == i
  {
    seq(n, i => i)
  }

  /** Every access to the input: the `n` bytes from offset `p` on, one after the other. `log` lists the
      offsets of the bytes read so far, in the order of reading; these are the next ones. */
  method Read<W>(m: Words<W>, input: seq<Byte>, p: nat, n: nat, ghost log: seq<nat>)
    returns (w: W, ghost read: seq<nat>)
    requires p + n <= |input| && log == Offsets(p)
    ensures w == m.lane(input[p..p + n])
    ensures read == Offsets(p + n)
  {
    var bytes := [];
    read := log;
    for i := 0 to n
      invariant bytes == input[p..p + i]
      invariant read == Offsets(p + i)
    {
      bytes, read := bytes + [input[p + i]], read + [p + i];
      assert read == Offsets(p + i + 1);
    }
    w := m.lane(bytes);
  }

  lemma StripeSlices(input: seq<Byte>, p: nat)
    requires p + 32 <= |input|
    ensures var s := input[p..][..32];
            && s[..8] == input[p..p + 8] && s[8..16] == input[p + 8..p + 16]
            && s[16..24] == input[p + 16..p + 24] && s[24..] == input[p + 24..p + 32]
  {}

  /** The whole of xxh64. The result is the specified hash, and the bytes are read in order, each
      exactly once and none outside the input: `read` lists the offsets in the order of reading.
      The one law of words it needs is that adding to zero changes nothing. */
  method Run<W(!new)>(m: Words<W>, input: seq<Byte>, seed: W) returns (h: W, ghost read: seq<nat>)
    requires forall x :: m.add(m.zero, x) == x
    ensures h == Hash(m, input, seed)
    ensures read == Offsets(|input|)
  {
    var p;
    h, p, read := Head(m, input, seed);
    h := m.add(h, m.ofNat(|input|));
    h, read := Tail(m, input, h, p, read);
    h := FinalMix(m, h);
  }

  /** Steps 1 to 3: the stripe loop is entered only when a whole stripe is there. */
  method Head<W(!new)>(m: Words<W>, input: seq<Byte>, seed: W) returns (h: W, p: nat, ghost read: seq<nat>)
    requires forall x :: m.add(m.zero, x) == x
    ensures h == Absorb(m, input, seed)
    ensures p == (|input| / 32) * 32 <= |input| && read == Offsets(p)
  {
    if |input| < 32 { return m.add(seed, m.prime5), 0, []; }
    var v1, v2 := m.add(m.add(seed, m.prime1), m.prime2), m.add(seed, m.prime2);
    var v3, v4 := seed, m.sub(seed, m.prime1);
    v1, v2, v3, v4, p, read := StripeLoop(m, input, v1, v2, v3, v4);
    h := Gather(m, v1, v2, v3, v4);
  }

  lemma NextStripe<W>(m: Words<W>, acc: Accumulators<W>, input: seq<Byte>, p: nat)
    requires p + 32 <= |input|
    ensures Stripes(m, acc, input[p..]) == Stripes(m, Stripe(m, acc, input[p..][..32]), input[p + 32..])
  {
    assert input[p..][32..] == input[p + 32..];
  }

  /** The stripe loop: a do-while over the four accumulators. */
  method StripeLoop<W>(m: Words<W>, input: seq<Byte>, u1: W, u2: W, u3: W, u4: W)
    returns (v1: W, v2: W, v3: W, v4: W, p: nat, ghost read: seq<nat>)
    requires |input| >= 32
    ensures Accumulators(v1, v2, v3, v4) == Stripes(m, Accumulators(u1, u2, u3, u4), input)
    ensures p == (|input| / 32) * 32 <= |input| && read == Offsets(p)
  {
    v1, v2, v3, v4 := u1, u2, u3, u4;
    p, read := 0, [];
    var limit := |input| - 32;
    var more := true;
    ghost var k := 0;
    ghost var whole := Stripes(m, Accumulators(u1, u2, u3, u4), input);
    assert input[0..] == input;
    while more
      invariant p == 32 * k <= |input| && (more <==> p <= limit)
      invariant read == Offsets(p)
      invariant Stripes(m, Accumulators(v1, v2, v3, v4), input[p..]) == whole
      decreases |input| - p
    {
      NextStripe(m, Accumulators(v1, v2, v3, v4), input, p);
      v1, v2, v3, v4, read := OneStripe(m, input, p, v1, v2, v3, v4, read);
      p, k := p + 32, k + 1;
      more := p <= limit;
    }
    assert k == |input| / 32;
    assert Stripes(m, Accumulators(v1, v2, v3, v4), input[p..]) == Accumulators(v1, v2, v3, v4);
  }

  /** The body of the stripe loop. */
  method OneStripe<W>(m: Words<W>, input: seq<Byte>, p: nat, v1: W, v2: W, v3: W, v4: W, ghost log: seq<nat>)
    returns (w1: W, w2: W, w3: W, w4: W, ghost read: seq<nat>)
    requires p + 32 <= |input| && log == Offsets(p)
    ensures Accumulators(w1, w2, w3, w4) == Stripe(m, Accumulators(v1, v2, v3, v4), input[p..][..32])
    ensures read == Offsets(p + 32)
  {
    StripeSlices(input, p);
    var k1, k2, k3, k4;
    k1, read := Read(m, input, p, 8, log);
    w1 := m.mul(m.rotl(m.add(v1, m.mul(k1, m.prime2)), 31), m.prime1);
    k2, read := Read(m, input, p + 8, 8, read);
    w2 := m.mul(m.rotl(m.add(v2, m.mul(k2, m.prime2)), 31), m.prime1);
    k3, read := Read(m, input, p + 16, 8, read);
    w3 := m.mul(m.rotl(m.add(v3, m.mul(k3, m.prime2)), 31), m.prime1);
    k4, read := Read(m, input, p + 24, 8, read);
    w4 := m.mul(m.rotl(m.add(v4, m.mul(k4, m.prime2)), 31), m.prime1);
  }

  method Gather<W(!new)>(m: Words<W>, v1: W, v2: W, v3: W, v4: W) returns (h: W)
    requires forall x :: m.add(m.zero, x) == x
    ensures h == Converge(m, Accumulators(v1, v2, v3, v4))
  {
    h := m.add(m.add(m.add(m.rotl(v1, 1), m.rotl(v2, 7)), m.rotl(v3, 12)), m.rotl(v4, 18));
    h := m.add(m.mul(m.xor(h, m.mul(m.rotl(m.mul(v1, m.prime2), 31), m.prime1)), m.prime1), m.prime4);
    h := m.add(m.mul(m.xor(h, m.mul(m.rotl(m.mul(v2, m.prime2), 31), m.prime1)), m.prime1), m.prime4);
    h := m.add(m.mul(m.xor(h, m.mul(m.rotl(m.mul(v3, m.prime2), 31), m.prime1)), m.prime1), m.prime4);
    h := m.add(m.mul(m.xor(h, m.mul(m.rotl(m.mul(v4, m.prime2), 31), m.prime1)), m.prime1), m.prime4);
  }

  /** The tail loops, from offset `from` on. */
  method Tail<W(!new)>(m: Words<W>, input: seq<Byte>, acc: W, from: nat, ghost log: seq<nat>)
    returns (h: W, ghost read: seq<nat>)
    requires forall x :: m.add(m.zero, x) == x
    requires from <= |input| && log == Offsets(from)
    ensures h == Tail8(m, acc, input[from..])
    ensures read == Offsets(|input|)
  {
    var p, end := from, |input|;
    h, read := acc, log;
    while p + 8 <= end
      invariant from <= p <= end && read == Offsets(p)
      invariant Tail8(m, h, input[p..]) == Tail8(m, acc, input[from..])
    {
      h, read := TailLane(m, input, h, p, read);
      p := p + 8;
    }
    if p + 4 <= end {
      h, read := TailHalf(m, input, h, p, read);
      p := p + 4;
    }
    h, read := TailBytes(m, input, h, p, read);
  }

  method TailLane<W(!new)>(m: Words<W>, input: seq<Byte>, acc: W, p: nat, ghost log: seq<nat>)
    returns (h: W, ghost read: seq<nat>)
    requires forall x :: m.add(m.zero, x) == x
    requires p + 8 <= |input| && log == Offsets(p)
    ensures Tail8(m, h, input[p + 8..]) == Tail8(m, acc, input[p..])
    ensures read == Offsets(p + 8)
  {
    assert input[p..][..8] == input[p..p + 8] && input[p..][8..] == input[p + 8..];
    var k1;
    k1, read := Read(m, input, p, 8, log);
    k1 := m.mul(m.rotl(m.mul(k1, m.prime2), 31), m.prime1);
    h := m.add(m.mul(m.rotl(m.xor(acc, k1), 27), m.prime1), m.prime4);
  }

  method TailHalf<W>(m: Words<W>, input: seq<Byte>, acc: W, p: nat, ghost log: seq<nat>)
    returns (h: W, ghost read: seq<nat>)
    requires p + 4 <= |input| < p + 8 && log == Offsets(p)
    ensures Tail1(m, h, input[p + 4..]) == Tail8(m, acc, input[p..])
    ensures read == Offsets(p + 4)
  {
    assert input[p..][..4] == input[p..p + 4] && input[p..][4..] == input[p + 4..];
    var k;
    k, read := Read(m, input, p, 4, log);
    h := m.xor(acc, m.mul(k, m.prime1));
    h := m.add(m.mul(m.rotl(h, 23), m.prime2), m.prime3);
  }

  method TailBytes<W>(m: Words<W>, input: seq<Byte>, acc: W, start: nat, ghost log: seq<nat>)
    returns (h: W, ghost read: seq<nat>)
    requires start <= |input| && log == Offsets(start)
    ensures h == Tail1(m, acc, input[start..])
    ensures read == Offsets(|input|)
  {
    var p, k := start, m.zero;
    h, read := acc, log;
    while p < |input|
      invariant start <= p <= |input| && read == Offsets(p)
      invariant Tail1(m, h, input[p..]) == Tail1(m, acc, input[start..])
    {
      assert input[p..][..1] == input[p..p + 1] && input[p..][1..] == input[p + 1..];
      k, read := Read(m, input, p, 1, read);
      h := m.xor(h, m.mul(k, m.prime5));
      h := m.mul(m.rotl(h, 11), m.prime1);
      p := p + 1;
    }
  }

  method FinalMix<W>(m: Words<W>, acc: W) returns (h: W)
    ensures h == Avalanche(m, acc)
  {
    h := m.xor(acc, m.shr(acc, 33));
    h := m.mul(h, m.prime2);
    h := m.xor(h, m.shr(h, 29));
    h := m.mul(h, m.prime3);
    h := m.xor(h, m.shr(h, 32));
  }
}
