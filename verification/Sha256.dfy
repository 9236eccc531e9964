/** Streaming SHA-256 and HMAC around an unspecified compression function. */
module Sha256 {
  import opened Naturals

  type Bytes = seq<bv8>

  /** The compression function, its initial value, and the 32 bytes of a hash value. */
  datatype Core<!H> = Core(initial: H, block: (H, Bytes) -> H, output: H -> Bytes)

  ghost predicate Outputs32<H(!new)>(core: Core<H>) {
    forall h: H :: |core.output(h)| == 32
  }

  // Compress 64-byte blocks one after the other.
  ghost function Fold<H>(core: Core<H>, h: H, data: Bytes): H
    requires |data| % 64 == 0
    decreases |data|
  {
    if data == [] then h else Fold(core, core.block(h, data[..64]), data[64..])
  }

  lemma {:induction false} FoldConcat<H>(core: Core<H>, h: H, a: Bytes, b: Bytes)
    requires |a| % 64 == 0 && |b| % 64 == 0
    ensures Fold(core, h, a + b) == Fold(core, Fold(core, h, a), b)
    decreases |a|
  {
    if a == [] {
      assert a + b == b;
    } else {
      assert (a + b)[..64] == a[..64] && (a + b)[64..] == a[64..] + b;
      FoldConcat(core, core.block(h, a[..64]), a[64..], b);
    }
  }

  // ---- padding, section 5.1.1 of FIPS 180-4 ----

  function Zeros(n: nat): (z: Bytes)
    ensures |z| == n && forall i :: 0 <= i < n ==> z[i] == 0
  {
    seq(n, _ => 0 as bv8)
  }

  function ByteOf(n: nat): bv8 { (n % 256) as bv8 }

  function Pow256(n: nat): (p: nat)
    ensures p > 0
  {
    if n == 0 then 1 else 256 * Pow256(n - 1)
  }

  function Quot(n: nat, p: nat): nat
    requires p > 0
  {
    n / p
  }

  // Byte k of n, counted from the least significant one.
  function ByteAt(n: nat, k: nat): bv8 {
    hide Quot, ByteOf;
    ByteOf(Quot(n, Pow256(k)))
  }

  // The last 64 bits of n, most significant byte first.
  function BigEndian(n: nat): (b: Bytes)
    ensures |b| == 8
  {
    [ByteAt(n, 7), ByteAt(n, 6), ByteAt(n, 5), ByteAt(n, 4), ByteAt(n, 3), ByteAt(n, 2), ByteAt(n, 1), ByteAt(n, 0)]
  }

  // Zero bytes between the 0x80 and the length.
  function ZeroCount(n: nat): nat {
    (55 - n) % 64
  }

  /** The least number of zero bytes that brings the message to 56 bytes past a block boundary. */
  lemma {:induction false} ZeroCountLeast(n: nat, k: nat)
    ensures (n + 1 + ZeroCount(n)) % 64 == 56
    ensures (n + 1 + k) % 64 == 56 ==> ZeroCount(n) <= k
  {}

  // The number that bytes stand for, the first one weighing most.
  function Value(b: Bytes): nat {
    if b == [] then 0 else 256 * Value(b[..|b| - 1]) + b[|b| - 1] as nat
  }

  lemma {:induction false} ValueLead(x: bv8, b: Bytes)
    ensures Value([x] + b) == x as nat * Pow256(|b|) + Value(b)
  {
    var all := [x] + b;
    if b == [] {
      assert all[..0] == [];
    } else {
      ValueLead(x, b[..|b| - 1]);
      assert all[..|all| - 1] == [x] + b[..|b| - 1];
      Times256(x as nat, Pow256(|b| - 1));
    }
  }

  lemma {:induction false} Times256(x: nat, p: nat)
    ensures 256 * (x * p) == x * (256 * p)
  {}

  // The last k bytes of n, most significant first.
  ghost function LowBytes(n: nat, k: nat): (b: Bytes)
    ensures |b| == k
  {
    if k == 0 then [] else [ByteAt(n, k - 1)] + LowBytes(n, k - 1)
  }

  lemma {:induction false} ByteValue(n: nat, k: nat)
    ensures ByteAt(n, k) as nat == n / Pow256(k) % 256
  {
    ByteOfValue(Quot(n, Pow256(k)));
  }

  lemma {:induction false} ByteOfValue(n: nat)
    ensures ByteOf(n) as nat == n % 256
  {
    EightBits(n % 256);
  }

  // Every number below 256 is the value of a byte.
  lemma {:induction false} ByteFor(d: nat) returns (b: bv8)
    requires d < 256
    ensures b as nat == d
  {
    if d == 0 {
      b := 0;
    } else {
      var half := ByteFor(d / 2);
      Doubled(half);
      b := if d % 2 == 0 then half << 1 else (half << 1) | 1;
    }
  }

  lemma {:induction false} Doubled(b: bv8)
    requires b as nat < 128
    ensures (b << 1) as nat == 2 * b as nat && ((b << 1) | 1) as nat == 2 * b as nat + 1
  {}

  lemma {:induction false} EightBits(d: nat)
    requires d < 256
    ensures (d as bv8) as nat == d
  {
    var b := ByteFor(d);
    ByteBack(b);
  }

  lemma {:induction false} ByteBack(b: bv8)
    ensures (b as nat) as bv8 == b
  {}

  // One more digit in base 256.
  lemma {:induction false} DigitMore(n: nat, p: nat)
    requires p > 0
    ensures n % (256 * p) == n / p % 256 * p + n % p
  {
    DigitOf(n, p, n / p / 256, n / p % 256, n % p);
  }

  lemma {:induction false} DigitOf(n: nat, p: nat, high: nat, d: nat, r: nat)
    requires n == (256 * high + d) * p + r && d < 256 && r < p
    ensures n % (256 * p) == d * p + r
  {
    MulLe(d, 255, p);
    DigitSum(high, d, p, r);
    DivMod(high, 256 * p, d * p + r);
  }

  lemma {:induction false} DigitSum(high: nat, d: nat, p: nat, r: nat)
    ensures (256 * high + d) * p + r == high * (256 * p) + (d * p + r)
  {}

  lemma {:induction false} LowValue(n: nat, k: nat)
    ensures Value(LowBytes(n, k)) == n % Pow256(k)
  {
    hide Value, ByteAt;
    if k == 0 {
      NoValue();
    } else {
      LowValue(n, k - 1);
      ValueLead(ByteAt(n, k - 1), LowBytes(n, k - 1));
      ByteValue(n, k - 1);
      DigitMore(n, Pow256(k - 1));
    }
  }

  lemma {:induction false} NoValue()
    ensures Value([]) == 0
  {}

  const TWO64 := 0x1_0000_0000_0000_0000

  lemma {:induction false} EightDigits()
    ensures Pow256(8) == TWO64
  {
    assert Pow256(4) == 0x1_0000_0000;
    assert Pow256(6) == 256 * (256 * Pow256(4));
  }

  lemma {:induction false} LowAt(n: nat, k: nat, i: nat)
    requires i < k
    ensures LowBytes(n, k)[i] == ByteAt(n, k - 1 - i)
  {
    hide ByteAt;
    if i > 0 { LowAt(n, k - 1, i - 1); }
  }

  lemma {:induction false} EightBytes(n: nat)
    ensures BigEndian(n) == LowBytes(n, 8)
  {
    hide ByteAt, LowBytes;
    var b := BigEndian(n);
    forall i: nat | i < 8 ensures b[i] == LowBytes(n, 8)[i] {
      LowAt(n, 8, i);
      assert i == 0 || i == 1 || i == 2 || i == 3 || i == 4 || i == 5 || i == 6 || i == 7;
    }
  }

  /** The length field is the number modulo 2^64, its first byte weighing most. */
  lemma {:induction false} BigEndianValue(n: nat)
    ensures Value(BigEndian(n)) == n % TWO64
  {
    hide Value, ByteAt, BigEndian, LowBytes, Pow256;
    EightBytes(n);
    LowValue(n, 8);
    EightDigits();
  }

  const STOP: bv8 := 0x80

  function Padding(n: nat): (p: Bytes)
    ensures |p| == ZeroCount(n) + 9
  {
    [STOP] + Zeros(ZeroCount(n)) + BigEndian(8 * n)
  }

  // A padded message fills whole blocks.
  lemma {:induction false} PaddedLength(n: nat)
    ensures (n + (ZeroCount(n) + 9)) % 64 == 0
  {
    ZeroCountLeast(n, 0);
  }

  /** A padded message fills whole blocks: the message, a byte 0x80, the fewest zero bytes that allow it, and eight
      bytes that spell its length in bits. */
  lemma {:induction false} PaddedForm(msg: Bytes)
    ensures var p, n := msg + Padding(|msg|), |msg|;
      && |p| % 64 == 0 && n + 9 <= |p| < n + 9 + 64 && p[..n] == msg && p[n] == 0x80
      && (forall i :: n < i < |p| - 8 ==> p[i] == 0)
      && Value(p[|p| - 8..]) == 8 * n % TWO64
  {
    hide Value, BigEndian;
    var p, n := msg + Padding(|msg|), |msg|;
    PaddedLength(n);
    BigEndianValue(8 * n);
    assert p[|p| - 8..] == BigEndian(8 * n);
  }

  /** Different messages shorter than 2^61 bytes have different padded forms. */
  lemma {:induction false} PaddingOneToOne(a: Bytes, b: Bytes)
    requires 8 * |a| < TWO64 && 8 * |b| < TWO64
    ensures a + Padding(|a|) == b + Padding(|b|) <==> a == b
  {
    hide Value, Padding;
    PaddedForm(a);
    PaddedForm(b);
    LengthTold(|a|);
    LengthTold(|b|);
  }

  lemma {:induction false} LengthTold(n: nat)
    requires 8 * n < TWO64
    ensures 8 * n % TWO64 == 8 * n
  {}

  /** The one-shot definition. */
  ghost function Digest<H>(core: Core<H>, msg: Bytes): Bytes {
    PaddedLength(|msg|);
    core.output(Fold(core, core.initial, msg + Padding(|msg|)))
  }

  // ---- HMAC, section 2 of RFC 2104 ----

  ghost function BlockKey<H>(core: Core<H>, key: Bytes): Bytes {
    var k := if |key| > 64 then Digest(core, key) else key;
    if |k| < 64 then k + Zeros(64 - |k|) else k
  }

  function Xor(k: Bytes, pad: bv8): (r: Bytes)
    ensures |r| == |k| && forall i :: 0 <= i < |k| ==> r[i] == k[i] ^ pad
  {
    seq(|k|, i requires 0 <= i < |k| => k[i] ^ pad)
  }

  ghost function Hmac<H>(core: Core<H>, key: Bytes, msg: Bytes): Bytes {
    var k := BlockKey(core, key);
    Digest(core, Xor(k, 0x5c) + Digest(core, Xor(k, 0x36) + msg))
  }

  // A long key counts as its digest, and a short one as itself with zero bytes up to a block.
  lemma {:induction false} BlockKeyIs<H(!new)>(core: Core<H>, key: Bytes)
    requires Outputs32(core)
    ensures |BlockKey(core, key)| == 64
    ensures var short := if |key| > 64 then Digest(core, key) else key;
      && |short| <= 64 && BlockKey(core, key)[..|short|] == short
      && forall i :: |short| <= i < 64 ==> BlockKey(core, key)[i] == 0
  {
    hide Fold, Padding;
  }

  /** Two keys within a block count as the same exactly when they differ in zero bytes at the end. */
  lemma {:induction false} SameKey<H(!new)>(core: Core<H>, key: Bytes, other: Bytes)
    requires |other| <= |key| <= 64
    ensures BlockKey(core, key) == BlockKey(core, other) <==> key == other + Zeros(|key| - |other|)
  {
    hide Digest;
    var a, b := BlockKey(core, key), BlockKey(core, other);
    assert a[..|key|] == key && b[..|other|] == other;
    assert forall i :: |key| <= i < 64 ==> a[i] == 0;
    assert forall i :: |other| <= i < 64 ==> b[i] == 0;
    if a == b {
      forall i | 0 <= i < |key| ensures key[i] == (other + Zeros(|key| - |other|))[i] {
        assert a[..|key|][i] == b[i];
        if i < |other| { assert b[..|other|][i] == b[i]; }
      }
    }
  }

  /** A key longer than a block has the MACs of its digest. */
  lemma {:induction false} LongKey<H(!new)>(core: Core<H>, key: Bytes, msg: Bytes)
    requires Outputs32(core) && |key| > 64
    ensures Hmac(core, key, msg) == Hmac(core, Digest(core, key), msg)
  {
    hide Fold, Padding;
  }

  /** The inner and the outer block of a key differ in every byte, and either gives the key back. */
  lemma {:induction false} PadsApart(k: Bytes, i: nat)
    requires i < |k|
    ensures Xor(k, 0x36)[i] != Xor(k, 0x5c)[i]
    ensures Xor(Xor(k, 0x36), 0x36) == k == Xor(Xor(k, 0x5c), 0x5c)
  {}

  ghost function Joined(parts: seq<Bytes>): Bytes {
    if parts == [] then [] else Joined(parts[..|parts| - 1]) + parts[|parts| - 1]
  }

  // ---- the streaming context ----

  // After `absorbed`, h has compressed all full blocks and buf holds the rest.
  ghost predicate Absorbed<H>(core: Core<H>, absorbed: Bytes, h: H, rest: Bytes) {
    && |rest| < 64 && |rest| <= |absorbed| && (|absorbed| - |rest|) % 64 == 0
    && rest == absorbed[|absorbed| - |rest|..]
    && h == Fold(core, core.initial, absorbed[..|absorbed| - |rest|])
  }

  lemma {:induction false} AbsorbStart<H>(core: Core<H>)
    ensures Absorbed(core, [], core.initial, [])
  {}

  // More bytes that do not fill the buffer, and bytes that do.
  lemma {:induction false} AbsorbMore<H>(core: Core<H>, absorbed: Bytes, h: H, rest: Bytes, more: Bytes)
    requires Absorbed(core, absorbed, h, rest) && |rest| + |more| <= 64
    ensures |rest + more| < 64 ==> Absorbed(core, absorbed + more, h, rest + more)
    ensures |rest + more| == 64 ==> Absorbed(core, absorbed + more, core.block(h, rest + more), [])
  {
    var n := |absorbed| - |rest|;
    var all := absorbed + more;
    assert all[..n] == absorbed[..n] && all[n..] == rest + more;
    if |rest + more| == 64 {
      FoldConcat(core, core.initial, all[..n], all[n..]);
      assert all[..n] + all[n..] == all == all[..|all|];
      OneBlock(core, h, rest + more);
    }
  }

  lemma {:induction false} OneBlock<H>(core: Core<H>, h: H, block: Bytes)
    requires |block| == 64
    ensures Fold(core, h, block) == core.block(h, block)
  {
    assert block[..64] == block && block[64..] == [];
    assert Fold(core, core.block(h, block), []) == core.block(h, block);
  }

  lemma {:induction false} AbsorbedAll<H>(core: Core<H>, absorbed: Bytes, h: H)
    requires Absorbed(core, absorbed, h, [])
    ensures |absorbed| % 64 == 0 && h == Fold(core, core.initial, absorbed)
  {
    assert absorbed[..|absorbed|] == absorbed;
  }

  class Context<H(!new)> {
    const core: Core<H>
    var h: H
    var len: nat
    const buf: array<bv8>
    var buflen: nat
    ghost var absorbed: Bytes

    ghost predicate Valid()
      reads this, buf
    {
      buf.Length == 64 && buflen < 64 && Absorbed(core, absorbed, h, buf[..buflen])
    }

    constructor (core: Core<H>)
      ensures Valid() && absorbed == [] && len == 0 && this.core == core && fresh(buf)
    {
      this.core := core;
      h := core.initial;
      len, buflen, absorbed := 0, 0, [];
      buf := new bv8[64](_ => 0);
      new;
      AbsorbStart(core);
      assert buf[..0] == [];
    }

    // Bytes that fit into the buffer; a full buffer is compressed.
    method Fill(more: Bytes)
      requires Valid() && buflen + |more| <= 64
      modifies this`h, this`buflen, this`absorbed, buf
      ensures Valid() && absorbed == old(absorbed) + more
    {
      hide Absorbed, Fold;
      ghost var rest := buf[..buflen];
      AbsorbMore(core, absorbed, h, rest, more);
      forall i | 0 <= i < |more| { buf[buflen + i] := more[i]; }
      assert buf[..buflen + |more|] == rest + more;
      absorbed := absorbed + more;
      buflen := buflen + |more|;
      if buflen == 64 {
        assert buf[..64] == buf[..];
        h := core.block(h, buf[..]);
        buflen := 0;
        assert buf[..0] == [];
      }
    }

    /** Feeding data in any number of pieces absorbs their concatenation. */
    method Update(data: Bytes)
      requires Valid()
      modifies this, buf
      ensures Valid() && absorbed == old(absorbed) + data && len == old(len) + |data|
    {
      hide Absorbed, Fold;
      len := len + |data|;
      var p := 0;
      assert data[..0] == [];
      while p < |data|
        invariant p <= |data| && Valid() && len == old(len) + |data|
        invariant absorbed == old(absorbed) + data[..p]
      {
        var take := if 64 - buflen > |data| - p then |data| - p else 64 - buflen;
        assert data[..p + take] == data[..p] + data[p..p + take];
        Fill(data[p..p + take]);
        p := p + take;
      }
      assert data[..|data|] == data;
    }

    method Final() returns (out: Bytes)
      requires Valid() && len == |absorbed|
      modifies this, buf
      ensures out == Digest(core, old(absorbed))
    {
      hide Absorbed, Fold, Zeros, BigEndian, Padding, ZeroCount;
      ghost var msg := absorbed;
      var bits := len * 8;
      Update([STOP]);
      ghost var zeros: nat := 0;
      AbsorbedLength(core, absorbed, h, buf[..buflen]);
      while buflen != 56
        invariant Valid() && zeros <= ZeroCount(|msg|) && buflen == (|msg| + 1 + zeros) % 64
        invariant absorbed == msg + [STOP] + Zeros(zeros)
        decreases ZeroCount(|msg|) - zeros
      {
        ZeroCountLeast(|msg|, zeros);
        Update([0]);
        AbsorbedLength(core, absorbed, h, buf[..buflen]);
        ZerosSnoc(zeros);
        zeros := zeros + 1;
      }
      ZeroCountLeast(|msg|, zeros);
      var blen := BigEndian(bits);
      Update(blen);
      AbsorbedLength(core, absorbed, h, buf[..buflen]);
      PaddingParts(msg);
      assert absorbed == msg + Padding(|msg|);
      assert buf[..0] == [];
      AbsorbedAll(core, absorbed, h);
      out := core.output(h);
    }
  }

  lemma {:induction false} AbsorbedLength<H>(core: Core<H>, absorbed: Bytes, h: H, rest: Bytes)
    requires Absorbed(core, absorbed, h, rest)
    ensures |rest| == |absorbed| % 64
  {}

  lemma {:induction false} PaddingParts(msg: Bytes)
    ensures msg + Padding(|msg|) == msg + [STOP] + Zeros(ZeroCount(|msg|)) + BigEndian(|msg| * 8)
    ensures |msg + Padding(|msg|)| % 64 == 0
  {
    hide Zeros, BigEndian;
    PaddedLength(|msg|);
  }

  lemma {:induction false} ZerosSnoc(n: nat)
    ensures Zeros(n) + [0] == Zeros(n + 1)
  {}

  method Hash<H(!new)>(core: Core<H>, data: Bytes) returns (out: Bytes)
    ensures out == Digest(core, data)
  {
    hide Absorbed, Digest, Fold;
    var c := new Context(core);
    c.Update(data);
    assert [] + data == data;
    out := c.Final();
  }

  /** However a message is cut into pieces, the digest is that of the whole. */
  method HashParts<H(!new)>(core: Core<H>, parts: seq<Bytes>) returns (out: Bytes)
    ensures out == Digest(core, Joined(parts))
  {
    hide Absorbed, Digest, Fold;
    var c := new Context(core);
    for i := 0 to |parts|
      invariant c.Valid() && c.absorbed == Joined(parts[..i]) && c.len == |c.absorbed| && c.core == core
    {
      assert parts[..i + 1][..i] == parts[..i];
      c.Update(parts[i]);
    }
    assert parts[..|parts|] == parts;
    out := c.Final();
  }

  method HmacSha256<H(!new)>(core: Core<H>, key: Bytes, msg: Bytes) returns (out: Bytes)
    requires Outputs32(core)
    ensures out == Hmac(core, key, msg)
  {
    hide Digest;
    var k := key;
    if |key| > 64 { k := Hash(core, key); }
    if |k| < 64 { k := k + Zeros(64 - |k|); }
    var ipad, opad := Xor(k, 0x36), Xor(k, 0x5c);
    var inner := HashParts2(core, ipad, msg);
    out := HashParts2(core, opad, inner);
  }

  method HashParts2<H(!new)>(core: Core<H>, a: Bytes, b: Bytes) returns (out: Bytes)
    ensures out == Digest(core, a + b)
  {
    hide Absorbed, Digest, Fold;
    var c := new Context(core);
    c.Update(a);
    c.Update(b);
    assert [] + a + b == a + b;
    out := c.Final();
  }
}
