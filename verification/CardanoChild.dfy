/**
 * What a derived key is made of (cardano_derive.go): the exact HMAC inputs, and scalar, nonce,
 * chain code and public key of the child as numbers.
 */
module CardanoChild {
  import opened Bytes
  import opened CardanoKeys
  import opened CardanoScalar
  import opened Outcome

  /** The child is the parent moved by an HMAC output z, with the chain code from an HMAC output i. */
  ghost predicate MovedBy(c: Primitives, k: PrivateKey, child: PrivateKey, z: seq<byte>, i: seq<byte>)
    requires c.order > 0
  {
    && |z| == 64 && |i| == 64 && |child.scalar| == 32 && |child.nonce| == 32
    && FromLE(child.scalar) == (FromLE(k.scalar) + 8 * (FromLE(z[..32]) % TWO_224)) % TWO_256
    && FromLE(child.nonce) == (FromLE(k.nonce) + FromLE(z[32..])) % TWO_256
    && child.chain == Some(i[32..])
    && child.pub == c.encode(FromLE(child.scalar) % c.order)
  }

  /** A hardened child is made from both secret halves and never from the public key. */
  lemma HardenedChild(c: Primitives, k: PrivateKey, index: u32)
    requires c.order > 0 && SoundHashes(c) && k.chain.Some? && index >= 0x8000_0000
    ensures DeriveChild(c, k, index).Ok?
    ensures MovedBy(c, k, DeriveChild(c, k, index).value,
                    c.hmac(k.chain.value, [0x00] + k.scalar + k.nonce + LE(4, index)),
                    c.hmac(k.chain.value, [0x01] + k.scalar + k.nonce + LE(4, index)))
  {
    ChildMoved(c, k, index);
  }

  /** A soft child is made from the public key. */
  lemma SoftChild(c: Primitives, k: PrivateKey, index: u32)
    requires c.order > 0 && SoundHashes(c) && k.chain.Some? && index < 0x8000_0000
    ensures DeriveChild(c, k, index).Ok?
    ensures MovedBy(c, k, DeriveChild(c, k, index).value,
                    c.hmac(k.chain.value, [0x02] + k.pub + LE(4, index)),
                    c.hmac(k.chain.value, [0x03] + k.pub + LE(4, index)))
  {
    ChildMoved(c, k, index);
  }

  lemma ChildMoved(c: Primitives, k: PrivateKey, index: u32)
    requires c.order > 0 && SoundHashes(c) && k.chain.Some?
    ensures DeriveChild(c, k, index).Ok?
    ensures MovedBy(c, k, DeriveChild(c, k, index).value, ZOut(c, k, index), IOut(c, k, index))
  {
    var z := ZOut(c, k, index);
    Add28Value(k.scalar, z[..32]);
    Add256Value(k.nonce, z[32..64]);
    assert z[32..64] == z[32..] && IOut(c, k, index)[32..64] == IOut(c, k, index)[32..];
  }

  /** The same child from the public side: the point moves by the HMAC output, and the chain code follows. */
  lemma PublicChildIs(c: Primitives, xp: PublicKey, index: u32, a: nat)
    requires c.order > 0 && SoundHashes(c) && index < 0x8000_0000 && c.decode(xp.pub) == Some(a)
    ensures var z := c.hmac(xp.chain, [0x02] + xp.pub + LE(4, index));
            var i := c.hmac(xp.chain, [0x03] + xp.pub + LE(4, index));
            DerivePublicChild(c, xp, index)
            == Ok(PublicKey(c.encode((a + (8 * (FromLE(z[..32]) % TWO_224)) % c.order) % c.order), i[32..]))
  {
    var z := c.hmac(xp.chain, [0x02] + xp.pub + LE(4, index));
    var i := c.hmac(xp.chain, [0x03] + xp.pub + LE(4, index));
    AddedToZeros(z[..32]);
    PublicMoved(c, xp, index, a, z, i, Add28Mul8(Zeros(32), z[..32]));
  }

  lemma PublicMoved(c: Primitives, xp: PublicKey, index: u32, a: nat, z: seq<byte>, i: seq<byte>, tweak: seq<byte>)
    requires c.order > 0 && SoundHashes(c) && index < HARDENED && c.decode(xp.pub) == Some(a)
    requires z == c.hmac(xp.chain, SoftData(2, xp.pub, index)) && i == c.hmac(xp.chain, SoftData(3, xp.pub, index))
    requires tweak == Add28Mul8(Zeros(32), z[..32])
    ensures |i| == 64
    ensures DerivePublicChild(c, xp, index) == Ok(PublicKey(c.encode((a + FromLE(tweak) % c.order) % c.order), i[32..]))
  {
    PointBy(c, xp.pub, a, tweak);
    assert i[32..64] == i[32..];
  }

  lemma PointBy(c: Primitives, pub: seq<byte>, a: nat, tweak: seq<byte>)
    requires c.order > 0 && c.decode(pub) == Some(a)
    ensures PointAddBase(c, pub, tweak) == Ok(c.encode((a + FromLE(tweak) % c.order) % c.order))
  {
  }

  // ---------------------------------------------------------------------------------------
  // No two derivations share an HMAC input
  // ---------------------------------------------------------------------------------------

  /** The first HMAC input of a derivation; the second differs from it in the leading byte alone. */
  function Input(k: PrivateKey, index: u32): seq<byte> {
    if index >= HARDENED then HardData(0, k, index) else SoftData(2, k.pub, index)
  }

  lemma LEInjective(a: u32, b: u32)
    ensures LE(4, a) == LE(4, b) <==> a == b
  {
    Widths();
    FromLEOfLE(4, a);
    FromLEOfLE(4, b);
  }

  ghost predicate Halves(k: PrivateKey) {
    |k.scalar| == 32 && |k.nonce| == 32 && |k.pub| == 32
  }

  /** Scalar, nonce and index at their places behind the tag. */
  lemma HardenedLayout(k: PrivateKey, index: u32)
    requires Halves(k) && index >= HARDENED
    ensures var d := Input(k, index);
            |d| == 69 && d[0] == 0 && d[1..33] == k.scalar && d[33..65] == k.nonce && d[65..] == LE(4, index)
  {
  }

  lemma SoftLayout(k: PrivateKey, index: u32)
    requires Halves(k) && index < HARDENED
    ensures var d := Input(k, index);
            |d| == 37 && d[0] == 2 && d[1..33] == k.pub && d[33..] == LE(4, index)
  {
  }

  /** Hardened inputs are shared only by keys with the same scalar and nonce, at the same index. */
  lemma HardenedInputsApart(k: PrivateKey, i: u32, k': PrivateKey, j: u32)
    requires Halves(k) && Halves(k') && i >= HARDENED && j >= HARDENED
    ensures Input(k, i) == Input(k', j) <==> k.scalar == k'.scalar && k.nonce == k'.nonce && i == j
  {
    HardenedLayout(k, i);
    HardenedLayout(k', j);
    LEInjective(i, j);
  }

  lemma SoftInputsApart(k: PrivateKey, i: u32, k': PrivateKey, j: u32)
    requires Halves(k) && Halves(k') && i < HARDENED && j < HARDENED
    ensures Input(k, i) == Input(k', j) <==> k.pub == k'.pub && i == j
  {
    SoftLayout(k, i);
    SoftLayout(k', j);
    LEInjective(i, j);
  }

  /** A hardened input is never a soft one. */
  lemma KindsApart(k: PrivateKey, i: u32, k': PrivateKey, j: u32)
    requires Halves(k) && Halves(k') && i >= HARDENED && j < HARDENED
    ensures Input(k, i) != Input(k', j)
  {
    HardenedLayout(k, i);
    SoftLayout(k', j);
  }
}
