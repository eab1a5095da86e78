/** Ed25519 signing with an extended key, without clamping the scalar (cardano_extkey.go). */
module CardanoSign {
  import opened Arith
  import opened Bytes
  import opened CardanoKeys
  import opened Outcome

  function HashScalar(c: Primitives, msg: seq<byte>): (h: nat)
    requires c.order > 0
    ensures h < c.order
  {
    FromLE(c.sha512(msg)) % c.order
  }

  /**
   * Verification as section 5.1.7 of RFC 8032 states it, in the prime-order group: the public key
   * and R decode, S is canonical, and S*B = R + h*A, where h is SHA-512 of R, A and the message, in
   * this order, as a little-endian number.
   */
  predicate Verifies(c: Primitives, pub: seq<byte>, msg: seq<byte>, sig: seq<byte>)
    requires c.order > 0
  {
    && |pub| == 32 && |sig| == 64
    && c.decode(pub).Some? && c.decode(sig[..32]).Some? && FromLE(sig[32..]) < c.order
    && var h := FromLE(c.sha512(sig[..32] + pub + msg)) % c.order;
       FromLE(sig[32..]) % c.order == (c.decode(sig[..32]).value + h * c.decode(pub).value) % c.order
  }

  /** S = h*a + r mod the order, so whatever the scalar, the signature verifies under the cached key. */
  method SignCardano(c: Primitives, k: PrivateKey, msg: seq<byte>) returns (sig: seq<byte>)
    requires SoundGroup(c) && Consistent(c, k)
    ensures Verifies(c, k.pub, msg, sig)
    ensures sig[..32] == c.encode(FromLE(c.sha512(k.nonce + msg)) % c.order)
  {
    var a := ReduceScalar(c, k.scalar);
    var r := HashScalar(c, k.nonce + msg);
    var R := c.encode(r);
    var hram := HashScalar(c, R + k.pub + msg);
    var s := (hram * a + r) % c.order;
    sig := R + LE(32, s);
    assert sig[..32] == R && sig[32..] == LE(32, s);
    ScalarRoundTrip(s);
    DivModUnique(s, c.order, 0, s);
    assert c.decode(k.pub) == Some(a) && c.decode(R) == Some(r);
  }

  lemma ScalarRoundTrip(s: nat)
    requires s < TWO_256
    ensures FromLE(LE(32, s)) == s
  {
    WidthOf(32);
    FromLEOfLE(32, s);
  }

  /** For a fixed nonce point and message no other canonical S verifies. */
  lemma ScalarIsUnique(c: Primitives, pub: seq<byte>, msg: seq<byte>, sig: seq<byte>, other: seq<byte>)
    requires SoundGroup(c) && Verifies(c, pub, msg, sig) && Verifies(c, pub, msg, other)
    requires sig[..32] == other[..32]
    ensures sig == other
  {
    DivModUnique(FromLE(sig[32..]), c.order, 0, FromLE(sig[32..]));
    DivModUnique(FromLE(other[32..]), c.order, 0, FromLE(other[32..]));
    LEOfFromLE(sig[32..]);
    LEOfFromLE(other[32..]);
    assert sig == sig[..32] + sig[32..] && other == other[..32] + other[32..];
  }

  /** The assumptions on the primitives can be met: a toy group with a fixed hash meets them all. */
  lemma PrimitivesExist()
    ensures exists c: Primitives :: Sound(c)
  {
    var order := 3;
    var c := Primitives(order, k => LE(32, k), s => if FromLE(s) < order then Some(FromLE(s)) else None,
                        (key, msg) => Zeros(64), msg => Zeros(64), (password, salt) => Zeros(96));
    forall k: nat | k < c.order
      ensures |c.encode(k)| == 32 && c.decode(c.encode(k)) == Some(k)
    {
      ScalarRoundTrip(k);
    }
    assert Sound(c);
  }
}
