/**
 * BIP-341 key tweaking and BIP-340 signing (p2tr.go, btctx_p2tr.go). A curve point is its
 * discrete logarithm modulo the group order; its affine x coordinate and the parity of y are
 * functions of that number. Scalars are reduced where the code reduces them.
 */
module Schnorr {
  import opened Arith
  import opened Bytes
  import opened Outcome

  datatype Tag = TapTweak | Aux | Nonce | Challenge

  datatype Curve = Curve(
    n: nat,
    x: nat -> seq<byte>,
    odd: nat -> bool,
    lift: seq<byte> -> Option<nat>,
    hash: (Tag, seq<byte>) -> seq<byte>)

  /** A point and its negative share x and differ in the parity of y; lifting picks the even one. */
  ghost predicate Opposite(c: Curve, k: nat)
    requires 0 < k < c.n
  {
    && |c.x(k)| == 32 && c.x(c.n - k) == c.x(k) && c.odd(c.n - k) == !c.odd(k)
    && c.lift(c.x(k)) == Some(if c.odd(k) then c.n - k else k)
  }

  /** The facts about secp256k1 used here. Infinity is written as x = 0, which lies on no curve point. */
  ghost predicate Sound(c: Curve) {
    && 2 < c.n < TWO_256
    && (forall k: nat :: 0 < k < c.n ==> Opposite(c, k))
    && |c.x(0)| == 32 && c.lift(c.x(0)) == None
    && (forall s: seq<byte>, k: nat :: c.lift(s) == Some(k) ==> |s| == 32 && 0 < k < c.n && !c.odd(k) && c.x(k) == s)
    && (forall tag: Tag, data: seq<byte> :: |c.hash(tag, data)| == 32)
  }

  datatype SignError =
    | MessageLength | AuxLength | ZeroKey | ZeroNonce
    | NotOnCurve | TweakTooLarge

  function Negate(c: Curve, k: nat): (r: nat)
    requires k < c.n
    ensures r < c.n && (r + k) % c.n == 0
  {
    if k == 0 then 0 else (DivModUnique(c.n, c.n, 1, 0); c.n - k)
  }

  function NegateIf(c: Curve, flag: bool, k: nat): (r: nat)
    requires k < c.n
    ensures r < c.n
  {
    if flag then Negate(c, k) else k
  }

  function Xor(a: byte, b: byte): byte {
    ((a as bv8) ^ (b as bv8)) as int
  }

  function Masked(a: seq<byte>, b: seq<byte>): (t: seq<byte>)
    requires |a| == |b|
    ensures |t| == |a|
  {
    seq(|a|, i requires 0 <= i < |a| => Xor(a[i], b[i]))
  }

  // ---------------------------------------------------------------------------------------
  // BIP-340 signing
  // ---------------------------------------------------------------------------------------

  /** The deterministic nonce before its parity is fixed. */
  function NonceOf(c: Curve, d: nat, px: seq<byte>, msg: seq<byte>, aux: seq<byte>): (k: nat)
    requires Sound(c) && d < c.n
    ensures k < c.n
  {
    BE(c.hash(Nonce, Masked(ToBE(32, d), c.hash(Aux, aux)) + px + msg)) % c.n
  }

  function ChallengeOf(c: Curve, rx: seq<byte>, px: seq<byte>, msg: seq<byte>): (e: nat)
    requires c.n > 0
    ensures e < c.n
  {
    BE(c.hash(Challenge, rx + px + msg)) % c.n
  }

  function Response(c: Curve, k: nat, e: nat, d: nat): (s: nat)
    requires c.n > 0
    ensures s < c.n
  {
    (k + e * d) % c.n
  }

  /** R = k*G, e = H(R || P || m) and s = k + e*d, where k and d are fixed up for odd R and P. */
  function SignWith(c: Curve, key: nat, k: nat, msg: seq<byte>): seq<byte>
    requires key < c.n && k < c.n
  {
    var d := NegateIf(c, c.odd(key), key);
    var e := ChallengeOf(c, c.x(k), c.x(key), msg);
    c.x(k) + ToBE(32, Response(c, NegateIf(c, c.odd(k), k), e, d))
  }

  function Sign(c: Curve, key: nat, msg: seq<byte>, aux: seq<byte>): Result<seq<byte>, SignError>
    requires Sound(c) && key < c.n
  {
    if |msg| != 32 then Err(MessageLength)
    else if |aux| != 32 then Err(AuxLength)
    else if key == 0 then Err(ZeroKey)
    else
      var d := NegateIf(c, c.odd(key), key);
      var k := NonceOf(c, d, c.x(key), msg, aux);
      if k == 0 then Err(ZeroNonce) else Ok(SignWith(c, key, k, msg))
  }

  /** s*G - e*P, the point the verifier recomputes. */
  function Recomputed(c: Curve, p: nat, e: nat, s: nat): (r: nat)
    requires c.n > 0
    ensures r < c.n
  {
    (s - e * p) % c.n
  }

  predicate Accepted(c: Curve, rx: seq<byte>, r: nat) {
    r != 0 && !c.odd(r) && c.x(r) == rx
  }

  /**
   * The verification algorithm of BIP-340, written out: with P the even point of the key, r and s
   * the halves of the signature and e the hash of r, key and message, in this order, s*G - e*P is
   * an even point other than infinity whose x coordinate is r.
   */
  predicate Verifies(c: Curve, pk: seq<byte>, msg: seq<byte>, sig: seq<byte>)
    requires c.n > 0
  {
    && |pk| == 32 && |msg| == 32 && |sig| == 64 && c.lift(pk).Some? && BE(sig[32..]) < c.n
    && var e := BE(c.hash(Challenge, sig[..32] + pk + msg)) % c.n;
       var r := (BE(sig[32..]) - e * c.lift(pk).value) % c.n;
       r != 0 && !c.odd(r) && c.x(r) == sig[..32]
  }

  lemma RecomputedNonce(c: Curve, k: nat, e: nat, d: nat)
    requires k < c.n
    ensures Recomputed(c, d, e, Response(c, k, e, d)) == k
  {
    var v := k + e * d;
    assert v == v / c.n * c.n + v % c.n;
    assert v % c.n - e * d == (-(v / c.n)) * c.n + k;
    DivModUnique(v % c.n - e * d, c.n, -(v / c.n), k);
  }

  /** Fixing the parity gives the even point with the same x. */
  lemma EvenForm(c: Curve, k: nat)
    requires Sound(c) && 0 < k < c.n
    ensures 0 < NegateIf(c, c.odd(k), k) && !c.odd(NegateIf(c, c.odd(k), k))
    ensures |c.x(k)| == 32 && c.x(NegateIf(c, c.odd(k), k)) == c.x(k)
    ensures c.lift(c.x(k)) == Some(NegateIf(c, c.odd(k), k))
  {
    assert Opposite(c, k);
  }

  lemma HalvesOf(c: Curve, rx: seq<byte>, s: nat)
    requires |rx| == 32 && s < c.n < TWO_256
    ensures (rx + ToBE(32, s))[..32] == rx && BE((rx + ToBE(32, s))[32..]) == s
  {
    assert (rx + ToBE(32, s))[32..] == ToBE(32, s);
    WidthOf(32);
    BEOfToBE(32, s);
  }

  lemma AcceptsHalves(c: Curve, pk: seq<byte>, msg: seq<byte>, sig: seq<byte>, rx: seq<byte>, s: nat, p: nat, r: nat)
    requires c.n > 0 && |pk| == 32 && |msg| == 32 && |sig| == 64 && c.lift(pk) == Some(p)
    requires sig[..32] == rx && BE(sig[32..]) == s && s < c.n
    requires Recomputed(c, p, ChallengeOf(c, rx, pk, msg), s) == r && Accepted(c, rx, r)
    ensures Verifies(c, pk, msg, sig)
  {
  }

  /** Whatever the parities of P and R, and whatever the nonce, the signature verifies under the x-only key. */
  lemma AnyNonceVerifies(c: Curve, key: nat, k: nat, msg: seq<byte>)
    requires Sound(c) && 0 < key < c.n && 0 < k < c.n && |msg| == 32
    ensures Verifies(c, c.x(key), msg, SignWith(c, key, k, msg))
  {
    var d, k' := NegateIf(c, c.odd(key), key), NegateIf(c, c.odd(k), k);
    var e := ChallengeOf(c, c.x(k), c.x(key), msg);
    var s := Response(c, k', e, d);
    EvenForm(c, key);
    EvenForm(c, k);
    RecomputedNonce(c, k', e, d);
    HalvesOf(c, c.x(k), s);
    AcceptsHalves(c, c.x(key), msg, SignWith(c, key, k, msg), c.x(k), s, d, k');
  }

  lemma SignVerifies(c: Curve, key: nat, msg: seq<byte>, aux: seq<byte>)
    requires Sound(c) && key < c.n && Sign(c, key, msg, aux).Ok?
    ensures Verifies(c, c.x(key), msg, Sign(c, key, msg, aux).value)
  {
    AnyNonceVerifies(c, key, NonceOf(c, NegateIf(c, c.odd(key), key), c.x(key), msg, aux), msg);
  }

  /**
   * The first half of a signature is the x coordinate of the nonce point, and the nonce is the hash
   * of the masked even secret, the public key and the message, in this order; the mask is the hash
   * of the auxiliary bytes, laid over the secret byte by byte.
   */
  lemma NonceIsHashed(c: Curve, key: nat, msg: seq<byte>, aux: seq<byte>, mask: seq<byte>)
    requires Sound(c) && 0 < key < c.n && Sign(c, key, msg, aux).Ok?
    requires IsXor(mask, ToBE(32, if c.odd(key) then c.n - key else key), c.hash(Aux, aux))
    ensures Sign(c, key, msg, aux).value[..32] == c.x(BE(c.hash(Nonce, mask + c.x(key) + msg)) % c.n)
  {
    var d := NegateIf(c, c.odd(key), key);
    assert d == if c.odd(key) then c.n - key else key;
    MaskedIs(ToBE(32, d), c.hash(Aux, aux), mask);
    NonceLeads(c, key, NonceOf(c, d, c.x(key), msg, aux), msg);
  }

  predicate IsXor(m: seq<byte>, a: seq<byte>, b: seq<byte>) {
    |m| == |a| == |b| && forall i :: 0 <= i < |m| ==> m[i] == ((a[i] as bv8) ^ (b[i] as bv8)) as int
  }

  lemma MaskedIs(a: seq<byte>, b: seq<byte>, mask: seq<byte>)
    requires IsXor(mask, a, b)
    ensures |a| == |b| && mask == Masked(a, b)
  {
  }

  lemma NonceLeads(c: Curve, key: nat, k: nat, msg: seq<byte>)
    requires Sound(c) && key < c.n && 0 < k < c.n
    ensures SignWith(c, key, k, msg)[..32] == c.x(k)
  {
    EvenForm(c, k);
  }

  // ---------------------------------------------------------------------------------------
  // The BIP-341 tweak
  // ---------------------------------------------------------------------------------------

  function TweakOf(c: Curve, xOnly: seq<byte>): nat {
    BE(c.hash(TapTweak, xOnly))
  }

  datatype Tweaked = Tweaked(point: nat, xOnly: seq<byte>, parity: bool, tweak: seq<byte>)

  /** The output key Q = lift(x) + t*G: its x, its parity, and the tweak bytes. */
  function TweakPubKey(c: Curve, xOnly: seq<byte>): Result<Tweaked, SignError>
    requires c.n > 0
  {
    match c.lift(xOnly)
    case None => Err(NotOnCurve)
    case Some(p) =>
      var t := TweakOf(c, xOnly);
      if t >= c.n then Err(TweakTooLarge)
      else
        var q := (p + t) % c.n;
        Ok(Tweaked(q, c.x(q), c.odd(q), c.hash(TapTweak, xOnly)))
  }

  /** The output key, written out: the even point of the x coordinate plus the hash of that coordinate. */
  lemma OutputKeyIs(c: Curve, key: nat)
    requires Sound(c) && 0 < key < c.n && TweakPubKey(c, c.x(key)).Ok?
    ensures var q := TweakPubKey(c, c.x(key)).value;
            && q.point == ((if c.odd(key) then c.n - key else key) + BE(c.hash(TapTweak, c.x(key)))) % c.n
            && q.xOnly == c.x(q.point) && q.parity == c.odd(q.point) && q.tweak == c.hash(TapTweak, c.x(key))
            && BE(c.hash(TapTweak, c.x(key))) < c.n
  {
    EvenForm(c, key);
  }

  /** The tweaked scalar: d or n-d by the parity of P, plus t, negated when Q is odd. */
  function TweakedScalar(c: Curve, key: nat, t: nat, parity: bool): (d: nat)
    requires key < c.n
    ensures d < c.n
  {
    NegateIf(c, parity, (NegateIf(c, c.odd(key), key) + t) % c.n)
  }

  function KeySpend(c: Curve, key: nat, sighash: seq<byte>): Result<seq<byte>, SignError>
    requires Sound(c) && key < c.n
  {
    match TweakPubKey(c, c.x(key))
    case Err(e) => Err(e)
    case Ok(q) => Sign(c, TweakedScalar(c, key, BE(q.tweak), q.parity), sighash, Zeros(32))
  }

  /** The tweaked scalar is the discrete logarithm of Q or of -Q: same x either way. */
  lemma TweakedScalarHasOutputKey(c: Curve, key: nat)
    requires Sound(c) && key < c.n && TweakPubKey(c, c.x(key)).Ok?
    ensures key != 0
    ensures var q := TweakPubKey(c, c.x(key)).value;
            var d := TweakedScalar(c, key, BE(q.tweak), q.parity);
            (d == 0 <==> q.point == 0) && c.x(d) == q.xOnly && q.point < c.n
  {
    if key != 0 {
      EvenForm(c, key);
      var q := TweakPubKey(c, c.x(key)).value;
      if q.point != 0 {
        EvenForm(c, q.point);
      }
    }
  }

  /**
   * A key-path signature made from any internal key verifies under the tweaked x-only key that
   * the public half of the computation gives, across all parities of P, Q and R.
   */
  lemma KeySpendVerifies(c: Curve, key: nat, sighash: seq<byte>)
    requires Sound(c) && key < c.n && KeySpend(c, key, sighash).Ok?
    ensures TweakPubKey(c, c.x(key)).Ok?
    ensures Verifies(c, TweakPubKey(c, c.x(key)).value.xOnly, sighash, KeySpend(c, key, sighash).value)
  {
    TweakedScalarHasOutputKey(c, key);
    var q := TweakPubKey(c, c.x(key)).value;
    SignVerifies(c, TweakedScalar(c, key, BE(q.tweak), q.parity), sighash, Zeros(32));
  }

  lemma TweakFails(c: Curve, key: nat)
    requires Sound(c) && key < c.n
    ensures TweakPubKey(c, c.x(key)) == Err(NotOnCurve) <==> key == 0
    ensures TweakPubKey(c, c.x(key)) == Err(TweakTooLarge) <==> key != 0 && TweakOf(c, c.x(key)) >= c.n
    ensures TweakPubKey(c, c.x(key)).Ok? <==> key != 0 && TweakOf(c, c.x(key)) < c.n
  {
    if key != 0 {
      EvenForm(c, key);
    }
  }

  /** The nonce a key derives for a digest without auxiliary randomness. */
  function NonceFor(c: Curve, key: nat, msg: seq<byte>): nat
    requires Sound(c) && key < c.n
  {
    NonceOf(c, NegateIf(c, c.odd(key), key), c.x(key), msg, Zeros(32))
  }

  /** The secret the signature is made with. */
  function SpendKey(c: Curve, key: nat): (d: nat)
    requires Sound(c) && key < c.n && TweakPubKey(c, c.x(key)).Ok?
    ensures d < c.n
  {
    var q := TweakPubKey(c, c.x(key)).value;
    TweakedScalar(c, key, BE(q.tweak), q.parity)
  }

  lemma SignFails(c: Curve, key: nat, msg: seq<byte>)
    requires Sound(c) && key < c.n && |msg| == 32
    ensures Sign(c, key, msg, Zeros(32)) == Err(ZeroKey) <==> key == 0
    ensures Sign(c, key, msg, Zeros(32)) == Err(ZeroNonce) <==> key != 0 && NonceFor(c, key, msg) == 0
    ensures Sign(c, key, msg, Zeros(32)).Err? ==> Sign(c, key, msg, Zeros(32)).error in {ZeroKey, ZeroNonce}
  {
  }

  /** On a 32-byte digest there are four ways to fail, each with its own error and exact cause. */
  lemma KeySpendFails(c: Curve, key: nat, sighash: seq<byte>)
    requires Sound(c) && key < c.n && |sighash| == 32
    ensures KeySpend(c, key, sighash) == Err(NotOnCurve) <==> key == 0
    ensures KeySpend(c, key, sighash) == Err(TweakTooLarge) <==> key != 0 && TweakOf(c, c.x(key)) >= c.n
    ensures KeySpend(c, key, sighash) == Err(ZeroKey)
       <==> TweakPubKey(c, c.x(key)).Ok? && TweakPubKey(c, c.x(key)).value.point == 0
    ensures KeySpend(c, key, sighash) == Err(ZeroNonce)
       <==> TweakPubKey(c, c.x(key)).Ok? && TweakPubKey(c, c.x(key)).value.point != 0
            && NonceFor(c, SpendKey(c, key), sighash) == 0
    ensures KeySpend(c, key, sighash).Err? ==>
              KeySpend(c, key, sighash).error in {NotOnCurve, TweakTooLarge, ZeroKey, ZeroNonce}
  {
    TweakFails(c, key);
    if TweakPubKey(c, c.x(key)).Ok? {
      TweakedScalarHasOutputKey(c, key);
      SignFails(c, SpendKey(c, key), sighash);
    }
  }

  // ---------------------------------------------------------------------------------------
  // The same, step by step
  // ---------------------------------------------------------------------------------------

  method XorLoop(a: seq<byte>, b: seq<byte>) returns (t: seq<byte>)
    requires |a| == 32 && |b| == 32
    ensures t == Masked(a, b)
  {
    var out := new byte[32];
    for i := 0 to 32
      invariant forall j :: 0 <= j < i ==> out[j] == Xor(a[j], b[j])
    {
      out[i] := Xor(a[i], b[i]);
    }
    t := out[..];
  }

  method Bip340Sign(c: Curve, priv: nat, msg: seq<byte>, aux: seq<byte>) returns (r: Result<seq<byte>, SignError>)
    requires Sound(c) && priv < c.n
    ensures r == Sign(c, priv, msg, aux)
    ensures r.Ok? ==> Verifies(c, c.x(priv), msg, r.value)
  {
    if |msg| != 32 {
      return Err(MessageLength);
    }
    if |aux| != 32 {
      return Err(AuxLength);
    }
    if priv == 0 {
      return Err(ZeroKey);
    }
    EvenForm(c, priv);
    var d := priv;
    if c.odd(priv) {
      d := Negate(c, d);
    }
    var px := c.x(priv);
    var t := XorLoop(ToBE(32, d), c.hash(Aux, aux));
    var k := BE(c.hash(Nonce, t + px + msg)) % c.n;
    assert k == NonceOf(c, d, px, msg, aux);
    if k == 0 {
      return Err(ZeroNonce);
    }
    var rx := c.x(k);
    if c.odd(k) {
      k := Negate(c, k);
    }
    var e := ChallengeOf(c, rx, px, msg);
    r := Ok(rx + ToBE(32, Response(c, k, e, d)));
    SignVerifies(c, priv, msg, aux);
  }

  /** The private half of the tweak, in place on one scalar. */
  method TweakScalar(c: Curve, key: nat, t: nat, parity: bool) returns (d: nat)
    requires key < c.n
    ensures d == TweakedScalar(c, key, t, parity)
  {
    d := key;
    if c.odd(key) {
      d := Negate(c, d);
    }
    d := (d + t) % c.n;
    if parity {
      d := Negate(c, d);
    }
  }

  method KeySpendSign(c: Curve, key: nat, sighash: seq<byte>) returns (r: Result<seq<byte>, SignError>)
    requires Sound(c) && key < c.n
    ensures r == KeySpend(c, key, sighash)
    ensures r.Ok? ==>
              && TweakPubKey(c, c.x(key)).Ok?
              && Verifies(c, TweakPubKey(c, c.x(key)).value.xOnly, sighash, r.value)
  {
    var pub := c.x(key);
    match TweakPubKey(c, pub) {
      case Err(e) => return Err(e);
      case Ok(q) =>
        var d := TweakScalar(c, key, BE(q.tweak), q.parity);
        r := Bip340Sign(c, d, sighash, Zeros(32));
        if r.Ok? {
          KeySpendVerifies(c, key, sighash);
        }
    }
  }

  /** The assumptions about the curve can be met. */
  lemma CurveExists()
    ensures exists c: Curve :: Sound(c)
  {
    var one: seq<byte> := seq(32, _ => 1);
    var c := Curve(3, k => if k == 0 then Zeros(32) else one, k => k == 2,
                   s => if s == one then Some(1) else None, (tag, data) => Zeros(32));
    assert one[0] != Zeros(32)[0];
    forall k: nat | 0 < k < c.n
      ensures Opposite(c, k)
    {
    }
    assert Sound(c);
  }
}
