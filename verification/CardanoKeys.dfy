/**
 * BIP32-Ed25519 extended keys: derivation, watch-only derivation and signing
 * (cardano_derive.go, cardano_extkey.go). The prime-order group is modelled as the integers
 * modulo its order: a point is its discrete logarithm to the base point, seen from outside
 * only through its 32-byte encoding. Hashes are parameters. Keys are never changed once built.
 */
module CardanoKeys {
  import opened Arith
  import opened Bytes
  import opened CardanoScalar
  import opened Outcome

  const HARDENED: nat := 0x8000_0000

  datatype Primitives = Primitives(
    order: nat,
    encode: nat -> seq<byte>,
    decode: seq<byte> -> Option<nat>,
    hmac: (seq<byte>, seq<byte>) -> seq<byte>,
    sha512: seq<byte> -> seq<byte>,
    pbkdf2: (seq<byte>, seq<byte>) -> seq<byte>)

  /** Point encoding is 32 bytes and decodes; the order is odd, so it does not divide 2^256. */
  ghost predicate SoundGroup(c: Primitives) {
    && 1 < c.order < TWO_256 && TWO_256 % c.order != 0
    && forall k: nat :: k < c.order ==> |c.encode(k)| == 32 && c.decode(c.encode(k)) == Some(k)
  }

  ghost predicate SoundHashes(c: Primitives) {
    && (forall key: seq<byte>, msg: seq<byte> :: |c.hmac(key, msg)| == 64)
    && (forall password: seq<byte>, salt: seq<byte> :: |c.pbkdf2(password, salt)| == 96)
  }

  ghost predicate Sound(c: Primitives) {
    SoundGroup(c) && SoundHashes(c)
  }

  datatype KeyError = WrongLength | NoChainCode | HardenedFromPublic | NotAPoint | EmptyEntropy

  datatype PrivateKey = PrivateKey(scalar: seq<byte>, nonce: seq<byte>, pub: seq<byte>, chain: Option<seq<byte>>)

  datatype PublicKey = PublicKey(pub: seq<byte>, chain: seq<byte>)

  function ReduceScalar(c: Primitives, s: seq<byte>): (a: nat)
    requires c.order > 0
    ensures a < c.order
  {
    FromLE(s) % c.order
  }

  function ScalarBasePub(c: Primitives, s: seq<byte>): seq<byte>
    requires c.order > 0
  {
    c.encode(ReduceScalar(c, s))
  }

  /** A key as the constructors build it: field widths, and the cached public key is the scalar's. */
  predicate Consistent(c: Primitives, k: PrivateKey)
    requires c.order > 0
  {
    && |k.scalar| == 32 && |k.nonce| == 32 && (k.chain.Some? ==> |k.chain.value| == 32)
    && k.pub == ScalarBasePub(c, k.scalar)
  }

  // ---------------------------------------------------------------------------------------
  // The xprv form
  // ---------------------------------------------------------------------------------------

  function FromXprv(c: Primitives, xprv: seq<byte>): Result<PrivateKey, KeyError>
    requires c.order > 0
  {
    if |xprv| != 64 && |xprv| != 96 then Err(WrongLength)
    else
      Ok(PrivateKey(xprv[..32], xprv[32..64], ScalarBasePub(c, xprv[..32]),
                    if |xprv| == 96 then Some(xprv[64..96]) else None))
  }

  function ToXprv(k: PrivateKey): seq<byte> {
    k.scalar + k.nonce + if k.chain.Some? then k.chain.value else []
  }

  /** Every 64- or 96-byte xprv is kept, and every consistent key is what its xprv builds. */
  lemma XprvRoundTrip(c: Primitives, xprv: seq<byte>, k: PrivateKey)
    requires c.order > 0
    ensures FromXprv(c, xprv).Ok? <==> |xprv| == 64 || |xprv| == 96
    ensures FromXprv(c, xprv).Ok? ==> Consistent(c, FromXprv(c, xprv).value) && ToXprv(FromXprv(c, xprv).value) == xprv
    ensures Consistent(c, k) ==> FromXprv(c, ToXprv(k)) == Ok(k)
  {
    if |xprv| == 96 {
      assert xprv == xprv[..32] + xprv[32..64] + xprv[64..96];
    } else if |xprv| == 64 {
      assert xprv == xprv[..32] + xprv[32..64] + [];
    }
    if Consistent(c, k) {
      var x := ToXprv(k);
      assert x[..32] == k.scalar && x[32..64] == k.nonce;
      if k.chain.Some? {
        assert x[64..96] == k.chain.value;
      }
    }
  }

  // ---------------------------------------------------------------------------------------
  // One derivation step
  // ---------------------------------------------------------------------------------------

  function SoftData(tag: byte, pub: seq<byte>, index: u32): seq<byte> {
    [tag] + pub + LE(4, index)
  }

  function HardData(tag: byte, k: PrivateKey, index: u32): seq<byte> {
    [tag] + k.scalar + k.nonce + LE(4, index)
  }

  function ZOut(c: Primitives, k: PrivateKey, index: u32): seq<byte>
    requires k.chain.Some?
  {
    c.hmac(k.chain.value, if index >= HARDENED then HardData(0, k, index) else SoftData(2, k.pub, index))
  }

  function IOut(c: Primitives, k: PrivateKey, index: u32): seq<byte>
    requires k.chain.Some?
  {
    c.hmac(k.chain.value, if index >= HARDENED then HardData(1, k, index) else SoftData(3, k.pub, index))
  }

  function DeriveChild(c: Primitives, k: PrivateKey, index: u32): Result<PrivateKey, KeyError>
    requires c.order > 0 && SoundHashes(c)
  {
    if k.chain.None? then Err(NoChainCode)
    else
      var scalar := Add28Mul8(k.scalar, ZOut(c, k, index)[..32]);
      var nonce := Add256(k.nonce, ZOut(c, k, index)[32..64]);
      Ok(PrivateKey(scalar, nonce, ScalarBasePub(c, scalar), Some(IOut(c, k, index)[32..64])))
  }

  /** The extended public key; the source returns nil for a key without chain code. */
  function Neuter(k: PrivateKey): Option<PublicKey> {
    if k.chain.None? then None else Some(PublicKey(k.pub, k.chain.value))
  }

  function PointAddBase(c: Primitives, pub: seq<byte>, scalar: seq<byte>): Result<seq<byte>, KeyError>
    requires c.order > 0
  {
    match c.decode(pub)
    case None => Err(NotAPoint)
    case Some(a) => Ok(c.encode((a + ReduceScalar(c, scalar)) % c.order))
  }

  function WithChain(pub: Result<seq<byte>, KeyError>, chain: seq<byte>): Result<PublicKey, KeyError> {
    match pub
    case Err(e) => Err(e)
    case Ok(p) => Ok(PublicKey(p, chain))
  }

  function DerivePublicChild(c: Primitives, xp: PublicKey, index: u32): Result<PublicKey, KeyError>
    requires c.order > 0 && SoundHashes(c)
  {
    if index >= HARDENED then Err(HardenedFromPublic)
    else
      var z := c.hmac(xp.chain, SoftData(2, xp.pub, index));
      var i := c.hmac(xp.chain, SoftData(3, xp.pub, index));
      WithChain(PointAddBase(c, xp.pub, Add28Mul8(Zeros(32), z[..32])), i[32..64])
  }

  method DeriveChildStep(c: Primitives, k: PrivateKey, index: u32) returns (r: Result<PrivateKey, KeyError>)
    requires c.order > 0 && SoundHashes(c) && Consistent(c, k)
    ensures r == DeriveChild(c, k, index)
  {
    if k.chain.None? {
      return Err(NoChainCode);
    }
    var zdata, idata;
    if index >= HARDENED {
      zdata := [0] + k.scalar + k.nonce + LE(4, index);
      idata := [1] + k.scalar + k.nonce + LE(4, index);
    } else {
      zdata := [2] + k.pub + LE(4, index);
      idata := [3] + k.pub + LE(4, index);
    }
    var zout := c.hmac(k.chain.value, zdata);
    var iout := c.hmac(k.chain.value, idata);
    var scalar := Add28Mul8Bytes(k.scalar, zout[..32]);
    var nonce := Add256Bytes(k.nonce, zout[32..64]);
    return Ok(PrivateKey(scalar, nonce, ScalarBasePub(c, scalar), Some(iout[32..64])));
  }

  method DerivePublicChildStep(c: Primitives, xp: PublicKey, index: u32) returns (r: Result<PublicKey, KeyError>)
    requires c.order > 0 && SoundHashes(c)
    ensures r == DerivePublicChild(c, xp, index)
  {
    if index >= HARDENED {
      return Err(HardenedFromPublic);
    }
    var zout := c.hmac(xp.chain, [2] + xp.pub + LE(4, index));
    var iout := c.hmac(xp.chain, [3] + xp.pub + LE(4, index));
    var tweak := Add28Mul8Bytes(Zeros(32), zout[..32]);
    var pub := PointAddBase(c, xp.pub, tweak);
    match pub {
      case Err(e) => return Err(e);
      case Ok(p) => return Ok(PublicKey(p, iout[32..64]));
    }
  }

  // ---------------------------------------------------------------------------------------
  // Watch-only derivation commutes with private derivation
  // ---------------------------------------------------------------------------------------

  /** The tweak of a child: 8 times the low 28 bytes of the HMAC output. */
  function Tweak(c: Primitives, k: PrivateKey, index: u32): (t: nat)
    requires SoundHashes(c) && k.chain.Some?
    ensures t < 8 * TWO_224 && t % 8 == 0
  {
    8 * (FromLE(ZOut(c, k, index)[..32]) % TWO_224)
  }

  predicate NoWrap(c: Primitives, k: PrivateKey, index: u32)
    requires SoundHashes(c) && k.chain.Some?
  {
    FromLE(k.scalar) + Tweak(c, k, index) < TWO_256
  }

  lemma {:induction false} ZerosAreZero(n: nat)
    ensures FromLE(Zeros(n)) == 0
  {
    if n > 0 {
      assert Zeros(n)[1..] == Zeros(n - 1);
      ZerosAreZero(n - 1);
    }
  }

  lemma AddMod(a: nat, b: nat, m: nat)
    requires m > 0
    ensures (a % m + b % m) % m == (a + b) % m
  {
    var s := a % m + b % m;
    assert a == a / m * m + a % m && b == b / m * m + b % m && s == s / m * m + s % m;
    assert (a / m + b / m + s / m) * m == a / m * m + b / m * m + s / m * m;
    DivModUnique(a + b, m, a / m + b / m + s / m, s % m);
  }

  /** Subtracting w changes the residue exactly when m does not divide w. */
  lemma SameResidue(v: nat, w: nat, m: nat)
    requires m > 0
    ensures v % m == (v + w) % m <==> w % m == 0
  {
    AddMod(v, w, m);
    var a, b := v % m, w % m;
    if a + b < m {
      DivModUnique(a + b, m, 0, a + b);
    } else {
      DivModUnique(a + b, m, 1, a + b - m);
    }
  }

  /** The public key the private path computes, against the one the public path computes. */
  lemma ScalarsAgreeExactly(c: Primitives, s: nat, t: nat)
    requires SoundGroup(c) && s < TWO_256 && t < TWO_256
    ensures (s + t) % TWO_256 % c.order == (s % c.order + t % c.order) % c.order <==> s + t < TWO_256
  {
    AddMod(s, t, c.order);
    if s + t < TWO_256 {
      DivModUnique(s + t, TWO_256, 0, s + t);
    } else {
      DivModUnique(s + t, TWO_256, 1, s + t - TWO_256);
      SameResidue(s + t - TWO_256, TWO_256, c.order);
    }
  }

  lemma EncodeInjective(c: Primitives, a: nat, b: nat)
    requires SoundGroup(c) && a < c.order && b < c.order
    ensures c.encode(a) == c.encode(b) <==> a == b
  {
    assert c.decode(c.encode(a)) == Some(a) && c.decode(c.encode(b)) == Some(b);
  }

  lemma NoWrapFromZero(t: nat)
    requires t < TWO_256
    ensures (0 + t) % TWO_256 == t
  {
    DivModUnique(t, TWO_256, 0, t);
  }

  lemma AddedToZeros(y: seq<byte>)
    ensures FromLE(Add28Mul8(Zeros(32), y)) == 8 * (FromLE(y) % TWO_224)
  {
    Add28Value(Zeros(32), y);
    ZerosAreZero(32);
    NoWrapFromZero(8 * (FromLE(y) % TWO_224));
  }

  lemma TweakBytes(c: Primitives, k: PrivateKey, index: u32)
    requires SoundHashes(c) && k.chain.Some?
    ensures FromLE(Add28Mul8(Zeros(32), ZOut(c, k, index)[..32])) == Tweak(c, k, index)
    ensures FromLE(Add28Mul8(k.scalar, ZOut(c, k, index)[..32])) == (FromLE(k.scalar) + Tweak(c, k, index)) % TWO_256
  {
    Add28Value(k.scalar, ZOut(c, k, index)[..32]);
    AddedToZeros(ZOut(c, k, index)[..32]);
  }

  lemma PointAddValue(c: Primitives, s: nat, scalar: seq<byte>)
    requires SoundGroup(c) && s < c.order
    ensures PointAddBase(c, c.encode(s), scalar) == Ok(c.encode((s + FromLE(scalar) % c.order) % c.order))
  {
  }

  function PublicTweak(c: Primitives, k: PrivateKey, index: u32): seq<byte>
    requires SoundHashes(c) && k.chain.Some?
  {
    Add28Mul8(Zeros(32), ZOut(c, k, index)[..32])
  }

  lemma PublicPoint(c: Primitives, k: PrivateKey, index: u32)
    requires Sound(c) && Consistent(c, k) && k.chain.Some?
    ensures PointAddBase(c, k.pub, PublicTweak(c, k, index))
         == Ok(c.encode((FromLE(k.scalar) % c.order + Tweak(c, k, index) % c.order) % c.order))
  {
    TweakBytes(c, k, index);
    PointAddValue(c, FromLE(k.scalar) % c.order, PublicTweak(c, k, index));
  }

  /** The two HMACs of a soft child are the same on both sides. */
  lemma PublicChildValue(c: Primitives, k: PrivateKey, index: u32, pub: seq<byte>)
    requires c.order > 0 && SoundHashes(c) && k.chain.Some? && index < HARDENED
    requires PointAddBase(c, k.pub, PublicTweak(c, k, index)) == Ok(pub)
    ensures DerivePublicChild(c, PublicKey(k.pub, k.chain.value), index)
         == Ok(PublicKey(pub, IOut(c, k, index)[32..64]))
  {
  }

  lemma PrivateChildValue(c: Primitives, k: PrivateKey, index: u32)
    requires Sound(c) && Consistent(c, k) && k.chain.Some?
    ensures DeriveChild(c, k, index).Ok?
    ensures Neuter(DeriveChild(c, k, index).value)
         == Some(PublicKey(c.encode((FromLE(k.scalar) + Tweak(c, k, index)) % TWO_256 % c.order),
                           IOut(c, k, index)[32..64]))
  {
    TweakBytes(c, k, index);
  }

  /**
   * A soft child seen from the public side is the neutered private child exactly when the scalar
   * addition does not wrap.
   */
  lemma WatchOnlyChildExactly(c: Primitives, k: PrivateKey, index: u32)
    requires Sound(c) && Consistent(c, k) && k.chain.Some? && index < HARDENED
    ensures DeriveChild(c, k, index).Ok? && Neuter(DeriveChild(c, k, index).value).Some?
    ensures DerivePublicChild(c, Neuter(k).value, index) == Ok(Neuter(DeriveChild(c, k, index).value).value)
       <==> NoWrap(c, k, index)
  {
    var s, t := FromLE(k.scalar), Tweak(c, k, index);
    PublicPoint(c, k, index);
    PublicChildValue(c, k, index, c.encode((s % c.order + t % c.order) % c.order));
    PrivateChildValue(c, k, index);
    ScalarBound(k.scalar);
    ScalarsAgreeExactly(c, s, t);
    EncodeInjective(c, (s + t) % TWO_256 % c.order, (s % c.order + t % c.order) % c.order);
  }

  lemma ChildScalar(c: Primitives, k: PrivateKey, index: u32)
    requires c.order > 0 && SoundHashes(c) && k.chain.Some?
    ensures DeriveChild(c, k, index).Ok?
    ensures FromLE(DeriveChild(c, k, index).value.scalar) == (FromLE(k.scalar) + Tweak(c, k, index)) % TWO_256
  {
    TweakBytes(c, k, index);
  }

  lemma ChildIsConsistent(c: Primitives, k: PrivateKey, index: u32)
    requires Sound(c) && Consistent(c, k)
    ensures DeriveChild(c, k, index).Ok? <==> k.chain.Some?
    ensures k.chain.Some? ==>
              Consistent(c, DeriveChild(c, k, index).value) && DeriveChild(c, k, index).value.chain.Some?
  {
  }

  /** One derivation after another; the first error ends the path. */
  function Follow<K>(derive: (K, u32) -> Result<K, KeyError>, k: K, path: seq<u32>): Result<K, KeyError>
    decreases |path|
  {
    if path == [] then Ok(k)
    else
      match derive(k, path[0])
      case Err(e) => Err(e)
      case Ok(child) => Follow(derive, child, path[1..])
  }

  function Deriver(c: Primitives): (PrivateKey, u32) -> Result<PrivateKey, KeyError>
    requires c.order > 0 && SoundHashes(c)
  {
    (k: PrivateKey, index: u32) => DeriveChild(c, k, index)
  }

  function PublicDeriver(c: Primitives): (PublicKey, u32) -> Result<PublicKey, KeyError>
    requires c.order > 0 && SoundHashes(c)
  {
    (xp: PublicKey, index: u32) => DerivePublicChild(c, xp, index)
  }

  function DerivePath(c: Primitives, k: PrivateKey, path: seq<u32>): Result<PrivateKey, KeyError>
    requires c.order > 0 && SoundHashes(c)
  {
    Follow(Deriver(c), k, path)
  }

  function DerivePublicPath(c: Primitives, xp: PublicKey, path: seq<u32>): Result<PublicKey, KeyError>
    requires c.order > 0 && SoundHashes(c)
  {
    Follow(PublicDeriver(c), xp, path)
  }

  lemma {:induction false} FollowTwo<K>(derive: (K, u32) -> Result<K, KeyError>, k: K, p: seq<u32>, q: seq<u32>)
    requires Follow(derive, k, p).Ok?
    ensures Follow(derive, k, p + q) == Follow(derive, Follow(derive, k, p).value, q)
    decreases |p|
  {
    if p == [] {
      assert p + q == q;
    } else {
      assert (p + q)[0] == p[0] && (p + q)[1..] == p[1..] + q;
      FollowTwo(derive, derive(k, p[0]).value, p[1..], q);
    }
  }

  method DerivePathLoop(c: Primitives, k: PrivateKey, path: seq<u32>) returns (r: Result<PrivateKey, KeyError>)
    requires Sound(c) && Consistent(c, k)
    ensures r == DerivePath(c, k, path)
  {
    var cur := k;
    for i := 0 to |path|
      invariant Consistent(c, cur)
      invariant DerivePath(c, k, path) == DerivePath(c, cur, path[i..])
    {
      assert path[i..][0] == path[i] && path[i..][1..] == path[i + 1..];
      ChildIsConsistent(c, cur, path[i]);
      var next := DeriveChildStep(c, cur, path[i]);
      if next.Err? {
        return next;
      }
      cur := next.value;
    }
    return Ok(cur);
  }

  method DerivePublicPathLoop(c: Primitives, xp: PublicKey, path: seq<u32>) returns (r: Result<PublicKey, KeyError>)
    requires c.order > 0 && SoundHashes(c)
    ensures r == DerivePublicPath(c, xp, path)
  {
    var cur := xp;
    for i := 0 to |path|
      invariant DerivePublicPath(c, xp, path) == DerivePublicPath(c, cur, path[i..])
    {
      assert path[i..][0] == path[i] && path[i..][1..] == path[i + 1..];
      var next := DerivePublicChildStep(c, cur, path[i]);
      if next.Err? {
        return next;
      }
      cur := next.value;
    }
    return Ok(cur);
  }

  predicate Soft(path: seq<u32>) {
    forall i :: 0 <= i < |path| ==> path[i] < HARDENED
  }

  /** No scalar addition along the path wraps 2^256. */
  predicate NoWrapPath(c: Primitives, k: PrivateKey, path: seq<u32>)
    requires c.order > 0 && SoundHashes(c) && k.chain.Some?
    decreases |path|
  {
    path == [] || (NoWrap(c, k, path[0]) && NoWrapPath(c, DeriveChild(c, k, path[0]).value, path[1..]))
  }

  /** Deriving then neutering equals neutering then deriving, for every soft path that does not wrap. */
  lemma {:induction false} WatchOnlyPath(c: Primitives, k: PrivateKey, path: seq<u32>)
    requires Sound(c) && Consistent(c, k) && k.chain.Some? && Soft(path) && NoWrapPath(c, k, path)
    ensures DerivePath(c, k, path).Ok? && DerivePath(c, k, path).value.chain.Some?
    ensures DerivePublicPath(c, Neuter(k).value, path) == Ok(Neuter(DerivePath(c, k, path).value).value)
    decreases |path|
  {
    if path != [] {
      WatchOnlyChildExactly(c, k, path[0]);
      ChildIsConsistent(c, k, path[0]);
      WatchOnlyPath(c, DeriveChild(c, k, path[0]).value, path[1..]);
    }
  }

  /** One hardened index anywhere stops watch-only derivation, whatever came before it. */
  lemma {:induction false} HardenedNeedsPrivate(c: Primitives, xp: PublicKey, path: seq<u32>)
    requires c.order > 0 && SoundHashes(c) && !Soft(path)
    ensures DerivePublicPath(c, xp, path).Err?
    decreases |path|
  {
    if path[0] < HARDENED {
      match DerivePublicChild(c, xp, path[0])
      case Err(_) =>
      case Ok(child) =>
        assert forall i :: 0 <= i < |path| - 1 ==> path[1..][i] == path[i + 1];
        HardenedNeedsPrivate(c, child, path[1..]);
    }
  }
}
