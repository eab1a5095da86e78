/**
 * The Icarus master key and what its clamp buys (cardano_derive.go): every descendant down to
 * depth 2^26 keeps a scalar that is a multiple of 8 between 2^254 and 2^255, so watch-only
 * derivation is exact anywhere in the tree.
 */
module CardanoIcarus {
  import opened Arith
  import opened Bytes
  import opened CardanoKeys
  import opened CardanoScalar
  import opened Outcome

  const TWO_248: nat := 0x1000000_00000000_00000000_00000000_00000000_00000000_00000000_00000000
  const TWO_254: nat := 0x40000000_00000000_00000000_00000000_00000000_00000000_00000000_00000000
  const MAX_DEPTH: nat := 0x400_0000

  /** Clear the low three bits and the two highest bits and bit 253 of the scalar, set bit 254. */
  function Clamp(xprv: seq<byte>): (r: seq<byte>)
    requires |xprv| == 96
    ensures |r| == 96
  {
    xprv[0 := xprv[0] as nat / 8 * 8][31 := xprv[31] as nat % 32 + 64]
  }

  function MasterKey(c: Primitives, entropy: seq<byte>, password: seq<byte>): Result<PrivateKey, KeyError>
    requires c.order > 0 && SoundHashes(c)
  {
    if entropy == [] then Err(EmptyEntropy) else FromXprv(c, Clamp(c.pbkdf2(password, entropy)))
  }

  /** The scalars an Icarus key can have after a number of derivations: each adds less than 2^227. */
  predicate InRange(scalar: nat, depth: nat) {
    && scalar % 8 == 0
    && TWO_254 <= scalar < TWO_254 + TWO_254 / 2
                         + depth * 0x8_00000000_00000000_00000000_00000000_00000000_00000000_00000000
  }

  lemma ClampedRange(s: seq<byte>)
    requires |s| == 32 && s[0] % 8 == 0 && 64 <= s[31] < 96
    ensures InRange(FromLE(s), 0)
  {
    var low := FromLE(s[..31]);
    FromLESplit(s, 31);
    assert s[31..] == [s[31]];
    assert FromLE([s[31]]) == s[31];
    FromLEBound(s[..31]);
    PowerOf31();
    assert FromLE(s) == low + TWO_248 * s[31];
    assert FromLE(s) == s[0] + 256 * FromLE(s[1..]);
  }

  lemma PowerOf31()
    ensures Pow(256, 31) == TWO_248
  {
    WidthOf(28);
    Widths();
    PowAdd(256, 28, 2);
    PowAdd(256, 30, 1);
  }

  lemma MasterInRange(c: Primitives, entropy: seq<byte>, password: seq<byte>)
    requires Sound(c)
    ensures MasterKey(c, entropy, password) == Err(EmptyEntropy) <==> entropy == []
    ensures entropy != [] ==>
              var k := MasterKey(c, entropy, password);
              k.Ok? && Consistent(c, k.value) && k.value.chain.Some? && InRange(FromLE(k.value.scalar), 0)
  {
    if entropy != [] {
      ClampedRange(Clamp(c.pbkdf2(password, entropy))[..32]);
    }
  }

  /**
   * The master key: PBKDF2 of the passphrase with the entropy as salt, split into scalar, nonce and
   * chain code, with the low three bits of the first scalar byte cleared and the three top bits of
   * the last one set to 010.
   */
  lemma MasterKeyIs(c: Primitives, entropy: seq<byte>, password: seq<byte>)
    requires Sound(c) && entropy != []
    ensures MasterKey(c, entropy, password).Ok?
    ensures var k, x := MasterKey(c, entropy, password).value, c.pbkdf2(password, entropy);
            && |k.scalar| == 32 && k.scalar[1..31] == x[1..31]
            && k.scalar[0] == x[0] - x[0] % 8 && k.scalar[31] == 0x40 + x[31] % 0x20
            && k.nonce == x[32..64] && k.chain == Some(x[64..96])
  {
  }

  lemma StepRange(s: nat, t: nat, depth: nat)
    requires InRange(s, depth) && depth < MAX_DEPTH && t % 8 == 0 && t < 8 * TWO_224
    ensures s + t < 2 * TWO_254 && InRange(s + t, depth + 1) && (s + t) % TWO_256 == s + t
  {
    DivModUnique(s + t, TWO_256, 0, s + t);
  }

  lemma ChildInRange(c: Primitives, k: PrivateKey, index: u32, depth: nat)
    requires Sound(c) && Consistent(c, k) && k.chain.Some?
    requires InRange(FromLE(k.scalar), depth) && depth < MAX_DEPTH
    ensures DeriveChild(c, k, index).Ok? && InRange(FromLE(DeriveChild(c, k, index).value.scalar), depth + 1)
    ensures NoWrap(c, k, index)
  {
    ChildScalar(c, k, index);
    StepRange(FromLE(k.scalar), Tweak(c, k, index), depth);
  }

  lemma {:induction false} PathInRange(c: Primitives, k: PrivateKey, path: seq<u32>, depth: nat)
    requires Sound(c) && Consistent(c, k) && k.chain.Some?
    requires InRange(FromLE(k.scalar), depth) && depth + |path| <= MAX_DEPTH
    ensures var r := DerivePath(c, k, path);
            r.Ok? && Consistent(c, r.value) && r.value.chain.Some? && InRange(FromLE(r.value.scalar), depth + |path|)
    ensures NoWrapPath(c, k, path)
    decreases |path|
  {
    if path != [] {
      ChildInRange(c, k, path[0], depth);
      ChildIsConsistent(c, k, path[0]);
      PathInRange(c, DeriveChild(c, k, path[0]).value, path[1..], depth + 1);
    }
  }

  lemma RangeAtDepth(scalar: nat, depth: nat)
    requires InRange(scalar, depth) && depth <= MAX_DEPTH
    ensures scalar % 8 == 0 && TWO_254 <= scalar < 2 * TWO_254
  {
  }

  /**
   * Every descendant of an Icarus master key, hardened or not, down to depth 2^26, has a scalar
   * divisible by 8 in [2^254, 2^255).
   */
  lemma DescendantScalars(c: Primitives, entropy: seq<byte>, password: seq<byte>, path: seq<u32>)
    requires Sound(c) && entropy != [] && |path| <= MAX_DEPTH
    ensures MasterKey(c, entropy, password).Ok?
    ensures var r := DerivePath(c, MasterKey(c, entropy, password).value, path);
            r.Ok? && FromLE(r.value.scalar) % 8 == 0 && TWO_254 <= FromLE(r.value.scalar) < 2 * TWO_254
  {
    MasterInRange(c, entropy, password);
    var k := MasterKey(c, entropy, password).value;
    PathInRange(c, k, path, 0);
    RangeAtDepth(FromLE(DerivePath(c, k, path).value.scalar), |path|);
  }

  /**
   * Hand out the extended public key of any node of an Icarus tree: what it derives along any
   * soft path is the neutered private key of the whole path, down to depth 2^26.
   */
  lemma WatchOnlyWallet(c: Primitives, entropy: seq<byte>, password: seq<byte>, account: seq<u32>, soft: seq<u32>)
    requires Sound(c) && entropy != [] && Soft(soft) && |account| + |soft| <= MAX_DEPTH
    ensures MasterKey(c, entropy, password).Ok?
    ensures var root := MasterKey(c, entropy, password).value;
            var node := DerivePath(c, root, account);
            var leaf := DerivePath(c, root, account + soft);
            && node.Ok? && Neuter(node.value).Some? && leaf.Ok? && Neuter(leaf.value).Some?
            && DerivePublicPath(c, Neuter(node.value).value, soft) == Ok(Neuter(leaf.value).value)
  {
    MasterInRange(c, entropy, password);
    var root := MasterKey(c, entropy, password).value;
    PathInRange(c, root, account, 0);
    var node := DerivePath(c, root, account).value;
    PathInRange(c, node, soft, |account|);
    FollowTwo(Deriver(c), root, account, soft);
    WatchOnlyPath(c, node, soft);
  }
}
