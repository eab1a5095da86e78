/**
  A signed transaction read by the extractor: which signatures are found, and whether the digest
  recomputed from the final transaction is the one that was signed in the middle of the loop.
*/
module BtcRecover {
  import opened Arith
  import opened Bytes
  import opened Outcome
  import opened BtcWire
  import opened PushData
  import opened EcdsaSig
  import opened ScriptFormats
  import opened BtcInputSig
  import opened BtcSighash
  import opened BtcSign

  ghost predicate IsDerOf(b: seq<byte>, r: nat, s: nat) {
    r < Pow(256, 32) && s < Pow(256, 32) && |DerInt(r)| + |DerInt(s)| <= 66 && b == Der(r, s)
  }

  /** The signer answers with the DER form of two 256-bit numbers, or fails. */
  ghost predicate DerSigner(k: Key) {
    forall n, d :: k.sign(n, d).Some? ==> exists r: nat, s: nat :: IsDerOf(k.sign(n, d).value, r, s)
  }

  /** All inputs were signed. */
  ghost predicate Signed(H: HashFn, before: Tx, keys: seq<Key>, after: Tx) {
    |before.ins| == |keys| && SignedUpTo(H, before, keys, |keys|, after)
  }

  /** The extractor's view of input n. */
  function Found(after: Tx, n: nat): Extraction
    requires n < |after.ins|
  {
    ExtractSig(after.ins[n].script, after.ins[n].witnesses)
  }

  /** Exactly one signature is found, and its recomputed message is `message`. */
  ghost predicate Recovers(H: HashFn, after: Tx, n: nat, prevScript: seq<byte>, amount: u64, message: seq<byte>)
    requires n < |after.ins|
  {
    && Found(after, n).Ok? && |Found(after, n).value| == 1
    && InputMessage(H, after, n, Found(after, n).value[0], prevScript, amount) == Ok(message)
  }

  /** The public sighash of the one signature found. */
  ghost predicate RecoversDigest(H: HashFn, after: Tx, n: nat, prevScript: seq<byte>, amount: u64, digest: seq<byte>)
    requires n < |after.ins|
  {
    && Found(after, n).Ok? && |Found(after, n).value| == 1
    && InputSighash(H, after, n, Found(after, n).value[0], prevScript, amount) == Ok(digest)
  }

  lemma DigestOfMessage(H: HashFn, after: Tx, n: nat, prevScript: seq<byte>, amount: u64, message: seq<byte>)
    requires n < |after.ins|
    ensures Recovers(H, after, n, prevScript, amount, message) ==>
              RecoversDigest(H, after, n, prevScript, amount, Hash256(H, message))
  {
  }

  /** The only signature found has the two numbers of the DER string `der`, the flag and the key. */
  ghost predicate FoundOne(after: Tx, n: nat, scheme: SigScheme, der: seq<byte>, flag: byte, pub: seq<byte>)
    requires n < |after.ins|
  {
    exists r: nat, s: nat ::
      IsDerOf(der, r, s)
      && Found(after, n) == Ok([EcdsaInput(scheme, RawSig(ToBE(32, r), ToBE(32, s), flag), Some(pub))])
  }

  lemma FlagDecides(a: seq<byte>, f: u32, g: u32)
    ensures a + LE(4, f) == a + LE(4, g) <==> f == g
  {
    Widths();
    FromLEOfLE(4, f);
    FromLEOfLE(4, g);
    if a + LE(4, f) == a + LE(4, g) {
      assert LE(4, f) == (a + LE(4, f))[|a|..] == (a + LE(4, g))[|a|..] == LE(4, g);
    }
  }

  // ---------------------------------------------------------------------------------------
  // P2PKH and its uncompressed form
  // ---------------------------------------------------------------------------------------

  /** The message that was signed for a key-hash script: legacy, or BIP-143 with a fork id. */
  function ScriptMessage(H: HashFn, before: Tx, k: Key, n: nat, code: seq<byte>, pub: seq<byte>): seq<byte>
    requires n < |before.ins|
  {
    if ForkId(Flag(k)) then SegwitMessage(H, before, n, KeyHashCode(H, pub), k.amount, Flag(k))
    else LegacyMessage(before, n, code, Flag(k))
  }

  /** What `Sign` stores for such an input. */
  lemma StoredForKeyHash(H: HashFn, before: Tx, keys: seq<Key>, after: Tx, n: nat, code: seq<byte>, pub: seq<byte>)
    requires Signed(H, before, keys, after) && n < |keys|
    requires keys[n].scheme.SP2pkh? || keys[n].scheme.SP2pukh?
    requires Eval(keys[n].env, CodeName(keys[n].scheme)) == Some(code)
    requires Eval(keys[n].env, PubName(keys[n].scheme)) == Some(pub)
    ensures var k := keys[n];
            var sig := k.sign(n, Hash256(H, ScriptMessage(H, before, k, n, code, pub)));
            && sig.Some?
            && after.ins[n].script == PushBytes(sig.value + [Flag(k) % 256]) + PushBytes(pub)
            && after.ins[n].witnesses == before.ins[n].witnesses
  {
    assert SignInput(H, before, keys, n) == Ok(after.ins[n]);
  }

  /** The signer's answer for such an input. */
  function KeyHashSignature(H: HashFn, before: Tx, k: Key, n: nat, code: seq<byte>, pub: seq<byte>): Option<seq<byte>>
    requires n < |before.ins|
  {
    k.sign(n, Hash256(H, ScriptMessage(H, before, k, n, code, pub)))
  }

  /** The signature and key that the extractor finds, if the input carried no witness; with one,
      it finds nothing. */
  lemma FoundForKeyHash(H: HashFn, before: Tx, keys: seq<Key>, after: Tx, n: nat, code: seq<byte>, pub: seq<byte>)
    requires Signed(H, before, keys, after) && n < |keys| && DerSigner(keys[n])
    requires keys[n].scheme.SP2pkh? || keys[n].scheme.SP2pukh?
    requires Eval(keys[n].env, CodeName(keys[n].scheme)) == Some(code)
    requires Eval(keys[n].env, PubName(keys[n].scheme)) == Some(pub) && |pub| < MAX_PUSH
    ensures KeyHashSignature(H, before, keys[n], n, code, pub).Some?
    ensures if before.ins[n].witnesses != [] then Found(after, n) == Ok([])
            else FoundOne(after, n, KeyHashSig, KeyHashSignature(H, before, keys[n], n, code, pub).value,
                          Flag(keys[n]) % 256, pub)
  {
    var k := keys[n];
    StoredForKeyHash(H, before, keys, after, n, code, pub);
    var sig := KeyHashSignature(H, before, k, n, code, pub).value;
    if before.ins[n].witnesses == [] {
      var r: nat, s: nat :| IsDerOf(sig, r, s);
      ExtractP2pkh(Signature(r, s, Flag(k) % 256), sig + [Flag(k) % 256], pub);
    }
  }

  /** From the found signature on: the stored flag byte must be 1, and then the message is the
      legacy one with flag 1. */
  lemma MessageOfFound(H: HashFn, after: Tx, n: nat, der: seq<byte>, flag: byte, pub: seq<byte>,
                       code: seq<byte>, amount: u64, message: seq<byte>)
    requires n < |after.ins| && FoundOne(after, n, KeyHashSig, der, flag, pub)
    ensures Recovers(H, after, n, code, amount, message) <==> flag == 1 && message == LegacyMessage(after, n, code, 1)
  {
  }

  lemma ScriptMessagesMatch(before: Tx, after: Tx, n: nat, code: seq<byte>, flag: u32)
    requires SameSkeleton(before, after) && n < |before.ins| == |after.ins|
    ensures LegacyMessage(before, n, code, flag) == LegacyMessage(after, n, code, 1) <==> flag == 1
  {
    LegacyIgnoresScripts(before, after, n, code, 1);
    FlagDecides(Exported(WithScript(before, n, code), false), flag, 1);
  }

  /** The fork-id bit is in the low byte. */
  lemma ForkIdShows(f: u32)
    ensures ForkId(f) ==> f % 256 != 1
    ensures f == 1 ==> !ForkId(f) && f % 256 == 1
  {
    var q := f / 256;
    assert f == 256 * q + f % 256;
    if f % 256 == 1 {
      DivModUnique(f, 64, 4 * q, 1);
      DivModUnique(4 * q, 2, 2 * q, 0);
    }
  }

  lemma MessageWithoutForkId(H: HashFn, before: Tx, k: Key, n: nat, code: seq<byte>, pub: seq<byte>)
    requires n < |before.ins| && !ForkId(Flag(k))
    ensures ScriptMessage(H, before, k, n, code, pub) == LegacyMessage(before, n, code, Flag(k))
  {
  }

  lemma KeyHashMessagesMatch(H: HashFn, before: Tx, after: Tx, k: Key, n: nat, code: seq<byte>, pub: seq<byte>)
    requires SameSkeleton(before, after) && n < |before.ins| == |after.ins|
    ensures Flag(k) % 256 == 1 && ScriptMessage(H, before, k, n, code, pub) == LegacyMessage(after, n, code, 1)
            <==> Flag(k) == 1
  {
    ForkIdShows(Flag(k));
    if !ForkId(Flag(k)) {
      MessageWithoutForkId(H, before, k, n, code, pub);
      ScriptMessagesMatch(before, after, n, code, Flag(k));
    }
  }

  /** For a P2PKH input the digest recomputed from the final transaction is the one signed,
      whatever the other inputs are and however they were signed, exactly when the input carried
      no witness before and the flag is plain SIGHASH_ALL. The low byte alone is stored, so a
      flag such as 0x101 is accepted by the signer but not recovered. The equivalence is about
      the messages, since a hash may collide; then the digest handed to the signer comes back. */
  lemma KeyHashRecoversExactly(H: HashFn, before: Tx, keys: seq<Key>, after: Tx, n: nat,
                               code: seq<byte>, pub: seq<byte>)
    requires Signed(H, before, keys, after) && n < |keys| && DerSigner(keys[n])
    requires keys[n].scheme.SP2pkh? || keys[n].scheme.SP2pukh?
    requires Eval(keys[n].env, CodeName(keys[n].scheme)) == Some(code)
    requires Eval(keys[n].env, PubName(keys[n].scheme)) == Some(pub) && |pub| < MAX_PUSH
    ensures Recovers(H, after, n, code, keys[n].amount, ScriptMessage(H, before, keys[n], n, code, pub))
            <==> before.ins[n].witnesses == [] && Flag(keys[n]) == 1
    ensures before.ins[n].witnesses == [] && Flag(keys[n]) == 1 ==>
              RecoversDigest(H, after, n, code, keys[n].amount,
                             Hash256(H, ScriptMessage(H, before, keys[n], n, code, pub)))
  {
    var k := keys[n];
    DigestOfMessage(H, after, n, code, k.amount, ScriptMessage(H, before, k, n, code, pub));
    FoundForKeyHash(H, before, keys, after, n, code, pub);
    SignedKeepsSkeleton(H, before, keys, |keys|, after);
    KeyHashMessagesMatch(H, before, after, k, n, code, pub);
    if before.ins[n].witnesses == [] {
      MessageOfFound(H, after, n, KeyHashSignature(H, before, k, n, code, pub).value, Flag(k) % 256, pub,
                     code, k.amount, ScriptMessage(H, before, k, n, code, pub));
    }
  }

  /** A P2PKH key on secp256k1 whose signer always answers, in DER. */
  ghost predicate WillingSigner(k: Key) {
    k.scheme.SP2pkh? && Secp256k1Env(k.env) && DerSigner(k) && forall n: nat, d: seq<byte> :: k.sign(n, d).Some?
  }

  /** The numbers 1 and 1, in DER. */
  const SMALL_DER: seq<byte> := [0x30, 6, 2, 1, 1, 2, 1, 1]

  lemma SmallDer()
    ensures IsDerOf(SMALL_DER, 1, 1)
  {
    assert MinBE(1) == [1];
    WidthOf(32);
  }

  function CompressedOnly(name: Name): Option<seq<byte>> {
    if name.PubComp? then Some([2] + Zeros(32)) else if name.PubUncomp? then Some([4] + Zeros(64)) else None
  }

  lemma WillingSignersExist(sigHash: u32)
    ensures exists k: Key :: WillingSigner(k) && k.sigHash == sigHash
  {
    var env := Env(CompressedOnly, (h, b) => Zeros(20), b => None);
    var k := Key(env, (n, d) => Some(SMALL_DER), (n, d) => None, SP2pkh, 0, sigHash, []);
    SmallDer();
    assert WillingSigner(k) && k.sigHash == sigHash;
  }

  lemma KeyHashParts(env: Env) returns (code: seq<byte>, pub: seq<byte>)
    requires Secp256k1Env(env)
    ensures Eval(env, P2pkh) == Some(code) && Eval(env, PubComp) == Some(pub) && |pub| == 33
  {
    ScriptLengths(env);
    code, pub := Eval(env, P2pkh).value, Eval(env, PubComp).value;
  }

  lemma WillingSigns(H: HashFn, before: Tx, k: Key) returns (after: Tx)
    requires |before.ins| == 1 && WillingSigner(k) && AllowedFlag(Flag(k))
    ensures Signed(H, before, [k], after)
  {
    var code, pub := KeyHashParts(k.env);
    after := before.(ins := [SignInput(H, before, [k], 0).value]);
  }

  /**
   * Each way to lose a digest happens: with the flags 0x101 and 0x41, which the signer accepts,
   * and with flag 1 on an input that already carried a witness.
   */
  lemma SomeDigestsAreLost(H: HashFn, before: Tx, k: Key) returns (after: Tx, code: seq<byte>, pub: seq<byte>)
    requires |before.ins| == 1 && WillingSigner(k)
    requires k.sigHash == 0x101 || k.sigHash == 0x41 || (k.sigHash == 1 && before.ins[0].witnesses != [])
    ensures Signed(H, before, [k], after)
    ensures Eval(k.env, P2pkh) == Some(code) && Eval(k.env, PubComp) == Some(pub)
    ensures !Recovers(H, after, 0, code, k.amount, ScriptMessage(H, before, k, 0, code, pub))
  {
    code, pub := KeyHashParts(k.env);
    after := WillingSigns(H, before, k);
    KeyHashRecoversExactly(H, before, [k], after, 0, code, pub);
  }

  // ---------------------------------------------------------------------------------------
  // P2WPKH
  // ---------------------------------------------------------------------------------------

  function WitnessMessage(H: HashFn, before: Tx, k: Key, n: nat, pub: seq<byte>): seq<byte>
    requires n < |before.ins|
  {
    SegwitMessage(H, before, n, KeyHashCode(H, pub), k.amount, Flag(k))
  }

  function WitnessSignature(H: HashFn, before: Tx, k: Key, n: nat, pub: seq<byte>): Option<seq<byte>>
    requires n < |before.ins|
  {
    k.sign(n, Hash256(H, WitnessMessage(H, before, k, n, pub)))
  }

  lemma FoundForWitnessKey(H: HashFn, before: Tx, keys: seq<Key>, after: Tx, n: nat, pub: seq<byte>)
    requires Signed(H, before, keys, after) && n < |keys| && DerSigner(keys[n])
    requires keys[n].scheme.SP2wpkh?
    requires Eval(keys[n].env, PubComp) == Some(pub) && |pub| == 33 && (pub[0] == 2 || pub[0] == 3)
    ensures WitnessSignature(H, before, keys[n], n, pub).Some?
    ensures FoundOne(after, n, WitnessKeySig, WitnessSignature(H, before, keys[n], n, pub).value,
                     Flag(keys[n]) % 256, pub)
  {
    var k := keys[n];
    assert SignInput(H, before, keys, n) == Ok(after.ins[n]);
    var sig := WitnessSignature(H, before, k, n, pub).value;
    var r: nat, s: nat :| IsDerOf(sig, r, s);
    ExtractP2wpkh(Signature(r, s, Flag(k) % 256), sig + [Flag(k) % 256], pub);
  }

  lemma MessageOfFoundWitness(H: HashFn, after: Tx, n: nat, der: seq<byte>, flag: byte, pub: seq<byte>,
                              prevScript: seq<byte>, amount: u64, message: seq<byte>)
    requires n < |after.ins| && FoundOne(after, n, WitnessKeySig, der, flag, pub)
    ensures Recovers(H, after, n, prevScript, amount, message)
            <==> flag == 1 && message == SegwitMessage(H, after, n, KeyHashCode(H, pub), amount, 1)
  {
  }

  /** For a P2WPKH input the recomputed digest is the one signed exactly when the flag is plain
      SIGHASH_ALL; what the input carried before does not matter. */
  lemma WitnessKeyRecoversExactly(H: HashFn, before: Tx, keys: seq<Key>, after: Tx, n: nat, pub: seq<byte>,
                                  prevScript: seq<byte>)
    requires Signed(H, before, keys, after) && n < |keys| && DerSigner(keys[n])
    requires keys[n].scheme.SP2wpkh?
    requires Eval(keys[n].env, PubComp) == Some(pub) && |pub| == 33 && (pub[0] == 2 || pub[0] == 3)
    ensures Recovers(H, after, n, prevScript, keys[n].amount, WitnessMessage(H, before, keys[n], n, pub))
            <==> Flag(keys[n]) == 1
    ensures Flag(keys[n]) == 1 ==>
              RecoversDigest(H, after, n, prevScript, keys[n].amount,
                             Hash256(H, WitnessMessage(H, before, keys[n], n, pub)))
  {
    var k := keys[n];
    DigestOfMessage(H, after, n, prevScript, k.amount, WitnessMessage(H, before, k, n, pub));
    FoundForWitnessKey(H, before, keys, after, n, pub);
    MessageOfFoundWitness(H, after, n, WitnessSignature(H, before, k, n, pub).value, Flag(k) % 256, pub,
                          prevScript, k.amount, WitnessMessage(H, before, k, n, pub));
    SignedKeepsSkeleton(H, before, keys, |keys|, after);
    SegwitIgnoresScripts(H, before, after, n, KeyHashCode(H, pub), k.amount, 1);
    FlagDecides(Prefix(H, before) + Outpoint(before.ins[n]) + PushBytes(KeyHashCode(H, pub)) + LE(8, k.amount)
                + LE(4, before.ins[n].sequence) + Suffix(H, before), Flag(k), 1);
  }

  // ---------------------------------------------------------------------------------------
  // P2TR key path
  // ---------------------------------------------------------------------------------------

  /** A taproot input is always recovered, with the scripts and amounts the signer was given:
      the digest recomputed from the final transaction is the one that was signed. */
  lemma TaprootRecovers(H: HashFn, before: Tx, keys: seq<Key>, after: Tx, n: nat)
    requires Signed(H, before, keys, after) && n < |keys| && keys[n].scheme.SP2tr?
    ensures var parts := Parts(H, before, PrevScripts(keys), Amounts(keys));
            && parts.Some?
            && var digest := TapDigest(H, before, n, parts.value);
               var sig := keys[n].tapSign(n, digest);
               && sig.Some? && |sig.value| == 64
               && Found(after, n) == Ok([InputSig(KeyPathSig, sig.value[..32], sig.value[32..64], 0,
                                                  None, None, [], None, None)])
               && TaprootInputSighash(H, after, n, Found(after, n).value[0], PrevScripts(keys), Amounts(keys))
                  == Ok(digest)
  {
    var parts := Parts(H, before, PrevScripts(keys), Amounts(keys));
    assert SignInput(H, before, keys, n) == Ok(after.ins[n]);
    var digest := TapDigest(H, before, n, parts.value);
    var sig := keys[n].tapSign(n, digest).value;
    ExtractKeyPath(sig);
    SignedKeepsSkeleton(H, before, keys, |keys|, after);
    MessagesIgnoreScripts(H, before, after);
    KeySpendIgnoresScripts(before, after, n, parts.value);
  }
}
