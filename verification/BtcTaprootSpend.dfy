/**
  The taproot pieces together (btctx.go, btctx_p2tr.go, p2tr.go): signing with the built-in
  signer, then extracting the signature from the final transaction and recomputing the digest,
  gives a signature that verifies under the tweaked output key.
*/
module BtcTaprootSpend {
  import opened Bytes
  import opened Outcome
  import opened BtcWire
  import opened BtcInputSig
  import opened BtcSighash
  import opened BtcSign
  import opened BtcRecover
  import opened BtcMessages
  import opened ScriptFormats
  import ScriptBytes
  import Schnorr

  /** The key's taproot signer is the built-in one, for a secret scalar. */
  ghost predicate BuiltIn(k: Key, c: Schnorr.Curve, secret: nat)
    requires Schnorr.Sound(c) && secret < c.n
  {
    forall n: nat, digest: seq<byte> :: k.tapSign(n, digest) == Answer(Schnorr.KeySpend(c, secret, digest))
  }

  function Answer(r: Result<seq<byte>, Schnorr.SignError>): Option<seq<byte>> {
    match r case Ok(sig) => Some(sig) case Err(_) => None
  }

  /** The extractor's one finding at a taproot input. */
  function KeyPathInput(sig: seq<byte>): InputSig
    requires |sig| == 64
  {
    InputSig(KeyPathSig, sig[..32], sig[32..64], 0, None, None, [], None, None)
  }

  lemma KeyPathHalves(sig: seq<byte>)
    requires |sig| == 64
    ensures KeyPathInput(sig).r + KeyPathInput(sig).s == sig
  {
    assert sig[..32] + sig[32..64] == sig;
  }

  /** What was signed and the signature, with the final transaction agreeing on both. */
  lemma SignedDigest(H: HashFn, before: Tx, keys: seq<Key>, after: Tx, n: nat)
      returns (digest: seq<byte>, sig: seq<byte>)
    requires Signed(H, before, keys, after) && n < |keys| && keys[n].scheme.SP2tr?
    ensures keys[n].tapSign(n, digest) == Some(sig) && |sig| == 64
    ensures Found(after, n) == Ok([KeyPathInput(sig)])
    ensures TaprootInputSighash(H, after, n, KeyPathInput(sig), PrevScripts(keys), Amounts(keys)) == Ok(digest)
  {
    TaprootRecovers(H, before, keys, after, n);
    digest := TapDigest(H, before, n, Parts(H, before, PrevScripts(keys), Amounts(keys)).value);
    sig := keys[n].tapSign(n, digest).value;
  }

  lemma AnswerVerifies(k: Key, c: Schnorr.Curve, secret: nat, n: nat, digest: seq<byte>, sig: seq<byte>)
    requires Schnorr.Sound(c) && secret < c.n && BuiltIn(k, c, secret) && k.tapSign(n, digest) == Some(sig)
    ensures Schnorr.TweakPubKey(c, c.x(secret)).Ok?
    ensures Schnorr.Verifies(c, Schnorr.TweakPubKey(c, c.x(secret)).value.xOnly, digest, sig)
  {
    Schnorr.KeySpendVerifies(c, secret, digest);
  }

  /**
    After signing all inputs, whatever the other ones are: extraction finds one key-path signature
    at a taproot input, the digest recomputed from the final transaction succeeds, and r and s
    verify on it under the output key of the secret.
  */
  lemma SignedSpendVerifies(H: HashFn, before: Tx, keys: seq<Key>, after: Tx, n: nat, c: Schnorr.Curve, secret: nat)
      returns (found: InputSig, digest: seq<byte>)
    requires Signed(H, before, keys, after) && n < |keys| && keys[n].scheme.SP2tr?
    requires Schnorr.Sound(c) && secret < c.n && BuiltIn(keys[n], c, secret)
    ensures Found(after, n) == Ok([found])
    ensures TaprootInputSighash(H, after, n, found, PrevScripts(keys), Amounts(keys)) == Ok(digest)
    ensures Schnorr.TweakPubKey(c, c.x(secret)).Ok?
    ensures Schnorr.Verifies(c, Schnorr.TweakPubKey(c, c.x(secret)).value.xOnly, digest, found.r + found.s)
  {
    var sig;
    digest, sig := SignedDigest(H, before, keys, after, n);
    found := KeyPathInput(sig);
    AnswerVerifies(keys[n], c, secret, n, digest, sig);
    KeyPathHalves(sig);
  }

  /** The key list entry is for this secret: its compressed form, and the output key as its tweak. */
  ghost predicate ForSecret(env: Env, c: Schnorr.Curve, secret: nat, comp: seq<byte>)
    requires c.n > 0
  {
    && env.export_(PubComp) == Some(comp) && |comp| == 33 && comp[1..] == c.x(secret)
    && env.tweak(comp) == match Schnorr.TweakPubKey(c, comp[1..]) case Ok(q) => Some(q.xOnly) case Err(_) => None
  }

  lemma OutputScript(env: Env, c: Schnorr.Curve, secret: nat, comp: seq<byte>)
    requires Schnorr.Sound(c) && 0 < secret < c.n && ForSecret(env, c, secret, comp)
    requires Schnorr.TweakPubKey(c, c.x(secret)).Ok? && Schnorr.TweakPubKey(c, c.x(secret)).value.point != 0
    ensures var q := Schnorr.TweakPubKey(c, c.x(secret)).value.xOnly;
            |q| == 32 && Eval(env, P2tr) == Some([0x51, 0x20] + q)
  {
    var q := Schnorr.TweakPubKey(c, c.x(secret)).value;
    Schnorr.EvenForm(c, secret);
    Schnorr.EvenForm(c, q.point);
    ScriptBytes.EvalTr(env);
    ScriptBytes.OutputBytes(0x51, q.xOnly);
  }

  lemma SpentPoint(c: Schnorr.Curve, secret: nat, digest: seq<byte>)
    requires Schnorr.Sound(c) && secret < c.n && Schnorr.KeySpend(c, secret, digest).Ok?
    ensures 0 < secret && Schnorr.TweakPubKey(c, c.x(secret)).Ok?
    ensures Schnorr.TweakPubKey(c, c.x(secret)).value.point != 0
  {
    Schnorr.TweakedScalarHasOutputKey(c, secret);
  }

  /**
    The output script of the key holds the very x-only key under which the signature in the final
    transaction verifies, on the digest of the key-path message of this input.
  */
  lemma TaprootOpens(H: HashFn, before: Tx, keys: seq<Key>, after: Tx, n: nat, c: Schnorr.Curve, secret: nat,
                     comp: seq<byte>) returns (m: seq<byte>, q: seq<byte>)
    requires Signed(H, before, keys, after) && n < |keys| && keys[n].scheme.SP2tr? && Ids(before.ins) && Wide(H)
    requires Schnorr.Sound(c) && secret < c.n && BuiltIn(keys[n], c, secret)
    requires ForSecret(keys[n].env, c, secret, comp)
    ensures Bip341Key(H, before, n, PrevScripts(keys), Amounts(keys), m)
    ensures Eval(keys[n].env, P2tr) == Some([0x51, 0x20] + q)
    ensures |after.ins[n].witnesses| == 1
    ensures Schnorr.Verifies(c, q, TagDigest(H, TAP_SIGHASH, m), after.ins[n].witnesses[0])
  {
    var sig;
    m, sig := SignedTaproot(H, before, keys, after, n);
    var digest := TagDigest(H, TAP_SIGHASH, m);
    assert keys[n].tapSign(n, digest) == Answer(Schnorr.KeySpend(c, secret, digest));
    AnswerVerifies(keys[n], c, secret, n, digest, sig);
    SpentPoint(c, secret, digest);
    OutputScript(keys[n].env, c, secret, comp);
    q := Schnorr.TweakPubKey(c, c.x(secret)).value.xOnly;
  }
}
