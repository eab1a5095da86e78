/**
 * What a signed input presents is what its output script commits to (format.go, btctx.go): keys
 * and scripts in the input hash to the values in the generated output script.
 */
module BtcSpend {
  import opened Bytes
  import opened Outcome
  import opened BtcWire
  import opened PushData
  import opened ScriptFormats
  import opened ScriptBytes
  import opened BtcSighash
  import opened BtcSign
  import opened BtcMessages

  /** A secp256k1 key of the signer, with the hash functions the messages are made with. */
  ghost predicate OwnKey(H: HashFn, k: Key, comp: seq<byte>, uncomp: seq<byte>, output: seq<byte>) {
    Exports(k.env, comp, uncomp, output) && H == k.env.hash
  }

  function Hash160Of(H: HashFn, b: seq<byte>): seq<byte> {
    H(Ripemd160, H(Sha256, b))
  }

  /** What signing wrote for a witness key, and the key it wrote. */
  lemma WitnessKeyWritten(H: HashFn, before: Tx, keys: seq<Key>, after: Tx, n: nat)
      returns (sig: seq<byte>, pub: seq<byte>)
    requires |before.ins| == |keys| && SignedUpTo(H, before, keys, |keys|, after) && n < |keys|
    requires keys[n].scheme.SP2wpkh? || keys[n].scheme.SP2shP2wpkh?
    ensures Eval(keys[n].env, PubComp) == Some(pub)
    ensures after.ins[n] == PlaceKeyHash(H, before.ins[n], keys[n].scheme, sig, pub)
  {
    var k := keys[n];
    assert SignInput(H, before, keys, n) == Ok(after.ins[n]);
    pub := Eval(k.env, PubComp).value;
    sig := SignMessage(H, k, n, SegwitMessage(H, before, n, KeyHashCode(H, pub), k.amount, Flag(k))).value;
  }

  /** The same for a key hash, legacy or with the fork id. */
  lemma KeyHashWritten(H: HashFn, before: Tx, keys: seq<Key>, after: Tx, n: nat)
      returns (sig: seq<byte>, pub: seq<byte>)
    requires |before.ins| == |keys| && SignedUpTo(H, before, keys, |keys|, after) && n < |keys|
    requires keys[n].scheme.SP2pkh? || keys[n].scheme.SP2pukh?
    ensures Eval(keys[n].env, PubName(keys[n].scheme)) == Some(pub)
    ensures after.ins[n].script == PushBytes(sig) + PushBytes(pub)
  {
    var k := keys[n];
    assert SignInput(H, before, keys, n) == Ok(after.ins[n]);
    pub := Eval(k.env, PubName(k.scheme)).value;
    if ForkId(Flag(k)) {
      sig := SignMessage(H, k, n, SegwitMessage(H, before, n, KeyHashCode(H, pub), k.amount, Flag(k))).value;
    } else {
      var code := Eval(k.env, CodeName(k.scheme)).value;
      sig := SignMessage(H, k, n, LegacyMessage(before, n, code, Flag(k))).value;
    }
  }

  /**
   * P2WPKH and P2SH-P2WPKH: the second witness item is the compressed key, and its hash stands in
   * bytes 2 to 22 of the witness program; nested, the program is the pushed redeem script, whose
   * hash stands in the P2SH script.
   */
  lemma WitnessKeyOpens(H: HashFn, before: Tx, keys: seq<Key>, after: Tx, n: nat,
                        comp: seq<byte>, uncomp: seq<byte>, output: seq<byte>)
      returns (program: seq<byte>)
    requires |before.ins| == |keys| && SignedUpTo(H, before, keys, |keys|, after) && n < |keys|
    requires OwnKey(H, keys[n], comp, uncomp, output) && (keys[n].scheme.SP2wpkh? || keys[n].scheme.SP2shP2wpkh?)
    ensures Eval(keys[n].env, P2wpkh) == Some(program) && |program| == 22 && program[..2] == [0x00, 0x14]
    ensures |after.ins[n].witnesses| == 2 && after.ins[n].witnesses[1] == comp
    ensures Hash160Of(H, after.ins[n].witnesses[1]) == program[2..]
    ensures keys[n].scheme.SP2wpkh? ==> after.ins[n].script == []
    ensures keys[n].scheme.SP2shP2wpkh? ==>
              && after.ins[n].script == [0x16] + program
              && Eval(keys[n].env, P2shP2wpkh) == Some([0xa9, 0x14] + Hash160Of(H, program) + [0x87])
  {
    var k := keys[n];
    var sig, pub := WitnessKeyWritten(H, before, keys, after, n);
    program := [0x00, 0x14] + Hash160Of(H, comp);
    Programs(k.env, comp, uncomp, output);
    PushedProgram(H, comp, program);
  }

  lemma Programs(env: Env, comp: seq<byte>, uncomp: seq<byte>, output: seq<byte>)
    requires Exports(env, comp, uncomp, output)
    ensures var program := [0x00, 0x14] + Hash160Of(env.hash, comp);
            && Eval(env, PubComp) == Some(comp) && Eval(env, P2wpkh) == Some(program) && |program| == 22
            && Eval(env, P2shP2wpkh) == Some([0xa9, 0x14] + Hash160Of(env.hash, program) + [0x87])
  {
    KeyScripts(env, comp, uncomp, output, P2wpkh);
    KeyScripts(env, comp, uncomp, output, P2shP2wpkh);
  }

  lemma PushedProgram(H: HashFn, comp: seq<byte>, program: seq<byte>)
    requires program == [0x00, 0x14] + Hash160Of(H, comp) && |Hash160Of(H, comp)| == 20
    ensures PushBytes([0] + PushBytes(HashKey(H, comp))) == [0x16] + program
    ensures program[..2] == [0x00, 0x14] && program[2..] == Hash160Of(H, comp)
  {
    assert [0] + PushBytes(HashKey(H, comp)) == program;
  }

  /** P2PKH, compressed or not: the last push of the input script hashes to bytes 3 to 23 of the output script. */
  lemma KeyHashOpens(H: HashFn, before: Tx, keys: seq<Key>, after: Tx, n: nat,
                     comp: seq<byte>, uncomp: seq<byte>, output: seq<byte>)
      returns (script: seq<byte>, sig: seq<byte>, pub: seq<byte>)
    requires |before.ins| == |keys| && SignedUpTo(H, before, keys, |keys|, after) && n < |keys|
    requires OwnKey(H, keys[n], comp, uncomp, output) && (keys[n].scheme.SP2pkh? || keys[n].scheme.SP2pukh?)
    ensures pub == if keys[n].scheme.SP2pkh? then comp else uncomp
    ensures after.ins[n].script == PushBytes(sig) + [|pub|] + pub
    ensures Eval(keys[n].env, if keys[n].scheme.SP2pkh? then P2pkh else P2pukh) == Some(script)
    ensures script == [0x76, 0xa9, 0x14] + Hash160Of(H, pub) + [0x88, 0xac]
  {
    sig, pub := KeyHashWritten(H, before, keys, after, n);
    var name := if keys[n].scheme.SP2pkh? then P2pkh else P2pukh;
    KeyScripts(keys[n].env, comp, uncomp, output, name);
    script := [0x76, 0xa9, 0x14] + Hash160Of(H, pub) + [0x88, 0xac];
    Associates(PushBytes(sig), [|pub|], pub);
  }

  /** The output script that asks for a witness script. */
  function WitnessNameOf(inner: Inner): Name {
    match inner
    case InP2pkh => P2wshP2pkh
    case InP2pk => P2wshP2pk
    case InP2pukh => P2wshP2pukh
    case InP2puk => P2wshP2puk
  }

  /** P2WSH: the last witness item is the witness script, and its hash is the output script's. */
  lemma WitnessScriptOpens(H: HashFn, before: Tx, keys: seq<Key>, after: Tx, n: nat,
                           comp: seq<byte>, uncomp: seq<byte>, output: seq<byte>)
      returns (inner: Inner, ws: seq<byte>)
    requires |before.ins| == |keys| && SignedUpTo(H, before, keys, |keys|, after) && n < |keys|
    requires OwnKey(H, keys[n], comp, uncomp, output) && (keys[n].scheme.SP2wsh? || keys[n].scheme.SP2wshInner?)
    ensures keys[n].scheme.SP2wshInner? ==> inner == keys[n].scheme.inner
    ensures |after.ins[n].witnesses| >= 2 && after.ins[n].witnesses[|after.ins[n].witnesses| - 1] == ws
    ensures Eval(keys[n].env, InnerName(inner)) == Some(ws)
    ensures Eval(keys[n].env, WitnessNameOf(inner)) == Some([0x00, 0x20] + H(Sha256, ws))
  {
    var der;
    inner, ws, der := WitnessScriptWritten(H, before, keys, after, n);
    PlacedWitness(before.ins[n], keys[n].env, inner, der + [Flag(keys[n]) % 256], ws);
    WitnessProgram(keys[n].env, comp, uncomp, output, inner);
  }

  lemma WitnessProgram(env: Env, comp: seq<byte>, uncomp: seq<byte>, output: seq<byte>, inner: Inner)
    requires Exports(env, comp, uncomp, output)
    ensures Eval(env, InnerName(inner)).Some?
    ensures Eval(env, WitnessNameOf(inner)) == Some([0x00, 0x20] + env.hash(Sha256, Eval(env, InnerName(inner)).value))
  {
    SingleScripts(env, comp, uncomp, output, InnerName(inner));
    NestedBytes(env, WitnessNameOf(inner), InnerName(inner), Eval(env, InnerName(inner)).value);
  }

  /** P2PK: the output script holds the compressed key, and is the code that is signed. */
  lemma PlainKeyOpens(H: HashFn, before: Tx, keys: seq<Key>, after: Tx, n: nat,
                      comp: seq<byte>, uncomp: seq<byte>, output: seq<byte>)
    requires |before.ins| == |keys| && SignedUpTo(H, before, keys, |keys|, after) && n < |keys|
    requires OwnKey(H, keys[n], comp, uncomp, output) && keys[n].scheme.SP2pk?
    ensures var k, code := keys[n], [0x21] + comp + [0xac];
            var sig := k.sign(n, H(Sha256, H(Sha256, LegacyMessage(before, n, code, Flag(k)))));
            && Eval(k.env, P2pk) == Some(code)
            && sig.Some? && after.ins[n].script == PushBytes(sig.value + [Flag(k) % 256])
  {
    assert SignInput(H, before, keys, n) == Ok(after.ins[n]);
    KeyScripts(keys[n].env, comp, uncomp, output, P2pk);
  }
}
