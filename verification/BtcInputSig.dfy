/** Recognising the signatures of a spent input (btctxparse.go). */
module BtcInputSig {
  import opened Arith
  import opened Bytes
  import opened Outcome
  import opened PushData
  import opened EcdsaSig

  datatype SigScheme = KeyHashSig | WitnessKeySig | MultisigSig | KeyPathSig | ScriptPathSig

  datatype InputSig = InputSig(scheme: SigScheme, r: seq<byte>, s: seq<byte>, flag: byte,
                               pubKey: Option<seq<byte>>, redeem: Option<seq<byte>>,
                               pubkeys: seq<seq<byte>>, leaf: Option<seq<byte>>, control: Option<seq<byte>>)

  /** The signatures found; none when the shape is not recognised. */
  type Extraction = Result<seq<InputSig>, SigError>

  function EcdsaInput(scheme: SigScheme, sig: RawSig, pubKey: Option<seq<byte>>): InputSig {
    InputSig(scheme, sig.r, sig.s, sig.flag, pubKey, None, [], None, None)
  }

  function ExtractSig(scriptSig: seq<byte>, stack: seq<seq<byte>>): Extraction {
    if scriptSig == [] && stack != [] then ExtractWitness(stack)
    else if stack == [] && scriptSig != [] then ExtractScript(scriptSig)
    else Ok([])
  }

  // ---------------------------------------------------------------------------------------
  // Witness spends
  // ---------------------------------------------------------------------------------------

  /** The shape of a BIP-341 control block with the BIP-342 leaf version. */
  predicate IsControlBlock(b: seq<byte>) {
    |b| >= 33 && (|b| - 33) % 32 == 0 && b[0] / 2 == 0x60
  }

  function ParseTaprootSig(sig: seq<byte>, scheme: SigScheme): Option<InputSig> {
    if |sig| != 64 && |sig| != 65 then None
    else
      Some(InputSig(scheme, sig[..32], sig[32..64], if |sig| == 65 then sig[64] else 0,
                    None, None, [], None, None))
  }

  function ParseScriptPath(stack: seq<seq<byte>>): Option<InputSig>
    requires |stack| >= 2
  {
    if |stack| < 3 then None
    else
      var cb, leaf := stack[|stack| - 1], stack[|stack| - 2];
      if |leaf| != 34 || leaf[0] != 0x20 || leaf[33] != 0xac || |stack| != 3 then None
      else
        match ParseTaprootSig(stack[0], ScriptPathSig)
        case None => None
        case Some(sig) => Some(sig.(pubKey := Some(leaf[1..33]), leaf := Some(leaf), control := Some(cb)))
  }

  function ListOf(sig: Option<InputSig>): Extraction {
    match sig
    case None => Ok([])
    case Some(s) => Ok([s])
  }

  predicate IsPubKeyPrefix(b: byte) {
    b == 2 || b == 3 || b == 4 || b == 6 || b == 7
  }

  function ExtractWitness(stack: seq<seq<byte>>): Extraction
    requires stack != []
  {
    var last := stack[|stack| - 1];
    if |stack| >= 2 && last != [] && last[0] == 0x50 then Ok([])
    else if |stack| == 1 then ListOf(ParseTaprootSig(stack[0], KeyPathSig))
    else if IsControlBlock(last) then ListOf(ParseScriptPath(stack))
    else if |stack| == 2 && last != [] && IsPubKeyPrefix(last[0]) then ExtractEcdsa(WitnessKeySig, stack[0], last)
    else Ok([])
  }

  function ExtractEcdsa(scheme: SigScheme, sig: seq<byte>, pubKey: seq<byte>): Extraction {
    match ParseEcdsaSig(sig)
    case Err(e) => Err(e)
    case Ok(raw) => Ok([EcdsaInput(scheme, raw, Some(pubKey))])
  }

  // ---------------------------------------------------------------------------------------
  // Script spends
  // ---------------------------------------------------------------------------------------

  function ExtractScript(scriptSig: seq<byte>): Extraction
    requires scriptSig != []
  {
    var multi := if scriptSig[0] == 0 then ParseMultisig(scriptSig) else None;
    if multi.Some? then Ok(multi.value)
    else
      match ParsePushBytes(scriptSig)
      case None => Ok([])
      case Some(sig) =>
        match ParsePushBytes(scriptSig[sig.used..])
        case None => Ok([])
        case Some(pub) =>
          if sig.used + pub.used != |scriptSig| then Ok([]) else ExtractEcdsa(KeyHashSig, sig.data, pub.data)
  }

  /** OP_M, key pushes, OP_N, OP_CHECKMULTISIG with N the number of keys. */
  function ParseKeys(script: seq<byte>): Option<seq<seq<byte>>> {
    if |script| < 4 || script[|script| - 1] != 0xae then None
    else if script[0] < 0x51 || script[0] > 0x60 then None
    else
      var nOp := script[|script| - 2];
      if nOp < 0x51 || nOp > 0x60 then None
      else
        match ParsePushes(script[1..|script| - 2])
        case None => None
        case Some(keys) => if |keys| != nOp - 0x50 then None else Some(keys)
  }

  type SigParser = seq<byte> -> Result<RawSig, SigError>

  /** The signatures among the pushes; empty pushes are skipped. */
  function ParseSigs(parse: SigParser, pushes: seq<seq<byte>>, redeem: seq<byte>, keys: seq<seq<byte>>)
    : Option<seq<InputSig>>
  {
    if pushes == [] then Some([])
    else
      var n := |pushes| - 1;
      AddSig(ParseSigs(parse, pushes[..n], redeem, keys), parse, pushes[n], redeem, keys)
  }

  function AddSig(before: Option<seq<InputSig>>, parse: SigParser, push: seq<byte>,
                  redeem: seq<byte>, keys: seq<seq<byte>>): Option<seq<InputSig>> {
    if before.None? || push == [] then before
    else
      match parse(push)
      case Err(_) => None
      case Ok(raw) => Some(before.value + [MultisigInput(raw, redeem, keys)])
  }

  function MultisigInput(raw: RawSig, redeem: seq<byte>, keys: seq<seq<byte>>): InputSig {
    EcdsaInput(MultisigSig, raw, None).(redeem := Some(redeem), pubkeys := keys)
  }

  function ParseMultisig(scriptSig: seq<byte>): Option<seq<InputSig>> {
    if |scriptSig| < 2 || scriptSig[0] != 0 then None
    else
      match ParsePushes(scriptSig[1..])
      case None => None
      case Some(pushes) => MultisigOfPushes(pushes)
  }

  function MultisigOfPushes(pushes: seq<seq<byte>>): Option<seq<InputSig>> {
    if |pushes| < 2 then None
    else
      var redeem := pushes[|pushes| - 1];
      match ParseKeys(redeem)
      case None => None
      case Some(keys) =>
        match ParseSigs(ParseEcdsaSig, pushes[..|pushes| - 1], redeem, keys)
        case None => None
        case Some(sigs) => if sigs == [] then None else Some(sigs)
  }

  method ParseKeysLoop(script: seq<byte>) returns (r: Option<seq<seq<byte>>>)
    ensures r == ParseKeys(script)
  {
    if |script| < 4 || script[|script| - 1] != 0xae {
      return None;
    }
    if script[0] < 0x51 || script[0] > 0x60 {
      return None;
    }
    var nOp := script[|script| - 2];
    if nOp < 0x51 || nOp > 0x60 {
      return None;
    }
    var keys := PushLoop(script[1..|script| - 2]);
    if keys.None? || |keys.value| != nOp - 0x50 {
      return None;
    }
    return keys;
  }

  lemma {:induction false} SigsFailOn(parse: SigParser, pushes: seq<seq<byte>>, redeem: seq<byte>,
                                      keys: seq<seq<byte>>, n: nat)
    requires n <= |pushes| && ParseSigs(parse, pushes[..n], redeem, keys).None?
    ensures ParseSigs(parse, pushes, redeem, keys).None?
    decreases |pushes| - n
  {
    if n < |pushes| {
      assert pushes[..n + 1][..n] == pushes[..n];
      SigsFailOn(parse, pushes, redeem, keys, n + 1);
    } else {
      assert pushes[..n] == pushes;
    }
  }

  /** The loop over the signature pushes. */
  method SigsLoop(parse: SigParser, pushes: seq<seq<byte>>, redeem: seq<byte>, keys: seq<seq<byte>>)
    returns (r: Option<seq<InputSig>>)
    ensures r == ParseSigs(parse, pushes, redeem, keys)
  {
    var out: seq<InputSig> := [];
    var i := 0;
    while i < |pushes|
      invariant 0 <= i <= |pushes|
      invariant ParseSigs(parse, pushes[..i], redeem, keys) == Some(out)
    {
      assert pushes[..i + 1][..i] == pushes[..i];
      if pushes[i] != [] {
        var parsed := parse(pushes[i]);
        if parsed.Err? {
          SigsFailOn(parse, pushes, redeem, keys, i + 1);
          return None;
        }
        out := out + [MultisigInput(parsed.value, redeem, keys)];
      }
      i := i + 1;
    }
    assert pushes[..i] == pushes;
    return Some(out);
  }

  method ParseMultisigLoop(scriptSig: seq<byte>) returns (r: Option<seq<InputSig>>)
    ensures r == ParseMultisig(scriptSig)
  {
    if |scriptSig| < 2 || scriptSig[0] != 0 {
      return None;
    }
    var pushes := PushLoop(scriptSig[1..]);
    if pushes.None? || |pushes.value| < 2 {
      return None;
    }
    var redeem := pushes.value[|pushes.value| - 1];
    var keys := ParseKeysLoop(redeem);
    if keys.None? {
      return None;
    }
    var out := SigsLoop(ParseEcdsaSig, pushes.value[..|pushes.value| - 1], redeem, keys.value);
    if out.None? || out.value == [] {
      return None;
    }
    return out;
  }

  // ---------------------------------------------------------------------------------------
  // Main results
  // ---------------------------------------------------------------------------------------

  /** A signature as a signer makes it: two 256-bit numbers and a flag. */
  datatype Signature = Signature(r: nat, s: nat, flag: byte)

  ghost predicate ValidSignature(sig: Signature) {
    sig.r < Pow(256, 32) && sig.s < Pow(256, 32)
  }

  function SigBytes(sig: Signature): seq<byte>
    requires |DerInt(sig.r)| + |DerInt(sig.s)| <= 251
  {
    Der(sig.r, sig.s) + [sig.flag]
  }

  ghost predicate SignatureBytes(sig: Signature, b: seq<byte>) {
    |DerInt(sig.r)| + |DerInt(sig.s)| <= 251 && b == SigBytes(sig)
  }

  function RawOf(sig: Signature): RawSig {
    RawSig(ToBE(32, sig.r), ToBE(32, sig.s), sig.flag)
  }

  lemma ExtractTwoPushes(b: seq<byte>, pub: seq<byte>)
    requires 0 < |b| < MAX_PUSH && |pub| < MAX_PUSH
    ensures ExtractSig(PushBytes(b) + PushBytes(pub), []) == ExtractEcdsa(KeyHashSig, b, pub)
  {
    var script := PushBytes(b) + PushBytes(pub);
    ParseOfPush(b, PushBytes(pub));
    ParseOfPush(pub, []);
    assert PushBytes(pub) + [] == PushBytes(pub);
    assert script[|PushBytes(b)|..] == PushBytes(pub);
    assert script[0] != 0;
  }

  /** P2PKH: the pushed signature and key come back. */
  lemma ExtractP2pkh(sig: Signature, b: seq<byte>, pub: seq<byte>)
    requires ValidSignature(sig) && SignatureBytes(sig, b) && |pub| < MAX_PUSH
    ensures ExtractSig(PushBytes(b) + PushBytes(pub), []) == Ok([EcdsaInput(KeyHashSig, RawOf(sig), Some(pub))])
  {
    ParseOfDer(sig.r, sig.s, sig.flag);
    ExtractTwoPushes(b, pub);
  }

  /** P2WPKH: a two-item witness whose second item is a public key. */
  lemma ExtractP2wpkh(sig: Signature, b: seq<byte>, pub: seq<byte>)
    requires ValidSignature(sig) && SignatureBytes(sig, b) && pub != [] && IsPubKeyPrefix(pub[0])
    ensures ExtractSig([], [b, pub]) == Ok([EcdsaInput(WitnessKeySig, RawOf(sig), Some(pub))])
  {
    ParseOfDer(sig.r, sig.s, sig.flag);
  }

  /** P2TR key path: the single 64-byte item, with the default flag. */
  lemma ExtractKeyPath(sig: seq<byte>)
    requires |sig| == 64
    ensures ExtractSig([], [sig])
            == Ok([InputSig(KeyPathSig, sig[..32], sig[32..64], 0, None, None, [], None, None)])
  {
  }

  /** With a 65th byte, that is the flag. */
  lemma ExtractKeyPathFlag(sig: seq<byte>)
    requires |sig| == 65
    ensures ExtractSig([], [sig])
            == Ok([InputSig(KeyPathSig, sig[..32], sig[32..64], sig[64], None, None, [], None, None)])
  {
  }

  /**
   * P2TR script path with one key: signature, the leaf that pushes a 32-byte key and checks it, and
   * a control block of 33 + 32 * depth bytes that starts with c0 or c1.
   */
  lemma ExtractScriptPath(sig: seq<byte>, key: seq<byte>, control: seq<byte>, depth: nat)
    requires |sig| == 64 && |key| == 32 && |control| == 33 + 32 * depth && (control[0] == 0xc0 || control[0] == 0xc1)
    ensures ExtractSig([], [sig, [0x20] + key + [0xac], control])
            == Ok([InputSig(ScriptPathSig, sig[..32], sig[32..64], 0, Some(key), None, [],
                            Some([0x20] + key + [0xac]), Some(control))])
  {
    var leaf := [0x20] + key + [0xac];
    DivModUnique(32 * depth, 32, depth, 0);
    assert leaf[1..33] == key;
  }

  function KeyScript(m: nat, keys: seq<seq<byte>>): seq<byte>
    requires 1 <= m <= 16 && 1 <= |keys| <= 16
  {
    [0x50 + m] + Pushes(keys) + [0x50 + |keys|, 0xae]
  }

  lemma KeysOfScript(m: nat, keys: seq<seq<byte>>)
    requires 1 <= m <= 16 && 1 <= |keys| <= 16 && Pushable(keys)
    ensures ParseKeys(KeyScript(m, keys)) == Some(keys)
  {
    var script := KeyScript(m, keys);
    assert script[1..|script| - 2] == Pushes(keys);
    ParseOfPushes(keys);
  }

  ghost predicate SignaturePushes(sigs: seq<Signature>, bs: seq<seq<byte>>) {
    && |bs| == |sigs|
    && forall i :: 0 <= i < |sigs| ==> ValidSignature(sigs[i]) && SignatureBytes(sigs[i], bs[i])
  }

  function MultisigInputs(sigs: seq<Signature>, redeem: seq<byte>, keys: seq<seq<byte>>): seq<InputSig> {
    seq(|sigs|, i requires 0 <= i < |sigs| => MultisigInput(RawOf(sigs[i]), redeem, keys))
  }

  ghost predicate ParsesAll(parse: SigParser, bs: seq<seq<byte>>, sigs: seq<Signature>) {
    |bs| == |sigs| && forall i :: 0 <= i < |bs| ==> bs[i] != [] && parse(bs[i]) == Ok(RawOf(sigs[i]))
  }

  lemma {:induction false} ParseSigsOf(parse: SigParser, bs: seq<seq<byte>>, sigs: seq<Signature>,
                                       redeem: seq<byte>, keys: seq<seq<byte>>)
    requires ParsesAll(parse, bs, sigs)
    ensures ParseSigs(parse, bs, redeem, keys) == Some(MultisigInputs(sigs, redeem, keys))
  {
    if bs == [] {
      assert MultisigInputs(sigs, redeem, keys) == [];
    } else {
      var n := |bs| - 1;
      ParseSigsOf(parse, bs[..n], sigs[..n], redeem, keys);
      assert MultisigInputs(sigs, redeem, keys)
          == MultisigInputs(sigs[..n], redeem, keys) + [MultisigInput(RawOf(sigs[n]), redeem, keys)];
    }
  }

  lemma SignaturesParse(sigs: seq<Signature>, bs: seq<seq<byte>>)
    requires SignaturePushes(sigs, bs)
    ensures ParsesAll(ParseEcdsaSig, bs, sigs) && Pushable(bs)
  {
    forall i | 0 <= i < |bs|
      ensures bs[i] != [] && |bs[i]| < MAX_PUSH && ParseEcdsaSig(bs[i]) == Ok(RawOf(sigs[i]))
    {
      ParseOfDer(sigs[i].r, sigs[i].s, sigs[i].flag);
    }
  }

  lemma MultisigOfScript(pushes: seq<seq<byte>>)
    requires Pushable(pushes) && pushes != []
    ensures ParseMultisig([0] + Pushes(pushes)) == MultisigOfPushes(pushes)
  {
    assert ([0] + Pushes(pushes))[1..] == Pushes(pushes);
    ParseOfPushes(pushes);
  }

  /** A spend of an M-of-N script, with any number of signatures: every signature comes back in
      order with its 32-byte r and s, the redeem script and all N keys. */
  lemma ExtractMultisig(m: nat, keys: seq<seq<byte>>, sigs: seq<Signature>, bs: seq<seq<byte>>)
    requires 1 <= m <= 16 && 1 <= |keys| <= 16 && Pushable(keys)
    requires |KeyScript(m, keys)| < MAX_PUSH
    requires sigs != [] && SignaturePushes(sigs, bs)
    ensures var redeem := KeyScript(m, keys);
            ExtractSig([0] + Pushes(bs + [redeem]), []) == Ok(MultisigInputs(sigs, redeem, keys))
  {
    var redeem := KeyScript(m, keys);
    SignaturesParse(sigs, bs);
    MultisigOfScript(bs + [redeem]);
    KeysOfScript(m, keys);
    MultisigOfParts(bs, redeem, keys, sigs);
  }

  lemma MultisigOfParts(bs: seq<seq<byte>>, redeem: seq<byte>, keys: seq<seq<byte>>, sigs: seq<Signature>)
    requires ParseKeys(redeem) == Some(keys) && sigs != [] && ParsesAll(ParseEcdsaSig, bs, sigs)
    ensures MultisigOfPushes(bs + [redeem]) == Some(MultisigInputs(sigs, redeem, keys))
  {
    assert (bs + [redeem])[..|bs|] == bs;
    ParseSigsOf(ParseEcdsaSig, bs, sigs, redeem, keys);
  }
}
