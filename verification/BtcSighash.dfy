/**
  The messages that Bitcoin signatures commit to (btctx.go, btctxparse.go, btctx_p2tr.go).

  Hash functions are parameters: every result holds for all of them. `H` gives SHA-256 and
  RIPEMD-160; the tagged hashes of BIP-340 are built from it as the source builds them.
*/
module BtcSighash {
  import opened Bytes
  import opened Outcome
  import opened BtcWire
  import opened BtcTransaction
  import opened PushData
  import opened ScriptFormats
  import opened BtcInputSig

  type HashFn = (HashName, seq<byte>) -> seq<byte>

  function Hash256(H: HashFn, b: seq<byte>): seq<byte> {
    H(Sha256, H(Sha256, b))
  }

  function HashKey(H: HashFn, pub: seq<byte>): seq<byte> {
    H(Ripemd160, H(Sha256, pub))
  }

  /** Two transactions that differ at most in input scripts and witnesses. */
  predicate SameSkeleton(a: Tx, b: Tx) {
    Cleared(a) == Cleared(b)
  }

  // ---------------------------------------------------------------------------------------
  // Legacy
  // ---------------------------------------------------------------------------------------

  function WithScript(tx: Tx, n: nat, code: seq<byte>): Tx
    requires n < |tx.ins|
  {
    var c := Cleared(tx);
    c.(ins := c.ins[n := c.ins[n].(script := code)])
  }

  /** The message of a legacy signature: all scripts cleared but the one being signed. */
  function LegacyMessage(tx: Tx, n: nat, code: seq<byte>, flag: u32): seq<byte>
    requires n < |tx.ins|
  {
    Exported(WithScript(tx, n, code), false) + LE(4, flag)
  }

  // ---------------------------------------------------------------------------------------
  // Segwit version 0 (BIP-143)
  // ---------------------------------------------------------------------------------------

  function Outpoint(x: TxInput): seq<byte> {
    Reverse(x.txid) + LE(4, x.vout)
  }

  function Outpoints(xs: seq<TxInput>): seq<byte> {
    if xs == [] then [] else Outpoints(xs[..|xs| - 1]) + Outpoint(xs[|xs| - 1])
  }

  function Sequences(xs: seq<TxInput>): seq<byte> {
    if xs == [] then [] else Sequences(xs[..|xs| - 1]) + LE(4, xs[|xs| - 1].sequence)
  }

  function Prefix(H: HashFn, tx: Tx): seq<byte> {
    LE(4, tx.version) + Hash256(H, Outpoints(tx.ins)) + Hash256(H, Sequences(tx.ins))
  }

  function Suffix(H: HashFn, tx: Tx): seq<byte> {
    Hash256(H, OutputsBytes(tx.outs)) + LE(4, tx.locktime)
  }

  function SegwitMessage(H: HashFn, tx: Tx, n: nat, code: seq<byte>, amount: u64, flag: u32): seq<byte>
    requires n < |tx.ins|
  {
    Prefix(H, tx) + Outpoint(tx.ins[n]) + PushBytes(code) + LE(8, amount) + LE(4, tx.ins[n].sequence)
    + Suffix(H, tx) + LE(4, flag)
  }

  /** The script code of a key-hash spend. */
  function KeyHashCode(H: HashFn, pub: seq<byte>): seq<byte> {
    [0x76, 0xa9] + PushBytes(HashKey(H, pub)) + [0x88, 0xac]
  }

  // ---------------------------------------------------------------------------------------
  // Taproot (BIP-341)
  // ---------------------------------------------------------------------------------------

  datatype TapParts = TapParts(prevouts: seq<byte>, amounts: seq<byte>, scripts: seq<byte>,
                               sequences: seq<byte>, outputs: seq<byte>)

  function AmountsBytes(amounts: seq<u64>): seq<byte> {
    if amounts == [] then [] else AmountsBytes(amounts[..|amounts| - 1]) + LE(8, amounts[|amounts| - 1])
  }

  function ScriptsBytes(scripts: seq<seq<byte>>): seq<byte> {
    if scripts == [] then [] else ScriptsBytes(scripts[..|scripts| - 1]) + VarBuf(scripts[|scripts| - 1])
  }

  /** `taprootSighashPartsRaw`: fails on a wrong count and on a missing script. */
  function Parts(H: HashFn, tx: Tx, scripts: seq<seq<byte>>, amounts: seq<u64>): Option<TapParts> {
    if |scripts| != |tx.ins| || |amounts| != |tx.ins| then None
    else if [] in scripts then None
    else
      Some(TapParts(H(Sha256, Outpoints(tx.ins)), H(Sha256, AmountsBytes(amounts)),
                    H(Sha256, ScriptsBytes(scripts)), H(Sha256, Sequences(tx.ins)),
                    H(Sha256, OutputsBytes(tx.outs))))
  }

  function TagBytes(tag: string): seq<byte> {
    seq(|tag|, i requires 0 <= i < |tag| => tag[i] as int % 256)
  }

  function TaggedHash(H: HashFn, tag: string, data: seq<byte>): seq<byte> {
    H(Sha256, H(Sha256, TagBytes(tag)) + H(Sha256, TagBytes(tag)) + data)
  }

  function TapCommon(tx: Tx, parts: TapParts): seq<byte> {
    [0, 0] + LE(4, tx.version) + LE(4, tx.locktime) + parts.prevouts + parts.amounts + parts.scripts
    + parts.sequences + parts.outputs
  }

  function KeySpendMessage(tx: Tx, n: nat, parts: TapParts): seq<byte> {
    TapCommon(tx, parts) + [0] + LE(4, n)
  }

  function LeafHash(H: HashFn, leaf: seq<byte>): seq<byte> {
    TaggedHash(H, "TapLeaf", [0xc0] + VarInt(|leaf|) + leaf)
  }

  function ScriptSpendMessage(H: HashFn, tx: Tx, n: nat, parts: TapParts, leaf: seq<byte>): seq<byte> {
    TapCommon(tx, parts) + [2] + LE(4, n) + LeafHash(H, leaf) + [0] + LE(4, 0xffff_ffff)
  }

  // ---------------------------------------------------------------------------------------
  // The extractor's side
  // ---------------------------------------------------------------------------------------

  datatype SighashError = BadIndex | BadFlag | NoRedeem | NoLeaf | BadParts | BadScheme

  /** The message that `InputSighash` hashes. */
  function InputMessage(H: HashFn, tx: Tx, n: nat, sig: InputSig, prevScript: seq<byte>, amount: u64)
    : Result<seq<byte>, SighashError>
  {
    if n >= |tx.ins| then Err(BadIndex)
    else if sig.flag != 1 then Err(BadFlag)
    else
      match sig.scheme
      case KeyHashSig => Ok(LegacyMessage(tx, n, prevScript, 1))
      case MultisigSig =>
        if sig.redeem.None? then Err(NoRedeem) else Ok(LegacyMessage(tx, n, sig.redeem.value, 1))
      case WitnessKeySig =>
        var pub := if sig.pubKey.Some? then sig.pubKey.value else [];
        Ok(SegwitMessage(H, tx, n, KeyHashCode(H, pub), amount, 1))
      case _ => Err(BadScheme)
  }

  function InputSighash(H: HashFn, tx: Tx, n: nat, sig: InputSig, prevScript: seq<byte>, amount: u64)
    : Result<seq<byte>, SighashError>
  {
    match InputMessage(H, tx, n, sig, prevScript, amount)
    case Err(e) => Err(e)
    case Ok(m) => Ok(Hash256(H, m))
  }

  /** The message that `TaprootInputSighash` hashes under the TapSighash tag. */
  function TaprootInputMessage(H: HashFn, tx: Tx, n: nat, sig: InputSig, scripts: seq<seq<byte>>, amounts: seq<u64>)
    : Result<seq<byte>, SighashError>
  {
    if n >= |tx.ins| then Err(BadIndex)
    else if sig.flag != 0 then Err(BadFlag)
    else
      match Parts(H, tx, scripts, amounts)
      case None => Err(BadParts)
      case Some(parts) =>
        match sig.scheme
        case KeyPathSig => Ok(KeySpendMessage(tx, n, parts))
        case ScriptPathSig =>
          if sig.leaf.None? then Err(NoLeaf) else Ok(ScriptSpendMessage(H, tx, n, parts, sig.leaf.value))
        case _ => Err(BadScheme)
  }

  function TaprootInputSighash(H: HashFn, tx: Tx, n: nat, sig: InputSig, scripts: seq<seq<byte>>, amounts: seq<u64>)
    : Result<seq<byte>, SighashError>
  {
    match TaprootInputMessage(H, tx, n, sig, scripts, amounts)
    case Err(e) => Err(e)
    case Ok(m) => Ok(TaggedHash(H, "TapSighash", m))
  }

  // ---------------------------------------------------------------------------------------
  // What the messages do not depend on
  // ---------------------------------------------------------------------------------------

  lemma SkeletonInputs(a: Tx, b: Tx)
    requires SameSkeleton(a, b)
    ensures |a.ins| == |b.ins| && a.version == b.version && a.outs == b.outs && a.locktime == b.locktime
    ensures forall i :: 0 <= i < |a.ins| ==>
              a.ins[i].txid == b.ins[i].txid && a.ins[i].vout == b.ins[i].vout
              && a.ins[i].sequence == b.ins[i].sequence
  {
    assert |Cleared(a).ins| == |a.ins| && |Cleared(b).ins| == |b.ins|;
    forall i | 0 <= i < |a.ins|
      ensures a.ins[i].txid == b.ins[i].txid && a.ins[i].vout == b.ins[i].vout
              && a.ins[i].sequence == b.ins[i].sequence
    {
      assert Cleared(a).ins[i] == Cleared(b).ins[i];
    }
  }

  lemma {:induction false} OutpointsAgree(xs: seq<TxInput>, ys: seq<TxInput>)
    requires |xs| == |ys|
    requires forall i :: 0 <= i < |xs| ==>
               xs[i].txid == ys[i].txid && xs[i].vout == ys[i].vout && xs[i].sequence == ys[i].sequence
    ensures Outpoints(xs) == Outpoints(ys) && Sequences(xs) == Sequences(ys)
  {
    if xs != [] {
      OutpointsAgree(xs[..|xs| - 1], ys[..|ys| - 1]);
    }
  }

  /** No message depends on the scripts and witnesses that signing fills in. */
  lemma MessagesIgnoreScripts(H: HashFn, a: Tx, b: Tx)
    requires SameSkeleton(a, b)
    ensures Prefix(H, a) == Prefix(H, b) && Suffix(H, a) == Suffix(H, b)
    ensures forall scripts, amounts :: Parts(H, a, scripts, amounts) == Parts(H, b, scripts, amounts)
  {
    SkeletonInputs(a, b);
    OutpointsAgree(a.ins, b.ins);
  }

  lemma SegwitIgnoresScripts(H: HashFn, a: Tx, b: Tx, n: nat, code: seq<byte>, amount: u64, flag: u32)
    requires SameSkeleton(a, b) && n < |a.ins| == |b.ins|
    ensures SegwitMessage(H, a, n, code, amount, flag) == SegwitMessage(H, b, n, code, amount, flag)
  {
    MessagesIgnoreScripts(H, a, b);
    SkeletonInputs(a, b);
  }

  lemma LegacyIgnoresScripts(a: Tx, b: Tx, n: nat, code: seq<byte>, flag: u32)
    requires SameSkeleton(a, b) && n < |a.ins| == |b.ins|
    ensures LegacyMessage(a, n, code, flag) == LegacyMessage(b, n, code, flag)
  {
  }

  lemma KeySpendIgnoresScripts(a: Tx, b: Tx, n: nat, parts: TapParts)
    requires SameSkeleton(a, b)
    ensures KeySpendMessage(a, n, parts) == KeySpendMessage(b, n, parts)
  {
    SkeletonInputs(a, b);
  }

  // ---------------------------------------------------------------------------------------
  // The loops that build the shared parts
  // ---------------------------------------------------------------------------------------

  lemma OutpointsSnoc(xs: seq<TxInput>, i: nat)
    requires i < |xs|
    ensures Outpoints(xs[..i + 1]) == Outpoints(xs[..i]) + Outpoint(xs[i])
    ensures Sequences(xs[..i + 1]) == Sequences(xs[..i]) + LE(4, xs[i].sequence)
  {
    assert xs[..i + 1][..i] == xs[..i];
  }

  /** `preimage`: the running hashes are modelled by the bytes written to them. */
  method Preimage(H: HashFn, tx: BtcTx) returns (pfx: seq<byte>, sfx: seq<byte>)
    ensures pfx == Prefix(H, tx.Value()) && sfx == Suffix(H, tx.Value())
  {
    var inputsA, inputsB := [], [];
    var i := 0;
    while i < |tx.ins|
      invariant 0 <= i <= |tx.ins|
      invariant inputsA == Outpoints(tx.ins[..i]) && inputsB == Sequences(tx.ins[..i])
    {
      OutpointsSnoc(tx.ins, i);
      inputsA := inputsA + Outpoint(tx.ins[i]);
      inputsB := inputsB + LE(4, tx.ins[i].sequence);
      i := i + 1;
    }
    assert tx.ins[..i] == tx.ins;
    pfx := LE(4, tx.version) + H(Sha256, H(Sha256, inputsA)) + H(Sha256, H(Sha256, inputsB));
    var outputs := OutputsLoop(tx.outs);
    sfx := H(Sha256, H(Sha256, outputs)) + LE(4, tx.locktime);
  }

  lemma TapSnoc(scripts: seq<seq<byte>>, amounts: seq<u64>, i: nat)
    requires i < |scripts| && i < |amounts|
    ensures ScriptsBytes(scripts[..i + 1]) == ScriptsBytes(scripts[..i]) + VarBuf(scripts[i])
    ensures AmountsBytes(amounts[..i + 1]) == AmountsBytes(amounts[..i]) + LE(8, amounts[i])
  {
    assert scripts[..i + 1][..i] == scripts[..i];
    assert amounts[..i + 1][..i] == amounts[..i];
  }

  /** `taprootSighashPartsRaw`. */
  method TaprootParts(H: HashFn, tx: BtcTx, scripts: seq<seq<byte>>, amounts: seq<u64>) returns (r: Option<TapParts>)
    ensures r == Parts(H, tx.Value(), scripts, amounts)
  {
    if |scripts| != |tx.ins| || |amounts| != |tx.ins| {
      return None;
    }
    var i := 0;
    while i < |scripts|
      invariant 0 <= i <= |scripts|
      invariant forall j :: 0 <= j < i ==> scripts[j] != []
    {
      if scripts[i] == [] {
        return None;
      }
      i := i + 1;
    }
    var prev, amt, spk, sqn := TapLoop(tx.ins, scripts, amounts);
    var outputs := OutputsLoop(tx.outs);
    return Some(TapParts(H(Sha256, prev), H(Sha256, amt), H(Sha256, spk), H(Sha256, sqn), H(Sha256, outputs)));
  }

  /** The bytes written to the four running hashes. */
  method TapLoop(ins: seq<TxInput>, scripts: seq<seq<byte>>, amounts: seq<u64>)
    returns (prev: seq<byte>, amt: seq<byte>, spk: seq<byte>, sqn: seq<byte>)
    requires |ins| == |scripts| == |amounts|
    ensures prev == Outpoints(ins) && sqn == Sequences(ins)
    ensures amt == AmountsBytes(amounts) && spk == ScriptsBytes(scripts)
  {
    prev, amt, spk, sqn := [], [], [], [];
    var i := 0;
    while i < |ins|
      invariant 0 <= i <= |ins|
      invariant prev == Outpoints(ins[..i]) && sqn == Sequences(ins[..i])
      invariant amt == AmountsBytes(amounts[..i]) && spk == ScriptsBytes(scripts[..i])
    {
      OutpointsSnoc(ins, i);
      TapSnoc(scripts, amounts, i);
      prev := prev + Outpoint(ins[i]);
      amt := amt + LE(8, amounts[i]);
      spk := spk + VarBuf(scripts[i]);
      sqn := sqn + LE(4, ins[i].sequence);
      i := i + 1;
    }
    assert ins[..i] == ins && scripts[..i] == scripts && amounts[..i] == amounts;
  }
}
