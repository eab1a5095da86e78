/**
 * The bytes on the wire and the messages under signatures, place by place (btctx.go,
 * btctx_p2tr.go; BIP-143, BIP-144, BIP-341, BIP-342).
 */
module BtcMessages {
  import opened Bytes
  import opened Outcome
  import opened BtcWire
  import opened BtcTransaction
  import opened BtcInputSig
  import opened PushData
  import opened ScriptFormats
  import opened BtcSighash
  import opened BtcSign

  // ---------------------------------------------------------------------------------------
  // Inputs, outputs and transactions
  // ---------------------------------------------------------------------------------------

  /** The byte string of a transaction id, back to front. */
  function Backwards(txid: seq<byte>): seq<byte>
    requires |txid| == 32
  {
    seq(32, i requires 0 <= i < 32 => txid[31 - i])
  }

  predicate Ids(xs: seq<TxInput>) {
    forall i :: 0 <= i < |xs| ==> |xs[i].txid| == 32
  }

  /** Where an input comes from: 36 bytes. */
  function OutpointPieces(xs: seq<TxInput>): seq<seq<byte>>
    requires Ids(xs)
  {
    seq(|xs|, i requires 0 <= i < |xs| => Backwards(xs[i].txid) + LE(4, xs[i].vout))
  }

  function SequencePieces(xs: seq<TxInput>): seq<seq<byte>> {
    seq(|xs|, i requires 0 <= i < |xs| => LE(4, xs[i].sequence))
  }

  function InputPiece(x: TxInput): seq<byte>
    requires |x.txid| == 32
  {
    Backwards(x.txid) + LE(4, x.vout) + VarInt(|x.script|) + x.script + LE(4, x.sequence)
  }

  function InputPieces(xs: seq<TxInput>): seq<seq<byte>>
    requires Ids(xs)
  {
    seq(|xs|, i requires 0 <= i < |xs| => InputPiece(xs[i]))
  }

  function OutputPiece(o: TxOutput): seq<byte> {
    LE(8, o.amount) + VarInt(|o.script|) + o.script
  }

  function OutputPieces(os: seq<TxOutput>): seq<seq<byte>> {
    seq(|os|, i requires 0 <= i < |os| => OutputPiece(os[i]))
  }

  /** A counted string: its length, then its bytes. */
  function Counted(b: seq<byte>): seq<byte> {
    VarInt(|b|) + b
  }

  function CountedPieces(bs: seq<seq<byte>>): seq<seq<byte>> {
    seq(|bs|, i requires 0 <= i < |bs| => Counted(bs[i]))
  }

  function StackPiece(x: TxInput): seq<byte> {
    VarInt(|x.witnesses|) + Flat(CountedPieces(x.witnesses))
  }

  function StackPieces(xs: seq<TxInput>): seq<seq<byte>> {
    seq(|xs|, i requires 0 <= i < |xs| => StackPiece(xs[i]))
  }

  function AmountPieces(amounts: seq<u64>): seq<seq<byte>> {
    seq(|amounts|, i requires 0 <= i < |amounts| => LE(8, amounts[i]))
  }

  /** The variable-length integer, form by form. */
  lemma VarIntIs(v: nat)
    ensures v < 0xfd ==> VarInt(v) == [v]
    ensures 0xfd <= v < 0x1_0000 ==> VarInt(v) == [0xfd] + LE(2, v)
    ensures 0x1_0000 <= v < 0x1_0000_0000 ==> VarInt(v) == [0xfe] + LE(4, v)
    ensures 0x1_0000_0000 <= v ==> VarInt(v) == [0xff] + LE(8, v)
  {
  }

  lemma {:induction false} OutpointsAre(xs: seq<TxInput>)
    requires Ids(xs)
    ensures Outpoints(xs) == Flat(OutpointPieces(xs))
  {
    if xs != [] {
      var n := |xs| - 1;
      OutpointsAre(xs[..n]);
      assert Reverse(xs[n].txid) == Backwards(xs[n].txid);
      assert OutpointPieces(xs) == OutpointPieces(xs[..n]) + [Outpoint(xs[n])];
      FlatSnoc(OutpointPieces(xs[..n]), Outpoint(xs[n]));
    }
  }

  lemma {:induction false} SequencesAre(xs: seq<TxInput>)
    ensures Sequences(xs) == Flat(SequencePieces(xs))
  {
    if xs != [] {
      var n := |xs| - 1;
      SequencesAre(xs[..n]);
      assert SequencePieces(xs) == SequencePieces(xs[..n]) + [LE(4, xs[n].sequence)];
      FlatSnoc(SequencePieces(xs[..n]), LE(4, xs[n].sequence));
    }
  }

  lemma InputIs(x: TxInput)
    requires |x.txid| == 32
    ensures InputBytes(x) == InputPiece(x)
  {
    assert Reverse(x.txid) == Backwards(x.txid);
    Associates(Backwards(x.txid) + LE(4, x.vout), VarInt(|x.script|), x.script);
  }

  lemma InputPiecesSnoc(xs: seq<TxInput>)
    requires xs != [] && Ids(xs)
    ensures Flat(InputPieces(xs)) == Flat(InputPieces(xs[..|xs| - 1])) + InputPiece(xs[|xs| - 1])
  {
    var n := |xs| - 1;
    assert InputPieces(xs) == InputPieces(xs[..n]) + [InputPiece(xs[n])];
    FlatSnoc(InputPieces(xs[..n]), InputPiece(xs[n]));
  }

  lemma {:induction false} InputsAre(xs: seq<TxInput>)
    requires Ids(xs)
    ensures InputsBytes(xs) == Flat(InputPieces(xs))
  {
    if xs != [] {
      var n := |xs| - 1;
      InputsAre(xs[..n]);
      InputIs(xs[n]);
      InputPiecesSnoc(xs);
    }
  }

  lemma OutputIs(o: TxOutput)
    ensures OutputBytes(o) == OutputPiece(o)
  {
    Associates(LE(8, o.amount), VarInt(|o.script|), o.script);
  }

  lemma OutputPiecesSnoc(os: seq<TxOutput>)
    requires os != []
    ensures Flat(OutputPieces(os)) == Flat(OutputPieces(os[..|os| - 1])) + OutputPiece(os[|os| - 1])
  {
    var n := |os| - 1;
    assert OutputPieces(os) == OutputPieces(os[..n]) + [OutputPiece(os[n])];
    FlatSnoc(OutputPieces(os[..n]), OutputPiece(os[n]));
  }

  lemma {:induction false} OutputsAre(os: seq<TxOutput>)
    ensures OutputsBytes(os) == Flat(OutputPieces(os))
  {
    if os != [] {
      OutputsAre(os[..|os| - 1]);
      OutputIs(os[|os| - 1]);
      OutputPiecesSnoc(os);
    }
  }

  lemma CountedPiecesSnoc(bs: seq<seq<byte>>)
    requires bs != []
    ensures Flat(CountedPieces(bs)) == Flat(CountedPieces(bs[..|bs| - 1])) + VarBuf(bs[|bs| - 1])
  {
    var n := |bs| - 1;
    assert CountedPieces(bs) == CountedPieces(bs[..n]) + [Counted(bs[n])];
    FlatSnoc(CountedPieces(bs[..n]), Counted(bs[n]));
  }

  lemma {:induction false} ItemsAre(ws: seq<seq<byte>>)
    ensures ItemsBytes(ws) == Flat(CountedPieces(ws))
  {
    if ws != [] {
      ItemsAre(ws[..|ws| - 1]);
      CountedPiecesSnoc(ws);
    }
  }

  lemma StackIs(x: TxInput)
    ensures StackBytes(x.witnesses) == StackPiece(x)
  {
    ItemsAre(x.witnesses);
  }

  lemma StackPiecesSnoc(xs: seq<TxInput>)
    requires xs != []
    ensures Flat(StackPieces(xs)) == Flat(StackPieces(xs[..|xs| - 1])) + StackPiece(xs[|xs| - 1])
  {
    var n := |xs| - 1;
    assert StackPieces(xs) == StackPieces(xs[..n]) + [StackPiece(xs[n])];
    FlatSnoc(StackPieces(xs[..n]), StackPiece(xs[n]));
  }

  lemma {:induction false} StacksAre(xs: seq<TxInput>)
    ensures StacksBytes(xs) == Flat(StackPieces(xs))
  {
    if xs != [] {
      StacksAre(xs[..|xs| - 1]);
      StackIs(xs[|xs| - 1]);
      StackPiecesSnoc(xs);
    }
  }

  /** Both wire forms, piece by piece: ids back to front, marker and flag, stacks before the lock time. */
  lemma TxLayout(tx: Tx)
    requires Ids(tx.ins)
    ensures Exported(tx, false)
         == LE(4, tx.version) + VarInt(|tx.ins|) + Flat(InputPieces(tx.ins))
            + VarInt(|tx.outs|) + Flat(OutputPieces(tx.outs)) + LE(4, tx.locktime)
    ensures Exported(tx, true)
         == LE(4, tx.version) + [0x00, 0x01] + VarInt(|tx.ins|) + Flat(InputPieces(tx.ins))
            + VarInt(|tx.outs|) + Flat(OutputPieces(tx.outs)) + Flat(StackPieces(tx.ins)) + LE(4, tx.locktime)
  {
    InputsAre(tx.ins);
    OutputsAre(tx.outs);
    StacksAre(tx.ins);
    ExportedFlat(tx, false);
    ExportedFlat(tx, true);
  }

  // ---------------------------------------------------------------------------------------
  // Segwit version 0
  // ---------------------------------------------------------------------------------------

  ghost predicate Wide(H: HashFn) {
    forall b: seq<byte> :: |H(Sha256, b)| == 32
  }

  /** The message of BIP-143 for input n, place by place. */
  ghost predicate Bip143(H: HashFn, tx: Tx, n: nat, code: seq<byte>, amount: u64, flag: u32, m: seq<byte>)
    requires n < |tx.ins| && Ids(tx.ins)
  {
    var p := 104 + |PushBytes(code)|;
    && |m| == p + 52
    && m[..4] == LE(4, tx.version)
    && m[4..36] == H(Sha256, H(Sha256, Flat(OutpointPieces(tx.ins))))
    && m[36..68] == H(Sha256, H(Sha256, Flat(SequencePieces(tx.ins))))
    && m[68..104] == OutpointPieces(tx.ins)[n]
    && m[104..p] == PushBytes(code)
    && m[p..p + 8] == LE(8, amount)
    && m[p + 8..p + 12] == SequencePieces(tx.ins)[n]
    && m[p + 12..p + 44] == H(Sha256, H(Sha256, Flat(OutputPieces(tx.outs))))
    && m[p + 44..p + 48] == LE(4, tx.locktime)
    && m[p + 48..] == LE(4, flag)
  }

  /** Ten parts of known widths, by place. */
  lemma TenParts(a: seq<byte>, b: seq<byte>, c: seq<byte>, d: seq<byte>, e: seq<byte>,
                 f: seq<byte>, g: seq<byte>, h: seq<byte>, i: seq<byte>, j: seq<byte>, m: seq<byte>)
    requires |a| == |g| == |i| == |j| == 4 && |b| == |c| == |h| == 32 && |d| == 36 && |f| == 8
    requires m == (a + b + c) + d + e + f + g + (h + i) + j
    ensures var p := 104 + |e|;
            && |m| == p + 52 && m[..4] == a && m[4..36] == b && m[36..68] == c && m[68..104] == d && m[104..p] == e
            && m[p..p + 8] == f && m[p + 8..p + 12] == g && m[p + 12..p + 44] == h && m[p + 44..p + 48] == i
            && m[p + 48..] == j
  {
  }

  lemma SegwitLayout(H: HashFn, tx: Tx, n: nat, code: seq<byte>, amount: u64, flag: u32)
    requires n < |tx.ins| && Ids(tx.ins) && Wide(H)
    ensures Bip143(H, tx, n, code, amount, flag, SegwitMessage(H, tx, n, code, amount, flag))
  {
    OutpointsAre(tx.ins);
    SequencesAre(tx.ins);
    OutputsAre(tx.outs);
    assert Reverse(tx.ins[n].txid) == Backwards(tx.ins[n].txid);
    TenParts(LE(4, tx.version), Hash256(H, Outpoints(tx.ins)), Hash256(H, Sequences(tx.ins)), Outpoint(tx.ins[n]),
             PushBytes(code), LE(8, amount), LE(4, tx.ins[n].sequence), Hash256(H, OutputsBytes(tx.outs)),
             LE(4, tx.locktime), LE(4, flag), SegwitMessage(H, tx, n, code, amount, flag));
  }

  /**
   * What a signer is handed for a segwit input, or for a key-hash input with the fork id: the double
   * hash of the BIP-143 message with the plain key-hash script of the key as its code. The witness
   * or the script holds the answer with the flag byte behind it.
   */
  lemma SignedKeyHash(H: HashFn, before: Tx, keys: seq<Key>, after: Tx, n: nat)
      returns (m: seq<byte>, pub: seq<byte>, der: seq<byte>)
    requires |before.ins| == |keys| && SignedUpTo(H, before, keys, |keys|, after) && n < |keys|
    requires Ids(before.ins) && Wide(H)
    requires keys[n].scheme.SP2wpkh? || keys[n].scheme.SP2shP2wpkh?
          || ((keys[n].scheme.SP2pkh? || keys[n].scheme.SP2pukh?) && ForkId(Flag(keys[n])))
    ensures var k, x := keys[n], after.ins[n];
            && Eval(k.env, PubName(k.scheme)) == Some(pub)
            && Bip143(H, before, n, [0x76, 0xa9] + PushBytes(H(Ripemd160, H(Sha256, pub))) + [0x88, 0xac],
                      k.amount, Flag(k), m)
            && k.sign(n, H(Sha256, H(Sha256, m))) == Some(der)
            && if k.scheme.SP2wpkh? || k.scheme.SP2shP2wpkh? then x.witnesses == [der + [Flag(k) % 256], pub]
               else x.script == PushBytes(der + [Flag(k) % 256]) + PushBytes(pub)
                    && x.witnesses == before.ins[n].witnesses
  {
    var k := keys[n];
    assert SignInput(H, before, keys, n) == Ok(after.ins[n]);
    pub := Eval(k.env, PubName(k.scheme)).value;
    m := SegwitMessage(H, before, n, KeyHashCode(H, pub), k.amount, Flag(k));
    SegwitLayout(H, before, n, KeyHashCode(H, pub), k.amount, Flag(k));
    der := k.sign(n, Hash256(H, m)).value;
  }

  /** What signing wrote for a witness script, named or detected, and what it signed. */
  lemma WitnessScriptWritten(H: HashFn, before: Tx, keys: seq<Key>, after: Tx, n: nat)
      returns (inner: Inner, ws: seq<byte>, der: seq<byte>)
    requires |before.ins| == |keys| && SignedUpTo(H, before, keys, |keys|, after) && n < |keys|
    requires keys[n].scheme.SP2wsh? || keys[n].scheme.SP2wshInner?
    ensures Eval(keys[n].env, InnerName(inner)) == Some(ws)
    ensures keys[n].scheme.SP2wshInner? ==> inner == keys[n].scheme.inner
    ensures keys[n].sign(n, Hash256(H, SegwitMessage(H, before, n, ws, keys[n].amount, Flag(keys[n])))) == Some(der)
    ensures PlaceScriptHash(before.ins[n], keys[n].env, inner, der + [Flag(keys[n]) % 256], ws) == Ok(after.ins[n])
  {
    var k := keys[n];
    assert SignInput(H, before, keys, n) == Ok(after.ins[n]);
    inner := if k.scheme.SP2wsh? then DetectInner(H, k.env, before.ins[n].script, CANDIDATES).value
             else k.scheme.inner;
    ws := Eval(k.env, InnerName(inner)).value;
    der := k.sign(n, Hash256(H, SegwitMessage(H, before, n, ws, k.amount, Flag(k)))).value;
  }

  lemma PlacedWitness(x: TxInput, env: Env, inner: Inner, sig: seq<byte>, ws: seq<byte>)
    requires PlaceScriptHash(x, env, inner, sig, ws).Ok?
    ensures var y := PlaceScriptHash(x, env, inner, sig, ws).value;
            |y.witnesses| >= 2 && y.witnesses[0] == sig && y.witnesses[|y.witnesses| - 1] == ws && y.script == []
  {
  }

  /** The same for a witness script, which is the code and the last witness item. */
  lemma SignedWitnessScript(H: HashFn, before: Tx, keys: seq<Key>, after: Tx, n: nat)
      returns (m: seq<byte>, inner: Inner, ws: seq<byte>, der: seq<byte>)
    requires |before.ins| == |keys| && SignedUpTo(H, before, keys, |keys|, after) && n < |keys|
    requires Ids(before.ins) && Wide(H) && (keys[n].scheme.SP2wsh? || keys[n].scheme.SP2wshInner?)
    ensures var k, x := keys[n], after.ins[n];
            && Eval(k.env, InnerName(inner)) == Some(ws) && (k.scheme.SP2wshInner? ==> inner == k.scheme.inner)
            && Bip143(H, before, n, ws, k.amount, Flag(k), m)
            && k.sign(n, H(Sha256, H(Sha256, m))) == Some(der)
            && |x.witnesses| >= 2 && x.witnesses[0] == der + [Flag(k) % 256]
            && x.witnesses[|x.witnesses| - 1] == ws && x.script == []
  {
    var k := keys[n];
    inner, ws, der := WitnessScriptWritten(H, before, keys, after, n);
    m := SegwitMessage(H, before, n, ws, k.amount, Flag(k));
    SegwitLayout(H, before, n, ws, k.amount, Flag(k));
    PlacedWitness(before.ins[n], k.env, inner, der + [Flag(k) % 256], ws);
  }

  // ---------------------------------------------------------------------------------------
  // Legacy
  // ---------------------------------------------------------------------------------------

  /** The transaction with all scripts out but one. */
  function OnlyScript(tx: Tx, n: nat, code: seq<byte>): Tx
    requires n < |tx.ins|
  {
    tx.(ins := seq(|tx.ins|, i requires 0 <= i < |tx.ins| =>
                     tx.ins[i].(script := if i == n then code else [], witnesses := [])))
  }

  /** The legacy message: that transaction on the wire, and the flag in four bytes. */
  lemma LegacyLayout(tx: Tx, n: nat, code: seq<byte>, flag: u32)
    requires n < |tx.ins| && Ids(tx.ins)
    ensures var t := OnlyScript(tx, n, code);
            && Ids(t.ins)
            && LegacyMessage(tx, n, code, flag)
               == LE(4, tx.version) + VarInt(|tx.ins|) + Flat(InputPieces(t.ins))
                  + VarInt(|tx.outs|) + Flat(OutputPieces(tx.outs)) + LE(4, tx.locktime) + LE(4, flag)
               == LegacyBytes(tx, n, code, flag)
  {
    var t := OnlyScript(tx, n, code);
    assert WithScript(tx, n, code).ins == t.ins;
    assert WithScript(tx, n, code) == t;
    TxLayout(t);
  }

  /** The bytes of a legacy message. */
  function LegacyBytes(tx: Tx, n: nat, code: seq<byte>, flag: u32): seq<byte>
    requires n < |tx.ins| && Ids(tx.ins)
  {
    LE(4, tx.version) + VarInt(|tx.ins|) + Flat(InputPieces(OnlyScript(tx, n, code).ins))
    + VarInt(|tx.outs|) + Flat(OutputPieces(tx.outs)) + LE(4, tx.locktime) + LE(4, flag)
  }

  /** What a signer is handed for a legacy input: the double hash of those bytes, with the output script as code. */
  lemma SignedLegacy(H: HashFn, before: Tx, keys: seq<Key>, after: Tx, n: nat)
      returns (code: seq<byte>, der: seq<byte>)
    requires |before.ins| == |keys| && SignedUpTo(H, before, keys, |keys|, after) && n < |keys| && Ids(before.ins)
    requires keys[n].scheme.SP2pk?
          || ((keys[n].scheme.SP2pkh? || keys[n].scheme.SP2pukh?) && !ForkId(Flag(keys[n])))
    ensures var k, x := keys[n], after.ins[n];
            && Eval(k.env, if k.scheme.SP2pk? then P2pk else CodeName(k.scheme)) == Some(code)
            && k.sign(n, H(Sha256, H(Sha256, LegacyBytes(before, n, code, Flag(k))))) == Some(der)
            && if k.scheme.SP2pk? then x.script == PushBytes(der + [Flag(k) % 256])
               else exists pub :: Eval(k.env, PubName(k.scheme)) == Some(pub)
                                  && x.script == PushBytes(der + [Flag(k) % 256]) + PushBytes(pub)
  {
    var k := keys[n];
    assert SignInput(H, before, keys, n) == Ok(after.ins[n]);
    code := Eval(k.env, if k.scheme.SP2pk? then P2pk else CodeName(k.scheme)).value;
    LegacyLayout(before, n, code, Flag(k));
    der := k.sign(n, Hash256(H, LegacyMessage(before, n, code, Flag(k)))).value;
    if !k.scheme.SP2pk? {
      var pub := Eval(k.env, PubName(k.scheme)).value;
    }
  }

  /** What the extractor recomputes for the schemes before taproot, always with flag 1. */
  lemma RecomputedSighash(H: HashFn, tx: Tx, n: nat, sig: InputSig, prevScript: seq<byte>, amount: u64)
      returns (m: seq<byte>)
    requires Ids(tx.ins) && Wide(H) && InputSighash(H, tx, n, sig, prevScript, amount).Ok?
    ensures n < |tx.ins| && InputSighash(H, tx, n, sig, prevScript, amount) == Ok(H(Sha256, H(Sha256, m)))
    ensures sig.scheme.KeyHashSig? ==> m == LegacyBytes(tx, n, prevScript, 1)
    ensures sig.scheme.MultisigSig? ==> sig.redeem.Some? && m == LegacyBytes(tx, n, sig.redeem.value, 1)
    ensures !sig.scheme.KeyHashSig? && !sig.scheme.MultisigSig? ==>
              var pub := if sig.pubKey.Some? then sig.pubKey.value else [];
              Bip143(H, tx, n, [0x76, 0xa9] + PushBytes(H(Ripemd160, H(Sha256, pub))) + [0x88, 0xac], amount, 1, m)
  {
    m := InputMessage(H, tx, n, sig, prevScript, amount).value;
    if sig.scheme.KeyHashSig? {
      LegacyLayout(tx, n, prevScript, 1);
    } else if sig.scheme.MultisigSig? {
      LegacyLayout(tx, n, sig.redeem.value, 1);
    } else {
      var pub := if sig.pubKey.Some? then sig.pubKey.value else [];
      SegwitLayout(H, tx, n, KeyHashCode(H, pub), amount, 1);
    }
  }

  // ---------------------------------------------------------------------------------------
  // Taproot
  // ---------------------------------------------------------------------------------------

  lemma {:induction false} AmountsAre(amounts: seq<u64>)
    ensures AmountsBytes(amounts) == Flat(AmountPieces(amounts))
  {
    if amounts != [] {
      var n := |amounts| - 1;
      AmountsAre(amounts[..n]);
      assert AmountPieces(amounts) == AmountPieces(amounts[..n]) + [LE(8, amounts[n])];
      FlatSnoc(AmountPieces(amounts[..n]), LE(8, amounts[n]));
    }
  }

  lemma {:induction false} ScriptsAre(scripts: seq<seq<byte>>)
    ensures ScriptsBytes(scripts) == Flat(CountedPieces(scripts))
  {
    if scripts != [] {
      ScriptsAre(scripts[..|scripts| - 1]);
      CountedPiecesSnoc(scripts);
    }
  }

  /** What both taproot messages begin with: epoch 0, type 0, version, lock time and five hashes. */
  ghost predicate Bip341Front(H: HashFn, tx: Tx, scripts: seq<seq<byte>>, amounts: seq<u64>, m: seq<byte>)
    requires Ids(tx.ins)
  {
    && |m| >= 175
    && m[0] == 0x00 && m[1] == 0x00
    && m[2..6] == LE(4, tx.version)
    && m[6..10] == LE(4, tx.locktime)
    && m[10..42] == H(Sha256, Flat(OutpointPieces(tx.ins)))
    && m[42..74] == H(Sha256, Flat(AmountPieces(amounts)))
    && m[74..106] == H(Sha256, Flat(CountedPieces(scripts)))
    && m[106..138] == H(Sha256, Flat(SequencePieces(tx.ins)))
    && m[138..170] == H(Sha256, Flat(OutputPieces(tx.outs)))
  }

  /** The key-path message of BIP-341. */
  ghost predicate Bip341Key(H: HashFn, tx: Tx, n: nat, scripts: seq<seq<byte>>, amounts: seq<u64>, m: seq<byte>)
    requires Ids(tx.ins)
  {
    Bip341Front(H, tx, scripts, amounts, m) && |m| == 175 && m[170] == 0x00 && m[171..] == LE(4, n)
  }

  /** The script-path message of BIP-342, with the hash of the leaf. */
  ghost predicate Bip342Leaf(H: HashFn, tx: Tx, n: nat, scripts: seq<seq<byte>>, amounts: seq<u64>,
                             leaf: seq<byte>, m: seq<byte>)
    requires Ids(tx.ins)
  {
    && Bip341Front(H, tx, scripts, amounts, m) && |m| == 212
    && m[170] == 0x02 && m[171..175] == LE(4, n)
    && m[175..207] == TagDigest(H, TAP_LEAF, [0xc0] + VarInt(|leaf|) + leaf)
    && m[207] == 0x00 && m[208..] == [0xff, 0xff, 0xff, 0xff]
  }

  /** The tags in ASCII. */
  const TAP_SIGHASH: seq<byte> := [0x54, 0x61, 0x70, 0x53, 0x69, 0x67, 0x68, 0x61, 0x73, 0x68]
  const TAP_LEAF: seq<byte> := [0x54, 0x61, 0x70, 0x4c, 0x65, 0x61, 0x66]

  /** A tagged hash: the hash of the tag twice, then the data, hashed. */
  function TagDigest(H: HashFn, tag: seq<byte>, data: seq<byte>): seq<byte> {
    H(Sha256, H(Sha256, tag) + H(Sha256, tag) + data)
  }

  lemma TagsAre(H: HashFn, data: seq<byte>)
    ensures TaggedHash(H, "TapSighash", data) == TagDigest(H, TAP_SIGHASH, data)
    ensures TaggedHash(H, "TapLeaf", data) == TagDigest(H, TAP_LEAF, data)
  {
    assert TagBytes("TapSighash") == TAP_SIGHASH;
    assert TagBytes("TapLeaf") == TAP_LEAF;
  }

  lemma FrontParts(a: seq<byte>, b: seq<byte>, c: seq<byte>, d: seq<byte>, e: seq<byte>, f: seq<byte>, g: seq<byte>,
                   rest: seq<byte>, m: seq<byte>)
    requires |a| == |b| == 4 && |c| == |d| == |e| == |f| == |g| == 32
    requires m == ([0, 0] + a + b + c + d + e + f + g) + rest
    ensures |m| == 170 + |rest| && m[0] == 0 && m[1] == 0 && m[2..6] == a && m[6..10] == b && m[10..42] == c
    ensures m[42..74] == d && m[74..106] == e && m[106..138] == f && m[138..170] == g && m[170..] == rest
  {
  }

  lemma FrontLayout(H: HashFn, tx: Tx, scripts: seq<seq<byte>>, amounts: seq<u64>, rest: seq<byte>)
    requires Ids(tx.ins) && Wide(H) && Parts(H, tx, scripts, amounts).Some? && |rest| >= 5
    ensures var m := TapCommon(tx, Parts(H, tx, scripts, amounts).value) + rest;
            Bip341Front(H, tx, scripts, amounts, m) && |m| == 170 + |rest| && m[170..] == rest
  {
    OutpointsAre(tx.ins);
    SequencesAre(tx.ins);
    OutputsAre(tx.outs);
    AmountsAre(amounts);
    ScriptsAre(scripts);
    var p := Parts(H, tx, scripts, amounts).value;
    FrontParts(LE(4, tx.version), LE(4, tx.locktime), p.prevouts, p.amounts, p.scripts, p.sequences, p.outputs,
               rest, TapCommon(tx, p) + rest);
  }

  lemma KeyPathLayout(H: HashFn, tx: Tx, n: nat, scripts: seq<seq<byte>>, amounts: seq<u64>)
    requires Ids(tx.ins) && Wide(H) && Parts(H, tx, scripts, amounts).Some?
    ensures Bip341Key(H, tx, n, scripts, amounts, KeySpendMessage(tx, n, Parts(H, tx, scripts, amounts).value))
  {
    var p, rest := Parts(H, tx, scripts, amounts).value, [0x00] + LE(4, n);
    FrontLayout(H, tx, scripts, amounts, rest);
    Associates(TapCommon(tx, p), [0x00], LE(4, n));
    var m := TapCommon(tx, p) + rest;
    assert m[170] == rest[0] && m[171..] == rest[1..] == LE(4, n);
  }

  lemma ScriptPathLayout(H: HashFn, tx: Tx, n: nat, scripts: seq<seq<byte>>, amounts: seq<u64>, leaf: seq<byte>)
    requires Ids(tx.ins) && Wide(H) && Parts(H, tx, scripts, amounts).Some?
    ensures Bip342Leaf(H, tx, n, scripts, amounts, leaf,
                       ScriptSpendMessage(H, tx, n, Parts(H, tx, scripts, amounts).value, leaf))
  {
    var p, hash := Parts(H, tx, scripts, amounts).value, LeafHash(H, leaf);
    var end := LE(4, 0xffff_ffff);
    TagsAre(H, [0xc0] + VarInt(|leaf|) + leaf);
    var rest := [0x02] + LE(4, n) + hash + [0x00] + end;
    FrontLayout(H, tx, scripts, amounts, rest);
    SplitRest(TapCommon(tx, p), LE(4, n), hash, end);
    AllOnes();
    RestPlaces(TapCommon(tx, p) + rest, LE(4, n), hash, end);
  }

  lemma AllOnes()
    ensures LE(4, 0xffff_ffff) == [0xff, 0xff, 0xff, 0xff]
  {
    assert LE(4, 0xffff_ffff) == [0xff] + LE(3, 0xff_ffff);
    assert LE(3, 0xff_ffff) == [0xff] + LE(2, 0xffff);
    assert LE(2, 0xffff) == [0xff] + LE(1, 0xff);
  }

  lemma SplitRest(front: seq<byte>, a: seq<byte>, hash: seq<byte>, end: seq<byte>)
    ensures front + [0x02] + a + hash + [0x00] + end == front + ([0x02] + a + hash + [0x00] + end)
  {
  }

  lemma RestPlaces(m: seq<byte>, a: seq<byte>, hash: seq<byte>, end: seq<byte>)
    requires |m| == 212 && |a| == |end| == 4 && |hash| == 32 && m[170..] == [0x02] + a + hash + [0x00] + end
    ensures m[170] == 0x02 && m[171..175] == a && m[175..207] == hash && m[207] == 0x00 && m[208..] == end
  {
    var rest := m[170..];
    assert m[171..175] == rest[1..5] && m[175..207] == rest[5..37] && m[207] == rest[37] && m[208..] == rest[38..];
  }

  lemma IndexShows(i: nat, j: nat)
    requires i < 0x1_0000_0000 && j < 0x1_0000_0000
    ensures LE(4, i) == LE(4, j) <==> i == j
  {
    Widths();
    FromLEOfLE(4, i);
    FromLEOfLE(4, j);
  }

  /** No two inputs of a transaction share a taproot message, on either path. */
  lemma MessagesApart(H: HashFn, tx: Tx, i: nat, j: nat, scripts: seq<seq<byte>>, amounts: seq<u64>, leaf: seq<byte>)
    requires Ids(tx.ins) && Wide(H) && Parts(H, tx, scripts, amounts).Some?
    requires i < 0x1_0000_0000 && j < 0x1_0000_0000
    ensures var p := Parts(H, tx, scripts, amounts).value;
            && (KeySpendMessage(tx, i, p) == KeySpendMessage(tx, j, p) <==> i == j)
            && (ScriptSpendMessage(H, tx, i, p, leaf) == ScriptSpendMessage(H, tx, j, p, leaf) <==> i == j)
            && KeySpendMessage(tx, i, p) != ScriptSpendMessage(H, tx, j, p, leaf)
  {
    KeyPathLayout(H, tx, i, scripts, amounts);
    KeyPathLayout(H, tx, j, scripts, amounts);
    ScriptPathLayout(H, tx, i, scripts, amounts, leaf);
    ScriptPathLayout(H, tx, j, scripts, amounts, leaf);
    IndexShows(i, j);
  }

  /** What a taproot signer is handed: the TapSighash digest of the key-path message of its input. */
  lemma SignedTaproot(H: HashFn, before: Tx, keys: seq<Key>, after: Tx, n: nat)
      returns (m: seq<byte>, sig: seq<byte>)
    requires |before.ins| == |keys| && SignedUpTo(H, before, keys, |keys|, after) && n < |keys|
    requires Ids(before.ins) && Wide(H) && keys[n].scheme.SP2tr?
    ensures Bip341Key(H, before, n, PrevScripts(keys), Amounts(keys), m)
    ensures keys[n].tapSign(n, TagDigest(H, TAP_SIGHASH, m)) == Some(sig) && |sig| == 64
    ensures after.ins[n].witnesses == [sig] && after.ins[n].script == []
  {
    var k := keys[n];
    assert SignInput(H, before, keys, n) == Ok(after.ins[n]);
    var parts := Parts(H, before, PrevScripts(keys), Amounts(keys)).value;
    m := KeySpendMessage(before, n, parts);
    KeyPathLayout(H, before, n, PrevScripts(keys), Amounts(keys));
    TagsAre(H, m);
    sig := k.tapSign(n, TapDigest(H, before, n, parts)).value;
  }

  /** What the extractor recomputes, on both paths. */
  lemma RecomputedTaproot(H: HashFn, tx: Tx, n: nat, sig: InputSig, scripts: seq<seq<byte>>, amounts: seq<u64>)
      returns (m: seq<byte>)
    requires Ids(tx.ins) && Wide(H) && TaprootInputSighash(H, tx, n, sig, scripts, amounts).Ok?
    ensures TaprootInputSighash(H, tx, n, sig, scripts, amounts) == Ok(TagDigest(H, TAP_SIGHASH, m))
    ensures if sig.scheme.KeyPathSig? then Bip341Key(H, tx, n, scripts, amounts, m)
            else sig.leaf.Some? && Bip342Leaf(H, tx, n, scripts, amounts, sig.leaf.value, m)
  {
    m := TaprootInputMessage(H, tx, n, sig, scripts, amounts).value;
    TagsAre(H, m);
    if sig.scheme.KeyPathSig? {
      KeyPathLayout(H, tx, n, scripts, amounts);
    } else {
      ScriptPathLayout(H, tx, n, scripts, amounts, sig.leaf.value);
    }
  }
}
