/**
  Signing a transaction (btctx.go, btctx_p2tr.go) and recognising the result.

  `SignInput` says what one input becomes, as a function of the transaction before signing.
  `Sign` is the loop: it overwrites inputs one after the other, caches the segwit and taproot
  parts on first use and keeps a scratch copy for legacy messages, and still gives every input
  exactly what `SignInput` says.
*/
module BtcSign {
  import opened Arith
  import opened Bytes
  import opened Outcome
  import opened BtcWire
  import opened BtcTransaction
  import opened PushData
  import opened ScriptFormats
  import opened BtcSighash

  datatype Inner = InP2pkh | InP2pk | InP2pukh | InP2puk

  datatype Scheme =
    | SP2pk | SP2pkh | SP2pukh | SP2wpkh | SP2shP2wpkh
    | SP2wsh | SP2wshInner(inner: Inner)
    | SP2tr | SUnsupported

  /** One entry of the key list. The signers may answer differently at every input, as random
      nonces make them do; they may also fail. `tapSign` is a TaprootSigner, or the built-in
      BIP-340 signer, which always gives 64 bytes. */
  datatype Key = Key(env: Env, sign: (nat, seq<byte>) -> Option<seq<byte>>,
                     tapSign: (nat, seq<byte>) -> Option<seq<byte>>,
                     scheme: Scheme, amount: u64, sigHash: u32, prevScript: seq<byte>)

  datatype SignError =
    | WrongKeyCount | BadSigHash | NoScript | SignerFailed | NoTaprootParts | BadTaprootSig | UnsupportedScheme

  /** The flag after the default: SIGHASH_ALL unless the scheme is p2tr. */
  function Flag(k: Key): u32 {
    if !k.scheme.SP2tr? && k.sigHash == 0 then 1 else k.sigHash
  }

  /** Low five bits 1 and no ANYONECANPAY; the fork-id bit and higher bits are let through. */
  predicate AllowedFlag(f: u32) {
    f % 32 == 1 && f / 128 % 2 == 0
  }

  predicate ForkId(f: u32) {
    f / 64 % 2 == 1
  }

  function InnerName(i: Inner): Name {
    match i
    case InP2pkh => P2pkh
    case InP2pk => P2pk
    case InP2pukh => P2pukh
    case InP2puk => P2puk
  }

  // ---------------------------------------------------------------------------------------
  // One input
  // ---------------------------------------------------------------------------------------

  /** Signing fills in the script and the witness of an input and nothing else. */
  predicate Refills(x: TxInput, y: TxInput) {
    y.txid == x.txid && y.vout == x.vout && y.sequence == x.sequence
  }

  /** The signature over a message, with the flag byte. */
  function SignMessage(H: HashFn, k: Key, n: nat, message: seq<byte>): Option<seq<byte>> {
    match k.sign(n, Hash256(H, message))
    case None => None
    case Some(sig) => Some(sig + [Flag(k) % 256])
  }

  function PubName(s: Scheme): Name {
    if s.SP2pukh? then PubUncomp else PubComp
  }

  function CodeName(s: Scheme): Name {
    if s.SP2pukh? then P2pukh else P2pkh
  }

  function SignP2pk(H: HashFn, tx: Tx, k: Key, n: nat): (r: Result<TxInput, SignError>)
    requires n < |tx.ins|
    ensures r.Ok? ==> Refills(tx.ins[n], r.value)
  {
    match Eval(k.env, P2pk)
    case None => Err(NoScript)
    case Some(code) =>
      match SignMessage(H, k, n, LegacyMessage(tx, n, code, Flag(k)))
      case None => Err(SignerFailed)
      case Some(sig) => Ok(tx.ins[n].(script := PushBytes(sig)))
  }

  function SignLegacy(H: HashFn, tx: Tx, k: Key, n: nat): (r: Result<TxInput, SignError>)
    requires n < |tx.ins|
    ensures r.Ok? ==> Refills(tx.ins[n], r.value)
  {
    match Eval(k.env, CodeName(k.scheme))
    case None => Err(NoScript)
    case Some(code) =>
      match SignMessage(H, k, n, LegacyMessage(tx, n, code, Flag(k)))
      case None => Err(SignerFailed)
      case Some(sig) =>
        match Eval(k.env, PubName(k.scheme))
        case None => Err(NoScript)
        case Some(pub) => Ok(tx.ins[n].(script := PushBytes(sig) + PushBytes(pub)))
  }

  /** `p2wpkhSign`, also used for fork-id signatures. */
  function SignKeyHash(H: HashFn, tx: Tx, k: Key, n: nat): (r: Result<TxInput, SignError>)
    requires n < |tx.ins|
    ensures r.Ok? ==> Refills(tx.ins[n], r.value)
  {
    match Eval(k.env, PubName(k.scheme))
    case None => Err(NoScript)
    case Some(pub) =>
      match SignMessage(H, k, n, SegwitMessage(H, tx, n, KeyHashCode(H, pub), k.amount, Flag(k)))
      case None => Err(SignerFailed)
      case Some(sig) => Ok(PlaceKeyHash(H, tx.ins[n], k.scheme, sig, pub))
  }

  function PlaceKeyHash(H: HashFn, x: TxInput, scheme: Scheme, sig: seq<byte>, pub: seq<byte>): TxInput {
    if scheme.SP2pkh? || scheme.SP2pukh? then x.(script := PushBytes(sig) + PushBytes(pub))
    else if scheme.SP2wpkh? then x.(script := [], witnesses := [sig, pub])
    else x.(script := PushBytes([0] + PushBytes(HashKey(H, pub))), witnesses := [sig, pub])
  }

  /** `detectP2WSHInner`: the first single-key script whose hash the input asks for; without such
      a request, the first one that can be made. */
  function DetectInner(H: HashFn, env: Env, script: seq<byte>, candidates: seq<Inner>): Option<Inner> {
    if candidates == [] then None
    else
      var ws := Eval(env, InnerName(candidates[0]));
      var asked := |script| == 34 && script[0] == 0 && script[1] == 0x20;
      if ws.Some? && (asked ==> H(Sha256, ws.value) == script[2..]) then Some(candidates[0])
      else DetectInner(H, env, script, candidates[1..])
  }

  const CANDIDATES := [InP2pkh, InP2pk, InP2pukh, InP2puk]

  function SignScriptHash(H: HashFn, tx: Tx, k: Key, n: nat): (r: Result<TxInput, SignError>)
    requires n < |tx.ins| && (k.scheme.SP2wsh? || k.scheme.SP2wshInner?)
    ensures r.Ok? ==> Refills(tx.ins[n], r.value)
  {
    var inner := if k.scheme.SP2wsh? then DetectInner(H, k.env, tx.ins[n].script, CANDIDATES)
                 else Some(k.scheme.inner);
    if inner.None? then Err(NoScript)
    else
      match Eval(k.env, InnerName(inner.value))
      case None => Err(NoScript)
      case Some(ws) =>
        match SignMessage(H, k, n, SegwitMessage(H, tx, n, ws, k.amount, Flag(k)))
        case None => Err(SignerFailed)
        case Some(sig) => PlaceScriptHash(tx.ins[n], k.env, inner.value, sig, ws)
  }

  function PlaceScriptHash(x: TxInput, env: Env, inner: Inner, sig: seq<byte>, ws: seq<byte>)
    : Result<TxInput, SignError>
  {
    match inner
    case InP2pk => Ok(x.(script := [], witnesses := [sig, ws]))
    case InP2puk => Ok(x.(script := [], witnesses := [sig, ws]))
    case InP2pkh => PlaceWithKey(x, Eval(env, PubComp), sig, ws)
    case InP2pukh => PlaceWithKey(x, Eval(env, PubUncomp), sig, ws)
  }

  function PlaceWithKey(x: TxInput, pub: Option<seq<byte>>, sig: seq<byte>, ws: seq<byte>): Result<TxInput, SignError> {
    match pub
    case None => Err(NoScript)
    case Some(p) => Ok(x.(script := [], witnesses := [sig, p, ws]))
  }

  function PrevScripts(keys: seq<Key>): seq<seq<byte>> {
    seq(|keys|, i requires 0 <= i < |keys| => keys[i].prevScript)
  }

  function Amounts(keys: seq<Key>): seq<u64> {
    seq(|keys|, i requires 0 <= i < |keys| => keys[i].amount)
  }

  function TapDigest(H: HashFn, tx: Tx, n: nat, parts: TapParts): seq<byte> {
    TaggedHash(H, "TapSighash", KeySpendMessage(tx, n, parts))
  }

  function SignTaproot(H: HashFn, tx: Tx, k: Key, n: nat, parts: Option<TapParts>): (r: Result<TxInput, SignError>)
    requires n < |tx.ins|
    ensures r.Ok? ==> Refills(tx.ins[n], r.value)
  {
    if parts.None? then Err(NoTaprootParts)
    else if k.sigHash != 0 && k.sigHash != 1 then Err(BadSigHash)
    else
      match k.tapSign(n, TapDigest(H, tx, n, parts.value))
      case None => Err(SignerFailed)
      case Some(sig) =>
        if |sig| != 64 then Err(BadTaprootSig) else Ok(tx.ins[n].(script := [], witnesses := [sig]))
  }

  function SignInput(H: HashFn, tx: Tx, keys: seq<Key>, n: nat): (r: Result<TxInput, SignError>)
    requires n < |tx.ins| == |keys|
    ensures r.Ok? ==> Refills(tx.ins[n], r.value)
  {
    var k := keys[n];
    if !k.scheme.SP2tr? && !AllowedFlag(Flag(k)) then Err(BadSigHash)
    else
      match k.scheme
      case SP2pk => SignP2pk(H, tx, k, n)
      case SP2pkh => if ForkId(Flag(k)) then SignKeyHash(H, tx, k, n) else SignLegacy(H, tx, k, n)
      case SP2pukh => if ForkId(Flag(k)) then SignKeyHash(H, tx, k, n) else SignLegacy(H, tx, k, n)
      case SP2wpkh => SignKeyHash(H, tx, k, n)
      case SP2shP2wpkh => SignKeyHash(H, tx, k, n)
      case SP2wsh => SignScriptHash(H, tx, k, n)
      case SP2wshInner(_) => SignScriptHash(H, tx, k, n)
      case SP2tr => SignTaproot(H, tx, k, n, Parts(H, tx, PrevScripts(keys), Amounts(keys)))
      case SUnsupported => Err(UnsupportedScheme)
  }

  lemma LowByte(f: u32)
    ensures AllowedFlag(f) <==> f % 256 == 0x01 || f % 256 == 0x21 || f % 256 == 0x41 || f % 256 == 0x61
  {
    var q, r := f / 256, f % 256;
    assert f == 256 * q + r;
    DivModUnique(f, 32, 8 * q + r / 32, r % 32);
    DivModUnique(f, 128, 2 * q + r / 128, r % 128);
    DivModUnique(f / 128, 2, q, r / 128);
  }

  lemma NoOtherRefusal(H: HashFn, tx: Tx, keys: seq<Key>, n: nat)
    requires n < |tx.ins| == |keys| && !keys[n].scheme.SP2tr? && AllowedFlag(Flag(keys[n]))
    ensures SignInput(H, tx, keys, n) != Err(BadSigHash)
  {
    var k := keys[n];
    match k.scheme
    case SP2pk =>
    case SP2pkh => assert SignLegacy(H, tx, k, n) != Err(BadSigHash) && SignKeyHash(H, tx, k, n) != Err(BadSigHash);
    case SP2pukh => assert SignLegacy(H, tx, k, n) != Err(BadSigHash) && SignKeyHash(H, tx, k, n) != Err(BadSigHash);
    case SP2wpkh =>
    case SP2shP2wpkh =>
    case SP2wsh => ScriptHashRefusal(H, tx, k, n);
    case SP2wshInner(_) => ScriptHashRefusal(H, tx, k, n);
    case SUnsupported =>
  }

  lemma ScriptHashRefusal(H: HashFn, tx: Tx, k: Key, n: nat)
    requires n < |tx.ins| && (k.scheme.SP2wsh? || k.scheme.SP2wshInner?)
    ensures SignScriptHash(H, tx, k, n) != Err(BadSigHash)
  {
  }

  /**
   * Outside taproot a flag of 0 stands for 1, and signing refuses a flag exactly unless its low byte
   * is 01, 21, 41 or 61.
   */
  lemma FlagsRefused(H: HashFn, tx: Tx, keys: seq<Key>, n: nat)
    requires n < |tx.ins| == |keys| && !keys[n].scheme.SP2tr?
    ensures var k := keys[n];
            var flag := if k.sigHash == 0 then 1 else k.sigHash;
            && Flag(k) == flag
            && (SignInput(H, tx, keys, n) == Err(BadSigHash)
                <==> flag % 256 != 0x01 && flag % 256 != 0x21 && flag % 256 != 0x41 && flag % 256 != 0x61)
  {
    LowByte(Flag(keys[n]));
    if AllowedFlag(Flag(keys[n])) {
      NoOtherRefusal(H, tx, keys, n);
    }
  }

  /** Taproot takes the flags 0 and 1. */
  lemma TaprootFlagsRefused(H: HashFn, tx: Tx, k: Key, n: nat, parts: Option<TapParts>)
    requires n < |tx.ins| && parts.Some?
    ensures SignTaproot(H, tx, k, n, parts) == Err(BadSigHash) <==> k.sigHash != 0 && k.sigHash != 1
  {
  }

  // ---------------------------------------------------------------------------------------
  // The loop
  // ---------------------------------------------------------------------------------------

  /** Inputs 0..n are signed as `SignInput` says, the others are as before. */
  ghost predicate SignedUpTo(H: HashFn, before: Tx, keys: seq<Key>, n: nat, after: Tx)
    requires |before.ins| == |keys|
  {
    && n <= |keys| == |after.ins|
    && after == before.(ins := after.ins)
    && (forall i :: 0 <= i < n ==> SignInput(H, before, keys, i) == Ok(after.ins[i]))
    && (forall i :: n <= i < |keys| ==> after.ins[i] == before.ins[i])
  }

  /** What signing fills in never shows in the skeleton. */
  lemma SignedKeepsSkeleton(H: HashFn, before: Tx, keys: seq<Key>, n: nat, after: Tx)
    requires |before.ins| == |keys| && SignedUpTo(H, before, keys, n, after)
    ensures SameSkeleton(before, after)
  {
    forall i | 0 <= i < |keys|
      ensures Cleared(before).ins[i] == Cleared(after).ins[i]
    {
      assert i < n ==> SignInput(H, before, keys, i) == Ok(after.ins[i]);
      assert Refills(before.ins[i], after.ins[i]);
    }
    assert Cleared(before).ins == Cleared(after).ins;
  }

  /** The segwit message, from the parts that were cached at the first segwit input. */
  lemma MessageFromParts(H: HashFn, before: Tx, tx: Tx, n: nat, code: seq<byte>, amount: u64, flag: u32)
    requires SameSkeleton(before, tx) && n < |tx.ins| == |before.ins|
    ensures Prefix(H, before) + Outpoint(tx.ins[n]) + PushBytes(code) + LE(8, amount)
            + LE(4, tx.ins[n].sequence) + Suffix(H, before) + LE(4, flag)
            == SegwitMessage(H, before, n, code, amount, flag)
  {
    SkeletonInputs(before, tx);
  }

  /** The legacy message, built on the scratch copy: clear it, put the one script in, write it. */
  method ScratchMessage(wtx: BtcTx, ghost before: Tx, n: nat, code: seq<byte>, flag: u32) returns (buf: seq<byte>)
    requires SameSkeleton(before, wtx.Value()) && n < |wtx.ins| == |before.ins|
    modifies wtx
    ensures SameSkeleton(before, wtx.Value()) && |wtx.ins| == |before.ins|
    ensures buf == LegacyMessage(before, n, code, flag)
  {
    ghost var was := wtx.Value();
    wtx.ClearInputs();
    wtx.ins := wtx.ins[n := wtx.ins[n].(script := code)];
    assert wtx.Value() == WithScript(was, n, code);
    ClearTwice(was, n, code);
    LegacyIgnoresScripts(before, was, n, code, flag);
    buf := wtx.ExportBytes(false);
    buf := buf + LE(4, flag);
  }

  lemma ClearTwice(tx: Tx, n: nat, code: seq<byte>)
    requires n < |tx.ins|
    ensures Cleared(WithScript(tx, n, code)) == Cleared(tx)
  {
    assert Cleared(WithScript(tx, n, code)).ins == Cleared(tx).ins;
  }

  method SignScratch(H: HashFn, wtx: BtcTx, ghost before: Tx, x: TxInput, k: Key, n: nat)
    returns (r: Result<TxInput, SignError>)
    requires SameSkeleton(before, wtx.Value()) && n < |wtx.ins| == |before.ins| && x == before.ins[n]
    requires k.scheme.SP2pk? || k.scheme.SP2pkh? || k.scheme.SP2pukh?
    modifies wtx
    ensures SameSkeleton(before, wtx.Value()) && |wtx.ins| == |before.ins|
    ensures r == if k.scheme.SP2pk? then SignP2pk(H, before, k, n) else SignLegacy(H, before, k, n)
  {
    var code := Eval(k.env, if k.scheme.SP2pk? then P2pk else CodeName(k.scheme));
    if code.None? {
      return Err(NoScript);
    }
    var message := ScratchMessage(wtx, before, n, code.value, Flag(k));
    var sig := SignMessage(H, k, n, message);
    if sig.None? {
      return Err(SignerFailed);
    }
    if k.scheme.SP2pk? {
      return Ok(x.(script := PushBytes(sig.value)));
    }
    var pub := Eval(k.env, PubName(k.scheme));
    if pub.None? {
      return Err(NoScript);
    }
    return Ok(x.(script := PushBytes(sig.value) + PushBytes(pub.value)));
  }

  method SignSegwit(H: HashFn, tx: BtcTx, ghost before: Tx, pfx: seq<byte>, sfx: seq<byte>, k: Key, n: nat)
    returns (r: Result<TxInput, SignError>)
    requires SameSkeleton(before, tx.Value()) && n < |tx.ins| == |before.ins| && tx.ins[n] == before.ins[n]
    requires pfx == Prefix(H, before) && sfx == Suffix(H, before)
    ensures r == SignKeyHash(H, before, k, n)
  {
    var pub := Eval(k.env, PubName(k.scheme));
    if pub.None? {
      return Err(NoScript);
    }
    var x := tx.ins[n];
    var code := KeyHashCode(H, pub.value);
    var message := pfx + Outpoint(x) + PushBytes(code) + LE(8, k.amount) + LE(4, x.sequence) + sfx + LE(4, Flag(k));
    MessageFromParts(H, before, tx.Value(), n, code, k.amount, Flag(k));
    var sig := SignMessage(H, k, n, message);
    if sig.None? {
      return Err(SignerFailed);
    }
    return Ok(PlaceKeyHash(H, x, k.scheme, sig.value, pub.value));
  }

  method DetectLoop(H: HashFn, env: Env, script: seq<byte>) returns (r: Option<Inner>)
    ensures r == DetectInner(H, env, script, CANDIDATES)
  {
    var asked := |script| == 34 && script[0] == 0 && script[1] == 0x20;
    var i := 0;
    while i < |CANDIDATES|
      invariant 0 <= i <= |CANDIDATES|
      invariant DetectInner(H, env, script, CANDIDATES) == DetectInner(H, env, script, CANDIDATES[i..])
    {
      assert CANDIDATES[i..][1..] == CANDIDATES[i + 1..];
      var ws := Eval(env, InnerName(CANDIDATES[i]));
      if ws.Some? && (asked ==> H(Sha256, ws.value) == script[2..]) {
        return Some(CANDIDATES[i]);
      }
      i := i + 1;
    }
    return None;
  }

  method SignSegwitScript(H: HashFn, tx: BtcTx, ghost before: Tx, pfx: seq<byte>, sfx: seq<byte>, k: Key, n: nat)
    returns (r: Result<TxInput, SignError>)
    requires SameSkeleton(before, tx.Value()) && n < |tx.ins| == |before.ins| && tx.ins[n] == before.ins[n]
    requires pfx == Prefix(H, before) && sfx == Suffix(H, before)
    requires k.scheme.SP2wsh? || k.scheme.SP2wshInner?
    ensures r == SignScriptHash(H, before, k, n)
  {
    var x := tx.ins[n];
    var inner: Option<Inner>;
    if k.scheme.SP2wsh? {
      inner := DetectLoop(H, k.env, x.script);
    } else {
      inner := Some(k.scheme.inner);
    }
    if inner.None? {
      return Err(NoScript);
    }
    var ws := Eval(k.env, InnerName(inner.value));
    if ws.None? {
      return Err(NoScript);
    }
    var message := pfx + Outpoint(x) + PushBytes(ws.value) + LE(8, k.amount) + LE(4, x.sequence) + sfx + LE(4, Flag(k));
    MessageFromParts(H, before, tx.Value(), n, ws.value, k.amount, Flag(k));
    var sig := SignMessage(H, k, n, message);
    if sig.None? {
      return Err(SignerFailed);
    }
    r := PlaceScriptHash(x, k.env, inner.value, sig.value, ws.value);
  }

  /** What the loop remembers between inputs: the segwit parts and the taproot parts. */
  datatype Memo = Memo(segwit: Option<(seq<byte>, seq<byte>)>, taproot: Option<TapParts>)

  ghost predicate Current(m: Memo, H: HashFn, before: Tx, keys: seq<Key>) {
    && (m.segwit.Some? ==> m.segwit.value == (Prefix(H, before), Suffix(H, before)))
    && (m.taproot.Some? ==> m.taproot == Parts(H, before, PrevScripts(keys), Amounts(keys)))
  }

  method UseSegwit(H: HashFn, tx: BtcTx, ghost before: Tx, ghost keys: seq<Key>, m: Memo)
    returns (m': Memo, pfx: seq<byte>, sfx: seq<byte>)
    requires SameSkeleton(before, tx.Value()) && Current(m, H, before, keys)
    ensures Current(m', H, before, keys) && pfx == Prefix(H, before) && sfx == Suffix(H, before)
  {
    m' := m;
    if m.segwit.None? {
      MessagesIgnoreScripts(H, before, tx.Value());
      pfx, sfx := Preimage(H, tx);
      m' := m.(segwit := Some((pfx, sfx)));
    } else {
      pfx, sfx := m.segwit.value.0, m.segwit.value.1;
    }
  }

  method SignOne(H: HashFn, tx: BtcTx, wtx: BtcTx, ghost before: Tx, keys: seq<Key>, n: nat, m: Memo)
    returns (r: Result<TxInput, SignError>, m': Memo)
    requires wtx != tx
    requires |before.ins| == |keys| && n < |keys| && SignedUpTo(H, before, keys, n, tx.Value())
    requires SameSkeleton(before, tx.Value()) && Current(m, H, before, keys)
    requires SameSkeleton(before, wtx.Value()) && |wtx.ins| == |keys|
    modifies wtx
    ensures SameSkeleton(before, wtx.Value()) && |wtx.ins| == |keys|
    ensures Current(m', H, before, keys)
    ensures r == SignInput(H, before, keys, n)
  {
    var k := keys[n];
    m' := m;
    if !k.scheme.SP2tr? && !AllowedFlag(Flag(k)) {
      return Err(BadSigHash), m';
    }
    var pfx, sfx;
    match k.scheme
    case SP2pk =>
      r := SignScratch(H, wtx, before, tx.ins[n], k, n);
    case SP2pkh =>
      if ForkId(Flag(k)) {
        m', pfx, sfx := UseSegwit(H, tx, before, keys, m);
        r := SignSegwit(H, tx, before, pfx, sfx, k, n);
      } else {
        r := SignScratch(H, wtx, before, tx.ins[n], k, n);
      }
    case SP2pukh =>
      if ForkId(Flag(k)) {
        m', pfx, sfx := UseSegwit(H, tx, before, keys, m);
        r := SignSegwit(H, tx, before, pfx, sfx, k, n);
      } else {
        r := SignScratch(H, wtx, before, tx.ins[n], k, n);
      }
    case SP2wpkh =>
      m', pfx, sfx := UseSegwit(H, tx, before, keys, m);
      r := SignSegwit(H, tx, before, pfx, sfx, k, n);
    case SP2shP2wpkh =>
      m', pfx, sfx := UseSegwit(H, tx, before, keys, m);
      r := SignSegwit(H, tx, before, pfx, sfx, k, n);
    case SP2wsh =>
      m', pfx, sfx := UseSegwit(H, tx, before, keys, m);
      r := SignSegwitScript(H, tx, before, pfx, sfx, k, n);
    case SP2wshInner(_) =>
      m', pfx, sfx := UseSegwit(H, tx, before, keys, m);
      r := SignSegwitScript(H, tx, before, pfx, sfx, k, n);
    case SP2tr =>
      r, m' := SignTaprootInput(H, tx, before, keys, n, m);
    case SUnsupported =>
      r := Err(UnsupportedScheme);
  }

  method SignTaprootInput(H: HashFn, tx: BtcTx, ghost before: Tx, keys: seq<Key>, n: nat, m: Memo)
    returns (r: Result<TxInput, SignError>, m': Memo)
    requires |before.ins| == |keys| == |tx.ins| && n < |keys| && tx.ins[n] == before.ins[n]
    requires SameSkeleton(before, tx.Value()) && Current(m, H, before, keys)
    ensures Current(m', H, before, keys)
    ensures r == SignTaproot(H, before, keys[n], n, Parts(H, before, PrevScripts(keys), Amounts(keys)))
  {
    var k := keys[n];
    m' := m;
    if m.taproot.None? {
      MessagesIgnoreScripts(H, before, tx.Value());
      var parts := TaprootParts(H, tx, PrevScripts(keys), Amounts(keys));
      if parts.None? {
        return Err(NoTaprootParts), m';
      }
      m' := m.(taproot := parts);
    }
    var parts := m'.taproot.value;
    if k.sigHash != 0 && k.sigHash != 1 {
      return Err(BadSigHash), m';
    }
    KeySpendIgnoresScripts(before, tx.Value(), n, parts);
    var sig := k.tapSign(n, TapDigest(H, tx.Value(), n, parts));
    if sig.None? {
      return Err(SignerFailed), m';
    }
    if |sig.value| != 64 {
      return Err(BadTaprootSig), m';
    }
    return Ok(tx.ins[n].(script := [], witnesses := [sig.value])), m';
  }

  /** `Sign`. On success every input is what `SignInput` makes of the transaction as it was
      before the call; on failure the inputs up to the failing one are, and the rest is as it
      was. Nothing but the inputs changes. */
  method Sign(tx: BtcTx, H: HashFn, keys: seq<Key>) returns (err: Option<SignError>, ghost done: nat)
    modifies tx
    ensures |old(tx.ins)| != |keys| || |keys| == 0 ==>
              err == Some(WrongKeyCount) && tx.Value() == old(tx.Value())
    ensures |old(tx.ins)| == |keys| > 0 ==>
              && SignedUpTo(H, old(tx.Value()), keys, done, tx.Value())
              && (if done == |keys| then err == None
                  else SignInput(H, old(tx.Value()), keys, done).Err?
                       && err == Some(SignInput(H, old(tx.Value()), keys, done).error))
  {
    done := 0;
    if |tx.ins| == 0 || |tx.ins| != |keys| {
      return Some(WrongKeyCount), done;
    }
    ghost var before := tx.Value();
    var wtx := tx.Dup();
    var m := Memo(None, None);
    var n := 0;
    while n < |keys|
      invariant 0 <= n <= |keys| && done == n
      invariant fresh(wtx) && wtx != tx
      invariant SignedUpTo(H, before, keys, n, tx.Value())
      invariant SameSkeleton(before, wtx.Value()) && |wtx.ins| == |keys|
      invariant Current(m, H, before, keys)
    {
      SignedKeepsSkeleton(H, before, keys, n, tx.Value());
      var r;
      r, m := SignOne(H, tx, wtx, before, keys, n, m);
      if r.Err? {
        return Some(r.error), done;
      }
      tx.ins := tx.ins[n := r.value];
      n := n + 1;
      done := n;
    }
    return None, done;
  }
}
