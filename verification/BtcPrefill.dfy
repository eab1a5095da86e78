/**
  Estimating the size of a signed transaction before signing it (btctx.go): an input is filled
  with zeros of the lengths its signature will have, and the filled transaction is measured.
*/
module BtcPrefill {
  import opened Bytes
  import opened Outcome
  import opened BtcWire
  import opened BtcTransaction
  import opened PushData
  import opened ScriptFormats
  import opened BtcSighash
  import opened BtcSign

  /** The longest DER signature with its flag byte, and the two forms of a key. */
  const SIG := 72
  const COMP := 33
  const UNCOMP := 65

  function PrefillScript(key: nat): seq<byte> {
    PushBytes(Zeros(72)) + PushBytes(Zeros(key))
  }

  function PrefillWitness(inner: Inner): seq<seq<byte>> {
    match inner
    case InP2pk => [Zeros(72), Zeros(35)]
    case InP2puk => [Zeros(72), Zeros(67)]
    case InP2pkh => [Zeros(72), Zeros(33), Zeros(25)]
    case InP2pukh => [Zeros(72), Zeros(65), Zeros(25)]
  }

  /** None where the source reports an unsupported scheme. */
  function Prefill(x: TxInput, scheme: Scheme): Option<TxInput> {
    match scheme
    case SP2pk => Some(x.(script := PushBytes(Zeros(72))))
    case SP2pkh => Some(x.(script := PrefillScript(33)))
    case SP2pukh => Some(x.(script := PrefillScript(65)))
    case SP2wpkh => Some(x.(script := [], witnesses := [Zeros(72), Zeros(33)]))
    case SP2wshInner(inner) => Some(x.(script := [], witnesses := PrefillWitness(inner)))
    case SP2wsh => Some(x.(script := [], witnesses := PrefillWitness(InP2pkh)))
    case SP2tr => Some(x.(script := [], witnesses := [Zeros(64)]))
    case SP2shP2wpkh => None
    case SUnsupported => None
  }

  predicate AllPrefillable(keys: seq<Key>) {
    forall i :: 0 <= i < |keys| ==> !keys[i].scheme.SP2shP2wpkh? && !keys[i].scheme.SUnsupported?
  }

  function Prefilled(tx: Tx, keys: seq<Key>): (r: Tx)
    requires |tx.ins| == |keys| && AllPrefillable(keys)
    ensures |r.ins| == |keys|
  {
    tx.(ins := seq(|keys|, i requires 0 <= i < |keys| => Prefill(tx.ins[i], keys[i].scheme).value))
  }

  /** `Prefill` on input n of a transaction object. */
  method PrefillInput(tx: BtcTx, n: nat, scheme: Scheme) returns (ok: bool)
    requires n < |tx.ins|
    modifies tx
    ensures ok <==> Prefill(old(tx.ins[n]), scheme).Some?
    ensures tx.Value() == if ok then old(tx.Value()).(ins := old(tx.ins)[n := Prefill(old(tx.ins[n]), scheme).value])
                          else old(tx.Value())
  {
    var x := tx.ins[n];
    match scheme {
      case SP2pk => x := x.(script := PushBytes(Zeros(SIG)));
      case SP2pkh => x := x.(script := PushBytes(Zeros(SIG)) + PushBytes(Zeros(COMP)));
      case SP2pukh => x := x.(script := PushBytes(Zeros(SIG)) + PushBytes(Zeros(UNCOMP)));
      case SP2wpkh => x := x.(script := [], witnesses := [Zeros(SIG), Zeros(COMP)]);
      case SP2wshInner(inner) => x := x.(script := [], witnesses := PrefillWitness(inner));
      case SP2wsh => x := x.(script := [], witnesses := PrefillWitness(InP2pkh));
      case SP2tr => x := x.(script := [], witnesses := [Zeros(64)]);
      case SP2shP2wpkh => return false;
      case SUnsupported => return false;
    }
    tx.ins := tx.ins[n := x];
    return true;
  }

  // ---------------------------------------------------------------------------------------
  // Sizes never shrink
  // ---------------------------------------------------------------------------------------

  predicate Covers(p: TxInput, s: TxInput) {
    && |InputBytes(p)| >= |InputBytes(s)|
    && |StackBytes(p.witnesses)| >= |StackBytes(s.witnesses)|
    && (p.witnesses == [] <==> s.witnesses == [])
  }

  predicate AllCovered(ps: seq<TxInput>, ss: seq<TxInput>) {
    |ps| == |ss| && forall i :: 0 <= i < |ps| ==> Covers(ps[i], ss[i])
  }

  lemma {:induction false} CoveredBytes(ps: seq<TxInput>, ss: seq<TxInput>)
    requires AllCovered(ps, ss)
    ensures |InputsBytes(ps)| >= |InputsBytes(ss)| && |StacksBytes(ps)| >= |StacksBytes(ss)|
    decreases |ps|
  {
    if ps != [] {
      var k := |ps| - 1;
      assert Covers(ps[k], ss[k]);
      CoveredBytes(ps[..k], ss[..k]);
    }
  }

  lemma CoveredWitness(p: Tx, s: Tx)
    requires AllCovered(p.ins, s.ins)
    ensures HasWitness(p) <==> HasWitness(s)
  {
    if HasWitness(p) {
      var i :| 0 <= i < |p.ins| && p.ins[i].witnesses != [];
      assert Covers(p.ins[i], s.ins[i]);
    }
    if HasWitness(s) {
      var i :| 0 <= i < |s.ins| && s.ins[i].witnesses != [];
      assert Covers(p.ins[i], s.ins[i]);
    }
  }

  /** Input by input no smaller means no smaller as a whole, through the rounding of BIP-141. */
  lemma CoveredSize(p: Tx, s: Tx)
    requires p == s.(ins := p.ins) && AllCovered(p.ins, s.ins)
    ensures VirtualSize(p) >= VirtualSize(s)
  {
    CoveredBytes(p.ins, s.ins);
    CoveredWitness(p, s);
    ExportedLength(p);
    ExportedLength(s);
  }

  // ---------------------------------------------------------------------------------------
  // What one signed input takes
  // ---------------------------------------------------------------------------------------

  lemma SmallBuffer(b: seq<byte>)
    requires |b| <= 0xfc
    ensures |VarBuf(b)| == 1 + |b|
  {
    VarIntLength(|b|);
  }

  lemma StackOfTwo(a: seq<byte>, b: seq<byte>)
    requires |a| <= 0xfc && |b| <= 0xfc
    ensures |StackBytes([a, b])| == 3 + |a| + |b|
  {
    assert [a, b][..1] == [a] && [a][..0] == [];
    SmallBuffer(a);
    SmallBuffer(b);
    VarIntLength(2);
    assert |ItemsBytes([a])| == 1 + |a|;
  }

  lemma StackOfThree(a: seq<byte>, b: seq<byte>, c: seq<byte>)
    requires |a| <= 0xfc && |b| <= 0xfc && |c| <= 0xfc
    ensures |StackBytes([a, b, c])| == 4 + |a| + |b| + |c|
  {
    assert [a, b, c][..2] == [a, b];
    StackOfTwo(a, b);
    SmallBuffer(c);
    VarIntLength(2);
    VarIntLength(3);
  }

  lemma StackOfOne(a: seq<byte>)
    requires |a| <= 0xfc
    ensures |StackBytes([a])| == 2 + |a|
  {
    assert [a][..0] == [];
    SmallBuffer(a);
    VarIntLength(1);
    assert ItemsBytes([a]) == ItemsBytes([]) + VarBuf(a);
  }

  /** Only the script length matters for the size of an input. */
  lemma InputLength(x: TxInput)
    ensures |InputBytes(x)| == |x.txid| + 8 + VarIntLen(|x.script|) + |x.script|
  {
    VarIntLength(|x.script|);
  }

  lemma ShorterScript(x: TxInput, y: TxInput)
    requires |x.txid| == |y.txid| && |x.script| >= |y.script|
    ensures |InputBytes(x)| >= |InputBytes(y)|
  {
    InputLength(x);
    InputLength(y);
  }

  lemma SmallPush(v: seq<byte>)
    requires |v| <= 75
    ensures |PushBytes(v)| <= 1 + |v|
    ensures |v| >= 2 ==> |PushBytes(v)| == 1 + |v|
  {
  }

  /** Every ECDSA signature of the key, with its flag byte, takes at most 72 bytes. */
  ghost predicate ShortSignatures(k: Key) {
    forall n: nat, digest: seq<byte> :: k.sign(n, digest).Some? ==> |k.sign(n, digest).value| <= 71
  }

  /** All its signatures are as long as the filler. */
  ghost predicate FullSignatures(k: Key) {
    forall n: nat, digest: seq<byte> :: k.sign(n, digest).Some? ==> |k.sign(n, digest).value| == 71
  }

  lemma SigLength(H: HashFn, k: Key, n: nat, message: seq<byte>)
    requires ShortSignatures(k) && SignMessage(H, k, n, message).Some?
    ensures |SignMessage(H, k, n, message).value| <= 72
    ensures FullSignatures(k) ==> |SignMessage(H, k, n, message).value| == 72
  {
    assert k.sign(n, Hash256(H, message)).Some?;
  }

  lemma ScriptCovers(x: TxInput, sig: seq<byte>, pub: seq<byte>, key: nat)
    requires |sig| <= 72 && |pub| == key <= 75
    ensures Covers(x.(script := PrefillScript(key)), x.(script := PushBytes(sig) + PushBytes(pub)))
    ensures Covers(x.(script := PushBytes(Zeros(72))), x.(script := PushBytes(sig)))
    ensures |sig| == 72 ==> Covers(x.(script := PushBytes(sig) + PushBytes(pub)), x.(script := PrefillScript(key)))
    ensures |sig| == 72 ==> Covers(x.(script := PushBytes(sig)), x.(script := PushBytes(Zeros(72))))
  {
    InputLength(x.(script := PushBytes(sig)));
    InputLength(x.(script := PushBytes(Zeros(72))));
    InputLength(x.(script := PushBytes(sig) + PushBytes(pub)));
    InputLength(x.(script := PrefillScript(key)));
    SmallPush(sig);
    SmallPush(Zeros(72));
    ShorterScript(x.(script := PushBytes(Zeros(72))), x.(script := PushBytes(sig)));
    assert |PushBytes(Zeros(key))| == |PushBytes(pub)| by { PushLength(Zeros(key), pub); }
    ShorterScript(x.(script := PrefillScript(key)), x.(script := PushBytes(sig) + PushBytes(pub)));
  }

  lemma PushLength(a: seq<byte>, b: seq<byte>)
    requires |a| == |b|
    ensures |PushBytes(a)| == |PushBytes(b)|
  {
  }

  lemma WitnessCovers(x: TxInput, sig: seq<byte>, pub: seq<byte>, key: nat)
    requires |sig| <= 72 && |pub| == key <= 75
    ensures Covers(x.(script := [], witnesses := [Zeros(72), Zeros(key)]), x.(script := [], witnesses := [sig, pub]))
    ensures |sig| == 72 ==>
              Covers(x.(script := [], witnesses := [sig, pub]), x.(script := [], witnesses := [Zeros(72), Zeros(key)]))
  {
    StackOfTwo(Zeros(72), Zeros(key));
    StackOfTwo(sig, pub);
    ShorterScript(x.(script := [], witnesses := [Zeros(72), Zeros(key)]), x.(script := [], witnesses := [sig, pub]));
  }

  lemma WitnessScriptCovers(x: TxInput, sig: seq<byte>, pub: seq<byte>, ws: seq<byte>, key: nat)
    requires |sig| <= 72 && |pub| == key <= 75 && |ws| == 25
    ensures Covers(x.(script := [], witnesses := [Zeros(72), Zeros(key), Zeros(25)]),
                   x.(script := [], witnesses := [sig, pub, ws]))
    ensures |sig| == 72 ==>
              Covers(x.(script := [], witnesses := [sig, pub, ws]),
                     x.(script := [], witnesses := [Zeros(72), Zeros(key), Zeros(25)]))
  {
    StackOfThree(Zeros(72), Zeros(key), Zeros(25));
    StackOfThree(sig, pub, ws);
    ShorterScript(x.(script := [], witnesses := [Zeros(72), Zeros(key), Zeros(25)]),
                  x.(script := [], witnesses := [sig, pub, ws]));
  }

  // ---------------------------------------------------------------------------------------
  // The estimate against the signed transaction
  // ---------------------------------------------------------------------------------------

  lemma KeyLength(k: Key)
    requires Secp256k1Env(k.env)
    ensures Eval(k.env, PubName(k.scheme)).Some?
    ensures |Eval(k.env, PubName(k.scheme)).value| == if k.scheme.SP2pukh? then 65 else 33
    ensures |Eval(k.env, PubComp).value| == 33 && |Eval(k.env, PubUncomp).value| == 65
  {
  }

  lemma CoversP2pk(H: HashFn, tx: Tx, k: Key, n: nat)
    requires n < |tx.ins| && k.scheme.SP2pk? && ShortSignatures(k)
    requires SignP2pk(H, tx, k, n).Ok?
    ensures Covers(Prefill(tx.ins[n], k.scheme).value, SignP2pk(H, tx, k, n).value)
    ensures FullSignatures(k) ==> Covers(SignP2pk(H, tx, k, n).value, Prefill(tx.ins[n], k.scheme).value)
  {
    var code := Eval(k.env, P2pk).value;
    var message := LegacyMessage(tx, n, code, Flag(k));
    SigLength(H, k, n, message);
    ScriptCovers(tx.ins[n], SignMessage(H, k, n, message).value, Zeros(33), 33);
  }

  lemma CoversLegacy(H: HashFn, tx: Tx, k: Key, n: nat)
    requires n < |tx.ins| && (k.scheme.SP2pkh? || k.scheme.SP2pukh?) && ShortSignatures(k) && Secp256k1Env(k.env)
    requires SignLegacy(H, tx, k, n).Ok?
    ensures Covers(Prefill(tx.ins[n], k.scheme).value, SignLegacy(H, tx, k, n).value)
    ensures FullSignatures(k) ==> Covers(SignLegacy(H, tx, k, n).value, Prefill(tx.ins[n], k.scheme).value)
  {
    KeyLength(k);
    var pub := Eval(k.env, PubName(k.scheme)).value;
    var message := LegacyMessage(tx, n, Eval(k.env, CodeName(k.scheme)).value, Flag(k));
    SigLength(H, k, n, message);
    ScriptCovers(tx.ins[n], SignMessage(H, k, n, message).value, pub, if k.scheme.SP2pukh? then 65 else 33);
  }

  /** Segwit key hashes, and fork-id signatures that go back into the script. */
  lemma CoversKeyHash(H: HashFn, tx: Tx, k: Key, n: nat)
    requires n < |tx.ins| && (k.scheme.SP2pkh? || k.scheme.SP2pukh? || k.scheme.SP2wpkh?)
    requires ShortSignatures(k) && Secp256k1Env(k.env) && SignKeyHash(H, tx, k, n).Ok?
    ensures Covers(Prefill(tx.ins[n], k.scheme).value, SignKeyHash(H, tx, k, n).value)
    ensures FullSignatures(k) ==> Covers(SignKeyHash(H, tx, k, n).value, Prefill(tx.ins[n], k.scheme).value)
  {
    KeyLength(k);
    var pub := Eval(k.env, PubName(k.scheme)).value;
    var message := SegwitMessage(H, tx, n, KeyHashCode(H, pub), k.amount, Flag(k));
    SigLength(H, k, n, message);
    var sig := SignMessage(H, k, n, message).value;
    ScriptCovers(tx.ins[n], sig, pub, if k.scheme.SP2pukh? then 65 else 33);
    if k.scheme.SP2wpkh? {
      WitnessCovers(tx.ins[n], sig, pub, 33);
    }
  }

  /** The witness of a script-hash input against the prefill of its inner script. */
  lemma CoversInner(x: TxInput, env: Env, inner: Inner, sig: seq<byte>)
    requires Secp256k1Env(env) && |sig| <= 72 && Eval(env, InnerName(inner)).Some?
    ensures PlaceScriptHash(x, env, inner, sig, Eval(env, InnerName(inner)).value).Ok?
    ensures Covers(x.(script := [], witnesses := PrefillWitness(inner)),
                   PlaceScriptHash(x, env, inner, sig, Eval(env, InnerName(inner)).value).value)
    ensures |sig| == 72 ==>
              Covers(PlaceScriptHash(x, env, inner, sig, Eval(env, InnerName(inner)).value).value,
                     x.(script := [], witnesses := PrefillWitness(inner)))
  {
    ScriptLengths(env);
    var ws := Eval(env, InnerName(inner)).value;
    match inner
    case InP2pk => WitnessCovers(x, sig, ws, 35);
    case InP2puk => WitnessCovers(x, sig, ws, 67);
    case InP2pkh => WitnessScriptCovers(x, sig, env.export_(PubComp).value, ws, 33);
    case InP2pukh => WitnessScriptCovers(x, sig, env.export_(PubUncomp).value, ws, 65);
  }

  lemma ScriptHashSigned(H: HashFn, tx: Tx, k: Key, n: nat) returns (sig: seq<byte>)
    requires n < |tx.ins| && k.scheme.SP2wshInner? && ShortSignatures(k)
    requires SignScriptHash(H, tx, k, n).Ok?
    ensures |sig| <= 72 && Eval(k.env, InnerName(k.scheme.inner)).Some?
    ensures FullSignatures(k) ==> |sig| == 72
    ensures SignScriptHash(H, tx, k, n)
         == PlaceScriptHash(tx.ins[n], k.env, k.scheme.inner, sig, Eval(k.env, InnerName(k.scheme.inner)).value)
  {
    var ws := Eval(k.env, InnerName(k.scheme.inner)).value;
    var message := SegwitMessage(H, tx, n, ws, k.amount, Flag(k));
    SigLength(H, k, n, message);
    sig := SignMessage(H, k, n, message).value;
  }

  lemma CoversScriptHash(H: HashFn, tx: Tx, k: Key, n: nat)
    requires n < |tx.ins| && k.scheme.SP2wshInner? && ShortSignatures(k) && Secp256k1Env(k.env)
    requires SignScriptHash(H, tx, k, n).Ok?
    ensures Covers(Prefill(tx.ins[n], k.scheme).value, SignScriptHash(H, tx, k, n).value)
    ensures FullSignatures(k) ==> Covers(SignScriptHash(H, tx, k, n).value, Prefill(tx.ins[n], k.scheme).value)
  {
    var sig := ScriptHashSigned(H, tx, k, n);
    var x, inner := tx.ins[n], k.scheme.inner;
    CoversInner(x, k.env, inner, sig);
    PrefillOfInner(x, inner);
    assert k.scheme == SP2wshInner(inner);
  }

  lemma PrefillOfInner(x: TxInput, inner: Inner)
    ensures Prefill(x, SP2wshInner(inner)).Some?
    ensures Prefill(x, SP2wshInner(inner)).value == x.(script := [], witnesses := PrefillWitness(inner))
  {
  }

  /** Taproot signatures are always 64 bytes: the estimate is exact. */
  lemma TaprootIsExact(H: HashFn, tx: Tx, k: Key, n: nat, parts: Option<TapParts>)
    requires n < |tx.ins| && k.scheme.SP2tr? && SignTaproot(H, tx, k, n, parts).Ok?
    ensures var p, s := Prefill(tx.ins[n], k.scheme).value, SignTaproot(H, tx, k, n, parts).value;
            |InputBytes(p)| == |InputBytes(s)| && |StackBytes(p.witnesses)| == |StackBytes(s.witnesses)|
            && Covers(p, s) && Covers(s, p)
  {
    var s := SignTaproot(H, tx, k, n, parts).value;
    StackOfOne(s.witnesses[0]);
    StackOfOne(Zeros(64));
    InputLength(s);
    InputLength(Prefill(tx.ins[n], k.scheme).value);
  }

  /** A scheme that names the script it signs for. */
  predicate Explicit(s: Scheme) {
    !s.SP2wsh? && !s.SP2shP2wpkh? && !s.SUnsupported?
  }

  /** The inner script the automatic p2wsh scheme will settle on. */
  function Detected(H: HashFn, x: TxInput, k: Key): Option<Inner> {
    DetectInner(H, k.env, x.script, CANDIDATES)
  }

  lemma InnerEvaluates(env: Env, inner: Inner)
    requires Secp256k1Env(env)
    ensures Eval(env, InnerName(inner)).Some?
  {
    ScriptLengths(env);
  }

  /** When zeros for a p2pkh script are enough for another one: a question of the signature's length. */
  predicate Suffices(inner: Inner, sig: nat) {
    match inner
    case InP2pkh => true
    case InP2pk => true
    case InP2puk => sig <= 64
    case InP2pukh => sig <= 40
  }

  lemma KeyHashPrefillExactly(x: TxInput, env: Env, inner: Inner, sig: seq<byte>)
    requires Secp256k1Env(env) && |sig| <= 72 && Eval(env, InnerName(inner)).Some?
    ensures var s := PlaceScriptHash(x, env, inner, sig, Eval(env, InnerName(inner)).value);
            && s.Ok? && s.value.script == [] && |s.value.witnesses| > 0 && s.value.witnesses[0] == sig
            && s.value.txid == x.txid
            && (|StackBytes(PrefillWitness(InP2pkh))| >= |StackBytes(s.value.witnesses)| <==> Suffices(inner, |sig|))
  {
    ScriptLengths(env);
    StackOfThree(Zeros(72), Zeros(33), Zeros(25));
    var ws := Eval(env, InnerName(inner)).value;
    match inner
    case InP2pk => StackOfTwo(sig, ws);
    case InP2puk => StackOfTwo(sig, ws);
    case InP2pkh => StackOfThree(sig, env.export_(PubComp).value, ws);
    case InP2pukh => StackOfThree(sig, env.export_(PubUncomp).value, ws);
  }

  lemma SameScriptCovers(p: TxInput, s: TxInput)
    requires p.txid == s.txid && p.script == s.script && p.witnesses != [] && s.witnesses != []
    ensures Covers(p, s) <==> |StackBytes(p.witnesses)| >= |StackBytes(s.witnesses)|
  {
    InputLength(p);
    InputLength(s);
  }

  /**
   * The automatic p2wsh scheme is prefilled as p2pkh. That is large enough exactly when the script
   * signing settles on is p2pkh or p2pk, or has an uncompressed key and a signature of at most 64
   * bytes (p2puk) or 40 bytes (p2pukh), counting the flag.
   */
  lemma AutoScriptHashExactly(H: HashFn, tx: Tx, k: Key, n: nat)
    requires n < |tx.ins| && k.scheme.SP2wsh? && ShortSignatures(k) && Secp256k1Env(k.env)
    requires SignScriptHash(H, tx, k, n).Ok?
    ensures var s := SignScriptHash(H, tx, k, n).value;
            && Detected(H, tx.ins[n], k).Some? && |s.witnesses| > 0
            && (Covers(Prefill(tx.ins[n], k.scheme).value, s)
                <==> Suffices(Detected(H, tx.ins[n], k).value, |s.witnesses[0]|))
  {
    var x := tx.ins[n];
    var inner, sig := DetectedSigned(H, tx, k, n);
    KeyHashPrefillExactly(x, k.env, inner, sig);
    SameScriptCovers(x.(script := [], witnesses := PrefillWitness(InP2pkh)), SignScriptHash(H, tx, k, n).value);
  }

  lemma DetectedSigned(H: HashFn, tx: Tx, k: Key, n: nat) returns (inner: Inner, sig: seq<byte>)
    requires n < |tx.ins| && k.scheme.SP2wsh? && ShortSignatures(k) && Secp256k1Env(k.env)
    requires SignScriptHash(H, tx, k, n).Ok?
    ensures Detected(H, tx.ins[n], k) == Some(inner) && |sig| <= 72 && Eval(k.env, InnerName(inner)).Some?
    ensures SignScriptHash(H, tx, k, n)
         == PlaceScriptHash(tx.ins[n], k.env, inner, sig, Eval(k.env, InnerName(inner)).value)
  {
    inner := Detected(H, tx.ins[n], k).value;
    InnerEvaluates(k.env, inner);
    var ws := Eval(k.env, InnerName(inner)).value;
    var message := SegwitMessage(H, tx, n, ws, k.amount, Flag(k));
    SigLength(H, k, n, message);
    sig := SignMessage(H, k, n, message).value;
  }

  /** The scheme names its script, or the automatic scheme finds one that the prefill suffices for. */
  ghost predicate Estimable(H: HashFn, x: TxInput, k: Key, signed: TxInput) {
    || Explicit(k.scheme)
    || (k.scheme.SP2wsh? && Detected(H, x, k).Some? && signed.witnesses != []
        && Suffices(Detected(H, x, k).value, |signed.witnesses[0]|))
  }

  /** What is asked of an ECDSA key; a taproot signer may be anything. */
  ghost predicate Ordinary(k: Key) {
    k.scheme.SP2tr? || (ShortSignatures(k) && Secp256k1Env(k.env))
  }

  lemma CoversInput(H: HashFn, tx: Tx, keys: seq<Key>, n: nat)
    requires n < |tx.ins| == |keys| && Ordinary(keys[n])
    requires SignInput(H, tx, keys, n).Ok? && Estimable(H, tx.ins[n], keys[n], SignInput(H, tx, keys, n).value)
    ensures Covers(Prefill(tx.ins[n], keys[n].scheme).value, SignInput(H, tx, keys, n).value)
  {
    var k := keys[n];
    match k.scheme
    case SP2pk => CoversP2pk(H, tx, k, n);
    case SP2pkh => if ForkId(Flag(k)) { CoversKeyHash(H, tx, k, n); } else { CoversLegacy(H, tx, k, n); }
    case SP2pukh => if ForkId(Flag(k)) { CoversKeyHash(H, tx, k, n); } else { CoversLegacy(H, tx, k, n); }
    case SP2wpkh => CoversKeyHash(H, tx, k, n);
    case SP2wsh => AutoScriptHashExactly(H, tx, k, n);
    case SP2wshInner(_) => CoversScriptHash(H, tx, k, n);
    case SP2tr => TaprootIsExact(H, tx, k, n, Parts(H, tx, PrevScripts(keys), Amounts(keys)));
  }

  /**
   * Prefilling never underestimates: whatever the signers answer within 72 bytes, the signed
   * transaction is no larger than the prefilled one was measured to be. This holds for all
   * supported schemes; under the automatic p2wsh scheme the script found and the signature made
   * must be such that the p2pkh prefill suffices.
   */
  lemma NeverUnderestimates(H: HashFn, before: Tx, keys: seq<Key>, after: Tx)
    requires |before.ins| == |keys| && SignedUpTo(H, before, keys, |keys|, after)
    requires forall i :: 0 <= i < |keys| ==> Estimable(H, before.ins[i], keys[i], after.ins[i]) && Ordinary(keys[i])
    ensures AllPrefillable(keys) && VirtualSize(Prefilled(before, keys)) >= VirtualSize(after)
  {
    assert AllPrefillable(keys) by {
      forall i | 0 <= i < |keys| ensures !keys[i].scheme.SP2shP2wpkh? && !keys[i].scheme.SUnsupported? {
        assert Estimable(H, before.ins[i], keys[i], after.ins[i]);
      }
    }
    forall i | 0 <= i < |keys|
      ensures Covers(Prefilled(before, keys).ins[i], after.ins[i])
    {
      assert SignInput(H, before, keys, i) == Ok(after.ins[i]);
      CoversInput(H, before, keys, i);
    }
    CoveredSize(Prefilled(before, keys), after);
  }

  /** A scheme that names its script, with signatures as long as the filler or a taproot one. */
  ghost predicate Full(k: Key) {
    Explicit(k.scheme) && Ordinary(k) && (k.scheme.SP2tr? || FullSignatures(k))
  }

  lemma FillsInput(H: HashFn, tx: Tx, keys: seq<Key>, n: nat)
    requires n < |tx.ins| == |keys| && Full(keys[n]) && SignInput(H, tx, keys, n).Ok?
    ensures Covers(SignInput(H, tx, keys, n).value, Prefill(tx.ins[n], keys[n].scheme).value)
  {
    var k := keys[n];
    match k.scheme
    case SP2pk => CoversP2pk(H, tx, k, n);
    case SP2pkh => if ForkId(Flag(k)) { CoversKeyHash(H, tx, k, n); } else { CoversLegacy(H, tx, k, n); }
    case SP2pukh => if ForkId(Flag(k)) { CoversKeyHash(H, tx, k, n); } else { CoversLegacy(H, tx, k, n); }
    case SP2wpkh => CoversKeyHash(H, tx, k, n);
    case SP2wshInner(_) => CoversScriptHash(H, tx, k, n);
    case SP2tr => TaprootIsExact(H, tx, k, n, Parts(H, tx, PrevScripts(keys), Amounts(keys)));
  }

  /** The filler is no larger than it has to be: with full-length signatures the estimate is exact. */
  lemma ExactAtFullLength(H: HashFn, before: Tx, keys: seq<Key>, after: Tx)
    requires |before.ins| == |keys| && SignedUpTo(H, before, keys, |keys|, after)
    requires forall i :: 0 <= i < |keys| ==> Full(keys[i])
    ensures AllPrefillable(keys) && VirtualSize(Prefilled(before, keys)) == VirtualSize(after)
  {
    forall i | 0 <= i < |keys|
      ensures Estimable(H, before.ins[i], keys[i], after.ins[i]) && Ordinary(keys[i])
    {
      assert Full(keys[i]);
    }
    NeverUnderestimates(H, before, keys, after);
    forall i | 0 <= i < |keys|
      ensures Covers(after.ins[i], Prefilled(before, keys).ins[i])
    {
      assert SignInput(H, before, keys, i) == Ok(after.ins[i]) && Full(keys[i]);
      FillsInput(H, before, keys, i);
    }
    CoveredSize(after, Prefilled(before, keys));
  }

  // ---------------------------------------------------------------------------------------
  // A transaction that is underestimated
  // ---------------------------------------------------------------------------------------

  lemma OneInputSize(tx: Tx, x: TxInput)
    requires tx.ins == [x] && x.witnesses != []
    ensures HasWitness(tx) && StacksBytes(tx.ins) == StackBytes(x.witnesses) && InputsBytes(tx.ins) == InputBytes(x)
  {
    assert [x][..0] == [];
    assert StacksBytes([x]) == StacksBytes([]) + StackBytes(x.witnesses);
    assert InputsBytes([x]) == InputsBytes([]) + InputBytes(x);
  }

  /** One input, equal scripts, and a witness four bytes larger: a virtual byte more. */
  lemma FourBytesShow(p: Tx, s: Tx, x: TxInput, y: TxInput)
    requires p.ins == [x] && s.ins == [y] && p == s.(ins := p.ins) && x.witnesses != [] && y.witnesses != []
    requires x.txid == y.txid && x.script == y.script
    requires |StackBytes(y.witnesses)| >= |StackBytes(x.witnesses)| + 4
    ensures VirtualSize(p) < VirtualSize(s)
  {
    OneInputSize(p, x);
    OneInputSize(s, y);
    InputLength(x);
    InputLength(y);
    ExportedLength(p);
    ExportedLength(s);
  }

  /** A key for the automatic scheme whose signatures have 67 to 71 bytes, as DER strings mostly do. */
  ghost predicate LongSigner(k: Key) {
    && k.scheme.SP2wsh? && AllowedFlag(Flag(k)) && Secp256k1Env(k.env)
    && forall n: nat, digest: seq<byte> :: k.sign(n, digest).Some? && 67 <= |k.sign(n, digest).value| <= 71
  }

  function PlainExport(name: Name): Option<seq<byte>> {
    if name.PubComp? then Some([2] + Zeros(32)) else if name.PubUncomp? then Some([4] + Zeros(64)) else None
  }

  lemma LongSignersExist()
    ensures exists k: Key :: LongSigner(k) && Ordinary(k)
  {
    var env := Env(PlainExport, (h, b) => Zeros(20), b => None);
    var k := Key(env, (n, d) => Some(Zeros(71)), (n, d) => None, SP2wsh, 0, 1, []);
    assert LongSigner(k) && Ordinary(k);
  }

  /** The script of an input that asks for a 32-byte hash. */
  function Asking(hash: seq<byte>): seq<byte> {
    [0, 0x20] + hash
  }

  ghost predicate Hashes(H: HashFn, env: Env, inner: Inner, hash: seq<byte>) {
    Eval(env, InnerName(inner)).Some? && H(Sha256, Eval(env, InnerName(inner)).value) == hash
  }

  lemma DetectSkips(H: HashFn, env: Env, hash: seq<byte>, candidates: seq<Inner>)
    requires |hash| == 32 && candidates != []
    ensures DetectInner(H, env, Asking(hash), candidates)
         == if Hashes(H, env, candidates[0], hash) then Some(candidates[0])
            else DetectInner(H, env, Asking(hash), candidates[1..])
  {
    assert Asking(hash)[2..] == hash;
  }

  /** Only the bare uncompressed key has the hash asked for. */
  ghost predicate AsksForBareKey(H: HashFn, env: Env, hash: seq<byte>) {
    && |hash| == 32 && Hashes(H, env, InP2puk, hash)
    && !Hashes(H, env, InP2pkh, hash) && !Hashes(H, env, InP2pk, hash) && !Hashes(H, env, InP2pukh, hash)
  }

  lemma DetectLast(H: HashFn, env: Env, hash: seq<byte>)
    requires AsksForBareKey(H, env, hash)
    ensures DetectInner(H, env, Asking(hash), CANDIDATES) == Some(InP2puk)
  {
    DetectSkips(H, env, hash, CANDIDATES);
    DetectSkips(H, env, hash, CANDIDATES[1..]);
    DetectSkips(H, env, hash, CANDIDATES[2..]);
    DetectSkips(H, env, hash, CANDIDATES[3..]);
    assert CANDIDATES[1..][1..] == CANDIDATES[2..] && CANDIDATES[2..][1..] == CANDIDATES[3..];
  }

  lemma SignedAsDetected(H: HashFn, tx: Tx, k: Key, ws: seq<byte>, sig: seq<byte>)
    requires tx.ins != [] && k.scheme.SP2wsh?
    requires Detected(H, tx.ins[0], k) == Some(InP2puk) && Eval(k.env, P2puk) == Some(ws)
    requires SignMessage(H, k, 0, SegwitMessage(H, tx, 0, ws, k.amount, Flag(k))) == Some(sig)
    ensures SignScriptHash(H, tx, k, 0) == Ok(tx.ins[0].(script := [], witnesses := [sig, ws]))
  {
  }

  lemma UncompressedScript(env: Env) returns (ws: seq<byte>)
    requires Secp256k1Env(env)
    ensures Eval(env, P2puk) == Some(ws) && |ws| == 67
  {
    ScriptLengths(env);
    ws := Eval(env, P2puk).value;
  }

  lemma LongSignature(H: HashFn, k: Key, message: seq<byte>) returns (sig: seq<byte>)
    requires LongSigner(k)
    ensures SignMessage(H, k, 0, message) == Some(sig) && 68 <= |sig| <= 72
  {
    var der := k.sign(0, Hash256(H, message));
    assert der.Some? && 67 <= |der.value| <= 71;
    sig := der.value + [Flag(k) % 256];
  }

  lemma ScriptHashInput(H: HashFn, tx: Tx, k: Key)
    requires |tx.ins| == 1 && k.scheme.SP2wsh? && AllowedFlag(Flag(k))
    ensures SignInput(H, tx, [k], 0) == SignScriptHash(H, tx, k, 0)
  {
  }

  /** What signing such an input gives: a full-length signature and a script of 67 bytes. */
  lemma AskingSigned(H: HashFn, tx: Tx, k: Key, hash: seq<byte>) returns (sig: seq<byte>, ws: seq<byte>)
    requires |tx.ins| == 1 && tx.ins[0].script == Asking(hash)
    requires LongSigner(k) && AsksForBareKey(H, k.env, hash)
    ensures 68 <= |sig| <= 72 && |ws| == 67
    ensures SignInput(H, tx, [k], 0) == Ok(tx.ins[0].(script := [], witnesses := [sig, ws]))
  {
    DetectLast(H, k.env, hash);
    ws := UncompressedScript(k.env);
    sig := LongSignature(H, k, SegwitMessage(H, tx, 0, ws, k.amount, Flag(k)));
    SignedAsDetected(H, tx, k, ws, sig);
    ScriptHashInput(H, tx, k);
  }

  /**
   * Whatever the hash function is: a transaction with one automatic p2wsh input that asks for the
   * bare uncompressed key always signs, and is then larger than it was measured to be.
   */
  lemma SomeAreUnderestimated(H: HashFn, before: Tx, k: Key, hash: seq<byte>) returns (after: Tx)
    requires |before.ins| == 1 && before.ins[0].script == Asking(hash)
    requires LongSigner(k) && AsksForBareKey(H, k.env, hash)
    ensures AllPrefillable([k]) && SignedUpTo(H, before, [k], 1, after)
    ensures VirtualSize(Prefilled(before, [k])) < VirtualSize(after)
  {
    var sig, ws := AskingSigned(H, before, k, hash);
    var x := before.ins[0].(script := [], witnesses := PrefillWitness(InP2pkh));
    var y := before.ins[0].(script := [], witnesses := [sig, ws]);
    after := before.(ins := [y]);
    StackOfTwo(sig, ws);
    StackOfThree(Zeros(72), Zeros(33), Zeros(25));
    var p := Prefilled(before, [k]);
    assert p.ins == [x];
    FourBytesShow(p, after, x, y);
  }
}
