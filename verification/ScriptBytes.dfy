/**
 * Every entry of the format table as the bytes it stands for (format.go): which form of the key
 * goes in, which hashes are taken of it, and what is pushed around them.
 */
module ScriptBytes {
  import opened Bytes
  import opened Outcome
  import opened PushData
  import opened ScriptFormats

  /** Nothing without the key form or the inner script, otherwise what `wrap` makes of it. */
  function Wrapped(v: Option<seq<byte>>, wrap: seq<byte> -> seq<byte>): Option<seq<byte>> {
    match v
    case None => None
    case Some(b) => Some(wrap(b))
  }

  lemma HashChainOne(env: Env, b: seq<byte>, x: HashName)
    ensures HashChain(env, b, [x]) == env.hash(x, b)
  {
    assert [x][1..] == [];
    assert HashChain(env, env.hash(x, b), []) == env.hash(x, b);
  }

  lemma EvalOne(env: Env, a: Piece, rank: nat)
    requires LooksBelow(a, rank)
    ensures EvalAll(env, [a], rank) == EvalPiece(env, a, rank)
  {
    assert [a][..0] == [];
    assert EvalAll(env, [], rank) == Some([]);
    if EvalPiece(env, a, rank).Some? {
      assert [] + EvalPiece(env, a, rank).value == EvalPiece(env, a, rank).value;
    }
  }

  // ---------------------------------------------------------------------------------------
  // Witness programs and script hashes
  // ---------------------------------------------------------------------------------------

  lemma EvalWpkh(env: Env)
    ensures Eval(env, P2wpkh)
         == Wrapped(env.export_(PubComp), c => [0x00] + PushBytes(env.hash(Ripemd160, env.hash(Sha256, c))))
  {
    var key := Lookup(PubComp);
    EvalTwo(env, Literal([0]), Push(Hash160(key)), 1);
    assert EvalPiece(env, key, 1) == env.export_(PubComp);
    if env.export_(PubComp).Some? {
      HashChainTwo(env, env.export_(PubComp).value, Sha256, Ripemd160);
    }
  }

  lemma EvalTr(env: Env)
    ensures Eval(env, P2tr)
         == if env.export_(PubComp).None? then None
            else Wrapped(env.tweak(env.export_(PubComp).value), q => [0x51] + PushBytes(q))
  {
    var key := Lookup(PubComp);
    EvalTwo(env, Literal([0x51]), Push(Tweaked(key)), 1);
    assert EvalPiece(env, key, 1) == env.export_(PubComp);
  }

  /** The single-key script inside a script hash or a witness script hash. */
  function InnerOf(name: Name): Option<Name> {
    match name
    case P2shP2pkh => Some(P2pkh)
    case P2shP2pukh => Some(P2pukh)
    case P2shP2pk => Some(P2pk)
    case P2shP2puk => Some(P2puk)
    case P2shP2wpkh => Some(P2wpkh)
    case P2wshP2pkh => Some(P2pkh)
    case P2wshP2pukh => Some(P2pukh)
    case P2wshP2pk => Some(P2pk)
    case P2wshP2puk => Some(P2puk)
    case P2wshP2wpkh => Some(P2wpkh)
    case _ => None
  }

  predicate IsWitnessHash(name: Name) {
    name.P2wshP2pkh? || name.P2wshP2pukh? || name.P2wshP2pk? || name.P2wshP2puk? || name.P2wshP2wpkh?
  }

  lemma EvalScriptHash(env: Env, inner: Name)
    requires Rank(inner) == 1
    ensures EvalAll(env, ScriptHash(inner), 2)
         == Wrapped(Eval(env, inner),
                    s => [0xa9] + PushBytes(env.hash(Ripemd160, env.hash(Sha256, s))) + [0x87])
  {
    var a, b, c := Literal([0xa9]), Push(Hash160(Lookup(inner))), Literal([0x87]);
    EvalTwo(env, a, b, 2);
    EvalThree(env, a, b, c, 2);
    assert EvalPiece(env, Lookup(inner), 2) == Eval(env, inner);
    if Eval(env, inner).Some? {
      HashChainTwo(env, Eval(env, inner).value, Sha256, Ripemd160);
    }
  }

  lemma EvalWitnessHash(env: Env, inner: Name)
    requires Rank(inner) == 1
    ensures EvalAll(env, WitnessHash(inner), 2)
         == Wrapped(Eval(env, inner), s => [0x00] + PushBytes(env.hash(Sha256, s)))
  {
    EvalTwo(env, Literal([0]), Push(Hashed(Lookup(inner), [Sha256])), 2);
    assert EvalPiece(env, Lookup(inner), 2) == Eval(env, inner);
    if Eval(env, inner).Some? {
      HashChainOne(env, Eval(env, inner).value, Sha256);
    }
  }

  /** All ten nested scripts: the hash of the script inside, in the usual frame. */
  lemma NestedScripts(env: Env, name: Name)
    requires InnerOf(name).Some?
    ensures Eval(env, name) ==
            if IsWitnessHash(name)
            then Wrapped(Eval(env, InnerOf(name).value), s => [0x00] + PushBytes(env.hash(Sha256, s)))
            else Wrapped(Eval(env, InnerOf(name).value),
                         s => [0xa9] + PushBytes(env.hash(Ripemd160, env.hash(Sha256, s))) + [0x87])
  {
    var inner := InnerOf(name).value;
    if IsWitnessHash(name) {
      EvalWitnessHash(env, inner);
      assert Format(name) == Some(WitnessHash(inner));
    } else {
      EvalScriptHash(env, inner);
      assert Format(name) == Some(ScriptHash(inner));
    }
  }

  // ---------------------------------------------------------------------------------------
  // Account formats
  // ---------------------------------------------------------------------------------------

  lemma EvalHashed(env: Env, head: seq<byte>, key: Name, h: HashName)
    requires Rank(key) < 2
    ensures EvalAll(env, [Literal(head), Hashed(Lookup(key), [h])], 2)
         == Wrapped(Eval(env, key), e => head + env.hash(h, e))
  {
    EvalTwo(env, Literal(head), Hashed(Lookup(key), [h]), 2);
    assert EvalPiece(env, Lookup(key), 2) == Eval(env, key);
    if Eval(env, key).Some? {
      HashChainOne(env, Eval(env, key).value, h);
    }
  }

  lemma EvalEth(env: Env)
    ensures Eval(env, Eth) == Wrapped(env.export_(PubUncomp), u => env.hash(Keccak, u))
  {
    var p := Hashed(Lookup(PubUncomp), [Keccak]);
    EvalOne(env, p, 2);
    assert EvalPiece(env, Lookup(PubUncomp), 2) == env.export_(PubUncomp);
    if env.export_(PubUncomp).Some? {
      HashChainOne(env, env.export_(PubUncomp).value, Keccak);
    }
  }

  lemma EvalMassaKey(env: Env)
    ensures Eval(env, MassaPubkey) == Wrapped(env.export_(PubEd25519), e => [0x00] + e)
  {
    EvalTwo(env, Literal([0]), Lookup(PubEd25519), 1);
    assert EvalPiece(env, Lookup(PubEd25519), 1) == env.export_(PubEd25519);
  }

  lemma EvalSolana(env: Env)
    ensures Eval(env, Solana) == env.export_(PubEd25519)
  {
    EvalOne(env, Lookup(PubEd25519), 2);
    assert EvalPiece(env, Lookup(PubEd25519), 2) == env.export_(PubEd25519);
  }

  lemma EvalTron(env: Env)
    ensures Eval(env, Tron) == Wrapped(env.export_(PubUncomp), u => [0x41] + env.hash(Keccak, u))
  {
    EvalHashed(env, [0x41], PubUncomp, Keccak);
  }

  lemma EvalMassa(env: Env)
    ensures Eval(env, Massa) == Wrapped(Eval(env, MassaPubkey), p => [0x00, 0x00] + env.hash(MassaHash, p))
  {
    EvalHashed(env, [0, 0], MassaPubkey, MassaHash);
  }

  lemma EvalCardano(env: Env)
    ensures Eval(env, Cardano) == Wrapped(env.export_(PubEd25519), e => [0x61] + env.hash(CardanoHash, e))
  {
    EvalHashed(env, [0x61], PubEd25519, CardanoHash);
  }

  /** The account formats of an Ed25519 key, byte for byte. */
  function AccountBytes(env: Env, ed: seq<byte>, name: Name): Option<seq<byte>> {
    match name
    case MassaPubkey => Some([0x00] + ed)
    case Massa => Some([0x00, 0x00] + env.hash(MassaHash, [0x00] + ed))
    case Solana => Some(ed)
    case Cardano => Some([0x61] + env.hash(CardanoHash, ed))
    case _ => None
  }

  lemma AccountScripts(env: Env, ed: seq<byte>, name: Name)
    requires env.export_(PubEd25519) == Some(ed)
    requires name.MassaPubkey? || name.Massa? || name.Solana? || name.Cardano?
    ensures Eval(env, name) == AccountBytes(env, ed, name)
  {
    match name
    case MassaPubkey => EvalMassaKey(env);
    case Massa =>
      EvalMassa(env);
      EvalMassaKey(env);
    case Solana => EvalSolana(env);
    case Cardano => EvalCardano(env);
  }

  // ---------------------------------------------------------------------------------------
  // A secp256k1 key
  // ---------------------------------------------------------------------------------------

  /** The exported forms of a secp256k1 key, and hashes and output keys of their usual lengths. */
  ghost predicate Exports(env: Env, comp: seq<byte>, uncomp: seq<byte>, output: seq<byte>) {
    && env.export_(PubComp) == Some(comp) && |comp| == 33
    && env.export_(PubUncomp) == Some(uncomp) && |uncomp| == 65
    && env.tweak(comp) == Some(output) && |output| == 32
    && (forall b: seq<byte> :: |env.hash(Ripemd160, b)| == 20 && |env.hash(Sha256, b)| == 32)
  }

  /** The scripts that hold the key or its hash, byte for byte. */
  function SingleBytes(env: Env, comp: seq<byte>, uncomp: seq<byte>, output: seq<byte>, name: Name): Option<seq<byte>> {
    match name
    case P2pkh => Some([0x76, 0xa9, 0x14] + env.hash(Ripemd160, env.hash(Sha256, comp)) + [0x88, 0xac])
    case P2pukh => Some([0x76, 0xa9, 0x14] + env.hash(Ripemd160, env.hash(Sha256, uncomp)) + [0x88, 0xac])
    case P2pk => Some([0x21] + comp + [0xac])
    case P2puk => Some([0x41] + uncomp + [0xac])
    case P2wpkh => Some([0x00, 0x14] + env.hash(Ripemd160, env.hash(Sha256, comp)))
    case P2tr => Some([0x51, 0x20] + output)
    case Eth => Some(env.hash(Keccak, uncomp))
    case Tron => Some([0x41] + env.hash(Keccak, uncomp))
    case _ => None
  }

  /** All scripts of a secp256k1 key: nested ones hold the hash of the script inside. */
  function KeyBytes(env: Env, comp: seq<byte>, uncomp: seq<byte>, output: seq<byte>, name: Name): Option<seq<byte>> {
    match InnerOf(name)
    case None => SingleBytes(env, comp, uncomp, output, name)
    case Some(inner) =>
      match SingleBytes(env, comp, uncomp, output, inner)
      case None => None
      case Some(s) => Some(if IsWitnessHash(name) then WshBytes(env, s) else ShBytes(env, s))
  }

  function ShBytes(env: Env, script: seq<byte>): seq<byte> {
    [0xa9, 0x14] + env.hash(Ripemd160, env.hash(Sha256, script)) + [0x87]
  }

  function WshBytes(env: Env, script: seq<byte>): seq<byte> {
    [0x00, 0x20] + env.hash(Sha256, script)
  }

  lemma KeyHashBytes(env: Env, b: seq<byte>)
    requires |env.hash(Ripemd160, env.hash(Sha256, b))| == 20
    ensures KeyHashScript(env, b) == [0x76, 0xa9, 0x14] + env.hash(Ripemd160, env.hash(Sha256, b)) + [0x88, 0xac]
    ensures [0x00] + PushBytes(env.hash(Ripemd160, env.hash(Sha256, b)))
         == [0x00, 0x14] + env.hash(Ripemd160, env.hash(Sha256, b))
    ensures [0xa9] + PushBytes(env.hash(Ripemd160, env.hash(Sha256, b))) + [0x87] == ShBytes(env, b)
  {
    var h := env.hash(Ripemd160, env.hash(Sha256, b));
    assert [0x76, 0xa9] + ([0x14] + h) == [0x76, 0xa9, 0x14] + h;
    assert [0x00] + ([0x14] + h) == [0x00, 0x14] + h;
    assert [0xa9] + ([0x14] + h) == [0xa9, 0x14] + h;
  }

  lemma OutputBytes(head: byte, v: seq<byte>)
    requires |v| == 32
    ensures [head] + PushBytes(v) == [head, 0x20] + v
  {
  }

  lemma SingleScripts(env: Env, comp: seq<byte>, uncomp: seq<byte>, output: seq<byte>, name: Name)
    requires Exports(env, comp, uncomp, output) && SingleBytes(env, comp, uncomp, output, name).Some?
    ensures Eval(env, name) == SingleBytes(env, comp, uncomp, output, name)
  {
    match name
    case P2pkh =>
      EvalP2pkh(env);
      KeyHashBytes(env, comp);
    case P2pukh =>
      EvalP2pukh(env);
      KeyHashBytes(env, uncomp);
    case P2pk => EvalKeyScript(env, PubComp);
    case P2puk => EvalKeyScript(env, PubUncomp);
    case P2wpkh =>
      EvalWpkh(env);
      KeyHashBytes(env, comp);
    case P2tr =>
      EvalTr(env);
      OutputBytes(0x51, output);
    case Eth => EvalEth(env);
    case Tron => EvalTron(env);
  }

  lemma NestedBytes(env: Env, name: Name, inner: Name, s: seq<byte>)
    requires forall b: seq<byte> :: |env.hash(Ripemd160, b)| == 20 && |env.hash(Sha256, b)| == 32
    requires InnerOf(name) == Some(inner) && Eval(env, inner) == Some(s)
    ensures Eval(env, name) == Some(if IsWitnessHash(name) then WshBytes(env, s) else ShBytes(env, s))
  {
    NestedScripts(env, name);
    KeyHashBytes(env, s);
    OutputBytes(0x00, env.hash(Sha256, s));
  }

  /** Every script of a secp256k1 key is, byte for byte, the one its name stands for. */
  lemma KeyScripts(env: Env, comp: seq<byte>, uncomp: seq<byte>, output: seq<byte>, name: Name)
    requires Exports(env, comp, uncomp, output) && KeyBytes(env, comp, uncomp, output, name).Some?
    ensures Eval(env, name) == KeyBytes(env, comp, uncomp, output, name)
  {
    match InnerOf(name)
    case None => SingleScripts(env, comp, uncomp, output, name);
    case Some(inner) =>
      SingleScripts(env, comp, uncomp, output, inner);
      NestedBytes(env, name, inner, SingleBytes(env, comp, uncomp, output, inner).value);
  }
}
