/**
  Output scripts as expressions over a public key (format.go, insertable.go, hash.go,
  pushbytes.go), with their pure evaluation.
*/
module ScriptFormats {
  import opened Bytes
  import opened Outcome
  import opened PushData

  /** The names `Generate` knows: four forms of the key itself and the entries of the format
      table. `Unknown` stands for every other string. */
  datatype Name =
    | PubPkix | PubEd25519 | PubComp | PubUncomp
    | P2pkh | P2pukh | P2pk | P2puk | P2wpkh | P2tr
    | P2shP2pkh | P2shP2pukh | P2shP2pk | P2shP2puk | P2shP2wpkh
    | P2wshP2pkh | P2wshP2pukh | P2wshP2pk | P2wshP2puk | P2wshP2wpkh
    | Eth | Tron | MassaPubkey | Massa | Solana | Cardano
    | Unknown(text: string)

  datatype HashName = Sha256 | Ripemd160 | Keccak | MassaHash | CardanoHash

  datatype Piece =
    | Literal(bytes: seq<byte>)
    | Lookup(name: Name)
    | Push(v: Piece)
    | Hashed(v: Piece, chain: seq<HashName>)
    | Tweaked(v: Piece)

  function Hash160(v: Piece): Piece {
    Hashed(v, [Sha256, Ripemd160])
  }

  predicate IsPubkeyName(name: Name) {
    name.PubPkix? || name.PubEd25519? || name.PubComp? || name.PubUncomp?
  }

  /** The table of formats. */
  function Format(name: Name): Option<seq<Piece>> {
    match name
    case P2pkh => Some([Literal([0x76, 0xa9]), Push(Hash160(Lookup(PubComp))), Literal([0x88, 0xac])])
    case P2pukh => Some([Literal([0x76, 0xa9]), Push(Hash160(Lookup(PubUncomp))), Literal([0x88, 0xac])])
    case P2pk => Some([Push(Lookup(PubComp)), Literal([0xac])])
    case P2puk => Some([Push(Lookup(PubUncomp)), Literal([0xac])])
    case P2wpkh => Some([Literal([0]), Push(Hash160(Lookup(PubComp)))])
    case P2tr => Some([Literal([0x51]), Push(Tweaked(Lookup(PubComp)))])
    case P2shP2pkh => Some(ScriptHash(P2pkh))
    case P2shP2pukh => Some(ScriptHash(P2pukh))
    case P2shP2pk => Some(ScriptHash(P2pk))
    case P2shP2puk => Some(ScriptHash(P2puk))
    case P2shP2wpkh => Some(ScriptHash(P2wpkh))
    case P2wshP2pkh => Some(WitnessHash(P2pkh))
    case P2wshP2pukh => Some(WitnessHash(P2pukh))
    case P2wshP2pk => Some(WitnessHash(P2pk))
    case P2wshP2puk => Some(WitnessHash(P2puk))
    case P2wshP2wpkh => Some(WitnessHash(P2wpkh))
    case Eth => Some([Hashed(Lookup(PubUncomp), [Keccak])])
    case Tron => Some([Literal([0x41]), Hashed(Lookup(PubUncomp), [Keccak])])
    case MassaPubkey => Some([Literal([0]), Lookup(PubEd25519)])
    case Massa => Some([Literal([0, 0]), Hashed(Lookup(MassaPubkey), [MassaHash])])
    case Solana => Some([Lookup(PubEd25519)])
    case Cardano => Some([Literal([0x61]), Hashed(Lookup(PubEd25519), [CardanoHash])])
    case _ => None
  }

  function ScriptHash(inner: Name): seq<Piece> {
    [Literal([0xa9]), Push(Hash160(Lookup(inner))), Literal([0x87])]
  }

  function WitnessHash(inner: Name): seq<Piece> {
    [Literal([0]), Push(Hashed(Lookup(inner), [Sha256]))]
  }

  /** A public key, as the forms it can be exported in, with the primitives the pieces use. */
  datatype Env = Env(export_: Name -> Option<seq<byte>>,
                     hash: (HashName, seq<byte>) -> seq<byte>,
                     tweak: seq<byte> -> Option<seq<byte>>)

  function HashChain(env: Env, b: seq<byte>, chain: seq<HashName>): seq<byte>
    decreases |chain|
  {
    if chain == [] then b else HashChain(env, env.hash(chain[0], b), chain[1..])
  }

  // ---------------------------------------------------------------------------------------
  // The lookup graph is acyclic
  // ---------------------------------------------------------------------------------------

  /** How deep the lookups of a format go. */
  function Rank(name: Name): nat {
    if IsPubkeyName(name) then 0
    else if name.P2pkh? || name.P2pukh? || name.P2pk? || name.P2puk? || name.P2wpkh? || name.P2tr? then 1
    else if name.MassaPubkey? then 1
    else 2
  }

  predicate LooksBelow(p: Piece, rank: nat) {
    match p
    case Literal(_) => true
    case Lookup(name) => Rank(name) < rank
    case Push(v) => LooksBelow(v, rank)
    case Hashed(v, _) => LooksBelow(v, rank)
    case Tweaked(v) => LooksBelow(v, rank)
  }

  predicate AllLookBelow(f: seq<Piece>, rank: nat) {
    forall i :: 0 <= i < |f| ==> LooksBelow(f[i], rank)
  }

  /** No format looks up anything of its own rank or above, so no chain of lookups is circular. */
  lemma FormatsAreAcyclic(name: Name)
    requires Format(name).Some?
    ensures AllLookBelow(Format(name).value, Rank(name))
  {
    var f := Format(name).value;
    forall i | 0 <= i < |f|
      ensures LooksBelow(f[i], Rank(name))
    {
      match f[i]
      case Push(v) =>
        assert v.Lookup? || v.v.Lookup?;
        assert LooksBelow(v, Rank(name));
      case _ =>
    }
  }

  // ---------------------------------------------------------------------------------------
  // Pure evaluation
  // ---------------------------------------------------------------------------------------

  function Eval(env: Env, name: Name): Option<seq<byte>>
    decreases Rank(name), 2, 0
  {
    if IsPubkeyName(name) then env.export_(name)
    else if Format(name).None? then None
    else
      FormatsAreAcyclic(name);
      EvalAll(env, Format(name).value, Rank(name))
  }

  function EvalAll(env: Env, f: seq<Piece>, rank: nat): Option<seq<byte>>
    requires AllLookBelow(f, rank)
    decreases rank, 1, |f|
  {
    if f == [] then Some([])
    else
      var n := |f| - 1;
      match EvalAll(env, f[..n], rank)
      case None => None
      case Some(head) =>
        match EvalPiece(env, f[n], rank)
        case None => None
        case Some(b) => Some(head + b)
  }

  function EvalPiece(env: Env, p: Piece, rank: nat): Option<seq<byte>>
    requires LooksBelow(p, rank)
    decreases rank, 0, p
  {
    match p
    case Literal(b) => Some(b)
    case Lookup(name) => Eval(env, name)
    case Push(v) => PushOf(EvalPiece(env, v, rank))
    case Hashed(v, chain) => HashOf(env, EvalPiece(env, v, rank), chain)
    case Tweaked(v) => TweakOf(env, EvalPiece(env, v, rank))
  }

  function PushOf(v: Option<seq<byte>>): Option<seq<byte>> {
    if v.None? then None else Some(PushBytes(v.value))
  }

  function HashOf(env: Env, v: Option<seq<byte>>, chain: seq<HashName>): Option<seq<byte>> {
    if v.None? then None else Some(HashChain(env, v.value, chain))
  }

  function TweakOf(env: Env, v: Option<seq<byte>>): Option<seq<byte>> {
    if v.None? then None else env.tweak(v.value)
  }

  // ---------------------------------------------------------------------------------------
  // The scripts the signer uses
  // ---------------------------------------------------------------------------------------

  /** A secp256k1 key with hash outputs of the usual lengths. */
  ghost predicate Secp256k1Env(env: Env) {
    && env.export_(PubComp).Some? && |env.export_(PubComp).value| == 33
    && (env.export_(PubComp).value[0] == 2 || env.export_(PubComp).value[0] == 3)
    && env.export_(PubUncomp).Some? && |env.export_(PubUncomp).value| == 65
    && forall b :: |env.hash(Ripemd160, b)| == 20
  }

  function KeyHashScript(env: Env, pub: seq<byte>): seq<byte> {
    [0x76, 0xa9] + PushBytes(env.hash(Ripemd160, env.hash(Sha256, pub))) + [0x88, 0xac]
  }

  lemma EvalTwo(env: Env, a: Piece, b: Piece, rank: nat)
    requires LooksBelow(a, rank) && LooksBelow(b, rank)
    ensures EvalAll(env, [a, b], rank) ==
            match (EvalPiece(env, a, rank), EvalPiece(env, b, rank))
            case (Some(x), Some(y)) => Some(x + y)
            case _ => None
  {
    assert [a, b][..1] == [a] && [a][..0] == [];
    assert EvalAll(env, [a], rank) == EvalPiece(env, a, rank) by {
      assert EvalAll(env, [], rank) == Some([]);
      if EvalPiece(env, a, rank).Some? {
        assert [] + EvalPiece(env, a, rank).value == EvalPiece(env, a, rank).value;
      }
    }
  }

  lemma EvalThree(env: Env, a: Piece, b: Piece, c: Piece, rank: nat)
    requires LooksBelow(a, rank) && LooksBelow(b, rank) && LooksBelow(c, rank)
    ensures EvalAll(env, [a, b, c], rank) ==
            match (EvalAll(env, [a, b], rank), EvalPiece(env, c, rank))
            case (Some(x), Some(y)) => Some(x + y)
            case _ => None
  {
    assert [a, b, c][..2] == [a, b];
  }

  lemma HashChainTwo(env: Env, b: seq<byte>, x: HashName, y: HashName)
    ensures HashChain(env, b, [x, y]) == env.hash(y, env.hash(x, b))
  {
    assert [x, y][1..] == [y] && [y][1..] == [];
    assert HashChain(env, env.hash(x, b), [y]) == HashChain(env, env.hash(y, env.hash(x, b)), []);
  }

  lemma EvalP2pkh(env: Env)
    ensures Eval(env, P2pkh) ==
            if env.export_(PubComp).None? then None else Some(KeyHashScript(env, env.export_(PubComp).value))
  {
    EvalKeyHash(env, PubComp);
  }

  lemma EvalP2pukh(env: Env)
    ensures Eval(env, P2pukh) ==
            if env.export_(PubUncomp).None? then None else Some(KeyHashScript(env, env.export_(PubUncomp).value))
  {
    EvalKeyHash(env, PubUncomp);
  }

  lemma EvalKeyHash(env: Env, form: Name)
    requires form.PubComp? || form.PubUncomp?
    ensures EvalAll(env, [Literal([0x76, 0xa9]), Push(Hash160(Lookup(form))), Literal([0x88, 0xac])], 1) ==
            if env.export_(form).None? then None else Some(KeyHashScript(env, env.export_(form).value))
  {
    var a, b, c := Literal([0x76, 0xa9]), Push(Hash160(Lookup(form))), Literal([0x88, 0xac]);
    EvalTwo(env, a, b, 1);
    EvalThree(env, a, b, c, 1);
    assert EvalPiece(env, Lookup(form), 1) == env.export_(form);
    if env.export_(form).Some? {
      HashChainTwo(env, env.export_(form).value, Sha256, Ripemd160);
    }
  }

  lemma EvalKeyScript(env: Env, form: Name)
    requires form.PubComp? || form.PubUncomp?
    ensures EvalAll(env, [Push(Lookup(form)), Literal([0xac])], 1) ==
            if env.export_(form).None? then None else Some(PushBytes(env.export_(form).value) + [0xac])
  {
    EvalTwo(env, Push(Lookup(form)), Literal([0xac]), 1);
    assert EvalPiece(env, Lookup(form), 1) == env.export_(form);
  }

  /** The lengths of the four single-key scripts, which the size estimate relies on. */
  lemma ScriptLengths(env: Env)
    requires Secp256k1Env(env)
    ensures Eval(env, P2pkh).Some? && |Eval(env, P2pkh).value| == 25
    ensures Eval(env, P2pukh).Some? && |Eval(env, P2pukh).value| == 25
    ensures Eval(env, P2pk).Some? && |Eval(env, P2pk).value| == 35
    ensures Eval(env, P2puk).Some? && |Eval(env, P2puk).value| == 67
  {
    EvalP2pkh(env);
    EvalP2pukh(env);
    EvalKeyScript(env, PubComp);
    EvalKeyScript(env, PubUncomp);
  }
}
