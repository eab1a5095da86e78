/**
 * Solana messages and transactions, place by place (solanatx.go): header bytes, keys, block hash
 * and instructions, and the roles of the accounts read off the bytes.
 */
module SolanaLayout {
  import opened Bytes
  import opened SolanaCodec
  import opened SolanaCompile
  import opened SolanaTransaction
  import opened SolanaWire

  /** A compact-u16: seven bits a byte, low ones first, the top bit set on all but the last. */
  lemma CompactIs(v: nat)
    requires v <= 0xffff
    ensures v < 0x80 ==> EncodeCompact(v) == [v]
    ensures 0x80 <= v < 0x4000 ==> EncodeCompact(v) == [0x80 + v % 0x80, v / 0x80]
    ensures 0x4000 <= v ==> EncodeCompact(v) == [0x80 + v % 0x80, 0x80 + v / 0x80 % 0x80, v / 0x4000]
  {
  }

  /** The reader's limits in figures, for a legacy message: 256 keys, counts that fit, fewer than 128 signers. */
  lemma LegacyLimits(m: Message)
    ensures BodyValid(Left(m)) && BodyCounts(Left(m))
       <==> && |m.keys| <= 256 && |m.instructions| <= 65_535 && m.header.required < 128
            && m.header.readonlySigned <= m.header.required
            && m.header.required as nat + m.header.readonlyUnsigned <= |m.keys|
            && (forall i :: 0 <= i < |m.instructions| ==>
                  && m.instructions[i].program < |m.keys|
                  && |m.instructions[i].accounts| <= 65_535 && |m.instructions[i].data| <= 65_535)
            && (forall i, j :: 0 <= i < |m.instructions| && 0 <= j < |m.instructions[i].accounts| ==>
                  m.instructions[i].accounts[j] < |m.keys|)
  {
  }

  /** A counted byte string. */
  function Counted16(b: seq<byte>): seq<byte>
    requires |b| <= MAX_COMPACT
  {
    EncodeCompact(|b|) + b
  }

  function InstructionPiece(ix: Instruction): seq<byte>
    requires |ix.accounts| <= MAX_COMPACT && |ix.data| <= MAX_COMPACT
  {
    [ix.program] + Counted16(ix.accounts) + Counted16(ix.data)
  }

  function InstructionPieces(ixs: seq<Instruction>): seq<seq<byte>>
    requires InstructionCounts(ixs)
  {
    seq(|ixs|, i requires 0 <= i < |ixs| => InstructionPiece(ixs[i]))
  }

  function LookupPiece(l: Lookup): seq<byte>
    requires |l.writable| <= MAX_COMPACT && |l.readonly| <= MAX_COMPACT
  {
    l.table + Counted16(l.writable) + Counted16(l.readonly)
  }

  function LookupPieces(ls: seq<Lookup>): seq<seq<byte>>
    requires LookupCounts(ls)
  {
    seq(|ls|, i requires 0 <= i < |ls| => LookupPiece(ls[i]))
  }

  /** The legacy message, and the body of a version 0 one. */
  function MessageBytes(m: Message): seq<byte>
    requires MessageCounts(m)
  {
    [m.header.required, m.header.readonlySigned, m.header.readonlyUnsigned]
    + EncodeCompact(|m.keys|) + Flat(m.keys)
    + m.blockhash
    + EncodeCompact(|m.instructions|) + Flat(InstructionPieces(m.instructions))
  }

  function BodyBytes(b: Body): seq<byte>
    requires BodyCounts(b)
  {
    match b
    case Left(m) => MessageBytes(m)
    case Right(v) => [0x80] + MessageBytes(v.message) + EncodeCompact(|v.lookups|) + Flat(LookupPieces(v.lookups))
  }

  // ---------------------------------------------------------------------------------------
  // The codecs write these bytes
  // ---------------------------------------------------------------------------------------

  lemma FlatCons(x: seq<byte>, rest: seq<seq<byte>>)
    ensures Flat([x] + rest) == x + Flat(rest)
  {
    FlatAt([x] + rest, 0);
    assert ([x] + rest)[..0] == [] && ([x] + rest)[1..] == rest;
    assert Flat([]) + x == x;
  }

  /** A list is written as its items' bytes one after the other. */
  lemma {:induction false} WriteAllIsFlat<T>(c: Codec<T>, xs: seq<T>, pieces: seq<seq<byte>>)
    requires |pieces| == |xs| && forall i :: 0 <= i < |xs| ==> pieces[i] == c.write(xs[i])
    ensures WriteAll(c, xs) == Flat(pieces)
    decreases |xs|
  {
    if xs != [] {
      WriteAllIsFlat(c, xs[1..], pieces[1..]);
      FlatCons(pieces[0], pieces[1..]);
      assert pieces == [pieces[0]] + pieces[1..];
    }
  }

  lemma InstructionWritten(ix: Instruction)
    requires |ix.accounts| <= MAX_COMPACT && |ix.data| <= MAX_COMPACT
    ensures RawInstructionCodec().write(ix) == InstructionPiece(ix)
  {
    Associates([ix.program], Counted16(ix.accounts), Counted16(ix.data));
  }

  lemma LookupWritten(l: Lookup)
    requires |l.writable| <= MAX_COMPACT && |l.readonly| <= MAX_COMPACT
    ensures LookupCodec().write(l) == LookupPiece(l)
  {
    Associates(l.table, Counted16(l.writable), Counted16(l.readonly));
  }

  lemma InstructionsWritten(limit: nat, ixs: seq<Instruction>)
    requires InstructionCounts(ixs)
    ensures InstructionsCodec(limit).write(ixs) == EncodeCompact(|ixs|) + Flat(InstructionPieces(ixs))
  {
    forall i | 0 <= i < |ixs| ensures InstructionPieces(ixs)[i] == InstructionCodec(limit).write(ixs[i]) {
      InstructionWritten(ixs[i]);
    }
    WriteAllIsFlat(InstructionCodec(limit), ixs, InstructionPieces(ixs));
  }

  lemma LookupsWritten(ls: seq<Lookup>)
    requires LookupCounts(ls)
    ensures LookupsCodec().write(ls) == EncodeCompact(|ls|) + Flat(LookupPieces(ls))
  {
    forall i | 0 <= i < |ls| ensures LookupPieces(ls)[i] == LookupCodec().write(ls[i]) {
      LookupWritten(ls[i]);
    }
    WriteAllIsFlat(LookupCodec(), ls, LookupPieces(ls));
  }

  lemma FrontWritten(h: Header, keys: seq<Key>)
    requires |keys| <= MAX_COMPACT
    ensures FrontCodec().write((h, keys))
         == [h.required, h.readonlySigned, h.readonlyUnsigned] + (EncodeCompact(|keys|) + Flat(keys))
  {
    WriteAllIsFlat(Fixed(32), keys, keys);
  }

  lemma MessageWritten(versioned: bool, m: Message)
    requires MessageCounts(m)
    ensures MessageCodec(versioned).write(m) == MessageBytes(m)
  {
    FrontWritten(m.header, m.keys);
    InstructionsWritten(Limit(versioned, |m.keys|), m.instructions);
    FiveParts([m.header.required, m.header.readonlySigned, m.header.readonlyUnsigned], EncodeCompact(|m.keys|),
              Flat(m.keys), m.blockhash, EncodeCompact(|m.instructions|), Flat(InstructionPieces(m.instructions)));
  }

  lemma FiveParts(a: seq<byte>, b: seq<byte>, c: seq<byte>, d: seq<byte>, e: seq<byte>, f: seq<byte>)
    ensures (a + (b + c)) + (d + (e + f)) == a + b + c + d + e + f
  {
  }

  /** What is signed, and what follows the signatures on the wire. */
  lemma BodyWritten(b: Body)
    requires BodyCounts(b)
    ensures BodyCodec().write(b) == BodyBytes(b)
  {
    match b
    case Left(m) => MessageWritten(false, m);
    case Right(v) =>
      MessageWritten(true, v.message);
      LookupsWritten(v.lookups);
      Four([0x80], MessageBytes(v.message), EncodeCompact(|v.lookups|), Flat(LookupPieces(v.lookups)));
  }

  lemma Four(a: seq<byte>, b: seq<byte>, c: seq<byte>, d: seq<byte>)
    ensures a + (b + (c + d)) == a + b + c + d
  {
  }

  /** A marshalled transaction: the count of signatures, the signatures or 64 zeros each, the message. */
  lemma TransactionWritten(sigs: seq<seq<byte>>, b: Body)
    requires Marshal(sigs, b).Written?
    ensures Marshal(sigs, b).bytes == EncodeCompact(|sigs|) + Flat(Slots(sigs)) + BodyBytes(b)
  {
    BodyWritten(b);
    WriteAllIsFlat(Fixed(64), Slots(sigs), Slots(sigs));
  }

  // ---------------------------------------------------------------------------------------
  // Roles
  // ---------------------------------------------------------------------------------------

  /** The account key at place i in the bytes of a message. */
  function KeyOnWire(bytes: seq<byte>, from: nat, i: nat): seq<byte>
    requires from + 32 * i + 32 <= |bytes|
  {
    bytes[from + 32 * i..from + 32 * i + 32]
  }

  lemma KeysFound(m: Message, i: nat)
    requires MessageCounts(m) && Typed(m) && i < |m.keys|
    ensures var bytes, from := MessageBytes(m), 3 + |EncodeCompact(|m.keys|)|;
            && from + 32 * i + 32 <= |bytes| && KeyOnWire(bytes, from, i) == m.keys[i]
            && bytes[0] == m.header.required && bytes[1] == m.header.readonlySigned
            && bytes[2] == m.header.readonlyUnsigned
  {
    FlatPlace(m.keys, 32, i);
    KeyPlace([m.header.required, m.header.readonlySigned, m.header.readonlyUnsigned], EncodeCompact(|m.keys|),
             Flat(m.keys), m.blockhash, EncodeCompact(|m.instructions|), Flat(InstructionPieces(m.instructions)),
             32 * i);
  }

  lemma KeyPlace(a: seq<byte>, b: seq<byte>, c: seq<byte>, d: seq<byte>, e: seq<byte>, f: seq<byte>, at: nat)
    requires at + 32 <= |c| && |a| == 3
    ensures var s, from := a + b + c + d + e + f, 3 + |b|;
            from + at + 32 <= |s| && s[from + at..from + at + 32] == c[at..at + 32] && s[0..3] == a
            && s[0] == a[0] && s[1] == a[1] && s[2] == a[2]
  {
  }

  /**
   * The key at place i of n keys must sign exactly if i is below the first byte, and must be
   * written exactly if i is below the first byte less the second, or at or above the first byte
   * and below n less the third.
   */
  ghost predicate RolesAt(fee: Key, calls: seq<Call>, bytes: seq<byte>, from: nat, n: nat, i: nat) {
    && from >= 3 && from + 32 * i + 32 <= |bytes|
    && (i < bytes[0] <==> MustSign(fee, calls, KeyOnWire(bytes, from, i)))
    && (i < bytes[0] as int - bytes[1] || (bytes[0] <= i && i < n - bytes[2])
        <==> MustWrite(fee, calls, KeyOnWire(bytes, from, i)))
  }

  lemma RolesFound(fee: Key, calls: seq<Call>, m: Message, i: nat)
    requires MessageCounts(m) && Typed(m) && i < |m.keys| && StatusRight(fee, calls, m.header, m.keys, i)
    ensures RolesAt(fee, calls, MessageBytes(m), 3 + |EncodeCompact(|m.keys|)|, |m.keys|, i)
  {
    KeysFound(m, i);
  }

  lemma RolesWritten(fee: Key, calls: seq<Call>, m: Message, i: nat) returns (bytes: seq<byte>)
    requires MessageCounts(m) && Typed(m) && i < |m.keys| && StatusRight(fee, calls, m.header, m.keys, i)
    ensures bytes == BodyCodec().write(Left(m))
    ensures RolesAt(fee, calls, bytes, 3 + |EncodeCompact(|m.keys|)|, |m.keys|, i)
  {
    BodyWritten(Left(m));
    bytes := MessageBytes(m);
    RolesFound(fee, calls, m, i);
  }

  /** With at most 255 signers, the roles of a compiled legacy transaction can be read off its message bytes. */
  lemma RolesOnTheWire(fee: Key, blockhash: Key, calls: seq<Call>, m: Message, i: nat) returns (bytes: seq<byte>)
    requires Compile(fee, blockhash, calls).Ok? && Compile(fee, blockhash, calls).value.message == m
    requires TypedCalls(fee, blockhash, calls) && CountableCalls(calls)
    requires |SignerKeys(fee, calls)| <= 255 && i < |m.keys|
    ensures MessageCounts(m) && bytes == BodyCodec().write(Left(m))
    ensures RolesAt(fee, calls, bytes, 3 + |EncodeCompact(|m.keys|)|, |m.keys|, i)
  {
    CompiledShape(fee, blockhash, calls);
    StatusHolds(fee, blockhash, calls, i);
    bytes := RolesWritten(fee, calls, m, i);
  }

  lemma StatusHolds(fee: Key, blockhash: Key, calls: seq<Call>, i: nat)
    requires Compile(fee, blockhash, calls).Ok? && |SignerKeys(fee, calls)| <= 255
    requires i < |Compile(fee, blockhash, calls).value.message.keys|
    ensures var m := Compile(fee, blockhash, calls).value.message; StatusRight(fee, calls, m.header, m.keys, i)
  {
    StatusExactly(fee, blockhash, calls);
  }
}
