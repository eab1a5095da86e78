/**
 * Solana messages and transactions on the wire (solanatx.go), legacy and version 0, as codecs
 * composed from the pieces in the order the code reads them.
 */
module SolanaWire {
  import opened Bytes
  import opened SolanaCodec

  /** A 32-byte account key or block hash. */
  type Key = seq<byte>

  datatype Header = Header(required: byte, readonlySigned: byte, readonlyUnsigned: byte)

  datatype Instruction = Instruction(program: byte, accounts: seq<byte>, data: seq<byte>)

  datatype Lookup = Lookup(table: Key, writable: seq<byte>, readonly: seq<byte>)

  datatype Message = Message(header: Header, keys: seq<Key>, blockhash: Key, instructions: seq<Instruction>)

  /** A version 0 message is a message and the address table lookups behind it. */
  datatype MessageV0 = MessageV0(message: Message, lookups: seq<Lookup>)

  /** Left is a legacy message, right a version 0 message. */
  type Body = Either<Message, MessageV0>

  /** Signatures and message. */
  type Wire = (seq<seq<byte>>, Body)

  // ---------------------------------------------------------------------------------------
  // Header and keys
  // ---------------------------------------------------------------------------------------

  /** `validateSolanaHeader`: the counts fit the key list. */
  predicate HeaderValid(h: Header, keys: nat) {
    && h.required <= keys
    && h.readonlySigned <= h.required
    && h.required as nat + h.readonlyUnsigned <= keys
  }

  function WriteHeader(h: Header): seq<byte> {
    [h.required, h.readonlySigned, h.readonlyUnsigned]
  }

  function ReadHeader(s: seq<byte>): Read<Header> {
    if |s| < 3 then Bad(UnexpectedEof) else Got(Header(s[0], s[1], s[2]), s[3..])
  }

  function HeaderCodec(): Codec<Header> {
    Codec(WriteHeader, ReadHeader, h => true)
  }

  lemma HeaderLossless()
    ensures Lossless(HeaderCodec())
  {
    var c := HeaderCodec();
    forall h: Header, rest: seq<byte> | c.ok(h)
      ensures c.read(c.write(h) + rest) == Got(h, rest)
    {
      assert (WriteHeader(h) + rest)[3..] == rest;
    }
    forall s: seq<byte> | c.read(s).Got?
      ensures s == c.write(c.read(s).value) + c.read(s).rest
    {
      assert s == [s[0], s[1], s[2]] + s[3..];
    }
  }

  const MAX_KEYS := 256

  function KeysCodec(): Codec<seq<Key>> {
    List(Fixed(32), AtMost(MAX_KEYS))
  }

  function FrontOk(): ((Header, seq<Key>)) -> bool {
    (f: (Header, seq<Key>)) => HeaderValid(f.0, |f.1|)
  }

  function KeysAfter(): Header -> Codec<seq<Key>> {
    (h: Header) => KeysCodec()
  }

  function FrontCodec(): Codec<(Header, seq<Key>)> {
    Checked(Then(HeaderCodec(), KeysAfter()), FrontOk(), BadHeader)
  }

  lemma FrontLossless()
    ensures Lossless(FrontCodec())
  {
    FixedLossless(32);
    ListLossless(Fixed(32), AtMost(MAX_KEYS));
    HeaderLossless();
    ThenLossless(HeaderCodec(), KeysAfter());
    CheckedLossless(Then(HeaderCodec(), KeysAfter()), FrontOk(), BadHeader);
  }

  // ---------------------------------------------------------------------------------------
  // Instructions
  // ---------------------------------------------------------------------------------------

  /** Every index an instruction uses is below the number of addressable accounts. */
  predicate IndexesBelow(ix: Instruction, limit: nat) {
    ix.program < limit && forall i :: 0 <= i < |ix.accounts| ==> ix.accounts[i] < limit
  }

  predicate AllIndexesBelow(ixs: seq<Instruction>, limit: nat) {
    forall i :: 0 <= i < |ixs| ==> IndexesBelow(ixs[i], limit)
  }

  function ReadByte(s: seq<byte>): Read<byte> {
    if |s| < 1 then Bad(UnexpectedEof) else Got(s[0], s[1..])
  }

  function ByteCodec(): Codec<byte> {
    Codec((b: byte) => [b], ReadByte, (b: byte) => true)
  }

  lemma ByteLossless()
    ensures Lossless(ByteCodec())
  {
    var c := ByteCodec();
    forall b: byte, rest: seq<byte> | c.ok(b)
      ensures c.read(c.write(b) + rest) == Got(b, rest)
    {
      assert ([b] + rest)[1..] == rest;
    }
    forall s: seq<byte> | c.read(s).Got?
      ensures s == c.write(c.read(s).value) + c.read(s).rest
    {
      assert s == [s[0]] + s[1..];
    }
  }

  function CountedAfter<A>(): A -> Codec<seq<byte>> {
    (a: A) => Counted()
  }

  /** Two counted byte strings in a row. */
  function TwoCounted(): Codec<(seq<byte>, seq<byte>)> {
    Then(Counted(), CountedAfter<seq<byte>>())
  }

  lemma TwoCountedLossless()
    ensures Lossless(TwoCounted())
  {
    CountedLossless();
    ThenLossless(Counted(), CountedAfter<seq<byte>>());
  }

  function TwoCountedAfter<A>(): A -> Codec<(seq<byte>, seq<byte>)> {
    (a: A) => TwoCounted()
  }

  type InstructionParts = (byte, (seq<byte>, seq<byte>))

  function ToInstruction(): InstructionParts -> Instruction {
    (p: InstructionParts) => Instruction(p.0, p.1.0, p.1.1)
  }

  function OfInstruction(): Instruction -> InstructionParts {
    (ix: Instruction) => (ix.program, (ix.accounts, ix.data))
  }

  function RawInstructionCodec(): Codec<Instruction> {
    Mapped(Then(ByteCodec(), TwoCountedAfter<byte>()), ToInstruction(), OfInstruction())
  }

  lemma RawInstructionLossless()
    ensures Lossless(RawInstructionCodec())
  {
    ByteLossless();
    TwoCountedLossless();
    ThenLossless(ByteCodec(), TwoCountedAfter<byte>());
    MappedLossless(Then(ByteCodec(), TwoCountedAfter<byte>()), ToInstruction(), OfInstruction());
  }

  function Indexed(limit: nat): Instruction -> bool {
    (ix: Instruction) => IndexesBelow(ix, limit)
  }

  function InstructionCodec(limit: nat): Codec<Instruction> {
    Checked(RawInstructionCodec(), Indexed(limit), IndexOutOfRange)
  }

  function InstructionsCodec(limit: nat): Codec<seq<Instruction>> {
    List(InstructionCodec(limit), BytesLeft)
  }

  lemma InstructionsLossless(limit: nat)
    ensures Lossless(InstructionsCodec(limit))
  {
    RawInstructionLossless();
    CheckedLossless(RawInstructionCodec(), Indexed(limit), IndexOutOfRange);
    ListLossless(InstructionCodec(limit), BytesLeft);
  }

  // ---------------------------------------------------------------------------------------
  // Messages
  // ---------------------------------------------------------------------------------------

  type MessageParts = ((Header, seq<Key>), (Key, seq<Instruction>))

  function InstructionsAfter(limit: nat): Key -> Codec<seq<Instruction>> {
    (k: Key) => InstructionsCodec(limit)
  }

  function BackCodec(limit: nat): Codec<(Key, seq<Instruction>)> {
    Then(Fixed(32), InstructionsAfter(limit))
  }

  /** Legacy instructions may only use the static keys; version 0 checks its indexes later. */
  function Limit(versioned: bool, keys: nat): nat {
    if versioned then 256 else keys
  }

  function BackAfter(versioned: bool): ((Header, seq<Key>)) -> Codec<(Key, seq<Instruction>)> {
    (f: (Header, seq<Key>)) => BackCodec(Limit(versioned, |f.1|))
  }

  function Joined(): MessageParts -> Message {
    (p: MessageParts) => Message(p.0.0, p.0.1, p.1.0, p.1.1)
  }

  function Split(): Message -> MessageParts {
    (m: Message) => ((m.header, m.keys), (m.blockhash, m.instructions))
  }

  function MessageCodec(versioned: bool): Codec<Message> {
    Mapped(Then(FrontCodec(), BackAfter(versioned)), Joined(), Split())
  }

  lemma BackLossless(limit: nat)
    ensures Lossless(BackCodec(limit))
  {
    FixedLossless(32);
    InstructionsLossless(limit);
    ThenLossless(Fixed(32), InstructionsAfter(limit));
  }

  lemma MessageLossless(versioned: bool)
    ensures Lossless(MessageCodec(versioned))
  {
    FrontLossless();
    forall f: (Header, seq<Key>) | FrontCodec().ok(f)
      ensures Lossless(BackAfter(versioned)(f))
    {
      BackLossless(Limit(versioned, |f.1|));
    }
    ThenLossless(FrontCodec(), BackAfter(versioned));
    MappedLossless(Then(FrontCodec(), BackAfter(versioned)), Joined(), Split());
  }

  // ---------------------------------------------------------------------------------------
  // Address table lookups and version 0
  // ---------------------------------------------------------------------------------------

  type LookupParts = (Key, (seq<byte>, seq<byte>))

  function ToLookup(): LookupParts -> Lookup {
    (p: LookupParts) => Lookup(p.0, p.1.0, p.1.1)
  }

  function OfLookup(): Lookup -> LookupParts {
    (l: Lookup) => (l.table, (l.writable, l.readonly))
  }

  function LookupCodec(): Codec<Lookup> {
    Mapped(Then(Fixed(32), TwoCountedAfter<Key>()), ToLookup(), OfLookup())
  }

  lemma LookupLossless()
    ensures Lossless(LookupCodec())
  {
    FixedLossless(32);
    TwoCountedLossless();
    ThenLossless(Fixed(32), TwoCountedAfter<Key>());
    MappedLossless(Then(Fixed(32), TwoCountedAfter<Key>()), ToLookup(), OfLookup());
  }

  function LookupsCodec(): Codec<seq<Lookup>> {
    List(LookupCodec(), BytesLeft)
  }

  /** Accounts a version 0 message can address: the static keys and everything its lookups load. */
  function Addressable(keys: nat, lookups: seq<Lookup>): nat {
    if lookups == [] then keys
    else
      var n := |lookups| - 1;
      Addressable(keys, lookups[..n]) + |lookups[n].writable| + |lookups[n].readonly|
  }

  function V0Indexed(): MessageV0 -> bool {
    (v: MessageV0) => AllIndexesBelow(v.message.instructions, Addressable(|v.message.keys|, v.lookups))
  }

  function LookupsAfter(): Message -> Codec<seq<Lookup>> {
    (m: Message) => LookupsCodec()
  }

  function JoinedV0(): ((Message, seq<Lookup>)) -> MessageV0 {
    (p: (Message, seq<Lookup>)) => MessageV0(p.0, p.1)
  }

  function SplitV0(): MessageV0 -> (Message, seq<Lookup>) {
    (v: MessageV0) => (v.message, v.lookups)
  }

  /** A version 0 message behind its prefix byte. */
  function V0BodyCodec(): Codec<MessageV0> {
    Checked(Mapped(Then(MessageCodec(true), LookupsAfter()), JoinedV0(), SplitV0()), V0Indexed(), IndexOutOfRange)
  }

  lemma V0BodyLossless()
    ensures Lossless(V0BodyCodec())
  {
    MessageLossless(true);
    LookupLossless();
    ListLossless(LookupCodec(), BytesLeft);
    ThenLossless(MessageCodec(true), LookupsAfter());
    MappedLossless(Then(MessageCodec(true), LookupsAfter()), JoinedV0(), SplitV0());
    CheckedLossless(Mapped(Then(MessageCodec(true), LookupsAfter()), JoinedV0(), SplitV0()),
                    V0Indexed(), IndexOutOfRange);
  }

  function V0Codec(): Codec<MessageV0> {
    Prefixed(V0BodyCodec())
  }

  lemma V0Lossless()
    ensures Lossless(V0Codec())
  {
    V0BodyLossless();
    PrefixedLossless(V0BodyCodec());
  }

  // ---------------------------------------------------------------------------------------
  // Transactions
  // ---------------------------------------------------------------------------------------

  const MAX_SIGNATURES := 256

  function SignaturesCodec(): Codec<seq<seq<byte>>> {
    List(Fixed(64), AtMost(MAX_SIGNATURES))
  }

  function BodyCodec(): Codec<Body> {
    EitherCodec(MessageCodec(false), V0Codec())
  }

  function BodyAfter(): seq<seq<byte>> -> Codec<Body> {
    (sigs: seq<seq<byte>>) => BodyCodec()
  }

  function TxCodec(): Codec<Wire> {
    Then(SignaturesCodec(), BodyAfter())
  }

  lemma FirstByte(versioned: bool, m: Message)
    ensures |MessageCodec(versioned).write(m)| > 0 && MessageCodec(versioned).write(m)[0] == m.header.required
  {
  }

  lemma BodyLossless()
    ensures Lossless(BodyCodec())
  {
    MessageLossless(false);
    V0Lossless();
    assert NeverEmpty(MessageCodec(false)) by {
      forall m: Message | MessageCodec(false).ok(m) ensures |MessageCodec(false).write(m)| > 0 {
        FirstByte(false, m);
      }
    }
    EitherLossless(MessageCodec(false), V0Codec());
  }

  /** The transaction codec is lossless: it has exactly one spelling per value it accepts. */
  lemma TxLossless()
    ensures Lossless(TxCodec())
  {
    FixedLossless(64);
    ListLossless(Fixed(64), AtMost(MAX_SIGNATURES));
    BodyLossless();
    ThenLossless(SignaturesCodec(), BodyAfter());
  }

  // ---------------------------------------------------------------------------------------
  // Which transactions the codec is for, spelled out
  // ---------------------------------------------------------------------------------------

  /** The Go types: keys and block hashes are 32-byte arrays. */
  ghost predicate Typed(m: Message) {
    |m.blockhash| == 32 && forall i :: 0 <= i < |m.keys| ==> |m.keys[i]| == 32
  }

  ghost predicate TypedLookups(ls: seq<Lookup>) {
    forall i :: 0 <= i < |ls| ==> |ls[i].table| == 32
  }

  ghost predicate TypedBody(b: Body) {
    match b
    case Left(m) => Typed(m)
    case Right(v) => Typed(v.message) && TypedLookups(v.lookups)
  }

  /** Every count fits a compact-u16; the writer panics on any other message. */
  predicate InstructionCounts(ixs: seq<Instruction>) {
    && |ixs| <= MAX_COMPACT
    && forall i :: 0 <= i < |ixs| ==> |ixs[i].accounts| <= MAX_COMPACT && |ixs[i].data| <= MAX_COMPACT
  }

  predicate MessageCounts(m: Message) {
    |m.keys| <= MAX_COMPACT && InstructionCounts(m.instructions)
  }

  predicate LookupCounts(ls: seq<Lookup>) {
    && |ls| <= MAX_COMPACT
    && forall i :: 0 <= i < |ls| ==> |ls[i].writable| <= MAX_COMPACT && |ls[i].readonly| <= MAX_COMPACT
  }

  predicate BodyCounts(b: Body) {
    match b
    case Left(m) => MessageCounts(m)
    case Right(v) => MessageCounts(v.message) && LookupCounts(v.lookups)
  }

  /** What unmarshalling checks on top: key count, header counts, indexes, and the legacy prefix bit. */
  predicate MessageValid(m: Message, addressable: nat) {
    |m.keys| <= MAX_KEYS && HeaderValid(m.header, |m.keys|) && AllIndexesBelow(m.instructions, addressable)
  }

  predicate BodyValid(b: Body) {
    match b
    case Left(m) => MessageValid(m, |m.keys|) && m.header.required < 0x80
    case Right(v) => MessageValid(v.message, Addressable(|v.message.keys|, v.lookups))
  }

  lemma KeysOk(keys: seq<Key>)
    ensures KeysCodec().ok(keys) <==> |keys| <= MAX_KEYS && forall i :: 0 <= i < |keys| ==> |keys[i]| == 32
  {
    if |keys| <= MAX_KEYS && forall i :: 0 <= i < |keys| ==> |keys[i]| == 32 {
      forall i | 0 <= i < |keys| ensures Fixed(32).ok(keys[i]) { }
    }
    if KeysCodec().ok(keys) {
      forall i | 0 <= i < |keys| ensures |keys[i]| == 32 { assert Fixed(32).ok(keys[i]); }
    }
  }

  lemma InstructionsOk(ixs: seq<Instruction>, limit: nat)
    ensures InstructionsCodec(limit).ok(ixs) <==> InstructionCounts(ixs) && AllIndexesBelow(ixs, limit)
  {
    var c := InstructionCodec(limit);
    if InstructionsCodec(limit).ok(ixs) {
      forall i | 0 <= i < |ixs|
        ensures |ixs[i].accounts| <= MAX_COMPACT && |ixs[i].data| <= MAX_COMPACT && IndexesBelow(ixs[i], limit)
      {
        assert c.ok(ixs[i]);
      }
    }
    if InstructionCounts(ixs) && AllIndexesBelow(ixs, limit) {
      forall i | 0 <= i < |ixs| ensures c.ok(ixs[i]) { }
    }
  }

  lemma IndexesAreBytes(ixs: seq<Instruction>)
    ensures AllIndexesBelow(ixs, 256)
  {
  }

  lemma MessageOk(m: Message, versioned: bool)
    ensures MessageCodec(versioned).ok(m)
       <==> Typed(m) && MessageCounts(m) && MessageValid(m, Limit(versioned, |m.keys|))
  {
    KeysOk(m.keys);
    InstructionsOk(m.instructions, Limit(versioned, |m.keys|));
  }

  lemma LookupsOk(ls: seq<Lookup>)
    ensures LookupsCodec().ok(ls) <==> TypedLookups(ls) && LookupCounts(ls)
  {
    var c := LookupCodec();
    if LookupsCodec().ok(ls) {
      forall i | 0 <= i < |ls|
        ensures |ls[i].table| == 32 && |ls[i].writable| <= MAX_COMPACT && |ls[i].readonly| <= MAX_COMPACT
      {
        assert c.ok(ls[i]);
      }
    }
    if TypedLookups(ls) && LookupCounts(ls) {
      forall i | 0 <= i < |ls| ensures c.ok(ls[i]) { }
    }
  }

  lemma LegacyOk(m: Message)
    ensures BodyCodec().ok(Left(m)) <==> TypedBody(Left(m)) && BodyCounts(Left(m)) && BodyValid(Left(m))
  {
    MessageOk(m, false);
    FirstByte(false, m);
  }

  lemma V0Ok(v: MessageV0)
    ensures V0Codec().ok(v) <==> TypedBody(Right(v)) && BodyCounts(Right(v)) && BodyValid(Right(v))
  {
    MessageOk(v.message, true);
    IndexesAreBytes(v.message.instructions);
    LookupsOk(v.lookups);
  }

  /** The codec is for exactly the well-typed, countable, valid messages. */
  lemma BodyOk(b: Body)
    ensures BodyCodec().ok(b) <==> TypedBody(b) && BodyCounts(b) && BodyValid(b)
  {
    match b
    case Left(m) => LegacyOk(m);
    case Right(v) => V0Ok(v);
  }
}
