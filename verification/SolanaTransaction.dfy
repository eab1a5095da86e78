/** The Solana transaction object: marshalling, unmarshalling, signing and verifying (solanatx.go). */
module SolanaTransaction {
  import opened Bytes
  import opened KeyOrder
  import opened Outcome
  import opened SolanaCodec
  import opened SolanaWire

  /** The writer fails on a signature of the wrong length and panics on a count above 0xffff. */
  datatype Marshalled = Written(bytes: seq<byte>) | BadSignature | Panics

  predicate SignatureSized(sig: seq<byte>) {
    |sig| == 0 || |sig| == 64
  }

  predicate SignaturesSized(sigs: seq<seq<byte>>) {
    forall i :: 0 <= i < |sigs| ==> SignatureSized(sigs[i])
  }

  /** A missing signature is written as 64 zero bytes. */
  function Slot(sig: seq<byte>): (s: seq<byte>)
    ensures SignatureSized(sig) ==> |s| == 64
  {
    if |sig| == 0 then Zeros(64) else sig
  }

  function Slots(sigs: seq<seq<byte>>): (r: seq<seq<byte>>)
    ensures |r| == |sigs|
  {
    seq(|sigs|, i requires 0 <= i < |sigs| => Slot(sigs[i]))
  }

  function Marshal(sigs: seq<seq<byte>>, body: Body): Marshalled {
    if !BodyCounts(body) || |sigs| > MAX_COMPACT then Panics
    else if !SignaturesSized(sigs) then BadSignature
    else Written(TxCodec().write((Slots(sigs), body)))
  }

  /** The transactions that come back from the wire. */
  ghost predicate Transportable(sigs: seq<seq<byte>>, body: Body) {
    |sigs| <= MAX_SIGNATURES && BodyValid(body)
  }

  lemma SlotsOk(sigs: seq<seq<byte>>)
    requires SignaturesSized(sigs)
    ensures SignaturesCodec().ok(Slots(sigs)) <==> |sigs| <= MAX_SIGNATURES
  {
    forall i | 0 <= i < |sigs| ensures Fixed(64).ok(Slots(sigs)[i]) {
      assert SignatureSized(sigs[i]);
    }
  }

  lemma TxOk(sigs: seq<seq<byte>>, body: Body)
    requires TypedBody(body) && BodyCounts(body) && SignaturesSized(sigs)
    ensures TxCodec().ok((Slots(sigs), body)) <==> Transportable(sigs, body)
  {
    SlotsOk(sigs);
    BodyOk(body);
  }

  /**
   * Whatever can be marshalled reads back, in front of any trailing bytes, as the same message
   * with missing signatures filled in, exactly when it is valid: at most 256 signatures and
   * keys, header counts and indexes in range, and fewer than 128 signers if it is legacy.
   */
  lemma RoundTripsExactly(sigs: seq<seq<byte>>, body: Body, rest: seq<byte>)
    requires TypedBody(body) && Marshal(sigs, body).Written?
    ensures TxCodec().read(Marshal(sigs, body).bytes + rest) == Got((Slots(sigs), body), rest)
       <==> Transportable(sigs, body)
  {
    TxLossless();
    TxOk(sigs, body);
    ReadsBackExactly(TxCodec(), (Slots(sigs), body), rest);
  }

  lemma FilledSlots(sigs: seq<seq<byte>>)
    requires SignaturesCodec().ok(sigs)
    ensures SignaturesSized(sigs) && Slots(sigs) == sigs && |sigs| <= MAX_SIGNATURES
  {
    forall i | 0 <= i < |sigs| ensures |sigs[i]| == 64 {
      assert Fixed(64).ok(sigs[i]);
    }
  }

  /** Whenever reading succeeds, writing the result gives exactly the bytes that were consumed. */
  lemma ReadingIsCanonical(data: seq<byte>)
    requires TxCodec().read(data).Got?
    ensures var Got((sigs, body), rest) := TxCodec().read(data);
            && TypedBody(body) && Transportable(sigs, body)
            && Marshal(sigs, body).Written? && data == Marshal(sigs, body).bytes + rest
  {
    TxLossless();
    var c := TxCodec();
    assert c.ok(c.read(data).value);
    var Got((sigs, body), rest) := c.read(data);
    FilledSlots(sigs);
    BodyOk(body);
  }

  // ---------------------------------------------------------------------------------------
  // Loops with a moving cursor
  // ---------------------------------------------------------------------------------------

  function Behind<T>(xs: seq<T>, r: Read<seq<T>>): Read<seq<T>> {
    match r
    case Bad(e) => Bad(e)
    case Got(ys, rest) => Got(xs + ys, rest)
  }

  lemma BehindCons<T>(xs: seq<T>, x: T, r: Read<seq<T>>)
    ensures Behind(xs, Cons(x, r)) == Behind(xs + [x], r)
  {
    match r
    case Bad(_) =>
    case Got(ys, _) =>
      assert xs + ([x] + ys) == xs + [x] + ys;
  }

  lemma BehindNothing<T>(r: Read<seq<T>>)
    ensures Behind([], r) == r
  {
    match r
    case Bad(_) =>
    case Got(ys, _) => assert [] + ys == ys;
  }

  method ReadAllLoop<T>(c: Codec<T>, n: nat, data: seq<byte>) returns (r: Read<seq<T>>)
    ensures r == ReadAll(c, n, data)
  {
    var xs: seq<T>, cursor := [], data;
    BehindNothing(ReadAll(c, n, data));
    for i := 0 to n
      invariant ReadAll(c, n, data) == Behind(xs, ReadAll(c, n - i, cursor))
    {
      match c.read(cursor) {
        case Bad(e) => return Bad(e);
        case Got(x, left) =>
          BehindCons(xs, x, ReadAll(c, n - i - 1, left));
          xs, cursor := xs + [x], left;
      }
    }
    assert xs + [] == xs;
    return Got(xs, cursor);
  }

  lemma {:induction false} WriteAllSnoc<T>(c: Codec<T>, xs: seq<T>, x: T)
    ensures WriteAll(c, xs + [x]) == WriteAll(c, xs) + c.write(x)
    decreases |xs|
  {
    if xs == [] {
      assert xs + [x] == [x];
      assert c.write(x) + [] == c.write(x);
    } else {
      assert (xs + [x])[1..] == xs[1..] + [x];
      WriteAllSnoc(c, xs[1..], x);
    }
  }

  method WriteAllLoop<T>(c: Codec<T>, xs: seq<T>) returns (buf: seq<byte>)
    ensures buf == WriteAll(c, xs)
  {
    buf := [];
    for i := 0 to |xs|
      invariant buf == WriteAll(c, xs[..i])
    {
      WriteAllSnoc(c, xs[..i], xs[i]);
      assert xs[..i + 1] == xs[..i] + [xs[i]];
      buf := buf + c.write(xs[i]);
    }
    assert xs[..|xs|] == xs;
  }

  method MarshalMessage(m: Message, versioned: bool) returns (buf: seq<byte>)
    requires MessageCounts(m)
    ensures buf == MessageCodec(versioned).write(m)
  {
    buf := [m.header.required, m.header.readonlySigned, m.header.readonlyUnsigned];
    var keys := WriteAllLoop(Fixed(32), m.keys);
    buf := buf + (EncodeCompact(|m.keys|) + keys);
    var items := WriteAllLoop(InstructionCodec(Limit(versioned, |m.keys|)), m.instructions);
    buf := buf + (m.blockhash + (EncodeCompact(|m.instructions|) + items));
  }

  /** Up to the header check. */
  method UnmarshalFront(data: seq<byte>) returns (r: Read<(Header, seq<Key>)>)
    ensures r == FrontCodec().read(data)
  {
    if |data| < 3 {
      return Bad(UnexpectedEof);
    }
    var header := Header(data[0], data[1], data[2]);
    var count := DecodeCompact(data[3..]);
    if count.Bad? {
      return Bad(count.error);
    }
    if count.value > MAX_KEYS {
      return Bad(TooMany);
    }
    var keys := ReadAllLoop(Fixed(32), count.value, count.rest);
    if keys.Bad? {
      return Bad(keys.error);
    }
    if !HeaderValid(header, |keys.value|) {
      return Bad(BadHeader);
    }
    return Got((header, keys.value), keys.rest);
  }

  method UnmarshalBack(data: seq<byte>, limit: nat) returns (r: Read<(Key, seq<Instruction>)>)
    ensures r == BackCodec(limit).read(data)
  {
    if |data| < 32 {
      return Bad(UnexpectedEof);
    }
    var blockhash := data[..32];
    var count := DecodeCompact(data[32..]);
    if count.Bad? {
      return Bad(count.error);
    }
    if count.value > |count.rest| {
      return Bad(TooMany);
    }
    var items := ReadAllLoop(InstructionCodec(limit), count.value, count.rest);
    if items.Bad? {
      return Bad(items.error);
    }
    return Got((blockhash, items.value), items.rest);
  }

  method UnmarshalMessage(data: seq<byte>, versioned: bool) returns (r: Read<Message>)
    ensures r == MessageCodec(versioned).read(data)
  {
    var front := UnmarshalFront(data);
    if front.Bad? {
      return Bad(front.error);
    }
    var back := UnmarshalBack(front.rest, Limit(versioned, |front.value.1|));
    if back.Bad? {
      return Bad(back.error);
    }
    return Got(Message(front.value.0, front.value.1, back.value.0, back.value.1), back.rest);
  }

  method UnmarshalV0(data: seq<byte>) returns (r: Read<MessageV0>)
    ensures r == V0Codec().read(data)
  {
    if |data| < 1 {
      return Bad(UnexpectedEof);
    }
    if data[0] < 0x80 {
      return Bad(NotVersioned);
    }
    if data[0] % 0x80 != 0 {
      return Bad(UnsupportedVersion);
    }
    var m := UnmarshalMessage(data[1..], true);
    if m.Bad? {
      return Bad(m.error);
    }
    var count := DecodeCompact(m.rest);
    if count.Bad? {
      return Bad(count.error);
    }
    if count.value > |count.rest| {
      return Bad(TooMany);
    }
    var lookups := ReadAllLoop(LookupCodec(), count.value, count.rest);
    if lookups.Bad? {
      return Bad(lookups.error);
    }
    if !AllIndexesBelow(m.value.instructions, Addressable(|m.value.keys|, lookups.value)) {
      return Bad(IndexOutOfRange);
    }
    return Got(MessageV0(m.value, lookups.value), lookups.rest);
  }

  // ---------------------------------------------------------------------------------------
  // Signatures
  // ---------------------------------------------------------------------------------------

  datatype Ed25519 = Ed25519(
    public: seq<byte> -> Key,
    sign: (seq<byte>, seq<byte>) -> seq<byte>,
    verify: (Key, seq<byte>, seq<byte>) -> bool)

  /** What a key signs verifies under its public half, and signatures are 64 bytes. */
  ghost predicate Sound(ed: Ed25519) {
    forall sk: seq<byte>, msg: seq<byte> :: |ed.sign(sk, msg)| == 64 && ed.verify(ed.public(sk), msg, ed.sign(sk, msg))
  }

  datatype SignError = NotASigner | TooFewKeys | TooFewSignatures | MissingSignature | BadSignatureValue | Crashed

  /** The first slot of a public key among the signers. */
  function SlotOf(signers: seq<Key>, pub: Key): Option<nat> {
    if signers == [] then None
    else if signers[0] == pub then Some(0)
    else
      match SlotOf(signers[1..], pub)
      case None => None
      case Some(i) => Some(i + 1)
  }

  lemma {:induction false} SlotOfFirst(signers: seq<Key>, pub: Key)
    ensures SlotOf(signers, pub) == None ==> pub !in signers
    ensures SlotOf(signers, pub).Some? ==>
              SlotOf(signers, pub).value < |signers| && signers[SlotOf(signers, pub).value] == pub
              && pub !in signers[..SlotOf(signers, pub).value]
  {
    if signers != [] && signers[0] != pub {
      SlotOfFirst(signers[1..], pub);
      if SlotOf(signers, pub).Some? {
        var i := SlotOf(signers, pub).value;
        assert signers[..i] == [signers[0]] + signers[1..][..i - 1];
      } else {
        assert signers == [signers[0]] + signers[1..];
      }
    }
  }

  /** Signatures after some keys have signed, and what stopped them. */
  datatype Signed = Signed(sigs: seq<seq<byte>>, err: Option<SignError>)

  /** Keys sign in order; each fills the slot of its public key; the first stranger stops the run. */
  function SignWith(ed: Ed25519, msg: seq<byte>, signers: seq<Key>, sigs: seq<seq<byte>>, keys: seq<seq<byte>>)
      : (r: Signed)
    ensures |r.sigs| == |sigs|
    decreases |keys|
  {
    if keys == [] then Signed(sigs, None)
    else
      match SlotOf(signers, ed.public(keys[0]))
      case None => Signed(sigs, Some(NotASigner))
      case Some(i) =>
        if i >= |sigs| then Signed(sigs, Some(Crashed))
        else SignWith(ed, msg, signers, sigs[i := ed.sign(keys[0], msg)], keys[1..])
  }

  predicate AllVerify(ed: Ed25519, msg: seq<byte>, signers: seq<Key>, sigs: seq<seq<byte>>) {
    |sigs| >= |signers|
    && forall i :: 0 <= i < |signers| ==> |sigs[i]| == 64 && ed.verify(signers[i], msg, sigs[i])
  }

  /** One of the secrets belongs to the public key. */
  ghost predicate HasSecret(ed: Ed25519, keys: seq<seq<byte>>, pub: Key) {
    exists k :: 0 <= k < |keys| && ed.public(keys[k]) == pub
  }

  /** A slot holds a good signature once its key has signed, whoever signs afterwards. */
  lemma {:induction false} SlotsGetFilled(ed: Ed25519, msg: seq<byte>, signers: seq<Key>, sigs: seq<seq<byte>>,
                                          keys: seq<seq<byte>>, i: nat)
    requires Sound(ed) && Distinct(signers) && i < |signers| <= |sigs|
    requires SignWith(ed, msg, signers, sigs, keys).err == None
    requires HasSecret(ed, keys, signers[i])
          || (|sigs[i]| == 64 && ed.verify(signers[i], msg, sigs[i]))
    ensures var r := SignWith(ed, msg, signers, sigs, keys).sigs;
            |r[i]| == 64 && ed.verify(signers[i], msg, r[i])
    decreases |keys|
  {
    if keys != [] {
      SlotOfFirst(signers, ed.public(keys[0]));
      var at := SlotOf(signers, ed.public(keys[0])).value;
      var sigs' := sigs[at := ed.sign(keys[0], msg)];
      if at != i {
        if k :| 0 <= k < |keys| && ed.public(keys[k]) == signers[i] {
          assert k != 0;
          assert keys[1..][k - 1] == keys[k];
        }
      }
      SlotsGetFilled(ed, msg, signers, sigs', keys[1..], i);
    }
  }

  /** Signing succeeds exactly when every key belongs to one of the signers. */
  lemma {:induction false} SigningSucceedsExactly(ed: Ed25519, msg: seq<byte>, signers: seq<Key>, sigs: seq<seq<byte>>,
                                                  keys: seq<seq<byte>>)
    requires |signers| <= |sigs|
    ensures SignWith(ed, msg, signers, sigs, keys).err == None
       <==> forall k :: 0 <= k < |keys| ==> ed.public(keys[k]) in signers
    decreases |keys|
  {
    if keys != [] {
      SlotOfFirst(signers, ed.public(keys[0]));
      match SlotOf(signers, ed.public(keys[0]))
      case None =>
        assert ed.public(keys[0]) !in signers;
      case Some(at) =>
        assert forall k :: 1 <= k < |keys| ==> keys[k] == keys[1..][k - 1];
        SigningSucceedsExactly(ed, msg, signers, sigs[at := ed.sign(keys[0], msg)], keys[1..]);
    }
  }

  /**
   * Secrets of signers only, covering every signer, in any order: signing succeeds and makes all
   * required signatures verify.
   */
  lemma SigningCompletes(ed: Ed25519, msg: seq<byte>, signers: seq<Key>, sigs: seq<seq<byte>>, keys: seq<seq<byte>>)
    requires Sound(ed) && Distinct(signers) && |signers| <= |sigs|
    requires forall k :: 0 <= k < |keys| ==> ed.public(keys[k]) in signers
    requires forall i :: 0 <= i < |signers| ==> HasSecret(ed, keys, signers[i])
    ensures SignWith(ed, msg, signers, sigs, keys).err == None
    ensures AllVerify(ed, msg, signers, SignWith(ed, msg, signers, sigs, keys).sigs)
  {
    SigningSucceedsExactly(ed, msg, signers, sigs, keys);
    forall i | 0 <= i < |signers|
      ensures var r := SignWith(ed, msg, signers, sigs, keys).sigs;
              |r[i]| == 64 && ed.verify(signers[i], msg, r[i])
    {
      assert HasSecret(ed, keys, signers[i]);
      SlotsGetFilled(ed, msg, signers, sigs, keys, i);
    }
  }

  // ---------------------------------------------------------------------------------------
  // The object
  // ---------------------------------------------------------------------------------------

  function HeaderOf(b: Body): Header {
    match b case Left(m) => m.header case Right(v) => v.message.header
  }

  function KeysOf(b: Body): seq<Key> {
    match b case Left(m) => m.keys case Right(v) => v.message.keys
  }

  method UnmarshalSignatures(data: seq<byte>) returns (r: Read<seq<seq<byte>>>)
    ensures r == SignaturesCodec().read(data)
  {
    var count := DecodeCompact(data);
    if count.Bad? {
      return Bad(count.error);
    }
    if count.value > MAX_SIGNATURES {
      return Bad(TooMany);
    }
    r := ReadAllLoop(Fixed(64), count.value, count.rest);
  }

  /** The top bit of the first byte tells a versioned message from a legacy one. */
  method UnmarshalBody(data: seq<byte>) returns (r: Read<Body>)
    ensures r == BodyCodec().read(data)
  {
    if |data| > 0 && data[0] >= 0x80 {
      if data[0] % 0x80 != 0 {
        return Bad(UnsupportedVersion);
      }
      var v := UnmarshalV0(data);
      match v {
        case Bad(e) => return Bad(e);
        case Got(v0, rest) => return Got(Right(v0), rest);
      }
    } else {
      var m := UnmarshalMessage(data, false);
      match m {
        case Bad(e) => return Bad(e);
        case Got(legacy, rest) => return Got(Left(legacy), rest);
      }
    }
  }

  lemma SlotsStep(sigs: seq<seq<byte>>, i: nat)
    requires i < |sigs|
    ensures WriteAll(Fixed(64), Slots(sigs[..i + 1])) == WriteAll(Fixed(64), Slots(sigs[..i])) + Slot(sigs[i])
    ensures SignaturesSized(sigs[..i + 1]) <==> SignaturesSized(sigs[..i]) && SignatureSized(sigs[i])
  {
    assert sigs[..i + 1] == sigs[..i] + [sigs[i]];
    assert Slots(sigs[..i + 1]) == Slots(sigs[..i]) + [Slot(sigs[i])];
    WriteAllSnoc(Fixed(64), Slots(sigs[..i]), Slot(sigs[i]));
  }

  method MarshalSlots(sigs: seq<seq<byte>>) returns (r: Option<seq<byte>>)
    ensures r == if SignaturesSized(sigs) then Some(WriteAll(Fixed(64), Slots(sigs))) else None
  {
    var buf := [];
    for i := 0 to |sigs|
      invariant SignaturesSized(sigs[..i])
      invariant buf == WriteAll(Fixed(64), Slots(sigs[..i]))
    {
      SlotsStep(sigs, i);
      if |sigs[i]| == 0 {
        buf := buf + Zeros(64);
      } else {
        if |sigs[i]| != 64 {
          assert !SignatureSized(sigs[i]);
          return None;
        }
        buf := buf + sigs[i];
      }
    }
    assert sigs[..|sigs|] == sigs;
    return Some(buf);
  }

  method MarshalSignatures(sigs: seq<seq<byte>>) returns (r: Option<seq<byte>>)
    requires |sigs| <= MAX_COMPACT
    ensures r == if SignaturesSized(sigs) then Some(SignaturesCodec().write(Slots(sigs))) else None
  {
    var slots := MarshalSlots(sigs);
    match slots {
      case None => return None;
      case Some(buf) => return Some(EncodeCompact(|sigs|) + buf);
    }
  }

  method VerifyLoop(ed: Ed25519, msg: seq<byte>, signers: seq<Key>, sigs: seq<seq<byte>>)
      returns (err: Option<SignError>)
    requires |signers| <= |sigs|
    ensures err == None <==> AllVerify(ed, msg, signers, sigs)
  {
    for i := 0 to |signers|
      invariant forall j :: 0 <= j < i ==> |sigs[j]| == 64 && ed.verify(signers[j], msg, sigs[j])
    {
      var sig := sigs[i];
      if |sig| != 64 {
        return Some(MissingSignature);
      }
      if !ed.verify(signers[i], msg, sig) {
        return Some(BadSignatureValue);
      }
    }
    return None;
  }

  method SignLoop(ed: Ed25519, msg: seq<byte>, keys: seq<Key>, n: nat, sigs: seq<seq<byte>>, secrets: seq<seq<byte>>)
      returns (sigs': seq<seq<byte>>, err: Option<SignError>)
    requires n <= |keys|
    ensures Signed(sigs', err) == SignWith(ed, msg, keys[..n], sigs, secrets)
  {
    sigs' := sigs;
    for k := 0 to |secrets|
      invariant SignWith(ed, msg, keys[..n], sigs', secrets[k..]) == SignWith(ed, msg, keys[..n], sigs, secrets)
    {
      assert secrets[k..][0] == secrets[k] && secrets[k..][1..] == secrets[k + 1..];
      var idx := FindSlot(keys, n, ed.public(secrets[k]));
      match idx {
        case None => return sigs', Some(NotASigner);
        case Some(i) =>
          if i >= |sigs'| {
            return sigs', Some(Crashed);
          }
          sigs' := sigs'[i := ed.sign(secrets[k], msg)];
      }
    }
    return sigs', None;
  }

  /** The fields of a transaction object. */
  datatype Fields = Fields(signatures: seq<seq<byte>>, message: Message, messageV0: Option<MessageV0>)

  /** Unmarshalling replaces the signatures and one of the two messages; it never clears the other. */
  function Absorb(f: Fields, v: Wire): Fields {
    match v.1
    case Left(m) => Fields(v.0, m, f.messageV0)
    case Right(v0) => Fields(v.0, f.message, Some(v0))
  }

  function ActiveOf(f: Fields): Body {
    match f.messageV0 case None => Left(f.message) case Some(v) => Right(v)
  }

  lemma TxReadBad(data: seq<byte>)
    requires SignaturesCodec().read(data).Bad?
    ensures TxCodec().read(data) == Bad(SignaturesCodec().read(data).error)
  {
  }

  lemma TxReadGot(data: seq<byte>, sigs: seq<seq<byte>>, r: seq<byte>)
    requires SignaturesCodec().read(data) == Got(sigs, r)
    ensures TxCodec().read(data) == match BodyCodec().read(r)
                                    case Bad(e) => Bad(e)
                                    case Got(b, rest) => Got((sigs, b), rest)
  {
  }

  /** Signing a message: a header asking for more signers than there are keys is refused up front. */
  function SignOutcome(ed: Ed25519, body: Body, sigs: seq<seq<byte>>, keys: seq<seq<byte>>): Signed {
    if !BodyCounts(body) then Signed(sigs, Some(Crashed))
    else if HeaderOf(body).required > |KeysOf(body)| then Signed(sigs, Some(TooFewKeys))
    else SignWith(ed, BodyCodec().write(body), KeysOf(body)[..HeaderOf(body).required], sigs, keys)
  }

  class SolanaTx {
    var signatures: seq<seq<byte>>
    var message: Message
    /** When set, the transaction is a version 0 one and `message` is ignored. */
    var messageV0: Option<MessageV0>

    constructor Fresh()
      ensures signatures == [] && messageV0 == None
    {
      signatures, messageV0 := [], None;
      message := Message(Header(0, 0, 0), [], Zeros(32), []);
    }

    function State(): Fields
      reads this
    {
      Fields(signatures, message, messageV0)
    }

    function Active(): Body
      reads this
    {
      ActiveOf(State())
    }

    method MessageBytes() returns (buf: seq<byte>)
      requires BodyCounts(Active())
      ensures buf == BodyCodec().write(Active())
    {
      match messageV0 {
        case None => buf := MarshalMessage(message, false);
        case Some(v) =>
          buf := MarshalMessage(v.message, true);
          var lookups := WriteAllLoop(LookupCodec(), v.lookups);
          buf := [0x80] + (buf + (EncodeCompact(|v.lookups|) + lookups));
      }
    }

    method MarshalBinary() returns (r: Marshalled)
      ensures r == Marshal(signatures, Active())
    {
      if !BodyCounts(Active()) || |signatures| > MAX_COMPACT {
        return Panics;
      }
      var msgBytes := MessageBytes();
      var sigBytes := MarshalSignatures(signatures);
      match sigBytes {
        case None => return BadSignature;
        case Some(buf) => return Written(buf + msgBytes);
      }
    }

    method UnmarshalBinary(data: seq<byte>) returns (err: Option<WireError>)
      modifies this
      ensures match TxCodec().read(data)
              case Bad(e) => err == Some(e)
              case Got(v, _) => err == None && State() == Absorb(old(State()), v)
    {
      var sigs := UnmarshalSignatures(data);
      match sigs {
        case Bad(e) =>
          TxReadBad(data);
          return Some(e);
        case Got(ss, r) =>
          signatures := ss;
          TxReadGot(data, ss, r);
          err := UnmarshalRest(ss, r);
      }
    }

    method UnmarshalRest(ghost sigs: seq<seq<byte>>, data: seq<byte>) returns (err: Option<WireError>)
      requires signatures == sigs
      modifies this
      ensures match BodyCodec().read(data)
              case Bad(e) => err == Some(e)
              case Got(b, _) => err == None && State() == Absorb(old(State()), (sigs, b))
    {
      var body := UnmarshalBody(data);
      match body {
        case Bad(e) => return Some(e);
        case Got(Left(m), _) => message := m;
        case Got(Right(v), _) => messageV0 := Some(v);
      }
      return None;
    }

    method Sign(ed: Ed25519, keys: seq<seq<byte>>) returns (err: Option<SignError>)
      modifies this`signatures
      ensures Signed(signatures, err) == SignOutcome(ed, old(Active()), old(signatures), keys)
    {
      if !BodyCounts(Active()) {
        return Some(Crashed);
      }
      var msgBytes := MessageBytes();
      var numSigners := HeaderOf(Active()).required;
      if numSigners > |KeysOf(Active())| {
        return Some(TooFewKeys);
      }
      var sigs;
      sigs, err := SignLoop(ed, msgBytes, KeysOf(Active()), numSigners, signatures, keys);
      signatures := sigs;
    }

    method Verify(ed: Ed25519) returns (err: Option<SignError>)
      ensures err == None <==>
              && BodyCounts(Active()) && HeaderOf(Active()).required <= |KeysOf(Active())|
              && AllVerify(ed, BodyCodec().write(Active()), KeysOf(Active())[..HeaderOf(Active()).required], signatures)
    {
      if !BodyCounts(Active()) {
        return Some(Crashed);
      }
      var msgBytes := MessageBytes();
      var numSigners := HeaderOf(Active()).required;
      if numSigners > |KeysOf(Active())| {
        return Some(TooFewKeys);
      }
      if |signatures| < numSigners {
        return Some(TooFewSignatures);
      }
      err := VerifyLoop(ed, msgBytes, KeysOf(Active())[..numSigners], signatures);
    }
  }

  method FindSlot(keys: seq<Key>, n: nat, pub: Key) returns (idx: Option<nat>)
    requires n <= |keys|
    ensures idx == SlotOf(keys[..n], pub)
  {
    for i := 0 to n
      invariant SlotOf(keys[..n], pub) == match SlotOf(keys[i..n], pub) case None => None case Some(j) => Some(i + j)
    {
      assert keys[i..n][0] == keys[i] && keys[i..n][1..] == keys[i + 1..n];
      if keys[i] == pub {
        return Some(i);
      }
    }
    return None;
  }

  lemma BodiesDiffer(m: Message, v: MessageV0)
    requires m.header.required < 0x80
    ensures BodyCodec().write(Left(m)) != BodyCodec().write(Right(v))
  {
    FirstByte(false, m);
    EitherDiffers(MessageCodec(false), V0BodyCodec(), m, v);
  }

  /** Two transactions with the same signatures and one spelling have one spelling of the message. */
  lemma SameBodyBytes(sigs: seq<seq<byte>>, a: Body, b: Body, rest: seq<byte>)
    requires TxCodec().write((sigs, a)) + rest == TxCodec().write((sigs, b)) + rest
    ensures BodyCodec().write(a) == BodyCodec().write(b)
  {
    Cancel(SignaturesCodec().write(sigs), BodyCodec().write(a), BodyCodec().write(b), rest);
  }

  lemma Cancel(p: seq<byte>, x: seq<byte>, y: seq<byte>, rest: seq<byte>)
    requires p + x + rest == p + y + rest
    ensures x == y
  {
    assert |p + x + rest| == |p + y + rest|;
    assert x == (p + x + rest)[|p|..|p| + |x|];
    assert y == (p + y + rest)[|p|..|p| + |y|];
  }

  lemma ShadowedDiffers(data: seq<byte>, stale: MessageV0)
    requires TxCodec().read(data).Got? && TxCodec().read(data).value.1.Left?
    ensures var Got((sigs, _), rest) := TxCodec().read(data);
            Marshal(sigs, Right(stale)).Written? ==> data != Marshal(sigs, Right(stale)).bytes + rest
  {
    ReadingIsCanonical(data);
    var Got((sigs, body), rest) := TxCodec().read(data);
    FilledSlotsOfRead(data);
    if Marshal(sigs, Right(stale)).Written? && data == Marshal(sigs, Right(stale)).bytes + rest {
      SameBodyBytes(sigs, body, Right(stale), rest);
      BodiesDiffer(body.l, stale);
    }
  }

  lemma FilledSlotsOfRead(data: seq<byte>)
    requires TxCodec().read(data).Got?
    ensures Slots(TxCodec().read(data).value.0) == TxCodec().read(data).value.0
  {
    TxLossless();
    assert TxCodec().ok(TxCodec().read(data).value);
    FilledSlots(TxCodec().read(data).value.0);
  }

  /**
   * Unmarshal then marshal: the consumed bytes come back exactly when no stale version 0 message
   * shadows a legacy one.
   */
  method Reencode(tx: SolanaTx, data: seq<byte>) returns (r: Marshalled)
    requires TxCodec().read(data).Got?
    modifies tx
    ensures var Got(v, rest) := TxCodec().read(data);
            r.Written? && data == r.bytes + rest <==> v.1.Right? || old(tx.messageV0) == None
  {
    ReadingIsCanonical(data);
    ghost var v := TxCodec().read(data).value;
    ghost var before := tx.State();
    var err := tx.UnmarshalBinary(data);
    r := tx.MarshalBinary();
    if v.1.Left? && before.messageV0.Some? {
      ShadowedDiffers(data, before.messageV0.value);
    }
  }
}
