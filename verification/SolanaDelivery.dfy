/**
 * A transaction on its way (solanatx.go): compiled, signed, marshalled, unmarshalled into another
 * object at the other end, and verified there.
 */
module SolanaDelivery {
  import opened Bytes
  import opened KeyOrder
  import opened Outcome
  import opened SolanaCodec
  import opened SolanaCompile
  import opened SolanaTransaction
  import opened SolanaWire

  function SignersOf(body: Body): seq<Key> {
    if HeaderOf(body).required <= |KeysOf(body)| then KeysOf(body)[..HeaderOf(body).required] else []
  }

  /** The check at the receiving end. */
  ghost predicate Verifies(ed: Ed25519, body: Body, sigs: seq<seq<byte>>) {
    && BodyCounts(body) && HeaderOf(body).required <= |KeysOf(body)|
    && AllVerify(ed, BodyCodec().write(body), SignersOf(body), sigs)
  }

  /** The bytes are read as the message that was sent, and it verifies. */
  ghost predicate Received(ed: Ed25519, data: seq<byte>, body: Body) {
    var got := TxCodec().read(data);
    got.Got? && got.value.1 == body && Verifies(ed, body, got.value.0)
  }

  ghost predicate Accepted(ed: Ed25519, body: Body, sigs: seq<seq<byte>>, rest: seq<byte>) {
    Marshal(sigs, body).Written? && Received(ed, Marshal(sigs, body).bytes + rest, body)
  }

  /** Every step succeeds, and the message that arrives is the one that was signed. */
  ghost predicate Arrives(ed: Ed25519, body: Body, slots: nat, secrets: seq<seq<byte>>, rest: seq<byte>) {
    var signed := SignOutcome(ed, body, EmptySlots(slots), secrets);
    signed.err == None && Accepted(ed, body, signed.sigs, rest)
  }

  /** The secrets are those of the signers, in any order. */
  ghost predicate SecretsOf(ed: Ed25519, secrets: seq<seq<byte>>, signers: seq<Key>) {
    && (forall s :: 0 <= s < |secrets| ==> ed.public(secrets[s]) in signers)
    && (forall i :: 0 <= i < |signers| ==> HasSecret(ed, secrets, signers[i]))
  }

  /** A body as the compilers make it, before anything is cut to bytes or refused. */
  ghost predicate Signable(body: Body, slots: nat) {
    && TypedBody(body) && BodyCounts(body) && slots <= MAX_SIGNATURES
    && HeaderOf(body).required <= |KeysOf(body)|
  }

  lemma FullSlots(ed: Ed25519, msg: seq<byte>, signers: seq<Key>, sigs: seq<seq<byte>>)
    requires AllVerify(ed, msg, signers, sigs) && |sigs| == |signers|
    ensures SignaturesSized(sigs) && Slots(sigs) == sigs
  {
  }

  lemma SignedInFull(ed: Ed25519, body: Body, slots: nat, secrets: seq<seq<byte>>)
    requires SolanaTransaction.Sound(ed) && Signable(body, slots)
    requires HeaderOf(body).required == slots && Distinct(SignersOf(body)) && SecretsOf(ed, secrets, SignersOf(body))
    ensures var signed := SignOutcome(ed, body, EmptySlots(slots), secrets);
            && signed.err == None && |signed.sigs| == slots && Verifies(ed, body, signed.sigs)
            && SignaturesSized(signed.sigs) && Slots(signed.sigs) == signed.sigs
  {
    var msg, signers := BodyCodec().write(body), SignersOf(body);
    SigningCompletes(ed, msg, signers, EmptySlots(slots), secrets);
    FullSlots(ed, msg, signers, SignWith(ed, msg, signers, EmptySlots(slots), secrets).sigs);
  }

  lemma ReceivedIsValid(ed: Ed25519, data: seq<byte>, body: Body)
    requires Received(ed, data, body)
    ensures BodyValid(body)
  {
    ReadingIsCanonical(data);
  }

  lemma ValidIsReceived(ed: Ed25519, body: Body, sigs: seq<seq<byte>>, rest: seq<byte>)
    requires TypedBody(body) && |sigs| <= MAX_SIGNATURES && Verifies(ed, body, sigs)
    requires SignaturesSized(sigs) && Slots(sigs) == sigs && BodyValid(body)
    ensures Accepted(ed, body, sigs, rest)
  {
    RoundTripsExactly(sigs, body, rest);
  }

  lemma AcceptedExactly(ed: Ed25519, body: Body, sigs: seq<seq<byte>>, rest: seq<byte>)
    requires TypedBody(body) && |sigs| <= MAX_SIGNATURES && Verifies(ed, body, sigs)
    requires SignaturesSized(sigs) && Slots(sigs) == sigs
    ensures Accepted(ed, body, sigs, rest) <==> BodyValid(body)
  {
    if Accepted(ed, body, sigs, rest) {
      ReceivedIsValid(ed, Marshal(sigs, body).bytes + rest, body);
    }
    if BodyValid(body) {
      ValidIsReceived(ed, body, sigs, rest);
    }
  }

  /** With the right secrets, what decides is whether the message is one that the reader lets in. */
  lemma ArrivesExactly(ed: Ed25519, body: Body, slots: nat, secrets: seq<seq<byte>>, rest: seq<byte>)
    requires SolanaTransaction.Sound(ed) && Signable(body, slots)
    requires HeaderOf(body).required == slots && Distinct(SignersOf(body)) && SecretsOf(ed, secrets, SignersOf(body))
    ensures Arrives(ed, body, slots, secrets, rest) <==> BodyValid(body)
  {
    SignedInFull(ed, body, slots, secrets);
    AcceptedExactly(ed, body, SignOutcome(ed, body, EmptySlots(slots), secrets).sigs, rest);
  }

  /** When the header asks for nobody, any secret is one too many. */
  lemma NobodySigns(ed: Ed25519, body: Body, slots: nat, secrets: seq<seq<byte>>, rest: seq<byte>)
    requires Signable(body, slots) && HeaderOf(body).required == 0 && secrets != []
    ensures !Arrives(ed, body, slots, secrets, rest)
  {
    var msg := BodyCodec().write(body);
    SigningSucceedsExactly(ed, msg, [], EmptySlots(slots), secrets);
    assert KeysOf(body)[..0] == [];
    assert ed.public(secrets[0]) !in [];
  }

  // ---------------------------------------------------------------------------------------
  // Compiled transactions
  // ---------------------------------------------------------------------------------------

  /** Secrets for exactly the keys that the instructions ask to sign. */
  ghost predicate SecretsFor(ed: Ed25519, secrets: seq<seq<byte>>, fee: Key, calls: seq<Call>) {
    && (forall s :: 0 <= s < |secrets| ==> MustSign(fee, calls, ed.public(secrets[s])))
    && (forall k :: MustSign(fee, calls, k) ==> HasSecret(ed, secrets, k))
  }

  ghost predicate Compilable(fee: Key, blockhash: Key, calls: seq<Call>) {
    |UsedKeys(fee, calls)| <= 256 && TypedCalls(fee, blockhash, calls) && CountableCalls(calls)
  }

  ghost function Legacy(fee: Key, blockhash: Key, calls: seq<Call>): Body
    requires Compile(fee, blockhash, calls).Ok?
  {
    Left(Compile(fee, blockhash, calls).value.message)
  }

  ghost function Versioned(fee: Key, blockhash: Key, lookups: seq<Lookup>, calls: seq<Call>): Body
    requires Compile(fee, blockhash, calls).Ok?
  {
    Right(MessageV0(Compile(fee, blockhash, calls).value.message, lookups))
  }

  lemma SecretsFit(ed: Ed25519, secrets: seq<seq<byte>>, fee: Key, blockhash: Key, calls: seq<Call>)
    requires Compile(fee, blockhash, calls).Ok? && |SignerKeys(fee, calls)| <= 255
    requires SecretsFor(ed, secrets, fee, calls)
    ensures var m := Compile(fee, blockhash, calls).value.message;
            && m.header.required <= |m.keys| && Distinct(m.keys[..m.header.required])
            && SecretsOf(ed, secrets, m.keys[..m.header.required])
  {
    SignersOfMessage(fee, blockhash, calls);
    var m := Compile(fee, blockhash, calls).value.message;
    var signers := m.keys[..m.header.required];
    forall i | 0 <= i < |signers| ensures HasSecret(ed, secrets, signers[i]) {
      assert signers[i] in signers;
    }
  }

  lemma SomebodySigns(ed: Ed25519, secrets: seq<seq<byte>>, fee: Key, calls: seq<Call>)
    requires SecretsFor(ed, secrets, fee, calls)
    ensures secrets != []
  {
    assert MustSign(fee, calls, fee);
    assert HasSecret(ed, secrets, fee);
  }

  /** From a compiled message in either form to its arrival. */
  lemma CompiledArrives(ed: Ed25519, fee: Key, blockhash: Key, calls: seq<Call>, body: Body,
                        secrets: seq<seq<byte>>, rest: seq<byte>)
    requires SolanaTransaction.Sound(ed) && Compile(fee, blockhash, calls).Ok? && SecretsFor(ed, secrets, fee, calls)
    requires var r := Compile(fee, blockhash, calls).value;
             HeaderOf(body) == r.message.header && KeysOf(body) == r.message.keys && Signable(body, r.slots)
    ensures Arrives(ed, body, Compile(fee, blockhash, calls).value.slots, secrets, rest)
       <==> |SignerKeys(fee, calls)| <= 255 && BodyValid(body)
  {
    var r := Compile(fee, blockhash, calls).value;
    StatusExactly(fee, blockhash, calls);
    CompiledHeaderValid(fee, blockhash, calls);
    if |SignerKeys(fee, calls)| <= 255 {
      SecretsFit(ed, secrets, fee, blockhash, calls);
      ArrivesExactly(ed, body, r.slots, secrets, rest);
    } else {
      SomebodySigns(ed, secrets, fee, calls);
      NobodySigns(ed, body, r.slots, secrets, rest);
    }
  }

  /** A legacy transaction arrives exactly with at most 127 signers. */
  lemma LegacyArrives(ed: Ed25519, fee: Key, blockhash: Key, calls: seq<Call>, secrets: seq<seq<byte>>, rest: seq<byte>)
    requires SolanaTransaction.Sound(ed) && Compilable(fee, blockhash, calls) && SecretsFor(ed, secrets, fee, calls)
    ensures Compile(fee, blockhash, calls).Ok?
    ensures Arrives(ed, Legacy(fee, blockhash, calls), Compile(fee, blockhash, calls).value.slots, secrets, rest)
       <==> |SignerKeys(fee, calls)| <= 127
  {
    FailsExactly(fee, blockhash, calls);
    CompiledShape(fee, blockhash, calls);
    CompiledHeaderValid(fee, blockhash, calls);
    StatusExactly(fee, blockhash, calls);
    var r, body := Compile(fee, blockhash, calls).value, Legacy(fee, blockhash, calls);
    CompiledTravels(fee, blockhash, calls, rest);
    TravelsIfTransportable(r.slots, body, rest);
    CompiledArrives(ed, fee, blockhash, calls, body, secrets, rest);
  }

  /** A version 0 transaction arrives exactly with at most 255 signers. */
  lemma VersionedArrives(ed: Ed25519, fee: Key, blockhash: Key, lookups: seq<Lookup>, calls: seq<Call>,
                         secrets: seq<seq<byte>>, rest: seq<byte>)
    requires SolanaTransaction.Sound(ed) && Compilable(fee, blockhash, calls) && SecretsFor(ed, secrets, fee, calls)
    requires TypedLookups(lookups) && LookupCounts(lookups)
    ensures Compile(fee, blockhash, calls).Ok?
    ensures Arrives(ed, Versioned(fee, blockhash, lookups, calls), Compile(fee, blockhash, calls).value.slots, secrets,
                    rest)
       <==> |SignerKeys(fee, calls)| <= 255
  {
    FailsExactly(fee, blockhash, calls);
    CompiledShape(fee, blockhash, calls);
    CompiledHeaderValid(fee, blockhash, calls);
    StatusExactly(fee, blockhash, calls);
    var r, body := Compile(fee, blockhash, calls).value, Versioned(fee, blockhash, lookups, calls);
    CompiledV0Travels(fee, blockhash, lookups, calls, rest);
    TravelsIfTransportable(r.slots, body, rest);
    CompiledArrives(ed, fee, blockhash, calls, body, secrets, rest);
  }

  // ---------------------------------------------------------------------------------------
  // The objects
  // ---------------------------------------------------------------------------------------

  lemma AbsorbFresh(f: Fields, v: Wire)
    requires f.messageV0 == None
    ensures ActiveOf(Absorb(f, v)) == v.1 && Absorb(f, v).signatures == v.0
  {
  }

  method Check(ed: Ed25519, tx: SolanaTx, ghost body: Body) returns (ok: bool)
    ensures ok && tx.Active() == body <==> tx.Active() == body && Verifies(ed, body, tx.signatures)
  {
    var refused := tx.Verify(ed);
    ok := refused == None;
  }

  /** The receiving end, where the message `body` is expected. */
  method Receive(ed: Ed25519, data: seq<byte>, ghost body: Body) returns (received: SolanaTx, ok: bool)
    ensures fresh(received)
    ensures ok && received.Active() == body <==> Received(ed, data, body)
  {
    received := new SolanaTx.Fresh();
    ghost var f := received.State();
    var bad := received.UnmarshalBinary(data);
    if bad != None {
      return received, false;
    }
    AbsorbFresh(f, TxCodec().read(data).value);
    ok := Check(ed, received, body);
  }

  /** Moves the bytes of an object in front of others and verifies the object read from them. */
  method Transmit(ed: Ed25519, tx: SolanaTx, rest: seq<byte>) returns (received: SolanaTx, ok: bool)
    ensures fresh(received)
    ensures ok && received.Active() == tx.Active() <==> Accepted(ed, tx.Active(), tx.signatures, rest)
  {
    var marshalled := tx.MarshalBinary();
    if !marshalled.Written? {
      received := new SolanaTx.Fresh();
      return received, false;
    }
    received, ok := Receive(ed, marshalled.bytes + rest, tx.Active());
  }

  /** The same after signing. */
  method Deliver(ed: Ed25519, tx: SolanaTx, ghost slots: nat, secrets: seq<seq<byte>>, rest: seq<byte>)
      returns (received: SolanaTx, ok: bool)
    requires tx.signatures == EmptySlots(slots)
    modifies tx`signatures
    ensures fresh(received)
    ensures ok && received.Active() == tx.Active() <==> Arrives(ed, tx.Active(), slots, secrets, rest)
  {
    var refused := tx.Sign(ed, secrets);
    if refused != None {
      received := new SolanaTx.Fresh();
      return received, false;
    }
    received, ok := Transmit(ed, tx, rest);
  }

  /** The same for an object that holds `body`, where `arrives` says what to expect. */
  method Send(ed: Ed25519, tx: SolanaTx, ghost slots: nat, ghost body: Body, ghost arrives: bool,
              secrets: seq<seq<byte>>, rest: seq<byte>)
      returns (received: SolanaTx, ok: bool)
    requires tx.signatures == EmptySlots(slots) && tx.Active() == body
    requires Arrives(ed, body, slots, secrets, rest) <==> arrives
    modifies tx`signatures
    ensures fresh(received)
    ensures ok && received.Active() == body <==> arrives
  {
    received, ok := Deliver(ed, tx, slots, secrets, rest);
  }

  /** The object `NewSolanaTx` returns. */
  method NewLegacy(fee: Key, blockhash: Key, calls: seq<Call>) returns (tx: SolanaTx)
    requires Compile(fee, blockhash, calls).Ok?
    ensures fresh(tx) && tx.Active() == Legacy(fee, blockhash, calls)
    ensures tx.signatures == EmptySlots(Compile(fee, blockhash, calls).value.slots)
  {
    var compiled := NewSolanaTx(fee, blockhash, calls);
    tx := new SolanaTx.Fresh();
    tx.signatures, tx.message := EmptySlots(compiled.value.slots), compiled.value.message;
  }

  /** The object `NewSolanaTxV0` returns. */
  method NewVersioned(fee: Key, blockhash: Key, lookups: seq<Lookup>, calls: seq<Call>) returns (tx: SolanaTx)
    requires Compile(fee, blockhash, calls).Ok?
    ensures fresh(tx) && tx.Active() == Versioned(fee, blockhash, lookups, calls)
    ensures tx.signatures == EmptySlots(Compile(fee, blockhash, calls).value.slots)
  {
    var compiled := NewSolanaTxV0(fee, blockhash, lookups, calls);
    tx := new SolanaTx.Fresh();
    tx.signatures, tx.messageV0 := EmptySlots(compiled.value.1), Some(compiled.value.0);
  }

  /** Compiled, signed with the secrets of its signers, sent, received and verified: legacy form. */
  method SendLegacy(ed: Ed25519, fee: Key, blockhash: Key, calls: seq<Call>, secrets: seq<seq<byte>>, rest: seq<byte>)
      returns (received: SolanaTx, ok: bool)
    requires SolanaTransaction.Sound(ed) && Compilable(fee, blockhash, calls) && SecretsFor(ed, secrets, fee, calls)
    ensures Compile(fee, blockhash, calls).Ok?
    ensures ok && received.Active() == Legacy(fee, blockhash, calls) <==> |SignerKeys(fee, calls)| <= 127
  {
    LegacyArrives(ed, fee, blockhash, calls, secrets, rest);
    var tx := NewLegacy(fee, blockhash, calls);
    received, ok := Send(ed, tx, Compile(fee, blockhash, calls).value.slots, Legacy(fee, blockhash, calls),
                         |SignerKeys(fee, calls)| <= 127, secrets, rest);
  }

  /** The same for version 0. */
  method SendVersioned(ed: Ed25519, fee: Key, blockhash: Key, lookups: seq<Lookup>, calls: seq<Call>,
                       secrets: seq<seq<byte>>, rest: seq<byte>)
      returns (received: SolanaTx, ok: bool)
    requires SolanaTransaction.Sound(ed) && Compilable(fee, blockhash, calls) && SecretsFor(ed, secrets, fee, calls)
    requires TypedLookups(lookups) && LookupCounts(lookups)
    ensures Compile(fee, blockhash, calls).Ok?
    ensures ok && received.Active() == Versioned(fee, blockhash, lookups, calls) <==> |SignerKeys(fee, calls)| <= 255
  {
    VersionedArrives(ed, fee, blockhash, lookups, calls, secrets, rest);
    var tx := NewVersioned(fee, blockhash, lookups, calls);
    received, ok := Send(ed, tx, Compile(fee, blockhash, calls).value.slots,
                         Versioned(fee, blockhash, lookups, calls), |SignerKeys(fee, calls)| <= 255, secrets, rest);
  }
}
