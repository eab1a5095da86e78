/** Tron transactions byte by byte (trontx.go): the tag in front of every field, contracts included. */
module TronLayout {
  import opened Bytes
  import opened Outcome
  import opened TronRaw

  /** A byte string behind its tag and length. */
  function TaggedBytes(tag: byte, b: seq<byte>): seq<byte> {
    [tag] + Varint(|b|) + b
  }

  function OptionalBytes(tag: byte, b: seq<byte>): seq<byte> {
    if b == [] then [] else TaggedBytes(tag, b)
  }

  /** A number behind its tag; negative ones as 64-bit two's complement. */
  function OptionalNumber(tag: seq<byte>, v: i64): seq<byte> {
    if v == 0 then [] else tag + Varint(if v < 0 then v + 0x1_0000_0000_0000_0000 else v)
  }

  /** The supported contract types by number. */
  function TypeNumber(k: Kind): byte {
    match k
    case Transfer => 1
    case TransferAsset => 2
    case TriggerSmart => 31
    case Unsupported(_) => 0
  }

  /** A contract: type number, and the parameter wrapped with its type url. */
  function ContractPiece(urls: Urls, c: Contract): seq<byte> {
    TaggedBytes(0x5a, [0x08, TypeNumber(c.kind)]
                      + TaggedBytes(0x12, TaggedBytes(0x0a, urls(c.kind)) + TaggedBytes(0x12, c.parameter)))
  }

  function ContractPieces(urls: Urls, cs: seq<Contract>): seq<seq<byte>> {
    seq(|cs|, i requires 0 <= i < |cs| => ContractPiece(urls, cs[i]))
  }

  /** The tag byte of a small field number. */
  lemma BlobTag(n: nat, b: seq<byte>)
    requires n < 16
    ensures WriteFields([Blob(n, b)]) == TaggedBytes(8 * n + 2, b)
  {
    WriteOneField(Blob(n, b));
  }

  lemma OptBlobBytes(n: nat, b: seq<byte>)
    requires n < 16
    ensures WriteFields(OptBlob(n, b)) == OptionalBytes(8 * n + 2, b)
  {
    if b != [] {
      BlobTag(n, b);
    }
  }

  lemma OptScalarBytes(n: nat, tag: seq<byte>, v: i64)
    requires tag == Varint(8 * n)
    ensures WriteFields(OptScalar(n, v)) == OptionalNumber(tag, v)
  {
    if v != 0 {
      WriteOneField(Scalar(n, AsU64(v)));
    }
  }

  lemma ContractWritten(urls: Urls, c: Contract)
    requires !c.kind.Unsupported?
    ensures WriteFields([ContractField(ContractWriter(urls), c)]) == ContractPiece(urls, c)
  {
    var any := TaggedBytes(0x0a, urls(c.kind)) + TaggedBytes(0x12, c.parameter);
    AnyWritten(urls, c);
    WriteTwoFields(Scalar(1, AsU64(KindNumber(c.kind))), Blob(2, any));
    assert Varint(8) == [0x08] && Varint(TypeNumber(c.kind)) == [TypeNumber(c.kind)];
    assert [0x08] + [TypeNumber(c.kind)] == [0x08, TypeNumber(c.kind)];
    BlobTag(11, ContractBytes(urls, c));
  }

  lemma AnyWritten(urls: Urls, c: Contract)
    ensures WriteFields(AnyFields(urls, c)) == TaggedBytes(0x0a, urls(c.kind)) + TaggedBytes(0x12, c.parameter)
  {
    WriteTwoFields(Blob(1, urls(c.kind)), Blob(2, c.parameter));
  }

  lemma LastContractWritten(urls: Urls, cs: seq<Contract>)
    requires cs != [] && !cs[|cs| - 1].kind.Unsupported?
    ensures WriteFields(ContractsFields(ContractWriter(urls), cs))
         == WriteFields(ContractsFields(ContractWriter(urls), cs[..|cs| - 1])) + ContractPiece(urls, cs[|cs| - 1])
  {
    var n, write := |cs| - 1, ContractWriter(urls);
    WriteFieldsConcat(ContractsFields(write, cs[..n]), [ContractField(write, cs[n])]);
    ContractWritten(urls, cs[n]);
  }

  lemma LastContractPiece(urls: Urls, cs: seq<Contract>)
    requires cs != []
    ensures Flat(ContractPieces(urls, cs))
         == Flat(ContractPieces(urls, cs[..|cs| - 1])) + ContractPiece(urls, cs[|cs| - 1])
  {
    var n := |cs| - 1;
    assert ContractPieces(urls, cs) == ContractPieces(urls, cs[..n]) + [ContractPiece(urls, cs[n])];
    FlatSnoc(ContractPieces(urls, cs[..n]), ContractPiece(urls, cs[n]));
  }

  lemma {:induction false} ContractsWritten(urls: Urls, cs: seq<Contract>)
    requires Supported(cs)
    ensures WriteFields(ContractsFields(ContractWriter(urls), cs)) == Flat(ContractPieces(urls, cs))
  {
    if cs != [] {
      ContractsWritten(urls, cs[..|cs| - 1]);
      LastContractWritten(urls, cs);
      LastContractPiece(urls, cs);
    }
  }

  lemma SixFields(a: seq<Field>, b: seq<Field>, c: seq<Field>, d: seq<Field>, e: seq<Field>, f: seq<Field>)
    ensures WriteFields(a + b + c + d + e + f)
         == WriteFields(a) + WriteFields(b) + WriteFields(c) + WriteFields(d) + WriteFields(e) + WriteFields(f)
  {
    WriteFieldsConcat(a, b);
    WriteFieldsConcat(a + b, c);
    WriteFieldsConcat(a + b + c, d);
    WriteFieldsConcat(a + b + c + d, e);
    WriteFieldsConcat(a + b + c + d + e, f);
  }

  lemma Tags()
    ensures Varint(64) == [0x40] && Varint(112) == [0x70] && Varint(144) == [0x90, 0x01]
  {
    assert Varint(144 / 0x80) == [1];
  }

  /** What is hashed into a transaction id, byte by byte. */
  lemma RawLayout(urls: Urls, tx: Raw)
    requires RawBytes(urls, tx).Ok?
    ensures RawBytes(urls, tx).value
         == OptionalBytes(0x0a, tx.refBlockBytes) + OptionalBytes(0x22, tx.refBlockHash)
            + OptionalNumber([0x40], tx.expiration) + Flat(ContractPieces(urls, tx.contracts))
            + OptionalNumber([0x70], tx.timestamp) + OptionalNumber([0x90, 0x01], tx.feeLimit)
  {
    var write := ContractWriter(urls);
    SixFields(OptBlob(1, tx.refBlockBytes), OptBlob(4, tx.refBlockHash), OptScalar(8, tx.expiration),
              ContractsFields(write, tx.contracts), OptScalar(14, tx.timestamp), OptScalar(18, tx.feeLimit));
    Tags();
    OptBlobBytes(1, tx.refBlockBytes);
    OptBlobBytes(4, tx.refBlockHash);
    OptScalarBytes(8, [0x40], tx.expiration);
    ContractsWritten(urls, tx.contracts);
    OptScalarBytes(14, [0x70], tx.timestamp);
    OptScalarBytes(18, [0x90, 0x01], tx.feeLimit);
  }

  function SignaturePieces(sigs: seq<seq<byte>>): seq<seq<byte>> {
    seq(|sigs|, i requires 0 <= i < |sigs| => TaggedBytes(0x12, sigs[i]))
  }

  lemma LastSignatureWritten(sigs: seq<seq<byte>>)
    requires sigs != []
    ensures WriteFields(SignatureFields(sigs))
         == WriteFields(SignatureFields(sigs[..|sigs| - 1])) + TaggedBytes(0x12, sigs[|sigs| - 1])
  {
    var n := |sigs| - 1;
    assert SignatureFields(sigs) == SignatureFields(sigs[..n]) + [Blob(2, sigs[n])];
    WriteFieldsConcat(SignatureFields(sigs[..n]), [Blob(2, sigs[n])]);
    BlobTag(2, sigs[n]);
  }

  lemma LastSignaturePiece(sigs: seq<seq<byte>>)
    requires sigs != []
    ensures Flat(SignaturePieces(sigs))
         == Flat(SignaturePieces(sigs[..|sigs| - 1])) + TaggedBytes(0x12, sigs[|sigs| - 1])
  {
    var n := |sigs| - 1;
    assert SignaturePieces(sigs) == SignaturePieces(sigs[..n]) + [TaggedBytes(0x12, sigs[n])];
    FlatSnoc(SignaturePieces(sigs[..n]), TaggedBytes(0x12, sigs[n]));
  }

  lemma {:induction false} SignaturesWritten(sigs: seq<seq<byte>>)
    ensures WriteFields(SignatureFields(sigs)) == Flat(SignaturePieces(sigs))
  {
    if sigs != [] {
      SignaturesWritten(sigs[..|sigs| - 1]);
      LastSignatureWritten(sigs);
      LastSignaturePiece(sigs);
    }
  }

  /** What `MarshalBinary` writes: the raw data and every signature behind their tags. */
  lemma TransactionLayout(raw: seq<byte>, sigs: seq<seq<byte>>)
    ensures WriteFields([Blob(1, raw)] + SignatureFields(sigs)) == TaggedBytes(0x0a, raw) + Flat(SignaturePieces(sigs))
  {
    WriteFieldsConcat([Blob(1, raw)], SignatureFields(sigs));
    BlobTag(1, raw);
    SignaturesWritten(sigs);
  }
}
