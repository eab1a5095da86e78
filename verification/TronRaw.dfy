/**
 * The protobuf form of a Tron transaction (trontx.go): a writer that emits fields in ascending
 * order and omits defaults, proved against an ordinary protobuf reader that knows nothing of
 * that order.
 */
module TronRaw {
  import opened Bytes
  import opened Outcome

  type i64 = v: int | -0x8000_0000_0000_0000 <= v < 0x8000_0000_0000_0000

  datatype Kind = Transfer | TransferAsset | TriggerSmart | Unsupported(number: i64)

  datatype Contract = Contract(kind: Kind, parameter: seq<byte>)

  /** What is hashed into the transaction id: everything but the signatures. */
  datatype Raw = Raw(refBlockBytes: seq<byte>, refBlockHash: seq<byte>, expiration: i64, timestamp: i64,
                     feeLimit: i64, contracts: seq<Contract>)

  datatype TronError = NoContracts | UnsupportedContract

  // ---------------------------------------------------------------------------------------
  // Varints and fields
  // ---------------------------------------------------------------------------------------

  /** Base-128 digits, least significant first, the top bit marking that more follow. */
  function Varint(v: nat): (s: seq<byte>)
    ensures |s| >= 1
  {
    if v < 0x80 then [v] else [v % 0x80 + 0x80] + Varint(v / 0x80)
  }

  datatype Took<+T> = Nothing | Took(value: T, rest: seq<byte>)

  function ReadVarint(s: seq<byte>): (t: Took<nat>)
    ensures t.Took? ==> |t.rest| < |s|
  {
    if s == [] then Nothing
    else if s[0] < 0x80 then Took(s[0], s[1..])
    else
      match ReadVarint(s[1..])
      case Nothing => Nothing
      case Took(v, r) => Took(s[0] as nat - 0x80 + 0x80 * v, r)
  }

  lemma {:induction false} ReadVarintOf(v: nat, rest: seq<byte>)
    ensures ReadVarint(Varint(v) + rest) == Took(v, rest)
    decreases v
  {
    var s := Varint(v) + rest;
    if v < 0x80 {
      assert s[1..] == rest;
    } else {
      assert s[1..] == Varint(v / 0x80) + rest;
      ReadVarintOf(v / 0x80, rest);
    }
  }

  method VarintLoop(v: u64) returns (buf: seq<byte>)
    ensures buf == Varint(v)
  {
    buf := [];
    var left: nat := v;
    while left >= 0x80
      invariant buf + Varint(left) == Varint(v)
    {
      assert buf + [left % 0x80 + 0x80] + Varint(left / 0x80) == buf + Varint(left);
      buf := buf + [left % 0x80 + 0x80];
      left := left / 0x80;
    }
    buf := buf + [left];
  }

  datatype Field = Scalar(number: nat, v: nat) | Blob(number: nat, data: seq<byte>)

  function WriteField(f: Field): (s: seq<byte>)
    ensures |s| >= 1
  {
    match f
    case Scalar(n, v) => Varint(8 * n) + Varint(v)
    case Blob(n, b) => Varint(8 * n + 2) + Varint(|b|) + b
  }

  function ReadField(s: seq<byte>): (t: Took<Field>)
    ensures t.Took? ==> |t.rest| < |s|
  {
    match ReadVarint(s)
    case Nothing => Nothing
    case Took(tag, r) =>
      match ReadVarint(r)
      case Nothing => Nothing
      case Took(v, r') =>
        if tag % 8 == 0 then Took(Scalar(tag / 8, v), r')
        else if tag % 8 == 2 && v <= |r'| then Took(Blob(tag / 8, r'[..v]), r'[v..])
        else Nothing
  }

  lemma ReadFieldOf(f: Field, rest: seq<byte>)
    ensures ReadField(WriteField(f) + rest) == Took(f, rest)
  {
    match f
    case Scalar(n, v) =>
      assert WriteField(f) + rest == Varint(8 * n) + (Varint(v) + rest);
      ReadVarintOf(8 * n, Varint(v) + rest);
      ReadVarintOf(v, rest);
    case Blob(n, b) =>
      assert WriteField(f) + rest == Varint(8 * n + 2) + (Varint(|b|) + (b + rest));
      ReadVarintOf(8 * n + 2, Varint(|b|) + (b + rest));
      ReadVarintOf(|b|, b + rest);
      assert (b + rest)[..|b|] == b && (b + rest)[|b|..] == rest;
  }

  function WriteFields(fs: seq<Field>): seq<byte> {
    if fs == [] then [] else WriteField(fs[0]) + WriteFields(fs[1..])
  }

  function ReadFields(s: seq<byte>): Option<seq<Field>>
    decreases |s|
  {
    if s == [] then Some([])
    else
      match ReadField(s)
      case Nothing => None
      case Took(f, r) =>
        match ReadFields(r)
        case None => None
        case Some(fs) => Some([f] + fs)
  }

  /** Any list of fields comes back, in order. */
  lemma {:induction false} ReadFieldsOf(fs: seq<Field>)
    ensures ReadFields(WriteFields(fs)) == Some(fs)
  {
    if fs != [] {
      ReadFieldOf(fs[0], WriteFields(fs[1..]));
      ReadFieldsOf(fs[1..]);
      assert fs == [fs[0]] + fs[1..];
    }
  }

  lemma {:induction false} WriteFieldsConcat(fs: seq<Field>, gs: seq<Field>)
    ensures WriteFields(fs + gs) == WriteFields(fs) + WriteFields(gs)
    decreases |fs|
  {
    if fs == [] {
      assert fs + gs == gs;
    } else {
      assert (fs + gs)[1..] == fs[1..] + gs;
      WriteFieldsConcat(fs[1..], gs);
    }
  }

  lemma WriteOneField(f: Field)
    ensures WriteFields([f]) == WriteField(f)
  {
    assert [f][1..] == [];
  }

  method BlobField(number: nat, b: seq<byte>) returns (buf: seq<byte>)
    requires number < 0x1000 && |b| < 0x1_0000_0000_0000_0000
    ensures buf == WriteField(Blob(number, b))
  {
    buf := VarintLoop(8 * number + 2);
    var len := VarintLoop(|b|);
    buf := buf + len;
    buf := buf + b;
  }

  method ScalarField(number: nat, v: u64) returns (buf: seq<byte>)
    requires number < 0x1000
    ensures buf == WriteField(Scalar(number, v))
  {
    buf := VarintLoop(8 * number);
    var value := VarintLoop(v);
    buf := buf + value;
  }

  // ---------------------------------------------------------------------------------------
  // Contracts
  // ---------------------------------------------------------------------------------------

  /** The conversion uint64(v). */
  function AsU64(v: i64): u64 {
    if v < 0 then v + 0x1_0000_0000_0000_0000 else v
  }

  function AsI64(v: nat): i64
    requires v < 0x1_0000_0000_0000_0000
  {
    if v >= 0x8000_0000_0000_0000 then v - 0x1_0000_0000_0000_0000 else v
  }

  /** The contract numbers with a type url; the url itself is a parameter of the encoding. */
  function KindNumber(k: Kind): i64 {
    match k
    case Transfer => 1
    case TransferAsset => 2
    case TriggerSmart => 31
    case Unsupported(n) => n
  }

  function KindOf(n: nat): Kind
    requires n < 0x1_0000_0000_0000_0000
  {
    if n == 1 then Transfer
    else if n == 2 then TransferAsset
    else if n == 31 then TriggerSmart
    else Unsupported(AsI64(n))
  }

  type Urls = Kind -> seq<byte>

  /** How one contract is written, and read back. */
  type Writer = Contract -> seq<byte>

  type Reader = seq<byte> -> Option<Contract>

  function AnyFields(urls: Urls, c: Contract): seq<Field> {
    [Blob(1, urls(c.kind)), Blob(2, c.parameter)]
  }

  function ContractFields(urls: Urls, c: Contract): seq<Field> {
    [Scalar(1, AsU64(KindNumber(c.kind))), Blob(2, WriteFields(AnyFields(urls, c)))]
  }

  function ContractBytes(urls: Urls, c: Contract): seq<byte> {
    WriteFields(ContractFields(urls, c))
  }

  predicate IsScalar(f: Field, n: nat) {
    f.Scalar? && f.number == n && f.v < 0x1_0000_0000_0000_0000
  }

  predicate IsBlob(f: Field, n: nat) {
    f.Blob? && f.number == n
  }

  /** A reader of one contract: its number and the value inside the Any. */
  function ReadContract(s: seq<byte>): Option<Contract> {
    match ReadFields(s)
    case None => None
    case Some(fs) => if |fs| == 2 && IsScalar(fs[0], 1) && IsBlob(fs[1], 2) then ReadAny(fs[0].v, fs[1].data) else None
  }

  function ReadAny(n: nat, s: seq<byte>): Option<Contract>
    requires n < 0x1_0000_0000_0000_0000
  {
    match ReadFields(s)
    case None => None
    case Some(fs) =>
      if |fs| == 2 && IsBlob(fs[0], 1) && IsBlob(fs[1], 2) then Some(Contract(KindOf(n), fs[1].data)) else None
  }

  lemma ReadAnyOf(urls: Urls, c: Contract, n: nat)
    requires n < 0x1_0000_0000_0000_0000
    ensures ReadAny(n, WriteFields(AnyFields(urls, c))) == Some(Contract(KindOf(n), c.parameter))
  {
    ReadFieldsOf(AnyFields(urls, c));
  }

  lemma ReadContractFrom(n: nat, any: seq<byte>)
    requires n < 0x1_0000_0000_0000_0000
    ensures ReadContract(WriteFields([Scalar(1, n), Blob(2, any)])) == ReadAny(n, any)
  {
    ReadFieldsOf([Scalar(1, n), Blob(2, any)]);
  }

  lemma ReadContractOf(urls: Urls, c: Contract)
    requires !c.kind.Unsupported?
    ensures ReadContract(ContractBytes(urls, c)) == Some(c)
  {
    var n, any := AsU64(KindNumber(c.kind)), WriteFields(AnyFields(urls, c));
    ReadContractFrom(n, any);
    ReadAnyOf(urls, c, n);
    assert KindOf(n) == c.kind;
  }

  function ContractWriter(urls: Urls): Writer {
    (c: Contract) => ContractBytes(urls, c)
  }

  ghost predicate Readable(write: Writer, read: Reader) {
    forall c: Contract :: !c.kind.Unsupported? ==> read(write(c)) == Some(c)
  }

  lemma ContractsReadable(urls: Urls)
    ensures Readable(ContractWriter(urls), ReadContract)
  {
    forall c: Contract | !c.kind.Unsupported?
      ensures ReadContract(ContractWriter(urls)(c)) == Some(c)
    {
      ReadContractOf(urls, c);
    }
  }

  // ---------------------------------------------------------------------------------------
  // The raw data
  // ---------------------------------------------------------------------------------------

  function OptBlob(n: nat, b: seq<byte>): seq<Field> {
    if |b| > 0 then [Blob(n, b)] else []
  }

  function OptScalar(n: nat, v: i64): seq<Field> {
    if v != 0 then [Scalar(n, AsU64(v))] else []
  }

  function ContractField(write: Writer, c: Contract): Field {
    Blob(11, write(c))
  }

  function ContractsFields(write: Writer, cs: seq<Contract>): seq<Field> {
    if cs == [] then []
    else ContractsFields(write, cs[..|cs| - 1]) + [ContractField(write, cs[|cs| - 1])]
  }

  /** Ascending field numbers, defaults left out. */
  function RawFields(write: Writer, tx: Raw): seq<Field> {
    OptBlob(1, tx.refBlockBytes) + OptBlob(4, tx.refBlockHash) + OptScalar(8, tx.expiration)
    + ContractsFields(write, tx.contracts) + OptScalar(14, tx.timestamp) + OptScalar(18, tx.feeLimit)
  }

  predicate Supported(cs: seq<Contract>) {
    cs == [] || (Supported(cs[..|cs| - 1]) && !cs[|cs| - 1].kind.Unsupported?)
  }

  lemma {:induction false} UnsupportedSticks(cs: seq<Contract>, i: nat)
    requires i < |cs| && cs[i].kind.Unsupported?
    ensures !Supported(cs)
    decreases |cs|
  {
    if i < |cs| - 1 {
      UnsupportedSticks(cs[..|cs| - 1], i);
    }
  }

  function RawBytes(urls: Urls, tx: Raw): Result<seq<byte>, TronError> {
    if tx.contracts == [] then Err(NoContracts)
    else if !Supported(tx.contracts) then Err(UnsupportedContract)
    else Ok(WriteFields(RawFields(ContractWriter(urls), tx)))
  }

  const EMPTY := Raw([], [], 0, 0, 0, [])

  /** One field of the message, in whatever order it comes: scalars are set, contracts are added. */
  function Apply(read: Reader, tx: Raw, f: Field): Option<Raw> {
    match f
    case Blob(n, b) =>
      if n == 1 then Some(tx.(refBlockBytes := b))
      else if n == 4 then Some(tx.(refBlockHash := b))
      else if n == 11 then
        (match read(b) case None => None case Some(c) => Some(tx.(contracts := tx.contracts + [c])))
      else None
    case Scalar(n, v) =>
      if v >= 0x1_0000_0000_0000_0000 then None
      else if n == 8 then Some(tx.(expiration := AsI64(v)))
      else if n == 14 then Some(tx.(timestamp := AsI64(v)))
      else if n == 18 then Some(tx.(feeLimit := AsI64(v)))
      else None
  }

  function ApplyAll(read: Reader, tx: Raw, fs: seq<Field>): Option<Raw>
    decreases |fs|
  {
    if fs == [] then Some(tx)
    else
      match Apply(read, tx, fs[0])
      case None => None
      case Some(tx') => ApplyAll(read, tx', fs[1..])
  }

  function DecodeRaw(s: seq<byte>): Option<Raw> {
    match ReadFields(s)
    case None => None
    case Some(fs) => ApplyAll(ReadContract, EMPTY, fs)
  }

  lemma {:induction false} ApplyConcat(read: Reader, tx: Raw, fs: seq<Field>, gs: seq<Field>)
    requires ApplyAll(read, tx, fs).Some?
    ensures ApplyAll(read, tx, fs + gs) == ApplyAll(read, ApplyAll(read, tx, fs).value, gs)
    decreases |fs|
  {
    if fs == [] {
      assert fs + gs == gs;
    } else {
      assert (fs + gs)[0] == fs[0] && (fs + gs)[1..] == fs[1..] + gs;
      ApplyConcat(read, Apply(read, tx, fs[0]).value, fs[1..], gs);
    }
  }

  lemma ApplyOne(read: Reader, tx: Raw, fs: seq<Field>)
    requires |fs| == 1
    ensures ApplyAll(read, tx, fs) == Apply(read, tx, fs[0])
  {
    assert fs[1..] == [];
    match Apply(read, tx, fs[0]) case None => case Some(t) => assert ApplyAll(read, t, fs[1..]) == Some(t);
  }

  /** An omitted field leaves the default; a written one sets it. */
  lemma ApplyOpt(read: Reader, before: Raw, after: Raw, fs: seq<Field>)
    requires |fs| <= 1 && (fs == [] ==> after == before) && (fs != [] ==> Apply(read, before, fs[0]) == Some(after))
    ensures ApplyAll(read, before, fs) == Some(after)
  {
    if fs != [] {
      ApplyOne(read, before, fs);
    }
  }

  lemma ApplyThen(read: Reader, tx: Raw, fs: seq<Field>, mid: Raw, gs: seq<Field>, after: Raw)
    requires ApplyAll(read, tx, fs) == Some(mid) && ApplyAll(read, mid, gs) == Some(after)
    ensures ApplyAll(read, tx, fs + gs) == Some(after)
  {
    ApplyConcat(read, tx, fs, gs);
  }

  lemma {:induction false} ApplyContracts(write: Writer, read: Reader, tx: Raw, cs: seq<Contract>)
    requires Readable(write, read) && Supported(cs)
    ensures ApplyAll(read, tx, ContractsFields(write, cs)) == Some(tx.(contracts := tx.contracts + cs))
    decreases |cs|
  {
    if cs == [] {
      assert tx.contracts + cs == tx.contracts;
    } else {
      var n := |cs| - 1;
      var mid, after := tx.(contracts := tx.contracts + cs[..n]), tx.(contracts := tx.contracts + cs);
      assert read(write(cs[n])) == Some(cs[n]);
      assert tx.contracts + cs[..n] + [cs[n]] == tx.contracts + cs;
      ApplyContracts(write, read, tx, cs[..n]);
      ApplyOne(read, mid, [ContractField(write, cs[n])]);
      ApplyThen(read, tx, ContractsFields(write, cs[..n]), mid, [ContractField(write, cs[n])], after);
    }
  }

  /** The reference block and the expiration, then the contracts. */
  lemma ApplyFront(write: Writer, read: Reader, tx: Raw)
    requires Readable(write, read) && Supported(tx.contracts)
    ensures ApplyAll(read, EMPTY,
                     OptBlob(1, tx.refBlockBytes) + OptBlob(4, tx.refBlockHash) + OptScalar(8, tx.expiration)
                     + ContractsFields(write, tx.contracts))
         == Some(Raw(tx.refBlockBytes, tx.refBlockHash, tx.expiration, 0, 0, tx.contracts))
  {
    var a, b, c := OptBlob(1, tx.refBlockBytes), OptBlob(4, tx.refBlockHash), OptScalar(8, tx.expiration);
    var t1 := Raw(tx.refBlockBytes, [], 0, 0, 0, []);
    var t2 := Raw(tx.refBlockBytes, tx.refBlockHash, 0, 0, 0, []);
    var t3 := Raw(tx.refBlockBytes, tx.refBlockHash, tx.expiration, 0, 0, []);
    var t4 := t3.(contracts := tx.contracts);
    ApplyOpt(read, EMPTY, t1, a);
    ApplyOpt(read, t1, t2, b);
    ApplyThen(read, EMPTY, a, t1, b, t2);
    ApplyOpt(read, t2, t3, c);
    ApplyThen(read, EMPTY, a + b, t2, c, t3);
    ApplyContracts(write, read, t3, tx.contracts);
    assert t3.contracts + tx.contracts == tx.contracts;
    ApplyThen(read, EMPTY, a + b + c, t3, ContractsFields(write, tx.contracts), t4);
  }

  lemma DecodesWith(write: Writer, read: Reader, tx: Raw)
    requires Readable(write, read) && Supported(tx.contracts)
    ensures ApplyAll(read, EMPTY, RawFields(write, tx)) == Some(tx)
  {
    var front := OptBlob(1, tx.refBlockBytes) + OptBlob(4, tx.refBlockHash) + OptScalar(8, tx.expiration)
                 + ContractsFields(write, tx.contracts);
    var t4 := Raw(tx.refBlockBytes, tx.refBlockHash, tx.expiration, 0, 0, tx.contracts);
    var t5 := t4.(timestamp := tx.timestamp);
    ApplyFront(write, read, tx);
    ApplyOpt(read, t4, t5, OptScalar(14, tx.timestamp));
    ApplyThen(read, EMPTY, front, t4, OptScalar(14, tx.timestamp), t5);
    ApplyOpt(read, t5, tx, OptScalar(18, tx.feeLimit));
    ApplyThen(read, EMPTY, front + OptScalar(14, tx.timestamp), t5, OptScalar(18, tx.feeLimit), tx);
  }

  /** A protobuf reader gets back exactly the transaction. */
  lemma RawDataDecodes(urls: Urls, tx: Raw)
    requires RawBytes(urls, tx).Ok?
    ensures DecodeRaw(RawBytes(urls, tx).value) == Some(tx)
  {
    ContractsReadable(urls);
    DecodesWith(ContractWriter(urls), ReadContract, tx);
    ReadFieldsOf(RawFields(ContractWriter(urls), tx));
  }

  /** Hence the bytes the transaction id is computed over determine the transaction. */
  lemma RawDataInjective(urls: Urls, tx: Raw, other: Raw)
    requires RawBytes(urls, tx).Ok? && RawBytes(urls, other) == RawBytes(urls, tx)
    ensures tx == other
  {
    RawDataDecodes(urls, tx);
    RawDataDecodes(urls, other);
  }

  // ---------------------------------------------------------------------------------------
  // The object
  // ---------------------------------------------------------------------------------------

  /** Lengths of Go slices fit a machine word. */
  ghost predicate Sized(urls: Urls, tx: Raw) {
    && |tx.refBlockBytes| < 0x1_0000_0000_0000_0000 && |tx.refBlockHash| < 0x1_0000_0000_0000_0000
    && forall i :: 0 <= i < |tx.contracts| ==> SizedContract(urls, tx.contracts[i])
  }

  ghost predicate SizedContract(urls: Urls, c: Contract) {
    && |urls(c.kind)| < 0x1_0000_0000_0000_0000 && |c.parameter| < 0x1_0000_0000_0000_0000
    && |WriteFields(AnyFields(urls, c))| < 0x1_0000_0000_0000_0000 && |ContractBytes(urls, c)| < 0x1_0000_0000_0000_0000
  }

  lemma WriteTwoFields(f: Field, g: Field)
    ensures WriteFields([f, g]) == WriteField(f) + WriteField(g)
  {
    assert [f, g][1..] == [g];
    WriteOneField(g);
  }

  method MarshalContract(urls: Urls, c: Contract) returns (r: Result<seq<byte>, TronError>)
    requires SizedContract(urls, c)
    ensures r == if c.kind.Unsupported? then Err(UnsupportedContract) else Ok(ContractBytes(urls, c))
  {
    if c.kind.Unsupported? {
      return Err(UnsupportedContract);
    }
    WriteTwoFields(Blob(1, urls(c.kind)), Blob(2, c.parameter));
    var url := BlobField(1, urls(c.kind));
    var value := BlobField(2, c.parameter);
    var any := url + value;
    WriteTwoFields(Scalar(1, AsU64(KindNumber(c.kind))), Blob(2, any));
    var out := ScalarField(1, AsU64(KindNumber(c.kind)));
    var parameter := BlobField(2, any);
    return Ok(out + parameter);
  }

  method AppendBlob(out: seq<byte>, ghost fs: seq<Field>, n: nat, b: seq<byte>) returns (buf: seq<byte>)
    requires out == WriteFields(fs) && n < 0x1000 && |b| < 0x1_0000_0000_0000_0000
    ensures buf == WriteFields(fs + OptBlob(n, b))
  {
    WriteFieldsConcat(fs, OptBlob(n, b));
    buf := out;
    if |b| > 0 {
      WriteOneField(Blob(n, b));
      var field := BlobField(n, b);
      buf := buf + field;
    }
  }

  method AppendScalar(out: seq<byte>, ghost fs: seq<Field>, n: nat, v: i64) returns (buf: seq<byte>)
    requires out == WriteFields(fs) && n < 0x1000
    ensures buf == WriteFields(fs + OptScalar(n, v))
  {
    WriteFieldsConcat(fs, OptScalar(n, v));
    buf := out;
    if v != 0 {
      WriteOneField(Scalar(n, AsU64(v)));
      var field := ScalarField(n, AsU64(v));
      buf := buf + field;
    }
  }

  lemma ContractsStep(write: Writer, fs: seq<Field>, cs: seq<Contract>, i: nat)
    requires i < |cs|
    ensures Supported(cs[..i + 1]) <==> Supported(cs[..i]) && !cs[i].kind.Unsupported?
    ensures WriteFields(fs + ContractsFields(write, cs[..i + 1]))
         == WriteFields(fs + ContractsFields(write, cs[..i])) + WriteField(ContractField(write, cs[i]))
  {
    var f, before := ContractField(write, cs[i]), fs + ContractsFields(write, cs[..i]);
    assert cs[..i + 1][..i] == cs[..i];
    assert fs + ContractsFields(write, cs[..i + 1]) == before + [f];
    WriteFieldsConcat(before, [f]);
    WriteOneField(f);
  }

  method AppendedContract(urls: Urls, c: Contract) returns (r: Result<seq<byte>, TronError>)
    requires SizedContract(urls, c)
    ensures r == if c.kind.Unsupported? then Err(UnsupportedContract)
                 else Ok(WriteField(ContractField(ContractWriter(urls), c)))
  {
    var bytes := MarshalContract(urls, c);
    if bytes.Err? {
      return bytes;
    }
    var field := BlobField(11, bytes.value);
    return Ok(field);
  }

  /** The contracts up to the first unsupported one; `stopped` says whether there was one. */
  method ContractsLoop(urls: Urls, out: seq<byte>, ghost fs: seq<Field>, cs: seq<Contract>)
      returns (buf: seq<byte>, stopped: bool)
    requires out == WriteFields(fs) && forall i :: 0 <= i < |cs| ==> SizedContract(urls, cs[i])
    ensures stopped <==> !Supported(cs)
    ensures !stopped ==> buf == WriteFields(fs + ContractsFields(ContractWriter(urls), cs))
  {
    buf := out;
    ghost var write := ContractWriter(urls);
    assert fs + ContractsFields(write, cs[..0]) == fs;
    for i := 0 to |cs|
      invariant Supported(cs[..i])
      invariant buf == WriteFields(fs + ContractsFields(write, cs[..i]))
    {
      var field := AppendedContract(urls, cs[i]);
      ContractsStep(write, fs, cs, i);
      if field.Err? {
        UnsupportedSticks(cs, i);
        return buf, true;
      }
      buf := buf + field.value;
    }
    assert cs[..|cs|] == cs;
    stopped := false;
  }

  method AppendContracts(urls: Urls, out: seq<byte>, ghost fs: seq<Field>, cs: seq<Contract>)
      returns (r: Result<seq<byte>, TronError>)
    requires out == WriteFields(fs) && forall i :: 0 <= i < |cs| ==> SizedContract(urls, cs[i])
    ensures r == if Supported(cs) then Ok(WriteFields(fs + ContractsFields(ContractWriter(urls), cs)))
                 else Err(UnsupportedContract)
  {
    var buf, stopped := ContractsLoop(urls, out, fs, cs);
    return if stopped then Err(UnsupportedContract) else Ok(buf);
  }

  function SignatureFields(sigs: seq<seq<byte>>): seq<Field> {
    seq(|sigs|, i requires 0 <= i < |sigs| => Blob(2, sigs[i]))
  }

  lemma SignaturesStep(head: seq<Field>, sigs: seq<seq<byte>>, i: nat)
    requires i < |sigs|
    ensures WriteFields(head + SignatureFields(sigs[..i + 1]))
         == WriteFields(head + SignatureFields(sigs[..i])) + WriteField(Blob(2, sigs[i]))
  {
    var before, f := head + SignatureFields(sigs[..i]), Blob(2, sigs[i]);
    assert SignatureFields(sigs[..i + 1]) == SignatureFields(sigs[..i]) + [f];
    assert head + SignatureFields(sigs[..i + 1]) == before + [f];
    WriteFieldsConcat(before, [f]);
    WriteOneField(f);
  }

  method SignaturesLoop(out: seq<byte>, ghost head: seq<Field>, sigs: seq<seq<byte>>) returns (buf: seq<byte>)
    requires out == WriteFields(head) && forall i :: 0 <= i < |sigs| ==> |sigs[i]| < 0x1_0000_0000_0000_0000
    ensures buf == WriteFields(head + SignatureFields(sigs))
  {
    buf := out;
    assert head + SignatureFields(sigs[..0]) == head;
    for i := 0 to |sigs|
      invariant buf == WriteFields(head + SignatureFields(sigs[..i]))
    {
      SignaturesStep(head, sigs, i);
      var field := BlobField(2, sigs[i]);
      buf := buf + field;
    }
    assert sigs[..|sigs|] == sigs;
  }

  class TronTx {
    var refBlockBytes: seq<byte>
    var refBlockHash: seq<byte>
    var expiration: i64
    var timestamp: i64
    var feeLimit: i64
    var contracts: seq<Contract>
    var signatures: seq<seq<byte>>

    function Value(): Raw
      reads this
    {
      Raw(refBlockBytes, refBlockHash, expiration, timestamp, feeLimit, contracts)
    }

    method RawData(urls: Urls) returns (r: Result<seq<byte>, TronError>)
      requires Sized(urls, Value())
      ensures r == RawBytes(urls, Value())
    {
      if |contracts| == 0 {
        return Err(NoContracts);
      }
      var out := AppendBlob([], [], 1, refBlockBytes);
      ghost var fs := OptBlob(1, refBlockBytes);
      assert [] + fs == fs;
      out := AppendBlob(out, fs, 4, refBlockHash);
      fs := fs + OptBlob(4, refBlockHash);
      out := AppendScalar(out, fs, 8, expiration);
      fs := fs + OptScalar(8, expiration);
      var all := AppendContracts(urls, out, fs, contracts);
      if all.Err? {
        return Err(all.error);
      }
      fs := fs + ContractsFields(ContractWriter(urls), contracts);
      out := AppendScalar(all.value, fs, 14, timestamp);
      fs := fs + OptScalar(14, timestamp);
      out := AppendScalar(out, fs, 18, feeLimit);
      return Ok(out);
    }

    /** The raw data, then every signature, as fields 1 and 2 of the outer message. */
    method MarshalBinary(urls: Urls) returns (r: Result<seq<byte>, TronError>)
      requires Sized(urls, Value())
      requires RawBytes(urls, Value()).Ok? ==> |RawBytes(urls, Value()).value| < 0x1_0000_0000_0000_0000
      requires forall i :: 0 <= i < |signatures| ==> |signatures[i]| < 0x1_0000_0000_0000_0000
      ensures r.Ok? <==> RawBytes(urls, Value()).Ok?
      ensures r.Ok? ==>
                r.value == WriteFields([Blob(1, RawBytes(urls, Value()).value)] + SignatureFields(signatures))
      ensures r.Ok? ==> ReadFields(r.value)
                        == Some([Blob(1, RawBytes(urls, Value()).value)] + SignatureFields(signatures))
    {
      var raw := this.RawData(urls);
      if raw.Err? {
        return Err(raw.error);
      }
      var out := BlobField(1, raw.value);
      ghost var head := [Blob(1, raw.value)];
      WriteOneField(Blob(1, raw.value));
      out := SignaturesLoop(out, head, signatures);
      ReadFieldsOf(head + SignatureFields(signatures));
      return Ok(out);
    }
  }
}
