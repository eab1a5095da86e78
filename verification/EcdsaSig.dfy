/** DER-encoded ECDSA signatures with a trailing sighash byte (btctxparse.go). */
module EcdsaSig {
  import opened Arith
  import opened Bytes
  import opened Outcome

  /** The two integers of a signature as 32-byte big-endian strings, and the flag byte. */
  datatype RawSig = RawSig(r: seq<byte>, s: seq<byte>, flag: byte)

  datatype SigError = TooShort | NotDer | BadLength | NoR | ROverrun | NoS | SOverrun | RTooLong | STooLong

  /** bytes.TrimLeft(b, "\x00"). */
  function TrimZeros(b: seq<byte>): (t: seq<byte>)
    ensures |t| <= |b|
    ensures t != [] ==> t[0] != 0
  {
    if b != [] && b[0] == 0 then TrimZeros(b[1..]) else b
  }

  /** `normalize32`, for any width. */
  function Normalize(b: seq<byte>, w: nat): Option<seq<byte>> {
    var t := TrimZeros(b);
    if |t| > w then None else Some(Zeros(w - |t|) + t)
  }

  function Normalize32(b: seq<byte>): Option<seq<byte>> {
    Normalize(b, 32)
  }

  function ParseEcdsaSig(sig: seq<byte>): Result<RawSig, SigError> {
    if |sig| < 9 then Err(TooShort)
    else ParseDer(sig[..|sig| - 1], sig[|sig| - 1])
  }

  function ParseDer(der: seq<byte>, flag: byte): Result<RawSig, SigError>
    requires |der| >= 8
  {
    if der[0] != 0x30 then Err(NotDer)
    else if der[1] != |der| - 2 then Err(BadLength)
    else if der[2] != 0x02 then Err(NoR)
    else
      var rLen := der[3];
      if 4 + rLen + 2 > |der| then Err(ROverrun)
      else if der[4 + rLen] != 0x02 then Err(NoS)
      else
        var sLen := der[4 + rLen + 1];
        if 4 + rLen + 2 + sLen != |der| then Err(SOverrun)
        else ParseInts(der[4..4 + rLen], der[4 + rLen + 2..], flag)
  }

  function ParseInts(r: seq<byte>, s: seq<byte>, flag: byte): Result<RawSig, SigError> {
    match (Normalize32(r), Normalize32(s))
    case (None, _) => Err(RTooLong)
    case (_, None) => Err(STooLong)
    case (Some(r'), Some(s')) => Ok(RawSig(r', s', flag))
  }

  // ---------------------------------------------------------------------------------------
  // What normalisation means
  // ---------------------------------------------------------------------------------------

  lemma {:induction false} TrimKeepsValue(b: seq<byte>)
    ensures Value(256, TrimZeros(b)) == Value(256, b)
  {
    if b != [] && b[0] == 0 {
      TrimKeepsValue(b[1..]);
      assert b == [0] + b[1..];
      ValueSplit(256, [0], b[1..]);
      ValueSnoc(256, [], 0);
      assert [] + [0] == [0];
    }
  }

  lemma LeadingDigit(t: seq<byte>)
    requires t != [] && t[0] != 0
    ensures Value(256, t) >= Pow(256, |t| - 1)
  {
    assert t == [t[0]] + t[1..];
    ValueSplit(256, [t[0]], t[1..]);
    assert [t[0]][..0] == [];
    assert Value(256, [t[0]]) == t[0];
    ValueBound(256, t[1..]);
    MulMono(1, t[0], Pow(256, |t| - 1));
  }

  lemma TooLong(t: seq<byte>, w: nat)
    requires |t| > w && t[0] != 0
    ensures Value(256, t) >= Pow(256, w)
  {
    LeadingDigit(t);
    PowMono(256, w, |t| - 1);
  }

  /** Normalising keeps the number, and fails exactly when it needs more bytes. */
  lemma NormalizeByValue(b: seq<byte>, w: nat)
    ensures Normalize(b, w) == if Value(256, b) < Pow(256, w) then Some(ToBE(w, Value(256, b))) else None
  {
    TrimKeepsValue(b);
    var t := TrimZeros(b);
    if |t| > w {
      TooLong(t, w);
    } else {
      ToBEOfPadded(w - |t|, t);
    }
  }

  // ---------------------------------------------------------------------------------------
  // Round trip
  // ---------------------------------------------------------------------------------------

  /** The minimal big-endian form. */
  function MinBE(v: nat): seq<byte> {
    if v == 0 then [] else MinBE(v / 256) + [v % 256]
  }

  /** A DER INTEGER body: minimal, never empty, and with a zero in front of a set top bit. */
  function DerInt(v: nat): seq<byte> {
    var m := MinBE(v);
    if m == [] || m[0] >= 128 then [0] + m else m
  }

  function Der(r: nat, s: nat): seq<byte>
    requires |DerInt(r)| + |DerInt(s)| <= 251
  {
    [0x30, 4 + |DerInt(r)| + |DerInt(s)|, 0x02, |DerInt(r)|] + DerInt(r) + [0x02, |DerInt(s)|] + DerInt(s)
  }

  lemma {:induction false} MinBEValue(v: nat)
    ensures Value(256, MinBE(v)) == v
  {
    if v != 0 {
      MinBEValue(v / 256);
      ValueSnoc(256, MinBE(v / 256), v % 256);
    }
  }

  lemma {:induction false} MinBELength(v: nat, k: nat)
    requires v < Pow(256, k)
    ensures |MinBE(v)| <= k
  {
    if v != 0 {
      DivBelow(v, 256, Pow(256, k - 1));
      MinBELength(v / 256, k - 1);
    }
  }

  lemma DerIntValue(v: nat)
    ensures Value(256, DerInt(v)) == v
  {
    var m := MinBE(v);
    MinBEValue(v);
    ValueSplit(256, [0], m);
    ValueSnoc(256, [], 0);
    assert [] + [0] == [0];
  }

  lemma DerIntLength(v: nat)
    requires v < Pow(256, 32)
    ensures 1 <= |DerInt(v)| <= 33
  {
    MinBELength(v, 32);
  }

  lemma ParseIntsOfDer(r: nat, s: nat, flag: byte)
    requires r < Pow(256, 32) && s < Pow(256, 32)
    ensures ParseInts(DerInt(r), DerInt(s), flag) == Ok(RawSig(ToBE(32, r), ToBE(32, s), flag))
  {
    DerIntValue(r);
    DerIntValue(s);
    NormalizeByValue(DerInt(r), 32);
    NormalizeByValue(DerInt(s), 32);
  }

  /** Every signature written in DER, with any flag byte, is read back as its two numbers. */
  lemma ParseOfDer(r: nat, s: nat, flag: byte)
    requires r < Pow(256, 32) && s < Pow(256, 32)
    ensures |DerInt(r)| + |DerInt(s)| <= 66
    ensures ParseEcdsaSig(Der(r, s) + [flag]) == Ok(RawSig(ToBE(32, r), ToBE(32, s), flag))
  {
    DerIntLength(r);
    DerIntLength(s);
    var der := Der(r, s);
    assert (der + [flag])[..|der|] == der;
    ParseDerOf(DerInt(r), DerInt(s), flag);
    ParseIntsOfDer(r, s, flag);
  }

  lemma ParseDerOf(r: seq<byte>, s: seq<byte>, flag: byte)
    requires 1 <= |r| && 1 <= |s| && |r| + |s| <= 251
    ensures ParseDer([0x30, 4 + |r| + |s|, 0x02, |r|] + r + [0x02, |s|] + s, flag) == ParseInts(r, s, flag)
  {
    var der := [0x30, 4 + |r| + |s|, 0x02, |r|] + r + [0x02, |s|] + s;
    assert der[4..4 + |r|] == r;
    assert der[4 + |r| + 2..] == s;
  }
}
