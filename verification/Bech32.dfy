/**
  Bech32 (BIP-173) as cardano.go implements it: no length limit, and a decoder that accepts any
  human-readable part of at least one character.
*/
module Bech32 {
  import opened Outcome
  import opened Bech32Algebra
  import opened Bech32Word
  import opened Bech32Text
  import opened Bech32Charset

  // ---------------------------------------------------------------------------------------
  // Checksum
  // ---------------------------------------------------------------------------------------

  /** The byte that a character of a Go string stands for. */
  function CodeOf(c: char): int {
    c as int % 256
  }

  function HrpExpand(hrp: string): seq<Sym> {
    seq(|hrp|, i requires 0 <= i < |hrp| => CodeOf(hrp[i]) / 32)
    + [0]
    + seq(|hrp|, i requires 0 <= i < |hrp| => CodeOf(hrp[i]) % 32)
  }

  /** The register after the human-readable part and the given symbols. */
  function Absorb(hrp: string, symbols: seq<Sym>): Register {
    Run(ONE, Vecs(HrpExpand(hrp) + symbols))
  }

  predicate ChecksumOk(hrp: string, symbols: seq<Sym>) {
    Absorb(hrp, symbols) == ONE
  }

  function Limbs(r: Register): seq<Sym> {
    [Num(r.c5), Num(r.c4), Num(r.c3), Num(r.c2), Num(r.c1), Num(r.c0)]
  }

  const SIX_ZEROS: seq<Sym> := [0, 0, 0, 0, 0, 0]

  function Checksum(hrp: string, data: seq<Sym>): seq<Sym> {
    Limbs(Xor(Absorb(hrp, data + SIX_ZEROS), ONE))
  }

  lemma VecsOfLimbs(r: Register)
    ensures FromLimbs(Vecs(Limbs(r))) == r
  {
    VecNum(r.c5);
    VecNum(r.c4);
    VecNum(r.c3);
    VecNum(r.c2);
    VecNum(r.c1);
    VecNum(r.c0);
  }

  lemma VecsOfZeros()
    ensures Vecs(SIX_ZEROS) == Zeros(6)
  {
  }

  lemma AbsorbSplit(hrp: string, data: seq<Sym>, tail: seq<Sym>)
    ensures Absorb(hrp, data + tail) == Run(Absorb(hrp, data), Vecs(tail))
  {
    assert HrpExpand(hrp) + (data + tail) == (HrpExpand(hrp) + data) + tail;
    VecsConcat(HrpExpand(hrp) + data, tail);
    RunConcat(ONE, Vecs(HrpExpand(hrp) + data), Vecs(tail));
  }

  lemma AbsorbTail(hrp: string, data: seq<Sym>, cs: seq<Sym>)
    requires |cs| == 6
    ensures Absorb(hrp, data + cs) == Xor(Absorb(hrp, data + SIX_ZEROS), FromLimbs(Vecs(cs)))
  {
    AbsorbSplit(hrp, data, cs);
    AbsorbSplit(hrp, data, SIX_ZEROS);
    VecsOfZeros();
    RunTail(Absorb(hrp, data), Vecs(cs));
  }

  lemma FromLimbsInjective(us: seq<bv5>, vs: seq<bv5>)
    requires |us| == 6 && |vs| == 6 && FromLimbs(us) == FromLimbs(vs)
    ensures us == vs
  {
  }

  lemma SymbolsOfRegister(cs: seq<Sym>, r: Register)
    requires |cs| == 6
    ensures FromLimbs(Vecs(cs)) == r <==> cs == Limbs(r)
  {
    VecsOfLimbs(r);
    if FromLimbs(Vecs(cs)) == r {
      FromLimbsInjective(Vecs(cs), Vecs(Limbs(r)));
      VecsInjective(cs, Limbs(r));
    }
  }

  lemma XorSolve(z: Register, x: Register, y: Register)
    ensures Xor(z, x) == y <==> x == Xor(z, y)
  {
    XorCancels(z, x);
    XorCancels(z, y);
  }

  /** Six given symbols check out exactly when they are the checksum that the writer computes:
      for every prefix and every data there is one valid checksum and no other. */
  lemma ChecksumUnique(hrp: string, data: seq<Sym>, cs: seq<Sym>)
    requires |cs| == 6
    ensures ChecksumOk(hrp, data + cs) <==> cs == Checksum(hrp, data)
  {
    var z := Absorb(hrp, data + SIX_ZEROS);
    AbsorbTail(hrp, data, cs);
    XorSolve(z, FromLimbs(Vecs(cs)), ONE);
    SymbolsOfRegister(cs, Xor(z, ONE));
  }

  // ---------------------------------------------------------------------------------------
  // Encoding and decoding
  // ---------------------------------------------------------------------------------------

  const BECH32 := Code(CharOf, Checksum, ChecksumOk)

  lemma Bech32IsValid()
    ensures Valid(BECH32)
  {
    CharsetIsAlphabet();
    forall hrp: string, data: seq<Sym>, cs: seq<Sym> | |cs| == 6
      ensures ChecksumOk(hrp, data + cs) <==> cs == Checksum(hrp, data)
    {
      ChecksumUnique(hrp, data, cs);
    }
  }

  function Encoded(hrp: string, data: seq<Sym>): string {
    EncodedText(BECH32, hrp, data)
  }

  function Decoded(text: string): Decoding {
    DecodedText(BECH32, text)
  }

  method HrpExpandLoop(hrp: string) returns (out: seq<Sym>)
    ensures out == HrpExpand(hrp)
  {
    out := [];
    var i := 0;
    while i < |hrp|
      invariant 0 <= i <= |hrp|
      invariant out == HrpExpand(hrp)[..i]
    {
      out := out + [CodeOf(hrp[i]) / 32];
      i := i + 1;
    }
    out := out + [0];
    i := 0;
    while i < |hrp|
      invariant 0 <= i <= |hrp|
      invariant out == HrpExpand(hrp)[..|hrp| + 1 + i]
    {
      out := out + [CodeOf(hrp[i]) % 32];
      i := i + 1;
    }
  }

  method CreateChecksum(hrp: string, data: seq<Sym>) returns (out: seq<Sym>)
    ensures out == Checksum(hrp, data)
  {
    var expanded := HrpExpandLoop(hrp);
    assert expanded + data + SIX_ZEROS == HrpExpand(hrp) + (data + SIX_ZEROS);
    var word := Polymod(expanded + data + SIX_ZEROS);
    ghost var z := Absorb(hrp, data + SIX_ZEROS);
    PackOne();
    PackXor(z, ONE);
    out := WriteLimbs(word ^ 1, Xor(z, ONE));
  }

  /** The loop that cuts the 30 bits of the word into six symbols. */
  method WriteLimbs(polymod: bv32, ghost r: Register) returns (out: seq<Sym>)
    requires polymod == Pack(r)
    ensures out == Limbs(r)
  {
    out := [];
    var i := 0;
    while i < 6
      invariant 0 <= i <= 6
      invariant out == Limbs(r)[..i]
    {
      var v := ReadLimb(polymod, i, r);
      out := out + [v];
      i := i + 1;
    }
  }

  method Encode(hrp: string, data: seq<Sym>) returns (s: string)
    ensures s == Encoded(hrp, data)
  {
    var checksum := CreateChecksum(hrp, data);
    var chars := CharsLoop(CharOf, data + checksum);
    s := hrp + "1" + chars;
  }

  method Decode(text: string) returns (r: Decoding)
    ensures r == Decoded(text)
  {
    if text != Lower(text) && text != Upper(text) {
      return Err(MixedCase);
    }
    var s := Lower(text);
    var pos := LastSeparator(s);
    if pos < 1 || pos + 7 > |s| {
      return Err(BadSeparator);
    }
    var hrp := s[..pos];
    var symbols := SymbolsLoop(CharOf, s, pos + 1);
    if symbols.None? {
      return Err(BadCharacter);
    }
    var data := symbols.value;
    var expanded := HrpExpandLoop(hrp);
    var chk := Polymod(expanded + data);
    PackOne();
    if chk != 1 {
      return Err(BadChecksum);
    }
    PackInjective(Absorb(hrp, data), ONE);
    return Ok((hrp, data[..|data| - 6]));
  }

  // ---------------------------------------------------------------------------------------
  // Main results
  // ---------------------------------------------------------------------------------------

  /** Decoding undoes encoding for data of every length, exactly when the human-readable part is
      non-empty and has no upper-case letter. */
  lemma DecodeInvertsEncode(hrp: string, data: seq<Sym>)
    ensures Decoded(Encoded(hrp, data)) == Ok((hrp, data)) <==> hrp != "" && !HasUpper(hrp)
  {
    Bech32IsValid();
    DecodeOfEncode(BECH32, hrp, data);
  }

  /** Whatever the decoder accepts, in either case, is the encoding of what it returns. */
  lemma EncodeInvertsDecode(text: string)
    requires Decoded(text).Ok?
    ensures Encoded(Decoded(text).value.0, Decoded(text).value.1) == Lower(text)
  {
    Bech32IsValid();
    EncodeOfDecode(BECH32, text);
  }

  /** The accepted texts, without reference to the decoder: one letter case, and the encoding of
      something with a non-empty lower-case prefix. */
  lemma DecodeAcceptsExactly(text: string)
    ensures Decoded(text).Ok? <==>
            SingleCase(text)
            && exists hrp, data :: hrp != "" && !HasUpper(hrp) && Lower(text) == Encoded(hrp, data)
  {
    Bech32IsValid();
    AcceptedExactly(BECH32, text);
    if IsEncoding(BECH32, Lower(text)) {
      var hrp, data :| hrp != "" && !HasUpper(hrp) && Lower(text) == EncodedText(BECH32, hrp, data);
      assert Lower(text) == Encoded(hrp, data);
    }
  }

  lemma VecsDifferWithin(x: seq<Sym>, us: seq<Sym>, vs: seq<Sym>, at: nat)
    requires |vs| == |us| && at + 6 <= |us| && us != vs
    requires us[..at] == vs[..at] && us[at + 6..] == vs[at + 6..]
    ensures DifferWithin(Vecs(x + us), Vecs(x + vs), |x| + at)
    ensures Vecs(x + us) != Vecs(x + vs)
  {
    assert (x + us)[|x|..] == us && (x + vs)[|x|..] == vs;
    if Vecs(x + us) == Vecs(x + vs) {
      VecsInjective(x + us, x + vs);
    }
    forall i | 0 <= i < |x + us| && !(|x| + at <= i < |x| + at + 6)
      ensures (x + us)[i] == (x + vs)[i]
    {
      if |x| <= i < |x| + at {
        assert us[..at][i - |x|] == vs[..at][i - |x|];
      } else if |x| + at + 6 <= i {
        assert us[at + 6..][i - |x| - at - 6] == vs[at + 6..][i - |x| - at - 6];
      }
    }
  }

  /** Replacing any symbols inside six consecutive places of a checksummed symbol string breaks
      the checksum, whatever the length of the string. */
  lemma BurstBreaksChecksum(hrp: string, us: seq<Sym>, vs: seq<Sym>, at: nat)
    requires ChecksumOk(hrp, us)
    requires |vs| == |us| && at + 6 <= |us| && us != vs
    requires us[..at] == vs[..at] && us[at + 6..] == vs[at + 6..]
    ensures !ChecksumOk(hrp, vs)
  {
    var x := HrpExpand(hrp);
    VecsDifferWithin(x, us, vs, at);
    BurstChangesRegister(ONE, Vecs(x + us), Vecs(x + vs), |x| + at);
  }

  /** The same on texts: an accepted text, in lower or upper case, changed inside six consecutive
      characters after the separator to other characters of the set, is rejected: for mixing
      cases, or for its checksum. */
  lemma BurstIsRejected(text: string, changed: string, hrp: string, us: seq<Sym>, vs: seq<Sym>, at: nat)
    requires Decoded(text).Ok? && Lower(text) == hrp + "1" + Chars(CharOf, us)
    requires Lower(changed) == hrp + "1" + Chars(CharOf, vs)
    requires |vs| == |us| && at + 6 <= |us| && us != vs
    requires us[..at] == vs[..at] && us[at + 6..] == vs[at + 6..]
    ensures Decoded(changed) == Err(if SingleCase(changed) then BadChecksum else MixedCase)
  {
    CharsetIsAlphabet();
    LowerForm(text, hrp, us);
    LowerForm(changed, hrp, vs);
    BurstBreaksChecksum(hrp, us, vs, at);
  }

  /** A text in one case decodes as its lower-case form does. */
  lemma LowerForm(text: string, hrp: string, symbols: seq<Sym>)
    requires Lower(text) == hrp + "1" + Chars(CharOf, symbols) && |symbols| >= 6 && ValidAlphabet(CharOf)
    ensures SingleCase(text) ==> Decoded(text) == DecodedSymbols(BECH32, hrp, Some(symbols)) || hrp == ""
    ensures !SingleCase(text) ==> Decoded(text) == Err(MixedCase)
    ensures hrp == "" ==> Decoded(text).Err?
  {
    TextShape(CharOf, hrp, symbols);
    CharsShape(CharOf, symbols);
  }
}
