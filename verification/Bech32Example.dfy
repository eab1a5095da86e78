/**
 * Bech32 in figures (cardano.go; BIP-173): the symbols of a prefix, the five generator words, the
 * character set, and the shortest test vector of BIP-173 worked out register by register.
 */
module Bech32Example {
  import opened Bech32
  import opened Bech32Algebra
  import opened Bech32Charset
  import opened Bech32Text
  import opened Bech32Word

  /** A prefix in the checksum: the high three bits of every character, a zero, the low five bits. */
  lemma PrefixSymbols(hrp: string, i: nat)
    requires i < |hrp| && hrp[i] as int < 128
    ensures var us := HrpExpand(hrp);
            && |us| == 2 * |hrp| + 1 && us[|hrp|] == 0
            && us[i] == hrp[i] as int / 32 && us[|hrp| + 1 + i] == hrp[i] as int % 32
  {
  }

  /** A symbol that falls out with one bit set brings in the generator word of that bit. */
  lemma GeneratorWords(low: bv5)
    ensures Pack(Step(Register(1, 0, 0, 0, 0, 0), low)) == 0x3b6a57b2 ^ (low as bv32)
    ensures Pack(Step(Register(2, 0, 0, 0, 0, 0), low)) == 0x26508e6d ^ (low as bv32)
    ensures Pack(Step(Register(4, 0, 0, 0, 0, 0), low)) == 0x1ea119fa ^ (low as bv32)
    ensures Pack(Step(Register(8, 0, 0, 0, 0, 0), low)) == 0x3d4233dd ^ (low as bv32)
    ensures Pack(Step(Register(16, 0, 0, 0, 0, 0), low)) == 0x2a1462b3 ^ (low as bv32)
  {
    OneBit(1, 0, low);
    OneBit(2, 1, low);
    OneBit(4, 2, low);
    OneBit(8, 3, low);
    OneBit(16, 4, low);
  }

  lemma OneBit(t: bv5, i: nat, low: bv5)
    requires i < 5 && forall j: nat :: j < 5 ==> (Bit(t, j) <==> j == i)
    ensures Pack(Step(Register(t, 0, 0, 0, 0, 0), low)) == GeneratorWord(i) ^ (low as bv32)
  {
    FedOnce(Register(0, 0, 0, 0, 0, low), t, i, 5);
    AddedGenerator(i, low);
  }

  lemma AddedGenerator(i: nat, low: bv5)
    requires i < 5
    ensures Pack(Xor(Register(0, 0, 0, 0, 0, low), Generator(i))) == GeneratorWord(i) ^ (low as bv32)
  {
    PackGenerator(i);
    PackXor(Register(0, 0, 0, 0, 0, low), Generator(i));
    LowWord(low);
  }

  lemma LowWord(low: bv5)
    ensures Pack(Register(0, 0, 0, 0, 0, low)) == low as bv32
  {
  }

  lemma {:induction false} FedOnce(r: Register, t: bv5, i: nat, n: nat)
    requires i < 5 && n <= 5 && forall j: nat :: j < 5 ==> (Bit(t, j) <==> j == i)
    ensures Feed(r, t, n) == if i < n then Xor(r, Generator(i)) else r
  {
    if n > 0 {
      FedOnce(r, t, i, n - 1);
      XorZero(Feed(r, t, n - 1));
    }
  }

  /** The characters of the symbols 0 to 31. */
  lemma CharacterSet(v: Sym)
    ensures CharOf(v) == "qpzry9x8gf2tvdw0s3jn54khce6mua7l"[v]
  {
  }

  // ---------------------------------------------------------------------------------------
  // The text a12uel5l
  // ---------------------------------------------------------------------------------------

  /** One more symbol. */
  lemma RunMore(us: seq<Sym>, v: Sym, more: seq<Sym>)
    requires more == us + [v]
    ensures Run(ONE, Vecs(more)) == Step(Run(ONE, Vecs(us)), Vec(v))
  {
    assert Vecs(more)[..|us|] == Vecs(us);
  }

  lemma {:induction false} NothingFed(r: Register, n: nat)
    requires n <= 5
    ensures Feed(r, 0, n) == r
  {
    if n > 0 {
      NothingFed(r, n - 1);
      XorZero(r);
    }
  }

  lemma QuietStep(r: Register, v: bv5)
    requires r.c5 == 0
    ensures Step(r, v) == Register(r.c4, r.c3, r.c2, r.c1, r.c0, v)
  {
    NothingFed(Shift(r, v), 5);
  }

  lemma StepSix()
    ensures Step(Register(1, 3, 0, 1, 0, 0), 0) == Register(30, 22, 21, 21, 29, 18)
  {
  }

  lemma StepSeven()
    ensures Step(Register(30, 22, 21, 21, 29, 18), 0) == Register(1, 15, 26, 12, 5, 25)
  {
  }

  lemma StepEight()
    ensures Step(Register(1, 15, 26, 12, 5, 25), 0) == Register(18, 12, 24, 16, 4, 18)
  {
  }

  lemma StepNine()
    ensures Step(Register(18, 12, 24, 16, 4, 18), 0) == Register(10, 28, 25, 31, 20, 30)
  {
  }

  lemma AfterOne()
    ensures Run(ONE, Vecs([3])) == Register(0, 0, 0, 0, 1, 3)
  {
    assert Vecs([]) == [];
    QuietStep(ONE, 3);
    RunMore([], 3, [3]);
  }

  lemma AfterTwo()
    ensures Run(ONE, Vecs([3, 0])) == Register(0, 0, 0, 1, 3, 0)
  {
    AfterOne();
    QuietStep(Register(0, 0, 0, 0, 1, 3), 0);
    RunMore([3], 0, [3, 0]);
  }

  lemma AfterThree()
    ensures Run(ONE, Vecs([3, 0, 1])) == Register(0, 0, 1, 3, 0, 1)
  {
    AfterTwo();
    QuietStep(Register(0, 0, 0, 1, 3, 0), 1);
    RunMore([3, 0], 1, [3, 0, 1]);
  }

  lemma AfterFour()
    ensures Run(ONE, Vecs([3, 0, 1, 0])) == Register(0, 1, 3, 0, 1, 0)
  {
    AfterThree();
    QuietStep(Register(0, 0, 1, 3, 0, 1), 0);
    RunMore([3, 0, 1], 0, [3, 0, 1, 0]);
  }

  lemma AfterFive()
    ensures Run(ONE, Vecs([3, 0, 1, 0, 0])) == Register(1, 3, 0, 1, 0, 0)
  {
    AfterFour();
    QuietStep(Register(0, 1, 3, 0, 1, 0), 0);
    RunMore([3, 0, 1, 0], 0, [3, 0, 1, 0, 0]);
  }

  lemma AfterSix()
    ensures Run(ONE, Vecs([3, 0, 1, 0, 0, 0])) == Register(30, 22, 21, 21, 29, 18)
  {
    AfterFive();
    StepSix();
    RunMore([3, 0, 1, 0, 0], 0, [3, 0, 1, 0, 0, 0]);
  }

  lemma AfterSeven()
    ensures Run(ONE, Vecs([3, 0, 1, 0, 0, 0, 0])) == Register(1, 15, 26, 12, 5, 25)
  {
    AfterSix();
    StepSeven();
    RunMore([3, 0, 1, 0, 0, 0], 0, [3, 0, 1, 0, 0, 0, 0]);
  }

  lemma AfterEight()
    ensures Run(ONE, Vecs([3, 0, 1, 0, 0, 0, 0, 0])) == Register(18, 12, 24, 16, 4, 18)
  {
    AfterSeven();
    StepEight();
    RunMore([3, 0, 1, 0, 0, 0, 0], 0, [3, 0, 1, 0, 0, 0, 0, 0]);
  }

  lemma AfterNine()
    ensures Run(ONE, Vecs([3, 0, 1, 0, 0, 0, 0, 0, 0])) == Register(10, 28, 25, 31, 20, 30)
  {
    AfterEight();
    StepNine();
    RunMore([3, 0, 1, 0, 0, 0, 0, 0], 0, [3, 0, 1, 0, 0, 0, 0, 0, 0]);
  }

  lemma ChecksumOfA()
    ensures Checksum("a", []) == [10, 28, 25, 31, 20, 31]
  {
    assert HrpExpand("a") + ([] + SIX_ZEROS) == [3, 0, 1, 0, 0, 0, 0, 0, 0];
    AfterNine();
    var x := Xor(Register(10, 28, 25, 31, 20, 30), ONE);
    assert x == Register(10, 28, 25, 31, 20, 31);
  }

  /** The text of BIP-173 for the prefix "a" without data. */
  lemma EncodedA()
    ensures Encoded("a", []) == "a12uel5l"
  {
    ChecksumOfA();
    assert [] + Checksum("a", []) == [10, 28, 25, 31, 20, 31];
    assert Chars(CharOf, [10, 28, 25, 31, 20, 31]) == "2uel5l";
  }
}
