/** The checksum register as the 32-bit word of the source, and the loop that updates it. */
module Bech32Word {
  import opened Bech32Algebra
  import opened Bech32Text

  /** A 5-bit symbol, as the byte that holds it and as a limb. */
  function Vec(v: Sym): bv5 {
    v as bv5
  }

  function Num(b: bv5): (v: Sym) {
    b as int
  }

  lemma NumVec(v: Sym)
    ensures Num(Vec(v)) == v
  {
  }

  lemma VecNum(b: bv5)
    ensures Vec(Num(b)) == b
  {
  }

  function Vecs(vs: seq<Sym>): seq<bv5> {
    seq(|vs|, i requires 0 <= i < |vs| => Vec(vs[i]))
  }

  lemma VecsConcat(us: seq<Sym>, vs: seq<Sym>)
    ensures Vecs(us + vs) == Vecs(us) + Vecs(vs)
  {
  }

  lemma VecsInjective(us: seq<Sym>, vs: seq<Sym>)
    requires Vecs(us) == Vecs(vs)
    ensures us == vs
  {
    assert |us| == |Vecs(us)| == |Vecs(vs)| == |vs|;
    forall i | 0 <= i < |us|
      ensures us[i] == vs[i]
    {
      assert Vecs(us)[i] == Vecs(vs)[i];
      NumVec(us[i]);
      NumVec(vs[i]);
    }
  }

  function PackLimbs(c5: bv5, c4: bv5, c3: bv5, c2: bv5, c1: bv5, c0: bv5): bv32 {
    ((c5 as bv32) << 25) | ((c4 as bv32) << 20) | ((c3 as bv32) << 15)
    | ((c2 as bv32) << 10) | ((c1 as bv32) << 5) | (c0 as bv32)
  }

  /** The 32-bit word the source holds. */
  function Pack(r: Register): bv32 {
    PackLimbs(r.c5, r.c4, r.c3, r.c2, r.c1, r.c0)
  }

  lemma PackXor(a: Register, b: Register)
    ensures Pack(Xor(a, b)) == Pack(a) ^ Pack(b)
  {
  }

  lemma PackInjective(a: Register, b: Register)
    requires Pack(a) == Pack(b)
    ensures a == b
  {
  }

  lemma PackTop(r: Register)
    ensures Pack(r) >> 25 == r.c5 as bv32
  {
  }

  lemma PackLimbsShift(c5: bv5, c4: bv5, c3: bv5, c2: bv5, c1: bv5, c0: bv5)
    ensures (PackLimbs(c5, c4, c3, c2, c1, c0) & 0x1ffffff) << 5 == PackLimbs(c4, c3, c2, c1, c0, 0)
  {
  }

  lemma PackLimbsInsert(c5: bv5, c4: bv5, c3: bv5, c2: bv5, c1: bv5, v: bv5)
    ensures PackLimbs(c5, c4, c3, c2, c1, 0) ^ (v as bv32) == PackLimbs(c5, c4, c3, c2, c1, v)
  {
  }

  lemma PackShift(r: Register, v: bv5)
    ensures ((Pack(r) & 0x1ffffff) << 5) ^ (v as bv32) == Pack(Shift(r, v))
  {
    PackLimbsShift(r.c5, r.c4, r.c3, r.c2, r.c1, r.c0);
    PackLimbsInsert(r.c4, r.c3, r.c2, r.c1, r.c0, v);
  }

  lemma PackOne()
    ensures Pack(ONE) == 1
  {
  }

  /** The generators as the words the source lists. */
  function GeneratorWord(i: nat): bv32
    requires i < 5
  {
    if i == 0 then 0x3b6a57b2 else if i == 1 then 0x26508e6d else if i == 2 then 0x1ea119fa
    else if i == 3 then 0x3d4233dd else 0x2a1462b3
  }

  lemma PackGenerator(i: nat)
    requires i < 5
    ensures Pack(Generator(i)) == GeneratorWord(i)
  {
  }

  lemma PackXorZero(r: Register)
    ensures Pack(Xor(r, ZERO)) == Pack(r)
  {
    XorZero(r);
  }

  lemma WordBit(t: bv5, i: nat)
    requires i < 5
    ensures (((t as bv32) >> i) & 1 == 1) == Bit(t, i)
  {
  }

  lemma SymWord(v: Sym)
    ensures v as bv32 == Vec(v) as bv32
  {
  }

  lemma FeedRound(w: bv32, f: Register, t: bv5, i: nat)
    requires i < 5 && w == Pack(f)
    ensures Pack(Xor(f, Select(t, i))) == if Bit(t, i) then w ^ GeneratorWord(i) else w
  {
    if Bit(t, i) {
      PackGenerator(i);
      PackXor(f, Generator(i));
    } else {
      PackXorZero(f);
    }
  }

  /** The limb that the checksum writer reads out of the word, highest first. */
  function LimbAt(r: Register, i: nat): bv5
    requires i < 6
  {
    if i == 0 then r.c5 else if i == 1 then r.c4 else if i == 2 then r.c3
    else if i == 3 then r.c2 else if i == 4 then r.c1 else r.c0
  }

  lemma WordLimbs(c5: bv5, c4: bv5, c3: bv5, c2: bv5, c1: bv5, c0: bv5)
    ensures var w := PackLimbs(c5, c4, c3, c2, c1, c0);
            && (w >> 25) & 31 == c5 as bv32 && (w >> 20) & 31 == c4 as bv32
            && (w >> 15) & 31 == c3 as bv32 && (w >> 10) & 31 == c2 as bv32
            && (w >> 5) & 31 == c1 as bv32 && (w >> 0) & 31 == c0 as bv32
  {
  }

  lemma LimbNumber(w: bv32, l: bv5)
    requires w == l as bv32
    ensures w as int == Num(l)
  {
  }

  ghost predicate HasLimbs(w: bv32, r: Register) {
    && (w >> 25) & 31 == r.c5 as bv32 && (w >> 20) & 31 == r.c4 as bv32
    && (w >> 15) & 31 == r.c3 as bv32 && (w >> 10) & 31 == r.c2 as bv32
    && (w >> 5) & 31 == r.c1 as bv32 && (w >> 0) & 31 == r.c0 as bv32
  }

  lemma WordHasLimbs(r: Register)
    ensures HasLimbs(Pack(r), r)
  {
    WordLimbs(r.c5, r.c4, r.c3, r.c2, r.c1, r.c0);
  }

  function Cut(w: bv32, i: nat): bv32
    requires i < 6
  {
    if i == 0 then (w >> 25) & 31 else if i == 1 then (w >> 20) & 31 else if i == 2 then (w >> 15) & 31
    else if i == 3 then (w >> 10) & 31 else if i == 4 then (w >> 5) & 31 else (w >> 0) & 31
  }

  lemma CutIsShift(w: bv32, i: nat)
    requires i < 6
    ensures (w >> (5 * (5 - i))) & 31 == Cut(w, i)
  {
    match i
    case 0 => assert (w >> (5 * (5 - i))) & 31 == (w >> 25) & 31;
    case 1 => assert (w >> (5 * (5 - i))) & 31 == (w >> 20) & 31;
    case 2 => assert (w >> (5 * (5 - i))) & 31 == (w >> 15) & 31;
    case 3 => assert (w >> (5 * (5 - i))) & 31 == (w >> 10) & 31;
    case 4 => assert (w >> (5 * (5 - i))) & 31 == (w >> 5) & 31;
    case 5 => assert (w >> (5 * (5 - i))) & 31 == (w >> 0) & 31;
  }

  lemma CutIsLimb(w: bv32, r: Register, i: nat)
    requires i < 6 && HasLimbs(w, r)
    ensures Cut(w, i) == LimbAt(r, i) as bv32
  {
    match i
    case 0 => assert LimbAt(r, i) == r.c5;
    case 1 => assert LimbAt(r, i) == r.c4;
    case 2 => assert LimbAt(r, i) == r.c3;
    case 3 => assert LimbAt(r, i) == r.c2;
    case 4 => assert LimbAt(r, i) == r.c1;
    case 5 => assert LimbAt(r, i) == r.c0;
  }

  /** `byte(polymod >> (5*(5-i))) & 0x1f`. */
  method ReadLimb(w: bv32, i: nat, ghost r: Register) returns (v: Sym)
    requires i < 6 && w == Pack(r)
    ensures v == Num(LimbAt(r, i))
  {
    WordHasLimbs(r);
    CutIsShift(w, i);
    CutIsLimb(w, r, i);
    var limb := (w >> (5 * (5 - i))) & 31;
    LimbNumber(limb, LimbAt(r, i));
    v := limb as int;
  }

  lemma RunOneMore(values: seq<Sym>, n: nat)
    requires n < |values|
    ensures Run(ONE, Vecs(values[..n + 1])) == Step(Run(ONE, Vecs(values[..n])), Vec(values[n]))
  {
    assert Vecs(values[..n + 1]) == Vecs(values[..n]) + [Vec(values[n])];
    assert (Vecs(values[..n]) + [Vec(values[n])])[..n] == Vecs(values[..n]);
  }

  /** One round: a symbol moves in, and what moves out is fed back. */
  method FeedSymbol(word: bv32, v: Sym, ghost r: Register) returns (chk: bv32)
    requires word == Pack(r)
    ensures chk == Pack(Step(r, Vec(v)))
  {
    PackTop(r);
    SymWord(v);
    PackShift(r, Vec(v));
    var top := word >> 25;
    chk := ((word & 0x1ffffff) << 5) ^ (v as bv32);
    chk := FeedWord(chk, top, Shift(r, Vec(v)), r.c5);
  }

  /** The polynomial remainder of a symbol string, computed on the word as the source does. */
  method Polymod(values: seq<Sym>) returns (chk: bv32)
    ensures chk == Pack(Run(ONE, Vecs(values)))
  {
    chk := 1;
    PackOne();
    var n := 0;
    while n < |values|
      invariant 0 <= n <= |values|
      invariant chk == Pack(Run(ONE, Vecs(values[..n])))
    {
      RunOneMore(values, n);
      chk := FeedSymbol(chk, values[n], Run(ONE, Vecs(values[..n])));
      n := n + 1;
    }
    assert values[..n] == values;
  }

  /** The inner loop: adds the generator of every set bit of the symbol that fell out. */
  method FeedWord(word: bv32, top: bv32, ghost r: Register, ghost t: bv5) returns (chk: bv32)
    requires word == Pack(r) && top == t as bv32
    ensures chk == Pack(Feed(r, t, 5))
  {
    chk := word;
    var i := 0;
    while i < 5
      invariant 0 <= i <= 5
      invariant chk == Pack(Feed(r, t, i))
    {
      WordBit(t, i);
      FeedRound(chk, Feed(r, t, i), t, i);
      if (top >> i) & 1 == 1 {
        chk := chk ^ GeneratorWord(i);
      }
      i := i + 1;
    }
  }
}
