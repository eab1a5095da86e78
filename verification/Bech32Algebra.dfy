/**
  The BIP-173 checksum register as a vector space over GF(2).

  The source keeps the register in one 32-bit word of which 30 bits are used. Here the word is
  cut into six 5-bit limbs: a round of the checksum moves every limb up by one place, puts the
  next symbol in the lowest limb and adds one generator for every set bit of the limb that fell
  out. Linearity and injectivity are proved on the limbs; `Pack` ties the limbs to the word, so
  that the method that works on the word is proved against them.
*/
module Bech32Algebra {

  datatype Register = Register(c5: bv5, c4: bv5, c3: bv5, c2: bv5, c1: bv5, c0: bv5)

  const ZERO := Register(0, 0, 0, 0, 0, 0)
  const ONE := Register(0, 0, 0, 0, 0, 1)

  function Xor(a: Register, b: Register): Register {
    Register(a.c5 ^ b.c5, a.c4 ^ b.c4, a.c3 ^ b.c3, a.c2 ^ b.c2, a.c1 ^ b.c1, a.c0 ^ b.c0)
  }

  /** The five BIP-173 generators, limb by limb. */
  function Generator(i: nat): Register
    requires i < 5
  {
    if i == 0 then Register(29, 22, 20, 21, 29, 18)
    else if i == 1 then Register(19, 5, 1, 3, 19, 13)
    else if i == 2 then Register(15, 10, 2, 6, 15, 26)
    else if i == 3 then Register(30, 20, 4, 12, 30, 29)
    else Register(21, 1, 8, 24, 21, 19)
  }

  predicate Bit(t: bv5, i: nat)
    requires i < 5
  {
    (t >> i) & 1 == 1
  }

  function Select(t: bv5, i: nat): Register
    requires i < 5
  {
    if Bit(t, i) then Generator(i) else ZERO
  }

  /** Adds to `r` the first n generators that `t` selects. */
  function Feed(r: Register, t: bv5, n: nat): Register
    requires n <= 5
  {
    if n == 0 then r else Xor(Feed(r, t, n - 1), Select(t, n - 1))
  }

  /** `r` moved up by one limb, with the symbol v in the lowest one. */
  function Shift(r: Register, v: bv5): Register {
    Register(r.c4, r.c3, r.c2, r.c1, r.c0, v)
  }

  /** One round of the checksum. */
  function Step(r: Register, v: bv5): Register {
    Feed(Shift(r, v), r.c5, 5)
  }

  function Run(r: Register, vs: seq<bv5>): Register {
    if vs == [] then r else Step(Run(r, vs[..|vs| - 1]), vs[|vs| - 1])
  }

  // ---------------------------------------------------------------------------------------
  // Linearity
  // ---------------------------------------------------------------------------------------

  lemma XorZero(r: Register)
    ensures Xor(r, ZERO) == r && Xor(ZERO, r) == r
  {
  }

  lemma XorSelf(r: Register)
    ensures Xor(r, r) == ZERO
  {
  }

  lemma LimbCancels(a: bv5, b: bv5)
    ensures a ^ (a ^ b) == b
    ensures a ^ b == 0 <==> a == b
  {
  }

  lemma XorCancels(a: Register, b: Register)
    ensures Xor(a, Xor(a, b)) == b
  {
    LimbCancels(a.c5, b.c5);
    LimbCancels(a.c4, b.c4);
    LimbCancels(a.c3, b.c3);
    LimbCancels(a.c2, b.c2);
    LimbCancels(a.c1, b.c1);
    LimbCancels(a.c0, b.c0);
  }

  lemma SelectLinear(s: bv5, t: bv5, i: nat)
    requires i < 5
    ensures Select(s ^ t, i) == Xor(Select(s, i), Select(t, i))
  {
    BitLinear(s, t, i);
  }

  lemma BitLinear(s: bv5, t: bv5, i: nat)
    requires i < 5
    ensures Bit(s ^ t, i) == (Bit(s, i) != Bit(t, i))
  {
  }

  lemma MedialLimb(a: bv5, b: bv5, c: bv5, d: bv5)
    ensures (a ^ b) ^ (c ^ d) == (a ^ c) ^ (b ^ d)
  {
  }

  lemma Medial(a: Register, b: Register, c: Register, d: Register)
    ensures Xor(Xor(a, b), Xor(c, d)) == Xor(Xor(a, c), Xor(b, d))
  {
    MedialLimb(a.c5, b.c5, c.c5, d.c5);
    MedialLimb(a.c4, b.c4, c.c4, d.c4);
    MedialLimb(a.c3, b.c3, c.c3, d.c3);
    MedialLimb(a.c2, b.c2, c.c2, d.c2);
    MedialLimb(a.c1, b.c1, c.c1, d.c1);
    MedialLimb(a.c0, b.c0, c.c0, d.c0);
  }

  lemma {:induction false} FeedLinear(a: Register, b: Register, s: bv5, t: bv5, n: nat)
    requires n <= 5
    ensures Feed(Xor(a, b), s ^ t, n) == Xor(Feed(a, s, n), Feed(b, t, n))
  {
    if n > 0 {
      FeedLinear(a, b, s, t, n - 1);
      SelectLinear(s, t, n - 1);
      Medial(Feed(a, s, n - 1), Feed(b, t, n - 1), Select(s, n - 1), Select(t, n - 1));
    }
  }

  lemma ShiftLinear(a: Register, b: Register, u: bv5, v: bv5)
    ensures Shift(Xor(a, b), u ^ v) == Xor(Shift(a, u), Shift(b, v))
  {
  }

  lemma StepLinear(a: Register, b: Register, u: bv5, v: bv5)
    ensures Step(Xor(a, b), u ^ v) == Xor(Step(a, u), Step(b, v))
  {
    ShiftLinear(a, b, u, v);
    FeedLinear(Shift(a, u), Shift(b, v), a.c5, b.c5, 5);
  }

  function XorAll(us: seq<bv5>, vs: seq<bv5>): seq<bv5>
    requires |us| == |vs|
  {
    seq(|us|, i requires 0 <= i < |us| => us[i] ^ vs[i])
  }

  /** The checksum of a sum is the sum of the checksums, at any length. */
  lemma {:induction false} RunLinear(a: Register, b: Register, us: seq<bv5>, vs: seq<bv5>)
    requires |us| == |vs|
    ensures Run(Xor(a, b), XorAll(us, vs)) == Xor(Run(a, us), Run(b, vs))
  {
    if us != [] {
      var n := |us| - 1;
      assert XorAll(us, vs)[..n] == XorAll(us[..n], vs[..n]);
      RunLinear(a, b, us[..n], vs[..n]);
      StepLinear(Run(a, us[..n]), Run(b, vs[..n]), us[n], vs[n]);
    }
  }

  lemma {:induction false} RunConcat(r: Register, us: seq<bv5>, vs: seq<bv5>)
    ensures Run(r, us + vs) == Run(Run(r, us), vs)
  {
    if vs == [] {
      assert us + vs == us;
    } else {
      var n := |vs| - 1;
      assert (us + vs)[..|us| + n] == us + vs[..n];
      RunConcat(r, us, vs[..n]);
    }
  }

  // ---------------------------------------------------------------------------------------
  // Injectivity
  // ---------------------------------------------------------------------------------------

  lemma FeedOfZero(r: Register, n: nat)
    requires n <= 5
    ensures Feed(r, 0, n) == r
  {
  }

  /** The lowest limbs of the generators are independent, so a round that leaves a zero in the
      lowest limb had a zero in the highest one. */
  lemma LowLimbDecidesTop(r: Register)
    requires Step(r, 0).c0 == 0
    ensures r.c5 == 0
  {
    var t, z := r.c5, Shift(r, 0);
    var s0, s1, s2, s3 := Select(t, 0).c0, Select(t, 1).c0, Select(t, 2).c0, Select(t, 3).c0;
    assert Feed(z, t, 1).c0 == s0;
    assert Feed(z, t, 2).c0 == s0 ^ s1;
    assert Feed(z, t, 3).c0 == s0 ^ s1 ^ s2;
    assert Feed(z, t, 4).c0 == s0 ^ s1 ^ s2 ^ s3;
    LowLimbsIndependent(t);
  }

  lemma LowLimbsIndependent(t: bv5)
    requires (if Bit(t, 0) then 18 else 0) ^ (if Bit(t, 1) then 13 else 0) ^ (if Bit(t, 2) then 26 else 0)
             ^ (if Bit(t, 3) then 29 else 0) ^ (if Bit(t, 4) then 19 else 0) == (0 as bv5)
    ensures t == 0
  {
  }

  lemma StepInjective(r: Register)
    requires Step(r, 0) == ZERO
    ensures r == ZERO
  {
    LowLimbDecidesTop(r);
    FeedOfZero(Shift(r, 0), 5);
  }

  function Zeros(n: nat): seq<bv5> {
    seq(n, _ => 0 as bv5)
  }

  /** Trailing zeros never turn a non-zero register into zero. */
  lemma {:induction false} RunZerosInjective(r: Register, n: nat)
    requires Run(r, Zeros(n)) == ZERO
    ensures r == ZERO
  {
    if n > 0 {
      assert Zeros(n)[..n - 1] == Zeros(n - 1);
      StepInjective(Run(r, Zeros(n - 1)));
      RunZerosInjective(r, n - 1);
    }
  }

  lemma StepTopZero(r: Register, v: bv5)
    requires r.c5 == 0
    ensures Step(r, v) == Shift(r, v)
  {
    FeedOfZero(Shift(r, v), 5);
  }

  lemma {:induction false} RunZerosFromZero(n: nat)
    ensures Run(ZERO, Zeros(n)) == ZERO
  {
    if n > 0 {
      assert Zeros(n)[..n - 1] == Zeros(n - 1);
      RunZerosFromZero(n - 1);
      StepTopZero(ZERO, 0);
    }
  }

  function FromLimbs(cs: seq<bv5>): Register
    requires |cs| == 6
  {
    Register(cs[0], cs[1], cs[2], cs[3], cs[4], cs[5])
  }

  /** Six symbols fed into an empty register are simply loaded into it. */
  lemma RunLoads(cs: seq<bv5>)
    requires |cs| == 6
    ensures Run(ZERO, cs) == FromLimbs(cs)
  {
    LoadPrefix(cs, 6);
    assert cs[..6] == cs;
  }

  lemma {:induction false} LoadPrefix(cs: seq<bv5>, n: nat)
    requires |cs| == 6 && n <= 6
    ensures Run(ZERO, cs[..n]) ==
            Register(if n < 6 then 0 else cs[n - 6], if n < 5 then 0 else cs[n - 5],
                     if n < 4 then 0 else cs[n - 4], if n < 3 then 0 else cs[n - 3],
                     if n < 2 then 0 else cs[n - 2], if n < 1 then 0 else cs[n - 1])
  {
    if n > 0 {
      LoadPrefix(cs, n - 1);
      assert cs[..n][..n - 1] == cs[..n - 1];
      StepTopZero(Run(ZERO, cs[..n - 1]), cs[n - 1]);
    }
  }

  lemma XorWithZeros(us: seq<bv5>)
    ensures XorAll(Zeros(|us|), us) == us
  {
  }

  /** The last six symbols enter the register linearly, with no feedback of their own. */
  lemma RunTail(r: Register, cs: seq<bv5>)
    requires |cs| == 6
    ensures Run(r, cs) == Xor(Run(r, Zeros(6)), FromLimbs(cs))
  {
    RunLinear(r, ZERO, Zeros(6), cs);
    XorWithZeros(cs);
    XorZero(r);
    RunLoads(cs);
  }

  // ---------------------------------------------------------------------------------------
  // Bursts
  // ---------------------------------------------------------------------------------------

  ghost predicate DifferWithin(us: seq<bv5>, vs: seq<bv5>, at: nat) {
    && |us| == |vs| && at + 6 <= |us|
    && forall i :: 0 <= i < |us| && !(at <= i < at + 6) ==> us[i] == vs[i]
  }

  lemma BurstShape(us: seq<bv5>, vs: seq<bv5>, at: nat)
    requires DifferWithin(us, vs, at)
    ensures var e := XorAll(us, vs);
            e == Zeros(at) + e[at..at + 6] + Zeros(|us| - at - 6)
  {
    var e := XorAll(us, vs);
    forall i | 0 <= i < |us| && us[i] == vs[i]
      ensures e[i] == 0
    {
      LimbCancels(us[i], vs[i]);
    }
  }

  lemma RunBurst(burst: seq<bv5>, before: nat, after: nat)
    requires |burst| == 6
    ensures Run(ZERO, Zeros(before) + burst + Zeros(after)) == Run(FromLimbs(burst), Zeros(after))
  {
    RunConcat(ZERO, Zeros(before) + burst, Zeros(after));
    RunConcat(ZERO, Zeros(before), burst);
    RunZerosFromZero(before);
    RunLoads(burst);
  }

  lemma ZeroBurst(us: seq<bv5>, vs: seq<bv5>, at: nat)
    requires DifferWithin(us, vs, at)
    requires forall i :: at <= i < at + 6 ==> XorAll(us, vs)[i] == 0
    ensures us == vs
  {
    forall i | 0 <= i < |us|
      ensures us[i] == vs[i]
    {
      if at <= i < at + 6 {
        assert XorAll(us, vs)[i] == us[i] ^ vs[i];
        LimbCancels(us[i], vs[i]);
      }
    }
  }

  lemma FromLimbsZero(cs: seq<bv5>)
    requires |cs| == 6 && FromLimbs(cs) == ZERO
    ensures forall k :: 0 <= k < 6 ==> cs[k] == 0
  {
  }

  /** Two symbol strings that differ, but only inside six consecutive places, never reach the
      same register. */
  lemma BurstChangesRegister(r: Register, us: seq<bv5>, vs: seq<bv5>, at: nat)
    requires DifferWithin(us, vs, at) && us != vs
    ensures Run(r, us) != Run(r, vs)
  {
    if Run(r, us) == Run(r, vs) {
      var e := XorAll(us, vs);
      var burst := e[at..at + 6];
      RunLinear(r, r, us, vs);
      XorSelf(r);
      XorSelf(Run(r, us));
      BurstShape(us, vs, at);
      RunBurst(burst, at, |us| - at - 6);
      RunZerosInjective(FromLimbs(burst), |us| - at - 6);
      FromLimbsZero(burst);
      assert forall i :: at <= i < at + 6 ==> e[i] == burst[i - at];
      ZeroBurst(us, vs, at);
    }
  }
}
