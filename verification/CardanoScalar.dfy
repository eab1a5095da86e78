/**
 * 256-bit little-endian scalars and the two carry additions of BIP32-Ed25519 derivation
 * (cardano_derive.go). The loops add byte by byte in uint16; the functions say which number
 * comes out.
 */
module CardanoScalar {
  import opened Arith
  import opened Bytes

  lemma {:induction false} FromLESnoc(s: seq<byte>, b: byte)
    ensures FromLE(s + [b]) == FromLE(s) + Pow(256, |s|) * b
  {
    if s == [] {
      assert s + [b] == [b];
    } else {
      FromLESnoc(s[1..], b);
      assert (s + [b])[1..] == s[1..] + [b];
      assert 256 * (Pow(256, |s| - 1) * b) == Pow(256, |s|) * b;
    }
  }

  lemma Shifted(low: nat, p: nat, high: nat)
    ensures 256 * (low + p * high) == 256 * low + (256 * p) * high
  {
  }

  lemma {:induction false} FromLESplit(s: seq<byte>, n: nat)
    requires n <= |s|
    ensures FromLE(s) == FromLE(s[..n]) + Pow(256, n) * FromLE(s[n..])
  {
    if n == 0 {
      assert s[..n] == [] && s[n..] == s;
    } else {
      FromLESplit(s[1..], n - 1);
      assert s[1..][..n - 1] == s[..n][1..] && s[1..][n - 1..] == s[n..];
      Shifted(FromLE(s[..n][1..]), Pow(256, n - 1), FromLE(s[n..]));
    }
  }

  lemma Remainder(v: nat, p: nat, hi: nat, lo: nat)
    requires v == lo + p * hi && lo < p
    ensures v % p == lo
  {
    assert p * hi == hi * p;
    DivModUnique(v, p, hi, lo);
  }

  lemma LowBytes(s: seq<byte>, n: nat)
    requires n <= |s|
    ensures Pow(256, n) > 0 && FromLE(s) % Pow(256, n) == FromLE(s[..n])
  {
    PowPositive(256, n);
    FromLESplit(s, n);
    FromLEBound(s[..n]);
    Remainder(FromLE(s), Pow(256, n), FromLE(s[n..]), FromLE(s[..n]));
  }

  /** (x + 8 * (y mod 2^224)) mod 2^256, on 32-byte little-endian strings. */
  function Add28Mul8(x: seq<byte>, y: seq<byte>): seq<byte> {
    LE(32, (FromLE(x) + 8 * (FromLE(y) % TWO_224)) % TWO_256)
  }

  /** (x + y) mod 2^256 */
  function Add256(x: seq<byte>, y: seq<byte>): seq<byte> {
    LE(32, (FromLE(x) + FromLE(y)) % TWO_256)
  }

  function Low(r: nat): byte { r % 256 }

  function High(r: nat): nat { r / 256 }

  lemma CarryAlgebra(v: nat, p: nat, carry: nat, total: nat, add: nat, lo: nat, hi: nat)
    requires v + p * carry == total && add + carry == hi * 256 + lo
    ensures v + p * lo + (256 * p) * hi == total + p * add
  {
    assert p * (add + carry) == p * add + p * carry;
    assert p * (hi * 256 + lo) == (256 * p) * hi + p * lo;
  }

  /** One byte of a carry addition: what comes out plus the carry is what went in. */
  lemma CarryStep(out: seq<byte>, r: nat, carry: nat, total: nat, add: nat)
    requires FromLE(out) + Pow(256, |out|) * carry == total && r == add + carry
    ensures FromLE(out + [Low(r)]) + Pow(256, |out| + 1) * High(r) == total + Pow(256, |out|) * add
  {
    FromLESnoc(out, Low(r));
    CarryAlgebra(FromLE(out), Pow(256, |out|), carry, total, add, Low(r), High(r));
  }

  lemma NextByte(x: seq<byte>, i: nat)
    requires i < |x|
    ensures FromLE(x[..i + 1]) == FromLE(x[..i]) + Pow(256, i) * x[i]
  {
    FromLESnoc(x[..i], x[i]);
    assert x[..i + 1] == x[..i] + [x[i]];
  }

  lemma ColumnAlgebra(fx: nat, fy: nat, p: nat, a: nat, b: nat, scale: nat)
    ensures (fx + p * a) + scale * (fy + p * b) == fx + scale * fy + p * (a + scale * b)
  {
    assert scale * (fy + p * b) == scale * fy + p * (scale * b);
    assert p * (a + scale * b) == p * a + p * (scale * b);
  }

  /** x + scale*y over one more byte. */
  lemma NextColumn(x: seq<byte>, y: seq<byte>, scale: nat, i: nat)
    requires i < |x| && i < |y|
    ensures FromLE(x[..i + 1]) + scale * FromLE(y[..i + 1])
         == FromLE(x[..i]) + scale * FromLE(y[..i]) + Pow(256, i) * (x[i] as nat + scale * y[i])
  {
    NextByte(x, i);
    NextByte(y, i);
    ColumnAlgebra(FromLE(x[..i]), FromLE(y[..i]), Pow(256, i), x[i], y[i], scale);
  }

  lemma NextSum(x: seq<byte>, y: seq<byte>, i: nat)
    requires i < |x| && i < |y|
    ensures FromLE(x[..i + 1]) + FromLE(y[..i + 1])
         == FromLE(x[..i]) + FromLE(y[..i]) + Pow(256, i) * (x[i] as nat + y[i])
  {
    NextColumn(x, y, 1, i);
  }

  /** A finished carry addition is the sum reduced to the width of the result. */
  lemma CarryDone(out: seq<byte>, carry: nat, total: nat)
    requires |out| == 32 && FromLE(out) + Pow(256, |out|) * carry == total
    ensures out == LE(32, total % TWO_256)
  {
    WidthOf(|out|);
    FromLEBound(out);
    DivModUnique(total, TWO_256, carry, FromLE(out));
    LEOfFromLE(out);
  }

  /** uint16 arithmetic: the low 16 bits. */
  function Word16(v: nat): (w: nat)
    ensures w < 0x1_0000
  {
    v % 0x1_0000
  }

  /** x + y + carry in uint16. */
  function Column16(x: nat, y: nat, carry: nat): nat {
    Word16(Word16(x + y) + carry)
  }

  /** The sum of one column in 16-bit arithmetic does not overflow. */
  lemma NoOverflow(x: nat, y: nat, carry: nat)
    requires x < 256 && y < 256 && carry <= 8
    ensures Column16(x, Word16(8 * y), carry) == x + 8 * y + carry
    ensures Column16(x, y, carry) == x + y + carry
  {
    assert Word16(8 * y) == 8 * y;
    assert Word16(x + 8 * y) == x + 8 * y && Word16(x + y) == x + y;
  }

  lemma CarryBound(x: nat, y: nat, carry: nat)
    requires x < 256 && y < 256 && carry <= 8
    ensures High(x + 8 * y + carry) <= 8 && High(x + y + carry) <= 8
  {
  }

  method LowerCarries(x: seq<byte>, y: seq<byte>) returns (out: seq<byte>, carry: nat)
    requires |x| == 32 && |y| == 32
    ensures |out| == 28 && carry <= 8
    ensures FromLE(out) + Pow(256, |out|) * carry == FromLE(x[..|out|]) + 8 * FromLE(y[..|out|])
  {
    out, carry := [], 0;
    for i := 0 to 28
      invariant |out| == i && carry <= 8
      invariant FromLE(out) + Pow(256, |out|) * carry == FromLE(x[..i]) + 8 * FromLE(y[..i])
    {
      var r := Column16(x[i], Word16(8 * (y[i] as nat)), carry);
      NoOverflow(x[i], y[i], carry);
      CarryBound(x[i], y[i], carry);
      CarryStep(out, r, carry, FromLE(x[..i]) + 8 * FromLE(y[..i]), x[i] as nat + 8 * (y[i] as nat));
      NextColumn(x, y, 8, i);
      out, carry := out + [Low(r)], High(r);
    }
  }

  method UpperCarries(x: seq<byte>, low: seq<byte>, low8: nat, carryIn: nat) 
      returns (out: seq<byte>, carry: nat)
    requires |x| == 32 && |low| == 28 && carryIn <= 8
    requires FromLE(low) + Pow(256, |low|) * carryIn == FromLE(x[..|low|]) + low8
    ensures |out| == 32
    ensures FromLE(out) + Pow(256, |out|) * carry == FromLE(x) + low8
  {
    out, carry := low, carryIn;
    for i := 28 to 32
      invariant |out| == i && carry <= 8
      invariant FromLE(out) + Pow(256, |out|) * carry == FromLE(x[..i]) + low8
    {
      var r := Column16(x[i], 0, carry);
      NoOverflow(x[i], 0, carry);
      CarryBound(x[i], 0, carry);
      CarryStep(out, r, carry, FromLE(x[..i]) + low8, x[i]);
      NextByte(x, i);
      out, carry := out + [Low(r)], High(r);
    }
    assert x[..32] == x;
  }

  /** The V2 scalar tweak: 16-bit sums byte by byte, 28 bytes of 8*y, then the carry alone. */
  method Add28Mul8Bytes(x: seq<byte>, y: seq<byte>) returns (out: seq<byte>)
    requires |x| == 32 && |y| == 32
    ensures out == Add28Mul8(x, y)
  {
    var low, carry := LowerCarries(x, y);
    LowBytes(y, |low|);
    WidthOf(|low|);
    out, carry := UpperCarries(x, low, 8 * FromLE(y[..|low|]), carry);
    CarryDone(out, carry, FromLE(x) + 8 * (FromLE(y) % TWO_224));
  }

  method Add256Carries(x: seq<byte>, y: seq<byte>) returns (out: seq<byte>, carry: nat)
    requires |x| == 32 && |y| == 32
    ensures |out| == 32
    ensures FromLE(out) + Pow(256, |out|) * carry == FromLE(x[..|out|]) + FromLE(y[..|out|])
  {
    out, carry := [], 0;
    for i := 0 to 32
      invariant |out| == i && carry <= 8
      invariant FromLE(out) + Pow(256, |out|) * carry == FromLE(x[..i]) + FromLE(y[..i])
    {
      var r := Column16(x[i], y[i], carry);
      NoOverflow(x[i], y[i], carry);
      CarryBound(x[i], y[i], carry);
      NextSum(x, y, i);
      CarryStep(out, r, carry, FromLE(x[..i]) + FromLE(y[..i]), x[i] as nat + y[i]);
      out, carry := out + [Low(r)], High(r);
    }
  }

  method Add256Bytes(x: seq<byte>, y: seq<byte>) returns (out: seq<byte>)
    requires |x| == 32 && |y| == 32
    ensures out == Add256(x, y)
  {
    var carry;
    out, carry := Add256Carries(x, y);
    assert x[..32] == x && y[..32] == y;
    CarryDone(out, carry, FromLE(x) + FromLE(y));
  }

  lemma Add256Value(x: seq<byte>, y: seq<byte>)
    ensures |Add256(x, y)| == 32
    ensures FromLE(Add256(x, y)) == (FromLE(x) + FromLE(y)) % TWO_256
  {
    WidthOf(32);
    FromLEOfLE(32, (FromLE(x) + FromLE(y)) % TWO_256);
  }

  lemma Add28Value(x: seq<byte>, y: seq<byte>)
    ensures |Add28Mul8(x, y)| == 32
    ensures FromLE(Add28Mul8(x, y)) == (FromLE(x) + 8 * (FromLE(y) % TWO_224)) % TWO_256
  {
    WidthOf(32);
    FromLEOfLE(32, (FromLE(x) + 8 * (FromLE(y) % TWO_224)) % TWO_256);
  }

  lemma ScalarBound(x: seq<byte>)
    requires |x| == 32
    ensures FromLE(x) < TWO_256
  {
    FromLEBound(x);
    WidthOf(|x|);
  }
}
