/** Bytes, fixed-width unsigned integers and their little-endian form. */
module Bytes {
  import opened Arith

  type byte = b: int | 0 <= b < 256
  type u32 = v: int | 0 <= v < 0x1_0000_0000
  type u64 = v: int | 0 <= v < 0x1_0000_0000_0000_0000

  /** The k low bytes of v, least significant first. */
  function LE(k: nat, v: nat): (s: seq<byte>)
    ensures |s| == k
  {
    if k == 0 then [] else [v % 256] + LE(k - 1, v / 256)
  }

  function FromLE(s: seq<byte>): nat {
    if s == [] then 0 else s[0] + 256 * FromLE(s[1..])
  }

  lemma {:induction false} FromLEBound(s: seq<byte>)
    ensures FromLE(s) < Pow(256, |s|)
  {
    if s != [] {
      FromLEBound(s[1..]);
    }
  }

  lemma {:induction false} FromLEOfLE(k: nat, v: nat)
    requires v < Pow(256, k)
    ensures FromLE(LE(k, v)) == v
  {
    if k > 0 {
      DivBelow(v, 256, Pow(256, k - 1));
      FromLEOfLE(k - 1, v / 256);
    }
  }

  lemma {:induction false} LEOfFromLE(s: seq<byte>)
    ensures LE(|s|, FromLE(s)) == s
  {
    if s != [] {
      LEOfFromLE(s[1..]);
      DivModUnique(FromLE(s), 256, FromLE(s[1..]), s[0]);
      assert s == [s[0]] + s[1..];
    }
  }

  lemma Widths()
    ensures Pow(256, 1) == 0x100 && Pow(256, 2) == 0x1_0000
    ensures Pow(256, 4) == 0x1_0000_0000 && Pow(256, 8) == 0x1_0000_0000_0000_0000
  {
    assert Pow(256, 3) == 0x100_0000;
    assert Pow(256, 5) == 0x100_0000_0000;
    assert Pow(256, 6) == 0x1_0000_0000_0000;
    assert Pow(256, 7) == 0x100_0000_0000_0000;
  }

  const TWO_224: nat := 0x1_00000000_00000000_00000000_00000000_00000000_00000000_00000000
  const TWO_256: nat := 0x1_00000000_00000000_00000000_00000000_00000000_00000000_00000000_00000000

  lemma WidthOf(n: nat)
    requires n == 28 || n == 32
    ensures n == 28 ==> Pow(256, n) == TWO_224
    ensures n == 32 ==> Pow(256, n) == TWO_256
  {
    Widths();
    PowAdd(256, 8, 8);
    PowAdd(256, 16, 8);
    PowAdd(256, 24, 4);
    PowAdd(256, 28, 4);
  }

  /** The number a big-endian string stands for. */
  function BE(s: seq<byte>): nat {
    ValueBound(256, s);
    Value(256, s)
  }

  /** The k low bytes of v, most significant first. */
  function ToBE(k: nat, v: int): (s: seq<byte>)
    ensures |s| == k
  {
    DigitsBelow(256, k, v);
    Digits(256, k, v)
  }

  lemma BEOfToBE(k: nat, v: nat)
    requires v < Pow(256, k)
    ensures BE(ToBE(k, v)) == v
  {
    ValueOfDigits(256, k, v);
  }

  function Zeros(n: nat): (z: seq<byte>)
    ensures |z| == n
  {
    seq(n, _ => 0)
  }

  lemma {:induction false} ValueOfZeros(n: nat)
    ensures Value(256, Zeros(n)) == 0
  {
    if n > 0 {
      assert Zeros(n)[..n - 1] == Zeros(n - 1);
      ValueOfZeros(n - 1);
    }
  }

  lemma ValueOfPadded(n: nat, t: seq<byte>)
    ensures Value(256, Zeros(n) + t) == Value(256, t)
  {
    ValueSplit(256, Zeros(n), t);
    ValueOfZeros(n);
  }

  lemma ToBEOfPadded(n: nat, t: seq<byte>)
    ensures ToBE(n + |t|, Value(256, t)) == Zeros(n) + t
    ensures Value(256, t) < Pow(256, n + |t|)
  {
    var p := Zeros(n) + t;
    ValueOfPadded(n, t);
    DigitsOfValue(256, p);
    ValueBound(256, p);
  }

  lemma Associates(a: seq<byte>, b: seq<byte>, c: seq<byte>)
    ensures (a + b) + c == a + (b + c)
  {
  }

  function Reverse(s: seq<byte>): (r: seq<byte>)
    ensures |r| == |s|
  {
    seq(|s|, i requires 0 <= i < |s| => s[|s| - 1 - i])
  }

  lemma ReverseTwice(s: seq<byte>)
    ensures Reverse(Reverse(s)) == s
  {
  }

  // ---------------------------------------------------------------------------------------
  // Pieces side by side
  // ---------------------------------------------------------------------------------------

  function Flat(pieces: seq<seq<byte>>): seq<byte> {
    if pieces == [] then [] else Flat(pieces[..|pieces| - 1]) + pieces[|pieces| - 1]
  }

  /** Piece i stands behind the pieces before it and in front of those after it. */
  lemma {:induction false} FlatAt(pieces: seq<seq<byte>>, i: nat)
    requires i < |pieces|
    ensures Flat(pieces) == Flat(pieces[..i]) + pieces[i] + Flat(pieces[i + 1..])
    decreases |pieces|
  {
    var n := |pieces| - 1;
    if i < n {
      FlatAt(pieces[..n], i);
      assert pieces[..n][..i] == pieces[..i];
      assert pieces[i + 1..][..|pieces[i + 1..]| - 1] == pieces[..n][i + 1..];
      Associates(Flat(pieces[..i]) + pieces[i], Flat(pieces[..n][i + 1..]), pieces[n]);
    } else {
      assert pieces[i + 1..] == [];
      assert Flat(pieces[..i]) + pieces[i] + [] == Flat(pieces[..i]) + pieces[i];
    }
  }

  lemma {:induction false} FlatLength(pieces: seq<seq<byte>>, w: nat)
    requires forall i :: 0 <= i < |pieces| ==> |pieces[i]| == w
    ensures |Flat(pieces)| == |pieces| * w
  {
    if pieces != [] {
      var n := |pieces| - 1;
      FlatLength(pieces[..n], w);
      assert (n + 1) * w == n * w + w;
    }
  }

  /** Pieces of one width w: piece i is found at i * w. */
  lemma FlatPlace(pieces: seq<seq<byte>>, w: nat, i: nat)
    requires i < |pieces| && forall j :: 0 <= j < |pieces| ==> |pieces[j]| == w
    ensures 0 <= i * w && i * w + w <= |Flat(pieces)| && Flat(pieces)[i * w..i * w + w] == pieces[i]
  {
    FlatAt(pieces, i);
    FlatLength(pieces[..i], w);
  }

  /** Byte i of a little-endian number. */
  lemma {:induction false} LEAt(k: nat, v: nat, i: nat)
    requires i < k
    ensures Pow(256, i) > 0 && LE(k, v)[i] == v / Pow(256, i) % 256
    decreases k
  {
    PowPositive(256, i);
    if i > 0 {
      PowPositive(256, i - 1);
      LEAt(k - 1, v / 256, i - 1);
      DivDiv(v, 256, Pow(256, i - 1));
    }
  }

  lemma FlatSnoc(pieces: seq<seq<byte>>, last: seq<byte>)
    ensures Flat(pieces + [last]) == Flat(pieces) + last
  {
    assert (pieces + [last])[..|pieces|] == pieces;
  }
}
