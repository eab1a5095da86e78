/**
  Regrouping of bits between widths, as Bech32 data needs it (8 bits to 5 and back).

  The specification is numeric: a digit string of one width and its regrouping stand for the
  same number, up to the padding bits at the low end. The method is the accumulator loop of the
  source, for every pair of widths from 1 to 8.
*/
module Regroup {
  import opened Arith
  import opened Bytes
  import opened Outcome

  datatype RegroupError = BadValue | BadPadding

  function Two(n: nat): (p: nat)
    ensures p > 0
  {
    PowPositive(2, n);
    Pow(2, n)
  }

  lemma TwoAdd(m: nat, n: nat)
    ensures Two(m + n) == Two(m) * Two(n)
  {
    PowAdd(2, m, n);
  }

  lemma TwoMul(m: nat, n: nat)
    ensures 0 <= m * n && Pow(Two(m), n) == Two(m * n)
  {
    PowMul(2, m, n);
  }

  lemma TwoMono(m: nat, n: nat)
    requires m <= n
    ensures Two(m) <= Two(n)
  {
    PowMono(2, m, n);
  }

  /** The number of groups of t bits that hold n bits. */
  function Groups(n: nat, t: nat): (k: nat)
    requires t > 0
    ensures n <= k * t < n + t
  {
    (n + t - 1) / t
  }

  function PaddedDigits(n: nat, t: nat, v: int): seq<int>
    requires t > 0
  {
    var k := Groups(n, t);
    Digits(Two(t), k, v * Two(k * t - n))
  }

  /** The regrouping of `data` from f-bit to t-bit groups, by its value. */
  function Regrouped(data: seq<int>, f: nat, t: nat, pad: bool): Result<seq<int>, RegroupError>
    requires f > 0 && t > 0
  {
    if !Below(data, Two(f)) then Err(BadValue)
    else
      var n, v := |data| * f, Value(Two(f), data);
      if pad then Ok(PaddedDigits(n, t, v))
      else if n % t >= f || v % Two(n % t) != 0 then Err(BadPadding)
      else Ok(Digits(Two(t), n / t, v / Two(n % t)))
  }

  // ---------------------------------------------------------------------------------------
  // The loop
  // ---------------------------------------------------------------------------------------

  /** What the loop has done after i values: whole groups are out, `bits` bits are pending. */
  ghost predicate Progress(data: seq<int>, i: nat, f: nat, t: nat, acc: int, bits: nat, out: seq<int>)
    requires i <= |data|
  {
    && 0 <= acc
    && |out| * t + bits == i * f
    && Below(out, Two(t))
    && Value(Two(t), out) * Two(bits) + acc % Two(bits) == Value(Two(f), data[..i])
  }

  /** What the masked accumulator holds below the pending bits. */
  lemma TakeBits(acc: int, bits: nat, f: nat, t: nat, d: int)
    requires 0 <= acc && 0 < t && bits < t && 0 <= d < Two(f)
    ensures (acc * Two(f) + d) % Two(f + t - 1) % Two(bits + f) == (acc % Two(bits)) * Two(f) + d
  {
    var x := acc * Two(f) + d;
    TwoAdd(bits + f, t - 1 - bits);
    ModOfMod(x, Two(bits + f), Two(t - 1 - bits));
    TwoAdd(f, bits);
    ModSplit(x, Two(f), Two(bits));
    DivModUnique(x, Two(f), acc, d);
  }

  lemma TakeValue(data: seq<int>, i: nat, f: nat, t: nat, acc: int, bits: nat, out: seq<int>, acc': int)
    requires i < |data| && 0 < f && 0 < t && bits < t
    requires Progress(data, i, f, t, acc, bits, out)
    requires 0 <= data[i] < Two(f)
    requires acc' == (acc * Two(f) + data[i]) % Two(f + t - 1)
    ensures Progress(data, i + 1, f, t, acc', bits + f, out)
  {
    TakeBits(acc, bits, f, t, data[i]);
    assert data[..i + 1] == data[..i] + [data[i]];
    ValueSnoc(Two(f), data[..i], data[i]);
    TwoAdd(f, bits);
    Horner(Value(Two(t), out), Two(bits), Two(f), acc % Two(bits), data[i]);
    assert (i + 1) * f == i * f + f;
  }

  lemma PutGroup(data: seq<int>, i: nat, f: nat, t: nat, acc: int, bits: nat, out: seq<int>, d: int)
    requires i <= |data| && 0 < f && 0 < t && t <= bits
    requires Progress(data, i, f, t, acc, bits, out)
    requires d == acc / Two(bits - t) % Two(t)
    ensures Progress(data, i, f, t, acc, bits - t, out + [d])
  {
    TwoAdd(bits - t, t);
    ModSplit(acc, Two(bits - t), Two(t));
    ValueSnoc(Two(t), out, d);
    Horner(Value(Two(t), out), Two(t), Two(bits - t), d, acc % Two(bits - t));
    assert (|out| + 1) * t == |out| * t + t;
  }

  lemma Horner(v: int, x: int, y: int, d: int, r: int)
    ensures (v * x + d) * y + r == v * (y * x) + (d * y + r)
  {
    assert (v * x) * y == v * (y * x);
  }

  lemma ByteMask(x: int, t: nat)
    requires 1 <= t <= 8
    ensures x % 256 % Two(t) == x % Two(t)
  {
    assert Two(8) == 256;
    TwoAdd(t, 8 - t);
    ModOfMod(x, Two(t), Two(8 - t));
  }

  /** The padding group: the pending bits, moved up to fill the group. */
  lemma PaddingGroup(acc: int, bits: nat, t: nat)
    requires bits <= t
    ensures acc * Two(t - bits) % Two(t) == (acc % Two(bits)) * Two(t - bits)
  {
    TwoAdd(t - bits, bits);
    ModSplit(acc * Two(t - bits), Two(t - bits), Two(bits));
    DivMul(acc, Two(t - bits));
  }

  lemma PaddedBy(n: nat, t: nat, v: int, p: nat, res: seq<int>)
    requires p < t && |res| * t == n + p && Below(res, Two(t))
    requires Value(Two(t), res) == v * Two(p)
    ensures PaddedDigits(n, t, v) == res
  {
    GroupsUnique(n, t, |res|);
    DigitsOfValue(Two(t), res);
  }

  lemma FinishPadded(data: seq<int>, f: nat, t: nat, acc: int, bits: nat, out: seq<int>)
    requires 0 < f && 0 < t && bits < t
    requires Below(data, Two(f)) && Progress(data, |data|, f, t, acc, bits, out)
    ensures var p := (acc % Two(bits)) * Two(t - bits);
            Regrouped(data, f, t, true) == Ok(if bits > 0 then out + [p] else out)
  {
    var v := Value(Two(t), out);
    var p := (acc % Two(bits)) * Two(t - bits);
    assert data[..|data|] == data;
    if bits > 0 {
      assert (|out| + 1) * t == |out| * t + t;
      TwoAdd(bits, t - bits);
      PaddedBound(acc, bits, t);
      ValueSnoc(Two(t), out, p);
      assert (v * Two(bits) + acc % Two(bits)) * Two(t - bits) == v * (Two(bits) * Two(t - bits)) + p;
      PaddedBy(|data| * f, t, Value(Two(f), data), t - bits, out + [p]);
    } else {
      assert Two(0) == 1;
      PaddedBy(|data| * f, t, Value(Two(f), data), 0, out);
    }
  }

  lemma PaddedBound(acc: int, bits: nat, t: nat)
    requires bits <= t
    ensures 0 <= (acc % Two(bits)) * Two(t - bits) < Two(t)
  {
    TwoAdd(bits, t - bits);
    MulMono(acc % Two(bits), Two(bits) - 1, Two(t - bits));
    MulMono(0, acc % Two(bits), Two(t - bits));
    assert (Two(bits) - 1) * Two(t - bits) == Two(t) - Two(t - bits);
  }

  lemma GroupsUnique(n: nat, t: nat, k: nat)
    requires t > 0 && n <= k * t < n + t
    ensures Groups(n, t) == k
  {
    DivModUnique(n + t - 1, t, k, n + t - 1 - k * t);
  }

  lemma FinishUnpadded(data: seq<int>, f: nat, t: nat, acc: int, bits: nat, out: seq<int>)
    requires 0 < f && 0 < t && bits < t
    requires Below(data, Two(f)) && Progress(data, |data|, f, t, acc, bits, out)
    ensures Regrouped(data, f, t, false) ==
            if bits >= f || acc * Two(t - bits) % Two(t) != 0 then Err(BadPadding) else Ok(out)
  {
    var n, v := |data| * f, Value(Two(f), data);
    assert data[..|data|] == data;
    DivModUnique(n, t, |out|, bits);
    DivModUnique(v, Two(bits), Value(Two(t), out), acc % Two(bits));
    PaddingGroup(acc, bits, t);
    if acc % Two(bits) != 0 {
      MulMono(1, acc % Two(bits), Two(t - bits));
    }
    DigitsOfValue(Two(t), out);
  }

  lemma SmallQuotient(x: nat, d: nat)
    requires d > 0
    ensures x / d == 0 <==> x < d
  {
    if x < d {
      DivModUnique(x, d, 0, x);
    }
  }

  /** The inner loop: writes whole groups out while there are enough pending bits. */
  method Drain(acc: nat, t: nat, bits0: nat, out0: seq<int>, ghost data: seq<int>, ghost i: nat, ghost f: nat)
    returns (bits: nat, out: seq<int>)
    requires 1 <= t <= 8 && 0 < f && i <= |data|
    requires Progress(data, i, f, t, acc, bits0, out0)
    ensures bits < t && Progress(data, i, f, t, acc, bits, out)
  {
    bits, out := bits0, out0;
    while bits >= t
      invariant Progress(data, i, f, t, acc, bits, out)
      decreases bits
    {
      bits := bits - t;
      ByteMask(acc / Two(bits), t);
      PutGroup(data, i, f, t, acc, bits + t, out, acc / Two(bits) % Two(t));
      out := out + [acc / Two(bits) % 256 % Two(t)];
    }
  }

  /** `cardanoConvertBits`. The accumulator is a uint32 in the source; it never overflows. */
  method ConvertBits(data: seq<byte>, f: nat, t: nat, pad: bool) returns (r: Result<seq<int>, RegroupError>)
    requires 1 <= f <= 8 && 1 <= t <= 8
    ensures r == Regrouped(data, f, t, pad)
    ensures r.Ok? ==> Below(r.value, Two(t))
  {
    var acc, bits: nat, out := 0, 0, [];
    TwoMono(t, 8);
    TwoMono(f, 8);
    TwoMono(f + t - 1, 15);
    assert Two(8) == 256 && Two(15) == 32768;
    assert Value(Two(f), data[..0]) == 0 && Two(0) == 1;
    var i := 0;
    while i < |data|
      invariant 0 <= i <= |data| && bits < t && acc < 32768
      invariant Below(data[..i], Two(f))
      invariant Progress(data, i, f, t, acc, bits, out)
    {
      if data[i] / Two(f) != 0 {
        SmallQuotient(data[i], Two(f));
        return Err(BadValue);
      }
      SmallQuotient(data[i], Two(f));
      MulMono(acc, 32767, Two(f));
      assert acc * Two(f) + data[i] < 0x1_0000_0000;
      ghost var before := acc;
      acc := (acc * Two(f) + data[i]) % Two(f + t - 1);
      TakeValue(data, i, f, t, before, bits, out, acc);
      bits := bits + f;
      bits, out := Drain(acc, t, bits, out, data, i + 1, f);
      i := i + 1;
    }
    assert data[..i] == data;
    ByteMask(acc * Two(t - bits), t);
    if pad {
      FinishPadded(data, f, t, acc, bits, out);
      PaddingGroup(acc, bits, t);
      if bits > 0 {
        out := out + [acc * Two(t - bits) % 256 % Two(t)];
      }
    } else {
      FinishUnpadded(data, f, t, acc, bits, out);
      if bits >= f || acc * Two(t - bits) % 256 % Two(t) != 0 {
        return Err(BadPadding);
      }
    }
    return Ok(out);
  }

  // ---------------------------------------------------------------------------------------
  // Main results
  // ---------------------------------------------------------------------------------------

  lemma ShiftUp(v: int, f: nat, m: nat, p: nat)
    requires 0 <= v < Pow(Two(f), m)
    ensures 0 <= m * f && 0 <= v * Two(p) < Two(m * f + p)
  {
    TwoMul(f, m);
    assert f * m == m * f;
    TwoAdd(m * f, p);
    MulMono(v, Two(m * f) - 1, Two(p));
    MulMono(0, v, Two(p));
    assert (Two(m * f) - 1) * Two(p) == Two(m * f + p) - Two(p);
  }

  /** Padding to narrower groups and stripping the padding again loses nothing: the second
      regrouping accepts, and gives back the data. */
  lemma UnpadInvertsPad(data: seq<int>, f: nat, t: nat)
    requires 0 < t <= f && Below(data, Two(f))
    ensures Regrouped(data, f, t, true).Ok?
    ensures Regrouped(Regrouped(data, f, t, true).value, t, f, false) == Ok(data)
  {
    var m, v := |data|, Value(Two(f), data);
    var k := Groups(m * f, t);
    var p: nat := k * t - m * f;
    var out := Regrouped(data, f, t, true).value;
    ValueBound(Two(f), data);
    ShiftUp(v, f, m, p);
    TwoMul(t, k);
    assert t * k == k * t;
    ValueOfDigits(Two(t), k, v * Two(p));
    DigitsBelow(Two(t), k, v * Two(p));
    assert Value(Two(t), out) == v * Two(p);
    DivModUnique(k * t, f, m, p);
    DivMul(v, Two(p));
    DigitsOfValue(Two(f), data);
  }

  /** What an accepted unpadding keeps: all but the last few bits, which are zero. */
  lemma UnpaddedValue(groups: seq<int>, f: nat, t: nat, n: nat, rem: nat)
    requires 0 < t && 0 < f && n == |groups| * t && rem == n % f
    requires Regrouped(groups, t, f, false).Ok?
    ensures var data := Regrouped(groups, t, f, false).value;
            && rem < t && n >= rem && |data| * f == n - rem
            && Below(data, Two(f)) && Below(groups, Two(t))
            && Value(Two(f), data) * Two(rem) == Value(Two(t), groups)
  {
    var v, m := Value(Two(t), groups), n / f;
    var w := v / Two(rem);
    assert n == m * f + rem;
    assert v == w * Two(rem) + v % Two(rem);
    ValueBound(Two(t), groups);
    TwoMul(t, |groups|);
    assert t * |groups| == n;
    ShiftDown(w, v, m * f, rem);
    TwoMul(f, m);
    assert f * m == m * f;
    ValueOfDigits(Two(f), m, w);
    DigitsBelow(Two(f), m, w);
  }

  /** Padding a number of n bits that, shifted, is the value of the groups, gives the groups. */
  lemma PaddedDigitsOf(groups: seq<int>, t: nat, n: nat, rem: nat, w: int)
    requires 0 < t && rem < t && n + rem == |groups| * t
    requires Below(groups, Two(t)) && w * Two(rem) == Value(Two(t), groups)
    ensures PaddedDigits(n, t, w) == groups
  {
    GroupsUnique(n, t, |groups|);
    assert |groups| * t - n == rem;
    DigitsOfValue(Two(t), groups);
  }

  /** Every accepted unpadding is the inverse of padding: the narrow groups are the ones that
      padding the result produces. */
  lemma PadInvertsUnpad(groups: seq<int>, f: nat, t: nat)
    requires 0 < t <= f
    requires Regrouped(groups, t, f, false).Ok?
    ensures Below(Regrouped(groups, t, f, false).value, Two(f))
    ensures Regrouped(Regrouped(groups, t, f, false).value, f, t, true) == Ok(groups)
  {
    var n := |groups| * t;
    var data := Regrouped(groups, t, f, false).value;
    UnpaddedValue(groups, f, t, n, n % f);
    PaddedDigitsOf(groups, t, |data| * f, n % f, Value(Two(f), data));
  }

  lemma ShiftDown(w: int, v: int, a: nat, rem: nat)
    requires v == w * Two(rem) && 0 <= v < Two(a + rem)
    ensures 0 <= w < Two(a)
  {
    TwoAdd(a, rem);
    if w < 0 {
      MulMono(w, -1, Two(rem));
    } else if w >= Two(a) {
      MulMono(Two(a), w, Two(rem));
    }
  }
}
