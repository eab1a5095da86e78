/** Division, powers and positional numbers: the arithmetic facts the other modules share. */
module Arith {

  lemma MulMono(a: int, b: int, c: int)
    requires a <= b && 0 <= c
    ensures a * c <= b * c
  {
  }

  lemma DivModUnique(x: int, d: int, q: int, r: int)
    requires 0 <= r < d && x == q * d + r
    ensures x / d == q && x % d == r
  {
    var q', r' := x / d, x % d;
    assert x == q' * d + r';
    assert (q - q') * d == r' - r;
    if q > q' {
      MulMono(1, q - q', d);
    } else if q < q' {
      MulMono(q - q', -1, d);
    }
  }

  /** x mod (a*b), taken apart into its high part below b and its low part below a. */
  lemma ModSplit(x: int, a: int, b: int)
    requires a > 0 && b > 0
    ensures a * b > 0
    ensures x % (a * b) == (x / a % b) * a + x % a
  {
    var h, l := x / a, x % a;
    var q, m := h / b, h % b;
    assert x == h * a + l && h == q * b + m;
    assert (q * b) * a == q * (a * b);
    assert x == q * (a * b) + (m * a + l);
    MulMono(m, b - 1, a);
    assert (b - 1) * a == a * b - a;
    MulMono(0, m, a);
    assert 0 <= m * a + l < a * b;
    DivModUnique(x, a * b, q, m * a + l);
  }

  /** Reducing modulo a multiple of a first changes nothing modulo a. */
  lemma ModOfMod(x: int, a: int, b: int)
    requires a > 0 && b > 0
    ensures a * b > 0
    ensures x % (a * b) % a == x % a
  {
    ModSplit(x, a, b);
    DivModUnique(x % (a * b), a, x / a % b, x % a);
  }

  lemma DivMul(x: int, d: int)
    requires d > 0
    ensures x * d / d == x && x * d % d == 0
  {
    DivModUnique(x * d, d, x, 0);
  }

  lemma DivBelow(v: int, b: int, p: int)
    requires b > 0 && 0 <= v < b * p
    ensures 0 <= v / b < p
  {
    if v / b >= p {
      MulMono(p, v / b, b);
    }
  }

  function Pow(b: nat, n: nat): nat {
    if n == 0 then 1 else b * Pow(b, n - 1)
  }

  lemma {:induction false} PowPositive(b: nat, n: nat)
    requires b > 0
    ensures Pow(b, n) > 0
  {
    if n > 0 {
      PowPositive(b, n - 1);
      MulMono(1, b, Pow(b, n - 1));
    }
  }

  lemma {:induction false} PowAdd(b: nat, m: nat, n: nat)
    ensures Pow(b, m + n) == Pow(b, m) * Pow(b, n)
  {
    if m > 0 {
      PowAdd(b, m - 1, n);
      assert b * (Pow(b, m - 1) * Pow(b, n)) == (b * Pow(b, m - 1)) * Pow(b, n);
    }
  }

  lemma {:induction false} PowMul(b: nat, m: nat, n: nat)
    ensures 0 <= m * n && Pow(Pow(b, m), n) == Pow(b, m * n)
  {
    if n > 0 {
      PowMul(b, m, n - 1);
      assert m * n == m + m * (n - 1);
      PowAdd(b, m, m * (n - 1));
    } else {
      assert m * n == 0;
    }
  }

  lemma {:induction false} PowMono(b: nat, m: nat, n: nat)
    requires b > 0 && m <= n
    ensures Pow(b, m) <= Pow(b, n)
  {
    PowAdd(b, m, n - m);
    PowPositive(b, n - m);
    PowPositive(b, m);
    MulMono(1, Pow(b, n - m), Pow(b, m));
  }

  // ---------------------------------------------------------------------------------------
  // Big-endian digit strings
  // ---------------------------------------------------------------------------------------

  predicate Below(ds: seq<int>, b: int) {
    forall i :: 0 <= i < |ds| ==> 0 <= ds[i] < b
  }

  function Value(b: nat, ds: seq<int>): int {
    if ds == [] then 0 else Value(b, ds[..|ds| - 1]) * b + ds[|ds| - 1]
  }

  function Digits(b: nat, k: nat, v: int): (ds: seq<int>)
    requires b > 0
    ensures |ds| == k
    decreases k, v
  {
    if k == 0 then [] else Digits(b, k - 1, v / b) + [v % b]
  }

  lemma {:induction false} DigitsBelow(b: nat, k: nat, v: int)
    requires b > 0
    ensures Below(Digits(b, k, v), b)
  {
    if k > 0 {
      DigitsBelow(b, k - 1, v / b);
    }
  }

  lemma {:induction false} DigitsOfValue(b: nat, ds: seq<int>)
    requires b > 0 && Below(ds, b)
    ensures Digits(b, |ds|, Value(b, ds)) == ds
  {
    if ds != [] {
      var n := |ds| - 1;
      DigitsOfValue(b, ds[..n]);
      DivModUnique(Value(b, ds), b, Value(b, ds[..n]), ds[n]);
      assert ds == ds[..n] + [ds[n]];
    }
  }

  lemma {:induction false} ValueOfDigits(b: nat, k: nat, v: int)
    requires b > 0 && 0 <= v < Pow(b, k)
    ensures Value(b, Digits(b, k, v)) == v
  {
    if k > 0 {
      var ds := Digits(b, k, v);
      assert ds[..k - 1] == Digits(b, k - 1, v / b);
      DivBelow(v, b, Pow(b, k - 1));
      ValueOfDigits(b, k - 1, v / b);
      assert v == v / b * b + v % b;
    }
  }

  lemma {:induction false} ValueBound(b: nat, ds: seq<int>)
    requires b > 0 && Below(ds, b)
    ensures 0 <= Value(b, ds) < Pow(b, |ds|)
  {
    if ds != [] {
      var n := |ds| - 1;
      ValueBound(b, ds[..n]);
      var v, p := Value(b, ds[..n]), Pow(b, n);
      MulMono(v, p - 1, b);
      MulMono(0, v, b);
      assert (p - 1) * b == b * p - b;
    }
  }

  lemma ValueSnoc(b: nat, ds: seq<int>, d: int)
    ensures Value(b, ds + [d]) == Value(b, ds) * b + d
  {
    assert (ds + [d])[..|ds|] == ds;
  }

  lemma {:induction false} ValueSplit(b: nat, xs: seq<int>, ys: seq<int>)
    ensures Value(b, xs + ys) == Value(b, xs) * Pow(b, |ys|) + Value(b, ys)
  {
    if ys == [] {
      assert xs + ys == xs;
    } else {
      var n := |ys| - 1;
      assert (xs + ys)[..|xs + ys| - 1] == xs + ys[..n];
      ValueSplit(b, xs, ys[..n]);
      DistributeDigit(Value(b, xs), Pow(b, n), Value(b, ys[..n]), b);
    }
  }

  lemma DistributeDigit(v: int, p: int, w: int, b: int)
    ensures (v * p + w) * b == v * (b * p) + w * b
  {
    assert v * p * b == v * (b * p);
  }

  lemma DivDiv(v: nat, a: nat, b: nat)
    requires a > 0 && b > 0
    ensures a * b > 0 && v / a / b == v / (a * b)
  {
    var q, r := v / a, v % a;
    MulMono(1, a, b);
    assert v == q * a + r && q == q / b * b + q % b;
    TwoDigits(q / b, q % b, r, a, b);
    DivModUnique(v, a * b, q / b, q % b * a + r);
  }

  lemma TwoDigits(q: nat, s: nat, r: nat, a: nat, b: nat)
    requires s < b && r < a
    ensures (q * b + s) * a + r == q * (a * b) + (s * a + r) && 0 <= s * a + r < a * b
  {
    MulMono(s, b - 1, a);
    MulMono(0, s, a);
    assert (b - 1) * a == a * b - a;
    assert (q * b + s) * a == q * b * a + s * a;
    assert q * b * a == q * (a * b);
  }
}
