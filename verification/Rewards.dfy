/**
 * Block rewards and cumulative supply (reward.go). The fast closed forms work interval by
 * interval on machine integers; `Supply` is the sum, block by block, they have to agree with.
 */
module Rewards {
  import opened Arith
  import opened Bytes
  import opened Outcome

  datatype Model = Halving(baseReward: nat, interval: nat) | Doge | Dash(yearZero: nat) | Zero

  datatype RewardError = UnsupportedNetwork

  const TWO_63 := 0x8000_0000_0000_0000
  const TWO_64 := 0x1_0000_0000_0000_0000
  /** The last height whose Dogecoin leftover still fits a signed 64-bit integer, plus one. */
  const DOGE_HORIZON := TWO_63 + 599_999

  /** The conversion int64(v) of an unsigned value. */
  function AsInt64(v: u64): int {
    if v < TWO_63 then v else v - TWO_64
  }

  /** Unsigned 64-bit wrap-around of one addition or subtraction. */
  function Wrap(v: int): (w: u64)
    requires -TWO_64 <= v < 2 * TWO_64
    ensures w == v % TWO_64
  {
    if v < 0 then v + TWO_64 else if v >= TWO_64 then v - TWO_64 else v
  }

  function ConfigOf(network: string): Option<Model> {
    if network == "bitcoin" || network == "namecoin" || network == "bitcoin-cash" || network == "bitcoin-testnet" then
      Some(Halving(5_000_000_000, 210_000))
    else if network == "litecoin" then Some(Halving(5_000_000_000, 840_000))
    else if network == "monacoin" then Some(Halving(5_000_000_000, 1_051_200))
    else if network == "dogecoin" then Some(Doge)
    else if network == "dash" then Some(Dash(500_000_000))
    else if network == "electraproto" then Some(Zero)
    else None
  }

  /** Parameters the arithmetic below is meant for; every configured network has such ones. */
  predicate Sound(m: Model) {
    m.Halving? ==> 0 < m.interval < TWO_63
  }

  // ---------------------------------------------------------------------------------------
  // One block
  // ---------------------------------------------------------------------------------------

  /** A right shift by n places. */
  function Shr(v: nat, n: nat): nat {
    if n == 0 then v else Shr(v, n - 1) / 2
  }

  function HalvingReward(base: nat, interval: nat, h: nat): nat
    requires interval > 0
  {
    if h / interval > 32 then 0 else Shr(base, h / interval)
  }

  function DogeReward(h: nat): nat {
    if h >= 600_000 then 1_000_000_000_000 else Shr(1_000_000, h / 100_000) * 100_000_000
  }

  /** floor(base * (13/14)^year) */
  function DashYear(base: nat, year: nat): nat {
    base * Pow(13, year) / Pow14(year)
  }

  function Pow14(year: nat): (p: nat)
    ensures p > 0
  {
    PowPositive(14, year);
    Pow(14, year)
  }

  function RewardAt(m: Model, h: nat): nat
    requires Sound(m)
  {
    match m
    case Halving(base, interval) => HalvingReward(base, interval, h)
    case Doge => DogeReward(h)
    case Dash(base) => DashYear(base, h / 210_240)
    case Zero => 0
  }

  /** Everything minted by the first n blocks. */
  function Supply(m: Model, n: nat): nat
    requires Sound(m)
  {
    if n == 0 then 0 else Supply(m, n - 1) + RewardAt(m, n - 1)
  }

  lemma {:induction false} SupplyMono(m: Model, a: nat, b: nat)
    requires Sound(m) && a <= b
    ensures Supply(m, a) <= Supply(m, b)
    decreases b
  {
    if a < b {
      SupplyMono(m, a, b - 1);
    }
  }

  /** A run of equal rewards contributes its length times the reward. */
  lemma {:induction false} SupplyFlat(m: Model, a: nat, n: nat, reward: nat)
    requires Sound(m)
    requires forall k :: a <= k < a + n ==> RewardAt(m, k) == reward
    ensures Supply(m, a + n) == Supply(m, a) + n * reward
    decreases n
  {
    if n > 0 {
      SupplyFlat(m, a, n - 1, reward);
      assert RewardAt(m, a + n - 1) == reward;
      assert n * reward == (n - 1) * reward + reward;
    }
  }

  // ---------------------------------------------------------------------------------------
  // Halving networks
  // ---------------------------------------------------------------------------------------

  /** Shifting right is dividing by a power of two. */
  lemma {:induction false} ShrDivides(v: nat, n: nat)
    ensures Pow(2, n) > 0 && Shr(v, n) == v / Pow(2, n)
  {
    PowPositive(2, n);
    if n > 0 {
      ShrDivides(v, n - 1);
      DivTwice(v, Pow(2, n - 1));
    }
  }

  lemma DivTwice(v: nat, p: nat)
    requires p > 0
    ensures v / p / 2 == v / (2 * p)
  {
    var q, r := v / p, v % p;
    var h, l := q / 2, q % 2;
    assert v == q * p + r;
    assert q * p == h * (2 * p) + l * p;
    MulMono(l, 1, p);
    MulMono(0, l, p);
    DivModUnique(v, 2 * p, h, l * p + r);
  }

  lemma {:induction false} ShrStaysZero(v: nat, m: nat, n: nat)
    requires m <= n && Shr(v, m) == 0
    ensures Shr(v, n) == 0
    decreases n
  {
    if m < n {
      ShrStaysZero(v, m, n - 1);
    }
  }

  /** Blocks i*interval .. (i+1)*interval-1 all earn base >> i. */
  lemma EraReward(base: nat, interval: nat, i: nat, k: nat)
    requires 0 < interval && i <= 32
    requires i * interval <= k < i * interval + interval
    ensures HalvingReward(base, interval, k) == Shr(base, i)
  {
    DivModUnique(k, interval, i, k - i * interval);
  }

  lemma EraAtLeast(interval: nat, i: nat, k: nat)
    requires 0 < interval && i * interval <= k
    ensures k / interval >= i
  {
    DivModUnique(k - i * interval, interval, (k - i * interval) / interval, (k - i * interval) % interval);
    DivModUnique(k, interval, i + (k - i * interval) / interval, (k - i * interval) % interval);
  }

  /** After 33 eras, or once the era reward has reached zero, nothing more is minted. */
  lemma PastEras(base: nat, interval: nat, i: nat, k: nat)
    requires 0 < interval && i * interval <= k
    requires i > 32 || Shr(base, i) == 0
    ensures HalvingReward(base, interval, k) == 0
  {
    EraAtLeast(interval, i, k);
    if i <= 32 {
      ShrStaysZero(base, i, k / interval);
    }
  }

  lemma EraStep(base: nat, interval: nat, i: nat, n: nat)
    requires 0 < interval < TWO_63 && i <= 32 && n <= interval
    ensures 0 <= i * interval
    ensures Supply(Halving(base, interval), i * interval + n)
         == Supply(Halving(base, interval), i * interval) + n * Shr(base, i)
  {
    MulMono(0, i, interval);
    forall k | i * interval <= k < i * interval + n
      ensures RewardAt(Halving(base, interval), k) == Shr(base, i)
    {
      EraReward(base, interval, i, k);
    }
    SupplyFlat(Halving(base, interval), i * interval, n, Shr(base, i));
  }

  lemma PastErasSupply(base: nat, interval: nat, i: nat, n: nat)
    requires 0 < interval < TWO_63 && 0 <= i * interval <= n
    requires i > 32 || Shr(base, i) == 0
    ensures Supply(Halving(base, interval), n) == Supply(Halving(base, interval), i * interval)
  {
    forall k | i * interval <= k < n
      ensures RewardAt(Halving(base, interval), k) == 0
    {
      PastEras(base, interval, i, k);
    }
    SupplyFlat(Halving(base, interval), i * interval, n - i * interval, 0);
  }

  /**
   * The interval-by-interval sum. The block count h+1 is a 64-bit unsigned addition, so what
   * comes out is the supply of the first (h+1) mod 2^64 blocks.
   */
  method CumulativeHalving(base: nat, interval: u64, h: u64) returns (total: int)
    requires 0 < interval < TWO_63
    ensures total == Supply(Halving(base, interval), Wrap(h + 1))
  {
    var needed := Wrap(h + 1);
    ghost var n := needed;
    total := 0;
    var reward := base;
    var i := 0;
    while i < 33 && needed > 0 && reward > 0
      invariant 0 <= i <= 33 && 0 <= needed <= n
      invariant reward == Shr(base, i)
      invariant needed > 0 ==> n - needed == i * interval
      invariant total == Supply(Halving(base, interval), n - needed)
      decreases 33 - i
    {
      var size := if needed < interval then needed else interval;
      EraStep(base, interval, i, size);
      total := total + AsInt64(size) * reward;
      needed := needed - size;
      reward := reward / 2;
      assert (i + 1) * interval == i * interval + interval;
      i := i + 1;
    }
    if needed > 0 {
      PastErasSupply(base, interval, i, n);
    }
  }

  /** The sum is right at every height but the one at which h+1 wraps to zero. */
  lemma HalvingExactly(base: nat, interval: nat, h: u64)
    requires 0 < base && 0 < interval < TWO_63
    ensures Supply(Halving(base, interval), Wrap(h + 1)) == Supply(Halving(base, interval), h + 1) <==> h < TWO_64 - 1
  {
    if h == TWO_64 - 1 {
      EraStep(base, interval, 0, 1);
      SupplyMono(Halving(base, interval), 1, h + 1);
    }
  }

  /** base + floor(base/2) + ... over the first i eras. */
  function EraSum(base: nat, i: nat): nat {
    if i == 0 then 0 else EraSum(base, i - 1) + Shr(base, i - 1)
  }

  lemma {:induction false} SupplyOfEras(base: nat, interval: nat, i: nat)
    requires 0 < interval < TWO_63 && i <= 33
    ensures 0 <= i * interval && Supply(Halving(base, interval), i * interval) == interval * EraSum(base, i)
  {
    if i > 0 {
      SupplyOfEras(base, interval, i - 1);
      EraStep(base, interval, i - 1, interval);
      Distribute(interval, i - 1, EraSum(base, i - 1), Shr(base, i - 1));
    }
  }

  lemma Distribute(interval: nat, i: nat, sum: nat, reward: nat)
    ensures (i + 1) * interval == i * interval + interval
    ensures interval * (sum + reward) == interval * sum + interval * reward
  {
  }

  /** Three eras at once, on concrete numbers. */
  lemma ThreeEras(i: nat, sum: nat, reward: nat)
    requires EraSum(5_000_000_000, i) == sum && Shr(5_000_000_000, i) == reward
    ensures EraSum(5_000_000_000, i + 3) == sum + reward + reward / 2 + reward / 2 / 2
    ensures Shr(5_000_000_000, i + 3) == reward / 2 / 2 / 2
  {
    assert Shr(5_000_000_000, i + 1) == reward / 2;
    assert Shr(5_000_000_000, i + 2) == reward / 2 / 2;
    assert EraSum(5_000_000_000, i + 2) == sum + reward + reward / 2;
  }

  lemma BitcoinEras()
    ensures EraSum(5_000_000_000, 33) == 9_999_999_989
  {
    ThreeEras(0, 0, 5000000000);
    ThreeEras(3, 8750000000, 625000000);
    ThreeEras(6, 9843750000, 78125000);
    ThreeEras(9, 9980468750, 9765625);
    ThreeEras(12, 9997558593, 1220703);
    ThreeEras(15, 9999694822, 152587);
    ThreeEras(18, 9999961848, 19073);
    ThreeEras(21, 9999995225, 2384);
    ThreeEras(24, 9999999397, 298);
    ThreeEras(27, 9999999918, 37);
    ThreeEras(30, 9999999982, 4);
  }

  /** Bitcoin never mints more than 20,999,999.9769 coins, and mints exactly that many. */
  lemma BitcoinCap(n: nat)
    ensures Supply(Halving(5_000_000_000, 210_000), n) <= 2_099_999_997_690_000
    ensures n >= 33 * 210_000 ==> Supply(Halving(5_000_000_000, 210_000), n) == 2_099_999_997_690_000
  {
    HalvingCap(210_000, n);
  }

  // ---------------------------------------------------------------------------------------
  // Dogecoin
  // ---------------------------------------------------------------------------------------

  function DogeEra(i: nat): nat
    requires i < 6
  {
    Shr(1_000_000, i) * 100_000_000
  }

  lemma DogeStep(i: nat, n: nat)
    requires i < 6 && n <= 100_000
    ensures Supply(Doge, i * 100_000 + n) == Supply(Doge, i * 100_000) + n * DogeEra(i)
  {
    forall k | i * 100_000 <= k < i * 100_000 + n
      ensures RewardAt(Doge, k) == DogeEra(i)
    {
      DivModUnique(k, 100_000, i, k - i * 100_000);
    }
    SupplyFlat(Doge, i * 100_000, n, DogeEra(i));
  }

  lemma DogeTail(n: nat)
    requires n >= 600_000
    ensures Supply(Doge, n) == Supply(Doge, 600_000) + (n - 600_000) * 1_000_000_000_000
  {
    forall k | 600_000 <= k < n ensures RewardAt(Doge, k) == 1_000_000_000_000 { }
    SupplyFlat(Doge, 600_000, n - 600_000, 1_000_000_000_000);
  }

  /** What the loop accumulates over its first i rounds when the block count wraps to zero. */
  function WrappedDoge(i: nat): int
    requires i <= 6
  {
    if i == 0 then 0 else WrappedDoge(i - 1) + (-100_000 * (i - 1)) * DogeEra(i - 1)
  }

  lemma WrappedDogeTotal()
    ensures WrappedDoge(6) == -17_812_500_000_000_000_000
  {
    assert DogeEra(1) == 500_00000000000 && DogeEra(2) == 250_00000000000 && DogeEra(3) == 125_00000000000;
    assert DogeEra(4) == 62_50000000000 && DogeEra(5) == 31_25_000_000_000;
    assert WrappedDoge(1) == 0;
    assert WrappedDoge(3) == -10_000_000_000_000_000_000;
  }

  /** The number of blocks of era i up to height h, as the code computes it on unsigned words. */
  function EraEnd(i: nat, h: u64): u64
    requires i < 6
  {
    if Wrap(h + 1) < 100_000 * (i + 1) then Wrap(h + 1) else 100_000 * (i + 1)
  }

  lemma EraEnds(i: nat, h: u64)
    requires i < 6 && i * 100_000 <= h
    ensures h < TWO_64 - 1 ==>
              && AsInt64(Wrap(EraEnd(i, h) - 100_000 * i)) == Wrap(EraEnd(i, h) - 100_000 * i)
              && Wrap(EraEnd(i, h) - 100_000 * i) == EraEnd(i, h) - 100_000 * i
              && 0 < EraEnd(i, h) - 100_000 * i <= 100_000
              && EraEnd(i, h) == if h + 1 < 100_000 * (i + 1) then h + 1 else 100_000 * (i + 1)
    ensures h == TWO_64 - 1 ==>
              && EraEnd(i, h) == 0 && AsInt64(Wrap(-100_000 * i)) == -100_000 * i
              && (Wrap(-100_000 * i) > 0 <==> i > 0)
  {
  }

  /** The chunk one round adds, in the ordinary case and when the block count wraps to zero. */
  lemma DogeChunk(i: nat, h: u64)
    requires i < 6 && i * 100_000 <= h
    ensures h < TWO_64 - 1 ==>
              Supply(Doge, i * 100_000) + AsInt64(Wrap(EraEnd(i, h) - 100_000 * i)) * DogeEra(i)
              == Supply(Doge, EraEnd(i, h))
    ensures h == TWO_64 - 1 ==>
              WrappedDoge(i) + AsInt64(Wrap(EraEnd(i, h) - 100_000 * i)) * DogeEra(i) == WrappedDoge(i + 1)
  {
    EraEnds(i, h);
    if h < TWO_64 - 1 {
      DogeStep(i, EraEnd(i, h) - 100_000 * i);
    }
  }

  /** One round of the loop: the reward of era i for the blocks it holds up to height h. */
  method DogeRound(i: nat, h: u64, total: int, accounted: u64) returns (total': int, accounted': u64, done: bool)
    requires i < 6 && i * 100_000 <= h
    requires h < TWO_64 - 1 ==> total == Supply(Doge, i * 100_000) && accounted == i * 100_000
    requires h == TWO_64 - 1 ==> total == WrappedDoge(i) && accounted == 0
    ensures done ==> h < (i + 1) * 100_000 && total' == Supply(Doge, h + 1) && accounted' > h
    ensures !done && h < TWO_64 - 1 ==>
              (i + 1) * 100_000 <= h && total' == Supply(Doge, (i + 1) * 100_000) && accounted' == (i + 1) * 100_000
    ensures !done && h == TWO_64 - 1 ==> total' == WrappedDoge(i + 1) && accounted' == 0
  {
    total', accounted', done := total, accounted, false;
    var start := 100_000 * i;
    var reward := DogeEra(i);
    var effectiveEnd := EraEnd(i, h);
    EraEnds(i, h);
    DogeChunk(i, h);
    var blocks := Wrap(effectiveEnd - start);
    ghost var chunk := AsInt64(blocks) * reward;
    assert h < TWO_64 - 1 ==> total + chunk == Supply(Doge, effectiveEnd) && blocks > 0;
    assert h == TWO_64 - 1 ==> total + chunk == WrappedDoge(i + 1) && effectiveEnd == 0;
    if blocks > 0 {
      total' := total + AsInt64(blocks) * reward;
      accounted' := effectiveEnd;
      if accounted' > h {
        done := true;
      }
    }
  }

  /** The six halving eras: either the whole answer, or everything up to block 600,000. */
  method DogeEras(h: u64) returns (total: int, accounted: u64)
    ensures accounted <= h && h < TWO_64 - 1 ==>
              accounted == 600_000 && total == Supply(Doge, 600_000)
    ensures accounted > h ==> h < 600_000 && total == Supply(Doge, h + 1)
    ensures h == TWO_64 - 1 ==> accounted == 0 && total == WrappedDoge(6)
  {
    total, accounted := 0, 0;
    var i := 0;
    while i < 6
      invariant 0 <= i <= 6 && i * 100_000 <= h
      invariant h < TWO_64 - 1 ==> total == Supply(Doge, i * 100_000) && accounted == i * 100_000
      invariant h == TWO_64 - 1 ==> total == WrappedDoge(i) && accounted == 0
    {
      if h < 100_000 * i {
        break;
      }
      var done;
      total, accounted, done := DogeRound(i, h, total, accounted);
      if done {
        return;
      }
      i := i + 1;
    }
  }

  function Leftover(h: u64, accounted: u64): u64 {
    Wrap(Wrap(h + 1) - accounted)
  }

  lemma LeftoverBlocks(h: u64)
    requires 600_000 <= h < TWO_64 - 1
    ensures AsInt64(Leftover(h, 600_000)) == if h < DOGE_HORIZON then h - 599_999 else h - 599_999 - TWO_64
  {
  }

  lemma DogeTotals(h: u64, eras: int, blocks: int)
    requires h < TWO_64 - 1 ==> h >= 600_000 && eras == Supply(Doge, 600_000)
    requires h < TWO_64 - 1 ==> Supply(Doge, h + 1) == Supply(Doge, 600_000) + (h + 1 - 600_000) * 1_000_000_000_000
    requires h < DOGE_HORIZON ==> blocks == h - 599_999
    requires DOGE_HORIZON <= h < TWO_64 - 1 ==> blocks == h - 599_999 - TWO_64
    ensures h < DOGE_HORIZON ==> eras + blocks * 1_000_000_000_000 == Supply(Doge, h + 1)
    ensures DOGE_HORIZON <= h < TWO_64 - 1 ==>
              eras + blocks * 1_000_000_000_000 == Supply(Doge, h + 1) - TWO_64 * 1_000_000_000_000
  {
  }

  /**
   * The closed form for Dogecoin: six halving eras, then a constant tail whose length goes
   * through int64. It is the supply below `DOGE_HORIZON` and off by a known amount from there.
   */
  method CumulativeDoge(h: u64) returns (total: int)
    ensures h < DOGE_HORIZON ==> total == Supply(Doge, h + 1)
    ensures DOGE_HORIZON <= h < TWO_64 - 1 ==> total == Supply(Doge, h + 1) - TWO_64 * 1_000_000_000_000
    ensures h == TWO_64 - 1 ==> total == -17_812_500_000_000_000_000
  {
    var accounted;
    total, accounted := DogeEras(h);
    if h == TWO_64 - 1 {
      WrappedDogeTotal();
    } else if accounted <= h {
      LeftoverBlocks(h);
      DogeTail(h + 1);
    }
    if accounted <= h {
      var blocks := AsInt64(Leftover(h, accounted));
      DogeTotals(h, total, blocks);
      total := total + blocks * 1_000_000_000_000;
    }
  }

  /** Hence the result is the supply exactly when the leftover block count fits an int64. */
  method CumulativeDogeExactly(h: u64) returns (total: int)
    ensures total == Supply(Doge, h + 1) <==> h < DOGE_HORIZON
  {
    total := CumulativeDoge(h);
  }

  // ---------------------------------------------------------------------------------------
  // Dash
  // ---------------------------------------------------------------------------------------

  lemma DashStep(base: nat, year: nat, n: nat)
    requires n <= 210_240
    ensures Supply(Dash(base), year * 210_240 + n) == Supply(Dash(base), year * 210_240) + DashYear(base, year) * n
  {
    forall k | year * 210_240 <= k < year * 210_240 + n
      ensures RewardAt(Dash(base), k) == DashYear(base, year)
    {
      DivModUnique(k, 210_240, year, k - year * 210_240);
    }
    SupplyFlat(Dash(base), year * 210_240, n, DashYear(base, year));
    assert n * DashYear(base, year) == DashYear(base, year) * n;
  }

  /** Full years, then the blocks of the current one. */
  method CumulativeDash(base: nat, h: u64) returns (total: int)
    ensures total == Supply(Dash(base), h + 1)
  {
    total := 0;
    var years := h / 210_240;
    var remainder := h % 210_240 + 1;
    var i := 0;
    while i < years
      invariant 0 <= i <= years
      invariant total == Supply(Dash(base), i * 210_240)
    {
      DashStep(base, i, 210_240);
      var yearly := DashYearly(base, i);
      total := total + yearly * AsInt64(210_240);
      i := i + 1;
    }
    if remainder > 0 {
      DashStep(base, years, remainder);
      var partial := DashYearly(base, years);
      total := total + partial * AsInt64(remainder);
    }
  }

  method DashYearly(base: nat, year: u64) returns (reward: nat)
    requires year < TWO_63
    ensures reward == DashYear(base, year)
  {
    if year == 0 {
      assert Pow(13, 0) == 1 && Pow(14, 0) == 1;
      return base;
    }
    var e := AsInt64(year);
    reward := base * Pow(13, e) / Pow14(e);
  }

  function DashSum(base: nat, years: nat): nat {
    if years == 0 then 0 else DashSum(base, years - 1) + DashYear(base, years - 1)
  }

  lemma {:induction false} SupplyOfYears(base: nat, years: nat)
    ensures Supply(Dash(base), years * 210_240) == 210_240 * DashSum(base, years)
  {
    if years > 0 {
      SupplyOfYears(base, years - 1);
      DashStep(base, years - 1, 210_240);
    }
  }

  lemma DashFloor(base: nat, year: nat)
    ensures Pow(14, year) * DashYear(base, year) <= base * Pow(13, year)
  {
    var n, d := base * Pow(13, year), Pow14(year);
    assert n == n / d * d + n % d;
  }

  lemma DashGeometricStep(base: nat, p: nat, q: nat, s: nat, d: nat)
    requires p * s <= 14 * (base * (p - q))
    requires p * d <= base * q
    ensures (14 * p) * (s + d) <= 14 * (base * (14 * p - 13 * q))
  {
    assert (14 * p) * (s + d) == 14 * (p * s) + 14 * (p * d);
    assert base * (14 * p - 13 * q) == 14 * (base * (p - q)) + base * q;
  }

  /** The geometric series, cleared of its denominators. */
  lemma {:induction false} DashGeometric(base: nat, years: nat)
    ensures Pow(14, years) * DashSum(base, years) <= 14 * (base * (Pow(14, years) - Pow(13, years)))
  {
    if years > 0 {
      var y := years - 1;
      DashGeometric(base, y);
      DashFloor(base, y);
      DashGeometricStep(base, Pow(14, y), Pow(13, y), DashSum(base, y), DashYear(base, y));
    }
  }

  lemma DashSumBound(base: nat, p: nat, q: nat, s: nat)
    requires base > 0 && p > 0 && q > 0
    requires p * s <= 14 * (base * (p - q))
    ensures s < 14 * base
  {
    assert base * (p - q) == base * p - base * q;
    MulMono(1, base, q);
    assert (14 * base) * p == 14 * (base * p);
    if s >= 14 * base {
      MulMono(14 * base, s, p);
    }
  }

  /** Dash never reaches 14 years' worth of its first year. */
  lemma DashCap(base: nat, n: nat)
    requires base > 0
    ensures Supply(Dash(base), n) < 14 * 210_240 * base
  {
    var y := n / 210_240 + 1;
    SupplyMono(Dash(base), n, y * 210_240);
    SupplyOfYears(base, y);
    DashGeometric(base, y);
    PowPositive(14, y);
    PowPositive(13, y);
    DashSumBound(base, Pow(14, y), Pow(13, y), DashSum(base, y));
  }

  // ---------------------------------------------------------------------------------------
  // By network
  // ---------------------------------------------------------------------------------------

  /** The final supply of a coin that starts with 50 units and halves every `interval` blocks. */
  lemma HalvingCap(interval: nat, n: nat)
    requires 0 < interval < 0x1_0000_0000
    ensures Supply(Halving(5_000_000_000, interval), n) <= interval * 9_999_999_989
    ensures n >= 33 * interval ==> Supply(Halving(5_000_000_000, interval), n) == interval * 9_999_999_989
  {
    var m := Halving(5_000_000_000, interval);
    SupplyOfEras(5_000_000_000, interval, 33);
    BitcoinEras();
    if n >= 33 * interval {
      PastErasSupply(5_000_000_000, interval, 33, n);
    } else {
      SupplyMono(m, n, 33 * interval);
    }
  }

  /** The coins a network can ever mint, in its smallest unit, and when a halving coin is done. */
  function NetworkCap(network: string): Option<(nat, nat)> {
    match network
    case "bitcoin" => Some((2_099_999_997_690_000, 6_930_000))
    case "bitcoin-cash" => Some((2_099_999_997_690_000, 6_930_000))
    case "bitcoin-testnet" => Some((2_099_999_997_690_000, 6_930_000))
    case "namecoin" => Some((2_099_999_997_690_000, 6_930_000))
    case "litecoin" => Some((8_399_999_990_760_000, 27_720_000))
    case "monacoin" => Some((10_511_999_988_436_800, 34_689_600))
    case _ => None
  }

  /** By the network's own name: the supply after any number of blocks, and the cap it reaches. */
  lemma NetworkCaps(network: string, n: nat)
    requires NetworkCap(network).Some?
    ensures ConfigOf(network).Some? && Sound(ConfigOf(network).value)
    ensures var (cap, blocks) := NetworkCap(network).value;
            && Supply(ConfigOf(network).value, n) <= cap
            && (n >= blocks ==> Supply(ConfigOf(network).value, n) == cap)
            && Supply(ConfigOf(network).value, 1) == 5_000_000_000
  {
    var m := ConfigOf(network).value;
    HalvingCap(m.interval, n);
    OneBlock(m);
  }

  lemma OneBlock(m: Model)
    requires Sound(m)
    ensures Supply(m, 1) == RewardAt(m, 0)
  {
    assert Supply(m, 0) == 0;
  }

  /** Dogecoin's schedule: 196,875 million coins in the first 600,000 blocks, then 10,000 a block. */
  lemma DogecoinSupply(n: nat)
    requires n >= 600_000
    ensures Supply(Doge, n) == 19_687_500_000_000_000_000 + (n - 600_000) * 1_000_000_000_000
  {
    DogeFirst();
    DogeTail(n);
  }

  /** The networks that do not halve. */
  lemma OtherNetworks()
    ensures ConfigOf("dogecoin") == Some(Doge) && ConfigOf("dash") == Some(Dash(500_000_000))
    ensures ConfigOf("electraproto") == Some(Zero)
  {
  }

  /** Dash: 5 coins a block in the first year, and never 14 such years' worth. */
  lemma DashSupply(n: nat)
    ensures Supply(Dash(500_000_000), 210_240) == 105_120_000_000_000
    ensures Supply(Dash(500_000_000), n) < 1_471_680_000_000_000
  {
    DashFirstYear(500_000_000);
    DashCap(500_000_000, n);
  }

  lemma DashFirstYear(base: nat)
    ensures Supply(Dash(base), 210_240) == 210_240 * base
  {
    SupplyOfYears(base, 1);
    assert Pow(13, 0) == 1 && Pow(14, 0) == 1;
    assert DashSum(base, 1) == DashSum(base, 0) + DashYear(base, 0);
  }

  /** A network without block rewards mints nothing. */
  lemma {:induction false} NothingMinted(n: nat)
    ensures Supply(Zero, n) == 0
  {
    if n > 0 {
      NothingMinted(n - 1);
    }
  }

  /** One full era of Dogecoin, on concrete numbers. */
  lemma FullEra(i: nat, sum: nat, coins: nat)
    requires i < 6 && Supply(Doge, i * 100_000) == sum && Shr(1_000_000, i) == coins
    ensures Supply(Doge, i * 100_000 + 100_000) == sum + coins * 10_000_000_000_000
    ensures Shr(1_000_000, i + 1) == coins / 2
  {
    DogeStep(i, 100_000);
  }

  lemma DogeFirst()
    ensures Supply(Doge, 600_000) == 19_687_500_000_000_000_000
  {
    FullEra(0, 0, 1_000_000);
    FullEra(1, 10_000_000_000_000_000_000, 500_000);
    FullEra(2, 15_000_000_000_000_000_000, 250_000);
    FullEra(3, 17_500_000_000_000_000_000, 125_000);
    FullEra(4, 18_750_000_000_000_000_000, 62_500);
    FullEra(5, 19_375_000_000_000_000_000, 31_250);
  }

  /** v is the floor of n/d, said without dividing. */
  predicate IsFloor(v: int, n: int, d: int) {
    d * v <= n < d * (v + 1)
  }

  lemma FloorExactly(v: int, n: nat, d: nat)
    requires d > 0
    ensures IsFloor(v, n, d) <==> v == n / d
  {
    var q, r := n / d, n % d;
    assert n == q * d + r;
    assert d * v == v * d && d * (v + 1) == v * d + d;
    if IsFloor(v, n, d) {
      DivModUnique(n, d, v, n - v * d);
    }
  }

  /**
   * What a block pays by the documented rule of its model: floor(base / 2^halvings) without any cut-off,
   * 10^14 shibes halved every 100,000 blocks and 10,000 coins from block 600,000 on,
   * floor(base * (13/14)^years), or nothing.
   */
  predicate Pays(m: Model, h: nat, v: int)
    requires Sound(m)
  {
    match m
    case Halving(base, interval) => IsFloor(v, base, Pow(2, h / interval))
    case Doge => if h >= 600_000 then v == 1_000_000_000_000 else Pow(2, h / 100_000) * v == 100_000_000_000_000
    case Dash(base) => IsFloor(v, base * Pow(13, h / 210_240), Pow(14, h / 210_240))
    case Zero => v == 0
  }

  /** Bases below 2^33 are gone after 33 halvings, so stopping at 32 changes nothing. */
  lemma ClampIsHarmless(base: nat, e: nat)
    requires base < 0x2_0000_0000 && e > 32
    ensures Pow(2, e) > 0 && base / Pow(2, e) == 0
  {
    PowPositive(2, e);
    PowMono(2, 33, e);
    assert Pow(2, 11) == 2048;
    PowAdd(2, 11, 11);
    PowAdd(2, 22, 11);
    DivModUnique(base, Pow(2, e), 0, base);
  }

  lemma HalvingPays(base: nat, interval: nat, h: nat, v: int)
    requires 0 < interval < TWO_63 && base < 0x2_0000_0000
    ensures Pays(Halving(base, interval), h, v) <==> v == HalvingReward(base, interval, h)
  {
    var e := h / interval;
    PowPositive(2, e);
    FloorExactly(v, base, Pow(2, e));
    if e > 32 {
      ClampIsHarmless(base, e);
    } else {
      ShrDivides(base, e);
    }
  }

  lemma DogeEraPays(e: nat, v: int)
    requires e <= 5
    ensures Pow(2, e) * v == 100_000_000_000_000 <==> v == Shr(1_000_000, e) * 100_000_000
  {
    match e
    case 0 => assert Pow(2, 0) == 1 && Shr(1_000_000, 0) == 1_000_000;
    case 1 => assert Pow(2, 1) == 2 && Shr(1_000_000, 1) == 500_000;
    case 2 => assert Pow(2, 2) == 4 && Shr(1_000_000, 2) == 250_000;
    case 3 => assert Pow(2, 3) == 8 && Shr(1_000_000, 3) == 125_000;
    case 4 => assert Pow(2, 4) == 16 && Shr(1_000_000, 4) == 62_500;
    case 5 => assert Pow(2, 5) == 32 && Shr(1_000_000, 5) == 31_250;
  }

  lemma DashPays(base: nat, year: nat, v: int)
    ensures IsFloor(v, base * Pow(13, year), Pow(14, year)) <==> v == DashYear(base, year)
  {
    PowPositive(14, year);
    FloorExactly(v, base * Pow(13, year), Pow(14, year));
  }

  /** For every known network the reward of a block is what the rule of its model says, and only that. */
  lemma PaysExactly(network: string, m: Model, h: nat, v: int)
    requires ConfigOf(network) == Some(m)
    ensures Sound(m) && (Pays(m, h, v) <==> v == RewardAt(m, h))
  {
    ConfigsAreSound(network, m);
    match m
    case Halving(base, interval) => HalvingPays(base, interval, h, v);
    case Doge => if h < 600_000 { DogeEraPays(h / 100_000, v); }
    case Dash(base) => DashPays(base, h / 210_240, v);
    case Zero =>
  }

  method BlockReward(network: string, h: u64) returns (r: Result<int, RewardError>)
    ensures r.Err? <==> ConfigOf(network) == None
    ensures forall m :: ConfigOf(network) == Some(m) ==> Sound(m) && Pays(m, h, r.value)
  {
    match ConfigOf(network) {
      case None => return Err(UnsupportedNetwork);
      case Some(m) =>
        PaysExactly(network, m, h, RewardAt(m, h));
        return Ok(RewardAt(m, h));
    }
  }

  lemma DivMono(a: nat, b: nat, d: nat)
    requires a <= b && d > 0
    ensures a / d <= b / d
  {
    assert a == a / d * d + a % d;
    EraAtLeast(d, a / d, b);
  }

  lemma {:induction false} ShrFalls(v: nat, m: nat, n: nat)
    requires m <= n
    ensures Shr(v, n) <= Shr(v, m)
    decreases n
  {
    if m < n {
      ShrFalls(v, m, n - 1);
    }
  }

  lemma CancelLess(p: int, a: int, b: int)
    requires p > 0 && p * a < p * b
    ensures a < b
  {
    if a >= b {
      MulMono(b, a, p);
    }
  }

  lemma DashFallsOnce(base: nat, year: nat)
    ensures DashYear(base, year + 1) <= DashYear(base, year)
  {
    var v, p, q := DashYear(base, year + 1), Pow(14, year), Pow(13, year);
    DashFloor(base, year + 1);
    assert (14 * p) * v == 14 * (p * v) && base * (13 * q) == 13 * (base * q);
    MulMono(0, base, q);
    assert p * v <= base * q;
    DashPays(base, year, DashYear(base, year));
    PowPositive(14, year);
    CancelLess(p, v, DashYear(base, year) + 1);
  }

  lemma {:induction false} DashFalls(base: nat, a: nat, b: nat)
    requires a <= b
    ensures DashYear(base, b) <= DashYear(base, a)
    decreases b
  {
    if a < b {
      DashFalls(base, a, b - 1);
      DashFallsOnce(base, b - 1);
    }
  }

  lemma HalvingFalls(base: nat, interval: nat, h: nat, later: nat)
    requires 0 < interval && h <= later
    ensures HalvingReward(base, interval, later) <= HalvingReward(base, interval, h)
  {
    DivMono(h, later, interval);
    ShrFalls(base, h / interval, later / interval);
  }

  lemma DogeFalls(h: nat, later: nat)
    requires h <= later
    ensures DogeReward(later) <= DogeReward(h)
  {
    if h < 600_000 {
      DivMono(h, later, 100_000);
      ShrFalls(1_000_000, h / 100_000, if later < 600_000 then later / 100_000 else 5);
      assert Shr(1_000_000, 5) == 31_250;
    }
  }

  /** No model ever pays a later block more than an earlier one. */
  lemma RewardNeverRises(m: Model, h: nat, later: nat)
    requires Sound(m) && h <= later
    ensures RewardAt(m, later) <= RewardAt(m, h)
  {
    match m
    case Halving(base, interval) => HalvingFalls(base, interval, h, later);
    case Doge => DogeFalls(h, later);
    case Dash(base) =>
      DivMono(h, later, 210_240);
      DashFalls(base, h / 210_240, later / 210_240);
    case Zero =>
  }

  /** The heights at which the closed form of a model is the sum over all blocks up to h. */
  predicate Exact(m: Model, h: u64) {
    match m
    case Halving(_, _) => h < TWO_64 - 1
    case Doge => h < DOGE_HORIZON
    case Dash(_) => true
    case Zero => true
  }

  lemma {:induction false} ZeroSupply(n: nat)
    ensures Supply(Zero, n) == 0
  {
    if n > 0 {
      ZeroSupply(n - 1);
    }
  }

  lemma ConfigsAreSound(network: string, m: Model)
    requires ConfigOf(network) == Some(m)
    ensures Sound(m) && (m.Halving? ==> 0 < m.baseReward < 0x2_0000_0000)
  {
  }

  /** For every known network: the cumulative reward is the per-block sum exactly at the exact heights. */
  method CumulativeReward(network: string, h: u64) returns (r: Result<int, RewardError>)
    ensures r == Err(UnsupportedNetwork) <==> ConfigOf(network) == None
    ensures forall m :: ConfigOf(network) == Some(m) ==>
              Sound(m) && r.Ok? && (r.value == Supply(m, h + 1) <==> Exact(m, h))
  {
    match ConfigOf(network) {
      case None => return Err(UnsupportedNetwork);
      case Some(m) =>
        ConfigsAreSound(network, m);
        var total;
        match m {
          case Halving(base, interval) =>
            total := CumulativeHalving(base, interval, h);
            HalvingExactly(base, interval, h);
          case Doge => total := CumulativeDogeExactly(h);
          case Dash(base) => total := CumulativeDash(base, h);
          case Zero => total := 0; ZeroSupply(h + 1);
        }
        return Ok(total);
    }
  }
}
