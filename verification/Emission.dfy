/** The block subsidy: halved every 210000 blocks, never below one micro WRT. How much it can ever
    add up to. */
module Emission {
  import opened Arithmetic
  import opened Halving

  /** TotalWRTSupply of the governance module, and the default base reward. */
  const TOTAL_WRT_SUPPLY: nat := 21_000_000_000_000
  const DEFAULT_BASE: nat := 50_000_000

  function Pow2(n: nat): (p: nat)
    ensures p >= 1
  {
    if n == 0 then 1 else 2 * Pow2(n - 1)
  }

  /** The subsidy without its floor: the base halved once per completed interval. */
  function Unfloored(base: nat, height: nat): nat {
    HalvedTimes(base, HalvingCount(height))
  }

  function BaseReward(base: nat, height: nat): nat {
    if Unfloored(base, height) == 0 then 1 else Unfloored(base, height)
  }

  function HalvedTimes(base: nat, n: nat): nat {
    if n == 0 then base else HalvedTimes(base, n - 1) / 2
  }

  /** Halving n times, rounding down each time, is one division by 2^n. */
  lemma {:induction false} HalvingIsDivision(base: nat, n: nat)
    ensures HalvedTimes(base, n) == base / Pow2(n)
  {
    if n > 0 {
      HalvingIsDivision(base, n - 1);
      var p := Pow2(n - 1);
      var q := base / p;
      assert base == p * q + base % p;
      HalveQuotient(base, p);
    }
  }

  lemma HalveQuotient(x: nat, p: nat)
    requires p >= 1
    ensures x / p / 2 == x / (2 * p)
  {
    var q := x / p;
    var r := x % p;
    var h := q / 2;
    assert q == 2 * h + q % 2;
    assert x == p * q + r;
    assert x == (2 * p) * h + (p * (q % 2) + r) by {
      assert p * q == p * (2 * h) + p * (q % 2);
      assert p * (2 * h) == (2 * p) * h;
    }
    assert 0 <= p * (q % 2) + r < 2 * p by {
      assert q % 2 == 0 || q % 2 == 1;
    }
    UniqueQuotient(x, 2 * p, h, p * (q % 2) + r);
  }

  /** So the subsidy is the base divided by 2^(height / 210000), with a floor of one. */
  lemma RewardIsDivision(base: nat, height: nat)
    ensures BaseReward(base, height) ==
      var q := base / Pow2(height / INTERVAL); if q == 0 then 1 else q
  {
    HalvingIsDivision(base, height / INTERVAL);
  }

  /** CalculateBaseReward, with the loop of the source. */
  method CalculateBaseReward(base: nat, height: nat) returns (reward: nat)
    ensures reward == BaseReward(base, height)
  {
    var halvingCount := height / INTERVAL;
    reward := base;
    if halvingCount > 0 {
      var i := 0;
      while i < halvingCount && reward > 0
        invariant i <= halvingCount
        invariant reward == HalvedTimes(base, i)
      {
        reward := reward / 2;
        i := i + 1;
      }
      if i < halvingCount {
        StaysZero(base, i, halvingCount);
      }
    }
    if reward == 0 {
      reward := 1;
    }
  }

  lemma {:induction false} StaysZero(base: nat, i: nat, n: nat)
    requires i <= n && HalvedTimes(base, i) == 0
    ensures HalvedTimes(base, n) == 0
  {
    if i < n {
      StaysZero(base, i, n - 1);
    }
  }

  // ---------- Whole schedules ----------

  /** The subsidies of heights 1 to h together. */
  function Minted(base: nat, h: nat): nat {
    if h == 0 then 0 else Minted(base, h - 1) + BaseReward(base, h)
  }

  /** The same schedule without the floor, from height 0 on. */
  function UnflooredTotal(base: nat, h: nat): nat {
    if h == 0 then Unfloored(base, 0) else UnflooredTotal(base, h - 1) + Unfloored(base, h)
  }

  /** What height h leaves to be minted: the rest of its era, and one era's worth for all later
      eras together (at least one unit is always left). */
  function Left(v: nat, rest: nat): nat {
    rest * v + (if v == 0 then 1 else INTERVAL * v)
  }

  function RestOfEra(h: nat): (rest: nat) {
    INTERVAL - 1 - h % INTERVAL
  }

  lemma LeftIsPositive(v: nat, rest: nat)
    ensures Left(v, rest) > 0
  {
  }

  lemma LeftShrinks(v: nat, rest: nat)
    requires rest > 0
    ensures Left(v, rest - 1) + v == Left(v, rest)
  {
  }

  lemma LeftNextEra(v: nat)
    ensures v / 2 + Left(v / 2, INTERVAL - 1) <= Left(v, 0)
  {
  }

  lemma NextHeight(h: nat)
    requires h > 0
    ensures h % INTERVAL == 0 ==> HalvingCount(h) == HalvingCount(h - 1) + 1 && RestOfEra(h - 1) == 0
    ensures h % INTERVAL != 0 ==> HalvingCount(h) == HalvingCount(h - 1) && RestOfEra(h - 1) == RestOfEra(h) + 1
  {
  }

  lemma {:induction false} UnflooredTotalSlack(base: nat, h: nat)
    requires base >= 1
    ensures UnflooredTotal(base, h) + Left(Unfloored(base, h), RestOfEra(h)) <= 2 * base * INTERVAL
  {
    if h > 0 {
      UnflooredTotalSlack(base, h - 1);
      NextHeight(h);
      var v := Unfloored(base, h - 1);
      if h % INTERVAL == 0 {
        LeftNextEra(v);
      } else {
        LeftShrinks(v, RestOfEra(h - 1));
      }
    }
  }

  /** Without the floor the whole schedule stays strictly below 2 * base * 210000. */
  lemma UnflooredBelowDouble(base: nat, h: nat)
    requires base >= 1
    ensures UnflooredTotal(base, h) < 2 * base * INTERVAL
  {
    UnflooredTotalSlack(base, h);
    LeftIsPositive(Unfloored(base, h), RestOfEra(h));
  }

  lemma {:induction false} FloorAddsAtMostOne(base: nat, h: nat)
    ensures Minted(base, h) <= UnflooredTotal(base, h) + h
  {
    if h > 0 {
      FloorAddsAtMostOne(base, h - 1);
    }
  }

  /** With the floor, heights 1 to h mint at most 2 * base * 210000 + h. */
  lemma MintedBound(base: nat, h: nat)
    ensures Minted(base, h) <= 2 * base * INTERVAL + h
  {
    FloorAddsAtMostOne(base, h);
    if base >= 1 {
      UnflooredBelowDouble(base, h);
    } else {
      NothingFromZero(h);
    }
  }

  lemma {:induction false} NothingFromZero(h: nat)
    ensures UnflooredTotal(0, h) == 0
  {
    if h > 0 {
      NothingFromZero(h - 1);
    }
  }

  /** The default base makes that bound the announced total supply. */
  lemma DefaultBoundIsSupply()
    ensures 2 * DEFAULT_BASE * INTERVAL == TOTAL_WRT_SUPPLY
  {
  }

  // ---------- The floor against the announced supply ----------

  function EraReward(base: nat, n: nat): nat {
    if HalvedTimes(base, n) == 0 then 1 else HalvedTimes(base, n)
  }

  /** Within one era every height adds the same. */
  lemma {:induction false} WithinEra(base: nat, n: nat, j: nat)
    requires n >= 1 && j <= INTERVAL
    ensures Minted(base, INTERVAL * n - 1 + j) == Minted(base, INTERVAL * n - 1) + j * EraReward(base, n)
    decreases j
  {
    if j > 0 {
      WithinEra(base, n, j - 1);
      var h := INTERVAL * n - 1 + j;
      assert h == INTERVAL * n + (j - 1) && HalvingCount(h) == n;
      assert (j - 1) * EraReward(base, n) + EraReward(base, n) == j * EraReward(base, n);
    }
  }

  lemma {:induction false} FirstEra(base: nat, j: nat)
    requires base >= 1 && j < INTERVAL
    ensures Minted(base, j) == j * base
  {
    if j > 0 {
      FirstEra(base, j - 1);
      assert HalvingCount(j) == 0;
      assert (j - 1) * base + base == j * base;
    }
  }

  /** All eras before era n. */
  function Eras(base: nat, n: nat): nat {
    if n <= 1 then (INTERVAL - 1) * base else Eras(base, n - 1) + INTERVAL * EraReward(base, n - 1)
  }

  lemma {:induction false} MintedByEras(base: nat, n: nat)
    requires base >= 1 && n >= 1
    ensures Minted(base, INTERVAL * n - 1) == Eras(base, n)
  {
    if n == 1 {
      FirstEra(base, INTERVAL - 1);
    } else {
      MintedByEras(base, n - 1);
      WithinEra(base, n - 1, INTERVAL);
    }
  }

  /** The first era of the default schedule that the floor pays alone. */
  const FLOOR_ERA: nat := 26

  lemma {:induction false} TailPaysOne(base: nat, era: nat, h: nat)
    requires era >= 1 && HalvedTimes(base, era) == 0
    requires h >= INTERVAL * era - 1
    ensures Minted(base, h) == Minted(base, INTERVAL * era - 1) + (h - (INTERVAL * era - 1))
    decreases h
  {
    if h > INTERVAL * era - 1 {
      TailPaysOne(base, era, h - 1);
      assert HalvingCount(h) >= era;
      StaysZero(base, era, HalvingCount(h));
    }
  }

  lemma {:induction false} MintedGrows(base: nat, h: nat, k: nat)
    requires h <= k
    ensures Minted(base, h) <= Minted(base, k)
  {
    if h < k {
      MintedGrows(base, h, k - 1);
    }
  }

  const LAST_HEIGHT_WITHIN_SUPPLY: nat := 57_979_999

  /** The one-unit floor breaks the announced cap: full subsidies stay within TotalWRTSupply up to
      height 57979999 and exceed it at every later height. */
  lemma SupplyCapHoldsExactly(base: nat, h: nat)
    requires base == DEFAULT_BASE
    ensures Minted(base, h) <= TOTAL_WRT_SUPPLY <==> h <= LAST_HEIGHT_WITHIN_SUPPLY
  {
    var era, last := FLOOR_ERA, LAST_HEIGHT_WITHIN_SUPPLY;
    DefaultEras(1);
    MintedByEras(base, era);
    TailPaysOne(base, era, last);
    if h <= last {
      MintedGrows(base, h, last);
    } else {
      TailPaysOne(base, era, h);
    }
  }

  lemma EraAdds(n: nat, reward: nat, total: nat)
    requires n >= 1 && HalvedTimes(DEFAULT_BASE, n) == reward && Eras(DEFAULT_BASE, n) == total
    ensures HalvedTimes(DEFAULT_BASE, n + 1) == reward / 2
    ensures Eras(DEFAULT_BASE, n + 1) == total + INTERVAL * (if reward == 0 then 1 else reward)
  {
  }

  /** The default schedule era by era: the reward of era n, and everything minted before it. */
  lemma FirstDefaultEras(n: nat)
    requires n == 1
    ensures HalvedTimes(DEFAULT_BASE, n + 12) == 6_103 && Eras(DEFAULT_BASE, n + 12) == 20_997_386_320_000
  {
    assert HalvedTimes(DEFAULT_BASE, n) == HalvedTimes(DEFAULT_BASE, n - 1) / 2;
    EraAdds(n, 25_000_000, 10_499_950_000_000);
    EraAdds(n + 1, 12_500_000, 15_749_950_000_000);
    EraAdds(n + 2, 6_250_000, 18_374_950_000_000);
    EraAdds(n + 3, 3_125_000, 19_687_450_000_000);
    EraAdds(n + 4, 1_562_500, 20_343_700_000_000);
    EraAdds(n + 5, 781_250, 20_671_825_000_000);
    EraAdds(n + 6, 390_625, 20_835_887_500_000);
    EraAdds(n + 7, 195_312, 20_917_918_750_000);
    EraAdds(n + 8, 97_656, 20_958_934_270_000);
    EraAdds(n + 9, 48_828, 20_979_442_030_000);
    EraAdds(n + 10, 24_414, 20_989_695_910_000);
    EraAdds(n + 11, 12_207, 20_994_822_850_000);
  }

  lemma DefaultEras(n: nat)
    requires n == 1
    ensures Eras(DEFAULT_BASE, n + 25) == 20_999_947_480_000
    ensures HalvedTimes(DEFAULT_BASE, n + 25) == 0
  {
    FirstDefaultEras(n);
    EraAdds(n + 12, 6_103, 20_997_386_320_000);
    EraAdds(n + 13, 3_051, 20_998_667_950_000);
    EraAdds(n + 14, 1_525, 20_999_308_660_000);
    EraAdds(n + 15, 762, 20_999_628_910_000);
    EraAdds(n + 16, 381, 20_999_788_930_000);
    EraAdds(n + 17, 190, 20_999_868_940_000);
    EraAdds(n + 18, 95, 20_999_908_840_000);
    EraAdds(n + 19, 47, 20_999_928_790_000);
    EraAdds(n + 20, 23, 20_999_938_660_000);
    EraAdds(n + 21, 11, 20_999_943_490_000);
    EraAdds(n + 22, 5, 20_999_945_800_000);
    EraAdds(n + 23, 2, 20_999_946_850_000);
    EraAdds(n + 24, 1, 20_999_947_270_000);
  }
}
