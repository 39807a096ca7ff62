/** The JGC supply schedule: an iterated-floor "quartering" of the block reward,
    its era-skipping running total, and the hard cap. */
module Emission {

  const INITIAL_BLOCK_REWARD: nat := 500_000_000_000_000_000
  const BLOCKS_PER_QUARTERING: nat := 105_000
  const HARD_CAP: nat := 210_000_000_000_000_000_000_000
  const BLOCKS_PER_EPOCH: nat := 144

  // ---------- The schedule ----------

  function EraIndex(height: nat): nat {
    height / BLOCKS_PER_QUARTERING
  }

  /** Reward of an era: three quarters of the previous era's, rounded down each time. */
  function EraReward(era: nat): nat {
    if era == 0 then INITIAL_BLOCK_REWARD else EraReward(era - 1) * 3 / 4
  }

  function BlockReward(height: nat): nat {
    EraReward(EraIndex(height))
  }

  /** The reference definition of supply: one reward per block, no era arithmetic. */
  function Supply(height: nat): nat {
    if height == 0 then 0 else Supply(height - 1) + BlockReward(height - 1)
  }

  /** The schedule in figures: half a quintillion base units per block at first, and 105,000 blocks later each
      time the integer part of three quarters of that. */
  lemma RewardMeans(height: nat)
    ensures height < 105_000 ==> BlockReward(height) == 500_000_000_000_000_000
    ensures var now, later := BlockReward(height), BlockReward(height + 105_000);
            4 * later <= 3 * now < 4 * later + 4
  {
    assert EraIndex(height + 105_000) == EraIndex(height) + 1;
  }

  method GetBlockReward(height: nat) returns (reward: nat)
    ensures reward == BlockReward(height)
  {
    var era := EraIndex(height);
    reward := INITIAL_BLOCK_REWARD;
    var i := 0;
    while i < era
      invariant 0 <= i <= era
      invariant reward == EraReward(i)
    {
      reward := reward * 3 / 4;
      i := i + 1;
      if reward == 0 {
        EraRewardAntitone(i, era);
        return 0;
      }
    }
  }

  lemma {:induction false} EraRewardAntitone(e: nat, f: nat)
    requires e <= f
    ensures EraReward(f) <= EraReward(e)
  {
    if e < f {
      EraRewardAntitone(e, f - 1);
    }
  }

  // ---------- The fast running total ----------

  /** The same reward k times over. */
  function Repeated(k: nat, reward: nat): nat {
    if k == 0 then 0 else Repeated(k - 1, reward) + reward
  }

  lemma {:induction false} RepeatedIsProduct(k: nat, reward: nat)
    ensures Repeated(k, reward) == k * reward
  {
    if k > 0 {
      RepeatedIsProduct(k - 1, reward);
    }
  }

  /** Within one era every block pays the same, so supply grows linearly. */
  lemma {:induction false} SupplySteady(e: nat, h: nat, k: nat)
    requires h == e * BLOCKS_PER_QUARTERING && k <= BLOCKS_PER_QUARTERING
    ensures Supply(h + k) == Supply(h) + Repeated(k, EraReward(e))
  {
    if k > 0 {
      SupplySteady(e, h, k - 1);
      assert EraIndex(h + k - 1) == e;
    }
  }

  lemma SupplyWithinEra(e: nat, k: nat)
    requires k <= BLOCKS_PER_QUARTERING
    ensures Supply(e * BLOCKS_PER_QUARTERING + k) == Supply(e * BLOCKS_PER_QUARTERING) + k * EraReward(e)
  {
    SupplySteady(e, e * BLOCKS_PER_QUARTERING, k);
    RepeatedIsProduct(k, EraReward(e));
  }

  lemma EraIndexMonotone(h: nat, g: nat)
    requires h <= g
    ensures EraIndex(h) <= EraIndex(g)
  {
  }

  /** Once the reward is zero nothing more is emitted. */
  lemma {:induction false} SupplyConstantAfterZero(h: nat, g: nat)
    requires h <= g && BlockReward(h) == 0
    ensures Supply(g) == Supply(h)
  {
    if h < g {
      SupplyConstantAfterZero(h, g - 1);
      EraIndexMonotone(h, g - 1);
      EraRewardAntitone(EraIndex(h), EraIndex(g - 1));
    }
  }

  /** One pass of the fast loop: from an era's first block to its end, or to the asked height. */
  lemma EraStep(e: nat, h: nat, next: nat)
    requires h == e * BLOCKS_PER_QUARTERING && h <= next <= h + BLOCKS_PER_QUARTERING
    ensures Supply(next) == Supply(h) + EraReward(e) * (next - h)
  {
    SupplyWithinEra(e, next - h);
  }

  method GetCumulativeSupply(height: nat) returns (total: nat)
    ensures total == Supply(height)
  {
    total := 0;
    var h := 0;
    ghost var e := 0;
    while h < height
      invariant h == e * BLOCKS_PER_QUARTERING
      invariant total == Supply(if h <= height then h else height)
    {
      assert EraIndex(h) == e;
      var reward := GetBlockReward(h);
      if reward == 0 {
        SupplyConstantAfterZero(h, height);
        break;
      }
      var eraStart := EraIndex(h) * BLOCKS_PER_QUARTERING;
      var eraEnd := eraStart + BLOCKS_PER_QUARTERING;
      var blocksInEra := (if eraEnd < height then eraEnd else height) - h;
      EraStep(e, h, h + blocksInEra);
      total := total + reward * blocksInEra;
      h := eraEnd;
      e := e + 1;
      if h >= height {
        break;
      }
    }
    total := if total > HARD_CAP then HARD_CAP else total;
    SupplyBelowCap(height);
  }

  // ---------- The hard cap ----------

  /** What is out plus four full eras at the current reward never passes the cap. */
  lemma {:induction false} EraBudget(e: nat)
    ensures Supply(e * BLOCKS_PER_QUARTERING) + 4 * BLOCKS_PER_QUARTERING * EraReward(e) <= HARD_CAP
  {
    if e > 0 {
      EraBudget(e - 1);
      SupplyWithinEra(e - 1, BLOCKS_PER_QUARTERING);
      assert (e - 1) * BLOCKS_PER_QUARTERING + BLOCKS_PER_QUARTERING == e * BLOCKS_PER_QUARTERING;
      BudgetStep(Supply((e - 1) * BLOCKS_PER_QUARTERING), EraReward(e - 1));
    }
  }

  lemma BudgetStep(base: nat, reward: nat)
    requires base + 4 * BLOCKS_PER_QUARTERING * reward <= HARD_CAP
    ensures base + BLOCKS_PER_QUARTERING * reward + 4 * BLOCKS_PER_QUARTERING * (reward * 3 / 4) <= HARD_CAP
  {
  }

  lemma SupplyBelowCap(height: nat)
    ensures Supply(height) <= HARD_CAP
  {
    var e, k := EraIndex(height), height % BLOCKS_PER_QUARTERING;
    assert height == e * BLOCKS_PER_QUARTERING + k;
    PartialEra(e, k);
  }

  lemma PartialEra(e: nat, k: nat)
    requires k <= BLOCKS_PER_QUARTERING
    ensures Supply(e * BLOCKS_PER_QUARTERING + k) <= HARD_CAP
  {
    EraBudget(e);
    SupplyWithinEra(e, k);
    WithinBudget(Supply(e * BLOCKS_PER_QUARTERING), k, EraReward(e));
  }

  lemma WithinBudget(base: nat, k: nat, reward: nat)
    requires base + 4 * BLOCKS_PER_QUARTERING * reward <= HARD_CAP && k <= BLOCKS_PER_QUARTERING
    ensures base + k * reward <= HARD_CAP
  {
    Scale(k, 4 * BLOCKS_PER_QUARTERING, reward);
  }

  lemma Scale(a: nat, b: nat, x: nat)
    requires a <= b
    ensures a * x <= b * x
  {
  }

  // ---------- The end of emission ----------

  /** q is three quarters of r, rounded down. */
  predicate Follows(r: nat, q: nat) {
    4 * q <= 3 * r < 4 * q + 4
  }

  /** Five eras on, by their rewards. */
  lemma FiveEras(era: nat, a: nat, b: nat, c: nat, d: nat, e: nat, f: nat)
    requires EraReward(era) == a && Follows(a, b) && Follows(b, c) && Follows(c, d) && Follows(d, e) && Follows(e, f)
    ensures EraReward(era + 4) == e && EraReward(era + 5) == f
  {
    NextEra(era, a, b);
    NextEra(era + 1, b, c);
    NextEra(era + 2, c, d);
    NextEra(era + 3, d, e);
    NextEra(era + 4, e, f);
  }

  lemma NextEra(era: nat, r: nat, q: nat)
    requires EraReward(era) == r && Follows(r, q)
    ensures EraReward(era + 1) == q
  {
  }

  lemma FirstEra(era: nat)
    requires era == 0
    ensures EraReward(era) == INITIAL_BLOCK_REWARD
  {
  }

  /** The rewards era by era, until nothing is left. */
  lemma FirstRewards(era: nat)
    requires era == 30
    ensures EraReward(era + 5) == 21_189_183_550_445
  {
    hide EraReward;
    FirstEra(0);
    FiveEras(0, 500_000_000_000_000_000, 375_000_000_000_000_000, 281_250_000_000_000_000,
             210_937_500_000_000_000, 158_203_125_000_000_000, 118_652_343_750_000_000);
    FiveEras(5, 118_652_343_750_000_000, 88_989_257_812_500_000, 66_741_943_359_375_000,
             50_056_457_519_531_250, 37_542_343_139_648_437, 28_156_757_354_736_327);
    FiveEras(10, 28_156_757_354_736_327, 21_117_568_016_052_245, 15_838_176_012_039_183,
             11_878_632_009_029_387, 8_908_974_006_772_040, 6_681_730_505_079_030);
    FiveEras(15, 6_681_730_505_079_030, 5_011_297_878_809_272, 3_758_473_409_106_954,
             2_818_855_056_830_215, 2_114_141_292_622_661, 1_585_605_969_466_995);
    FiveEras(20, 1_585_605_969_466_995, 1_189_204_477_100_246, 891_903_357_825_184,
             668_927_518_368_888, 501_695_638_776_666, 376_271_729_082_499);
    FiveEras(25, 376_271_729_082_499, 282_203_796_811_874, 211_652_847_608_905,
             158_739_635_706_678, 119_054_726_780_008, 89_291_045_085_006);
    FiveEras(30, 89_291_045_085_006, 66_968_283_813_754, 50_226_212_860_315,
             37_669_659_645_236, 28_252_244_733_927, 21_189_183_550_445);
  }

  lemma SecondRewards(era: nat)
    requires era == 65
    ensures EraReward(era + 5) == 897_962_997
  {
    hide EraReward;
    FirstRewards(30);
    FiveEras(35, 21_189_183_550_445, 15_891_887_662_833, 11_918_915_747_124,
             8_939_186_810_343, 6_704_390_107_757, 5_028_292_580_817);
    FiveEras(40, 5_028_292_580_817, 3_771_219_435_612, 2_828_414_576_709,
             2_121_310_932_531, 1_590_983_199_398, 1_193_237_399_548);
    FiveEras(45, 1_193_237_399_548, 894_928_049_661, 671_196_037_245,
             503_397_027_933, 377_547_770_949, 283_160_828_211);
    FiveEras(50, 283_160_828_211, 212_370_621_158, 159_277_965_868, 119_458_474_401, 89_593_855_800, 67_195_391_850);
    FiveEras(55, 67_195_391_850, 50_396_543_887, 37_797_407_915, 28_348_055_936, 21_261_041_952, 15_945_781_464);
    FiveEras(60, 15_945_781_464, 11_959_336_098, 8_969_502_073, 6_727_126_554, 5_045_344_915, 3_784_008_686);
    FiveEras(65, 3_784_008_686, 2_838_006_514, 2_128_504_885, 1_596_378_663, 1_197_283_997, 897_962_997);
  }

  lemma ThirdRewards(era: nat)
    requires era == 100
    ensures EraReward(era + 5) == 38_052
  {
    hide EraReward;
    SecondRewards(65);
    FiveEras(70, 897_962_997, 673_472_247, 505_104_185, 378_828_138, 284_121_103, 213_090_827);
    FiveEras(75, 213_090_827, 159_818_120, 119_863_590, 89_897_692, 67_423_269, 50_567_451);
    FiveEras(80, 50_567_451, 37_925_588, 28_444_191, 21_333_143, 15_999_857, 11_999_892);
    FiveEras(85, 11_999_892, 8_999_919, 6_749_939, 5_062_454, 3_796_840, 2_847_630);
    FiveEras(90, 2_847_630, 2_135_722, 1_601_791, 1_201_343, 901_007, 675_755);
    FiveEras(95, 675_755, 506_816, 380_112, 285_084, 213_813, 160_359);
    FiveEras(100, 160_359, 120_269, 90_201, 67_650, 50_737, 38_052);
  }

  lemma LastRewards(era: nat)
    requires era == 135
    ensures EraReward(era + 4) == 1 && EraReward(era + 5) == 0
  {
    hide EraReward;
    ThirdRewards(100);
    FiveEras(105, 38_052, 28_539, 21_404, 16_053, 12_039, 9_029);
    FiveEras(110, 9_029, 6_771, 5_078, 3_808, 2_856, 2_142);
    FiveEras(115, 2_142, 1_606, 1_204, 903, 677, 507);
    FiveEras(120, 507, 380, 285, 213, 159, 119);
    FiveEras(125, 119, 89, 66, 49, 36, 27);
    FiveEras(130, 27, 20, 15, 11, 8, 6);
    FiveEras(135, 6, 4, 3, 2, 1, 0);
  }

  /** Emission pays something in era 139 and nothing in any later one. */
  lemma RewardVanishes(era: nat)
    ensures EraReward(era) == 0 <==> era >= 140
  {
    LastRewards(135);
    if era >= 140 {
      EraRewardAntitone(140, era);
    } else {
      EraRewardAntitone(era, 139);
    }
  }

  /** Emission stops for good: exactly the blocks from era 140 on add nothing. */
  lemma SupplyEventuallyConstant(last: nat, height: nat)
    requires last == 140 * BLOCKS_PER_QUARTERING
    ensures BlockReward(height) == 0 <==> height >= last
    ensures height >= last ==> Supply(height) == Supply(last)
  {
    RewardVanishes(EraIndex(last));
    RewardVanishes(EraIndex(height));
    if height >= last {
      SupplyConstantAfterZero(last, height);
    }
  }

  // ---------- The documented closed form ----------

  function Pow(b: nat, e: nat): nat {
    if e == 0 then 1 else b * Pow(b, e - 1)
  }

  /** The formula the file header documents: one floor at the end. */
  function DocumentedReward(era: nat): nat {
    PowPositive(4, era);
    INITIAL_BLOCK_REWARD * Pow(3, era) / Pow(4, era)
  }

  lemma {:induction false} PowPositive(b: nat, e: nat)
    requires b > 0
    ensures Pow(b, e) > 0
  {
    if e > 0 {
      PowPositive(b, e - 1);
    }
  }

  /** Scaled by 4^era, everything the earlier floors dropped so far. */
  function DroppedScaled(era: nat): nat {
    if era == 0 then 0
    else 3 * DroppedScaled(era - 1) + Pow(4, era - 1) * (EraReward(era - 1) * 3 % 4)
  }

  lemma {:induction false} ExactReward(era: nat)
    ensures INITIAL_BLOCK_REWARD * Pow(3, era) == Pow(4, era) * EraReward(era) + DroppedScaled(era)
    ensures DroppedScaled(era) < 3 * Pow(4, era)
  {
    if era > 0 {
      ExactReward(era - 1);
      ExactStep(Pow(4, era - 1), Pow(3, era - 1), EraReward(era - 1), DroppedScaled(era - 1));
    }
  }

  /** One era: the part that 3r/4 loses is (3r mod 4)/4. */
  lemma ExactStep(p: nat, t: nat, r: nat, d: nat)
    requires INITIAL_BLOCK_REWARD * t == p * r + d && d < 3 * p
    ensures INITIAL_BLOCK_REWARD * (3 * t) == (4 * p) * (r * 3 / 4) + (3 * d + p * (r * 3 % 4))
    ensures 3 * d + p * (r * 3 % 4) < 3 * (4 * p)
  {
    var q, m := r * 3 / 4, r * 3 % 4;
    calc {
      INITIAL_BLOCK_REWARD * (3 * t);
      3 * (p * r + d);
      p * (r * 3) + 3 * d;
      { assert r * 3 == 4 * q + m; }
      p * (4 * q + m) + 3 * d;
      { Distribute(p, 4 * q, m); }
      p * (4 * q) + p * m + 3 * d;
      (4 * p) * q + (3 * d + p * m);
    }
    Scale(m, 3, p);
  }

  lemma Distribute(a: int, b: int, c: int)
    ensures a * (b + c) == a * b + a * c
  {
  }

  /** The quotient is pinned by the interval the numerator lies in. */
  lemma QuotientIs(n: nat, d: nat, q: nat)
    requires d > 0 && d * q <= n < d * q + d
    ensures n / d == q
  {
    var k := n / d;
    assert n == d * k + n % d;
    if k > q {
      Scale(q + 1, k, d);
    } else if k < q {
      Scale(k + 1, q, d);
    }
  }

  lemma QuotientNear(n: nat, p: nat, r: nat, d: nat)
    requires n == p * r + d && d < 3 * p
    ensures r <= n / p <= r + 2
    ensures r == n / p <==> d < p
  {
    var k := if d < p then 0 else if d < 2 * p then 1 else 2;
    Distribute(p, r, k);
    QuotientIs(n, p, r + k);
  }

  /** The code never pays more than documented and at most two base units less;
      it pays the documented amount exactly when the dropped fractions stay below one unit. */
  lemma RewardAgainstDocumented(era: nat)
    ensures EraReward(era) <= DocumentedReward(era) <= EraReward(era) + 2
    ensures EraReward(era) == DocumentedReward(era) <==> DroppedScaled(era) < Pow(4, era)
  {
    ExactReward(era);
    PowPositive(4, era);
    var n, p := INITIAL_BLOCK_REWARD * Pow(3, era), Pow(4, era);
    var paid, dropped := EraReward(era), DroppedScaled(era);
    assert DocumentedReward(era) == n / p;
    QuotientNear(n, p, paid, dropped);
  }

  /** An era whose reward is not the documented one. */
  lemma DocumentedRewardDiffers(era: nat)
    requires era == 10
    ensures EraReward(era) == 28_156_757_354_736_327
    ensures DocumentedReward(era) == 28_156_757_354_736_328
  {
    assert EraReward(1) == 375_000_000_000_000_000;
    assert EraReward(2) == 281_250_000_000_000_000;
    assert EraReward(3) == 210_937_500_000_000_000;
    assert EraReward(4) == 158_203_125_000_000_000;
    assert EraReward(5) == 118_652_343_750_000_000;
    assert EraReward(6) == 88_989_257_812_500_000;
    assert EraReward(7) == 66_741_943_359_375_000;
    assert EraReward(8) == 50_056_457_519_531_250;
    assert EraReward(9) == 37_542_343_139_648_437;
    assert EraReward(10) == 28_156_757_354_736_327;
    assert Pow(3, 10) == 59_049;
    assert Pow(4, 10) == 1_048_576;
  }

  // ---------- The epoch bound ----------

  const EPOCH_BLOCKS: nat := 144

  lemma {:induction false} SupplySteps(start: nat, k: nat)
    ensures Supply(start + k) >= Supply(start)
    ensures Supply(start + k + 1) == Supply(start + k) + BlockReward(start + k)
  {
    if k > 0 {
      SupplySteps(start, k - 1);
    }
  }

  /** The bound adds up the epoch's rewards one by one; it is what the supply grows by over the epoch. */
  method IsValidEpochCoinbase(claimed: int, start: nat, fees: int) returns (valid: bool)
    ensures valid <==> claimed <= Supply(start + EPOCH_BLOCKS) - Supply(start) + fees
  {
    var pool := 0;
    var i := 0;
    while i < EPOCH_BLOCKS
      invariant i <= EPOCH_BLOCKS && pool == Supply(start + i) - Supply(start)
    {
      hide Supply, BlockReward;
      SupplySteps(start, i);
      var reward := GetBlockReward(start + i);
      pool := pool + reward;
      i := i + 1;
    }
    valid := claimed <= pool + fees;
  }
}
