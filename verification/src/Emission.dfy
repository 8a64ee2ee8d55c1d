/** Block rewards and the circulating supply: `ChainParams` of `src/core/chain.rs`. */
module Emission {
  import opened Common

  const NCIP: nat := 1_000_000_000
  const MAX_SUPPLY: nat := 18_400_000 * NCIP
  const PREMINE: nat := 2_000 * NCIP
  const INITIAL_BLOCK_REWARD: nat := 4_000_000
  const HALVING_INTERVAL: nat := 126_144_000
  const TAIL_EMISSION: nat := 130

  /** `>>` on an unsigned integer. */
  function ShiftRight(x: nat, n: nat): nat {
    if n == 0 then x else ShiftRight(x, n - 1) / 2
  }

  function BlockReward(height: nat): nat {
    RewardAfter(height / HALVING_INTERVAL)
  }

  function RewardAfter(halvings: nat): nat {
    if halvings >= 64 then TAIL_EMISSION
    else
      var reward := ShiftRight(INITIAL_BLOCK_REWARD, halvings);
      if reward <= TAIL_EMISSION then TAIL_EMISSION else reward
  }

  function SaturatingAdd(a: nat, b: nat): nat {
    Min(a + b, U64 - 1)
  }

  function Credit(supply: nat, height: nat): nat {
    Min(SaturatingAdd(supply, BlockReward(height)), MAX_SUPPLY)
  }

  // ---- Eras --------------------------------------------------------------------------------

  /** The reward of halving era k: fifteen halvings above the tail, then the tail for ever. */
  function EraReward(k: nat): nat {
    if k < 15 then ShiftRight(INITIAL_BLOCK_REWARD, k) else TAIL_EMISSION
  }

  lemma {:induction false} ShiftFalls(x: nat, j: nat, k: nat)
    requires j <= k
    ensures ShiftRight(x, k) <= ShiftRight(x, j)
  {
    if j < k { ShiftFalls(x, j, k - 1); }
  }

  lemma NextEra(k: nat, reward: nat)
    requires ShiftRight(INITIAL_BLOCK_REWARD, k) == reward
    ensures ShiftRight(INITIAL_BLOCK_REWARD, k + 1) == reward / 2
  {
  }

  /** Up to era 14 the reward stays above the tail; the last of these eras pays 244. */
  lemma {:induction false} AboveTail(k: nat)
    requires k < 15
    ensures ShiftRight(INITIAL_BLOCK_REWARD, k) >= 244
    ensures k == 14 ==> ShiftRight(INITIAL_BLOCK_REWARD, k) == 244
    decreases 15 - k
  {
    if k < 14 {
      AboveTail(k + 1);
    } else {
      NextEra(k - 14, 4_000_000);
      NextEra(k - 13, 2_000_000);
      NextEra(k - 12, 1_000_000);
      NextEra(k - 11, 500_000);
      NextEra(k - 10, 250_000);
      NextEra(k - 9, 125_000);
      NextEra(k - 8, 62_500);
      NextEra(k - 7, 31_250);
      NextEra(k - 6, 15_625);
      NextEra(k - 5, 7_812);
      NextEra(k - 4, 3_906);
      NextEra(k - 3, 1_953);
      NextEra(k - 2, 976);
      NextEra(k - 1, 488);
    }
  }

  /** From era 15 on the halved reward would be below it. */
  lemma {:induction false} BelowTail(k: nat)
    requires k >= 15
    ensures ShiftRight(INITIAL_BLOCK_REWARD, k) <= 122
  {
    if k == 15 {
      AboveTail(k - 1);
      NextEra(k - 1, 244);
    } else {
      BelowTail(k - 1);
    }
  }

  lemma HalvingsMeetTail(k: nat)
    ensures k < 15 ==> ShiftRight(INITIAL_BLOCK_REWARD, k) > TAIL_EMISSION
    ensures k >= 15 ==> ShiftRight(INITIAL_BLOCK_REWARD, k) < TAIL_EMISSION
  {
    if k < 15 { AboveTail(k); } else { BelowTail(k); }
  }

  /** The code's reward is the era's. */
  lemma RewardOfEra(k: nat)
    ensures RewardAfter(k) == EraReward(k)
  {
    HalvingsMeetTail(k);
  }

  lemma EraRewardFalls(j: nat, k: nat)
    requires j <= k
    ensures TAIL_EMISSION <= EraReward(k) <= EraReward(j)
  {
    HalvingsMeetTail(j);
    HalvingsMeetTail(k);
    ShiftFalls(INITIAL_BLOCK_REWARD, j, k);
  }

  lemma QuotientGrows(g: nat, h: nat)
    requires g <= h
    ensures g / HALVING_INTERVAL <= h / HALVING_INTERVAL
  {
  }

  /** Rewards never rise and never fall below the tail. */
  lemma RewardFalls(g: nat, h: nat)
    requires g <= h
    ensures TAIL_EMISSION <= BlockReward(h) <= BlockReward(g)
  {
    QuotientGrows(g, h);
    RewardOfEra(g / HALVING_INTERVAL);
    RewardOfEra(h / HALVING_INTERVAL);
    EraRewardFalls(g / HALVING_INTERVAL, h / HALVING_INTERVAL);
  }

  // ---- The cumulative schedule ----------------------------------------------------------------

  /** All rewards of heights below n. */
  function RewardsBelow(n: nat): nat {
    if n == 0 then 0 else RewardsBelow(n - 1) + BlockReward(n - 1)
  }

  /** One block's reward from each of the first k eras. */
  function SumEras(k: nat): nat {
    if k == 0 then 0 else SumEras(k - 1) + EraReward(k - 1)
  }

  /** k whole eras and r blocks of the next. */
  function EraTotal(k: nat, r: nat): nat {
    HALVING_INTERVAL * SumEras(k) + r * EraReward(k)
  }

  function Schedule(n: nat): nat {
    EraTotal(n / HALVING_INTERVAL, n % HALVING_INTERVAL)
  }

  lemma EraTotalStep(k: nat, r: nat)
    ensures EraTotal(k, r + 1) == EraTotal(k, r) + EraReward(k)
    ensures EraTotal(k, HALVING_INTERVAL) == EraTotal(k + 1, 0)
  {
    assert (r + 1) * EraReward(k) == r * EraReward(k) + EraReward(k);
  }

  lemma NextQuotient(n: nat)
    ensures var k, r := n / HALVING_INTERVAL, n % HALVING_INTERVAL;
            && (r + 1 < HALVING_INTERVAL ==> (n + 1) / HALVING_INTERVAL == k && (n + 1) % HALVING_INTERVAL == r + 1)
            && (r + 1 == HALVING_INTERVAL ==> (n + 1) / HALVING_INTERVAL == k + 1 && (n + 1) % HALVING_INTERVAL == 0)
            && r < HALVING_INTERVAL
  {
  }

  lemma ScheduleStep(n: nat)
    ensures Schedule(n + 1) == Schedule(n) + EraReward(n / HALVING_INTERVAL)
  {
    NextQuotient(n);
    EraTotalStep(n / HALVING_INTERVAL, n % HALVING_INTERVAL);
  }

  /** The running total has the closed form, at every height. */
  lemma {:induction false} RewardsFollowSchedule(n: nat)
    ensures RewardsBelow(n) == Schedule(n)
  {
    if n == 0 {
      assert Schedule(0) == EraTotal(0, 0);
    } else {
      RewardsFollowSchedule(n - 1);
      ScheduleStep(n - 1);
      RewardOfEra((n - 1) / HALVING_INTERVAL);
    }
  }

  lemma {:induction false} RewardsGrow(m: nat, n: nat)
    requires m <= n
    ensures RewardsBelow(m) <= RewardsBelow(n)
  {
    if m < n { RewardsGrow(m, n - 1); }
  }

  /** The last height at which a chain with a coinbase in every block is still below the cap. */
  const LAST_UNCAPPED_HEIGHT: nat := 133_762_500_124_799

  lemma AddEra(k: nat, reward: nat, sum: nat)
    requires k < 15 && ShiftRight(INITIAL_BLOCK_REWARD, k) == reward && SumEras(k) == sum
    ensures ShiftRight(INITIAL_BLOCK_REWARD, k + 1) == reward / 2 && SumEras(k + 1) == sum + reward
  {
  }

  /** What one block of each era pays in all. */
  lemma {:induction false} TailSum(k: nat)
    requires k >= 15
    ensures SumEras(k) == 7_999_754 + (k - 15) * TAIL_EMISSION
  {
    if k > 15 {
      TailSum(k - 1);
    } else {
      AddEra(k - 15, 4_000_000, 0);
      AddEra(k - 14, 2_000_000, 4_000_000);
      AddEra(k - 13, 1_000_000, 6_000_000);
      AddEra(k - 12, 500_000, 7_000_000);
      AddEra(k - 11, 250_000, 7_500_000);
      AddEra(k - 10, 125_000, 7_750_000);
      AddEra(k - 9, 62_500, 7_875_000);
      AddEra(k - 8, 31_250, 7_937_500);
      AddEra(k - 7, 15_625, 7_968_750);
      AddEra(k - 6, 7_812, 7_984_375);
      AddEra(k - 5, 3_906, 7_992_187);
      AddEra(k - 4, 1_953, 7_996_093);
      AddEra(k - 3, 976, 7_998_046);
      AddEra(k - 2, 488, 7_999_022);
      AddEra(k - 1, 244, 7_999_510);
    }
  }

  /** From the fifteenth halving on: all that the eras paid, and the tail for every block since. */
  lemma TailTotal(n: nat)
    requires n >= 15 * HALVING_INTERVAL
    ensures RewardsBelow(n) == HALVING_INTERVAL * 7_999_754 + (n - 15 * HALVING_INTERVAL) * TAIL_EMISSION
  {
    RewardsFollowSchedule(n);
    TailSum(n / HALVING_INTERVAL);
  }

  /** The total of heights 1 to n stays within the cap exactly up to that height, long past the fifteen eras. */
  lemma CapBindsAfter(n: nat)
    ensures PREMINE + RewardsBelow(n + 1) - BlockReward(0) <= MAX_SUPPLY <==> n <= LAST_UNCAPPED_HEIGHT
    ensures LAST_UNCAPPED_HEIGHT > 15 * HALVING_INTERVAL
  {
    assert BlockReward(0) == RewardAfter(0) == INITIAL_BLOCK_REWARD;
    if n + 1 >= 15 * HALVING_INTERVAL {
      TailTotal(n + 1);
    } else {
      RewardsGrow(n + 1, 15 * HALVING_INTERVAL);
      TailTotal(15 * HALVING_INTERVAL);
    }
  }
}
