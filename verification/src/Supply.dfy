/** The circulating supply of every chain the node accepts: `src/core/chain.rs:397-404`. */
module Supply {
  import opened Common
  import opened Blocks
  import opened Emission
  import opened Ledger

  function Reward(b: Block): nat {
    if Coinbases(b.transactions) > 0 then BlockReward(b.header.height) else 0
  }

  /** One reward for each block that bears a coinbase. */
  function Issued(bs: seq<Block>): nat {
    if bs == [] then 0 else Issued(bs[..|bs| - 1]) + Reward(bs[|bs| - 1])
  }

  lemma {:induction false} ApplySupply(rules: Rules, a: Accounts, txs: seq<Transaction>, height: u64)
    requires Coinbases(txs) <= 1
    ensures ApplyTxs(rules, a, txs, height).supply == if Coinbases(txs) == 1 then Credit(a.supply, height) else a.supply
  {
    if txs != [] { ApplySupply(rules, a, txs[..|txs| - 1], height); }
  }

  lemma CreditBelowCap(sum: nat, height: nat)
    ensures Credit(Min(MAX_SUPPLY, sum), height) == Min(MAX_SUPPLY, sum + BlockReward(height))
  {
    RewardFalls(0, height);
    assert BlockReward(0) == RewardAfter(0) == INITIAL_BLOCK_REWARD;
  }

  lemma {:induction false} BuildSupply(rules: Rules, genesis: Block, bs: seq<Block>)
    requires CoinbasesOk(bs)
    ensures Build(rules, genesis, bs).accounts.supply == Min(MAX_SUPPLY, PREMINE + Issued(bs))
  {
    if bs != [] {
      var init, last := bs[..|bs| - 1], bs[|bs| - 1];
      BuildSupply(rules, genesis, init);
      ApplySupply(rules, Build(rules, genesis, init).accounts, last.transactions, last.header.height);
      CreditBelowCap(PREMINE + Issued(init), last.header.height);
    }
  }

  lemma {:induction false} IssuedOnSchedule(bs: seq<Block>)
    requires Numbered(bs)
    ensures Issued(bs) + BlockReward(0) <= RewardsBelow(|bs| + 1)
    ensures (forall i :: 0 <= i < |bs| ==> Coinbases(bs[i].transactions) > 0) ==>
              Issued(bs) + BlockReward(0) == RewardsBelow(|bs| + 1)
  {
    if bs == [] {
      assert RewardsBelow(0) == 0;
    } else {
      IssuedOnSchedule(bs[..|bs| - 1]);
    }
  }

  /** Until a height long past the fifteen halving eras, the cap takes nothing. */
  lemma CapTakesNothing(bs: seq<Block>)
    requires Numbered(bs)
    ensures |bs| <= LAST_UNCAPPED_HEIGHT ==> PREMINE + Issued(bs) <= MAX_SUPPLY
  {
    IssuedOnSchedule(bs);
    CapBindsAfter(|bs|);
  }

  /**
   The supply after every run of appends: the premine and one reward for each coinbase-bearing block
   of the chain, cut at the cap, which takes nothing until long past the fifteen halving eras.
   */
  lemma SupplyOfRun(rules: Rules, genesis: Block, offered: seq<Block>, states: seq<ChainState>, n: nat)
    returns (bs: seq<Block>)
    requires IsLedgerRun(rules, genesis, offered, states) && n < |states|
    ensures Holds(rules, genesis, states[n], bs) && |bs| == states[n].height
    ensures states[n].accounts.supply == Min(MAX_SUPPLY, PREMINE + Issued(bs))
    ensures |bs| <= LAST_UNCAPPED_HEIGHT ==> states[n].accounts.supply == PREMINE + Issued(bs)
  {
    bs := RunHolds(rules, genesis, offered, states, n);
    BuildShape(rules, genesis, bs);
    BuildSupply(rules, genesis, bs);
    CapTakesNothing(bs);
  }
}
