/** What the set of unspent outputs holds: `apply_block` of `src/core/chain.rs:378-408`, over whole chains. */
module UtxoSet {
  import opened Common
  import opened Blocks
  import opened Ledger
  import opened Admission

  type Key = (Bytes32, u32)

  predicate OutputAt(bs: seq<Block>, i: int, j: int, n: int) {
    0 <= i < |bs| && 0 <= j < |bs[i].transactions| && 0 <= n < |bs[i].transactions[j].outputs|
  }

  /** Output n of transaction j of block i is filed under this key, as this entry. */
  predicate Files(rules: Rules, bs: seq<Block>, i: int, j: int, n: int, key: Key, u: Utxo) {
    && OutputAt(bs, i, j, n)
    && var tx := bs[i].transactions[j];
       key == (rules.txId(tx), n % U32) && u == Utxo(tx.outputs[n], bs[i].header.height, rules.txId(tx), n % U32)
  }

  // ---- One transaction, then one block --------------------------------------------------------

  predicate FilesIn(rules: Rules, tx: Transaction, height: u64, n: int, key: Key, u: Utxo) {
    && 0 <= n < |tx.outputs|
    && key == (rules.txId(tx), n % U32) && u == Utxo(tx.outputs[n], height, rules.txId(tx), n % U32)
  }

  lemma {:induction false} OutputsAdded(rules: Rules, utxos: map<Key, Utxo>, tx: Transaction, height: u64, m: nat)
    requires m <= |tx.outputs|
    ensures var after := AddOutputs(rules, utxos, tx, height, m);
            && utxos.Keys <= after.Keys
            && (forall n :: 0 <= n < m ==> (rules.txId(tx), n % U32) in after)
            && (forall key :: key in after ==>
                  || (key in utxos && after[key] == utxos[key])
                  || exists n :: FilesIn(rules, tx, height, n, key, after[key]))
  {
    if m > 0 {
      OutputsAdded(rules, utxos, tx, height, m - 1);
      var before, after := AddOutputs(rules, utxos, tx, height, m - 1), AddOutputs(rules, utxos, tx, height, m);
      var last: Key := (rules.txId(tx), (m - 1) % U32);
      assert FilesIn(rules, tx, height, m - 1, last, after[last]);
      forall key | key in after && key != last ensures after[key] == before[key] {
      }
    }
  }

  predicate FilesAmong(rules: Rules, txs: seq<Transaction>, height: u64, j: int, n: int, key: Key, u: Utxo) {
    0 <= j < |txs| && FilesIn(rules, txs[j], height, n, key, u)
  }

  lemma {:induction false} BlockAdded(rules: Rules, a: Accounts, txs: seq<Transaction>, height: u64)
    ensures var after := ApplyTxs(rules, a, txs, height).utxos;
            && a.utxos.Keys <= after.Keys
            && (forall j, n :: 0 <= j < |txs| && 0 <= n < |txs[j].outputs| ==> (rules.txId(txs[j]), n % U32) in after)
            && (forall key :: key in after ==>
                  || (key in a.utxos && after[key] == a.utxos[key])
                  || exists j, n :: FilesAmong(rules, txs, height, j, n, key, after[key]))
  {
    if txs != [] {
      var m := |txs| - 1;
      var init, last := txs[..m], txs[m];
      var before := ApplyTxs(rules, a, init, height).utxos;
      var after := ApplyTxs(rules, a, txs, height).utxos;
      BlockAdded(rules, a, init, height);
      OutputsAdded(rules, before, last, height, |last.outputs|);
      forall key | key in after && !(key in a.utxos && after[key] == a.utxos[key])
        ensures exists j, n :: FilesAmong(rules, txs, height, j, n, key, after[key])
      {
        if key in before && after[key] == before[key] {
          var j, n :| FilesAmong(rules, init, height, j, n, key, before[key]);
          assert FilesAmong(rules, txs, height, j, n, key, after[key]);
        } else {
          var n :| FilesIn(rules, last, height, n, key, after[key]);
          assert FilesAmong(rules, txs, height, m, n, key, after[key]);
        }
      }
      forall j, n | 0 <= j < |txs| && 0 <= n < |txs[j].outputs| ensures (rules.txId(txs[j]), n % U32) in after {
        if j < m { assert init[j] == txs[j]; }
      }
    }
  }

  // ---- The whole chain ---------------------------------------------------------------------------

  /** The chain's set holds, under the key of each output of its blocks, one of the outputs of that key, and nothing else. */
  ghost predicate HoldsOutputs(rules: Rules, bs: seq<Block>, utxos: map<Key, Utxo>) {
    && (forall i, j, n :: OutputAt(bs, i, j, n) ==> (rules.txId(bs[i].transactions[j]), n % U32) in utxos)
    && (forall key :: key in utxos ==> exists i, j, n :: Files(rules, bs, i, j, n, key, utxos[key]))
  }

  lemma {:induction false} ChainHoldsOutputs(rules: Rules, genesis: Block, bs: seq<Block>)
    ensures HoldsOutputs(rules, bs, Build(rules, genesis, bs).accounts.utxos)
  {
    if bs != [] {
      var init, last := bs[..|bs| - 1], bs[|bs| - 1];
      ChainHoldsOutputs(rules, genesis, init);
      BlockHoldsOutputs(rules, Build(rules, genesis, init).accounts, init, last);
      assert bs == init + [last];
    }
  }

  lemma BlockHoldsOutputs(rules: Rules, a: Accounts, init: seq<Block>, last: Block)
    requires HoldsOutputs(rules, init, a.utxos)
    ensures HoldsOutputs(rules, init + [last], ApplyTxs(rules, a, last.transactions, last.header.height).utxos)
  {
    var bs, txs, height := init + [last], last.transactions, last.header.height;
    var after := ApplyTxs(rules, a, txs, height).utxos;
    BlockAdded(rules, a, txs, height);
    forall i, j, n | OutputAt(bs, i, j, n) ensures (rules.txId(bs[i].transactions[j]), n % U32) in after {
      if i < |init| { assert OutputAt(init, i, j, n); }
    }
    forall key | key in after ensures exists i, j, n :: Files(rules, bs, i, j, n, key, after[key]) {
      if key in a.utxos && after[key] == a.utxos[key] {
        var i, j, n :| Files(rules, init, i, j, n, key, a.utxos[key]);
        assert Files(rules, bs, i, j, n, key, after[key]);
      } else {
        var j, n :| FilesAmong(rules, txs, height, j, n, key, after[key]);
        assert Files(rules, bs, |init|, j, n, key, after[key]);
      }
    }
  }

  /** No two transactions of these blocks share an id, and none has more than 2^32 outputs. */
  ghost predicate IdsApart(rules: Rules, bs: seq<Block>) {
    && (forall i, j, n, i', j', n' ::
          (OutputAt(bs, i, j, n) && OutputAt(bs, i', j', n')
           && rules.txId(bs[i].transactions[j]) == rules.txId(bs[i'].transactions[j']))
          ==> i == i' && j == j')
    && (forall i, j, n :: OutputAt(bs, i, j, n) ==> n < U32)
  }

  /**
   In every state of every run the set holds the outputs of the chain's blocks and nothing else, and
   when ids do not collide, each of them under its own key: nothing is ever lost or replaced.
   */
  lemma UtxosOfRun(rules: Rules, genesis: Block, offered: seq<Block>, states: seq<ChainState>, m: nat)
    returns (bs: seq<Block>)
    requires IsLedgerRun(rules, genesis, offered, states) && m < |states|
    ensures Holds(rules, genesis, states[m], bs) && HoldsOutputs(rules, bs, states[m].accounts.utxos)
    ensures IdsApart(rules, bs) ==> forall i, j, n, key, u :: Files(rules, bs, i, j, n, key, u) ==>
              key in states[m].accounts.utxos && states[m].accounts.utxos[key] == u
  {
    bs := RunHolds(rules, genesis, offered, states, m);
    ChainHoldsOutputs(rules, genesis, bs);
    var utxos := states[m].accounts.utxos;
    if IdsApart(rules, bs) {
      forall i, j, n, key, u | Files(rules, bs, i, j, n, key, u) ensures key in utxos && utxos[key] == u {
        EachUnderItsKey(rules, bs, utxos, i, j, n, key, u);
      }
    }
  }

  lemma EachUnderItsKey(rules: Rules, bs: seq<Block>, utxos: map<Key, Utxo>, i: int, j: int, n: int, key: Key, u: Utxo)
    requires HoldsOutputs(rules, bs, utxos) && IdsApart(rules, bs) && Files(rules, bs, i, j, n, key, u)
    ensures key in utxos && utxos[key] == u
  {
    assert OutputAt(bs, i, j, n);
    var i', j', n' :| Files(rules, bs, i', j', n', key, utxos[key]);
    assert OutputAt(bs, i', j', n');
  }

  // ---- Without distinct ids ---------------------------------------------------------------------

  lemma LoneTransaction(rules: Rules, st: ChainState, b: Block, tx: Transaction)
    requires b.transactions == [tx] && tx.inputs == [] && rules.txVerify(tx) && Follows(st, b)
    ensures Append(rules, st, b) == (Push(rules, st, b, st.height + 1), None)
    ensures Push(rules, st, b, st.height + 1).accounts == ApplyTx(rules, st.accounts, tx, b.header.height)
  {
    AcceptedIff(rules, st, b);
    OnlyOne(rules, st.accounts, tx, b.header.height);
  }

  lemma OnlyOne(rules: Rules, a: Accounts, tx: Transaction, height: u64)
    ensures ApplyTxs(rules, a, [tx], height) == ApplyTx(rules, a, tx, height)
  {
    assert [tx][..0] == [];
    assert ApplyTxs(rules, a, [], height) == a;
  }

  /**
   A transaction without inputs that verifies is accepted in two blocks running, as no key image stands
   in the way; both file their one output under one key, and the first is lost.
   */
  lemma RepeatReplaces(rules: Rules, genesis: Block, tx: Transaction, b: Block, c: Block)
    requires tx.inputs == [] && |tx.outputs| == 1 && rules.txVerify(tx) && b.transactions == c.transactions == [tx]
    requires b.header.height == 1 && b.header.prevHash == HashOf(rules, genesis)
    requires c.header.height == 2 && c.header.prevHash == HashOf(rules, b)
    ensures var (one, e) := Append(rules, NewChain(rules, genesis), b);
            var (two, f) := Append(rules, one, c);
            && e.None? && f.None?
            && two.accounts.utxos == map[(rules.txId(tx), 0) := Utxo(tx.outputs[0], 2, rules.txId(tx), 0)]
  {
    var start := NewChain(rules, genesis);
    LoneTransaction(rules, start, b, tx);
    var one := Push(rules, start, b, 1);
    LoneTransaction(rules, one, c, tx);
    OneOutput(rules, start.accounts.utxos, tx, 1);
    OneOutput(rules, one.accounts.utxos, tx, 2);
    var two := Push(rules, one, c, 2);
    assert one.accounts.utxos == map[][(rules.txId(tx), 0) := Utxo(tx.outputs[0], 1, rules.txId(tx), 0)];
    assert two.accounts.utxos == map[(rules.txId(tx), 0) := Utxo(tx.outputs[0], 2, rules.txId(tx), 0)];
  }

  lemma OneOutput(rules: Rules, utxos: map<Key, Utxo>, tx: Transaction, height: u64)
    requires |tx.outputs| == 1
    ensures AddOutputs(rules, utxos, tx, height, 1)
            == utxos[(rules.txId(tx), 0) := Utxo(tx.outputs[0], height, rules.txId(tx), 0)]
  {
    assert AddOutputs(rules, utxos, tx, height, 0) == utxos;
  }
}
