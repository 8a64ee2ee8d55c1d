/** `Chain` of `src/core/chain.rs` as an object: validated append in place, and replay from the database. */
module ChainNode {
  import opened Common
  import opened Blocks
  import opened Emission
  import opened Ledger
  import opened Database
  import opened Recovery

  // ---- The specification's functions, prefix by prefix --------------------------------------

  lemma {:induction false} RepeatStays(ks: seq<Bytes>, n: nat)
    requires n <= |ks| && FirstRepeat(ks[..n]).Some?
    ensures FirstRepeat(ks) == FirstRepeat(ks[..n])
  {
    if n < |ks| {
      assert ks[..|ks| - 1][..n] == ks[..n];
      RepeatStays(ks[..|ks| - 1], n);
    } else {
      assert ks[..n] == ks;
    }
  }

  lemma RepeatSnoc(ks: seq<Bytes>, k: Bytes)
    requires FirstRepeat(ks) == None
    ensures FirstRepeat(ks + [k]) == if k in ks then Some(k) else None
  {
    assert (ks + [k])[..|ks|] == ks;
  }

  lemma RepeatFound(ks: seq<Bytes>, images: seq<Bytes>, j: nat)
    requires j < |images| && FirstRepeat(ks + images[..j]) == None && images[j] in ks + images[..j]
    ensures FirstRepeat(ks + images) == Some(images[j])
  {
    RepeatSnoc(ks + images[..j], images[j]);
    assert (ks + images[..j]) + [images[j]] == (ks + images)[..|ks| + j + 1];
    RepeatStays(ks + images, |ks| + j + 1);
  }

  lemma {:induction false} ErrorStays(rules: Rules, st: ChainState, txs: seq<Transaction>, n: nat)
    requires n <= |txs| && ValidateTxs(rules, st, txs[..n]).Some?
    ensures ValidateTxs(rules, st, txs) == ValidateTxs(rules, st, txs[..n])
  {
    if n < |txs| {
      assert txs[..|txs| - 1][..n] == txs[..n];
      ErrorStays(rules, st, txs[..|txs| - 1], n);
    } else {
      assert txs[..n] == txs;
    }
  }

  lemma {:induction false} RepeatInPrefix(txs: seq<Transaction>, n: nat)
    requires n <= |txs| && FirstRepeat(KeyImages(txs[..n])).Some?
    ensures FirstRepeat(KeyImages(txs)) == FirstRepeat(KeyImages(txs[..n]))
  {
    if n < |txs| {
      var init := txs[..|txs| - 1];
      assert init[..n] == txs[..n];
      RepeatInPrefix(init, n);
      assert KeyImages(txs)[..|KeyImages(init)|] == KeyImages(init);
      RepeatStays(KeyImages(txs), |KeyImages(init)|);
    } else {
      assert txs[..n] == txs;
    }
  }

  class Chain {
    const rules: Rules
    var blocksByHash: map<Bytes32, Block>
    var blocksByHeight: seq<Bytes32>
    var utxoSet: map<(Bytes32, u32), Utxo>
    var spentKeyImages: set<Bytes>
    var circulatingSupply: nat
    var height: nat
    var tipHash: Bytes32
    const db: Option<Db>

    ghost function State(): ChainState
      reads this
    {
      ChainState(blocksByHash, blocksByHeight, Funds(), height, tipHash)
    }

    ghost function Funds(): Accounts
      reads this
    {
      Accounts(utxoSet, spentKeyImages, circulatingSupply)
    }

    /** A chain kept only in memory. */
    constructor (rules: Rules, genesis: Block)
      ensures this.rules == rules && db == None && State() == NewChain(rules, genesis)
    {
      this.rules := rules;
      var hash := HashOf(rules, genesis);
      blocksByHash, blocksByHeight := map[hash := genesis], [hash];
      utxoSet, spentKeyImages, circulatingSupply := map[], {}, PREMINE;
      height, tipHash := 0, hash;
      db := None;
    }

    /** A chain restored from `db`, which it then writes to. */
    constructor Reopen(rules: Rules, genesis: Block, db: Db)
      ensures this.rules == rules && this.db == Some(db)
      ensures State() == Open(rules, db.codec, db.Contents(), genesis)
    {
      this.rules := rules;
      var hash := HashOf(rules, genesis);
      blocksByHash, blocksByHeight := map[hash := genesis], [hash];
      utxoSet, spentKeyImages, circulatingSupply := map[], {}, PREMINE;
      height, tipHash := 0, hash;
      this.db := Some(db);
      new;
      var saved := db.Load();
      if saved.Ok? && saved.value.Some? && saved.value.value.0 > 0 {
        ReplayBlocks(db, genesis, saved.value.value.0);
      }
    }

    /** `for h in 1..=n`, leaving the loop at the first block that cannot be read. */
    method ReplayBlocks(db: Db, ghost genesis: Block, n: u64)
      requires State() == NewChain(rules, genesis)
      modifies this
      ensures State() == Replay(rules, db.codec, db.Contents(), genesis, n).0
    {
      ghost var store := db.Contents();
      var h: u64 := 0;
      var stopped := false;
      while h < n && !stopped
        invariant h <= n
        invariant (State(), stopped) == Replay(rules, db.codec, store, genesis, h)
      {
        h := h + 1;
        var r := db.ByHeight(h);
        match r {
          case Ok(Some(b)) => Take(b, h);
          case _ => stopped := true;
        }
      }
      StoppedStays(rules, db.codec, store, genesis, h, n);
    }

    method At(h: nat) returns (b: Option<Block>)
      ensures b == BlockAt(State(), h)
    {
      if h >= |blocksByHeight| { return None; }
      if blocksByHeight[h] !in blocksByHash { return None; }
      return Some(blocksByHash[blocksByHeight[h]]);
    }

    method ValidateTransaction(tx: Transaction) returns (e: Option<ChainError>)
      ensures e == ValidateTx(rules, State(), tx)
    {
      ghost var ks := TxKeyImages(tx);
      for i := 0 to |tx.inputs|
        invariant FirstSpent(ks, spentKeyImages) == FirstSpent(ks[i..], spentKeyImages)
      {
        assert ks[i..][0] == tx.inputs[i].keyImage && ks[i..][1..] == ks[i + 1..];
        if tx.inputs[i].keyImage in spentKeyImages { return Some(DoubleSpend(tx.inputs[i].keyImage)); }
      }
      if !rules.txVerify(tx) { return Some(InvalidTransaction); }
      return None;
    }

    /** Validation of all transactions, which the source spreads over threads. */
    method ValidateAll(txs: seq<Transaction>) returns (e: Option<ChainError>)
      ensures e == ValidateTxs(rules, State(), txs)
    {
      for i := 0 to |txs|
        invariant ValidateTxs(rules, State(), txs[..i]) == None
      {
        assert txs[..i + 1][..i] == txs[..i];
        e := ValidateTransaction(txs[i]);
        if e.Some? {
          ErrorStays(rules, State(), txs, i + 1);
          return;
        }
      }
      assert txs[..|txs|] == txs;
      return None;
    }

    /** One transaction's share of the within-block uniqueness check. */
    method SeeInputs(tx: Transaction, seen: set<Bytes>, ghost ks: seq<Bytes>) returns (r: Option<Bytes>, after: set<Bytes>)
      requires seen == SetOf(ks) && FirstRepeat(ks) == None
      ensures r == FirstRepeat(ks + TxKeyImages(tx))
      ensures r.None? ==> after == SetOf(ks + TxKeyImages(tx))
    {
      after := seen;
      ghost var images, done := TxKeyImages(tx), ks;
      for j := 0 to |tx.inputs|
        invariant done == ks + images[..j] && after == SetOf(done) && FirstRepeat(done) == None
      {
        var k := tx.inputs[j].keyImage;
        if k in after {
          RepeatFound(ks, images, j);
          return Some(k), after;
        }
        RepeatSnoc(done, k);
        SetOfConcat(done, [k]);
        after, done := after + {k}, done + [k];
      }
      assert done == ks + images;
      r := None;
    }

    /** Within-block uniqueness of key images. */
    method RepeatedImage(txs: seq<Transaction>) returns (r: Option<Bytes>)
      ensures r == FirstRepeat(KeyImages(txs))
    {
      var seen: set<Bytes> := {};
      for i := 0 to |txs|
        invariant seen == SetOf(KeyImages(txs[..i])) && FirstRepeat(KeyImages(txs[..i])) == None
      {
        assert txs[..i + 1][..i] == txs[..i];
        r, seen := SeeInputs(txs[i], seen, KeyImages(txs[..i]));
        if r.Some? {
          RepeatInPrefix(txs, i + 1);
          return;
        }
      }
      assert txs[..|txs|] == txs;
      return None;
    }

    method SpendInputs(tx: Transaction)
      modifies this`spentKeyImages
      ensures spentKeyImages == old(spentKeyImages) + SetOf(TxKeyImages(tx))
    {
      for i := 0 to |tx.inputs|
        invariant spentKeyImages == old(spentKeyImages) + SetOf(TxKeyImages(tx)[..i])
      {
        assert TxKeyImages(tx)[..i + 1] == TxKeyImages(tx)[..i] + [tx.inputs[i].keyImage];
        spentKeyImages := spentKeyImages + {tx.inputs[i].keyImage};
      }
      assert TxKeyImages(tx)[..|tx.inputs|] == TxKeyImages(tx);
    }

    method StoreOutputs(tx: Transaction, blockHeight: u64)
      modifies this`utxoSet
      ensures utxoSet == AddOutputs(rules, old(utxoSet), tx, blockHeight, |tx.outputs|)
    {
      var id := rules.txId(tx);
      for i := 0 to |tx.outputs|
        invariant utxoSet == AddOutputs(rules, old(utxoSet), tx, blockHeight, i)
      {
        var index: u32 := i % U32;
        utxoSet := utxoSet[(id, index) := Utxo(tx.outputs[i], blockHeight, id, index)];
      }
    }

    method ApplyBlock(b: Block)
      modifies this`spentKeyImages, this`utxoSet, this`circulatingSupply
      ensures Funds() == ApplyTxs(rules, old(Funds()), b.transactions, b.header.height)
    {
      for i := 0 to |b.transactions|
        invariant Funds() == ApplyTxs(rules, old(Funds()), b.transactions[..i], b.header.height)
      {
        var tx := b.transactions[i];
        assert b.transactions[..i + 1][..i] == b.transactions[..i];
        SpendInputs(tx);
        StoreOutputs(tx, b.header.height);
        if tx.txType.Coinbase? {
          circulatingSupply := Min(SaturatingAdd(circulatingSupply, BlockReward(b.header.height)), MAX_SUPPLY);
        }
      }
      assert b.transactions[..|b.transactions|] == b.transactions;
    }

    /** Applies a block and makes it the tip. */
    method Take(b: Block, newHeight: nat)
      modifies this
      ensures State() == Push(rules, old(State()), b, newHeight)
    {
      var hash := HashOf(rules, b);
      ApplyBlock(b);
      height := newHeight;
      tipHash := hash;
      blocksByHeight := blocksByHeight + [hash];
      blocksByHash := blocksByHash[hash := b];
    }

    /** Checks and takes a block, then writes it and the new height to the database, if there is one. */
    method AppendBlock(b: Block) returns (e: Option<ChainError>)
      requires db.Some? ==> db.value.rules == rules
      modifies this, if db.Some? then {db.value} else {}
      ensures (State(), e) == Append(rules, old(State()), b)
      ensures db.Some? && e.Some? ==> db.value.Contents() == old(db.value.Contents())
      ensures db.Some? && e.None? ==> db.value.Contents() == Record(rules, db.value.codec, old(db.value.Contents()), b)
    {
      if b.header.height != height + 1 { return Some(HeightMismatch(height + 1, b.header.height)); }
      if b.header.prevHash != tipHash { return Some(InvalidPrevHash); }
      var coinbases := Coinbases(b.transactions);
      if coinbases > 1 { return Some(TooManyCoinbases); }
      if coinbases == 1 && !b.transactions[0].txType.Coinbase? { return Some(CoinbaseNotFirst); }
      var repeated := RepeatedImage(b.transactions);
      if repeated.Some? { return Some(DoubleSpendInBlock(repeated.value)); }
      e := ValidateAll(b.transactions);
      if e.Some? { return; }
      Take(b, height + 1);
      if db.Some? {
        db.value.Put(b);
        db.value.Save(height, tipHash);
      }
    }
  }

  lemma {:induction false} StoppedStays(rules: Rules, codec: Codec, db: Store, genesis: Block, h: u64, n: u64)
    requires h <= n && (h == n || Replay(rules, codec, db, genesis, h).1)
    ensures Replay(rules, codec, db, genesis, n).0 == Replay(rules, codec, db, genesis, h).0
    ensures h < n ==> Replay(rules, codec, db, genesis, n).1
    decreases n
  {
    if h < n { StoppedStays(rules, codec, db, genesis, h, n - 1); }
  }
}
