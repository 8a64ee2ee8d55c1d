/**
 The chain as a value: `Chain` of `src/core/chain.rs` without its database.  The class of module
 ChainNode updates its fields in place and is proved to follow this specification.
 */
module Ledger {
  import opened Common
  import opened Blocks
  import opened Emission

  /** Header hash, transaction id and transaction verification, left abstract. */
  datatype Rules = Rules(headerHash: BlockHeader -> Bytes32, txId: Transaction -> Bytes32, txVerify: Transaction -> bool)

  function HashOf(rules: Rules, b: Block): Bytes32 {
    rules.headerHash(b.header)
  }

  /** The headers of some blocks; a header hash is assumed free of collisions only among such sets. */
  function Headers(bs: seq<Block>): set<BlockHeader> {
    set i | 0 <= i < |bs| :: bs[i].header
  }

  /** Distinct headers among the genesis block's and these have distinct hashes. */
  ghost predicate HashesApart(rules: Rules, genesis: Block, bs: seq<Block>) {
    InjectiveOn(rules.headerHash, {genesis.header} + Headers(bs))
  }

  /** Such a hash exists for every genesis block and list of blocks that can be written down. */
  lemma HashesCanBeApart(rules: Rules, genesis: Block, bs: seq<Block>) returns (some: Rules)
    requires |bs| < Pow(256, 32)
    ensures HashesApart(some, genesis, bs) && some == rules.(headerHash := some.headerHash)
  {
    HeadersCount(bs);
    var f := InjectiveHashExists({genesis.header} + Headers(bs));
    some := rules.(headerHash := f);
  }

  lemma {:induction false} HeadersCount(bs: seq<Block>)
    ensures |Headers(bs)| <= |bs|
  {
    if bs == [] {
      assert Headers(bs) == {};
    } else {
      var init := bs[..|bs| - 1];
      HeadersCount(init);
      HeadersSnoc(init, bs[|bs| - 1]);
      assert bs == init + [bs[|bs| - 1]];
    }
  }

  lemma HeadersSnoc(bs: seq<Block>, b: Block)
    ensures Headers(bs + [b]) == Headers(bs) + {b.header}
  {
    var more := bs + [b];
    assert more[|bs|] == b;
    forall i | 0 <= i < |bs| ensures bs[i].header in Headers(more) {
      assert more[i] == bs[i];
    }
  }

  datatype Utxo = Utxo(output: StealthOutput, blockHeight: u64, txId: Bytes32, index: u32)

  /** What transactions change. */
  datatype Accounts = Accounts(utxos: map<(Bytes32, u32), Utxo>, spent: set<Bytes>, supply: nat)

  datatype ChainState = ChainState(
    blocksByHash: map<Bytes32, Block>, blocksByHeight: seq<Bytes32>, accounts: Accounts, height: nat, tip: Bytes32
  )

  datatype ChainError =
    | HeightMismatch(expected: nat, got: u64)
    | InvalidPrevHash
    | TooManyCoinbases
    | CoinbaseNotFirst
    | DoubleSpendInBlock(keyImage: Bytes)
    | DoubleSpend(keyImage: Bytes)
    | InvalidTransaction

  // ---- Key images ----------------------------------------------------------------------

  function TxKeyImages(tx: Transaction): (ks: seq<Bytes>)
    ensures |ks| == |tx.inputs|
  {
    seq(|tx.inputs|, i requires 0 <= i < |tx.inputs| => tx.inputs[i].keyImage)
  }

  function KeyImages(txs: seq<Transaction>): seq<Bytes> {
    if txs == [] then [] else KeyImages(txs[..|txs| - 1]) + TxKeyImages(txs[|txs| - 1])
  }

  function ChainKeyImages(bs: seq<Block>): seq<Bytes> {
    if bs == [] then [] else ChainKeyImages(bs[..|bs| - 1]) + KeyImages(bs[|bs| - 1].transactions)
  }

  predicate Distinct(ks: seq<Bytes>) {
    forall i, j :: 0 <= i < j < |ks| ==> ks[i] != ks[j]
  }

  function SetOf(ks: seq<Bytes>): set<Bytes> {
    set k | k in ks
  }

  /** The first key image that repeats an earlier one. */
  function FirstRepeat(ks: seq<Bytes>): Option<Bytes> {
    if ks == [] then None
    else
      var r := FirstRepeat(ks[..|ks| - 1]);
      if r.Some? then r
      else if ks[|ks| - 1] in ks[..|ks| - 1] then Some(ks[|ks| - 1]) else None
  }

  /** The first key image already in `spent`. */
  function FirstSpent(ks: seq<Bytes>, spent: set<Bytes>): Option<Bytes> {
    if ks == [] then None
    else if ks[0] in spent then Some(ks[0])
    else FirstSpent(ks[1..], spent)
  }

  lemma {:induction false} NoRepeatIffDistinct(ks: seq<Bytes>)
    ensures FirstRepeat(ks).None? <==> Distinct(ks)
  {
    if ks != [] {
      var init := ks[..|ks| - 1];
      NoRepeatIffDistinct(init);
      if Distinct(init) && ks[|ks| - 1] !in init {
        forall i, j | 0 <= i < j < |ks| ensures ks[i] != ks[j] {
          assert ks[i] == init[i];
        }
      }
    }
  }

  lemma {:induction false} NoneSpentIffDisjoint(ks: seq<Bytes>, spent: set<Bytes>)
    ensures FirstSpent(ks, spent).None? <==> SetOf(ks) !! spent
  {
    if ks != [] {
      NoneSpentIffDisjoint(ks[1..], spent);
      assert SetOf(ks) == {ks[0]} + SetOf(ks[1..]);
    }
  }

  // ---- Applying transactions ---------------------------------------------------------------

  function AddOutputs(rules: Rules, utxos: map<(Bytes32, u32), Utxo>, tx: Transaction, height: u64, n: nat): map<(Bytes32, u32), Utxo>
    requires n <= |tx.outputs|
  {
    if n == 0 then utxos
    else
      var i: u32 := (n - 1) % U32;
      AddOutputs(rules, utxos, tx, height, n - 1)[(rules.txId(tx), i) := Utxo(tx.outputs[n - 1], height, rules.txId(tx), i)]
  }

  function ApplyTx(rules: Rules, a: Accounts, tx: Transaction, height: u64): Accounts {
    Accounts(AddOutputs(rules, a.utxos, tx, height, |tx.outputs|),
             a.spent + SetOf(TxKeyImages(tx)),
             if tx.txType.Coinbase? then Credit(a.supply, height) else a.supply)
  }

  function ApplyTxs(rules: Rules, a: Accounts, txs: seq<Transaction>, height: u64): Accounts {
    if txs == [] then a
    else ApplyTx(rules, ApplyTxs(rules, a, txs[..|txs| - 1], height), txs[|txs| - 1], height)
  }

  // ---- Chains ----------------------------------------------------------------------------------

  function Genesis(timestamp: int): Block {
    Block(BlockHeader(1, 0, timestamp, ZERO32, ZERO32, ZERO32, ValidatorCommitment(ZERO32, ZERO32), 0), [], [])
  }

  function NewChain(rules: Rules, genesis: Block): ChainState {
    ChainState(map[HashOf(rules, genesis) := genesis], [HashOf(rules, genesis)],
               Accounts(map[], {}, PREMINE), 0, HashOf(rules, genesis))
  }

  /** Everything an accepted block does to the in-memory chain, and what replay does with each stored one. */
  function Push(rules: Rules, st: ChainState, b: Block, height: nat): ChainState {
    ChainState(st.blocksByHash[HashOf(rules, b) := b], st.blocksByHeight + [HashOf(rules, b)],
               ApplyTxs(rules, st.accounts, b.transactions, b.header.height), height, HashOf(rules, b))
  }

  function BlockAt(st: ChainState, height: nat): Option<Block> {
    if height < |st.blocksByHeight| && st.blocksByHeight[height] in st.blocksByHash
    then Some(st.blocksByHash[st.blocksByHeight[height]]) else None
  }

  function Coinbases(txs: seq<Transaction>): nat {
    if txs == [] then 0
    else Coinbases(txs[..|txs| - 1]) + if txs[|txs| - 1].txType.Coinbase? then 1 else 0
  }

  function ValidateTx(rules: Rules, st: ChainState, tx: Transaction): Option<ChainError> {
    match FirstSpent(TxKeyImages(tx), st.accounts.spent)
    case Some(k) => Some(DoubleSpend(k))
    case None => if rules.txVerify(tx) then None else Some(InvalidTransaction)
  }

  /** The first error, in block order. */
  function ValidateTxs(rules: Rules, st: ChainState, txs: seq<Transaction>): Option<ChainError> {
    if txs == [] then None
    else
      var e := ValidateTxs(rules, st, txs[..|txs| - 1]);
      if e.Some? then e else ValidateTx(rules, st, txs[|txs| - 1])
  }

  function Check(rules: Rules, st: ChainState, b: Block): Option<ChainError> {
    if b.header.height != st.height + 1 then Some(HeightMismatch(st.height + 1, b.header.height))
    else if b.header.prevHash != st.tip then Some(InvalidPrevHash)
    else if Coinbases(b.transactions) > 1 then Some(TooManyCoinbases)
    else if Coinbases(b.transactions) == 1 && !b.transactions[0].txType.Coinbase? then Some(CoinbaseNotFirst)
    else
      match FirstRepeat(KeyImages(b.transactions))
      case Some(k) => Some(DoubleSpendInBlock(k))
      case None => ValidateTxs(rules, st, b.transactions)
  }

  function Append(rules: Rules, st: ChainState, b: Block): (ChainState, Option<ChainError>) {
    match Check(rules, st, b)
    case Some(e) => (st, Some(e))
    case None => (Push(rules, st, b, st.height + 1), None)
  }

  // ---- The chain of a list of blocks -----------------------------------------------------------------

  function Build(rules: Rules, genesis: Block, bs: seq<Block>): ChainState {
    if bs == [] then NewChain(rules, genesis)
    else Push(rules, Build(rules, genesis, bs[..|bs| - 1]), bs[|bs| - 1], |bs|)
  }

  ghost predicate Numbered(bs: seq<Block>) {
    forall i :: 0 <= i < |bs| ==> bs[i].header.height == i + 1
  }

  ghost predicate LinkedUp(rules: Rules, bs: seq<Block>) {
    forall i :: 0 < i < |bs| ==> bs[i].header.prevHash == HashOf(rules, bs[i - 1])
  }

  ghost predicate CoinbasesOk(bs: seq<Block>) {
    forall i :: 0 <= i < |bs| ==> Coinbases(bs[i].transactions) <= 1
  }

  ghost predicate AllVerified(rules: Rules, txs: seq<Transaction>) {
    forall i :: 0 <= i < |txs| ==> rules.txVerify(txs[i])
  }

  ghost predicate VerifiedAt(rules: Rules, bs: seq<Block>, i: int)
    requires 0 <= i < |bs|
  {
    AllVerified(rules, bs[i].transactions)
  }

  ghost predicate BlocksVerified(rules: Rules, bs: seq<Block>) {
    forall i {:trigger VerifiedAt(rules, bs, i)} :: 0 <= i < |bs| ==> VerifiedAt(rules, bs, i)
  }

  /** Block i+1 of the chain is `bs[i]`; the first links to whatever genesis it was accepted on. */
  ghost predicate Chained(rules: Rules, bs: seq<Block>) {
    && Numbered(bs) && LinkedUp(rules, bs) && CoinbasesOk(bs) && BlocksVerified(rules, bs)
    && Distinct(ChainKeyImages(bs))
  }

  lemma {:induction false} BuildShape(rules: Rules, genesis: Block, bs: seq<Block>)
    ensures var st := Build(rules, genesis, bs);
            && st.height == |bs| && |st.blocksByHeight| == |bs| + 1
            && st.blocksByHeight[0] == HashOf(rules, genesis)
            && (forall i :: 0 <= i < |bs| ==> st.blocksByHeight[i + 1] == HashOf(rules, bs[i]))
            && st.tip == st.blocksByHeight[|bs|]
  {
    if bs != [] { BuildShape(rules, genesis, bs[..|bs| - 1]); }
  }

  /** A pushed block is found at the new height, and hides no block of another hash. */
  lemma PushBlockAt(rules: Rules, st: ChainState, b: Block, n: nat, height: nat)
    requires height < |st.blocksByHeight| ==> st.blocksByHeight[height] != HashOf(rules, b)
    ensures BlockAt(Push(rules, st, b, n), height)
            == if height == |st.blocksByHeight| then Some(b) else BlockAt(st, height)
  {
  }

  /** Blocks are found again under their heights, the genesis block included. */
  lemma {:induction false} BuildBlockAt(rules: Rules, genesis: Block, bs: seq<Block>, height: nat)
    requires HashesApart(rules, genesis, bs) && genesis.header.height == 0 && Numbered(bs)
    ensures BlockAt(Build(rules, genesis, bs), height)
            == if height == 0 then Some(genesis) else if height <= |bs| then Some(bs[height - 1]) else None
  {
    if bs != [] {
      var init, last := bs[..|bs| - 1], bs[|bs| - 1];
      HeadersSnoc(init, last);
      assert bs == init + [last];
      BuildShape(rules, genesis, init);
      BuildBlockAt(rules, genesis, init, height);
      if height < |bs| {
        AtAnotherHeight(rules, genesis, bs, if height == 0 then genesis else bs[height - 1], last);
      }
      PushBlockAt(rules, Build(rules, genesis, init), last, |bs|, height);
    }
  }

  lemma AtAnotherHeight(rules: Rules, genesis: Block, bs: seq<Block>, a: Block, b: Block)
    requires HashesApart(rules, genesis, bs) && a.header.height != b.header.height
    requires (a == genesis || a in bs) && (b == genesis || b in bs)
    ensures HashOf(rules, a) != HashOf(rules, b)
  {
    assert a.header in {genesis.header} + Headers(bs) && b.header in {genesis.header} + Headers(bs);
    assert Apart(rules.headerHash, a.header, b.header);
  }

  lemma {:induction false} ApplySpent(rules: Rules, a: Accounts, txs: seq<Transaction>, height: u64)
    ensures ApplyTxs(rules, a, txs, height).spent == a.spent + SetOf(KeyImages(txs))
  {
    if txs != [] {
      ApplySpent(rules, a, txs[..|txs| - 1], height);
      SetOfConcat(KeyImages(txs[..|txs| - 1]), TxKeyImages(txs[|txs| - 1]));
    }
  }

  lemma SetOfConcat(a: seq<Bytes>, b: seq<Bytes>)
    ensures SetOf(a + b) == SetOf(a) + SetOf(b)
  {
  }

  /** The spent set is exactly the key images of the chain's blocks. */
  lemma {:induction false} BuildSpent(rules: Rules, genesis: Block, bs: seq<Block>)
    ensures Build(rules, genesis, bs).accounts.spent == SetOf(ChainKeyImages(bs))
  {
    if bs != [] {
      var init, last := bs[..|bs| - 1], bs[|bs| - 1];
      BuildSpent(rules, genesis, init);
      ApplySpent(rules, Build(rules, genesis, init).accounts, last.transactions, last.header.height);
      SetOfConcat(ChainKeyImages(init), KeyImages(last.transactions));
    }
  }

  lemma {:induction false} ValidatedUnspent(rules: Rules, st: ChainState, txs: seq<Transaction>)
    requires ValidateTxs(rules, st, txs).None?
    ensures SetOf(KeyImages(txs)) !! st.accounts.spent
  {
    if txs != [] {
      ValidatedUnspent(rules, st, txs[..|txs| - 1]);
      NoneSpentIffDisjoint(TxKeyImages(txs[|txs| - 1]), st.accounts.spent);
      SetOfConcat(KeyImages(txs[..|txs| - 1]), TxKeyImages(txs[|txs| - 1]));
    }
  }

  lemma {:induction false} ValidatedVerified(rules: Rules, st: ChainState, txs: seq<Transaction>)
    requires ValidateTxs(rules, st, txs).None?
    ensures AllVerified(rules, txs)
  {
    if txs != [] {
      var init := txs[..|txs| - 1];
      ValidatedVerified(rules, st, init);
      assert txs == init + [txs[|txs| - 1]];
    }
  }

  lemma DistinctConcat(a: seq<Bytes>, b: seq<Bytes>)
    requires Distinct(a) && Distinct(b) && SetOf(a) !! SetOf(b)
    ensures Distinct(a + b)
  {
    forall i, j | 0 <= i < j < |a + b| ensures (a + b)[i] != (a + b)[j] {
      if i < |a| <= j {
        assert a[i] in SetOf(a) && b[j - |a|] in SetOf(b);
      }
    }
  }

  /** Only block 0 and, on an empty chain, the tip depend on the genesis block. */
  lemma {:induction false} GenesisForgotten(rules: Rules, g: Block, h: Block, bs: seq<Block>)
    ensures Build(rules, g, bs).accounts == Build(rules, h, bs).accounts
    ensures bs != [] ==> Build(rules, g, bs).tip == Build(rules, h, bs).tip
  {
    if bs != [] { GenesisForgotten(rules, g, h, bs[..|bs| - 1]); }
  }

  lemma CheckFacts(rules: Rules, st: ChainState, b: Block)
    requires Check(rules, st, b).None?
    ensures b.header.height == st.height + 1 && b.header.prevHash == st.tip && Coinbases(b.transactions) <= 1
    ensures FirstRepeat(KeyImages(b.transactions)).None? && ValidateTxs(rules, st, b.transactions).None?
  {
  }

  lemma CheckedImagesDistinct(rules: Rules, genesis: Block, bs: seq<Block>, b: Block)
    requires Distinct(ChainKeyImages(bs)) && FirstRepeat(KeyImages(b.transactions)).None?
    requires ValidateTxs(rules, Build(rules, genesis, bs), b.transactions).None?
    ensures Distinct(ChainKeyImages(bs + [b]))
  {
    BuildSpent(rules, genesis, bs);
    ValidatedUnspent(rules, Build(rules, genesis, bs), b.transactions);
    NoRepeatIffDistinct(KeyImages(b.transactions));
    DistinctConcat(ChainKeyImages(bs), KeyImages(b.transactions));
    assert (bs + [b])[..|bs|] == bs;
  }

  lemma BuildSnoc(rules: Rules, genesis: Block, bs: seq<Block>, b: Block)
    ensures Build(rules, genesis, bs + [b]) == Push(rules, Build(rules, genesis, bs), b, |bs| + 1)
  {
    assert (bs + [b])[..|bs|] == bs;
  }

  lemma ExtendBlocks(rules: Rules, bs: seq<Block>, b: Block, tip: Bytes32)
    requires Numbered(bs) && LinkedUp(rules, bs) && CoinbasesOk(bs)
    requires bs != [] ==> tip == HashOf(rules, bs[|bs| - 1])
    requires b.header.height == |bs| + 1 && b.header.prevHash == tip && Coinbases(b.transactions) <= 1
    requires BlocksVerified(rules, bs) && AllVerified(rules, b.transactions)
    ensures Numbered(bs + [b]) && LinkedUp(rules, bs + [b]) && CoinbasesOk(bs + [b]) && BlocksVerified(rules, bs + [b])
  {
    forall i | 0 <= i < |bs + [b]| ensures VerifiedAt(rules, bs + [b], i) {
      if i < |bs| { assert VerifiedAt(rules, bs, i); }
    }
  }

  /** `st` is the chain of `bs` on this genesis, every block of which passed the checks. */
  ghost predicate Holds(rules: Rules, genesis: Block, st: ChainState, bs: seq<Block>) {
    && st == Build(rules, genesis, bs) && Chained(rules, bs)
    && (bs != [] ==> bs[0].header.prevHash == HashOf(rules, genesis))
  }

  function Taken(rules: Rules, st: ChainState, b: Block): seq<Block> {
    if Check(rules, st, b).None? then [b] else []
  }

  lemma TakenExtends(rules: Rules, genesis: Block, st: ChainState, bs: seq<Block>, b: Block)
    requires st == Build(rules, genesis, bs) && Chained(rules, bs) && Check(rules, st, b).None?
    ensures Chained(rules, bs + [b]) && Append(rules, st, b).0 == Build(rules, genesis, bs + [b])
    ensures bs == [] ==> b.header.prevHash == HashOf(rules, genesis)
  {
    CheckFacts(rules, st, b);
    BuildShape(rules, genesis, bs);
    CheckedImagesDistinct(rules, genesis, bs, b);
    ValidatedVerified(rules, st, b.transactions);
    ExtendBlocks(rules, bs, b, st.tip);
    BuildSnoc(rules, genesis, bs, b);
  }

  /** An accepted block extends the list; a rejected one changes nothing. */
  lemma AppendHolds(rules: Rules, genesis: Block, st: ChainState, bs: seq<Block>, b: Block)
    requires Holds(rules, genesis, st, bs)
    ensures Holds(rules, genesis, Append(rules, st, b).0, bs + Taken(rules, st, b))
    ensures Append(rules, st, b).1.Some? ==> Append(rules, st, b).0 == st
  {
    if Check(rules, st, b).None? {
      TakenExtends(rules, genesis, st, bs, b);
      assert bs + Taken(rules, st, b) == bs + [b];
    } else {
      assert bs + Taken(rules, st, b) == bs;
    }
  }

  // ---- Every run of appends -----------------------------------------------------------------------------

  ghost predicate Offers(rules: Rules, before: ChainState, b: Block, after: ChainState) {
    after == Append(rules, before, b).0
  }

  /** `states` is what a fresh chain goes through while blocks are offered to it one by one. */
  ghost predicate IsLedgerRun(rules: Rules, genesis: Block, offered: seq<Block>, states: seq<ChainState>) {
    && |states| == |offered| + 1 && states[0] == NewChain(rules, genesis)
    && forall i :: 0 <= i < |offered| ==> Offers(rules, states[i], offered[i], states[i + 1])
  }

  lemma {:induction false} RunHolds(rules: Rules, genesis: Block, offered: seq<Block>, states: seq<ChainState>, n: nat)
    returns (bs: seq<Block>)
    requires IsLedgerRun(rules, genesis, offered, states) && n <= |offered|
    ensures Holds(rules, genesis, states[n], bs) && Headers(bs) <= Headers(offered)
    decreases n
  {
    if n == 0 {
      bs := [];
    } else {
      var i := n - 1;
      bs := RunHolds(rules, genesis, offered, states, i);
      assert Offers(rules, states[i], offered[i], states[i + 1]);
      AppendHolds(rules, genesis, states[i], bs, offered[i]);
      HeadersSnoc(bs, offered[i]);
      bs := bs + Taken(rules, states[i], offered[i]);
    }
  }

  /** The block at a height, as a list of one or none. */
  function Found(st: ChainState, height: nat): seq<Block> {
    var b := BlockAt(st, height);
    if b.Some? then [b.value] else []
  }

  /** The blocks at heights 1 to n, as the chain gives them back. */
  function BlocksOf(st: ChainState, n: nat): seq<Block> {
    if n == 0 then [] else BlocksOf(st, n - 1) + Found(st, n)
  }

  lemma {:induction false} BlocksOfBuild(rules: Rules, genesis: Block, bs: seq<Block>, n: nat)
    requires HashesApart(rules, genesis, bs) && genesis.header.height == 0 && Numbered(bs) && n <= |bs|
    ensures BlocksOf(Build(rules, genesis, bs), n) == bs[..n]
  {
    if n > 0 {
      BlocksOfBuild(rules, genesis, bs, n - 1);
      BuildBlockAt(rules, genesis, bs, n);
    }
  }

  /** Block i is at height i, names block i-1 as its predecessor, and its transactions were verified. */
  ghost predicate InPlace(rules: Rules, st: ChainState, i: nat) {
    && BlockAt(st, i).Some? && BlockAt(st, i).value.header.height == i
    && (i > 0 ==> BlockAt(st, i - 1).Some? && AllVerified(rules, BlockAt(st, i).value.transactions)
                  && BlockAt(st, i).value.header.prevHash == HashOf(rules, BlockAt(st, i - 1).value))
  }

  lemma BuiltInPlace(rules: Rules, genesis: Block, bs: seq<Block>, i: nat)
    requires HashesApart(rules, genesis, bs) && genesis.header.height == 0 && Chained(rules, bs) && i <= |bs|
    requires bs != [] ==> bs[0].header.prevHash == HashOf(rules, genesis)
    ensures InPlace(rules, Build(rules, genesis, bs), i)
  {
    BuildBlockAt(rules, genesis, bs, i);
    if i > 0 {
      BuildBlockAt(rules, genesis, bs, i - 1);
      assert VerifiedAt(rules, bs, i - 1);
    }
  }

  /**
   Block i sits at height i and links to block i-1, above genesis all transactions were verified, the
   tip is the last block, and the key images of all the blocks are distinct and exactly the spent set.
   */
  ghost predicate LedgerOk(rules: Rules, genesis: Block, st: ChainState) {
    && BlockAt(st, 0) == Some(genesis)
    && (forall i :: 0 <= i <= st.height ==> InPlace(rules, st, i))
    && (forall i :: st.height < i ==> BlockAt(st, i).None?)
    && BlockAt(st, st.height).Some? && HashOf(rules, BlockAt(st, st.height).value) == st.tip
    && Distinct(ChainKeyImages(BlocksOf(st, st.height)))
    && SetOf(ChainKeyImages(BlocksOf(st, st.height))) == st.accounts.spent
  }

  lemma BuiltIsOk(rules: Rules, genesis: Block, bs: seq<Block>)
    requires HashesApart(rules, genesis, bs) && genesis.header.height == 0
    requires Holds(rules, genesis, Build(rules, genesis, bs), bs)
    ensures LedgerOk(rules, genesis, Build(rules, genesis, bs))
  {
    var st := Build(rules, genesis, bs);
    BuildShape(rules, genesis, bs);
    BuildSpent(rules, genesis, bs);
    BuildBlockAt(rules, genesis, bs, 0);
    BuildBlockAt(rules, genesis, bs, |bs|);
    BlocksOfBuild(rules, genesis, bs, |bs|);
    assert bs[..|bs|] == bs;
    forall i | 0 <= i <= st.height ensures InPlace(rules, st, i) {
      BuiltInPlace(rules, genesis, bs, i);
    }
    forall i | st.height < i ensures BlockAt(st, i).None? {
      BuildBlockAt(rules, genesis, bs, i);
    }
  }

  /**
   The ledger is in order after every run of appends, whatever blocks were offered, unless the hash
   collides on headers of this very run.
   */
  lemma LedgerInvariant(rules: Rules, genesis: Block, offered: seq<Block>, states: seq<ChainState>, n: nat)
    requires HashesApart(rules, genesis, offered) && genesis.header.height == 0
    requires IsLedgerRun(rules, genesis, offered, states) && n < |states|
    ensures LedgerOk(rules, genesis, states[n])
  {
    var bs := RunHolds(rules, genesis, offered, states, n);
    BuiltIsOk(rules, genesis, bs);
  }
}
