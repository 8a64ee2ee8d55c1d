/** Pending transactions and their key-image index: `src/core/mempool.rs`. */
module Mempool {
  import opened Common
  import opened Blocks
  import opened Ledger

  const MAX_MEMPOOL_SIZE: nat := 50_000

  datatype PoolState = PoolState(txs: map<Bytes32, Transaction>, pending: map<Bytes, Bytes32>)

  datatype PoolError = Full | ImagePending(holder: Bytes32) | Unverified

  // ---- The specification ---------------------------------------------------------------------

  function FirstPending(ks: seq<Bytes>, pending: map<Bytes, Bytes32>): Option<Bytes32> {
    if ks == [] then None
    else if ks[0] in pending then Some(pending[ks[0]])
    else FirstPending(ks[1..], pending)
  }

  function Register(pending: map<Bytes, Bytes32>, ks: seq<Bytes>, id: Bytes32): map<Bytes, Bytes32> {
    pending + map k | k in ks :: id
  }

  lemma RegisterSnoc(pending: map<Bytes, Bytes32>, ks: seq<Bytes>, k: Bytes, id: Bytes32)
    ensures Register(pending, ks + [k], id) == Register(pending, ks, id)[k := id]
  {
  }

  function AddTx(rules: Rules, p: PoolState, tx: Transaction): (PoolState, Result<Bytes32, PoolError>) {
    if |p.txs| >= MAX_MEMPOOL_SIZE then (p, Err(Full))
    else match FirstPending(TxKeyImages(tx), p.pending)
      case Some(id) => (p, Err(ImagePending(id)))
      case None =>
        if !rules.txVerify(tx) then (p, Err(Unverified))
        else
          var id := rules.txId(tx);
          (PoolState(p.txs[id := tx], Register(p.pending, TxKeyImages(tx), id)), Ok(id))
  }

  function RemoveTx(p: PoolState, id: Bytes32): PoolState {
    if id in p.txs then PoolState(p.txs - {id}, p.pending - SetOf(TxKeyImages(p.txs[id]))) else p
  }

  function RemoveAll(p: PoolState, ids: seq<Bytes32>): PoolState {
    if ids == [] then p else RemoveTx(RemoveAll(p, ids[..|ids| - 1]), ids[|ids| - 1])
  }

  /** The holders of these key images, found before anything is removed. */
  function Holders(pending: map<Bytes, Bytes32>, ks: seq<Bytes>): seq<Bytes32> {
    if ks == [] then []
    else
      var k := ks[|ks| - 1];
      Holders(pending, ks[..|ks| - 1]) + if k in pending then [pending[k]] else []
  }

  function Purge(p: PoolState, spent: seq<Bytes>): PoolState {
    RemoveAll(p, Holders(p.pending, spent))
  }

  // ---- The pool as an object --------------------------------------------------------------------

  class Pool {
    const rules: Rules
    var txs: map<Bytes32, Transaction>
    var pendingKeyImages: map<Bytes, Bytes32>

    ghost function State(): PoolState
      reads this
    {
      PoolState(txs, pendingKeyImages)
    }

    constructor (rules: Rules)
      ensures this.rules == rules && State() == PoolState(map[], map[])
    {
      this.rules := rules;
      txs, pendingKeyImages := map[], map[];
    }

    method Conflict(tx: Transaction) returns (holder: Option<Bytes32>)
      ensures holder == FirstPending(TxKeyImages(tx), pendingKeyImages)
    {
      ghost var ks := TxKeyImages(tx);
      for i := 0 to |tx.inputs|
        invariant FirstPending(ks, pendingKeyImages) == FirstPending(ks[i..], pendingKeyImages)
      {
        var k := tx.inputs[i].keyImage;
        assert ks[i..][0] == k && ks[i..][1..] == ks[i + 1..];
        if k in pendingKeyImages { return Some(pendingKeyImages[k]); }
      }
      return None;
    }

    method RegisterImages(tx: Transaction, id: Bytes32)
      modifies this`pendingKeyImages
      ensures pendingKeyImages == Register(old(pendingKeyImages), TxKeyImages(tx), id)
    {
      ghost var ks := TxKeyImages(tx);
      for i := 0 to |tx.inputs|
        invariant pendingKeyImages == Register(old(pendingKeyImages), ks[..i], id)
      {
        assert ks[..i + 1] == ks[..i] + [tx.inputs[i].keyImage];
        RegisterSnoc(old(pendingKeyImages), ks[..i], tx.inputs[i].keyImage, id);
        pendingKeyImages := pendingKeyImages[tx.inputs[i].keyImage := id];
      }
      assert ks[..|tx.inputs|] == ks;
    }

    method Add(tx: Transaction) returns (r: Result<Bytes32, PoolError>)
      modifies this
      ensures (State(), r) == AddTx(rules, old(State()), tx)
    {
      if |txs| >= MAX_MEMPOOL_SIZE { return Err(Full); }
      var holder := Conflict(tx);
      if holder.Some? { return Err(ImagePending(holder.value)); }
      if !rules.txVerify(tx) { return Err(Unverified); }
      var id := rules.txId(tx);
      RegisterImages(tx, id);
      txs := txs[id := tx];
      return Ok(id);
    }

    method Remove(id: Bytes32)
      modifies this
      ensures State() == RemoveTx(old(State()), id)
    {
      if id in txs {
        var tx := txs[id];
        ghost var ks := TxKeyImages(tx);
        txs := txs - {id};
        for i := 0 to |tx.inputs|
          invariant txs == old(txs) - {id} && pendingKeyImages == old(pendingKeyImages) - SetOf(ks[..i])
        {
          assert ks[..i + 1] == ks[..i] + [tx.inputs[i].keyImage];
          pendingKeyImages := pendingKeyImages - {tx.inputs[i].keyImage};
        }
        assert ks[..|tx.inputs|] == ks;
      }
    }

    /** Some transactions of the pool, each once, as many as the limit allows, in any order. */
    method GetForBlock(limit: nat) returns (r: seq<Transaction>, ghost ids: seq<Bytes32>)
      ensures Selection(State(), r, ids) && |r| == Min(limit, |txs|)
    {
      r, ids := [], [];
      var left := txs.Keys;
      while left != {} && |r| < limit
        invariant left <= txs.Keys && |left| + |r| == |txs| && |r| <= limit
        invariant Selection(State(), r, ids) && forall i :: 0 <= i < |ids| ==> ids[i] !in left
        decreases |left|
      {
        var id :| id in left;
        r, ids := r + [txs[id]], ids + [id];
        left := left - {id};
      }
    }

    method PurgeSpent(spent: seq<Bytes>)
      modifies this
      ensures State() == Purge(old(State()), spent)
    {
      var toRemove: seq<Bytes32> := [];
      for i := 0 to |spent|
        invariant State() == old(State()) && toRemove == Holders(pendingKeyImages, spent[..i])
      {
        assert spent[..i + 1][..i] == spent[..i];
        if spent[i] in pendingKeyImages { toRemove := toRemove + [pendingKeyImages[spent[i]]]; }
      }
      assert spent[..|spent|] == spent;
      for i := 0 to |toRemove|
        invariant State() == RemoveAll(old(State()), toRemove[..i])
      {
        assert toRemove[..i + 1][..i] == toRemove[..i];
        Remove(toRemove[i]);
      }
      assert toRemove[..|toRemove|] == toRemove;
    }
  }

  /** Transactions drawn from the pool under distinct ids. */
  ghost predicate Selection(p: PoolState, r: seq<Transaction>, ids: seq<Bytes32>) {
    && |r| == |ids|
    && (forall i :: 0 <= i < |ids| ==> ids[i] in p.txs && r[i] == p.txs[ids[i]])
    && (forall i, j :: 0 <= i < j < |ids| ==> ids[i] != ids[j])
  }

  // ---- The index -------------------------------------------------------------------------------------

  predicate Holds(p: PoolState, id: Bytes32, k: Bytes) {
    id in p.txs && k in TxKeyImages(p.txs[id])
  }

  /** Every transaction was verified; the index maps exactly their key images, each to the one that has it. */
  ghost predicate Indexed(rules: Rules, p: PoolState) {
    && |p.txs| <= MAX_MEMPOOL_SIZE
    && (forall id :: id in p.txs ==> rules.txId(p.txs[id]) == id && rules.txVerify(p.txs[id]))
    && (forall k :: k in p.pending ==> Holds(p, p.pending[k], k))
    && (forall id, k :: Holds(p, id, k) ==> k in p.pending && p.pending[k] == id)
  }

  lemma {:induction false} NonePending(ks: seq<Bytes>, pending: map<Bytes, Bytes32>)
    ensures FirstPending(ks, pending).None? <==> forall k :: k in ks ==> k !in pending
  {
    if ks != [] {
      NonePending(ks[1..], pending);
      assert forall k :: k in ks <==> k == ks[0] || k in ks[1..];
    }
  }

  /** The pool's transactions are among these. */
  ghost predicate Drawn(p: PoolState, all: set<Transaction>) {
    forall id :: id in p.txs ==> p.txs[id] in all
  }

  /** An id already in the pool belongs to the same transaction, which would be a conflict or changes nothing. */
  lemma AddKeepsIndex(rules: Rules, p: PoolState, tx: Transaction, all: set<Transaction>)
    requires InjectiveOn(rules.txId, all) && tx in all && Drawn(p, all) && Indexed(rules, p)
    ensures Indexed(rules, AddTx(rules, p, tx).0) && Drawn(AddTx(rules, p, tx).0, all)
  {
    var (q, r) := AddTx(rules, p, tx);
    if r.Ok? {
      var id, ks := rules.txId(tx), TxKeyImages(tx);
      NonePending(ks, p.pending);
      forall k | k in q.pending ensures Holds(q, q.pending[k], k) {
        if k !in ks {
          assert Holds(p, p.pending[k], k);
          assert p.pending[k] == id ==> Apart(rules.txId, p.txs[id], tx);
        }
      }
      forall other, k | Holds(q, other, k) ensures k in q.pending && q.pending[k] == other {
        if other != id { assert Holds(p, other, k); }
      }
    }
  }

  /** A transaction shares a key image with one of the pool. */
  ghost predicate Conflicts(p: PoolState, tx: Transaction) {
    exists j: nat, id: Bytes32 :: ConflictsAt(p, tx, j, id)
  }

  ghost predicate ConflictsAt(p: PoolState, tx: Transaction, j: nat, id: Bytes32) {
    j < |tx.inputs| && Holds(p, id, tx.inputs[j].keyImage)
  }

  lemma ConflictIsPending(rules: Rules, p: PoolState, tx: Transaction)
    requires Indexed(rules, p)
    ensures Conflicts(p, tx) <==> FirstPending(TxKeyImages(tx), p.pending).Some?
  {
    var ks := TxKeyImages(tx);
    NonePending(ks, p.pending);
    if Conflicts(p, tx) {
      var j: nat, id: Bytes32 :| ConflictsAt(p, tx, j, id);
      assert ks[j] in ks && ks[j] in p.pending;
    }
    if k :| k in ks && k in p.pending {
      var j :| 0 <= j < |ks| && ks[j] == k;
      assert ConflictsAt(p, tx, j, p.pending[k]);
    }
  }

  /**
   A transaction is taken exactly when there is room, it shares no key image with a pending one and it
   verifies; then it is pending under its id and nothing else has changed, else nothing has.
   */
  lemma AddedIff(rules: Rules, p: PoolState, tx: Transaction)
    requires Indexed(rules, p)
    ensures var (q, r) := AddTx(rules, p, tx);
            && (r.Ok? <==> |p.txs| < MAX_MEMPOOL_SIZE && !Conflicts(p, tx) && rules.txVerify(tx))
            && (r.Ok? ==> r.value == rules.txId(tx) && q.txs == p.txs[r.value := tx])
            && (r.Err? ==> q == p)
            && (r == Err(Full) <==> |p.txs| >= MAX_MEMPOOL_SIZE)
            && (r == Err(Unverified) <==> |p.txs| < MAX_MEMPOOL_SIZE && !Conflicts(p, tx) && !rules.txVerify(tx))
  {
    ConflictIsPending(rules, p, tx);
  }

  lemma RemoveKeepsIndex(rules: Rules, p: PoolState, id: Bytes32)
    requires Indexed(rules, p)
    ensures Indexed(rules, RemoveTx(p, id))
  {
    var q := RemoveTx(p, id);
    if id in p.txs {
      assert |q.txs| <= |p.txs| by { assert q.txs.Keys == p.txs.Keys - {id}; }
      forall k | k in q.pending ensures Holds(q, q.pending[k], k) {
        assert Holds(p, p.pending[k], k);
      }
      forall other, k | Holds(q, other, k) ensures k in q.pending && q.pending[k] == other {
        assert Holds(p, other, k);
        if k in SetOf(TxKeyImages(p.txs[id])) { assert Holds(p, id, k); }
      }
    }
  }

  lemma {:induction false} RemoveAllKeepsIndex(rules: Rules, p: PoolState, ids: seq<Bytes32>)
    requires Indexed(rules, p)
    ensures Indexed(rules, RemoveAll(p, ids))
  {
    if ids != [] {
      RemoveAllKeepsIndex(rules, p, ids[..|ids| - 1]);
      RemoveKeepsIndex(rules, RemoveAll(p, ids[..|ids| - 1]), ids[|ids| - 1]);
    }
  }

  // ---- Every run ---------------------------------------------------------------------------------------

  datatype Op = Add(tx: Transaction) | Remove(id: Bytes32) | PurgeSpent(spent: seq<Bytes>)

  function Do(rules: Rules, p: PoolState, op: Op): PoolState {
    match op
    case Add(tx) => AddTx(rules, p, tx).0
    case Remove(id) => RemoveTx(p, id)
    case PurgeSpent(spent) => Purge(p, spent)
  }

  function DoAll(rules: Rules, ops: seq<Op>): PoolState {
    if ops == [] then PoolState(map[], map[]) else Do(rules, DoAll(rules, ops[..|ops| - 1]), ops[|ops| - 1])
  }

  /** The transactions offered to the pool in a run. */
  function Added(ops: seq<Op>): set<Transaction> {
    if ops == [] then {}
    else Added(ops[..|ops| - 1]) + if ops[|ops| - 1].Add? then {ops[|ops| - 1].tx} else {}
  }

  lemma {:induction false} DrawnFromAdded(rules: Rules, ops: seq<Op>, all: set<Transaction>)
    requires InjectiveOn(rules.txId, all) && Added(ops) <= all
    ensures Indexed(rules, DoAll(rules, ops)) && Drawn(DoAll(rules, ops), all)
  {
    if ops != [] {
      var p, op := DoAll(rules, ops[..|ops| - 1]), ops[|ops| - 1];
      DrawnFromAdded(rules, ops[..|ops| - 1], all);
      match op {
        case Add(tx) => AddKeepsIndex(rules, p, tx, all);
        case Remove(id) => RemoveKeepsIndex(rules, p, id);
        case PurgeSpent(spent) =>
          RemoveAllKeepsIndex(rules, p, Holders(p.pending, spent));
          RemoveAllDraws(p, Holders(p.pending, spent), all);
      }
    }
  }

  lemma {:induction false} RemoveAllDraws(p: PoolState, ids: seq<Bytes32>, all: set<Transaction>)
    requires Drawn(p, all)
    ensures Drawn(RemoveAll(p, ids), all)
  {
    if ids != [] { RemoveAllDraws(p, ids[..|ids| - 1], all); }
  }

  /**
   After any operations on transactions whose ids differ, every transaction of the pool was verified
   and the index is exact, so no two of them share a key image.
   */
  lemma PoolInvariant(rules: Rules, ops: seq<Op>)
    requires InjectiveOn(rules.txId, Added(ops))
    ensures Indexed(rules, DoAll(rules, ops))
    ensures forall id, other, k :: Holds(DoAll(rules, ops), id, k) && Holds(DoAll(rules, ops), other, k) ==> id == other
  {
    DrawnFromAdded(rules, ops, Added(ops));
  }

  /** Such ids exist for every run. */
  lemma IdsCanDiffer(rules: Rules, ops: seq<Op>) returns (some: Rules)
    requires |ops| <= Pow(256, 32)
    ensures InjectiveOn(some.txId, Added(ops)) && some == rules.(txId := some.txId)
  {
    AddedCount(ops);
    var f := InjectiveHashExists(Added(ops));
    some := rules.(txId := f);
  }

  lemma {:induction false} AddedCount(ops: seq<Op>)
    ensures |Added(ops)| <= |ops|
  {
    if ops != [] { AddedCount(ops[..|ops| - 1]); }
  }

  // ---- Purging against the chain ---------------------------------------------------------------------------

  lemma {:induction false} RemovedIsGone(p: PoolState, ids: seq<Bytes32>, id: Bytes32)
    ensures RemoveAll(p, ids).txs.Keys <= p.txs.Keys
    ensures id in RemoveAll(p, ids).txs ==> RemoveAll(p, ids).txs[id] == p.txs[id]
    ensures id in ids ==> id !in RemoveAll(p, ids).txs
  {
    if ids != [] { RemovedIsGone(p, ids[..|ids| - 1], id); }
  }

  lemma {:induction false} HolderIsFound(pending: map<Bytes, Bytes32>, ks: seq<Bytes>, k: Bytes)
    requires k in ks && k in pending
    ensures pending[k] in Holders(pending, ks)
  {
    if k in ks[..|ks| - 1] { HolderIsFound(pending, ks[..|ks| - 1], k); }
  }

  /** Nothing left after a purge has a purged key image. */
  lemma PurgedIsClean(rules: Rules, p: PoolState, spent: seq<Bytes>, id: Bytes32, k: Bytes)
    requires Indexed(rules, p) && Holds(Purge(p, spent), id, k)
    ensures k !in spent
  {
    RemovedIsGone(p, Holders(p.pending, spent), id);
    assert Holds(p, id, k);
    if k in spent { HolderIsFound(p.pending, spent, k); }
  }

  lemma {:induction false} HoldersHold(pending: map<Bytes, Bytes32>, ks: seq<Bytes>, id: Bytes32) returns (k: Bytes)
    requires id in Holders(pending, ks)
    ensures k in ks && k in pending && pending[k] == id
  {
    var last := ks[|ks| - 1];
    if last in pending && pending[last] == id {
      k := last;
    } else {
      k := HoldersHold(pending, ks[..|ks| - 1], id);
    }
  }

  lemma {:induction false} RemovedAreListed(p: PoolState, ids: seq<Bytes32>, id: Bytes32)
    requires id in p.txs && id !in ids
    ensures id in RemoveAll(p, ids).txs
  {
    if ids != [] { RemovedAreListed(p, ids[..|ids| - 1], id); }
  }

  /** A purge removes exactly the transactions that have one of the key images. */
  lemma PurgedIff(rules: Rules, p: PoolState, spent: seq<Bytes>, id: Bytes32)
    requires Indexed(rules, p)
    ensures id in Purge(p, spent).txs <==> id in p.txs && forall k :: k in spent ==> !Holds(p, id, k)
    ensures id in Purge(p, spent).txs ==> Purge(p, spent).txs[id] == p.txs[id]
  {
    var ids := Holders(p.pending, spent);
    RemovedIsGone(p, ids, id);
    if id in Purge(p, spent).txs {
      forall k | k in spent ensures !Holds(p, id, k) {
        if Holds(p, id, k) { PurgedIsClean(rules, p, spent, id, k); }
      }
    } else if id in p.txs {
      if id in ids {
        var k := HoldersHold(p.pending, spent, id);
        assert Holds(p, id, k);
      } else {
        RemovedAreListed(p, ids, id);
      }
    }
  }

  lemma {:induction false} SelectionImages(p: PoolState, r: seq<Transaction>, ids: seq<Bytes32>, k: Bytes)
    requires Selection(p, r, ids) && k in KeyImages(r)
    ensures exists i :: 0 <= i < |ids| && Holds(p, ids[i], k)
  {
    if k in TxKeyImages(r[|r| - 1]) {
      assert Holds(p, ids[|ids| - 1], k);
    } else {
      SelectionImages(p, r[..|r| - 1], ids[..|ids| - 1], k);
      var i :| 0 <= i < |ids| - 1 && Holds(p, ids[..|ids| - 1][i], k);
      assert Holds(p, ids[i], k);
    }
  }

  /** No transaction of the list repeats one of its own key images. */
  ghost predicate OwnImagesDiffer(txs: seq<Transaction>) {
    forall i :: 0 <= i < |txs| ==> Distinct(TxKeyImages(txs[i]))
  }

  lemma DistinctParts(a: seq<Bytes>, b: seq<Bytes>)
    requires Distinct(a + b)
    ensures Distinct(a) && Distinct(b)
  {
    var c := a + b;
    forall i, j | 0 <= i < j < |a| ensures a[i] != a[j] {
      assert c[i] != c[j];
    }
    forall i, j | 0 <= i < j < |b| ensures b[i] != b[j] {
      assert c[|a| + i] != c[|a| + j];
    }
  }

  lemma SelectedApart(rules: Rules, p: PoolState, r: seq<Transaction>, ids: seq<Bytes32>)
    requires Indexed(rules, p) && Selection(p, r, ids) && r != []
    ensures SetOf(KeyImages(r[..|r| - 1])) !! SetOf(TxKeyImages(r[|r| - 1]))
  {
    var init, ini, last := r[..|r| - 1], ids[..|ids| - 1], ids[|ids| - 1];
    forall k | k in SetOf(KeyImages(init)) ensures k !in SetOf(TxKeyImages(r[|r| - 1])) {
      SelectionImages(p, init, ini, k);
      var i :| 0 <= i < |ini| && Holds(p, ini[i], k);
      assert k in TxKeyImages(r[|r| - 1]) ==> Holds(p, last, k);
      assert p.pending[k] == ini[i] != last;
    }
  }

  /** Transactions drawn from the pool repeat a key image exactly when one of them does by itself. */
  lemma {:induction false} SelectionDistinct(rules: Rules, p: PoolState, r: seq<Transaction>, ids: seq<Bytes32>)
    requires Indexed(rules, p) && Selection(p, r, ids)
    ensures Distinct(KeyImages(r)) <==> OwnImagesDiffer(r)
  {
    if r != [] {
      var init, last := r[..|r| - 1], r[|r| - 1];
      SelectionDistinct(rules, p, init, ids[..|ids| - 1]);
      SelectedApart(rules, p, r, ids);
      if Distinct(KeyImages(r)) { DistinctParts(KeyImages(init), TxKeyImages(last)); }
      if OwnImagesDiffer(r) { DistinctConcat(KeyImages(init), TxKeyImages(last)); }
      assert OwnImagesDiffer(init) && Distinct(TxKeyImages(last)) <==> OwnImagesDiffer(r) by { OwnImagesSnoc(init, last, r); }
    }
  }

  lemma OwnImagesSnoc(init: seq<Transaction>, last: Transaction, r: seq<Transaction>)
    requires r == init + [last]
    ensures OwnImagesDiffer(r) <==> OwnImagesDiffer(init) && Distinct(TxKeyImages(last))
  {
    if OwnImagesDiffer(r) {
      assert r[|init|] == last;
      forall i | 0 <= i < |init| ensures Distinct(TxKeyImages(init[i])) {
        assert r[i] == init[i];
      }
    }
  }

  lemma {:induction false} UnspentPasses(rules: Rules, st: ChainState, txs: seq<Transaction>)
    requires SetOf(KeyImages(txs)) !! st.accounts.spent
    ensures ValidateTxs(rules, st, txs).None? || ValidateTxs(rules, st, txs).value == InvalidTransaction
  {
    if txs != [] {
      SetOfConcat(KeyImages(txs[..|txs| - 1]), TxKeyImages(txs[|txs| - 1]));
      UnspentPasses(rules, st, txs[..|txs| - 1]);
      NoneSpentIffDisjoint(TxKeyImages(txs[|txs| - 1]), st.accounts.spent);
    }
  }

  function IsDoubleSpend(e: Option<ChainError>): bool {
    e.Some? && (e.value.DoubleSpend? || e.value.DoubleSpendInBlock?)
  }

  lemma {:induction false} CoinbaseAddsNoImages(coinbase: Transaction, txs: seq<Transaction>)
    requires coinbase.inputs == []
    ensures KeyImages([coinbase] + txs) == KeyImages(txs)
  {
    var all := [coinbase] + txs;
    if txs == [] {
      assert all[..0] == [];
    } else {
      assert all[..|all| - 1] == [coinbase] + txs[..|txs| - 1];
      CoinbaseAddsNoImages(coinbase, txs[..|txs| - 1]);
    }
  }

  /** The checks before those on key images pass: height, link, and at most one coinbase, in front. */
  predicate Fits(st: ChainState, b: Block) {
    && b.header.height == st.height + 1 && b.header.prevHash == st.tip
    && Coinbases(b.transactions) <= 1
    && (Coinbases(b.transactions) == 1 ==> b.transactions[0].txType.Coinbase?)
  }

  lemma DoubleSpendMeans(rules: Rules, st: ChainState, b: Block)
    requires SetOf(KeyImages(b.transactions)) !! st.accounts.spent
    ensures IsDoubleSpend(Append(rules, st, b).1) <==> Fits(st, b) && FirstRepeat(KeyImages(b.transactions)).Some?
  {
    UnspentPasses(rules, st, b.transactions);
  }

  lemma PurgedUnspent(rules: Rules, before: PoolState, spent: seq<Bytes>, st: ChainState, r: seq<Transaction>, ids: seq<Bytes32>)
    requires Indexed(rules, before) && st.accounts.spent <= SetOf(spent) && Selection(Purge(before, spent), r, ids)
    ensures SetOf(KeyImages(r)) !! st.accounts.spent
  {
    var p := Purge(before, spent);
    forall k | k in SetOf(KeyImages(r)) ensures k !in st.accounts.spent {
      SelectionImages(p, r, ids, k);
      var i :| 0 <= i < |ids| && Holds(p, ids[i], k);
      PurgedIsClean(rules, before, spent, ids[i], k);
    }
  }

  /**
   A block of a coinbase and transactions drawn from the pool, purged of what the chain has spent, is
   refused as a double spend exactly when it fits on the chain and one of the drawn transactions
   repeats one of its own key images, which nothing in the pool checks.
   */
  lemma PurgedPoolDoubleSpendsIff(
    rules: Rules, ops: seq<Op>, st: ChainState, spent: seq<Bytes>, r: seq<Transaction>, ids: seq<Bytes32>,
    coinbase: Transaction, b: Block)
    requires InjectiveOn(rules.txId, Added(ops)) && st.accounts.spent <= SetOf(spent)
    requires Selection(Purge(DoAll(rules, ops), spent), r, ids)
    requires coinbase.inputs == [] && b.transactions == [coinbase] + r
    ensures IsDoubleSpend(Append(rules, st, b).1) <==> Fits(st, b) && !OwnImagesDiffer(r)
  {
    var before := DoAll(rules, ops);
    PoolInvariant(rules, ops);
    RemoveAllKeepsIndex(rules, before, Holders(before.pending, spent));
    CoinbaseAddsNoImages(coinbase, r);
    PurgedUnspent(rules, before, spent, st, r, ids);
    SelectionDistinct(rules, Purge(before, spent), r, ids);
    NoRepeatIffDistinct(KeyImages(r));
    DoubleSpendMeans(rules, st, b);
  }
}
