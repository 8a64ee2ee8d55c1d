/** What a block needs to be accepted, and what it is refused for, in terms of its fields: `src/core/chain.rs:282-375`. */
module Admission {
  import opened Common
  import opened Blocks
  import opened Ledger

  // ---- Key images by position ---------------------------------------------------------------

  predicate IsInput(txs: seq<Transaction>, i: int, j: int) {
    0 <= i < |txs| && 0 <= j < |txs[i].inputs|
  }

  function Image(txs: seq<Transaction>, i: int, j: int): Bytes
    requires IsInput(txs, i, j)
  {
    txs[i].inputs[j].keyImage
  }

  /** Input j of transaction i carries this key image. */
  predicate ImageIs(txs: seq<Transaction>, i: int, j: int, k: Bytes) {
    IsInput(txs, i, j) && Image(txs, i, j) == k
  }

  /** No two inputs carry one key image. */
  ghost predicate NoneRepeats(txs: seq<Transaction>) {
    forall i, j, m, n, k :: ImageIs(txs, i, j, k) && ImageIs(txs, m, n, k) ==> i == m && j == n
  }

  ghost predicate NoneSpent(txs: seq<Transaction>, spent: set<Bytes>) {
    forall i, j, k :: ImageIs(txs, i, j, k) ==> k !in spent
  }

  lemma {:induction false} ImageOfSome(txs: seq<Transaction>, k: Bytes) returns (i: int, j: int)
    requires k in KeyImages(txs)
    ensures ImageIs(txs, i, j, k)
  {
    var init, last := txs[..|txs| - 1], txs[|txs| - 1];
    if k in TxKeyImages(last) {
      i := |txs| - 1;
      j :| 0 <= j < |last.inputs| && TxKeyImages(last)[j] == k;
    } else {
      i, j := ImageOfSome(init, k);
    }
  }

  lemma {:induction false} ImageIsListed(txs: seq<Transaction>, i: int, j: int)
    requires IsInput(txs, i, j)
    ensures Image(txs, i, j) in KeyImages(txs)
  {
    var init := txs[..|txs| - 1];
    if i < |init| {
      ImageIsListed(init, i, j);
    } else {
      assert TxKeyImages(txs[i])[j] == Image(txs, i, j);
    }
  }

  lemma DistinctHalves(a: seq<Bytes>, b: seq<Bytes>)
    ensures Distinct(a + b) <==> Distinct(a) && Distinct(b) && forall k :: !(k in a && k in b)
  {
    var c := a + b;
    if Distinct(c) {
      forall i, j | 0 <= i < j < |a| ensures a[i] != a[j] { assert c[i] != c[j]; }
      forall i, j | 0 <= i < j < |b| ensures b[i] != b[j] { assert c[|a| + i] != c[|a| + j]; }
      forall i, j | 0 <= i < |a| && 0 <= j < |b| ensures a[i] != b[j] { assert c[i] != c[|a| + j]; }
    } else if Distinct(a) && Distinct(b) {
      var i, j :| 0 <= i < j < |c| && c[i] == c[j];
      assert i < |a| <= j;
      assert a[i] in b;
    }
  }

  lemma NoneRepeatsInit(txs: seq<Transaction>)
    requires txs != []
    ensures var init, last := txs[..|txs| - 1], txs[|txs| - 1];
            NoneRepeats(txs) <==> NoneRepeats(init) && Distinct(TxKeyImages(last))
                                  && forall k :: !(k in KeyImages(init) && k in TxKeyImages(last))
  {
    var n := |txs| - 1;
    var init, last := txs[..n], txs[n];
    if NoneRepeats(txs) {
      forall i, j, m, l, k | ImageIs(init, i, j, k) && ImageIs(init, m, l, k) ensures i == m && j == l {
        assert ImageIs(txs, i, j, k) && ImageIs(txs, m, l, k);
      }
      forall j, l | 0 <= j < l < |last.inputs| ensures TxKeyImages(last)[j] != TxKeyImages(last)[l] {
        assert ImageIs(txs, n, j, TxKeyImages(last)[j]) && ImageIs(txs, n, l, TxKeyImages(last)[l]);
      }
      forall k | k in KeyImages(init) && k in TxKeyImages(last) ensures false {
        var i, j := ImageOfSome(init, k);
        var l :| 0 <= l < |last.inputs| && TxKeyImages(last)[l] == k;
        assert ImageIs(txs, i, j, k) && ImageIs(txs, n, l, k);
      }
    } else if NoneRepeats(init) && Distinct(TxKeyImages(last)) {
      var i, j, m, l, k :| ImageIs(txs, i, j, k) && ImageIs(txs, m, l, k) && !(i == m && j == l);
      RepeatCrosses(txs, i, j, m, l, k);
    }
  }

  lemma RepeatCrosses(txs: seq<Transaction>, i: int, j: int, m: int, l: int, k: Bytes)
    requires txs != [] && ImageIs(txs, i, j, k) && ImageIs(txs, m, l, k) && !(i == m && j == l)
    requires NoneRepeats(txs[..|txs| - 1]) && Distinct(TxKeyImages(txs[|txs| - 1]))
    ensures k in KeyImages(txs[..|txs| - 1]) && k in TxKeyImages(txs[|txs| - 1])
  {
    var n := |txs| - 1;
    var init, last := txs[..n], txs[n];
    assert i == m == n ==> TxKeyImages(last)[j] == TxKeyImages(last)[l];
    assert i < n && m < n ==> ImageIs(init, i, j, k) && ImageIs(init, m, l, k);
    ImageIsListed(init, if i < n then i else m, if i < n then j else l);
    assert TxKeyImages(last)[if i < n then l else j] == k;
  }

  lemma {:induction false} DistinctByPosition(txs: seq<Transaction>)
    ensures Distinct(KeyImages(txs)) <==> NoneRepeats(txs)
  {
    if txs != [] {
      var init, last := txs[..|txs| - 1], txs[|txs| - 1];
      DistinctByPosition(init);
      DistinctHalves(KeyImages(init), TxKeyImages(last));
      NoneRepeatsInit(txs);
    }
  }

  lemma UnspentByPosition(txs: seq<Transaction>, spent: set<Bytes>)
    ensures SetOf(KeyImages(txs)) !! spent <==> NoneSpent(txs, spent)
  {
    forall i, j, k | ImageIs(txs, i, j, k) ensures k in SetOf(KeyImages(txs)) {
      ImageIsListed(txs, i, j);
    }
    if NoneSpent(txs, spent) {
      forall k | k in SetOf(KeyImages(txs)) ensures k !in spent {
        var i, j := ImageOfSome(txs, k);
      }
    }
  }

  // ---- Coinbases -----------------------------------------------------------------------------

  /** Transaction i is a coinbase. */
  predicate CoinbaseAt(txs: seq<Transaction>, i: int) {
    0 <= i < |txs| && txs[i].txType.Coinbase?
  }

  lemma {:induction false} CoinbasesCounted(txs: seq<Transaction>)
    ensures Coinbases(txs) == 0 <==> forall i :: !CoinbaseAt(txs, i)
    ensures Coinbases(txs) > 1 <==> exists i, j :: i < j && CoinbaseAt(txs, i) && CoinbaseAt(txs, j)
  {
    if txs != [] {
      var n := |txs| - 1;
      var init := txs[..n];
      CoinbasesCounted(init);
      forall i ensures CoinbaseAt(txs, i) <==> CoinbaseAt(init, i) || (i == n && CoinbaseAt(txs, n)) {
      }
      if Coinbases(init) > 1 {
        var i, j :| i < j && CoinbaseAt(init, i) && CoinbaseAt(init, j);
        assert CoinbaseAt(txs, i) && CoinbaseAt(txs, j);
      } else if Coinbases(init) > 0 && CoinbaseAt(txs, n) {
        var i :| CoinbaseAt(init, i);
        assert i < n && CoinbaseAt(txs, i);
      } else if i, j :| i < j && CoinbaseAt(txs, i) && CoinbaseAt(txs, j) {
        assert CoinbaseAt(init, i);
        assert j < n ==> CoinbaseAt(init, j);
      }
    }
  }

  // ---- Acceptance ----------------------------------------------------------------------------

  /** Height and link. */
  predicate Follows(st: ChainState, b: Block) {
    b.header.height == st.height + 1 && b.header.prevHash == st.tip
  }

  ghost predicate CoinbaseInFront(txs: seq<Transaction>) {
    forall i :: CoinbaseAt(txs, i) ==> i == 0
  }

  ghost predicate Acceptable(rules: Rules, st: ChainState, b: Block) {
    && Follows(st, b) && CoinbaseInFront(b.transactions)
    && NoneRepeats(b.transactions) && NoneSpent(b.transactions, st.accounts.spent)
    && forall i :: 0 <= i < |b.transactions| ==> rules.txVerify(b.transactions[i])
  }

  lemma InFrontIffCounted(txs: seq<Transaction>)
    ensures CoinbaseInFront(txs)
            <==> Coinbases(txs) == 0 || (Coinbases(txs) == 1 && txs[0].txType.Coinbase?)
  {
    CoinbasesCounted(txs);
    if Coinbases(txs) == 1 {
      var i :| CoinbaseAt(txs, i);
      assert CoinbaseAt(txs, 0) <==> txs[0].txType.Coinbase?;
    }
  }

  lemma ValidTxIff(rules: Rules, st: ChainState, tx: Transaction)
    ensures ValidateTx(rules, st, tx).None? <==> SetOf(TxKeyImages(tx)) !! st.accounts.spent && rules.txVerify(tx)
  {
    NoneSpentIffDisjoint(TxKeyImages(tx), st.accounts.spent);
  }

  lemma VerifiedSnoc(rules: Rules, init: seq<Transaction>, last: Transaction)
    ensures AllVerified(rules, init + [last]) <==> AllVerified(rules, init) && rules.txVerify(last)
  {
    var txs := init + [last];
    assert txs[|init|] == last;
    forall i | 0 <= i < |init| ensures txs[i] == init[i] {
    }
  }

  lemma {:induction false} ValidIff(rules: Rules, st: ChainState, txs: seq<Transaction>)
    ensures ValidateTxs(rules, st, txs).None?
            <==> SetOf(KeyImages(txs)) !! st.accounts.spent && AllVerified(rules, txs)
  {
    if txs != [] {
      var init, last := txs[..|txs| - 1], txs[|txs| - 1];
      ValidIff(rules, st, init);
      ValidTxIff(rules, st, last);
      SetOfConcat(KeyImages(init), TxKeyImages(last));
      VerifiedSnoc(rules, init, last);
      assert txs == init + [last];
    }
  }

  /**
   A block is accepted exactly when height and link are right, no transaction but the first is a
   coinbase, no two of its inputs share a key image, none is spent, and every transaction verifies.
   */
  lemma AcceptedIff(rules: Rules, st: ChainState, b: Block)
    ensures Append(rules, st, b).1.None? <==> Acceptable(rules, st, b)
  {
    InFrontIffCounted(b.transactions);
    NoRepeatIffDistinct(KeyImages(b.transactions));
    DistinctByPosition(b.transactions);
    UnspentByPosition(b.transactions, st.accounts.spent);
    ValidIff(rules, st, b.transactions);
  }

  // ---- Refusal -------------------------------------------------------------------------------

  /** A chain with these spent images would take every transaction before the i-th. */
  ghost predicate FineBefore(rules: Rules, spent: set<Bytes>, txs: seq<Transaction>, i: int) {
    0 <= i < |txs| && NoneSpent(txs[..i], spent) && AllVerified(rules, txs[..i])
  }

  /** Input j is the first of transaction i whose key image is spent. */
  predicate FirstSpentAt(spent: set<Bytes>, tx: Transaction, j: int) {
    && 0 <= j < |tx.inputs| && tx.inputs[j].keyImage in spent
    && forall n :: 0 <= n < j ==> tx.inputs[n].keyImage !in spent
  }

  /** Input j of transaction i repeats an earlier key image, and no input before it does. */
  ghost predicate FirstRepeatAt(txs: seq<Transaction>, i: int, j: int) {
    && IsInput(txs, i, j)
    && NoneRepeats(txs[..i] + [txs[i].(inputs := txs[i].inputs[..j])])
    && !NoneRepeats(txs[..i] + [txs[i].(inputs := txs[i].inputs[..j + 1])])
  }

  /** Each error says what is wrong first, in the order height, link, coinbases, repeats, transactions. */
  ghost predicate Explains(rules: Rules, st: ChainState, b: Block, e: ChainError) {
    var txs, spent := b.transactions, st.accounts.spent;
    match e
    case HeightMismatch(expected, got) => expected == st.height + 1 && got == b.header.height && expected != got
    case InvalidPrevHash => b.header.height == st.height + 1 && b.header.prevHash != st.tip
    case TooManyCoinbases => Follows(st, b) && exists i, j :: i < j && CoinbaseAt(txs, i) && CoinbaseAt(txs, j)
    case CoinbaseNotFirst =>
      && Follows(st, b) && !CoinbaseInFront(txs)
      && forall i, j :: CoinbaseAt(txs, i) && CoinbaseAt(txs, j) ==> i == j
    case DoubleSpendInBlock(k) =>
      && Follows(st, b) && CoinbaseInFront(txs)
      && exists i, j :: FirstRepeatAt(txs, i, j) && txs[i].inputs[j].keyImage == k
    case DoubleSpend(k) =>
      && Follows(st, b) && CoinbaseInFront(txs) && NoneRepeats(txs)
      && exists i, j :: FineBefore(rules, spent, txs, i) && FirstSpentAt(spent, txs[i], j) && txs[i].inputs[j].keyImage == k
    case InvalidTransaction =>
      && Follows(st, b) && CoinbaseInFront(txs) && NoneRepeats(txs)
      && exists i :: FineBefore(rules, spent, txs, i) && NoneSpent([txs[i]], spent) && !rules.txVerify(txs[i])
  }

  lemma RefusedFor(rules: Rules, st: ChainState, b: Block)
    requires Append(rules, st, b).1.Some?
    ensures Explains(rules, st, b, Append(rules, st, b).1.value) && Append(rules, st, b).0 == st
  {
    var txs, e := b.transactions, Append(rules, st, b).1.value;
    assert Check(rules, st, b) == Some(e);
    CoinbasesCounted(txs);
    InFrontIffCounted(txs);
    NoRepeatIffDistinct(KeyImages(txs));
    DistinctByPosition(txs);
    if FirstRepeat(KeyImages(txs)).Some? {
      var i, j := RepeatExplained(txs, FirstRepeat(KeyImages(txs)).value);
    } else if ValidateTxs(rules, st, txs).Some? {
      var i := ErrorExplained(rules, st, txs, ValidateTxs(rules, st, txs).value);
    }
  }

  lemma {:induction false} RepeatExplained(txs: seq<Transaction>, k: Bytes) returns (i: int, j: int)
    requires FirstRepeat(KeyImages(txs)) == Some(k)
    ensures FirstRepeatAt(txs, i, j) && txs[i].inputs[j].keyImage == k
  {
    var n := |txs| - 1;
    var init, last := txs[..n], txs[n];
    if FirstRepeat(KeyImages(init)).Some? {
      FirstRepeatKept(KeyImages(init), TxKeyImages(last));
      i, j := RepeatExplained(init, k);
      assert init[..i] == txs[..i];
    } else {
      i := n;
      assert TxKeyImages(last)[..|last.inputs|] == TxKeyImages(last);
      j := RepeatWithin(init, last, |last.inputs|, k);
    }
  }

  lemma {:induction false} FirstRepeatKept(a: seq<Bytes>, b: seq<Bytes>)
    requires FirstRepeat(a).Some?
    ensures FirstRepeat(a + b) == FirstRepeat(a)
    decreases |b|
  {
    if b == [] {
      assert a + b == a;
    } else {
      FirstRepeatKept(a, b[..|b| - 1]);
      assert (a + b)[..|a + b| - 1] == a + b[..|b| - 1];
    }
  }

  /** The first n inputs of the transaction, after the other transactions. */
  function Upto(init: seq<Transaction>, tx: Transaction, n: nat): seq<Transaction>
    requires n <= |tx.inputs|
  {
    init + [tx.(inputs := tx.inputs[..n])]
  }

  lemma UptoImages(init: seq<Transaction>, tx: Transaction, n: nat)
    requires n <= |tx.inputs|
    ensures KeyImages(Upto(init, tx, n)) == KeyImages(init) + TxKeyImages(tx)[..n]
  {
    var txs := Upto(init, tx, n);
    assert txs[..|txs| - 1] == init;
    assert TxKeyImages(txs[|txs| - 1]) == TxKeyImages(tx)[..n];
  }

  lemma {:induction false} RepeatWithin(init: seq<Transaction>, tx: Transaction, n: nat, k: Bytes) returns (j: nat)
    requires n <= |tx.inputs| && FirstRepeat(KeyImages(init)).None?
    requires FirstRepeat(KeyImages(init) + TxKeyImages(tx)[..n]) == Some(k)
    ensures j < n && tx.inputs[j].keyImage == k
    ensures NoneRepeats(Upto(init, tx, j)) && !NoneRepeats(Upto(init, tx, j + 1))
  {
    var ks, images := KeyImages(init), TxKeyImages(tx);
    assert ks + images[..0] == ks;
    if n > 0 {
      var i := n - 1;
      RepeatByOne(ks, images, i);
      if FirstRepeat(ks + images[..i]).Some? {
        j := RepeatWithin(init, tx, i, k);
      } else {
        j := i;
        UptoDistinct(init, tx, i);
        UptoDistinct(init, tx, n);
      }
    }
  }

  lemma RepeatByOne(ks: seq<Bytes>, images: seq<Bytes>, i: nat)
    requires i < |images|
    ensures FirstRepeat(ks + images[..i + 1])
            == if FirstRepeat(ks + images[..i]).Some? then FirstRepeat(ks + images[..i])
               else if images[i] in ks + images[..i] then Some(images[i]) else None
  {
    var all := ks + images[..i + 1];
    assert all[..|all| - 1] == ks + images[..i];
  }

  lemma UptoDistinct(init: seq<Transaction>, tx: Transaction, n: nat)
    requires n <= |tx.inputs|
    ensures NoneRepeats(Upto(init, tx, n)) <==> FirstRepeat(KeyImages(init) + TxKeyImages(tx)[..n]).None?
  {
    UptoImages(init, tx, n);
    DistinctByPosition(Upto(init, tx, n));
    NoRepeatIffDistinct(KeyImages(init) + TxKeyImages(tx)[..n]);
  }

  lemma {:induction false} SpentFirst(ks: seq<Bytes>, spent: set<Bytes>) returns (j: nat)
    requires FirstSpent(ks, spent).Some?
    ensures j < |ks| && FirstSpent(ks, spent) == Some(ks[j]) && ks[j] in spent
    ensures forall n :: 0 <= n < j ==> ks[n] !in spent
  {
    if ks[0] in spent {
      j := 0;
    } else {
      j := SpentFirst(ks[1..], spent);
      j := j + 1;
    }
  }

  lemma {:induction false} ErrorExplained(rules: Rules, st: ChainState, txs: seq<Transaction>, e: ChainError) returns (i: int)
    requires ValidateTxs(rules, st, txs) == Some(e)
    ensures FineBefore(rules, st.accounts.spent, txs, i)
    ensures match e
            case DoubleSpend(k) => exists j :: FirstSpentAt(st.accounts.spent, txs[i], j) && txs[i].inputs[j].keyImage == k
            case InvalidTransaction => NoneSpent([txs[i]], st.accounts.spent) && !rules.txVerify(txs[i])
            case _ => false
  {
    var spent := st.accounts.spent;
    var n := |txs| - 1;
    var init, last := txs[..n], txs[n];
    if ValidateTxs(rules, st, init).Some? {
      i := ErrorExplained(rules, st, init, e);
      assert init[..i] == txs[..i];
    } else {
      i := n;
      ValidIff(rules, st, init);
      UnspentByPosition(init, spent);
      var ks := TxKeyImages(last);
      if FirstSpent(ks, spent).Some? {
        var j := SpentFirst(ks, spent);
        forall m | 0 <= m < j ensures last.inputs[m].keyImage !in spent {
          assert last.inputs[m].keyImage == ks[m];
        }
        assert FirstSpentAt(spent, last, j);
      } else {
        NoneSpentIffDisjoint(ks, spent);
        assert KeyImages([last]) == ks by { assert [last][..0] == []; }
        UnspentByPosition([last], spent);
      }
    }
  }
}
