/** The binary Merkle tree of `Block::compute_tx_root` and `compute_state_root`: `src/core/block.rs:139-174`. */
module Merkle {
  import opened Common
  import opened Blocks

  /** The hash of two children. */
  type NodeHash = (Bytes32, Bytes32) -> Bytes32

  datatype Pair = Pair(left: Bytes32, right: Bytes32)

  /** Two different pairs of children with one hash. */
  ghost predicate Collide(h: NodeHash, p: Pair, q: Pair) {
    p != q && h(p.left, p.right) == h(q.left, q.right)
  }

  // ---- The tree, from the root down --------------------------------------------------------

  /** The number of nodes k levels above n leaves. */
  function Width(n: nat, k: nat): nat {
    if k == 0 then n else (Width(n, k - 1) + 1) / 2
  }

  /** The slot whose node stands on the right under node i: the twin of the left one if there is none. */
  function RightChild(n: nat, k: nat, i: nat): (j: nat)
    requires k > 0 && i < Width(n, k)
    ensures j < Width(n, k - 1)
  {
    if 2 * i + 1 < Width(n, k - 1) then 2 * i + 1 else 2 * i
  }

  /** Node i, k levels above the leaves; a node without a right child is its left child's twin. */
  function Node(h: NodeHash, leaves: seq<Bytes32>, k: nat, i: nat): Bytes32
    requires i < Width(|leaves|, k)
  {
    if k == 0 then leaves[i]
    else h(Node(h, leaves, k - 1, 2 * i), Node(h, leaves, k - 1, RightChild(|leaves|, k, i)))
  }

  /** The lowest level with a single node. */
  function Height(n: nat): nat
    decreases n
  {
    if n <= 1 then 0 else 1 + Height((n + 1) / 2)
  }

  lemma {:induction false} WidthFrom(n: nat, k: nat)
    ensures Width(n, k + 1) == Width((n + 1) / 2, k)
  {
    if k > 0 { WidthFrom(n, k - 1); }
  }

  lemma {:induction false} HeightIsRoot(n: nat)
    requires n > 0
    ensures Width(n, Height(n)) == 1
    decreases n
  {
    if n > 1 {
      HeightIsRoot((n + 1) / 2);
      WidthFrom(n, Height((n + 1) / 2));
    }
  }

  lemma {:induction false} HeightIsLowest(n: nat, k: nat)
    requires n > 0 && Width(n, k) == 1 && (k == 0 || Width(n, k - 1) > 1)
    ensures k == Height(n)
    decreases n
  {
    if n > 1 {
      WidthFrom(n, k - 1);
      if k > 1 { WidthFrom(n, k - 2); }
      HeightIsLowest((n + 1) / 2, k - 1);
    } else if k > 0 {
      OneStaysOne(k - 1);
    }
  }

  lemma {:induction false} OneStaysOne(k: nat)
    ensures Width(1, k) == 1
  {
    if k > 0 { OneStaysOne(k - 1); }
  }

  function Root(h: NodeHash, leaves: seq<Bytes32>): Bytes32
    requires leaves != []
  {
    HeightIsRoot(|leaves|);
    Node(h, leaves, Height(|leaves|), 0)
  }

  // ---- The loops --------------------------------------------------------------------------------

  /** One pass over a level, two nodes at a time. */
  method NextLevel(h: NodeHash, level: seq<Bytes32>, ghost leaves: seq<Bytes32>, ghost k: nat) returns (next: seq<Bytes32>)
    requires |level| == Width(|leaves|, k)
    requires forall i :: 0 <= i < |level| ==> level[i] == Node(h, leaves, k, i)
    ensures |next| == Width(|leaves|, k + 1)
    ensures forall i :: 0 <= i < |next| ==> next[i] == Node(h, leaves, k + 1, i)
  {
    next := [];
    var i := 0;
    while i < |level|
      invariant i == 2 * |next| && i <= |level| + 1
      invariant forall j :: 0 <= j < |next| ==> next[j] == Node(h, leaves, k + 1, j)
    {
      var left := level[i];
      var right := if i + 1 < |level| then level[i + 1] else level[i];
      assert h(left, right) == Node(h, leaves, k + 1, |next|);
      next := next + [h(left, right)];
      i := i + 2;
    }
  }

  /** The loop over levels ends, at the root of the recursive tree. */
  method ComputeRoot(h: NodeHash, leaves: seq<Bytes32>) returns (root: Bytes32)
    requires leaves != []
    ensures root == Root(h, leaves)
  {
    var level := leaves;
    ghost var k := 0;
    while |level| > 1
      invariant |level| == Width(|leaves|, k) > 0
      invariant forall i :: 0 <= i < |level| ==> level[i] == Node(h, leaves, k, i)
      invariant k == 0 || Width(|leaves|, k - 1) > 1
      decreases |level|
    {
      level := NextLevel(h, level, leaves, k);
      k := k + 1;
    }
    HeightIsLowest(|leaves|, k);
    return level[0];
  }

  /** `Block::compute_tx_root`; the hash of a transaction is its id. */
  method ComputeTxRoot(h: NodeHash, id: Transaction -> Bytes32, txs: seq<Transaction>) returns (root: Bytes32)
    ensures root == TxRoot(h, id, txs)
    ensures txs == [] ==> root == seq(32, _ => 0)
    ensures |txs| == 1 ==> root == id(txs[0])
  {
    AllZero(32);
    if txs == [] { return ZERO32; }
    root := ComputeRoot(h, Leaves(id, txs));
  }

  lemma {:induction false} AllZero(n: nat)
    ensures Zeros(n) == seq(n, _ => 0)
  {
    if n > 0 {
      AllZero(n - 1);
      assert Zeros(n) == [0] + seq(n - 1, _ => 0);
    }
  }

  function Leaves(id: Transaction -> Bytes32, txs: seq<Transaction>): seq<Bytes32> {
    seq(|txs|, i requires 0 <= i < |txs| => id(txs[i]))
  }

  function TxRoot(h: NodeHash, id: Transaction -> Bytes32, txs: seq<Transaction>): Bytes32 {
    if txs == [] then ZERO32 else Root(h, Leaves(id, txs))
  }

  // ---- What a root commits to --------------------------------------------------------------------

  /** The leaves under node i, k levels up, in a tree completed by doubling the last node of every odd level. */
  function Under(leaves: seq<Bytes32>, k: nat, i: nat): (r: seq<Bytes32>)
    requires i < Width(|leaves|, k)
    ensures |r| == Pow(2, k)
  {
    if k == 0 then [leaves[i]]
    else Under(leaves, k - 1, 2 * i) + Under(leaves, k - 1, RightChild(|leaves|, k, i))
  }

  /** All the leaves of the completed tree. */
  function Completed(leaves: seq<Bytes32>): seq<Bytes32>
    requires leaves != []
  {
    HeightIsRoot(|leaves|);
    Under(leaves, Height(|leaves|), 0)
  }

  lemma ConcatBinds<T>(a: seq<T>, b: seq<T>, c: seq<T>, d: seq<T>)
    requires |a| == |c|
    ensures a + b == c + d <==> a == c && b == d
  {
    if a + b == c + d {
      assert a == (a + b)[..|a|] && c == (c + d)[..|c|];
      assert b == (a + b)[|a|..] && d == (c + d)[|c|..];
    }
  }

  ghost predicate Agree(h: NodeHash, a: seq<Bytes32>, b: seq<Bytes32>, k: nat, i: nat, j: nat, p: Pair, q: Pair)
    requires i < Width(|a|, k) && j < Width(|b|, k)
  {
    && (Under(a, k, i) == Under(b, k, j) ==> Node(h, a, k, i) == Node(h, b, k, j))
    && (Node(h, a, k, i) == Node(h, b, k, j) ==> Under(a, k, i) == Under(b, k, j) || Collide(h, p, q))
  }

  lemma ParentsAgree(h: NodeHash, a: seq<Bytes32>, b: seq<Bytes32>, k: nat, i: nat, j: nat,
                     lp: Pair, lq: Pair, rp: Pair, rq: Pair) returns (p: Pair, q: Pair)
    requires k > 0 && i < Width(|a|, k) && j < Width(|b|, k)
    requires Agree(h, a, b, k - 1, 2 * i, 2 * j, lp, lq)
    requires Agree(h, a, b, k - 1, RightChild(|a|, k, i), RightChild(|b|, k, j), rp, rq)
    ensures Agree(h, a, b, k, i, j, p, q)
  {
    var ri, rj := RightChild(|a|, k, i), RightChild(|b|, k, j);
    ConcatBinds(Under(a, k - 1, 2 * i), Under(a, k - 1, ri), Under(b, k - 1, 2 * j), Under(b, k - 1, rj));
    p := Pair(Node(h, a, k - 1, 2 * i), Node(h, a, k - 1, ri));
    q := Pair(Node(h, b, k - 1, 2 * j), Node(h, b, k - 1, rj));
    if p == q {
      if Collide(h, lp, lq) { p, q := lp, lq; } else { p, q := rp, rq; }
    }
  }

  /** Two nodes of one level are equal exactly when the leaves under them are, collisions apart. */
  lemma {:induction false} NodesAgree(h: NodeHash, a: seq<Bytes32>, b: seq<Bytes32>, k: nat, i: nat, j: nat)
    returns (p: Pair, q: Pair)
    requires i < Width(|a|, k) && j < Width(|b|, k)
    ensures Agree(h, a, b, k, i, j, p, q)
    decreases k
  {
    if k == 0 {
      p, q := Pair(a[i], a[i]), Pair(a[i], a[i]);
    } else {
      var lp, lq := NodesAgree(h, a, b, k - 1, 2 * i, 2 * j);
      var rp, rq := NodesAgree(h, a, b, k - 1, RightChild(|a|, k, i), RightChild(|b|, k, j));
      p, q := ParentsAgree(h, a, b, k, i, j, lp, lq, rp, rq);
    }
  }

  /** Lists whose trees have one height share a root exactly when their completed trees are the same. */
  lemma RootsAgree(h: NodeHash, a: seq<Bytes32>, b: seq<Bytes32>) returns (p: Pair, q: Pair)
    requires a != [] && b != [] && Height(|a|) == Height(|b|)
    ensures Completed(a) == Completed(b) ==> Root(h, a) == Root(h, b)
    ensures Root(h, a) == Root(h, b) ==> Completed(a) == Completed(b) || Collide(h, p, q)
  {
    HeightIsRoot(|a|);
    HeightIsRoot(|b|);
    p, q := NodesAgree(h, a, b, Height(|a|), 0, 0);
  }

  /** The nodes d levels above the leaves. */
  function Level(h: NodeHash, leaves: seq<Bytes32>, d: nat): seq<Bytes32> {
    seq(Width(|leaves|, d), i requires 0 <= i < Width(|leaves|, d) => Node(h, leaves, d, i))
  }

  lemma {:induction false} WidthAbove(n: nat, d: nat, k: nat)
    ensures Width(n, d + k) == Width(Width(n, d), k)
  {
    if k > 0 { WidthAbove(n, d, k - 1); }
  }

  lemma {:induction false} HeightAbove(n: nat, d: nat)
    requires n > 0 && d <= Height(n)
    ensures Width(n, d) > 0 && Height(Width(n, d)) == Height(n) - d
    decreases d
  {
    if d > 0 {
      HeightAbove((n + 1) / 2, d - 1);
      WidthFrom(n, d - 1);
    }
  }

  lemma {:induction false} NodeAbove(h: NodeHash, leaves: seq<Bytes32>, d: nat, k: nat, i: nat)
    requires i < Width(|leaves|, d + k)
    ensures Width(|leaves|, d + k) == Width(|Level(h, leaves, d)|, k)
    ensures Node(h, leaves, d + k, i) == Node(h, Level(h, leaves, d), k, i)
    decreases k
  {
    WidthAbove(|leaves|, d, k);
    if k > 0 {
      WidthAbove(|leaves|, d, k - 1);
      NodeAbove(h, leaves, d, k - 1, 2 * i);
      NodeAbove(h, leaves, d, k - 1, RightChild(|leaves|, d + k, i));
    }
  }

  /**
   For any two lists: they share a root exactly when, at the level of the taller tree where both are
   equally high, the completed trees are the same; or else the hash collides.
   */
  lemma RootsAgreeAtAnyLength(h: NodeHash, a: seq<Bytes32>, b: seq<Bytes32>) returns (p: Pair, q: Pair)
    requires a != [] && b != [] && Height(|a|) >= Height(|b|)
    ensures var top := Level(h, a, Height(|a|) - Height(|b|));
            && top != []
            && (Completed(top) == Completed(b) ==> Root(h, a) == Root(h, b))
            && (Root(h, a) == Root(h, b) ==> Completed(top) == Completed(b) || Collide(h, p, q))
  {
    var d := Height(|a|) - Height(|b|);
    HeightAbove(|a|, d);
    HeightIsRoot(|a|);
    NodeAbove(h, a, d, Height(|b|), 0);
    p, q := RootsAgree(h, Level(h, a, d), b);
  }

  ghost predicate SameUnder(a: seq<Bytes32>, b: seq<Bytes32>, k: nat, i: nat)
    requires |a| == |b| && i < Width(|a|, k)
  {
    Under(a, k, i) == Under(b, k, i)
  }

  lemma SameBelow(a: seq<Bytes32>, b: seq<Bytes32>, k: nat, j: nat)
    requires |a| == |b| && k > 0 && j < Width(|a|, k - 1) && SameUnder(a, b, k, j / 2)
    ensures SameUnder(a, b, k - 1, j)
  {
    var i := j / 2;
    ConcatBinds(Under(a, k - 1, 2 * i), Under(a, k - 1, RightChild(|a|, k, i)),
                Under(b, k - 1, 2 * i), Under(b, k - 1, RightChild(|b|, k, i)));
  }

  lemma {:induction false} UnderBinds(a: seq<Bytes32>, b: seq<Bytes32>, k: nat)
    requires |a| == |b| && forall i :: 0 <= i < Width(|a|, k) ==> SameUnder(a, b, k, i)
    ensures a == b
  {
    if k > 0 {
      var below := k - 1;
      forall j | 0 <= j < Width(|a|, below) ensures SameUnder(a, b, below, j) {
        SameBelow(a, b, k, j);
      }
      UnderBinds(a, b, below);
    } else {
      forall i | 0 <= i < |a| ensures a[i] == b[i] {
        assert SameUnder(a, b, k, i);
      }
    }
  }

  /** Lists of one length with one root are equal, or the node hash collides. */
  lemma RootBinds(h: NodeHash, a: seq<Bytes32>, b: seq<Bytes32>) returns (p: Pair, q: Pair)
    requires |a| == |b| > 0 && Root(h, a) == Root(h, b)
    ensures a == b || Collide(h, p, q)
  {
    p, q := RootsAgree(h, a, b);
    HeightIsRoot(|a|);
    if Completed(a) == Completed(b) {
      assert SameUnder(a, b, Height(|a|), 0);
      UnderBinds(a, b, Height(|a|));
    }
  }

  /** So are the transactions, or the node hash collides, or two of them have one id. */
  lemma TxRootBinds(h: NodeHash, id: Transaction -> Bytes32, txs: seq<Transaction>, others: seq<Transaction>)
    returns (p: Pair, q: Pair, i: nat)
    requires |txs| == |others| && TxRoot(h, id, txs) == TxRoot(h, id, others)
    ensures txs == others || Collide(h, p, q) || (i < |txs| && txs[i] != others[i] && id(txs[i]) == id(others[i]))
  {
    p, q, i := Pair(ZERO32, ZERO32), Pair(ZERO32, ZERO32), 0;
    if txs != others {
      i :| 0 <= i < |txs| && txs[i] != others[i];
      var a, b := Leaves(id, txs), Leaves(id, others);
      p, q := RootBinds(h, a, b);
      assert a == b ==> a[i] == b[i];
    }
  }

  lemma {:induction false} TwinWidth(n: nat, k: nat)
    requires n % 2 == 1 && k > 0
    ensures Width(n + 1, k) == Width(n, k)
  {
    if k > 1 { TwinWidth(n, k - 1); }
  }

  /** One level up, the repeated leaf is where the completed tree has it already. */
  lemma {:induction false} TwinUnder(a: seq<Bytes32>, b: seq<Bytes32>, k: nat, i: nat)
    requires |a| % 2 == 1 && b == a + [a[|a| - 1]] && k > 0 && i < Width(|a|, k)
    ensures i < Width(|b|, k) && Under(b, k, i) == Under(a, k, i)
    decreases k
  {
    TwinWidth(|a|, k);
    if k > 1 {
      TwinWidth(|a|, k - 1);
      TwinUnder(a, b, k - 1, 2 * i);
      TwinUnder(a, b, k - 1, RightChild(|a|, k, i));
    } else {
      assert b[RightChild(|b|, 1, i)] == a[RightChild(|a|, 1, i)];
    }
  }

  /** Lengths matter: repeating the last leaf of an odd list of three or more leaves its root as it was. */
  lemma RepeatedLastLeaf(h: NodeHash, a: seq<Bytes32>)
    requires |a| % 2 == 1 && |a| >= 3
    ensures Root(h, a + [a[|a| - 1]]) == Root(h, a)
  {
    HeightIsRoot(|a|);
    assert Height(|a| + 1) == Height(|a|) by { assert (|a| + 2) / 2 == (|a| + 1) / 2; }
    TwinUnder(a, a + [a[|a| - 1]], Height(|a|), 0);
    var _, _ := RootsAgree(h, a + [a[|a| - 1]], a);
  }

  // ---- Left before right ----------------------------------------------------------------------------

  /** A node raised d levels above its own with only itself for a sibling. */
  function Lift(h: NodeHash, x: Bytes32, d: nat): Bytes32 {
    if d == 0 then x else h(Lift(h, x, d - 1), Lift(h, x, d - 1))
  }

  lemma HalfUp(w: nat, n: nat)
    ensures (2 * w + n + 1) / 2 == w + (n + 1) / 2
  {
  }

  lemma {:induction false} WidthSplit(k: nat, n: nat, j: nat)
    requires j <= k
    ensures Width(Pow(2, k) + n, j) == Pow(2, k - j) + Width(n, j) && Width(Pow(2, k), j) == Pow(2, k - j)
  {
    if j > 0 {
      WidthSplit(k, n, j - 1);
      assert Pow(2, k - (j - 1)) == 2 * Pow(2, k - j);
      HalfUp(Pow(2, k - j), Width(n, j - 1));
      HalfUp(Pow(2, k - j), 0);
    }
  }

  /** Below the level of a full left part, its w nodes stand first. */
  lemma {:induction false} NodeOfLeft(h: NodeHash, a: seq<Bytes32>, b: seq<Bytes32>, k: nat, j: nat, w: nat, i: nat)
    requires |a| == Pow(2, k) && j <= k && w == Pow(2, k - j) && i < w
    ensures i < Width(|a|, j) && i < Width(|a + b|, j) && Node(h, a + b, j, i) == Node(h, a, j, i)
    decreases j
  {
    var c := a + b;
    WidthSplit(k, |b|, j);
    if j > 0 {
      var below, v := j - 1, 2 * w;
      WidthSplit(k, |b|, below);
      NodeOfLeft(h, a, b, k, below, v, 2 * i);
      NodeOfLeft(h, a, b, k, below, v, 2 * i + 1);
      SameParent(h, c, a, j, below, i);
    }
  }

  lemma SameParent(h: NodeHash, c: seq<Bytes32>, a: seq<Bytes32>, j: nat, below: nat, i: nat)
    requires j == below + 1 && i < Width(|a|, j) && i < Width(|c|, j)
    requires 2 * i + 1 < Width(|a|, below) && 2 * i + 1 < Width(|c|, below)
    requires Node(h, c, below, 2 * i) == Node(h, a, below, 2 * i)
    requires Node(h, c, below, 2 * i + 1) == Node(h, a, below, 2 * i + 1)
    ensures Node(h, c, j, i) == Node(h, a, j, i)
  {
  }

  /** ... and those of the right part follow, w nodes on. */
  lemma {:induction false} NodeOfRight(h: NodeHash, a: seq<Bytes32>, b: seq<Bytes32>, k: nat, j: nat, w: nat, i: nat)
    requires |a| == Pow(2, k) && j <= k && w == Pow(2, k - j) && i < Width(|b|, j)
    ensures w + i < Width(|a + b|, j) && Node(h, a + b, j, w + i) == Node(h, b, j, i)
    decreases j
  {
    var c := a + b;
    WidthSplit(k, |b|, j);
    if j > 0 {
      var below, v, r := j - 1, 2 * w, RightChild(|b|, j, i);
      WidthSplit(k, |b|, below);
      NodeOfRight(h, a, b, k, below, v, 2 * i);
      NodeOfRight(h, a, b, k, below, v, r);
      ShiftedParent(h, c, b, j, below, w, v, i, r);
    }
  }

  /** A parent whose children are another parent's, w parents further on. */
  lemma ShiftedParent(h: NodeHash, c: seq<Bytes32>, b: seq<Bytes32>, j: nat, below: nat, w: nat, v: nat, i: nat, r: nat)
    requires j == below + 1 && v == 2 * w && i < Width(|b|, j) && w + i < Width(|c|, j) && r == RightChild(|b|, j, i)
    requires Width(|c|, below) == v + Width(|b|, below) && 2 * i < Width(|b|, below) && r < Width(|b|, below)
    requires Node(h, c, below, v + 2 * i) == Node(h, b, below, 2 * i) && Node(h, c, below, v + r) == Node(h, b, below, r)
    ensures Node(h, c, j, w + i) == Node(h, b, j, i)
  {
    assert 2 * (w + i) == v + 2 * i && RightChild(|c|, j, w + i) == v + r;
  }

  lemma {:induction false} NodeAboveRoot(h: NodeHash, b: seq<Bytes32>, d: nat)
    requires b != []
    ensures Width(|b|, Height(|b|) + d) == 1 && Node(h, b, Height(|b|) + d, 0) == Lift(h, Root(h, b), d)
    decreases d
  {
    HeightIsRoot(|b|);
    if d > 0 { NodeAboveRoot(h, b, d - 1); }
  }

  lemma {:induction false} HeightOfPower(k: nat, n: nat)
    requires 0 < n <= Pow(2, k)
    ensures Height(n) <= k && Height(Pow(2, k)) == k
    decreases k
  {
    if k > 0 {
      PowPositive(k - 1);
      HeightOfPower(k - 1, (n + 1) / 2);
      assert (Pow(2, k) + 1) / 2 == Pow(2, k - 1);
    }
  }

  lemma HeightSplit(k: nat, n: nat)
    requires 0 < n <= Pow(2, k)
    ensures Height(Pow(2, k) + n) == k + 1 && Width(n, k) == 1
  {
    HeightOfPower(k, n);
    HeightIsRoot(n);
    WidthAbove(n, Height(n), k - Height(n));
    OneStaysOne(k - Height(n));
    WidthSplit(k, n, k);
    HeightIsLowest(Pow(2, k) + n, k + 1);
  }

  lemma TopNode(h: NodeHash, a: seq<Bytes32>, b: seq<Bytes32>, k: nat, top: nat)
    requires |a| == Pow(2, k) && Width(|b|, k) == 1 && top == k + 1
    ensures Width(|a|, k) == 1 && Width(|a + b|, top) == 1
    ensures Node(h, a + b, top, 0) == h(Node(h, a, k, 0), Node(h, b, k, 0))
  {
    WidthSplit(k, |b|, k);
    assert Pow(2, k - k) == 1;
    NodeOfLeft(h, a, b, k, k, 1, 0);
    NodeOfRight(h, a, b, k, k, 1, 0);
    assert top - 1 == k && Width(|a + b|, k) == 2 && RightChild(|a + b|, top, 0) == 1;
  }

  /**
   The root of a list, cut after the largest power of two below its length, hashes the root of the
   first part and then that of the rest, which is raised by hashing it with itself to the first one's
   level.  Together with the root of a single leaf, the leaf itself, this says what every root is.
   */
  lemma RootSplits(h: NodeHash, a: seq<Bytes32>, b: seq<Bytes32>, k: nat)
    requires |a| == Pow(2, k) && 0 < |b| <= |a|
    ensures Height(|b|) <= k
    ensures Root(h, a + b) == h(Root(h, a), Lift(h, Root(h, b), k - Height(|b|)))
  {
    HeightOfPower(k, |b|);
    HeightSplit(k, |b|);
    TopNode(h, a, b, k, k + 1);
    var d := k - Height(|b|);
    assert Height(|b|) + d == k;
    NodeAboveRoot(h, b, d);
  }

  lemma RootOfOne(h: NodeHash, x: Bytes32)
    ensures Root(h, [x]) == x
  {
  }
}
