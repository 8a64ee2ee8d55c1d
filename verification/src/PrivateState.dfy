/** The state root of a contract's storage: `src/evm/private_state.rs:77-112`. */
module PrivateState {
  import opened Common
  import opened Merkle

  /** A slot carries a copy of its key, which the root does not hash. */
  datatype Slot = Slot(key: Bytes32, encryptedValue: Bytes, valueCommitment: Bytes32)

  type Slots = map<Bytes32, Slot>

  /** The Keccak hash of a leaf's bytes and of a node's children. */
  datatype StateHash = StateHash(leaf: Bytes -> Bytes32, node: NodeHash)

  datatype Clash = NodeClash(p: Pair, q: Pair) | LeafClash(s: Bytes, t: Bytes)

  ghost predicate IsCollision(h: StateHash, c: Clash) {
    match c
    case NodeClash(p, q) => Collide(h.node, p, q)
    case LeafClash(s, t) => s != t && h.leaf(s) == h.leaf(t)
  }

  // ---- Key order ---------------------------------------------------------------------------

  /** Lexicographic order of byte strings, a proper prefix coming first. */
  predicate Before(a: Bytes, b: Bytes) {
    b != [] && (a == [] || a[0] < b[0] || (a[0] == b[0] && Before(a[1..], b[1..])))
  }

  lemma {:induction false} BeforeIsTotal(a: Bytes, b: Bytes)
    ensures Before(a, b) || Before(b, a) || a == b
  {
    if a != [] && b != [] && a[0] == b[0] {
      BeforeIsTotal(a[1..], b[1..]);
      assert a == [a[0]] + a[1..] && b == [b[0]] + b[1..];
    }
  }

  lemma {:induction false} BeforeIsStrict(a: Bytes)
    ensures !Before(a, a)
  {
    if a != [] { BeforeIsStrict(a[1..]); }
  }

  lemma {:induction false} BeforeIsTransitive(a: Bytes, b: Bytes, c: Bytes)
    requires Before(a, b) && Before(b, c)
    ensures Before(a, c)
  {
    if a != [] && a[0] == b[0] == c[0] { BeforeIsTransitive(a[1..], b[1..], c[1..]); }
  }

  /** Up to here equal, and here less. */
  predicate LessAt(a: Bytes, b: Bytes, i: int) {
    0 <= i < |a| && i < |b| && a[..i] == b[..i] && a[i] < b[i]
  }

  ghost predicate Less(a: Bytes, b: Bytes) {
    exists i :: LessAt(a, b, i)
  }

  /** Among keys of one length, the smaller byte at the first difference decides. */
  lemma {:induction false} BeforeIffLess(a: Bytes, b: Bytes)
    requires |a| == |b|
    ensures Before(a, b) <==> Less(a, b)
  {
    if a != [] {
      BeforeIffLess(a[1..], b[1..]);
      if a[0] == b[0] {
        if i :| LessAt(a[1..], b[1..], i) {
          LessFurther(a, b, i);
        }
        if i :| LessAt(a, b, i) {
          assert a[..i][0] == a[0] && a[1..][..i - 1] == a[..i][1..] && b[1..][..i - 1] == b[..i][1..];
          assert LessAt(a[1..], b[1..], i - 1);
        }
      } else if a[0] < b[0] {
        assert LessAt(a, b, 0);
      } else if i :| LessAt(a, b, i) {
        LessStart(a, b, i);
      }
    }
  }

  lemma LessStart(a: Bytes, b: Bytes, i: int)
    requires LessAt(a, b, i)
    ensures a[0] <= b[0]
  {
    if i > 0 { assert a[..i][0] == b[..i][0]; }
  }

  lemma LessFurther(a: Bytes, b: Bytes, i: int)
    requires a != [] && b != [] && a[0] == b[0] && LessAt(a[1..], b[1..], i)
    ensures LessAt(a, b, i + 1)
  {
    assert a[..i + 1] == [a[0]] + a[1..][..i] && b[..i + 1] == [b[0]] + b[1..][..i];
  }

  ghost predicate Sorted(ks: seq<Bytes32>) {
    forall i, j :: 0 <= i < j < |ks| ==> Before(ks[i], ks[j])
  }

  function KeySet(ks: seq<Bytes32>): set<Bytes32> {
    set k | k in ks
  }

  /** The place of a key in a sorted list. */
  method Insert(ks: seq<Bytes32>, k: Bytes32) returns (r: seq<Bytes32>)
    requires Sorted(ks) && k !in ks
    ensures Sorted(r) && KeySet(r) == KeySet(ks) + {k} && |r| == |ks| + 1
  {
    var i := 0;
    while i < |ks| && Before(ks[i], k)
      invariant i <= |ks|
      invariant forall j :: 0 <= j < i ==> Before(ks[j], k)
    {
      i := i + 1;
    }
    r := ks[..i] + [k] + ks[i..];
    if i < |ks| { BeforeIsTotal(ks[i], k); }
    forall x, y | 0 <= x < y < |r| ensures Before(r[x], r[y]) {
      if x == i && y > i + 1 { BeforeIsTransitive(k, ks[i], ks[y - 1]); }
    }
    assert ks == ks[..i] + ks[i..];
  }

  lemma NonemptyKeys(ks: seq<Bytes32>)
    ensures ks != [] ==> KeySet(ks) != {}
  {
    if ks != [] { assert ks[0] in KeySet(ks); }
  }

  /** A set of keys has one sorted list. */
  lemma {:induction false} SortedUnique(a: seq<Bytes32>, b: seq<Bytes32>)
    requires Sorted(a) && Sorted(b) && KeySet(a) == KeySet(b)
    ensures a == b
    decreases |a|
  {
    if a == [] {
      NonemptyKeys(b);
    } else {
      assert a[0] in KeySet(b) && KeySet(b) != {};
      SameFirst(a, b);
      RestKeys(a);
      RestKeys(b);
      SortedUnique(a[1..], b[1..]);
    }
  }

  lemma SameFirst(a: seq<Bytes32>, b: seq<Bytes32>)
    requires Sorted(a) && Sorted(b) && KeySet(a) == KeySet(b) && a != [] && b != []
    ensures a[0] == b[0]
  {
    assert a[0] in KeySet(b) && b[0] in KeySet(a);
    var i :| 0 <= i < |b| && b[i] == a[0];
    var j :| 0 <= j < |a| && a[j] == b[0];
    if i > 0 && j > 0 {
      BeforeIsTransitive(a[0], b[0], a[0]);
      BeforeIsStrict(a[0]);
    }
  }

  lemma RestKeys(a: seq<Bytes32>)
    requires Sorted(a) && a != []
    ensures Sorted(a[1..]) && KeySet(a[1..]) == KeySet(a) - {a[0]}
  {
    BeforeIsStrict(a[0]);
    forall k | k in KeySet(a) - {a[0]} ensures k in KeySet(a[1..]) {
      var i :| 0 <= i < |a| && a[i] == k;
      assert a[1..][i - 1] == k;
    }
  }

  // ---- The root ---------------------------------------------------------------------------------

  function LeafBytes(k: Bytes32, slot: Slot): Bytes {
    k + slot.encryptedValue + slot.valueCommitment
  }

  function Leaf(h: StateHash, k: Bytes32, slot: Slot): Bytes32 {
    h.leaf(LeafBytes(k, slot))
  }

  function LeavesOf(h: StateHash, slots: Slots, ks: seq<Bytes32>): seq<Bytes32>
    requires forall i :: 0 <= i < |ks| ==> ks[i] in slots
  {
    seq(|ks|, i requires 0 <= i < |ks| => Leaf(h, ks[i], slots[ks[i]]))
  }

  /** `ks` lists the keys of the map in order. */
  ghost predicate Lists(slots: Slots, ks: seq<Bytes32>) {
    Sorted(ks) && KeySet(ks) == slots.Keys
  }

  lemma ListedKeys(slots: Slots, ks: seq<Bytes32>)
    requires Lists(slots, ks)
    ensures forall i :: 0 <= i < |ks| ==> ks[i] in slots
    ensures ks == [] <==> slots == map[]
  {
    forall i | 0 <= i < |ks| ensures ks[i] in slots {
      assert ks[i] in KeySet(ks);
    }
    NonemptyKeys(ks);
    if ks == [] { assert slots.Keys == {}; }
  }

  ghost function RootFor(h: StateHash, slots: Slots, ks: seq<Bytes32>): Bytes32
    requires Lists(slots, ks)
  {
    ListedKeys(slots, ks);
    if ks == [] then ZERO32 else Root(h.node, LeavesOf(h, slots, ks))
  }

  /** A leaf hashes key, encrypted value and commitment, in this order; the root is that of the leaves by ascending key. */
  lemma RootOfEntries(h: StateHash, slots: Slots, ks: seq<Bytes32>, leaves: seq<Bytes32>)
    requires Lists(slots, ks) && |leaves| == |ks|
    requires forall i :: 0 <= i < |ks| && ks[i] in slots ==>
               leaves[i] == h.leaf(ks[i] + slots[ks[i]].encryptedValue + slots[ks[i]].valueCommitment)
    ensures forall i, j :: 0 <= i < j < |ks| ==> Less(ks[i], ks[j])
    ensures RootFor(h, slots, ks) == if ks == [] then ZERO32 else Root(h.node, leaves)
  {
    ListedKeys(slots, ks);
    forall i, j | 0 <= i < j < |ks| ensures Less(ks[i], ks[j]) {
      BeforeIffLess(ks[i], ks[j]);
    }
    var same := LeavesOf(h, slots, ks);
    forall i | 0 <= i < |ks| ensures leaves[i] == same[i] {
      assert ks[i] in slots;
    }
    assert leaves == same;
  }

  /**
   The keys come out of the hash map in any order; sorting makes the root a function of the map,
   whichever sorted list of its keys is taken for reference.
   */
  method ComputeStateRoot(h: StateHash, slots: Slots) returns (root: Bytes32, ghost keys: seq<Bytes32>)
    ensures Lists(slots, keys) && root == RootFor(h, slots, keys)
    ensures forall ks :: Lists(slots, ks) ==> root == RootFor(h, slots, ks)
  {
    var ks: seq<Bytes32> := [];
    var left := slots.Keys;
    while left != {}
      invariant left <= slots.Keys && Sorted(ks) && KeySet(ks) == slots.Keys - left
      decreases |left|
    {
      var k :| k in left;
      assert k !in KeySet(ks);
      ks := Insert(ks, k);
      left := left - {k};
    }
    keys := ks;
    ListedKeys(slots, ks);
    if ks == [] {
      root := ZERO32;
    } else {
      root := ComputeRoot(h.node, LeavesOf(h, slots, ks));
    }
    forall other | Lists(slots, other) ensures root == RootFor(h, slots, other) {
      SortedUnique(ks, other);
    }
  }

  // ---- What it commits to ---------------------------------------------------------------------------

  ghost predicate SameSlot(a: Slot, b: Slot) {
    a.encryptedValue == b.encryptedValue && a.valueCommitment == b.valueCommitment
  }

  /** The same keys, and under each the same encrypted value and commitment. */
  ghost predicate SameContents(a: Slots, b: Slots) {
    a.Keys == b.Keys && forall k :: k in a.Keys ==> SameSlot(a[k], b[k])
  }

  lemma {:induction false} ListedCount(ks: seq<Bytes32>)
    requires Sorted(ks)
    ensures |KeySet(ks)| == |ks|
  {
    if ks == [] {
      assert KeySet(ks) == {};
    } else {
      RestKeys(ks);
      ListedCount(ks[1..]);
      assert ks[0] in KeySet(ks);
    }
  }

  lemma LeafBytesBind(k: Bytes32, s: Slot, l: Bytes32, t: Slot)
    requires LeafBytes(k, s) == LeafBytes(l, t)
    ensures k == l && s.encryptedValue == t.encryptedValue && s.valueCommitment == t.valueCommitment
  {
    var b := LeafBytes(k, s);
    assert b[..32] == k && b[..32] == l;
    assert b[32..|b| - 32] == s.encryptedValue && b[32..|b| - 32] == t.encryptedValue;
    assert b[|b| - 32..] == s.valueCommitment && b[|b| - 32..] == t.valueCommitment;
  }

  ghost predicate SameEntries(a: Slots, b: Slots, ks: seq<Bytes32>, ls: seq<Bytes32>)
    requires (forall j :: 0 <= j < |ks| ==> ks[j] in a) && (forall j :: 0 <= j < |ls| ==> ls[j] in b)
  {
    |ks| == |ls| && forall i :: 0 <= i < |ks| ==> ks[i] == ls[i] && SameSlot(a[ks[i]], b[ls[i]])
  }

  /** Equal leaves come from equal entries, or two of them collide. */
  lemma LeavesBind(h: StateHash, a: Slots, b: Slots, ks: seq<Bytes32>, ls: seq<Bytes32>) returns (c: Clash)
    requires (forall j :: 0 <= j < |ks| ==> ks[j] in a) && (forall j :: 0 <= j < |ls| ==> ls[j] in b)
    requires LeavesOf(h, a, ks) == LeavesOf(h, b, ls)
    ensures SameEntries(a, b, ks, ls) || IsCollision(h, c)
  {
    c := LeafClash([], []);
    assert |ks| == |LeavesOf(h, a, ks)| == |LeavesOf(h, b, ls)| == |ls|;
    if !SameEntries(a, b, ks, ls) {
      var i :| 0 <= i < |ks| && !(ks[i] == ls[i] && SameSlot(a[ks[i]], b[ls[i]]));
      assert LeavesOf(h, a, ks)[i] == LeavesOf(h, b, ls)[i];
      c := LeafClash(LeafBytes(ks[i], a[ks[i]]), LeafBytes(ls[i], b[ls[i]]));
      if c.s == c.t { LeafBytesBind(ks[i], a[ks[i]], ls[i], b[ls[i]]); }
    }
  }

  lemma SameContentsSameRoot(h: StateHash, a: Slots, b: Slots, ks: seq<Bytes32>, ls: seq<Bytes32>)
    requires Lists(a, ks) && Lists(b, ls) && SameContents(a, b)
    ensures RootFor(h, a, ks) == RootFor(h, b, ls)
  {
    ListedKeys(a, ks);
    ListedKeys(b, ls);
    SortedUnique(ks, ls);
    assert LeavesOf(h, a, ks) == LeavesOf(h, b, ls);
  }

  lemma SameEntriesSameContents(a: Slots, b: Slots, ks: seq<Bytes32>, ls: seq<Bytes32>)
    requires Lists(a, ks) && Lists(b, ls)
    requires (forall j :: 0 <= j < |ks| ==> ks[j] in a) && (forall j :: 0 <= j < |ls| ==> ls[j] in b)
    requires SameEntries(a, b, ks, ls)
    ensures SameContents(a, b)
  {
    assert ks == ls;
    forall k | k in a.Keys ensures SameSlot(a[k], b[k]) {
      assert k in KeySet(ks);
    }
  }

  lemma SameRootSameContents(h: StateHash, a: Slots, b: Slots, ks: seq<Bytes32>, ls: seq<Bytes32>) returns (c: Clash)
    requires Lists(a, ks) && Lists(b, ls) && |ks| == |ls|
    requires RootFor(h, a, ks) == RootFor(h, b, ls)
    ensures SameContents(a, b) || IsCollision(h, c)
  {
    ListedKeys(a, ks);
    ListedKeys(b, ls);
    c := LeafClash([], []);
    if ks != [] {
      var p, q := RootBinds(h.node, LeavesOf(h, a, ks), LeavesOf(h, b, ls));
      if Collide(h.node, p, q) { return NodeClash(p, q); }
      c := LeavesBind(h, a, b, ks, ls);
    }
    if SameEntries(a, b, ks, ls) { SameEntriesSameContents(a, b, ks, ls); }
  }

  /**
   Maps of one size have one root exactly when they have the same contents, or else a collision of
   leaves or of nodes is at hand; the copied keys are not covered.
   */
  lemma StateRootBinds(h: StateHash, a: Slots, b: Slots, ks: seq<Bytes32>, ls: seq<Bytes32>) returns (c: Clash)
    requires Lists(a, ks) && Lists(b, ls) && |a| == |b|
    ensures SameContents(a, b) ==> RootFor(h, a, ks) == RootFor(h, b, ls)
    ensures RootFor(h, a, ks) == RootFor(h, b, ls) ==> SameContents(a, b) || IsCollision(h, c)
  {
    ListedCount(ks);
    ListedCount(ls);
    c := LeafClash([], []);
    if SameContents(a, b) { SameContentsSameRoot(h, a, b, ks, ls); }
    if RootFor(h, a, ks) == RootFor(h, b, ls) { c := SameRootSameContents(h, a, b, ks, ls); }
  }
}
