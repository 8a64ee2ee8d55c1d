/** Range proofs by bit decomposition: `src/crypto/ringct.rs`, second half. */
module RangeProof {
  import opened Common
  import opened Numbers
  import opened Ristretto
  import opened Pedersen

  const RANGE_BITS: nat := 64
  const BIT_LEN: nat := 160
  const PROOF_LEN: nat := 10272

  // ---- The proof that one commitment holds 0 or 1 -------------------------------

  datatype OrProof = OrProof(e0: int, e1: int, s0: int, s1: int)

  /** The challenge hash of one bit, over its commitment and the two branch points. */
  type BitHash = (Point, Point, Point) -> int

  function Branch0(g: Group, c: Point, pr: OrProof): Point {
    Minus(g, Scale(g, pr.s0, g.base), Scale(g, pr.e0, c))
  }

  function Branch1(g: Group, h: Point, c: Point, pr: OrProof): Point {
    Minus(g, Scale(g, pr.s1, g.base), Scale(g, pr.e1, Minus(g, c, h)))
  }

  predicate OrAccepts(g: Group, hash: BitHash, h: Point, c: Point, pr: OrProof) {
    hash(c, Branch0(g, c, pr), Branch1(g, h, c, pr)) == Reduce(g, pr.e0 + pr.e1)
  }

  /** The prover runs the branch of its bit with nonce `k` and simulates the other with (e, s). */
  function BuildOrProof(g: Group, hash: BitHash, h: Point, bit: nat, c: Point, r: int, k: int, e: int, s: int): OrProof {
    if bit == 0 then
      var total := hash(c, Scale(g, k, g.base), Minus(g, Scale(g, s, g.base), Scale(g, e, Minus(g, c, h))));
      var e0 := Reduce(g, total - e);
      OrProof(e0, e, Reduce(g, k + e0 * r), s)
    else
      var total := hash(c, Minus(g, Scale(g, s, g.base), Scale(g, e, c)), Scale(g, k, g.base));
      var e1 := Reduce(g, total - e);
      OrProof(e, e1, s, Reduce(g, k + e1 * r))
  }

  function CommitBit(g: Group, h: Point, bit: nat, r: int): Point {
    if bit == 0 then Scale(g, r, g.base) else g.plus(h, Scale(g, r, g.base))
  }

  /** The branch that was run for real reproduces its nonce point. */
  lemma RealBranch(g: Group, k: int, e: int, r: int)
    requires Lawful(g)
    ensures Minus(g, Scale(g, Reduce(g, k + e * r), g.base), Scale(g, e, Scale(g, r, g.base))) == Scale(g, k, g.base)
  {
    ScaleReduce(g, k + e * r, g.base);
    ScaleMul(g, e, r, g.base);
    ScaleSub(g, k + e * r, e * r, g.base);
  }

  lemma SharesAddUp(g: Group, total: int, e: int)
    requires Lawful(g) && IsScalar(g, total)
    ensures Reduce(g, Reduce(g, total - e) + e) == total && Reduce(g, e + Reduce(g, total - e)) == total
  {
    ReduceIsScalar(g, total - e);
    SameAdd(g, Reduce(g, total - e), total - e, e, e);
  }

  lemma ShiftedBit(g: Group, h: Point, r: int)
    requires Lawful(g)
    ensures Minus(g, g.plus(h, Scale(g, r, g.base)), h) == Scale(g, r, g.base)
  {
    assert Holds(g, Commutes(h, Scale(g, r, g.base)));
    MinusPlus(g, Scale(g, r, g.base), h);
  }

  ghost predicate HashReduced(g: Group, hash: BitHash, c: Point, a: Point, b: Point) {
    IsScalar(g, hash(c, a, b))
  }

  /** Either branch: a proof built for the committed bit is accepted, whatever the randomness. */
  lemma OrProofComplete(g: Group, hash: BitHash, h: Point, bit: nat, r: int, k: int, e: int, s: int)
    requires Lawful(g) && bit < 2
    requires forall c, a, b :: HashReduced(g, hash, c, a, b)
    ensures var c := CommitBit(g, h, bit, r); OrAccepts(g, hash, h, c, BuildOrProof(g, hash, h, bit, c, r, k, e, s))
  {
    var c := CommitBit(g, h, bit, r);
    var pr := BuildOrProof(g, hash, h, bit, c, r, k, e, s);
    var a, b := Branch0(g, c, pr), Branch1(g, h, c, pr);
    assert HashReduced(g, hash, c, a, b);
    if bit == 0 {
      RealBranch(g, k, pr.e0, r);
    } else {
      ShiftedBit(g, h, r);
      RealBranch(g, k, pr.e1, r);
    }
    SharesAddUp(g, hash(c, a, b), e);
  }

  // ---- Weighted sums ---------------------------------------------------------------

  /** sum of 2^i * ks[i] */
  function Weighted(ks: seq<int>): int {
    if ks == [] then 0 else Weighted(ks[..|ks| - 1]) + Pow(2, |ks| - 1) * ks[|ks| - 1]
  }

  /** sum of 2^i * cs[i] over points */
  function WeightedPoints(g: Group, cs: seq<Point>): Point {
    if cs == [] then g.zero
    else g.plus(WeightedPoints(g, cs[..|cs| - 1]), Scale(g, Pow(2, |cs| - 1), cs[|cs| - 1]))
  }

  /** Point i opens to value vs[i] under blinding rs[i]. */
  ghost predicate OpensAt(g: Group, h: Point, cs: seq<Point>, vs: seq<int>, rs: seq<int>, i: nat)
    requires i < |cs| == |vs| == |rs|
  {
    cs[i] == Combine(g, vs[i], h, rs[i], g.base)
  }

  ghost predicate AllOpenTo(g: Group, h: Point, cs: seq<Point>, vs: seq<int>, rs: seq<int>) {
    && |cs| == |vs| == |rs|
    && forall i :: 0 <= i < |cs| ==> OpensAt(g, h, cs, vs, rs, i)
  }

  lemma AllOpenPrefix(g: Group, h: Point, cs: seq<Point>, vs: seq<int>, rs: seq<int>)
    requires AllOpenTo(g, h, cs, vs, rs) && cs != []
    ensures var n := |cs| - 1; AllOpenTo(g, h, cs[..n], vs[..n], rs[..n])
  {
    var n := |cs| - 1;
    forall i | 0 <= i < n ensures OpensAt(g, h, cs[..n], vs[..n], rs[..n], i) {
      assert OpensAt(g, h, cs, vs, rs, i);
    }
  }

  /** The weighted sum of openings opens to the weighted sums. */
  lemma {:induction false} WeightedOpens(g: Group, h: Point, cs: seq<Point>, vs: seq<int>, rs: seq<int>)
    requires Lawful(g) && AllOpenTo(g, h, cs, vs, rs)
    ensures WeightedPoints(g, cs) == Combine(g, Weighted(vs), h, Weighted(rs), g.base)
  {
    if cs == [] {
      ScaleOne(g, h);
      ScaleOne(g, g.base);
      UnitRight(g, g.zero);
    } else {
      var n := |cs| - 1;
      AllOpenPrefix(g, h, cs, vs, rs);
      WeightedOpens(g, h, cs[..n], vs[..n], rs[..n]);
      assert OpensAt(g, h, cs, vs, rs, n);
      CombineScale(g, Pow(2, n), vs[n], rs[n], h, g.base);
      CombineAdd(g, Weighted(vs[..n]), Weighted(rs[..n]), Pow(2, n) * vs[n], Pow(2, n) * rs[n], h, g.base);
    }
  }

  function Bit(amount: nat, i: nat): (b: nat)
    ensures b < 2
  {
    PowPositive(i);
    amount / Pow(2, i) % 2
  }

  function Bits(amount: nat, k: nat): (bs: seq<int>)
    ensures |bs| == k && forall i :: 0 <= i < k ==> bs[i] == Bit(amount, i)
  {
    seq(k, i requires 0 <= i < k => Bit(amount, i))
  }

  /** The low k bits weigh as much as the number modulo 2^k. */
  lemma {:induction false} BitsWeigh(amount: nat, k: nat)
    ensures Pow(2, k) > 0 && Weighted(Bits(amount, k)) == amount % Pow(2, k)
  {
    PowPositive(k);
    if k > 0 {
      BitsWeigh(amount, k - 1);
      assert Bits(amount, k)[..k - 1] == Bits(amount, k - 1);
      TopBit(amount, Pow(2, k - 1));
    }
  }

  lemma TopBit(amount: nat, p: nat)
    requires p > 0
    ensures amount % (2 * p) == amount % p + p * (amount / p % 2)
  {
    var d, m := amount / p, amount % p;
    assert amount == p * d + m;
    EvenPart(p, d / 2, d % 2);
    BitTimes(p, d % 2);
    ModUnique(amount, 2 * p, d / 2, m + p * (d % 2));
  }

  lemma EvenPart(p: int, h: int, b: int)
    ensures p * (2 * h + b) == (2 * p) * h + p * b
  {}

  lemma BitTimes(p: nat, b: int)
    requires 0 <= b < 2
    ensures 0 <= p * b <= p && p * b == if b == 0 then 0 else p
  {
    if b == 0 { assert p * b == 0; } else { assert p * b == p; }
  }

  lemma {:induction false} BitsBounded(bs: seq<int>)
    requires forall i :: 0 <= i < |bs| ==> 0 <= bs[i] < 2
    ensures 0 <= Weighted(bs) < Pow(2, |bs|)
  {
    if bs != [] {
      var n := |bs| - 1;
      BitsBounded(bs[..n]);
      BitTimes(Pow(2, n), bs[n]);
    }
  }

  // ---- Bytes: 64 chunks of five 32-byte fields, then the tag ------------------------

  /** The bytes of bit `i`. */
  function Chunk(proof: Bytes, i: nat): (b: Bytes)
    requires i < RANGE_BITS && |proof| == PROOF_LEN
    ensures |b| == BIT_LEN
  {
    proof[BIT_LEN * i..BIT_LEN * i + BIT_LEN]
  }

  function Field(chunk: Bytes, k: nat): (b: Bytes)
    requires |chunk| == BIT_LEN && k < 5
    ensures |b| == 32
  {
    chunk[32 * k..32 * k + 32]
  }

  function EncodeBit(g: Group, c: Point, pr: OrProof): (b: Bytes)
    ensures |b| == BIT_LEN
  {
    g.compress(c) + g.scalarBytes(pr.e0) + g.scalarBytes(pr.e1) + g.scalarBytes(pr.s0) + g.scalarBytes(pr.s1)
  }

  lemma EncodedFields(g: Group, c: Point, pr: OrProof)
    ensures var b := EncodeBit(g, c, pr);
            && Field(b, 0) == g.compress(c)
            && Field(b, 1) == g.scalarBytes(pr.e0) && Field(b, 2) == g.scalarBytes(pr.e1)
            && Field(b, 3) == g.scalarBytes(pr.s0) && Field(b, 4) == g.scalarBytes(pr.s1)
  {}

  predicate BitDecodes(g: Group, chunk: Bytes)
    requires |chunk| == BIT_LEN
  {
    && g.decompress(Field(chunk, 0)).Some?
    && ScalarFromBytes(g, Field(chunk, 1)).Some? && ScalarFromBytes(g, Field(chunk, 2)).Some?
    && ScalarFromBytes(g, Field(chunk, 3)).Some? && ScalarFromBytes(g, Field(chunk, 4)).Some?
  }

  function BitPoint(g: Group, chunk: Bytes): Point
    requires |chunk| == BIT_LEN && BitDecodes(g, chunk)
  {
    g.decompress(Field(chunk, 0)).value
  }

  function BitProof(g: Group, chunk: Bytes): OrProof
    requires |chunk| == BIT_LEN && BitDecodes(g, chunk)
  {
    OrProof(ScalarFromBytes(g, Field(chunk, 1)).value, ScalarFromBytes(g, Field(chunk, 2)).value,
            ScalarFromBytes(g, Field(chunk, 3)).value, ScalarFromBytes(g, Field(chunk, 4)).value)
  }

  function HashToScalar(g: Group, o: Hashes): BitHash {
    (c: Point, a: Point, b: Point) => Reduce(g, o.sha512("CipherX_range_v1", [g.compress(c), g.compress(a), g.compress(b)]))
  }

  predicate BitAccepts(g: Group, o: Hashes, chunk: Bytes)
    requires |chunk| == BIT_LEN
  {
    BitDecodes(g, chunk) && OrAccepts(g, HashToScalar(g, o), ValueBase(o), BitPoint(g, chunk), BitProof(g, chunk))
  }

  predicate BitsAccept(g: Group, o: Hashes, proof: Bytes)
    requires |proof| == PROOF_LEN
  {
    forall i :: 0 <= i < RANGE_BITS ==> BitAccepts(g, o, Chunk(proof, i))
  }

  function BitPoints(g: Group, o: Hashes, proof: Bytes): (cs: seq<Point>)
    requires |proof| == PROOF_LEN && BitsAccept(g, o, proof)
    ensures |cs| == RANGE_BITS
    ensures forall i :: 0 <= i < RANGE_BITS ==> cs[i] == BitPoint(g, Chunk(proof, i))
  {
    seq(RANGE_BITS, i requires 0 <= i < RANGE_BITS => BitPoint(g, Chunk(proof, i)))
  }

  function Tag(g: Group, o: Hashes, commitment: Bytes, cs: seq<Point>): Bytes32 {
    o.sha256("CipherX_range_tag_v1", [commitment] + seq(|cs|, i requires 0 <= i < |cs| => g.compress(cs[i])))
  }

  /** What the verifier accepts: every bit proof, the weighted sum, and the tag. */
  predicate Accepts(g: Group, o: Hashes, commitment: Bytes, proof: Bytes) {
    && |proof| == PROOF_LEN
    && g.decompress(commitment).Some?
    && BitsAccept(g, o, proof)
    && g.compress(WeightedPoints(g, BitPoints(g, o, proof))) == g.compress(g.decompress(commitment).value)
    && proof[BIT_LEN * RANGE_BITS..] == Tag(g, o, commitment, BitPoints(g, o, proof))
  }

  /** The byte range the verifier cuts for field `k` of bit `i`. */
  lemma FieldSlice(proof: Bytes, i: nat, k: nat)
    requires |proof| == PROOF_LEN && i < RANGE_BITS && k < 5
    ensures var start := BIT_LEN * i + 32 * k; proof[start..start + 32] == Field(Chunk(proof, i), k)
  {
    var start, chunk := BIT_LEN * i, Chunk(proof, i);
    forall j | 0 <= j < 32 ensures Field(chunk, k)[j] == proof[start + 32 * k..start + 32 * k + 32][j] {
      assert chunk[32 * k + j] == proof[start + (32 * k + j)];
    }
  }

  lemma FieldSlices(proof: Bytes, i: nat, off: nat)
    requires |proof| == PROOF_LEN && i < RANGE_BITS && off == BIT_LEN * i
    ensures off + BIT_LEN <= |proof|
    ensures var chunk := Chunk(proof, i);
            && proof[off..off + 32] == Field(chunk, 0) && proof[off + 32..off + 64] == Field(chunk, 1)
            && proof[off + 64..off + 96] == Field(chunk, 2) && proof[off + 96..off + 128] == Field(chunk, 3)
            && proof[off + 128..off + 160] == Field(chunk, 4)
  {
    FieldSlice(proof, i, 0);
    FieldSlice(proof, i, 1);
    FieldSlice(proof, i, 2);
    FieldSlice(proof, i, 3);
    FieldSlice(proof, i, 4);
  }

  /** One iteration of the verifier's first loop: parse the fields and check the OR-proof. */
  method VerifyBit(g: Group, o: Hashes, h: Point, proof: Bytes, off: nat, ghost i: nat) returns (c: Option<Point>)
    requires |proof| == PROOF_LEN && i < RANGE_BITS && off == BIT_LEN * i && h == ValueBase(o)
    ensures c.Some? <==> BitAccepts(g, o, Chunk(proof, i))
    ensures c.Some? ==> c.value == BitPoint(g, Chunk(proof, i))
  {
    FieldSlices(proof, i, off);
    var p := g.decompress(proof[off..off + 32]);
    if p.None? { return None; }
    var e0 := ScalarFromBytes(g, proof[off + 32..off + 64]);
    if e0.None? { return None; }
    var e1 := ScalarFromBytes(g, proof[off + 64..off + 96]);
    if e1.None? { return None; }
    var s0 := ScalarFromBytes(g, proof[off + 96..off + 128]);
    if s0.None? { return None; }
    var s1 := ScalarFromBytes(g, proof[off + 128..off + 160]);
    if s1.None? { return None; }
    var a0 := Minus(g, Scale(g, s0.value, g.base), Scale(g, e0.value, p.value));
    var a1 := Minus(g, Scale(g, s1.value, g.base), Scale(g, e1.value, Minus(g, p.value, h)));
    if HashToScalar(g, o)(p.value, a0, a1) != Reduce(g, e0.value + e1.value) { return None; }
    return p;
  }

  /** Doubling the running power of two, modulo the order. */
  lemma DoublePower(g: Group, pow: int, i: nat)
    requires Lawful(g) && Same(g, pow, Pow(2, i))
    ensures Same(g, Reduce(g, pow * 2), Pow(2, i + 1))
  {
    SameMul(g, pow, Pow(2, i), 2, 2);
    ReduceIsScalar(g, pow * 2);
  }

  /** The verifier's second loop. */
  method SumPoints(g: Group, cs: seq<Point>) returns (acc: Point)
    requires Lawful(g)
    ensures acc == WeightedPoints(g, cs)
  {
    acc := g.zero;
    var pow := Reduce(g, 1);
    ReduceIsScalar(g, 1);
    for i := 0 to |cs|
      invariant acc == WeightedPoints(g, cs[..i]) && Same(g, pow, Pow(2, i))
    {
      ScaleSame(g, pow, Pow(2, i), cs[i]);
      assert cs[..i + 1][..i] == cs[..i];
      acc := g.plus(acc, Scale(g, pow, cs[i]));
      DoublePower(g, pow, i);
      pow := Reduce(g, pow * 2);
    }
    assert cs[..|cs|] == cs;
  }

  ghost predicate BitChecked(g: Group, o: Hashes, proof: Bytes, points: seq<Point>, j: nat)
    requires |proof| == PROOF_LEN && j < |points| <= RANGE_BITS
  {
    BitAccepts(g, o, Chunk(proof, j)) && points[j] == BitPoint(g, Chunk(proof, j))
  }

  lemma AllChecked(g: Group, o: Hashes, proof: Bytes, points: seq<Point>)
    requires |proof| == PROOF_LEN && |points| == RANGE_BITS
    requires forall j :: 0 <= j < RANGE_BITS ==> BitChecked(g, o, proof, points, j)
    ensures BitsAccept(g, o, proof) && points == BitPoints(g, o, proof)
  {
    forall j | 0 <= j < RANGE_BITS ensures BitAccepts(g, o, Chunk(proof, j)) && points[j] == BitPoint(g, Chunk(proof, j)) {
      assert BitChecked(g, o, proof, points, j);
    }
  }

  /** The verifier's first loop. */
  method VerifyBits(g: Group, o: Hashes, proof: Bytes) returns (points: Option<seq<Point>>)
    requires |proof| == PROOF_LEN
    ensures points.Some? <==> BitsAccept(g, o, proof)
    ensures points.Some? ==> points.value == BitPoints(g, o, proof)
  {
    var h := ValueBase(o);
    var ps: seq<Point> := [];
    var off := 0;
    for i := 0 to RANGE_BITS
      invariant off == BIT_LEN * i && |ps| == i
      invariant forall j :: 0 <= j < i ==> BitChecked(g, o, proof, ps, j)
    {
      var c := VerifyBit(g, o, h, proof, off, i);
      if c.None? { return None; }
      off := off + BIT_LEN;
      ghost var before := ps;
      ps := ps + [c.value];
      forall j | 0 <= j <= i ensures BitChecked(g, o, proof, ps, j) {
        if j < i { assert BitChecked(g, o, proof, before, j); }
      }
    }
    AllChecked(g, o, proof, ps);
    return Some(ps);
  }

  method VerifyRange(g: Group, o: Hashes, commitment: Bytes, proof: Bytes) returns (ok: bool)
    requires Lawful(g)
    ensures ok == Accepts(g, o, commitment, proof)
  {
    if |proof| != RANGE_BITS * BIT_LEN + 32 { return false; }
    var outer := g.decompress(commitment);
    if outer.None? { return false; }
    var points := VerifyBits(g, o, proof);
    if points.None? { return false; }
    var acc := SumPoints(g, points.value);
    if g.compress(acc) != g.compress(outer.value) { return false; }
    return Tag(g, o, commitment, points.value) == proof[BIT_LEN * RANGE_BITS..];
  }

  // ---- Proving ------------------------------------------------------------------------

  /** A point that commits to bit i of the amount. */
  ghost predicate CommitsBit(g: Group, h: Point, amount: nat, cs: seq<Point>, rs: seq<int>, i: nat)
    requires i < |cs| == |rs|
  {
    cs[i] == CommitBit(g, h, Bit(amount, i), rs[i])
  }

  ghost predicate CommitsBits(g: Group, h: Point, amount: nat, cs: seq<Point>, rs: seq<int>) {
    |cs| == |rs| && forall i :: 0 <= i < |cs| ==> CommitsBit(g, h, amount, cs, rs, i)
  }

  lemma CommitBitOpens(g: Group, h: Point, bit: nat, r: int)
    requires Lawful(g) && bit < 2
    ensures CommitBit(g, h, bit, r) == Combine(g, bit, h, r, g.base)
  {
    ScaleOne(g, h);
    UnitRight(g, Scale(g, r, g.base));
  }

  lemma CommittedBitsOpen(g: Group, h: Point, amount: nat, cs: seq<Point>, rs: seq<int>)
    requires Lawful(g) && CommitsBits(g, h, amount, cs, rs)
    ensures AllOpenTo(g, h, cs, Bits(amount, |cs|), rs)
  {
    forall i | 0 <= i < |cs| ensures OpensAt(g, h, cs, Bits(amount, |cs|), rs, i) {
      assert CommitsBit(g, h, amount, cs, rs, i);
      CommitBitOpens(g, h, Bit(amount, i), rs[i]);
    }
  }

  /** The last blinding, divided by 2^(n-1), makes the weighted blindings sum to the outer one. */
  lemma LastBlindingCloses(g: Group, rs: seq<int>, total: int, acc: int, pow: int, last: int)
    requires Lawful(g) && Same(g, acc, Weighted(rs)) && Same(g, pow, Pow(2, |rs|))
    requires last == Reduce(g, (total - acc) * g.invert(pow))
    ensures Same(g, Weighted(rs + [last]), total)
  {
    var p, i := Pow(2, |rs|), g.invert(pow);
    assert (rs + [last])[..|rs|] == rs;
    assert Holds(g, Order);
    PowTwoNonzero(|rs|, g.order);
    SameIsCong(g, p, 0);
    InvertIsInverse(g, pow);
    ReduceIsScalar(g, (total - acc) * i);
    // 2^(n-1) * last = pow * ((total - acc) * i) = total - acc
    SameMul(g, p, pow, last, (total - acc) * i);
    SameMul(g, pow * i, 1, total - acc, total - acc);
    assert pow * ((total - acc) * i) == (pow * i) * (total - acc);
    SameAdd(g, Weighted(rs), acc, p * last, total - acc);
  }

  /** The first loop of `prove_range`: one commitment per bit, the last blinding closing the sum. */
  method CommitToBits(g: Group, h: Point, amount: u64, total: int, wide: seq<nat>)
    returns (cs: seq<Point>, rs: seq<int>)
    requires Lawful(g) && |wide| == RANGE_BITS - 1
    ensures |cs| == RANGE_BITS && CommitsBits(g, h, amount, cs, rs)
    ensures Same(g, Weighted(rs), total)
    ensures forall i :: 0 <= i < RANGE_BITS - 1 ==> rs[i] == Reduce(g, wide[i])
  {
    cs, rs := [], [];
    var accR := 0;
    var accPow := Reduce(g, 1);
    ReduceIsScalar(g, 1);
    for i := 0 to RANGE_BITS
      invariant |cs| == |rs| == i && CommitsBits(g, h, amount, cs, rs)
      invariant Same(g, accPow, Pow(2, i))
      invariant i < RANGE_BITS ==> Same(g, accR, Weighted(rs))
      invariant i == RANGE_BITS ==> Same(g, Weighted(rs), total)
      invariant forall j :: 0 <= j < i && j < RANGE_BITS - 1 ==> rs[j] == Reduce(g, wide[j])
    {
      var bit := Bit(amount, i);
      var r;
      if i < RANGE_BITS - 1 {
        r := Reduce(g, wide[i]);
        accR := AddWeighted(g, accR, accPow, r, rs);
      } else {
        r := Reduce(g, (total - accR) * g.invert(accPow));
        LastBlindingCloses(g, rs, total, accR, accPow, r);
      }
      var c := if bit == 0 then Scale(g, r, g.base) else g.plus(h, Scale(g, r, g.base));
      ExtendCommits(g, h, amount, cs, rs, c, r);
      cs, rs := cs + [c], rs + [r];
      DoublePower(g, accPow, i);
      accPow := Reduce(g, accPow * 2);
    }
  }

  lemma ExtendCommits(g: Group, h: Point, amount: nat, cs: seq<Point>, rs: seq<int>, c: Point, r: int)
    requires CommitsBits(g, h, amount, cs, rs) && c == CommitBit(g, h, Bit(amount, |cs|), r)
    ensures CommitsBits(g, h, amount, cs + [c], rs + [r])
  {
    var cs1, rs1 := cs + [c], rs + [r];
    forall i | 0 <= i < |cs1| ensures CommitsBit(g, h, amount, cs1, rs1, i) {
      if i < |cs| { assert CommitsBit(g, h, amount, cs, rs, i); }
    }
  }

  /** acc + 2^i * r, modulo the order */
  method AddWeighted(g: Group, acc: int, pow: int, r: int, ghost rs: seq<int>) returns (sum: int)
    requires Lawful(g) && Same(g, acc, Weighted(rs)) && Same(g, pow, Pow(2, |rs|))
    ensures Same(g, sum, Weighted(rs + [r]))
  {
    assert (rs + [r])[..|rs|] == rs;
    SameMul(g, pow, Pow(2, |rs|), r, r);
    SameAdd(g, acc, Weighted(rs), pow * r, Pow(2, |rs|) * r);
    ReduceIsScalar(g, acc + pow * r);
    sum := Reduce(g, acc + pow * r);
  }

  /** The two simulated values and the nonce of one bit, as drawn. */
  datatype BitNonce = BitNonce(k: nat, e: nat, s: nat)

  function ReducedProof(g: Group, pr: OrProof): OrProof {
    OrProof(Reduce(g, pr.e0), Reduce(g, pr.e1), Reduce(g, pr.s0), Reduce(g, pr.s1))
  }

  /** An accepted OR-proof stays accepted through its bytes. */
  lemma EncodedBitAccepts(g: Group, o: Hashes, c: Point, pr: OrProof)
    requires Lawful(g) && OrAccepts(g, HashToScalar(g, o), ValueBase(o), c, pr)
    ensures BitAccepts(g, o, EncodeBit(g, c, pr)) && BitPoint(g, EncodeBit(g, c, pr)) == c
  {
    EncodedFields(g, c, pr);
    CompressRoundTrip(g, c);
    ScalarRoundTrip(g, pr.e0);
    ScalarRoundTrip(g, pr.e1);
    ScalarRoundTrip(g, pr.s0);
    ScalarRoundTrip(g, pr.s1);
    ReducedAccepts(g, HashToScalar(g, o), ValueBase(o), c, pr);
  }

  lemma ReducedAccepts(g: Group, hash: BitHash, h: Point, c: Point, pr: OrProof)
    requires Lawful(g) && OrAccepts(g, hash, h, c, pr)
    ensures OrAccepts(g, hash, h, c, ReducedProof(g, pr))
  {
    ScaleReduce(g, pr.s0, g.base);
    ScaleReduce(g, pr.s1, g.base);
    ScaleReduce(g, pr.e0, c);
    ScaleReduce(g, pr.e1, Minus(g, c, h));
    ReduceIsScalar(g, pr.e0);
    ReduceIsScalar(g, pr.e1);
    SameAdd(g, Reduce(g, pr.e0), pr.e0, Reduce(g, pr.e1), pr.e1);
  }

  lemma HashesReduced(g: Group, o: Hashes)
    requires Lawful(g)
    ensures forall c, a, b :: HashReduced(g, HashToScalar(g, o), c, a, b)
  {
    forall c, a, b ensures HashReduced(g, HashToScalar(g, o), c, a, b) {
      ReduceIsScalar(g, o.sha512("CipherX_range_v1", [g.compress(c), g.compress(a), g.compress(b)]));
    }
  }

  /** The bytes of one honestly proved bit. */
  method ProveBit(g: Group, o: Hashes, h: Point, bit: nat, c: Point, r: int, nonce: BitNonce) returns (chunk: Bytes)
    requires Lawful(g) && h == ValueBase(o) && bit < 2 && c == CommitBit(g, h, bit, r)
    ensures |chunk| == BIT_LEN && BitAccepts(g, o, chunk) && BitPoint(g, chunk) == c
  {
    var pr := BuildOrProof(g, HashToScalar(g, o), h, bit, c, r, Reduce(g, nonce.k), Reduce(g, nonce.e), Reduce(g, nonce.s));
    HashesReduced(g, o);
    OrProofComplete(g, HashToScalar(g, o), h, bit, r, Reduce(g, nonce.k), Reduce(g, nonce.e), Reduce(g, nonce.s));
    EncodedBitAccepts(g, o, c, pr);
    return EncodeBit(g, c, pr);
  }

  /** Chunk `j` of a proof under construction. */
  function PartialChunk(bytes: Bytes, j: nat): (b: Bytes)
    requires BIT_LEN * j + BIT_LEN <= |bytes|
    ensures |b| == BIT_LEN
  {
    bytes[BIT_LEN * j..BIT_LEN * j + BIT_LEN]
  }

  ghost predicate ChunkProves(g: Group, o: Hashes, bytes: Bytes, cs: seq<Point>, j: nat)
    requires BIT_LEN * j + BIT_LEN <= |bytes| && j < |cs|
  {
    BitAccepts(g, o, PartialChunk(bytes, j)) && BitPoint(g, PartialChunk(bytes, j)) == cs[j]
  }

  lemma ChunksKept(bytes: Bytes, more: Bytes, j: nat)
    requires BIT_LEN * j + BIT_LEN <= |bytes|
    ensures PartialChunk(bytes + more, j) == PartialChunk(bytes, j)
  {}

  /** The second loop of `prove_range`: the chunks, one after another. */
  method ProveBits(g: Group, o: Hashes, amount: u64, cs: seq<Point>, rs: seq<int>, nonces: seq<BitNonce>)
    returns (bytes: Bytes)
    requires Lawful(g) && |cs| == |nonces| == RANGE_BITS && CommitsBits(g, ValueBase(o), amount, cs, rs)
    ensures |bytes| == BIT_LEN * RANGE_BITS
    ensures forall j :: 0 <= j < RANGE_BITS ==> ChunkProves(g, o, bytes, cs, j)
  {
    bytes := [];
    var h := ValueBase(o);
    for i := 0 to RANGE_BITS
      invariant |bytes| == BIT_LEN * i
      invariant forall j :: 0 <= j < i ==> ChunkProves(g, o, bytes, cs, j)
    {
      assert CommitsBit(g, h, amount, cs, rs, i);
      var chunk := ProveBit(g, o, h, Bit(amount, i), cs[i], rs[i], nonces[i]);
      ghost var before := bytes;
      bytes := bytes + chunk;
      assert PartialChunk(bytes, i) == chunk;
      forall j | 0 <= j <= i ensures ChunkProves(g, o, bytes, cs, j) {
        if j < i {
          assert ChunkProves(g, o, before, cs, j);
          ChunksKept(before, chunk, j);
        }
      }
    }
  }

  /**
   Completeness: for every amount, every canonical blinding and all random choices, the proof that
   the prover outputs is accepted for the commitment to that amount under that blinding.
   */
  method ProveRange(g: Group, o: Hashes, amount: u64, blinding: Bytes, wide: seq<nat>, nonces: seq<BitNonce>)
    returns (proof: Option<Bytes>)
    requires Lawful(g) && |wide| == RANGE_BITS - 1 && |nonces| == RANGE_BITS
    ensures proof.Some? <==> ScalarFromBytes(g, blinding).Some?
    ensures proof.Some? ==> Accepts(g, o, Commit(g, o, amount, blinding).value, proof.value)
  {
    var total := ScalarFromBytes(g, blinding);
    if total.None? { return None; }
    var h := ValueBase(o);
    var cs, rs := CommitToBits(g, h, amount, total.value, wide);
    var bytes := ProveBits(g, o, amount, cs, rs, nonces);
    var outer := Commit(g, o, amount, blinding);
    var tag := Tag(g, o, outer.value, cs);
    BitsReachCommitment(g, o, amount, total.value, cs, rs);
    CommitOpens(g, o, amount, blinding);
    AssembledAccepts(g, o, outer.value, cs, bytes, tag);
    return Some(bytes + tag);
  }

  /** The weighted bit commitments add up to the outer commitment. */
  lemma BitsReachCommitment(g: Group, o: Hashes, amount: u64, total: int, cs: seq<Point>, rs: seq<int>)
    requires Lawful(g) && |cs| == RANGE_BITS && CommitsBits(g, ValueBase(o), amount, cs, rs)
    requires Same(g, Weighted(rs), total)
    ensures WeightedPoints(g, cs) == Opening(g, o, amount, total)
  {
    CommittedBitsOpen(g, ValueBase(o), amount, cs, rs);
    WeightedOpens(g, ValueBase(o), cs, Bits(amount, RANGE_BITS), rs);
    BitsWeigh(amount, RANGE_BITS);
    PowersOfTwo();
    SmallMod(amount, U64);
    ScaleSame(g, Weighted(rs), total, g.base);
  }

  lemma AssembledAccepts(g: Group, o: Hashes, commitment: Bytes, cs: seq<Point>, bytes: Bytes, tag: Bytes32)
    requires Lawful(g) && |cs| == RANGE_BITS && |bytes| == BIT_LEN * RANGE_BITS
    requires forall j :: 0 <= j < RANGE_BITS ==> ChunkProves(g, o, bytes, cs, j)
    requires g.decompress(commitment) == Some(WeightedPoints(g, cs)) && tag == Tag(g, o, commitment, cs)
    ensures Accepts(g, o, commitment, bytes + tag)
  {
    var proof := bytes + tag;
    forall j | 0 <= j < RANGE_BITS ensures BitAccepts(g, o, Chunk(proof, j)) && BitPoint(g, Chunk(proof, j)) == cs[j] {
      assert ChunkProves(g, o, bytes, cs, j);
      ChunksKept(bytes, tag, j);
    }
    assert BitPoints(g, o, proof) == cs;
    assert proof[BIT_LEN * RANGE_BITS..] == tag;
  }

  // ---- Soundness by extraction ------------------------------------------------------------

  /** The bit and blinding that two accepted OR-proofs over one commitment give away. */
  function ExtractBit(g: Group, pr: OrProof, qr: OrProof): (w: (nat, int))
    ensures w.0 < 2
  {
    if !SameScalar(g, pr.e0, qr.e0) then (0, ExtractKey(g, pr.s0, -pr.e0, qr.s0, -qr.e0))
    else (1, ExtractKey(g, pr.s1, -pr.e1, qr.s1, -qr.e1))
  }

  predicate SameScalar(g: Group, a: int, b: int) {
    Reduce(g, a) == Reduce(g, b)
  }

  lemma BranchIsCombination(g: Group, s: int, e: int, p: Point)
    requires Lawful(g)
    ensures Minus(g, Scale(g, s, g.base), Scale(g, e, p)) == Combine(g, s, g.base, -e, p)
  {
    NegateIsScale(g, Scale(g, e, p));
    ScaleMul(g, -1, e, p);
    assert (-1) * e == -e;
  }

  /** Two openings of one branch point with different challenges solve for its discrete logarithm. */
  lemma BranchSolves(g: Group, s: int, e: int, t: int, f: int, p: Point)
    requires Lawful(g) && !Same(g, e, f)
    requires Minus(g, Scale(g, s, g.base), Scale(g, e, p)) == Minus(g, Scale(g, t, g.base), Scale(g, f, p))
    ensures p == Scale(g, ExtractKey(g, s, -e, t, -f), g.base)
  {
    BranchIsCombination(g, s, e, p);
    BranchIsCombination(g, t, f, p);
    if Same(g, -e, -f) { SameAdd(g, 0, 0, -e, -f); }
    ExtractOn(g, g.base, p, s, -e, t, -f);
  }

  /** Both transcripts of one bit commit to the same points and were challenged differently. */
  ghost predicate Forked(g: Group, h: Point, c: Point, pr: OrProof, qr: OrProof) {
    && Branch0(g, c, pr) == Branch0(g, c, qr) && Branch1(g, h, c, pr) == Branch1(g, h, c, qr)
    && !Same(g, pr.e0 + pr.e1, qr.e0 + qr.e1)
  }

  lemma ExtractBitSound(g: Group, h: Point, c: Point, pr: OrProof, qr: OrProof)
    requires Lawful(g) && Forked(g, h, c, pr, qr)
    ensures var (b, r) := ExtractBit(g, pr, qr); c == Combine(g, b, h, r, g.base)
  {
    var (b, r) := ExtractBit(g, pr, qr);
    CommitBitOpens(g, h, b, r);
    if b == 0 {
      BranchSolves(g, pr.s0, pr.e0, qr.s0, qr.e0, c);
    } else {
      if Same(g, pr.e1, qr.e1) { SameAdd(g, pr.e0, qr.e0, pr.e1, qr.e1); }
      BranchSolves(g, pr.s1, pr.e1, qr.s1, qr.e1, Minus(g, c, h));
      MinusPlus(g, c, h);
      assert Holds(g, Commutes(Minus(g, c, h), h));
    }
  }

  /** The two proofs fork at bit `i`: same commitment and branch points, different challenge hashes. */
  ghost predicate ForkedAt(g: Group, o: Hashes, proof: Bytes, o': Hashes, proof': Bytes, i: nat)
    requires |proof| == |proof'| == PROOF_LEN && i < RANGE_BITS
    requires BitAccepts(g, o, Chunk(proof, i)) && BitAccepts(g, o', Chunk(proof', i))
  {
    var c, pr, qr := BitPoint(g, Chunk(proof, i)), BitProof(g, Chunk(proof, i)), BitProof(g, Chunk(proof', i));
    var a, b := Branch0(g, c, pr), Branch1(g, ValueBase(o), c, pr);
    && BitPoint(g, Chunk(proof', i)) == c
    && Branch0(g, c, qr) == a && Branch1(g, ValueBase(o), c, qr) == b
    && HashToScalar(g, o)(c, a, b) != HashToScalar(g, o')(c, a, b)
  }

  ghost predicate ForkedEverywhere(g: Group, o: Hashes, proof: Bytes, o': Hashes, proof': Bytes)
    requires |proof| == |proof'| == PROOF_LEN && BitsAccept(g, o, proof) && BitsAccept(g, o', proof')
  {
    forall i :: 0 <= i < RANGE_BITS ==> ForkedAt(g, o, proof, o', proof', i)
  }

  function BitWitness(g: Group, proof: Bytes, proof': Bytes, i: nat): (w: (nat, int))
    requires |proof| == |proof'| == PROOF_LEN && i < RANGE_BITS
    requires BitDecodes(g, Chunk(proof, i)) && BitDecodes(g, Chunk(proof', i))
    ensures w.0 < 2
  {
    ExtractBit(g, BitProof(g, Chunk(proof, i)), BitProof(g, Chunk(proof', i)))
  }

  predicate AllDecode(g: Group, proof: Bytes)
    requires |proof| == PROOF_LEN
  {
    forall i :: 0 <= i < RANGE_BITS ==> BitDecodes(g, Chunk(proof, i))
  }

  function ExtractedBits(g: Group, proof: Bytes, proof': Bytes): (bs: seq<int>)
    requires |proof| == |proof'| == PROOF_LEN && AllDecode(g, proof) && AllDecode(g, proof')
    ensures |bs| == RANGE_BITS && forall i :: 0 <= i < RANGE_BITS ==> bs[i] == BitWitness(g, proof, proof', i).0
  {
    seq(RANGE_BITS, i requires 0 <= i < RANGE_BITS => BitWitness(g, proof, proof', i).0)
  }

  function ExtractedBlindings(g: Group, proof: Bytes, proof': Bytes): (rs: seq<int>)
    requires |proof| == |proof'| == PROOF_LEN && AllDecode(g, proof) && AllDecode(g, proof')
    ensures |rs| == RANGE_BITS && forall i :: 0 <= i < RANGE_BITS ==> rs[i] == BitWitness(g, proof, proof', i).1
  {
    seq(RANGE_BITS, i requires 0 <= i < RANGE_BITS => BitWitness(g, proof, proof', i).1)
  }

  /** The value and blinding that two forked proofs give away. */
  function ExtractOpening(g: Group, proof: Bytes, proof': Bytes): (w: (int, int))
    requires |proof| == |proof'| == PROOF_LEN && AllDecode(g, proof) && AllDecode(g, proof')
  {
    (Weighted(ExtractedBits(g, proof, proof')), Weighted(ExtractedBlindings(g, proof, proof')))
  }

  lemma ForkedBitOpens(g: Group, o: Hashes, proof: Bytes, o': Hashes, proof': Bytes, i: nat)
    requires Lawful(g) && |proof| == |proof'| == PROOF_LEN && i < RANGE_BITS && ValueBase(o) == ValueBase(o')
    requires BitAccepts(g, o, Chunk(proof, i)) && BitAccepts(g, o', Chunk(proof', i))
    requires ForkedAt(g, o, proof, o', proof', i)
    ensures var (b, r) := BitWitness(g, proof, proof', i);
            BitPoint(g, Chunk(proof, i)) == Combine(g, b, ValueBase(o), r, g.base)
  {
    ExtractBitSound(g, ValueBase(o), BitPoint(g, Chunk(proof, i)), BitProof(g, Chunk(proof, i)), BitProof(g, Chunk(proof', i)));
  }

  lemma ForkedBitsOpen(g: Group, o: Hashes, proof: Bytes, o': Hashes, proof': Bytes)
    requires Lawful(g) && |proof| == |proof'| == PROOF_LEN && ValueBase(o) == ValueBase(o')
    requires BitsAccept(g, o, proof) && BitsAccept(g, o', proof') && ForkedEverywhere(g, o, proof, o', proof')
    ensures AllDecode(g, proof) && AllDecode(g, proof')
    ensures AllOpenTo(g, ValueBase(o), BitPoints(g, o, proof),
                      ExtractedBits(g, proof, proof'), ExtractedBlindings(g, proof, proof'))
  {
    forall i | 0 <= i < RANGE_BITS
      ensures OpensAt(g, ValueBase(o), BitPoints(g, o, proof), ExtractedBits(g, proof, proof'), ExtractedBlindings(g, proof, proof'), i)
    {
      assert BitAccepts(g, o, Chunk(proof, i)) && BitAccepts(g, o', Chunk(proof', i));
      assert ForkedAt(g, o, proof, o', proof', i);
      ForkedBitOpens(g, o, proof, o', proof', i);
    }
  }

  /**
   Soundness: two accepted proofs for one commitment that share, bit by bit, the bit commitment and
   both branch points but were challenged differently, open that commitment to a 64-bit value.
   */
  lemma RangeProofSound(g: Group, o: Hashes, proof: Bytes, o': Hashes, proof': Bytes, commitment: Bytes)
    requires Lawful(g) && ValueBase(o) == ValueBase(o')
    requires Accepts(g, o, commitment, proof) && Accepts(g, o', commitment, proof')
    requires ForkedEverywhere(g, o, proof, o', proof')
    ensures AllDecode(g, proof) && AllDecode(g, proof')
    ensures var (v, r) := ExtractOpening(g, proof, proof');
            && 0 <= v < U64
            && Commit(g, o, v, ScalarBytes(g, r)) == Some(commitment)
  {
    ForkedBitsOpen(g, o, proof, o', proof');
    var bs, rs := ExtractedBits(g, proof, proof'), ExtractedBlindings(g, proof, proof');
    WeightedOpens(g, ValueBase(o), BitPoints(g, o, proof), bs, rs);
    BitsBounded(bs);
    PowersOfTwo();
    CompressInjective(g, WeightedPoints(g, BitPoints(g, o, proof)), g.decompress(commitment).value);
    DecompressCanonical(g, commitment);
    ScalarRoundTrip(g, Weighted(rs));
    ScaleReduce(g, Weighted(rs), g.base);
  }
}
