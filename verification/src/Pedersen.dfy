/** Pedersen commitments and the RingCT balance check: `src/crypto/ringct.rs`, first half. */
module Pedersen {
  import opened Common
  import opened Numbers
  import opened Ristretto

  /** The second generator H, hashed from a fixed tag. */
  function ValueBase(o: Hashes): Point {
    o.toPoint(o.sha512("CipherX_Pedersen_H_generator_v1", []))
  }

  /** v*H + r*G */
  function Opening(g: Group, o: Hashes, v: int, r: int): Point {
    Combine(g, v, ValueBase(o), r, g.base)
  }

  function Commit(g: Group, o: Hashes, amount: u64, blinding: Bytes): (c: Option<Bytes>)
    ensures c.Some? <==> ScalarFromBytes(g, blinding).Some?
  {
    match ScalarFromBytes(g, blinding)
    case None => None
    case Some(r) => Some(g.compress(Opening(g, o, amount, r)))
  }

  // ---- Balance ----------------------------------------------------------------

  predicate AllDecompress(g: Group, cs: seq<Bytes>) {
    forall i :: 0 <= i < |cs| ==> g.decompress(cs[i]).Some?
  }

  /** Adds the decompressed points to `acc`, left to right. */
  function FoldPoints(g: Group, acc: Point, cs: seq<Bytes>): Point
    requires AllDecompress(g, cs)
  {
    if cs == [] then acc
    else g.plus(FoldPoints(g, acc, cs[..|cs| - 1]), g.decompress(cs[|cs| - 1]).value)
  }

  predicate VerifyBalance(g: Group, inputs: seq<Bytes>, outputs: seq<Bytes>, fee: Bytes) {
    && AllDecompress(g, inputs) && AllDecompress(g, outputs) && g.decompress(fee).Some?
    && var sumIn := FoldPoints(g, g.zero, inputs);
       var sumOut := FoldPoints(g, g.decompress(fee).value, outputs);
       var diff := Minus(g, sumIn, sumOut);
       g.compress(diff) == g.compress(g.zero) || diff == g.zero
  }

  // ---- Building a transaction's commitments --------------------------------------

  function ScalarOr0(g: Group, b: Bytes): int {
    match ScalarFromBytes(g, b)
    case Some(k) => k
    case None => 0
  }

  predicate AllScalars(g: Group, bs: seq<Bytes>) {
    forall i :: 0 <= i < |bs| ==> ScalarFromBytes(g, bs[i]).Some?
  }

  function Total(amounts: seq<u64>): nat {
    if amounts == [] then 0 else Total(amounts[..|amounts| - 1]) + amounts[|amounts| - 1]
  }

  /** The sum of the scalars; bytes that are no scalar count as zero. */
  function TotalBlinding(g: Group, bs: seq<Bytes>): int {
    if bs == [] then 0 else TotalBlinding(g, bs[..|bs| - 1]) + ScalarOr0(g, bs[|bs| - 1])
  }

  /** One of the two accumulation loops of `compute_fee_blinding`. */
  method SumScalars(g: Group, bs: seq<Bytes>) returns (sum: Option<int>)
    requires Lawful(g)
    ensures sum.Some? <==> AllScalars(g, bs)
    ensures sum.Some? ==> Same(g, sum.value, TotalBlinding(g, bs))
  {
    var acc := 0;
    for i := 0 to |bs|
      invariant AllScalars(g, bs[..i])
      invariant Same(g, acc, TotalBlinding(g, bs[..i]))
    {
      var s := ScalarFromBytes(g, bs[i]);
      if s.None? { return None; }
      ReduceIsScalar(g, acc + s.value);
      SameAdd(g, acc, TotalBlinding(g, bs[..i]), s.value, s.value);
      assert bs[..i + 1][..i] == bs[..i];
      acc := Reduce(g, acc + s.value);
    }
    assert bs[..|bs|] == bs;
    return Some(acc);
  }

  method ComputeFeeBlinding(g: Group, inputs: seq<Bytes>, outputs: seq<Bytes>) returns (fee: Option<Bytes>)
    requires Lawful(g)
    ensures fee.Some? <==> AllScalars(g, inputs) && AllScalars(g, outputs)
    ensures fee.Some? ==> fee.value == ScalarBytes(g, TotalBlinding(g, inputs) - TotalBlinding(g, outputs))
  {
    var sumIn := SumScalars(g, inputs);
    if sumIn.None? { return None; }
    var sumOut := SumScalars(g, outputs);
    if sumOut.None? { return None; }
    SameAdd(g, sumIn.value, TotalBlinding(g, inputs), sumOut.value, TotalBlinding(g, outputs));
    ScalarBytesSame(g, sumIn.value - sumOut.value, TotalBlinding(g, inputs) - TotalBlinding(g, outputs));
    return Some(ScalarBytes(g, sumIn.value - sumOut.value));
  }

  datatype TxCommitments = TxCommitments(
    inputs: seq<Bytes>, inputBlindings: seq<Bytes>,
    outputs: seq<Bytes>, outputBlindings: seq<Bytes>,
    fee: Bytes, feeBlinding: Bytes
  )

  /** `cs[i]` commits to `amounts[i]` under `blindings[i]`. */
  ghost predicate CommitsTo(g: Group, o: Hashes, cs: seq<Bytes>, amounts: seq<u64>, blindings: seq<Bytes>) {
    && |cs| == |amounts| == |blindings|
    && forall i :: 0 <= i < |cs| ==> CommitsAt(g, o, cs, amounts, blindings, i)
  }

  ghost predicate CommitsAt(g: Group, o: Hashes, cs: seq<Bytes>, amounts: seq<u64>, blindings: seq<Bytes>, i: nat)
    requires i < |cs| == |amounts| == |blindings|
  {
    ScalarFromBytes(g, blindings[i]).Some? && Commit(g, o, amounts[i], blindings[i]) == Some(cs[i])
  }

  /** What the builder produces: every commitment opens, and the fee's blinding closes the sum. */
  ghost predicate BuiltFrom(g: Group, o: Hashes, tc: TxCommitments, ins: seq<u64>, outs: seq<u64>, fee: u64) {
    && CommitsTo(g, o, tc.inputs, ins, tc.inputBlindings)
    && CommitsTo(g, o, tc.outputs, outs, tc.outputBlindings)
    && tc.feeBlinding == ScalarBytes(g, TotalBlinding(g, tc.inputBlindings) - TotalBlinding(g, tc.outputBlindings))
    && Commit(g, o, fee, tc.feeBlinding) == Some(tc.fee)
  }

  /** One of the two commitment loops of `build_tx_commitments`. */
  method CommitAll(g: Group, o: Hashes, amounts: seq<u64>, wide: seq<nat>) returns (cs: seq<Bytes>, bs: seq<Bytes>)
    requires Lawful(g) && |wide| == |amounts|
    ensures CommitsTo(g, o, cs, amounts, bs)
    ensures forall i :: 0 <= i < |bs| ==> bs[i] == ScalarBytes(g, wide[i])
  {
    cs, bs := [], [];
    for i := 0 to |amounts|
      invariant |cs| == |bs| == i
      invariant CommitsTo(g, o, cs, amounts[..i], bs)
      invariant forall j :: 0 <= j < i ==> bs[j] == ScalarBytes(g, wide[j])
    {
      var blinding := ScalarBytes(g, wide[i]);
      ScalarRoundTrip(g, wide[i]);
      var c := Commit(g, o, amounts[i], blinding);
      ghost var cs0, bs0 := cs, bs;
      bs := bs + [blinding];
      cs := cs + [c.value];
      ghost var done := amounts[..i + 1];
      forall j | 0 <= j <= i ensures CommitsAt(g, o, cs, done, bs, j) {
        if j < i { assert CommitsAt(g, o, cs0, amounts[..i], bs0, j); }
      }
    }
    assert amounts[..|amounts|] == amounts;
  }

  lemma CommitmentsHaveScalars(g: Group, o: Hashes, cs: seq<Bytes>, amounts: seq<u64>, blindings: seq<Bytes>)
    requires CommitsTo(g, o, cs, amounts, blindings)
    ensures AllScalars(g, blindings)
  {
    forall i | 0 <= i < |blindings| ensures ScalarFromBytes(g, blindings[i]).Some? {
      assert CommitsAt(g, o, cs, amounts, blindings, i);
    }
  }

  method BuildTxCommitments(g: Group, o: Hashes, ins: seq<u64>, outs: seq<u64>, fee: u64,
                            wideIn: seq<nat>, wideOut: seq<nat>)
    returns (tc: Option<TxCommitments>)
    requires Lawful(g) && |wideIn| == |ins| && |wideOut| == |outs|
    ensures tc.Some? && BuiltFrom(g, o, tc.value, ins, outs, fee)
  {
    var cIn, bIn := CommitAll(g, o, ins, wideIn);
    var cOut, bOut := CommitAll(g, o, outs, wideOut);
    CommitmentsHaveScalars(g, o, cIn, ins, bIn);
    CommitmentsHaveScalars(g, o, cOut, outs, bOut);
    var feeBlinding := ComputeFeeBlinding(g, bIn, bOut);
    if feeBlinding.None? { return None; }
    ScalarRoundTrip(g, TotalBlinding(g, bIn) - TotalBlinding(g, bOut));
    var feeCommitment := Commit(g, o, fee, feeBlinding.value);
    if feeCommitment.None? { return None; }
    return Some(TxCommitments(cIn, bIn, cOut, bOut, feeCommitment.value, feeBlinding.value));
  }

  // ---- Conservation -----------------------------------------------------------------

  lemma CommitOpens(g: Group, o: Hashes, amount: u64, blinding: Bytes)
    requires Lawful(g) && ScalarFromBytes(g, blinding).Some?
    ensures g.decompress(Commit(g, o, amount, blinding).value)
         == Some(Opening(g, o, amount, ScalarFromBytes(g, blinding).value))
  {
    CompressRoundTrip(g, Opening(g, o, amount, ScalarFromBytes(g, blinding).value));
  }

  /** Adding one commitment to an opening adds its amount and its blinding. */
  lemma AddCommitment(g: Group, o: Hashes, v: int, r: int, amount: u64, blinding: Bytes, c: Bytes)
    requires Lawful(g) && ScalarFromBytes(g, blinding).Some? && Commit(g, o, amount, blinding) == Some(c)
    ensures g.decompress(c).Some?
    ensures g.plus(Opening(g, o, v, r), g.decompress(c).value)
         == Opening(g, o, v + amount, r + ScalarOr0(g, blinding))
  {
    CommitOpens(g, o, amount, blinding);
    CombineAdd(g, v, r, amount, ScalarOr0(g, blinding), ValueBase(o), g.base);
  }

  lemma CommitsToPrefix(g: Group, o: Hashes, cs: seq<Bytes>, amounts: seq<u64>, blindings: seq<Bytes>)
    requires CommitsTo(g, o, cs, amounts, blindings) && |cs| > 0
    ensures var n := |cs| - 1; CommitsTo(g, o, cs[..n], amounts[..n], blindings[..n])
  {
    var n := |cs| - 1;
    forall i | 0 <= i < n ensures CommitsAt(g, o, cs[..n], amounts[..n], blindings[..n], i) {
      assert CommitsAt(g, o, cs, amounts, blindings, i);
    }
  }

  /** One more commitment on a sum that is an opening already. */
  lemma FoldOne(g: Group, o: Hashes, acc: Point, cs: seq<Bytes>, amounts: seq<u64>, blindings: seq<Bytes>, v: int, r: int)
    requires Lawful(g) && |cs| == |amounts| == |blindings| > 0 && AllDecompress(g, cs)
    requires CommitsAt(g, o, cs, amounts, blindings, |cs| - 1)
    requires FoldPoints(g, acc, cs[..|cs| - 1]) == Opening(g, o, v, r)
    ensures FoldPoints(g, acc, cs) == Opening(g, o, v + amounts[|cs| - 1], r + ScalarOr0(g, blindings[|cs| - 1]))
  {
    var n := |cs| - 1;
    AddCommitment(g, o, v, r, amounts[n], blindings[n], cs[n]);
  }

  /** A sum of commitments is one commitment to the sums. */
  lemma {:induction false} SumIsOpening(g: Group, o: Hashes, cs: seq<Bytes>, amounts: seq<u64>, blindings: seq<Bytes>,
                                        v: int, r: int)
    requires Lawful(g) && CommitsTo(g, o, cs, amounts, blindings) && AllDecompress(g, cs)
    ensures FoldPoints(g, Opening(g, o, v, r), cs) == Opening(g, o, v + Total(amounts), r + TotalBlinding(g, blindings))
    decreases |cs|
  {
    if cs != [] {
      var n := |cs| - 1;
      CommitsToPrefix(g, o, cs, amounts, blindings);
      SumIsOpening(g, o, cs[..n], amounts[..n], blindings[..n], v, r);
      assert CommitsAt(g, o, cs, amounts, blindings, n);
      FoldOne(g, o, Opening(g, o, v, r), cs, amounts, blindings,
              v + Total(amounts[..n]), r + TotalBlinding(g, blindings[..n]));
    }
  }

  lemma ZeroOpens(g: Group, o: Hashes)
    requires Lawful(g)
    ensures Opening(g, o, 0, 0) == g.zero
  {
    ScaleOne(g, ValueBase(o));
    ScaleOne(g, g.base);
    UnitRight(g, g.zero);
  }

  lemma AllOpen(g: Group, o: Hashes, cs: seq<Bytes>, amounts: seq<u64>, blindings: seq<Bytes>)
    requires Lawful(g) && CommitsTo(g, o, cs, amounts, blindings)
    ensures AllDecompress(g, cs)
  {
    forall i | 0 <= i < |cs| ensures g.decompress(cs[i]).Some? {
      assert CommitsAt(g, o, cs, amounts, blindings, i);
      CommitOpens(g, o, amounts[i], blindings[i]);
    }
  }

  /** Two openings whose blindings agree modulo the order differ by their values alone. */
  lemma BlindingsCancel(g: Group, o: Hashes, v: int, r: int, w: int, t: int)
    requires Lawful(g) && Same(g, r, t)
    ensures Minus(g, Opening(g, o, v, r), Opening(g, o, w, t)) == Scale(g, v - w, ValueBase(o))
  {
    CombineMinus(g, v, r, w, t, ValueBase(o), g.base);
    SameDifference(g, r, t);
    ScaleSame(g, r - t, 0, g.base);
    ScaleOne(g, g.base);
    UnitRight(g, Scale(g, v - w, ValueBase(o)));
  }

  lemma FeeBlindingCloses(g: Group, rIn: int, rOut: int)
    requires Lawful(g)
    ensures Same(g, rIn, Reduce(g, rIn - rOut) + rOut)
  {
    ReduceIsScalar(g, rIn - rOut);
    SameAdd(g, Reduce(g, rIn - rOut), rIn - rOut, rOut, rOut);
  }

  lemma InputSum(g: Group, o: Hashes, cs: seq<Bytes>, ins: seq<u64>, blindings: seq<Bytes>)
    requires Lawful(g) && CommitsTo(g, o, cs, ins, blindings)
    ensures AllDecompress(g, cs)
    ensures FoldPoints(g, g.zero, cs) == Opening(g, o, Total(ins), TotalBlinding(g, blindings))
  {
    AllOpen(g, o, cs, ins, blindings);
    ZeroOpens(g, o);
    SumIsOpening(g, o, cs, ins, blindings, 0, 0);
  }

  /** Outputs on top of a fee commitment whose blinding is the scalar r. */
  lemma OutputSum(g: Group, o: Hashes, cs: seq<Bytes>, outs: seq<u64>, blindings: seq<Bytes>, fee: u64, r: int, c: Bytes)
    requires Lawful(g) && CommitsTo(g, o, cs, outs, blindings) && Commit(g, o, fee, ScalarBytes(g, r)) == Some(c)
    ensures AllDecompress(g, cs) && g.decompress(c).Some?
    ensures FoldPoints(g, g.decompress(c).value, cs) == Opening(g, o, fee + Total(outs), Reduce(g, r) + TotalBlinding(g, blindings))
  {
    ScalarRoundTrip(g, r);
    CommitOpens(g, o, fee, ScalarBytes(g, r));
    AllOpen(g, o, cs, outs, blindings);
    SumIsOpening(g, o, cs, outs, blindings, fee, Reduce(g, r));
  }

  lemma OpeningsDiffer(g: Group, o: Hashes, p: Point, q: Point, v: int, rIn: int, w: int, rOut: int)
    requires Lawful(g) && p == Opening(g, o, v, rIn) && q == Opening(g, o, w, Reduce(g, rIn - rOut) + rOut)
    ensures Minus(g, p, q) == Scale(g, v - w, ValueBase(o))
  {
    FeeBlindingCloses(g, rIn, rOut);
    BlindingsCancel(g, o, v, rIn, w, Reduce(g, rIn - rOut) + rOut);
  }

  /** The verifier's difference is (sum in - sum out - fee) * H: the blindings cancel. */
  lemma DifferenceIsValue(g: Group, o: Hashes, tc: TxCommitments, ins: seq<u64>, outs: seq<u64>, fee: u64)
    requires Lawful(g) && BuiltFrom(g, o, tc, ins, outs, fee)
    ensures AllDecompress(g, tc.inputs) && AllDecompress(g, tc.outputs) && g.decompress(tc.fee).Some?
    ensures Minus(g, FoldPoints(g, g.zero, tc.inputs), FoldPoints(g, g.decompress(tc.fee).value, tc.outputs))
         == Scale(g, Total(ins) - (fee + Total(outs)), ValueBase(o))
  {
    var rIn, rOut := TotalBlinding(g, tc.inputBlindings), TotalBlinding(g, tc.outputBlindings);
    InputSum(g, o, tc.inputs, ins, tc.inputBlindings);
    OutputSum(g, o, tc.outputs, outs, tc.outputBlindings, fee, rIn - rOut, tc.fee);
    OpeningsDiffer(g, o, FoldPoints(g, g.zero, tc.inputs), FoldPoints(g, g.decompress(tc.fee).value, tc.outputs),
                   Total(ins), rIn, fee + Total(outs), rOut);
  }

  lemma DifferenceVerdict(g: Group, inputs: seq<Bytes>, outputs: seq<Bytes>, fee: Bytes, d: int, p: Point)
    requires Lawful(g) && p != g.zero
    requires AllDecompress(g, inputs) && AllDecompress(g, outputs) && g.decompress(fee).Some?
    requires Minus(g, FoldPoints(g, g.zero, inputs), FoldPoints(g, g.decompress(fee).value, outputs)) == Scale(g, d, p)
    ensures VerifyBalance(g, inputs, outputs, fee) <==> Same(g, d, 0)
  {
    CompressInjective(g, Scale(g, d, p), g.zero);
    ScaleToZero(g, d, p);
  }

  /** The balance check sees the amounts modulo the group order, and nothing else. */
  lemma BalanceIffCongruent(g: Group, o: Hashes, tc: TxCommitments, ins: seq<u64>, outs: seq<u64>, fee: u64)
    requires Lawful(g) && ValueBase(o) != g.zero && BuiltFrom(g, o, tc, ins, outs, fee)
    ensures VerifyBalance(g, tc.inputs, tc.outputs, tc.fee) <==> Same(g, Total(ins), Total(outs) + fee)
  {
    var d := Total(ins) - (fee + Total(outs));
    DifferenceIsValue(g, o, tc, ins, outs, fee);
    DifferenceVerdict(g, tc.inputs, tc.outputs, tc.fee, d, ValueBase(o));
    SameDifference(g, Total(ins), fee + Total(outs));
  }

  /** Conservation: below the order, the built commitments balance exactly when the integers do. */
  lemma BalanceIffConserved(g: Group, o: Hashes, tc: TxCommitments, ins: seq<u64>, outs: seq<u64>, fee: u64)
    requires Lawful(g) && ValueBase(o) != g.zero && BuiltFrom(g, o, tc, ins, outs, fee)
    requires Total(ins) < g.order && Total(outs) + fee < g.order
    ensures VerifyBalance(g, tc.inputs, tc.outputs, tc.fee) <==> Total(ins) == Total(outs) + fee
  {
    BalanceIffCongruent(g, o, tc, ins, outs, fee);
    SameSmall(g, Total(ins), Total(outs) + fee);
  }

  /** Opening one commitment to two values solves for the discrete logarithm of H. */
  lemma TwoOpeningsRevealLog(g: Group, o: Hashes, v: int, r: int, w: int, t: int)
    requires Lawful(g) && Opening(g, o, v, r) == Opening(g, o, w, t) && !Same(g, v, w)
    ensures ValueBase(o) == Scale(g, ExtractKey(g, r, v, t, w), g.base)
  {
    var h := ValueBase(o);
    assert Holds(g, Commutes(Scale(g, v, h), Scale(g, r, g.base)));
    assert Holds(g, Commutes(Scale(g, w, h), Scale(g, t, g.base)));
    ExtractOn(g, g.base, h, r, v, t, w);
  }
}
