/** What an accepted range proof is bound to: points, challenges, responses, commitment and tag. `src/crypto/ringct.rs:343-408`. */
module RangeBinding {
  import opened Common
  import opened Ristretto
  import opened Pedersen
  import opened RangeProof

  // ---- One bit -----------------------------------------------------------------------------------

  /** What the challenge hash of a bit absorbs after its tag: the commitment and both branch points. */
  function BitQuery(g: Group, o: Hashes, chunk: Bytes): seq<Bytes>
    requires |chunk| == BIT_LEN && BitDecodes(g, chunk)
  {
    var c, pr := BitPoint(g, chunk), BitProof(g, chunk);
    [g.compress(c), g.compress(Branch0(g, c, pr)), g.compress(Branch1(g, ValueBase(o), c, pr))]
  }

  /** An accepted bit's two challenges add up to the digest of exactly these points. */
  lemma ChallengesAreDigest(g: Group, o: Hashes, chunk: Bytes)
    requires |chunk| == BIT_LEN && BitAccepts(g, o, chunk)
    ensures Reduce(g, o.sha512("CipherX_range_v1", BitQuery(g, o, chunk)))
            == Reduce(g, BitProof(g, chunk).e0 + BitProof(g, chunk).e1)
  {
  }

  predicate SameBit(g: Group, o: Hashes, chunk: Bytes, other: Bytes)
    requires |chunk| == |other| == BIT_LEN && BitDecodes(g, chunk) && BitDecodes(g, other)
  {
    var c, pr, d, qr := BitPoint(g, chunk), BitProof(g, chunk), BitPoint(g, other), BitProof(g, other);
    && c == d && Branch0(g, c, pr) == Branch0(g, d, qr)
    && Branch1(g, ValueBase(o), c, pr) == Branch1(g, ValueBase(o), d, qr)
  }

  ghost predicate SameSum(g: Group, chunk: Bytes, other: Bytes)
    requires |chunk| == |other| == BIT_LEN && BitDecodes(g, chunk) && BitDecodes(g, other)
  {
    var pr, qr := BitProof(g, chunk), BitProof(g, other);
    Same(g, pr.e0 + pr.e1, qr.e0 + qr.e1)
  }

  /** Equal challenges are for one commitment and the same branch points, or a collision. */
  lemma BitBinds(g: Group, o: Hashes, chunk: Bytes, other: Bytes)
    requires Lawful(g) && |chunk| == |other| == BIT_LEN && BitAccepts(g, o, chunk) && BitAccepts(g, o, other)
    requires SameSum(g, chunk, other)
    ensures SameBit(g, o, chunk, other)
            || Collision(g, o, "CipherX_range_v1", BitQuery(g, o, chunk), BitQuery(g, o, other))
  {
    ChallengesAreDigest(g, o, chunk);
    ChallengesAreDigest(g, o, other);
    var a, b := BitQuery(g, o, chunk), BitQuery(g, o, other);
    if Absorbed(a) == Absorbed(b) {
      AbsorbedBinds(a, b);
      assert a[0] == b[0] && a[1] == b[1] && a[2] == b[2];
      var c, pr, d, qr := BitPoint(g, chunk), BitProof(g, chunk), BitPoint(g, other), BitProof(g, other);
      CompressInjective(g, c, d);
      CompressInjective(g, Branch0(g, c, pr), Branch0(g, d, qr));
      CompressInjective(g, Branch1(g, ValueBase(o), c, pr), Branch1(g, ValueBase(o), d, qr));
    }
  }

  /** One challenge leaves one response for a branch point. */
  lemma OneResponse(g: Group, s: int, t: int, e: int, p: Point)
    requires Lawful(g)
    requires Minus(g, Scale(g, s, g.base), Scale(g, e, p)) == Minus(g, Scale(g, t, g.base), Scale(g, e, p))
    ensures Same(g, s, t)
  {
    MinusPlus(g, Scale(g, s, g.base), Scale(g, e, p));
    MinusPlus(g, Scale(g, t, g.base), Scale(g, e, p));
    BaseMultiples(g, s, t);
  }

  lemma ReadScalarsSame(g: Group, a: Bytes, b: Bytes)
    requires Lawful(g) && ScalarFromBytes(g, a).Some? && ScalarFromBytes(g, b).Some?
    ensures Same(g, ScalarFromBytes(g, a).value, ScalarFromBytes(g, b).value) <==> a == b
    ensures Same(g, ScalarFromBytes(g, a).value, ScalarFromBytes(g, b).value)
            <==> ScalarFromBytes(g, a).value == ScalarFromBytes(g, b).value
  {
    ScalarCanonical(g, a);
    ScalarCanonical(g, b);
  }

  lemma FieldsMakeChunk(chunk: Bytes, other: Bytes)
    requires |chunk| == |other| == BIT_LEN && forall k :: 0 <= k < 5 ==> Field(chunk, k) == Field(other, k)
    ensures chunk == other
  {
    forall i | 0 <= i < BIT_LEN ensures chunk[i] == other[i] {
      assert Field(chunk, i / 32)[i % 32] == Field(other, i / 32)[i % 32];
    }
  }

  /** The discrete logarithm of H to the base G. */
  ghost predicate IsLogOfH(g: Group, o: Hashes, x: int) {
    ValueBase(o) == Scale(g, x, g.base)
  }

  /** Two splits of one challenge, answered for the same points, open the bit both ways. */
  lemma TwoSplitsRevealLog(g: Group, o: Hashes, c: Point, pr: OrProof, qr: OrProof) returns (x: int)
    requires Lawful(g) && !Same(g, pr.e0, qr.e0) && Same(g, pr.e0 + pr.e1, qr.e0 + qr.e1)
    requires Branch0(g, c, pr) == Branch0(g, c, qr) && Branch1(g, ValueBase(o), c, pr) == Branch1(g, ValueBase(o), c, qr)
    ensures IsLogOfH(g, o, x)
  {
    var h := ValueBase(o);
    OtherShareDiffers(g, pr.e0, pr.e1, qr.e0, qr.e1);
    var a, b := ExtractKey(g, pr.s0, -pr.e0, qr.s0, -qr.e0), ExtractKey(g, pr.s1, -pr.e1, qr.s1, -qr.e1);
    BranchSolves(g, pr.s0, pr.e0, qr.s0, qr.e0, c);
    BranchSolves(g, pr.s1, pr.e1, qr.s1, qr.e1, Minus(g, c, h));
    x := a - b;
    ScaleSub(g, a, b, g.base);
    MinusOfMinus(g, c, h);
  }

  lemma OtherShareDiffers(g: Group, a: int, b: int, c: int, d: int)
    requires Lawful(g) && !Same(g, a, c) && Same(g, a + b, c + d)
    ensures !Same(g, b, d)
  {
    if Same(g, b, d) { SameAdd(g, a + b, c + d, b, d); }
  }

  /** c - (c - h) = h */
  lemma MinusOfMinus(g: Group, c: Point, h: Point)
    requires Lawful(g)
    ensures Minus(g, c, Minus(g, c, h)) == h
  {
    MinusPlus(g, c, h);
    assert Holds(g, Commutes(Minus(g, c, h), h));
    MinusPlus(g, h, Minus(g, c, h));
  }

  /** Equal sums of challenges come from equal chunks, from a collision, or from the logarithm of H. */
  lemma ChunkBinds(g: Group, o: Hashes, chunk: Bytes, other: Bytes) returns (x: int)
    requires Lawful(g) && |chunk| == |other| == BIT_LEN && BitAccepts(g, o, chunk) && BitAccepts(g, o, other)
    requires SameSum(g, chunk, other)
    ensures || chunk == other
            || Collision(g, o, "CipherX_range_v1", BitQuery(g, o, chunk), BitQuery(g, o, other))
            || IsLogOfH(g, o, x)
  {
    x := 0;
    BitBinds(g, o, chunk, other);
    if SameBit(g, o, chunk, other) {
      var c, pr, qr := BitPoint(g, chunk), BitProof(g, chunk), BitProof(g, other);
      ReadScalarsSame(g, Field(chunk, 1), Field(other, 1));
      if Same(g, pr.e0, qr.e0) {
        SameSplitSameChunk(g, o, chunk, other);
      } else {
        x := TwoSplitsRevealLog(g, o, c, pr, qr);
      }
    }
  }

  lemma SameSplitSameChunk(g: Group, o: Hashes, chunk: Bytes, other: Bytes)
    requires Lawful(g) && |chunk| == |other| == BIT_LEN && BitDecodes(g, chunk) && BitDecodes(g, other)
    requires SameBit(g, o, chunk, other) && SameSum(g, chunk, other)
    requires Same(g, BitProof(g, chunk).e0, BitProof(g, other).e0)
    ensures chunk == other
  {
    var c, pr, qr := BitPoint(g, chunk), BitProof(g, chunk), BitProof(g, other);
    SameAdd(g, pr.e0 + pr.e1, qr.e0 + qr.e1, pr.e0, qr.e0);
    ReadScalarsSame(g, Field(chunk, 1), Field(other, 1));
    ReadScalarsSame(g, Field(chunk, 2), Field(other, 2));
    OneResponse(g, pr.s0, qr.s0, pr.e0, c);
    OneResponse(g, pr.s1, qr.s1, pr.e1, Minus(g, c, ValueBase(o)));
    ReadScalarsSame(g, Field(chunk, 3), Field(other, 3));
    ReadScalarsSame(g, Field(chunk, 4), Field(other, 4));
    DecompressCanonical(g, Field(chunk, 0));
    DecompressCanonical(g, Field(other, 0));
    FieldsMakeChunk(chunk, other);
  }

  // ---- The whole proof ----------------------------------------------------------------------------

  ghost predicate SameSums(g: Group, o: Hashes, proof: Bytes, other: Bytes)
    requires |proof| == |other| == PROOF_LEN && BitsAccept(g, o, proof) && BitsAccept(g, o, other)
  {
    forall i :: 0 <= i < RANGE_BITS ==> SumsAgree(g, o, proof, other, i)
  }

  ghost predicate SumsAgree(g: Group, o: Hashes, proof: Bytes, other: Bytes, i: nat)
    requires |proof| == |other| == PROOF_LEN && i < RANGE_BITS
    requires BitsAccept(g, o, proof) && BitsAccept(g, o, other)
  {
    && BitAccepts(g, o, Chunk(proof, i)) && BitAccepts(g, o, Chunk(other, i))
    && SameSum(g, Chunk(proof, i), Chunk(other, i))
  }

  ghost predicate CollidesAtBit(g: Group, o: Hashes, proof: Bytes, other: Bytes, i: nat)
    requires |proof| == |other| == PROOF_LEN && i < RANGE_BITS
    requires BitDecodes(g, Chunk(proof, i)) && BitDecodes(g, Chunk(other, i))
  {
    Collision(g, o, "CipherX_range_v1", BitQuery(g, o, Chunk(proof, i)), BitQuery(g, o, Chunk(other, i)))
  }

  lemma ChunksMakeProof(proof: Bytes, other: Bytes)
    requires |proof| == |other| == PROOF_LEN && forall i :: 0 <= i < RANGE_BITS ==> Chunk(proof, i) == Chunk(other, i)
    requires proof[BIT_LEN * RANGE_BITS..] == other[BIT_LEN * RANGE_BITS..]
    ensures proof == other
  {
    forall n | 0 <= n < PROOF_LEN ensures proof[n] == other[n] {
      if n < BIT_LEN * RANGE_BITS {
        assert Chunk(proof, n / BIT_LEN)[n % BIT_LEN] == Chunk(other, n / BIT_LEN)[n % BIT_LEN];
      } else {
        assert proof[BIT_LEN * RANGE_BITS..][n - BIT_LEN * RANGE_BITS] == other[BIT_LEN * RANGE_BITS..][n - BIT_LEN * RANGE_BITS];
      }
    }
  }

  /**
   An accepted proof cannot be altered under its challenges: another accepted one whose challenges add
   up to the same at every bit is the same proof of the same commitment, or at some bit two different
   queries have one digest, or the two give away the logarithm of H.  In particular, changing only
   responses gives a refused proof or a collision or that logarithm.
   */
  lemma ProofUnalterable(g: Group, o: Hashes, commitment: Bytes, proof: Bytes, commitment': Bytes, other: Bytes)
    returns (i: nat, x: int)
    requires Lawful(g) && Accepts(g, o, commitment, proof) && Accepts(g, o, commitment', other)
    requires SameSums(g, o, proof, other)
    ensures || (proof == other && commitment == commitment')
            || (i < RANGE_BITS && BitAccepts(g, o, Chunk(proof, i)) && BitAccepts(g, o, Chunk(other, i))
                && CollidesAtBit(g, o, proof, other, i))
            || IsLogOfH(g, o, x)
  {
    i, x := 0, 0;
    if k: nat :| k < RANGE_BITS && Chunk(proof, k) != Chunk(other, k) {
      i := k;
      assert SumsAgree(g, o, proof, other, k);
      x := ChunkBinds(g, o, Chunk(proof, k), Chunk(other, k));
    } else {
      SamePointsSameCommitment(g, o, commitment, proof, commitment', other);
    }
  }

  lemma SamePointsSameCommitment(g: Group, o: Hashes, commitment: Bytes, proof: Bytes, commitment': Bytes, other: Bytes)
    requires Lawful(g) && Accepts(g, o, commitment, proof) && Accepts(g, o, commitment', other)
    requires forall i :: 0 <= i < RANGE_BITS ==> Chunk(proof, i) == Chunk(other, i)
    ensures proof == other && commitment == commitment'
  {
    assert BitPoints(g, o, proof) == BitPoints(g, o, other);
    CompressInjective(g, WeightedPoints(g, BitPoints(g, o, proof)), g.decompress(commitment).value);
    CompressInjective(g, WeightedPoints(g, BitPoints(g, o, other)), g.decompress(commitment').value);
    DecompressCanonical(g, commitment);
    DecompressCanonical(g, commitment');
    ChunksMakeProof(proof, other);
  }

  // ---- The tag -----------------------------------------------------------------------------------------

  function Encodings(g: Group, cs: seq<Point>): (es: seq<Bytes>)
    ensures |es| == |cs|
  {
    seq(|cs|, i requires 0 <= i < |cs| => g.compress(cs[i]))
  }

  /** The tag is the digest of the commitment and all bit commitments. */
  lemma TagIsDigest(g: Group, o: Hashes, commitment: Bytes, proof: Bytes)
    requires Accepts(g, o, commitment, proof)
    ensures proof[BIT_LEN * RANGE_BITS..]
            == o.sha256("CipherX_range_tag_v1", [commitment] + Encodings(g, BitPoints(g, o, proof)))
  {
  }

  /** One tag is for one commitment and the same bit commitments, or different bytes have one digest. */
  lemma TagBinds(g: Group, o: Hashes, commitment: Bytes, proof: Bytes, commitment': Bytes, other: Bytes)
    requires Lawful(g) && Accepts(g, o, commitment, proof) && Accepts(g, o, commitment', other)
    requires proof[BIT_LEN * RANGE_BITS..] == other[BIT_LEN * RANGE_BITS..]
    ensures var a := [commitment] + Encodings(g, BitPoints(g, o, proof));
            var b := [commitment'] + Encodings(g, BitPoints(g, o, other));
            || (commitment == commitment' && BitPoints(g, o, proof) == BitPoints(g, o, other))
            || (Absorbed(a) != Absorbed(b) && o.sha256("CipherX_range_tag_v1", a) == o.sha256("CipherX_range_tag_v1", b))
  {
    var cs, ds := BitPoints(g, o, proof), BitPoints(g, o, other);
    var a, b := [commitment] + Encodings(g, cs), [commitment'] + Encodings(g, ds);
    TagIsDigest(g, o, commitment, proof);
    TagIsDigest(g, o, commitment', other);
    if Absorbed(a) == Absorbed(b) {
      AbsorbedBinds(a, b);
      assert a[0] == b[0];
      forall i | 0 <= i < |cs| ensures cs[i] == ds[i] {
        assert a[i + 1] == b[i + 1];
        CompressInjective(g, cs[i], ds[i]);
      }
    }
  }
}
