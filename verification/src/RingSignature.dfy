/** LSAG ring signatures: `src/crypto/ring_sig.rs`. */
module RingSignature {
  import opened Common
  import opened Numbers
  import opened Ristretto

  datatype Signature = Signature(c0: Bytes, s: seq<Bytes>, keyImage: Bytes)

  datatype SignError = RingTooSmall | IndexOutOfBounds | InvalidPrivateKey | InvalidRingKey

  function HashToPoint(o: Hashes, key: Bytes): Point {
    o.toPoint(o.sha512("CipherX_H_p", [key]))
  }

  function Challenge(g: Group, o: Hashes, m: Bytes, l: Point, r: Point): (c: int)
  {
    Reduce(g, o.sha512("CipherX_MLSAG", [m, g.compress(l), g.compress(r)]))
  }

  /** What a challenge hash absorbs after its tag. */
  function Query(g: Group, m: Bytes, l: Point, r: Point): seq<Bytes> {
    [m, g.compress(l), g.compress(r)]
  }

  /** The bytes of a query tell its message and both points. */
  lemma QueryBinds(g: Group, m: Bytes, l: Point, r: Point, m': Bytes, l': Point, r': Point)
    requires Lawful(g) && Absorbed(Query(g, m, l, r)) == Absorbed(Query(g, m', l', r'))
    ensures m == m' && l == l' && r == r'
  {
    var a, b := Query(g, m, l, r), Query(g, m', l', r');
    AbsorbedBinds(a, b);
    assert a[0] == b[0] && a[1] == b[1] && a[2] == b[2];
    CompressInjective(g, l, l');
    CompressInjective(g, r, r');
  }

  // ---- The walk around the ring -------------------------------------------

  /**
   One instance of the scheme: the challenge hash with the message already absorbed, the keys as
   points, their hashes H_p as points, and the key image.
   */
  datatype Ring = Ring(g: Group, challenge: (Point, Point) -> int, points: seq<Point>, bases: seq<Point>, image: Point)

  ghost predicate ChallengeReduced(rg: Ring, l: Point, r: Point) {
    IsScalar(rg.g, rg.challenge(l, r))
  }

  ghost predicate WellFormed(rg: Ring) {
    && Lawful(rg.g) && |rg.points| == |rg.bases| >= 2
    && forall l, r :: ChallengeReduced(rg, l, r)
  }

  function LeftPoint(rg: Ring, i: nat, s: int, c: int): Point
    requires i < |rg.points|
  {
    Combine(rg.g, s, rg.g.base, c, rg.points[i])
  }

  function RightPoint(rg: Ring, i: nat, s: int, c: int): Point
    requires i < |rg.bases|
  {
    Combine(rg.g, s, rg.bases[i], c, rg.image)
  }

  /** The challenge that slot `i` hands to the next slot. */
  function Step(rg: Ring, i: nat, s: int, c: int): int
    requires i < |rg.points| == |rg.bases|
  {
    rg.challenge(LeftPoint(rg, i, s, c), RightPoint(rg, i, s, c))
  }

  /** The slot after `i`, wrapping around. */
  function Next(n: nat, i: nat): (j: nat)
    requires i < n
    ensures j == if i + 1 < n then i + 1 else 0
  {
    ModUnique(i + 1, n, if i + 1 < n then 0 else 1, if i + 1 < n then i + 1 else 0);
    (i + 1) % n
  }

  /** The challenge a verifier holds on arrival at slot `i`, having started at slot 0 with `c0`. */
  function Arrival(rg: Ring, s: seq<int>, c0: int, i: nat): int
    requires |s| == |rg.points| == |rg.bases| && i <= |s|
  {
    if i == 0 then c0 else Step(rg, i - 1, s[i - 1], Arrival(rg, s, c0, i - 1))
  }

  /** Challenge vector `c` is right after slot `i`: the next entry is what slot i hands on. */
  ghost predicate Linked(rg: Ring, s: seq<int>, c: seq<int>, i: nat)
    requires |s| == |c| == |rg.points| == |rg.bases| && i < |c|
  {
    c[Next(|c|, i)] == Step(rg, i, s[i], c[i])
  }

  lemma ArrivalStep(rg: Ring, s: seq<int>, c: seq<int>, i: nat)
    requires |s| == |c| == |rg.points| == |rg.bases| && i < |c|
    requires Linked(rg, s, c, i) && Arrival(rg, s, c[0], i) == c[i]
    ensures Arrival(rg, s, c[0], i + 1) == c[Next(|c|, i)]
  {}

  /** As long as every slot so far is linked, the verifier holds the entries of `c`. */
  lemma {:induction false} ArrivalFollows(rg: Ring, s: seq<int>, c: seq<int>, k: nat)
    requires |s| == |c| == |rg.points| == |rg.bases| && k < |c|
    requires forall i :: 0 <= i < k ==> Linked(rg, s, c, i)
    ensures Arrival(rg, s, c[0], k) == c[k]
  {
    if k > 0 {
      ArrivalFollows(rg, s, c, k - 1);
      assert Linked(rg, s, c, k - 1);
      ArrivalStep(rg, s, c, k - 1);
    }
  }

  // ---- Decoding -------------------------------------------------------------

  predicate RingDecodes(g: Group, keys: seq<Bytes>) {
    forall i :: 0 <= i < |keys| ==> g.decompress(keys[i]).Some?
  }

  function Points(g: Group, keys: seq<Bytes>): (ps: seq<Point>)
    requires RingDecodes(g, keys)
    ensures |ps| == |keys|
    ensures forall i :: 0 <= i < |keys| ==> g.decompress(keys[i]) == Some(ps[i])
  {
    seq(|keys|, i requires 0 <= i < |keys| => g.decompress(keys[i]).value)
  }

  predicate ScalarsDecode(g: Group, bs: seq<Bytes>) {
    forall i :: 0 <= i < |bs| ==> ScalarFromBytes(g, bs[i]).Some?
  }

  function Scalars(g: Group, bs: seq<Bytes>): (ks: seq<int>)
    requires ScalarsDecode(g, bs)
    ensures |ks| == |bs|
    ensures forall i :: 0 <= i < |bs| ==> ScalarFromBytes(g, bs[i]) == Some(ks[i])
  {
    seq(|bs|, i requires 0 <= i < |bs| => ScalarFromBytes(g, bs[i]).value)
  }

  predicate Decodes(g: Group, keys: seq<Bytes>, sig: Signature) {
    && |keys| >= 2 && |sig.s| == |keys|
    && RingDecodes(g, keys)
    && g.decompress(sig.keyImage).Some?
    && ScalarsDecode(g, sig.s)
    && ScalarFromBytes(g, sig.c0).Some?
  }

  function Instance(g: Group, o: Hashes, m: Bytes, keys: seq<Bytes>, image: Point): (rg: Ring)
    requires RingDecodes(g, keys)
  {
    Ring(g, (l: Point, r: Point) => Challenge(g, o, m, l, r), Points(g, keys),
         seq(|keys|, i requires 0 <= i < |keys| => HashToPoint(o, keys[i])), image)
  }

  function RingOf(g: Group, o: Hashes, m: Bytes, keys: seq<Bytes>, sig: Signature): (rg: Ring)
    requires Decodes(g, keys, sig)
  {
    Instance(g, o, m, keys, g.decompress(sig.keyImage).value)
  }

  lemma InstanceWellFormed(g: Group, o: Hashes, m: Bytes, keys: seq<Bytes>, image: Point)
    requires Lawful(g) && RingDecodes(g, keys) && |keys| >= 2
    ensures WellFormed(Instance(g, o, m, keys, image))
  {
    var rg := Instance(g, o, m, keys, image);
    forall l, r ensures ChallengeReduced(rg, l, r) {
      ReduceIsScalar(g, o.sha512("CipherX_MLSAG", [m, g.compress(l), g.compress(r)]));
    }
  }

  /** The challenge the verifier of `sig` holds on arrival at slot `i`. */
  function ChallengeAt(g: Group, o: Hashes, m: Bytes, keys: seq<Bytes>, sig: Signature, i: nat): int
    requires Decodes(g, keys, sig) && i <= |keys|
  {
    Arrival(RingOf(g, o, m, keys, sig), Scalars(g, sig.s), ScalarFromBytes(g, sig.c0).value, i)
  }

  /** One step of the walk is one challenge hash over the two points the code computes. */
  lemma StepIsHash(g: Group, o: Hashes, m: Bytes, keys: seq<Bytes>, image: Point, i: nat, s: int, c: int)
    requires RingDecodes(g, keys) && i < |keys|
    ensures Step(Instance(g, o, m, keys, image), i, s, c)
            == Challenge(g, o, m, g.plus(Scale(g, s, g.base), Scale(g, c, Points(g, keys)[i])),
                         g.plus(Scale(g, s, HashToPoint(o, keys[i])), Scale(g, c, image)))
  {
  }

  /** The verifier's next challenge, from the one it holds. */
  lemma ArrivalNext(rg: Ring, s: seq<int>, c0: int, i: nat, c: int)
    requires |s| == |rg.points| == |rg.bases| && i < |s| && Arrival(rg, s, c0, i) == c
    ensures Arrival(rg, s, c0, i + 1) == Step(rg, i, s[i], c)
  {
  }

  /** A signature is accepted when it decodes, its image is not the identity, and the ring closes. */
  predicate Accepts(g: Group, o: Hashes, m: Bytes, keys: seq<Bytes>, sig: Signature) {
    && Decodes(g, keys, sig)
    && g.decompress(sig.keyImage).value != g.zero
    && ChallengeAt(g, o, m, keys, sig, |keys|) == ScalarFromBytes(g, sig.c0).value
  }

  method Verify(g: Group, o: Hashes, m: Bytes, keys: seq<Bytes>, sig: Signature) returns (ok: bool)
    ensures ok == Accepts(g, o, m, keys, sig)
  {
    var n := |keys|;
    if n < 2 || |sig.s| != n { return false; }
    if !RingDecodes(g, keys) { return false; }
    var points := Points(g, keys);
    var image := g.decompress(sig.keyImage);
    if image.None? { return false; }
    if !ScalarsDecode(g, sig.s) { return false; }
    var s := Scalars(g, sig.s);
    var c0 := ScalarFromBytes(g, sig.c0);
    if c0.None? { return false; }
    if image.value == g.zero { return false; }
    var c := c0.value;
    ghost var rg := RingOf(g, o, m, keys, sig);
    for i := 0 to n
      invariant c == Arrival(rg, s, c0.value, i)
    {
      StepIsHash(g, o, m, keys, image.value, i, s[i], c);
      ArrivalNext(rg, s, c0.value, i, c);
      var hp := HashToPoint(o, keys[i]);
      var l := g.plus(Scale(g, s[i], g.base), Scale(g, c, points[i]));
      var r := g.plus(Scale(g, s[i], hp), Scale(g, c, image.value));
      c := Challenge(g, o, m, l, r);
    }
    return c == c0.value;
  }

  // ---- Signing ----------------------------------------------------------------

  /** The challenge that the signer's own slot hands on, made from the nonce alone. */
  function FirstChallenge(rg: Ring, p: nat, alpha: int): int
    requires p < |rg.bases|
  {
    rg.challenge(Scale(rg.g, alpha, rg.g.base), Scale(rg.g, alpha, rg.bases[p]))
  }

  /** The ring as the signer sees it: the image is x * H_p(P). */
  function SigningRing(g: Group, o: Hashes, m: Bytes, keys: seq<Bytes>, p: nat, x: int): (rg: Ring)
    requires RingDecodes(g, keys) && p < |keys|
  {
    Instance(g, o, m, keys, Scale(g, x, HashToPoint(o, keys[p])))
  }

  ghost predicate LinkedExcept(rg: Ring, s: seq<int>, c: seq<int>, p: nat)
    requires |s| == |c| == |rg.points| == |rg.bases|
  {
    forall i :: 0 <= i < |c| && i != p ==> Linked(rg, s, c, i)
  }

  /** The challenges of an open ring: right after every slot but `p`, where the nonce decided. */
  ghost predicate OpenRing(rg: Ring, p: nat, alpha: int, nonces: seq<int>, c: seq<int>) {
    && |nonces| == |c| == |rg.points| == |rg.bases| && p < |c|
    && c[Next(|c|, p)] == FirstChallenge(rg, p, alpha)
    && LinkedExcept(rg, nonces, c, p)
  }

  function Responses(g: Group, p: nat, x: int, alpha: int, nonces: seq<int>, c: seq<int>): (s: seq<int>)
    requires |nonces| == |c| && p < |c|
    ensures |s| == |nonces|
  {
    nonces[p := Reduce(g, alpha - c[p] * x)]
  }

  function Encode(g: Group, c0: int, s: seq<int>, image: Point): (sig: Signature) {
    Signature(ScalarBytes(g, c0), seq(|s|, i requires 0 <= i < |s| => ScalarBytes(g, s[i])), g.compress(image))
  }

  /** `sig` is what signer `p` with key `x` makes from nonce `alpha` and the other slots' responses. */
  ghost predicate SignedBy(rg: Ring, p: nat, x: int, alpha: int, nonces: seq<int>, c: seq<int>, sig: Signature) {
    && OpenRing(rg, p, alpha, nonces, c)
    && sig == Encode(rg.g, c[0], Responses(rg.g, p, x, alpha, nonces, c), rg.image)
  }

  ghost predicate AllReduced(g: Group, c: seq<int>) {
    forall i :: 0 <= i < |c| ==> IsScalar(g, c[i])
  }

  function WideScalars(g: Group, ws: seq<nat>): (ks: seq<int>)
    ensures |ks| == |ws| && forall i :: 0 <= i < |ws| ==> ks[i] == Reduce(g, ws[i])
  {
    seq(|ws|, i requires 0 <= i < |ws| => Reduce(g, ws[i]))
  }

  /** How far forward slot `j` is from slot `p`: 1 for the next slot, n for p itself. */
  ghost function Distance(n: nat, p: nat, j: nat): nat
    requires p < n && j < n
  {
    if j > p then j - p else j + n - p
  }

  method Sign(g: Group, o: Hashes, m: Bytes, keys: seq<Bytes>, realIndex: nat, privateKey: Bytes,
              alphaWide: nat, nonceWide: seq<nat>)
    returns (res: Result<(Signature, Bytes), SignError>, ghost challenges: seq<int>)
    requires |nonceWide| == |keys|
    ensures |keys| < 2 ==> res == Err(RingTooSmall)
    ensures |keys| >= 2 && realIndex >= |keys| ==> res == Err(IndexOutOfBounds)
    ensures |keys| >= 2 && realIndex < |keys| && ScalarFromBytes(g, privateKey).None? ==> res == Err(InvalidPrivateKey)
    ensures |keys| >= 2 && realIndex < |keys| && ScalarFromBytes(g, privateKey).Some? && !RingDecodes(g, keys)
            ==> res == Err(InvalidRingKey)
    ensures |keys| >= 2 && realIndex < |keys| && ScalarFromBytes(g, privateKey).Some? && RingDecodes(g, keys) ==>
              var x := ScalarFromBytes(g, privateKey).value;
              var rg := SigningRing(g, o, m, keys, realIndex, x);
              && res.Ok? && res.value.1 == g.compress(rg.image)
              && rg.image == Scale(g, x, o.toPoint(o.sha512("CipherX_H_p", [keys[realIndex]])))
              && SignedBy(rg, realIndex, x, Reduce(g, alphaWide), WideScalars(g, nonceWide), challenges, res.value.0)
  {
    var n := |keys|;
    challenges := [];
    if n < 2 { return Err(RingTooSmall), []; }
    if realIndex >= n { return Err(IndexOutOfBounds), []; }
    var key := ScalarFromBytes(g, privateKey);
    if key.None? { return Err(InvalidPrivateKey), []; }
    var x := key.value;
    if !RingDecodes(g, keys) { return Err(InvalidRingKey), []; }

    var hpReal := HashToPoint(o, keys[realIndex]);
    var rg := SigningRing(g, o, m, keys, realIndex, x);
    var alpha := Reduce(g, alphaWide);
    var s := WideScalars(g, nonceWide);
    var c := Loop(rg, realIndex, Challenge(g, o, m, Scale(g, alpha, g.base), Scale(g, alpha, hpReal)), s);
    assert OpenRing(rg, realIndex, alpha, s, c);
    s := Responses(g, realIndex, x, alpha, s, c);
    return Ok((Encode(g, c[0], s, rg.image), g.compress(rg.image))), c;
  }

  /** The loop of `sign`: from the slot after p all the way round to p. */
  method Loop(rg: Ring, p: nat, first: int, s: seq<int>) returns (c: seq<int>)
    requires 2 <= |s| == |rg.points| == |rg.bases| && p < |s|
    ensures |c| == |s| && c[Next(|c|, p)] == first
    ensures forall i :: 0 <= i < |c| && i != p ==> Linked(rg, s, c, i)
  {
    var n := |s|;
    c := seq(n, _ => 0);
    var i := Next(n, p);
    c := c[i := first];
    while true
      invariant |c| == n && i < n && i != p && c[Next(n, p)] == first
      invariant forall j :: 0 <= j < n && Distance(n, p, j) < Distance(n, p, i) ==> Linked(rg, s, c, j)
      decreases n - Distance(n, p, i)
    {
      var hp := rg.bases[i];
      var l := rg.g.plus(Scale(rg.g, s[i], rg.g.base), Scale(rg.g, c[i], rg.points[i]));
      var r := rg.g.plus(Scale(rg.g, s[i], hp), Scale(rg.g, c[i], rg.image));
      var next := Next(n, i);
      ghost var before := c;
      c := c[next := rg.challenge(l, r)];
      forall j | 0 <= j < n && Distance(n, p, j) <= Distance(n, p, i) ensures Linked(rg, s, c, j) {
        if j != i { assert Linked(rg, s, before, j); }
      }
      i := next;
      if i == p { break; }
    }
  }

  // ---- Completeness -------------------------------------------------------------

  /** With the right key the closed slot reproduces the signer's two commitments. */
  lemma SlotCloses(rg: Ring, p: nat, x: int, alpha: int, c: int)
    requires WellFormed(rg) && p < |rg.bases|
    requires rg.points[p] == Scale(rg.g, x, rg.g.base)
    requires rg.image == Scale(rg.g, x, rg.bases[p])
    ensures LeftPoint(rg, p, Reduce(rg.g, alpha - c * x), c) == Scale(rg.g, alpha, rg.g.base)
    ensures RightPoint(rg, p, Reduce(rg.g, alpha - c * x), c) == Scale(rg.g, alpha, rg.bases[p])
  {
    CloseOn(rg.g, x, alpha, c, rg.g.base);
    CloseOn(rg.g, x, alpha, c, rg.bases[p]);
  }

  lemma SlotReturnsFirst(rg: Ring, p: nat, x: int, alpha: int, c: int)
    requires WellFormed(rg) && p < |rg.bases|
    requires rg.points[p] == Scale(rg.g, x, rg.g.base)
    requires rg.image == Scale(rg.g, x, rg.bases[p])
    ensures Step(rg, p, Reduce(rg.g, alpha - c * x), c) == FirstChallenge(rg, p, alpha)
  {
    SlotCloses(rg, p, x, alpha, c);
  }

  lemma CloseOn(g: Group, x: int, alpha: int, c: int, b: Point)
    requires Lawful(g)
    ensures Combine(g, Reduce(g, alpha - c * x), b, c, Scale(g, x, b)) == Scale(g, alpha, b)
  {
    ScaleReduce(g, alpha - c * x, b);
    ScaleMul(g, c, x, b);
    ScaleAdd(g, alpha - c * x, c * x, b);
  }

  /** What the signer wrote is what the verifier reads back. */
  lemma EncodingDecodes(g: Group, keys: seq<Bytes>, c0: int, s: seq<int>, image: Point)
    requires Lawful(g) && RingDecodes(g, keys) && |s| == |keys| >= 2
    requires IsScalar(g, c0) && AllReduced(g, s)
    ensures var sig := Encode(g, c0, s, image);
            && Decodes(g, keys, sig) && g.decompress(sig.keyImage).value == image
            && Scalars(g, sig.s) == s && ScalarFromBytes(g, sig.c0).value == c0
  {
    var sig := Encode(g, c0, s, image);
    forall i | 0 <= i < |s| ensures ScalarFromBytes(g, sig.s[i]) == Some(s[i]) {
      ScalarRoundTrip(g, s[i]);
    }
    CompressRoundTrip(g, image);
    ScalarRoundTrip(g, c0);
    assert Scalars(g, sig.s) == s;
  }

  /** Every entry of an open ring is a hash value, hence a scalar. */
  lemma OpenRingReduced(rg: Ring, p: nat, alpha: int, nonces: seq<int>, c: seq<int>, i: nat)
    requires WellFormed(rg) && OpenRing(rg, p, alpha, nonces, c) && i < |c|
    ensures IsScalar(rg.g, c[i])
  {
    var before := if i == 0 then |c| - 1 else i - 1;
    if before == p {
      assert ChallengeReduced(rg, Scale(rg.g, alpha, rg.g.base), Scale(rg.g, alpha, rg.bases[p]));
    } else {
      assert Linked(rg, nonces, c, before);
      StepReduced(rg, before, nonces[before], c[before]);
    }
  }

  lemma StepReduced(rg: Ring, i: nat, s: int, c: int)
    requires WellFormed(rg) && i < |rg.bases|
    ensures IsScalar(rg.g, Step(rg, i, s, c))
  {
    assert ChallengeReduced(rg, LeftPoint(rg, i, s, c), RightPoint(rg, i, s, c));
  }

  /** The verifier accepts exactly when the image is not the identity and the closed slot links up. */
  lemma AcceptsByClosing(g: Group, o: Hashes, m: Bytes, keys: seq<Bytes>, p: nat, x: int, alpha: int,
                         nonces: seq<int>, c: seq<int>, sig: Signature)
    requires Lawful(g) && RingDecodes(g, keys) && |keys| >= 2 && p < |keys| && AllReduced(g, nonces)
    requires SignedBy(SigningRing(g, o, m, keys, p, x), p, x, alpha, nonces, c, sig)
    ensures var rg, s := SigningRing(g, o, m, keys, p, x), Responses(g, p, x, alpha, nonces, c);
            Accepts(g, o, m, keys, sig) <==> rg.image != g.zero && Arrival(rg, s, c[0], |s|) == c[0]
  {
    SignedReads(g, o, m, keys, p, x, alpha, nonces, c, sig);
  }

  /** Replacing the response of slot p leaves every other slot linked. */
  lemma OthersStayLinked(rg: Ring, p: nat, alpha: int, nonces: seq<int>, c: seq<int>, t: int)
    requires OpenRing(rg, p, alpha, nonces, c)
    ensures LinkedExcept(rg, nonces[p := t], c, p)
  {
    var s := nonces[p := t];
    forall i | 0 <= i < |c| && i != p ensures Linked(rg, s, c, i) {
      assert Linked(rg, nonces, c, i);
    }
  }

  /** Once slot p links up as well, the ring closes. */
  lemma RingCloses(rg: Ring, s: seq<int>, c: seq<int>, p: nat)
    requires |s| == |c| == |rg.points| == |rg.bases| && p < |c|
    requires LinkedExcept(rg, s, c, p) && Linked(rg, s, c, p)
    ensures Arrival(rg, s, c[0], |c|) == c[0]
  {
    var last := |c| - 1;
    assert Linked(rg, s, c, last);
    ArrivalFollows(rg, s, c, last);
    ArrivalStep(rg, s, c, last);
  }

  /**
   Completeness: for every ring, slot, message and randomness, a signature made with the key of
   its slot verifies, unless the key image is the identity, which the verifier refuses.
   */
  lemma SignedVerifies(g: Group, o: Hashes, m: Bytes, keys: seq<Bytes>, p: nat, x: int, alpha: int,
                       nonces: seq<int>, c: seq<int>, sig: Signature)
    requires Lawful(g) && |keys| >= 2 && RingDecodes(g, keys) && p < |keys|
    requires SignedBy(SigningRing(g, o, m, keys, p, x), p, x, alpha, nonces, c, sig)
    requires AllReduced(g, nonces)
    requires g.decompress(keys[p]) == Some(Scale(g, x, g.base))
    ensures Accepts(g, o, m, keys, sig) <==> !Same(g, x, 0) && HashToPoint(o, keys[p]) != g.zero
  {
    var rg := SigningRing(g, o, m, keys, p, x);
    InstanceWellFormed(g, o, m, keys, rg.image);
    AcceptsByClosing(g, o, m, keys, p, x, alpha, nonces, c, sig);
    SlotReturnsFirst(rg, p, x, alpha, c[p]);
    OthersStayLinked(rg, p, alpha, nonces, c, Reduce(g, alpha - c[p] * x));
    RingCloses(rg, Responses(g, p, x, alpha, nonces, c), c, p);
    ZeroScaleIff(g, x, HashToPoint(o, keys[p]));
  }

  // ---- A wrong key -----------------------------------------------------------------

  /** Two hash queries of one slot that differ and still give the same challenge. */
  ghost predicate CollidesAt(rg: Ring, j: nat, s: int, c: int, d: int)
    requires j < |rg.points| == |rg.bases|
  {
    && (LeftPoint(rg, j, s, c) != LeftPoint(rg, j, s, d) || RightPoint(rg, j, s, c) != RightPoint(rg, j, s, d))
    && Step(rg, j, s, c) == Step(rg, j, s, d)
  }

  /** Different challenges at one slot give different queries, since the image is not the identity. */
  lemma QueriesDiffer(rg: Ring, j: nat, s: int, c: int, d: int)
    requires WellFormed(rg) && j < |rg.bases| && rg.image != rg.g.zero && !Same(rg.g, c, d)
    ensures RightPoint(rg, j, s, c) != RightPoint(rg, j, s, d)
  {
    var g := rg.g;
    var hp := rg.bases[j];
    CombineMinus(g, s, c, s, d, hp, rg.image);
    ScaleOne(g, hp);
    UnitRight(g, Scale(g, c - d, rg.image));
    MinusZero(g, RightPoint(rg, j, s, c), RightPoint(rg, j, s, d));
    ScaleToZero(g, c - d, rg.image);
    if Same(g, c - d, 0) { SameAdd(g, c - d, 0, d, d); }
  }

  lemma DistinctStepsCollide(rg: Ring, j: nat, s: int, c: int, d: int)
    requires WellFormed(rg) && j < |rg.bases| && rg.image != rg.g.zero
    requires IsScalar(rg.g, c) && IsScalar(rg.g, d) && c != d && Step(rg, j, s, c) == Step(rg, j, s, d)
    ensures CollidesAt(rg, j, s, c, d)
  {
    QueriesDiffer(rg, j, s, c, d);
  }

  lemma ArrivalReduced(rg: Ring, s: seq<int>, c0: int, i: nat)
    requires WellFormed(rg) && |s| == |rg.bases| && i <= |s| && IsScalar(rg.g, c0)
    ensures IsScalar(rg.g, Arrival(rg, s, c0, i))
  {
    if i > 0 { StepReduced(rg, i - 1, s[i - 1], Arrival(rg, s, c0, i - 1)); }
  }

  lemma LastStepMerges(rg: Ring, s: seq<int>, c: seq<int>, j: nat)
    requires WellFormed(rg) && |s| == |c| == |rg.bases| && rg.image != rg.g.zero && j < |c|
    requires AllReduced(rg.g, c) && Linked(rg, s, c, j)
    requires Arrival(rg, s, c[0], j) != c[j] && Arrival(rg, s, c[0], j + 1) == c[Next(|c|, j)]
    ensures CollidesAt(rg, j, s[j], Arrival(rg, s, c[0], j), c[j])
  {
    ArrivalReduced(rg, s, c[0], j);
    DistinctStepsCollide(rg, j, s[j], Arrival(rg, s, c[0], j), c[j]);
  }

  /** The verifier, off the signer's chain after slot p, is back on it at `k`: some slot merged the two. */
  lemma {:induction false} ChainsMerge(rg: Ring, s: seq<int>, c: seq<int>, p: nat, k: nat) returns (j: nat)
    requires WellFormed(rg) && |s| == |c| == |rg.bases| && rg.image != rg.g.zero && p < k <= |c|
    requires AllReduced(rg.g, c) && LinkedExcept(rg, s, c, p)
    requires Arrival(rg, s, c[0], p + 1) != c[Next(|c|, p)]
    requires Arrival(rg, s, c[0], k) == c[if k < |c| then k else 0]
    ensures p < j < k && CollidesAt(rg, j, s[j], Arrival(rg, s, c[0], j), c[j])
  {
    j := k - 1;
    if Arrival(rg, s, c[0], j) == c[j] {
      j := ChainsMerge(rg, s, c, p, j);
    } else {
      LastStepMerges(rg, s, c, j);
    }
  }

  lemma WrongSlotDiffers(g: Group, x: int, alpha: int, c: int, b: Point, p: Point)
    requires Lawful(g) && p != Scale(g, x, b) && !Same(g, c, 0)
    ensures Combine(g, Reduce(g, alpha - c * x), b, c, p) != Scale(g, alpha, b)
  {
    CloseOn(g, x, alpha, c, b);
    if Combine(g, Reduce(g, alpha - c * x), b, c, p) == Scale(g, alpha, b) {
      var t := Scale(g, Reduce(g, alpha - c * x), b);
      assert Holds(g, Commutes(t, Scale(g, c, p))) && Holds(g, Commutes(t, Scale(g, c, Scale(g, x, b))));
      CancelRight(g, Scale(g, c, p), Scale(g, c, Scale(g, x, b)), t);
      ScaleDivide(g, c, p, Scale(g, c, p));
      ScaleDivide(g, c, Scale(g, x, b), Scale(g, c, p));
    }
  }

  /** The query by which the verifier of `sig` leaves slot `i`. */
  function SlotQuery(g: Group, o: Hashes, m: Bytes, keys: seq<Bytes>, sig: Signature, i: nat): seq<Bytes>
    requires Decodes(g, keys, sig) && i < |keys|
  {
    var rg, s, c := RingOf(g, o, m, keys, sig), Scalars(g, sig.s)[i], ChallengeAt(g, o, m, keys, sig, i);
    Query(g, m, LeftPoint(rg, i, s, c), RightPoint(rg, i, s, c))
  }

  /** The query by which the signer left it: from the nonce alone at the own slot. */
  function SignerQuery(rg: Ring, m: Bytes, p: nat, alpha: int, nonces: seq<int>, c: seq<int>, j: nat): seq<Bytes>
    requires |nonces| == |c| == |rg.points| == |rg.bases| && p < |c| && j < |c|
  {
    if j == p then Query(rg.g, m, Scale(rg.g, alpha, rg.g.base), Scale(rg.g, alpha, rg.bases[p]))
    else Query(rg.g, m, LeftPoint(rg, j, nonces[j], c[j]), RightPoint(rg, j, nonces[j], c[j]))
  }

  /**
   A signature made with a key that is not the key of its slot, and with a challenge other than zero
   there, verifies only through a collision of the challenge hash: at some slot j the verifier's query
   and the signer's are different bytes with one digest.
   */
  lemma WrongKeyNeedsCollision(g: Group, o: Hashes, m: Bytes, keys: seq<Bytes>, p: nat, x: int, alpha: int,
                               nonces: seq<int>, c: seq<int>, sig: Signature)
    returns (j: nat)
    requires Lawful(g) && |keys| >= 2 && RingDecodes(g, keys) && p < |keys|
    requires SignedBy(SigningRing(g, o, m, keys, p, x), p, x, alpha, nonces, c, sig)
    requires AllReduced(g, nonces)
    requires g.decompress(keys[p]) != Some(Scale(g, x, g.base)) && c[p] != 0
    requires Accepts(g, o, m, keys, sig)
    ensures p <= j < |keys|
    ensures Collision(g, o, "CipherX_MLSAG", SlotQuery(g, o, m, keys, sig, j),
                      SignerQuery(SigningRing(g, o, m, keys, p, x), m, p, alpha, nonces, c, j))
  {
    var rg := SigningRing(g, o, m, keys, p, x);
    InstanceWellFormed(g, o, m, keys, rg.image);
    AcceptsByClosing(g, o, m, keys, p, x, alpha, nonces, c, sig);
    WrongKeyMissesNonce(rg, p, x, alpha, nonces, c);
    j := SlotOrLater(rg, p, alpha, nonces, c, Reduce(g, alpha - c[p] * x));
    ForgeryCollides(g, o, m, keys, p, x, alpha, nonces, c, sig, j);
  }

  /** What the verifier reads from a signature that was signed. */
  lemma SignedReads(g: Group, o: Hashes, m: Bytes, keys: seq<Bytes>, p: nat, x: int, alpha: int,
                    nonces: seq<int>, c: seq<int>, sig: Signature)
    requires Lawful(g) && RingDecodes(g, keys) && |keys| >= 2 && p < |keys| && AllReduced(g, nonces)
    requires SignedBy(SigningRing(g, o, m, keys, p, x), p, x, alpha, nonces, c, sig)
    ensures Decodes(g, keys, sig) && RingOf(g, o, m, keys, sig) == SigningRing(g, o, m, keys, p, x)
    ensures Scalars(g, sig.s) == Responses(g, p, x, alpha, nonces, c) && ScalarFromBytes(g, sig.c0) == Some(c[0])
  {
    var rg := SigningRing(g, o, m, keys, p, x);
    InstanceWellFormed(g, o, m, keys, rg.image);
    OpenRingReduced(rg, p, alpha, nonces, c, 0);
    ReduceIsScalar(g, alpha - c[p] * x);
    EncodingDecodes(g, keys, c[0], Responses(g, p, x, alpha, nonces, c), rg.image);
  }

  lemma ForgeryCollides(g: Group, o: Hashes, m: Bytes, keys: seq<Bytes>, p: nat, x: int, alpha: int,
                        nonces: seq<int>, c: seq<int>, sig: Signature, j: nat)
    requires Lawful(g) && |keys| >= 2 && RingDecodes(g, keys) && p <= j < |keys| && AllReduced(g, nonces)
    requires SignedBy(SigningRing(g, o, m, keys, p, x), p, x, alpha, nonces, c, sig)
    requires ForgeryCollision(SigningRing(g, o, m, keys, p, x), p, alpha, Responses(g, p, x, alpha, nonces, c), c, j)
    ensures Decodes(g, keys, sig)
    ensures Collision(g, o, "CipherX_MLSAG", SlotQuery(g, o, m, keys, sig, j),
                      SignerQuery(SigningRing(g, o, m, keys, p, x), m, p, alpha, nonces, c, j))
  {
    var rg, s := SigningRing(g, o, m, keys, p, x), Responses(g, p, x, alpha, nonces, c);
    SignedReads(g, o, m, keys, p, x, alpha, nonces, c, sig);
    OthersStayLinked(rg, p, alpha, nonces, c, s[p]);
    ArrivalFollows(rg, s, c, p);
    var d := Arrival(rg, s, c[0], j);
    assert ChallengeAt(g, o, m, keys, sig, j) == d;
    var l, r := LeftPoint(rg, j, s[j], d), RightPoint(rg, j, s[j], d);
    if j == p {
      QueriesCollide(g, o, m, l, r, Scale(g, alpha, g.base), Scale(g, alpha, rg.bases[p]));
    } else {
      QueriesCollide(g, o, m, l, r, LeftPoint(rg, j, s[j], c[j]), RightPoint(rg, j, s[j], c[j]));
    }
  }

  lemma QueriesCollide(g: Group, o: Hashes, m: Bytes, l: Point, r: Point, l': Point, r': Point)
    requires Lawful(g) && (l != l' || r != r') && Challenge(g, o, m, l, r) == Challenge(g, o, m, l', r')
    ensures Collision(g, o, "CipherX_MLSAG", Query(g, m, l, r), Query(g, m, l', r'))
  {
    if Absorbed(Query(g, m, l, r)) == Absorbed(Query(g, m, l', r')) { QueryBinds(g, m, l, r, m, l', r'); }
  }

  lemma ZeroChallengeReturnsFirst(rg: Ring, p: nat, x: int, alpha: int)
    requires WellFormed(rg) && p < |rg.bases|
    ensures Step(rg, p, Reduce(rg.g, alpha - 0 * x), 0) == FirstChallenge(rg, p, alpha)
  {
    ZeroChallengeLeaves(rg.g, alpha, rg.g.base, rg.points[p]);
    ZeroChallengeLeaves(rg.g, alpha, rg.bases[p], rg.image);
  }

  lemma ZeroChallengeLeaves(g: Group, alpha: int, b: Point, q: Point)
    requires Lawful(g)
    ensures Combine(g, Reduce(g, alpha), b, 0, q) == Scale(g, alpha, b)
  {
    ScaleReduce(g, alpha, b);
    ZeroScaleIff(g, 0, q);
    UnitRight(g, Scale(g, alpha, b));
  }

  /** A challenge of zero at the signer's slot is the exception: then any key does. */
  lemma ZeroChallengeAcceptsAnyKey(g: Group, o: Hashes, m: Bytes, keys: seq<Bytes>, p: nat, x: int, alpha: int,
                                   nonces: seq<int>, c: seq<int>, sig: Signature)
    requires Lawful(g) && |keys| >= 2 && RingDecodes(g, keys) && p < |keys|
    requires SignedBy(SigningRing(g, o, m, keys, p, x), p, x, alpha, nonces, c, sig)
    requires AllReduced(g, nonces) && c[p] == 0
    ensures Accepts(g, o, m, keys, sig) <==> !Same(g, x, 0) && HashToPoint(o, keys[p]) != g.zero
  {
    var rg := SigningRing(g, o, m, keys, p, x);
    InstanceWellFormed(g, o, m, keys, rg.image);
    AcceptsByClosing(g, o, m, keys, p, x, alpha, nonces, c, sig);
    ZeroChallengeReturnsFirst(rg, p, x, alpha);
    OthersStayLinked(rg, p, alpha, nonces, c, Reduce(g, alpha - c[p] * x));
    RingCloses(rg, Responses(g, p, x, alpha, nonces, c), c, p);
    ZeroScaleIff(g, x, HashToPoint(o, keys[p]));
  }

  /** The collision a forged ring exhibits: at the signer's slot, or at a later slot `j`. */
  ghost predicate ForgeryCollision(rg: Ring, p: nat, alpha: int, s: seq<int>, c: seq<int>, j: nat)
    requires |s| == |c| == |rg.points| == |rg.bases| && p <= j < |c|
  {
    if j == p then
      && LeftPoint(rg, p, s[p], c[p]) != Scale(rg.g, alpha, rg.g.base)
      && Step(rg, p, s[p], c[p]) == FirstChallenge(rg, p, alpha)
    else CollidesAt(rg, j, s[j], Arrival(rg, s, c[0], j), c[j])
  }

  lemma WrongKeyMissesNonce(rg: Ring, p: nat, x: int, alpha: int, nonces: seq<int>, c: seq<int>)
    requires WellFormed(rg) && OpenRing(rg, p, alpha, nonces, c) && c[p] != 0
    requires rg.points[p] != Scale(rg.g, x, rg.g.base)
    ensures LeftPoint(rg, p, Reduce(rg.g, alpha - c[p] * x), c[p]) != Scale(rg.g, alpha, rg.g.base)
  {
    OpenRingReduced(rg, p, alpha, nonces, c, p);
    assert Holds(rg.g, Order);
    SmallIsScalar(rg.g, 0);
    WrongSlotDiffers(rg.g, x, alpha, c[p], rg.g.base, rg.points[p]);
  }

  lemma SlotOrLater(rg: Ring, p: nat, alpha: int, nonces: seq<int>, c: seq<int>, t: int) returns (j: nat)
    requires WellFormed(rg) && OpenRing(rg, p, alpha, nonces, c) && rg.image != rg.g.zero
    requires Arrival(rg, nonces[p := t], c[0], |c|) == c[0]
    ensures p <= j < |c|
    ensures if j == p then Step(rg, p, t, c[p]) == FirstChallenge(rg, p, alpha)
            else CollidesAt(rg, j, nonces[p := t][j], Arrival(rg, nonces[p := t], c[0], j), c[j])
  {
    OthersStayLinked(rg, p, alpha, nonces, c, t);
    forall i | 0 <= i < |c| ensures IsScalar(rg.g, c[i]) { OpenRingReduced(rg, p, alpha, nonces, c, i); }
    if Step(rg, p, t, c[p]) == FirstChallenge(rg, p, alpha) {
      j := p;
    } else {
      ArrivalFollows(rg, nonces[p := t], c, p);
      j := ChainsMerge(rg, nonces[p := t], c, p, |c|);
    }
  }

  // ---- Special soundness ---------------------------------------------------------------

  /**
   Fork extraction: two accepted signatures over one ring and key image whose commitments agree at
   slot j but whose challenges there differ reveal the secret key of slot j, and the shared image is
   that key's own image. The two hash oracles may differ (a rewound oracle) except in H_p.
   */
  lemma ForkRevealsKey(g: Group, o: Hashes, o': Hashes, m: Bytes, m': Bytes, keys: seq<Bytes>,
                       sig: Signature, sig': Signature, j: nat)
    requires Lawful(g) && Accepts(g, o, m, keys, sig) && Accepts(g, o', m', keys, sig')
    requires sig.keyImage == sig'.keyImage && j < |keys|
    requires HashToPoint(o, keys[j]) == HashToPoint(o', keys[j])
    requires CommitmentsAgree(RingOf(g, o, m, keys, sig), j,
                              Scalars(g, sig.s)[j], ChallengeAt(g, o, m, keys, sig, j),
                              Scalars(g, sig'.s)[j], ChallengeAt(g, o', m', keys, sig', j))
    requires ChallengeAt(g, o, m, keys, sig, j) != ChallengeAt(g, o', m', keys, sig', j)
    ensures var x := ExtractKey(g, Scalars(g, sig.s)[j], ChallengeAt(g, o, m, keys, sig, j),
                                Scalars(g, sig'.s)[j], ChallengeAt(g, o', m', keys, sig', j));
            && g.decompress(keys[j]) == Some(Scale(g, x, g.base))
            && g.decompress(sig.keyImage) == Some(Scale(g, x, HashToPoint(o, keys[j])))
            && !Same(g, x, 0)
  {
    var s, s' := Scalars(g, sig.s)[j], Scalars(g, sig'.s)[j];
    var c, c' := ChallengeAt(g, o, m, keys, sig, j), ChallengeAt(g, o', m', keys, sig', j);
    ChallengeAtIsScalar(g, o, m, keys, sig, j);
    ChallengeAtIsScalar(g, o', m', keys, sig', j);
    SlotRevealsKey(RingOf(g, o, m, keys, sig), j, s, c, s', c');
  }

  /** Two responses to two challenges that reproduce the same two points at slot `j`. */
  ghost predicate CommitmentsAgree(rg: Ring, j: nat, s: int, c: int, t: int, d: int)
    requires j < |rg.points| == |rg.bases|
  {
    LeftPoint(rg, j, s, c) == LeftPoint(rg, j, t, d) && RightPoint(rg, j, s, c) == RightPoint(rg, j, t, d)
  }

  lemma ChallengeAtIsScalar(g: Group, o: Hashes, m: Bytes, keys: seq<Bytes>, sig: Signature, i: nat)
    requires Lawful(g) && Decodes(g, keys, sig) && i <= |keys|
    ensures IsScalar(g, ChallengeAt(g, o, m, keys, sig, i))
  {
    ScalarCanonical(g, sig.c0);
    InstanceWellFormed(g, o, m, keys, g.decompress(sig.keyImage).value);
    ArrivalReduced(RingOf(g, o, m, keys, sig), Scalars(g, sig.s), ScalarFromBytes(g, sig.c0).value, i);
  }

  lemma SlotRevealsKey(rg: Ring, j: nat, s: int, c: int, t: int, d: int)
    requires Lawful(rg.g) && j < |rg.points| == |rg.bases| && rg.image != rg.g.zero && !Same(rg.g, c, d)
    requires CommitmentsAgree(rg, j, s, c, t, d)
    ensures var x := ExtractKey(rg.g, s, c, t, d);
            && rg.points[j] == Scale(rg.g, x, rg.g.base)
            && rg.image == Scale(rg.g, x, rg.bases[j])
            && !Same(rg.g, x, 0)
  {
    var hp, x := rg.bases[j], ExtractKey(rg.g, s, c, t, d);
    ExtractOn(rg.g, rg.g.base, rg.points[j], s, c, t, d);
    ExtractOn(rg.g, hp, rg.image, s, c, t, d);
    ScaleOne(rg.g, hp);
    if Same(rg.g, x, 0) {
      ScaleSame(rg.g, x, 0, hp);
    }
  }
}
