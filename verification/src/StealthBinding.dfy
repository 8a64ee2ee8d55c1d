/** Who finds an output, and which outputs differ: `src/crypto/stealth.rs:53-205`, `src/crypto/ringct.rs:424-434`. */
module StealthBinding {
  import opened Common
  import opened Ristretto
  import opened Stealth

  // ---- The two hashes --------------------------------------------------------------------------

  function PointQuery(g: Group, p: Point): seq<Bytes> {
    [g.compress(p)]
  }

  function IndexQuery(g: Group, secret: int, index: u32): seq<Bytes> {
    [ScalarBytes(g, secret), ToLe(index, 4)]
  }

  /** The secret of output `index` under a shared point: the digest of a digest. */
  function SecretOf(g: Group, o: Hashes, p: Point, index: u32): int {
    Reduce(g, o.sha512("CipherX_stealth_hn", IndexQuery(g, SharedScalar(g, o, p), index)))
  }

  function SharedScalar(g: Group, o: Hashes, p: Point): int {
    Reduce(g, o.sha512("CipherX_stealth_hs", PointQuery(g, p)))
  }

  /** Two shared points with indices collide: different points in the first hash, or different queries of the second. */
  ghost predicate SecretsCollide(g: Group, o: Hashes, p: Point, index: u32, q: Point, index': u32) {
    || Collision(g, o, "CipherX_stealth_hs", PointQuery(g, p), PointQuery(g, q))
    || Collision(g, o, "CipherX_stealth_hn", IndexQuery(g, SharedScalar(g, o, p), index),
                 IndexQuery(g, SharedScalar(g, o, q), index'))
  }

  lemma IndexQueryBinds(g: Group, s: int, index: u32, t: int, index': u32)
    requires Lawful(g) && IsScalar(g, s) && IsScalar(g, t)
    requires Absorbed(IndexQuery(g, s, index)) == Absorbed(IndexQuery(g, t, index'))
    ensures s == t && index == index'
  {
    var a, b := IndexQuery(g, s, index), IndexQuery(g, t, index');
    TwoParts(a[0], a[1], b[0], b[1]);
    ScalarRoundTrip(g, s);
    ScalarRoundTrip(g, t);
    Bytes4();
    LeInjective(index, index', 4);
  }

  lemma TwoParts(a: Bytes, b: Bytes, c: Bytes, d: Bytes)
    requires |a| == |c| && Absorbed([a, b]) == Absorbed([c, d])
    ensures a == c && b == d
  {
    TwoAbsorbed(a, b);
    TwoAbsorbed(c, d);
    assert (a + b)[..|a|] == a && (c + d)[..|c|] == c;
    assert (a + b)[|a|..] == b && (c + d)[|c|..] == d;
  }

  lemma TwoAbsorbed(a: Bytes, b: Bytes)
    ensures Absorbed([a, b]) == a + b
  {
    assert [a, b][..1] == [a] && [a][..0] == [];
    assert Absorbed([a]) == a;
  }

  /** One secret comes from one shared point and one index, or a collision. */
  lemma SecretBinds(g: Group, o: Hashes, p: Point, index: u32, q: Point, index': u32)
    requires Lawful(g) && SecretOf(g, o, p, index) == SecretOf(g, o, q, index')
    ensures (p == q && index == index') || SecretsCollide(g, o, p, index, q, index')
  {
    var s, t := SharedScalar(g, o, p), SharedScalar(g, o, q);
    ReduceIsScalar(g, o.sha512("CipherX_stealth_hs", PointQuery(g, p)));
    ReduceIsScalar(g, o.sha512("CipherX_stealth_hs", PointQuery(g, q)));
    if Absorbed(IndexQuery(g, s, index)) == Absorbed(IndexQuery(g, t, index')) {
      IndexQueryBinds(g, s, index, t, index');
      if Absorbed(PointQuery(g, p)) == Absorbed(PointQuery(g, q)) {
        AbsorbedBinds(PointQuery(g, p), PointQuery(g, q));
        assert PointQuery(g, p)[0] == PointQuery(g, q)[0];
        CompressInjective(g, p, q);
      }
    }
  }

  /** One-time keys of one spend key are equal exactly when the secrets are. */
  lemma KeysFollowSecrets(g: Group, o: Hashes, p: Point, index: u32, q: Point, index': u32, bSpend: Point)
    requires Lawful(g)
    ensures g.compress(g.plus(Scale(g, SecretOf(g, o, p, index), g.base), bSpend))
            == g.compress(g.plus(Scale(g, SecretOf(g, o, q, index'), g.base), bSpend))
            <==> SecretOf(g, o, p, index) == SecretOf(g, o, q, index')
  {
    var s, t := SecretOf(g, o, p, index), SecretOf(g, o, q, index');
    ReduceIsScalar(g, o.sha512("CipherX_stealth_hn", IndexQuery(g, SharedScalar(g, o, p), index)));
    ReduceIsScalar(g, o.sha512("CipherX_stealth_hn", IndexQuery(g, SharedScalar(g, o, q), index')));
    CompressInjective(g, g.plus(Scale(g, s, g.base), bSpend), g.plus(Scale(g, t, g.base), bSpend));
    if g.plus(Scale(g, s, g.base), bSpend) == g.plus(Scale(g, t, g.base), bSpend) {
      CancelRight(g, Scale(g, s, g.base), Scale(g, t, g.base), bSpend);
      BaseMultiples(g, s, t);
    }
  }

  // ---- Who finds an output -------------------------------------------------------------------------

  /** What sender and scanner publish and compute, by the hashes. */
  lemma GeneratedBy(g: Group, o: Hashes, b: int, a: int, index: u32, wide: nat)
    requires Lawful(g)
    ensures var r := Reduce(g, wide);
            var si := SecretOf(g, o, Scale(g, r, Scale(g, a, g.base)), index);
            GenerateOutput(g, o, AddressOf(g, b, a), index, wide)
            == Ok(OutputKeys(g.compress(Scale(g, r, g.base)),
                             g.compress(g.plus(Scale(g, si, g.base), Scale(g, b, g.base))), si))
  {
    GeneratedForm(g, o, b, a, index, wide);
  }

  lemma ScannedBy(g: Group, o: Hashes, r: int, outputPubkey: Bytes, index: u32, a: int, b: int)
    requires Lawful(g)
    ensures var si := SecretOf(g, o, Scale(g, a, Scale(g, r, g.base)), index);
            ScanOutput(g, o, g.compress(Scale(g, r, g.base)), outputPubkey, index, ScalarBytes(g, a), g.compress(Scale(g, b, g.base)))
            == if g.compress(g.plus(Scale(g, si, g.base), Scale(g, b, g.base))) == outputPubkey
               then Some(ScalarBytes(g, si)) else None
  {
    CompressRoundTrip(g, Scale(g, r, g.base));
    CompressRoundTrip(g, Scale(g, b, g.base));
    ScalarRoundTrip(g, a);
    ScaleReduce(g, a, Scale(g, r, g.base));
  }

  /** Multiples of a multiple, not by zero, of the base point are told apart by their scalars. */
  lemma SharedPointsDiffer(g: Group, r: int, a: int, a': int)
    requires Lawful(g) && !Same(g, r, 0)
    ensures Scale(g, r, Scale(g, a, g.base)) == Scale(g, r, Scale(g, a', g.base)) <==> Same(g, a, a')
  {
    BaseMultiples(g, a, a');
    if Scale(g, r, Scale(g, a, g.base)) == Scale(g, r, Scale(g, a', g.base)) {
      ScaleDivide(g, r, Scale(g, a, g.base), Scale(g, r, Scale(g, a, g.base)));
      ScaleDivide(g, r, Scale(g, a', g.base), Scale(g, r, Scale(g, a, g.base)));
    }
  }

  /**
   An output generated for view key a and index i, with a transaction key other than zero, is found
   with view key a' at index j exactly when a' is a and j is i, or else one of the two hashes gives
   one scalar for different bytes.
   */
  lemma FoundIff(g: Group, o: Hashes, b: int, a: int, index: u32, wide: nat, a': int, index': u32)
    requires Lawful(g) && !Same(g, Reduce(g, wide), 0)
    ensures GenerateOutput(g, o, AddressOf(g, b, a), index, wide).Ok?
    ensures var out := GenerateOutput(g, o, AddressOf(g, b, a), index, wide).value;
            var r := Reduce(g, wide);
            var found := ScanOutput(g, o, out.txPubkey, out.oneTimePubkey, index', ScalarBytes(g, a'),
                                    AddressOf(g, b, a).publicSpend);
            && (Same(g, a, a') && index == index' ==> found == Some(ScalarBytes(g, out.sharedSecret)))
            && (found.Some? ==> (Same(g, a, a') && index == index')
                                || SecretsCollide(g, o, Scale(g, r, Scale(g, a, g.base)), index,
                                                  Scale(g, r, Scale(g, a', g.base)), index'))
  {
    var r := Reduce(g, wide);
    var p, q := Scale(g, r, Scale(g, a, g.base)), Scale(g, r, Scale(g, a', g.base));
    GeneratedBy(g, o, b, a, index, wide);
    var out := GenerateOutput(g, o, AddressOf(g, b, a), index, wide).value;
    ScannedBy(g, o, r, out.oneTimePubkey, index', a', b);
    SharedPointAgrees(g, r, a');
    KeysFollowSecrets(g, o, p, index, q, index', Scale(g, b, g.base));
    SharedPointsDiffer(g, r, a, a');
    if SecretOf(g, o, p, index) == SecretOf(g, o, q, index') {
      SecretBinds(g, o, p, index, q, index');
    }
  }

  /** With the right view key and index, an output is found under a spend key exactly when it is the recipient's. */
  lemma FoundBySpendKeyIff(g: Group, o: Hashes, b: int, a: int, index: u32, wide: nat, b': int)
    requires Lawful(g)
    ensures GenerateOutput(g, o, AddressOf(g, b, a), index, wide).Ok?
    ensures var out := GenerateOutput(g, o, AddressOf(g, b, a), index, wide).value;
            ScanOutput(g, o, out.txPubkey, out.oneTimePubkey, index, ScalarBytes(g, a), AddressOf(g, b', a).publicSpend).Some?
            <==> Same(g, b, b')
  {
    var r := Reduce(g, wide);
    var p := Scale(g, r, Scale(g, a, g.base));
    var s := Scale(g, SecretOf(g, o, p, index), g.base);
    GeneratedBy(g, o, b, a, index, wide);
    var out := GenerateOutput(g, o, AddressOf(g, b, a), index, wide).value;
    ScannedBy(g, o, r, out.oneTimePubkey, index, a, b');
    SharedPointAgrees(g, r, a);
    CompressInjective(g, g.plus(s, Scale(g, b, g.base)), g.plus(s, Scale(g, b', g.base)));
    assert Holds(g, Commutes(s, Scale(g, b, g.base))) && Holds(g, Commutes(s, Scale(g, b', g.base)));
    BaseMultiples(g, b, b');
    if g.plus(s, Scale(g, b, g.base)) == g.plus(s, Scale(g, b', g.base)) {
      CancelRight(g, Scale(g, b, g.base), Scale(g, b', g.base), s);
    }
  }

  /**
   Two outputs for one recipient have one one-time key exactly when transaction key and index are the
   same, or else a collision; so no two of them share a key image either.
   */
  lemma OneTimeKeysDiffer(g: Group, o: Hashes, b: int, a: int, index: u32, wide: nat, index': u32, wide': nat)
    requires Lawful(g) && !Same(g, a, 0)
    ensures GenerateOutput(g, o, AddressOf(g, b, a), index, wide).Ok?
    ensures GenerateOutput(g, o, AddressOf(g, b, a), index', wide').Ok?
    ensures var out := GenerateOutput(g, o, AddressOf(g, b, a), index, wide).value;
            var other := GenerateOutput(g, o, AddressOf(g, b, a), index', wide').value;
            var (r, r') := (Reduce(g, wide), Reduce(g, wide'));
            && (r == r' && index == index' ==> out == other)
            && (out.oneTimePubkey == other.oneTimePubkey ==>
                  || (r == r' && index == index')
                  || SecretsCollide(g, o, Scale(g, r, Scale(g, a, g.base)), index,
                                    Scale(g, r', Scale(g, a, g.base)), index'))
  {
    var r, r' := Reduce(g, wide), Reduce(g, wide');
    var p, q := Scale(g, r, Scale(g, a, g.base)), Scale(g, r', Scale(g, a, g.base));
    GeneratedBy(g, o, b, a, index, wide);
    GeneratedBy(g, o, b, a, index', wide');
    KeysFollowSecrets(g, o, p, index, q, index', Scale(g, b, g.base));
    SharedPointAgrees(g, r, a);
    SharedPointAgrees(g, r', a);
    SharedPointsDiffer(g, a, r, r');
    ReduceIsScalar(g, wide);
    ReduceIsScalar(g, wide');
    if SecretOf(g, o, p, index) == SecretOf(g, o, q, index') {
      SecretBinds(g, o, p, index, q, index');
    }
  }

  // ---- The amount key ---------------------------------------------------------------------------------

  /** Two secrets that give one key and one nonce are the same scalar, or two digests share their first 44 bytes. */
  lemma AmountKeyBinds(g: Group, o: Hashes, s: int, t: int)
    requires Lawful(g) && AmountKeyNonce(g, o, s) == AmountKeyNonce(g, o, t)
    ensures || Same(g, s, t)
            || (ScalarBytes(g, s) != ScalarBytes(g, t)
                && ToLe(o.sha512("CipherX_amount_enc_v2", [ScalarBytes(g, s)]), 64)[..44]
                   == ToLe(o.sha512("CipherX_amount_enc_v2", [ScalarBytes(g, t)]), 64)[..44])
  {
    var x := ToLe(o.sha512("CipherX_amount_enc_v2", [ScalarBytes(g, s)]), 64);
    var y := ToLe(o.sha512("CipherX_amount_enc_v2", [ScalarBytes(g, t)]), 64);
    assert x[..44] == x[..32] + x[32..44] && y[..44] == y[..32] + y[32..44];
    ScalarRoundTrip(g, s);
    ScalarRoundTrip(g, t);
  }
}
