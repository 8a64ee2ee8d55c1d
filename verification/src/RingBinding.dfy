/** What an accepted ring signature is bound to: message, ring slots, responses and key image. `src/crypto/ring_sig.rs`. */
module RingBinding {
  import opened Common
  import opened Ristretto
  import opened RingSignature

  // ---- One challenge, one query ---------------------------------------------------------------

  /** The challenge on leaving a slot is the digest of message and both points there. */
  lemma ChallengeIsDigest(g: Group, o: Hashes, m: Bytes, keys: seq<Bytes>, sig: Signature, i: nat)
    requires Decodes(g, keys, sig) && i < |keys|
    ensures ChallengeAt(g, o, m, keys, sig, i + 1)
            == Reduce(g, o.sha512("CipherX_MLSAG", SlotQuery(g, o, m, keys, sig, i)))
  {
    var rg := RingOf(g, o, m, keys, sig);
    ArrivalNext(rg, Scalars(g, sig.s), ScalarFromBytes(g, sig.c0).value, i, ChallengeAt(g, o, m, keys, sig, i));
  }

  /** Both verifiers compute the same two points on leaving their slots. */
  ghost predicate SamePoints(g: Group, o: Hashes, m: Bytes, keys: seq<Bytes>, sig: Signature, i: nat,
                             m': Bytes, keys': seq<Bytes>, sig': Signature, j: nat)
    requires Decodes(g, keys, sig) && i < |keys| && Decodes(g, keys', sig') && j < |keys'|
  {
    var (rg, s, c) := (RingOf(g, o, m, keys, sig), Scalars(g, sig.s)[i], ChallengeAt(g, o, m, keys, sig, i));
    var (rg', s', c') := (RingOf(g, o, m', keys', sig'), Scalars(g, sig'.s)[j], ChallengeAt(g, o, m', keys', sig', j));
    LeftPoint(rg, i, s, c) == LeftPoint(rg', j, s', c') && RightPoint(rg, i, s, c) == RightPoint(rg', j, s', c')
  }

  lemma SameChallengeSameQuery(g: Group, o: Hashes, m: Bytes, keys: seq<Bytes>, sig: Signature, i: nat,
                               m': Bytes, keys': seq<Bytes>, sig': Signature, j: nat)
    requires Lawful(g) && Decodes(g, keys, sig) && i < |keys| && Decodes(g, keys', sig') && j < |keys'|
    requires ChallengeAt(g, o, m, keys, sig, i + 1) == ChallengeAt(g, o, m', keys', sig', j + 1)
    ensures (m == m' && SamePoints(g, o, m, keys, sig, i, m', keys', sig', j))
            || Collision(g, o, "CipherX_MLSAG", SlotQuery(g, o, m, keys, sig, i), SlotQuery(g, o, m', keys', sig', j))
  {
    var (rg, s, c) := (RingOf(g, o, m, keys, sig), Scalars(g, sig.s)[i], ChallengeAt(g, o, m, keys, sig, i));
    var (rg', s', c') := (RingOf(g, o, m', keys', sig'), Scalars(g, sig'.s)[j], ChallengeAt(g, o, m', keys', sig', j));
    ChallengeIsDigest(g, o, m, keys, sig, i);
    ChallengeIsDigest(g, o, m', keys', sig', j);
    if Absorbed(SlotQuery(g, o, m, keys, sig, i)) == Absorbed(SlotQuery(g, o, m', keys', sig', j)) {
      QueryBinds(g, m, LeftPoint(rg, i, s, c), RightPoint(rg, i, s, c),
                 m', LeftPoint(rg', j, s', c'), RightPoint(rg', j, s', c'));
    }
  }

  /**
   Two accepted signatures with one c0, over whatever rings, are for one message and end in the same
   two points, or their last queries are different bytes with one digest.
   */
  lemma SignatureBindsMessage(g: Group, o: Hashes, m: Bytes, keys: seq<Bytes>, sig: Signature,
                              m': Bytes, keys': seq<Bytes>, sig': Signature)
    requires Lawful(g) && Accepts(g, o, m, keys, sig) && Accepts(g, o, m', keys', sig') && sig.c0 == sig'.c0
    ensures (m == m' && SamePoints(g, o, m, keys, sig, |keys| - 1, m', keys', sig', |keys'| - 1))
            || Collision(g, o, "CipherX_MLSAG", SlotQuery(g, o, m, keys, sig, |keys| - 1),
                         SlotQuery(g, o, m', keys', sig', |keys'| - 1))
  {
    var i, j := |keys| - 1, |keys'| - 1;
    Closes(g, o, m, keys, sig, i);
    Closes(g, o, m', keys', sig', j);
    SameChallengeSameQuery(g, o, m, keys, sig, i, m', keys', sig', j);
  }

  lemma Closes(g: Group, o: Hashes, m: Bytes, keys: seq<Bytes>, sig: Signature, last: nat)
    requires Accepts(g, o, m, keys, sig) && last + 1 == |keys|
    ensures ChallengeAt(g, o, m, keys, sig, last + 1) == ScalarFromBytes(g, sig.c0).value
  {
  }

  // ---- No second signature from the same challenge ----------------------------------------------

  /** The key of slot `i` that the two signatures give away, and the key image it makes. */
  ghost predicate RevealsKey(g: Group, o: Hashes, m: Bytes, m': Bytes, keys: seq<Bytes>, sig: Signature, sig': Signature, i: nat)
    requires Decodes(g, keys, sig) && Decodes(g, keys, sig') && i < |keys|
  {
    var x := ExtractKey(g, Scalars(g, sig.s)[i], ChallengeAt(g, o, m, keys, sig, i),
                        Scalars(g, sig'.s)[i], ChallengeAt(g, o, m', keys, sig', i));
    && g.decompress(keys[i]) == Some(Scale(g, x, g.base)) && !Same(g, x, 0)
    && g.decompress(sig.keyImage) == Some(Scale(g, x, HashToPoint(o, keys[i])))
  }

  /** What slot `i` gives away if the two signatures differ from there on. */
  ghost predicate Breaks(g: Group, o: Hashes, m: Bytes, m': Bytes, keys: seq<Bytes>, sig: Signature, sig': Signature, i: nat)
    requires Decodes(g, keys, sig) && Decodes(g, keys, sig') && i < |keys|
  {
    || Collision(g, o, "CipherX_MLSAG", SlotQuery(g, o, m, keys, sig, i), SlotQuery(g, o, m', keys, sig', i))
    || RevealsKey(g, o, m, m', keys, sig, sig', i)
  }

  lemma SameResponse(rg: Ring, i: nat, s: int, t: int, c: int)
    requires Lawful(rg.g) && i < |rg.points| && LeftPoint(rg, i, s, c) == LeftPoint(rg, i, t, c)
    ensures Same(rg.g, s, t)
  {
    CancelRight(rg.g, Scale(rg.g, s, rg.g.base), Scale(rg.g, t, rg.g.base), Scale(rg.g, c, rg.points[i]));
    BaseMultiples(rg.g, s, t);
  }

  lemma SameScalarBytes(g: Group, a: Bytes, b: Bytes)
    requires Lawful(g) && ScalarFromBytes(g, a).Some? && ScalarFromBytes(g, b).Some?
    requires Same(g, ScalarFromBytes(g, a).value, ScalarFromBytes(g, b).value)
    ensures a == b
  {
    ScalarCanonical(g, a);
    ScalarCanonical(g, b);
  }

  /** Equal challenges after slot `i` come from equal responses and challenges, or something breaks there. */
  lemma SlotBinds(g: Group, o: Hashes, m: Bytes, m': Bytes, keys: seq<Bytes>, sig: Signature, sig': Signature, i: nat)
    requires Lawful(g) && Accepts(g, o, m, keys, sig) && Accepts(g, o, m', keys, sig') && i < |keys|
    requires sig.keyImage == sig'.keyImage
    requires ChallengeAt(g, o, m, keys, sig, i + 1) == ChallengeAt(g, o, m', keys, sig', i + 1)
    ensures || (m == m' && sig.s[i] == sig'.s[i] && ChallengeAt(g, o, m, keys, sig, i) == ChallengeAt(g, o, m', keys, sig', i))
            || Breaks(g, o, m, m', keys, sig, sig', i)
  {
    SameChallengeSameQuery(g, o, m, keys, sig, i, m', keys, sig', i);
    if SamePoints(g, o, m, keys, sig, i, m', keys, sig', i) {
      var rg := RingOf(g, o, m, keys, sig);
      var s, t := Scalars(g, sig.s)[i], Scalars(g, sig'.s)[i];
      var c, d := ChallengeAt(g, o, m, keys, sig, i), ChallengeAt(g, o, m', keys, sig', i);
      assert CommitmentsAgree(rg, i, s, c, t, d);
      if c == d {
        SameResponse(rg, i, s, t, c);
        SameScalarBytes(g, sig.s[i], sig'.s[i]);
      } else {
        ForkRevealsKey(g, o, o, m, m', keys, sig, sig', i);
      }
    }
  }

  lemma {:induction false} ResponsesBind(g: Group, o: Hashes, m: Bytes, m': Bytes, keys: seq<Bytes>,
                                         sig: Signature, sig': Signature, k: nat)
    returns (i: nat)
    requires Lawful(g) && Accepts(g, o, m, keys, sig) && Accepts(g, o, m', keys, sig') && k <= |keys|
    requires sig.keyImage == sig'.keyImage
    requires ChallengeAt(g, o, m, keys, sig, k) == ChallengeAt(g, o, m', keys, sig', k)
    ensures || ((k > 0 ==> m == m') && sig.s[..k] == sig'.s[..k])
            || (i < |keys| && Breaks(g, o, m, m', keys, sig, sig', i))
  {
    i := 0;
    if k > 0 {
      var last := k - 1;
      i := last;
      SlotBinds(g, o, m, m', keys, sig, sig', last);
      if !Breaks(g, o, m, m', keys, sig, sig', last) {
        i := ResponsesBind(g, o, m, m', keys, sig, sig', last);
        OneMore(sig.s, sig'.s, last);
      }
    }
  }

  lemma OneMore(a: seq<Bytes>, b: seq<Bytes>, i: nat)
    requires i < |a| && i < |b| && a[i] == b[i]
    ensures a[..i] == b[..i] ==> a[..i + 1] == b[..i + 1]
  {
    assert a[..i + 1] == a[..i] + [a[i]] && b[..i + 1] == b[..i] + [b[i]];
  }

  /**
   A signature cannot be altered under its c0 and key image: another one accepted over the ring, for
   this or any message, is the same signature of the same message, or at some slot two different
   queries have one digest, or the two together give away the secret key of a slot.
   */
  lemma Unalterable(g: Group, o: Hashes, m: Bytes, m': Bytes, keys: seq<Bytes>, sig: Signature, sig': Signature)
    returns (i: nat)
    requires Lawful(g) && Accepts(g, o, m, keys, sig) && Accepts(g, o, m', keys, sig')
    requires sig.keyImage == sig'.keyImage && sig.c0 == sig'.c0
    ensures || (m == m' && sig == sig')
            || (i < |keys| && Breaks(g, o, m, m', keys, sig, sig', i))
  {
    i := ResponsesBind(g, o, m, m', keys, sig, sig', |keys|);
    assert sig.s[..|keys|] == sig.s && sig'.s[..|keys|] == sig'.s;
  }

  // ---- One key, one image ------------------------------------------------------------------------

  /** Two accepted signatures that answer different challenges for the same points at slot `j`. */
  ghost predicate Fork(g: Group, o: Hashes, o': Hashes, m: Bytes, m': Bytes, keys: seq<Bytes>,
                       sig: Signature, sig': Signature, j: nat)
  {
    && Accepts(g, o, m, keys, sig) && Accepts(g, o', m', keys, sig')
    && sig.keyImage == sig'.keyImage && j < |keys|
    && HashToPoint(o, keys[j]) == HashToPoint(o', keys[j])
    && CommitmentsAgree(RingOf(g, o, m, keys, sig), j,
                        Scalars(g, sig.s)[j], ChallengeAt(g, o, m, keys, sig, j),
                        Scalars(g, sig'.s)[j], ChallengeAt(g, o', m', keys, sig', j))
    && ChallengeAt(g, o, m, keys, sig, j) != ChallengeAt(g, o', m', keys, sig', j)
  }

  lemma ForkMakesImage(g: Group, o: Hashes, o': Hashes, m: Bytes, m': Bytes, keys: seq<Bytes>,
                       sig: Signature, sig': Signature, j: nat) returns (x: int)
    requires Lawful(g) && Fork(g, o, o', m, m', keys, sig, sig', j)
    ensures g.decompress(keys[j]) == Some(Scale(g, x, g.base))
    ensures g.decompress(sig.keyImage) == Some(Scale(g, x, o.toPoint(o.sha512("CipherX_H_p", [keys[j]]))))
  {
    ForkRevealsKey(g, o, o', m, m', keys, sig, sig', j);
    x := ExtractKey(g, Scalars(g, sig.s)[j], ChallengeAt(g, o, m, keys, sig, j),
                    Scalars(g, sig'.s)[j], ChallengeAt(g, o', m', keys, sig', j));
  }

  /**
   Linkability: whoever can answer for a key, in whatever ring, at whatever slot and for whatever
   message, does so under one key image; so spending an output twice repeats its key image.
   */
  lemma OneKeyOneImage(g: Group, o: Hashes, o': Hashes, m: Bytes, m': Bytes, keys: seq<Bytes>, sig: Signature, sig': Signature, j: nat,
                       o'': Hashes, n: Bytes, n': Bytes, others: seq<Bytes>, tau: Signature, tau': Signature, k: nat)
    requires Lawful(g) && Fork(g, o, o', m, m', keys, sig, sig', j) && Fork(g, o, o'', n, n', others, tau, tau', k)
    requires keys[j] == others[k]
    ensures sig.keyImage == tau.keyImage
  {
    var x := ForkMakesImage(g, o, o', m, m', keys, sig, sig', j);
    var y := ForkMakesImage(g, o, o'', n, n', others, tau, tau', k);
    BaseMultiples(g, x, y);
    ScaleSame(g, x, y, o.toPoint(o.sha512("CipherX_H_p", [keys[j]])));
    DecompressCanonical(g, sig.keyImage);
    DecompressCanonical(g, tau.keyImage);
  }
}
