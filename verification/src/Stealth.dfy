/** One-time addresses and encrypted amounts: `src/crypto/stealth.rs`, `src/crypto/ringct.rs`. */
module Stealth {
  import opened Common
  import opened Numbers
  import opened Ristretto
  import RingSignature

  // ---- Encrypted amounts ---------------------------------------------------------

  /** ChaCha20-Poly1305 as a pair of functions of key, nonce and text. */
  datatype Aead = Aead(seal: (Bytes, Bytes, Bytes) -> Bytes, open: (Bytes, Bytes, Bytes) -> Option<Bytes>)

  ghost predicate Opens(a: Aead, key: Bytes, nonce: Bytes, text: Bytes) {
    a.open(key, nonce, a.seal(key, nonce, text)) == Some(text) && |a.seal(key, nonce, text)| == |text| + 16
  }

  /** What was sealed opens again, and the tag takes 16 bytes (RFC 8439, section 2.8). */
  ghost predicate Authenticates(a: Aead) {
    forall key, nonce, text :: Opens(a, key, nonce, text)
  }

  /** ... and nothing else opens: a text that opens is the sealed one. */
  ghost predicate OnlySealedOpens(a: Aead) {
    forall key, nonce, sealed :: OpensOnlySealed(a, key, nonce, sealed)
  }

  ghost predicate OpensOnlySealed(a: Aead, key: Bytes, nonce: Bytes, sealed: Bytes) {
    var text := a.open(key, nonce, sealed);
    text.Some? ==> sealed == a.seal(key, nonce, text.value)
  }

  const AMOUNT_CT_LEN: nat := 24

  /** Key and nonce are the first 32 and the next 12 bytes of one digest. */
  function AmountKeyNonce(g: Group, o: Hashes, secret: int): (r: (Bytes, Bytes))
    ensures |r.0| == 32 && |r.1| == 12
  {
    var out := ToLe(o.sha512("CipherX_amount_enc_v2", [ScalarBytes(g, secret)]), 64);
    (out[..32], out[32..44])
  }

  function EncryptAmount(g: Group, o: Hashes, a: Aead, amount: u64, secret: int): Bytes {
    var (key, nonce) := AmountKeyNonce(g, o, secret);
    a.seal(key, nonce, ToLe(amount, 8))
  }

  function DecryptAmount(g: Group, o: Hashes, a: Aead, encrypted: Bytes, secret: int): Option<nat> {
    if |encrypted| != AMOUNT_CT_LEN then None
    else
      var (key, nonce) := AmountKeyNonce(g, o, secret);
      match a.open(key, nonce, encrypted)
      case None => None
      case Some(text) => if |text| != 8 then None else Some(FromLe(text))
  }

  lemma AmountRoundTrip(g: Group, o: Hashes, a: Aead, amount: u64, secret: int)
    requires Authenticates(a)
    ensures DecryptAmount(g, o, a, EncryptAmount(g, o, a, amount, secret), secret) == Some(amount)
  {
    var (key, nonce) := AmountKeyNonce(g, o, secret);
    assert Opens(a, key, nonce, ToLe(amount, 8));
    PowersOfTwo();
    LeRoundTrip(amount, 8);
  }

  /** An amount is read exactly from its own encryption: any other bytes, of whatever length, are refused. */
  lemma AmountReadIff(g: Group, o: Hashes, a: Aead, encrypted: Bytes, amount: u64, secret: int)
    requires Authenticates(a) && OnlySealedOpens(a)
    ensures DecryptAmount(g, o, a, encrypted, secret) == Some(amount)
            <==> encrypted == EncryptAmount(g, o, a, amount, secret)
    ensures DecryptAmount(g, o, a, encrypted, secret).Some? ==> DecryptAmount(g, o, a, encrypted, secret).value < U64
  {
    AmountRoundTrip(g, o, a, amount, secret);
    var (key, nonce) := AmountKeyNonce(g, o, secret);
    assert OpensOnlySealed(a, key, nonce, encrypted);
    var text := a.open(key, nonce, encrypted);
    if text.Some? && |text.value| == 8 {
      LeOfBytes(text.value);
      PowersOfTwo();
    }
  }

  // ---- Outputs ----------------------------------------------------------------------

  function HashSharedSecret(g: Group, o: Hashes, p: Point): int {
    Reduce(g, o.sha512("CipherX_stealth_hs", [g.compress(p)]))
  }

  function HashOutputIndex(g: Group, o: Hashes, secret: int, index: u32): int {
    Reduce(g, o.sha512("CipherX_stealth_hn", [ScalarBytes(g, secret), ToLe(index, 4)]))
  }

  datatype Address = Address(publicSpend: Bytes, publicView: Bytes)

  datatype OutputKeys = OutputKeys(txPubkey: Bytes, oneTimePubkey: Bytes, sharedSecret: int)

  datatype StealthError = InvalidSpendKey | InvalidViewKey

  /** The sender's side, with the transaction key r drawn as `wide`. */
  function GenerateOutput(g: Group, o: Hashes, recipient: Address, index: u32, wide: nat): Result<OutputKeys, StealthError> {
    match g.decompress(recipient.publicSpend)
    case None => Err(InvalidSpendKey)
    case Some(bSpend) =>
      match g.decompress(recipient.publicView)
      case None => Err(InvalidViewKey)
      case Some(bView) =>
        var r := Reduce(g, wide);
        var s := HashSharedSecret(g, o, Scale(g, r, bView));
        var si := HashOutputIndex(g, o, s, index);
        Ok(OutputKeys(g.compress(Scale(g, r, g.base)), g.compress(g.plus(Scale(g, si, g.base), bSpend)), si))
  }

  /** The recipient's side: the output's secret, if the output is addressed to this key pair. */
  function ScanOutput(g: Group, o: Hashes, txPubkey: Bytes, outputPubkey: Bytes, index: u32, viewKey: Bytes,
                      spendPubkey: Bytes): Option<Bytes>
  {
    if g.decompress(txPubkey).None? || g.decompress(spendPubkey).None? || ScalarFromBytes(g, viewKey).None? then None
    else
      var rPoint, bSpend := g.decompress(txPubkey).value, g.decompress(spendPubkey).value;
      var s := HashSharedSecret(g, o, Scale(g, ScalarFromBytes(g, viewKey).value, rPoint));
      var si := HashOutputIndex(g, o, s, index);
      if g.compress(g.plus(Scale(g, si, g.base), bSpend)) == outputPubkey then Some(ScalarBytes(g, si)) else None
  }

  function DeriveSpendKey(g: Group, secret: Bytes, privateSpend: Bytes): Option<Bytes> {
    match (ScalarFromBytes(g, secret), ScalarFromBytes(g, privateSpend))
    case (Some(si), Some(b)) => Some(ScalarBytes(g, si + b))
    case _ => None
  }

  /** A key pair: private scalars b (spend) and a (view) with their public points. */
  function AddressOf(g: Group, b: int, a: int): Address {
    Address(g.compress(Scale(g, b, g.base)), g.compress(Scale(g, a, g.base)))
  }

  lemma SharedPointAgrees(g: Group, r: int, a: int)
    requires Lawful(g)
    ensures Scale(g, r, Scale(g, a, g.base)) == Scale(g, a, Scale(g, r, g.base))
  {
    ScaleMul(g, r, a, g.base);
    ScaleMul(g, a, r, g.base);
    assert r * a == a * r;
  }

  /** The secret that sender and recipient both compute. */
  function OutputSecret(g: Group, o: Hashes, r: int, a: int, index: u32): int {
    HashOutputIndex(g, o, HashSharedSecret(g, o, Scale(g, r, Scale(g, a, g.base))), index)
  }

  lemma GeneratedForm(g: Group, o: Hashes, b: int, a: int, index: u32, wide: nat)
    requires Lawful(g)
    ensures var r := Reduce(g, wide);
            var si := OutputSecret(g, o, r, a, index);
            GenerateOutput(g, o, AddressOf(g, b, a), index, wide)
            == Ok(OutputKeys(g.compress(Scale(g, r, g.base)), g.compress(Combine(g, si, g.base, b, g.base)), si))
  {
    CompressRoundTrip(g, Scale(g, b, g.base));
    CompressRoundTrip(g, Scale(g, a, g.base));
  }

  /** Scanning a generated output with the right view key returns the sender's shared secret. */
  lemma ScanFindsOutput(g: Group, o: Hashes, b: int, a: int, index: u32, wide: nat)
    requires Lawful(g)
    ensures GenerateOutput(g, o, AddressOf(g, b, a), index, wide).Ok?
    ensures var out := GenerateOutput(g, o, AddressOf(g, b, a), index, wide).value;
            ScanOutput(g, o, out.txPubkey, out.oneTimePubkey, index, ScalarBytes(g, a), AddressOf(g, b, a).publicSpend)
            == Some(ScalarBytes(g, out.sharedSecret))
  {
    var r := Reduce(g, wide);
    GeneratedForm(g, o, b, a, index, wide);
    CompressRoundTrip(g, Scale(g, r, g.base));
    CompressRoundTrip(g, Scale(g, b, g.base));
    ScalarRoundTrip(g, a);
    ScaleReduce(g, a, Scale(g, r, g.base));
    SharedPointAgrees(g, r, a);
  }

  /**
   Every output that scans can be spent: whatever tx key and output key somebody published, if the
   scan succeeds then adding the private spend key gives the discrete logarithm of the output key.
   */
  lemma ScannedIsSpendable(g: Group, o: Hashes, txPubkey: Bytes, outputPubkey: Bytes, index: u32, viewKey: Bytes, b: int)
    requires Lawful(g)
    requires ScanOutput(g, o, txPubkey, outputPubkey, index, viewKey, g.compress(Scale(g, b, g.base))).Some?
    ensures var secret := ScanOutput(g, o, txPubkey, outputPubkey, index, viewKey, g.compress(Scale(g, b, g.base))).value;
            var key := DeriveSpendKey(g, secret, ScalarBytes(g, b));
            && key.Some? && ScalarFromBytes(g, key.value).Some?
            && g.decompress(outputPubkey) == Some(Scale(g, ScalarFromBytes(g, key.value).value, g.base))
  {
    CompressRoundTrip(g, Scale(g, b, g.base));
    var rPoint := g.decompress(txPubkey).value;
    var s := HashSharedSecret(g, o, Scale(g, ScalarFromBytes(g, viewKey).value, rPoint));
    var si := HashOutputIndex(g, o, s, index);
    DerivedKeyOpens(g, si, b);
    CompressRoundTrip(g, Combine(g, si, g.base, b, g.base));
  }

  lemma DerivedKeyOpens(g: Group, si: int, b: int)
    requires Lawful(g)
    ensures var key := DeriveSpendKey(g, ScalarBytes(g, si), ScalarBytes(g, b));
            && key.Some? && ScalarFromBytes(g, key.value).Some?
            && Scale(g, ScalarFromBytes(g, key.value).value, g.base) == Combine(g, si, g.base, b, g.base)
  {
    ScalarRoundTrip(g, si);
    ScalarRoundTrip(g, b);
    ScalarRoundTrip(g, Reduce(g, si) + Reduce(g, b));
    ScaleReduce(g, Reduce(g, si) + Reduce(g, b), g.base);
    ScaleAdd(g, Reduce(g, si), Reduce(g, b), g.base);
    ScaleReduce(g, si, g.base);
    ScaleReduce(g, b, g.base);
  }

  /** What the recipient of a generated output ends up with. */
  ghost predicate Received(g: Group, o: Hashes, aead: Aead, b: int, a: int, index: u32, out: OutputKeys, amount: u64, x: int) {
    var secret := ScanOutput(g, o, out.txPubkey, out.oneTimePubkey, index, ScalarBytes(g, a), AddressOf(g, b, a).publicSpend);
    && secret == Some(ScalarBytes(g, out.sharedSecret))
    && DeriveSpendKey(g, secret.value, ScalarBytes(g, b)) == Some(ScalarBytes(g, x))
    && ScalarFromBytes(g, ScalarBytes(g, x)) == Some(x)
    && g.decompress(out.oneTimePubkey) == Some(Scale(g, x, g.base))
    && ScalarFromBytes(g, secret.value).Some?
    && DecryptAmount(g, o, aead, EncryptAmount(g, o, aead, amount, out.sharedSecret), ScalarFromBytes(g, secret.value).value)
       == Some(amount)
  }

  lemma SecretIsScalar(g: Group, o: Hashes, b: int, a: int, index: u32, wide: nat)
    requires Lawful(g) && GenerateOutput(g, o, AddressOf(g, b, a), index, wide).Ok?
    ensures IsScalar(g, GenerateOutput(g, o, AddressOf(g, b, a), index, wide).value.sharedSecret)
  {
    GeneratedForm(g, o, b, a, index, wide);
    var s := HashSharedSecret(g, o, Scale(g, Reduce(g, wide), Scale(g, a, g.base)));
    ReduceIsScalar(g, o.sha512("CipherX_stealth_hn", [ScalarBytes(g, s), ToLe(index, 4)]));
  }

  /**
   Receive, then spend: for every key pair, transaction key, index and amount, the recipient finds
   the output, reads its amount, and derives the key x of the one-time public key.
   */
  lemma RecipientReceives(g: Group, o: Hashes, aead: Aead, b: int, a: int, index: u32, wide: nat, amount: u64)
    returns (x: int)
    requires Lawful(g) && Authenticates(aead)
    ensures GenerateOutput(g, o, AddressOf(g, b, a), index, wide).Ok?
    ensures Received(g, o, aead, b, a, index, GenerateOutput(g, o, AddressOf(g, b, a), index, wide).value, amount, x)
  {
    ScanFindsOutput(g, o, b, a, index, wide);
    var out := GenerateOutput(g, o, AddressOf(g, b, a), index, wide).value;
    SecretIsScalar(g, o, b, a, index, wide);
    ScalarRoundTrip(g, out.sharedSecret);
    AmountRoundTrip(g, o, aead, amount, out.sharedSecret);
    ScannedIsSpendable(g, o, out.txPubkey, out.oneTimePubkey, index, ScalarBytes(g, a), b);
    var key := DeriveSpendKey(g, ScalarBytes(g, out.sharedSecret), ScalarBytes(g, b)).value;
    x := ScalarFromBytes(g, key).value;
    ScalarCanonical(g, key);
  }

  /**
   ... and a ring signature made with x at the slot of the one-time key verifies, for every ring,
   message and randomness, exactly when x is not zero and the slot's H_p is not the identity.
   */
  lemma ReceivedCanBeSpent(g: Group, o: Hashes, aead: Aead, b: int, a: int, index: u32, out: OutputKeys, amount: u64, x: int,
                           m: Bytes, keys: seq<Bytes>, p: nat, alpha: int, nonces: seq<int>, c: seq<int>,
                           sig: RingSignature.Signature)
    requires Lawful(g) && Received(g, o, aead, b, a, index, out, amount, x)
    requires |keys| >= 2 && RingSignature.RingDecodes(g, keys) && p < |keys| && keys[p] == out.oneTimePubkey
    requires RingSignature.AllReduced(g, nonces)
    requires RingSignature.SignedBy(RingSignature.SigningRing(g, o, m, keys, p, x), p, x, alpha, nonces, c, sig)
    ensures RingSignature.Accepts(g, o, m, keys, sig)
            <==> !Same(g, x, 0) && RingSignature.HashToPoint(o, out.oneTimePubkey) != g.zero
  {
    RingSignature.SignedVerifies(g, o, m, keys, p, x, alpha, nonces, c, sig);
  }
}
