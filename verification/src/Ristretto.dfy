/**
 The group ristretto255 (RFC 9496, section 4) as the code uses it: an abelian group
 in which every point is killed by an odd prime order, with a base point that is not the identity and
 a canonical 32-byte encoding.
 Points are an abstract type, so nothing below can look at a discrete logarithm.
 */
module Ristretto {
  import opened Common
  import opened Numbers

  type Point(==, !new)

  type Pos = x: int | 0 < x witness 1

  datatype Group = Group(
    order: Pos,
    zero: Point,
    base: Point,
    plus: (Point, Point) -> Point,
    negate: Point -> Point,
    times: (int, Point) -> Point,
    compress: Point -> Bytes32,
    decompress: Bytes -> Option<Point>,
    reduce: int -> int,
    invert: int -> int,
    scalarBytes: int -> Bytes32,
    scalarFrom: Bytes -> Option<int>
  )

  // ---- The laws ----------------------------------------------------------

  /** One instance of one law. A proof names the instance it needs. */
  datatype Law =
    | Order
    | Associates(a: Point, b: Point, c: Point)
    | Commutes(a: Point, b: Point)
    | HasUnit(a: Point)
    | HasInverse(a: Point)
    | HasOrder(a: Point)
    | Scales(k: int, a: Point)
    | Reduces(k: int)
    | Inverts(k: int)
    | EncodesPoint(a: Point)
    | ReadsPoint(bytes: Bytes)
    | EncodesScalar(k: int)
    | ReadsScalar(bytes: Bytes)

  ghost predicate Holds(g: Group, law: Law) {
    match law
    case Order => Prime(g.order) && 2 < g.order && g.base != g.zero
    case Associates(a, b, c) => g.plus(g.plus(a, b), c) == g.plus(a, g.plus(b, c))
    case Commutes(a, b) => g.plus(a, b) == g.plus(b, a)
    case HasUnit(a) => g.plus(g.zero, a) == a
    case HasInverse(a) => g.plus(a, g.negate(a)) == g.zero
    case HasOrder(a) => Repeat(g, g.order, a) == g.zero
    // scalar multiplication is repeated addition, the scalar taken modulo the order
    case Scales(k, a) => g.reduce(k) >= 0 ==> g.times(k, a) == Repeat(g, g.reduce(k), a)
    case Reduces(k) => g.reduce(k) == k % g.order
    case Inverts(k) => g.invert(k) == Inverse(k, g.order)
    // points and scalars have one 32-byte form each, and no other bytes are read
    case EncodesPoint(a) => g.decompress(g.compress(a)) == Some(a)
    case ReadsPoint(b) => g.decompress(b).Some? ==> g.compress(g.decompress(b).value) == b
    case EncodesScalar(k) => g.scalarFrom(g.scalarBytes(k)) == Some(g.reduce(k))
    case ReadsScalar(b) =>
      g.scalarFrom(b).Some? ==> IsScalar(g, g.scalarFrom(b).value) && g.scalarBytes(g.scalarFrom(b).value) == b
  }

  ghost predicate Lawful(g: Group) {
    forall law :: Holds(g, law)
  }

  // ---- Scalars: integers modulo the order -------------------------------

  function Reduce(g: Group, k: int): int {
    g.reduce(k)
  }

  /** `k` is in reduced form. */
  ghost predicate IsScalar(g: Group, k: int) {
    g.reduce(k) == k
  }

  /** `a` and `b` are the same scalar. */
  ghost predicate Same(g: Group, a: int, b: int) {
    g.reduce(a) == g.reduce(b)
  }

  lemma SameIsCong(g: Group, a: int, b: int)
    requires Lawful(g)
    ensures Same(g, a, b) <==> Cong(a, b, g.order)
    ensures 0 <= Reduce(g, a) < g.order && Reduce(g, a) == a % g.order
  {
    assert Holds(g, Reduces(a)) && Holds(g, Reduces(b));
  }

  lemma ReduceIsScalar(g: Group, k: int)
    requires Lawful(g)
    ensures IsScalar(g, Reduce(g, k)) && Same(g, Reduce(g, k), k)
  {
    CongMod(k, g.order);
    SameIsCong(g, k, k);
    SameIsCong(g, Reduce(g, k), k);
  }

  lemma SmallIsScalar(g: Group, k: int)
    requires Lawful(g)
    ensures IsScalar(g, k) <==> 0 <= k < g.order
  {
    SameIsCong(g, k, k);
    if 0 <= k < g.order { SmallMod(k, g.order); }
  }

  lemma SameSmall(g: Group, a: int, b: int)
    requires Lawful(g) && 0 <= a < g.order && 0 <= b < g.order
    ensures Same(g, a, b) <==> a == b
  {
    SmallIsScalar(g, a);
    SmallIsScalar(g, b);
  }

  lemma SameAdd(g: Group, a: int, b: int, c: int, d: int)
    requires Lawful(g) && Same(g, a, b) && Same(g, c, d)
    ensures Same(g, a + c, b + d) && Same(g, a - c, b - d)
  {
    SameIsCong(g, a, b);
    SameIsCong(g, c, d);
    CongAdd(a, b, c, d, g.order);
    SameIsCong(g, a + c, b + d);
    SameIsCong(g, a - c, b - d);
  }

  lemma SameMul(g: Group, a: int, b: int, c: int, d: int)
    requires Lawful(g) && Same(g, a, b) && Same(g, c, d)
    ensures Same(g, a * c, b * d)
  {
    SameIsCong(g, a, b);
    SameIsCong(g, c, d);
    CongMul(a, b, c, d, g.order);
    SameIsCong(g, a * c, b * d);
  }

  lemma SameDifference(g: Group, a: int, b: int)
    requires Lawful(g)
    ensures Same(g, a - b, 0) <==> Same(g, a, b)
  {
    CongDifference(a, b, g.order);
    SameIsCong(g, a - b, 0);
    SameIsCong(g, a, b);
  }

  lemma InvertIsInverse(g: Group, k: int)
    requires Lawful(g) && !Same(g, k, 0)
    ensures Same(g, k * g.invert(k), 1) && Same(g, g.invert(k) * k, 1)
  {
    SameIsCong(g, k, 0);
    assert Holds(g, Order) && Holds(g, Inverts(k));
    InverseIsInverse(k, g.order);
    SameIsCong(g, k * g.invert(k), 1);
    assert k * g.invert(k) == g.invert(k) * k;
  }

  /** The canonical 32-byte form of a scalar. */
  function ScalarBytes(g: Group, k: int): Bytes32 {
    g.scalarBytes(k)
  }

  /** Bytes that are not the canonical form of a scalar are refused. */
  function ScalarFromBytes(g: Group, b: Bytes): Option<int> {
    g.scalarFrom(b)
  }

  lemma ScalarRoundTrip(g: Group, k: int)
    requires Lawful(g)
    ensures ScalarFromBytes(g, ScalarBytes(g, k)) == Some(Reduce(g, k))
  {
    assert Holds(g, EncodesScalar(k));
  }

  lemma ScalarCanonical(g: Group, b: Bytes)
    requires Lawful(g) && ScalarFromBytes(g, b).Some?
    ensures IsScalar(g, ScalarFromBytes(g, b).value) && ScalarBytes(g, ScalarFromBytes(g, b).value) == b
  {
    assert Holds(g, ReadsScalar(b));
  }

  lemma ScalarBytesSame(g: Group, a: int, b: int)
    requires Lawful(g) && Same(g, a, b)
    ensures ScalarBytes(g, a) == ScalarBytes(g, b)
  {
    ScalarRoundTrip(g, a);
    ScalarRoundTrip(g, b);
    ScalarCanonical(g, ScalarBytes(g, a));
    ScalarCanonical(g, ScalarBytes(g, b));
  }

  lemma CompressRoundTrip(g: Group, p: Point)
    requires Lawful(g)
    ensures g.decompress(g.compress(p)) == Some(p)
  {
    assert Holds(g, EncodesPoint(p));
  }

  lemma CompressInjective(g: Group, p: Point, r: Point)
    requires Lawful(g)
    ensures g.compress(p) == g.compress(r) <==> p == r
  {
    CompressRoundTrip(g, p);
    CompressRoundTrip(g, r);
  }

  lemma DecompressCanonical(g: Group, b: Bytes)
    requires Lawful(g) && g.decompress(b).Some?
    ensures g.compress(g.decompress(b).value) == b
  {
    assert Holds(g, ReadsPoint(b));
  }

  // ---- Hash functions, as oracles ----------------------------------------

  /**
   A hash absorbs a domain tag and then a list of byte strings. Any function of that list is allowed,
   in particular one that concatenates it first. The 64-byte digests, like the 64 random bytes the
   code draws, are given as the little-endian integers they stand for.
   */
  datatype Hashes = Hashes(
    sha512: (string, seq<Bytes>) -> nat,
    sha256: (string, seq<Bytes>) -> Bytes32,
    toPoint: nat -> Point
  )

  /** The bytes that go into a hash: the strings one after another. */
  function Absorbed(parts: seq<Bytes>): Bytes {
    if parts == [] then [] else Absorbed(parts[..|parts| - 1]) + parts[|parts| - 1]
  }

  /** Different bytes under one tag whose digests are one scalar. */
  ghost predicate Collision(g: Group, o: Hashes, tag: string, a: seq<Bytes>, b: seq<Bytes>) {
    Absorbed(a) != Absorbed(b) && Reduce(g, o.sha512(tag, a)) == Reduce(g, o.sha512(tag, b))
  }

  /** Lists of one shape, all but the first of 32-byte strings, are told apart by the bytes they come to. */
  lemma {:induction false} AbsorbedBinds(a: seq<Bytes>, b: seq<Bytes>)
    requires |a| == |b| > 0 && forall i :: 0 < i < |a| ==> |a[i]| == |b[i]| == 32
    requires Absorbed(a) == Absorbed(b)
    ensures a == b
  {
    var n := |a| - 1;
    var x, y := Absorbed(a[..n]), Absorbed(b[..n]);
    if n > 0 {
      assert |x| == |y|;
      assert Absorbed(a)[..|x|] == x && Absorbed(b)[..|y|] == y;
      assert Absorbed(a)[|x|..] == a[n] && Absorbed(b)[|y|..] == b[n];
      AbsorbedBinds(a[..n], b[..n]);
      assert a == a[..n] + [a[n]] && b == b[..n] + [b[n]];
    } else {
      assert a[..0] == [] && b[..0] == [];
      assert Absorbed(a) == a[0] && Absorbed(b) == b[0];
    }
  }

  // ---- Scalar multiplication --------------------------------------------

  ghost function Repeat(g: Group, n: nat, p: Point): Point {
    if n == 0 then g.zero else g.plus(p, Repeat(g, n - 1, p))
  }

  function Scale(g: Group, k: int, p: Point): Point {
    g.times(k, p)
  }

  function Minus(g: Group, a: Point, b: Point): Point {
    g.plus(a, g.negate(b))
  }

  lemma UnitRight(g: Group, a: Point)
    requires Lawful(g)
    ensures g.plus(a, g.zero) == a && g.plus(g.zero, a) == a
  {
    assert Holds(g, HasUnit(a)) && Holds(g, Commutes(a, g.zero));
  }

  /** (a + b) + (c + d) = (a + c) + (b + d) */
  lemma Interchange(g: Group, a: Point, b: Point, c: Point, d: Point)
    requires Lawful(g)
    ensures g.plus(g.plus(a, b), g.plus(c, d)) == g.plus(g.plus(a, c), g.plus(b, d))
  {
    assert Holds(g, Associates(a, b, g.plus(c, d))) && Holds(g, Associates(b, c, d)) && Holds(g, Commutes(b, c));
    assert Holds(g, Associates(c, b, d)) && Holds(g, Associates(a, c, g.plus(b, d)));
  }

  lemma CancelRight(g: Group, a: Point, b: Point, c: Point)
    requires Lawful(g) && g.plus(a, c) == g.plus(b, c)
    ensures a == b
  {
    assert Holds(g, Associates(a, c, g.negate(c))) && Holds(g, Associates(b, c, g.negate(c))) && Holds(g, HasInverse(c));
    UnitRight(g, a);
    UnitRight(g, b);
  }

  lemma {:induction false} RepeatAdd(g: Group, m: nat, n: nat, p: Point)
    requires Lawful(g)
    ensures Repeat(g, m + n, p) == g.plus(Repeat(g, m, p), Repeat(g, n, p))
  {
    if m == 0 {
      assert Holds(g, HasUnit(Repeat(g, n, p)));
    } else {
      RepeatAdd(g, m - 1, n, p);
      assert Holds(g, Associates(p, Repeat(g, m - 1, p), Repeat(g, n, p)));
    }
  }

  lemma {:induction false} RepeatMul(g: Group, m: nat, n: nat, p: Point)
    requires Lawful(g)
    ensures m * n >= 0 && Repeat(g, m * n, p) == Repeat(g, m, Repeat(g, n, p))
  {
    if m > 0 {
      RepeatMul(g, m - 1, n, p);
      assert m * n == n + (m - 1) * n;
      RepeatAdd(g, n, (m - 1) * n, p);
    }
  }

  lemma {:induction false} RepeatZero(g: Group, n: nat)
    requires Lawful(g)
    ensures Repeat(g, n, g.zero) == g.zero
  {
    if n > 0 {
      RepeatZero(g, n - 1);
      UnitRight(g, g.zero);
    }
  }

  lemma {:induction false} RepeatPlus(g: Group, n: nat, p: Point, r: Point)
    requires Lawful(g)
    ensures Repeat(g, n, g.plus(p, r)) == g.plus(Repeat(g, n, p), Repeat(g, n, r))
  {
    if n == 0 {
      UnitRight(g, g.zero);
    } else {
      RepeatPlus(g, n - 1, p, r);
      Interchange(g, p, r, Repeat(g, n - 1, p), Repeat(g, n - 1, r));
    }
  }

  /** A repeat count may be reduced modulo the order. */
  lemma RepeatMod(g: Group, n: nat, p: Point)
    requires Lawful(g)
    ensures Repeat(g, n, p) == Repeat(g, n % g.order, p)
  {
    var d, m := n / g.order, n % g.order;
    assert n == d * g.order + m && d * g.order >= 0;
    RepeatAdd(g, d * g.order, m, p);
    RepeatMul(g, d, g.order, p);
    assert Holds(g, HasOrder(p));
    RepeatZero(g, d);
    UnitRight(g, Repeat(g, m, p));
  }

  lemma ScaleIsRepeat(g: Group, k: int, p: Point)
    requires Lawful(g)
    ensures Reduce(g, k) >= 0 && Scale(g, k, p) == Repeat(g, Reduce(g, k), p)
  {
    SameIsCong(g, k, k);
    assert Holds(g, Scales(k, p));
  }

  lemma ScaleSame(g: Group, a: int, b: int, p: Point)
    requires Lawful(g) && Same(g, a, b)
    ensures Scale(g, a, p) == Scale(g, b, p)
  {
    ScaleIsRepeat(g, a, p);
    ScaleIsRepeat(g, b, p);
  }

  lemma ScaleReduce(g: Group, a: int, p: Point)
    requires Lawful(g)
    ensures Scale(g, Reduce(g, a), p) == Scale(g, a, p)
  {
    ReduceIsScalar(g, a);
    ScaleSame(g, Reduce(g, a), a, p);
  }

  /** Any count that is the same scalar gives the same multiple. */
  lemma RepeatIsScale(g: Group, n: nat, k: int, p: Point)
    requires Lawful(g) && Same(g, n, k)
    ensures Repeat(g, n, p) == Scale(g, k, p)
  {
    RepeatMod(g, n, p);
    SameIsCong(g, n, k);
    ScaleIsRepeat(g, k, p);
  }

  lemma ScaleAdd(g: Group, a: int, b: int, p: Point)
    requires Lawful(g)
    ensures Scale(g, a + b, p) == g.plus(Scale(g, a, p), Scale(g, b, p))
  {
    ScaleIsRepeat(g, a, p);
    ScaleIsRepeat(g, b, p);
    var m, n := Reduce(g, a), Reduce(g, b);
    RepeatAdd(g, m, n, p);
    ReduceIsScalar(g, a);
    ReduceIsScalar(g, b);
    SameAdd(g, m, a, n, b);
    RepeatIsScale(g, m + n, a + b, p);
  }

  lemma ScaleMul(g: Group, a: int, b: int, p: Point)
    requires Lawful(g)
    ensures Scale(g, a * b, p) == Scale(g, a, Scale(g, b, p))
  {
    ScaleIsRepeat(g, b, p);
    ScaleIsRepeat(g, a, Scale(g, b, p));
    var m, n := Reduce(g, a), Reduce(g, b);
    RepeatMul(g, m, n, p);
    ReduceIsScalar(g, a);
    ReduceIsScalar(g, b);
    SameMul(g, m, a, n, b);
    RepeatIsScale(g, m * n, a * b, p);
  }

  lemma ScaleOne(g: Group, p: Point)
    requires Lawful(g)
    ensures Scale(g, 1, p) == p && Scale(g, 0, p) == g.zero
  {
    assert Holds(g, Order);
    SmallIsScalar(g, 1);
    SmallIsScalar(g, 0);
    ScaleIsRepeat(g, 1, p);
    ScaleIsRepeat(g, 0, p);
    UnitRight(g, p);
    assert Repeat(g, 1, p) == g.plus(p, Repeat(g, 0, p));
  }

  lemma ScalePlus(g: Group, k: int, p: Point, r: Point)
    requires Lawful(g)
    ensures Scale(g, k, g.plus(p, r)) == g.plus(Scale(g, k, p), Scale(g, k, r))
  {
    ScaleIsRepeat(g, k, p);
    RepeatPlus(g, Reduce(g, k), p, r);
    ScaleIsRepeat(g, k, r);
    ScaleIsRepeat(g, k, g.plus(p, r));
  }

  lemma ScaleOfZero(g: Group, k: int)
    requires Lawful(g)
    ensures Scale(g, k, g.zero) == g.zero
  {
    ScaleIsRepeat(g, k, g.zero);
    RepeatZero(g, Reduce(g, k));
  }

  lemma NegateIsScale(g: Group, p: Point)
    requires Lawful(g)
    ensures g.negate(p) == Scale(g, -1, p)
  {
    ScaleAdd(g, -1, 1, p);
    ScaleOne(g, p);
    assert Holds(g, HasInverse(p)) && Holds(g, Commutes(p, g.negate(p)));
    CancelRight(g, g.negate(p), Scale(g, -1, p), p);
  }

  lemma ScaleSub(g: Group, a: int, b: int, p: Point)
    requires Lawful(g)
    ensures Scale(g, a - b, p) == Minus(g, Scale(g, a, p), Scale(g, b, p))
  {
    ScaleAdd(g, a, (-1) * b, p);
    ScaleMul(g, -1, b, p);
    NegateIsScale(g, Scale(g, b, p));
  }

  lemma MinusPlus(g: Group, a: Point, b: Point)
    requires Lawful(g)
    ensures g.plus(Minus(g, a, b), b) == a && Minus(g, g.plus(a, b), b) == a
    ensures Minus(g, a, a) == g.zero
  {
    assert Holds(g, Associates(a, g.negate(b), b)) && Holds(g, Commutes(b, g.negate(b))) && Holds(g, HasInverse(b));
    assert Holds(g, Associates(a, b, g.negate(b))) && Holds(g, HasInverse(a));
    UnitRight(g, a);
  }

  /** Two points are equal exactly when their difference is the identity. */
  lemma MinusZero(g: Group, a: Point, b: Point)
    requires Lawful(g)
    ensures Minus(g, a, b) == g.zero <==> a == b
  {
    MinusPlus(g, a, b);
    UnitRight(g, b);
  }

  /** A scalar other than zero can be divided away. */
  lemma ScaleDivide(g: Group, k: int, p: Point, r: Point)
    requires Lawful(g) && !Same(g, k, 0) && Scale(g, k, p) == r
    ensures p == Scale(g, g.invert(k), r)
  {
    InvertIsInverse(g, k);
    ScaleMul(g, g.invert(k), k, p);
    ScaleSame(g, g.invert(k) * k, 1, p);
    ScaleOne(g, p);
  }

  /** Only multiples of the order kill a point other than the identity. */
  lemma ScaleToZero(g: Group, k: int, p: Point)
    requires Lawful(g) && p != g.zero
    ensures Scale(g, k, p) == g.zero <==> Same(g, k, 0)
  {
    ScaleOne(g, p);
    if Same(g, k, 0) {
      ScaleSame(g, k, 0, p);
    } else {
      ScaleOfZero(g, g.invert(k));
      if Scale(g, k, p) == g.zero {
        ScaleDivide(g, k, p, g.zero);
      }
    }
  }

  lemma ZeroScaleIff(g: Group, k: int, p: Point)
    requires Lawful(g)
    ensures Scale(g, k, p) == g.zero <==> Same(g, k, 0) || p == g.zero
  {
    if p != g.zero {
      ScaleToZero(g, k, p);
    } else {
      ScaleOfZero(g, k);
    }
  }

  /** Multiples of the base point are told apart by their scalars. */
  lemma BaseMultiples(g: Group, a: int, b: int)
    requires Lawful(g)
    ensures Scale(g, a, g.base) == Scale(g, b, g.base) <==> Same(g, a, b)
  {
    assert Holds(g, Order);
    ScaleSub(g, a, b, g.base);
    MinusZero(g, Scale(g, a, g.base), Scale(g, b, g.base));
    ScaleToZero(g, a - b, g.base);
    SameDifference(g, a, b);
  }

  // ---- Combinations a*P + b*R of two fixed points ------------------------

  function Combine(g: Group, a: int, p: Point, b: int, r: Point): Point {
    g.plus(Scale(g, a, p), Scale(g, b, r))
  }

  lemma CombineAdd(g: Group, a: int, b: int, c: int, d: int, p: Point, r: Point)
    requires Lawful(g)
    ensures g.plus(Combine(g, a, p, b, r), Combine(g, c, p, d, r)) == Combine(g, a + c, p, b + d, r)
  {
    Interchange(g, Scale(g, a, p), Scale(g, b, r), Scale(g, c, p), Scale(g, d, r));
    ScaleAdd(g, a, c, p);
    ScaleAdd(g, b, d, r);
  }

  lemma CombineScale(g: Group, k: int, a: int, b: int, p: Point, r: Point)
    requires Lawful(g)
    ensures Scale(g, k, Combine(g, a, p, b, r)) == Combine(g, k * a, p, k * b, r)
  {
    ScalePlus(g, k, Scale(g, a, p), Scale(g, b, r));
    ScaleMul(g, k, a, p);
    ScaleMul(g, k, b, r);
  }

  lemma CombineMinus(g: Group, a: int, b: int, c: int, d: int, p: Point, r: Point)
    requires Lawful(g)
    ensures Minus(g, Combine(g, a, p, b, r), Combine(g, c, p, d, r)) == Combine(g, a - c, p, b - d, r)
  {
    CombineAdd(g, a - c, b - d, c, d, p, r);
    MinusPlus(g, Combine(g, a - c, p, b - d, r), Combine(g, c, p, d, r));
  }

  // ---- Special soundness -------------------------------------------------------

  /** The discrete logarithm that two responses to one commitment give away. */
  function ExtractKey(g: Group, s: int, c: int, t: int, d: int): (x: int) {
    Reduce(g, (s - t) * g.invert(d - c))
  }

  /** If s*B + c*P = t*B + d*P and c, d are different scalars, then P is a known multiple of B. */
  lemma ExtractOn(g: Group, b: Point, p: Point, s: int, c: int, t: int, d: int)
    requires Lawful(g) && !Same(g, c, d)
    requires Combine(g, s, b, c, p) == Combine(g, t, b, d, p)
    ensures p == Scale(g, ExtractKey(g, s, c, t, d), b)
  {
    CombineMinus(g, s, c, t, d, b, p);
    MinusZero(g, Combine(g, s, b, c, p), Combine(g, t, b, d, p));
    // (s - t)*B + (c - d)*P = 0, hence (d - c)*P = (s - t)*B
    var sb := Scale(g, s - t, b);
    ScaleAdd(g, d - c, c - d, p);
    ScaleOne(g, p);
    assert g.plus(Scale(g, d - c, p), Scale(g, c - d, p)) == g.plus(sb, Scale(g, c - d, p));
    CancelRight(g, Scale(g, d - c, p), sb, Scale(g, c - d, p));
    SameDifference(g, d, c);
    ScaleDivide(g, d - c, p, sb);
    var i := g.invert(d - c);
    ScaleMul(g, i, s - t, b);
    assert i * (s - t) == (s - t) * i;
    ScaleReduce(g, (s - t) * i, b);
  }
}
