/** Arithmetic modulo the group order: congruence, inverses and primality. */
module Numbers {
  import opened Common

  /** `a` and `b` leave the same remainder modulo `q`. */
  ghost predicate Cong(a: int, b: int, q: nat)
    requires q > 0
  {
    a % q == b % q
  }

  lemma ModUnique(a: int, q: nat, k: int, r: int)
    requires q > 0 && a == q * k + r && 0 <= r < q
    ensures a % q == r && a / q == k
  {
    EuclidUnique(q, k, r, a / q, a % q);
  }

  lemma EuclidUnique(q: nat, k: int, r: int, l: int, t: int)
    requires q * k + r == q * l + t && 0 <= r < q && 0 <= t < q
    ensures k == l && r == t
  {
    var d := k - l;
    assert q * d == t - r by { assert q * d == q * k - q * l; }
    AtLeastOne(q, d);
  }

  lemma AtLeastOne(q: nat, d: int)
    ensures d >= 1 ==> q * d >= q
    ensures d <= -1 ==> q * d <= -(q as int)
  {
    if d >= 1 {
      assert q * d == q + q * (d - 1) && q * (d - 1) >= 0;
    } else if d <= -1 {
      assert q * (-d) == q + q * (-d - 1) && q * (-d - 1) >= 0;
    }
  }

  lemma CongByMultiple(a: int, b: int, q: nat, k: int)
    requires q > 0 && a == b + q * k
    ensures Cong(a, b, q)
  {
    assert a == q * (b / q + k) + b % q by { assert q * (b / q + k) == q * (b / q) + q * k; }
    ModUnique(a, q, b / q + k, b % q);
  }

  lemma CongMultiple(a: int, b: int, q: nat) returns (k: int)
    requires q > 0 && Cong(a, b, q)
    ensures a == b + q * k
  {
    k := a / q - b / q;
    assert a == q * (a / q) + a % q;
    assert b == q * (b / q) + b % q;
    assert q * k == q * (a / q) - q * (b / q);
  }

  lemma CongAdd(a: int, b: int, c: int, d: int, q: nat)
    requires q > 0 && Cong(a, b, q) && Cong(c, d, q)
    ensures Cong(a + c, b + d, q) && Cong(a - c, b - d, q)
  {
    var k := CongMultiple(a, b, q);
    var l := CongMultiple(c, d, q);
    assert q * (k + l) == q * k + q * l && q * (k - l) == q * k - q * l;
    CongByMultiple(a + c, b + d, q, k + l);
    CongByMultiple(a - c, b - d, q, k - l);
  }

  lemma CongMul(a: int, b: int, c: int, d: int, q: nat)
    requires q > 0 && Cong(a, b, q) && Cong(c, d, q)
    ensures Cong(a * c, b * d, q)
  {
    var k := CongMultiple(a, b, q);
    var l := CongMultiple(c, d, q);
    assert a * c == b * d + q * (k * d + b * l + q * k * l) by {
      calc {
        a * c;
        (b + q * k) * (d + q * l);
        b * d + b * (q * l) + (q * k) * d + (q * k) * (q * l);
        { assert b * (q * l) == q * (b * l);
          assert (q * k) * d == q * (k * d);
          assert (q * k) * (q * l) == q * (q * k * l); }
        b * d + q * (b * l) + q * (k * d) + q * (q * k * l);
        b * d + q * (k * d + b * l + q * k * l);
      }
    }
    CongByMultiple(a * c, b * d, q, k * d + b * l + q * k * l);
  }

  lemma CongMod(a: int, q: nat)
    requires q > 0
    ensures 0 <= a % q < q && Cong(a % q, a, q)
  {
    ModUnique(a % q, q, 0, a % q);
  }

  lemma SmallMod(a: int, q: nat)
    requires 0 <= a < q
    ensures a % q == a
  {
    ModUnique(a, q, 0, a);
  }

  lemma CongDifference(a: int, b: int, q: nat)
    requires q > 0
    ensures Cong(a - b, 0, q) <==> Cong(a, b, q)
  {
    if Cong(a - b, 0, q) { CongAdd(a - b, 0, b, b, q); }
    if Cong(a, b, q) { CongAdd(a, b, b, b, q); }
  }

  // ---- Primes and inverses ----------------------------------------------

  ghost predicate Divides(d: nat, n: nat)
    requires d > 0
  {
    n % d == 0
  }

  ghost predicate Prime(q: nat) {
    q >= 2 && forall d: nat {:trigger Divides(d, q)} :: 1 < d < q ==> !Divides(d, q)
  }

  /** Bezout coefficients by the extended Euclidean algorithm: (g, x, y) with a*x + b*y = g. */
  function Egcd(a: nat, b: nat): (r: (nat, int, int))
    decreases b
  {
    if b == 0 then (a, 1, 0)
    else
      var (g, x, y) := Egcd(b, a % b);
      (g, y, x - (a / b) * y)
  }

  /** One Euclid step carries a Bezout identity from (b, m) to (b*d + m, b). */
  lemma BezoutStep(b: int, d: int, m: int, x: int, y: int)
    ensures (b * d + m) * y + b * (x - d * y) == b * x + m * y
  {
    assert b * (x - d * y) == b * x - (b * d) * y;
    assert (b * d + m) * y == (b * d) * y + m * y;
  }

  lemma DivisorStep(g: nat, b: nat, d: int, m: nat)
    requires g > 0 && Divides(g, b) && Divides(g, m) && b * d + m >= 0
    ensures Divides(g, b * d + m)
  {
    var kb, km := b / g, m / g;
    assert b * d + m == g * (kb * d + km) by {
      assert g * (kb * d + km) == (g * kb) * d + g * km;
    }
    ModUnique(b * d + m, g, kb * d + km, 0);
  }

  /** What the algorithm establishes: a common divisor that is a combination of both. */
  ghost predicate Bezout(a: nat, b: nat, r: (nat, int, int)) {
    && r.0 > 0 && a * r.1 + b * r.2 == r.0
    && Divides(r.0, a) && Divides(r.0, b)
  }

  lemma EgcdStep(a: nat, b: nat, r: (nat, int, int))
    requires b > 0 && Bezout(b, a % b, r)
    ensures Bezout(a, b, (r.0, r.2, r.1 - (a / b) * r.2))
  {
    var d, m := a / b, a % b;
    assert a == b * d + m;
    BezoutStep(b, d, m, r.1, r.2);
    DivisorStep(r.0, b, d, m);
  }

  lemma {:induction false} EgcdBezout(a: nat, b: nat)
    requires a + b > 0
    ensures Bezout(a, b, Egcd(a, b))
    decreases b
  {
    if b == 0 {
      ModUnique(a, a, 1, 0);
      ModUnique(0, a, 0, 0);
    } else {
      EgcdBezout(b, a % b);
      EgcdStep(a, b, Egcd(b, a % b));
    }
  }

  /** The inverse of `a` modulo `q`; zero when `a` is zero, as the curve library returns. */
  function Inverse(a: int, q: nat): (r: int)
    requires q > 0
    ensures 0 <= r < q
  {
    Egcd(a % q, q).1 % q
  }

  lemma CoprimeBelow(m: nat, q: nat)
    requires Prime(q) && 0 < m < q
    ensures var (g, x, y) := Egcd(m, q); g == 1 && m * x + q * y == 1
  {
    EgcdBezout(m, q);
    var g := Egcd(m, q).0;
    if g > m { ModUnique(m, g, 0, m); }
  }

  lemma InverseIsInverse(a: int, q: nat)
    requires Prime(q) && !Cong(a, 0, q)
    ensures Cong(a * Inverse(a, q), 1, q)
  {
    var m := a % q;
    CongMod(a, q);
    ModUnique(0, q, 0, 0);
    CoprimeBelow(m, q);
    var (g, x, y) := Egcd(m, q);
    assert m * x == 1 + q * (-y) by { assert q * (-y) == -(q * y); }
    CongByMultiple(m * x, 1, q, -y);
    CongMod(x, q);
    CongMul(a, m, x % q, x, q);
  }

  /** Modulo a prime a product vanishes only if a factor does. */
  lemma NoZeroDivisors(a: int, b: int, q: nat)
    requires Prime(q) && Cong(a * b, 0, q) && !Cong(a, 0, q)
    ensures Cong(b, 0, q)
  {
    var i := Inverse(a, q);
    InverseIsInverse(a, q);
    CongMul(a * i, 1, b, b, q);
    CongMul(a * b, 0, i, i, q);
    assert (a * i) * b == (a * b) * i && 1 * b == b && 0 * i == 0;
  }

  lemma {:induction false} PowTwoNonzero(k: nat, q: nat)
    requires Prime(q) && q > 2
    ensures !Cong(Pow(2, k), 0, q)
  {
    ModUnique(0, q, 0, 0);
    if k == 0 {
      SmallMod(1, q);
    } else {
      PowTwoNonzero(k - 1, q);
      SmallMod(2, q);
      if Cong(2 * Pow(2, k - 1), 0, q) {
        NoZeroDivisors(2, Pow(2, k - 1), q);
      }
    }
  }
}
