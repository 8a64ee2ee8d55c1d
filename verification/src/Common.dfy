/** Bytes, machine widths, option and result types shared by every module. */
module Common {
  datatype Option<+T> = None | Some(value: T)

  datatype Result<+T, +E> = Ok(value: T) | Err(error: E)

  type byte = x: int | 0 <= x < 256

  type Bytes = seq<byte>

  type Bytes32 = b: Bytes | |b| == 32 witness seq(32, _ => 0)

  function Zeros(n: nat): (b: Bytes)
    ensures |b| == n
  {
    if n == 0 then [] else [0] + Zeros(n - 1)
  }

  const ZERO32: Bytes32 := Zeros(32)

  const U32: nat := 0x1_0000_0000
  const U64: nat := 0x1_0000_0000_0000_0000

  type u32 = x: int | 0 <= x < U32
  type u64 = x: int | 0 <= x < U64

  function Min(a: int, b: int): int { if a <= b then a else b }

  // ---- Little-endian integers -------------------------------------------

  function Pow(b: nat, e: nat): nat {
    if e == 0 then 1 else b * Pow(b, e - 1)
  }

  /** The `n` low bytes of `x`, least significant first. */
  function ToLe(x: nat, n: nat): (b: Bytes)
    ensures |b| == n
    decreases n
  {
    if n == 0 then [] else [x % 256] + ToLe(x / 256, n - 1)
  }

  function FromLe(b: Bytes): nat {
    if b == [] then 0 else b[0] + 256 * FromLe(b[1..])
  }

  lemma {:induction false} LeRoundTrip(x: nat, n: nat)
    requires x < Pow(256, n)
    ensures FromLe(ToLe(x, n)) == x
    decreases n
  {
    if n > 0 {
      assert x / 256 < Pow(256, n - 1);
      LeRoundTrip(x / 256, n - 1);
      assert ToLe(x, n)[1..] == ToLe(x / 256, n - 1);
    }
  }

  lemma {:induction false} LeOfBytes(b: Bytes)
    ensures FromLe(b) < Pow(256, |b|)
    ensures ToLe(FromLe(b), |b|) == b
  {
    if b != [] {
      LeOfBytes(b[1..]);
      assert FromLe(b) / 256 == FromLe(b[1..]);
      assert [b[0]] + b[1..] == b;
    }
  }

  lemma {:induction false} LeInjective(x: nat, y: nat, n: nat)
    requires x < Pow(256, n) && y < Pow(256, n) && ToLe(x, n) == ToLe(y, n)
    ensures x == y
  {
    LeRoundTrip(x, n);
    LeRoundTrip(y, n);
  }

  lemma MulAssociates(a: nat, b: nat, c: nat)
    ensures a * (b * c) == (a * b) * c
  {
  }

  lemma {:induction false} PowAdd(b: nat, m: nat, n: nat)
    ensures Pow(b, m + n) == Pow(b, m) * Pow(b, n)
  {
    if m > 0 {
      PowAdd(b, m - 1, n);
      MulAssociates(b, Pow(b, m - 1), Pow(b, n));
      assert m + n - 1 == m - 1 + n;
    }
  }

  lemma {:induction false} PowPositive(i: nat)
    ensures Pow(2, i) > 0
  {
    if i > 0 { PowPositive(i - 1); }
  }

  lemma PowersOfTwo()
    ensures Pow(2, 64) == U64 && Pow(256, 8) == U64 && Pow(2, 63) * 2 == U64
  {
    assert Pow(2, 4) == 2 * (2 * (2 * (2 * Pow(2, 0))));
    PowAdd(2, 4, 4);
    PowAdd(2, 8, 8);
    PowAdd(2, 16, 16);
    PowAdd(2, 32, 32);
    PowAdd(2, 1, 63);
    assert Pow(256, 2) == 256 * (256 * Pow(256, 0));
    PowAdd(256, 2, 2);
    PowAdd(256, 4, 4);
  }

  lemma Bytes4()
    ensures Pow(256, 4) == U32
  {
    assert Pow(256, 2) == 256 * (256 * Pow(256, 0));
    PowAdd(256, 2, 2);
  }

  // ---- Hashes without collisions among given values ------------------------

  ghost predicate Apart<T, U>(f: T -> U, x: T, y: T) {
    f(x) == f(y) ==> x == y
  }

  /** No two of these values have one image. A hash can have this only of values at hand. */
  ghost predicate InjectiveOn<T(!new), U>(f: T -> U, s: set<T>) {
    forall x, y {:trigger Apart(f, x, y)} :: x in s && y in s ==> Apart(f, x, y)
  }

  lemma InjectiveOnPart<T(!new), U>(f: T -> U, s: set<T>, t: set<T>)
    requires InjectiveOn(f, t) && s <= t
    ensures InjectiveOn(f, s)
  {
  }

  /** A numbering of the elements of a set. */
  lemma {:induction false} Enumerate<T(!new)>(s: set<T>) returns (number: map<T, nat>)
    ensures number.Keys == s
    ensures forall x :: x in s ==> number[x] < |s|
    ensures forall x, y :: x in s && y in s && number[x] == number[y] ==> x == y
    decreases |s|
  {
    if s == {} {
      number := map[];
    } else {
      var x :| x in s;
      var rest := Enumerate(s - {x});
      number := rest[x := |s| - 1];
    }
  }

  /** Up to 2^256 values there is a 32-byte hash without collisions among them. */
  lemma InjectiveHashExists<T(!new)>(s: set<T>) returns (f: T -> Bytes32)
    requires |s| <= Pow(256, 32)
    ensures InjectiveOn(f, s)
  {
    var number := Enumerate(s);
    f := x => if x in number then Digest(number[x]) else ZERO32;
    forall x, y | x in s && y in s ensures Apart(f, x, y) {
      if f(x) == f(y) { LeInjective(number[x], number[y], 32); }
    }
  }

  function Digest(n: nat): Bytes32 {
    ToLe(n, 32)
  }
}
