/**
Integers modulo a prime: congruences, absence of zero divisors, and the bound on
the number of roots of a polynomial. The PINE circuits compute with canonical
representatives in `0..p`; every statement about them is brought to a statement
about integers modulo `p` with the congruence lemmas below.
*/
module PrimeField {

  ghost predicate Divides(d: int, n: int)
    requires d != 0
  {
    n % d == 0
  }

  ghost predicate Prime(p: int) {
    2 <= p && forall d | 2 <= d < p :: !Divides(d, p)
  }

  // ---- The fields in use

  datatype FieldKind = Field32 | Field64 | Field128

  function Modulus(kind: FieldKind): (m: nat)
    ensures m > 0
  {
    match kind
    case Field32 => 4_293_918_721
    case Field64 => 18_446_744_069_414_584_321
    case Field128 => 340_282_366_920_938_462_946_865_773_367_900_766_209
  }

  // ---- Field operations on canonical representatives

  function FAdd(p: int, x: int, y: int): int
    requires p > 0
  {
    (x + y) % p
  }

  function FSub(p: int, x: int, y: int): int
    requires p > 0
  {
    (x - y) % p
  }

  function FMul(p: int, x: int, y: int): int
    requires p > 0
  {
    (x * y) % p
  }

  predicate Canonical(p: int, xs: seq<int>) {
    forall i | 0 <= i < |xs| :: 0 <= xs[i] < p
  }

  // ---- Congruences

  ghost predicate Cong(p: int, a: int, b: int)
    requires p > 0
  {
    a % p == b % p
  }

  /** Quotient and remainder are determined by `x == q * p + r`. */
  lemma ModUnique(p: int, x: int, q: int, r: int)
    requires p > 0
    requires x == q * p + r && 0 <= r < p
    ensures x % p == r && x / p == q
  {
    var d := x / p - q;
    assert d * p == (x / p) * p - q * p == r - x % p;
    assert d >= 1 ==> d * p >= p;
    assert d <= -1 ==> d * p <= -p;
  }

  lemma CongOfMultiple(p: int, a: int, b: int, k: int)
    requires p > 0
    requires a == b + k * p
    ensures Cong(p, a, b)
  {
    var q := b / p;
    assert a == (q + k) * p + b % p;
    ModUnique(p, a, q + k, b % p);
  }

  lemma MultipleOfCong(p: int, a: int, b: int) returns (k: int)
    requires p > 0
    requires Cong(p, a, b)
    ensures a == b + k * p
  {
    k := a / p - b / p;
    assert a == (a / p) * p + a % p;
    assert b == (b / p) * p + b % p;
  }

  lemma CongMod(p: int, a: int)
    requires p > 0
    ensures Cong(p, a % p, a)
  {
    CongOfMultiple(p, a % p, a, -(a / p));
  }

  lemma CongAdd(p: int, a: int, a': int, b: int, b': int)
    requires p > 0
    requires Cong(p, a, a') && Cong(p, b, b')
    ensures Cong(p, a + b, a' + b')
  {
    var k := MultipleOfCong(p, a, a');
    var l := MultipleOfCong(p, b, b');
    assert a + b == a' + b' + (k + l) * p;
    CongOfMultiple(p, a + b, a' + b', k + l);
  }

  lemma CongSub(p: int, a: int, a': int, b: int, b': int)
    requires p > 0
    requires Cong(p, a, a') && Cong(p, b, b')
    ensures Cong(p, a - b, a' - b')
  {
    var k := MultipleOfCong(p, a, a');
    var l := MultipleOfCong(p, b, b');
    assert a - b == a' - b' + (k - l) * p;
    CongOfMultiple(p, a - b, a' - b', k - l);
  }

  lemma CongMulL(p: int, c: int, a: int, b: int)
    requires p > 0
    requires Cong(p, a, b)
    ensures Cong(p, c * a, c * b)
  {
    var k := MultipleOfCong(p, a, b);
    assert c * (b + k * p) == c * b + (c * k) * p;
    CongOfMultiple(p, c * a, c * b, c * k);
  }

  lemma CongMul(p: int, a: int, a': int, b: int, b': int)
    requires p > 0
    requires Cong(p, a, a') && Cong(p, b, b')
    ensures Cong(p, a * b, a' * b')
  {
    CongMulL(p, b, a, a');
    CongMulL(p, a', b, b');
  }

  lemma SmallMod(p: int, x: int)
    requires 0 <= x < p
    ensures x % p == x
  {
    ModUnique(p, x, 0, x);
  }

  lemma CongZeroDiff(p: int, a: int, b: int)
    requires p > 0
    ensures Cong(p, a, b) <==> (a - b) % p == 0
  {
    SmallMod(p, 0);
    if Cong(p, a, b) {
      CongSub(p, a, b, b, b);
    }
    if (a - b) % p == 0 {
      CongAdd(p, a - b, 0, b, b);
    }
  }

  // ---- No zero divisors

  /** Euclid's lemma, by descent on `a`. */
  lemma {:induction false} EuclidDescent(p: int, a: int, b: int)
    requires Prime(p)
    requires 0 < a < p
    requires Divides(p, a * b)
    ensures Divides(p, b)
    decreases a
  {
    if a == 1 {
    } else {
      assert !Divides(a, p);
      var r := p % a;
      var q := p / a;
      assert r == p - q * a;
      SmallMod(p, 0);
      assert Cong(p, r * b, 0) by {
        assert r * b == p * b - q * (a * b) by {
          assert (p - q * a) * b == p * b - (q * a) * b;
          assert (q * a) * b == q * (a * b);
        }
        CongOfMultiple(p, p * b, 0, b);
        CongMulL(p, q, a * b, 0);
        CongSub(p, p * b, 0, q * (a * b), 0);
      }
      EuclidDescent(p, r, b);
    }
  }

  lemma NoZeroDivisors(p: int, a: int, b: int)
    requires Prime(p)
    requires (a * b) % p == 0
    ensures a % p == 0 || b % p == 0
  {
    if a % p != 0 {
      CongMod(p, a);
      CongMul(p, a % p, a, b, b);
      EuclidDescent(p, a % p, b);
    }
  }

  // ---- Inverses

  /** The inverse of `a` modulo a prime `p`, by descent on `a`; zero has none and yields zero. */
  function Inverse(p: int, a: nat): int
    requires p > 0
  {
    if a <= 1 then a else FMul(p, FSub(p, 0, p / a), Inverse(p, p % a))
  }

  lemma {:induction false} InverseCorrect(p: int, a: nat)
    requires Prime(p) && 0 < a < p
    ensures 0 <= Inverse(p, a) < p && Cong(p, a * Inverse(p, a), 1)
    decreases a
  {
    if a > 1 {
      var q, r := p / a, p % a;
      QuotientOfPrime(p, a);
      InverseCorrect(p, r);
      InverseStep(p, a, q, r, Inverse(p, r));
    }
  }

  lemma QuotientOfPrime(p: int, a: nat)
    requires Prime(p) && 1 < a < p
    ensures 0 < p % a < a && p == (p / a) * a + p % a
  {
    assert !Divides(a, p);
  }

  /** If `i` inverts the remainder of `p` by `a`, then `-(p / a) * i` inverts `a`. */
  lemma InverseStep(p: int, a: int, q: int, r: int, i: int)
    requires p > 0 && p == q * a + r && Cong(p, r * i, 1)
    ensures 0 <= FMul(p, FSub(p, 0, q), i) < p && Cong(p, a * FMul(p, FSub(p, 0, q), i), 1)
  {
    var n := FSub(p, 0, q);
    CongMod(p, 0 - q);
    CongMul(p, n, 0 - q, i, i);
    CongMod(p, n * i);
    CongMulL(p, a, FMul(p, n, i), (0 - q) * i);
    Regroup(p, a, q, r, i);
    CongOfMultiple(p, a * ((0 - q) * i), r * i, 0 - i);
  }

  lemma Regroup(p: int, a: int, q: int, r: int, i: int)
    requires p == q * a + r
    ensures a * ((0 - q) * i) == r * i + (0 - i) * p
  {
    assert (q * a) * i + r * i == p * i;
    assert a * ((0 - q) * i) == 0 - (q * a) * i;
  }

  // ---- Polynomials, constant coefficient first

  ghost function Eval(c: seq<int>, x: int): int {
    if c == [] then 0 else c[0] + x * Eval(c[1..], x)
  }

  ghost predicate ZeroPoly(p: int, c: seq<int>)
    requires p > 0
  {
    forall i | 0 <= i < |c| :: c[i] % p == 0
  }

  ghost function Roots(p: int, c: seq<int>): set<int>
    requires p > 0
  {
    set x | 0 <= x < p && Eval(c, x) % p == 0
  }

  /** Synthetic division of `c` by `X - a`. */
  ghost function Quotient(c: seq<int>, a: int): (q: seq<int>)
    ensures |q| == if c == [] then 0 else |c| - 1
  {
    if |c| <= 1 then [] else [Eval(c[1..], a)] + Quotient(c[1..], a)
  }

  lemma FactorStep(x: int, a: int, dx: int, da: int, e: int)
    requires dx - da == (x - a) * e
    ensures x * dx - a * da == (x - a) * (da + x * e)
  {
    calc {
      (x - a) * (da + x * e);
      (x - a) * da + (x - a) * (x * e);
      { assert (x - a) * (x * e) == x * ((x - a) * e); }
      (x - a) * da + x * (dx - da);
      x * dx - a * da;
    }
  }

  lemma {:induction false} QuotientCorrect(c: seq<int>, a: int, x: int)
    ensures Eval(c, x) - Eval(c, a) == (x - a) * Eval(Quotient(c, a), x)
  {
    if |c| <= 1 {
      if |c| == 1 {
        assert c[1..] == [];
      }
    } else {
      var d := c[1..];
      var q := Quotient(d, a);
      QuotientCorrect(d, a, x);
      assert Quotient(c, a)[1..] == q;
      FactorStep(x, a, Eval(d, x), Eval(d, a), Eval(q, x));
    }
  }

  lemma {:induction false} EvalZeroPoly(p: int, c: seq<int>, x: int)
    requires p > 0
    requires ZeroPoly(p, c)
    ensures Eval(c, x) % p == 0
  {
    SmallMod(p, 0);
    if c != [] {
      EvalZeroPoly(p, c[1..], x);
      CongMulL(p, x, Eval(c[1..], x), 0);
      CongAdd(p, c[0], 0, x * Eval(c[1..], x), 0);
    }
  }

  /** A polynomial with a root `a` and a zero quotient by `X - a` is zero. */
  lemma {:induction false} ZeroQuotient(p: int, c: seq<int>, a: int)
    requires p > 0
    requires Eval(c, a) % p == 0 && ZeroPoly(p, Quotient(c, a))
    ensures ZeroPoly(p, c)
  {
    SmallMod(p, 0);
    if |c| == 1 {
      assert c[1..] == [];
    } else if |c| > 1 {
      var d := c[1..];
      var q := Quotient(c, a);
      assert Eval(d, a) % p == 0 by { assert q[0] == Eval(d, a); }
      assert ZeroPoly(p, Quotient(d, a)) by {
        assert q[1..] == Quotient(d, a);
        forall i | 0 <= i < |d| - 1 ensures Quotient(d, a)[i] % p == 0 { assert q[i + 1] % p == 0; }
      }
      ZeroQuotient(p, d, a);
      CongMulL(p, a, Eval(d, a), 0);
      CongSub(p, Eval(c, a), 0, a * Eval(d, a), 0);
      assert c[0] == Eval(c, a) - a * Eval(d, a);
      forall i | 0 <= i < |c| ensures c[i] % p == 0 {
        if i > 0 { assert c[i] == d[i - 1]; }
      }
    }
  }

  lemma SubsetCard<T>(a: set<T>, b: set<T>)
    requires a <= b
    ensures |a| <= |b|
  {
    assert b == a + (b - a);
  }

  /** A nonzero polynomial has fewer roots than coefficients. */
  lemma {:induction false} RootBound(p: int, c: seq<int>)
    requires Prime(p)
    requires !ZeroPoly(p, c)
    ensures |Roots(p, c)| <= |c| - 1
    decreases |c|
  {
    if Roots(p, c) == {} {
      assert |c| > 0;
    } else {
      var a :| a in Roots(p, c);
      var q := Quotient(c, a);
      if ZeroPoly(p, q) {
        ZeroQuotient(p, c, a);
        assert false;
      }
      RootBound(p, q);
      forall x | x in Roots(p, c) && x != a ensures x in Roots(p, q) {
        QuotientRoot(p, c, a, x);
      }
      SubsetCard(Roots(p, c), {a} + Roots(p, q));
    }
  }

  lemma {:induction false} QuotientRoot(p: int, c: seq<int>, a: int, x: int)
    requires Prime(p)
    requires 0 <= a < p && 0 <= x < p && x != a
    requires Eval(c, a) % p == 0 && Eval(c, x) % p == 0
    ensures Eval(Quotient(c, a), x) % p == 0
  {
    var e := Eval(Quotient(c, a), x);
    QuotientCorrect(c, a, x);
    CongSub(p, Eval(c, x), 0, Eval(c, a), 0);
    SmallMod(p, 0);
    assert ((x - a) * e) % p == 0;
    NoZeroDivisors(p, x - a, e);
    if (x - a) % p == 0 {
      CongZeroDiff(p, x, a);
      SmallMod(p, x);
      SmallMod(p, a);
      assert false;
    }
  }
}
