/** Cardinalities of ranges, grids and sets of triples given by the sizes of their fibres. */
module Cardinality {
  import opened Arithmetic
  import opened PrimeField

  ghost function Range(n: nat): (r: set<int>)
    ensures forall x :: x in r <==> 0 <= x < n
  {
    if n == 0 then {} else Range(n - 1) + {n - 1}
  }

  lemma {:induction false} RangeCard(n: nat)
    ensures |Range(n)| == n
  {
    if n > 0 {
      RangeCard(n - 1);
    }
  }

  ghost function Grid<A, B>(a: set<A>, b: set<B>): set<(A, B)> {
    set x, y | x in a && y in b :: (x, y)
  }

  lemma {:induction false} ColumnCard<A, B>(x: A, b: set<B>)
    ensures |Grid({x}, b)| == |b|
  {
    if b == {} {
      assert Grid({x}, b) == {};
    } else {
      var y :| y in b;
      ColumnCard(x, b - {y});
      assert Grid({x}, b) == Grid({x}, b - {y}) + {(x, y)};
    }
  }

  lemma {:induction false} GridCard<A, B>(a: set<A>, b: set<B>)
    ensures |Grid(a, b)| == |a| * |b|
  {
    if a == {} {
      assert Grid(a, b) == {};
    } else {
      var x :| x in a;
      GridCard(a - {x}, b);
      ColumnCard(x, b);
      GridSplit(a, b, x);
      OneLess(|a|, |b|);
    }
  }

  lemma GridSplit<A, B>(a: set<A>, b: set<B>, x: A)
    requires x in a
    ensures Grid(a, b) == Grid(a - {x}, b) + Grid({x}, b) && Grid(a - {x}, b) !! Grid({x}, b)
  {
  }

  ghost function Fibre(s: set<(int, int, int)>, k: (int, int)): set<(int, int, int)> {
    set t | t in s && (t.0, t.1) == k
  }

  ghost function Thirds(s: set<(int, int, int)>): set<int> {
    set t | t in s :: t.2
  }

  lemma {:induction false} ThirdsCard(s: set<(int, int, int)>, k: (int, int))
    requires forall t | t in s :: (t.0, t.1) == k
    ensures |s| == |Thirds(s)|
  {
    if s != {} {
      var t :| t in s;
      ThirdsCard(s - {t}, k);
      assert Thirds(s) == Thirds(s - {t}) + {t.2};
    }
  }

  /** If the keys of `s` lie in `keys` and every fibre has at most `n` elements, so `|s| <= |keys| * n`. */
  lemma {:induction false} FibreBound(s: set<(int, int, int)>, keys: set<(int, int)>, n: nat)
    requires forall t | t in s :: (t.0, t.1) in keys
    requires forall k | k in keys :: |Fibre(s, k)| <= n
    ensures |s| <= |keys| * n
    decreases keys
  {
    if keys == {} {
      assert s == {};
    } else {
      var k :| k in keys;
      var rest := s - Fibre(s, k);
      forall l | l in keys - {k} ensures |Fibre(rest, l)| <= n {
        SubsetCard(Fibre(rest, l), Fibre(s, l));
      }
      FibreBound(rest, keys - {k}, n);
      Parts(s, Fibre(s, k));
      OneLess(|keys|, n);
    }
  }

  lemma Parts<T>(s: set<T>, part: set<T>)
    requires part <= s
    ensures |s| == |s - part| + |part|
  {
    assert s == (s - part) + part;
  }

  lemma OneLess(k: nat, n: nat)
    requires k > 0
    ensures k * n == (k - 1) * n + n
  {
  }

  lemma GridSubset<A, B>(s: set<(A, B)>, a: set<A>, b: set<B>, m: nat, n: nat)
    requires forall k | k in s :: k.0 in a && k.1 in b
    requires (|a| <= m && |b| <= n) || (|a| <= n && |b| <= m)
    ensures |s| <= m * n
  {
    forall k | k in s ensures k in Grid(a, b) { assert k.0 in a && k.1 in b; }
    SubsetCard(s, Grid(a, b));
    GridCard(a, b);
    ProductBound(|a|, |b|, m, n);
  }

  lemma ProductBound(a: nat, b: nat, m: nat, n: nat)
    requires (a <= m && b <= n) || (a <= n && b <= m)
    ensures a * b <= m * n
  {
    if a <= m && b <= n {
      MulLe(a, m, b);
      MulLe(b, n, m);
    } else {
      MulLe(a, n, b);
      MulLe(b, m, n);
    }
  }
}
