/**
The wraparound tests: dot products of the gradient with {-1, 0, 1}-vectors read two
bits per coordinate from a random byte string.
*/
module PineWraparound {
  import opened Arithmetic
  import opened PrimeField
  import opened PineParams
  import opened PineLinearity

  /** Two bits as a weight: 00 is -1, 11 is 1, and 01 and 10 are 0. */
  function Weight(twoBits: int): int {
    if twoBits == 0 then -1 else if twoBits == 3 then 1 else 0
  }

  /** A byte after `e` pairs of bits have been consumed. */
  function Shifted(b: int, e: nat): int {
    if e == 0 then b else if e == 1 then b / 4 else if e == 2 then b / 16 else b / 64
  }

  /** The weight of coordinate `j`: bits `2 * (j % 4)` and `2 * (j % 4) + 1` of byte `j / 4`, less one. */
  function CoordWeight(rand: seq<int>, j: nat): int
    requires j / 4 < |rand|
  {
    BitAt(rand[j / 4], 2 * (j % 4)) + BitAt(rand[j / 4], 2 * (j % 4) + 1) - 1
  }

  lemma {:induction false} LowPair(r: int)
    ensures Weight(r % 4) == BitAt(r, 0) + BitAt(r, 1) - 1
  {
    assert BitAt(r, 1) == BitAt(r / 2, 0);
  }

  lemma {:induction false} SkipPair(x: int, k: nat)
    ensures BitAt(x, k + 2) == BitAt(x / 4, k)
  {
    assert BitAt(x, k + 2) == BitAt(x / 2, k + 1);
    assert BitAt(x / 2, k + 1) == BitAt((x / 2) / 2, k);
  }

  lemma ShiftedNext(b: int, e: nat)
    requires e < 3
    ensures Shifted(b, e) / 4 == Shifted(b, e + 1)
  {
  }

  lemma {:induction false} ShiftedBits(b: int, e: nat, k: nat)
    requires e < 4
    ensures BitAt(b, 2 * e + k) == BitAt(Shifted(b, e), k)
    decreases e
  {
    if e > 0 {
      ShiftedBits(b, e - 1, k + 2);
      SkipPair(Shifted(b, e - 1), k);
      ShiftedNext(b, e - 1);
      assert 2 * (e - 1) + (k + 2) == 2 * e + k;
    }
  }

  /** What the two lowest bits mean after `e` pairs have been consumed. */
  lemma {:induction false} WeightIsBits(b: int, e: nat)
    requires e < 4
    ensures Weight(Shifted(b, e) % 4) == BitAt(b, 2 * e) + BitAt(b, 2 * e + 1) - 1
  {
    LowPair(Shifted(b, e));
    ShiftedBits(b, e, 0);
    ShiftedBits(b, e, 1);
  }

  /** Dot product of the weights and the gradient, from coordinate `j` on. */
  ghost function DotFrom(rand: seq<int>, gradient: seq<int>, j: nat): int
    requires |rand| == ChunkCount(4, |gradient|) && j <= |gradient|
    decreases |gradient| - j
  {
    if j == |gradient| then 0
    else CoordWeight(rand, j) * gradient[j] + DotFrom(rand, gradient, j + 1)
  }

  /** The results of `n` tests, each reading its own stretch of `rand`. */
  ghost function WrTests(p: int, gradient: seq<int>, n: nat, rand: seq<int>): (r: seq<int>)
    requires p > 0 && |rand| == Times(n, ChunkCount(4, |gradient|))
    ensures |r| == n && Canonical(p, r)
  {
    if n == 0 then []
    else
      var len := ChunkCount(4, |gradient|);
      [DotFrom(rand[..len], gradient, 0) % p] + WrTests(p, gradient, n - 1, rand[len..])
  }

  lemma {:induction false} Stretch(n: nat, len: nat, i: nat)
    requires i < n
    ensures Times(i, len) + len <= Times(n, len)
  {
    if i > 0 {
      Stretch(n - 1, len, i - 1);
    }
  }

  /** Test `i` reads stretch `i` of the random bytes. */
  lemma {:induction false} WrTestsAt(p: int, gradient: seq<int>, n: nat, rand: seq<int>, i: nat)
    requires p > 0 && i < n && |rand| == Times(n, ChunkCount(4, |gradient|))
    ensures var (len, at) := (ChunkCount(4, |gradient|), Times(i, ChunkCount(4, |gradient|)));
            && at + len <= |rand|
            && WrTests(p, gradient, n, rand)[i] == DotFrom(rand[at..at + len], gradient, 0) % p
  {
    var len, at := ChunkCount(4, |gradient|), Times(i, ChunkCount(4, |gradient|));
    Stretch(n, len, i);
    if i > 0 {
      WrTestsAt(p, gradient, n - 1, rand[len..], i - 1);
      assert rand[len..][at - len..at] == rand[at..at + len];
    } else {
      assert rand[at..at + len] == rand[..len];
    }
  }

  /** Consume two bits of `r` per element of `chunk`. */
  ghost function ChunkDot(r: int, chunk: seq<int>): int
    decreases |chunk|
  {
    if chunk == [] then 0 else Weight(r % 4) * chunk[0] + ChunkDot(r / 4, chunk[1..])
  }

  method AccumulateChunk(p: int, acc: int, chunk: seq<int>, byte: int) returns (acc': int)
    requires p > 0 && 0 <= acc < p
    ensures 0 <= acc' < p
    ensures Cong(p, acc', acc + ChunkDot(byte, chunk))
  {
    acc' := acc;
    var r := byte;
    ghost var goal := acc + ChunkDot(byte, chunk);
    for i := 0 to |chunk|
      invariant 0 <= acc' < p
      invariant Cong(p, acc' + ChunkDot(r, chunk[i..]), goal)
    {
      var x := chunk[i];
      var rest := chunk[i + 1..];
      assert chunk[i..][1..] == rest;
      WeightStep(p, acc', Weight(r % 4), x, ChunkDot(r / 4, rest), goal);
      if r % 4 == 0 {
        acc' := FSub(p, acc', x);
      } else if r % 4 == 3 {
        acc' := FAdd(p, acc', x);
      }
      r := r / 4;
    }
    assert chunk[|chunk|..] == [];
  }

  lemma WeightStep(p: int, acc: int, w: int, x: int, left: int, goal: int)
    requires p > 0 && -1 <= w <= 1
    requires Cong(p, acc + (w * x + left), goal)
    ensures w == -1 ==> Cong(p, FSub(p, acc, x) + left, goal)
    ensures w == 1 ==> Cong(p, FAdd(p, acc, x) + left, goal)
    ensures w == 0 ==> Cong(p, acc + left, goal)
  {
    CongMod(p, acc - x);
    CongMod(p, acc + x);
    CongAdd(p, FSub(p, acc, x), acc - x, left, left);
    CongAdd(p, FAdd(p, acc, x), acc + x, left, left);
  }

  /** Within byte `k`, a chunk consumes exactly the weights of its coordinates. */
  lemma {:induction false} ChunkDotIsDot(rand: seq<int>, gradient: seq<int>, k: nat, e: nat, m: nat)
    requires |rand| == ChunkCount(4, |gradient|)
    requires e <= m <= 4 && 4 * k + m <= |gradient| && k < |rand|
    ensures ChunkDot(Shifted(rand[k], e), gradient[4 * k + e..4 * k + m]) + DotFrom(rand, gradient, 4 * k + m)
         == DotFrom(rand, gradient, 4 * k + e)
    decreases m - e
  {
    if e < m {
      var c := gradient[4 * k + e..4 * k + m];
      assert c[1..] == gradient[4 * k + e + 1..4 * k + m];
      ChunkDotIsDot(rand, gradient, k, e + 1, m);
      assert (4 * k + e) / 4 == k && (4 * k + e) % 4 == e;
      WeightIsBits(rand[k], e);
      if e < 3 {
        assert Shifted(rand[k], e) / 4 == Shifted(rand[k], e + 1);
      } else {
        assert c[1..] == [];
      }
    }
  }

  lemma GroupDot(rand: seq<int>, gradient: seq<int>, k: nat, m: nat)
    requires |rand| == ChunkCount(4, |gradient|) && m <= 4 && k < |rand| && 4 * k + m <= |gradient|
    ensures ChunkDot(rand[k], gradient[4 * k..4 * k + m]) + DotFrom(rand, gradient, 4 * k + m)
         == DotFrom(rand, gradient, 4 * k)
  {
    ChunkDotIsDot(rand, gradient, k, 0, m);
  }

  /** What the whole groups leave, possibly nothing, is on the last byte. */
  lemma {:induction false} RemainderDot(rand: seq<int>, gradient: seq<int>)
    requires gradient != [] && |rand| == ChunkCount(4, |gradient|)
    ensures var k := |gradient| / 4;
            ChunkDot(rand[|rand| - 1], gradient[4 * k..]) == DotFrom(rand, gradient, 4 * k)
  {
    var k, m := Groups(|gradient|);
    if m > 0 {
      LastGroup(rand, gradient, k, m);
    } else {
      EndDot(rand, gradient, 4 * k);
      assert gradient[4 * k..] == [];
    }
  }

  lemma {:induction false} LastGroup(rand: seq<int>, gradient: seq<int>, k: nat, m: nat)
    requires |rand| == ChunkCount(4, |gradient|) == k + 1 && m <= 4 && 4 * k + m == |gradient|
    ensures ChunkDot(rand[k], gradient[4 * k..]) == DotFrom(rand, gradient, 4 * k)
  {
    assert gradient[4 * k..] == gradient[4 * k..4 * k + m];
    EndDot(rand, gradient, 4 * k + m);
    GroupDot(rand, gradient, k, m);
  }

  lemma {:induction false} EndDot(rand: seq<int>, gradient: seq<int>, j: nat)
    requires |rand| == ChunkCount(4, |gradient|) && j == |gradient|
    ensures DotFrom(rand, gradient, j) == 0
  {
  }

  lemma Groups(n: nat) returns (k: nat, m: nat)
    ensures k == n / 4 && n == 4 * k + m && m < 4
    ensures ChunkCount(4, n) == if m == 0 then k else k + 1
  {
    k, m := n / 4, n % 4;
  }

  /** One test: whole groups of four coordinates, then the remainder on the last byte. */
  method RunTest(p: int, gradient: seq<int>, rand: seq<int>) returns (acc: int)
    requires p > 0 && gradient != [] && |rand| == ChunkCount(4, |gradient|)
    ensures acc == DotFrom(rand, gradient, 0) % p
  {
    acc := 0;
    var groups := |gradient| / 4;
    ghost var goal := DotFrom(rand, gradient, 0);
    for k := 0 to groups
      invariant 0 <= acc < p
      invariant Cong(p, acc + DotFrom(rand, gradient, 4 * k), goal)
    {
      GroupDot(rand, gradient, k, 4);
      acc := TestStep(p, acc, gradient[4 * k..4 * k + 4], rand[k], DotFrom(rand, gradient, 4 * k + 4), goal);
    }
    RemainderDot(rand, gradient);
    acc := TestStep(p, acc, gradient[4 * groups..], rand[|rand| - 1], 0, goal);
    SmallMod(p, acc);
  }

  method TestStep(p: int, acc: int, chunk: seq<int>, byte: int, ghost left: int, ghost goal: int) returns (acc': int)
    requires p > 0 && 0 <= acc < p
    requires Cong(p, acc + (ChunkDot(byte, chunk) + left), goal)
    ensures 0 <= acc' < p
    ensures Cong(p, acc' + left, goal)
  {
    acc' := AccumulateChunk(p, acc, chunk, byte);
    CongAdd(p, acc', acc + ChunkDot(byte, chunk), left, left);
  }

  /** All tests; `rand` is the output of the seeded generator. */
  method RunWrTests(p: int, gradient: seq<int>, numWrTests: nat, rand: seq<int>) returns (results: seq<int>)
    requires p > 0 && gradient != []
    requires |rand| == Times(numWrTests, ChunkCount(4, |gradient|))
    ensures results == WrTests(p, gradient, numWrTests, rand)
  {
    var len := ChunkCount(4, |gradient|);
    results := [];
    var rest := rand;
    for i := 0 to numWrTests
      invariant |rest| == Times(numWrTests - i, len)
      invariant results + WrTests(p, gradient, numWrTests - i, rest) == WrTests(p, gradient, numWrTests, rand)
    {
      var y := RunTest(p, gradient, rest[..len]);
      results := results + [y];
      rest := rest[len..];
    }
  }

  // ---- Additivity

  lemma AddScaled(p: int, w: int, a0: int, a1: int, a: int, d0: int, d1: int, d: int)
    requires p > 0 && Cong(p, a0 + a1, a) && Cong(p, d0 + d1, d)
    ensures Cong(p, (w * a0 + d0) + (w * a1 + d1), w * a + d)
  {
    CongMulL(p, w, a0 + a1, a);
    assert w * (a0 + a1) == w * a0 + w * a1;
    CongAdd(p, w * (a0 + a1), w * a, d0 + d1, d);
  }

  /** The dot products from position `j` on add up. */
  ghost predicate DotsAdd(p: int, rand: seq<int>, g0: seq<int>, g1: seq<int>, g: seq<int>, j: nat)
    requires p > 0 && |g0| == |g1| == |g| && j <= |g| && |rand| == ChunkCount(4, |g|)
  {
    Cong(p, DotFrom(rand, g0, j) + DotFrom(rand, g1, j), DotFrom(rand, g, j))
  }

  lemma DotStepLinear(p: int, rand: seq<int>, g0: seq<int>, g1: seq<int>, g: seq<int>, j: nat)
    requires p > 0 && |g0| == |g1| == |g| && j < |g|
    requires |rand| == ChunkCount(4, |g|)
    requires Cong(p, g0[j] + g1[j], g[j]) && DotsAdd(p, rand, g0, g1, g, j + 1)
    ensures DotsAdd(p, rand, g0, g1, g, j)
  {
    var w := CoordWeight(rand, j);
    DotNext(rand, g0, j, w);
    DotNext(rand, g1, j, w);
    DotNext(rand, g, j, w);
    AddScaled(p, w, g0[j], g1[j], g[j], DotFrom(rand, g0, j + 1), DotFrom(rand, g1, j + 1), DotFrom(rand, g, j + 1));
  }

  lemma {:induction false} DotNext(rand: seq<int>, g: seq<int>, j: nat, w: int)
    requires |rand| == ChunkCount(4, |g|) && j < |g| && w == CoordWeight(rand, j)
    ensures DotFrom(rand, g, j) == w * g[j] + DotFrom(rand, g, j + 1)
  {
  }

  lemma {:induction false} DotLinear(p: int, rand: seq<int>, g0: seq<int>, g1: seq<int>, g: seq<int>, j: nat)
    requires p > 0 && SharesOf(p, g0, g1, g)
    requires |rand| == ChunkCount(4, |g|) && j <= |g|
    ensures DotsAdd(p, rand, g0, g1, g, j)
    decreases |g| - j
  {
    if j < |g| {
      DotLinear(p, rand, g0, g1, g, j + 1);
      DotStepLinear(p, rand, g0, g1, g, j);
    }
  }

  /** For fixed randomness the tests are additive in the gradient. */
  lemma {:induction false} WrTestsLinear(p: int, g0: seq<int>, g1: seq<int>, g: seq<int>, n: nat, rand: seq<int>)
    requires p > 0 && SharesOf(p, g0, g1, g)
    requires |rand| == Times(n, ChunkCount(4, |g|))
    ensures SharesOf(p, WrTests(p, g0, n, rand), WrTests(p, g1, n, rand), WrTests(p, g, n, rand))
  {
    if n > 0 {
      var len := ChunkCount(4, |g|);
      var r := rand[..len];
      WrTestsLinear(p, g0, g1, g, n - 1, rand[len..]);
      DotLinear(p, r, g0, g1, g, 0);
      ModLinear(p, DotFrom(r, g0, 0), DotFrom(r, g1, 0), DotFrom(r, g, 0));
      ConsShares(p, [DotFrom(r, g0, 0) % p], [DotFrom(r, g1, 0) % p], [DotFrom(r, g, 0) % p],
                 WrTests(p, g0, n - 1, rand[len..]), WrTests(p, g1, n - 1, rand[len..]), WrTests(p, g, n - 1,
                                                                                                 rand[len..]));
    }
  }
}
