/**
Share linearity of the PINE circuits: run on two additive shares, a circuit makes
the same number of gadget calls as on the plain measurement, and call by call, wire
by wire, the shares add up to the plain wires. Outputs add up whenever the gadget
answers do.
*/
module PineLinearity {
  import opened Arithmetic
  import opened PrimeField
  import opened PineParams
  import opened PineCircuit

  /** `x0` and `x1` are additive shares of `x`. */
  ghost predicate SharesOf(p: int, x0: seq<int>, x1: seq<int>, x: seq<int>)
    requires p > 0
  {
    && |x0| == |x1| == |x|
    && forall i | 0 <= i < |x| :: Cong(p, x0[i] + x1[i], x[i])
  }

  ghost predicate CallSharesOf(p: int, c0: seq<seq<int>>, c1: seq<seq<int>>, c: seq<seq<int>>)
    requires p > 0
  {
    && |c0| == |c1| == |c|
    && forall k | 0 <= k < |c| :: SharesOf(p, c0[k], c1[k], c[k])
  }

  lemma SharesOfSlice(p: int, x0: seq<int>, x1: seq<int>, x: seq<int>, i: nat, j: nat)
    requires p > 0 && SharesOf(p, x0, x1, x) && i <= j <= |x|
    ensures SharesOf(p, x0[i..j], x1[i..j], x[i..j])
  {
    forall k | 0 <= k < j - i ensures Cong(p, x0[i..j][k] + x1[i..j][k], x[i..j][k]) {
      assert Cong(p, x0[i + k] + x1[i + k], x[i + k]);
    }
  }

  lemma SharesInvSum(p: int)
    requires p % 2 == 1 && p > 1
    ensures Cong(p, SharesInv(p, 2) + SharesInv(p, 2), 1)
  {
    var q := p / 2;
    assert p == q * 2 + 1 && 2 % p == 2 && Inverse(p, 1) == 1;
    InverseStep(p, 2, q, 1, 1);
    var x := FMul(p, FSub(p, 0, q), 1);
    assert SharesInv(p, 2) == x;
    assert 2 * x == x + x;
  }

  // ---- Linear steps

  lemma AddLinear(p: int, a0: int, a1: int, a: int, b0: int, b1: int, b: int)
    requires p > 0 && Cong(p, a0 + a1, a) && Cong(p, b0 + b1, b)
    ensures Cong(p, FAdd(p, a0, b0) + FAdd(p, a1, b1), FAdd(p, a, b))
  {
    CongMod(p, a0 + b0);
    CongMod(p, a1 + b1);
    CongMod(p, a + b);
    CongAdd(p, FAdd(p, a0, b0), a0 + b0, FAdd(p, a1, b1), a1 + b1);
    CongAdd(p, a0 + a1, a, b0 + b1, b);
  }

  lemma SubLinear(p: int, a0: int, a1: int, a: int, b0: int, b1: int, b: int)
    requires p > 0 && Cong(p, a0 + a1, a) && Cong(p, b0 + b1, b)
    ensures Cong(p, FSub(p, a0, b0) + FSub(p, a1, b1), FSub(p, a, b))
  {
    CongMod(p, a0 - b0);
    CongMod(p, a1 - b1);
    CongMod(p, a - b);
    CongAdd(p, FSub(p, a0, b0), a0 - b0, FSub(p, a1, b1), a1 - b1);
    CongSub(p, a0 + a1, a, b0 + b1, b);
  }

  lemma ScaleLinear(p: int, c: int, a0: int, a1: int, a: int)
    requires p > 0 && Cong(p, a0 + a1, a)
    ensures Cong(p, FMul(p, c, a0) + FMul(p, c, a1), FMul(p, c, a))
  {
    CongMod(p, c * a0);
    CongMod(p, c * a1);
    CongMod(p, c * a);
    CongAdd(p, FMul(p, c, a0), c * a0, FMul(p, c, a1), c * a1);
    CongMulL(p, c, a0 + a1, a);
    assert c * (a0 + a1) == c * a0 + c * a1;
  }

  lemma ModLinear(p: int, a0: int, a1: int, a: int)
    requires p > 0 && Cong(p, a0 + a1, a)
    ensures Cong(p, a0 % p + a1 % p, a % p)
  {
    CongMod(p, a0);
    CongMod(p, a1);
    CongMod(p, a);
    CongAdd(p, a0 % p, a0, a1 % p, a1);
  }

  lemma {:induction false} BitsValueLinear(p: int, b0: seq<int>, b1: seq<int>, b: seq<int>)
    requires p > 0 && SharesOf(p, b0, b1, b)
    ensures Cong(p, BitsValue(b0) + BitsValue(b1), BitsValue(b))
  {
    if b != [] {
      SharesOfSlice(p, b0, b1, b, 1, |b|);
      assert b0[1..|b|] == b0[1..] && b1[1..|b|] == b1[1..] && b[1..|b|] == b[1..];
      BitsValueLinear(p, b0[1..], b1[1..], b[1..]);
      CongMulL(p, 2, BitsValue(b0[1..]) + BitsValue(b1[1..]), BitsValue(b[1..]));
      CongAdd(p, b0[0] + b1[0], b[0], 2 * (BitsValue(b0[1..]) + BitsValue(b1[1..])), 2 * BitsValue(b[1..]));
    }
  }

  lemma DecodeLinear(p: int, b0: seq<int>, b1: seq<int>, b: seq<int>)
    requires p > 0 && SharesOf(p, b0, b1, b)
    ensures Cong(p, DecodeBits(p, b0) + DecodeBits(p, b1), DecodeBits(p, b))
  {
    BitsValueLinear(p, b0, b1, b);
    ModLinear(p, BitsValue(b0), BitsValue(b1), BitsValue(b));
  }

  // ---- Wires

  lemma ConsShares(p: int, a0: seq<int>, a1: seq<int>, a: seq<int>, b0: seq<int>, b1: seq<int>, b: seq<int>)
    requires p > 0 && SharesOf(p, a0, a1, a) && SharesOf(p, b0, b1, b)
    ensures SharesOf(p, a0 + b0, a1 + b1, a + b)
  {
    forall i | 0 <= i < |a + b| ensures Cong(p, (a0 + b0)[i] + (a1 + b1)[i], (a + b)[i]) {
      if i < |a| {
        assert Cong(p, a0[i] + a1[i], a[i]);
      } else {
        assert Cong(p, b0[i - |a|] + b1[i - |a|], b[i - |a|]);
      }
    }
  }

  lemma {:induction false} BitWiresLinear(p: int, b0: seq<int>, b1: seq<int>, b: seq<int>,
                                          r: int, s0: int, s1: int, s: int, pw: int)
    requires p > 0 && SharesOf(p, b0, b1, b) && Cong(p, s0 + s1, s)
    ensures SharesOf(p, BitWires(p, b0, r, s0, pw), BitWires(p, b1, r, s1, pw), BitWires(p, b, r, s, pw))
  {
    if b != [] {
      SharesOfSlice(p, b0, b1, b, 1, |b|);
      assert b0[1..|b|] == b0[1..] && b1[1..|b|] == b1[1..] && b[1..|b|] == b[1..];
      var pw' := FMul(p, pw, r);
      BitWiresLinear(p, b0[1..], b1[1..], b[1..], r, s0, s1, s, pw');
      ScaleLinear(p, pw, b0[0], b1[0], b[0]);
      SubLinear(p, b0[0], b1[0], b[0], s0, s1, s);
      ConsShares(p, [FMul(p, pw, b0[0]), FSub(p, b0[0], s0)], [FMul(p, pw, b1[0]), FSub(p, b1[0], s1)],
                 [FMul(p, pw, b[0]), FSub(p, b[0], s)],
                 BitWires(p, b0[1..], r, s0, pw'), BitWires(p, b1[1..], r, s1, pw'), BitWires(p, b[1..], r, s, pw'));
    }
  }

  lemma WrGapLinear(p: int, t: PineType, b0: seq<int>, b1: seq<int>, b: seq<int>,
                    y0: int, y1: int, y: int, s0: int, s1: int, s: int)
    requires p > 0 && |b| == t.wrTestBits + 1
    requires SharesOf(p, b0, b1, b) && Cong(p, y0 + y1, y) && Cong(p, s0 + s1, s)
    ensures Cong(p, WrGap(p, t, b0, y0, s0) + WrGap(p, t, b1, y1, s1), WrGap(p, t, b, y, s))
  {
    var n := t.wrTestBits;
    SharesOfSlice(p, b0, b1, b, 0, n);
    assert b0[0..n] == b0[..n] && b1[0..n] == b1[..n] && b[0..n] == b[..n];
    DecodeLinear(p, b0[..n], b1[..n], b[..n]);
    var v0, v1, v := DecodeBits(p, b0[..n]), DecodeBits(p, b1[..n]), DecodeBits(p, b[..n]);
    SubLinear(p, y0, y1, y, v0, v1, v);
    ScaleLinear(p, FSub(p, t.wrTestBound, 1), s0, s1, s);
    AddLinear(p, FSub(p, y0, v0), FSub(p, y1, v1), FSub(p, y, v),
              WrBoundTerm(p, t, s0), WrBoundTerm(p, t, s1), WrBoundTerm(p, t, s));
  }

  lemma {:induction false} WrWiresLinear(p: int, t: PineType, b0: seq<int>, b1: seq<int>, b: seq<int>,
                                         y0: seq<int>, y1: seq<int>, y: seq<int>,
                                         r: int, s0: int, s1: int, s: int, pw: int)
    requires p > 0 && |b| == Times(|y|, t.wrTestBits + 1)
    requires SharesOf(p, b0, b1, b) && SharesOf(p, y0, y1, y) && Cong(p, s0 + s1, s)
    ensures SharesOf(p, WrWires(p, t, b0, y0, r, s0, pw), WrWires(p, t, b1, y1, r, s1, pw),
                     WrWires(p, t, b, y, r, s, pw))
    decreases |y|
  {
    if y != [] {
      var n := t.wrTestBits + 1;
      SharesOfSlice(p, b0, b1, b, 0, n);
      SharesOfSlice(p, b0, b1, b, n, |b|);
      SharesOfSlice(p, y0, y1, y, 1, |y|);
      assert b0[0..n] == b0[..n] && b1[0..n] == b1[..n] && b[0..n] == b[..n];
      assert b0[n..|b|] == b0[n..] && b1[n..|b|] == b1[n..] && b[n..|b|] == b[n..];
      assert y0[1..|y|] == y0[1..] && y1[1..|y|] == y1[1..] && y[1..|y|] == y[1..];
      var pw' := FMul(p, pw, r);
      WrWiresLinear(p, t, b0[n..], b1[n..], b[n..], y0[1..], y1[1..], y[1..], r, s0, s1, s, pw');
      var g0, g1, g := WrGap(p, t, b0[..n], y0[0], s0), WrGap(p, t, b1[..n], y1[0], s1), WrGap(p, t, b[..n], y[0], s);
      WrGapLinear(p, t, b0[..n], b1[..n], b[..n], y0[0], y1[0], y[0], s0, s1, s);
      ScaleLinear(p, pw, g0, g1, g);
      ConsShares(p, [FMul(p, pw, g0), b0[n - 1]], [FMul(p, pw, g1), b1[n - 1]], [FMul(p, pw, g), b[n - 1]],
                 WrWires(p, t, b0[n..], y0[1..], r, s0, pw'), WrWires(p, t, b1[n..], y1[1..], r, s1, pw'),
                 WrWires(p, t, b[n..], y[1..], r, s, pw'));
    }
  }

  lemma {:induction false} SuccessSumLinear(p: int, t: PineType, b0: seq<int>, b1: seq<int>, b: seq<int>, tests: nat)
    requires p > 0 && |b| == Times(tests, t.wrTestBits + 1) && SharesOf(p, b0, b1, b)
    ensures Cong(p, SuccessSum(t, b0, tests) + SuccessSum(t, b1, tests), SuccessSum(t, b, tests))
  {
    if tests > 0 {
      var n := t.wrTestBits + 1;
      SharesOfSlice(p, b0, b1, b, n, |b|);
      assert b0[n..|b|] == b0[n..] && b1[n..|b|] == b1[n..] && b[n..|b|] == b[n..];
      SuccessSumLinear(p, t, b0[n..], b1[n..], b[n..], tests - 1);
      CongAdd(p, b0[n - 1] + b1[n - 1], b[n - 1],
              SuccessSum(t, b0[n..], tests - 1) + SuccessSum(t, b1[n..], tests - 1),
              SuccessSum(t, b[n..], tests - 1));
    }
  }

  lemma {:induction false} ChunkPadLinear(p: int, w: nat, x0: seq<int>, x1: seq<int>, x: seq<int>)
    requires p > 0 && w > 0 && SharesOf(p, x0, x1, x)
    ensures CallSharesOf(p, ChunkPad(w, x0), ChunkPad(w, x1), ChunkPad(w, x))
    decreases |x|
  {
    if x == [] {
    } else if |x| <= w {
      var z := Zeros(w - |x|);
      assert SharesOf(p, z, z, z);
      ConsShares(p, x0, x1, x, z, z, z);
    } else {
      SharesOfSlice(p, x0, x1, x, 0, w);
      SharesOfSlice(p, x0, x1, x, w, |x|);
      assert x0[0..w] == x0[..w] && x1[0..w] == x1[..w] && x[0..w] == x[..w];
      assert x0[w..|x|] == x0[w..] && x1[w..|x|] == x1[w..] && x[w..|x|] == x[w..];
      ChunkPadLinear(p, w, x0[w..], x1[w..], x[w..]);
    }
  }

  // ---- Number of calls

  lemma {:induction false} ChunkPadCount(c: nat, m: nat, xs: seq<int>, n: nat)
    requires c > 0 && m > 0 && |xs| == m * n
    ensures |ChunkPad(m * c, xs)| == ChunkCount(c, n)
    decreases n
  {
    Positive(m, c);
    if n == 0 {
      CountNone(c);
    } else if n <= c {
      CountOne(c, n);
      Positive(m, n);
      Positive(m, c - n);
      SplitLength(m, c, n);
    } else {
      Positive(m, n - c);
      SplitLength(m, n, c);
      ChunkPadCount(c, m, xs[m * c..], n - c);
      CountMore(c, n);
    }
  }

  lemma Positive(m: nat, n: nat)
    ensures m > 0 && n > 0 ==> m * n > 0
  {
  }

  lemma SplitLength(m: nat, n: nat, c: nat)
    requires c <= n
    ensures m * n == m * c + m * (n - c)
  {
  }

  lemma CountNone(c: nat)
    requires c > 0
    ensures ChunkCount(c, 0) == 0
  {
    ModUnique(c, c - 1, 0, c - 1);
  }

  lemma CountOne(c: nat, n: nat)
    requires 0 < n <= c
    ensures ChunkCount(c, n) == 1
  {
    ModUnique(c, n + c - 1, 1, n - 1);
  }

  lemma CountMore(c: nat, n: nat)
    requires 0 < c < n
    ensures ChunkCount(c, n) == 1 + ChunkCount(c, n - c)
  {
    var q, r := (n - 1) / c, (n - 1) % c;
    assert n + c - 1 == (q + 1) * c + r;
    ModUnique(c, n + c - 1, q + 1, r);
  }

  // ---- Answers and outputs

  /** The answers to the share calls add up to those of the plain calls, starting at call `k`. */
  ghost predicate AnswersAdd(p: int, k: nat, f0: Answers, c0: seq<seq<int>>, f1: Answers, c1: seq<seq<int>>,
                             f: Answers, c: seq<seq<int>>)
    requires p > 0
  {
    && |c0| == |c1| == |c|
    && forall i: nat | i < |c| :: Cong(p, f0(k + i, c0[i]) + f1(k + i, c1[i]), f(k + i, c[i]))
  }

  lemma {:induction false} SumAnswersLinear(p: int, k: nat, f0: Answers, c0: seq<seq<int>>, f1: Answers,
                                            c1: seq<seq<int>>,
                                            f: Answers, c: seq<seq<int>>)
    requires p > 0 && AnswersAdd(p, k, f0, c0, f1, c1, f, c)
    ensures Cong(p, SumAnswers(f0, k, c0) + SumAnswers(f1, k, c1), SumAnswers(f, k, c))
    decreases |c|
  {
    if c != [] {
      assert Cong(p, f0(k + 0, c0[0]) + f1(k + 0, c1[0]), f(k + 0, c[0]));
      forall i: nat | i < |c| - 1
        ensures Cong(p, f0(k + 1 + i, c0[1..][i]) + f1(k + 1 + i, c1[1..][i]), f(k + 1 + i, c[1..][i]))
      {
        assert Cong(p, f0(k + (i + 1), c0[i + 1]) + f1(k + (i + 1), c1[i + 1]), f(k + (i + 1), c[i + 1]));
      }
      SumAnswersLinear(p, k + 1, f0, c0[1..], f1, c1[1..], f, c[1..]);
      CongAdd(p, f0(k, c0[0]) + f1(k, c1[0]), f(k, c[0]),
              SumAnswers(f0, k + 1, c0[1..]) + SumAnswers(f1, k + 1, c1[1..]), SumAnswers(f, k + 1, c[1..]));
    }
  }

  lemma CombineLinear(p: int, a0: int, a1: int, a: int, n0: int, n1: int, n: int,
                      w0: int, w1: int, w: int, c0: int, c1: int, c: int, r: int)
    requires p > 0
    requires Cong(p, a0 + a1, a) && Cong(p, n0 + n1, n) && Cong(p, w0 + w1, w) && Cong(p, c0 + c1, c)
    ensures Cong(p, Combine(p, a0, n0, w0, c0, r) + Combine(p, a1, n1, w1, c1, r), Combine(p, a, n, w, c, r))
  {
    var r2 := FMul(p, r, r);
    var r3 := FMul(p, r2, r);
    ScaleLinear(p, r, n0, n1, n);
    ScaleLinear(p, r2, w0, w1, w);
    ScaleLinear(p, r3, c0, c1, c);
    AddLinear(p, a0, a1, a, FMul(p, r, n0), FMul(p, r, n1), FMul(p, r, n));
    var x0, x1, x := FAdd(p, a0, FMul(p, r, n0)), FAdd(p, a1, FMul(p, r, n1)), FAdd(p, a, FMul(p, r, n));
    AddLinear(p, x0, x1, x, FMul(p, r2, w0), FMul(p, r2, w1), FMul(p, r2, w));
    AddLinear(p, FAdd(p, x0, FMul(p, r2, w0)), FAdd(p, x1, FMul(p, r2, w1)), FAdd(p, x, FMul(p, r2, w)),
              FMul(p, r3, c0), FMul(p, r3, c1), FMul(p, r3, c));
  }

  /** The components of shares of a measurement are shares of its components. */
  lemma LayoutShares(p: int, t: PineType, m0: seq<int>, m1: seq<int>, m: seq<int>)
    requires p > 0 && Layout(t, m) && SharesOf(p, m0, m1, m)
    ensures SharesOf(p, BitChecked(t, m0), BitChecked(t, m1), BitChecked(t, m))
    ensures SharesOf(p, WrResults(t, m0), WrResults(t, m1), WrResults(t, m))
    ensures SharesOf(p, WrBits(t, m0), WrBits(t, m1), WrBits(t, m))
    ensures SharesOf(p, VBits(t, m0), VBits(t, m1), VBits(t, m))
    ensures SharesOf(p, UBits(t, m0), UBits(t, m1), UBits(t, m))
  {
    var d, e := t.dimension, t.dimension + t.bitCheckedLen;
    SharesOfSlice(p, m0, m1, m, d, e);
    SharesOfSlice(p, m0, m1, m, e, |m|);
    assert m0[e..|m|] == m0[e..] && m1[e..|m|] == m1[e..] && m[e..|m|] == m[e..];
    var b0, b1, b := BitChecked(t, m0), BitChecked(t, m1), BitChecked(t, m);
    var k := t.sqNormBits;
    SharesOfSlice(p, b0, b1, b, 0, k);
    SharesOfSlice(p, b0, b1, b, k, 2 * k);
    SharesOfSlice(p, b0, b1, b, 2 * k, |b|);
    assert b0[0..k] == b0[..k] && b1[0..k] == b1[..k] && b[0..k] == b[..k];
    assert b0[2 * k..|b|] == b0[2 * k..] && b1[2 * k..|b|] == b1[2 * k..] && b[2 * k..|b|] == b[2 * k..];
  }

  /**
  On two shares the main circuit makes exactly `gadgetCalls` calls, as on the plain
  measurement, and the wires of corresponding calls add up.
  */
  lemma MainCallsLinear(p: int, t: PineType, m0: seq<int>, m1: seq<int>, m: seq<int>, jr: seq<int>)
    requires p > 1 && p % 2 == 1 && t.Valid(p) && Layout(t, m) && |jr| == 3
    requires SharesOf(p, m0, m1, m)
    ensures CallSharesOf(p, MainCalls(p, t, m0, jr, 2), MainCalls(p, t, m1, jr, 2), MainCalls(p, t, m, jr, 1))
    ensures |MainCalls(p, t, m, jr, 1)| == t.gadgetCalls
    ensures |BitCalls(p, t, m0, jr[0], SharesInv(p, 2))| == |BitCalls(p, t, m1, jr[0], SharesInv(p, 2))|
         == |BitCalls(p, t, m, jr[0], 1)|
  {
    var s := SharesInv(p, 2);
    SharesInvSum(p);
    LayoutShares(p, t, m0, m1, m);
    BitWiresLinear(p, BitChecked(t, m0), BitChecked(t, m1), BitChecked(t, m), jr[0], s, s, 1, 1);
    ChunkPadLinear(p, 2 * t.chunkLen, BitWires(p, BitChecked(t, m0), jr[0], s, 1),
                   BitWires(p, BitChecked(t, m1), jr[0], s, 1), BitWires(p, BitChecked(t, m), jr[0], 1, 1));
    WrWiresLinear(p, t, WrBits(t, m0), WrBits(t, m1), WrBits(t, m),
                  WrResults(t, m0), WrResults(t, m1), WrResults(t, m), jr[1], s, s, 1, 1);
    ChunkPadLinear(p, 2 * t.chunkLen, WrWires(p, t, WrBits(t, m0), WrResults(t, m0), jr[1], s, 1),
                   WrWires(p, t, WrBits(t, m1), WrResults(t, m1), jr[1], s, 1),
                   WrWires(p, t, WrBits(t, m), WrResults(t, m), jr[1], 1, 1));
    ChunkPadCount(t.chunkLen, 2, BitWires(p, BitChecked(t, m), jr[0], 1, 1), t.bitCheckedLen);
    ChunkPadCount(t.chunkLen, 2, WrWires(p, t, WrBits(t, m), WrResults(t, m), jr[1], 1, 1), t.numWrTests);
  }

  lemma {:induction false} PartLinear(p: int, k: nat, f0: Answers, c0: seq<seq<int>>, f1: Answers, c1: seq<seq<int>>,
                                      f: Answers,
                   c: seq<seq<int>>)
    requires p > 0 && AnswersAdd(p, k, f0, c0, f1, c1, f, c)
    ensures Cong(p, SumAnswers(f0, k, c0) % p + SumAnswers(f1, k, c1) % p, SumAnswers(f, k, c) % p)
  {
    SumAnswersLinear(p, k, f0, c0, f1, c1, f, c);
    ModLinear(p, SumAnswers(f0, k, c0), SumAnswers(f1, k, c1), SumAnswers(f, k, c));
  }

  /** The four partial results of the main circuit when the gadget answers `f`. */
  ghost function Checks(p: int, t: PineType, f: Answers, meas: seq<int>, jr: seq<int>, s: int): (int, int, int, int)
    requires p > 0 && Layout(t, meas) && |jr| == 3
  {
    var bitCalls := BitCalls(p, t, meas, jr[0], s);
    (SumAnswers(f, 0, bitCalls) % p,
     NormRangeCheck(p, t, VBits(t, meas), UBits(t, meas), s),
     SumAnswers(f, |bitCalls|, WrCalls(p, t, meas, jr[1], s)) % p,
     SuccessCheck(p, t, WrBits(t, meas), s))
  }

  ghost predicate ChecksAdd(p: int, x0: (int, int, int, int), x1: (int, int, int, int), x: (int, int, int, int))
    requires p > 0
  {
    && Cong(p, x0.0 + x1.0, x.0) && Cong(p, x0.1 + x1.1, x.1)
    && Cong(p, x0.2 + x1.2, x.2) && Cong(p, x0.3 + x1.3, x.3)
  }

  lemma AnswersLinear(p: int, t: PineType, f0: Answers, f1: Answers, f: Answers,
                      m0: seq<int>, m1: seq<int>, m: seq<int>, jr: seq<int>)
    requires p > 1 && p % 2 == 1 && t.Valid(p) && Layout(t, m) && |jr| == 3
    requires SharesOf(p, m0, m1, m)
    requires AnswersAdd(p, 0, f0, MainCalls(p, t, m0, jr, 2), f1, MainCalls(p, t, m1, jr, 2),
                        f, MainCalls(p, t, m, jr, 1))
    ensures var s := SharesInv(p, 2);
            var x0, x1, x := Checks(p, t, f0, m0, jr, s), Checks(p, t, f1, m1, jr, s), Checks(p, t, f, m, jr, 1);
            Cong(p, x0.0 + x1.0, x.0) && Cong(p, x0.2 + x1.2, x.2)
  {
    var s := SharesInv(p, 2);
    MainCallsLinear(p, t, m0, m1, m, jr);
    var b0, b1, b := BitCalls(p, t, m0, jr[0], s), BitCalls(p, t, m1, jr[0], s), BitCalls(p, t, m, jr[0], 1);
    var w0, w1, w := WrCalls(p, t, m0, jr[1], s), WrCalls(p, t, m1, jr[1], s), WrCalls(p, t, m, jr[1], 1);
    SplitAnswers(p, f0, b0, w0, f1, b1, w1, f, b, w);
    PartLinear(p, 0, f0, b0, f1, b1, f, b);
    PartLinear(p, |b|, f0, w0, f1, w1, f, w);
  }

  lemma LocalChecksLinear(p: int, t: PineType, m0: seq<int>, m1: seq<int>, m: seq<int>)
    requires p > 1 && p % 2 == 1 && Layout(t, m) && SharesOf(p, m0, m1, m)
    ensures var s := SharesInv(p, 2);
            && Cong(p, NormRangeCheck(p, t, VBits(t, m0), UBits(t, m0), s)
                       + NormRangeCheck(p, t, VBits(t, m1), UBits(t, m1), s),
                    NormRangeCheck(p, t, VBits(t, m), UBits(t, m), 1))
            && Cong(p, SuccessCheck(p, t, WrBits(t, m0), s) + SuccessCheck(p, t, WrBits(t, m1), s),
                    SuccessCheck(p, t, WrBits(t, m), 1))
  {
    var s := SharesInv(p, 2);
    SharesInvSum(p);
    LayoutShares(p, t, m0, m1, m);
    NormCheckLinear(p, t, VBits(t, m0), VBits(t, m1), VBits(t, m), UBits(t, m0), UBits(t, m1), UBits(t, m), s);
    SuccessCheckLinear(p, t, WrBits(t, m0), WrBits(t, m1), WrBits(t, m), s);
  }

  lemma ChecksLinear(p: int, t: PineType, f0: Answers, f1: Answers, f: Answers,
                     m0: seq<int>, m1: seq<int>, m: seq<int>, jr: seq<int>)
    requires p > 1 && p % 2 == 1 && t.Valid(p) && Layout(t, m) && |jr| == 3
    requires SharesOf(p, m0, m1, m)
    requires AnswersAdd(p, 0, f0, MainCalls(p, t, m0, jr, 2), f1, MainCalls(p, t, m1, jr, 2),
                        f, MainCalls(p, t, m, jr, 1))
    ensures var s := SharesInv(p, 2);
            ChecksAdd(p, Checks(p, t, f0, m0, jr, s), Checks(p, t, f1, m1, jr, s), Checks(p, t, f, m, jr, 1))
  {
    AnswersLinear(p, t, f0, f1, f, m0, m1, m, jr);
    LocalChecksLinear(p, t, m0, m1, m);
  }

  /** If the gadget answers add up, so do the outputs of the main circuit. */
  lemma MainValidLinear(p: int, t: PineType, f0: Answers, f1: Answers, f: Answers,
                        m0: seq<int>, m1: seq<int>, m: seq<int>, jr: seq<int>)
    requires p > 1 && p % 2 == 1 && t.Valid(p) && Layout(t, m) && |jr| == 3
    requires SharesOf(p, m0, m1, m)
    requires AnswersAdd(p, 0, f0, MainCalls(p, t, m0, jr, 2), f1, MainCalls(p, t, m1, jr, 2),
                        f, MainCalls(p, t, m, jr, 1))
    ensures Cong(p, MainValid(p, t, f0, m0, jr, 2) + MainValid(p, t, f1, m1, jr, 2), MainValid(p, t, f, m, jr, 1))
  {
    var s := SharesInv(p, 2);
    ChecksLinear(p, t, f0, f1, f, m0, m1, m, jr);
    var x0, x1, x := Checks(p, t, f0, m0, jr, s), Checks(p, t, f1, m1, jr, s), Checks(p, t, f, m, jr, 1);
    CombineChecks(p, x0, x1, x, jr[2]);
  }

  lemma CombineChecks(p: int, x0: (int, int, int, int), x1: (int, int, int, int), x: (int, int, int, int), r: int)
    requires p > 0
    requires ChecksAdd(p, x0, x1, x)
    ensures Cong(p, Combine(p, x0.0, x0.1, x0.2, x0.3, r) + Combine(p, x1.0, x1.1, x1.2, x1.3, r),
                 Combine(p, x.0, x.1, x.2, x.3, r))
  {
    CombineLinear(p, x0.0, x1.0, x.0, x0.1, x1.1, x.1, x0.2, x1.2, x.2, x0.3, x1.3, x.3, r);
  }

  lemma SplitAnswers(p: int, f0: Answers, b0: seq<seq<int>>, w0: seq<seq<int>>, f1: Answers, b1: seq<seq<int>>,
                     w1: seq<seq<int>>,
                     f: Answers, b: seq<seq<int>>, w: seq<seq<int>>)
    requires p > 0 && |b0| == |b1| == |b| && |w0| == |w1| == |w|
    requires AnswersAdd(p, 0, f0, b0 + w0, f1, b1 + w1, f, b + w)
    ensures AnswersAdd(p, 0, f0, b0, f1, b1, f, b) && AnswersAdd(p, |b|, f0, w0, f1, w1, f, w)
  {
    forall i: nat | i < |b| ensures Cong(p, f0(0 + i, b0[i]) + f1(0 + i, b1[i]), f(0 + i, b[i])) {
      assert Cong(p, f0(0 + i, (b0 + w0)[i]) + f1(0 + i, (b1 + w1)[i]), f(0 + i, (b + w)[i]));
    }
    forall i: nat | i < |w| ensures Cong(p, f0(|b| + i, w0[i]) + f1(|b| + i, w1[i]), f(|b| + i, w[i])) {
      var j := |b| + i;
      assert Cong(p, f0(0 + j, (b0 + w0)[j]) + f1(0 + j, (b1 + w1)[j]), f(0 + j, (b + w)[j]));
    }
  }

  lemma NormCheckLinear(p: int, t: PineType, v0: seq<int>, v1: seq<int>, v: seq<int>,
                        u0: seq<int>, u1: seq<int>, u: seq<int>, s: int)
    requires p > 0 && SharesOf(p, v0, v1, v) && SharesOf(p, u0, u1, u) && Cong(p, s + s, 1)
    ensures Cong(p, NormRangeCheck(p, t, v0, u0, s) + NormRangeCheck(p, t, v1, u1, s), NormRangeCheck(p, t, v, u, 1))
  {
    DecodeLinear(p, v0, v1, v);
    DecodeLinear(p, u0, u1, u);
    var x0, x1, x := DecodeBits(p, v0), DecodeBits(p, v1), DecodeBits(p, v);
    var y0, y1, y := DecodeBits(p, u0), DecodeBits(p, u1), DecodeBits(p, u);
    AddLinear(p, x0, x1, x, y0, y1, y);
    ScaleLinear(p, t.sqNormBound, s, s, 1);
    SubLinear(p, FAdd(p, x0, y0), FAdd(p, x1, y1), FAdd(p, x, y),
              FMul(p, t.sqNormBound, s), FMul(p, t.sqNormBound, s), FMul(p, t.sqNormBound, 1));
  }

  lemma SuccessCheckLinear(p: int, t: PineType, b0: seq<int>, b1: seq<int>, b: seq<int>, s: int)
    requires p > 0 && |b| == Times(t.numWrTests, t.wrTestBits + 1)
    requires SharesOf(p, b0, b1, b) && Cong(p, s + s, 1)
    ensures Cong(p, SuccessCheck(p, t, b0, s) + SuccessCheck(p, t, b1, s), SuccessCheck(p, t, b, 1))
  {
    var n := t.numWrSuccesses;
    SuccessSumLinear(p, t, b0, b1, b, t.numWrTests);
    CongMulL(p, n, s + s, 1);
    assert n * (s + s) == n * s + n * s;
    SubLinear(p, SuccessSum(t, b0, t.numWrTests), SuccessSum(t, b1, t.numWrTests), SuccessSum(t, b, t.numWrTests),
              n * s, n * s, n * 1);
  }

  /** Share linearity of the squared-norm equality circuit. */
  lemma SqNormLinear(p: int, q: SqNormType, t: PineType, f0: Answers, f1: Answers, f: Answers,
                     m0: seq<int>, m1: seq<int>, m: seq<int>)
    requires p > 1 && q.Valid(t) && Layout(t, m) && SharesOf(p, m0, m1, m)
    ensures CallSharesOf(p, SqNormCalls(q, m0), SqNormCalls(q, m1), SqNormCalls(q, m))
    ensures |SqNormCalls(q, m)| == q.gadgetCalls
    ensures AnswersAdd(p, 0, f0, SqNormCalls(q, m0), f1, SqNormCalls(q, m1), f, SqNormCalls(q, m)) ==>
              Cong(p, SqNormValid(p, q, f0, m0) + SqNormValid(p, q, f1, m1), SqNormValid(p, q, f, m))
  {
    var d, e := q.dimension, q.dimension + q.sqNormBits;
    SharesOfSlice(p, m0, m1, m, 0, d);
    SharesOfSlice(p, m0, m1, m, d, e);
    assert m0[0..d] == m0[..d] && m1[0..d] == m1[..d] && m[0..d] == m[..d];
    ChunkPadLinear(p, q.chunkLen, m0[..d], m1[..d], m[..d]);
    ChunkPadCount(q.chunkLen, 1, m[..d], d);
    var c0, c1, c := SqNormCalls(q, m0), SqNormCalls(q, m1), SqNormCalls(q, m);
    if AnswersAdd(p, 0, f0, c0, f1, c1, f, c) {
      SumAnswersLinear(p, 0, f0, c0, f1, c1, f, c);
      ModLinear(p, SumAnswers(f0, 0, c0), SumAnswers(f1, 0, c1), SumAnswers(f, 0, c));
      DecodeLinear(p, m0[d..e], m1[d..e], m[d..e]);
      SubLinear(p, DecodeBits(p, m0[d..e]), DecodeBits(p, m1[d..e]), DecodeBits(p, m[d..e]),
                SumAnswers(f0, 0, c0) % p, SumAnswers(f1, 0, c1) % p, SumAnswers(f, 0, c) % p);
    }
  }
}
