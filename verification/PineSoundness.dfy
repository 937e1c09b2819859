/**
Soundness of the PINE circuits. Evaluated by the prover, the chunked and padded
circuit is a polynomial in its joint randomness; a measurement that breaks one of
the checked conditions makes that polynomial nonzero, so few choices of joint
randomness accept it.
*/
module PineSoundness {
  import opened Arithmetic
  import opened PrimeField
  import opened Cardinality
  import opened PineParams
  import opened PineCircuit

  // ---- Closed forms

  ghost function BitCoefs(bits: seq<int>, s: int): (c: seq<int>)
    ensures |c| == |bits|
  {
    seq(|bits|, i requires 0 <= i < |bits| => bits[i] * (bits[i] - s))
  }

  /** Coefficients of the wraparound polynomial: success bit times gap, one per test. */
  ghost function WrCoefs(p: int, t: PineType, wrBits: seq<int>, results: seq<int>, s: int): (c: seq<int>)
    requires p > 0
    requires |wrBits| == Times(|results|, t.wrTestBits + 1)
    ensures |c| == |results|
    decreases |results|
  {
    if results == [] then []
    else
      var n := t.wrTestBits + 1;
      [WrGap(p, t, wrBits[..n], results[0], s) * wrBits[n - 1]]
      + WrCoefs(p, t, wrBits[n..], results[1..], s)
  }

  /** One Horner step with reduced factors. */
  lemma HornerStep(p: int, pw: int, r: int, a: int, b: int, a': int, b': int, rest: int, e: int)
    requires p > 0
    requires Cong(p, a, pw * a') && Cong(p, b, b')
    requires Cong(p, rest, FMul(p, pw, r) * e)
    ensures Cong(p, a * b + rest, pw * (a' * b' + r * e))
  {
    CongMul(p, a, pw * a', b, b');
    CongMod(p, pw * r);
    CongMul(p, FMul(p, pw, r), pw * r, e, e);
    CongAdd(p, a * b, pw * a' * b', rest, pw * r * e);
    assert pw * (a' * b' + r * e) == pw * a' * b' + pw * r * e by {
      assert pw * (a' * b') == pw * a' * b';
      assert pw * (r * e) == pw * r * e;
    }
  }

  lemma {:induction false} BitWiresSum(p: int, bits: seq<int>, r: int, s: int, pw: int)
    requires p > 0
    ensures Cong(p, MulSum(BitWires(p, bits, r, s, pw)), pw * Eval(BitCoefs(bits, s), r))
  {
    if bits != [] {
      var pw' := FMul(p, pw, r);
      var x := bits[0];
      BitWiresSum(p, bits[1..], r, s, pw');
      CongMod(p, pw * x);
      CongMod(p, x - s);
      assert BitCoefs(bits, s)[1..] == BitCoefs(bits[1..], s);
      assert BitWires(p, bits, r, s, pw)[2..] == BitWires(p, bits[1..], r, s, pw');
      HornerStep(p, pw, r, FMul(p, pw, x), FSub(p, x, s), x, x - s,
                 MulSum(BitWires(p, bits[1..], r, s, pw')), Eval(BitCoefs(bits[1..], s), r));
    } else {
      assert pw * 0 == 0;
    }
  }

  lemma {:induction false} WrWiresSum(p: int, t: PineType, wrBits: seq<int>, results: seq<int>, r: int, s: int, pw: int)
    requires p > 0
    requires |wrBits| == Times(|results|, t.wrTestBits + 1)
    ensures Cong(p, MulSum(WrWires(p, t, wrBits, results, r, s, pw)), pw * Eval(WrCoefs(p, t, wrBits, results, s), r))
    decreases |results|
  {
    if results != [] {
      var n := t.wrTestBits + 1;
      var pw' := FMul(p, pw, r);
      var gap, g := WrGap(p, t, wrBits[..n], results[0], s), wrBits[n - 1];
      WrWiresSum(p, t, wrBits[n..], results[1..], r, s, pw');
      CongMod(p, pw * gap);
      var rest := WrWires(p, t, wrBits[n..], results[1..], r, s, pw');
      assert WrWires(p, t, wrBits, results, r, s, pw)[2..] == rest;
      var coefs := WrCoefs(p, t, wrBits, results, s);
      assert coefs[1..] == WrCoefs(p, t, wrBits[n..], results[1..], s);
      HornerStep(p, pw, r, FMul(p, pw, gap), g, gap, g, MulSum(rest), Eval(coefs[1..], r));
    } else {
      assert pw * 0 == 0;
    }
  }

  lemma {:induction false} MulSumConcat(a: seq<int>, b: seq<int>)
    requires |a| % 2 == 0
    ensures MulSum(a + b) == MulSum(a) + MulSum(b)
  {
    if a == [] {
      assert a + b == b;
    } else {
      MulSumConcat(a[2..], b);
      assert (a + b)[2..] == a[2..] + b;
    }
  }

  lemma {:induction false} MulSumZeros(n: nat)
    ensures MulSum(Zeros(n)) == 0
  {
    if n >= 2 {
      MulSumZeros(n - 2);
      assert Zeros(n)[2..] == Zeros(n - 2);
    }
  }

  /** Chunking and padding do not change what the multiplication gadget computes. */
  lemma {:induction false} MulAnswers(p: int, c: nat, xs: seq<int>, k: nat)
    requires p > 0 && c > 0 && |xs| % 2 == 0
    ensures Cong(p, SumAnswers(MulGadget(p), k, ChunkPad(2 * c, xs)), MulSum(xs))
    decreases |xs|
  {
    if xs == [] {
    } else if |xs| <= 2 * c {
      LastAnswer(p, c, xs, k);
    } else {
      MulAnswers(p, c, xs[2 * c..], k + 1);
      FirstAnswer(p, c, xs, k);
    }
  }

  lemma {:induction false} LastAnswer(p: int, c: nat, xs: seq<int>, k: nat)
    requires p > 0 && 0 < |xs| <= 2 * c && |xs| % 2 == 0
    ensures Cong(p, SumAnswers(MulGadget(p), k, ChunkPad(2 * c, xs)), MulSum(xs))
  {
    var padded := xs + Zeros(2 * c - |xs|);
    MulSumConcat(xs, Zeros(2 * c - |xs|));
    MulSumZeros(2 * c - |xs|);
    assert ChunkPad(2 * c, xs)[1..] == [];
    CongMod(p, MulSum(padded));
  }

  lemma FirstAnswer(p: int, c: nat, xs: seq<int>, k: nat)
    requires p > 0 && 0 < 2 * c < |xs| && |xs| % 2 == 0
    requires Cong(p, SumAnswers(MulGadget(p), k + 1, ChunkPad(2 * c, xs[2 * c..])), MulSum(xs[2 * c..]))
    ensures Cong(p, SumAnswers(MulGadget(p), k, ChunkPad(2 * c, xs)), MulSum(xs))
  {
    var first, rest := xs[..2 * c], xs[2 * c..];
    assert xs == first + rest;
    MulSumConcat(first, rest);
    assert ChunkPad(2 * c, xs)[1..] == ChunkPad(2 * c, rest);
    CongMod(p, MulSum(first));
    CongAdd(p, MulSum(first) % p, MulSum(first), SumAnswers(MulGadget(p), k + 1, ChunkPad(2 * c, rest)), MulSum(rest));
  }

  lemma {:induction false} SqSumConcat(a: seq<int>, b: seq<int>)
    ensures SqSum(a + b) == SqSum(a) + SqSum(b)
  {
    if a == [] {
      assert a + b == b;
    } else {
      SqSumConcat(a[1..], b);
      assert (a + b)[1..] == a[1..] + b;
    }
  }

  lemma {:induction false} SqSumZeros(n: nat)
    ensures SqSum(Zeros(n)) == 0
  {
    if n >= 1 {
      SqSumZeros(n - 1);
      assert Zeros(n)[1..] == Zeros(n - 1);
    }
  }

  /** Chunking and padding do not change what the square gadget computes. */
  lemma {:induction false} SqAnswers(p: int, c: nat, xs: seq<int>, k: nat)
    requires p > 0 && c > 0
    ensures Cong(p, SumAnswers(SqGadget(p), k, ChunkPad(c, xs)), SqSum(xs))
    decreases |xs|
  {
    if xs == [] {
    } else if |xs| <= c {
      var padded := xs + Zeros(c - |xs|);
      SqSumConcat(xs, Zeros(c - |xs|));
      SqSumZeros(c - |xs|);
      assert ChunkPad(c, xs)[1..] == [];
      CongMod(p, SqSum(padded));
    } else {
      SqAnswers(p, c, xs[c..], k + 1);
      assert xs == xs[..c] + xs[c..];
      SqSumConcat(xs[..c], xs[c..]);
      assert ChunkPad(c, xs)[1..] == ChunkPad(c, xs[c..]);
      CongMod(p, SqSum(xs[..c]));
      CongAdd(p, SqSum(xs[..c]) % p, SqSum(xs[..c]),
              SumAnswers(SqGadget(p), k + 1, ChunkPad(c, xs[c..])), SqSum(xs[c..]));
    }
  }

  /** What the prover's bit checks evaluate to. */
  ghost function BitCheck(p: int, t: PineType, meas: seq<int>, r: int): int
    requires p > 0 && Layout(t, meas)
  {
    SumAnswers(MulGadget(p), 0, BitCalls(p, t, meas, r, 1)) % p
  }

  /** What the prover's wraparound checks evaluate to. */
  ghost function WrCheck(p: int, t: PineType, meas: seq<int>, r: int): int
    requires p > 0 && Layout(t, meas)
  {
    SumAnswers(MulGadget(p), 0, WrCalls(p, t, meas, r, 1)) % p
  }

  ghost function WrPoly(p: int, t: PineType, meas: seq<int>): (c: seq<int>)
    requires p > 0 && Layout(t, meas)
    ensures |c| == t.numWrTests
  {
    WrCoefs(p, t, WrBits(t, meas), WrResults(t, meas), 1)
  }

  lemma {:induction false} BitCheckPoly(p: int, t: PineType, meas: seq<int>, r: int)
    requires p > 0 && Layout(t, meas)
    ensures BitCheck(p, t, meas, r) == Eval(BitCoefs(BitChecked(t, meas), 1), r) % p
  {
    var bits := BitChecked(t, meas);
    MulAnswers(p, t.chunkLen, BitWires(p, bits, r, 1, 1), 0);
    BitWiresSum(p, bits, r, 1, 1);
    assert 1 * Eval(BitCoefs(bits, 1), r) == Eval(BitCoefs(bits, 1), r);
  }

  lemma {:induction false} WrCheckPoly(p: int, t: PineType, meas: seq<int>, r: int, k: nat)
    requires p > 0 && Layout(t, meas)
    ensures SumAnswers(MulGadget(p), k, WrCalls(p, t, meas, r, 1)) % p
         == WrCheck(p, t, meas, r)
         == Eval(WrPoly(p, t, meas), r) % p
  {
    var bits, results := WrBits(t, meas), WrResults(t, meas);
    var wires := WrWires(p, t, bits, results, r, 1, 1);
    MulAnswers(p, t.chunkLen, wires, k);
    MulAnswers(p, t.chunkLen, wires, 0);
    WrWiresSum(p, t, bits, results, r, 1, 1);
    assert 1 * Eval(WrPoly(p, t, meas), r) == Eval(WrPoly(p, t, meas), r);
  }

  lemma {:induction false} CombinePoly(p: int, a: int, n: int, w: int, c: int, r: int)
    requires p > 0
    ensures Combine(p, a, n, w, c, r) == Eval([a, n, w, c], r) % p
  {
    var r2, r3 := FMul(p, r, r), FMul(p, FMul(p, r, r), r);
    CongMod(p, r * r);
    CongMul(p, r2, r * r, r, r);
    CongMod(p, r2 * r);
    assert Cong(p, r3, r * r * r);
    CongMod(p, r * n);
    CongMul(p, r2, r * r, w, w);
    CongMod(p, r2 * w);
    CongMul(p, r3, r * r * r, c, c);
    CongMod(p, r3 * c);
    var x1 := a + FMul(p, r, n);
    CongAdd(p, a, a, FMul(p, r, n), r * n);
    CongMod(p, x1);
    var x2 := FAdd(p, a, FMul(p, r, n)) + FMul(p, r2, w);
    CongAdd(p, FAdd(p, a, FMul(p, r, n)), a + r * n, FMul(p, r2, w), r * r * w);
    CongMod(p, x2);
    CongAdd(p, x2 % p, a + r * n + r * r * w, FMul(p, r3, c), r * r * r * c);
    FourCoefs(a, n, w, c, r);
  }

  lemma {:induction false} FourCoefs(a: int, n: int, w: int, c: int, r: int)
    ensures Eval([a, n, w, c], r) == a + r * n + r * r * w + r * r * r * c
  {
    assert [a, n, w, c][1..] == [n, w, c];
    assert [n, w, c][1..] == [w, c];
    assert [w, c][1..] == [c];
    assert [c][1..] == [];
    assert Eval([c], r) == c;
    assert Eval([w, c], r) == w + r * c;
    assert Eval([n, w, c], r) == n + r * (w + r * c) == n + r * w + r * r * c;
    assert r * (n + r * w + r * r * c) == r * n + r * r * w + r * r * r * c;
  }

  /** The four partial results of the prover's evaluation. */
  ghost function Partials(p: int, t: PineType, meas: seq<int>, r0: int, r1: int): (c: seq<int>)
    requires p > 0 && Layout(t, meas)
    ensures |c| == 4
  {
    [ BitCheck(p, t, meas, r0),
      NormRangeCheck(p, t, VBits(t, meas), UBits(t, meas), 1),
      WrCheck(p, t, meas, r1),
      SuccessCheck(p, t, WrBits(t, meas), 1) ]
  }

  /** The prover's output is the polynomial of the partial results at the final randomness. */
  lemma MainValidPoly(p: int, t: PineType, meas: seq<int>, jr: seq<int>)
    requires p > 0 && Layout(t, meas) && |jr| == 3
    ensures MainValid(p, t, MulGadget(p), meas, jr, 1) == Eval(Partials(p, t, meas, jr[0], jr[1]), jr[2]) % p
  {
    WrCheckPoly(p, t, meas, jr[1], |BitCalls(p, t, meas, jr[0], 1)|);
    var c := Partials(p, t, meas, jr[0], jr[1]);
    CombinePoly(p, c[0], c[1], c[2], c[3], jr[2]);
  }

  // ---- Soundness

  predicate IsBit(x: int) {
    x == 0 || x == 1
  }

  lemma BitCoefZero(p: int, x: int)
    requires Prime(p) && 0 <= x < p
    ensures (x * (x - 1)) % p == 0 <==> IsBit(x)
  {
    SmallMod(p, 0);
    SmallMod(p, x);
    if (x * (x - 1)) % p == 0 {
      NoZeroDivisors(p, x, x - 1);
      if x > 0 { SmallMod(p, x - 1); }
    }
  }

  ghost predicate AllBits(bits: seq<int>) {
    forall i | 0 <= i < |bits| :: IsBit(bits[i])
  }

  lemma AllBitsIffZeroPoly(p: int, bits: seq<int>)
    requires Prime(p) && Canonical(p, bits)
    ensures ZeroPoly(p, BitCoefs(bits, 1)) <==> AllBits(bits)
  {
    forall i | 0 <= i < |bits| ensures BitCoefs(bits, 1)[i] % p == 0 <==> IsBit(bits[i]) {
      BitCoefZero(p, bits[i]);
    }
  }

  ghost function BitCheckAccepts(p: int, t: PineType, meas: seq<int>): set<int>
    requires p > 0 && Layout(t, meas)
  {
    set r | 0 <= r < p && BitCheck(p, t, meas, r) == 0
  }

  /** A non-bit among the bit-checked elements is caught for all but `bitCheckedLen - 1` challenges. */
  lemma BitCheckSoundness(p: int, t: PineType, meas: seq<int>)
    requires Prime(p) && Layout(t, meas) && Canonical(p, meas)
    requires !AllBits(BitChecked(t, meas))
    ensures |BitCheckAccepts(p, t, meas)| <= t.bitCheckedLen - 1
  {
    var bits := BitChecked(t, meas);
    AllBitsIffZeroPoly(p, bits);
    forall r ensures BitCheck(p, t, meas, r) == Eval(BitCoefs(bits, 1), r) % p { BitCheckPoly(p, t, meas, r); }
    assert BitCheckAccepts(p, t, meas) == Roots(p, BitCoefs(bits, 1));
    RootBound(p, BitCoefs(bits, 1));
  }

  ghost function WrCheckAccepts(p: int, t: PineType, meas: seq<int>): set<int>
    requires p > 0 && Layout(t, meas)
  {
    set r | 0 <= r < p && WrCheck(p, t, meas, r) == 0
  }

  lemma WrCheckSoundness(p: int, t: PineType, meas: seq<int>)
    requires Prime(p) && Layout(t, meas)
    requires !ZeroPoly(p, WrPoly(p, t, meas))
    ensures |WrCheckAccepts(p, t, meas)| <= t.numWrTests - 1
  {
    forall r ensures WrCheck(p, t, meas, r) == Eval(WrPoly(p, t, meas), r) % p { WrCheckPoly(p, t, meas, r, 0); }
    assert WrCheckAccepts(p, t, meas) == Roots(p, WrPoly(p, t, meas));
    RootBound(p, WrPoly(p, t, meas));
  }

  ghost function FinalAccepts(p: int, t: PineType, meas: seq<int>, r0: int, r1: int): set<int>
    requires p > 0 && Layout(t, meas)
  {
    set r | 0 <= r < p && MainValid(p, t, MulGadget(p), meas, [r0, r1, r], 1) == 0
  }

  /** If a partial check is nonzero, at most three final challenges hide it. */
  lemma FinalSoundness(p: int, t: PineType, meas: seq<int>, r0: int, r1: int)
    requires Prime(p) && Layout(t, meas)
    requires exists i | 0 <= i < 4 :: Partials(p, t, meas, r0, r1)[i] != 0
    ensures |FinalAccepts(p, t, meas, r0, r1)| <= 3
  {
    var c := Partials(p, t, meas, r0, r1);
    forall i | 0 <= i < 4 ensures 0 <= c[i] < p && c[i] % p == c[i] { SmallMod(p, c[i]); }
    forall r ensures MainValid(p, t, MulGadget(p), meas, [r0, r1, r], 1) == Eval(c, r) % p {
      MainValidPoly(p, t, meas, [r0, r1, r]);
    }
    assert FinalAccepts(p, t, meas, r0, r1) == Roots(p, c);
    RootBound(p, c);
  }

  /** The conditions the main circuit is meant to enforce. */
  ghost predicate Satisfied(p: int, t: PineType, meas: seq<int>)
    requires p > 0 && Layout(t, meas)
  {
    && AllBits(BitChecked(t, meas))
    && NormRangeCheck(p, t, VBits(t, meas), UBits(t, meas), 1) == 0
    && ZeroPoly(p, WrPoly(p, t, meas))
    && SuccessCheck(p, t, WrBits(t, meas), 1) == 0
  }

  ghost function Accepting(p: int, t: PineType, meas: seq<int>): set<(int, int, int)>
    requires p > 0 && Layout(t, meas)
  {
    set r0, r1, r2 | r0 in Range(p) && r1 in Range(p) && r2 in Range(p)
                     && MainValid(p, t, MulGadget(p), meas, [r0, r1, r2], 1) == 0 :: (r0, r1, r2)
  }

  /** A satisfying measurement is accepted for every joint randomness. */
  lemma SatisfiedAccepted(p: int, t: PineType, meas: seq<int>, jr: seq<int>)
    requires Prime(p) && Layout(t, meas) && Canonical(p, meas) && |jr| == 3
    requires Satisfied(p, t, meas)
    ensures MainValid(p, t, MulGadget(p), meas, jr, 1) == 0
  {
    AllBitsIffZeroPoly(p, BitChecked(t, meas));
    EvalZeroPoly(p, BitCoefs(BitChecked(t, meas), 1), jr[0]);
    BitCheckPoly(p, t, meas, jr[0]);
    EvalZeroPoly(p, WrPoly(p, t, meas), jr[1]);
    WrCheckPoly(p, t, meas, jr[1], 0);
    MainValidPoly(p, t, meas, jr);
    SmallMod(p, 0);
    EvalZeroPoly(p, Partials(p, t, meas, jr[0], jr[1]), jr[2]);
  }

  /** The pairs of challenges for which every partial check vanishes. */
  ghost function Blind(p: int, t: PineType, meas: seq<int>): set<(int, int)>
    requires p > 0 && Layout(t, meas)
  {
    set k | k in Grid(Range(p), Range(p))
            && forall i | 0 <= i < 4 :: Partials(p, t, meas, k.0, k.1)[i] == 0
  }

  lemma BlindPair(p: int, t: PineType, meas: seq<int>, k: (int, int))
    requires p > 0 && Layout(t, meas)
    requires k in Blind(p, t, meas)
    ensures k.0 in BitCheckAccepts(p, t, meas) && k.1 in WrCheckAccepts(p, t, meas)
    ensures NormRangeCheck(p, t, VBits(t, meas), UBits(t, meas), 1) == 0
    ensures SuccessCheck(p, t, WrBits(t, meas), 1) == 0
  {
    var c := Partials(p, t, meas, k.0, k.1);
    assert c[0] == 0 && c[1] == 0 && c[2] == 0 && c[3] == 0;
  }

  lemma BlindBound(p: int, t: PineType, meas: seq<int>, m: nat)
    requires Prime(p) && Layout(t, meas) && Canonical(p, meas)
    requires t.bitCheckedLen <= m + 1 && t.numWrTests <= m + 1
    requires !Satisfied(p, t, meas)
    ensures |Blind(p, t, meas)| <= m * p
  {
    RangeCard(p);
    var blind := Blind(p, t, meas);
    var bits, wr := BitCheckAccepts(p, t, meas), WrCheckAccepts(p, t, meas);
    forall k | k in blind ensures k.0 in bits && k.1 in wr { BlindPair(p, t, meas, k); }
    if !AllBits(BitChecked(t, meas)) {
      BitCheckSoundness(p, t, meas);
      GridSubset(blind, bits, Range(p), m, p);
    } else if !ZeroPoly(p, WrPoly(p, t, meas)) {
      WrCheckSoundness(p, t, meas);
      GridSubset(blind, Range(p), wr, m, p);
    } else {
      if k :| k in blind { BlindPair(p, t, meas, k); assert false; }
      GridSubset(blind, {}, {}, m, p);
    }
  }

  /** Accepting randomness over pairs of challenges where some partial check is nonzero. */
  lemma VisibleBound(p: int, t: PineType, meas: seq<int>, rest: set<(int, int, int)>)
    requires Prime(p) && Layout(t, meas)
    requires rest <= Accepting(p, t, meas)
    requires forall a | a in rest :: (a.0, a.1) !in Blind(p, t, meas)
    ensures |rest| <= p * p * 3
  {
    var grid := Grid(Range(p), Range(p));
    RangeCard(p);
    GridCard(Range(p), Range(p));
    forall k | k in grid ensures |Fibre(rest, k)| <= 3 {
      ThirdsCard(Fibre(rest, k), k);
      if k in Blind(p, t, meas) {
        assert Fibre(rest, k) == {};
      } else {
        FinalSoundness(p, t, meas, k.0, k.1);
        SubsetCard(Thirds(Fibre(rest, k)), FinalAccepts(p, t, meas, k.0, k.1));
      }
    }
    FibreBound(rest, grid, 3);
  }

  /** Accepting randomness over pairs of challenges where every partial check vanishes. */
  lemma HiddenBound(p: int, t: PineType, meas: seq<int>, hidden: set<(int, int, int)>)
    requires Prime(p) && Layout(t, meas)
    requires hidden <= Accepting(p, t, meas)
    requires forall a | a in hidden :: (a.0, a.1) in Blind(p, t, meas)
    ensures |hidden| <= |Blind(p, t, meas)| * p
  {
    RangeCard(p);
    forall k | k in Blind(p, t, meas) ensures |Fibre(hidden, k)| <= p {
      ThirdsCard(Fibre(hidden, k), k);
      SubsetCard(Thirds(Fibre(hidden, k)), Range(p));
    }
    FibreBound(hidden, Blind(p, t, meas), p);
  }

  lemma AddBounds(n: nat, blind: nat, hidden: nat, rest: nat, m: nat, p: nat)
    requires n <= hidden + rest
    requires hidden <= blind * p && blind <= m * p && rest <= p * p * 3
    ensures n <= (m + 3) * p * p
  {
    assert blind * p <= (m * p) * p;
    assert (m * p) * p + p * p * 3 == (m + 3) * p * p;
  }

  /**
  Soundness of the main circuit: a measurement that breaks a checked condition is
  accepted for at most `(m + 3) * p^2` of the `p^3` joint randomness vectors, where
  neither the bit-checked elements nor the wraparound tests number more than `m + 1`.
  */
  lemma CircuitSoundness(p: int, t: PineType, meas: seq<int>, m: nat)
    requires Prime(p) && Layout(t, meas) && Canonical(p, meas)
    requires t.bitCheckedLen <= m + 1 && t.numWrTests <= m + 1
    requires !Satisfied(p, t, meas)
    ensures |Accepting(p, t, meas)| <= (m + 3) * p * p
  {
    var all := Accepting(p, t, meas);
    var hidden := set a | a in all && (a.0, a.1) in Blind(p, t, meas);
    BlindBound(p, t, meas, m);
    HiddenBound(p, t, meas, hidden);
    VisibleBound(p, t, meas, all - hidden);
    assert all == hidden + (all - hidden);
    AddBounds(|all|, |Blind(p, t, meas)|, |hidden|, |all - hidden|, m, p);
  }
}
