/**
What a satisfied PINE circuit says about the gradient: its squared norm is within
the bound, and enough wraparound tests are in range. The range check on the norm is
sound for exactly those parameters for which the two reported bit vectors cannot
reach the bound by wrapping around the modulus.
*/
module PineNorm {
  import opened Arithmetic
  import opened PrimeField
  import opened PineParams
  import opened PineCircuit
  import opened PineSoundness

  lemma {:induction false} BitsValueBound(bits: seq<int>)
    requires AllBits(bits)
    ensures 0 <= BitsValue(bits) < Pow2(|bits|)
  {
    if bits != [] {
      assert IsBit(bits[0]);
      forall i | 0 <= i < |bits| - 1 ensures IsBit(bits[1..][i]) { assert IsBit(bits[i + 1]); }
      BitsValueBound(bits[1..]);
    }
  }

  function ToBits(v: nat, n: nat): (b: seq<int>)
    ensures |b| == n
  {
    if n == 0 then [] else [v % 2] + ToBits(v / 2, n - 1)
  }

  lemma {:induction false} ToBitsCorrect(v: nat, n: nat)
    requires v < Pow2(n)
    ensures AllBits(ToBits(v, n)) && BitsValue(ToBits(v, n)) == v
  {
    if n > 0 {
      ToBitsCorrect(v / 2, n - 1);
      assert ToBits(v, n)[1..] == ToBits(v / 2, n - 1);
      forall i | 0 <= i < n ensures IsBit(ToBits(v, n)[i]) {
        if i > 0 { assert IsBit(ToBits(v / 2, n - 1)[i - 1]); }
      }
    }
  }

  /** The range check compares the reported values with the bound modulo `p`. */
  lemma {:induction false} NormRangeCheckCong(p: int, t: PineType, vBits: seq<int>, uBits: seq<int>)
    requires p > 0
    ensures NormRangeCheck(p, t, vBits, uBits, 1) == 0
       <==> Cong(p, BitsValue(vBits) + BitsValue(uBits), t.sqNormBound)
  {
    var v, u, b := BitsValue(vBits), BitsValue(uBits), t.sqNormBound;
    CongMod(p, v);
    CongMod(p, u);
    CongAdd(p, v % p, v, u % p, u);
    CongMod(p, v % p + u % p);
    CongMod(p, b * 1);
    CongSub(p, FAdd(p, v % p, u % p), v + u, FMul(p, b, 1), b);
    CongZeroDiff(p, v + u, b);
  }

  /** Congruent numbers below twice the modulus apart differ by zero or one modulus. */
  lemma SmallCong(p: int, a: int, b: int)
    requires p > 0 && 0 <= a && 0 <= b < p && Cong(p, a, b)
    ensures a == b || a >= b + p
  {
    var k := MultipleOfCong(p, a, b);
    assert k < 0 ==> k * p <= -p;
    assert k > 0 ==> k * p >= p;
  }

  /** Every claimed squared norm that passes the range check is at most the bound. */
  ghost predicate RangeCheckSound(p: int, t: PineType)
    requires p > 0
  {
    forall vBits: seq<int>, uBits: seq<int> |
      |vBits| == |uBits| == t.sqNormBits && AllBits(vBits) && AllBits(uBits)
      && NormRangeCheck(p, t, vBits, uBits, 1) == 0 ::
      DecodeBits(p, vBits) <= t.sqNormBound
  }

  /** The condition on the parameters under which the range check is sound. */
  predicate NoRangeWrap(p: int, t: PineType) {
    2 * (Pow2(t.sqNormBits) - 1) < t.sqNormBound + p || t.sqNormBound == p - 1
  }

  lemma RangeCheckSoundIf(p: int, t: PineType, vBits: seq<int>, uBits: seq<int>)
    requires t.Valid(p) && NoRangeWrap(p, t)
    requires |vBits| == |uBits| == t.sqNormBits && AllBits(vBits) && AllBits(uBits)
    requires NormRangeCheck(p, t, vBits, uBits, 1) == 0
    ensures DecodeBits(p, vBits) <= t.sqNormBound
  {
    var v, u := BitsValue(vBits), BitsValue(uBits);
    BitsValueBound(vBits);
    BitsValueBound(uBits);
    NormRangeCheckCong(p, t, vBits, uBits);
    SmallCong(p, v + u, t.sqNormBound);
    if t.sqNormBound != p - 1 {
      SmallMod(p, v);
    }
  }

  lemma RangeCheckUnsoundIf(p: int, t: PineType) returns (vBits: seq<int>, uBits: seq<int>)
    requires t.Valid(p) && !NoRangeWrap(p, t)
    ensures |vBits| == |uBits| == t.sqNormBits && AllBits(vBits) && AllBits(uBits)
    ensures NormRangeCheck(p, t, vBits, uBits, 1) == 0
    ensures DecodeBits(p, vBits) > t.sqNormBound
  {
    var n, b := Pow2(t.sqNormBits), t.sqNormBound;
    BitsTight(b);
    var v := if n <= p then n - 1 else p - 1;
    var u := b + p - v;
    ToBitsCorrect(v, t.sqNormBits);
    ToBitsCorrect(u, t.sqNormBits);
    vBits, uBits := ToBits(v, t.sqNormBits), ToBits(u, t.sqNormBits);
    CongOfMultiple(p, v + u, b, 1);
    NormRangeCheckCong(p, t, vBits, uBits);
    SmallMod(p, v);
  }

  /** The range check is sound exactly when the reported values cannot wrap around. */
  lemma RangeCheckExact(p: int, t: PineType)
    requires t.Valid(p)
    ensures RangeCheckSound(p, t) <==> NoRangeWrap(p, t)
  {
    if NoRangeWrap(p, t) {
      forall vBits: seq<int>, uBits: seq<int> |
        |vBits| == |uBits| == t.sqNormBits && AllBits(vBits) && AllBits(uBits)
        && NormRangeCheck(p, t, vBits, uBits, 1) == 0
        ensures DecodeBits(p, vBits) <= t.sqNormBound
      {
        RangeCheckSoundIf(p, t, vBits, uBits);
      }
    } else {
      var vBits, uBits := RangeCheckUnsoundIf(p, t);
    }
  }

  /** A modulus above four times the squared bound rules out wraparound. */
  lemma LargeModulusNoWrap(p: int, t: PineType)
    requires t.Valid(p) && 4 * t.sqNormBound < p
    ensures NoRangeWrap(p, t)
  {
    BitsTight(t.sqNormBound);
    assert Pow2(t.sqNormBits) == 2 * Pow2(t.sqNormBits - 1);
  }

  ghost function SqNorm(p: int, gradient: seq<int>): int
    requires p > 0
  {
    SqSum(gradient) % p
  }

  lemma SqNormValidMeaning(p: int, q: SqNormType, t: PineType, meas: seq<int>)
    requires p > 0 && q.Valid(t) && Layout(t, meas)
    ensures SqNormValid(p, q, SqGadget(p), meas) == 0 <==> DecodeBits(p, VBits(t, meas)) == SqNorm(p, Gradient(t, meas))
  {
    SqAnswers(p, q.chunkLen, Gradient(t, meas), 0);
    assert VBits(t, meas) == meas[q.dimension..q.dimension + q.sqNormBits];
    var v, s := DecodeBits(p, VBits(t, meas)), SqNorm(p, Gradient(t, meas));
    SmallMod(p, v);
    SmallMod(p, s);
    CongZeroDiff(p, v, s);
  }

  /** Norm soundness: both circuits hold the field squared norm, read as an integer, to the bound. */
  lemma NormSoundness(p: int, t: PineType, q: SqNormType, meas: seq<int>)
    requires Prime(p) && t.Valid(p) && q.Valid(t) && Layout(t, meas)
    requires NoRangeWrap(p, t)
    requires AllBits(BitChecked(t, meas)) && NormRangeCheck(p, t, VBits(t, meas), UBits(t, meas), 1) == 0
    requires SqNormValid(p, q, SqGadget(p), meas) == 0
    ensures SqNorm(p, Gradient(t, meas)) <= t.sqNormBound
  {
    var bits := BitChecked(t, meas);
    SqNormValidMeaning(p, q, t, meas);
    forall i | 0 <= i < t.sqNormBits ensures IsBit(VBits(t, meas)[i]) && IsBit(UBits(t, meas)[i]) {
      assert IsBit(bits[i]) && IsBit(bits[t.sqNormBits + i]);
    }
    RangeCheckSoundIf(p, t, VBits(t, meas), UBits(t, meas));
  }

  /**
  A gradient whose squared norm exceeds the bound either fails the norm equality
  circuit or is accepted by the main circuit for a vanishing share of the joint
  randomness.
  */
  lemma LargeNormRejected(p: int, t: PineType, q: SqNormType, meas: seq<int>, m: nat)
    requires Prime(p) && t.Valid(p) && q.Valid(t) && Layout(t, meas) && Canonical(p, meas)
    requires NoRangeWrap(p, t)
    requires t.bitCheckedLen <= m + 1 && t.numWrTests <= m + 1
    requires SqNorm(p, Gradient(t, meas)) > t.sqNormBound
    ensures SqNormValid(p, q, SqGadget(p), meas) != 0 || |Accepting(p, t, meas)| <= (m + 3) * p * p
  {
    if SqNormValid(p, q, SqGadget(p), meas) == 0 {
      if Satisfied(p, t, meas) {
        NormSoundness(p, t, q, meas);
        assert false;
      }
      CircuitSoundness(p, t, meas, m);
    }
  }

  // ---- Wraparound tests

  /**
  The test result lies in the range that the reported bits can express: from
  `-wrTestBound + 1` to `wrTestBound` when the bound is a power of two.
  */
  ghost predicate WrInRange(p: int, t: PineType, result: int)
    requires p > 0
  {
    (result + (t.wrTestBound - 1)) % p < Pow2(t.wrTestBits)
  }

  ghost function InRangeCount(p: int, t: PineType, results: seq<int>): (n: nat)
    requires p > 0
    ensures n <= |results|
  {
    if results == [] then 0
    else (if WrInRange(p, t, results[0]) then 1 else 0) + InRangeCount(p, t, results[1..])
  }

  lemma WrGapZero(p: int, t: PineType, bits: seq<int>, result: int)
    requires p > 0 && |bits| == t.wrTestBits + 1 && AllBits(bits)
    requires WrGap(p, t, bits, result, 1) == 0
    ensures WrInRange(p, t, result)
  {
    var vBits := bits[..t.wrTestBits];
    var v := BitsValue(vBits);
    forall i | 0 <= i < |vBits| ensures IsBit(vBits[i]) { assert IsBit(bits[i]); }
    BitsValueBound(vBits);
    CongMod(p, v);
    CongSub(p, result, result, v % p, v);
    CongMod(p, result - v % p);
    var b := t.wrTestBound - 1;
    CongMod(p, b);
    CongMod(p, (b % p) * 1);
    CongAdd(p, FSub(p, result, v % p), result - v, WrBoundTerm(p, t, 1), b);
    SmallMod(p, 0);
    CongAdd(p, result - v + b, 0, v, v);
    if v < p { SmallMod(p, v); }
  }

  /** With zero coefficients, every reported success is a test in range. */
  lemma {:induction false} SuccessesInRange(p: int, t: PineType, wrBits: seq<int>, results: seq<int>)
    requires Prime(p)
    requires |wrBits| == Times(|results|, t.wrTestBits + 1)
    requires AllBits(wrBits) && ZeroPoly(p, WrCoefs(p, t, wrBits, results, 1))
    ensures 0 <= SuccessSum(t, wrBits, |results|) <= InRangeCount(p, t, results)
    decreases |results|
  {
    if results != [] {
      var n := t.wrTestBits + 1;
      var coefs := WrCoefs(p, t, wrBits, results, 1);
      var rest := WrCoefs(p, t, wrBits[n..], results[1..], 1);
      assert ZeroPoly(p, rest) by {
        forall i | 0 <= i < |rest| ensures rest[i] % p == 0 { assert coefs[i + 1] % p == 0; }
      }
      assert AllBits(wrBits[n..]) && AllBits(wrBits[..n]);
      SuccessesInRange(p, t, wrBits[n..], results[1..]);
      var g := wrBits[n - 1];
      assert IsBit(g);
      if g == 1 {
        var gap := WrGap(p, t, wrBits[..n], results[0], 1);
        assert coefs[0] == gap * 1;
        SmallMod(p, gap);
        WrGapZero(p, t, wrBits[..n], results[0]);
      }
    }
  }

  /** A satisfied circuit has at least the required number of wraparound tests in range. */
  lemma {:induction false} WrSoundness(p: int, t: PineType, meas: seq<int>)
    requires Prime(p) && t.Valid(p) && Layout(t, meas)
    requires t.numWrTests < p
    requires Satisfied(p, t, meas)
    ensures InRangeCount(p, t, WrResults(t, meas)) >= t.numWrSuccesses
  {
    var wrBits := WrBits(t, meas);
    forall i | 0 <= i < |wrBits| ensures IsBit(wrBits[i]) {
      assert IsBit(BitChecked(t, meas)[2 * t.sqNormBits + i]);
    }
    SuccessesInRange(p, t, wrBits, WrResults(t, meas));
    var sum := SuccessSum(t, wrBits, t.numWrTests);
    CongZeroDiff(p, sum, t.numWrSuccesses * 1);
    SmallMod(p, sum);
    SmallMod(p, t.numWrSuccesses);
  }
}
