/**
When a whole measurement is encoded, in terms of the client's integers: the wraparound tests must
all be in range, although the circuit asks for the required number of successes only.
*/
module PineTolerance {
  import opened Wrappers
  import opened Arithmetic
  import opened PrimeField
  import opened PineParams
  import opened PineCircuit
  import opened PineNorm
  import opened PineWraparound
  import opened PineEncode
  import opened PineFields

  // ---- Tests of the client's integers

  ghost predicate CongAll(p: int, xs: seq<int>, ys: seq<int>)
    requires p > 0
  {
    |xs| == |ys| && forall i | 0 <= i < |xs| :: Cong(p, xs[i], ys[i])
  }

  lemma {:induction false} DotCong(p: int, rand: seq<int>, xs: seq<int>, ys: seq<int>, j: nat)
    requires p > 0 && CongAll(p, xs, ys) && |rand| == ChunkCount(4, |xs|) && j <= |xs|
    ensures Cong(p, DotFrom(rand, xs, j), DotFrom(rand, ys, j))
    decreases |xs| - j
  {
    if j < |xs| {
      DotCong(p, rand, xs, ys, j + 1);
      var w := CoordWeight(rand, j);
      CongMulL(p, w, xs[j], ys[j]);
      CongAdd(p, w * xs[j], w * ys[j], DotFrom(rand, xs, j + 1), DotFrom(rand, ys, j + 1));
    }
  }

  /** The tests depend on the gradient modulo the field only. */
  lemma {:induction false} TestsCong(p: int, xs: seq<int>, ys: seq<int>, n: nat, rand: seq<int>)
    requires p > 0 && CongAll(p, xs, ys) && |rand| == Times(n, ChunkCount(4, |xs|))
    ensures WrTests(p, xs, n, rand) == WrTests(p, ys, n, rand)
  {
    if n > 0 {
      var len := ChunkCount(4, |xs|);
      DotCong(p, rand[..len], xs, ys, 0);
      TestsCong(p, xs, ys, n - 1, rand[len..]);
    }
  }

  lemma {:induction false} EncodedCong(p: int, intMax: nat, xs: seq<int>)
    requires p > 0 && CoordsFit(intMax, xs) && EncodeCoords(p, intMax, xs).Ok?
    ensures CongAll(p, EncodeCoords(p, intMax, xs).value, SaturatedAll(xs))
  {
    if xs != [] {
      var x, ys, zs := Saturated(xs[0]), EncodeCoords(p, intMax, xs).value, SaturatedAll(xs);
      EncodeCoordCong(p, intMax, x);
      assert forall i | 0 <= i < |xs| - 1 :: xs[1..][i] == xs[i + 1];
      EncodedCong(p, intMax, xs[1..]);
      forall i | 0 <= i < |xs| ensures Cong(p, ys[i], zs[i]) {
        if i > 0 {
          assert ys[i] == EncodeCoords(p, intMax, xs[1..]).value[i - 1] && zs[i] == SaturatedAll(xs[1..])[i - 1];
        }
      }
    }
  }

  /** The bound of the wraparound tests as the constructor derives it: a power of two. */
  ghost predicate PowerBound(t: PineType) {
    0 < t.wrTestBound && Pow2(t.wrTestBits) == 2 * t.wrTestBound
  }

  /**
  A measurement is encoded exactly when the field takes the bit vectors, its coordinates fit, its
  squared norm is within the bound or wraps, and every one of its tests is in range.
  */
  lemma {:induction false} EncodeExact(p: int, intMax: nat, t: PineType, xs: seq<int>, rand: seq<int>)
    requires p > 1 && t.Valid(p) && PowerBound(t)
    requires |rand| == Times(t.numWrTests, ChunkCount(4, t.dimension))
    ensures EncodeWithWrJointRand(p, intMax, t, xs, rand).Ok? <==>
              && BitsFit(p, t.sqNormBits) && (t.numWrTests > 0 ==> BitsFit(p, t.wrTestBits))
              && |xs| == t.dimension && CoordsFit(intMax, xs)
              && (var s := SqSum(SaturatedAll(xs)) % p; s <= t.sqNormBound || WrapsBelow(p, t, s))
              && AllInRange(p, t, WrTests(p, SaturatedAll(xs), t.numWrTests, rand))
  {
    EncodeGradientExact(p, intMax, t, xs);
    if EncodeGradient(p, intMax, t, xs).Ok? {
      EncodeGradientMeaning(p, intMax, t, xs);
      EncodedCong(p, intMax, xs);
      var coords := EncodeCoords(p, intMax, xs).value;
      TestsCong(p, coords, SaturatedAll(xs), t.numWrTests, rand);
      EncodeWrExact(p, t, WrTests(p, coords, t.numWrTests, rand));
    }
  }

  /**
  Over each field, with the bound the constructor derives for the tests: a measurement is encoded
  exactly when the norm bound is below the limit, the coordinates fit, the squared norm, modulo the
  field, is at most the squared bound, and every test is in range.
  */
  lemma {:induction false} MeasurementExact(param: PineParam, kind: FieldKind, intMax: nat, xs: seq<int>,
                                            rand: seq<int>)
    requires param.normBound > 0 && Accepts(param, kind, intMax, WrTestBoundOf(param.normBound))
    requires |rand| == Times(param.numWrTests, ChunkCount(4, param.dimension))
    ensures var (p, t) := (Modulus(kind), Built(param, kind, intMax, WrTestBoundOf(param.normBound)).flp);
            EncodeWithWrJointRand(p, intMax, t, xs, rand).Ok? <==>
              && param.normBound < NormBoundLimit(kind)
              && |xs| == param.dimension && CoordsFit(intMax, xs)
              && SqSum(SaturatedAll(xs)) % p <= param.normBound * param.normBound
              && AllInRange(p, t, WrTests(p, SaturatedAll(xs), param.numWrTests, rand))
  {
    var p, t := Modulus(kind), Built(param, kind, intMax, WrTestBoundOf(param.normBound)).flp;
    DerivedFits(param, kind, intMax);
    NormBoundFits(param, kind, intMax, WrTestBoundOf(param.normBound));
    EncodeGradientExact(p, intMax, t, xs);
    EncodeExact(p, intMax, t, xs, rand);
  }

  // ---- A measurement the circuit would accept

  function Same(x: int, n: nat): (xs: seq<int>)
    ensures |xs| == n && forall i | 0 <= i < n :: xs[i] == x
  {
    seq(n, _ => x)
  }

  lemma {:induction false} OnesSquares(n: nat)
    ensures SqSum(Same(1, n)) == n
  {
    if n > 0 {
      OnesSquares(n - 1);
      assert Same(1, n)[1..] == Same(1, n - 1);
    }
  }

  /** With one weight throughout, the dot product with ones counts the coordinates. */
  lemma {:induction false} OnesDot(byte: int, w: int, d: nat, j: nat)
    requires j <= d && forall e: nat | e < 4 :: BitAt(byte, 2 * e) + BitAt(byte, 2 * e + 1) - 1 == w
    ensures DotFrom(Same(byte, ChunkCount(4, d)), Same(1, d), j) == w * (d - j)
    decreases d - j
  {
    if j < d {
      OnesDot(byte, w, d, j + 1);
    }
  }

  const TOLERANT: PineParam := PineParam(17, 289, 0, 1, 1, 1, 1, 2, 1)

  /** Weights of one for the first test and of zero for the second. */
  const TOLERANT_RAND: seq<int> := Same(255, 73) + Same(85, 73)

  lemma {:induction false} TolerantTests(p: int)
    requires p > 544
    ensures |TOLERANT_RAND| == Times(2, ChunkCount(4, 289))
    ensures WrTests(p, Same(1, 289), 2, TOLERANT_RAND) == [289, 0]
  {
    forall e: nat | e < 4
      ensures BitAt(255, 2 * e) + BitAt(255, 2 * e + 1) - 1 == 1 && BitAt(85, 2 * e) + BitAt(85, 2 * e + 1) - 1 == 0
    {
      WeightIsBits(255, e);
      WeightIsBits(85, e);
    }
    OnesDot(255, 1, 289, 0);
    OnesDot(85, 0, 289, 0);
    assert TOLERANT_RAND[..73] == Same(255, 73) && TOLERANT_RAND[73..] == Same(85, 73);
    assert Same(85, 73)[..73] == Same(85, 73) && Same(85, 73)[73..] == [];
    SmallMod(p, 289);
    SmallMod(p, 0);
    assert WrTests(p, Same(1, 289), 1, Same(85, 73)) == [0];
  }

  lemma TolerantAccepted() returns (p: int, t: PineType)
    ensures p == Modulus(Field64) && Accepts(TOLERANT, Field64, U64_MAX, 256)
    ensures t == New(TOLERANT, p, U64_MAX, 256).value.flp && WrTestBoundOf(TOLERANT.normBound) == 256
    ensures t.Valid(p) && t.dimension == 289 && t.sqNormBound == 289
    ensures t.numWrTests == 2 && t.numWrSuccesses == 1 && t.wrTestBound == 256 && Pow2(t.wrTestBits) == 512
  {
    p := Modulus(Field64);
    assert Pow2(7) == 128 && Pow2(8) == 256 && Pow2(9) == 512;
    WrTestBoundIs(TOLERANT.normBound, 8);
    Constructed(TOLERANT, p, U64_MAX, 256);
    NewValid(TOLERANT, p, U64_MAX, 256);
    t := New(TOLERANT, p, U64_MAX, 256).value.flp;
    BitsBetween(511, 9);
  }

  /**
  A gradient of norm exactly the bound with one of its two tests in range, where one success is
  required: the encoder fails nevertheless.
  */
  lemma ToleranceUnused() returns (p: int, t: PineType, xs: seq<int>, rand: seq<int>)
    ensures p == Modulus(Field64) && Accepts(TOLERANT, Field64, U64_MAX, 256)
    ensures t == New(TOLERANT, p, U64_MAX, 256).value.flp && WrTestBoundOf(TOLERANT.normBound) == 256
    ensures t.Valid(p) && |xs| == t.dimension && |rand| == Times(t.numWrTests, ChunkCount(4, t.dimension))
    ensures EncodeGradient(p, U64_MAX, t, xs).Ok?
    ensures InRangeCount(p, t, WrTests(p, xs, t.numWrTests, rand)) >= t.numWrSuccesses
    ensures EncodeWithWrJointRand(p, U64_MAX, t, xs, rand).Err?
  {
    p, t := TolerantAccepted();
    xs, rand := FailsInTolerance(p, t);
  }

  lemma FailsInTolerance(p: int, t: PineType) returns (xs: seq<int>, rand: seq<int>)
    requires p > 544 && t.Valid(p) && t.dimension == 289 && t.sqNormBound == 289
    requires t.numWrTests == 2 && t.numWrSuccesses == 1 && t.wrTestBound == 256 && Pow2(t.wrTestBits) == 512
    ensures |xs| == t.dimension && |rand| == Times(t.numWrTests, ChunkCount(4, t.dimension))
    ensures EncodeGradient(p, U64_MAX, t, xs).Ok?
    ensures InRangeCount(p, t, WrTests(p, xs, t.numWrTests, rand)) == 1
    ensures EncodeWithWrJointRand(p, U64_MAX, t, xs, rand).Err?
  {
    xs, rand := Same(1, 289), TOLERANT_RAND;
    TolerantTests(p);
    OnesSquares(289);
    assert SaturatedAll(xs) == xs && CoordsFit(U64_MAX, xs);
    SmallMod(p, 289);
    assert Pow2(8) == 256 && Pow2(9) == 512;
    BitsBetween(289, 9);
    EncodeGradientExact(p, U64_MAX, t, xs);
    EncodeExact(p, U64_MAX, t, xs, rand);
    TolerantRange(p, t);
  }

  lemma {:induction false} TolerantRange(p: int, t: PineType)
    requires p > 544 && t.wrTestBound == 256 && Pow2(t.wrTestBits) == 512
    ensures InRangeCount(p, t, [289, 0]) == 1 && !AllInRange(p, t, [289, 0])
  {
    SmallMod(p, 544);
    SmallMod(p, 255);
    assert [289, 0][1..] == [0] && [0][1..] == [];
    assert !WrInRange(p, t, [289, 0][0]);
  }
}
