/**
Parameters of the PINE VDAF: the bounds and lengths derived by its constructor.
*/
module PineParams {
  import opened Wrappers
  import opened Arithmetic

  const U64_MAX: nat := 0xFFFF_FFFF_FFFF_FFFF

  datatype PineParam = PineParam(
    normBound: nat,
    dimension: nat,
    fracBits: nat,
    chunkLen: nat,
    chunkLenSqNormEqual: nat,
    numProofs: nat,
    numProofsSqNormEqual: nat,
    numWrTests: nat,
    numWrSuccesses: nat)

  /** Parameters of the main circuit. */
  datatype PineType = PineType(
    dimension: nat,
    fracBits: nat,
    chunkLen: nat,
    numWrTests: nat,
    numWrSuccesses: nat,
    sqNormBound: nat,
    sqNormBits: nat,
    wrTestBound: nat,
    wrTestBits: nat,
    inputLen: nat,
    bitCheckedLen: nat,
    gadgetCalls: nat)
  {
    ghost predicate Valid(p: int) {
      && 0 < dimension && 0 < chunkLen
      && numWrSuccesses <= numWrTests
      && 0 < sqNormBound < p && sqNormBits == Bits(sqNormBound)
      && 0 < wrTestBound < p && wrTestBits == Bits(2 * wrTestBound - 1)
      && bitCheckedLen == 2 * sqNormBits + Times(numWrTests, wrTestBits + 1)
      && inputLen == dimension + bitCheckedLen + numWrTests
      && gadgetCalls == ChunkCount(chunkLen, bitCheckedLen) + ChunkCount(chunkLen, numWrTests)
    }
  }

  /** Parameters of the squared-norm equality circuit. */
  datatype SqNormType = SqNormType(
    dimension: nat,
    chunkLen: nat,
    sqNormBits: nat,
    gadgetCalls: nat,
    inputLen: nat)
  {
    ghost predicate Valid(t: PineType) {
      && 0 < chunkLen
      && dimension == t.dimension && sqNormBits == t.sqNormBits && inputLen == t.inputLen
      && gadgetCalls == ChunkCount(chunkLen, dimension)
    }
  }

  datatype Pine = Pine(
    flp: PineType,
    flpSqNormEqual: SqNormType,
    numProofs: nat,
    numProofsSqNormEqual: nat,
    encodedGradientAndSqNormLen: nat,
    encodedInputLen: nat)
  {
    ghost predicate Valid(p: int) {
      && flp.Valid(p) && flpSqNormEqual.Valid(flp)
      && encodedGradientAndSqNormLen == flp.dimension + 2 * flp.sqNormBits
      && encodedInputLen == flp.dimension + flp.bitCheckedLen
    }
  }

  /** What an aggregator gets: vectors of elements and blinds, or seeds to expand into them. */
  datatype InputShareOf<Elem, Seed> =
    | LeaderShare(meas: seq<Elem>, proofs: seq<Elem>, wrBlind: Seed, vfBlind: Seed)
    | HelperShare(measSeed: Seed, proofsSeed: Seed, wrBlind: Seed, vfBlind: Seed)

  /** Base-2 logarithm rounded down. */
  function ILog2(x: nat): nat
    requires x > 0
  {
    if x == 1 then 0 else 1 + ILog2(x / 2)
  }

  function Bits(x: nat): nat {
    if x == 0 then 1 else ILog2(x) + 1
  }

  function ChunkCount(chunkLength: nat, length: nat): nat
    requires chunkLength > 0
  {
    (length + chunkLength - 1) / chunkLength
  }

  /** The least power of two that is at least `x`. */
  function NextPow2(x: nat): nat {
    if x <= 1 then 1 else Pow2(Bits(x - 1))
  }

  /** The wraparound test bound for a norm bound, with the factor 8.7 as a fraction. */
  function WrTestBoundOf(normBound: nat): nat {
    NextPow2((87 * normBound + 9) / 10 + 1)
  }

  /**
  The constructor. `p` is the field modulus and `intMax` the largest value of its
  integer type. `wrTestBound` stands for the power of two the source derives from
  the norm bound in floating point, `WrTestBoundOf` without its rounding.
  */
  function New(param: PineParam, p: nat, intMax: nat, wrTestBound: nat): Result<Pine>
    requires param.chunkLen > 0 && param.chunkLenSqNormEqual > 0
    requires wrTestBound > 0
  {
    var sqNormBound := param.normBound * param.normBound;
    if param.numWrTests < param.numWrSuccesses then Err
    else if param.normBound == 0 || param.normBound > intMax || param.normBound > p / 2 then Err
    else if param.dimension == 0 then Err
    else if param.fracBits >= 128 then Err
    else if sqNormBound > U64_MAX then Err
    else if sqNormBound > intMax || sqNormBound >= p then Err
    else if wrTestBound > intMax || wrTestBound >= p then Err
    else
      var sqNormBits := Bits(sqNormBound);
      var wrTestBits := Bits(2 * wrTestBound - 1);
      var encodedGradientAndSqNormLen := param.dimension + 2 * sqNormBits;
      var encodedInputLen := encodedGradientAndSqNormLen + (1 + wrTestBits) * param.numWrTests;
      var bitCheckedLen := 2 * sqNormBits + (1 + wrTestBits) * param.numWrTests;
      var inputLen := encodedInputLen + param.numWrTests;
      var gadgetCalls := ChunkCount(param.chunkLen, bitCheckedLen)
                         + ChunkCount(param.chunkLen, param.numWrTests);
      Ok(Pine(
           PineType(param.dimension, param.fracBits, param.chunkLen, param.numWrTests,
                    param.numWrSuccesses, sqNormBound, sqNormBits, wrTestBound, wrTestBits,
                    inputLen, bitCheckedLen, gadgetCalls),
           SqNormType(param.dimension, param.chunkLenSqNormEqual, sqNormBits,
                      ChunkCount(param.chunkLenSqNormEqual, param.dimension), inputLen),
           param.numProofs, param.numProofsSqNormEqual,
           encodedGradientAndSqNormLen, encodedInputLen))
  }

  /** The number of bits is the least that can hold `x`. */
  lemma {:induction false} BitsTight(x: nat)
    requires x > 0
    ensures Pow2(Bits(x) - 1) <= x < Pow2(Bits(x))
  {
    if x > 1 {
      BitsTight(x / 2);
    }
  }

  /** Every accepted parameter set satisfies the length and bound equations the circuits rely on. */
  lemma NewValid(param: PineParam, p: nat, intMax: nat, wrTestBound: nat)
    requires param.chunkLen > 0 && param.chunkLenSqNormEqual > 0
    requires wrTestBound > 0
    requires New(param, p, intMax, wrTestBound).Ok?
    ensures New(param, p, intMax, wrTestBound).value.Valid(p)
  {
    PositiveSquare(param.normBound);
    TestLengths(param.numWrTests, Bits(2 * wrTestBound - 1));
  }

  /**
  What the constructor accepts, and where every parameter goes. The separate checks of the norm bound
  against the integer type and half the modulus never decide.
  */
  lemma NewExact(param: PineParam, p: nat, intMax: nat, wrTestBound: nat)
    requires param.chunkLen > 0 && param.chunkLenSqNormEqual > 0 && wrTestBound > 0 && p >= 4
    ensures New(param, p, intMax, wrTestBound).Ok?
       <==> var sq := param.normBound * param.normBound;
            && 0 < param.normBound && sq <= U64_MAX && sq <= intMax && sq < p
            && 0 < param.dimension && param.fracBits < 128 && param.numWrSuccesses <= param.numWrTests
            && wrTestBound <= intMax && wrTestBound < p
    ensures New(param, p, intMax, wrTestBound).Ok? ==>
              var pine := New(param, p, intMax, wrTestBound).value;
              && pine.flp.dimension == param.dimension && pine.flp.fracBits == param.fracBits
              && pine.flp.chunkLen == param.chunkLen
              && pine.flpSqNormEqual.chunkLen == param.chunkLenSqNormEqual
              && pine.numProofs == param.numProofs && pine.numProofsSqNormEqual == param.numProofsSqNormEqual
              && pine.flp.numWrTests == param.numWrTests && pine.flp.numWrSuccesses == param.numWrSuccesses
              && pine.flp.sqNormBound == param.normBound * param.normBound && pine.flp.wrTestBound == wrTestBound
  {
    var n := param.normBound;
    if n >= 2 {
      MulLe(2, n, n);
    }
  }

  lemma PositiveSquare(n: nat)
    ensures n > 0 ==> n * n > 0
  {
  }

  lemma TestLengths(n: nat, w: nat)
    ensures (1 + w) * n == Times(n, w + 1)
  {
    TimesIsProduct(n, w + 1);
  }
}
