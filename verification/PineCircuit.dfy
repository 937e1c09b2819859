/**
The two PINE validity circuits as functions of the measurement. A circuit sends
wires to its gadget and combines the answers: the wires are a function of the
input, and the output is stated for arbitrary answers, so the same functions
describe proving (the gadget computes its sum) and querying (the answers come
from a proof share).
*/
module PineCircuit {
  import opened Wrappers
  import opened Arithmetic
  import opened PrimeField
  import opened PineParams

  /** What the gadget answers to its `k`-th call, given the wires. */
  type Answers = (nat, seq<int>) -> int

  /** Field inverse of the number of shares. */
  function SharesInv(p: int, numShares: nat): int
    requires p > 0
  {
    if numShares == 1 then 1 else Inverse(p, numShares % p)
  }

  lemma SharesInvIsInverse(p: int, numShares: nat)
    requires Prime(p) && numShares % p != 0
    ensures 0 <= SharesInv(p, numShares) < p && Cong(p, numShares * SharesInv(p, numShares), 1)
  {
    if numShares != 1 {
      var s := SharesInv(p, numShares);
      InverseCorrect(p, numShares % p);
      CongMod(p, numShares);
      CongMul(p, numShares % p, numShares, s, s);
    }
  }

  function Zeros(n: nat): (z: seq<int>)
    ensures |z| == n
    ensures forall i | 0 <= i < n :: z[i] == 0
  {
    seq(n, _ => 0)
  }

  /** Cut `xs` into calls of width `w`, the last one padded with zeros. */
  function ChunkPad(w: nat, xs: seq<int>): (calls: seq<seq<int>>)
    requires w > 0
    ensures forall k | 0 <= k < |calls| :: |calls[k]| == w
    decreases |xs|
  {
    if xs == [] then []
    else if |xs| <= w then [xs + Zeros(w - |xs|)]
    else [xs[..w]] + ChunkPad(w, xs[w..])
  }

  /** Little-endian bit vector read as an integer, before reduction. */
  function BitsValue(bits: seq<int>): int {
    if bits == [] then 0 else bits[0] + 2 * BitsValue(bits[1..])
  }

  /** Little-endian bit vector decoded into the field. */
  function DecodeBits(p: int, bits: seq<int>): int
    requires p > 0
  {
    BitsValue(bits) % p
  }

  /** The lengths of bit vector the field takes: those whose integers are all below the modulus. */
  predicate BitsFit(p: int, n: nat) {
    Pow2(n) <= p
  }

  // ---- Wires of the main circuit

  function BitWires(p: int, bits: seq<int>, r: int, s: int, rPower: int): (w: seq<int>)
    requires p > 0
    ensures |w| == 2 * |bits|
  {
    if bits == [] then []
    else [FMul(p, rPower, bits[0]), FSub(p, bits[0], s)]
         + BitWires(p, bits[1..], r, s, FMul(p, rPower, r))
  }

  /** The bound term of the wraparound checks, split among the shares. */
  function WrBoundTerm(p: int, t: PineType, s: int): int
    requires p > 0
  {
    FMul(p, FSub(p, t.wrTestBound, 1), s)
  }

  /** `result - v + bound` for one wraparound test, where `v` is the reported bits. */
  function WrGap(p: int, t: PineType, bits: seq<int>, result: int, s: int): int
    requires p > 0
    requires |bits| == t.wrTestBits + 1
  {
    FAdd(p, FSub(p, result, DecodeBits(p, bits[..t.wrTestBits])), WrBoundTerm(p, t, s))
  }

  function WrWires(p: int, t: PineType, wrBits: seq<int>, results: seq<int>, r: int, s: int, rPower: int)
    : (w: seq<int>)
    requires p > 0
    requires |wrBits| == Times(|results|, t.wrTestBits + 1)
    ensures |w| == 2 * |results|
    decreases |results|
  {
    if results == [] then []
    else
      var n := t.wrTestBits + 1;
      [FMul(p, rPower, WrGap(p, t, wrBits[..n], results[0], s)), wrBits[n - 1]]
      + WrWires(p, t, wrBits[n..], results[1..], r, s, FMul(p, rPower, r))
  }

  /** Sum of the reported success bits. */
  function SuccessSum(t: PineType, wrBits: seq<int>, tests: nat): int
    requires |wrBits| == Times(tests, t.wrTestBits + 1)
  {
    if tests == 0 then 0
    else
      var n := t.wrTestBits + 1;
      wrBits[n - 1] + SuccessSum(t, wrBits[n..], tests - 1)
  }

  function SuccessCheck(p: int, t: PineType, wrBits: seq<int>, s: int): int
    requires p > 0
    requires |wrBits| == Times(t.numWrTests, t.wrTestBits + 1)
  {
    (SuccessSum(t, wrBits, t.numWrTests) - t.numWrSuccesses * s) % p
  }

  function NormRangeCheck(p: int, t: PineType, vBits: seq<int>, uBits: seq<int>, s: int): int
    requires p > 0
  {
    FSub(p, FAdd(p, DecodeBits(p, vBits), DecodeBits(p, uBits)), FMul(p, t.sqNormBound, s))
  }

  // ---- Layout of the measurement

  ghost predicate Layout(t: PineType, meas: seq<int>) {
    && t.bitCheckedLen == 2 * t.sqNormBits + Times(t.numWrTests, t.wrTestBits + 1)
    && |meas| == t.dimension + t.bitCheckedLen + t.numWrTests
    && t.chunkLen > 0
  }

  ghost function Gradient(t: PineType, meas: seq<int>): (g: seq<int>)
    requires Layout(t, meas)
    ensures |g| == t.dimension
  {
    meas[..t.dimension]
  }

  ghost function BitChecked(t: PineType, meas: seq<int>): (b: seq<int>)
    requires Layout(t, meas)
    ensures |b| == t.bitCheckedLen
  {
    meas[t.dimension..t.dimension + t.bitCheckedLen]
  }

  ghost function WrResults(t: PineType, meas: seq<int>): (b: seq<int>)
    requires Layout(t, meas)
    ensures |b| == t.numWrTests
  {
    meas[t.dimension + t.bitCheckedLen..]
  }

  ghost function VBits(t: PineType, meas: seq<int>): (b: seq<int>)
    requires Layout(t, meas)
    ensures |b| == t.sqNormBits
  {
    BitChecked(t, meas)[..t.sqNormBits]
  }

  ghost function UBits(t: PineType, meas: seq<int>): (b: seq<int>)
    requires Layout(t, meas)
    ensures |b| == t.sqNormBits
  {
    BitChecked(t, meas)[t.sqNormBits..2 * t.sqNormBits]
  }

  ghost function WrBits(t: PineType, meas: seq<int>): (b: seq<int>)
    requires Layout(t, meas)
    ensures |b| == Times(t.numWrTests, t.wrTestBits + 1)
  {
    BitChecked(t, meas)[2 * t.sqNormBits..]
  }

  // ---- Gadget calls and circuit outputs

  ghost function BitCalls(p: int, t: PineType, meas: seq<int>, r: int, s: int): seq<seq<int>>
    requires p > 0 && Layout(t, meas)
  {
    ChunkPad(2 * t.chunkLen, BitWires(p, BitChecked(t, meas), r, s, 1))
  }

  ghost function WrCalls(p: int, t: PineType, meas: seq<int>, r: int, s: int): seq<seq<int>>
    requires p > 0 && Layout(t, meas)
  {
    ChunkPad(2 * t.chunkLen, WrWires(p, t, WrBits(t, meas), WrResults(t, meas), r, s, 1))
  }

  /** The gadget calls of the main circuit, in order. */
  ghost function MainCalls(p: int, t: PineType, meas: seq<int>, jr: seq<int>, numShares: nat): seq<seq<int>>
    requires p > 0 && Layout(t, meas)
    requires |jr| == 3
  {
    var s := SharesInv(p, numShares);
    BitCalls(p, t, meas, jr[0], s) + WrCalls(p, t, meas, jr[1], s)
  }

  /** The gadget calls of the squared-norm equality circuit, in order. */
  ghost function SqNormCalls(q: SqNormType, meas: seq<int>): seq<seq<int>>
    requires q.chunkLen > 0 && q.dimension <= |meas|
  {
    ChunkPad(q.chunkLen, meas[..q.dimension])
  }

  ghost function SumAnswers(f: Answers, k: nat, calls: seq<seq<int>>): int
    decreases |calls|
  {
    if calls == [] then 0 else f(k, calls[0]) + SumAnswers(f, k + 1, calls[1..])
  }

  /** The random linear combination of the four partial results. */
  function Combine(p: int, bitCheck: int, normCheck: int, wrCheck: int, countCheck: int, r: int): int
    requires p > 0
  {
    FAdd(p,
         FAdd(p,
              FAdd(p, bitCheck, FMul(p, r, normCheck)),
              FMul(p, FMul(p, r, r), wrCheck)),
         FMul(p, FMul(p, FMul(p, r, r), r), countCheck))
  }

  /** Output of the main circuit when the gadget answers `f`. */
  ghost function MainValid(p: int, t: PineType, f: Answers, meas: seq<int>, jr: seq<int>, numShares: nat): int
    requires p > 0 && Layout(t, meas)
    requires |jr| == 3
  {
    var s := SharesInv(p, numShares);
    var bitCalls := BitCalls(p, t, meas, jr[0], s);
    var wrCalls := WrCalls(p, t, meas, jr[1], s);
    Combine(p,
            SumAnswers(f, 0, bitCalls) % p,
            NormRangeCheck(p, t, VBits(t, meas), UBits(t, meas), s),
            SumAnswers(f, |bitCalls|, wrCalls) % p,
            SuccessCheck(p, t, WrBits(t, meas), s),
            jr[2])
  }

  /** Output of the squared-norm equality circuit when the gadget answers `f`. */
  ghost function SqNormValid(p: int, q: SqNormType, f: Answers, meas: seq<int>): int
    requires p > 0
    requires q.chunkLen > 0 && q.dimension + q.sqNormBits <= |meas|
  {
    FSub(p,
         DecodeBits(p, meas[q.dimension..q.dimension + q.sqNormBits]),
         SumAnswers(f, 0, SqNormCalls(q, meas)) % p)
  }

  /** Whether the wraparound checks run: bit vectors are decoded, and the number of successes is a field integer. */
  predicate WrRuns(p: int, intMax: nat, t: PineType) {
    (t.numWrTests > 0 ==> BitsFit(p, t.wrTestBits)) && t.numWrSuccesses <= intMax
  }

  /** Whether the main circuit runs; it depends on the parameters only. */
  predicate Runs(p: int, intMax: nat, t: PineType) {
    BitsFit(p, t.sqNormBits) && WrRuns(p, intMax, t)
  }

  /** What the main circuit returns when the gadget answers `f`. */
  ghost function MainOutput(p: int, intMax: nat, t: PineType, f: Answers, meas: seq<int>, jr: seq<int>,
                            numShares: nat): Result<int>
    requires p > 0 && Layout(t, meas)
    requires |jr| == 3
  {
    if Runs(p, intMax, t) then Ok(MainValid(p, t, f, meas, jr, numShares)) else Err
  }

  /** What the squared-norm equality circuit returns when the gadget answers `f`. */
  ghost function SqNormOutput(p: int, q: SqNormType, f: Answers, meas: seq<int>): Result<int>
    requires p > 0
    requires q.chunkLen > 0 && q.dimension + q.sqNormBits <= |meas|
  {
    if BitsFit(p, q.sqNormBits) then Ok(SqNormValid(p, q, f, meas)) else Err
  }

  // ---- The gadgets

  function MulSum(w: seq<int>): int {
    if |w| < 2 then 0 else w[0] * w[1] + MulSum(w[2..])
  }

  function SqSum(w: seq<int>): int {
    if w == [] then 0 else w[0] * w[0] + SqSum(w[1..])
  }

  /** `ParallelSum` of `Mul`, as evaluated by the prover. */
  function MulGadget(p: int): Answers
    requires p > 0
  {
    (_, w) => MulSum(w) % p
  }

  /** `ParallelSum` of the square polynomial, as evaluated by the prover. */
  function SqGadget(p: int): Answers
    requires p > 0
  {
    (_, w) => SqSum(w) % p
  }
}
