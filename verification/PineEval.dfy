/**
The circuits as they are computed: loops that fill a buffer, call the gadget
whenever it is full, and fold the answers. Each method is proved to make exactly
the calls, and to return exactly the output, of the circuit functions, and to fail
exactly when a bit vector has a length the field does not take or the number of
successes is no integer of the field.
*/
module PineEval {
  import opened Wrappers
  import opened Arithmetic
  import opened PrimeField
  import opened PineParams
  import opened PineCircuit

  /** A gadget that records the wires of every call. */
  class Gadget {
    const answer: Answers
    var calls: seq<seq<int>>

    constructor (answer: Answers)
      ensures this.answer == answer && calls == []
    {
      this.answer := answer;
      calls := [];
    }

    method Call(wires: seq<int>) returns (y: int)
      modifies this
      ensures calls == old(calls) + [wires]
      ensures y == answer(|old(calls)|, wires)
    {
      y := answer(|calls|, wires);
      calls := calls + [wires];
    }
  }

  /** One step of a fold of answers: what was folded plus what is left stays congruent. */
  lemma FoldStep(p: int, total: int, acc: int, y: int, left: int)
    requires p > 0
    requires Cong(p, acc + (y + left), total)
    ensures Cong(p, FAdd(p, acc, y) + left, total)
  {
    CongMod(p, acc + y);
    CongAdd(p, FAdd(p, acc, y), acc + y, left, left);
  }

  /** The calls made so far and those still pending are `all`, and the fold accounts for the made ones. */
  ghost predicate Folding(p: int, f: Answers, w: nat, base: seq<seq<int>>, all: seq<seq<int>>,
                          calls: seq<seq<int>>, y: int, pending: seq<int>)
    requires p > 0 && w > 0
  {
    && calls + ChunkPad(w, pending) == base + all
    && 0 <= y < p
    && Cong(p, y + SumAnswers(f, |calls|, ChunkPad(w, pending)), SumAnswers(f, |base|, all))
  }

  /** Nothing is folded yet. */
  lemma {:induction false} FoldingStart(p: int, f: Answers, w: nat, base: seq<seq<int>>, wires: seq<int>)
    requires p > 0 && w > 0
    ensures Folding(p, f, w, base, ChunkPad(w, wires), base, 0, wires)
  {
  }

  /** Everything is folded. */
  lemma {:induction false} FoldingEnd(p: int, f: Answers, w: nat, base: seq<seq<int>>, all: seq<seq<int>>,
                                      calls: seq<seq<int>>, y: int)
    requires p > 0 && w > 0 && Folding(p, f, w, base, all, calls, y, [])
    ensures calls == base + all && y == SumAnswers(f, |base|, all) % p
  {
    assert calls + [] == calls;
    SmallMod(p, y);
  }

  method EvalBitChecks(p: int, chunkLen: nat, gadget: Gadget, bits: seq<int>, r: int, sharesInv: int)
    returns (y: int)
    requires p > 1 && chunkLen > 0
    modifies gadget
    ensures gadget.calls == old(gadget.calls) + ChunkPad(2 * chunkLen, BitWires(p, bits, r, sharesInv, 1))
    ensures y == SumAnswers(gadget.answer, |old(gadget.calls)|,
                            ChunkPad(2 * chunkLen, BitWires(p, bits, r, sharesInv, 1))) % p
  {
    ghost var base := gadget.calls;
    ghost var pending := BitWires(p, bits, r, sharesInv, 1);
    ghost var all := ChunkPad(2 * chunkLen, pending);
    var rPower, i := 1, 0;
    y := 0;
    assert bits[0..] == bits;
    FoldingStart(p, gadget.answer, 2 * chunkLen, base, pending);
    while i < |bits|
      invariant 0 <= i <= |bits|
      invariant pending == BitWires(p, bits[i..], r, sharesInv, rPower)
      invariant Folding(p, gadget.answer, 2 * chunkLen, base, all, gadget.calls, y, pending)
    {
      var buf, rPower', j := FillBits(p, chunkLen, bits, i, r, sharesInv, rPower);
      ghost var tail := BitWires(p, bits[j..], r, sharesInv, rPower');
      y := Flush(p, gadget, 2 * chunkLen, buf, base, all, y, pending, tail);
      rPower, i, pending := rPower', j, tail;
    }
    FoldingEnd(p, gadget.answer, 2 * chunkLen, base, all, gadget.calls, y);
  }

  /** Fill the buffer from one chunk of bits. */
  method FillBits(p: int, chunkLen: nat, bits: seq<int>, i: nat, r: int, sharesInv: int, rPower: int)
    returns (buf: seq<int>, rPower': int, j: nat)
    requires p > 1 && chunkLen > 0 && i < |bits|
    ensures i < j <= |bits| && |buf| <= 2 * chunkLen
    ensures j == |bits| || |buf| == 2 * chunkLen
    ensures buf + BitWires(p, bits[j..], r, sharesInv, rPower') == BitWires(p, bits[i..], r, sharesInv, rPower)
  {
    buf, rPower', j := [], rPower, i;
    while j < |bits| && j - i < chunkLen
      invariant i <= j <= |bits| && |buf| == 2 * (j - i) <= 2 * chunkLen
      invariant buf + BitWires(p, bits[j..], r, sharesInv, rPower')
             == BitWires(p, bits[i..], r, sharesInv, rPower)
    {
      NextBit(p, bits, j, r, sharesInv, rPower', buf);
      var x := bits[j];
      buf := buf + [FMul(p, rPower', x)];
      buf := buf + [FSub(p, x, sharesInv)];
      rPower', j := FMul(p, rPower', r), j + 1;
    }
  }

  lemma {:induction false} NextBit(p: int, bits: seq<int>, j: nat, r: int, s: int, rPower: int, buf: seq<int>)
    requires p > 0 && j < |bits|
    ensures buf + [FMul(p, rPower, bits[j])] + [FSub(p, bits[j], s)]
            + BitWires(p, bits[j + 1..], r, s, FMul(p, rPower, r))
            == buf + BitWires(p, bits[j..], r, s, rPower)
  {
    assert bits[j..][0] == bits[j] && bits[j..][1..] == bits[j + 1..];
    PushTwo(buf, FMul(p, rPower, bits[j]), FSub(p, bits[j], s), BitWires(p, bits[j + 1..], r, s, FMul(p, rPower, r)));
  }

  /** A full or final buffer is the next call. */
  lemma NextCall(w: nat, wires: seq<int>, buf: seq<int>, tail: seq<int>)
    requires w > 0 && 0 < |buf| <= w
    requires wires == buf + tail
    requires tail == [] || |buf| == w
    ensures ChunkPad(w, wires) == [buf + Zeros(w - |buf|)] + ChunkPad(w, tail)
  {
    if tail == [] {
      assert wires == buf;
    } else {
      assert wires[..w] == buf && wires[w..] == tail;
      assert buf + Zeros(0) == buf;
    }
  }

  method EvalWrChecks(p: int, intMax: nat, t: PineType, gadget: Gadget, wrBits: seq<int>, results: seq<int>,
                      r: int, sharesInv: int)
    returns (checks: Result<(int, int)>)
    requires p > 1 && t.chunkLen > 0
    requires |wrBits| == Times(|results|, t.wrTestBits + 1) && |results| == t.numWrTests
    modifies gadget
    ensures checks.Ok? <==> WrRuns(p, intMax, t)
    ensures var all := ChunkPad(2 * t.chunkLen, WrWires(p, t, wrBits, results, r, sharesInv, 1));
            checks.Ok? ==>
              && gadget.calls == old(gadget.calls) + all
              && checks.value.0 == SumAnswers(gadget.answer, |old(gadget.calls)|, all) % p
              && checks.value.1 == SuccessCheck(p, t, wrBits, sharesInv)
  {
    ghost var base := gadget.calls;
    ghost var pending := WrWires(p, t, wrBits, results, r, sharesInv, 1);
    ghost var all := ChunkPad(2 * t.chunkLen, pending);
    ghost var successes := SuccessSum(t, wrBits, |results|);
    var rPower, bits, todo, buf := 1, wrBits, results, [];
    var y, count := 0, 0;
    FoldingStart(p, gadget.answer, 2 * t.chunkLen, base, pending);
    while todo != []
      invariant |bits| == Times(|todo|, t.wrTestBits + 1) && |buf| < 2 * t.chunkLen && EvenLen(buf)
      invariant pending == buf + WrWires(p, t, bits, todo, r, sharesInv, rPower)
      invariant Folding(p, gadget.answer, 2 * t.chunkLen, base, all, gadget.calls, y, pending)
      invariant Counting(p, t, bits, |todo|, count, successes)
      invariant |todo| < |results| ==> BitsFit(p, t.wrTestBits)
      decreases |todo|
    {
      if !BitsFit(p, t.wrTestBits) {
        return Err;
      }
      buf, count := AddTest(p, t, bits, todo, r, sharesInv, rPower, buf, count, successes);
      rPower, bits, todo := FMul(p, rPower, r), bits[t.wrTestBits + 1..], todo[1..];
      if |buf| == 2 * t.chunkLen {
        ghost var tail := WrWires(p, t, bits, todo, r, sharesInv, rPower);
        y := Flush(p, gadget, 2 * t.chunkLen, buf, base, all, y, pending, tail);
        buf, pending := [], tail;
      }
    }
    assert pending == buf;
    if buf != [] {
      y := Flush(p, gadget, 2 * t.chunkLen, buf, base, all, y, pending, []);
    }
    FoldingEnd(p, gadget.answer, 2 * t.chunkLen, base, all, gadget.calls, y);
    CountEnd(p, t, bits, count, wrBits, sharesInv);
    if t.numWrSuccesses > intMax {
      return Err;
    }
    return Ok((y, FSub(p, count, FMul(p, t.numWrSuccesses, sharesInv))));
  }

  ghost predicate EvenLen(buf: seq<int>) {
    |buf| % 2 == 0
  }

  lemma PushEven(buf: seq<int>, x: int, y: int, w: nat)
    requires EvenLen(buf) && |buf| < 2 * w
    ensures EvenLen(buf + [x] + [y]) && |buf + [x] + [y]| <= 2 * w
  {
  }

  /** The successes counted so far and those of the remaining tests add up. */
  ghost predicate Counting(p: int, t: PineType, bits: seq<int>, tests: nat, count: int, successes: int)
    requires p > 0 && |bits| == Times(tests, t.wrTestBits + 1)
  {
    Cong(p, count + SuccessSum(t, bits, tests), successes)
  }

  /** All successes are counted. */
  lemma {:induction false} CountEnd(p: int, t: PineType, bits: seq<int>, count: int, wrBits: seq<int>, s: int)
    requires p > 0 && bits == [] && |wrBits| == Times(t.numWrTests, t.wrTestBits + 1)
    requires Counting(p, t, bits, 0, count, SuccessSum(t, wrBits, t.numWrTests))
    ensures FSub(p, count, FMul(p, t.numWrSuccesses, s)) == SuccessCheck(p, t, wrBits, s)
  {
    SubReduced(p, count, SuccessSum(t, wrBits, t.numWrTests), t.numWrSuccesses * s);
  }

  /** Move one test from the remaining ones to the buffer and the success count. */
  method AddTest(p: int, t: PineType, bits: seq<int>, todo: seq<int>, r: int, s: int, rPower: int,
                 buf: seq<int>, count: int, ghost successes: int)
    returns (buf': seq<int>, count': int)
    requires p > 0 && todo != [] && EvenLen(buf) && |buf| < 2 * t.chunkLen
    requires |bits| == Times(|todo|, t.wrTestBits + 1)
    requires Counting(p, t, bits, |todo|, count, successes)
    ensures |buf'| <= 2 * t.chunkLen && EvenLen(buf') && buf' != []
    ensures t.wrTestBits + 1 <= |bits|
    ensures |bits[t.wrTestBits + 1..]| == Times(|todo[1..]|, t.wrTestBits + 1)
    ensures buf' + WrWires(p, t, bits[t.wrTestBits + 1..], todo[1..], r, s, FMul(p, rPower, r))
         == buf + WrWires(p, t, bits, todo, r, s, rPower)
    ensures Counting(p, t, bits[t.wrTestBits + 1..], |todo[1..]|, count', successes)
  {
    var n := t.wrTestBits + 1;
    var gap := WrGap(p, t, bits[..n], todo[0], s);
    var g := bits[n - 1];
    buf' := buf + [FMul(p, rPower, gap)];
    buf' := buf' + [g];
    PushEven(buf, FMul(p, rPower, gap), g, t.chunkLen);
    NextTest(p, t, bits, todo, r, s, rPower, buf);
    FoldStep(p, successes, count, g, SuccessSum(t, bits[n..], |todo| - 1));
    count' := FAdd(p, count, g);
  }

  lemma {:induction false} NextTest(p: int, t: PineType, bits: seq<int>, todo: seq<int>, r: int, s: int, rPower: int,
                                    buf: seq<int>)
    requires p > 0 && todo != [] && |bits| == Times(|todo|, t.wrTestBits + 1)
    ensures t.wrTestBits + 1 <= |bits| && |bits[t.wrTestBits + 1..]| == Times(|todo[1..]|, t.wrTestBits + 1)
    ensures var n := t.wrTestBits + 1;
            (buf + [FMul(p, rPower, WrGap(p, t, bits[..n], todo[0], s))] + [bits[n - 1]]
             + WrWires(p, t, bits[n..], todo[1..], r, s, FMul(p, rPower, r))
             == buf + WrWires(p, t, bits, todo, r, s, rPower))
  {
    var n := t.wrTestBits + 1;
    var x, y, rest := FMul(p, rPower, WrGap(p, t, bits[..n], todo[0], s)), bits[n - 1],
                      WrWires(p, t, bits[n..], todo[1..], r, s, FMul(p, rPower, r));
    PushTwo(buf, x, y, rest);
  }

  lemma PushTwo(buf: seq<int>, x: int, y: int, rest: seq<int>)
    ensures buf + [x] + [y] + rest == buf + ([x, y] + rest)
  {
  }

  lemma SubReduced(p: int, a: int, a': int, b: int)
    requires p > 0 && Cong(p, a, a')
    ensures FSub(p, a, b % p) == (a' - b) % p
  {
    CongMod(p, b);
    CongSub(p, a, a', b % p, b);
  }

  /** Pad the buffer, call the gadget and fold its answer. */
  method Flush(p: int, gadget: Gadget, w: nat, buf: seq<int>, ghost base: seq<seq<int>>, ghost all: seq<seq<int>>,
               y: int, ghost pending: seq<int>, ghost tail: seq<int>)
    returns (y': int)
    requires p > 0 && 0 < |buf| <= w
    requires pending == buf + tail && (tail == [] || |buf| == w)
    requires Folding(p, gadget.answer, w, base, all, gadget.calls, y, pending)
    modifies gadget
    ensures Folding(p, gadget.answer, w, base, all, gadget.calls, y', tail)
  {
    NextCall(w, pending, buf, tail);
    ghost var left := ChunkPad(w, tail);
    var padded := buf + Zeros(w - |buf|);
    assert ([padded] + left)[1..] == left;
    var answer := gadget.Call(padded);
    FoldStep(p, SumAnswers(gadget.answer, |base|, all), y, answer, SumAnswers(gadget.answer, |gadget.calls|, left));
    y' := FAdd(p, y, answer);
    assert old(gadget.calls) + ([padded] + left) == gadget.calls + left;
  }

  /** The main validity circuit. */
  method Valid(p: int, intMax: nat, t: PineType, gadget: Gadget, meas: seq<int>, jr: seq<int>, numShares: nat)
    returns (output: Result<int>)
    requires p > 1 && Layout(t, meas)
    requires |jr| == 3
    requires gadget.calls == []
    modifies gadget
    ensures output == MainOutput(p, intMax, t, gadget.answer, meas, jr, numShares)
    ensures output.Ok? ==> gadget.calls == MainCalls(p, t, meas, jr, numShares)
  {
    var sharesInv := SharesInv(p, numShares);
    var rest := meas[t.dimension..];
    var bitChecked, wrTestResults := rest[..t.bitCheckedLen], rest[t.bitCheckedLen..];
    var vBits, rest' := bitChecked[..t.sqNormBits], bitChecked[t.sqNormBits..];
    var uBits, wrTestBits := rest'[..t.sqNormBits], rest'[t.sqNormBits..];
    assert bitChecked == BitChecked(t, meas) && wrTestResults == WrResults(t, meas);
    assert vBits == VBits(t, meas) && uBits == UBits(t, meas) && wrTestBits == WrBits(t, meas);

    var bitCheck := EvalBitChecks(p, t.chunkLen, gadget, bitChecked, jr[0], sharesInv);
    ghost var bitCalls := BitCalls(p, t, meas, jr[0], sharesInv);
    assert gadget.calls == bitCalls;
    var wrChecks := EvalWrChecks(p, intMax, t, gadget, wrTestBits, wrTestResults, jr[1], sharesInv);
    if wrChecks.Err? {
      return Err;
    }
    var (wrCheck, countCheck) := wrChecks.value;
    if !BitsFit(p, t.sqNormBits) {
      return Err;
    }
    var normCheck := NormRangeCheck(p, t, vBits, uBits, sharesInv);

    var y := bitCheck;
    var rPower := jr[2];
    y := FAdd(p, y, FMul(p, rPower, normCheck));
    rPower := FMul(p, rPower, jr[2]);
    y := FAdd(p, y, FMul(p, rPower, wrCheck));
    rPower := FMul(p, rPower, jr[2]);
    y := FAdd(p, y, FMul(p, rPower, countCheck));
    return Ok(y);
  }

  /** The squared-norm equality circuit. */
  method ValidSqNorm(p: int, q: SqNormType, gadget: Gadget, meas: seq<int>)
    returns (output: Result<int>)
    requires p > 1
    requires q.chunkLen > 0 && q.dimension + q.sqNormBits <= |meas|
    requires gadget.calls == []
    modifies gadget
    ensures gadget.calls == SqNormCalls(q, meas)
    ensures output == SqNormOutput(p, q, gadget.answer, meas)
  {
    var gradient, rest := meas[..q.dimension], meas[q.dimension..];
    var vBits := rest[..q.sqNormBits];
    assert vBits == meas[q.dimension..q.dimension + q.sqNormBits];
    ghost var all := ChunkPad(q.chunkLen, gradient);
    var sqNorm := 0;
    FoldingStart(p, gadget.answer, q.chunkLen, [], gradient);
    while gradient != []
      invariant Folding(p, gadget.answer, q.chunkLen, [], all, gadget.calls, sqNorm, gradient)
      decreases |gradient|
    {
      var m := if q.chunkLen < |gradient| then q.chunkLen else |gradient|;
      sqNorm := Flush(p, gadget, q.chunkLen, gradient[..m], [], all, sqNorm, gradient, gradient[m..]);
      gradient := gradient[m..];
    }
    FoldingEnd(p, gadget.answer, q.chunkLen, [], all, gadget.calls, sqNorm);
    assert [] + all == all;
    if !BitsFit(p, q.sqNormBits) {
      return Err;
    }
    return Ok(FSub(p, DecodeBits(p, vBits), sqNorm));
  }
}
