/**
Encoding of a gradient for the PINE circuits, and completeness: whatever the encoder
produces satisfies both circuits. The model starts from the fixed-point integers that
the source obtains by scaling and flooring each coordinate.
*/
module PineEncode {
  import opened Wrappers
  import opened Arithmetic
  import opened PrimeField
  import opened PineParams
  import opened PineCircuit
  import opened PineSoundness
  import opened PineNorm
  import opened PineWraparound

  // ---- Coordinates

  function Magnitude(x: int): nat {
    if x < 0 then -x else x
  }

  /** The conversion to an unsigned 64-bit integer saturates. */
  function EncodeCoord(p: int, intMax: nat, x: int): Result<int>
    requires p > 0
  {
    var mag := if Magnitude(x) > U64_MAX then U64_MAX else Magnitude(x);
    if mag > intMax then Err
    else if x < 0 then Ok(FSub(p, 0, mag % p))
    else Ok(mag % p)
  }

  /** Elements above half the modulus stand for negative numbers. */
  function DecodeCoord(p: int, y: int): Result<int> {
    var neg := y > p / 2;
    var mag := if neg then p - y else y;
    if mag > U64_MAX then Err else Ok(if neg then -mag else mag)
  }

  lemma EncodeCoordCong(p: int, intMax: nat, x: int)
    requires p > 0 && Magnitude(x) <= U64_MAX && Magnitude(x) <= intMax
    ensures EncodeCoord(p, intMax, x).Ok?
    ensures 0 <= EncodeCoord(p, intMax, x).value < p
    ensures Cong(p, EncodeCoord(p, intMax, x).value, x)
  {
    var mag := Magnitude(x);
    CongMod(p, mag);
    if x < 0 {
      CongSub(p, 0, 0, mag % p, mag);
      CongMod(p, 0 - mag % p);
    }
  }

  /** Decoding recovers exactly the integers of magnitude at most half the modulus that fit in 64 bits. */
  lemma DecodeCoordExact(p: int, y: int, x: int)
    requires p > 1 && p % 2 == 1 && 0 <= y < p && Cong(p, y, x)
    ensures DecodeCoord(p, y) == Ok(x) <==> Magnitude(x) <= p / 2 && Magnitude(x) <= U64_MAX
  {
    SmallMod(p, y);
    if Magnitude(x) <= p / 2 {
      if x >= 0 {
        SmallMod(p, x);
      } else {
        CongOfMultiple(p, x + p, x, 1);
        SmallMod(p, x + p);
      }
    }
  }

  function EncodeCoords(p: int, intMax: nat, xs: seq<int>): (r: Result<seq<int>>)
    requires p > 0
    ensures r.Ok? ==> |r.value| == |xs| && Canonical(p, r.value)
  {
    if xs == [] then Ok([])
    else
      match (EncodeCoord(p, intMax, xs[0]), EncodeCoords(p, intMax, xs[1..]))
      case (Ok(y), Ok(ys)) => Ok([y] + ys)
      case _ => Err
  }

  // ---- Range-checked values

  /** Whether `x` is in range, and its distances from both ends. */
  function RangeChecked(p: int, x: int, lower: int, upper: int): (bool, int, int)
    requires p > 0
  {
    (FSub(p, x, lower) <= FSub(p, upper, lower), FSub(p, x, lower), FSub(p, upper, x))
  }

  /** The bit vector of a value that fits in `n` bits, if the field takes vectors of that length. */
  function EncodeBits(p: int, v: int, n: nat): Result<seq<int>> {
    if BitsFit(p, n) && 0 <= v < Pow2(n) then Ok(ToBits(v, n)) else Err
  }

  // ---- The encoders as functions

  /** Gradient, then the bits of the squared norm and of its distance from the bound. */
  function EncodeGradient(p: int, intMax: nat, t: PineType, xs: seq<int>): (r: Result<seq<int>>)
    requires p > 0
    ensures r.Ok? ==> |r.value| == t.dimension + 2 * t.sqNormBits
  {
    match EncodeCoords(p, intMax, xs)
    case Err => Err
    case Ok(coords) =>
      if |xs| != t.dimension then Err
      else
        var (_, v, u) := RangeChecked(p, SqSum(coords) % p, 0, t.sqNormBound);
        match (EncodeBits(p, v, t.sqNormBits), EncodeBits(p, u, t.sqNormBits))
        case (Ok(vBits), Ok(uBits)) => Ok(coords + vBits + uBits)
        case _ => Err
  }

  function WrLower(p: int, t: PineType): int
    requires p > 0
  {
    FAdd(p, FSub(p, 0, t.wrTestBound), 1)
  }

  /** Bits of every test result with its success bit, `count` successes having been claimed before. */
  function EncodeWr(p: int, t: PineType, results: seq<int>, count: nat): Result<seq<int>>
    requires p > 0
  {
    if results == [] then if count == t.numWrSuccesses then Ok([]) else Err
    else
      var (inRange, v, _) := RangeChecked(p, results[0], WrLower(p, t), t.wrTestBound);
      var success := inRange && count < t.numWrSuccesses;
      match (EncodeBits(p, v, t.wrTestBits), EncodeWr(p, t, results[1..], if success then count + 1 else count))
      case (Ok(bits), Ok(rest)) => Ok(bits + [if success then 1 else 0] + rest)
      case _ => Err
  }

  /** Measurement and test results; `rand` is the expansion of the joint randomness seed. */
  ghost function EncodeWithWrJointRand(p: int, intMax: nat, t: PineType, xs: seq<int>, rand: seq<int>)
    : Result<(seq<int>, seq<int>)>
    requires p > 0 && t.dimension > 0
    requires |rand| == Times(t.numWrTests, ChunkCount(4, t.dimension))
  {
    match EncodeGradient(p, intMax, t, xs)
    case Err => Err
    case Ok(meas) =>
      var results := WrTests(p, meas[..t.dimension], t.numWrTests, rand);
      match EncodeWr(p, t, results, 0)
      case Err => Err
      case Ok(bits) => Ok((meas + bits, results))
  }

  // ---- The encoders as loops

  /** The remaining elements `rest` complete the pushed ones to the whole encoding. */
  ghost predicate Completes(whole: Result<seq<int>>, pushed: seq<int>, rest: Result<seq<int>>) {
    if rest.Ok? then whole == Ok(pushed + rest.value) else whole == Err
  }

  /** Push every encoded coordinate and accumulate the squared norm. */
  method PushCoords(p: int, intMax: nat, xs: seq<int>) returns (ok: bool, meas: seq<int>, sqNorm: int)
    requires p > 0
    ensures ok == EncodeCoords(p, intMax, xs).Ok?
    ensures ok ==> EncodeCoords(p, intMax, xs) == Ok(meas) && sqNorm == SqSum(meas) % p
  {
    ok, meas, sqNorm := true, [], 0;
    ghost var whole := EncodeCoords(p, intMax, xs);
    SmallMod(p, 0);
    var rest := xs;
    assert whole.Ok? ==> [] + whole.value == whole.value;
    while rest != []
      invariant sqNorm == SqSum(meas) % p
      invariant Completes(whole, meas, EncodeCoords(p, intMax, rest))
    {
      var y := EncodeCoord(p, intMax, rest[0]);
      if y.Err? {
        ok := false;
        return;
      }
      PushSquare(p, meas, y.value);
      ghost var left := EncodeCoords(p, intMax, rest[1..]);
      assert left.Ok? ==> meas + ([y.value] + left.value) == (meas + [y.value]) + left.value;
      meas := meas + [y.value];
      sqNorm := FAdd(p, sqNorm, FMul(p, y.value, y.value));
      rest := rest[1..];
    }
    assert meas + [] == meas;
  }

  method AppendEncodedGradient(p: int, intMax: nat, t: PineType, xs: seq<int>) returns (r: Result<seq<int>>)
    requires p > 0
    ensures r == EncodeGradient(p, intMax, t, xs)
  {
    var ok, meas, sqNorm := PushCoords(p, intMax, xs);
    if !ok || |meas| != t.dimension {
      return Err;
    }
    var (_, v, u) := RangeChecked(p, sqNorm, 0, t.sqNormBound);
    var vBits, uBits := EncodeBits(p, v, t.sqNormBits), EncodeBits(p, u, t.sqNormBits);
    if vBits.Err? || uBits.Err? {
      return Err;
    }
    meas := meas + vBits.value;
    meas := meas + uBits.value;
    return Ok(meas);
  }

  lemma {:induction false} PushSquare(p: int, meas: seq<int>, y: int)
    requires p > 0
    ensures FAdd(p, SqSum(meas) % p, FMul(p, y, y)) == SqSum(meas + [y]) % p
  {
    SqSumConcat(meas, [y]);
    assert [y][1..] == [];
    CongMod(p, SqSum(meas));
    CongMod(p, y * y);
    CongAdd(p, SqSum(meas) % p, SqSum(meas), FMul(p, y, y), y * y);
  }

  /** The encoding of the results from the front: what the first adds, and what is left. */
  lemma EncodeWrStep(p: int, t: PineType, results: seq<int>, count: nat, whole: Result<seq<int>>, pushed: seq<int>)
    requires p > 0 && results != []
    requires Completes(whole, pushed, EncodeWr(p, t, results, count))
    ensures var (inRange, v, _) := RangeChecked(p, results[0], WrLower(p, t), t.wrTestBound);
            var bits := EncodeBits(p, v, t.wrTestBits);
            var success := inRange && count < t.numWrSuccesses;
            if bits.Err? then whole == Err
            else Completes(whole, pushed + bits.value + [if success then 1 else 0],
                           EncodeWr(p, t, results[1..], if success then count + 1 else count))
  {
    var (inRange, v, _) := RangeChecked(p, results[0], WrLower(p, t), t.wrTestBound);
    var bits := EncodeBits(p, v, t.wrTestBits);
    var success := inRange && count < t.numWrSuccesses;
    var rest := EncodeWr(p, t, results[1..], if success then count + 1 else count);
    if bits.Ok? && rest.Ok? {
      var flag := [if success then 1 else 0];
      assert pushed + (bits.value + flag + rest.value) == pushed + bits.value + flag + rest.value;
    }
  }

  method AppendWrTestResults(p: int, t: PineType, meas: seq<int>, rand: seq<int>)
    returns (r: Result<(seq<int>, seq<int>)>)
    requires p > 0 && 0 < t.dimension <= |meas|
    requires |rand| == Times(t.numWrTests, ChunkCount(4, t.dimension))
    ensures var results := WrTests(p, meas[..t.dimension], t.numWrTests, rand);
            r == match EncodeWr(p, t, results, 0)
                 case Err => Err
                 case Ok(bits) => Ok((meas + bits, results))
  {
    var results := RunWrTests(p, meas[..t.dimension], t.numWrTests, rand);
    var meas', count := meas, 0;
    ghost var goal := EncodeWr(p, t, results, 0);
    ghost var whole := if goal.Ok? then Ok(meas + goal.value) else Err;
    assert results[0..] == results;
    for i := 0 to |results|
      invariant Completes(whole, meas', EncodeWr(p, t, results[i..], count))
    {
      assert results[i..][0] == results[i] && results[i..][1..] == results[i + 1..];
      EncodeWrStep(p, t, results[i..], count, whole, meas');
      var (inRange, v, _) := RangeChecked(p, results[i], WrLower(p, t), t.wrTestBound);
      var vBits := EncodeBits(p, v, t.wrTestBits);
      if vBits.Err? {
        return Err;
      }
      meas' := meas' + vBits.value;
      if inRange && count < t.numWrSuccesses {
        count := count + 1;
        meas' := meas' + [1];
      } else {
        meas' := meas' + [0];
      }
    }
    assert results[|results|..] == [];
    if count != t.numWrSuccesses {
      return Err;
    }
    assert meas' + [] == meas';
    return Ok((meas', results));
  }

  // ---- Completeness

  lemma {:induction false} EncodeGradientMeaning(p: int, intMax: nat, t: PineType, xs: seq<int>)
    requires p > 1 && t.Valid(p) && EncodeGradient(p, intMax, t, xs).Ok?
    ensures var meas := EncodeGradient(p, intMax, t, xs).value;
            var d, n := t.dimension, t.sqNormBits;
            && |meas| == d + 2 * n
            && EncodeCoords(p, intMax, xs) == Ok(meas[..d])
            && Canonical(p, meas[..d]) && AllBits(meas[d..])
            && BitsValue(meas[d..d + n]) == SqNorm(p, meas[..d])
            && NormRangeCheck(p, t, meas[d..d + n], meas[d + n..], 1) == 0
  {
    var meas := EncodeGradient(p, intMax, t, xs).value;
    var d, n := t.dimension, t.sqNormBits;
    var coords := EncodeCoords(p, intMax, xs).value;
    var s := SqSum(coords) % p;
    SmallMod(p, s);
    var u := FSub(p, t.sqNormBound, s);
    ToBitsCorrect(s, n);
    ToBitsCorrect(u, n);
    Slices(coords, ToBits(s, n), ToBits(u, n));
    CongMod(p, t.sqNormBound - s);
    CongAdd(p, s, s, u, t.sqNormBound - s);
    NormRangeCheckCong(p, t, ToBits(s, n), ToBits(u, n));
  }

  lemma Slices(a: seq<int>, b: seq<int>, c: seq<int>)
    ensures var s := a + b + c;
            s[..|a|] == a && s[|a|..|a| + |b|] == b && s[|a| + |b|..] == c && s[|a|..] == b + c
    ensures AllBits(b) && AllBits(c) ==> AllBits(b + c)
  {
  }

  lemma WrValueCong(p: int, t: PineType, result: int)
    requires p > 0
    ensures Cong(p, FSub(p, result, WrLower(p, t)), result + t.wrTestBound - 1)
  {
    var b: int := t.wrTestBound;
    CongMod(p, 0 - b);
    CongAdd(p, FSub(p, 0, b), -b, 1, 1);
    CongMod(p, FSub(p, 0, b) + 1);
    CongSub(p, result, result, WrLower(p, t), 1 - b);
    CongMod(p, result - WrLower(p, t));
  }

  /** The reported bits of a test close the gap. */
  lemma EncodedGapZero(p: int, t: PineType, result: int, g: int)
    requires p > 1
    requires FSub(p, result, WrLower(p, t)) < Pow2(t.wrTestBits)
    ensures var v := FSub(p, result, WrLower(p, t));
            var bits := ToBits(v, t.wrTestBits) + [g];
            WrGap(p, t, bits, result, 1) == 0 && (IsBit(g) ==> AllBits(bits))
  {
    var v := FSub(p, result, WrLower(p, t));
    var bits := ToBits(v, t.wrTestBits) + [g];
    ToBitsCorrect(v, t.wrTestBits);
    assert bits[..t.wrTestBits] == ToBits(v, t.wrTestBits);
    SmallMod(p, v);
    WrValueCong(p, t, result);
    CongSub(p, result, result, v, result + t.wrTestBound - 1);
    CongMod(p, result - v);
    var b := t.wrTestBound - 1;
    CongMod(p, b);
    CongMod(p, (b % p) * 1);
    CongAdd(p, FSub(p, result, v), -b, WrBoundTerm(p, t, 1), b);
    SmallMod(p, 0);
  }

  /** The bits reported for `results` satisfy the wraparound checks with `successes` successes. */
  ghost predicate WrReported(p: int, t: PineType, bits: seq<int>, results: seq<int>, successes: int)
    requires p > 0
  {
    && |bits| == Times(|results|, t.wrTestBits + 1)
    && AllBits(bits)
    && ZeroPoly(p, WrCoefs(p, t, bits, results, 1))
    && SuccessSum(t, bits, |results|) == successes
  }

  lemma WrReportedCons(p: int, t: PineType, head: seq<int>, rest: seq<int>, results: seq<int>, successes: int)
    requires p > 1 && results != []
    requires |head| == t.wrTestBits + 1 && AllBits(head) && WrGap(p, t, head, results[0], 1) == 0
    requires WrReported(p, t, rest, results[1..], successes)
    ensures WrReported(p, t, head + rest, results, head[t.wrTestBits] + successes)
  {
    var n := t.wrTestBits + 1;
    var bits := head + rest;
    assert bits[..n] == head && bits[n..] == rest;
    SmallMod(p, 0);
    assert WrCoefs(p, t, bits, results, 1) == [0 * bits[n - 1]] + WrCoefs(p, t, rest, results[1..], 1);
  }

  lemma {:induction false} EncodeWrMeaning(p: int, t: PineType, results: seq<int>, count: nat)
    requires p > 1 && EncodeWr(p, t, results, count).Ok?
    ensures WrReported(p, t, EncodeWr(p, t, results, count).value, results, t.numWrSuccesses - count)
  {
    if results != [] {
      var (inRange, v, _) := RangeChecked(p, results[0], WrLower(p, t), t.wrTestBound);
      var success := inRange && count < t.numWrSuccesses;
      var count' := if success then count + 1 else count;
      var g := if success then 1 else 0;
      EncodeWrMeaning(p, t, results[1..], count');
      EncodedGapZero(p, t, results[0], g);
      WrReportedCons(p, t, ToBits(v, t.wrTestBits) + [g], EncodeWr(p, t, results[1..], count').value, results,
                     t.numWrSuccesses - count');
    }
  }

  /** The test result is from `-wrTestBound + 1` to `wrTestBound`, modulo the field. */
  ghost predicate InBounds(p: int, t: PineType, result: int)
    requires p > 0
  {
    (result + (t.wrTestBound - 1)) % p <= (2 * t.wrTestBound - 1) % p
  }

  ghost function BoundedCount(p: int, t: PineType, results: seq<int>): nat
    requires p > 0
  {
    if results == [] then 0 else (if InBounds(p, t, results[0]) then 1 else 0) + BoundedCount(p, t, results[1..])
  }

  /** Test `i` is flagged as a success exactly if it is in bounds and fewer than required were before it. */
  lemma {:induction false} EncodeWrFlags(p: int, t: PineType, results: seq<int>, count: nat, i: nat)
    requires p > 1 && EncodeWr(p, t, results, count).Ok? && i < |results|
    ensures var (bits, at) := (EncodeWr(p, t, results, count).value, Times(i, t.wrTestBits + 1) + t.wrTestBits);
            && at < |bits|
            && bits[at] == if InBounds(p, t, results[i]) && count + BoundedCount(p, t, results[..i]) < t.numWrSuccesses
                           then 1 else 0
  {
    var (inRange, v, _) := RangeChecked(p, results[0], WrLower(p, t), t.wrTestBound);
    var success := inRange && count < t.numWrSuccesses;
    var count' := if success then count + 1 else count;
    var rest := EncodeWr(p, t, results[1..], count').value;
    var head := ToBits(v, t.wrTestBits) + [if success then 1 else 0];
    ToBitsCorrect(v, t.wrTestBits);
    assert EncodeWr(p, t, results, count).value == head + rest;
    RangeIsBounds(p, t, results[0]);
    if i > 0 {
      EncodeWrFlags(p, t, results[1..], count', i - 1);
      assert results[..i][0] == results[0] && results[..i][1..] == results[1..][..i - 1];
    }
  }

  lemma RangeIsBounds(p: int, t: PineType, result: int)
    requires p > 1
    ensures RangeChecked(p, result, WrLower(p, t), t.wrTestBound).0 <==> InBounds(p, t, result)
  {
    WrInRangeIsFit(p, t, result);
    WrInRangeIsFit(p, t, t.wrTestBound);
  }

  /** How an encoding is laid out. */
  lemma EncodingLayout(t: PineType, head: seq<int>, bits: seq<int>, results: seq<int>)
    requires |head| == t.dimension + 2 * t.sqNormBits && t.chunkLen > 0
    requires |bits| == Times(t.numWrTests, t.wrTestBits + 1) && |results| == t.numWrTests
    requires t.bitCheckedLen == 2 * t.sqNormBits + |bits|
    ensures var m := head + bits + results;
            var d, n := t.dimension, t.sqNormBits;
            && Layout(t, m)
            && BitChecked(t, m) == head[d..] + bits
            && Gradient(t, m) == head[..d] && WrResults(t, m) == results && WrBits(t, m) == bits
            && VBits(t, m) == head[d..d + n] && UBits(t, m) == head[d + n..]
  {
  }

  /**
  Completeness: a successful encoding has the length the circuits expect and satisfies
  every condition they check.
  */
  lemma EncodingSatisfies(p: int, intMax: nat, t: PineType, q: SqNormType, xs: seq<int>, rand: seq<int>)
    requires p > 1 && t.Valid(p) && q.Valid(t)
    requires |rand| == Times(t.numWrTests, ChunkCount(4, t.dimension))
    requires EncodeWithWrJointRand(p, intMax, t, xs, rand).Ok?
    ensures var (meas, results) := EncodeWithWrJointRand(p, intMax, t, xs, rand).value;
            && |meas + results| == t.inputLen
            && Layout(t, meas + results) && Canonical(p, meas + results)
            && Satisfied(p, t, meas + results)
            && SqNormValid(p, q, SqGadget(p), meas + results) == 0
  {
    var (meas, results) := EncodeWithWrJointRand(p, intMax, t, xs, rand).value;
    var head := EncodeGradient(p, intMax, t, xs).value;
    EncodeGradientMeaning(p, intMax, t, xs);
    EncodeWrMeaning(p, t, results, 0);
    var bits := EncodeWr(p, t, results, 0).value;
    EncodingLayout(t, head, bits, results);
    ReportedSatisfies(p, t, q, head, bits, results);
  }

  lemma ReportedSatisfies(p: int, t: PineType, q: SqNormType, head: seq<int>, bits: seq<int>, results: seq<int>)
    requires p > 1 && t.Valid(p) && q.Valid(t)
    requires |head| == t.dimension + 2 * t.sqNormBits
    requires |bits| == Times(t.numWrTests, t.wrTestBits + 1) && |results| == t.numWrTests
    requires t.bitCheckedLen == 2 * t.sqNormBits + |bits|
    requires var d, n := t.dimension, t.sqNormBits;
             && Canonical(p, head[..d]) && AllBits(head[d..]) && Canonical(p, results)
             && BitsValue(head[d..d + n]) == SqNorm(p, head[..d])
             && NormRangeCheck(p, t, head[d..d + n], head[d + n..], 1) == 0
    requires WrReported(p, t, bits, results, t.numWrSuccesses)
    ensures var m := head + bits + results;
            && Layout(t, m) && Canonical(p, m) && Satisfied(p, t, m)
            && SqNormValid(p, q, SqGadget(p), m) == 0
  {
    var m := head + bits + results;
    EncodingLayout(t, head, bits, results);
    SqNormValidMeaning(p, q, t, m);
    SmallMod(p, SqNorm(p, Gradient(t, m)));
    SmallMod(p, 0);
    ConcatCanonical(p, head, bits, results, t.dimension);
  }

  lemma ConcatCanonical(p: int, head: seq<int>, bits: seq<int>, results: seq<int>, d: nat)
    requires p > 1 && d <= |head|
    requires Canonical(p, head[..d]) && AllBits(head[d..]) && AllBits(bits) && Canonical(p, results)
    ensures Canonical(p, head + bits + results)
  {
    forall i | 0 <= i < |head| ensures 0 <= head[i] < p {
      if i < d { assert head[i] == head[..d][i]; } else { assert IsBit(head[d..][i - d]); }
    }
    forall i | 0 <= i < |bits| ensures 0 <= bits[i] < p { assert IsBit(bits[i]); }
  }

  /** What was encoded, the circuits can decode. */
  lemma EncodedFits(p: int, intMax: nat, t: PineType, xs: seq<int>, rand: seq<int>)
    requires p > 0 && t.dimension > 0 && |rand| == Times(t.numWrTests, ChunkCount(4, t.dimension))
    requires EncodeWithWrJointRand(p, intMax, t, xs, rand).Ok?
    ensures BitsFit(p, t.sqNormBits) && (t.numWrTests > 0 ==> BitsFit(p, t.wrTestBits))
  {
  }

  /**
  Completeness for every joint randomness: both circuits run and output zero, unless the required
  number of successes is no integer of the field.
  */
  lemma CircuitCompleteness(p: int, intMax: nat, t: PineType, q: SqNormType, xs: seq<int>, rand: seq<int>, jr: seq<int>)
    requires Prime(p) && t.Valid(p) && q.Valid(t) && |jr| == 3
    requires |rand| == Times(t.numWrTests, ChunkCount(4, t.dimension))
    requires EncodeWithWrJointRand(p, intMax, t, xs, rand).Ok?
    ensures var (meas, results) := EncodeWithWrJointRand(p, intMax, t, xs, rand).value;
            && |meas + results| == t.inputLen && Layout(t, meas + results)
            && MainOutput(p, intMax, t, MulGadget(p), meas + results, jr, 1)
               == (if t.numWrSuccesses <= intMax then Ok(0) else Err)
            && SqNormOutput(p, q, SqGadget(p), meas + results) == Ok(0)
  {
    EncodedFits(p, intMax, t, xs, rand);
    EncodingSatisfies(p, intMax, t, q, xs, rand);
    var (meas, results) := EncodeWithWrJointRand(p, intMax, t, xs, rand).value;
    SatisfiedAccepted(p, t, meas + results, jr);
  }

  // ---- When the encoder succeeds

  /** A squared norm above the bound that still has as many bits as the bound, and so has its distance from it. */
  predicate WrapsBelow(p: int, t: PineType, s: int) {
    s < Pow2(t.sqNormBits) && t.sqNormBound + p - s < Pow2(t.sqNormBits)
  }

  /** A fixed-point coordinate as the conversion to an unsigned 64-bit magnitude leaves it. */
  function Saturated(x: int): int {
    if Magnitude(x) <= U64_MAX then x else if x < 0 then 0 - U64_MAX else U64_MAX
  }

  function SaturatedAll(xs: seq<int>): (ys: seq<int>)
    ensures |ys| == |xs| && forall i | 0 <= i < |xs| :: ys[i] == Saturated(xs[i])
  {
    seq(|xs|, i requires 0 <= i < |xs| => Saturated(xs[i]))
  }

  /** Every coordinate fits the integer type of the field. */
  ghost predicate CoordsFit(intMax: nat, xs: seq<int>) {
    forall i | 0 <= i < |xs| :: Magnitude(Saturated(xs[i])) <= intMax
  }

  /** A gradient that fits is encoded with the squares of its saturated coordinates. */
  lemma {:induction false} EncodedSquares(p: int, intMax: nat, xs: seq<int>)
    requires p > 0
    ensures EncodeCoords(p, intMax, xs).Ok? <==> CoordsFit(intMax, xs)
    ensures CoordsFit(intMax, xs) ==> Cong(p, SqSum(EncodeCoords(p, intMax, xs).value), SqSum(SaturatedAll(xs)))
  {
    if xs != [] {
      EncodedSquares(p, intMax, xs[1..]);
      assert CoordsFit(intMax, xs) <==> Magnitude(Saturated(xs[0])) <= intMax && CoordsFit(intMax, xs[1..]) by {
        if Magnitude(Saturated(xs[0])) <= intMax && CoordsFit(intMax, xs[1..]) {
          forall i | 0 <= i < |xs| ensures Magnitude(Saturated(xs[i])) <= intMax {
            if i > 0 { assert xs[1..][i - 1] == xs[i]; }
          }
        }
      }
      if CoordsFit(intMax, xs) {
        var x, y := Saturated(xs[0]), EncodeCoord(p, intMax, xs[0]).value;
        EncodeCoordCong(p, intMax, x);
        CongMul(p, y, x, y, x);
        var ys := EncodeCoords(p, intMax, xs[1..]).value;
        assert ([y] + ys)[1..] == ys && SaturatedAll(xs)[1..] == SaturatedAll(xs[1..]);
        CongAdd(p, y * y, x * x, SqSum(ys), SqSum(SaturatedAll(xs[1..])));
      }
    }
  }

  /**
  A gradient is encodable exactly when the field takes bit vectors as long as the bound, its
  coordinates fit and its squared norm, modulo the field, is within the bound or wraps; under the
  condition on the parameters none wraps.
  */
  lemma EncodeGradientExact(p: int, intMax: nat, t: PineType, xs: seq<int>)
    requires p > 1 && t.Valid(p)
    ensures var s := SqSum(SaturatedAll(xs)) % p;
            && (EncodeGradient(p, intMax, t, xs).Ok? <==>
                  && BitsFit(p, t.sqNormBits) && |xs| == t.dimension && CoordsFit(intMax, xs)
                  && (s <= t.sqNormBound || WrapsBelow(p, t, s)))
            && (NoRangeWrap(p, t) && s > t.sqNormBound ==> !WrapsBelow(p, t, s))
  {
    EncodedSquares(p, intMax, xs);
    var s, b := SqSum(SaturatedAll(xs)) % p, t.sqNormBound;
    BitsTight(b);
    SmallMod(p, s);
    if s <= b {
      SmallMod(p, b - s);
    } else {
      CongOfMultiple(p, b - s + p, b - s, 1);
      SmallMod(p, b - s + p);
    }
  }

  /** Whether every wraparound test is in range. */
  ghost predicate AllInRange(p: int, t: PineType, results: seq<int>)
    requires p > 0
  {
    forall i | 0 <= i < |results| :: WrInRange(p, t, results[i])
  }

  lemma WrInRangeIsFit(p: int, t: PineType, result: int)
    requires p > 0
    ensures FSub(p, result, WrLower(p, t)) == (result + (t.wrTestBound - 1)) % p
  {
    WrValueCong(p, t, result);
    CongMod(p, result + (t.wrTestBound - 1));
    SmallMod(p, FSub(p, result, WrLower(p, t)));
  }

  lemma WrWidth(p: int, t: PineType)
    requires p > 1 && 0 < t.wrTestBound && 2 * t.wrTestBound <= p
    ensures FSub(p, t.wrTestBound, WrLower(p, t)) == 2 * t.wrTestBound - 1
  {
    WrInRangeIsFit(p, t, t.wrTestBound);
    SmallMod(p, 2 * t.wrTestBound - 1);
  }

  lemma {:induction false} EncodeWrExactFrom(p: int, t: PineType, results: seq<int>, count: nat)
    requires p > 1 && 0 < t.wrTestBound && Pow2(t.wrTestBits) == 2 * t.wrTestBound
    requires count <= t.numWrSuccesses <= count + |results|
    ensures EncodeWr(p, t, results, count).Ok? <==>
              (results != [] ==> BitsFit(p, t.wrTestBits)) && AllInRange(p, t, results)
  {
    if results != [] && BitsFit(p, t.wrTestBits) {
      var result := results[0];
      WrInRangeIsFit(p, t, result);
      WrWidth(p, t);
      var v := FSub(p, result, WrLower(p, t));
      if v < Pow2(t.wrTestBits) {
        assert WrInRange(p, t, result);
        EncodeWrExactFrom(p, t, results[1..], if count < t.numWrSuccesses then count + 1 else count);
        assert AllInRange(p, t, results) <==> AllInRange(p, t, results[1..]) by {
          if AllInRange(p, t, results[1..]) {
            forall i | 0 <= i < |results| ensures WrInRange(p, t, results[i]) {
              if i > 0 { assert WrInRange(p, t, results[1..][i - 1]); }
            }
          }
        }
      } else {
        assert !WrInRange(p, t, results[0]);
      }
    }
  }

  /**
  The encoder accepts the test results exactly when the field takes their bit vectors and all of
  them are in range: a test out of range has no bit encoding, so the tolerance between the number
  of tests and the required number of successes is never used.
  */
  lemma {:induction false} EncodeWrExact(p: int, t: PineType, results: seq<int>)
    requires p > 1 && t.Valid(p) && Pow2(t.wrTestBits) == 2 * t.wrTestBound
    requires |results| == t.numWrTests
    ensures EncodeWr(p, t, results, 0).Ok? <==>
              (t.numWrTests > 0 ==> BitsFit(p, t.wrTestBits)) && AllInRange(p, t, results)
  {
    EncodeWrExactFrom(p, t, results, 0);
  }
}
