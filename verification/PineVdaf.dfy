/**
The PINE VDAF: sharding by the client, preparation by the two aggregators, aggregation
and unsharding. The extendable-output function is an arbitrary function and the fully
linear proof system an arbitrary implementation of its interface; what the honest run
needs of the latter is stated as its completeness.
*/
module PineVdaf {
  import opened Wrappers
  import opened Arithmetic
  import opened PrimeField
  import opened PineParams
  import opened PineCircuit
  import opened PineLinearity
  import opened PineWraparound
  import opened PineEncode

  type Seed = int
  type Nonce = int

  const USAGE_VF_JOINT_RAND_SEED: int := 6
  const USAGE_VF_JOINT_RAND_PART: int := 7
  const USAGE_WR_JOINT_RAND_SEED: int := 9
  const USAGE_WR_JOINT_RAND_PART: int := 10

  /** Everything derived from seeds. */
  datatype Xof = Xof(
    jointRandPart: (int, nat, Seed, Nonce, seq<int>) -> Seed,
    jointRandSeed: (int, Seed, Seed) -> Seed,
    helperMeasShare: Seed -> seq<int>,
    helperProofShare: Seed -> seq<int>,
    wrRand: Seed -> seq<int>,
    vfJointRands: Seed -> seq<int>,
    proveRands: Seed -> seq<int>,
    queryRands: (Seed, Nonce) -> seq<int>)

  /**
  The proof system of one circuit; queries are made with two shares. A query may be refused for
  its randomness: `goodQuery` tells the randomness it accepts.
  */
  datatype Flp = Flp(
    prove: (seq<int>, seq<int>, seq<int>) -> seq<int>,
    query: (seq<int>, seq<int>, seq<int>, seq<int>) -> Result<seq<int>>,
    decide: seq<int> -> bool,
    goodQuery: seq<int> -> bool,
    inputLen: nat,
    proofLen: nat,
    verifierLen: nat,
    proveRandLen: nat,
    jointRandLen: nat,
    queryRandLen: nat)

  datatype Vdaf = Vdaf(p: nat, intMax: nat, pine: Pine, xof: Xof, flp: Flp, flpSq: Flp)

  datatype PublicShare = PublicShare(wrParts: (Seed, Seed), vfParts: (Seed, Seed))

  type InputShare = InputShareOf<int, Seed>

  datatype PrepState = PrepState(gradientShare: seq<int>, wrSeed: Seed, vfSeed: Seed, verifiersLen: nat)

  datatype PrepShare = PrepShare(verifiers: seq<int>, wrPart: Seed, vfPart: Seed)

  datatype PrepMessage = PrepMessage(wrSeed: Seed, vfSeed: Seed)

  datatype ShardRand = ShardRand(measShareSeed1: Seed, proofsShareSeed1: Seed, wrBlind1: Seed, vfBlind1: Seed,
                                 wrBlind0: Seed, vfBlind0: Seed, proveSeed: Seed)

  // ---- Vectors

  /** Add `b` into `a`, as far as both reach. */
  function AddVec(p: int, a: seq<int>, b: seq<int>): (r: seq<int>)
    requires p > 0
    ensures |r| == |a|
    ensures forall i | 0 <= i < |a| :: r[i] == if i < |b| then FAdd(p, a[i], b[i]) else a[i]
  {
    seq(|a|, i requires 0 <= i < |a| => if i < |b| then FAdd(p, a[i], b[i]) else a[i])
  }

  /** Subtract `b` from `a` element by element. */
  function SubVec(p: int, a: seq<int>, b: seq<int>): (r: seq<int>)
    requires p > 0 && |a| <= |b|
    ensures |r| == |a| && Canonical(p, r)
    ensures forall i | 0 <= i < |a| :: r[i] == FSub(p, a[i], b[i])
  {
    seq(|a|, i requires 0 <= i < |a| => FSub(p, a[i], b[i]))
  }

  lemma SubVecShares(p: int, a: seq<int>, b: seq<int>)
    requires p > 0 && |a| == |b|
    ensures SharesOf(p, SubVec(p, a, b), b, a)
  {
    forall i | 0 <= i < |a| ensures Cong(p, SubVec(p, a, b)[i] + b[i], a[i]) {
      CongMod(p, a[i] - b[i]);
      CongAdd(p, FSub(p, a[i], b[i]), a[i] - b[i], b[i], b[i]);
    }
  }

  // ---- Several proofs per circuit

  function ProveAll(flp: Flp, meas: seq<int>, proveRands: seq<int>, jointRands: seq<int>, n: nat): seq<int>
    requires |proveRands| == Times(n, flp.proveRandLen) && |jointRands| == Times(n, flp.jointRandLen)
  {
    if n == 0 then []
    else
      var (a, b) := (flp.proveRandLen, flp.jointRandLen);
      flp.prove(meas, proveRands[..a], jointRands[..b]) + ProveAll(flp, meas, proveRands[a..], jointRands[b..], n - 1)
  }

  function QueryAll(flp: Flp, meas: seq<int>, proofs: seq<int>, queryRands: seq<int>, jointRands: seq<int>, n: nat)
    : Result<seq<int>>
    requires |proofs| == Times(n, flp.proofLen)
    requires |queryRands| == Times(n, flp.queryRandLen) && |jointRands| == Times(n, flp.jointRandLen)
  {
    if n == 0 then Ok([])
    else
      var (a, b, c) := (flp.proofLen, flp.queryRandLen, flp.jointRandLen);
      match (flp.query(meas, proofs[..a], queryRands[..b], jointRands[..c]),
             QueryAll(flp, meas, proofs[a..], queryRands[b..], jointRands[c..], n - 1))
      case (Ok(v), Ok(vs)) => Ok(v + vs)
      case _ => Err
  }

  /** Decide every whole verifier in `verifiers`. */
  predicate DecideAll(flp: Flp, verifiers: seq<int>)
    requires flp.verifierLen > 0
    decreases |verifiers|
  {
    |verifiers| >= flp.verifierLen ==>
      flp.decide(verifiers[..flp.verifierLen]) && DecideAll(flp, verifiers[flp.verifierLen..])
  }

  /** Arguments of the lengths the prover expects. */
  ghost predicate ProverSized(flp: Flp, m: seq<int>, pr: seq<int>, jr: seq<int>) {
    |m| == flp.inputLen && |pr| == flp.proveRandLen && |jr| == flp.jointRandLen
  }

  ghost predicate ProofSized(flp: Flp) {
    forall m, pr, jr {:trigger flp.prove(m, pr, jr)} | ProverSized(flp, m, pr, jr) ::
      |flp.prove(m, pr, jr)| == flp.proofLen
  }

  lemma {:induction false} ProveAllLen(flp: Flp, meas: seq<int>, proveRands: seq<int>, jointRands: seq<int>, n: nat)
    requires ProofSized(flp) && |meas| == flp.inputLen
    requires |proveRands| == Times(n, flp.proveRandLen) && |jointRands| == Times(n, flp.jointRandLen)
    ensures |ProveAll(flp, meas, proveRands, jointRands, n)| == Times(n, flp.proofLen)
  {
    if n > 0 {
      ProveAllLen(flp, meas, proveRands[flp.proveRandLen..], jointRands[flp.jointRandLen..], n - 1);
    }
  }

  /** The lengths a proof system and an extendable-output function commit to. */
  ghost predicate Shaped(v: Vdaf) {
    var t := v.pine.flp;
    && v.p > 1 && 0 < t.dimension
    && v.pine.encodedGradientAndSqNormLen == t.dimension + 2 * t.sqNormBits
    && v.pine.encodedInputLen == v.pine.encodedGradientAndSqNormLen + Times(t.numWrTests, t.wrTestBits + 1)
    && v.flp.verifierLen > 0 && v.flpSq.verifierLen > 0
    && ProofSized(v.flp) && ProofSized(v.flpSq)
    && v.flp.jointRandLen == 3 && v.flpSq.jointRandLen == 0
    && v.flp.inputLen == v.flpSq.inputLen == v.pine.encodedInputLen + t.numWrTests
    && (forall s {:trigger v.xof.helperMeasShare(s)} :: |v.xof.helperMeasShare(s)| == v.pine.encodedInputLen)
    && (forall s {:trigger v.xof.helperProofShare(s)} :: |v.xof.helperProofShare(s)| == ProofsLen(v))
    && (forall s {:trigger v.xof.wrRand(s)} :: |v.xof.wrRand(s)| == Times(t.numWrTests, ChunkCount(4, t.dimension)))
    && (forall s {:trigger v.xof.vfJointRands(s)} :: |v.xof.vfJointRands(s)| == Times(v.pine.numProofs, 3))
    && (forall s {:trigger v.xof.proveRands(s)} ::
          |v.xof.proveRands(s)| == SqProveRandsLen(v) + Times(v.pine.numProofs, v.flp.proveRandLen))
    && (forall k, n {:trigger v.xof.queryRands(k, n)} ::
          |v.xof.queryRands(k, n)| == SqQueryRandsLen(v) + Times(v.pine.numProofs, v.flp.queryRandLen))
  }

  function SqProveRandsLen(v: Vdaf): nat {
    Times(v.pine.numProofsSqNormEqual, v.flpSq.proveRandLen)
  }

  function SqQueryRandsLen(v: Vdaf): nat {
    Times(v.pine.numProofsSqNormEqual, v.flpSq.queryRandLen)
  }

  /** The random bytes of the wraparound tests. */
  ghost function WrRand(v: Vdaf, wrSeed: Seed): (r: seq<int>)
    requires Shaped(v)
    ensures |r| == Times(v.pine.flp.numWrTests, ChunkCount(4, v.pine.flp.dimension))
  {
    v.xof.wrRand(wrSeed)
  }

  /** The joint randomness of all proofs of the main circuit. */
  ghost function JointRands(v: Vdaf, vfSeed: Seed): (r: seq<int>)
    requires Shaped(v)
    ensures |r| == Times(v.pine.numProofs, 3)
  {
    v.xof.vfJointRands(vfSeed)
  }

  /** The test results of a gradient, or gradient share, under a wraparound seed. */
  ghost function SeededTests(v: Vdaf, gradient: seq<int>, wrSeed: Seed): (r: seq<int>)
    requires Shaped(v) && |gradient| == v.pine.flp.dimension
    ensures |r| == v.pine.flp.numWrTests && Canonical(v.p, r)
  {
    WrTests(v.p, gradient, v.pine.flp.numWrTests, WrRand(v, wrSeed))
  }

  function SqProofsLen(v: Vdaf): nat {
    Times(v.pine.numProofsSqNormEqual, v.flpSq.proofLen)
  }

  function ProofsLen(v: Vdaf): nat {
    SqProofsLen(v) + Times(v.pine.numProofs, v.flp.proofLen)
  }

  // ---- Client

  /** What the client has computed before it proves anything. */
  datatype ClientView = ClientView(head: seq<int>, bits: seq<int>, results: seq<int>,
                                   meas0: seq<int>, meas1: seq<int>, wrParts: (Seed, Seed))

  /** The shares of the gradient and squared norm, and the wraparound parts derived from them. */
  ghost function SplitHead(v: Vdaf, head: seq<int>, nonce: Nonce, rand: ShardRand): (seq<int>, seq<int>, (Seed, Seed))
    requires Shaped(v) && |head| == v.pine.encodedGradientAndSqNormLen
  {
    var meas1 := v.xof.helperMeasShare(rand.measShareSeed1);
    var meas0 := SubVec(v.p, head, meas1[..|head|]);
    (meas0, meas1, (v.xof.jointRandPart(USAGE_WR_JOINT_RAND_PART, 0, rand.wrBlind0, nonce, meas0),
                    v.xof.jointRandPart(USAGE_WR_JOINT_RAND_PART, 1, rand.wrBlind1, nonce, meas1[..|head|])))
  }

  ghost function ClientEncode(v: Vdaf, xs: seq<int>, nonce: Nonce, rand: ShardRand): (r: Result<ClientView>)
    requires Shaped(v)
    ensures r.Ok? ==> |r.value.head| == v.pine.encodedGradientAndSqNormLen
                      && |r.value.head| + |r.value.bits| == |r.value.meas0| == |r.value.meas1| == v.pine.encodedInputLen
                      && |r.value.results| == v.pine.flp.numWrTests
  {
    var t := v.pine.flp;
    match EncodeGradient(v.p, v.intMax, t, xs)
    case Err => Err
    case Ok(head) =>
      var (meas0, meas1, wrParts) := SplitHead(v, head, nonce, rand);
      var results := SeededTests(v, head[..t.dimension],
                                 v.xof.jointRandSeed(USAGE_WR_JOINT_RAND_SEED, wrParts.0, wrParts.1));
      match EncodeWr(v.p, t, results, 0)
      case Err => Err
      case Ok(bits) =>
        EncodeWrMeaning(v.p, t, results, 0);
        Ok(ClientView(head, bits, results, meas0 + SubVec(v.p, bits, meas1[|head|..]), meas1, wrParts))
  }

  /** Proving evaluates the circuit: there is no proof of one that does not run. */
  predicate ProversRun(v: Vdaf) {
    && (v.pine.numProofsSqNormEqual > 0 ==> BitsFit(v.p, v.pine.flpSqNormEqual.sqNormBits))
    && (v.pine.numProofs > 0 ==> Runs(v.p, v.intMax, v.pine.flp))
  }

  ghost function ShardWithRand(v: Vdaf, xs: seq<int>, nonce: Nonce, rand: ShardRand)
    : Result<(PublicShare, InputShare, InputShare)>
    requires Shaped(v)
  {
    match ClientEncode(v, xs, nonce, rand)
    case Err => Err
    case Ok(c) =>
      if !ProversRun(v) then Err else
      var vfParts := (v.xof.jointRandPart(USAGE_VF_JOINT_RAND_PART, 0, rand.vfBlind0, nonce, c.meas0),
                      v.xof.jointRandPart(USAGE_VF_JOINT_RAND_PART, 1, rand.vfBlind1, nonce, c.meas1));
      var jointRands := JointRands(v, v.xof.jointRandSeed(USAGE_VF_JOINT_RAND_SEED, vfParts.0, vfParts.1));
      var proofs := Proofs(v, c.head + c.bits + c.results, rand.proveSeed, jointRands);
      var proofs1 := v.xof.helperProofShare(rand.proofsShareSeed1);
      Ok((PublicShare(c.wrParts, vfParts),
          LeaderShare(c.meas0, SubVec(v.p, proofs, proofs1), rand.wrBlind0, rand.vfBlind0),
          HelperShare(rand.measShareSeed1, rand.proofsShareSeed1, rand.wrBlind1, rand.vfBlind1)))
  }

  /** All proofs of both circuits, those of norm equality first. */
  ghost function Proofs(v: Vdaf, meas: seq<int>, proveSeed: Seed, jointRands: seq<int>): (r: seq<int>)
    requires Shaped(v) && |meas| == v.flp.inputLen && |jointRands| == Times(v.pine.numProofs, 3)
    ensures |r| == ProofsLen(v)
  {
    var proveRands := v.xof.proveRands(proveSeed);
    var k := SqProveRandsLen(v);
    TimesIsProduct(v.pine.numProofsSqNormEqual, 0);
    ProveAllLen(v.flpSq, meas, proveRands[..k], [], v.pine.numProofsSqNormEqual);
    ProveAllLen(v.flp, meas, proveRands[k..], jointRands, v.pine.numProofs);
    ProveAll(v.flpSq, meas, proveRands[..k], [], v.pine.numProofsSqNormEqual)
    + ProveAll(v.flp, meas, proveRands[k..], jointRands, v.pine.numProofs)
  }

  // ---- Aggregators

  /** Measurement share, proof share and blinds, if the input share is of the aggregator's kind. */
  ghost function Unpack(v: Vdaf, aggId: nat, input: InputShare): Result<(seq<int>, seq<int>, Seed, Seed)> {
    match (aggId, input)
    case (0, LeaderShare(meas, proofs, wrBlind, vfBlind)) => Ok((meas, proofs, wrBlind, vfBlind))
    case (1, HelperShare(measSeed, proofsSeed, wrBlind, vfBlind)) =>
      Ok((v.xof.helperMeasShare(measSeed), v.xof.helperProofShare(proofsSeed), wrBlind, vfBlind))
    case _ => Err
  }

  /** The public parts with the aggregator's own part put in place. */
  ghost function Corrected(parts: (Seed, Seed), aggId: nat, part: Seed): (Seed, Seed) {
    if aggId == 0 then (part, parts.1) else (parts.0, part)
  }

  /** The decoder of input shares yields these lengths. */
  ghost predicate InputShaped(v: Vdaf, input: InputShare) {
    input.LeaderShare? ==> |input.meas| == v.pine.encodedInputLen && |input.proofs| == ProofsLen(v)
  }

  /** A measurement share completed with the test results under a wraparound seed. */
  ghost function FlpInput(v: Vdaf, meas: seq<int>, wrSeed: Seed): seq<int>
    requires Shaped(v) && |meas| == v.pine.encodedInputLen
  {
    meas + SeededTests(v, meas[..v.pine.flp.dimension], wrSeed)
  }

  ghost function PrepareInit(v: Vdaf, verifyKey: Seed, aggId: nat, nonce: Nonce, public: PublicShare, input: InputShare)
    : Result<(PrepState, PrepShare)>
    requires Shaped(v) && InputShaped(v, input)
  {
    var t := v.pine.flp;
    match Unpack(v, aggId, input)
    case Err => Err
    case Ok((meas, proofs, wrBlind, vfBlind)) =>
      var wrPart := v.xof.jointRandPart(USAGE_WR_JOINT_RAND_PART, aggId, wrBlind, nonce,
                                        meas[..v.pine.encodedGradientAndSqNormLen]);
      var wrParts := Corrected(public.wrParts, aggId, wrPart);
      var wrSeed := v.xof.jointRandSeed(USAGE_WR_JOINT_RAND_SEED, wrParts.0, wrParts.1);
      var vfPart := v.xof.jointRandPart(USAGE_VF_JOINT_RAND_PART, aggId, vfBlind, nonce, meas);
      var vfParts := Corrected(public.vfParts, aggId, vfPart);
      var vfSeed := v.xof.jointRandSeed(USAGE_VF_JOINT_RAND_SEED, vfParts.0, vfParts.1);
      match Verifiers(v, verifyKey, nonce, FlpInput(v, meas, wrSeed), proofs, JointRands(v, vfSeed))
      case Err => Err
      case Ok(verifiers) =>
        Ok((PrepState(meas[..t.dimension], wrSeed, vfSeed, |verifiers|), PrepShare(verifiers, wrPart, vfPart)))
  }

  ghost function Verifiers(v: Vdaf, verifyKey: Seed, nonce: Nonce, meas: seq<int>, proofs: seq<int>,
                           jointRands: seq<int>)
    : Result<seq<int>>
    requires Shaped(v) && |proofs| == ProofsLen(v) && |jointRands| == Times(v.pine.numProofs, 3)
  {
    var queryRands := v.xof.queryRands(verifyKey, nonce);
    var k := SqQueryRandsLen(v);
    var l := SqProofsLen(v);
    TimesIsProduct(v.pine.numProofsSqNormEqual, 0);
    match (QueryAll(v.flpSq, meas, proofs[..l], queryRands[..k], [], v.pine.numProofsSqNormEqual),
           QueryAll(v.flp, meas, proofs[l..], queryRands[k..], jointRands, v.pine.numProofs))
    case (Ok(a), Ok(b)) => Ok(a + b)
    case _ => Err
  }

  ghost function PrepareSharesToMessage(v: Vdaf, s0: PrepShare, s1: PrepShare): Result<PrepMessage>
    requires v.p > 0 && v.flp.verifierLen > 0 && v.flpSq.verifierLen > 0
    requires |s0.verifiers| >= Times(v.pine.numProofsSqNormEqual, v.flpSq.verifierLen)
  {
    var verifiers := AddVec(v.p, s0.verifiers, s1.verifiers);
    var k := Times(v.pine.numProofsSqNormEqual, v.flpSq.verifierLen);
    if !DecideAll(v.flpSq, verifiers[..k]) || !DecideAll(v.flp, verifiers[k..]) then Err
    else
      Ok(PrepMessage(v.xof.jointRandSeed(USAGE_WR_JOINT_RAND_SEED, s0.wrPart, s1.wrPart),
                     v.xof.jointRandSeed(USAGE_VF_JOINT_RAND_SEED, s0.vfPart, s1.vfPart)))
  }

  /** The output share, if the message confirms both of the aggregator's seeds. */
  function PrepareNext(state: PrepState, msg: PrepMessage): Result<seq<int>> {
    if state.wrSeed != msg.wrSeed || state.vfSeed != msg.vfSeed then Err
    else Ok(state.gradientShare)
  }

  // ---- Joint randomness

  ghost predicate Accepts(v: Vdaf, verifyKey: Seed, aggId: nat, nonce: Nonce, public: PublicShare, input: InputShare,
                          msg: PrepMessage)
    requires Shaped(v) && InputShaped(v, input)
  {
    var init := PrepareInit(v, verifyKey, aggId, nonce, public, input);
    init.Ok? && PrepareNext(init.value.0, msg).Ok?
  }

  /**
  Joint-randomness agreement, for any public share and any input shares: aggregators that
  accept the same message used the same wraparound seed and joint randomness, so what they
  queried are shares of one measurement completed with its own test results.
  */
  lemma JointRandAgreement(v: Vdaf, verifyKey: Seed, nonce: Nonce, public: PublicShare, in0: InputShare,
                           in1: InputShare,
                           msg: PrepMessage, meas: seq<int>)
    requires Shaped(v) && InputShaped(v, in0) && InputShaped(v, in1)
    requires Accepts(v, verifyKey, 0, nonce, public, in0, msg) && Accepts(v, verifyKey, 1, nonce, public, in1, msg)
    requires SharesOf(v.p, Unpack(v, 0, in0).value.0, Unpack(v, 1, in1).value.0, meas)
    ensures var (st0, ps0) := PrepareInit(v, verifyKey, 0, nonce, public, in0).value;
            var (st1, ps1) := PrepareInit(v, verifyKey, 1, nonce, public, in1).value;
            var (m0, pf0, _, _) := Unpack(v, 0, in0).value;
            var (m1, pf1, _, _) := Unpack(v, 1, in1).value;
            var jr := JointRands(v, msg.vfSeed);
            && st0.wrSeed == st1.wrSeed == msg.wrSeed && st0.vfSeed == st1.vfSeed == msg.vfSeed
            && Verifiers(v, verifyKey, nonce, FlpInput(v, m0, msg.wrSeed), pf0, jr) == Ok(ps0.verifiers)
            && Verifiers(v, verifyKey, nonce, FlpInput(v, m1, msg.wrSeed), pf1, jr) == Ok(ps1.verifiers)
            && SharesOf(v.p, FlpInput(v, m0, msg.wrSeed), FlpInput(v, m1, msg.wrSeed), FlpInput(v, meas, msg.wrSeed))
  {
    var m0, m1 := Unpack(v, 0, in0).value.0, Unpack(v, 1, in1).value.0;
    FlpInputShares(v, m0, m1, meas, msg.wrSeed);
  }

  lemma FlpInputShares(v: Vdaf, m0: seq<int>, m1: seq<int>, meas: seq<int>, wrSeed: Seed)
    requires Shaped(v) && |meas| == v.pine.encodedInputLen
    requires SharesOf(v.p, m0, m1, meas)
    ensures SharesOf(v.p, FlpInput(v, m0, wrSeed), FlpInput(v, m1, wrSeed), FlpInput(v, meas, wrSeed))
  {
    var d, n, rand := v.pine.flp.dimension, v.pine.flp.numWrTests, WrRand(v, wrSeed);
    SharesOfSlice(v.p, m0, m1, meas, 0, d);
    assert m0[0..d] == m0[..d] && m1[0..d] == m1[..d] && meas[0..d] == meas[..d];
    WrTestsLinear(v.p, m0[..d], m1[..d], meas[..d], n, rand);
    ConsShares(v.p, m0, m1, meas, SeededTests(v, m0[..d], wrSeed), SeededTests(v, m1[..d], wrSeed),
               SeededTests(v, meas[..d], wrSeed));
  }

  // ---- Honest runs

  /**
  Completeness of a proof system for the circuit that accepts when `zero` holds: shares of an
  honest proof, queried on shares of the measurement with good randomness, yield verifiers that
  decide true. Nothing is asked of arguments of other lengths or of other query randomness.
  */
  ghost predicate FlpComplete(p: int, flp: Flp, zero: (seq<int>, seq<int>) -> bool)
    requires p > 0
  {
    && flp.verifierLen > 0
    && ProofSized(flp)
    && forall m, m0, m1, pr, jr, pf0, pf1, qr
         {:trigger flp.prove(m, pr, jr), flp.query(m0, pf0, qr, jr), flp.query(m1, pf1, qr, jr)} |
         && ProverSized(flp, m, pr, jr) && |qr| == flp.queryRandLen && flp.goodQuery(qr)
         && zero(m, jr) && SharesOf(p, m0, m1, m) && SharesOf(p, pf0, pf1, flp.prove(m, pr, jr)) ::
         && flp.query(m0, pf0, qr, jr).Ok? && flp.query(m1, pf1, qr, jr).Ok?
         && |flp.query(m0, pf0, qr, jr).value| == |flp.query(m1, pf1, qr, jr).value| == flp.verifierLen
         && flp.decide(AddVec(p, flp.query(m0, pf0, qr, jr).value, flp.query(m1, pf1, qr, jr).value))
  }

  /** Bad query randomness is refused whatever is queried. */
  ghost predicate FlpRefuses(flp: Flp) {
    forall m, pf, qr, jr {:trigger flp.query(m, pf, qr, jr)} | |qr| == flp.queryRandLen && !flp.goodQuery(qr) ::
      flp.query(m, pf, qr, jr).Err?
  }

  /** A query that succeeds yields a verifier of the length the proof system commits to. */
  ghost predicate QuerySized(flp: Flp) {
    forall m, pf, qr, jr {:trigger flp.query(m, pf, qr, jr)} ::
      flp.query(m, pf, qr, jr).Ok? ==> |flp.query(m, pf, qr, jr).value| == flp.verifierLen
  }

  /** Query randomness of another length is refused as well. */
  ghost predicate RefusesLengths(flp: Flp) {
    forall m, pf, qr, jr {:trigger flp.query(m, pf, qr, jr)} | |qr| != flp.queryRandLen :: flp.query(m, pf, qr, jr).Err?
  }

  /** A proof system of the given lengths that decides true and refuses the query randomness that is not good. */
  function Lenient(good: seq<int> -> bool, inputLen: nat, proofLen: nat, proveRandLen: nat, jointRandLen: nat,
                   queryRandLen: nat): Flp
  {
    Flp((m, pr, jr) => Zeros(proofLen), (m, pf, qr, jr) => if |qr| == queryRandLen && good(qr) then Ok([0]) else Err,
        verifier => true, good, inputLen, proofLen, 1, proveRandLen, jointRandLen, queryRandLen)
  }

  lemma LenientMeets(p: int, zero: (seq<int>, seq<int>) -> bool, good: seq<int> -> bool, inputLen: nat, proofLen: nat,
                     proveRandLen: nat, jointRandLen: nat, queryRandLen: nat)
    requires p > 0
    ensures var flp := Lenient(good, inputLen, proofLen, proveRandLen, jointRandLen, queryRandLen);
            FlpComplete(p, flp, zero) && FlpRefuses(flp) && RefusesLengths(flp) && QuerySized(flp)
  {
  }

  /** The randomness of `n` queries is good chunk by chunk. */
  ghost predicate GoodChunks(flp: Flp, qrs: seq<int>, n: nat)
    requires |qrs| == Times(n, flp.queryRandLen)
  {
    n == 0 || (flp.goodQuery(qrs[..flp.queryRandLen]) && GoodChunks(flp, qrs[flp.queryRandLen..], n - 1))
  }

  lemma {:induction false} QueriesGood(flp: Flp, meas: seq<int>, proofs: seq<int>, qrs: seq<int>, jrs: seq<int>, n: nat)
    requires FlpRefuses(flp) && |proofs| == Times(n, flp.proofLen)
    requires |qrs| == Times(n, flp.queryRandLen) && |jrs| == Times(n, flp.jointRandLen)
    requires QueryAll(flp, meas, proofs, qrs, jrs, n).Ok?
    ensures GoodChunks(flp, qrs, n)
  {
    if n > 0 {
      var (a, b, c) := (flp.proofLen, flp.queryRandLen, flp.jointRandLen);
      assert flp.query(meas, proofs[..a], qrs[..b], jrs[..c]).Ok?;
      QueriesGood(flp, meas, proofs[a..], qrs[b..], jrs[c..], n - 1);
    }
  }

  lemma AddVecConcat(p: int, a0: seq<int>, b0: seq<int>, a1: seq<int>, b1: seq<int>)
    requires p > 0 && |a0| == |a1|
    ensures AddVec(p, a0 + b0, a1 + b1) == AddVec(p, a0, a1) + AddVec(p, b0, b1)
  {
  }

  /** Verifiers of `n` queries that add up to deciding ones. */
  ghost predicate GoodVerifiers(p: int, flp: Flp, n: nat, v0: Result<seq<int>>, v1: Result<seq<int>>)
    requires p > 0 && flp.verifierLen > 0
  {
    && v0.Ok? && v1.Ok? && |v0.value| == |v1.value| == Times(n, flp.verifierLen)
    && DecideAll(flp, AddVec(p, v0.value, v1.value))
  }

  lemma GoodVerifiersCons(p: int, flp: Flp, n: nat, a0: seq<int>, a1: seq<int>, b0: seq<int>, b1: seq<int>)
    requires p > 0 && flp.verifierLen > 0
    requires |a0| == |a1| == flp.verifierLen && flp.decide(AddVec(p, a0, a1))
    requires GoodVerifiers(p, flp, n, Ok(b0), Ok(b1))
    ensures GoodVerifiers(p, flp, n + 1, Ok(a0 + b0), Ok(a1 + b1))
  {
    AddVecConcat(p, a0, b0, a1, b1);
    var w := AddVec(p, a0, a1) + AddVec(p, b0, b1);
    assert w[..flp.verifierLen] == AddVec(p, a0, a1) && w[flp.verifierLen..] == AddVec(p, b0, b1);
  }

  /** One honest query added to `n` others. */
  lemma HonestQuery(p: int, flp: Flp, zero: (seq<int>, seq<int>) -> bool, m: seq<int>, m0: seq<int>, m1: seq<int>,
                    pf0: seq<int>, pf1: seq<int>, pr: seq<int>, jr: seq<int>, qr: seq<int>,
                    n: nat, rest0: Result<seq<int>>, rest1: Result<seq<int>>)
    requires p > 0 && FlpComplete(p, flp, zero) && SharesOf(p, m0, m1, m) && zero(m, jr)
    requires ProverSized(flp, m, pr, jr) && |qr| == flp.queryRandLen && flp.goodQuery(qr)
    requires SharesOf(p, pf0, pf1, flp.prove(m, pr, jr))
    requires GoodVerifiers(p, flp, n, rest0, rest1)
    ensures flp.query(m0, pf0, qr, jr).Ok? && flp.query(m1, pf1, qr, jr).Ok?
    ensures GoodVerifiers(p, flp, n + 1, Ok(flp.query(m0, pf0, qr, jr).value + rest0.value),
                          Ok(flp.query(m1, pf1, qr, jr).value + rest1.value))
  {
    var v0, v1 := flp.query(m0, pf0, qr, jr), flp.query(m1, pf1, qr, jr);
    assert flp.decide(AddVec(p, v0.value, v1.value));
    GoodVerifiersCons(p, flp, n, v0.value, v1.value, rest0.value, rest1.value);
  }

  lemma SplitShares(p: int, x0: seq<int>, x1: seq<int>, a: seq<int>, b: seq<int>)
    requires p > 0 && SharesOf(p, x0, x1, a + b)
    ensures SharesOf(p, x0[..|a|], x1[..|a|], a) && SharesOf(p, x0[|a|..], x1[|a|..], b)
  {
    var x, k := a + b, |a|;
    SharesOfSlice(p, x0, x1, x, 0, k);
    SharesOfSlice(p, x0, x1, x, k, |x|);
    assert x0[0..k] == x0[..k] && x1[0..k] == x1[..k] && x[0..k] == a;
    assert x0[k..|x|] == x0[k..] && x1[k..|x|] == x1[k..] && x[k..|x|] == b;
  }

  lemma FirstProof(p: int, flp: Flp, m: seq<int>, pf0: seq<int>, pf1: seq<int>, prs: seq<int>, jrs: seq<int>, n: nat)
    requires p > 0 && n > 0 && ProofSized(flp) && |m| == flp.inputLen
    requires |prs| == Times(n, flp.proveRandLen) && |jrs| == Times(n, flp.jointRandLen)
    requires SharesOf(p, pf0, pf1, ProveAll(flp, m, prs, jrs, n))
    ensures var (a, c, d) := (flp.proofLen, flp.jointRandLen, flp.proveRandLen);
            && a <= |pf0| && a <= |pf1| && c <= |jrs| && d <= |prs|
            && SharesOf(p, pf0[..a], pf1[..a], flp.prove(m, prs[..d], jrs[..c]))
            && SharesOf(p, pf0[a..], pf1[a..], ProveAll(flp, m, prs[d..], jrs[c..], n - 1))
  {
    var c, d := flp.jointRandLen, flp.proveRandLen;
    SplitShares(p, pf0, pf1, flp.prove(m, prs[..d], jrs[..c]), ProveAll(flp, m, prs[d..], jrs[c..], n - 1));
  }

  lemma DropOne(x: seq<int>, n: nat, k: nat)
    requires n > 0 && |x| == Times(n, k)
    ensures k <= |x| && |x[k..]| == Times(n - 1, k) && |x[..k]| == k
  {
  }

  /** The circuit accepts the measurement whatever the joint randomness. */
  ghost predicate AllZero(flp: Flp, zero: (seq<int>, seq<int>) -> bool, m: seq<int>) {
    forall jr | |jr| == flp.jointRandLen :: zero(m, jr)
  }

  /** Lengths of the proofs and of the randomness for `n` queries. */
  ghost predicate Sized(flp: Flp, pf0: seq<int>, pf1: seq<int>, prs: seq<int>, jrs: seq<int>, qrs: seq<int>, n: nat) {
    && |pf0| == Times(n, flp.proofLen) && |pf1| == Times(n, flp.proofLen)
    && |prs| == Times(n, flp.proveRandLen) && |jrs| == Times(n, flp.jointRandLen) && |qrs| == Times(n, flp.queryRandLen)
  }

  lemma SizedRest(flp: Flp, pf0: seq<int>, pf1: seq<int>, prs: seq<int>, jrs: seq<int>, qrs: seq<int>, n: nat)
    requires n > 0 && Sized(flp, pf0, pf1, prs, jrs, qrs, n)
    ensures var (a, b, c, d) := (flp.proofLen, flp.queryRandLen, flp.jointRandLen, flp.proveRandLen);
            && a <= |pf0| && a <= |pf1| && b <= |qrs| && c <= |jrs| && d <= |prs|
            && |qrs[..b]| == b && |jrs[..c]| == c && |prs[..d]| == d
            && Sized(flp, pf0[a..], pf1[a..], prs[d..], jrs[c..], qrs[b..], n - 1)
  {
    DropOne(pf0, n, flp.proofLen);
    DropOne(pf1, n, flp.proofLen);
    DropOne(qrs, n, flp.queryRandLen);
    DropOne(jrs, n, flp.jointRandLen);
    DropOne(prs, n, flp.proveRandLen);
  }

  lemma HonestStep(p: int, flp: Flp, zero: (seq<int>, seq<int>) -> bool, m: seq<int>, m0: seq<int>, m1: seq<int>,
                   pf0: seq<int>, pf1: seq<int>, prs: seq<int>, jrs: seq<int>, qrs: seq<int>, n: nat)
    requires p > 0 && n > 0 && FlpComplete(p, flp, zero) && SharesOf(p, m0, m1, m) && AllZero(flp, zero, m)
    requires |m| == flp.inputLen && Sized(flp, pf0, pf1, prs, jrs, qrs, n) && GoodChunks(flp, qrs, n)
    requires flp.proofLen <= |pf0| && flp.proofLen <= |pf1| && flp.queryRandLen <= |qrs|
    requires flp.jointRandLen <= |jrs| && flp.proveRandLen <= |prs|
    requires SharesOf(p, pf0[..flp.proofLen], pf1[..flp.proofLen],
                      flp.prove(m, prs[..flp.proveRandLen], jrs[..flp.jointRandLen]))
    requires var (a, b, c, d) := (flp.proofLen, flp.queryRandLen, flp.jointRandLen, flp.proveRandLen);
             && Sized(flp, pf0[a..], pf1[a..], prs[d..], jrs[c..], qrs[b..], n - 1)
             && GoodVerifiers(p, flp, n - 1, QueryAll(flp, m0, pf0[a..], qrs[b..], jrs[c..], n - 1),
                              QueryAll(flp, m1, pf1[a..], qrs[b..], jrs[c..], n - 1))
    ensures GoodVerifiers(p, flp, n, QueryAll(flp, m0, pf0, qrs, jrs, n), QueryAll(flp, m1, pf1, qrs, jrs, n))
  {
    var a, b, c, d := flp.proofLen, flp.queryRandLen, flp.jointRandLen, flp.proveRandLen;
    HonestQuery(p, flp, zero, m, m0, m1, pf0[..a], pf1[..a], prs[..d], jrs[..c], qrs[..b], n - 1,
                QueryAll(flp, m0, pf0[a..], qrs[b..], jrs[c..], n - 1), QueryAll(flp, m1, pf1[a..], qrs[b..], jrs[c..],
                                                                                 n - 1));
  }

  lemma {:induction false} HonestQueries(p: int, flp: Flp, zero: (seq<int>, seq<int>) -> bool, m: seq<int>,
                                         m0: seq<int>, m1: seq<int>,
                                         pf0: seq<int>, pf1: seq<int>, prs: seq<int>, jrs: seq<int>, qrs: seq<int>,
                                         n: nat)
    requires p > 0 && FlpComplete(p, flp, zero) && SharesOf(p, m0, m1, m) && (n > 0 ==> AllZero(flp, zero, m))
    requires |m| == flp.inputLen && Sized(flp, pf0, pf1, prs, jrs, qrs, n) && GoodChunks(flp, qrs, n)
    requires SharesOf(p, pf0, pf1, ProveAll(flp, m, prs, jrs, n))
    ensures GoodVerifiers(p, flp, n, QueryAll(flp, m0, pf0, qrs, jrs, n), QueryAll(flp, m1, pf1, qrs, jrs, n))
  {
    if n > 0 {
      var a, b, c, d := flp.proofLen, flp.queryRandLen, flp.jointRandLen, flp.proveRandLen;
      SizedRest(flp, pf0, pf1, prs, jrs, qrs, n);
      FirstProof(p, flp, m, pf0, pf1, prs, jrs, n);
      HonestQueries(p, flp, zero, m, m0, m1, pf0[a..], pf1[a..], prs[d..], jrs[c..], qrs[b..], n - 1);
      HonestStep(p, flp, zero, m, m0, m1, pf0, pf1, prs, jrs, qrs, n);
    } else {
      assert AddVec(p, [], []) == [];
    }
  }

  /** All query randomness derived for a report is good. */
  ghost predicate GoodQueries(v: Vdaf, verifyKey: Seed, nonce: Nonce)
    requires Shaped(v)
  {
    var qrs, k := v.xof.queryRands(verifyKey, nonce), SqQueryRandsLen(v);
    GoodChunks(v.flpSq, qrs[..k], v.pine.numProofsSqNormEqual) && GoodChunks(v.flp, qrs[k..], v.pine.numProofs)
  }

  /** Both proof systems refuse bad query randomness. */
  ghost predicate Refuses(v: Vdaf) {
    FlpRefuses(v.flp) && FlpRefuses(v.flpSq)
  }

  /** An honest proof of every circuit yields verifiers that decide true. */
  ghost predicate Complete(v: Vdaf)
    requires v.p > 0
  {
    && FlpComplete(v.p, v.flp, (m, jr) => MainZero(v.p, v.intMax, v.pine.flp, m, jr))
    && FlpComplete(v.p, v.flpSq, (m, jr) => SqZero(v.p, v.pine.flp, v.pine.flpSqNormEqual, m))
  }

  ghost predicate MainZero(p: int, intMax: nat, t: PineType, m: seq<int>, jr: seq<int>)
    requires p > 0
  {
    Layout(t, m) && |jr| == 3 && MainOutput(p, intMax, t, MulGadget(p), m, jr, 1) == Ok(0)
  }

  /** The main circuit outputs zero for every joint randomness. */
  ghost predicate MainZeros(v: Vdaf, m: seq<int>)
    requires v.p > 0
  {
    forall jr | |jr| == 3 :: MainZero(v.p, v.intMax, v.pine.flp, m, jr)
  }

  ghost predicate SqZero(p: int, t: PineType, q: SqNormType, m: seq<int>)
    requires p > 0
  {
    Layout(t, m) && q.Valid(t) && SqNormOutput(p, q, SqGadget(p), m) == Ok(0)
  }

  /** The hypotheses can be met for every parameter set, whichever query randomness is good. */
  lemma HypothesesMeetable(p: nat, intMax: nat, pine: Pine, good: seq<int> -> bool, goodSq: seq<int> -> bool)
    returns (v: Vdaf)
    requires p > 1 && pine.Valid(p)
    ensures v.p == p && v.intMax == intMax && v.pine == pine
    ensures v.flp.goodQuery == good && v.flpSq.goodQuery == goodSq
    ensures Shaped(v) && Complete(v) && Refuses(v) && RefusesLengths(v.flp) && RefusesLengths(v.flpSq)
    ensures QuerySized(v.flp) && QuerySized(v.flpSq)
  {
    var t, inputLen := pine.flp, pine.flp.inputLen;
    var flp, flpSq := Lenient(good, inputLen, 1, 1, 3, 1), Lenient(goodSq, inputLen, 1, 1, 0, 1);
    var n, n' := Times(pine.numProofs, 1), Times(pine.numProofsSqNormEqual, 1);
    var xof := Xof((_, _, _, _, _) => 0, (_, _, _) => 0, _ => Zeros(pine.encodedInputLen), _ => Zeros(n' + n),
                   _ => Zeros(Times(t.numWrTests, ChunkCount(4, t.dimension))), _ => Zeros(Times(pine.numProofs, 3)),
                   _ => Zeros(n' + n), (_, _) => Zeros(n' + n));
    v := Vdaf(p, intMax, pine, xof, flp, flpSq);
    LenientMeets(p, (m, jr) => MainZero(v.p, v.intMax, v.pine.flp, m, jr), good, inputLen, 1, 1, 3, 1);
    LenientMeets(p, (m, jr) => SqZero(v.p, v.pine.flp, v.pine.flpSqNormEqual, m), goodSq, inputLen, 1, 1, 0, 1);
  }

  /** What the client encodes are shares of a measurement that satisfies both circuits. */
  lemma {:induction false} ClientHonest(v: Vdaf, xs: seq<int>, nonce: Nonce, rand: ShardRand)
    requires Shaped(v) && Prime(v.p) && v.pine.Valid(v.p)
    requires ClientEncode(v, xs, nonce, rand).Ok?
    ensures var c := ClientEncode(v, xs, nonce, rand).value;
            var meas := c.head + c.bits;
            && |meas| == v.pine.encodedInputLen
            && SharesOf(v.p, c.meas0, c.meas1, meas)
            && EncodeCoords(v.p, v.intMax, xs) == Ok(meas[..v.pine.flp.dimension])
            && FlpInput(v, meas, v.xof.jointRandSeed(USAGE_WR_JOINT_RAND_SEED, c.wrParts.0, c.wrParts.1))
               == meas + c.results
            && (v.pine.numProofs > 0 && ProversRun(v) ==> MainZeros(v, meas + c.results))
            && SqZero(v.p, v.pine.flp, v.pine.flpSqNormEqual, meas + c.results)
  {
    var t, q := v.pine.flp, v.pine.flpSqNormEqual;
    var c := ClientEncode(v, xs, nonce, rand).value;
    var meas := c.head + c.bits;
    EncodeGradientMeaning(v.p, v.intMax, t, xs);
    assert meas[..t.dimension] == c.head[..t.dimension];
    ClientShares(v, xs, nonce, rand);
    var wrRand := WrRand(v, v.xof.jointRandSeed(USAGE_WR_JOINT_RAND_SEED, c.wrParts.0, c.wrParts.1));
    assert EncodeWithWrJointRand(v.p, v.intMax, t, xs, wrRand) == Ok((meas, c.results));
    CircuitCompleteness(v.p, v.intMax, t, q, xs, wrRand, [0, 0, 0]);
    if v.pine.numProofs > 0 && ProversRun(v) {
      forall jr | |jr| == 3 ensures MainZero(v.p, v.intMax, t, meas + c.results, jr) {
        CircuitCompleteness(v.p, v.intMax, t, q, xs, wrRand, jr);
      }
    }
  }

  lemma ClientShares(v: Vdaf, xs: seq<int>, nonce: Nonce, rand: ShardRand)
    requires Shaped(v) && ClientEncode(v, xs, nonce, rand).Ok?
    ensures var c := ClientEncode(v, xs, nonce, rand).value;
            SharesOf(v.p, c.meas0, c.meas1, c.head + c.bits)
  {
    var c := ClientEncode(v, xs, nonce, rand).value;
    var k := |c.head|;
    SubVecShares(v.p, c.head, c.meas1[..k]);
    SubVecShares(v.p, c.bits, c.meas1[k..]);
    ConsShares(v.p, SubVec(v.p, c.head, c.meas1[..k]), c.meas1[..k], c.head,
               SubVec(v.p, c.bits, c.meas1[k..]), c.meas1[k..], c.bits);
    assert c.meas1[..k] + c.meas1[k..] == c.meas1;
  }

  lemma {:induction false} SqVerifiers(v: Vdaf, m: seq<int>, m0: seq<int>, m1: seq<int>, pf0: seq<int>, pf1: seq<int>,
                                       prs: seq<int>,
                    qrs: seq<int>)
    requires Shaped(v) && Complete(v) && SharesOf(v.p, m0, m1, m) && |m| == v.flp.inputLen
    requires SqZero(v.p, v.pine.flp, v.pine.flpSqNormEqual, m)
    requires Sized(v.flpSq, pf0, pf1, prs, [], qrs, v.pine.numProofsSqNormEqual)
    requires GoodChunks(v.flpSq, qrs, v.pine.numProofsSqNormEqual)
    requires SharesOf(v.p, pf0, pf1, ProveAll(v.flpSq, m, prs, [], v.pine.numProofsSqNormEqual))
    ensures GoodVerifiers(v.p, v.flpSq, v.pine.numProofsSqNormEqual,
                          QueryAll(v.flpSq, m0, pf0, qrs, [], v.pine.numProofsSqNormEqual),
                          QueryAll(v.flpSq, m1, pf1, qrs, [], v.pine.numProofsSqNormEqual))
  {
    HonestQueries(v.p, v.flpSq, (m, jr) => SqZero(v.p, v.pine.flp, v.pine.flpSqNormEqual, m), m, m0, m1,
                  pf0, pf1, prs, [], qrs, v.pine.numProofsSqNormEqual);
  }

  lemma {:induction false} MainVerifiers(v: Vdaf, m: seq<int>, m0: seq<int>, m1: seq<int>, pf0: seq<int>,
                                         pf1: seq<int>, prs: seq<int>,
                      jrs: seq<int>, qrs: seq<int>)
    requires Shaped(v) && Complete(v) && SharesOf(v.p, m0, m1, m) && |m| == v.flp.inputLen
    requires v.pine.numProofs > 0 ==> MainZeros(v, m)
    requires Sized(v.flp, pf0, pf1, prs, jrs, qrs, v.pine.numProofs) && GoodChunks(v.flp, qrs, v.pine.numProofs)
    requires SharesOf(v.p, pf0, pf1, ProveAll(v.flp, m, prs, jrs, v.pine.numProofs))
    ensures GoodVerifiers(v.p, v.flp, v.pine.numProofs, QueryAll(v.flp, m0, pf0, qrs, jrs, v.pine.numProofs),
                          QueryAll(v.flp, m1, pf1, qrs, jrs, v.pine.numProofs))
  {
    HonestQueries(v.p, v.flp, (m, jr) => MainZero(v.p, v.intMax, v.pine.flp, m, jr), m, m0, m1, pf0, pf1, prs, jrs, qrs,
                  v.pine.numProofs);
  }

  /** Shares of the honest proofs lead to good verifiers for both circuits. */
  lemma HonestVerifiers(v: Vdaf, verifyKey: Seed, nonce: Nonce, m: seq<int>, m0: seq<int>, m1: seq<int>,
                        pf0: seq<int>, pf1: seq<int>, proveSeed: Seed, jrs: seq<int>)
    requires Shaped(v) && Complete(v) && GoodQueries(v, verifyKey, nonce) && SharesOf(v.p, m0, m1, m)
    requires |m| == v.flp.inputLen && |jrs| == Times(v.pine.numProofs, 3)
    requires v.pine.numProofs > 0 ==> MainZeros(v, m)
    requires SqZero(v.p, v.pine.flp, v.pine.flpSqNormEqual, m)
    requires SharesOf(v.p, pf0, pf1, Proofs(v, m, proveSeed, jrs)) && |pf0| == ProofsLen(v)
    ensures var v0, v1 := Verifiers(v, verifyKey, nonce, m0, pf0, jrs), Verifiers(v, verifyKey, nonce, m1, pf1, jrs);
            var k := Times(v.pine.numProofsSqNormEqual, v.flpSq.verifierLen);
            && v0.Ok? && v1.Ok? && |v0.value| == |v1.value| >= k
            && DecideAll(v.flpSq, AddVec(v.p, v0.value, v1.value)[..k])
            && DecideAll(v.flp, AddVec(v.p, v0.value, v1.value)[k..])
  {
    var n, n' := v.pine.numProofsSqNormEqual, v.pine.numProofs;
    var prs, qrs := v.xof.proveRands(proveSeed), v.xof.queryRands(verifyKey, nonce);
    var a, b, l := SqProveRandsLen(v), SqQueryRandsLen(v), SqProofsLen(v);
    TimesIsProduct(n, 0);
    ProveAllLen(v.flpSq, m, prs[..a], [], n);
    SplitShares(v.p, pf0, pf1, ProveAll(v.flpSq, m, prs[..a], [], n), ProveAll(v.flp, m, prs[a..], jrs, n'));
    SqVerifiers(v, m, m0, m1, pf0[..l], pf1[..l], prs[..a], qrs[..b]);
    MainVerifiers(v, m, m0, m1, pf0[l..], pf1[l..], prs[a..], jrs, qrs[b..]);
    JoinGood(v, QueryAll(v.flpSq, m0, pf0[..l], qrs[..b], [], n), QueryAll(v.flpSq, m1, pf1[..l], qrs[..b], [], n),
             QueryAll(v.flp, m0, pf0[l..], qrs[b..], jrs, n'), QueryAll(v.flp, m1, pf1[l..], qrs[b..], jrs, n'));
  }

  lemma JoinGood(v: Vdaf, s0: Result<seq<int>>, s1: Result<seq<int>>, r0: Result<seq<int>>, r1: Result<seq<int>>)
    requires v.p > 0 && v.flp.verifierLen > 0 && v.flpSq.verifierLen > 0
    requires GoodVerifiers(v.p, v.flpSq, v.pine.numProofsSqNormEqual, s0, s1)
    requires GoodVerifiers(v.p, v.flp, v.pine.numProofs, r0, r1)
    ensures var k := Times(v.pine.numProofsSqNormEqual, v.flpSq.verifierLen);
            var w := AddVec(v.p, s0.value + r0.value, s1.value + r1.value);
            && |s0.value + r0.value| == |s1.value + r1.value| >= k
            && DecideAll(v.flpSq, w[..k]) && DecideAll(v.flp, w[k..])
  {
    JoinVerifiers(v.p, s0.value, r0.value, s1.value, r1.value);
  }

  lemma JoinVerifiers(p: int, s0: seq<int>, r0: seq<int>, s1: seq<int>, r1: seq<int>)
    requires p > 0 && |s0| == |s1|
    ensures var w := AddVec(p, s0 + r0, s1 + r1);
            w[..|s0|] == AddVec(p, s0, s1) && w[|s0|..] == AddVec(p, r0, r1)
  {
    AddVecConcat(p, s0, r0, s1, r1);
  }

  /** Preparation of one report by both aggregators, from any shares to the two output shares. */
  ghost function Prepare(v: Vdaf, verifyKey: Seed, nonce: Nonce, public: PublicShare, in0: InputShare,
                         in1: InputShare): Result<(seq<int>, seq<int>)>
    requires Shaped(v) && InputShaped(v, in0) && InputShaped(v, in1)
  {
    Conclude(v, PrepareInit(v, verifyKey, 0, nonce, public, in0), PrepareInit(v, verifyKey, 1, nonce, public, in1))
  }

  /** The aggregators exchange preparation shares and finish. */
  ghost function Conclude(v: Vdaf, init0: Result<(PrepState, PrepShare)>, init1: Result<(PrepState, PrepShare)>)
    : Result<(seq<int>, seq<int>)>
    requires v.p > 0 && v.flp.verifierLen > 0 && v.flpSq.verifierLen > 0
  {
    match (init0, init1)
    case (Ok((st0, ps0)), Ok((st1, ps1))) =>
      if |ps0.verifiers| < Times(v.pine.numProofsSqNormEqual, v.flpSq.verifierLen) then Err
      else (
        match PrepareSharesToMessage(v, ps0, ps1)
        case Err => Err
        case Ok(msg) =>
          match (PrepareNext(st0, msg), PrepareNext(st1, msg))
          case (Ok(out0), Ok(out1)) => Ok((out0, out1))
          case _ => Err
      )
    case _ => Err
  }

  /** Sharding and preparation of one report, from the gradient to the two output shares. */
  ghost function Run(v: Vdaf, verifyKey: Seed, xs: seq<int>, nonce: Nonce,
                     rand: ShardRand): Result<(seq<int>, seq<int>)>
    requires Shaped(v)
  {
    match ShardWithRand(v, xs, nonce, rand)
    case Err => Err
    case Ok((public, in0, in1)) => Prepare(v, verifyKey, nonce, public, in0, in1)
  }

  /** What an honest client's shares make each aggregator compute. */
  ghost predicate HonestPrep(v: Vdaf, verifyKey: Seed, nonce: Nonce, public: PublicShare, in0: InputShare,
                             in1: InputShare,
                             m0: seq<int>, m1: seq<int>, v0: seq<int>, v1: seq<int>)
    requires Shaped(v) && InputShaped(v, in0) && InputShaped(v, in1)
    requires |m0| == |m1| == v.pine.encodedInputLen
  {
    var d := v.pine.flp.dimension;
    var wrSeed := v.xof.jointRandSeed(USAGE_WR_JOINT_RAND_SEED, public.wrParts.0, public.wrParts.1);
    var vfSeed := v.xof.jointRandSeed(USAGE_VF_JOINT_RAND_SEED, public.vfParts.0, public.vfParts.1);
    && PrepareInit(v, verifyKey, 0, nonce, public, in0)
       == Ok((PrepState(m0[..d], wrSeed, vfSeed, |v0|), PrepShare(v0, public.wrParts.0, public.vfParts.0)))
    && PrepareInit(v, verifyKey, 1, nonce, public, in1)
       == Ok((PrepState(m1[..d], wrSeed, vfSeed, |v1|), PrepShare(v1, public.wrParts.1, public.vfParts.1)))
  }

  /** Each aggregator reaches the client's seeds from its own share. */
  lemma PrepFromVerifiers(v: Vdaf, verifyKey: Seed, xs: seq<int>, nonce: Nonce, rand: ShardRand, v0: seq<int>,
                          v1: seq<int>)
    requires Shaped(v) && ShardWithRand(v, xs, nonce, rand).Ok?
    requires var (public, in0, in1) := ShardWithRand(v, xs, nonce, rand).value;
             var c := ClientEncode(v, xs, nonce, rand).value;
             var wrSeed := v.xof.jointRandSeed(USAGE_WR_JOINT_RAND_SEED, public.wrParts.0, public.wrParts.1);
             var jrs := JointRands(v,
                                   v.xof.jointRandSeed(USAGE_VF_JOINT_RAND_SEED, public.vfParts.0, public.vfParts.1));
             && Verifiers(v, verifyKey, nonce, FlpInput(v, c.meas0, wrSeed), in0.proofs, jrs) == Ok(v0)
             && Verifiers(v, verifyKey, nonce, FlpInput(v, c.meas1, wrSeed),
                          v.xof.helperProofShare(rand.proofsShareSeed1), jrs) == Ok(v1)
    ensures var (public, in0, in1) := ShardWithRand(v, xs, nonce, rand).value;
            var c := ClientEncode(v, xs, nonce, rand).value;
            HonestPrep(v, verifyKey, nonce, public, in0, in1, c.meas0, c.meas1, v0, v1)
  {
    var (public, in0, in1) := ShardWithRand(v, xs, nonce, rand).value;
    var c := ClientEncode(v, xs, nonce, rand).value;
    ClientParts(v, xs, nonce, rand);
    OwnPart(v, verifyKey, 0, nonce, public, in0, c.meas0, in0.proofs, v0);
    OwnPart(v, verifyKey, 1, nonce, public, in1, c.meas1, v.xof.helperProofShare(rand.proofsShareSeed1), v1);
  }

  /** The public parts are those derived from the two measurement shares. */
  ghost predicate PartsFrom(v: Vdaf, aggId: nat, nonce: Nonce, public: PublicShare, input: InputShare, m: seq<int>,
                            pf: seq<int>)
    requires v.pine.encodedGradientAndSqNormLen <= |m|
  {
    var k := v.pine.encodedGradientAndSqNormLen;
    var unpacked := Unpack(v, aggId, input);
    && unpacked.Ok? && unpacked.value.0 == m && unpacked.value.1 == pf
    && v.xof.jointRandPart(USAGE_WR_JOINT_RAND_PART, aggId, unpacked.value.2, nonce, m[..k])
       == (if aggId == 0 then public.wrParts.0 else public.wrParts.1)
    && v.xof.jointRandPart(USAGE_VF_JOINT_RAND_PART, aggId, unpacked.value.3, nonce, m)
       == (if aggId == 0 then public.vfParts.0 else public.vfParts.1)
  }

  lemma ClientParts(v: Vdaf, xs: seq<int>, nonce: Nonce, rand: ShardRand)
    requires Shaped(v) && ShardWithRand(v, xs, nonce, rand).Ok?
    ensures var (public, in0, in1) := ShardWithRand(v, xs, nonce, rand).value;
            var c := ClientEncode(v, xs, nonce, rand).value;
            && InputShaped(v, in0) && InputShaped(v, in1) && in0.LeaderShare?
            && PartsFrom(v, 0, nonce, public, in0, c.meas0, in0.proofs)
            && PartsFrom(v, 1, nonce, public, in1, c.meas1, v.xof.helperProofShare(rand.proofsShareSeed1))
  {
    var c := ClientEncode(v, xs, nonce, rand).value;
    var k := v.pine.encodedGradientAndSqNormLen;
    assert c.meas0[..k] == SubVec(v.p, c.head, c.meas1[..k]);
  }

  lemma OwnPart(v: Vdaf, verifyKey: Seed, aggId: nat, nonce: Nonce, public: PublicShare, input: InputShare,
                m: seq<int>, pf: seq<int>, verifiers: seq<int>)
    requires Shaped(v) && InputShaped(v, input) && aggId < 2 && |m| == v.pine.encodedInputLen && |pf| == ProofsLen(v)
    requires PartsFrom(v, aggId, nonce, public, input, m, pf)
    requires var wrSeed := v.xof.jointRandSeed(USAGE_WR_JOINT_RAND_SEED, public.wrParts.0, public.wrParts.1);
             var vfSeed := v.xof.jointRandSeed(USAGE_VF_JOINT_RAND_SEED, public.vfParts.0, public.vfParts.1);
             Verifiers(v, verifyKey, nonce, FlpInput(v, m, wrSeed), pf, JointRands(v, vfSeed)) == Ok(verifiers)
    ensures var wrSeed := v.xof.jointRandSeed(USAGE_WR_JOINT_RAND_SEED, public.wrParts.0, public.wrParts.1);
            var vfSeed := v.xof.jointRandSeed(USAGE_VF_JOINT_RAND_SEED, public.vfParts.0, public.vfParts.1);
            (PrepareInit(v, verifyKey, aggId, nonce, public, input)
             == Ok((PrepState(m[..v.pine.flp.dimension], wrSeed, vfSeed, |verifiers|),
                    PrepShare(verifiers, if aggId == 0 then public.wrParts.0 else public.wrParts.1,
                              if aggId == 0 then public.vfParts.0 else public.vfParts.1))))
  {
  }

  lemma RunFromPrep(v: Vdaf, verifyKey: Seed, xs: seq<int>, nonce: Nonce, rand: ShardRand, v0: seq<int>, v1: seq<int>)
    requires Shaped(v) && ShardWithRand(v, xs, nonce, rand).Ok?
    requires var (public, in0, in1) := ShardWithRand(v, xs, nonce, rand).value;
             var c := ClientEncode(v, xs, nonce, rand).value;
             HonestPrep(v, verifyKey, nonce, public, in0, in1, c.meas0, c.meas1, v0, v1)
    requires var k := Times(v.pine.numProofsSqNormEqual, v.flpSq.verifierLen);
             && |v0| >= k && DecideAll(v.flpSq, AddVec(v.p, v0, v1)[..k]) && DecideAll(v.flp, AddVec(v.p, v0, v1)[k..])
    ensures var c, d := ClientEncode(v, xs, nonce, rand).value, v.pine.flp.dimension;
            Run(v, verifyKey, xs, nonce, rand) == Ok((c.meas0[..d], c.meas1[..d]))
  {
  }

  lemma HonestInit(v: Vdaf, verifyKey: Seed, xs: seq<int>, nonce: Nonce, rand: ShardRand)
    requires Shaped(v) && Complete(v) && GoodQueries(v, verifyKey, nonce) && ShardWithRand(v, xs, nonce, rand).Ok?
    requires var c := ClientEncode(v, xs, nonce, rand).value;
             && SharesOf(v.p, c.meas0, c.meas1, c.head + c.bits)
             && FlpInput(v, c.head + c.bits, v.xof.jointRandSeed(USAGE_WR_JOINT_RAND_SEED, c.wrParts.0, c.wrParts.1))
                == c.head + c.bits + c.results
             && (v.pine.numProofs > 0 ==> MainZeros(v, c.head + c.bits + c.results))
             && SqZero(v.p, v.pine.flp, v.pine.flpSqNormEqual, c.head + c.bits + c.results)
    ensures var c, d := ClientEncode(v, xs, nonce, rand).value, v.pine.flp.dimension;
            Run(v, verifyKey, xs, nonce, rand) == Ok((c.meas0[..d], c.meas1[..d]))
  {
    var (public, in0, in1) := ShardWithRand(v, xs, nonce, rand).value;
    var c := ClientEncode(v, xs, nonce, rand).value;
    var meas := c.head + c.bits;
    var wrSeed := v.xof.jointRandSeed(USAGE_WR_JOINT_RAND_SEED, c.wrParts.0, c.wrParts.1);
    FlpInputShares(v, c.meas0, c.meas1, meas, wrSeed);
    var jrs := JointRands(v, v.xof.jointRandSeed(USAGE_VF_JOINT_RAND_SEED, public.vfParts.0, public.vfParts.1));
    var proofs1 := v.xof.helperProofShare(rand.proofsShareSeed1);
    SubVecShares(v.p, Proofs(v, meas + c.results, rand.proveSeed, jrs), proofs1);
    var m0, m1 := FlpInput(v, c.meas0, wrSeed), FlpInput(v, c.meas1, wrSeed);
    HonestVerifiers(v, verifyKey, nonce, meas + c.results, m0, m1, in0.proofs, proofs1, rand.proveSeed, jrs);
    var v0, v1 := Verifiers(v, verifyKey, nonce, m0, in0.proofs, jrs).value,
                  Verifiers(v, verifyKey, nonce, m1, proofs1, jrs).value;
    PrepFromVerifiers(v, verifyKey, xs, nonce, rand, v0, v1);
    RunFromPrep(v, verifyKey, xs, nonce, rand, v0, v1);
  }

  /** Aggregators that get to the end of an honest client's report hold its shares of the gradient. */
  lemma RunOutputs(v: Vdaf, verifyKey: Seed, xs: seq<int>, nonce: Nonce, rand: ShardRand)
    requires Shaped(v) && Run(v, verifyKey, xs, nonce, rand).Ok?
    ensures var c, d := ClientEncode(v, xs, nonce, rand).value, v.pine.flp.dimension;
            Run(v, verifyKey, xs, nonce, rand) == Ok((c.meas0[..d], c.meas1[..d]))
  {
  }

  /** They get there only if no query was refused. */
  lemma RunQueries(v: Vdaf, verifyKey: Seed, xs: seq<int>, nonce: Nonce, rand: ShardRand)
    requires Shaped(v) && Refuses(v) && Run(v, verifyKey, xs, nonce, rand).Ok?
    ensures GoodQueries(v, verifyKey, nonce)
  {
    var (public, in0, in1) := ShardWithRand(v, xs, nonce, rand).value;
    var (meas, proofs, _, _) := Unpack(v, 0, in0).value;
    var st := PrepareInit(v, verifyKey, 0, nonce, public, in0).value.0;
    VerifiersGood(v, verifyKey, nonce, FlpInput(v, meas, st.wrSeed), proofs, JointRands(v, st.vfSeed));
  }

  lemma VerifiersGood(v: Vdaf, verifyKey: Seed, nonce: Nonce, meas: seq<int>, proofs: seq<int>, jrs: seq<int>)
    requires Shaped(v) && Refuses(v) && |proofs| == ProofsLen(v) && |jrs| == Times(v.pine.numProofs, 3)
    requires Verifiers(v, verifyKey, nonce, meas, proofs, jrs).Ok?
    ensures GoodQueries(v, verifyKey, nonce)
  {
    var qrs, k, l := v.xof.queryRands(verifyKey, nonce), SqQueryRandsLen(v), SqProofsLen(v);
    TimesIsProduct(v.pine.numProofsSqNormEqual, 0);
    QueriesGood(v.flpSq, meas, proofs[..l], qrs[..k], [], v.pine.numProofsSqNormEqual);
    QueriesGood(v.flp, meas, proofs[l..], qrs[k..], jrs, v.pine.numProofs);
  }

  /**
  An honest run: whatever the client shards is accepted if the query randomness derived from the
  verification key and the nonce is good, and only then if the proof systems refuse other
  randomness. Whenever it is accepted, the two output shares add up to the encoded gradient.
  */
  lemma {:induction false} HonestRun(v: Vdaf, verifyKey: Seed, xs: seq<int>, nonce: Nonce, rand: ShardRand)
    requires Shaped(v) && Prime(v.p) && v.pine.Valid(v.p) && Complete(v)
    requires ShardWithRand(v, xs, nonce, rand).Ok?
    ensures GoodQueries(v, verifyKey, nonce) ==> Run(v, verifyKey, xs, nonce, rand).Ok?
    ensures Refuses(v) ==> (Run(v, verifyKey, xs, nonce, rand).Ok? <==> GoodQueries(v, verifyKey, nonce))
    ensures EncodeCoords(v.p, v.intMax, xs).Ok? && |xs| == v.pine.flp.dimension
    ensures Run(v, verifyKey, xs, nonce, rand).Ok? ==>
              var (out0, out1) := Run(v, verifyKey, xs, nonce, rand).value;
              SharesOf(v.p, out0, out1, EncodeCoords(v.p, v.intMax, xs).value)
  {
    var c := ClientEncode(v, xs, nonce, rand).value;
    var meas := c.head + c.bits;
    ClientHonest(v, xs, nonce, rand);
    if GoodQueries(v, verifyKey, nonce) {
      HonestInit(v, verifyKey, xs, nonce, rand);
    }
    if Run(v, verifyKey, xs, nonce, rand).Ok? {
      var d := v.pine.flp.dimension;
      RunOutputs(v, verifyKey, xs, nonce, rand);
      SharesOfSlice(v.p, c.meas0, c.meas1, meas, 0, d);
      assert c.meas0[0..d] == c.meas0[..d] && c.meas1[0..d] == c.meas1[..d] && meas[0..d] == meas[..d];
      if Refuses(v) {
        RunQueries(v, verifyKey, xs, nonce, rand);
      }
    }
  }
}
