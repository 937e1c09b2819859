/**
Sharding and preparation of PINE as they are executed: vectors are built and updated element
by element and proof by proof. The methods compute the functions of `PineVdaf`.
*/
module PineProtocol {
  import opened Wrappers
  import opened Arithmetic
  import opened PrimeField
  import opened PineParams
  import opened PineWraparound
  import opened PineEncode
  import opened PineVdaf
  import opened PineAggregate

  /** The share of `a` that complements `b`. */
  method SubtractShare(p: int, a: seq<int>, b: seq<int>) returns (r: seq<int>)
    requires p > 0 && |a| <= |b|
    ensures r == SubVec(p, a, b)
  {
    r := [];
    for i := 0 to |a|
      invariant |r| == i && forall j | 0 <= j < i :: r[j] == FSub(p, a[j], b[j])
    {
      r := r + [FSub(p, a[i], b[i])];
    }
  }

  method ProveEach(flp: Flp, meas: seq<int>, proveRands: seq<int>, jointRands: seq<int>, n: nat)
    returns (proofs: seq<int>)
    requires |proveRands| == Times(n, flp.proveRandLen) && |jointRands| == Times(n, flp.jointRandLen)
    ensures proofs == ProveAll(flp, meas, proveRands, jointRands, n)
  {
    proofs := [];
    var pr, jr := proveRands, jointRands;
    for i := 0 to n
      invariant |pr| == Times(n - i, flp.proveRandLen) && |jr| == Times(n - i, flp.jointRandLen)
      invariant proofs + ProveAll(flp, meas, pr, jr, n - i) == ProveAll(flp, meas, proveRands, jointRands, n)
    {
      proofs := proofs + flp.prove(meas, pr[..flp.proveRandLen], jr[..flp.jointRandLen]);
      pr, jr := pr[flp.proveRandLen..], jr[flp.jointRandLen..];
    }
  }

  method QueryEach(flp: Flp, meas: seq<int>, proofs: seq<int>, queryRands: seq<int>, jointRands: seq<int>, n: nat)
    returns (r: Result<seq<int>>)
    requires |proofs| == Times(n, flp.proofLen)
    requires |queryRands| == Times(n, flp.queryRandLen) && |jointRands| == Times(n, flp.jointRandLen)
    ensures r == QueryAll(flp, meas, proofs, queryRands, jointRands, n)
  {
    var verifiers: seq<int> := [];
    var pf, qr, jr := proofs, queryRands, jointRands;
    ghost var whole := QueryAll(flp, meas, proofs, queryRands, jointRands, n);
    assert whole.Ok? ==> [] + whole.value == whole.value;
    for i := 0 to n
      invariant |pf| == Times(n - i, flp.proofLen)
      invariant |qr| == Times(n - i, flp.queryRandLen) && |jr| == Times(n - i, flp.jointRandLen)
      invariant Completes(whole, verifiers, QueryAll(flp, meas, pf, qr, jr, n - i))
    {
      var v := flp.query(meas, pf[..flp.proofLen], qr[..flp.queryRandLen], jr[..flp.jointRandLen]);
      if v.Err? {
        return Err;
      }
      pf, qr, jr := pf[flp.proofLen..], qr[flp.queryRandLen..], jr[flp.jointRandLen..];
      ghost var left := QueryAll(flp, meas, pf, qr, jr, n - i - 1);
      assert left.Ok? ==> verifiers + (v.value + left.value) == (verifiers + v.value) + left.value;
      verifiers := verifiers + v.value;
    }
    assert verifiers + [] == verifiers;
    r := Ok(verifiers);
  }

  method DecideEach(flp: Flp, verifiers: seq<int>) returns (ok: bool)
    requires flp.verifierLen > 0
    ensures ok == DecideAll(flp, verifiers)
  {
    var rest := verifiers;
    while |rest| >= flp.verifierLen
      invariant DecideAll(flp, rest) == DecideAll(flp, verifiers)
      decreases |rest|
    {
      if !flp.decide(rest[..flp.verifierLen]) {
        return false;
      }
      rest := rest[flp.verifierLen..];
    }
    return true;
  }

  method ProveBoth(v: Vdaf, meas: seq<int>, proveSeed: Seed, jointRands: seq<int>) returns (proofs: seq<int>)
    requires Shaped(v) && |meas| == v.flp.inputLen && |jointRands| == Times(v.pine.numProofs, 3)
    ensures proofs == Proofs(v, meas, proveSeed, jointRands)
  {
    var proveRands := v.xof.proveRands(proveSeed);
    var k := SqProveRandsLen(v);
    TimesIsProduct(v.pine.numProofsSqNormEqual, 0);
    var first := ProveEach(v.flpSq, meas, proveRands[..k], [], v.pine.numProofsSqNormEqual);
    var second := ProveEach(v.flp, meas, proveRands[k..], jointRands, v.pine.numProofs);
    proofs := first + second;
  }

  /** The encoding of the measurement with its wraparound tests, and its shares. */
  method EncodeAndShare(v: Vdaf, xs: seq<int>, nonce: Nonce, rand: ShardRand) returns (r: Result<ClientView>)
    requires Shaped(v)
    ensures r == ClientEncode(v, xs, nonce, rand)
  {
    var t := v.pine.flp;
    var encoded := AppendEncodedGradient(v.p, v.intMax, t, xs);
    if encoded.Err? {
      return Err;
    }
    var head := encoded.value;
    var meas1 := v.xof.helperMeasShare(rand.measShareSeed1);
    var meas0 := SubtractShare(v.p, head, meas1[..|head|]);
    var wrParts := (v.xof.jointRandPart(USAGE_WR_JOINT_RAND_PART, 0, rand.wrBlind0, nonce, meas0),
                    v.xof.jointRandPart(USAGE_WR_JOINT_RAND_PART, 1, rand.wrBlind1, nonce, meas1[..|head|]));
    var wrSeed := v.xof.jointRandSeed(USAGE_WR_JOINT_RAND_SEED, wrParts.0, wrParts.1);
    var tested := AppendWrTestResults(v.p, t, head, v.xof.wrRand(wrSeed));
    if tested.Err? {
      return Err;
    }
    var (meas, results) := tested.value;
    ghost var bits := EncodeWr(v.p, t, results, 0).value;
    assert meas[|head|..] == bits;
    EncodeWrMeaning(v.p, t, results, 0);
    var tail := SubtractShare(v.p, meas[|head|..], meas1[|head|..]);
    r := Ok(ClientView(head, meas[|head|..], results, meas0 + tail, meas1, wrParts));
  }

  /** The client splits a measurement into a public share and two input shares. */
  method ShardMeasurement(v: Vdaf, xs: seq<int>, nonce: Nonce, rand: ShardRand)
    returns (r: Result<(PublicShare, InputShare, InputShare)>)
    requires Shaped(v)
    ensures r == ShardWithRand(v, xs, nonce, rand)
  {
    var encoded := EncodeAndShare(v, xs, nonce, rand);
    if encoded.Err? {
      return Err;
    }
    var c := encoded.value;
    var vfParts := (v.xof.jointRandPart(USAGE_VF_JOINT_RAND_PART, 0, rand.vfBlind0, nonce, c.meas0),
                    v.xof.jointRandPart(USAGE_VF_JOINT_RAND_PART, 1, rand.vfBlind1, nonce, c.meas1));
    var vfSeed := v.xof.jointRandSeed(USAGE_VF_JOINT_RAND_SEED, vfParts.0, vfParts.1);
    if !ProversRun(v) {
      return Err;
    }
    var proofs := ProveBoth(v, c.head + c.bits + c.results, rand.proveSeed, v.xof.vfJointRands(vfSeed));
    var proofs0 := SubtractShare(v.p, proofs, v.xof.helperProofShare(rand.proofsShareSeed1));
    r := Ok((PublicShare(c.wrParts, vfParts),
             LeaderShare(c.meas0, proofs0, rand.wrBlind0, rand.vfBlind0),
             HelperShare(rand.measShareSeed1, rand.proofsShareSeed1, rand.wrBlind1, rand.vfBlind1)));
  }

  method QueryBoth(v: Vdaf, verifyKey: Seed, nonce: Nonce, meas: seq<int>, proofs: seq<int>, jointRands: seq<int>)
    returns (r: Result<seq<int>>)
    requires Shaped(v) && |proofs| == ProofsLen(v) && |jointRands| == Times(v.pine.numProofs, 3)
    ensures r == Verifiers(v, verifyKey, nonce, meas, proofs, jointRands)
  {
    var queryRands := v.xof.queryRands(verifyKey, nonce);
    var k, l := SqQueryRandsLen(v), SqProofsLen(v);
    TimesIsProduct(v.pine.numProofsSqNormEqual, 0);
    var first := QueryEach(v.flpSq, meas, proofs[..l], queryRands[..k], [], v.pine.numProofsSqNormEqual);
    if first.Err? {
      return Err;
    }
    var second := QueryEach(v.flp, meas, proofs[l..], queryRands[k..], jointRands, v.pine.numProofs);
    if second.Err? {
      return Err;
    }
    r := Ok(first.value + second.value);
  }

  /**
  An aggregator starts preparation: it recomputes its joint-randomness parts, runs the tests and
  queries the proofs.
  */
  method InitPreparation(v: Vdaf, verifyKey: Seed, aggId: nat, nonce: Nonce, public: PublicShare, input: InputShare)
    returns (r: Result<(PrepState, PrepShare)>)
    requires Shaped(v) && InputShaped(v, input)
    ensures r == PrepareInit(v, verifyKey, aggId, nonce, public, input)
  {
    var t := v.pine.flp;
    var meas: seq<int>, proofs: seq<int>, wrBlind: Seed, vfBlind: Seed;
    match input {
      case LeaderShare(m, p, w, f) =>
        if aggId != 0 {
          return Err;
        }
        meas, proofs, wrBlind, vfBlind := m, p, w, f;
      case HelperShare(m, p, w, f) =>
        if aggId != 1 {
          return Err;
        }
        meas, proofs, wrBlind, vfBlind := v.xof.helperMeasShare(m), v.xof.helperProofShare(p), w, f;
    }
    var wrPart := v.xof.jointRandPart(USAGE_WR_JOINT_RAND_PART, aggId, wrBlind, nonce,
                                      meas[..v.pine.encodedGradientAndSqNormLen]);
    var wrSeed := if aggId == 0 then v.xof.jointRandSeed(USAGE_WR_JOINT_RAND_SEED, wrPart, public.wrParts.1)
                  else v.xof.jointRandSeed(USAGE_WR_JOINT_RAND_SEED, public.wrParts.0, wrPart);
    var results := RunWrTests(v.p, meas[..t.dimension], t.numWrTests, v.xof.wrRand(wrSeed));
    var vfPart := v.xof.jointRandPart(USAGE_VF_JOINT_RAND_PART, aggId, vfBlind, nonce, meas);
    var vfSeed := if aggId == 0 then v.xof.jointRandSeed(USAGE_VF_JOINT_RAND_SEED, vfPart, public.vfParts.1)
                  else v.xof.jointRandSeed(USAGE_VF_JOINT_RAND_SEED, public.vfParts.0, vfPart);
    var verifiers := QueryBoth(v, verifyKey, nonce, meas + results, proofs, v.xof.vfJointRands(vfSeed));
    if verifiers.Err? {
      return Err;
    }
    r := Ok((PrepState(meas[..t.dimension], wrSeed, vfSeed, |verifiers.value|),
             PrepShare(verifiers.value, wrPart, vfPart)));
  }

  /** Combine the preparation shares: decide every proof and derive the seeds both aggregators must confirm. */
  method CombinePrepShares(v: Vdaf, s0: PrepShare, s1: PrepShare) returns (r: Result<PrepMessage>)
    requires v.p > 0 && v.flp.verifierLen > 0 && v.flpSq.verifierLen > 0
    requires |s0.verifiers| >= Times(v.pine.numProofsSqNormEqual, v.flpSq.verifierLen)
    ensures r == PrepareSharesToMessage(v, s0, s1)
  {
    var verifiers := Accumulate(v.p, s0.verifiers, s1.verifiers);
    var k := Times(v.pine.numProofsSqNormEqual, v.flpSq.verifierLen);
    var ok := DecideEach(v.flpSq, verifiers[..k]);
    if !ok {
      return Err;
    }
    ok := DecideEach(v.flp, verifiers[k..]);
    if !ok {
      return Err;
    }
    r := Ok(PrepMessage(v.xof.jointRandSeed(USAGE_WR_JOINT_RAND_SEED, s0.wrPart, s1.wrPart),
                        v.xof.jointRandSeed(USAGE_VF_JOINT_RAND_SEED, s0.vfPart, s1.vfPart)));
  }
}
