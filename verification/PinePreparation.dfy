/**
When preparation of a report succeeds, for any public share and any input shares: the roles must
fit, the seeds derived from the two measurement shares must confirm each other, and every single
proof must be decided. Nothing the client only announces has any influence on the randomness.
*/
module PinePreparation {
  import opened Wrappers
  import opened Arithmetic
  import opened PineParams
  import opened PineLinearity
  import opened PineEncode
  import opened PineVdaf

  // ---- Slices by position

  /** Slice `i` of those of length `len`, from position `at` on. */
  function SliceAt(s: seq<int>, at: nat, len: nat, i: nat): (r: seq<int>)
    requires at + Times(i, len) + len <= |s|
    ensures |r| == len
  {
    s[at + Times(i, len)..at + Times(i, len) + len]
  }

  lemma {:induction false} SliceNext(s: seq<int>, len: nat, i: nat)
    requires len + Times(i, len) + len <= |s|
    ensures SliceAt(s, 0, len, i + 1) == SliceAt(s[len..], 0, len, i)
  {
    var a := Times(i, len);
    assert Times(i + 1, len) == len + a;
    assert s[len..][a..a + len] == s[len + a..len + a + len];
  }

  lemma SliceFirst(s: seq<int>, len: nat)
    requires len <= |s|
    ensures SliceAt(s, 0, len, 0) == s[..len]
  {
  }

  lemma {:induction false} SliceFits(n: nat, len: nat, i: nat)
    ensures i < n ==> Times(i, len) + len <= Times(n, len)
    ensures i >= n && len > 0 ==> Times(i, len) + len > Times(n, len)
  {
    if i > 0 && n > 0 {
      SliceFits(n - 1, len, i - 1);
    }
  }

  // ---- Deciding

  /** Every whole slice is decided. */
  ghost predicate AllDecided(flp: Flp, s: seq<int>) {
    forall i: nat | Times(i, flp.verifierLen) + flp.verifierLen <= |s| :: flp.decide(SliceAt(s, 0, flp.verifierLen, i))
  }

  lemma {:induction false} DecideAllExact(flp: Flp, s: seq<int>)
    requires flp.verifierLen > 0
    ensures DecideAll(flp, s) <==> AllDecided(flp, s)
    decreases |s|
  {
    var len := flp.verifierLen;
    if |s| >= len {
      DecideAllExact(flp, s[len..]);
      SliceFirst(s, len);
      forall i: nat | len + Times(i, len) + len <= |s|
        ensures SliceAt(s, 0, len, i + 1) == SliceAt(s[len..], 0, len, i)
      {
        SliceNext(s, len, i);
      }
      if AllDecided(flp, s) {
        assert flp.decide(SliceAt(s, 0, len, 0));
        forall i: nat | Times(i, len) + len <= |s[len..]| ensures flp.decide(SliceAt(s[len..], 0, len, i)) {
          assert flp.decide(SliceAt(s, 0, len, i + 1));
        }
      }
      if flp.decide(s[..len]) && AllDecided(flp, s[len..]) {
        forall i: nat | Times(i, len) + len <= |s| ensures flp.decide(SliceAt(s, 0, len, i)) {
          if i > 0 { assert flp.decide(SliceAt(s[len..], 0, len, i - 1)); }
        }
      }
    }
  }

  ghost predicate SliceDecided(flp: Flp, s: seq<int>, n: nat, i: nat)
    requires |s| == Times(n, flp.verifierLen) && i < n
  {
    SliceFits(n, flp.verifierLen, i);
    flp.decide(SliceAt(s, 0, flp.verifierLen, i))
  }

  /** Exactly `n` slices, all decided. */
  lemma {:induction false} DecideExactly(flp: Flp, s: seq<int>, n: nat)
    requires flp.verifierLen > 0 && |s| == Times(n, flp.verifierLen)
    ensures DecideAll(flp, s) <==> forall i: nat | i < n :: SliceDecided(flp, s, n, i)
  {
    DecideAllExact(flp, s);
    forall i: nat ensures Times(i, flp.verifierLen) + flp.verifierLen <= |s| <==> i < n {
      SliceFits(n, flp.verifierLen, i);
    }
    if forall i: nat | i < n :: SliceDecided(flp, s, n, i) {
      forall i: nat | Times(i, flp.verifierLen) + flp.verifierLen <= |s|
        ensures flp.decide(SliceAt(s, 0, flp.verifierLen, i))
      {
        assert SliceDecided(flp, s, n, i);
      }
    }
  }

  function SqVerifiersLen(v: Vdaf): nat {
    Times(v.pine.numProofsSqNormEqual, v.flpSq.verifierLen)
  }

  function VerifiersLen(v: Vdaf): nat {
    SqVerifiersLen(v) + Times(v.pine.numProofs, v.flp.verifierLen)
  }

  /** The sum of two vectors, from position `at` on. */
  function SumAt(p: int, a: seq<int>, b: seq<int>, at: nat, len: nat): seq<int>
    requires p > 0 && at + len <= |a| && at + len <= |b|
  {
    seq(len, j requires 0 <= j < len => (a[at + j] + b[at + j]) % p)
  }

  lemma SumSlice(p: int, a: seq<int>, b: seq<int>, at: nat, len: nat)
    requires p > 0 && at + len <= |a| == |b|
    ensures AddVec(p, a, b)[at..at + len] == SumAt(p, a, b, at, len)
  {
  }

  /** Proof `i` of `n` is decided, on the sum of the verifiers at its position from `at` on. */
  ghost predicate SumDecided(p: int, flp: Flp, a: seq<int>, b: seq<int>, at: nat, n: nat, i: nat)
    requires p > 0 && at + Times(n, flp.verifierLen) <= |a| == |b| && i < n
  {
    SliceFits(n, flp.verifierLen, i);
    flp.decide(SumAt(p, a, b, at + Times(i, flp.verifierLen), flp.verifierLen))
  }

  ghost predicate SumsDecided(p: int, flp: Flp, a: seq<int>, b: seq<int>, at: nat, n: nat)
    requires p > 0 && at + Times(n, flp.verifierLen) <= |a| == |b|
  {
    forall i: nat | i < n :: SumDecided(p, flp, a, b, at, n, i)
  }

  lemma {:induction false} SumSliceAt(p: int, a: seq<int>, b: seq<int>, at: nat, len: nat, n: nat, i: nat)
    requires p > 0 && i < n && at + Times(n, len) <= |a| == |b|
    ensures Times(i, len) + len <= Times(n, len)
    ensures SliceAt(AddVec(p, a, b)[at..at + Times(n, len)], 0, len, i) == SumAt(p, a, b, at + Times(i, len), len)
  {
    SliceFits(n, len, i);
    var sum, x, y := AddVec(p, a, b), Times(i, len), at + Times(n, len);
    assert sum[at..y][x..x + len] == sum[at + x..at + x + len];
    SumSlice(p, a, b, at + x, len);
  }

  lemma {:induction false} SumsDecidedExact(p: int, flp: Flp, a: seq<int>, b: seq<int>, at: nat, n: nat)
    requires p > 0 && flp.verifierLen > 0 && at + Times(n, flp.verifierLen) <= |a| == |b|
    ensures DecideAll(flp, AddVec(p, a, b)[at..at + Times(n, flp.verifierLen)]) <==> SumsDecided(p, flp, a, b, at, n)
  {
    var sum := AddVec(p, a, b)[at..at + Times(n, flp.verifierLen)];
    DecideExactly(flp, sum, n);
    forall i: nat | i < n ensures SliceDecided(flp, sum, n, i) <==> SumDecided(p, flp, a, b, at, n, i) {
      SumSliceAt(p, a, b, at, flp.verifierLen, n, i);
    }
  }

  /**
  The preparation shares make a message if and only if every one of the proofs of either circuit is
  decided, on the sum of the two verifiers at its position.
  */
  lemma MessageExact(v: Vdaf, s0: PrepShare, s1: PrepShare)
    requires v.p > 0 && v.flp.verifierLen > 0 && v.flpSq.verifierLen > 0
    requires |s0.verifiers| == |s1.verifiers| == VerifiersLen(v)
    ensures PrepareSharesToMessage(v, s0, s1).Ok?
       <==> && SumsDecided(v.p, v.flpSq, s0.verifiers, s1.verifiers, 0, v.pine.numProofsSqNormEqual)
            && SumsDecided(v.p, v.flp, s0.verifiers, s1.verifiers, SqVerifiersLen(v), v.pine.numProofs)
  {
    var k, sum := SqVerifiersLen(v), AddVec(v.p, s0.verifiers, s1.verifiers);
    SumsDecidedExact(v.p, v.flpSq, s0.verifiers, s1.verifiers, 0, v.pine.numProofsSqNormEqual);
    SumsDecidedExact(v.p, v.flp, s0.verifiers, s1.verifiers, k, v.pine.numProofs);
    assert sum[0..0 + k] == sum[..k] && sum[k..k + Times(v.pine.numProofs, v.flp.verifierLen)] == sum[k..];
  }

  // ---- Querying

  /** Query `i`: on slice `i` of the proofs, of the query randomness and of the joint randomness. */
  function QueryAt(flp: Flp, m: seq<int>, pfs: seq<int>, qrs: seq<int>, jrs: seq<int>, i: nat): Result<seq<int>>
    requires Times(i, flp.proofLen) + flp.proofLen <= |pfs|
    requires Times(i, flp.queryRandLen) + flp.queryRandLen <= |qrs|
    requires Times(i, flp.jointRandLen) + flp.jointRandLen <= |jrs|
  {
    flp.query(m, SliceAt(pfs, 0, flp.proofLen, i), SliceAt(qrs, 0, flp.queryRandLen, i),
              SliceAt(jrs, 0, flp.jointRandLen, i))
  }

  ghost predicate Lengths(flp: Flp, pfs: seq<int>, qrs: seq<int>, jrs: seq<int>, n: nat) {
    && |pfs| == Times(n, flp.proofLen) && |qrs| == Times(n, flp.queryRandLen)
    && |jrs| == Times(n, flp.jointRandLen)
  }

  lemma {:induction false} LengthsAt(flp: Flp, pfs: seq<int>, qrs: seq<int>, jrs: seq<int>, n: nat, i: nat)
    requires Lengths(flp, pfs, qrs, jrs, n) && i < n
    ensures Times(i, flp.proofLen) + flp.proofLen <= |pfs|
    ensures Times(i, flp.queryRandLen) + flp.queryRandLen <= |qrs|
    ensures Times(i, flp.jointRandLen) + flp.jointRandLen <= |jrs|
  {
    SliceFits(n, flp.proofLen, i);
    SliceFits(n, flp.queryRandLen, i);
    SliceFits(n, flp.jointRandLen, i);
  }

  lemma QueryAtNext(flp: Flp, m: seq<int>, pfs: seq<int>, qrs: seq<int>, jrs: seq<int>, n: nat, i: nat)
    requires n > 0 && Lengths(flp, pfs, qrs, jrs, n) && i < n - 1
    ensures Times(i + 1, flp.proofLen) + flp.proofLen <= |pfs|
    ensures Times(i + 1, flp.queryRandLen) + flp.queryRandLen <= |qrs|
    ensures Times(i + 1, flp.jointRandLen) + flp.jointRandLen <= |jrs|
    ensures Lengths(flp, pfs[flp.proofLen..], qrs[flp.queryRandLen..], jrs[flp.jointRandLen..], n - 1)
    ensures Times(i, flp.proofLen) + flp.proofLen <= |pfs[flp.proofLen..]|
    ensures Times(i, flp.queryRandLen) + flp.queryRandLen <= |qrs[flp.queryRandLen..]|
    ensures Times(i, flp.jointRandLen) + flp.jointRandLen <= |jrs[flp.jointRandLen..]|
    ensures QueryAt(flp, m, pfs, qrs, jrs, i + 1)
         == QueryAt(flp, m, pfs[flp.proofLen..], qrs[flp.queryRandLen..], jrs[flp.jointRandLen..], i)
  {
    LengthsAt(flp, pfs, qrs, jrs, n, i + 1);
    SliceNext(pfs, flp.proofLen, i);
    SliceNext(qrs, flp.queryRandLen, i);
    SliceNext(jrs, flp.jointRandLen, i);
  }

  /** Query `i` succeeds, and its verifier is slice `i` of `vs`. */
  ghost predicate Verifies(flp: Flp, m: seq<int>, pfs: seq<int>, qrs: seq<int>, jrs: seq<int>, n: nat, vs: seq<int>,
                           i: nat)
    requires Lengths(flp, pfs, qrs, jrs, n) && i < n && |vs| == Times(n, flp.verifierLen)
  {
    LengthsAt(flp, pfs, qrs, jrs, n, i);
    SliceFits(n, flp.verifierLen, i);
    QueryAt(flp, m, pfs, qrs, jrs, i) == Ok(SliceAt(vs, 0, flp.verifierLen, i))
  }

  ghost predicate Succeeds(flp: Flp, m: seq<int>, pfs: seq<int>, qrs: seq<int>, jrs: seq<int>, n: nat, i: nat)
    requires Lengths(flp, pfs, qrs, jrs, n) && i < n
  {
    LengthsAt(flp, pfs, qrs, jrs, n, i);
    QueryAt(flp, m, pfs, qrs, jrs, i).Ok?
  }

  ghost predicate AllSucceed(flp: Flp, m: seq<int>, pfs: seq<int>, qrs: seq<int>, jrs: seq<int>, n: nat)
    requires Lengths(flp, pfs, qrs, jrs, n)
  {
    forall i: nat | i < n :: Succeeds(flp, m, pfs, qrs, jrs, n, i)
  }

  ghost predicate AllVerify(flp: Flp, m: seq<int>, pfs: seq<int>, qrs: seq<int>, jrs: seq<int>, n: nat, vs: seq<int>)
    requires Lengths(flp, pfs, qrs, jrs, n)
  {
    |vs| == Times(n, flp.verifierLen) && forall i: nat | i < n :: Verifies(flp, m, pfs, qrs, jrs, n, vs, i)
  }

  /** All queries succeed if and only if each does, and the result lists their verifiers by position. */
  lemma {:induction false} QueryAllExact(flp: Flp, m: seq<int>, pfs: seq<int>, qrs: seq<int>, jrs: seq<int>, n: nat)
    requires Lengths(flp, pfs, qrs, jrs, n) && QuerySized(flp)
    ensures QueryAll(flp, m, pfs, qrs, jrs, n).Ok? <==> AllSucceed(flp, m, pfs, qrs, jrs, n)
    ensures QueryAll(flp, m, pfs, qrs, jrs, n).Ok? ==>
              AllVerify(flp, m, pfs, qrs, jrs, n, QueryAll(flp, m, pfs, qrs, jrs, n).value)
  {
    if n > 0 {
      var a, b, c := flp.proofLen, flp.queryRandLen, flp.jointRandLen;
      LengthsAt(flp, pfs, qrs, jrs, n, 0);
      QueryAllExact(flp, m, pfs[a..], qrs[b..], jrs[c..], n - 1);
      SliceFirst(pfs, a);
      SliceFirst(qrs, b);
      SliceFirst(jrs, c);
      assert QueryAt(flp, m, pfs, qrs, jrs, 0) == flp.query(m, pfs[..a], qrs[..b], jrs[..c]);
      SucceedNext(flp, m, pfs, qrs, jrs, n);
      if QueryAll(flp, m, pfs, qrs, jrs, n).Ok? {
        VerifyNext(flp, m, pfs, qrs, jrs, n);
      }
    }
  }

  lemma SucceedNext(flp: Flp, m: seq<int>, pfs: seq<int>, qrs: seq<int>, jrs: seq<int>, n: nat)
    requires Lengths(flp, pfs, qrs, jrs, n) && n > 0
    ensures var (a, b, c) := (flp.proofLen, flp.queryRandLen, flp.jointRandLen);
            && Lengths(flp, pfs[a..], qrs[b..], jrs[c..], n - 1)
            && (AllSucceed(flp, m, pfs, qrs, jrs, n) <==> && Succeeds(flp, m, pfs, qrs, jrs, n, 0)
                                                          && AllSucceed(flp, m, pfs[a..], qrs[b..], jrs[c..], n - 1))
  {
    var a, b, c, n' := flp.proofLen, flp.queryRandLen, flp.jointRandLen, n - 1;
    if AllSucceed(flp, m, pfs, qrs, jrs, n) {
      forall i: nat | i < n' ensures Succeeds(flp, m, pfs[a..], qrs[b..], jrs[c..], n', i) {
        QueryAtNext(flp, m, pfs, qrs, jrs, n, i);
        assert Succeeds(flp, m, pfs, qrs, jrs, n, i + 1);
      }
    }
    if Succeeds(flp, m, pfs, qrs, jrs, n, 0) && AllSucceed(flp, m, pfs[a..], qrs[b..], jrs[c..], n') {
      forall i: nat | i < n ensures Succeeds(flp, m, pfs, qrs, jrs, n, i) {
        if i > 0 {
          QueryAtNext(flp, m, pfs, qrs, jrs, n, i - 1);
          assert Succeeds(flp, m, pfs[a..], qrs[b..], jrs[c..], n', i - 1);
        }
      }
    }
  }

  lemma {:induction false} VerifyNext(flp: Flp, m: seq<int>, pfs: seq<int>, qrs: seq<int>, jrs: seq<int>, n: nat)
    requires Lengths(flp, pfs, qrs, jrs, n) && n > 0 && QuerySized(flp) && QueryAll(flp, m, pfs, qrs, jrs, n).Ok?
    requires var (a, b, c) := (flp.proofLen, flp.queryRandLen, flp.jointRandLen);
             && Lengths(flp, pfs[a..], qrs[b..], jrs[c..], n - 1)
             && var rest := QueryAll(flp, m, pfs[a..], qrs[b..], jrs[c..], n - 1);
                rest.Ok? && AllVerify(flp, m, pfs[a..], qrs[b..], jrs[c..], n - 1, rest.value)
    ensures AllVerify(flp, m, pfs, qrs, jrs, n, QueryAll(flp, m, pfs, qrs, jrs, n).value)
  {
    var a, b, c, len := flp.proofLen, flp.queryRandLen, flp.jointRandLen, flp.verifierLen;
    var first := flp.query(m, pfs[..a], qrs[..b], jrs[..c]).value;
    var rest := QueryAll(flp, m, pfs[a..], qrs[b..], jrs[c..], n - 1).value;
    var vs := QueryAll(flp, m, pfs, qrs, jrs, n).value;
    assert vs == first + rest && |first| == len;
    assert vs[len..] == rest && vs[..len] == first;
    forall i: nat | i < n ensures Verifies(flp, m, pfs, qrs, jrs, n, vs, i) {
      if i == 0 {
        VerifiesFirst(flp, m, pfs, qrs, jrs, n, vs);
      } else {
        assert Verifies(flp, m, pfs[a..], qrs[b..], jrs[c..], n - 1, rest, i - 1);
        VerifiesNext(flp, m, pfs, qrs, jrs, n, vs, i - 1);
      }
    }
  }

  lemma {:induction false} VerifiesFirst(flp: Flp, m: seq<int>, pfs: seq<int>, qrs: seq<int>, jrs: seq<int>, n: nat,
                                         vs: seq<int>)
    requires Lengths(flp, pfs, qrs, jrs, n) && n > 0 && |vs| == Times(n, flp.verifierLen)
    requires flp.query(m, pfs[..flp.proofLen], qrs[..flp.queryRandLen], jrs[..flp.jointRandLen])
          == Ok(vs[..flp.verifierLen])
    ensures Verifies(flp, m, pfs, qrs, jrs, n, vs, 0)
  {
    SliceFirst(pfs, flp.proofLen);
    SliceFirst(qrs, flp.queryRandLen);
    SliceFirst(jrs, flp.jointRandLen);
    SliceFirst(vs, flp.verifierLen);
  }

  lemma VerifiesNext(flp: Flp, m: seq<int>, pfs: seq<int>, qrs: seq<int>, jrs: seq<int>, n: nat, vs: seq<int>, i: nat)
    requires Lengths(flp, pfs, qrs, jrs, n) && i < n - 1 && |vs| == Times(n, flp.verifierLen)
    requires var (a, b, c) := (flp.proofLen, flp.queryRandLen, flp.jointRandLen);
             && Lengths(flp, pfs[a..], qrs[b..], jrs[c..], n - 1)
             && |vs[flp.verifierLen..]| == Times(n - 1, flp.verifierLen)
             && Verifies(flp, m, pfs[a..], qrs[b..], jrs[c..], n - 1, vs[flp.verifierLen..], i)
    ensures Verifies(flp, m, pfs, qrs, jrs, n, vs, i + 1)
  {
    QueryAtNext(flp, m, pfs, qrs, jrs, n, i);
    SliceFits(n, flp.verifierLen, i + 1);
    SliceNext(vs, flp.verifierLen, i);
  }

  // ---- Preparation

  /** Proof `i` of `n` is accepted: both aggregators can query it, and the sum of their verifiers is decided. */
  ghost predicate Accepted(p: int, flp: Flp, m0: seq<int>, m1: seq<int>, pfs0: seq<int>, pfs1: seq<int>,
                           qrs: seq<int>, jrs: seq<int>, n: nat, i: nat)
    requires p > 0 && Lengths(flp, pfs0, qrs, jrs, n) && Lengths(flp, pfs1, qrs, jrs, n) && i < n
  {
    LengthsAt(flp, pfs0, qrs, jrs, n, i);
    LengthsAt(flp, pfs1, qrs, jrs, n, i);
    var (q0, q1) := (QueryAt(flp, m0, pfs0, qrs, jrs, i), QueryAt(flp, m1, pfs1, qrs, jrs, i));
    q0.Ok? && q1.Ok? && flp.decide(AddVec(p, q0.value, q1.value))
  }

  ghost predicate AllAccepted(p: int, flp: Flp, m0: seq<int>, m1: seq<int>, pfs0: seq<int>, pfs1: seq<int>,
                              qrs: seq<int>, jrs: seq<int>, n: nat)
    requires p > 0 && Lengths(flp, pfs0, qrs, jrs, n) && Lengths(flp, pfs1, qrs, jrs, n)
  {
    forall i: nat | i < n :: Accepted(p, flp, m0, m1, pfs0, pfs1, qrs, jrs, n, i)
  }

  lemma {:induction false} AddSlices(p: int, a: seq<int>, b: seq<int>, len: nat, i: nat)
    requires p > 0 && Times(i, len) + len <= |a| == |b|
    ensures SliceAt(AddVec(p, a, b), 0, len, i) == AddVec(p, SliceAt(a, 0, len, i), SliceAt(b, 0, len, i))
  {
  }

  lemma {:induction false} AcceptedAt(p: int, flp: Flp, m0: seq<int>, m1: seq<int>, pfs0: seq<int>, pfs1: seq<int>,
                   qrs: seq<int>, jrs: seq<int>, n: nat, vs0: seq<int>, vs1: seq<int>, i: nat)
    requires p > 0 && Lengths(flp, pfs0, qrs, jrs, n) && Lengths(flp, pfs1, qrs, jrs, n) && i < n
    requires |vs0| == |vs1| == Times(n, flp.verifierLen)
    requires Verifies(flp, m0, pfs0, qrs, jrs, n, vs0, i) && Verifies(flp, m1, pfs1, qrs, jrs, n, vs1, i)
    ensures SliceDecided(flp, AddVec(p, vs0, vs1), n, i) <==> Accepted(p, flp, m0, m1, pfs0, pfs1, qrs, jrs, n, i)
  {
    SliceFits(n, flp.verifierLen, i);
    AddSlices(p, vs0, vs1, flp.verifierLen, i);
  }

  /** The queries of one circuit succeed and are decided if and only if every proof is accepted. */
  lemma {:induction false} CircuitExact(p: int, flp: Flp, m0: seq<int>, m1: seq<int>, pfs0: seq<int>, pfs1: seq<int>,
                                        qrs: seq<int>, jrs: seq<int>, n: nat)
    requires p > 0 && Lengths(flp, pfs0, qrs, jrs, n) && Lengths(flp, pfs1, qrs, jrs, n)
    requires QuerySized(flp) && flp.verifierLen > 0
    ensures var (r0, r1) := (QueryAll(flp, m0, pfs0, qrs, jrs, n), QueryAll(flp, m1, pfs1, qrs, jrs, n));
            && (r0.Ok? && r1.Ok? ==> |r0.value| == |r1.value| == Times(n, flp.verifierLen))
            && (r0.Ok? && r1.Ok? && DecideAll(flp, AddVec(p, r0.value, r1.value))
                <==> AllAccepted(p, flp, m0, m1, pfs0, pfs1, qrs, jrs, n))
  {
    var r0, r1 := QueryAll(flp, m0, pfs0, qrs, jrs, n), QueryAll(flp, m1, pfs1, qrs, jrs, n);
    QueryAllExact(flp, m0, pfs0, qrs, jrs, n);
    QueryAllExact(flp, m1, pfs1, qrs, jrs, n);
    if r0.Ok? && r1.Ok? {
      DecideExactly(flp, AddVec(p, r0.value, r1.value), n);
      forall i: nat | i < n
        ensures SliceDecided(flp, AddVec(p, r0.value, r1.value), n, i)
           <==> Accepted(p, flp, m0, m1, pfs0, pfs1, qrs, jrs, n, i)
      {
        assert Verifies(flp, m0, pfs0, qrs, jrs, n, r0.value, i) && Verifies(flp, m1, pfs1, qrs, jrs, n, r1.value, i);
        AcceptedAt(p, flp, m0, m1, pfs0, pfs1, qrs, jrs, n, r0.value, r1.value, i);
      }
    } else if AllAccepted(p, flp, m0, m1, pfs0, pfs1, qrs, jrs, n) {
      forall i: nat | i < n
        ensures Succeeds(flp, m0, pfs0, qrs, jrs, n, i) && Succeeds(flp, m1, pfs1, qrs, jrs, n, i)
      {
        assert Accepted(p, flp, m0, m1, pfs0, pfs1, qrs, jrs, n, i);
      }
    }
  }

  /** All proofs of both circuits, queried on `m0` and `m1`, are accepted. */
  ghost predicate ProofsAccepted(v: Vdaf, verifyKey: Seed, nonce: Nonce, m0: seq<int>, m1: seq<int>,
                                 pfs0: seq<int>, pfs1: seq<int>, jrs: seq<int>)
    requires Shaped(v) && |pfs0| == |pfs1| == ProofsLen(v) && |jrs| == Times(v.pine.numProofs, 3)
  {
    var (qrs, k, l) := (v.xof.queryRands(verifyKey, nonce), SqQueryRandsLen(v), SqProofsLen(v));
    TimesIsProduct(v.pine.numProofsSqNormEqual, 0);
    && AllAccepted(v.p, v.flpSq, m0, m1, pfs0[..l], pfs1[..l], qrs[..k], [], v.pine.numProofsSqNormEqual)
    && AllAccepted(v.p, v.flp, m0, m1, pfs0[l..], pfs1[l..], qrs[k..], jrs, v.pine.numProofs)
  }

  lemma VerifiersExact(v: Vdaf, verifyKey: Seed, nonce: Nonce, m0: seq<int>, m1: seq<int>, pfs0: seq<int>,
                       pfs1: seq<int>, jrs: seq<int>)
    requires Shaped(v) && QuerySized(v.flp) && QuerySized(v.flpSq)
    requires |pfs0| == |pfs1| == ProofsLen(v) && |jrs| == Times(v.pine.numProofs, 3)
    ensures var r0 := Verifiers(v, verifyKey, nonce, m0, pfs0, jrs);
            var r1 := Verifiers(v, verifyKey, nonce, m1, pfs1, jrs);
            var k := SqVerifiersLen(v);
            && (r0.Ok? && r1.Ok? ==> |r0.value| == |r1.value| == VerifiersLen(v))
            && (&& r0.Ok? && r1.Ok?
                && DecideAll(v.flpSq, AddVec(v.p, r0.value, r1.value)[..k])
                && DecideAll(v.flp, AddVec(v.p, r0.value, r1.value)[k..])
                <==> ProofsAccepted(v, verifyKey, nonce, m0, m1, pfs0, pfs1, jrs))
  {
    var qrs, k, l := v.xof.queryRands(verifyKey, nonce), SqQueryRandsLen(v), SqProofsLen(v);
    var n, n' := v.pine.numProofsSqNormEqual, v.pine.numProofs;
    TimesIsProduct(n, 0);
    CircuitExact(v.p, v.flpSq, m0, m1, pfs0[..l], pfs1[..l], qrs[..k], [], n);
    CircuitExact(v.p, v.flp, m0, m1, pfs0[l..], pfs1[l..], qrs[k..], jrs, n');
    var a0, b0 := QueryAll(v.flpSq, m0, pfs0[..l], qrs[..k], [], n), QueryAll(v.flp, m0, pfs0[l..], qrs[k..], jrs, n');
    var a1, b1 := QueryAll(v.flpSq, m1, pfs1[..l], qrs[..k], [], n), QueryAll(v.flp, m1, pfs1[l..], qrs[k..], jrs, n');
    if a0.Ok? && b0.Ok? && a1.Ok? && b1.Ok? {
      JoinVerifiers(v.p, a0.value, b0.value, a1.value, b1.value);
    }
  }

  /** The parts of the two seeds as the aggregators derive them, each from its own share. */
  datatype Parts = Parts(wr0: Seed, wr1: Seed, vf0: Seed, vf1: Seed)

  ghost function HelperMeas(v: Vdaf, seed: Seed): (m: seq<int>)
    requires Shaped(v)
    ensures |m| == v.pine.encodedInputLen
  {
    v.xof.helperMeasShare(seed)
  }

  ghost function HelperProofs(v: Vdaf, seed: Seed): (pfs: seq<int>)
    requires Shaped(v)
    ensures |pfs| == ProofsLen(v)
  {
    v.xof.helperProofShare(seed)
  }

  ghost function OwnParts(v: Vdaf, nonce: Nonce, in0: InputShare, in1: InputShare): Parts
    requires Shaped(v) && InputShaped(v, in0) && in0.LeaderShare? && in1.HelperShare?
  {
    var (m1, k) := (HelperMeas(v, in1.measSeed), v.pine.encodedGradientAndSqNormLen);
    Parts(v.xof.jointRandPart(10, 0, in0.wrBlind, nonce, in0.meas[..k]),
          v.xof.jointRandPart(10, 1, in1.wrBlind, nonce, m1[..k]),
          v.xof.jointRandPart(7, 0, in0.vfBlind, nonce, in0.meas),
          v.xof.jointRandPart(7, 1, in1.vfBlind, nonce, m1))
  }

  /** The seeds that follow from both shares. */
  ghost function WrSeed(v: Vdaf, parts: Parts): Seed {
    v.xof.jointRandSeed(9, parts.wr0, parts.wr1)
  }

  ghost function VfSeed(v: Vdaf, parts: Parts): Seed {
    v.xof.jointRandSeed(6, parts.vf0, parts.vf1)
  }

  /** With the other's parts as announced, either aggregator arrives at these seeds. */
  ghost predicate Confirmed(v: Vdaf, parts: Parts, public: PublicShare) {
    && v.xof.jointRandSeed(9, parts.wr0, public.wrParts.1) == WrSeed(v, parts)
    && v.xof.jointRandSeed(9, public.wrParts.0, parts.wr1) == WrSeed(v, parts)
    && v.xof.jointRandSeed(6, parts.vf0, public.vfParts.1) == VfSeed(v, parts)
    && v.xof.jointRandSeed(6, public.vfParts.0, parts.vf1) == VfSeed(v, parts)
  }

  /** The message made from the aggregators' own preparation shares has these seeds, whatever was announced. */
  lemma MessageBinds(v: Vdaf, verifyKey: Seed, nonce: Nonce, public: PublicShare, in0: InputShare, in1: InputShare)
    requires Shaped(v) && InputShaped(v, in0) && InputShaped(v, in1)
    requires PrepareInit(v, verifyKey, 0, nonce, public, in0).Ok?
    requires PrepareInit(v, verifyKey, 1, nonce, public, in1).Ok?
    ensures in0.LeaderShare? && in1.HelperShare?
    ensures var ps0 := PrepareInit(v, verifyKey, 0, nonce, public, in0).value.1;
            var ps1 := PrepareInit(v, verifyKey, 1, nonce, public, in1).value.1;
            var parts := OwnParts(v, nonce, in0, in1);
            && Parts(ps0.wrPart, ps1.wrPart, ps0.vfPart, ps1.vfPart) == parts
            && (|ps0.verifiers| >= SqVerifiersLen(v) && PrepareSharesToMessage(v, ps0, ps1).Ok? ==>
                  PrepareSharesToMessage(v, ps0, ps1).value == PrepMessage(WrSeed(v, parts), VfSeed(v, parts)))
  {
  }

  /**
  Preparation by both aggregators, for any public share and any input shares, succeeds if and only
  if each has a share for its role, the announced parts lead to the seeds that follow from the two
  measurement shares, and with these seeds every proof of both circuits is accepted. The output
  shares are then the gradient parts of the two measurement shares.
  */
  lemma PreparationExact(v: Vdaf, verifyKey: Seed, nonce: Nonce, public: PublicShare, in0: InputShare, in1: InputShare)
    requires Shaped(v) && InputShaped(v, in0) && InputShaped(v, in1) && QuerySized(v.flp) && QuerySized(v.flpSq)
    ensures Prepare(v, verifyKey, nonce, public, in0, in1).Ok?
       <==> && in0.LeaderShare? && in1.HelperShare?
            && var (parts, m1) := (OwnParts(v, nonce, in0, in1), HelperMeas(v, in1.measSeed));
               var (wrSeed, vfSeed) := (WrSeed(v, parts), VfSeed(v, parts));
               && Confirmed(v, parts, public)
               && ProofsAccepted(v, verifyKey, nonce, FlpInput(v, in0.meas, wrSeed), FlpInput(v, m1, wrSeed),
                                 in0.proofs, HelperProofs(v, in1.proofsSeed), v.xof.vfJointRands(vfSeed))
    ensures Prepare(v, verifyKey, nonce, public, in0, in1).Ok? ==>
              var d := v.pine.flp.dimension;
              Prepare(v, verifyKey, nonce, public, in0, in1) == Ok((in0.meas[..d], HelperMeas(v, in1.measSeed)[..d]))
  {
    if in0.LeaderShare? && in1.HelperShare? {
      PreparedByRole(v, verifyKey, nonce, public, in0, in1);
    }
  }

  /** What an aggregator starts with, once it has its seeds and verifiers. */
  ghost function Started(gradient: seq<int>, wrSeed: Seed, vfSeed: Seed, verifiers: Result<seq<int>>, wrPart: Seed,
                         vfPart: Seed): Result<(PrepState, PrepShare)>
  {
    match verifiers
    case Err => Err
    case Ok(vs) => Ok((PrepState(gradient, wrSeed, vfSeed, |vs|), PrepShare(vs, wrPart, vfPart)))
  }

  lemma LeaderStarts(v: Vdaf, verifyKey: Seed, nonce: Nonce, public: PublicShare, in0: InputShare, in1: InputShare,
                     wrSeed: Seed, vfSeed: Seed)
    requires Shaped(v) && InputShaped(v, in0) && in0.LeaderShare? && in1.HelperShare?
    requires var parts := OwnParts(v, nonce, in0, in1);
             && wrSeed == v.xof.jointRandSeed(9, parts.wr0, public.wrParts.1)
             && vfSeed == v.xof.jointRandSeed(6, parts.vf0, public.vfParts.1)
    ensures var parts := OwnParts(v, nonce, in0, in1);
            PrepareInit(v, verifyKey, 0, nonce, public, in0)
            == Started(in0.meas[..v.pine.flp.dimension], wrSeed, vfSeed,
                       Verifiers(v, verifyKey, nonce, FlpInput(v, in0.meas, wrSeed), in0.proofs, JointRands(v, vfSeed)),
                       parts.wr0, parts.vf0)
  {
  }

  lemma HelperStarts(v: Vdaf, verifyKey: Seed, nonce: Nonce, public: PublicShare, in0: InputShare, in1: InputShare,
                     wrSeed: Seed, vfSeed: Seed)
    requires Shaped(v) && InputShaped(v, in0) && in0.LeaderShare? && in1.HelperShare?
    requires var parts := OwnParts(v, nonce, in0, in1);
             && wrSeed == v.xof.jointRandSeed(9, public.wrParts.0, parts.wr1)
             && vfSeed == v.xof.jointRandSeed(6, public.vfParts.0, parts.vf1)
    ensures var (parts, m1) := (OwnParts(v, nonce, in0, in1), HelperMeas(v, in1.measSeed));
            PrepareInit(v, verifyKey, 1, nonce, public, in1)
            == Started(m1[..v.pine.flp.dimension], wrSeed, vfSeed,
                       Verifiers(v, verifyKey, nonce, FlpInput(v, m1, wrSeed), HelperProofs(v, in1.proofsSeed),
                                 JointRands(v, vfSeed)),
                       parts.wr1, parts.vf1)
  {
  }

  /** From these starts, both finish if and only if the verifiers are decided and all seeds agree. */
  lemma ConcludeExact(v: Vdaf, parts: Parts, g0: seq<int>, g1: seq<int>, wr0: Seed, vf0: Seed, wr1: Seed, vf1: Seed,
                      r0: Result<seq<int>>, r1: Result<seq<int>>)
    requires v.p > 0 && v.flp.verifierLen > 0 && v.flpSq.verifierLen > 0
    ensures var done := Conclude(v, Started(g0, wr0, vf0, r0, parts.wr0, parts.vf0),
                                 Started(g1, wr1, vf1, r1, parts.wr1, parts.vf1));
            var k := SqVerifiersLen(v);
            && (done.Ok? <==> && r0.Ok? && r1.Ok? && k <= |r0.value|
                              && DecideAll(v.flpSq, AddVec(v.p, r0.value, r1.value)[..k])
                              && DecideAll(v.flp, AddVec(v.p, r0.value, r1.value)[k..])
                              && wr0 == wr1 == WrSeed(v, parts) && vf0 == vf1 == VfSeed(v, parts))
            && (done.Ok? ==> done.value == (g0, g1))
  {
  }

  lemma PreparedByRole(v: Vdaf, verifyKey: Seed, nonce: Nonce, public: PublicShare, in0: InputShare, in1: InputShare)
    requires Shaped(v) && InputShaped(v, in0) && InputShaped(v, in1) && QuerySized(v.flp) && QuerySized(v.flpSq)
    requires in0.LeaderShare? && in1.HelperShare?
    ensures var done := Prepare(v, verifyKey, nonce, public, in0, in1);
            var (parts, m1, d) := (OwnParts(v, nonce, in0, in1), HelperMeas(v, in1.measSeed), v.pine.flp.dimension);
            var (wrSeed, vfSeed) := (WrSeed(v, parts), VfSeed(v, parts));
            && (done.Ok? <==> && Confirmed(v, parts, public)
                              && ProofsAccepted(v, verifyKey, nonce, FlpInput(v, in0.meas, wrSeed),
                                                FlpInput(v, m1, wrSeed), in0.proofs, HelperProofs(v, in1.proofsSeed),
                                                JointRands(v, vfSeed)))
            && (done.Ok? ==> done.value == (in0.meas[..d], m1[..d]))
  {
    var parts, m1, pfs1 := OwnParts(v, nonce, in0, in1), HelperMeas(v, in1.measSeed), HelperProofs(v, in1.proofsSeed);
    var d := v.pine.flp.dimension;
    var wr0 := v.xof.jointRandSeed(9, parts.wr0, public.wrParts.1);
    var vf0 := v.xof.jointRandSeed(6, parts.vf0, public.vfParts.1);
    var wr1 := v.xof.jointRandSeed(9, public.wrParts.0, parts.wr1);
    var vf1 := v.xof.jointRandSeed(6, public.vfParts.0, parts.vf1);
    LeaderStarts(v, verifyKey, nonce, public, in0, in1, wr0, vf0);
    HelperStarts(v, verifyKey, nonce, public, in0, in1, wr1, vf1);
    var f0, f1 := FlpInput(v, in0.meas, wr0), FlpInput(v, m1, wr1);
    var r0 := Verifiers(v, verifyKey, nonce, f0, in0.proofs, JointRands(v, vf0));
    var r1 := Verifiers(v, verifyKey, nonce, f1, pfs1, JointRands(v, vf1));
    ConcludeExact(v, parts, in0.meas[..d], m1[..d], wr0, vf0, wr1, vf1, r0, r1);
    if Confirmed(v, parts, public) {
      VerifiersExact(v, verifyKey, nonce, f0, f1, in0.proofs, pfs1, JointRands(v, vf0));
    }
  }

  /** Two pairs of parts with one seed. */
  ghost predicate Collide(v: Vdaf, usage: int, x: (Seed, Seed), y: (Seed, Seed)) {
    x != y && v.xof.jointRandSeed(usage, x.0, x.1) == v.xof.jointRandSeed(usage, y.0, y.1)
  }

  /** A client that announces the true parts is confirmed; one that announces others only with a collision. */
  lemma AnnouncedPartsBind(v: Vdaf, parts: Parts, public: PublicShare)
    ensures public == PublicShare((parts.wr0, parts.wr1), (parts.vf0, parts.vf1)) ==> Confirmed(v, parts, public)
    ensures Confirmed(v, parts, public) && public != PublicShare((parts.wr0, parts.wr1), (parts.vf0, parts.vf1)) ==>
              || Collide(v, 9, (parts.wr0, public.wrParts.1), (parts.wr0, parts.wr1))
              || Collide(v, 9, (public.wrParts.0, parts.wr1), (parts.wr0, parts.wr1))
              || Collide(v, 6, (parts.vf0, public.vfParts.1), (parts.vf0, parts.vf1))
              || Collide(v, 6, (public.vfParts.0, parts.vf1), (parts.vf0, parts.vf1))
  {
    if public.wrParts == (parts.wr0, parts.wr1) && public.vfParts == (parts.vf0, parts.vf1) {
      assert public == PublicShare((parts.wr0, parts.wr1), (parts.vf0, parts.vf1));
    }
  }

  // ---- Sharding

  /** Proof `i` of `n` is the prover's with slice `i` of its own and of the joint randomness. */
  ghost predicate ProvedAt(flp: Flp, m: seq<int>, proofs: seq<int>, prs: seq<int>, jrs: seq<int>, n: nat, i: nat)
    requires |proofs| == Times(n, flp.proofLen) && i < n
    requires |prs| == Times(n, flp.proveRandLen) && |jrs| == Times(n, flp.jointRandLen)
  {
    SliceFits(n, flp.proofLen, i);
    SliceFits(n, flp.proveRandLen, i);
    SliceFits(n, flp.jointRandLen, i);
    SliceAt(proofs, 0, flp.proofLen, i)
    == flp.prove(m, SliceAt(prs, 0, flp.proveRandLen, i), SliceAt(jrs, 0, flp.jointRandLen, i))
  }

  lemma {:induction false} ProveAllAt(flp: Flp, m: seq<int>, prs: seq<int>, jrs: seq<int>, n: nat, i: nat)
    requires ProofSized(flp) && |m| == flp.inputLen && i < n
    requires |prs| == Times(n, flp.proveRandLen) && |jrs| == Times(n, flp.jointRandLen)
    ensures |ProveAll(flp, m, prs, jrs, n)| == Times(n, flp.proofLen)
    ensures ProvedAt(flp, m, ProveAll(flp, m, prs, jrs, n), prs, jrs, n, i)
  {
    var a, b, c := flp.proofLen, flp.proveRandLen, flp.jointRandLen;
    var proofs := ProveAll(flp, m, prs, jrs, n);
    ProveAllLen(flp, m, prs, jrs, n);
    ProveSplit(flp, m, prs, jrs, n);
    if i == 0 {
      ProvedFirst(flp, m, proofs, prs, jrs, n);
    } else {
      ProveAllAt(flp, m, prs[b..], jrs[c..], n - 1, i - 1);
      ProvedNext(flp, m, proofs, prs, jrs, n, i - 1);
    }
  }

  lemma {:induction false} ProveSplit(flp: Flp, m: seq<int>, prs: seq<int>, jrs: seq<int>, n: nat)
    requires ProofSized(flp) && |m| == flp.inputLen && n > 0
    requires |prs| == Times(n, flp.proveRandLen) && |jrs| == Times(n, flp.jointRandLen)
    ensures var (a, b, c) := (flp.proofLen, flp.proveRandLen, flp.jointRandLen);
            var proofs := ProveAll(flp, m, prs, jrs, n);
            && a <= |proofs| && proofs[..a] == flp.prove(m, prs[..b], jrs[..c])
            && proofs[a..] == ProveAll(flp, m, prs[b..], jrs[c..], n - 1)
  {
    var b, c := flp.proveRandLen, flp.jointRandLen;
    assert ProverSized(flp, m, prs[..b], jrs[..c]);
    assert |flp.prove(m, prs[..b], jrs[..c])| == flp.proofLen;
  }

  lemma {:induction false} ProvedFirst(flp: Flp, m: seq<int>, proofs: seq<int>, prs: seq<int>, jrs: seq<int>, n: nat)
    requires |proofs| == Times(n, flp.proofLen) && n > 0
    requires |prs| == Times(n, flp.proveRandLen) && |jrs| == Times(n, flp.jointRandLen)
    requires proofs[..flp.proofLen] == flp.prove(m, prs[..flp.proveRandLen], jrs[..flp.jointRandLen])
    ensures ProvedAt(flp, m, proofs, prs, jrs, n, 0)
  {
    SliceFirst(proofs, flp.proofLen);
    SliceFirst(prs, flp.proveRandLen);
    SliceFirst(jrs, flp.jointRandLen);
  }

  lemma {:induction false} ProvedNext(flp: Flp, m: seq<int>, proofs: seq<int>, prs: seq<int>, jrs: seq<int>, n: nat,
                                      i: nat)
    requires |proofs| == Times(n, flp.proofLen) && i < n - 1
    requires |prs| == Times(n, flp.proveRandLen) && |jrs| == Times(n, flp.jointRandLen)
    requires var (a, b, c) := (flp.proofLen, flp.proveRandLen, flp.jointRandLen);
             && |proofs[a..]| == Times(n - 1, a) && |prs[b..]| == Times(n - 1, b) && |jrs[c..]| == Times(n - 1, c)
             && ProvedAt(flp, m, proofs[a..], prs[b..], jrs[c..], n - 1, i)
    ensures ProvedAt(flp, m, proofs, prs, jrs, n, i + 1)
  {
    SliceFits(n, flp.proofLen, i + 1);
    SliceFits(n, flp.proveRandLen, i + 1);
    SliceFits(n, flp.jointRandLen, i + 1);
    SliceNext(proofs, flp.proofLen, i);
    SliceNext(prs, flp.proveRandLen, i);
    SliceNext(jrs, flp.jointRandLen, i);
  }

  /** All proofs of both circuits are made on `m`, each with its own randomness, those of norm equality first. */
  ghost predicate Proved(v: Vdaf, m: seq<int>, proofs: seq<int>, proveSeed: Seed, jrs: seq<int>)
    requires Shaped(v) && |proofs| == ProofsLen(v) && |jrs| == Times(v.pine.numProofs, 3)
  {
    var (prs, k, l) := (v.xof.proveRands(proveSeed), SqProveRandsLen(v), SqProofsLen(v));
    TimesIsProduct(v.pine.numProofsSqNormEqual, 0);
    && (forall i: nat | i < v.pine.numProofsSqNormEqual ::
          ProvedAt(v.flpSq, m, proofs[..l], prs[..k], [], v.pine.numProofsSqNormEqual, i))
    && (forall i: nat | i < v.pine.numProofs :: ProvedAt(v.flp, m, proofs[l..], prs[k..], jrs, v.pine.numProofs, i))
  }

  lemma ProofsExact(v: Vdaf, m: seq<int>, proveSeed: Seed, jrs: seq<int>)
    requires Shaped(v) && |m| == v.flp.inputLen && |jrs| == Times(v.pine.numProofs, 3)
    ensures Proved(v, m, Proofs(v, m, proveSeed, jrs), proveSeed, jrs)
  {
    var prs, k, l := v.xof.proveRands(proveSeed), SqProveRandsLen(v), SqProofsLen(v);
    var n, n' := v.pine.numProofsSqNormEqual, v.pine.numProofs;
    TimesIsProduct(n, 0);
    var first, second := ProveAll(v.flpSq, m, prs[..k], [], n), ProveAll(v.flp, m, prs[k..], jrs, n');
    ProveAllLen(v.flpSq, m, prs[..k], [], n);
    ProveAllLen(v.flp, m, prs[k..], jrs, n');
    assert (first + second)[..l] == first && (first + second)[l..] == second;
    forall i: nat | i < n ensures ProvedAt(v.flpSq, m, first, prs[..k], [], n, i) {
      ProveAllAt(v.flpSq, m, prs[..k], [], n, i);
    }
    forall i: nat | i < n' ensures ProvedAt(v.flp, m, second, prs[k..], jrs, n', i) {
      ProveAllAt(v.flp, m, prs[k..], jrs, n', i);
    }
  }

  /**
  What the client sends: each aggregator gets its own seeds and blinds; the two measurement shares add
  up to the encoded measurement, tested with the seed that follows from the shares; the two proof
  shares add up to its proofs, with joint randomness that follows from the shares; and the public
  share announces the true parts.
  */
  lemma ShardExact(v: Vdaf, xs: seq<int>, nonce: Nonce, rand: ShardRand)
    returns (meas: seq<int>, results: seq<int>, proofs: seq<int>)
    requires Shaped(v) && ShardWithRand(v, xs, nonce, rand).Ok?
    ensures var (public, in0, in1) := ShardWithRand(v, xs, nonce, rand).value;
            && in1 == HelperShare(rand.measShareSeed1, rand.proofsShareSeed1, rand.wrBlind1, rand.vfBlind1)
            && in0.LeaderShare? && InputShaped(v, in0)
            && in0.wrBlind == rand.wrBlind0 && in0.vfBlind == rand.vfBlind0
            && var parts := OwnParts(v, nonce, in0, in1);
               && public == PublicShare((parts.wr0, parts.wr1), (parts.vf0, parts.vf1))
               && EncodeWithWrJointRand(v.p, v.intMax, v.pine.flp, xs, v.xof.wrRand(WrSeed(v, parts)))
                  == Ok((meas, results))
               && SharesOf(v.p, in0.meas, HelperMeas(v, in1.measSeed), meas)
               && |proofs| == ProofsLen(v)
               && Proved(v, meas + results, proofs, rand.proveSeed, v.xof.vfJointRands(VfSeed(v, parts)))
               && SharesOf(v.p, in0.proofs, HelperProofs(v, in1.proofsSeed), proofs)
  {
    var (public, in0, in1) := ShardWithRand(v, xs, nonce, rand).value;
    var c := ClientEncode(v, xs, nonce, rand).value;
    meas, results := c.head + c.bits, c.results;
    ClientParts(v, xs, nonce, rand);
    ClientShares(v, xs, nonce, rand);
    assert c.meas1 == HelperMeas(v, in1.measSeed) && in0.meas == c.meas0;
    var parts := OwnParts(v, nonce, in0, in1);
    assert public.wrParts == (parts.wr0, parts.wr1) && public.vfParts == (parts.vf0, parts.vf1);
    var jrs := JointRands(v, VfSeed(v, parts));
    proofs := Proofs(v, meas + results, rand.proveSeed, jrs);
    ProofsExact(v, meas + results, rand.proveSeed, jrs);
    SubVecShares(v.p, proofs, HelperProofs(v, in1.proofsSeed));
  }
}
