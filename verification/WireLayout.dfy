/**
The wire formats spelled out: the order and width of the fields of a task configuration and of both
messages of an aggregation job, and the codes of their variants.
*/
module WireLayout {
  import opened Bytes
  import opened Buckets
  import opened HelperJob
  import opened PineParams
  import opened TaskprovCodec
  import opened JobCodec
  import opened PineCodec

  // ---- Codes

  lemma {:induction false} Enc1(a: Byte)
    ensures EncUint(1, a) == [a]
  {
    assert EncUint(0, a / 256) == [];
  }

  lemma {:induction false} Enc2(a: Byte, b: Byte)
    ensures EncUint(2, 256 * a as nat + b) == [a, b]
  {
    Enc1(a);
    LowByte(b, a);
  }

  lemma {:induction false} Enc3(a: Byte, b: Byte, c: Byte)
    ensures EncUint(3, 65536 * a as nat + 256 * b as nat + c) == [a, b, c]
  {
    Enc2(a, b);
    LowByte(c, 256 * a as nat + b);
  }

  lemma {:induction false} Enc4(a: Byte, b: Byte, c: Byte, d: Byte)
    ensures EncUint(4, 16777216 * a as nat + 65536 * b as nat + 256 * c as nat + d) == [a, b, c, d]
  {
    Enc3(a, b, c);
    LowByte(d, 65536 * a as nat + 256 * b as nat + c);
  }

  /** The failures in the order of their codes. */
  const FAILURES: seq<TransitionFailure> := [
    BatchCollected, ReportReplayed, ReportDropped, HpkeUnknownConfigId, HpkeDecryptError, VdafPrepError,
    BatchSaturated, TaskExpired, InvalidMessage, ReportTooEarly]

  lemma FailureBytes(k: Byte)
    requires k < 10
    ensures EncTransitionVar(Failed(FAILURES[k])) == [2, k]
  {
    Enc1(2);
    Enc1(k);
  }

  lemma {:induction false} ContinuedBytes(message: seq<Byte>)
    ensures EncTransitionVar(Continued(message)) == [0] + (EncUint(4, |message|) + message)
  {
    Enc1(0);
  }

  lemma PartBytes(part: PartialBatchSelector)
    ensures EncPart(part) == match part
                             case PartTimeInterval => [1]
                             case PartBatchId(batchId) => [2] + batchId
  {
    Enc1(1);
    Enc1(2);
  }

  /** The type codes of the VDAFs. */
  function VdafCode(v: VdafTypeVar): seq<Byte>
    requires !v.VdafNotImplemented?
  {
    match v
    case Prio2(_) => [255, 255, 0, 0]
    case Prio3SumVecMultiproof(_, _, _, _) => [255, 255, 16, 3]
    case Pine64(_) => [255, 255, 16, 4]
    case Pine32(_) => [255, 255, 16, 5]
  }

  lemma VdafBytes(v: VdafTypeVar)
    requires !v.VdafNotImplemented?
    ensures EncVar(v) == VdafCode(v) + VarBody(v)
  {
    VarSplit(v);
    match v
    case Prio2(_) => Enc4(255, 255, 0, 0);
    case Prio3SumVecMultiproof(_, _, _, _) => Enc4(255, 255, 16, 3);
    case Pine64(_) => Enc4(255, 255, 16, 4);
    case Pine32(_) => Enc4(255, 255, 16, 5);
  }

  lemma QueryTypes(v: QueryVar)
    ensures QueryCode(v) == match v
                            case TimeIntervalVar => 1
                            case FixedSizeVar(_) => 2
                            case QueryNotImplemented(typ, _) => typ
  {
  }

  // ---- Task configuration

  lemma {:induction false} EncFour(ws: seq<nat>, ns: seq<nat>)
    requires |ws| == |ns| >= 4
    ensures EncUints(ws, ns) == EncUint(ws[0], ns[0]) + (EncUint(ws[1], ns[1]) + (EncUint(ws[2], ns[2])
                                + (EncUint(ws[3], ns[3]) + EncUints(ws[4..], ns[4..]))))
  {
    assert ws[1..][1..] == ws[2..] && ws[2..][1..] == ws[3..] && ws[3..][1..] == ws[4..];
    assert ns[1..][1..] == ns[2..] && ns[2..][1..] == ns[3..] && ns[3..][1..] == ns[4..];
    assert EncUints(ws[3..], ns[3..]) == EncUint(ws[3], ns[3]) + EncUints(ws[4..], ns[4..]);
    assert EncUints(ws[2..], ns[2..]) == EncUint(ws[2], ns[2]) + EncUints(ws[3..], ns[3..]);
    assert EncUints(ws[1..], ns[1..]) == EncUint(ws[1], ns[1]) + EncUints(ws[2..], ns[2..]);
  }

  /** The parameters of PINE in order. */
  lemma PineLayout(p: PineParam)
    ensures EncPine(p) == EncUint(8, p.normBound) + (EncUint(4, p.fracBits) + (EncUint(4, p.dimension)
                          + (EncUint(4, p.chunkLen) + (EncUint(4, p.chunkLenSqNormEqual)
                          + (EncUint(1, p.numProofs) + (EncUint(1, p.numProofsSqNormEqual)
                          + (EncUint(2, p.numWrTests) + (EncUint(2, p.numWrSuccesses) + []))))))))
  {
    var ws, ns := PINE_WIDTHS, PineFields(p);
    EncFour(ws, ns);
    EncFour(ws[4..], ns[4..]);
    assert ws[4..][4..] == [2] && ns[4..][4..] == [p.numWrSuccesses];
    assert [2][1..] == [] && [p.numWrSuccesses][1..] == [];
  }

  lemma QueryLayout(q: TaskprovCodec.QueryConfig)
    ensures EncQuery(q) == EncUint(8, q.timePrecision) + (EncUint(2, q.maxBatchQueryCount)
                           + (EncUint(4, q.minBatchSize) + (EncUint(1, QueryCode(q.variant)) + [])))
                           + QueryBody(q.variant)
  {
    var ws, ns := QUERY_WIDTHS, QueryHead(q);
    EncFour(ws, ns);
    assert ws[4..] == [] && ns[4..] == [];
  }

  /**
  A task configuration is decoded from: its information after a one-byte length, the two addresses
  after two-byte lengths, the query configuration as a block, the expiration in eight bytes, and the
  VDAF configuration as a block.
  */
  lemma TaskLayout(t: TaskprovCodec.TaskConfig)
    requires FitsTask(t) && NoReuse(t)
    ensures var (query, vdaf) := (EncQuery(t.query), EncVdaf(t.vdaf));
            DecTask(EncUint(1, |t.taskInfo|) + t.taskInfo + EncUint(2, |t.leaderUrl|) + t.leaderUrl
                    + EncUint(2, |t.helperUrl|) + t.helperUrl + EncUint(2, |query|) + query
                    + EncUint(8, t.expiration) + EncUint(2, |vdaf|) + vdaf) == Got(t, [])
  {
    var query, vdaf := EncQuery(t.query), EncVdaf(t.vdaf);
    Ungroup(EncUint(1, |t.taskInfo|), t.taskInfo, EncUint(2, |t.leaderUrl|), t.leaderUrl,
            EncUint(2, |t.helperUrl|), t.helperUrl);
    Ungroup2(EncPrefixed(1, t.taskInfo) + EncPrefixed(2, t.leaderUrl) + EncPrefixed(2, t.helperUrl),
             EncUint(2, |query|), query, EncUint(8, t.expiration), EncUint(2, |vdaf|), vdaf);
    assert EncTask(t) + [] == EncTask(t);
    TaskExact(EncTask(t), t, []);
  }

  lemma Ungroup(a: seq<Byte>, x: seq<Byte>, b: seq<Byte>, y: seq<Byte>, c: seq<Byte>, z: seq<Byte>)
    ensures (a + x) + (b + y) + (c + z) == a + x + b + y + c + z
  {
  }

  lemma Ungroup2(head: seq<Byte>, a: seq<Byte>, x: seq<Byte>, m: seq<Byte>, b: seq<Byte>, y: seq<Byte>)
    ensures head + (a + x) + m + (b + y) == head + a + x + m + b + y
  {
  }

  // ---- Input shares

  lemma {:induction false} Prio3Layout(length: nat, bits: nat, chunkLength: nat, numProofs: nat)
    ensures VarBody(Prio3SumVecMultiproof(length, bits, chunkLength, numProofs))
         == EncUint(4, length) + (EncUint(1, bits) + (EncUint(4, chunkLength) + (EncUint(1, numProofs) + [])))
  {
    var ws, ns := [4, 1, 4, 1], [length, bits, chunkLength, numProofs];
    EncFour(ws, ns);
    assert ws[4..] == [] && ns[4..] == [];
  }

  /** An input share is the vectors or seeds of measurement and proofs, then the two blinds. */
  lemma {:induction false} ShareLayout(f: Format, x: InputShare)
    ensures x.LeaderShare? ==> EncInputShare(f, x) == PineCodec.EncElems(f, x.meas) + (PineCodec.EncElems(f, x.proofs)
                                                      + (x.wrBlind + x.vfBlind))
    ensures x.HelperShare? ==> EncInputShare(f, x) == x.measSeed + (x.proofsSeed + (x.wrBlind + x.vfBlind))
  {
    SeedPair(x.wrBlind, x.vfBlind);
    if x.HelperShare? {
      var a, b, c, d := x.measSeed, x.proofsSeed, x.wrBlind, x.vfBlind;
      assert [a, b, c, d][1..] == [b, c, d] && [b, c, d][1..] == [c, d];
      assert EncSeeds([b, c, d]) == b + EncSeeds([c, d]);
      assert EncSeeds([a, b, c, d]) == a + EncSeeds([b, c, d]);
    }
  }

  lemma SeedPair(c: seq<Byte>, d: seq<Byte>)
    ensures EncSeeds([c, d]) == c + d
  {
    assert [c, d][1..] == [d] && [d][1..] == [];
    assert EncSeeds([d]) == d + [];
  }

  /** Element `i` of a vector, in as many bytes as an element has, least significant first. */
  lemma {:induction false} ElemLayout(f: Format, ns: seq<nat>, i: nat)
    requires i < |ns|
    ensures i * f.width + f.width <= |PineCodec.EncElems(f, ns)| == |ns| * f.width
    ensures PineCodec.EncElems(f, ns)[i * f.width..i * f.width + f.width] == EncUintLe(f.width, ns[i])
  {
    var n, w := |ns| - 1, f.width;
    var init := PineCodec.EncElems(f, ns[..n]);
    assert PineCodec.EncElems(f, ns) == init + EncUintLe(w, ns[n]);
    ElemsSize(f, ns[..n]);
    NextProduct(n, w);
    if i < n {
      ElemLayout(f, ns[..n], i);
      assert (init + EncUintLe(w, ns[n]))[i * w..i * w + w] == init[i * w..i * w + w];
    } else {
      assert i * w == |init|;
      assert (init + EncUintLe(w, ns[n]))[|init|..|init| + w] == EncUintLe(w, ns[n]);
    }
  }

  lemma {:induction false} ElemsSize(f: Format, ns: seq<nat>)
    ensures |PineCodec.EncElems(f, ns)| == |ns| * f.width
  {
    if ns != [] {
      ElemsSize(f, ns[..|ns| - 1]);
      NextProduct(|ns| - 1, f.width);
    }
  }

  lemma NextProduct(n: nat, w: nat)
    ensures (n + 1) * w == n * w + w
  {
  }

  // ---- Aggregation jobs

  /** A report of a request: its ID and time, the public share, and the encrypted share, all but the ID prefixed. */
  lemma ReportLayout(p: PrepareInit)
    requires FitsPrepareInit(p)
    ensures var (r, h) := (p.reportShare, p.reportShare.inputShare);
            DecPrepareInit(r.id + (EncUint(8, r.time) + ((EncUint(4, |r.publicShare|) + r.publicShare)
                           + (EncUint(1, h.configId) + ((EncUint(2, |h.enc|) + h.enc)
                                                        + (EncUint(4, |h.payload|) + h.payload)))))
                           + (EncUint(4, |p.payload|) + p.payload)) == Got(p, [])
  {
    var bytes := EncPrepareInit(p);
    assert bytes + [] == bytes;
    PrepareInitExact(bytes, p, []);
  }

  /** A request is decoded from the aggregation parameter, the partial batch selector and the list of reports. */
  lemma RequestLayout(r: AggregationJobInitReq)
    requires FitsReq(r)
    ensures var items := EncItems(PrepareInitCodec(), r.prepInits);
            DecReq((EncUint(4, |r.aggParam|) + r.aggParam) + (EncPart(r.part) + (EncUint(4, |items|) + items)))
            == Got(r, [])
  {
    assert EncReq(r) + [] == EncReq(r);
    AggregationJobInitReqExact(EncReq(r), r, []);
  }
}
