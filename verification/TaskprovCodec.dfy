/**
Wire format of the taskprov task configuration: three nested length prefixes, and variants of
unknown type that take up the remainder of the enclosing block. The decoder accepts exactly the
encodings of configurations whose unknown variants do not reuse a known type code.
*/
module TaskprovCodec {
  import opened Sequences
  import opened Bytes
  import opened PineParams

  const QUERY_TYPE_TIME_INTERVAL: Byte := 0x01
  const QUERY_TYPE_FIXED_SIZE: Byte := 0x02
  const DP_MECHANISM_NONE: Byte := 0x01
  const VDAF_TYPE_PRIO2: nat := 0xFFFF_0000
  const VDAF_TYPE_PRIO3: nat := 0xFFFF_1003
  const VDAF_TYPE_PINE64: nat := 0xFFFF_1004
  const VDAF_TYPE_PINE32: nat := 0xFFFF_1005

  datatype DpConfig = DpNone | DpNotImplemented(typ: nat, param: seq<Byte>)

  datatype VdafTypeVar =
    | Prio2(dimension: nat)
    | Prio3SumVecMultiproof(length: nat, bits: nat, chunkLength: nat, numProofs: nat)
    | Pine32(param32: PineParam)
    | Pine64(param64: PineParam)
    | VdafNotImplemented(typ: nat, param: seq<Byte>)

  datatype VdafConfig = VdafConfig(dp: DpConfig, variant: VdafTypeVar)

  datatype QueryVar = TimeIntervalVar | FixedSizeVar(maxBatchSize: nat) | QueryNotImplemented(typ: nat,
                                                                                              param: seq<Byte>)

  datatype QueryConfig = QueryConfig(timePrecision: nat, maxBatchQueryCount: nat, minBatchSize: nat, variant: QueryVar)

  datatype TaskConfig = TaskConfig(
    taskInfo: seq<Byte>,
    leaderUrl: seq<Byte>,
    helperUrl: seq<Byte>,
    query: QueryConfig,
    expiration: nat,
    vdaf: VdafConfig)

  // ---- Blocks with a two-byte length

  /** Open a block. The end of the block is not compared with the end of the input. */
  function DecBlock(s: seq<Byte>): Decoded<seq<Byte>> {
    var (len, rest) :- DecUint(2, s);
    if |rest| < len then Panic else Got(rest[..len], rest[len..])
  }

  /** Close a block: nothing may be left over. */
  function Whole<T>(d: Decoded<T>): Decoded<T> {
    if d.Got? && d.rest != [] then Malformed else d
  }

  lemma BlockExact(s: seq<Byte>, x: seq<Byte>, rest: seq<Byte>)
    ensures DecBlock(s) == Got(x, rest) <==> |x| < Pow256(2) && s == EncPrefixed(2, x) + rest
  {
    PrefixedExact(2, s, x, rest);
  }

  // ---- PINE parameters

  const PINE_WIDTHS: seq<nat> := [8, 4, 4, 4, 4, 1, 1, 2, 2]

  function PineFields(p: PineParam): seq<nat> {
    [p.normBound, p.fracBits, p.dimension, p.chunkLen, p.chunkLenSqNormEqual, p.numProofs, p.numProofsSqNormEqual,
     p.numWrTests, p.numWrSuccesses]
  }

  function PineOf(ns: seq<nat>): PineParam
    requires |ns| == 9
  {
    PineParam(ns[0], ns[2], ns[1], ns[3], ns[4], ns[5], ns[6], ns[7], ns[8])
  }

  function DecPine(s: seq<Byte>): Decoded<PineParam> {
    var (ns, rest) :- DecUints(PINE_WIDTHS, s);
    if |ns| != 9 then Malformed else Got(PineOf(ns), rest)
  }

  ghost predicate FitsPine(p: PineParam) {
    FitUints(PINE_WIDTHS, PineFields(p))
  }

  function EncPine(p: PineParam): seq<Byte> {
    EncUints(PINE_WIDTHS, PineFields(p))
  }

  lemma PineExact(s: seq<Byte>, p: PineParam, rest: seq<Byte>)
    ensures DecPine(s) == Got(p, rest) <==> FitsPine(p) && s == EncPine(p) + rest
  {
    UintsExact(PINE_WIDTHS, s, PineFields(p), rest);
    match DecUints(PINE_WIDTHS, s)
    case Got(ns, after) =>
      UintsExact(PINE_WIDTHS, s, ns, after);
      assert ns == PineFields(PineOf(ns));
    case _ =>
  }

  // ---- Differential privacy

  ghost predicate FitsDp(d: DpConfig) {
    d.DpNotImplemented? ==> d.typ < Pow256(1)
  }

  ghost predicate NoReuseDp(d: DpConfig) {
    d.DpNotImplemented? ==> d.typ != DP_MECHANISM_NONE
  }

  function EncDp(d: DpConfig): seq<Byte> {
    match d
    case DpNone => EncUint(1, DP_MECHANISM_NONE)
    case DpNotImplemented(typ, param) => EncUint(1, typ) + param
  }

  function DecDp(s: seq<Byte>): Decoded<DpConfig> {
    var (typ, rest) :- DecUint(1, s);
    if typ == DP_MECHANISM_NONE then Got(DpNone, rest)
    else
      var (param, rest) :- DecExact(|s| - 1, rest);
      Got(DpNotImplemented(typ, param), rest)
  }

  lemma DpExact(s: seq<Byte>, d: DpConfig)
    ensures DecDp(s) == Got(d, []) <==> FitsDp(d) && NoReuseDp(d) && s == EncDp(d)
  {
    Widths();
    match d
    case DpNone =>
      UintExact(1, s, DP_MECHANISM_NONE, []);
      assert EncDp(d) + [] == EncDp(d);
    case DpNotImplemented(typ, param) =>
      UintExact(1, s, typ, param);
      if |s| >= 1 {
        ExactExact(|s| - 1, s[1..], param, []);
        assert param + [] == param;
      }
  }

  // ---- VDAF types

  ghost predicate FitsVar(v: VdafTypeVar) {
    match v
    case Prio2(dimension) => dimension < Pow256(4)
    case Prio3SumVecMultiproof(length, bits, chunkLength, numProofs) =>
      FitUints([4, 1, 4, 1], [length, bits, chunkLength, numProofs])
    case Pine32(param) => FitsPine(param)
    case Pine64(param) => FitsPine(param)
    case VdafNotImplemented(typ, _) => typ < Pow256(4)
  }

  ghost predicate NoReuseVar(v: VdafTypeVar) {
    v.VdafNotImplemented? ==> v.typ !in {VDAF_TYPE_PRIO2, VDAF_TYPE_PRIO3, VDAF_TYPE_PINE64, VDAF_TYPE_PINE32}
  }

  function EncVar(v: VdafTypeVar): seq<Byte> {
    match v
    case Prio2(dimension) => EncUint(4, VDAF_TYPE_PRIO2) + EncUint(4, dimension)
    case Prio3SumVecMultiproof(length, bits, chunkLength, numProofs) =>
      EncUint(4, VDAF_TYPE_PRIO3) + EncUints([4, 1, 4, 1], [length, bits, chunkLength, numProofs])
    case Pine32(param) => EncUint(4, VDAF_TYPE_PINE32) + EncPine(param)
    case Pine64(param) => EncUint(4, VDAF_TYPE_PINE64) + EncPine(param)
    case VdafNotImplemented(typ, param) => EncUint(4, typ) + param
  }

  function DecVar(s: seq<Byte>): Decoded<VdafTypeVar> {
    var (typ, rest) :- DecUint(4, s);
    if typ == VDAF_TYPE_PRIO2 then
      var (dimension, rest) :- DecUint(4, rest);
      Got(Prio2(dimension), rest)
    else if typ == VDAF_TYPE_PRIO3 then
      var (ns, rest) :- DecUints([4, 1, 4, 1], rest);
      if |ns| != 4 then Malformed else Got(Prio3SumVecMultiproof(ns[0], ns[1], ns[2], ns[3]), rest)
    else if typ == VDAF_TYPE_PINE32 then
      var (param, rest) :- DecPine(rest);
      Got(Pine32(param), rest)
    else if typ == VDAF_TYPE_PINE64 then
      var (param, rest) :- DecPine(rest);
      Got(Pine64(param), rest)
    else
      var (param, rest) :- DecExact(|s| - 4, rest);
      Got(VdafNotImplemented(typ, param), rest)
  }

  /** The part of a variant after its type code. */
  function VarBody(v: VdafTypeVar): seq<Byte> {
    match v
    case Prio2(dimension) => EncUint(4, dimension)
    case Prio3SumVecMultiproof(length, bits, chunkLength, numProofs) =>
      EncUints([4, 1, 4, 1], [length, bits, chunkLength, numProofs])
    case Pine32(param) => EncPine(param)
    case Pine64(param) => EncPine(param)
    case VdafNotImplemented(_, param) => param
  }

  function VarCode(v: VdafTypeVar): nat {
    match v
    case Prio2(_) => VDAF_TYPE_PRIO2
    case Prio3SumVecMultiproof(_, _, _, _) => VDAF_TYPE_PRIO3
    case Pine32(_) => VDAF_TYPE_PINE32
    case Pine64(_) => VDAF_TYPE_PINE64
    case VdafNotImplemented(typ, _) => typ
  }

  lemma VarSplit(v: VdafTypeVar)
    ensures EncVar(v) == EncUint(4, VarCode(v)) + VarBody(v)
  {
  }

  /** Decoding after the type code. */
  lemma BodyExact(s: seq<Byte>, v: VdafTypeVar, after: seq<Byte>)
    requires DecUint(4, s) == Got(VarCode(v), after) && NoReuseVar(v)
    ensures DecVar(s) == Got(v, []) <==> FitsVar(v) && after == VarBody(v)
  {
    UintExact(4, s, VarCode(v), after);
    assert VarBody(v) + [] == VarBody(v);
    match v
    case Prio2(dimension) => UintExact(4, after, dimension, []);
    case Prio3SumVecMultiproof(length, bits, chunkLength, numProofs) =>
      var ns := [length, bits, chunkLength, numProofs];
      UintsExact([4, 1, 4, 1], after, ns, []);
      match DecUints([4, 1, 4, 1], after) {
        case Got(ns', rest) =>
          UintsExact([4, 1, 4, 1], after, ns', rest);
          assert ns' == [ns'[0], ns'[1], ns'[2], ns'[3]];
        case _ =>
      }
    case Pine32(param) => PineExact(after, param, []);
    case Pine64(param) => PineExact(after, param, []);
    case VdafNotImplemented(_, param) => ExactExact(|s| - 4, after, param, []);
  }

  lemma DecVarCode(s: seq<Byte>, v: VdafTypeVar, rest: seq<Byte>)
    requires DecVar(s) == Got(v, rest)
    ensures DecUint(4, s).Got? && DecUint(4, s).value == VarCode(v) && NoReuseVar(v)
  {
  }

  lemma CodesFit(v: VdafTypeVar)
    requires FitsVar(v)
    ensures VarCode(v) < Pow256(4)
  {
    Widths();
  }

  lemma VarExact(s: seq<Byte>, v: VdafTypeVar)
    ensures DecVar(s) == Got(v, []) <==> FitsVar(v) && NoReuseVar(v) && s == EncVar(v)
  {
    VarSplit(v);
    if DecVar(s) == Got(v, []) {
      DecVarCode(s, v, []);
      UintExact(4, s, VarCode(v), DecUint(4, s).rest);
      BodyExact(s, v, DecUint(4, s).rest);
    }
    if FitsVar(v) && NoReuseVar(v) && s == EncVar(v) {
      CodesFit(v);
      UintExact(4, s, VarCode(v), VarBody(v));
      BodyExact(s, v, VarBody(v));
    }
  }

  // ---- VDAF configuration

  ghost predicate FitsVdaf(v: VdafConfig) {
    FitsDp(v.dp) && |EncDp(v.dp)| < Pow256(2) && FitsVar(v.variant)
  }

  ghost predicate NoReuseVdaf(v: VdafConfig) {
    NoReuseDp(v.dp) && NoReuseVar(v.variant)
  }

  function EncVdaf(v: VdafConfig): seq<Byte> {
    EncPrefixed(2, EncDp(v.dp)) + EncVar(v.variant)
  }

  function DecVdaf(s: seq<Byte>): Decoded<VdafConfig> {
    var (inner, rest) :- DecBlock(s);
    var (dp, _) :- Whole(DecDp(inner));
    var (variant, rest) :- DecVar(rest);
    Got(VdafConfig(dp, variant), rest)
  }

  lemma VdafExact(s: seq<Byte>, v: VdafConfig)
    ensures DecVdaf(s) == Got(v, []) <==> FitsVdaf(v) && NoReuseVdaf(v) && s == EncVdaf(v)
  {
    if DecVdaf(s) == Got(v, []) {
      var inner, rest := DecBlock(s).value, DecBlock(s).rest;
      BlockExact(s, inner, rest);
      DpExact(inner, v.dp);
      VarExact(rest, v.variant);
    }
    if FitsVdaf(v) && NoReuseVdaf(v) && s == EncVdaf(v) {
      BlockExact(s, EncDp(v.dp), EncVar(v.variant));
      DpExact(EncDp(v.dp), v.dp);
      VarExact(EncVar(v.variant), v.variant);
    }
  }

  // ---- Query configuration

  const QUERY_WIDTHS: seq<nat> := [8, 2, 4, 1]

  function QueryCode(v: QueryVar): nat {
    match v
    case TimeIntervalVar => QUERY_TYPE_TIME_INTERVAL
    case FixedSizeVar(_) => QUERY_TYPE_FIXED_SIZE
    case QueryNotImplemented(typ, _) => typ
  }

  function QueryBody(v: QueryVar): seq<Byte> {
    match v
    case TimeIntervalVar => []
    case FixedSizeVar(max) => EncUint(4, max)
    case QueryNotImplemented(_, param) => param
  }

  function QueryHead(q: QueryConfig): seq<nat> {
    [q.timePrecision, q.maxBatchQueryCount, q.minBatchSize, QueryCode(q.variant)]
  }

  ghost predicate FitsQuery(q: QueryConfig) {
    FitUints(QUERY_WIDTHS, QueryHead(q)) && (q.variant.FixedSizeVar? ==> q.variant.maxBatchSize < Pow256(4))
  }

  ghost predicate NoReuseQuery(q: QueryConfig) {
    q.variant.QueryNotImplemented? ==> q.variant.typ !in {QUERY_TYPE_TIME_INTERVAL, QUERY_TYPE_FIXED_SIZE}
  }

  function EncQuery(q: QueryConfig): seq<Byte> {
    EncUints(QUERY_WIDTHS, QueryHead(q)) + QueryBody(q.variant)
  }

  function DecQueryVar(typ: nat, left: nat, s: seq<Byte>): Decoded<QueryVar> {
    if typ == QUERY_TYPE_TIME_INTERVAL then Got(TimeIntervalVar, s)
    else if typ == QUERY_TYPE_FIXED_SIZE then
      var (max, rest) :- DecUint(4, s);
      Got(FixedSizeVar(max), rest)
    else
      var (param, rest) :- DecExact(left, s);
      Got(QueryNotImplemented(typ, param), rest)
  }

  function DecQuery(s: seq<Byte>): Decoded<QueryConfig> {
    var (ns, rest) :- DecUints(QUERY_WIDTHS, s);
    if |ns| != 4 || |s| < 15 then Malformed
    else
      var (variant, rest) :- DecQueryVar(ns[3], |s| - 15, rest);
      Got(QueryConfig(ns[0], ns[1], ns[2], variant), rest)
  }

  lemma {:induction false} UintsLen(ws: seq<nat>, ns: seq<nat>)
    requires |ws| == |ns|
    ensures |EncUints(ws, ns)| == WidthSum(ws)
  {
    if ws != [] {
      UintsLen(ws[1..], ns[1..]);
    }
  }

  ghost function WidthSum(ws: seq<nat>): nat {
    if ws == [] then 0 else ws[0] + WidthSum(ws[1..])
  }

  lemma HeadLen(q: QueryConfig)
    ensures |EncUints(QUERY_WIDTHS, QueryHead(q))| == 15
  {
    UintsLen(QUERY_WIDTHS, QueryHead(q));
    QueryWidth();
  }

  lemma QueryWidth()
    ensures WidthSum(QUERY_WIDTHS) == 15
  {
    assert WidthSum([1]) == 1 && WidthSum([4, 1]) == 5 && WidthSum([2, 4, 1]) == 7;
    assert QUERY_WIDTHS[1..] == [2, 4, 1] && [2, 4, 1][1..] == [4, 1] && [4, 1][1..] == [1] && [1][1..] == [];
  }

  lemma QueryVarExact(q: QueryConfig, left: nat, s: seq<Byte>)
    requires left == |s| && NoReuseQuery(q)
    ensures DecQueryVar(QueryCode(q.variant), left, s) == Got(q.variant, [])
       <==> s == QueryBody(q.variant) && (q.variant.FixedSizeVar? ==> q.variant.maxBatchSize < Pow256(4))
  {
    assert QueryBody(q.variant) + [] == QueryBody(q.variant);
    match q.variant
    case TimeIntervalVar =>
    case FixedSizeVar(max) => UintExact(4, s, max, []);
    case QueryNotImplemented(_, param) => ExactExact(left, s, param, []);
  }

  lemma {:induction false} DecQueryParts(s: seq<Byte>, q: QueryConfig)
    requires DecQuery(s) == Got(q, [])
    ensures NoReuseQuery(q) && FitUints(QUERY_WIDTHS, QueryHead(q))
    ensures var rest := DecUints(QUERY_WIDTHS, s).rest;
            && s == EncUints(QUERY_WIDTHS, QueryHead(q)) + rest
            && |rest| == |s| - 15
            && DecQueryVar(QueryCode(q.variant), |rest|, rest) == Got(q.variant, [])
  {
    var ns, rest := DecUints(QUERY_WIDTHS, s).value, DecUints(QUERY_WIDTHS, s).rest;
    UintsExact(QUERY_WIDTHS, s, ns, rest);
    assert ns == QueryHead(q);
    HeadLen(q);
  }

  lemma QueryExact(s: seq<Byte>, q: QueryConfig)
    ensures DecQuery(s) == Got(q, []) <==> FitsQuery(q) && NoReuseQuery(q) && s == EncQuery(q)
  {
    if DecQuery(s) == Got(q, []) {
      DecQueryParts(s, q);
      var rest := DecUints(QUERY_WIDTHS, s).rest;
      QueryVarExact(q, |rest|, rest);
    }
    if FitsQuery(q) && NoReuseQuery(q) && s == EncQuery(q) {
      var body := QueryBody(q.variant);
      UintsExact(QUERY_WIDTHS, s, QueryHead(q), body);
      HeadLen(q);
      QueryVarExact(q, |body|, body);
    }
  }

  function DecQueryBlock(s: seq<Byte>): Decoded<QueryConfig> {
    var (inner, rest) :- DecBlock(s);
    var (query, _) :- Whole(DecQuery(inner));
    Got(query, rest)
  }

  lemma QueryBlockExact(s: seq<Byte>, q: QueryConfig, rest: seq<Byte>)
    ensures DecQueryBlock(s) == Got(q, rest)
       <==> FitsQuery(q) && |EncQuery(q)| < Pow256(2) && NoReuseQuery(q) && s == EncPrefixed(2, EncQuery(q)) + rest
  {
    BlockExact(s, EncQuery(q), rest);
    QueryExact(EncQuery(q), q);
    if DecQueryBlock(s) == Got(q, rest) {
      QueryExact(DecBlock(s).value, q);
    }
  }

  function DecVdafBlock(s: seq<Byte>): Decoded<VdafConfig> {
    var (inner, rest) :- DecBlock(s);
    var (vdaf, _) :- Whole(DecVdaf(inner));
    Got(vdaf, rest)
  }

  lemma VdafBlockExact(s: seq<Byte>, v: VdafConfig, rest: seq<Byte>)
    ensures DecVdafBlock(s) == Got(v, rest)
       <==> FitsVdaf(v) && |EncVdaf(v)| < Pow256(2) && NoReuseVdaf(v) && s == EncPrefixed(2, EncVdaf(v)) + rest
  {
    BlockExact(s, EncVdaf(v), rest);
    VdafExact(EncVdaf(v), v);
    if DecVdafBlock(s) == Got(v, rest) {
      VdafExact(DecBlock(s).value, v);
    }
  }

  // ---- Task configuration

  ghost predicate FitsTask(t: TaskConfig) {
    && |t.taskInfo| < Pow256(1) && |t.leaderUrl| < Pow256(2) && |t.helperUrl| < Pow256(2)
    && FitsQuery(t.query) && |EncQuery(t.query)| < Pow256(2)
    && t.expiration < Pow256(8)
    && FitsVdaf(t.vdaf) && |EncVdaf(t.vdaf)| < Pow256(2)
  }

  /** No variant of unknown type has the type code of a known one. */
  ghost predicate NoReuse(t: TaskConfig) {
    NoReuseQuery(t.query) && NoReuseVdaf(t.vdaf)
  }

  function EncTask(t: TaskConfig): seq<Byte> {
    EncPrefixed(1, t.taskInfo) + EncPrefixed(2, t.leaderUrl) + EncPrefixed(2, t.helperUrl)
    + EncPrefixed(2, EncQuery(t.query)) + EncUint(8, t.expiration) + EncPrefixed(2, EncVdaf(t.vdaf))
  }

  function DecTask(s: seq<Byte>): Decoded<TaskConfig> {
    var (taskInfo, rest) :- DecPrefixed(1, s);
    var (leaderUrl, rest) :- DecPrefixed(2, rest);
    var (helperUrl, rest) :- DecPrefixed(2, rest);
    var (query, rest) :- DecQueryBlock(rest);
    var (expiration, rest) :- DecUint(8, rest);
    var (vdaf, rest) :- DecVdafBlock(rest);
    Got(TaskConfig(taskInfo, leaderUrl, helperUrl, query, expiration, vdaf), rest)
  }

  /** The tails of an encoded configuration, from the last field backwards. */
  function Tail5(t: TaskConfig, rest: seq<Byte>): seq<Byte> {
    EncPrefixed(2, EncVdaf(t.vdaf)) + rest
  }

  function Tail4(t: TaskConfig, rest: seq<Byte>): seq<Byte> {
    EncUint(8, t.expiration) + Tail5(t, rest)
  }

  function Tail3(t: TaskConfig, rest: seq<Byte>): seq<Byte> {
    EncPrefixed(2, EncQuery(t.query)) + Tail4(t, rest)
  }

  function Tail2(t: TaskConfig, rest: seq<Byte>): seq<Byte> {
    EncPrefixed(2, t.helperUrl) + Tail3(t, rest)
  }

  function Tail1(t: TaskConfig, rest: seq<Byte>): seq<Byte> {
    EncPrefixed(2, t.leaderUrl) + Tail2(t, rest)
  }

  lemma Tails(t: TaskConfig, rest: seq<Byte>)
    ensures EncTask(t) + rest == EncPrefixed(1, t.taskInfo) + Tail1(t, rest)
  {
    var a, b, c, d, e, f := EncPrefixed(1, t.taskInfo), EncPrefixed(2, t.leaderUrl), EncPrefixed(2, t.helperUrl),
                            EncPrefixed(2, EncQuery(t.query)), EncUint(8, t.expiration), EncPrefixed(2,
                                                                                                     EncVdaf(t.vdaf));
    Assoc(a + b + c + d + e, f, rest);
    Assoc(a + b + c + d, e, f + rest);
    Assoc(a + b + c, d, e + (f + rest));
    Assoc(a + b, c, d + (e + (f + rest)));
    Assoc(a, b, c + (d + (e + (f + rest))));
  }

  lemma TaskDecodes(t: TaskConfig, rest: seq<Byte>)
    requires FitsTask(t) && NoReuse(t)
    ensures DecTask(EncTask(t) + rest) == Got(t, rest)
  {
    Tails(t, rest);
    PrefixedExact(1, EncTask(t) + rest, t.taskInfo, Tail1(t, rest));
    PrefixedExact(2, Tail1(t, rest), t.leaderUrl, Tail2(t, rest));
    PrefixedExact(2, Tail2(t, rest), t.helperUrl, Tail3(t, rest));
    QueryBlockExact(Tail3(t, rest), t.query, Tail4(t, rest));
    UintExact(8, Tail4(t, rest), t.expiration, Tail5(t, rest));
    VdafBlockExact(Tail5(t, rest), t.vdaf, rest);
  }

  lemma TaskEncodes(s: seq<Byte>, t: TaskConfig, rest: seq<Byte>)
    requires DecTask(s) == Got(t, rest)
    ensures FitsTask(t) && NoReuse(t) && s == EncTask(t) + rest
  {
    var r1 := DecPrefixed(1, s).rest;
    PrefixedExact(1, s, t.taskInfo, r1);
    var r2 := DecPrefixed(2, r1).rest;
    PrefixedExact(2, r1, t.leaderUrl, r2);
    var r3 := DecPrefixed(2, r2).rest;
    PrefixedExact(2, r2, t.helperUrl, r3);
    var r4 := DecQueryBlock(r3).rest;
    QueryBlockExact(r3, t.query, r4);
    var r5 := DecUint(8, r4).rest;
    UintExact(8, r4, t.expiration, r5);
    VdafBlockExact(r5, t.vdaf, rest);
    Tails(t, rest);
  }

  /**
  The decoder accepts exactly the encodings: it returns a configuration and a remainder if and
  only if the input is the encoding of that configuration followed by that remainder, its
  lengths fit their prefixes and no unknown variant reuses a known type code.
  */
  lemma TaskExact(s: seq<Byte>, t: TaskConfig, rest: seq<Byte>)
    ensures DecTask(s) == Got(t, rest) <==> FitsTask(t) && NoReuse(t) && s == EncTask(t) + rest
  {
    if DecTask(s) == Got(t, rest) {
      TaskEncodes(s, t, rest);
    }
    if FitsTask(t) && NoReuse(t) && s == EncTask(t) + rest {
      TaskDecodes(t, rest);
    }
  }

  /** For a configuration that can be encoded, the round trip holds exactly without reuse of type codes. */
  lemma TaskRoundTrip(t: TaskConfig, rest: seq<Byte>)
    requires FitsTask(t)
    ensures DecTask(EncTask(t) + rest) == Got(t, rest) <==> NoReuse(t)
  {
    TaskExact(EncTask(t) + rest, t, rest);
  }

  /** Different configurations have different encodings, none a prefix of another. */
  lemma TaskInjective(t: TaskConfig, u: TaskConfig, x: seq<Byte>, y: seq<Byte>)
    requires FitsTask(t) && NoReuse(t) && FitsTask(u) && NoReuse(u) && EncTask(t) + x == EncTask(u) + y
    ensures t == u && x == y
  {
    TaskExact(EncTask(t) + x, t, x);
    TaskExact(EncTask(u) + y, u, y);
  }
}
