/**
Wire format of the aggregation job messages: the Leader's request with its reports and the
Helper's response with its transitions. Both decoders accept exactly the encodings.
*/
module JobCodec {
  import opened Wrappers
  import opened Sequences
  import opened Bytes
  import opened AggShare
  import opened Buckets
  import opened HelperJob

  // ---- Lists of items after their length

  /** A codec of one kind of item. */
  datatype Codec<!T(!new)> = Codec(enc: T -> seq<Byte>, fits: T -> bool, dec: seq<Byte> -> Decoded<T>)

  ghost predicate ExactAt<T(!new)>(c: Codec<T>, s: seq<Byte>, x: T, rest: seq<Byte>) {
    c.dec(s) == Got(x, rest) <==> c.fits(x) && s == c.enc(x) + rest
  }

  /** The decoder accepts exactly the encodings, and these are not empty. */
  ghost predicate Exact<T(!new)>(c: Codec<T>) {
    && (forall s, x, rest :: ExactAt(c, s, x, rest))
    && forall x | c.fits(x) :: c.enc(x) != []
  }

  ghost function EncItems<T(!new)>(c: Codec<T>, xs: seq<T>): seq<Byte> {
    if xs == [] then [] else c.enc(xs[0]) + EncItems(c, xs[1..])
  }

  /** Decode items until nothing is left. */
  ghost function DecItems<T(!new)>(c: Codec<T>, s: seq<Byte>): Decoded<seq<T>>
    decreases |s|
  {
    if s == [] then Got([], [])
    else
      var d := c.dec(s);
      if d.IsFailure() then d.PropagateFailure()
      else if |d.rest| >= |s| then Malformed
      else
        var tail := DecItems(c, d.rest);
        if tail.IsFailure() then tail.PropagateFailure() else Got([d.value] + tail.value, [])
  }

  ghost predicate FitItems<T(!new)>(c: Codec<T>, xs: seq<T>) {
    forall i | 0 <= i < |xs| :: c.fits(xs[i])
  }

  lemma {:induction false} ItemsExact<T(!new)>(c: Codec<T>, s: seq<Byte>, xs: seq<T>)
    requires Exact(c)
    ensures DecItems(c, s) == Got(xs, []) <==> FitItems(c, xs) && s == EncItems(c, xs)
    decreases |s|
  {
    if DecItems(c, s) == Got(xs, []) && s != [] {
      var d := c.dec(s);
      assert ExactAt(c, s, d.value, d.rest);
      ItemsExact(c, d.rest, xs[1..]);
      assert xs == [xs[0]] + xs[1..];
      assert forall i | 1 <= i < |xs| :: xs[i] == xs[1..][i - 1];
    }
    if FitItems(c, xs) && s == EncItems(c, xs) && xs != [] {
      var rest := EncItems(c, xs[1..]);
      assert ExactAt(c, s, xs[0], rest);
      assert c.enc(xs[0]) != [];
      ItemsExact(c, rest, xs[1..]);
      assert xs == [xs[0]] + xs[1..];
    }
  }

  ghost function EncList<T(!new)>(c: Codec<T>, xs: seq<T>): seq<Byte> {
    EncPrefixed(4, EncItems(c, xs))
  }

  ghost function DecList<T(!new)>(c: Codec<T>, s: seq<Byte>): Decoded<seq<T>> {
    var (block, rest) :- DecPrefixed(4, s);
    var (xs, _) :- DecItems(c, block);
    Got(xs, rest)
  }

  ghost predicate FitList<T(!new)>(c: Codec<T>, xs: seq<T>) {
    FitItems(c, xs) && |EncItems(c, xs)| < Pow256(4)
  }

  lemma {:induction false} ItemsEnd<T(!new)>(c: Codec<T>, s: seq<Byte>)
    ensures DecItems(c, s).Got? ==> DecItems(c, s).rest == []
  {
  }

  lemma ListExact<T(!new)>(c: Codec<T>, s: seq<Byte>, xs: seq<T>, rest: seq<Byte>)
    requires Exact(c)
    ensures DecList(c, s) == Got(xs, rest) <==> FitList(c, xs) && s == EncList(c, xs) + rest
  {
    PrefixedExact(4, s, EncItems(c, xs), rest);
    ItemsExact(c, EncItems(c, xs), xs);
    if DecList(c, s) == Got(xs, rest) {
      var block := DecPrefixed(4, s).value;
      ItemsEnd(c, block);
      ItemsExact(c, block, xs);
    }
  }

  // ---- Transitions

  function FailureCode(f: TransitionFailure): Byte {
    match f
    case BatchCollected => 0
    case ReportReplayed => 1
    case ReportDropped => 2
    case HpkeUnknownConfigId => 3
    case HpkeDecryptError => 4
    case VdafPrepError => 5
    case BatchSaturated => 6
    case TaskExpired => 7
    case InvalidMessage => 8
    case ReportTooEarly => 9
  }

  function FailureOf(code: nat): Option<TransitionFailure> {
    if code == 0 then Some(BatchCollected)
    else if code == 1 then Some(ReportReplayed)
    else if code == 2 then Some(ReportDropped)
    else if code == 3 then Some(HpkeUnknownConfigId)
    else if code == 4 then Some(HpkeDecryptError)
    else if code == 5 then Some(VdafPrepError)
    else if code == 6 then Some(BatchSaturated)
    else if code == 7 then Some(TaskExpired)
    else if code == 8 then Some(InvalidMessage)
    else if code == 9 then Some(ReportTooEarly)
    else None
  }

  lemma FailureExact(code: nat, f: TransitionFailure)
    ensures FailureOf(code) == Some(f) <==> code == FailureCode(f)
  {
  }

  predicate FitsTransitionVar(t: TransitionVar) {
    t.Continued? ==> |t.message| < Pow256(4)
  }

  function EncTransitionVar(t: TransitionVar): seq<Byte> {
    match t
    case Continued(message) => EncUint(1, 0) + EncPrefixed(4, message)
    case Failed(failure) => EncUint(1, 2) + EncUint(1, FailureCode(failure))
  }

  function DecTransitionVar(s: seq<Byte>): Decoded<TransitionVar> {
    var (typ, rest) :- DecUint(1, s);
    if typ == 0 then
      var (message, rest) :- DecPrefixed(4, rest);
      Got(Continued(message), rest)
    else if typ == 2 then
      var (code, rest) :- DecUint(1, rest);
      match FailureOf(code)
      case Some(failure) => Got(Failed(failure), rest)
      case None => Malformed
    else Malformed
  }

  lemma TransitionVarExact(s: seq<Byte>, t: TransitionVar, rest: seq<Byte>)
    ensures DecTransitionVar(s) == Got(t, rest) <==> FitsTransitionVar(t) && s == EncTransitionVar(t) + rest
  {
    Widths();
    match t
    case Continued(message) =>
      var tail := EncPrefixed(4, message) + rest;
      Assoc(EncUint(1, 0), EncPrefixed(4, message), rest);
      UintExact(1, s, 0, tail);
      PrefixedExact(4, tail, message, rest);
      if DecTransitionVar(s) == Got(t, rest) {
        UintExact(1, s, 0, DecUint(1, s).rest);
        PrefixedExact(4, DecUint(1, s).rest, message, rest);
      }
    case Failed(failure) =>
      var tail := EncUint(1, FailureCode(failure)) + rest;
      Assoc(EncUint(1, 2), EncUint(1, FailureCode(failure)), rest);
      UintExact(1, s, 2, tail);
      UintExact(1, tail, FailureCode(failure), rest);
      FailureExact(FailureCode(failure), failure);
      if DecTransitionVar(s) == Got(t, rest) {
        var after := DecUint(1, s).rest;
        UintExact(1, s, 2, after);
        FailureExact(DecUint(1, after).value, failure);
        UintExact(1, after, FailureCode(failure), rest);
      }
  }

  predicate FitsTransition(t: Transition) {
    FitsTransitionVar(t.transition)
  }

  function EncTransition(t: Transition): seq<Byte> {
    t.id + EncTransitionVar(t.transition)
  }

  function DecTransition(s: seq<Byte>): Decoded<Transition> {
    var (id, rest) :- DecExact(16, s);
    var (variant, rest) :- DecTransitionVar(rest);
    if |id| != 16 then Malformed else Got(Transition(id, variant), rest)
  }

  lemma TransitionExact(s: seq<Byte>, t: Transition, rest: seq<Byte>)
    ensures DecTransition(s) == Got(t, rest) <==> FitsTransition(t) && s == EncTransition(t) + rest
  {
    var tail := EncTransitionVar(t.transition) + rest;
    Assoc(t.id, EncTransitionVar(t.transition), rest);
    ExactExact(16, s, t.id, tail);
    TransitionVarExact(tail, t.transition, rest);
    if DecTransition(s) == Got(t, rest) {
      var after := DecExact(16, s).rest;
      ExactExact(16, s, t.id, after);
      TransitionVarExact(after, t.transition, rest);
    }
  }

  // ---- Response

  function TransitionCodec(): Codec<Transition> {
    Codec((t: Transition) => EncTransition(t), (t: Transition) => FitsTransition(t), (s: seq<Byte>) => DecTransition(s))
  }

  lemma TransitionCodecExact()
    ensures Exact(TransitionCodec())
  {
    var c := TransitionCodec();
    forall s, t, rest ensures ExactAt(c, s, t, rest) {
      TransitionExact(s, t, rest);
    }
  }

  /** The decoder of responses accepts exactly the encodings. */
  lemma AggregationJobRespExact(s: seq<Byte>, ts: seq<Transition>, rest: seq<Byte>)
    ensures DecList(TransitionCodec(), s) == Got(ts, rest)
       <==> FitList(TransitionCodec(), ts) && s == EncList(TransitionCodec(), ts) + rest
  {
    TransitionCodecExact();
    ListExact(TransitionCodec(), s, ts, rest);
  }

  // ---- Report shares

  datatype HpkeCiphertext = HpkeCiphertext(configId: nat, enc: seq<Byte>, payload: seq<Byte>)

  predicate FitsHpke(h: HpkeCiphertext) {
    h.configId < Pow256(1) && |h.enc| < Pow256(2) && |h.payload| < Pow256(4)
  }

  function EncHpke(h: HpkeCiphertext): seq<Byte> {
    EncUint(1, h.configId) + (EncPrefixed(2, h.enc) + EncPrefixed(4, h.payload))
  }

  function DecHpke(s: seq<Byte>): Decoded<HpkeCiphertext> {
    var (configId, rest) :- DecUint(1, s);
    var (enc, rest) :- DecPrefixed(2, rest);
    var (payload, rest) :- DecPrefixed(4, rest);
    Got(HpkeCiphertext(configId, enc, payload), rest)
  }

  lemma HpkeExact(s: seq<Byte>, h: HpkeCiphertext, rest: seq<Byte>)
    ensures DecHpke(s) == Got(h, rest) <==> FitsHpke(h) && s == EncHpke(h) + rest
  {
    var t2 := EncPrefixed(4, h.payload) + rest;
    var t1 := EncPrefixed(2, h.enc) + t2;
    Assoc(EncUint(1, h.configId), EncPrefixed(2, h.enc) + EncPrefixed(4, h.payload), rest);
    Assoc(EncPrefixed(2, h.enc), EncPrefixed(4, h.payload), rest);
    UintExact(1, s, h.configId, t1);
    PrefixedExact(2, t1, h.enc, t2);
    PrefixedExact(4, t2, h.payload, rest);
    if DecHpke(s) == Got(h, rest) {
      var r1 := DecUint(1, s).rest;
      UintExact(1, s, h.configId, r1);
      var r2 := DecPrefixed(2, r1).rest;
      PrefixedExact(2, r1, h.enc, r2);
      PrefixedExact(4, r2, h.payload, rest);
    }
  }

  datatype ReportShare = ReportShare(id: ReportId, time: nat, publicShare: seq<Byte>, inputShare: HpkeCiphertext)

  predicate FitsReportShare(r: ReportShare) {
    r.time < Pow256(8) && |r.publicShare| < Pow256(4) && FitsHpke(r.inputShare)
  }

  function EncReportShare(r: ReportShare): seq<Byte> {
    r.id + (EncUint(8, r.time) + (EncPrefixed(4, r.publicShare) + EncHpke(r.inputShare)))
  }

  function DecReportShare(s: seq<Byte>): Decoded<ReportShare> {
    var (id, rest) :- DecExact(16, s);
    var (time, rest) :- DecUint(8, rest);
    var (publicShare, rest) :- DecPrefixed(4, rest);
    var (inputShare, rest) :- DecHpke(rest);
    if |id| != 16 then Malformed else Got(ReportShare(id, time, publicShare, inputShare), rest)
  }

  lemma ReportShareTail(r: ReportShare, rest: seq<Byte>)
    ensures EncReportShare(r) + rest
         == r.id + (EncUint(8, r.time) + (EncPrefixed(4, r.publicShare) + (EncHpke(r.inputShare) + rest)))
  {
    var a, b, c, d := r.id, EncUint(8, r.time), EncPrefixed(4, r.publicShare), EncHpke(r.inputShare);
    Assoc(a, b + (c + d), rest);
    Assoc(b, c + d, rest);
    Assoc(c, d, rest);
  }

  lemma ReportShareExact(s: seq<Byte>, r: ReportShare, rest: seq<Byte>)
    ensures DecReportShare(s) == Got(r, rest) <==> FitsReportShare(r) && s == EncReportShare(r) + rest
  {
    ReportShareTail(r, rest);
    var t3 := EncHpke(r.inputShare) + rest;
    var t2 := EncPrefixed(4, r.publicShare) + t3;
    var t1 := EncUint(8, r.time) + t2;
    ExactExact(16, s, r.id, t1);
    UintExact(8, t1, r.time, t2);
    PrefixedExact(4, t2, r.publicShare, t3);
    HpkeExact(t3, r.inputShare, rest);
    if DecReportShare(s) == Got(r, rest) {
      var r1 := DecExact(16, s).rest;
      ExactExact(16, s, r.id, r1);
      var r2 := DecUint(8, r1).rest;
      UintExact(8, r1, r.time, r2);
      var r3 := DecPrefixed(4, r2).rest;
      PrefixedExact(4, r2, r.publicShare, r3);
      HpkeExact(r3, r.inputShare, rest);
    }
  }

  datatype PrepareInit = PrepareInit(reportShare: ReportShare, payload: seq<Byte>)

  predicate FitsPrepareInit(p: PrepareInit) {
    FitsReportShare(p.reportShare) && |p.payload| < Pow256(4)
  }

  function EncPrepareInit(p: PrepareInit): seq<Byte> {
    EncReportShare(p.reportShare) + EncPrefixed(4, p.payload)
  }

  function DecPrepareInit(s: seq<Byte>): Decoded<PrepareInit> {
    var (reportShare, rest) :- DecReportShare(s);
    var (payload, rest) :- DecPrefixed(4, rest);
    Got(PrepareInit(reportShare, payload), rest)
  }

  lemma PrepareInitExact(s: seq<Byte>, p: PrepareInit, rest: seq<Byte>)
    ensures DecPrepareInit(s) == Got(p, rest) <==> FitsPrepareInit(p) && s == EncPrepareInit(p) + rest
  {
    var tail := EncPrefixed(4, p.payload) + rest;
    Assoc(EncReportShare(p.reportShare), EncPrefixed(4, p.payload), rest);
    ReportShareExact(s, p.reportShare, tail);
    PrefixedExact(4, tail, p.payload, rest);
    if DecPrepareInit(s) == Got(p, rest) {
      var after := DecReportShare(s).rest;
      ReportShareExact(s, p.reportShare, after);
      PrefixedExact(4, after, p.payload, rest);
    }
  }

  function PrepareInitCodec(): Codec<PrepareInit> {
    Codec((p: PrepareInit) => EncPrepareInit(p), (p: PrepareInit) => FitsPrepareInit(p),
          (s: seq<Byte>) => DecPrepareInit(s))
  }

  lemma PrepareInitCodecExact()
    ensures Exact(PrepareInitCodec())
  {
    var c := PrepareInitCodec();
    forall s, p, rest ensures ExactAt(c, s, p, rest) {
      PrepareInitExact(s, p, rest);
    }
    forall p | c.fits(p) ensures c.enc(p) != [] {
      assert |p.reportShare.id| == 16;
      assert |EncReportShare(p.reportShare)| >= 16;
    }
  }

  // ---- Request

  function EncPart(p: PartialBatchSelector): seq<Byte> {
    match p
    case PartTimeInterval => EncUint(1, 1)
    case PartBatchId(batchId) => EncUint(1, 2) + batchId
  }

  function DecPart(s: seq<Byte>): Decoded<PartialBatchSelector> {
    var (typ, rest) :- DecUint(1, s);
    if typ == 1 then Got(PartTimeInterval, rest)
    else if typ == 2 then
      var (batchId, rest) :- DecExact(32, rest);
      if |batchId| != 32 then Malformed else Got(PartBatchId(batchId), rest)
    else Malformed
  }

  lemma PartExact(s: seq<Byte>, p: PartialBatchSelector, rest: seq<Byte>)
    ensures DecPart(s) == Got(p, rest) <==> s == EncPart(p) + rest
  {
    Widths();
    match p
    case PartTimeInterval => UintExact(1, s, 1, rest);
    case PartBatchId(batchId) =>
      Assoc(EncUint(1, 2), batchId, rest);
      UintExact(1, s, 2, batchId + rest);
      ExactExact(32, batchId + rest, batchId, rest);
      if DecPart(s) == Got(p, rest) {
        UintExact(1, s, 2, DecUint(1, s).rest);
        ExactExact(32, DecUint(1, s).rest, batchId, rest);
      }
  }

  datatype AggregationJobInitReq = AggregationJobInitReq(
    aggParam: seq<Byte>, part: PartialBatchSelector, prepInits: seq<PrepareInit>)

  ghost predicate FitsReq(r: AggregationJobInitReq) {
    |r.aggParam| < Pow256(4) && FitList(PrepareInitCodec(), r.prepInits)
  }

  ghost function EncReq(r: AggregationJobInitReq): seq<Byte> {
    EncPrefixed(4, r.aggParam) + (EncPart(r.part) + EncList(PrepareInitCodec(), r.prepInits))
  }

  ghost function DecReq(s: seq<Byte>): Decoded<AggregationJobInitReq> {
    var (aggParam, rest) :- DecPrefixed(4, s);
    var (part, rest) :- DecPart(rest);
    var (prepInits, rest) :- DecList(PrepareInitCodec(), rest);
    Got(AggregationJobInitReq(aggParam, part, prepInits), rest)
  }

  /** The decoder of requests accepts exactly the encodings. */
  lemma AggregationJobInitReqExact(s: seq<Byte>, r: AggregationJobInitReq, rest: seq<Byte>)
    ensures DecReq(s) == Got(r, rest) <==> FitsReq(r) && s == EncReq(r) + rest
  {
    PrepareInitCodecExact();
    var list := EncList(PrepareInitCodec(), r.prepInits);
    var t2 := list + rest;
    var t1 := EncPart(r.part) + t2;
    Assoc(EncPrefixed(4, r.aggParam), EncPart(r.part) + list, rest);
    Assoc(EncPart(r.part), list, rest);
    PrefixedExact(4, s, r.aggParam, t1);
    PartExact(t1, r.part, t2);
    ListExact(PrepareInitCodec(), t2, r.prepInits, rest);
    if DecReq(s) == Got(r, rest) {
      var r1 := DecPrefixed(4, s).rest;
      PrefixedExact(4, s, r.aggParam, r1);
      var r2 := DecPart(r1).rest;
      PartExact(r1, r.part, r2);
      ListExact(PrepareInitCodec(), r2, r.prepInits, rest);
    }
  }

  /** Requests and responses round-trip, and different ones have different encodings. */
  lemma JobMessagesInjective(r: AggregationJobInitReq, q: AggregationJobInitReq, ts: seq<Transition>,
                             us: seq<Transition>)
    requires FitsReq(r) && FitsReq(q) && FitList(TransitionCodec(), ts) && FitList(TransitionCodec(), us)
    ensures DecReq(EncReq(r)) == Got(r, []) && DecList(TransitionCodec(), EncList(TransitionCodec(), ts)) == Got(ts, [])
    ensures EncReq(r) == EncReq(q) ==> r == q
    ensures EncList(TransitionCodec(), ts) == EncList(TransitionCodec(), us) ==> ts == us
  {
    var c := TransitionCodec();
    assert EncReq(r) + [] == EncReq(r) && EncReq(q) + [] == EncReq(q);
    assert EncList(c, ts) + [] == EncList(c, ts) && EncList(c, us) + [] == EncList(c, us);
    AggregationJobInitReqExact(EncReq(r), r, []);
    AggregationJobInitReqExact(EncReq(q), q, []);
    AggregationJobRespExact(EncList(c, ts), ts, []);
    AggregationJobRespExact(EncList(c, us), us, []);
  }
}
