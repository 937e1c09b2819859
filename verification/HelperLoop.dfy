/**
The Helper's aggregation job as it is executed: the response and the span are built report by
report, the span is committed bucket by bucket in whatever order, and the results of a pass
extend the map of report statuses. The methods compute what `HelperJob` specifies.
*/
module HelperLoop {
  import opened Wrappers
  import opened AggShare
  import opened Buckets
  import opened HelperJob
  import opened HelperTheorems

  /** The share and the reports of one bucket of a span. */
  datatype SpanEntry = SpanEntry(share: Share, reports: seq<(ReportId, nat)>)

  type Span = map<Bucket, SpanEntry>

  ghost function Metas(rs: seq<Report>): seq<(ReportId, nat)> {
    seq(|rs|, i requires 0 <= i < |rs| => (rs[i].id, rs[i].time))
  }

  function Place(cfg: TaskConfig, sha: Sha, part: PartialBatchSelector): Placement
    requires cfg.Valid()
  {
    (id: ReportId, time: nat) => BucketOf(cfg, sha, part, id, time)
  }

  /** The entry of a span for the reports `f` of one bucket. */
  ghost function EntryOf(sha: Sha, f: seq<Report>, sh: Shape): SpanEntry
    requires AllShaped(f, sh)
  {
    SpanEntry(Fold(sha, f, sh), Metas(f))
  }

  /** A span that holds the reports `rs`, bucket by bucket. */
  ghost predicate SpanOf(sha: Sha, c: Ctx, rs: seq<Report>, sh: Shape, span: Span) {
    && AllShaped(rs, sh)
    && span.Keys == BucketsOf(c, rs)
    && forall b | b in span :: EntryFor(sha, InB(c, rs, b), sh, span[b])
  }

  ghost predicate EntryFor(sha: Sha, f: seq<Report>, sh: Shape, entry: SpanEntry) {
    AllShaped(f, sh) && entry == EntryOf(sha, f, sh)
  }

  // ---- Adding an output share

  lemma InBSnoc(c: Ctx, rs: seq<Report>, r: Report, b: Bucket)
    ensures InB(c, rs + [r], b) == if c.place(r.id, r.time) == b then InB(c, rs, b) + [r] else InB(c, rs, b)
  {
    assert (rs + [r])[..|rs|] == rs;
  }

  lemma BucketsSnoc(c: Ctx, rs: seq<Report>, r: Report)
    ensures BucketsOf(c, rs + [r]) == BucketsOf(c, rs) + {c.place(r.id, r.time)}
  {
    forall b | b in BucketsOf(c, rs) ensures b in BucketsOf(c, rs + [r]) {
      var x :| x in rs && c.place(x.id, x.time) == b;
      assert x in rs + [r];
    }
    assert r in rs + [r];
  }

  lemma EntrySnoc(sha: Sha, f: seq<Report>, r: Report, sh: Shape)
    requires AllShaped(f, sh) && HasShape(r.data, sh)
    ensures AllShaped(f + [r], sh)
    ensures AddOutShare(sha, EntryOf(sha, f, sh).share, r) == Ok(EntryOf(sha, f + [r], sh).share)
    ensures EntryOf(sha, f + [r], sh).reports == EntryOf(sha, f, sh).reports + [(r.id, r.time)]
  {
    assert (f + [r])[..|f|] == f;
    JoinShaped(Fold(sha, f, sh), One(sha, r), sh);
  }

  lemma SpanSnoc(sha: Sha, c: Ctx, rs: seq<Report>, sh: Shape, span: Span, r: Report, entry: SpanEntry)
    requires SpanOf(sha, c, rs, sh, span) && HasShape(r.data, sh)
    requires EntryFor(sha, InB(c, rs + [r], c.place(r.id, r.time)), sh, entry)
    ensures SpanOf(sha, c, rs + [r], sh, span[c.place(r.id, r.time) := entry])
  {
    var b := c.place(r.id, r.time);
    BucketsSnoc(c, rs, r);
    var span' := span[b := entry];
    forall b' | b' in span' ensures EntryFor(sha, InB(c, rs + [r], b'), sh, span'[b']) {
      InBSnoc(c, rs, r, b');
    }
  }

  method AddToSpan(cfg: TaskConfig, sha: Sha, part: PartialBatchSelector, span: Span, r: Report,
                   ghost c: Ctx, ghost rs: seq<Report>, ghost sh: Shape)
    returns (res: Result<Span>)
    requires cfg.Valid() && c.place == Place(cfg, sha, part)
    requires SpanOf(sha, c, rs, sh, span) && HasShape(r.data, sh)
    ensures res.Ok? <==> cfg.IsValidPartBatchSel(part)
    ensures res.Ok? ==> SpanOf(sha, c, rs + [r], sh, res.value)
  {
    if !cfg.IsValidPartBatchSel(part) {
      return Err;
    }
    var b := BucketOf(cfg, sha, part, r.id, r.time);
    ghost var f := InB(c, rs, b);
    InBEmpty(c, rs, b);
    InBSnoc(c, rs, r, b);
    var entry := if b in span then span[b] else SpanEntry(EMPTY, []);
    assert EntryFor(sha, f, sh, entry);
    EntrySnoc(sha, f, r, sh);
    var share := MergeInto(entry.share, One(sha, r));
    var entry' := SpanEntry(share.value, entry.reports + [(r.id, r.time)]);
    SpanSnoc(sha, c, rs, sh, span, r, entry');
    return Ok(span[b := entry']);
  }

  // ---- Producing the response

  /** All output shares of the job have one shape. */
  ghost predicate ShapedInits(inits: seq<Initialized>, sh: Shape) {
    forall i | 0 <= i < |inits| && inits[i].Ready? && inits[i].finish.FinishOk? :: HasShape(inits[i].finish.data, sh)
  }

  lemma {:induction false} TransitionsPrefix(inits: seq<Initialized>, status: StatusMap, k: nat)
    requires k <= |inits| && Transitions(inits[..k], status).Err?
    ensures Transitions(inits, status).Err?
    decreases |inits| - k
  {
    if k < |inits| {
      assert inits[..k + 1][..k] == inits[..k];
      TransitionsPrefix(inits, status, k + 1);
    } else {
      assert inits[..k] == inits;
    }
  }

  lemma {:induction false} TransitionsStep(inits: seq<Initialized>, status: StatusMap, k: nat)
    requires k < |inits| && Transitions(inits[..k], status).Ok?
    ensures Transitions(inits[..k + 1], status)
         == match TransitionOf(inits[k], status)
            case Ok(t) => Ok(Transitions(inits[..k], status).value + [t])
            case Err => Err
  {
    assert inits[..k + 1][..k] == inits[..k];
  }

  lemma PendingStep(inits: seq<Initialized>, status: StatusMap, k: nat)
    requires k < |inits|
    ensures Pending(inits[..k + 1], status)
         == Pending(inits[..k], status)
            + if IsReady(inits[k]) && inits[k].id !in status then [ReportOf(inits[k])] else []
  {
    var a := inits[..k + 1];
    assert a[..|a| - 1] == inits[..k] && a[|a| - 1] == inits[k];
    var rs := ReadyReports(inits[..k]);
    if IsReady(inits[k]) {
      var r := ReportOf(inits[k]);
      assert (rs + [r])[..|rs + [r]| - 1] == rs;
    } else {
      assert rs + [] == rs;
    }
  }

  lemma {:induction false} PendingSome(inits: seq<Initialized>, status: StatusMap, k: nat)
    requires k <= |inits| && Pending(inits[..k], status) != []
    ensures Pending(inits, status) != []
    decreases |inits| - k
  {
    if k < |inits| {
      PendingStep(inits, status, k);
      PendingSome(inits, status, k + 1);
    } else {
      assert inits[..k] == inits;
    }
  }

  /** The span and the answer after one more report. */
  method ProcessReport(cfg: TaskConfig, sha: Sha, part: PartialBatchSelector, init: Initialized, status: StatusMap,
                       span: Span, ghost c: Ctx, ghost rs: seq<Report>, ghost sh: Shape)
    returns (res: Result<(Span, Transition)>)
    requires cfg.Valid() && c.place == Place(cfg, sha, part) && SpanOf(sha, c, rs, sh, span)
    requires init.Ready? && init.finish.FinishOk? ==> HasShape(init.finish.data, sh)
    ensures var pending := IsReady(init) && init.id !in status;
            && (res.Ok? <==> TransitionOf(init, status).Ok? && (pending ==> cfg.IsValidPartBatchSel(part)))
            && (res.Ok? ==> SpanOf(sha, c, rs + (if pending then [ReportOf(init)] else []), sh, res.value.0)
                            && Ok(res.value.1) == TransitionOf(init, status))
  {
    var span' := span;
    if init.Ready? && init.finish.FinishOk? && init.id !in status {
      var added := AddToSpan(cfg, sha, part, span, Report(init.id, init.time, init.finish.data), c, rs, sh);
      if added.Err? {
        return Err;
      }
      span' := added.value;
    }
    assert rs + [] == rs;
    match TransitionOf(init, status) {
      case Ok(t) => return Ok((span', t));
      case Err => return Err;
    }
  }

  lemma {:induction false} StepFails(inits: seq<Initialized>, status: StatusMap, k: nat)
    requires k < |inits| && Transitions(inits[..k], status).Ok?
    ensures TransitionOf(inits[k], status).Err? ==> Transitions(inits, status).Err?
    ensures IsReady(inits[k]) && inits[k].id !in status ==> Pending(inits, status) != []
  {
    TransitionsStep(inits, status, k);
    PendingStep(inits, status, k);
    if TransitionOf(inits[k], status).Err? {
      TransitionsPrefix(inits, status, k + 1);
    }
    if IsReady(inits[k]) && inits[k].id !in status {
      PendingSome(inits, status, k + 1);
    }
  }

  method ProduceAggJobResp(cfg: TaskConfig, sha: Sha, part: PartialBatchSelector, inits: seq<Initialized>,
                           status: StatusMap, ghost c: Ctx, ghost sh: Shape)
    returns (res: Result<(Span, seq<Transition>)>)
    requires cfg.Valid() && c.place == Place(cfg, sha, part) && ShapedInits(inits, sh)
    ensures res.Ok?
       <==> Transitions(inits, status).Ok? && (cfg.IsValidPartBatchSel(part) || Pending(inits, status) == [])
    ensures res.Ok? ==> SpanOf(sha, c, Pending(inits, status), sh, res.value.0)
                        && res.value.1 == Transitions(inits, status).value
  {
    var span: Span := map[];
    var transitions: seq<Transition> := [];
    for k := 0 to |inits|
      invariant Transitions(inits[..k], status) == Ok(transitions)
      invariant SpanOf(sha, c, Pending(inits[..k], status), sh, span)
      invariant cfg.IsValidPartBatchSel(part) || Pending(inits[..k], status) == []
    {
      var step := ProcessReport(cfg, sha, part, inits[k], status, span, c, Pending(inits[..k], status), sh);
      if step.Err? {
        StepFails(inits, status, k);
        return Err;
      }
      TransitionsStep(inits, status, k);
      PendingStep(inits, status, k);
      span := step.value.0;
      transitions := transitions + [step.value.1];
    }
    assert inits[..|inits|] == inits;
    res := Ok((span, transitions));
  }
}
