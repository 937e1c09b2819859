/**
Collection safety over every sequential run: releases of a task never share a bucket, every
released share meets the batch size limits, and it is the total of exactly the reports that
match its selector among all reports ever accepted, before or after the release.
*/
module CollectionSafety {
  import opened Wrappers
  import opened AggShare
  import opened Buckets
  import opened BucketStore
  import opened HelperJob
  import opened HelperTheorems
  import opened Collection

  /** The partial selector whose reports a bucket can hold. */
  function PartOf(b: Bucket): PartialBatchSelector {
    match b
    case FixedSize(batchId, _) => PartBatchId(batchId)
    case TimeInterval(_, _) => PartTimeInterval
  }

  function PartFor(sel: BatchSelector): PartialBatchSelector {
    match sel
    case SelInterval(_, _) => PartTimeInterval
    case SelBatchId(batchId) => PartBatchId(batchId)
  }

  /** The reports accepted with a partial selector. */
  ghost function ForPart(accepted: seq<(PartialBatchSelector, Report)>, part: PartialBatchSelector): seq<Report> {
    if accepted == [] then []
    else
      var last := accepted[|accepted| - 1];
      ForPart(accepted[..|accepted| - 1], part) + if last.0 == part then [last.1] else []
  }

  lemma {:induction false} ForPartSnoc(accepted: seq<(PartialBatchSelector, Report)>, x: (PartialBatchSelector, Report),
                    part: PartialBatchSelector)
    ensures ForPart(accepted + [x], part) == ForPart(accepted, part) + if x.0 == part then [x.1] else []
  {
    assert (accepted + [x])[..|accepted|] == accepted;
  }

  lemma TagSnoc(accepted: seq<(PartialBatchSelector, Report)>, tag: PartialBatchSelector, init: seq<Report>,
                last: Report)
    ensures accepted + Tag(tag, init + [last]) == (accepted + Tag(tag, init)) + [(tag, last)]
  {
    assert Tag(tag, init + [last]) == Tag(tag, init) + [(tag, last)];
  }

  lemma {:induction false} ForPartTag(accepted: seq<(PartialBatchSelector, Report)>, tag: PartialBatchSelector,
                                      rs: seq<Report>, part: PartialBatchSelector)
    ensures ForPart(accepted + Tag(tag, rs), part) == ForPart(accepted, part) + if tag == part then rs else []
  {
    if rs == [] {
      assert accepted + Tag(tag, rs) == accepted;
    } else {
      var init, last := rs[..|rs| - 1], rs[|rs| - 1];
      assert rs == init + [last];
      ForPartTag(accepted, tag, init, part);
      TagSnoc(accepted, tag, init, last);
      ForPartSnoc(accepted + Tag(tag, init), (tag, last), part);
    }
  }

  lemma {:induction false} FilterAll(rs: seq<Report>, keep: Report -> bool)
    requires forall r | r in rs :: keep(r)
    ensures Filter(rs, keep) == rs
  {
    if rs != [] {
      var init, last := rs[..|rs| - 1], rs[|rs| - 1];
      assert rs == init + [last];
      assert last in rs && forall r | r in init :: r in rs;
      FilterAll(init, keep);
      assert Filter(rs, keep) == init + [last];
    }
  }

  lemma {:induction false} FilterOut(rs: seq<Report>, keep: Report -> bool)
    requires forall r | r in rs :: !keep(r)
    ensures Filter(rs, keep) == []
  {
    if rs != [] {
      var init, last := rs[..|rs| - 1], rs[|rs| - 1];
      assert last in rs && forall r | r in init :: r in rs;
      FilterOut(init, keep);
    }
  }

  // ---- The log of a bucket

  /** The accepted reports that belong in a bucket. */
  ghost function Belonging(t: Task, accepted: seq<(PartialBatchSelector, Report)>, b: Bucket): seq<Report>
    requires t.cfg.Valid()
  {
    Filter(ForPart(accepted, PartOf(b)), InBucket(t.cfg, t.sha, PartOf(b), b))
  }

  ghost predicate LogsExact(t: Task, w: World)
    requires t.cfg.Valid()
  {
    forall b :: Reports(Lookup(w.store, b).log) == Belonging(t, w.accepted, b)
  }

  lemma BelongingTag(t: Task, accepted: seq<(PartialBatchSelector, Report)>, part: PartialBatchSelector, b: Bucket,
                     rs: seq<Report>, b': Bucket)
    requires t.cfg.Valid() && forall r | r in rs :: BucketOf(t.cfg, t.sha, part, r.id, r.time) == b
    ensures Belonging(t, accepted + Tag(part, rs), b') == Belonging(t, accepted, b') + if b' == b then rs else []
  {
    var p := PartOf(b');
    var keep := InBucket(t.cfg, t.sha, p, b');
    ForPartTag(accepted, part, rs, p);
    if rs == [] {
      assert ForPart(accepted, p) + [] == ForPart(accepted, p);
    } else {
      assert rs[0] in rs;
      assert part == PartOf(b);
      if part == p {
        FilterConcat(ForPart(accepted, p), rs, keep);
        if b' == b { FilterAll(rs, keep); } else { FilterOut(rs, keep); }
      } else {
        assert ForPart(accepted, p) + [] == ForPart(accepted, p);
      }
    }
  }

  lemma MergeLog(kind: StoreKind, st: BucketState, job: nat, rs: seq<Report>)
    ensures Reports(BucketMerge(kind, st, job, rs).0.log) == Reports(st.log) + if Commits(st, rs) then rs else []
    ensures BucketMerge(kind, st, job, rs).0.collected == st.collected
  {
    ReportsConcat(st.log, rs, job);
  }

  lemma MergeExact(t: Task, w: World, e: Event)
    requires t.cfg.Valid() && e.MergeEvent? && GoodEvent(t, e) && LogsExact(t, w)
    ensures LogsExact(t, StepWorld(t, w, e))
  {
    var w' := StepWorld(t, w, e);
    var st := Lookup(w.store, e.bucket);
    MergeLog(t.kind, st, e.job, e.reports);
    forall b ensures Reports(Lookup(w'.store, b).log) == Belonging(t, w'.accepted, b) {
      if Commits(st, e.reports) {
        BelongingTag(t, w.accepted, e.part, e.bucket, e.reports, b);
      }
    }
  }

  // ---- Releases

  /** What a release guarantees in the present state of the buckets. */
  ghost predicate ReleaseOk(t: Task, store: Store, rel: Release)
    requires t.cfg.Valid() && ShapedStore(store, t.sh)
  {
    var span := SpanFor(t.cfg, rel.sel);
    && Aligned(t.cfg, rel.sel)
    && (forall b | b in span :: Lookup(store, b).collected)
    && SpanTotal(t.sha, t.sh, store, span) == Ok(rel.share)
    && IsReportCountCompatible(t.cfg, rel.share.count) == Ok(true)
  }

  ghost predicate Apart(t: Task, releases: seq<Release>)
    requires t.cfg.Valid()
  {
    forall i, j | 0 <= i < j < |releases| :: SpanFor(t.cfg, releases[i].sel) !! SpanFor(t.cfg, releases[j].sel)
  }

  ghost predicate Safe(t: Task, w: World)
    requires t.cfg.Valid()
  {
    && ShapedStore(w.store, t.sh)
    && (forall i | 0 <= i < |w.releases| :: ReleaseOk(t, w.store, w.releases[i]))
    && Apart(t, w.releases)
  }

  /** The total of a span depends on the logs of its buckets only. */
  lemma SameTotal(t: Task, store: Store, store': Store, span: set<Bucket>)
    requires ShapedStore(store, t.sh) && ShapedStore(store', t.sh)
    requires forall b | b in span :: Reports(Lookup(store', b).log) == Reports(Lookup(store, b).log)
    ensures SpanTotal(t.sha, t.sh, store', span) == SpanTotal(t.sha, t.sh, store, span)
  {
    var order := SomeOrder(span);
    assert SharesOf(t.sha, t.sh, store', order) == SharesOf(t.sha, t.sh, store, order) by {
      forall i | 0 <= i < |order|
        ensures BucketShare(t.sha, t.sh, store', order[i]) == BucketShare(t.sha, t.sh, store, order[i])
      {
        assert order[i] in order;
      }
    }
  }

  lemma MergeShaped(t: Task, w: World, e: Event)
    requires t.cfg.Valid() && e.MergeEvent? && GoodEvent(t, e) && ShapedStore(w.store, t.sh)
    ensures ShapedStore(StepWorld(t, w, e).store, t.sh)
  {
    MergeLog(t.kind, Lookup(w.store, e.bucket), e.job, e.reports);
  }

  lemma MergeSafe(t: Task, w: World, e: Event)
    requires t.cfg.Valid() && e.MergeEvent? && GoodEvent(t, e) && Safe(t, w)
    ensures Safe(t, StepWorld(t, w, e))
  {
    var w' := StepWorld(t, w, e);
    MergeShaped(t, w, e);
    MergeLog(t.kind, Lookup(w.store, e.bucket), e.job, e.reports);
    forall i | 0 <= i < |w'.releases| ensures ReleaseOk(t, w'.store, w'.releases[i]) {
      assert ReleaseOk(t, w.store, w.releases[i]);
      SameTotal(t, w.store, w'.store, SpanFor(t.cfg, w.releases[i].sel));
    }
  }

  lemma MarkShaped(store: Store, span: set<Bucket>, sh: Shape)
    requires ShapedStore(store, sh)
    ensures ShapedStore(MarkSpan(store, span), sh)
  {
    assert Reports([]) == [];
  }

  /** Marking buckets changes no total. */
  lemma MarkTotal(t: Task, store: Store, marked: set<Bucket>, span: set<Bucket>)
    requires ShapedStore(store, t.sh)
    ensures ShapedStore(MarkSpan(store, marked), t.sh)
    ensures SpanTotal(t.sha, t.sh, MarkSpan(store, marked), span) == SpanTotal(t.sha, t.sh, store, span)
  {
    MarkShaped(store, marked, t.sh);
    forall b | b in span ensures Reports(Lookup(MarkSpan(store, marked), b).log) == Reports(Lookup(store, b).log) {
      MarkLookup(store, marked, b);
    }
    SameTotal(t, store, MarkSpan(store, marked), span);
  }

  lemma MarkStands(t: Task, store: Store, marked: set<Bucket>, rel: Release)
    requires t.cfg.Valid() && ShapedStore(store, t.sh) && ReleaseOk(t, store, rel)
    ensures ShapedStore(MarkSpan(store, marked), t.sh) && ReleaseOk(t, MarkSpan(store, marked), rel)
  {
    MarkTotal(t, store, marked, SpanFor(t.cfg, rel.sel));
    forall b | b in SpanFor(t.cfg, rel.sel) ensures Lookup(MarkSpan(store, marked), b).collected {
      MarkLookup(store, marked, b);
    }
  }

  /** The boundaries of a selector are acceptable at a given time. */
  ghost predicate Acceptable(t: Task, store: Store, sel: BatchSelector, now: nat)
    requires t.cfg.Valid()
  {
    match sel
    case SelInterval(start, duration) =>
      && Aligned(t.cfg, sel) && t.cfg.timePrecision <= duration <= t.limits.maxBatchDuration
      && start - t.limits.minBatchIntervalStart <= now <= start + t.limits.minBatchIntervalStart
      && start + duration - t.limits.maxBatchIntervalEnd <= now <= start + duration + t.limits.maxBatchIntervalEnd
    case SelBatchId(_) => exists b :: b in SpanFor(t.cfg, sel) && Lookup(store, b).log != []
  }

  /** A request is granted if and only if everything about it is in order, and then it gets the total of its span. */
  lemma GrantedExactly(t: Task, store: Store, req: AggShareReq, now: nat, share: Share)
    requires t.cfg.Valid() && ShapedStore(store, t.sh)
    ensures AnswerTo(t.cfg, t.limits, t.sha, t.sh, store, req, now) == Granted(share)
       <==> && req.aggParamValid && t.cfg.IsValidBatchSel(req.sel)
            && Acceptable(t, store, req.sel, now)
            && (forall b | b in SpanFor(t.cfg, req.sel) :: !Lookup(store, b).collected)
            && SpanTotal(t.sha, t.sh, store, SpanFor(t.cfg, req.sel)) == Ok(share)
            && share.count == req.count && share.checksum == req.checksum
            && SizeOk(t.cfg, share.count)
  {
    CheckExactly(t, store, req, now);
  }

  /** The selector fits the task, and names whole windows or a batch that has a report. */
  ghost predicate Queryable(t: Task, store: Store, sel: BatchSelector)
    requires t.cfg.Valid()
  {
    match sel
    case SelInterval(_, duration) => Aligned(t.cfg, sel) && t.cfg.timePrecision <= duration
    case SelBatchId(_) => exists b :: b in SpanFor(t.cfg, sel) && Lookup(store, b).log != []
  }

  /**
  Which requests are aborted, and for what reason: the reasons in their order, each where the
  earlier ones do not apply. Nothing is a fatal error.
  */
  lemma AbortedExactly(t: Task, store: Store, req: AggShareReq, now: nat, reason: Abort)
    requires t.cfg.Valid() && ShapedStore(store, t.sh)
    ensures SpanTotal(t.sha, t.sh, store, SpanFor(t.cfg, req.sel)).Ok?
    ensures AnswerTo(t.cfg, t.limits, t.sha, t.sh, store, req, now) == Aborted(reason)
       <==> var (sel, span) := (req.sel, SpanFor(t.cfg, req.sel));
            var fits := req.aggParamValid && t.cfg.IsValidBatchSel(sel);
            var open := fits && Acceptable(t, store, sel, now) && forall b | b in span :: !Lookup(store, b).collected;
            var total := SpanTotal(t.sha, t.sh, store, span);
            match reason
            case InvalidAggParam => !req.aggParamValid
            case QueryMismatch => req.aggParamValid && !t.cfg.IsValidBatchSel(sel)
            case BatchInvalid => fits && !Queryable(t, store, sel)
            case BadRequest => fits && Queryable(t, store, sel) && !Acceptable(t, store, sel, now)
            case BatchOverlap =>
              fits && Acceptable(t, store, sel, now) && exists b :: b in span && Lookup(store, b).collected
            case BatchMismatch => open && (req.count, req.checksum) != (total.value.count, total.value.checksum)
            case InvalidBatchSize =>
              && open && req.count == total.value.count && req.checksum == total.value.checksum
              && !SizeOk(t.cfg, req.count)
            case FatalError => false
  {
    TotalExists(t, store, SpanFor(t.cfg, req.sel));
  }

  lemma TotalExists(t: Task, store: Store, span: set<Bucket>)
    requires ShapedStore(store, t.sh)
    ensures SpanTotal(t.sha, t.sh, store, span).Ok?
  {
    TotalShaped(t.sha, t.sh, store, SomeOrder(span));
  }

  lemma CheckExactly(t: Task, store: Store, req: AggShareReq, now: nat)
    requires t.cfg.Valid()
    ensures CheckBatch(t.cfg, t.limits, store, req, now).None?
       <==> && req.aggParamValid && t.cfg.IsValidBatchSel(req.sel)
            && Acceptable(t, store, req.sel, now)
            && (forall b | b in SpanFor(t.cfg, req.sel) :: !Lookup(store, b).collected)
  {
  }

  lemma NewRelease(t: Task, store: Store, req: AggShareReq, now: nat, share: Share)
    requires t.cfg.Valid() && ShapedStore(store, t.sh)
    requires AnswerTo(t.cfg, t.limits, t.sha, t.sh, store, req, now) == Granted(share)
    ensures var store' := MarkSpan(store, SpanFor(t.cfg, req.sel));
            ShapedStore(store', t.sh) && ReleaseOk(t, store', Release(req.sel, share))
  {
    var span := SpanFor(t.cfg, req.sel);
    GrantedExactly(t, store, req, now, share);
    MarkTotal(t, store, span, span);
    forall b | b in span ensures Lookup(MarkSpan(store, span), b).collected {
      MarkLookup(store, span, b);
    }
  }

  lemma CollectSafe(t: Task, w: World, e: Event)
    requires t.cfg.Valid() && e.CollectEvent? && Safe(t, w)
    ensures Safe(t, StepWorld(t, w, e))
  {
    var answer := AnswerTo(t.cfg, t.limits, t.sha, t.sh, w.store, e.req, e.now);
    if answer.Granted? {
      GrantedExactly(t, w.store, e.req, e.now, answer.share);
      NewRelease(t, w.store, e.req, e.now, answer.share);
      GrantSafe(t, w, Release(e.req.sel, answer.share));
    }
  }

  lemma GrantSafe(t: Task, w: World, rel: Release)
    requires t.cfg.Valid() && Safe(t, w)
    requires var span := SpanFor(t.cfg, rel.sel);
             && (forall b | b in span :: !Lookup(w.store, b).collected)
             && ShapedStore(MarkSpan(w.store, span), t.sh) && ReleaseOk(t, MarkSpan(w.store, span), rel)
    ensures Safe(t, World(MarkSpan(w.store, SpanFor(t.cfg, rel.sel)), w.accepted, w.releases + [rel]))
  {
    var span := SpanFor(t.cfg, rel.sel);
    forall i | 0 <= i < |w.releases|
      ensures ReleaseOk(t, MarkSpan(w.store, span), w.releases[i])
      ensures SpanFor(t.cfg, w.releases[i].sel) !! span
    {
      EarlierStands(t, w.store, span, w.releases[i]);
    }
  }

  /** Granting an open span leaves an earlier release as it is, and apart. */
  lemma EarlierStands(t: Task, store: Store, span: set<Bucket>, rel: Release)
    requires t.cfg.Valid() && ShapedStore(store, t.sh) && ReleaseOk(t, store, rel)
    requires forall b | b in span :: !Lookup(store, b).collected
    ensures ShapedStore(MarkSpan(store, span), t.sh) && ReleaseOk(t, MarkSpan(store, span), rel)
    ensures SpanFor(t.cfg, rel.sel) !! span
  {
    MarkStands(t, store, span, rel);
  }

  lemma {:induction false} RunSafe(t: Task, events: seq<Event>)
    requires t.cfg.Valid() && forall k | 0 <= k < |events| :: GoodEvent(t, events[k])
    ensures Safe(t, RunWorld(t, events)) && LogsExact(t, RunWorld(t, events))
  {
    if events == [] {
      assert Reports([]) == [];
    } else {
      var init, e := events[..|events| - 1], events[|events| - 1];
      RunSafe(t, init);
      var w := RunWorld(t, init);
      if e.MergeEvent? {
        MergeExact(t, w, e);
        MergeSafe(t, w, e);
      } else {
        CollectSafe(t, w, e);
        CollectExact(t, w, e);
      }
    }
  }

  lemma CollectExact(t: Task, w: World, e: Event)
    requires t.cfg.Valid() && e.CollectEvent? && LogsExact(t, w)
    ensures LogsExact(t, StepWorld(t, w, e))
  {
    var w' := StepWorld(t, w, e);
    forall b ensures Reports(Lookup(w'.store, b).log) == Belonging(t, w'.accepted, b) {
      MarkLookup(w.store, SpanFor(t.cfg, e.req.sel), b);
    }
  }

  // ---- Main results

  lemma {:induction false} AcceptedShaped(t: Task, events: seq<Event>, part: PartialBatchSelector)
    requires t.cfg.Valid() && forall k | 0 <= k < |events| :: GoodEvent(t, events[k])
    ensures AllShaped(ForPart(RunWorld(t, events).accepted, part), t.sh)
  {
    if events != [] {
      var init, e := events[..|events| - 1], events[|events| - 1];
      AcceptedShaped(t, init, part);
      if e.MergeEvent? {
        ForPartTag(RunWorld(t, init).accepted, e.part, e.reports, part);
      }
    }
  }

  lemma SpanPart(cfg: TaskConfig, sel: BatchSelector, b: Bucket)
    requires cfg.Valid() && b in SpanFor(cfg, sel)
    ensures PartOf(b) == PartFor(sel)
  {
    if sel.SelInterval? {
      InIntervalSpan(cfg.timePrecision, sel.start, sel.duration / cfg.timePrecision, cfg.numShards, b);
    }
  }

  /** The bucket shares merged for a selector are those of the accepted reports. */
  lemma SharesAreBuckets(t: Task, w: World, sel: BatchSelector)
    requires t.cfg.Valid() && ShapedStore(w.store, t.sh) && LogsExact(t, w)
    requires AllShaped(ForPart(w.accepted, PartFor(sel)), t.sh)
    ensures var order := SomeOrder(SpanFor(t.cfg, sel));
            (SharesOf(t.sha, t.sh, w.store, order)
             == BucketShares(t.cfg, t.sha, PartFor(sel), ForPart(w.accepted, PartFor(sel)), order, t.sh))
  {
    var part, order := PartFor(sel), SomeOrder(SpanFor(t.cfg, sel));
    forall i | 0 <= i < |order|
      ensures SharesOf(t.sha, t.sh, w.store, order)[i]
           == BucketShares(t.cfg, t.sha, part, ForPart(w.accepted, part), order, t.sh)[i]
    {
      assert order[i] in order;
      SpanPart(t.cfg, sel, order[i]);
      assert Reports(Lookup(w.store, order[i]).log) == Belonging(t, w.accepted, order[i]);
    }
  }

  /** The batch size limits of the task. */
  ghost predicate SizeOk(cfg: TaskConfig, count: nat) {
    && count >= cfg.minBatchSize
    && (cfg.query.QueryFixedSize? && cfg.query.maxBatchSize.Some? ==> count <= cfg.query.maxBatchSize.value)
  }

  /**
  After any sequential run: no two releases have a bucket in common, every released share
  meets the size limits, and every released share is one fold over the reports that match its
  selector among all reports accepted during the whole run.
  */
  lemma {:induction false} CollectionIsSafe(t: Task, events: seq<Event>, i: nat)
    requires t.cfg.Valid() && forall k | 0 <= k < |events| :: GoodEvent(t, events[k])
    requires i < |RunWorld(t, events).releases|
    ensures var w := RunWorld(t, events);
            var rel := w.releases[i];
            var part := PartFor(rel.sel);
            && (forall j | 0 <= j < |w.releases| && j != i ::
                  SpanFor(t.cfg, rel.sel) !! SpanFor(t.cfg, w.releases[j].sel))
            && SizeOk(t.cfg, rel.share.count)
            && AllShaped(ForPart(w.accepted, part), t.sh)
            && rel.share == FoldWhere(t.sha, ForPart(w.accepted, part), Matching(rel.sel, part), t.sh)
  {
    var w := RunWorld(t, events);
    var rel := w.releases[i];
    var part, order := PartFor(rel.sel), SomeOrder(SpanFor(t.cfg, rel.sel));
    RunSafe(t, events);
    AcceptedShaped(t, events, part);
    SharesAreBuckets(t, w, rel.sel);
    assert ReleaseOk(t, w.store, rel);
    assert (set b | b in order) == SpanFor(t.cfg, rel.sel);
    FlatFold(t.cfg, t.sha, rel.sel, part, ForPart(w.accepted, part), order, t.sh);
  }

  /** Whatever happens later, a released bucket keeps its log and its flag. */
  lemma {:induction false} ReleasedIsFinal(t: Task, events: seq<Event>, more: seq<Event>, i: nat, b: Bucket)
    requires t.cfg.Valid() && forall k | 0 <= k < |events| :: GoodEvent(t, events[k])
    requires i < |RunWorld(t, events).releases| && b in SpanFor(t.cfg, RunWorld(t, events).releases[i].sel)
    ensures var before, after := Lookup(RunWorld(t, events).store, b), Lookup(RunWorld(t, events + more).store, b);
            before.collected && after.collected && after.log == before.log
  {
    if more == [] {
      assert events + more == events;
      ReleasedIsCollected(t, events, i, b);
    } else {
      var init, last := more[..|more| - 1], more[|more| - 1];
      assert more == init + [last] by { LastSplit(more); }
      RunMore(t, events, init, last);
      ReleasedIsFinal(t, events, init, i, b);
      CollectedStays(t, RunWorld(t, events + init), last, b);
    }
  }

  lemma LastSplit<T>(s: seq<T>)
    requires s != []
    ensures s == s[..|s| - 1] + [s[|s| - 1]]
  {
  }

  lemma {:induction false} RunMore(t: Task, events: seq<Event>, more: seq<Event>, e: Event)
    requires t.cfg.Valid()
    ensures RunWorld(t, events + (more + [e])) == StepWorld(t, RunWorld(t, events + more), e)
  {
    var all := events + (more + [e]);
    assert all[..|all| - 1] == events + more && all[|all| - 1] == e;
  }

  lemma {:induction false} ReleasedIsCollected(t: Task, events: seq<Event>, i: nat, b: Bucket)
    requires t.cfg.Valid() && forall k | 0 <= k < |events| :: GoodEvent(t, events[k])
    requires i < |RunWorld(t, events).releases| && b in SpanFor(t.cfg, RunWorld(t, events).releases[i].sel)
    ensures Lookup(RunWorld(t, events).store, b).collected
  {
    RunSafe(t, events);
    var w := RunWorld(t, events);
    assert ReleaseOk(t, w.store, w.releases[i]);
  }

  lemma CollectedStays(t: Task, w: World, e: Event, b: Bucket)
    requires t.cfg.Valid() && Lookup(w.store, b).collected
    ensures var st := Lookup(StepWorld(t, w, e).store, b);
            st.collected && st.log == Lookup(w.store, b).log
  {
    if e.CollectEvent? {
      MarkLookup(w.store, SpanFor(t.cfg, e.req.sel), b);
    }
  }
}
