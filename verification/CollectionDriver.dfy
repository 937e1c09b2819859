/** Collection as it is executed: requests to all buckets of a span, in whatever order. */
module CollectionDriver {
  import opened Wrappers
  import opened AggShare
  import opened Buckets
  import opened HelperJob
  import opened HelperCommit
  import opened Collection

  /** Whether some bucket of the span has been collected. */
  method IsBatchOverlapping(stores: BucketStores, span: set<Bucket>) returns (r: bool)
    requires stores.Valid()
    ensures r <==> Overlapping(stores.store, span)
  {
    var todo := span;
    while todo != {}
      invariant todo <= span && !Overlapping(stores.store, span - todo)
      decreases todo
    {
      var b :| b in todo;
      stores.CellRepresents(b);
      if stores.CellOf(b).collected {
        return true;
      }
      todo := todo - {b};
    }
    assert span - {} == span;
    return false;
  }

  /** Whether some bucket of the span holds a report. */
  method IsBatchNonempty(stores: BucketStores, span: set<Bucket>) returns (r: bool)
    requires stores.Valid()
    ensures r <==> BatchExists(stores.store, span)
  {
    var todo := span;
    while todo != {}
      invariant todo <= span && !BatchExists(stores.store, span - todo)
      decreases todo
    {
      var b :| b in todo;
      stores.CellRepresents(b);
      if stores.CellOf(b).share.count != 0 {
        return true;
      }
      todo := todo - {b};
    }
    assert span - {} == span;
    return false;
  }

  lemma ValidShaped(stores: BucketStores)
    requires stores.Valid()
    ensures ShapedStore(stores.store, stores.sh)
  {
  }

  lemma DrawnNext(span: set<Bucket>, todo: set<Bucket>, order: seq<Bucket>, b: Bucket)
    requires todo <= span && Orders(span - todo, order) && b in todo
    ensures Orders(span - (todo - {b}), order + [b])
  {
    assert b !in order;
    assert span - (todo - {b}) == (span - todo) + {b};
  }

  /** The total of the shares of a span, merged as they arrive. */
  method GetAggShare(stores: BucketStores, span: set<Bucket>) returns (total: Share)
    requires stores.Valid()
    ensures ShapedStore(stores.store, stores.sh) && SpanTotal(stores.sha, stores.sh, stores.store, span) == Ok(total)
  {
    ValidShaped(stores);
    total := EMPTY;
    var todo := span;
    ghost var order: seq<Bucket> := [];
    while todo != {}
      invariant todo <= span && Orders(span - todo, order) && Shaped(total, stores.sh)
      invariant MergeAll(SharesOf(stores.sha, stores.sh, stores.store, order)) == Ok(total)
      decreases todo
    {
      var b :| b in todo;
      stores.CellRepresents(b);
      DrawnNext(span, todo, order, b);
      MergeNext(stores.sha, stores.sh, stores.store, order, b);
      JoinShaped(total, BucketShare(stores.sha, stores.sh, stores.store, b), stores.sh);
      var merged := MergeInto(total, stores.CellOf(b).share);
      total, order, todo := merged.value, order + [b], todo - {b};
    }
    assert span - {} == span;
    OrderIrrelevant(stores.sha, stores.sh, stores.store, span, order, SomeOrder(span));
  }

  method MarkCollected(stores: BucketStores, span: set<Bucket>)
    requires stores.Valid()
    modifies stores
    ensures stores.Valid() && stores.store == MarkSpan(old(stores.store), span)
  {
    var todo := span;
    while todo != {}
      invariant todo <= span && stores.Valid() && stores.store == MarkSpan(old(stores.store), span - todo)
      decreases todo
    {
      var b :| b in todo;
      MarkNext(old(stores.store), span - todo, b);
      stores.MarkCollected(b);
      assert span - (todo - {b}) == (span - todo) + {b};
      todo := todo - {b};
    }
    assert span - {} == span;
  }

  lemma MarkNext(store: Store, span: set<Bucket>, b: Bucket)
    ensures MarkSpan(store, span + {b})
         == MarkSpan(store, span)[b := Lookup(MarkSpan(store, span), b).(collected := true)]
  {
  }

  /** Check the boundaries of the batch and that it is apart from what has been collected. */
  method CheckBatchRequest(stores: BucketStores, cfg: TaskConfig, limits: Limits, req: AggShareReq, now: nat)
    returns (r: Result<set<Bucket>>, reason: Option<Abort>)
    requires stores.Valid() && cfg.Valid()
    ensures reason == CheckBatch(cfg, limits, stores.store, req, now)
    ensures reason.None? ==> r == Ok(SpanFor(cfg, req.sel))
  {
    r := Err;
    if !req.aggParamValid {
      return r, Some(InvalidAggParam);
    }
    r := BatchSpanForSel(cfg, req.sel);
    if r.Err? {
      return r, Some(QueryMismatch);
    }
    match req.sel {
      case SelInterval(start, duration) => reason := CheckInterval(cfg, limits, start, duration, now);
      case SelBatchId(_) =>
        var nonempty := IsBatchNonempty(stores, r.value);
        reason := if nonempty then None else Some(BatchInvalid);
    }
    if reason.Some? {
      return;
    }
    var overlapping := IsBatchOverlapping(stores, r.value);
    reason := if overlapping then Some(BatchOverlap) else None;
  }

  /** Answer an aggregate-share request. */
  method HandleAggShareReq(stores: BucketStores, cfg: TaskConfig, limits: Limits, req: AggShareReq, now: nat)
    returns (answer: Answer)
    requires stores.Valid() && cfg.Valid()
    modifies stores
    ensures stores.Valid() && ShapedStore(old(stores.store), stores.sh)
    ensures answer == AnswerTo(cfg, limits, stores.sha, stores.sh, old(stores.store), req, now)
    ensures stores.store == if answer.Granted? then MarkSpan(old(stores.store), SpanFor(cfg, req.sel))
                            else old(stores.store)
  {
    ValidShaped(stores);
    var span, reason := CheckBatchRequest(stores, cfg, limits, req, now);
    if reason.Some? {
      return Aborted(reason.value);
    }
    var total := GetAggShare(stores, span.value);
    if req.count != total.count || req.checksum != total.checksum {
      return Aborted(BatchMismatch);
    }
    if IsReportCountCompatible(cfg, total.count) != Ok(true) {
      return Aborted(InvalidBatchSize);
    }
    MarkCollected(stores, span.value);
    answer := Granted(total);
  }
}
