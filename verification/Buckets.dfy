/**
Buckets: the smallest sets of reports that can be queried. A report is assigned to the
bucket of its time window, or of its batch, and of a shard derived from its ID; a batch
selector expands to a set of buckets. The sharded index agrees with one flat fold over
the reports that match the selector.
*/
module Buckets {
  import opened Wrappers
  import opened Arithmetic
  import opened Bytes
  import opened AggShare

  type BatchId = s: seq<Byte> | |s| == 32 witness ZERO_DIGEST

  datatype Bucket =
    | FixedSize(batchId: BatchId, shard: nat)
    | TimeInterval(window: nat, shard: nat)

  datatype QueryConfig = QueryTimeInterval | QueryFixedSize(maxBatchSize: Option<nat>)

  datatype PartialBatchSelector = PartTimeInterval | PartBatchId(batchId: BatchId)

  datatype BatchSelector = SelInterval(start: nat, duration: nat) | SelBatchId(batchId: BatchId)

  datatype TaskConfig = TaskConfig(query: QueryConfig, timePrecision: nat, numShards: nat, minBatchSize: nat) {
    ghost predicate Valid() {
      timePrecision > 0 && numShards > 0
    }

    predicate IsValidPartBatchSel(part: PartialBatchSelector) {
      query.QueryTimeInterval? == part.PartTimeInterval?
    }

    predicate IsValidBatchSel(sel: BatchSelector) {
      query.QueryTimeInterval? == sel.SelInterval?
    }

    /** The greatest multiple of the time precision that is at most `time`. */
    function QuantizedTimeLowerBound(time: nat): (w: nat)
      requires Valid()
    {
      time - time % timePrecision
    }
  }

  /** Shard of a report ID: the first four digest bytes, little-endian, modulo the number of shards. */
  function ShardOf(sha: Sha, id: ReportId, numShards: nat): nat
    requires numShards > 0
  {
    var d := sha(id);
    (d[0] + 256 * d[1] + 65536 * d[2] + 16777216 * d[3]) % numShards
  }

  /** The shard is the little-endian integer in the first four digest bytes, reduced. */
  lemma ShardExact(sha: Sha, id: ReportId, numShards: nat)
    requires numShards > 0
    ensures ShardOf(sha, id, numShards) == UintLeOf(sha(id)[..4]) % numShards < numShards
  {
    var d := sha(id);
    var s: seq<Byte> := d[..4];
    assert s[1..] == d[1..4] && d[1..4][1..] == d[2..4] && d[2..4][1..] == d[3..4] && d[3..4][1..] == [];
    assert UintLeOf(d[3..4]) == d[3];
    assert UintLeOf(d[2..4]) == d[2] as int + 256 * UintLeOf(d[3..4]);
    assert UintLeOf(d[1..4]) == d[1] as int + 256 * UintLeOf(d[2..4]);
  }

  function BucketOf(cfg: TaskConfig, sha: Sha, part: PartialBatchSelector, id: ReportId, time: nat): Bucket
    requires cfg.Valid()
  {
    var shard := ShardOf(sha, id, cfg.numShards);
    match part
    case PartTimeInterval => TimeInterval(cfg.QuantizedTimeLowerBound(time), shard)
    case PartBatchId(batchId) => FixedSize(batchId, shard)
  }

  // ---- Expansion of a batch selector

  /** The first `n` shards of a window. */
  ghost function Row(window: nat, n: nat): set<Bucket> {
    set s: nat | s < n :: TimeInterval(window, s)
  }

  /** The first `n` shards of a batch. */
  ghost function BatchRow(batchId: BatchId, n: nat): set<Bucket> {
    set s: nat | s < n :: FixedSize(batchId, s)
  }

  lemma {:induction false} RowSize(window: nat, batchId: BatchId, n: nat)
    ensures |Row(window, n)| == n && |BatchRow(batchId, n)| == n
  {
    if n > 0 {
      RowSize(window, batchId, n - 1);
      RowNext(window, batchId, n - 1);
    }
  }

  lemma RowNext(window: nat, batchId: BatchId, n: nat)
    ensures TimeInterval(window, n) !in Row(window, n) && FixedSize(batchId, n) !in BatchRow(batchId, n)
    ensures Row(window, n + 1) == Row(window, n) + {TimeInterval(window, n)}
    ensures BatchRow(batchId, n + 1) == BatchRow(batchId, n) + {FixedSize(batchId, n)}
  {
  }

  /** `w` is one of the first `k` windows from `start`. */
  ghost predicate IsWindow(tp: nat, start: nat, k: nat, w: nat) {
    k > 0 && (w == start + Times(k - 1, tp) || IsWindow(tp, start, k - 1, w))
  }

  ghost function IntervalSpan(tp: nat, start: nat, k: nat, n: nat): set<Bucket> {
    if k == 0 then {} else IntervalSpan(tp, start, k - 1, n) + Row(start + Times(k - 1, tp), n)
  }

  lemma {:induction false} InIntervalSpan(tp: nat, start: nat, k: nat, n: nat, b: Bucket)
    ensures b in IntervalSpan(tp, start, k, n) <==> b.TimeInterval? && b.shard < n && IsWindow(tp, start, k, b.window)
  {
    if k > 0 {
      InIntervalSpan(tp, start, k - 1, n, b);
    }
  }

  lemma {:induction false} WindowBefore(tp: nat, start: nat, k: nat, w: nat)
    requires tp > 0 && IsWindow(tp, start, k, w)
    ensures w < start + Times(k, tp)
  {
    if w != start + Times(k - 1, tp) {
      WindowBefore(tp, start, k - 1, w);
    }
  }

  lemma {:induction false} IntervalSpanSize(tp: nat, start: nat, k: nat, n: nat)
    requires tp > 0
    ensures |IntervalSpan(tp, start, k, n)| == Times(k, n)
  {
    if k > 0 {
      var before, row := IntervalSpan(tp, start, k - 1, n), Row(start + Times(k - 1, tp), n);
      assert IntervalSpan(tp, start, k, n) == before + row;
      IntervalSpanSize(tp, start, k - 1, n);
      RowFresh(tp, start, k - 1, n);
      RowSize(start + Times(k - 1, tp), ZERO_DIGEST, n);
      DisjointCard(before, row);
    }
  }

  lemma DisjointCard<T>(a: set<T>, b: set<T>)
    requires a !! b
    ensures |a + b| == |a| + |b|
  {
  }

  lemma {:induction false} RowFresh(tp: nat, start: nat, k: nat, n: nat)
    requires tp > 0
    ensures IntervalSpan(tp, start, k, n) !! Row(start + Times(k, tp), n)
  {
    var before, row := IntervalSpan(tp, start, k, n), Row(start + Times(k, tp), n);
    forall b | b in before ensures b !in row {
      InIntervalSpan(tp, start, k, n, b);
      WindowBefore(tp, start, k, b.window);
    }
  }

  /** Every bucket a report that matches the selector could be assigned to. */
  ghost function SpanFor(cfg: TaskConfig, sel: BatchSelector): set<Bucket>
    requires cfg.Valid()
  {
    match sel
    case SelInterval(start, duration) =>
      IntervalSpan(cfg.timePrecision, start, duration / cfg.timePrecision, cfg.numShards)
    case SelBatchId(batchId) => BatchRow(batchId, cfg.numShards)
  }

  method BatchSpanForSel(cfg: TaskConfig, sel: BatchSelector) returns (r: Result<set<Bucket>>)
    requires cfg.Valid()
    ensures r == if cfg.IsValidBatchSel(sel) then Ok(SpanFor(cfg, sel)) else Err
  {
    if !cfg.IsValidBatchSel(sel) {
      return Err;
    }
    var span: set<Bucket> := {};
    match sel {
      case SelInterval(start, duration) =>
        var windows := duration / cfg.timePrecision;
        var window := start;
        for i := 0 to windows
          invariant window == start + Times(i, cfg.timePrecision)
          invariant span == IntervalSpan(cfg.timePrecision, start, i, cfg.numShards)
        {
          var row := InsertShards(span, window, cfg.numShards);
          span := row;
          window := window + cfg.timePrecision;
        }
      case SelBatchId(batchId) =>
        for shard := 0 to cfg.numShards
          invariant span == BatchRow(batchId, shard)
        {
          span := span + {FixedSize(batchId, shard)};
        }
    }
    return Ok(span);
  }

  /** Insert every shard of one window. */
  method InsertShards(span: set<Bucket>, window: nat, numShards: nat) returns (span': set<Bucket>)
    ensures span' == span + Row(window, numShards)
  {
    span' := span;
    for shard := 0 to numShards
      invariant span' == span + Row(window, shard)
    {
      span' := span' + {TimeInterval(window, shard)};
    }
  }

  // ---- Cover

  /** The interval starts and ends on multiples of the time precision. */
  ghost predicate Aligned(cfg: TaskConfig, sel: BatchSelector)
    requires cfg.Valid()
  {
    sel.SelInterval? ==> sel.start % cfg.timePrecision == 0 && sel.duration % cfg.timePrecision == 0
  }

  /** Reports that a selector is meant to select, given how they were assigned. */
  predicate Matches(sel: BatchSelector, part: PartialBatchSelector, time: nat) {
    match (sel, part)
    case (SelInterval(start, duration), PartTimeInterval) => start <= time < start + duration
    case (SelBatchId(a), PartBatchId(b)) => a == b
    case _ => false
  }

  /** A point lies between multiples exactly when its quotient lies between the factors. */
  lemma BetweenMultiples(tp: nat, s: nat, e: nat, a: nat, r: nat)
    requires r < tp
    ensures s * tp <= a * tp + r <==> s <= a
    ensures a * tp + r < e * tp <==> a < e
  {
    NextMultiple(a, tp);
    if s <= a { MulLe(s, a, tp); } else { MulLe(a + 1, s, tp); }
    if a < e { MulLe(a + 1, e, tp); } else { MulLe(e, a, tp); }
  }

  lemma NextMultiple(a: nat, tp: nat)
    ensures (a + 1) * tp == a * tp + tp
  {
  }

  lemma SumOfMultiples(a: nat, b: nat, tp: nat)
    ensures a * tp + b * tp == (a + b) * tp
  {
  }

  lemma SameMultiple(tp: nat, e: nat, a: nat)
    requires tp > 0
    ensures a * tp == e * tp <==> a == e
  {
    BetweenMultiples(tp, e, e + 1, a, 0);
    NextMultiple(e, tp);
  }

  lemma {:induction false} WindowIndex(tp: nat, s: nat, k: nat, a: nat)
    requires tp > 0
    ensures IsWindow(tp, s * tp, k, a * tp) <==> s <= a < s + k
  {
    if k > 0 {
      WindowIndex(tp, s, k - 1, a);
      TimesIsProduct(k - 1, tp);
      var e := s + k - 1;
      SumOfMultiples(s, k - 1, tp);
      SameMultiple(tp, e, a);
    }
  }

  lemma {:induction false} WindowCoverAt(tp: nat, s: nat, k: nat, a: nat, r: nat)
    requires r < tp
    ensures IsWindow(tp, s * tp, k, a * tp) <==> s * tp <= a * tp + r < s * tp + k * tp
  {
    SumOfMultiples(s, k, tp);
    WindowIndex(tp, s, k, a);
    BetweenMultiples(tp, s, s + k, a, r);
  }

  function Quot(x: nat, tp: nat): (q: nat)
    requires tp > 0
  {
    x / tp
  }

  lemma QuotRem(tp: nat, x: nat)
    requires tp > 0
    ensures (x / tp) * tp == x - x % tp
  {
  }

  lemma {:induction false} WindowCover(tp: nat, start: nat, duration: nat, time: nat)
    requires tp > 0 && start % tp == 0 && duration % tp == 0
    ensures IsWindow(tp, start, duration / tp, time - time % tp) <==> start <= time < start + duration
  {
    var s: nat, k: nat, a: nat, r: nat := Quot(start, tp), Quot(duration, tp), Quot(time, tp), time % tp;
    assert start == s * tp by { QuotRem(tp, start); }
    assert duration == k * tp by { QuotRem(tp, duration); }
    assert time == a * tp + r by { QuotRem(tp, time); }
    WindowCoverWith(tp, start, duration, time, s, k, a, r);
  }

  lemma WindowCoverWith(tp: nat, start: nat, duration: nat, time: nat, s: nat, k: nat, a: nat, r: nat)
    requires r < tp && start == s * tp && duration == k * tp && time == a * tp + r
    ensures IsWindow(tp, start, k, time - r) <==> start <= time < start + duration
  {
    WindowCoverAt(tp, s, k, a, r);
  }

  /** Time intervals are selected of tasks with time intervals, batches of tasks with batches. */
  lemma SelectorsFit(cfg: TaskConfig, sel: BatchSelector, part: PartialBatchSelector)
    ensures cfg.IsValidBatchSel(sel) <==> if cfg.query.QueryTimeInterval? then sel.SelInterval? else sel.SelBatchId?
    ensures cfg.IsValidPartBatchSel(part)
       <==> if cfg.query.QueryTimeInterval? then part.PartTimeInterval? else part.PartBatchId?
  {
  }

  /** For an aligned selector, the span contains a report's bucket exactly when the report matches. */
  lemma BucketCover(cfg: TaskConfig, sha: Sha, sel: BatchSelector, part: PartialBatchSelector, id: ReportId, time: nat)
    requires cfg.Valid() && Aligned(cfg, sel)
    ensures BucketOf(cfg, sha, part, id, time) in SpanFor(cfg, sel) <==> Matches(sel, part, time)
  {
    if sel.SelInterval? {
      InIntervalSpan(cfg.timePrecision, sel.start, sel.duration / cfg.timePrecision, cfg.numShards,
                     BucketOf(cfg, sha, part, id, time));
      if part.PartTimeInterval? {
        WindowCover(cfg.timePrecision, sel.start, sel.duration, time);
      }
    }
  }

  /** A selector spans one bucket per window, or batch, and shard. */
  lemma SpanSize(cfg: TaskConfig, sel: BatchSelector)
    requires cfg.Valid()
    ensures |SpanFor(cfg, sel)|
         == (if sel.SelInterval? then sel.duration / cfg.timePrecision else 1) * cfg.numShards
  {
    if sel.SelInterval? {
      IntervalSpanSize(cfg.timePrecision, sel.start, sel.duration / cfg.timePrecision, cfg.numShards);
      TimesIsProduct(sel.duration / cfg.timePrecision, cfg.numShards);
    } else {
      RowSize(0, sel.batchId, cfg.numShards);
    }
  }

  // ---- Flat folds

  ghost function Filter(rs: seq<Report>, keep: Report -> bool): (f: seq<Report>)
    ensures forall r {:trigger r in f} :: r in f <==> r in rs && keep(r)
  {
    if rs == [] then []
    else
      var last := rs[|rs| - 1];
      assert rs == rs[..|rs| - 1] + [last];
      Filter(rs[..|rs| - 1], keep) + if keep(last) then [last] else []
  }

  lemma {:induction false} FilterShaped(rs: seq<Report>, keep: Report -> bool, sh: Shape)
    requires AllShaped(rs, sh)
    ensures AllShaped(Filter(rs, keep), sh)
  {
    var f := Filter(rs, keep);
    forall i | 0 <= i < |f| ensures HasShape(f[i].data, sh) { assert f[i] in f; }
  }

  lemma {:induction false} FilterSame(rs: seq<Report>, p: Report -> bool, q: Report -> bool)
    requires forall r | r in rs :: p(r) == q(r)
    ensures Filter(rs, p) == Filter(rs, q)
  {
    if rs != [] {
      FilterSame(rs[..|rs| - 1], p, q);
      assert rs[|rs| - 1] in rs;
    }
  }

  /** The share of the reports kept by a predicate. */
  ghost function FoldWhere(sha: Sha, rs: seq<Report>, keep: Report -> bool, sh: Shape): (s: Share)
    requires AllShaped(rs, sh)
    ensures Shaped(s, sh)
  {
    FilterShaped(rs, keep, sh);
    Fold(sha, Filter(rs, keep), sh)
  }

  lemma FoldWhereStep(sha: Sha, rs: seq<Report>, keep: Report -> bool, sh: Shape)
    requires AllShaped(rs, sh) && rs != []
    ensures var init, last := rs[..|rs| - 1], rs[|rs| - 1];
            && AllShaped(init, sh)
            && FoldWhere(sha, rs, keep, sh)
               == if keep(last) then Join(FoldWhere(sha, init, keep, sh), One(sha, last))
                  else FoldWhere(sha, init, keep, sh)
  {
    var init, last := rs[..|rs| - 1], rs[|rs| - 1];
    FilterShaped(rs, keep, sh);
    FilterShaped(init, keep, sh);
    var f := Filter(rs, keep);
    if keep(last) {
      assert f[..|f| - 1] == Filter(init, keep);
    } else {
      assert f == Filter(init, keep);
    }
  }

  /** Swapping the last two factors of a product. */
  lemma JoinSwap(a: Share, b: Share, c: Share, sh: Shape)
    requires Shaped(a, sh) && Shaped(b, sh) && Shaped(c, sh)
    ensures Join(Join(a, b), c) == Join(Join(a, c), b)
  {
    JoinAssoc(a, b, c, sh);
    JoinAssoc(a, c, b, sh);
    JoinComm(b, c, sh);
  }

  /** The share of a disjoint union is the merge of the shares. */
  lemma {:induction false} FoldUnion(sha: Sha, rs: seq<Report>, p: Report -> bool, q: Report -> bool,
                                     either: Report -> bool, sh: Shape)
    requires AllShaped(rs, sh)
    requires forall r | r in rs :: !(p(r) && q(r)) && either(r) == (p(r) || q(r))
    ensures Mergeable(FoldWhere(sha, rs, p, sh).data, FoldWhere(sha, rs, q, sh).data)
    ensures FoldWhere(sha, rs, either, sh) == Join(FoldWhere(sha, rs, p, sh), FoldWhere(sha, rs, q, sh))
  {
    JoinShaped(FoldWhere(sha, rs, p, sh), FoldWhere(sha, rs, q, sh), sh);
    if rs == [] {
      JoinUnit(EMPTY, sh);
    } else {
      var init, last := rs[..|rs| - 1], rs[|rs| - 1];
      assert last in rs;
      FoldWhereStep(sha, rs, p, sh);
      FoldWhereStep(sha, rs, q, sh);
      FoldWhereStep(sha, rs, either, sh);
      FoldUnion(sha, init, p, q, either, sh);
      var a, b, c := FoldWhere(sha, init, p, sh), FoldWhere(sha, init, q, sh), One(sha, last);
      if p(last) {
        JoinSwap(a, b, c, sh);
      } else if q(last) {
        JoinAssoc(a, b, c, sh);
      }
    }
  }

  /** Merge shares in order, starting from the empty share. */
  ghost function MergeAll(shares: seq<Share>): Result<Share> {
    if shares == [] then Ok(EMPTY)
    else
      match MergeAll(shares[..|shares| - 1])
      case Err => Err
      case Ok(s) => Merge(s, shares[|shares| - 1])
  }

  ghost predicate Distinct<T>(xs: seq<T>) {
    forall i, j | 0 <= i < j < |xs| :: xs[i] != xs[j]
  }

  ghost function InBucket(cfg: TaskConfig, sha: Sha, part: PartialBatchSelector, b: Bucket): Report -> bool
    requires cfg.Valid()
  {
    (r: Report) => BucketOf(cfg, sha, part, r.id, r.time) == b
  }

  ghost function InBuckets(cfg: TaskConfig, sha: Sha, part: PartialBatchSelector, bs: seq<Bucket>): Report -> bool
    requires cfg.Valid()
  {
    (r: Report) => BucketOf(cfg, sha, part, r.id, r.time) in bs
  }

  ghost function Matching(sel: BatchSelector, part: PartialBatchSelector): Report -> bool {
    (r: Report) => Matches(sel, part, r.time)
  }

  /** The shares of the given buckets, in order. */
  ghost function BucketShares(cfg: TaskConfig, sha: Sha, part: PartialBatchSelector, rs: seq<Report>,
                              order: seq<Bucket>, sh: Shape)
    : (shares: seq<Share>)
    requires cfg.Valid() && AllShaped(rs, sh)
    ensures |shares| == |order|
  {
    seq(|order|, i requires 0 <= i < |order| =>
      FoldWhere(sha, rs, InBucket(cfg, sha, part, order[i]), sh))
  }

  /** Merging the shares of distinct buckets, in any order, is one fold over their reports. */
  lemma {:induction false} MergeBuckets(cfg: TaskConfig, sha: Sha, part: PartialBatchSelector, rs: seq<Report>,
                                        order: seq<Bucket>, sh: Shape)
    requires cfg.Valid() && AllShaped(rs, sh) && Distinct(order)
    ensures MergeAll(BucketShares(cfg, sha, part, rs, order, sh))
         == Ok(FoldWhere(sha, rs, InBuckets(cfg, sha, part, order), sh))
  {
    var shares := BucketShares(cfg, sha, part, rs, order, sh);
    if order == [] {
      NoBuckets(cfg, sha, part, rs, sh);
    } else {
      var init, b := order[..|order| - 1], order[|order| - 1];
      MergeBuckets(cfg, sha, part, rs, init, sh);
      assert shares[..|shares| - 1] == BucketShares(cfg, sha, part, rs, init, sh);
      OneMoreBucket(cfg, sha, part, rs, init, b, sh);
      assert order == init + [b];
    }
  }

  lemma NoBuckets(cfg: TaskConfig, sha: Sha, part: PartialBatchSelector, rs: seq<Report>, sh: Shape)
    requires cfg.Valid() && AllShaped(rs, sh)
    ensures FoldWhere(sha, rs, InBuckets(cfg, sha, part, []), sh) == EMPTY
  {
    FilterSame(rs, InBuckets(cfg, sha, part, []), (r: Report) => false);
    FilterNone(rs);
  }

  lemma OneMoreBucket(cfg: TaskConfig, sha: Sha, part: PartialBatchSelector, rs: seq<Report>, init: seq<Bucket>,
                      b: Bucket, sh: Shape)
    requires cfg.Valid() && AllShaped(rs, sh) && b !in init
    ensures Merge(FoldWhere(sha, rs, InBuckets(cfg, sha, part, init), sh),
                  FoldWhere(sha, rs, InBucket(cfg, sha, part, b), sh))
         == Ok(FoldWhere(sha, rs, InBuckets(cfg, sha, part, init + [b]), sh))
  {
    FoldUnion(sha, rs, InBuckets(cfg, sha, part, init), InBucket(cfg, sha, part, b),
              InBuckets(cfg, sha, part, init + [b]), sh);
  }

  lemma {:induction false} FilterNone(rs: seq<Report>)
    ensures Filter(rs, (r: Report) => false) == []
  {
    if rs != [] {
      FilterNone(rs[..|rs| - 1]);
    }
  }

  /**
  Flat-fold refinement: merging the shares of a selector's buckets, in any order, equals one
  fold over the reports that match the selector; in particular it does not depend on the
  number of shards.
  */
  lemma FlatFold(cfg: TaskConfig, sha: Sha, sel: BatchSelector, part: PartialBatchSelector, rs: seq<Report>,
                 order: seq<Bucket>, sh: Shape)
    requires cfg.Valid() && Aligned(cfg, sel) && AllShaped(rs, sh)
    requires Distinct(order) && (set b | b in order) == SpanFor(cfg, sel)
    ensures MergeAll(BucketShares(cfg, sha, part, rs, order, sh))
         == Ok(FoldWhere(sha, rs, Matching(sel, part), sh))
  {
    MergeBuckets(cfg, sha, part, rs, order, sh);
    var p := InBuckets(cfg, sha, part, order);
    var q := Matching(sel, part);
    forall r | r in rs ensures p(r) == q(r) {
      BucketCover(cfg, sha, sel, part, r.id, r.time);
      assert BucketOf(cfg, sha, part, r.id, r.time) in order <==> BucketOf(cfg, sha, part, r.id,
                                                                           r.time) in SpanFor(cfg, sel);
    }
    FilterSame(rs, p, q);
  }
}
