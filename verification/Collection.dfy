/**
Collection by the Helper: when an aggregate-share request is granted, what it releases and
what it marks as collected; and what this guarantees over every sequential run of merges and
requests of a task.
*/
module Collection {
  import opened Wrappers
  import opened AggShare
  import opened Buckets
  import opened BucketStore
  import opened HelperJob

  datatype Limits = Limits(maxBatchDuration: nat, minBatchIntervalStart: nat, maxBatchIntervalEnd: nat)

  datatype AggShareReq = AggShareReq(sel: BatchSelector, aggParamValid: bool, count: nat, checksum: Digest)

  datatype Abort =
    | InvalidAggParam | BatchInvalid | BadRequest | QueryMismatch
    | BatchOverlap | BatchMismatch | InvalidBatchSize | FatalError

  datatype Answer = Granted(share: Share) | Aborted(reason: Abort)

  // ---- Checks

  function AbsDiff(a: nat, b: nat): nat {
    if a < b then b - a else a - b
  }

  /** Whether the boundaries of a time interval are acceptable. */
  function CheckInterval(cfg: TaskConfig, limits: Limits, start: nat, duration: nat, now: nat): Option<Abort>
    requires cfg.Valid()
  {
    if start % cfg.timePrecision != 0 || duration % cfg.timePrecision != 0 || duration < cfg.timePrecision then
      Some(BatchInvalid)
    else if duration > limits.maxBatchDuration then Some(BadRequest)
    else if AbsDiff(now, start) > limits.minBatchIntervalStart then Some(BadRequest)
    else if AbsDiff(now, start + duration) > limits.maxBatchIntervalEnd then Some(BadRequest)
    else None
  }

  ghost predicate Overlapping(store: Store, span: set<Bucket>) {
    exists b :: b in span && Lookup(store, b).collected
  }

  ghost predicate BatchExists(store: Store, span: set<Bucket>) {
    exists b :: b in span && Lookup(store, b).log != []
  }

  /** Whether the batch is well formed and apart from what has been collected. */
  ghost function CheckBatch(cfg: TaskConfig, limits: Limits, store: Store, req: AggShareReq, now: nat): Option<Abort>
    requires cfg.Valid()
  {
    var span := SpanFor(cfg, req.sel);
    if !req.aggParamValid then Some(InvalidAggParam)
    else if !cfg.IsValidBatchSel(req.sel) then Some(QueryMismatch)
    else
      var boundaries :=
        match req.sel
        case SelInterval(start, duration) => CheckInterval(cfg, limits, start, duration, now)
        case SelBatchId(_) => if BatchExists(store, span) then None else Some(BatchInvalid);
      if boundaries.Some? then boundaries
      else if Overlapping(store, span) then Some(BatchOverlap)
      else None
  }

  /** An error if the count is too large, otherwise whether it is large enough. */
  function IsReportCountCompatible(cfg: TaskConfig, count: nat): Result<bool> {
    match cfg.query
    case QueryFixedSize(Some(max)) => if count > max then Err else Ok(count >= cfg.minBatchSize)
    case _ => Ok(count >= cfg.minBatchSize)
  }

  // ---- One request

  ghost predicate ShapedStore(store: Store, sh: Shape) {
    forall b | b in store :: AllShaped(Reports(store[b].log), sh)
  }

  ghost function BucketShare(sha: Sha, sh: Shape, store: Store, b: Bucket): Share
    requires ShapedStore(store, sh)
  {
    Fold(sha, Reports(Lookup(store, b).log), sh)
  }

  /** The shares of buckets, in the order in which they arrive. */
  ghost function SharesOf(sha: Sha, sh: Shape, store: Store, order: seq<Bucket>): (shares: seq<Share>)
    requires ShapedStore(store, sh)
    ensures |shares| == |order|
  {
    seq(|order|, i requires 0 <= i < |order| => BucketShare(sha, sh, store, order[i]))
  }

  ghost function MarkSpan(store: Store, span: set<Bucket>): Store {
    map b | b in store.Keys + span :: if b in span then Lookup(store, b).(collected := true) else Lookup(store, b)
  }

  lemma MarkLookup(store: Store, span: set<Bucket>, b: Bucket)
    ensures Lookup(MarkSpan(store, span), b)
         == if b in span then Lookup(store, b).(collected := true) else Lookup(store, b)
  {
  }

  /** The sequence lists each bucket of the span once. */
  ghost predicate Orders(span: set<Bucket>, order: seq<Bucket>) {
    Distinct(order) && forall b :: b in order <==> b in span
  }

  ghost function SomeOrder(span: set<Bucket>): (order: seq<Bucket>)
    ensures Orders(span, order)
  {
    if span == {} then [] else var b :| b in span; SomeOrder(span - {b}) + [b]
  }

  /** The total of the shares of a span. */
  ghost function SpanTotal(sha: Sha, sh: Shape, store: Store, span: set<Bucket>): Result<Share>
    requires ShapedStore(store, sh)
  {
    MergeAll(SharesOf(sha, sh, store, SomeOrder(span)))
  }

  lemma {:induction false} TotalShaped(sha: Sha, sh: Shape, store: Store, order: seq<Bucket>)
    requires ShapedStore(store, sh)
    ensures MergeAll(SharesOf(sha, sh, store, order)).Ok?
    ensures AggShare.Shaped(MergeAll(SharesOf(sha, sh, store, order)).value, sh)
  {
    if order != [] {
      var init, b := order[..|order| - 1], order[|order| - 1];
      TotalShaped(sha, sh, store, init);
      MergeNext(sha, sh, store, init, b);
      assert order == init + [b];
      JoinShaped(MergeAll(SharesOf(sha, sh, store, init)).value, BucketShare(sha, sh, store, b), sh);
    }
  }

  lemma MergeNext(sha: Sha, sh: Shape, store: Store, order: seq<Bucket>, b: Bucket)
    requires ShapedStore(store, sh)
    ensures MergeAll(SharesOf(sha, sh, store, order + [b]))
         == match MergeAll(SharesOf(sha, sh, store, order))
            case Ok(total) => Merge(total, BucketShare(sha, sh, store, b))
            case Err => Err
  {
    var shares := SharesOf(sha, sh, store, order + [b]);
    assert shares[..|shares| - 1] == SharesOf(sha, sh, store, order);
  }

  /** The total with one bucket put last. */
  lemma {:induction false} TotalRemove(sha: Sha, sh: Shape, store: Store, order: seq<Bucket>, k: nat)
    requires ShapedStore(store, sh) && k < |order|
    ensures MergeAll(SharesOf(sha, sh, store, order))
         == MergeAll(SharesOf(sha, sh, store, order[..k] + order[k + 1..] + [order[k]]))
  {
    var n := |order| - 1;
    var init, b := order[..n], order[n];
    if k == n {
      assert order[..k] + order[k + 1..] + [order[k]] == order;
    } else {
      var rest, x := init[..k] + init[k + 1..], order[k];
      TotalRemove(sha, sh, store, init, k);
      RemoveLast(order, k);
      MergeNext(sha, sh, store, init, b);
      MergeNext(sha, sh, store, rest + [x], b);
      LastTwo(sha, sh, store, rest, x, b);
    }
  }

  lemma RemoveLast<T>(order: seq<T>, k: nat)
    requires k < |order| - 1
    ensures var n := |order| - 1;
            && order == order[..n] + [order[n]] && order[..n][k] == order[k]
            && order[..k] + order[k + 1..] == order[..n][..k] + order[..n][k + 1..] + [order[n]]
  {
  }

  lemma LastTwo(sha: Sha, sh: Shape, store: Store, rest: seq<Bucket>, x: Bucket, y: Bucket)
    requires ShapedStore(store, sh)
    ensures MergeAll(SharesOf(sha, sh, store, rest + [x] + [y])) == MergeAll(SharesOf(sha, sh, store, rest + [y] + [x]))
  {
    TotalShaped(sha, sh, store, rest);
    MergeNext(sha, sh, store, rest, x);
    MergeNext(sha, sh, store, rest + [x], y);
    MergeNext(sha, sh, store, rest, y);
    MergeNext(sha, sh, store, rest + [y], x);
    SwapLast(MergeAll(SharesOf(sha, sh, store, rest)).value, BucketShare(sha, sh, store, x),
             BucketShare(sha, sh, store, y), sh);
  }

  lemma SwapLast(a: Share, b: Share, c: Share, sh: Shape)
    requires AggShare.Shaped(a, sh) && AggShare.Shaped(b, sh) && AggShare.Shaped(c, sh)
    ensures Merge(a, b).Ok? && Merge(a, c).Ok? && Merge(Merge(a, b).value, c) == Merge(Merge(a, c).value, b)
  {
    JoinAssoc(a, b, c, sh);
    JoinAssoc(a, c, b, sh);
    JoinSwap(a, b, c, sh);
  }

  lemma {:induction false} OrdersLen(span: set<Bucket>, order: seq<Bucket>)
    requires Orders(span, order)
    ensures |order| == |span|
  {
    if order == [] {
      assert span == {};
    } else {
      Without(span, order, |order| - 1);
      assert order[..|order| - 1] + order[|order|..] == order[..|order| - 1];
      OrdersLen(span - {order[|order| - 1]}, order[..|order| - 1]);
    }
  }

  lemma Without(span: set<Bucket>, order: seq<Bucket>, k: nat)
    requires Orders(span, order) && k < |order|
    ensures order[k] in span && Orders(span - {order[k]}, order[..k] + order[k + 1..])
  {
    var rest := order[..k] + order[k + 1..];
    assert order[k] in order;
    forall b | b in span - {order[k]} ensures b in rest {
      var j :| 0 <= j < |order| && order[j] == b;
      assert rest[if j < k then j else j - 1] == b;
    }
    forall b | b in rest ensures b in span - {order[k]} {
      var j :| 0 <= j < |rest| && rest[j] == b;
      assert order[if j < k then j else j + 1] == b;
    }
  }

  /** In whatever order the shares of a span arrive, their total is the same. */
  lemma {:induction false} OrderIrrelevant(sha: Sha, sh: Shape, store: Store, span: set<Bucket>, x: seq<Bucket>,
                                           y: seq<Bucket>)
    requires ShapedStore(store, sh) && Orders(span, x) && Orders(span, y)
    ensures MergeAll(SharesOf(sha, sh, store, x)) == MergeAll(SharesOf(sha, sh, store, y))
    decreases |x|
  {
    OrdersLen(span, x);
    OrdersLen(span, y);
    if x != [] {
      var n := |x| - 1;
      var b := x[n];
      Without(span, x, n);
      assert x[..n] + x[n + 1..] == x[..n] && x == x[..n] + [b];
      var k :| 0 <= k < |y| && y[k] == b;
      Without(span, y, k);
      var rest := y[..k] + y[k + 1..];
      OrderIrrelevant(sha, sh, store, span - {b}, x[..n], rest);
      TotalRemove(sha, sh, store, y, k);
      MergeNext(sha, sh, store, x[..n], b);
      MergeNext(sha, sh, store, rest, b);
    }
  }

  /** The answer to an aggregate-share request. */
  ghost function AnswerTo(cfg: TaskConfig, limits: Limits, sha: Sha, sh: Shape, store: Store, req: AggShareReq,
                          now: nat): Answer
    requires cfg.Valid() && ShapedStore(store, sh)
  {
    match CheckBatch(cfg, limits, store, req, now)
    case Some(reason) => Aborted(reason)
    case None =>
      match SpanTotal(sha, sh, store, SpanFor(cfg, req.sel))
      case Err => Aborted(FatalError)
      case Ok(total) =>
        if req.count != total.count || req.checksum != total.checksum then Aborted(BatchMismatch)
        else if IsReportCountCompatible(cfg, total.count) != Ok(true) then Aborted(InvalidBatchSize)
        else Granted(total)
  }

  // ---- Runs

  /** A merge of reports into a bucket by a job, or an aggregate-share request. */
  datatype Event =
    | MergeEvent(part: PartialBatchSelector, bucket: Bucket, job: nat, reports: seq<Report>)
    | CollectEvent(req: AggShareReq, now: nat)

  datatype Release = Release(sel: BatchSelector, share: Share)

  /** The buckets, the reports ever accepted with the partial selector of their job, and what was released. */
  datatype World = World(store: Store, accepted: seq<(PartialBatchSelector, Report)>, releases: seq<Release>)

  /** A task as the Helper runs it. */
  datatype Task = Task(kind: StoreKind, cfg: TaskConfig, limits: Limits, sha: Sha, sh: Shape)

  const START: World := World(map[], [], [])

  ghost predicate GoodEvent(t: Task, e: Event)
    requires t.cfg.Valid()
  {
    match e
    case MergeEvent(part, b, _, rs) =>
      AllShaped(rs, t.sh) && forall r | r in rs :: BucketOf(t.cfg, t.sha, part, r.id, r.time) == b
    case CollectEvent(_, _) => true
  }

  function Tag(part: PartialBatchSelector, rs: seq<Report>): (ps: seq<(PartialBatchSelector, Report)>)
    ensures |ps| == |rs|
  {
    seq(|rs|, i requires 0 <= i < |rs| => (part, rs[i]))
  }

  ghost function StepWorld(t: Task, w: World, e: Event): World
    requires t.cfg.Valid()
  {
    match e
    case MergeEvent(part, b, job, rs) =>
      var st := Lookup(w.store, b);
      World(w.store[b := BucketMerge(t.kind, st, job, rs).0],
            if Commits(st, rs) then w.accepted + Tag(part, rs) else w.accepted,
            w.releases)
    case CollectEvent(req, now) =>
      if !ShapedStore(w.store, t.sh) then w
      else
        match AnswerTo(t.cfg, t.limits, t.sha, t.sh, w.store, req, now)
        case Aborted(_) => w
        case Granted(share) =>
          World(MarkSpan(w.store, SpanFor(t.cfg, req.sel)), w.accepted, w.releases + [Release(req.sel, share)])
  }

  ghost function RunWorld(t: Task, events: seq<Event>): World
    requires t.cfg.Valid()
  {
    if events == [] then START else StepWorld(t, RunWorld(t, events[..|events| - 1]), events[|events| - 1])
  }
}
