/** The retry loop of the Helper: its methods compute `HelperJob.JobRun`. */
module HelperFinish {
  import opened Wrappers
  import opened AggShare
  import opened Buckets
  import opened BucketStore
  import opened HelperJob
  import opened HelperTheorems
  import opened HelperLoop
  import opened HelperCommit

  // ---- Statuses after a pass

  /** The statuses that the result for one bucket adds. */
  function Additions(result: PutResult, entry: SpanEntry): StatusMap {
    match result
    case Put(Committed) => map id | id in IdsOf(entry.reports) :: Aggregated
    case Put(AlreadyCollected) => map id | id in IdsOf(entry.reports) :: Rejected(BatchCollected)
    case Put(ReplaysDetected(ids)) => map id | id in ids :: Rejected(ReportReplayed)
    case _ => map[]
  }

  /** How a status map stands to what a bucket's result says of a report. */
  ghost predicate Tells(result: PutResult, id: ReportId, status: StatusMap) {
    match StatusAfter(result, id)
    case Some(x) => id in status && status[id] == x
    case None => id !in status
  }

  lemma AdditionsTell(result: PutResult, f: seq<Report>, entry: SpanEntry)
    requires entry.reports == Metas(f)
    requires result.Put? && result.resp.ReplaysDetected? ==> result.resp.ids <= IdSet(f)
    ensures Additions(result, entry).Keys <= IdSet(f)
    ensures forall r | r in f :: Tells(result, r.id, Additions(result, entry))
  {
    IdsOfMetas(f);
    assert forall r | r in f :: r.id in IdSet(f);
  }

  /** The statuses once the results of the buckets `done` are taken into account. */
  ghost predicate StatusPart(c: Ctx, rs: seq<Report>, results: map<Bucket, PutResult>, status: StatusMap,
                             status': StatusMap, done: set<Bucket>)
    requires results.Keys == BucketsOf(c, rs)
  {
    && (forall id | id in status :: id in status' && status'[id] == status[id])
    && (forall id | id in status' :: id in status || id in IdSet(rs))
    && (forall r | r in rs :: ReportPart(c, rs, results, status', done, r))
  }

  ghost predicate ReportPart(c: Ctx, rs: seq<Report>, results: map<Bucket, PutResult>, status': StatusMap,
                             done: set<Bucket>, r: Report)
    requires results.Keys == BucketsOf(c, rs) && r in rs
  {
    if c.place(r.id, r.time) in done then Tells(results[c.place(r.id, r.time)], r.id, status') else r.id !in status'
  }

  lemma ReportPartStep(c: Ctx, rs: seq<Report>, results: map<Bucket, PutResult>, status': StatusMap, adds: StatusMap,
                       done: set<Bucket>, b: Bucket, r: Report)
    requires DistinctIds(rs) && results.Keys == BucketsOf(c, rs) && r in rs && b in results && b !in done
    requires ReportPart(c, rs, results, status', done, r)
    requires adds.Keys <= IdSet(InB(c, rs, b)) && forall x | x in InB(c, rs, b) :: Tells(results[b], x.id, adds)
    ensures ReportPart(c, rs, results, status' + adds, done + {b}, r)
  {
    if c.place(r.id, r.time) == b {
      assert r in InB(c, rs, b);
    } else if r.id in adds {
      var x :| x in InB(c, rs, b) && x.id == r.id;
      SameId(rs, x, r);
    }
  }

  lemma StatusPartStep(c: Ctx, rs: seq<Report>, results: map<Bucket, PutResult>, status: StatusMap, status': StatusMap,
                       adds: StatusMap, done: set<Bucket>, b: Bucket)
    requires DistinctIds(rs) && results.Keys == BucketsOf(c, rs) && b in results && b !in done
    requires forall r | r in rs :: r.id !in status
    requires StatusPart(c, rs, results, status, status', done)
    requires adds.Keys <= IdSet(InB(c, rs, b)) && forall x | x in InB(c, rs, b) :: Tells(results[b], x.id, adds)
    ensures StatusPart(c, rs, results, status, status' + adds, done + {b})
  {
    forall id | id in adds ensures id in IdSet(rs) && id !in status {
      var x :| x in InB(c, rs, b) && x.id == id;
    }
    forall r | r in rs ensures ReportPart(c, rs, results, status' + adds, done + {b}, r) {
      ReportPartStep(c, rs, results, status', adds, done, b, r);
    }
  }

  /** Once all results are taken into account, the statuses are those the specification gives. */
  lemma StatusWhole(c: Ctx, env: Env, rs: seq<Report>, store: Store, results: map<Bucket, PutResult>,
                    status: StatusMap, status': StatusMap)
    requires DistinctIds(rs) && results.Keys == BucketsOf(c, rs)
    requires forall b | b in results :: results[b] == PassResult(c, env, rs, store, b)
    requires forall r | r in rs :: r.id !in status
    requires StatusPart(c, rs, results, status, status', BucketsOf(c, rs))
    ensures status' == NextStatus(c, env, rs, store, status)
  {
    var next := NextStatus(c, env, rs, store, status);
    forall id ensures (id in status' <==> id in next) && (id in next ==> status'[id] == next[id]) {
      if id in IdSet(rs) {
        var r :| r in rs && r.id == id;
        assert c.place(r.id, r.time) in BucketsOf(c, rs);
        assert ReportPart(c, rs, results, status', BucketsOf(c, rs), r);
        ExtendOne(c, env, rs, store, status, rs, r);
      } else {
        ExtendOther(c, env, rs, store, status, rs, id);
      }
    }
  }

  /** Reports replayed in a bucket are among those sent to it; some report is always sent. */
  lemma ResultShape(c: Ctx, env: Env, rs: seq<Report>, store: Store, b: Bucket)
    requires b in BucketsOf(c, rs)
    ensures var result := PassResult(c, env, rs, store, b);
            && !result.PutNone?
            && (result.Put? && result.resp.ReplaysDetected? ==> result.resp.ids <= IdSet(InB(c, rs, b)))
  {
    InBEmpty(c, rs, b);
  }

  /** What the results of the buckets `done` say of the pass. */
  ghost predicate FlagsPart(c: Ctx, rs: seq<Report>, results: map<Bucket, PutResult>, done: set<Bucket>, restart: bool)
    requires results.Keys == BucketsOf(c, rs)
  {
    && (forall b | b in results && b in done :: !results[b].PutError?)
    && (restart <==> exists b :: b in results && b in done && results[b] != Put(Committed))
  }

  lemma FlagsWhole(c: Ctx, env: Env, rs: seq<Report>, store: Store, results: map<Bucket, PutResult>, restart: bool)
    requires results.Keys == BucketsOf(c, rs)
    requires forall b | b in results :: results[b] == PassResult(c, env, rs, store, b)
    requires FlagsPart(c, rs, results, BucketsOf(c, rs), restart)
    ensures !AnyError(c, env, rs, store) && (restart <==> !AllCommitted(c, env, rs, store))
  {
    forall r | r in rs ensures !ResultFor(c, env, rs, store, r).PutError? {
      assert c.place(r.id, r.time) in results;
    }
    if restart {
      var b :| b in results && results[b] != Put(Committed);
      var r :| r in rs && c.place(r.id, r.time) == b;
      assert ResultFor(c, env, rs, store, r) == results[b];
    } else {
      forall r | r in rs ensures ResultFor(c, env, rs, store, r) == Put(Committed) {
        assert c.place(r.id, r.time) in results;
      }
    }
  }

  lemma BucketError(c: Ctx, env: Env, rs: seq<Report>, store: Store, b: Bucket)
    requires b in BucketsOf(c, rs) && PassResult(c, env, rs, store, b).PutError?
    ensures AnyError(c, env, rs, store)
  {
    var r :| r in rs && c.place(r.id, r.time) == b;
    assert ResultFor(c, env, rs, store, r).PutError?;
  }

  /** The results of a pass, as far as they are known to be those of the specification. */
  ghost predicate Known(c: Ctx, env: Env, rs: seq<Report>, store: Store, results: map<Bucket, PutResult>) {
    && results.Keys == BucketsOf(c, rs)
    && forall b | b in results :: results[b] == PassResult(c, env, rs, store, b)
  }

  /** The state of the loop over the results: what is left and what the rest said. */
  ghost predicate Applied(c: Ctx, rs: seq<Report>, results: map<Bucket, PutResult>, status: StatusMap,
                          todo: set<Bucket>, restart: bool, status': StatusMap)
    requires results.Keys == BucketsOf(c, rs)
  {
    && todo <= results.Keys
    && StatusPart(c, rs, results, status, status', results.Keys - todo)
    && FlagsPart(c, rs, results, results.Keys - todo, restart)
  }

  lemma ApplyStart(c: Ctx, rs: seq<Report>, results: map<Bucket, PutResult>, status: StatusMap)
    requires results.Keys == BucketsOf(c, rs) && forall r | r in rs :: r.id !in status
    ensures Applied(c, rs, results, status, results.Keys, false, status)
  {
  }

  lemma ApplyStep(c: Ctx, env: Env, rs: seq<Report>, store: Store, results: map<Bucket, PutResult>, entry: SpanEntry,
                  status: StatusMap, todo: set<Bucket>, restart: bool, status': StatusMap, b: Bucket)
    requires Known(c, env, rs, store, results) && Unprocessed(rs, status)
    requires Applied(c, rs, results, status, todo, restart, status') && b in todo && !results[b].PutError?
    requires entry.reports == Metas(InB(c, rs, b))
    ensures Applied(c, rs, results, status, todo - {b}, restart || results[b] != Put(Committed),
                    status' + Additions(results[b], entry))
  {
    ResultShape(c, env, rs, store, b);
    AdditionsTell(results[b], InB(c, rs, b), entry);
    StatusPartStep(c, rs, results, status, status', Additions(results[b], entry), results.Keys - todo, b);
    assert results.Keys - (todo - {b}) == (results.Keys - todo) + {b};
    FlagsPartStep(c, rs, results, results.Keys - todo, restart, b);
  }

  lemma FlagsPartStep(c: Ctx, rs: seq<Report>, results: map<Bucket, PutResult>, done: set<Bucket>, restart: bool,
                      b: Bucket)
    requires results.Keys == BucketsOf(c, rs) && b in results && !results[b].PutError?
    requires FlagsPart(c, rs, results, done, restart)
    ensures FlagsPart(c, rs, results, done + {b}, restart || results[b] != Put(Committed))
  {
  }

  lemma ApplyEnd(c: Ctx, env: Env, rs: seq<Report>, store: Store, results: map<Bucket, PutResult>,
                 status: StatusMap, restart: bool, status': StatusMap)
    requires Known(c, env, rs, store, results) && Unprocessed(rs, status)
    requires Applied(c, rs, results, status, {}, restart, status')
    ensures !AnyError(c, env, rs, store) && (restart <==> !AllCommitted(c, env, rs, store))
    ensures status' == NextStatus(c, env, rs, store, status)
  {
    assert results.Keys - {} == BucketsOf(c, rs);
    FlagsWhole(c, env, rs, store, results, restart);
    StatusWhole(c, env, rs, store, results, status, status');
  }

  ghost predicate Unprocessed(rs: seq<Report>, status: StatusMap) {
    DistinctIds(rs) && forall r | r in rs :: r.id !in status
  }

  /** The reports that a span lists. */
  ghost predicate Lists(c: Ctx, rs: seq<Report>, span: Span) {
    span.Keys == BucketsOf(c, rs) && forall b | b in span :: span[b].reports == Metas(InB(c, rs, b))
  }

  /** Take the results of a pass into account, in any order, stopping at a storage error. */
  method ApplyResults(span: Span, results: map<Bucket, PutResult>, status: StatusMap,
                      ghost c: Ctx, ghost env: Env, ghost rs: seq<Report>, ghost store: Store)
    returns (error: bool, restart: bool, status': StatusMap)
    requires Lists(c, rs, span) && Known(c, env, rs, store, results) && Unprocessed(rs, status)
    ensures error <==> AnyError(c, env, rs, store)
    ensures !error ==>
              (restart <==> !AllCommitted(c, env, rs, store)) && status' == NextStatus(c, env, rs, store, status)
  {
    error, restart, status' := false, false, status;
    var todo := results.Keys;
    ApplyStart(c, rs, results, status);
    while todo != {}
      invariant Applied(c, rs, results, status, todo, restart, status')
      decreases todo
    {
      var b :| b in todo;
      if results[b].PutError? {
        BucketError(c, env, rs, store, b);
        return true, restart, status';
      }
      ApplyStep(c, env, rs, store, results, span[b], status, todo, restart, status', b);
      status' := status' + Additions(results[b], span[b]);
      restart := restart || results[b] != Put(Committed);
      todo := todo - {b};
    }
    ApplyEnd(c, env, rs, store, results, status, restart, status');
  }

  // ---- The loop

  ghost predicate SameEnd(a: JobResult, b: JobResult) {
    a.outcome == b.outcome && a.store == b.store
  }

  lemma {:induction false} RunStep(c: Ctx, inits: seq<Initialized>, status: StatusMap, store: Store, envs: seq<Env>,
                                   k: nat)
    requires k < |envs|
    ensures match Pass(c, inits, status, store, envs[k])
            case Stop(res) => JobRun(c, inits, status, store, envs[k..]) == res
            case Again(status', store', _) =>
              SameEnd(JobRun(c, inits, status, store, envs[k..]), JobRun(c, inits, status', store', envs[k + 1..]))
  {
    assert envs[k..][1..] == envs[k + 1..] && envs[k..][0] == envs[k];
  }

  datatype PassStep = Ended(outcome: Outcome) | Retry(status: StatusMap)

  ghost predicate StepIs(step: PassStep, store: Store, end: PassEnd) {
    match end
    case Stop(res) => step == Ended(res.outcome) && store == res.store
    case Again(status, store', _) => step == Retry(status) && store == store'
  }

  /** One pass: prepare, commit, and learn the statuses. */
  method RunPass(stores: BucketStores, cfg: TaskConfig, part: PartialBatchSelector, inits: seq<Initialized>,
                 status: StatusMap, env: Env, ghost c: Ctx)
    returns (step: PassStep)
    requires stores.Valid() && cfg.Valid() && c.kind == stores.kind && c.place == Place(cfg, stores.sha, part)
    requires DistinctInits(inits) && ShapedInits(inits, stores.sh) && ShapedEnv(env, stores.sh)
    modifies stores
    ensures stores.Valid()
    ensures if cfg.IsValidPartBatchSel(part) || Pending(inits, status) == []
            then StepIs(step, stores.store, Pass(c, inits, status, old(stores.store), env))
            else step == Ended(Fatal) && stores.store == old(stores.store)
  {
    ghost var rs, store := Pending(inits, status), stores.store;
    var produced := ProduceAggJobResp(cfg, stores.sha, part, inits, status, c, stores.sh);
    if produced.Err? {
      return Ended(Fatal);
    }
    var (span, transitions) := produced.value;
    var results := stores.TryPutAggShareSpan(span, env, c, rs);
    PendingFacts(inits, status);
    var error, restart, status' := ApplyResults(span, results, status, c, env, rs, store);
    step := if error then Ended(StorageFailure) else if restart then Retry(status') else Ended(Done(transitions));
  }

  /** Finish an aggregation job: prepare, commit, and start over on replays and collected batches. */
  method FinishAggJobAndAggregate(stores: BucketStores, cfg: TaskConfig, part: PartialBatchSelector,
                                  inits: seq<Initialized>,
                                  envs: seq<Env>, ghost c: Ctx)
    returns (outcome: Outcome)
    requires stores.Valid() && cfg.Valid() && c.kind == stores.kind && c.place == Place(cfg, stores.sha, part)
    requires DistinctInits(inits) && ShapedInits(inits, stores.sh)
    requires |envs| == RETRY_COUNT && forall k | 0 <= k < |envs| :: ShapedEnv(envs[k], stores.sh)
    modifies stores
    ensures stores.Valid()
    ensures if cfg.IsValidPartBatchSel(part) || Pending(inits, map[]) == []
            then SameEnd(JobResult(outcome, stores.store, []), JobRun(c, inits, map[], old(stores.store), envs))
            else outcome == Fatal && stores.store == old(stores.store)
  {
    var status: StatusMap := map[];
    ghost var store0 := stores.store;
    ghost var fits := cfg.IsValidPartBatchSel(part) || Pending(inits, status) == [];
    assert envs[0..] == envs;
    for k := 0 to RETRY_COUNT
      invariant stores.Valid()
      invariant fits ==> cfg.IsValidPartBatchSel(part) || Pending(inits, status) == []
      invariant fits ==> SameEnd(JobRun(c, inits, status, stores.store, envs[k..]),
                                 JobRun(c, inits, map[], store0, envs))
      invariant !fits ==> k == 0 && stores.store == store0 && status == map[]
    {
      RunStep(c, inits, status, stores.store, envs, k);
      if Pending(inits, status) == [] {
        NothingPending(c, inits, status, stores.store, envs[k]);
      }
      var step := RunPass(stores, cfg, part, inits, status, envs[k], c);
      match step {
        case Ended(end) => return end;
        case Retry(status') => status := status';
      }
    }
    return TooManyReplays;
  }

  lemma NothingPending(c: Ctx, inits: seq<Initialized>, status: StatusMap, store: Store, env: Env)
    requires DistinctInits(inits) && Pending(inits, status) == []
    ensures Pass(c, inits, status, store, env).Stop?
  {
  }
}
