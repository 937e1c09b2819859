/**
Any number of jobs of one task, run concurrently by the Helper and retried by the Leader. An
execution is a history of requests for every bucket. Every run of a job sees a stretch of each
history: what other parties request in between, and its own requests; and every merge request is a
request of some run. No two jobs share a report.
*/
module Executions {
  import opened AggShare
  import opened Buckets
  import opened BucketStore
  import opened HelperJob
  import opened HelperTheorems
  import opened HelperStore
  import opened HelperLoop
  import opened LeaderJob
  import opened LeaderHelper
  import opened JobHistory

  /** A job of an honest Leader; `last` is the run whose response the Leader consumes. */
  datatype HonestJob = HonestJob(part: PartialBatchSelector, v: Preparer, prepInits: seq<PrepInit>,
                                 inits: seq<Initialized>, finish: Finisher, last: nat)

  /** A run of job `of`: the buckets it starts from, and how long their histories were by then. */
  datatype Run = Run(of: nat, tag: nat, store: Store, envs: seq<Env>, start: Bucket -> nat)

  datatype Execution = Execution(cfg: TaskConfig, sha: Sha, jobs: seq<HonestJob>, runs: seq<Run>,
                                 hist: Bucket -> seq<Op>)

  ghost predicate Linked(x: Execution) {
    && x.cfg.Valid()
    && (forall k | 0 <= k < |x.runs| :: x.runs[k].of < |x.jobs|)
    && (forall j | 0 <= j < |x.jobs| :: x.jobs[j].last < |x.runs| && x.runs[x.jobs[j].last].of == j)
  }

  ghost function CtxOf(x: Execution, k: nat): Ctx
    requires Linked(x) && k < |x.runs|
  {
    Ctx(Durable, Place(x.cfg, x.sha, x.jobs[x.runs[k].of].part), x.runs[k].tag)
  }

  ghost function InitsOf(x: Execution, k: nat): seq<Initialized>
    requires Linked(x) && k < |x.runs|
  {
    x.jobs[x.runs[k].of].inits
  }

  ghost function ResultOf(x: Execution, k: nat): JobResult
    requires Linked(x) && k < |x.runs|
  {
    JobRun(CtxOf(x, k), InitsOf(x, k), map[], x.runs[k].store, x.runs[k].envs)
  }

  ghost function OpsOf(x: Execution, k: nat, b: Bucket): seq<Op>
    requires Linked(x) && k < |x.runs|
  {
    JobOps(CtxOf(x, k), InitsOf(x, k), map[], x.runs[k].store, x.runs[k].envs, b)
  }

  /** From entry `s` on, the history has the requests `ops`, and what is before leads to the bucket `st`. */
  ghost predicate Stretch(ops: seq<Op>, st: BucketState, h: seq<Op>, s: nat) {
    s + |ops| <= |h| && h[s..s + |ops|] == ops && st == RunOps(Durable, FRESH, h[..s])
  }

  /** The run sees a stretch of the bucket's history. */
  ghost predicate Sees(x: Execution, k: nat, b: Bucket)
    requires Linked(x) && k < |x.runs|
  {
    Stretch(OpsOf(x, k, b), Lookup(x.runs[k].store, b), x.hist(b), x.runs[k].start(b))
  }

  /** Entry `n` of the bucket's history is a request of run `k`. */
  ghost predicate Owns(x: Execution, k: nat, b: Bucket, n: nat)
    requires Linked(x) && k < |x.runs| && n < |x.hist(b)|
  {
    && x.hist(b)[n].OpMerge? && x.hist(b)[n].job == x.runs[k].tag
    && x.runs[k].start(b) <= n < x.runs[k].start(b) + |OpsOf(x, k, b)|
  }

  ghost predicate Accounted(x: Execution, b: Bucket)
    requires Linked(x)
  {
    forall n | 0 <= n < |x.hist(b)| && x.hist(b)[n].OpMerge? :: exists k :: 0 <= k < |x.runs| && Owns(x, k, b, n)
  }

  ghost predicate JobsApart(jobs: seq<HonestJob>) {
    forall j, j', i, i' | 0 <= j < j' < |jobs| && 0 <= i < |jobs[j].inits| && 0 <= i' < |jobs[j'].inits| ::
      jobs[j].inits[i].id != jobs[j'].inits[i'].id
  }

  ghost predicate Valid(x: Execution) {
    && Linked(x) && JobsApart(x.jobs)
    && (forall j | 0 <= j < |x.jobs| :: Consumed(x.jobs[j].v, x.jobs[j].prepInits, x.jobs[j].inits))
    && (forall k | 0 <= k < |x.runs| :: EnvOthers(x.runs[k].envs, x.runs[k].tag))
    && (forall k, b | 0 <= k < |x.runs| :: Sees(x, k, b))
    && (forall b :: Accounted(x, b))
  }

  /** Every job has been completed: the run whose response the Leader consumes ended with one. */
  ghost predicate Completed(x: Execution)
    requires Linked(x)
  {
    forall j | 0 <= j < |x.jobs| :: ResultOf(x, x.jobs[j].last).outcome.Done?
  }

  // ---- The reports of a job in a bucket

  /** The reports of job `j` that belong in a bucket. */
  ghost function Part(x: Execution, j: nat, b: Bucket): seq<Report>
    requires x.cfg.Valid() && j < |x.jobs|
  {
    Filter(ReadyReports(x.jobs[j].inits), PlacedIn(Place(x.cfg, x.sha, x.jobs[j].part), b))
  }

  lemma PartDistinct(x: Execution, j: nat, b: Bucket)
    requires Valid(x) && j < |x.jobs|
    ensures DistinctInits(x.jobs[j].inits) && DistinctIds(Part(x, j, b))
  {
    ConsumedMetas(x.jobs[j].v, x.jobs[j].prepInits, x.jobs[j].inits);
    ReadyDistinct(x.jobs[j].inits);
    FilterDistinct(ReadyReports(x.jobs[j].inits), PlacedIn(Place(x.cfg, x.sha, x.jobs[j].part), b));
  }

  /** A report of a job in a bucket, as an initialized report. */
  lemma PartIndex(x: Execution, j: nat, b: Bucket, r: Report) returns (i: nat)
    requires x.cfg.Valid() && j < |x.jobs| && r in Part(x, j, b)
    ensures i < |x.jobs[j].inits| && IsReady(x.jobs[j].inits[i]) && ReportOf(x.jobs[j].inits[i]) == r
    ensures BucketOf(x.cfg, x.sha, x.jobs[j].part, r.id, r.time) == b
  {
    i :| 0 <= i < |x.jobs[j].inits| && IsReady(x.jobs[j].inits[i]) && ReportOf(x.jobs[j].inits[i]) == r;
  }

  lemma SameJob(jobs: seq<HonestJob>, j: nat, j': nat, i: nat, i': nat)
    requires JobsApart(jobs) && j < |jobs| && j' < |jobs| && i < |jobs[j].inits| && i' < |jobs[j'].inits|
    requires jobs[j].inits[i].id == jobs[j'].inits[i'].id
    ensures j == j'
  {
  }

  /** Different jobs have different reports. */
  lemma PartsApart(x: Execution, j: nat, j': nat, b: Bucket, b': Bucket, r: Report, r': Report)
    requires Valid(x) && j < |x.jobs| && j' < |x.jobs| && r in Part(x, j, b) && r' in Part(x, j', b') && r.id == r'.id
    ensures j == j' && r == r' && b == b'
  {
    var i := PartIndex(x, j, b, r);
    var i' := PartIndex(x, j', b', r');
    SameJob(x.jobs, j, j', i, i');
    PartDistinct(x, j, b);
  }

  lemma PartsDisjoint(x: Execution, j: nat, j': nat, b: Bucket)
    requires Valid(x) && j < |x.jobs| && j' < |x.jobs| && j != j'
    ensures IdSet(Part(x, j, b)) !! IdSet(Part(x, j', b))
  {
    forall r, r' | r in Part(x, j, b) && r' in Part(x, j', b) ensures r.id != r'.id {
      if r.id == r'.id {
        PartsApart(x, j, j', b, b, r, r');
      }
    }
  }

  // ---- Histories are whole

  lemma Owner(x: Execution, b: Bucket, n: nat) returns (k: nat)
    requires Valid(x) && n < |x.hist(b)| && x.hist(b)[n].OpMerge?
    ensures k < |x.runs| && Owns(x, k, b, n)
  {
    assert Accounted(x, b);
    k :| 0 <= k < |x.runs| && Owns(x, k, b, n);
  }

  /** Every merge request in a history carries all of some job's reports for the bucket. */
  lemma {:induction false} OpIs(x: Execution, b: Bucket, n: nat) returns (j: nat)
    requires Valid(x) && n < |x.hist(b)| && x.hist(b)[n].OpMerge?
    ensures j < |x.jobs| && x.hist(b)[n].reports == Part(x, j, b)
    decreases n, 1
  {
    var k := Owner(x, b, n);
    j := x.runs[k].of;
    HistWhole(x, j, b, n);
    PartDistinct(x, j, b);
    RequestIs(x, k, b, n);
  }

  lemma RequestIs(x: Execution, k: nat, b: Bucket, n: nat)
    requires Valid(x) && k < |x.runs| && n < |x.hist(b)| && Owns(x, k, b, n)
    requires DistinctInits(InitsOf(x, k)) && WholeOps(x.hist(b)[..n], Part(x, x.runs[k].of, b))
    ensures x.hist(b)[n].reports == Part(x, x.runs[k].of, b)
  {
    assert Sees(x, k, b);
    var st, h, s, rs := Lookup(x.runs[k].store, b), x.hist(b), x.runs[k].start(b), Part(x, x.runs[k].of, b);
    StretchStart(OpsOf(x, k, b), st, h, s, n, rs);
    RunOwnsWhole(CtxOf(x, k), InitsOf(x, k), x.runs[k].store, x.runs[k].envs, b);
    StretchWhole(OpsOf(x, k, b), st, h, s, n, rs, x.runs[k].tag);
  }

  /** Requests with the tag carry all the reports, as long as all requests before them are whole. */
  ghost predicate OwnsWhole(ops: seq<Op>, rs: seq<Report>, tag: nat) {
    forall m | 0 <= m < |ops| && ops[m].OpMerge? && ops[m].job == tag && WholeOps(ops[..m], rs) :: ops[m].reports == rs
  }

  lemma {:induction false} RunOwnsWhole(c: Ctx, inits: seq<Initialized>, store: Store, envs: seq<Env>, b: Bucket)
    requires c.kind.Durable? && DistinctInits(inits) && EnvOthers(envs, c.job)
    requires AllOrNone(Mine(c, inits, b), Lookup(store, b))
    ensures OwnsWhole(JobOps(c, inits, map[], store, envs, b), Mine(c, inits, b), c.job)
  {
    var ops, rs := JobOps(c, inits, map[], store, envs, b), Mine(c, inits, b);
    forall m | 0 <= m < |ops| && ops[m].OpMerge? && ops[m].job == c.job && WholeOps(ops[..m], rs)
      ensures ops[m].reports == rs
    {
      OwnRequestWhole(c, inits, map[], store, envs, b, ops, m);
    }
  }

  lemma StretchStart(ops: seq<Op>, st: BucketState, h: seq<Op>, s: nat, n: nat, rs: seq<Report>)
    requires Stretch(ops, st, h, s) && s <= n <= |h| && WholeOps(h[..n], rs)
    ensures AllOrNone(rs, st)
  {
    WholePrefix(h, s, n, rs);
    WholeRun(FRESH, h[..s], rs);
  }

  lemma StretchWhole(ops: seq<Op>, st: BucketState, h: seq<Op>, s: nat, n: nat, rs: seq<Report>, tag: nat)
    requires Stretch(ops, st, h, s) && s <= n < s + |ops| && WholeOps(h[..n], rs) && OwnsWhole(ops, rs, tag)
    requires h[n].OpMerge? && h[n].job == tag
    ensures h[n].reports == rs
  {
    SliceAt(h, s, ops, n - s);
    WholePrefix(h, s, n, rs);
  }

  lemma SliceAt<T>(h: seq<T>, s: nat, ops: seq<T>, m: nat)
    requires s + |ops| <= |h| && h[s..s + |ops|] == ops && m < |ops|
    ensures ops[m] == h[s + m] && ops[..m] == h[s..s + m]
  {
  }

  /** Every request carries all of a job's reports for the bucket or none of them. */
  lemma {:induction false} HistWhole(x: Execution, j: nat, b: Bucket, n: nat)
    requires Valid(x) && j < |x.jobs| && n <= |x.hist(b)|
    ensures WholeOps(x.hist(b)[..n], Part(x, j, b))
    decreases n, 0
  {
    if n > 0 {
      var h := x.hist(b);
      HistWhole(x, j, b, n - 1);
      assert h[..n] == h[..n - 1] + [h[n - 1]];
      if h[n - 1].OpMerge? {
        var j' := OpIs(x, b, n - 1);
        if j' != j {
          PartsDisjoint(x, j, j', b);
        }
      }
    }
  }

  // ---- The final buckets

  ghost function FinalBucket(x: Execution, b: Bucket): BucketState {
    RunOps(Durable, FRESH, x.hist(b))
  }

  lemma {:induction false} LogOrigin(ops: seq<Op>, r: Report) returns (n: nat)
    requires r in Reports(RunOps(Durable, FRESH, ops).log)
    ensures n < |ops| && ops[n].OpMerge? && r in ops[n].reports
  {
    var init, op := ops[..|ops| - 1], ops[|ops| - 1];
    var st := RunOps(Durable, FRESH, init);
    if op.OpMerge? && Commits(st, op.reports) && r !in Reports(st.log) {
      ReportsConcat(st.log, op.reports, op.job);
      n := |ops| - 1;
    } else {
      n := LogOrigin(init, r);
    }
  }

  /** Every report stored is one of a job's reports for the bucket. */
  lemma StoredIsPart(x: Execution, b: Bucket, r: Report) returns (j: nat)
    requires Valid(x) && r in Reports(FinalBucket(x, b).log)
    ensures j < |x.jobs| && r in Part(x, j, b)
  {
    var n := LogOrigin(x.hist(b), r);
    j := OpIs(x, b, n);
  }

  lemma HistGood(x: Execution, b: Bucket)
    requires Valid(x)
    ensures WellFormedOps(x.hist(b)) && Inv(FinalBucket(x, b))
  {
    forall n | 0 <= n < |x.hist(b)| && x.hist(b)[n].OpMerge? ensures DistinctIds(x.hist(b)[n].reports) {
      var j := OpIs(x, b, n);
      PartDistinct(x, j, b);
    }
    RunKeepsInv(FRESH, x.hist(b));
  }

  // ---- The run whose response the Leader consumes

  /** The bucket when the first request of that run arrives. */
  ghost function FirstSeen(x: Execution, j: nat, b: Bucket): BucketState
    requires Linked(x) && j < |x.jobs| && x.runs[x.jobs[j].last].envs != []
  {
    var k := x.jobs[j].last;
    AtRequest(CtxOf(x, k), x.runs[k].store, x.runs[k].envs[0], b)
  }

  lemma DoneHasPass(x: Execution, j: nat)
    requires Linked(x) && j < |x.jobs| && ResultOf(x, x.jobs[j].last).outcome.Done?
    ensures x.runs[x.jobs[j].last].envs != []
  {
  }

  lemma SlicePrefix<T>(h: seq<T>, s: nat, ops: seq<T>, first: seq<T>)
    requires s + |ops| <= |h| && h[s..s + |ops|] == ops && first <= ops
    ensures h[..s + |first|] == h[..s] + first
  {
    assert first == ops[..|first|];
  }

  lemma {:induction false} StretchPrefix(ops: seq<Op>, st: BucketState, h: seq<Op>, s: nat, first: seq<Op>)
    requires Stretch(ops, st, h, s) && first <= ops
    ensures RunOps(Durable, st, first) == RunOps(Durable, FRESH, h[..s + |first|])
  {
    SlicePrefix(h, s, ops, first);
    RunConcat(Durable, FRESH, h[..s], first);
  }

  lemma {:induction false} PrefixGrows(h: seq<Op>, n: nat)
    requires n <= |h|
    ensures RunOps(Durable, FRESH, h[..n]).ids <= RunOps(Durable, FRESH, h).ids
  {
    assert h == h[..n] + h[n..];
    RunConcat(Durable, FRESH, h[..n], h[n..]);
    RunGrows(Durable, RunOps(Durable, FRESH, h[..n]), h[n..]);
  }

  /** Where in the bucket's history the first request finds it. */
  lemma FirstSeenAt(x: Execution, j: nat, b: Bucket) returns (n: nat)
    requires Valid(x) && j < |x.jobs| && ResultOf(x, x.jobs[j].last).outcome.Done?
    ensures x.runs[x.jobs[j].last].envs != []
    ensures n <= |x.hist(b)| && FirstSeen(x, j, b) == RunOps(Durable, FRESH, x.hist(b)[..n])
    ensures AllOrNone(Part(x, j, b), FirstSeen(x, j, b))
  {
    var k := x.jobs[j].last;
    assert Sees(x, k, b);
    FirstOps(CtxOf(x, k), InitsOf(x, k), x.runs[k].store, x.runs[k].envs, b);
    var first := OpsOn(x.runs[k].envs[0], b);
    StretchPrefix(OpsOf(x, k, b), Lookup(x.runs[k].store, b), x.hist(b), x.runs[k].start(b), first);
    n := x.runs[k].start(b) + |first|;
    HistWhole(x, j, b, n);
    WholeRun(FRESH, x.hist(b)[..n], Part(x, j, b));
  }

  /** What the run has stored is stored in the end. */
  lemma RunEndsBefore(x: Execution, k: nat, b: Bucket)
    requires Valid(x) && k < |x.runs|
    ensures Lookup(ResultOf(x, k).store, b).ids <= FinalBucket(x, b).ids
  {
    ResultRefines(x, k, b);
    assert Sees(x, k, b);
    StretchGrows(OpsOf(x, k, b), Lookup(x.runs[k].store, b), x.hist(b), x.runs[k].start(b));
  }

  lemma ResultRefines(x: Execution, k: nat, b: Bucket)
    requires Linked(x) && k < |x.runs|
    ensures Lookup(ResultOf(x, k).store, b) == RunOps(Durable, Lookup(x.runs[k].store, b), OpsOf(x, k, b))
  {
    JobRefines(CtxOf(x, k), InitsOf(x, k), map[], x.runs[k].store, x.runs[k].envs, b);
  }

  lemma {:induction false} StretchGrows(ops: seq<Op>, st: BucketState, h: seq<Op>, s: nat)
    requires Stretch(ops, st, h, s)
    ensures RunOps(Durable, st, ops).ids <= RunOps(Durable, FRESH, h).ids
  {
    StretchPrefix(ops, st, h, s, ops);
    PrefixGrows(h, s + |ops|);
  }

  /**
  A ready report is continued exactly if its bucket was open when the first request arrived, and
  it is stored in the end exactly if it was open or held the report already.
  */
  lemma ReportDecided(x: Execution, j: nat, i: nat)
    requires Valid(x) && j < |x.jobs| && i < |x.jobs[j].inits| && IsReady(x.jobs[j].inits[i])
    requires ResultOf(x, x.jobs[j].last).outcome.Done?
    ensures x.runs[x.jobs[j].last].envs != []
    ensures var init, ts := x.jobs[j].inits[i], ResultOf(x, x.jobs[j].last).outcome.transitions;
            var b := BucketOf(x.cfg, x.sha, x.jobs[j].part, init.id, init.time);
            && |ts| == |x.jobs[j].inits|
            && (ts[i].transition.Continued? <==> !FirstSeen(x, j, b).collected)
            && (init.id in FinalBucket(x, b).ids <==>
                  !FirstSeen(x, j, b).collected || init.id in FirstSeen(x, j, b).ids)
  {
    var k, init := x.jobs[j].last, x.jobs[j].inits[i];
    var run, b := x.runs[k], BucketOf(x.cfg, x.sha, x.jobs[j].part, init.id, init.time);
    var n := FirstSeenAt(x, j, b);
    PartDistinct(x, j, b);
    FirstDecides(CtxOf(x, k), InitsOf(x, k), run.store, run.envs, i);
    if FirstSeen(x, j, b).collected {
      FrozenAfter(FRESH, x.hist(b)[..n], x.hist(b));
    } else {
      DoneFacts(CtxOf(x, k), InitsOf(x, k), map[], run.store, run.envs, i);
      RunEndsBefore(x, k, b);
    }
  }

  /**
  The bucket was collected, with the job's reports in it, before the run whose response the Leader
  consumes reached it.
  */
  ghost predicate Lost(x: Execution, j: nat, b: Bucket)
    requires Linked(x) && Completed(x) && j < |x.jobs|
  {
    DoneHasPass(x, j);
    var rs, st := Part(x, j, b), FirstSeen(x, j, b);
    rs != [] && st.collected && IdSet(rs) <= st.ids
  }

  /** A stored report that is not continued is lost. */
  lemma NotContinuedIsLost(x: Execution, j: nat, b: Bucket, i: nat)
    requires Valid(x) && Completed(x) && j < |x.jobs| && i < |x.jobs[j].inits| && IsReady(x.jobs[j].inits[i])
    requires b == BucketOf(x.cfg, x.sha, x.jobs[j].part, x.jobs[j].inits[i].id, x.jobs[j].inits[i].time)
    requires x.jobs[j].inits[i].id in FinalBucket(x, b).ids
    ensures var ts := ResultOf(x, x.jobs[j].last).outcome.transitions;
            |ts| == |x.jobs[j].inits| && (!ts[i].transition.Continued? <==> Lost(x, j, b))
  {
    ReportDecided(x, j, i);
    var n := FirstSeenAt(x, j, b);
    var r := ReportOf(x.jobs[j].inits[i]);
    assert r in Part(x, j, b);
    assert r.id in IdSet(Part(x, j, b));
  }
}
