/**
What happens in one bucket to the reports of one job. If everybody else's requests carry either
all of them or none, so do the job's own requests, and the bucket always holds either all of them
or none. The answer of a completed job then depends on one thing: whether the bucket was collected
when the job's first request arrived.
*/
module JobHistory {
  import opened Wrappers
  import opened AggShare
  import opened Buckets
  import opened BucketStore
  import opened HelperJob
  import opened HelperTheorems
  import opened HelperRetry
  import opened HelperStore
  import opened LeaderHelper

  // ---- All or none

  /** The bucket holds all reports, or none of them. */
  ghost predicate AllOrNone(rs: seq<Report>, st: BucketState) {
    IdSet(rs) <= st.ids || IdSet(rs) !! st.ids
  }

  /** Every request carries all of the reports' IDs, and no others, or none of them. */
  ghost predicate WholeOps(ops: seq<Op>, rs: seq<Report>) {
    forall n | 0 <= n < |ops| && ops[n].OpMerge? ::
      IdSet(ops[n].reports) == IdSet(rs) || IdSet(ops[n].reports) !! IdSet(rs)
  }

  lemma {:induction false} WholeRun(st: BucketState, ops: seq<Op>, rs: seq<Report>)
    requires AllOrNone(rs, st) && WholeOps(ops, rs)
    ensures AllOrNone(rs, RunOps(Durable, st, ops))
  {
    if ops != [] {
      var init, op := ops[..|ops| - 1], ops[|ops| - 1];
      WholeRun(st, init, rs);
      if op.OpMerge? {
        WholeMerge(RunOps(Durable, st, init), op.job, op.reports, rs);
      }
    }
  }

  lemma WholeMerge(st: BucketState, job: nat, f: seq<Report>, rs: seq<Report>)
    requires AllOrNone(rs, st) && (IdSet(f) == IdSet(rs) || IdSet(f) !! IdSet(rs))
    ensures AllOrNone(rs, BucketMerge(Durable, st, job, f).0)
  {
  }

  lemma WholePrefix(ops: seq<Op>, n: nat, m: nat, rs: seq<Report>)
    requires n <= m <= |ops| && WholeOps(ops[..m], rs)
    ensures WholeOps(ops[..n], rs) && WholeOps(ops[n..m], rs)
  {
    forall k | 0 <= k < n && ops[k].OpMerge?
      ensures IdSet(ops[k].reports) == IdSet(rs) || IdSet(ops[k].reports) !! IdSet(rs)
    {
      assert ops[..m][k] == ops[k];
    }
    forall k | 0 <= k < m - n && ops[n..m][k].OpMerge?
      ensures IdSet(ops[n..m][k].reports) == IdSet(rs) || IdSet(ops[n..m][k].reports) !! IdSet(rs)
    {
      assert ops[..m][n + k] == ops[n..m][k];
    }
  }

  // ---- Own requests

  /** The job's reports for a bucket. */
  ghost function Mine(c: Ctx, inits: seq<Initialized>, b: Bucket): seq<Report> {
    InB(c, ReadyReports(inits), b)
  }

  lemma MineDistinct(c: Ctx, inits: seq<Initialized>, b: Bucket)
    requires DistinctInits(inits)
    ensures DistinctIds(Mine(c, inits, b))
  {
    ReadyDistinct(inits);
    FilterDistinct(ReadyReports(inits), PlacedIn(c.place, b));
  }

  /** Either all reports have a status, or none has. */
  ghost predicate Uniform(rs: seq<Report>, status: StatusMap) {
    (forall r | r in rs :: r.id in status) || (forall r | r in rs :: r.id !in status)
  }

  /** A request for the bucket carries all of the job's reports for it. */
  lemma UniformPending(c: Ctx, inits: seq<Initialized>, status: StatusMap, b: Bucket)
    requires Uniform(Mine(c, inits, b), status)
    ensures InB(c, Pending(inits, status), b)
         == if forall r | r in Mine(c, inits, b) :: r.id !in status then Mine(c, inits, b) else []
  {
    var ready, placed, rs := ReadyReports(inits), PlacedIn(c.place, b), Mine(c, inits, b);
    if forall r | r in rs :: r.id !in status {
      forall r | r in ready ensures placed(r) == (NoStatus(status)(r) && placed(r)) {
        if placed(r) { assert r in rs; }
      }
      FilterTwice(ready, NoStatus(status), placed, placed);
    } else {
      var none := (r: Report) => false;
      forall r | r in ready ensures none(r) == (NoStatus(status)(r) && placed(r)) {
        if placed(r) { assert r in rs; }
      }
      FilterTwice(ready, NoStatus(status), placed, none);
      FilterNone(ready);
    }
  }

  /** The answer to a request for all of the job's reports. */
  lemma {:induction false} WholeAnswer(c: Ctx, env: Env, b: Bucket, rs: seq<Report>, st: BucketState, id: ReportId)
    requires c.kind.Durable? && DistinctIds(rs) && id in IdSet(rs)
    requires AllOrNone(rs, RunOps(c.kind, st, OpsOn(env, b)))
    ensures var result, st1 := PassBucket(c, env, b, rs, st).1, RunOps(c.kind, st, OpsOn(env, b));
            result.PutError? || StatusAfter(result, id)
            == Some(if st1.collected then Rejected(BatchCollected) else Aggregated)
  {
    var st1 := RunOps(c.kind, st, OpsOn(env, b));
    RepeatCount(rs, st1);
    MergeCommitted(c.kind, st1, c.job, rs);
  }

  lemma {:induction false} PassOne(c: Ctx, inits: seq<Initialized>, status: StatusMap, store: Store, env: Env,
                                   r: Report)
    requires c.kind.Durable? && DistinctInits(inits) && r in ReadyReports(inits) && r.id !in status
    requires var b := c.place(r.id, r.time);
             Uniform(Mine(c, inits, b), status) && AllOrNone(Mine(c, inits, b), AtRequest(c, store, env, b))
    ensures var rs, b := Pending(inits, status), c.place(r.id, r.time);
            var result := ResultFor(c, env, rs, store, r);
            && r in rs
            && (result.PutError? || StatusAfter(result, r.id)
                                    == Some(if AtRequest(c, store, env, b).collected
                                            then Rejected(BatchCollected) else Aggregated))
  {
    var b := c.place(r.id, r.time);
    assert r in Mine(c, inits, b);
    assert r.id in IdSet(Mine(c, inits, b));
    UniformPending(c, inits, status, b);
    MineDistinct(c, inits, b);
    WholeAnswer(c, env, b, Mine(c, inits, b), Lookup(store, b), r.id);
    PendingFacts(inits, status);
  }

  /** A pass that leads to another gives a status to all of the job's reports for the bucket. */
  lemma PassUniform(c: Ctx, inits: seq<Initialized>, status: StatusMap, store: Store, env: Env, b: Bucket)
    requires c.kind.Durable? && DistinctInits(inits) && Uniform(Mine(c, inits, b), status)
    requires AllOrNone(Mine(c, inits, b), AtRequest(c, store, env, b))
    requires Pass(c, inits, status, store, env).Again?
    ensures Uniform(Mine(c, inits, b), Pass(c, inits, status, store, env).status)
  {
    AgainParts(c, inits, status, store, env);
    var rs := Pending(inits, status);
    var status' := NextStatus(c, env, rs, store, status);
    forall r | r in Mine(c, inits, b) ensures r.id in status' {
      StatusOne(c, env, inits, store, status, r);
      if r.id !in status {
        PassOne(c, inits, status, store, env, r);
      }
    }
  }

  /** The requests of a pass keep the bucket all or none. */
  lemma PassWhole(c: Ctx, inits: seq<Initialized>, status: StatusMap, store: Store, env: Env, b: Bucket)
    requires c.kind.Durable? && Uniform(Mine(c, inits, b), status) && AllOrNone(Mine(c, inits, b), Lookup(store, b))
    requires WholeOps(OpsOn(env, b), Mine(c, inits, b))
    ensures WholeOps(PassOps(c, env, b, InB(c, Pending(inits, status), b)), Mine(c, inits, b))
    ensures AllOrNone(Mine(c, inits, b), AtRequest(c, store, env, b))
    ensures AllOrNone(Mine(c, inits, b), Lookup(EndStore(Pass(c, inits, status, store, env)), b))
  {
    var rs, f := Mine(c, inits, b), InB(c, Pending(inits, status), b);
    UniformPending(c, inits, status, b);
    WholeRun(Lookup(store, b), OpsOn(env, b), rs);
    WholeRun(Lookup(store, b), PassOps(c, env, b, f), rs);
    PassEndParts(c, inits, status, store, env);
    if Transitions(inits, status).Ok? {
      PassEndRefines(c, inits, status, store, env, b);
    }
  }

  /** What the next pass starts from. */
  lemma PassNext(c: Ctx, inits: seq<Initialized>, status: StatusMap, store: Store, env: Env, b: Bucket)
    requires c.kind.Durable? && DistinctInits(inits) && Uniform(Mine(c, inits, b), status)
    requires AllOrNone(Mine(c, inits, b), Lookup(store, b)) && WholeOps(OpsOn(env, b), Mine(c, inits, b))
    requires Pass(c, inits, status, store, env).Again?
    ensures var pass := Pass(c, inits, status, store, env);
            Uniform(Mine(c, inits, b), pass.status) && AllOrNone(Mine(c, inits, b), Lookup(pass.store, b))
  {
    PassWhole(c, inits, status, store, env, b);
    PassUniform(c, inits, status, store, env, b);
  }

  /** Over a whole run. */
  lemma {:induction false} RunWhole(c: Ctx, inits: seq<Initialized>, status: StatusMap, store: Store, envs: seq<Env>,
                                    b: Bucket)
    requires c.kind.Durable? && DistinctInits(inits) && Uniform(Mine(c, inits, b), status)
    requires AllOrNone(Mine(c, inits, b), Lookup(store, b))
    requires forall k | 0 <= k < |envs| :: WholeOps(OpsOn(envs[k], b), Mine(c, inits, b))
    ensures AllOrNone(Mine(c, inits, b), Lookup(JobRun(c, inits, status, store, envs).store, b))
    decreases |envs|
  {
    if envs != [] {
      PassWhole(c, inits, status, store, envs[0], b);
      var pass := Pass(c, inits, status, store, envs[0]);
      if pass.Again? {
        PassNext(c, inits, status, store, envs[0], b);
        RunWhole(c, inits, pass.status, pass.store, envs[1..], b);
      }
    }
  }

  /** The requests a bucket serves while the job runs, pass by pass. */
  lemma {:induction false} OpsSplit(c: Ctx, inits: seq<Initialized>, status: StatusMap, store: Store, envs: seq<Env>,
                                    b: Bucket)
    requires JobOps(c, inits, status, store, envs, b) != []
    ensures envs != []
    ensures var pass := Pass(c, inits, status, store, envs[0]);
            JobOps(c, inits, status, store, envs, b)
            == PassOps(c, envs[0], b, InB(c, Pending(inits, status), b))
               + if pass.Again? then JobOps(c, inits, pass.status, pass.store, envs[1..], b) else []
  {
  }

  /** The only request of a pass with the job's own tag carries what the job has for the bucket. */
  lemma PassOwnOp(c: Ctx, env: Env, b: Bucket, f: seq<Report>, n: nat)
    requires OtherJobs(OpsOn(env, b), c.job) && n < |PassOps(c, env, b, f)|
    requires PassOps(c, env, b, f)[n].OpMerge? && PassOps(c, env, b, f)[n].job == c.job
    ensures PassOps(c, env, b, f)[n].reports == f && f != []
  {
  }

  lemma PassOwnWhole(c: Ctx, inits: seq<Initialized>, status: StatusMap, env: Env, b: Bucket, n: nat)
    requires Uniform(Mine(c, inits, b), status) && OtherJobs(OpsOn(env, b), c.job)
    requires var now := PassOps(c, env, b, InB(c, Pending(inits, status), b));
             n < |now| && now[n].OpMerge? && now[n].job == c.job
    ensures PassOps(c, env, b, InB(c, Pending(inits, status), b))[n].reports == Mine(c, inits, b)
  {
    PassOwnOp(c, env, b, InB(c, Pending(inits, status), b), n);
    UniformPending(c, inits, status, b);
  }

  /** A request of the run carries all of the job's reports for the bucket, if all requests before it are whole. */
  lemma {:induction false} OwnRequestWhole(c: Ctx, inits: seq<Initialized>, status: StatusMap, store: Store,
                                           envs: seq<Env>, b: Bucket,
                                           ops: seq<Op>, n: nat)
    requires c.kind.Durable? && DistinctInits(inits) && Uniform(Mine(c, inits, b), status)
    requires AllOrNone(Mine(c, inits, b), Lookup(store, b)) && EnvOthers(envs, c.job)
    requires ops == JobOps(c, inits, status, store, envs, b)
    requires n < |ops| && ops[n].OpMerge? && ops[n].job == c.job && WholeOps(ops[..n], Mine(c, inits, b))
    ensures ops[n].reports == Mine(c, inits, b)
    decreases |envs|
  {
    OpsSplit(c, inits, status, store, envs, b);
    EnvSplit(envs, c.job, b);
    var f, pass := InB(c, Pending(inits, status), b), Pass(c, inits, status, store, envs[0]);
    var now := PassOps(c, envs[0], b, f);
    if n < |now| {
      PassOwnWhole(c, inits, status, envs[0], b, n);
    } else {
      var rest := JobOps(c, inits, pass.status, pass.store, envs[1..], b);
      WholeSplit(now, rest, n, OpsOn(envs[0], b), Mine(c, inits, b));
      PassNext(c, inits, status, store, envs[0], b);
      OwnRequestWhole(c, inits, pass.status, pass.store, envs[1..], b, rest, n - |now|);
    }
  }

  lemma WholeSplit(now: seq<Op>, rest: seq<Op>, n: nat, first: seq<Op>, rs: seq<Report>)
    requires |now| <= n <= |now + rest| && WholeOps((now + rest)[..n], rs) && first <= now
    ensures WholeOps(first, rs) && WholeOps(rest[..n - |now|], rs)
  {
    var ops := now + rest;
    WholePrefix(ops, |now|, n, rs);
    assert ops[..|now|] == now && ops[|now|..n] == rest[..n - |now|];
    WholePrefix(now, |first|, |now|, rs);
    assert now[..|now|] == now && now[..|first|] == first;
  }

  ghost predicate AllGood(ops: seq<Op>, good: Op -> bool) {
    forall n | 0 <= n < |ops| :: good(ops[n])
  }

  lemma PassOpsAll(c: Ctx, env: Env, b: Bucket, f: seq<Report>, good: Op -> bool)
    requires AllGood(OpsOn(env, b), good) && good(OpMerge(c.job, f))
    ensures AllGood(PassOps(c, env, b, f), good)
  {
  }

  lemma AllGoodConcat(x: seq<Op>, y: seq<Op>, good: Op -> bool)
    requires AllGood(x, good) && AllGood(y, good)
    ensures AllGood(x + y, good)
  {
  }

  /** What holds of other parties' requests and of every request of the job holds of all requests during a run. */
  lemma {:induction false} JobOpsAll(c: Ctx, inits: seq<Initialized>, status: StatusMap, store: Store, envs: seq<Env>,
                                     b: Bucket, good: Op -> bool)
    requires forall k | 0 <= k < |envs| :: AllGood(OpsOn(envs[k], b), good)
    requires forall f: seq<Report> :: good(OpMerge(c.job, f))
    ensures AllGood(JobOps(c, inits, status, store, envs, b), good)
    decreases |envs|
  {
    if JobOps(c, inits, status, store, envs, b) != [] {
      OpsSplit(c, inits, status, store, envs, b);
      var f, pass := InB(c, Pending(inits, status), b), Pass(c, inits, status, store, envs[0]);
      PassOpsAll(c, envs[0], b, f, good);
      if pass.Again? {
        JobOpsAll(c, inits, pass.status, pass.store, envs[1..], b, good);
        AllGoodConcat(PassOps(c, envs[0], b, f), JobOps(c, inits, pass.status, pass.store, envs[1..], b), good);
      } else {
        AllGoodConcat(PassOps(c, envs[0], b, f), [], good);
      }
    }
  }

  // ---- The first request decides

  /** A completed job continues a ready report if and only if its bucket is open when the first request arrives. */
  lemma {:induction false} FirstDecides(c: Ctx, inits: seq<Initialized>, store: Store, envs: seq<Env>, i: nat)
    requires c.kind.Durable? && DistinctInits(inits) && envs != [] && i < |inits| && IsReady(inits[i])
    requires var b := c.place(inits[i].id, inits[i].time);
             AllOrNone(Mine(c, inits, b), AtRequest(c, store, envs[0], b))
    requires JobRun(c, inits, map[], store, envs).outcome.Done?
    ensures var ts := JobRun(c, inits, map[], store, envs).outcome.transitions;
            && |ts| == |inits|
            && (ts[i].transition.Continued? <==>
                  !AtRequest(c, store, envs[0], c.place(inits[i].id, inits[i].time)).collected)
  {
    var r := ReportOf(inits[i]);
    var rs := Pending(inits, map[]);
    var pass := Pass(c, inits, map[], store, envs[0]);
    PassOne(c, inits, map[], store, envs[0], r);
    if pass.Stop? {
      ReadyTransition(inits, map[], i);
      OnlyCommitted(ResultFor(c, envs[0], rs, store, r), r.id);
    } else {
      AgainParts(c, inits, map[], store, envs[0]);
      StatusOne(c, envs[0], inits, store, map[], r);
      if AtRequest(c, store, envs[0], c.place(r.id, r.time)).collected {
        RejectedFails(c, inits, pass.status, pass.store, envs[1..], i);
      } else {
        PassEndSound(c, inits, map[], store, envs[0]);
        DoneFacts(c, inits, pass.status, pass.store, envs[1..], i);
      }
    }
  }

  /** Up to the first request, the bucket serves what the environment says. */
  lemma {:induction false} FirstOps(c: Ctx, inits: seq<Initialized>, store: Store, envs: seq<Env>, b: Bucket)
    requires JobRun(c, inits, map[], store, envs).outcome.Done?
    ensures envs != [] && OpsOn(envs[0], b) <= JobOps(c, inits, map[], store, envs, b)
  {
  }

  /** A bucket collected by then stays as it is. */
  lemma {:induction false} CollectedAtRequest(c: Ctx, inits: seq<Initialized>, store: Store, envs: seq<Env>, b: Bucket)
    requires c.kind.Durable? && JobRun(c, inits, map[], store, envs).outcome.Done?
    requires AtRequest(c, store, envs[0], b).collected
    ensures Lookup(JobRun(c, inits, map[], store, envs).store, b) == AtRequest(c, store, envs[0], b)
  {
    FirstOps(c, inits, store, envs, b);
    JobRefines(c, inits, map[], store, envs, b);
    FrozenAfter(Lookup(store, b), OpsOn(envs[0], b), JobOps(c, inits, map[], store, envs, b));
  }

  lemma {:induction false} FrozenAfter(st: BucketState, first: seq<Op>, ops: seq<Op>)
    requires first <= ops && RunOps(Durable, st, first).collected
    ensures RunOps(Durable, st, ops) == RunOps(Durable, st, first)
  {
    var more := ops[|first|..];
    assert ops == first + more;
    RunConcat(Durable, st, first, more);
    CollectedFrozen(RunOps(Durable, st, first), more);
  }

  // ---- Runs among others' requests

  lemma ApartWhole(c: Ctx, inits: seq<Initialized>, env: Env, b: Bucket)
    requires EnvApart(env, inits)
    ensures WholeOps(OpsOn(env, b), Mine(c, inits, b))
  {
    var ops, rs := OpsOn(env, b), Mine(c, inits, b);
    forall n | 0 <= n < |ops| && ops[n].OpMerge? ensures IdSet(ops[n].reports) !! IdSet(rs) {
      forall r | r in rs ensures r.id !in IdSet(ops[n].reports) {
        var i :| 0 <= i < |inits| && IsReady(inits[i]) && ReportOf(inits[i]) == r;
        assert OpsApart(env.ops[b], inits[i].id);
      }
    }
  }

  lemma PassAddedStored(c: Ctx, env: Env, rs: seq<Report>, store: Store, r: Report)
    requires r in AddedInPass(c, env, rs, store)
    ensures r.id in Lookup(PassStore(c, env, rs, store), c.place(r.id, r.time)).ids
  {
    var b := c.place(r.id, r.time);
    PassLookup(c, env, rs, store, b);
    assert r in InB(c, rs, b) && Stored(c, env, rs, store)(r);
    assert r.id in IdSet(InB(c, rs, b));
  }

  lemma {:induction false} RunGrowsIds(c: Ctx, inits: seq<Initialized>, status: StatusMap, store: Store,
                                       envs: seq<Env>, b: Bucket)
    ensures Lookup(store, b).ids <= Lookup(JobRun(c, inits, status, store, envs).store, b).ids
  {
    JobRefines(c, inits, status, store, envs, b);
    RunGrows(c.kind, Lookup(store, b), JobOps(c, inits, status, store, envs, b));
  }

  /** What a job adds is in its bucket in the end. */
  lemma {:induction false} AddedStored(c: Ctx, inits: seq<Initialized>, status: StatusMap, store: Store,
                                       envs: seq<Env>, r: Report)
    requires r in JobRun(c, inits, status, store, envs).added
    ensures r.id in Lookup(JobRun(c, inits, status, store, envs).store, c.place(r.id, r.time)).ids
    decreases |envs|
  {
    var pass, rs := Pass(c, inits, status, store, envs[0]), Pending(inits, status);
    PassEndParts(c, inits, status, store, envs[0]);
    if r in EndAdded(pass) {
      PassAddedStored(c, envs[0], rs, store, r);
    }
    if pass.Again? {
      if r in pass.added {
        RunGrowsIds(c, inits, pass.status, pass.store, envs[1..], c.place(r.id, r.time));
      } else {
        AddedStored(c, inits, pass.status, pass.store, envs[1..], r);
      }
    }
  }
}
