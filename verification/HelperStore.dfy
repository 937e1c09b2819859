/**
A job as the buckets see it: whatever the retry loop does amounts, bucket by bucket, to a
sequence of merge requests among those of other parties. What holds of every run of a bucket
therefore holds after any jobs.
*/
module HelperStore {
  import opened Wrappers
  import opened PrimeField
  import opened AggShare
  import opened Buckets
  import opened BucketStore
  import opened HelperJob
  import opened HelperTheorems

  lemma {:induction false} RunConcat(kind: StoreKind, st: BucketState, x: seq<Op>, y: seq<Op>)
    ensures RunOps(kind, st, x + y) == RunOps(kind, RunOps(kind, st, x), y)
  {
    if y == [] {
      assert x + y == x;
    } else {
      var init, last := y[..|y| - 1], y[|y| - 1];
      RunConcat(kind, st, x, init);
      assert (x + y)[..|x + y| - 1] == x + init && (x + y)[|x + y| - 1] == last;
    }
  }

  /** The requests a bucket serves in a pass in which the job has `f` for it. */
  ghost function PassOps(c: Ctx, env: Env, b: Bucket, f: seq<Report>): seq<Op> {
    OpsOn(env, b) + if f == [] || FaultOn(env, b).FailBefore? then [] else [OpMerge(c.job, f)]
  }

  lemma {:induction false} PassRefines(c: Ctx, env: Env, b: Bucket, f: seq<Report>, st: BucketState)
    ensures PassBucket(c, env, b, f, st).0 == RunOps(c.kind, st, PassOps(c, env, b, f))
  {
    var ops := OpsOn(env, b);
    if f == [] || FaultOn(env, b).FailBefore? {
      assert ops + [] == ops;
    } else {
      assert (ops + [OpMerge(c.job, f)])[..|ops|] == ops;
    }
  }

  /** The requests a bucket serves while the job runs. */
  ghost function JobOps(c: Ctx, inits: seq<Initialized>, status: StatusMap, store: Store, envs: seq<Env>,
                        b: Bucket): seq<Op>
    decreases |envs|
  {
    if envs == [] || Transitions(inits, status).Err? then []
    else
      var now := PassOps(c, envs[0], b, InB(c, Pending(inits, status), b));
      match Pass(c, inits, status, store, envs[0])
      case Stop(_) => now
      case Again(status', store', _) => now + JobOps(c, inits, status', store', envs[1..], b)
  }

  lemma {:induction false} PassEndRefines(c: Ctx, inits: seq<Initialized>, status: StatusMap, store: Store, env: Env,
                                          b: Bucket)
    requires Transitions(inits, status).Ok?
    ensures Lookup(EndStore(Pass(c, inits, status, store, env)), b)
         == RunOps(c.kind, Lookup(store, b), PassOps(c, env, b, InB(c, Pending(inits, status), b)))
  {
    PassEndParts(c, inits, status, store, env);
    PassLookup(c, env, Pending(inits, status), store, b);
    PassRefines(c, env, b, InB(c, Pending(inits, status), b), Lookup(store, b));
  }

  /** Every bucket a job leaves is the result of a run of requests. */
  lemma {:induction false} JobRefines(c: Ctx, inits: seq<Initialized>, status: StatusMap, store: Store, envs: seq<Env>,
                                      b: Bucket)
    ensures Lookup(JobRun(c, inits, status, store, envs).store, b)
         == RunOps(c.kind, Lookup(store, b), JobOps(c, inits, status, store, envs, b))
    decreases |envs|
  {
    if envs != [] && Transitions(inits, status).Ok? {
      PassEndRefines(c, inits, status, store, envs[0], b);
      var pass := Pass(c, inits, status, store, envs[0]);
      if pass.Again? {
        JobRefines(c, inits, pass.status, pass.store, envs[1..], b);
        RunConcat(c.kind, Lookup(store, b), PassOps(c, envs[0], b, InB(c, Pending(inits, status), b)),
                  JobOps(c, inits, pass.status, pass.store, envs[1..], b));
      }
    }
  }

  // ---- The job's own requests are well formed

  ghost predicate GoodOps(ops: seq<Op>, sh: Shape) {
    WellFormedOps(ops) && ShapedOps(ops, sh)
  }

  ghost predicate GoodEnvs(envs: seq<Env>, sh: Shape) {
    forall k, b | 0 <= k < |envs| && b in envs[k].ops :: GoodOps(envs[k].ops[b], sh)
  }

  lemma GoodConcat(x: seq<Op>, y: seq<Op>, sh: Shape)
    requires GoodOps(x, sh) && GoodOps(y, sh)
    ensures GoodOps(x + y, sh)
  {
  }

  lemma {:induction false} PassOpsGood(c: Ctx, env: Env, inits: seq<Initialized>, status: StatusMap, b: Bucket,
                                       sh: Shape)
    requires DistinctInits(inits) && AllShaped(ReadyReports(inits), sh)
    requires forall x | x in env.ops :: GoodOps(env.ops[x], sh)
    ensures GoodOps(PassOps(c, env, b, InB(c, Pending(inits, status), b)), sh)
  {
    var rs := Pending(inits, status);
    PendingFacts(inits, status);
    FilterDistinct(rs, PlacedIn(c.place, b));
    FilterShaped(ReadyReports(inits), NoStatus(status), sh);
    FilterShaped(rs, PlacedIn(c.place, b), sh);
  }

  lemma {:induction false} JobOpsGood(c: Ctx, inits: seq<Initialized>, status: StatusMap, store: Store, envs: seq<Env>,
                                      b: Bucket, sh: Shape)
    requires DistinctInits(inits) && AllShaped(ReadyReports(inits), sh) && GoodEnvs(envs, sh)
    ensures GoodOps(JobOps(c, inits, status, store, envs, b), sh)
    decreases |envs|
  {
    if envs != [] && Transitions(inits, status).Ok? {
      PassOpsGood(c, envs[0], inits, status, b, sh);
      var pass := Pass(c, inits, status, store, envs[0]);
      if pass.Again? {
        JobOpsGood(c, inits, pass.status, pass.store, envs[1..], b, sh);
        GoodConcat(PassOps(c, envs[0], b, InB(c, Pending(inits, status), b)),
                   JobOps(c, inits, pass.status, pass.store, envs[1..], b), sh);
      }
    }
  }

  // ---- Any number of jobs

  /** A job, and what others do and how storage fares while it runs. */
  datatype Job = Job(c: Ctx, inits: seq<Initialized>, envs: seq<Env>)

  ghost function RunJobs(store: Store, jobs: seq<Job>): Store {
    if jobs == [] then store
    else
      var j := jobs[|jobs| - 1];
      JobRun(j.c, j.inits, map[], RunJobs(store, jobs[..|jobs| - 1]), j.envs).store
  }

  ghost predicate GoodJob(j: Job, sh: Shape) {
    j.c.kind.Durable? && DistinctInits(j.inits) && AllShaped(ReadyReports(j.inits), sh) && GoodEnvs(j.envs, sh)
  }

  lemma {:induction false} JobsRefine(jobs: seq<Job>, b: Bucket, sh: Shape) returns (ops: seq<Op>)
    requires forall k | 0 <= k < |jobs| :: GoodJob(jobs[k], sh)
    ensures GoodOps(ops, sh) && Lookup(RunJobs(map[], jobs), b) == RunOps(Durable, FRESH, ops)
  {
    if jobs == [] {
      ops := [];
    } else {
      var j, before := jobs[|jobs| - 1], RunJobs(map[], jobs[..|jobs| - 1]);
      var earlier := JobsRefine(jobs[..|jobs| - 1], b, sh);
      var now := JobOps(j.c, j.inits, map[], before, j.envs, b);
      JobRefines(j.c, j.inits, map[], before, j.envs, b);
      JobOpsGood(j.c, j.inits, map[], before, j.envs, b, sh);
      GoodConcat(earlier, now, sh);
      RunConcat(Durable, FRESH, earlier, now);
      ops := earlier + now;
    }
  }

  /**
  After any jobs over any reports, failing anywhere, among any requests of other parties: every
  bucket counts, sums, dates and checks off exactly one contribution of every report it stores.
  */
  lemma {:induction false} JobsKeepInvariant(sha: Sha, jobs: seq<Job>, b: Bucket, sh: Shape)
    requires forall k | 0 <= k < |jobs| :: GoodJob(jobs[k], sh)
    ensures var st := Lookup(RunJobs(map[], jobs), b);
            var rs := Reports(st.log);
            && DistinctIds(rs) && st.ids == IdSet(rs) && AllShaped(rs, sh)
            && var share := Fold(sha, rs, sh);
            && share.count == |st.ids| && share.checksum == XorAll(sha, rs) && ChecksumOf(sha, st.ids, share.checksum)
            && (forall i | 0 <= i < |rs| :: share.minTime <= rs[i].time <= share.maxTime)
            && (rs != [] ==> (exists i | 0 <= i < |rs| :: rs[i].time == share.minTime)
                             && (exists i | 0 <= i < |rs| :: rs[i].time == share.maxTime)
                             && share.data.Some? && |share.data.value.elems| == sh.len
                             && forall j | 0 <= j < sh.len ::
                                  Cong(Modulus(sh.kind), share.data.value.elems[j], DataSum(rs, j)))
  {
    var ops := JobsRefine(jobs, b, sh);
    StoreInvariant(sha, ops, sh);
  }
}
