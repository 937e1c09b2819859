/**
Jobs one after another from an empty store, with storage failures, retries and collections at any
time, are an execution. If nothing is collected meanwhile, Leader and Helper always agree.
*/
module SequentialJobs {
  import opened Wrappers
  import opened AggShare
  import opened Buckets
  import opened BucketStore
  import opened HelperJob
  import opened HelperTheorems
  import opened HelperRetry
  import opened HelperStore
  import opened HelperLoop
  import opened LeaderHelper
  import opened JobHistory
  import opened Agreement
  import opened Executions
  import opened Collection
  import opened CollectionSafety
  import opened Totals

  /** An attempt at a job, and what happens during its passes. */
  datatype Attempt = Attempt(of: nat, envs: seq<Env>)

  datatype Plan = Plan(cfg: TaskConfig, sha: Sha, jobs: seq<HonestJob>, attempts: seq<Attempt>)

  /** Other parties only collect. */
  ghost predicate OnlyCollects(envs: seq<Env>) {
    forall k, b, n | 0 <= k < |envs| && b in envs[k].ops && 0 <= n < |envs[k].ops[b]| ::
      envs[k].ops[b][n].OpMarkCollected?
  }

  ghost predicate Sound(p: Plan) {
    && p.cfg.Valid() && JobsApart(p.jobs)
    && (forall k | 0 <= k < |p.attempts| :: p.attempts[k].of < |p.jobs| && OnlyCollects(p.attempts[k].envs))
    && (forall j | 0 <= j < |p.jobs| ::
          && p.jobs[j].last < |p.attempts| && p.attempts[p.jobs[j].last].of == j
          && Consumed(p.jobs[j].v, p.jobs[j].prepInits, p.jobs[j].inits))
  }

  ghost function PlanCtx(p: Plan, k: nat): Ctx
    requires Sound(p) && k < |p.attempts|
  {
    Ctx(Durable, Place(p.cfg, p.sha, p.jobs[p.attempts[k].of].part), k)
  }

  /** The buckets after the first `n` attempts. */
  ghost function StoreAfter(p: Plan, n: nat): Store
    requires Sound(p) && n <= |p.attempts|
  {
    if n == 0 then map[]
    else JobRun(PlanCtx(p, n - 1), p.jobs[p.attempts[n - 1].of].inits, map[], StoreAfter(p, n - 1),
                p.attempts[n - 1].envs).store
  }

  /** What a bucket serves during attempt `k`. */
  ghost function AttemptOps(p: Plan, k: nat, b: Bucket): seq<Op>
    requires Sound(p) && k < |p.attempts|
  {
    JobOps(PlanCtx(p, k), p.jobs[p.attempts[k].of].inits, map[], StoreAfter(p, k), p.attempts[k].envs, b)
  }

  /** The first `n` parts, one after another. */
  ghost function Joined(parts: seq<seq<Op>>, n: nat): seq<Op>
    requires n <= |parts|
  {
    if n == 0 then [] else Joined(parts, n - 1) + parts[n - 1]
  }

  lemma {:induction false} JoinedGrows(parts: seq<seq<Op>>, m: nat, n: nat)
    requires m <= n <= |parts|
    ensures Joined(parts, m) <= Joined(parts, n)
    decreases n
  {
    if m < n {
      JoinedGrows(parts, m, n - 1);
    }
  }

  lemma {:induction false} JoinedSlice(parts: seq<seq<Op>>, k: nat)
    requires k < |parts|
    ensures var h, s := Joined(parts, |parts|), |Joined(parts, k)|;
            s + |parts[k]| <= |h| && h[s..s + |parts[k]|] == parts[k] && h[..s] == Joined(parts, k)
  {
    JoinedGrows(parts, k + 1, |parts|);
    assert Joined(parts, k) + parts[k] <= Joined(parts, |parts|);
  }

  lemma {:induction false} JoinedStretch(parts: seq<seq<Op>>, k: nat, st: BucketState)
    requires k < |parts| && st == RunOps(Durable, FRESH, Joined(parts, k))
    ensures Stretch(parts[k], st, Joined(parts, |parts|), |Joined(parts, k)|)
  {
    JoinedSlice(parts, k);
  }

  /** The part an entry belongs to. */
  lemma {:induction false} JoinedAt(parts: seq<seq<Op>>, m: nat, n: nat) returns (k: nat)
    requires m <= |parts| && n < |Joined(parts, m)|
    ensures k < m && |Joined(parts, k)| <= n < |Joined(parts, k)| + |parts[k]|
    ensures Joined(parts, m)[n] == parts[k][n - |Joined(parts, k)|]
  {
    if n < |Joined(parts, m - 1)| {
      k := JoinedAt(parts, m - 1, n);
    } else {
      k := m - 1;
    }
  }

  ghost function Parts(p: Plan, b: Bucket): (parts: seq<seq<Op>>)
    requires Sound(p)
    ensures |parts| == |p.attempts| && forall k | 0 <= k < |p.attempts| :: parts[k] == AttemptOps(p, k, b)
  {
    seq(|p.attempts|, k requires 0 <= k < |p.attempts| => AttemptOps(p, k, b))
  }

  /** The history of a bucket after the first `n` attempts. */
  ghost function HistAfter(p: Plan, b: Bucket, n: nat): seq<Op>
    requires Sound(p) && n <= |p.attempts|
  {
    Joined(Parts(p, b), n)
  }

  ghost function AsExecution(p: Plan): Execution
    requires Sound(p)
  {
    Execution(p.cfg, p.sha, p.jobs,
              seq(|p.attempts|, k requires 0 <= k < |p.attempts| =>
                Run(p.attempts[k].of, k, StoreAfter(p, k), p.attempts[k].envs, (b: Bucket) => |HistAfter(p, b, k)|)),
              (b: Bucket) => HistAfter(p, b, |p.attempts|))
  }

  // ---- Jobs one after another are an execution

  lemma {:induction false} StoreIsHist(p: Plan, b: Bucket, n: nat)
    requires Sound(p) && n <= |p.attempts|
    ensures Lookup(StoreAfter(p, n), b) == RunOps(Durable, FRESH, HistAfter(p, b, n))
  {
    if n > 0 {
      StoreIsHist(p, b, n - 1);
      JobRefines(PlanCtx(p, n - 1), p.jobs[p.attempts[n - 1].of].inits, map[], StoreAfter(p, n - 1),
                 p.attempts[n - 1].envs, b);
      RunConcat(Durable, FRESH, HistAfter(p, b, n - 1), AttemptOps(p, n - 1, b));
    }
  }

  lemma CollectsOthers(envs: seq<Env>, job: nat)
    requires OnlyCollects(envs)
    ensures EnvOthers(envs, job)
  {
  }

  /** Every merge request of part `k` has the tag `k`. */
  ghost predicate OwnTags(parts: seq<seq<Op>>) {
    forall k, n | 0 <= k < |parts| && 0 <= n < |parts[k]| && parts[k][n].OpMerge? :: parts[k][n].job == k
  }

  lemma TagAt(parts: seq<seq<Op>>, n: nat) returns (k: nat)
    requires OwnTags(parts) && n < |Joined(parts, |parts|)| && Joined(parts, |parts|)[n].OpMerge?
    ensures k < |parts| && Joined(parts, |parts|)[n].job == k
    ensures |Joined(parts, k)| <= n < |Joined(parts, k)| + |parts[k]|
  {
    k := JoinedAt(parts, |parts|, n);
  }

  lemma PlanOwn(p: Plan, b: Bucket)
    requires Sound(p)
    ensures OwnTags(Parts(p, b))
  {
    forall k, n | 0 <= k < |p.attempts| && 0 <= n < |Parts(p, b)[k]| && Parts(p, b)[k][n].OpMerge?
      ensures Parts(p, b)[k][n].job == k
    {
      AttemptOwn(p, k, b);
    }
  }

  /** If others only collect, every merge request during an attempt is its own. */
  lemma AttemptOwn(p: Plan, k: nat, b: Bucket)
    requires Sound(p) && k < |p.attempts|
    ensures AllGood(Parts(p, b)[k], (op: Op) => op.OpMerge? ==> op.job == k)
  {
    var good := (op: Op) => op.OpMerge? ==> op.job == k;
    var envs := p.attempts[k].envs;
    forall m | 0 <= m < |envs| ensures AllGood(OpsOn(envs[m], b), good) {
    }
    JobOpsAll(PlanCtx(p, k), p.jobs[p.attempts[k].of].inits, map[], StoreAfter(p, k), envs, b, good);
  }

  lemma PlanLinked(p: Plan)
    requires Sound(p)
    ensures Linked(AsExecution(p))
    ensures forall k, b | 0 <= k < |p.attempts| :: OpsOf(AsExecution(p), k, b) == Parts(p, b)[k]
  {
  }

  lemma {:induction false} PlanValid(p: Plan)
    requires Sound(p)
    ensures Valid(AsExecution(p)) && Final(AsExecution(p), StoreAfter(p, |p.attempts|))
  {
    var x := AsExecution(p);
    PlanLinked(p);
    forall k | 0 <= k < |x.runs| ensures EnvOthers(x.runs[k].envs, x.runs[k].tag) {
      CollectsOthers(x.runs[k].envs, x.runs[k].tag);
    }
    forall k, b | 0 <= k < |x.runs| ensures Sees(x, k, b) {
      StoreIsHist(p, b, k);
      JoinedStretch(Parts(p, b), k, Lookup(StoreAfter(p, k), b));
    }
    forall b ensures Accounted(x, b) {
      PlanOwn(p, b);
      forall n | 0 <= n < |x.hist(b)| && x.hist(b)[n].OpMerge?
        ensures exists k :: 0 <= k < |x.runs| && Owns(x, k, b, n)
      {
        var k := TagAt(Parts(p, b), n);
        assert Owns(x, k, b, n);
      }
    }
    forall b ensures Lookup(StoreAfter(p, |p.attempts|), b) == FinalBucket(x, b) {
      StoreIsHist(p, b, |p.attempts|);
    }
  }

  /** Any job without fatal reports, attempted once without interference, is a completed execution. */
  lemma OneJob(cfg: TaskConfig, sha: Sha, job: HonestJob)
    requires cfg.Valid() && job.last == 0 && Consumed(job.v, job.prepInits, job.inits) && NoFatal(job.inits)
    ensures var p := Plan(cfg, sha, [job], [Attempt(0, [QUIET])]);
            Sound(p) && Linked(AsExecution(p)) && Completed(AsExecution(p))
  {
    var p := Plan(cfg, sha, [job], [Attempt(0, [QUIET])]);
    ConsumedMetas(job.v, job.prepInits, job.inits);
    assert OnlyCollects([QUIET]);
    PlanLinked(p);
    FreshJob(PlanCtx(p, 0), job.inits);
    assert ResultOf(AsExecution(p), 0) == JobRun(PlanCtx(p, 0), job.inits, map[], map[], [QUIET]);
  }

  // ---- Without collections

  lemma {:induction false} NeverMarked(ops: seq<Op>, n: nat)
    requires n <= |ops| && AllGood(ops, IsMerge())
    ensures !RunOps(Durable, FRESH, ops[..n]).collected
  {
    if n > 0 {
      NeverMarked(ops, n - 1);
      assert ops[..n][..n - 1] == ops[..n - 1] && IsMerge()(ops[n - 1]);
    }
  }

  ghost predicate Uncollected(p: Plan) {
    forall k | 0 <= k < |p.attempts| :: NoWriters(p.attempts[k].envs)
  }

  ghost function IsMerge(): Op -> bool {
    (op: Op) => op.OpMerge?
  }

  lemma AttemptMerges(p: Plan, k: nat, b: Bucket)
    requires Sound(p) && Uncollected(p) && k < |p.attempts|
    ensures AllGood(Parts(p, b)[k], IsMerge())
  {
    JobOpsAll(PlanCtx(p, k), p.jobs[p.attempts[k].of].inits, map[], StoreAfter(p, k), p.attempts[k].envs, b, IsMerge());
  }

  lemma {:induction false} JoinedAll(parts: seq<seq<Op>>, n: nat, good: Op -> bool)
    requires n <= |parts| && forall k | 0 <= k < n :: AllGood(parts[k], good)
    ensures AllGood(Joined(parts, n), good)
  {
    if n > 0 {
      JoinedAll(parts, n - 1, good);
      AllGoodConcat(Joined(parts, n - 1), parts[n - 1], good);
    }
  }

  lemma HistMerges(p: Plan, b: Bucket)
    requires Sound(p) && Uncollected(p)
    ensures AllGood(HistAfter(p, b, |p.attempts|), IsMerge())
  {
    forall k | 0 <= k < |p.attempts| ensures AllGood(Parts(p, b)[k], IsMerge()) {
      AttemptMerges(p, k, b);
    }
    JoinedAll(Parts(p, b), |p.attempts|, IsMerge());
  }

  lemma NothingLost(p: Plan, span: set<Bucket>)
    requires Sound(p) && Uncollected(p) && Linked(AsExecution(p)) && Valid(AsExecution(p)) && Completed(AsExecution(p))
    ensures !LostIn(AsExecution(p), span)
  {
    var x := AsExecution(p);
    forall j, b | 0 <= j < |x.jobs| && b in span ensures !Lost(x, j, b) {
      var n := FirstSeenAt(x, j, b);
      HistMerges(p, b);
      NeverMarked(x.hist(b), n);
    }
  }

  /**
  Jobs one after another from an empty store, each attempted until it completes, with storage
  failures and collections anywhere: for every aligned selector the total of the Helper's buckets
  and the total of the Leader's have the same count and the same checksum if and only if nothing
  of the batch was lost, and nothing is lost if nothing is collected.
  */
  lemma {:induction false} SequentialAgreement(p: Plan, shH: Shape, cfgL: TaskConfig, shL: Shape, orderL: seq<Bucket>,
                                               sel: BatchSelector)
    requires Sound(p) && Linked(AsExecution(p)) && Completed(AsExecution(p)) && LeaderReady(AsExecution(p))
    requires JobsShaped(AsExecution(p), shH) && Aligned(p.cfg, sel)
    requires SideOk(cfgL, sel, LeaderFor(AsExecution(p), PartFor(sel)), orderL, shL)
    ensures ShapedStore(StoreAfter(p, |p.attempts|), shH)
    ensures var totalH := SpanTotal(p.sha, shH, StoreAfter(p, |p.attempts|), SpanFor(p.cfg, sel));
            var totalL := MergeAll(BucketShares(cfgL, p.sha, PartFor(sel), LeaderFor(AsExecution(p), PartFor(sel)),
                                                orderL, shL));
            var lost := LostIn(AsExecution(p), SpanFor(p.cfg, sel));
            && totalH.Ok? && totalL.Ok?
            && (!lost ==> totalH.value.count == totalL.value.count && totalH.value.checksum == totalL.value.checksum)
            && (lost ==> totalH.value.count > totalL.value.count)
            && (Uncollected(p) ==> !lost)
  {
    PlanValid(p);
    if Uncollected(p) {
      NothingLost(p, SpanFor(p.cfg, sel));
    }
    AgreementExact(AsExecution(p), StoreAfter(p, |p.attempts|), shH, cfgL, shL, orderL, sel);
  }
}
