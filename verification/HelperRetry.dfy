/**
The retry loop without interference: how many passes it takes on each store, and that a job
retried after a storage failure neither commits anything twice nor rejects what it committed.
*/
module HelperRetry {
  import opened Wrappers
  import opened AggShare
  import opened Buckets
  import opened BucketStore
  import opened HelperJob
  import opened PingPong
  import opened HelperTheorems

  // ---- Fatal reports

  /** A report whose preparation ends in a fatal error, or in a message too long to send. */
  ghost predicate IsFatal(init: Initialized) {
    init.Ready? && (init.finish.FinishFatal? || (init.finish.FinishOk? && !Frameable(init.finish.prepMsg)))
  }

  ghost predicate NoFatal(inits: seq<Initialized>) {
    forall i | 0 <= i < |inits| :: !IsFatal(inits[i])
  }

  lemma {:induction false} NoFatalTransitions(inits: seq<Initialized>, status: StatusMap)
    requires NoFatal(inits)
    ensures Transitions(inits, status).Ok?
  {
    if inits != [] {
      NoFatalTransitions(inits[..|inits| - 1], status);
    }
  }

  lemma {:induction false} TransitionsNoFatal(inits: seq<Initialized>)
    requires Transitions(inits, map[]).Ok?
    ensures NoFatal(inits)
  {
    if inits != [] {
      TransitionsNoFatal(inits[..|inits| - 1]);
      forall i | 0 <= i < |inits| ensures !IsFatal(inits[i]) {
        if i < |inits| - 1 { assert inits[i] == inits[..|inits| - 1][i]; }
      }
    }
  }

  // ---- Bound on the number of passes

  /** A quiet pass asks each bucket once. */
  lemma QuietResult(c: Ctx, rs: seq<Report>, store: Store, r: Report)
    requires DistinctIds(rs) && r in rs
    ensures var b := c.place(r.id, r.time);
            var f := InB(c, rs, b);
            && r in f && DistinctIds(f)
            && ResultFor(c, QUIET, rs, store, r) == Put(BucketMerge(c.kind, Lookup(store, b), c.job, f).1)
            && Lookup(PassStore(c, QUIET, rs, store), b) == BucketMerge(c.kind, Lookup(store, b), c.job, f).0
  {
    var b := c.place(r.id, r.time);
    var f := InB(c, rs, b);
    assert r in f;
    FilterDistinct(rs, PlacedIn(c.place, b));
    PassLookup(c, QUIET, rs, store, b);
  }

  lemma AgainParts(c: Ctx, inits: seq<Initialized>, status: StatusMap, store: Store, env: Env)
    requires Pass(c, inits, status, store, env).Again?
    ensures var pass, rs := Pass(c, inits, status, store, env), Pending(inits, status);
            pass.status == NextStatus(c, env, rs, store, status) && pass.store == PassStore(c, env, rs, store)
  {
    match Transitions(inits, status)
    case Err =>
    case Ok(_) =>
      var rs := Pending(inits, status);
      assert !AnyError(c, env, rs, store) && !AllCommitted(c, env, rs, store);
  }

  /** What is still pending after a quiet pass is new to its bucket, which the pass left alone. */
  lemma {:induction false} PendingAfterQuiet(c: Ctx, inits: seq<Initialized>, status: StatusMap, store: Store,
                                             r: Report)
    requires DistinctInits(inits)
    requires r in ReadyReports(inits) && r.id !in status
    requires r.id !in NextStatus(c, QUIET, Pending(inits, status), store, status)
    ensures var st := Lookup(PassStore(c, QUIET, Pending(inits, status), store), c.place(r.id, r.time));
            r.id !in st.ids && (c.kind.Durable? ==> !st.collected)
  {
    var rs := Pending(inits, status);
    PendingFacts(inits, status);
    StatusFacts(c, QUIET, inits, store, status);
    assert r in rs;
    QuietResult(c, rs, store, r);
    var b := c.place(r.id, r.time);
    var f := InB(c, rs, b);
    MergeCommitted(c.kind, Lookup(store, b), c.job, f);
    assert r.id in IdSet(f);
  }

  lemma AllNewAfterQuiet(c: Ctx, inits: seq<Initialized>, status: StatusMap, store: Store)
    requires DistinctInits(inits) && Pass(c, inits, status, store, QUIET).Again?
    ensures var pass := Pass(c, inits, status, store, QUIET);
            && AllNew(c, inits, pass.status, pass.store)
            && (c.kind.Durable? ==>
                  forall r | r in Pending(inits, pass.status) :: !Lookup(pass.store, c.place(r.id, r.time)).collected)
  {
    AgainParts(c, inits, status, store, QUIET);
    var status' := NextStatus(c, QUIET, Pending(inits, status), store, status);
    PendingFacts(inits, status');
    StatusFacts(c, QUIET, inits, store, status);
    forall r | r in Pending(inits, status')
      ensures var st := Lookup(PassStore(c, QUIET, Pending(inits, status), store), c.place(r.id, r.time));
              r.id !in st.ids && (c.kind.Durable? ==> !st.collected)
    {
      PendingAfterQuiet(c, inits, status, store, r);
    }
  }

  ghost predicate AllNew(c: Ctx, inits: seq<Initialized>, status: StatusMap, store: Store) {
    forall r | r in Pending(inits, status) :: r.id !in Lookup(store, c.place(r.id, r.time)).ids
  }

  /** New reports are committed, unless their bucket has been collected. */
  lemma NewCommitted(c: Ctx, inits: seq<Initialized>, status: StatusMap, store: Store, r: Report)
    requires DistinctInits(inits) && AllNew(c, inits, status, store) && r in Pending(inits, status)
    ensures ResultFor(c, QUIET, Pending(inits, status), store, r)
         == Put(if Lookup(store, c.place(r.id, r.time)).collected then AlreadyCollected else Committed)
  {
    var rs := Pending(inits, status);
    PendingFacts(inits, status);
    QuietResult(c, rs, store, r);
    var b := c.place(r.id, r.time);
    var f, st := InB(c, rs, b), Lookup(store, b);
    forall x | x in f ensures x.id !in st.ids {
      assert x in rs && c.place(x.id, x.time) == b;
    }
    assert IdSet(f) !! st.ids;
    assert IdSet(f) * st.ids == {};
  }

  lemma QuietNoError(c: Ctx, inits: seq<Initialized>, status: StatusMap, store: Store)
    requires DistinctInits(inits)
    ensures !AnyError(c, QUIET, Pending(inits, status), store)
  {
    var rs := Pending(inits, status);
    PendingFacts(inits, status);
    forall r | r in rs ensures !ResultFor(c, QUIET, rs, store, r).PutError? {
      QuietResult(c, rs, store, r);
    }
  }

  /** A pass over new reports of uncollected buckets completes the job. */
  lemma NewPassDone(c: Ctx, inits: seq<Initialized>, status: StatusMap, store: Store)
    requires DistinctInits(inits) && NoFatal(inits) && AllNew(c, inits, status, store)
    requires forall r | r in Pending(inits, status) :: !Lookup(store, c.place(r.id, r.time)).collected
    ensures Pass(c, inits, status, store, QUIET).Stop? && Pass(c, inits, status, store, QUIET).result.outcome.Done?
  {
    NoFatalTransitions(inits, status);
    QuietNoError(c, inits, status, store);
    forall r | r in Pending(inits, status)
      ensures ResultFor(c, QUIET, Pending(inits, status), store, r) == Put(Committed)
    {
      NewCommitted(c, inits, status, store, r);
    }
  }

  /** After a quiet pass over new reports nothing is pending. */
  lemma NewPassSettles(c: Ctx, inits: seq<Initialized>, status: StatusMap, store: Store)
    requires DistinctInits(inits) && AllNew(c, inits, status, store)
    requires Pass(c, inits, status, store, QUIET).Again?
    ensures Pending(inits, Pass(c, inits, status, store, QUIET).status) == []
  {
    var rs := Pending(inits, status);
    AgainParts(c, inits, status, store, QUIET);
    var status' := NextStatus(c, QUIET, rs, store, status);
    PendingFacts(inits, status);
    PendingFacts(inits, status');
    StatusFacts(c, QUIET, inits, store, status);
    var next := Pending(inits, status');
    if next != [] {
      var r := next[0];
      assert r in next;
      assert r in rs;
      NewCommitted(c, inits, status, store, r);
      assert false;
    }
  }

  lemma QuietPassEnds(c: Ctx, inits: seq<Initialized>, status: StatusMap, store: Store)
    requires DistinctInits(inits) && NoFatal(inits)
    ensures var pass := Pass(c, inits, status, store, QUIET);
            pass.Stop? ==> pass.result.outcome.Done?
  {
    NoFatalTransitions(inits, status);
    QuietNoError(c, inits, status, store);
  }

  lemma {:induction false} FatalEnds(c: Ctx, inits: seq<Initialized>, store: Store, envs: seq<Env>)
    requires !NoFatal(inits) && envs != []
    ensures JobRun(c, inits, map[], store, envs).outcome == Fatal
  {
    if Transitions(inits, map[]).Ok? {
      TransitionsNoFatal(inits);
    }
  }

  /** On the durable store, two quiet passes complete a job unless a report is fatal. */
  lemma {:induction false} DurableRetryBound(c: Ctx, inits: seq<Initialized>, store: Store, more: seq<Env>)
    requires c.kind.Durable? && DistinctInits(inits)
    ensures var outcome := JobRun(c, inits, map[], store, [QUIET, QUIET] + more).outcome;
            if NoFatal(inits) then outcome.Done? else outcome == Fatal
  {
    var envs := [QUIET, QUIET] + more;
    if NoFatal(inits) {
      QuietPassEnds(c, inits, map[], store);
      var pass := Pass(c, inits, map[], store, QUIET);
      if pass.Again? {
        AllNewAfterQuiet(c, inits, map[], store);
        NewPassDone(c, inits, pass.status, pass.store);
        assert envs[1..][0] == QUIET;
      }
    } else {
      FatalEnds(c, inits, store, envs);
    }
  }

  /** On either store, three quiet passes, the number the loop allows, complete a job unless a report is fatal. */
  lemma InMemoryRetryBound(c: Ctx, inits: seq<Initialized>, store: Store)
    requires DistinctInits(inits)
    ensures var outcome := JobRun(c, inits, map[], store, seq(RETRY_COUNT, _ => QUIET)).outcome;
            if NoFatal(inits) then outcome.Done? else outcome == Fatal
  {
    var envs := seq(RETRY_COUNT, _ => QUIET);
    if NoFatal(inits) {
      assert envs[0] == QUIET && envs[1..][0] == QUIET && envs[1..][1..][0] == QUIET;
      QuietPassEnds(c, inits, map[], store);
      var pass := Pass(c, inits, map[], store, QUIET);
      if pass.Again? {
        AllNewAfterQuiet(c, inits, map[], store);
        NewThenDone(c, inits, pass.status, pass.store, envs[1..]);
      }
    } else {
      FatalEnds(c, inits, store, envs);
    }
  }

  lemma {:induction false} NewThenDone(c: Ctx, inits: seq<Initialized>, status: StatusMap, store: Store, envs: seq<Env>)
    requires DistinctInits(inits) && NoFatal(inits) && AllNew(c, inits, status, store)
    requires |envs| >= 2 && envs[0] == QUIET && envs[1..][0] == QUIET
    ensures JobRun(c, inits, status, store, envs).outcome.Done?
  {
    QuietPassEnds(c, inits, status, store);
    var pass := Pass(c, inits, status, store, QUIET);
    if pass.Again? {
      NewPassSettles(c, inits, status, store);
      NewPassDone(c, inits, pass.status, pass.store);
    }
  }

  // ---- Idempotence

  /** No other party touches any bucket; requests may fail before or after the commit. */
  ghost predicate NoWriters(envs: seq<Env>) {
    forall k | 0 <= k < |envs| :: envs[k].ops == map[]
  }

  /** Every ready report of the job that belongs in the bucket is stored there, and it is uncollected. */
  ghost predicate Full(c: Ctx, inits: seq<Initialized>, store: Store, b: Bucket) {
    && !Lookup(store, b).collected
    && forall r | r in ReadyReports(inits) && c.place(r.id, r.time) == b :: r.id in Lookup(store, b).ids
  }

  lemma RepeatedBucket(c: Ctx, env: Env, b: Bucket, f: seq<Report>, st: BucketState)
    requires c.kind.Durable? && env.ops == map[] && DistinctIds(f) && f != []
    requires IdSet(f) <= st.ids && !st.collected
    ensures PassBucket(c, env, b, f, st).0 == st && PassBucket(c, env, b, f, st).1 in {Put(Committed), PutError}
  {
    DistinctCard(f);
    assert f[0] in f;
    assert f[0].id in IdSet(f);
    assert IdSet(f) * st.ids == IdSet(f);
  }

  lemma NoWriterPass(c: Ctx, env: Env, inits: seq<Initialized>, status: StatusMap, store: Store, b: Bucket)
    requires c.kind.Durable? && env.ops == map[] && DistinctInits(inits)
    ensures var rs := Pending(inits, status);
            var f := InB(c, rs, b);
            && DistinctIds(f)
            && (forall r :: r in f <==> r in rs && c.place(r.id, r.time) == b)
            && Lookup(PassStore(c, env, rs, store), b) == PassBucket(c, env, b, f, Lookup(store, b)).0
  {
    var rs := Pending(inits, status);
    PendingFacts(inits, status);
    FilterDistinct(rs, PlacedIn(c.place, b));
    PassLookup(c, env, rs, store, b);
    assert forall r :: r in InB(c, rs, b) <==> r in rs && c.place(r.id, r.time) == b;
  }

  /** Committing to a bucket stores every ready report that belongs there. */
  lemma CommitFills(c: Ctx, inits: seq<Initialized>, status: StatusMap, store: Store, env: Env, b: Bucket)
    requires c.kind.Durable? && env.ops == map[] && DistinctInits(inits)
    requires StatusReasons(c, inits, status, store)
    requires StoresIn(c, env, Pending(inits, status), store, b) && InB(c, Pending(inits, status), b) != []
    ensures Full(c, inits, PassStore(c, env, Pending(inits, status), store), b)
  {
    var rs := Pending(inits, status);
    var f := InB(c, rs, b);
    PendingFacts(inits, status);
    NoWriterPass(c, env, inits, status, store, b);
    var st' := Lookup(PassStore(c, env, rs, store), b);
    assert st'.ids == Lookup(store, b).ids + IdSet(f);
    forall r | r in ReadyReports(inits) && c.place(r.id, r.time) == b ensures r.id in st'.ids {
      if r.id !in status {
        assert r in f;
        assert r.id in IdSet(f);
      }
    }
  }

  /** Without other writers, a full bucket is left as it is. */
  lemma FullPass(c: Ctx, inits: seq<Initialized>, status: StatusMap, store: Store, env: Env, b: Bucket)
    requires c.kind.Durable? && env.ops == map[] && DistinctInits(inits) && Full(c, inits, store, b)
    ensures var rs := Pending(inits, status);
            && Lookup(PassStore(c, env, rs, store), b) == Lookup(store, b)
            && forall r | r in rs && c.place(r.id, r.time) == b ::
                 ResultFor(c, env, rs, store, r) in {Put(Committed), PutError}
  {
    var rs := Pending(inits, status);
    var f := InB(c, rs, b);
    PendingFacts(inits, status);
    NoWriterPass(c, env, inits, status, store, b);
    forall id | id in IdSet(f) ensures id in Lookup(store, b).ids {
      var r :| r in f && r.id == id;
    }
    if f != [] {
      RepeatedBucket(c, env, b, f, Lookup(store, b));
    }
  }

  lemma FullPassEnd(c: Ctx, inits: seq<Initialized>, status: StatusMap, store: Store, env: Env, b: Bucket)
    requires c.kind.Durable? && env.ops == map[] && DistinctInits(inits) && Full(c, inits, store, b)
    ensures Lookup(EndStore(Pass(c, inits, status, store, env)), b) == Lookup(store, b)
  {
    FullPass(c, inits, status, store, env, b);
    PassEndParts(c, inits, status, store, env);
  }

  lemma {:induction false} FullStays(c: Ctx, inits: seq<Initialized>, status: StatusMap, store: Store, envs: seq<Env>,
                                     b: Bucket)
    requires c.kind.Durable? && NoWriters(envs) && DistinctInits(inits) && Full(c, inits, store, b)
    ensures Lookup(JobRun(c, inits, status, store, envs).store, b) == Lookup(store, b)
    decreases |envs|
  {
    if envs != [] {
      FullPassEnd(c, inits, status, store, envs[0], b);
      var pass := Pass(c, inits, status, store, envs[0]);
      if pass.Again? {
        FullStays(c, inits, pass.status, pass.store, envs[1..], b);
      }
    }
  }

  lemma PassFills(c: Ctx, inits: seq<Initialized>, status: StatusMap, store: Store, env: Env, b: Bucket)
    requires c.kind.Durable? && env.ops == map[] && DistinctInits(inits) && StatusReasons(c, inits, status, store)
    requires InB(c, EndAdded(Pass(c, inits, status, store, env)), b) != []
    ensures Full(c, inits, EndStore(Pass(c, inits, status, store, env)), b)
  {
    assert InB(c, [], b) == [];
    PassEndParts(c, inits, status, store, env);
    AddedInBucket(c, env, Pending(inits, status), store, b);
    CommitFills(c, inits, status, store, env, b);
  }

  lemma ReasonsAgain(c: Ctx, inits: seq<Initialized>, status: StatusMap, store: Store, env: Env)
    requires DistinctInits(inits) && StatusReasons(c, inits, status, store) && Pass(c, inits, status, store, env).Again?
    ensures StatusReasons(c, inits, Pass(c, inits, status, store, env).status, Pass(c, inits, status, store, env).store)
  {
    AgainParts(c, inits, status, store, env);
    ReasonsKept(c, inits, status, store, env);
  }

  /** A bucket to which a job without competing writers committed is full afterwards. */
  lemma {:induction false} CommittedFull(c: Ctx, inits: seq<Initialized>, status: StatusMap, store: Store,
                                         envs: seq<Env>, b: Bucket)
    requires c.kind.Durable? && NoWriters(envs) && DistinctInits(inits) && StatusReasons(c, inits, status, store)
    requires InB(c, JobRun(c, inits, status, store, envs).added, b) != []
    ensures Full(c, inits, JobRun(c, inits, status, store, envs).store, b)
    decreases |envs|
  {
    assert InB(c, [], b) == [];
    var pass := Pass(c, inits, status, store, envs[0]);
    var now := InB(c, EndAdded(pass), b);
    if now != [] {
      PassFills(c, inits, status, store, envs[0], b);
    }
    if pass.Again? {
      var rest := JobRun(c, inits, pass.status, pass.store, envs[1..]);
      FilterConcat(pass.added, rest.added, PlacedIn(c.place, b));
      if now != [] {
        FullStays(c, inits, pass.status, pass.store, envs[1..], b);
      } else {
        ReasonsAgain(c, inits, status, store, envs[0]);
        CommittedFull(c, inits, pass.status, pass.store, envs[1..], b);
      }
    }
  }

  /** No report of the bucket has been rejected. */
  ghost predicate NoneRejected(c: Ctx, inits: seq<Initialized>, status: StatusMap, b: Bucket) {
    forall r | r in ReadyReports(inits) && c.place(r.id, r.time) == b && r.id in status :: status[r.id].Aggregated?
  }

  lemma {:induction false} FullReport(c: Ctx, inits: seq<Initialized>, status: StatusMap, store: Store, env: Env,
                                      r: Report)
    requires c.kind.Durable? && env.ops == map[] && DistinctInits(inits) && r in ReadyReports(inits)
    requires Full(c, inits, store, c.place(r.id, r.time)) && (r.id in status ==> status[r.id].Aggregated?)
    ensures var s := NextStatus(c, env, Pending(inits, status), store, status);
            r.id in s ==> s[r.id].Aggregated?
  {
    StatusOne(c, env, inits, store, status, r);
    if r.id !in status {
      FullPass(c, inits, status, store, env, c.place(r.id, r.time));
    }
  }

  lemma FullNoneRejected(c: Ctx, inits: seq<Initialized>, status: StatusMap, store: Store, env: Env, b: Bucket)
    requires c.kind.Durable? && env.ops == map[] && DistinctInits(inits) && Full(c, inits, store, b)
    requires NoneRejected(c, inits, status, b) && Pass(c, inits, status, store, env).Again?
    ensures NoneRejected(c, inits, Pass(c, inits, status, store, env).status, b)
  {
    AgainParts(c, inits, status, store, env);
    var rs := Pending(inits, status);
    var status' := NextStatus(c, env, rs, store, status);
    forall r | r in ReadyReports(inits) && c.place(r.id, r.time) == b && r.id in status'
      ensures status'[r.id].Aggregated?
    {
      FullReport(c, inits, status, store, env, r);
    }
  }

  lemma {:induction false} FullContinued(c: Ctx, inits: seq<Initialized>, status: StatusMap, store: Store,
                                         envs: seq<Env>, b: Bucket, i: nat)
    requires c.kind.Durable? && NoWriters(envs) && DistinctInits(inits) && Full(c, inits, store, b)
    requires NoneRejected(c, inits, status, b)
    requires i < |inits| && IsReady(inits[i]) && c.place(inits[i].id, inits[i].time) == b
    requires JobRun(c, inits, status, store, envs).outcome.Done?
    ensures var ts := JobRun(c, inits, status, store, envs).outcome.transitions;
            |ts| == |inits| && ts[i].id == inits[i].id && ts[i].transition.Continued?
    decreases |envs|
  {
    var pass := Pass(c, inits, status, store, envs[0]);
    if pass.Stop? {
      ReadyTransition(inits, status, i);
      assert ReportOf(inits[i]) in ReadyReports(inits);
    } else {
      FullPassEnd(c, inits, status, store, envs[0], b);
      FullNoneRejected(c, inits, status, store, envs[0], b);
      FullContinued(c, inits, pass.status, pass.store, envs[1..], b, i);
    }
  }

  /**
  Retry idempotence: let a job run once, failing or not, and let it run again over the same
  reports, with no other writer. The second run alters no bucket to which the first committed,
  and if it completes, it answers every report the first run committed with `Continued`.
  */
  lemma {:induction false} RetryIdempotent(c: Ctx, inits: seq<Initialized>, store: Store, envs1: seq<Env>,
                                           envs2: seq<Env>)
    requires c.kind.Durable? && NoWriters(envs1) && NoWriters(envs2) && DistinctInits(inits)
    ensures var run1 := JobRun(c, inits, map[], store, envs1);
            var run2 := JobRun(c, inits, map[], run1.store, envs2);
            && (forall b | InB(c, run1.added, b) != [] :: Lookup(run2.store, b) == Lookup(run1.store, b))
            && (run2.outcome.Done? ==>
                  forall i | 0 <= i < |inits| && IsReady(inits[i]) && ReportOf(inits[i]) in run1.added ::
                    |run2.outcome.transitions| == |inits| && run2.outcome.transitions[i].id == inits[i].id
                    && run2.outcome.transitions[i].transition.Continued?)
  {
    var run1 := JobRun(c, inits, map[], store, envs1);
    var run2 := JobRun(c, inits, map[], run1.store, envs2);
    forall b | InB(c, run1.added, b) != [] ensures Lookup(run2.store, b) == Lookup(run1.store, b) {
      CommittedFull(c, inits, map[], store, envs1, b);
      FullStays(c, inits, map[], run1.store, envs2, b);
    }
    if run2.outcome.Done? {
      forall i | 0 <= i < |inits| && IsReady(inits[i]) && ReportOf(inits[i]) in run1.added
        ensures |run2.outcome.transitions| == |inits| && run2.outcome.transitions[i].id == inits[i].id
                && run2.outcome.transitions[i].transition.Continued?
      {
        var b := c.place(inits[i].id, inits[i].time);
        assert ReportOf(inits[i]) in InB(c, run1.added, b);
        CommittedFull(c, inits, map[], store, envs1, b);
        FullContinued(c, inits, map[], run1.store, envs2, b, i);
      }
    }
  }
}
