/**
What the retry loop guarantees whatever happens: exact commit of a job with other jobs
interleaved and storage failures anywhere.
*/
module HelperTheorems {
  import opened Wrappers
  import opened Sequences
  import opened AggShare
  import opened Buckets
  import opened BucketStore
  import opened HelperJob
  import opened PingPong

  // ---- Filters

  lemma {:induction false} FilterConcat(a: seq<Report>, b: seq<Report>, keep: Report -> bool)
    ensures Filter(a + b, keep) == Filter(a, keep) + Filter(b, keep)
  {
    if b == [] {
      assert a + b == a;
    } else {
      var n := |b| - 1;
      FilterConcat(a, b[..n], keep);
      assert (a + b)[..|a + b| - 1] == a + b[..n] && (a + b)[|a + b| - 1] == b[n];
    }
  }

  /** Filtering twice is filtering by both conditions. */
  lemma {:induction false} FilterTwice(rs: seq<Report>, p: Report -> bool, q: Report -> bool, both: Report -> bool)
    requires forall r | r in rs :: both(r) == (p(r) && q(r))
    ensures Filter(Filter(rs, p), q) == Filter(rs, both)
  {
    if rs != [] {
      var init, last := rs[..|rs| - 1], rs[|rs| - 1];
      FilterTwice(init, p, q, both);
      assert last in rs;
      if p(last) {
        assert Filter(rs, p) == Filter(init, p) + [last];
        FilterConcat(Filter(init, p), [last], q);
        assert [last][..0] == [];
        assert Filter([last], q) == if q(last) then [last] else [];
      } else {
        assert Filter(rs, p) == Filter(init, p);
      }
    }
  }

  lemma {:induction false} FilterDistinct(rs: seq<Report>, keep: Report -> bool)
    requires DistinctIds(rs)
    ensures DistinctIds(Filter(rs, keep))
  {
    if rs != [] {
      var init, last := rs[..|rs| - 1], rs[|rs| - 1];
      FilterDistinct(init, keep);
      LastFresh(rs);
      var f := Filter(init, keep);
      forall i | 0 <= i < |f| ensures f[i].id != last.id { assert f[i] in f; }
    }
  }

  lemma {:induction false} ReadyDistinct(inits: seq<Initialized>)
    requires DistinctInits(inits)
    ensures DistinctIds(ReadyReports(inits))
  {
    if inits != [] {
      var init, last := inits[..|inits| - 1], inits[|inits| - 1];
      ReadyDistinct(init);
      var rs := ReadyReports(init);
      forall k | 0 <= k < |rs| ensures rs[k].id != last.id {
        assert rs[k] in rs;
        var i :| 0 <= i < |init| && IsReady(init[i]) && ReportOf(init[i]) == rs[k];
        assert inits[i].id != inits[|inits| - 1].id;
      }
    }
  }

  /** In a sequence with distinct IDs, the ID determines the report. */
  lemma SameId(rs: seq<Report>, a: Report, b: Report)
    requires DistinctIds(rs) && a in rs && b in rs && a.id == b.id
    ensures a == b
  {
  }

  // ---- Passes

  lemma InBEmpty(c: Ctx, rs: seq<Report>, b: Bucket)
    ensures InB(c, rs, b) == [] <==> b !in BucketsOf(c, rs)
  {
    var f := InB(c, rs, b);
    if f != [] {
      assert f[0] in f;
    }
    if b in BucketsOf(c, rs) {
      var r :| r in rs && c.place(r.id, r.time) == b;
      assert r in f;
    }
  }

  /** Every bucket evolves on its own. */
  lemma PassLookup(c: Ctx, env: Env, rs: seq<Report>, store: Store, b: Bucket)
    ensures Lookup(PassStore(c, env, rs, store), b) == PassBucket(c, env, b, InB(c, rs, b), Lookup(store, b)).0
  {
    InBEmpty(c, rs, b);
  }

  /** What a pass does to one bucket. */
  lemma {:induction false} PassBucketFacts(c: Ctx, env: Env, b: Bucket, f: seq<Report>, st: BucketState)
    requires DistinctIds(f)
    ensures var (st', result) := PassBucket(c, env, b, f, st);
            var st1 := RunOps(c.kind, st, OpsOn(env, b));
            && st.ids <= st1.ids <= st'.ids
            && (result == Put(Committed) ==> !st'.collected && IdSet(f) <= st'.ids)
            && (f != [] && !FaultOn(env, b).FailBefore? && Commits(st1, f) ==> result in {Put(Committed), PutError})
  {
    RunGrows(c.kind, st, OpsOn(env, b));
    MergeCommitted(c.kind, RunOps(c.kind, st, OpsOn(env, b)), c.job, f);
  }

  lemma {:induction false} PassBucketOwn(c: Ctx, env: Env, b: Bucket, f: seq<Report>, st: BucketState)
    requires OtherJobs(OpsOn(env, b), c.job)
    ensures Own(PassBucket(c, env, b, f, st).0.log, c.job)
         == Own(st.log, c.job)
            + if !FaultOn(env, b).FailBefore? && Commits(RunOps(c.kind, st, OpsOn(env, b)), f) then f else []
  {
    OwnUnchanged(c.kind, st, OpsOn(env, b), c.job);
    OwnMerge(c.kind, RunOps(c.kind, st, OpsOn(env, b)), c.job, f, c.job);
  }

  lemma {:induction false} PendingFacts(inits: seq<Initialized>, status: StatusMap)
    requires DistinctInits(inits)
    ensures DistinctIds(Pending(inits, status))
    ensures forall r :: r in Pending(inits, status) <==> r in ReadyReports(inits) && r.id !in status
  {
    ReadyDistinct(inits);
    FilterDistinct(ReadyReports(inits), NoStatus(status));
    var rs := Pending(inits, status);
    forall r | r in rs ensures r in ReadyReports(inits) && r.id !in status {
      var i :| 0 <= i < |rs| && rs[i] == r;
    }
  }

  lemma {:induction false} ExtendOther(c: Ctx, env: Env, rs: seq<Report>, store: Store, status: StatusMap,
                                       todo: seq<Report>, id: ReportId)
    requires id !in IdSet(todo)
    ensures var s := ExtendStatus(c, env, rs, store, status, todo);
            (id in s <==> id in status) && (id in status ==> s[id] == status[id])
  {
    if todo != [] {
      var init, last := todo[..|todo| - 1], todo[|todo| - 1];
      assert last in todo && forall r | r in init :: r in todo;
      ExtendOther(c, env, rs, store, status, init, id);
    }
  }

  lemma {:induction false} ExtendOne(c: Ctx, env: Env, rs: seq<Report>, store: Store, status: StatusMap,
                                     todo: seq<Report>, r: Report)
    requires DistinctIds(todo) && r in todo && r.id !in status
    ensures var s := ExtendStatus(c, env, rs, store, status, todo);
            match StatusAfter(ResultFor(c, env, rs, store, r), r.id)
            case Some(x) => r.id in s && s[r.id] == x
            case None => r.id !in s
  {
    var init, last := todo[..|todo| - 1], todo[|todo| - 1];
    LastFresh(todo);
    if r == last {
      ExtendOther(c, env, rs, store, status, init, r.id);
    } else {
      assert r in init;
      ExtendOne(c, env, rs, store, status, init, r);
      assert r.id in IdSet(init);
    }
  }

  /** How a pass over the pending reports changes the status of one report. */
  lemma {:induction false} StatusOne(c: Ctx, env: Env, inits: seq<Initialized>, store: Store, status: StatusMap,
                                     r: Report)
    requires DistinctInits(inits) && r in ReadyReports(inits)
    ensures var rs := Pending(inits, status);
            var s := NextStatus(c, env, rs, store, status);
            if r.id in status then r.id in s && s[r.id] == status[r.id]
            else r in rs
                 && match StatusAfter(ResultFor(c, env, rs, store, r), r.id)
                    case Some(x) => r.id in s && s[r.id] == x
                    case None => r.id !in s
  {
    var rs := Pending(inits, status);
    PendingFacts(inits, status);
    if r.id in status {
      ExtendOther(c, env, rs, store, status, rs, r.id);
    } else {
      ExtendOne(c, env, rs, store, status, rs, r);
    }
  }

  /** How a pass over the pending reports changes statuses. */
  lemma {:induction false} StatusFacts(c: Ctx, env: Env, inits: seq<Initialized>, store: Store, status: StatusMap)
    requires DistinctInits(inits)
    ensures var rs := Pending(inits, status);
            var s := NextStatus(c, env, rs, store, status);
            && (forall id | id in status :: id in s && s[id] == status[id])
            && (forall r | r in ReadyReports(inits) && r.id !in status ::
                  match StatusAfter(ResultFor(c, env, rs, store, r), r.id)
                  case Some(x) => r.id in s && s[r.id] == x
                  case None => r.id !in s)
  {
    var rs := Pending(inits, status);
    PendingFacts(inits, status);
    forall id | id in status
      ensures id in NextStatus(c, env, rs, store, status) && NextStatus(c, env, rs, store, status)[id] == status[id]
    {
      assert forall r | r in rs :: r.id !in status;
      ExtendOther(c, env, rs, store, status, rs, id);
    }
    forall r | r in ReadyReports(inits) && r.id !in status
      ensures match StatusAfter(ResultFor(c, env, rs, store, r), r.id)
              case Some(x) => r.id in NextStatus(c, env, rs, store, status) &&
                                  NextStatus(c, env, rs, store, status)[r.id] == x
              case None => r.id !in NextStatus(c, env, rs, store, status)
    {
      ExtendOne(c, env, rs, store, status, rs, r);
    }
  }

  lemma StoredIsCommitted(c: Ctx, env: Env, rs: seq<Report>, store: Store, r: Report)
    requires DistinctIds(rs) && r in rs
    ensures var b := c.place(r.id, r.time);
            && r in InB(c, rs, b)
            && (StoresIn(c, env, rs, store, b) ==> ResultFor(c, env, rs, store, r) in {Put(Committed), PutError})
            && (ResultFor(c, env, rs, store, r) == Put(Committed) ==>
                  r.id in Lookup(PassStore(c, env, rs, store), b).ids
                  && !Lookup(PassStore(c, env, rs, store), b).collected)
  {
    var b := c.place(r.id, r.time);
    PassLookup(c, env, rs, store, b);
    var f := InB(c, rs, b);
    assert r in f;
    FilterDistinct(rs, PlacedIn(c.place, b));
    PassBucketFacts(c, env, b, f, Lookup(store, b));
    assert r.id in IdSet(f);
  }

  lemma PassGrows(c: Ctx, env: Env, rs: seq<Report>, store: Store, b: Bucket)
    requires DistinctIds(rs)
    ensures Lookup(store, b).ids <= Lookup(PassStore(c, env, rs, store), b).ids
  {
    PassLookup(c, env, rs, store, b);
    FilterDistinct(rs, PlacedIn(c.place, b));
    PassBucketFacts(c, env, b, InB(c, rs, b), Lookup(store, b));
  }

  ghost function EndStore(pass: PassEnd): Store {
    match pass
    case Stop(res) => res.store
    case Again(_, store, _) => store
  }

  ghost function EndAdded(pass: PassEnd): seq<Report> {
    match pass
    case Stop(res) => res.added
    case Again(_, _, added) => added
  }

  lemma {:induction false} PassEndParts(c: Ctx, inits: seq<Initialized>, status: StatusMap, store: Store, env: Env)
    ensures var pass, rs := Pass(c, inits, status, store, env), Pending(inits, status);
            if Transitions(inits, status).Ok?
            then EndStore(pass) == PassStore(c, env, rs, store) && EndAdded(pass) == AddedInPass(c, env, rs, store)
            else EndStore(pass) == store && EndAdded(pass) == []
  {
    var rs := Pending(inits, status);
    EndParts(inits, status, store, Pass(c, inits, status, store, env), PassStore(c, env, rs, store),
             AddedInPass(c, env, rs, store), AnyError(c, env, rs, store), AllCommitted(c, env, rs, store),
             NextStatus(c, env, rs, store, status));
  }

  lemma {:induction false} EndParts(inits: seq<Initialized>, status: StatusMap, store: Store, pass: PassEnd,
                                    store': Store, added: seq<Report>, failed: bool, done: bool, status': StatusMap)
    requires pass == match Transitions(inits, status)
                     case Err => Stop(JobResult(Fatal, store, []))
                     case Ok(ts) =>
                       if failed then Stop(JobResult(StorageFailure, store', added))
                       else if done then Stop(JobResult(Done(ts), store', added))
                       else Again(status', store', added)
    ensures if Transitions(inits, status).Ok? then EndStore(pass) == store' && EndAdded(pass) == added
            else EndStore(pass) == store && EndAdded(pass) == []
  {
  }

  // ---- What is added

  /** What one pass adds, and that it will not be added again. */
  lemma {:induction false} PassAdded(c: Ctx, inits: seq<Initialized>, status: StatusMap, store: Store, env: Env)
    requires DistinctInits(inits)
    ensures var rs := Pending(inits, status);
            var added := AddedInPass(c, env, rs, store);
            && DistinctIds(added)
            && (forall r | r in added :: r in ReadyReports(inits) && r.id !in status)
            && (!AnyError(c, env, rs, store) ==>
                  forall r | r in added :: r.id in NextStatus(c, env, rs, store, status)
                                           && NextStatus(c, env, rs, store, status)[r.id] == Aggregated)
  {
    var rs := Pending(inits, status);
    PendingFacts(inits, status);
    var added := AddedInPass(c, env, rs, store);
    FilterDistinct(rs, Stored(c, env, rs, store));
    StatusFacts(c, env, inits, store, status);
    if !AnyError(c, env, rs, store) {
      forall r | r in added ensures ResultFor(c, env, rs, store, r) == Put(Committed) {
        StoredIsCommitted(c, env, rs, store, r);
      }
    }
  }

  /** Statuses, once given, stay. */
  lemma PassKeepsStatus(c: Ctx, inits: seq<Initialized>, status: StatusMap, store: Store, env: Env)
    requires DistinctInits(inits) && Pass(c, inits, status, store, env).Again?
    ensures forall id | id in status ::
              id in Pass(c, inits, status, store, env).status
              && Pass(c, inits, status, store, env).status[id] == status[id]
  {
    StatusFacts(c, env, inits, store, status);
  }

  /** The same for the end of a pass. */
  lemma {:induction false} PassEndAdded(c: Ctx, inits: seq<Initialized>, status: StatusMap, store: Store, env: Env)
    requires DistinctInits(inits)
    ensures var pass := Pass(c, inits, status, store, env);
            && DistinctIds(EndAdded(pass))
            && (forall r | r in EndAdded(pass) :: r in ReadyReports(inits) && r.id !in status)
            && (pass.Again? ==>
                  && (forall r | r in EndAdded(pass) :: r.id in pass.status)
                  && forall id | id in status :: id in pass.status)
  {
    PassEndParts(c, inits, status, store, env);
    PassAdded(c, inits, status, store, env);
    if Pass(c, inits, status, store, env).Again? {
      PassKeepsStatus(c, inits, status, store, env);
    }
  }

  lemma AddedApart(before: seq<Report>, later: seq<Report>, status: StatusMap)
    requires forall r | r in before :: r.id in status
    requires forall r | r in later :: r.id !in status
    ensures IdSet(before) !! IdSet(later)
  {
  }

  /** Reports this job adds are ready, had no status and are added once. */
  lemma {:induction false} AddedSound(c: Ctx, inits: seq<Initialized>, status: StatusMap, store: Store, envs: seq<Env>)
    requires DistinctInits(inits)
    ensures var added := JobRun(c, inits, status, store, envs).added;
            && DistinctIds(added)
            && forall r | r in added :: r in ReadyReports(inits) && r.id !in status
    decreases |envs|
  {
    if envs != [] {
      PassEndAdded(c, inits, status, store, envs[0]);
      var pass := Pass(c, inits, status, store, envs[0]);
      if pass.Again? {
        AddedSound(c, inits, pass.status, pass.store, envs[1..]);
        var later := JobRun(c, inits, pass.status, pass.store, envs[1..]).added;
        AddedApart(pass.added, later, pass.status);
        DistinctConcat(pass.added, later);
      }
    }
  }

  // ---- Conservation

  /** The reports of a log committed by a job. */
  ghost function Own(log: seq<Entry>, job: nat): seq<Report> {
    if log == [] then []
    else Own(log[..|log| - 1], job) + if log[|log| - 1].job == job then [log[|log| - 1].report] else []
  }

  lemma {:induction false} OwnConcat(a: seq<Entry>, b: seq<Entry>, job: nat)
    ensures Own(a + b, job) == Own(a, job) + Own(b, job)
  {
    if b == [] {
      assert a + b == a;
    } else {
      OwnConcat(a, b[..|b| - 1], job);
      assert (a + b)[..|a + b| - 1] == a + b[..|b| - 1];
    }
  }

  lemma {:induction false} OwnEntries(rs: seq<Report>, writer: nat, job: nat)
    ensures Own(Entries(rs, writer), job) == if writer == job then rs else []
  {
    if rs != [] {
      OwnEntries(rs[..|rs| - 1], writer, job);
      assert Entries(rs, writer)[..|rs| - 1] == Entries(rs[..|rs| - 1], writer);
    }
  }

  ghost predicate OtherJobs(ops: seq<Op>, job: nat) {
    forall i | 0 <= i < |ops| && ops[i].OpMerge? :: ops[i].job != job
  }

  ghost predicate EnvOthers(envs: seq<Env>, job: nat) {
    forall k, b | 0 <= k < |envs| && b in envs[k].ops :: OtherJobs(envs[k].ops[b], job)
  }

  /** A merge adds to a job's entries only when that job commits. */
  lemma {:induction false} OwnMerge(kind: StoreKind, st: BucketState, writer: nat, rs: seq<Report>, job: nat)
    ensures Own(BucketMerge(kind, st, writer, rs).0.log, job)
         == Own(st.log, job) + if writer == job && Commits(st, rs) then rs else []
  {
    if Commits(st, rs) {
      OwnConcat(st.log, Entries(rs, writer), job);
      OwnEntries(rs, writer, job);
    }
  }

  lemma {:induction false} OwnUnchanged(kind: StoreKind, st: BucketState, ops: seq<Op>, job: nat)
    requires OtherJobs(ops, job)
    ensures Own(RunOps(kind, st, ops).log, job) == Own(st.log, job)
  {
    if ops != [] {
      OwnUnchanged(kind, st, ops[..|ops| - 1], job);
      var op := ops[|ops| - 1];
      if op.OpMerge? {
        OwnMerge(kind, RunOps(kind, st, ops[..|ops| - 1]), op.job, op.reports, job);
      }
    }
  }

  lemma AddedInBucket(c: Ctx, env: Env, rs: seq<Report>, store: Store, b: Bucket)
    ensures InB(c, AddedInPass(c, env, rs, store), b) == if StoresIn(c, env, rs, store, b) then InB(c, rs, b) else []
  {
    var p, q := Stored(c, env, rs, store), PlacedIn(c.place, b);
    if StoresIn(c, env, rs, store, b) {
      FilterTwice(rs, p, q, q);
    } else {
      FilterTwice(rs, p, q, (r: Report) => false);
      FilterNone(rs);
    }
  }

  /** The job's entries in bucket `b` grow from `store` to `store'` by the reports in `added`. */
  ghost predicate OwnGrows(c: Ctx, store: Store, store': Store, added: seq<Report>, b: Bucket) {
    Own(Lookup(store', b).log, c.job) == Own(Lookup(store, b).log, c.job) + InB(c, added, b)
  }

  lemma PassOwn(c: Ctx, env: Env, rs: seq<Report>, store: Store, b: Bucket)
    requires OtherJobs(OpsOn(env, b), c.job)
    ensures OwnGrows(c, store, PassStore(c, env, rs, store), AddedInPass(c, env, rs, store), b)
  {
    PassLookup(c, env, rs, store, b);
    AddedInBucket(c, env, rs, store, b);
    PassBucketOwn(c, env, b, InB(c, rs, b), Lookup(store, b));
  }

  lemma EnvSplit(envs: seq<Env>, job: nat, b: Bucket)
    requires envs != [] && EnvOthers(envs, job)
    ensures OtherJobs(OpsOn(envs[0], b), job) && EnvOthers(envs[1..], job)
  {
    forall k, b' | 0 <= k < |envs[1..]| && b' in envs[1..][k].ops ensures OtherJobs(envs[1..][k].ops[b'], job) {
      assert b' in envs[k + 1].ops;
    }
  }

  lemma OwnGrowsTwice(c: Ctx, s0: Store, s1: Store, s2: Store, x: seq<Report>, y: seq<Report>, b: Bucket)
    requires OwnGrows(c, s0, s1, x, b) && OwnGrows(c, s1, s2, y, b)
    ensures OwnGrows(c, s0, s2, x + y, b)
  {
    FilterConcat(x, y, PlacedIn(c.place, b));
    Assoc(Own(Lookup(s0, b).log, c.job), InB(c, x, b), InB(c, y, b));
  }

  lemma PassEndOwn(c: Ctx, inits: seq<Initialized>, status: StatusMap, store: Store, env: Env, b: Bucket)
    requires OtherJobs(OpsOn(env, b), c.job)
    ensures var pass := Pass(c, inits, status, store, env);
            OwnGrows(c, store, EndStore(pass), EndAdded(pass), b)
  {
    PassEndParts(c, inits, status, store, env);
    if Transitions(inits, status).Ok? {
      PassOwn(c, env, Pending(inits, status), store, b);
    } else {
      OwnGrowsNot(c, store, b);
    }
  }

  lemma OwnGrowsNot(c: Ctx, store: Store, b: Bucket)
    ensures OwnGrows(c, store, store, [], b)
  {
    assert InB(c, [], b) == [];
  }

  /** However the job ends, its entries in every bucket grow by exactly the reports it added. */
  lemma {:induction false} JobOwn(c: Ctx, inits: seq<Initialized>, status: StatusMap, store: Store, envs: seq<Env>,
                                  b: Bucket)
    requires EnvOthers(envs, c.job)
    ensures var res := JobRun(c, inits, status, store, envs);
            OwnGrows(c, store, res.store, res.added, b)
    decreases |envs|
  {
    if envs == [] {
      OwnGrowsNot(c, store, b);
    } else {
      EnvSplit(envs, c.job, b);
      PassEndOwn(c, inits, status, store, envs[0], b);
      var pass := Pass(c, inits, status, store, envs[0]);
      if pass.Again? {
        var rest := JobRun(c, inits, pass.status, pass.store, envs[1..]);
        JobOwn(c, inits, pass.status, pass.store, envs[1..], b);
        OwnGrowsTwice(c, store, pass.store, rest.store, pass.added, rest.added, b);
      }
    }
  }

  // ---- Statuses and their reasons

  /** The reason for a status, in terms of the bucket of the report. */
  ghost predicate Reason(s: Status, id: ReportId, st: BucketState) {
    match s
    case Aggregated => id in st.ids
    case Rejected(ReportReplayed) => id in st.ids
    case Rejected(BatchCollected) => st.collected
    case _ => false
  }

  /** Every status has its reason in the buckets, and only ready reports have one. */
  ghost predicate StatusReasons(c: Ctx, inits: seq<Initialized>, status: StatusMap, store: Store) {
    && (forall r | r in ReadyReports(inits) && r.id in status ::
          Reason(status[r.id], r.id, Lookup(store, c.place(r.id, r.time))))
    && forall id | id in status :: id in IdSet(ReadyReports(inits))
  }

  /** The bucket has only gained IDs and stays collected. */
  ghost predicate Grown(st: BucketState, st': BucketState) {
    st.ids <= st'.ids && (st.collected ==> st'.collected)
  }

  lemma ReasonGrows(s: Status, id: ReportId, st: BucketState, st': BucketState)
    requires Reason(s, id, st) && Grown(st, st')
    ensures Reason(s, id, st')
  {
  }

  /** What the answer to a request for `f` tells about the bucket `st'` it leaves. */
  ghost predicate Explains(result: PutResult, f: seq<Report>, st': BucketState) {
    match result
    case Put(Committed) => forall r | r in f :: r.id in st'.ids
    case Put(AlreadyCollected) => st'.collected
    case Put(ReplaysDetected(ids)) => ids <= st'.ids
    case _ => true
  }

  lemma MergeExplains(kind: StoreKind, st: BucketState, job: nat, f: seq<Report>)
    requires DistinctIds(f)
    ensures var (st', resp) := BucketMerge(kind, st, job, f);
            Grown(st, st') && Explains(Put(resp), f, st')
  {
    MergeCommitted(kind, st, job, f);
    var (st', resp) := BucketMerge(kind, st, job, f);
    forall r | r in f ensures r.id in IdSet(f) {}
    assert resp.ReplaysDetected? ==> resp.ids <= st'.ids;
  }

  lemma PassExplains(c: Ctx, env: Env, b: Bucket, f: seq<Report>, st: BucketState)
    requires DistinctIds(f)
    ensures var (st', result) := PassBucket(c, env, b, f, st);
            Grown(st, st') && Explains(result, f, st')
  {
    RunGrows(c.kind, st, OpsOn(env, b));
    MergeExplains(c.kind, RunOps(c.kind, st, OpsOn(env, b)), c.job, f);
  }

  lemma ReasonFromAnswer(result: PutResult, f: seq<Report>, st': BucketState, r: Report)
    requires Explains(result, f, st') && r in f
    ensures var s := StatusAfter(result, r.id); s.Some? ==> Reason(s.value, r.id, st')
  {
  }

  /** What a pass does to the bucket of a report, and what it answers. */
  lemma PassAt(c: Ctx, env: Env, rs: seq<Report>, store: Store, b: Bucket)
    requires DistinctIds(rs)
    ensures var f := InB(c, rs, b);
            && Grown(Lookup(store, b), Lookup(PassStore(c, env, rs, store), b))
            && Explains(PassResult(c, env, rs, store, b), f, Lookup(PassStore(c, env, rs, store), b))
  {
    PassLookup(c, env, rs, store, b);
    FilterDistinct(rs, PlacedIn(c.place, b));
    PassExplains(c, env, b, InB(c, rs, b), Lookup(store, b));
  }

  lemma {:induction false} ReasonAfter(c: Ctx, inits: seq<Initialized>, status: StatusMap, store: Store, env: Env,
                                       r: Report)
    requires DistinctInits(inits) && r in ReadyReports(inits)
    requires r.id in status ==> Reason(status[r.id], r.id, Lookup(store, c.place(r.id, r.time)))
    ensures var rs := Pending(inits, status);
            var s := NextStatus(c, env, rs, store, status);
            r.id in s ==> Reason(s[r.id], r.id, Lookup(PassStore(c, env, rs, store), c.place(r.id, r.time)))
  {
    var rs, b := Pending(inits, status), c.place(r.id, r.time);
    var store' := PassStore(c, env, rs, store);
    StatusOne(c, env, inits, store, status, r);
    PendingFacts(inits, status);
    PassAt(c, env, rs, store, b);
    if r.id in status {
      ReasonGrows(status[r.id], r.id, Lookup(store, b), Lookup(store', b));
    } else {
      assert r in InB(c, rs, b);
      ReasonFromAnswer(PassResult(c, env, rs, store, b), InB(c, rs, b), Lookup(store', b), r);
    }
  }

  lemma {:induction false} KeysKept(c: Ctx, inits: seq<Initialized>, status: StatusMap, store: Store, env: Env)
    requires DistinctInits(inits) && forall id | id in status :: id in IdSet(ReadyReports(inits))
    ensures forall id | id in NextStatus(c, env, Pending(inits, status), store, status) ::
              id in IdSet(ReadyReports(inits))
  {
    var rs := Pending(inits, status);
    PendingFacts(inits, status);
    forall id | id in NextStatus(c, env, rs, store, status) ensures id in IdSet(ReadyReports(inits)) {
      if id in IdSet(rs) {
        var r :| r in rs && r.id == id;
      } else {
        ExtendOther(c, env, rs, store, status, rs, id);
      }
    }
  }

  /** Reasons survive a pass. */
  lemma ReasonsKept(c: Ctx, inits: seq<Initialized>, status: StatusMap, store: Store, env: Env)
    requires DistinctInits(inits) && StatusReasons(c, inits, status, store)
    ensures var rs := Pending(inits, status);
            StatusReasons(c, inits, NextStatus(c, env, rs, store, status), PassStore(c, env, rs, store))
  {
    var rs := Pending(inits, status);
    var status', store' := NextStatus(c, env, rs, store, status), PassStore(c, env, rs, store);
    KeysKept(c, inits, status, store, env);
    forall r | r in ReadyReports(inits) && r.id in status'
      ensures Reason(status'[r.id], r.id, Lookup(store', c.place(r.id, r.time)))
    {
      ReasonAfter(c, inits, status, store, env, r);
    }
  }

  lemma OnlyCommitted(result: PutResult, id: ReportId)
    ensures StatusAfter(result, id) == Some(Aggregated) <==> result == Put(Committed)
  {
  }

  lemma PassEndSound(c: Ctx, inits: seq<Initialized>, status: StatusMap, store: Store, env: Env)
    requires DistinctInits(inits) && StatusReasons(c, inits, status, store)
    requires Pass(c, inits, status, store, env).Again?
    ensures var pass := Pass(c, inits, status, store, env);
            && StatusReasons(c, inits, pass.status, pass.store)
            && (forall id | id in status :: id in pass.status && pass.status[id] == status[id])
            && (forall r | r in pass.added :: r.id in pass.status && pass.status[r.id] == Aggregated)
  {
    ReasonsKept(c, inits, status, store, env);
    PassKeepsStatus(c, inits, status, store, env);
    PassAdded(c, inits, status, store, env);
  }

  // ---- The response

  /** A ready report is answered `Continued` unless it has been rejected. */
  lemma {:induction false} ReadyTransition(inits: seq<Initialized>, status: StatusMap, i: nat)
    requires i < |inits| && Transitions(inits, status).Ok?
    ensures var t := Transitions(inits, status).value[i];
            && t.id == inits[i].id
            && (t.transition.Continued? <==>
                  IsReady(inits[i]) && !(inits[i].id in status && status[inits[i].id].Rejected?))
  {
    assert TransitionOf(inits[i], status) == Ok(Transitions(inits, status).value[i]);
  }

  /** Whether an answer is right, given the initialized report and the bucket it belongs in. */
  ghost predicate RightAnswer(init: Initialized, t: TransitionVar, st: BucketState) {
    match init
    case NotReady(_, _, failure) => t == Failed(failure)
    case Ready(_, _, FinishRejected) => t == Failed(VdafPrepError)
    case Ready(_, _, FinishFatal) => false
    case Ready(id, _, FinishOk(_, prepMsg)) =>
      match t
      case Continued(message) => Frame(PingPong.Finish, prepMsg) == Ok(message) && id in st.ids
      case Failed(failure) => Reason(Rejected(failure), id, st)
  }

  /** The answer to report `i` is right, and continues the report if it was added or has been aggregated. */
  ghost predicate AnswerSound(c: Ctx, inits: seq<Initialized>, status: StatusMap, res: JobResult, i: nat)
    requires i < |inits| && res.outcome.Done?
  {
    var ts := res.outcome.transitions;
    var x := inits[i];
    && |ts| == |inits| && ts[i].id == x.id
    && RightAnswer(x, ts[i].transition, Lookup(res.store, c.place(x.id, x.time)))
    && (IsReady(x) && x.id in status && status[x.id].Aggregated? ==> ts[i].transition.Continued?)
    && (IsReady(x) && ReportOf(x) in res.added ==> ts[i].transition.Continued?)
  }

  /** A report without an output share has no status. */
  lemma {:induction false} NoStatusUnlessReady(inits: seq<Initialized>, i: nat, id: ReportId)
    requires DistinctInits(inits) && i < |inits| && !IsReady(inits[i]) && id == inits[i].id
    ensures id !in IdSet(ReadyReports(inits))
  {
    forall r | r in ReadyReports(inits) ensures r.id != id {
      var j :| 0 <= j < |inits| && IsReady(inits[j]) && ReportOf(inits[j]) == r;
    }
  }

  /** The answer from a status with its reason is right in every later state of the bucket. */
  lemma RightTransition(init: Initialized, status: StatusMap, st: BucketState)
    requires TransitionOf(init, status).Ok?
    requires !IsReady(init) ==> init.id !in status
    requires init.id in status ==> Reason(status[init.id], init.id, st)
    requires IsReady(init) && init.id !in status ==> init.id in st.ids
    ensures RightAnswer(init, TransitionOf(init, status).value.transition, st)
  {
  }

  lemma DoneNow(c: Ctx, inits: seq<Initialized>, status: StatusMap, store: Store, env: Env, i: nat)
    requires DistinctInits(inits) && StatusReasons(c, inits, status, store) && i < |inits|
    requires Pass(c, inits, status, store, env).Stop? && Pass(c, inits, status, store, env).result.outcome.Done?
    ensures AnswerSound(c, inits, status, Pass(c, inits, status, store, env).result, i)
  {
    var rs, x := Pending(inits, status), inits[i];
    ReadyTransition(inits, status, i);
    if IsReady(x) {
      Settled(c, inits, status, store, env, ReportOf(x));
      PassAdded(c, inits, status, store, env);
    } else {
      NoStatusUnlessReady(inits, i, x.id);
    }
    RightTransition(x, status, Lookup(PassStore(c, env, rs, store), c.place(x.id, x.time)));
  }

  /** After a pass in which every bucket committed, each ready report is stored or has its reason. */
  lemma {:induction false} Settled(c: Ctx, inits: seq<Initialized>, status: StatusMap, store: Store, env: Env,
                                   r: Report)
    requires DistinctInits(inits) && StatusReasons(c, inits, status, store) && r in ReadyReports(inits)
    requires AllCommitted(c, env, Pending(inits, status), store)
    ensures var st' := Lookup(PassStore(c, env, Pending(inits, status), store), c.place(r.id, r.time));
            if r.id in status then Reason(status[r.id], r.id, st') else r.id in st'.ids
  {
    var rs, b := Pending(inits, status), c.place(r.id, r.time);
    PendingFacts(inits, status);
    PassAt(c, env, rs, store, b);
    if r.id in status {
      ReasonGrows(status[r.id], r.id, Lookup(store, b), Lookup(PassStore(c, env, rs, store), b));
    } else {
      assert r in rs;
      assert r in InB(c, rs, b) && ResultFor(c, env, rs, store, r) == Put(Committed);
    }
  }

  lemma {:induction false} DoneFacts(c: Ctx, inits: seq<Initialized>, status: StatusMap, store: Store, envs: seq<Env>,
                                     i: nat)
    requires DistinctInits(inits) && StatusReasons(c, inits, status, store)
    requires i < |inits| && JobRun(c, inits, status, store, envs).outcome.Done?
    ensures AnswerSound(c, inits, status, JobRun(c, inits, status, store, envs), i)
    decreases |envs|
  {
    var pass := Pass(c, inits, status, store, envs[0]);
    if pass.Stop? {
      DoneNow(c, inits, status, store, envs[0], i);
    } else {
      PassEndSound(c, inits, status, store, envs[0]);
      DoneFacts(c, inits, pass.status, pass.store, envs[1..], i);
    }
  }

  /**
  Exact commit of a job, with other jobs' operations interleaved and storage failures anywhere:
  its entries in the buckets are exactly the reports it added, each a ready report of the job
  and added once. If it completes, the response answers every initialized report in order, every
  added report is continued, and every answer is right: continued reports carry the Helper's
  message and are stored, replayed ones were stored, and the others belong in collected buckets
  or failed before they reached one.
  */
  lemma {:induction false} ExactCommit(c: Ctx, inits: seq<Initialized>, store: Store, envs: seq<Env>)
    requires DistinctInits(inits) && EnvOthers(envs, c.job)
    ensures var res := JobRun(c, inits, map[], store, envs);
            && DistinctIds(res.added) && (forall r | r in res.added :: r in ReadyReports(inits))
            && (forall b :: OwnGrows(c, store, res.store, res.added, b))
            && (res.outcome.Done? ==> forall i | 0 <= i < |inits| :: AnswerSound(c, inits, map[], res, i))
  {
    var res := JobRun(c, inits, map[], store, envs);
    AddedSound(c, inits, map[], store, envs);
    forall b ensures OwnGrows(c, store, res.store, res.added, b) {
      JobOwn(c, inits, map[], store, envs, b);
    }
    if res.outcome.Done? {
      forall i | 0 <= i < |inits| ensures AnswerSound(c, inits, map[], res, i) {
        DoneFacts(c, inits, map[], store, envs, i);
      }
    }
  }
}
