/**
Agreement of Leader and Helper on one job: when the Leader aggregates exactly the reports the
Helper has added, for a job run once and for a job retried after failures.
*/
module Agreement {
  import opened Wrappers
  import opened PrimeField
  import opened AggShare
  import opened Buckets
  import opened BucketStore
  import opened HelperJob
  import opened HelperTheorems
  import opened HelperRetry
  import opened LeaderJob
  import opened LeaderHelper
  import opened JobHistory

  // ---- Counts and checksums of the same reports

  /** The same reports, by ID and time, each once. */
  ghost predicate SameReports(a: seq<Report>, b: seq<Report>) {
    DistinctIds(a) && DistinctIds(b) && MetaSet(a) == MetaSet(b)
  }

  lemma {:induction false} XorRemove(sha: Sha, rs: seq<Report>, k: nat)
    requires k < |rs|
    ensures XorAll(sha, rs) == Xor(XorAll(sha, rs[..k] + rs[k + 1..]), sha(rs[k].id))
  {
    var n := |rs| - 1;
    if k == n {
      assert rs[..k] + rs[k + 1..] == rs[..n];
    } else {
      XorRemove(sha, rs[..n], k);
      var rest := rs[..k] + rs[k + 1..];
      LastKept(rs, k);
      var x, y, z := XorAll(sha, rest[..|rest| - 1]), sha(rs[k].id), sha(rs[n].id);
      XorLaws(x, y, z);
      XorLaws(y, z, x);
      XorLaws(x, z, y);
    }
  }

  /** Leaving out an element before the last one leaves the last one last. */
  lemma LastKept<T>(rs: seq<T>, k: nat)
    requires k + 1 < |rs|
    ensures var rest, init := rs[..k] + rs[k + 1..], rs[..|rs| - 1];
            rest[|rest| - 1] == rs[|rs| - 1] && rest[..|rest| - 1] == init[..k] + init[k + 1..]
  {
    assert rs[k + 1..][..|rs| - k - 2] == rs[..|rs| - 1][k + 1..];
  }

  lemma SlicesApart(rs: seq<Report>, i: nat, j: nat)
    requires DistinctIds(rs) && i <= j <= |rs|
    ensures IdSet(rs[..i]) !! IdSet(rs[j..])
  {
    forall r, s | r in rs[..i] && s in rs[j..] ensures r.id != s.id {
      var p :| 0 <= p < i && rs[p] == r;
      var q :| 0 <= q < |rs| - j && rs[j..][q] == s;
      assert rs[j + q] == s;
    }
  }

  lemma RemoveAt(rs: seq<Report>, k: nat)
    requires DistinctIds(rs) && k < |rs|
    ensures var rest := rs[..k] + rs[k + 1..];
            DistinctIds(rest) && IdSet(rest) == IdSet(rs) - {rs[k].id}
  {
    var a, x, b := rs[..k], rs[k], rs[k + 1..];
    ThreeParts(rs, k);
    SlicesApart(rs, k, k + 1);
    DistinctConcat(a, b);
    IdSetConcat(a, b);
    forall r: Report | r in a + b ensures r.id != x.id {
      var i :| 0 <= i < |a + b| && (a + b)[i] == r;
      assert r == rs[if i < k then i else i + 1];
    }
  }

  lemma ThreeParts(rs: seq<Report>, k: nat)
    requires k < |rs|
    ensures IdSet(rs) == IdSet(rs[..k]) + {rs[k].id} + IdSet(rs[k + 1..])
  {
    var a, x, b := rs[..k], rs[k], rs[k + 1..];
    assert rs == a + ([x] + b);
    IdSetConcat(a, [x] + b);
    IdSetConcat([x], b);
    assert IdSet([x]) == {x.id};
  }

  /** The checksum depends only on the set of IDs. */
  lemma {:induction false} XorSame(sha: Sha, a: seq<Report>, b: seq<Report>)
    requires DistinctIds(a) && DistinctIds(b) && IdSet(a) == IdSet(b)
    ensures XorAll(sha, a) == XorAll(sha, b) && |a| == |b|
    decreases |a|
  {
    DistinctCard(a);
    DistinctCard(b);
    if a != [] {
      var n := |a| - 1;
      assert a[n] in a && a[n].id in IdSet(b);
      var k :| 0 <= k < |b| && b[k].id == a[n].id;
      RemoveAt(a, n);
      RemoveAt(b, k);
      assert a[..n] + a[n + 1..] == a[..n];
      XorSame(sha, a[..n], b[..k] + b[k + 1..]);
      XorRemove(sha, b, k);
    }
  }

  /** One side: its configuration, its reports and the order in which bucket shares arrive. */
  ghost predicate SideOk(cfg: TaskConfig, sel: BatchSelector, rs: seq<Report>, order: seq<Bucket>, sh: Shape) {
    && cfg.Valid() && Aligned(cfg, sel) && AllShaped(rs, sh)
    && Distinct(order) && (set b | b in order) == SpanFor(cfg, sel)
  }

  // ---- One job

  /** Continued and added reports coincide exactly if their metadata does. */
  lemma {:induction false} MetasExact(prepInits: seq<PrepInit>, inits: seq<Initialized>, ts: seq<Transition>,
                                      added: seq<Report>)
    requires |prepInits| == |inits| == |ts| && DistinctInits(inits)
    requires forall i | 0 <= i < |inits| :: inits[i].id == prepInits[i].id && inits[i].time == prepInits[i].time
    requires forall r | r in added :: r in ReadyReports(inits)
    ensures ContinuesAdded(inits, ts, added) <==> ContinuedMetas(StatesOf(prepInits), ts) == MetaSet(added)
  {
    var states := StatesOf(prepInits);
    var metas := seq(|ts|, i requires 0 <= i < |ts| => MetaAt(states, i));
    forall i | 0 <= i < |ts|
      ensures metas[i] in ContinuedMetas(states, ts) <==> ts[i].transition.Continued?
      ensures metas[i] in MetaSet(added) <==> IsReady(inits[i]) && ReportOf(inits[i]) in added
    {
      ContinuedAt(states, inits, ts, i);
      AddedAt(inits, added, i);
    }
    forall m | m in ContinuedMetas(states, ts) ensures m in metas {
      var i := ContinuedIndex(states, ts, m);
      assert m == metas[i];
    }
    forall m | m in MetaSet(added) ensures m in metas {
      var i := AddedIndex(states, inits, added, m);
      assert m == metas[i];
    }
    SameMembers(metas, ContinuedMetas(states, ts), MetaSet(added));
  }

  /** Two sets of listed elements are equal if they agree on each of those listed. */
  lemma SameMembers<T>(listed: seq<T>, a: set<T>, b: set<T>)
    requires (forall x | x in a :: x in listed) && (forall x | x in b :: x in listed)
    ensures a == b <==> forall i | 0 <= i < |listed| :: listed[i] in a <==> listed[i] in b
  {
    if forall i | 0 <= i < |listed| :: listed[i] in a <==> listed[i] in b {
      forall x ensures x in a <==> x in b {
        if x in listed {
          var i :| 0 <= i < |listed| && listed[i] == x;
        }
      }
    }
  }

  ghost function MetaAt(states: seq<JobState>, i: nat): (ReportId, nat)
    requires i < |states|
  {
    (states[i].id, states[i].time)
  }

  lemma ContinuedIndex(states: seq<JobState>, ts: seq<Transition>, m: (ReportId, nat)) returns (i: nat)
    requires |states| == |ts| && m in ContinuedMetas(states, ts)
    ensures i < |ts| && m == MetaAt(states, i)
  {
    i :| 0 <= i < |ts| && ts[i].transition.Continued? && m == (states[i].id, states[i].time);
  }

  lemma AddedIndex(states: seq<JobState>, inits: seq<Initialized>, added: seq<Report>, m: (ReportId, nat))
    returns (i: nat)
    requires |states| == |inits| && m in MetaSet(added) && forall r | r in added :: r in ReadyReports(inits)
    requires forall k | 0 <= k < |inits| :: inits[k].id == states[k].id && inits[k].time == states[k].time
    ensures i < |inits| && IsReady(inits[i]) && ReportOf(inits[i]) in added && m == MetaAt(states, i)
  {
    var r :| r in added && Meta(r) == m;
    i :| 0 <= i < |inits| && IsReady(inits[i]) && ReportOf(inits[i]) == r;
  }

  lemma ContinuedAt(states: seq<JobState>, inits: seq<Initialized>, ts: seq<Transition>, i: nat)
    requires |states| == |inits| == |ts| && DistinctInits(inits) && i < |inits|
    requires forall k | 0 <= k < |inits| :: inits[k].id == states[k].id
    ensures MetaAt(states, i) in ContinuedMetas(states, ts) <==> ts[i].transition.Continued?
  {
    var m := (states[i].id, states[i].time);
    if m in ContinuedMetas(states, ts) {
      var k :| 0 <= k < |ts| && ts[k].transition.Continued? && m == (states[k].id, states[k].time);
      assert inits[k].id == inits[i].id;
    }
  }

  lemma {:induction false} AddedAt(inits: seq<Initialized>, added: seq<Report>, i: nat)
    requires DistinctInits(inits) && i < |inits| && forall r | r in added :: r in ReadyReports(inits)
    ensures (inits[i].id, inits[i].time) in MetaSet(added) <==> IsReady(inits[i]) && ReportOf(inits[i]) in added
  {
    var m := (inits[i].id, inits[i].time);
    if m in MetaSet(added) {
      var r :| r in added && Meta(r) == m;
      var k :| 0 <= k < |inits| && IsReady(inits[k]) && ReportOf(inits[k]) == r;
      assert inits[k].id == inits[i].id;
    }
    if IsReady(inits[i]) && ReportOf(inits[i]) in added {
      assert Meta(ReportOf(inits[i])) == m;
    }
  }

  /** If the Leader's preparation succeeds on the continued reports, it aggregates exactly these. */
  lemma {:induction false} LeaderHolds(v: Preparer, prepInits: seq<PrepInit>, inits: seq<Initialized>, last: StatusMap,
                    ts: seq<Transition>, finish: Finisher)
    requires Consumed(v, prepInits, inits) && Transitions(inits, last) == Ok(ts) && LeaderSucceeds(inits, ts, finish)
    ensures LeaderReports(StatesOf(prepInits), ts, finish).Ok?
    ensures var leader := LeaderReports(StatesOf(prepInits), ts, finish).value;
            DistinctIds(leader) && MetaSet(leader) == ContinuedMetas(StatesOf(prepInits), ts)
  {
    var states := StatesOf(prepInits);
    ConsumedMetas(v, prepInits, inits);
    forall i | 0 <= i < |ts|
      ensures LeaderTake(states[i], ts[i], finish).Ok?
      ensures LeaderTake(states[i], ts[i], finish).value.Some? == ts[i].transition.Continued?
    {
      TakeAnswer(prepInits, inits, last, ts, finish, i);
    }
    LeaderAggregates(states, ts, finish);
  }

  /** Then it agrees with the Helper exactly if the response continues the reports the Helper added. */
  lemma {:induction false} LeaderAgrees(v: Preparer, prepInits: seq<PrepInit>, inits: seq<Initialized>, last: StatusMap,
                     ts: seq<Transition>,
                     finish: Finisher, added: seq<Report>)
    requires Consumed(v, prepInits, inits) && Transitions(inits, last) == Ok(ts) && LeaderSucceeds(inits, ts, finish)
    requires DistinctIds(added) && forall r | r in added :: r in ReadyReports(inits)
    ensures LeaderReports(StatesOf(prepInits), ts, finish).Ok?
    ensures SameReports(LeaderReports(StatesOf(prepInits), ts, finish).value, added)
       <==> ContinuesAdded(inits, ts, added)
  {
    ConsumedMetas(v, prepInits, inits);
    LeaderHolds(v, prepInits, inits, last, ts, finish);
    MetasExact(prepInits, inits, ts, added);
  }

  /**
  One completed job, with other jobs interleaved and buckets collected at any time: if nobody else
  stores its reports and the Leader's preparation succeeds on the continued ones, then what the
  Leader aggregates is what the Helper added, if and only if no bucket was open and held all of the
  job's reports for it when the first request arrived.
  */
  lemma {:induction false} JobAgreement(v: Preparer, prepInits: seq<PrepInit>, inits: seq<Initialized>, c: Ctx,
                                        store: Store,
                     envs: seq<Env>, finish: Finisher)
    requires Consumed(v, prepInits, inits)
    requires c.kind.Durable? && envs != [] && EnvsApart(envs, inits)
    requires var res := JobRun(c, inits, map[], store, envs);
             res.outcome.Done? && |res.outcome.transitions| == |inits|
             && LeaderSucceeds(inits, res.outcome.transitions, finish)
    ensures var res := JobRun(c, inits, map[], store, envs);
            var leader := LeaderReports(StatesOf(prepInits), res.outcome.transitions, finish);
            leader.Ok? && (SameReports(leader.value, res.added) <==> forall b :: !AllThere(c, inits, store, envs[0], b))
  {
    ConsumedMetas(v, prepInits, inits);
    ContinuedAreAdded(c, inits, store, envs);
    AddedSound(c, inits, map[], store, envs);
    var last := DoneTransitions(c, inits, map[], store, envs);
    var res := JobRun(c, inits, map[], store, envs);
    LeaderAgrees(v, prepInits, inits, last, res.outcome.transitions, finish, res.added);
  }

  // ---- A job retried until it completes

  /** The Leader sends the same job again and again; the last attempt decides the outcome. */
  ghost function Attempts(c: Ctx, inits: seq<Initialized>, store: Store, attempts: seq<seq<Env>>): JobResult {
    if attempts == [] then JobResult(StorageFailure, store, [])
    else
      var before := Attempts(c, inits, store, attempts[..|attempts| - 1]);
      var last := JobRun(c, inits, map[], before.store, attempts[|attempts| - 1]);
      JobResult(last.outcome, last.store, before.added + last.added)
  }

  /** None of the job's reports is stored yet. */
  ghost predicate NoneStored(c: Ctx, inits: seq<Initialized>, store: Store) {
    forall r | r in ReadyReports(inits) :: r.id !in Lookup(store, c.place(r.id, r.time)).ids
  }

  /** What holds after every attempt: exactly the reports added are stored, bucket by bucket all or none. */
  ghost predicate AttemptsInv(c: Ctx, inits: seq<Initialized>, res: JobResult) {
    && DistinctIds(res.added)
    && (forall r | r in res.added :: r in ReadyReports(inits))
    && (forall r | r in ReadyReports(inits) :: r in res.added <==> r.id in Lookup(res.store, c.place(r.id, r.time)).ids)
    && (forall b :: AllOrNone(Mine(c, inits, b), Lookup(res.store, b)))
  }

  ghost predicate AllApart(attempts: seq<seq<Env>>, inits: seq<Initialized>) {
    forall k | 0 <= k < |attempts| :: EnvsApart(attempts[k], inits)
  }

  lemma NoneAnywhere(c: Ctx, inits: seq<Initialized>, store: Store, b: Bucket)
    requires NoneStored(c, inits, store)
    ensures AllOrNone(Mine(c, inits, b), Lookup(store, b))
  {
  }

  lemma {:induction false} AttemptStores(c: Ctx, inits: seq<Initialized>, before: JobResult, envs: seq<Env>, r: Report)
    requires c.kind.Durable? && DistinctInits(inits) && EnvsApart(envs, inits) && AttemptsInv(c, inits, before)
    requires r in ReadyReports(inits)
    ensures var run := JobRun(c, inits, map[], before.store, envs);
            r in before.added + run.added <==> r.id in Lookup(run.store, c.place(r.id, r.time)).ids
  {
    var run := JobRun(c, inits, map[], before.store, envs);
    var i :| 0 <= i < |inits| && IsReady(inits[i]) && ReportOf(inits[i]) == r;
    JobStoresAdded(c, inits, map[], before.store, envs, i);
    RunGrowsIds(c, inits, map[], before.store, envs, c.place(r.id, r.time));
    if r in run.added {
      AddedStored(c, inits, map[], before.store, envs, r);
    }
  }

  lemma {:induction false} AttemptDistinct(c: Ctx, inits: seq<Initialized>, before: JobResult, envs: seq<Env>)
    requires c.kind.Durable? && DistinctInits(inits) && AttemptsInv(c, inits, before)
    ensures DistinctIds(before.added + JobRun(c, inits, map[], before.store, envs).added)
  {
    var added := JobRun(c, inits, map[], before.store, envs).added;
    AddedSound(c, inits, map[], before.store, envs);
    forall id | id in IdSet(before.added) && id in IdSet(added) ensures false {
      var x :| x in before.added && x.id == id;
      var y :| y in added && y.id == id;
      ReadyDistinct(inits);
      SameId(ReadyReports(inits), x, y);
      AddedNew(c, inits, map[], before.store, envs, y);
    }
    DistinctConcat(before.added, added);
  }

  lemma {:induction false} AttemptWhole(c: Ctx, inits: seq<Initialized>, store: Store, envs: seq<Env>, b: Bucket)
    requires c.kind.Durable? && DistinctInits(inits) && EnvsApart(envs, inits)
    requires AllOrNone(Mine(c, inits, b), Lookup(store, b))
    ensures AllOrNone(Mine(c, inits, b), Lookup(JobRun(c, inits, map[], store, envs).store, b))
  {
    forall k | 0 <= k < |envs| ensures WholeOps(OpsOn(envs[k], b), Mine(c, inits, b)) {
      ApartWhole(c, inits, envs[k], b);
    }
    RunWhole(c, inits, map[], store, envs, b);
  }

  lemma {:induction false} AttemptsKeep(c: Ctx, inits: seq<Initialized>, store: Store, attempts: seq<seq<Env>>)
    requires c.kind.Durable? && DistinctInits(inits) && AllApart(attempts, inits) && NoneStored(c, inits, store)
    ensures AttemptsInv(c, inits, Attempts(c, inits, store, attempts))
  {
    if attempts == [] {
      forall b ensures AllOrNone(Mine(c, inits, b), Lookup(store, b)) {
        NoneAnywhere(c, inits, store, b);
      }
    } else {
      var init, envs := attempts[..|attempts| - 1], attempts[|attempts| - 1];
      AttemptsKeep(c, inits, store, init);
      AttemptKeeps(c, inits, Attempts(c, inits, store, init), envs);
    }
  }

  lemma {:induction false} AttemptKeeps(c: Ctx, inits: seq<Initialized>, before: JobResult, envs: seq<Env>)
    requires c.kind.Durable? && DistinctInits(inits) && EnvsApart(envs, inits) && AttemptsInv(c, inits, before)
    ensures var run := JobRun(c, inits, map[], before.store, envs);
            AttemptsInv(c, inits, JobResult(run.outcome, run.store, before.added + run.added))
  {
    var run := JobRun(c, inits, map[], before.store, envs);
    AddedSound(c, inits, map[], before.store, envs);
    AttemptDistinct(c, inits, before, envs);
    forall r | r in ReadyReports(inits)
      ensures r in before.added + run.added <==> r.id in Lookup(run.store, c.place(r.id, r.time)).ids
    {
      AttemptStores(c, inits, before, envs, r);
    }
    forall b ensures AllOrNone(Mine(c, inits, b), Lookup(run.store, b)) {
      AttemptWhole(c, inits, before.store, envs, b);
    }
  }

  /** A bucket to which an earlier attempt committed is collected when the last attempt's first request arrives. */
  ghost predicate CollectedMeanwhile(c: Ctx, before: JobResult, env: Env) {
    exists r :: r in before.added && AtRequest(c, before.store, env, c.place(r.id, r.time)).collected
  }

  /**
  Report `i` is continued by the last attempt and added by some attempt, or neither, unless it was
  collected meanwhile.
  */
  lemma {:induction false} RetriedAnswer(c: Ctx, inits: seq<Initialized>, before: JobResult, envs: seq<Env>, i: nat)
    requires c.kind.Durable? && DistinctInits(inits) && EnvsApart(envs, inits) && AttemptsInv(c, inits, before)
    requires i < |inits| && IsReady(inits[i]) && JobRun(c, inits, map[], before.store, envs).outcome.Done?
    ensures envs != []
    ensures var run, r := JobRun(c, inits, map[], before.store, envs), ReportOf(inits[i]);
            var st := AtRequest(c, before.store, envs[0], c.place(r.id, r.time));
            && |run.outcome.transitions| == |inits|
            && (run.outcome.transitions[i].transition.Continued? <==> !st.collected)
            && (r in before.added + run.added <==> !st.collected || r in before.added)
  {
    var run, r := JobRun(c, inits, map[], before.store, envs), ReportOf(inits[i]);
    var b := c.place(r.id, r.time);
    assert r in ReadyReports(inits);
    ApartWhole(c, inits, envs[0], b);
    WholeRun(Lookup(before.store, b), OpsOn(envs[0], b), Mine(c, inits, b));
    FirstDecides(c, inits, before.store, envs, i);
    AttemptStores(c, inits, before, envs, r);
    if AtRequest(c, before.store, envs[0], b).collected {
      CollectedAtRequest(c, inits, before.store, envs, b);
      ThereFromStart(c, inits, before.store, envs[0], i);
    } else {
      DoneFacts(c, inits, map[], before.store, envs, i);
    }
  }

  /**
  The completed attempt continues exactly the reports added by all attempts together, if and only
  if no bucket with reports of earlier attempts was collected before it.
  */
  lemma {:induction false} RetriedContinues(c: Ctx, inits: seq<Initialized>, before: JobResult, envs: seq<Env>)
    requires c.kind.Durable? && DistinctInits(inits) && EnvsApart(envs, inits) && AttemptsInv(c, inits, before)
    requires JobRun(c, inits, map[], before.store, envs).outcome.Done?
    ensures envs != []
    ensures var run := JobRun(c, inits, map[], before.store, envs);
            (ContinuesAdded(inits, run.outcome.transitions, before.added + run.added)
             <==> !CollectedMeanwhile(c, before, envs[0]))
  {
    var run := JobRun(c, inits, map[], before.store, envs);
    var last := DoneTransitions(c, inits, map[], before.store, envs);
    if CollectedMeanwhile(c, before, envs[0]) {
      var r :| r in before.added && AtRequest(c, before.store, envs[0], c.place(r.id, r.time)).collected;
      var i :| 0 <= i < |inits| && IsReady(inits[i]) && ReportOf(inits[i]) == r;
      RetriedAnswer(c, inits, before, envs, i);
    } else {
      forall i | 0 <= i < |inits|
        ensures run.outcome.transitions[i].transition.Continued?
           <==> IsReady(inits[i]) && ReportOf(inits[i]) in before.added + run.added
      {
        if IsReady(inits[i]) {
          RetriedAnswer(c, inits, before, envs, i);
        } else {
          DoneFacts(c, inits, map[], before.store, envs, i);
        }
      }
    }
  }

  /**
  A job retried through any storage failures, while others store other reports and collect
  buckets: once it completes, what the Leader aggregates from the last response is what the Helper
  added over all attempts, if and only if no bucket to which an earlier attempt committed was
  collected before the last attempt reached it.
  */
  lemma {:induction false} RetriedAgreement(v: Preparer, prepInits: seq<PrepInit>, inits: seq<Initialized>, c: Ctx,
                                            store: Store,
                         attempts: seq<seq<Env>>, envs: seq<Env>, finish: Finisher)
    requires Consumed(v, prepInits, inits)
    requires c.kind.Durable? && AllApart(attempts, inits) && EnvsApart(envs, inits) && NoneStored(c, inits, store)
    requires var run := JobRun(c, inits, map[], Attempts(c, inits, store, attempts).store, envs);
             run.outcome.Done? && |run.outcome.transitions| == |inits|
             && LeaderSucceeds(inits, run.outcome.transitions, finish)
    ensures envs != []
    ensures var before := Attempts(c, inits, store, attempts);
            var run := JobRun(c, inits, map[], before.store, envs);
            var leader := LeaderReports(StatesOf(prepInits), run.outcome.transitions, finish);
            && leader.Ok?
            && (SameReports(leader.value, before.added + run.added) <==> !CollectedMeanwhile(c, before, envs[0]))
  {
    ConsumedMetas(v, prepInits, inits);
    AttemptsKeep(c, inits, store, attempts);
    var before := Attempts(c, inits, store, attempts);
    RetriedContinues(c, inits, before, envs);
    AttemptKeeps(c, inits, before, envs);
    var run := JobRun(c, inits, map[], before.store, envs);
    var last := DoneTransitions(c, inits, map[], before.store, envs);
    LeaderAgrees(v, prepInits, inits, last, run.outcome.transitions, finish, before.added + run.added);
  }

  /**
  A job of one report whose first attempt commits it before the storage fails, and whose bucket is
  collected before the second: the Helper has added the report and rejects it.
  */
  lemma LostByCollection(c: Ctx) returns (inits: seq<Initialized>, first: seq<Env>, second: seq<Env>)
    requires c.kind.Durable?
    ensures |inits| == 1 && IsReady(inits[0]) && EnvsApart(first, inits) && EnvsApart(second, inits)
    ensures var before := Attempts(c, inits, map[], [first]);
            var run := JobRun(c, inits, map[], before.store, second);
            && before.added == [ReportOf(inits[0])] && run.outcome.Done? && |run.outcome.transitions| == 1
            && run.outcome.transitions[0].transition == Failed(BatchCollected)
  {
    var r := Report(ZERO_DIGEST[..16], 0, VdafShare(Field64, [1]));
    var b := c.place(r.id, r.time);
    inits := [Ready(r.id, r.time, FinishOk(r.data, []))];
    first, second := [Env(map[], map[b := FailAfter])], [Env(map[b := [OpMarkCollected]], map[]), QUIET];
    LostRuns(c, inits, r, b);
  }

  lemma {:induction false} OneAttempt(c: Ctx, inits: seq<Initialized>, store: Store, envs: seq<Env>)
    ensures Attempts(c, inits, store, [envs]) == JobRun(c, inits, map[], store, envs)
  {
    assert [envs][..0] == [];
    assert Attempts(c, inits, store, []) == JobResult(StorageFailure, store, []);
    NothingBefore(JobRun(c, inits, map[], store, envs));
  }

  lemma NothingBefore(run: JobResult)
    ensures JobResult(run.outcome, run.store, [] + run.added) == run
  {
    assert [] + run.added == run.added;
  }

  lemma {:induction false} LostRuns(c: Ctx, inits: seq<Initialized>, r: Report, b: Bucket)
    requires c.kind.Durable? && |inits| == 1 && IsReady(inits[0])
    requires ReportOf(inits[0]) == r && b == c.place(r.id, r.time)
    ensures var before := Attempts(c, inits, map[], [[Env(map[], map[b := FailAfter])]]);
            var run := JobRun(c, inits, map[], before.store, [Env(map[b := [OpMarkCollected]], map[]), QUIET]);
            && before.added == [r] && run.outcome.Done? && |run.outcome.transitions| == 1
            && run.outcome.transitions[0].transition == Failed(BatchCollected)
  {
    var first := [Env(map[], map[b := FailAfter])];
    LostFirst(c, inits, r, b);
    OneAttempt(c, inits, map[], first);
    LostAgain(c, inits, JobRun(c, inits, map[], map[], first).store, r, b);
  }

  lemma {:induction false} OnlyReport(c: Ctx, inits: seq<Initialized>, r: Report)
    requires |inits| == 1 && IsReady(inits[0]) && ReportOf(inits[0]) == r
    ensures ReadyReports(inits) == [r] && Pending(inits, map[]) == [r] && InB(c, [r], c.place(r.id, r.time)) == [r]
    ensures Transitions(inits, map[]).Ok? && DistinctInits(inits)
  {
    assert inits[..0] == [] && [r][..0] == [];
    assert Filter([], NoStatus(map[])) == [] && Filter([], PlacedIn(c.place, c.place(r.id, r.time))) == [];
  }

  /** The first attempt stores the report and fails. */
  lemma {:induction false} LostFirst(c: Ctx, inits: seq<Initialized>, r: Report, b: Bucket)
    requires c.kind.Durable? && |inits| == 1 && IsReady(inits[0])
    requires ReportOf(inits[0]) == r && b == c.place(r.id, r.time)
    ensures var res := JobRun(c, inits, map[], map[], [Env(map[], map[b := FailAfter])]);
            && res.outcome.StorageFailure? && res.added == [r]
            && Lookup(res.store, b) == BucketState([Entry(r, c.job)], {r.id}, false)
  {
    var env := Env(map[], map[b := FailAfter]);
    OnlyReport(c, inits, r);
    assert IdSet([r]) == {r.id};
    assert [] + Entries([r], c.job) == [Entry(r, c.job)];
    PassLookup(c, env, [r], map[], b);
    assert ResultFor(c, env, [r], map[], r).PutError?;
    assert Stored(c, env, [r], map[])(r);
    assert [r][..0] == [] && Filter([], Stored(c, env, [r], map[])) == [];
  }

  /** The second attempt finds the bucket collected. */
  lemma {:induction false} LostAgain(c: Ctx, inits: seq<Initialized>, store: Store, r: Report, b: Bucket)
    requires c.kind.Durable? && |inits| == 1 && IsReady(inits[0])
    requires ReportOf(inits[0]) == r && b == c.place(r.id, r.time)
    requires Lookup(store, b) == BucketState([Entry(r, c.job)], {r.id}, false)
    ensures var run := JobRun(c, inits, map[], store, [Env(map[b := [OpMarkCollected]], map[]), QUIET]);
            && run.outcome.Done? && |run.outcome.transitions| == 1
            && run.outcome.transitions[0].transition == Failed(BatchCollected)
  {
    var env := Env(map[b := [OpMarkCollected]], map[]);
    OnlyReport(c, inits, r);
    LostPass(c, inits, store, r, b);
    var pass := Pass(c, inits, map[], store, env);
    RejectedJob(c, inits, pass.status, pass.store, r);
    assert [env, QUIET][1..] == [QUIET];
  }

  lemma LostPass(c: Ctx, inits: seq<Initialized>, store: Store, r: Report, b: Bucket)
    requires c.kind.Durable? && |inits| == 1 && IsReady(inits[0])
    requires ReportOf(inits[0]) == r && b == c.place(r.id, r.time)
    requires Lookup(store, b) == BucketState([Entry(r, c.job)], {r.id}, false)
    ensures var pass := Pass(c, inits, map[], store, Env(map[b := [OpMarkCollected]], map[]));
            pass.Again? && r.id in pass.status && pass.status[r.id] == Rejected(BatchCollected)
  {
    var env := Env(map[b := [OpMarkCollected]], map[]);
    OnlyReport(c, inits, r);
    assert [OpMarkCollected][..0] == [];
    assert RunOps(c.kind, Lookup(store, b), OpsOn(env, b)).collected;
    assert ResultFor(c, env, [r], store, r) == Put(AlreadyCollected);
    StatusOne(c, env, inits, store, map[], r);
    AgainParts(c, inits, map[], store, env);
  }

  /** A job whose only report has been rejected completes with that answer. */
  lemma {:induction false} RejectedJob(c: Ctx, inits: seq<Initialized>, status: StatusMap, store: Store, r: Report)
    requires |inits| == 1 && IsReady(inits[0]) && ReportOf(inits[0]) == r
    requires r.id in status && status[r.id] == Rejected(BatchCollected)
    ensures var run := JobRun(c, inits, status, store, [QUIET]);
            && run.outcome.Done? && |run.outcome.transitions| == 1
            && run.outcome.transitions[0].transition == Failed(BatchCollected)
  {
    OnlyReport(c, inits, r);
    assert [r][..0] == [] && Filter([], NoStatus(status)) == [];
    assert Pending(inits, status) == [];
    assert inits[..0] == [] && Transitions([], status) == Ok([]);
    assert Transitions(inits, status) == Ok([] + [Transition(r.id, Failed(BatchCollected))]);
  }
}
