/**
One job as Leader and Helper see it: the Leader accepts what an honest Helper answers, which
reports it then aggregates, and when these are the reports the Helper has newly stored.
*/
module LeaderHelper {
  import opened Wrappers
  import opened PrimeField
  import opened AggShare
  import opened Buckets
  import opened BucketStore
  import opened HelperJob
  import opened HelperTheorems
  import opened HelperRetry
  import opened LeaderJob
  import opened PingPong

  // ---- The response is acceptable

  lemma {:induction false} DoneTransitions(c: Ctx, inits: seq<Initialized>, status: StatusMap, store: Store,
                                           envs: seq<Env>)
    returns (last: StatusMap)
    requires JobRun(c, inits, status, store, envs).outcome.Done?
    ensures Transitions(inits, last) == Ok(JobRun(c, inits, status, store, envs).outcome.transitions)
    decreases |envs|
  {
    var pass := Pass(c, inits, status, store, envs[0]);
    if pass.Stop? {
      last := status;
    } else {
      last := DoneTransitions(c, inits, pass.status, pass.store, envs[1..]);
    }
  }

  /** The Helper's view of the request: the same reports in the same order. */
  ghost predicate Consumed(v: Preparer, prepInits: seq<PrepInit>, inits: seq<Initialized>) {
    && |inits| == |prepInits| && DistinctPrepInits(prepInits)
    && forall i | 0 <= i < |inits| :: InitOf(v, prepInits[i]) == Ok(inits[i])
  }

  lemma ConsumedMetas(v: Preparer, prepInits: seq<PrepInit>, inits: seq<Initialized>)
    requires Consumed(v, prepInits, inits)
    ensures DistinctInits(inits)
    ensures forall i | 0 <= i < |inits| ::
              inits[i].id == StatesOf(prepInits)[i].id && inits[i].time == StatesOf(prepInits)[i].time
  {
    forall i | 0 <= i < |inits| ensures inits[i].id == prepInits[i].id && inits[i].time == prepInits[i].time {
      assert InitOf(v, prepInits[i]) == Ok(inits[i]);
    }
  }

  /** The framing of the Leader's request is always understood: the Helper prepares with the Leader's share. */
  lemma RequestUnderstood(r: LeaderReport, v: Preparer)
    requires r.prep.PrepOk? && RequestFor(r).Ok? && v.early(r.id, r.time) == Ok(None)
    ensures var p := RequestFor(r).value.value;
            InitOf(v, p) == match v.prepare(r.id, r.prep.prepShare)
                            case None => Ok(NotReady(r.id, r.time, VdafPrepError))
                            case Some(finish) => Ok(Ready(r.id, r.time, finish))
  {
    FramedExact(RequestFor(r).value.value.payload, Initialize, r.prep.prepShare);
  }

  /** An answer continues a ready report with the Helper's own message, in a frame the Leader decodes. */
  lemma AnswerFramed(init: Initialized, status: StatusMap)
    requires TransitionOf(init, status).Ok? && TransitionOf(init, status).value.transition.Continued?
    ensures IsReady(init) && TransitionOf(init, status).value.id == init.id
    ensures DecodeFramed(TransitionOf(init, status).value.transition.message, PingPong.Finish)
         == Ok(init.finish.prepMsg)
  {
    FramedExact(TransitionOf(init, status).value.transition.message, PingPong.Finish, init.finish.prepMsg);
  }

  /** The Leader's preparation fails outright on the continued report `i`. */
  ghost predicate LeaderFails(inits: seq<Initialized>, ts: seq<Transition>, finish: Finisher, i: nat)
    requires i < |inits| == |ts|
  {
    ts[i].transition.Continued? && IsReady(inits[i]) && finish(inits[i].id, inits[i].finish.prepMsg).LeaderFatal?
  }

  lemma {:induction false} TakeAnswer(prepInits: seq<PrepInit>, inits: seq<Initialized>, status: StatusMap,
                                      ts: seq<Transition>,
                   finish: Finisher, i: nat)
    requires i < |inits| == |prepInits| && Transitions(inits, status) == Ok(ts)
    requires inits[i].id == StatesOf(prepInits)[i].id && inits[i].time == StatesOf(prepInits)[i].time
    ensures LeaderTake(StatesOf(prepInits)[i], ts[i], finish).Err? <==> LeaderFails(inits, ts, finish, i)
    ensures ts[i].id == inits[i].id
    ensures ts[i].transition.Continued? ==>
              && IsReady(inits[i])
              && LeaderTake(StatesOf(prepInits)[i], ts[i], finish)
                 == match finish(inits[i].id, inits[i].finish.prepMsg)
                    case LeaderOk(data) => Ok(Some(Report(inits[i].id, inits[i].time, data)))
                    case LeaderRejected => Ok(None)
                    case LeaderFatal => Err
    ensures ts[i].transition.Failed? ==> LeaderTake(StatesOf(prepInits)[i], ts[i], finish) == Ok(None)
  {
    assert TransitionOf(inits[i], status) == Ok(ts[i]);
    if ts[i].transition.Continued? {
      AnswerFramed(inits[i], status);
    }
  }

  lemma {:induction false} TakesAll(states: seq<JobState>, ts: seq<Transition>, finish: Finisher)
    requires |ts| == |states|
    ensures LeaderReports(states, ts, finish).Ok? <==>
            forall i | 0 <= i < |ts| :: LeaderTake(states[i], ts[i], finish).Ok?
  {
    if ts != [] {
      var n := |ts| - 1;
      TakesAll(states[..n], ts[..n], finish);
      assert forall i | 0 <= i < n :: states[..n][i] == states[i] && ts[..n][i] == ts[i];
    }
  }

  /**
  The Leader never aborts an honest Helper's response for its length, its order or its framing:
  it aborts exactly when its own preparation of some continued report fails outright.
  */
  lemma {:induction false} HonestResponseAccepted(v: Preparer, prepInits: seq<PrepInit>, inits: seq<Initialized>,
                                                  c: Ctx, store: Store,
                               envs: seq<Env>, finish: Finisher)
    requires Consumed(v, prepInits, inits) && JobRun(c, inits, map[], store, envs).outcome.Done?
    ensures var ts := JobRun(c, inits, map[], store, envs).outcome.transitions;
            && |ts| == |inits|
            && (LeaderReports(StatesOf(prepInits), ts, finish).Ok? <==>
                  forall i | 0 <= i < |inits| :: !LeaderFails(inits, ts, finish, i))
  {
    var ts := JobRun(c, inits, map[], store, envs).outcome.transitions;
    var last := DoneTransitions(c, inits, map[], store, envs);
    ConsumedMetas(v, prepInits, inits);
    TakesAll(StatesOf(prepInits), ts, finish);
    forall i | 0 <= i < |inits|
      ensures LeaderTake(StatesOf(prepInits)[i], ts[i], finish).Err? <==> LeaderFails(inits, ts, finish, i)
    {
      TakeAnswer(prepInits, inits, last, ts, finish, i);
    }
  }

  // ---- Which reports the Leader aggregates

  /** The Leader's preparation succeeds on every continued report. */
  ghost predicate LeaderSucceeds(inits: seq<Initialized>, ts: seq<Transition>, finish: Finisher)
    requires |inits| == |ts|
  {
    forall i | 0 <= i < |inits| && ts[i].transition.Continued? && IsReady(inits[i]) ::
      finish(inits[i].id, inits[i].finish.prepMsg).LeaderOk?
  }

  function Meta(r: Report): (ReportId, nat) {
    (r.id, r.time)
  }

  ghost function MetaSet(rs: seq<Report>): set<(ReportId, nat)> {
    set r | r in rs :: Meta(r)
  }

  /** The metadata of the continued reports. */
  ghost function ContinuedMetas(states: seq<JobState>, ts: seq<Transition>): set<(ReportId, nat)>
    requires |ts| == |states|
  {
    set i | 0 <= i < |ts| && ts[i].transition.Continued? :: (states[i].id, states[i].time)
  }

  ghost predicate DistinctStates(states: seq<JobState>) {
    forall i, j | 0 <= i < j < |states| :: states[i].id != states[j].id
  }

  lemma MetaSetSnoc(rs: seq<Report>, r: Report)
    ensures MetaSet(rs + [r]) == MetaSet(rs) + {Meta(r)}
  {
    forall m | m in MetaSet(rs) ensures m in MetaSet(rs + [r]) {
      var x :| x in rs && Meta(x) == m;
      assert x in rs + [r];
    }
    assert r in rs + [r];
  }

  lemma ContinuedSnoc(states: seq<JobState>, ts: seq<Transition>)
    requires |ts| == |states| && ts != []
    ensures var n := |ts| - 1;
            ContinuedMetas(states, ts) == ContinuedMetas(states[..n], ts[..n])
                                          + if ts[n].transition.Continued? then {(states[n].id, states[n].time)} else {}
  {
    var n := |ts| - 1;
    var all, init := ContinuedMetas(states, ts), ContinuedMetas(states[..n], ts[..n]);
    forall m | m in init ensures m in all {
      var i :| 0 <= i < n && ts[..n][i].transition.Continued? && m == (states[..n][i].id, states[..n][i].time);
      assert ts[i].transition.Continued? && m == (states[i].id, states[i].time);
    }
    forall m | m in all ensures m in init || (ts[n].transition.Continued? && m == (states[n].id, states[n].time)) {
      var i :| 0 <= i < |ts| && ts[i].transition.Continued? && m == (states[i].id, states[i].time);
      if i < n {
        assert ts[..n][i].transition.Continued? && m == (states[..n][i].id, states[..n][i].time);
      }
    }
  }

  lemma DistinctSnoc(rs: seq<Report>, r: Report)
    requires DistinctIds(rs) && forall q | q in rs :: q.id != r.id
    ensures DistinctIds(rs + [r])
  {
  }

  /** If every continued report yields an output share, the Leader aggregates exactly these. */
  lemma {:induction false} LeaderAggregates(states: seq<JobState>, ts: seq<Transition>, finish: Finisher)
    requires |ts| == |states| && DistinctStates(states)
    requires forall i | 0 <= i < |ts| :: LeaderTake(states[i], ts[i], finish).Ok?
                                         && LeaderTake(states[i], ts[i], finish).value.Some?
                                            == ts[i].transition.Continued?
    ensures LeaderReports(states, ts, finish).Ok?
    ensures var rs := LeaderReports(states, ts, finish).value;
            && MetaSet(rs) == ContinuedMetas(states, ts)
            && DistinctIds(rs)
            && forall r | r in rs :: exists i :: 0 <= i < |states| && states[i].id == r.id
  {
    if ts != [] {
      var n := |ts| - 1;
      assert forall i | 0 <= i < n :: states[..n][i] == states[i] && ts[..n][i] == ts[i];
      LeaderAggregates(states[..n], ts[..n], finish);
      ContinuedSnoc(states, ts);
      var rs := LeaderReports(states[..n], ts[..n], finish).value;
      forall r | r in rs ensures exists i :: 0 <= i < |states| && states[i].id == r.id {
        var i :| 0 <= i < n && states[..n][i].id == r.id;
        assert states[i].id == r.id;
      }
      if ts[n].transition.Continued? {
        var r := LeaderTake(states[n], ts[n], finish).value.value;
        MetaSetSnoc(rs, r);
        assert states[n].id == r.id;
        forall q | q in rs ensures q.id != r.id {
          var i :| 0 <= i < n && states[..n][i].id == q.id;
        }
        DistinctSnoc(rs, r);
      }
    }
  }

  // ---- Which reports the Helper stores

  /** No other party stores a report with the given ID. */
  ghost predicate OpsApart(ops: seq<Op>, id: ReportId) {
    forall k | 0 <= k < |ops| && ops[k].OpMerge? :: id !in IdSet(ops[k].reports)
  }

  ghost predicate EnvApart(env: Env, inits: seq<Initialized>) {
    forall b, i | b in env.ops && 0 <= i < |inits| :: OpsApart(env.ops[b], inits[i].id)
  }

  ghost predicate EnvsApart(envs: seq<Env>, inits: seq<Initialized>) {
    forall k | 0 <= k < |envs| :: EnvApart(envs[k], inits)
  }

  lemma {:induction false} ApartKeeps(kind: StoreKind, st: BucketState, ops: seq<Op>, id: ReportId)
    requires OpsApart(ops, id)
    ensures id in RunOps(kind, st, ops).ids ==> id in st.ids
  {
    if ops != [] {
      ApartKeeps(kind, st, ops[..|ops| - 1], id);
      assert ops[|ops| - 1].OpMerge? ==> id !in IdSet(ops[|ops| - 1].reports);
    }
  }

  lemma {:induction false} BucketStoresAdded(c: Ctx, env: Env, b: Bucket, f: seq<Report>, st: BucketState, id: ReportId)
    requires c.kind.Durable? && OpsApart(OpsOn(env, b), id)
    ensures id in PassBucket(c, env, b, f, st).0.ids && id !in st.ids ==>
              id in IdSet(f) && !FaultOn(env, b).FailBefore? && Commits(RunOps(c.kind, st, OpsOn(env, b)), f)
  {
    ApartKeeps(c.kind, st, OpsOn(env, b), id);
  }

  /** In one pass, a report gets stored only by being added. */
  lemma PassStoresAdded(c: Ctx, env: Env, rs: seq<Report>, store: Store, r: Report)
    requires c.kind.Durable? && OpsApart(OpsOn(env, c.place(r.id, r.time)), r.id)
    requires forall x | x in rs && x.id == r.id :: x == r
    ensures var b := c.place(r.id, r.time);
            r.id in Lookup(PassStore(c, env, rs, store), b).ids ==>
              r.id in Lookup(store, b).ids || r in AddedInPass(c, env, rs, store)
  {
    var b := c.place(r.id, r.time);
    var f := InB(c, rs, b);
    PassLookup(c, env, rs, store, b);
    BucketStoresAdded(c, env, b, f, Lookup(store, b), r.id);
    if r.id in PassBucket(c, env, b, f, Lookup(store, b)).0.ids && r.id !in Lookup(store, b).ids {
      var x :| x in f && x.id == r.id;
      assert x == r && Stored(c, env, rs, store)(r);
    }
  }

  lemma {:induction false} JobStoresAdded(c: Ctx, inits: seq<Initialized>, status: StatusMap, store: Store,
                                          envs: seq<Env>, i: nat)
    requires c.kind.Durable? && DistinctInits(inits) && EnvsApart(envs, inits) && i < |inits| && IsReady(inits[i])
    ensures var res := JobRun(c, inits, status, store, envs);
            var r := ReportOf(inits[i]);
            var b := c.place(r.id, r.time);
            r.id in Lookup(res.store, b).ids ==> r.id in Lookup(store, b).ids || r in res.added
    decreases |envs|
  {
    if envs != [] {
      PassEndStores(c, inits, status, store, envs[0], i);
      var pass := Pass(c, inits, status, store, envs[0]);
      if pass.Again? {
        JobStoresAdded(c, inits, pass.status, pass.store, envs[1..], i);
      }
    }
  }

  lemma PassEndStores(c: Ctx, inits: seq<Initialized>, status: StatusMap, store: Store, env: Env, i: nat)
    requires c.kind.Durable? && DistinctInits(inits) && EnvApart(env, inits) && i < |inits| && IsReady(inits[i])
    ensures var pass := Pass(c, inits, status, store, env);
            var r := ReportOf(inits[i]);
            var b := c.place(r.id, r.time);
            r.id in Lookup(EndStore(pass), b).ids ==> r.id in Lookup(store, b).ids || r in EndAdded(pass)
  {
    var r := ReportOf(inits[i]);
    var rs := Pending(inits, status);
    PassEndParts(c, inits, status, store, env);
    PendingFacts(inits, status);
    ReadyDistinct(inits);
    forall x | x in rs && x.id == r.id ensures x == r {
      SameId(ReadyReports(inits), x, r);
    }
    PassStoresAdded(c, env, rs, store, r);
  }

  /** The answer continues exactly the reports added. */
  ghost predicate ContinuesAdded(inits: seq<Initialized>, ts: seq<Transition>, added: seq<Report>) {
    |ts| == |inits|
    && forall i | 0 <= i < |inits| :: ts[i].transition.Continued? <==> IsReady(inits[i]) && ReportOf(inits[i]) in added
  }

  /** The bucket when the first request of a pass reaches it. */
  ghost function AtRequest(c: Ctx, store: Store, env: Env, b: Bucket): BucketState {
    RunOps(c.kind, Lookup(store, b), OpsOn(env, b))
  }

  /** When the first request reaches the bucket, it is open and already holds all reports the job has for it. */
  ghost predicate AllThere(c: Ctx, inits: seq<Initialized>, store: Store, env: Env, b: Bucket) {
    var rs, st := InB(c, ReadyReports(inits), b), AtRequest(c, store, env, b);
    rs != [] && !st.collected && IdSet(rs) <= st.ids
  }

  /**
  The answer for a stored report: success if all of the bucket is there, otherwise a replay, unless
  it is collected.
  */
  lemma {:induction false} FirstAnswer(c: Ctx, env: Env, b: Bucket, f: seq<Report>, st: BucketState, id: ReportId)
    requires c.kind.Durable? && DistinctIds(f) && id in IdSet(f)
    requires id in RunOps(c.kind, st, OpsOn(env, b)).ids
    ensures var result, st1 := PassBucket(c, env, b, f, st).1, RunOps(c.kind, st, OpsOn(env, b));
            result.PutError? || StatusAfter(result, id)
                                == Some(if st1.collected then Rejected(BatchCollected)
                                        else if IdSet(f) <= st1.ids then Aggregated else Rejected(ReportReplayed))
  {
    var st1 := RunOps(c.kind, st, OpsOn(env, b));
    RepeatCount(f, st1);
    assert id in IdSet(f) * st1.ids;
  }

  lemma RepeatCount(f: seq<Report>, st: BucketState)
    requires DistinctIds(f)
    ensures |IdSet(f) * st.ids| == |f| <==> IdSet(f) <= st.ids
  {
    DistinctCard(f);
    if |IdSet(f) * st.ids| == |f| {
      SubsetFull(IdSet(f) * st.ids, IdSet(f));
    }
    if IdSet(f) <= st.ids {
      assert IdSet(f) * st.ids == IdSet(f);
    }
  }

  /** A rejected report is answered with its failure. */
  lemma {:induction false} RejectedFails(c: Ctx, inits: seq<Initialized>, status: StatusMap, store: Store,
                                         envs: seq<Env>, i: nat)
    requires DistinctInits(inits) && i < |inits| && inits[i].id in status && status[inits[i].id].Rejected?
    requires JobRun(c, inits, status, store, envs).outcome.Done?
    ensures var ts := JobRun(c, inits, status, store, envs).outcome.transitions;
            |ts| == |inits| && ts[i].transition.Failed?
    decreases |envs|
  {
    var pass := Pass(c, inits, status, store, envs[0]);
    if pass.Stop? {
      ReadyTransition(inits, status, i);
    } else {
      PassKeepsStatus(c, inits, status, store, envs[0]);
      RejectedFails(c, inits, pass.status, pass.store, envs[1..], i);
    }
  }

  /** Reports a job adds were not in their bucket when it started. */
  lemma {:induction false} AddedNew(c: Ctx, inits: seq<Initialized>, status: StatusMap, store: Store, envs: seq<Env>,
                                    r: Report)
    requires DistinctInits(inits) && r in JobRun(c, inits, status, store, envs).added
    ensures r.id !in Lookup(store, c.place(r.id, r.time)).ids
    decreases |envs|
  {
    var pass := Pass(c, inits, status, store, envs[0]);
    var rs := Pending(inits, status);
    PendingFacts(inits, status);
    PassEndParts(c, inits, status, store, envs[0]);
    if r in EndAdded(pass) {
      PassAddedNew(c, envs[0], rs, store, r);
    } else {
      AddedNew(c, inits, pass.status, pass.store, envs[1..], r);
      PassGrows(c, envs[0], rs, store, c.place(r.id, r.time));
    }
  }

  lemma PassAddedNew(c: Ctx, env: Env, rs: seq<Report>, store: Store, r: Report)
    requires r in AddedInPass(c, env, rs, store)
    ensures r.id !in Lookup(store, c.place(r.id, r.time)).ids
  {
    var b := c.place(r.id, r.time);
    RunGrows(c.kind, Lookup(store, b), OpsOn(env, b));
    assert Stored(c, env, rs, store)(r);
    assert r in InB(c, rs, b);
    assert r.id in IdSet(InB(c, rs, b));
  }

  lemma SameMembersIds(a: seq<Report>, b: seq<Report>)
    requires forall r :: r in a <==> r in b
    ensures IdSet(a) == IdSet(b)
  {
  }

  /** In the first pass every ready report is pending. */
  lemma {:induction false} FirstPending(c: Ctx, inits: seq<Initialized>, b: Bucket)
    requires DistinctInits(inits)
    ensures var f, rs := InB(c, Pending(inits, map[]), b), InB(c, ReadyReports(inits), b);
            DistinctIds(f) && IdSet(f) == IdSet(rs) && forall r :: r in f <==> r in rs
  {
    PendingFacts(inits, map[]);
    FilterDistinct(Pending(inits, map[]), PlacedIn(c.place, b));
    SameMembersIds(InB(c, Pending(inits, map[]), b), InB(c, ReadyReports(inits), b));
  }

  /** What the first pass answers about a report that is there when its request arrives. */
  lemma {:induction false} FirstPassAnswer(c: Ctx, inits: seq<Initialized>, store: Store, env: Env, r: Report)
    requires c.kind.Durable? && DistinctInits(inits)
    requires r in ReadyReports(inits) && r.id in AtRequest(c, store, env, c.place(r.id, r.time)).ids
    ensures var rs, b := Pending(inits, map[]), c.place(r.id, r.time);
            var result := ResultFor(c, env, rs, store, r);
            && r in rs
            && (result.PutError? || (StatusAfter(result, r.id).Some?
                                     && (StatusAfter(result, r.id).value == Aggregated <==>
                                            AllThere(c, inits, store, env, b))))
  {
    var rs, b := Pending(inits, map[]), c.place(r.id, r.time);
    var f := InB(c, rs, b);
    PendingFacts(inits, map[]);
    FirstPending(c, inits, b);
    assert r in f;
    assert r.id in IdSet(f);
    FirstAnswer(c, env, b, f, Lookup(store, b), r.id);
    assert r in InB(c, ReadyReports(inits), b);
  }

  lemma {:induction false} StoredBefore(c: Ctx, inits: seq<Initialized>, store: Store, envs: seq<Env>, i: nat)
    requires c.kind.Durable? && DistinctInits(inits) && envs != []
    requires i < |inits| && IsReady(inits[i])
    requires inits[i].id in AtRequest(c, store, envs[0], c.place(inits[i].id, inits[i].time)).ids
    requires JobRun(c, inits, map[], store, envs).outcome.Done?
    ensures var ts := JobRun(c, inits, map[], store, envs).outcome.transitions;
            && |ts| == |inits|
            && (ts[i].transition.Continued? <==>
                  AllThere(c, inits, store, envs[0], c.place(inits[i].id, inits[i].time)))
  {
    var r := ReportOf(inits[i]);
    var rs := Pending(inits, map[]);
    var pass := Pass(c, inits, map[], store, envs[0]);
    FirstPassAnswer(c, inits, store, envs[0], r);
    if pass.Stop? {
      ReadyTransition(inits, map[], i);
      OnlyCommitted(ResultFor(c, envs[0], rs, store, r), r.id);
    } else {
      AgainParts(c, inits, map[], store, envs[0]);
      StatusOne(c, envs[0], inits, store, map[], r);
      if AllThere(c, inits, store, envs[0], c.place(r.id, r.time)) {
        PassEndSound(c, inits, map[], store, envs[0]);
        DoneFacts(c, inits, pass.status, pass.store, envs[1..], i);
      } else {
        RejectedFails(c, inits, pass.status, pass.store, envs[1..], i);
      }
    }
  }

  /** If nobody else stores it, a report is there at the first request exactly when it was there at the start. */
  lemma ThereFromStart(c: Ctx, inits: seq<Initialized>, store: Store, env: Env, i: nat)
    requires EnvApart(env, inits) && i < |inits|
    ensures var b := c.place(inits[i].id, inits[i].time);
            inits[i].id in AtRequest(c, store, env, b).ids <==> inits[i].id in Lookup(store, b).ids
  {
    var b := c.place(inits[i].id, inits[i].time);
    ApartKeeps(c.kind, Lookup(store, b), OpsOn(env, b), inits[i].id);
    RunGrows(c.kind, Lookup(store, b), OpsOn(env, b));
  }

  /**
  If nobody else stores the job's reports meanwhile, the response continues exactly those the job
  added, if and only if no bucket, when the first request reaches it, is open and holds all of the
  job's reports for it already. Other parties may store other reports and collect buckets at any time.
  */
  lemma {:induction false} ContinuedAreAdded(c: Ctx, inits: seq<Initialized>, store: Store, envs: seq<Env>)
    requires c.kind.Durable? && DistinctInits(inits) && envs != [] && EnvsApart(envs, inits)
    requires JobRun(c, inits, map[], store, envs).outcome.Done?
    ensures var res := JobRun(c, inits, map[], store, envs);
            (ContinuesAdded(inits, res.outcome.transitions, res.added)
             <==> forall b :: !AllThere(c, inits, store, envs[0], b))
  {
    var res := JobRun(c, inits, map[], store, envs);
    var last := DoneTransitions(c, inits, map[], store, envs);
    if forall b :: !AllThere(c, inits, store, envs[0], b) {
      forall i | 0 <= i < |inits|
        ensures res.outcome.transitions[i].transition.Continued?
           <==> IsReady(inits[i]) && ReportOf(inits[i]) in res.added
      {
        ContinuedIsAdded(c, inits, store, envs, i);
      }
    } else {
      var b :| AllThere(c, inits, store, envs[0], b);
      var f := InB(c, ReadyReports(inits), b);
      assert f[0] in f;
      var i :| 0 <= i < |inits| && IsReady(inits[i]) && ReportOf(inits[i]) == f[0];
      assert f[0].id in IdSet(f);
      StoredBefore(c, inits, store, envs, i);
      ThereFromStart(c, inits, store, envs[0], i);
      if f[0] in res.added {
        AddedNew(c, inits, map[], store, envs, f[0]);
      }
    }
  }

  lemma {:induction false} ContinuedIsAdded(c: Ctx, inits: seq<Initialized>, store: Store, envs: seq<Env>, i: nat)
    requires c.kind.Durable? && DistinctInits(inits) && envs != [] && EnvsApart(envs, inits)
    requires JobRun(c, inits, map[], store, envs).outcome.Done?
    requires i < |inits| && !AllThere(c, inits, store, envs[0], c.place(inits[i].id, inits[i].time))
    ensures var res := JobRun(c, inits, map[], store, envs);
            && |res.outcome.transitions| == |inits|
            && (res.outcome.transitions[i].transition.Continued? <==>
                  IsReady(inits[i]) && ReportOf(inits[i]) in res.added)
  {
    DoneFacts(c, inits, map[], store, envs, i);
    if IsReady(inits[i]) {
      JobStoresAdded(c, inits, map[], store, envs, i);
      ThereFromStart(c, inits, store, envs[0], i);
      if inits[i].id in Lookup(store, c.place(inits[i].id, inits[i].time)).ids {
        StoredBefore(c, inits, store, envs, i);
      }
    }
  }

  // ---- A job that repeats another

  /** A job all of whose reports are there already completes and adds nothing. */
  lemma {:induction false} FullJob(c: Ctx, inits: seq<Initialized>, store: Store)
    requires c.kind.Durable? && DistinctInits(inits) && NoFatal(inits)
    requires forall r | r in ReadyReports(inits) :: Full(c, inits, store, c.place(r.id, r.time))
    ensures var res := JobRun(c, inits, map[], store, [QUIET]);
            res.outcome.Done? && res.added == []
  {
    var rs := Pending(inits, map[]);
    NoFatalTransitions(inits, map[]);
    PendingFacts(inits, map[]);
    QuietNoError(c, inits, map[], store);
    forall r | r in rs ensures ResultFor(c, QUIET, rs, store, r) == Put(Committed) {
      FullPass(c, inits, map[], store, QUIET, c.place(r.id, r.time));
    }
    var res := JobRun(c, inits, map[], store, [QUIET]);
    AddedSound(c, inits, map[], store, [QUIET]);
    if res.added != [] {
      assert res.added[0] in res.added;
      AddedNew(c, inits, map[], store, [QUIET], res.added[0]);
    }
  }

  /** A job over a store without any of its reports, and without interference, adds them all. */
  lemma {:induction false} FreshJob(c: Ctx, inits: seq<Initialized>)
    requires c.kind.Durable? && DistinctInits(inits) && NoFatal(inits)
    ensures var res := JobRun(c, inits, map[], map[], [QUIET]);
            && res.outcome.Done?
            && forall r | r in ReadyReports(inits) :: r in res.added && Full(c, inits, res.store, c.place(r.id, r.time))
  {
    NewPassDone(c, inits, map[], map[]);
    var res := JobRun(c, inits, map[], map[], [QUIET]);
    forall r | r in ReadyReports(inits) ensures r in res.added && Full(c, inits, res.store, c.place(r.id, r.time)) {
      var i :| 0 <= i < |inits| && IsReady(inits[i]) && ReportOf(inits[i]) == r;
      FreshReport(c, inits, i);
      AddedIn(c, res.added, r);
      CommittedFull(c, inits, map[], map[], [QUIET], c.place(r.id, r.time));
    }
  }

  lemma {:induction false} FreshReport(c: Ctx, inits: seq<Initialized>, i: nat)
    requires c.kind.Durable? && DistinctInits(inits) && NoFatal(inits) && i < |inits| && IsReady(inits[i])
    requires JobRun(c, inits, map[], map[], [QUIET]).outcome.Done?
    ensures ReportOf(inits[i]) in JobRun(c, inits, map[], map[], [QUIET]).added
  {
    ReadyTransition(inits, map[], i);
    DoneFacts(c, inits, map[], map[], [QUIET], i);
    JobStoresAdded(c, inits, map[], map[], [QUIET], i);
  }

  lemma AddedIn(c: Ctx, added: seq<Report>, r: Report)
    requires r in added
    ensures InB(c, added, c.place(r.id, r.time)) != []
  {
    assert r in InB(c, added, c.place(r.id, r.time));
  }

  /**
  A second job over the reports of a first one, for any reports and any assignment to buckets: it
  adds nothing and is answered as if it had stored them all.
  */
  lemma {:induction false} RepeatedJob(c: Ctx, inits: seq<Initialized>, job: nat)
    requires c.kind.Durable? && DistinctInits(inits) && NoFatal(inits)
    ensures var first := JobRun(c, inits, map[], map[], [QUIET]);
            var second := JobRun(c.(job := job), inits, map[], first.store, [QUIET]);
            && first.outcome.Done? && second.outcome.Done? && second.added == []
            && |second.outcome.transitions| == |inits|
            && forall i | 0 <= i < |inits| && IsReady(inits[i]) ::
                 ReportOf(inits[i]) in first.added && second.outcome.transitions[i].transition.Continued?
  {
    var first, c2 := JobRun(c, inits, map[], map[], [QUIET]), c.(job := job);
    FreshJob(c, inits);
    forall r | r in ReadyReports(inits) ensures Full(c2, inits, first.store, c2.place(r.id, r.time)) {
      assert Full(c, inits, first.store, c.place(r.id, r.time));
    }
    FullJob(c2, inits, first.store);
    var last := DoneTransitions(c2, inits, map[], first.store, [QUIET]);
    forall i | 0 <= i < |inits| && IsReady(inits[i])
      ensures ReportOf(inits[i]) in first.added
      ensures JobRun(c2, inits, map[], first.store, [QUIET]).outcome.transitions[i].transition.Continued?
    {
      assert ReportOf(inits[i]) in ReadyReports(inits);
      FullContinued(c2, inits, map[], first.store, [QUIET], c.place(inits[i].id, inits[i].time), i);
    }
  }

  /** One report sent in two jobs: the second response continues it although the second job adds nothing. */
  lemma RepeatedReport(c: Ctx) returns (inits: seq<Initialized>)
    requires c.kind.Durable?
    ensures DistinctInits(inits) && |inits| == 1
    ensures var first := JobRun(c, inits, map[], map[], [QUIET]);
            var second := JobRun(c.(job := c.job + 1), inits, map[], first.store, [QUIET]);
            && second.outcome.Done? && |second.outcome.transitions| == 1
            && !ContinuesAdded(inits, second.outcome.transitions, second.added)
  {
    inits := [Ready(ZERO_DIGEST[..16], 0, FinishOk(VdafShare(Field64, [1]), []))];
    RepeatedJob(c, inits, c.job + 1);
    assert IsReady(inits[0]);
  }
}
