/**
The Helper's side of an aggregation job: produce a response and a span of output shares,
try to commit the span bucket by bucket, and start over when a bucket reports replays or has
been collected. Buckets are independent objects, so an execution is determined by what
happens to each bucket before this job's request of each pass: the operations of other jobs
and a possible storage failure before or after the commit.
*/
module HelperJob {
  import opened Wrappers
  import opened AggShare
  import opened Bytes
  import opened PingPong
  import opened Buckets
  import opened BucketStore

  datatype TransitionFailure =
    | BatchCollected | ReportReplayed | ReportDropped | HpkeUnknownConfigId | HpkeDecryptError
    | VdafPrepError | BatchSaturated | TaskExpired | InvalidMessage | ReportTooEarly

  /** Outcome of finishing VDAF preparation of one report, a function of the initialized report. */
  datatype Finish = FinishOk(data: VdafShare, prepMsg: seq<Byte>) | FinishRejected | FinishFatal

  datatype Initialized =
    | Ready(id: ReportId, time: nat, finish: Finish)
    | NotReady(id: ReportId, time: nat, failure: TransitionFailure)

  datatype Status = Aggregated | Rejected(failure: TransitionFailure)

  datatype TransitionVar = Continued(message: seq<Byte>) | Failed(failure: TransitionFailure)

  datatype Transition = Transition(id: ReportId, transition: TransitionVar)

  type StatusMap = map<ReportId, Status>

  type Store = map<Bucket, BucketState>

  datatype Fault = NoFault | FailBefore | FailAfter

  /** What other parties do to each bucket before this job's request, and how the request fares. */
  datatype Env = Env(ops: map<Bucket, seq<Op>>, faults: map<Bucket, Fault>)

  const QUIET: Env := Env(map[], map[])

  const RETRY_COUNT: nat := 3

  /** How a task assigns reports, by ID and time, to buckets. */
  type Placement = (ReportId, nat) -> Bucket

  ghost function PlacedIn(place: Placement, b: Bucket): Report -> bool {
    (r: Report) => place(r.id, r.time) == b
  }

  /** The store, the assignment to buckets and the identity of the job. */
  datatype Ctx = Ctx(kind: StoreKind, place: Placement, job: nat)

  // ---- Producing the response

  /** The transition of a report, or a fatal error. */
  function TransitionOf(init: Initialized, status: StatusMap): Result<Transition> {
    if init.id in status && status[init.id].Rejected? then
      Ok(Transition(init.id, Failed(status[init.id].failure)))
    else
      match init
      case Ready(id, _, FinishOk(_, prepMsg)) =>
        (match Frame(PingPong.Finish, prepMsg)
         case Ok(message) => Ok(Transition(id, Continued(message)))
         case Err => Err)
      case Ready(id, _, FinishRejected) => Ok(Transition(id, Failed(VdafPrepError)))
      case Ready(_, _, FinishFatal) => Err
      case NotReady(id, _, failure) => Ok(Transition(id, Failed(failure)))
  }

  ghost function Transitions(inits: seq<Initialized>, status: StatusMap): (r: Result<seq<Transition>>)
    ensures r.Ok? ==> |r.value| == |inits|
                      && forall i | 0 <= i < |inits| :: TransitionOf(inits[i], status) == Ok(r.value[i])
  {
    if inits == [] then Ok([])
    else
      match (Transitions(inits[..|inits| - 1], status), TransitionOf(inits[|inits| - 1], status))
      case (Ok(ts), Ok(t)) => Ok(ts + [t])
      case _ => Err
  }

  predicate IsReady(init: Initialized) {
    init.Ready? && init.finish.FinishOk? && Frameable(init.finish.prepMsg)
  }

  function ReportOf(init: Initialized): Report
    requires IsReady(init)
  {
    Report(init.id, init.time, init.finish.data)
  }

  /** The output shares of the job: reports whose preparation finishes with a message that can be sent. */
  ghost function ReadyReports(inits: seq<Initialized>): (rs: seq<Report>)
    ensures forall i | 0 <= i < |inits| && IsReady(inits[i]) :: ReportOf(inits[i]) in rs
    ensures forall r | r in rs :: exists i :: 0 <= i < |inits| && IsReady(inits[i]) && ReportOf(inits[i]) == r
  {
    if inits == [] then []
    else
      var init, last := inits[..|inits| - 1], inits[|inits| - 1];
      var rs := ReadyReports(init) + (if IsReady(last) then [ReportOf(last)] else []);
      assert forall r | r in rs :: exists i :: 0 <= i < |inits| && IsReady(inits[i]) && ReportOf(inits[i]) == r by {
        forall r | r in rs ensures exists i :: 0 <= i < |inits| && IsReady(inits[i]) && ReportOf(inits[i]) == r {
          if r in ReadyReports(init) {
            var i :| 0 <= i < |init| && IsReady(init[i]) && ReportOf(init[i]) == r;
            assert inits[i] == init[i];
          } else {
            assert ReportOf(inits[|inits| - 1]) == r;
          }
        }
      }
      rs
  }

  ghost function NoStatus(status: StatusMap): Report -> bool {
    (r: Report) => r.id !in status
  }

  /** Reports not processed yet: the content of this pass's span. */
  ghost function Pending(inits: seq<Initialized>, status: StatusMap): seq<Report> {
    Filter(ReadyReports(inits), NoStatus(status))
  }

  ghost predicate DistinctInits(inits: seq<Initialized>) {
    forall i, j | 0 <= i < j < |inits| :: inits[i].id != inits[j].id
  }

  // ---- One pass

  function Lookup(store: Store, b: Bucket): BucketState {
    if b in store then store[b] else FRESH
  }

  function OpsOn(env: Env, b: Bucket): seq<Op> {
    if b in env.ops then env.ops[b] else []
  }

  function FaultOn(env: Env, b: Bucket): Fault {
    if b in env.faults then env.faults[b] else NoFault
  }

  /** The part of the span that falls in a bucket. */
  ghost function InB(c: Ctx, rs: seq<Report>, b: Bucket): seq<Report>
  {
    Filter(rs, PlacedIn(c.place, b))
  }

  ghost function BucketsOf(c: Ctx, rs: seq<Report>): set<Bucket>
  {
    set r | r in rs :: c.place(r.id, r.time)
  }

  datatype PutResult = PutNone | Put(resp: MergeResp) | PutError

  /** What becomes of a bucket in a pass, and what this job learns about its part of the span. */
  function PassBucket(c: Ctx, env: Env, b: Bucket, rs: seq<Report>, st: BucketState): (BucketState, PutResult) {
    var st := RunOps(c.kind, st, OpsOn(env, b));
    if rs == [] then (st, PutNone)
    else if FaultOn(env, b).FailBefore? then (st, PutError)
    else
      var (st', resp) := BucketMerge(c.kind, st, c.job, rs);
      if FaultOn(env, b).FailAfter? then (st', PutError) else (st', Put(resp))
  }

  ghost function PassStore(c: Ctx, env: Env, rs: seq<Report>, store: Store): Store
  {
    map b | b in store.Keys + BucketsOf(c, rs) + env.ops.Keys ::
      PassBucket(c, env, b, InB(c, rs, b), Lookup(store, b)).0
  }

  ghost function PassResult(c: Ctx, env: Env, rs: seq<Report>, store: Store, b: Bucket): PutResult
  {
    PassBucket(c, env, b, InB(c, rs, b), Lookup(store, b)).1
  }

  /** Whether this job's request in a pass appends to the bucket's log. */
  ghost predicate StoresIn(c: Ctx, env: Env, rs: seq<Report>, store: Store, b: Bucket)
  {
    && !FaultOn(env, b).FailBefore?
    && Commits(RunOps(c.kind, Lookup(store, b), OpsOn(env, b)), InB(c, rs, b))
  }

  ghost function Stored(c: Ctx, env: Env, rs: seq<Report>, store: Store): Report -> bool
  {
    (r: Report) => StoresIn(c, env, rs, store, c.place(r.id, r.time))
  }

  /** The reports newly stored by this job in a pass. */
  ghost function AddedInPass(c: Ctx, env: Env, rs: seq<Report>, store: Store): seq<Report>
  {
    Filter(rs, Stored(c, env, rs, store))
  }

  /** The status a put result gives to a report of the bucket, if any. */
  function StatusAfter(result: PutResult, id: ReportId): Option<Status> {
    match result
    case Put(Committed) => Some(Aggregated)
    case Put(AlreadyCollected) => Some(Rejected(BatchCollected))
    case Put(ReplaysDetected(ids)) => if id in ids then Some(Rejected(ReportReplayed)) else None
    case _ => None
  }

  /** The statuses after a pass over the span `rs`, extended by the reports in `todo`. */
  ghost function ExtendStatus(c: Ctx, env: Env, rs: seq<Report>, store: Store, status: StatusMap,
                              todo: seq<Report>): StatusMap
  {
    if todo == [] then status
    else
      var before := ExtendStatus(c, env, rs, store, status, todo[..|todo| - 1]);
      var r := todo[|todo| - 1];
      match StatusAfter(ResultFor(c, env, rs, store, r), r.id)
      case Some(s) => before[r.id := s]
      case None => before
  }

  ghost function NextStatus(c: Ctx, env: Env, rs: seq<Report>, store: Store, status: StatusMap): StatusMap
  {
    ExtendStatus(c, env, rs, store, status, rs)
  }

  ghost function ResultFor(c: Ctx, env: Env, rs: seq<Report>, store: Store, r: Report): PutResult
  {
    PassResult(c, env, rs, store, c.place(r.id, r.time))
  }

  ghost predicate AnyError(c: Ctx, env: Env, rs: seq<Report>, store: Store)
  {
    exists r :: r in rs && ResultFor(c, env, rs, store, r).PutError?
  }

  ghost predicate AllCommitted(c: Ctx, env: Env, rs: seq<Report>, store: Store)
  {
    forall r | r in rs :: ResultFor(c, env, rs, store, r) == Put(Committed)
  }

  // ---- The whole job

  datatype Outcome = Done(transitions: seq<Transition>) | StorageFailure | Fatal | TooManyReplays

  datatype JobResult = JobResult(outcome: Outcome, store: Store, added: seq<Report>)

  /** How one pass ends: with a result, or with another pass. */
  datatype PassEnd = Stop(result: JobResult) | Again(status: StatusMap, store: Store, added: seq<Report>)

  ghost function Pass(c: Ctx, inits: seq<Initialized>, status: StatusMap, store: Store, env: Env): PassEnd {
    match Transitions(inits, status)
    case Err => Stop(JobResult(Fatal, store, []))
    case Ok(ts) =>
      var rs := Pending(inits, status);
      var store' := PassStore(c, env, rs, store);
      var added := AddedInPass(c, env, rs, store);
      if AnyError(c, env, rs, store) then Stop(JobResult(StorageFailure, store', added))
      else if AllCommitted(c, env, rs, store) then Stop(JobResult(Done(ts), store', added))
      else Again(NextStatus(c, env, rs, store, status), store', added)
  }

  /** The retry loop, one pass per element of `envs`. */
  ghost function JobRun(c: Ctx, inits: seq<Initialized>, status: StatusMap, store: Store, envs: seq<Env>): JobResult
    decreases |envs|
  {
    if envs == [] then JobResult(TooManyReplays, store, [])
    else
      match Pass(c, inits, status, store, envs[0])
      case Stop(result) => result
      case Again(status', store', added) =>
        var rest := JobRun(c, inits, status', store', envs[1..]);
        JobResult(rest.outcome, rest.store, added + rest.added)
  }
}
