/**
The Leader's side of an aggregation job, and the Helper's handling of its request: which
reports go into the job, how the request is consumed, and how the response is.
*/
module LeaderJob {
  import opened Wrappers
  import opened Bytes
  import opened AggShare
  import opened Buckets
  import opened HelperJob
  import opened HelperLoop
  import opened PingPong

  // ---- The request

  /** Outcome of the Leader's own initialization of a report, a function of the report. */
  datatype LeaderPrep = PrepOk(prepShare: seq<Byte>) | PrepRejected(failure: TransitionFailure) | PrepFatal

  datatype LeaderReport = LeaderReport(id: ReportId, time: nat, prep: LeaderPrep)

  datatype JobState = JobState(id: ReportId, time: nat)

  datatype PrepInit = PrepInit(id: ReportId, time: nat, payload: seq<Byte>)

  /** What the Leader keeps and sends about one report: nothing if it cannot be processed. */
  function RequestFor(r: LeaderReport): Result<Option<PrepInit>> {
    match r.prep
    case PrepOk(prepShare) =>
      (match Frame(Initialize, prepShare)
       case Ok(payload) => Ok(Some(PrepInit(r.id, r.time, payload)))
       case Err => Err)
    case PrepRejected(_) => Ok(None)
    case PrepFatal => Err
  }

  ghost predicate DistinctReports(reports: seq<LeaderReport>) {
    forall i, j | 0 <= i < j < |reports| :: reports[i].id != reports[j].id
  }

  ghost function Requests(reports: seq<LeaderReport>): Result<seq<PrepInit>> {
    if reports == [] then Ok([])
    else
      match (Requests(reports[..|reports| - 1]), RequestFor(reports[|reports| - 1]))
      case (Ok(ps), Ok(None)) => Ok(ps)
      case (Ok(ps), Ok(Some(p))) => Ok(ps + [p])
      case _ => Err
  }

  ghost function StatesOf(prepInits: seq<PrepInit>): (states: seq<JobState>)
    ensures |states| == |prepInits|
  {
    seq(|prepInits|, i requires 0 <= i < |prepInits| => JobState(prepInits[i].id, prepInits[i].time))
  }

  /** The first pass over the reports: no ID may appear twice, and initialization may fail. */
  method CheckReports(reports: seq<LeaderReport>) returns (ok: bool)
    ensures ok <==> DistinctReports(reports) && forall i | 0 <= i < |reports| :: !reports[i].prep.PrepFatal?
  {
    var processed: set<ReportId> := {};
    for k := 0 to |reports|
      invariant processed == set i | 0 <= i < k :: reports[i].id
      invariant DistinctReports(reports[..k]) && forall i | 0 <= i < k :: !reports[i].prep.PrepFatal?
    {
      if reports[k].id in processed || reports[k].prep.PrepFatal? {
        return false;
      }
      processed := processed + {reports[k].id};
    }
    assert reports[..|reports|] == reports;
    return true;
  }

  lemma {:induction false} RequestsFail(reports: seq<LeaderReport>, i: nat)
    requires i < |reports| && RequestFor(reports[i]).Err?
    ensures Requests(reports).Err?
  {
    if i < |reports| - 1 {
      RequestsFail(reports[..|reports| - 1], i);
    }
  }

  lemma {:induction false} RequestsPrefix(reports: seq<LeaderReport>, k: nat)
    requires k <= |reports| && Requests(reports[..k]).Err?
    ensures Requests(reports).Err?
    decreases |reports| - k
  {
    if k < |reports| {
      assert reports[..k + 1][..k] == reports[..k];
      RequestsPrefix(reports, k + 1);
    } else {
      assert reports[..k] == reports;
    }
  }

  /** The positions of the reports the Leader could prepare, in order. */
  ghost function Prepared(reports: seq<LeaderReport>): (at: seq<nat>)
    ensures forall k | 0 <= k < |at| :: at[k] < |reports| && reports[at[k]].prep.PrepOk?
    ensures forall j, k | 0 <= j < k < |at| :: at[j] < at[k]
    ensures forall i: nat | i < |reports| && reports[i].prep.PrepOk? :: i in at
  {
    if reports == [] then []
    else
      var n := |reports| - 1;
      Prepared(reports[..n]) + if reports[n].prep.PrepOk? then [n] else []
  }

  /** The request for a report: its ID and time, and the frame of the Leader's preparation share. */
  ghost predicate Requested(r: LeaderReport, p: PrepInit) {
    r.prep.PrepOk? && p.id == r.id && p.time == r.time && Frame(Initialize, r.prep.prepShare) == Ok(p.payload)
  }

  ghost predicate RequestsOf(reports: seq<LeaderReport>, ps: seq<PrepInit>) {
    var at := Prepared(reports);
    |ps| == |at| && forall k | 0 <= k < |ps| :: Requested(reports[at[k]], ps[k])
  }

  /** The Leader can send a request for the report, or leave it out. */
  ghost predicate Sendable(r: LeaderReport) {
    !r.prep.PrepFatal? && (r.prep.PrepOk? ==> Frameable(r.prep.prepShare))
  }

  /**
  A request is built if and only if no report is fatal and every share can be framed; it asks for
  exactly the reports the Leader could prepare, in order.
  */
  lemma {:induction false} RequestsExact(reports: seq<LeaderReport>)
    ensures Requests(reports).Ok? <==> forall r | r in reports :: Sendable(r)
    ensures Requests(reports).Ok? ==> RequestsOf(reports, Requests(reports).value)
  {
    if reports != [] {
      var init, last := reports[..|reports| - 1], reports[|reports| - 1];
      RequestsExact(init);
      assert RequestFor(last).Ok? <==> Sendable(last);
      assert reports == init + [last];
      if Requests(reports).Ok? {
        RequestsNext(reports, Requests(init).value, Requests(reports).value);
      }
    }
  }

  lemma {:induction false} RequestsNext(reports: seq<LeaderReport>, before: seq<PrepInit>, ps: seq<PrepInit>)
    requires reports != [] && RequestsOf(reports[..|reports| - 1], before)
    requires match RequestFor(reports[|reports| - 1])
             case Ok(None) => ps == before
             case Ok(Some(p)) => ps == before + [p]
             case Err => false
    ensures RequestsOf(reports, ps)
  {
    var n := |reports| - 1;
    var init, at, at' := reports[..n], Prepared(reports), Prepared(reports[..n]);
    assert at == at' + if reports[n].prep.PrepOk? then [n] else [];
    forall k | 0 <= k < |ps| ensures Requested(reports[at[k]], ps[k]) {
      if k < |at'| { assert at[k] == at'[k] && Requested(init[at'[k]], before[k]); }
    }
  }

  /** Build the job: the Leader's states and the request to the Helper, report by report. */
  method ProduceAggJobReq(reports: seq<LeaderReport>) returns (res: Result<(seq<JobState>, seq<PrepInit>)>)
    ensures res.Ok? <==> DistinctReports(reports) && Requests(reports).Ok?
    ensures res.Ok? ==> Requests(reports) == Ok(res.value.1) && res.value.0 == StatesOf(res.value.1)
  {
    var ok := CheckReports(reports);
    if !ok {
      if DistinctReports(reports) {
        ghost var i :| 0 <= i < |reports| && reports[i].prep.PrepFatal?;
        RequestsFail(reports, i);
      }
      return Err;
    }
    var states: seq<JobState>, prepInits: seq<PrepInit> := [], [];
    for k := 0 to |reports|
      invariant Requests(reports[..k]) == Ok(prepInits) && states == StatesOf(prepInits)
    {
      assert reports[..k + 1][..k] == reports[..k];
      match RequestFor(reports[k]) {
        case Err =>
          RequestsPrefix(reports, k + 1);
          return Err;
        case Ok(None) =>
        case Ok(Some(p)) =>
          states := states + [JobState(p.id, p.time)];
          prepInits := prepInits + [p];
      }
    }
    assert reports[..|reports|] == reports;
    res := Ok((states, prepInits));
  }

  // ---- The Helper consumes the request

  /**
  The Helper's processing of a report: the checks before VDAF preparation, which may reject the
  report or fail, and preparation given the Leader's share, which may reject it.
  */
  datatype Preparer = Preparer(early: (ReportId, nat) -> Result<Option<TransitionFailure>>,
                               prepare: (ReportId, seq<Byte>) -> Option<Finish>)

  function InitOf(v: Preparer, p: PrepInit): Result<Initialized> {
    match v.early(p.id, p.time)
    case Err => Err
    case Ok(Some(failure)) => Ok(NotReady(p.id, p.time, failure))
    case Ok(None) =>
      match DecodeFramed(p.payload, Initialize)
      case Err => Ok(NotReady(p.id, p.time, VdafPrepError))
      case Ok(share) =>
        match v.prepare(p.id, share)
        case None => Ok(NotReady(p.id, p.time, VdafPrepError))
        case Some(finish) => Ok(Ready(p.id, p.time, finish))
  }

  /**
  What the Helper makes of a report: it is ready exactly if the checks pass and its payload frames a
  share that can be prepared; it is rejected for the reason the checks give, or because there is no
  such share; and the whole request fails exactly if the checks do.
  */
  lemma InitExact(v: Preparer, p: PrepInit, init: Initialized)
    ensures InitOf(v, p).Err? <==> v.early(p.id, p.time).Err?
    ensures InitOf(v, p) == Ok(init)
       <==> && init.id == p.id && init.time == p.time
            && match init
               case Ready(_, _, finish) =>
                 && v.early(p.id, p.time) == Ok(None)
                 && exists share :: Frame(Initialize, share) == Ok(p.payload) && v.prepare(p.id, share) == Some(finish)
               case NotReady(_, _, failure) =>
                 || v.early(p.id, p.time) == Ok(Some(failure))
                 || (&& v.early(p.id, p.time) == Ok(None) && failure == VdafPrepError
                     && forall share | Frame(Initialize, share) == Ok(p.payload) :: v.prepare(p.id, share) == None)
  {
    var d := DecodeFramed(p.payload, Initialize);
    forall share ensures Frame(Initialize, share) == Ok(p.payload) <==> d == Ok(share) {
      FramedExact(p.payload, Initialize, share);
    }
    if d.Ok? {
      assert Frame(Initialize, d.value) == Ok(p.payload);
    }
  }

  ghost predicate DistinctPrepInits(prepInits: seq<PrepInit>) {
    forall i, j | 0 <= i < j < |prepInits| :: prepInits[i].id != prepInits[j].id
  }

  /** Consume the request: no ID may appear twice. */
  method ConsumeAggJobReq(v: Preparer, prepInits: seq<PrepInit>) returns (res: Result<seq<Initialized>>)
    ensures res.Ok? <==> DistinctPrepInits(prepInits) && forall i | 0 <= i < |prepInits| :: InitOf(v, prepInits[i]).Ok?
    ensures res.Ok? ==> |res.value| == |prepInits|
                        && forall i | 0 <= i < |prepInits| :: InitOf(v, prepInits[i]) == Ok(res.value[i])
  {
    var inits: seq<Initialized>, processed: set<ReportId> := [], {};
    for k := 0 to |prepInits|
      invariant |inits| == k && forall i | 0 <= i < k :: InitOf(v, prepInits[i]) == Ok(inits[i])
      invariant processed == set i | 0 <= i < k :: prepInits[i].id
      invariant DistinctPrepInits(prepInits[..k])
    {
      if prepInits[k].id in processed {
        return Err;
      }
      processed := processed + {prepInits[k].id};
      match InitOf(v, prepInits[k]) {
        case Err => return Err;
        case Ok(init) => inits := inits + [init];
      }
    }
    assert prepInits[..|prepInits|] == prepInits;
    res := Ok(inits);
  }

  // ---- The Leader consumes the response

  datatype LeaderFinish = LeaderOk(data: VdafShare) | LeaderRejected | LeaderFatal

  /** The Leader's last preparation step, from the Helper's message. */
  type Finisher = (ReportId, seq<Byte>) -> LeaderFinish

  /** What the Leader makes of the answer to one report: an output share, nothing, or an abort. */
  function LeaderTake(state: JobState, t: Transition, finish: Finisher): Result<Option<Report>> {
    if t.id != state.id then Err
    else
      match t.transition
      case Failed(_) => Ok(None)
      case Continued(message) =>
        match DecodeFramed(message, PingPong.Finish)
        case Err => Err
        case Ok(prepMsg) =>
          match finish(state.id, prepMsg)
          case LeaderOk(data) => Ok(Some(Report(state.id, state.time, data)))
          case LeaderRejected => Ok(None)
          case LeaderFatal => Err
  }

  /** The output shares the Leader aggregates. */
  ghost function LeaderReports(states: seq<JobState>, ts: seq<Transition>, finish: Finisher): Result<seq<Report>> {
    if |ts| != |states| then Err
    else if ts == [] then Ok([])
    else
      var n := |ts| - 1;
      match (LeaderReports(states[..n], ts[..n], finish), LeaderTake(states[n], ts[n], finish))
      case (Ok(rs), Ok(None)) => Ok(rs)
      case (Ok(rs), Ok(Some(r))) => Ok(rs + [r])
      case _ => Err
  }

  ghost predicate Frames(message: seq<Byte>, payload: seq<Byte>) {
    Frame(PingPong.Finish, payload) == Ok(message)
  }

  /** The answer is to this report, and if it is continued, with a frame on which the last step is not fatal. */
  ghost predicate Usable(state: JobState, t: Transition, finish: Finisher) {
    && t.id == state.id
    && (t.transition.Continued? ==>
          exists payload :: Frames(t.transition.message, payload) && !finish(state.id, payload).LeaderFatal?)
  }

  /** The answer is continued, and the last step yields an output share. */
  ghost predicate Yields(state: JobState, t: Transition, finish: Finisher) {
    && t.transition.Continued?
    && exists payload :: Frames(t.transition.message, payload) && finish(state.id, payload).LeaderOk?
  }

  /** That output share, as a report. */
  ghost predicate YieldsReport(state: JobState, t: Transition, finish: Finisher, r: Report) {
    && t.transition.Continued? && r.id == state.id && r.time == state.time
    && exists payload :: Frames(t.transition.message, payload) && finish(state.id, payload) == LeaderOk(r.data)
  }

  lemma TakeExact(state: JobState, t: Transition, finish: Finisher)
    ensures LeaderTake(state, t, finish).Ok? <==> Usable(state, t, finish)
    ensures LeaderTake(state, t, finish).Ok? ==>
              && (LeaderTake(state, t, finish).value.Some? <==> Yields(state, t, finish))
              && forall r :: LeaderTake(state, t, finish).value == Some(r) <==> YieldsReport(state, t, finish, r)
  {
    if t.transition.Continued? {
      var message := t.transition.message;
      var d := DecodeFramed(message, PingPong.Finish);
      forall payload ensures Frames(message, payload) <==> d == Ok(payload) {
        FramedExact(message, PingPong.Finish, payload);
      }
      assert d.Ok? ==> Frames(message, d.value);
    }
  }

  ghost predicate AllUsable(states: seq<JobState>, ts: seq<Transition>, finish: Finisher) {
    |ts| == |states| && forall i | 0 <= i < |ts| :: Usable(states[i], ts[i], finish)
  }

  /** The positions whose answers yield an output share. */
  ghost function Yielding(states: seq<JobState>, ts: seq<Transition>, finish: Finisher): set<nat>
    requires |ts| == |states|
  {
    set i: nat | i < |ts| && Yields(states[i], ts[i], finish)
  }

  /**
  Whatever the Helper answers: the response is consumed if and only if it has one answer per report,
  in the order of the request, and every continued one carries a frame on which the Leader's last
  step is not fatal. What is aggregated are then the output shares of the answers that yield one,
  one for each.
  */
  lemma {:induction false} LeaderReportsExact(states: seq<JobState>, ts: seq<Transition>, finish: Finisher)
    ensures LeaderReports(states, ts, finish).Ok? <==> AllUsable(states, ts, finish)
    ensures LeaderReports(states, ts, finish).Ok? ==>
              var rs := LeaderReports(states, ts, finish).value;
              && |rs| == |Yielding(states, ts, finish)|
              && forall r :: r in rs <==> exists i | 0 <= i < |ts| :: YieldsReport(states[i], ts[i], finish, r)
  {
    if |ts| == |states| && ts != [] {
      var n := |ts| - 1;
      LeaderReportsExact(states[..n], ts[..n], finish);
      TakeExact(states[n], ts[n], finish);
      UsableNext(states, ts, finish);
      YieldingNext(states, ts, finish);
      if LeaderReports(states, ts, finish).Ok? {
        ReportsNext(states, ts, finish);
      }
    } else if ts == [] {
      assert Yielding([], [], finish) == {};
    }
  }

  lemma UsableNext(states: seq<JobState>, ts: seq<Transition>, finish: Finisher)
    requires |ts| == |states| && ts != []
    ensures var n := |ts| - 1;
            AllUsable(states, ts, finish)
            <==> AllUsable(states[..n], ts[..n], finish) && Usable(states[n], ts[n], finish)
  {
    var n := |ts| - 1;
    if AllUsable(states, ts, finish) {
      forall i | 0 <= i < n ensures Usable(states[..n][i], ts[..n][i], finish) {
        assert Usable(states[i], ts[i], finish);
      }
    }
    if AllUsable(states[..n], ts[..n], finish) && Usable(states[n], ts[n], finish) {
      forall i | 0 <= i < |ts| ensures Usable(states[i], ts[i], finish) {
        if i < n { assert Usable(states[..n][i], ts[..n][i], finish); }
      }
    }
  }

  lemma YieldingNext(states: seq<JobState>, ts: seq<Transition>, finish: Finisher)
    requires |ts| == |states| && ts != []
    ensures var n := |ts| - 1;
            |Yielding(states, ts, finish)|
            == |Yielding(states[..n], ts[..n], finish)| + if Yields(states[n], ts[n], finish) then 1 else 0
  {
    var n := |ts| - 1;
    var before, all := Yielding(states[..n], ts[..n], finish), Yielding(states, ts, finish);
    forall i: nat ensures i in all <==> i in before || (i == n && Yields(states[n], ts[n], finish)) {
      if i < n { assert states[..n][i] == states[i] && ts[..n][i] == ts[i]; }
    }
    OneMore(before, all, n, Yields(states[n], ts[n], finish));
  }

  lemma OneMore(before: set<nat>, all: set<nat>, n: nat, more: bool)
    requires n !in before && forall i :: i in all <==> i in before || (i == n && more)
    ensures |all| == |before| + if more then 1 else 0
  {
    assert all == if more then before + {n} else before;
  }

  lemma {:induction false} ReportsNext(states: seq<JobState>, ts: seq<Transition>, finish: Finisher)
    requires |ts| == |states| && ts != [] && LeaderReports(states, ts, finish).Ok?
    requires var n := |ts| - 1;
             && LeaderReports(states[..n], ts[..n], finish).Ok?
             && (forall r :: r in LeaderReports(states[..n], ts[..n], finish).value
                    <==> exists i | 0 <= i < n :: YieldsReport(states[..n][i], ts[..n][i], finish, r))
             && (forall r :: LeaderTake(states[n], ts[n], finish) == Ok(Some(r))
                    <==> YieldsReport(states[n], ts[n], finish, r))
    ensures forall r :: r in LeaderReports(states, ts, finish).value
               <==> exists i | 0 <= i < |ts| :: YieldsReport(states[i], ts[i], finish, r)
  {
    var n := |ts| - 1;
    forall r
      ensures r in LeaderReports(states, ts, finish).value
         <==> exists i | 0 <= i < |ts| :: YieldsReport(states[i], ts[i], finish, r)
    {
      var take := LeaderTake(states[n], ts[n], finish);
      assert r in LeaderReports(states, ts, finish).value
        <==> r in LeaderReports(states[..n], ts[..n], finish).value || take == Ok(Some(r));
      forall i | 0 <= i < n
        ensures YieldsReport(states[i], ts[i], finish, r) <==> YieldsReport(states[..n][i], ts[..n][i], finish, r)
      {
        assert states[..n][i] == states[i] && ts[..n][i] == ts[i];
      }
    }
  }

  lemma {:induction false} LeaderPrefix(states: seq<JobState>, ts: seq<Transition>, finish: Finisher, k: nat)
    requires |ts| == |states| && k <= |ts| && LeaderReports(states[..k], ts[..k], finish).Err?
    ensures LeaderReports(states, ts, finish).Err?
    decreases |ts| - k
  {
    if k < |ts| {
      assert states[..k + 1][..k] == states[..k] && ts[..k + 1][..k] == ts[..k];
      LeaderPrefix(states, ts, finish, k + 1);
    } else {
      assert states[..k] == states && ts[..k] == ts;
    }
  }

  lemma {:induction false} LeaderGrows(states: seq<JobState>, ts: seq<Transition>, finish: Finisher, k: nat)
    requires |ts| == |states| && k <= |ts|
    requires LeaderReports(states[..k], ts[..k], finish).Ok? && LeaderReports(states[..k], ts[..k], finish).value != []
    ensures LeaderReports(states, ts, finish).Ok? ==> LeaderReports(states, ts, finish).value != []
    decreases |ts| - k
  {
    if k < |ts| {
      assert states[..k + 1][..k] == states[..k] && ts[..k + 1][..k] == ts[..k];
      if LeaderReports(states[..k + 1], ts[..k + 1], finish).Ok? {
        LeaderGrows(states, ts, finish, k + 1);
      } else {
        LeaderPrefix(states, ts, finish, k + 1);
      }
    } else {
      assert states[..k] == states && ts[..k] == ts;
    }
  }

  /** All output shares have one shape. */
  ghost predicate ShapedFinish(finish: Finisher, sh: Shape) {
    forall id, msg :: finish(id, msg).LeaderOk? ==> HasShape(finish(id, msg).data, sh)
  }

  lemma {:induction false} LeaderNext(states: seq<JobState>, ts: seq<Transition>, finish: Finisher, k: nat,
                                      rs: seq<Report>)
    requires |ts| == |states| && k < |ts| && LeaderReports(states[..k], ts[..k], finish) == Ok(rs)
    ensures LeaderReports(states[..k + 1], ts[..k + 1], finish)
         == match LeaderTake(states[k], ts[k], finish)
            case Err => Err
            case Ok(None) => Ok(rs)
            case Ok(Some(r)) => Ok(rs + [r])
  {
    assert states[..k + 1][..k] == states[..k] && ts[..k + 1][..k] == ts[..k];
  }

  /** Consume the response, adding the output shares to the Leader's span. */
  method ConsumeAggJobResp(cfg: TaskConfig, sha: Sha, part: PartialBatchSelector, states: seq<JobState>,
                           ts: seq<Transition>,
                           finish: Finisher, ghost c: Ctx, ghost sh: Shape)
    returns (res: Result<Span>)
    requires cfg.Valid() && c.place == Place(cfg, sha, part) && ShapedFinish(finish, sh)
    ensures res.Ok? <==> LeaderReports(states, ts, finish).Ok?
                         && (cfg.IsValidPartBatchSel(part) || LeaderReports(states, ts, finish).value == [])
    ensures res.Ok? ==> SpanOf(sha, c, LeaderReports(states, ts, finish).value, sh, res.value)
  {
    if |ts| != |states| {
      return Err;
    }
    var span: Span := map[];
    ghost var rs: seq<Report> := [];
    for k := 0 to |ts|
      invariant LeaderReports(states[..k], ts[..k], finish) == Ok(rs)
      invariant SpanOf(sha, c, rs, sh, span) && (cfg.IsValidPartBatchSel(part) || rs == [])
    {
      LeaderNext(states, ts, finish, k, rs);
      match LeaderTake(states[k], ts[k], finish) {
        case Err =>
          LeaderPrefix(states, ts, finish, k + 1);
          return Err;
        case Ok(None) =>
        case Ok(Some(r)) =>
          var added := AddToSpan(cfg, sha, part, span, r, c, rs, sh);
          if added.Err? {
            LeaderGrows(states, ts, finish, k + 1);
            return Err;
          }
          span, rs := added.value, rs + [r];
      }
    }
    assert states[..|ts|] == states && ts[..|ts|] == ts;
    res := Ok(span);
  }
}
