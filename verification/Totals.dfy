/**
Leader and Helper agree: after any concurrent execution of completed jobs, the Leader's and the
Helper's totals for a batch selector have the same count and the same checksum, whatever their
numbers of shards, if and only if no bucket of the batch was collected, with a job's reports in
it, before the run whose response the Leader consumed reached it.
*/
module Totals {
  import opened Wrappers
  import opened AggShare
  import opened Buckets
  import opened BucketStore
  import opened HelperJob
  import opened HelperTheorems
  import opened LeaderJob
  import opened LeaderHelper
  import opened Agreement
  import opened Executions
  import opened Collection
  import opened CollectionSafety

  // ---- The Leader's reports

  ghost function TransitionsOf(x: Execution, j: nat): seq<Transition>
    requires Linked(x) && Completed(x) && j < |x.jobs|
  {
    ResultOf(x, x.jobs[j].last).outcome.transitions
  }

  /** The Leader's preparation succeeds on every continued report of every job. */
  ghost predicate LeaderReady(x: Execution)
    requires Linked(x) && Completed(x)
  {
    forall j | 0 <= j < |x.jobs| ::
      |TransitionsOf(x, j)| == |x.jobs[j].inits|
      && LeaderSucceeds(x.jobs[j].inits, TransitionsOf(x, j), x.jobs[j].finish)
  }

  /** What the Leader aggregates for one job. */
  ghost function LeaderOf(x: Execution, j: nat): seq<Report>
    requires Linked(x) && Completed(x) && j < |x.jobs|
  {
    var reports := LeaderReports(StatesOf(x.jobs[j].prepInits), TransitionsOf(x, j), x.jobs[j].finish);
    if reports.Ok? then reports.value else []
  }

  /** A report of the job is continued. */
  ghost predicate ContinuedAs(x: Execution, j: nat, i: nat, r: Report)
    requires Linked(x) && Completed(x) && j < |x.jobs|
  {
    && i < |x.jobs[j].inits| == |TransitionsOf(x, j)|
    && TransitionsOf(x, j)[i].transition.Continued? && Meta(r) == (x.jobs[j].inits[i].id, x.jobs[j].inits[i].time)
  }

  lemma LeaderOfExact(x: Execution, j: nat)
    requires Valid(x) && Completed(x) && LeaderReady(x) && j < |x.jobs|
    ensures LeaderReports(StatesOf(x.jobs[j].prepInits), TransitionsOf(x, j), x.jobs[j].finish).Ok?
    ensures DistinctIds(LeaderOf(x, j))
    ensures forall r | r in LeaderOf(x, j) :: exists i :: ContinuedAs(x, j, i, r)
    ensures forall i | 0 <= i < |x.jobs[j].inits| && TransitionsOf(x, j)[i].transition.Continued? ::
              (x.jobs[j].inits[i].id, x.jobs[j].inits[i].time) in MetaSet(LeaderOf(x, j))
  {
    var job, k := x.jobs[j], x.jobs[j].last;
    var ts := TransitionsOf(x, j);
    var last := DoneTransitions(CtxOf(x, k), InitsOf(x, k), map[], x.runs[k].store, x.runs[k].envs);
    LeaderHolds(job.v, job.prepInits, job.inits, last, ts, job.finish);
    ConsumedMetas(job.v, job.prepInits, job.inits);
    LeaderMetas(StatesOf(job.prepInits), job.inits, ts, LeaderOf(x, j));
    forall r | r in LeaderOf(x, j) ensures exists i :: ContinuedAs(x, j, i, r) {
      var i: nat :| i < |ts| && ts[i].transition.Continued? && Meta(r) == (job.inits[i].id, job.inits[i].time);
      assert ContinuedAs(x, j, i, r);
    }
  }

  lemma LeaderMetas(states: seq<JobState>, inits: seq<Initialized>, ts: seq<Transition>, leader: seq<Report>)
    requires |states| == |inits| == |ts| && MetaSet(leader) == ContinuedMetas(states, ts)
    requires forall i | 0 <= i < |inits| :: inits[i].id == states[i].id && inits[i].time == states[i].time
    ensures forall r | r in leader ::
              exists i: nat :: i < |ts| && ts[i].transition.Continued? && Meta(r) == (inits[i].id, inits[i].time)
    ensures forall i | 0 <= i < |ts| && ts[i].transition.Continued? :: (inits[i].id, inits[i].time) in MetaSet(leader)
  {
    forall r | r in leader
      ensures exists i: nat :: i < |ts| && ts[i].transition.Continued? && Meta(r) == (inits[i].id, inits[i].time)
    {
      assert Meta(r) in ContinuedMetas(states, ts);
      var i :| 0 <= i < |ts| && ts[i].transition.Continued? && Meta(r) == (states[i].id, states[i].time);
      assert Meta(r) == (inits[i].id, inits[i].time);
    }
    forall i | 0 <= i < |ts| && ts[i].transition.Continued? ensures (inits[i].id, inits[i].time) in MetaSet(leader) {
      assert (states[i].id, states[i].time) in ContinuedMetas(states, ts);
    }
  }

  /** The reports of all lists with a given partial selector. */
  ghost function Gather(lists: seq<(PartialBatchSelector, seq<Report>)>, part: PartialBatchSelector): seq<Report> {
    if lists == [] then []
    else Gather(lists[..|lists| - 1], part) + if lists[|lists| - 1].0 == part then lists[|lists| - 1].1 else []
  }

  lemma {:induction false} Gathered(lists: seq<(PartialBatchSelector, seq<Report>)>, part: PartialBatchSelector,
                                    r: Report)
    ensures r in Gather(lists, part) <==> exists j :: 0 <= j < |lists| && lists[j].0 == part && r in lists[j].1
  {
    if lists != [] {
      var n := |lists| - 1;
      Gathered(lists[..n], part, r);
      if r in Gather(lists[..n], part) {
        var j :| 0 <= j < n && lists[..n][j].0 == part && r in lists[..n][j].1;
        assert lists[j].0 == part;
      }
      if j :| 0 <= j < |lists| && lists[j].0 == part && r in lists[j].1 {
        if j < n { assert lists[..n][j] == lists[j]; }
      }
    }
  }

  lemma {:induction false} GatheredFrom(lists: seq<(PartialBatchSelector, seq<Report>)>, j: nat, r: Report)
    requires j < |lists| && r in lists[j].1
    ensures r in Gather(lists, lists[j].0)
  {
    Gathered(lists, lists[j].0, r);
  }

  /** Every list has distinct IDs, and no two share one. */
  ghost predicate ListsApart(lists: seq<(PartialBatchSelector, seq<Report>)>) {
    && (forall j | 0 <= j < |lists| :: DistinctIds(lists[j].1))
    && (forall j, j' | 0 <= j < j' < |lists| :: IdSet(lists[j].1) !! IdSet(lists[j'].1))
  }

  lemma {:induction false} GatherDistinct(lists: seq<(PartialBatchSelector, seq<Report>)>, part: PartialBatchSelector)
    requires ListsApart(lists)
    ensures DistinctIds(Gather(lists, part))
  {
    if lists != [] {
      var n := |lists| - 1;
      assert forall j | 0 <= j < n :: lists[..n][j] == lists[j];
      GatherDistinct(lists[..n], part);
      if lists[n].0 == part {
        GatherApart(lists[..n], part, lists[n].1);
        DistinctConcat(Gather(lists[..n], part), lists[n].1);
      }
    }
  }

  lemma {:induction false} GatherApart(lists: seq<(PartialBatchSelector, seq<Report>)>, part: PartialBatchSelector,
                                       rs: seq<Report>)
    requires forall j | 0 <= j < |lists| :: IdSet(lists[j].1) !! IdSet(rs)
    ensures IdSet(Gather(lists, part)) !! IdSet(rs)
  {
    forall r | r in Gather(lists, part) ensures r.id !in IdSet(rs) {
      Gathered(lists, part, r);
      var j :| 0 <= j < |lists| && lists[j].0 == part && r in lists[j].1;
      assert r.id in IdSet(lists[j].1);
    }
  }

  ghost function LeaderLists(x: Execution): (lists: seq<(PartialBatchSelector, seq<Report>)>)
    requires Linked(x) && Completed(x)
    ensures |lists| == |x.jobs| && forall j | 0 <= j < |x.jobs| :: lists[j] == (x.jobs[j].part, LeaderOf(x, j))
  {
    seq(|x.jobs|, j requires 0 <= j < |x.jobs| => (x.jobs[j].part, LeaderOf(x, j)))
  }

  /** What the Leader aggregates with a partial selector. */
  ghost function LeaderFor(x: Execution, part: PartialBatchSelector): seq<Report>
    requires Linked(x) && Completed(x)
  {
    Gather(LeaderLists(x), part)
  }

  lemma LeaderForSource(x: Execution, part: PartialBatchSelector, r: Report) returns (j: nat, i: nat)
    requires Valid(x) && Completed(x) && LeaderReady(x) && r in LeaderFor(x, part)
    ensures j < |x.jobs| && x.jobs[j].part == part && ContinuedAs(x, j, i, r)
  {
    Gathered(LeaderLists(x), part, r);
    j :| 0 <= j < |LeaderLists(x)| && LeaderLists(x)[j].0 == part && r in LeaderLists(x)[j].1;
    LeaderOfExact(x, j);
    i :| ContinuedAs(x, j, i, r);
  }

  lemma LeaderForHas(x: Execution, j: nat, i: nat) returns (r: Report)
    requires Valid(x) && Completed(x) && LeaderReady(x) && j < |x.jobs|
    requires i < |x.jobs[j].inits| && TransitionsOf(x, j)[i].transition.Continued?
    ensures r in LeaderFor(x, x.jobs[j].part) && Meta(r) == (x.jobs[j].inits[i].id, x.jobs[j].inits[i].time)
  {
    LeaderOfExact(x, j);
    var m := (x.jobs[j].inits[i].id, x.jobs[j].inits[i].time);
    r :| r in LeaderOf(x, j) && Meta(r) == m;
    GatheredFrom(LeaderLists(x), j, r);
  }

  lemma LeaderOfApart(x: Execution, j: nat, j': nat)
    requires Valid(x) && Completed(x) && LeaderReady(x) && j < j' < |x.jobs|
    ensures IdSet(LeaderOf(x, j)) !! IdSet(LeaderOf(x, j'))
  {
    LeaderOfExact(x, j);
    LeaderOfExact(x, j');
    forall a, b | a in LeaderOf(x, j) && b in LeaderOf(x, j') ensures a.id != b.id {
      var i :| ContinuedAs(x, j, i, a);
      var i' :| ContinuedAs(x, j', i', b);
      if a.id == b.id {
        SameJob(x.jobs, j, j', i, i');
      }
    }
  }

  lemma LeaderForDistinct(x: Execution, part: PartialBatchSelector)
    requires Valid(x) && Completed(x) && LeaderReady(x)
    ensures DistinctIds(LeaderFor(x, part))
  {
    forall j | 0 <= j < |x.jobs| ensures DistinctIds(LeaderLists(x)[j].1) {
      LeaderOfExact(x, j);
    }
    forall j, j' | 0 <= j < j' < |x.jobs| ensures IdSet(LeaderLists(x)[j].1) !! IdSet(LeaderLists(x)[j'].1) {
      LeaderOfApart(x, j, j');
    }
    GatherDistinct(LeaderLists(x), part);
  }

  // ---- The Helper's reports

  /** The reports stored in the given buckets. */
  ghost function StoredIn(x: Execution, order: seq<Bucket>): seq<Report> {
    if order == [] then []
    else StoredIn(x, order[..|order| - 1]) + Reports(FinalBucket(x, order[|order| - 1]).log)
  }

  lemma {:induction false} StoredWhere(x: Execution, order: seq<Bucket>, r: Report)
    ensures r in StoredIn(x, order) <==> exists b :: b in order && r in Reports(FinalBucket(x, b).log)
  {
    if order != [] {
      var init, last := order[..|order| - 1], order[|order| - 1];
      assert order == init + [last];
      StoredWhere(x, init, r);
    }
  }

  lemma {:induction false} StoredDistinct(x: Execution, order: seq<Bucket>)
    requires Valid(x) && Distinct(order)
    ensures DistinctIds(StoredIn(x, order))
  {
    if order != [] {
      var init, last := order[..|order| - 1], order[|order| - 1];
      StoredDistinct(x, init);
      HistGood(x, last);
      forall p, q | p in StoredIn(x, init) && q in Reports(FinalBucket(x, last).log) ensures p.id != q.id {
        StoredWhere(x, init, p);
        var b :| b in init && p in Reports(FinalBucket(x, b).log);
        StoredOnce(x, b, last, p, q);
      }
      DistinctConcat(StoredIn(x, init), Reports(FinalBucket(x, last).log));
    }
  }

  /** No report is stored in two buckets. */
  lemma StoredOnce(x: Execution, b: Bucket, b': Bucket, p: Report, q: Report)
    requires Valid(x) && b != b' && p in Reports(FinalBucket(x, b).log) && q in Reports(FinalBucket(x, b').log)
    ensures p.id != q.id
  {
    var j := StoredIsPart(x, b, p);
    var j' := StoredIsPart(x, b', q);
    if p.id == q.id {
      PartsApart(x, j, j', b, b', p, q);
    }
  }

  /** A store with the final state of every bucket. */
  ghost predicate Final(x: Execution, store: Store) {
    forall b :: Lookup(store, b) == FinalBucket(x, b)
  }

  ghost predicate JobsShaped(x: Execution, sh: Shape) {
    forall j | 0 <= j < |x.jobs| :: AllShaped(ReadyReports(x.jobs[j].inits), sh)
  }

  lemma FinalShaped(x: Execution, b: Bucket, sh: Shape)
    requires Valid(x) && JobsShaped(x, sh)
    ensures AllShaped(Reports(FinalBucket(x, b).log), sh)
  {
    var rs := Reports(FinalBucket(x, b).log);
    forall i | 0 <= i < |rs| ensures HasShape(rs[i].data, sh) {
      assert rs[i] in rs;
      var j := StoredIsPart(x, b, rs[i]);
      assert rs[i] in ReadyReports(x.jobs[j].inits);
    }
  }

  lemma StoreShaped(x: Execution, store: Store, sh: Shape)
    requires Valid(x) && JobsShaped(x, sh) && Final(x, store)
    ensures ShapedStore(store, sh)
  {
    forall b | b in store ensures AllShaped(Reports(store[b].log), sh) {
      FinalShaped(x, b, sh);
      assert Lookup(store, b) == FinalBucket(x, b);
    }
  }

  /** The total of buckets is the share of the reports stored in them. */
  lemma {:induction false} TotalIsFold(x: Execution, store: Store, order: seq<Bucket>, sh: Shape)
    requires Valid(x) && JobsShaped(x, sh) && Final(x, store) && ShapedStore(store, sh)
    ensures AllShaped(StoredIn(x, order), sh)
    ensures MergeAll(SharesOf(x.sha, sh, store, order)) == Ok(Fold(x.sha, StoredIn(x, order), sh))
  {
    if order != [] {
      var init, last := order[..|order| - 1], order[|order| - 1];
      TotalIsFold(x, store, init, sh);
      assert order == init + [last] && Lookup(store, last) == FinalBucket(x, last);
      MergeNext(x.sha, sh, store, init, last);
      FinalShaped(x, last, sh);
      FoldConcat(x.sha, StoredIn(x, init), Reports(FinalBucket(x, last).log), sh);
    }
  }

  // ---- Comparison

  /** The Leader's reports that match a selector. */
  ghost function LeaderSelected(x: Execution, sel: BatchSelector): seq<Report>
    requires Linked(x) && Completed(x)
  {
    Filter(LeaderFor(x, PartFor(sel)), Matching(sel, PartFor(sel)))
  }

  /** A bucket of the span whose reports were lost. */
  ghost predicate LostIn(x: Execution, span: set<Bucket>)
    requires Linked(x) && Completed(x)
  {
    exists j, b :: 0 <= j < |x.jobs| && b in span && Lost(x, j, b)
  }

  ghost predicate IsOrder(order: seq<Bucket>, span: set<Bucket>) {
    forall b :: b in order <==> b in span
  }

  /** Whatever the Leader has aggregated for a batch, the Helper has stored in its buckets. */
  lemma {:induction false} LeaderWithin(x: Execution, sel: BatchSelector, order: seq<Bucket>)
    requires Valid(x) && Completed(x) && LeaderReady(x) && Aligned(x.cfg, sel) && IsOrder(order, SpanFor(x.cfg, sel))
    ensures IdSet(LeaderSelected(x, sel)) <= IdSet(StoredIn(x, order))
  {
    forall id | id in IdSet(LeaderSelected(x, sel)) ensures id in IdSet(StoredIn(x, order)) {
      var r :| r in LeaderSelected(x, sel) && r.id == id;
      LeaderReportStored(x, sel, order, r);
    }
  }

  lemma {:induction false} LeaderReportStored(x: Execution, sel: BatchSelector, order: seq<Bucket>, r: Report)
    requires Valid(x) && Completed(x) && LeaderReady(x) && Aligned(x.cfg, sel) && IsOrder(order, SpanFor(x.cfg, sel))
    requires r in LeaderSelected(x, sel)
    ensures r.id in IdSet(StoredIn(x, order))
  {
    var j, i := LeaderForSource(x, PartFor(sel), r);
    var b := BucketOf(x.cfg, x.sha, PartFor(sel), r.id, r.time);
    BucketCover(x.cfg, x.sha, sel, PartFor(sel), r.id, r.time);
    ContinuedReady(x, j, i);
    ReportDecided(x, j, i);
    StoredId(x, b, order, r.id);
  }

  lemma ContinuedReady(x: Execution, j: nat, i: nat)
    requires Valid(x) && Completed(x) && j < |x.jobs| && i < |x.jobs[j].inits| == |TransitionsOf(x, j)|
    requires TransitionsOf(x, j)[i].transition.Continued?
    ensures IsReady(x.jobs[j].inits[i])
  {
    var k := x.jobs[j].last;
    var last := DoneTransitions(CtxOf(x, k), InitsOf(x, k), map[], x.runs[k].store, x.runs[k].envs);
    ReadyTransition(x.jobs[j].inits, last, i);
  }

  /** A report stored in a bucket of the batch, as a report of a job. */
  lemma StoredSource(x: Execution, sel: BatchSelector, order: seq<Bucket>, s: Report)
    returns (j: nat, i: nat, b: Bucket)
    requires Valid(x) && IsOrder(order, SpanFor(x.cfg, sel)) && s in StoredIn(x, order)
    ensures j < |x.jobs| && i < |x.jobs[j].inits| && IsReady(x.jobs[j].inits[i]) && ReportOf(x.jobs[j].inits[i]) == s
    ensures b in SpanFor(x.cfg, sel) && x.jobs[j].part == PartFor(sel)
    ensures b == BucketOf(x.cfg, x.sha, x.jobs[j].part, s.id, s.time) && s.id in FinalBucket(x, b).ids
  {
    StoredWhere(x, order, s);
    b :| b in order && s in Reports(FinalBucket(x, b).log);
    j := StoredIsPart(x, b, s);
    i := PartIndex(x, j, b, s);
    SpanPart(x.cfg, sel, b);
    HistGood(x, b);
  }

  /** If nothing was lost, what the Helper has stored for a batch, the Leader has aggregated. */
  lemma {:induction false} HelperWithin(x: Execution, sel: BatchSelector, order: seq<Bucket>)
    requires Valid(x) && Completed(x) && LeaderReady(x) && Aligned(x.cfg, sel) && IsOrder(order, SpanFor(x.cfg, sel))
    requires !LostIn(x, SpanFor(x.cfg, sel))
    ensures IdSet(StoredIn(x, order)) <= IdSet(LeaderSelected(x, sel))
  {
    forall id | id in IdSet(StoredIn(x, order)) ensures id in IdSet(LeaderSelected(x, sel)) {
      var s :| s in StoredIn(x, order) && s.id == id;
      var j, i, b := StoredSource(x, sel, order, s);
      NotContinuedIsLost(x, j, b, i);
      var r := LeaderForHas(x, j, i);
      BucketCover(x.cfg, x.sha, sel, PartFor(sel), r.id, r.time);
      assert r in LeaderSelected(x, sel);
    }
  }

  lemma {:induction false} StoredId(x: Execution, b: Bucket, order: seq<Bucket>, id: ReportId)
    requires Valid(x) && b in order && id in FinalBucket(x, b).ids
    ensures id in IdSet(StoredIn(x, order))
  {
    HistGood(x, b);
    var s :| s in Reports(FinalBucket(x, b).log) && s.id == id;
    StoredWhere(x, order, s);
  }

  /** A report that is not continued is not aggregated by the Leader. */
  lemma NotLed(x: Execution, sel: BatchSelector, j: nat, i: nat)
    requires Valid(x) && Completed(x) && LeaderReady(x) && j < |x.jobs| && i < |x.jobs[j].inits|
    requires !TransitionsOf(x, j)[i].transition.Continued?
    ensures x.jobs[j].inits[i].id !in IdSet(LeaderSelected(x, sel))
  {
    ConsumedMetas(x.jobs[j].v, x.jobs[j].prepInits, x.jobs[j].inits);
    forall q | q in LeaderSelected(x, sel) ensures q.id != x.jobs[j].inits[i].id {
      var j', i' := LeaderForSource(x, PartFor(sel), q);
      if q.id == x.jobs[j].inits[i].id {
        SameReport(x.jobs, j, j', i, i');
      }
    }
  }

  lemma SameReport(jobs: seq<HonestJob>, j: nat, j': nat, i: nat, i': nat)
    requires JobsApart(jobs) && j < |jobs| && j' < |jobs| && i < |jobs[j].inits| && i' < |jobs[j'].inits|
    requires DistinctInits(jobs[j].inits) && jobs[j].inits[i].id == jobs[j'].inits[i'].id
    ensures j == j' && i == i'
  {
    SameJob(jobs, j, j', i, i');
  }

  /** A report that was lost is stored by the Helper and not aggregated by the Leader. */
  lemma {:induction false} LostDiffers(x: Execution, sel: BatchSelector, order: seq<Bucket>)
    requires Valid(x) && Completed(x) && LeaderReady(x) && Aligned(x.cfg, sel) && IsOrder(order, SpanFor(x.cfg, sel))
    requires LostIn(x, SpanFor(x.cfg, sel))
    ensures exists id :: id in IdSet(StoredIn(x, order)) && id !in IdSet(LeaderSelected(x, sel))
  {
    var j: nat, b :| 0 <= j < |x.jobs| && b in SpanFor(x.cfg, sel) && Lost(x, j, b);
    var r := Part(x, j, b)[0];
    assert r in Part(x, j, b) && r.id in IdSet(Part(x, j, b));
    var i := PartIndex(x, j, b, r);
    ReportDecided(x, j, i);
    StoredId(x, b, order, r.id);
    NotLed(x, sel, j, i);
  }

  /**
  Both totals exist, and they have the same count and the same checksum if and only if no bucket
  of the batch was collected, with a job's reports in it, before the run whose response the Leader
  consumed reached it. The Helper's total is that of its buckets; the Leader's is that of its own
  buckets, for its own number of shards, in any order.
  */
  lemma AgreementExact(x: Execution, store: Store, shH: Shape, cfgL: TaskConfig, shL: Shape, orderL: seq<Bucket>,
                       sel: BatchSelector)
    requires Valid(x) && Completed(x) && LeaderReady(x) && JobsShaped(x, shH) && Final(x, store)
    requires Aligned(x.cfg, sel) && SideOk(cfgL, sel, LeaderFor(x, PartFor(sel)), orderL, shL)
    ensures ShapedStore(store, shH)
    ensures var totalH := SpanTotal(x.sha, shH, store, SpanFor(x.cfg, sel));
            var totalL := MergeAll(BucketShares(cfgL, x.sha, PartFor(sel), LeaderFor(x, PartFor(sel)), orderL, shL));
            && totalH.Ok? && totalL.Ok?
            && (!LostIn(x, SpanFor(x.cfg, sel)) ==>
                  totalH.value.count == totalL.value.count && totalH.value.checksum == totalL.value.checksum)
            && (LostIn(x, SpanFor(x.cfg, sel)) ==> totalH.value.count > totalL.value.count)
  {
    var span, part := SpanFor(x.cfg, sel), PartFor(sel);
    var order, leader := SomeOrder(span), LeaderFor(x, part);
    StoreShaped(x, store, shH);
    TotalIsFold(x, store, order, shH);
    FlatFold(cfgL, x.sha, sel, part, leader, orderL, shL);
    FilterShaped(leader, Matching(sel, part), shL);
    FoldMeaning(x.sha, StoredIn(x, order), shH);
    FoldMeaning(x.sha, LeaderSelected(x, sel), shL);
    SelectedCompare(x, sel, order);
  }

  /** The two lists of reports, compared. */
  lemma {:induction false} SelectedCompare(x: Execution, sel: BatchSelector, order: seq<Bucket>)
    requires Valid(x) && Completed(x) && LeaderReady(x) && Aligned(x.cfg, sel)
    requires IsOrder(order, SpanFor(x.cfg, sel)) && Distinct(order)
    ensures var helper, leader := StoredIn(x, order), LeaderSelected(x, sel);
            && (!LostIn(x, SpanFor(x.cfg, sel)) ==>
                  |helper| == |leader| && XorAll(x.sha, helper) == XorAll(x.sha, leader))
            && (LostIn(x, SpanFor(x.cfg, sel)) ==> |helper| > |leader|)
  {
    var helper, leader := StoredIn(x, order), LeaderSelected(x, sel);
    StoredDistinct(x, order);
    LeaderForDistinct(x, PartFor(sel));
    FilterDistinct(LeaderFor(x, PartFor(sel)), Matching(sel, PartFor(sel)));
    DistinctCard(helper);
    DistinctCard(leader);
    LeaderWithin(x, sel, order);
    if LostIn(x, SpanFor(x.cfg, sel)) {
      LostDiffers(x, sel, order);
      ProperSubset(IdSet(leader), IdSet(helper));
    } else {
      HelperWithin(x, sel, order);
      XorSame(x.sha, helper, leader);
    }
  }

  lemma ProperSubset<T>(a: set<T>, b: set<T>)
    requires a <= b && exists y :: y in b && y !in a
    ensures |a| < |b|
  {
    var y :| y in b && y !in a;
    assert |b| == |b - {y}| + 1;
    SubsetSize(a, b - {y});
  }

  lemma {:induction false} SubsetSize<T>(a: set<T>, b: set<T>)
    requires a <= b
    ensures |a| <= |b|
  {
    if a != {} {
      var y :| y in a;
      SubsetSize(a - {y}, b - {y});
    }
  }
}
