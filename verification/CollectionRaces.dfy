/**
Collection while jobs run. The Helper reads the share of every bucket of the batch, checks the
total and marks every bucket as collected; each bucket answers on its own, and merges may arrive
in between. The released share is then the total of the batch if and only if none of them commits.
Of several requests for a bucket, more than one is answered if and only if each checks it for an
earlier collection before any other marks it.
*/
module CollectionRaces {
  import opened Wrappers
  import opened AggShare
  import opened Buckets
  import opened BucketStore
  import opened HelperJob
  import opened HelperStore
  import opened Collection
  import opened CollectionSafety

  /** What a bucket serves before it is read, from then until it is marked, and afterwards. */
  datatype Timeline = Timeline(before: seq<Op>, between: seq<Op>, after: seq<Op>)

  ghost function AtRead(t: Timeline): BucketState {
    RunOps(Durable, FRESH, t.before)
  }

  ghost function AtEnd(t: Timeline): BucketState {
    RunOps(Durable, FRESH, t.before + t.between + [OpMarkCollected] + t.after)
  }

  /** A merge commits reports after the bucket is read and before it is marked. */
  ghost predicate LateAt(t: Timeline, n: nat) {
    && n < |t.between| && t.between[n].OpMerge? && t.between[n].reports != []
    && Commits(RunOps(Durable, AtRead(t), t.between[..n]), t.between[n].reports)
  }

  ghost predicate Late(t: Timeline) {
    exists n :: LateAt(t, n)
  }

  // ---- One bucket

  lemma {:induction false} LogLength(t: Timeline, n: nat)
    requires n <= |t.between|
    ensures AtRead(t).log <= RunOps(Durable, AtRead(t), t.between[..n]).log
    ensures RunOps(Durable, AtRead(t), t.between[..n]).log == AtRead(t).log <==> forall m: nat | m < n :: !LateAt(t, m)
  {
    if n > 0 {
      LogLength(t, n - 1);
      var st := RunOps(Durable, AtRead(t), t.between[..n - 1]);
      assert t.between[..n][..n - 1] == t.between[..n - 1];
      StepLog(st, t.between[n - 1]);
      PrefixChain(AtRead(t).log, st.log, Step(Durable, st, t.between[n - 1]).log);
      assert LateAt(t, n - 1) <==> Step(Durable, st, t.between[n - 1]).log != st.log;
    }
  }

  lemma PrefixChain<T>(a: seq<T>, b: seq<T>, c: seq<T>)
    requires a <= b <= c
    ensures a <= c && (c == a <==> b == a && c == b)
  {
  }

  lemma StepLog(st: BucketState, op: Op)
    ensures st.log <= Step(Durable, st, op).log
    ensures Step(Durable, st, op).log == st.log <==> !(op.OpMerge? && op.reports != [] && Commits(st, op.reports))
  {
  }

  /** The log of a collected bucket is the one it had when it was marked. */
  lemma EndLog(t: Timeline)
    ensures AtEnd(t).log == RunOps(Durable, AtRead(t), t.between).log && AtEnd(t).collected
  {
    var marked := t.before + t.between + [OpMarkCollected];
    RunConcat(Durable, FRESH, t.before, t.between);
    assert marked[..|marked| - 1] == t.before + t.between;
    RunConcat(Durable, FRESH, marked, t.after);
    CollectedFrozen(RunOps(Durable, FRESH, marked), t.after);
  }

  /** Reading misses something of a bucket exactly if a merge commits before it is marked. */
  lemma ReadExact(t: Timeline)
    ensures AtRead(t).log <= AtEnd(t).log
    ensures AtRead(t).log == AtEnd(t).log <==> !Late(t)
  {
    EndLog(t);
    assert t.between[..|t.between|] == t.between;
    LogLength(t, |t.between|);
    assert Late(t) <==> exists n: nat | n < |t.between| :: LateAt(t, n);
  }

  // ---- The batch

  lemma TotalCountNext(sha: Sha, sh: Shape, store: Store, init: seq<Bucket>, b: Bucket)
    requires ShapedStore(store, sh)
    ensures MergeAll(SharesOf(sha, sh, store, init)).Ok? && MergeAll(SharesOf(sha, sh, store, init + [b])).Ok?
    ensures MergeAll(SharesOf(sha, sh, store, init + [b])).value.count
         == MergeAll(SharesOf(sha, sh, store, init)).value.count + |Lookup(store, b).log|
  {
    TotalShaped(sha, sh, store, init);
    MergeNext(sha, sh, store, init, b);
    JoinShaped(MergeAll(SharesOf(sha, sh, store, init)).value, BucketShare(sha, sh, store, b), sh);
  }

  /** Longer logs have larger totals. */
  lemma {:induction false} CountsGrow(sha: Sha, sh: Shape, store: Store, store': Store, order: seq<Bucket>)
    requires ShapedStore(store, sh) && ShapedStore(store', sh)
    requires forall b | b in order :: |Lookup(store, b).log| <= |Lookup(store', b).log|
    ensures var total, total' := MergeAll(SharesOf(sha, sh, store, order)), MergeAll(SharesOf(sha, sh, store', order));
            && total.Ok? && total'.Ok? && total.value.count <= total'.value.count
            && ((exists b :: b in order && |Lookup(store, b).log| < |Lookup(store', b).log|) ==>
                  total.value.count < total'.value.count)
  {
    if order != [] {
      var init, last := order[..|order| - 1], order[|order| - 1];
      assert order == init + [last] && last in order;
      CountsGrow(sha, sh, store, store', init);
      TotalCountNext(sha, sh, store, init, last);
      TotalCountNext(sha, sh, store', init, last);
    }
  }

  /** The buckets of the batch when each was read, and after everything. */
  ghost predicate Observed(read: Store, end: Store, span: set<Bucket>, lines: Bucket -> Timeline) {
    forall b | b in span :: Lookup(read, b) == AtRead(lines(b)) && Lookup(end, b) == AtEnd(lines(b))
  }

  /**
  The share read for a batch, bucket by bucket, is the total of everything its buckets will ever
  hold, if and only if no merge commits to any of them after it is read and before it is marked;
  otherwise it is the share of fewer reports. Whatever else was checked in the meantime is
  irrelevant.
  */
  lemma ReleaseExact(t: Task, read: Store, end: Store, lines: Bucket -> Timeline, sel: BatchSelector, share: Share)
    requires t.cfg.Valid() && ShapedStore(read, t.sh) && ShapedStore(end, t.sh)
    requires Observed(read, end, SpanFor(t.cfg, sel), lines)
    requires SpanTotal(t.sha, t.sh, read, SpanFor(t.cfg, sel)) == Ok(share)
    ensures var span := SpanFor(t.cfg, sel);
            var total := SpanTotal(t.sha, t.sh, end, span);
            && total.Ok?
            && (forall b | b in span :: Lookup(end, b).collected)
            && ((forall b | b in span :: !Late(lines(b))) ==> total.value == share)
            && ((exists b :: b in span && Late(lines(b))) ==> share.count < total.value.count)
  {
    var span := SpanFor(t.cfg, sel);
    forall b | b in span
      ensures Lookup(end, b).collected && Lookup(read, b).log <= Lookup(end, b).log
      ensures Lookup(read, b).log == Lookup(end, b).log <==> !Late(lines(b))
    {
      EndLog(lines(b));
      ReadExact(lines(b));
    }
    CountsGrow(t.sha, t.sh, read, end, SomeOrder(span));
    if forall b | b in span :: !Late(lines(b)) {
      SameTotal(t, read, end, span);
    }
  }

  /** A merge between reading and marking is answered with success, and its report is missing from what was read. */
  lemma LateMerge(r: Report)
    ensures var t := Timeline([], [OpMerge(0, [r])], []);
            && BucketMerge(Durable, AtRead(t), 0, [r]).1 == Committed
            && Reports(AtRead(t).log) == [] && Reports(AtEnd(t).log) == [r]
  {
    var t := Timeline([], [OpMerge(0, [r])], []);
    EndLog(t);
    assert t.between[..0] == [];
    assert Reports([] + Entries([r], 0)) == [r];
  }

  // ---- Several requests at once

  type History = Bucket -> seq<Op>

  /**
  A request that went through to the end: how many operations each bucket had served when it was
  checked for an earlier collection, when it was read, and when it was marked.
  */
  datatype Request = Request(span: set<Bucket>, checked: Bucket -> nat, read: Bucket -> nat, marked: Bucket -> nat)

  ghost predicate Served(hist: History, r: Request) {
    forall b | b in r.span ::
      r.checked(b) <= r.read(b) <= r.marked(b) < |hist(b)| && hist(b)[r.marked(b)].OpMarkCollected?
  }

  ghost function After(hist: History, b: Bucket, n: nat): BucketState
    requires n <= |hist(b)|
  {
    RunOps(Durable, FRESH, hist(b)[..n])
  }

  /** No bucket of the batch was found collected. */
  ghost predicate NoOverlap(hist: History, r: Request)
    requires Served(hist, r)
  {
    forall b | b in r.span :: !After(hist, b, r.checked(b)).collected
  }

  ghost predicate MarkedBy(rs: seq<Request>, b: Bucket, n: nat) {
    exists j | 0 <= j < |rs| :: b in rs[j].span && rs[j].marked(b) == n
  }

  /** The requests are all those that mark buckets. */
  ghost predicate AllOf(hist: History, rs: seq<Request>) {
    && (forall i | 0 <= i < |rs| :: Served(hist, rs[i]))
    && (forall b, n: nat | n < |hist(b)| && hist(b)[n].OpMarkCollected? :: MarkedBy(rs, b, n))
  }

  /** On every bucket the two have in common, the one checked before the other marked. */
  ghost predicate ChecksFirst(r: Request, other: Request) {
    forall b | b in r.span && b in other.span :: r.checked(b) <= other.marked(b)
  }

  lemma {:induction false} CollectedExact(ops: seq<Op>)
    ensures RunOps(Durable, FRESH, ops).collected <==> OpMarkCollected in ops
  {
    if ops != [] {
      var init, last := ops[..|ops| - 1], ops[|ops| - 1];
      assert ops == init + [last];
      CollectedExact(init);
    }
  }

  /** A bucket is found collected exactly if one of the requests marked it before. */
  lemma FoundExact(hist: History, rs: seq<Request>, b: Bucket, n: nat)
    requires AllOf(hist, rs) && n <= |hist(b)|
    ensures After(hist, b, n).collected <==> exists j | 0 <= j < |rs| :: b in rs[j].span && rs[j].marked(b) < n
  {
    CollectedExact(hist(b)[..n]);
    if After(hist, b, n).collected {
      var k :| 0 <= k < n && hist(b)[..n][k] == OpMarkCollected;
      assert MarkedBy(rs, b, k);
    }
    if j :| 0 <= j < |rs| && b in rs[j].span && rs[j].marked(b) < n {
      assert hist(b)[..n][rs[j].marked(b)] == OpMarkCollected;
    }
  }

  /**
  A request finds no overlap if and only if it checks every bucket before any of the others marks it:
  two requests for batches with a common bucket are both answered exactly when each checks all their
  common buckets before the other marks them.
  */
  lemma OverlapExact(hist: History, rs: seq<Request>, i: nat)
    requires i < |rs| && AllOf(hist, rs)
    ensures NoOverlap(hist, rs[i]) <==> forall j | 0 <= j < |rs| :: ChecksFirst(rs[i], rs[j])
  {
    var r := rs[i];
    forall b | b in r.span
      ensures After(hist, b, r.checked(b)).collected <==>
                exists j | 0 <= j < |rs| :: b in rs[j].span && rs[j].marked(b) < r.checked(b)
    {
      assert r.checked(b) <= r.marked(b);
      FoundExact(hist, rs, b, r.checked(b));
    }
    if exists j | 0 <= j < |rs| :: !ChecksFirst(r, rs[j]) {
      var j :| 0 <= j < |rs| && !ChecksFirst(r, rs[j]);
      var b :| b in r.span && b in rs[j].span && rs[j].marked(b) < r.checked(b);
      assert r.checked(b) <= r.marked(b);
    }
  }

  lemma {:induction false} HistoryGrows(hist: History, b: Bucket, m: nat, n: nat)
    requires m <= n <= |hist(b)|
    ensures After(hist, b, m).log <= After(hist, b, n).log
  {
    if m < n {
      HistoryGrows(hist, b, m, n - 1);
      assert hist(b)[..n][..n - 1] == hist(b)[..n - 1];
      StepLog(After(hist, b, n - 1), hist(b)[n - 1]);
    }
  }

  /** Whatever a common bucket holds when the first of the two reads it, both release. */
  lemma ReleasedTwice(hist: History, r: Request, other: Request, b: Bucket)
    requires Served(hist, r) && Served(hist, other) && b in r.span && b in other.span
    ensures r.read(b) <= |hist(b)| && other.read(b) <= |hist(b)|
    ensures var n := if r.read(b) <= other.read(b) then r.read(b) else other.read(b);
            && After(hist, b, n).log <= After(hist, b, r.read(b)).log
            && After(hist, b, n).log <= After(hist, b, other.read(b)).log
  {
    assert r.read(b) <= r.marked(b) < |hist(b)| && other.read(b) <= other.marked(b) < |hist(b)|;
    if r.read(b) <= other.read(b) {
      HistoryGrows(hist, b, r.read(b), other.read(b));
    } else {
      HistoryGrows(hist, b, other.read(b), r.read(b));
    }
  }

  /** Two requests for one bucket that are both answered, with the same report. */
  lemma BothAnswered(b: Bucket, r: Report) returns (hist: History, rs: seq<Request>)
    ensures |rs| == 2 && AllOf(hist, rs) && rs[0].span == rs[1].span == {b}
    ensures NoOverlap(hist, rs[0]) && NoOverlap(hist, rs[1])
    ensures rs[0].read(b) == rs[1].read(b) == 1 && |hist(b)| >= 1 && Reports(After(hist, b, 1).log) == [r]
  {
    var ops := [OpMerge(0, [r]), OpMarkCollected, OpMarkCollected];
    hist := c => if c == b then ops else [];
    rs := [Request({b}, _ => 1, _ => 1, _ => 1), Request({b}, _ => 1, _ => 1, _ => 2)];
    forall c, n: nat | n < |hist(c)| && hist(c)[n].OpMarkCollected? ensures MarkedBy(rs, c, n) {
      assert c in rs[n - 1].span && rs[n - 1].marked(c) == n;
    }
    OverlapExact(hist, rs, 0);
    OverlapExact(hist, rs, 1);
    assert hist(b)[..1] == [OpMerge(0, [r])];
    MergedOnce(r);
  }

  lemma MergedOnce(r: Report)
    ensures Reports(RunOps(Durable, FRESH, [OpMerge(0, [r])]).log) == [r]
  {
    var ops := [OpMerge(0, [r])];
    assert ops[..0] == [];
    assert Step(Durable, FRESH, ops[0]).log == [] + Entries([r], 0);
    assert Reports([] + Entries([r], 0)) == [r];
  }
}
