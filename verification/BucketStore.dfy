/**
The state of one bucket and the requests it answers. The model keeps the log of committed
reports, from which the stored share and the stored IDs derive; `AggregateStore` proves that
the durable object behaves this way. The in-memory store of the test aggregator answers the
same requests differently.
*/
module BucketStore {
  import opened Wrappers
  import opened PrimeField
  import opened AggShare

  /** A committed report and the job that committed it. */
  datatype Entry = Entry(report: Report, job: nat)

  datatype BucketState = BucketState(log: seq<Entry>, ids: set<ReportId>, collected: bool)

  const FRESH: BucketState := BucketState([], {}, false)

  datatype StoreKind = Durable | InMemory

  datatype MergeResp = Committed | AlreadyCollected | ReplaysDetected(ids: set<ReportId>)

  function IdSet(rs: seq<Report>): set<ReportId> {
    set r | r in rs :: r.id
  }

  function Entries(rs: seq<Report>, job: nat): (es: seq<Entry>)
    ensures |es| == |rs|
  {
    seq(|rs|, i requires 0 <= i < |rs| => Entry(rs[i], job))
  }

  function Reports(log: seq<Entry>): (rs: seq<Report>)
    ensures |rs| == |log|
  {
    seq(|log|, i requires 0 <= i < |log| => log[i].report)
  }

  ghost predicate DistinctIds(rs: seq<Report>) {
    forall i, j | 0 <= i < j < |rs| :: rs[i].id != rs[j].id
  }

  /** Whether a merge of `rs` appends to the log. */
  predicate Commits(st: BucketState, rs: seq<Report>) {
    !st.collected && IdSet(rs) !! st.ids
  }

  /** One merge request: `rs` are the reports whose IDs and total it carries. */
  function BucketMerge(kind: StoreKind, st: BucketState, job: nat, rs: seq<Report>): (BucketState, MergeResp) {
    var repeats := IdSet(rs) * st.ids;
    if Commits(st, rs) then (BucketState(st.log + Entries(rs, job), st.ids + IdSet(rs), false), Committed)
    else
      match kind
      case Durable =>
        if st.collected then (st, AlreadyCollected)
        else if |repeats| == |rs| then (st, Committed)
        else (st, ReplaysDetected(repeats))
      case InMemory =>
        if repeats != {} then (st, ReplaysDetected(repeats))
        else (st.(ids := st.ids + IdSet(rs)), AlreadyCollected)
  }

  // ---- Runs of one bucket

  datatype Op = OpMerge(job: nat, reports: seq<Report>) | OpMarkCollected

  function Step(kind: StoreKind, st: BucketState, op: Op): BucketState {
    match op
    case OpMerge(job, rs) => BucketMerge(kind, st, job, rs).0
    case OpMarkCollected => st.(collected := true)
  }

  function RunOps(kind: StoreKind, st: BucketState, ops: seq<Op>): BucketState {
    if ops == [] then st else Step(kind, RunOps(kind, st, ops[..|ops| - 1]), ops[|ops| - 1])
  }

  /** Requests as aggregation jobs make them: the IDs in one request are distinct. */
  ghost predicate WellFormedOps(ops: seq<Op>) {
    forall i | 0 <= i < |ops| && ops[i].OpMerge? :: DistinctIds(ops[i].reports)
  }

  /** The stored IDs are those of the log, each once. */
  ghost predicate Inv(st: BucketState) {
    st.ids == IdSet(Reports(st.log)) && DistinctIds(Reports(st.log))
  }

  lemma ReportsConcat(a: seq<Entry>, rs: seq<Report>, job: nat)
    ensures Reports(a + Entries(rs, job)) == Reports(a) + rs
  {
  }

  lemma IdSetConcat(a: seq<Report>, b: seq<Report>)
    ensures IdSet(a + b) == IdSet(a) + IdSet(b)
  {
    forall id | id in IdSet(a) + IdSet(b) ensures id in IdSet(a + b) {
      if id in IdSet(a) {
        var r :| r in a && r.id == id;
        assert r in a + b;
      } else {
        var r :| r in b && r.id == id;
        assert r in a + b;
      }
    }
  }

  lemma DistinctConcat(a: seq<Report>, b: seq<Report>)
    requires DistinctIds(a) && DistinctIds(b) && IdSet(a) !! IdSet(b)
    ensures DistinctIds(a + b)
  {
    forall i, j | 0 <= i < j < |a + b| ensures (a + b)[i].id != (a + b)[j].id {
      if i < |a| <= j {
        assert a[i] in a && b[j - |a|] in b;
        assert a[i].id in IdSet(a) && b[j - |a|].id in IdSet(b);
      }
    }
  }

  lemma LastFresh(rs: seq<Report>)
    requires DistinctIds(rs) && rs != []
    ensures rs[|rs| - 1].id !in IdSet(rs[..|rs| - 1])
    ensures IdSet(rs) == IdSet(rs[..|rs| - 1]) + {rs[|rs| - 1].id}
  {
    var init, last := rs[..|rs| - 1], rs[|rs| - 1];
    assert rs == init + [last];
    IdSetConcat(init, [last]);
    assert IdSet([last]) == {last.id};
    forall r | r in init ensures r.id != last.id {
      var i :| 0 <= i < |init| && init[i] == r;
      assert rs[i].id != rs[|rs| - 1].id;
    }
  }

  lemma {:induction false} DistinctCard(rs: seq<Report>)
    requires DistinctIds(rs)
    ensures |IdSet(rs)| == |rs|
  {
    if rs == [] {
      assert IdSet(rs) == {};
    } else {
      DistinctCard(rs[..|rs| - 1]);
      LastFresh(rs);
    }
  }

  lemma MergeKeepsInv(st: BucketState, job: nat, rs: seq<Report>)
    requires Inv(st) && DistinctIds(rs)
    ensures Inv(BucketMerge(Durable, st, job, rs).0)
  {
    if Commits(st, rs) {
      ReportsConcat(st.log, rs, job);
      IdSetConcat(Reports(st.log), rs);
      DistinctConcat(Reports(st.log), rs);
    }
  }

  lemma {:induction false} RunKeepsInv(st: BucketState, ops: seq<Op>)
    requires Inv(st) && WellFormedOps(ops)
    ensures Inv(RunOps(Durable, st, ops))
  {
    if ops != [] {
      RunKeepsInv(st, ops[..|ops| - 1]);
      var op := ops[|ops| - 1];
      if op.OpMerge? {
        MergeKeepsInv(RunOps(Durable, st, ops[..|ops| - 1]), op.job, op.reports);
      }
    }
  }

  ghost predicate ShapedOps(ops: seq<Op>, sh: Shape) {
    forall i | 0 <= i < |ops| && ops[i].OpMerge? :: AllShaped(ops[i].reports, sh)
  }

  lemma {:induction false} RunShaped(kind: StoreKind, st: BucketState, ops: seq<Op>, sh: Shape)
    requires AllShaped(Reports(st.log), sh) && ShapedOps(ops, sh)
    ensures AllShaped(Reports(RunOps(kind, st, ops).log), sh)
  {
    if ops != [] {
      RunShaped(kind, st, ops[..|ops| - 1], sh);
      var op := ops[|ops| - 1];
      if op.OpMerge? {
        ReportsConcat(RunOps(kind, st, ops[..|ops| - 1]).log, op.reports, op.job);
      }
    }
  }

  /** The IDs whose digest has bit `k` of byte `i` set. */
  ghost function IdsWithBit(sha: Sha, ids: set<ReportId>, i: nat, k: nat): set<ReportId>
    requires i < 32
  {
    set id | id in ids && DigestBit(sha(id), i, k) == 1
  }

  lemma {:induction false} BitCountIsCard(sha: Sha, rs: seq<Report>, i: nat, k: nat)
    requires i < 32 && DistinctIds(rs)
    ensures BitCount(sha, rs, i, k) == |IdsWithBit(sha, IdSet(rs), i, k)|
  {
    if rs == [] {
      assert IdsWithBit(sha, IdSet(rs), i, k) == {};
    } else {
      var init, last := rs[..|rs| - 1], rs[|rs| - 1];
      BitCountIsCard(sha, init, i, k);
      assert rs == init + [last];
      assert IdSet(rs) == IdSet(init) + {last.id} && last.id !in IdSet(init);
      BitNext(sha, IdSet(init), last.id, i, k);
    }
  }

  lemma BitNext(sha: Sha, ids: set<ReportId>, id: ReportId, i: nat, k: nat)
    requires i < 32 && id !in ids
    ensures |IdsWithBit(sha, ids + {id}, i, k)| == |IdsWithBit(sha, ids, i, k)| + DigestBit(sha(id), i, k)
  {
    var with := IdsWithBit(sha, ids, i, k);
    assert IdsWithBit(sha, ids + {id}, i, k) == if DigestBit(sha(id), i, k) == 1 then with + {id} else with;
  }

  /** Every bit of the checksum is the parity of that bit over the digests of the IDs. */
  ghost predicate ChecksumOf(sha: Sha, ids: set<ReportId>, checksum: Digest) {
    forall i: nat, k: nat | i < 32 && k < 8 :: DigestBit(checksum, i, k) == |IdsWithBit(sha, ids, i, k)| % 2
  }

  lemma ChecksumOfIds(sha: Sha, rs: seq<Report>, checksum: Digest)
    requires DistinctIds(rs) && ParityOf(sha, rs, checksum)
    ensures ChecksumOf(sha, IdSet(rs), checksum)
  {
    forall i: nat, k: nat | i < 32 && k < 8
      ensures DigestBit(checksum, i, k) == |IdsWithBit(sha, IdSet(rs), i, k)| % 2
    {
      BitCountIsCard(sha, rs, i, k);
    }
  }

  /**
  Whatever merges and collections a bucket serves, in any order: the number of reports in its
  share is the number of stored IDs, every bit of the checksum is the parity of that bit over their
  digests, the times are exact and the data is the sum of exactly one contribution per ID.
  */
  lemma {:induction false} StoreInvariant(sha: Sha, ops: seq<Op>, sh: Shape)
    requires WellFormedOps(ops) && ShapedOps(ops, sh)
    ensures var st := RunOps(Durable, FRESH, ops);
            var rs := Reports(st.log);
            && DistinctIds(rs) && st.ids == IdSet(rs) && AllShaped(rs, sh)
            && var share := Fold(sha, rs, sh);
            && share.count == |st.ids|
            && share.checksum == XorAll(sha, rs) && ChecksumOf(sha, st.ids, share.checksum)
            && (forall i | 0 <= i < |rs| :: share.minTime <= rs[i].time <= share.maxTime)
            && (rs != [] ==> (exists i | 0 <= i < |rs| :: rs[i].time == share.minTime)
                             && (exists i | 0 <= i < |rs| :: rs[i].time == share.maxTime)
                             && share.data.Some? && |share.data.value.elems| == sh.len
                             && forall j | 0 <= j < sh.len ::
                                  Cong(Modulus(sh.kind), share.data.value.elems[j], DataSum(rs, j)))
  {
    var st := RunOps(Durable, FRESH, ops);
    RunKeepsInv(FRESH, ops);
    RunShaped(Durable, FRESH, ops, sh);
    DistinctCard(Reports(st.log));
    FoldMeaning(sha, Reports(st.log), sh);
    ChecksumOfIds(sha, Reports(st.log), Fold(sha, Reports(st.log), sh).checksum);
  }

  /** Nothing changes after a bucket is marked collected. */
  lemma {:induction false} CollectedFrozen(st: BucketState, ops: seq<Op>)
    requires st.collected
    ensures RunOps(Durable, st, ops) == st
  {
    if ops != [] {
      CollectedFrozen(st, ops[..|ops| - 1]);
    }
  }

  /** Logs and ID sets only grow, and a collected bucket keeps its log, on both stores. */
  lemma {:induction false} RunGrows(kind: StoreKind, st: BucketState, ops: seq<Op>)
    ensures st.log <= RunOps(kind, st, ops).log
    ensures st.ids <= RunOps(kind, st, ops).ids
    ensures st.collected ==> RunOps(kind, st, ops).collected && RunOps(kind, st, ops).log == st.log
  {
    if ops != [] {
      RunGrows(kind, st, ops[..|ops| - 1]);
    }
  }

  /**
  A merge that reports success has all its IDs stored afterwards in an uncollected bucket, and on
  the durable store every such merge reports success; a merge that does not changes no log.
  */
  lemma MergeCommitted(kind: StoreKind, st: BucketState, job: nat, rs: seq<Report>)
    requires DistinctIds(rs)
    ensures var (st', resp) := BucketMerge(kind, st, job, rs);
            && (resp.Committed? ==> !st'.collected && IdSet(rs) <= st'.ids)
            && (kind.Durable? && !st'.collected && IdSet(rs) <= st'.ids ==> resp.Committed?)
            && (kind.Durable? ==> (resp.AlreadyCollected? <==> st.collected))
            && (Commits(st, rs) ==> resp.Committed?)
            && (resp.ReplaysDetected? ==> resp.ids == IdSet(rs) * st.ids && st' == st)
            && (resp.AlreadyCollected? ==> st.collected && st'.log == st.log)
  {
    var repeats := IdSet(rs) * st.ids;
    DistinctCard(rs);
    assert forall id | id in IdSet(rs) && id in st.ids :: id in repeats;
    if kind.Durable? && !st.collected && |repeats| == |rs| {
      SubsetFull(repeats, IdSet(rs));
    }
    if IdSet(rs) <= st.ids {
      assert repeats == IdSet(rs);
    }
  }

  /**
  A merge into a collected bucket that is repeated is rejected for another reason by the in-memory
  store, which keeps the IDs it rejects; the durable store gives the same answer again.
  */
  lemma RepeatedAfterCollection(st: BucketState, job: nat, rs: seq<Report>)
    requires st.collected && rs != [] && IdSet(rs) !! st.ids
    ensures var (st', resp) := BucketMerge(InMemory, st, job, rs);
            && resp == AlreadyCollected && st'.log == st.log && st'.ids == st.ids + IdSet(rs)
            && BucketMerge(InMemory, st', job, rs).1 == ReplaysDetected(IdSet(rs))
    ensures BucketMerge(Durable, st, job, rs) == (st, AlreadyCollected)
  {
    assert rs[0].id in IdSet(rs);
    assert IdSet(rs) * (st.ids + IdSet(rs)) == IdSet(rs);
  }

  lemma SubsetFull<T>(a: set<T>, b: set<T>)
    requires a <= b && |a| == |b|
    ensures a == b
  {
    SubsetCard(b - a, b);
    assert |b - a| == |b| - |a|;
  }
}
