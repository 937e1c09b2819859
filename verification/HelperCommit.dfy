/**
Committing a span and the retry loop. `BucketStores` holds the buckets of a task as an
aggregator sees them: a share, a set of report IDs and a flag per bucket, with the log of
committed reports as its abstract value. Other parties' requests and storage failures of each
pass are given by `Env`.
*/
module HelperCommit {
  import opened Wrappers
  import opened AggShare
  import opened Buckets
  import opened BucketStore
  import opened HelperJob
  import opened HelperTheorems
  import opened HelperLoop

  datatype Cell = Cell(share: Share, ids: set<ReportId>, collected: bool)

  /** The cell holds what the log says. */
  ghost predicate Represents(sha: Sha, sh: Shape, cell: Cell, st: BucketState) {
    && AllShaped(Reports(st.log), sh)
    && cell == Cell(Fold(sha, Reports(st.log), sh), st.ids, st.collected)
  }

  lemma FreshRepresented(sha: Sha, sh: Shape)
    ensures Represents(sha, sh, Cell(EMPTY, {}, false), FRESH)
  {
    assert Reports(FRESH.log) == [];
  }

  lemma {:induction false} CommitRepresented(sha: Sha, sh: Shape, cell: Cell, st: BucketState, job: nat,
                                             rs: seq<Report>)
    requires Represents(sha, sh, cell, st) && AllShaped(rs, sh) && Commits(st, rs)
    ensures var share := Merge(cell.share, Fold(sha, rs, sh));
            share.Ok? && Represents(sha, sh, Cell(share.value, cell.ids + IdSet(rs), false),
                                    BucketMerge(Durable, st, job, rs).0)
  {
    ReportsConcat(st.log, rs, job);
    FoldConcat(sha, Reports(st.log), rs, sh);
  }

  /** The IDs of a span entry. */
  function IdsOf(reports: seq<(ReportId, nat)>): set<ReportId> {
    set m | m in reports :: m.0
  }

  lemma IdsOfMetas(rs: seq<Report>)
    ensures IdsOf(Metas(rs)) == IdSet(rs)
  {
    var ms := Metas(rs);
    forall id | id in IdSet(rs) ensures id in IdsOf(ms) {
      var i :| 0 <= i < |rs| && rs[i].id == id;
      assert ms[i] in ms;
    }
    forall id | id in IdsOf(ms) ensures id in IdSet(rs) {
      var i :| 0 <= i < |ms| && ms[i].0 == id;
      assert rs[i] in rs;
    }
  }

  lemma Disjoint<T>(a: set<T>, b: set<T>)
    ensures a * b == {} <==> a !! b
  {
    assert forall x | x in a && x in b :: x in a * b;
  }

  lemma UpdateTwice<K, V>(m: map<K, V>, k: K, v: V, v': V)
    ensures m[k := v][k := v'] == m[k := v']
  {
  }

  /** One merge request, as either store answers it. */
  method AnswerMerge(kind: StoreKind, sha: Sha, cell: Cell, entry: SpanEntry,
                     ghost st: BucketState, ghost job: nat, ghost rs: seq<Report>, ghost sh: Shape)
    returns (cell': Cell, resp: MergeResp)
    requires Represents(sha, sh, cell, st) && EntryFor(sha, rs, sh, entry)
    ensures Represents(sha, sh, cell', BucketMerge(kind, st, job, rs).0)
    ensures resp == BucketMerge(kind, st, job, rs).1
  {
    IdsOfMetas(rs);
    var ids := IdsOf(entry.reports);
    var repeats := ids * cell.ids;
    Disjoint(ids, cell.ids);
    if repeats == {} && !cell.collected {
      CommitRepresented(sha, sh, cell, st, job, rs);
      var share := MergeInto(cell.share, entry.share);
      return Cell(share.value, cell.ids + ids, false), Committed;
    }
    match kind {
      case Durable =>
        if cell.collected {
          return cell, AlreadyCollected;
        }
        return cell, if |repeats| == |entry.reports| then Committed else ReplaysDetected(repeats);
      case InMemory =>
        if repeats != {} {
          return cell, ReplaysDetected(repeats);
        }
        return cell.(ids := cell.ids + ids), AlreadyCollected;
    }
  }

  /** The buckets after requests to one of them. */
  ghost function Served(kind: StoreKind, store: Store, b: Bucket, ops: seq<Op>): Store {
    store[b := RunOps(kind, Lookup(store, b), ops)]
  }

  lemma ServedStep(kind: StoreKind, store: Store, b: Bucket, ops: seq<Op>, k: nat)
    requires k < |ops|
    ensures var before := Served(kind, store, b, ops[..k]);
            Served(kind, store, b, ops[..k + 1]) == before[b := Step(kind, Lookup(before, b), ops[k])]
  {
    var st := Lookup(store, b);
    assert ops[..k + 1][..k] == ops[..k];
    assert RunOps(kind, st, ops[..k + 1]) == Step(kind, RunOps(kind, st, ops[..k]), ops[k]);
    UpdateTwice(store, b, RunOps(kind, st, ops[..k]), RunOps(kind, st, ops[..k + 1]));
  }

  class BucketStores {
    const kind: StoreKind
    const sha: Sha
    ghost const sh: Shape
    var cells: map<Bucket, Cell>
    ghost var store: Store

    ghost predicate Valid()
      reads this
    {
      cells.Keys == store.Keys && forall b | b in store :: Represents(sha, sh, cells[b], store[b])
    }

    constructor (kind: StoreKind, sha: Sha, ghost sh: Shape)
      ensures Valid() && store == map[] && this.kind == kind && this.sha == sha && this.sh == sh
    {
      this.kind, this.sha, this.sh := kind, sha, sh;
      cells, store := map[], map[];
    }

    function CellOf(b: Bucket): Cell
      reads this
    {
      if b in cells then cells[b] else Cell(EMPTY, {}, false)
    }

    lemma CellRepresents(b: Bucket)
      requires Valid()
      ensures Represents(sha, sh, CellOf(b), Lookup(store, b))
    {
      FreshRepresented(sha, sh);
    }

    method MergeRequest(b: Bucket, entry: SpanEntry, ghost job: nat, ghost rs: seq<Report>) returns (resp: MergeResp)
      requires Valid() && EntryFor(sha, rs, sh, entry)
      modifies this
      ensures Valid()
      ensures store == old(store)[b := BucketMerge(kind, Lookup(old(store), b), job, rs).0]
      ensures resp == BucketMerge(kind, Lookup(old(store), b), job, rs).1
    {
      CellRepresents(b);
      var cell, answer := AnswerMerge(kind, sha, CellOf(b), entry, Lookup(store, b), job, rs, sh);
      cells, store, resp := cells[b := cell], store[b := BucketMerge(kind, Lookup(store, b), job, rs).0], answer;
    }

    method MarkCollected(b: Bucket)
      requires Valid()
      modifies this
      ensures Valid() && store == old(store)[b := Step(kind, Lookup(old(store), b), OpMarkCollected)]
    {
      CellRepresents(b);
      cells := cells[b := CellOf(b).(collected := true)];
      store := store[b := Lookup(store, b).(collected := true)];
    }

    method Touch(b: Bucket)
      requires Valid()
      modifies this
      ensures Valid() && store == old(store)[b := Lookup(old(store), b)]
    {
      CellRepresents(b);
      cells, store := cells[b := CellOf(b)], store[b := Lookup(store, b)];
    }

    method ServeOne(b: Bucket, op: Op)
      requires Valid() && (op.OpMerge? ==> AllShaped(op.reports, sh))
      modifies this
      ensures Valid() && store == old(store)[b := Step(kind, Lookup(old(store), b), op)]
    {
      match op {
        case OpMerge(job, rs) =>
          var entry := Entry(rs);
          var _ := MergeRequest(b, entry, job, rs);
        case OpMarkCollected => MarkCollected(b);
      }
    }

    /** The requests of other parties to a bucket. */
    method Serve(b: Bucket, ops: seq<Op>)
      requires Valid() && ShapedOps(ops, sh)
      modifies this
      ensures Valid() && store == Served(kind, old(store), b, ops)
    {
      ghost var store0 := store;
      Touch(b);
      assert store == Served(kind, store0, b, ops[..0]);
      for k := 0 to |ops|
        invariant Valid()
        invariant store == Served(kind, store0, b, ops[..k])
      {
        ServedStep(kind, store0, b, ops, k);
        ServeOne(b, ops[k]);
      }
      assert ops[..|ops|] == ops;
    }

    method Entry(rs: seq<Report>) returns (entry: SpanEntry)
      requires AllShaped(rs, sh)
      ensures EntryFor(sha, rs, sh, entry)
    {
      var share := FoldReports(sha, rs, sh);
      entry := SpanEntry(share, seq(|rs|, i requires 0 <= i < |rs| => (rs[i].id, rs[i].time)));
    }

    /** What happens to one bucket in a pass. */
    method PutBucket(b: Bucket, entry: Option<SpanEntry>, env: Env, ghost c: Ctx, ghost f: seq<Report>)
      returns (result: PutResult)
      requires Valid() && c.kind == kind && ShapedOps(OpsOn(env, b), sh)
      requires if entry.None? then f == [] else f != [] && EntryFor(sha, f, sh, entry.value)
      modifies this
      ensures Valid()
      ensures store == old(store)[b := PassBucket(c, env, b, f, Lookup(old(store), b)).0]
      ensures result == PassBucket(c, env, b, f, Lookup(old(store), b)).1
    {
      ghost var st := RunOps(kind, Lookup(store, b), OpsOn(env, b));
      UpdateTwice(store, b, st, BucketMerge(kind, st, c.job, f).0);
      Serve(b, OpsOn(env, b));
      if entry.None? {
        return PutNone;
      }
      if FaultOn(env, b).FailBefore? {
        return PutError;
      }
      var resp := MergeRequest(b, entry.value, c.job, f);
      return if FaultOn(env, b).FailAfter? then PutError else Put(resp);
    }

    /** The next bucket of a pass. */
    method PutNext(span: Span, env: Env, b: Bucket, results: map<Bucket, PutResult>, ghost c: Ctx,
                   ghost rs: seq<Report>, ghost run: PassRun)
      returns (results': map<Bucket, PutResult>)
      requires Valid() && c.kind == kind && SpanOf(sha, c, rs, sh, span) && ShapedEnv(env, sh)
      requires b in run.todo && PassLoop(c, env, rs, run, store, results)
      modifies this
      ensures Valid() && PassLoop(c, env, rs, run.Next(b), store, results')
    {
      PassLoopStep(c, env, rs, run, store, results, b);
      var entry := EntryAt(span, b, c, rs);
      var result := PutBucket(b, entry, env, c, InB(c, rs, b));
      results' := if b in span then results[b := result] else results;
    }

    /** Send every bucket of a span to the store, in any order. */
    method TryPutAggShareSpan(span: Span, env: Env, ghost c: Ctx, ghost rs: seq<Report>)
      returns (results: map<Bucket, PutResult>)
      requires Valid() && c.kind == kind && SpanOf(sha, c, rs, sh, span) && ShapedEnv(env, sh)
      modifies this
      ensures Valid() && store == PassStore(c, env, rs, old(store))
      ensures ResultsPart(c, env, rs, old(store), results, BucketsOf(c, rs))
    {
      results := map[];
      var todo := span.Keys + env.ops.Keys;
      ghost var run := PassRun(store, todo, {});
      PassStart(c, env, rs, run);
      while todo != {}
        invariant Valid() && run.todo == todo && run.store0 == old(store)
        invariant PassLoop(c, env, rs, run, store, results)
        decreases |todo|
      {
        var b :| b in todo;
        results := PutNext(span, env, b, results, c, rs, run);
        SplitStep(run.todo, run.done, b);
        todo, run := todo - {b}, run.Next(b);
      }
      PassPartWhole(c, env, rs, run, store, results);
    }

    method EntryAt(span: Span, b: Bucket, ghost c: Ctx, ghost rs: seq<Report>) returns (entry: Option<SpanEntry>)
      requires SpanOf(sha, c, rs, sh, span)
      ensures var f := InB(c, rs, b);
              if entry.None? then f == [] else f != [] && EntryFor(sha, f, sh, entry.value)
    {
      InBEmpty(c, rs, b);
      entry := if b in span then Some(span[b]) else None;
    }
  }

  lemma SplitStep<T(!new)>(todo: set<T>, done: set<T>, x: T)
    requires x in todo && todo !! done
    ensures (todo - {x}) + (done + {x}) == todo + done && (todo - {x}) !! (done + {x}) && |todo - {x}| < |todo|
  {
  }

  /** The progress of a pass: the buckets at its start, and which of them are left and done. */
  datatype PassRun = PassRun(store0: Store, todo: set<Bucket>, done: set<Bucket>) {
    ghost function Next(b: Bucket): PassRun {
      PassRun(store0, todo - {b}, done + {b})
    }
  }

  ghost predicate PassLoop(c: Ctx, env: Env, rs: seq<Report>, run: PassRun, store: Store,
                           results: map<Bucket, PutResult>)
  {
    && run.todo !! run.done && run.todo + run.done == BucketsOf(c, rs) + env.ops.Keys
    && PassPart(c, env, rs, run.store0, store, run.done)
    && ResultsPart(c, env, rs, run.store0, results, run.done)
  }

  ghost predicate ShapedEnv(env: Env, sh: Shape) {
    forall b | b in env.ops :: ShapedOps(env.ops[b], sh)
  }

  /** Results are known for the buckets of the span that are done. */
  ghost predicate ResultsPart(c: Ctx, env: Env, rs: seq<Report>, store0: Store, results: map<Bucket, PutResult>,
                              done: set<Bucket>)
  {
    && (forall b :: b in results <==> b in done && b in BucketsOf(c, rs))
    && forall b | b in results :: results[b] == PassResult(c, env, rs, store0, b)
  }

  lemma ResultsPartStep(c: Ctx, env: Env, rs: seq<Report>, store0: Store, results: map<Bucket, PutResult>,
                        done: set<Bucket>, b: Bucket)
    requires ResultsPart(c, env, rs, store0, results, done)
    ensures if b in BucketsOf(c, rs) then ResultsPart(c, env, rs, store0,
                                                      results[b := PassResult(c, env, rs, store0, b)], done + {b})
            else ResultsPart(c, env, rs, store0, results, done + {b})
  {
  }

  /** The buckets `done` have gone through the pass, the others are as before. */
  ghost predicate PassPart(c: Ctx, env: Env, rs: seq<Report>, store0: Store, store: Store, done: set<Bucket>) {
    && store.Keys == store0.Keys + done
    && forall b | b in store ::
         store[b] == if b in done then PassBucket(c, env, b, InB(c, rs, b), Lookup(store0, b)).0 else Lookup(store0, b)
  }

  lemma PassPartStep(c: Ctx, env: Env, rs: seq<Report>, store0: Store, store: Store, done: set<Bucket>, b: Bucket)
    requires PassPart(c, env, rs, store0, store, done) && b !in done
    ensures Lookup(store, b) == Lookup(store0, b)
    ensures PassPart(c, env, rs, store0, store[b := PassBucket(c, env, b, InB(c, rs, b), Lookup(store0, b)).0],
                     done + {b})
  {
  }

  lemma PassLoopStep(c: Ctx, env: Env, rs: seq<Report>, run: PassRun, store: Store, results: map<Bucket, PutResult>,
                     b: Bucket)
    requires PassLoop(c, env, rs, run, store, results) && b in run.todo
    ensures var (st, result) := PassBucket(c, env, b, InB(c, rs, b), Lookup(store, b));
            PassLoop(c, env, rs, run.Next(b), store[b := st],
                     if b in BucketsOf(c, rs) then results[b := result] else results)
  {
    SplitStep(run.todo, run.done, b);
    PassPartStep(c, env, rs, run.store0, store, run.done, b);
    ResultsPartStep(c, env, rs, run.store0, results, run.done, b);
  }

  lemma PassStart(c: Ctx, env: Env, rs: seq<Report>, run: PassRun)
    requires run.todo == BucketsOf(c, rs) + env.ops.Keys && run.done == {}
    ensures PassLoop(c, env, rs, run, run.store0, map[])
  {
  }

  lemma PassPartWhole(c: Ctx, env: Env, rs: seq<Report>, run: PassRun, store: Store, results: map<Bucket, PutResult>)
    requires PassLoop(c, env, rs, run, store, results) && run.todo == {}
    ensures store == PassStore(c, env, rs, run.store0)
    ensures ResultsPart(c, env, rs, run.store0, results, BucketsOf(c, rs))
  {
    assert run.done == BucketsOf(c, rs) + env.ops.Keys;
    assert store.Keys == run.store0.Keys + BucketsOf(c, rs) + env.ops.Keys;
    forall b | b in store ensures store[b] == PassBucket(c, env, b, InB(c, rs, b), Lookup(run.store0, b)).0 {
      Untouched(c, env, rs, run.store0, b);
    }
  }

  /** A bucket that is neither in the span nor touched by others stays as it is. */
  lemma Untouched(c: Ctx, env: Env, rs: seq<Report>, store: Store, b: Bucket)
    ensures b !in BucketsOf(c, rs) && b !in env.ops ==>
              PassBucket(c, env, b, InB(c, rs, b), Lookup(store, b)).0 == Lookup(store, b)
  {
    InBEmpty(c, rs, b);
  }
}
