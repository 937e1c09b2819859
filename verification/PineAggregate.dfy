/**
Aggregation of PINE output shares and unsharding of the aggregate: the collector gets the
coordinate-wise sums of the gradients exactly as long as the sums can be told apart in the
field.
*/
module PineAggregate {
  import opened Wrappers
  import opened PrimeField
  import opened PineParams
  import opened PineCircuit
  import opened PineLinearity
  import opened PineEncode
  import opened PineVdaf

  // ---- Computation

  /** Add one vector into another in place, as far as both reach. */
  method Accumulate(p: int, agg: seq<int>, out: seq<int>) returns (agg': seq<int>)
    requires p > 0
    ensures agg' == AddVec(p, agg, out)
  {
    agg' := agg;
    var n := if |agg| < |out| then |agg| else |out|;
    for i := 0 to n
      invariant |agg'| == |agg|
      invariant forall j | 0 <= j < |agg| :: agg'[j] == if j < i then FAdd(p, agg[j], out[j]) else agg[j]
    {
      agg' := agg'[i := FAdd(p, agg[i], out[i])];
    }
  }

  ghost function Aggregated(p: int, dimension: nat, outs: seq<seq<int>>): (r: seq<int>)
    requires p > 0
    ensures |r| == dimension
  {
    if outs == [] then Zeros(dimension)
    else AddVec(p, Aggregated(p, dimension, outs[..|outs| - 1]), outs[|outs| - 1])
  }

  method Aggregate(p: int, dimension: nat, outs: seq<seq<int>>) returns (agg: seq<int>)
    requires p > 0
    ensures agg == Aggregated(p, dimension, outs)
  {
    agg := Zeros(dimension);
    for k := 0 to |outs|
      invariant agg == Aggregated(p, dimension, outs[..k])
    {
      assert outs[..k + 1][..k] == outs[..k];
      agg := Accumulate(p, agg, outs[k]);
    }
    assert outs[..|outs|] == outs;
  }

  ghost function DecodeCoords(p: int, ys: seq<int>): Result<seq<int>> {
    if ys == [] then Ok([])
    else
      match (DecodeCoord(p, ys[0]), DecodeCoords(p, ys[1..]))
      case (Ok(x), Ok(xs)) => Ok([x] + xs)
      case _ => Err
  }

  /** The collector's result, from exactly two aggregate shares. */
  ghost function Unsharded(p: int, aggShares: seq<seq<int>>): Result<seq<int>>
    requires p > 0
  {
    if |aggShares| != 2 then Err
    else DecodeCoords(p, AddVec(p, aggShares[0], aggShares[1]))
  }

  method Unshard(p: int, aggShares: seq<seq<int>>) returns (r: Result<seq<int>>)
    requires p > 0
    ensures r == Unsharded(p, aggShares)
  {
    if |aggShares| != 2 {
      return Err;
    }
    var sum := Accumulate(p, aggShares[0], aggShares[1]);
    ghost var goal := DecodeCoords(p, sum);
    var xs, rest := [], sum;
    assert goal.Ok? ==> [] + goal.value == goal.value;
    while rest != []
      invariant Completes(goal, xs, DecodeCoords(p, rest))
      decreases |rest|
    {
      var x := DecodeCoord(p, rest[0]);
      if x.Err? {
        return Err;
      }
      ghost var left := DecodeCoords(p, rest[1..]);
      assert left.Ok? ==> xs + ([x.value] + left.value) == (xs + [x.value]) + left.value;
      xs := xs + [x.value];
      rest := rest[1..];
    }
    assert xs + [] == xs;
    return Ok(xs);
  }

  // ---- Sums

  /** Sum of coordinate `j` over all vectors. */
  ghost function ColumnSum(xss: seq<seq<int>>, j: nat): int
    requires forall k | 0 <= k < |xss| :: j < |xss[k]|
  {
    if xss == [] then 0 else ColumnSum(xss[..|xss| - 1], j) + xss[|xss| - 1][j]
  }

  ghost predicate Rectangular(xss: seq<seq<int>>, dimension: nat) {
    forall k | 0 <= k < |xss| :: |xss[k]| == dimension
  }

  lemma {:induction false} AggregatedSum(p: int, dimension: nat, outs: seq<seq<int>>, j: nat)
    requires p > 0 && Rectangular(outs, dimension) && j < dimension
    ensures Cong(p, Aggregated(p, dimension, outs)[j], ColumnSum(outs, j))
  {
    if outs != [] {
      var init, last := outs[..|outs| - 1], outs[|outs| - 1];
      AggregatedSum(p, dimension, init, j);
      var a := Aggregated(p, dimension, init)[j];
      CongAdd(p, a, ColumnSum(init, j), last[j], last[j]);
      CongMod(p, a + last[j]);
    }
  }

  /** `outs0` and `outs1` are shares of the reports' gradients, modulo `p`. */
  ghost predicate BatchShares(p: int, outs0: seq<seq<int>>, outs1: seq<seq<int>>, xss: seq<seq<int>>)
    requires p > 0
  {
    && |outs0| == |outs1| == |xss|
    && forall k | 0 <= k < |xss| :: SharesOf(p, outs0[k], outs1[k], xss[k])
  }

  lemma {:induction false} ColumnShares(p: int, outs0: seq<seq<int>>, outs1: seq<seq<int>>, xss: seq<seq<int>>,
                                        dimension: nat, j: nat)
    requires p > 0 && BatchShares(p, outs0, outs1, xss) && Rectangular(xss, dimension) && j < dimension
    ensures Rectangular(outs0, dimension) && Rectangular(outs1, dimension)
    ensures Cong(p, ColumnSum(outs0, j) + ColumnSum(outs1, j), ColumnSum(xss, j))
  {
    forall k | 0 <= k < |xss| ensures |outs0[k]| == |outs1[k]| == dimension {
      assert SharesOf(p, outs0[k], outs1[k], xss[k]);
    }
    if xss != [] {
      var n := |xss| - 1;
      ColumnShares(p, outs0[..n], outs1[..n], xss[..n], dimension, j);
      assert SharesOf(p, outs0[n], outs1[n], xss[n]);
      CongAdd(p, ColumnSum(outs0[..n], j) + ColumnSum(outs1[..n], j), ColumnSum(xss[..n], j),
              outs0[n][j] + outs1[n][j], xss[n][j]);
    }
  }

  /** An integer the collector can recover from its residue. */
  ghost predicate Decodable(p: int, x: int) {
    Magnitude(x) <= p / 2 && Magnitude(x) <= U64_MAX
  }

  ghost predicate AllDecodable(p: int, xs: seq<int>) {
    forall j | 0 <= j < |xs| :: Decodable(p, xs[j])
  }

  ghost predicate ResiduesOf(p: int, ys: seq<int>, xs: seq<int>)
    requires p > 0
  {
    |ys| == |xs| && forall j | 0 <= j < |xs| :: 0 <= ys[j] < p && Cong(p, ys[j], xs[j])
  }

  lemma {:induction false} DecodeCoordsExact(p: int, ys: seq<int>, xs: seq<int>)
    requires p > 1 && p % 2 == 1 && ResiduesOf(p, ys, xs)
    ensures DecodeCoords(p, ys) == Ok(xs) <==> AllDecodable(p, xs)
  {
    if xs != [] {
      DecodeCoordExact(p, ys[0], xs[0]);
      assert ResiduesOf(p, ys[1..], xs[1..]);
      DecodeCoordsExact(p, ys[1..], xs[1..]);
      assert xs == [xs[0]] + xs[1..];
      assert AllDecodable(p, xs) <==> Decodable(p, xs[0]) && AllDecodable(p, xs[1..]) by {
        if Decodable(p, xs[0]) && AllDecodable(p, xs[1..]) {
          forall j | 0 <= j < |xs| ensures Decodable(p, xs[j]) {
            if j > 0 { assert Decodable(p, xs[1..][j - 1]); }
          }
        }
      }
    }
  }

  ghost function Sums(xss: seq<seq<int>>, dimension: nat): (r: seq<int>)
    requires Rectangular(xss, dimension)
    ensures |r| == dimension
    ensures forall j | 0 <= j < dimension :: r[j] == ColumnSum(xss, j)
  {
    seq(dimension, j requires 0 <= j < dimension => ColumnSum(xss, j))
  }

  /** Aggregating shares of a batch and unsharding yields the sums exactly when all sums are decodable. */
  lemma {:induction false} UnshardExact(p: int, dimension: nat, outs0: seq<seq<int>>, outs1: seq<seq<int>>,
                                        xss: seq<seq<int>>)
    requires p > 1 && p % 2 == 1
    requires BatchShares(p, outs0, outs1, xss) && Rectangular(xss, dimension)
    ensures Unsharded(p, [Aggregated(p, dimension, outs0), Aggregated(p, dimension, outs1)]) == Ok(Sums(xss, dimension))
       <==> AllDecodable(p, Sums(xss, dimension))
  {
    var sum := AddVec(p, Aggregated(p, dimension, outs0), Aggregated(p, dimension, outs1));
    forall j | 0 <= j < dimension ensures 0 <= sum[j] < p && Cong(p, sum[j], Sums(xss, dimension)[j]) {
      SumCong(p, dimension, outs0, outs1, xss, j);
    }
    DecodeCoordsExact(p, sum, Sums(xss, dimension));
  }

  /** The collector needs exactly two aggregate shares. */
  lemma UnshardTwo(p: int, aggShares: seq<seq<int>>)
    requires p > 0 && Unsharded(p, aggShares).Ok?
    ensures |aggShares| == 2
  {
  }

  lemma AddReduced(p: int, a0: int, s0: int, a1: int, s1: int, s: int)
    requires p > 0 && Cong(p, a0, s0) && Cong(p, a1, s1) && Cong(p, s0 + s1, s)
    ensures 0 <= FAdd(p, a0, a1) < p && Cong(p, FAdd(p, a0, a1), s)
  {
    CongAdd(p, a0, s0, a1, s1);
    CongMod(p, a0 + a1);
  }

  lemma {:induction false} SumCong(p: int, dimension: nat, outs0: seq<seq<int>>, outs1: seq<seq<int>>,
                                   xss: seq<seq<int>>, j: nat)
    requires p > 1 && BatchShares(p, outs0, outs1, xss) && Rectangular(xss, dimension) && j < dimension
    ensures var y := AddVec(p, Aggregated(p, dimension, outs0), Aggregated(p, dimension, outs1))[j];
            0 <= y < p && Cong(p, y, ColumnSum(xss, j))
  {
    ColumnShares(p, outs0, outs1, xss, dimension, j);
    AggregatedSum(p, dimension, outs0, j);
    AggregatedSum(p, dimension, outs1, j);
    AddReduced(p, Aggregated(p, dimension, outs0)[j], ColumnSum(outs0, j),
               Aggregated(p, dimension, outs1)[j], ColumnSum(outs1, j), ColumnSum(xss, j));
  }

  // ---- Honest batches

  datatype Report = Report(xs: seq<int>, nonce: Nonce, rand: ShardRand)

  /** Every report of the batch was sharded, with coordinates that do not saturate. */
  ghost predicate HonestBatch(v: Vdaf, reports: seq<Report>)
    requires Shaped(v)
  {
    forall k | 0 <= k < |reports| ::
      && ShardWithRand(v, reports[k].xs, reports[k].nonce, reports[k].rand).Ok?
      && forall j | 0 <= j < |reports[k].xs| ::
           Magnitude(reports[k].xs[j]) <= U64_MAX && Magnitude(reports[k].xs[j]) <= v.intMax
  }

  ghost function Gradients(reports: seq<Report>): seq<seq<int>> {
    seq(|reports|, k requires 0 <= k < |reports| => reports[k].xs)
  }

  /** Output shares of the aggregator `aggId` for the whole batch. */
  ghost function Outputs(v: Vdaf, verifyKey: Seed, aggId: nat, reports: seq<Report>): seq<seq<int>>
    requires Shaped(v)
  {
    seq(|reports|, k requires 0 <= k < |reports| =>
      var run := Run(v, verifyKey, reports[k].xs, reports[k].nonce, reports[k].rand);
      if run.Err? then [] else if aggId == 0 then run.value.0 else run.value.1)
  }

  lemma {:induction false} EncodeCoordsCong(p: int, intMax: nat, xs: seq<int>)
    requires p > 0 && forall j | 0 <= j < |xs| :: Magnitude(xs[j]) <= U64_MAX && Magnitude(xs[j]) <= intMax
    ensures EncodeCoords(p, intMax, xs).Ok?
    ensures forall j | 0 <= j < |xs| :: Cong(p, EncodeCoords(p, intMax, xs).value[j], xs[j])
  {
    if xs != [] {
      EncodeCoordCong(p, intMax, xs[0]);
      EncodeCoordsCong(p, intMax, xs[1..]);
      var ys := EncodeCoords(p, intMax, xs).value;
      forall j | 0 <= j < |xs| ensures Cong(p, ys[j], xs[j]) {
        if j > 0 { assert ys[j] == EncodeCoords(p, intMax, xs[1..]).value[j - 1] && xs[j] == xs[1..][j - 1]; }
      }
    }
  }

  /** The reports of a batch that both aggregators get to the end of. */
  ghost function Accepted(v: Vdaf, verifyKey: Seed, reports: seq<Report>): (r: seq<Report>)
    requires Shaped(v)
    ensures forall x :: x in r <==> x in reports && Run(v, verifyKey, x.xs, x.nonce, x.rand).Ok?
  {
    if reports == [] then []
    else
      var last := reports[|reports| - 1];
      assert reports == reports[..|reports| - 1] + [last];
      Accepted(v, verifyKey, reports[..|reports| - 1])
      + if Run(v, verifyKey, last.xs, last.nonce, last.rand).Ok? then [last] else []
  }

  lemma HonestReport(v: Vdaf, verifyKey: Seed, r: Report)
    requires Shaped(v) && Prime(v.p) && v.pine.Valid(v.p) && Complete(v)
    requires ShardWithRand(v, r.xs, r.nonce, r.rand).Ok?
    requires forall j | 0 <= j < |r.xs| :: Magnitude(r.xs[j]) <= U64_MAX && Magnitude(r.xs[j]) <= v.intMax
    requires Run(v, verifyKey, r.xs, r.nonce, r.rand).Ok?
    ensures |r.xs| == v.pine.flp.dimension
    ensures var (out0, out1) := Run(v, verifyKey, r.xs, r.nonce, r.rand).value;
            SharesOf(v.p, out0, out1, r.xs)
  {
    HonestRun(v, verifyKey, r.xs, r.nonce, r.rand);
    EncodeCoordsCong(v.p, v.intMax, r.xs);
  }

  /** Which reports of an honest batch are accepted. */
  lemma {:induction false} AcceptedExactly(v: Vdaf, verifyKey: Seed, reports: seq<Report>)
    requires Shaped(v) && Prime(v.p) && v.pine.Valid(v.p) && Complete(v) && HonestBatch(v, reports)
    ensures forall k | 0 <= k < |reports| && GoodQueries(v, verifyKey, reports[k].nonce) ::
              reports[k] in Accepted(v, verifyKey, reports)
    ensures Refuses(v) ==> forall k | 0 <= k < |reports| && reports[k] in Accepted(v, verifyKey, reports) ::
                             GoodQueries(v, verifyKey, reports[k].nonce)
  {
    forall k | 0 <= k < |reports|
      ensures GoodQueries(v, verifyKey, reports[k].nonce) ==> reports[k] in Accepted(v, verifyKey, reports)
      ensures Refuses(v) && reports[k] in Accepted(v, verifyKey, reports) ==>
              GoodQueries(v, verifyKey, reports[k].nonce)
    {
      HonestRun(v, verifyKey, reports[k].xs, reports[k].nonce, reports[k].rand);
    }
  }

  /**
  End to end: sharding a batch honestly, preparing, aggregating the accepted reports on both
  sides and unsharding returns the coordinate-wise sums of their fixed-point gradients if and only
  if every sum has magnitude at most half the modulus and fits in 64 bits. Every report with good
  query randomness is accepted, and no other if the proof systems refuse other randomness.
  */
  lemma {:induction false} HonestBatchSum(v: Vdaf, verifyKey: Seed, reports: seq<Report>)
    requires Shaped(v) && Prime(v.p) && v.p % 2 == 1 && v.pine.Valid(v.p) && Complete(v)
    requires HonestBatch(v, reports)
    ensures forall k | 0 <= k < |reports| && GoodQueries(v, verifyKey, reports[k].nonce) ::
              reports[k] in Accepted(v, verifyKey, reports)
    ensures Refuses(v) ==> forall k | 0 <= k < |reports| && reports[k] in Accepted(v, verifyKey, reports) ::
                             GoodQueries(v, verifyKey, reports[k].nonce)
    ensures var d, accepted := v.pine.flp.dimension, Accepted(v, verifyKey, reports);
            var xss := Gradients(accepted);
            && Rectangular(xss, d)
            && (Unsharded(v.p, [Aggregated(v.p, d, Outputs(v, verifyKey, 0, accepted)),
                                Aggregated(v.p, d, Outputs(v, verifyKey, 1, accepted))]) == Ok(Sums(xss, d))
                <==> AllDecodable(v.p, Sums(xss, d)))
  {
    AcceptedExactly(v, verifyKey, reports);
    var d, accepted := v.pine.flp.dimension, Accepted(v, verifyKey, reports);
    var xss := Gradients(accepted);
    var outs0, outs1 := Outputs(v, verifyKey, 0, accepted), Outputs(v, verifyKey, 1, accepted);
    AcceptedShares(v, verifyKey, reports);
    UnshardExact(v.p, d, outs0, outs1, xss);
  }

  /** The outputs for the accepted reports are shares of their gradients. */
  lemma {:induction false} AcceptedShares(v: Vdaf, verifyKey: Seed, reports: seq<Report>)
    requires Shaped(v) && Prime(v.p) && v.pine.Valid(v.p) && Complete(v) && HonestBatch(v, reports)
    ensures var accepted := Accepted(v, verifyKey, reports);
            && Rectangular(Gradients(accepted), v.pine.flp.dimension)
            && BatchShares(v.p, Outputs(v, verifyKey, 0, accepted), Outputs(v, verifyKey, 1, accepted),
                           Gradients(accepted))
  {
    var accepted := Accepted(v, verifyKey, reports);
    forall k | 0 <= k < |accepted| ensures OutputShares(v, verifyKey, accepted[k]) {
      assert accepted[k] in accepted;
      AcceptedReport(v, verifyKey, reports, accepted[k]);
    }
    SharesOfAll(v, verifyKey, accepted);
  }

  /** The run of a report ends with shares of its gradient. */
  ghost predicate OutputShares(v: Vdaf, verifyKey: Seed, r: Report)
    requires Shaped(v)
  {
    var run := Run(v, verifyKey, r.xs, r.nonce, r.rand);
    run.Ok? && |r.xs| == v.pine.flp.dimension && SharesOf(v.p, run.value.0, run.value.1, r.xs)
  }

  lemma SharesOfAll(v: Vdaf, verifyKey: Seed, reports: seq<Report>)
    requires Shaped(v) && forall k | 0 <= k < |reports| :: OutputShares(v, verifyKey, reports[k])
    ensures Rectangular(Gradients(reports), v.pine.flp.dimension)
    ensures BatchShares(v.p, Outputs(v, verifyKey, 0, reports), Outputs(v, verifyKey, 1, reports), Gradients(reports))
  {
    var outs0, outs1, xss := Outputs(v, verifyKey, 0, reports), Outputs(v, verifyKey, 1, reports), Gradients(reports);
    forall k | 0 <= k < |reports| ensures SharesOf(v.p, outs0[k], outs1[k], xss[k]) {
      assert OutputShares(v, verifyKey, reports[k]);
    }
  }

  lemma {:induction false} AcceptedReport(v: Vdaf, verifyKey: Seed, reports: seq<Report>, r: Report)
    requires Shaped(v) && Prime(v.p) && v.pine.Valid(v.p) && Complete(v) && HonestBatch(v, reports)
    requires r in Accepted(v, verifyKey, reports)
    ensures OutputShares(v, verifyKey, r)
  {
    var i :| 0 <= i < |reports| && reports[i] == r;
    HonestReport(v, verifyKey, r);
  }
}
