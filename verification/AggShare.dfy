/**
Aggregate shares: the running totals an aggregator keeps for a set of reports, and how
two of them are merged. Merging shares of one shape is a commutative monoid, and the
share of a sequence of reports is its fold.
*/
module AggShare {
  import opened Wrappers
  import opened Arithmetic
  import opened Bytes
  import opened PrimeField

  type ReportId = s: seq<Byte> | |s| == 16 witness [0, 0, 0, 0, 0, 0, 0, 0, 0, 0, 0, 0, 0, 0, 0, 0]

  type Digest = s: seq<Byte> | |s| == 32 witness [0, 0, 0, 0, 0, 0, 0, 0, 0, 0, 0, 0, 0, 0, 0, 0]
                                              + [0, 0, 0, 0, 0, 0, 0, 0, 0, 0, 0, 0, 0, 0, 0, 0]

  /** SHA-256 of a report ID, as an arbitrary function. */
  type Sha = ReportId -> Digest

  // ---- Checksums

  /** XOR of the low `n` bits. */
  function XorBits(a: nat, b: nat, n: nat): (r: nat)
    ensures r < Pow2(n)
  {
    if n == 0 then 0 else (a + b) % 2 + 2 * XorBits(a / 2, b / 2, n - 1)
  }

  function XorByte(a: Byte, b: Byte): Byte {
    assert Pow2(8) == 256;
    XorBits(a, b, 8)
  }

  lemma {:induction false} XorBitsAt(a: nat, b: nat, n: nat, k: nat)
    requires k < n
    ensures BitAt(XorBits(a, b, n), k) == 1 <==> BitAt(a, k) != BitAt(b, k)
  {
    XorBitsParts(a, b, n);
    if k > 0 {
      XorBitsAt(a / 2, b / 2, n - 1, k - 1);
    }
  }

  /** Integers with the same low bits and no others are equal. */
  lemma {:induction false} SameBits(x: nat, y: nat, n: nat)
    requires x < Pow2(n) && y < Pow2(n) && forall k: nat | k < n :: BitAt(x, k) == BitAt(y, k)
    ensures x == y
  {
    if n > 0 {
      forall k: nat | k < n - 1 ensures BitAt(x / 2, k) == BitAt(y / 2, k) {
        assert BitAt(x, k + 1) == BitAt(y, k + 1);
      }
      SameBits(x / 2, y / 2, n - 1);
      assert BitAt(x, 0) == BitAt(y, 0);
    }
  }

  /** Bit `k` of `c` is set exactly when the bits of `a` and `b` differ. */
  ghost predicate Differ(a: nat, b: nat, c: nat, k: nat) {
    BitAt(c, k) == 1 <==> BitAt(a, k) != BitAt(b, k)
  }

  /** The exclusive or of two bytes is the byte whose bits are set exactly where theirs differ. */
  lemma XorByteExact(a: Byte, b: Byte, c: Byte)
    ensures c == XorByte(a, b) <==> forall k: nat | k < 8 :: Differ(a, b, c, k)
  {
    var x := XorByte(a, b);
    forall k: nat | k < 8 ensures Differ(a, b, x, k) { XorBitsAt(a, b, 8, k); }
    if forall k: nat | k < 8 :: Differ(a, b, c, k) {
      assert Pow2(8) == 256;
      forall k: nat | k < 8 ensures BitAt(c, k) == BitAt(x, k) { assert Differ(a, b, c, k) && Differ(a, b, x, k); }
      SameBits(c, x, 8);
    }
  }

  lemma {:induction false} XorBitsComm(a: nat, b: nat, n: nat)
    ensures XorBits(a, b, n) == XorBits(b, a, n)
  {
    if n > 0 {
      XorBitsComm(a / 2, b / 2, n - 1);
    }
  }

  lemma XorBitsParts(a: nat, b: nat, n: nat)
    requires n > 0
    ensures XorBits(a, b, n) % 2 == (a + b) % 2
    ensures XorBits(a, b, n) / 2 == XorBits(a / 2, b / 2, n - 1)
  {
  }

  lemma ParityAssoc(x: nat, y: nat, a: nat, b: nat, c: nat)
    requires x % 2 == (a + b) % 2 && y % 2 == (b + c) % 2
    ensures (x + c) % 2 == (a + y) % 2
  {
  }

  lemma XorBitsStep(a: nat, b: nat, c: nat, n: nat)
    requires n > 0
    requires XorBits(XorBits(a, b, n) / 2, c / 2, n - 1) == XorBits(a / 2, XorBits(b, c, n) / 2, n - 1)
    requires XorBits(a, b, n) % 2 == (a + b) % 2 && XorBits(b, c, n) % 2 == (b + c) % 2
    ensures XorBits(XorBits(a, b, n), c, n) == XorBits(a, XorBits(b, c, n), n)
  {
    ParityAssoc(XorBits(a, b, n), XorBits(b, c, n), a, b, c);
  }

  lemma {:induction false} XorBitsAssoc(a: nat, b: nat, c: nat, n: nat)
    ensures XorBits(XorBits(a, b, n), c, n) == XorBits(a, XorBits(b, c, n), n)
  {
    if n > 0 {
      XorBitsParts(a, b, n);
      XorBitsParts(b, c, n);
      XorBitsAssoc(a / 2, b / 2, c / 2, n - 1);
      XorBitsStep(a, b, c, n);
    }
  }

  lemma {:induction false} XorBitsZero(b: nat, n: nat)
    requires b < Pow2(n)
    ensures XorBits(0, b, n) == b
  {
    if n > 0 {
      XorBitsZero(b / 2, n - 1);
    }
  }

  function Xor(a: Digest, b: Digest): (r: Digest)
    ensures forall i | 0 <= i < 32 :: r[i] == XorByte(a[i], b[i])
  {
    seq(32, i requires 0 <= i < 32 => XorByte(a[i], b[i]))
  }

  const ZERO_DIGEST: Digest :=
    [0, 0, 0, 0, 0, 0, 0, 0, 0, 0, 0, 0, 0, 0, 0, 0]
    + [0, 0, 0, 0, 0, 0, 0, 0, 0, 0, 0, 0, 0, 0, 0, 0]

  lemma XorLaws(a: Digest, b: Digest, c: Digest)
    ensures Xor(a, b) == Xor(b, a)
    ensures Xor(Xor(a, b), c) == Xor(a, Xor(b, c))
    ensures Xor(ZERO_DIGEST, a) == a
  {
    forall i | 0 <= i < 32
      ensures Xor(a, b)[i] == Xor(b, a)[i]
      ensures Xor(Xor(a, b), c)[i] == Xor(a, Xor(b, c))[i]
      ensures Xor(ZERO_DIGEST, a)[i] == a[i]
    {
      assert Pow2(8) == 256;
      XorBitsComm(a[i], b[i], 8);
      XorBitsAssoc(a[i], b[i], c[i], 8);
      XorBitsZero(a[i], 8);
    }
  }

  /** Bit `k` of byte `i` of a digest. */
  function DigestBit(d: Digest, i: nat, k: nat): (b: nat)
    requires i < 32
    ensures b < 2
  {
    BitAt(d[i], k)
  }

  /** A bit of the exclusive or of two digests is set exactly when the two bits differ. */
  lemma XorExact(a: Digest, b: Digest, i: nat, k: nat)
    requires i < 32 && k < 8
    ensures DigestBit(Xor(a, b), i, k) == 1 <==> DigestBit(a, i, k) != DigestBit(b, i, k)
  {
    XorByteExact(a[i], b[i], Xor(a, b)[i]);
    assert Differ(a[i], b[i], Xor(a, b)[i], k);
  }

  /** A digest cancels itself. */
  lemma XorSelf(a: Digest)
    ensures Xor(a, a) == ZERO_DIGEST
  {
    forall i: nat | i < 32 ensures Xor(a, a)[i] == 0 {
      forall k: nat | k < 8 ensures Differ(a[i], a[i], 0, k) { ZeroBits(k); }
      XorByteExact(a[i], a[i], 0);
    }
    assert Xor(a, a) == ZERO_DIGEST;
  }

  lemma {:induction false} ZeroBits(k: nat)
    ensures BitAt(0, k) == 0
  {
    if k > 0 {
      ZeroBits(k - 1);
    }
  }

  // ---- VDAF aggregate shares

  datatype VdafShare = VdafShare(kind: FieldKind, elems: seq<int>)

  /** Every share of a task has one field and one length. */
  datatype Shape = Shape(kind: FieldKind, len: nat)

  ghost predicate HasShape(v: VdafShare, sh: Shape) {
    v.kind == sh.kind && |v.elems| == sh.len && Canonical(Modulus(sh.kind), v.elems)
  }

  function AddElems(m: int, a: seq<int>, b: seq<int>): (r: seq<int>)
    requires m > 0 && |a| == |b|
    ensures |r| == |a|
    ensures forall i | 0 <= i < |a| :: r[i] == FAdd(m, a[i], b[i])
  {
    seq(|a|, i requires 0 <= i < |a| => FAdd(m, a[i], b[i]))
  }

  lemma AddElemsLaws(m: int, a: seq<int>, b: seq<int>, c: seq<int>)
    requires m > 0 && |a| == |b| == |c|
    ensures AddElems(m, a, b) == AddElems(m, b, a)
    ensures AddElems(m, AddElems(m, a, b), c) == AddElems(m, a, AddElems(m, b, c))
  {
    forall i | 0 <= i < |a|
      ensures AddElems(m, AddElems(m, a, b), c)[i] == AddElems(m, a, AddElems(m, b, c))[i]
    {
      CongMod(m, a[i] + b[i]);
      CongMod(m, b[i] + c[i]);
      CongAdd(m, FAdd(m, a[i], b[i]), a[i] + b[i], c[i], c[i]);
      CongAdd(m, a[i], a[i], FAdd(m, b[i], c[i]), b[i] + c[i]);
    }
  }

  // ---- Aggregate shares

  datatype Share = Share(count: nat, minTime: nat, maxTime: nat, checksum: Digest, data: Option<VdafShare>)

  const EMPTY: Share := Share(0, 0, 0, ZERO_DIGEST, None)

  /** Whether the data of two shares can be merged. */
  predicate Mergeable(a: Option<VdafShare>, b: Option<VdafShare>) {
    a.Some? && b.Some? ==> a.value.kind == b.value.kind && |a.value.elems| == |b.value.elems|
  }

  function JoinData(a: Option<VdafShare>, b: Option<VdafShare>): Option<VdafShare>
    requires Mergeable(a, b)
  {
    if b.None? then a
    else if a.None? then b
    else Some(VdafShare(a.value.kind, AddElems(Modulus(a.value.kind), a.value.elems, b.value.elems)))
  }

  function Join(a: Share, b: Share): Share
    requires Mergeable(a.data, b.data)
  {
    Share(a.count + b.count,
          if a.count == 0 then b.minTime else if b.count > 0 && b.minTime < a.minTime then b.minTime else a.minTime,
          if a.count == 0 then b.maxTime else if b.count > 0 && b.maxTime > a.maxTime then b.maxTime else a.maxTime,
          Xor(a.checksum, b.checksum),
          JoinData(a.data, b.data))
  }

  /** Merging fails on data of different fields or lengths. */
  function Merge(a: Share, b: Share): Result<Share> {
    if Mergeable(a.data, b.data) then Ok(Join(a, b)) else Err
  }

  /**
  Merging any two shares fails exactly on data of different fields or lengths. Otherwise the counts
  add up, the times of a share without reports do not matter, the checksum has the bits in which the
  two differ, and the data, if both have some, is the sum modulo the field.
  */
  lemma MergeExact(a: Share, b: Share)
    ensures Merge(a, b).Err? <==> && a.data.Some? && b.data.Some?
                                  && (a.data.value.kind != b.data.value.kind
                                      || |a.data.value.elems| != |b.data.value.elems|)
    ensures Merge(a, b).Ok? ==>
              var r := Merge(a, b).value;
              && r.count == a.count + b.count
              && (a.count == 0 ==> r.minTime == b.minTime && r.maxTime == b.maxTime)
              && (a.count > 0 && b.count == 0 ==> r.minTime == a.minTime && r.maxTime == a.maxTime)
              && (a.count > 0 && b.count > 0 ==>
                    && r.minTime in {a.minTime, b.minTime} && r.minTime <= a.minTime && r.minTime <= b.minTime
                    && r.maxTime in {a.maxTime, b.maxTime} && r.maxTime >= a.maxTime && r.maxTime >= b.maxTime)
              && (forall i: nat, k: nat | i < 32 && k < 8 ::
                    DigestBit(r.checksum, i, k) == 1 <==> DigestBit(a.checksum, i, k) != DigestBit(b.checksum, i, k))
              && (b.data.None? ==> r.data == a.data) && (a.data.None? ==> r.data == b.data)
              && (a.data.Some? && b.data.Some? ==>
                    && r.data.Some? && r.data.value.kind == a.data.value.kind
                    && |r.data.value.elems| == |a.data.value.elems|
                    && forall j | 0 <= j < |a.data.value.elems| ::
                         r.data.value.elems[j]
                         == (a.data.value.elems[j] + b.data.value.elems[j]) % Modulus(a.data.value.kind))
  {
    if Merge(a, b).Ok? {
      forall i: nat, k: nat | i < 32 && k < 8
        ensures DigestBit(Merge(a, b).value.checksum, i, k) == 1
           <==> DigestBit(a.checksum, i, k) != DigestBit(b.checksum, i, k)
      {
        XorExact(a.checksum, b.checksum, i, k);
      }
    }
  }

  /** Shares as they arise from reports of one shape; the empty share is the default one. */
  ghost predicate Shaped(a: Share, sh: Shape) {
    if a.count == 0 then a == EMPTY
    else a.data.Some? && HasShape(a.data.value, sh) && a.minTime <= a.maxTime
  }

  // ---- The merge as it is computed

  method MergeInto(a: Share, b: Share) returns (r: Result<Share>)
    ensures r == Merge(a, b)
  {
    var data := a.data;
    match (a.data, b.data) {
      case (_, None) =>
      case (None, Some(d)) => data := Some(d);
      case (Some(left), Some(right)) =>
        if left.kind != right.kind || |left.elems| != |right.elems| {
          return Err;
        }
        var elems := left.elems;
        for i := 0 to |elems|
          invariant |elems| == |left.elems|
          invariant forall j | 0 <= j < |elems| ::
                      elems[j] == if j < i then FAdd(Modulus(left.kind), left.elems[j], right.elems[j])
                                  else left.elems[j]
        {
          elems := elems[i := FAdd(Modulus(left.kind), elems[i], right.elems[i])];
        }
        assert elems == AddElems(Modulus(left.kind), left.elems, right.elems);
        data := Some(VdafShare(left.kind, elems));
    }
    var minTime, maxTime := a.minTime, a.maxTime;
    if a.count == 0 {
      minTime, maxTime := b.minTime, b.maxTime;
    } else if b.count > 0 {
      minTime := if minTime < b.minTime then minTime else b.minTime;
      maxTime := if maxTime > b.maxTime then maxTime else b.maxTime;
    }
    var checksum := XorInto(a.checksum, b.checksum);
    r := Ok(Share(a.count + b.count, minTime, maxTime, checksum, data));
  }

  method XorInto(a: Digest, b: Digest) returns (r: Digest)
    ensures r == Xor(a, b)
  {
    r := a;
    for i := 0 to 32
      invariant forall j | 0 <= j < 32 :: r[j] == if j < i then XorByte(a[j], b[j]) else a[j]
    {
      r := r[i := XorByte(r[i], b[i])];
    }
  }

  // ---- Monoid laws

  lemma JoinShaped(a: Share, b: Share, sh: Shape)
    requires Shaped(a, sh) && Shaped(b, sh)
    ensures Mergeable(a.data, b.data) && Shaped(Join(a, b), sh)
  {
    XorLaws(a.checksum, b.checksum, ZERO_DIGEST);
  }

  lemma JoinUnit(a: Share, sh: Shape)
    requires Shaped(a, sh)
    ensures Join(EMPTY, a) == a && Join(a, EMPTY) == a
  {
    XorLaws(a.checksum, ZERO_DIGEST, ZERO_DIGEST);
  }

  lemma JoinComm(a: Share, b: Share, sh: Shape)
    requires Shaped(a, sh) && Shaped(b, sh)
    ensures Mergeable(a.data, b.data) && Mergeable(b.data, a.data) && Join(a, b) == Join(b, a)
  {
    XorLaws(a.checksum, b.checksum, ZERO_DIGEST);
    if a.data.Some? && b.data.Some? {
      AddElemsLaws(Modulus(sh.kind), a.data.value.elems, b.data.value.elems, a.data.value.elems);
    }
  }

  lemma JoinAssoc(a: Share, b: Share, c: Share, sh: Shape)
    requires Shaped(a, sh) && Shaped(b, sh) && Shaped(c, sh)
    ensures Mergeable(a.data, b.data) && Mergeable(b.data, c.data)
    ensures Mergeable(Join(a, b).data, c.data) && Mergeable(a.data, Join(b, c).data)
    ensures Join(Join(a, b), c) == Join(a, Join(b, c))
  {
    XorLaws(a.checksum, b.checksum, c.checksum);
    JoinShaped(a, b, sh);
    JoinShaped(b, c, sh);
    if a.data.Some? && b.data.Some? && c.data.Some? {
      AddElemsLaws(Modulus(sh.kind), a.data.value.elems, b.data.value.elems, c.data.value.elems);
    }
  }

  // ---- The share of a sequence of reports

  datatype Report = Report(id: ReportId, time: nat, data: VdafShare)

  /** The share of one report. */
  function One(sha: Sha, r: Report): Share {
    Share(1, r.time, r.time, sha(r.id), Some(r.data))
  }

  /** Add the output share of one report. */
  function AddOutShare(sha: Sha, a: Share, r: Report): Result<Share> {
    Merge(a, One(sha, r))
  }

  ghost predicate AllShaped(rs: seq<Report>, sh: Shape) {
    forall i | 0 <= i < |rs| :: HasShape(rs[i].data, sh)
  }

  ghost function Fold(sha: Sha, rs: seq<Report>, sh: Shape): (s: Share)
    requires AllShaped(rs, sh)
    ensures Shaped(s, sh) && s.count == |rs|
  {
    if rs == [] then EMPTY
    else
      JoinShaped(Fold(sha, rs[..|rs| - 1], sh), One(sha, rs[|rs| - 1]), sh);
      Join(Fold(sha, rs[..|rs| - 1], sh), One(sha, rs[|rs| - 1]))
  }

  /** Add the output shares of reports one at a time. */
  method FoldReports(sha: Sha, rs: seq<Report>, ghost sh: Shape) returns (s: Share)
    requires AllShaped(rs, sh)
    ensures s == Fold(sha, rs, sh)
  {
    s := EMPTY;
    for k := 0 to |rs|
      invariant s == Fold(sha, rs[..k], sh)
    {
      assert rs[..k + 1][..k] == rs[..k];
      JoinShaped(s, One(sha, rs[k]), sh);
      var added := MergeInto(s, One(sha, rs[k]));
      s := added.value;
    }
    assert rs[..|rs|] == rs;
  }

  /** Folding a concatenation is merging the folds. */
  lemma {:induction false} FoldConcat(sha: Sha, a: seq<Report>, b: seq<Report>, sh: Shape)
    requires AllShaped(a, sh) && AllShaped(b, sh)
    ensures AllShaped(a + b, sh)
    ensures Mergeable(Fold(sha, a, sh).data, Fold(sha, b, sh).data)
    ensures Fold(sha, a + b, sh) == Join(Fold(sha, a, sh), Fold(sha, b, sh))
  {
    if b == [] {
      assert a + b == a;
      JoinUnit(Fold(sha, a, sh), sh);
    } else {
      var init, last := b[..|b| - 1], b[|b| - 1];
      FoldConcat(sha, a, init, sh);
      assert (a + b)[..|a + b| - 1] == a + init && (a + b)[|a + b| - 1] == last;
      JoinAssoc(Fold(sha, a, sh), Fold(sha, init, sh), One(sha, last), sh);
    }
  }

  /** XOR of the digests of all report IDs. */
  ghost function XorAll(sha: Sha, rs: seq<Report>): Digest {
    if rs == [] then ZERO_DIGEST else Xor(XorAll(sha, rs[..|rs| - 1]), sha(rs[|rs| - 1].id))
  }

  /** How many reports have bit `k` of byte `i` of their ID's digest set. */
  ghost function BitCount(sha: Sha, rs: seq<Report>, i: nat, k: nat): nat
    requires i < 32
  {
    if rs == [] then 0 else BitCount(sha, rs[..|rs| - 1], i, k) + DigestBit(sha(rs[|rs| - 1].id), i, k)
  }

  /** Every bit of the checksum is the parity of that bit over the digests. */
  ghost predicate ParityOf(sha: Sha, rs: seq<Report>, checksum: Digest) {
    forall i: nat, k: nat | i < 32 && k < 8 :: DigestBit(checksum, i, k) == BitCount(sha, rs, i, k) % 2
  }

  lemma {:induction false} ChecksumParity(sha: Sha, rs: seq<Report>, i: nat, k: nat)
    requires i < 32 && k < 8
    ensures DigestBit(XorAll(sha, rs), i, k) == BitCount(sha, rs, i, k) % 2
  {
    if rs == [] {
      ZeroBits(k);
    } else {
      var init, d := rs[..|rs| - 1], sha(rs[|rs| - 1].id);
      ChecksumParity(sha, init, i, k);
      XorExact(XorAll(sha, init), d, i, k);
      ParityStep(DigestBit(XorAll(sha, init), i, k), DigestBit(d, i, k), DigestBit(XorAll(sha, rs), i, k),
                 BitCount(sha, init, i, k));
    }
  }

  lemma ParityStep(x: nat, y: nat, z: nat, n: nat)
    requires x < 2 && y < 2 && z < 2 && x == n % 2 && (z == 1 <==> x != y)
    ensures z == (n + y) % 2
  {
  }

  /** Sum of element `j` of all output shares, before reduction. */
  ghost function DataSum(rs: seq<Report>, j: nat): int
    requires forall i | 0 <= i < |rs| :: j < |rs[i].data.elems|
  {
    if rs == [] then 0 else DataSum(rs[..|rs| - 1], j) + rs[|rs| - 1].data.elems[j]
  }

  /** A fold is exact: number, earliest and latest time, checksum and sums of the reports. */
  lemma {:induction false} FoldMeaning(sha: Sha, rs: seq<Report>, sh: Shape)
    requires AllShaped(rs, sh)
    ensures var s := Fold(sha, rs, sh);
            && s.count == |rs|
            && s.checksum == XorAll(sha, rs)
            && ParityOf(sha, rs, s.checksum)
            && (forall i | 0 <= i < |rs| :: s.minTime <= rs[i].time <= s.maxTime)
            && (rs != [] ==> (exists i | 0 <= i < |rs| :: rs[i].time == s.minTime)
                             && (exists i | 0 <= i < |rs| :: rs[i].time == s.maxTime))
            && (rs != [] ==> s.data.Some? && s.data.value.kind == sh.kind && |s.data.value.elems| == sh.len
                             && forall j | 0 <= j < sh.len ::
                                  Cong(Modulus(sh.kind), s.data.value.elems[j], DataSum(rs, j)))
  {
    AllParities(sha, rs);
    if rs != [] {
      var n := |rs| - 1;
      FoldMeaning(sha, rs[..n], sh);
      FoldTimes(sha, rs, sh);
      forall j | 0 <= j < sh.len
        ensures Cong(Modulus(sh.kind), Fold(sha, rs, sh).data.value.elems[j], DataSum(rs, j))
      {
        FoldElem(sha, rs, sh, j);
      }
    }
  }

  lemma {:induction false} AllParities(sha: Sha, rs: seq<Report>)
    ensures ParityOf(sha, rs, XorAll(sha, rs))
  {
    forall i: nat, k: nat | i < 32 && k < 8
      ensures DigestBit(XorAll(sha, rs), i, k) == BitCount(sha, rs, i, k) % 2
    {
      ChecksumParity(sha, rs, i, k);
    }
  }

  lemma {:induction false} FoldElem(sha: Sha, rs: seq<Report>, sh: Shape, j: nat)
    requires AllShaped(rs, sh) && rs != [] && j < sh.len
    requires var init := rs[..|rs| - 1];
             init != [] ==> Cong(Modulus(sh.kind), Fold(sha, init, sh).data.value.elems[j], DataSum(init, j))
    ensures Cong(Modulus(sh.kind), Fold(sha, rs, sh).data.value.elems[j], DataSum(rs, j))
  {
    var m, n := Modulus(sh.kind), |rs| - 1;
    var init, last := rs[..n], rs[n];
    if n > 0 {
      var x := Fold(sha, init, sh).data.value.elems[j];
      CongMod(m, x + last.data.elems[j]);
      CongAdd(m, x, DataSum(init, j), last.data.elems[j], last.data.elems[j]);
    }
  }

  lemma {:induction false} FoldTimes(sha: Sha, rs: seq<Report>, sh: Shape)
    requires AllShaped(rs, sh) && rs != []
    requires var n := |rs| - 1;
             var s := Fold(sha, rs[..n], sh);
             && (forall i | 0 <= i < n :: s.minTime <= rs[..n][i].time <= s.maxTime)
             && (n > 0 ==> (exists i | 0 <= i < n :: rs[..n][i].time == s.minTime)
                           && (exists i | 0 <= i < n :: rs[..n][i].time == s.maxTime))
    ensures var s := Fold(sha, rs, sh);
            && (forall i | 0 <= i < |rs| :: s.minTime <= rs[i].time <= s.maxTime)
            && (exists i | 0 <= i < |rs| :: rs[i].time == s.minTime)
            && (exists i | 0 <= i < |rs| :: rs[i].time == s.maxTime)
  {
    var n := |rs| - 1;
    var init, s := Fold(sha, rs[..n], sh), Fold(sha, rs, sh);
    forall i | 0 <= i < |rs| ensures s.minTime <= rs[i].time <= s.maxTime {
      if i < n { assert rs[..n][i] == rs[i]; }
    }
    assert rs[n].time == s.minTime || (exists i | 0 <= i < n :: rs[i].time == s.minTime) by {
      if n > 0 && s.minTime == init.minTime {
        var i :| 0 <= i < n && rs[..n][i].time == init.minTime;
        assert rs[i].time == s.minTime;
      }
    }
    assert rs[n].time == s.maxTime || (exists i | 0 <= i < n :: rs[i].time == s.maxTime) by {
      if n > 0 && s.maxTime == init.maxTime {
        var i :| 0 <= i < n && rs[..n][i].time == init.maxTime;
        assert rs[i].time == s.maxTime;
      }
    }
  }
}
