/**
Encoding and decoding as they are executed: encoders append to a byte vector and patch length
prefixes in afterwards, decoders advance a cursor. The methods compute the functions of
`Bytes` and `TaskprovCodec`.
*/
module Wire {
  import opened Sequences
  import opened Bytes
  import opened PineParams
  import opened TaskprovCodec

  /** How encoding ends: with the bytes appended, with an error, or with a panic. */
  datatype Encoding = Encoded | EncodeError | Panicked

  class ByteVec {
    var data: seq<Byte>

    constructor ()
      ensures data == []
    {
      data := [];
    }

    /** Append an integer, unless it does not fit. */
    method PutUint(w: nat, n: nat) returns (ok: bool)
      modifies this
      ensures ok <==> n < Pow256(w)
      ensures data == if ok then old(data) + EncUint(w, n) else old(data)
    {
      ok := n < Pow256(w);
      if ok {
        data := data + EncUint(w, n);
      }
    }

    method PutUints(ws: seq<nat>, ns: seq<nat>) returns (ok: bool)
      requires |ws| == |ns|
      modifies this
      ensures ok <==> FitUints(ws, ns)
      ensures ok ==> data == old(data) + EncUints(ws, ns)
    {
      for i := 0 to |ws|
        invariant FitUints(ws[..i], ns[..i]) && data == old(data) + EncUints(ws[..i], ns[..i])
      {
        ok := PutUint(ws[i], ns[i]);
        if !ok {
          return;
        }
        UintsSnoc(ws[..i], ns[..i], ws[i], ns[i]);
        assert ws[..i + 1] == ws[..i] + [ws[i]] && ns[..i + 1] == ns[..i] + [ns[i]];
        Assoc(old(data), EncUints(ws[..i], ns[..i]), EncUint(ws[i], ns[i]));
      }
      assert ws[..|ws|] == ws && ns[..|ns|] == ns;
      return true;
    }

    method Extend(bytes: seq<Byte>)
      modifies this
      ensures data == old(data) + bytes
    {
      data := data + bytes;
    }

    /** Append a string after its length, unless the length does not fit. */
    method PutPrefixed(w: nat, bytes: seq<Byte>) returns (ok: bool)
      modifies this
      ensures ok <==> |bytes| < Pow256(w)
      ensures ok ==> data == old(data) + EncPrefixed(w, bytes)
    {
      ok := PutUint(w, |bytes|);
      if ok {
        Assoc(data, EncUint(w, |bytes|), bytes);
        Extend(bytes);
      }
    }

    /** Reserve space for the length of what comes next. */
    method Reserve() returns (offset: nat)
      modifies this
      ensures offset == |old(data)| && data == old(data) + EncUint(2, 0)
    {
      offset := |data|;
      data := data + EncUint(2, 0);
    }

    /** Write the length of what was appended since `Reserve`; too long a string makes the program panic. */
    method Patch(offset: nat, ghost before: seq<Byte>, ghost inner: seq<Byte>) returns (r: Encoding)
      requires offset == |before| && data == before + EncUint(2, 0) + inner
      modifies this
      ensures r == if |inner| < Pow256(2) then Encoded else Panicked
      ensures r.Encoded? ==> data == before + EncPrefixed(2, inner)
    {
      var len := |data| - offset - 2;
      if len >= Pow256(2) {
        return Panicked;
      }
      data := data[..offset] + EncUint(2, len) + data[offset + 2..];
      assert data == before + (EncUint(2, len) + inner);
      r := Encoded;
    }
  }

  lemma {:induction false} UintsSnoc(ws: seq<nat>, ns: seq<nat>, w: nat, n: nat)
    requires |ws| == |ns|
    ensures EncUints(ws + [w], ns + [n]) == EncUints(ws, ns) + EncUint(w, n)
  {
    if ws == [] {
      assert EncUints([w][1..], [n][1..]) == [];
    } else {
      UintsSnoc(ws[1..], ns[1..], w, n);
      assert (ws + [w])[1..] == ws[1..] + [w] && (ns + [n])[1..] == ns[1..] + [n];
      Assoc(EncUint(ws[0], ns[0]), EncUints(ws[1..], ns[1..]), EncUint(w, n));
    }
  }

  // ---- Encoders

  method EncodeDp(d: DpConfig, v: ByteVec) returns (ok: bool)
    modifies v
    ensures ok <==> FitsDp(d)
    ensures ok ==> v.data == old(v.data) + EncDp(d)
  {
    Widths();
    match d {
      case DpNone => ok := v.PutUint(1, DP_MECHANISM_NONE);
      case DpNotImplemented(typ, param) =>
        ok := v.PutUint(1, typ);
        if ok {
          Assoc(old(v.data), EncUint(1, typ), param);
          v.Extend(param);
        }
    }
  }

  method EncodeVar(x: VdafTypeVar, v: ByteVec) returns (ok: bool)
    modifies v
    ensures ok <==> FitsVar(x)
    ensures ok ==> v.data == old(v.data) + EncVar(x)
  {
    Widths();
    VarSplit(x);
    ok := v.PutUint(4, VarCode(x));
    if !ok {
      return;
    }
    Assoc(old(v.data), EncUint(4, VarCode(x)), VarBody(x));
    match x {
      case Prio2(dimension) => ok := v.PutUint(4, dimension);
      case Prio3SumVecMultiproof(length, bits, chunkLength, numProofs) =>
        ok := v.PutUints([4, 1, 4, 1], [length, bits, chunkLength, numProofs]);
      case Pine32(param) => ok := v.PutUints(PINE_WIDTHS, PineFields(param));
      case Pine64(param) => ok := v.PutUints(PINE_WIDTHS, PineFields(param));
      case VdafNotImplemented(_, param) => v.Extend(param);
    }
  }

  /** The differential privacy configuration has no two-byte length. */
  ghost predicate DpTooLong(d: DpConfig) {
    FitsDp(d) && |EncDp(d)| >= Pow256(2)
  }

  method EncodeVdaf(x: VdafConfig, v: ByteVec) returns (r: Encoding)
    modifies v
    ensures r.Encoded? <==> FitsVdaf(x)
    ensures r.Panicked? <==> DpTooLong(x.dp)
    ensures r.Encoded? ==> v.data == old(v.data) + EncVdaf(x)
  {
    var offset := v.Reserve();
    var ok := EncodeDp(x.dp, v);
    if !ok {
      return EncodeError;
    }
    r := v.Patch(offset, old(v.data), EncDp(x.dp));
    if r.Panicked? {
      return;
    }
    Assoc(old(v.data), EncPrefixed(2, EncDp(x.dp)), EncVar(x.variant));
    ok := EncodeVar(x.variant, v);
    r := if ok then Encoded else EncodeError;
  }

  method EncodeQuery(q: QueryConfig, v: ByteVec) returns (ok: bool)
    modifies v
    ensures ok <==> FitsQuery(q)
    ensures ok ==> v.data == old(v.data) + EncQuery(q)
  {
    ok := v.PutUints(QUERY_WIDTHS, QueryHead(q));
    if !ok {
      return;
    }
    Assoc(old(v.data), EncUints(QUERY_WIDTHS, QueryHead(q)), QueryBody(q.variant));
    match q.variant {
      case TimeIntervalVar => assert v.data + [] == v.data;
      case FixedSizeVar(max) => ok := v.PutUint(4, max);
      case QueryNotImplemented(_, param) => v.Extend(param);
    }
  }

  /** The parts of an encoded configuration before the query block, with it, and so on. */
  ghost function Head(t: TaskConfig): seq<Byte> {
    EncPrefixed(1, t.taskInfo) + EncPrefixed(2, t.leaderUrl) + EncPrefixed(2, t.helperUrl)
  }

  method EncodeHead(t: TaskConfig, v: ByteVec) returns (ok: bool)
    modifies v
    ensures ok <==> |t.taskInfo| < Pow256(1) && |t.leaderUrl| < Pow256(2) && |t.helperUrl| < Pow256(2)
    ensures ok ==> v.data == old(v.data) + Head(t)
  {
    ok := v.PutPrefixed(1, t.taskInfo);
    if !ok {
      return;
    }
    ok := v.PutPrefixed(2, t.leaderUrl);
    if !ok {
      return;
    }
    Assoc(old(v.data), EncPrefixed(1, t.taskInfo), EncPrefixed(2, t.leaderUrl));
    Assoc(old(v.data), EncPrefixed(1, t.taskInfo) + EncPrefixed(2, t.leaderUrl), EncPrefixed(2, t.helperUrl));
    ok := v.PutPrefixed(2, t.helperUrl);
  }

  ghost predicate QueryTooLong(q: QueryConfig) {
    FitsQuery(q) && |EncQuery(q)| >= Pow256(2)
  }

  method EncodeQueryBlock(q: QueryConfig, v: ByteVec) returns (r: Encoding)
    modifies v
    ensures r.Encoded? <==> FitsQuery(q) && |EncQuery(q)| < Pow256(2)
    ensures r.Panicked? <==> QueryTooLong(q)
    ensures r.Encoded? ==> v.data == old(v.data) + EncPrefixed(2, EncQuery(q))
  {
    var offset := v.Reserve();
    var ok := EncodeQuery(q, v);
    if !ok {
      return EncodeError;
    }
    r := v.Patch(offset, old(v.data), EncQuery(q));
  }

  ghost predicate VdafTooLong(x: VdafConfig) {
    DpTooLong(x.dp) || (FitsVdaf(x) && |EncVdaf(x)| >= Pow256(2))
  }

  method EncodeVdafBlock(x: VdafConfig, v: ByteVec) returns (r: Encoding)
    modifies v
    ensures r.Encoded? <==> FitsVdaf(x) && |EncVdaf(x)| < Pow256(2)
    ensures r.Panicked? <==> VdafTooLong(x)
    ensures r.Encoded? ==> v.data == old(v.data) + EncPrefixed(2, EncVdaf(x))
  {
    var offset := v.Reserve();
    r := EncodeVdaf(x, v);
    if r.Encoded? {
      r := v.Patch(offset, old(v.data), EncVdaf(x));
    }
  }

  ghost predicate FitsHead(t: TaskConfig) {
    |t.taskInfo| < Pow256(1) && |t.leaderUrl| < Pow256(2) && |t.helperUrl| < Pow256(2)
  }

  /** Everything before some block fits, and that block is too long for its prefix. */
  ghost predicate TaskTooLong(t: TaskConfig) {
    && FitsHead(t)
    && (QueryTooLong(t.query)
        || (FitsQuery(t.query) && |EncQuery(t.query)| < Pow256(2) && t.expiration < Pow256(8) && VdafTooLong(t.vdaf)))
  }

  /** Append a task configuration, if all its lengths fit. */
  method EncodeTaskConfig(t: TaskConfig, v: ByteVec) returns (r: Encoding)
    modifies v
    ensures r.Encoded? <==> FitsTask(t)
    ensures r.Panicked? <==> TaskTooLong(t)
    ensures r.Encoded? ==> v.data == old(v.data) + EncTask(t)
  {
    var ok := EncodeHead(t, v);
    if !ok {
      return EncodeError;
    }
    r := EncodeQueryBlock(t.query, v);
    if !r.Encoded? {
      return;
    }
    Assoc(old(v.data), Head(t), EncPrefixed(2, EncQuery(t.query)));
    ok := v.PutUint(8, t.expiration);
    if !ok {
      return EncodeError;
    }
    Assoc(old(v.data), Head(t) + EncPrefixed(2, EncQuery(t.query)), EncUint(8, t.expiration));
    r := EncodeVdafBlock(t.vdaf, v);
    Assoc(old(v.data), Head(t) + EncPrefixed(2, EncQuery(t.query)) + EncUint(8, t.expiration),
          EncPrefixed(2, EncVdaf(t.vdaf)));
  }

  // ---- Decoders

  class Cursor {
    const bytes: seq<Byte>
    var pos: nat

    ghost predicate Valid()
      reads this
    {
      pos <= |bytes|
    }

    ghost function Rest(): seq<Byte>
      reads this
      requires Valid()
    {
      bytes[pos..]
    }

    constructor (bytes: seq<Byte>)
      ensures Valid() && Rest() == bytes && this.bytes == bytes && pos == 0
    {
      this.bytes, pos := bytes, 0;
    }

    method ReadExact(n: nat) returns (d: Decoded<seq<Byte>>)
      requires Valid()
      modifies this
      ensures Valid() && d == DecExact(n, old(Rest())) && (d.Got? ==> Rest() == d.rest)
    {
      if |bytes| - pos < n {
        return Malformed;
      }
      var out := bytes[pos..pos + n];
      assert out == Rest()[..n] && bytes[pos + n..] == Rest()[n..];
      pos := pos + n;
      d := Got(out, bytes[pos..]);
    }

    method ReadUint(w: nat) returns (d: Decoded<nat>)
      requires Valid()
      modifies this
      ensures Valid() && d == DecUint(w, old(Rest())) && (d.Got? ==> Rest() == d.rest)
    {
      var out :- ReadExact(w);
      d := Got(UintOf(out.0), out.1);
    }

    method ReadUints(ws: seq<nat>) returns (d: Decoded<seq<nat>>)
      requires Valid()
      modifies this
      ensures Valid() && d == DecUints(ws, old(Rest())) && (d.Got? ==> Rest() == d.rest)
    {
      var ns: seq<nat> := [];
      ghost var s0 := Rest();
      assert ws[0..] == ws;
      PrependNothing(DecUints(ws, s0));
      for i := 0 to |ws|
        invariant Valid() && DecUints(ws, s0) == Prepend(ns, DecUints(ws[i..], Rest()))
      {
        PrependStep(ns, ws, i, Rest());
        var n :- ReadUint(ws[i]);
        ns := ns + [n.0];
      }
      assert ws[|ws|..] == [] && ns + [] == ns;
      d := Got(ns, bytes[pos..]);
    }

    method ReadPrefixed(w: nat) returns (d: Decoded<seq<Byte>>)
      requires Valid()
      modifies this
      ensures Valid() && d == DecPrefixed(w, old(Rest())) && (d.Got? ==> Rest() == d.rest)
    {
      var n :- ReadUint(w);
      d := ReadExact(n.0);
    }

    /** Open a block: a cursor over its content. Slicing past the end of the input panics. */
    method OpenBlock() returns (d: Decoded<seq<Byte>>)
      requires Valid()
      modifies this
      ensures Valid() && d == DecBlock(old(Rest())) && (d.Got? ==> Rest() == d.rest)
    {
      var len :- ReadUint(2);
      var end := pos + len.0;
      if end > |bytes| {
        return Panic;
      }
      var inner := bytes[pos..end];
      assert inner == Rest()[..len.0] && bytes[end..] == Rest()[len.0..];
      pos := end;
      d := Got(inner, bytes[end..]);
    }
  }

  /** The result of decoding with the values already read in front. */
  ghost function Prepend(ns: seq<nat>, d: Decoded<seq<nat>>): Decoded<seq<nat>> {
    match d
    case Got(ms, rest) => Got(ns + ms, rest)
    case Malformed => Malformed
    case Panic => Panic
  }

  lemma PrependNothing(d: Decoded<seq<nat>>)
    ensures Prepend([], d) == d
  {
    if d.Got? {
      assert [] + d.value == d.value;
    }
  }

  lemma {:induction false} PrependStep(ns: seq<nat>, ws: seq<nat>, i: nat, s: seq<Byte>)
    requires i < |ws|
    ensures Prepend(ns, DecUints(ws[i..], s))
         == match DecUint(ws[i], s)
            case Got(n, rest) => Prepend(ns + [n], DecUints(ws[i + 1..], rest))
            case Malformed => Malformed
            case Panic => Panic
  {
    assert ws[i..][1..] == ws[i + 1..];
    match DecUint(ws[i], s)
    case Got(n, rest) =>
      match DecUints(ws[i + 1..], rest) {
        case Got(ms, _) => assert ns + ([n] + ms) == (ns + [n]) + ms;
        case _ =>
      }
    case _ =>
  }

  method DecodePine(c: Cursor) returns (d: Decoded<PineParam>)
    requires c.Valid()
    modifies c
    ensures c.Valid() && d == DecPine(old(c.Rest())) && (d.Got? ==> c.Rest() == d.rest)
  {
    var ns :- c.ReadUints(PINE_WIDTHS);
    d := if |ns.0| != 9 then Malformed else Got(PineOf(ns.0), ns.1);
  }

  method DecodeDp(c: Cursor, bytesLeft: nat) returns (d: Decoded<DpConfig>)
    requires c.Valid() && bytesLeft == |c.Rest()|
    modifies c
    ensures c.Valid() && d == DecDp(old(c.Rest())) && (d.Got? ==> c.Rest() == d.rest)
  {
    var typ :- c.ReadUint(1);
    if typ.0 == DP_MECHANISM_NONE {
      return Got(DpNone, typ.1);
    }
    var param := c.ReadExact(bytesLeft - 1);
    d := if param.Got? then Got(DpNotImplemented(typ.0, param.value), param.rest) else Malformed;
  }

  method DecodeVar(c: Cursor, bytesLeft: nat) returns (d: Decoded<VdafTypeVar>)
    requires c.Valid() && bytesLeft == |c.Rest()|
    modifies c
    ensures c.Valid() && d == DecVar(old(c.Rest())) && (d.Got? ==> c.Rest() == d.rest)
  {
    var typ :- c.ReadUint(4);
    if typ.0 == VDAF_TYPE_PRIO2 {
      var dimension :- c.ReadUint(4);
      return Got(Prio2(dimension.0), dimension.1);
    } else if typ.0 == VDAF_TYPE_PRIO3 {
      var ns :- c.ReadUints([4, 1, 4, 1]);
      return if |ns.0| != 4 then Malformed else Got(Prio3SumVecMultiproof(ns.0[0], ns.0[1], ns.0[2], ns.0[3]), ns.1);
    } else if typ.0 == VDAF_TYPE_PINE32 {
      var param :- DecodePine(c);
      return Got(Pine32(param.0), param.1);
    } else if typ.0 == VDAF_TYPE_PINE64 {
      var param :- DecodePine(c);
      return Got(Pine64(param.0), param.1);
    }
    var param := c.ReadExact(bytesLeft - 4);
    d := if param.Got? then Got(VdafNotImplemented(typ.0, param.value), param.rest) else Malformed;
  }

  method DecodeVdaf(c: Cursor, bytesLeft: nat) returns (d: Decoded<VdafConfig>)
    requires c.Valid() && bytesLeft == |c.Rest()|
    modifies c
    ensures c.Valid() && d == DecVdaf(old(c.Rest())) && (d.Got? ==> c.Rest() == d.rest)
  {
    var start := c.pos;
    var inner :- c.OpenBlock();
    var sub := new Cursor(inner.0);
    var decoded := DecodeDp(sub, |inner.0|);
    var dp :- CloseBlock(decoded);
    var prefixLen := c.pos - start;
    var variant :- DecodeVar(c, bytesLeft - prefixLen);
    d := Got(VdafConfig(dp.0, variant.0), variant.1);
  }

  method CloseBlock<T>(decoded: Decoded<T>) returns (d: Decoded<T>)
    ensures d == Whole(decoded)
  {
    match decoded {
      case Got(_, rest) => d := if |rest| > 0 then Malformed else decoded;
      case _ => d := decoded;
    }
  }

  method DecodeQueryConfig(c: Cursor, bytesLeft: nat) returns (d: Decoded<QueryConfig>)
    requires c.Valid() && bytesLeft == |c.Rest()|
    modifies c
    ensures c.Valid() && d == DecQuery(old(c.Rest())) && (d.Got? ==> c.Rest() == d.rest)
  {
    ghost var s := c.Rest();
    var ns :- c.ReadUints(QUERY_WIDTHS);
    HeadRead(s, ns.0, c.Rest());
    var typ := ns.0[3];
    var variant: QueryVar;
    if typ == QUERY_TYPE_TIME_INTERVAL {
      variant := TimeIntervalVar;
    } else if typ == QUERY_TYPE_FIXED_SIZE {
      var max :- c.ReadUint(4);
      variant := FixedSizeVar(max.0);
    } else {
      var param :- c.ReadExact(bytesLeft - 15);
      variant := QueryNotImplemented(typ, param.0);
    }
    d := Got(QueryConfig(ns.0[0], ns.0[1], ns.0[2], variant), c.bytes[c.pos..]);
  }

  lemma {:induction false} HeadRead(s: seq<Byte>, ns: seq<nat>, rest: seq<Byte>)
    requires DecUints(QUERY_WIDTHS, s) == Got(ns, rest)
    ensures |ns| == 4 && |s| == 15 + |rest|
  {
    UintsExact(QUERY_WIDTHS, s, ns, rest);
    UintsLen(QUERY_WIDTHS, ns);
    QueryWidth();
  }

  method DecodeQueryBlock(c: Cursor) returns (d: Decoded<QueryConfig>)
    requires c.Valid()
    modifies c
    ensures c.Valid() && d == DecQueryBlock(old(c.Rest())) && (d.Got? ==> c.Rest() == d.rest)
  {
    var inner :- c.OpenBlock();
    var sub := new Cursor(inner.0);
    var decoded := DecodeQueryConfig(sub, |inner.0|);
    var query :- CloseBlock(decoded);
    d := Got(query.0, inner.1);
  }

  method DecodeVdafBlock(c: Cursor) returns (d: Decoded<VdafConfig>)
    requires c.Valid()
    modifies c
    ensures c.Valid() && d == DecVdafBlock(old(c.Rest())) && (d.Got? ==> c.Rest() == d.rest)
  {
    var inner :- c.OpenBlock();
    var sub := new Cursor(inner.0);
    var decoded := DecodeVdaf(sub, |inner.0|);
    var vdaf :- CloseBlock(decoded);
    d := Got(vdaf.0, inner.1);
  }

  method DecodeTaskConfig(c: Cursor) returns (d: Decoded<TaskConfig>)
    requires c.Valid()
    modifies c
    ensures c.Valid() && d == DecTask(old(c.Rest())) && (d.Got? ==> c.Rest() == d.rest)
  {
    var taskInfo :- c.ReadPrefixed(1);
    var leaderUrl :- c.ReadPrefixed(2);
    var helperUrl :- c.ReadPrefixed(2);
    var query :- DecodeQueryBlock(c);
    var expiration :- c.ReadUint(8);
    var vdaf :- DecodeVdafBlock(c);
    d := Got(TaskConfig(taskInfo.0, leaderUrl.0, helperUrl.0, query.0, expiration.0, vdaf.0), vdaf.1);
  }
}
