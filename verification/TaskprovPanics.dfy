/**
When decoding a task configuration panics. Opening a length-prefixed block does not compare the
length with the end of the input, so a configuration cut off inside a block makes the decoder
panic, while one cut off anywhere else is an ordinary error.
*/
module TaskprovPanics {
  import opened Sequences
  import opened Bytes
  import opened TaskprovCodec

  // ---- All inputs

  /** A length that exceeds what follows it. */
  predicate CutShort(s: seq<Byte>) {
    |s| >= 2 && UintOf(s[..2]) > |s| - 2
  }

  lemma {:induction false} UintsNoPanic(ws: seq<nat>, s: seq<Byte>)
    ensures !DecUints(ws, s).Panic?
  {
    if ws != [] && DecUint(ws[0], s).Got? {
      UintsNoPanic(ws[1..], DecUint(ws[0], s).rest);
    }
  }

  lemma QueryNoPanic(s: seq<Byte>)
    ensures !DecQuery(s).Panic?
  {
    UintsNoPanic(QUERY_WIDTHS, s);
  }

  lemma VdafNoPanic(s: seq<Byte>)
    ensures !DecDp(s).Panic? && !DecVar(s).Panic?
  {
    if DecUint(4, s).Got? {
      UintsNoPanic(PINE_WIDTHS, DecUint(4, s).rest);
      UintsNoPanic([4, 1, 4, 1], DecUint(4, s).rest);
    }
  }

  /** The configuration up to the query block. */
  function DecHead(s: seq<Byte>): Decoded<(seq<Byte>, seq<Byte>, seq<Byte>)> {
    var (taskInfo, rest) :- DecPrefixed(1, s);
    var (leaderUrl, rest) :- DecPrefixed(2, rest);
    var (helperUrl, rest) :- DecPrefixed(2, rest);
    Got((taskInfo, leaderUrl, helperUrl), rest)
  }

  function EncHead(taskInfo: seq<Byte>, leaderUrl: seq<Byte>, helperUrl: seq<Byte>): seq<Byte> {
    EncPrefixed(1, taskInfo) + (EncPrefixed(2, leaderUrl) + EncPrefixed(2, helperUrl))
  }

  lemma HeadExact(s: seq<Byte>, a: seq<Byte>, b: seq<Byte>, c: seq<Byte>, rest: seq<Byte>)
    ensures DecHead(s) == Got((a, b, c), rest)
       <==> |a| < Pow256(1) && |b| < Pow256(2) && |c| < Pow256(2) && s == EncHead(a, b, c) + rest
  {
    var x, y, z := EncPrefixed(1, a), EncPrefixed(2, b), EncPrefixed(2, c);
    Assoc(x, y + z, rest);
    Assoc(y, z, rest);
    PrefixedExact(1, s, a, y + (z + rest));
    PrefixedExact(2, y + (z + rest), b, z + rest);
    PrefixedExact(2, z + rest, c, rest);
    if DecHead(s) == Got((a, b, c), rest) {
      var r1 := DecPrefixed(1, s).rest;
      PrefixedExact(1, s, a, r1);
      var r2 := DecPrefixed(2, r1).rest;
      PrefixedExact(2, r1, b, r2);
      PrefixedExact(2, r2, c, rest);
    }
  }

  /** The input continues with `tail` where the query block should start. */
  ghost predicate AtQuery(s: seq<Byte>, tail: seq<Byte>) {
    exists a: seq<Byte>, b: seq<Byte>, c: seq<Byte> ::
      |a| < Pow256(1) && |b| < Pow256(2) && |c| < Pow256(2) && s == EncHead(a, b, c) + tail
  }

  /** The input continues with `tail` where the VDAF block should start. */
  ghost predicate AtVdaf(s: seq<Byte>, tail: seq<Byte>) {
    exists q: QueryConfig, e: nat ::
      && FitsQuery(q) && NoReuseQuery(q) && |EncQuery(q)| < Pow256(2) && e < Pow256(8)
      && AtQuery(s, EncPrefixed(2, EncQuery(q)) + (EncUint(8, e) + tail))
  }

  /** The input has a whole VDAF block with the given content. */
  ghost predicate HasVdaf(s: seq<Byte>, inner: seq<Byte>) {
    |inner| < Pow256(2) && exists rest: seq<Byte> :: AtVdaf(s, EncPrefixed(2, inner) + rest)
  }

  lemma AtQueryIs(s: seq<Byte>, tail: seq<Byte>)
    ensures AtQuery(s, tail) <==> DecHead(s).Got? && DecHead(s).rest == tail
  {
    if DecHead(s).Got? {
      var (a, b, c) := DecHead(s).value;
      HeadExact(s, a, b, c, DecHead(s).rest);
    }
    if AtQuery(s, tail) {
      var a, b, c :| |a| < Pow256(1) && |b| < Pow256(2) && |c| < Pow256(2) && s == EncHead(a, b, c) + tail;
      HeadExact(s, a, b, c, tail);
    }
  }

  /** The configuration up to the VDAF block. */
  function DecMiddle(s: seq<Byte>): Decoded<(QueryConfig, nat)> {
    var (_, rest) :- DecHead(s);
    var (query, rest) :- DecQueryBlock(rest);
    var (expiration, rest) :- DecUint(8, rest);
    Got((query, expiration), rest)
  }

  lemma {:induction false} MiddleExact(s: seq<Byte>, q: QueryConfig, e: nat, tail: seq<Byte>)
    ensures DecMiddle(s) == Got((q, e), tail)
       <==> && FitsQuery(q) && NoReuseQuery(q) && |EncQuery(q)| < Pow256(2) && e < Pow256(8)
            && AtQuery(s, EncPrefixed(2, EncQuery(q)) + (EncUint(8, e) + tail))
  {
    var after := EncUint(8, e) + tail;
    AtQueryIs(s, EncPrefixed(2, EncQuery(q)) + after);
    UintExact(8, after, e, tail);
    QueryBlockExact(EncPrefixed(2, EncQuery(q)) + after, q, after);
    if DecMiddle(s) == Got((q, e), tail) {
      var r3 := DecHead(s).rest;
      var r4 := DecQueryBlock(r3).rest;
      QueryBlockExact(r3, q, r4);
      UintExact(8, r4, e, tail);
    }
  }

  lemma AtVdafIs(s: seq<Byte>, tail: seq<Byte>)
    ensures AtVdaf(s, tail) <==> DecMiddle(s).Got? && DecMiddle(s).rest == tail
  {
    if DecMiddle(s).Got? {
      var (q, e) := DecMiddle(s).value;
      MiddleExact(s, q, e, DecMiddle(s).rest);
    }
    if AtVdaf(s, tail) {
      var q, e: nat :| && FitsQuery(q) && NoReuseQuery(q) && |EncQuery(q)| < Pow256(2) && e < Pow256(8)
                       && AtQuery(s, EncPrefixed(2, EncQuery(q)) + (EncUint(8, e) + tail));
      MiddleExact(s, q, e, tail);
    }
  }

  lemma HasVdafIs(s: seq<Byte>, inner: seq<Byte>)
    ensures HasVdaf(s, inner)
       <==> DecMiddle(s).Got? && DecBlock(DecMiddle(s).rest).Got? && DecBlock(DecMiddle(s).rest).value == inner
  {
    if DecMiddle(s).Got? && DecBlock(DecMiddle(s).rest).Got? && DecBlock(DecMiddle(s).rest).value == inner {
      var tail := DecMiddle(s).rest;
      BlockExact(tail, inner, DecBlock(tail).rest);
      AtVdafIs(s, tail);
    }
    if HasVdaf(s, inner) {
      var rest: seq<Byte> :| AtVdaf(s, EncPrefixed(2, inner) + rest);
      AtVdafIs(s, EncPrefixed(2, inner) + rest);
      BlockExact(EncPrefixed(2, inner) + rest, inner, rest);
    }
  }

  lemma QueryBlockPanics(s: seq<Byte>)
    ensures DecQueryBlock(s).Panic? <==> CutShort(s)
  {
    if DecBlock(s).Got? {
      QueryNoPanic(DecBlock(s).value);
    }
  }

  lemma VdafPanics(s: seq<Byte>)
    ensures DecVdaf(s).Panic? <==> CutShort(s)
  {
    if DecBlock(s).Got? {
      VdafNoPanic(DecBlock(s).value);
      VdafNoPanic(DecBlock(s).rest);
    }
  }

  lemma VdafBlockPanics(s: seq<Byte>)
    ensures DecVdafBlock(s).Panic? <==> CutShort(s) || (DecBlock(s).Got? && CutShort(DecBlock(s).value))
  {
    if DecBlock(s).Got? {
      VdafPanics(DecBlock(s).value);
    }
  }

  lemma PanicsAt(s: seq<Byte>)
    ensures DecTask(s).Panic? <==> || (DecHead(s).Got? && DecQueryBlock(DecHead(s).rest).Panic?)
                                   || (DecMiddle(s).Got? && DecVdafBlock(DecMiddle(s).rest).Panic?)
  {
    HeadFirst(s);
  }

  /** The configuration from the query block on. */
  function DecBody(head: (seq<Byte>, seq<Byte>, seq<Byte>), s: seq<Byte>): Decoded<TaskConfig> {
    var (query, rest) :- DecQueryBlock(s);
    var (expiration, rest) :- DecUint(8, rest);
    var (vdaf, rest) :- DecVdafBlock(rest);
    Got(TaskConfig(head.0, head.1, head.2, query, expiration, vdaf), rest)
  }

  lemma HeadFirst(s: seq<Byte>)
    ensures DecTask(s) == match DecHead(s)
                          case Got(head, rest) => DecBody(head, rest)
                          case Malformed => Malformed
                          case Panic => Panic
    ensures !DecHead(s).Panic?
  {
  }

  /**
  Decoding panics exactly when the query block, the VDAF block, or the block of the differential
  privacy configuration at the start of a whole VDAF block announces more than is there.
  */
  lemma TaskPanics(s: seq<Byte>)
    ensures DecTask(s).Panic? <==> || (exists tail :: AtQuery(s, tail) && CutShort(tail))
                                   || (exists tail :: AtVdaf(s, tail) && CutShort(tail))
                                   || (exists inner :: HasVdaf(s, inner) && CutShort(inner))
  {
    PanicsAt(s);
    if DecHead(s).Got? {
      QueryBlockPanics(DecHead(s).rest);
    }
    if DecMiddle(s).Got? {
      VdafBlockPanics(DecMiddle(s).rest);
    }
    AtQueryOnce(s);
    AtVdafOnce(s);
    HasVdafOnce(s);
  }

  lemma AtQueryOnce(s: seq<Byte>)
    ensures (exists tail :: AtQuery(s, tail) && CutShort(tail)) <==> DecHead(s).Got? && CutShort(DecHead(s).rest)
  {
    forall tail ensures AtQuery(s, tail) <==> DecHead(s).Got? && DecHead(s).rest == tail {
      AtQueryIs(s, tail);
    }
  }

  lemma AtVdafOnce(s: seq<Byte>)
    ensures (exists tail :: AtVdaf(s, tail) && CutShort(tail)) <==> DecMiddle(s).Got? && CutShort(DecMiddle(s).rest)
  {
    forall tail ensures AtVdaf(s, tail) <==> DecMiddle(s).Got? && DecMiddle(s).rest == tail {
      AtVdafIs(s, tail);
    }
  }

  lemma HasVdafOnce(s: seq<Byte>)
    ensures (exists inner :: HasVdaf(s, inner) && CutShort(inner))
       <==> DecMiddle(s).Got? && DecBlock(DecMiddle(s).rest).Got? && CutShort(DecBlock(DecMiddle(s).rest).value)
  {
    forall inner
      ensures HasVdaf(s, inner)
         <==> DecMiddle(s).Got? && DecBlock(DecMiddle(s).rest).Got? && DecBlock(DecMiddle(s).rest).value == inner
    {
      HasVdafIs(s, inner);
    }
  }

  /** Empty strings, and a query block that announces 65535 bytes that are not there. */
  lemma ShortInputPanics()
    ensures DecTask([0, 0, 0, 0, 0, 0xFF, 0xFF]).Panic?
  {
    var s: seq<Byte> := [0, 0, 0, 0, 0, 0xFF, 0xFF];
    var tail: seq<Byte> := [0xFF, 0xFF];
    ShortHead(s, tail);
    PanicsAt(s);
    QueryBlockPanics(tail);
    assert tail[..2] == tail && tail[..1] == [0xFF] && [0xFF][..0] == [];
  }

  lemma ShortHead(s: seq<Byte>, tail: seq<Byte>)
    requires s == [0, 0, 0, 0, 0] + tail
    ensures DecHead(s) == Got(([], [], []), tail)
  {
    Zero(1);
    Zero(2);
    assert s == EncHead([], [], []) + tail;
    HeadExact(s, [], [], [], tail);
  }

  lemma {:induction false} Zero(w: nat)
    requires w <= 2
    ensures EncUint(w, 0) == if w == 0 then [] else if w == 1 then [0] else [0, 0]
  {
  }

  // ---- Configurations cut off

  lemma {:induction false} CutUint(w: nat, n: nat, rest: seq<Byte>, k: nat)
    requires n < Pow256(w) && k <= w + |rest|
    ensures DecUint(w, (EncUint(w, n) + rest)[..k]) == if k < w then Malformed else Got(n, rest[..k - w])
  {
    var s := EncUint(w, n) + rest;
    if k >= w {
      assert s[..k] == EncUint(w, n) + rest[..k - w];
      UintExact(w, s[..k], n, rest[..k - w]);
    }
  }

  lemma {:induction false} CutPrefixed(w: nat, x: seq<Byte>, rest: seq<Byte>, k: nat)
    requires |x| < Pow256(w) && k <= w + |x| + |rest|
    ensures DecPrefixed(w, (EncPrefixed(w, x) + rest)[..k])
         == if k < w + |x| then Malformed else Got(x, rest[..k - w - |x|])
  {
    Assoc(EncUint(w, |x|), x, rest);
    CutUint(w, |x|, x + rest, k);
    if k >= w + |x| {
      assert (x + rest)[..k - w] == x + rest[..k - w - |x|];
    }
  }

  lemma CutBlock(x: seq<Byte>, rest: seq<Byte>, k: nat)
    requires |x| < Pow256(2) && k <= 2 + |x| + |rest|
    ensures DecBlock((EncPrefixed(2, x) + rest)[..k])
         == if k < 2 then Malformed else if k < 2 + |x| then Panic else Got(x, rest[..k - 2 - |x|])
  {
    Assoc(EncUint(2, |x|), x, rest);
    CutUint(2, |x|, x + rest, k);
    if k >= 2 + |x| {
      assert (x + rest)[..k - 2] == x + rest[..k - 2 - |x|];
    }
  }

  lemma CutQuery(q: QueryConfig, rest: seq<Byte>, k: nat)
    requires FitsQuery(q) && NoReuseQuery(q) && |EncQuery(q)| < Pow256(2) && k <= 2 + |EncQuery(q)| + |rest|
    ensures DecQueryBlock((EncPrefixed(2, EncQuery(q)) + rest)[..k])
         == if k < 2 then Malformed else if k < 2 + |EncQuery(q)| then Panic else Got(q, rest[..k - 2 - |EncQuery(q)|])
  {
    CutBlock(EncQuery(q), rest, k);
    QueryExact(EncQuery(q), q);
  }

  /** Where the content of the query block and of the VDAF block starts. */
  function QueryStart(t: TaskConfig): nat {
    1 + |t.taskInfo| + 2 + |t.leaderUrl| + 2 + |t.helperUrl| + 2
  }

  function VdafStart(t: TaskConfig): nat {
    QueryStart(t) + |EncQuery(t.query)| + 8 + 2
  }

  /** The cut falls in a block, after its length. */
  predicate CutsBlock(t: TaskConfig, k: nat) {
    QueryStart(t) <= k < QueryStart(t) + |EncQuery(t.query)| || VdafStart(t) <= k
  }

  lemma CutTail5(t: TaskConfig, k: nat)
    requires FitsTask(t) && k < 2 + |EncVdaf(t.vdaf)|
    ensures DecVdafBlock(Tail5(t, [])[..k]) == if k < 2 then Malformed else Panic
  {
    CutBlock(EncVdaf(t.vdaf), [], k);
  }

  lemma CutTail3(t: TaskConfig, k: nat)
    requires FitsTask(t) && NoReuse(t) && k < |Tail3(t, [])|
    ensures var s := Tail3(t, [])[..k];
            var d := DecQueryBlock(s);
            var q := 2 + |EncQuery(t.query)|;
            if 2 <= k < q then d == Panic
            else if k < 2 then d == Malformed
            else && d == Got(t.query, Tail4(t, [])[..k - q])
                 && DecUint(8, d.rest) == if k < q + 8 then Malformed else Got(t.expiration, Tail5(t, [])[..k - q - 8])
  {
    CutQuery(t.query, Tail4(t, []), k);
    var q := 2 + |EncQuery(t.query)|;
    if k >= q {
      CutUint(8, t.expiration, Tail5(t, []), k - q);
    }
  }

  lemma TailLens(t: TaskConfig)
    ensures |EncTask(t)| == 1 + |t.taskInfo| + |Tail1(t, [])| && EncTask(t) == EncPrefixed(1, t.taskInfo) + Tail1(t, [])
    ensures |Tail1(t, [])| == 2 + |t.leaderUrl| + |Tail2(t, [])| && |Tail2(t, [])| == 2 + |t.helperUrl| + |Tail3(t, [])|
  {
    Tails(t, []);
    assert EncTask(t) + [] == EncTask(t);
  }

  /** The configuration from the leader's address up to the query block. */
  function DecUrls(s: seq<Byte>): Decoded<(seq<Byte>, seq<Byte>)> {
    var (leaderUrl, rest) :- DecPrefixed(2, s);
    var (helperUrl, rest) :- DecPrefixed(2, rest);
    Got((leaderUrl, helperUrl), rest)
  }

  lemma HeadUrls(s: seq<Byte>)
    ensures DecHead(s) == match DecPrefixed(1, s)
                          case Malformed => Malformed
                          case Panic => Panic
                          case Got(taskInfo, rest) =>
                            match DecUrls(rest)
                            case Malformed => Malformed
                            case Panic => Panic
                            case Got(urls, rest') => Got((taskInfo, urls.0, urls.1), rest')
  {
  }

  lemma CutUrls(t: TaskConfig, k: nat)
    requires FitsTask(t) && k <= |Tail1(t, [])|
    ensures var h := 2 + |t.leaderUrl| + 2 + |t.helperUrl|;
            && |Tail3(t, [])| == |Tail1(t, [])| - h
            && DecUrls(Tail1(t, [])[..k]) == if k < h then Malformed
                                             else Got((t.leaderUrl, t.helperUrl), Tail3(t, [])[..k - h])
  {
    TailLens(t);
    var b := 2 + |t.leaderUrl|;
    CutPrefixed(2, t.leaderUrl, Tail2(t, []), k);
    if k >= b {
      CutPrefixed(2, t.helperUrl, Tail3(t, []), k - b);
    }
  }

  lemma CutHead(t: TaskConfig, k: nat)
    requires FitsTask(t) && k < |EncTask(t)|
    ensures var h := QueryStart(t) - 2;
            && |Tail3(t, [])| == |EncTask(t)| - h
            && DecHead(EncTask(t)[..k]) == if k < h then Malformed
                                             else Got((t.taskInfo, t.leaderUrl, t.helperUrl), Tail3(t, [])[..k - h])
  {
    TailLens(t);
    HeadUrls(EncTask(t)[..k]);
    var a := 1 + |t.taskInfo|;
    CutPrefixed(1, t.taskInfo, Tail1(t, []), k);
    if k >= a {
      CutUrls(t, k - a);
    }
  }

  /**
  A configuration that was cut off anywhere never decodes: the decoder panics exactly when the cut
  falls in the query block or the VDAF block after its length, and reports an error otherwise.
  */
  lemma CutTask(t: TaskConfig, k: nat)
    requires FitsTask(t) && NoReuse(t) && k < |EncTask(t)|
    ensures DecTask(EncTask(t)[..k]) == if CutsBlock(t, k) then Panic else Malformed
  {
    var h := QueryStart(t) - 2;
    HeadFirst(EncTask(t)[..k]);
    CutHead(t, k);
    if k >= h {
      CutBody(t, k - h);
    }
  }

  /** The same from the query block on. */
  lemma CutBody(t: TaskConfig, k: nat)
    requires FitsTask(t) && NoReuse(t) && k < |Tail3(t, [])|
    ensures DecBody((t.taskInfo, t.leaderUrl, t.helperUrl), Tail3(t, [])[..k])
         == if CutsBlock(t, k + (QueryStart(t) - 2)) then Panic else Malformed
  {
    var q := |EncQuery(t.query)| + 2;
    CutTail3(t, k);
    if k >= q + 8 {
      TailLens(t);
      CutTail5(t, k - q - 8);
    }
  }
}
