/**
Wire format of PINE input shares: field elements of fixed width, as many as the instance says,
and seeds. Which share is expected depends on the aggregator.
*/
module PineCodec {
  import opened Sequences
  import opened Bytes
  import opened PineParams
  import opened Wire

  /** The modulus, the size of an encoded element and of a seed, and the lengths of the two vectors. */
  datatype Format = Format(modulus: nat, width: nat, seedSize: nat, measLen: nat, proofsLen: nat) {
    ghost predicate Valid() {
      modulus <= Pow256(width)
    }
  }

  type InputShare = InputShareOf<nat, seq<Byte>>

  // ---- Field elements

  function DecElem(f: Format, s: seq<Byte>): Decoded<nat> {
    var (x, rest) :- DecExact(f.width, s);
    if UintLeOf(x) < f.modulus then Got(UintLeOf(x), rest) else Malformed
  }

  lemma {:induction false} ElemExact(f: Format, s: seq<Byte>, n: nat, rest: seq<Byte>)
    requires f.Valid()
    ensures DecElem(f, s) == Got(n, rest) <==> n < f.modulus && s == EncUintLe(f.width, n) + rest
  {
    if DecElem(f, s) == Got(n, rest) {
      var x := DecExact(f.width, s).value;
      ExactExact(f.width, s, x, rest);
      EncUintLeOf(x);
    }
    if n < f.modulus && s == EncUintLe(f.width, n) + rest {
      ExactExact(f.width, s, EncUintLe(f.width, n), rest);
      UintLeOfEnc(f.width, n);
    }
  }

  function EncElems(f: Format, ns: seq<nat>): seq<Byte> {
    if ns == [] then [] else EncElems(f, ns[..|ns| - 1]) + EncUintLe(f.width, ns[|ns| - 1])
  }

  function DecElems(f: Format, k: nat, s: seq<Byte>): Decoded<seq<nat>> {
    if k == 0 then Got([], s)
    else
      var (ns, rest) :- DecElems(f, k - 1, s);
      var (n, rest) :- DecElem(f, rest);
      Got(ns + [n], rest)
  }

  ghost predicate Canonicals(f: Format, ns: seq<nat>) {
    forall i | 0 <= i < |ns| :: ns[i] < f.modulus
  }

  lemma {:induction false} ElemsDecode(f: Format, ns: seq<nat>, rest: seq<Byte>)
    requires f.Valid() && Canonicals(f, ns)
    ensures DecElems(f, |ns|, EncElems(f, ns) + rest) == Got(ns, rest)
  {
    if ns == [] {
      assert [] + rest == rest;
    } else {
      var init, last := ns[..|ns| - 1], ns[|ns| - 1];
      var after := EncUintLe(f.width, last) + rest;
      Assoc(EncElems(f, init), EncUintLe(f.width, last), rest);
      ElemsDecode(f, init, after);
      ElemExact(f, after, last, rest);
      assert ns == init + [last];
    }
  }

  lemma {:induction false} ElemsEncode(f: Format, k: nat, s: seq<Byte>)
    requires f.Valid() && DecElems(f, k, s).Got?
    ensures var d := DecElems(f, k, s);
            |d.value| == k && Canonicals(f, d.value) && s == EncElems(f, d.value) + d.rest
  {
    if k == 0 {
      assert [] + s == s;
    } else {
      ElemsEncode(f, k - 1, s);
      var before, d := DecElems(f, k - 1, s), DecElems(f, k, s);
      var last := d.value[k - 1];
      ElemExact(f, before.rest, last, d.rest);
      assert d.value[..k - 1] == before.value;
      Assoc(EncElems(f, before.value), EncUintLe(f.width, last), d.rest);
    }
  }

  lemma {:induction false} ElemsExact(f: Format, k: nat, s: seq<Byte>, ns: seq<nat>, rest: seq<Byte>)
    requires f.Valid()
    ensures DecElems(f, k, s) == Got(ns, rest) <==> |ns| == k && Canonicals(f, ns) && s == EncElems(f, ns) + rest
  {
    if DecElems(f, k, s).Got? {
      ElemsEncode(f, k, s);
    }
    if |ns| == k && Canonicals(f, ns) {
      ElemsDecode(f, ns, rest);
    }
  }

  // ---- Input shares

  function EncSeeds(seeds: seq<seq<Byte>>): seq<Byte> {
    if seeds == [] then [] else seeds[0] + EncSeeds(seeds[1..])
  }

  function DecSeeds(size: nat, k: nat, s: seq<Byte>): Decoded<seq<seq<Byte>>> {
    if k == 0 then Got([], s)
    else
      var (seed, rest) :- DecExact(size, s);
      var (seeds, rest) :- DecSeeds(size, k - 1, rest);
      Got([seed] + seeds, rest)
  }

  ghost predicate AllSize(size: nat, seeds: seq<seq<Byte>>) {
    forall i | 0 <= i < |seeds| :: |seeds[i]| == size
  }

  lemma {:induction false} SeedsExact(size: nat, k: nat, s: seq<Byte>, seeds: seq<seq<Byte>>, rest: seq<Byte>)
    ensures DecSeeds(size, k, s) == Got(seeds, rest)
       <==> |seeds| == k && AllSize(size, seeds) && s == EncSeeds(seeds) + rest
    decreases k
  {
    if k == 0 {
      assert [] + rest == rest;
    } else {
      if DecSeeds(size, k, s) == Got(seeds, rest) {
        var after := DecExact(size, s).rest;
        ExactExact(size, s, seeds[0], after);
        assert seeds[1..] == DecSeeds(size, k - 1, after).value;
        SeedsExact(size, k - 1, after, seeds[1..], rest);
        Assoc(seeds[0], EncSeeds(seeds[1..]), rest);
        assert seeds == [seeds[0]] + seeds[1..];
      }
      if |seeds| == k && AllSize(size, seeds) && s == EncSeeds(seeds) + rest {
        var after := EncSeeds(seeds[1..]) + rest;
        Assoc(seeds[0], EncSeeds(seeds[1..]), rest);
        ExactExact(size, s, seeds[0], after);
        SeedsExact(size, k - 1, after, seeds[1..], rest);
        assert seeds == [seeds[0]] + seeds[1..];
      }
    }
  }

  /** The share is one that aggregator `aggId` expects. */
  ghost predicate Expected(f: Format, aggId: nat, x: InputShare) {
    match x
    case LeaderShare(meas, proofs, wrBlind, vfBlind) =>
      && aggId == 0 && |meas| == f.measLen && |proofs| == f.proofsLen
      && Canonicals(f, meas) && Canonicals(f, proofs) && AllSize(f.seedSize, [wrBlind, vfBlind])
    case HelperShare(measSeed, proofsSeed, wrBlind, vfBlind) =>
      aggId == 1 && AllSize(f.seedSize, [measSeed, proofsSeed, wrBlind, vfBlind])
  }

  function EncInputShare(f: Format, x: InputShare): seq<Byte> {
    match x
    case LeaderShare(meas, proofs, wrBlind, vfBlind) =>
      EncElems(f, meas) + (EncElems(f, proofs) + EncSeeds([wrBlind, vfBlind]))
    case HelperShare(measSeed, proofsSeed, wrBlind, vfBlind) => EncSeeds([measSeed, proofsSeed, wrBlind, vfBlind])
  }

  function DecInputShare(f: Format, aggId: nat, s: seq<Byte>): Decoded<InputShare> {
    if aggId == 0 then
      var (meas, rest) :- DecElems(f, f.measLen, s);
      var (proofs, rest) :- DecElems(f, f.proofsLen, rest);
      var (seeds, rest) :- DecSeeds(f.seedSize, 2, rest);
      if |seeds| != 2 then Malformed else Got(LeaderShare(meas, proofs, seeds[0], seeds[1]), rest)
    else if aggId == 1 then
      var (seeds, rest) :- DecSeeds(f.seedSize, 4, s);
      if |seeds| != 4 then Malformed else Got(HelperShare(seeds[0], seeds[1], seeds[2], seeds[3]), rest)
    else Malformed
  }

  lemma LeaderShareExact(f: Format, s: seq<Byte>, x: InputShare, rest: seq<Byte>)
    requires f.Valid() && x.LeaderShare?
    ensures DecInputShare(f, 0, s) == Got(x, rest) <==> Expected(f, 0, x) && s == EncInputShare(f, x) + rest
  {
    var seeds := [x.wrBlind, x.vfBlind];
    if DecInputShare(f, 0, s) == Got(x, rest) {
      var r1 := DecElems(f, f.measLen, s).rest;
      ElemsExact(f, f.measLen, s, x.meas, r1);
      var r2 := DecElems(f, f.proofsLen, r1).rest;
      ElemsExact(f, f.proofsLen, r1, x.proofs, r2);
      assert DecSeeds(f.seedSize, 2, r2).value == seeds;
      SeedsExact(f.seedSize, 2, r2, seeds, rest);
      LeaderTail(f, x, rest);
    }
    if Expected(f, 0, x) && s == EncInputShare(f, x) + rest {
      LeaderTail(f, x, rest);
      var t2 := EncSeeds(seeds) + rest;
      var t1 := EncElems(f, x.proofs) + t2;
      ElemsExact(f, f.measLen, s, x.meas, t1);
      ElemsExact(f, f.proofsLen, t1, x.proofs, t2);
      SeedsExact(f.seedSize, 2, t2, seeds, rest);
    }
  }

  lemma {:induction false} LeaderTail(f: Format, x: InputShare, rest: seq<Byte>)
    requires x.LeaderShare?
    ensures EncInputShare(f, x) + rest
         == EncElems(f, x.meas) + (EncElems(f, x.proofs) + (EncSeeds([x.wrBlind, x.vfBlind]) + rest))
  {
    var a, b, c := EncElems(f, x.meas), EncElems(f, x.proofs), EncSeeds([x.wrBlind, x.vfBlind]);
    Assoc(a, b + c, rest);
    Assoc(b, c, rest);
  }

  lemma HelperShareExact(f: Format, s: seq<Byte>, x: InputShare, rest: seq<Byte>)
    requires x.HelperShare?
    ensures DecInputShare(f, 1, s) == Got(x, rest) <==> Expected(f, 1, x) && s == EncInputShare(f, x) + rest
  {
    var seeds := [x.measSeed, x.proofsSeed, x.wrBlind, x.vfBlind];
    SeedsExact(f.seedSize, 4, s, seeds, rest);
    if DecInputShare(f, 1, s) == Got(x, rest) {
      assert DecSeeds(f.seedSize, 4, s).value == seeds;
    }
  }

  /** The decoder accepts exactly the encodings of the shares the aggregator expects. */
  lemma InputShareExact(f: Format, aggId: nat, s: seq<Byte>, x: InputShare, rest: seq<Byte>)
    requires f.Valid()
    ensures DecInputShare(f, aggId, s) == Got(x, rest) <==> Expected(f, aggId, x) && s == EncInputShare(f, x) + rest
  {
    if aggId == 0 && x.LeaderShare? {
      LeaderShareExact(f, s, x, rest);
    } else if aggId == 1 && x.HelperShare? {
      HelperShareExact(f, s, x, rest);
    }
  }

  // ---- As executed

  method PutElems(f: Format, ns: seq<nat>, v: ByteVec)
    modifies v
    ensures v.data == old(v.data) + EncElems(f, ns)
  {
    for i := 0 to |ns|
      invariant v.data == old(v.data) + EncElems(f, ns[..i])
    {
      assert ns[..i + 1][..i] == ns[..i];
      Assoc(old(v.data), EncElems(f, ns[..i]), EncUintLe(f.width, ns[i]));
      v.Extend(EncUintLe(f.width, ns[i]));
    }
    assert ns[..|ns|] == ns;
  }

  method PutSeeds(seeds: seq<seq<Byte>>, v: ByteVec)
    modifies v
    ensures v.data == old(v.data) + EncSeeds(seeds)
  {
    for i := 0 to |seeds|
      invariant v.data + EncSeeds(seeds[i..]) == old(v.data) + EncSeeds(seeds)
    {
      assert seeds[i..][1..] == seeds[i + 1..];
      Assoc(v.data, seeds[i], EncSeeds(seeds[i + 1..]));
      v.Extend(seeds[i]);
    }
  }

  method EncodeInputShare(f: Format, x: InputShare, v: ByteVec)
    modifies v
    ensures v.data == old(v.data) + EncInputShare(f, x)
  {
    match x {
      case LeaderShare(meas, proofs, wrBlind, vfBlind) =>
        PutElems(f, meas, v);
        PutElems(f, proofs, v);
        PutSeeds([wrBlind, vfBlind], v);
        Assoc(old(v.data) + EncElems(f, meas), EncElems(f, proofs), EncSeeds([wrBlind, vfBlind]));
        Assoc(old(v.data), EncElems(f, meas), EncElems(f, proofs) + EncSeeds([wrBlind, vfBlind]));
      case HelperShare(measSeed, proofsSeed, wrBlind, vfBlind) =>
        PutSeeds([measSeed, proofsSeed, wrBlind, vfBlind], v);
    }
  }

  lemma {:induction false} ElemsFail(f: Format, i: nat, k: nat, s: seq<Byte>)
    requires i <= k && DecElems(f, i, s).IsFailure()
    ensures DecElems(f, k, s).IsFailure() && DecElems(f, k, s).Panic? == DecElems(f, i, s).Panic?
    decreases k - i
  {
    if i < k {
      ElemsFail(f, i + 1, k, s);
    }
  }

  method ReadElems(f: Format, k: nat, c: Cursor) returns (d: Decoded<seq<nat>>)
    requires c.Valid()
    modifies c
    ensures c.Valid() && d == DecElems(f, k, old(c.Rest())) && (d.Got? ==> c.Rest() == d.rest)
  {
    var ns: seq<nat> := [];
    ghost var s := c.Rest();
    for i := 0 to k
      invariant c.Valid() && DecElems(f, i, s) == Got(ns, c.Rest())
    {
      var x := c.ReadExact(f.width);
      if x.IsFailure() || UintLeOf(x.value) >= f.modulus {
        assert DecElems(f, i + 1, s).Malformed?;
        ElemsFail(f, i + 1, k, s);
        return Malformed;
      }
      ns := ns + [UintLeOf(x.value)];
    }
    d := Got(ns, c.bytes[c.pos..]);
  }

  method ReadSeeds(size: nat, k: nat, c: Cursor) returns (d: Decoded<seq<seq<Byte>>>)
    requires c.Valid()
    modifies c
    ensures c.Valid() && d == DecSeeds(size, k, old(c.Rest())) && (d.Got? ==> c.Rest() == d.rest)
    decreases k
  {
    if k == 0 {
      return Got([], c.bytes[c.pos..]);
    }
    var seed :- c.ReadExact(size);
    var seeds :- ReadSeeds(size, k - 1, c);
    d := Got([seed.0] + seeds.0, seeds.1);
  }

  method DecodeInputShare(f: Format, aggId: nat, c: Cursor) returns (d: Decoded<InputShare>)
    requires c.Valid()
    modifies c
    ensures c.Valid() && d == DecInputShare(f, aggId, old(c.Rest())) && (d.Got? ==> c.Rest() == d.rest)
  {
    if aggId == 0 {
      var meas :- ReadElems(f, f.measLen, c);
      var proofs :- ReadElems(f, f.proofsLen, c);
      var seeds :- ReadSeeds(f.seedSize, 2, c);
      return if |seeds.0| != 2 then Malformed else Got(LeaderShare(meas.0, proofs.0, seeds.0[0], seeds.0[1]), seeds.1);
    } else if aggId == 1 {
      var seeds :- ReadSeeds(f.seedSize, 4, c);
      return if |seeds.0| != 4 then Malformed
             else Got(HelperShare(seeds.0[0], seeds.0[1], seeds.0[2], seeds.0[3]), seeds.1);
    }
    return Malformed;
  }
}
