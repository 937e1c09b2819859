/**
Byte strings on the wire: fixed-width integers and length-prefixed strings. A decoder takes
the bytes after the cursor and returns the value and the bytes that remain. Every codec is
exact: what it decodes is precisely what the encoder produces, followed by the remainder.
*/
module Bytes {
  import opened Sequences

  type Byte = x: int | 0 <= x < 256

  /** The outcome of decoding: a value and the remaining bytes, an error, or a panic. */
  datatype Decoded<+T> = Got(value: T, rest: seq<Byte>) | Malformed | Panic {
    predicate IsFailure() {
      !Got?
    }

    function PropagateFailure<U>(): Decoded<U>
      requires IsFailure()
    {
      match this
      case Malformed => Malformed
      case Panic => Panic
    }

    function Extract(): (T, seq<Byte>)
      requires !IsFailure()
    {
      (value, rest)
    }
  }

  function Pow256(w: nat): (r: nat)
    ensures r > 0
  {
    if w == 0 then 1 else 256 * Pow256(w - 1)
  }

  lemma Widths()
    ensures Pow256(1) == 0x100 && Pow256(2) == 0x1_0000 && Pow256(4) == 0x1_0000_0000
    ensures Pow256(8) == 0x1_0000_0000_0000_0000
  {
    assert Pow256(3) == 0x100_0000 && Pow256(5) == 0x100_0000_0000;
    assert Pow256(6) == 0x1_0000_0000_0000 && Pow256(7) == 0x100_0000_0000_0000;
  }

  // ---- Integers, most significant byte first

  function EncUint(w: nat, n: nat): (s: seq<Byte>)
    ensures |s| == w
  {
    if w == 0 then [] else EncUint(w - 1, n / 256) + [n % 256]
  }

  function UintOf(s: seq<Byte>): (n: nat)
    ensures n < Pow256(|s|)
  {
    if s == [] then 0 else 256 * UintOf(s[..|s| - 1]) + s[|s| - 1]
  }

  lemma {:induction false} UintOfEnc(w: nat, n: nat)
    requires n < Pow256(w)
    ensures UintOf(EncUint(w, n)) == n
  {
    if w > 0 {
      UintOfEnc(w - 1, n / 256);
      var s := EncUint(w, n);
      assert s[..|s| - 1] == EncUint(w - 1, n / 256);
    }
  }

  lemma {:induction false} EncUintOf(s: seq<Byte>)
    ensures EncUint(|s|, UintOf(s)) == s
  {
    if s != [] {
      EncUintOf(s[..|s| - 1]);
      LowByte(s[|s| - 1], UintOf(s[..|s| - 1]));
    }
  }

  /** The first byte is the most significant one. */
  lemma {:induction false} FirstByte(s: seq<Byte>)
    requires s != []
    ensures UintOf(s) == s[0] as int * Pow256(|s| - 1) + UintOf(s[1..])
  {
    if |s| > 1 {
      var init, last := s[..|s| - 1], s[|s| - 1];
      FirstByte(init);
      assert s[1..][..|s| - 2] == init[1..] && s[1..][|s| - 2] == last && init[0] == s[0];
      Regroup(s[0], Pow256(|s| - 2), UintOf(init[1..]), last);
    } else {
      assert s[..0] == [] && s[1..] == [];
    }
  }

  lemma Regroup(a: int, p: int, u: int, b: int)
    ensures 256 * (a * p + u) + b == a * (256 * p) + (256 * u + b)
  {
  }

  function DecUint(w: nat, s: seq<Byte>): Decoded<nat> {
    if |s| < w then Malformed else Got(UintOf(s[..w]), s[w..])
  }

  lemma {:induction false} UintExact(w: nat, s: seq<Byte>, n: nat, rest: seq<Byte>)
    ensures DecUint(w, s) == Got(n, rest) <==> n < Pow256(w) && s == EncUint(w, n) + rest
  {
    if |s| >= w && n == UintOf(s[..w]) && rest == s[w..] {
      EncUintOf(s[..w]);
      assert s == s[..w] + s[w..];
    }
    if n < Pow256(w) && s == EncUint(w, n) + rest {
      UintOfEnc(w, n);
      assert s[..w] == EncUint(w, n) && s[w..] == rest;
    }
  }

  // ---- Integers, least significant byte first

  function EncUintLe(w: nat, n: nat): (s: seq<Byte>)
    ensures |s| == w
  {
    if w == 0 then [] else [n % 256] + EncUintLe(w - 1, n / 256)
  }

  function UintLeOf(s: seq<Byte>): (n: nat)
    ensures n < Pow256(|s|)
  {
    if s == [] then 0 else s[0] + 256 * UintLeOf(s[1..])
  }

  lemma {:induction false} UintLeOfEnc(w: nat, n: nat)
    requires n < Pow256(w)
    ensures UintLeOf(EncUintLe(w, n)) == n
  {
    if w > 0 {
      UintLeOfEnc(w - 1, n / 256);
      assert EncUintLe(w, n)[1..] == EncUintLe(w - 1, n / 256);
    }
  }

  lemma LowByte(b: Byte, n: nat)
    ensures (b + 256 * n) % 256 == b && (b + 256 * n) / 256 == n
  {
  }

  lemma {:induction false} EncUintLeOf(s: seq<Byte>)
    ensures EncUintLe(|s|, UintLeOf(s)) == s
  {
    if s != [] {
      EncUintLeOf(s[1..]);
      LowByte(s[0], UintLeOf(s[1..]));
      assert s == [s[0]] + s[1..];
    }
  }

  // ---- Strings

  /** `n` bytes. */
  function DecExact(n: nat, s: seq<Byte>): Decoded<seq<Byte>> {
    if |s| < n then Malformed else Got(s[..n], s[n..])
  }

  /** A string after its length, of `w` bytes. */
  function EncPrefixed(w: nat, x: seq<Byte>): seq<Byte> {
    EncUint(w, |x|) + x
  }

  function DecPrefixed(w: nat, s: seq<Byte>): Decoded<seq<Byte>> {
    var (n, rest) :- DecUint(w, s);
    DecExact(n, rest)
  }

  lemma ExactExact(n: nat, s: seq<Byte>, x: seq<Byte>, rest: seq<Byte>)
    ensures DecExact(n, s) == Got(x, rest) <==> |x| == n && s == x + rest
  {
    if |x| == n && s == x + rest {
      assert s[..n] == x && s[n..] == rest;
    }
  }

  lemma {:induction false} PrefixedExact(w: nat, s: seq<Byte>, x: seq<Byte>, rest: seq<Byte>)
    ensures DecPrefixed(w, s) == Got(x, rest) <==> |x| < Pow256(w) && s == EncPrefixed(w, x) + rest
  {
    UintExact(w, s, |x|, x + rest);
    assert EncPrefixed(w, x) + rest == EncUint(w, |x|) + (x + rest);
    if |s| >= w {
      UintExact(w, s, UintOf(s[..w]), s[w..]);
      ExactExact(UintOf(s[..w]), s[w..], x, rest);
    }
  }

  // ---- Several integers in a row

  ghost predicate FitUints(ws: seq<nat>, ns: seq<nat>) {
    |ws| == |ns| && forall i | 0 <= i < |ws| :: ns[i] < Pow256(ws[i])
  }

  function EncUints(ws: seq<nat>, ns: seq<nat>): seq<Byte>
    requires |ws| == |ns|
  {
    if ws == [] then [] else EncUint(ws[0], ns[0]) + EncUints(ws[1..], ns[1..])
  }

  function DecUints(ws: seq<nat>, s: seq<Byte>): Decoded<seq<nat>> {
    if ws == [] then Got([], s)
    else
      var (n, rest) :- DecUint(ws[0], s);
      var (ns, rest) :- DecUints(ws[1..], rest);
      Got([n] + ns, rest)
  }

  lemma {:induction false} UintsDecode(ws: seq<nat>, ns: seq<nat>, rest: seq<Byte>)
    requires FitUints(ws, ns)
    ensures DecUints(ws, EncUints(ws, ns) + rest) == Got(ns, rest)
  {
    if ws == [] {
      assert [] + rest == rest;
    } else {
      var after := EncUints(ws[1..], ns[1..]) + rest;
      Assoc(EncUint(ws[0], ns[0]), EncUints(ws[1..], ns[1..]), rest);
      UintExact(ws[0], EncUints(ws, ns) + rest, ns[0], after);
      UintsDecode(ws[1..], ns[1..], rest);
      assert ns == [ns[0]] + ns[1..];
    }
  }

  lemma {:induction false} UintsEncode(ws: seq<nat>, s: seq<Byte>)
    requires DecUints(ws, s).Got?
    ensures var d := DecUints(ws, s);
            FitUints(ws, d.value) && s == EncUints(ws, d.value) + d.rest
  {
    if ws != [] {
      var first := DecUint(ws[0], s);
      UintExact(ws[0], s, first.value, first.rest);
      UintsEncode(ws[1..], first.rest);
      var d := DecUints(ws, s);
      assert d.value[1..] == DecUints(ws[1..], first.rest).value;
      Assoc(EncUint(ws[0], first.value), EncUints(ws[1..], d.value[1..]), d.rest);
    }
  }

  lemma {:induction false} UintsExact(ws: seq<nat>, s: seq<Byte>, ns: seq<nat>, rest: seq<Byte>)
    ensures DecUints(ws, s) == Got(ns, rest) <==> FitUints(ws, ns) && s == EncUints(ws, ns) + rest
  {
    if DecUints(ws, s).Got? {
      UintsEncode(ws, s);
    }
    if FitUints(ws, ns) {
      UintsDecode(ws, ns, rest);
    }
  }
}
