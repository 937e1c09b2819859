/**
The norm bound over the fields PINE is instantiated with. Whatever the constructor accepts, a circuit
that runs holds gradients to the bound. Over the 32-bit and the 64-bit field the constructor also
accepts bounds so large that no circuit runs and nothing can be encoded; over the 128-bit field it
accepts none of these.
*/
module PineFields {
  import opened Wrappers
  import opened Arithmetic
  import opened PrimeField
  import opened PineParams
  import opened PineCircuit
  import opened PineSoundness
  import opened PineNorm
  import opened PineEncode

  // ---- Powers of two

  lemma {:induction false} Pow2Le(m: nat, n: nat)
    requires m <= n
    ensures Pow2(m) <= Pow2(n)
  {
    if m < n {
      Pow2Le(m, n - 1);
    }
  }

  lemma {:induction false} Pow2Sum(m: nat, n: nat)
    ensures Pow2(m + n) == Pow2(m) * Pow2(n)
  {
    if m > 0 {
      Pow2Sum(m - 1, n);
      assert Pow2(m + n) == 2 * Pow2((m - 1) + n);
    }
  }

  lemma Pow2Values()
    ensures Pow2(30) == 0x4000_0000 && Pow2(31) == 0x8000_0000 && Pow2(32) == 0x1_0000_0000
    ensures Pow2(62) == 0x4000_0000_0000_0000 && Pow2(63) == 0x8000_0000_0000_0000
    ensures Pow2(64) == 0x1_0000_0000_0000_0000
  {
    assert Pow2(10) == 1024;
    Pow2Sum(10, 10);
    Pow2Sum(20, 10);
    Pow2Sum(30, 32);
  }

  lemma BitsBetween(x: nat, n: nat)
    requires n > 0 && Pow2(n - 1) <= x < Pow2(n)
    ensures Bits(x) == n
  {
    BitsTight(x);
    if Bits(x) < n {
      Pow2Le(Bits(x), n - 1);
    } else if Bits(x) > n {
      Pow2Le(n, Bits(x) - 1);
    }
  }

  lemma {:induction false} BitsAtMost(x: nat, n: nat)
    requires x > 0 && x < Pow2(n)
    ensures Bits(x) <= n
  {
    BitsTight(x);
    if Bits(x) > n {
      Pow2Le(n, Bits(x) - 1);
    }
  }

  // ---- Which bounds the field takes

  /** Over a field of almost `n` bits, the coder takes the bounds below half of it, the ones that do not wrap. */
  lemma FitsBelowTop(p: int, t: PineType, n: nat)
    requires t.Valid(p) && n >= 2 && 3 * Pow2(n - 2) <= p < Pow2(n)
    ensures BitsFit(p, t.sqNormBits) <==> t.sqNormBound < Pow2(n - 1)
    ensures NoRangeWrap(p, t) <==> BitsFit(p, t.sqNormBits) || t.sqNormBound == p - 1
  {
    var b := t.sqNormBound;
    if b < Pow2(n - 1) {
      BitsAtMost(b, n - 1);
      Pow2Le(t.sqNormBits, n - 1);
      if t.sqNormBits == n - 1 {
        BitsTight(b);
      } else {
        Pow2Le(t.sqNormBits, n - 2);
      }
    } else {
      BitsBetween(b, n);
    }
  }

  /** Over a field of far more than 64 bits, the coder takes every 64-bit bound. */
  lemma FitsAnyBound(p: int, t: PineType)
    requires t.Valid(p) && 4 * U64_MAX < p && t.sqNormBound <= U64_MAX
    ensures BitsFit(p, t.sqNormBits) && NoRangeWrap(p, t)
  {
    LargeModulusNoWrap(p, t);
    BitsTight(t.sqNormBound);
    assert Pow2(t.sqNormBits) == 2 * Pow2(t.sqNormBits - 1);
  }

  lemma SquareBelow(x: nat, root: nat, limit: nat)
    requires root * root < limit <= (root + 1) * (root + 1)
    ensures x * x < limit <==> x <= root
  {
    if x <= root {
      MulLe(x, root, x);
      MulLe(x, root, root);
    } else {
      MulLe(root + 1, x, x);
      MulLe(root + 1, x, root + 1);
    }
  }

  /** The least norm bound the circuits over a field cannot handle; the constructor reaches it over two of them. */
  function NormBoundLimit(kind: FieldKind): nat {
    match kind
    case Field32 => 46_341
    case Field64 => 3_037_000_500
    case Field128 => 4_294_967_296
  }

  lemma LimitSquares(x: nat)
    ensures x * x < 0x8000_0000 <==> x < NormBoundLimit(Field32)
    ensures x * x < 0x8000_0000_0000_0000 <==> x < NormBoundLimit(Field64)
    ensures x * x <= U64_MAX <==> x < NormBoundLimit(Field128)
  {
    SquareBelow(x, 46_340, 0x8000_0000);
    SquareBelow(x, 3_037_000_499, 0x8000_0000_0000_0000);
    SquareBelow(x, 4_294_967_295, 0x1_0000_0000_0000_0000);
  }

  /** The parameters a caller may pass. */
  ghost predicate Accepts(param: PineParam, kind: FieldKind, intMax: nat, wrTestBound: nat) {
    && param.chunkLen > 0 && param.chunkLenSqNormEqual > 0 && wrTestBound > 0
    && New(param, Modulus(kind), intMax, wrTestBound).Ok?
  }

  ghost function Built(param: PineParam, kind: FieldKind, intMax: nat, wrTestBound: nat): (pine: Pine)
    requires Accepts(param, kind, intMax, wrTestBound)
    ensures pine.Valid(Modulus(kind)) && pine.flp.dimension == param.dimension
    ensures pine.flp.sqNormBound == param.normBound * param.normBound <= U64_MAX
    ensures pine.flp.wrTestBound == wrTestBound
    ensures pine.flp.numWrTests == param.numWrTests && pine.flp.numWrSuccesses == param.numWrSuccesses
  {
    NewValid(param, Modulus(kind), intMax, wrTestBound);
    New(param, Modulus(kind), intMax, wrTestBound).value
  }

  /**
  Over each field, of every accepted parameter set: the bits of the squared norm can be coded exactly
  below the limit, and these are the parameter sets for which the range check is sound.
  */
  lemma NormBoundFits(param: PineParam, kind: FieldKind, intMax: nat, wrTestBound: nat)
    requires Accepts(param, kind, intMax, wrTestBound)
    ensures var t := Built(param, kind, intMax, wrTestBound).flp;
            && (BitsFit(Modulus(kind), t.sqNormBits) <==> param.normBound < NormBoundLimit(kind))
            && (NoRangeWrap(Modulus(kind), t) <==> param.normBound < NormBoundLimit(kind))
            && (kind.Field128? ==> param.normBound < NormBoundLimit(kind))
  {
    var t := Built(param, kind, intMax, wrTestBound).flp;
    Pow2Values();
    LimitSquares(param.normBound);
    NotTop(param.normBound);
    match kind
    case Field32 => FitsBelowTop(Modulus(Field32), t, 32);
    case Field64 => FitsBelowTop(Modulus(Field64), t, 64);
    case Field128 => FitsAnyBound(Modulus(Field128), t);
  }

  /** One less than a modulus is not a square, over the two smaller fields. */
  lemma NotTop(x: nat)
    ensures x * x != Modulus(Field32) - 1 && x * x != Modulus(Field64) - 1
  {
    SquareBelow(x, 65_527, Modulus(Field32) - 1);
    SquareBelow(x, 65_527, Modulus(Field32));
    SquareBelow(x, 4_294_967_295, Modulus(Field64) - 1);
    SquareBelow(x, 4_294_967_295, Modulus(Field64));
  }

  /**
  Over each field, a gradient is encoded exactly when the norm bound is below the limit, its
  coordinates fit and its squared norm, modulo the field, is at most the squared bound.
  */
  lemma GradientExact(param: PineParam, kind: FieldKind, intMax: nat, wrTestBound: nat, xs: seq<int>)
    requires Accepts(param, kind, intMax, wrTestBound)
    ensures EncodeGradient(Modulus(kind), intMax, Built(param, kind, intMax, wrTestBound).flp, xs).Ok? <==>
              && param.normBound < NormBoundLimit(kind)
              && |xs| == param.dimension && CoordsFit(intMax, xs)
              && SqSum(SaturatedAll(xs)) % Modulus(kind) <= param.normBound * param.normBound
  {
    NormBoundFits(param, kind, intMax, wrTestBound);
    EncodeGradientExact(Modulus(kind), intMax, Built(param, kind, intMax, wrTestBound).flp, xs);
  }

  // ---- The circuits

  /** The bound derived for the wraparound tests is a power of two of the order of the norm bound. */
  lemma DerivedBound(normBound: nat)
    requires normBound > 0
    ensures var b := WrTestBoundOf(normBound);
            0 < b <= 20 * normBound && Pow2(Bits(2 * b - 1)) == 2 * b
  {
    var x := (87 * normBound + 9) / 10;
    BitsTight(x);
    var b := WrTestBoundOf(normBound);
    assert b == Pow2(Bits(x)) == 2 * Pow2(Bits(x) - 1);
    BitsBetween(2 * b - 1, Bits(x) + 1);
  }

  /** It is the least power of two that exceeds 8.7 times the norm bound by at least one. */
  lemma DerivedExact(normBound: nat)
    requires normBound > 0
    ensures exists k: nat :: Pow2(k) == WrTestBoundOf(normBound)
    ensures forall k: nat :: 87 * normBound <= 10 * (Pow2(k) - 1) <==> WrTestBoundOf(normBound) <= Pow2(k)
  {
    var x := (87 * normBound + 9) / 10;
    BitsTight(x);
    assert Pow2(Bits(x)) == WrTestBoundOf(normBound);
    forall k: nat ensures x < Pow2(k) <==> Pow2(Bits(x)) <= Pow2(k) {
      if k < Bits(x) { Pow2Le(k, Bits(x) - 1); } else { Pow2Le(Bits(x), k); }
      assert Pow2(Bits(x)) == 2 * Pow2(Bits(x) - 1);
    }
  }

  /** With the derived bound, the wraparound checks can always be coded. */
  lemma DerivedFits(param: PineParam, kind: FieldKind, intMax: nat)
    requires param.normBound > 0 && Accepts(param, kind, intMax, WrTestBoundOf(param.normBound))
    ensures var t := Built(param, kind, intMax, WrTestBoundOf(param.normBound)).flp;
            Pow2(t.wrTestBits) == 2 * t.wrTestBound <= Modulus(kind)
  {
    var b := WrTestBoundOf(param.normBound);
    var t := Built(param, kind, intMax, b).flp;
    DerivedBound(param.normBound);
    BelowModulus(param.normBound, kind);
  }

  lemma BelowModulus(normBound: nat, kind: FieldKind)
    requires normBound * normBound < Modulus(kind) && normBound * normBound <= U64_MAX
    ensures 40 * normBound <= Modulus(kind)
  {
    LimitSquares(normBound);
    SquareBelow(normBound, 65_535, 0x1_0000_0000);
  }

  /**
  Over each field, with the derived bound for the wraparound tests: either circuit runs exactly when
  the norm bound is below the limit, the main one if the required number of successes is an integer
  of the field; from the limit on both fail on every input.
  */
  lemma CircuitsRunExactly(param: PineParam, kind: FieldKind, intMax: nat)
    requires param.normBound > 0 && Accepts(param, kind, intMax, WrTestBoundOf(param.normBound))
    ensures var pine := Built(param, kind, intMax, WrTestBoundOf(param.normBound));
            && (Runs(Modulus(kind), intMax, pine.flp) <==>
                  param.normBound < NormBoundLimit(kind) && param.numWrSuccesses <= intMax)
            && (BitsFit(Modulus(kind), pine.flpSqNormEqual.sqNormBits) <==> param.normBound < NormBoundLimit(kind))
  {
    NormBoundFits(param, kind, intMax, WrTestBoundOf(param.normBound));
    DerivedFits(param, kind, intMax);
  }

  /** The joint randomness for which the main circuit returns zero. */
  ghost function Passing(p: int, intMax: nat, t: PineType, meas: seq<int>): set<(int, int, int)>
    requires p > 0 && Layout(t, meas)
  {
    set a | a in Accepting(p, t, meas)
            && MainOutput(p, intMax, t, MulGadget(p), meas, [a.0, a.1, a.2], 1) == Ok(0)
  }

  /**
  Over each field, under every parameter set the constructor accepts: a gradient whose squared norm
  exceeds the bound does not pass the norm equality circuit, or passes the main circuit for a
  vanishing share of the joint randomness.
  */
  lemma NormHeld(param: PineParam, kind: FieldKind, intMax: nat, wrTestBound: nat, meas: seq<int>, m: nat)
    requires Accepts(param, kind, intMax, wrTestBound) && Prime(Modulus(kind))
    requires Layout(Built(param, kind, intMax, wrTestBound).flp, meas) && Canonical(Modulus(kind), meas)
    requires var t := Built(param, kind, intMax, wrTestBound).flp;
             && t.bitCheckedLen <= m + 1 && t.numWrTests <= m + 1
             && SqNorm(Modulus(kind), Gradient(t, meas)) > param.normBound * param.normBound
    ensures var (p, pine) := (Modulus(kind), Built(param, kind, intMax, wrTestBound));
            || SqNormOutput(p, pine.flpSqNormEqual, SqGadget(p), meas) != Ok(0)
            || |Passing(p, intMax, pine.flp, meas)| <= (m + 3) * p * p
  {
    var p, pine := Modulus(kind), Built(param, kind, intMax, wrTestBound);
    NormBoundFits(param, kind, intMax, wrTestBound);
    if SqNormOutput(p, pine.flpSqNormEqual, SqGadget(p), meas) == Ok(0) {
      LargeNormRejected(p, pine.flp, pine.flpSqNormEqual, meas, m);
      SubsetCard(Passing(p, intMax, pine.flp, meas), Accepting(p, pine.flp, meas));
    }
  }

  // ---- Bounds under which nothing can be encoded

  /** The derived bound is the power of two next above 8.7 times the norm bound. */
  lemma WrTestBoundIs(normBound: nat, n: nat)
    requires n > 0 && Pow2(n - 1) < (87 * normBound + 9) / 10 + 1 <= Pow2(n)
    ensures WrTestBoundOf(normBound) == Pow2(n)
  {
    BitsBetween((87 * normBound + 9) / 10, n);
  }

  lemma Constructed(param: PineParam, p: nat, intMax: nat, wrTestBound: nat)
    requires param.chunkLen > 0 && param.chunkLenSqNormEqual > 0 && wrTestBound > 0
    requires param.numWrSuccesses <= param.numWrTests && param.dimension > 0 && param.fracBits < 128
    requires 0 < param.normBound <= p / 2 && param.normBound <= intMax
    requires param.normBound * param.normBound < p && param.normBound * param.normBound <= intMax
    requires param.normBound * param.normBound <= U64_MAX
    requires wrTestBound <= intMax && wrTestBound < p
    ensures New(param, p, intMax, wrTestBound).Ok?
  {
  }

  /** One coordinate, one test. */
  function Smallest(normBound: nat): PineParam {
    PineParam(normBound, 1, 0, 1, 1, 2, 1, 1, 1)
  }

  /** The constructor accepts a norm bound under which no gradient at all is encoded and both circuits fail. */
  ghost predicate AcceptedButUnusable(kind: FieldKind, intMax: nat, normBound: nat) {
    && Accepts(Smallest(normBound), kind, intMax, WrTestBoundOf(normBound))
    && var pine := Built(Smallest(normBound), kind, intMax, WrTestBoundOf(normBound));
       && (forall xs :: EncodeGradient(Modulus(kind), intMax, pine.flp, xs).Err?)
       && !Runs(Modulus(kind), intMax, pine.flp)
       && !BitsFit(Modulus(kind), pine.flpSqNormEqual.sqNormBits)
  }

  /** These are the bounds from the limit on whose square is below the modulus and within 64 bits and the integers. */
  lemma UnusableExactly(kind: FieldKind, intMax: nat, normBound: nat)
    ensures AcceptedButUnusable(kind, intMax, normBound) <==>
              && NormBoundLimit(kind) <= normBound && normBound * normBound <= U64_MAX
              && normBound * normBound < Modulus(kind) && normBound * normBound <= intMax
  {
    if AcceptedButUnusable(kind, intMax, normBound) {
      NormBoundFits(Smallest(normBound), kind, intMax, WrTestBoundOf(normBound));
    } else if NormBoundLimit(kind) <= normBound && normBound * normBound <= U64_MAX
              && normBound * normBound < Modulus(kind) && normBound * normBound <= intMax {
      UnusableIf(kind, intMax, normBound);
    }
  }

  lemma UnusableIf(kind: FieldKind, intMax: nat, normBound: nat)
    requires NormBoundLimit(kind) <= normBound && normBound * normBound <= U64_MAX
    requires normBound * normBound < Modulus(kind) && normBound * normBound <= intMax
    ensures AcceptedButUnusable(kind, intMax, normBound)
  {
    var param := Smallest(normBound);
    DerivedBound(normBound);
    MulLe(40, normBound, normBound);
    Constructed(param, Modulus(kind), intMax, WrTestBoundOf(normBound));
    CircuitsRunExactly(param, kind, intMax);
    var pine := Built(param, kind, intMax, WrTestBoundOf(normBound));
    forall xs ensures EncodeGradient(Modulus(kind), intMax, pine.flp, xs).Err? {
      GradientExact(param, kind, intMax, WrTestBoundOf(normBound), xs);
    }
  }

  /** The least of them over the two smaller fields; over the largest there is none. */
  lemma LeastUnusable(intMax: nat, normBound: nat)
    ensures AcceptedButUnusable(Field32, 0xFFFF_FFFF, 46_341)
    ensures AcceptedButUnusable(Field64, U64_MAX, 3_037_000_500)
    ensures !AcceptedButUnusable(Field128, intMax, normBound)
  {
    UnusableExactly(Field32, 0xFFFF_FFFF, 46_341);
    UnusableExactly(Field64, U64_MAX, 3_037_000_500);
    UnusableExactly(Field128, intMax, normBound);
    LimitSquares(normBound);
  }
}
