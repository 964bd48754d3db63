/**
 * Reduction of a raw fuzzer value into an interval: the functions generated by
 * DEEPSTATE_MAKE_SYMBOLIC_RANGE (inst/include/DeepState.h:349-376), for every width and
 * signedness. Signed arithmetic that overflows is taken to wrap modulo 2^bits.
 */
module RangeReduction {
  import opened Arithmetic
  import opened CIntegers
  import opened Counting

  // ----- What the macro computes, in unbounded integers -----

  /** Number of values in [low, high]. */
  function Width(low: int, high: int): int {
    high - low + 1
  }

  /** |x|, except that the most negative value, which has no negation in its type, counts as 0. */
  function Magnitude(t: CType, x: int): nat
    requires t.Holds(x)
  {
    if x >= 0 then x else if x == t.Min() then 0 else -x
  }

  /** The width where the type can hold it, and its distance to 2^bits where it cannot. */
  function Divisor(t: CType, low: int, high: int): int {
    if Width(low, high) <= t.Max() then Width(low, high) else t.Modulus() - Width(low, high)
  }

  /** The fold of x into [low, high]: in-range values stay, others are reduced modulo the divisor. */
  function Fold(t: CType, low: int, high: int, x: int): (v: int)
    requires t.Holds(low) && t.Holds(high) && t.Holds(x) && low <= high
    ensures low <= v <= high
    ensures low <= x <= high ==> v == x
  {
    if low <= x <= high then x else
    DivisorFits(t, low, high, x);
    low + Magnitude(t, x) % Divisor(t, low, high)
  }

  /** The value for bounds in either order. */
  function InRangeValue(t: CType, low: int, high: int, x: int): int
    requires t.Holds(low) && t.Holds(high) && t.Holds(x)
  {
    if low <= high then Fold(t, low, high, x) else Fold(t, high, low, x)
  }

  lemma DivisorFits(t: CType, low: int, high: int, x: int)
    requires t.Holds(low) && t.Holds(high) && t.Holds(x) && low <= high
    requires !(low <= x <= high)
    ensures 1 <= Divisor(t, low, high) <= Width(low, high)
  {
    t.Span();
  }

  // ----- The raw input and the macro itself -----

  /** The raw values DeepState hands out, one per draw: the n-th draw of type t is words(n) as a t. */
  class Tape {
    const words: nat -> int
    var at: nat

    constructor (words: nat -> int)
      ensures this.words == words && at == 0
    {
      this.words := words;
      at := 0;
    }

    method Draw(t: CType) returns (x: int)
      modifies this
      ensures x == t.Wrap(words(old(at))) && at == old(at) + 1
    {
      x := t.Wrap(words(at));
      at := at + 1;
    }

    /** DeepState_<T>InRange outside symbolic execution. A one-point interval draws nothing. */
    method InRange(t: CType, low: int, high: int) returns (r: int)
      requires t.Holds(low) && t.Holds(high)
      modifies this
      ensures r == InRangeValue(t, low, high, t.Wrap(words(old(at))))
      ensures at == old(at) + if low == high then 0 else 1
      decreases low > high
    {
      if low > high {
        r := InRange(t, high, low);
        return;
      }
      if low == high {
        return low;
      }
      var x := Draw(t);
      if x < low || x > high {
        ghost var raw := x;
        DivisorFits(t, low, high, raw);
        var size := t.Wrap(high - low + 1);
        WrappedSize(t, low, high);
        if x < 0 {
          WrappedNegation(t, x);
          x := t.Wrap(-x);
        }
        if x < 0 {
          x := 0;
        }
        assert x == Magnitude(t, raw);
        RemByWrapped(x, size, Divisor(t, low, high));
        return t.Wrap(low + Rem(x, size));
      }
      return x;
    }
  }

  /** A width too large for a signed type wraps to a negative size of the complementary magnitude. */
  lemma WrappedSize(t: CType, low: int, high: int)
    requires t.Holds(low) && t.Holds(high) && low <= high
    requires Width(low, high) < t.Modulus()
    ensures t.Wrap(Width(low, high)) ==
            if Width(low, high) <= t.Max() then Divisor(t, low, high) else -Divisor(t, low, high)
  {
    t.WrapLemma(Width(low, high));
  }

  lemma WrappedNegation(t: CType, x: int)
    requires t.Holds(x) && x < 0
    ensures t.Wrap(-x) == if x == t.Min() then x else -x
  {
    t.Span();
    t.WrapLemma(-x);
  }

  lemma RemByWrapped(x: nat, size: int, d: int)
    requires d > 0 && (size == d || size == -d)
    ensures Rem(x, size) == x % d
  {
    if size == -d {
      assert x == size * (x / size) + x % size;
      assert size * (x / size) == (-(x / size)) * d;
      DivModUnique(x, d, -(x / size), x % size);
    }
  }

  // ----- Containment -----

  /**
   * For every type, every pair of bounds in either order and every raw value, the most negative
   * one included, the result lies between the bounds; in-range values come back unchanged.
   */
  lemma Containment(t: CType, low: int, high: int, x: int)
    requires t.Holds(low) && t.Holds(high) && t.Holds(x)
    ensures var lo := if low <= high then low else high;
            var hi := if low <= high then high else low;
            var v := InRangeValue(t, low, high, x);
            && lo <= v <= hi && t.Holds(v)
            && (lo <= x <= hi ==> v == x)
            && (!(lo <= x <= hi) ==> Divisor(t, lo, hi) > 0)
  {
    if low <= high {
      if !(low <= x <= high) { DivisorFits(t, low, high, x); }
    } else {
      if !(high <= x <= low) { DivisorFits(t, high, low, x); }
    }
  }

  /** Bounds in the wrong order mean the same interval. */
  lemma BoundsInEitherOrder(t: CType, low: int, high: int, x: int)
    requires t.Holds(low) && t.Holds(high) && t.Holds(x)
    ensures InRangeValue(t, low, high, x) == InRangeValue(t, high, low, x)
  {
  }

  /** |x| as the macro computes it in a type of the given width, where -2^(bits-1) has no negation and counts as 0. */
  function AbsoluteIn(bits: pos, x: int): int {
    if x >= 0 then x else if x == -(Pow2(bits - 1) as int) then 0 else -x
  }

  /**
   * The value in plain arithmetic, for bounds in either order. An out-of-range x gives lo plus |x|
   * modulo S, or modulo 2^bits - S where the type cannot hold S.
   */
  lemma InRangeArithmetic(t: CType, low: int, high: int, x: int)
    requires t.Holds(low) && t.Holds(high) && t.Holds(x)
    ensures var lo, hi := if low <= high then low else high, if low <= high then high else low;
            var s, v := hi - lo + 1, InRangeValue(t, low, high, x);
            var size := if s < Pow2(if t.signed then t.bits - 1 else t.bits) then s else Pow2(t.bits) - s;
            && (lo <= x <= hi ==> v == x)
            && (x < lo || hi < x ==> size > 0 && v - lo == AbsoluteIn(t.bits, x) % size)
  {
    var lo, hi := if low <= high then low else high, if low <= high then high else low;
    if x < lo || hi < x {
      DivisorFits(t, lo, hi, x);
      assert Fold(t, lo, hi, x) == lo + Magnitude(t, x) % Divisor(t, lo, hi);
    }
  }

  /** An index below n is |x| modulo n, whether or not x is in range, and n itself may be too large for the type. */
  lemma IndexIsRemainder(t: CType, n: nat, x: int)
    requires n >= 1 && t.Holds(n - 1) && t.Holds(x)
    ensures InRangeValue(t, 0, n - 1, x) == AbsoluteIn(t.bits, x) % n
  {
    t.Span();
    if 0 <= x <= n - 1 {
      DivModSmall(x, n);
    } else {
      DivisorFits(t, 0, n - 1, x);
      assert Divisor(t, 0, n - 1) == n;
      assert Fold(t, 0, n - 1, x) == Magnitude(t, x) % n;
    }
  }

  /** When size wraps negative, every out-of-range value lands in the lowest 2^bits - width values. */
  lemma WideSignedInterval(t: CType, low: int, high: int, x: int)
    requires t.signed && t.Holds(low) && t.Holds(high) && t.Holds(x) && low <= high
    requires Width(low, high) >= Pow2(t.bits - 1)
    requires !(low <= x <= high)
    ensures t.Wrap(Width(low, high)) < 0
    ensures low <= Fold(t, low, high, x) < low + (t.Modulus() - Width(low, high)) <= high + 1
  {
    t.Span();
    DivisorFits(t, low, high, x);
    t.WrapLemma(Width(low, high));
  }

  // ----- How evenly the unsigned fold spreads raw values -----

  /** The fold as a map on the raw values of an unsigned type. */
  function FoldMap(t: CType, low: int, high: int): int -> int
    requires t.Holds(low) && t.Holds(high) && low <= high
  {
    x => if t.Holds(x) then Fold(t, low, high, x) else low
  }

  lemma FoldOutside(t: CType, low: int, high: int, x: int)
    requires !t.signed && t.Holds(low) && t.Holds(high) && low <= high
    requires t.Holds(x) && !(low <= x <= high)
    ensures Fold(t, low, high, x) == low + x % Width(low, high)
  {
  }

  /** The in-range block holds one member of each residue class, so keeping it changes no count. */
  lemma BlockKeepsCounts(t: CType, low: int, high: int, v: int)
    requires !t.signed && t.Holds(low) && t.Holds(high) && low <= v <= high
    ensures Preimages(t.Modulus(), FoldMap(t, low, high), v)
         == Count(0, t.Modulus(), x => x % Width(low, high) == v - low)
  {
    var n, s, f := t.Modulus(), Width(low, high), FoldMap(t, low, high);
    var hits, members := x => f(x) == v, x => x % s == v - low;
    forall x | 0 <= x < n && !(low <= x <= high) ensures hits(x) == members(x) {
      FoldOutside(t, low, high, x);
    }
    CountOne(low, low + s, hits, v);
    OneOfEachResidue(low, s, v - low);
    CountBlock(0, low, low + s, n, hits, members);
    assert Preimages(n, f, v) == Count(0, n, hits);
  }

  /**
   * Each v in [low, high] comes from exactly as many raw values as there are x < 2^bits with
   * x mod S == v - low, which is floor(2^bits/S), and one more for the lowest 2^bits mod S values.
   */
  lemma UnsignedPreimages(t: CType, low: int, high: int, v: int)
    requires !t.signed && t.Holds(low) && t.Holds(high) && low <= v <= high
    ensures var n, s := t.Modulus(), Width(low, high);
            && Preimages(n, FoldMap(t, low, high), v) == Count(0, n, x => x % s == v - low)
            && Preimages(n, FoldMap(t, low, high), v) == n / s + if v - low < n % s then 1 else 0
  {
    BlockKeepsCounts(t, low, high, v);
    ResidueCount(t.Modulus(), Width(low, high), v - low);
  }

  /**
   * No map from raw values into [low, high] spreads them more evenly: each has a value at least as
   * crowded, and a value at least as sparse, as any value of the fold.
   */
  lemma UnsignedFoldIsOptimal(t: CType, low: int, high: int, g: int -> int) returns (most: int, least: int)
    requires !t.signed && t.Holds(low) && t.Holds(high) && low <= high
    requires forall x | t.Holds(x) :: low <= g(x) <= high
    ensures low <= most <= high && low <= least <= high
    ensures forall w | low <= w <= high ::
              Preimages(t.Modulus(), g, least) <= Preimages(t.Modulus(), FoldMap(t, low, high), w)
              <= Preimages(t.Modulus(), g, most)
  {
    most := SomeCrowded(t.Modulus(), g, low, Width(low, high));
    least := SomeSparse(t.Modulus(), g, low, Width(low, high));
    forall w | low <= w <= high
      ensures Preimages(t.Modulus(), g, least) <= Preimages(t.Modulus(), FoldMap(t, low, high), w)
           <= Preimages(t.Modulus(), g, most)
    {
      UnsignedPreimages(t, low, high, w);
    }
  }

  // ----- The saturating alternative (inst/include/DeepState.h:328-348) -----

  function Saturate(low: int, high: int, x: int): int {
    if x < low then low else if x > high then high else x
  }

  function SaturateMap(low: int, high: int): int -> int {
    x => Saturate(low, high, x)
  }

  /**
   * Saturation agrees with the fold on in-range values and sends everything else to the two ends:
   * low has low + 1 preimages, high has 2^bits - high, and all values between them have one.
   */
  lemma SaturationPreimages(t: CType, low: int, high: int, v: int)
    requires !t.signed && t.Holds(low) && t.Holds(high) && low < high && low <= v <= high
    ensures var n, g := t.Modulus(), SaturateMap(low, high);
            && g(v) == Fold(t, low, high, v)
            && Preimages(n, g, v) == if v == low then low + 1 else if v == high then n - high else 1
  {
    var n, g := t.Modulus(), SaturateMap(low, high);
    var hits := x => g(x) == v;
    assert Preimages(n, g, v) == Count(0, n, hits);
    if v == low {
      CountSplit(0, low + 1, n, hits);
      CountAll(0, low + 1, hits);
      CountNone(low + 1, n, hits);
    } else if v == high {
      CountSplit(0, high, n, hits);
      CountNone(0, high, hits);
      CountAll(high, n, hits);
    } else {
      CountOne(0, n, hits, v);
    }
  }

  /**
   * Worse for fuzzing, exactly: saturation is as even as the fold if and only if both ends of the
   * interval are within ceiling(2^bits/S) of the ends of the type.
   */
  lemma SaturationIsWorse(t: CType, low: int, high: int)
    requires !t.signed && t.Holds(low) && t.Holds(high) && low < high
    ensures var n, g := t.Modulus(), SaturateMap(low, high);
            var c := Ceiling(n, Width(low, high));
            (forall v | low <= v <= high :: Preimages(n, g, v) <= c) <==> low + 1 <= c && n - high <= c
  {
    var n, g := t.Modulus(), SaturateMap(low, high);
    forall v | low <= v <= high
      ensures Preimages(n, g, v) == if v == low then low + 1 else if v == high then n - high else 1
    {
      SaturationPreimages(t, low, high, v);
    }
    CeilingBelow(n, Width(low, high));
    var c := Ceiling(n, Width(low, high));
    assert c >= 1;
    if forall v | low <= v <= high :: Preimages(n, g, v) <= c {
      assert Preimages(n, g, low) <= c && Preimages(n, g, high) <= c;
    }
  }
}
