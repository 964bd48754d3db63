/** How evenly the fold spreads the raw values of a signed type: DeepState_IntInRange and its like. */
module SignedReduction {
  import opened Arithmetic
  import opened CIntegers
  import opened Counting
  import opened RangeReduction

  lemma CountFirst(lo: int, hi: int, p: int -> bool)
    requires lo < hi
    ensures Count(lo, hi, p) == (if p(lo) then 1 else 0) + Count(lo + 1, hi, p)
  {
    CountSplit(lo, lo + 1, hi, p);
    assert Count(lo, lo, p) == 0;
  }

  /** Counting downwards from zero. */
  lemma {:induction false} CountMirror(a: int, b: int, p: int -> bool, q: int -> bool)
    requires a <= b
    requires forall x | a <= x < b :: p(-x) == q(x)
    ensures Count(1 - b, 1 - a, p) == Count(a, b, q)
    decreases b - a
  {
    if a < b {
      CountMirror(a, b - 1, p, q);
      CountFirst(1 - b, 1 - a, p);
      assert p(-(b - 1)) == q(b - 1);
    }
  }

  // ----- Residue classes of magnitudes, over the values -m .. m - 1 -----

  /** The members of a residue class by magnitude, where -m counts as 0. */
  function Class(m: int, s: nat, r: int): int -> bool
    requires s > 0
  {
    x => (if x >= 0 then x else if x == -m then 0 else -x) % s == r
  }

  function Members(s: nat, r: int): int -> bool
    requires s > 0
  {
    x => x % s == r
  }

  function ClassSize(m: int, s: nat, r: int): nat
    requires m >= 0 && s > 0
  {
    m / s + if r < m % s then 1 else 0
  }

  lemma UpperPart(m: int, s: nat, r: int, lo: nat, hi: nat)
    requires s > 0 && lo <= hi
    ensures Count(lo, hi, Class(m, s, r)) == Count(lo, hi, Members(s, r))
  {
    CountSame(lo, hi, Class(m, s, r), Members(s, r));
  }

  lemma LowerPart(m: int, s: nat, r: int, lo: int, hi: int)
    requires s > 0 && -m < lo <= hi <= 0
    ensures Count(lo, hi, Class(m, s, r)) == Count(1 - hi, 1 - lo, Members(s, r))
  {
    var p, q := Class(m, s, r), Members(s, r);
    forall x | 1 - hi <= x < 1 - lo ensures p(-x) == q(x) {
      assert -x < 0 && -x != -m;
    }
    CountMirror(1 - hi, 1 - lo, p, q);
  }

  lemma MembersBelow(m: int, s: nat, r: int)
    requires m >= 0 && 0 <= r < s
    ensures Count(0, m, Members(s, r)) == ClassSize(m, s, r)
  {
    ResidueCount(m, s, r);
    CountSame(0, m, Members(s, r), x => x % s == r);
  }

  lemma MembersBlock(start: nat, s: nat, r: int)
    requires 0 <= r < s
    ensures Count(start, start + s, Members(s, r)) == 1
  {
    OneOfEachResidue(start, s, r);
    CountSame(start, start + s, Members(s, r), x => x % s == r);
  }

  /** Members of the class of r in a stretch no longer than s: from lo on, lo + (r - lo) mod s is the first. */
  function InWindow(lo: int, hi: int, s: nat, r: int): (c: nat)
    requires s > 0
    ensures c <= 1
  {
    if (r - lo) % s < hi - lo then 1 else 0
  }

  lemma FirstMember(lo: int, s: nat, r: int)
    requires 0 <= r < s
    ensures (lo + (r - lo) % s) % s == r
  {
    var q, e := (r - lo) / s, (r - lo) % s;
    assert r - lo == s * q + e;
    assert (-q) * s == -(s * q);
    DivModUnique(lo + e, s, -q, r);
  }

  lemma SameResidue(x: int, y: int, s: nat)
    requires s > 0 && x % s == y % s && -(s as int) < x - y < s
    ensures x == y
  {
    var p, q := x / s, y / s;
    assert x == s * p + x % s && y == s * q + y % s;
    assert (p - q) * s == s * p - s * q;
    SmallMultiple(p - q, s);
  }

  lemma MembersWindow(lo: int, hi: int, s: nat, r: int)
    requires 0 <= r < s && lo <= hi <= lo + s
    ensures Count(lo, hi, Members(s, r)) == InWindow(lo, hi, s, r)
  {
    var p, first := Members(s, r), lo + (r - lo) % s;
    FirstMember(lo, s, r);
    forall x | lo <= x < hi ensures p(x) <==> x == first {
      if p(x) { SameResidue(x, first, s); }
    }
    if first < hi {
      CountOne(lo, hi, p, first);
    } else {
      CountNone(lo, hi, p);
    }
  }

  /** A stretch below s holds the member r alone, if that. */
  lemma MembersSmall(lo: nat, hi: nat, s: nat, r: int)
    requires 0 <= r < s && lo <= hi <= s
    ensures Count(lo, hi, Members(s, r)) == if lo <= r < hi then 1 else 0
  {
    var p := Members(s, r);
    forall x | lo <= x < hi ensures p(x) <==> x == r {
      DivModSmall(x, s);
    }
    if lo <= r < hi {
      CountOne(lo, hi, p, r);
    } else {
      CountNone(lo, hi, p);
    }
  }

  /** Both halves of the type hold equally many members of a class. */
  lemma Halves(m: int, s: nat, r: int)
    requires m >= 1 && 0 <= r < s
    ensures Count(-m, 0, Class(m, s, r)) == ClassSize(m, s, r)
    ensures Count(0, m, Class(m, s, r)) == ClassSize(m, s, r)
  {
    var p, q := Class(m, s, r), Members(s, r);
    UpperPart(m, s, r, 0, m);
    MembersBelow(m, s, r);
    CountFirst(-m, 0, p);
    LowerPart(m, s, r, 1 - m, 0);
    CountFirst(0, m, q);
    DivModSmall(0, s);
  }

  /** Members of a class in the block low .. low + s - 1, by where the block lies. */
  function InBlock(m: int, s: nat, low: int, r: int): (c: nat)
    requires 0 <= r < s
    ensures c <= 2 && (low >= 0 ==> c == 1)
  {
    if low >= 0 then 1
    else if low + s > 0 then (if 1 <= r <= -low then 1 else 0) + (if r < low + s then 1 else 0)
    else if low > -m then 1
    else (if r == 0 then 1 else 0) + (if r == m % s then 0 else 1)
  }

  lemma BlockCount(m: int, s: nat, low: int, r: int)
    requires 0 <= r < s < m && -m <= low && low + s <= m
    ensures Count(low, low + s, Class(m, s, r)) == InBlock(m, s, low, r)
  {
    var p, q := Class(m, s, r), Members(s, r);
    if low >= 0 {
      UpperPart(m, s, r, low, low + s);
      MembersBlock(low, s, r);
    } else if low + s > 0 {
      CountSplit(low, 0, low + s, p);
      LowerPart(m, s, r, low, 0);
      MembersSmall(1, 1 - low, s, r);
      UpperPart(m, s, r, 0, low + s);
      MembersSmall(0, low + s, s, r);
    } else if low > -m {
      LowerPart(m, s, r, low, low + s);
      MembersBlock(1 - low - s, s, r);
    } else {
      LowestBlock(m, s, r);
    }
  }

  lemma LowestBlock(m: int, s: nat, r: int)
    requires 0 <= r < s < m
    ensures Count(-m, s - m, Class(m, s, r)) == (if r == 0 then 1 else 0) + (if r == m % s then 0 else 1)
  {
    var p, q := Class(m, s, r), Members(s, r);
    CountFirst(-m, s - m, p);
    DivModSmall(0, s);
    LowerPart(m, s, r, 1 - m, s - m);
    MembersBlock(m - s + 1, s, r);
    CountSplit(m - s + 1, m, m + 1, q);
    assert Count(m, m, q) == 0;
  }

  // ----- The fold -----

  /** How many raw values of the type the fold sends to v. */
  ghost function Sources(t: CType, low: int, high: int, v: int): nat
    requires t.Holds(low) && t.Holds(high) && low <= high
  {
    t.Span();
    Count(t.Min(), t.Max() + 1, Hits(t, low, high, v))
  }

  function Hits(t: CType, low: int, high: int, v: int): int -> bool
    requires t.Holds(low) && t.Holds(high) && low <= high
  {
    x => FoldMap(t, low, high)(x) == v
  }

  lemma HitsFold(t: CType, low: int, high: int, v: int, x: int)
    requires t.Holds(low) && t.Holds(high) && low <= high && t.Holds(x)
    ensures Hits(t, low, high, v)(x) <==> Fold(t, low, high, x) == v
  {
    assert FoldMap(t, low, high)(x) == Fold(t, low, high, x);
  }

  lemma OutsideHits(t: CType, low: int, high: int, v: int, x: int)
    requires t.signed && t.Holds(low) && t.Holds(high) && low <= v <= high
    requires t.Holds(x) && !(low <= x <= high)
    ensures Divisor(t, low, high) > 0
    ensures Hits(t, low, high, v)(x) == Class(Pow2(t.bits - 1), Divisor(t, low, high), v - low)(x)
  {
    DivisorFits(t, low, high, x);
    HitsFold(t, low, high, v, x);
    assert Fold(t, low, high, x) == low + Magnitude(t, x) % Divisor(t, low, high);
    SameClass(Pow2(t.bits - 1), Divisor(t, low, high), v - low, x, Magnitude(t, x));
  }

  lemma SameClass(m: int, s: nat, r: int, x: int, magnitude: nat)
    requires s > 0 && magnitude == if x >= 0 then x else if x == -m then 0 else -x
    ensures Class(m, s, r)(x) <==> magnitude % s == r
  {
  }

  /** Two conditions that agree outside an interval, inside which the first holds of one value alone. */
  lemma CountAround(lo: int, low: int, high: int, end: int, p: int -> bool, c: int -> bool, v: int)
    requires lo <= low <= v <= high < end
    requires forall x | lo <= x < end && !(low <= x <= high) :: p(x) == c(x)
    requires forall x | low <= x <= high :: p(x) <==> x == v
    ensures Count(lo, end, p) == Count(lo, low, c) + 1 + Count(high + 1, end, c)
  {
    CountSplit(lo, low, end, p);
    CountSplit(low, high + 1, end, p);
    CountOne(low, high + 1, p, v);
    CountSame(lo, low, p, c);
    CountSame(high + 1, end, p, c);
  }

  /** Every value has itself as a source, and beyond that the members of its class outside the interval. */
  lemma SourcesSplit(t: CType, low: int, high: int, v: int)
    requires t.signed && t.Holds(low) && t.Holds(high) && low <= v <= high && Divisor(t, low, high) > 0
    ensures var c := Class(Pow2(t.bits - 1), Divisor(t, low, high), v - low);
            Sources(t, low, high, v) == Count(t.Min(), low, c) + 1 + Count(high + 1, t.Max() + 1, c)
  {
    var c, p := Class(Pow2(t.bits - 1), Divisor(t, low, high), v - low), Hits(t, low, high, v);
    forall x | t.Holds(x) && !(low <= x <= high) ensures p(x) == c(x) {
      OutsideHits(t, low, high, v, x);
    }
    forall x | low <= x <= high ensures p(x) <==> x == v {
      HitsFold(t, low, high, v, x);
    }
    CountAround(t.Min(), low, high, t.Max() + 1, p, c, v);
  }

  /** The members of a class outside a block and inside it are those of both halves. */
  lemma OutsideBlock(m: int, s: nat, low: int, r: int)
    requires 0 <= r < s < m && -m <= low && low + s <= m
    ensures Count(-m, low, Class(m, s, r)) + InBlock(m, s, low, r) + Count(low + s, m, Class(m, s, r))
         == 2 * ClassSize(m, s, r)
  {
    var c := Class(m, s, r);
    Halves(m, s, r);
    BlockCount(m, s, low, r);
    CountSplit(-m, 0, m, c);
    CountSplit(-m, low, m, c);
    CountSplit(low, low + s, m, c);
  }

  /**
   * Where the type can hold the width S, each v has exactly twice as many raw values as there are
   * x < 2^(bits-1) with x mod S == v - low, and one more or one less where the interval, all of
   * whose values stay, holds none or two members of the class instead of one.
   */
  lemma SignedPreimages(t: CType, low: int, high: int, v: int)
    requires t.signed && t.Holds(low) && t.Holds(high) && low <= v <= high && Width(low, high) <= t.Max()
    ensures var m, s, r := Pow2(t.bits - 1), Width(low, high), v - low;
            && Sources(t, low, high, v) + InBlock(m, s, low, r) == 2 * ClassSize(m, s, r) + 1
            && -1 <= Sources(t, low, high, v) - 2 * ClassSize(m, s, r) <= 1
            && (low >= 0 ==> Sources(t, low, high, v) == 2 * ClassSize(m, s, r))
  {
    var m, s, r := Pow2(t.bits - 1), Width(low, high), v - low;
    SourcesSplit(t, low, high, v);
    OutsideBlock(m, s, low, r);
  }

  /**
   * Where it cannot, D being 2^bits - S: a value at least D above low has itself as its only raw
   * value. Any other has one more for each side of the interval that holds a member of its class
   * modulo D by magnitude, and low has the most negative value too where that lies outside.
   */
  lemma WideSignedPreimages(t: CType, low: int, high: int, v: int)
    requires t.signed && t.Holds(low) && t.Holds(high) && low <= v <= high && Width(low, high) > t.Max()
    ensures var m, d, r := Pow2(t.bits - 1), t.Modulus() - Width(low, high), v - low;
            && (r >= d ==> Sources(t, low, high, v) == 1)
            && (0 <= r < d ==>
                  Sources(t, low, high, v)
                  == 1 + (if v == low && low > t.Min() then 1 else 0) + InWindow(1 - low, m, d, r)
                     + InWindow(high + 1, m, d, r))
            && 1 <= Sources(t, low, high, v) <= if v == low then 4 else 3
  {
    var m, d, r := Pow2(t.bits - 1), t.Modulus() - Width(low, high), v - low;
    t.Span();
    if d == 0 {
      OnlyItself(t, low, high, v);
    } else {
      SourcesSplit(t, low, high, v);
      if r < d {
        BelowWindow(m, d, low, r);
        AboveWindow(m, d, high, r);
      } else {
        OutsideNone(m, d, low, high, r);
      }
    }
  }

  lemma OnlyItself(t: CType, low: int, high: int, v: int)
    requires low == t.Min() && high == t.Max() && low <= v <= high
    ensures Sources(t, low, high, v) == 1
  {
    forall x | low <= x <= high ensures Hits(t, low, high, v)(x) <==> x == v {
      HitsFold(t, low, high, v, x);
    }
    CountOne(t.Min(), t.Max() + 1, Hits(t, low, high, v), v);
  }

  lemma AboveWindow(m: int, d: nat, high: int, r: int)
    requires 0 <= r < d && -1 <= high < m <= high + 1 + d
    ensures Count(high + 1, m, Class(m, d, r)) == InWindow(high + 1, m, d, r)
  {
    UpperPart(m, d, r, high + 1, m);
    MembersWindow(high + 1, m, d, r);
  }

  lemma OutsideNone(m: int, d: nat, low: int, high: int, r: int)
    requires d > 0 && -m <= low <= high < m && r >= d
    ensures Count(-m, low, Class(m, d, r)) == 0 == Count(high + 1, m, Class(m, d, r))
  {
    CountNone(-m, low, Class(m, d, r));
    CountNone(high + 1, m, Class(m, d, r));
  }

  lemma BelowWindow(m: int, d: nat, low: int, r: int)
    requires 0 <= r < d && -m <= low <= 0 && m + low <= d
    ensures Count(-m, low, Class(m, d, r)) == (if r == 0 && low > -m then 1 else 0) + InWindow(1 - low, m, d, r)
  {
    if low > -m {
      CountFirst(-m, low, Class(m, d, r));
      DivModSmall(0, d);
      LowerPart(m, d, r, 1 - m, low);
      MembersWindow(1 - low, m, d, r);
    }
  }
}
