/**
 * The comparison behind ASSERT_EQ, ASSERT_NE, CHECK_EQ and CHECK_NE: BestType,
 * ExpandedCompareIntegral and Comparer (inst/include/DeepState.hpp:437-557). A failed comparison is
 * repeated byte by byte so that a fuzzer sees how far it got; the repetition must not change the answer.
 */
module ExpandedCompare {
  import opened Arithmetic
  import opened CIntegers
  import opened Options

  /** Types Comparer is instantiated with; bool counts as integral and unsigned for the type traits. */
  datatype ArgType = Bool | Integral(t: CType) | NotIntegral {

    predicate IsUnsigned() {
      Bool? || (Integral? && !t.signed)
    }

    function Bits(): nat {
      if Integral? then t.bits else 8
    }

    /** std::make_unsigned, after the aliases that turn bool into unsigned int. */
    function MadeUnsigned(): ArgType {
      if Integral? then Integral(CType(t.bits, false)) else Integral(UINT)
    }

    /** Conversion of an integer to this type. */
    function Convert(x: int): int {
      if Integral? then t.Wrap(x) else if x != 0 then 1 else 0
    }
  }

  /** What a run of the expansion returns, and the argument of the DeepState_ZeroSink it ended in. */
  datatype Outcome = Outcome(answer: bool, sink: int)

  /** DeepState_ZeroSink always returns 0, which is false. */
  function ZeroSink(k: int): Outcome {
    Outcome(false, k)
  }

  type Predicate = (int, int) -> bool

  /** a & 0xFF and a >> 8, the shift being arithmetic on signed types as gcc and clang do it. */
  function LowByte(a: int): int {
    a % 256
  }

  function Shift(a: int): int {
    a / 256
  }

  /** ExpandedCompareIntegral<T, 8 * left>::Compare. */
  function Compare(a: int, b: int, left: nat, cmp: Predicate): Outcome
    decreases left
  {
    if left == 0 then
      if cmp(LowByte(a), LowByte(b)) then ZeroSink(0) else ZeroSink(100)
    else if cmp(LowByte(a), LowByte(b)) then
      Compare(Shift(a), Shift(b), left - 1, cmp)
    else
      ZeroSink(8 * left)
  }

  function BestType(a: ArgType, b: ArgType): ArgType
    requires !a.NotIntegral? && !b.NotIntegral?
  {
    var ua := if b.IsUnsigned() then a.MadeUnsigned() else a;
    var ub := if a.IsUnsigned() then b.MadeUnsigned() else b;
    if ua.Bits() > ub.Bits() then ua else ub
  }

  /** The predicate as the expansion calls it: its parameters have the operand types. */
  function OnBytes(a: ArgType, b: ArgType, cmp: Predicate): Predicate {
    (x: int, y: int) => cmp(a.Convert(x), b.Convert(y))
  }

  /** What a comparison answers, and the argument of the DeepState_ZeroSink that its expansion, if any, ended in. */
  datatype Comparison = Comparison(answer: bool, sink: Option<int>)

  /** Comparer<A, B>::Do. The widths in use are whole numbers of bytes. */
  function Do(ta: ArgType, tb: ArgType, a: int, b: int, cmp: Predicate): Comparison {
    if (ta.Bool? && tb.Bool?) || ta.NotIntegral? || tb.NotIntegral? then
      Comparison(cmp(a, b), None)
    else if cmp(a, b) then
      Comparison(true, None)
    else
      var t := BestType(ta, tb);
      var o := Compare(t.Convert(a), t.Convert(b), t.Bits() / 8, OnBytes(ta, tb, cmp));
      Comparison(o.answer, Some(o.sink))
  }

  // ----- The answer is unchanged -----

  /** Byte number i of the two's complement representation of a. */
  function Byte(a: int, i: nat): int
    decreases i
  {
    if i == 0 then LowByte(a) else Byte(Shift(a), i - 1)
  }

  /**
   * Where the expansion ends, for every predicate: at the lowest byte on which the predicate fails,
   * or, when it holds on every byte, in the base case. It never answers true.
   */
  lemma {:induction false} CompareEnds(a: int, b: int, left: nat, cmp: Predicate) returns (d: nat)
    ensures !Compare(a, b, left, cmp).answer
    ensures d <= left && forall i: nat | i < d :: cmp(Byte(a, i), Byte(b, i))
    ensures d < left ==> !cmp(Byte(a, d), Byte(b, d)) && Compare(a, b, left, cmp).sink == 8 * (left - d)
    ensures d == left ==> Compare(a, b, left, cmp).sink == if cmp(Byte(a, d), Byte(b, d)) then 0 else 100
    decreases left
  {
    if left == 0 || !cmp(LowByte(a), LowByte(b)) {
      d := 0;
    } else {
      var e := CompareEnds(Shift(a), Shift(b), left - 1, cmp);
      d := e + 1;
      forall i: nat | i < d ensures cmp(Byte(a, i), Byte(b, i)) {
        if i > 0 {
          assert cmp(Byte(Shift(a), i - 1), Byte(Shift(b), i - 1));
        }
      }
    }
  }

  /**
   * For every predicate, every operand types and values, Comparer answers exactly cmp(a, b), and it
   * expands exactly the failed comparisons of integral operands that are not both bool.
   */
  lemma ComparerIsExact(ta: ArgType, tb: ArgType, a: int, b: int, cmp: Predicate)
    ensures Do(ta, tb, a, b, cmp).answer == cmp(a, b)
    ensures Do(ta, tb, a, b, cmp).sink.Some? <==>
              !cmp(a, b) && !ta.NotIntegral? && !tb.NotIntegral? && !(ta.Bool? && tb.Bool?)
  {
    if !ta.NotIntegral? && !tb.NotIntegral? {
      var t := BestType(ta, tb);
      var d := CompareEnds(t.Convert(a), t.Convert(b), t.Bits() / 8, OnBytes(ta, tb, cmp));
    }
  }

  /** A failed comparison ends at the lowest byte of the converted operands on which the predicate fails. */
  lemma FailureEnds(ta: ArgType, tb: ArgType, a: int, b: int, cmp: Predicate) returns (d: nat)
    requires !cmp(a, b) && !ta.NotIntegral? && !tb.NotIntegral? && !(ta.Bool? && tb.Bool?)
    ensures var t := BestType(ta, tb);
            var x, y, bytes := t.Convert(a), t.Convert(b), t.Bits() / 8;
            var holds := (i: nat) => cmp(ta.Convert(Byte(x, i)), tb.Convert(Byte(y, i)));
            && d <= bytes && (forall i: nat | i < d :: holds(i)) && (d < bytes ==> !holds(d))
            && Do(ta, tb, a, b, cmp).sink
               == Some(if d < bytes then 8 * (bytes - d) else if holds(d) then 0 else 100)
  {
    var t := BestType(ta, tb);
    d := CompareEnds(t.Convert(a), t.Convert(b), t.Bits() / 8, OnBytes(ta, tb, cmp));
  }

  // ----- Where == stops -----

  function Pow256(d: nat): (p: nat)
    ensures p >= 1
  {
    if d == 0 then 1 else 256 * Pow256(d - 1)
  }

  /** Byte i is the i-th digit to base 256. */
  lemma {:induction false} ByteIs(a: int, i: nat)
    ensures Byte(a, i) == (a / Pow256(i)) % 256
    decreases i
  {
    if i == 0 {
      DivModUnique(a, 1, a, 0);
    } else {
      ByteIs(Shift(a), i - 1);
      ShiftDiv(a, Pow256(i - 1));
    }
  }

  lemma ShiftDiv(a: int, q: nat)
    requires q > 0
    ensures Shift(a) / q == a / (256 * q)
  {
    var y, u := Shift(a) / q, Shift(a) % q;
    assert Shift(a) == q * y + u;
    assert y * (256 * q) == 256 * (q * y);
    DivModUnique(a, 256 * q, y, 256 * u + LowByte(a));
  }

  /** a and b agree modulo 256^d. */
  predicate Congruent(a: int, b: int, d: nat) {
    (a - b) % Pow256(d) == 0
  }

  lemma CongruentStep(a: int, b: int, d: nat)
    ensures Congruent(a, b, d + 1) <==> LowByte(a) == LowByte(b) && Congruent(Shift(a), Shift(b), d)
  {
    var q, r := Shift(a) - Shift(b), LowByte(a) - LowByte(b);
    assert a - b == 256 * q + r;
    if r == 0 {
      DivisibleStep(q, Pow256(d));
    } else {
      NotDivisible(q, r, Pow256(d));
    }
  }

  lemma DivisibleStep(q: int, p: nat)
    requires p > 0
    ensures (256 * q) % (256 * p) == 256 * (q % p)
  {
    var k, m := q / p, q % p;
    assert q == p * k + m;
    assert 256 * q == k * (256 * p) + 256 * m;
    DivModUnique(256 * q, 256 * p, k, 256 * m);
  }

  lemma NotDivisible(q: int, r: int, p: nat)
    requires p > 0 && -256 < r < 256 && r != 0
    ensures (256 * q + r) % (256 * p) != 0
  {
    var x := 256 * q + r;
    var j := x / (256 * p);
    assert x == 256 * (p * j) + x % (256 * p);
  }

  lemma {:induction false} CongruentWeaken(a: int, b: int, d: nat, e: nat)
    requires d <= e && Congruent(a, b, e)
    ensures Congruent(a, b, d)
    decreases e
  {
    if d == 0 {
      DivModUnique(a - b, 1, a - b, 0);
    } else {
      CongruentStep(a, b, e - 1);
      CongruentWeaken(Shift(a), Shift(b), d - 1, e - 1);
      CongruentStep(a, b, d - 1);
    }
  }

  /** Two values of one type that agree modulo 2^bits are equal. */
  lemma CongruentInType(t: CType, a: int, b: int, bytes: nat)
    requires t.bits == 8 * bytes && t.Holds(a) && t.Holds(b)
    requires Congruent(a, b, bytes)
    ensures a == b
  {
    WholeBytes(bytes);
    t.Span();
    MultipleInRange(a - b, t.Modulus());
  }

  lemma {:induction false} WholeBytes(n: nat)
    ensures Pow2(8 * n) == Pow256(n)
  {
    if n > 0 {
      WholeBytes(n - 1);
      var k := 8 * n - 8;
      assert Pow2(k + 2) == 4 * Pow2(k);
      assert Pow2(k + 4) == 4 * Pow2(k + 2);
      assert Pow2(k + 6) == 4 * Pow2(k + 4);
      assert Pow2(k + 8) == 4 * Pow2(k + 6);
    }
  }

  /** Conversion back to the operand type keeps distinct bytes distinct. */
  lemma BytesStayDistinct(t: CType, x: int, y: int)
    requires t.bits >= 8 && 0 <= x < 256 && 0 <= y < 256
    ensures t.Wrap(x) == t.Wrap(y) <==> x == y
  {
    AtLeast256(t.bits);
    DivModSmall(x, t.Modulus());
    DivModSmall(y, t.Modulus());
  }

  lemma {:induction false} AtLeast256(n: nat)
    requires n >= 8
    ensures Pow2(n) >= 256
  {
    if n > 8 {
      AtLeast256(n - 1);
    } else {
      assert Pow2(4) == 16;
    }
  }

  const EQUAL: Predicate := (x: int, y: int) => x == y

  lemma AlwaysCongruent(a: int, b: int)
    ensures Congruent(a, b, 0)
  {
    DivModUnique(a - b, 1, a - b, 0);
  }

  lemma EqualOnBytes(t: CType, x: int, y: int)
    requires t.bits >= 8 && 0 <= x < 256 && 0 <= y < 256
    ensures OnBytes(Integral(t), Integral(t), EQUAL)(x, y) <==> x == y
  {
    BytesStayDistinct(t, x, y);
    assert EQUAL(Integral(t).Convert(x), Integral(t).Convert(y)) <==> x == y;
  }

  lemma {:induction false} EqualityDepth(t: CType, a: int, b: int, left: nat) returns (d: nat)
    requires t.bits >= 8 && !Congruent(a, b, left)
    ensures d < left && Congruent(a, b, d) && !Congruent(a, b, d + 1)
    ensures Compare(a, b, left, OnBytes(Integral(t), Integral(t), EQUAL)).sink == 8 * (left - d)
    decreases left
  {
    AlwaysCongruent(a, b);
    EqualOnBytes(t, LowByte(a), LowByte(b));
    CongruentStep(a, b, left - 1);
    if LowByte(a) == LowByte(b) {
      var e := EqualityDepth(t, Shift(a), Shift(b), left - 1);
      CongruentStep(a, b, e);
      CongruentStep(a, b, e + 1);
      d := e + 1;
    } else {
      CongruentStep(a, b, 0);
      d := 0;
    }
  }

  /**
   * For == on two unequal values of one integral type of any byte width, the expansion stops with
   * sink argument bits - 8d, where d is the largest number such that a and b agree modulo 256^d.
   * It never reaches the base case.
   */
  lemma EqualityStops(t: CType, bytes: nat, a: int, b: int) returns (d: nat)
    requires t.bits == 8 * bytes && t.Holds(a) && t.Holds(b) && a != b
    ensures d < bytes && Congruent(a, b, d)
    ensures forall e: nat | Congruent(a, b, e) :: e <= d
    ensures Do(Integral(t), Integral(t), a, b, EQUAL) == Comparison(false, Some(t.bits - 8 * d))
  {
    if Congruent(a, b, bytes) {
      CongruentInType(t, a, b, bytes);
    }
    d := EqualityDepth(t, a, b, bytes);
    forall e: nat | Congruent(a, b, e) ensures e <= d {
      if e > d { CongruentWeaken(a, b, d + 1, e); }
    }
    var f := CompareEnds(a, b, bytes, OnBytes(Integral(t), Integral(t), EQUAL));
  }

  /**
   * BestType for distinct integral types is as wide as the wider operand and signed only when both
   * are; converting an operand to it changes the value exactly when a negative one meets an
   * unsigned partner.
   */
  lemma BestTypeKeepsValues(ta: CType, tb: CType, a: int)
    requires ta.Holds(a)
    ensures var t := BestType(Integral(ta), Integral(tb));
            && t.Bits() == (if ta.bits > tb.bits then ta.bits else tb.bits)
            && t.IsUnsigned() == (!ta.signed || !tb.signed)
            && BestType(Integral(tb), Integral(ta)) == t
            && (t.Convert(a) == a <==> a >= 0 || (ta.signed && tb.signed))
  {
    Pow2Grows(ta.bits - 1, BestType(Integral(ta), Integral(tb)).Bits() - 1);
  }

  /**
   * With bool on one side the other type is made unsigned, and bool itself counts as unsigned int
   * where the other type is unsigned already. The order of the operands matters for a signed type of
   * one byte alone.
   */
  lemma BestTypeWithBool(t: CType)
    requires t.bits >= 8
    ensures t.signed ==> BestType(Bool, Integral(t)) == Integral(CType(t.bits, false))
    ensures t.signed ==> BestType(Integral(t), Bool) == if t.bits > 8 then Integral(CType(t.bits, false)) else Bool
    ensures !t.signed ==>
              BestType(Bool, Integral(t)) == BestType(Integral(t), Bool)
              == Integral(CType(if t.bits > 32 then t.bits else 32, false))
    ensures BestType(Bool, Integral(t)) == BestType(Integral(t), Bool) <==> !(t.signed && t.bits == 8)
  {
  }

  lemma {:induction false} Pow2Grows(m: nat, n: nat)
    requires m <= n
    ensures Pow2(m) <= Pow2(n)
    decreases n
  {
    if m < n {
      Pow2Grows(m, n - 1);
    }
  }
}
