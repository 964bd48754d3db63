/** C integer types of a given width, with the conversions and the remainder of ISO C11. */
module CIntegers {
  import opened Arithmetic

  type pos = n: nat | n >= 1 witness 1

  function Pow2(n: nat): (p: nat)
    ensures p >= 1
  {
    if n == 0 then 1 else 2 * Pow2(n - 1)
  }

  /** An integer type: two's complement when signed, as gcc and clang represent it. */
  datatype CType = CType(bits: pos, signed: bool) {

    function Modulus(): nat {
      Pow2(bits)
    }

    function Min(): int {
      if signed then 0 - Pow2(bits - 1) else 0
    }

    function Max(): int {
      if signed then Pow2(bits - 1) - 1 else Pow2(bits) - 1
    }

    predicate Holds(v: int) {
      Min() <= v <= Max()
    }

    /** Conversion to this type: reduction modulo 2^bits (section 6.3.1.3). */
    function Wrap(v: int): (w: int)
      ensures Holds(w)
      ensures Holds(v) ==> w == v
      ensures w % Modulus() == v % Modulus()
    {
      WrapLemma(v);
      var m := v % Modulus();
      if signed && m >= Pow2(bits - 1) then m - Modulus() else m
    }

    lemma Span()
      ensures Max() - Min() + 1 == Modulus() == 2 * Pow2(bits - 1)
    {
    }

    lemma WrapLemma(v: int)
      ensures 0 <= v < Modulus() ==> v % Modulus() == v
      ensures 0 - Modulus() <= v < 0 ==> v % Modulus() == v + Modulus()
      ensures (v % Modulus() - Modulus()) % Modulus() == v % Modulus()
      ensures (v % Modulus()) % Modulus() == v % Modulus()
    {
      var m, r := Modulus(), v % Modulus();
      if 0 <= v < m {
        DivModSmall(v, m);
      } else if 0 - m <= v < 0 {
        DivModUnique(v, m, -1, v + m);
      }
      DivModUnique(r - m, m, -1, r);
      DivModSmall(r, m);
    }
  }

  const INT := CType(32, true)
  const UINT := CType(32, false)

  /** The `%` operator of C, which truncates toward zero (section 6.5.5). */
  function Rem(a: int, b: int): (r: int)
    requires b != 0
    ensures a >= 0 ==> 0 <= r < (if b < 0 then -b else b)
    ensures a < 0 ==> (if b < 0 then b else -b) < r <= 0
  {
    if a >= 0 then a % b else -((-a) % b)
  }

  /** The `/` operator of C. */
  function Quot(a: int, b: int): int
    requires b != 0
  {
    if a >= 0 then a / b else -((-a) / b)
  }

  function Abs(x: int): nat {
    if x < 0 then -x else x
  }

  lemma QuotRem(a: int, b: int)
    requires b != 0
    ensures b * Quot(a, b) == a - Rem(a, b)
  {
    var q := Abs(a) / b;
    assert b * q == Abs(a) - Abs(a) % b;
    assert b * (-q) == -(b * q);
  }

  /** Division truncates toward zero, and the remainder is what is missing. */
  lemma RemTruncates(a: int, b: int)
    requires b != 0
    ensures a == b * Quot(a, b) + Rem(a, b)
    ensures Abs(b * Quot(a, b)) <= Abs(a) && Abs(Rem(a, b)) < Abs(b)
    ensures Rem(a, b) != 0 ==> (Rem(a, b) < 0 <==> a < 0)
  {
    QuotRem(a, b);
    RemBelow(a, b);
  }

  lemma RemBelow(a: int, b: int)
    requires b != 0
    ensures Abs(Rem(a, b)) <= Abs(a)
  {
    if Abs(a) < Abs(b) {
      var q := Abs(a) / b;
      assert Abs(a) == b * q + Abs(a) % b;
      if b > 0 { DivModSmall(Abs(a), b); } else { NegativeDivisor(Abs(a), b); }
    }
  }

  lemma NegativeDivisor(a: nat, b: int)
    requires a < -b
    ensures a % b == a
  {
    assert a == b * (a / b) + a % b;
    assert b * (a / b) == (-(a / b)) * (-b);
    DivModUnique(a, -b, -(a / b), a % b);
    DivModSmall(a, -b);
  }

  lemma WidthsOfInt()
    ensures Pow2(31) == 0x8000_0000 && Pow2(32) == 0x1_0000_0000
  {
    assert Pow2(4) == 16;
    assert Pow2(8) == 256;
    assert Pow2(16) == 65536;
    assert Pow2(24) == 0x100_0000;
    assert Pow2(28) == 0x1000_0000;
  }

  /** INT_MIN, INT_MAX and UINT_MAX. */
  lemma LimitsOfInt()
    ensures INT.Min() == -0x8000_0000 && INT.Max() == 0x7FFF_FFFF
    ensures UINT.Min() == 0 && UINT.Max() == 0xFFFF_FFFF
  {
    WidthsOfInt();
  }
}
