/** The few facts about products, quotients and remainders the proofs rest on. */
module Arithmetic {

  lemma MulMono(a: int, b: int, s: nat)
    requires a <= b
    ensures a * s <= b * s
  {
    assert (b - a) * s == b * s - a * s;
  }

  lemma SmallMultiple(k: int, s: nat)
    requires -(s as int) < k * s < s
    ensures k == 0
  {
    if k >= 1 {
      MulMono(1, k, s);
    } else if k <= -1 {
      MulMono(k, -1, s);
    }
  }

  lemma DivModUnique(a: int, s: nat, q: int, r: int)
    requires 0 <= r < s && a == q * s + r
    ensures a / s == q && a % s == r
  {
    var q', r' := a / s, a % s;
    assert a == s * q' + r';
    assert (q' - q) * s == s * q' - q * s;
    SmallMultiple(q' - q, s);
  }

  lemma DivModSmall(a: int, s: nat)
    requires 0 <= a < s
    ensures a / s == 0 && a % s == a
  {
    DivModUnique(a, s, 0, a);
  }

  lemma MultipleInRange(a: int, s: nat)
    requires s > 0 && a % s == 0 && -(s as int) < a < s
    ensures a == 0
  {
    assert a == (a / s) * s;
    SmallMultiple(a / s, s);
  }

  lemma ModShift(a: int, s: nat)
    requires s > 0
    ensures (a + s) % s == a % s && (a + s) / s == a / s + 1
  {
    assert a == s * (a / s) + a % s;
    assert (a / s + 1) * s == s * (a / s) + s;
    DivModUnique(a + s, s, a / s + 1, a % s);
  }
}
