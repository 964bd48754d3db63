/** Counting the integers of an interval that meet a condition. */
module Counting {
  import opened Arithmetic

  /** How many x with lo <= x < hi meet p. */
  function Count(lo: int, hi: int, p: int -> bool): (c: nat)
    requires lo <= hi
    ensures c <= hi - lo
    decreases hi - lo
  {
    if lo == hi then 0 else Count(lo, hi - 1, p) + if p(hi - 1) then 1 else 0
  }

  lemma {:induction false} CountSplit(lo: int, mid: int, hi: int, p: int -> bool)
    requires lo <= mid <= hi
    ensures Count(lo, hi, p) == Count(lo, mid, p) + Count(mid, hi, p)
    decreases hi - mid
  {
    if mid < hi {
      CountSplit(lo, mid, hi - 1, p);
    }
  }

  lemma {:induction false} CountSame(lo: int, hi: int, p: int -> bool, q: int -> bool)
    requires lo <= hi
    requires forall x | lo <= x < hi :: p(x) == q(x)
    ensures Count(lo, hi, p) == Count(lo, hi, q)
    decreases hi - lo
  {
    if lo < hi {
      CountSame(lo, hi - 1, p, q);
    }
  }

  lemma {:induction false} CountNone(lo: int, hi: int, p: int -> bool)
    requires lo <= hi
    requires forall x | lo <= x < hi :: !p(x)
    ensures Count(lo, hi, p) == 0
    decreases hi - lo
  {
    if lo < hi {
      CountNone(lo, hi - 1, p);
    }
  }

  lemma {:induction false} CountAll(lo: int, hi: int, p: int -> bool)
    requires lo <= hi
    requires forall x | lo <= x < hi :: p(x)
    ensures Count(lo, hi, p) == hi - lo
    decreases hi - lo
  {
    if lo < hi {
      CountAll(lo, hi - 1, p);
    }
  }

  lemma CountOne(lo: int, hi: int, p: int -> bool, at: int)
    requires lo <= at < hi
    requires forall x | lo <= x < hi :: p(x) <==> x == at
    ensures Count(lo, hi, p) == 1
  {
    CountSplit(lo, at, hi, p);
    CountSplit(at, at + 1, hi, p);
    CountNone(lo, at, p);
    CountNone(at + 1, hi, p);
    assert Count(at, at + 1, p) == 1 by { assert Count(at, at, p) == 0; }
  }

  /** Two conditions that agree outside a block and hold equally often inside it hold equally often. */
  lemma CountBlock(lo: int, from: int, upto: int, hi: int, p: int -> bool, q: int -> bool)
    requires lo <= from <= upto <= hi
    requires forall x | lo <= x < hi && !(from <= x < upto) :: p(x) == q(x)
    requires Count(from, upto, p) == Count(from, upto, q)
    ensures Count(lo, hi, p) == Count(lo, hi, q)
  {
    CountSplit(lo, from, hi, p);
    CountSplit(lo, from, hi, q);
    CountSplit(from, upto, hi, p);
    CountSplit(from, upto, hi, q);
    CountSame(lo, from, p, q);
    CountSame(upto, hi, p, q);
  }

  /** Every s consecutive integers hold exactly one member of each residue class modulo s. */
  lemma {:induction false} OneOfEachResidue(start: nat, s: nat, r: int)
    requires 0 <= r < s
    ensures Count(start, start + s, x => x % s == r) == 1
    decreases start
  {
    var p := x => x % s == r;
    if start == 0 {
      forall x | 0 <= x < s ensures p(x) <==> x == r {
        DivModSmall(x, s);
      }
      CountOne(0, s, p, r);
    } else {
      OneOfEachResidue(start - 1, s, r);
      CountSplit(start - 1, start, start - 1 + s, p);
      CountSplit(start, start - 1 + s, start + s, p);
      assert Count(start - 1, start, p) == if p(start - 1) then 1 else 0
      by { assert Count(start - 1, start - 1, p) == 0; }
      assert Count(start - 1 + s, start + s, p) == if p(start - 1 + s) then 1 else 0
      by { assert Count(start - 1 + s, start - 1 + s, p) == 0; }
      ModShift(start - 1, s);
    }
  }

  /** Below n, a residue class modulo s has n/s members, and one more when r < n mod s. */
  lemma {:induction false} ResidueCount(n: nat, s: nat, r: int)
    requires 0 <= r < s
    ensures Count(0, n, x => x % s == r) == n / s + if r < n % s then 1 else 0
    decreases n
  {
    var p := x => x % s == r;
    if n < s {
      DivModSmall(n, s);
      forall x | 0 <= x < n ensures p(x) <==> x == r {
        DivModSmall(x, s);
      }
      if r < n {
        CountOne(0, n, p, r);
      } else {
        CountNone(0, n, p);
      }
    } else {
      ResidueCount(n - s, s, r);
      CountSplit(0, n - s, n, p);
      OneOfEachResidue(n - s, s, r);
      ModShift(n - s, s);
    }
  }

  /** How many x < n the map g sends to v. */
  function Preimages(n: nat, g: int -> int, v: int): nat {
    Count(0, n, x => g(x) == v)
  }

  /** The sum over v with low <= v < end of the number of x < n that g sends to v. */
  function Tally(n: nat, g: int -> int, low: int, end: int): nat
    requires low <= end
    decreases end - low
  {
    if low == end then 0 else Tally(n, g, low, end - 1) + Preimages(n, g, end - 1)
  }

  lemma {:induction false} TallyStep(n: nat, g: int -> int, low: int, end: int)
    requires low <= end
    ensures Tally(n + 1, g, low, end) == Tally(n, g, low, end) + if low <= g(n) < end then 1 else 0
    decreases end - low
  {
    if low < end {
      TallyStep(n, g, low, end - 1);
    }
  }

  lemma {:induction false} TallyNone(g: int -> int, low: int, end: int)
    requires low <= end
    ensures Tally(0, g, low, end) == 0
    decreases end - low
  {
    if low < end {
      TallyNone(g, low, end - 1);
    }
  }

  /** Every input has exactly one image, so the preimage sizes add up to the number of inputs. */
  lemma {:induction false} TallyAll(n: nat, g: int -> int, low: int, end: int)
    requires low <= end
    requires forall x | 0 <= x < n :: low <= g(x) < end
    ensures Tally(n, g, low, end) == n
  {
    if n == 0 {
      TallyNone(g, low, end);
    } else {
      TallyAll(n - 1, g, low, end);
      TallyStep(n - 1, g, low, end);
    }
  }

  lemma {:induction false} TallyAtMost(n: nat, g: int -> int, low: int, end: int, c: int)
    requires low <= end
    requires forall v | low <= v < end :: Preimages(n, g, v) <= c
    ensures Tally(n, g, low, end) <= (end - low) * c
    decreases end - low
  {
    if low < end {
      TallyAtMost(n, g, low, end - 1, c);
    }
  }

  lemma {:induction false} TallyAtLeast(n: nat, g: int -> int, low: int, end: int, c: int)
    requires low <= end
    requires forall v | low <= v < end :: Preimages(n, g, v) >= c
    ensures Tally(n, g, low, end) >= (end - low) * c
    decreases end - low
  {
    if low < end {
      TallyAtLeast(n, g, low, end - 1, c);
    }
  }

  /** Pigeonhole: some value has at least ceiling(n/s) preimages. */
  lemma SomeCrowded(n: nat, g: int -> int, low: int, s: nat) returns (v: int)
    requires s > 0
    requires forall x | 0 <= x < n :: low <= g(x) < low + s
    ensures low <= v < low + s && Preimages(n, g, v) >= Ceiling(n, s)
  {
    var c := Ceiling(n, s) - 1;
    if forall v | low <= v < low + s :: Preimages(n, g, v) <= c {
      TallyAll(n, g, low, low + s);
      TallyAtMost(n, g, low, low + s, c);
      CeilingBelow(n, s);
      assert false;
    }
    v :| low <= v < low + s && Preimages(n, g, v) > c;
  }

  /** Pigeonhole: some value has at most floor(n/s) preimages. */
  lemma SomeSparse(n: nat, g: int -> int, low: int, s: nat) returns (v: int)
    requires s > 0
    requires forall x | 0 <= x < n :: low <= g(x) < low + s
    ensures low <= v < low + s && Preimages(n, g, v) <= n / s
  {
    var c := n / s + 1;
    if forall v | low <= v < low + s :: Preimages(n, g, v) >= c {
      TallyAll(n, g, low, low + s);
      TallyAtLeast(n, g, low, low + s, c);
      CeilingBelow(n, s);
      assert false;
    }
    v :| low <= v < low + s && Preimages(n, g, v) < c;
  }

  function Ceiling(n: nat, s: nat): nat
    requires s > 0
  {
    n / s + if n % s > 0 then 1 else 0
  }

  lemma CeilingBelow(n: nat, s: nat)
    requires s > 0
    ensures n > 0 ==> s * (Ceiling(n, s) - 1) < n
    ensures s * (n / s + 1) > n
    ensures n == 0 ==> Ceiling(n, s) == 0
  {
    assert n == s * (n / s) + n % s;
    assert s * (n / s + 1) == s * (n / s) + s;
    assert s * (n / s - 1) == s * (n / s) - s;
  }
}
