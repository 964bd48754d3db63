/** Counting the elements of a sequence that meet a condition. */
module Tally {

  ghost function CountIf<T>(s: seq<T>, p: T -> bool): nat {
    if s == [] then 0 else CountIf(s[..|s| - 1], p) + if p(s[|s| - 1]) then 1 else 0
  }

  /** The positions that hold an element of the kind. */
  ghost function Places<T>(s: seq<T>, p: T -> bool): (r: set<int>)
    ensures forall i :: i in r <==> 0 <= i < |s| && p(s[i])
  {
    set i | 0 <= i < |s| && p(s[i])
  }

  lemma {:induction false} CountIfPlaces<T>(s: seq<T>, p: T -> bool)
    ensures CountIf(s, p) == |Places(s, p)|
  {
    if s != [] {
      var n := |s| - 1;
      CountIfPlaces(s[..n], p);
      assert Places(s, p) == Places(s[..n], p) + if p(s[n]) then {n} else {};
    }
  }

  lemma CountIfNext<T>(s: seq<T>, i: nat, p: T -> bool)
    requires i < |s|
    ensures CountIf(s[..i + 1], p) == CountIf(s[..i], p) + if p(s[i]) then 1 else 0
  {
    assert s[..i + 1][..i] == s[..i];
  }

  lemma {:induction false} CountIfSame<T>(s: seq<T>, p: T -> bool, q: T -> bool)
    requires forall e | e in s :: p(e) == q(e)
    ensures CountIf(s, p) == CountIf(s, q)
  {
    if s != [] {
      CountIfSame(s[..|s| - 1], p, q);
    }
  }

  lemma {:induction false} CountIfAdds<T>(s: seq<T>, p: T -> bool, q: T -> bool, r: T -> bool)
    requires forall e | e in s :: (p(e) <==> q(e) || r(e)) && !(q(e) && r(e))
    ensures CountIf(s, p) == CountIf(s, q) + CountIf(s, r)
  {
    if s != [] {
      CountIfAdds(s[..|s| - 1], p, q, r);
    }
  }

  lemma {:induction false} CountIfZero<T>(s: seq<T>, p: T -> bool)
    ensures CountIf(s, p) == 0 <==> forall e | e in s :: !p(e)
  {
    if s != [] {
      var init, last := s[..|s| - 1], s[|s| - 1];
      CountIfZero(init, p);
      assert last in s && forall e :: e in s <==> e in init || e == last;
    }
  }

  lemma {:induction false} CountIfWithout<T>(s: seq<T>, i: nat, p: T -> bool)
    requires i < |s|
    ensures CountIf(s, p) == CountIf(s[..i] + s[i + 1..], p) + if p(s[i]) then 1 else 0
  {
    var n, rest := |s| - 1, s[..i] + s[i + 1..];
    if i == n {
      assert rest == s[..n];
    } else {
      CountIfWithout(s[..n], i, p);
      assert rest[..n - 1] == s[..n][..i] + s[..n][i + 1..];
    }
  }

  lemma MultisetWithout<T>(s: seq<T>, i: nat)
    requires i < |s|
    ensures multiset(s[..i] + s[i + 1..]) == multiset(s) - multiset{s[i]}
  {
    assert s == s[..i] + [s[i]] + s[i + 1..];
  }

  /** The order of the elements does not matter. */
  lemma {:induction false} CountIfPermuted<T>(a: seq<T>, b: seq<T>, p: T -> bool)
    requires multiset(a) == multiset(b)
    ensures CountIf(a, p) == CountIf(b, p)
  {
    if a == [] {
      assert |multiset(b)| == 0;
    } else {
      var n := |a| - 1;
      assert a[..n] + a[n + 1..] == a[..n];
      MultisetWithout(a, n);
      assert a[n] in multiset(b) && a[n] in b;
      var i :| 0 <= i < |b| && b[i] == a[n];
      MultisetWithout(b, i);
      CountIfPermuted(a[..n], b[..i] + b[i + 1..], p);
      CountIfWithout(b, i, p);
    }
  }
}
