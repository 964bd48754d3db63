/**
 * Pump and the OneOf family (inst/include/DeepState.hpp:298-434, 629-662) under symbolic execution
 * and on concrete inputs. On one execution path a symbolic value is the finite, non-empty set of
 * values it may still take; a comparison whose answer is still open forks the path.
 */
module SymbolicChoice {
  import opened CIntegers
  import opened Options
  import opened RangeReduction

  /** What a call of DeepState_UIntInRange gives: a plain number, or the engine's symbolic value. */
  datatype Value = Concrete(v: int) | Symbolic

  // ----- Ordered view of a finite set -----

  lemma SomeMember<T>(c: set<T>) returns (y: T)
    requires c != {}
    ensures y in c
  {
    y :| y in c;
  }

  ghost predicate IsLeast(c: set<int>, m: int) {
    m in c && forall x | x in c :: m <= x
  }

  lemma LeastOfBoth(c: set<int>, y: int, m: int)
    requires y in c && IsLeast(c - {y}, m)
    ensures IsLeast(c, if y < m then y else m)
  {
    forall x | x in c ensures (if y < m then y else m) <= x {
      assert x == y || x in c - {y};
    }
  }

  lemma SmallestExists(c: set<int>) returns (m: int)
    requires c != {}
    ensures IsLeast(c, m)
    decreases |c|
  {
    var y := SomeMember(c);
    assert c == (c - {y}) + {y};
    if c == {y} {
      m := y;
    } else {
      var rest := SmallestExists(c - {y});
      LeastOfBoth(c, y, rest);
      m := if y < rest then y else rest;
    }
  }

  lemma HasSmallest(c: set<int>)
    requires c != {}
    ensures exists m :: IsLeast(c, m)
  {
    var m := SmallestExists(c);
  }

  ghost function Smallest(c: set<int>): (m: int)
    requires c != {}
    ensures m in c && forall x | x in c :: m <= x
  {
    HasSmallest(c);
    var m :| IsLeast(c, m);
    m
  }

  /** c without its k smallest members. */
  ghost function Above(c: set<int>, k: nat): (r: set<int>)
    requires k <= |c|
    ensures r <= c && |r| == |c| - k
    ensures forall x, y | x in c - r && y in r :: x < y
  {
    if k == 0 then c else
    assert c != {};
    var r := Above(c - {Smallest(c)}, k - 1);
    assert forall x | x in c - r :: x == Smallest(c) || x in c - {Smallest(c)} - r;
    r
  }

  /** The k-th smallest member, counting from 0. */
  ghost function Nth(c: set<int>, k: nat): (m: int)
    requires k < |c|
    ensures m in c && m == Smallest(Above(c, k))
  {
    assert Above(c, k) != {};
    Smallest(Above(c, k))
  }

  lemma {:induction false} AboveStep(c: set<int>, k: nat)
    requires k < |c|
    ensures Above(c, k + 1) == Above(c, k) - {Nth(c, k)}
  {
    if k > 0 {
      AboveStep(c - {Smallest(c)}, k - 1);
    } else {
      assert Above(c, 0) == c;
      assert Above(c - {Smallest(c)}, 0) == c - {Smallest(c)};
    }
  }

  lemma {:induction false} NthIncreases(c: set<int>, j: nat, k: nat)
    requires j < k < |c|
    ensures Nth(c, j) < Nth(c, k)
  {
    AboveStep(c, k - 1);
    if j < k - 1 {
      NthIncreases(c, j, k - 1);
    }
  }

  lemma MoreThanOne(c: set<int>, m: int)
    requires c != {m} && m in c
    ensures exists x :: x in c && x != m
  {
    assert c == (c - {m}) + {m};
    var x := SomeMember(c - {m});
  }

  // ----- The symbolic engine on one path -----

  /** Index of the first fork, among the n starting at `start`, that the path takes; n if it takes none. */
  function FirstTaken(oracle: nat -> bool, start: nat, n: nat): (k: nat)
    ensures k <= n
    ensures k < n ==> oracle(start + k)
    ensures forall j | start <= j < start + k :: !oracle(j)
    decreases n
  {
    if n == 0 then 0 else if oracle(start) then 0 else 1 + FirstTaken(oracle, start + 1, n - 1)
  }

  /**
   * One path of a symbolic execution. `oracle` is the side the path follows at each fork that has
   * two feasible sides; ranging over all oracles ranges over all paths.
   */
  class Engine {
    const oracle: nat -> bool
    var possible: set<int>
    var forks: nat

    constructor (oracle: nat -> bool, possible: set<int>)
      ensures this.oracle == oracle && this.possible == possible && forks == 0
    {
      this.oracle, this.possible, this.forks := oracle, possible, 0;
    }

    /** DeepState_Min<T>: the minimum satisfiable value, given the constraints present. */
    method Minimize() returns (m: int)
      requires possible != {}
      ensures m == Smallest(possible)
    {
      HasSmallest(possible);
      m :| m in possible && forall x | x in possible :: m <= x;
    }

    /** `val == m`, constraining the value by the side followed. */
    method Equals(m: int) returns (b: bool)
      requires possible != {}
      modifies this`possible, this`forks
      ensures old(possible) == {m} || m !in old(possible) ==>
                b == (m in old(possible)) && possible == old(possible) && forks == old(forks)
      ensures old(possible) != {m} && m in old(possible) ==>
                b == oracle(old(forks)) && forks == old(forks) + 1
                && possible == if b then {m} else old(possible) - {m}
      ensures possible != {}
    {
      if possible == {m} || m !in possible {
        b := m in possible;
      } else {
        b := oracle(forks);
        forks := forks + 1;
        if b {
          possible := {m};
        } else {
          assert exists x :: x in possible && x != m by { MoreThanOne(possible, m); }
          possible := possible - {m};
        }
      }
    }

    /** Pump(val, max); None is DeepState_Abandon. */
    method Pump(val: Value, max: nat) returns (r: Option<int>)
      requires val.Symbolic? ==> possible != {}
      modifies this`possible, this`forks
      ensures val.Concrete? ==> r == Some(val.v) && possible == old(possible) && forks == old(forks)
      ensures val.Symbolic? && max == 0 ==> r == None && possible == old(possible) && forks == old(forks)
      ensures val.Symbolic? && max > 0 ==>
                var n := PathCount(old(possible), max);
                var k := FirstTaken(oracle, old(forks), n - 1);
                && r == Some(Pumped(oracle, old(forks), old(possible), max))
                && forks == old(forks) + |Decisions(k, n)|
                && possible == Residue(old(possible), k, n)
    {
      if val.Concrete? {
        return Some(val.v);
      }
      if max == 0 {
        return None;
      }
      ghost var c, n := possible, PathCount(possible, max);
      ghost var k := FirstTaken(oracle, forks, n - 1);
      for i := 0 to max - 1
        invariant i <= n - 1 && i <= k && possible == Above(c, i) && forks == old(forks) + i
      {
        var m := Minimize();
        assert m == Nth(c, i);
        AboveStep(c, i);
        if possible == {m} {
          assert |possible| == 1;
        }
        var equal := Equals(m);
        if equal {
          assert k == i by {
            if i < n - 1 { assert oracle(old(forks) + i); }
          }
          return Some(m);
        }
        assert |possible| > 0;
      }
      var m := Minimize();
      return Some(m);
    }
  }

  /** Number of paths Pump explores: one for each returned value. */
  function PathCount(c: set<int>, max: nat): nat {
    if |c| < max then |c| else max
  }

  /** The fork decisions of the path that returns the k-th of n values. */
  function Decisions(k: nat, n: nat): (ds: seq<bool>)
    requires k < n
    ensures |ds| == if k < n - 1 then k + 1 else k
  {
    seq(k, i => false) + if k < n - 1 then [true] else []
  }

  /** The values still possible at the end of that path. */
  ghost function Residue(c: set<int>, k: nat, n: nat): set<int>
    requires k < n <= |c|
  {
    if k < n - 1 then {Nth(c, k)} else Above(c, k)
  }

  /** A path that takes its (k+1)-st fork and no other. */
  function Choosing(start: nat, k: nat): nat -> bool {
    i => i == start + k
  }

  /** The path of an oracle makes the given decisions at its forks, from the given fork on. */
  ghost predicate Follows(oracle: nat -> bool, start: nat, decisions: seq<bool>) {
    forall i | 0 <= i < |decisions| :: oracle(start + i) == decisions[i]
  }

  /** A path has the k-th of n outcomes exactly when it makes the decisions of that outcome. */
  lemma OutcomeIsPath(oracle: nat -> bool, start: nat, k: nat, n: nat)
    requires k < n
    ensures FirstTaken(oracle, start, n - 1) == k <==> Follows(oracle, start, Decisions(k, n))
  {
    var f, ds := FirstTaken(oracle, start, n - 1), Decisions(k, n);
    if f == k {
      forall i | 0 <= i < |ds| ensures oracle(start + i) == ds[i] {
        if i < k { assert !oracle(start + i); }
      }
    }
    if f < k {
      LeavesEarlier(oracle, start, k, n, f);
    } else if k < f {
      assert !Follows(oracle, start, ds) by {
        assert ds[k] && !oracle(start + k);
      }
    }
  }

  lemma LeavesEarlier(oracle: nat -> bool, start: nat, k: nat, n: nat, f: nat)
    requires f < k < n && oracle(start + f)
    ensures !Follows(oracle, start, Decisions(k, n))
  {
    assert !Decisions(k, n)[f];
  }

  /**
   * Pump explores exactly min(|C|, max) paths: the k-th outcome is reached, by exactly the oracles
   * that make its decisions, and different outcomes have different decisions.
   */
  lemma PumpPaths(c: set<int>, max: nat, start: nat)
    requires c != {} && max > 0
    ensures var n := PathCount(c, max);
      && (forall k: nat | k < n :: FirstTaken(Choosing(start, k), start, n - 1) == k)
      && (forall o: nat -> bool, k: nat | k < n ::
            FirstTaken(o, start, n - 1) == k <==> Follows(o, start, Decisions(k, n)))
      && (forall j, k | 0 <= j < n && 0 <= k < n :: Decisions(j, n) == Decisions(k, n) <==> j == k)
  {
    var n := PathCount(c, max);
    forall k: nat | k < n ensures FirstTaken(Choosing(start, k), start, n - 1) == k {
      ChoosingTakes(start, k, n - 1);
    }
    forall o: nat -> bool, k: nat | k < n
      ensures FirstTaken(o, start, n - 1) == k <==> Follows(o, start, Decisions(k, n))
    {
      OutcomeIsPath(o, start, k, n);
    }
    forall j, k | 0 <= j < n && 0 <= k < n && Decisions(j, n) == Decisions(k, n) ensures j == k {
      DecisionsDiffer(j, k, n);
      DecisionsDiffer(k, j, n);
    }
  }

  lemma ChoosingTakes(start: nat, k: nat, n: nat)
    requires k <= n
    ensures FirstTaken(Choosing(start, k), start, n) == k
  {
    var o := Choosing(start, k);
    assert o(start + k);
  }

  lemma DecisionsDiffer(j: nat, k: nat, n: nat)
    requires j < n && k < n
    ensures j < k ==> Decisions(j, n) != Decisions(k, n)
  {
    if j < k {
      assert Decisions(j, n)[j];
      assert !Decisions(k, n)[j];
    }
  }

  /**
   * The n = min(|C|, max) values returned are the n smallest members of C, in increasing order of
   * path, each on one path, and each still possible at the end of its own path.
   */
  lemma PumpValues(c: set<int>, max: nat, k: nat)
    requires c != {} && max > 0 && k < PathCount(c, max)
    ensures var n := PathCount(c, max);
      && Nth(c, k) in Residue(c, k, n)
      && (k + 1 < n ==> Nth(c, k) < Nth(c, k + 1))
      && (forall x | x in c :: x <= Nth(c, k) <==> exists j | 0 <= j <= k :: x == Nth(c, j))
  {
    var n := PathCount(c, max);
    if k + 1 < n {
      NthIncreases(c, k, k + 1);
    }
    forall x | x in c ensures x <= Nth(c, k) <==> exists j | 0 <= j <= k :: x == Nth(c, j) {
      if x <= Nth(c, k) {
        var j := Rank(c, x, k);
      } else if j :| 0 <= j <= k && x == Nth(c, j) {
        if j < k { NthIncreases(c, j, k); }
      }
    }
  }

  lemma {:induction false} Rank(c: set<int>, x: int, k: nat) returns (j: nat)
    requires x in c && k < |c| && x <= Nth(c, k)
    ensures j <= k && x == Nth(c, j)
  {
    if x == Nth(c, k) {
      return k;
    }
    assert x !in Above(c, k);
    assert k > 0;
    AboveStep(c, k - 1);
    if x == Nth(c, k - 1) {
      return k - 1;
    }
    assert x in c - Above(c, k - 1) && Nth(c, k - 1) in Above(c, k - 1);
    j := Rank(c, x, k - 1);
  }

  // ----- The paths of Pump, without the names its contract uses -----

  /** The value Pump returns on the path of an oracle. */
  ghost function Pumped(oracle: nat -> bool, start: nat, c: set<int>, max: nat): int
    requires c != {} && max > 0
  {
    Nth(c, FirstTaken(oracle, start, PathCount(c, max) - 1))
  }

  /** The members of c below x. */
  ghost function Below(c: set<int>, x: int): set<int> {
    set y | y in c && y < x
  }

  lemma BelowNth(c: set<int>, k: nat, y: int)
    requires k < |c| && y in c && y !in Above(c, k)
    ensures y < Nth(c, k)
  {
    assert y in c - Above(c, k) && Nth(c, k) in Above(c, k);
  }

  /** The k-th smallest member has k members below it. */
  lemma NthHasRank(c: set<int>, k: nat)
    requires k < |c|
    ensures |Below(c, Nth(c, k))| == k
  {
    var r, m := Above(c, k), Nth(c, k);
    forall y ensures y in Below(c, m) <==> y in c - r {
      if y in c && y !in r { BelowNth(c, k, y); }
    }
    assert Below(c, m) == c - r;
    assert c == (c - r) + r && (c - r) * r == {};
  }

  lemma BelowIsSmaller(c: set<int>, x: int)
    requires x in c
    ensures |Below(c, x)| < |c|
  {
    assert Below(c, x) <= c - {x};
    Subset(Below(c, x), c - {x});
  }

  lemma {:induction false} Subset<T>(a: set<T>, b: set<T>)
    requires a <= b
    ensures |a| <= |b|
    decreases |a|
  {
    if a != {} {
      var y := SomeMember(a);
      assert b == (b - {y}) + {y};
      Subset(a - {y}, b - {y});
    }
  }

  lemma RankIsNth(c: set<int>, x: int)
    requires x in c
    ensures |Below(c, x)| < |c| && Nth(c, |Below(c, x)|) == x
  {
    BelowIsSmaller(c, x);
    var k := |c| - 1;
    var last := Nth(c, k);
    NthHasRank(c, k);
    if x > last {
      assert last in Below(c, x) && Below(c, last) <= Below(c, x) - {last};
      Subset(Below(c, last), Below(c, x) - {last});
    }
    var j := Rank(c, x, k);
    NthHasRank(c, j);
  }

  /** min(|C|, max), as a count of outcomes. */
  lemma OutcomesAre(c: set<int>, max: nat, j: nat)
    requires c != {} && max > 0
    ensures j < PathCount(c, max) <==> j < |c| && j < max
  {
  }

  /** Some path of Pump returns v exactly when v is possible and fewer than max smaller values are. */
  lemma PumpReaches(c: set<int>, max: nat, start: nat, v: int)
    requires c != {} && max > 0
    ensures (exists o: nat -> bool :: Pumped(o, start, c, max) == v) <==> v in c && |Below(c, v)| < max
  {
    var n := PathCount(c, max);
    if v in c && |Below(c, v)| < max {
      RankIsNth(c, v);
      ChoosingTakes(start, |Below(c, v)|, n - 1);
      assert Pumped(Choosing(start, |Below(c, v)|), start, c, max) == v;
    }
    if o: nat -> bool :| Pumped(o, start, c, max) == v {
      NthHasRank(c, FirstTaken(o, start, n - 1));
    }
  }

  /**
   * What is still possible at the end of a path: the value returned alone, or on the last path
   * everything that no other path returns. Every possible value is left on exactly one path.
   */
  lemma ResiduesPartition(c: set<int>, max: nat, x: int)
    requires c != {} && max > 0 && x in c
    ensures var n, rank := PathCount(c, max), |Below(c, x)|;
            forall k: nat | k < n :: x in Residue(c, k, n) <==> k == if rank < n - 1 then rank else n - 1
  {
    var n, rank := PathCount(c, max), |Below(c, x)|;
    RankIsNth(c, x);
    forall k: nat | k < n ensures x in Residue(c, k, n) <==> k == if rank < n - 1 then rank else n - 1 {
      if k < n - 1 {
        if k < rank { NthIncreases(c, k, rank); } else if rank < k { NthIncreases(c, rank, k); }
      } else {
        AboveByRank(c, k, x);
      }
    }
  }

  lemma AboveByRank(c: set<int>, k: nat, x: int)
    requires k < |c| && x in c
    ensures x in Above(c, k) <==> |Below(c, x)| >= k
  {
    var m, rank := Nth(c, k), |Below(c, x)|;
    RankIsNth(c, x);
    if rank < k {
      NthIncreases(c, rank, k);
    } else if k < rank {
      NthIncreases(c, k, rank);
      if x !in Above(c, k) { BelowNth(c, k, x); }
    }
  }
}
