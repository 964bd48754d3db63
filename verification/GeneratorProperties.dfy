/** What the Rcpp generators promise, whatever the raw input is. */
module GeneratorProperties {
  import opened Arithmetic
  import opened CIntegers
  import opened RangeReduction
  import opened Generators

  // ----- Writes in bounds -----

  lemma {:induction false} OverwriteFaults<T>(f: nat -> Operands, draws: nat, s: State<T>, missing: seq<T>, times: nat)
    requires Sound(f, |s.v|, |missing|)
    ensures var r := Overwritten(f, draws, s, missing, times);
            && |r.faults| == |s.faults| + (if s.v == [] then times else 0)
            && r.at == s.at + times * draws
  {
    if times > 0 {
      OverwriteFaults(f, draws, s, missing, times - 1);
      assert times * draws == (times - 1) * draws + draws;
    }
  }

  lemma BranchFaults<T>(w: Words, at: nat, p: Plan<T>, rhsFirst: bool, plain: bool)
    requires Fits(p)
    ensures |Branch(w, at, p, rhsFirst, plain).faults| == if p.cells == 0 && !plain then p.overwrites else 0
    ensures Branch(w, at, p, rhsFirst, plain).at == at + DrawCount(p, plain)
  {
    OverwriteFaults(PlanOperator(w, p, rhsFirst), OverwriteDraws(p), FilledState(w, at, p, plain), p.missing,
                    p.overwrites);
  }

  /**
   * A generator writes inside its vector exactly when the vector has a cell or the plain branch is
   * taken; on an empty vector each of the overwrites is out of bounds.
   */
  lemma WritesInBounds<T>(w: Words, at: nat, p: Plan<T>, rhsFirst: bool)
    requires Fits(p)
    ensures Generated(w, at, p, rhsFirst).faults == [] <==> p.cells >= 1 || Plain(w, at) || p.overwrites == 0
    ensures |Generated(w, at, p, rhsFirst).faults| == if p.cells == 0 && !Plain(w, at) then p.overwrites else 0
  {
    BranchFaults(w, at + 1, p, rhsFirst, Plain(w, at));
  }

  // ----- Draws -----

  /** Raw values all overwriting statements together consume. */
  function ScatterDraws<T>(p: Plan<T>): nat {
    p.overwrites * OverwriteDraws(p)
  }

  /** Raw values a generator consumes after its OneOf: exact, since a one-point range draws nothing. */
  function DrawCount<T>(p: Plan<T>, plain: bool): nat
    requires Fits(p)
  {
    Drawn(p.source, FillCount(p, plain))
    + if plain then 0 else ScatterDraws(p)
  }

  lemma DrawsAreExact<T>(w: Words, at: nat, p: Plan<T>, rhsFirst: bool)
    requires Fits(p)
    ensures Generated(w, at, p, rhsFirst).at == at + 1 + DrawCount(p, Plain(w, at))
  {
    BranchFaults(w, at + 1, p, rhsFirst, Plain(w, at));
  }

  ghost predicate Agree(w: Words, w': Words, low: nat, end: nat) {
    forall i: nat | low <= i < end :: w(i) == w'(i)
  }

  lemma {:induction false} OverwriteSame<T>(
    f: nat -> Operands, g: nat -> Operands, draws: nat, s: State<T>, missing: seq<T>, times: nat)
    requires Sound(f, |s.v|, |missing|) && Sound(g, |s.v|, |missing|)
    requires forall k: nat | k < times :: f(s.at + k * draws) == g(s.at + k * draws)
    ensures Overwritten(f, draws, s, missing, times) == Overwritten(g, draws, s, missing, times)
  {
    if times > 0 {
      OverwriteFaults(f, draws, s, missing, times - 1);
      OverwriteSame(f, g, draws, s, missing, times - 1);
    }
  }

  lemma IndexPrefix(w: Words, w': Words, at: nat, n: nat)
    requires Indexable(n) && Agree(w, w', at, at + IndexDraws(n))
    ensures Index(w, at, n) == Index(w', at, n)
  {
  }

  lemma OperatePrefix(w: Words, w': Words, at: nat, n: nat, m: nat, rhsFirst: bool)
    requires Indexable(n) && 1 <= m && Indexable(m)
    requires Agree(w, w', at, at + IndexDraws(n) + IndexDraws(m))
    ensures Operate(w, at, n, m, rhsFirst) == Operate(w', at, n, m, rhsFirst)
  {
    IndexPrefix(w, w', at, if rhsFirst then m else n);
    IndexPrefix(w, w', at + IndexDraws(if rhsFirst then m else n), if rhsFirst then n else m);
  }

  lemma FilledStatePrefix<T>(w: Words, w': Words, at: nat, p: Plan<T>, plain: bool)
    requires Agree(w, w', at, FilledState(w, at, p, plain).at)
    ensures FilledState(w, at, p, plain) == FilledState(w', at, p, plain)
  {
    FilledPrefix(w, w', at, p, FillCount(p, plain));
  }

  lemma BranchPrefix<T>(w: Words, w': Words, at: nat, p: Plan<T>, rhsFirst: bool, plain: bool)
    requires Fits(p) && Agree(w, w', at, at + DrawCount(p, plain))
    ensures Branch(w, at, p, rhsFirst, plain) == Branch(w', at, p, rhsFirst, plain)
  {
    FilledStatePrefix(w, w', at, p, plain);
    if !plain {
      DrawSplit(w, w', at, p);
      ScatterPrefix(w, w', FilledState(w, at, p, false), p, rhsFirst);
    }
  }

  lemma DrawSplit<T>(w: Words, w': Words, at: nat, p: Plan<T>)
    requires Fits(p) && Agree(w, w', at, at + DrawCount(p, false))
    ensures var filled := FilledState(w, at, p, false);
            Agree(w, w', filled.at, filled.at + ScatterDraws(p))
  {
  }

  lemma ScatterPrefix<T>(w: Words, w': Words, s: State<T>, p: Plan<T>, rhsFirst: bool)
    requires Fits(p) && |s.v| == p.cells && Agree(w, w', s.at, s.at + ScatterDraws(p))
    ensures Overwritten(PlanOperator(w, p, rhsFirst), OverwriteDraws(p), s, p.missing, p.overwrites)
         == Overwritten(PlanOperator(w', p, rhsFirst), OverwriteDraws(p), s, p.missing, p.overwrites)
  {
    var f, g, d := PlanOperator(w, p, rhsFirst), PlanOperator(w', p, rhsFirst), OverwriteDraws(p);
    forall k: nat | k < p.overwrites ensures f(s.at + k * d) == g(s.at + k * d) {
      MulMono(k + 1, p.overwrites, d);
      assert (k + 1) * d == k * d + d;
      OperatePrefix(w, w', s.at + k * d, p.cells, |p.missing|, rhsFirst);
    }
    OverwriteSame(f, g, d, s, p.missing, p.overwrites);
  }

  /** The output, the end position and the faults depend only on the consumed prefix of the tape. */
  lemma ConsumedPrefixDecides<T>(w: Words, w': Words, at: nat, p: Plan<T>, rhsFirst: bool)
    requires Fits(p) && Agree(w, w', at, Generated(w, at, p, rhsFirst).at)
    ensures Generated(w, at, p, rhsFirst) == Generated(w', at, p, rhsFirst)
  {
    DrawsAreExact(w, at, p, rhsFirst);
    assert w(at) == w'(at);
    BranchPrefix(w, w', at + 1, p, rhsFirst, Plain(w, at));
  }

  lemma FilledPrefix<T>(w: Words, w': Words, at: nat, p: Plan<T>, n: nat)
    requires n <= p.cells && Agree(w, w', at, at + Drawn(p.source, n))
    ensures Filled(w, at, p, n) == Filled(w', at, p, n)
  {
    forall i | 0 <= i < n ensures Cell(w, at, p.source, i) == Cell(w', at, p.source, i) {
      if p.source.drawn { assert w(at + i) == w'(at + i); }
    }
  }

  // ----- Cells -----

  /** Positions outside `at` hold what s held, and those in `at` hold missing values. */
  lemma {:induction false} OverwriteCells<T>(f: nat -> Operands, draws: nat, s: State<T>, missing: seq<T>, times: nat)
    returns (hit: set<int>)
    requires Sound(f, |s.v|, |missing|)
    ensures |hit| <= times
    ensures forall i | 0 <= i < |s.v| ::
              var v := Overwritten(f, draws, s, missing, times).v;
              if i in hit then v[i] in missing else v[i] == s.v[i]
  {
    if times == 0 {
      hit := {};
    } else {
      var before := OverwriteCells(f, draws, s, missing, times - 1);
      var t := Overwritten(f, draws, s, missing, times - 1);
      hit := before + {f(t.at).position};
    }
  }

  lemma BranchCells<T>(w: Words, at: nat, p: Plan<T>, rhsFirst: bool, plain: bool) returns (hit: set<int>)
    requires Fits(p)
    ensures |hit| <= if plain then 0 else p.overwrites
    ensures forall i | 0 <= i < p.cells ::
              var v := Branch(w, at, p, rhsFirst, plain).v;
              if i in hit then v[i] in p.missing else v[i] == FilledState(w, at, p, plain).v[i]
  {
    if plain {
      hit := {};
    } else {
      hit := OverwriteCells(PlanOperator(w, p, rhsFirst), OverwriteDraws(p), FilledState(w, at, p, false), p.missing,
                            p.overwrites);
    }
  }

  /** At most k cells of v are outside [low, high], and each of those holds one of the missing values. */
  ghost predicate MostlyInRange(v: seq<int>, low: int, high: int, missing: seq<int>, k: nat) {
    exists hit: set<int> ::
      |hit| <= k && forall i | 0 <= i < |v| :: low <= v[i] <= high || (i in hit && v[i] in missing)
  }

  lemma CellsInRange(w: Words, at: nat, p: Plan<int>, rhsFirst: bool, low: int, high: int)
    requires Fits(p) && p.full && forall x :: low <= p.source.value(x) <= high
    ensures MostlyInRange(Generated(w, at, p, rhsFirst).v, low, high, p.missing,
                          if Plain(w, at) then 0 else p.overwrites)
  {
    var plain := Plain(w, at);
    BranchInRange(w, at + 1, p, rhsFirst, plain, low, high);
  }

  lemma BranchInRange(w: Words, at: nat, p: Plan<int>, rhsFirst: bool, plain: bool, low: int, high: int)
    requires Fits(p) && p.full && forall x :: low <= p.source.value(x) <= high
    ensures MostlyInRange(Branch(w, at, p, rhsFirst, plain).v, low, high, p.missing, if plain then 0 else p.overwrites)
  {
    var v := Branch(w, at, p, rhsFirst, plain).v;
    var hit := BranchCells(w, at, p, rhsFirst, plain);
    assert forall i | 0 <= i < |v| :: low <= v[i] <= high || (i in hit && v[i] in p.missing);
  }

  /** Where the second branch leaves the last cell out, that cell holds zero or a missing value. */
  lemma LastCellIsNotDrawn<T>(w: Words, at: nat, p: Plan<T>, rhsFirst: bool)
    requires Fits(p) && !p.full && p.cells >= 1 && !Plain(w, at)
    ensures var last := Generated(w, at, p, rhsFirst).v[p.cells - 1]; last == p.zero || last in p.missing
  {
    var hit := BranchCells(w, at + 1, p, rhsFirst, false);
  }
}
