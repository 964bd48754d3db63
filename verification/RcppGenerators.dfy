/**
 * The eight generators by name (inst/include/RcppDeepState.h:38-224). Sizes that Rcpp itself refuses
 * are excluded. A returned `faults` lists the positions of writes outside the vector.
 */
module RcppGenerators {
  import opened Arithmetic
  import opened CIntegers
  import opened RangeReduction
  import opened Generators
  import opened GeneratorProperties
  import opened GeneratorRuns
  import opened GeneratorCells

  method DrawSmallInt(tape: Tape, low: nat, high: nat) returns (n: nat)
    requires low < high <= 100
    modifies tape
    ensures n == SmallInt(tape.words, old(tape.at), low, high) && tape.at == old(tape.at) + 1
  {
    SmallInts();
    n := tape.InRange(INT, low, high);
  }

  /** The call of OneOf and what follows, with what is known of every plan. */
  method Deliver<T>(tape: Tape, p: Plan<T>, rhsFirst: bool) returns (v: array<T>, faults: seq<int>)
    requires Fits(p) && p.overwrites > 0
    modifies tape
    ensures fresh(v) && v.Length == p.cells
    ensures State(v[..], tape.at, faults) == Generated(tape.words, old(tape.at), p, rhsFirst)
    ensures tape.at == old(tape.at) + 1 + DrawCount(p, Plain(tape.words, old(tape.at)))
    ensures faults == [] <==> p.cells >= 1 || Plain(tape.words, old(tape.at))
  {
    v, faults := Generate(tape, p, rhsFirst);
    assert |v[..]| == p.cells;
    WritesInBounds(tape.words, old(tape.at), p, rhsFirst);
    DrawsAreExact(tape.words, old(tape.at), p, rhsFirst);
  }

  /** Raw values drawn for some cells and, on the second branch, for some overwrites of n cells. */
  function Draws(plain: bool, cells: nat, overwrites: nat, n: nat): nat {
    1 + cells + if plain then 0 else overwrites * (if n == 1 then 1 else 2)
  }

  method IntegerVector(tape: Tape, rhsFirst: bool) returns (v: array<int>, faults: seq<int>)
    modifies tape
    ensures fresh(v) && v.Length == SmallInt(tape.words, old(tape.at), 0, 100)
    ensures State(v[..], tape.at, faults) == IntegerVectorRun(tape.words, old(tape.at), rhsFirst)
    ensures var plain := Plain(tape.words, old(tape.at) + 2);
            && tape.at == old(tape.at) + 2 + Draws(plain, v.Length, 2, v.Length)
            && (faults == [] <==> v.Length >= 1 || plain)
    ensures IntegerVectorCells(tape.words, old(tape.at), v[..], rhsFirst)
  {
    SmallInts();
    var size := DrawSmallInt(tape, 0, 100);
    var drawn := tape.Draw(INT);
    v, faults := Deliver(tape, IntPlan(size, AnyInt(), drawn, 2), rhsFirst);
    IntegerVectorDelivers(tape.words, old(tape.at), rhsFirst);
  }

  method IntegerVectorInRange(tape: Tape, size: nat, low: int, high: int, rhsFirst: bool)
    returns (v: array<int>, faults: seq<int>)
    requires INT.Holds(size) && INT.Holds(low) && INT.Holds(high)
    modifies tape
    ensures fresh(v) && v.Length == size
    ensures State(v[..], tape.at, faults)
         == IntegerVectorInRangeRun(tape.words, old(tape.at), size, low, high, rhsFirst)
    ensures var plain := Plain(tape.words, old(tape.at) + 1);
            && tape.at == old(tape.at) + 1 + Draws(plain, if low == high then 0 else size, 2, size)
            && (faults == [] <==> size >= 1 || plain)
    ensures MostlyInRange(v[..], if low <= high then low else high, if low <= high then high else low,
                          [INT.Wrap(tape.words(old(tape.at))), NaInteger()], 2)
    ensures IntegerVectorInRangeCells(tape.words, old(tape.at), size, low, high, v[..], rhsFirst)
  {
    var drawn := tape.Draw(INT);
    ghost var at := tape.at;
    var p := IntPlan(size, IntBetween(low, high), drawn, 2);
    v, faults := Deliver(tape, p, rhsFirst);
    CellsInRange(tape.words, at, p, rhsFirst, if low <= high then low else high, if low <= high then high else low);
    IntegerVectorInRangeDelivers(tape.words, old(tape.at), size, low, high, rhsFirst);
  }

  /** An integer matrix of a given number of cells. */
  method IntegerCells(tape: Tape, cells: nat, low: int, high: int, rhsFirst: bool)
    returns (v: array<int>, faults: seq<int>)
    requires INT.Holds(cells) && INT.Holds(low) && INT.Holds(high)
    modifies tape
    ensures fresh(v) && v.Length == cells
    ensures State(v[..], tape.at, faults)
         == IntegerMatrixInRangeRun(tape.words, old(tape.at), cells, low, high, rhsFirst)
    ensures var plain := Plain(tape.words, old(tape.at) + 1);
            && tape.at == old(tape.at) + 1 + Draws(plain, if low == high then 0 else v.Length, 5, v.Length)
            && (faults == [] <==> v.Length >= 1 || plain)
    ensures MostlyInRange(v[..], if low <= high then low else high, if low <= high then high else low,
                          [INT.Wrap(tape.words(old(tape.at))), NaInteger()], 5)
    ensures IntegerMatrixInRangeCells(tape.words, old(tape.at), cells, low, high, v[..], rhsFirst)
  {
    var drawn := tape.Draw(INT);
    ghost var at := tape.at;
    var p := IntPlan(cells, IntBetween(low, high), drawn, 5);
    v, faults := Deliver(tape, p, rhsFirst);
    CellsInRange(tape.words, at, p, rhsFirst, if low <= high then low else high, if low <= high then high else low);
    IntegerMatrixInRangeDelivers(tape.words, old(tape.at), cells, low, high, rhsFirst);
  }

  method IntegerMatrixInRange(tape: Tape, row: nat, column: nat, low: int, high: int, rhsFirst: bool)
    returns (v: array<int>, faults: seq<int>)
    requires INT.Holds(row * column) && INT.Holds(low) && INT.Holds(high)
    modifies tape
    ensures fresh(v) && v.Length == row * column
    ensures State(v[..], tape.at, faults)
         == IntegerMatrixInRangeRun(tape.words, old(tape.at), v.Length, low, high, rhsFirst)
    ensures var plain := Plain(tape.words, old(tape.at) + 1);
            && tape.at == old(tape.at) + 1 + Draws(plain, if low == high then 0 else v.Length, 5, v.Length)
            && (faults == [] <==> v.Length >= 1 || plain)
    ensures MostlyInRange(v[..], if low <= high then low else high, if low <= high then high else low,
                          [INT.Wrap(tape.words(old(tape.at))), NaInteger()], 5)
    ensures IntegerMatrixInRangeCells(tape.words, old(tape.at), v.Length, low, high, v[..], rhsFirst)
  {
    MulMono(0, row, column);
    v, faults := IntegerCells(tape, row * column, low, high, rhsFirst);
  }

  /** A default matrix has 1 to 100 cells, so it never writes out of bounds. */
  method IntegerMatrix(tape: Tape, rhsFirst: bool) returns (v: array<int>, faults: seq<int>)
    modifies tape
    ensures fresh(v) && v.Length == MatrixCells(tape.words, old(tape.at)) && faults == []
    ensures State(v[..], tape.at, faults) == IntegerMatrixRun(tape.words, old(tape.at), rhsFirst)
    ensures tape.at == old(tape.at) + 3 + Draws(Plain(tape.words, old(tape.at) + 3), v.Length, 5, v.Length)
    ensures MostlyInRange(v[..], 0, 100, [INT.Wrap(tape.words(old(tape.at))), NaInteger()], 5)
    ensures IntegerMatrixCells(tape.words, old(tape.at), v[..], rhsFirst)
  {
    var drawn := tape.Draw(INT);
    var rows := DrawSmallInt(tape, 1, 10);
    var columns := DrawSmallInt(tape, 1, 10);
    CellCount(rows, columns);
    ghost var at := tape.at;
    var c := rows * columns;
    assert c == MatrixCells(tape.words, old(tape.at));
    var p := IntPlan(c, ZeroToHundred(), drawn, 5);
    v, faults := Deliver(tape, p, rhsFirst);
    CellsInRange(tape.words, at, p, rhsFirst, 0, 100);
    IntegerMatrixDelivers(tape.words, old(tape.at), rhsFirst);
  }

  /** Cells drawn by a numeric vector: its second branch leaves the last cell out. */
  function VectorCells(plain: bool, size: nat): nat {
    if plain || size == 0 then size else size - 1
  }

  method NumericVector<T>(tape: Tape, d: Doubles<T>, rhsFirst: bool) returns (v: array<T>, faults: seq<int>)
    requires |d.specials| == 4
    modifies tape
    ensures fresh(v) && v.Length == SmallInt(tape.words, old(tape.at), 0, 100)
    ensures State(v[..], tape.at, faults) == NumericVectorRun(tape.words, old(tape.at), d, rhsFirst)
    ensures var plain := Plain(tape.words, old(tape.at) + 2);
            && tape.at == old(tape.at) + 2 + Draws(plain, VectorCells(plain, v.Length), 5, v.Length)
            && (faults == [] <==> v.Length >= 1 || plain)
    ensures NumericVectorCells(tape.words, old(tape.at), d, v[..], rhsFirst)
  {
    SmallInts();
    var size := DrawSmallInt(tape, 0, 100);
    var drawn := DrawDouble(tape, d.any);
    var p := NumericPlan(size, d.zero, Source(true, d.any), false, drawn, d.specials);
    v, faults := Deliver(tape, p, rhsFirst);
    NumericVectorDelivers(tape.words, old(tape.at), d, rhsFirst);
  }

  /** `between` is DeepState_DoubleInRange with the given bounds, as a function of the raw value. */
  method NumericVectorInRange<T>(tape: Tape, size: nat, d: Doubles<T>, between: int -> T, rhsFirst: bool)
    returns (v: array<T>, faults: seq<int>)
    requires INT.Holds(size) && |d.specials| == 4
    modifies tape
    ensures fresh(v) && v.Length == size
    ensures State(v[..], tape.at, faults)
         == NumericVectorInRangeRun(tape.words, old(tape.at), size, d, between, rhsFirst)
    ensures var plain := Plain(tape.words, old(tape.at) + 1);
            && tape.at == old(tape.at) + 1 + Draws(plain, VectorCells(plain, size), 5, size)
            && (faults == [] <==> size >= 1 || plain)
    ensures NumericVectorInRangeCells(tape.words, old(tape.at), size, d, between, v[..], rhsFirst)
  {
    var drawn := DrawDouble(tape, d.any);
    var p := NumericPlan(size, d.zero, Source(true, between), false, drawn, d.specials);
    v, faults := Deliver(tape, p, rhsFirst);
    NumericVectorInRangeDelivers(tape.words, old(tape.at), size, d, between, rhsFirst);
  }

  /** A numeric matrix of a given number of cells. */
  method NumericCells<T>(tape: Tape, cells: nat, d: Doubles<T>, between: int -> T, rhsFirst: bool)
    returns (v: array<T>, faults: seq<int>)
    requires INT.Holds(cells) && |d.specials| == 4
    modifies tape
    ensures fresh(v) && v.Length == cells
    ensures State(v[..], tape.at, faults)
         == NumericMatrixInRangeRun(tape.words, old(tape.at), cells, d, between, rhsFirst)
    ensures var plain := Plain(tape.words, old(tape.at) + 1);
            && tape.at == old(tape.at) + 1 + Draws(plain, cells, 5, cells)
            && (faults == [] <==> cells >= 1 || plain)
    ensures NumericMatrixInRangeCells(tape.words, old(tape.at), cells, d, between, v[..], rhsFirst)
  {
    var drawn := DrawDouble(tape, d.any);
    var p := NumericPlan(cells, d.zero, Source(true, between), true, drawn, d.specials);
    v, faults := Deliver(tape, p, rhsFirst);
    NumericMatrixInRangeDelivers(tape.words, old(tape.at), cells, d, between, rhsFirst);
  }

  method NumericMatrixInRange<T>(tape: Tape, row: nat, column: nat, d: Doubles<T>, between: int -> T, rhsFirst: bool)
    returns (v: array<T>, faults: seq<int>)
    requires INT.Holds(row * column) && |d.specials| == 4
    modifies tape
    ensures fresh(v) && v.Length == row * column
    ensures State(v[..], tape.at, faults)
         == NumericMatrixInRangeRun(tape.words, old(tape.at), v.Length, d, between, rhsFirst)
    ensures var plain := Plain(tape.words, old(tape.at) + 1);
            && tape.at == old(tape.at) + 1 + Draws(plain, v.Length, 5, v.Length)
            && (faults == [] <==> v.Length >= 1 || plain)
    ensures NumericMatrixInRangeCells(tape.words, old(tape.at), v.Length, d, between, v[..], rhsFirst)
  {
    MulMono(0, row, column);
    v, faults := NumericCells(tape, row * column, d, between, rhsFirst);
  }

  method NumericMatrix<T>(tape: Tape, d: Doubles<T>, between: int -> T, rhsFirst: bool)
    returns (v: array<T>, faults: seq<int>)
    requires |d.specials| == 4
    modifies tape
    ensures fresh(v) && v.Length == MatrixCells(tape.words, old(tape.at)) && faults == []
    ensures State(v[..], tape.at, faults) == NumericMatrixRun(tape.words, old(tape.at), d, between, rhsFirst)
    ensures tape.at == old(tape.at) + 3 + Draws(Plain(tape.words, old(tape.at) + 3), v.Length, 5, v.Length)
    ensures NumericMatrixCells(tape.words, old(tape.at), d, between, v[..], rhsFirst)
  {
    var drawn := DrawDouble(tape, d.any);
    var rows := DrawSmallInt(tape, 1, 10);
    var columns := DrawSmallInt(tape, 1, 10);
    CellCount(rows, columns);
    var c := rows * columns;
    assert c == MatrixCells(tape.words, old(tape.at));
    var p := NumericPlan(c, d.zero, Source(true, between), true, drawn, d.specials);
    v, faults := Deliver(tape, p, rhsFirst);
    NumericMatrixDelivers(tape.words, old(tape.at), d, between, rhsFirst);
  }

  method DrawDouble<T>(tape: Tape, any: int -> T) returns (d: T)
    modifies tape
    ensures d == any(tape.words(old(tape.at))) && tape.at == old(tape.at) + 1
  {
    d := any(tape.words(tape.at));
    tape.at := tape.at + 1;
  }

  /** On the tape 0, 0, 1, 0, 0, ... the default integer vector is empty and is written to twice all the same. */
  lemma DefaultVectorCanFault(rhsFirst: bool)
    ensures var w: Words := (n: nat) => if n == 2 then 1 else 0;
            && IntegerVectorRun(w, 0, rhsFirst).v == []
            && |IntegerVectorRun(w, 0, rhsFirst).faults| == 2
  {
    WidthsOfInt();
    var w: Words := (n: nat) => if n == 2 then 1 else 0;
    assert w(2) == 1 && w(0) == 0;
    assert SmallInt(w, 0, 0, 100) == 0 && !Plain(w, 2);
    WritesInBounds(w, 2, IntegerVectorPlan(w, 0), rhsFirst);
    SizeIsKept(w, 2, IntegerVectorPlan(w, 0), rhsFirst);
  }

  lemma SizeIsKept<T>(w: Words, at: nat, p: Plan<T>, rhsFirst: bool)
    requires Fits(p)
    ensures |Generated(w, at, p, rhsFirst).v| == p.cells
  {
  }
}
