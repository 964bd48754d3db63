/**
 * Each generator as a function of the whole tape, and of the position from which it draws first:
 * sizes, missing values and cells included.
 */
module GeneratorRuns {
  import opened CIntegers
  import opened RangeReduction
  import opened Generators
  import opened GeneratorProperties

  lemma SmallInts()
    ensures INT.Max() >= 100 && INT.Min() <= 0
  {
    WidthsOfInt();
  }

  /** NA_INTEGER is INT_MIN. */
  function NaInteger(): int {
    INT.Min()
  }

  function AnyInt(): Source<int> {
    Source(true, (word: int) => INT.Wrap(word))
  }

  function IntBetween(low: int, high: int): (s: Source<int>)
    requires INT.Holds(low) && INT.Holds(high)
    ensures forall x :: (if low <= high then low else high) <= s.value(x) <= (if low <= high then high else low)
  {
    Source(low != high, (word: int) => InRangeValue(INT, low, high, INT.Wrap(word)))
  }

  function IntPlan(cells: nat, source: Source<int>, drawn: int, overwrites: nat): (p: Plan<int>)
    requires Indexable(cells)
    ensures Fits(p) && OverwriteDraws(p) == if cells == 1 then 1 else 2
  {
    Plan(cells, 0, source, true, [drawn, NaInteger()], overwrites)
  }

  /** Missing doubles: one drawn, then NaN, the infinities and NA. */
  function NumericPlan<T>(cells: nat, zero: T, source: Source<T>, full: bool, drawn: T, specials: seq<T>): (p: Plan<T>)
    requires Indexable(cells) && |specials| == 4
    ensures Fits(p) && OverwriteDraws(p) == if cells == 1 then 1 else 2
  {
    SmallInts();
    Plan(cells, zero, source, full, [drawn] + specials, 5)
  }

  /** A value of type int drawn with IntInRange at a position of the tape, for small constant bounds. */
  function SmallInt(w: Words, at: nat, low: nat, high: nat): (n: nat)
    requires low < high <= 100
    ensures low <= n <= high
  {
    SmallInts();
    InRangeValue(INT, low, high, INT.Wrap(w(at)))
  }

  lemma CellCount(rows: nat, columns: nat)
    requires 1 <= rows <= 10 && 1 <= columns <= 10
    ensures 1 <= rows * columns <= 100
  {
  }

  /** Number of cells of a default matrix. */
  function MatrixCells(w: Words, at: nat): (c: nat)
    ensures 1 <= c <= 100 && Indexable(c)
  {
    SmallInts();
    CellCount(SmallInt(w, at + 1, 1, 10), SmallInt(w, at + 2, 1, 10));
    SmallInt(w, at + 1, 1, 10) * SmallInt(w, at + 2, 1, 10)
  }

  function ZeroToHundred(): Source<int> {
    SmallInts();
    IntBetween(0, 100)
  }

  /** What the numeric generators need to know of doubles: zero, any double, and NaN, the infinities and NA. */
  datatype Doubles<!T> = Doubles(zero: T, any: int -> T, specials: seq<T>)

  // ----- What each generator has drawn when it calls OneOf -----

  function IntegerVectorPlan(w: Words, at: nat): (p: Plan<int>)
    ensures Fits(p)
  {
    SmallInts();
    IntPlan(SmallInt(w, at, 0, 100), AnyInt(), INT.Wrap(w(at + 1)), 2)
  }

  function IntegerVectorInRangePlan(w: Words, at: nat, size: nat, low: int, high: int): (p: Plan<int>)
    requires INT.Holds(size) && INT.Holds(low) && INT.Holds(high)
    ensures Fits(p)
  {
    IntPlan(size, IntBetween(low, high), INT.Wrap(w(at)), 2)
  }

  function IntegerMatrixPlan(w: Words, at: nat): (p: Plan<int>)
    ensures Fits(p)
  {
    IntPlan(MatrixCells(w, at), ZeroToHundred(), INT.Wrap(w(at)), 5)
  }

  function IntegerMatrixInRangePlan(w: Words, at: nat, cells: nat, low: int, high: int): (p: Plan<int>)
    requires INT.Holds(cells) && INT.Holds(low) && INT.Holds(high)
    ensures Fits(p)
  {
    IntPlan(cells, IntBetween(low, high), INT.Wrap(w(at)), 5)
  }

  function NumericVectorPlan<T>(w: Words, at: nat, d: Doubles<T>): (p: Plan<T>)
    requires |d.specials| == 4
    ensures Fits(p)
  {
    SmallInts();
    NumericPlan(SmallInt(w, at, 0, 100), d.zero, Source(true, d.any), false, d.any(w(at + 1)), d.specials)
  }

  function NumericVectorInRangePlan<T>(w: Words, at: nat, size: nat, d: Doubles<T>, between: int -> T): (p: Plan<T>)
    requires INT.Holds(size) && |d.specials| == 4
    ensures Fits(p)
  {
    NumericPlan(size, d.zero, Source(true, between), false, d.any(w(at)), d.specials)
  }

  function NumericMatrixPlan<T>(w: Words, at: nat, d: Doubles<T>, between: int -> T): (p: Plan<T>)
    requires |d.specials| == 4
    ensures Fits(p)
  {
    NumericPlan(MatrixCells(w, at), d.zero, Source(true, between), true, d.any(w(at)), d.specials)
  }

  function NumericMatrixInRangePlan<T>(w: Words, at: nat, cells: nat, d: Doubles<T>, between: int -> T): (p: Plan<T>)
    requires INT.Holds(cells) && |d.specials| == 4
    ensures Fits(p)
  {
    NumericPlan(cells, d.zero, Source(true, between), true, d.any(w(at)), d.specials)
  }

  // ----- What each generator leaves behind -----

  ghost function IntegerVectorRun(w: Words, at: nat, rhsFirst: bool): State<int> {
    Generated(w, at + 2, IntegerVectorPlan(w, at), rhsFirst)
  }

  ghost function IntegerVectorInRangeRun(w: Words, at: nat, size: nat, low: int, high: int, rhsFirst: bool): State<int>
    requires INT.Holds(size) && INT.Holds(low) && INT.Holds(high)
  {
    Generated(w, at + 1, IntegerVectorInRangePlan(w, at, size, low, high), rhsFirst)
  }

  ghost function IntegerMatrixRun(w: Words, at: nat, rhsFirst: bool): State<int> {
    Generated(w, at + 3, IntegerMatrixPlan(w, at), rhsFirst)
  }

  ghost function IntegerMatrixInRangeRun(w: Words, at: nat, cells: nat, low: int, high: int, rhsFirst: bool): State<int>
    requires INT.Holds(cells) && INT.Holds(low) && INT.Holds(high)
  {
    Generated(w, at + 1, IntegerMatrixInRangePlan(w, at, cells, low, high), rhsFirst)
  }

  ghost function NumericVectorRun<T>(w: Words, at: nat, d: Doubles<T>, rhsFirst: bool): State<T>
    requires |d.specials| == 4
  {
    Generated(w, at + 2, NumericVectorPlan(w, at, d), rhsFirst)
  }

  ghost function NumericVectorInRangeRun<T>(
    w: Words, at: nat, size: nat, d: Doubles<T>, between: int -> T, rhsFirst: bool): State<T>
    requires INT.Holds(size) && |d.specials| == 4
  {
    Generated(w, at + 1, NumericVectorInRangePlan(w, at, size, d, between), rhsFirst)
  }

  ghost function NumericMatrixRun<T>(w: Words, at: nat, d: Doubles<T>, between: int -> T, rhsFirst: bool): State<T>
    requires |d.specials| == 4
  {
    Generated(w, at + 3, NumericMatrixPlan(w, at, d, between), rhsFirst)
  }

  ghost function NumericMatrixInRangeRun<T>(
    w: Words, at: nat, cells: nat, d: Doubles<T>, between: int -> T, rhsFirst: bool): State<T>
    requires INT.Holds(cells) && |d.specials| == 4
  {
    Generated(w, at + 1, NumericMatrixInRangePlan(w, at, cells, d, between), rhsFirst)
  }

  // ----- The consumed part of the tape, from the first draw to the last, decides everything -----

  lemma AgreeParts(w: Words, w': Words, at: nat, middle: nat, end: nat)
    requires at <= middle <= end && Agree(w, w', at, end)
    ensures Agree(w, w', at, middle) && Agree(w, w', middle, end)
  {
  }

  lemma EndIsLater<T>(w: Words, at: nat, p: Plan<T>, rhsFirst: bool)
    requires Fits(p)
    ensures Generated(w, at, p, rhsFirst).at > at
  {
    DrawsAreExact(w, at, p, rhsFirst);
  }

  lemma HeadAgrees<T>(w: Words, w': Words, start: nat, at: nat, p: Plan<T>, rhsFirst: bool)
    requires start <= at && Fits(p) && Agree(w, w', start, Generated(w, at, p, rhsFirst).at)
    ensures Agree(w, w', start, at) && Agree(w, w', at, Generated(w, at, p, rhsFirst).at)
  {
    EndIsLater(w, at, p, rhsFirst);
    AgreeParts(w, w', start, at, Generated(w, at, p, rhsFirst).at);
  }

  lemma HeadAndRest<T>(w: Words, w': Words, start: nat, at: nat, p: Plan<T>, rhsFirst: bool)
    requires start <= at && Fits(p) && Agree(w, w', start, Generated(w, at, p, rhsFirst).at)
    ensures Agree(w, w', start, at) && Generated(w, at, p, rhsFirst) == Generated(w', at, p, rhsFirst)
  {
    HeadAgrees(w, w', start, at, p, rhsFirst);
    ConsumedPrefixDecides(w, w', at, p, rhsFirst);
  }

  /** Two plans, of which the second is known to equal the first when the tapes agree on the head. */
  lemma HeadDecides<T>(w: Words, w': Words, start: nat, at: nat, p: Plan<T>, p': Plan<T>, rhsFirst: bool)
    requires start <= at && Fits(p) && Fits(p') && Agree(w, w', start, Generated(w, at, p, rhsFirst).at)
    requires Agree(w, w', start, at) ==> p == p'
    ensures Generated(w, at, p, rhsFirst) == Generated(w', at, p', rhsFirst)
  {
    HeadAndRest(w, w', start, at, p, rhsFirst);
  }

  lemma SameCells(w: Words, w': Words, at: nat)
    ensures Agree(w, w', at, at + 3) ==> MatrixCells(w, at) == MatrixCells(w', at) && w(at) == w'(at)
  {
    if Agree(w, w', at, at + 3) {
      assert w(at + 1) == w'(at + 1) && w(at + 2) == w'(at + 2) && w(at) == w'(at);
    }
  }

  lemma IntegerMatrixPlanPrefix(w: Words, w': Words, at: nat)
    ensures Agree(w, w', at, at + 3) ==> IntegerMatrixPlan(w, at) == IntegerMatrixPlan(w', at)
  {
    SameCells(w, w', at);
  }

  lemma NumericMatrixPlanPrefix<T>(w: Words, w': Words, at: nat, d: Doubles<T>, between: int -> T)
    requires |d.specials| == 4
    ensures Agree(w, w', at, at + 3) ==> NumericMatrixPlan(w, at, d, between) == NumericMatrixPlan(w', at, d, between)
  {
    SameCells(w, w', at);
  }

  lemma SameSize(w: Words, w': Words, at: nat)
    ensures Agree(w, w', at, at + 2)
            ==> SmallInt(w, at, 0, 100) == SmallInt(w', at, 0, 100) && w(at + 1) == w'(at + 1)
  {
    if Agree(w, w', at, at + 2) {
      assert w(at) == w'(at) && w(at + 1) == w'(at + 1);
    }
  }

  lemma SameWord(w: Words, w': Words, at: nat)
    ensures Agree(w, w', at, at + 1) ==> w(at) == w'(at)
  {
  }

  // Tapes that agree on what the first one consumes give the same vector, end position and faults.

  lemma IntegerVectorPrefix(w: Words, w': Words, at: nat, rhsFirst: bool)
    requires Agree(w, w', at, IntegerVectorRun(w, at, rhsFirst).at)
    ensures IntegerVectorRun(w, at, rhsFirst) == IntegerVectorRun(w', at, rhsFirst)
  {
    SameSize(w, w', at);
    HeadDecides(w, w', at, at + 2, IntegerVectorPlan(w, at), IntegerVectorPlan(w', at), rhsFirst);
  }

  lemma IntegerMatrixPrefix(w: Words, w': Words, at: nat, rhsFirst: bool)
    requires Agree(w, w', at, IntegerMatrixRun(w, at, rhsFirst).at)
    ensures IntegerMatrixRun(w, at, rhsFirst) == IntegerMatrixRun(w', at, rhsFirst)
  {
    IntegerMatrixPlanPrefix(w, w', at);
    HeadDecides(w, w', at, at + 3, IntegerMatrixPlan(w, at), IntegerMatrixPlan(w', at), rhsFirst);
  }

  lemma IntegerVectorInRangePrefix(
    w: Words, w': Words, at: nat, size: nat, low: int, high: int, rhsFirst: bool)
    requires INT.Holds(size) && INT.Holds(low) && INT.Holds(high)
    requires Agree(w, w', at, IntegerVectorInRangeRun(w, at, size, low, high, rhsFirst).at)
    ensures IntegerVectorInRangeRun(w, at, size, low, high, rhsFirst)
         == IntegerVectorInRangeRun(w', at, size, low, high, rhsFirst)
  {
    SameWord(w, w', at);
    HeadDecides(w, w', at, at + 1, IntegerVectorInRangePlan(w, at, size, low, high),
                IntegerVectorInRangePlan(w', at, size, low, high), rhsFirst);
  }

  lemma IntegerMatrixInRangePrefix(
    w: Words, w': Words, at: nat, cells: nat, low: int, high: int, rhsFirst: bool)
    requires INT.Holds(cells) && INT.Holds(low) && INT.Holds(high)
    requires Agree(w, w', at, IntegerMatrixInRangeRun(w, at, cells, low, high, rhsFirst).at)
    ensures IntegerMatrixInRangeRun(w, at, cells, low, high, rhsFirst)
         == IntegerMatrixInRangeRun(w', at, cells, low, high, rhsFirst)
  {
    SameWord(w, w', at);
    HeadDecides(w, w', at, at + 1, IntegerMatrixInRangePlan(w, at, cells, low, high),
                IntegerMatrixInRangePlan(w', at, cells, low, high), rhsFirst);
  }

  lemma NumericVectorPrefix<T>(w: Words, w': Words, at: nat, d: Doubles<T>, rhsFirst: bool)
    requires |d.specials| == 4 && Agree(w, w', at, NumericVectorRun(w, at, d, rhsFirst).at)
    ensures NumericVectorRun(w, at, d, rhsFirst) == NumericVectorRun(w', at, d, rhsFirst)
  {
    SameSize(w, w', at);
    HeadDecides(w, w', at, at + 2, NumericVectorPlan(w, at, d), NumericVectorPlan(w', at, d), rhsFirst);
  }

  lemma NumericMatrixPrefix<T>(w: Words, w': Words, at: nat, d: Doubles<T>, between: int -> T, rhsFirst: bool)
    requires |d.specials| == 4 && Agree(w, w', at, NumericMatrixRun(w, at, d, between, rhsFirst).at)
    ensures NumericMatrixRun(w, at, d, between, rhsFirst) == NumericMatrixRun(w', at, d, between, rhsFirst)
  {
    NumericMatrixPlanPrefix(w, w', at, d, between);
    HeadDecides(w, w', at, at + 3, NumericMatrixPlan(w, at, d, between),
                NumericMatrixPlan(w', at, d, between), rhsFirst);
  }

  lemma NumericVectorInRangePrefix<T>(
    w: Words, w': Words, at: nat, size: nat, d: Doubles<T>, between: int -> T, rhsFirst: bool)
    requires INT.Holds(size) && |d.specials| == 4
    requires Agree(w, w', at, NumericVectorInRangeRun(w, at, size, d, between, rhsFirst).at)
    ensures NumericVectorInRangeRun(w, at, size, d, between, rhsFirst)
         == NumericVectorInRangeRun(w', at, size, d, between, rhsFirst)
  {
    SameWord(w, w', at);
    HeadDecides(w, w', at, at + 1, NumericVectorInRangePlan(w, at, size, d, between),
                NumericVectorInRangePlan(w', at, size, d, between), rhsFirst);
  }

  lemma NumericMatrixInRangePrefix<T>(
    w: Words, w': Words, at: nat, cells: nat, d: Doubles<T>, between: int -> T, rhsFirst: bool)
    requires INT.Holds(cells) && |d.specials| == 4
    requires Agree(w, w', at, NumericMatrixInRangeRun(w, at, cells, d, between, rhsFirst).at)
    ensures NumericMatrixInRangeRun(w, at, cells, d, between, rhsFirst)
         == NumericMatrixInRangeRun(w', at, cells, d, between, rhsFirst)
  {
    SameWord(w, w', at);
    HeadDecides(w, w', at, at + 1, NumericMatrixInRangePlan(w, at, cells, d, between),
                NumericMatrixInRangePlan(w', at, cells, d, between), rhsFirst);
  }
}
