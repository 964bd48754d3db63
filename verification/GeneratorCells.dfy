/**
 * Which raw value each cell of a generated vector comes from, and which missing value ends up where,
 * in closed form: word by word, without the functions that the generators are specified by.
 */
module GeneratorCells {
  import opened Arithmetic
  import opened CIntegers
  import opened RangeReduction
  import opened Generators
  import opened GeneratorProperties
  import opened GeneratorRuns

  /** A word as an int, in absolute value, modulo n. */
  function Reduced(word: int, n: nat): nat
    requires n >= 1
  {
    AbsoluteIn(32, INT.Wrap(word)) % n
  }

  /** A word as an int between 1 and 10. */
  function Side(word: int): nat {
    var x := INT.Wrap(word);
    if 1 <= x <= 10 then x else 1 + Reduced(word, 10)
  }

  /** A word as any int. */
  function AsInt(): int -> int {
    (word: int) => INT.Wrap(word)
  }

  /** A word as an int between the bounds. */
  function AsIntIn(low: int, high: int): int -> int
    requires INT.Holds(low) && INT.Holds(high)
  {
    (word: int) => InRangeValue(INT, low, high, INT.Wrap(word))
  }

  /** The words of the k-th overwrite of n cells: two, or one for a single cell, whose position is not drawn. */
  function Offset(n: nat, k: nat): nat {
    if n == 1 then k else 2 * k
  }

  /** The position of the k-th overwrite: from its first word, or from its second where the right operand goes first. */
  function Position(w: Words, base: nat, n: nat, rhsFirst: bool): nat -> int
    requires n >= 1
  {
    (k: nat) => Reduced(w(base + Offset(n, k) + if rhsFirst then 1 else 0), n)
  }

  /** The place, in the list of m missing values, of the one written by the k-th overwrite: from its other word. */
  function Choice(w: Words, base: nat, n: nat, m: nat, rhsFirst: bool): nat -> int
    requires m >= 1
  {
    (k: nat) => Reduced(w(base + Offset(n, k) + if rhsFirst || n == 1 then 0 else 1), m)
  }

  /** Overwrite k is the last one at position i. */
  ghost predicate LastAt(times: nat, position: nat -> int, i: int, k: nat) {
    k < times && position(k) == i && forall l: nat | k < l < times :: position(l) != i
  }

  /** v is what was there before with all overwrites on it; at each position the last one stays. */
  ghost predicate Lands<T>(
    v: seq<T>, before: seq<T>, missing: seq<T>, times: nat, position: nat -> int, choice: nat -> int)
  {
    && |v| == |before| && (forall k: nat | k < times :: 0 <= choice(k) < |missing|)
    && forall i | 0 <= i < |v| ::
         && (forall k: nat | LastAt(times, position, i, k) :: v[i] == missing[choice(k)])
         && ((forall k: nat | k < times :: position(k) != i) ==> v[i] == before[i])
  }

  /** The first `fill` of n cells come from the words from `base` on, one each where they are drawn at all. */
  function Drawn<T>(w: Words, base: nat, n: nat, fill: nat, drawn: bool, cell: int -> T, zero: T): (v: seq<T>)
    ensures |v| == n
    ensures forall i | 0 <= i < n ::
              v[i] == if i < fill then cell(if drawn then w(base + i) else 0) else zero
  {
    seq(n, i requires 0 <= i < n => if i < fill then cell(if drawn then w(base + i) else 0) else zero)
  }

  /** How the cells of a generator are made. */
  datatype Recipe<!T> = Recipe(drawn: bool, cell: int -> T, zero: T, full: bool, missing: seq<T>, times: nat)

  /** All n cells come from the words from `at` on. */
  predicate Fills<T(==)>(w: Words, at: nat, v: seq<T>, n: nat, r: Recipe<T>) {
    v == Drawn(w, at, n, n, r.drawn, r.cell, r.zero)
  }

  /** All n cells, or all but the last, come from the words from `at` on, and the next words overwrite some. */
  ghost predicate FillsAndOverwrites<T>(w: Words, at: nat, v: seq<T>, n: nat, r: Recipe<T>, rhsFirst: bool)
    requires |r.missing| >= 1
  {
    var fill := if r.full || n == 0 then n else n - 1;
    var base := at + if r.drawn then fill else 0;
    && |v| == n
    && (n >= 1 ==>
          Lands(v, Drawn(w, at, n, fill, r.drawn, r.cell, r.zero), r.missing, r.times, Position(w, base, n, rhsFirst),
                Choice(w, base, n, |r.missing|, rhsFirst)))
  }

  /** What a generator delivers whose OneOf reads the word at `branch`: an odd one overwrites too. */
  ghost predicate Delivers<T>(w: Words, branch: nat, v: seq<T>, n: nat, r: Recipe<T>, rhsFirst: bool)
    requires |r.missing| >= 1
  {
    if w(branch) % 2 == 0 then Fills(w, branch + 1, v, n, r) else FillsAndOverwrites(w, branch + 1, v, n, r, rhsFirst)
  }

  // ----- The generators deliver that -----

  lemma Doubled(h: int, q: int)
    ensures (2 * h) * q == 2 * (h * q)
  {
  }

  lemma EvenPart(a: int, k: int, r: int)
    requires a == 2 * k + r
    ensures a % 2 == r % 2
  {
  }

  lemma ParityModulo(a: int, h: nat)
    requires h >= 1
    ensures (a % (2 * h)) % 2 == a % 2
  {
    var m := 2 * h;
    var q := a / m;
    assert a == m * q + a % m;
    Doubled(h, q);
    EvenPart(a, h * q, a % m);
  }

  lemma Parity(word: int)
    ensures UINT.Wrap(word) % 2 == word % 2
  {
    ParityModulo(word, Pow2(31));
  }

  lemma PlainIsEven(w: Words, at: nat)
    ensures Plain(w, at) <==> w(at) % 2 == 0
  {
    WidthsOfInt();
    IndexIsRemainder(UINT, 2, UINT.Wrap(w(at)));
    Parity(w(at));
  }

  lemma IndexIs(w: Words, at: nat, n: nat)
    requires n >= 1 && Indexable(n)
    ensures Index(w, at, n) == Reduced(w(at), n)
  {
    IndexIsRemainder(INT, n, INT.Wrap(w(at)));
  }

  lemma OneCell(word: int)
    ensures Reduced(word, 1) == 0
  {
  }

  lemma OperateIs(w: Words, at: nat, n: nat, m: nat, rhsFirst: bool)
    requires n >= 1 && Indexable(n) && m >= 2 && Indexable(m)
    ensures Operate(w, at, n, m, rhsFirst).position == Reduced(w(at + if rhsFirst then 1 else 0), n)
    ensures Operate(w, at, n, m, rhsFirst).choice == Reduced(w(at + if rhsFirst || n == 1 then 0 else 1), m)
  {
    if rhsFirst {
      IndexIs(w, at + 1, n);
      IndexIs(w, at, m);
    } else {
      IndexIs(w, at, n);
      IndexIs(w, at + IndexDraws(n), m);
    }
  }

  /** The state after the overwrites, for any operands as functions of the position on the tape. */
  lemma {:induction false} OverwritesLand<T>(
    f: nat -> Operands, draws: nat, s: State<T>, missing: seq<T>, times: nat, position: nat -> int, choice: nat -> int)
    requires s.v != [] && Sound(f, |s.v|, |missing|)
    requires forall k: nat | k < times ::
               position(k) == f(s.at + k * draws).position && choice(k) == f(s.at + k * draws).choice
    ensures Lands(Overwritten(f, draws, s, missing, times).v, s.v, missing, times, position, choice)
  {
    if times > 0 {
      var n := times - 1;
      OverwritesLand(f, draws, s, missing, n, position, choice);
      OverwriteFaults(f, draws, s, missing, n);
      var t := Overwritten(f, draws, s, missing, n);
      assert f(t.at).position == position(n) && f(t.at).choice == choice(n);
      OneMoreLands(t.v, s.v, missing, n, position, choice);
    }
  }

  lemma OneMoreLands<T>(
    v: seq<T>, before: seq<T>, missing: seq<T>, n: nat, position: nat -> int, choice: nat -> int)
    requires Lands(v, before, missing, n, position, choice)
    requires 0 <= position(n) < |v| && 0 <= choice(n) < |missing|
    ensures Lands(v[position(n) := missing[choice(n)]], before, missing, n + 1, position, choice)
  {
    var u := v[position(n) := missing[choice(n)]];
    forall i, k: nat | 0 <= i < |u| && LastAt(n + 1, position, i, k) ensures u[i] == missing[choice(k)] {
      if k < n {
        assert position(n) != i;
        assert LastAt(n, position, i, k);
      }
    }
    forall i | 0 <= i < |u| && forall k: nat | k < n + 1 :: position(k) != i ensures u[i] == before[i] {
      assert position(n) != i;
      assert forall k: nat | k < n :: position(k) != i;
    }
  }

  lemma OffsetIs(n: nat, k: nat)
    ensures Offset(n, k) == k * (if n == 1 then 1 else 2)
  {
  }

  lemma DrawsOfOne<T>(p: Plan<T>)
    requires Fits(p) && |p.missing| >= 2
    ensures OverwriteDraws(p) == if p.cells == 1 then 1 else 2
  {
  }

  lemma PositionAt(w: Words, base: nat, n: nat, rhsFirst: bool, k: nat)
    requires n >= 1
    ensures Position(w, base, n, rhsFirst)(k) == Reduced(w(base + Offset(n, k) + if rhsFirst then 1 else 0), n)
  {
  }

  lemma ChoiceAt(w: Words, base: nat, n: nat, m: nat, rhsFirst: bool, k: nat)
    requires m >= 1
    ensures Choice(w, base, n, m, rhsFirst)(k)
         == Reduced(w(base + Offset(n, k) + if rhsFirst || n == 1 then 0 else 1), m)
  {
  }

  lemma OperatorAt<T>(w: Words, p: Plan<T>, rhsFirst: bool, at: nat)
    requires Fits(p)
    ensures PlanOperator(w, p, rhsFirst)(at) == Operate(w, at, p.cells, |p.missing|, rhsFirst)
  {
  }

  /** The operands of a plan at a position of the tape. */
  lemma OperandsAt<T>(w: Words, p: Plan<T>, rhsFirst: bool, base: nat, k: nat)
    requires Fits(p) && |p.missing| >= 2 && p.cells >= 1
    ensures var o := PlanOperator(w, p, rhsFirst)(base + Offset(p.cells, k));
            && Position(w, base, p.cells, rhsFirst)(k) == o.position
            && Choice(w, base, p.cells, |p.missing|, rhsFirst)(k) == o.choice
  {
    PositionAt(w, base, p.cells, rhsFirst, k);
    ChoiceAt(w, base, p.cells, |p.missing|, rhsFirst, k);
    OperatorAt(w, p, rhsFirst, base + Offset(p.cells, k));
    OperateIs(w, base + Offset(p.cells, k), p.cells, |p.missing|, rhsFirst);
  }

  lemma OffsetOfPlan<T>(p: Plan<T>, k: nat)
    requires Fits(p) && |p.missing| >= 2
    ensures k * OverwriteDraws(p) == Offset(p.cells, k)
  {
    DrawsOfOne(p);
    OffsetIs(p.cells, k);
  }

  /** The overwrites of a plan, from the words after its cells. */
  lemma ScatterLands<T>(w: Words, s: State<T>, p: Plan<T>, rhsFirst: bool)
    requires Fits(p) && |p.missing| >= 2 && p.cells >= 1 && |s.v| == p.cells
    ensures Lands(Overwritten(PlanOperator(w, p, rhsFirst), OverwriteDraws(p), s, p.missing, p.overwrites).v, s.v,
                  p.missing, p.overwrites, Position(w, s.at, p.cells, rhsFirst),
                  Choice(w, s.at, p.cells, |p.missing|, rhsFirst))
  {
    var f, d := PlanOperator(w, p, rhsFirst), OverwriteDraws(p);
    var position, choice := Position(w, s.at, p.cells, rhsFirst), Choice(w, s.at, p.cells, |p.missing|, rhsFirst);
    forall k: nat | k < p.overwrites
      ensures position(k) == f(s.at + k * d).position && choice(k) == f(s.at + k * d).choice
    {
      OffsetOfPlan(p, k);
      OperandsAt(w, p, rhsFirst, s.at, k);
    }
    OverwritesLand(f, d, s, p.missing, p.overwrites, position, choice);
  }

  lemma FilledIs<T>(w: Words, at: nat, p: Plan<T>, plain: bool, cell: int -> T)
    requires forall x :: p.source.value(x) == cell(x)
    ensures FilledState(w, at, p, plain).v
         == Drawn(w, at, p.cells, FillCount(p, plain), p.source.drawn, cell, p.zero)
  {
  }

  function RecipeOf<T>(p: Plan<T>, cell: int -> T): Recipe<T> {
    Recipe(p.source.drawn, cell, p.zero, p.full, p.missing, p.overwrites)
  }

  lemma BranchFills<T>(w: Words, at: nat, p: Plan<T>, rhsFirst: bool, cell: int -> T)
    requires Fits(p) && forall x :: p.source.value(x) == cell(x)
    ensures Fills(w, at, Branch(w, at, p, rhsFirst, true).v, p.cells, RecipeOf(p, cell))
  {
    FilledIs(w, at, p, true, cell);
  }

  lemma OverwritesAreThose<T>(
    w: Words, at: nat, v: seq<T>, n: nat, r: Recipe<T>, rhsFirst: bool, before: seq<T>, base: nat, fill: nat)
    requires |r.missing| >= 1 && |v| == n && fill == (if r.full || n == 0 then n else n - 1)
    requires base == at + (if r.drawn then fill else 0)
    requires before == Drawn(w, at, n, fill, r.drawn, r.cell, r.zero)
    requires n >= 1 ==> Lands(v, before, r.missing, r.times, Position(w, base, n, rhsFirst),
                              Choice(w, base, n, |r.missing|, rhsFirst))
    ensures FillsAndOverwrites(w, at, v, n, r, rhsFirst)
  {
  }

  lemma BranchSize<T>(w: Words, at: nat, p: Plan<T>, rhsFirst: bool)
    requires Fits(p)
    ensures var s := FilledState(w, at, p, false);
            && |s.v| == p.cells && s.at == at + (if p.source.drawn then FillCount(p, false) else 0)
            && Branch(w, at, p, rhsFirst, false)
               == Overwritten(PlanOperator(w, p, rhsFirst), OverwriteDraws(p), s, p.missing, p.overwrites)
            && |Branch(w, at, p, rhsFirst, false).v| == p.cells
  {
  }

  lemma BranchOverwrites<T>(w: Words, at: nat, p: Plan<T>, rhsFirst: bool, cell: int -> T)
    requires Fits(p) && |p.missing| >= 2 && forall x :: p.source.value(x) == cell(x)
    ensures FillsAndOverwrites(w, at, Branch(w, at, p, rhsFirst, false).v, p.cells, RecipeOf(p, cell), rhsFirst)
  {
    var s := FilledState(w, at, p, false);
    FilledIs(w, at, p, false, cell);
    BranchSize(w, at, p, rhsFirst);
    if p.cells >= 1 {
      ScatterLands(w, s, p, rhsFirst);
    }
    OverwritesAreThose(w, at, Branch(w, at, p, rhsFirst, false).v, p.cells, RecipeOf(p, cell), rhsFirst, s.v, s.at,
                       FillCount(p, false));
  }

  lemma GeneratedDelivers<T>(w: Words, at: nat, p: Plan<T>, rhsFirst: bool, cell: int -> T)
    requires Fits(p) && |p.missing| >= 2 && forall x :: p.source.value(x) == cell(x)
    ensures Delivers(w, at, Generated(w, at, p, rhsFirst).v, p.cells, RecipeOf(p, cell), rhsFirst)
  {
    PlainIsEven(w, at);
    if Plain(w, at) {
      BranchFills(w, at + 1, p, rhsFirst, cell);
    } else {
      BranchOverwrites(w, at + 1, p, rhsFirst, cell);
    }
  }

  // ----- The eight generators -----

  lemma SizeIs(w: Words, at: nat)
    ensures SmallInt(w, at, 0, 100) == Reduced(w(at), 101)
  {
    SmallInts();
    IndexIsRemainder(INT, 101, INT.Wrap(w(at)));
  }

  lemma SideIs(w: Words, at: nat)
    ensures SmallInt(w, at, 1, 10) == Side(w(at))
  {
    LimitsOfInt();
    WidthsOfInt();
    InRangeArithmetic(INT, 1, 10, INT.Wrap(w(at)));
  }

  /** Number of cells of a matrix whose sides come from the two words after the first. */
  function Area(w: Words, at: nat): nat {
    MulMono(0, Side(w(at + 1)), Side(w(at + 2)));
    Side(w(at + 1)) * Side(w(at + 2))
  }

  lemma CellsAre(w: Words, at: nat)
    ensures MatrixCells(w, at) == Area(w, at)
  {
    SideIs(w, at + 1);
    SideIs(w, at + 2);
  }

  lemma NaIs()
    ensures NaInteger() == -0x8000_0000
  {
    LimitsOfInt();
  }

  /** The size, then the first missing value, then OneOf, then the cells. */
  ghost predicate IntegerVectorCells(w: Words, at: nat, v: seq<int>, rhsFirst: bool)
  {
    Delivers(w, at + 2, v, Reduced(w(at), 101),
             Recipe(true, AsInt(), 0, true, [INT.Wrap(w(at + 1)), -0x8000_0000], 2), rhsFirst)
  }

  lemma IntegerVectorDelivers(w: Words, at: nat, rhsFirst: bool)
    ensures IntegerVectorCells(w, at, IntegerVectorRun(w, at, rhsFirst).v, rhsFirst)
  {
    NaIs();
    SizeIs(w, at);
    GeneratedDelivers(w, at + 2, IntegerVectorPlan(w, at), rhsFirst, AsInt());
  }

  /** The first missing value, then OneOf, then the cells; a one-point range draws none. */
  ghost predicate IntegerVectorInRangeCells(
    w: Words, at: nat, size: nat, low: int, high: int, v: seq<int>, rhsFirst: bool)
    requires INT.Holds(size) && INT.Holds(low) && INT.Holds(high)
  {
    Delivers(w, at + 1, v, size,
             Recipe(low != high, AsIntIn(low, high), 0, true, [INT.Wrap(w(at)), -0x8000_0000], 2), rhsFirst)
  }

  lemma IntegerVectorInRangeDelivers(w: Words, at: nat, size: nat, low: int, high: int, rhsFirst: bool)
    requires INT.Holds(size) && INT.Holds(low) && INT.Holds(high)
    ensures IntegerVectorInRangeCells(w, at, size, low, high,
              IntegerVectorInRangeRun(w, at, size, low, high, rhsFirst).v, rhsFirst)
  {
    NaIs();
    GeneratedDelivers(w, at + 1, IntegerVectorInRangePlan(w, at, size, low, high), rhsFirst, AsIntIn(low, high));
  }

  function ZeroToHundredCell(): int -> int {
    SmallInts();
    AsIntIn(0, 100)
  }

  /** The first missing value, then the two sides, then OneOf, then the cells. */
  ghost predicate IntegerMatrixCells(w: Words, at: nat, v: seq<int>, rhsFirst: bool)
  {
    Delivers(w, at + 3, v, Area(w, at),
             Recipe(true, ZeroToHundredCell(), 0, true, [INT.Wrap(w(at)), -0x8000_0000], 5), rhsFirst)
  }

  lemma IntegerMatrixDelivers(w: Words, at: nat, rhsFirst: bool)
    ensures IntegerMatrixCells(w, at, IntegerMatrixRun(w, at, rhsFirst).v, rhsFirst)
  {
    NaIs();
    CellsAre(w, at);
    GeneratedDelivers(w, at + 3, IntegerMatrixPlan(w, at), rhsFirst, ZeroToHundredCell());
  }

  /** The first missing value, then OneOf, then the cells. */
  ghost predicate IntegerMatrixInRangeCells(
    w: Words, at: nat, cells: nat, low: int, high: int, v: seq<int>, rhsFirst: bool)
    requires INT.Holds(cells) && INT.Holds(low) && INT.Holds(high)
  {
    Delivers(w, at + 1, v, cells,
             Recipe(low != high, AsIntIn(low, high), 0, true, [INT.Wrap(w(at)), -0x8000_0000], 5), rhsFirst)
  }

  lemma IntegerMatrixInRangeDelivers(w: Words, at: nat, cells: nat, low: int, high: int, rhsFirst: bool)
    requires INT.Holds(cells) && INT.Holds(low) && INT.Holds(high)
    ensures IntegerMatrixInRangeCells(w, at, cells, low, high,
              IntegerMatrixInRangeRun(w, at, cells, low, high, rhsFirst).v, rhsFirst)
  {
    NaIs();
    GeneratedDelivers(w, at + 1, IntegerMatrixInRangePlan(w, at, cells, low, high), rhsFirst, AsIntIn(low, high));
  }

  /** The size, then the first missing value, then OneOf, then the cells: without the last on an odd word. */
  ghost predicate NumericVectorCells<T>(w: Words, at: nat, d: Doubles<T>, v: seq<T>, rhsFirst: bool)
    requires |d.specials| == 4
  {
    Delivers(w, at + 2, v, Reduced(w(at), 101),
             Recipe(true, d.any, d.zero, false, [d.any(w(at + 1))] + d.specials, 5), rhsFirst)
  }

  lemma NumericVectorDelivers<T>(w: Words, at: nat, d: Doubles<T>, rhsFirst: bool)
    requires |d.specials| == 4
    ensures NumericVectorCells(w, at, d, NumericVectorRun(w, at, d, rhsFirst).v, rhsFirst)
  {
    SizeIs(w, at);
    GeneratedDelivers(w, at + 2, NumericVectorPlan(w, at, d), rhsFirst, d.any);
  }

  /** The first missing value, then OneOf, then the cells: without the last on an odd word. */
  ghost predicate NumericVectorInRangeCells<T>(
    w: Words, at: nat, size: nat, d: Doubles<T>, between: int -> T, v: seq<T>, rhsFirst: bool)
    requires INT.Holds(size) && |d.specials| == 4
  {
    Delivers(w, at + 1, v, size,
             Recipe(true, between, d.zero, false, [d.any(w(at))] + d.specials, 5), rhsFirst)
  }

  lemma NumericVectorInRangeDelivers<T>(w: Words, at: nat, size: nat, d: Doubles<T>, between: int -> T, rhsFirst: bool)
    requires INT.Holds(size) && |d.specials| == 4
    ensures NumericVectorInRangeCells(w, at, size, d, between,
              NumericVectorInRangeRun(w, at, size, d, between, rhsFirst).v, rhsFirst)
  {
    GeneratedDelivers(w, at + 1, NumericVectorInRangePlan(w, at, size, d, between), rhsFirst, between);
  }

  /** The first missing value, then the two sides, then OneOf, then the cells. */
  ghost predicate NumericMatrixCells<T>(w: Words, at: nat, d: Doubles<T>, between: int -> T, v: seq<T>, rhsFirst: bool)
    requires |d.specials| == 4
  {
    Delivers(w, at + 3, v, Area(w, at),
             Recipe(true, between, d.zero, true, [d.any(w(at))] + d.specials, 5), rhsFirst)
  }

  lemma NumericMatrixDelivers<T>(w: Words, at: nat, d: Doubles<T>, between: int -> T, rhsFirst: bool)
    requires |d.specials| == 4
    ensures NumericMatrixCells(w, at, d, between, NumericMatrixRun(w, at, d, between, rhsFirst).v, rhsFirst)
  {
    CellsAre(w, at);
    GeneratedDelivers(w, at + 3, NumericMatrixPlan(w, at, d, between), rhsFirst, between);
  }

  /** The first missing value, then OneOf, then the cells. */
  ghost predicate NumericMatrixInRangeCells<T>(
    w: Words, at: nat, cells: nat, d: Doubles<T>, between: int -> T, v: seq<T>, rhsFirst: bool)
    requires INT.Holds(cells) && |d.specials| == 4
  {
    Delivers(w, at + 1, v, cells,
             Recipe(true, between, d.zero, true, [d.any(w(at))] + d.specials, 5), rhsFirst)
  }

  lemma NumericMatrixInRangeDelivers<T>(w: Words, at: nat, cells: nat, d: Doubles<T>, between: int -> T, rhsFirst: bool)
    requires INT.Holds(cells) && |d.specials| == 4
    ensures NumericMatrixInRangeCells(w, at, cells, d, between,
              NumericMatrixInRangeRun(w, at, cells, d, between, rhsFirst).v, rhsFirst)
  {
    GeneratedDelivers(w, at + 1, NumericMatrixInRangePlan(w, at, cells, d, between), rhsFirst, between);
  }
}
