/**
 * The Rcpp vector and matrix generators (inst/include/RcppDeepState.h:38-224). All eight fill a
 * fresh vector with drawn cells, on one of two branches, and on the second branch then overwrite
 * random positions with missing values. Doubles are an opaque type T, drawn with one raw value each.
 */
module Generators {
  import opened CIntegers
  import opened RangeReduction

  type Words = nat -> int

  /** How one cell is drawn: from one raw value, or, for a one-point range, from none. */
  datatype Source<!T> = Source(drawn: bool, value: int -> T)

  /**
   * A generator after its size and missing values are known: `full` says whether the second branch
   * fills every cell or all but the last.
   */
  datatype Plan<!T> = Plan(cells: nat, zero: T, source: Source<T>, full: bool, missing: seq<T>, overwrites: nat)

  /** The vector so far, the position on the tape, and the positions of writes outside the vector. */
  datatype State<!T> = State(v: seq<T>, at: nat, faults: seq<int>)

  // ----- What a generator computes, as a function of the tape -----

  function Cell<T>(w: Words, at: nat, s: Source<T>, i: nat): T {
    s.value(if s.drawn then w(at + i) else 0)
  }

  function Drawn<T>(s: Source<T>, n: nat): nat {
    if s.drawn then n else 0
  }

  function Filled<T>(w: Words, at: nat, p: Plan<T>, n: nat): seq<T>
    requires n <= p.cells
  {
    seq(p.cells, i requires 0 <= i < p.cells => if i < n then Cell(w, at, p.source, i) else p.zero)
  }

  /** An int can hold the last index. */
  predicate Indexable(n: nat) {
    n - 1 <= INT.Max()
  }

  function Index(w: Words, at: nat, n: nat): (r: int)
    requires Indexable(n)
    ensures 0 <= r < n <==> n >= 1
    ensures n == 0 ==> r == -1 || r == 0
  {
    InRangeValue(INT, 0, n - 1, INT.Wrap(w(at)))
  }

  function IndexDraws(n: nat): nat {
    if n == 1 then 0 else 1
  }

  /** The operands of v[IntInRange(0, n - 1)] = OneOf(missing), for m missing values. */
  datatype Operands = Operands(position: int, choice: int)

  /** The operands drawn at a position of the tape, the right one first where rhsFirst. */
  function Operate(w: Words, at: nat, n: nat, m: nat, rhsFirst: bool): (o: Operands)
    requires Indexable(n) && 1 <= m && Indexable(m)
    ensures 0 <= o.choice < m
    ensures 0 <= o.position < n <==> n >= 1
  {
    if rhsFirst then Operands(Index(w, at + IndexDraws(m), n), Index(w, at, m))
    else Operands(Index(w, at, n), Index(w, at + IndexDraws(n), m))
  }

  /** The operands as a function of the position alone, for n cells and m missing values. */
  function Operator(w: Words, n: nat, m: nat, rhsFirst: bool): (f: nat -> Operands)
    requires Indexable(n) && 1 <= m && Indexable(m)
    ensures Sound(f, n, m)
  {
    (at: nat) => Operate(w, at, n, m, rhsFirst)
  }

  ghost predicate Sound(f: nat -> Operands, n: nat, m: nat) {
    forall at: nat :: 0 <= f(at).choice < m && (0 <= f(at).position < n <==> n >= 1)
  }

  /** One overwriting statement, which consumes `draws` raw values. */
  ghost function Overwrite<T>(f: nat -> Operands, draws: nat, s: State<T>, missing: seq<T>): (r: State<T>)
    requires Sound(f, |s.v|, |missing|)
    ensures |r.v| == |s.v| && r.at == s.at + draws
    ensures |r.faults| == |s.faults| + if s.v == [] then 1 else 0
  {
    var o := f(s.at);
    if 0 <= o.position < |s.v| then State(s.v[o.position := missing[o.choice]], s.at + draws, s.faults)
    else State(s.v, s.at + draws, s.faults + [o.position])
  }

  ghost function Overwritten<T>(f: nat -> Operands, draws: nat, s: State<T>, missing: seq<T>, times: nat): (r: State<T>)
    requires Sound(f, |s.v|, |missing|)
    ensures |r.v| == |s.v|
  {
    if times == 0 then s else Overwrite(f, draws, Overwritten(f, draws, s, missing, times - 1), missing)
  }

  predicate Fits<T>(p: Plan<T>) {
    Indexable(p.cells) && 1 <= |p.missing| && Indexable(|p.missing|)
  }

  /** OneOf over the two branches draws one unsigned value; 0 is the plain branch. */
  predicate Plain(w: Words, at: nat) {
    assert UINT.Holds(1) by { WidthsOfInt(); }
    InRangeValue(UINT, 0, 1, UINT.Wrap(w(at))) == 0
  }

  function FillCount<T>(p: Plan<T>, plain: bool): (n: nat)
    ensures n <= p.cells
  {
    if plain || p.full || p.cells == 0 then p.cells else p.cells - 1
  }

  /** After the loop that draws cells. */
  function FilledState<T>(w: Words, at: nat, p: Plan<T>, plain: bool): State<T> {
    var n := FillCount(p, plain);
    State(Filled(w, at, p, n), at + Drawn(p.source, n), [])
  }

  /** Raw values one overwriting statement consumes. */
  function OverwriteDraws<T>(p: Plan<T>): nat {
    IndexDraws(p.cells) + IndexDraws(|p.missing|)
  }

  function PlanOperator<T>(w: Words, p: Plan<T>, rhsFirst: bool): (f: nat -> Operands)
    requires Fits(p)
    ensures Sound(f, p.cells, |p.missing|)
  {
    Operator(w, p.cells, |p.missing|, rhsFirst)
  }

  /** What a branch, entered at a position of the tape, leaves behind. */
  ghost function Branch<T>(w: Words, at: nat, p: Plan<T>, rhsFirst: bool, plain: bool): State<T>
    requires Fits(p)
  {
    var filled := FilledState(w, at, p, plain);
    if plain then filled
    else Overwritten(PlanOperator(w, p, rhsFirst), OverwriteDraws(p), filled, p.missing, p.overwrites)
  }

  ghost function Generated<T>(w: Words, at: nat, p: Plan<T>, rhsFirst: bool): State<T>
    requires Fits(p)
  {
    Branch(w, at + 1, p, rhsFirst, Plain(w, at))
  }

  // ----- The generators -----

  /** The loop that draws the first n cells. */
  method Fill<T>(tape: Tape, p: Plan<T>, v: array<T>, n: nat)
    requires v.Length == p.cells && n <= p.cells && v[..] == Filled(tape.words, tape.at, p, 0)
    modifies tape, v
    ensures tape.at == old(tape.at) + Drawn(p.source, n)
    ensures v[..] == Filled(tape.words, old(tape.at), p, n)
  {
    var i := 0;
    while i < n
      invariant i <= n && tape.at == old(tape.at) + Drawn(p.source, i)
      invariant v[..] == Filled(tape.words, old(tape.at), p, i)
    {
      var word := 0;
      if p.source.drawn {
        word := tape.words(tape.at);
        tape.at := tape.at + 1;
      }
      v[i] := p.source.value(word);
      i := i + 1;
    }
  }

  method DrawIndex(tape: Tape, n: nat) returns (i: int)
    requires Indexable(n)
    modifies tape
    ensures i == Index(tape.words, old(tape.at), n)
    ensures tape.at == old(tape.at) + IndexDraws(n)
  {
    i := tape.InRange(INT, 0, n - 1);
  }

  method DrawOperands(tape: Tape, n: nat, m: nat, rhsFirst: bool) returns (o: Operands)
    requires Indexable(n) && 1 <= m && Indexable(m)
    modifies tape
    ensures o == Operator(tape.words, n, m, rhsFirst)(old(tape.at))
    ensures tape.at == old(tape.at) + IndexDraws(n) + IndexDraws(m)
  {
    var position, choice;
    if rhsFirst {
      choice := DrawIndex(tape, m);
      position := DrawIndex(tape, n);
    } else {
      position := DrawIndex(tape, n);
      choice := DrawIndex(tape, m);
    }
    o := Operands(position, choice);
  }

  /** One execution of the overwriting statement. */
  method OverwriteOnce<T>(tape: Tape, p: Plan<T>, v: array<T>, rhsFirst: bool, faults: seq<int>)
    returns (faults': seq<int>)
    requires Fits(p) && v.Length == p.cells
    modifies tape, v
    ensures State(v[..], tape.at, faults')
         == Overwrite(PlanOperator(tape.words, p, rhsFirst), OverwriteDraws(p),
                      State(old(v[..]), old(tape.at), faults), p.missing)
  {
    var o := DrawOperands(tape, v.Length, |p.missing|, rhsFirst);
    faults' := faults;
    if 0 <= o.position < v.Length {
      v[o.position] := p.missing[o.choice];
    } else {
      faults' := faults + [o.position];
    }
  }

  method Scatter<T>(tape: Tape, p: Plan<T>, v: array<T>, rhsFirst: bool) returns (faults: seq<int>)
    requires Fits(p) && v.Length == p.cells
    modifies tape, v
    ensures State(v[..], tape.at, faults)
         == Overwritten(PlanOperator(tape.words, p, rhsFirst), OverwriteDraws(p),
                        State(old(v[..]), old(tape.at), []), p.missing, p.overwrites)
  {
    faults := [];
    ghost var filled := State(v[..], tape.at, []);
    var k := 0;
    while k < p.overwrites
      invariant k <= p.overwrites
      invariant State(v[..], tape.at, faults)
             == Overwritten(PlanOperator(tape.words, p, rhsFirst), OverwriteDraws(p), filled, p.missing, k)
    {
      faults := OverwriteOnce(tape, p, v, rhsFirst, faults);
      k := k + 1;
    }
  }

  method DrawBranch(tape: Tape) returns (plain: bool)
    modifies tape
    ensures plain == Plain(tape.words, old(tape.at)) && tape.at == old(tape.at) + 1
  {
    assert UINT.Holds(1) by { WidthsOfInt(); }
    var index := tape.InRange(UINT, 0, 1);
    plain := index == 0;
  }

  /** The function that OneOf picks: fill, and on the second branch overwrite. */
  method RunBranch<T>(tape: Tape, p: Plan<T>, v: array<T>, rhsFirst: bool, plain: bool) returns (faults: seq<int>)
    requires Fits(p) && v.Length == p.cells && v[..] == Filled(tape.words, tape.at, p, 0)
    modifies tape, v
    ensures State(v[..], tape.at, faults) == Branch(tape.words, old(tape.at), p, rhsFirst, plain)
  {
    var n := if plain || p.full || p.cells == 0 then p.cells else p.cells - 1;
    Fill(tape, p, v, n);
    ghost var filled := State(v[..], tape.at, []);
    assert filled == FilledState(tape.words, old(tape.at), p, plain);
    faults := [];
    if !plain {
      faults := Scatter(tape, p, v, rhsFirst);
    }
  }

  /** The part all generators share, from the call of OneOf on. */
  method Generate<T>(tape: Tape, p: Plan<T>, rhsFirst: bool) returns (v: array<T>, faults: seq<int>)
    requires Fits(p)
    modifies tape
    ensures fresh(v)
    ensures State(v[..], tape.at, faults) == Generated(tape.words, old(tape.at), p, rhsFirst)
  {
    v := new T[p.cells](i => p.zero);
    var plain := DrawBranch(tape);
    assert v[..] == Filled(tape.words, tape.at, p, 0);
    faults := RunBranch(tape, p, v, rhsFirst, plain);
  }
}
