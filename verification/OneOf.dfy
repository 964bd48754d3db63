/**
 * The OneOf family and the up-to-length string helpers (inst/include/DeepState.hpp:352-434, 629-662),
 * which draw an index with DeepState_UIntInRange and pass it through Pump.
 */
module OneOf {
  import opened Arithmetic
  import opened CIntegers
  import opened Counting
  import opened Options
  import opened RangeReduction
  import opened SymbolicChoice

  const SIZE_T := CType(64, false)

  function Interval(low: int, high: int): (s: set<int>)
    ensures forall x :: x in s <==> low <= x <= high
    decreases high - low
  {
    if low > high then {} else Interval(low, high - 1) + {high}
  }

  ghost predicate IsInterval(c: set<int>, low: int, high: int) {
    forall x :: x in c <==> low <= x <= high
  }

  lemma {:induction false} IntervalSize(c: set<int>, low: int, high: int)
    requires low <= high + 1 && IsInterval(c, low, high)
    ensures |c| == high - low + 1
    decreases high - low
  {
    if low <= high {
      assert c == (c - {high}) + {high};
      IntervalSize(c - {high}, low, high - 1);
    } else if c != {} {
      var x := SomeMember(c);
    }
  }

  /** The k-th smallest member of an interval is low + k. */
  lemma {:induction false} IntervalNth(c: set<int>, low: int, high: int, k: nat)
    requires low + k <= high && IsInterval(c, low, high)
    ensures |c| == high - low + 1
    ensures IsInterval(Above(c, k), low + k, high)
    ensures Nth(c, k) == low + k
  {
    IntervalSize(c, low, high);
    if k > 0 {
      IntervalNth(c, low, high, k - 1);
      AboveStep(c, k - 1);
    }
    assert low + k in Above(c, k);
  }

  /** The alternative, among k, that runs on the path of an oracle. */
  function AlternativeOn(oracle: nat -> bool, start: nat, k: nat): nat
    requires k >= 1
  {
    FirstTaken(oracle, start, k - 1)
  }

  lemma PumpedIndex(oracle: nat -> bool, start: nat, k: nat)
    requires k >= 1
    ensures PathCount(Interval(0, k - 1), k) == k
    ensures Nth(Interval(0, k - 1), AlternativeOn(oracle, start, k)) == AlternativeOn(oracle, start, k)
  {
    IntervalNth(Interval(0, k - 1), 0, k - 1, AlternativeOn(oracle, start, k));
  }

  // ----- Symbolic execution -----

  /** DeepState_<T>InRange under symbolic execution: a fresh value of the type, then the assumption. */
  method SymbolicInRange(e: Engine, t: CType, low: int, high: int) returns (v: Value)
    requires t.Holds(low) && t.Holds(high)
    modifies e`possible
    ensures low == high ==> v == Concrete(low) && e.possible == old(e.possible)
    ensures low != high ==> v == Symbolic
    ensures low < high ==> e.possible == Interval(low, high)
    ensures high < low ==> e.possible == Interval(high, low)
    decreases low > high
  {
    if low > high {
      v := SymbolicInRange(e, t, high, low);
      return;
    }
    if low == high {
      return Concrete(low);
    }
    e.possible := Interval(t.Min(), t.Max());
    e.possible := set x | x in e.possible && low <= x <= high;
    assert e.possible == Interval(low, high);
    return Symbolic;
  }

  /** NoSwarmOneOf over k functions: the position of the one that runs. */
  method Alternative(e: Engine, k: nat) returns (ran: Option<int>)
    requires 1 <= k <= UINT.Max()
    modifies e`possible, e`forks
    ensures ran == Some(AlternativeOn(e.oracle, old(e.forks), k))
    ensures e.forks == old(e.forks) + |Decisions(AlternativeOn(e.oracle, old(e.forks), k), k)|
  {
    ran := PumpedChoice(e, UINT, k);
  }

  /** An index below k of some type, drawn and pumped. */
  method PumpedChoice(e: Engine, t: CType, k: nat) returns (ran: Option<int>)
    requires k >= 1 && t.Holds(0) && t.Holds(k - 1)
    modifies e`possible, e`forks
    ensures ran == Some(AlternativeOn(e.oracle, old(e.forks), k))
    ensures e.forks == old(e.forks) + |Decisions(AlternativeOn(e.oracle, old(e.forks), k), k)|
  {
    var index := SymbolicInRange(e, t, 0, k - 1);
    PumpedIndex(e.oracle, e.forks, k);
    ran := e.Pump(index, k);
  }

  /** _SwarmOneOf over functions, given the map of the swarm configuration. */
  method SwarmAlternative(e: Engine, fmap: seq<nat>) returns (ran: Option<int>)
    requires 1 <= |fmap| <= UINT.Max()
    modifies e`possible, e`forks
    ensures ran == Some(fmap[AlternativeOn(e.oracle, old(e.forks), |fmap|)])
    ensures e.forks == old(e.forks) + |Decisions(AlternativeOn(e.oracle, old(e.forks), |fmap|), |fmap|)|
  {
    var index := Alternative(e, |fmap|);
    return Some(fmap[index.value]);
  }

  /**
   * OneOf over k alternatives: each alternative runs on exactly one path, the one whose decisions
   * are its own, and no two alternatives share a path.
   */
  lemma EachAlternativeOnce(k: nat, start: nat, j: nat)
    requires j < k
    ensures exists o: nat -> bool :: AlternativeOn(o, start, k) == j
    ensures forall o: nat -> bool :: AlternativeOn(o, start, k) == j <==> Follows(o, start, Decisions(j, k))
    ensures forall i: nat | i < k :: Decisions(i, k) == Decisions(j, k) <==> i == j
  {
    ChoosingTakes(start, j, k - 1);
    assert AlternativeOn(Choosing(start, j), start, k) == j;
    forall o: nat -> bool ensures AlternativeOn(o, start, k) == j <==> Follows(o, start, Decisions(j, k)) {
      OutcomeIsPath(o, start, j, k);
    }
    forall i: nat | i < k && Decisions(i, k) == Decisions(j, k) ensures i == j {
      DecisionsDiffer(i, j, k);
      DecisionsDiffer(j, i, k);
    }
  }

  /** The decisions of the paths on which swarm OneOf runs alternative a. */
  ghost function PathsRunning(fmap: seq<nat>, a: nat): set<seq<bool>> {
    set k | 0 <= k < |fmap| && fmap[k] == a :: Decisions(k, |fmap|)
  }

  /** Swarm OneOf reaches exactly the image of its map. */
  lemma SwarmReachesImage(fmap: seq<nat>, start: nat, a: nat)
    requires fmap != []
    ensures (exists o: nat -> bool :: fmap[AlternativeOn(o, start, |fmap|)] == a) <==> a in fmap
  {
    if a in fmap {
      var k: nat :| k < |fmap| && fmap[k] == a;
      ChoosingTakes(start, k, |fmap| - 1);
      assert fmap[AlternativeOn(Choosing(start, k), start, |fmap|)] == a;
    }
  }

  /**
   * Swarm OneOf runs an alternative exactly on the paths that make one of the decisions in
   * PathsRunning, and these are as many as the alternative has entries in the map.
   */
  lemma SwarmPaths(fmap: seq<nat>, start: nat, a: nat)
    requires fmap != []
    ensures forall o: nat -> bool ::
              fmap[AlternativeOn(o, start, |fmap|)] == a <==>
              exists ds :: ds in PathsRunning(fmap, a) && Follows(o, start, ds)
    ensures |PathsRunning(fmap, a)| == multiset(fmap)[a]
  {
    var n := |fmap|;
    forall o: nat -> bool
      ensures fmap[AlternativeOn(o, start, n)] == a
         <==> exists ds :: ds in PathsRunning(fmap, a) && Follows(o, start, ds)
    {
      var j := AlternativeOn(o, start, n);
      OutcomeIsPath(o, start, j, n);
      if fmap[j] == a {
        assert Decisions(j, n) in PathsRunning(fmap, a);
      }
      if ds :| ds in PathsRunning(fmap, a) && Follows(o, start, ds) {
        var k: nat :| k < n && fmap[k] == a && ds == Decisions(k, n);
        OutcomeIsPath(o, start, k, n);
      }
    }
    PathsUpTo(fmap, a, n);
    assert fmap[..n] == fmap;
    assert PathsRunning(fmap, a) == PathsBelow(fmap, a, n);
  }

  ghost function PathsBelow(fmap: seq<nat>, a: nat, m: nat): set<seq<bool>>
    requires m <= |fmap|
  {
    set k | 0 <= k < m && fmap[k] == a :: Decisions(k, |fmap|)
  }

  lemma {:induction false} PathsUpTo(fmap: seq<nat>, a: nat, m: nat)
    requires m <= |fmap|
    ensures |PathsBelow(fmap, a, m)| == multiset(fmap[..m])[a]
  {
    var n := |fmap|;
    if m == 0 {
      assert PathsBelow(fmap, a, 0) == {};
    } else {
      var k := m - 1;
      PathsUpTo(fmap, a, k);
      assert fmap[..m] == fmap[..k] + [fmap[k]];
      var before := PathsBelow(fmap, a, k);
      if fmap[k] == a {
        assert PathsBelow(fmap, a, m) == before + {Decisions(k, n)};
        forall j | 0 <= j < k && fmap[j] == a ensures Decisions(j, n) != Decisions(k, n) {
          DecisionsDiffer(j, k, n);
        }
      } else {
        assert PathsBelow(fmap, a, m) == before;
      }
    }
  }

  /** The length DeepState_CStrUpToLen passes on, per path; None where Pump abandons the test. */
  function UpToLen(oracle: nat -> bool, start: nat, maxLen: nat): (len: Option<nat>)
    ensures len.Some? ==> len.value <= maxLen % 0x1_0000_0000
  {
    var high := maxLen % 0x1_0000_0000;
    if high == 0xFFFF_FFFF then None else Some(FirstTaken(oracle, start, high))
  }

  /** DeepState_NoSwarmCStrUpToLen and its siblings: max_len is a size_t, the drawn length a uint32_t. */
  method CStrUpToLen(e: Engine, maxLen: nat) returns (len: Option<int>)
    requires SIZE_T.Holds(maxLen)
    modifies e`possible, e`forks
    ensures len == UpToLen(e.oracle, old(e.forks), maxLen)
    ensures e.forks == old(e.forks)
            + if len.None? then 0 else |LengthPath(len.value, maxLen % 0x1_0000_0000)|
  {
    var high, max := UINT.Wrap(maxLen), UINT.Wrap(SIZE_T.Wrap(maxLen + 1));
    PumpBound(maxLen);
    var drawn := SymbolicInRange(e, UINT, 0, high);
    PumpedIndex(e.oracle, e.forks, high + 1);
    len := e.Pump(drawn, max);
  }

  lemma PumpBound(maxLen: nat)
    requires SIZE_T.Holds(maxLen)
    ensures UINT.Wrap(maxLen) == maxLen % 0x1_0000_0000
    ensures UINT.Wrap(SIZE_T.Wrap(maxLen + 1))
         == if maxLen % 0x1_0000_0000 == 0xFFFF_FFFF then 0 else maxLen % 0x1_0000_0000 + 1
  {
    WidthsOfInt();
    var m := 0x1_0000_0000;
    assert Pow2(64) == m * m by { Pow2Adds(32, 32); }
    var h, q := maxLen % m, maxLen / m;
    assert maxLen == q * m + h;
    UINT.WrapLemma(maxLen);
    if maxLen + 1 == m * m {
      SIZE_T.WrapLemma(maxLen + 1);
      DivModUnique(maxLen + 1, m * m, 1, 0);
      DivModUnique(maxLen, m, m - 1, m - 1);
      UINT.WrapLemma(0);
    } else {
      assert SIZE_T.Wrap(maxLen + 1) == maxLen + 1;
      if h == m - 1 {
        DivModUnique(maxLen + 1, m, q + 1, 0);
      } else {
        DivModUnique(maxLen + 1, m, q, h + 1);
      }
    }
  }

  lemma {:induction false} Pow2Adds(a: nat, b: nat)
    ensures Pow2(a + b) == Pow2(a) * Pow2(b)
  {
    if a > 0 {
      Pow2Adds(a - 1, b);
      assert Pow2(a + b) == 2 * Pow2(a - 1 + b);
    }
  }

  ghost predicate Tried(len: nat, start: nat, maxLen: nat) {
    exists o: nat -> bool :: UpToLen(o, start, maxLen) == Some(len)
  }

  /**
   * The promise that lengths 0..max_len are all tried holds exactly below 2^32 - 1. At 2^32 - 1 every
   * path abandons the test, since the bound given to Pump wraps to 0; above it lengths are cut off.
   */
  lemma UpToLenCoverage(maxLen: nat, start: nat)
    ensures (forall len: nat | len <= maxLen :: Tried(len, start, maxLen)) <==> maxLen < 0xFFFF_FFFF
    ensures forall len: nat | Tried(len, start, maxLen) :: len <= maxLen % 0x1_0000_0000
    ensures maxLen % 0x1_0000_0000 == 0xFFFF_FFFF ==> forall o: nat -> bool :: UpToLen(o, start, maxLen) == None
  {
    if maxLen < 0xFFFF_FFFF {
      DivModSmall(maxLen, 0x1_0000_0000);
      forall len: nat | len <= maxLen ensures Tried(len, start, maxLen) {
        ChoosingTakes(start, len, maxLen);
        assert UpToLen(Choosing(start, len), start, maxLen) == Some(len);
      }
    } else {
      assert !Tried(maxLen, start, maxLen);
    }
  }

  /** The decisions of the path that passes a length on, for a largest length. */
  function LengthPath(len: nat, high: nat): seq<bool>
    requires len <= high
  {
    Decisions(len, high + 1)
  }

  /**
   * Unless max_len is 2^32 - 1 modulo 2^32, each length up to max_len mod 2^32 is tried on exactly one
   * path: by exactly the oracles that make the decisions of that length, which no other length has.
   */
  lemma EachLengthOnce(maxLen: nat, start: nat, len: nat)
    requires len <= maxLen % 0x1_0000_0000 != 0xFFFF_FFFF
    ensures Tried(len, start, maxLen)
    ensures var high := maxLen % 0x1_0000_0000;
            && (forall o: nat -> bool ::
                  UpToLen(o, start, maxLen) == Some(len) <==> Follows(o, start, LengthPath(len, high)))
            && forall j: nat | j <= high :: LengthPath(j, high) == LengthPath(len, high) <==> j == len
  {
    var high := maxLen % 0x1_0000_0000;
    LengthIsOutcome(maxLen, high, start);
    EachAlternativeOnce(high + 1, start, len);
    var o: nat -> bool :| AlternativeOn(o, start, high + 1) == len;
    assert UpToLen(o, start, maxLen) == Some(len);
  }

  lemma LengthIsOutcome(maxLen: nat, high: nat, start: nat)
    requires high == maxLen % 0x1_0000_0000 != 0xFFFF_FFFF
    ensures forall o: nat -> bool :: UpToLen(o, start, maxLen) == Some(AlternativeOn(o, start, high + 1))
  {
  }

  // ----- Concrete execution -----

  /** An unsigned index below k is the raw value modulo k. */
  lemma UnsignedIndex(k: nat, x: int)
    requires 1 <= k <= UINT.Max() && UINT.Holds(x)
    ensures InRangeValue(UINT, 0, k - 1, x) == x % k
  {
    IndexIsRemainder(UINT, k, x);
  }

  /** OneOf over k functions on a concrete input: the drawn index passes through Pump unchanged. */
  method ConcreteAlternative(tape: Tape, e: Engine, k: nat) returns (ran: Option<int>)
    requires 1 <= k <= UINT.Max()
    modifies tape, e`possible, e`forks
    ensures ran.Some? && 0 <= ran.value < k
    ensures ran.value == UINT.Wrap(tape.words(old(tape.at))) % k
    ensures tape.at == old(tape.at) + if k == 1 then 0 else 1
  {
    UnsignedIndex(k, UINT.Wrap(tape.words(tape.at)));
    var index := tape.InRange(UINT, 0, k - 1);
    ran := e.Pump(Concrete(index), k);
  }

  /** The index OneOf reads in a string or vector of n elements: its bound is a size_t turned into an int. */
  function ElementIndex(n: nat, x: int): int
    requires INT.Holds(x)
  {
    ZeroIsAnInt();
    InRangeValue(INT, 0, INT.Wrap(n - 1), x)
  }

  lemma ZeroIsAnInt()
    ensures INT.Holds(0)
  {
  }

  /** Reading an element stays in bounds for every raw value exactly when n - 1 does not turn negative. */
  lemma ElementInBounds(n: nat)
    requires n >= 1
    ensures (forall x | INT.Holds(x) :: 0 <= ElementIndex(n, x) < n) <==> INT.Wrap(n - 1) >= 0
    ensures INT.Wrap(n - 1) < 0 ==> INT.Holds(INT.Wrap(n - 1)) && ElementIndex(n, INT.Wrap(n - 1)) == INT.Wrap(n - 1)
  {
    var h, m := INT.Wrap(n - 1), INT.Modulus();
    if h >= 0 {
      DivModSmall(h, m);
      assert n - 1 == m * ((n - 1) / m) + h;
    } else {
      assert ElementIndex(n, h) == h;
    }
  }

  /** Where n - 1 fits an int, the index is the magnitude of the raw value modulo n, and every element is read. */
  lemma ElementsAreReached(n: nat)
    requires 1 <= n <= 0x8000_0000
    ensures forall x | INT.Holds(x) :: ElementIndex(n, x) == AbsoluteIn(32, x) % n
    ensures forall k: nat | k < n :: INT.Holds(k) && ElementIndex(n, k) == k
  {
    LimitsOfInt();
    assert INT.Wrap(n - 1) == n - 1;
    forall x | INT.Holds(x) ensures ElementIndex(n, x) == AbsoluteIn(32, x) % n {
      IndexIsRemainder(INT, n, x);
    }
    forall k: nat | k < n ensures INT.Holds(k) && ElementIndex(n, k) == k {
      DivModSmall(k, n);
    }
  }

  /** With 2^31 + 1 elements the raw value INT_MIN is used as the index. */
  lemma LongVectorCanFault()
    ensures INT.Holds(-0x8000_0000) && ElementIndex(0x8000_0001, -0x8000_0000) == -0x8000_0000
  {
    WidthsOfInt();
    INT.WrapLemma(0x8000_0000);
    ElementInBounds(0x8000_0001);
  }

  /** The index the swarm form of OneOf reads in a string, vector or array, given the map of the configuration. */
  function SwarmElementIndex(fmap: seq<nat>, x: int): nat
    requires 1 <= |fmap| <= UINT.Max() && UINT.Holds(x)
  {
    fmap[InRangeValue(UINT, 0, |fmap| - 1, x)]
  }

  method SwarmElement(tape: Tape, fmap: seq<nat>) returns (index: nat)
    requires 1 <= |fmap| <= UINT.Max()
    modifies tape
    ensures index == SwarmElementIndex(fmap, UINT.Wrap(tape.words(old(tape.at))))
    ensures index == fmap[UINT.Wrap(tape.words(old(tape.at))) % |fmap|]
    ensures tape.at == old(tape.at) + if |fmap| == 1 then 0 else 1
  {
    UnsignedIndex(|fmap|, UINT.Wrap(tape.words(tape.at)));
    var k := tape.InRange(UINT, 0, |fmap| - 1);
    index := fmap[k];
  }

  lemma EveryIndexIsDrawn(n: nat, k: nat)
    requires k < n <= UINT.Max()
    ensures UINT.Holds(k) && InRangeValue(UINT, 0, n - 1, k) == k
  {
  }

  /** The swarm form stays in bounds for every raw value exactly when every entry of the map is below n. */
  lemma SwarmElementInBounds(fmap: seq<nat>, n: nat)
    requires 1 <= |fmap| <= UINT.Max()
    ensures (forall x | UINT.Holds(x) :: SwarmElementIndex(fmap, x) < n) <==> forall e | e in fmap :: e < n
  {
    if forall x | UINT.Holds(x) :: SwarmElementIndex(fmap, x) < n {
      forall e | e in fmap ensures e < n {
        var k: nat :| k < |fmap| && fmap[k] == e;
        EveryIndexIsDrawn(|fmap|, k);
        assert SwarmElementIndex(fmap, k) == e;
      }
    } else {
      var x :| UINT.Holds(x) && SwarmElementIndex(fmap, x) >= n;
      assert SwarmElementIndex(fmap, x) in fmap;
    }
  }

  /**
   * It does so for every map whose entries are below the count it asks for, which is n turned into
   * an unsigned, however long the string or vector is.
   */
  lemma SwarmElementIsSafe(fmap: seq<nat>, n: nat)
    requires 1 <= |fmap| <= UINT.Max() && forall e | e in fmap :: e < UINT.Wrap(n)
    ensures forall x | UINT.Holds(x) :: SwarmElementIndex(fmap, x) < n
  {
    WrapsBelow(n);
    SwarmElementInBounds(fmap, n);
  }

  lemma WrapsBelow(n: nat)
    ensures UINT.Wrap(n) <= n
  {
    ModAtMost(n, UINT.Modulus());
  }

  lemma ModAtMost(n: nat, m: nat)
    requires m > 0
    ensures n % m <= n
  {
    if n < m { DivModSmall(n, m); }
  }
}
