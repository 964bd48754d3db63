# A verified model of RcppDeepState

RcppDeepState drives the DeepState fuzzing headers from R. This project models the parts of it that
compute something and proves what they promise.

- **Range reduction** (`CIntegers`, `Counting`, `RangeReduction`, `SignedReduction`):
  `DeepState_<T>InRange` folds a raw value into an interval, for every width and signedness. It always
  lands between the bounds, it spreads unsigned raw values as evenly as any map can, and saturation does
  so only when both ends of the interval are near the ends of the type. For signed types the number of
  raw values behind each result is exact wherever the type can hold the width.
- **Symbolic choice** (`SymbolicChoice`, `OneOf`): a symbolic value is the finite set of values it may
  still take on a path, and an oracle picks a side at every fork with two feasible sides, so "for every
  oracle" means "on every path". `Pump` enumerates the smallest values, one per path.
- **Expanded comparison** (`ExpandedCompare`): the byte-by-byte repetition of a failed comparison never
  changes the answer, and for `==` it stops exactly where the operands first differ.
- **Test driver** (`TestRuns`, `Driver`, `Tally`, `SavedCases`, `MainLoop`): a class with the driver's
  globals, an explicit stack of calls and one jump target. A fork is a copy of the process. All jumps
  are recorded with whether their target was still on the stack.
- **Generators** (`Generators`, `GeneratorProperties`, `GeneratorRuns`, `GeneratorCells`,
  `RcppGenerators`): the Rcpp vector and matrix generators fill arrays from a tape of raw values;
  each cell is traced to the word it comes from.
- **Harness text** (`Text`, `HarnessText`, `HarnessProperties`, `HarnessLines`, `HarnessSource`): the C++
  text `deepstate_fun_create` writes, and what a compiler reads in it line by line.
- **Log extraction** (`ValgrindLog`): the table `deepstate_read_valgrind_xml` builds.

## Where the code does not do what is promised

Each of these has a lemma with the exact condition.

- `DeepState_CStrUpToLen` tries every length up to `max_len` exactly when `max_len < 2^32 - 1`; at
  `2^32 - 1` every path abandons the test (`OneOf.UpToLenCoverage`).
- `OneOf` on a string or vector of n elements stays in bounds exactly when `n - 1`, turned into an int,
  is not negative (`OneOf.ElementInBounds`); with 2^31 + 1 elements the raw value `INT_MIN` is used as
  the index (`OneOf.LongVectorCanFault`).
- A vector generator with no cell writes out of bounds exactly on its second branch
  (`GeneratorProperties.WritesInBounds`; `RcppGenerators.DefaultVectorCanFault` gives an input).
- A test registered without the entry-point macro passes on a bare return whatever failed softly
  (`TestRuns.BareReturnLosesSoftFailures`).
- `DeepState_Run` raises a jump to nowhere exactly when the options are not initialised
  (`MainLoop.DeepStateRun`).
- A generated declaration uses the argument's own name exactly when that name does not contain `const`
  (`HarnessProperties.WellScoped`); a numeric vector named "constant" is declared as "ant"
  (`HarnessProperties.ConstantIsRenamed`).
- The comment on `DeepState_IsTestCaseFile` accepts the suffixes ".pass" and ".fail". For a name with at
  most one dot the code agrees exactly when the name does not end in ".crash", and for any other name
  exactly when it has neither suffix (`SavedCases.CodeMeetsComment`). "x.crash" is accepted and
  "a.b.pass" is not (`SavedCases.CommentIsNotMet`).
- On cases both run to the end, the per-test driver and the directory driver report numbers of failures
  that differ by the abandoned cases exactly when no case calls exit with a code above 3 in a forked
  child (`SavedCases.ReportsDiffer`); exit(7) counts as failed in the first alone
  (`SavedCases.ForeignCodeCounts`).

## Assumptions

- Signed overflow in the range macro wraps modulo 2^bits. C leaves it undefined for `int` and wider
  (section 6.5 of ISO C11); narrower types are computed in `int` and converted, which is the same.
- `DeepState_ZeroSink` always returns 0, as the comment on its declaration says (`inst/include/DeepState.h:206`).
- `DeepState_MemScrub` writes zeros; the comment on its declaration only says that it scrubs memory
  (`inst/include/DeepState.h:251-252`).
- A draw of type T gives any value of T. `DeepState_MinUInt` gives the minimum satisfiable value.
- `DeepState_GetSwarmConfig` returns a map with at least one entry.
- `DeepState_Begin` clears the failure marks, `DeepState_SoftFail` and `DeepState_Fail` set one,
  `DeepState_Abandon` sets the other, `DeepState_CatchFail` and `DeepState_CatchAbandoned` report them.
  Saving, logging, cleaning up and `DeepState_Crash` do not jump. Allocation succeeds.
- A test's run depends only on the input buffer and its two indices.
- Drawing a double consumes one raw value; doubles are an opaque type.
- The operands of `v[IntInRange(..)] = OneOf(..)` may be evaluated in either order; both are covered.

## Model

| member | source | states |
|---|---|---|
| CIntegers.CType.Wrap | inst/include/DeepState.h:366-372 | conversion to a type gives the representable value congruent modulo 2^bits, and changes no representable value |
| CIntegers.RemTruncates | inst/include/DeepState.h:370-372 | the quotient truncates toward zero, and the remainder, which makes up for it, takes the sign of the dividend and is smaller in magnitude than the divisor |
| CIntegers.LimitsOfInt | inst/include/DeepState.h:328-376 | INT_MIN, INT_MAX and UINT_MAX, of which NA_INTEGER is the first |
| RangeReduction.Fold | inst/include/DeepState.h:365-375 | the fold lies in the interval and is the identity on it |
| RangeReduction.Tape.InRange | inst/include/DeepState.h:349-376 | the macro, with its swap, wrapping size, negation and truncating remainder, computes the fold of the raw value in unbounded arithmetic, and draws one value, or none from a one-point interval |
| RangeReduction.Containment | inst/include/DeepState.h:352-375 | for every type, bounds in either order and raw value the result lies between the bounds, in-range values are kept, and the divisor is positive whenever it is used |
| RangeReduction.BoundsInEitherOrder | inst/include/DeepState.h:352-354 | bounds in the wrong order give the value for the same bounds in the right order |
| RangeReduction.InRangeArithmetic | inst/include/DeepState.h:352-375 | in plain arithmetic and for either order of the bounds, an out-of-range value gives the lower bound plus its magnitude, 0 for the most negative one, modulo the width, or modulo 2^bits less the width where the type cannot hold it |
| RangeReduction.IndexIsRemainder | inst/include/DeepState.h:352-375 | an index below n is the magnitude of the raw value modulo n |
| RangeReduction.WideSignedInterval | inst/include/DeepState.h:366-372 | where the width of a signed interval wraps negative, every out-of-range value lands in the lowest 2^bits - width values |
| RangeReduction.BlockKeepsCounts | inst/include/DeepState.h:365-375 | keeping the in-range block leaves every preimage count equal to the size of a residue class |
| RangeReduction.UnsignedPreimages | inst/include/DeepState.h:349-376 | each value of an unsigned interval of width S has exactly floor(2^bits/S) preimages, one more for the lowest 2^bits mod S values |
| RangeReduction.UnsignedFoldIsOptimal | inst/include/DeepState.h:328-376 | every map into the interval has a value at least as crowded and one at least as sparse as any value of the fold |
| RangeReduction.SaturationPreimages | inst/include/DeepState.h:328-348 | saturation agrees in range, gives low exactly low + 1 preimages, high exactly 2^bits - high, and every other value one |
| RangeReduction.SaturationIsWorse | inst/include/DeepState.h:328-348 | saturation reaches the evenness of the fold if and only if both ends are within ceiling(2^bits/S) of the ends of the type |
| SignedReduction.SignedPreimages | inst/include/DeepState.h:365-375 | for a signed type that can hold the width S, each value of the interval has exactly twice as many raw values as there are x < 2^(bits-1) with x mod S equal to its offset, and one more or one less where the interval itself holds none or two members of that class; for nonnegative bounds exactly twice as many |
| SignedReduction.WideSignedPreimages | inst/include/DeepState.h:366-372 | where the width S wraps negative and D is 2^bits - S, values from low + D on have themselves as their only raw value; each value below has one more for either side of the interval that holds a member of its class modulo D, and low has the most negative value too where that lies outside |
| Counting.OneOfEachResidue | inst/include/DeepState.h:365-372 | S consecutive integers hold exactly one member of each residue class modulo S |
| Counting.SomeCrowded | inst/include/DeepState.h:328-348 | pigeonhole: some value has at least ceiling(n/S) preimages |
| SymbolicChoice.Engine.Minimize | inst/include/DeepState.h:151-154 | the minimum satisfiable value of the symbolic value on this path |
| SymbolicChoice.Engine.Equals | inst/include/DeepState.hpp:308 | a comparison forks exactly when both answers are possible, and constrains the value by the side followed |
| SymbolicChoice.Engine.Pump | inst/include/DeepState.hpp:298-316 | on every path: a concrete value is returned as it is, a zero bound abandons, and otherwise the value, the number of forks and the values left are those that the rows below characterise |
| SymbolicChoice.PumpReaches | inst/include/DeepState.hpp:305-315 | some path returns v if and only if v is possible and fewer than max smaller values are |
| SymbolicChoice.OutcomesAre | inst/include/DeepState.hpp:305-315 | j numbers an outcome if and only if j is below both the number of possible values and max |
| SymbolicChoice.PumpPaths | inst/include/DeepState.hpp:305-315 | each outcome is taken by exactly the oracles that make its decisions, by at least one, and decisions coincide exactly when outcomes do |
| SymbolicChoice.ResiduesPartition | inst/include/DeepState.hpp:305-315 | every possible value is left possible at the end of exactly one path: that of its rank, or the last one |
| SymbolicChoice.PumpValues | inst/include/DeepState.hpp:305-315 | the values returned are the smallest of C, increasing with the path, each still possible at the end of its own path |
| SymbolicChoice.NthHasRank | inst/include/DeepState.h:151-154 | the k-th smallest value has exactly k values below it |
| OneOf.SymbolicInRange | inst/include/DeepState.h:355-363 | under symbolic execution the drawn value may be anything in the interval, and a one-point interval gives a concrete value |
| OneOf.IntervalNth | inst/include/DeepState.hpp:358-360 | the k-th smallest member of an index interval is its low end plus k |
| OneOf.Alternative | inst/include/DeepState.hpp:352-364 | the alternative that runs on a path is the number of its first taken fork |
| OneOf.EachAlternativeOnce | inst/include/DeepState.hpp:352-364 | each alternative runs on some path, by exactly the oracles that make its decisions, and no two alternatives share decisions |
| OneOf.SwarmAlternative | inst/include/DeepState.hpp:366-380 | the swarm form runs the alternative that the configuration maps the index to |
| OneOf.SwarmReachesImage | inst/include/DeepState.hpp:366-380 | some path of the swarm form runs an alternative if and only if the alternative is in the image of the swarm map |
| OneOf.SwarmPaths | inst/include/DeepState.hpp:366-380 | the swarm form runs an alternative on exactly the paths of its entries in the map, and their number is its multiplicity there |
| OneOf.CStrUpToLen | inst/include/DeepState.hpp:629-662 | the length passed on, with the conversions of max_len and max_len + 1 to 32 bits, and the forks its path takes |
| OneOf.UpToLenCoverage | inst/include/DeepState.hpp:629-662 | every length 0..max_len is tried if and only if max_len < 2^32 - 1, no length beyond max_len mod 2^32 is, and where max_len is 2^32 - 1 modulo 2^32 every path abandons |
| OneOf.EachLengthOnce | inst/include/DeepState.hpp:629-662 | unless max_len is 2^32 - 1 modulo 2^32, each length up to max_len mod 2^32 is tried on exactly one path: by exactly the oracles that make its decisions, which no other length has |
| OneOf.ConcreteAlternative | inst/include/DeepState.hpp:352-364 | on a concrete input the alternative that runs is the raw value modulo their number, and one raw value is drawn unless there is a single alternative |
| OneOf.ElementInBounds | inst/include/DeepState.hpp:382-387 | reading an element of a nonempty string, vector or array without a swarm is in bounds for every raw value if and only if n - 1 as an int is not negative |
| OneOf.ElementsAreReached | inst/include/DeepState.hpp:382-387 | where n - 1 fits an int the index is the magnitude of the raw value modulo n, and every element is read for some raw value |
| OneOf.SwarmElement | inst/include/DeepState.hpp:389-397 | the swarm form reads the entry of the map at the raw value modulo the number of entries, with one draw, or none for a single entry |
| OneOf.SwarmElementInBounds | inst/include/DeepState.hpp:389-416 | the swarm form is in bounds for every raw value if and only if every entry of the map is below n |
| OneOf.SwarmElementIsSafe | inst/include/DeepState.hpp:389-416 | entries below the count that was asked for, which is n as an unsigned, keep it in bounds however large n is |
| OneOf.LongVectorCanFault | inst/include/DeepState.hpp:400-405 | an input on which the index is negative: 2^31 + 1 elements and the raw value INT_MIN |
| ExpandedCompare.CompareEnds | inst/include/DeepState.hpp:437-458 | for every predicate the expansion ends at the lowest byte where it fails, else in the base case, and never answers true |
| ExpandedCompare.ComparerIsExact | inst/include/DeepState.hpp:520-557 | for every pair of types, values and predicate the comparison answers exactly what the predicate does, and expands exactly the failed comparisons of integral operands that are not both bool |
| ExpandedCompare.FailureEnds | inst/include/DeepState.hpp:437-557 | a failed comparison ends at the lowest byte of the operands, converted to the common type, on which the predicate fails |
| ExpandedCompare.ByteIs | inst/include/DeepState.hpp:437-447 | byte i of an operand is its i-th digit to base 256 |
| ExpandedCompare.EqualityStops | inst/include/DeepState.hpp:437-557 | for == on unequal values of one type of whole bytes the comparison answers false with sink argument bits - 8d, d being the largest number with the values congruent modulo 256^d; the base case is not reached |
| ExpandedCompare.BestTypeKeepsValues | inst/include/DeepState.hpp:501-518 | the common type is as wide as the wider operand and signed only if both are; conversion changes a value exactly when it is negative and the partner unsigned |
| ExpandedCompare.BestTypeWithBool | inst/include/DeepState.hpp:501-518 | the common type of bool and an integral type, and that the order of the operands matters for a signed type of one byte alone |
| TestRuns.EndingIs | inst/include/DeepState.h:477-480 | a run ends in the first step that ends it, or in a return where there is none |
| TestRuns.VerdictPrecedence | inst/include/DeepState.h:621-635 | Fail exactly if the run gets to a soft failure, failure or exception, else Abandon exactly if it gets to an abandon, else Pass |
| TestRuns.ForkedResultIs | inst/include/DeepState.h:693-722 | by what the trace gets to: a signal is a crash, exit codes 0 to 3 are pass, failure, crash and abandon and others are kept, an unwrapped return passes, and otherwise the verdict |
| TestRuns.ForkingIsTransparent | inst/include/DeepState.h:602-722 | a run without fork returns exactly when it gets to no signal or exit and no failure under the abort flag stops it, then with the forked result; a wrapped test gets its verdict |
| TestRuns.SavesFollowTrace | inst/include/DeepState.h:621-642 | at most one file is saved, for wrapped and unwrapped tests: a failing case exactly if the run is judged and fails first, a passing case exactly if it is judged, neither fails nor abandons first and passing cases are kept |
| TestRuns.BareReturnLosesSoftFailures | inst/include/DeepState.h:477-480 | without the wrapper a bare return always passes, which is the verdict if and only if no soft failure came before |
| Driver.Process.Fork | inst/include/DeepState.h:696-701 | the child starts with equal globals in storage of its own |
| Driver.Process.LongJmp | inst/include/DeepState.h:525 | a jump goes to the target, is recorded with its validity, and unwinds the stack to the target |
| Driver.Process.TestFunction | inst/include/DeepState.h:475-480 | a registered test ends in a jump to the caller, a bare return, an exception, a signal or an exit, with the marks its trace sets; its jumps are valid |
| Driver.Process.Protected | inst/include/DeepState.h:604-621 | the setjmp block turns uncaught exceptions into failures, and every jump lands in it with marks that give the verdict |
| Driver.Process.RunTest | inst/include/DeepState.h:602-643 | the exit status of a forked run and the files it saves; all jumps are valid |
| Driver.Process.RunTestNoFork | inst/include/DeepState.h:646-690 | the result of an unforked run and the same files saved; all jumps are valid and the jump target is dead afterwards |
| Driver.Process.ForkAndRunTest | inst/include/DeepState.h:693-722 | forked and unforked runs save the same files; a forked run changes none of the parent's own fields, and what an unforked run leaves of the input is what the test consumed |
| Driver.LoadFileIs | inst/include/DeepState.h:556-596 | loading succeeds if and only if the file can be opened and examined and has as many bytes as it says or as the buffer takes; byte i of the 8192 is that of the file, or 0 beyond its end |
| Driver.Process.InitInputFromFile | inst/include/DeepState.h:556-596 | whatever was there before, the buffer then holds those bytes and both indices are 0, or loading abandons |
| Driver.CaseIs | inst/include/DeepState.h:728-771 | a case that does not load crashes and saves nothing; one that does has the result of a run from its bytes and zero indices, and a crash is saved too where there is an output directory |
| Driver.NextIs | inst/include/DeepState.h:693-722 | the buffer stays as it is, and the indices are those the test left in the driver's own process, or untouched under fork |
| Driver.Process.RunSavedTestCase | inst/include/DeepState.h:728-771 | the result and the files saved depend on the case's file alone; all jumps are valid |
| SavedCases.IsTestCaseFile | inst/include/DeepState.h:530-550 | accepts exactly the names whose text from the first dot on is one of the three extensions |
| SavedCases.AcceptedByEnd | inst/include/DeepState.h:530-550 | a name is accepted if and only if it ends in one of the three extensions and has no other dot |
| SavedCases.CodeMeetsComment | inst/include/DeepState.h:527-550 | the code agrees with the two suffixes of its comment exactly when a name with at most one dot does not end in ".crash", and any other name has neither suffix |
| SavedCases.CommentIsNotMet | inst/include/DeepState.h:527-550 | "a.b.pass" has a suffix and is rejected; "x.crash" has none and is accepted |
| SavedCases.RunSavedCasesForTest | inst/include/DeepState.h:775-821 | returns the number of accepted cases that do not pass, reports the number run and saves what those cases save, in order, unless a case takes the process down; all jumps are valid |
| SavedCases.RunSingleSavedTestDir | inst/include/DeepState.h:936-981 | returns the number of regular files that fail or crash, reports the number run and saves what they save, in order, unless the process ends on a flag or a case; all jumps are valid |
| SavedCases.RunSavedTestCases | inst/include/DeepState.h:989-1004 | returns the sum over all tests; on every sequence of saved cases every jump is valid |
| SavedCases.ReportedIs | inst/include/DeepState.h:775-821 | nothing is reported exactly if an accepted case takes the process down; else the number of accepted entries whose case does not pass |
| SavedCases.DirReportedIs | inst/include/DeepState.h:936-981 | nothing is reported exactly if a regular file takes the process down, or fails or crashes under one of the two flags; else the number of regular files that fail or crash |
| SavedCases.TotalsAdd | inst/include/DeepState.h:989-1004 | the total over two lists of tests is the sum of their totals |
| SavedCases.TotalOfOne | inst/include/DeepState.h:786-793 | the total for one test is its report, or 0 without a directory |
| SavedCases.SavedFilesAdd | inst/include/DeepState.h:800-812 | the files saved for two lists of cases are those of the first and then those of the second |
| SavedCases.OrderIsIrrelevant | inst/include/DeepState.h:800-820 | permuting the directory entries changes neither driver's report |
| Tally.CountIfPlaces | inst/include/DeepState.h:800-812 | a count is the number of places that hold an entry of the kind |
| SavedCases.CasesAreConserved | inst/include/DeepState.h:800-820 | passes, failures and crashes, abandons and foreign exit codes add up to the cases run |
| SavedCases.DirCasesAreConserved | inst/include/DeepState.h:951-981 | in the directory driver the passes, the failures reported, abandons and foreign exit codes add up to the cases run |
| SavedCases.ReportsDiffer | inst/include/DeepState.h:800-981 | on cases both drivers run to the end, the per-test driver reports the abandons and the foreign exit codes more than the directory driver; the abandons alone if and only if no case exits with a code above 3 in a forked child |
| SavedCases.ForeignCodeCounts | inst/include/DeepState.h:693-722 | a case that calls exit(7) under fork counts as failed in the per-test driver alone |
| MainLoop.RunOnce | inst/include/DeepState.h:1044-1077 | one run appends an entry that took place: the test's result from the input the runs before it left; otherwise that run takes the process down |
| MainLoop.RunTests | inst/include/DeepState.h:1032-1088 | every entry of the log is a run of its test from the input the runs before it left; if the loop ends, the log follows the schedule, the value returned is the number of runs that did not pass, and the files saved and the input left are those of the runs; it is cut short only where the next run due takes the process down, never in fork mode |
| MainLoop.DeepStateRun | inst/include/DeepState.h:1007-1088 | from a valid start all jumps are valid if and only if the options are initialised; then the result is that of the loop, with a log of runs that took place |
| MainLoop.ScheduleIsExact | inst/include/DeepState.h:1037-1080 | each test runs exactly as often as it is due, in list order |
| MainLoop.RunsPerTest | inst/include/DeepState.h:1041-1079 | without boring_only a test runs once if the filter is absent or matches and disabled tests run or its name has neither "Disabled" nor "DISABLED", and not at all otherwise; with it only a name with "Boring" or "BORING" runs, once, and once more under that condition |
| MainLoop.DisabledIsSkipped | inst/include/DeepState.h:1060-1065 | by default a test with "Disabled" or "DISABLED" in its name does not run |
| MainLoop.FailuresAre | inst/include/DeepState.h:1045-1076 | the value returned is the number of entries of the log whose result is not a pass |
| Generators.Generate | inst/include/RcppDeepState.h:87-100 | filling and overwriting in place computes the specified state, position on the tape and out-of-bounds writes, for either evaluation order |
| GeneratorProperties.WritesInBounds | inst/include/RcppDeepState.h:49-56 | all writes are in bounds if and only if there is a cell, the plain branch is taken or nothing is overwritten; else every overwrite is out of bounds |
| GeneratorProperties.DrawsAreExact | inst/include/RcppDeepState.h:87-100 | the number of raw values consumed is exact; a one-point range draws nothing |
| GeneratorProperties.ConsumedPrefixDecides | inst/include/RcppDeepState.h:87-100 | two tapes that agree on what is consumed from the call of OneOf on give the same vector, position and faults |
| GeneratorProperties.CellsInRange | inst/include/RcppDeepState.h:109-122 | at most as many cells as there are overwrites lie outside the range, and each of those holds a missing value |
| GeneratorProperties.LastCellIsNotDrawn | inst/include/RcppDeepState.h:72-74 | on the second branch of the numeric vectors the last cell holds zero or a missing value |
| GeneratorRuns.IntegerVectorPrefix | inst/include/RcppDeepState.h:83-103 | two tapes that agree from the first draw to the last, size and missing value included, give the same default integer vector, position and faults |
| GeneratorRuns.IntegerVectorInRangePrefix | inst/include/RcppDeepState.h:106-125 | the same for a given size and range |
| GeneratorRuns.IntegerMatrixPrefix | inst/include/RcppDeepState.h:177-199 | the same for the default integer matrix, its dimensions included |
| GeneratorRuns.IntegerMatrixInRangePrefix | inst/include/RcppDeepState.h:202-224 | the same for given dimensions and range |
| GeneratorRuns.NumericVectorPrefix | inst/include/RcppDeepState.h:39-59 | the same for the default numeric vector |
| GeneratorRuns.NumericVectorInRangePrefix | inst/include/RcppDeepState.h:62-80 | the same for a given size and range of doubles |
| GeneratorRuns.NumericMatrixPrefix | inst/include/RcppDeepState.h:128-149 | the same for the default numeric matrix |
| GeneratorRuns.NumericMatrixInRangePrefix | inst/include/RcppDeepState.h:152-174 | the same for given dimensions and range of doubles |
| GeneratorCells.PlainIsEven | inst/include/RcppDeepState.h:43-57 | the plain branch is taken exactly on an even word |
| GeneratorCells.OverwritesLand | inst/include/RcppDeepState.h:94-97 | after the overwrites each position holds the missing value of the last overwrite there, or what it held before |
| GeneratorCells.GeneratedDelivers | inst/include/RcppDeepState.h:43-57 | in closed form, for all generators and both orders of evaluation: which word each cell, each position and each missing value comes from |
| GeneratorCells.IntegerVectorDelivers | inst/include/RcppDeepState.h:83-103 | cell i is the (i + 4)-th word as an int; on an odd third word two missing values, the second word as an int or INT_MIN, land at drawn positions, the last at each position staying |
| GeneratorCells.IntegerVectorInRangeDelivers | inst/include/RcppDeepState.h:106-125 | cell i is the (i + 3)-rd word reduced into the range, in either order of its ends, with no word drawn for a one-point range; on an odd second word two missing values land likewise |
| GeneratorCells.IntegerMatrixDelivers | inst/include/RcppDeepState.h:177-199 | the sides are the second and third words as ints from 1 to 10, cell i is the (i + 5)-th word reduced into 0..100, and on an odd fourth word five missing values land likewise |
| GeneratorCells.IntegerMatrixInRangeDelivers | inst/include/RcppDeepState.h:202-224 | cell i is the (i + 3)-rd word reduced into the range, and on an odd second word five missing values land likewise |
| GeneratorCells.NumericVectorDelivers | inst/include/RcppDeepState.h:39-59 | cell i is the double of the (i + 4)-th word, without the last on an odd third word, where five missing values land: the double of the second word, NaN, an infinity or NA |
| GeneratorCells.NumericVectorInRangeDelivers | inst/include/RcppDeepState.h:62-80 | cell i is the ranged double of the (i + 3)-rd word, without the last on an odd second word, where five missing values land likewise |
| GeneratorCells.NumericMatrixDelivers | inst/include/RcppDeepState.h:128-149 | the sides are the second and third words as ints from 1 to 10, cell i is the ranged double of the (i + 5)-th word, and on an odd fourth word five missing values land likewise |
| GeneratorCells.NumericMatrixInRangeDelivers | inst/include/RcppDeepState.h:152-174 | cell i is the ranged double of the (i + 3)-rd word, and on an odd second word five missing values land likewise |
| RcppGenerators.IntegerVector | inst/include/RcppDeepState.h:83-103 | the cells are those of the row above, the number of draws is exact, and all writes are in bounds if and only if the size is at least one or the plain branch is taken |
| RcppGenerators.IntegerVectorInRange | inst/include/RcppDeepState.h:106-125 | cells, draws and bounds of the writes likewise, and at most two cells outside the range, each a missing value |
| RcppGenerators.IntegerMatrix | inst/include/RcppDeepState.h:177-199 | cells likewise; no write is out of bounds; 4 + c draws for c cells, and on the other branch five overwrites of two draws each, of one for a single cell; at most five cells outside 0..100 |
| RcppGenerators.IntegerMatrixInRange | inst/include/RcppDeepState.h:202-224 | cells, draws and bounds of the writes likewise, and at most five cells outside the range, each a missing value |
| RcppGenerators.NumericVector | inst/include/RcppDeepState.h:39-59 | cells, exact draws and bounds of the writes with five overwrites, where the second branch leaves the last cell undrawn |
| RcppGenerators.NumericVectorInRange | inst/include/RcppDeepState.h:62-80 | the same for a given size and range: in bounds if and only if the size is at least one or the plain branch is taken |
| RcppGenerators.NumericMatrix | inst/include/RcppDeepState.h:128-149 | cells likewise, no write is out of bounds, and the number of draws is exact |
| RcppGenerators.NumericMatrixInRange | inst/include/RcppDeepState.h:152-174 | cells, exact draws and bounds of the writes for given dimensions and range |
| RcppGenerators.DefaultVectorCanFault | inst/include/RcppDeepState.h:83-100 | a tape on which the default integer vector comes out empty and both overwrites are out of bounds |
| Text.RemoveAllKeeps | R/fun_harness_create.R:161 | removing a pattern leaves a string alone if and only if the string does not contain it |
| HarnessText.UnsupportedTypes | R/fun_harness_create.R:65-66 | the guard lists the unsupported types |
| HarnessSource.UnsupportedInOrder | R/fun_harness_create.R:65-66 | those are the types of the unsupported arguments, in order |
| HarnessSource.SupportedTypes | R/fun_harness_create.R:52-64 | the eleven types that are supported |
| HarnessSource.WrittenTypes | R/fun_harness_create.R:70-75 | std::string, arma::mat and the Rcpp types are supported under their bare names, const or not |
| HarnessText.FunCreate | R/fun_harness_create.R:64-209 | a harness is created if and only if every type is supported, with the accumulators, the trailing splice and comma stripped, that the rows below read back |
| HarnessProperties.DeclarationText | R/fun_harness_create.R:154-161 | removing const from a declaration removes it from the type and the name and nothing else |
| HarnessProperties.WellScoped | R/fun_harness_create.R:140-206 | the emitted declaration is the one under the name that the dump, the print and the call use if and only if that name does not contain const |
| HarnessProperties.ConstantIsRenamed | R/fun_harness_create.R:140-206 | a numeric vector named "constant" is declared as "ant" and passed as "constant" |
| HarnessProperties.CallSplitsIntoArguments | R/fun_harness_create.R:187-206 | splitting the emitted call at commas gives back one text per argument in order |
| HarnessProperties.PassedByElement | R/fun_harness_create.R:154-194 | the text passed to the call takes element 0 if and only if the emitted declaration gives the argument length one |
| HarnessProperties.MacrosAreSingleLines | R/fun_harness_create.R:134-200 | in both macros every newline follows a backslash and the newline after them does not; they translate to one logical line each, next to any text |
| HarnessProperties.FileHasMacroLines | R/fun_harness_create.R:123-217 | in the file written each macro is one logical line, whatever tests follow |
| HarnessLines.InputsSplit | R/fun_harness_create.R:133-177 | splitting the INPUTS macro at its splices gives back the declarations, two lines for an argument of length one and one for any other, in order |
| HarnessLines.PrintsSplit | R/fun_harness_create.R:134-200 | splitting the PRINT_INPUTS macro gives back one line per argument, in order, between its first two lines and its last |
| HarnessLines.DumpsSplit | R/fun_harness_create.R:163-178 | splitting the dumps gives back the lines that save each argument to its own file, in order |
| HarnessText.HarnessFile | R/fun_harness_create.R:64-219 | the whole text, from the header to the last brace, exactly when every type is supported |
| HarnessLines.FileLines | R/fun_harness_create.R:123-219 | the logical lines of that text: header, one line per macro, the generator test, and the runner test with the dump lines and the call, whose text splits at commas into one argument each, in order |
| HarnessSource.InputsMacro | R/fun_harness_create.R:133-198 | the INPUTS macro in one line: a scalar is drawn into the only element of an integer, numeric or character vector, by its type, and any other argument as it is, in order |
| HarnessSource.PrintsMacro | R/fun_harness_create.R:134-200 | the PRINT_INPUTS macro in one line: one statement per argument, in order, between two fixed ones |
| HarnessSource.CommentsAreNotes | R/fun_harness_create.R:128-152 | the comments name the ranged generator of each argument whose type has one, in order, in the editable harness alone |
| HarnessSource.SourceLines | R/fun_harness_create.R:27-219 | the whole file as a compiler reads it, from the headers to the last brace, spelled out by type and name; the call passes one text per argument, in order |
| Text.LogicalLinesCut | R/fun_harness_create.R:198-200 | a newline with no backslash before it separates the logical lines on both sides |
| ValgrindLog.ReadValgrindXml | R/xml_log.R:24-66 | the nested loops give the de-duplicated answer of the query, or nothing when the log mentions no source |
| ValgrindLog.LoopAnswersQuery | R/xml_log.R:34-64 | before de-duplication the rows are, in document order, one for each error stack with a located frame |
| ValgrindLog.QueryRows | R/xml_log.R:34-64 | a row is in the answer if and only if some error stack of some error reports it: with the extended message where there is one, and with the fixed texts where there is no address or no trace |
| ValgrindLog.QueryConcat | R/xml_log.R:34-64 | document order: two logs one after the other give the rows of the first and then those of the second |
| ValgrindLog.StacksConcat | R/xml_log.R:43 | the stacks of an error are its children of that kind, in document order |
| ValgrindLog.MatcherIs | R/xml_log.R:24-31 | frames are matched by their directory where the log mentions the source directory, and else by a file under src/ |
| ValgrindLog.ReportsExactly | R/xml_log.R:35-62 | a stack reports a row exactly when the code appends that row for it |
| ValgrindLog.TraceIsLocation | R/xml_log.R:73-83 | the trace of a stack is the file and line of its first matching frame, where both are there |
| ValgrindLog.AuxIsFirst | R/xml_log.R:88-98 | the address has a stack exactly when the first auxiliary message is directly followed by one; its text is the address |
| ValgrindLog.UniqueKeepsFirstOccurrences | R/xml_log.R:65-66 | de-duplication keeps exactly the first occurrences, in order |
| ValgrindLog.UniqueMembers | R/xml_log.R:65-66 | no row is lost and none is repeated |

## Left out

- Bodies of the extern DeepState functions, floating-point ranges and the fuzz loop: not part of the repository.
- `DeepState_RunSingleSavedTestCase`: one call of `Driver.Process.RunSavedTestCase` and the flag checks of the directory driver, which `SavedCases.RunSingleSavedTestDir` covers.
- `DeepState_RunListTests`: writes the names and line numbers of the tests and changes no state.
- The choice of a test by name and of a mode by the flags of `DeepState_Run`: every mode is modelled, or left out here, for any test and any flags, whichever is chosen.
- The abandon of `OneOf` on an empty string, vector or array: it comes before the read, and an abandon is modelled by `Driver.Process.Abandon`.
- Dr. Fuzz mode, `waitpid` details, `system()` calls, directory access: input and output; directories and files are sequences.
- `DeepState_TakeOver` and failure by exit under the take-over flag: extern.
- Nested calls of a test and destructors skipped by a jump: a test is one call on the stack with a trace of steps.
- RcppGenerators.IntegerMatrixInRange: does not model dimensions whose product does not fit an int, which is undefined in C++.
- RcppGenerators.IntegerVectorInRange: does not model negative sizes, which Rcpp refuses.
- Generators.Generate: the four numeric generators and the four integer ones share one body, parametric in how a cell is drawn.
- SymbolicChoice.Engine.Pump: one symbolic value at a time; constraints that tie it to other symbolic values are not modelled.
- HarnessText.FunCreate: an empty argument list is excluded, since `1:nrow` then runs over rows 1 and 0; the early return for an existing file, directory creation and the makefile are input and output.
- ValgrindLog.ReadValgrindXml: XML parsing, the regular expressions that search the log text, and messages with several texts are not modelled.
- Character vectors, strings and Armadillo matrices: each cell is written once, at the index of the loop that draws it, and none is overwritten at a drawn position, so the bounds, the ranges and the missing values proved of the other generators do not come up.
- The parsing of `RcppExports.cpp` (`R/package_details.R`): regular expressions matched by the package nc; the rows they yield are the inputs of `HarnessText`, whose properties hold for any rows.
- Logging, options, continuous-integration files and makefile text: text written for other programs, which nothing modelled reads back.
