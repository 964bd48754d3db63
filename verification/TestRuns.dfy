/**
 * What one execution of a registered test amounts to: the trace of a test, the verdict on it, and
 * the results of running it in a forked child and in the driver's own process
 * (inst/include/DeepState.h:475-492, 602-722).
 */
module TestRuns {
  import opened Options

  type byte = x: int | 0 <= x < 256

  /** DEEPSTATE_SIZE. */
  const INPUT_SIZE: nat := 8192

  /** DeepState_TestRunResult; an exit code that names none of its members is kept as it is. */
  datatype Result = TestPass | TestFail | TestCrash | TestAbandon | TestOther(code: nat)

  /** The steps of a test that matter to the driver. A finished trace returns. */
  datatype Step =
    | DoWork | DoSoftFail | DoFail | DoAbandon | DoThrow | DoPass | DoReturn | DoSignal | DoExit(code: int)
  {
    predicate Ends() {
      !DoWork? && !DoSoftFail?
    }

    predicate Fails() {
      DoSoftFail? || DoFail? || DoThrow?
    }
  }

  /** The input globals a test starts from. */
  datatype Snapshot = Snapshot(buffer: seq<byte>, index: nat, swarm: nat)

  /** The trace of a run and the input globals it leaves behind. */
  datatype Execution = Execution(steps: seq<Step>, index: nat, swarm: nat)

  /**
   * A registered test. `wrapped` says that it was registered through the entry-point or fixture
   * macro, which calls DeepState_Pass after the test body returns. A run depends on the input alone.
   */
  datatype TestInfo = TestInfo(name: string, wrapped: bool, body: Snapshot -> Execution)

  datatype Artefact = PassingCase | FailingCase | CrashingCase

  datatype Flags = Flags(
    fork: bool,
    hasOutputTestDir: bool,
    fuzz: bool,
    fuzzSavePassing: bool,
    hasAbortOnFail: bool,
    abortOnFail: bool,
    exitOnFail: bool
  )

  /** The step that ends a run. */
  function Ending(steps: seq<Step>): (e: Step)
    ensures e.Ends()
  {
    if steps == [] then DoReturn else if steps[0].Ends() then steps[0] else Ending(steps[1..])
  }

  /** A soft failure happens before the run ends. */
  predicate SoftFailed(steps: seq<Step>) {
    steps != [] && !steps[0].Ends() && (steps[0].DoSoftFail? || SoftFailed(steps[1..]))
  }

  /** The verdict on a run that ends neither by a signal nor by exit. */
  function Verdict(steps: seq<Step>): Result {
    if SoftFailed(steps) || Ending(steps).Fails() then TestFail
    else if Ending(steps).DoAbandon? then TestAbandon
    else TestPass
  }

  /** A bare return from a test function that no macro wraps. */
  predicate BareReturn(test: TestInfo, steps: seq<Step>) {
    !test.wrapped && Ending(steps).DoReturn?
  }

  predicate LeavesProcess(steps: seq<Step>) {
    Ending(steps).DoSignal? || Ending(steps).DoExit?
  }

  /** The test case files written for a run. */
  function Saves(flags: Flags, test: TestInfo, steps: seq<Step>): seq<Artefact> {
    if !flags.hasOutputTestDir || LeavesProcess(steps) || BareReturn(test, steps) then []
    else if Verdict(steps).TestFail? then [FailingCase]
    else if Verdict(steps).TestPass? && (!flags.fuzz || flags.fuzzSavePassing) then [PassingCase]
    else []
  }

  function ExitCode(r: Result): nat {
    match r
    case TestPass => 0
    case TestFail => 1
    case TestCrash => 2
    case TestAbandon => 3
    case TestOther(code) => code
  }

  function FromExitCode(status: nat): Result {
    if status == 0 then TestPass
    else if status == 1 then TestFail
    else if status == 2 then TestCrash
    else if status == 3 then TestAbandon
    else TestOther(status)
  }

  /** Exit status of the forked child; None when a signal killed it. */
  function ChildStatus(test: TestInfo, steps: seq<Step>): Option<nat> {
    if Ending(steps).DoSignal? then None
    else if Ending(steps).DoExit? then Some(Ending(steps).code % 256)
    else if BareReturn(test, steps) then Some(0)
    else Some(ExitCode(Verdict(steps)))
  }

  function ForkedResult(test: TestInfo, steps: seq<Step>): Result {
    var status := ChildStatus(test, steps);
    if status.Some? then FromExitCode(status.value) else TestCrash
  }

  /** Result of a run without a fork; None when the run takes the driver's process down. */
  function UnforkedResult(flags: Flags, test: TestInfo, steps: seq<Step>): Option<Result> {
    if LeavesProcess(steps) then None
    else if BareReturn(test, steps) then Some(TestPass)
    else if Verdict(steps).TestFail? && flags.hasAbortOnFail then None
    else Some(Verdict(steps))
  }

  function RunResult(flags: Flags, test: TestInfo, steps: seq<Step>): Option<Result> {
    if flags.fork then Some(ForkedResult(test, steps)) else UnforkedResult(flags, test, steps)
  }

  // ----- Properties -----

  /** None of the first i steps ends the run. */
  ghost predicate Continues(steps: seq<Step>, i: nat)
    requires i <= |steps|
  {
    forall j | 0 <= j < i :: steps[j].DoWork? || steps[j].DoSoftFail?
  }

  /** The run gets to its i-th step, and that step is e. */
  ghost predicate Takes(steps: seq<Step>, e: Step, i: nat) {
    i < |steps| && steps[i] == e && Continues(steps, i)
  }

  ghost predicate GetsTo(steps: seq<Step>, e: Step) {
    exists i: nat :: Takes(steps, e, i)
  }

  /** A soft failure, a failure or an uncaught exception comes before, or is itself, the end of the run. */
  ghost predicate FailsFirst(steps: seq<Step>) {
    GetsTo(steps, DoSoftFail) || GetsTo(steps, DoFail) || GetsTo(steps, DoThrow)
  }

  ghost predicate AbandonsFirst(steps: seq<Step>) {
    GetsTo(steps, DoAbandon)
  }

  ghost predicate Exits(steps: seq<Step>) {
    exists code :: GetsTo(steps, DoExit(code))
  }

  /** The test function returns, at the end of its body or before it. */
  ghost predicate Returns(steps: seq<Step>) {
    GetsTo(steps, DoReturn) || Continues(steps, |steps|)
  }

  function EndIndex(steps: seq<Step>): (n: nat)
    ensures n <= |steps|
    ensures if n < |steps| then steps[n] == Ending(steps) else Ending(steps) == DoReturn
    ensures forall j | 0 <= j < n :: !steps[j].Ends()
  {
    if steps == [] || steps[0].Ends() then 0 else 1 + EndIndex(steps[1..])
  }

  lemma {:induction false} SoftFailedIsMember(steps: seq<Step>)
    ensures SoftFailed(steps) <==> DoSoftFail in steps[..EndIndex(steps)]
  {
    if steps != [] && !steps[0].Ends() {
      SoftFailedIsMember(steps[1..]);
      assert steps[..EndIndex(steps)] == [steps[0]] + steps[1..][..EndIndex(steps[1..])];
    }
  }

  /** The ending is the step that the run gets to and that ends it, or a return where there is none. */
  lemma EndingIs(steps: seq<Step>, e: Step)
    requires !e.DoWork? && !e.DoSoftFail?
    ensures e == DoReturn ==> (Ending(steps) == e <==> Returns(steps))
    ensures e != DoReturn ==> (Ending(steps) == e <==> GetsTo(steps, e))
  {
    var n := EndIndex(steps);
    assert Continues(steps, n);
    if n < |steps| {
      assert Takes(steps, steps[n], n);
    }
    if i: nat :| Takes(steps, e, i) {
      assert i == n;
    }
  }

  lemma SoftFailedIs(steps: seq<Step>)
    ensures SoftFailed(steps) <==> GetsTo(steps, DoSoftFail)
  {
    SoftFailedIsMember(steps);
    var n := EndIndex(steps);
    if SoftFailed(steps) {
      var i :| 0 <= i < n && steps[i] == DoSoftFail;
      assert Takes(steps, DoSoftFail, i);
    }
    if i: nat :| Takes(steps, DoSoftFail, i) {
      assert i < n;
      assert steps[..n][i] == DoSoftFail;
    }
  }

  /** All the ways in which a run can end, by the step it gets to. */
  lemma EndingCases(steps: seq<Step>)
    ensures Ending(steps).DoReturn? <==> Returns(steps)
    ensures Ending(steps).DoFail? <==> GetsTo(steps, DoFail)
    ensures Ending(steps).DoThrow? <==> GetsTo(steps, DoThrow)
    ensures Ending(steps).DoAbandon? <==> GetsTo(steps, DoAbandon)
    ensures Ending(steps).DoSignal? <==> GetsTo(steps, DoSignal)
    ensures Ending(steps).DoExit? <==> Exits(steps)
  {
    EndingIs(steps, DoReturn);
    EndingIs(steps, DoFail);
    EndingIs(steps, DoThrow);
    EndingIs(steps, DoAbandon);
    EndingIs(steps, DoSignal);
    if Ending(steps).DoExit? {
      EndingIs(steps, Ending(steps));
    }
    if code :| GetsTo(steps, DoExit(code)) {
      EndingIs(steps, DoExit(code));
    }
  }

  /** Fail if a soft failure, failure or uncaught exception came first; else Abandon if abandoned; else Pass. */
  lemma VerdictPrecedence(steps: seq<Step>)
    ensures Verdict(steps).TestFail? <==> FailsFirst(steps)
    ensures Verdict(steps).TestAbandon? <==> !FailsFirst(steps) && AbandonsFirst(steps)
    ensures Verdict(steps).TestPass? <==> !FailsFirst(steps) && !AbandonsFirst(steps)
  {
    SoftFailedIs(steps);
    EndingCases(steps);
  }

  /** A forked run, by what its trace gets to: the exit code of the child names the result. */
  lemma ForkedResultIs(test: TestInfo, steps: seq<Step>)
    ensures GetsTo(steps, DoSignal) ==> ForkedResult(test, steps) == TestCrash
    ensures forall code :: GetsTo(steps, DoExit(code)) ==>
              ForkedResult(test, steps)
              == if code % 256 == 0 then TestPass else if code % 256 == 1 then TestFail
                 else if code % 256 == 2 then TestCrash else if code % 256 == 3 then TestAbandon
                 else TestOther(code % 256)
    ensures !test.wrapped && Returns(steps) ==> ForkedResult(test, steps) == TestPass
    ensures !GetsTo(steps, DoSignal) && !Exits(steps) && (test.wrapped || !Returns(steps)) ==>
              ForkedResult(test, steps)
              == if FailsFirst(steps) then TestFail else if AbandonsFirst(steps) then TestAbandon else TestPass
  {
    VerdictPrecedence(steps);
    EndingCases(steps);
    forall code | GetsTo(steps, DoExit(code)) ensures Ending(steps) == DoExit(code) {
      EndingIs(steps, DoExit(code));
    }
  }

  /**
   * Forking is transparent: a run without a fork returns to the driver exactly when no signal, exit
   * or abort flag stops the process, and then its result is the forked one; for a wrapped test that
   * result is the verdict.
   */
  lemma ForkingIsTransparent(flags: Flags, test: TestInfo, steps: seq<Step>)
    ensures UnforkedResult(flags, test, steps).Some? <==>
              !GetsTo(steps, DoSignal) && !Exits(steps)
              && !(flags.hasAbortOnFail && FailsFirst(steps) && (test.wrapped || !Returns(steps)))
    ensures UnforkedResult(flags, test, steps).Some? ==>
              UnforkedResult(flags, test, steps).value == ForkedResult(test, steps)
    ensures test.wrapped && !GetsTo(steps, DoSignal) && !Exits(steps) ==> ForkedResult(test, steps) == Verdict(steps)
  {
    VerdictPrecedence(steps);
    EndingCases(steps);
  }

  /**
   * The files saved for a run, with or without a fork: none where the process is left or an unwrapped
   * test returns, else at most one, a failing case exactly when the run fails first, a passing case
   * exactly when it neither fails nor abandons first and passing cases are kept.
   */
  lemma SavesFollowTrace(flags: Flags, test: TestInfo, steps: seq<Step>)
    ensures var saves := Saves(flags, test, steps);
            var judged := !GetsTo(steps, DoSignal) && !Exits(steps) && (test.wrapped || !Returns(steps));
            && |saves| <= 1 && CrashingCase !in saves
            && (FailingCase in saves <==> flags.hasOutputTestDir && judged && FailsFirst(steps))
            && (PassingCase in saves <==>
                  flags.hasOutputTestDir && judged && !FailsFirst(steps) && !AbandonsFirst(steps)
                  && (flags.fuzz ==> flags.fuzzSavePassing))
  {
    VerdictPrecedence(steps);
    EndingCases(steps);
  }

  /** Without the wrapper a bare return passes whatever happened: right exactly when nothing failed softly. */
  lemma BareReturnLosesSoftFailures(test: TestInfo, steps: seq<Step>)
    requires !test.wrapped && Returns(steps)
    ensures ForkedResult(test, steps) == TestPass
    ensures ForkedResult(test, steps) == Verdict(steps) <==> !GetsTo(steps, DoSoftFail)
    ensures Returns([DoSoftFail]) && GetsTo([DoSoftFail], DoSoftFail)
  {
    SoftFailedIs(steps);
    EndingCases(steps);
    assert Takes([DoSoftFail], DoSoftFail, 0);
  }
}
