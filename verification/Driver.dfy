/**
 * The test driver as it changes its globals (inst/include/DeepState.h:530-1089). A longjmp goes to
 * the single global target, which names the function call that last called setjmp; it is valid only
 * while that call is still on the stack (section 7.13.2.1 of ISO C11). Every jump is recorded.
 *
 * The functions the driver calls but does not define are taken as their comments describe them:
 * DeepState_Begin clears the failure marks, DeepState_CatchFail and DeepState_CatchAbandoned report
 * them, and the save, log, clean-up and crash-marking calls do not jump. Allocation succeeds.
 */
module Driver {
  import opened Options
  import opened TestRuns

  /** A file as fopen, fileno, fstat and fread show it; fread may deliver fewer bytes than fstat reports. */
  datatype File =
    | Unopenable
    | NoDescriptor
    | NoStatus
    | Readable(size: nat, bytes: seq<byte>)

  datatype Jump = Jump(target: Option<nat>, live: bool)

  /** How a piece of C++ code hands control back. */
  datatype Control = Returned | Jumped(target: Option<nat>) | Threw | Killed | Exited(code: int)

  /** How a child process ends, as waitpid reports it. */
  datatype WaitStatus = ExitedWith(status: nat) | Signaled

  // ----- Saved inputs -----

  function Min(a: nat, b: nat): nat {
    if a < b then a else b
  }

  /** The input buffer after a file is loaded: its prefix, padded with zeros. None where loading abandons. */
  function LoadFile(file: File): (r: Option<seq<byte>>)
    ensures r.Some? ==> |r.value| == INPUT_SIZE
  {
    if file.Readable? && Min(file.size, INPUT_SIZE) <= |file.bytes| then
      var n := Min(file.size, INPUT_SIZE);
      Some(file.bytes[..n] + Zeros(INPUT_SIZE - n))
    else
      None
  }

  function Zeros(n: nat): (s: seq<byte>)
    ensures |s| == n
  {
    seq(n, i => 0)
  }

  /** Result of one saved case; None when it takes the driver's process down. */
  function CaseResult(flags: Flags, test: TestInfo, file: File): Option<Result> {
    var buffer := LoadFile(file);
    if buffer.None? then Some(TestCrash)
    else RunResult(flags, test, test.body(Snapshot(buffer.value, 0, 0)).steps)
  }

  function CaseSaves(flags: Flags, test: TestInfo, file: File): seq<Artefact> {
    var buffer := LoadFile(file);
    if buffer.None? then []
    else
      var steps := test.body(Snapshot(buffer.value, 0, 0)).steps;
      Saves(flags, test, steps)
      + if RunResult(flags, test, steps) == Some(TestCrash) && flags.hasOutputTestDir then [CrashingCase] else []
  }

  /** The input globals a test leaves behind in its process. */
  function After(test: TestInfo, s: Snapshot): Snapshot {
    var run := test.body(s);
    Snapshot(s.buffer, run.index, run.swarm)
  }

  /** The input globals of the driver's process after a run: a forked test leaves them alone. */
  function Next(flags: Flags, test: TestInfo, s: Snapshot): Snapshot {
    if flags.fork then s else After(test, s)
  }

  // ----- What these are, byte by byte and field by field -----

  /** The file can be read as far as the buffer goes. */
  predicate Loads(file: File) {
    file.Readable? && (file.size <= |file.bytes| || 8192 <= |file.bytes|)
  }

  /** The 8192 bytes that a file gives. */
  function Padded(file: File): seq<byte>
    requires Loads(file)
  {
    seq(8192, i requires 0 <= i < 8192 => if i < file.size then file.bytes[i] else 0)
  }

  lemma LoadFileIs(file: File)
    ensures LoadFile(file).Some? <==> Loads(file)
    ensures Loads(file) ==> LoadFile(file).value == Padded(file)
  {
  }

  /** A case that does not load crashes and saves nothing; one that does runs from its bytes and from zero indices. */
  lemma CaseIs(flags: Flags, test: TestInfo, file: File)
    ensures !Loads(file) ==> CaseResult(flags, test, file) == Some(TestCrash) && CaseSaves(flags, test, file) == []
    ensures Loads(file) ==>
              var steps := test.body(Snapshot(Padded(file), 0, 0)).steps;
              var result := if flags.fork then Some(ForkedResult(test, steps)) else UnforkedResult(flags, test, steps);
              && CaseResult(flags, test, file) == result
              && CaseSaves(flags, test, file)
                 == Saves(flags, test, steps)
                    + if result == Some(TestCrash) && flags.hasOutputTestDir then [CrashingCase] else []
  {
    LoadFileIs(file);
  }

  /** A run in the driver's own process leaves the two indices where the test left them; a forked one moves nothing. */
  lemma NextIs(flags: Flags, test: TestInfo, s: Snapshot)
    ensures Next(flags, test, s).buffer == s.buffer
    ensures Next(flags, test, s).index == if flags.fork then s.index else test.body(s).index
    ensures Next(flags, test, s).swarm == if flags.fork then s.swarm else test.body(s).swarm
  {
  }

  // ----- Processes -----

  /** What outlives a process: the files saved and, for the proofs, the jumps raised anywhere. */
  class World {
    var saved: seq<Artefact>
    var jumps: seq<Jump>

    constructor ()
      ensures saved == [] && jumps == []
    {
      saved, jumps := [], [];
    }

    ghost predicate AllJumpsLive()
      reads this
    {
      forall j | j in jumps :: j.live
    }
  }

  /** The stack after control returns to the given call. */
  function Unwind(frames: seq<nat>, frame: nat): seq<nat> {
    if frames == [] || frames[|frames| - 1] == frame then frames else Unwind(frames[..|frames| - 1], frame)
  }

  class Process {
    const world: World
    const flags: Flags
    const input: array<byte>
    var inputIndex: nat
    var swarmIndex: nat
    var failed: bool
    var abandoned: bool
    /** The calls on the stack, each with a number never used again, and the DeepState_ReturnToRun target. */
    var frames: seq<nat>
    var nextFrame: nat
    var target: Option<nat>

    ghost predicate Valid()
      reads this
    {
      && input.Length == INPUT_SIZE
      && (forall i | 0 <= i < |frames| :: frames[i] < nextFrame)
      && (target.Some? ==> target.value < nextFrame)
    }

    predicate TargetLive()
      reads this
    {
      target.Some? && target.value in frames
    }

    /** A process at the start of main. */
    constructor (world: World, flags: Flags)
      ensures Valid() && this.world == world && this.flags == flags
      ensures fresh(input) && !TargetLive()
    {
      this.world, this.flags := world, flags;
      input := new byte[INPUT_SIZE];
      inputIndex, swarmIndex := 0, 0;
      failed, abandoned := false, false;
      frames, nextFrame, target := [], 0, None;
    }

    /** fork: the child has its own copy of everything but the file system. */
    constructor Fork(parent: Process)
      requires parent.Valid()
      ensures Valid() && fresh(input) && world == parent.world && flags == parent.flags
      ensures input[..] == parent.input[..]
      ensures inputIndex == parent.inputIndex && swarmIndex == parent.swarmIndex
      ensures failed == parent.failed && abandoned == parent.abandoned
      ensures frames == parent.frames && nextFrame == parent.nextFrame && target == parent.target
    {
      world, flags := parent.world, parent.flags;
      input := new byte[parent.input.Length](
        i requires 0 <= i < parent.input.Length reads parent.input => parent.input[i]);
      inputIndex, swarmIndex := parent.inputIndex, parent.swarmIndex;
      failed, abandoned := parent.failed, parent.abandoned;
      frames, nextFrame, target := parent.frames, parent.nextFrame, parent.target;
    }

    // ----- Control flow -----

    method Enter() returns (frame: nat)
      requires Valid()
      modifies this`frames, this`nextFrame
      ensures Valid() && frame == old(nextFrame) && nextFrame == frame + 1
      ensures frames == old(frames) + [frame]
    {
      frame := nextFrame;
      frames, nextFrame := frames + [frame], nextFrame + 1;
    }

    method Leave()
      requires Valid() && frames != []
      modifies this`frames
      ensures Valid() && frames == old(frames)[..|old(frames)| - 1]
    {
      frames := frames[..|frames| - 1];
    }

    /** setjmp, on its direct return. */
    method SetJmp(frame: nat)
      requires Valid() && frame in frames
      modifies this`target
      ensures Valid() && target == Some(frame) && TargetLive()
    {
      target := Some(frame);
    }

    /** longjmp(DeepState_ReturnToRun, 1). */
    method LongJmp() returns (c: Control)
      requires Valid()
      modifies this`frames, world`jumps
      ensures Valid() && c == Jumped(target)
      ensures world.jumps == old(world.jumps) + [Jump(target, old(TargetLive()))]
      ensures frames == if old(TargetLive()) then Unwind(old(frames), target.value) else old(frames)
    {
      world.jumps := world.jumps + [Jump(target, TargetLive())];
      if TargetLive() {
        UnwindIsPrefix(frames, target.value);
        frames := Unwind(frames, target.value);
      }
      c := Jumped(target);
    }

    method Fail() returns (c: Control)
      requires Valid()
      modifies this`failed, this`frames, world`jumps
      ensures Valid() && failed && c == Jumped(target)
      ensures world.jumps == old(world.jumps) + [Jump(target, old(TargetLive()))]
      ensures frames == if old(TargetLive()) then Unwind(old(frames), target.value) else old(frames)
    {
      failed := true;
      c := LongJmp();
    }

    method Abandon() returns (c: Control)
      requires Valid()
      modifies this`abandoned, this`frames, world`jumps
      ensures Valid() && abandoned && c == Jumped(target)
      ensures world.jumps == old(world.jumps) + [Jump(target, old(TargetLive()))]
      ensures frames == if old(TargetLive()) then Unwind(old(frames), target.value) else old(frames)
    {
      abandoned := true;
      c := LongJmp();
    }

    method Begin()
      requires Valid()
      modifies this`failed, this`abandoned
      ensures Valid() && !failed && !abandoned
    {
      failed, abandoned := false, false;
    }

    // ----- Running a test -----

    ghost function Current(): Snapshot
      reads this, input
    {
      Snapshot(input[..], inputIndex, swarmIndex)
    }

    /** The body of a test, up to and including the step that ends it. */
    method TestBody(test: TestInfo) returns (step: Step)
      requires Valid() && !failed
      modifies this`inputIndex, this`swarmIndex, this`failed
      ensures Valid() && Current() == After(test, old(Current()))
      ensures var steps := test.body(old(Current())).steps; step == Ending(steps) && failed == SoftFailed(steps)
    {
      var run := test.body(Snapshot(input[..], inputIndex, swarmIndex));
      inputIndex, swarmIndex := run.index, run.swarm;
      var i := 0;
      while i < |run.steps| && !run.steps[i].Ends()
        invariant i <= |run.steps| && inputIndex == run.index && swarmIndex == run.swarm
        invariant Ending(run.steps) == Ending(run.steps[i..])
        invariant SoftFailed(run.steps) == (failed || SoftFailed(run.steps[i..]))
      {
        if run.steps[i].DoSoftFail? {
          failed := true;
        }
        i := i + 1;
      }
      step := if i < |run.steps| then run.steps[i] else DoReturn;
    }

    /** The registered function of a test, called from the call that the jump target names. */
    method TestFunction(test: TestInfo, ghost base: seq<nat>, ghost caller: nat) returns (c: Control)
      requires Valid() && !failed && !abandoned
      requires frames == base + [caller] && target == Some(caller)
      modifies this, world`jumps
      ensures Valid() && frames == base + [caller] && target == Some(caller)
      ensures Current() == After(test, old(Current()))
      ensures old(world.AllJumpsLive()) ==> world.AllJumpsLive()
      ensures var steps := test.body(old(Current())).steps;
              var e := Ending(steps);
              && failed == (SoftFailed(steps) || e.DoFail?)
              && abandoned == e.DoAbandon?
              && c == if e.DoThrow? then Threw
                      else if e.DoSignal? then Killed
                      else if e.DoExit? then Exited(e.code)
                      else if BareReturn(test, steps) then Returned
                      else Jumped(Some(caller))
    {
      var own := Enter();
      UnwindOne(base, caller, own);
      var step := TestBody(test);
      match step {
        case DoFail => c := Fail();
        case DoAbandon => c := Abandon();
        case DoPass => c := LongJmp();
        case DoThrow => Leave(); c := Threw;
        case DoSignal => Leave(); c := Killed;
        case DoExit(code) => Leave(); c := Exited(code);
        case DoReturn =>
          if test.wrapped {
            c := LongJmp();
          } else {
            Leave();
            c := Returned;
          }
      }
    }

    /**
     * The setjmp block that DeepState_RunTest and DeepState_RunTestNoFork share: the test runs under
     * a fresh jump target, and an uncaught exception becomes a failure.
     */
    method Protected(test: TestInfo) returns (own: nat, c: Control)
      requires Valid() && !failed && !abandoned
      modifies this, world`jumps
      ensures Valid() && own == old(nextFrame)
      ensures frames == old(frames) + [own] && target == Some(own)
      ensures Current() == After(test, old(Current()))
      ensures old(world.AllJumpsLive()) ==> world.AllJumpsLive()
      ensures var steps := test.body(old(Current())).steps;
              && (c.Killed? <==> Ending(steps).DoSignal?)
              && (c.Exited? <==> Ending(steps).DoExit?) && (c.Exited? ==> c.code == Ending(steps).code)
              && (c.Returned? <==> BareReturn(test, steps))
              && !c.Threw? && (c.Jumped? ==> c.target == Some(own))
              && (c.Jumped? ==>
                    Verdict(steps) == if failed then TestFail else if abandoned then TestAbandon else TestPass)
    {
      ghost var base := frames;
      own := Enter();
      SetJmp(own);
      c := TestFunction(test, base, own);
      if c.Threw? {
        UnwindNone(frames, own);
        c := Fail();
      }
    }

    method SaveFailingTest()
      modifies world`saved
      ensures world.saved == old(world.saved) + if flags.hasOutputTestDir then [FailingCase] else []
    {
      if flags.hasOutputTestDir {
        world.saved := world.saved + [FailingCase];
      }
    }

    method SavePassingTest()
      modifies world`saved
      ensures world.saved == old(world.saved)
            + if flags.hasOutputTestDir && (!flags.fuzz || flags.fuzzSavePassing) then [PassingCase] else []
    {
      if flags.hasOutputTestDir {
        if !flags.fuzz || flags.fuzzSavePassing {
          world.saved := world.saved + [PassingCase];
        }
      }
    }

    /** DeepState_RunTest, in a forked child; it never returns. */
    method RunTest(test: TestInfo) returns (status: WaitStatus)
      requires Valid() && !failed && !abandoned
      modifies this, world
      ensures old(world.AllJumpsLive()) ==> world.AllJumpsLive()
      ensures var steps := test.body(old(Current())).steps;
              && world.saved == old(world.saved) + Saves(flags, test, steps)
              && (match ChildStatus(test, steps)
                  case None => status == Signaled
                  case Some(code) => status == ExitedWith(code))
    {
      var own, c := Protected(test);
      match c {
        case Returned => return ExitedWith(0);
        case Killed => return Signaled;
        case Exited(code) => return ExitedWith(code % 256);
        case Jumped(_) =>
      }
      if failed {
        SaveFailingTest();
        return ExitedWith(1);
      } else if abandoned {
        return ExitedWith(3);
      } else {
        SavePassingTest();
        return ExitedWith(0);
      }
    }

    /**
     * DeepState_RunTestNoFork; None when the process is gone. It leaves the jump target dead: a
     * jump raised before the next setjmp would be invalid.
     */
    method RunTestNoFork(test: TestInfo) returns (r: Option<Result>)
      requires Valid() && !failed && !abandoned
      modifies this, world
      ensures Valid() && frames == old(frames) && !TargetLive()
      ensures Current() == After(test, old(Current()))
      ensures old(world.AllJumpsLive()) ==> world.AllJumpsLive()
      ensures var steps := test.body(old(Current())).steps;
              && world.saved == old(world.saved) + Saves(flags, test, steps)
              && r == UnforkedResult(flags, test, steps)
    {
      var own, c := Protected(test);
      if c.Returned? {
        r := Some(TestPass);
      } else if c.Killed? || c.Exited? {
        r := None;
      } else if failed {
        SaveFailingTest();
        r := if flags.hasAbortOnFail then None else Some(TestFail);
      } else if abandoned {
        r := Some(TestAbandon);
      } else {
        SavePassingTest();
        r := Some(TestPass);
      }
      Leave();
    }

    method ForkAndRunTest(test: TestInfo) returns (r: Option<Result>)
      requires Valid() && !failed && !abandoned
      modifies this, world
      ensures Valid() && frames == old(frames)
      ensures old(world.AllJumpsLive()) ==> world.AllJumpsLive()
      ensures var steps := test.body(old(Current())).steps;
              && world.saved == old(world.saved) + Saves(flags, test, steps)
              && r == RunResult(flags, test, steps)
      ensures flags.fork ==> unchanged(this)
      ensures !flags.fork ==> !TargetLive()
      ensures Current() == Next(flags, test, old(Current()))
    {
      if flags.fork {
        var child := new Process.Fork(this);
        var status := child.RunTest(test);
        return match status
          case ExitedWith(code) => Some(FromExitCode(code))
          case Signaled => Some(TestCrash);
      } else {
        r := RunTestNoFork(test);
      }
    }

    // ----- Running a saved case -----

    /** DeepState_InitInputFromFile: whatever the input globals were, they end up determined by the file. */
    method InitInputFromFile(file: File) returns (c: Control)
      requires Valid()
      modifies this, input, world`jumps
      ensures Valid() && target == old(target)
      ensures LoadFile(file).None? ==>
                c == Jumped(target)
                && world.jumps == old(world.jumps) + [Jump(target, old(TargetLive()))]
                && frames == if old(TargetLive()) then Unwind(old(frames), target.value) else old(frames)
      ensures LoadFile(file).Some? ==>
                c == Returned && world.jumps == old(world.jumps) && frames == old(frames)
                && Current() == Snapshot(LoadFile(file).value, 0, 0)
      ensures c.Returned? <==> Loads(file)
      ensures Loads(file) ==> inputIndex == 0 && swarmIndex == 0 && input[..] == Padded(file)
    {
      LoadFileIs(file);
      if !file.Readable? {
        c := Abandon();
        return;
      }
      var toRead := file.size;
      if file.size > INPUT_SIZE {
        toRead := INPUT_SIZE;
      }
      var i := 0;
      while i < INPUT_SIZE
        invariant i <= INPUT_SIZE && forall k | 0 <= k < i :: input[k] == 0
        modifies input
      {
        input[i] := 0;
        i := i + 1;
      }
      inputIndex := 0;
      swarmIndex := 0;
      var count := 0;
      while count < toRead && count < |file.bytes|
        invariant count <= toRead && count <= |file.bytes|
        invariant forall k | 0 <= k < count :: input[k] == file.bytes[k]
        invariant forall k | count <= k < INPUT_SIZE :: input[k] == 0
        modifies input
      {
        input[count] := file.bytes[count];
        count := count + 1;
      }
      if count != toRead {
        c := Abandon();
        return;
      }
      assert input[..] == LoadFile(file).value;
      return Returned;
    }

    /** The first part of DeepState_RunSavedTestCase: load the file under a fresh jump target. */
    method LoadProtected(file: File) returns (own: nat, loaded: bool)
      requires Valid()
      modifies this, input, world`jumps
      ensures Valid() && own == old(nextFrame)
      ensures frames == old(frames) + [own] && target == Some(own)
      ensures old(world.AllJumpsLive()) ==> world.AllJumpsLive()
      ensures loaded == LoadFile(file).Some?
      ensures loaded ==> Current() == Snapshot(LoadFile(file).value, 0, 0)
    {
      own := Enter();
      SetJmp(own);
      UnwindNone(frames, own);
      var c := InitInputFromFile(file);
      loaded := c.Returned?;
    }

    /** DeepState_RunSavedTestCase. Its result depends on the file alone, not on what ran before. */
    method RunSavedTestCase(test: TestInfo, file: File) returns (r: Option<Result>)
      requires Valid()
      modifies this, input, world
      ensures Valid() && frames == old(frames) && !TargetLive()
      ensures old(world.AllJumpsLive()) ==> world.AllJumpsLive()
      ensures r == CaseResult(flags, test, file)
      ensures world.saved == old(world.saved) + CaseSaves(flags, test, file)
    {
      var own, loaded := LoadProtected(file);
      if loaded {
        Begin();
        r := ForkAndRunTest(test);
        if r == Some(TestCrash) && flags.hasOutputTestDir {
          world.saved := world.saved + [CrashingCase];
        }
      } else {
        r := Some(TestCrash);
      }
      Leave();
    }
  }

  lemma {:induction false} UnwindIsPrefix(frames: seq<nat>, frame: nat)
    ensures Unwind(frames, frame) <= frames
  {
    if frames != [] && frames[|frames| - 1] != frame {
      UnwindIsPrefix(frames[..|frames| - 1], frame);
    }
  }

  lemma UnwindNone(frames: seq<nat>, frame: nat)
    requires frames != [] && frames[|frames| - 1] == frame
    ensures Unwind(frames, frame) == frames
  {
  }

  lemma UnwindLast(frames: seq<nat>, own: nat, frame: nat)
    requires own != frame
    ensures Unwind(frames + [own], frame) == Unwind(frames, frame)
  {
    assert (frames + [own])[..|frames|] == frames;
  }

  lemma UnwindOne(base: seq<nat>, caller: nat, own: nat)
    requires own != caller
    ensures Unwind(base + [caller, own], caller) == base + [caller]
    ensures base + [caller] + [own] == base + [caller, own]
    ensures (base + [caller, own])[..|base| + 1] == base + [caller]
  {
    assert base + [caller] + [own] == base + [caller, own];
    UnwindLast(base + [caller], own, caller);
    UnwindNone(base + [caller], caller);
  }
}
