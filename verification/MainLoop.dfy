/** The main loop of DeepState_Run (inst/include/DeepState.h:1011-1088), without Dr. Fuzz. */
module MainLoop {
  import opened Options
  import opened TestRuns
  import opened Driver
  import opened Tally
  import Text

  /** The options that select tests; `filter` is fnmatch with the --test_filter pattern, where one is given. */
  datatype Selection = Selection(boringOnly: bool, filter: Option<string -> bool>, runDisabled: bool)

  predicate IsBoring(name: string) {
    Text.Contains(name, "Boring") || Text.Contains(name, "BORING")
  }

  predicate IsDisabled(name: string) {
    Text.Contains(name, "Disabled") || Text.Contains(name, "DISABLED")
  }

  /** The filter and the disabled check let the test through. */
  predicate PassesChecks(sel: Selection, name: string) {
    (sel.filter.Some? ==> sel.filter.value(name)) && (sel.runDisabled || !IsDisabled(name))
  }

  /** How often a test is due. */
  function Due(sel: Selection, name: string): nat {
    if sel.boringOnly then
      if IsBoring(name) then if PassesChecks(sel, name) then 2 else 1 else 0
    else
      if PassesChecks(sel, name) then 1 else 0
  }

  /** One run of a test: its place in the list of tests, the input it started from, and its result. */
  datatype Run = Run(place: nat, start: Snapshot, result: Result)

  function Places(log: seq<Run>): (ps: seq<nat>)
    ensures |ps| == |log| && forall i | 0 <= i < |log| :: ps[i] == log[i].place
  {
    seq(|log|, i requires 0 <= i < |log| => log[i].place)
  }

  function Repeat(place: nat, times: nat): (ps: seq<nat>)
    ensures |ps| == times && forall p | p in ps :: p == place
  {
    seq(times, i => place)
  }

  /** The places run by the loop, in order. */
  function Schedule(sel: Selection, tests: seq<TestInfo>): seq<nat> {
    if tests == [] then [] else
    var n := |tests| - 1;
    Schedule(sel, tests[..n]) + Repeat(n, Due(sel, tests[n].name))
  }

  ghost function NotPassed(): Run -> bool {
    (r: Run) => r.result != TestPass
  }

  ghost function Failures(log: seq<Run>): nat {
    CountIf(log, NotPassed())
  }

  // ----- What makes a log genuine -----

  /** The input from which the run after a log starts: each run starts where the one before it stopped. */
  function Here(flags: Flags, tests: seq<TestInfo>, initial: Snapshot, log: seq<Run>): Snapshot {
    if log == [] then initial else
    var last := log[|log| - 1];
    if last.place < |tests| then Next(flags, tests[last.place], last.start) else last.start
  }

  /** What the test at a place gives when it runs from some input; None when it takes the process down. */
  function ResultAt(flags: Flags, tests: seq<TestInfo>, place: nat, s: Snapshot): Option<Result>
    requires place < |tests|
  {
    RunResult(flags, tests[place], tests[place].body(s).steps)
  }

  /** Entry i records a run that took place, from the input the entries before it left, with that result. */
  ghost predicate TookPlace(flags: Flags, tests: seq<TestInfo>, initial: Snapshot, log: seq<Run>, i: nat)
    requires i < |log|
  {
    && log[i].place < |tests|
    && log[i].start == Here(flags, tests, initial, log[..i])
    && ResultAt(flags, tests, log[i].place, log[i].start) == Some(log[i].result)
  }

  ghost predicate Genuine(flags: Flags, tests: seq<TestInfo>, initial: Snapshot, log: seq<Run>) {
    forall i: nat | i < |log| :: TookPlace(flags, tests, initial, log, i)
  }

  /** The test that is due after the runs in a log takes the process down. */
  ghost predicate NextIsFatal(flags: Flags, tests: seq<TestInfo>, initial: Snapshot, due: seq<nat>, log: seq<Run>) {
    && |log| < |due| && due[|log|] < |tests|
    && ResultAt(flags, tests, due[|log|], Here(flags, tests, initial, log)) == None
  }

  /** The files the runs of a log save. */
  function SavedBy(flags: Flags, tests: seq<TestInfo>, log: seq<Run>): seq<Artefact> {
    if log == [] then [] else
    var run := log[|log| - 1];
    SavedBy(flags, tests, log[..|log| - 1])
    + if run.place < |tests| then Saves(flags, tests[run.place], tests[run.place].body(run.start).steps) else []
  }

  /** Where the loop started: the input globals and the files saved until then. */
  datatype Origin = Origin(input: Snapshot, saved: seq<Artefact>)

  ghost function OriginOf(p: Process): Origin
    reads p, p.input, p.world
  {
    Origin(p.Current(), p.world.saved)
  }

  /** The log is genuine, and the process and the saved files are as its runs leave them. */
  ghost predicate InStep(p: Process, origin: Origin, tests: seq<TestInfo>, log: seq<Run>)
    reads p, p.input, p.world
  {
    && Genuine(p.flags, tests, origin.input, log)
    && p.Current() == Here(p.flags, tests, origin.input, log)
    && p.world.saved == origin.saved + SavedBy(p.flags, tests, log)
  }

  lemma LogGrows(log: seq<Run>, run: Run)
    ensures Failures(log + [run]) == Failures(log) + if run.result != TestPass then 1 else 0
    ensures Places(log + [run]) == Places(log) + Repeat(run.place, 1)
  {
    CountIfNext(log + [run], |log|, NotPassed());
    assert (log + [run])[..|log|] == log;
    assert (log + [run])[..|log| + 1] == log + [run];
  }

  lemma GenuineGrows(flags: Flags, tests: seq<TestInfo>, initial: Snapshot, log: seq<Run>, run: Run)
    requires Genuine(flags, tests, initial, log)
    requires run.place < |tests| && run.start == Here(flags, tests, initial, log)
    requires ResultAt(flags, tests, run.place, run.start) == Some(run.result)
    ensures Genuine(flags, tests, initial, log + [run])
    ensures Here(flags, tests, initial, log + [run]) == Next(flags, tests[run.place], run.start)
    ensures SavedBy(flags, tests, log + [run])
         == SavedBy(flags, tests, log) + Saves(flags, tests[run.place], tests[run.place].body(run.start).steps)
  {
    var grown := log + [run];
    assert grown[..|log|] == log;
    forall i: nat | i < |grown| ensures TookPlace(flags, tests, initial, grown, i) {
      if i < |log| {
        assert TookPlace(flags, tests, initial, log, i);
        assert grown[..i] == log[..i];
      } else {
        assert grown[..i] == log;
      }
    }
  }

  // ----- The loop -----

  /** One run in the loop, appended to the log; false when the process is gone. */
  method RunOnce(p: Process, ghost origin: Origin, tests: seq<TestInfo>, place: nat, log: seq<Run>, failed: nat)
    returns (log': seq<Run>, failed': nat, alive: bool)
    requires p.Valid() && place < |tests| && failed == Failures(log)
    requires InStep(p, origin, tests, log)
    modifies p, p.world
    ensures p.Valid() && p.frames == old(p.frames)
    ensures old(p.world.AllJumpsLive()) ==> p.world.AllJumpsLive()
    ensures failed' == Failures(log') && Genuine(p.flags, tests, origin.input, log')
    ensures alive ==> Places(log') == Places(log) + Repeat(place, 1) && InStep(p, origin, tests, log')
    ensures !alive ==> log' == log && ResultAt(p.flags, tests, place, Here(p.flags, tests, origin.input, log)) == None
  {
    var start := Snapshot(p.input[..], p.inputIndex, p.swarmIndex);
    p.Begin();
    var r := p.ForkAndRunTest(tests[place]);
    if r.None? {
      return log, failed, false;
    }
    var run := Run(place, start, r.value);
    log' := log + [run];
    LogGrows(log, run);
    GenuineGrows(p.flags, tests, origin.input, log, run);
    failed' := if r.value != TestPass then failed + 1 else failed;
    alive := true;
  }

  /** The body of the loop, for the test at place k. */
  method RunOneTest(
    p: Process, ghost origin: Origin, sel: Selection, tests: seq<TestInfo>, k: nat, log: seq<Run>, failed: nat)
    returns (log': seq<Run>, failed': nat, alive: bool)
    requires p.Valid() && k < |tests| && failed == Failures(log)
    requires InStep(p, origin, tests, log)
    modifies p, p.world
    ensures p.Valid() && p.frames == old(p.frames)
    ensures old(p.world.AllJumpsLive()) ==> p.world.AllJumpsLive()
    ensures failed' == Failures(log') && Genuine(p.flags, tests, origin.input, log')
    ensures var due := Places(log) + Repeat(k, Due(sel, tests[k].name));
            if alive then Places(log') == due && InStep(p, origin, tests, log')
            else Places(log') <= due && NextIsFatal(p.flags, tests, origin.input, due, log')
  {
    var test := tests[k];
    RepeatSmall(k);
    log', failed', alive := log, failed, true;
    if sel.boringOnly {
      if IsBoring(test.name) {
        log', failed', alive := RunOnce(p, origin, tests, k, log, failed);
        if !alive {
          return;
        }
      } else {
        return;
      }
    }
    if sel.filter.Some? {
      if !sel.filter.value(test.name) {
        return;
      }
    }
    if !sel.runDisabled {
      if IsDisabled(test.name) {
        return;
      }
    }
    log', failed', alive := RunOnce(p, origin, tests, k, log', failed');
  }

  lemma RepeatSmall(place: nat)
    ensures Repeat(place, 0) == [] && Repeat(place, 1) == [place]
    ensures Repeat(place, 2) == [place, place] == Repeat(place, 1) + Repeat(place, 1)
  {
  }

  /**
   * The loop over the tests. The log lists runs that took place, each from the input the one before
   * it left; the value returned counts those that did not pass. The loop is cut short only when the
   * test that is due next takes the process down.
   */
  method RunTests(p: Process, sel: Selection, tests: seq<TestInfo>) returns (r: Option<nat>, log: seq<Run>)
    requires p.Valid()
    modifies p, p.world
    ensures p.Valid() && p.frames == old(p.frames)
    ensures old(p.world.AllJumpsLive()) ==> p.world.AllJumpsLive()
    ensures Genuine(p.flags, tests, old(p.Current()), log)
    ensures Places(log) <= Schedule(sel, tests)
    ensures r.Some? ==> Places(log) == Schedule(sel, tests) && r.value == Failures(log)
    ensures r.Some? ==> InStep(p, old(OriginOf(p)), tests, log)
    ensures r.None? ==> NextIsFatal(p.flags, tests, old(p.Current()), Schedule(sel, tests), log)
    ensures p.flags.fork ==> r.Some?
  {
    log := [];
    ghost var origin := OriginOf(p);
    var failed, k, alive := 0, 0, true;
    while k < |tests|
      invariant k <= |tests| && p.Valid() && p.frames == old(p.frames)
      invariant old(p.world.AllJumpsLive()) ==> p.world.AllJumpsLive()
      invariant InStep(p, origin, tests, log)
      invariant Places(log) == Schedule(sel, tests[..k]) && failed == Failures(log)
    {
      ScheduleGrows(sel, tests, k);
      log, failed, alive := RunOneTest(p, origin, sel, tests, k, log, failed);
      if !alive {
        return None, log;
      }
      k := k + 1;
    }
    assert tests[..k] == tests;
    return Some(failed), log;
  }

  lemma ScheduleGrows(sel: Selection, tests: seq<TestInfo>, k: nat)
    requires k < |tests|
    ensures Schedule(sel, tests[..k + 1]) == Schedule(sel, tests[..k]) + Repeat(k, Due(sel, tests[k].name))
    ensures Schedule(sel, tests[..k + 1]) <= Schedule(sel, tests)
  {
    assert tests[..k + 1][..k] == tests[..k];
    SchedulePrefix(sel, tests, k + 1);
  }

  lemma {:induction false} SchedulePrefix(sel: Selection, tests: seq<TestInfo>, k: nat)
    requires k <= |tests|
    ensures Schedule(sel, tests[..k]) <= Schedule(sel, tests)
    decreases |tests|
  {
    if k < |tests| {
      var init := tests[..|tests| - 1];
      assert init[..k] == tests[..k];
      SchedulePrefix(sel, init, k);
    } else {
      assert tests[..k] == tests;
    }
  }

  /** DeepState_Run up to and including its main loop. Uninitialised options abandon before any setjmp. */
  method DeepStateRun(p: Process, optionsInitialized: bool, sel: Selection, tests: seq<TestInfo>)
    returns (r: Option<nat>, log: seq<Run>)
    requires p.Valid() && !p.TargetLive() && p.world.AllJumpsLive()
    modifies p, p.world
    ensures p.Valid()
    ensures p.world.AllJumpsLive() <==> optionsInitialized
    ensures !optionsInitialized ==> r == None && log == []
    ensures Genuine(p.flags, tests, old(p.Current()), log)
    ensures r.Some? ==> Places(log) == Schedule(sel, tests) && r.value == Failures(log)
    ensures r.Some? ==> InStep(p, old(OriginOf(p)), tests, log)
    ensures p.flags.fork && optionsInitialized ==> r.Some?
    ensures r.None? && optionsInitialized ==> NextIsFatal(p.flags, tests, old(p.Current()), Schedule(sel, tests), log)
  {
    if !optionsInitialized {
      var c := p.Abandon();
      assert p.world.jumps[|p.world.jumps| - 1] in p.world.jumps;
      return None, [];
    }
    r, log := RunTests(p, sel, tests);
  }

  // ----- What the schedule is -----

  lemma {:induction false} ScheduleOrdered(sel: Selection, tests: seq<TestInfo>)
    ensures forall p | p in Schedule(sel, tests) :: p < |tests|
    ensures forall a, b | 0 <= a < b < |Schedule(sel, tests)| :: Schedule(sel, tests)[a] <= Schedule(sel, tests)[b]
  {
    if tests != [] {
      var n := |tests| - 1;
      var init, due := Schedule(sel, tests[..n]), Due(sel, tests[n].name);
      ScheduleOrdered(sel, tests[..n]);
      Append(init, Repeat(n, due), n);
    }
  }

  lemma Append(init: seq<nat>, last: seq<nat>, n: nat)
    requires forall p | p in init :: p < n
    requires forall p | p in last :: p == n
    requires forall a, b | 0 <= a < b < |init| :: init[a] <= init[b]
    ensures forall p | p in init + last :: p <= n
    ensures forall a, b | 0 <= a < b < |init + last| :: (init + last)[a] <= (init + last)[b]
  {
    forall a, b | 0 <= a < b < |init + last| ensures (init + last)[a] <= (init + last)[b] {
      assert a < |init| ==> (init + last)[a] == init[a] && init[a] in init;
      assert b >= |init| ==> (init + last)[b] == last[b - |init|] && last[b - |init|] in last;
      assert a >= |init| ==> (init + last)[a] == last[a - |init|] && last[a - |init|] in last;
    }
  }

  /** Each test runs exactly as often as it is due, and runs follow the order of the list. */
  lemma {:induction false} ScheduleIsExact(sel: Selection, tests: seq<TestInfo>)
    ensures forall i | 0 <= i < |tests| :: multiset(Schedule(sel, tests))[i] == Due(sel, tests[i].name)
    ensures forall a, b | 0 <= a < b < |Schedule(sel, tests)| :: Schedule(sel, tests)[a] <= Schedule(sel, tests)[b]
  {
    ScheduleOrdered(sel, tests);
    if tests != [] {
      var n := |tests| - 1;
      var init, due := Schedule(sel, tests[..n]), Due(sel, tests[n].name);
      ScheduleIsExact(sel, tests[..n]);
      ScheduleOrdered(sel, tests[..n]);
      RepeatCount(n, due);
      assert multiset(Schedule(sel, tests)) == multiset(init) + multiset(Repeat(n, due));
      assert n !in init;
      forall i | 0 <= i < |tests| ensures multiset(Schedule(sel, tests))[i] == Due(sel, tests[i].name) {
        assert i < n ==> tests[..n][i] == tests[i];
      }
    }
  }

  lemma {:induction false} RepeatCount(place: nat, times: nat)
    ensures forall p :: multiset(Repeat(place, times))[p] == if p == place then times else 0
  {
    if times > 0 {
      RepeatCount(place, times - 1);
      assert Repeat(place, times) == Repeat(place, times - 1) + [place];
    } else {
      assert Repeat(place, times) == [];
    }
  }

  /**
   * Without boring_only a test runs exactly once if the filter, where there is one, matches its name
   * and it is not disabled, or disabled tests run. With it no test without "Boring" or "BORING" in
   * its name runs, and one with it runs once, and once more under that same condition.
   */
  lemma RunsPerTest(sel: Selection, tests: seq<TestInfo>, i: nat)
    requires i < |tests|
    ensures var runs, name := multiset(Schedule(sel, tests))[i], tests[i].name;
            var boring := Text.Contains(name, "Boring") || Text.Contains(name, "BORING");
            var disabled := Text.Contains(name, "Disabled") || Text.Contains(name, "DISABLED");
            var admitted := (sel.filter.None? || sel.filter.value(name)) && (sel.runDisabled || !disabled);
            && (!sel.boringOnly ==> runs == if admitted then 1 else 0)
            && (sel.boringOnly && !boring ==> runs == 0)
            && (sel.boringOnly && boring ==> runs == 1 + if admitted then 1 else 0)
  {
    ScheduleIsExact(sel, tests);
  }

  /** By default a test whose name contains "Disabled" or "DISABLED" does not run. */
  lemma DisabledIsSkipped(sel: Selection, tests: seq<TestInfo>, i: nat)
    requires i < |tests| && !sel.boringOnly && !sel.runDisabled
    requires Text.Contains(tests[i].name, "Disabled") || Text.Contains(tests[i].name, "DISABLED")
    ensures multiset(Schedule(sel, tests))[i] == 0
  {
    RunsPerTest(sel, tests, i);
  }

  /** The value returned counts the runs of the log that did not pass. */
  lemma FailuresAre(log: seq<Run>)
    ensures Failures(log) == |set i | 0 <= i < |log| && log[i].result != TestPass|
  {
    CountIfPlaces(log, NotPassed());
    assert Tally.Places(log, NotPassed()) == set i | 0 <= i < |log| && log[i].result != TestPass;
  }
}
