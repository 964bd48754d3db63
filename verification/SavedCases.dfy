/**
 * The loops of the driver that run saved test cases and report how many failed
 * (inst/include/DeepState.h:530-550, 775-821, 906-1009).
 */
module SavedCases {
  import opened Options
  import opened TestRuns
  import opened Driver
  import opened Tally

  /** A directory entry. */
  datatype Entry = Entry(name: string, regular: bool, file: File)

  // ----- Which files are saved test cases -----

  const EXTENSIONS := [".pass", ".fail", ".crash"]

  /** The text from the first dot on is one of the extensions. */
  predicate IsTestCaseName(name: string) {
    exists k | 0 <= k < |name| :: '.' !in name[..k] && name[k..] in EXTENSIONS
  }

  /** DeepState_IsTestCaseFile: strchr, then strcmp with each extension. */
  method IsTestCaseFile(name: string) returns (b: bool)
    ensures b <==> IsTestCaseName(name)
  {
    var dot := 0;
    while dot < |name| && name[dot] != '.'
      invariant dot <= |name| && '.' !in name[..dot]
    {
      dot := dot + 1;
    }
    FirstDot(name, dot);
    if dot == |name| {
      return false;
    }
    var suffix, i := name[dot..], 0;
    while i < |EXTENSIONS|
      invariant i <= |EXTENSIONS| && suffix !in EXTENSIONS[..i]
    {
      if suffix == EXTENSIONS[i] {
        return true;
      }
      i := i + 1;
    }
    return false;
  }

  lemma FirstDot(name: string, dot: nat)
    requires dot <= |name| && '.' !in name[..dot] && (dot < |name| ==> name[dot] == '.')
    ensures IsTestCaseName(name) <==> dot < |name| && name[dot..] in EXTENSIONS
  {
    if IsTestCaseName(name) {
      var k :| 0 <= k < |name| && '.' !in name[..k] && name[k..] in EXTENSIONS;
      StartsWithDot(name[k..]);
      assert name[k] == name[k..][0];
      if dot < |name| {
        OnlyDot(name, k, dot);
      }
    }
  }

  lemma StartsWithDot(extension: string)
    requires extension in EXTENSIONS
    ensures extension != "" && extension[0] == '.'
  {
  }

  /** An accepted name has exactly one dot, so "a.b.pass" is not accepted although it ends in ".pass". */
  lemma AcceptedNameHasOneDot(name: string, i: nat, j: nat)
    requires IsTestCaseName(name) && i < |name| && j < |name|
    requires name[i] == '.' && name[j] == '.'
    ensures i == j
  {
    var k :| 0 <= k < |name| && '.' !in name[..k] && name[k..] in EXTENSIONS;
    OnlyDot(name, k, i);
    OnlyDot(name, k, j);
  }

  lemma OnlyDot(name: string, k: nat, i: nat)
    requires k < |name| && '.' !in name[..k] && name[k..] in EXTENSIONS
    requires i < |name| && name[i] == '.'
    ensures i == k
  {
    forall m | 0 <= m < k ensures name[m] != '.' {
      assert name[m] == name[..k][m];
    }
    forall m | k < m < |name| ensures name[m] != '.' {
      assert name[m] == name[k..][m - k];
    }
  }

  predicate EndsWith(name: string, suffix: string) {
    |suffix| <= |name| && name[|name| - |suffix|..] == suffix
  }

  ghost predicate AtMostOneDot(name: string) {
    forall i, j | 0 <= i < |name| && 0 <= j < |name| && name[i] == '.' && name[j] == '.' :: i == j
  }

  /** What the comment on the function accepts: the suffixes ".pass" and ".fail". */
  predicate AsCommented(name: string) {
    EndsWith(name, ".pass") || EndsWith(name, ".fail")
  }

  lemma SuffixAtOnlyDot(name: string, suffix: string)
    requires suffix in EXTENSIONS && EndsWith(name, suffix) && AtMostOneDot(name)
    ensures IsTestCaseName(name)
  {
    var k := |name| - |suffix|;
    StartsWithDot(suffix);
    assert name[k] == name[k..][0];
    assert '.' !in name[..k];
  }

  /** The names accepted, by their end: one of the three extensions, and no other dot. */
  lemma AcceptedByEnd(name: string)
    ensures IsTestCaseName(name) <==>
              AtMostOneDot(name) && (EndsWith(name, ".pass") || EndsWith(name, ".fail") || EndsWith(name, ".crash"))
  {
    ThreeEnds(name);
    if IsTestCaseName(name) {
      var k :| 0 <= k < |name| && '.' !in name[..k] && name[k..] in EXTENSIONS;
      assert EndsWith(name, name[k..]);
      forall i, j | 0 <= i < |name| && 0 <= j < |name| && name[i] == '.' && name[j] == '.' ensures i == j {
        AcceptedNameHasOneDot(name, i, j);
      }
    }
    if AtMostOneDot(name) && exists x :: x in EXTENSIONS && EndsWith(name, x) {
      var x :| x in EXTENSIONS && EndsWith(name, x);
      SuffixAtOnlyDot(name, x);
    }
  }

  lemma CrashIsNoOther(name: string)
    requires EndsWith(name, ".crash")
    ensures !AsCommented(name)
  {
    var n := |name|;
    assert name[n - 1] == name[n - 6..][5] == 'h';
    assert n >= 5 && name[n - 1] == name[n - 5..][4];
  }

  lemma ThreeEnds(name: string)
    ensures (exists x :: x in EXTENSIONS && EndsWith(name, x)) <==> AsCommented(name) || EndsWith(name, ".crash")
  {
    assert EXTENSIONS[0] == ".pass" && EXTENSIONS[1] == ".fail" && EXTENSIONS[2] == ".crash";
  }

  /**
   * The code does what its comment says for a name with at most one dot exactly when the name does
   * not end in ".crash", and for any other name exactly when it has neither suffix.
   */
  lemma CodeMeetsComment(name: string)
    ensures (IsTestCaseName(name) <==> AsCommented(name))
       <==> if AtMostOneDot(name) then !EndsWith(name, ".crash") else !AsCommented(name)
  {
    AcceptedByEnd(name);
    if EndsWith(name, ".crash") {
      CrashIsNoOther(name);
    }
  }

  /** "a.b.pass" has the suffix and is not accepted; "x.crash" has neither and is accepted. */
  lemma CommentIsNotMet()
    ensures AsCommented("a.b.pass") && !IsTestCaseName("a.b.pass")
    ensures !AsCommented("x.crash") && IsTestCaseName("x.crash")
  {
    var two := "a.b.pass";
    assert two[1] == '.' && two[3] == '.';
    AcceptedByEnd(two);
    assert two[3..] == ".pass";
    var crash := "x.crash";
    assert crash[..1] == "x" && crash[1..] == ".crash" == EXTENSIONS[2];
    CrashIsNoOther(crash);
  }

  // ----- Reports -----

  ghost function Ran(): Entry -> bool {
    (e: Entry) => IsTestCaseName(e.name)
  }

  /** A case whose result is one of rs. */
  ghost function RanWith(flags: Flags, test: TestInfo, rs: Result -> bool): Entry -> bool {
    (e: Entry) =>
      IsTestCaseName(e.name) && CaseResult(flags, test, e.file).Some? && rs(CaseResult(flags, test, e.file).value)
  }

  /** No case takes the driver's process down. */
  ghost predicate Survives(flags: Flags, test: TestInfo, entries: seq<Entry>) {
    forall e | e in entries && IsTestCaseName(e.name) :: CaseResult(flags, test, e.file).Some?
  }

  /** What DeepState_RunSavedCasesForTest returns; None when the process is gone. */
  ghost function Reported(flags: Flags, test: TestInfo, entries: seq<Entry>): Option<nat> {
    if Survives(flags, test, entries) then Some(CountIf(entries, RanWith(flags, test, r => r != TestPass))) else None
  }

  /** The files saved while the chosen entries run, in order. */
  ghost function SavedFiles(flags: Flags, test: TestInfo, entries: seq<Entry>, chosen: Entry -> bool): seq<Artefact> {
    if entries == [] then [] else
    var e := entries[|entries| - 1];
    SavedFiles(flags, test, entries[..|entries| - 1], chosen)
    + if chosen(e) then CaseSaves(flags, test, e.file) else []
  }

  /** What one more entry adds to the counts and to the files. */
  lemma OneMore(flags: Flags, test: TestInfo, entries: seq<Entry>, k: nat, bad: Entry -> bool)
    requires k < |entries|
    ensures var e, before, after := entries[k], entries[..k], entries[..k + 1];
            && CountIf(after, bad) == CountIf(before, bad) + (if bad(e) then 1 else 0)
            && CountIf(after, Ran()) == CountIf(before, Ran()) + (if IsTestCaseName(e.name) then 1 else 0)
            && SavedFiles(flags, test, after, Ran())
               == SavedFiles(flags, test, before, Ran())
                  + (if IsTestCaseName(e.name) then CaseSaves(flags, test, e.file) else [])
  {
    CountIfNext(entries, k, bad);
    CountIfNext(entries, k, Ran());
    assert entries[..k + 1][..k] == entries[..k];
  }

  lemma OneMoreSurvives(flags: Flags, test: TestInfo, entries: seq<Entry>, k: nat)
    requires k < |entries| && Survives(flags, test, entries[..k])
    ensures var e := entries[k];
            && (Survives(flags, test, entries[..k + 1])
                <==> (IsTestCaseName(e.name) ==> CaseResult(flags, test, e.file).Some?))
            && (Survives(flags, test, entries) ==> Survives(flags, test, entries[..k + 1]))
  {
    assert entries[..k + 1] == entries[..k] + [entries[k]];
    assert entries[k] in entries[..k + 1];
    assert forall e | e in entries[..k + 1] :: e in entries;
  }

  method RunSavedCasesForTest(p: Process, test: TestInfo, dir: Option<seq<Entry>>) returns (r: Option<nat>, ran: nat)
    requires p.Valid()
    modifies p, p.input, p.world
    ensures p.Valid() && p.frames == old(p.frames)
    ensures old(p.world.AllJumpsLive()) ==> p.world.AllJumpsLive()
    ensures dir.None? ==> r == Some(0) && ran == 0
    ensures dir.Some? ==> r == Reported(p.flags, test, dir.value)
    ensures dir.Some? && r.Some? ==> ran == CountIf(dir.value, Ran())
    ensures dir.Some? && r.Some? ==> p.world.saved == old(p.world.saved) + SavedFiles(p.flags, test, dir.value, Ran())
  {
    ran := 0;
    if dir.None? {
      return Some(0), 0;
    }
    var entries, failed, k := dir.value, 0, 0;
    ghost var bad := RanWith(p.flags, test, r => r != TestPass);
    while k < |entries|
      invariant k <= |entries| && p.Valid() && p.frames == old(p.frames)
      invariant old(p.world.AllJumpsLive()) ==> p.world.AllJumpsLive()
      invariant Survives(p.flags, test, entries[..k])
      invariant failed == CountIf(entries[..k], bad)
      invariant ran == CountIf(entries[..k], Ran())
      invariant p.world.saved == old(p.world.saved) + SavedFiles(p.flags, test, entries[..k], Ran())
    {
      var e := entries[k];
      OneMore(p.flags, test, entries, k, bad);
      OneMoreSurvives(p.flags, test, entries, k);
      var accepted := IsTestCaseFile(e.name);
      if accepted {
        ran := ran + 1;
        var result := p.RunSavedTestCase(test, e.file);
        if result.None? {
          return None, ran;
        }
        if result.value != TestPass {
          failed := failed + 1;
        }
      }
      k := k + 1;
    }
    assert entries[..k] == entries;
    return Some(failed), ran;
  }

  ghost predicate Stops(flags: Flags, r: Result) {
    (r.TestFail? || r.TestCrash?) && (flags.abortOnFail || flags.exitOnFail)
  }

  /** What DeepState_RunSingleSavedTestDir returns; None when the process is gone. */
  ghost function DirReported(flags: Flags, test: TestInfo, entries: seq<Entry>): Option<nat> {
    if forall e | e in entries && e.regular ::
         CaseResult(flags, test, e.file).Some? && !Stops(flags, CaseResult(flags, test, e.file).value)
    then Some(CountIf(entries, DirFailed(flags, test))) else None
  }

  ghost function DirFailed(flags: Flags, test: TestInfo): Entry -> bool {
    (e: Entry) => e.regular && CaseResult(flags, test, e.file) in {Some(TestFail), Some(TestCrash)}
  }

  ghost function Regular(): Entry -> bool {
    (e: Entry) => e.regular
  }

  /** What one more entry adds in the directory driver, where its case, if it is one, does not end the process. */
  lemma DirOneMore(flags: Flags, test: TestInfo, entries: seq<Entry>, k: nat)
    requires k < |entries| && DirReported(flags, test, entries[..k]).Some?
    ensures var e, before, after := entries[k], entries[..k], entries[..k + 1];
            && CountIf(after, Regular()) == CountIf(before, Regular()) + (if e.regular then 1 else 0)
            && SavedFiles(flags, test, after, Regular())
               == SavedFiles(flags, test, before, Regular())
                  + (if e.regular then CaseSaves(flags, test, e.file) else [])
            && (e.regular ==>
                  var r := CaseResult(flags, test, e.file);
                  && (r == None || Stops(flags, r.value) ==> DirReported(flags, test, entries) == None)
                  && (r != None && !Stops(flags, r.value) ==>
                        DirReported(flags, test, after)
                        == Some(DirReported(flags, test, before).value
                                + if r == Some(TestFail) || r == Some(TestCrash) then 1 else 0)))
            && (!e.regular ==> DirReported(flags, test, after) == DirReported(flags, test, before))
  {
    CountIfNext(entries, k, Regular());
    CountIfNext(entries, k, DirFailed(flags, test));
    assert entries[..k + 1] == entries[..k] + [entries[k]] && entries[..k + 1][..k] == entries[..k];
    assert entries[k] in entries;
  }

  method RunSingleSavedTestDir(p: Process, test: TestInfo, dir: Option<seq<Entry>>) returns (r: Option<nat>, ran: nat)
    requires p.Valid()
    modifies p, p.input, p.world
    ensures p.Valid() && p.frames == old(p.frames)
    ensures old(p.world.AllJumpsLive()) ==> p.world.AllJumpsLive()
    ensures dir.None? ==> r == Some(0) && ran == 0
    ensures dir.Some? ==> r == DirReported(p.flags, test, dir.value)
    ensures dir.Some? && r.Some? ==> ran == CountIf(dir.value, Regular())
    ensures dir.Some? && r.Some? ==>
              p.world.saved == old(p.world.saved) + SavedFiles(p.flags, test, dir.value, Regular())
  {
    ran := 0;
    if dir.None? {
      return Some(0), 0;
    }
    var entries, failed, k := dir.value, 0, 0;
    while k < |entries|
      invariant k <= |entries| && p.Valid() && p.frames == old(p.frames)
      invariant old(p.world.AllJumpsLive()) ==> p.world.AllJumpsLive()
      invariant DirReported(p.flags, test, entries[..k]) == Some(failed)
      invariant ran == CountIf(entries[..k], Regular())
      invariant p.world.saved == old(p.world.saved) + SavedFiles(p.flags, test, entries[..k], Regular())
    {
      var e := entries[k];
      DirOneMore(p.flags, test, entries, k);
      if e.regular {
        ran := ran + 1;
        var result := p.RunSavedTestCase(test, e.file);
        if result.None? {
          return None, ran;
        }
        if result.value == TestFail || result.value == TestCrash {
          if p.flags.abortOnFail {
            return None, ran;
          }
          if p.flags.exitOnFail {
            return None, ran;
          }
          failed := failed + 1;
        }
      }
      k := k + 1;
    }
    assert entries[..k] == entries;
    return Some(failed), ran;
  }

  /** A test with the saved cases found for it. */
  datatype Suite = Suite(test: TestInfo, dir: Option<seq<Entry>>)

  ghost function SuiteReported(flags: Flags, s: Suite): Option<nat> {
    if s.dir.None? then Some(0) else Reported(flags, s.test, s.dir.value)
  }

  ghost function AllReported(flags: Flags, suites: seq<Suite>): Option<nat> {
    if suites == [] then Some(0)
    else
      var rest, last := AllReported(flags, suites[..|suites| - 1]), SuiteReported(flags, suites[|suites| - 1]);
      if rest.Some? && last.Some? then Some(rest.value + last.value) else None
  }

  /** DeepState_RunSavedTestCases: every jump raised while all saved cases of all tests run is valid. */
  method RunSavedTestCases(p: Process, suites: seq<Suite>) returns (r: Option<nat>)
    requires p.Valid()
    modifies p, p.input, p.world
    ensures p.Valid() && p.frames == old(p.frames)
    ensures old(p.world.AllJumpsLive()) ==> p.world.AllJumpsLive()
    ensures r == AllReported(p.flags, suites)
  {
    var total, k := 0, 0;
    while k < |suites|
      invariant k <= |suites| && p.Valid() && p.frames == old(p.frames)
      invariant old(p.world.AllJumpsLive()) ==> p.world.AllJumpsLive()
      invariant AllReported(p.flags, suites[..k]) == Some(total)
    {
      var failed, ran := RunSavedCasesForTest(p, suites[k].test, suites[k].dir);
      assert suites[..k + 1][..k] == suites[..k];
      if failed.None? {
        OneGone(p.flags, suites, k + 1);
        return None;
      }
      total := total + failed.value;
      k := k + 1;
    }
    assert suites[..k] == suites;
    return Some(total);
  }

  lemma {:induction false} OneGone(flags: Flags, suites: seq<Suite>, k: nat)
    requires k <= |suites| && AllReported(flags, suites[..k]).None?
    ensures AllReported(flags, suites).None?
    decreases |suites|
  {
    if k < |suites| {
      var init := suites[..|suites| - 1];
      assert init[..k] == suites[..k];
      OneGone(flags, init, k);
    } else {
      assert suites[..k] == suites;
    }
  }

  // ----- Properties of the reports -----

  /** The places of the cases run that do not pass. */
  ghost function NotPassing(flags: Flags, test: TestInfo, entries: seq<Entry>): set<int> {
    set i | 0 <= i < |entries| && IsTestCaseName(entries[i].name)
            && CaseResult(flags, test, entries[i].file) != Some(TestPass)
  }

  /** The places of the regular files that fail or crash. */
  ghost function Failing(flags: Flags, test: TestInfo, entries: seq<Entry>): set<int> {
    set i | 0 <= i < |entries| && entries[i].regular
            && (CaseResult(flags, test, entries[i].file) == Some(TestFail)
                || CaseResult(flags, test, entries[i].file) == Some(TestCrash))
  }

  /** The per-test driver reports unless a case takes the process down, and counts the cases that do not pass. */
  lemma ReportedIs(flags: Flags, test: TestInfo, entries: seq<Entry>)
    ensures Reported(flags, test, entries).None? <==>
              exists e :: e in entries && IsTestCaseName(e.name) && CaseResult(flags, test, e.file) == None
    ensures Reported(flags, test, entries).Some? ==>
              Reported(flags, test, entries).value == |NotPassing(flags, test, entries)|
  {
    var bad := RanWith(flags, test, r => r != TestPass);
    CountIfPlaces(entries, bad);
    if Reported(flags, test, entries).Some? {
      forall i | 0 <= i < |entries|
        ensures bad(entries[i])
           <==> IsTestCaseName(entries[i].name) && CaseResult(flags, test, entries[i].file) != Some(TestPass)
      {
        assert entries[i] in entries;
      }
      assert NotPassing(flags, test, entries) == Places(entries, bad);
    }
  }

  /**
   * The directory driver reports unless a regular file takes the process down, or fails or crashes
   * under a flag that ends the process, and counts the regular files that fail or crash.
   */
  lemma DirReportedIs(flags: Flags, test: TestInfo, entries: seq<Entry>)
    ensures DirReported(flags, test, entries).None? <==>
              exists e :: e in entries && e.regular
                && var r := CaseResult(flags, test, e.file);
                   r == None || (r in {Some(TestFail), Some(TestCrash)} && (flags.abortOnFail || flags.exitOnFail))
    ensures DirReported(flags, test, entries).Some? ==>
              DirReported(flags, test, entries).value == |Failing(flags, test, entries)|
  {
    var bad := DirFailed(flags, test);
    CountIfPlaces(entries, bad);
    assert Failing(flags, test, entries) == Places(entries, bad);
  }

  lemma SavedFilesLast(flags: Flags, test: TestInfo, init: seq<Entry>, e: Entry, chosen: Entry -> bool)
    ensures SavedFiles(flags, test, init + [e], chosen)
         == SavedFiles(flags, test, init, chosen) + if chosen(e) then CaseSaves(flags, test, e.file) else []
  {
    assert (init + [e])[..|init|] == init;
  }

  /** The files of a longer list of cases are those of its parts, one after the other. */
  lemma {:induction false} SavedFilesAdd(
    flags: Flags, test: TestInfo, a: seq<Entry>, b: seq<Entry>, chosen: Entry -> bool)
    ensures SavedFiles(flags, test, a + b, chosen)
         == SavedFiles(flags, test, a, chosen) + SavedFiles(flags, test, b, chosen)
  {
    if b == [] {
      assert a + b == a;
    } else {
      var init, e := b[..|b| - 1], b[|b| - 1];
      assert b == init + [e] && a + b == (a + init) + [e];
      SavedFilesAdd(flags, test, a, init, chosen);
      SavedFilesLast(flags, test, a + init, e, chosen);
      SavedFilesLast(flags, test, init, e, chosen);
    }
  }

  /** Totals over all tests add up, whatever way the list of tests is cut. */
  lemma {:induction false} TotalsAdd(flags: Flags, a: seq<Suite>, b: seq<Suite>)
    ensures AllReported(flags, a + b)
         == var x, y := AllReported(flags, a), AllReported(flags, b);
            if x.Some? && y.Some? then Some(x.value + y.value) else None
  {
    if b == [] {
      assert a + b == a;
    } else {
      var n := |b| - 1;
      assert (a + b)[..|a + b| - 1] == a + b[..n] && (a + b)[|a + b| - 1] == b[n];
      TotalsAdd(flags, a, b[..n]);
    }
  }

  /** A test without a directory of cases adds nothing. */
  lemma TotalOfOne(flags: Flags, s: Suite)
    ensures AllReported(flags, []) == Some(0)
    ensures AllReported(flags, [s]) == if s.dir.None? then Some(0) else Reported(flags, s.test, s.dir.value)
  {
    assert [s][..0] == [];
  }

  /** The report does not depend on the order in which the directory lists its entries. */
  lemma OrderIsIrrelevant(flags: Flags, test: TestInfo, a: seq<Entry>, b: seq<Entry>)
    requires multiset(a) == multiset(b)
    ensures Reported(flags, test, a) == Reported(flags, test, b)
    ensures DirReported(flags, test, a) == DirReported(flags, test, b)
  {
    SameMembers(a, b);
    CountIfPermuted(a, b, RanWith(flags, test, r => r != TestPass));
    CountIfPermuted(a, b, DirFailed(flags, test));
  }

  lemma SameMembers<T>(a: seq<T>, b: seq<T>)
    requires multiset(a) == multiset(b)
    ensures forall e :: e in a <==> e in b
  {
    assert forall e :: e in a <==> e in multiset(a);
    assert forall e :: e in b <==> e in multiset(b);
  }

  /** Passes, failures, crashes, abandons and foreign exit codes add up to the number of cases run. */
  lemma {:induction false} CasesAreConserved(flags: Flags, test: TestInfo, entries: seq<Entry>)
    requires Survives(flags, test, entries)
    ensures CountIf(entries, Ran())
         == CountIf(entries, RanWith(flags, test, r => r == TestPass)) + Reported(flags, test, entries).value
    ensures Reported(flags, test, entries).value
         == CountIf(entries, RanWith(flags, test, r => r == TestFail || r == TestCrash))
          + CountIf(entries, RanWith(flags, test, r => r == TestAbandon))
          + CountIf(entries, RanWith(flags, test, (r: Result) => r.TestOther?))
  {
    var bad := RanWith(flags, test, r => r != TestPass);
    var stopped := RanWith(flags, test, (r: Result) => r == TestAbandon || r.TestOther?);
    CountIfAdds(entries, Ran(), RanWith(flags, test, r => r == TestPass), bad);
    CountIfAdds(entries, bad, RanWith(flags, test, r => r == TestFail || r == TestCrash), stopped);
    CountIfAdds(entries, stopped, RanWith(flags, test, r => r == TestAbandon),
                RanWith(flags, test, (r: Result) => r.TestOther?));
  }

  /** A regular file whose result is one of rs. */
  ghost function DirWith(flags: Flags, test: TestInfo, rs: Result -> bool): Entry -> bool {
    (e: Entry) => e.regular && CaseResult(flags, test, e.file).Some? && rs(CaseResult(flags, test, e.file).value)
  }

  /** The same for the directory driver, which counts neither abandons nor foreign exit codes as failed. */
  lemma DirCasesAreConserved(flags: Flags, test: TestInfo, entries: seq<Entry>)
    requires DirReported(flags, test, entries).Some?
    ensures CountIf(entries, Regular())
         == CountIf(entries, DirWith(flags, test, r => r == TestPass)) + DirReported(flags, test, entries).value
          + CountIf(entries, DirWith(flags, test, r => r == TestAbandon))
          + CountIf(entries, DirWith(flags, test, (r: Result) => r.TestOther?))
  {
    var rest := DirWith(flags, test, (r: Result) => r == TestPass || r == TestAbandon || r.TestOther?);
    var stopped := DirWith(flags, test, (r: Result) => r == TestAbandon || r.TestOther?);
    CountIfAdds(entries, Regular(), DirFailed(flags, test), rest);
    CountIfAdds(entries, rest, DirWith(flags, test, r => r == TestPass), stopped);
    CountIfAdds(entries, stopped, DirWith(flags, test, r => r == TestAbandon),
                DirWith(flags, test, (r: Result) => r.TestOther?));
  }

  /** In a forked child the test calls exit with a code that names no result. */
  ghost predicate ExitsForeign(flags: Flags, test: TestInfo, file: File) {
    var buffer := LoadFile(file);
    && flags.fork && buffer.Some?
    && var e := Ending(test.body(Snapshot(buffer.value, 0, 0)).steps);
       e.DoExit? && e.code % 256 > 3
  }

  lemma ForeignResult(flags: Flags, test: TestInfo, file: File)
    ensures ExitsForeign(flags, test, file)
       <==> CaseResult(flags, test, file).Some? && CaseResult(flags, test, file).value.TestOther?
  {
  }

  /**
   * On cases that both drivers run to the end, the per-test driver reports the abandoned cases and
   * those with a foreign exit code more than the directory driver does. The difference is exactly
   * the abandons if and only if no case calls exit with a code above 3 in a forked child.
   */
  lemma ReportsDiffer(flags: Flags, test: TestInfo, entries: seq<Entry>)
    requires forall e | e in entries :: e.regular && IsTestCaseName(e.name)
    requires DirReported(flags, test, entries).Some?
    ensures Reported(flags, test, entries).Some?
    ensures var all, failed := Reported(flags, test, entries).value, DirReported(flags, test, entries).value;
            var abandons := CountIf(entries, RanWith(flags, test, r => r == TestAbandon));
            && all == failed + abandons + CountIf(entries, RanWith(flags, test, (r: Result) => r.TestOther?))
            && (all == failed + abandons <==> forall e | e in entries :: !ExitsForeign(flags, test, e.file))
  {
    var foreign := RanWith(flags, test, (r: Result) => r.TestOther?);
    CasesAreConserved(flags, test, entries);
    CountIfSame(entries, DirFailed(flags, test), RanWith(flags, test, r => r == TestFail || r == TestCrash));
    CountIfZero(entries, foreign);
    forall e | e in entries ensures foreign(e) <==> ExitsForeign(flags, test, e.file) {
      ForeignResult(flags, test, e.file);
    }
  }

  /** Without the early-exit flags the directory driver runs to the end whenever the per-test driver does. */
  lemma DirSurvives(flags: Flags, test: TestInfo, entries: seq<Entry>)
    requires forall e | e in entries && e.regular :: IsTestCaseName(e.name)
    requires Survives(flags, test, entries) && !flags.abortOnFail && !flags.exitOnFail
    ensures DirReported(flags, test, entries).Some?
  {
  }

  /** Under fork, a case whose test calls exit(7) counts as failed in one driver and not in the other. */
  lemma ForeignCodeCounts(flags: Flags)
    requires flags.fork
    ensures var test := TestInfo("", true, (s: Snapshot) => Execution([DoExit(7)], s.index, s.swarm));
            var cases := [Entry("x.pass", true, Readable(0, []))];
            && Reported(flags, test, cases) == Some(1) && DirReported(flags, test, cases) == Some(0)
            && CountIf(cases, RanWith(flags, test, r => r == TestAbandon)) == 0
  {
    var test := TestInfo("", true, (s: Snapshot) => Execution([DoExit(7)], s.index, s.swarm));
    var e := Entry("x.pass", true, Readable(0, []));
    assert CaseResult(flags, test, e.file) == Some(TestOther(7));
    assert e.name[..1] == "x" && e.name[1..] == ".pass" == EXTENSIONS[0];
    assert IsTestCaseName(e.name);
    var cases := [e];
    assert cases[..0] == [];
    assert CountIf(cases, RanWith(flags, test, r => r != TestPass)) == 1;
  }
}
