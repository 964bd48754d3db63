/**
 * Extraction of the errors that a valgrind log places in the package's own sources (R/xml_log.R).
 * The XML is taken as parsed, and an error's stacks and auxiliary messages are its direct children.
 */
module ValgrindLog {
  import opened Options
  import Text

  /** A stack frame; an absent or empty element is None. */
  datatype Frame = Frame(dir: Option<string>, file: Option<string>, line: Option<string>)

  datatype Child = Stack(frames: seq<Frame>) | AuxWhat(text: string) | OtherChild

  /** An error node; `xwhat` is the text of its extended message, where it has one. */
  datatype Error = Error(kind: string, what: string, xwhat: Option<string>, children: seq<Child>)

  /** A row of the table; the address trace may be NA. */
  datatype Entry = Entry(kind: string, message: string, fileLine: string, address: string, addressTrace: Option<string>)

  type Matcher = Frame -> bool

  const NO_ADDRESS := "No Address found"
  const NO_TRACE := "No Address Trace found"

  // ----- The query, declaratively -----

  function Stacks(cs: seq<Child>): seq<seq<Frame>> {
    if cs == [] then [] else if cs[0].Stack? then [cs[0].frames] + Stacks(cs[1..]) else Stacks(cs[1..])
  }

  ghost predicate FirstAux(cs: seq<Child>, i: nat) {
    i < |cs| && cs[i].AuxWhat? && forall j | 0 <= j < i :: !cs[j].AuxWhat?
  }

  /** The first auxiliary message is directly followed by a stack. */
  ghost predicate AddressHasStack(cs: seq<Child>) {
    exists i: nat :: FirstAux(cs, i) && i + 1 < |cs| && cs[i + 1].Stack?
  }

  /** The stacks that say where the error happened. */
  ghost function ErrorStacks(e: Error): seq<seq<Frame>> {
    var all := Stacks(e.children);
    if AddressHasStack(e.children) && all != [] then all[..|all| - 1] else all
  }

  ghost predicate FirstMatch(s: seq<Frame>, m: Matcher, i: nat) {
    i < |s| && m(s[i]) && forall j | 0 <= j < i :: !m(s[j])
  }

  /** The location in the first matching frame, where that frame has a file and a line. */
  ghost predicate Located(s: seq<Frame>, m: Matcher, location: string) {
    exists i: nat :: FirstMatch(s, m, i) && s[i].file.Some? && s[i].line.Some?
                  && location == s[i].file.value + " : " + s[i].line.value
  }

  /** The row for a stack of an error. */
  ghost predicate Reports(e: Error, s: seq<Frame>, m: Matcher, row: Entry) {
    && Located(s, m, row.fileLine)
    && row.kind == e.kind
    && row.message == (match e.xwhat case Some(text) => text case None => e.what)
    && AddressIs(e.children, row.address)
    && (if AddressHasStack(e.children) && Stacks(e.children) != [] then
          TraceIs(Stacks(e.children)[|Stacks(e.children)| - 1], m, row.addressTrace)
        else row.addressTrace == Some("No Address Trace found"))
  }

  /** The text of the first auxiliary message, or the fixed text where there is none. */
  ghost predicate AddressIs(cs: seq<Child>, address: string) {
    && (forall i: nat | FirstAux(cs, i) :: address == cs[i].text)
    && ((forall c | c in cs :: !c.AuxWhat?) ==> address == "No Address found")
  }

  /** The location of a stack, NA where it has none. */
  ghost predicate TraceIs(s: seq<Frame>, m: Matcher, trace: Option<string>) {
    forall t :: trace == Some(t) <==> Located(s, m, t)
  }

  /** The row of a stack, where it has one. */
  ghost function RowFor(e: Error, m: Matcher, s: seq<Frame>): seq<Entry> {
    if row :| Reports(e, s, m, row) then [row] else []
  }

  function FlatMap<T, U>(s: seq<T>, f: T -> seq<U>): seq<U> {
    if s == [] then [] else FlatMap(s[..|s| - 1], f) + f(s[|s| - 1])
  }

  /** The query: for each error, for each of its error stacks, its row. */
  ghost function Query(errors: seq<Error>, m: Matcher): seq<Entry> {
    FlatMap(errors, (e: Error) => QueryError(e, m))
  }

  ghost function QueryError(e: Error, m: Matcher): seq<Entry> {
    FlatMap(ErrorStacks(e), (s: seq<Frame>) => RowFor(e, m, s))
  }

  // ----- What the code computes -----

  function Message(e: Error): string {
    if e.xwhat.Some? then e.xwhat.value else e.what
  }

  /** stack.trace. */
  function StackTrace(s: seq<Frame>, m: Matcher): Option<string> {
    if s == [] then None
    else if m(s[0]) then
      if s[0].file.Some? && s[0].line.Some? then Some(s[0].file.value + " : " + s[0].line.value) else None
    else StackTrace(s[1..], m)
  }

  /** address.trace: whether the child after the first auxiliary message is a stack. */
  predicate AddressTrace(cs: seq<Child>) {
    cs != [] && if cs[0].AuxWhat? then |cs| > 1 && cs[1].Stack? else AddressTrace(cs[1..])
  }

  /** Text of the first auxiliary message. */
  function AuxText(cs: seq<Child>): Option<string> {
    if cs == [] then None else if cs[0].AuxWhat? then Some(cs[0].text) else AuxText(cs[1..])
  }

  function RowsOf(
    kind: string, message: string, address: string, trace: Option<string>, stacks: seq<seq<Frame>>, m: Matcher)
    : seq<Entry>
  {
    if stacks == [] then []
    else
      var n := |stacks| - 1;
      var at := StackTrace(stacks[n], m);
      RowsOf(kind, message, address, trace, stacks[..n], m)
      + if at.Some? then [Entry(kind, message, at.value, address, trace)] else []
  }

  /** address, as the loop body sets it. */
  function AddressText(e: Error): string {
    var aux := AuxText(e.children);
    if aux.Some? then aux.value else NO_ADDRESS
  }

  /** add.ret, as the loop body sets it. */
  function TraceText(e: Error, m: Matcher): Option<string> {
    var stacks := Stacks(e.children);
    if AddressTrace(e.children) && stacks != [] then StackTrace(stacks[|stacks| - 1], m) else Some(NO_TRACE)
  }

  /** stack.nodes, as the loop body leaves it. */
  function RemainingStacks(e: Error): seq<seq<Frame>> {
    var stacks := Stacks(e.children);
    if AddressTrace(e.children) && stacks != [] then stacks[..|stacks| - 1] else stacks
  }

  function ErrorRows(e: Error, m: Matcher): seq<Entry> {
    RowsOf(e.kind, Message(e), AddressText(e), TraceText(e, m), RemainingStacks(e), m)
  }

  function AllRows(errors: seq<Error>, m: Matcher): seq<Entry> {
    FlatMap(errors, RowsWith(m))
  }

  function RowsWith(m: Matcher): Error -> seq<Entry> {
    e => ErrorRows(e, m)
  }

  /** unique: each row at its first occurrence. */
  function Unique(rows: seq<Entry>): seq<Entry> {
    if rows == [] then []
    else
      var n := |rows| - 1;
      if rows[n] in rows[..n] then Unique(rows[..n]) else Unique(rows[..n]) + [rows[n]]
  }

  /** The XPath chosen from what the log mentions: the source directory, or a file under src/. */
  function SourceMatcher(srcDir: string, mentionsDir: bool): Matcher {
    if mentionsDir then (f: Frame) => f.dir == Some(srcDir)
    else (f: Frame) => f.file.Some? && Text.Contains(f.file.value, "src/")
  }

  /** The body of the loop over errors. */
  method AppendRows(e: Error, m: Matcher, rows: seq<Entry>) returns (rows': seq<Entry>)
    ensures rows' == rows + ErrorRows(e, m)
  {
    var stackNodes, trace, address := Stacks(e.children), Some(NO_TRACE), NO_ADDRESS;
    var aux := AuxText(e.children);
    TraceHasStack(e.children);
    if aux.Some? {
      address := aux.value;
      if AddressTrace(e.children) {
        trace := StackTrace(stackNodes[|stackNodes| - 1], m);
        stackNodes := stackNodes[..|stackNodes| - 1];
      }
    }
    rows' := rows;
    var i := 0;
    while i < |stackNodes|
      invariant i <= |stackNodes|
      invariant rows' == rows + RowsOf(e.kind, Message(e), address, trace, stackNodes[..i], m)
    {
      assert stackNodes[..i + 1][..i] == stackNodes[..i];
      var at := StackTrace(stackNodes[i], m);
      if at.Some? {
        rows' := rows' + [Entry(e.kind, Message(e), at.value, address, trace)];
      }
      i := i + 1;
    }
    assert stackNodes[..i] == stackNodes;
    assert address == AddressText(e) && trace == TraceText(e, m) && stackNodes == RemainingStacks(e);
  }

  /** deepstate_read_valgrind_xml. */
  method ReadValgrindXml(errors: seq<Error>, srcDir: string, mentionsDir: bool, mentionsSrcFile: bool)
    returns (table: seq<Entry>)
    ensures table ==
            if mentionsDir || mentionsSrcFile then Unique(Query(errors, SourceMatcher(srcDir, mentionsDir))) else []
  {
    if !mentionsDir && !mentionsSrcFile {
      return [];
    }
    var m := SourceMatcher(srcDir, mentionsDir);
    var rows: seq<Entry> := [];
    var k := 0;
    while k < |errors|
      invariant k <= |errors| && rows == AllRows(errors[..k], m)
    {
      assert errors[..k + 1][..k] == errors[..k];
      rows := AppendRows(errors[k], m, rows);
      k := k + 1;
    }
    assert errors[..k] == errors;
    LoopAnswersQuery(errors, m);
    return Unique(rows);
  }

  // ----- The parts of the query -----

  /** The stacks of a longer list are those of its parts, one after the other. */
  lemma {:induction false} StacksConcat(a: seq<Child>, b: seq<Child>)
    ensures Stacks(a + b) == Stacks(a) + Stacks(b)
    ensures forall frames :: Stacks([Stack(frames)]) == [frames]
    ensures forall c: Child | !c.Stack? :: Stacks([c]) == []
  {
    if a == [] {
      assert a + b == b;
    } else {
      assert (a + b)[1..] == a[1..] + b;
      StacksConcat(a[1..], b);
    }
  }

  /** The four characters at a place are "src/". */
  predicate SrcAt(name: string, i: nat) {
    i + 4 <= |name| && name[i..i + 4] == "src/"
  }

  /** The frames that count: in the source directory, or, where the log does not mention it, in a file under src/. */
  lemma MatcherIs(srcDir: string, mentionsDir: bool, f: Frame)
    ensures mentionsDir ==> (SourceMatcher(srcDir, mentionsDir)(f) <==> f.dir == Some(srcDir))
    ensures !mentionsDir ==>
              (SourceMatcher(srcDir, mentionsDir)(f)
               <==> f.file.Some? && exists i: nat :: SrcAt(f.file.value, i))
  {
    if !mentionsDir && f.file.Some? {
      var name := f.file.value;
      forall i: nat ensures SrcAt(name, i) <==> Text.OccursAt(name, "src/", i) {
      }
      if i: nat :| SrcAt(name, i) {
        assert Text.OccursAt(name, "src/", i);
      }
    }
  }

  /** Document order: the rows of a longer list are those of its parts, one after the other. */
  lemma {:induction false} FlatMapConcat<T, U>(a: seq<T>, b: seq<T>, f: T -> seq<U>)
    ensures FlatMap(a + b, f) == FlatMap(a, f) + FlatMap(b, f)
  {
    if b == [] {
      assert a + b == a;
    } else {
      var n := |b| - 1;
      assert (a + b)[..|a + b| - 1] == a + b[..n];
      FlatMapConcat(a, b[..n], f);
    }
  }

  lemma {:induction false} FlatMapMembers<T, U>(s: seq<T>, f: T -> seq<U>, u: U)
    ensures u in FlatMap(s, f) <==> exists t :: t in s && u in f(t)
  {
    if s != [] {
      var n := |s| - 1;
      FlatMapMembers(s[..n], f, u);
      assert s == s[..n] + [s[n]];
    }
  }

  /** The rows of the query are those that some error stack of some error reports. */
  lemma QueryRows(errors: seq<Error>, m: Matcher, row: Entry)
    ensures row in Query(errors, m) <==>
            exists e, s :: e in errors && s in ErrorStacks(e) && Reports(e, s, m, row)
  {
    FlatMapMembers(errors, (e: Error) => QueryError(e, m), row);
    forall e ensures row in QueryError(e, m) <==> exists s :: s in ErrorStacks(e) && Reports(e, s, m, row) {
      FlatMapMembers(ErrorStacks(e), (s: seq<Frame>) => RowFor(e, m, s), row);
      forall s ensures row in RowFor(e, m, s) <==> Reports(e, s, m, row) {
        RowForIs(e, m, s);
        ReportsExactly(e, m, s, row);
      }
    }
  }

  /** Two logs one after the other give the rows of the first and then those of the second. */
  lemma QueryConcat(a: seq<Error>, b: seq<Error>, m: Matcher)
    ensures Query(a + b, m) == Query(a, m) + Query(b, m)
    ensures forall e: Error :: QueryError(e, m) == FlatMap(ErrorStacks(e), (s: seq<Frame>) => RowFor(e, m, s))
  {
    FlatMapConcat(a, b, (e: Error) => QueryError(e, m));
  }

  // ----- The code answers the query -----

  lemma {:induction false} TraceHasStack(cs: seq<Child>)
    ensures AddressTrace(cs) ==> Stacks(cs) != [] && AuxText(cs).Some?
  {
    if AddressTrace(cs) {
      if !cs[0].AuxWhat? {
        TraceHasStack(cs[1..]);
      } else {
        assert cs[1..][0].Stack?;
      }
    }
  }

  lemma {:induction false} TraceIsLocation(s: seq<Frame>, m: Matcher, location: string)
    ensures StackTrace(s, m) == Some(location) <==> Located(s, m, location)
  {
    if s != [] {
      if m(s[0]) {
        assert FirstMatch(s, m, 0);
      } else {
        TraceIsLocation(s[1..], m, location);
        forall i: nat ensures FirstMatch(s, m, i + 1) <==> FirstMatch(s[1..], m, i) {
          MatchShift(s, m, i);
        }
        if Located(s, m, location) {
          var i: nat :| FirstMatch(s, m, i) && s[i].file.Some? && s[i].line.Some?
                     && location == s[i].file.value + " : " + s[i].line.value;
          assert FirstMatch(s[1..], m, i - 1);
        }
      }
    }
  }

  lemma MatchShift(s: seq<Frame>, m: Matcher, i: nat)
    requires s != [] && !m(s[0])
    ensures FirstMatch(s, m, i + 1) <==> FirstMatch(s[1..], m, i)
  {
    assert forall j | 0 <= j < |s[1..]| :: s[1..][j] == s[j + 1];
    if FirstMatch(s[1..], m, i) {
      assert forall j | 0 < j < i + 1 :: s[j] == s[1..][j - 1];
    }
  }

  lemma {:induction false} AuxIsFirst(cs: seq<Child>)
    ensures AddressTrace(cs) <==> AddressHasStack(cs)
    ensures forall i: nat | FirstAux(cs, i) :: AuxText(cs) == Some(cs[i].text)
    ensures AuxText(cs).Some? ==> exists i: nat :: FirstAux(cs, i)
    ensures AuxText(cs) == None <==> forall c | c in cs :: !c.AuxWhat?
  {
    if cs != [] {
      if cs[0].AuxWhat? {
        assert FirstAux(cs, 0);
      } else {
        AuxIsFirst(cs[1..]);
        forall i: nat ensures FirstAux(cs, i + 1) <==> FirstAux(cs[1..], i) {
          AuxShift(cs, i);
        }
        assert cs == [cs[0]] + cs[1..];
        forall i: nat | FirstAux(cs, i) ensures AuxText(cs) == Some(cs[i].text) {
          assert FirstAux(cs[1..], i - 1);
        }
        if i: nat :| FirstAux(cs[1..], i) {
          assert FirstAux(cs, i + 1);
        }
        if AddressHasStack(cs) {
          var i: nat :| FirstAux(cs, i) && i + 1 < |cs| && cs[i + 1].Stack?;
          assert FirstAux(cs[1..], i - 1) && cs[1..][i].Stack?;
        }
      }
    }
  }

  lemma AuxShift(cs: seq<Child>, i: nat)
    requires cs != [] && !cs[0].AuxWhat?
    ensures FirstAux(cs, i + 1) <==> FirstAux(cs[1..], i)
  {
    assert forall j | 0 <= j < |cs[1..]| :: cs[1..][j] == cs[j + 1];
    if FirstAux(cs[1..], i) {
      assert forall j | 0 < j < i + 1 :: cs[j] == cs[1..][j - 1];
    }
  }

  lemma SameOption<T(!new)>(a: Option<T>, b: Option<T>)
    ensures (forall t :: a == Some(t) <==> b == Some(t)) <==> a == b
  {
    if a.Some? && (forall t :: a == Some(t) <==> b == Some(t)) {
      assert a == Some(a.value);
    }
    if b.Some? && (forall t :: a == Some(t) <==> b == Some(t)) {
      assert b == Some(b.value);
    }
  }

  lemma AddressOf(cs: seq<Child>, address: string)
    ensures address == (if AuxText(cs).Some? then AuxText(cs).value else NO_ADDRESS) <==>
            AddressIs(cs, address)
  {
    AuxIsFirst(cs);
  }

  lemma TraceOf(s: seq<Frame>, m: Matcher, trace: Option<string>)
    ensures trace == StackTrace(s, m) <==> TraceIs(s, m, trace)
  {
    forall t ensures StackTrace(s, m) == Some(t) <==> Located(s, m, t) {
      TraceIsLocation(s, m, t);
    }
    SameOption(trace, StackTrace(s, m));
  }

  /** A row is reported exactly when the code would append it. */
  lemma ReportsExactly(e: Error, m: Matcher, s: seq<Frame>, row: Entry)
    ensures Reports(e, s, m, row) <==>
            StackTrace(s, m).Some?
            && row == Entry(e.kind, Message(e), StackTrace(s, m).value, AddressText(e), TraceText(e, m))
  {
    AuxIsFirst(e.children);
    AddressOf(e.children, row.address);
    TraceIsLocation(s, m, row.fileLine);
    var stacks := Stacks(e.children);
    if AddressTrace(e.children) && stacks != [] {
      TraceOf(stacks[|stacks| - 1], m, row.addressTrace);
    }
  }

  lemma RowForIs(e: Error, m: Matcher, s: seq<Frame>)
    ensures RowFor(e, m, s) ==
            var at := StackTrace(s, m);
            if at.Some? then [Entry(e.kind, Message(e), at.value, AddressText(e), TraceText(e, m))] else []
  {
    forall row ensures Reports(e, s, m, row) <==>
        StackTrace(s, m).Some?
        && row == Entry(e.kind, Message(e), StackTrace(s, m).value, AddressText(e), TraceText(e, m))
    {
      ReportsExactly(e, m, s, row);
    }
    if StackTrace(s, m).Some? {
      assert Reports(e, s, m, Entry(e.kind, Message(e), StackTrace(s, m).value, AddressText(e), TraceText(e, m)));
    }
  }

  lemma {:induction false} StackRows(e: Error, m: Matcher, stacks: seq<seq<Frame>>)
    ensures RowsOf(e.kind, Message(e), AddressText(e), TraceText(e, m), stacks, m)
         == FlatMap(stacks, (s: seq<Frame>) => RowFor(e, m, s))
  {
    if stacks != [] {
      StackRows(e, m, stacks[..|stacks| - 1]);
      RowForIs(e, m, stacks[|stacks| - 1]);
    }
  }

  lemma {:induction false} FlatMapSame<T, U>(s: seq<T>, f: T -> seq<U>, g: T -> seq<U>)
    requires forall t :: f(t) == g(t)
    ensures FlatMap(s, f) == FlatMap(s, g)
  {
    if s != [] {
      FlatMapSame(s[..|s| - 1], f, g);
    }
  }

  /**
   * The nested loop answers the query: in document order, one row for each error stack whose first
   * matching frame has a file and a line. The last stack is left out exactly when the first
   * auxiliary message is followed by a stack.
   */
  lemma LoopAnswersQuery(errors: seq<Error>, m: Matcher)
    ensures AllRows(errors, m) == Query(errors, m)
  {
    var q := (e: Error) => QueryError(e, m);
    forall e ensures RowsWith(m)(e) == q(e) {
      AuxIsFirst(e.children);
      StackRows(e, m, RemainingStacks(e));
    }
    FlatMapSame(errors, RowsWith(m), q);
  }

  // ----- De-duplication -----

  /** i is the first position of its row. */
  ghost predicate FirstAt(rows: seq<Entry>, i: nat) {
    i < |rows| && rows[i] !in rows[..i]
  }

  /** Unique keeps exactly the first occurrences: `from` lists their positions, in order. */
  lemma {:induction false} UniqueKeepsFirstOccurrences(rows: seq<Entry>) returns (from: seq<nat>)
    ensures |from| == |Unique(rows)|
    ensures forall k | 0 <= k < |from| :: FirstAt(rows, from[k]) && Unique(rows)[k] == rows[from[k]]
    ensures forall j, k | 0 <= j < k < |from| :: from[j] < from[k]
    ensures forall i: nat | FirstAt(rows, i) :: i in from
  {
    if rows == [] {
      from := [];
    } else {
      var n := |rows| - 1;
      var init := rows[..n];
      var before := UniqueKeepsFirstOccurrences(init);
      forall i: nat | i < n ensures FirstAt(rows, i) <==> FirstAt(init, i) {
        FirstAtPrefix(rows, i, n);
      }
      if rows[n] in init {
        from := before;
      } else {
        from := before + [n];
        assert n in from;
      }
    }
  }

  lemma FirstAtPrefix(rows: seq<Entry>, i: nat, n: nat)
    requires i < n <= |rows|
    ensures FirstAt(rows, i) <==> FirstAt(rows[..n], i)
  {
    assert rows[..i] == rows[..n][..i];
  }

  /** Every row of the table occurs once, and no row is lost. */
  lemma {:induction false} UniqueMembers(rows: seq<Entry>)
    ensures forall r :: r in Unique(rows) <==> r in rows
    ensures forall j, k | 0 <= j < k < |Unique(rows)| :: Unique(rows)[j] != Unique(rows)[k]
  {
    if rows != [] {
      var n := |rows| - 1;
      UniqueMembers(rows[..n]);
      assert rows == rows[..n] + [rows[n]];
    }
  }
}
