/** The lines of the text that is written: what goes in per argument comes out again, line by line. */
module HarnessLines {
  import opened Options
  import opened Text
  import opened HarnessText
  import opened HarnessProperties

  ghost function Concat(parts: seq<seq<string>>): seq<string> {
    if parts == [] then [] else Concat(parts[..|parts| - 1]) + parts[|parts| - 1]
  }

  /** The lines of a longer list of parts are those of its parts, one after the other. */
  lemma {:induction false} ConcatParts(a: seq<seq<string>>, b: seq<seq<string>>)
    ensures Concat(a + b) == Concat(a) + Concat(b)
    ensures forall p :: Concat([p]) == p
  {
    if b == [] {
      assert a + b == a;
    } else {
      var n := |b| - 1;
      assert (a + b)[..|a + b| - 1] == a + b[..n] && (a + b)[|a + b| - 1] == b[n];
      ConcatParts(a, b[..n]);
    }
    forall p ensures Concat([p]) == p {
      assert [p][..0] == [];
    }
  }

  lemma {:induction false} ConcatSingle(parts: seq<seq<string>>)
    requires forall p | p in parts :: SingleLines(p)
    ensures SingleLines(Concat(parts))
  {
    if parts != [] {
      assert parts[|parts| - 1] in parts;
      ConcatSingle(parts[..|parts| - 1]);
    }
  }

  lemma Grow(text: string, head: seq<string>, parts: seq<seq<string>>, part: seq<string>)
    requires text == Lined(head + Concat(parts))
    ensures text + Lined(part) == Lined(head + Concat(parts + [part]))
  {
    assert (parts + [part])[..|parts|] == parts;
    Associate(head, Concat(parts), part);
    LinedConcat(head + Concat(parts), part);
  }

  lemma GatheredSplits(text: string, head: seq<string>, parts: seq<seq<string>>, last: string)
    requires text == Lined(head + Concat(parts))
    requires SingleLines(head) && SingleLine(last) && forall p | p in parts :: SingleLines(p)
    ensures Split(text + last, '\n') == head + Concat(parts) + [last]
  {
    ConcatSingle(parts);
    LinedSplits(head + Concat(parts), last);
  }

  function Each(lines: Row --> seq<string>, rows: seq<Row>): (d: seq<seq<string>>)
    requires forall r | r in rows :: lines.requires(r)
    ensures |d| == |rows| && forall i | 0 <= i < |rows| :: d[i] == lines(rows[i])
  {
    seq(|rows|, i requires 0 <= i < |rows| => lines(rows[i]))
  }

  /** Texts that consist of lines consist together of all these lines. */
  lemma {:induction false} GatheredIsLines(
    start: string, head: seq<string>, piece: Row --> string, lines: Row --> seq<string>, rows: seq<Row>)
    requires start == Lined(head)
    requires forall r | r in rows :: piece.requires(r) && lines.requires(r) && piece(r) == Lined(lines(r))
    ensures Gathered(start, piece, rows) == Lined(head + Concat(Each(lines, rows)))
  {
    if rows == [] {
      assert head + [] == head;
    } else {
      var n := |rows| - 1;
      assert rows[n] in rows;
      GatheredIsLines(start, head, piece, lines, rows[..n]);
      Grow(Gathered(start, piece, rows[..n]), head, Each(lines, rows[..n]), lines(rows[n]));
      assert Each(lines, rows) == Each(lines, rows[..n]) + [lines(rows[n])];
    }
  }

  lemma EachSingle(lines: Row --> seq<string>, rows: seq<Row>)
    requires forall r | r in rows :: lines.requires(r) && SingleLines(lines(r))
    ensures forall p | p in Each(lines, rows) :: SingleLines(p)
  {
  }

  // ----- Declarations -----

  const INPUTS_LINE := "#define INPUTS " + "\\"

  /** The lines that declare an argument and draw its value. */
  function DeclarationLines(r: Row): seq<string>
    requires Supported(r)
  {
    var name, draw := Unconst(NameOf(r)), "= RcppDeepState_" + TypeOf(r) + "(); ";
    if Boxed(r) then
      [INDENT + TYPES[TypeOf(r)].rtype.value + " " + name + "(1); " + "\\", INDENT + name + "[0]" + draw + "\\"]
    else
      [INDENT + Unconst(RemoveAll(r.argType, " ")) + " " + name + draw + "\\"]
  }

  lemma SpliceEnds(a: string)
    ensures Lined([a + "\\"]) == a + SPLICE
  {
    OneLine(a + "\\");
  }

  lemma BoxedLines(x: string, y: string, name: string, e: string, d: string)
    ensures x + SPLICE + y + name + e + (d + SPLICE) == Lined([x + "\\", y + name + e + d + "\\"])
  {
    SpliceEnds(x);
    SpliceEnds(y + name + e + d);
    LinedConcat([x + "\\"], [y + name + e + d + "\\"]);
  }

  lemma DeclarationIsLines(r: Row)
    requires Supported(r)
    ensures Declaration(r) == Lined(DeclarationLines(r))
  {
    var name, draw := Unconst(NameOf(r)), "= RcppDeepState_" + TypeOf(r) + "(); ";
    DeclarationText(r);
    if Boxed(r) {
      BoxedLines(INDENT + TYPES[TypeOf(r)].rtype.value + " " + name + "(1); ", INDENT, name, "[0]", draw);
    } else {
      var start := INDENT + Unconst(RemoveAll(r.argType, " ")) + " " + name;
      SpliceEnds(start + draw);
      Associate(start, draw, SPLICE);
    }
  }

  lemma DeclarationLinesSingle(r: Row)
    requires Supported(r) && Named([r])
    ensures SingleLines(DeclarationLines(r))
  {
    var name, type', draw := Unconst(NameOf(r)), Unconst(RemoveAll(r.argType, " ")), TypeOf(r);
    TypesHaveNoNewline(r);
    NameHasNoNewline(r);
    DrawSingle(draw);
    if Boxed(r) {
      BoxTypes(TypeOf(r));
      BoxedSingle(TYPES[TypeOf(r)].rtype.value, name, "= RcppDeepState_" + draw + "(); ");
    } else {
      PlainSingle(type', name, "= RcppDeepState_" + draw + "(); ");
    }
  }

  lemma DrawSingle(t: string)
    requires SingleLine(t)
    ensures SingleLine("= RcppDeepState_" + t + "(); ")
  {
  }

  lemma BoxedSingle(rtype: string, name: string, draw: string)
    requires SingleLine(rtype) && SingleLine(name) && SingleLine(draw)
    ensures SingleLine(INDENT + rtype + " " + name + "(1); " + "\\")
    ensures SingleLine(INDENT + name + "[0]" + draw + "\\")
  {
  }

  lemma PlainSingle(t: string, name: string, draw: string)
    requires SingleLine(t) && SingleLine(name) && SingleLine(draw)
    ensures SingleLine(INDENT + t + " " + name + draw + "\\")
  {
  }

  lemma InputsAreLines(rows: seq<Row>)
    requires AllSupported(rows)
    ensures Inputs(rows) == Lined([INPUTS_LINE] + Concat(Each(DeclarationLines, rows)))
  {
    SpliceEnds("#define INPUTS ");
    forall r | r in rows ensures Declaration(r) == Lined(DeclarationLines(r)) {
      DeclarationIsLines(r);
    }
    GatheredIsLines(INPUTS_HEAD, [INPUTS_LINE], Declaration, DeclarationLines, rows);
  }

  /** Splitting the INPUTS macro at its splices gives back the declarations, in order. */
  lemma InputsSplit(rows: seq<Row>)
    requires rows != [] && AllSupported(rows) && Named(rows)
    ensures Split(StripSplice(Inputs(rows)) + SPLICE, '\n')
         == [INPUTS_LINE] + Concat(Each(DeclarationLines, rows)) + [""]
  {
    InputsStripped(rows);
    InputsAreLines(rows);
    forall r | r in rows ensures SingleLines(DeclarationLines(r)) {
      DeclarationLinesSingle(r);
    }
    EachSingle(DeclarationLines, rows);
    HeadLine();
    GatheredSplits(Inputs(rows), [INPUTS_LINE], Each(DeclarationLines, rows), "");
    assert Inputs(rows) + "" == Inputs(rows);
  }

  lemma HeadLine()
    ensures SingleLine(INPUTS_LINE)
  {
  }

  // ----- Prints -----

  const PRINT_LINES := ["#define PRINT_INPUTS " + "\\", INDENT + "std::cout << \"input starts\" << std::endl;" + "\\"]

  function ShowLine(r: Row): string {
    INDENT + "std::cout << \"" + NameOf(r) + " values: \" << " + NameOf(r) + " << std::endl; " + "\\"
  }

  function Shown(r: Row): seq<string> {
    [ShowLine(r)]
  }

  lemma PrintHead()
    ensures PRINT_HEAD == Lined(PRINT_LINES)
  {
    var start := INDENT + "std::cout << \"input starts\" << std::endl;";
    SpliceEnds("#define PRINT_INPUTS ");
    SpliceEnds(start);
    LinedConcat(["#define PRINT_INPUTS " + "\\"], [start + "\\"]);
  }

  lemma ShowIsLine(r: Row)
    ensures Show(r) == Lined(Shown(r))
  {
    SpliceEnds(INDENT + "std::cout << \"" + NameOf(r) + " values: \" << " + NameOf(r) + " << std::endl; ");
  }

  lemma PrintBodyIsLines(rows: seq<Row>)
    ensures PrintBody(rows) == Lined(PRINT_LINES + Concat(Each(Shown, rows)))
  {
    PrintHead();
    forall r | r in rows ensures Show(r) == Lined(Shown(r)) {
      ShowIsLine(r);
    }
    GatheredIsLines(PRINT_HEAD, PRINT_LINES, Show, Shown, rows);
  }

  /** Splitting the PRINT_INPUTS macro gives one line per argument, in order, between its first and last lines. */
  lemma PrintsSplit(rows: seq<Row>)
    requires Named(rows)
    ensures Split(PrintBody(rows) + PRINT_TAIL, '\n') == PRINT_LINES + Concat(Each(Shown, rows)) + [PRINT_TAIL]
  {
    PrintBodyIsLines(rows);
    forall r | r in rows ensures SingleLines(Shown(r)) {
      ShowLineSingle(r);
    }
    EachSingle(Shown, rows);
    PrintLinesSingle();
    GatheredSplits(PrintBody(rows), PRINT_LINES, Each(Shown, rows), PRINT_TAIL);
  }

  lemma PrintLinesSingle()
    ensures SingleLines(PRINT_LINES) && SingleLine(PRINT_TAIL)
  {
  }

  lemma ShowLineSingle(r: Row)
    requires Named([r])
    ensures SingleLine(ShowLine(r))
  {
    NameHasNoNewline(r);
  }

  // ----- Dumps -----

  /** The lines that save an argument to its own file under the path. */
  function DumpLines(path: string, r: Row): seq<string> {
    var name := NameOf(r);
    if TypeOf(r) == "mat" then
      [INDENT + "std::ofstream " + name + "_stream;", INDENT + name + "_stream.open(\"" + path + "/" + name + "\" );",
       INDENT + name + "_stream << " + name + ";", INDENT + name + "_stream.close(); "]
    else
      [INDENT + "qs::c_qsave(" + name + ",\"" + path + "/" + name + ".qs" + "\",", QSAVE_END]
  }

  function Saver(path: string): Row -> seq<string> {
    (r: Row) => DumpLines(path, r)
  }

  lemma FourLines(a: string, b: string, c: string, d: string)
    ensures Lined([a, b, c, d]) == a + "\n" + b + "\n" + c + "\n" + d + "\n"
  {
    OneLine(a);
    AddLine(a + "\n", [a], b);
    AddLine(a + "\n" + b + "\n", [a] + [b], c);
    AddLine(a + "\n" + b + "\n" + c + "\n", [a] + [b] + [c], d);
    assert [a] + [b] + [c] + [d] == [a, b, c, d];
  }

  lemma TwoLines(a: string, b: string)
    ensures Lined([a, b]) == a + "\n" + b + "\n"
  {
    OneLine(a);
    AddLine(a + "\n", [a], b);
    assert [a] + [b] == [a, b];
  }

  lemma DumpIsLines(path: string, r: Row)
    ensures Dump(path, r) == Lined(DumpLines(path, r))
  {
    var lines := DumpLines(path, r);
    if TypeOf(r) == "mat" {
      FourLines(lines[0], lines[1], lines[2], lines[3]);
    } else {
      TwoLines(lines[0], lines[1]);
    }
  }

  lemma DumpsAreLines(path: string, rows: seq<Row>)
    ensures Dumps(path, rows) == Lined(Concat(Each(Saver(path), rows)))
  {
    forall r: Row ensures Dumper(path)(r) == Lined(Saver(path)(r)) {
      DumpIsLines(path, r);
    }
    GatheredIsLines("", [], Dumper(path), Saver(path), rows);
    assert [] + Concat(Each(Saver(path), rows)) == Concat(Each(Saver(path), rows));
  }

  /** A line that splicing leaves alone. */
  predicate Separate(line: string) {
    SingleLine(line) && !EndsIn(line, '\\')
  }

  lemma SeparateEnd(a: string, b: string)
    requires SingleLine(a) && Separate(b) && b != ""
    ensures Separate(a + b)
  {
  }

  lemma DumpLinesSeparate(path: string, r: Row)
    requires Named([r]) && SingleLine(path)
    ensures forall l | l in DumpLines(path, r) :: Separate(l)
  {
    var name := NameOf(r);
    NameHasNoNewline(r);
    if TypeOf(r) == "mat" {
      SeparateEnd(INDENT + "std::ofstream " + name, "_stream;");
      SeparateEnd(INDENT + name + "_stream.open(\"" + path + "/" + name, "\" );");
      SeparateEnd(INDENT + name + "_stream << " + name, ";");
      SeparateEnd(INDENT + name, "_stream.close(); ");
    } else {
      SeparateEnd(INDENT + "qs::c_qsave(" + name + ",\"" + path + "/" + name + ".qs", "\",");
    }
  }

  lemma {:induction false} EachSeparate(lines: Row -> seq<string>, rows: seq<Row>)
    requires forall r | r in rows :: forall l | l in lines(r) :: Separate(l)
    ensures forall l | l in Concat(Each(lines, rows)) :: Separate(l)
  {
    if rows != [] {
      var n := |rows| - 1;
      EachSeparate(lines, rows[..n]);
      assert Each(lines, rows)[..n] == Each(lines, rows[..n]);
    }
  }

  lemma DumpsSeparate(path: string, rows: seq<Row>)
    requires Named(rows) && SingleLine(path)
    ensures forall l | l in Concat(Each(Saver(path), rows)) :: Separate(l)
  {
    forall r | r in rows ensures forall l | l in Saver(path)(r) :: Separate(l) {
      DumpLinesSeparate(path, r);
    }
    EachSeparate(Saver(path), rows);
  }

  /** Splitting the dumps gives back the lines that save each argument, in order. */
  lemma DumpsSplit(path: string, rows: seq<Row>)
    requires Named(rows) && SingleLine(path)
    ensures Split(Dumps(path, rows), '\n') == Concat(Each(Saver(path), rows)) + [""]
  {
    DumpsAreLines(path, rows);
    DumpsSeparate(path, rows);
    LinedSplits(Concat(Each(Saver(path), rows)), "");
    assert Dumps(path, rows) + "" == Dumps(path, rows);
  }

  // ----- The tests -----

  lemma FirstTest(head: string, inputs: string, prints: string)
    ensures "\n\n" + head + "\n" + inputs + "\n" + prints + "\n" == Lined(["", "", head, inputs, prints])
  {
    TwoLines("", "");
    assert "" + "\n" + "" + "\n" == "\n\n";
    AddLine("\n\n", ["", ""], head);
    AddLine("\n\n" + head + "\n", ["", ""] + [head], inputs);
    AddLine("\n\n" + head + "\n" + inputs + "\n", ["", ""] + [head] + [inputs], prints);
    assert ["", ""] + [head] + [inputs] + [prints] == ["", "", head, inputs, prints];
  }

  lemma AddGap(text: string, lines: seq<string>, line: string)
    requires text == Lined(lines)
    ensures text + line + "\n\n" == Lined(lines + [line, ""])
  {
    TwoLines(line, "");
    LinedConcat(lines, [line, ""]);
    assert line + "\n" + "" + "\n" == line + "\n\n";
  }

  lemma AddThree(text: string, lines: seq<string>, a: string, b: string, c: string)
    requires text == Lined(lines)
    ensures text + a + "\n" + b + "\n" + c + "\n" == Lined(lines + [a, b, c])
  {
    AddLine(text, lines, a);
    AddLine(text + a + "\n", lines + [a], b);
    AddLine(text + a + "\n" + b + "\n", lines + [a] + [b], c);
    assert lines + [a] + [b] + [c] == lines + [a, b, c];
  }

  lemma AddTwo(text: string, lines: seq<string>, a: string, b: string)
    requires text == Lined(lines)
    ensures text + a + "\n" + b + "\n" == Lined(lines + [a, b])
  {
    AddLine(text, lines, a);
    AddLine(text + a + "\n", lines + [a], b);
    assert lines + [a] + [b] == lines + [a, b];
  }

  function Skeleton(
    head: string, inputs: string, prints: string, head': string, dumps: seq<string>, start: string, call: string,
    checks: seq<string>, handler: seq<string>): seq<string>
  {
    ["", "", head, inputs, prints] + ["}", ""] + [head', inputs, prints] + dumps + [start, call] + checks + handler
  }

  lemma SkeletonText(
    head: string, inputs: string, prints: string, head': string, dumps: seq<string>, start: string, call: string,
    checks: seq<string>, x: string, y: string, z: string)
    ensures "\n\n" + head + "\n" + inputs + "\n" + prints + "\n" + "}" + "\n\n" + head' + "\n" + inputs + "\n" + prints
            + "\n" + Lined(dumps) + start + "\n" + call + "\n" + Lined(checks) + x + "\n" + y + "\n" + z + "\n"
         == Lined(Skeleton(head, inputs, prints, head', dumps, start, call, checks, [x, y, z]))
  {
    var l1 := ["", "", head, inputs, prints];
    var t1 := "\n\n" + head + "\n" + inputs + "\n" + prints + "\n";
    FirstTest(head, inputs, prints);
    AddGap(t1, l1, "}");
    var l2, t2 := l1 + ["}", ""], t1 + "}" + "\n\n";
    AddThree(t2, l2, head', inputs, prints);
    var l3, t3 := l2 + [head', inputs, prints], t2 + head' + "\n" + inputs + "\n" + prints + "\n";
    LinedConcat(l3, dumps);
    var l4, t4 := l3 + dumps, t3 + Lined(dumps);
    AddTwo(t4, l4, start, call);
    var l5, t5 := l4 + [start, call], t4 + start + "\n" + call + "\n";
    LinedConcat(l5, checks);
    AddThree(t5 + Lined(checks), l5 + checks, x, y, z);
  }

  /** The lines after the two macros, but for the brace that ends the last of them. */
  ghost function TestLines(
    unitTest: string, functionName: string, sep: Separation, dumps: seq<string>, args: string): seq<string>
  {
    Skeleton(TestHead(unitTest, "generator"), INDENT + "INPUTS", INDENT + "PRINT_INPUTS", TestHead(unitTest, "runner"),
             dumps, INDENT + "try{", CallLine(functionName, args), if sep == Checks then [ASSERTIONS] else [],
             [INDENT + "}catch(Rcpp::exception& e){", HANDLED, INDENT + "}"])
  }

  lemma TestsAreLines(unitTest: string, functionName: string, sep: Separation, h: Creation, dumps: seq<string>)
    requires h.Harness? && h.dump == Lined(dumps)
    ensures Tests(unitTest, functionName, sep, h)
         == Lined(TestLines(unitTest, functionName, sep, dumps, h.args)) + "}"
  {
    var checks := if sep == Checks then [ASSERTIONS] else [];
    OneLine(ASSERTIONS);
    SkeletonText(TestHead(unitTest, "generator"), INDENT + "INPUTS", INDENT + "PRINT_INPUTS",
                 TestHead(unitTest, "runner"), dumps, INDENT + "try{", CallLine(functionName, h.args), checks,
                 INDENT + "}catch(Rcpp::exception& e){", HANDLED, INDENT + "}");
  }

  ghost predicate AllSeparate(lines: seq<string>) {
    forall l | l in lines :: Separate(l)
  }

  lemma SkeletonSeparate(
    head: string, inputs: string, prints: string, head': string, dumps: seq<string>, start: string, call: string,
    checks: seq<string>, handler: seq<string>)
    requires Separate(head) && Separate(inputs) && Separate(prints) && Separate(head') && AllSeparate(dumps)
    requires Separate(start) && Separate(call) && AllSeparate(checks) && AllSeparate(handler)
    ensures AllSeparate(Skeleton(head, inputs, prints, head', dumps, start, call, checks, handler))
  {
  }

  lemma Indented(line: string)
    requires Separate(line) && line != ""
    ensures Separate(INDENT + line) && Separate(INDENT + INDENT + line)
  {
    SeparateEnd(INDENT, line);
    SeparateEnd(INDENT + INDENT, line);
  }

  lemma BodyLinesSeparate()
    ensures Separate(INDENT + "INPUTS") && Separate(INDENT + "PRINT_INPUTS") && Separate(INDENT + "try{")
  {
    Indented("INPUTS");
    Indented("PRINT_INPUTS");
    Indented("try{");
  }

  lemma AssertionsSeparate()
    ensures Separate(ASSERTIONS)
  {
    Indented("//ASSERT CONDITIONS CAN BE ADDED HERE");
  }

  lemma HandledSeparate()
    ensures Separate(HANDLED)
  {
    SeparateEnd(INDENT + INDENT + "std::cout<<\"Exception Handled\"", "<<std::endl;");
  }

  lemma HandlerSeparate()
    ensures AllSeparate([INDENT + "}catch(Rcpp::exception& e){", HANDLED, INDENT + "}"])
  {
    Indented("}catch(Rcpp::exception& e){");
    Indented("}");
    HandledSeparate();
  }

  lemma TestLinesSeparate(
    unitTest: string, functionName: string, sep: Separation, dumps: seq<string>, args: string)
    requires SingleLine(unitTest) && SingleLine(functionName) && SingleLine(args) && AllSeparate(dumps)
    ensures AllSeparate(TestLines(unitTest, functionName, sep, dumps, args))
  {
    BodyLinesSeparate();
    AssertionsSeparate();
    HandlerSeparate();
    SeparateEnd("TEST(" + unitTest + ", " + "generator", "){");
    SeparateEnd("TEST(" + unitTest + ", " + "runner", "){");
    SeparateEnd(INDENT + INDENT + functionName + "(" + args, ");");
    SkeletonSeparate(TestHead(unitTest, "generator"), INDENT + "INPUTS", INDENT + "PRINT_INPUTS",
                     TestHead(unitTest, "runner"), dumps, INDENT + "try{", CallLine(functionName, args),
                     if sep == Checks then [ASSERTIONS] else [],
                     [INDENT + "}catch(Rcpp::exception& e){", HANDLED, INDENT + "}"]);
  }

  lemma PassSingle(r: Row)
    requires Supported(r) && Named([r])
    ensures SingleLine(Pass(r))
  {
    NameHasNoNewline(r);
  }

  lemma {:induction false} GatheredSingle(start: string, piece: Row --> string, rows: seq<Row>)
    requires SingleLine(start) && forall r | r in rows :: piece.requires(r) && SingleLine(piece(r))
    ensures SingleLine(Gathered(start, piece, rows))
  {
    if rows != [] {
      assert rows[|rows| - 1] in rows;
      GatheredSingle(start, piece, rows[..|rows| - 1]);
    }
  }

  lemma ArgsSingle(rows: seq<Row>)
    requires AllSupported(rows) && Named(rows)
    ensures SingleLine(Args(rows)) && SingleLine(StripComma(Args(rows)))
  {
    forall r | r in rows ensures SingleLine(Argument(r)) {
      PassSingle(r);
    }
    GatheredSingle("", Argument, rows);
  }

  /**
   * The logical lines of the file: the two macros, one line each, then the two tests, whose call
   * passes one text per argument, in order.
   */
  lemma FileLines(rows: seq<Row>, path: string, sep: Separation, header: string, prototype: string,
                  unitTest: string, functionName: string)
    requires rows != [] && AllSupported(rows) && Named(rows)
    requires SingleLine(path) && SingleLine(unitTest) && SingleLine(functionName)
    ensures var start, h := FileStart(header, prototype), HarnessOf(rows, path, sep);
            && LogicalLines(FileText(start, h, Tests(unitTest, functionName, sep, h)))
               == LogicalLines(Preamble(start, h.comment))
                  + [Splice(h.inputs), "", Splice(PrintBody(rows) + PRINT_TAIL)]
                  + (TestLines(unitTest, functionName, sep, Concat(Each(Saver(path), rows)), h.args) + ["}"])
            && Split(h.args, ',') == Passed(rows)
  {
    var h, dumps := HarnessOf(rows, path, sep), Concat(Each(Saver(path), rows));
    var lines := TestLines(unitTest, functionName, sep, dumps, h.args);
    CallSplitsIntoArguments(rows);
    DumpsAreLines(path, rows);
    TestsAreLines(unitTest, functionName, sep, h, dumps);
    DumpsSeparate(path, rows);
    ArgsSingle(rows);
    TestLinesSeparate(unitTest, functionName, sep, dumps, h.args);
    LinedLogical(lines, "}");
    FileHasMacroLines(rows, path, sep, header, prototype, Tests(unitTest, functionName, sep, h), h);
  }
}
