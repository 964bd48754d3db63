/**
 * The file as a C++ compiler reads it, line by line after splicing: what each argument contributes,
 * by its type, spelled out without the functions and tables that the generator uses.
 */
module HarnessSource {
  import opened Options
  import opened Text
  import opened HarnessText
  import opened HarnessProperties
  import opened HarnessLines

  // ----- Types -----

  /** The vector type that a value of a scalar type is drawn into, if any. */
  function StandIn(t: string): string {
    if t == "int" then "IntegerVector"
    else if t == "double" || t == "float" then "NumericVector"
    else if t == "string" || t == "char" then "CharacterVector"
    else ""
  }

  /** The arguments of the ranged generator of a type, if any. */
  function Range(t: string): string {
    if t == "int" || t == "double" || t == "float" then "(low,high)"
    else if t == "NumericVector" || t == "IntegerVector" then "(size,low,high)"
    else if t == "NumericMatrix" || t == "IntegerMatrix" then "(row,column,low,high)"
    else ""
  }

  /** The supported types. */
  lemma SupportedTypes(t: string)
    ensures t in TYPES <==>
              t == "int" || t == "double" || t == "float" || t == "string" || t == "char" || t == "mat"
              || t == "NumericVector" || t == "IntegerVector" || t == "CharacterVector"
              || t == "NumericMatrix" || t == "IntegerMatrix"
  {
  }

  lemma CollectedLast(f: Row -> seq<string>, init: seq<Row>, r: Row)
    ensures Collected(f, init + [r]) == Collected(f, init) + f(r)
  {
    assert (init + [r])[..|init|] == init;
  }

  lemma {:induction false} CollectedConcat(f: Row -> seq<string>, a: seq<Row>, b: seq<Row>)
    ensures Collected(f, a + b) == Collected(f, a) + Collected(f, b)
  {
    if b == [] {
      assert a + b == a;
    } else {
      var init, r := b[..|b| - 1], b[|b| - 1];
      assert b == init + [r] && a + b == (a + init) + [r];
      CollectedConcat(f, a, init);
      CollectedLast(f, a + init, r);
      CollectedLast(f, init, r);
    }
  }

  /** The types reported as unsupported are those of the arguments that are, in order. */
  lemma UnsupportedInOrder(a: seq<Row>, b: seq<Row>, r: Row)
    ensures UnsupportedOf(a + b) == UnsupportedOf(a) + UnsupportedOf(b)
    ensures UnsupportedOf([r]) == if TypeOf(r) in TYPES then [] else [TypeOf(r)]
  {
    CollectedConcat(Complaint, a, b);
    CollectedLast(Complaint, [], r);
    assert [] + [r] == [r];
  }

  lemma TableIs(t: string)
    requires t in TYPES
    ensures TYPES[t].rtype == if StandIn(t) == "" then None else Some(StandIn(t))
    ensures TYPES[t].args == if Range(t) == "" then None else Some(Range(t))
  {
    SupportedTypes(t);
  }

  lemma MatchIsRemoved(pat: string, rest: string)
    requires pat != ""
    ensures RemoveAll(pat + rest, pat) == RemoveAll(rest, pat)
  {
    assert (pat + rest)[..|pat|] == pat && (pat + rest)[|pat|..] == rest;
  }

  /** The four removals that follow that of the spaces. */
  function Clean(t: string): string {
    RemoveAll(RemoveAll(RemoveAll(Unconst(t), "Rcpp::"), "arma::"), "std::")
  }

  lemma CleanIs(r: Row)
    ensures TypeOf(r) == Clean(RemoveAll(r.argType, " "))
  {
  }

  lemma TypesArePlain(t: string)
    requires t in TYPES
    ensures ':' !in t && ' ' !in t
  {
    SupportedTypes(t);
    if t == "int" {
    } else if t == "double" {
    } else if t == "float" {
    } else if t == "string" {
    } else if t == "char" {
    } else if t == "mat" {
    } else if t == "NumericVector" {
    } else if t == "IntegerVector" {
    } else if t == "CharacterVector" {
    } else if t == "NumericMatrix" {
    } else {
      assert t == "IntegerMatrix";
    }
  }

  lemma NamespacesGo(t: string)
    requires ':' !in t
    ensures RemoveAll(t, "Rcpp::") == t && RemoveAll(t, "arma::") == t && RemoveAll(t, "std::") == t
  {
    LacksCharacter(t, "Rcpp::", 4);
    LacksCharacter(t, "arma::", 4);
    LacksCharacter(t, "std::", 3);
  }

  lemma LacksConst(t: string)
    requires 's' !in t || 'c' !in t
    ensures Unconst(t) == t
  {
    if 's' !in t { LacksCharacter(t, CONST, 3); } else { LacksCharacter(t, CONST, 0); }
  }

  lemma BareIsClean(t: string)
    requires t in TYPES
    ensures Clean(t) == t
  {
    TypesArePlain(t);
    NamespacesGo(t);
    if t != "string" { LacksS(t); }
    LacksConst(t);
  }

  lemma RcppIsClean(t: string)
    requires t in TYPES && t != "string"
    ensures Clean("Rcpp::" + t) == t
  {
    TypesArePlain(t);
    NamespacesGo(t);
    LacksS(t);
    LacksConst("Rcpp::" + t);
    MatchIsRemoved("Rcpp::", t);
  }

  lemma StdIsClean(t: string)
    requires 'c' !in t && 'R' !in t && 'a' !in t && ':' !in t
    ensures Clean("std::" + t) == t
  {
    LacksConst("std::" + t);
    LacksCharacter("std::" + t, "Rcpp::", 0);
    LacksCharacter("std::" + t, "arma::", 0);
    MatchIsRemoved("std::", t);
    LacksCharacter(t, "std::", 3);
  }

  lemma StringIsClean()
    ensures Clean("std::" + "string") == "string"
  {
    StdIsClean("string");
  }

  lemma MatIsClean()
    ensures Clean("arma::" + "mat") == "mat"
  {
    var t := "mat";
    LacksConst("arma::" + t);
    LacksCharacter("arma::" + t, "Rcpp::", 0);
    MatchIsRemoved("arma::", t);
    NamespacesGo(t);
  }

  /** A type of C++, Rcpp, Armadillo or the standard library as it is written in a signature, const apart. */
  ghost predicate Written(u: string, t: string) {
    && t in TYPES
    && (u == t || (t != "string" && u == "Rcpp::" + t) || (t == "string" && u == "std::" + t)
        || (t == "mat" && u == "arma::" + t))
  }

  lemma WrittenIsClean(u: string, t: string)
    requires Written(u, t)
    ensures Clean(u) == t && ' ' !in u
  {
    TypesArePlain(t);
    BareIsClean(t);
    if t == "string" {
      StringIsClean();
    } else {
      RcppIsClean(t);
      if t == "mat" { MatIsClean(); }
    }
  }

  lemma ConstGoes(u: string)
    requires ' ' !in u
    ensures RemoveAll(u, " ") == u && RemoveAll("const " + u, " ") == CONST + u
    ensures Clean(CONST + u) == Clean(u)
  {
    LacksCharacter(u, " ", 0);
    LacksCharacter(CONST, " ", 0);
    CutAfter(CONST, " " + u, " ");
    MatchIsRemoved(" ", u);
    assert "const " + u == CONST + (" " + u);
    MatchIsRemoved(CONST, u);
  }

  /** std::string, arma::mat and the Rcpp types are supported, const or not, under their bare names. */
  lemma WrittenTypes(u: string, t: string, name: string)
    requires Written(u, t)
    ensures TypeOf(Row(u, name)) == t && TypeOf(Row("const " + u, name)) == t
    ensures Supported(Row(u, name)) && Supported(Row("const " + u, name))
  {
    WrittenIsClean(u, t);
    ConstGoes(u);
    CleanIs(Row(u, name));
    CleanIs(Row("const " + u, name));
  }

  // ----- What an argument contributes -----

  /** The statements that declare an argument and draw its value. */
  function Statements(r: Row): seq<string> {
    var t, name := TypeOf(r), Unconst(NameOf(r));
    var draw := "= RcppDeepState_" + t + "(); ";
    if StandIn(t) != "" then
      ["  " + StandIn(t) + " " + name + "(1); ", "  " + name + "[0]" + draw]
    else
      ["  " + Unconst(RemoveAll(r.argType, " ")) + " " + name + draw]
  }

  /** The statement that prints it. */
  function Printed(r: Row): seq<string> {
    ["  " + "std::cout << \"" + NameOf(r) + " values: \" << " + NameOf(r) + " << std::endl; "]
  }

  /** How the call receives it. */
  function Received(r: Row): string {
    if TypeOf(r) == "string" then "Rcpp::as<std::string>(" + NameOf(r) + "[0])"
    else if StandIn(TypeOf(r)) != "" then NameOf(r) + "[0]"
    else NameOf(r)
  }

  /** The comment that names its ranged generator. */
  function Noted(r: Row): seq<string> {
    if Range(TypeOf(r)) == "" then [] else ["// RcppDeepState_" + TypeOf(r) + Range(TypeOf(r))]
  }

  lemma DeclarationIsStatements(r: Row)
    requires Supported(r)
    ensures DeclarationLines(r) == Continued(Statements(r))
  {
    TableIs(TypeOf(r));
    var contents := Statements(r);
    if |contents| == 2 {
      TwoContinued(contents[0], contents[1]);
    } else {
      OneContinued(contents[0]);
    }
  }

  lemma OneContinued(x: string)
    ensures Continued([x]) == [x + "\\"]
  {
  }

  lemma TwoContinued(x: string, y: string)
    ensures Continued([x, y]) == [x + "\\", y + "\\"]
  {
  }

  lemma ShownIsPrinted(r: Row)
    ensures Shown(r) == Continued(Printed(r))
  {
    OneContinued(Printed(r)[0]);
  }

  lemma PassIsReceived(r: Row)
    requires Supported(r)
    ensures Pass(r) == Received(r)
  {
    TableIs(TypeOf(r));
  }

  lemma CommentIsNoted(r: Row)
    requires Supported(r)
    ensures Comment(r) == Lined(Noted(r))
  {
    TableIs(TypeOf(r));
    if Range(TypeOf(r)) != "" {
      OneLine("// RcppDeepState_" + TypeOf(r) + Range(TypeOf(r)));
    }
  }

  // ----- The macros -----

  lemma {:induction false} EachContinued(lines: Row --> seq<string>, contents: Row --> seq<string>, rows: seq<Row>)
    requires forall r | r in rows :: lines.requires(r) && contents.requires(r) && lines(r) == Continued(contents(r))
    ensures Concat(Each(lines, rows)) == Continued(Concat(Each(contents, rows)))
  {
    if rows != [] {
      var n := |rows| - 1;
      assert rows[n] in rows;
      EachContinued(lines, contents, rows[..n]);
      assert Each(lines, rows)[..n] == Each(lines, rows[..n]);
      assert Each(contents, rows)[..n] == Each(contents, rows[..n]);
      ContinuedConcat(Concat(Each(contents, rows[..n])), contents(rows[n]));
    }
  }

  /** A condition on the lines of each row holds of all lines together. */
  lemma {:induction false} EachAll(lines: Row --> seq<string>, rows: seq<Row>, p: string -> bool)
    requires forall r | r in rows :: lines.requires(r) && forall l | l in lines(r) :: p(l)
    ensures forall l | l in Concat(Each(lines, rows)) :: p(l)
  {
    if rows != [] {
      var n := |rows| - 1;
      assert rows[n] in rows;
      EachAll(lines, rows[..n], p);
      assert Each(lines, rows)[..n] == Each(lines, rows[..n]);
    }
  }

  lemma StatementsSingle(r: Row)
    requires Supported(r) && Named([r])
    ensures SingleLines(Statements(r)) && SingleLines(Printed(r))
  {
    DeclarationIsStatements(r);
    DeclarationLinesSingle(r);
    ShownIsPrinted(r);
    ShowLineSingle(r);
    SingleWithout(Statements(r), DeclarationLines(r));
    SingleWithout(Printed(r), Shown(r));
  }

  lemma SingleWithout(contents: seq<string>, lines: seq<string>)
    requires lines == Continued(contents) && SingleLines(lines)
    ensures SingleLines(contents)
  {
    forall l | l in contents ensures SingleLine(l) {
      var i :| 0 <= i < |contents| && contents[i] == l;
      assert lines[i] in lines;
    }
  }

  lemma AllSingle(contents: Row -> seq<string>, rows: seq<Row>)
    requires forall r | r in rows :: SingleLines(contents(r))
    ensures SingleLines(Concat(Each(contents, rows)))
  {
    EachAll(contents, rows, SingleLine);
  }

  const INPUTS_START := "#define INPUTS "

  lemma InputsStart()
    ensures INPUTS_LINE == INPUTS_START + "\\" && SingleLine(INPUTS_START)
  {
  }

  lemma InputsText(rows: seq<Row>)
    requires AllSupported(rows) && Named(rows)
    ensures SingleLines(Concat(Each(Statements, rows)))
    ensures Inputs(rows) == Lined([INPUTS_START + "\\"] + Continued(Concat(Each(Statements, rows))))
  {
    forall r | r in rows ensures DeclarationLines(r) == Continued(Statements(r)) && SingleLines(Statements(r)) {
      DeclarationIsStatements(r);
      StatementsSingle(r);
    }
    EachContinued(DeclarationLines, Statements, rows);
    AllSingle(Statements, rows);
    InputsAreLines(rows);
    InputsStart();
  }

  lemma StrippedMacro(text: string, stripped: string, head: string, contents: seq<string>)
    requires text == stripped + SPLICE && EndsIn(stripped, ' ')
    requires SingleLine(head) && SingleLines(contents) && text == Lined([head + "\\"] + Continued(contents))
    ensures Splice(stripped) == head + Join(contents)
  {
    SpliceOfStripped(stripped);
    HeadJoins(head, contents, "", text);
  }

  /** The INPUTS macro after splicing: its head and all the statements, in order. */
  lemma InputsMacro(rows: seq<Row>)
    requires rows != [] && AllSupported(rows) && Named(rows)
    ensures Splice(StripSplice(Inputs(rows))) == INPUTS_START + Join(Concat(Each(Statements, rows)))
  {
    InputsText(rows);
    InputsStripped(rows);
    InputsStart();
    StrippedMacro(Inputs(rows), StripSplice(Inputs(rows)), INPUTS_START, Concat(Each(Statements, rows)));
  }

  lemma SpliceOfStripped(s: string)
    requires EndsIn(s, ' ')
    ensures Splice(s + SPLICE) == Splice(s)
  {
    CutAfter(s, SPLICE, SPLICE);
    assert SPLICE + "" == SPLICE;
    MatchIsRemoved(SPLICE, "");
  }

  lemma HeadJoins(head: string, contents: seq<string>, last: string, text: string)
    requires SingleLine(head) && SingleLines(contents) && SingleLine(last)
    requires text == Lined([head + "\\"] + Continued(contents))
    ensures Splice(text + last) == head + Join(contents) + last
    ensures Splice(text) == head + Join(contents)
  {
    ContinuedConcat([head], contents);
    assert Continued([head]) == [head + "\\"];
    assert ([head] + contents)[1..] == contents;
    SpliceContinued([head] + contents, last);
    SpliceContinued([head] + contents, "");
    assert text + "" == text && head + Join(contents) + "" == head + Join(contents);
  }

  const PRINT_START := "#define PRINT_INPUTS "
  const STARTS := "  " + "std::cout << \"input starts\" << std::endl;"
  const ENDS := "  " + "std::cout << \"input ends\" << std::endl;"

  lemma PrintTexts()
    ensures PRINT_LINES == [PRINT_START + "\\", STARTS + "\\"] && PRINT_TAIL == ENDS
  {
  }

  lemma PrintTextsSingle()
    ensures SingleLine(PRINT_START) && SingleLine(STARTS) && SingleLine(ENDS)
  {
  }

  /** The PRINT_INPUTS macro after splicing. */
  lemma PrintsMacro(rows: seq<Row>)
    requires AllSupported(rows) && Named(rows)
    ensures Splice(PrintBody(rows) + PRINT_TAIL)
         == PRINT_START + Join([STARTS] + Concat(Each(Printed, rows))) + ENDS
  {
    var contents := Concat(Each(Printed, rows));
    forall r | r in rows ensures Shown(r) == Continued(Printed(r)) && SingleLines(Printed(r)) {
      ShownIsPrinted(r);
      StatementsSingle(r);
    }
    EachContinued(Shown, Printed, rows);
    AllSingle(Printed, rows);
    PrintBodyIsLines(rows);
    PrintTexts();
    PrintTextsSingle();
    OneContinued(STARTS);
    ContinuedConcat([STARTS], contents);
    assert [PRINT_START + "\\", STARTS + "\\"] == [PRINT_START + "\\"] + [STARTS + "\\"];
    Associate([PRINT_START + "\\"], Continued([STARTS]), Continued(contents));
    HeadJoins(PRINT_START, [STARTS] + contents, ENDS, PrintBody(rows));
  }

  // ----- The dumps, the comments and the tests -----

  /** The lines that save an argument to its own file. */
  function Saved(path: string): Row -> seq<string> {
    (r: Row) =>
      var name := NameOf(r);
      if TypeOf(r) == "mat" then
        ["  " + "std::ofstream " + name + "_stream;", "  " + name + "_stream.open(\"" + path + "/" + name + "\" );",
         "  " + name + "_stream << " + name + ";", "  " + name + "_stream.close(); "]
      else
        ["  " + "qs::c_qsave(" + name + ",\"" + path + "/" + name + ".qs" + "\",",
         "\t\t\"high\", \"zstd\", 1, 15, true, 1);"]
  }

  lemma SaverIsSaved(path: string, r: Row)
    ensures Saver(path)(r) == Saved(path)(r)
  {
  }

  lemma {:induction false} EachSame(f: Row -> seq<string>, g: Row -> seq<string>, rows: seq<Row>)
    requires forall r | r in rows :: f(r) == g(r)
    ensures Each(f, rows) == Each(g, rows)
  {
    forall i | 0 <= i < |rows| ensures Each(f, rows)[i] == Each(g, rows)[i] {
      assert rows[i] in rows;
    }
  }

  /** The comments that a harness for editing the ranges starts with. */
  ghost function Notes(sep: Separation, rows: seq<Row>): seq<string> {
    if sep == Generation then ["// RANGES CAN BE ADDED HERE"] + Concat(Each(Noted, rows)) else []
  }

  lemma RangesLine()
    ensures RANGES == "// RANGES CAN BE ADDED HERE" + "\n" && Separate("// RANGES CAN BE ADDED HERE")
  {
    SeparateEnd("// RANGES CAN BE ADDED HER", "E");
  }

  lemma NotedSeparate(r: Row)
    requires Supported(r)
    ensures forall l | l in Noted(r) :: Separate(l)
  {
    TypesHaveNoNewline(r);
    var range := Range(TypeOf(r));
    RangeSeparate(TypeOf(r));
    if range != "" {
      SeparateEnd("// RcppDeepState_" + TypeOf(r), range);
    }
  }

  lemma RangeSeparate(t: string)
    ensures Separate(Range(t))
  {
    assert Separate("(low,high)") && Separate("(size,low,high)") && Separate("(row,column,low,high)") && Separate("");
  }

  lemma CommentsAreNotes(sep: Separation, rows: seq<Row>)
    requires AllSupported(rows)
    ensures Comments(sep, rows) == Lined(Notes(sep, rows)) && AllSeparate(Notes(sep, rows))
  {
    if sep == Generation {
      RangesLine();
      OneLine("// RANGES CAN BE ADDED HERE");
      forall r | r in rows ensures Comment(r) == Lined(Noted(r)) && forall l | l in Noted(r) :: Separate(l) {
        CommentIsNoted(r);
        NotedSeparate(r);
      }
      GatheredIsLines(RANGES, ["// RANGES CAN BE ADDED HERE"], Comment, Noted, rows);
      EachAll(Noted, rows, Separate);
    }
  }

  /** The lines after the two macros. */
  function Runner(
    unitTest: string, functionName: string, sep: Separation, dumps: seq<string>, args: string): seq<string>
  {
    ["", "", "TEST(" + unitTest + ", " + "generator" + "){", "  " + "INPUTS", "  " + "PRINT_INPUTS", "}", "",
     "TEST(" + unitTest + ", " + "runner" + "){", "  " + "INPUTS", "  " + "PRINT_INPUTS"]
    + dumps + ["  " + "try{", "  " + "  " + functionName + "(" + args + ");"]
    + (if sep == Checks then ["  " + "  " + "//ASSERT CONDITIONS CAN BE ADDED HERE"] else [])
    + ["  " + "}catch(Rcpp::exception& e){",
       "  " + "  " + "std::cout<<\"Exception Handled\"" + "<<std::endl;", "  " + "}", "}"]
  }

  lemma SkeletonIs(
    h: string, i: string, p: string, h': string, dumps: seq<string>, start: string, call: string, checks: seq<string>,
    x: string, y: string, z: string)
    ensures Skeleton(h, i, p, h', dumps, start, call, checks, [x, y, z]) + ["}"]
         == ["", "", h, i, p, "}", "", h', i, p] + dumps + [start, call] + checks + [x, y, z, "}"]
  {
  }

  lemma TestLinesAre(unitTest: string, functionName: string, sep: Separation, dumps: seq<string>, args: string)
    ensures TestLines(unitTest, functionName, sep, dumps, args) + ["}"]
         == Runner(unitTest, functionName, sep, dumps, args)
  {
    SkeletonIs(TestHead(unitTest, "generator"), INDENT + "INPUTS", INDENT + "PRINT_INPUTS",
               TestHead(unitTest, "runner"), dumps, INDENT + "try{", CallLine(functionName, args),
               if sep == Checks then [ASSERTIONS] else [], INDENT + "}catch(Rcpp::exception& e){", HANDLED,
               INDENT + "}");
  }

  // ----- The whole file -----

  /** The lines before the macros. */
  ghost function Opening(headers: seq<string>, prototype: string, sep: Separation, rows: seq<Row>): seq<string> {
    headers + ["RInside Rinstance;", "", prototype, ""] + Notes(sep, rows)
  }

  lemma StartIs(headers: seq<string>, prototype: string)
    ensures FileStart(Lined(headers), prototype) == Lined(headers + ["RInside Rinstance;", "", prototype, ""])
  {
    var t := Lined(headers);
    AddGap(t, headers, "RInside Rinstance;");
    AddGap(t + "RInside Rinstance;" + "\n\n", headers + ["RInside Rinstance;", ""], prototype);
    assert headers + ["RInside Rinstance;", ""] + [prototype, ""]
        == headers + ["RInside Rinstance;", "", prototype, ""];
  }

  lemma PreambleIs(lines: seq<string>, start: string, comments: string)
    requires lines != [] && start != "" && start + comments == Lined(lines) && AllSeparate(lines)
    ensures LogicalLines(Preamble(start, comments)) == lines
  {
    var n := |lines| - 1;
    LinedInit(lines);
    assert lines[n] in lines;
    forall l | l in lines[..n] ensures Separate(l) {
      assert l in lines;
    }
    assert Preamble(start, comments) == Lined(lines[..n]) + lines[n];
    LinedLogical(lines[..n], lines[n]);
    assert lines == lines[..n] + [lines[n]];
  }

  lemma FirstSeparate(headers: seq<string>, prototype: string, notes: seq<string>)
    requires AllSeparate(headers) && Separate(prototype) && AllSeparate(notes)
    ensures AllSeparate(headers + ["RInside Rinstance;", "", prototype, ""] + notes)
  {
    SeparateEnd("RInside Rinstance", ";");
  }

  lemma OpeningIs(headers: seq<string>, prototype: string, sep: Separation, rows: seq<Row>)
    requires AllSupported(rows) && AllSeparate(headers) && Separate(prototype)
    ensures var start := FileStart(Lined(headers), prototype);
            start != "" && LogicalLines(Preamble(start, Comments(sep, rows))) == Opening(headers, prototype, sep, rows)
  {
    var first := headers + ["RInside Rinstance;", "", prototype, ""];
    StartIs(headers, prototype);
    CommentsAreNotes(sep, rows);
    LinedConcat(first, Notes(sep, rows));
    FirstSeparate(headers, prototype, Notes(sep, rows));
    StartEnds(Lined(headers), prototype);
    PreambleIs(first + Notes(sep, rows), Lined(first), Comments(sep, rows));
  }

  /** The texts that the call passes, by type. */
  function AllReceived(rows: seq<Row>): (ps: seq<string>)
    ensures |ps| == |rows| && forall i | 0 <= i < |rows| :: ps[i] == Received(rows[i])
  {
    seq(|rows|, i requires 0 <= i < |rows| => Received(rows[i]))
  }

  lemma PassedIsReceived(rows: seq<Row>)
    requires AllSupported(rows)
    ensures Passed(rows) == AllReceived(rows)
  {
    forall i | 0 <= i < |rows| ensures Passed(rows)[i] == AllReceived(rows)[i] {
      assert rows[i] in rows;
      PassIsReceived(rows[i]);
    }
  }

  /**
   * The file, line by line as a compiler reads it: the headers, the RInside instance, the prototype
   * and the comments; each macro in one line with what every argument contributes, in order; and the
   * two tests, of which the second saves every argument and calls the function with one text for each.
   */
  lemma SourceLines(rows: seq<Row>, path: string, sep: Separation, headers: seq<string>, prototype: string,
                    unitTest: string, functionName: string)
    requires rows != [] && AllSupported(rows) && Named(rows) && AllSeparate(headers) && Separate(prototype)
    requires SingleLine(path) && SingleLine(unitTest) && SingleLine(functionName)
    ensures var start, h := FileStart(Lined(headers), prototype), HarnessOf(rows, path, sep);
            && LogicalLines(FileText(start, h, Tests(unitTest, functionName, sep, h)))
               == Opening(headers, prototype, sep, rows)
                  + [INPUTS_START + Join(Concat(Each(Statements, rows))), "",
                     PRINT_START + Join([STARTS] + Concat(Each(Printed, rows))) + ENDS]
                  + Runner(unitTest, functionName, sep, Concat(Each(Saved(path), rows)), h.args)
            && Split(h.args, ',') == AllReceived(rows)
  {
    var h := HarnessOf(rows, path, sep);
    FileLines(rows, path, sep, Lined(headers), prototype, unitTest, functionName);
    OpeningIs(headers, prototype, sep, rows);
    InputsMacro(rows);
    PrintsMacro(rows);
    forall r | r in rows ensures Saver(path)(r) == Saved(path)(r) {
      SaverIsSaved(path, r);
    }
    EachSame(Saver(path), Saved(path), rows);
    TestLinesAre(unitTest, functionName, sep, Concat(Each(Saved(path), rows)), h.args);
    PassedIsReceived(rows);
  }
}
