/** The text deepstate_fun_create writes for a function under test (R/fun_harness_create.R:27-219). */
module HarnessText {
  import opened Options
  import opened Text

  /** One argument of the function, as parsed from RcppExports.cpp, its type already without `Rcpp::`. */
  datatype Row = Row(argType: string, argName: string)

  /** A row of types_table: the vector type that stands in for the type, and the ranged generator. */
  datatype TypeRow = TypeRow(rtype: Option<string>, args: Option<string>)

  const TYPES: map<string, TypeRow> := map[
    "int" := TypeRow(Some("IntegerVector"), Some("(low,high)")),
    "double" := TypeRow(Some("NumericVector"), Some("(low,high)")),
    "string" := TypeRow(Some("CharacterVector"), None),
    "NumericVector" := TypeRow(None, Some("(size,low,high)")),
    "IntegerVector" := TypeRow(None, Some("(size,low,high)")),
    "NumericMatrix" := TypeRow(None, Some("(row,column,low,high)")),
    "IntegerMatrix" := TypeRow(None, Some("(row,column,low,high)")),
    "CharacterVector" := TypeRow(None, None),
    "mat" := TypeRow(None, None),
    "char" := TypeRow(Some("CharacterVector"), None),
    "float" := TypeRow(Some("NumericVector"), Some("(low,high)"))
  ]

  datatype Separation = Infun | Generation | Checks

  const INDENT := "  "

  const CONST := "const"

  /** gsub("const", "", s). */
  function Unconst(s: string): string {
    RemoveAll(s, CONST)
  }

  // ----- Per-argument texts -----

  /** The argument type without spaces, const and namespaces. */
  function TypeOf(r: Row): string {
    RemoveAll(RemoveAll(RemoveAll(Unconst(RemoveAll(r.argType, " ")), "Rcpp::"), "arma::"), "std::")
  }

  function NameOf(r: Row): string {
    RemoveAll(r.argName, " ")
  }

  predicate Supported(r: Row) {
    TypeOf(r) in TYPES
  }

  /** The argument is declared as a vector of length one. */
  predicate Boxed(r: Row)
    requires Supported(r)
  {
    TYPES[TypeOf(r)].rtype.Some?
  }

  /** The text after the name of a declared argument, up to the end of its line. */
  function Drawn(r: Row): string {
    "= RcppDeepState_" + TypeOf(r) + "(); " + SPLICE
  }

  /** The declaration with a given type and name: a boxed argument is drawn into its only element. */
  function DeclarationAs(r: Row, argType: string, name: string): string
    requires Supported(r)
  {
    if Boxed(r) then
      INDENT + TYPES[TypeOf(r)].rtype.value + " " + name + "(1); " + SPLICE + INDENT + name + "[0]" + Drawn(r)
    else
      INDENT + argType + " " + name + Drawn(r)
  }

  /** `const` is removed from the whole declaration, names included. */
  function Declaration(r: Row): string
    requires Supported(r)
  {
    Unconst(DeclarationAs(r, RemoveAll(r.argType, " "), NameOf(r)))
  }

  function Dump(path: string, r: Row): string {
    var name := NameOf(r);
    if TypeOf(r) == "mat" then
      (INDENT + "std::ofstream " + name + "_stream;") + "\n"
      + (INDENT + name + "_stream.open(\"" + path + "/" + name + "\" );") + "\n"
      + (INDENT + name + "_stream << " + name + ";") + "\n" + (INDENT + name + "_stream.close(); ") + "\n"
    else
      (INDENT + "qs::c_qsave(" + name + ",\"" + path + "/" + name + ".qs" + "\",") + "\n" + QSAVE_END + "\n"
  }

  const QSAVE_END := "\t\t\"high\", \"zstd\", 1, 15, true, 1);"

  function Show(r: Row): string {
    INDENT + "std::cout << \"" + NameOf(r) + " values: \" << " + NameOf(r) + " << std::endl; " + SPLICE
  }

  /** How the call under test receives the argument. */
  function Pass(r: Row): string
    requires Supported(r)
  {
    if TypeOf(r) == "string" then "Rcpp::as<std::string>(" + NameOf(r) + "[0])"
    else if Boxed(r) then NameOf(r) + "[0]"
    else NameOf(r)
  }

  function Argument(r: Row): string
    requires Supported(r)
  {
    Pass(r) + ","
  }

  function Comment(r: Row): string
    requires Supported(r)
  {
    if TYPES[TypeOf(r)].args.Some? then "// RcppDeepState_" + TypeOf(r) + TYPES[TypeOf(r)].args.value + "\n" else ""
  }

  ghost predicate AllSupported(rows: seq<Row>) {
    forall r | r in rows :: Supported(r)
  }

  // The accumulators of the loop after a list of arguments.

  const INPUTS_HEAD := "#define INPUTS " + SPLICE
  const PRINT_HEAD := "#define PRINT_INPUTS " + SPLICE
    + (INDENT + "std::cout << \"input starts\" << std::endl;" + SPLICE)
  const PRINT_TAIL := INDENT + "std::cout << \"input ends\" << std::endl;"
  const RANGES := "// RANGES CAN BE ADDED HERE\n"

  /** A start, and then one text per argument, in order. */
  ghost function Gathered(start: string, piece: Row --> string, rows: seq<Row>): string
    requires forall r | r in rows :: piece.requires(r)
  {
    if rows == [] then start else Gathered(start, piece, rows[..|rows| - 1]) + piece(rows[|rows| - 1])
  }

  ghost function Inputs(rows: seq<Row>): string
    requires AllSupported(rows)
  {
    Gathered(INPUTS_HEAD, Declaration, rows)
  }

  function Dumper(path: string): Row -> string {
    (r: Row) => Dump(path, r)
  }

  ghost function Dumps(path: string, rows: seq<Row>): string {
    Gathered("", Dumper(path), rows)
  }

  ghost function Prints(rows: seq<Row>): string {
    Gathered("\n\n" + PRINT_HEAD, Show, rows)
  }

  ghost function Args(rows: seq<Row>): string
    requires AllSupported(rows)
  {
    Gathered("", Argument, rows)
  }

  ghost function Comments(sep: Separation, rows: seq<Row>): string
    requires AllSupported(rows)
  {
    if sep == Generation then Gathered(RANGES, Comment, rows) else ""
  }

  function Complaint(r: Row): seq<string> {
    if Supported(r) then [] else [TypeOf(r)]
  }

  ghost function Collected(f: Row -> seq<string>, rows: seq<Row>): seq<string> {
    if rows == [] then [] else Collected(f, rows[..|rows| - 1]) + f(rows[|rows| - 1])
  }

  ghost function UnsupportedOf(rows: seq<Row>): seq<string> {
    Collected(Complaint, rows)
  }

  lemma {:induction false} UnsupportedNone(rows: seq<Row>)
    ensures UnsupportedOf(rows) == [] <==> AllSupported(rows)
  {
    if rows != [] {
      var n := |rows| - 1;
      UnsupportedNone(rows[..n]);
      assert rows == rows[..n] + [rows[n]];
    }
  }

  // ----- Stripping -----

  /** gsub("\\\\\n$", "", s): a trailing backslash-newline is dropped. */
  function StripSplice(s: string): string {
    if |s| >= 2 && s[|s| - 2..] == SPLICE then s[..|s| - 2] else s
  }

  /** gsub(",$", "", s). */
  function StripComma(s: string): string {
    if EndsIn(s, ',') then s[..|s| - 1] else s
  }

  // ----- The generator -----

  datatype Creation =
    | Unsupported(types: seq<string>)
    | Harness(inputs: string, prints: string, dump: string, args: string, comment: string)

  /** The accumulators after the loop, with the trailing splice and comma stripped. */
  ghost function HarnessOf(rows: seq<Row>, path: string, sep: Separation): (h: Creation)
    requires AllSupported(rows)
    ensures h.Harness?
  {
    Harness(StripSplice(Inputs(rows)), Prints(rows) + PRINT_TAIL + "\n", Dumps(path, rows), StripComma(Args(rows)),
            Comments(sep, rows))
  }

  /** The guard: params[!(params %in% types_table$ctype)]. */
  method UnsupportedTypes(rows: seq<Row>) returns (unsupported: seq<string>)
    ensures unsupported == UnsupportedOf(rows)
  {
    unsupported := [];
    var k := 0;
    assert rows[..0] == [];
    while k < |rows|
      invariant k <= |rows| && unsupported == UnsupportedOf(rows[..k])
    {
      assert rows[..k + 1][..k] == rows[..k];
      if TypeOf(rows[k]) !in TYPES {
        unsupported := unsupported + [TypeOf(rows[k])];
      }
      k := k + 1;
    }
    assert rows[..k] == rows;
  }

  /** The loop over the arguments. */
  method Accumulate(rows: seq<Row>, path: string, sep: Separation)
    returns (inputs: string, prints: string, dump: string, args: string, comment: string)
    requires AllSupported(rows)
    ensures inputs == Inputs(rows) && prints == Prints(rows) && dump == Dumps(path, rows)
    ensures args == Args(rows) && comment == Comments(sep, rows)
  {
    comment := if sep == Generation then RANGES else "";
    inputs, dump, prints, args := INPUTS_HEAD, "", "\n\n" + PRINT_HEAD, "";
    var i := 0;
    assert rows[..0] == [];
    while i < |rows|
      invariant i <= |rows|
      invariant inputs == Inputs(rows[..i]) && dump == Dumps(path, rows[..i]) && prints == Prints(rows[..i])
      invariant args == Args(rows[..i]) && comment == Comments(sep, rows[..i])
    {
      var r := rows[i];
      assert r in rows && rows[..i + 1][..i] == rows[..i];
      comment := AddComment(comment, sep, r);
      var variable := Variable(r);
      inputs := inputs + variable;
      dump := dump + Dump(path, r);
      prints := prints + Show(r);
      args := AddArgument(args, r);
      i := i + 1;
    }
    assert rows[..i] == rows;
  }

  method FunCreate(rows: seq<Row>, path: string, sep: Separation) returns (c: Creation)
    requires rows != []
    ensures c.Harness? <==> AllSupported(rows)
    ensures c.Unsupported? ==> c.types == UnsupportedOf(rows)
    ensures c.Harness? ==> c == HarnessOf(rows, path, sep)
  {
    var unsupported := UnsupportedTypes(rows);
    UnsupportedNone(rows);
    if |unsupported| > 0 {
      return Unsupported(unsupported);
    }
    var inputs, prints, dump, args, comment := Accumulate(rows, path, sep);
    return Harness(StripSplice(inputs), prints + PRINT_TAIL + "\n", dump, StripComma(args), comment);
  }

  method AddComment(comment: string, sep: Separation, r: Row) returns (comment': string)
    requires Supported(r)
    ensures comment' == if sep == Generation then comment + Comment(r) else comment
  {
    comment' := comment;
    if sep == Generation && TYPES[TypeOf(r)].args.Some? {
      comment' := comment + ("// RcppDeepState_" + TypeOf(r) + TYPES[TypeOf(r)].args.value + "\n");
    }
  }

  method Variable(r: Row) returns (variable: string)
    requires Supported(r)
    ensures variable == Declaration(r)
  {
    var name, cleaned := NameOf(r), TypeOf(r);
    if TYPES[cleaned].rtype.Some? {
      variable := INDENT + TYPES[cleaned].rtype.value + " " + name + "(1); " + SPLICE + INDENT + name + "[0]";
    } else {
      variable := INDENT + RemoveAll(r.argType, " ") + " " + name;
    }
    variable := variable + Drawn(r);
    variable := Unconst(variable);
  }

  method AddArgument(args: string, r: Row) returns (args': string)
    requires Supported(r)
    ensures args' == args + (Pass(r) + ",")
  {
    if TypeOf(r) == "string" {
      args' := args + ("Rcpp::as<std::string>(" + NameOf(r) + "[0])" + ",");
    } else if TYPES[TypeOf(r)].rtype.Some? {
      args' := args + (NameOf(r) + "[0]" + ",");
    } else {
      args' := args + (NameOf(r) + ",");
    }
  }

  // ----- The file -----

  function TestHead(unitTest: string, name: string): string {
    "TEST(" + unitTest + ", " + name + "){"
  }

  function CallLine(functionName: string, args: string): string {
    INDENT + INDENT + functionName + "(" + args + ");"
  }

  const ASSERTIONS := INDENT + INDENT + "//ASSERT CONDITIONS CAN BE ADDED HERE"
  const HANDLED := INDENT + INDENT + "std::cout<<\"Exception Handled\"" + "<<std::endl;"

  /** Everything after the two macros: the generator and the runner test. */
  function Tests(unitTest: string, functionName: string, sep: Separation, h: Creation): string
    requires h.Harness?
  {
    "\n\n" + TestHead(unitTest, "generator") + "\n" + (INDENT + "INPUTS") + "\n" + (INDENT + "PRINT_INPUTS") + "\n"
    + "}"
    + "\n\n" + TestHead(unitTest, "runner") + "\n" + (INDENT + "INPUTS") + "\n" + (INDENT + "PRINT_INPUTS") + "\n"
    + h.dump + (INDENT + "try{") + "\n" + CallLine(functionName, h.args) + "\n"
    + (if sep == Checks then ASSERTIONS + "\n" else "")
    + (INDENT + "}catch(Rcpp::exception& e){") + "\n" + HANDLED + "\n" + (INDENT + "}") + "\n" + "}"
  }

  /** The fixed header lines and the prototype of the function. */
  function FileStart(header: string, prototype: string): string {
    header + "RInside Rinstance;" + "\n\n" + prototype + "\n\n"
  }

  /** The text written. */
  function FileText(start: string, h: Creation, tests: string): string
    requires h.Harness?
  {
    start + h.comment + h.inputs + h.prints + tests
  }

  /** The whole text, or nothing when a type is not supported. */
  method HarnessFile(
    rows: seq<Row>, path: string, sep: Separation, start: string, unitTest: string, functionName: string)
    returns (text: Option<string>)
    requires rows != []
    ensures text.Some? <==> AllSupported(rows)
    ensures text.Some? ==>
              var h := HarnessOf(rows, path, sep);
              text.value == FileText(start, h, Tests(unitTest, functionName, sep, h))
  {
    var c := FunCreate(rows, path, sep);
    if c.Unsupported? {
      return None;
    }
    return Some(FileText(start, c, Tests(unitTest, functionName, sep, c)));
  }
}
