/** What the generated harness promises. */
module HarnessProperties {
  import opened Options
  import opened Text
  import opened HarnessText

  predicate IdentifierChar(c: char) {
    'a' <= c <= 'z' || 'A' <= c <= 'Z' || '0' <= c <= '9' || c == '_'
  }

  /** Argument names are C++ identifiers. */
  ghost predicate Named(rows: seq<Row>) {
    forall r | r in rows :: NameOf(r) != "" && forall c | c in NameOf(r) :: IdentifierChar(c)
  }

  // ----- Scoping -----

  lemma KeepsDrawn(r: Row, start: string)
    requires Supported(r) && start in {"", "[0]"}
    ensures Unconst(start + Drawn(r)) == start + Drawn(r)
  {
    var t := TypeOf(r);
    if t == "string" {
      assert 'o' !in "string";
      LacksCharacter(start + Drawn(r), CONST, 1);
    } else {
      LacksS(t);
      LacksCharacter(start + Drawn(r), CONST, 3);
    }
  }

  lemma LacksS(t: string)
    requires t in TYPES && t != "string"
    ensures 's' !in t && '\n' !in t
  {
    if t == "int" {
    } else if t == "double" {
    } else if t == "NumericVector" {
    } else if t == "IntegerVector" {
    } else if t == "NumericMatrix" {
    } else if t == "IntegerMatrix" {
    } else if t == "CharacterVector" {
    } else if t == "mat" {
    } else if t == "char" {
    } else {
      assert t == "float";
    }
  }

  lemma BoxTypes(t: string)
    requires t in TYPES && TYPES[t].rtype.Some?
    ensures 's' !in TYPES[t].rtype.value && '\n' !in TYPES[t].rtype.value
  {
    var box := TYPES[t].rtype.value;
    assert box == "IntegerVector" || box == "NumericVector" || box == "CharacterVector";
  }

  predicate Kept(a: string) {
    Unconst(a) == a
  }

  lemma TwoHoles(a: string, name: string, b: string, c: string)
    requires Kept(a) && Kept(b) && Kept(c) && a != "" && b != "" && c != ""
    requires a[|a| - 1] !in CONST && b[0] !in CONST && b[|b| - 1] !in CONST && c[0] !in CONST
    ensures Unconst(a + name + (b + name + c)) == a + Unconst(name) + (b + Unconst(name) + c)
  {
    CutAround(b, name, c, CONST);
    CutAround(a, name, b + name + c, CONST);
  }

  const BOX := "(1); " + SPLICE + INDENT

  lemma BoxKept(r: Row, rtype: string)
    requires Supported(r) && Boxed(r) && rtype == TYPES[TypeOf(r)].rtype.value
    ensures Kept(INDENT + rtype + " ") && Kept(BOX) && Kept("[0]" + Drawn(r))
  {
    BoxTypes(TypeOf(r));
    LacksCharacter(INDENT + rtype + " ", CONST, 3);
    LacksCharacter(BOX, CONST, 0);
    KeepsDrawn(r, "[0]");
  }

  lemma BoxedText(r: Row, name: string, argType: string)
    requires Supported(r) && Boxed(r)
    ensures Unconst(DeclarationAs(r, argType, name)) == DeclarationAs(r, Unconst(argType), Unconst(name))
  {
    var rtype := TYPES[TypeOf(r)].rtype.value;
    var a, b, c := INDENT + rtype + " ", BOX, "[0]" + Drawn(r);
    BoxKept(r, rtype);
    BoxedPieces(r, rtype, name);
    BoxedPieces(r, rtype, Unconst(name));
    TwoHoles(a, name, b, c);
  }

  lemma PlainText(r: Row, name: string, argType: string)
    requires Supported(r) && !Boxed(r)
    ensures Unconst(DeclarationAs(r, argType, name)) == DeclarationAs(r, Unconst(argType), Unconst(name))
  {
    var c := Drawn(r);
    KeepsDrawn(r, "");
    assert "" + c == c;
    LacksCharacter(INDENT, CONST, 0);
    LacksCharacter(" ", CONST, 0);
    CutAround(INDENT, argType, " " + name + c, CONST);
    CutAround(" ", name, c, CONST);
    PlainPieces(r, argType, name);
    PlainPieces(r, Unconst(argType), Unconst(name));
  }

  /** Removing `const` from a declaration removes it from the type and from the name, and nothing else. */
  lemma DeclarationText(r: Row)
    requires Supported(r)
    ensures Declaration(r) == DeclarationAs(r, Unconst(RemoveAll(r.argType, " ")), Unconst(NameOf(r)))
  {
    if Boxed(r) {
      BoxedText(r, NameOf(r), RemoveAll(r.argType, " "));
    } else {
      PlainText(r, NameOf(r), RemoveAll(r.argType, " "));
    }
  }

  lemma BoxedPieces(r: Row, rtype: string, name: string)
    requires Supported(r) && Boxed(r) && rtype == TYPES[TypeOf(r)].rtype.value
    ensures forall argType ::
              DeclarationAs(r, argType, name) == (INDENT + rtype + " ") + name + (BOX + name + ("[0]" + Drawn(r)))
  {
  }

  lemma PlainPieces(r: Row, argType: string, name: string)
    requires Supported(r) && !Boxed(r)
    ensures DeclarationAs(r, argType, name) == INDENT + argType + (" " + name + Drawn(r))
  {
  }

  /** A declaration grows with the name in it. */
  lemma LongerName(r: Row, argType: string, short: string, name: string)
    requires Supported(r) && |short| < |name|
    ensures DeclarationAs(r, argType, short) != DeclarationAs(r, argType, name)
  {
    if Boxed(r) {
      var rtype := TYPES[TypeOf(r)].rtype.value;
      BoxedPieces(r, rtype, short);
      BoxedPieces(r, rtype, name);
      TwiceLonger(INDENT + rtype + " ", BOX, "[0]" + Drawn(r), short, name);
    } else {
      PlainPieces(r, argType, short);
      PlainPieces(r, argType, name);
      OnceLonger(INDENT + argType, " ", Drawn(r), short, name);
    }
  }

  lemma TwiceLonger(a: string, b: string, c: string, short: string, name: string)
    requires |short| < |name|
    ensures a + short + (b + short + c) != a + name + (b + name + c)
  {
    assert |a + short + (b + short + c)| < |a + name + (b + name + c)|;
  }

  lemma OnceLonger(a: string, b: string, c: string, short: string, name: string)
    requires |short| < |name|
    ensures a + (b + short + c) != a + (b + name + c)
  {
    assert |a + (b + short + c)| < |a + (b + name + c)|;
  }

  /** The declaration as it would be if `const` were removed from the type alone. */
  function Intended(r: Row): string
    requires Supported(r)
  {
    DeclarationAs(r, Unconst(RemoveAll(r.argType, " ")), NameOf(r))
  }

  /**
   * An argument is declared under the name its dump, its print and the call use if and only if that
   * name does not contain `const`.
   */
  lemma WellScoped(r: Row)
    requires Supported(r)
    ensures Declaration(r) == Intended(r) <==> !Contains(NameOf(r), CONST)
  {
    DeclarationText(r);
    RemoveAllKeeps(NameOf(r), CONST);
    if Contains(NameOf(r), CONST) {
      LongerName(r, Unconst(RemoveAll(r.argType, " ")), Unconst(NameOf(r)), NameOf(r));
    }
  }

  /** A type without qualifiers is its own clean form. */
  lemma BareTypeIsKept(t: string, name: string)
    requires ' ' !in t && 's' !in t && ':' !in t
    ensures TypeOf(Row(t, name)) == t && Unconst(RemoveAll(t, " ")) == t
  {
    LacksCharacter(t, " ", 0);
    LacksCharacter(t, CONST, 3);
    LacksCharacter(t, "Rcpp::", 4);
    LacksCharacter(t, "arma::", 4);
    LacksCharacter(t, "std::", 3);
  }

  lemma ConstantBecomesAnt()
    ensures RemoveAll("constant", " ") == "constant" && Unconst("constant") == "ant"
    ensures Contains("constant", CONST)
  {
    LacksCharacter("constant", " ", 0);
    assert OccursAt("constant", CONST, 0);
    assert "constant"[..5] == CONST && "constant"[5..] == "ant";
    LacksCharacter("ant", CONST, 0);
  }

  lemma PlainDeclaration(r: Row, t: string, name: string)
    requires Supported(r) && !Boxed(r) && TypeOf(r) == t
    ensures DeclarationAs(r, t, name) == INDENT + t + " " + name + "= RcppDeepState_" + t + "(); " + SPLICE
  {
    Associate(INDENT + t + " " + name, "= RcppDeepState_" + t + "(); ", SPLICE);
    Associate(INDENT + t + " " + name, "= RcppDeepState_" + t, "(); ");
    Associate(INDENT + t + " " + name, "= RcppDeepState_", t);
  }

  /** An unboxed argument whose name contains `const` is declared under one name and passed by another. */
  lemma Renamed(t: string, name: string)
    requires ' ' !in t && 's' !in t && ':' !in t && t in TYPES && TYPES[t].rtype.None?
    requires RemoveAll(name, " ") == name && Contains(name, CONST)
    ensures var r := Row(t, name);
            && Supported(r) && Declaration(r) != Intended(r) && Pass(r) == name
            && Declaration(r) == INDENT + t + " " + Unconst(name) + "= RcppDeepState_" + t + "(); " + SPLICE
  {
    var r := Row(t, name);
    BareTypeIsKept(t, name);
    DeclarationText(r);
    WellScoped(r);
    PlainDeclaration(r, t, Unconst(name));
  }

  lemma NumericVectorIsBare()
    ensures ' ' !in "NumericVector" && ':' !in "NumericVector" && 's' !in "NumericVector"
  {
    LacksS("NumericVector");
  }

  /** A numeric vector named "constant" is declared as "ant", and passed as "constant". */
  lemma ConstantIsRenamed()
    ensures var r, t := Row("NumericVector", "constant"), "NumericVector";
            && Supported(r) && Declaration(r) != Intended(r) && Pass(r) == "constant"
            && Declaration(r) == INDENT + t + " " + "ant" + "= RcppDeepState_" + t + "(); " + SPLICE
  {
    NumericVectorIsBare();
    ConstantBecomesAnt();
    Renamed("NumericVector", "constant");
  }

  // ----- The call -----

  function Passed(rows: seq<Row>): (ps: seq<string>)
    requires forall r | r in rows :: Supported(r)
    ensures |ps| == |rows| && forall i | 0 <= i < |rows| :: ps[i] == Pass(rows[i])
  {
    seq(|rows|, i requires 0 <= i < |rows| => Pass(rows[i]))
  }

  /** Each text followed by a comma. */
  ghost function Terminated(pieces: seq<string>): string {
    if pieces == [] then "" else Terminated(pieces[..|pieces| - 1]) + (pieces[|pieces| - 1] + ",")
  }

  lemma {:induction false} TerminatedSplits(pieces: seq<string>)
    requires pieces != [] && forall p | p in pieces :: ',' !in p
    ensures Split(StripComma(Terminated(pieces)), ',') == pieces
  {
    var n := |pieces| - 1;
    var init, last := pieces[..n], pieces[n];
    assert last in pieces && pieces == init + [last];
    StripLast(Terminated(init), last);
    if n == 0 {
      assert Terminated(init) + last == last;
      SplitNone(last, ',');
    } else {
      TerminatedSplits(init);
      TerminatedEnd(init);
      SplitLast(StripComma(Terminated(init)), last);
    }
  }

  lemma TerminatedEnd(pieces: seq<string>)
    requires pieces != []
    ensures Terminated(pieces) == StripComma(Terminated(pieces)) + [',']
  {
    var n := |pieces| - 1;
    StripLast(Terminated(pieces[..n]), pieces[n]);
  }

  lemma {:induction false} ArgsAreTerminated(rows: seq<Row>)
    requires AllSupported(rows)
    ensures Args(rows) == Terminated(Passed(rows))
  {
    if rows != [] {
      var n := |rows| - 1;
      ArgsAreTerminated(rows[..n]);
      assert Passed(rows)[..n] == Passed(rows[..n]);
    }
  }

  /** Splitting the emitted argument text at its commas gives back one text per argument, in order. */
  lemma CallSplitsIntoArguments(rows: seq<Row>)
    requires rows != [] && AllSupported(rows) && Named(rows)
    ensures Split(StripComma(Args(rows)), ',') == Passed(rows)
  {
    ArgsAreTerminated(rows);
    forall p | p in Passed(rows) ensures ',' !in p {
      var i :| 0 <= i < |rows| && p == Passed(rows)[i];
      assert rows[i] in rows;
      NoComma(rows[i]);
    }
    TerminatedSplits(Passed(rows));
  }

  lemma StripLast(a: string, b: string)
    ensures StripComma(a + (b + ",")) == a + b
  {
  }

  lemma SplitLast(a: string, last: string)
    requires ',' !in last
    ensures Split(a + [','] + last, ',') == Split(a, ',') + [last]
  {
    SplitCut(a, ',', last);
    SplitNone(last, ',');
  }

  lemma NoComma(r: Row)
    requires Supported(r) && Named([r])
    ensures ',' !in Pass(r)
  {
    assert r in [r];
    assert forall c | c in NameOf(r) :: IdentifierChar(c);
  }

  const ELEMENT := "[0]"
  const UNIT := "(1); "

  lemma NoParenthesis(r: Row)
    requires Supported(r)
    ensures '(' !in TypeOf(r) && '(' !in Unconst(RemoveAll(r.argType, " "))
  {
    var a := RemoveAll(r.argType, " ");
    var b := Unconst(a);
    var c := RemoveAll(b, "Rcpp::");
    var d := RemoveAll(c, "arma::");
    KnownTypesLack(TypeOf(r));
    RemoveAllLoses(b, "Rcpp::", '(');
    RemoveAllLoses(c, "arma::", '(');
    RemoveAllLoses(d, "std::", '(');
  }

  lemma KnownTypesLack(t: string)
    requires t in TYPES
    ensures '(' !in t
  {
    if t == "int" {
    } else if t == "double" {
    } else if t == "string" {
    } else if t == "NumericVector" {
    } else if t == "IntegerVector" {
    } else if t == "NumericMatrix" {
    } else if t == "IntegerMatrix" {
    } else if t == "CharacterVector" {
    } else if t == "mat" {
    } else if t == "char" {
    } else {
      assert t == "float";
    }
  }

  lemma UnitFollows(s: string, name: string, i: nat)
    requires OccursAt(s, name + UNIT, i)
    ensures s[i + |name|] == '(' && s[i + |name| + 1] == '1'
  {
    var pat, k := name + UNIT, i + |name|;
    assert s[k] == pat[|name|] && s[k + 1] == pat[|name| + 1];
  }

  /** Where the only parenthesis is closed at once, nothing is of length one. */
  lemma ClosedAtOnce(a: string, b: string, name: string)
    requires '(' !in a && '(' !in b && b != "" && b[0] == ')'
    ensures !Contains(a + "(" + b, name + UNIT)
  {
    var s := a + "(" + b;
    assert s[|a| + 1] == ')';
    assert forall k | 0 <= k < |s| && s[k] == '(' :: k == |a|;
    if Contains(s, name + UNIT) {
      var i :| 0 <= i <= |s| && OccursAt(s, name + UNIT, i);
      UnitFollows(s, name, i);
    }
  }

  lemma PlainIsNotUnit(r: Row)
    requires Supported(r) && Named([r]) && !Boxed(r)
    ensures !Contains(Declaration(r), Unconst(NameOf(r)) + UNIT)
  {
    var name, argType := Unconst(NameOf(r)), Unconst(RemoveAll(r.argType, " "));
    assert r in [r];
    assert '(' !in NameOf(r);
    RemoveAllLoses(NameOf(r), CONST, '(');
    NoParenthesis(r);
    DeclarationText(r);
    PlainPieces(r, argType, name);
    var a, b := INDENT + argType + (" " + name + ("= RcppDeepState_" + TypeOf(r))), "); " + SPLICE;
    ClosedAtOnce(a, b, name);
    DrawnPieces(INDENT + argType, " " + name, "= RcppDeepState_" + TypeOf(r));
  }

  lemma DrawnPieces(a: string, b: string, c: string)
    ensures a + (b + (c + "(); " + SPLICE)) == a + (b + c) + "(" + ("); " + SPLICE)
  {
    assert "(); " == "(" + "); ";
  }

  lemma OccursAfter(a: string, pat: string, b: string)
    ensures Contains(a + pat + b, pat)
  {
    assert OccursAt(a + pat + b, pat, |a|);
  }

  lemma BoxedIsUnit(r: Row)
    requires Supported(r) && Boxed(r)
    ensures Contains(Declaration(r), Unconst(NameOf(r)) + UNIT)
  {
    var name, rtype := Unconst(NameOf(r)), TYPES[TypeOf(r)].rtype.value;
    DeclarationText(r);
    BoxedPieces(r, rtype, name);
    var a, rest := INDENT + rtype + " ", SPLICE + INDENT + name + ("[0]" + Drawn(r));
    UnitPieces(a, name, UNIT, SPLICE, INDENT, "[0]" + Drawn(r));
    OccursAfter(a, name + UNIT, rest);
  }

  lemma UnitPieces(a: string, name: string, unit: string, splice: string, indent: string, d: string)
    ensures a + name + (unit + splice + indent + name + d) == a + (name + unit) + (splice + indent + name + d)
  {
  }

  lemma StringElement(start: string)
    ensures Contains(start + "[0])", ELEMENT)
  {
    OccursAfter(start, ELEMENT, ")");
    Associate(start, ELEMENT, ")");
    assert ELEMENT + ")" == "[0])";
  }

  lemma BoxElement(name: string)
    ensures Contains(name + "[0]", ELEMENT)
  {
    OccursAfter(name, ELEMENT, "");
    assert name + ELEMENT + "" == name + "[0]";
  }

  lemma NoElement(name: string)
    requires '[' !in name
    ensures !Contains(name, ELEMENT)
  {
    LacksCharacter(name, ELEMENT, 0);
    RemoveAllKeeps(name, ELEMENT);
  }

  lemma PassesElement(r: Row)
    requires Supported(r) && Named([r])
    ensures Contains(Pass(r), ELEMENT) <==> Boxed(r)
  {
    assert r in [r];
    if TypeOf(r) == "string" {
      StringElement("Rcpp::as<std::string>(" + NameOf(r));
    } else if Boxed(r) {
      BoxElement(NameOf(r));
    } else {
      assert '[' !in NameOf(r);
      NoElement(NameOf(r));
    }
  }

  /** The call takes an argument's element 0 exactly when the text declares the argument with length one. */
  lemma PassedByElement(r: Row)
    requires Supported(r) && Named([r])
    ensures Contains(Pass(r), ELEMENT) <==> Contains(Declaration(r), Unconst(NameOf(r)) + UNIT)
  {
    PassesElement(r);
    if Boxed(r) {
      BoxedIsUnit(r);
    } else {
      PlainIsNotUnit(r);
    }
  }

  // ----- One logical line per macro -----

  lemma NoNewline(s: string)
    requires '\n' !in s
    ensures Escaped(s)
  {
  }

  lemma TypesHaveNoNewline(r: Row)
    requires Supported(r)
    ensures '\n' !in TypeOf(r) && '\n' !in Unconst(RemoveAll(r.argType, " "))
  {
    var a := RemoveAll(r.argType, " ");
    var b := Unconst(a);
    var c := RemoveAll(b, "Rcpp::");
    var d := RemoveAll(c, "arma::");
    if TypeOf(r) != "string" { LacksS(TypeOf(r)); }
    RemoveAllLoses(b, "Rcpp::", '\n');
    RemoveAllLoses(c, "arma::", '\n');
    RemoveAllLoses(d, "std::", '\n');
  }

  lemma DrawnEscaped(r: Row)
    requires Supported(r)
    ensures Escaped(Drawn(r))
    ensures |Drawn(r)| > 3 && Drawn(r)[|Drawn(r)| - 3..] == " \\\n"
  {
    TypesHaveNoNewline(r);
    LineEscaped("= RcppDeepState_" + TypeOf(r) + "(); ");
    SpaceBeforeSplice("= RcppDeepState_" + TypeOf(r) + "();");
  }

  lemma SpaceBeforeSplice(s: string)
    ensures (s + " " + SPLICE)[|s|..] == " \\\n"
  {
  }

  lemma BoxedEscaped(a: string, name: string, box: string, d: string)
    requires '\n' !in a && '\n' !in name && Escaped(box) && Escaped(d)
    ensures Escaped(a + name + (box + name + ("[0]" + d)))
  {
    NoNewline(a + name);
    NoNewline(name);
    NoNewline("[0]");
    EscapedConcat("[0]", d);
    EscapedConcat(box, name);
    EscapedConcat(box + name, "[0]" + d);
    EscapedConcat(a + name, box + name + ("[0]" + d));
  }

  lemma PlainEscaped(a: string, name: string, d: string)
    requires '\n' !in a && '\n' !in name && Escaped(d)
    ensures Escaped(a + (" " + name + d))
  {
    NoNewline(a);
    NoNewline(" " + name);
    EscapedConcat(" " + name, d);
    EscapedConcat(a, " " + name + d);
  }

  lemma SameEnd(a: string, d: string)
    requires |d| > 3
    ensures |a + d| > 3 && (a + d)[|a + d| - 3..] == d[|d| - 3..]
  {
  }

  lemma NameHasNoNewline(r: Row)
    requires Named([r])
    ensures '\n' !in NameOf(r) && '\n' !in Unconst(NameOf(r))
  {
    assert r in [r];
    RemoveAllLoses(NameOf(r), CONST, '\n');
  }

  lemma DeclarationEscaped(r: Row)
    requires Supported(r) && Named([r])
    ensures Escaped(Declaration(r))
    ensures |Declaration(r)| > 3 && Declaration(r)[|Declaration(r)| - 3..] == " \\\n"
  {
    var name, argType, d := Unconst(NameOf(r)), Unconst(RemoveAll(r.argType, " ")), Drawn(r);
    DeclarationText(r);
    TypesHaveNoNewline(r);
    NameHasNoNewline(r);
    DrawnEscaped(r);
    if Boxed(r) {
      var rtype := TYPES[TypeOf(r)].rtype.value;
      BoxTypes(TypeOf(r));
      BoxedPieces(r, rtype, name);
      BoxEscaped();
      BoxedEscaped(INDENT + rtype + " ", name, BOX, d);
      SameEnd("[0]", d);
      SameEnd(BOX + name, "[0]" + d);
      SameEnd(INDENT + rtype + " " + name, BOX + name + ("[0]" + d));
    } else {
      PlainPieces(r, argType, name);
      PlainEscaped(INDENT + argType, name, d);
      SameEnd(" " + name, d);
      SameEnd(INDENT + argType, " " + name + d);
    }
  }

  lemma LineEscaped(s: string)
    requires '\n' !in s
    ensures Escaped(s + SPLICE)
  {
    NoNewline(s);
    EscapedConcat(s, SPLICE);
  }

  lemma BoxEscaped()
    ensures Escaped(BOX)
  {
    LineEscaped("(1); ");
    NoNewline(INDENT);
    EscapedConcat("(1); " + SPLICE, INDENT);
  }

  lemma HeadsEscaped()
    ensures Escaped(INPUTS_HEAD) && Escaped(PRINT_HEAD)
  {
    LineEscaped("#define INPUTS ");
    LineEscaped("#define PRINT_INPUTS ");
    var start := INDENT + "std::cout << \"input starts\" << std::endl;";
    LineEscaped(start);
    EscapedConcat("#define PRINT_INPUTS " + SPLICE, start + SPLICE);
  }

  lemma {:induction false} GatheredEscaped(start: string, piece: Row --> string, rows: seq<Row>)
    requires Escaped(start) && forall r | r in rows :: piece.requires(r) && Escaped(piece(r))
    ensures Escaped(Gathered(start, piece, rows))
  {
    if rows != [] {
      var n := |rows| - 1;
      GatheredEscaped(start, piece, rows[..n]);
      assert rows[n] in rows;
      EscapedConcat(Gathered(start, piece, rows[..n]), piece(rows[n]));
    }
  }

  lemma InputsEscaped(rows: seq<Row>)
    requires rows != [] && AllSupported(rows) && Named(rows)
    ensures Escaped(Inputs(rows))
    ensures |Inputs(rows)| > 3 && Inputs(rows)[|Inputs(rows)| - 3..] == " \\\n"
  {
    HeadsEscaped();
    forall r | r in rows ensures Escaped(Declaration(r)) {
      DeclarationEscaped(r);
    }
    GatheredEscaped(INPUTS_HEAD, Declaration, rows);
    var n := |rows| - 1;
    assert rows[n] in rows;
    DeclarationEscaped(rows[n]);
    SameEnd(Gathered(INPUTS_HEAD, Declaration, rows[..n]), Declaration(rows[n]));
  }

  lemma InputsStripped(rows: seq<Row>)
    requires rows != [] && AllSupported(rows) && Named(rows)
    ensures Inputs(rows) == StripSplice(Inputs(rows)) + SPLICE
    ensures Escaped(StripSplice(Inputs(rows))) && EndsIn(StripSplice(Inputs(rows)), ' ')
  {
    InputsEscaped(rows);
    var s := Inputs(rows);
    assert s[|s| - 3..][1..] == s[|s| - 2..];
    assert s[|s| - 3] == s[|s| - 3..][0];
  }

  /** The body of the PRINT_INPUTS macro before its last line. */
  ghost function PrintBody(rows: seq<Row>): string {
    Gathered(PRINT_HEAD, Show, rows)
  }

  lemma {:induction false} GatheredAfter(a: string, start: string, piece: Row --> string, rows: seq<Row>)
    requires forall r | r in rows :: piece.requires(r)
    ensures Gathered(a + start, piece, rows) == a + Gathered(start, piece, rows)
  {
    if rows != [] {
      var n := |rows| - 1;
      GatheredAfter(a, start, piece, rows[..n]);
      Associate(a, Gathered(start, piece, rows[..n]), piece(rows[n]));
    }
  }

  lemma PrintsEscaped(rows: seq<Row>)
    requires Named(rows)
    ensures Prints(rows) == "\n\n" + PrintBody(rows) && Escaped(PrintBody(rows))
  {
    HeadsEscaped();
    forall r | r in rows ensures Escaped(Show(r)) {
      ShowEscaped(r);
    }
    GatheredEscaped(PRINT_HEAD, Show, rows);
    GatheredAfter("\n\n", PRINT_HEAD, Show, rows);
  }

  lemma ShowEscaped(r: Row)
    requires Named([r])
    ensures Escaped(Show(r))
  {
    assert r in [r];
    assert '\n' !in NameOf(r);
    var start := INDENT + "std::cout << \"" + NameOf(r) + " values: \" << " + NameOf(r);
    NoNewline(start);
    LineEscaped(" << std::endl; ");
    EscapedConcat(start, " << std::endl; " + SPLICE);
    Associate(start, " << std::endl; ", SPLICE);
    assert Show(r) == start + " << std::endl; " + SPLICE;
  }

  /**
   * Each macro is one logical line: within it every newline follows a backslash, the newline that
   * ends it does not, and translation of the text around it yields it as a line of its own.
   */
  lemma MacrosAreSingleLines(rows: seq<Row>, before: string, after: string)
    requires rows != [] && AllSupported(rows) && Named(rows) && !EndsIn(before, '\\')
    ensures var inputs, prints := StripSplice(Inputs(rows)), PrintBody(rows) + PRINT_TAIL;
      && Escaped(inputs) && !EndsIn(inputs, '\\')
      && Escaped(prints) && !EndsIn(prints, '\\')
      && LogicalLines(before + "\n" + inputs + (Prints(rows) + PRINT_TAIL + "\n") + after)
         == LogicalLines(before) + [Splice(inputs), "", Splice(prints)] + LogicalLines(after)
  {
    InputsStripped(rows);
    PrintsEscaped(rows);
    TailEscaped();
    MacroLines(before, StripSplice(Inputs(rows)), PrintBody(rows), PRINT_TAIL, after);
  }

  lemma TailEscaped()
    ensures Escaped(PRINT_TAIL) && EndsIn(PRINT_TAIL, ';')
  {
    NoNewline(PRINT_TAIL);
  }

  lemma MacroLines(before: string, inputs: string, body: string, tail: string, after: string)
    requires !EndsIn(before, '\\') && EndsIn(inputs, ' ') && EndsIn(tail, ';')
    requires Escaped(inputs) && Escaped(body) && Escaped(tail)
    ensures Escaped(body + tail) && EndsIn(body + tail, ';')
    ensures LogicalLines(before + "\n" + inputs + ("\n\n" + body + tail + "\n") + after)
         == LogicalLines(before) + [Splice(inputs), "", Splice(body + tail)] + LogicalLines(after)
  {
    EscapedConcat(body, tail);
    FourPieces(before, inputs, body + tail, after);
    Regroup(before, inputs, body, tail, after);
  }

  lemma Regroup(before: string, inputs: string, body: string, tail: string, after: string)
    ensures before + "\n" + inputs + ("\n\n" + body + tail + "\n") + after
         == before + "\n" + (inputs + "\n" + ("" + "\n" + (body + tail + "\n" + after)))
  {
    assert "\n\n" == "\n" + ("" + "\n");
  }

  lemma FourPieces(before: string, inputs: string, prints: string, after: string)
    requires !EndsIn(before, '\\') && !EndsIn(inputs, '\\') && !EndsIn(prints, '\\')
    requires Escaped(inputs) && Escaped(prints)
    ensures LogicalLines(before + "\n" + (inputs + "\n" + ("" + "\n" + (prints + "\n" + after))))
         == LogicalLines(before) + [Splice(inputs), "", Splice(prints)] + LogicalLines(after)
  {
    var t3 := prints + "\n" + after;
    var t2 := "" + "\n" + t3;
    var t1 := inputs + "\n" + t2;
    EscapedLogicalLine(inputs);
    EscapedLogicalLine(prints);
    EscapedLogicalLine("");
    LogicalLinesCut(prints, after);
    LogicalLinesCut("", t3);
    LogicalLinesCut(inputs, t2);
    LogicalLinesCut(before, t1);
    Flatten(LogicalLines(before), Splice(inputs), "", Splice(prints), LogicalLines(after));
  }

  lemma Flatten<T>(a: seq<T>, x: T, y: T, z: T, b: seq<T>)
    ensures a + ([x] + ([y] + ([z] + b))) == a + [x, y, z] + b
  {
  }

  lemma {:induction false} GatheredEnd(start: string, piece: Row --> string, rows: seq<Row>)
    requires LineEnd(start) && forall r | r in rows :: piece.requires(r) && LineEnd(piece(r))
    ensures LineEnd(Gathered(start, piece, rows))
  {
    if rows != [] {
      var n := |rows| - 1;
      GatheredEnd(start, piece, rows[..n]);
      assert rows[n] in rows;
      EndOfConcat(Gathered(start, piece, rows[..n]), piece(rows[n]));
    }
  }

  lemma CommentsEnd(sep: Separation, rows: seq<Row>)
    requires AllSupported(rows)
    ensures LineEnd(Comments(sep, rows))
  {
    assert RANGES[|RANGES| - 2] == 'E';
    forall r | r in rows ensures LineEnd(Comment(r)) {
      CommentEnd(r);
    }
    GatheredEnd(RANGES, Comment, rows);
  }

  /** s is empty or ends in a newline that no backslash precedes. */
  predicate LineEnd(s: string) {
    s == "" || (|s| >= 2 && s[|s| - 1] == '\n' && s[|s| - 2] != '\\')
  }

  lemma EndOfConcat(a: string, b: string)
    requires LineEnd(a) && LineEnd(b)
    ensures LineEnd(a + b)
  {
  }

  lemma CommentEnd(r: Row)
    requires Supported(r)
    ensures LineEnd(Comment(r))
  {
    var t := TypeOf(r);
    if TYPES[t].args.Some? {
      ArgsClose(t);
      CloseEnd("// RcppDeepState_" + t, TYPES[t].args.value);
    }
  }

  lemma CloseEnd(start: string, args: string)
    requires EndsIn(args, ')')
    ensures LineEnd(start + args + "\n")
  {
    assert (start + args + "\n")[|start + args| - 1] == args[|args| - 1];
  }

  lemma ArgsClose(t: string)
    requires t in TYPES && TYPES[t].args.Some?
    ensures EndsIn(TYPES[t].args.value, ')')
  {
  }

  /** What is written before the INPUTS macro, without the newline that ends it. */
  function Preamble(start: string, comments: string): string
    requires start != ""
  {
    (start + comments)[..|start + comments| - 1]
  }

  lemma StartEnds(header: string, prototype: string)
    ensures var s := FileStart(header, prototype); |s| >= 2 && s[|s| - 1] == '\n' && s[|s| - 2] == '\n'
  {
  }

  /** In the file that is written, each macro is one logical line. */
  lemma FileHasMacroLines(
    rows: seq<Row>, path: string, sep: Separation, header: string, prototype: string, tests: string, h: Creation)
    requires rows != [] && AllSupported(rows) && Named(rows)
    requires h == HarnessOf(rows, path, sep)
    ensures var start := FileStart(header, prototype);
            LogicalLines(FileText(start, h, tests))
            == LogicalLines(Preamble(start, h.comment))
               + [Splice(h.inputs), "", Splice(PrintBody(rows) + PRINT_TAIL)] + LogicalLines(tests)
  {
    CommentsEnd(sep, rows);
    StartEnds(header, prototype);
    MacroLinesBetween(rows, FileStart(header, prototype), Comments(sep, rows), tests);
  }

  lemma MacroLinesBetween(rows: seq<Row>, q: string, comments: string, after: string)
    requires rows != [] && AllSupported(rows) && Named(rows)
    requires |q| >= 2 && q[|q| - 1] == '\n' && q[|q| - 2] == '\n'
    requires LineEnd(comments)
    ensures var inputs, prints := StripSplice(Inputs(rows)), Prints(rows) + PRINT_TAIL + "\n";
            LogicalLines(q + comments + inputs + prints + after)
            == LogicalLines(Preamble(q, comments))
               + [Splice(inputs), "", Splice(PrintBody(rows) + PRINT_TAIL)] + LogicalLines(after)
  {
    PreambleEnd(q, comments);
    MacrosAreSingleLines(rows, Preamble(q, comments), after);
  }

  lemma PreambleEnd(q: string, c: string)
    requires |q| >= 2 && q[|q| - 1] == '\n' && q[|q| - 2] == '\n'
    requires LineEnd(c)
    ensures var p := Preamble(q, c); q + c == p + "\n" && !EndsIn(p, '\\')
  {
  }
}
