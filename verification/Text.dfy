/** The string operations of the harness generator, and translation of its output into logical lines. */
module Text {

  /** gsub of a fixed pattern by the empty string: leftmost matches, none inside another. */
  function RemoveAll(s: string, pat: string): string
    requires pat != ""
  {
    if |s| < |pat| then s
    else if s[..|pat|] == pat then RemoveAll(s[|pat|..], pat)
    else [s[0]] + RemoveAll(s[1..], pat)
  }

  predicate OccursAt(s: string, pat: string, i: nat) {
    i + |pat| <= |s| && s[i..i + |pat|] == pat
  }

  predicate Contains(s: string, pat: string) {
    exists i | 0 <= i <= |s| :: OccursAt(s, pat, i)
  }

  /** Removal leaves exactly the strings without the pattern alone. */
  lemma {:induction false} RemoveAllKeeps(s: string, pat: string)
    requires pat != ""
    ensures |RemoveAll(s, pat)| <= |s|
    ensures |RemoveAll(s, pat)| == |s| <==> !Contains(s, pat)
    ensures RemoveAll(s, pat) == s <==> !Contains(s, pat)
  {
    if |s| < |pat| {
    } else if s[..|pat|] == pat {
      RemoveAllKeeps(s[|pat|..], pat);
      assert OccursAt(s, pat, 0);
    } else {
      RemoveAllKeeps(s[1..], pat);
      if Contains(s, pat) {
        var i :| 0 <= i <= |s| && OccursAt(s, pat, i);
        assert OccursAt(s[1..], pat, i - 1);
      }
      if Contains(s[1..], pat) {
        var i :| 0 <= i <= |s[1..]| && OccursAt(s[1..], pat, i);
        assert OccursAt(s, pat, i + 1);
      }
      assert s == [s[0]] + s[1..];
    }
  }

  /** A string that lacks some character of the pattern does not contain the pattern. */
  lemma LacksCharacter(s: string, pat: string, k: nat)
    requires k < |pat| && pat[k] !in s
    ensures RemoveAll(s, pat) == s
  {
    RemoveAllKeeps(s, pat);
    forall i: nat | i + |pat| <= |s| ensures !OccursAt(s, pat, i) {
      assert s[i + k] in s;
      assert s[i..i + |pat|][k] == s[i + k];
    }
  }

  lemma Associate<T>(a: seq<T>, b: seq<T>, c: seq<T>)
    ensures a + b + c == a + (b + c)
  {
  }

  /** No match reaches over a character that the pattern lacks. */
  lemma {:induction false} CutBefore(a: string, b: string, pat: string)
    requires pat != "" && b != "" && b[0] !in pat
    ensures RemoveAll(a + b, pat) == RemoveAll(a, pat) + RemoveAll(b, pat)
  {
    var s := a + b;
    if a == "" {
      assert s == b;
    } else if |s| < |pat| {
    } else if s[..|pat|] == pat {
      MatchEndsBefore(a, b, pat);
      assert s[|pat|..] == a[|pat|..] + b && s[..|pat|] == a[..|pat|];
      CutBefore(a[|pat|..], b, pat);
    } else {
      assert s[1..] == a[1..] + b;
      assert |a| >= |pat| ==> s[..|pat|] == a[..|pat|];
      CutBefore(a[1..], b, pat);
      ShortIsKept(a, pat);
    }
  }

  lemma MatchEndsBefore(a: string, b: string, pat: string)
    requires pat <= a + b && b != "" && b[0] !in pat
    ensures |pat| <= |a|
  {
    assert (a + b)[|a|] == b[0];
    assert forall i | 0 <= i < |pat| :: pat[i] == (a + b)[i];
  }

  lemma ShortIsKept(a: string, pat: string)
    requires pat != "" && a != "" && (|a| >= |pat| ==> a[..|pat|] != pat)
    ensures RemoveAll(a, pat) == [a[0]] + RemoveAll(a[1..], pat)
  {
  }

  lemma FirstIsKept(x: char, b: string, pat: string)
    requires pat != "" && x !in pat
    ensures RemoveAll([x] + b, pat) == [x] + RemoveAll(b, pat)
  {
    var s := [x] + b;
    assert s[1..] == b;
    if |s| >= |pat| { assert s[..|pat|][0] == x; }
    ShortIsKept(s, pat);
  }

  lemma CutAt(a: string, x: char, b: string, pat: string)
    requires pat != "" && x !in pat
    ensures RemoveAll(a + [x] + b, pat) == RemoveAll(a, pat) + [x] + RemoveAll(b, pat)
  {
    Associate(a, [x], b);
    Associate(RemoveAll(a, pat), [x], RemoveAll(b, pat));
    CutBefore(a, [x] + b, pat);
    FirstIsKept(x, b, pat);
  }

  lemma CutAfter(a: string, b: string, pat: string)
    requires pat != "" && a != "" && a[|a| - 1] !in pat
    ensures RemoveAll(a + b, pat) == RemoveAll(a, pat) + RemoveAll(b, pat)
  {
    var init, x := a[..|a| - 1], a[|a| - 1];
    assert a == init + [x] && init + [x] + "" == a;
    CutAt(init, x, "", pat);
    assert RemoveAll(a, pat) == RemoveAll(init, pat) + [x];
    CutAt(init, x, b, pat);
  }

  lemma CutAround(a: string, s: string, b: string, pat: string)
    requires pat != "" && a != "" && a[|a| - 1] !in pat && b != "" && b[0] !in pat
    ensures RemoveAll(a + s + b, pat) == RemoveAll(a, pat) + RemoveAll(s, pat) + RemoveAll(b, pat)
  {
    CutBefore(a + s, b, pat);
    CutAfter(a, s, pat);
  }

  /** What is removed consists of characters of the pattern. */
  lemma {:induction false} RemoveAllLoses(s: string, pat: string, x: char)
    requires pat != "" && x !in pat
    ensures x in RemoveAll(s, pat) <==> x in s
  {
    if |s| < |pat| {
    } else if s[..|pat|] == pat {
      RemoveAllLoses(s[|pat|..], pat, x);
      assert s == pat + s[|pat|..];
    } else {
      RemoveAllLoses(s[1..], pat, x);
      assert s == [s[0]] + s[1..];
    }
  }

  // ----- Splitting -----

  function Prepend(c: char, parts: seq<string>): (r: seq<string>)
    requires |parts| >= 1
    ensures |r| >= 1
  {
    [[c] + parts[0]] + parts[1..]
  }

  function Split(s: string, x: char): (parts: seq<string>)
    ensures |parts| >= 1
  {
    if s == "" then [""]
    else if s[0] == x then [""] + Split(s[1..], x)
    else Prepend(s[0], Split(s[1..], x))
  }

  lemma {:induction false} SplitNone(s: string, x: char)
    requires x !in s
    ensures Split(s, x) == [s]
  {
    if s != "" {
      SplitNone(s[1..], x);
      assert s == [s[0]] + s[1..];
    }
  }

  lemma PrependConcat(c: char, p: seq<string>, q: seq<string>)
    requires |p| >= 1
    ensures Prepend(c, p + q) == Prepend(c, p) + q
  {
    assert (p + q)[1..] == p[1..] + q;
  }

  lemma {:induction false} SplitCut(a: string, x: char, b: string)
    ensures Split(a + [x] + b, x) == Split(a, x) + Split(b, x)
  {
    var s := a + [x] + b;
    if a == "" {
      assert s[0] == x && s[1..] == b;
    } else {
      assert s[0] == a[0] && s[1..] == a[1..] + [x] + b;
      SplitCut(a[1..], x, b);
      PrependConcat(a[0], Split(a[1..], x), Split(b, x));
    }
  }

  /** Text in which every line is ended. */
  function Lined(lines: seq<string>): string {
    if lines == [] then "" else lines[0] + "\n" + Lined(lines[1..])
  }

  lemma {:induction false} LinedConcat(a: seq<string>, b: seq<string>)
    ensures Lined(a + b) == Lined(a) + Lined(b)
  {
    if a == [] {
      assert a + b == b;
    } else {
      assert (a + b)[1..] == a[1..] + b;
      LinedConcat(a[1..], b);
    }
  }

  lemma OneLine(line: string)
    ensures Lined([line]) == line + "\n"
  {
    assert [line][1..] == [];
  }

  lemma AddLine(text: string, lines: seq<string>, line: string)
    requires text == Lined(lines)
    ensures text + line + "\n" == Lined(lines + [line])
  {
    OneLine(line);
    LinedConcat(lines, [line]);
  }

  predicate SingleLine(s: string) {
    '\n' !in s
  }

  ghost predicate SingleLines(lines: seq<string>) {
    forall l | l in lines :: SingleLine(l)
  }

  /** Splitting at newlines gives the lines back. */
  lemma {:induction false} LinedSplits(lines: seq<string>, last: string)
    requires SingleLines(lines) && SingleLine(last)
    ensures Split(Lined(lines) + last, '\n') == lines + [last]
  {
    if lines == [] {
      assert Lined(lines) + last == last;
      SplitNone(last, '\n');
    } else {
      var rest := Lined(lines[1..]) + last;
      assert Lined(lines) + last == lines[0] + ['\n'] + rest;
      assert lines[0] in lines;
      SplitCut(lines[0], '\n', rest);
      SplitNone(lines[0], '\n');
      assert SingleLines(lines[1..]);
      LinedSplits(lines[1..], last);
      assert lines == [lines[0]] + lines[1..];
    }
  }

  // ----- Logical lines (section 5.1.1.2 of ISO C11) -----

  const SPLICE := "\\\n"

  /** Phase 2: each backslash followed by a newline is deleted. */
  function Splice(s: string): string {
    RemoveAll(s, SPLICE)
  }

  function LogicalLines(s: string): seq<string> {
    Split(Splice(s), '\n')
  }

  /** Every newline is preceded by a backslash. */
  ghost predicate Escaped(s: string) {
    forall i | 0 <= i < |s| && s[i] == '\n' :: i > 0 && s[i - 1] == '\\'
  }

  predicate EndsIn(s: string, x: char) {
    s != "" && s[|s| - 1] == x
  }

  lemma EscapedConcat(a: string, b: string)
    requires Escaped(a) && Escaped(b)
    ensures Escaped(a + b)
  {
  }

  lemma {:induction false} EscapedIsOneLine(s: string)
    requires Escaped(s)
    ensures '\n' !in Splice(s)
  {
    if |s| >= 2 {
      if s[..2] == SPLICE {
        assert s[1] == SPLICE[1] == '\n';
        assert |s| > 2 ==> s[2] != '\n';
        assert forall i | 0 <= i < |s[2..]| :: s[2..][i] == s[i + 2];
        EscapedIsOneLine(s[2..]);
      } else {
        assert s[..2] == [s[0], s[1]];
        assert forall i | 0 <= i < |s[1..]| :: s[1..][i] == s[i + 1];
        EscapedIsOneLine(s[1..]);
      }
    }
  }

  /** Splicing works on both sides of a newline separately when no backslash stands before it. */
  lemma {:induction false} SpliceCut(a: string, b: string)
    requires !EndsIn(a, '\\')
    ensures Splice(a + "\n" + b) == Splice(a) + "\n" + Splice(b)
  {
    var s := a + "\n" + b;
    if a == "" {
      assert s[0] == '\n' && s[1..] == b;
      if |s| >= 2 { assert s[..2][0] == '\n'; }
    } else if |a| >= 2 && a[..2] == SPLICE {
      assert s[..2] == SPLICE && s[2..] == a[2..] + "\n" + b;
      SpliceCut(a[2..], b);
    } else {
      assert s[1..] == a[1..] + "\n" + b;
      assert s[..2] != SPLICE by {
        if |a| == 1 { assert s[..2][0] == a[0]; } else { assert s[..2] == a[..2]; }
      }
      SpliceCut(a[1..], b);
    }
  }

  lemma LogicalLinesCut(a: string, b: string)
    requires !EndsIn(a, '\\')
    ensures LogicalLines(a + "\n" + b) == LogicalLines(a) + LogicalLines(b)
  {
    SpliceCut(a, b);
    SplitCut(Splice(a), '\n', Splice(b));
  }

  lemma EscapedLogicalLine(s: string)
    requires Escaped(s)
    ensures LogicalLines(s) == [Splice(s)]
  {
    EscapedIsOneLine(s);
    SplitNone(Splice(s), '\n');
  }

  lemma SingleLineIsLogical(s: string)
    requires SingleLine(s)
    ensures LogicalLines(s) == [s]
  {
    LacksCharacter(s, SPLICE, 1);
    SplitNone(s, '\n');
  }

  /** Lines that do not end in a backslash are the logical lines. */
  lemma {:induction false} LinedLogical(lines: seq<string>, last: string)
    requires SingleLines(lines) && SingleLine(last)
    requires forall l | l in lines :: !EndsIn(l, '\\')
    ensures LogicalLines(Lined(lines) + last) == lines + [last]
  {
    if lines == [] {
      assert Lined(lines) + last == last;
      SingleLineIsLogical(last);
    } else {
      var rest := Lined(lines[1..]) + last;
      assert lines[0] in lines;
      assert Lined(lines) + last == lines[0] + "\n" + rest;
      LogicalLinesCut(lines[0], rest);
      SingleLineIsLogical(lines[0]);
      assert SingleLines(lines[1..]);
      LinedLogical(lines[1..], last);
      assert lines == [lines[0]] + lines[1..];
    }
  }

  // ----- Lines continued with a backslash -----

  function Continued(lines: seq<string>): (c: seq<string>)
    ensures |c| == |lines| && forall i | 0 <= i < |lines| :: c[i] == lines[i] + "\\"
  {
    seq(|lines|, i requires 0 <= i < |lines| => lines[i] + "\\")
  }

  function Join(lines: seq<string>): string {
    if lines == [] then "" else lines[0] + Join(lines[1..])
  }

  lemma {:induction false} SpliceLine(x: string, rest: string)
    requires SingleLine(x)
    ensures Splice(x + SPLICE + rest) == x + Splice(rest)
  {
    var s := x + SPLICE + rest;
    if x == "" {
      assert s[..2] == SPLICE && s[2..] == rest;
    } else {
      assert s[1..] == x[1..] + SPLICE + rest;
      assert s[1] == if |x| >= 2 then x[1] else '\\';
      assert s[..2][1] != '\n';
      SpliceLine(x[1..], rest);
      assert x == [x[0]] + x[1..];
    }
  }

  /** Lines that are continued make one line of what they hold. */
  lemma {:induction false} SpliceContinued(lines: seq<string>, last: string)
    requires SingleLines(lines) && SingleLine(last)
    ensures Splice(Lined(Continued(lines)) + last) == Join(lines) + last
  {
    if lines == [] {
      assert Lined(Continued(lines)) + last == last;
      LacksCharacter(last, SPLICE, 1);
    } else {
      var c := Continued(lines);
      assert c[1..] == Continued(lines[1..]);
      assert lines[0] in lines && SingleLines(lines[1..]);
      assert c[0] + "\n" == lines[0] + SPLICE;
      Associate(lines[0] + SPLICE, Lined(c[1..]), last);
      SpliceLine(lines[0], Lined(c[1..]) + last);
      SpliceContinued(lines[1..], last);
      Associate(lines[0], Join(lines[1..]), last);
    }
  }

  lemma ContinuedConcat(a: seq<string>, b: seq<string>)
    ensures Continued(a + b) == Continued(a) + Continued(b)
  {
  }

  /** A text of lines without its last newline. */
  lemma LinedInit(lines: seq<string>)
    requires lines != []
    ensures var n := |lines| - 1;
            Lined(lines) == Lined(lines[..n]) + lines[n] + "\n"
  {
    var n := |lines| - 1;
    assert lines == lines[..n] + [lines[n]];
    OneLine(lines[n]);
    LinedConcat(lines[..n], [lines[n]]);
  }
}
