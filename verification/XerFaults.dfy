/** Where the parser stops: line ends on any text, and the first line it refuses, told from
    the lines before it. */
module XerFaults {
  import opened Sequences
  import opened XerText

  // ----- Lines ---------------------------------------------------------------------------------

  /** What ends a line: one break, or a carriage return and line feed together; a carriage
      return is not parted from a line feed after it. */
  predicate Ends(sep: string, rest: string) {
    || sep == "\r\n"
    || (|sep| == 1 && IsBreak(sep[0]) && !(sep == "\r" && rest != "" && rest[0] == '\n'))
  }

  /** Lines are what stands before each end; nothing follows the last one. */
  lemma SplitLinesAre(line: string, sep: string, rest: string)
    requires OneLine(line) && Ends(sep, rest)
    ensures SplitLines(line + sep + rest) == [line] + SplitLines(rest)
    ensures SplitLines(line) == if line == "" then [] else [line]
  {
    var s, n := line + sep + rest, |line|;
    assert forall i :: 0 <= i < n ==> s[i] == line[i];
    assert s[n] == sep[0] && s[..n] == line && s[n + |sep|..] == rest;
    assert IsBreak('\r');
    hide IsBreak;
    assert LineEnd(s) == n && LineEnd(line) == n;
    if |sep| == 2 {
      assert s[n + 1] == sep[1];
    } else if n + 1 < |s| {
      assert s[n + 1] == rest[0];
    }
  }

  // ----- Faults ---------------------------------------------------------------------------------

  function TagCell(line: string): string {
    Split(line, '\t')[0]
  }

  /** Before line `i` a table has been opened that no end mark has closed. */
  ghost predicate TableOpen(lines: seq<string>, i: nat)
    requires i <= |lines|
  {
    exists k :: 0 <= k < i && TagCell(lines[k]) == "%T" && forall j :: k < j < i ==> TagCell(lines[j]) != "%E"
  }

  /** The field list in force at line `i` is line `k`: no table, field list or end mark comes
      between. */
  ghost predicate FieldsAt(lines: seq<string>, i: nat, k: int)
    requires i <= |lines|
  {
    && 0 <= k < i && TagCell(lines[k]) == "%F"
    && forall j :: k < j < i ==> TagCell(lines[j]) !in {"%T", "%F", "%E"}
  }

  ghost predicate HasFields(lines: seq<string>, i: nat)
    requires i <= |lines|
  {
    exists k :: FieldsAt(lines, i, k)
  }

  /** What is wrong with line `i`, if anything. */
  ghost predicate Faulty(lines: seq<string>, i: nat, why: Why)
    requires i < |lines|
  {
    match why
    case NoTableName => lines[i] == "%T"
    case RowBeforeHeader => TagCell(lines[i]) == "%R" && !(TableOpen(lines, i) && HasFields(lines, i))
    case WidthMismatch =>
      && TagCell(lines[i]) == "%R" && TableOpen(lines, i)
      && exists k :: FieldsAt(lines, i, k) && |Split(lines[i], '\t')| != |Split(lines[k], '\t')|
  }

  lemma Tags(s: string)
    ensures TagOf(s) == TableTag <==> s == "%T"
    ensures TagOf(s) == FieldsTag <==> s == "%F"
    ensures TagOf(s) == RowTag <==> s == "%R"
    ensures TagOf(s) == EndTag <==> s == "%E"
  {
    TagsDiffer();
  }

  /** The parser's state tells what the lines so far do. */
  ghost predicate Knows(lines: seq<string>, i: nat, st: State)
    requires i <= |lines|
  {
    && (st.current.Some? <==> TableOpen(lines, i))
    && (forall k :: FieldsAt(lines, i, k) ==> st.fields == Some(Split(lines[k], '\t')[1..]))
    && (st.fields.Some? ==> HasFields(lines, i))
  }

  lemma KnowsNext(lines: seq<string>, i: nat, st: State, next: State)
    requires i < |lines| && Knows(lines, i, st) && Step(st, lines[i], i + 1) == Ok(next)
    ensures Knows(lines, i + 1, next)
  {
    Tags(TagCell(lines[i]));
    var tag := TagCell(lines[i]);
    OpenNext(lines, i);
    hide Split, Zip, Stripped, TableOpen, TagOf;
    forall k | FieldsAt(lines, i + 1, k) ensures next.fields == Some(Split(lines[k], '\t')[1..]) {
      FieldsNext(lines, i, k);
    }
    if next.fields.Some? {
      StillFields(lines, i, st);
    }
  }

  lemma StillFields(lines: seq<string>, i: nat, st: State)
    requires i < |lines| && (st.fields.Some? ==> HasFields(lines, i))
    ensures var tag := TagCell(lines[i]);
            tag == "%F" || (tag !in {"%T", "%F", "%E"} && st.fields.Some?) ==> HasFields(lines, i + 1)
  {
    hide FieldsAt, TagCell;
    if TagCell(lines[i]) == "%F" {
      FieldsNext(lines, i, i);
    } else if st.fields.Some? {
      var k :| FieldsAt(lines, i, k);
      FieldsNext(lines, i, k);
    }
  }

  lemma OpenNext(lines: seq<string>, i: nat)
    requires i < |lines|
    ensures var tag := TagCell(lines[i]);
            TableOpen(lines, i + 1) <==> tag == "%T" || (tag != "%E" && TableOpen(lines, i))
  {
    var tag := TagCell(lines[i]);
    assert "%T" != "%E" by { assert "%T"[1] != "%E"[1]; }
    hide TagCell;
    if k :| 0 <= k < i && TagCell(lines[k]) == "%T" && forall j :: k < j < i ==> TagCell(lines[j]) != "%E" {
      if tag != "%E" {
        assert forall j :: k < j < i + 1 ==> TagCell(lines[j]) != "%E";
      }
    }
  }

  lemma FieldsNext(lines: seq<string>, i: nat, k: int)
    requires i < |lines|
    ensures var tag := TagCell(lines[i]);
            FieldsAt(lines, i + 1, k) <==>
              (tag == "%F" && k == i) || (tag !in {"%T", "%F", "%E"} && FieldsAt(lines, i, k))
  {
    hide TagCell;
    if FieldsAt(lines, i + 1, k) && k < i {
      assert forall j :: k < j < i ==> TagCell(lines[j]) !in {"%T", "%F", "%E"};
    }
    if FieldsAt(lines, i, k) && TagCell(lines[i]) !in {"%T", "%F", "%E"} {
      assert forall j :: k < j < i + 1 ==> TagCell(lines[j]) !in {"%T", "%F", "%E"};
    }
  }

  /** A line is refused exactly for its fault, and under its own number. */
  lemma StepFault(lines: seq<string>, i: nat, st: State, n: nat, why: Why)
    requires i < |lines| && Knows(lines, i, st)
    ensures Step(st, lines[i], i + 1) == Error(n, why) <==> n == i + 1 && Faulty(lines, i, why)
  {
    Tags(TagCell(lines[i]));
    SplitOne(lines[i]);
    hide Split, Zip, Stripped, TableOpen, FieldsAt, TagOf, AddRows;
  }

  lemma SplitOne(line: string)
    ensures TagCell(line) == "%T" && |Split(line, '\t')| == 1 <==> line == "%T"
  {
    JoinSplit(line);
    SplitCell("%T", "", '\t');
    hide Split;
    assert Join(["%T"], '\t') == "%T";
    if |Split(line, '\t')| == 1 {
      assert Split(line, '\t') == [TagCell(line)];
    }
  }

  lemma {:induction false} JoinSplit(s: string)
    ensures Join(Split(s, '\t'), '\t') == s
  {
    if s != "" {
      JoinSplit(s[1..]);
      var rest := Split(s[1..], '\t');
      if s[0] == '\t' {
        assert ([""] + rest)[1..] == rest;
      } else {
        assert ([[s[0]] + rest[0]] + rest[1..])[1..] == rest[1..];
      }
    }
  }

  ghost predicate NoFault(lines: seq<string>, i: nat)
    requires i <= |lines|
  {
    forall j, w :: 0 <= j < i ==> !Faulty(lines, j, w)
  }

  lemma NoFaultYet(lines: seq<string>, i: nat, st: State)
    requires i < |lines| && NoFault(lines, i) && Knows(lines, i, st) && Step(st, lines[i], i + 1).Ok?
    ensures NoFault(lines, i + 1)
  {
    hide Step, Knows, Faulty;
    forall j, w | 0 <= j < i + 1 ensures !Faulty(lines, j, w) {
      if j == i {
        StepFault(lines, i, st, i + 1, w);
      }
    }
  }

  lemma {:induction false} RunsUpTo(lines: seq<string>, i: nat)
    requires i <= |lines|
    ensures var r := Run(START, lines[..i], 1);
            && (r.Ok? ==> Knows(lines, i, r.value) && NoFault(lines, i))
            && (forall n, why :: r == Error(n, why) <==> FirstFault(lines, i, n, why))
  {
    hide Step, Knows, Faulty;
    if i == 0 {
      NothingKnown(lines);
      assert lines[..0] == [];
    } else {
      var r := Run(START, lines[..i - 1], 1);
      RunsUpTo(lines, i - 1);
      assert lines[..i] == lines[..i - 1] + [lines[i - 1]];
      RunAppend(START, lines[..i - 1], [lines[i - 1]], 1);
      hide Run;
      if r.Ok? {
        RunOne(r.value, lines[i - 1], i);
        forall n: nat, why
          ensures Step(r.value, lines[i - 1], i) == Error(n, why) <==> n == i && Faulty(lines, i - 1, why)
        {
          StepFault(lines, i - 1, r.value, n, why);
        }
        if Step(r.value, lines[i - 1], i).Ok? {
          KnowsNext(lines, i - 1, r.value, Step(r.value, lines[i - 1], i).value);
          NoFaultYet(lines, i - 1, r.value);
        }
      }
    }
  }

  lemma RunOne(st: State, line: string, lineno: nat)
    ensures Run(st, [line], lineno) == Step(st, line, lineno)
  {
    hide Step;
    assert [line][1..] == [];
  }

  lemma NothingKnown(lines: seq<string>)
    ensures Knows(lines, 0, START)
  {
  }

  /** Among the first `i` lines the `n`-th is faulty and none before it is. */
  ghost predicate FirstFault(lines: seq<string>, i: nat, n: nat, why: Why)
    requires i <= |lines|
  {
    1 <= n <= i && Faulty(lines, n - 1, why) && forall j, w :: 0 <= j < n - 1 ==> !Faulty(lines, j, w)
  }

  /** Parsing fails exactly at the first faulty line, under its number and for its fault. */
  lemma ParseFailsIff(text: string, n: nat, why: Why)
    ensures ParseText(text) == Error(n, why) <==> FirstFault(SplitLines(text), |SplitLines(text)|, n, why)
  {
    var lines := SplitLines(text);
    assert lines[..|lines|] == lines;
    hide SplitLines, FirstFault;
    RunsUpTo(lines, |lines|);
    hide Run;
  }
}
