/** The XER text format: what the writer emits and what the line-driven parser reads
    back. */
module XerText {
  import opened Sequences

  type Row = map<string, string>
  type Tables = map<string, seq<Row>>

  // ----- Characters ------------------------------------------------------------------

  /** Where `str.splitlines` breaks a line. */
  predicate IsBreak(c: char) {
    c in {'\n', '\r', '\U{0B}', '\U{0C}', '\U{1C}', '\U{1D}', '\U{1E}', '\U{85}', '\U{2028}', '\U{2029}'}
  }

  /** What `str.strip` removes from the ends. */
  predicate IsSpace(c: char) {
    IsBreak(c) || c in {' ', '\t', '\U{1F}', '\U{A0}', '\U{1680}', '\U{202F}', '\U{205F}', '\U{3000}'}
        || '\U{2000}' <= c <= '\U{200A}'
  }

  predicate Clean(s: string) {
    forall i :: 0 <= i < |s| ==> s[i] != '\t' && !IsBreak(s[i])
  }

  predicate OneLine(s: string) {
    forall i :: 0 <= i < |s| ==> !IsBreak(s[i])
  }

  function StripLeft(s: string): string {
    if s != "" && IsSpace(s[0]) then StripLeft(s[1..]) else s
  }

  function StripRight(s: string): string {
    if s != "" && IsSpace(s[|s| - 1]) then StripRight(s[..|s| - 1]) else s
  }

  function Strip(s: string): string {
    StripRight(StripLeft(s))
  }

  /** `strip` leaves a text alone exactly when neither end is a space. */
  lemma StripFixes(s: string)
    ensures Strip(s) == s <==> s == "" || (!IsSpace(s[0]) && !IsSpace(s[|s| - 1]))
  {
    if s != "" && IsSpace(s[0]) {
      StripLeftShorter(s[1..]);
      StripRightShorter(StripLeft(s));
    } else if s != "" && IsSpace(s[|s| - 1]) {
      StripRightShorter(s[..|s| - 1]);
    }
  }

  /** `strip` takes off the blanks at both ends and nothing else. */
  lemma StripIs(s: string)
    ensures exists i, j :: IsStripped(s, i, j) && Strip(s) == s[i..j]
  {
    var i := StripLeftIs(s);
    var j := StripRightIs(s[i..]);
    assert s[i..][..j] == s[i..i + j];
    assert forall k :: i + j <= k < |s| ==> s[k] == s[i..][k - i];
    hide IsSpace;
    assert IsStripped(s, i, i + j);
  }

  /** From `i` up to `j` stands what has blanks before and after it and none at its ends. */
  ghost predicate IsStripped(s: string, i: int, j: int) {
    && 0 <= i <= j <= |s|
    && (forall k :: 0 <= k < i || j <= k < |s| ==> IsSpace(s[k]))
    && (i < j ==> !IsSpace(s[i]) && !IsSpace(s[j - 1]))
  }

  lemma {:induction false} StripLeftIs(s: string) returns (i: nat)
    ensures i <= |s| && StripLeft(s) == s[i..] && (forall k :: 0 <= k < i ==> IsSpace(s[k]))
    ensures i < |s| ==> !IsSpace(s[i])
  {
    i := 0;
    if s != "" && IsSpace(s[0]) {
      var n := StripLeftIs(s[1..]);
      hide IsSpace;
      i := n + 1;
      assert s[1..][n..] == s[i..];
    }
  }

  lemma {:induction false} StripRightIs(s: string) returns (j: nat)
    ensures j <= |s| && StripRight(s) == s[..j] && (forall k :: j <= k < |s| ==> IsSpace(s[k]))
    ensures j > 0 ==> !IsSpace(s[j - 1])
  {
    j := |s|;
    if s != "" && IsSpace(s[|s| - 1]) {
      j := StripRightIs(s[..|s| - 1]);
      hide IsSpace;
      assert s[..|s| - 1][..j] == s[..j];
    }
  }

  lemma StripLeftShorter(s: string)
    ensures |StripLeft(s)| <= |s|
  {
  }

  lemma StripRightShorter(s: string)
    ensures |StripRight(s)| <= |s|
  {
  }

  // ----- Cells and lines -----------------------------------------------------------------

  /** `s.split(sep)`. */
  function Split(s: string, sep: char): (cells: seq<string>)
    ensures cells != []
  {
    if s == "" then [""]
    else
      var rest := Split(s[1..], sep);
      if s[0] == sep then [""] + rest else [[s[0]] + rest[0]] + rest[1..]
  }

  /** `sep.join(cells)`. */
  function Join(cells: seq<string>, sep: char): string {
    if cells == [] then ""
    else if |cells| == 1 then cells[0]
    else cells[0] + [sep] + Join(cells[1..], sep)
  }

  predicate Lacks(s: string, sep: char) {
    forall i :: 0 <= i < |s| ==> s[i] != sep
  }

  lemma {:induction false} SplitCell(c: string, rest: string, sep: char)
    requires Lacks(c, sep)
    ensures Split(c + [sep] + rest, sep) == [c] + Split(rest, sep)
    ensures Split(c, sep) == [c]
  {
    if c == "" {
      assert c + [sep] + rest == [sep] + rest;
    } else {
      var tail := c[1..];
      SplitCell(tail, rest, sep);
      assert (c + [sep] + rest)[1..] == tail + [sep] + rest;
      assert [c[0]] + tail == c;
    }
  }

  /** Splitting undoes joining when no cell holds the separator. */
  lemma {:induction false} SplitJoin(cells: seq<string>, sep: char)
    requires cells != [] && forall i :: 0 <= i < |cells| ==> Lacks(cells[i], sep)
    ensures Split(Join(cells, sep), sep) == cells
  {
    if |cells| == 1 {
      SplitCell(cells[0], "", sep);
    } else {
      SplitCell(cells[0], Join(cells[1..], sep), sep);
      SplitJoin(cells[1..], sep);
    }
  }

  function LineEnd(s: string): (n: nat)
    ensures n <= |s|
    ensures forall i :: 0 <= i < n ==> !IsBreak(s[i])
    ensures n < |s| ==> IsBreak(s[n])
  {
    if s == "" || IsBreak(s[0]) then 0 else 1 + LineEnd(s[1..])
  }

  /** `text.splitlines()`: no empty line after a final break; a carriage return and line
      feed together are one break. */
  function SplitLines(s: string): seq<string>
    decreases |s|
  {
    if s == "" then []
    else
      var n := LineEnd(s);
      if n == |s| then [s]
      else if s[n] == '\r' && n + 1 < |s| && s[n + 1] == '\n' then [s[..n]] + SplitLines(s[n + 2..])
      else [s[..n]] + SplitLines(s[n + 1..])
  }

  /** `"\n".join(lines) + "\n"`. */
  function Unlines(lines: seq<string>): string {
    if lines == [] then "" else lines[0] + "\n" + Unlines(lines[1..])
  }

  lemma {:induction false} SplitUnlines(lines: seq<string>)
    requires forall i :: 0 <= i < |lines| ==> OneLine(lines[i])
    ensures SplitLines(Unlines(lines)) == lines
  {
    if lines != [] {
      var first, rest := lines[0], Unlines(lines[1..]);
      var s := first + "\n" + rest;
      SplitUnlines(lines[1..]);
      assert s[|first|] == '\n' && IsBreak(s[|first|]);
      assert LineEnd(s) == |first| by {
        assert forall i :: 0 <= i < |first| ==> s[i] == first[i];
      }
      assert s[..|first|] == first && s[|first| + 1..] == rest;
    }
  }

  // ----- The parser ------------------------------------------------------------------------

  datatype Why = NoTableName | RowBeforeHeader | WidthMismatch
  datatype Result<+T> = Ok(value: T) | Error(line: nat, why: Why)

  datatype State = State(tables: Tables, current: Option<string>, fields: Option<seq<string>>)

  const START := State(map[], None, None)

  /** `dict(zip(fields, values))`: a repeated field keeps its last value. */
  function Zip(fields: seq<string>, values: seq<string>): Row
    requires |fields| == |values|
  {
    if fields == [] then map[]
    else
      var n := |fields| - 1;
      Zip(fields[..n], values[..n])[fields[n] := values[n]]
  }

  function Stripped(cells: seq<string>): (r: seq<string>)
    ensures |r| == |cells| && forall i :: 0 <= i < |r| ==> r[i] == Strip(cells[i])
  {
    seq(|cells|, i requires 0 <= i < |cells| => Strip(cells[i]))
  }

  datatype Tag = TableTag | FieldsTag | RowTag | EndTag | OtherTag

  function TagOf(s: string): Tag {
    if s == "%T" then TableTag
    else if s == "%F" then FieldsTag
    else if s == "%R" then RowTag
    else if s == "%E" then EndTag
    else OtherTag
  }

  function AddRows(st: State, rows: seq<Row>): State
    requires st.current.Some?
  {
    var name := st.current.value;
    st.(tables := st.tables[name := (if name in st.tables then st.tables[name] else []) + rows])
  }

  /** What a line does, given its tag and the cells after it. */
  function Apply(st: State, tag: Tag, cells: seq<string>, lineno: nat): Result<State> {
    match tag
    case TableTag =>
      if cells == [] then Error(lineno, NoTableName)
      else Ok(State(st.tables[cells[0] := []], Some(cells[0]), None))
    case FieldsTag => Ok(st.(fields := Some(cells)))
    case RowTag =>
      if st.current.None? || st.fields.None? then Error(lineno, RowBeforeHeader)
      else if |cells| != |st.fields.value| then Error(lineno, WidthMismatch)
      else Ok(AddRows(st, [Zip(st.fields.value, Stripped(cells))]))
    case EndTag => Ok(State(st.tables, None, None))
    case OtherTag => Ok(st)
  }

  /** One line of the file. */
  function Step(st: State, line: string, lineno: nat): Result<State> {
    var cells := Split(line, '\t');
    Apply(st, TagOf(cells[0]), cells[1..], lineno)
  }

  function Run(st: State, lines: seq<string>, lineno: nat): Result<State>
    decreases |lines|
  {
    if lines == [] then Ok(st)
    else
      match Step(st, lines[0], lineno)
      case Error(n, why) => Error(n, why)
      case Ok(next) => Run(next, lines[1..], lineno + 1)
  }

  function ParseText(text: string): Result<Tables> {
    match Run(START, SplitLines(text), 1)
    case Error(n, why) => Error(n, why)
    case Ok(st) => Ok(st.tables)
  }

  /** The parser's loop over the lines, keeping the tables, the current table and its
      fields. */
  method Parse(text: string) returns (r: Result<Tables>)
    ensures r == ParseText(text)
  {
    hide Step;
    var lines := SplitLines(text);
    var st := START;
    for i := 0 to |lines|
      invariant Run(START, lines, 1) == Run(st, lines[i..], i + 1)
    {
      assert lines[i..][0] == lines[i] && lines[i..][1..] == lines[i + 1..];
      var next := Step(st, lines[i], i + 1);
      if next.Error? {
        return Error(next.line, next.why);
      }
      st := next.value;
    }
    r := Ok(st.tables);
  }

  // ----- The writer ---------------------------------------------------------------------------

  datatype Table = Table(name: string, fields: seq<string>, rows: seq<seq<string>>)

  function Line(tag: string, cells: seq<string>): string {
    Join([tag] + cells, '\t')
  }

  function RowLines(rows: seq<seq<string>>): (r: seq<string>)
    ensures |r| == |rows| && forall i :: 0 <= i < |r| ==> r[i] == Line("%R", rows[i])
  {
    if rows == [] then [] else [Line("%R", rows[0])] + RowLines(rows[1..])
  }

  function TableLines(t: Table): seq<string> {
    [Line("%T", [t.name]), Line("%F", t.fields)] + RowLines(t.rows)
  }

  function AllLines(ts: seq<Table>): seq<string> {
    if ts == [] then [] else TableLines(ts[0]) + AllLines(ts[1..])
  }

  /** Header line, tables, end mark. */
  function Render(header: string, ts: seq<Table>): string {
    Unlines([header] + AllLines(ts) + ["%E"])
  }

  predicate CleanCells(cells: seq<string>) {
    forall i :: 0 <= i < |cells| ==> Clean(cells[i])
  }

  /** What the format can carry: no tab or line break in any name or cell, and every row
      as wide as the field list. */
  predicate Writable(t: Table) {
    && Clean(t.name) && CleanCells(t.fields)
    && (forall i :: 0 <= i < |t.rows| ==> CleanCells(t.rows[i]) && |t.rows[i]| == |t.fields|)
  }

  predicate IsHeader(line: string) {
    OneLine(line) && TagOf(Split(line, '\t')[0]) == OtherTag
  }

  // ----- Round trip ------------------------------------------------------------------------------

  function ZipRows(fields: seq<string>, rows: seq<seq<string>>): (r: seq<Row>)
    requires forall i :: 0 <= i < |rows| ==> |rows[i]| == |fields|
    ensures |r| == |rows| && forall i :: 0 <= i < |r| ==> r[i] == Zip(fields, Stripped(rows[i]))
  {
    seq(|rows|, i requires 0 <= i < |rows| => Zip(fields, Stripped(rows[i])))
  }

  /** What the parser makes of a list of tables: a later table of a name replaces an
      earlier one. */
  function Collect(acc: Tables, ts: seq<Table>): Tables
    requires forall t :: t in ts ==> Writable(t)
    decreases |ts|
  {
    if ts == [] then acc
    else
      assert Writable(ts[0]);
      Collect(acc[ts[0].name := ZipRows(ts[0].fields, ts[0].rows)], ts[1..])
  }

  lemma TagsDiffer()
    ensures TagOf("%T") == TableTag && TagOf("%F") == FieldsTag && TagOf("%R") == RowTag && TagOf("%E") == EndTag
  {
    assert "%T"[1] == 'T' && "%F"[1] == 'F' && "%R"[1] == 'R' && "%E"[1] == 'E';
  }

  lemma SplitLine(tag: string, cells: seq<string>)
    requires Lacks(tag, '\t') && CleanCells(cells)
    ensures Split(Line(tag, cells), '\t') == [tag] + cells
  {
    var all := [tag] + cells;
    forall i | 0 <= i < |all| ensures Lacks(all[i], '\t') {
      if i > 0 { assert Clean(cells[i - 1]); }
    }
    SplitJoin(all, '\t');
  }

  /** A written line is read back as its tag and its cells. */
  lemma StepLine(st: State, tag: string, cells: seq<string>, lineno: nat)
    requires Lacks(tag, '\t') && CleanCells(cells)
    ensures Step(st, Line(tag, cells), lineno) == Apply(st, TagOf(tag), cells, lineno)
  {
    hide Apply, TagOf, Line, Split;
    SplitLine(tag, cells);
    assert ([tag] + cells)[1..] == cells;
  }

  lemma {:induction false} RunAppend(st: State, a: seq<string>, b: seq<string>, lineno: nat)
    ensures Run(st, a + b, lineno) ==
            match Run(st, a, lineno)
            case Error(n, why) => Error(n, why)
            case Ok(next) => Run(next, b, lineno + |a|)
    decreases |a|
  {
    hide Step;
    if a == [] {
      assert a + b == b;
    } else {
      assert (a + b)[1..] == a[1..] + b;
      match Step(st, a[0], lineno) {
        case Error(n, why) =>
        case Ok(next) => RunAppend(next, a[1..], b, lineno + 1);
      }
    }
  }

  lemma AddRowsTwice(st: State, a: seq<Row>, b: seq<Row>)
    requires st.current.Some?
    ensures AddRows(AddRows(st, a), b) == AddRows(st, a + b)
  {
    var name := st.current.value;
    var sofar := if name in st.tables then st.tables[name] else [];
    assert sofar + a + b == sofar + (a + b);
  }

  lemma AddNoRows(st: State)
    requires st.current.Some? && st.current.value in st.tables
    ensures AddRows(st, []) == st
  {
    var name := st.current.value;
    assert st.tables[name] + [] == st.tables[name];
    assert st.tables[name := st.tables[name]] == st.tables;
  }

  lemma StepRow(st: State, fields: seq<string>, row: seq<string>, lineno: nat)
    requires st.current.Some? && st.fields == Some(fields) && CleanCells(row) && |row| == |fields|
    ensures Step(st, Line("%R", row), lineno) == Ok(AddRows(st, [Zip(fields, Stripped(row))]))
  {
    hide Zip, Step, Line, CleanCells, AddRows;
    TagsDiffer();
    StepLine(st, "%R", row, lineno);
  }

  lemma AddRowsKeeps(st: State, rows: seq<Row>)
    requires st.current.Some?
    ensures var next := AddRows(st, rows);
            next.current == st.current && next.fields == st.fields && st.current.value in next.tables
  {
  }

  lemma ZipRowsCons(fields: seq<string>, rows: seq<seq<string>>)
    requires rows != [] && forall i :: 0 <= i < |rows| ==> |rows[i]| == |fields|
    ensures ZipRows(fields, rows) == [Zip(fields, Stripped(rows[0]))] + ZipRows(fields, rows[1..])
  {
    hide Zip, Stripped;
  }

  lemma {:induction false} RunRows(st: State, fields: seq<string>, rows: seq<seq<string>>, lineno: nat)
    requires st.current.Some? && st.fields == Some(fields) && st.current.value in st.tables
    requires forall i :: 0 <= i < |rows| ==> CleanCells(rows[i]) && |rows[i]| == |fields|
    ensures Run(st, RowLines(rows), lineno) == Ok(AddRows(st, ZipRows(fields, rows)))
    decreases |rows|
  {
    hide *;
    if rows == [] {
      AddNoRows(st);
      RunNone(st, lineno);
      assert RowLines(rows) == [] && ZipRows(fields, rows) == [];
    } else {
      var one := [Zip(fields, Stripped(rows[0]))];
      var next := AddRows(st, one);
      StepRow(st, fields, rows[0], lineno);
      AddRowsKeeps(st, one);
      RunRows(next, fields, rows[1..], lineno + 1);
      RowLinesCons(rows);
      RunCons(st, Line("%R", rows[0]), RowLines(rows[1..]), lineno, next);
      ZipRowsCons(fields, rows);
      AddRowsTwice(st, one, ZipRows(fields, rows[1..]));
    }
  }

  lemma RunNone(st: State, lineno: nat)
    ensures Run(st, [], lineno) == Ok(st)
  {
  }

  lemma RowLinesCons(rows: seq<seq<string>>)
    requires rows != []
    ensures RowLines(rows) == [Line("%R", rows[0])] + RowLines(rows[1..])
  {
  }

  lemma RunCons(st: State, line: string, rest: seq<string>, lineno: nat, next: State)
    requires Step(st, line, lineno) == Ok(next)
    ensures Run(st, [line] + rest, lineno) == Run(next, rest, lineno + 1)
  {
    hide Step;
    assert ([line] + rest)[1..] == rest;
  }

  ghost function Named(st: State, t: Table): State {
    State(st.tables[t.name := []], Some(t.name), None)
  }

  ghost function Headed(st: State, t: Table): State {
    Named(st, t).(fields := Some(t.fields))
  }

  ghost function Loaded(st: State, t: Table): State
    requires Writable(t)
  {
    State(st.tables[t.name := ZipRows(t.fields, t.rows)], Some(t.name), Some(t.fields))
  }

  lemma HeadSteps(st: State, t: Table, lineno: nat)
    requires Writable(t)
    ensures Step(st, Line("%T", [t.name]), lineno) == Ok(Named(st, t))
    ensures Step(Named(st, t), Line("%F", t.fields), lineno + 1) == Ok(Headed(st, t))
  {
    TagsDiffer();
    StepLine(st, "%T", [t.name], lineno);
    StepLine(Named(st, t), "%F", t.fields, lineno + 1);
    hide Step, Line, CleanCells, TagOf;
  }

  lemma HeadedRows(st: State, t: Table)
    requires Writable(t)
    ensures AddRows(Headed(st, t), ZipRows(t.fields, t.rows)) == Loaded(st, t)
  {
    var rows := ZipRows(t.fields, t.rows);
    hide ZipRows, Writable;
    assert [] + rows == rows;
    assert st.tables[t.name := []][t.name := rows] == st.tables[t.name := rows];
  }

  lemma RunTable(st: State, t: Table, lineno: nat)
    requires Writable(t)
    ensures Run(st, TableLines(t), lineno) == Ok(Loaded(st, t))
  {
    hide *;
    HeadSteps(st, t, lineno);
    RowsAfterHead(st, t, lineno + 2);
    TableLinesAre(t);
    RunCons(Named(st, t), Line("%F", t.fields), RowLines(t.rows), lineno + 1, Headed(st, t));
    RunCons(st, Line("%T", [t.name]), [Line("%F", t.fields)] + RowLines(t.rows), lineno, Named(st, t));
  }

  lemma RowsAfterHead(st: State, t: Table, lineno: nat)
    requires Writable(t)
    ensures Run(Headed(st, t), RowLines(t.rows), lineno) == Ok(Loaded(st, t))
  {
    hide Run, RowLines, ZipRows, AddRows, CleanCells;
    RunRows(Headed(st, t), t.fields, t.rows, lineno);
    HeadedRows(st, t);
  }

  lemma TableLinesAre(t: Table)
    ensures TableLines(t) == [Line("%T", [t.name])] + ([Line("%F", t.fields)] + RowLines(t.rows))
  {
  }

  lemma {:induction false} RunTables(st: State, ts: seq<Table>, lineno: nat)
    requires forall t :: t in ts ==> Writable(t)
    ensures var out := Run(st, AllLines(ts), lineno);
            out.Ok? && out.value.tables == Collect(st.tables, ts)
    decreases |ts|
  {
    hide TableLines, ZipRows, CleanCells;
    if ts != [] {
      assert Writable(ts[0]);
      RunTable(st, ts[0], lineno);
      RunAppend(st, TableLines(ts[0]), AllLines(ts[1..]), lineno);
      RunTables(Loaded(st, ts[0]), ts[1..], lineno + |TableLines(ts[0])|);
    }
  }

  lemma {:induction false} JoinOneLine(cells: seq<string>)
    requires forall i :: 0 <= i < |cells| ==> OneLine(cells[i])
    ensures OneLine(Join(cells, '\t'))
  {
    if |cells| > 1 {
      JoinOneLine(cells[1..]);
    }
  }

  lemma LineIsOne(tag: string, cells: seq<string>)
    requires OneLine(tag) && CleanCells(cells)
    ensures OneLine(Line(tag, cells))
  {
    var all := [tag] + cells;
    forall i | 0 <= i < |all| ensures OneLine(all[i]) {
      if i > 0 { assert Clean(cells[i - 1]); }
    }
    JoinOneLine(all);
  }

  lemma {:induction false} AllLinesAreLines(ts: seq<Table>)
    requires forall t :: t in ts ==> Writable(t)
    ensures forall i :: 0 <= i < |AllLines(ts)| ==> OneLine(AllLines(ts)[i])
  {
    if ts != [] {
      AllLinesAreLines(ts[1..]);
      var t := ts[0];
      assert Writable(t);
      LineIsOne("%T", [t.name]);
      LineIsOne("%F", t.fields);
      forall i | 0 <= i < |t.rows| ensures OneLine(RowLines(t.rows)[i]) {
        LineIsOne("%R", t.rows[i]);
      }
      hide OneLine, Line, Writable;
    }
  }

  /** Round trip. Parsing what was written gives back every table with its rows in order
      and its fields by name, each cell stripped; the header line is ignored, and a table
      name used twice keeps its last table. */
  lemma ParseRender(header: string, ts: seq<Table>)
    requires IsHeader(header) && forall t :: t in ts ==> Writable(t)
    ensures ParseText(Render(header, ts)) == Ok(Collect(map[], ts))
  {
    var body := AllLines(ts);
    AllLinesAreLines(ts);
    SplitUnlines([header] + body + ["%E"]);
    assert Step(START, header, 1) == Ok(START);
    RunTables(START, ts, 2);
    RunAppend(START, [header] + body, ["%E"], 1);
    RunAppend(START, [header], body, 1);
    RunOne(START, header, 1);
    EndMark(Run(START, body, 2).value, 2 + |body|);
    hide Step, Run, AllLines, Collect, SplitLines, Unlines, IsHeader;
  }

  lemma RunOne(st: State, line: string, lineno: nat)
    ensures Run(st, [line], lineno) == Step(st, line, lineno)
  {
    hide Step;
    assert [line][1..] == [];
  }

  lemma EndMark(st: State, lineno: nat)
    ensures Run(st, ["%E"], lineno) == Ok(State(st.tables, None, None))
  {
    TagsDiffer();
    StepLine(st, "%E", [], lineno);
    assert Line("%E", []) == "%E";
    RunOne(st, "%E", lineno);
  }

  ghost predicate DistinctNames(ts: seq<Table>) {
    forall i, j :: 0 <= i < j < |ts| ==> ts[i].name != ts[j].name
  }

  lemma {:induction false} CollectOthers(acc: Tables, ts: seq<Table>, name: string)
    requires forall t :: t in ts ==> Writable(t) && t.name != name
    ensures name in Collect(acc, ts) <==> name in acc
    ensures name in acc ==> Collect(acc, ts)[name] == acc[name]
    decreases |ts|
  {
    hide CleanCells, ZipRows;
    if ts != [] {
      assert Writable(ts[0]);
      CollectOthers(acc[ts[0].name := ZipRows(ts[0].fields, ts[0].rows)], ts[1..], name);
    }
  }

  /** With distinct names every table is read back under its own. */
  lemma {:induction false} CollectFinds(acc: Tables, ts: seq<Table>, k: nat)
    requires DistinctNames(ts) && (forall t :: t in ts ==> Writable(t)) && k < |ts|
    ensures Writable(ts[k]) && ts[k].name in Collect(acc, ts)
    ensures Collect(acc, ts)[ts[k].name] == ZipRows(ts[k].fields, ts[k].rows)
    decreases |ts|
  {
    hide CleanCells, ZipRows;
    assert Writable(ts[0]) && Writable(ts[k]);
    var next := acc[ts[0].name := ZipRows(ts[0].fields, ts[0].rows)];
    if k == 0 {
      CollectOthers(next, ts[1..], ts[0].name);
    } else {
      CollectFinds(next, ts[1..], k - 1);
    }
  }

  lemma {:induction false} CollectKeys(acc: Tables, ts: seq<Table>, name: string)
    requires forall t :: t in ts ==> Writable(t)
    ensures name in Collect(acc, ts) <==> name in acc || exists k :: 0 <= k < |ts| && ts[k].name == name
    decreases |ts|
  {
    hide CleanCells, ZipRows;
    if ts != [] {
      assert Writable(ts[0]);
      CollectKeys(acc[ts[0].name := ZipRows(ts[0].fields, ts[0].rows)], ts[1..], name);
      if k :| 0 <= k < |ts[1..]| && ts[1..][k].name == name { assert ts[k + 1].name == name; }
    }
  }

  lemma {:induction false} ZipLookup(fields: seq<string>, values: seq<string>, j: nat)
    requires |fields| == |values| && j < |fields| && NoDup(fields)
    ensures fields[j] in Zip(fields, values) && Zip(fields, values)[fields[j]] == values[j]
  {
    var n := |fields| - 1;
    if j < n {
      ZipLookup(fields[..n], values[..n], j);
    }
  }

  /** Cell by cell: with distinct table names and fields, what is read back under a field's
      name is what was written in its column, stripped. So nothing is lost exactly where
      no cell begins or ends with a space. */
  lemma CellsRoundTrip(header: string, ts: seq<Table>, k: nat, i: nat, j: nat)
    requires IsHeader(header) && DistinctNames(ts) && forall t :: t in ts ==> Writable(t)
    requires k < |ts| && i < |ts[k].rows| && j < |ts[k].fields| && NoDup(ts[k].fields)
    ensures var t, r := ts[k], ParseText(Render(header, ts));
            && r.Ok? && t.name in r.value && |r.value[t.name]| == |t.rows|
            && j < |t.rows[i]| && t.fields[j] in r.value[t.name][i]
            && r.value[t.name][i][t.fields[j]] == Strip(t.rows[i][j])
  {
    hide Render, Collect, ParseText, Zip;
    ParseRender(header, ts);
    CollectFinds(map[], ts, k);
    var t := ts[k];
    assert t in ts && Writable(t);
    ZipLookup(t.fields, Stripped(t.rows[i]), j);
  }
}
