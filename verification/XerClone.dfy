/** The schedule cloner at the level of the file: the loop that sets the cloned tables
    aside, the loops that write them back again and again, and what a parser then reads. */
module XerClone {
  import opened Sequences
  import opened Numerals
  import opened XerText
  import opened CloneCheck

  const CLONED: set<string> := {"TASK", "TASKPRED", "TASKRSRC", "UDFVALUE"}
  const EMITTED: seq<string> := ["TASK", "TASKPRED", "TASKRSRC", "UDFVALUE"]
  const SHIFTED: seq<string> := ["task_id", "task_pred_id", "pred_task_id", "taskrsrc_id", "fk_id"]
  const CODE := "task_code"

  type Cells = seq<string>

  /** `int(c)` on optionally signed ASCII digits; anything else raises. */
  function IntOf(c: string): Option<int> {
    var s := Strip(c);
    if s == "" then None
    else if AllDigits(s) then Some(Value(s))
    else if |s| > 1 && s[0] in {'-', '+'} && AllDigits(s[1..]) then
      var v: int := Value(s[1..]);
      Some(if s[0] == '-' then -v else v)
    else None
  }

  /** `str(v)`. */
  function Show(v: int): string {
    if v < 0 then "-" + Dec(-v) else Dec(v)
  }

  /** A shown number is read back; so is one with a plus, or with blanks around it; a sign
      alone is no number. */
  lemma IntOfShown(v: int, n: nat, c: string)
    ensures IntOf(Show(v)) == Some(v) && (v >= 0 ==> Show(v) == Dec(v))
    ensures IntOf("+" + Dec(n)) == Some(n)
    ensures IntOf(Strip(c)) == IntOf(c)
    ensures IntOf("").None? && IntOf("-").None? && IntOf("+").None?
  {
    hide IntOf, Strip, Dec;
    SignedDigits("-", if v < 0 then -v else v);
    SignedDigits("+", n);
    StrippedSame(c);
    SignAlone();
  }

  lemma StrippedSame(c: string)
    ensures IntOf(Strip(c)) == IntOf(c)
  {
    StripTwice(c);
    hide Strip, Value, AllDigits;
  }

  lemma SignAlone()
    ensures IntOf("").None? && IntOf("-").None? && IntOf("+").None?
  {
    StripFixes("");
    StripFixes("-");
    StripFixes("+");
    hide Strip;
    assert !AllDigits("-") && !AllDigits("+") by {
      assert !IsDigit("-"[0]) && !IsDigit("+"[0]);
    }
  }

  lemma SignedDigits(sign: string, n: nat)
    requires sign == "-" || sign == "+"
    ensures IntOf(sign + Dec(n)) == Some(if sign == "-" then 0 - n else n) && IntOf(Dec(n)) == Some(n)
  {
    hide Strip, Dec, Value;
    var s, digits := sign + Dec(n), Dec(n);
    ValueOfDec(n);
    assert IsDigit(digits[0]) && IsDigit(digits[|digits| - 1]);
    assert s[0] == sign[0] && s[1..] == digits && s[|s| - 1] == digits[|digits| - 1];
    KeptBySpace(s);
    KeptBySpace(digits);
    hide IsSpace;
  }

  lemma KeptBySpace(s: string)
    requires s != "" && (IsDigit(s[0]) || s[0] == '-' || s[0] == '+') && IsDigit(s[|s| - 1])
    ensures Strip(s) == s
  {
    StripFixes(s);
    hide Strip;
  }

  lemma StripTwice(c: string)
    ensures Strip(Strip(c)) == Strip(c)
  {
    StripIs(c);
    var i, j :| IsStripped(c, i, j) && Strip(c) == c[i..j];
    StripFixes(Strip(c));
    hide Strip;
  }

  predicate Begins(line: string, c: char) {
    |line| >= 2 && line[0] == '%' && line[1] == c
  }

  predicate Blank(line: string) {
    Strip(line) == ""
  }

  function Tail(cells: Cells): Cells {
    if cells == [] then [] else cells[1..]
  }

  // ----- Partition ------------------------------------------------------------------------

  /** What the partition loop has gathered: lines kept as they are, and for each cloned
      table its header text and its rows, the field list first. */
  datatype Parts = Parts(
      out: seq<string>, table: Option<string>, headers: map<string, string>, rows: map<string, seq<Cells>>) {
    predicate Valid() {
      && rows.Keys == CLONED
      && (InCloned() ==> table.value in headers)
    }

    predicate InCloned() {
      table.Some? && table.value in CLONED
    }
  }

  const NOTHING_YET: Parts := Parts([], None, map[], map t: string | t in CLONED :: [])

  /** What one line does. A table line without a name raises. */
  function Sift(p: Parts, line: string): (r: Option<Parts>)
    requires p.Valid()
    ensures r.Some? ==> r.value.Valid()
  {
    var cells := Split(line, '\t');
    if Begins(line, 'T') then
      if |cells| < 2 then None
      else if cells[1] in CLONED then Some(p.(table := Some(cells[1]), headers := p.headers[cells[1] := line]))
      else Some(p.(table := Some(cells[1]), out := p.out + [line]))
    else if p.InCloned() then
      var t := p.table.value;
      if Begins(line, 'F') then
        Some(p.(headers := p.headers[t := p.headers[t] + "\n" + line],
                rows := p.rows[t := p.rows[t] + [["%FIELDS%"] + cells[1..]]]))
      else if Begins(line, 'R') then Some(p.(rows := p.rows[t := p.rows[t] + [cells[1..]]]))
      else if Blank(line) then Some(p)
      else Some(p.(out := p.out + [line]))
    else Some(p.(out := p.out + [line]))
  }

  /** A line raises exactly when it opens a table and has no second cell to name it. */
  lemma SiftRaisesIff(p: Parts, line: string)
    requires p.Valid()
    ensures Sift(p, line).None? <==> "%T" <= line && Lacks(line, '\t')
  {
    SplitCount(line, '\t');
    hide Split;
  }

  lemma {:induction false} SplitCount(s: string, sep: char)
    ensures |Split(s, sep)| == 1 <==> Lacks(s, sep)
  {
    if s != "" {
      SplitCount(s[1..], sep);
      assert Lacks(s, sep) <==> s[0] != sep && Lacks(s[1..], sep) by {
        assert forall i :: 1 <= i < |s| ==> s[i] == s[1..][i - 1];
      }
    }
  }

  function SiftAll(p: Parts, lines: seq<string>): (r: Option<Parts>)
    requires p.Valid()
    ensures r.Some? ==> r.value.Valid()
    decreases |lines|
  {
    if lines == [] then Some(p)
    else
      var next := Sift(p, lines[0]);
      if next.None? then None else SiftAll(next.value, lines[1..])
  }

  /** The partition loop. */
  method Partition(lines: seq<string>) returns (r: Option<Parts>)
    ensures r == SiftAll(NOTHING_YET, lines)
  {
    var out: seq<string>, table: Option<string> := [], None;
    var rows: map<string, seq<Cells>> := map t: string | t in CLONED :: [];
    var headers: map<string, string> := map[];
    for i := 0 to |lines|
      invariant Parts(out, table, headers, rows).Valid()
      invariant SiftAll(NOTHING_YET, lines) == SiftAll(Parts(out, table, headers, rows), lines[i..])
    {
      ghost var before := Parts(out, table, headers, rows);
      var line := lines[i];
      SiftNext(before, lines, i);
      var cells := Split(line, '\t');
      if Begins(line, 'T') {
        if |cells| < 2 {
          return None;
        }
        table := Some(cells[1]);
        if cells[1] in CLONED {
          headers := headers[cells[1] := line];
          continue;
        }
      } else if table.Some? && table.value in CLONED {
        var t := table.value;
        if Begins(line, 'F') {
          headers := headers[t := headers[t] + "\n" + line];
          rows := rows[t := rows[t] + [["%FIELDS%"] + cells[1..]]];
          continue;
        }
        if Begins(line, 'R') {
          rows := rows[t := rows[t] + [cells[1..]]];
          continue;
        }
        if Blank(line) {
          continue;
        }
      }
      out := out + [line];
    }
    r := Some(Parts(out, table, headers, rows));
  }

  lemma SiftNext(p: Parts, lines: seq<string>, i: nat)
    requires p.Valid() && i < |lines|
    ensures SiftAll(p, lines[i..]) ==
            match Sift(p, lines[i]) case None => None case Some(next) => SiftAll(next, lines[i + 1..])
  {
    hide Sift;
    assert lines[i..][0] == lines[i] && lines[i..][1..] == lines[i + 1..];
  }

  // ----- Emit ---------------------------------------------------------------------------------

  /** `{name: i for i, name in enumerate(fields)}`: the last column of a name stands. */
  function IndexOf(fields: Cells): map<string, nat> {
    if fields == [] then map[]
    else
      var n := |fields| - 1;
      IndexOf(fields[..n])[fields[n] := n]
  }

  /** Shift the cell of one column, when there is one and it is not empty. */
  function ShiftColumn(idx: map<string, nat>, k: nat, r: Cells, col: string): Option<Cells> {
    if col !in idx then Some(r)
    else if idx[col] >= |r| then None
    else if r[idx[col]] == "" then Some(r)
    else
      var v := IntOf(r[idx[col]]);
      if v.None? then None else Some(r[idx[col] := Show(v.value + k * STRIDE)])
  }

  /** The id columns from the `c`-th on shifted. */
  function ShiftColumns(idx: map<string, nat>, k: nat, r: Cells, c: nat): Option<Cells>
    requires c <= |SHIFTED|
    decreases |SHIFTED| - c
  {
    if c == |SHIFTED| then Some(r)
    else
      var r2 := ShiftColumn(idx, k, r, SHIFTED[c]);
      if r2.None? then None else ShiftColumns(idx, k, r2.value, c + 1)
  }

  function Recode(idx: map<string, nat>, k: nat, r: Cells): Option<Cells> {
    if k > 0 && CODE in idx then
      if idx[CODE] >= |r| then None else Some(r[idx[CODE] := Coded(k, r[idx[CODE]])])
    else Some(r)
  }

  /** The first copy keeps its codes, however short its rows are; a later one raises on a row
      too short to have one. */
  lemma RecodeRaisesIff(idx: map<string, nat>, k: nat, r: Cells)
    ensures Recode(idx, 0, r) == Some(r)
    ensures Recode(idx, k, r).None? <==> k > 0 && CODE in idx && |r| <= idx[CODE]
  {
  }

  function CloneRow(idx: map<string, nat>, k: nat, r: Cells): Option<Cells> {
    var r2 := ShiftColumns(idx, k, r, 0);
    if r2.None? then None else Recode(idx, k, r2.value)
  }

  function CloneRows(idx: map<string, nat>, k: nat, data: seq<Cells>): Option<seq<Cells>>
    decreases |data|
  {
    if data == [] then Some([])
    else
      var n := |data| - 1;
      var before, last := CloneRows(idx, k, data[..n]), CloneRow(idx, k, data[n]);
      if before.None? || last.None? then None else Some(before.value + [last.value])
  }

  function CloneTimes(idx: map<string, nat>, data: seq<Cells>, n: nat): Option<seq<Cells>> {
    if n == 0 then Some([])
    else
      var before, last := CloneTimes(idx, data, n - 1), CloneRows(idx, n - 1, data);
      if before.None? || last.None? then None else Some(before.value + last.value)
  }

  function EmittedTable(p: Parts, table: string, clones: nat): Option<seq<string>> {
    if table !in p.headers || table !in p.rows || p.rows[table] == [] then None
    else
      var rows := CloneTimes(IndexOf(Tail(p.rows[table][0])), p.rows[table][1..], clones);
      if rows.None? then None else Some([p.headers[table]] + RowLines(rows.value))
  }

  function EmittedTables(p: Parts, clones: nat, n: nat): Option<seq<string>>
    requires n <= |EMITTED|
  {
    if n == 0 then Some([])
    else
      var before, last := EmittedTables(p, clones, n - 1), EmittedTable(p, EMITTED[n - 1], clones);
      if before.None? || last.None? then None else Some(before.value + last.value)
  }

  /** The cloned file's text, or nothing when the script raises. */
  function CloneText(text: string, clones: nat): Option<string> {
    var p := SiftAll(NOTHING_YET, Split(text, '\n'));
    if p.None? then None
    else
      var tables := EmittedTables(p.value, clones, |EMITTED|);
      if tables.None? then None else Some(Unlines(p.value.out + tables.value))
  }

  /** One row of clone `k`: the id columns overwritten one after another, then the code. */
  method EmitRow(idx: map<string, nat>, k: nat, r: Cells) returns (res: Option<Cells>)
    ensures res == CloneRow(idx, k, r)
  {
    var r2 := r;
    for c := 0 to |SHIFTED|
      invariant ShiftColumns(idx, k, r, 0) == ShiftColumns(idx, k, r2, c)
    {
      var col := SHIFTED[c];
      if col in idx {
        if idx[col] >= |r2| {
          return None;
        }
        if r2[idx[col]] != "" {
          var v := IntOf(r2[idx[col]]);
          if v.None? {
            return None;
          }
          r2 := r2[idx[col] := Show(v.value + k * STRIDE)];
        }
      }
    }
    if k > 0 && CODE in idx {
      if idx[CODE] >= |r2| {
        return None;
      }
      r2 := r2[idx[CODE] := Coded(k, r2[idx[CODE]])];
    }
    res := Some(r2);
  }

  /** The clones of one table: copy after copy, row after row. */
  method Emit(p: Parts, table: string, clones: nat) returns (res: Option<seq<string>>)
    ensures res == EmittedTable(p, table, clones)
  {
    hide CloneRow, CloneRows, CloneTimes, IndexOf, RowLines;
    if table !in p.headers || table !in p.rows || p.rows[table] == [] {
      return None;
    }
    var out := [p.headers[table]];
    var data := p.rows[table][1..];
    var idx := IndexOf(Tail(p.rows[table][0]));
    ghost var header, all := out, [];
    NothingCloned(idx, data);
    for k := 0 to clones
      invariant CloneTimes(idx, data, k) == Some(all)
      invariant out == header + RowLines(all)
    {
      ghost var copied := [];
      assert data[..0] == [] && all + [] == all;
      for i := 0 to |data|
        invariant CloneRows(idx, k, data[..i]) == Some(copied)
        invariant out == header + RowLines(all + copied)
      {
        var r2 := EmitRow(idx, k, data[i]);
        RowCloned(idx, k, data, i, copied);
        if r2.None? {
          RowsRaise(idx, k, data, i + 1);
          TimesCloned(idx, data, k, all);
          TimesRaise(idx, data, k + 1, clones);
          return None;
        }
        out := out + [Line("%R", r2.value)];
        RowLinesSnoc(all + copied, r2.value);
        assert all + (copied + [r2.value]) == all + copied + [r2.value];
        copied := copied + [r2.value];
      }
      assert data[..|data|] == data;
      TimesCloned(idx, data, k, all);
      all := all + copied;
    }
    res := Some(out);
  }

  lemma NothingCloned(idx: map<string, nat>, data: seq<Cells>)
    ensures CloneTimes(idx, data, 0) == Some([]) && RowLines([]) == [] && forall k :: CloneRows(idx, k, []) == Some([])
  {
  }

  lemma RowCloned(idx: map<string, nat>, k: nat, data: seq<Cells>, i: nat, copied: seq<Cells>)
    requires i < |data| && CloneRows(idx, k, data[..i]) == Some(copied)
    ensures CloneRows(idx, k, data[..i + 1]) ==
            match CloneRow(idx, k, data[i]) case None => None case Some(r) => Some(copied + [r])
  {
    hide CloneRow;
    assert data[..i + 1][..i] == data[..i] && data[..i + 1][i] == data[i];
  }

  lemma TimesCloned(idx: map<string, nat>, data: seq<Cells>, k: nat, all: seq<Cells>)
    requires CloneTimes(idx, data, k) == Some(all)
    ensures CloneTimes(idx, data, k + 1) ==
            match CloneRows(idx, k, data) case None => None case Some(rows) => Some(all + rows)
  {
    hide CloneRows;
  }

  lemma {:induction false} RowsRaise(idx: map<string, nat>, k: nat, data: seq<Cells>, i: nat)
    requires i <= |data| && CloneRows(idx, k, data[..i]).None?
    ensures CloneRows(idx, k, data).None?
    decreases |data|
  {
    if i < |data| {
      assert data[..|data| - 1][..i] == data[..i];
      RowsRaise(idx, k, data[..|data| - 1], i);
    } else {
      assert data[..i] == data;
    }
  }

  lemma {:induction false} TimesRaise(idx: map<string, nat>, data: seq<Cells>, k: nat, n: nat)
    requires k <= n && CloneTimes(idx, data, k).None?
    ensures CloneTimes(idx, data, n).None?
  {
    if k < n {
      TimesRaise(idx, data, k, n - 1);
    }
  }

  lemma RowLinesSnoc(rows: seq<Cells>, r: Cells)
    ensures RowLines(rows + [r]) == RowLines(rows) + [Line("%R", r)]
  {
    hide Line;
  }

  /** The whole script: partition, then emit the four tables in order. */
  method Clone(text: string, clones: nat) returns (res: Option<string>)
    ensures res == CloneText(text, clones)
  {
    hide EmittedTable;
    var p := Partition(Split(text, '\n'));
    if p.None? {
      return None;
    }
    var out := p.value.out;
    for n := 0 to |EMITTED|
      invariant EmittedTables(p.value, clones, n).Some?
      invariant out == p.value.out + EmittedTables(p.value, clones, n).value
    {
      var t := Emit(p.value, EMITTED[n], clones);
      if t.None? {
        EmitRaises(p.value, clones, n + 1);
        return None;
      }
      out := out + t.value;
    }
    res := Some(Unlines(out));
  }

  lemma {:induction false} EmitRaises(p: Parts, clones: nat, n: nat)
    requires n <= |EMITTED| && EmittedTables(p, clones, n).None?
    ensures EmittedTables(p, clones, |EMITTED|).None?
    decreases |EMITTED| - n
  {
    if n < |EMITTED| {
      EmitRaises(p, clones, n + 1);
    }
  }
}
