/** What the cloner's text says: for a base file as the writer lays it out, the parser
    reads back every other table untouched and each cloned table as whole copies of the
    base's rows, one clone after another. */
module ClonedFile {
  import opened Sequences
  import opened Numerals
  import opened XerText
  import opened CloneCheck
  import opened XerClone

  // ----- One row -------------------------------------------------------------------------

  /** The cell under `field` in clone `k`. */
  function CloneCell(field: string, k: nat, c: string): string {
    if field in SHIFTED then Shift(k, c) else if field == CODE then Coded(k, c) else c
  }

  function RowClone(fields: Cells): nat -> (Cells -> Cells) {
    (k: nat) => (r: Cells) =>
      seq(|r|, j requires 0 <= j < |r| => if j < |fields| then CloneCell(fields[j], k, r[j]) else r[j])
  }

  /** As wide as the field list, ids empty or canonical, code trimmed. */
  predicate CanonicalRow(fields: Cells, r: Cells) {
    && |r| == |fields|
    && forall j :: 0 <= j < |r| ==>
         && (fields[j] in SHIFTED ==> Reference(r[j]))
         && (fields[j] == CODE ==> Strip(r[j]) == r[j])
  }

  lemma {:induction false} IndexOfIs(fields: Cells)
    requires NoDup(fields)
    ensures forall f :: f in IndexOf(fields) ==> IndexOf(fields)[f] < |fields| && fields[IndexOf(fields)[f]] == f
    ensures forall j :: 0 <= j < |fields| ==> fields[j] in IndexOf(fields) && IndexOf(fields)[fields[j]] == j
  {
    if fields != [] {
      IndexOfIs(fields[..|fields| - 1]);
    }
  }

  lemma StripDigits(c: string)
    requires AllDigits(c)
    ensures Strip(c) == c
  {
    StripFixes(c);
  }

  lemma IntOfCanonical(k: nat, c: string)
    requires Canonical(c)
    ensures c != "" && IntOf(c) == Some(Value(c)) && Show(Value(c) + k * STRIDE) == Shift(k, c)
  {
    StripDigits(c);
  }

  lemma CodeIsNotShifted()
    ensures CODE !in SHIFTED
  {
    assert CODE[5] == 'c';
  }

  /** Row `r2` is `r` with the first `c` id columns shifted. */
  ghost predicate ShiftedSoFar(fields: Cells, k: nat, r: Cells, r2: Cells, c: nat)
    requires c <= |SHIFTED|
  {
    && |r2| == |r| == |fields|
    && forall j :: 0 <= j < |r| ==> r2[j] == if fields[j] in SHIFTED[..c] then Shift(k, r[j]) else r[j]
  }

  lemma ShiftColumnIs(fields: Cells, k: nat, r: Cells, r2: Cells, c: nat)
    requires NoDup(fields) && CanonicalRow(fields, r) && c < |SHIFTED| && ShiftedSoFar(fields, k, r, r2, c)
    ensures var next := ShiftColumn(IndexOf(fields), k, r2, SHIFTED[c]);
            next.Some? && ShiftedSoFar(fields, k, r, next.value, c + 1)
  {
    hide IndexOf, IntOf, Show, Canonical, Shift;
    IndexOfIs(fields);
    DistinctColumns();
    var col := SHIFTED[c];
    assert SHIFTED[..c + 1] == SHIFTED[..c] + [col];
    assert col !in SHIFTED[..c];
    if col in IndexOf(fields) {
      var j := IndexOf(fields)[col];
      assert fields[j] in SHIFTED;
      assert r2[j] == r[j];
      if r[j] == "" {
        ShiftEmpty(k);
      } else {
        IntOfCanonical(k, r[j]);
      }
    }
  }

  lemma ShiftEmpty(k: nat)
    ensures Shift(k, "") == ""
  {
  }

  lemma DistinctColumns()
    ensures forall a, b :: 0 <= a < b < |SHIFTED| ==> SHIFTED[a] != SHIFTED[b]
  {
    assert SHIFTED[0][1] == 'a' && SHIFTED[1][1] == 'a' && SHIFTED[2][1] == 'r' && SHIFTED[3][1] == 'a'
           && SHIFTED[4][1] == 'k';
    assert |SHIFTED[0]| == 7 && |SHIFTED[1]| == 12 && |SHIFTED[3]| == 11;
  }

  lemma {:induction false} ShiftColumnsAre(fields: Cells, k: nat, r: Cells, r2: Cells, c: nat)
    requires NoDup(fields) && CanonicalRow(fields, r) && c <= |SHIFTED| && ShiftedSoFar(fields, k, r, r2, c)
    ensures var last := ShiftColumns(IndexOf(fields), k, r2, c);
            last.Some? && ShiftedSoFar(fields, k, r, last.value, |SHIFTED|)
    decreases |SHIFTED| - c
  {
    hide ShiftColumn, ShiftedSoFar, CanonicalRow, IndexOf;
    if c < |SHIFTED| {
      ShiftColumnIs(fields, k, r, r2, c);
      ShiftColumnsAre(fields, k, r, ShiftColumn(IndexOf(fields), k, r2, SHIFTED[c]).value, c + 1);
    }
  }

  /** Overwriting cell after cell makes the row whose every cell is the clone of the
      base's. */
  lemma CloneRowIs(fields: Cells, k: nat, r: Cells)
    requires NoDup(fields) && CanonicalRow(fields, r)
    ensures CloneRow(IndexOf(fields), k, r) == Some(RowClone(fields)(k)(r))
  {
    assert ShiftedSoFar(fields, k, r, r, 0);
    ShiftColumnsAre(fields, k, r, r, 0);
    RecodeIs(fields, k, r, ShiftColumns(IndexOf(fields), k, r, 0).value);
    hide IndexOf, CanonicalRow, ShiftColumns, ShiftedSoFar, RowClone, Recode;
  }

  lemma RecodeIs(fields: Cells, k: nat, r: Cells, r2: Cells)
    requires NoDup(fields) && ShiftedSoFar(fields, k, r, r2, |SHIFTED|)
    ensures Recode(IndexOf(fields), k, r2) == Some(RowClone(fields)(k)(r))
  {
    IndexOfIs(fields);
    CodeIsNotShifted();
    assert SHIFTED[..|SHIFTED|] == SHIFTED;
    hide IndexOf, Shift, Coded, SHIFTED, CODE, CloneCell;
    var r3 := Recode(IndexOf(fields), k, r2).value;
    forall j | 0 <= j < |r| ensures r3[j] == CloneCell(fields[j], k, r[j]) {
      CloneCellIs(fields[j], k, r[j]);
    }
    assert r3 == RowClone(fields)(k)(r);
  }

  lemma CloneCellIs(field: string, k: nat, c: string)
    ensures CloneCell(field, k, c) ==
            if field in SHIFTED then Shift(k, c) else if field == CODE && k > 0 then Coded(k, c) else c
  {
    hide SHIFTED, CODE;
  }

  // ----- One table --------------------------------------------------------------------------

  lemma {:induction false} CloneRowsAre(fields: Cells, k: nat, data: seq<Cells>)
    requires NoDup(fields) && forall r :: r in data ==> CanonicalRow(fields, r)
    ensures CloneRows(IndexOf(fields), k, data) == Some(Map(RowClone(fields)(k), data))
    decreases |data|
  {
    hide CloneRow, RowClone, CanonicalRow, IndexOf;
    var clone := RowClone(fields)(k);
    if data != [] {
      var n := |data| - 1;
      CloneRowsAre(fields, k, data[..n]);
      assert data[n] in data;
      CloneRowIs(fields, k, data[n]);
      assert Map(clone, data) == Map(clone, data[..n]) + [clone(data[n])];
    } else {
      assert Map(clone, data) == [];
    }
  }

  lemma {:induction false} CopiesSnoc<A>(clone: nat -> (A -> A), s: seq<A>, k: nat, n: nat)
    requires k <= n
    ensures Copies(clone, s, k, n + 1) == Copies(clone, s, k, n) + Map(clone(n), s)
    decreases n - k
  {
    if k < n {
      CopiesSnoc(clone, s, k + 1, n);
    } else {
      assert Copies(clone, s, n + 1, n + 1) == [];
    }
  }

  lemma {:induction false} CloneTimesAre(fields: Cells, data: seq<Cells>, n: nat)
    requires NoDup(fields) && forall r :: r in data ==> CanonicalRow(fields, r)
    ensures CloneTimes(IndexOf(fields), data, n) == Some(Copies(RowClone(fields), data, 0, n))
  {
    hide RowClone, CanonicalRow, IndexOf, CloneRows;
    if n > 0 {
      CloneTimesAre(fields, data, n - 1);
      CloneRowsAre(fields, n - 1, data);
      CopiesSnoc(RowClone(fields), data, 0, n - 1);
    }
  }

  function ClonedTable(t: Table, n: nat): Table {
    Table(t.name, t.fields, Copies(RowClone(t.fields), t.rows, 0, n))
  }

  /** A table the cloner takes: distinct fields, canonical rows. */
  ghost predicate Clonable(t: Table) {
    NoDup(t.fields) && forall r :: r in t.rows ==> CanonicalRow(t.fields, r)
  }

  function CellAt(j: nat): Cells -> string {
    (r: Cells) => if j < |r| then r[j] else ""
  }

  function ColumnOf(rows: seq<Cells>, j: nat): Cells {
    Map(CellAt(j), rows)
  }

  /** A column of distinct ids is distinct in the cloned table. */
  lemma ColumnStaysDistinct(t: Table, n: nat, j: nat)
    requires Clonable(t) && j < |t.fields| && t.fields[j] in SHIFTED
    requires NoDup(ColumnOf(t.rows, j)) && forall c :: c in ColumnOf(t.rows, j) ==> Canonical(c)
    ensures NoDup(ColumnOf(ClonedTable(t, n).rows, j))
  {
    hide Canonical, Copies, Shift, SHIFTED;
    forall k: nat, r | r in t.rows ensures CellAt(j)(RowClone(t.fields)(k)(r)) == Shifted(k)(CellAt(j)(r)) {
      assert CanonicalRow(t.fields, r);
      assert RowClone(t.fields)(k)(r)[j] == CloneCell(t.fields[j], k, r[j]);
    }
    MapCopies(CellAt(j), RowClone(t.fields), Shifted, t.rows, 0, n);
    IdsStayDistinct(ColumnOf(t.rows, j), 0, n);
  }

  /** The code column of the cloned table is distinct exactly when the base's is and no base
      code is spelled like the clone of another. */
  lemma CodeColumnDistinctIff(t: Table, n: nat, j: nat)
    requires Clonable(t) && j < |t.fields| && t.fields[j] == CODE && n >= 1
    ensures var codes := ColumnOf(t.rows, j);
            NoDup(ColumnOf(ClonedTable(t, n).rows, j)) <==> NoDup(codes) && CodesApart(codes, n)
  {
    CodeIsNotShifted();
    hide Canonical, Copies, Coded, SHIFTED, CODE, CodesApart, NoDup;
    forall k: nat, r | r in t.rows ensures CellAt(j)(RowClone(t.fields)(k)(r)) == CodedAs(k)(CellAt(j)(r)) {
      assert CanonicalRow(t.fields, r);
      assert RowClone(t.fields)(k)(r)[j] == CloneCell(t.fields[j], k, r[j]);
    }
    MapCopies(CellAt(j), RowClone(t.fields), CodedAs, t.rows, 0, n);
    CodesStayDistinctIff(ColumnOf(t.rows, j), n);
  }

  function HeadOf(t: Table): string {
    Line("%T", [t.name]) + "\n" + Line("%F", t.fields)
  }

  function RowsOf(t: Table): seq<Cells> {
    [["%FIELDS%"] + t.fields] + t.rows
  }

  /** The partition holds table `t`. */
  ghost predicate Holds(p: Parts, t: Table) {
    t.name in p.headers && t.name in p.rows && p.headers[t.name] == HeadOf(t) && p.rows[t.name] == RowsOf(t)
  }

  lemma EmittedTableIs(p: Parts, t: Table, n: nat)
    requires Holds(p, t) && Clonable(t)
    ensures EmittedTable(p, t.name, n) == Some([HeadOf(t)] + RowLines(ClonedTable(t, n).rows))
  {
    hide CloneTimes, RowClone, Copies, IndexOf, Line;
    assert p.rows[t.name][0] == ["%FIELDS%"] + t.fields;
    assert Tail(["%FIELDS%"] + t.fields) == t.fields;
    assert p.rows[t.name][1..] == t.rows;
    CloneTimesAre(t.fields, t.rows, n);
  }

  // ----- Cloned tables can be written ----------------------------------------------------------

  lemma DigitsAreClean(s: string)
    requires AllDigits(s)
    ensures Clean(s)
  {
  }

  lemma CodedIsClean(k: nat, c: string)
    requires Clean(c)
    ensures Clean(Coded(k, c))
  {
    if k > 0 {
      PaddedIs(k, 2);
      DigitsAreClean(Padded(k, 2));
    }
  }

  lemma CloneCellIsClean(field: string, k: nat, c: string)
    requires Clean(c)
    ensures Clean(CloneCell(field, k, c))
  {
    CodedIsClean(k, c);
    if c != "" && AllDigits(c) {
      DigitsAreClean(Dec(Value(c) + k * STRIDE));
    }
    hide Clean, Coded;
  }

  lemma ClonedIsWritable(t: Table, n: nat)
    requires Writable(t)
    ensures Writable(ClonedTable(t, n))
  {
    var c := ClonedTable(t, n);
    forall i | 0 <= i < |c.rows| ensures CleanCells(c.rows[i]) && |c.rows[i]| == |c.fields| {
      CopiesAre(RowClone(t.fields), t.rows, 0, n, c.rows[i]);
      hide Copies, CloneCell;
      var k, m :| 0 <= k < n && 0 <= m < |t.rows| && c.rows[i] == RowClone(t.fields)(k)(t.rows[m]);
      forall j | 0 <= j < |t.fields| ensures Clean(c.rows[i][j]) {
        CloneCellIsClean(t.fields[j], k, t.rows[m][j]);
      }
    }
  }

  // ----- Partitioning what the writer wrote -----------------------------------------------------

  lemma {:induction false} SiftAppend(p: Parts, a: seq<string>, b: seq<string>)
    requires p.Valid()
    ensures SiftAll(p, a + b) == match SiftAll(p, a) case None => None case Some(q) => SiftAll(q, b)
    decreases |a|
  {
    hide Sift;
    if a == [] {
      assert a + b == b;
    } else {
      assert (a + b)[1..] == a[1..] + b;
      var next := Sift(p, a[0]);
      if next.Some? {
        SiftAppend(next.value, a[1..], b);
      }
    }
  }

  lemma SiftOne(p: Parts, line: string)
    requires p.Valid()
    ensures SiftAll(p, [line]) == Sift(p, line)
  {
    hide Sift;
    assert [line][1..] == [];
  }

  lemma LineBegins(tag: string, cells: seq<string>)
    requires |tag| == 2 && tag[0] == '%'
    ensures forall c :: Begins(Line(tag, cells), c) <==> tag[1] == c
  {
  }

  /** The state after the rows of a table. */
  ghost function WithRows(p: Parts, rows: seq<Cells>): Parts
    requires p.Valid() && p.table.Some?
  {
    var t := p.table.value;
    if t in CLONED then p.(rows := p.rows[t := p.rows[t] + rows]) else p.(out := p.out + RowLines(rows))
  }

  lemma SiftRow(p: Parts, row: Cells)
    requires p.Valid() && p.table.Some? && CleanCells(row)
    ensures Sift(p, Line("%R", row)) == Some(WithRows(p, [row]))
  {
    LineBegins("%R", row);
    SplitLine("%R", row);
    assert RowLines([row]) == [Line("%R", row)];
    hide Line, Split, RowLines, CLONED, Begins;
  }

  lemma RowLinesAppend(a: seq<Cells>, b: seq<Cells>)
    ensures RowLines(a + b) == RowLines(a) + RowLines(b)
  {
    hide Line;
    var all := a + b;
    forall i | 0 <= i < |all| ensures RowLines(all)[i] == (RowLines(a) + RowLines(b))[i] {
    }
  }

  lemma WithRowsTwice(p: Parts, a: seq<Cells>, b: seq<Cells>)
    requires p.Valid() && p.table.Some?
    ensures WithRows(p, a).Valid() && WithRows(p, a).table == p.table
    ensures WithRows(WithRows(p, a), b) == WithRows(p, a + b)
  {
    hide CLONED, RowLines;
    var t := p.table.value;
    if t in CLONED {
      var q := p.rows[t := p.rows[t] + a];
      assert q[t] + b == p.rows[t] + (a + b);
      assert q[t := q[t] + b] == p.rows[t := q[t] + b];
    } else {
      RowLinesAppend(a, b);
      assert p.out + RowLines(a) + RowLines(b) == p.out + (RowLines(a) + RowLines(b));
    }
  }

  lemma WithNoRows(p: Parts)
    requires p.Valid() && p.table.Some?
    ensures WithRows(p, []) == p
  {
    hide CLONED;
    var t := p.table.value;
    assert p.out + [] == p.out;
    if t in CLONED {
      assert p.rows[t] + [] == p.rows[t];
      assert p.rows[t := p.rows[t]] == p.rows;
    }
  }

  lemma {:induction false} SiftRows(p: Parts, rows: seq<Cells>)
    requires p.Valid() && p.table.Some? && forall i :: 0 <= i < |rows| ==> CleanCells(rows[i])
    ensures SiftAll(p, RowLines(rows)) == Some(WithRows(p, rows))
    decreases |rows|
  {
    hide WithRows, Sift, Line, CleanCells;
    if rows == [] {
      WithNoRows(p);
    } else {
      SiftRow(p, rows[0]);
      WithRowsTwice(p, [rows[0]], rows[1..]);
      assert rows == [rows[0]] + rows[1..];
      SiftRows(WithRows(p, [rows[0]]), rows[1..]);
    }
  }

  /** What reading one whole table does: a cloned one is set aside, another is kept. */
  ghost function AfterTable(p: Parts, t: Table): Parts
    requires p.Valid()
  {
    if t.name in CLONED then
      Parts(p.out, Some(t.name), p.headers[t.name := HeadOf(t)], p.rows[t.name := p.rows[t.name] + RowsOf(t)])
    else Parts(p.out + TableLines(t), Some(t.name), p.headers, p.rows)
  }

  ghost function AfterHead(p: Parts, t: Table): Parts
    requires p.Valid()
  {
    if t.name in CLONED then
      Parts(p.out, Some(t.name), p.headers[t.name := HeadOf(t)],
            p.rows[t.name := p.rows[t.name] + [["%FIELDS%"] + t.fields]])
    else Parts(p.out + [Line("%T", [t.name]), Line("%F", t.fields)], Some(t.name), p.headers, p.rows)
  }

  lemma SiftHead(p: Parts, t: Table)
    requires p.Valid() && Clean(t.name) && CleanCells(t.fields)
    ensures SiftAll(p, [Line("%T", [t.name]), Line("%F", t.fields)]) == Some(AfterHead(p, t))
    ensures AfterHead(p, t).Valid()
  {
    var a, b := Line("%T", [t.name]), Line("%F", t.fields);
    LineBegins("%T", [t.name]);
    LineBegins("%F", t.fields);
    SplitLine("%T", [t.name]);
    SplitLine("%F", t.fields);
    hide Line, Split, Begins, CLONED;
    var q := Sift(p, a).value;
    assert ["%F"] + t.fields == Split(b, '\t') && (["%F"] + t.fields)[1..] == t.fields;
    SiftTwo(p, a, b);
    assert p.out + [a] + [b] == p.out + [a, b];
    assert p.headers[t.name := a][t.name := HeadOf(t)] == p.headers[t.name := HeadOf(t)];
  }

  lemma SiftTwo(p: Parts, a: string, b: string)
    requires p.Valid() && Sift(p, a).Some?
    ensures SiftAll(p, [a, b]) == Sift(Sift(p, a).value, b)
  {
    SiftAppend(p, [a], [b]);
    SiftOne(p, a);
    SiftOne(Sift(p, a).value, b);
    assert [a] + [b] == [a, b];
    hide Sift;
  }

  lemma SiftTable(p: Parts, t: Table)
    requires p.Valid() && Writable(t)
    ensures SiftAll(p, TableLines(t)) == Some(AfterTable(p, t)) && AfterTable(p, t).Valid()
  {
    SiftHead(p, t);
    SiftRows(AfterHead(p, t), t.rows);
    SiftAppend(p, [Line("%T", [t.name]), Line("%F", t.fields)], RowLines(t.rows));
    HeadThenRows(p, t);
    hide SiftAll, Line, RowLines, CLONED, CleanCells, AfterHead, AfterTable, WithRows;
  }

  lemma HeadThenRows(p: Parts, t: Table)
    requires p.Valid()
    ensures AfterHead(p, t).Valid() && AfterTable(p, t).Valid() && AfterHead(p, t).table.Some?
    ensures WithRows(AfterHead(p, t), t.rows) == AfterTable(p, t)
  {
    hide Line, RowLines, CLONED, HeadOf;
    if t.name in CLONED {
      assert p.rows[t.name] + [["%FIELDS%"] + t.fields] + t.rows == p.rows[t.name] + RowsOf(t);
      hide RowsOf;
      var fields := p.rows[t.name] + [["%FIELDS%"] + t.fields];
      assert p.rows[t.name := fields][t.name := fields + t.rows] == p.rows[t.name := fields + t.rows];
    } else {
      assert p.out + [Line("%T", [t.name]), Line("%F", t.fields)] + RowLines(t.rows) == p.out + TableLines(t);
    }
  }

  function Shared(ts: seq<Table>): seq<Table> {
    Filter((t: Table) => t.name !in CLONED, ts)
  }

  /** The state after some tables of distinct names: the shared ones are kept in order,
      every cloned one is held, and nothing is held under another name. */
  ghost predicate Sifted(p: Parts, before: seq<string>, ts: seq<Table>) {
    && p.Valid()
    && p.out == before + AllLines(Shared(ts))
    && (forall t :: t in ts && t.name in CLONED ==> Holds(p, t))
    && (forall name :: name in CLONED && (forall t :: t in ts ==> t.name != name) ==> p.rows[name] == [])
  }

  lemma {:induction false} AllLinesAppend(a: seq<Table>, b: seq<Table>)
    ensures AllLines(a + b) == AllLines(a) + AllLines(b)
    decreases |a|
  {
    hide TableLines;
    if a == [] {
      assert a + b == b;
    } else {
      assert (a + b)[1..] == a[1..] + b;
      AllLinesAppend(a[1..], b);
    }
  }

  lemma SharedSnoc(ts: seq<Table>, t: Table)
    ensures AllLines(Shared(ts + [t])) == AllLines(Shared(ts)) + if t.name in CLONED then [] else TableLines(t)
  {
    hide TableLines, CLONED;
    var keep := (t: Table) => t.name !in CLONED;
    FilterAppend(keep, ts, [t]);
    assert [t][1..] == [];
    AllLinesAppend(Shared(ts), Filter(keep, [t]));
  }

  lemma SiftedSnoc(p: Parts, before: seq<string>, ts: seq<Table>, t: Table)
    requires Sifted(p, before, ts) && Writable(t) && forall u :: u in ts ==> u.name != t.name
    ensures Sifted(AfterTable(p, t), before, ts + [t])
  {
    hide Writable, HeadOf, AllLines, TableLines, Shared, CLONED;
    SharedSnoc(ts, t);
    var q := AfterTable(p, t);
    assert [] + RowsOf(t) == RowsOf(t);
    hide RowsOf;
    assert t in ts + [t];
    forall name | name in CLONED && (forall u :: u in ts + [t] ==> u.name != name) ensures q.rows[name] == [] {
    }
  }

  lemma {:induction false} SiftTables(p: Parts, before: seq<string>, ts: seq<Table>)
    requires Sifted(p, before, []) && (forall t :: t in ts ==> Writable(t)) && DistinctNames(ts)
    ensures p.Valid()
    ensures var q := SiftAll(p, AllLines(ts));
            q.Some? && Sifted(q.value, before, ts)
    decreases |ts|
  {
    hide Sifted, Sift, TableLines, AfterTable, Writable;
    ValidOf(p, before, []);
    if ts == [] {
      assert AllLines(ts) == [];
    } else {
      var n := |ts| - 1;
      var init, t := ts[..n], ts[n];
      assert ts == init + [t];
      SiftTables(p, before, init);
      var q := SiftAll(p, AllLines(init)).value;
      AllLinesAppend(init, [t]);
      assert AllLines([t]) == TableLines(t);
      SiftAppend(p, AllLines(init), TableLines(t));
      ValidOf(q, before, init);
      SiftTable(q, t);
      SiftedSnoc(q, before, init, t);
    }
  }

  lemma ValidOf(p: Parts, before: seq<string>, ts: seq<Table>)
    requires Sifted(p, before, ts)
    ensures p.Valid()
  {
  }

  /** After the end mark the last line is empty, and is kept unless a cloned table is open. */
  lemma SiftEnd(p: Parts)
    requires p.Valid()
    ensures SiftAll(p, ["%E", ""]) == Some(p.(out := p.out + ["%E"] + (if p.InCloned() then [] else [""])))
  {
    hide CLONED;
    var q := p.(out := p.out + ["%E"]);
    assert Sift(p, "%E") == Some(q) by {
      StripFixes("%E");
    }
    assert Sift(q, "") == Some(if p.InCloned() then q else q.(out := q.out + [""])) by {
      StripFixes("");
    }
    SiftTwo(p, "%E", "");
    hide Sift, SiftAll;
    assert p.out + ["%E"] + [] == p.out + ["%E"];
  }

  // ----- The whole file --------------------------------------------------------------------------

  ghost predicate HasCloned(ts: seq<Table>) {
    forall name :: name in CLONED ==> exists t :: t in ts && t.name == name
  }

  ghost predicate AllHeld(p: Parts, ts: seq<Table>) {
    forall t :: t in ts && t.name in CLONED ==> Holds(p, t) && Clonable(t)
  }

  /** A base file as the writer lays it out: the four cloned tables are among its tables,
      each with canonical ids. */
  ghost predicate Base(header: string, ts: seq<Table>) {
    && IsHeader(header) && !Begins(header, 'T')
    && DistinctNames(ts) && (forall t :: t in ts ==> Writable(t))
    && HasCloned(ts)
    && (forall t :: t in ts && t.name in CLONED ==> Clonable(t))
  }

  ghost function TableNamed(ts: seq<Table>, name: string): (t: Table)
    requires exists t :: t in ts && t.name == name
    ensures t in ts && t.name == name
  {
    var t :| t in ts && t.name == name;
    t
  }

  lemma EmittedIsCloned(ts: seq<Table>, n: nat)
    requires HasCloned(ts) && n < |EMITTED|
    ensures EMITTED[n] in CLONED && exists t :: t in ts && t.name == EMITTED[n]
  {
  }

  /** The first `m` cloned tables in the order they are written back. */
  ghost function ClonedTables(ts: seq<Table>, n: nat, m: nat): seq<Table>
    requires m <= |EMITTED| && HasCloned(ts)
  {
    if m == 0 then []
    else
      EmittedIsCloned(ts, m - 1);
      ClonedTables(ts, n, m - 1) + [ClonedTable(TableNamed(ts, EMITTED[m - 1]), n)]
  }

  lemma {:induction false} SplitUnlinesAt(lines: seq<string>)
    requires forall i :: 0 <= i < |lines| ==> OneLine(lines[i])
    ensures Split(Unlines(lines), '\n') == lines + [""]
    decreases |lines|
  {
    if lines != [] {
      var first := lines[0];
      assert Lacks(first, '\n') by {
        forall i | 0 <= i < |first| ensures first[i] != '\n' { assert !IsBreak(first[i]); }
      }
      SplitCell(first, Unlines(lines[1..]), '\n');
      SplitUnlinesAt(lines[1..]);
      hide Split, OneLine, Lacks;
      assert [first] + (lines[1..] + [""]) == lines + [""];
    }
  }

  lemma {:induction false} UnlinesAppend(a: seq<string>, b: seq<string>)
    ensures Unlines(a + b) == Unlines(a) + Unlines(b)
    decreases |a|
  {
    if a == [] {
      assert a + b == b;
    } else {
      assert (a + b)[1..] == a[1..] + b;
      UnlinesAppend(a[1..], b);
    }
  }

  lemma HeaderIsKept(header: string)
    requires !Begins(header, 'T')
    ensures NOTHING_YET.Valid() && Sift(NOTHING_YET, header) == Some(NOTHING_YET.(out := [header]))
    ensures Sifted(NOTHING_YET.(out := [header]), [header], [])
  {
    hide CLONED;
    assert [] + [header] == [header] == [header] + AllLines(Shared([]));
    assert NOTHING_YET.rows.Keys == CLONED;
  }

  /** The partition keeps the header, the shared tables and the end mark, and holds the
      four cloned tables. */
  lemma PartitionIs(header: string, ts: seq<Table>) returns (p: Parts, tail: seq<string>)
    requires Base(header, ts)
    ensures SiftAll(NOTHING_YET, [header] + AllLines(ts) + ["%E", ""]) == Some(p)
    ensures p.out == [header] + AllLines(Shared(ts)) + ["%E"] + tail && (tail == [] || tail == [""])
    ensures forall t :: t in ts && t.name in CLONED ==> Holds(p, t)
  {
    HeaderIsKept(header);
    hide CLONED, Sift, AllLines, Writable, Clonable, Begins, IsHeader, NOTHING_YET;
    var p0 := NOTHING_YET.(out := [header]);
    SiftOne(NOTHING_YET, header);
    SiftTables(p0, [header], ts);
    var q := SiftAll(p0, AllLines(ts)).value;
    SiftEnd(q);
    SiftAppend(NOTHING_YET, [header], AllLines(ts));
    SiftAppend(NOTHING_YET, [header] + AllLines(ts), ["%E", ""]);
    tail := if q.InCloned() then [] else [""];
    p := q.(out := q.out + ["%E"] + tail);
    hide SiftAll, Shared, HeadOf, RowsOf;
  }

  lemma {:induction false} EmittedAre(p: Parts, ts: seq<Table>, n: nat, m: nat)
    requires m <= |EMITTED| && HasCloned(ts)
    requires AllHeld(p, ts)
    ensures var e := EmittedTables(p, n, m);
            e.Some? && Unlines(e.value) == Unlines(AllLines(ClonedTables(ts, n, m)))
  {
    assert AllLines([]) == [];
    hide EmittedTable, CLONED, EMITTED, HasCloned, AllHeld, Unlines, AllLines, ClonedTable;
    if m > 0 {
      EmittedIsCloned(ts, m - 1);
      EmittedAre(p, ts, n, m - 1);
      var t := TableNamed(ts, EMITTED[m - 1]);
      EmittedHeld(p, ts, t, n);
      SameUnlines(EmittedTables(p, n, m - 1).value, EmittedTable(p, t.name, n).value, ClonedTables(ts, n, m - 1),
                  ClonedTable(t, n));
    }
  }

  lemma EmittedHeld(p: Parts, ts: seq<Table>, t: Table, n: nat)
    requires AllHeld(p, ts) && t in ts && t.name in CLONED
    ensures var e := EmittedTable(p, t.name, n);
            e.Some? && Unlines(e.value) == Unlines(AllLines([ClonedTable(t, n)]))
  {
    hide EmittedTable, CLONED, Clonable, Holds, Unlines, AllLines, ClonedTable, RowLines, HeadOf;
    EmittedTableIs(p, t, n);
    EmittedLines(t, n);
  }

  lemma SameUnlines(a: seq<string>, b: seq<string>, ts: seq<Table>, t: Table)
    requires Unlines(a) == Unlines(AllLines(ts)) && Unlines(b) == Unlines(AllLines([t]))
    ensures Unlines(a + b) == Unlines(AllLines(ts + [t]))
  {
    hide *;
    AllLinesAppend(ts, [t]);
    UnlinesAppend(a, b);
    UnlinesAppend(AllLines(ts), AllLines([t]));
  }

  /** The header text holds two lines in one. */
  lemma EmittedLines(t: Table, n: nat)
    ensures Unlines([HeadOf(t)] + RowLines(ClonedTable(t, n).rows)) == Unlines(AllLines([ClonedTable(t, n)]))
  {
    var c := ClonedTable(t, n);
    var a, b := Line("%T", [t.name]), Line("%F", t.fields);
    hide Line, Copies, RowLines;
    assert AllLines([c]) == TableLines(c);
    UnlinesAppend([HeadOf(t)], RowLines(c.rows));
    UnlinesAppend([a, b], RowLines(c.rows));
    assert [a, b][1..] == [b];
    assert Unlines([HeadOf(t)]) == a + "\n" + b + "\n";
    assert Unlines([a, b]) == a + "\n" + (b + "\n");
    assert a + "\n" + b + "\n" == a + "\n" + (b + "\n");
  }

  /** The text the cloner writes. */
  lemma CloneTextIs(header: string, ts: seq<Table>, n: nat) returns (tail: seq<string>)
    requires Base(header, ts)
    ensures tail == [] || tail == [""]
    ensures CloneText(Render(header, ts), n) ==
            Some(Unlines([header] + AllLines(Shared(ts)) + ["%E"] + tail + AllLines(ClonedTables(ts, n, |EMITTED|))))
  {
    hide Unlines, AllLines, Shared, Split, Render, Holds, SiftAll, CLONED, NOTHING_YET, Clonable, Writable;
    var p: Parts;
    p, tail := PartitionIs(header, ts);
    SplitRender(header, ts);
    EmittedAre(p, ts, n, |EMITTED|);
    UnlinesAppend(p.out, EmittedTables(p, n, |EMITTED|).value);
    UnlinesAppend(p.out, AllLines(ClonedTables(ts, n, |EMITTED|)));
    hide Base, EmittedTables, ClonedTables, EMITTED;
  }

  lemma SplitRender(header: string, ts: seq<Table>)
    requires IsHeader(header) && forall t :: t in ts ==> Writable(t)
    ensures Split(Render(header, ts), '\n') == [header] + AllLines(ts) + ["%E", ""]
  {
    AllLinesAreLines(ts);
    var lines := [header] + AllLines(ts) + ["%E"];
    assert OneLine("%E") && OneLine(header);
    hide Split, AllLines, OneLine, IsHeader;
    SplitUnlinesAt(lines);
    assert lines + [""] == [header] + AllLines(ts) + ["%E", ""];
  }

  // ----- Parsing what the cloner wrote --------------------------------------------------------------

  lemma {:induction false} CollectAppend(acc: Tables, a: seq<Table>, b: seq<Table>)
    requires forall t :: t in a + b ==> Writable(t)
    ensures (forall t :: t in a ==> Writable(t)) && (forall t :: t in b ==> Writable(t))
    ensures Collect(acc, a + b) == Collect(Collect(acc, a), b)
    decreases |a|
  {
    hide CleanCells, ZipRows;
    forall t | t in a ensures Writable(t) { assert t in a + b; }
    forall t | t in b ensures Writable(t) { assert t in a + b; }
    if a == [] {
      assert a + b == b;
    } else {
      assert (a + b)[1..] == a[1..] + b && (a + b)[0] == a[0];
      assert Writable(a[0]);
      CollectAppend(acc[a[0].name := ZipRows(a[0].fields, a[0].rows)], a[1..], b);
    }
  }

  /** The tables of the cloned file: the shared ones, then the clones. */
  ghost function Cloned(header: string, ts: seq<Table>, n: nat): seq<Table>
    requires Base(header, ts)
  {
    Shared(ts) + ClonedTables(ts, n, |EMITTED|)
  }

  lemma {:induction false} ClonedTablesWritable(ts: seq<Table>, n: nat, m: nat)
    requires m <= |EMITTED| && HasCloned(ts)
    requires forall t :: t in ts ==> Writable(t)
    ensures forall t :: t in ClonedTables(ts, n, m) ==> Writable(t)
  {
    hide CLONED, Writable, ClonedTable;
    if m > 0 {
      EmittedIsCloned(ts, m - 1);
      ClonedTablesWritable(ts, n, m - 1);
      ClonedIsWritable(TableNamed(ts, EMITTED[m - 1]), n);
    }
  }

  lemma SharedAre(ts: seq<Table>)
    ensures forall t :: t in Shared(ts) <==> t in ts && t.name !in CLONED
  {
    hide CLONED;
  }

  lemma ClonedWritable(header: string, ts: seq<Table>, n: nat)
    requires Base(header, ts)
    ensures forall t :: t in Cloned(header, ts, n) ==> Writable(t)
  {
    hide CLONED, Writable, Clonable, IsHeader;
    SharedAre(ts);
    ClonedTablesWritable(ts, n, |EMITTED|);
  }

  lemma RunTail(st: State, tail: seq<string>, lineno: nat)
    requires tail == [] || tail == [""]
    ensures Run(st, tail, lineno) == Ok(st)
  {
    if tail == [""] {
      RunOne(st, "", lineno);
      assert Step(st, "", lineno) == Ok(st);
    }
  }

  /** The cloned file parses, and to the shared tables with the cloned ones after them. */
  lemma CloneParses(header: string, ts: seq<Table>, n: nat)
    requires Base(header, ts)
    ensures forall t :: t in Cloned(header, ts, n) ==> Writable(t)
    ensures var text := CloneText(Render(header, ts), n);
            text.Some? && ParseText(text.value) == Ok(Collect(map[], Cloned(header, ts, n)))
  {
    ClonedWritable(header, ts, n);
    var tail := CloneTextIs(header, ts, n);
    var a, b := Shared(ts), ClonedTables(ts, n, |EMITTED|);
    assert forall t :: t in a ==> t in Cloned(header, ts, n);
    assert forall t :: t in b ==> t in Cloned(header, ts, n);
    ParseTwoParts(header, a, tail, b);
  }

  lemma ParseTwoParts(header: string, a: seq<Table>, tail: seq<string>, b: seq<Table>)
    requires IsHeader(header) && (forall t :: t in a + b ==> Writable(t)) && (tail == [] || tail == [""])
    ensures ParseText(Unlines([header] + AllLines(a) + ["%E"] + tail + AllLines(b))) == Ok(Collect(map[], a + b))
  {
    hide *;
    var lines := [header] + AllLines(a) + ["%E"] + tail + AllLines(b);
    assert forall t :: t in a ==> t in a + b;
    assert forall t :: t in b ==> t in a + b;
    LinesAreLines(header, a, tail, b, lines);
    SplitUnlines(lines);
    RunTwoParts(header, a, tail, b);
    ParseLines(Unlines(lines), lines);
  }

  lemma ParseLines(text: string, lines: seq<string>)
    requires SplitLines(text) == lines
    ensures ParseText(text) ==
            match Run(START, lines, 1) case Error(n, why) => Error(n, why) case Ok(st) => Ok(st.tables)
  {
    hide Run, SplitLines;
  }

  lemma RunTwoParts(header: string, a: seq<Table>, tail: seq<string>, b: seq<Table>)
    requires IsHeader(header) && (forall t :: t in a + b ==> Writable(t)) && (tail == [] || tail == [""])
    ensures var out := Run(START, [header] + AllLines(a) + ["%E"] + tail + AllLines(b), 1);
            out.Ok? && out.value.tables == Collect(map[], a + b)
  {
    hide *;
    CollectAppend(map[], a, b);
    var closed := RunFirstPart(header, a);
    var sofar := [header] + AllLines(a) + ["%E"];
    RunTail(closed, tail, 1 + |sofar|);
    RunThen(START, sofar, tail, closed);
    RunTables(closed, b, 1 + |sofar + tail|);
    RunThen(START, sofar + tail, AllLines(b), closed);
  }

  lemma RunFirstPart(header: string, a: seq<Table>) returns (closed: State)
    requires IsHeader(header) && forall t :: t in a ==> Writable(t)
    ensures Run(START, [header] + AllLines(a) + ["%E"], 1) == Ok(closed) && closed.tables == Collect(map[], a)
  {
    assert START.tables == map[];
    hide *;
    HeaderRuns(header);
    RunTables(START, a, 2);
    var st := Run(START, AllLines(a), 2).value;
    RunThen(START, [header], AllLines(a), START);
    EndMark(st, 2 + |AllLines(a)|);
    RunThen(START, [header] + AllLines(a), ["%E"], st);
    closed := State(st.tables, None, None);
  }

  lemma RunThen(st: State, a: seq<string>, b: seq<string>, next: State)
    requires Run(st, a, 1) == Ok(next)
    ensures Run(st, a + b, 1) == Run(next, b, 1 + |a|)
  {
    RunAppend(st, a, b, 1);
    hide Run;
  }

  lemma HeaderRuns(header: string)
    requires IsHeader(header)
    ensures Run(START, [header], 1) == Ok(START)
  {
    RunOne(START, header, 1);
    hide Run;
  }

  lemma LinesAreLines(header: string, a: seq<Table>, tail: seq<string>, b: seq<Table>, lines: seq<string>)
    requires IsHeader(header) && (forall t :: t in a ==> Writable(t)) && (forall t :: t in b ==> Writable(t))
    requires (tail == [] || tail == [""]) && lines == [header] + AllLines(a) + ["%E"] + tail + AllLines(b)
    ensures forall i :: 0 <= i < |lines| ==> OneLine(lines[i])
  {
    AllLinesAreLines(a);
    AllLinesAreLines(b);
    var parts := [header] + AllLines(a) + ["%E"] + tail;
    assert OneLine(header) && OneLine("%E") && OneLine("");
    hide OneLine, AllLines, IsHeader, Writable;
    assert forall x :: x in AllLines(a) ==> OneLine(x);
    assert forall x :: x in AllLines(b) ==> OneLine(x);
    assert forall x :: x in parts + AllLines(b) ==> OneLine(x);
  }

  // ----- Row by row and cell by cell ------------------------------------------------------------------

  /** A parsed row in clone `k`. */
  function RowCopy(k: nat): Row -> Row {
    (r: Row) => map f | f in r :: CloneCell(f, k, r[f])
  }

  lemma {:induction false} ZipKeys(fields: Cells, values: Cells)
    requires |fields| == |values|
    ensures forall f :: f in Zip(fields, values) <==> f in fields
  {
    if fields != [] {
      var n := |fields| - 1;
      ZipKeys(fields[..n], values[..n]);
      assert fields == fields[..n] + [fields[n]];
    }
  }

  lemma StripShift(k: nat, c: string)
    requires Reference(c)
    ensures Strip(c) == c && Strip(Shift(k, c)) == Shift(k, c)
  {
    StripDigits(c);
    StripDigits(Shift(k, c));
  }

  lemma StripCoded(k: nat, c: string)
    requires Strip(c) == c
    ensures Strip(Coded(k, c)) == Coded(k, c)
  {
    StripFixes(c);
    StripFixes(Coded(k, c));
    if k > 0 {
      assert IsDigit(Dec(k)[|Dec(k)| - 1]);
    }
  }

  lemma StripCell(field: string, k: nat, c: string)
    requires field in SHIFTED ==> Reference(c)
    requires field == CODE ==> Strip(c) == c
    ensures Strip(CloneCell(field, k, c)) == CloneCell(field, k, Strip(c))
  {
    hide Shift, Coded, Strip, Canonical, SHIFTED, CODE;
    if field in SHIFTED {
      StripShift(k, c);
    } else if field == CODE {
      StripCoded(k, c);
    }
  }

  lemma RowCopyIs(fields: Cells, k: nat, r: Cells)
    requires NoDup(fields) && CanonicalRow(fields, r)
    ensures Zip(fields, Stripped(RowClone(fields)(k)(r))) == RowCopy(k)(Zip(fields, Stripped(r)))
  {
    hide Zip, CloneCell, Strip, SHIFTED, CODE, Canonical;
    var copy := RowClone(fields)(k)(r);
    var a, b := Zip(fields, Stripped(copy)), Zip(fields, Stripped(r));
    ZipKeys(fields, Stripped(copy));
    ZipKeys(fields, Stripped(r));
    forall f | f in a ensures a[f] == CloneCell(f, k, b[f]) {
      var j :| 0 <= j < |fields| && fields[j] == f;
      ZipLookup(fields, Stripped(copy), j);
      ZipLookup(fields, Stripped(r), j);
      StripCell(f, k, r[j]);
    }
  }

  lemma CopiesWide(fields: Cells, rows: seq<Cells>, k: nat, n: nat)
    requires forall i :: 0 <= i < |rows| ==> |rows[i]| == |fields|
    ensures forall i :: 0 <= i < |Copies(RowClone(fields), rows, k, n)| ==>
            |Copies(RowClone(fields), rows, k, n)[i]| == |fields|
  {
    forall i | 0 <= i < |Copies(RowClone(fields), rows, k, n)|
        ensures |Copies(RowClone(fields), rows, k, n)[i]| == |fields| {
      CopiesAre(RowClone(fields), rows, k, n, Copies(RowClone(fields), rows, k, n)[i]);
    }
  }

  lemma ZipRowsAppend(fields: Cells, a: seq<Cells>, b: seq<Cells>)
    requires forall i :: 0 <= i < |a| ==> |a[i]| == |fields|
    requires forall i :: 0 <= i < |b| ==> |b[i]| == |fields|
    ensures forall i :: 0 <= i < |a + b| ==> |(a + b)[i]| == |fields|
    ensures ZipRows(fields, a + b) == ZipRows(fields, a) + ZipRows(fields, b)
  {
    hide Zip, Stripped;
  }

  lemma ZipRowsOfCopy(fields: Cells, k: nat, rows: seq<Cells>)
    requires NoDup(fields) && forall r :: r in rows ==> CanonicalRow(fields, r)
    ensures forall i :: 0 <= i < |rows| ==> |rows[i]| == |fields| && |Map(RowClone(fields)(k), rows)[i]| == |fields|
    ensures ZipRows(fields, Map(RowClone(fields)(k), rows)) == Map(RowCopy(k), ZipRows(fields, rows))
  {
    hide Zip, Stripped;
    forall i | 0 <= i < |rows|
      ensures |rows[i]| == |fields| && |Map(RowClone(fields)(k), rows)[i]| == |fields|
      ensures Zip(fields, Stripped(RowClone(fields)(k)(rows[i]))) == RowCopy(k)(Zip(fields, Stripped(rows[i])))
    {
      assert CanonicalRow(fields, rows[i]);
      RowCopyIs(fields, k, rows[i]);
    }
    hide RowClone, RowCopy, CanonicalRow;
  }

  lemma {:induction false} ZipRowsOfCopies(fields: Cells, rows: seq<Cells>, k: nat, n: nat)
    requires NoDup(fields) && forall r :: r in rows ==> CanonicalRow(fields, r)
    ensures forall i :: 0 <= i < |rows| ==> |rows[i]| == |fields|
    ensures forall i :: 0 <= i < |Copies(RowClone(fields), rows, k, n)| ==>
            |Copies(RowClone(fields), rows, k, n)[i]| == |fields|
    ensures ZipRows(fields, Copies(RowClone(fields), rows, k, n)) == Copies(RowCopy, ZipRows(fields, rows), k, n)
    decreases n - k
  {
    ZipRowsOfCopy(fields, k, rows);
    CopiesWide(fields, rows, k, n);
    hide RowClone, RowCopy, CanonicalRow, Zip, Stripped, ZipRows;
    if k < n {
      ZipRowsOfCopies(fields, rows, k + 1, n);
      ZipRowsAppend(fields, Map(RowClone(fields)(k), rows), Copies(RowClone(fields), rows, k + 1, n));
    } else {
      assert ZipRows(fields, []) == [];
    }
  }

  // ----- Table by table ---------------------------------------------------------------------------------

  lemma {:induction false} SharedDistinct(ts: seq<Table>)
    requires DistinctNames(ts)
    ensures DistinctNames(Shared(ts))
    decreases |ts|
  {
    hide CLONED;
    if ts != [] {
      SharedDistinct(ts[1..]);
      SharedAre(ts[1..]);
    }
  }

  lemma {:induction false} ClonedTablesAre(ts: seq<Table>, n: nat, m: nat)
    requires m <= |EMITTED| && HasCloned(ts)
    ensures var c := ClonedTables(ts, n, m);
            |c| == m && forall i :: 0 <= i < m ==>
                EMITTED[i] in CLONED && c[i] == ClonedTable(TableNamed(ts, EMITTED[i]), n)
  {
    hide CLONED, ClonedTable, EMITTED;
    if m > 0 {
      ClonedTablesAre(ts, n, m - 1);
      EmittedIsCloned(ts, m - 1);
    }
  }

  lemma EmittedDistinct()
    ensures forall i, j :: 0 <= i < j < |EMITTED| ==> EMITTED[i] != EMITTED[j]
    ensures forall name :: name in CLONED <==> name in EMITTED
  {
    assert |EMITTED[0]| == 4 && EMITTED[1][4] == 'P' && EMITTED[2][4] == 'R' && EMITTED[3][4] == 'A';
  }

  lemma ClonedDistinct(header: string, ts: seq<Table>, n: nat)
    requires Base(header, ts)
    ensures DistinctNames(Cloned(header, ts, n))
  {
    SharedDistinct(ts);
    SharedAre(ts);
    ClonedTablesAre(ts, n, |EMITTED|);
    EmittedDistinct();
    hide CLONED, Writable, Clonable, IsHeader, EMITTED, Shared, ClonedTables;
    var a, b := Shared(ts), ClonedTables(ts, n, |EMITTED|);
    var c: seq<Table> := a + b;
    forall i, j | 0 <= i < j < |c| ensures c[i].name != c[j].name {
      if i < |a| && j >= |a| {
        assert a[i] in a;
      }
    }
  }

  lemma CollectHas(ts: seq<Table>, t: Table)
    requires DistinctNames(ts) && (forall u :: u in ts ==> Writable(u)) && t in ts
    ensures Writable(t) && t.name in Collect(map[], ts) && Collect(map[], ts)[t.name] == ZipRows(t.fields, t.rows)
  {
    hide Writable, ZipRows, Collect;
    var k :| 0 <= k < |ts| && ts[k] == t;
    CollectFinds(map[], ts, k);
  }

  /** The parsed tables of the base. */
  ghost function BaseTables(header: string, ts: seq<Table>): Tables
    requires Base(header, ts)
  {
    Collect(map[], ts)
  }

  /** Parsing the cloned file gives a table under every name the base had one, the shared
      ones unchanged and each of the four as `n` copies of its rows, clone after clone. */
  lemma CloneReadsBack(header: string, ts: seq<Table>, n: nat) returns (cloned: Tables)
    requires Base(header, ts)
    ensures ParseText(Render(header, ts)) == Ok(BaseTables(header, ts))
    ensures var text := CloneText(Render(header, ts), n); text.Some? && ParseText(text.value) == Ok(cloned)
    ensures cloned.Keys == BaseTables(header, ts).Keys
    ensures forall name :: name in cloned ==>
              cloned[name] ==
                if name in CLONED then Copies(RowCopy, BaseTables(header, ts)[name], 0, n)
                else BaseTables(header, ts)[name]
  {
    ParseRender(header, ts);
    CloneParses(header, ts, n);
    cloned := Collect(map[], Cloned(header, ts, n));
    hide ParseText, Render, CloneText, CLONED, Copies, Begins;
    forall name ensures name in cloned <==> name in BaseTables(header, ts) {
      SameNames(header, ts, n, name);
    }
    forall name | name in cloned
      ensures cloned[name] ==
                if name in CLONED then Copies(RowCopy, BaseTables(header, ts)[name], 0, n)
                else BaseTables(header, ts)[name]
    {
      SameTable(header, ts, n, name);
    }
  }

  lemma SameNames(header: string, ts: seq<Table>, n: nat, name: string)
    requires Base(header, ts)
    ensures forall t :: t in Cloned(header, ts, n) ==> Writable(t)
    ensures name in Collect(map[], Cloned(header, ts, n)) <==> name in BaseTables(header, ts)
  {
    ClonedWritable(header, ts, n);
    hide CLONED, Writable, Clonable, IsHeader, EMITTED, Shared, ClonedTables, Begins, Collect;
    if name in BaseTables(header, ts) {
      SameTable(header, ts, n, name);
    }
    CollectKeys(map[], Cloned(header, ts, n), name);
    if k :| 0 <= k < |Cloned(header, ts, n)| && Cloned(header, ts, n)[k].name == name {
      var t := BaseOf(header, ts, n, Cloned(header, ts, n)[k]);
      CollectHas(ts, t);
    }
  }

  lemma BaseOf(header: string, ts: seq<Table>, n: nat, c: Table) returns (t: Table)
    requires Base(header, ts) && c in Cloned(header, ts, n)
    ensures t in ts && t.name == c.name
  {
    SharedAre(ts);
    ClonedTablesAre(ts, n, |EMITTED|);
    hide CLONED, Writable, Clonable, IsHeader, EMITTED, Shared, ClonedTables, Begins;
    if c in Shared(ts) {
      t := c;
    } else {
      var i :| 0 <= i < |EMITTED| && ClonedTables(ts, n, |EMITTED|)[i] == c;
      t := TableNamed(ts, EMITTED[i]);
    }
  }

  lemma SameTable(header: string, ts: seq<Table>, n: nat, name: string)
    requires Base(header, ts) && name in BaseTables(header, ts)
    ensures forall t :: t in Cloned(header, ts, n) ==> Writable(t)
    ensures name in Collect(map[], Cloned(header, ts, n))
    ensures Collect(map[], Cloned(header, ts, n))[name] ==
            if name in CLONED then Copies(RowCopy, BaseTables(header, ts)[name], 0, n) else BaseTables(header, ts)[name]
  {
    ClonedWritable(header, ts, n);
    ClonedDistinct(header, ts, n);
    var c := Cloned(header, ts, n);
    SharedAre(ts);
    hide CLONED, Writable, IsHeader, EMITTED, Shared, Begins, Collect, Clonable;
    var t := BaseTable(header, ts, name);
    CollectHas(ts, t);
    if name in CLONED {
      ClonedIsIn(header, ts, n, t);
      CollectHas(c, ClonedTable(t, n));
      ClonableRows(t, n);
    } else {
      assert t in c;
      CollectHas(c, t);
    }
  }

  lemma BaseTable(header: string, ts: seq<Table>, name: string) returns (t: Table)
    requires Base(header, ts) && name in BaseTables(header, ts)
    ensures t in ts && t.name == name
  {
    CollectKeys(map[], ts, name);
    var k :| 0 <= k < |ts| && ts[k].name == name;
    t := ts[k];
  }

  lemma ClonedIsIn(header: string, ts: seq<Table>, n: nat, t: Table)
    requires Base(header, ts) && t in ts && t.name in CLONED
    ensures ClonedTable(t, n) in Cloned(header, ts, n)
  {
    ClonedTablesAre(ts, n, |EMITTED|);
    EmittedDistinct();
    hide CLONED, Writable, IsHeader, EMITTED, Shared, Begins, Clonable, ClonedTables, ClonedTable;
    var i :| 0 <= i < |EMITTED| && EMITTED[i] == t.name;
    var u := TableNamed(ts, t.name);
    assert u == t;
    assert ClonedTables(ts, n, |EMITTED|)[i] == ClonedTable(t, n);
  }

  lemma ClonableRows(t: Table, n: nat)
    requires Clonable(t) && Writable(t)
    ensures Writable(ClonedTable(t, n))
    ensures ZipRows(t.fields, ClonedTable(t, n).rows) == Copies(RowCopy, ZipRows(t.fields, t.rows), 0, n)
  {
    ClonedIsWritable(t, n);
    hide CanonicalRow, RowClone, Zip, RowCopy;
    ZipRowsOfCopies(t.fields, t.rows, 0, n);
  }
}
