/** The generated schedule as a file: what the generator writes is read back as the rows
    it laid down, so the file passes the validator, and so do its clones. */
module GeneratedFile {
  import opened Sequences
  import opened Numerals
  import opened XerText
  import opened XerClone
  import opened ClonedFile
  import opened CloneVerdict
  import C = XerCheck
  import K = CloneCheck
  import G = Generator

  /** The texts the generator fills in: printed instants, names, percentages, locations. */
  datatype Texts = Texts(
    stamp: int -> string, name: nat -> string, pct: nat -> string, short: nat -> string, title: nat -> string,
    projName: nat -> string, located: nat -> string, trade: nat -> string, tradeName: nat -> string)

  /** A cell as the writer prints it and the parser keeps it. */
  predicate Kept(c: string) {
    Clean(c) && Strip(c) == c
  }

  /** They fit in cells, and the ones looked at have no blanks at their ends. */
  ghost predicate Printable(tx: Texts) {
    && (forall t :: Kept(tx.stamp(t)) && tx.stamp(t) != "")
    && (forall n :: Clean(tx.name(n)) && Clean(tx.pct(n)) && Clean(tx.title(n)) && Clean(tx.located(n)))
    && (forall n :: Clean(tx.trade(n)) && Clean(tx.tradeName(n)) && Clean(tx.projName(n)) && Kept(tx.short(n)))
  }

  /** Cells convert to what was printed: instants to the minute, hours exactly. */
  ghost predicate ReadsBack(rd: Reader, tx: Texts) {
    && (forall t :: rd.when(tx.stamp(t)) == G.Minute(t))
    && (forall v: int :: rd.hours(Show(v)) == v as real)
  }

  // ----- The four sections with references -----------------------------------------------------

  const TASK_FIELDS: Cells := [
    "task_id", "proj_id", "wbs_id", "clndr_id", CODE, "task_name", "task_type", "status_code",
    "target_start_date", "target_end_date", "early_start_date", "early_end_date", "act_start_date", "act_end_date",
    "cstr_type", "cstr_date", "phys_complete_pct"]
  const PRED_FIELDS: Cells :=
      ["task_pred_id", "task_id", "pred_task_id", "proj_id", "pred_proj_id", "pred_type", "lag_hr_cnt"]
  const RSRC_FIELDS: Cells :=
      ["taskrsrc_id", "task_id", "proj_id", "rsrc_id", "target_qty", "act_reg_qty", "remain_qty"]
  const UDF_FIELDS: Cells := ["udf_type_id", "fk_id", "proj_id", "udf_text"]

  function Optional(tx: Texts, t: Option<int>): string {
    if t.Some? then tx.stamp(t.value) else ""
  }

  function TypeOf(r: G.TaskRow): string {
    if r.milestone then "TT_Mile" else C.TT_TASK
  }

  function KindCode(l: G.Link): string {
    if l.kind == G.FS then C.PR_FS else "PR_SS"
  }

  function TaskCells(tx: Texts): G.TaskRow -> Cells {
    (r: G.TaskRow) => [
      Dec(r.id), G.PROJECT, Dec(G.WbsId(r.wbs)), "101", G.Code(r.id), tx.name(r.id), TypeOf(r), G.StatusCode(r.status),
      tx.stamp(r.start), tx.stamp(r.end), tx.stamp(r.start), tx.stamp(r.end), Optional(tx, r.actStart),
      Optional(tx, r.actEnd),
      "", "", tx.pct(r.id)]
  }

  function PredCells(l: G.Link): Cells {
    [Dec(l.id), Dec(l.succ), Dec(l.pred), G.PROJECT, G.PROJECT, KindCode(l), Show(l.lag)]
  }

  function AssignCells(i: nat, a: G.AssignRow): Cells {
    [Dec(980000 + i), Dec(a.task), G.PROJECT, Dec(a.rsrc), Show(a.target), Show(a.earned),
     Show(Max(0, a.target - a.earned))]
  }

  function UdfCells(tx: Texts, i: nat, u: G.UdfRow): Cells {
    [Dec(u.utype), Dec(u.task), G.PROJECT, tx.located(i)]
  }

  /** The rows with their positions, which number the assignments. */
  function Indexed<A>(f: (nat, A) -> Cells, s: seq<A>): (r: seq<Cells>)
    ensures |r| == |s| && forall i :: 0 <= i < |s| ==> r[i] == f(i, s[i])
  {
    seq(|s|, i requires 0 <= i < |s| => f(i, s[i]))
  }

  /** What the generator has laid down. */
  datatype Plan = Plan(
      months: int, wbs: seq<G.WbsRow>, tasks: seq<G.TaskRow>, assigns: seq<G.AssignRow>, udfs: seq<G.UdfRow>,
      links: seq<G.Link>)

  ghost predicate Laid(p: Plan) {
    && G.RowsOk(p.months, p.tasks, p.assigns, p.udfs, p.links)
    && G.IsWbs(p.wbs)
  }

  function TaskTable(tx: Texts, p: Plan): Table {
    Table("TASK", TASK_FIELDS, Map(TaskCells(tx), p.tasks))
  }

  function PredTable(p: Plan): Table {
    Table("TASKPRED", PRED_FIELDS, Map(PredCells, p.links))
  }

  function RsrcTable(p: Plan): Table {
    Table("TASKRSRC", RSRC_FIELDS, Indexed(AssignCells, p.assigns))
  }

  function UdfTable(tx: Texts, p: Plan): Table {
    Table("UDFVALUE", UDF_FIELDS, Indexed((i: nat, u: G.UdfRow) => UdfCells(tx, i, u), p.udfs))
  }

  // ----- Fields and literals ---------------------------------------------------------------------

  /** Printing characters of ASCII only. */
  predicate Plain(s: string) {
    forall i :: 0 <= i < |s| ==> ' ' <= s[i] <= '~'
  }

  predicate AllPlain(cells: Cells) {
    forall i :: 0 <= i < |cells| ==> Plain(cells[i])
  }

  lemma PlainAreClean(cells: Cells)
    requires AllPlain(cells)
    ensures CleanCells(cells)
  {
    forall i | 0 <= i < |cells| ensures Clean(cells[i]) {
      assert Plain(cells[i]);
    }
  }

  lemma TaskFields()
    ensures NoDup(TASK_FIELDS) && CleanCells(TASK_FIELDS)
  {
    TaskFieldsDistinct();
    FirstTaskFields();
    LaterTaskFields();
    hide Plain;
    PlainAreClean(TASK_FIELDS) by {
      forall j | 0 <= j < |TASK_FIELDS| ensures Plain(TASK_FIELDS[j]) {
        if j < 8 { assert Plain(TASK_FIELDS[..8][j]); } else { assert Plain(TASK_FIELDS[8..][j - 8]); }
      }
    }
  }

  lemma TaskFieldsDistinct()
    ensures NoDup(TASK_FIELDS)
  {
  }

  lemma FirstTaskFields()
    ensures AllPlain(TASK_FIELDS[..8])
  {
    assert Plain(CODE);
  }

  lemma LaterTaskFields()
    ensures AllPlain(TASK_FIELDS[8..])
  {
    assert AllPlain(TASK_FIELDS[8..12]);
    assert AllPlain(TASK_FIELDS[12..]);
    hide Plain;
    forall j | 0 <= j < |TASK_FIELDS[8..]| ensures Plain(TASK_FIELDS[8..][j]) {
      if j < 4 { assert Plain(TASK_FIELDS[8..12][j]); } else { assert Plain(TASK_FIELDS[12..][j - 4]); }
    }
  }

  lemma PredFields()
    ensures NoDup(PRED_FIELDS) && CleanCells(PRED_FIELDS)
  {
    PlainAreClean(PRED_FIELDS);
  }

  lemma RsrcFields()
    ensures NoDup(RSRC_FIELDS) && CleanCells(RSRC_FIELDS)
  {
    PlainAreClean(RSRC_FIELDS);
  }

  lemma UdfFields()
    ensures NoDup(UDF_FIELDS) && CleanCells(UDF_FIELDS)
  {
    PlainAreClean(UDF_FIELDS);
  }

  lemma DecCell(n: nat)
    ensures Kept(Dec(n))
  {
    DigitsAreClean(Dec(n));
    StripDigits(Dec(n));
  }

  lemma ShowCell(v: int)
    ensures Kept(Show(v))
  {
    var n: nat := if v < 0 then -v else v;
    DecCell(n);
    StripFixes(Show(v));
    assert IsDigit(Dec(n)[|Dec(n)| - 1]);
  }

  lemma CodeCell(id: nat)
    requires id >= G.FIRST
    ensures Kept(G.Code(id))
  {
    var digits := Padded(20 + 10 * (id - G.FIRST), 5);
    PaddedIs(20 + 10 * (id - G.FIRST), 5);
    assert G.Code(id) == "A" + digits;
    hide Padded, G.Code, Dec, Value;
    LetteredIsKept(digits);
  }

  lemma LetteredIsKept(digits: string)
    requires AllDigits(digits) && digits != ""
    ensures Kept("A" + digits)
  {
    DigitsAreClean(digits);
    assert IsDigit(digits[|digits| - 1]);
    StripFixes("A" + digits);
    hide Strip;
  }

  lemma Literal(c: string)
    requires Plain(c) && (c == "" || (c[0] != ' ' && c[|c| - 1] != ' '))
    ensures Kept(c)
  {
    PlainAreClean([c]);
    assert Clean([c][0]);
    StripFixes(c);
  }

  lemma TypeCell(r: G.TaskRow)
    ensures Kept(TypeOf(r))
  {
    Literal(TypeOf(r));
  }

  lemma StatusCell(s: G.Status)
    ensures Kept(G.StatusCode(s)) && G.StatusCode(s) != ""
  {
    Literal(G.StatusCode(s));
  }

  lemma KindCell(l: G.Link)
    ensures Kept(KindCode(l))
  {
    Literal(KindCode(l));
  }

  lemma FixedCells()
    ensures Kept(G.PROJECT) && Kept("101") && Kept("")
  {
    Literal(G.PROJECT);
    Literal("101");
    Literal("");
  }

  // ----- Reading rows back -------------------------------------------------------------------------

  lemma ReadCell(fields: Cells, cells: Cells, j: nat)
    requires NoDup(fields) && |cells| == |fields| && j < |fields|
    ensures Cell(Zip(fields, Stripped(cells)), fields[j]) == Strip(cells[j])
  {
    ZipLookup(fields, Stripped(cells), j);
    hide Zip, Strip;
  }

  lemma TaskRead(rd: Reader, tx: Texts, r: G.TaskRow)
    requires Printable(tx) && ReadsBack(rd, tx) && r.id >= G.FIRST
    ensures TaskOf(rd)(Zip(TASK_FIELDS, Stripped(TaskCells(tx)(r)))) == G.TaskView(r)
  {
    var cells := TaskCells(tx)(r);
    var row := Zip(TASK_FIELDS, Stripped(cells));
    TaskFields();
    hide Strip, Zip, Cell, Printable, ReadsBack, G.TaskView, TaskOf, TaskCells;
    forall j | 0 <= j < |TASK_FIELDS| ensures Cell(row, TASK_FIELDS[j]) == Strip(cells[j]) {
      ReadCell(TASK_FIELDS, cells, j);
    }
    TaskKept(tx, r);
    hide NoDup, CleanCells, CanonicalRow;
    TaskFromCells(rd, tx, r, row);
  }

  /** All cells of a task row are clean, and all but the name and the percentage are kept. */
  predicate TaskRowKept(c: Cells) {
    && |c| == 17 && Clean(c[5]) && Clean(c[16])
    && forall j :: 0 <= j < 17 && j != 5 && j != 16 ==> Kept(c[j])
  }

  lemma TaskKept(tx: Texts, r: G.TaskRow)
    requires Printable(tx) && r.id >= G.FIRST
    ensures TaskRowKept(TaskCells(tx)(r))
  {
    assert Clean(tx.name(r.id)) && Clean(tx.pct(r.id));
    hide *;
    FixedCells();
    DecCell(r.id);
    DecCell(G.WbsId(r.wbs));
    CodeCell(r.id);
    TypeCell(r);
    StatusCell(r.status);
    StampCell(tx, Some(r.start));
    StampCell(tx, Some(r.end));
    StampCell(tx, r.actStart);
    StampCell(tx, r.actEnd);
    RowKept(Dec(r.id), G.PROJECT, Dec(G.WbsId(r.wbs)), "101", G.Code(r.id), tx.name(r.id), TypeOf(r),
            G.StatusCode(r.status),
            tx.stamp(r.start), tx.stamp(r.end), Optional(tx, r.actStart), Optional(tx, r.actEnd), tx.pct(r.id));
    TaskCellsAre(tx, r);
  }

  lemma RowKept(
      id: string, proj: string, wbs: string, clndr: string, code: string, name: string, ttype: string, status: string,
      start: string, end: string, actStart: string, actEnd: string, pct: string)
    requires Kept(id) && Kept(proj) && Kept(wbs) && Kept(clndr) && Kept(code) && Clean(name) && Kept(ttype)
    requires Kept(status)
    requires Kept(start) && Kept(end) && Kept(actStart) && Kept(actEnd) && Clean(pct)
    ensures TaskRowKept([id, proj, wbs, clndr, code, name, ttype, status, start, end, start, end, actStart, actEnd, "",
                         "", pct])
  {
    FixedCells();
    hide Kept, Clean;
  }

  lemma StampCell(tx: Texts, t: Option<int>)
    requires Printable(tx)
    ensures Kept(Optional(tx, t)) && (t.Some? ==> Optional(tx, t) == tx.stamp(t.value))
  {
    if t.Some? {
      InstantCell(tx, t.value);
    } else {
      Literal("");
    }
    hide Kept;
  }

  lemma InstantCell(tx: Texts, at: int)
    requires Printable(tx)
    ensures Kept(tx.stamp(at)) && tx.stamp(at) != ""
  {
  }

  lemma TaskCellsAre(tx: Texts, r: G.TaskRow)
    ensures TaskCells(tx)(r) == [
      Dec(r.id), G.PROJECT, Dec(G.WbsId(r.wbs)), "101", G.Code(r.id), tx.name(r.id), TypeOf(r), G.StatusCode(r.status),
      tx.stamp(r.start), tx.stamp(r.end), tx.stamp(r.start), tx.stamp(r.end), Optional(tx, r.actStart),
      Optional(tx, r.actEnd),
      "", "", tx.pct(r.id)]
  {
  }

  lemma TaskFromCells(rd: Reader, tx: Texts, r: G.TaskRow, row: Row)
    requires ReadsBack(rd, tx) && Printable(tx) && |TaskCells(tx)(r)| == 17
    requires forall j :: 0 <= j < 17 ==> Cell(row, TASK_FIELDS[j]) == Strip(TaskCells(tx)(r)[j])
    requires forall j :: 0 <= j < 17 && j != 5 && j != 16 ==> Kept(TaskCells(tx)(r)[j])
    ensures TaskOf(rd)(row) == G.TaskView(r)
  {
    hide Strip, Cell, Clean, Dec, G.Code, G.WbsId, G.StatusCode, G.Minute, G.PROJECT;
    var c := TaskCells(tx)(r);
    forall j | 0 <= j < 17 && j != 5 && j != 16 ensures Cell(row, TASK_FIELDS[j]) == c[j] {
      assert Kept(c[j]);
    }
    assert Cell(row, TASK_FIELDS[0]) == c[0] && Cell(row, TASK_FIELDS[1]) == c[1] && Cell(row, TASK_FIELDS[2]) == c[2];
    assert Cell(row, TASK_FIELDS[3]) == c[3] && Cell(row, TASK_FIELDS[4]) == c[4] && Cell(row, TASK_FIELDS[6]) == c[6];
    assert Cell(row, TASK_FIELDS[7]) == c[7] && Cell(row, TASK_FIELDS[8]) == c[8] && Cell(row, TASK_FIELDS[9]) == c[9];
    assert Cell(row, TASK_FIELDS[10]) == c[10] && Cell(row, TASK_FIELDS[11]) == c[11];
    assert Cell(row, TASK_FIELDS[12]) == c[12] && Cell(row, TASK_FIELDS[13]) == c[13];
  }

  lemma PredKept(l: G.Link)
    ensures |PredCells(l)| == 7 && forall j :: 0 <= j < 7 ==> Kept(PredCells(l)[j])
  {
    hide Kept, Dec, Show, KindCode, G.PROJECT;
    FixedCells();
    DecCell(l.id);
    DecCell(l.succ);
    DecCell(l.pred);
    KindCell(l);
    ShowCell(l.lag);
    SevenKept(Dec(l.id), Dec(l.succ), Dec(l.pred), G.PROJECT, G.PROJECT, KindCode(l), Show(l.lag));
  }

  lemma PredRead(rd: Reader, tx: Texts, l: G.Link)
    requires ReadsBack(rd, tx)
    ensures PredOf(rd)(Zip(PRED_FIELDS, Stripped(PredCells(l)))) == G.PredView(l)
  {
    var row := Zip(PRED_FIELDS, Stripped(PredCells(l)));
    PredFields();
    PredKept(l);
    hide Strip, Clean, Zip, Cell, Dec, Show;
    ReadCell(PRED_FIELDS, PredCells(l), 1);
    ReadCell(PRED_FIELDS, PredCells(l), 2);
    ReadCell(PRED_FIELDS, PredCells(l), 5);
    ReadCell(PRED_FIELDS, PredCells(l), 6);
  }

  lemma AssignKept(i: nat, a: G.AssignRow)
    ensures |AssignCells(i, a)| == 7 && forall j :: 0 <= j < 7 ==> Kept(AssignCells(i, a)[j])
  {
    hide Kept, Dec, Show, G.PROJECT, Max;
    FixedCells();
    DecCell(980000 + i);
    DecCell(a.task);
    DecCell(a.rsrc);
    ShowCell(a.target);
    ShowCell(a.earned);
    ShowCell(Max(0, a.target - a.earned));
    SevenKept(Dec(980000 + i), Dec(a.task), G.PROJECT, Dec(a.rsrc), Show(a.target), Show(a.earned),
              Show(Max(0, a.target - a.earned)));
  }

  lemma SevenKept(a: string, b: string, c: string, d: string, e: string, f: string, g: string)
    requires Kept(a) && Kept(b) && Kept(c) && Kept(d) && Kept(e) && Kept(f) && Kept(g)
    ensures forall j :: 0 <= j < 7 ==> Kept([a, b, c, d, e, f, g][j])
  {
    hide Kept;
  }

  lemma AssignRead(rd: Reader, tx: Texts, i: nat, a: G.AssignRow)
    requires ReadsBack(rd, tx)
    ensures AssignOf(rd)(Zip(RSRC_FIELDS, Stripped(AssignCells(i, a)))) == G.AssignView(a)
  {
    var row := Zip(RSRC_FIELDS, Stripped(AssignCells(i, a)));
    RsrcFields();
    AssignKept(i, a);
    hide Strip, Clean, Zip, Cell, Dec, Show;
    ReadCell(RSRC_FIELDS, AssignCells(i, a), 1);
    ReadCell(RSRC_FIELDS, AssignCells(i, a), 2);
    ReadCell(RSRC_FIELDS, AssignCells(i, a), 3);
    ReadCell(RSRC_FIELDS, AssignCells(i, a), 4);
    ReadCell(RSRC_FIELDS, AssignCells(i, a), 5);
    ReadCell(RSRC_FIELDS, AssignCells(i, a), 6);
  }

  lemma UdfRead(tx: Texts, i: nat, u: G.UdfRow)
    ensures UdfOf(Zip(UDF_FIELDS, Stripped(UdfCells(tx, i, u)))) == G.UdfView(u)
  {
    var row := Zip(UDF_FIELDS, Stripped(UdfCells(tx, i, u)));
    UdfFields();
    FixedCells();
    DecCell(u.utype);
    DecCell(u.task);
    hide Strip, Clean, Zip, Cell, Dec;
    ReadCell(UDF_FIELDS, UdfCells(tx, i, u), 0);
    ReadCell(UDF_FIELDS, UdfCells(tx, i, u), 1);
    ReadCell(UDF_FIELDS, UdfCells(tx, i, u), 2);
  }

  // ----- The sections every schedule shares -----------------------------------------------------------

  const CURR_FIELDS: Cells := ["curr_id", "curr_type", "curr_short_name", "decimal_digit_cnt"]
  const CLNDR_FIELDS: Cells := ["clndr_id", "clndr_name", "day_hr_cnt", "week_hr_cnt", "default_flag"]
  const PROJ_FIELDS: Cells :=
      ["proj_id", "proj_short_name", "proj_name", "plan_start_date", "plan_end_date", "clndr_id", "last_recalc_date"]
  const WBS_FIELDS: Cells := ["wbs_id", "proj_id", "parent_wbs_id", "wbs_short_name", "wbs_name"]
  const TRADE_FIELDS: Cells := ["rsrc_id", "rsrc_short_name", "rsrc_name", "rsrc_type", "clndr_id"]
  const TYPE_FIELDS: Cells := ["udf_type_id", "udf_type_name", "udf_type_label", "logical_data_type"]

  const CURR_ROW: Cells := ["1", "US Dollar", "USD", "2"]
  const TWO_SHIFT: Cells := ["101", "Yard 2-Shift 6-Day", "10", "60", "Y"]
  const ROUND_THE_CLOCK: Cells := ["102", "Yard Round-the-Clock", "24", "168", "N"]
  const LOCATION: Cells := ["901", "compartment", "Compartment", "FT_TEXT"]
  const WORK_ITEM: Cells := ["902", "wi_number", "Work Item", "FT_TEXT"]
  const WORK_TYPE: Cells := ["903", "work_type", "Work Type", "FT_TEXT"]

  function ProjCells(tx: Texts, months: int): Cells {
    [G.PROJECT, tx.projName(0), tx.projName(1), tx.stamp(G.AV_START), tx.stamp(G.AvEnd(months)), "101",
     tx.stamp(G.DATA_DATE)]
  }

  function WbsCells(tx: Texts): G.WbsRow -> Cells {
    (w: G.WbsRow) => [Dec(w.id), G.PROJECT, if w.parent.Some? then Dec(w.parent.value) else "",
                      tx.short(w.id), tx.title(w.id)]
  }

  function TradeCells(tx: Texts, i: nat): Cells {
    [Dec(7001 + i), tx.trade(i), tx.tradeName(i), "RT_Labor", if i == 3 then "102" else "101"]
  }

  function SharedTables(tx: Texts, p: Plan): seq<Table> {
    [ Table("CURRTYPE", CURR_FIELDS, [CURR_ROW]),
      Table("CALENDAR", CLNDR_FIELDS, [TWO_SHIFT, ROUND_THE_CLOCK]),
      Table("PROJECT", PROJ_FIELDS, [ProjCells(tx, p.months)]),
      Table("PROJWBS", WBS_FIELDS, Map(WbsCells(tx), p.wbs)),
      Table("RSRC", TRADE_FIELDS, seq(10, i requires 0 <= i < 10 => TradeCells(tx, i))),
      Table("UDFTYPE", TYPE_FIELDS, [LOCATION, WORK_ITEM, WORK_TYPE])]
  }

  /** The tables in the order they are written. */
  function FileTables(tx: Texts, p: Plan): seq<Table> {
    SharedTables(tx, p) + [TaskTable(tx, p), PredTable(p), RsrcTable(p), UdfTable(tx, p)]
  }

  lemma SharedFields()
    ensures NoDup(CURR_FIELDS) && NoDup(CLNDR_FIELDS) && NoDup(PROJ_FIELDS)
    ensures NoDup(WBS_FIELDS) && NoDup(TRADE_FIELDS) && NoDup(TYPE_FIELDS)
  {
  }

  lemma SharedFieldsClean()
    ensures CleanCells(CURR_FIELDS) && CleanCells(CLNDR_FIELDS) && CleanCells(PROJ_FIELDS)
    ensures CleanCells(WBS_FIELDS) && CleanCells(TRADE_FIELDS) && CleanCells(TYPE_FIELDS)
  {
    assert AllPlain(CURR_FIELDS) by { PlainCurr(); }
    assert AllPlain(CLNDR_FIELDS) by { PlainClndr(); }
    assert AllPlain(PROJ_FIELDS) by { PlainProj(); }
    assert AllPlain(WBS_FIELDS) by { PlainWbs(); }
    assert AllPlain(TRADE_FIELDS) by { PlainTrade(); }
    assert AllPlain(TYPE_FIELDS) by { PlainType(); }
    hide AllPlain, CleanCells;
    PlainAreClean(CURR_FIELDS);
    PlainAreClean(CLNDR_FIELDS);
    PlainAreClean(PROJ_FIELDS);
    PlainAreClean(WBS_FIELDS);
    PlainAreClean(TRADE_FIELDS);
    PlainAreClean(TYPE_FIELDS);
  }

  lemma PlainCurr()
    ensures AllPlain(CURR_FIELDS) && AllPlain(CURR_ROW)
  {
  }

  lemma PlainClndr()
    ensures AllPlain(CLNDR_FIELDS)
  {
  }

  lemma PlainCalendars()
    ensures AllPlain(TWO_SHIFT) && AllPlain(ROUND_THE_CLOCK)
  {
  }

  lemma PlainProj()
    ensures AllPlain(PROJ_FIELDS)
  {
    var f := PROJ_FIELDS;
    assert Plain(f[0]) && Plain(f[1]) && Plain(f[2]) && Plain(f[3]) && Plain(f[4]) && Plain(f[5]) && Plain(f[6]);
    hide Plain;
  }

  lemma PlainWbs()
    ensures AllPlain(WBS_FIELDS)
  {
  }

  lemma PlainTrade()
    ensures AllPlain(TRADE_FIELDS)
  {
  }

  lemma PlainType()
    ensures AllPlain(TYPE_FIELDS)
  {
  }

  lemma PlainTypes()
    ensures AllPlain(LOCATION) && AllPlain(WORK_ITEM) && AllPlain(WORK_TYPE)
  {
  }

  // ----- Every table can be written --------------------------------------------------------------------

  lemma NamesClean()
    ensures Clean("CURRTYPE") && Clean("CALENDAR") && Clean("PROJECT") && Clean("PROJWBS") && Clean("RSRC")
    ensures Clean("UDFTYPE")
    ensures Clean("TASK") && Clean("TASKPRED") && Clean("TASKRSRC") && Clean("UDFVALUE")
  {
    var names := ["CURRTYPE", "CALENDAR", "PROJECT", "PROJWBS", "RSRC", "UDFTYPE", "TASK", "TASKPRED", "TASKRSRC",
                  "UDFVALUE"];
    assert AllPlain(names);
    PlainAreClean(names);
    hide Clean, AllPlain;
    assert Clean(names[0]) && Clean(names[1]) && Clean(names[2]) && Clean(names[3]) && Clean(names[4]);
    assert Clean(names[5]) && Clean(names[6]) && Clean(names[7]) && Clean(names[8]) && Clean(names[9]);
  }

  lemma TaskTableWritable(tx: Texts, p: Plan)
    requires Printable(tx) && Laid(p)
    ensures Writable(TaskTable(tx, p))
  {
    NamesClean();
    TaskFields();
    hide Clean, TASK_FIELDS, TaskCells, Kept, G.RowOk;
    TaskWidth();
    forall i | 0 <= i < |p.tasks|
        ensures CleanCells(TaskCells(tx)(p.tasks[i])) && |TaskCells(tx)(p.tasks[i])| == |TASK_FIELDS| {
      TaskKept(tx, p.tasks[i]);
      forall j | 0 <= j < 17 ensures Clean(TaskCells(tx)(p.tasks[i])[j]) {
        if j != 5 && j != 16 { KeptIsClean(TaskCells(tx)(p.tasks[i])[j]); }
      }
    }
  }

  lemma TaskWidth()
    ensures |TASK_FIELDS| == 17
  {
  }

  lemma KeptIsClean(c: string)
    requires Kept(c)
    ensures Clean(c) && Strip(c) == c
  {
  }

  lemma KeptAreClean(cells: Cells)
    requires forall j :: 0 <= j < |cells| ==> Kept(cells[j])
    ensures CleanCells(cells)
  {
    hide Clean, Strip;
  }

  lemma NetTablesWritable(tx: Texts, p: Plan)
    requires Printable(tx)
    ensures Writable(PredTable(p)) && Writable(RsrcTable(p)) && Writable(UdfTable(tx, p))
  {
    NamesClean();
    PredFields();
    RsrcFields();
    UdfFields();
    hide Clean, Kept, PredCells, AssignCells, CleanCells;
    forall l ensures CleanCells(PredCells(l)) && |PredCells(l)| == 7 {
      PredKept(l);
      KeptAreClean(PredCells(l));
    }
    forall i: nat, a ensures CleanCells(AssignCells(i, a)) && |AssignCells(i, a)| == 7 {
      AssignKept(i, a);
      KeptAreClean(AssignCells(i, a));
    }
    forall i: nat, u ensures CleanCells(UdfCells(tx, i, u)) {
      UdfClean(tx, i, u);
    }
  }

  lemma UdfClean(tx: Texts, i: nat, u: G.UdfRow)
    requires Printable(tx)
    ensures CleanCells(UdfCells(tx, i, u))
  {
    hide Clean, Strip, Dec;
    FixedCells();
    DecCell(u.utype);
    DecCell(u.task);
  }

  lemma SharedWritable(tx: Texts, p: Plan)
    requires Printable(tx)
    ensures forall t :: t in SharedTables(tx, p) ==> Writable(t)
  {
    NamesClean();
    SharedFieldsClean();
    FixedRows(tx, p.months);
    hide Clean, CleanCells, WbsCells, TradeCells;
    forall w ensures CleanCells(WbsCells(tx)(w)) && |WbsCells(tx)(w)| == |WBS_FIELDS| {
      WbsClean(tx, w);
    }
    forall i: nat ensures CleanCells(TradeCells(tx, i)) && |TradeCells(tx, i)| == |TRADE_FIELDS| {
      TradeClean(tx, i);
    }
  }

  lemma FixedRows(tx: Texts, months: int)
    requires Printable(tx)
    ensures CleanCells(CURR_ROW) && CleanCells(TWO_SHIFT) && CleanCells(ROUND_THE_CLOCK)
    ensures CleanCells(ProjCells(tx, months))
    ensures CleanCells(LOCATION) && CleanCells(WORK_ITEM) && CleanCells(WORK_TYPE)
  {
    PlainCurr();
    PlainCalendars();
    PlainTypes();
    PlainAreClean(CURR_ROW);
    PlainAreClean(TWO_SHIFT);
    PlainAreClean(ROUND_THE_CLOCK);
    PlainAreClean(LOCATION);
    PlainAreClean(WORK_ITEM);
    PlainAreClean(WORK_TYPE);
    ProjClean(tx, months);
    hide *;
  }

  lemma ProjClean(tx: Texts, months: int)
    requires Printable(tx)
    ensures CleanCells(ProjCells(tx, months))
  {
    assert Clean(tx.projName(0)) && Clean(tx.projName(1));
    hide Kept, Clean, G.PROJECT;
    FixedCells();
    InstantCell(tx, G.AV_START);
    InstantCell(tx, G.AvEnd(months));
    InstantCell(tx, G.DATA_DATE);
    KeptIsClean("101");
    KeptIsClean(G.PROJECT);
    KeptIsClean(tx.stamp(G.AV_START));
    KeptIsClean(tx.stamp(G.AvEnd(months)));
    KeptIsClean(tx.stamp(G.DATA_DATE));
  }

  lemma WbsClean(tx: Texts, w: G.WbsRow)
    requires Printable(tx)
    ensures CleanCells(WbsCells(tx)(w)) && |WbsCells(tx)(w)| == |WBS_FIELDS|
  {
    FixedCells();
    DecCell(w.id);
    if w.parent.Some? {
      DecCell(w.parent.value);
    }
    hide Clean, Strip, Dec;
  }

  lemma TradeClean(tx: Texts, i: nat)
    requires Printable(tx)
    ensures CleanCells(TradeCells(tx, i)) && |TradeCells(tx, i)| == |TRADE_FIELDS|
  {
    DecCell(7001 + i);
    Literal("RT_Labor");
    Literal("102");
    Literal("101");
    hide Clean, Strip, Dec;
  }

  lemma FileDistinct(tx: Texts, p: Plan)
    ensures DistinctNames(FileTables(tx, p))
  {
    var names := ["CURRTYPE", "CALENDAR", "PROJECT", "PROJWBS", "RSRC", "UDFTYPE", "TASK", "TASKPRED", "TASKRSRC",
                  "UDFVALUE"];
    assert NoDup(names);
    assert forall i :: 0 <= i < |FileTables(tx, p)| ==> FileTables(tx, p)[i].name == names[i];
    hide FileTables;
  }

  lemma FileWritable(tx: Texts, p: Plan)
    requires Printable(tx) && Laid(p)
    ensures forall t :: t in FileTables(tx, p) ==> Writable(t)
  {
    TaskTableWritable(tx, p);
    NetTablesWritable(tx, p);
    SharedWritable(tx, p);
    hide Writable, SharedTables, TaskTable, PredTable, RsrcTable, UdfTable;
  }

  // ----- The file read back ---------------------------------------------------------------------------

  lemma TableRead(tx: Texts, p: Plan, t: Table)
    requires Printable(tx) && Laid(p) && t in FileTables(tx, p)
    ensures Writable(t) && (forall u :: u in FileTables(tx, p) ==> Writable(u))
    ensures Rows(Collect(map[], FileTables(tx, p)), t.name) == ZipRows(t.fields, t.rows)
  {
    FileWritable(tx, p);
    FileDistinct(tx, p);
    hide FileTables, Writable, ZipRows, Collect;
    CollectHas(FileTables(tx, p), t);
  }

  lemma ColumnIs(tables: Tables, name: string, field: string, values: Cells)
    requires |Rows(tables, name)| == |values|
             && forall i :: 0 <= i < |values| ==> Cell(Rows(tables, name)[i], field) == values[i]
    ensures Column(tables, name, field) == values
  {
    hide Cell, Rows;
  }

  lemma SharedRead(tx: Texts, p: Plan, tables: Tables)
    requires Printable(tx) && Laid(p)
    requires forall t :: t in SharedTables(tx, p) ==> Writable(t) && Rows(tables, t.name) == ZipRows(t.fields, t.rows)
    ensures Column(tables, "PROJECT", "proj_id") == [G.PROJECT]
    ensures Column(tables, "CALENDAR", "clndr_id") == ["101", "102"]
    ensures Column(tables, "UDFTYPE", "udf_type_id") == ["901", "902", "903"]
    ensures Column(tables, "RSRC", "rsrc_id") == Map(G.TradeId, seq(10, i requires 0 <= i < 10 => i))
    ensures Map(WbsOf, Rows(tables, "PROJWBS")) == Map(G.WbsView(tx.short), p.wbs)
  {
    var ts := SharedTables(tx, p);
    assert ts[1] in ts && ts[2] in ts && ts[3] in ts && ts[4] in ts && ts[5] in ts;
    hide Writable, Rows, Column;
    ProjRead(tx, p.months, tables);
    CalendarRead(tables);
    TypeRead(tables);
    TradeRead(tx, tables);
    WbsRead(tx, p.wbs, tables);
  }

  /** The first column of a table is read back under its name. */
  lemma FirstColumn(tables: Tables, name: string, fields: Cells, rows: seq<Cells>, values: Cells)
    requires NoDup(fields) && fields != [] && forall i :: 0 <= i < |rows| ==> |rows[i]| == |fields|
    requires Rows(tables, name) == ZipRows(fields, rows)
    requires |values| == |rows|
             && forall i :: 0 <= i < |rows| ==> rows[i][0] == values[i] && Strip(values[i]) == values[i]
    ensures Column(tables, name, fields[0]) == values
  {
    hide Zip, Cell, Strip, Rows, Column;
    forall i | 0 <= i < |rows| ensures Cell(Rows(tables, name)[i], fields[0]) == values[i] {
      ReadCell(fields, rows[i], 0);
    }
    ColumnIs(tables, name, fields[0], values);
  }

  lemma ProjRead(tx: Texts, months: int, tables: Tables)
    requires |ProjCells(tx, months)| == |PROJ_FIELDS|
    requires Rows(tables, "PROJECT") == ZipRows(PROJ_FIELDS, [ProjCells(tx, months)])
    ensures Column(tables, "PROJECT", "proj_id") == [G.PROJECT]
  {
    SharedFields();
    Literal(G.PROJECT);
    FirstColumn(tables, "PROJECT", PROJ_FIELDS, [ProjCells(tx, months)], [G.PROJECT])
      by { hide Strip, Clean, G.PROJECT, Rows; }
  }

  lemma CalendarRead(tables: Tables)
    requires Rows(tables, "CALENDAR") == ZipRows(CLNDR_FIELDS, [TWO_SHIFT, ROUND_THE_CLOCK])
    ensures Column(tables, "CALENDAR", "clndr_id") == ["101", "102"]
  {
    SharedFields();
    Literal("101");
    Literal("102");
    FirstColumn(tables, "CALENDAR", CLNDR_FIELDS, [TWO_SHIFT, ROUND_THE_CLOCK], ["101", "102"])
      by { hide Strip, Clean, Rows; }
  }

  lemma TypeRead(tables: Tables)
    requires Rows(tables, "UDFTYPE") == ZipRows(TYPE_FIELDS, [LOCATION, WORK_ITEM, WORK_TYPE])
    ensures Column(tables, "UDFTYPE", "udf_type_id") == ["901", "902", "903"]
  {
    SharedFields();
    Literal("901");
    Literal("902");
    Literal("903");
    FirstColumn(tables, "UDFTYPE", TYPE_FIELDS, [LOCATION, WORK_ITEM, WORK_TYPE], ["901", "902", "903"])
      by { hide Strip, Clean, Rows; }
  }

  lemma TradeRead(tx: Texts, tables: Tables)
    requires Rows(tables, "RSRC") == ZipRows(TRADE_FIELDS, seq(10, i requires 0 <= i < 10 => TradeCells(tx, i)))
    ensures Column(tables, "RSRC", "rsrc_id") == Map(G.TradeId, seq(10, i requires 0 <= i < 10 => i))
  {
    SharedFields();
    var ids := Map(G.TradeId, seq(10, i requires 0 <= i < 10 => i));
    hide Strip, Rows, Dec;
    forall i | 0 <= i < 10 ensures Strip(ids[i]) == ids[i] && TradeCells(tx, i)[0] == ids[i] {
      DecCell(7001 + i);
    }
    FirstColumn(tables, "RSRC", TRADE_FIELDS, seq(10, i requires 0 <= i < 10 => TradeCells(tx, i)), ids);
  }

  lemma WbsRead(tx: Texts, wbs: seq<G.WbsRow>, tables: Tables)
    requires Printable(tx) && Rows(tables, "PROJWBS") == ZipRows(WBS_FIELDS, Map(WbsCells(tx), wbs))
    ensures Map(WbsOf, Rows(tables, "PROJWBS")) == Map(G.WbsView(tx.short), wbs)
  {
    forall i | 0 <= i < |wbs|
        ensures WbsOf(Zip(WBS_FIELDS, Stripped(WbsCells(tx)(wbs[i])))) == G.WbsView(tx.short)(wbs[i]) {
      OneWbsRead(tx, wbs[i]);
    }
    hide Rows, WbsOf, Zip, Stripped, G.WbsView;
  }

  lemma OneWbsRead(tx: Texts, w: G.WbsRow)
    requires Printable(tx)
    ensures WbsOf(Zip(WBS_FIELDS, Stripped(WbsCells(tx)(w)))) == G.WbsView(tx.short)(w)
  {
    SharedFields();
    FixedCells();
    DecCell(w.id);
    if w.parent.Some? {
      DecCell(w.parent.value);
    }
    hide Strip, Clean, Zip, Cell, Dec;
    ReadCell(WBS_FIELDS, WbsCells(tx)(w), 0);
    ReadCell(WBS_FIELDS, WbsCells(tx)(w), 2);
    ReadCell(WBS_FIELDS, WbsCells(tx)(w), 3);
  }

  lemma WorkRead(rd: Reader, tx: Texts, p: Plan, tables: Tables)
    requires Printable(tx) && ReadsBack(rd, tx) && Laid(p)
    requires Writable(TaskTable(tx, p)) && Writable(PredTable(p)) && Writable(RsrcTable(p)) && Writable(UdfTable(tx, p))
    requires forall t :: t in [TaskTable(tx, p), PredTable(p), RsrcTable(p), UdfTable(tx, p)] ==>
             Writable(t) && Rows(tables, t.name) == ZipRows(t.fields, t.rows)
    ensures Map(TaskOf(rd), Rows(tables, "TASK")) == Map(G.TaskView, p.tasks)
    ensures Map(PredOf(rd), Rows(tables, "TASKPRED")) == Map(G.PredView, p.links)
    ensures Map(AssignOf(rd), Rows(tables, "TASKRSRC")) == Map(G.AssignView, p.assigns)
    ensures Map(UdfOf, Rows(tables, "UDFVALUE")) == Map(G.UdfView, p.udfs)
  {
    forall i | 0 <= i < |p.tasks|
        ensures TaskOf(rd)(Zip(TASK_FIELDS, Stripped(TaskCells(tx)(p.tasks[i])))) == G.TaskView(p.tasks[i]) {
      TaskRead(rd, tx, p.tasks[i]);
    }
    forall l ensures PredOf(rd)(Zip(PRED_FIELDS, Stripped(PredCells(l)))) == G.PredView(l) {
      PredRead(rd, tx, l);
    }
    forall i: nat, a ensures AssignOf(rd)(Zip(RSRC_FIELDS, Stripped(AssignCells(i, a)))) == G.AssignView(a) {
      AssignRead(rd, tx, i, a);
    }
    forall i: nat, u ensures UdfOf(Zip(UDF_FIELDS, Stripped(UdfCells(tx, i, u)))) == G.UdfView(u) {
      UdfRead(tx, i, u);
    }
    hide TaskOf, PredOf, AssignOf, UdfOf, Zip, Stripped, Rows, G.TaskView, G.PredView, G.AssignView, G.UdfView,
      TaskCells, PredCells, AssignCells, UdfCells;
  }

  /** The file says what was laid down: parsed and read section by section it is the
      generated schedule. */
  lemma FileReadsBack(rd: Reader, tx: Texts, p: Plan, header: string)
    requires Printable(tx) && ReadsBack(rd, tx) && Laid(p) && IsHeader(header)
    ensures forall t :: t in FileTables(tx, p) ==> Writable(t)
    ensures ParseText(Render(header, FileTables(tx, p))) == Ok(Collect(map[], FileTables(tx, p)))
    ensures ScheduleOf(rd, Collect(map[], FileTables(tx, p)))
            == G.View(tx.short, p.wbs, p.tasks, p.assigns, p.udfs, p.links)
  {
    FileWritable(tx, p);
    ParseRender(header, FileTables(tx, p));
    var tables := Collect(map[], FileTables(tx, p));
    hide ParseText, Render, IsHeader, Collect, Writable, ZipRows, Rows, Column, Laid, Printable, ReadsBack;
    hide TaskTable, PredTable, RsrcTable, UdfTable, SharedTables, TaskOf, PredOf, AssignOf, UdfOf, WbsOf, G.TaskView,
      G.PredView, G.AssignView, G.UdfView, G.WbsView, G.TradeId;
    forall t | t in FileTables(tx, p) ensures Rows(tables, t.name) == ZipRows(t.fields, t.rows) {
      TableRead(tx, p, t);
    }
    SharedRead(tx, p, tables);
    WorkRead(rd, tx, p, tables);
  }

  /** The generated file parses, and its references, dates, statuses and hours are right,
      whatever was drawn. */
  lemma GeneratedFilePasses(rd: Reader, tx: Texts, p: Plan, header: string)
    requires Printable(tx) && ReadsBack(rd, tx) && Laid(p) && IsHeader(header)
    ensures var r := ParseText(Render(header, FileTables(tx, p)));
            && r.Ok?
            && var s := ScheduleOf(rd, r.value);
               C.RefsResolve(s) && C.HoursAgree(s) && forall t :: t in s.tasks ==> C.DatesOk(t) && C.StatusOk(t)
  {
    FileReadsBack(rd, tx, p, header);
    G.WbsIsClosed(p.wbs);
    G.GeneratedPasses(tx.short, p.wbs, p.months, p.tasks, p.assigns, p.udfs, p.links);
    hide *;
  }

  // ----- The stress file ------------------------------------------------------------------------------------

  /** The counters stay below the stride between clones. */
  ghost predicate IdsFit(p: Plan) {
    G.FIRST + |p.tasks| <= K.STRIDE && 980000 + |p.assigns| <= K.STRIDE && G.FIRST_LINK + |p.links| <= K.STRIDE
  }

  lemma DecReference(n: nat)
    requires n < K.STRIDE
    ensures K.Reference(Dec(n))
  {
    ValueOfDec(n);
  }

  lemma IdColumnsOfTask()
    ensures forall j :: 0 <= j < |TASK_FIELDS| && TASK_FIELDS[j] in SHIFTED ==> j == 0
    ensures forall j :: 0 <= j < |TASK_FIELDS| && TASK_FIELDS[j] == CODE ==> j == 4
  {
    TaskFieldsDistinct();
    assert TASK_FIELDS[4] == CODE;
    forall j | 0 < j < |TASK_FIELDS| ensures TASK_FIELDS[j] !in SHIFTED {
      NotShifted(j);
    }
  }

  lemma NotShifted(j: nat)
    requires 0 < j < |TASK_FIELDS|
    ensures TASK_FIELDS[j] !in SHIFTED
  {
    assert |SHIFTED[0]| == 7 && |SHIFTED[1]| == 12 && |SHIFTED[2]| == 12 && |SHIFTED[3]| == 11 && |SHIFTED[4]| == 5;
  }

  lemma IdColumnsOfNet()
    ensures forall j :: 0 <= j < |PRED_FIELDS| ==> PRED_FIELDS[j] != CODE && (PRED_FIELDS[j] in SHIFTED ==> j <= 2)
    ensures forall j :: 0 <= j < |RSRC_FIELDS| ==> RSRC_FIELDS[j] != CODE && (RSRC_FIELDS[j] in SHIFTED ==> j <= 1)
    ensures forall j :: 0 <= j < |UDF_FIELDS| ==> UDF_FIELDS[j] != CODE && (UDF_FIELDS[j] in SHIFTED ==> j == 1)
  {
    assert |CODE| == 9 && |SHIFTED[0]| == 7 && |SHIFTED[1]| == 12 && |SHIFTED[2]| == 12 && |SHIFTED[3]| == 11
           && |SHIFTED[4]| == 5;
  }

  lemma TaskRowCanonical(tx: Texts, r: G.TaskRow)
    requires Printable(tx) && G.FIRST <= r.id < K.STRIDE
    ensures CanonicalRow(TASK_FIELDS, TaskCells(tx)(r))
  {
    TaskWidth();
    IdColumnsOfTask();
    TaskKept(tx, r);
    DecReference(r.id);
    hide Strip, Clean, SHIFTED, CODE, TASK_FIELDS, Dec, K.Reference;
    assert TaskCells(tx)(r)[0] == Dec(r.id);
    hide TaskCells;
    assert Kept(TaskCells(tx)(r)[4]);
  }

  lemma PredRowCanonical(l: G.Link)
    requires l.id < K.STRIDE && l.succ < K.STRIDE && l.pred < K.STRIDE
    ensures CanonicalRow(PRED_FIELDS, PredCells(l))
  {
    IdColumnsOfNet();
    DecReference(l.id);
    DecReference(l.succ);
    DecReference(l.pred);
    assert |PRED_FIELDS| == 7;
    hide Strip, SHIFTED, CODE, PRED_FIELDS, Dec, K.Reference;
  }

  lemma AssignRowCanonical(i: nat, a: G.AssignRow)
    requires 980000 + i < K.STRIDE && a.task < K.STRIDE
    ensures CanonicalRow(RSRC_FIELDS, AssignCells(i, a))
  {
    IdColumnsOfNet();
    DecReference(980000 + i);
    DecReference(a.task);
    assert |RSRC_FIELDS| == 7;
    hide Strip, SHIFTED, CODE, RSRC_FIELDS, Dec, K.Reference;
  }

  lemma UdfRowCanonical(tx: Texts, i: nat, u: G.UdfRow)
    requires u.task < K.STRIDE
    ensures CanonicalRow(UDF_FIELDS, UdfCells(tx, i, u))
  {
    IdColumnsOfNet();
    DecReference(u.task);
    assert |UDF_FIELDS| == 4;
    hide Strip, SHIFTED, CODE, UDF_FIELDS, Dec, K.Reference;
  }

  lemma TablesClonable(tx: Texts, p: Plan)
    requires Printable(tx) && Laid(p) && IdsFit(p)
    ensures Clonable(TaskTable(tx, p)) && Clonable(PredTable(p)) && Clonable(RsrcTable(p)) && Clonable(UdfTable(tx, p))
  {
    TaskFields();
    PredFields();
    RsrcFields();
    UdfFields();
    hide CanonicalRow, TaskCells, PredCells, AssignCells, UdfCells, CleanCells, NoDup, TASK_FIELDS, PRED_FIELDS,
      RSRC_FIELDS, UDF_FIELDS, G.RowOk, G.IsWbs;
    forall r | r in TaskTable(tx, p).rows ensures CanonicalRow(TASK_FIELDS, r) {
      var i :| 0 <= i < |p.tasks| && r == TaskCells(tx)(p.tasks[i]);
      TaskRowCanonical(tx, p.tasks[i]);
    }
    forall r | r in PredTable(p).rows ensures CanonicalRow(PRED_FIELDS, r) {
      var i :| 0 <= i < |p.links| && r == PredCells(p.links[i]);
      assert p.links[i] in p.links;
      PredRowCanonical(p.links[i]);
    }
    forall r | r in RsrcTable(p).rows ensures CanonicalRow(RSRC_FIELDS, r) {
      var i :| 0 <= i < |p.assigns| && r == AssignCells(i, p.assigns[i]);
      assert p.assigns[i] in p.assigns;
      AssignRowCanonical(i, p.assigns[i]);
    }
    forall r | r in UdfTable(tx, p).rows ensures CanonicalRow(UDF_FIELDS, r) {
      var i :| 0 <= i < |p.udfs| && r == UdfCells(tx, i, p.udfs[i]);
      assert p.udfs[i] in p.udfs;
      UdfRowCanonical(tx, i, p.udfs[i]);
    }
  }

  lemma SharedNotCloned(tx: Texts, p: Plan)
    ensures forall t :: t in SharedTables(tx, p) ==> t.name !in CLONED
  {
    WhichAreCloned();
    assert "CURRTYPE"[0] == 'C';
    hide CURR_FIELDS, CLNDR_FIELDS, PROJ_FIELDS, WBS_FIELDS, TRADE_FIELDS, TYPE_FIELDS;
  }

  lemma GeneratedIsBase(tx: Texts, p: Plan, header: string)
    requires Printable(tx) && Laid(p) && IdsFit(p) && IsHeader(header) && !Begins(header, 'T')
    ensures Base(header, FileTables(tx, p))
  {
    FileWritable(tx, p);
    FileDistinct(tx, p);
    TablesClonable(tx, p);
    SharedNotCloned(tx, p);
    HasAll(tx, p);
    hide *;
    BaseFrom(tx, p, header);
  }

  lemma HasAll(tx: Texts, p: Plan)
    ensures HasCloned(FileTables(tx, p))
  {
    EmittedDistinct();
    var ts := FileTables(tx, p);
    assert ts[6].name == "TASK" && ts[7].name == "TASKPRED" && ts[8].name == "TASKRSRC" && ts[9].name == "UDFVALUE";
    forall name | name in CLONED ensures exists t :: t in ts && t.name == name {
      var i :| 0 <= i < |EMITTED| && EMITTED[i] == name;
      assert ts[6 + i].name == name && ts[6 + i] in ts;
    }
  }

  lemma BaseFrom(tx: Texts, p: Plan, header: string)
    requires IsHeader(header) && !Begins(header, 'T')
    requires DistinctNames(FileTables(tx, p)) && (forall t :: t in FileTables(tx, p) ==> Writable(t))
             && HasCloned(FileTables(tx, p))
    requires Clonable(TaskTable(tx, p)) && Clonable(PredTable(p)) && Clonable(RsrcTable(p)) && Clonable(UdfTable(tx, p))
    requires forall t :: t in SharedTables(tx, p) ==> t.name !in CLONED
    ensures Base(header, FileTables(tx, p))
  {
    hide IsHeader, Begins, DistinctNames, Writable, HasCloned, Clonable, SharedTables, TaskTable, PredTable,
      RsrcTable, UdfTable, CLONED;
  }

  lemma TasksAreNamed(tx: Texts, p: Plan, tables: Tables)
    requires Printable(tx) && Laid(p) && Writable(TaskTable(tx, p))
    requires Rows(tables, "TASK") == ZipRows(TASK_FIELDS, Map(TaskCells(tx), p.tasks))
    ensures TasksNamed(tables)
  {
    hide Rows, Zip, Cell, Strip, G.RowOk, G.IsWbs;
    forall i | 0 <= i < |p.tasks|
        ensures var r := Zip(TASK_FIELDS, Stripped(TaskCells(tx)(p.tasks[i]))); CODE in r && Cell(r, "task_id") != "" {
      OneTaskNamed(tx, p.tasks[i]);
    }
    hide Stripped, TaskCells, CODE;
  }

  lemma OneTaskNamed(tx: Texts, r: G.TaskRow)
    requires Printable(tx) && r.id >= G.FIRST
    ensures var row := Zip(TASK_FIELDS, Stripped(TaskCells(tx)(r))); CODE in row && Cell(row, "task_id") != ""
  {
    TaskFieldsDistinct();
    NamedFields();
    DecCell(r.id);
    hide TASK_FIELDS, Zip, Strip, Clean, Stripped, Cell, Dec;
    ReadCell(TASK_FIELDS, TaskCells(tx)(r), 0);
    ZipKeys(TASK_FIELDS, Stripped(TaskCells(tx)(r)));
  }

  lemma NamedFields()
    ensures |TASK_FIELDS| == 17 && TASK_FIELDS[0] == "task_id" && TASK_FIELDS[4] == CODE
  {
  }

  /** Generated activities have codes of their own, spelled without the letter a clone's
      suffix begins with. */
  lemma GeneratedCodes(short: nat -> string, p: Plan, n: nat)
    requires Laid(p)
    ensures var s := G.View(short, p.wbs, p.tasks, p.assigns, p.udfs, p.links);
            NoDup(K.CodesOf(s)) && K.CodesApart(K.CodesOf(s), n)
  {
    CodesCounted(short, p);
    CountedCodes(K.CodesOf(G.View(short, p.wbs, p.tasks, p.assigns, p.udfs, p.links)), n);
  }

  lemma CodesCounted(short: nat -> string, p: Plan)
    requires Laid(p)
    ensures var codes := K.CodesOf(G.View(short, p.wbs, p.tasks, p.assigns, p.udfs, p.links));
            |codes| == |p.tasks| && forall i :: 0 <= i < |codes| ==> codes[i] == G.Code(G.FIRST + i)
  {
    hide G.Code, G.StatusCode, G.RowOk, Dec, G.IsWbs, G.AssignOk, G.UdfOk, G.LinkRefs;
    forall i | 0 <= i < |p.tasks| ensures p.tasks[i].id == G.FIRST + i {
    }
    hide Laid;
    var s := G.View(short, p.wbs, p.tasks, p.assigns, p.udfs, p.links);
    assert s.tasks == Map(G.TaskView, p.tasks);
  }

  lemma CountedCodes(codes: seq<string>, n: nat)
    requires forall i :: 0 <= i < |codes| ==> codes[i] == G.Code(G.FIRST + i)
    ensures NoDup(codes) && K.CodesApart(codes, n)
  {
    hide G.Code, K.CodesApart, K.PlainCode, Value;
    forall i, j | 0 <= i < j < |codes| ensures codes[i] != codes[j] {
      CodeIs(G.FIRST + i);
      CodeIs(G.FIRST + j);
    }
    forall c | c in codes ensures K.PlainCode(c) {
      var i :| 0 <= i < |codes| && codes[i] == c;
      CodeIs(G.FIRST + i);
    }
    K.PlainCodesApart(codes, n);
  }

  /** An activity code is an A and digits that count in tens from twenty. */
  lemma CodeIs(id: nat)
    requires id >= G.FIRST
    ensures var c := G.Code(id);
            && K.PlainCode(c) && c[0] == 'A' && AllDigits(c[1..]) && Value(c[1..]) == 20 + 10 * (id - G.FIRST)
            && |c| >= 6
  {
    var n := 20 + 10 * (id - G.FIRST);
    PaddedIs(n, 5);
    hide Padded, Value;
    var c := G.Code(id);
    assert c == "A" + Padded(n, 5) && c[1..] == Padded(n, 5);
    forall i | 1 <= i < |c| ensures c[i] != 'C' {
      assert IsDigit(c[1..][i - 1]);
    }
  }

  /** The stress file. Generate a schedule, write it, clone it any number of times but
      none, and parse the result: every reference resolves, every date and status is
      right, every assignment adds up and every activity has a code of its own. */
  lemma StressFilePasses(rd: Reader, tx: Texts, p: Plan, header: string, n: nat) returns (cloned: Tables)
    requires Printable(tx) && ReadsBack(rd, tx) && Laid(p) && IdsFit(p) && n >= 1
    requires IsHeader(header) && !Begins(header, 'T')
    ensures var text := CloneText(Render(header, FileTables(tx, p)), n);
            text.Some? && ParseText(text.value) == Ok(cloned)
    ensures var s := ScheduleOf(rd, cloned);
            && C.RefsResolve(s) && C.HoursAgree(s) && (forall t :: t in s.tasks ==> C.DatesOk(t) && C.StatusOk(t))
            && NoDup(K.CodesOf(s))
  {
    GeneratedCodes(tx.short, p, n);
    GeneratedIsBase(tx, p, header);
    NamedBase(tx, p, header);
    FileReadsBack(rd, tx, p, header);
    G.WbsIsClosed(p.wbs);
    G.GeneratedPasses(tx.short, p.wbs, p.months, p.tasks, p.assigns, p.udfs, p.links);
    hide *;
    cloned := CloneKeepsVerdict(rd, header, FileTables(tx, p), n);
    K.CloneCodesDistinctIff(G.View(tx.short, p.wbs, p.tasks, p.assigns, p.udfs, p.links), n);
  }

  lemma NamedBase(tx: Texts, p: Plan, header: string)
    requires Printable(tx) && Laid(p) && Base(header, FileTables(tx, p))
    ensures forall t :: t in FileTables(tx, p) ==> Writable(t)
    ensures BaseTables(header, FileTables(tx, p)) == Collect(map[], FileTables(tx, p))
    ensures TasksNamed(BaseTables(header, FileTables(tx, p)))
  {
    var t := TaskTable(tx, p);
    assert t in FileTables(tx, p) && t.name == "TASK";
    TableRead(tx, p, t);
    hide FileTables, Base, Rows, Writable, Collect, TasksNamed;
    TasksAreNamed(tx, p, BaseTables(header, FileTables(tx, p)));
  }

  lemma CountedColumn(t: Table, first: nat, n: nat)
    requires Clonable(t) && t.fields != [] && t.fields[0] in SHIFTED
    requires forall i :: 0 <= i < |t.rows| ==> |t.rows[i]| > 0 && t.rows[i][0] == Dec(first + i)
    requires first + |t.rows| <= K.STRIDE
    ensures NoDup(ColumnOf(ClonedTable(t, n).rows, 0))
  {
    hide SHIFTED, Clonable, Dec;
    var ids := ColumnOf(t.rows, 0);
    forall i, j | 0 <= i < j < |ids| ensures ids[i] != ids[j] {
      if ids[i] == ids[j] { DecInjective(first + i, first + j); }
    }
    forall c | c in ids ensures K.Canonical(c) {
      var i :| 0 <= i < |ids| && ids[i] == c;
      DecReference(first + i);
    }
    ColumnStaysDistinct(t, n, 0);
  }

  /** Every task, every link and every assignment of the stress file has an id of its own. */
  lemma StressIdsDistinct(tx: Texts, p: Plan, n: nat)
    requires Printable(tx) && Laid(p) && IdsFit(p)
    ensures NoDup(ColumnOf(ClonedTable(TaskTable(tx, p), n).rows, 0))
    ensures NoDup(ColumnOf(ClonedTable(PredTable(p), n).rows, 0))
    ensures NoDup(ColumnOf(ClonedTable(RsrcTable(p), n).rows, 0))
  {
    TablesClonable(tx, p);
    NamedFields();
    FirstFields();
    hide Clonable, SHIFTED, Dec, TASK_FIELDS, PRED_FIELDS, RSRC_FIELDS;
    CountedColumn(TaskTable(tx, p), G.FIRST, n);
    CountedColumn(PredTable(p), G.FIRST_LINK, n);
    CountedColumn(RsrcTable(p), 980000, n);
  }

  lemma FirstFields()
    ensures |TASK_FIELDS| == 17 && TASK_FIELDS[0] in SHIFTED
    ensures |PRED_FIELDS| == 7 && PRED_FIELDS[0] in SHIFTED && |RSRC_FIELDS| == 7 && RSRC_FIELDS[0] in SHIFTED
  {
    assert SHIFTED[0] == "task_id" && SHIFTED[1] == "task_pred_id" && SHIFTED[3] == "taskrsrc_id";
  }

  // ----- The whole script ------------------------------------------------------------------------

  /** Generate and write: whatever is drawn, what is written is a plan that has been laid
      down, so everything above holds of it. */
  method WriteSchedule(
      months: int, chains: seq<G.ChainDraw>, services: seq<G.ChainDraw>, general: seq<G.ChainDraw>, gap: G.ChainDraw,
      reviewDays: seq<int>, picks: seq<seq<nat>>, d: G.TaskDraw, tx: Texts, header: string)
    returns (text: string, p: Plan)
    requires months >= 1 && G.ValidTaskDraw(d) && |reviewDays| == 6 && |picks| == 6
    requires forall c :: c in chains ==> G.ValidChain(c, months) && c.wbs.System?
    requires forall c :: c in services ==> G.ValidChain(c, months)
    requires forall c :: c in general ==> G.ValidChain(c, months)
    requires G.ValidChain(gap, months)
    ensures Laid(p) && p.months == months && text == Render(header, FileTables(tx, p))
    ensures forall c :: c in chains ==> c.wbs.z < 6
    ensures G.Whole(months, chains, services, general, gap, reviewDays, picks, d)
            == G.State(p.tasks, p.links, p.assigns, p.udfs, G.FIRST_LINK - 1 + |p.links|)
  {
    hide Render, FileTables, G.IsWbs, G.Whole, G.RowsOk, G.ValidChain;
    var wbs := G.BuildWbs();
    var g, lightOff := G.Generate(months, chains, services, general, gap, reviewDays, picks, d);
    p := Plan(months, wbs, g.tasks, g.assigns, g.udfs, g.links);
    text := Render(header, FileTables(tx, p));
  }
}
