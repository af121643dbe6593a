/** From the base file to the verdict on its clones: reading the validator's schedule off
    the cloned file's tables gives the cloned schedule, so the checks come out as they do
    for the base. */
module CloneVerdict {
  import opened Sequences
  import opened XerText
  import opened XerCheck
  import opened CloneCheck
  import opened XerClone
  import opened ClonedFile

  /** How cells are converted: `strptime` on a filled cell, `float`. */
  datatype Reader = Reader(when: string -> Instant, hours: string -> real)

  function Cell(r: Row, field: string): string {
    if field in r then r[field] else ""
  }

  /** An instant, or nothing for an empty cell. */
  function When(rd: Reader, c: string): Option<Instant> {
    if c == "" then None else Some(rd.when(c))
  }

  /** `tables.get(name, [])`. */
  function Rows(tables: Tables, name: string): seq<Row> {
    if name in tables then tables[name] else []
  }

  function TaskOf(rd: Reader): Row -> Task {
    (r: Row) => Task(
      Cell(r, "task_id"), Cell(r, "proj_id"), Cell(r, "wbs_id"), Cell(r, "clndr_id"), Cell(r, CODE),
      Cell(r, "task_type"), Cell(r, "status_code"),
      When(rd, Cell(r, "target_start_date")), When(rd, Cell(r, "target_end_date")),
      When(rd, Cell(r, "early_start_date")), When(rd, Cell(r, "early_end_date")),
      When(rd, Cell(r, "act_start_date")), When(rd, Cell(r, "act_end_date")))
  }

  function WbsOf(r: Row): Wbs {
    Wbs(Cell(r, "wbs_id"), Cell(r, "parent_wbs_id"), Cell(r, "wbs_short_name"))
  }

  function PredOf(rd: Reader): Row -> Pred {
    (r: Row) => Pred(Cell(r, "task_id"), Cell(r, "pred_task_id"), Cell(r, "pred_type"), rd.hours(Cell(r, "lag_hr_cnt")))
  }

  function AssignOf(rd: Reader): Row -> Assign {
    (r: Row) => Assign(
      Cell(r, "task_id"), Cell(r, "proj_id"), Cell(r, "rsrc_id"),
      rd.hours(Cell(r, "target_qty")), rd.hours(Cell(r, "act_reg_qty")), rd.hours(Cell(r, "remain_qty")))
  }

  function UdfOf(r: Row): Udf {
    Udf(Cell(r, "proj_id"), Cell(r, "udf_type_id"), Cell(r, "fk_id"))
  }

  function Column(tables: Tables, name: string, field: string): seq<string> {
    Map((r: Row) => Cell(r, field), Rows(tables, name))
  }

  /** The schedule the validator's checks look at. */
  function ScheduleOf(rd: Reader, tables: Tables): Schedule {
    Schedule(
      Column(tables, "PROJECT", "proj_id"), Map(WbsOf, Rows(tables, "PROJWBS")), Column(tables, "CALENDAR", "clndr_id"),
      Column(tables, "RSRC", "rsrc_id"), Column(tables, "UDFTYPE", "udf_type_id"),
      Map(TaskOf(rd), Rows(tables, "TASK")), Map(PredOf(rd), Rows(tables, "TASKPRED")),
      Map(AssignOf(rd), Rows(tables, "TASKRSRC")), Map(UdfOf, Rows(tables, "UDFVALUE")))
  }

  // ----- Columns the cloner leaves alone -----------------------------------------------------

  lemma LeftAlone(field: string)
    requires field in {"proj_id", "wbs_id", "clndr_id", "rsrc_id", "udf_type_id", "task_type", "status_code",
                       "pred_type", "lag_hr_cnt", "target_start_date", "target_end_date", "early_start_date",
                       "early_end_date", "act_start_date", "act_end_date", "target_qty", "act_reg_qty", "remain_qty"}
    ensures field !in SHIFTED && field != CODE
  {
    assert |CODE| == 9 && |SHIFTED[0]| == 7 && |SHIFTED[1]| == 12 && |SHIFTED[2]| == 12 && |SHIFTED[3]| == 11
           && |SHIFTED[4]| == 5;
  }

  lemma IdColumns()
    ensures "task_id" in SHIFTED && "pred_task_id" in SHIFTED && "fk_id" in SHIFTED
  {
    assert SHIFTED[0] == "task_id" && SHIFTED[2] == "pred_task_id" && SHIFTED[4] == "fk_id";
  }

  lemma SameCell(k: nat, r: Row, field: string)
    requires field !in SHIFTED && field != CODE
    ensures Cell(RowCopy(k)(r), field) == Cell(r, field)
  {
    hide SHIFTED, CODE;
  }

  lemma ShiftedCell(k: nat, r: Row, field: string)
    requires field in SHIFTED
    ensures Cell(RowCopy(k)(r), field) == Shift(k, Cell(r, field))
  {
    hide SHIFTED, CODE;
  }

  lemma CodedCell(k: nat, r: Row)
    requires CODE in r
    ensures Cell(RowCopy(k)(r), CODE) == Coded(k, Cell(r, CODE))
  {
    CodeIsNotShifted();
    hide SHIFTED, CODE;
  }

  lemma TaskOfCopy(rd: Reader, k: nat, r: Row)
    requires CODE in r
    ensures TaskOf(rd)(RowCopy(k)(r)) == CloneTask(k)(TaskOf(rd)(r))
  {
    hide Cell, RowCopy, SHIFTED, CODE, Shift, Coded;
    IdColumns();
    ShiftedCell(k, r, "task_id");
    CodedCell(k, r);
    forall field | field in {"proj_id", "wbs_id", "clndr_id", "task_type", "status_code", "target_start_date",
                             "target_end_date",
                             "early_start_date", "early_end_date", "act_start_date", "act_end_date"}
      ensures Cell(RowCopy(k)(r), field) == Cell(r, field)
    {
      LeftAlone(field);
      SameCell(k, r, field);
    }
  }

  lemma PredOfCopy(rd: Reader, k: nat, r: Row)
    ensures PredOf(rd)(RowCopy(k)(r)) == ClonePred(k)(PredOf(rd)(r))
  {
    hide Cell, RowCopy, SHIFTED, CODE, Shift, Coded;
    IdColumns();
    ShiftedCell(k, r, "task_id");
    ShiftedCell(k, r, "pred_task_id");
    LeftAlone("pred_type");
    LeftAlone("lag_hr_cnt");
    SameCell(k, r, "pred_type");
    SameCell(k, r, "lag_hr_cnt");
  }

  lemma AssignOfCopy(rd: Reader, k: nat, r: Row)
    ensures AssignOf(rd)(RowCopy(k)(r)) == CloneAssign(k)(AssignOf(rd)(r))
  {
    hide Cell, RowCopy, SHIFTED, CODE, Shift, Coded;
    IdColumns();
    ShiftedCell(k, r, "task_id");
    forall field | field in {"proj_id", "rsrc_id", "target_qty", "act_reg_qty", "remain_qty"}
      ensures Cell(RowCopy(k)(r), field) == Cell(r, field)
    {
      LeftAlone(field);
      SameCell(k, r, field);
    }
  }

  lemma UdfOfCopy(k: nat, r: Row)
    ensures UdfOf(RowCopy(k)(r)) == CloneUdf(k)(UdfOf(r))
  {
    hide Cell, RowCopy, SHIFTED, CODE, Shift, Coded;
    IdColumns();
    ShiftedCell(k, r, "fk_id");
    LeftAlone("proj_id");
    LeftAlone("udf_type_id");
    SameCell(k, r, "proj_id");
    SameCell(k, r, "udf_type_id");
  }

  // ----- Reading the clones is cloning what was read --------------------------------------------

  ghost predicate CopiedTables(base: Tables, cloned: Tables, n: nat) {
    && cloned.Keys == base.Keys
    && forall name :: name in cloned ==>
        cloned[name] == if name in CLONED then Copies(RowCopy, base[name], 0, n) else base[name]
  }

  lemma CopiedRows(base: Tables, cloned: Tables, n: nat, name: string)
    requires CopiedTables(base, cloned, n)
    ensures Rows(cloned, name) == if name in CLONED then Copies(RowCopy, Rows(base, name), 0, n) else Rows(base, name)
  {
    if name !in base {
      NoCopies(n);
    }
    hide RowCopy, CLONED, Copies;
  }

  lemma NoCopies(n: nat)
    ensures Copies(RowCopy, [], 0, n) == []
  {
    if Copies(RowCopy, [], 0, n) != [] {
      CopiesAre(RowCopy, [], 0, n, Copies(RowCopy, [], 0, n)[0]);
      assert false;
    }
  }

  lemma WhichAreCloned()
    ensures "TASK" in CLONED && "TASKPRED" in CLONED && "TASKRSRC" in CLONED && "UDFVALUE" in CLONED
    ensures forall name :: name in {"PROJECT", "PROJWBS", "CALENDAR", "RSRC", "UDFTYPE"} ==> name !in CLONED
  {
    assert "UDFTYPE"[3] == 'T';
  }

  lemma CopiedSections(base: Tables, cloned: Tables, n: nat)
    requires CopiedTables(base, cloned, n)
    ensures Rows(cloned, "TASK") == Copies(RowCopy, Rows(base, "TASK"), 0, n)
    ensures Rows(cloned, "TASKPRED") == Copies(RowCopy, Rows(base, "TASKPRED"), 0, n)
    ensures Rows(cloned, "TASKRSRC") == Copies(RowCopy, Rows(base, "TASKRSRC"), 0, n)
    ensures Rows(cloned, "UDFVALUE") == Copies(RowCopy, Rows(base, "UDFVALUE"), 0, n)
    ensures Rows(cloned, "PROJECT") == Rows(base, "PROJECT") && Rows(cloned, "PROJWBS") == Rows(base, "PROJWBS")
    ensures Rows(cloned, "CALENDAR") == Rows(base, "CALENDAR") && Rows(cloned, "RSRC") == Rows(base, "RSRC")
    ensures Rows(cloned, "UDFTYPE") == Rows(base, "UDFTYPE")
  {
    WhichAreCloned();
    hide CLONED, RowCopy, Copies, CopiedTables, Rows;
    forall name ensures Rows(cloned, name) ==
              if name in CLONED then Copies(RowCopy, Rows(base, name), 0, n) else Rows(base, name) {
      CopiedRows(base, cloned, n, name);
    }
  }

  lemma ScheduleOfClones(rd: Reader, base: Tables, cloned: Tables, n: nat)
    requires CopiedTables(base, cloned, n) && forall r :: r in Rows(base, "TASK") ==> CODE in r
    ensures ScheduleOf(rd, cloned) == CloneSchedule(ScheduleOf(rd, base), n)
  {
    CopiedSections(base, cloned, n);
    hide CLONED, RowCopy, Copies, TaskOf, PredOf, AssignOf, UdfOf, WbsOf, Cell, CopiedTables, Rows, CODE, CloneTask,
      ClonePred, CloneAssign, CloneUdf;
    TaskCopies(rd, Rows(base, "TASK"), n);
    NetCopies(rd, Rows(base, "TASKPRED"), Rows(base, "TASKRSRC"), Rows(base, "UDFVALUE"), n);
  }

  lemma TaskCopies(rd: Reader, rows: seq<Row>, n: nat)
    requires forall r :: r in rows ==> CODE in r
    ensures Map(TaskOf(rd), Copies(RowCopy, rows, 0, n)) == Copies(CloneTask, Map(TaskOf(rd), rows), 0, n)
  {
    hide RowCopy, Copies, TaskOf, CODE, CloneTask;
    forall k: nat, r | r in rows ensures TaskOf(rd)(RowCopy(k)(r)) == CloneTask(k)(TaskOf(rd)(r)) {
      TaskOfCopy(rd, k, r);
    }
    MapCopies(TaskOf(rd), RowCopy, CloneTask, rows, 0, n);
  }

  lemma NetCopies(rd: Reader, preds: seq<Row>, assigns: seq<Row>, udfs: seq<Row>, n: nat)
    ensures Map(PredOf(rd), Copies(RowCopy, preds, 0, n)) == Copies(ClonePred, Map(PredOf(rd), preds), 0, n)
    ensures Map(AssignOf(rd), Copies(RowCopy, assigns, 0, n)) == Copies(CloneAssign, Map(AssignOf(rd), assigns), 0, n)
    ensures Map(UdfOf, Copies(RowCopy, udfs, 0, n)) == Copies(CloneUdf, Map(UdfOf, udfs), 0, n)
  {
    hide RowCopy, Copies, PredOf, AssignOf, UdfOf, ClonePred, CloneAssign, CloneUdf;
    forall k: nat, r
      ensures PredOf(rd)(RowCopy(k)(r)) == ClonePred(k)(PredOf(rd)(r))
      ensures AssignOf(rd)(RowCopy(k)(r)) == CloneAssign(k)(AssignOf(rd)(r))
      ensures UdfOf(RowCopy(k)(r)) == CloneUdf(k)(UdfOf(r))
    {
      PredOfCopy(rd, k, r);
      AssignOfCopy(rd, k, r);
      UdfOfCopy(k, r);
    }
    MapCopies(PredOf(rd), RowCopy, ClonePred, preds, 0, n);
    MapCopies(AssignOf(rd), RowCopy, CloneAssign, assigns, 0, n);
    MapCopies(UdfOf, RowCopy, CloneUdf, udfs, 0, n);
  }

  // ----- Canonical cells make canonical ids --------------------------------------------------------

  /** Every task row has a code and an id. */
  ghost predicate TasksNamed(tables: Tables) {
    forall r :: r in Rows(tables, "TASK") ==> CODE in r && Cell(r, "task_id") != ""
  }

  lemma BaseCells(header: string, ts: seq<Table>, name: string, r: Row, field: string)
    requires Base(header, ts) && name in CLONED && r in Rows(BaseTables(header, ts), name) && field in SHIFTED
    ensures Reference(Cell(r, field))
  {
    hide CLONED, IsHeader, Begins, SHIFTED, Canonical;
    if field in r {
      var t := BaseTable(header, ts, name);
      CollectHas(ts, t);
      hide Collect, Zip;
      var i :| 0 <= i < |t.rows| && r == Zip(t.fields, Stripped(t.rows[i]));
      assert t.rows[i] in t.rows && Clonable(t);
      RowCell(t.fields, t.rows[i], field);
    }
  }

  lemma RowCell(fields: Cells, row: Cells, field: string)
    requires NoDup(fields) && CanonicalRow(fields, row) && field in SHIFTED && field in Zip(fields, Stripped(row))
    ensures Reference(Zip(fields, Stripped(row))[field])
  {
    ZipKeys(fields, Stripped(row));
    var j :| 0 <= j < |fields| && fields[j] == field;
    ZipLookup(fields, Stripped(row), j);
    hide SHIFTED, Canonical, Zip, Shift;
    StripShift(0, row[j]);
  }

  lemma CanonicalSchedule(rd: Reader, header: string, ts: seq<Table>)
    requires Base(header, ts) && TasksNamed(BaseTables(header, ts))
    ensures CanonicalIds(ScheduleOf(rd, BaseTables(header, ts)))
  {
    WhichAreCloned();
    IdColumns();
    hide CLONED, SHIFTED, CODE, Base, BaseTables, Canonical, Cell, Rows;
    var b := BaseTables(header, ts);
    forall name, field, r | name in CLONED && field in SHIFTED && r in Rows(b, name) ensures Reference(Cell(r, field)) {
      BaseCells(header, ts, name, r, field);
    }
  }

  // ----- The verdict ----------------------------------------------------------------------------------

  /** End to end: clone the text of a base file any number of times but none, parse what
      comes out and read the schedule. Its references resolve, its dates and statuses are
      right and its hours add up exactly when the base's do. */
  lemma CloneKeepsVerdict(rd: Reader, header: string, ts: seq<Table>, n: nat) returns (cloned: Tables)
    requires Base(header, ts) && TasksNamed(BaseTables(header, ts)) && n >= 1
    ensures var text := CloneText(Render(header, ts), n); text.Some? && ParseText(text.value) == Ok(cloned)
    ensures var s, c := ScheduleOf(rd, BaseTables(header, ts)), ScheduleOf(rd, cloned);
            && c == CloneSchedule(s, n)
            && (RefsResolve(c) <==> RefsResolve(s))
            && ((forall t :: t in c.tasks ==> DatesOk(t) && StatusOk(t)) <==>
                (forall t :: t in s.tasks ==> DatesOk(t) && StatusOk(t)))
            && (HoursAgree(c) <==> HoursAgree(s))
  {
    cloned := CloneReadsBack(header, ts, n);
    CanonicalSchedule(rd, header, ts);
    var b := BaseTables(header, ts);
    assert CopiedTables(b, cloned, n);
    assert forall r :: r in Rows(b, "TASK") ==> CODE in r;
    hide *;
    ScheduleOfClones(rd, b, cloned, n);
    ClonePreservesChecks(ScheduleOf(rd, b), n);
  }
}
