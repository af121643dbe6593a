/** The schedule validator: its section-by-section loops report nothing exactly on
    the schedules that conform, and what they check link by link bounds every path. */
module XerCheck {
  import opened Sequences

  /** Instants are minutes; the validator parses timestamps to the minute. */
  type Instant = int

  datatype Task = Task(
    id: string, proj: string, wbs: string, clndr: string, code: string, ttype: string, status: string,
    targetStart: Option<Instant>, targetEnd: Option<Instant>,
    earlyStart: Option<Instant>, earlyEnd: Option<Instant>,
    actStart: Option<Instant>, actEnd: Option<Instant>)

  datatype Wbs = Wbs(id: string, parent: string, shortName: string)
  datatype Pred = Pred(task: string, pred: string, ptype: string, lag: real)
  datatype Assign = Assign(task: string, proj: string, rsrc: string, target: real, actual: real, remain: real)
  datatype Udf = Udf(proj: string, utype: string, fk: string)

  datatype Schedule = Schedule(
    projects: seq<string>, wbs: seq<Wbs>, calendars: seq<string>, resources: seq<string>, udfTypes: seq<string>,
    tasks: seq<Task>, preds: seq<Pred>, assigns: seq<Assign>, udfs: seq<Udf>)

  datatype Finding =
    | Dangling(table: string, column: string, value: string)
    | DanglingParent(shortName: string)
    | Backwards(code: string)
    | NoEarlyPair(code: string)
    | StatusMismatch(code: string)
    | HoursMismatch(code: string)
    | LogicViolated(pred: string, succ: string)
    | FixtureMissing(pred: string, succ: string)
    | FixtureLost(pred: string, succ: string)
    | LagNotNegative(pred: string, succ: string)
    | OverlapTooDeep(pred: string, succ: string)

  /** A report, or the KeyError a lookup of an absent task raises. */
  datatype Outcome = Report(bad: seq<Finding>) | KeyError

  const TT_TASK := "TT_Task"
  const NOT_START := "TK_NotStart"
  const ACTIVE := "TK_Active"
  const COMPLETE := "TK_Complete"
  const PR_FS := "PR_FS"

  const INVERSION := ("A5020", "A4050")
  const INTENDED_LOGIC_INVERSIONS: set<(string, string)> := {INVERSION}

  // ----- The task dictionary -----------------------------------------------------------

  /** `{t["task_id"]: t for t in tasks}`: the last row of an id stands. */
  function TaskMap(tasks: seq<Task>): (m: map<string, Task>)
    ensures forall id :: id in m <==> exists i :: 0 <= i < |tasks| && tasks[i].id == id
    ensures forall id :: id in m ==> m[id] in tasks && m[id].id == id
  {
    if tasks == [] then map[]
    else
      var n := |tasks| - 1;
      assert tasks == tasks[..n] + [tasks[n]];
      TaskMap(tasks[..n])[tasks[n].id := tasks[n]]
  }

  predicate HasTask(s: Schedule, id: string) {
    id in TaskMap(s.tasks)
  }

  function WbsIds(s: Schedule): seq<string> {
    seq(|s.wbs|, i requires 0 <= i < |s.wbs| => s.wbs[i].id)
  }

  // ----- What conforming means -----------------------------------------------------------

  predicate TaskRefs(s: Schedule, t: Task) {
    t.proj in s.projects && t.wbs in WbsIds(s) && t.clndr in s.calendars
  }

  predicate AssignRefs(s: Schedule, a: Assign) {
    a.proj in s.projects && a.rsrc in s.resources && HasTask(s, a.task)
  }

  predicate UdfRefs(s: Schedule, u: Udf) {
    u.proj in s.projects && u.utype in s.udfTypes && HasTask(s, u.fk)
  }

  predicate PredRefs(s: Schedule, p: Pred) {
    HasTask(s, p.task) && HasTask(s, p.pred)
  }

  predicate WbsRefs(s: Schedule, w: Wbs) {
    w.parent != "" ==> w.parent in WbsIds(s)
  }

  ghost predicate RefsResolve(s: Schedule) {
    && (forall t :: t in s.tasks ==> TaskRefs(s, t))
    && (forall a :: a in s.assigns ==> AssignRefs(s, a))
    && (forall u :: u in s.udfs ==> UdfRefs(s, u))
    && (forall w :: w in s.wbs ==> WbsRefs(s, w))
    && (forall p :: p in s.preds ==> PredRefs(s, p))
  }

  predicate Forwards(a: Option<Instant>, b: Option<Instant>) {
    a.Some? && b.Some? ==> a.value <= b.value
  }

  predicate DatesOk(t: Task) {
    && Forwards(t.targetStart, t.targetEnd) && Forwards(t.earlyStart, t.earlyEnd) && Forwards(t.actStart, t.actEnd)
    && (t.ttype == TT_TASK ==> t.earlyStart.Some? && t.earlyEnd.Some?)
  }

  predicate StatusOk(t: Task) {
    && (t.status == NOT_START ==> t.actStart.None? && t.actEnd.None?)
    && (t.status == ACTIVE ==> t.actStart.Some? && t.actEnd.None?)
    && (t.status == COMPLETE ==> t.actStart.Some? && t.actEnd.Some?)
  }

  function Abs(x: real): real { if x < 0.0 then -x else x }

  predicate HoursOk(status: string, a: Assign) {
    && Abs((a.actual + a.remain) - a.target) <= 0.5
    && (status == COMPLETE ==> a.remain == 0.0)
    && (status == NOT_START ==> a.actual == 0.0)
  }

  predicate AssignHoursOk(s: Schedule, a: Assign) {
    HasTask(s, a.task) ==> HoursOk(TaskMap(s.tasks)[a.task].status, a)
  }

  ghost predicate HoursAgree(s: Schedule) {
    forall a :: a in s.assigns ==> AssignHoursOk(s, a)
  }

  predicate Dated(pred: Task, succ: Task) {
    pred.earlyEnd.Some? && succ.earlyStart.Some?
  }

  function Gap(pred: Task, succ: Task): real
    requires Dated(pred, succ)
  {
    (succ.earlyStart.value - pred.earlyEnd.value) as real / 60.0
  }

  predicate LinkOk(pred: Task, succ: Task, lag: real) {
    Dated(pred, succ) && (pred.code, succ.code) !in INTENDED_LOGIC_INVERSIONS ==> Gap(pred, succ) >= lag - 0.01
  }

  predicate IsFs(p: Pred) {
    p.ptype == PR_FS
  }

  ghost predicate LogicHolds(s: Schedule) {
    forall p :: p in s.preds && IsFs(p) && PredRefs(s, p) ==>
      LinkOk(TaskMap(s.tasks)[p.pred], TaskMap(s.tasks)[p.task], p.lag)
  }

  ghost predicate Conforms(s: Schedule) {
    && RefsResolve(s)
    && (forall t :: t in s.tasks ==> DatesOk(t) && StatusOk(t))
    && HoursAgree(s)
    && LogicHolds(s)
  }

  // ----- What is found -------------------------------------------------------------------------

  function When(c: bool, f: Finding): seq<Finding> {
    if c then [f] else []
  }

  /** The findings of row after row. */
  function Findings<A>(of: A -> seq<Finding>, rows: seq<A>): seq<Finding> {
    if rows == [] then [] else Findings(of, rows[..|rows| - 1]) + of(rows[|rows| - 1])
  }

  /** Nothing is found exactly when nothing is found on any row. */
  lemma {:induction false} FindingsNone<A(!new)>(of: A -> seq<Finding>, rows: seq<A>)
    ensures Findings(of, rows) == [] <==> forall x :: x in rows ==> of(x) == []
    decreases |rows|
  {
    if rows != [] {
      var n := |rows| - 1;
      FindingsNone(of, rows[..n]);
      assert rows == rows[..n] + [rows[n]];
    }
  }

  lemma FindingsStep<A>(of: A -> seq<Finding>, rows: seq<A>, i: nat)
    requires i < |rows|
    ensures Findings(of, rows[..i + 1]) == Findings(of, rows[..i]) + of(rows[i])
  {
    assert rows[..i + 1][..i] == rows[..i];
  }

  lemma FindingsEnds<A>(of: A -> seq<Finding>, rows: seq<A>)
    ensures Findings(of, rows[..0]) == [] && rows[..|rows|] == rows
  {
  }

  function TaskRefsBad(s: Schedule): Task -> seq<Finding> {
    (t: Task) => When(t.proj !in s.projects, Dangling("TASK", "proj_id", t.proj))
                 + When(t.wbs !in WbsIds(s), Dangling("TASK", "wbs_id", t.wbs))
                 + When(t.clndr !in s.calendars, Dangling("TASK", "clndr_id", t.clndr))
  }

  function AssignKeysBad(s: Schedule): Assign -> seq<Finding> {
    (a: Assign) => When(a.proj !in s.projects, Dangling("TASKRSRC", "proj_id", a.proj))
                   + When(a.rsrc !in s.resources, Dangling("TASKRSRC", "rsrc_id", a.rsrc))
  }

  function UdfKeysBad(s: Schedule): Udf -> seq<Finding> {
    (u: Udf) => When(u.proj !in s.projects, Dangling("UDFVALUE", "proj_id", u.proj))
                + When(u.utype !in s.udfTypes, Dangling("UDFVALUE", "udf_type_id", u.utype))
  }

  function WbsBad(s: Schedule): Wbs -> seq<Finding> {
    (w: Wbs) => When(!WbsRefs(s, w), DanglingParent(w.shortName))
  }

  function PredBad(s: Schedule): Pred -> seq<Finding> {
    (p: Pred) => When(!HasTask(s, p.task), Dangling("TASKPRED", "task_id", p.task))
                 + When(!HasTask(s, p.pred), Dangling("TASKPRED", "pred_task_id", p.pred))
  }

  function AssignTaskBad(s: Schedule): Assign -> seq<Finding> {
    (a: Assign) => When(!HasTask(s, a.task), Dangling("TASKRSRC", "task_id", a.task))
  }

  function UdfTaskBad(s: Schedule): Udf -> seq<Finding> {
    (u: Udf) => When(!HasTask(s, u.fk), Dangling("UDFVALUE", "fk_id", u.fk))
  }

  /** The reference section's report, in the order it is written. */
  function RefFindings(s: Schedule): seq<Finding> {
    Findings(TaskRefsBad(s), s.tasks) + Findings(AssignKeysBad(s), s.assigns) + Findings(UdfKeysBad(s), s.udfs)
    + (Findings(WbsBad(s), s.wbs) + Findings(PredBad(s), s.preds))
    + (Findings(AssignTaskBad(s), s.assigns) + Findings(UdfTaskBad(s), s.udfs))
  }

  function DatesBad(t: Task): seq<Finding> {
    When(!Forwards(t.targetStart, t.targetEnd), Backwards(t.code))
    + When(!Forwards(t.earlyStart, t.earlyEnd), Backwards(t.code))
    + When(!Forwards(t.actStart, t.actEnd), Backwards(t.code))
    + When(t.ttype == TT_TASK && !(t.earlyStart.Some? && t.earlyEnd.Some?), NoEarlyPair(t.code))
  }

  function StatusBad(t: Task): seq<Finding> {
    When(t.status == NOT_START && (t.actStart.Some? || t.actEnd.Some?), StatusMismatch(t.code))
    + When(t.status == ACTIVE && (t.actStart.None? || t.actEnd.Some?), StatusMismatch(t.code))
    + When(t.status == COMPLETE && !(t.actStart.Some? && t.actEnd.Some?), StatusMismatch(t.code))
  }

  function TaskBad(t: Task): seq<Finding> {
    DatesBad(t) + StatusBad(t)
  }

  function HoursBad(t: Task, a: Assign): seq<Finding> {
    When(Abs((a.actual + a.remain) - a.target) > 0.5, HoursMismatch(t.code))
    + When(t.status == COMPLETE && a.remain != 0.0, HoursMismatch(t.code))
    + When(t.status == NOT_START && a.actual != 0.0, HoursMismatch(t.code))
  }

  function AssignBad(s: Schedule): Assign -> seq<Finding> {
    (a: Assign) => if HasTask(s, a.task) then HoursBad(TaskMap(s.tasks)[a.task], a) else []
  }

  function LinkBad(s: Schedule): Pred -> seq<Finding> {
    (p: Pred) =>
      if IsFs(p) && PredRefs(s, p) then
        var pred, succ := TaskMap(s.tasks)[p.pred], TaskMap(s.tasks)[p.task];
        When(!LinkOk(pred, succ, p.lag), LogicViolated(pred.code, succ.code))
      else []
  }

  // ----- A section is silent exactly when it holds -----------------------------------------------

  lemma RefsSilent(s: Schedule)
    ensures RefFindings(s) == [] <==> RefsResolve(s)
  {
    FindingsNone(TaskRefsBad(s), s.tasks);
    FindingsNone(AssignKeysBad(s), s.assigns);
    FindingsNone(UdfKeysBad(s), s.udfs);
    FindingsNone(WbsBad(s), s.wbs);
    FindingsNone(PredBad(s), s.preds);
    FindingsNone(AssignTaskBad(s), s.assigns);
    FindingsNone(UdfTaskBad(s), s.udfs);
    RowsSilent(s);
    hide Findings, TaskRefsBad, AssignKeysBad, UdfKeysBad, WbsBad, PredBad, AssignTaskBad, UdfTaskBad, TaskRefs,
      AssignRefs, UdfRefs, PredRefs, WbsRefs;
  }

  lemma RowsSilent(s: Schedule)
    ensures forall t :: TaskRefsBad(s)(t) == [] <==> TaskRefs(s, t)
    ensures forall a :: AssignKeysBad(s)(a) == [] && AssignTaskBad(s)(a) == [] <==> AssignRefs(s, a)
    ensures forall u :: UdfKeysBad(s)(u) == [] && UdfTaskBad(s)(u) == [] <==> UdfRefs(s, u)
    ensures forall p :: PredBad(s)(p) == [] <==> PredRefs(s, p)
    ensures forall w :: WbsBad(s)(w) == [] <==> WbsRefs(s, w)
  {
    hide HasTask, WbsIds, WbsRefs;
  }

  lemma TaskSilent(t: Task)
    ensures TaskBad(t) == [] <==> DatesOk(t) && StatusOk(t)
  {
  }

  lemma TasksSilent(s: Schedule)
    ensures Findings(TaskBad, s.tasks) == [] <==> forall t :: t in s.tasks ==> DatesOk(t) && StatusOk(t)
  {
    FindingsNone(TaskBad, s.tasks);
    forall t ensures TaskBad(t) == [] <==> DatesOk(t) && StatusOk(t) {
      TaskSilent(t);
    }
    hide Findings, TaskBad, DatesOk, StatusOk;
  }

  lemma HoursSilent(s: Schedule)
    ensures Findings(AssignBad(s), s.assigns) == [] <==> HoursAgree(s)
  {
    FindingsNone(AssignBad(s), s.assigns);
    forall a ensures AssignBad(s)(a) == [] <==> AssignHoursOk(s, a) {
    }
    hide Findings, AssignBad, AssignHoursOk;
  }

  lemma LogicSilent(s: Schedule)
    ensures Findings(LinkBad(s), s.preds) == [] <==> LogicHolds(s)
  {
    FindingsNone(LinkBad(s), s.preds);
    hide Findings, LinkOk, PredRefs;
  }

  // ----- What each section reports ----------------------------------------------------------

  lemma {:induction false} FindingsIn<A(!new)>(of: A -> seq<Finding>, rows: seq<A>, f: Finding)
    ensures f in Findings(of, rows) <==> exists x :: x in rows && f in of(x)
    decreases |rows|
  {
    if rows != [] {
      var n := |rows| - 1;
      FindingsIn(of, rows[..n], f);
      assert rows == rows[..n] + [rows[n]];
    }
  }

  /** A reference is reported dangling under its table and column if and only if a row of the
      table has it there and nothing of that kind goes by it. */
  lemma DanglingIff(s: Schedule, table: string, column: string, v: string)
    ensures Dangling(table, column, v) in RefFindings(s) <==>
              || (table == "TASK" && column == "proj_id" && v !in s.projects && exists t :: t in s.tasks && t.proj == v)
              || (table == "TASK" && column == "wbs_id" && (forall w :: w in s.wbs ==> w.id != v)
                  && exists t :: t in s.tasks && t.wbs == v)
              || (table == "TASK" && column == "clndr_id" && v !in s.calendars
                  && exists t :: t in s.tasks && t.clndr == v)
              || (table == "TASKRSRC" && column == "proj_id" && v !in s.projects
                  && exists a :: a in s.assigns && a.proj == v)
              || (table == "TASKRSRC" && column == "rsrc_id" && v !in s.resources
                  && exists a :: a in s.assigns && a.rsrc == v)
              || (table == "TASKRSRC" && column == "task_id" && NoTask(s, v)
                  && exists a :: a in s.assigns && a.task == v)
              || (table == "UDFVALUE" && column == "proj_id" && v !in s.projects
                  && exists u :: u in s.udfs && u.proj == v)
              || (table == "UDFVALUE" && column == "udf_type_id" && v !in s.udfTypes
                  && exists u :: u in s.udfs && u.utype == v)
              || (table == "UDFVALUE" && column == "fk_id" && NoTask(s, v) && exists u :: u in s.udfs && u.fk == v)
              || (table == "TASKPRED" && column == "task_id" && NoTask(s, v)
                  && exists p :: p in s.preds && p.task == v)
              || (table == "TASKPRED" && column == "pred_task_id" && NoTask(s, v)
                  && exists p :: p in s.preds && p.pred == v)
  {
    var f := Dangling(table, column, v);
    NoTaskIff(s, v);
    NoWbsIff(s, v);
    FindingsIn(TaskRefsBad(s), s.tasks, f);
    FindingsIn(AssignKeysBad(s), s.assigns, f);
    FindingsIn(UdfKeysBad(s), s.udfs, f);
    FindingsIn(WbsBad(s), s.wbs, f);
    FindingsIn(PredBad(s), s.preds, f);
    FindingsIn(AssignTaskBad(s), s.assigns, f);
    FindingsIn(UdfTaskBad(s), s.udfs, f);
    hide Findings, HasTask, WbsIds, WbsRefs, NoTask;
  }

  ghost predicate NoTask(s: Schedule, id: string) {
    forall t :: t in s.tasks ==> t.id != id
  }

  lemma NoTaskIff(s: Schedule, id: string)
    ensures NoTask(s, id) <==> !HasTask(s, id)
  {
    var m := TaskMap(s.tasks);
    if id !in m {
      forall t | t in s.tasks ensures t.id != id {
        var i :| 0 <= i < |s.tasks| && s.tasks[i] == t;
      }
    }
  }

  lemma NoWbsIff(s: Schedule, id: string)
    ensures (forall w :: w in s.wbs ==> w.id != id) <==> id !in WbsIds(s)
  {
    forall w | w in s.wbs ensures w.id in WbsIds(s) {
      var i :| 0 <= i < |s.wbs| && s.wbs[i] == w;
      assert WbsIds(s)[i] == w.id;
    }
  }

  /** A work breakdown node is reported if and only if it names a parent that is no node. */
  lemma DanglingParentIff(s: Schedule, name: string)
    ensures DanglingParent(name) in RefFindings(s) <==>
              exists w :: w in s.wbs && w.shortName == name && w.parent != ""
                && forall x :: x in s.wbs ==> x.id != w.parent
  {
    var f := DanglingParent(name);
    FindingsIn(TaskRefsBad(s), s.tasks, f);
    FindingsIn(AssignKeysBad(s), s.assigns, f);
    FindingsIn(UdfKeysBad(s), s.udfs, f);
    FindingsIn(WbsBad(s), s.wbs, f);
    FindingsIn(PredBad(s), s.preds, f);
    FindingsIn(AssignTaskBad(s), s.assigns, f);
    FindingsIn(UdfTaskBad(s), s.udfs, f);
    forall id {
      NoWbsIff(s, id);
    }
    hide Findings, HasTask, WbsIds;
  }

  /** Which activities the dates and statuses section reports, and for what. */
  lemma TaskFindingsIff(s: Schedule, code: string)
    ensures Backwards(code) in Findings(TaskBad, s.tasks) <==>
              exists t :: t in s.tasks && t.code == code && RunsBack(t)
    ensures NoEarlyPair(code) in Findings(TaskBad, s.tasks) <==>
              exists t :: t in s.tasks && t.code == code
                && t.ttype == "TT_Task" && (t.earlyStart.None? || t.earlyEnd.None?)
    ensures StatusMismatch(code) in Findings(TaskBad, s.tasks) <==>
              exists t :: t in s.tasks && t.code == code && Contradicted(t)
  {
    FindingsIn(TaskBad, s.tasks, Backwards(code));
    FindingsIn(TaskBad, s.tasks, NoEarlyPair(code));
    FindingsIn(TaskBad, s.tasks, StatusMismatch(code));
    forall t | t in s.tasks
      ensures Backwards(code) in TaskBad(t) <==> t.code == code && RunsBack(t)
      ensures NoEarlyPair(code) in TaskBad(t) <==>
                t.code == code && t.ttype == "TT_Task" && (t.earlyStart.None? || t.earlyEnd.None?)
      ensures StatusMismatch(code) in TaskBad(t) <==> t.code == code && Contradicted(t)
    {
      DatesBadIs(t, code);
      StatusBadIs(t, code);
      hide DatesBad, StatusBad, RunsBack, Contradicted;
    }
    hide Findings, TaskBad, RunsBack, Contradicted;
  }

  /** Some finish comes before its start. */
  predicate RunsBack(t: Task) {
    Later(t.targetStart, t.targetEnd) || Later(t.earlyStart, t.earlyEnd) || Later(t.actStart, t.actEnd)
  }

  /** The status says something else than the actual dates. */
  predicate Contradicted(t: Task) {
    || (t.status == "TK_NotStart" && (t.actStart.Some? || t.actEnd.Some?))
    || (t.status == "TK_Active" && (t.actStart.None? || t.actEnd.Some?))
    || (t.status == "TK_Complete" && (t.actStart.None? || t.actEnd.None?))
  }

  lemma DatesBadIs(t: Task, code: string)
    ensures Backwards(code) in DatesBad(t) <==> t.code == code && RunsBack(t)
    ensures NoEarlyPair(code) in DatesBad(t) <==>
              t.code == code && t.ttype == "TT_Task" && (t.earlyStart.None? || t.earlyEnd.None?)
    ensures StatusMismatch(code) !in DatesBad(t)
  {
  }

  lemma StatusBadIs(t: Task, code: string)
    ensures Backwards(code) !in StatusBad(t) && NoEarlyPair(code) !in StatusBad(t)
    ensures StatusMismatch(code) in StatusBad(t) <==> t.code == code && Contradicted(t)
  {
  }

  predicate Later(a: Option<Instant>, b: Option<Instant>) {
    a.Some? && b.Some? && b.value < a.value
  }

  /** Which activities the hours section reports. */
  lemma HoursFindingsIff(s: Schedule, code: string)
    ensures HoursMismatch(code) in Findings(AssignBad(s), s.assigns) <==>
              exists a :: a in s.assigns && HasTask(s, a.task)
                && var t := TaskMap(s.tasks)[a.task];
                   && t.code == code
                   && (|| a.actual + a.remain > a.target + 0.5 || a.actual + a.remain < a.target - 0.5
                       || (t.status == "TK_Complete" && a.remain != 0.0)
                       || (t.status == "TK_NotStart" && a.actual != 0.0))
  {
    FindingsIn(AssignBad(s), s.assigns, HoursMismatch(code));
    hide Findings, TaskMap;
  }

  /** Which links the logic section reports: finish-to-start between known, dated tasks, not
      the one pair excused, the start more than six tenths of a minute short of the lag. */
  lemma LogicFindingsIff(s: Schedule, from: string, to: string)
    ensures LogicViolated(from, to) in Findings(LinkBad(s), s.preds) <==>
              exists p :: p in s.preds && p.ptype == "PR_FS" && HasTask(s, p.pred) && HasTask(s, p.task)
                && var pred, succ := TaskMap(s.tasks)[p.pred], TaskMap(s.tasks)[p.task];
                   && pred.code == from && succ.code == to && (from, to) != ("A5020", "A4050")
                   && pred.earlyEnd.Some? && succ.earlyStart.Some?
                   && (succ.earlyStart.value - pred.earlyEnd.value) as real < 60.0 * p.lag - 0.6
  {
    FindingsIn(LinkBad(s), s.preds, LogicViolated(from, to));
    hide Findings, TaskMap;
  }

  // ----- The checks ------------------------------------------------------------------------

  /** References across sections, section by section and column by column. */
  method CheckRefs(s: Schedule) returns (bad: seq<Finding>)
    ensures bad == RefFindings(s)
    ensures bad == [] <==> RefsResolve(s)
  {
    RefsSilent(s);
    hide *;
    assert RefFindings(s) == Findings(TaskRefsBad(s), s.tasks) + Findings(AssignKeysBad(s), s.assigns)
           + Findings(UdfKeysBad(s), s.udfs)
                             + (Findings(WbsBad(s), s.wbs) + Findings(PredBad(s), s.preds))
                             + (Findings(AssignTaskBad(s), s.assigns) + Findings(UdfTaskBad(s), s.udfs))
      by { RefsSplit(s); }
    var columns := CheckColumns(s);
    var links := CheckParentsAndLinks(s);
    var tasks := CheckTaskColumns(s);
    bad := columns + links + tasks;
  }

  lemma RefsSplit(s: Schedule)
    ensures RefFindings(s) == Findings(TaskRefsBad(s), s.tasks) + Findings(AssignKeysBad(s), s.assigns)
            + Findings(UdfKeysBad(s), s.udfs)
                             + (Findings(WbsBad(s), s.wbs) + Findings(PredBad(s), s.preds))
                             + (Findings(AssignTaskBad(s), s.assigns) + Findings(UdfTaskBad(s), s.udfs))
  {
    hide Findings;
  }

  /** Columns that point into the small sections. */
  method CheckColumns(s: Schedule) returns (bad: seq<Finding>)
    ensures bad == Findings(TaskRefsBad(s), s.tasks) + Findings(AssignKeysBad(s), s.assigns)
            + Findings(UdfKeysBad(s), s.udfs)
  {
    hide Findings, WbsIds;
    var wbsIds := WbsIds(s);
    bad := [];
    FindingsEnds(TaskRefsBad(s), s.tasks);
    for i := 0 to |s.tasks|
      invariant bad == Findings(TaskRefsBad(s), s.tasks[..i])
    {
      var t := s.tasks[i];
      FindingsStep(TaskRefsBad(s), s.tasks, i);
      if t.proj !in s.projects { bad := bad + [Dangling("TASK", "proj_id", t.proj)]; }
      if t.wbs !in wbsIds { bad := bad + [Dangling("TASK", "wbs_id", t.wbs)]; }
      if t.clndr !in s.calendars { bad := bad + [Dangling("TASK", "clndr_id", t.clndr)]; }
    }
    ghost var found := bad;
    FindingsEnds(AssignKeysBad(s), s.assigns);
    for i := 0 to |s.assigns|
      invariant bad == found + Findings(AssignKeysBad(s), s.assigns[..i])
    {
      var a := s.assigns[i];
      FindingsStep(AssignKeysBad(s), s.assigns, i);
      if a.proj !in s.projects { bad := bad + [Dangling("TASKRSRC", "proj_id", a.proj)]; }
      if a.rsrc !in s.resources { bad := bad + [Dangling("TASKRSRC", "rsrc_id", a.rsrc)]; }
    }
    found := bad;
    FindingsEnds(UdfKeysBad(s), s.udfs);
    for i := 0 to |s.udfs|
      invariant bad == found + Findings(UdfKeysBad(s), s.udfs[..i])
    {
      var u := s.udfs[i];
      FindingsStep(UdfKeysBad(s), s.udfs, i);
      if u.proj !in s.projects { bad := bad + [Dangling("UDFVALUE", "proj_id", u.proj)]; }
      if u.utype !in s.udfTypes { bad := bad + [Dangling("UDFVALUE", "udf_type_id", u.utype)]; }
    }
  }

  /** WBS parents, then the ends of links. */
  method CheckParentsAndLinks(s: Schedule) returns (bad: seq<Finding>)
    ensures bad == Findings(WbsBad(s), s.wbs) + Findings(PredBad(s), s.preds)
  {
    hide Findings, WbsIds, TaskMap;
    var tasks := TaskMap(s.tasks);
    var wbsIds := WbsIds(s);
    bad := [];
    FindingsEnds(WbsBad(s), s.wbs);
    for i := 0 to |s.wbs|
      invariant bad == Findings(WbsBad(s), s.wbs[..i])
    {
      var w := s.wbs[i];
      FindingsStep(WbsBad(s), s.wbs, i);
      if w.parent != "" && w.parent !in wbsIds { bad := bad + [DanglingParent(w.shortName)]; }
    }
    ghost var found := bad;
    FindingsEnds(PredBad(s), s.preds);
    for i := 0 to |s.preds|
      invariant bad == found + Findings(PredBad(s), s.preds[..i])
    {
      var p := s.preds[i];
      FindingsStep(PredBad(s), s.preds, i);
      if p.task !in tasks { bad := bad + [Dangling("TASKPRED", "task_id", p.task)]; }
      if p.pred !in tasks { bad := bad + [Dangling("TASKPRED", "pred_task_id", p.pred)]; }
    }
  }

  /** Assignments' and user fields' tasks. */
  method CheckTaskColumns(s: Schedule) returns (bad: seq<Finding>)
    ensures bad == Findings(AssignTaskBad(s), s.assigns) + Findings(UdfTaskBad(s), s.udfs)
  {
    hide Findings, TaskMap;
    var tasks := TaskMap(s.tasks);
    bad := [];
    FindingsEnds(AssignTaskBad(s), s.assigns);
    for i := 0 to |s.assigns|
      invariant bad == Findings(AssignTaskBad(s), s.assigns[..i])
    {
      var a := s.assigns[i];
      FindingsStep(AssignTaskBad(s), s.assigns, i);
      if a.task !in tasks { bad := bad + [Dangling("TASKRSRC", "task_id", a.task)]; }
    }
    ghost var found := bad;
    FindingsEnds(UdfTaskBad(s), s.udfs);
    for i := 0 to |s.udfs|
      invariant bad == found + Findings(UdfTaskBad(s), s.udfs[..i])
    {
      var u := s.udfs[i];
      FindingsStep(UdfTaskBad(s), s.udfs, i);
      if u.fk !in tasks { bad := bad + [Dangling("UDFVALUE", "fk_id", u.fk)]; }
    }
  }

  /** Dates run forward, work is dated, and status agrees with the actuals. */
  method CheckTasks(s: Schedule) returns (bad: seq<Finding>)
    ensures bad == Findings(TaskBad, s.tasks)
    ensures bad == [] <==> forall t :: t in s.tasks ==> DatesOk(t) && StatusOk(t)
  {
    TasksSilent(s);
    hide Findings, TaskBad;
    bad := [];
    FindingsEnds(TaskBad, s.tasks);
    for i := 0 to |s.tasks|
      invariant bad == Findings(TaskBad, s.tasks[..i])
    {
      FindingsStep(TaskBad, s.tasks, i);
      var more := CheckTask(s.tasks[i]);
      bad := bad + more;
    }
  }

  method CheckTask(t: Task) returns (bad: seq<Finding>)
    ensures bad == TaskBad(t)
  {
    bad := CheckDates(t);
    var status := CheckStatus(t);
    bad := bad + status;
  }

  method CheckDates(t: Task) returns (bad: seq<Finding>)
    ensures bad == DatesBad(t)
  {
    bad := [];
    if t.targetStart.Some? && t.targetEnd.Some? && t.targetEnd.value < t.targetStart.value {
      bad := bad + [Backwards(t.code)];
    }
    if t.earlyStart.Some? && t.earlyEnd.Some? && t.earlyEnd.value < t.earlyStart.value {
      bad := bad + [Backwards(t.code)];
    }
    if t.actStart.Some? && t.actEnd.Some? && t.actEnd.value < t.actStart.value { bad := bad + [Backwards(t.code)]; }
    if t.ttype == TT_TASK && !(t.earlyStart.Some? && t.earlyEnd.Some?) { bad := bad + [NoEarlyPair(t.code)]; }
  }

  method CheckStatus(t: Task) returns (bad: seq<Finding>)
    ensures bad == StatusBad(t)
  {
    bad := [];
    var started, finished := t.actStart.Some?, t.actEnd.Some?;
    if t.status == NOT_START && (started || finished) { bad := bad + [StatusMismatch(t.code)]; }
    if t.status == ACTIVE && (!started || finished) { bad := bad + [StatusMismatch(t.code)]; }
    if t.status == COMPLETE && !(started && finished) { bad := bad + [StatusMismatch(t.code)]; }
  }

  /** Hours add up and agree with status; an assignment to no task raises. */
  method CheckHours(s: Schedule) returns (out: Outcome)
    ensures out.KeyError? <==> exists a :: a in s.assigns && !HasTask(s, a.task)
    ensures out.Report? ==> out.bad == Findings(AssignBad(s), s.assigns) && (out.bad == [] <==> HoursAgree(s))
  {
    HoursSilent(s);
    hide Findings, HoursBad, TaskMap, HoursAgree;
    var tasks := TaskMap(s.tasks);
    var bad := [];
    FindingsEnds(AssignBad(s), s.assigns);
    for i := 0 to |s.assigns|
      invariant forall j :: 0 <= j < i ==> HasTask(s, s.assigns[j].task)
      invariant bad == Findings(AssignBad(s), s.assigns[..i])
    {
      var a := s.assigns[i];
      if a.task !in tasks {
        assert a in s.assigns;
        return KeyError;
      }
      FindingsStep(AssignBad(s), s.assigns, i);
      var more := CheckAssign(tasks[a.task], a);
      bad := bad + more;
    }
    out := Report(bad);
  }

  method CheckAssign(t: Task, a: Assign) returns (bad: seq<Finding>)
    ensures bad == HoursBad(t, a)
  {
    bad := [];
    if Abs((a.actual + a.remain) - a.target) > 0.5 { bad := bad + [HoursMismatch(t.code)]; }
    if t.status == COMPLETE && a.remain != 0.0 { bad := bad + [HoursMismatch(t.code)]; }
    if t.status == NOT_START && a.actual != 0.0 { bad := bad + [HoursMismatch(t.code)]; }
  }

  /** Finish-to-start links hold on the dates, bar the intended inversions; a link to no
      task raises. */
  method CheckLogic(s: Schedule) returns (out: Outcome)
    ensures out.KeyError? <==> exists p :: p in s.preds && IsFs(p) && !PredRefs(s, p)
    ensures out.Report? ==> out.bad == Findings(LinkBad(s), s.preds) && (out.bad == [] <==> LogicHolds(s))
  {
    LogicSilent(s);
    hide Findings, TaskMap, LogicHolds;
    var tasks := TaskMap(s.tasks);
    var bad := [];
    FindingsEnds(LinkBad(s), s.preds);
    for i := 0 to |s.preds|
      invariant forall j :: 0 <= j < i && IsFs(s.preds[j]) ==> PredRefs(s, s.preds[j])
      invariant bad == Findings(LinkBad(s), s.preds[..i])
    {
      var p := s.preds[i];
      FindingsStep(LinkBad(s), s.preds, i);
      if p.ptype != PR_FS {
        continue;
      }
      if p.pred !in tasks || p.task !in tasks {
        assert p in s.preds && IsFs(p) && !PredRefs(s, p);
        return KeyError;
      }
      var pred, succ := tasks[p.pred], tasks[p.task];
      if pred.earlyEnd.None? || succ.earlyStart.None? {
        continue;
      }
      var gap := (succ.earlyStart.value - pred.earlyEnd.value) as real / 60.0;
      if gap < p.lag - 0.01 && (pred.code, succ.code) !in INTENDED_LOGIC_INVERSIONS {
        bad := bad + [LogicViolated(pred.code, succ.code)];
      }
    }
    out := Report(bad);
  }

  // ----- The fixtures the sample carries ----------------------------------------------------

  const OVERLAP := ("A6010", "A4050")

  /** `code(id)`, which raises on an absent task. */
  function CodeOf(s: Schedule, id: string): Option<string> {
    if HasTask(s, id) then Some(TaskMap(s.tasks)[id].code) else None
  }

  /** Looking at the row raises: its predecessor is absent, or is the one looked for and
      the successor is absent. */
  predicate RowRaises(s: Schedule, p: Pred, pair: (string, string)) {
    CodeOf(s, p.pred).None? || (CodeOf(s, p.pred) == Some(pair.0) && CodeOf(s, p.task).None?)
  }

  predicate RowMatches(s: Schedule, p: Pred, pair: (string, string)) {
    CodeOf(s, p.pred) == Some(pair.0) && CodeOf(s, p.task) == Some(pair.1)
  }

  datatype Lookup = Found(row: Pred) | Missing | Raised

  /** The first link from one code to another, of whatever type, unless a row before it
      raises. */
  function Relate(s: Schedule, preds: seq<Pred>, pair: (string, string)): Lookup {
    if preds == [] then Missing
    else if RowRaises(s, preds[0], pair) then Raised
    else if RowMatches(s, preds[0], pair) then Found(preds[0])
    else Relate(s, preds[1..], pair)
  }

  /** It raises exactly when some row does with no match before it, and misses exactly when
      no row raises or matches. */
  lemma {:induction false} RelateIs(s: Schedule, preds: seq<Pred>, pair: (string, string))
    ensures Relate(s, preds, pair).Raised? <==>
              exists i :: 0 <= i < |preds| && RowRaises(s, preds[i], pair)
                && forall j :: 0 <= j < i ==> !RowMatches(s, preds[j], pair)
    ensures Relate(s, preds, pair).Missing? <==>
              forall i :: 0 <= i < |preds| ==> !RowRaises(s, preds[i], pair) && !RowMatches(s, preds[i], pair)
    ensures Relate(s, preds, pair).Found? ==>
            var row := Relate(s, preds, pair).row;
            row in preds && RowMatches(s, row, pair)
    decreases |preds|
  {
    hide CodeOf;
    if preds != [] {
      var rest := preds[1..];
      RelateIs(s, rest, pair);
      assert RowRaises(s, preds[0], pair) ==> !RowMatches(s, preds[0], pair);
      hide RowRaises, RowMatches;
      if !RowRaises(s, preds[0], pair) && !RowMatches(s, preds[0], pair) {
        if i :|
             0 <= i < |rest| && RowRaises(s, rest[i], pair)
             && forall j :: 0 <= j < i ==> !RowMatches(s, rest[j], pair) {
          assert RowRaises(s, preds[i + 1], pair);
          assert forall j :: 0 <= j < i + 1 ==> !RowMatches(s, preds[j], pair);
        }
        if i :|
             0 <= i < |preds| && RowRaises(s, preds[i], pair)
             && forall j :: 0 <= j < i ==> !RowMatches(s, preds[j], pair) {
          assert preds[i] == rest[i - 1];
          assert forall j :: 0 <= j < i - 1 ==> !RowMatches(s, rest[j], pair) by {
            assert forall j :: 0 <= j < i - 1 ==> rest[j] == preds[j + 1];
          }
        }
        assert forall i :: 0 <= i < |rest| ==> rest[i] == preds[i + 1];
      }
    }
  }

  /** Looking at a link raises when its predecessor is no task, or is the one looked for and
      its successor is none; it is the one looked for when both its tasks carry the codes. */
  lemma RowIsLookedAt(s: Schedule, p: Pred, pair: (string, string))
    ensures RowRaises(s, p, pair) <==>
              NoTask(s, p.pred) || (NoTask(s, p.task) && TaskMap(s.tasks)[p.pred].code == pair.0)
    ensures RowMatches(s, p, pair) <==>
              && HasTask(s, p.pred) && HasTask(s, p.task)
              && TaskMap(s.tasks)[p.pred].code == pair.0 && TaskMap(s.tasks)[p.task].code == pair.1
  {
    NoTaskIff(s, p.pred);
    NoTaskIff(s, p.task);
    hide TaskMap, NoTask;
  }

  method Relationship(s: Schedule, pair: (string, string)) returns (r: Lookup)
    ensures r == Relate(s, s.preds, pair)
  {
    hide TaskMap;
    var tasks := TaskMap(s.tasks);
    for i := 0 to |s.preds|
      invariant Relate(s, s.preds, pair) == Relate(s, s.preds[i..], pair)
    {
      var row := s.preds[i];
      assert s.preds[i..][0] == row && s.preds[i..][1..] == s.preds[i + 1..];
      if row.pred !in tasks {
        return Raised;
      }
      if tasks[row.pred].code == pair.0 {
        if row.task !in tasks {
          return Raised;
        }
        if tasks[row.task].code == pair.1 {
          return Found(row);
        }
      }
    }
    r := Missing;
  }

  /** `{t["task_code"]: t for t in tasks}`: the last row of a code stands. */
  function LastOfCode(tasks: seq<Task>, code: string): Option<Task> {
    if tasks == [] then None
    else if tasks[|tasks| - 1].code == code then Some(tasks[|tasks| - 1])
    else LastOfCode(tasks[..|tasks| - 1], code)
  }

  function FinishByCode(s: Schedule, code: string): Option<Instant> {
    var t := LastOfCode(s.tasks, code);
    if t.Some? then t.value.earlyEnd else None
  }

  function StartByCode(s: Schedule, code: string): Option<Instant> {
    var t := LastOfCode(s.tasks, code);
    if t.Some? then t.value.earlyStart else None
  }

  /** The gap between the two coded tasks in hours, where both are dated. */
  function GapByCode(s: Schedule, pair: (string, string)): Option<real> {
    var finish, start := FinishByCode(s, pair.0), StartByCode(s, pair.1);
    if finish.Some? && start.Some? then Some((start.value - finish.value) as real / 60.0) else None
  }

  /** The inversion is still there, and the dates still contradict it. */
  predicate InversionIntact(s: Schedule) {
    var r := Relate(s, s.preds, INVERSION);
    r.Found? && var gap := GapByCode(s, INVERSION); gap.Some? ==> gap.value < r.row.lag - 0.01
  }

  /** The overlap is still there, and is no deeper than its negative lag permits. */
  predicate OverlapIntact(s: Schedule) {
    var r := Relate(s, s.preds, OVERLAP);
    r.Found? && r.row.lag < 0.0 && var gap := GapByCode(s, OVERLAP); gap.Some? ==> r.row.lag - 0.01 <= gap.value < 0.0
  }

  function InversionBad(s: Schedule): seq<Finding> {
    if Relate(s, s.preds, INVERSION).Missing? then [FixtureMissing(INVERSION.0, INVERSION.1)]
    else When(!InversionIntact(s), FixtureLost(INVERSION.0, INVERSION.1))
  }

  function OverlapBad(s: Schedule): seq<Finding> {
    var r, gap := Relate(s, s.preds, OVERLAP), GapByCode(s, OVERLAP);
    if r.Missing? then [FixtureMissing(OVERLAP.0, OVERLAP.1)]
    else if r.Found? && r.row.lag >= 0.0 then [LagNotNegative(OVERLAP.0, OVERLAP.1)]
    else if gap.Some? && gap.value >= 0.0 then [FixtureLost(OVERLAP.0, OVERLAP.1)]
    else When(!OverlapIntact(s), OverlapTooDeep(OVERLAP.0, OVERLAP.1))
  }

  // What the fixtures' dates come to, in the tasks' own minutes.

  /** The row a code stands for: no later row carries it. */
  predicate LastWithCode(tasks: seq<Task>, code: string, i: int) {
    0 <= i < |tasks| && tasks[i].code == code && forall j :: i < j < |tasks| ==> tasks[j].code != code
  }

  lemma {:induction false} LastOfCodeIs(tasks: seq<Task>, code: string)
    ensures LastOfCode(tasks, code).None? <==> forall i :: 0 <= i < |tasks| ==> tasks[i].code != code
    ensures forall i :: LastWithCode(tasks, code, i) ==> LastOfCode(tasks, code) == Some(tasks[i])
    ensures LastOfCode(tasks, code).Some? ==> exists i :: LastWithCode(tasks, code, i)
    decreases |tasks|
  {
    if tasks != [] {
      var n := |tasks| - 1;
      LastOfCodeIs(tasks[..n], code);
      if tasks[n].code == code {
        assert LastWithCode(tasks, code, n);
      } else {
        assert forall i :: LastWithCode(tasks, code, i) ==> LastWithCode(tasks[..n], code, i);
        if i :| LastWithCode(tasks[..n], code, i) {
          assert LastWithCode(tasks, code, i);
        }
      }
    }
  }

  /** The two coded tasks are dated, and this many minutes pass from the finish of the first
      to the start of the second. */
  ghost predicate MinutesBetween(s: Schedule, pair: (string, string), minutes: int) {
    exists i, j ::
      && LastWithCode(s.tasks, pair.0, i) && LastWithCode(s.tasks, pair.1, j)
      && s.tasks[i].earlyEnd.Some? && s.tasks[j].earlyStart.Some?
      && minutes == s.tasks[j].earlyStart.value - s.tasks[i].earlyEnd.value
  }

  lemma LastIsRow(tasks: seq<Task>)
    ensures forall code, i :: LastWithCode(tasks, code, i) ==> 0 <= i < |tasks|
  {
  }

  lemma GapInMinutes(s: Schedule, pair: (string, string))
    ensures forall m :: MinutesBetween(s, pair, m) ==> GapByCode(s, pair) == Some(m as real / 60.0)
    ensures GapByCode(s, pair).Some? ==> exists m :: MinutesBetween(s, pair, m)
  {
    LastOfCodeIs(s.tasks, pair.0);
    LastOfCodeIs(s.tasks, pair.1);
    LastIsRow(s.tasks);
    hide LastOfCode, LastWithCode;
    if GapByCode(s, pair).Some? {
      var i :| LastWithCode(s.tasks, pair.0, i);
      var j :| LastWithCode(s.tasks, pair.1, j);
      assert MinutesBetween(s, pair, s.tasks[j].earlyStart.value - s.tasks[i].earlyEnd.value);
    }
  }

  /** The inversion is intact exactly when it is linked and its successor starts more than
      six tenths of a minute sooner than the lag after its predecessor finishes. */
  lemma InversionByDates(s: Schedule)
    ensures InversionIntact(s) <==>
              var r := Relate(s, s.preds, ("A5020", "A4050"));
              r.Found? && forall m :: MinutesBetween(s, ("A5020", "A4050"), m) ==> m as real < 60.0 * r.row.lag - 0.6
  {
    GapInMinutes(s, INVERSION);
    hide Relate, GapByCode, MinutesBetween;
  }

  /** The overlap is intact exactly when it is linked with a negative lag and its successor
      starts before its predecessor finishes, by no more than the lag and six tenths of a
      minute. */
  lemma OverlapByDates(s: Schedule)
    ensures OverlapIntact(s) <==>
              var r := Relate(s, s.preds, ("A6010", "A4050"));
              && r.Found? && r.row.lag < 0.0
              && forall m :: MinutesBetween(s, ("A6010", "A4050"), m) ==> 60.0 * r.row.lag - 0.6 <= m as real < 0.0
  {
    GapInMinutes(s, OVERLAP);
    hide Relate, GapByCode, MinutesBetween;
  }

  /** Which of its findings a lost inversion gets: no link, or dates that no longer contradict
      it. */
  lemma InversionFindings(s: Schedule)
    ensures var r := Relate(s, s.preds, ("A5020", "A4050"));
            && (FixtureMissing("A5020", "A4050") in InversionBad(s) <==> r.Missing?)
            && (r.Found? ==>
                (FixtureLost("A5020", "A4050") in InversionBad(s) <==>
                 exists m :: MinutesBetween(s, ("A5020", "A4050"), m) && m as real >= 60.0 * r.row.lag - 0.6))
  {
    GapInMinutes(s, INVERSION);
    hide Relate, GapByCode, MinutesBetween;
  }

  /** Which of its findings a lost overlap gets: a lag that is none, a start that is late, or
      one too early for the lag. */
  lemma OverlapFindings(s: Schedule)
    requires Relate(s, s.preds, ("A6010", "A4050")).Found?
    ensures var lag := Relate(s, s.preds, ("A6010", "A4050")).row.lag;
            && (LagNotNegative("A6010", "A4050") in OverlapBad(s) <==> lag >= 0.0)
            && (FixtureLost("A6010", "A4050") in OverlapBad(s) <==>
                lag < 0.0 && exists m :: MinutesBetween(s, ("A6010", "A4050"), m) && m >= 0)
            && (OverlapTooDeep("A6010", "A4050") in OverlapBad(s) <==>
                && lag < 0.0
                && exists m :: MinutesBetween(s, ("A6010", "A4050"), m) && m < 0 && m as real < 60.0 * lag - 0.6)
  {
    GapInMinutes(s, OVERLAP);
    hide Relate, GapByCode, MinutesBetween;
  }

  method CheckInversion(s: Schedule) returns (out: Outcome)
    ensures out.KeyError? <==> Relate(s, s.preds, INVERSION).Raised?
    ensures out.Report? ==> out.bad == InversionBad(s) && (out.bad == [] <==> InversionIntact(s))
    ensures out.Report? ==> (out.bad == [] <==>
              var r := Relate(s, s.preds, INVERSION);
              r.Found? && forall m :: MinutesBetween(s, INVERSION, m) ==> m as real < 60.0 * r.row.lag - 0.6)
  {
    InversionByDates(s);
    hide Relate, GapByCode, MinutesBetween;
    var row := Relationship(s, INVERSION);
    if row.Raised? {
      return KeyError;
    }
    if row.Missing? {
      return Report([FixtureMissing(INVERSION.0, INVERSION.1)]);
    }
    var gap := GapByCode(s, INVERSION);
    if gap.Some? && gap.value >= row.row.lag - 0.01 {
      return Report([FixtureLost(INVERSION.0, INVERSION.1)]);
    }
    out := Report([]);
  }

  method CheckOverlap(s: Schedule) returns (out: Outcome)
    ensures out.KeyError? <==> Relate(s, s.preds, OVERLAP).Raised?
    ensures out.Report? ==> out.bad == OverlapBad(s) && (out.bad == [] <==> OverlapIntact(s))
    ensures out.Report? ==> (out.bad == [] <==>
              var r := Relate(s, s.preds, OVERLAP);
              && r.Found? && r.row.lag < 0.0
              && forall m :: MinutesBetween(s, OVERLAP, m) ==> 60.0 * r.row.lag - 0.6 <= m as real < 0.0)
  {
    OverlapByDates(s);
    hide Relate, GapByCode, MinutesBetween;
    var row := Relationship(s, OVERLAP);
    if row.Raised? {
      return KeyError;
    }
    if row.Missing? {
      return Report([FixtureMissing(OVERLAP.0, OVERLAP.1)]);
    }
    var gap := GapByCode(s, OVERLAP);
    if row.row.lag >= 0.0 {
      return Report([LagNotNegative(OVERLAP.0, OVERLAP.1)]);
    }
    if gap.Some? {
      if gap.value >= 0.0 {
        return Report([FixtureLost(OVERLAP.0, OVERLAP.1)]);
      }
      if gap.value < row.row.lag - 0.01 {
        return Report([OverlapTooDeep(OVERLAP.0, OVERLAP.1)]);
      }
    }
    out := Report([]);
  }

  /** Looking the fixtures up raises. */
  predicate FixturesRaise(s: Schedule) {
    Relate(s, s.preds, INVERSION).Raised? || Relate(s, s.preds, OVERLAP).Raised?
  }

  /** Every section that can raise, in order. A report comes back unless an assignment or
      a finish-to-start link names an absent task, or a link of any type does that is
      looked at before the fixture it might be; the report is empty exactly when the
      schedule conforms and carries both fixtures. */
  method Check(s: Schedule) returns (out: Outcome)
    ensures out.KeyError? <==>
              || (exists a :: a in s.assigns && !HasTask(s, a.task))
              || (exists p :: p in s.preds && IsFs(p) && !PredRefs(s, p))
              || FixturesRaise(s)
    ensures out.Report? ==>
              out.bad == RefFindings(s) + Findings(TaskBad, s.tasks) + Findings(AssignBad(s), s.assigns)
                + Findings(LinkBad(s), s.preds)
                         + InversionBad(s) + OverlapBad(s)
    ensures out.Report? ==> (out.bad == [] <==> Conforms(s) && InversionIntact(s) && OverlapIntact(s))
  {
    hide RefFindings, RefsResolve, HoursAgree, LogicHolds, Findings, TaskBad, AssignBad, LinkBad, DatesOk, StatusOk,
      HasTask, PredRefs, IsFs, Relate, InversionIntact, OverlapIntact, InversionBad, OverlapBad;
    var refs := CheckRefs(s);
    var dates := CheckTasks(s);
    var hours := CheckHours(s);
    if hours.KeyError? {
      return KeyError;
    }
    var logic := CheckLogic(s);
    if logic.KeyError? {
      return KeyError;
    }
    var inversion := CheckInversion(s);
    if inversion.KeyError? {
      return KeyError;
    }
    var overlap := CheckOverlap(s);
    if overlap.KeyError? {
      return KeyError;
    }
    out := Report(refs + dates + hours.bad + logic.bad + inversion.bad + overlap.bad);
  }

  /** Whatever raises has been found dangling: with every reference resolved nothing does. */
  lemma ResolvedNeverRaises(s: Schedule)
    requires RefsResolve(s)
    ensures !FixturesRaise(s)
  {
    RelateIs(s, s.preds, INVERSION);
    RelateIs(s, s.preds, OVERLAP);
    hide Relate, TaskMap;
    forall i, pair | 0 <= i < |s.preds| ensures !RowRaises(s, s.preds[i], pair) {
      assert PredRefs(s, s.preds[i]);
    }
  }

  // ----- From links to paths ---------------------------------------------------------------

  /** The lag is a whole number of minutes. */
  predicate WholeMinutes(lag: real) {
    (lag * 60.0).Floor as real == lag * 60.0
  }

  function LagMinutes(lag: real): int {
    (lag * 60.0).Floor
  }

  /** With whole-minute lags the hundredth-of-an-hour tolerance forgives nothing. */
  lemma ToleranceForgivesNothing(pred: Task, succ: Task, lag: real)
    requires Dated(pred, succ) && (pred.code, succ.code) !in INTENDED_LOGIC_INVERSIONS && WholeMinutes(lag)
    ensures LinkOk(pred, succ, lag) <==> succ.earlyStart.value - pred.earlyEnd.value >= LagMinutes(lag)
  {
    var gap, m := succ.earlyStart.value - pred.earlyEnd.value, LagMinutes(lag);
    assert lag == m as real / 60.0;
    if gap < m {
      assert gap as real <= m as real - 1.0;
      assert gap as real / 60.0 <= (m as real - 1.0) / 60.0;
    } else {
      assert gap as real / 60.0 >= m as real / 60.0;
    }
  }

  /** Every whole-minute gap the check lets pass is as long as the lag. */
  ghost predicate ForgivesNothing(lag: real) {
    forall gap: int :: Passes(gap, lag) ==> gap as real >= lag * 60.0
  }

  predicate Passes(gap: int, lag: real) {
    gap as real / 60.0 >= lag - 0.01
  }

  /** The tolerance forgives nothing exactly when the lag is a whole number of minutes or
      exceeds one by more than the six tenths of a minute the tolerance is. */
  lemma ToleranceForgivesNothingIff(lag: real)
    ensures ForgivesNothing(lag) <==> var m := lag * 60.0; m == m.Floor as real || m - m.Floor as real > 0.6
  {
    var m := lag * 60.0;
    var below := m.Floor;
    if m != below as real && m - below as real <= 0.6 {
      PassesIff(below, lag);
      assert Passes(below, lag);
    } else {
      forall gap: int | Passes(gap, lag) ensures gap as real >= m {
        PassesIff(gap, lag);
        NoneBetween(gap, below, m);
      }
    }
  }

  lemma PassesIff(gap: int, lag: real)
    ensures Passes(gap, lag) <==> gap as real >= lag * 60.0 - 0.6
  {
  }

  lemma NoneBetween(gap: int, below: int, m: real)
    requires below as real <= m < below as real + 1.0 && (m == below as real || m - below as real > 0.6)
    requires gap as real >= m - 0.6
    ensures gap as real >= m
  {
    if gap <= below {
      assert gap as real <= below as real;
    } else {
      assert gap as real >= below as real + 1.0;
    }
  }

  /** A finish-to-start path: links head to tail, every task on it dated at the ends the
      links use, no link exempted, all lags whole minutes. */
  ghost predicate IsPath(s: Schedule, path: seq<Pred>) {
    && (forall i :: 0 <= i < |path| ==> PathLink(s, path[i]))
    && (forall i :: 0 <= i < |path| - 1 ==> path[i].task == path[i + 1].pred)
  }

  ghost predicate PathLink(s: Schedule, p: Pred) {
    && p in s.preds && IsFs(p) && PredRefs(s, p) && WholeMinutes(p.lag)
    && var pred, succ := TaskMap(s.tasks)[p.pred], TaskMap(s.tasks)[p.task];
       Dated(pred, succ) && (pred.code, succ.code) !in INTENDED_LOGIC_INVERSIONS
  }

  ghost function FinishOf(s: Schedule, id: string): int {
    if HasTask(s, id) && TaskMap(s.tasks)[id].earlyEnd.Some? then TaskMap(s.tasks)[id].earlyEnd.value else 0
  }

  ghost function StartOf(s: Schedule, id: string): int {
    if HasTask(s, id) && TaskMap(s.tasks)[id].earlyStart.Some? then TaskMap(s.tasks)[id].earlyStart.value else 0
  }

  ghost function Duration(s: Schedule, id: string): int {
    FinishOf(s, id) - StartOf(s, id)
  }

  /** The lags along the path plus the durations of the tasks strictly inside it. */
  ghost function Length(s: Schedule, path: seq<Pred>): int
    requires path != []
  {
    var n := |path| - 1;
    if n == 0 then LagMinutes(path[0].lag)
    else Length(s, path[..n]) + Duration(s, path[n].pred) + LagMinutes(path[n].lag)
  }

  /** The validator looks at one link at a time; a clean report bounds whole paths. The
      last task starts no earlier after the first finishes than all the lags and all the
      work in between. */
  lemma {:induction false} PathIsLongEnough(s: Schedule, path: seq<Pred>)
    requires LogicHolds(s) && path != [] && IsPath(s, path)
    ensures StartOf(s, path[|path| - 1].task) - FinishOf(s, path[0].pred) >= Length(s, path)
  {
    var n := |path| - 1;
    LinkIsLongEnough(s, path[n]);
    if n > 0 {
      var before := path[..n];
      assert forall i :: 0 <= i < n ==> before[i] == path[i];
      PathIsLongEnough(s, before);
      assert path[n - 1].task == path[n].pred;
    }
  }

  lemma LinkIsLongEnough(s: Schedule, p: Pred)
    requires LogicHolds(s) && PathLink(s, p)
    ensures StartOf(s, p.task) - FinishOf(s, p.pred) >= LagMinutes(p.lag)
  {
    hide WholeMinutes, LagMinutes;
    ToleranceForgivesNothing(TaskMap(s.tasks)[p.pred], TaskMap(s.tasks)[p.task], p.lag);
  }

  /** Round any cycle the lags and the durations of all its tasks sum to at most nothing. */
  lemma CycleHasNoWork(s: Schedule, path: seq<Pred>)
    requires LogicHolds(s) && path != [] && IsPath(s, path)
    requires path[|path| - 1].task == path[0].pred
    ensures Length(s, path) + Duration(s, path[0].pred) <= 0
  {
    PathIsLongEnough(s, path);
  }

  lemma {:induction false} WorkIsLong(s: Schedule, path: seq<Pred>)
    requires path != []
    requires forall i :: 0 <= i < |path| ==> LagMinutes(path[i].lag) >= 0 && Duration(s, path[i].pred) > 0
    ensures Length(s, path) >= 0
  {
    var n := |path| - 1;
    if n > 0 {
      assert forall i :: 0 <= i < n ==> path[..n][i] == path[i];
      WorkIsLong(s, path[..n]);
    }
  }

  /** So a schedule whose links all hold has no finish-to-start cycle through tasks that
      take time, unless some lag on it is negative. */
  lemma NoCycleOfWork(s: Schedule, path: seq<Pred>)
    requires LogicHolds(s) && path != [] && IsPath(s, path)
    requires forall i :: 0 <= i < |path| ==> LagMinutes(path[i].lag) >= 0 && Duration(s, path[i].pred) > 0
    ensures path[|path| - 1].task != path[0].pred
  {
    WorkIsLong(s, path);
    PathIsLongEnough(s, path);
  }
}
