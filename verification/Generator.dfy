/** The schedule generator: work chains, services and key events laid into an
    availability. Every random draw is an arbitrary input in its stated range. */
module Generator {
  import opened Sequences
  import opened Numerals
  import C = XerCheck

  // ----- Time: microseconds from the start of the availability ---------------------------

  const MINUTE := 60_000_000
  const HOUR := 3_600_000_000
  const DAY := 86_400_000_000

  const AV_START := 0
  const DATA_DATE := 14 * DAY

  function AvEnd(months: int): int {
    30 * months * DAY + 12 * HOUR
  }

  /** The phase waves, in days from the start and days of spread. */
  const WAVES: seq<(int, int)> := [(0, 25), (14, 45), (45, 70), (95, 60), (130, 45)]

  function Wave(phase: nat): (int, int) {
    if phase < |WAVES| then WAVES[phase] else WAVES[|WAVES| - 1]
  }

  /** A number of days stretched from six months to `months`. */
  function Stretched(days: int, months: int): int {
    days * months * (DAY / 6)
  }

  datatype WaveDraw = WaveDraw(phase: nat, offset: int, hours: int)

  predicate ValidWave(w: WaveDraw, months: int) {
    && (w.hours == 0 || w.hours == 2 || w.hours == 4)
    && Min(0, Stretched(Wave(w.phase).1, months)) <= w.offset <= Max(0, Stretched(Wave(w.phase).1, months))
  }

  function WaveWindow(w: WaveDraw, dur: int, months: int): (int, int) {
    var start := AV_START + Stretched(Wave(w.phase).0, months) + w.offset + w.hours * HOUR;
    (start, Min(start + dur, AvEnd(months) - DAY))
  }

  /** The next step of a chain, clipped to end a day before the availability does. */
  function NextWindow(cursor: int, gap: int, dur: int, months: int): (int, int) {
    var start := cursor + gap;
    var end := start + dur;
    if end >= AvEnd(months) then
      var clipped := AvEnd(months) - DAY;
      (Min(start, clipped - DAY), clipped)
    else (start, end)
  }

  predicate InAvailability(start: int, end: int, months: int) {
    AV_START <= start < end < AvEnd(months)
  }

  /** A first window lies inside the availability for every draw, provided the
      availability is at least a month long. */
  lemma WaveWindowInside(w: WaveDraw, dur: int, months: int)
    requires months >= 1 && ValidWave(w, months) && dur >= DAY
    ensures var (start, end) := WaveWindow(w, dur, months); InAvailability(start, end, months)
  {
    var sixth := months * (DAY / 6);
    var (off, spread) := Wave(w.phase);
    assert 0 <= off && 0 <= spread && off + spread <= 175;
    StretchedWithin(off, spread, months);
    hide Stretched, Wave;
    assert sixth >= 4 * HOUR && AvEnd(months) == 180 * sixth + 12 * HOUR;
  }

  lemma StretchedWithin(off: int, spread: int, months: int)
    requires 0 <= off && 0 <= spread && off + spread <= 175 && months >= 1
    ensures 0 <= Stretched(off, months) && 0 <= Stretched(spread, months)
    ensures Stretched(off, months) + Stretched(spread, months) <= 175 * (months * (DAY / 6))
  {
    var sixth := months * (DAY / 6);
    Scaled(off, months, DAY / 6);
    Scaled(spread, months, DAY / 6);
    Sums(off, spread, sixth);
    Grows(off + spread, 175, sixth);
  }

  lemma Scaled(a: int, b: int, c: int)
    requires a >= 0 && b >= 0 && c >= 0
    ensures a * b * c == a * (b * c) && a * (b * c) >= 0
  {
  }

  lemma Sums(a: int, b: int, c: int)
    ensures a * c + b * c == (a + b) * c
  {
  }

  lemma Grows(a: int, b: int, c: int)
    requires a <= b && c >= 0
    ensures a * c <= b * c
  {
  }

  /** A later step stays inside whenever the one before it did, clipped or not. */
  lemma NextWindowInside(cursor: int, gap: int, dur: int, months: int)
    requires months >= 1 && AV_START <= cursor && gap >= 0 && dur >= DAY
    ensures var (start, end) := NextWindow(cursor, gap, dur, months); InAvailability(start, end, months)
  {
  }

  /** Exactly the availabilities of at least one month are laid out forwards. */
  lemma ForwardsIffAMonth(months: int)
    ensures (forall w, dur :: ValidWave(w, months) && dur >= DAY ==>
               var (start, end) := WaveWindow(w, dur, months); start < end) <==> months >= 1
  {
    if months >= 1 {
      forall w, dur | ValidWave(w, months) && dur >= DAY
        ensures var (start, end) := WaveWindow(w, dur, months); start < end
      {
        WaveWindowInside(w, dur, months);
      }
    } else {
      var w := WaveDraw(0, 0, 0);
      assert ValidWave(w, months);
      assert Stretched(0, months) == 0;
      assert WaveWindow(w, DAY, months).1 <= WaveWindow(w, DAY, months).0;
    }
  }

  // ----- Rows ------------------------------------------------------------------------------

  /** The work breakdown: the root, six zones with eight systems and a service node
      each, key events and general services. */
  datatype WbsKey = Root | Zone(z: nat) | System(z: nat, j: nat) | ZoneServices(z: nat) | KeyEvents | General

  predicate KnownWbs(k: WbsKey) {
    match k
    case Zone(z) => z < 6
    case System(z, j) => z < 6 && j < 8
    case ZoneServices(z) => z < 6
    case _ => true
  }

  /** The number the running counter gives each node. */
  function WbsId(k: WbsKey): nat {
    match k
    case Root => 9000
    case Zone(z) => 9100 + 109 * z
    case System(z, j) => 9200 + 109 * z + j
    case ZoneServices(z) => 9208 + 109 * z
    case KeyEvents => 9990
    case General => 9991
  }

  datatype WbsRow = WbsRow(id: nat, parent: Option<nat>)

  function ParentOf(k: WbsKey): Option<WbsKey> {
    match k
    case Root => None
    case System(z, _) => Some(Zone(z))
    case ZoneServices(z) => Some(Zone(z))
    case _ => Some(Root)
  }

  /** A node's row: its own number and its parent's. */
  function NodeOf(k: WbsKey): WbsRow {
    WbsRow(WbsId(k), if ParentOf(k).Some? then Some(WbsId(ParentOf(k).value)) else None)
  }

  /** The nodes in the order they are written: the root, each zone followed by its systems
      and its services, key events, general services. */
  function KeyAt(i: nat): WbsKey {
    if i == 0 then Root
    else if i <= 60 then
      var z, j := (i - 1) / 10, (i - 1) % 10;
      if j == 0 then Zone(z) else if j == 9 then ZoneServices(z) else System(z, j - 1)
    else if i == 61 then KeyEvents
    else General
  }

  function IndexOfKey(k: WbsKey): nat {
    match k
    case Root => 0
    case Zone(z) => 1 + 10 * z
    case System(z, j) => 2 + 10 * z + j
    case ZoneServices(z) => 10 + 10 * z
    case KeyEvents => 61
    case General => 62
  }

  const NODES := 63

  ghost predicate IsWbs(rows: seq<WbsRow>) {
    |rows| == NODES && forall i :: 0 <= i < NODES ==> rows[i] == NodeOf(KeyAt(i))
  }

  /** The WBS rows, numbered by the running counter `n`: every node of the breakdown in
      order, under its own parent. */
  method BuildWbs() returns (rows: seq<WbsRow>)
    ensures IsWbs(rows)
  {
    hide KeyAt, NodeOf, WbsId;
    EndKeys();
    rows := [WbsRow(9000, None)];
    var n := 9100;
    for z := 0 to 6
      invariant n == 9100 + 109 * z && |rows| == 1 + 10 * z
      invariant forall i :: 0 <= i < |rows| ==> rows[i] == NodeOf(KeyAt(i))
    {
      var zone := n;
      ZoneKeys(z);
      rows := rows + [WbsRow(n, Some(9000))];
      n := n + 100;
      for j := 0 to 8
        invariant n == zone + 100 + j && |rows| == 2 + 10 * z + j
        invariant forall i :: 0 <= i < |rows| ==> rows[i] == NodeOf(KeyAt(i))
      {
        SystemKey(z, j);
        rows := rows + [WbsRow(n, Some(zone))];
        n := n + 1;
      }
      rows := rows + [WbsRow(n, Some(zone))];
      n := n + 1;
    }
    rows := rows + [WbsRow(9990, Some(9000))];
    rows := rows + [WbsRow(9991, Some(9000))];
  }

  lemma EndKeys()
    ensures NodeOf(KeyAt(0)) == WbsRow(9000, None)
    ensures NodeOf(KeyAt(61)) == WbsRow(9990, Some(9000)) && NodeOf(KeyAt(62)) == WbsRow(9991, Some(9000))
  {
  }

  /** A zone's own node and its service node. */
  lemma ZoneKeys(z: nat)
    requires z < 6
    ensures NodeOf(KeyAt(1 + 10 * z)) == WbsRow(9100 + 109 * z, Some(9000))
    ensures NodeOf(KeyAt(10 + 10 * z)) == WbsRow(9208 + 109 * z, Some(9100 + 109 * z))
  {
    assert KeyAt(1 + 10 * z) == Zone(z) && KeyAt(10 + 10 * z) == ZoneServices(z);
  }

  lemma SystemKey(z: nat, j: nat)
    requires z < 6 && j < 8
    ensures NodeOf(KeyAt(2 + 10 * z + j)) == WbsRow(9200 + 109 * z + j, Some(9100 + 109 * z))
  {
    assert KeyAt(2 + 10 * z + j) == System(z, j);
  }

  ghost predicate HasWbs(rows: seq<WbsRow>, id: nat) {
    exists i :: 0 <= i < |rows| && rows[i].id == id
  }

  ghost predicate ParentsIn(rows: seq<WbsRow>) {
    forall i :: 0 <= i < |rows| && rows[i].parent.Some? ==> HasWbs(rows, rows[i].parent.value)
  }

  lemma KeyIsListed(k: WbsKey)
    requires KnownWbs(k)
    ensures IndexOfKey(k) < NODES && KeyAt(IndexOfKey(k)) == k
  {
  }

  /** Every node is a row, and so is every row's parent. */
  lemma WbsIsClosed(rows: seq<WbsRow>)
    requires IsWbs(rows)
    ensures (forall k :: KnownWbs(k) ==> HasWbs(rows, WbsId(k))) && ParentsIn(rows)
  {
    hide KeyAt, WbsId;
    forall k | KnownWbs(k) ensures HasWbs(rows, WbsId(k)) {
      KeyIsListed(k);
      assert rows[IndexOfKey(k)].id == WbsId(k);
    }
    forall i | 0 <= i < |rows| && rows[i].parent.Some? ensures HasWbs(rows, rows[i].parent.value) {
      ParentIsKnown(i);
    }
  }

  lemma ParentIsKnown(i: nat)
    requires i < NODES
    ensures KnownWbs(KeyAt(i)) && (ParentOf(KeyAt(i)).Some? ==> KnownWbs(ParentOf(KeyAt(i)).value))
  {
  }

  /** No two nodes share a number. */
  lemma WbsIdsDistinct(k: WbsKey, l: WbsKey)
    requires KnownWbs(k) && KnownWbs(l) && WbsId(k) == WbsId(l)
    ensures k == l
  {
  }

  datatype Status = NotStart | Active | Complete

  datatype TaskRow = TaskRow(
    id: nat, wbs: WbsKey, milestone: bool, status: Status, start: int, end: int, actStart: Option<int>,
    actEnd: Option<int>)

  datatype AssignRow = AssignRow(task: nat, rsrc: nat, target: int, earned: int)
  datatype UdfRow = UdfRow(utype: nat, task: nat)
  datatype Kind = FS | SS
  datatype Link = Link(id: nat, succ: nat, pred: nat, kind: Kind, lag: int)

  /** The draws one task makes: its crew, and how far its budget and progress stray. */
  datatype TaskDraw = TaskDraw(crew: nat, stray: real, lag: real)

  predicate ValidTaskDraw(d: TaskDraw) {
    1 <= d.crew <= 4 && 0.7 <= d.stray <= 1.15 && 0.55 <= d.lag <= 1.05
  }

  /** Statused against the data date. */
  function RowOf(id: nat, wbs: WbsKey, milestone: bool, start: int, end: int): TaskRow {
    if end <= DATA_DATE then TaskRow(id, wbs, milestone, Complete, start, end, Some(start), Some(end))
    else if !milestone && start < DATA_DATE then TaskRow(id, wbs, milestone, Active, start, end, Some(start), None)
    else TaskRow(id, wbs, milestone, NotStart, start, end, None, None)
  }

  function Budget(start: int, end: int, d: TaskDraw): int {
    var days := (end - start) as real / DAY as real;
    var durDays := if days > 0.05 then days else 0.05;
    Max(8, (durDays * d.crew as real * 8.0 * d.stray).Floor)
  }

  function Earned(row: TaskRow, budget: int, d: TaskDraw): int {
    match row.status
    case Complete => budget
    case NotStart => 0
    case Active =>
      var frac := (DATA_DATE - row.start) as real / (if row.end != row.start then row.end - row.start else 1) as real;
      Min(budget, (budget as real * frac * d.lag).Floor)
  }

  lemma EarnedWithin(row: TaskRow, budget: int, d: TaskDraw)
    requires ValidTaskDraw(d) && budget >= 0
    requires row == RowOf(row.id, row.wbs, false, row.start, row.end) && row.start < row.end
    ensures 0 <= Earned(row, budget, d) <= budget
    ensures row.status == Complete ==> Earned(row, budget, d) == budget
    ensures row.status == NotStart ==> Earned(row, budget, d) == 0
  {
    if row.status == Active {
      var a, b := (DATA_DATE - row.start) as real, (row.end - row.start) as real;
      NonNegativeQuotient(a, b);
      NonNegativeProduct(budget as real, a / b);
      NonNegativeProduct(budget as real * (a / b), d.lag);
    }
  }

  lemma NonNegativeQuotient(a: real, b: real)
    requires a >= 0.0 && b > 0.0
    ensures a / b >= 0.0
  {
  }

  lemma NonNegativeProduct(a: real, b: real)
    requires a >= 0.0 && b >= 0.0
    ensures a * b >= 0.0
  {
  }

  /** One assignment, or the 80/20 split over two trades. */
  function Assigns(task: nat, rsrc: nat, second: Option<nat>, budget: int, earned: int): seq<AssignRow> {
    match second
    case None => [AssignRow(task, rsrc, budget, earned)]
    case Some(other) =>
      var main := (budget as real * 0.8).Floor;
      [AssignRow(task, rsrc, main, Min(earned, main)), AssignRow(task, other, budget - main, Max(0, earned - main))]
  }

  function Targets(rows: seq<AssignRow>): int {
    if rows == [] then 0 else rows[0].target + Targets(rows[1..])
  }

  function EarnedHours(rows: seq<AssignRow>): int {
    if rows == [] then 0 else rows[0].earned + EarnedHours(rows[1..])
  }

  lemma OneRow(row: AssignRow)
    ensures Targets([row]) == row.target && EarnedHours([row]) == row.earned
  {
    assert [row][1..] == [];
  }

  lemma FourFifths(budget: int)
    requires budget >= 0
    ensures 0 <= (budget as real * 0.8).Floor <= budget
  {
    assert 0.0 <= budget as real * 0.8 <= budget as real;
  }

  /** The split loses no hour, budgeted or earned, earns within each part's own target,
      and a job that is finished (or untouched) is so in both parts. */
  lemma SplitConserves(task: nat, rsrc: nat, second: Option<nat>, budget: int, earned: int)
    requires 0 <= earned <= budget
    ensures var rows := Assigns(task, rsrc, second, budget, earned);
            && Targets(rows) == budget && EarnedHours(rows) == earned
            && (forall i :: 0 <= i < |rows| ==> 0 <= rows[i].earned <= rows[i].target && rows[i].task == task)
            && (earned == budget ==> forall i :: 0 <= i < |rows| ==> rows[i].earned == rows[i].target)
            && (earned == 0 ==> forall i :: 0 <= i < |rows| ==> rows[i].earned == 0)
  {
    var rows := Assigns(task, rsrc, second, budget, earned);
    if second.Some? {
      assert rows[1..] == [rows[1]];
      FourFifths(budget);
      OneRow(rows[1]);
    } else {
      assert rows[1..] == [];
    }
  }

  // ----- How many hours a task is given -------------------------------------------------------

  /** A task's length in days, at least a twentieth. */
  function DaysOf(start: int, end: int): real {
    if 20 * (end - start) > DAY then (end - start) as real / DAY as real else 0.05
  }

  /** Days times crew. */
  function CrewDays(start: int, end: int, crew: nat): real {
    DaysOf(start, end) * crew as real
  }

  /** Its hours at eight a day, as far as the draw stretches them. */
  function CrewHours(start: int, end: int, d: TaskDraw): real {
    Times(CrewDays(start, end, d.crew) * 8.0, d.stray)
  }

  function Times(a: real, b: real): real { a * b }

  lemma BudgetIs(start: int, end: int, d: TaskDraw)
    ensures var h, drawn := Budget(start, end, d), CrewHours(start, end, d);
            h >= 8 && h as real > drawn - 1.0 && (h as real <= drawn || h == 8)
  {
    var days := (end - start) as real / DAY as real;
    assert days > 0.05 <==> 20 * (end - start) > DAY;
  }

  /** What a work task's hours may come to: a crew for its days at eight hours a day,
      stretched by seven tenths to one and three twentieths; eight at the least. */
  predicate HoursDrawn(h: int, start: int, end: int, crew: nat) {
    var crewDays := CrewDays(start, end, crew);
    && h >= 8 && (h as real <= crewDays * 8.0 * 1.15 || h == 8)
    && h as real > crewDays * 8.0 * 0.7 - 1.0
  }

  lemma CrewDaysPositive(start: int, end: int, crew: nat)
    ensures CrewDays(start, end, crew) >= 0.0
  {
    assert DaysOf(start, end) > 0.0;
    hide DaysOf;
    NonNegativeProduct(DaysOf(start, end), crew as real);
  }

  lemma CrewHoursWithin(start: int, end: int, d: TaskDraw)
    requires ValidTaskDraw(d)
    ensures var full := CrewDays(start, end, d.crew) * 8.0;
            full * 0.7 <= CrewHours(start, end, d) <= full * 1.15
  {
    hide CrewDays, Times;
    CrewDaysPositive(start, end, d.crew);
    StretchBetween(CrewDays(start, end, d.crew) * 8.0, d.stray);
  }

  lemma CrewHoursMonotone(start: int, end: int, from: int, to: int, d: TaskDraw, e: TaskDraw)
    requires ValidTaskDraw(d) && end - start <= to - from && d.crew <= e.crew && d.stray <= e.stray
    ensures CrewHours(start, end, d) <= CrewHours(from, to, e)
  {
    hide CrewDays;
    CrewDaysMonotone(start, end, from, to, d.crew, e.crew);
    Products(CrewDays(start, end, d.crew) * 8.0, CrewDays(from, to, e.crew) * 8.0, d.stray, e.stray);
  }

  lemma StretchBetween(full: real, stray: real)
    requires full >= 0.0 && 0.7 <= stray <= 1.15
    ensures full * 0.7 <= Times(full, stray) <= full * 1.15
  {
    NonNegativeProduct(full, stray - 0.7);
    NonNegativeProduct(full, 1.15 - stray);
  }

  /** The hours budgeted over a work task's assignments are those of its crew and days. */
  lemma HoursWithin(row: TaskRow, trade: nat, second: Option<nat>, d: TaskDraw)
    requires !row.milestone && ValidTaskDraw(d)
    ensures HoursDrawn(Targets(TaskAssigns(row, trade, second, d)), row.start, row.end, d.crew)
  {
    TargetsAre(row, trade, second, d);
    hide Targets, TaskAssigns, CrewDays, CrewHours, Budget;
    BudgetIs(row.start, row.end, d);
    CrewHoursWithin(row.start, row.end, d);
  }

  /** A work task added brings the hours its crew and days come to, a milestone none, and
      nobody else's hours are touched. */
  lemma TaskHours(
      st: State, wbs: WbsKey, trade: nat, start: int, end: int, milestone: bool, compartment: bool, wi: bool,
      second: Option<nat>, d: TaskDraw)
    requires ValidTaskDraw(d)
    ensures var next := WithTask(st, wbs, trade, start, end, milestone, compartment, wi, second, d).assigns;
            && st.assigns <= next
            && if milestone then next == st.assigns
               else HoursDrawn(Targets(next[|st.assigns|..]), start, end, d.crew)
  {
    var row := RowOf(FIRST + |st.tasks|, wbs, milestone, start, end);
    RowIs(FIRST + |st.tasks|, wbs, milestone, start, end);
    if !milestone {
      HoursWithin(row, trade, second, d);
    }
    var own := TaskAssigns(row, trade, second, d);
    assert milestone ==> own == [];
    hide RowOf, TaskAssigns, HoursDrawn, Targets;
    assert (st.assigns + own)[|st.assigns|..] == own;
  }

  lemma TargetsAre(row: TaskRow, trade: nat, second: Option<nat>, d: TaskDraw)
    requires !row.milestone
    ensures Targets(TaskAssigns(row, trade, second, d)) == Budget(row.start, row.end, d)
  {
    var budget := Budget(row.start, row.end, d);
    hide Budget, Earned;
    TargetsSum(row.id, trade, second, budget, Earned(row, budget, d));
  }

  lemma TargetsSum(task: nat, rsrc: nat, second: Option<nat>, budget: int, earned: int)
    ensures Targets(Assigns(task, rsrc, second, budget, earned)) == budget
  {
    var rows := Assigns(task, rsrc, second, budget, earned);
    OneRow(rows[|rows| - 1]);
    assert rows[1..] == if second.None? then [] else [rows[1]];
  }

  /** A larger crew, or a longer task, is never given fewer hours. */
  lemma HoursMonotone(a: TaskRow, b: TaskRow, trade: nat, second: Option<nat>, d: TaskDraw, e: TaskDraw)
    requires !a.milestone && !b.milestone && ValidTaskDraw(d) && ValidTaskDraw(e)
    requires a.end - a.start <= b.end - b.start && d.crew <= e.crew && d.stray <= e.stray
    ensures Targets(TaskAssigns(a, trade, second, d)) <= Targets(TaskAssigns(b, trade, second, e))
  {
    hide *;
    TargetsAre(a, trade, second, d);
    TargetsAre(b, trade, second, e);
    BudgetIs(a.start, a.end, d);
    BudgetIs(b.start, b.end, e);
    CrewHoursMonotone(a.start, a.end, b.start, b.end, d, e);
  }

  lemma CrewDaysMonotone(start: int, end: int, from: int, to: int, crew: nat, larger: nat)
    requires end - start <= to - from && crew <= larger
    ensures 0.0 <= CrewDays(start, end, crew) <= CrewDays(from, to, larger)
  {
    LongerDays(start, end, from, to);
    hide DaysOf;
    Products(DaysOf(start, end), DaysOf(from, to), crew as real, larger as real);
  }

  lemma LongerDays(start: int, end: int, from: int, to: int)
    requires end - start <= to - from
    ensures 0.0 <= DaysOf(start, end) <= DaysOf(from, to)
  {
  }

  lemma Products(a: real, b: real, c: real, d: real)
    requires 0.0 <= a <= b && 0.0 <= c <= d
    ensures 0.0 <= a * c <= b * d
  {
    assert a * c <= b * c <= b * d;
  }

  /** The hours earned over a running task's assignments: the elapsed part of its budget as
      far as its progress keeps up, a whole number of hours, and no more than the budget. */
  lemma EarnedKeepsPace(row: TaskRow, trade: nat, second: Option<nat>, d: TaskDraw)
    requires ValidTaskDraw(d) && row == RowOf(row.id, row.wbs, false, row.start, row.end)
    requires row.start < DATA_DATE < row.end
    ensures var rows := TaskAssigns(row, trade, second, d);
            var h, done := Targets(rows), EarnedHours(rows);
            var pace := h as real * ((DATA_DATE - row.start) as real / (row.end - row.start) as real) * d.lag;
            && done <= h && done as real <= pace && (done as real > pace - 1.0 || done == h)
  {
    hide *;
    RunningHours(row, trade, second, d);
    EarnedIs(row, Targets(TaskAssigns(row, trade, second, d)), d);
  }

  lemma RunningHours(row: TaskRow, trade: nat, second: Option<nat>, d: TaskDraw)
    requires ValidTaskDraw(d) && row == RowOf(row.id, row.wbs, false, row.start, row.end)
    requires row.start < DATA_DATE < row.end
    ensures var rows := TaskAssigns(row, trade, second, d);
            row.status == Active && EarnedHours(rows) == Earned(row, Targets(rows), d)
  {
    var budget := Budget(row.start, row.end, d);
    assert budget >= 0 by { hide RowOf; BudgetIs(row.start, row.end, d); }
    hide Budget;
    EarnedWithin(row, budget, d);
    hide Earned;
    SplitConserves(row.id, trade, second, budget, Earned(row, budget, d));
    hide Targets, EarnedHours, Assigns;
  }

  lemma EarnedIs(row: TaskRow, budget: int, d: TaskDraw)
    requires row.status == Active && row.start < row.end
    ensures var pace, done :=
              budget as real * ((DATA_DATE - row.start) as real / (row.end - row.start) as real) * d.lag,
              Earned(row, budget, d);
            done <= budget && done as real <= pace && (done as real > pace - 1.0 || done == budget)
  {
  }

  /** Two trades share a task four to one, to the whole hour, and the second earns nothing
      before the first has earned its part. */
  lemma SplitIsFourToOne(task: nat, rsrc: nat, other: nat, budget: int, earned: int)
    requires 0 <= earned <= budget
    ensures var rows := Assigns(task, rsrc, Some(other), budget, earned);
            && |rows| == 2 && rows[0].rsrc == rsrc && rows[1].rsrc == other
            && 5 * rows[0].target <= 4 * budget < 5 * rows[0].target + 5
            && (rows[1].earned > 0 ==> rows[0].earned == rows[0].target)
  {
  }

  // ----- What every step of the generator keeps ---------------------------------------------

  const FIRST := 900001
  const FIRST_LINK := 950001

  predicate RowOk(row: TaskRow, months: int) {
    && row == RowOf(row.id, row.wbs, row.milestone, row.start, row.end)
    && KnownWbs(row.wbs)
    && if row.milestone then row.start == row.end else InAvailability(row.start, row.end, months)
  }

  predicate KnownTrade(rsrc: nat) {
    7001 <= rsrc <= 7010
  }

  predicate AssignOk(a: AssignRow, tasks: seq<TaskRow>) {
    && FIRST <= a.task < FIRST + |tasks| && KnownTrade(a.rsrc)
    && 0 <= a.earned <= a.target
    && (tasks[a.task - FIRST].status == Complete ==> a.earned == a.target)
    && (tasks[a.task - FIRST].status == NotStart ==> a.earned == 0)
  }

  predicate UdfOk(u: UdfRow, n: nat) {
    FIRST <= u.task < FIRST + n && 901 <= u.utype <= 903
  }

  predicate LinkRefs(l: Link, n: nat) {
    FIRST <= l.succ < FIRST + n && FIRST <= l.pred < FIRST + n
  }

  predicate Ascends(l: Link) {
    l.pred < l.succ
  }

  /** Every row the generator has laid down so far is sound. */
  ghost predicate RowsOk(
      months: int, tasks: seq<TaskRow>, assigns: seq<AssignRow>, udfs: seq<UdfRow>, links: seq<Link>) {
    && months >= 1
    && (forall i :: 0 <= i < |tasks| ==> tasks[i].id == FIRST + i && RowOk(tasks[i], months))
    && (forall a :: a in assigns ==> AssignOk(a, tasks))
    && (forall u :: u in udfs ==> UdfOk(u, |tasks|))
    && (forall l :: l in links ==> LinkRefs(l, |tasks|))
    && (forall i :: 0 <= i < |links| ==> links[i].id == FIRST_LINK + i)
  }

  /** What the generator has laid down, as a value. */
  datatype State = State(tasks: seq<TaskRow>, links: seq<Link>, assigns: seq<AssignRow>, udfs: seq<UdfRow>, predId: nat)

  function TaskAssigns(row: TaskRow, trade: nat, second: Option<nat>, d: TaskDraw): seq<AssignRow> {
    if row.milestone then []
    else
      var budget := Budget(row.start, row.end, d);
      Assigns(row.id, trade, second, budget, Earned(row, budget, d))
  }

  function TaskUdfs(row: TaskRow, compartment: bool, wi: bool): seq<UdfRow> {
    (if compartment then [UdfRow(901, row.id)] else []) + (if wi then [UdfRow(902, row.id)] else [])
    + (if row.milestone then [] else [UdfRow(903, row.id)])
  }

  /** One task more. */
  function WithTask(
      st: State, wbs: WbsKey, trade: nat, start: int, end: int, milestone: bool, compartment: bool, wi: bool,
      second: Option<nat>, d: TaskDraw): State {
    var row := RowOf(FIRST + |st.tasks|, wbs, milestone, start, end);
    State(st.tasks + [row], st.links, st.assigns + TaskAssigns(row, trade, second, d),
          st.udfs + TaskUdfs(row, compartment, wi), st.predId)
  }

  /** One link more, numbered by the running counter. */
  function WithLink(st: State, pred: nat, succ: nat, kind: Kind, lag: int): State {
    st.(links := st.links + [Link(st.predId + 1, succ, pred, kind, lag)], predId := st.predId + 1)
  }

  class Generator {
    const months: int
    var tasks: seq<TaskRow>
    var links: seq<Link>
    var assigns: seq<AssignRow>
    var udfs: seq<UdfRow>
    var predId: nat

    ghost predicate Valid()
      reads this
    {
      RowsOk(months, tasks, assigns, udfs, links) && predId + 1 == FIRST_LINK + |links|
    }

    constructor (months: int)
      requires months >= 1
      ensures Valid() && this.months == months && Laid() == State([], [], [], [], 950000)
    {
      this.months := months;
      tasks, links, assigns, udfs := [], [], [], [];
      predId := 950000;
    }

    function Laid(): State
      reads this
    {
      State(tasks, links, assigns, udfs, predId)
    }

    function NextId(): nat
      reads this
    {
      FIRST + |tasks|
    }

    /** One task row with its assignments and user fields. */
    method AddTask(wbs: WbsKey, trade: nat, start: int, end: int, milestone: bool, compartment: bool, wi: bool,
                   second: Option<nat>, d: TaskDraw) returns (tid: nat)
      requires Valid() && KnownWbs(wbs) && KnownTrade(trade) && ValidTaskDraw(d)
      requires second.Some? ==> KnownTrade(second.value)
      requires if milestone then start == end else InAvailability(start, end, months)
      modifies this
      ensures Valid() && tid == old(NextId())
      ensures Laid() == WithTask(old(Laid()), wbs, trade, start, end, milestone, compartment, wi, second, d)
      ensures !milestone ==> HoursDrawn(Targets(assigns[|old(assigns)|..]), start, end, d.crew)
    {
      TaskHours(Laid(), wbs, trade, start, end, milestone, compartment, wi, second, d);
      WithTaskOk(Laid(), months, wbs, trade, start, end, milestone, compartment, wi, second, d);
      hide RowsOk, RowOf, Budget, Earned, Assigns, HoursDrawn, Targets, ValidTaskDraw, InAvailability, KnownWbs;
      tid := FIRST + |tasks|;
      var row := RowOf(tid, wbs, milestone, start, end);
      RowIs(tid, wbs, milestone, start, end);
      tasks := tasks + [row];
      if !milestone {
        var budget := Budget(start, end, d);
        var earned := Earned(row, budget, d);
        assigns := assigns + Assigns(tid, trade, second, budget, earned);
      }
      var own := [];
      if compartment { own := own + [UdfRow(901, tid)]; }
      if wi { own := own + [UdfRow(902, tid)]; }
      if !milestone { own := own + [UdfRow(903, tid)]; }
      udfs := udfs + own;
    }

    method AddLink(pred: nat, succ: nat, kind: Kind, lag: int)
      requires Valid() && FIRST <= pred < NextId() && FIRST <= succ < NextId()
      modifies this
      ensures Valid() && Laid() == WithLink(old(Laid()), pred, succ, kind, lag)
    {
      predId := predId + 1;
      links := links + [Link(predId, succ, pred, kind, lag)];
    }
  }

  lemma RowIs(id: nat, wbs: WbsKey, milestone: bool, start: int, end: int)
    ensures var row := RowOf(id, wbs, milestone, start, end);
            row.id == id && row.wbs == wbs && row.milestone == milestone && row.start == start && row.end == end
  {
  }

  /** A task more keeps every row sound. */
  lemma WithTaskOk(
      st: State, months: int, wbs: WbsKey, trade: nat, start: int, end: int, milestone: bool, compartment: bool,
      wi: bool, second: Option<nat>, d: TaskDraw)
    requires RowsOk(months, st.tasks, st.assigns, st.udfs, st.links)
    requires KnownWbs(wbs) && KnownTrade(trade) && ValidTaskDraw(d) && (second.Some? ==> KnownTrade(second.value))
    requires if milestone then start == end else InAvailability(start, end, months)
    ensures var next := WithTask(st, wbs, trade, start, end, milestone, compartment, wi, second, d);
            RowsOk(months, next.tasks, next.assigns, next.udfs, next.links)
  {
    hide Budget, Earned, Assigns, RowOk, RowOf, AssignOk, UdfOk, InAvailability, ValidTaskDraw, KnownWbs;
    var row := RowOf(FIRST + |st.tasks|, wbs, milestone, start, end);
    RowIs(FIRST + |st.tasks|, wbs, milestone, start, end);
    NewRowOk(FIRST + |st.tasks|, months, wbs, milestone, start, end);
    OlderAssigns(st.assigns, st.tasks, row);
    OwnAssigns(st.tasks + [row], row, trade, second, d, months);
    OwnUdfs(row, compartment, wi, |st.tasks|);
    NewUdfs(st.udfs, TaskUdfs(row, compartment, wi), |st.tasks|);
    hide TaskAssigns, TaskUdfs;
  }

  lemma NewRowOk(id: nat, months: int, wbs: WbsKey, milestone: bool, start: int, end: int)
    requires KnownWbs(wbs) && if milestone then start == end else InAvailability(start, end, months)
    ensures RowOk(RowOf(id, wbs, milestone, start, end), months)
  {
    hide InAvailability, KnownWbs;
  }

  lemma OwnAssigns(tasks: seq<TaskRow>, row: TaskRow, trade: nat, second: Option<nat>, d: TaskDraw, months: int)
    requires tasks != [] && tasks[|tasks| - 1] == row && row.id == FIRST + |tasks| - 1 && RowOk(row, months)
    requires KnownTrade(trade) && ValidTaskDraw(d) && (second.Some? ==> KnownTrade(second.value))
    ensures forall a :: a in TaskAssigns(row, trade, second, d) ==> AssignOk(a, tasks)
  {
    hide Budget, Earned, Assigns, AssignOk;
    if !row.milestone {
      var budget := Budget(row.start, row.end, d);
      NewAssigns(tasks, row, trade, second, budget, Earned(row, budget, d), d);
    }
  }

  lemma OwnUdfs(row: TaskRow, compartment: bool, wi: bool, n: nat)
    requires row.id == FIRST + n
    ensures forall u :: u in TaskUdfs(row, compartment, wi) ==> UdfOk(u, n + 1)
  {
  }

  lemma OlderAssigns(assigns: seq<AssignRow>, before: seq<TaskRow>, row: TaskRow)
    requires forall a :: a in assigns ==> AssignOk(a, before)
    ensures forall a :: a in assigns ==> AssignOk(a, before + [row])
  {
  }

  lemma NewAssigns(
      tasks: seq<TaskRow>, row: TaskRow, trade: nat, second: Option<nat>, budget: int, earned: int, d: TaskDraw)
    requires tasks != [] && tasks[|tasks| - 1] == row && row.id == FIRST + |tasks| - 1
    requires ValidTaskDraw(d) && row == RowOf(row.id, row.wbs, false, row.start, row.end) && row.start < row.end
    requires KnownTrade(trade) && (second.Some? ==> KnownTrade(second.value))
    requires budget == Budget(row.start, row.end, d) && earned == Earned(row, budget, d)
    ensures forall a :: a in Assigns(row.id, trade, second, budget, earned) ==> AssignOk(a, tasks)
  {
    assert budget >= 8 by { hide Earned, RowOf; }
    hide Budget;
    EarnedWithin(row, budget, d);
    hide Earned, RowOf;
    SplitConserves(row.id, trade, second, budget, earned);
    var rows := Assigns(row.id, trade, second, budget, earned);
    forall a | a in rows ensures AssignOk(a, tasks) {
      var i :| 0 <= i < |rows| && rows[i] == a;
    }
  }

  lemma NewUdfs(udfs: seq<UdfRow>, own: seq<UdfRow>, n: nat)
    requires forall u :: u in udfs ==> UdfOk(u, n)
    requires forall u :: u in own ==> UdfOk(u, n + 1)
    ensures forall u :: u in udfs + own ==> UdfOk(u, n + 1)
  {
  }

  // ----- The loops ---------------------------------------------------------------------------

  /** The draws one step of a chain makes. */
  datatype StepDraw = StepDraw(
    wave: WaveDraw, dur: int, gap: int, located: bool, wi: bool, second: Option<nat>, task: TaskDraw, kind: Kind,
    lag: int)

  predicate ValidStep(d: StepDraw, months: int) {
    && ValidWave(d.wave, months) && ValidTaskDraw(d.task)
    && 2 * DAY <= d.dur <= 30 * DAY && 0 <= d.gap <= 40 * DAY
    && (d.second.Some? ==> KnownTrade(d.second.value))
  }

  datatype ChainDraw = ChainDraw(wbs: WbsKey, trade: nat, steps: seq<StepDraw>)

  predicate ValidChain(c: ChainDraw, months: int) {
    KnownWbs(c.wbs) && KnownTrade(c.trade) && c.steps != [] && forall d :: d in c.steps ==> ValidStep(d, months)
  }

  ghost predicate AllAscend(links: seq<Link>) {
    forall l :: l in links ==> Ascends(l)
  }

  /** When the `i`-th step of a chain runs: the first in its wave, each later one after
      the one before. */
  function StepWindow(c: ChainDraw, months: int, i: nat): (int, int)
    requires i < |c.steps|
  {
    var d := c.steps[i];
    if i == 0 then WaveWindow(d.wave, d.dur, months)
        else NextWindow(StepWindow(c, months, i - 1).1, d.gap, d.dur, months)
  }

  /** The first `i` steps of a chain laid down, each linked to the one before. */
  function ChainTo(st: State, c: ChainDraw, months: int, i: nat): State
    requires i <= |c.steps|
  {
    if i == 0 then st else StepTo(ChainTo(st, c, months, i - 1), c, months, i)
  }

  /** Its `i`-th step laid down. */
  function StepTo(before: State, c: ChainDraw, months: int, i: nat): State
    requires 1 <= i <= |c.steps|
  {
    var d, w := c.steps[i - 1], StepWindow(c, months, i - 1);
    var next := WithTask(before, c.wbs, c.trade, w.0, w.1, false, d.located, d.wi, d.second, d.task);
    var tid := FIRST + |before.tasks|;
    if i == 1 then next else WithLink(next, tid - 1, tid, d.kind, d.lag)
  }

  /** A chain adds one task a step, in consecutive ids and each in its own window. */
  lemma {:induction false} ChainTasks(st: State, c: ChainDraw, months: int, i: nat)
    requires i <= |c.steps|
    ensures var out := ChainTo(st, c, months, i);
            && |out.tasks| == |st.tasks| + i && out.tasks[..|st.tasks|] == st.tasks
            && forall j :: 0 <= j < i ==> var w := StepWindow(c, months, j);
                 out.tasks[|st.tasks| + j] == RowOf(FIRST + |st.tasks| + j, c.wbs, false, w.0, w.1)
  {
    hide RowOf, StepWindow, TaskAssigns, TaskUdfs;
    if i > 0 {
      ChainTasks(st, c, months, i - 1);
    }
  }

  lemma OneLinkMore(st: State, c: ChainDraw, months: int, i: nat)
    requires 2 <= i <= |c.steps|
    ensures var before, out := ChainTo(st, c, months, i - 1), ChainTo(st, c, months, i);
            && out.predId == before.predId + 1
            && out.links == before.links + [Link(out.predId, FIRST + |st.tasks| + i - 1, FIRST + |st.tasks| + i - 2,
                                                 c.steps[i - 1].kind, c.steps[i - 1].lag)]
  {
    hide StepTo;
    ChainLength(st, c, months, i - 1);
    StepLinks(ChainTo(st, c, months, i - 1), c, months, i);
  }

  lemma StepLinks(before: State, c: ChainDraw, months: int, i: nat)
    requires 2 <= i <= |c.steps|
    ensures var out, tid := StepTo(before, c, months, i), FIRST + |before.tasks|;
            && out.predId == before.predId + 1
            && out.links == before.links + [Link(out.predId, tid, tid - 1, c.steps[i - 1].kind, c.steps[i - 1].lag)]
  {
    hide RowOf, StepWindow, TaskAssigns, TaskUdfs;
  }

  lemma ChainLength(st: State, c: ChainDraw, months: int, i: nat)
    requires i <= |c.steps|
    ensures |ChainTo(st, c, months, i).tasks| == |st.tasks| + i
  {
    hide ChainTo, StepWindow;
    ChainTasks(st, c, months, i);
  }

  /** It links each step to the next and nothing else, numbering on from the counter. */
  lemma {:induction false} ChainLinks(st: State, c: ChainDraw, months: int, i: nat)
    requires 1 <= i <= |c.steps|
    ensures var out := ChainTo(st, c, months, i);
            && out.predId == st.predId + i - 1 && |out.links| == |st.links| + i - 1
            && out.links[..|st.links|] == st.links
            && forall j :: 1 <= j < i ==>
                 out.links[|st.links| + j - 1]
                  == Link(st.predId + j, FIRST + |st.tasks| + j, FIRST + |st.tasks| + j - 1,
                          c.steps[j].kind, c.steps[j].lag)
  {
    hide RowOf, StepWindow, TaskAssigns, TaskUdfs;
    if i == 1 {
      assert ChainTo(st, c, months, 0) == st;
    } else {
      OneLinkMore(st, c, months, i);
      hide ChainTo;
      ChainLinks(st, c, months, i - 1);
    }
  }

  /** Lays one chain of steps: the work chains of a space and the services of a zone. */
  method LayChain(g: Generator, c: ChainDraw) returns (last: nat)
    requires g.Valid() && AllAscend(g.links) && ValidChain(c, g.months)
    modifies g
    ensures g.Valid() && AllAscend(g.links) && last == g.NextId() - 1
    ensures g.Laid() == ChainTo(old(g.Laid()), c, g.months, |c.steps|)
    ensures |g.tasks| == |old(g.tasks)| + |c.steps|
  {
    hide RowsOk, ValidWave, ValidTaskDraw, WaveWindow, NextWindow, RowOf, Budget, Earned, Assigns, TaskAssigns,
      TaskUdfs, HoursDrawn, Targets;
    var prev: Option<nat> := None;
    var cursor: Option<int> := None;
    for i := 0 to |c.steps|
      invariant g.Valid() && AllAscend(g.links)
      invariant g.Laid() == ChainTo(old(g.Laid()), c, g.months, i)
      invariant |g.tasks| == |old(g.tasks)| + i
      invariant if i == 0 then prev.None? && cursor.None? else prev == Some(g.NextId() - 1) && cursor.Some?
      invariant i > 0 ==> AV_START <= cursor.value == StepWindow(c, g.months, i - 1).1
    {
      var d := c.steps[i];
      assert ValidStep(d, g.months);
      var start, end := 0, 0;
      MonthsPositive(g);
      if cursor.None? {
        WaveWindowInside(d.wave, d.dur, g.months);
        var w := WaveWindow(d.wave, d.dur, g.months);
        start, end := w.0, w.1;
      } else {
        NextWindowInside(cursor.value, d.gap, d.dur, g.months);
        var w := NextWindow(cursor.value, d.gap, d.dur, g.months);
        start, end := w.0, w.1;
      }
      cursor := Some(end);
      var tid := g.AddTask(c.wbs, c.trade, start, end, false, d.located, d.wi, d.second, d.task);
      if prev.Some? {
        g.AddLink(prev.value, tid, d.kind, d.lag);
      }
      prev := Some(tid);
    }
    last := prev.value;
  }

  lemma LinksRefer(g: Generator)
    requires g.Valid()
    ensures forall l :: l in g.links ==> LinkRefs(l, |g.tasks|)
  {
  }

  lemma MonthsPositive(g: Generator)
    requires g.Valid()
    ensures g.months >= 1
  {
  }

  /** The first `i` chains laid down. */
  function ChainsTo(st: State, chains: seq<ChainDraw>, months: int, i: nat): State
    requires i <= |chains|
  {
    if i == 0 then st else ChainTo(ChainsTo(st, chains, months, i - 1), chains[i - 1], months, |chains[i - 1].steps|)
  }

  /** Chains with nothing between them: the services of the zones, and the ship-wide
      services, which are chains of one. */
  method LayServices(g: Generator, chains: seq<ChainDraw>)
    requires g.Valid() && AllAscend(g.links) && forall c :: c in chains ==> ValidChain(c, g.months)
    modifies g
    ensures g.Valid() && AllAscend(g.links) && |old(g.tasks)| <= |g.tasks|
    ensures g.Laid() == ChainsTo(old(g.Laid()), chains, g.months, |chains|)
  {
    hide RowsOk, ValidChain, ChainTo;
    for i := 0 to |chains|
      invariant g.Valid() && AllAscend(g.links) && |old(g.tasks)| <= |g.tasks|
      invariant g.Laid() == ChainsTo(old(g.Laid()), chains, g.months, i)
    {
      var last := LayChain(g, chains[i]);
    }
  }

  /** The last task of each of the first `i` chains, under its zone. */
  function LastsTo(st: State, chains: seq<ChainDraw>, months: int, i: nat): (lasts: seq<seq<nat>>)
    requires i <= |chains| && forall c :: c in chains ==> c.wbs.System? && c.wbs.z < 6
    ensures |lasts| == 6
  {
    if i == 0 then [[], [], [], [], [], []]
    else
      var before, z := LastsTo(st, chains, months, i - 1), chains[i - 1].wbs.z;
      var n := |ChainsTo(st, chains, months, i).tasks|;
      before[z := before[z] + [if n == 0 then 0 else FIRST + n - 1]]
  }

  /** Work chains space by space, remembering each chain's last task under its zone. */
  method LaySpaces(g: Generator, chains: seq<ChainDraw>) returns (zoneLast: seq<seq<nat>>)
    requires g.Valid() && AllAscend(g.links)
    requires forall c :: c in chains ==> ValidChain(c, g.months) && c.wbs.System?
    modifies g
    ensures g.Valid() && AllAscend(g.links)
    ensures g.Laid() == ChainsTo(old(g.Laid()), chains, g.months, |chains|)
    ensures (forall c :: c in chains ==> c.wbs.z < 6) && zoneLast == LastsTo(old(g.Laid()), chains, g.months, |chains|)
    ensures forall z, id :: 0 <= z < 6 && id in zoneLast[z] ==> FIRST <= id < g.NextId()
  {
    hide RowsOk, ChainTo;
    assert forall c :: c in chains ==> ValidChain(c, g.months) && c.wbs.z < 6;
    hide ValidChain;
    zoneLast := [[], [], [], [], [], []];
    for i := 0 to |chains|
      invariant g.Valid() && AllAscend(g.links)
      invariant g.Laid() == ChainsTo(old(g.Laid()), chains, g.months, i)
      invariant zoneLast == LastsTo(old(g.Laid()), chains, g.months, i)
      invariant forall z, id :: 0 <= z < 6 && id in zoneLast[z] ==> FIRST <= id < g.NextId()
    {
      assert ValidChain(chains[i], g.months) && chains[i].wbs.System?;
      var z := chains[i].wbs.z;
      var last := LayChain(g, chains[i]);
      zoneLast := zoneLast[z := zoneLast[z] + [last]];
    }
  }

  /** The first `i` crosswalk-gap tasks: each in a wave of its own, linked to the one
      before. */
  function GapTo(st: State, c: ChainDraw, months: int, i: nat): State
    requires i <= |c.steps|
  {
    if i == 0 then st else GapStepTo(GapTo(st, c, months, i - 1), c, months, i)
  }

  function GapStepTo(before: State, c: ChainDraw, months: int, i: nat): State
    requires 1 <= i <= |c.steps|
  {
    var d := c.steps[i - 1];
    var w := WaveWindow(d.wave, d.dur, months);
    var next := WithTask(before, c.wbs, c.trade, w.0, w.1, false, d.located, d.wi, None, d.task);
    var tid := FIRST + |before.tasks|;
    if i == 1 then next else WithLink(next, tid - 1, tid, FS, 0)
  }

  method LayGap(g: Generator, c: ChainDraw)
    requires g.Valid() && AllAscend(g.links) && ValidChain(c, g.months)
    modifies g
    ensures g.Valid() && AllAscend(g.links) && |g.tasks| == |old(g.tasks)| + |c.steps|
    ensures g.Laid() == GapTo(old(g.Laid()), c, g.months, |c.steps|)
  {
    hide RowsOk, ValidWave, ValidTaskDraw, WaveWindow, RowOf, TaskAssigns, TaskUdfs, HoursDrawn, Targets;
    var prev: Option<nat> := None;
    for i := 0 to |c.steps|
      invariant g.Valid() && AllAscend(g.links) && |g.tasks| == |old(g.tasks)| + i
      invariant g.Laid() == GapTo(old(g.Laid()), c, g.months, i)
      invariant prev == if i == 0 then None else Some(g.NextId() - 1)
    {
      var d := c.steps[i];
      assert ValidStep(d, g.months);
      MonthsPositive(g);
      WaveWindowInside(d.wave, d.dur, g.months);
      var w := WaveWindow(d.wave, d.dur, g.months);
      var tid := g.AddTask(c.wbs, c.trade, w.0, w.1, false, d.located, d.wi, None, d.task);
      if prev.Some? {
        g.AddLink(prev.value, tid, FS, 0);
      }
      prev := Some(tid);
    }
  }

  const LIGHT_OFF := 4

  /** When the eight key events fall. */
  function EventAt(i: nat, months: int): int {
    match i
    case 0 => AV_START
    case 1 => AV_START + 45 * DAY
    case 2 => AV_START + 90 * DAY
    case 3 => AV_START + 135 * DAY
    case 4 => AvEnd(months) - 28 * DAY
    case 5 => AvEnd(months) - 14 * DAY
    case 6 => AvEnd(months) - 5 * DAY
    case _ => AvEnd(months)
  }

  /** The network has a rank: the light-off assessment above everything, every other
      task by its own id. */
  ghost predicate Ranks(links: seq<Link>, lightOff: nat) {
    forall l :: l in links ==> l.pred != lightOff && (l.succ == lightOff || Ascends(l))
  }

  function WithMilestone(st: State, at: int, d: TaskDraw): State {
    WithTask(st, KeyEvents, 7002, at, at, true, false, false, None, d)
  }

  /** Some link to light-off runs against the order of ids. */
  ghost predicate LinksBack(links: seq<Link>, lightOff: nat) {
    exists l :: l in links && l.succ == lightOff && !Ascends(l)
  }

  method AddMilestone(g: Generator, at: int, d: TaskDraw) returns (tid: nat)
    requires g.Valid() && ValidTaskDraw(d)
    modifies g
    ensures g.Valid() && g.Laid() == WithMilestone(old(g.Laid()), at, d) && tid == old(g.NextId())
  {
    hide RowsOk;
    tid := g.AddTask(KeyEvents, 7002, at, at, true, false, false, None, d);
  }

  /** The first `i` of the key events: eight fixed ones, then a review for each zone. */
  function EventsTo(st: State, months: int, reviewDays: seq<int>, d: TaskDraw, i: nat): State
    requires i <= 14 && |reviewDays| == 6
  {
    if i == 0 then st
    else
      WithMilestone(EventsTo(st, months, reviewDays, d, i - 1),
                    if i <= 8 then EventAt(i - 1, months) else AvEnd(months) - reviewDays[i - 9] * DAY, d)
  }

  /** The first `i` picks of a zone's last tasks linked to its review. */
  function PicksTo(st: State, lasts: seq<nat>, review: nat, picks: seq<nat>, i: nat): State
    requires i <= |picks|
  {
    if i == 0 then st
    else
      var before := PicksTo(st, lasts, review, picks, i - 1);
      if picks[i - 1] < |lasts| then WithLink(before, lasts[picks[i - 1]], review, FS, 0) else before
  }

  /** The first `z` zones linked: picks to the review, the review to light-off. */
  function ZonesTo(st: State, zoneLast: seq<seq<nat>>, first: nat, picks: seq<seq<nat>>, z: nat): State
    requires z <= 6 && |zoneLast| == 6 && |picks| == 6
  {
    if z == 0 then st
    else
      var before, review := ZonesTo(st, zoneLast, first, picks, z - 1), first + 8 + z - 1;
      WithLink(PicksTo(before, zoneLast[z - 1], review, picks[z - 1], |picks[z - 1]|), review, first + LIGHT_OFF, FS, 0)
  }

  /** The milestones themselves: eight fixed ones, then a close-out review per zone. */
  method LayMilestones(g: Generator, reviewDays: seq<int>, d: TaskDraw) returns (reviews: seq<nat>)
    requires g.Valid() && ValidTaskDraw(d) && |reviewDays| == 6
    modifies g
    ensures g.Valid() && g.links == old(g.links) && g.NextId() == old(g.NextId()) + 14
    ensures g.Laid() == EventsTo(old(g.Laid()), g.months, reviewDays, d, 14)
    ensures |reviews| == 6 && forall i :: 0 <= i < 6 ==> reviews[i] == old(g.NextId()) + 8 + i
  {
    hide RowsOk, RowOf, TaskAssigns, TaskUdfs;
    var first := g.NextId();
    for i := 0 to 8
      invariant g.Valid() && g.links == old(g.links) && g.NextId() == first + i
      invariant g.Laid() == EventsTo(old(g.Laid()), g.months, reviewDays, d, i)
    {
      var tid := AddMilestone(g, EventAt(i, g.months), d);
    }
    reviews := [];
    for z := 0 to 6
      invariant g.Valid() && g.links == old(g.links)
      invariant g.Laid() == EventsTo(old(g.Laid()), g.months, reviewDays, d, 8 + z)
      invariant |reviews| == z && g.NextId() == first + 8 + z
      invariant forall i :: 0 <= i < z ==> reviews[i] == first + 8 + i
    {
      var tid := AddMilestone(g, AvEnd(g.months) - reviewDays[z] * DAY, d);
      reviews := reviews + [tid];
    }
  }

  /** The key events: the milestones, and the links from some of each zone's last tasks to
      its review and from every review to light-off. */
  method LayKeyEvents(g: Generator, zoneLast: seq<seq<nat>>, reviewDays: seq<int>, picks: seq<seq<nat>>, d: TaskDraw)
    returns (lightOff: nat)
    requires g.Valid() && AllAscend(g.links) && ValidTaskDraw(d)
    requires |zoneLast| == 6 && forall z, id :: 0 <= z < 6 && id in zoneLast[z] ==> FIRST <= id < g.NextId()
    requires |reviewDays| == 6 && |picks| == 6
    modifies g
    ensures lightOff == old(g.NextId()) + LIGHT_OFF
    ensures g.Laid() ==
            ZonesTo(EventsTo(old(g.Laid()), g.months, reviewDays, d, 14), zoneLast, old(g.NextId()), picks, 6)
    ensures g.Valid() && Ranks(g.links, lightOff)
    ensures LinksBack(g.links, lightOff)
  {
    LinksRefer(g);
    lightOff := g.NextId() + LIGHT_OFF;
    Unlinked(g.links, lightOff, |g.tasks|);
    hide RowsOk, EventsTo, PicksTo, ZonesTo, Ranks, AllAscend, LinksBack, EventAt, AvEnd;
    ghost var first := g.NextId();
    var reviews := LayMilestones(g, reviewDays, d);
    LinkZones(g, zoneLast, reviews, picks, lightOff, first);
  }

  method LinkZones(
      g: Generator, zoneLast: seq<seq<nat>>, reviews: seq<nat>, picks: seq<seq<nat>>, lightOff: nat, ghost first: nat)
    requires g.Valid() && Ranks(g.links, lightOff) && FIRST <= first && lightOff == first + LIGHT_OFF
    requires g.NextId() == first + 14
    requires |zoneLast| == 6 && forall z, id :: 0 <= z < 6 && id in zoneLast[z] ==> FIRST <= id < first
    requires |reviews| == 6 && |picks| == 6 && forall z :: 0 <= z < 6 ==> reviews[z] == first + 8 + z
    modifies g
    ensures g.Valid() && Ranks(g.links, lightOff) && LinksBack(g.links, lightOff)
    ensures g.Laid() == ZonesTo(old(g.Laid()), zoneLast, first, picks, 6)
  {
    hide RowsOk, PicksTo, Ranks, LinksBack;
    for z := 0 to 6
      invariant g.Valid() && g.NextId() == first + 14 && Ranks(g.links, lightOff)
      invariant g.Laid() == ZonesTo(old(g.Laid()), zoneLast, first, picks, z)
      invariant z > 0 ==> LinksBack(g.links, lightOff)
    {
      LinkZone(g, zoneLast[z], reviews[z], picks[z], lightOff);
    }
  }

  /** Nothing laid before the key events links to or from light-off. */
  lemma Unlinked(links: seq<Link>, lightOff: nat, n: nat)
    requires AllAscend(links) && forall l :: l in links ==> LinkRefs(l, n)
    requires lightOff >= FIRST + n
    ensures Ranks(links, lightOff)
  {
  }

  method LinkZone(g: Generator, lasts: seq<nat>, review: nat, picks: seq<nat>, lightOff: nat)
    requires g.Valid() && Ranks(g.links, lightOff)
    requires FIRST <= lightOff < review < g.NextId()
    requires forall id :: id in lasts ==> FIRST <= id < lightOff
    modifies g
    ensures g.Valid() && g.NextId() == old(g.NextId()) && Ranks(g.links, lightOff)
    ensures g.Laid() == WithLink(PicksTo(old(g.Laid()), lasts, review, picks, |picks|), review, lightOff, FS, 0)
    ensures LinksBack(g.links, lightOff)
  {
    hide RowsOk;
    for i := 0 to |picks|
      invariant g.Valid() && g.NextId() == old(g.NextId()) && Ranks(g.links, lightOff)
      invariant g.Laid() == PicksTo(old(g.Laid()), lasts, review, picks, i)
    {
      if picks[i] < |lasts| {
        var last := lasts[picks[i]];
        assert last in lasts;
        g.AddLink(last, review, FS, 0);
      }
    }
    ghost var n := |g.links|;
    g.AddLink(review, lightOff, FS, 0);
    assert g.links[n] in g.links && g.links[n].succ == lightOff && !Ascends(g.links[n]);
  }

  /** The whole schedule, for any register and any draws. */
  method Generate(
      months: int, chains: seq<ChainDraw>, services: seq<ChainDraw>, general: seq<ChainDraw>, gap: ChainDraw,
      reviewDays: seq<int>, picks: seq<seq<nat>>, d: TaskDraw)
    returns (g: Generator, lightOff: nat)
    requires months >= 1 && ValidTaskDraw(d) && |reviewDays| == 6 && |picks| == 6
    requires forall c :: c in chains ==> ValidChain(c, months) && c.wbs.System?
    requires forall c :: c in services ==> ValidChain(c, months)
    requires forall c :: c in general ==> ValidChain(c, months)
    requires ValidChain(gap, months)
    ensures fresh(g) && g.months == months && g.Valid() && Ranks(g.links, lightOff)
    ensures (forall c :: c in chains ==> c.wbs.z < 6)
    ensures g.Laid() == Whole(months, chains, services, general, gap, reviewDays, picks, d)
    ensures LinksBack(g.links, lightOff)
  {
    hide RowsOk, ValidChain, ChainsTo, GapTo, EventsTo, ZonesTo;
    g := new Generator(months);
    var zoneLast := LaySpaces(g, chains);
    LayServices(g, services);
    LayServices(g, general);
    LayGap(g, gap);
    lightOff := LayKeyEvents(g, zoneLast, reviewDays, picks, d);
  }

  /** The sections of the schedule, one after another. */
  function Whole(months: int, chains: seq<ChainDraw>, services: seq<ChainDraw>, general: seq<ChainDraw>, gap: ChainDraw,
                 reviewDays: seq<int>, picks: seq<seq<nat>>, d: TaskDraw): State
    requires |reviewDays| == 6 && |picks| == 6 && forall c :: c in chains ==> c.wbs.System? && c.wbs.z < 6
  {
    var empty := State([], [], [], [], 950000);
    var work := ChainsTo(empty, chains, months, |chains|);
    var served := ChainsTo(ChainsTo(work, services, months, |services|), general, months, |general|);
    var gapped := GapTo(served, gap, months, |gap.steps|);
    ZonesTo(EventsTo(gapped, months, reviewDays, d, 14), LastsTo(empty, chains, months, |chains|),
            FIRST + |gapped.tasks|, picks, 6)
  }

  // ----- Acyclicity ---------------------------------------------------------------------------

  ghost predicate IsWalk(links: seq<Link>, walk: seq<Link>) {
    && (forall i :: 0 <= i < |walk| ==> walk[i] in links)
    && (forall i :: 0 <= i < |walk| - 1 ==> walk[i].succ == walk[i + 1].pred)
  }

  lemma {:induction false} WalkClimbs(links: seq<Link>, walk: seq<Link>, lightOff: nat)
    requires Ranks(links, lightOff) && IsWalk(links, walk) && walk != []
    ensures walk[|walk| - 1].succ == lightOff || walk[0].pred < walk[|walk| - 1].succ
  {
    var n := |walk| - 1;
    if n > 0 {
      assert forall i :: 0 <= i < n ==> walk[..n][i] == walk[i];
      WalkClimbs(links, walk[..n], lightOff);
      assert walk[n - 1].succ == walk[n].pred;
    }
  }

  /** The generated network has no cycle. Ids alone do not show it, since every zone
      review links back to the earlier light-off; the rank does. */
  lemma NetworkIsAcyclic(links: seq<Link>, walk: seq<Link>, lightOff: nat)
    requires Ranks(links, lightOff) && IsWalk(links, walk) && walk != []
    ensures walk[|walk| - 1].succ != walk[0].pred
  {
    WalkClimbs(links, walk, lightOff);
  }

  // ----- The generated rows as the validator reads them -----------------------------------------

  function Minute(t: int): int {
    t / MINUTE
  }

  function MinuteOf(t: Option<int>): Option<int> {
    if t.Some? then Some(Minute(t.value)) else None
  }

  function StatusCode(s: Status): string {
    match s
    case NotStart => C.NOT_START
    case Active => C.ACTIVE
    case Complete => C.COMPLETE
  }

  const PROJECT := "4410"

  /** The activity code counts in tens beside the id. */
  function Code(id: nat): string {
    if id < FIRST then "" else "A" + Padded(20 + 10 * (id - FIRST), 5)
  }

  function TaskView(r: TaskRow): C.Task {
    C.Task(Dec(r.id), PROJECT, Dec(WbsId(r.wbs)), "101", Code(r.id),
           if r.milestone then "TT_Mile" else C.TT_TASK, StatusCode(r.status),
           Some(Minute(r.start)), Some(Minute(r.end)), Some(Minute(r.start)), Some(Minute(r.end)),
           MinuteOf(r.actStart), MinuteOf(r.actEnd))
  }

  function AssignView(a: AssignRow): C.Assign {
    C.Assign(Dec(a.task), PROJECT, Dec(a.rsrc), a.target as real, a.earned as real, Max(0, a.target - a.earned) as real)
  }

  function PredView(l: Link): C.Pred {
    C.Pred(Dec(l.succ), Dec(l.pred), if l.kind == FS then C.PR_FS else "PR_SS", l.lag as real)
  }

  function UdfView(u: UdfRow): C.Udf {
    C.Udf(PROJECT, Dec(u.utype), Dec(u.task))
  }

  function WbsView(short: nat -> string): WbsRow -> C.Wbs {
    (w: WbsRow) => C.Wbs(Dec(w.id), if w.parent.Some? then Dec(w.parent.value) else "", short(w.id))
  }

  function TradeId(i: int): string {
    if i >= 0 then Dec(7001 + i) else ""
  }

  /** What the emitted file holds, section by section; `short` names the WBS nodes. */
  function View(
      short: nat -> string, wbs: seq<WbsRow>, tasks: seq<TaskRow>, assigns: seq<AssignRow>, udfs: seq<UdfRow>,
      links: seq<Link>): C.Schedule {
    C.Schedule(
      [PROJECT], Map(WbsView(short), wbs), ["101", "102"], Map(TradeId, seq(10, i requires 0 <= i < 10 => i)),
      ["901", "902", "903"], Map(TaskView, tasks), Map(PredView, links), Map(AssignView, assigns), Map(UdfView, udfs))
  }

  // ----- Every generated schedule passes --------------------------------------------------------

  lemma ViewHasTask(tasks: seq<TaskRow>, id: nat)
    requires forall i :: 0 <= i < |tasks| ==> tasks[i].id == FIRST + i
    requires FIRST <= id < FIRST + |tasks|
    ensures Dec(id) in C.TaskMap(Map(TaskView, tasks))
    ensures C.TaskMap(Map(TaskView, tasks))[Dec(id)] == TaskView(tasks[id - FIRST])
  {
    hide TaskView, Dec, C.TaskMap;
    var views := Map(TaskView, tasks);
    forall i, j | 0 <= i < |views| && 0 <= j < |views| && views[i].id == views[j].id ensures i == j {
      ViewId(tasks, i);
      ViewId(tasks, j);
      DecInjective(FIRST + i, FIRST + j);
    }
    ViewId(tasks, id - FIRST);
    TaskFound(views, id - FIRST);
  }

  lemma ViewId(tasks: seq<TaskRow>, i: nat)
    requires i < |tasks| && tasks[i].id == FIRST + i
    ensures Map(TaskView, tasks)[i].id == Dec(FIRST + i)
  {
  }

  lemma TaskFound(views: seq<C.Task>, k: nat)
    requires k < |views| && forall i, j :: 0 <= i < |views| && 0 <= j < |views| && views[i].id == views[j].id ==> i == j
    ensures views[k].id in C.TaskMap(views) && C.TaskMap(views)[views[k].id] == views[k]
  {
    hide C.TaskMap;
    var t := C.TaskMap(views)[views[k].id];
    var i :| 0 <= i < |views| && views[i] == t;
  }

  lemma TasksPass(r: TaskRow, months: int)
    requires RowOk(r, months)
    ensures C.DatesOk(TaskView(r)) && C.StatusOk(TaskView(r))
  {
    assert Minute(r.start) <= Minute(r.end);
    assert C.NOT_START != C.ACTIVE && C.ACTIVE != C.COMPLETE && C.NOT_START != C.COMPLETE by {
      assert C.ACTIVE[3] == 'A' && C.COMPLETE[3] == 'C' && C.NOT_START[3] == 'N';
    }
    assert C.TT_TASK != "TT_Mile" by { assert C.TT_TASK[3] == 'T' && "TT_Mile"[3] == 'M'; }
  }

  lemma AssignsPass(a: AssignRow, tasks: seq<TaskRow>)
    requires AssignOk(a, tasks)
    ensures C.HoursOk(StatusCode(tasks[a.task - FIRST].status), AssignView(a))
  {
    assert C.NOT_START != C.ACTIVE && C.ACTIVE != C.COMPLETE && C.NOT_START != C.COMPLETE by {
      assert C.ACTIVE[3] == 'A' && C.COMPLETE[3] == 'C' && C.NOT_START[3] == 'N';
    }
    assert a.earned as real + (a.target - a.earned) as real == a.target as real;
  }

  lemma WbsListed(s: C.Schedule, short: nat -> string, wbs: seq<WbsRow>, id: nat)
    requires s.wbs == Map(WbsView(short), wbs) && HasWbs(wbs, id)
    ensures Dec(id) in C.WbsIds(s)
  {
    var i :| 0 <= i < |wbs| && wbs[i].id == id;
    assert C.WbsIds(s)[i] == s.wbs[i].id == Dec(id);
  }

  lemma TradeListed(rsrc: nat)
    requires KnownTrade(rsrc)
    ensures Dec(rsrc) in Map(TradeId, seq(10, i requires 0 <= i < 10 => i))
  {
    var list := seq(10, i requires 0 <= i < 10 => i);
    assert Map(TradeId, list)[rsrc - 7001] == TradeId(list[rsrc - 7001]);
  }

  lemma UdfTypeListed(u: nat)
    requires 901 <= u <= 903
    ensures Dec(u) in ["901", "902", "903"]
  {
    assert Dec(9) == "9";
    assert Dec(90) == "90";
    assert Dec(u) == "90" + [Digit(u % 10)];
    assert Dec(u) == ["901", "902", "903"][u - 901];
  }

  lemma TasksAllPass(s: C.Schedule, short: nat -> string, wbs: seq<WbsRow>, months: int, tasks: seq<TaskRow>)
    requires s.projects == [PROJECT] && s.calendars == ["101", "102"] && s.wbs == Map(WbsView(short), wbs)
    requires s.tasks == Map(TaskView, tasks)
    requires forall k :: KnownWbs(k) ==> HasWbs(wbs, WbsId(k))
    requires forall i :: 0 <= i < |tasks| ==> RowOk(tasks[i], months)
    ensures forall t :: t in s.tasks ==> C.TaskRefs(s, t) && C.DatesOk(t) && C.StatusOk(t)
  {
    hide WbsId, Code, C.DatesOk, C.StatusOk, C.WbsIds, Dec, RowOf, HasWbs;
    forall t | t in s.tasks ensures C.TaskRefs(s, t) && C.DatesOk(t) && C.StatusOk(t) {
      var i :| 0 <= i < |tasks| && t == TaskView(tasks[i]);
      TasksPass(tasks[i], months);
      WbsListed(s, short, wbs, WbsId(tasks[i].wbs));
      assert "101" == s.calendars[0];
    }
  }

  lemma AssignsAllPass(s: C.Schedule, tasks: seq<TaskRow>, assigns: seq<AssignRow>)
    requires s.projects == [PROJECT] && s.resources == Map(TradeId, seq(10, i requires 0 <= i < 10 => i))
    requires s.tasks == Map(TaskView, tasks) && s.assigns == Map(AssignView, assigns)
    requires forall i :: 0 <= i < |tasks| ==> tasks[i].id == FIRST + i
    requires forall a :: a in assigns ==> AssignOk(a, tasks)
    ensures forall a :: a in s.assigns ==> C.AssignRefs(s, a) && C.AssignHoursOk(s, a)
  {
    hide *;
    forall i | 0 <= i < |assigns|
        ensures C.AssignRefs(s, AssignView(assigns[i])) && C.AssignHoursOk(s, AssignView(assigns[i])) {
      assert assigns[i] in assigns;
      AssignPasses(s, tasks, assigns[i]);
    }
  }

  lemma AssignPasses(s: C.Schedule, tasks: seq<TaskRow>, a: AssignRow)
    requires s.projects == [PROJECT] && s.resources == Map(TradeId, seq(10, i requires 0 <= i < 10 => i))
    requires s.tasks == Map(TaskView, tasks) && AssignOk(a, tasks)
    requires forall i :: 0 <= i < |tasks| ==> tasks[i].id == FIRST + i
    ensures C.AssignRefs(s, AssignView(a)) && C.AssignHoursOk(s, AssignView(a))
  {
    ViewHasTask(tasks, a.task);
    assert C.AssignRefs(s, AssignView(a)) by {
      TradeListed(a.rsrc);
      hide C.TaskMap, Dec, TaskView, TradeId;
    }
    assert C.AssignHoursOk(s, AssignView(a)) by {
      AssignsPass(a, tasks);
      ViewStatus(tasks[a.task - FIRST]);
      ViewOf(a);
      hide C.HoursOk, C.TaskMap, Dec, TaskView, StatusCode, AssignView, C.AssignRefs;
    }
  }

  lemma ViewOf(a: AssignRow)
    ensures AssignView(a).task == Dec(a.task)
  {
  }

  lemma ViewStatus(r: TaskRow)
    ensures TaskView(r).status == StatusCode(r.status)
  {
  }

  lemma UdfsAllPass(s: C.Schedule, tasks: seq<TaskRow>, udfs: seq<UdfRow>)
    requires s.projects == [PROJECT] && s.udfTypes == ["901", "902", "903"]
    requires s.tasks == Map(TaskView, tasks) && s.udfs == Map(UdfView, udfs)
    requires forall i :: 0 <= i < |tasks| ==> tasks[i].id == FIRST + i
    requires forall u :: u in udfs ==> UdfOk(u, |tasks|)
    ensures forall u :: u in s.udfs ==> C.UdfRefs(s, u)
  {
    hide C.TaskMap, Dec, TaskView;
    forall u | u in s.udfs ensures C.UdfRefs(s, u) {
      var i :| 0 <= i < |udfs| && u == UdfView(udfs[i]);
      assert udfs[i] in udfs;
      ViewHasTask(tasks, udfs[i].task);
      UdfTypeListed(udfs[i].utype);
    }
  }

  lemma NetAllPasses(s: C.Schedule, short: nat -> string, wbs: seq<WbsRow>, tasks: seq<TaskRow>, links: seq<Link>)
    requires s.wbs == Map(WbsView(short), wbs) && s.tasks == Map(TaskView, tasks) && s.preds == Map(PredView, links)
    requires ParentsIn(wbs) && forall i :: 0 <= i < |tasks| ==> tasks[i].id == FIRST + i
    requires forall l :: l in links ==> LinkRefs(l, |tasks|)
    ensures (forall w :: w in s.wbs ==> C.WbsRefs(s, w)) && (forall p :: p in s.preds ==> C.PredRefs(s, p))
  {
    hide C.TaskMap, C.WbsIds, Dec, TaskView, HasWbs;
    forall w | w in s.wbs ensures C.WbsRefs(s, w) {
      var i :| 0 <= i < |wbs| && w == WbsView(short)(wbs[i]);
      if wbs[i].parent.Some? {
        WbsListed(s, short, wbs, wbs[i].parent.value);
      }
    }
    forall p | p in s.preds ensures C.PredRefs(s, p) {
      var i :| 0 <= i < |links| && p == PredView(links[i]);
      assert links[i] in links;
      ViewHasTask(tasks, links[i].succ);
      ViewHasTask(tasks, links[i].pred);
    }
  }

  /** Every schedule the generator can produce passes the validator's reference, date,
      status and hours checks, whatever was drawn. */
  lemma GeneratedPasses(
      short: nat -> string, wbs: seq<WbsRow>, months: int, tasks: seq<TaskRow>, assigns: seq<AssignRow>,
      udfs: seq<UdfRow>, links: seq<Link>)
    requires RowsOk(months, tasks, assigns, udfs, links)
    requires (forall k :: KnownWbs(k) ==> HasWbs(wbs, WbsId(k))) && ParentsIn(wbs)
    ensures var s := View(short, wbs, tasks, assigns, udfs, links);
            C.RefsResolve(s) && C.HoursAgree(s) && forall t :: t in s.tasks ==> C.DatesOk(t) && C.StatusOk(t)
  {
    var s := View(short, wbs, tasks, assigns, udfs, links);
    TasksAllPass(s, short, wbs, months, tasks);
    AssignsAllPass(s, tasks, assigns);
    UdfsAllPass(s, tasks, udfs);
    NetAllPasses(s, short, wbs, tasks, links);
    hide View, C.TaskRefs, C.AssignRefs, C.UdfRefs, C.PredRefs, C.WbsRefs, C.DatesOk, C.StatusOk, C.AssignHoursOk;
  }
}
