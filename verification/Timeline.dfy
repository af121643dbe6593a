/** What the generated schedule says in days and links, and which of its links the
    validator's logic section accepts. */
module Timeline {
  import opened Sequences
  import opened Numerals
  import opened Generator
  import C = XerCheck

  // ----- Windows and statuses ------------------------------------------------------------------

  /** The availability ends at noon after thirty days a month. */
  lemma AvailabilityEnds(months: int)
    ensures AvEnd(months) == (720 * months + 12) * 3_600_000_000
  {
  }

  /** A task's actuals are its planned dates as far as the data date, the end of the second
      week, has passed them; its status is what they say. */
  lemma StatusedAtDataDate(row: TaskRow, months: int)
    requires RowOk(row, months)
    ensures var now := 14 * 86_400_000_000;
            && row.actEnd == (if row.end <= now then Some(row.end) else None)
            && row.actStart == (if row.start < now || row.end <= now then Some(row.start) else None)
    ensures row.status == Complete <==> row.actEnd.Some?
    ensures row.status == Active <==> row.actStart.Some? && row.actEnd.None?
    ensures row.status == NotStart <==> row.actStart.None?
  {
  }

  /** A first window starts within its phase's wave, waves being given for six months and
      stretched to the availability's, and runs its length unless it would go past the last
      day but one. */
  lemma WaveWindowRuns(w: WaveDraw, dur: int, months: int)
    requires months >= 1 && ValidWave(w, months)
    ensures var (start, end) := WaveWindow(w, dur, months);
            var (day, spread) := match w.phase
              case 0 => (0, 25) case 1 => (14, 45) case 2 => (45, 70) case 3 => (95, 60) case _ => (130, 45);
            && day * months * 14_400_000_000 <= start
            && start <= (day + spread) * months * 14_400_000_000 + 4 * 3_600_000_000
            && end <= AvEnd(months) - 86_400_000_000
            && (end - start == dur || (end - start < dur && end == AvEnd(months) - 86_400_000_000))
  {
    var (day, spread) := Wave(w.phase);
    Stretch(day, spread, months);
  }

  lemma Stretch(day: int, spread: int, months: int)
    requires day >= 0 && spread >= 0 && months >= 1
    ensures Stretched(day, months) == day * months * 14_400_000_000
    ensures 0 <= Stretched(spread, months)
    ensures Stretched(day, months) + Stretched(spread, months) == (day + spread) * months * 14_400_000_000
  {
    assert spread * months >= 0;
    assert day * months + spread * months == (day + spread) * months;
  }

  /** A later window follows the one before by its gap and runs its length when it ends within
      the availability. Otherwise it ends a day before that does, and starts as it would
      have if that leaves it a day, else a day before its end. */
  lemma NextWindowRuns(cursor: int, gap: int, dur: int, months: int)
    ensures var (start, end) := NextWindow(cursor, gap, dur, months);
            if cursor + gap + dur < AvEnd(months) then start == cursor + gap && end - start == dur
            else
              && end == AvEnd(months) - 86_400_000_000
              && if end - (cursor + gap) >= 86_400_000_000 then start == cursor + gap
                 else end - start == 86_400_000_000
  {
  }

  // ----- Key events ---------------------------------------------------------------------------

  /** The key events fall in their order exactly when the availability has half a year. */
  lemma EventsInOrderIff(months: int)
    ensures (forall i, j :: 0 <= i < j < 8 ==> EventAt(i, months) < EventAt(j, months)) <==> months >= 6
  {
    if months < 6 {
      assert EventAt(3, months) >= EventAt(4, months);
    }
  }

  /** Reviews every forty-five days from the start; light-off, certification and cruise four
      weeks, two weeks and five days before the end. */
  lemma EventsFall(months: int)
    ensures var day, end := 86_400_000_000, AvEnd(months);
            && EventAt(0, months) == 0 && EventAt(7, months) == end
            && (forall i :: 0 <= i < 3 ==> EventAt(i + 1, months) - EventAt(i, months) == 45 * day)
            && end - EventAt(4, months) == 28 * day && end - EventAt(5, months) == 14 * day
            && end - EventAt(6, months) == 5 * day
  {
  }

  /** The `j`-th of the fourteen rows from `first` on: a fixed event, or a zone's review so
      many days before the end. */
  predicate IsEvent(tasks: seq<TaskRow>, first: nat, months: int, reviewDays: seq<int>, j: nat)
    requires first + j < |tasks| && j < 14 && |reviewDays| == 6
  {
    var row := tasks[first + j];
    row.milestone && row.start == row.end == EventInstant(months, reviewDays, j)
  }

  /** The key events are milestones: an instant each, no hours, no links. */
  lemma {:induction false} EventTasks(st: State, months: int, reviewDays: seq<int>, d: TaskDraw, i: nat)
    requires i <= 14 && |reviewDays| == 6
    ensures var out := EventsTo(st, months, reviewDays, d, i);
            && |out.tasks| == |st.tasks| + i && out.links == st.links && out.assigns == st.assigns
            && out.tasks[..|st.tasks|] == st.tasks
            && forall j :: 0 <= j < i ==> IsEvent(out.tasks, |st.tasks|, months, reviewDays, j)
  {
    hide EventsTo, WithMilestone, EventAt, AvEnd, IsEvent, EventInstant;
    EventsUnfold(st, months, reviewDays, d, i);
    if i > 0 {
      var before, out := EventsTo(st, months, reviewDays, d, i - 1), EventsTo(st, months, reviewDays, d, i);
      EventTasks(st, months, reviewDays, d, i - 1);
      OneEvent(before, EventInstant(months, reviewDays, i - 1), d);
      EventIs(out.tasks, |st.tasks|, months, reviewDays, i - 1);
      forall j | 0 <= j < i - 1 ensures IsEvent(out.tasks, |st.tasks|, months, reviewDays, j) {
        assert out.tasks[|st.tasks| + j] == out.tasks[..|before.tasks|][|st.tasks| + j];
        EventStill(before.tasks, out.tasks, |st.tasks|, months, reviewDays, j);
      }
    }
  }

  function EventInstant(months: int, reviewDays: seq<int>, j: nat): int
    requires j < 14 && |reviewDays| == 6
  {
    if j < 8 then EventAt(j, months) else AvEnd(months) - reviewDays[j - 8] * 86_400_000_000
  }

  lemma EventsUnfold(st: State, months: int, reviewDays: seq<int>, d: TaskDraw, i: nat)
    requires i <= 14 && |reviewDays| == 6
    ensures EventsTo(st, months, reviewDays, d, 0) == st
    ensures i > 0 ==>
              EventsTo(st, months, reviewDays, d, i) ==
              WithMilestone(EventsTo(st, months, reviewDays, d, i - 1), EventInstant(months, reviewDays, i - 1), d)
  {
    hide WithMilestone, EventAt, AvEnd;
  }

  lemma EventIs(tasks: seq<TaskRow>, first: nat, months: int, reviewDays: seq<int>, j: nat)
    requires first + j < |tasks| && j < 14 && |reviewDays| == 6
    requires var row := tasks[first + j];
             row.milestone && row.start == row.end == EventInstant(months, reviewDays, j)
    ensures IsEvent(tasks, first, months, reviewDays, j)
  {
  }

  lemma EventStill(
      before: seq<TaskRow>, tasks: seq<TaskRow>, first: nat, months: int, reviewDays: seq<int>, j: nat)
    requires first + j < |before| && first + j < |tasks| && tasks[first + j] == before[first + j]
    requires j < 14 && |reviewDays| == 6 && IsEvent(before, first, months, reviewDays, j)
    ensures IsEvent(tasks, first, months, reviewDays, j)
  {
  }

  lemma OneEvent(st: State, at: int, d: TaskDraw)
    ensures var out := WithMilestone(st, at, d);
            && out.links == st.links && out.assigns == st.assigns && |out.tasks| == |st.tasks| + 1
            && out.tasks[..|st.tasks|] == st.tasks
            && out.tasks[|st.tasks|].milestone && out.tasks[|st.tasks|].start == out.tasks[|st.tasks|].end == at
  {
  }

  // ----- Links of the key events ---------------------------------------------------------------

  /** The link from `pred` to `succ` that holds the start to the finish with no lag. */
  predicate Plain(l: Link, pred: nat, succ: nat) {
    l.pred == pred && l.succ == succ && l.kind == FS && l.lag == 0
  }

  ghost predicate HasLink(links: seq<Link>, pred: nat, succ: nat) {
    exists l :: l in links && Plain(l, pred, succ)
  }

  ghost predicate IsPick(l: Link, lasts: seq<nat>, picks: seq<nat>, review: nat) {
    exists k :: 0 <= k < |picks| && picks[k] < |lasts| && Plain(l, lasts[picks[k]], review)
  }

  /** Each pick of a zone's last tasks is linked to the zone's review and nothing else is. */
  lemma {:induction false} PicksLinked(st: State, lasts: seq<nat>, review: nat, picks: seq<nat>, i: nat)
    requires i <= |picks|
    ensures var out := PicksTo(st, lasts, review, picks, i);
            && out.tasks == st.tasks && st.links <= out.links
            && (forall a, b :: HasLink(st.links, a, b) ==> HasLink(out.links, a, b))
            && (forall k :: 0 <= k < i && picks[k] < |lasts| ==> HasLink(out.links, lasts[picks[k]], review))
            && (forall m :: |st.links| <= m < |out.links| ==> IsPick(out.links[m], lasts, picks, review))
  {
    if i > 0 {
      var before, out := PicksTo(st, lasts, review, picks, i - 1), PicksTo(st, lasts, review, picks, i);
      PicksLinked(st, lasts, review, picks, i - 1);
      var p := picks[i - 1];
      assert out == if p < |lasts| then WithLink(before, lasts[p], review, FS, 0) else before;
      hide PicksTo;
      if p < |lasts| {
        OneLinked(before, lasts[p], review, out);
        hide HasLink, WithLink;
        assert IsPick(out.links[|before.links|], lasts, picks, review);
        hide IsPick, Plain;
      }
    }
  }

  lemma OneLinked(before: State, pred: nat, succ: nat, out: State)
    requires out == WithLink(before, pred, succ, FS, 0)
    ensures out.tasks == before.tasks && before.links <= out.links && |out.links| == |before.links| + 1
    ensures Plain(out.links[|before.links|], pred, succ) && HasLink(out.links, pred, succ)
    ensures forall a, b :: HasLink(before.links, a, b) ==> HasLink(out.links, a, b)
  {
    assert out.links[|before.links|] in out.links;
    forall a, b | HasLink(before.links, a, b) ensures HasLink(out.links, a, b) {
      var l :| l in before.links && Plain(l, a, b);
      assert l in out.links;
    }
  }

  /** What a link among those of the first `z` zones may be: a pick to its zone's review, or a
      review to light-off. */
  ghost predicate OfZone(l: Link, zoneLast: seq<seq<nat>>, first: nat, picks: seq<seq<nat>>, z: nat)
    requires z <= |zoneLast| && z <= |picks|
  {
    exists y :: 0 <= y < z && (IsPick(l, zoneLast[y], picks[y], first + 8 + y) || Plain(l, first + 8 + y, first + 4))
  }

  /** A zone's picks are linked to its review and its review to light-off. */
  ghost predicate ZoneLinked(links: seq<Link>, lasts: seq<nat>, picks: seq<nat>, review: nat, lightOff: nat) {
    && HasLink(links, review, lightOff)
    && forall k :: 0 <= k < |picks| && picks[k] < |lasts| ==> HasLink(links, lasts[picks[k]], review)
  }

  lemma OneZone(before: State, lasts: seq<nat>, picks: seq<nat>, review: nat, lightOff: nat)
    ensures var out := WithLink(PicksTo(before, lasts, review, picks, |picks|), review, lightOff, FS, 0);
            && out.tasks == before.tasks && before.links <= out.links
            && (forall a, b :: HasLink(before.links, a, b) ==> HasLink(out.links, a, b))
            && ZoneLinked(out.links, lasts, picks, review, lightOff)
            && (forall m :: |before.links| <= m < |out.links| ==>
                  IsPick(out.links[m], lasts, picks, review) || Plain(out.links[m], review, lightOff))
  {
    var picked := PicksTo(before, lasts, review, picks, |picks|);
    PicksLinked(before, lasts, review, picks, |picks|);
    OneLinked(picked, review, lightOff, WithLink(picked, review, lightOff, FS, 0));
    hide PicksTo, HasLink, WithLink, IsPick, Plain;
  }

  lemma StillLinked(
      links: seq<Link>, more: seq<Link>, lasts: seq<nat>, picks: seq<nat>, review: nat, lightOff: nat)
    requires ZoneLinked(links, lasts, picks, review, lightOff)
    requires forall a, b :: HasLink(links, a, b) ==> HasLink(more, a, b)
    ensures ZoneLinked(more, lasts, picks, review, lightOff)
  {
    hide HasLink;
  }

  /** What the first `z` zones add to the links: theirs, and no others. */
  ghost predicate ZonesAdd(
      base: seq<Link>, links: seq<Link>, zoneLast: seq<seq<nat>>, first: nat, picks: seq<seq<nat>>, z: nat)
    requires z <= |zoneLast| && z <= |picks|
  {
    && base <= links
    && (forall y :: 0 <= y < z ==> ZoneLinked(links, zoneLast[y], picks[y], first + 8 + y, first + 4))
    && (forall m :: |base| <= m < |links| ==> OfZone(links[m], zoneLast, first, picks, z))
  }

  lemma OneZoneMore(
      base: seq<Link>, before: seq<Link>, links: seq<Link>, zoneLast: seq<seq<nat>>, first: nat, picks: seq<seq<nat>>,
      z: nat)
    requires z < |zoneLast| && z < |picks| && ZonesAdd(base, before, zoneLast, first, picks, z) && before <= links
    requires forall a, b :: HasLink(before, a, b) ==> HasLink(links, a, b)
    requires ZoneLinked(links, zoneLast[z], picks[z], first + 8 + z, first + 4)
    requires forall m :: |before| <= m < |links| ==>
               IsPick(links[m], zoneLast[z], picks[z], first + 8 + z) || Plain(links[m], first + 8 + z, first + 4)
    ensures ZonesAdd(base, links, zoneLast, first, picks, z + 1)
  {
    hide HasLink, ZoneLinked, IsPick, Plain;
    forall y | 0 <= y < z ensures ZoneLinked(links, zoneLast[y], picks[y], first + 8 + y, first + 4) {
      StillLinked(before, links, zoneLast[y], picks[y], first + 8 + y, first + 4);
    }
    forall m | |base| <= m < |links| ensures OfZone(links[m], zoneLast, first, picks, z + 1) {
      if m < |before| {
        assert links[m] == before[m] && OfZone(before[m], zoneLast, first, picks, z);
        OfMoreZones(links[m], zoneLast, first, picks, z);
      }
    }
  }

  lemma OfMoreZones(l: Link, zoneLast: seq<seq<nat>>, first: nat, picks: seq<seq<nat>>, z: nat)
    requires z < |zoneLast| && z < |picks| && OfZone(l, zoneLast, first, picks, z)
    ensures OfZone(l, zoneLast, first, picks, z + 1)
  {
    hide IsPick, Plain;
    var y :| 0 <= y < z && (IsPick(l, zoneLast[y], picks[y], first + 8 + y) || Plain(l, first + 8 + y, first + 4));
    assert 0 <= y < z + 1;
  }

  /** The key events' links, the events being numbered from `first`: every zone's review is
      linked from the tasks picked for it and to light-off, the fifth event, and no other
      link is added. */
  lemma {:induction false} ZonesLinked(st: State, zoneLast: seq<seq<nat>>, first: nat, picks: seq<seq<nat>>, z: nat)
    requires z <= 6 && |zoneLast| == 6 && |picks| == 6
    ensures var out := ZonesTo(st, zoneLast, first, picks, z);
            out.tasks == st.tasks && ZonesAdd(st.links, out.links, zoneLast, first, picks, z)
  {
    hide *;
    ZonesUnfold(st, zoneLast, first, picks, z);
    if z > 0 {
      var before, y := ZonesTo(st, zoneLast, first, picks, z - 1), z - 1;
      ZonesLinked(st, zoneLast, first, picks, y);
      OneZone(before, zoneLast[y], picks[y], first + 8 + y, first + 4);
      OneZoneMore(st.links, before.links, ZonesTo(st, zoneLast, first, picks, z).links, zoneLast, first, picks, y);
    }
  }

  lemma ZonesUnfold(st: State, zoneLast: seq<seq<nat>>, first: nat, picks: seq<seq<nat>>, z: nat)
    requires z <= 6 && |zoneLast| == 6 && |picks| == 6
    ensures z == 0 ==>
              ZonesTo(st, zoneLast, first, picks, z) == st && ZonesAdd(st.links, st.links, zoneLast, first, picks, 0)
    ensures z > 0 ==>
              var before, y := ZonesTo(st, zoneLast, first, picks, z - 1), z - 1;
              ZonesTo(st, zoneLast, first, picks, z) ==
              WithLink(PicksTo(before, zoneLast[y], first + 8 + y, picks[y], |picks[y]|),
                       first + 8 + y, first + 4, FS, 0)
  {
    hide PicksTo, WithLink, ZoneLinked, OfZone;
  }

  // ----- Chains, gaps and what is remembered of them ---------------------------------------------

  function StepsOf(): ChainDraw -> int {
    (c: ChainDraw) => |c.steps|
  }

  lemma {:induction false} ChainsLength(st: State, chains: seq<ChainDraw>, months: int, i: nat)
    requires i <= |chains|
    ensures |ChainsTo(st, chains, months, i).tasks| == |st.tasks| + Sum(StepsOf(), chains[..i])
  {
    hide ChainTo;
    if i > 0 {
      ChainsLength(st, chains, months, i - 1);
      ChainLength(ChainsTo(st, chains, months, i - 1), chains[i - 1], months, |chains[i - 1].steps|);
      hide Sum;
      assert chains[..i] == chains[..i - 1] + [chains[i - 1]];
      SumAppend(StepsOf(), chains[..i - 1], [chains[i - 1]]);
      SumOne(StepsOf(), chains[i - 1]);
    }
  }

  lemma SumOne<T>(weight: T -> int, x: T)
    ensures Sum(weight, [x]) == weight(x)
  {
    assert [x][1..] == [];
  }

  /** The id of the last task of the `j`-th chain laid after `before` tasks. */
  function LastOf(before: nat, chains: seq<ChainDraw>, j: nat): int
    requires j < |chains|
  {
    900_000 + before + Sum(StepsOf(), chains[..j + 1])
  }

  /** Under each zone are remembered the last tasks of that zone's chains, and no others. */
  lemma {:induction false} LastsAre(st: State, chains: seq<ChainDraw>, months: int, i: nat, z: nat, id: nat)
    requires i <= |chains| && z < 6 && forall c :: c in chains ==> c.wbs.System? && c.wbs.z < 6 && c.steps != []
    ensures id in LastsTo(st, chains, months, i)[z] <==>
              exists j :: 0 <= j < i && chains[j].wbs.z == z && id == LastOf(|st.tasks|, chains, j)
  {
    hide LastOf, Sum, ChainsTo;
    if i > 0 {
      LastsAre(st, chains, months, i - 1, z, id);
      ChainsLength(st, chains, months, i);
      LastIs(|st.tasks|, chains, i - 1);
    }
  }

  lemma LastIs(before: nat, chains: seq<ChainDraw>, j: nat)
    requires j < |chains| && forall c :: c in chains ==> c.steps != []
    ensures LastOf(before, chains, j) == FIRST + before + Sum(StepsOf(), chains[..j + 1]) - 1
    ensures Sum(StepsOf(), chains[..j + 1]) > 0
  {
    SumPositive(chains[..j + 1]);
  }

  lemma {:induction false} SumPositive(chains: seq<ChainDraw>)
    requires chains != [] && forall c :: c in chains ==> c.steps != []
    ensures Sum(StepsOf(), chains) > 0
  {
    if |chains| > 1 {
      SumPositive(chains[1..]);
    } else {
      assert chains[1..] == [];
    }
  }

  /** The crosswalk-gap tasks: each in the window of its own wave, and each linked from the one
      before. */
  lemma {:induction false} GapTasks(st: State, c: ChainDraw, months: int, i: nat)
    requires i <= |c.steps|
    ensures var out := GapTo(st, c, months, i);
            && |out.tasks| == |st.tasks| + i && out.tasks[..|st.tasks|] == st.tasks
            && |out.links| == |st.links| + (if i == 0 then 0 else i - 1) && out.links[..|st.links|] == st.links
            && (forall j :: 0 <= j < i ==> GapTask(out.tasks, |st.tasks|, c, months, j))
            && (forall j :: 1 <= j < i ==> GapLink(out.links, |st.links|, |st.tasks|, j))
  {
    hide GapTo, GapStepTo, GapTask, GapLink, Plain;
    GapUnfold(st, c, months, i);
    if i > 0 {
      var before, out := GapTo(st, c, months, i - 1), GapTo(st, c, months, i);
      GapTasks(st, c, months, i - 1);
      OneGap(before, c, months, i);
      forall j | 0 <= j < i - 1 ensures GapTask(out.tasks, |st.tasks|, c, months, j) {
        assert out.tasks[|st.tasks| + j] == out.tasks[..|before.tasks|][|st.tasks| + j];
        GapTaskStill(before.tasks, out.tasks, |st.tasks|, c, months, j);
      }
      forall j | 1 <= j < i - 1 ensures GapLink(out.links, |st.links|, |st.tasks|, j) {
        assert out.links[|st.links| + j - 1] == out.links[..|before.links|][|st.links| + j - 1];
        GapLinkStill(before.links, out.links, |st.links|, |st.tasks|, j);
      }
      if i > 1 {
        GapLinkIs(out.links, |st.links|, |st.tasks|, i - 1);
      }
      GapKeeps(st, before, out);
    }
  }

  lemma GapKeeps(st: State, before: State, out: State)
    requires |st.tasks| <= |before.tasks| <= |out.tasks| && |st.links| <= |before.links| <= |out.links|
    requires before.tasks[..|st.tasks|] == st.tasks && out.tasks[..|before.tasks|] == before.tasks
    requires before.links[..|st.links|] == st.links && out.links[..|before.links|] == before.links
    ensures out.tasks[..|st.tasks|] == st.tasks && out.links[..|st.links|] == st.links
  {
    assert out.tasks[..|before.tasks|][..|st.tasks|] == out.tasks[..|st.tasks|];
    assert out.links[..|before.links|][..|st.links|] == out.links[..|st.links|];
  }

  lemma GapUnfold(st: State, c: ChainDraw, months: int, i: nat)
    requires i <= |c.steps|
    ensures GapTo(st, c, months, 0) == st
    ensures i > 0 ==> GapTo(st, c, months, i) == GapStepTo(GapTo(st, c, months, i - 1), c, months, i)
    ensures st.tasks[..|st.tasks|] == st.tasks && st.links[..|st.links|] == st.links
  {
    hide GapStepTo;
  }

  lemma GapTaskStill(before: seq<TaskRow>, tasks: seq<TaskRow>, first: nat, c: ChainDraw, months: int, j: nat)
    requires first + j < |before| && first + j < |tasks| && tasks[first + j] == before[first + j]
    requires j < |c.steps| && GapTask(before, first, c, months, j)
    ensures GapTask(tasks, first, c, months, j)
  {
  }

  lemma GapLinkStill(before: seq<Link>, links: seq<Link>, n: nat, first: nat, j: nat)
    requires 1 <= j && n + j - 1 < |before| && n + j - 1 < |links| && links[n + j - 1] == before[n + j - 1]
    requires GapLink(before, n, first, j)
    ensures GapLink(links, n, first, j)
  {
  }

  lemma GapLinkIs(links: seq<Link>, n: nat, first: nat, j: nat)
    requires 1 <= j && n + j - 1 < |links| && Plain(links[n + j - 1], 900_000 + first + j, 900_001 + first + j)
    ensures GapLink(links, n, first, j)
  {
  }

  predicate GapTask(tasks: seq<TaskRow>, first: nat, c: ChainDraw, months: int, j: nat)
    requires first + j < |tasks| && j < |c.steps|
  {
    var w := WaveWindow(c.steps[j].wave, c.steps[j].dur, months);
    && tasks[first + j].start == w.0 && tasks[first + j].end == w.1
    && tasks[first + j].wbs == c.wbs && !tasks[first + j].milestone
  }

  predicate GapLink(links: seq<Link>, before: nat, first: nat, j: nat)
    requires 1 <= j && before + j - 1 < |links|
  {
    Plain(links[before + j - 1], 900_000 + first + j, 900_001 + first + j)
  }

  lemma OneGap(before: State, c: ChainDraw, months: int, i: nat)
    requires 1 <= i <= |c.steps| && |before.tasks| >= i - 1
    ensures var out, n := GapStepTo(before, c, months, i), |before.tasks|;
            && |out.tasks| == n + 1 && out.tasks[..n] == before.tasks && GapTask(out.tasks, n + 1 - i, c, months, i - 1)
            && (i == 1 ==> out.links == before.links)
            && (i > 1 ==> |out.links| == |before.links| + 1 && out.links[..|before.links|] == before.links
                          && Plain(out.links[|before.links|], FIRST + n - 1, FIRST + n))
  {
    hide WaveWindow;
  }

  // ----- User fields -----------------------------------------------------------------------------

  /** A task's user fields: a location if it has one, a work item if it has one, and a work
      type unless it is a milestone; all its own. */
  lemma UserFields(row: TaskRow, compartment: bool, wi: bool, u: UdfRow)
    ensures u in TaskUdfs(row, compartment, wi) <==>
              && u.task == row.id
              && ((u.utype == 901 && compartment) || (u.utype == 902 && wi) || (u.utype == 903 && !row.milestone))
  {
  }

  // ----- What the logic section makes of it ------------------------------------------------------

  /** In whole minutes, the successor starts no sooner than the lag after the finish. */
  predicate Met(tasks: seq<TaskRow>, l: Link)
    requires LinkRefs(l, |tasks|)
  {
    tasks[l.succ - FIRST].start / 60_000_000 - tasks[l.pred - FIRST].end / 60_000_000 >= 60 * l.lag
  }

  /** A generated schedule passes the logic section exactly when every finish-to-start link is
      met to the minute: none is excused, and the tolerance forgives nothing. */
  lemma GeneratedLogicIff(
      short: nat -> string, wbs: seq<WbsRow>, months: int, tasks: seq<TaskRow>, assigns: seq<AssignRow>,
      udfs: seq<UdfRow>, links: seq<Link>)
    requires RowsOk(months, tasks, assigns, udfs, links)
    ensures C.LogicHolds(View(short, wbs, tasks, assigns, udfs, links)) <==>
              forall l :: l in links && l.kind == FS ==> Met(tasks, l)
  {
    var s := View(short, wbs, tasks, assigns, udfs, links);
    assert s.tasks == Map(TaskView, tasks) && s.preds == Map(PredView, links);
    forall l | l in links ensures LinkSays(s, PredView(l)) <==> (l.kind == FS ==> Met(tasks, l)) {
      assert LinkRefs(l, |tasks|);
      LinkSaysIff(s, tasks, l);
    }
    hide View, TaskView, PredView, RowsOk, Met;
    if C.LogicHolds(s) {
      forall l | l in links ensures LinkSays(s, PredView(l)) {
        var i :| 0 <= i < |links| && links[i] == l;
        assert s.preds[i] == PredView(l);
      }
    }
    if forall l :: l in links && l.kind == FS ==> Met(tasks, l) {
      forall p | p in s.preds ensures LinkSays(s, p) {
        var i :| 0 <= i < |s.preds| && s.preds[i] == p;
        assert links[i] in links && p == PredView(links[i]);
      }
    }
  }

  ghost predicate LinkSays(s: C.Schedule, p: C.Pred) {
    C.IsFs(p) && C.PredRefs(s, p) ==> C.LinkOk(C.TaskMap(s.tasks)[p.pred], C.TaskMap(s.tasks)[p.task], p.lag)
  }

  lemma LinkSaysIff(s: C.Schedule, tasks: seq<TaskRow>, l: Link)
    requires s.tasks == Map(TaskView, tasks) && forall i :: 0 <= i < |tasks| ==> tasks[i].id == FIRST + i
    requires LinkRefs(l, |tasks|)
    ensures LinkSays(s, PredView(l)) <==> (l.kind == FS ==> Met(tasks, l))
  {
    hide C.TaskMap, TaskView, Dec, C.LinkOk;
    ViewHasTask(tasks, l.pred);
    ViewHasTask(tasks, l.succ);
    assert l.kind == FS <==> C.IsFs(PredView(l));
    LinkOkIff(tasks[l.pred - FIRST], tasks[l.succ - FIRST], l.lag);
  }

  lemma LinkOkIff(pred: TaskRow, succ: TaskRow, lag: int)
    requires pred.id >= FIRST && succ.id >= FIRST
    ensures C.LinkOk(TaskView(pred), TaskView(succ), lag as real) <==>
              succ.start / 60_000_000 - pred.end / 60_000_000 >= 60 * lag
  {
    CodeLength(pred.id);
    hide Code, Dec, WbsId, StatusCode;
    var gap := succ.start / 60_000_000 - pred.end / 60_000_000;
    assert TaskView(succ).earlyStart.value - TaskView(pred).earlyEnd.value == gap;
    assert |C.INVERSION.0| == 5;
  }

  lemma CodeLength(id: nat)
    requires id >= FIRST
    ensures |Code(id)| >= 6
  {
    PaddedIs(20 + 10 * (id - FIRST), 5);
    hide Padded;
  }

  /** Light-off being linked from every review, no generated schedule passes the logic section
      whose reviews do not all fall at least four weeks before the end. */
  lemma LogicNeedsEarlyReviews(
      short: nat -> string, wbs: seq<WbsRow>, months: int, chains: seq<ChainDraw>, services: seq<ChainDraw>,
      general: seq<ChainDraw>, gap: ChainDraw, reviewDays: seq<int>, picks: seq<seq<nat>>, d: TaskDraw, z: nat)
    requires |reviewDays| == 6 && |picks| == 6 && forall c :: c in chains ==> c.wbs.System? && c.wbs.z < 6
    requires var st := Whole(months, chains, services, general, gap, reviewDays, picks, d);
             && RowsOk(months, st.tasks, st.assigns, st.udfs, st.links)
             && C.LogicHolds(View(short, wbs, st.tasks, st.assigns, st.udfs, st.links))
    requires z < 6
    ensures reviewDays[z] >= 28
  {
    var st := Whole(months, chains, services, general, gap, reviewDays, picks, d);
    GeneratedLogicIff(short, wbs, months, st.tasks, st.assigns, st.udfs, st.links);
    var empty := State([], [], [], [], 950000);
    var work := ChainsTo(empty, chains, months, |chains|);
    var served := ChainsTo(ChainsTo(work, services, months, |services|), general, months, |general|);
    var gapped := GapTo(served, gap, months, |gap.steps|);
    var events := EventsTo(gapped, months, reviewDays, d, 14);
    var zoneLast := LastsTo(empty, chains, months, |chains|);
    var first := FIRST + |gapped.tasks|;
    assert st == ZonesTo(events, zoneLast, first, picks, 6);
    hide *;
    EventTasks(gapped, months, reviewDays, d, 14);
    ZonesLinked(events, zoneLast, first, picks, 6);
    ReviewIsEarly(st, events.links, zoneLast, |gapped.tasks|, months, reviewDays, picks, z);
  }

  lemma ReviewIsEarly(
      st: State, base: seq<Link>, zoneLast: seq<seq<nat>>, n: nat, months: int, reviewDays: seq<int>,
      picks: seq<seq<nat>>, z: nat)
    requires |reviewDays| == 6 && |picks| == 6 && |zoneLast| == 6 && z < 6 && |st.tasks| == n + 14
    requires forall j :: 0 <= j < 14 ==> IsEvent(st.tasks, n, months, reviewDays, j)
    requires ZonesAdd(base, st.links, zoneLast, 900_001 + n, picks, 6)
    requires forall l :: l in st.links ==> LinkRefs(l, |st.tasks|)
    requires forall l :: l in st.links && l.kind == FS ==> Met(st.tasks, l)
    ensures reviewDays[z] >= 28
  {
    assert ZoneLinked(st.links, zoneLast[z], picks[z], 900_001 + n + 8 + z, 900_001 + n + 4);
    hide ZonesAdd;
    assert HasLink(st.links, 900_001 + n + 8 + z, 900_001 + n + 4);
    var l :| l in st.links && Plain(l, 900_001 + n + 8 + z, 900_001 + n + 4);
    assert IsEvent(st.tasks, n, months, reviewDays, 4) && IsEvent(st.tasks, n, months, reviewDays, 8 + z);
    assert Met(st.tasks, l);
    hide IsPick, ZoneLinked, HasLink;
  }

  // ----- Hours over the whole run ------------------------------------------------------------------

  function OfTask(id: nat): AssignRow -> bool {
    (a: AssignRow) => a.task == id
  }

  /** A milestone has no hours; a work task those of a crew of one to four over its days. */
  ghost predicate TaskManned(assigns: seq<AssignRow>, row: TaskRow) {
    if row.milestone then Filter(OfTask(row.id), assigns) == []
    else
      var hours := Targets(Filter(OfTask(row.id), assigns));
      exists crew: nat :: 1 <= crew <= 4 && HoursDrawn(hours, row.start, row.end, crew)
  }

  ghost predicate Manned(st: State) {
    && (forall i :: 0 <= i < |st.tasks| ==> st.tasks[i].id == FIRST + i && TaskManned(st.assigns, st.tasks[i]))
    && (forall a :: a in st.assigns ==> FIRST <= a.task < FIRST + |st.tasks|)
  }

  lemma {:induction false} FilterNone<T(!new)>(keep: T -> bool, s: seq<T>)
    requires forall x :: x in s ==> !keep(x)
    ensures Filter(keep, s) == []
  {
    if Filter(keep, s) != [] {
      assert Filter(keep, s)[0] in Filter(keep, s);
    }
  }

  lemma {:induction false} FilterAll<T(!new)>(keep: T -> bool, s: seq<T>)
    requires forall x :: x in s ==> keep(x)
    ensures Filter(keep, s) == s
  {
    if s != [] {
      FilterAll(keep, s[1..]);
    }
  }

  lemma OwnHours(row: TaskRow, trade: nat, second: Option<nat>, d: TaskDraw)
    ensures forall a :: a in TaskAssigns(row, trade, second, d) ==> a.task == row.id
    ensures row.milestone ==> TaskAssigns(row, trade, second, d) == []
  {
    hide Budget, Earned;
  }

  lemma OthersManned(assigns: seq<AssignRow>, own: seq<AssignRow>, row: TaskRow, other: TaskRow)
    requires TaskManned(assigns, other) && other.id != row.id && forall a :: a in own ==> a.task == row.id
    ensures TaskManned(assigns + own, other)
  {
    FilterAppend(OfTask(other.id), assigns, own);
    FilterNone(OfTask(other.id), own);
    hide HoursDrawn, Targets, Filter;
    assert Filter(OfTask(other.id), assigns + own) == Filter(OfTask(other.id), assigns);
  }

  lemma NewManned(assigns: seq<AssignRow>, own: seq<AssignRow>, row: TaskRow, crew: nat)
    requires (forall a :: a in assigns ==> a.task != row.id) && (forall a :: a in own ==> a.task == row.id)
    requires if row.milestone then own == [] else 1 <= crew <= 4 && HoursDrawn(Targets(own), row.start, row.end, crew)
    ensures TaskManned(assigns + own, row)
  {
    FilterAppend(OfTask(row.id), assigns, own);
    FilterNone(OfTask(row.id), assigns);
    FilterAll(OfTask(row.id), own);
    hide HoursDrawn, Targets, Filter;
    assert Filter(OfTask(row.id), assigns + own) == own;
  }

  /** A task more is manned, and so are the others still. */
  lemma TaskKeepsManned(
      st: State, wbs: WbsKey, trade: nat, start: int, end: int, milestone: bool, compartment: bool, wi: bool,
      second: Option<nat>, d: TaskDraw)
    requires Manned(st) && ValidTaskDraw(d)
    ensures Manned(WithTask(st, wbs, trade, start, end, milestone, compartment, wi, second, d))
  {
    var row := RowOf(FIRST + |st.tasks|, wbs, milestone, start, end);
    var own := TaskAssigns(row, trade, second, d);
    RowIs(FIRST + |st.tasks|, wbs, milestone, start, end);
    OwnHours(row, trade, second, d);
    if !milestone {
      HoursWithin(row, trade, second, d);
    }
    hide RowOf, TaskAssigns, HoursDrawn, Targets, TaskManned, TaskUdfs;
    NewManned(st.assigns, own, row, d.crew);
    forall i | 0 <= i < |st.tasks| ensures TaskManned(st.assigns + own, st.tasks[i]) {
      OthersManned(st.assigns, own, row, st.tasks[i]);
    }
  }

  lemma LinkKeepsManned(st: State, pred: nat, succ: nat, kind: Kind, lag: int)
    requires Manned(st)
    ensures Manned(WithLink(st, pred, succ, kind, lag))
  {
    hide TaskManned;
  }

  lemma {:induction false} ChainKeepsManned(st: State, c: ChainDraw, months: int, i: nat)
    requires Manned(st) && i <= |c.steps| && forall d :: d in c.steps ==> ValidTaskDraw(d.task)
    ensures Manned(ChainTo(st, c, months, i))
  {
    hide *;
    ChainUnfold(st, c, months, i);
    if i > 0 {
      ChainKeepsManned(st, c, months, i - 1);
      OneStepManned(ChainTo(st, c, months, i - 1), c, months, i);
    }
  }

  lemma ChainUnfold(st: State, c: ChainDraw, months: int, i: nat)
    requires i <= |c.steps|
    ensures ChainTo(st, c, months, 0) == st
    ensures i > 0 ==> ChainTo(st, c, months, i) == StepTo(ChainTo(st, c, months, i - 1), c, months, i)
  {
    hide StepTo;
  }

  lemma OneStepManned(before: State, c: ChainDraw, months: int, i: nat)
    requires Manned(before) && 1 <= i <= |c.steps| && ValidTaskDraw(c.steps[i - 1].task)
    ensures Manned(StepTo(before, c, months, i))
  {
    hide Manned, WithTask, WithLink, StepWindow, ValidTaskDraw;
    var d, w := c.steps[i - 1], StepWindow(c, months, i - 1);
    TaskKeepsManned(before, c.wbs, c.trade, w.0, w.1, false, d.located, d.wi, d.second, d.task);
    var next := WithTask(before, c.wbs, c.trade, w.0, w.1, false, d.located, d.wi, d.second, d.task);
    LinkKeepsManned(next, FIRST + |before.tasks| - 1, FIRST + |before.tasks|, d.kind, d.lag);
  }

  ghost predicate DrawsAreValid(chains: seq<ChainDraw>) {
    forall c, d :: c in chains && d in c.steps ==> ValidTaskDraw(d.task)
  }

  lemma {:induction false} ChainsKeepManned(st: State, chains: seq<ChainDraw>, months: int, i: nat)
    requires Manned(st) && i <= |chains| && DrawsAreValid(chains)
    ensures Manned(ChainsTo(st, chains, months, i))
  {
    hide ChainTo, Manned, ValidTaskDraw;
    if i > 0 {
      ChainsKeepManned(st, chains, months, i - 1);
      ChainKeepsManned(ChainsTo(st, chains, months, i - 1), chains[i - 1], months, |chains[i - 1].steps|);
    }
  }

  lemma {:induction false} GapKeepsManned(st: State, c: ChainDraw, months: int, i: nat)
    requires Manned(st) && i <= |c.steps| && forall d :: d in c.steps ==> ValidTaskDraw(d.task)
    ensures Manned(GapTo(st, c, months, i))
  {
    hide *;
    GapUnfold(st, c, months, i);
    if i > 0 {
      GapKeepsManned(st, c, months, i - 1);
      OneGapManned(GapTo(st, c, months, i - 1), c, months, i);
    }
  }

  lemma OneGapManned(before: State, c: ChainDraw, months: int, i: nat)
    requires Manned(before) && 1 <= i <= |c.steps| && ValidTaskDraw(c.steps[i - 1].task)
    ensures Manned(GapStepTo(before, c, months, i))
  {
    hide Manned, WithTask, WithLink, WaveWindow, ValidTaskDraw;
    var d := c.steps[i - 1];
    var w := WaveWindow(d.wave, d.dur, months);
    TaskKeepsManned(before, c.wbs, c.trade, w.0, w.1, false, d.located, d.wi, None, d.task);
    var next := WithTask(before, c.wbs, c.trade, w.0, w.1, false, d.located, d.wi, None, d.task);
    LinkKeepsManned(next, FIRST + |before.tasks| - 1, FIRST + |before.tasks|, FS, 0);
  }

  lemma {:induction false} EventsKeepManned(st: State, months: int, reviewDays: seq<int>, d: TaskDraw, i: nat)
    requires Manned(st) && i <= 14 && |reviewDays| == 6 && ValidTaskDraw(d)
    ensures Manned(EventsTo(st, months, reviewDays, d, i))
  {
    EventsUnfold(st, months, reviewDays, d, i);
    hide EventsTo, Manned, WithTask, EventInstant, ValidTaskDraw;
    if i > 0 {
      var at := EventInstant(months, reviewDays, i - 1);
      EventsKeepManned(st, months, reviewDays, d, i - 1);
      TaskKeepsManned(EventsTo(st, months, reviewDays, d, i - 1), KeyEvents, 7002, at, at, true, false, false, None, d);
    }
  }

  lemma {:induction false} PicksKeepManned(st: State, lasts: seq<nat>, review: nat, picks: seq<nat>, i: nat)
    requires Manned(st) && i <= |picks|
    ensures Manned(PicksTo(st, lasts, review, picks, i))
  {
    hide Manned, WithLink;
    if i > 0 {
      PicksKeepManned(st, lasts, review, picks, i - 1);
      if picks[i - 1] < |lasts| {
        LinkKeepsManned(PicksTo(st, lasts, review, picks, i - 1), lasts[picks[i - 1]], review, FS, 0);
      }
    }
  }

  lemma {:induction false} ZonesKeepManned(st: State, zoneLast: seq<seq<nat>>, first: nat, picks: seq<seq<nat>>, z: nat)
    requires Manned(st) && z <= 6 && |zoneLast| == 6 && |picks| == 6
    ensures Manned(ZonesTo(st, zoneLast, first, picks, z))
  {
    ZonesUnfold(st, zoneLast, first, picks, z);
    hide *;
    if z > 0 {
      var before, y := ZonesTo(st, zoneLast, first, picks, z - 1), z - 1;
      ZonesKeepManned(st, zoneLast, first, picks, y);
      PicksKeepManned(before, zoneLast[y], first + 8 + y, picks[y], |picks[y]|);
      LinkKeepsManned(
        PicksTo(before, zoneLast[y], first + 8 + y, picks[y], |picks[y]|), first + 8 + y, first + 4, FS, 0);
    }
  }

  /** Whatever is drawn, every work task of the whole schedule is given the hours of a crew of
      one to four over its days, and no milestone any. */
  lemma EveryTaskIsManned(
      months: int, chains: seq<ChainDraw>, services: seq<ChainDraw>, general: seq<ChainDraw>, gap: ChainDraw,
      reviewDays: seq<int>, picks: seq<seq<nat>>, d: TaskDraw)
    requires |reviewDays| == 6 && |picks| == 6 && forall c :: c in chains ==> c.wbs.System? && c.wbs.z < 6
    requires DrawsAreValid(chains) && DrawsAreValid(services) && DrawsAreValid(general) && DrawsAreValid([gap])
    requires ValidTaskDraw(d)
    ensures Manned(Whole(months, chains, services, general, gap, reviewDays, picks, d))
  {
    var empty := State([], [], [], [], 950000);
    assert Manned(empty);
    var work := ChainsTo(empty, chains, months, |chains|);
    var served := ChainsTo(work, services, months, |services|);
    var all := ChainsTo(served, general, months, |general|);
    var gapped := GapTo(all, gap, months, |gap.steps|);
    assert gap in [gap];
    var events := EventsTo(gapped, months, reviewDays, d, 14);
    var zoneLast := LastsTo(empty, chains, months, |chains|);
    assert Whole(months, chains, services, general, gap, reviewDays, picks, d)
           == ZonesTo(events, zoneLast, FIRST + |gapped.tasks|, picks, 6);
    assert forall s :: s in gap.steps ==> ValidTaskDraw(s.task);
    hide *;
    ChainsKeepManned(empty, chains, months, |chains|);
    ChainsKeepManned(work, services, months, |services|);
    ChainsKeepManned(served, general, months, |general|);
    GapKeepsManned(all, gap, months, |gap.steps|);
    EventsKeepManned(gapped, months, reviewDays, d, 14);
    ZonesKeepManned(events, zoneLast, FIRST + |gapped.tasks|, picks, 6);
  }
}
