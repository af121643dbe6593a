/** The seven-day plan laid over the dispatch: which active compartments get a bar,
    where the bars land, and what the days carry. */
module WeekPlan {
  import opened Sequences
  import opened Dispatch

  datatype Kind = Go | Svc | Park

  datatype Bar = Bar(ci: nat, c: Comp, kind: Kind, dur: int, d1: int, d2: int, earliest: int)

  function Hash(c: Comp): nat {
    c.frame * 7 + c.s * 3 + c.crew
  }

  function Dur(c: Comp): int {
    2 + Hash(c) % 3
  }

  /** The day by which a service team sent to the compartment has cleared it. */
  function ClearDay(c: Comp): int {
    2 + (c.frame + c.s) % 3
  }

  // ----- Who clears when ------------------------------------------------------------

  /** `wpDispClear`: for each compartment sent anything, the latest day it clears. */
  method DispClear(pending: seq<Request>) returns (clear: map<string, int>)
    ensures forall r :: r in pending && r.dispatch ==> r.d.comp.id in clear
    ensures forall id :: id in clear ==> 2 <= clear[id] <= 4
    ensures forall id :: id in clear ==>
            exists r :: r in pending && r.dispatch && r.d.comp.id == id && clear[id] == ClearDay(r.d.comp)
    ensures forall r :: r in pending && r.dispatch ==> ClearDay(r.d.comp) <= clear[r.d.comp.id]
  {
    clear := map[];
    for i := 0 to |pending|
      invariant forall j :: 0 <= j < i && pending[j].dispatch ==>
                  pending[j].d.comp.id in clear && ClearDay(pending[j].d.comp) <= clear[pending[j].d.comp.id]
      invariant forall id :: id in clear ==>
                  2 <= clear[id] <= 4
                  && exists j :: 0 <= j < i && pending[j].dispatch && pending[j].d.comp.id == id
                      && clear[id] == ClearDay(pending[j].d.comp)
    {
      var r := pending[i];
      if r.dispatch {
        var id := r.d.comp.id;
        var was := if id in clear then clear[id] else 0;
        clear := clear[id := Max(was, ClearDay(r.d.comp))];
      }
    }
    forall id | id in clear
      ensures exists r :: r in pending && r.dispatch && r.d.comp.id == id && clear[id] == ClearDay(r.d.comp)
    {
      var j :| 0 <= j < |pending| && pending[j].dispatch && pending[j].d.comp.id == id
          && clear[id] == ClearDay(pending[j].d.comp);
      assert pending[j] in pending;
    }
  }

  // ----- The kind of an item ------------------------------------------------------------

  /** `pendingReqs.find`: the first request for this compartment and service. */
  function Find(demands: seq<Demand>, id: string, svc: string): Option<Demand> {
    if demands == [] then None
    else if demands[0].comp.id == id && demands[0].svc == svc then Some(demands[0])
    else Find(demands[1..], id, svc)
  }

  predicate FoundSent(demands: seq<Demand>, services: seq<Service>, id: string, svc: string) {
    var found := Find(demands, id, svc);
    found.Some? && IsSent(demands, services, found.value)
  }

  /** The pending requests of `c` with no team sent. */
  function Undispatched(demands: seq<Demand>, services: seq<Service>, c: Comp, wk: int): seq<Req> {
    Filter((p: Req) => !FoundSent(demands, services, c.id, p.id), Pending(c, wk))
  }

  function KindOf(demands: seq<Demand>, services: seq<Service>, c: Comp, wk: int): Kind {
    if CompStatus(c, wk).key == Blocked then
      if c.offLimits || Undispatched(demands, services, c, wk) != [] then Park else Svc
    else Go
  }

  ghost predicate DistinctReqs(c: Comp) {
    forall i, j :: 0 <= i < j < |c.req| ==> c.req[i].id != c.req[j].id
  }

  lemma FindIs(demands: seq<Demand>, id: string, svc: string)
    ensures var found := Find(demands, id, svc);
            (found.Some? ==> found.value in demands && found.value.comp.id == id && found.value.svc == svc)
            && (found.None? ==> forall d :: d in demands ==> d.comp.id != id || d.svc != svc)
  {
  }

  lemma FindsOwn(comps: seq<Comp>, wk: int, ci: nat, ri: nat)
    requires UniqueCompIds(comps) && ci < |comps| && ri < |comps[ci].req| && DistinctReqs(comps[ci])
    requires Enterable(comps[ci], wk) && PendingReq(wk, comps[ci].req[ri])
    ensures Find(Demands(comps, wk, 0), comps[ci].id, comps[ci].req[ri].id) == Some(DemandAt(ci, comps[ci], wk, ri))
  {
    hide Demands, CompStatus, OthersPending, Find;
    var demands, c := Demands(comps, wk, 0), comps[ci];
    var own, found := DemandAt(ci, c, wk, ri), Find(demands, c.id, c.req[ri].id);
    FindIs(demands, c.id, c.req[ri].id);
    DemandsAre(comps, wk, 0, own);
    if found.Some? {
      var d := found.value;
      DemandsAre(comps, wk, 0, d);
      SameCompId(comps, d.ci, ci);
      SameReq(c, d.ri, ri);
    }
  }

  lemma SameReq(c: Comp, i: nat, j: nat)
    requires DistinctReqs(c) && i < |c.req| && j < |c.req| && c.req[i].id == c.req[j].id
    ensures i == j
  {
    if i < j || j < i { assert false; }
  }

  /** The plan's service items are exactly the compartments the ledger says recover;
      every other blocked compartment is parked, and every doable one goes. */
  lemma KindsMatchLedger(comps: seq<Comp>, wk: int, services: seq<Service>, ci: nat)
    requires UniqueCompIds(comps) && ci < |comps| && DistinctReqs(comps[ci]) && CompStatus(comps[ci], wk).active
    ensures var kind := KindOf(Demands(comps, wk, 0), services, comps[ci], wk);
            && (kind == Svc <==> Recovers(comps, wk, services, ci))
            && (kind == Go <==> CompStatus(comps[ci], wk).key == Doable)
            && (kind == Park <==> CompStatus(comps[ci], wk).key == Blocked && !Recovers(comps, wk, services, ci))
  {
    var c, demands := comps[ci], Demands(comps, wk, 0);
    LedgerIsCounterfactual(comps, wk, services, ci);
    if !c.offLimits && CompStatus(c, wk).key == Blocked {
      UndispatchedIff(comps, wk, services, ci);
    }
  }

  lemma UndispatchedIff(comps: seq<Comp>, wk: int, services: seq<Service>, ci: nat)
    requires UniqueCompIds(comps) && ci < |comps| && DistinctReqs(comps[ci]) && Enterable(comps[ci], wk)
    requires CompStatus(comps[ci], wk).key == Blocked
    ensures Undispatched(Demands(comps, wk, 0), services, comps[ci], wk) == [] <==> Recovers(comps, wk, services, ci)
  {
    var c, demands := comps[ci], Demands(comps, wk, 0);
    var own, left := CompDemands(ci, c, wk), Undispatched(demands, services, c, wk);
    OwnDemands(comps, wk, ci);
    assert Pending(c, wk) != [];
    NonePending(c, wk);
    LeftAre(demands, services, c, wk);
    hide Demands, CompStatus, OthersPending, CompDemands, IsSent, Find, Pending, Enterable, Undispatched, FoundSent;
    forall ri | 0 <= ri < |c.req| && PendingReq(wk, c.req[ri])
      ensures FoundSent(demands, services, c.id, c.req[ri].id) <==> IsSent(demands, services, DemandAt(ci, c, wk, ri))
      ensures DemandAt(ci, c, wk, ri) in own
    {
      FindsOwn(comps, wk, ci, ri);
      assert DemandAt(ci, c, wk, ri).ri == ri;
    }
    if left != [] {
      assert left[0] in left;
      var ri :| 0 <= ri < |c.req| && c.req[ri] == left[0];
      assert !IsSent(demands, services, DemandAt(ci, c, wk, ri));
    }
    if d :| d in own && !IsSent(demands, services, d) {
      assert c.req[d.ri] in left;
    }
  }

  lemma LeftAre(demands: seq<Demand>, services: seq<Service>, c: Comp, wk: int)
    ensures forall r :: r in Undispatched(demands, services, c, wk) <==>
              r in c.req && PendingReq(wk, r) && !FoundSent(demands, services, c.id, r.id)
  {
    PendingAre(c, wk);
    hide Pending, FoundSent;
  }

  lemma PendingAre(c: Comp, wk: int)
    ensures forall r :: r in Pending(c, wk) <==> r in c.req && PendingReq(wk, r)
  {
  }

  // ----- Placement ------------------------------------------------------------------------

  function Earliest(dur: int, clear: map<string, int>, id: string): int {
    Max(1, Min((if id in clear && clear[id] != 0 then clear[id] else 2) + 1, 8 - dur))
  }

  function BarOf(
      demands: seq<Demand>, services: seq<Service>, wk: int, clear: map<string, int>, shifts: map<string, int>,
      ci: nat, c: Comp): Bar
  {
    var dur := Dur(c);
    var kind := KindOf(demands, services, c, wk);
    var earliest := if kind == Svc then Earliest(dur, clear, c.id) else 1;
    var baseD := if kind == Svc then earliest else 1 + Hash(c) % (8 - dur);
    var d1 := Max(1, Min(8 - dur, baseD + Shift(shifts, c)));
    Bar(ci, c, kind, dur, d1, d1 + dur - 1, earliest)
  }

  function Shift(shifts: map<string, int>, c: Comp): int {
    if c.id in shifts then shifts[c.id] else 0
  }

  predicate InWeek(b: Bar) {
    1 <= b.d1 <= b.d2 <= 7 && b.d2 == b.d1 + b.dur - 1 && 2 <= b.dur <= 4
  }

  /** However far a bar is dragged, it keeps its length and stays in the week. */
  lemma BarStaysInWeek(
      demands: seq<Demand>, services: seq<Service>, wk: int, clear: map<string, int>, shifts: map<string, int>,
      ci: nat, c: Comp)
    ensures InWeek(BarOf(demands, services, wk, clear, shifts, ci, c))
    ensures BarOf(demands, services, wk, clear, shifts, ci, c).dur == Dur(c)
  {
    hide KindOf, Earliest, Hash;
  }

  /** A drag moves a bar by as many days as it is dragged, until it meets an end of the week;
      nothing else about it changes. */
  lemma DragMoves(
      demands: seq<Demand>, services: seq<Service>, wk: int, clear: map<string, int>, shifts: map<string, int>,
      ci: nat, c: Comp)
    ensures var still := BarOf(demands, services, wk, clear, map[], ci, c);
            var b, days := BarOf(demands, services, wk, clear, shifts, ci, c), Shift(shifts, c);
            && b.kind == still.kind && b.dur == still.dur && b.earliest == still.earliest
            && (1 <= still.d1 + days && still.d2 + days <= 7 ==> b.d1 == still.d1 + days)
            && (still.d1 + days < 1 ==> b.d1 == 1)
            && (still.d2 + days > 7 ==> b.d2 == 7)
  {
    SameRest(Hash(c), 8 - Dur(c));
    hide KindOf, Hash;
  }

  /** Where a bar stands before it is dragged: a service item the day after its service
      clears, or as late as still ends on the seventh day; any other spread over the days it
      fits in by its frame, its start and its crew. */
  lemma UndraggedStands(
      demands: seq<Demand>, services: seq<Service>, wk: int, clear: map<string, int>, ci: nat, c: Comp)
    requires c.id in clear && clear[c.id] == ClearDay(c)
    ensures var b, spread := BarOf(demands, services, wk, clear, map[], ci, c), 7 * c.frame + 3 * c.s + c.crew;
            && 2 <= b.dur <= 4 && spread == 3 * (spread / 3) + b.dur - 2
            && 2 <= ClearDay(c) <= 4 && c.frame + c.s == 3 * ((c.frame + c.s) / 3) + ClearDay(c) - 2
            && (b.kind == Svc ==> if ClearDay(c) + b.dur <= 7 then b.d1 == ClearDay(c) + 1 else b.d2 == 7)
            && (b.kind != Svc ==> 1 <= b.d1 && b.d2 <= 7 && spread == (8 - b.dur) * (spread / (8 - b.dur)) + b.d1 - 1)
  {
    hide KindOf;
    var dur := Dur(c);
    assert Hash(c) == 7 * c.frame + 3 * c.s + c.crew;
    SameRest(Hash(c), 3);
    SameRest(Hash(c), 8 - dur);
    SameRest(c.frame + c.s, 3);
    hide Hash;
  }

  /** Division with remainder. */
  lemma SameRest(n: int, m: nat)
    requires 3 <= m <= 6
    ensures n == m * (n / m) + n % m && 0 <= n % m < m
  {
  }

  predicate Violates(b: Bar) {
    b.kind == Svc && b.d1 < b.earliest
  }

  /** A service item is reported as starting too early exactly when it has been dragged
      to the left; and if it has not, it never starts before the day its service
      clears. */
  lemma ViolatesIffDraggedLeft(
      demands: seq<Demand>, services: seq<Service>, wk: int, clear: map<string, int>, shifts: map<string, int>,
      ci: nat, c: Comp)
    requires c.id in clear && clear[c.id] == ClearDay(c)
    ensures var b := BarOf(demands, services, wk, clear, shifts, ci, c);
            b.kind == Svc ==> (Violates(b) <==> Shift(shifts, c) < 0) && (!Violates(b) ==> b.d1 >= ClearDay(c))
  {
    hide KindOf, Hash;
  }

  /** An undragged service item starts on the very day its service clears, not after,
      exactly when a four-day job meets a clearance on the fourth day: the clamp that
      keeps the bar in the week wins over the day's margin. */
  lemma StartsOnClearDayIff(
      demands: seq<Demand>, services: seq<Service>, wk: int, clear: map<string, int>, shifts: map<string, int>,
      ci: nat, c: Comp)
    requires c.id in clear && clear[c.id] == ClearDay(c) && Shift(shifts, c) == 0
    ensures var b := BarOf(demands, services, wk, clear, shifts, ci, c);
            b.kind == Svc ==> (b.d1 == ClearDay(c) <==> Dur(c) == 4 && ClearDay(c) == 4)
  {
    hide KindOf, Hash;
  }

  /** The zone model's compartment at frame 9 of the second deck is one for which it does,
      in whatever list of compartments and services it recovers. */
  lemma StartsOnClearDayHappens(comps: seq<Comp>, wk: int, services: seq<Service>, clear: map<string, int>, ci: nat)
    requires ci < |comps| && comps[ci] == FrameNine() && UniqueCompIds(comps)
    requires CompStatus(comps[ci], wk).active && Recovers(comps, wk, services, ci)
    requires FrameNine().id in clear && clear[FrameNine().id] == ClearDay(FrameNine())
    ensures var b := BarOf(Demands(comps, wk, 0), services, wk, clear, map[], ci, comps[ci]);
            b.kind == Svc && b.dur == 4 && b.d1 == ClearDay(comps[ci]) == 4
  {
    var c := comps[ci];
    FrameNineIs();
    hide FrameNine, Recovers, Demands;
    KindsMatchLedger(comps, wk, services, ci);
    StartsOnClearDayIff(Demands(comps, wk, 0), services, wk, clear, map[], ci, c);
  }

  function FrameNine(): Comp {
    Generated("2-9-1-M", "fit", 9, GridHash(9, 0, 1))
  }

  lemma FrameNineIs()
    ensures var c := FrameNine();
            && c.req == [Req("chem", 7)] && c.s == 5 && c.e == 13 && c.crew == 14 && !c.offLimits
            && ClearDay(c) == 4 && Dur(c) == 4
  {
    FrameNineParts();
    hide FrameNine;
  }

  lemma FrameNineParts()
    ensures FrameNine() == Comp("2-9-1-M", 9, "fit", false, [Req("chem", 7)], 5, 13, 14, 112, 0)
  {
    FrameNineReqs();
    hide GeneratedReqs;
    assert GridHash(9, 0, 1) == 76;
  }

  lemma FrameNineReqs()
    ensures GeneratedReqs(76) == [Req("chem", 7)]
  {
    assert 76 % 2 == 0 && 76 % 9 == 4 && 76 % 4 == 0 && 76 % 3 == 1 && 76 % 13 == 11;
  }

  /** Alone, with the chemist's teams free, it recovers in its fifth week. */
  lemma FrameNineRecovers()
    ensures UniqueCompIds([FrameNine()]) && Recovers([FrameNine()], 5, [Service("chem", 3)], 0)
    ensures CompStatus(FrameNine(), 5).active
  {
    FrameNineIs();
    hide FrameNine;
    OnlyDemandSent(FrameNine(), [Service("chem", 3)]);
  }

  lemma OnlyDemandSent(c: Comp, services: seq<Service>)
    requires c.req == [Req("chem", 7)] && c.s == 5 && c.e == 13 && !c.offLimits && services == [Service("chem", 3)]
    ensures Recovers([c], 5, services, 0) && CompStatus(c, 5).active
  {
    var comps := [c];
    assert c.req[0] in Pending(c, 5);
    var d := DemandAt(0, c, 5, 0);
    assert DemandsFrom(0, c, 5, 1) == [];
    assert CompDemands(0, c, 5) == [d];
    assert Demands(comps, 5, 1) == [];
    var demands := Demands(comps, 5, 0);
    assert demands == [d];
    QueueIs(demands, "chem");
    FilterOne((p: Demand) => p.svc == "chem", d);
    assert d in Sent(demands, services[0]);
  }

  /** One bar for every active compartment, in order. */
  function Bars(comps: seq<Comp>, demands: seq<Demand>, services: seq<Service>, wk: int, clear: map<string, int>,
                shifts: map<string, int>, ci: nat): seq<Bar>
    decreases |comps| - ci
  {
    if ci >= |comps| then []
    else
      (if CompStatus(comps[ci], wk).active then [BarOf(demands, services, wk, clear, shifts, ci, comps[ci])] else [])
      + Bars(comps, demands, services, wk, clear, shifts, ci + 1)
  }

  /** Every active compartment is planned exactly once, and nothing else is. */
  lemma {:induction false} EachActiveOnce(
      comps: seq<Comp>, demands: seq<Demand>, services: seq<Service>, wk: int, clear: map<string, int>,
      shifts: map<string, int>, ci: nat)
    ensures var bars := Bars(comps, demands, services, wk, clear, shifts, ci);
            && (forall b :: b in bars <==> ci <= b.ci < |comps| && CompStatus(comps[b.ci], wk).active
                                           && b == BarOf(demands, services, wk, clear, shifts, b.ci, comps[b.ci]))
            && NoDup(bars)
    decreases |comps| - ci
  {
    hide CompStatus, BarOf;
    if ci < |comps| {
      EachActiveOnce(comps, demands, services, wk, clear, shifts, ci + 1);
      BarKeepsIndex(demands, services, wk, clear, shifts, ci, comps[ci]);
      NoDupConcat(if CompStatus(comps[ci], wk).active then [BarOf(demands, services, wk, clear, shifts, ci, comps[ci])]
                  else [],
                  Bars(comps, demands, services, wk, clear, shifts, ci + 1));
    }
  }

  lemma BarKeepsIndex(
      demands: seq<Demand>, services: seq<Service>, wk: int, clear: map<string, int>, shifts: map<string, int>,
      ci: nat, c: Comp)
    ensures BarOf(demands, services, wk, clear, shifts, ci, c).ci == ci
  {
  }

  // ----- Building the items ---------------------------------------------------------------

  ghost predicate Marked(pending: seq<Request>, demands: seq<Demand>, services: seq<Service>)
    reads pending
  {
    StandFor(pending, demands) && forall r :: r in pending ==> (r.dispatch <==> IsSent(demands, services, r.d))
  }

  method FindRequest(pending: seq<Request>, id: string, svc: string) returns (r: Request?)
    ensures r != null ==> r in pending && Find(Values(pending), id, svc) == Some(r.d)
    ensures r == null ==> Find(Values(pending), id, svc) == None
  {
    for i := 0 to |pending|
      invariant Find(Values(pending), id, svc) == Find(Values(pending)[i..], id, svc)
    {
      assert Values(pending)[i..][0] == pending[i].d && Values(pending)[i..][1..] == Values(pending)[i + 1..];
      if pending[i].d.comp.id == id && pending[i].d.svc == svc {
        return pending[i];
      }
    }
    return null;
  }

  /** Whether some pending request of `c` has no team sent to it. */
  method AnyUndispatched(
      pending: seq<Request>, c: Comp, wk: int, ghost demands: seq<Demand>, ghost services: seq<Service>)
    returns (any: bool)
    requires Marked(pending, demands, services)
    ensures any <==> Undispatched(demands, services, c, wk) != []
  {
    var pend := Pending(c, wk);
    hide Pending, IsSent, Find, NoDup;
    any := false;
    for i := 0 to |pend|
      invariant any <==> exists j :: 0 <= j < i && !FoundSent(demands, services, c.id, pend[j].id)
    {
      var q := FindRequest(pending, c.id, pend[i].id);
      if q == null || !q.dispatch {
        any := true;
      }
    }
    UndispatchedExists(demands, services, c, wk);
  }

  lemma UndispatchedExists(demands: seq<Demand>, services: seq<Service>, c: Comp, wk: int)
    ensures Undispatched(demands, services, c, wk) != [] <==>
              exists j :: 0 <= j < |Pending(c, wk)| && !FoundSent(demands, services, c.id, Pending(c, wk)[j].id)
  {
    hide Pending, FoundSent;
    var pend, left := Pending(c, wk), Undispatched(demands, services, c, wk);
    if left != [] {
      assert left[0] in left;
      var j :| 0 <= j < |pend| && pend[j] == left[0];
    }
    if j :| 0 <= j < |pend| && !FoundSent(demands, services, c.id, pend[j].id) {
      assert pend[j] in left;
    }
  }

  ghost predicate KnowsClearDays(comps: seq<Comp>, wk: int, services: seq<Service>, clear: map<string, int>) {
    forall ci :: 0 <= ci < |comps| && Recovers(comps, wk, services, ci) ==>
      comps[ci].id in clear && clear[comps[ci].id] == ClearDay(comps[ci])
  }

  lemma ClearDaysKnown(
      comps: seq<Comp>, wk: int, services: seq<Service>, pending: seq<Request>, clear: map<string, int>)
    requires UniqueCompIds(comps) && Marked(pending, Demands(comps, wk, 0), services)
    requires forall r :: r in pending && r.dispatch ==> r.d.comp.id in clear
    requires forall id :: id in clear ==>
             exists r :: r in pending && r.dispatch && r.d.comp.id == id && clear[id] == ClearDay(r.d.comp)
    ensures KnowsClearDays(comps, wk, services, clear)
  {
    hide IsSent, ClearDay;
    var demands := Demands(comps, wk, 0);
    forall ci | 0 <= ci < |comps| && Recovers(comps, wk, services, ci)
      ensures comps[ci].id in clear && clear[comps[ci].id] == ClearDay(comps[ci])
    {
      var own := CompDemands(ci, comps[ci], wk);
      assert own[0] in own;
      OwnDemands(comps, wk, ci);
      hide CompDemands, Demands, OthersPending, Enterable;
      DemandsAre(comps, wk, 0, own[0]);
      OneObject(pending, demands, own[0]);
      var r :| r in pending && r.dispatch && r.d.comp.id == comps[ci].id && clear[comps[ci].id] == ClearDay(r.d.comp);
      ValueListed(pending, r);
      DemandsAre(comps, wk, 0, r.d);
      SameCompId(comps, r.d.ci, ci);
    }
  }

  /** The item of one active compartment. */
  method ItemFor(
      ci: nat, c: Comp, wk: int, pending: seq<Request>, clear: map<string, int>, shifts: map<string, int>,
      ghost demands: seq<Demand>, ghost services: seq<Service>) returns (b: Bar)
    requires Marked(pending, demands, services)
    ensures b == BarOf(demands, services, wk, clear, shifts, ci, c)
  {
    hide CompStatus, Hash, Marked, Earliest, Undispatched;
    var dur := Dur(c);
    var kind, earliest := Go, 1;
    if CompStatus(c, wk).key == Blocked {
      var undisp := AnyUndispatched(pending, c, wk, demands, services);
      if c.offLimits || undisp {
        kind := Park;
      } else {
        kind, earliest := Svc, Earliest(dur, clear, c.id);
      }
    }
    var baseD := if kind == Svc then earliest else 1 + Hash(c) % (8 - dur);
    var d1 := Max(1, Min(8 - dur, baseD + Shift(shifts, c)));
    b := Bar(ci, c, kind, dur, d1, d1 + dur - 1, earliest);
  }

  /** The whole week plan. */
  method PlanWeek(comps: seq<Comp>, wk: int, services: seq<Service>, pending: seq<Request>, shifts: map<string, int>)
    returns (items: seq<Bar>, clear: map<string, int>)
    requires UniqueCompIds(comps) && Marked(pending, Demands(comps, wk, 0), services)
    ensures items == Bars(comps, Demands(comps, wk, 0), services, wk, clear, shifts, 0)
    ensures KnowsClearDays(comps, wk, services, clear)
  {
    clear := DispClear(pending);
    ClearDaysKnown(comps, wk, services, pending, clear);
    hide *;
    ghost var demands := Demands(comps, wk, 0);
    items := [];
    for ci := 0 to |comps|
      invariant items + Bars(comps, demands, services, wk, clear, shifts, ci)
                == Bars(comps, demands, services, wk, clear, shifts, 0)
    {
      BarsStep(comps, demands, services, wk, clear, shifts, ci, items);
      if CompStatus(comps[ci], wk).active {
        var b := ItemFor(ci, comps[ci], wk, pending, clear, shifts, demands, services);
        items := items + [b];
      }
    }
    BarsEnd(comps, demands, services, wk, clear, shifts, items);
  }

  lemma BarsStep(comps: seq<Comp>, demands: seq<Demand>, services: seq<Service>, wk: int, clear: map<string, int>,
                 shifts: map<string, int>, ci: nat, items: seq<Bar>)
    requires ci < |comps|
    ensures items + Bars(comps, demands, services, wk, clear, shifts, ci)
         == (if CompStatus(comps[ci], wk).active
             then items + [BarOf(demands, services, wk, clear, shifts, ci, comps[ci])] else items)
            + Bars(comps, demands, services, wk, clear, shifts, ci + 1)
  {
    hide BarOf, CompStatus;
  }

  lemma BarsEnd(comps: seq<Comp>, demands: seq<Demand>, services: seq<Service>, wk: int, clear: map<string, int>,
                shifts: map<string, int>, items: seq<Bar>)
    ensures items + Bars(comps, demands, services, wk, clear, shifts, |comps|) == items
    ensures [] + Bars(comps, demands, services, wk, clear, shifts, 0)
            == Bars(comps, demands, services, wk, clear, shifts, 0)
  {
  }

  /** On the plan as built: bars stay in the week, and the service items flagged as
      starting too early are exactly those dragged to the left; with no drags there are
      none. */
  lemma PlanIsSound(
      comps: seq<Comp>, wk: int, services: seq<Service>, clear: map<string, int>, shifts: map<string, int>, b: Bar)
    requires UniqueCompIds(comps) && KnowsClearDays(comps, wk, services, clear)
    requires forall i :: 0 <= i < |comps| ==> DistinctReqs(comps[i])
    requires b in Bars(comps, Demands(comps, wk, 0), services, wk, clear, shifts, 0)
    ensures InWeek(b)
    ensures b.kind == Svc <==> b.ci < |comps| && Recovers(comps, wk, services, b.ci)
    ensures Violates(b) <==> b.kind == Svc && Shift(shifts, b.c) < 0
    ensures b.kind == Svc && !Violates(b) ==> b.d1 >= ClearDay(b.c)
  {
    var demands := Demands(comps, wk, 0);
    EachActiveOnce(comps, demands, services, wk, clear, shifts, 0);
    BarStaysInWeek(demands, services, wk, clear, shifts, b.ci, comps[b.ci]);
    KindsMatchLedger(comps, wk, services, b.ci);
    KeepsComp(demands, services, wk, clear, shifts, b.ci, comps[b.ci]);
    hide Bars, BarOf, KindOf, Recovers, CompStatus, ClearDay, Shift, Violates;
    if b.kind == Svc {
      ViolatesIffDraggedLeft(demands, services, wk, clear, shifts, b.ci, comps[b.ci]);
    } else {
      OnlyServiceViolates(b);
    }
  }

  lemma OnlyServiceViolates(b: Bar)
    requires b.kind != Svc
    ensures !Violates(b)
  {
  }

  lemma KeepsComp(
      demands: seq<Demand>, services: seq<Service>, wk: int, clear: map<string, int>, shifts: map<string, int>,
      ci: nat, c: Comp)
    ensures var b := BarOf(demands, services, wk, clear, shifts, ci, c);
            b.c == c && b.kind == KindOf(demands, services, c, wk)
  {
  }

  // ----- Daily load --------------------------------------------------------------------------

  predicate OnDay(b: Bar, day: int) {
    b.d1 <= day <= b.d2
  }

  function CrewOn(day: int): Bar -> int {
    (b: Bar) => if OnDay(b, day) then b.c.crew else 0
  }

  function TradeOn(day: int, trade: string): Bar -> int {
    (b: Bar) => if OnDay(b, day) && b.c.lead == trade then b.c.crew else 0
  }

  datatype DayLoad = DayLoad(day: int, crews: int, byTrade: map<string, int>)

  ghost predicate IsLoad(load: DayLoad, placed: seq<Bar>) {
    && load.crews == Sum(CrewOn(load.day), placed)
    && (forall t :: t in load.byTrade ==> load.byTrade[t] == Sum(TradeOn(load.day, t), placed))
    && (forall t :: t !in load.byTrade ==> Sum(TradeOn(load.day, t), placed) == 0)
  }

  /** The crews working on a day, in all and by trade. */
  method LoadOf(day: int, placed: seq<Bar>) returns (load: DayLoad)
    ensures load.day == day && IsLoad(load, placed)
  {
    var byTrade: map<string, int> := map[];
    var crews := 0;
    for i := 0 to |placed|
      invariant IsLoad(DayLoad(day, crews, byTrade), placed[..i])
    {
      var b := placed[i];
      ghost var before := DayLoad(day, crews, byTrade);
      if OnDay(b, day) {
        crews := crews + b.c.crew;
        byTrade := byTrade[b.c.lead := (if b.c.lead in byTrade then byTrade[b.c.lead] else 0) + b.c.crew];
      }
      LoadStep(before, DayLoad(day, crews, byTrade), placed, i);
    }
    assert placed[..|placed|] == placed;
    load := DayLoad(day, crews, byTrade);
  }

  lemma LoadStep(before: DayLoad, after: DayLoad, placed: seq<Bar>, i: nat)
    requires i < |placed| && IsLoad(before, placed[..i])
    requires after == if !OnDay(placed[i], before.day) then before
                      else var b := placed[i];
                           DayLoad(before.day, before.crews + b.c.crew,
                                   before.byTrade[b.c.lead :=
                                     (if b.c.lead in before.byTrade then before.byTrade[b.c.lead] else 0) + b.c.crew])
    ensures IsLoad(after, placed[..i + 1])
  {
    SumPrefixSnoc(CrewOn(before.day), placed, i);
    forall t ensures Sum(TradeOn(before.day, t), placed[..i + 1])
                  == Sum(TradeOn(before.day, t), placed[..i]) + TradeOn(before.day, t)(placed[i])
    {
      SumPrefixSnoc(TradeOn(before.day, t), placed, i);
    }
  }

  function WeekCrews(placed: seq<Bar>, day: int): int
    decreases 8 - day
  {
    if day > 7 then 0 else Sum(CrewOn(day), placed) + WeekCrews(placed, day + 1)
  }

  function CrewDays(b: Bar): int {
    b.c.crew * b.dur
  }

  /** How many of the days from `day` to the seventh the bar covers. */
  function DaysFrom(b: Bar, day: int): int
    decreases 8 - day
  {
    if day > 7 then 0 else (if OnDay(b, day) then 1 else 0) + DaysFrom(b, day + 1)
  }

  lemma DaysFromIs(b: Bar, day: int)
    requires InWeek(b) && day >= 1
    ensures DaysFrom(b, day) == if day <= b.d1 then b.dur else if day <= b.d2 then b.d2 - day + 1 else 0
    decreases 8 - day
  {
    if day <= 7 {
      DaysFromIs(b, day + 1);
    }
  }

  function CrewDaysFrom(day: int): Bar -> int {
    (b: Bar) => b.c.crew * DaysFrom(b, day)
  }

  lemma {:induction false} WeekCrewsFrom(placed: seq<Bar>, day: int)
    ensures WeekCrews(placed, day) == Sum(CrewDaysFrom(day), placed)
    decreases 8 - day
  {
    if day > 7 {
      SumZero(CrewDaysFrom(day), placed);
    } else {
      WeekCrewsFrom(placed, day + 1);
      forall b ensures CrewDaysFrom(day)(b) == CrewOn(day)(b) + CrewDaysFrom(day + 1)(b) {
        Spread(b.c.crew, if OnDay(b, day) then 1 else 0, DaysFrom(b, day + 1));
      }
      hide CrewDaysFrom, CrewOn;
      SumAdd(CrewOn(day), CrewDaysFrom(day + 1), CrewDaysFrom(day), placed);
    }
  }

  lemma Spread(a: int, b: int, c: int)
    ensures a * (b + c) == a * b + a * c
  {
  }

  /** No work is lost or added by the calendar: the seven daily crew loads sum to each
      placed bar's crew times its duration. */
  lemma WeekConservesCrewDays(placed: seq<Bar>)
    requires forall b :: b in placed ==> InWeek(b)
    ensures WeekCrews(placed, 1) == Sum(CrewDays, placed)
  {
    WeekCrewsFrom(placed, 1);
    forall b | b in placed ensures CrewDaysFrom(1)(b) == CrewDays(b) {
      DaysFromIs(b, 1);
    }
    hide CrewDaysFrom, CrewDays;
    SumEq(CrewDaysFrom(1), CrewDays, placed);
  }

  // ----- Violations and warnings, set in place -----------------------------------------------

  class Item {
    const bar: Bar
    var viol: bool
    var warn: bool

    constructor (bar: Bar)
      ensures this.bar == bar && !viol && !warn
    {
      this.bar := bar;
      viol, warn := false, false;
    }
  }

  predicate Over(overDays: map<int, set<string>>, day: int, trade: string) {
    day in overDays && trade in overDays[day]
  }

  ghost predicate TouchesOver(overDays: map<int, set<string>>, b: Bar, upTo: int) {
    exists day :: b.d1 <= day < upTo && Over(overDays, day, b.c.lead)
  }

  /** Flags each placed item: a violation if it starts before its service clears, else a
      warning if one of its days is over capacity in its trade. */
  method Flag(placed: seq<Item>, overDays: map<int, set<string>>) returns (violations: nat)
    requires forall i, j :: 0 <= i < j < |placed| ==> placed[i] != placed[j]
    requires forall it :: it in placed ==> !it.viol && !it.warn
    modifies placed
    ensures forall it :: it in placed ==> (it.viol <==> Violates(it.bar))
    ensures forall it :: it in placed ==>
            (it.warn <==> !Violates(it.bar) && TouchesOver(overDays, it.bar, it.bar.d2 + 1))
    ensures violations == 0 <==> forall it :: it in placed ==> !Violates(it.bar)
  {
    violations := 0;
    hide Over;
    for i := 0 to |placed|
      invariant forall j :: 0 <= j < i ==> (placed[j].viol <==> Violates(placed[j].bar))
      invariant forall j :: 0 <= j < i ==>
                  (placed[j].warn <==>
                   !Violates(placed[j].bar) && TouchesOver(overDays, placed[j].bar, placed[j].bar.d2 + 1))
      invariant forall j :: i <= j < |placed| ==> !placed[j].viol && !placed[j].warn
      invariant violations == 0 <==> forall j :: 0 <= j < i ==> !Violates(placed[j].bar)
    {
      var it := placed[i];
      if Violates(it.bar) {
        it.viol := true;
        violations := violations + 1;
      }
      if !it.viol {
        var warn := TouchesOverAny(overDays, it.bar);
        it.warn := warn;
      }
    }
  }

  /** The inner loop: stop at the first overloaded day. */
  method TouchesOverAny(overDays: map<int, set<string>>, b: Bar) returns (warn: bool)
    ensures warn <==> TouchesOver(overDays, b, b.d2 + 1)
  {
    var day := b.d1;
    while day <= b.d2
      invariant b.d1 <= day && !TouchesOver(overDays, b, day)
      decreases b.d2 - day
    {
      if Over(overDays, day, b.c.lead) {
        return true;
      }
      day := day + 1;
    }
    return false;
  }

  // ----- Overloaded days, from the loads --------------------------------------------------------

  const TRADE_CAP: map<string, int> := map["fit" := 24, "weld" := 20, "mach" := 22, "elec" := 18, "pres" := 22]

  /** More crew of the trade than its capacity work on the day. A trade without a capacity
      is never over it. */
  predicate OverCapacity(placed: seq<Bar>, day: int, trade: string) {
    trade in TRADE_CAP && Sum(TradeOn(day, trade), placed) > TRADE_CAP[trade]
  }

  /** The seven loads, and for each overloaded day the trades that are over. */
  method OverDays(placed: seq<Bar>) returns (overDays: map<int, set<string>>)
    ensures forall day, trade :: Over(overDays, day, trade) <==> 1 <= day <= 7 && OverCapacity(placed, day, trade)
  {
    hide OverCapacity, IsLoad, Over;
    overDays := map[];
    NoDays();
    for day := 1 to 8
      invariant forall d, trade :: Over(overDays, d, trade) <==> 1 <= d < day && OverCapacity(placed, d, trade)
    {
      var load := LoadOf(day, placed);
      var over := set t | t in load.byTrade && t in TRADE_CAP && load.byTrade[t] > TRADE_CAP[t];
      OverIs(load, placed, over);
      ghost var before := overDays;
      if over != {} {
        overDays := overDays[day := over];
      }
      DayAdded(before, overDays, day, over);
    }
  }

  lemma NoDays()
    ensures forall d, t :: !Over(map[], d, t)
  {
  }

  lemma OverIs(load: DayLoad, placed: seq<Bar>, over: set<string>)
    requires IsLoad(load, placed)
    requires over == set t | t in load.byTrade && t in TRADE_CAP && load.byTrade[t] > TRADE_CAP[t]
    ensures forall t :: t in over <==> OverCapacity(placed, load.day, t)
  {
    hide Sum, TRADE_CAP, TradeOn;
    CapsPositive();
  }

  lemma DayAdded(before: map<int, set<string>>, after: map<int, set<string>>, day: int, over: set<string>)
    requires after == if over == {} then before else before[day := over]
    requires forall t :: !Over(before, day, t)
    ensures forall d, t :: Over(after, d, t) <==> if d == day then t in over else Over(before, d, t)
  {
  }

  lemma CapsPositive()
    ensures forall t :: t in TRADE_CAP ==> TRADE_CAP[t] > 0
  {
  }

  function BarsOf(placed: seq<Item>): (bars: seq<Bar>)
    ensures |bars| == |placed| && forall i :: 0 <= i < |placed| ==> bars[i] == placed[i].bar
  {
    seq(|placed|, i requires 0 <= i < |placed| => placed[i].bar)
  }

  /** Some day of the bar is over capacity in the bar's trade. */
  ghost predicate Crowded(placed: seq<Bar>, b: Bar) {
    exists day :: b.d1 <= day <= b.d2 && OverCapacity(placed, day, b.c.lead)
  }

  /** Loads, overloaded days, flags: a placed item is a violation exactly when it starts
      before its service clears, and else warned exactly when on one of its days more crew
      of its trade are at work than the trade has. */
  method FlagWeek(placed: seq<Item>) returns (violations: nat)
    requires forall i, j :: 0 <= i < j < |placed| ==> placed[i] != placed[j]
    requires forall it :: it in placed ==> !it.viol && !it.warn && InWeek(it.bar)
    modifies placed
    ensures forall it :: it in placed ==> (it.viol <==> Violates(it.bar))
    ensures forall it :: it in placed ==> (it.warn <==> !Violates(it.bar) && Crowded(BarsOf(placed), it.bar))
    ensures violations == 0 <==> forall it :: it in placed ==> !Violates(it.bar)
  {
    var overDays := OverDays(BarsOf(placed));
    violations := Flag(placed, overDays);
    hide Violates, OverCapacity;
    forall it | it in placed ensures TouchesOver(overDays, it.bar, it.bar.d2 + 1) <==> Crowded(BarsOf(placed), it.bar) {
      TouchesIsCrowded(BarsOf(placed), overDays, it.bar);
    }
  }

  lemma TouchesIsCrowded(placed: seq<Bar>, overDays: map<int, set<string>>, b: Bar)
    requires InWeek(b)
    requires forall day, trade :: Over(overDays, day, trade) <==> 1 <= day <= 7 && OverCapacity(placed, day, trade)
    ensures TouchesOver(overDays, b, b.d2 + 1) <==> Crowded(placed, b)
  {
    hide Over, OverCapacity;
    if day :| b.d1 <= day <= b.d2 && OverCapacity(placed, day, b.c.lead) {
      assert Over(overDays, day, b.c.lead);
    }
  }
}
