/** The finite-capacity service dispatch of a week: which compartments wait for
    which services, whom each service's teams are sent to, and what recovers. */
module Dispatch {
  import opened Sequences

  datatype Req = Req(id: string, clearWk: int)

  datatype Comp = Comp(
    id: string, frame: nat, lead: string, offLimits: bool, req: seq<Req>, s: nat, e: int, crew: nat, mh: nat,
    cpDays: nat)

  datatype Service = Service(id: string, cap: nat)

  // ----- Live status ---------------------------------------------------------------

  datatype Key = Idle | Blocked | Doable

  datatype Status = Status(key: Key, active: bool, svc: Option<string>)

  predicate PendingReq(wk: int, r: Req) {
    wk < r.clearWk
  }

  function Pending(c: Comp, wk: int): seq<Req> {
    Filter((r: Req) => PendingReq(wk, r), c.req)
  }

  function CompStatus(c: Comp, wk: int): Status {
    if wk < c.s || wk > c.e then Status(Idle, false, None)
    else if c.offLimits then Status(Blocked, true, None)
    else
      var pending := Pending(c, wk);
      if pending != [] then Status(Blocked, true, Some(pending[0].id)) else Status(Doable, true, None)
  }

  /** A compartment is active in its weeks, both ends included. While it is, it is blocked as
      long as it is off limits or any of its requests is not yet cleared, and then doable. */
  lemma StatusIs(c: Comp, wk: int)
    ensures CompStatus(c, wk).active <==> c.s <= wk <= c.e
    ensures CompStatus(c, wk).key == Idle <==> !(c.s <= wk <= c.e)
    ensures CompStatus(c, wk).key == Doable <==>
              c.s <= wk <= c.e && !c.offLimits && forall r :: r in c.req ==> r.clearWk <= wk
    ensures CompStatus(c, wk).key == Blocked <==>
              c.s <= wk <= c.e && (c.offLimits || exists r :: r in c.req && wk < r.clearWk)
  {
    var pending := Pending(c, wk);
    if pending != [] {
      assert pending[0] in pending;
    }
  }

  /** What is doable stays doable for as long as it is active. */
  lemma StaysDoable(c: Comp, wk: int, later: int)
    requires CompStatus(c, wk).key == Doable && wk <= later <= c.e
    ensures CompStatus(c, later).key == Doable
  {
    StatusIs(c, wk);
    StatusIs(c, later);
    hide CompStatus;
  }

  // ----- Demand ----------------------------------------------------------------------

  /** One pending request. `ci` and `ri` say which compartment's which request it is:
      the identity of the request object. */
  datatype Demand = Demand(ci: nat, ri: nat, svc: string, comp: Comp, fullyUnlocks: bool)

  /** Pending requests of `c`, from position `k` on, other than the one at `ri`. */
  function OthersPending(c: Comp, wk: int, ri: nat, k: nat): nat
    decreases |c.req| - k
  {
    if k >= |c.req| then 0
    else (if k != ri && PendingReq(wk, c.req[k]) then 1 else 0) + OthersPending(c, wk, ri, k + 1)
  }

  function DemandAt(ci: nat, c: Comp, wk: int, ri: nat): Demand
    requires ri < |c.req|
  {
    Demand(ci, ri, c.req[ri].id, c, OthersPending(c, wk, ri, 0) == 0)
  }

  function DemandsFrom(ci: nat, c: Comp, wk: int, ri: nat): seq<Demand>
    decreases |c.req| - ri
  {
    if ri >= |c.req| then []
    else (if PendingReq(wk, c.req[ri]) then [DemandAt(ci, c, wk, ri)] else []) + DemandsFrom(ci, c, wk, ri + 1)
  }

  predicate Enterable(c: Comp, wk: int) {
    CompStatus(c, wk).active && !c.offLimits
  }

  function CompDemands(ci: nat, c: Comp, wk: int): seq<Demand> {
    if Enterable(c, wk) then DemandsFrom(ci, c, wk, 0) else []
  }

  /** `pendingReqs`, from compartment `ci` on. */
  function Demands(comps: seq<Comp>, wk: int, ci: nat): seq<Demand>
    decreases |comps| - ci
  {
    if ci >= |comps| then [] else CompDemands(ci, comps[ci], wk) + Demands(comps, wk, ci + 1)
  }

  predicate IsDemand(comps: seq<Comp>, wk: int, d: Demand) {
    && d.ci < |comps| && Enterable(comps[d.ci], wk)
    && d.ri < |comps[d.ci].req| && PendingReq(wk, comps[d.ci].req[d.ri])
    && d == DemandAt(d.ci, comps[d.ci], wk, d.ri)
  }

  lemma DemandsFromAre(ci: nat, c: Comp, wk: int, ri: nat, d: Demand)
    ensures d in DemandsFrom(ci, c, wk, ri) <==>
              ri <= d.ri < |c.req| && PendingReq(wk, c.req[d.ri]) && d == DemandAt(ci, c, wk, d.ri)
    decreases |c.req| - ri
  {
    if ri < |c.req| {
      DemandsFromAre(ci, c, wk, ri + 1, d);
    }
  }

  lemma {:induction false} DemandsAre(comps: seq<Comp>, wk: int, ci: nat, d: Demand)
    ensures d in Demands(comps, wk, ci) <==> ci <= d.ci && IsDemand(comps, wk, d)
    decreases |comps| - ci
  {
    hide DemandsFrom, CompStatus, Pending, OthersPending;
    if ci < |comps| {
      DemandsFromAre(ci, comps[ci], wk, 0, d);
      DemandsAre(comps, wk, ci + 1, d);
    }
  }

  lemma DemandsFromNoDup(ci: nat, c: Comp, wk: int, ri: nat)
    ensures NoDup(DemandsFrom(ci, c, wk, ri))
    decreases |c.req| - ri
  {
    hide OthersPending;
    if ri < |c.req| {
      DemandsFromNoDup(ci, c, wk, ri + 1);
      DemandsFromAre(ci, c, wk, ri + 1, DemandAt(ci, c, wk, ri));
    }
  }

  lemma {:induction false} DemandsNoDup(comps: seq<Comp>, wk: int, ci: nat)
    ensures NoDup(Demands(comps, wk, ci))
    decreases |comps| - ci
  {
    hide DemandsFrom, CompStatus, Pending, OthersPending;
    if ci < |comps| {
      DemandsFromNoDup(ci, comps[ci], wk, 0);
      DemandsNoDup(comps, wk, ci + 1);
      var own, rest := CompDemands(ci, comps[ci], wk), Demands(comps, wk, ci + 1);
      forall d | d in own ensures d !in rest {
        DemandsFromAre(ci, comps[ci], wk, 0, d);
        DemandsAre(comps, wk, ci + 1, d);
      }
      NoDupConcat(own, rest);
    }
  }

  // ----- The queue of one service ----------------------------------------------------

  function ReqValue(d: Demand): int {
    (if d.fullyUnlocks then 1_000_000 else 0) + d.comp.cpDays * 1000 + d.comp.mh
  }

  function ForService(demands: seq<Demand>, svc: string): seq<Demand> {
    Filter((d: Demand) => d.svc == svc, demands)
  }

  function Queue(demands: seq<Demand>, svc: string): seq<Demand> {
    SortDesc(ReqValue, ForService(demands, svc))
  }

  function Cutline(sv: Service, n: nat): nat {
    if sv.cap < n then sv.cap else n
  }

  /** The requests a service's teams are sent to. */
  function Sent(demands: seq<Demand>, sv: Service): seq<Demand> {
    var q := Queue(demands, sv.id);
    q[..Cutline(sv, |q|)]
  }

  predicate IsSent(demands: seq<Demand>, services: seq<Service>, d: Demand) {
    exists k :: 0 <= k < |services| && d in Sent(demands, services[k])
  }

  ghost predicate DistinctServices(services: seq<Service>) {
    forall i, j :: 0 <= i < j < |services| ==> services[i].id != services[j].id
  }

  lemma QueueIs(demands: seq<Demand>, svc: string)
    requires NoDup(demands)
    ensures Descending(ReqValue, Queue(demands, svc)) && NoDup(Queue(demands, svc))
    ensures multiset(Queue(demands, svc)) == multiset(ForService(demands, svc))
    ensures forall d :: d in Queue(demands, svc) <==> d in demands && d.svc == svc
  {
    SortDescIs(ReqValue, ForService(demands, svc));
    FilterNoDup((d: Demand) => d.svc == svc, demands);
    NoDupPermutation(ForService(demands, svc), Queue(demands, svc));
  }

  // ----- Greedy optimality -------------------------------------------------------------

  /** The value of the members of `pick` among a list of requests. */
  function Picked(pick: set<Demand>): Demand -> int {
    (d: Demand) => if d in pick then ReqValue(d) else 0
  }

  /** No choice of at most `cap` of a service's requests is worth more than the ones
      its teams are sent to. */
  lemma GreedyIsOptimal(demands: seq<Demand>, sv: Service, pick: set<Demand>)
    requires NoDup(demands) && |pick| <= sv.cap
    ensures Sum(Picked(pick), ForService(demands, sv.id)) <= Sum(ReqValue, Sent(demands, sv))
  {
    var q, keep := Queue(demands, sv.id), (d: Demand) => d in pick;
    QueueIs(demands, sv.id);
    SumPermutation(Picked(pick), q, ForService(demands, sv.id));
    PrefixBeatsPick(ReqValue, keep, Picked(pick), q);
    PickBounded(pick, keep, q);
    hide Queue, ForService, ReqValue, Picked;
    forall d ensures ReqValue(d) >= 0 { ValueNonNegative(d); }
    PrefixGrows(ReqValue, q, |Filter(keep, q)|, Cutline(sv, |q|));
  }

  lemma ValueNonNegative(d: Demand)
    ensures ReqValue(d) >= 0
  {
  }

  // ----- The packed key ------------------------------------------------------------------

  predicate LexGreater(a: Demand, b: Demand) {
    if a.fullyUnlocks != b.fullyUnlocks then a.fullyUnlocks
    else if a.comp.cpDays != b.comp.cpDays then a.comp.cpDays > b.comp.cpDays
    else a.comp.mh > b.comp.mh
  }

  predicate Packs(d: Demand) {
    d.comp.mh < 1000 && d.comp.cpDays < 1000
  }

  /** While hours and days fit their digits, comparing packed keys is comparing
      (fully unlocks, critical-path days, hours) in that order. */
  lemma PackedKeyIsLexicographic(a: Demand, b: Demand)
    requires Packs(a) && Packs(b)
    ensures ReqValue(a) > ReqValue(b) <==> LexGreater(a, b)
  {
  }

  /** Hours and days within given limits. */
  predicate Limited(r: Demand, hours: nat, days: nat) {
    r.comp.mh <= hours && r.comp.cpDays <= days
  }

  /** The packed value ranks any two requests within the limits as intended. */
  ghost predicate RanksWithin(hours: nat, days: nat) {
    forall a, b :: Limited(a, hours, days) && Limited(b, hours, days) ==>
        (ReqValue(a) > ReqValue(b) <==> LexGreater(a, b))
  }

  function Sample(unlocks: bool, days: nat, hours: nat): Demand {
    Demand(0, 0, "", Comp("", 0, "", false, [], 0, 0, 0, hours, days), unlocks)
  }

  /** The digits suffice exactly while hours stay below a thousand and days with hours do
      not reach the unlock digit. */
  lemma PackedKeyRanksIff(hours: nat, days: nat)
    requires days >= 1
    ensures RanksWithin(hours, days) <==> hours < 1000 && 1000 * days + hours < 1_000_000
  {
    if hours >= 1000 {
      var a, b := Sample(false, 1, 0), Sample(false, 0, 1000);
      assert Limited(a, hours, days) && Limited(b, hours, days) && LexGreater(a, b) && ReqValue(a) == ReqValue(b);
    } else if 1000 * days + hours >= 1_000_000 {
      var a, b := Sample(true, 0, 0), Sample(false, days, hours);
      assert Limited(a, hours, days) && Limited(b, hours, days) && LexGreater(a, b) && ReqValue(a) <= ReqValue(b);
    } else {
      forall a, b | Limited(a, hours, days) && Limited(b, hours, days)
          ensures ReqValue(a) > ReqValue(b) <==> LexGreater(a, b) {
      }
    }
  }

  /** The place of a compartment in the zone model's grid, hashed. */
  function GridHash(frame: nat, fx: nat, dx: nat): nat {
    (frame * 7 + dx * 13 + fx * 3) % 1000
  }

  /** The service requests the zone model gives a compartment; a hard blocker is never
      cleared. */
  function GeneratedReqs(h: nat): seq<Req> {
    var reqs := (if h % 2 == 0 then [Req("chem", 3 + h % 9)] else [])
        + (if h % 4 == 1 then [Req("ndt", 6 + h % 8)] else [])
        + (if h % 3 == 0 then [Req("scaf", 2 + h % 6)] else []);
    if h % 13 == 4 && reqs != [] then reqs[0 := reqs[0].(clearWk := 40)] else reqs
  }

  /** The compartment the zone model generates from a hash. */
  function Generated(id: string, lead: string, frame: nat, h: nat): Comp {
    var s := 1 + h % 12;
    var crew := 4 + h % 11;
    Comp(id, frame, lead, h % 9 == 0 || h % 9 == 6, GeneratedReqs(h), s, s + 4 + h % 6, crew, crew * 8,
         if h % 11 == 0 then 2 + h % 5 else 0)
  }

  /** What the zone model's compartments ask for: the gas-free team or the inspectors or
      neither, then scaffolding or not, which it always is when the compartment is off limits;
      all cleared by the thirteenth week but for the hard blockers, whose first request is put
      off to the fortieth. */
  lemma ModelRequests(id: string, lead: string, frame: nat, h: nat)
    ensures var c := Generated(id, lead, frame, h);
            && |c.req| == (if h % 2 == 0 || h % 4 == 1 then 1 else 0) + (if h % 3 == 0 then 1 else 0)
            && (h % 2 == 0 ==> c.req[0].id == "chem") && (h % 4 == 1 ==> c.req[0].id == "ndt")
            && (h % 3 == 0 ==> c.req[|c.req| - 1].id == "scaf")
            && (c.offLimits ==> c.req != [] && c.req[|c.req| - 1].id == "scaf")
            && (forall i :: 0 <= i < |c.req| ==>
                  if i == 0 && h % 13 == 4 then c.req[i].clearWk == 40 else c.req[i].clearWk <= 13)
  {
    assert h % 4 == 1 ==> h % 2 == 1;
  }

  lemma ModelCompsPack(id: string, lead: string, frame: nat, h: nat)
    ensures var c := Generated(id, lead, frame, h);
            && 1 <= c.s <= 12 && 4 <= c.e - c.s <= 9 && 4 <= c.crew <= 14 && c.mh == 8 * c.crew <= 112
            && c.cpDays <= 6 && (if h % 11 == 0 then c.cpDays >= 2 else c.cpDays == 0)
            && RanksWithin(112, 6)
  {
    hide GeneratedReqs;
    PackedKeyRanksIff(112, 6);
  }

  /** The cutline in the planner's terms: nobody queued for a service ranks above
      anybody sent for it. */
  lemma CutlineRespectsRank(demands: seq<Demand>, sv: Service, sent: Demand, queued: Demand)
    requires NoDup(demands) && Packs(sent) && Packs(queued)
    requires sent in Sent(demands, sv) && queued in ForService(demands, sv.id) && queued !in Sent(demands, sv)
    ensures !LexGreater(queued, sent)
  {
    QueueIs(demands, sv.id);
    PackedKeyIsLexicographic(queued, sent);
    var q := Queue(demands, sv.id);
    var j :| 0 <= j < |q| && q[j] == queued;
    var i :| 0 <= i < |q| && q[i] == sent;
    SentIffAbove(demands, sv, i);
    SentIffAbove(demands, sv, j);
  }

  // ----- What recovers -----------------------------------------------------------------

  /** Some of the compartment's services are pending and every one of them is sent. */
  predicate Recovers(comps: seq<Comp>, wk: int, services: seq<Service>, ci: nat)
    requires ci < |comps|
  {
    var own := CompDemands(ci, comps[ci], wk);
    own != [] && forall d :: d in own ==> IsSent(Demands(comps, wk, 0), services, d)
  }

  predicate SentReq(comps: seq<Comp>, wk: int, services: seq<Service>, ci: nat, ri: nat)
    requires ci < |comps| && ri < |comps[ci].req|
  {
    PendingReq(wk, comps[ci].req[ri]) && IsSent(Demands(comps, wk, 0), services, DemandAt(ci, comps[ci], wk, ri))
  }

  /** The compartment as it would stand with everything sent to it cleared this week. */
  function Served(comps: seq<Comp>, wk: int, services: seq<Service>, ci: nat): Comp
    requires ci < |comps|
  {
    var c := comps[ci];
    c.(req := seq(|c.req|, ri requires 0 <= ri < |c.req| =>
      if SentReq(comps, wk, services, ci, ri) then c.req[ri].(clearWk := wk) else c.req[ri]))
  }

  lemma NonePending(c: Comp, wk: int)
    ensures Pending(c, wk) == [] <==> forall ri :: 0 <= ri < |c.req| ==> !PendingReq(wk, c.req[ri])
  {
    if Pending(c, wk) != [] {
      var r := Pending(c, wk)[0];
      assert r in Pending(c, wk);
      var ri :| 0 <= ri < |c.req| && c.req[ri] == r;
    }
    forall ri | 0 <= ri < |c.req| && PendingReq(wk, c.req[ri]) ensures Pending(c, wk) != [] {
      assert c.req[ri] in Pending(c, wk);
    }
  }

  lemma OwnDemands(comps: seq<Comp>, wk: int, ci: nat)
    requires ci < |comps|
    ensures forall d :: d in CompDemands(ci, comps[ci], wk) <==>
              Enterable(comps[ci], wk) && d.ri < |comps[ci].req| && PendingReq(wk, comps[ci].req[d.ri])
              && d == DemandAt(ci, comps[ci], wk, d.ri)
  {
    hide CompStatus, DemandsFrom, OthersPending;
    forall d ensures d in CompDemands(ci, comps[ci], wk) <==>
              Enterable(comps[ci], wk) && d.ri < |comps[ci].req| && PendingReq(wk, comps[ci].req[d.ri])
              && d == DemandAt(ci, comps[ci], wk, d.ri)
    {
      DemandsFromAre(ci, comps[ci], wk, 0, d);
    }
  }

  lemma AllSentIff(comps: seq<Comp>, wk: int, services: seq<Service>, ci: nat)
    requires ci < |comps| && Enterable(comps[ci], wk)
    ensures Recovers(comps, wk, services, ci) <==>
              Pending(comps[ci], wk) != [] && Pending(Served(comps, wk, services, ci), wk) == []
  {
    var c, after := comps[ci], Served(comps, wk, services, ci);
    OwnDemands(comps, wk, ci);
    NonePending(c, wk);
    NonePending(after, wk);
    hide CompDemands, IsSent, Enterable, Pending, OthersPending, Demands;
    var own := CompDemands(ci, c, wk);
    forall ri | 0 <= ri < |c.req| && PendingReq(wk, c.req[ri])
      ensures DemandAt(ci, c, wk, ri) in own
    {
      assert DemandAt(ci, c, wk, ri).ri == ri;
    }
    forall ri | 0 <= ri < |c.req|
      ensures PendingReq(wk, after.req[ri]) <==> PendingReq(wk, c.req[ri]) && !SentReq(comps, wk, services, ci, ri)
    {
    }
    if own != [] { assert own[0] in own; }
  }

  /** The ledger's claim is a counterfactual about live status, and it is true: with
      everything sent this week taken as cleared, a compartment turns from blocked to
      doable exactly when the ledger lists it, and no other status changes. */
  lemma LedgerIsCounterfactual(comps: seq<Comp>, wk: int, services: seq<Service>, ci: nat)
    requires ci < |comps|
    ensures var before, after := CompStatus(comps[ci], wk), CompStatus(Served(comps, wk, services, ci), wk);
            && (before.key == Blocked && after.key == Doable <==> Recovers(comps, wk, services, ci))
            && (before.key != after.key ==> Recovers(comps, wk, services, ci))
  {
    var c, after := comps[ci], Served(comps, wk, services, ci);
    assert after.s == c.s && after.e == c.e && after.offLimits == c.offLimits;
    if Enterable(c, wk) {
      AllSentIff(comps, wk, services, ci);
      if Pending(c, wk) == [] {
        NonePending(c, wk);
        NonePending(after, wk);
      }
    } else {
      assert CompDemands(ci, c, wk) == [];
    }
  }

  function RecoverComps(comps: seq<Comp>, wk: int, services: seq<Service>, ci: nat): seq<Comp>
    decreases |comps| - ci
  {
    if ci >= |comps| then []
    else (if Recovers(comps, wk, services, ci) then [comps[ci]] else []) + RecoverComps(comps, wk, services, ci + 1)
  }

  /** The recovered compartments that were waiting for exactly one service. */
  function SoleRecoverComps(comps: seq<Comp>, wk: int, services: seq<Service>, ci: nat): seq<Comp>
    decreases |comps| - ci
  {
    if ci >= |comps| then []
    else (if Recovers(comps, wk, services, ci) && |CompDemands(ci, comps[ci], wk)| == 1 then [comps[ci]] else [])
         + SoleRecoverComps(comps, wk, services, ci + 1)
  }

  function BlockedComps(comps: seq<Comp>, wk: int, ci: nat): seq<Comp>
    decreases |comps| - ci
  {
    if ci >= |comps| then []
    else (if CompStatus(comps[ci], wk).key == Blocked then [comps[ci]] else []) + BlockedComps(comps, wk, ci + 1)
  }

  // ----- Unlock totals -------------------------------------------------------------------

  function CpDays(c: Comp): int { c.cpDays }
  function ManHours(c: Comp): int { c.mh }

  function OfComp(weight: Comp -> int): Demand -> int {
    (d: Demand) => weight(d.comp)
  }

  /** `cpUnlock` and `mhUnlock` of one service: over what it is sent, the requests that
      fully unlock their compartment. */
  function Unlock(weight: Comp -> int, demands: seq<Demand>, sv: Service): int {
    Sum(OfComp(weight), Filter((d: Demand) => d.fullyUnlocks, Sent(demands, sv)))
  }

  function UnlockTotal(weight: Comp -> int, demands: seq<Demand>, services: seq<Service>): int {
    if services == [] then 0 else Unlock(weight, demands, services[0]) + UnlockTotal(weight, demands, services[1..])
  }

  function Gain(weight: Comp -> int, demands: seq<Demand>, services: seq<Service>): Demand -> int {
    (d: Demand) => if IsSent(demands, services, d) && d.fullyUnlocks then weight(d.comp) else 0
  }

  function Full(weight: Comp -> int): Demand -> int {
    (d: Demand) => if d.fullyUnlocks then weight(d.comp) else 0
  }

  function InList(f: Demand -> int, list: seq<Demand>): Demand -> int {
    (d: Demand) => if d in list then f(d) else 0
  }

  lemma {:induction false} SumPrefixOnly(f: Demand -> int, q: seq<Demand>, n: nat)
    requires NoDup(q) && n <= |q|
    ensures Sum(InList(f, q[..n]), q) == Sum(f, q[..n])
  {
    var g := InList(f, q[..n]);
    assert q == q[..n] + q[n..];
    SumAppend(g, q[..n], q[n..]);
    SumEq(g, f, q[..n]);
    SumZero(g, q[n..]);
  }

  /** One service's unlock total, read as a sum over all of the week's demand. */
  lemma UnlockOverDemand(weight: Comp -> int, demands: seq<Demand>, sv: Service)
    requires NoDup(demands)
    ensures Unlock(weight, demands, sv) == Sum(InList(Full(weight), Sent(demands, sv)), demands)
  {
    var q, sent := Queue(demands, sv.id), Sent(demands, sv);
    var g := InList(Full(weight), sent);
    SumFilter(OfComp(weight), (d: Demand) => d.fullyUnlocks, Full(weight), sent);
    QueueIs(demands, sv.id);
    hide Queue, Filter;
    SumPrefixOnly(Full(weight), q, Cutline(sv, |q|));
    SumPermutation(g, q, ForService(demands, sv.id));
    SumFilter(g, (d: Demand) => d.svc == sv.id, g, demands);
  }

  lemma SentOnce(demands: seq<Demand>, services: seq<Service>, d: Demand)
    requires NoDup(demands) && DistinctServices(services) && services != []
    ensures IsSent(demands, services, d) <==> d in Sent(demands, services[0]) || IsSent(demands, services[1..], d)
    ensures d in Sent(demands, services[0]) ==> !IsSent(demands, services[1..], d)
  {
    hide Queue;
    if IsSent(demands, services, d) {
      var k :| 0 <= k < |services| && d in Sent(demands, services[k]);
      if k > 0 { assert services[1..][k - 1] == services[k]; }
    }
    if IsSent(demands, services[1..], d) {
      var k :| 0 <= k < |services[1..]| && d in Sent(demands, services[1..][k]);
      assert services[k + 1] == services[1..][k];
      QueueIs(demands, services[0].id);
      QueueIs(demands, services[k + 1].id);
    }
  }

  lemma {:induction false} UnlockTotalOverDemand(weight: Comp -> int, demands: seq<Demand>, services: seq<Service>)
    requires NoDup(demands) && DistinctServices(services)
    ensures UnlockTotal(weight, demands, services) == Sum(Gain(weight, demands, services), demands)
  {
    if services == [] {
      forall d ensures Gain(weight, demands, services)(d) == 0 {
        assert !IsSent(demands, services, d);
      }
      SumZero(Gain(weight, demands, services), demands);
    } else {
      UnlockOverDemand(weight, demands, services[0]);
      UnlockTotalOverDemand(weight, demands, services[1..]);
      var one := InList(Full(weight), Sent(demands, services[0]));
      forall d ensures Gain(weight, demands, services)(d) == one(d) + Gain(weight, demands, services[1..])(d) {
        SentOnce(demands, services, d);
      }
      hide Unlock, IsSent, Sent, Gain, InList;
      SumAdd(one, Gain(weight, demands, services[1..]), Gain(weight, demands, services), demands);
    }
  }

  lemma PendingCounts(ci: nat, c: Comp, wk: int, ri: nat, k: nat)
    requires ri < |c.req| && PendingReq(wk, c.req[ri])
    ensures |DemandsFrom(ci, c, wk, k)| == OthersPending(c, wk, ri, k) + if k <= ri then 1 else 0
    decreases |c.req| - k
  {
    if k < |c.req| {
      PendingCounts(ci, c, wk, ri, k + 1);
    }
  }

  /** A request fully unlocks its compartment exactly when it is the only one pending. */
  lemma FullyUnlocksIff(comps: seq<Comp>, wk: int, ci: nat, d: Demand)
    requires ci < |comps| && d in CompDemands(ci, comps[ci], wk)
    ensures d.fullyUnlocks <==> |CompDemands(ci, comps[ci], wk)| == 1
  {
    OwnDemands(comps, wk, ci);
    hide CompStatus, DemandsFrom, OthersPending;
    PendingCounts(ci, comps[ci], wk, d.ri, 0);
  }

  lemma GainOfComp(weight: Comp -> int, comps: seq<Comp>, wk: int, services: seq<Service>, ci: nat)
    requires ci < |comps|
    ensures var own := CompDemands(ci, comps[ci], wk);
            Sum(Gain(weight, Demands(comps, wk, 0), services), own)
            == if Recovers(comps, wk, services, ci) && |own| == 1 then weight(comps[ci]) else 0
  {
    var own, gain := CompDemands(ci, comps[ci], wk), Gain(weight, Demands(comps, wk, 0), services);
    OwnDemands(comps, wk, ci);
    hide CompDemands, IsSent, Enterable, OthersPending, Demands;
    if |own| == 1 {
      FullyUnlocksIff(comps, wk, ci, own[0]);
      assert own == [own[0]];
      assert Sum(gain, own) == gain(own[0]);
    } else {
      forall d | d in own ensures gain(d) == 0 {
        FullyUnlocksIff(comps, wk, ci, d);
      }
      SumZero(gain, own);
    }
  }

  lemma {:induction false} GainOverComps(
      weight: Comp -> int, comps: seq<Comp>, wk: int, services: seq<Service>, ci: nat)
    ensures Sum(Gain(weight, Demands(comps, wk, 0), services), Demands(comps, wk, ci))
         == Sum(weight, SoleRecoverComps(comps, wk, services, ci))
    decreases |comps| - ci
  {
    if ci < |comps| {
      var gain := Gain(weight, Demands(comps, wk, 0), services);
      GainOverComps(weight, comps, wk, services, ci + 1);
      GainOfComp(weight, comps, wk, services, ci);
      SumAppend(gain, CompDemands(ci, comps[ci], wk), Demands(comps, wk, ci + 1));
      hide CompDemands, Recovers, Gain;
      SumOptional(weight, Recovers(comps, wk, services, ci) && |CompDemands(ci, comps[ci], wk)| == 1, comps[ci],
                  SoleRecoverComps(comps, wk, services, ci + 1));
    }
  }

  lemma SumOptional(weight: Comp -> int, listed: bool, c: Comp, rest: seq<Comp>)
    ensures Sum(weight, (if listed then [c] else []) + rest) == (if listed then weight(c) else 0) + Sum(weight, rest)
  {
    SumAppend(weight, if listed then [c] else [], rest);
  }

  /** Summed over the services, the unlock figures are those of the recovered
      compartments that waited for one service only: no compartment is credited to two
      services, and none that stays blocked is credited at all. */
  lemma UnlocksAreSoleRecoveries(weight: Comp -> int, comps: seq<Comp>, wk: int, services: seq<Service>)
    requires DistinctServices(services)
    ensures UnlockTotal(weight, Demands(comps, wk, 0), services)
            == Sum(weight, SoleRecoverComps(comps, wk, services, 0))
  {
    DemandsNoDup(comps, wk, 0);
    UnlockTotalOverDemand(weight, Demands(comps, wk, 0), services);
    GainOverComps(weight, comps, wk, services, 0);
  }

  lemma {:induction false} LedgerChain(weight: Comp -> int, comps: seq<Comp>, wk: int, services: seq<Service>, ci: nat)
    requires forall c :: weight(c) >= 0
    ensures Sum(weight, SoleRecoverComps(comps, wk, services, ci)) <= Sum(weight, RecoverComps(comps, wk, services, ci))
    ensures Sum(weight, RecoverComps(comps, wk, services, ci)) <= Sum(weight, BlockedComps(comps, wk, ci))
    decreases |comps| - ci
  {
    if ci < |comps| {
      LedgerChain(weight, comps, wk, services, ci + 1);
      LedgerIsCounterfactual(comps, wk, services, ci);
      var c := comps[ci];
      var recovers, sole := Recovers(comps, wk, services, ci), |CompDemands(ci, c, wk)| == 1;
      hide Recovers, CompStatus, CompDemands;
      SumOptional(weight, recovers && sole, c, SoleRecoverComps(comps, wk, services, ci + 1));
      SumOptional(weight, recovers, c, RecoverComps(comps, wk, services, ci + 1));
      SumOptional(weight, CompStatus(c, wk).key == Blocked, c, BlockedComps(comps, wk, ci + 1));
    }
  }

  /** No overselling: what the services claim to unlock is at most what the ledger says
      recovers, and that is at most what stands idle. */
  lemma UnlocksWithinLedger(comps: seq<Comp>, wk: int, services: seq<Service>)
    requires DistinctServices(services)
    ensures var demands := Demands(comps, wk, 0);
            && UnlockTotal(CpDays, demands, services) <= Sum(CpDays, RecoverComps(comps, wk, services, 0))
            && UnlockTotal(ManHours, demands, services) <= Sum(ManHours, RecoverComps(comps, wk, services, 0))
            && Sum(ManHours, RecoverComps(comps, wk, services, 0)) <= Sum(ManHours, BlockedComps(comps, wk, 0))
  {
    UnlocksAreSoleRecoveries(CpDays, comps, wk, services);
    UnlocksAreSoleRecoveries(ManHours, comps, wk, services);
    LedgerChain(CpDays, comps, wk, services, 0);
    LedgerChain(ManHours, comps, wk, services, 0);
  }

  // ----- The request objects the queues mark in place --------------------------------------

  class Request {
    const d: Demand
    var dispatch: bool

    constructor (d: Demand)
      ensures this.d == d && !dispatch
    {
      this.d := d;
      dispatch := false;
    }
  }

  function Values(pending: seq<Request>): (values: seq<Demand>)
    ensures |values| == |pending| && forall i :: 0 <= i < |pending| ==> values[i] == pending[i].d
  {
    seq(|pending|, i requires 0 <= i < |pending| => pending[i].d)
  }

  /** The objects stand for `demands`, one each, in order. */
  ghost predicate StandFor(pending: seq<Request>, demands: seq<Demand>) {
    Values(pending) == demands && NoDup(demands)
  }

  ghost predicate Unmarked(pending: seq<Request>)
    reads pending
  {
    forall r :: r in pending ==> !r.dispatch
  }

  /** The request objects of one enterable compartment. */
  method BuildFor(ci: nat, c: Comp, wk: int) returns (added: seq<Request>)
    ensures Values(added) == DemandsFrom(ci, c, wk, 0) && Unmarked(added)
    ensures forall r :: r in added ==> fresh(r)
  {
    hide OthersPending;
    added := [];
    for ri := 0 to |c.req|
      invariant Values(added) + DemandsFrom(ci, c, wk, ri) == DemandsFrom(ci, c, wk, 0)
      invariant Unmarked(added) && forall r :: r in added ==> fresh(r)
    {
      if wk < c.req[ri].clearWk {
        var r := new Request(DemandAt(ci, c, wk, ri));
        assert Values(added + [r]) == Values(added) + [r.d];
        added := added + [r];
      }
    }
  }

  /** Builds `pendingReqs`: a request object for every pending service of every active,
      enterable compartment. */
  method BuildPending(comps: seq<Comp>, wk: int) returns (pending: seq<Request>)
    ensures StandFor(pending, Demands(comps, wk, 0)) && Unmarked(pending)
    ensures forall r :: r in pending ==> fresh(r)
  {
    hide CompStatus, NoDup, DemandsFrom;
    pending := [];
    for ci := 0 to |comps|
      invariant Values(pending) + Demands(comps, wk, ci) == Demands(comps, wk, 0)
      invariant Unmarked(pending) && forall r :: r in pending ==> fresh(r)
    {
      var c := comps[ci];
      if !CompStatus(c, wk).active || c.offLimits {
        continue;
      }
      var added := BuildFor(ci, c, wk);
      assert Values(pending + added) == Values(pending) + Values(added);
      pending := pending + added;
    }
    DemandsNoDup(comps, wk, 0);
  }

  /** Marks one service's sorted requests: sent down to the cutline, queued past it. */
  method MarkQueue(
      sv: Service, reqs: seq<Demand>, pending: seq<Request>, ref: map<Demand, Request>, ghost demands: seq<Demand>)
    requires StandFor(pending, demands) && reqs == Queue(demands, sv.id)
    requires forall r :: r in pending ==> r.d in ref && ref[r.d] == r
    modifies pending
    ensures forall r :: r in pending ==>
              r.dispatch == if r.d.svc == sv.id then r.d in Sent(demands, sv) else old(r.dispatch)
  {
    hide *;
    ghost var marked: set<Demand> := {};
    for i := 0 to |reqs|
      invariant forall j :: 0 <= j < i ==> reqs[j] in marked
      invariant forall d :: d in marked ==> d in reqs
      invariant forall r :: r in pending ==>
                  r.dispatch == if r.d in marked then r.d in Sent(demands, sv) else old(r.dispatch)
    {
      InQueue(pending, demands, sv, i);
      ref[reqs[i]].dispatch := i < sv.cap;
      marked := marked + {reqs[i]};
    }
    AllMarked(pending, demands, sv, marked);
  }

  lemma InQueue(pending: seq<Request>, demands: seq<Demand>, sv: Service, i: nat)
    requires StandFor(pending, demands) && i < |Queue(demands, sv.id)|
    ensures exists r :: r in pending && r.d == Queue(demands, sv.id)[i]
    ensures Queue(demands, sv.id)[i] in Sent(demands, sv) <==> i < sv.cap
  {
    QueueIs(demands, sv.id);
    SentIffAbove(demands, sv, i);
    hide Queue, Sent;
    var d := Queue(demands, sv.id)[i];
    assert d in Queue(demands, sv.id);
    OneObject(pending, demands, d);
  }

  lemma AllMarked(pending: seq<Request>, demands: seq<Demand>, sv: Service, marked: set<Demand>)
    requires StandFor(pending, demands)
    requires forall j :: 0 <= j < |Queue(demands, sv.id)| ==> Queue(demands, sv.id)[j] in marked
    requires forall d :: d in marked ==> d in Queue(demands, sv.id)
    ensures forall r :: r in pending ==> (r.d in marked <==> r.d.svc == sv.id)
  {
    QueueIs(demands, sv.id);
    hide Queue;
    var reqs := Queue(demands, sv.id);
    forall r | r in pending && r.d.svc == sv.id ensures r.d in marked {
      ValueListed(pending, r);
      var j :| 0 <= j < |reqs| && reqs[j] == r.d;
    }
  }

  lemma ValueListed(pending: seq<Request>, r: Request)
    requires r in pending
    ensures r.d in Values(pending)
  {
    var i :| 0 <= i < |pending| && pending[i] == r;
    assert Values(pending)[i] == r.d;
  }

  lemma OneObject(pending: seq<Request>, demands: seq<Demand>, d: Demand)
    requires StandFor(pending, demands) && d in demands
    ensures exists r :: r in pending && r.d == d
  {
    var i :| 0 <= i < |demands| && demands[i] == d;
    assert pending[i] in pending;
  }

  lemma SentIffAbove(demands: seq<Demand>, sv: Service, i: nat)
    requires NoDup(demands) && i < |Queue(demands, sv.id)|
    ensures Queue(demands, sv.id)[i] in Sent(demands, sv) <==> i < sv.cap
  {
    QueueIs(demands, sv.id);
    hide Queue;
    var q := Queue(demands, sv.id);
    var cut := Cutline(sv, |q|);
    if i < cut { assert q[..cut][i] == q[i]; }
    if q[i] in q[..cut] {
      var j :| 0 <= j < cut && q[j] == q[i];
    }
  }

  /** The whole dispatch: afterwards a request object is marked exactly when it is
      among the best its service has teams for. */
  method ServiceQueues(services: seq<Service>, pending: seq<Request>, ghost demands: seq<Demand>)
    requires StandFor(pending, demands) && Unmarked(pending) && DistinctServices(services)
    modifies pending
    ensures forall r :: r in pending ==> (r.dispatch <==> IsSent(demands, services, r.d))
  {
    hide Sent, Queue;
    var ref: map<Demand, Request> := map[];
    for i := 0 to |pending|
      invariant forall j :: 0 <= j < i ==> pending[j].d in ref && ref[pending[j].d] == pending[j]
    {
      assert forall j :: 0 <= j < i ==> Values(pending)[j] != Values(pending)[i];
      ref := ref[pending[i].d := pending[i]];
    }
    for k := 0 to |services|
      invariant forall r :: r in pending ==> (r.dispatch <==> IsSent(demands, services[..k], r.d))
    {
      var reqs := Queue(Values(pending), services[k].id);
      MarkQueue(services[k], reqs, pending, ref, demands);
      forall d ensures IsSent(demands, services[..k + 1], d) <==>
                         if d.svc == services[k].id
                         then d in Sent(demands, services[k])
                         else IsSent(demands, services[..k], d)
      {
        SentUpTo(demands, services, k, d);
      }
    }
    assert services[..|services|] == services;
  }

  lemma SentUpTo(demands: seq<Demand>, services: seq<Service>, k: nat, d: Demand)
    requires NoDup(demands) && DistinctServices(services) && k < |services|
    ensures IsSent(demands, services[..k + 1], d) <==>
              if d.svc == services[k].id then d in Sent(demands, services[k]) else IsSent(demands, services[..k], d)
  {
    hide Queue;
    forall j | 0 <= j <= k && d in Sent(demands, services[j]) ensures d.svc == services[j].id {
      QueueIs(demands, services[j].id);
    }
    if IsSent(demands, services[..k + 1], d) {
      var j :| 0 <= j < k + 1 && d in Sent(demands, services[..k + 1][j]);
      assert services[..k + 1][j] == services[j];
      if j < k { assert services[..k][j] == services[j]; }
    }
    if IsSent(demands, services[..k], d) {
      var j :| 0 <= j < k && d in Sent(demands, services[..k][j]);
      assert services[..k + 1][j] == services[j];
    }
    if d in Sent(demands, services[k]) { assert services[..k + 1][k] == services[k]; }
  }

  // ----- The recovery ledger ---------------------------------------------------------------

  ghost predicate UniqueCompIds(comps: seq<Comp>) {
    forall i, j :: 0 <= i < j < |comps| ==> comps[i].id != comps[j].id
  }

  lemma SameCompId(comps: seq<Comp>, i: nat, j: nat)
    requires UniqueCompIds(comps) && i < |comps| && j < |comps| && comps[i].id == comps[j].id
    ensures i == j
  {
    if i < j || j < i { assert false; }
  }

  /** `byComp`: the request objects grouped by compartment id, keys in first-seen order. */
  ghost predicate Grouped(pending: seq<Request>, n: nat, byComp: map<string, seq<Request>>, keys: seq<string>) {
    && n <= |pending| && NoDup(keys)
    && (forall id :: id in keys <==> id in byComp)
    && (forall id :: id in byComp ==>
        byComp[id] != [] && forall r :: r in byComp[id] ==> r in pending && r.d.comp.id == id)
    && (forall j :: 0 <= j < n ==> pending[j].d.comp.id in byComp && pending[j] in byComp[pending[j].d.comp.id])
  }

  /** The keys in the order they were first seen, and each group in the order of the
      requests. */
  ghost predicate InOrder(pending: seq<Request>, n: nat, byComp: map<string, seq<Request>>, keys: seq<string>) {
    && n <= |pending| && keys == FirstSeen(Values(pending[..n]))
    && (forall id :: id in byComp <==> id in keys)
    && (forall id :: id in byComp ==> Values(byComp[id]) == Filter(OfId(id), Values(pending[..n])))
  }

  function OfId(id: string): Demand -> bool {
    (d: Demand) => d.comp.id == id
  }

  /** The compartments of a list of requests, in the order they first occur. */
  function FirstSeen(demands: seq<Demand>): seq<string> {
    if demands == [] then []
    else
      var n := |demands| - 1;
      var before, id := FirstSeen(demands[..n]), demands[n].comp.id;
      if id in before then before else before + [id]
  }

  method GroupByComp(pending: seq<Request>) returns (byComp: map<string, seq<Request>>, keys: seq<string>)
    ensures Grouped(pending, |pending|, byComp, keys) && InOrder(pending, |pending|, byComp, keys)
  {
    byComp, keys := map[], [];
    hide InOrder;
    NothingInOrder(pending);
    for i := 0 to |pending|
      invariant Grouped(pending, i, byComp, keys) && InOrder(pending, i, byComp, keys)
    {
      var r := pending[i];
      var id := r.d.comp.id;
      OneMoreInOrder(pending, i, byComp, keys);
      if id !in byComp {
        byComp, keys := byComp[id := []], keys + [id];
      }
      byComp := byComp[id := byComp[id] + [r]];
    }
  }

  lemma {:induction false} SeenIff(demands: seq<Demand>, id: string)
    ensures id in FirstSeen(demands) <==> exists d :: d in demands && d.comp.id == id
  {
    if demands != [] {
      var n := |demands| - 1;
      SeenIff(demands[..n], id);
      assert demands == demands[..n] + [demands[n]];
      assert demands[n] in demands;
    }
  }

  lemma NothingInOrder(pending: seq<Request>)
    ensures InOrder(pending, 0, map[], [])
  {
  }

  lemma OneMoreInOrder(pending: seq<Request>, i: nat, byComp: map<string, seq<Request>>, keys: seq<string>)
    requires i < |pending| && InOrder(pending, i, byComp, keys)
    ensures var r := pending[i];
            var id := r.d.comp.id;
            if id in byComp then InOrder(pending, i + 1, byComp[id := byComp[id] + [r]], keys)
            else InOrder(pending, i + 1, byComp[id := []][id := [] + [r]], keys + [id])
  {
    hide FirstSeen, Filter, OfId, Values;
    GroupStep(pending, i);
    var r := pending[i];
    var id := r.d.comp.id;
    var was, now := Values(pending[..i]), Values(pending[..i + 1]);
    var group := if id in byComp then byComp[id] else [];
    ValuesSnoc(group, r);
    var next := if id in byComp then byComp[id := byComp[id] + [r]] else byComp[id := []][id := [] + [r]];
    forall k | k in next ensures Values(next[k]) == Filter(OfId(k), now) {
      if k == id {
        assert next[k] == group + [r];
      } else {
        assert next[k] == byComp[k];
      }
    }
  }

  lemma ValuesSnoc(group: seq<Request>, r: Request)
    ensures Values(group + [r]) == Values(group) + [r.d] && Values([]) == []
  {
  }

  lemma GroupStep(pending: seq<Request>, i: nat)
    requires i < |pending|
    ensures var r := pending[i]; var was, now := Values(pending[..i]), Values(pending[..i + 1]);
            && now == was + [r.d]
            && FirstSeen(now) == (if r.d.comp.id in FirstSeen(was) then FirstSeen(was)
                                  else FirstSeen(was) + [r.d.comp.id])
            && (r.d.comp.id !in FirstSeen(was) ==> Filter(OfId(r.d.comp.id), was) == [])
            && (forall id :: Filter(OfId(id), now) == Filter(OfId(id), was) + if id == r.d.comp.id then [r.d] else [])
    ensures Values([]) == []
  {
    assert Values(pending[..i + 1]) == Values(pending[..i]) + [pending[i].d];
    hide Values, FirstSeen, Filter, OfId;
    OneMoreDemand(Values(pending[..i]), pending[i].d);
  }

  lemma OneMoreDemand(was: seq<Demand>, d: Demand)
    ensures var now := was + [d];
            && FirstSeen(now) == (if d.comp.id in FirstSeen(was) then FirstSeen(was) else FirstSeen(was) + [d.comp.id])
            && (d.comp.id !in FirstSeen(was) ==> Filter(OfId(d.comp.id), was) == [])
            && (forall id :: Filter(OfId(id), now) == Filter(OfId(id), was) + if id == d.comp.id then [d] else [])
  {
    hide *;
    FirstSeenStep(was, d);
    UnseenHasNone(was, d.comp.id);
    forall id ensures Filter(OfId(id), was + [d]) == Filter(OfId(id), was) + if id == d.comp.id then [d] else [] {
      GroupOfOneMore(was, d, id);
    }
  }

  lemma FirstSeenStep(was: seq<Demand>, d: Demand)
    ensures FirstSeen(was + [d]) == if d.comp.id in FirstSeen(was) then FirstSeen(was) else FirstSeen(was) + [d.comp.id]
  {
    assert (was + [d])[..|was|] == was;
  }

  lemma UnseenHasNone(was: seq<Demand>, id: string)
    ensures id !in FirstSeen(was) ==> Filter(OfId(id), was) == []
  {
    SeenIff(was, id);
    hide FirstSeen;
    if Filter(OfId(id), was) != [] {
      assert Filter(OfId(id), was)[0] in Filter(OfId(id), was);
    }
  }

  lemma GroupOfOneMore(was: seq<Demand>, d: Demand, id: string)
    ensures Filter(OfId(id), was + [d]) == Filter(OfId(id), was) + if id == d.comp.id then [d] else []
  {
    hide Filter;
    FilterAppend(OfId(id), was, [d]);
    FilterOne(OfId(id), d);
  }

  lemma RecoversIff(comps: seq<Comp>, wk: int, services: seq<Service>, ci: nat, group: seq<Demand>)
    requires UniqueCompIds(comps) && ci < |comps| && group != []
    requires forall d :: d in group <==> d in Demands(comps, wk, 0) && d.comp.id == comps[ci].id
    ensures Recovers(comps, wk, services, ci) <==> forall d :: d in group ==> IsSent(Demands(comps, wk, 0), services, d)
  {
    OwnDemands(comps, wk, ci);
    hide CompDemands, Demands, IsSent, Enterable, OthersPending;
    var own := CompDemands(ci, comps[ci], wk);
    forall d ensures d in group <==> d in own {
      DemandsAre(comps, wk, 0, d);
      if d in group {
        SameCompId(comps, d.ci, ci);
      }
    }
    assert group[0] in own;
  }

  /** A compartment is pushed when all of its grouped requests are marked; the result
      is, each once, the compartments that recover. */
  method RecoveryLedger(comps: seq<Comp>, wk: int, services: seq<Service>, pending: seq<Request>)
    returns (recover: seq<Comp>)
    requires UniqueCompIds(comps) && StandFor(pending, Demands(comps, wk, 0))
    requires forall r :: r in pending ==> (r.dispatch <==> IsSent(Demands(comps, wk, 0), services, r.d))
    ensures NoDup(recover)
    ensures forall c :: c in recover <==>
            exists ci :: 0 <= ci < |comps| && comps[ci] == c && Recovers(comps, wk, services, ci)
  {
    hide Recovers, IsSent, Demands, Grouped, InOrder;
    var byComp, keys := GroupByComp(pending);
    recover := [];
    for k := 0 to |keys|
      invariant NoDup(recover)
      invariant forall c :: c in recover ==> c.id in keys[..k]
      invariant forall c :: c in recover ==>
                exists ci :: 0 <= ci < |comps| && comps[ci] == c && Recovers(comps, wk, services, ci)
      invariant forall ci :: 0 <= ci < |comps| && comps[ci].id in keys[..k] && Recovers(comps, wk, services, ci) ==>
                comps[ci] in recover
    {
      KeyInMap(pending, byComp, keys, k);
      var ps := byComp[keys[k]];
      var all := forall r: Request | r in ps :: r.dispatch;
      var ci := GroupIsComp(comps, wk, services, pending, byComp, keys, k);
      NextKey(pending, byComp, keys, k, comps, ci);
      if all {
        recover := recover + [ps[0].d.comp];
      }
    }
    assert keys[..|keys|] == keys;
    forall ci | 0 <= ci < |comps| && Recovers(comps, wk, services, ci) ensures comps[ci] in recover {
      RecoveringIsKeyed(comps, wk, services, pending, byComp, keys, ci);
    }
  }

  lemma KeyInMap(pending: seq<Request>, byComp: map<string, seq<Request>>, keys: seq<string>, k: nat)
    requires Grouped(pending, |pending|, byComp, keys) && k < |keys|
    ensures keys[k] in byComp && byComp[keys[k]] != []
    ensures forall r :: r in byComp[keys[k]] ==> r in pending
  {
    assert keys[k] in keys;
  }

  lemma NextKey(
      pending: seq<Request>, byComp: map<string, seq<Request>>, keys: seq<string>, k: nat, comps: seq<Comp>, ci: nat)
    requires Grouped(pending, |pending|, byComp, keys) && k < |keys|
    requires UniqueCompIds(comps) && ci < |comps| && comps[ci].id == keys[k]
    ensures keys[k] !in keys[..k] && keys[..k + 1] == keys[..k] + [keys[k]]
    ensures forall i :: 0 <= i < |comps| && comps[i].id == keys[k] ==> i == ci
  {
  }

  /** The group under a key is one compartment's demand, and is all marked exactly when
      that compartment recovers. */
  lemma GroupIsComp(
      comps: seq<Comp>, wk: int, services: seq<Service>, pending: seq<Request>, byComp: map<string, seq<Request>>,
      keys: seq<string>, k: nat) returns (ci: nat)
    requires UniqueCompIds(comps) && StandFor(pending, Demands(comps, wk, 0))
    requires Grouped(pending, |pending|, byComp, keys) && k < |keys| && keys[k] in byComp && byComp[keys[k]] != []
    requires forall r :: r in pending ==> (r.dispatch <==> IsSent(Demands(comps, wk, 0), services, r.d))
    ensures ci < |comps| && comps[ci].id == keys[k] && byComp[keys[k]][0].d.comp == comps[ci]
    ensures Recovers(comps, wk, services, ci) <==> forall r :: r in byComp[keys[k]] ==> r.dispatch
  {
    hide Recovers, IsSent, Demands, OthersPending, Enterable;
    var ps, demands := byComp[keys[k]], Demands(comps, wk, 0);
    assert ps[0] in ps;
    ValueListed(pending, ps[0]);
    DemandsAre(comps, wk, 0, ps[0].d);
    ci := ps[0].d.ci;
    var group := Values(ps);
    forall d ensures d in group <==> d in demands && d.comp.id == keys[k] {
      if d in group {
        var i :| 0 <= i < |ps| && ps[i].d == d;
        assert ps[i] in ps;
        ValueListed(pending, ps[i]);
      }
      if d in demands && d.comp.id == keys[k] {
        var j :| 0 <= j < |demands| && demands[j] == d;
        ValueListed(ps, pending[j]);
      }
    }
    RecoversIff(comps, wk, services, ci, group);
    forall r | r in ps ensures r.d in group {
      ValueListed(ps, r);
    }
    forall d | d in group ensures exists r :: r in ps && r.d == d {
      var i :| 0 <= i < |ps| && ps[i].d == d;
      assert ps[i] in ps;
    }
  }

  lemma RecoveringIsKeyed(
      comps: seq<Comp>, wk: int, services: seq<Service>, pending: seq<Request>, byComp: map<string, seq<Request>>,
      keys: seq<string>, ci: nat)
    requires StandFor(pending, Demands(comps, wk, 0)) && Grouped(pending, |pending|, byComp, keys)
    requires ci < |comps| && Recovers(comps, wk, services, ci)
    ensures comps[ci].id in keys
  {
    OwnDemands(comps, wk, ci);
    hide CompDemands, Demands, IsSent, Enterable, OthersPending;
    var own, demands := CompDemands(ci, comps[ci], wk), Demands(comps, wk, 0);
    assert own[0] in own;
    DemandsAre(comps, wk, 0, own[0]);
    var j :| 0 <= j < |demands| && demands[j] == own[0];
    assert pending[j].d == own[0];
  }

  lemma {:induction false} RecoverCompsAre(comps: seq<Comp>, wk: int, services: seq<Service>, ci: nat)
    requires UniqueCompIds(comps)
    ensures NoDup(RecoverComps(comps, wk, services, ci))
    ensures forall c :: c in RecoverComps(comps, wk, services, ci) <==>
              exists i :: ci <= i < |comps| && comps[i] == c && Recovers(comps, wk, services, i)
    decreases |comps| - ci
  {
    hide Recovers;
    if ci < |comps| {
      RecoverCompsAre(comps, wk, services, ci + 1);
      forall i | ci + 1 <= i < |comps| ensures comps[i] != comps[ci] {
        assert comps[ci].id != comps[i].id;
      }
      var rest := RecoverComps(comps, wk, services, ci + 1);
      NoDupConcat(if Recovers(comps, wk, services, ci) then [comps[ci]] else [], rest);
    }
  }

  /** The ledger's totals are those of the recovering compartments, however the grouping
      ordered them. */
  lemma LedgerTotal(weight: Comp -> int, comps: seq<Comp>, wk: int, services: seq<Service>, recover: seq<Comp>)
    requires UniqueCompIds(comps) && NoDup(recover) && forall c :: weight(c) >= 0
    requires forall c :: c in recover <==>
             exists ci :: 0 <= ci < |comps| && comps[ci] == c && Recovers(comps, wk, services, ci)
    ensures Sum(weight, recover) == Sum(weight, RecoverComps(comps, wk, services, 0))
  {
    RecoverCompsAre(comps, wk, services, 0);
    hide RecoverComps, Recovers;
    SumSubset(weight, recover, RecoverComps(comps, wk, services, 0));
    SumSubset(weight, RecoverComps(comps, wk, services, 0), recover);
  }
}
