/** Counterfactuals over the engine: what cutting a coupling, discharging a hazard
    or waiting does to the verdict on a space. */
module Mitigation {
  import opened Sequences
  import opened Cascade
  import opened Decision

  predicate Cut(e: CouplingEdge, from: CompartmentNo, to: CompartmentNo, coupling: string) {
    e.code == coupling && ((e.from == from && e.to == to) || (e.from == to && e.to == from))
  }

  /** Closing a coupling, whichever way it was flowing. */
  function Interrupt(
      req: EvaluationRequest, from: CompartmentNo, to: CompartmentNo, coupling: string): EvaluationRequest {
    req.(graph := AdjacencyGraph(Filter((e: CouplingEdge) => !Cut(e, from, to, coupling), req.graph.edges)))
  }

  /** Ending the condition at its source. */
  function Discharge(req: EvaluationRequest, origin: CompartmentNo, name: string): EvaluationRequest {
    req.(hazards := Filter((h: Hazard) => !(h.origin == origin && h.name == name), req.hazards))
  }

  /** Letting the clock run. */
  function Wait(req: EvaluationRequest, until: Timestamp): EvaluationRequest {
    req.(at := until)
  }

  /** `w` does not run between the two spaces, in either direction, by this coupling. */
  predicate Spared(w: seq<CouplingEdge>, from: CompartmentNo, to: CompartmentNo, coupling: string) {
    forall i :: 0 <= i < |w| ==> !(w[i].code == coupling && {w[i].from, w[i].to} == {from, to})
  }

  /** Exactly what an interruption leaves: the rules that still reach the space some way that
      does not cross between the two by that coupling. */
  lemma InterruptFires(
      req: EvaluationRequest, from: CompartmentNo, to: CompartmentNo, coupling: string,
      hazard: Hazard, entry: RuleEntry)
    ensures Fires(Interrupt(req, from, to, coupling), hazard, entry) <==>
              Fires(req, hazard, entry) && exists w :: ReachedBy(req, hazard, entry, w) && Spared(w, from, to, coupling)
  {
    hide Live;
    var cut := Interrupt(req, from, to, coupling);
    if w :| ReachedBy(cut, hazard, entry, w) {
      CutWalk(req, from, to, coupling, hazard, entry, w);
    }
    if w :| ReachedBy(req, hazard, entry, w) && Spared(w, from, to, coupling) {
      SparedWalk(req, from, to, coupling, hazard, entry, w);
    }
    hide ReachedBy, Spared;
    assert cut.hazards == req.hazards && cut.rules == req.rules && cut.at == req.at;
  }

  lemma CutIff(e: CouplingEdge, from: CompartmentNo, to: CompartmentNo, coupling: string)
    ensures Cut(e, from, to, coupling) <==> !Spared([e], from, to, coupling)
  {
    assert [e][0] == e;
    assert e.from in {e.from, e.to} && e.to in {e.from, e.to};
    if {e.from, e.to} == {from, to} {
      assert from in {e.from, e.to} && to in {e.from, e.to} && e.from in {from, to} && e.to in {from, to};
    }
  }

  lemma CutWalk(
      req: EvaluationRequest, from: CompartmentNo, to: CompartmentNo, coupling: string,
      hazard: Hazard, entry: RuleEntry, w: seq<CouplingEdge>)
    requires ReachedBy(Interrupt(req, from, to, coupling), hazard, entry, w)
    ensures ReachedBy(req, hazard, entry, w) && Spared(w, from, to, coupling)
  {
    var cut := Interrupt(req, from, to, coupling);
    if entry.applies.Coupled? {
      var bound := TraversalBound(entry.applies.maxHops, Some(entry.applies.code));
      AdmissibleMonotone(cut.graph, req.graph, hazard.origin, bound, w);
      forall i | 0 <= i < |w| ensures Spared([w[i]], from, to, coupling) {
        AdmissibleLast(cut.graph, hazard.origin, bound, w, i);
        CutIff(w[i], from, to, coupling);
      }
      hide Admissible;
      assert forall i :: 0 <= i < |w| ==> [w[i]][0] == w[i];
    }
  }

  lemma SparedWalk(
      req: EvaluationRequest, from: CompartmentNo, to: CompartmentNo, coupling: string,
      hazard: Hazard, entry: RuleEntry, w: seq<CouplingEdge>)
    requires ReachedBy(req, hazard, entry, w) && Spared(w, from, to, coupling)
    ensures ReachedBy(Interrupt(req, from, to, coupling), hazard, entry, w)
  {
    var cut := Interrupt(req, from, to, coupling);
    if entry.applies.Coupled? {
      var bound := TraversalBound(entry.applies.maxHops, Some(entry.applies.code));
      forall i | 0 <= i < |w| ensures w[i] in cut.graph.edges {
        AdmissibleLast(req.graph, hazard.origin, bound, w, i);
        CutIff(w[i], from, to, coupling);
      }
      SameWalk(req.graph, cut.graph, hazard.origin, bound, w);
    }
  }

  /** Exactly what a discharge leaves: the rules that fire on other hazards, told apart by
      where they are and what they are called. */
  lemma DischargeFires(req: EvaluationRequest, origin: CompartmentNo, name: string, hazard: Hazard, entry: RuleEntry)
    ensures Fires(Discharge(req, origin, name), hazard, entry) <==>
              Fires(req, hazard, entry) && (hazard.origin, hazard.name) != (origin, name)
  {
    hide Live;
    var gone := Discharge(req, origin, name);
    forall w ensures ReachedBy(gone, hazard, entry, w) <==> ReachedBy(req, hazard, entry, w) {
      hide Admissible;
    }
    hide ReachedBy;
    if w :| ReachedBy(req, hazard, entry, w) {
      assert ReachedBy(gone, hazard, entry, w);
    }
  }

  /** Interrupting a path never makes any space worse. */
  lemma InterruptNeverWorsens(
      req: EvaluationRequest, from: CompartmentNo, to: CompartmentNo, coupling: string, before: Verdict, after: Verdict)
    requires IsVerdict(req, before) && IsVerdict(Interrupt(req, from, to, coupling), after)
    ensures after.state.Severity() <= before.state.Severity()
  {
    hide IsVerdict, Fires;
    var cut := Interrupt(req, from, to, coupling);
    forall hazard, entry | Fires(cut, hazard, entry) ensures Fires(req, hazard, entry) {
      InterruptFires(req, from, to, coupling, hazard, entry);
    }
    FewerFiringsNoWorse(cut, req, after, before);
  }

  /** Discharging a hazard never makes any space worse. */
  lemma DischargeNeverWorsens(
      req: EvaluationRequest, origin: CompartmentNo, name: string, before: Verdict, after: Verdict)
    requires IsVerdict(req, before) && IsVerdict(Discharge(req, origin, name), after)
    ensures after.state.Severity() <= before.state.Severity()
  {
    hide IsVerdict, Fires;
    var gone := Discharge(req, origin, name);
    forall hazard, entry | Fires(gone, hazard, entry) ensures Fires(req, hazard, entry) {
      DischargeFires(req, origin, name, hazard, entry);
    }
    FewerFiringsNoWorse(gone, req, after, before);
  }

  /** Waiting is the exception: it worsens a space only by a hazard raised meanwhile. */
  lemma WaitWorsensOnlyByNewHazard(req: EvaluationRequest, until: Timestamp, before: Verdict, after: Verdict)
    requires IsVerdict(req, before) && IsVerdict(Wait(req, until), after)
    requires req.at <= until && NonNegativeHolds(req.rules)
    requires forall h :: h in req.hazards && h.since <= until ==> h.since <= req.at
    ensures after.state.Severity() <= before.state.Severity()
  {
    hide IsVerdict;
    var later := Wait(req, until);
    forall hazard, entry | Fires(later, hazard, entry) ensures Fires(req, hazard, entry) {
      LiveIsInterval(entry, hazard, until);
      LiveIsInterval(entry, hazard, req.at);
      hide Live, Expiry;
      var w :| ReachedBy(later, hazard, entry, w);
      assert ReachedBy(req, hazard, entry, w);
    }
    hide Fires;
    FewerFiringsNoWorse(later, req, after, before);
  }

  // ----- Waiting a space open -------------------------------------------------------

  ghost predicate Refuses(req: EvaluationRequest, t: Timestamp, hazard: Hazard, entry: RuleEntry) {
    Fires(Wait(req, t), hazard, entry) && !entry.state.PermitsWork()
  }

  ghost predicate Refused(req: EvaluationRequest, t: Timestamp) {
    exists hazard, entry :: Refuses(req, t, hazard, entry)
  }

  lemma RefusedMeans(req: EvaluationRequest, t: Timestamp, v: Verdict)
    requires IsVerdict(Wait(req, t), v)
    ensures Refused(req, t) <==> !v.state.PermitsWork()
  {
    hide IsVerdict, Fires;
    RefusedIff(Wait(req, t), v);
    if hazard, entry :| Fires(Wait(req, t), hazard, entry) && !entry.state.PermitsWork() {
      assert Refuses(req, t, hazard, entry);
    }
  }

  /** What refuses at `t`: a line live there, on a walk that time does not change. */
  lemma RefusesMeans(req: EvaluationRequest, s: Timestamp, t: Timestamp, hazard: Hazard, entry: RuleEntry)
    requires Refuses(req, s, hazard, entry)
    ensures Refuses(req, t, hazard, entry) <==> Live(entry, hazard, t)
  {
    hide Live;
    if w :| ReachedBy(Wait(req, s), hazard, entry, w) {
      assert ReachedBy(Wait(req, t), hazard, entry, w);
    }
  }

  /** No clearance is dated after the instant the request is made at. */
  ghost predicate NoFutureClearance(req: EvaluationRequest) {
    forall h :: h in req.hazards && h.ended.Some? ==> h.ended.value <= req.at
  }

  /** The clock a line ends up on, read off the facts: none unless it has a hold, and for
      an end-anchored one a clearance. */
  function Clock(entry: RuleEntry, hazard: Hazard): Option<Timestamp> {
    if entry.hold.None? then None
    else if entry.holdFrom.Raise? then Some(PlusMinutes(hazard.since, entry.hold.value))
    else if hazard.ended.Some? then Some(PlusMinutes(hazard.ended.value, entry.hold.value))
    else None
  }

  lemma ClockIs(entry: RuleEntry, hazard: Hazard, t: Timestamp)
    ensures HoldClock(entry, hazard, t).Some? ==> HoldClock(entry, hazard, t) == Clock(entry, hazard)
    ensures (hazard.ended.Some? ==> hazard.ended.value <= t) ==> HoldClock(entry, hazard, t) == Clock(entry, hazard)
  {
  }

  /** What refuses at `s` is all on clocks, the last of them running out at `e`. */
  ghost predicate RefusalEnds(req: EvaluationRequest, s: Timestamp, e: Timestamp) {
    && (forall hazard, entry :: Refuses(req, s, hazard, entry) ==>
          HoldClock(entry, hazard, s).Some? && HoldClock(entry, hazard, s).value <= e)
    && (exists hazard, entry :: Refuses(req, s, hazard, entry) && HoldClock(entry, hazard, s) == Some(e))
  }

  /** Something that refuses at `s` is on no clock. */
  ghost predicate Unclocked(req: EvaluationRequest, s: Timestamp) {
    exists hazard, entry :: Refuses(req, s, hazard, entry) && HoldClock(entry, hazard, s).None?
  }

  /** `t` is the latest expiry among the lines that refuse work, all of them timed. */
  ghost predicate ClearsAt(v: Verdict, t: Timestamp) {
    && (forall i :: 0 <= i < |v.trace| && !v.trace[i].state.PermitsWork() ==>
          v.trace[i].earliestClear.Some? && v.trace[i].earliestClear.value <= t)
    && (exists i :: 0 <= i < |v.trace| && !v.trace[i].state.PermitsWork() && v.trace[i].earliestClear == Some(t))
  }

  /** The expiry of the refusing lines: nothing unless every one of them is on a clock. */
  method BlockingExpiry(v: Verdict) returns (latest: Option<Timestamp>)
    ensures latest.Some? ==> ClearsAt(v, latest.value)
    ensures latest.None? <==>
              (forall i :: 0 <= i < |v.trace| ==> v.trace[i].state.PermitsWork())
              || (exists i :: 0 <= i < |v.trace| && !v.trace[i].state.PermitsWork() && v.trace[i].earliestClear.None?)
  {
    latest := None;
    for i := 0 to |v.trace|
      invariant forall j :: 0 <= j < i && !v.trace[j].state.PermitsWork() ==>
                  v.trace[j].earliestClear.Some? && latest.Some? && v.trace[j].earliestClear.value <= latest.value
      invariant latest.Some? ==>
                  exists j :: 0 <= j < i && !v.trace[j].state.PermitsWork() && v.trace[j].earliestClear == latest
    {
      if v.trace[i].state.PermitsWork() {
        continue;
      }
      if v.trace[i].earliestClear.None? {
        latest := None;
        return;
      }
      if latest.None? || latest.value < v.trace[i].earliestClear.value {
        latest := v.trace[i].earliestClear;
      }
    }
  }

  /** Reading the trace is reading what refuses. */
  lemma TraceRefuses(req: EvaluationRequest, s: Timestamp, v: Verdict, i: nat)
    returns (hazard: Hazard, entry: RuleEntry)
    requires IsVerdict(Wait(req, s), v) && i < |v.trace| && !v.trace[i].state.PermitsWork()
    ensures Refuses(req, s, hazard, entry) && v.trace[i].earliestClear == HoldClock(entry, hazard, s)
  {
    hide IsVerdict, Fires, HoldClock;
    hazard, entry := StepFires(Wait(req, s), v, i);
  }

  lemma RefusesTraced(req: EvaluationRequest, s: Timestamp, v: Verdict, hazard: Hazard, entry: RuleEntry)
    requires IsVerdict(Wait(req, s), v) && Refuses(req, s, hazard, entry)
    ensures exists i ::
              0 <= i < |v.trace| && !v.trace[i].state.PermitsWork()
              && v.trace[i].earliestClear == HoldClock(entry, hazard, s)
  {
    hide IsVerdict, Fires, HoldClock, Recorded;
    FiringRecorded(Wait(req, s), v, hazard, entry);
    var i :| 0 <= i < |v.trace| && v.trace[i].state == entry.state
        && v.trace[i].earliestClear == HoldClock(entry, hazard, Wait(req, s).at);
  }

  lemma ClearsAtIs(req: EvaluationRequest, s: Timestamp, v: Verdict, e: Timestamp)
    requires IsVerdict(Wait(req, s), v) && ClearsAt(v, e)
    ensures RefusalEnds(req, s, e)
  {
    hide IsVerdict, Refuses, HoldClock;
    forall hazard, entry | Refuses(req, s, hazard, entry)
      ensures HoldClock(entry, hazard, s).Some? && HoldClock(entry, hazard, s).value <= e
    {
      RefusesTraced(req, s, v, hazard, entry);
    }
    var i :| 0 <= i < |v.trace| && !v.trace[i].state.PermitsWork() && v.trace[i].earliestClear == Some(e);
    var hazard, entry := TraceRefuses(req, s, v, i);
  }

  lemma NoExpiryIs(req: EvaluationRequest, s: Timestamp, v: Verdict)
    requires IsVerdict(Wait(req, s), v)
    requires (forall i :: 0 <= i < |v.trace| ==> v.trace[i].state.PermitsWork())
             || (exists i :: 0 <= i < |v.trace| && !v.trace[i].state.PermitsWork() && v.trace[i].earliestClear.None?)
    ensures !Refused(req, s) || Unclocked(req, s)
  {
    hide IsVerdict, Refuses, HoldClock;
    if i :| 0 <= i < |v.trace| && !v.trace[i].state.PermitsWork() && v.trace[i].earliestClear.None? {
      var hazard, entry := TraceRefuses(req, s, v, i);
    } else if hazard, entry :| Refuses(req, s, hazard, entry) {
      RefusesTraced(req, s, v, hazard, entry);
      assert false;
    }
  }

  // ----- One push ---------------------------------------------------------------------

  /** A push goes forward. */
  lemma PushesAhead(req: EvaluationRequest, s: Timestamp, e: Timestamp)
    requires RefusalEnds(req, s, e)
    ensures s < e && Refused(req, s)
  {
    hide ReachedBy;
    var hazard, entry :| Refuses(req, s, hazard, entry) && HoldClock(entry, hazard, s) == Some(e);
  }

  /** What refuses at `seen` on a clock that runs out at `e` refuses until then, unless a
      clearance falls in between. */
  lemma RefusedUntilExpiry(req: EvaluationRequest, seen: Timestamp, e: Timestamp, t: Timestamp)
    requires RefusalEnds(req, seen, e) && seen <= t < e
    requires forall h :: h in req.hazards && h.ended.Some? ==> h.ended.value <= seen || h.ended.value > t
    ensures Refused(req, t)
  {
    var hazard, entry :| Refuses(req, seen, hazard, entry) && HoldClock(entry, hazard, seen) == Some(e);
    RefusesMeans(req, seen, t, hazard, entry);
    assert hazard in req.hazards && Live(entry, hazard, seen);
    hide Refuses;
    TimedStaysLive(entry, hazard, seen, t);
  }

  lemma TimedStaysLive(entry: RuleEntry, hazard: Hazard, seen: Timestamp, t: Timestamp)
    requires Live(entry, hazard, seen) && seen <= t
    requires var clock := HoldClock(entry, hazard, seen); clock.Some? && t < clock.value
    requires hazard.ended.Some? ==> hazard.ended.value <= seen || hazard.ended.value > t
    ensures Live(entry, hazard, t)
  {
  }

  /** What refuses on no clock refuses for ever, once every clearance is in. */
  lemma UnclockedForEver(req: EvaluationRequest, s: Timestamp, t: Timestamp)
    requires Unclocked(req, s) && NoFutureClearance(req) && req.at <= s <= t
    ensures Refused(req, t)
  {
    var hazard, entry :| Refuses(req, s, hazard, entry) && HoldClock(entry, hazard, s).None?;
    RefusesMeans(req, s, t, hazard, entry);
    assert hazard in req.hazards && Live(entry, hazard, s);
    hide Refuses;
    assert Live(entry, hazard, t);
  }

  // ----- Pushing out until it opens ------------------------------------------------------

  /** `t` is where `n` pushes lead: to the end of what refuses, again and again. */
  ghost predicate Pushes(req: EvaluationRequest, n: nat, t: Timestamp) {
    if n == 0 then t == req.at else exists s: Timestamp :: Pushes(req, n - 1, s) && RefusalEnds(req, s, t)
  }

  lemma OneEnd(req: EvaluationRequest, s: Timestamp, d: Timestamp, e: Timestamp)
    requires RefusalEnds(req, s, d) && RefusalEnds(req, s, e)
    ensures d == e
  {
    hide Refuses, HoldClock;
  }

  /** There is one way to push. */
  lemma {:induction false} OnePush(req: EvaluationRequest, n: nat, s: Timestamp, t: Timestamp)
    requires Pushes(req, n, s) && Pushes(req, n, t)
    ensures s == t
  {
    hide RefusalEnds;
    if n > 0 {
      var a: Timestamp :| Pushes(req, n - 1, a) && RefusalEnds(req, a, s);
      var b: Timestamp :| Pushes(req, n - 1, b) && RefusalEnds(req, b, t);
      OnePush(req, n - 1, a, b);
      OneEnd(req, a, s, t);
    }
  }

  /** With every clearance in, the space is refused all the way to where pushes lead. */
  lemma {:induction false} RefusedAllTheWay(req: EvaluationRequest, n: nat, t: Timestamp, u: Timestamp)
    requires Pushes(req, n, t) && NoFutureClearance(req) && req.at <= u < t
    ensures Refused(req, u)
  {
    hide RefusalEnds, Refused;
    if n > 0 {
      var s: Timestamp :| Pushes(req, n - 1, s) && RefusalEnds(req, s, t);
      PushedAhead(req, n - 1, s);
      if u < s {
        RefusedAllTheWay(req, n - 1, s, u);
      } else {
        RefusedUntilExpiry(req, s, t, u);
      }
    }
  }

  lemma {:induction false} PushedAhead(req: EvaluationRequest, n: nat, t: Timestamp)
    requires Pushes(req, n, t)
    ensures req.at <= t && (n > 0 ==> req.at < t)
  {
    hide RefusalEnds;
    if n > 0 {
      var s: Timestamp :| Pushes(req, n - 1, s) && RefusalEnds(req, s, t);
      PushedAhead(req, n - 1, s);
      PushesAhead(req, s, t);
    }
  }

  /** Pushing twice from different depths: the shallower one was refused. */
  lemma {:induction false} EarlierPushRefused(req: EvaluationRequest, n: nat, t: Timestamp, m: nat)
    returns (s: Timestamp)
    requires Pushes(req, n, t) && m < n
    ensures Pushes(req, m, s) && Refused(req, s)
  {
    hide RefusalEnds, Refused;
    s :| Pushes(req, n - 1, s) && RefusalEnds(req, s, t);
    PushesAhead(req, s, t);
    if m < n - 1 {
      s := EarlierPushRefused(req, n - 1, s, m);
    }
  }

  const SETTLE_CAP := 32

  /** The offer: where the first pushes lead that leave the space open. */
  ghost predicate Offers(req: EvaluationRequest, t: Timestamp) {
    exists n: nat :: 1 <= n <= SETTLE_CAP && Pushes(req, n, t) && !Refused(req, t)
  }

  /** The search that looks for an instant at which waiting alone opens the subject: start
      from the latest expiry of the refusals seen now, re-evaluate there, and push out as
      long as what refuses there is on a clock too. */
  method SettledWait(req: EvaluationRequest, decision: Verdict) returns (until: Option<Timestamp>)
    requires IsVerdict(req, decision)
    ensures until.Some? ==> Offers(req, until.value)
    ensures until.None? ==> forall t :: !Offers(req, t)
  {
    hide IsVerdict, Refused, ClearsAt, RefusalEnds, Unclocked, Pushes;
    assert Wait(req, req.at) == req;
    FromHere(req);
    var first := BlockingExpiry(decision);
    if first.None? {
      NoExpiryIs(req, req.at, decision);
      NoOffer(req, 0, req.at);
      return None;
    }
    until := first;
    ClearsAtIs(req, req.at, decision, first.value);
    PushOn(req, 0, req.at, first.value);
    for pass := 0 to SETTLE_CAP
      invariant until.Some? && Pushes(req, pass + 1, until.value)
    {
      var after := Evaluate(Wait(req, until.value));
      RefusedMeans(req, until.value, after);
      if after.state.PermitsWork() {
        return;
      }
      var next := BlockingExpiry(after);
      if next.None? {
        NoExpiryIs(req, until.value, after);
        NoOffer(req, pass + 1, until.value);
        return None;
      }
      ClearsAtIs(req, until.value, after, next.value);
      PushesAhead(req, until.value, next.value);
      // Never taken: what refuses at an instant runs out after it.
      if next.value <= until.value {
        return None;
      }
      PushOn(req, pass + 1, until.value, next.value);
      until := next;
    }
    CapSpent(req, until.value);
    until := None;
  }

  lemma FromHere(req: EvaluationRequest)
    ensures Pushes(req, 0, req.at)
  {
  }

  lemma PushOn(req: EvaluationRequest, n: nat, s: Timestamp, e: Timestamp)
    requires Pushes(req, n, s) && RefusalEnds(req, s, e)
    ensures Pushes(req, n + 1, e)
  {
    hide RefusalEnds;
  }

  /** Where pushing stops short, at an open start or at something unclocked, nothing is
      offered. */
  lemma NoOffer(req: EvaluationRequest, n: nat, s: Timestamp)
    requires Pushes(req, n, s) && ((n == 0 && !Refused(req, s)) || Unclocked(req, s))
    ensures forall t :: !Offers(req, t)
  {
    hide RefusalEnds, Pushes, Refused, Unclocked;
    forall t | Offers(req, t) ensures false {
      var m: nat :| 1 <= m <= SETTLE_CAP && Pushes(req, m, t) && !Refused(req, t);
      if Unclocked(req, s) {
        UnclockedRefuses(req, s);
      }
      if m <= n {
        if m == n {
          OnePush(req, n, s, t);
        } else {
          var u := EarlierPushRefused(req, n, s, m);
          OnePush(req, m, u, t);
        }
      } else {
        NoPushBeyond(req, n, s, m, t);
      }
    }
  }

  lemma UnclockedRefuses(req: EvaluationRequest, s: Timestamp)
    requires Unclocked(req, s)
    ensures Refused(req, s)
  {
    hide Refuses, HoldClock;
  }

  lemma {:induction false} NoPushBeyond(req: EvaluationRequest, n: nat, s: Timestamp, m: nat, t: Timestamp)
    requires Pushes(req, n, s) && (!Refused(req, s) || Unclocked(req, s)) && m > n
    ensures !Pushes(req, m, t)
  {
    hide RefusalEnds, Refused, Unclocked;
    if Pushes(req, m, t) {
      var u: Timestamp :| Pushes(req, m - 1, u) && RefusalEnds(req, u, t);
      if m - 1 == n {
        OnePush(req, n, s, u);
        PushesAhead(req, s, t);
        EndsIsClocked(req, s, t);
      } else {
        NoPushBeyond(req, n, s, m - 1, u);
      }
    }
  }

  lemma EndsIsClocked(req: EvaluationRequest, s: Timestamp, e: Timestamp)
    requires RefusalEnds(req, s, e)
    ensures !Unclocked(req, s)
  {
    hide Refuses, HoldClock;
  }

  lemma CapSpent(req: EvaluationRequest, t: Timestamp)
    requires Pushes(req, SETTLE_CAP + 1, t)
    ensures forall u :: !Offers(req, u)
  {
    hide RefusalEnds, Pushes, Refused;
    forall u | Offers(req, u) ensures false {
      var n: nat :| 1 <= n <= SETTLE_CAP && Pushes(req, n, u) && !Refused(req, u);
      var s := EarlierPushRefused(req, SETTLE_CAP + 1, t, n);
      OnePush(req, n, s, u);
    }
  }

  // ----- What an offer means, and what none does ------------------------------------------

  ghost predicate FirstOpening(req: EvaluationRequest, t: Timestamp) {
    req.at <= t && !Refused(req, t) && forall u: Timestamp :: req.at <= u < t ==> Refused(req, u)
  }

  ghost predicate NeverOpens(req: EvaluationRequest) {
    forall t: Timestamp :: req.at <= t ==> Refused(req, t)
  }

  /** With every clearance in, an offer is the earliest instant at which the space is
      open, and it lies ahead. */
  lemma OfferIsFirstOpening(req: EvaluationRequest, t: Timestamp)
    requires Offers(req, t) && NoFutureClearance(req)
    ensures req.at < t && FirstOpening(req, t)
  {
    hide Pushes, Refused;
    var n: nat :| 1 <= n <= SETTLE_CAP && Pushes(req, n, t) && !Refused(req, t);
    PushedAhead(req, n, t);
    forall u: Timestamp | req.at <= u < t ensures Refused(req, u) {
      RefusedAllTheWay(req, n, t, u);
    }
  }

  /** The instants at which clocks of the request run out. */
  ghost function Clocks(req: EvaluationRequest): set<Timestamp> {
    set hazard, entry | hazard in req.hazards && entry in req.rules && Clock(entry, hazard).Some? ::
        Clock(entry, hazard).value
  }

  ghost function Later(req: EvaluationRequest, s: Timestamp): set<Timestamp> {
    set c | c in Clocks(req) && c > s
  }

  lemma EndIsClock(req: EvaluationRequest, s: Timestamp, hazard: Hazard, entry: RuleEntry)
    requires Refuses(req, s, hazard, entry) && HoldClock(entry, hazard, s).Some?
    ensures HoldClock(entry, hazard, s).value in Clocks(req)
  {
    ClockIs(entry, hazard, s);
    hide HoldClock, Clock, Live, ReachedBy;
  }

  lemma {:induction false} Greatest(s: set<Timestamp>) returns (m: Timestamp)
    requires s != {}
    ensures m in s && forall x :: x in s ==> x <= m
    decreases |s|
  {
    var first :| first in s;
    m := first;
    var above := set c | c in s && c > first;
    assert forall c :: c in s ==> c in above || c <= first;
    if above != {} {
      SmallerSet(above, s, first);
      m := Greatest(above);
    }
  }

  /** What refuses on clocks only has a last clock. */
  lemma EndExists(req: EvaluationRequest, s: Timestamp) returns (e: Timestamp)
    requires Refused(req, s) && !Unclocked(req, s)
    ensures RefusalEnds(req, s, e)
  {
    hide Refuses, HoldClock, Clocks;
    var ends: set<Timestamp> := set c | c in Clocks(req) &&
      exists hazard, entry :: Refuses(req, s, hazard, entry) && HoldClock(entry, hazard, s) == Some(c);
    forall hazard, entry | Refuses(req, s, hazard, entry)
        ensures HoldClock(entry, hazard, s).Some? && HoldClock(entry, hazard, s).value in ends {
      EndIsClock(req, s, hazard, entry);
    }
    e := Greatest(ends);
  }

  lemma LaterShrinks(req: EvaluationRequest, s: Timestamp, e: Timestamp)
    requires RefusalEnds(req, s, e)
    ensures |Later(req, e)| < |Later(req, s)|
  {
    hide Refuses, HoldClock, Clocks;
    PushesAhead(req, s, e);
    var hazard, entry :| Refuses(req, s, hazard, entry) && HoldClock(entry, hazard, s) == Some(e);
    EndIsClock(req, s, hazard, entry);
    assert e in Later(req, s) && e !in Later(req, e) && Later(req, e) <= Later(req, s);
    SmallerSet(Later(req, e), Later(req, s), e);
  }

  lemma SmallerSet(a: set<Timestamp>, b: set<Timestamp>, x: Timestamp)
    requires a <= b && x in b && x !in a
    ensures |a| < |b|
  {
    SubsetSize(a, b - {x});
  }

  /** Pushing comes to an end, within as many pushes as clocks are still to run: at an
      instant that is open or at a refusal on no clock. */
  lemma {:induction false} PushingEnds(req: EvaluationRequest, n: nat, s: Timestamp) returns (m: nat, t: Timestamp)
    requires Pushes(req, n, s)
    ensures n <= m <= n + |Later(req, s)| && Pushes(req, m, t) && (!Refused(req, t) || Unclocked(req, t))
    decreases |Later(req, s)|
  {
    hide Pushes, Refused, Unclocked, RefusalEnds, Later;
    if !Refused(req, s) || Unclocked(req, s) {
      m, t := n, s;
    } else {
      var e := EndExists(req, s);
      PushOn(req, n, s, e);
      LaterShrinks(req, s, e);
      m, t := PushingEnds(req, n + 1, e);
    }
  }

  /** The cap is spent: the space is refused where the last allowed push leads. */
  ghost predicate BeyondCap(req: EvaluationRequest) {
    exists t :: Pushes(req, SETTLE_CAP, t) && Refused(req, t)
  }

  /** Nothing is offered exactly when the space is open as it is, never opens by waiting,
      or is still refused after as many pushes as the search makes. */
  lemma NoOfferIff(req: EvaluationRequest)
    requires NoFutureClearance(req)
    ensures (forall t :: !Offers(req, t)) <==> !Refused(req, req.at) || NeverOpens(req) || BeyondCap(req)
  {
    hide Pushes, Refused, Unclocked, RefusalEnds;
    FromHere(req);
    if !Refused(req, req.at) {
      NoOffer(req, 0, req.at);
    } else if NeverOpens(req) {
      forall t | Offers(req, t) ensures false {
        OfferIsFirstOpening(req, t);
      }
    } else if BeyondCap(req) {
      NoOfferBeyondCap(req);
    } else {
      SomeOffer(req);
    }
  }

  lemma NoOfferBeyondCap(req: EvaluationRequest)
    requires BeyondCap(req)
    ensures forall t :: !Offers(req, t)
  {
    hide Pushes, Refused, Unclocked, RefusalEnds, Offers;
    var s :| Pushes(req, SETTLE_CAP, s) && Refused(req, s);
    if Unclocked(req, s) {
      NoOffer(req, SETTLE_CAP, s);
    } else {
      var e := EndExists(req, s);
      PushOn(req, SETTLE_CAP, s, e);
      CapSpent(req, e);
    }
  }

  lemma SomeOffer(req: EvaluationRequest)
    requires NoFutureClearance(req) && Refused(req, req.at) && !NeverOpens(req) && !BeyondCap(req)
    ensures exists t :: Offers(req, t)
  {
    hide Pushes, Refused, Unclocked, RefusalEnds;
    FromHere(req);
    var m, t := PushingEnds(req, 0, req.at);
    if Unclocked(req, t) {
      NeverOpensFrom(req, m, t);
      assert false;
    }
    if m == 0 {
      OnePush(req, 0, req.at, t);
    } else if m > SETTLE_CAP {
      var s := EarlierPushRefused(req, m, t, SETTLE_CAP);
    } else {
      assert Offers(req, t);
    }
  }

  lemma NeverOpensFrom(req: EvaluationRequest, m: nat, t: Timestamp)
    requires NoFutureClearance(req) && Pushes(req, m, t) && Unclocked(req, t)
    ensures NeverOpens(req)
  {
    hide Pushes, Refused, Unclocked;
    PushedAhead(req, m, t);
    forall u: Timestamp | req.at <= u ensures Refused(req, u) {
      if u < t {
        RefusedAllTheWay(req, m, t, u);
      } else {
        UnclockedForEver(req, t, u);
      }
    }
  }

  /** With no more clocks than the search makes pushes the cap is never spent: nothing is
      offered exactly when the space is open as it is or never opens by waiting. */
  lemma CapSuffices(req: EvaluationRequest)
    requires NoFutureClearance(req) && |Clocks(req)| <= SETTLE_CAP
    ensures (forall t :: !Offers(req, t)) <==> !Refused(req, req.at) || NeverOpens(req)
  {
    NoOfferIff(req);
    if BeyondCap(req) {
      BeyondCapNever(req);
    }
  }

  lemma BeyondCapNever(req: EvaluationRequest)
    requires NoFutureClearance(req) && |Clocks(req)| <= SETTLE_CAP && BeyondCap(req)
    ensures NeverOpens(req)
  {
    hide Pushes, Refused, Unclocked, RefusalEnds, NeverOpens, Clocks;
    var s :| Pushes(req, SETTLE_CAP, s) && Refused(req, s);
    FromHere(req);
    var m, t := PushingEnds(req, 0, req.at);
    SubsetSize(Later(req, req.at), Clocks(req));
    if m < SETTLE_CAP {
      NoPushBeyond(req, m, t, SETTLE_CAP, s);
    } else {
      OnePush(req, SETTLE_CAP, s, t);
    }
    NeverOpensFrom(req, m, t);
  }

  // ----- Where the cap is spent --------------------------------------------------------------

  const HOUR := 3_600_000
  const HERE := "s"
  const HOUR_HOLD := RuleEntry("R", 1, CoatingOpen, SameSpace, Block, Some(60), Raise, RuleBinding([], [], None, None))

  type Few = n: nat | n <= 1_000_000

  function HourlyHazard(i: Few): Hazard {
    Hazard(HERE, CoatingOpen, i * HOUR, "", None)
  }

  /** One coat after another in one space, each going on as the one before has cured. */
  function Relay(n: Few): EvaluationRequest {
    EvaluationRequest(HERE, AdjacencyGraph([]), [HOUR_HOLD], seq(n, i requires 0 <= i < n => HourlyHazard(i)), 0)
  }

  lemma RelayRefuses(n: Few, t: Timestamp, hazard: Hazard, entry: RuleEntry)
    ensures Refuses(Relay(n), t, hazard, entry) <==>
              entry == HOUR_HOLD &&
                exists i: Few :: i < n && hazard == HourlyHazard(i) && i * HOUR <= t < (i + 1) * HOUR
    ensures Refuses(Relay(n), t, hazard, entry) ==> HoldClock(entry, hazard, t) == Some(hazard.since + HOUR)
  {
    var req := Relay(n);
    assert hazard in req.hazards <==> exists i: Few :: i < n && hazard == HourlyHazard(i) by {
      if i: Few :| i < n && hazard == HourlyHazard(i) { assert req.hazards[i] == hazard; }
    }
    if hazard in req.hazards && entry == HOUR_HOLD {
      assert ReachedBy(Wait(req, t), hazard, entry, []);
    }
  }

  lemma RelayEnds(n: Few, k: Few)
    requires k < n
    ensures RefusalEnds(Relay(n), k * HOUR, (k + 1) * HOUR)
  {
    hide Refuses, HoldClock;
    forall hazard, entry | Refuses(Relay(n), k * HOUR, hazard, entry)
      ensures HoldClock(entry, hazard, k * HOUR) == Some((k + 1) * HOUR)
    {
      RelayRefuses(n, k * HOUR, hazard, entry);
    }
    RelayRefuses(n, k * HOUR, HourlyHazard(k), HOUR_HOLD);
    assert Refuses(Relay(n), k * HOUR, HourlyHazard(k), HOUR_HOLD);
  }

  lemma {:induction false} RelayPushes(n: Few, k: Few)
    requires k <= n
    ensures Pushes(Relay(n), k, k * HOUR)
  {
    hide RefusalEnds;
    if k > 0 {
      RelayPushes(n, k - 1);
      RelayEnds(n, k - 1);
      PushOn(Relay(n), k - 1, (k - 1) * HOUR, k * HOUR);
    }
  }

  lemma RelayRefused(n: Few, t: Timestamp)
    requires 0 <= t
    ensures Refused(Relay(n), t) <==> t < n * HOUR
  {
    hide Refuses;
    if t < n * HOUR {
      var i: Few := t / HOUR;
      RelayRefuses(n, t, HourlyHazard(i), HOUR_HOLD);
      assert Refuses(Relay(n), t, HourlyHazard(i), HOUR_HOLD);
    }
    if hazard, entry :| Refuses(Relay(n), t, hazard, entry) {
      RelayRefuses(n, t, hazard, entry);
    }
  }

  /** The cap is no mere backstop: `n` coats in relay open the space after `n` hours and
      not before, and that is offered exactly when `n` is at least one and no more than the
      cap. */
  lemma RelayOfferedIff(n: Few)
    ensures FirstOpening(Relay(n), n * HOUR) && NoFutureClearance(Relay(n))
    ensures Offers(Relay(n), n * HOUR) <==> 1 <= n <= 32
    ensures n > 32 ==> forall t :: !Offers(Relay(n), t)
  {
    hide Pushes, Refused;
    RelayRefused(n, n * HOUR);
    forall u: Timestamp | 0 <= u < n * HOUR ensures Refused(Relay(n), u) {
      RelayRefused(n, u);
    }
    RelayPushes(n, n);
    if n > SETTLE_CAP {
      RelayPushes(n, SETTLE_CAP);
      RelayRefused(n, SETTLE_CAP * HOUR);
      NoOfferIff(Relay(n));
    } else if n == 0 {
      FromHere(Relay(n));
      NoOffer(Relay(n), 0, 0);
    }
  }

  // ----- Clearances ahead -------------------------------------------------------------------

  /** The space is refused wherever a line ends before `t`. */
  ghost predicate HeldAtEnds(req: EvaluationRequest, t: Timestamp) {
    forall hazard, entry :: hazard in req.hazards && entry in req.rules && EndsBetween(entry, hazard, req.at, t) ==>
      Refused(req, Expiry(entry, hazard).value)
  }

  predicate EndsBetween(entry: RuleEntry, hazard: Hazard, from: Timestamp, to: Timestamp) {
    Expiry(entry, hazard).Some? && from < Expiry(entry, hazard).value < to
  }

  lemma {:induction false} HeldThrough(req: EvaluationRequest, t: Timestamp, u: Timestamp)
    requires NonNegativeHolds(req.rules) && Refused(req, req.at) && HeldAtEnds(req, t) && req.at <= u < t
    ensures Refused(req, u)
    decreases u - req.at
  {
    if u > req.at {
      HeldThrough(req, t, u - 1);
      var hazard, entry :| Refuses(req, u - 1, hazard, entry);
      RefusesMeans(req, u - 1, u, hazard, entry);
      assert hazard in req.hazards && entry in req.rules && Live(entry, hazard, u - 1);
      hide Live, Refuses, EndsBetween;
      LiveOrEnds(entry, hazard, req.at, u, t);
    }
  }

  lemma LiveOrEnds(entry: RuleEntry, hazard: Hazard, from: Timestamp, u: Timestamp, to: Timestamp)
    requires entry.hold.Some? ==> entry.hold.value >= 0
    requires from < u < to && Live(entry, hazard, u - 1)
    ensures Live(entry, hazard, u) || (EndsBetween(entry, hazard, from, to) && Expiry(entry, hazard).value == u)
  {
    LiveIsInterval(entry, hazard, u - 1);
    LiveIsInterval(entry, hazard, u);
    hide Live, Expiry;
  }

  /** Whatever clearances are dated ahead: an offer is the earliest opening exactly when
      no line that ends before it leaves the space open there. */
  lemma OfferIsFirstIff(req: EvaluationRequest, t: Timestamp)
    requires NonNegativeHolds(req.rules) && Offers(req, t)
    ensures FirstOpening(req, t) <==> HeldAtEnds(req, t)
  {
    hide Pushes, Refused;
    var n: nat :| 1 <= n <= SETTLE_CAP && Pushes(req, n, t) && !Refused(req, t);
    PushedAhead(req, n, t);
    var s := EarlierPushRefused(req, n, t, 0);
    FromHere(req);
    OnePush(req, 0, s, req.at);
    if HeldAtEnds(req, t) {
      forall u: Timestamp | req.at <= u < t ensures Refused(req, u) {
        HeldThrough(req, t, u);
      }
    }
  }

  /** A coat that is cleared before it has cured: the offer is the end of the cure, though
      the space opens at the clearance. */
  lemma ClearanceAheadIsMissed()
    ensures var req := Relay(1).(hazards := [HourlyHazard(0).(ended := Some(HOUR / 2))]);
            Offers(req, HOUR) && !Refused(req, HOUR / 2) && !FirstOpening(req, HOUR)
  {
    var h := HourlyHazard(0).(ended := Some(HOUR / 2));
    var req := Relay(1).(hazards := [h]);
    assert ReachedBy(Wait(req, 0), h, HOUR_HOLD, []) && h == req.hazards[0] && HOUR_HOLD == req.rules[0];
    assert Refuses(req, 0, h, HOUR_HOLD);
    assert RefusalEnds(req, 0, HOUR);
    FromHere(req);
    PushOn(req, 0, 0, HOUR);
    assert !Refused(req, HOUR) && !Refused(req, HOUR / 2);
  }
}
