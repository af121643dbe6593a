/** The engine's evaluation of one compartment: which rules fire, how long each
    line holds, and which state governs. */
module Decision {
  import opened Sequences
  import opened Numerals
  import opened Cascade

  // ----- Time ---------------------------------------------------------------

  /** A 64-bit count (of milliseconds, or of minutes). */
  type Int64 = n: int | -0x8000_0000_0000_0000 <= n <= 0x7fff_ffff_ffff_ffff
  type Timestamp = Int64

  function Saturate(n: int): Int64 {
    if n < -0x8000_0000_0000_0000 then -0x8000_0000_0000_0000
    else if n > 0x7fff_ffff_ffff_ffff then 0x7fff_ffff_ffff_ffff
    else n
  }

  function PlusMinutes(t: Timestamp, minutes: Int64): Timestamp {
    Saturate(t + Saturate(minutes * 60_000))
  }

  // ----- Rules and hazards ---------------------------------------------------

  datatype DecisionState = Allow | Warn | Block | Suspend {
    function Severity(): nat {
      match this
      case Allow => 0
      case Warn => 1
      case Suspend => 2
      case Block => 3
    }

    function MaxSeverity(other: DecisionState): DecisionState {
      if other.Severity() > Severity() then other else this
    }

    predicate PermitsWork() {
      Allow? || Warn?
    }
  }

  datatype HazardKind = CoatingOpen | HotWorkLive | EnergisedBus | FlammableStow | StopWork

  datatype Hazard = Hazard(
    origin: CompartmentNo, kind: HazardKind, since: Timestamp, name: string, ended: Option<Timestamp>)
  {
    predicate RaisedBy(at: Timestamp) {
      at >= since
    }

    predicate EndedBy(at: Timestamp) {
      ended.Some? && ended.value <= at
    }
  }

  datatype HoldFrom = Raise | End

  datatype Applies = SameSpace | Coupled(code: string, maxHops: HopDepth)

  /** What a rule binds to; an empty list is any, an open end is always. */
  datatype RuleBinding = RuleBinding(
    workTypes: seq<string>, categories: seq<string>,
    effectiveFrom: Option<Timestamp>, effectiveTo: Option<Timestamp>)
  {
    predicate Covers(work: Work, at: Timestamp) {
      && Listed(workTypes, work.workType)
      && Listed(categories, work.category)
      && (effectiveFrom.Some? ==> effectiveFrom.value <= at)
      && (effectiveTo.Some? ==> at < effectiveTo.value)
    }

    static predicate Listed(list: seq<string>, value: Option<string>) {
      list == [] || value.None? || value.value in list
    }
  }

  /** The work an evaluation is for; `None` is unknown. */
  datatype Work = Work(workType: Option<string>, category: Option<string>)

  const ANY := Work(None, None)

  datatype RuleEntry = RuleEntry(
    ruleCode: string, ruleVersion: nat, hazard: HazardKind, applies: Applies, state: DecisionState,
    hold: Option<Int64>, holdFrom: HoldFrom, binding: RuleBinding)

  function BoundTo(rules: seq<RuleEntry>, work: Work, at: Timestamp): seq<RuleEntry> {
    Filter((e: RuleEntry) => e.binding.Covers(work, at), rules)
  }

  datatype EvaluationRequest = EvaluationRequest(
    subject: CompartmentNo, graph: AdjacencyGraph, rules: seq<RuleEntry>, hazards: seq<Hazard>, at: Timestamp)

  datatype TraceStep = TraceStep(
    ruleCode: string, ruleVersion: nat, state: DecisionState, source: CompartmentNo, hazard: string,
    depth: HopDepth, path: seq<CompartmentNo>, via: seq<string>, earliestClear: Option<Timestamp>)

  datatype Verdict = Verdict(state: DecisionState, trace: seq<TraceStep>, earliestClear: Option<Timestamp>)

  // ----- When a line holds ----------------------------------------------------

  /** The clock of a line as of `at`; `None` clears on verification. */
  function HoldClock(entry: RuleEntry, hazard: Hazard, at: Timestamp): Option<Timestamp> {
    if entry.holdFrom.End? && entry.hold.Some? then
      if hazard.EndedBy(at) then Some(PlusMinutes(hazard.ended.value, entry.hold.value)) else None
    else if entry.hold.Some? then Some(PlusMinutes(hazard.since, entry.hold.value))
    else None
  }

  /** The guards of the evaluation loop and of the trace, in the order they are taken. */
  predicate Live(entry: RuleEntry, hazard: Hazard, at: Timestamp) {
    && hazard.RaisedBy(at)
    && !(entry.holdFrom.Raise? && hazard.EndedBy(at))
    && var clock := HoldClock(entry, hazard, at); (clock.Some? ==> at < clock.value)
  }

  /** When the line stops holding, read off the facts alone: a raise-anchored line at
      the clearance or the end of its hold, whichever is first; an end-anchored line
      its hold after the clearance. `None` is never. */
  function Expiry(entry: RuleEntry, hazard: Hazard): Option<Timestamp> {
    match entry.holdFrom
    case Raise =>
      var held := if entry.hold.Some? then Some(PlusMinutes(hazard.since, entry.hold.value)) else None;
      if hazard.ended.None? then held
      else if held.None? || hazard.ended.value < held.value then hazard.ended
      else held
    case End =>
      if entry.hold.Some? && hazard.ended.Some? then Some(PlusMinutes(hazard.ended.value, entry.hold.value)) else None
  }

  ghost predicate NonNegativeHolds(rules: seq<RuleEntry>) {
    forall e :: e in rules && e.hold.Some? ==> e.hold.value >= 0
  }

  /** A line holds on one half-open interval: from the raise up to its expiry. */
  lemma LiveIsInterval(entry: RuleEntry, hazard: Hazard, at: Timestamp)
    requires entry.hold.Some? ==> entry.hold.value >= 0
    ensures Live(entry, hazard, at) <==>
              hazard.since <= at && (var end := Expiry(entry, hazard); end.Some? ==> at < end.value)
  {
  }

  const LAST: Timestamp := 0x7fff_ffff_ffff_ffff

  /** `at` falls before `minutes` have passed since `t`, milliseconds and minutes being
      counted in 64 bits. */
  predicate Before(at: Timestamp, t: Timestamp, minutes: Int64) {
    at - t < 60_000 * minutes && at - t < LAST && at < LAST
  }

  lemma PlusMinutesIs(t: Timestamp, minutes: Int64, at: Timestamp)
    requires minutes >= 0
    ensures at < PlusMinutes(t, minutes) <==> Before(at, t, minutes)
  {
  }

  /** A line in its own terms: raised, and for a raise-anchored one neither cleared nor run
      out since the raise; for an end-anchored one not run out since the clearance. */
  lemma LineRuns(entry: RuleEntry, hazard: Hazard, at: Timestamp)
    requires entry.hold.Some? ==> entry.hold.value >= 0
    ensures entry.holdFrom.Raise? ==>
              (Live(entry, hazard, at) <==>
               && hazard.since <= at && (hazard.ended.Some? ==> at < hazard.ended.value)
               && (entry.hold.Some? ==> Before(at, hazard.since, entry.hold.value)))
    ensures entry.holdFrom.End? ==>
              (Live(entry, hazard, at) <==>
               && hazard.since <= at
               && (entry.hold.Some? && hazard.ended.Some? && hazard.ended.value <= at ==>
                   Before(at, hazard.ended.value, entry.hold.value)))
  {
    if entry.hold.Some? {
      PlusMinutesIs(hazard.since, entry.hold.value, at);
      if hazard.ended.Some? {
        PlusMinutesIs(hazard.ended.value, entry.hold.value, at);
      }
    }
    hide PlusMinutes, Before;
  }

  // ----- What the rule table compiles to ------------------------------------------

  const MAX_MINUTES := 0x7fff_ffff_ffff_ffff

  /** Parsing a cell as a 64-bit integer: an optional sign and ASCII digits. */
  function ParseInt64(cell: string): Option<Int64> {
    var signed := cell != "" && cell[0] in {'-', '+'};
    var digits := if signed then cell[1..] else cell;
    if digits == "" || !AllDigits(digits) then None
    else
      var n: int := Value(digits);
      var v := if signed && cell[0] == '-' then -n else n;
      if -MAX_MINUTES - 1 <= v <= MAX_MINUTES then Some(v) else None
  }

  function Lower(cell: string): (r: string)
    ensures |r| == |cell|
  {
    seq(|cell|, i requires 0 <= i < |cell| => if 'A' <= cell[i] <= 'Z' then 'a' + (cell[i] - 'A') else cell[i])
  }

  /** The minutes and the anchor of a row, or nothing when the row is refused. */
  function ParseHold(minutes: string, from: string): Option<(Option<Int64>, HoldFrom)> {
    var n := ParseInt64(minutes);
    if minutes != "" && (n.None? || n.value < 0) then None
    else
      var hold := if minutes == "" then None else n;
      var anchor := Lower(from);
      if anchor == "" || anchor == "raise" then Some((hold, Raise))
      else if anchor == "end" && hold.Some? then Some((hold, End))
      else None
  }

  /** A printed 64-bit number is parsed as itself, and one beyond the range is refused. */
  lemma ParsesPrinted(v: int)
    ensures ParseInt64(if v < 0 then "-" + Dec(-v) else Dec(v)) ==
            if -0x8000_0000_0000_0000 <= v <= 0x7fff_ffff_ffff_ffff then Some(v) else None
  {
    var n: nat := if v < 0 then -v else v;
    ValueOfDec(n);
    hide Dec, Value;
    assert IsDigit(Dec(n)[0]);
    assert ("-" + Dec(n))[1..] == Dec(n);
  }

  /** Case does not matter to an anchor. */
  lemma LowerIgnoresCase(cell: string, other: string)
    requires |cell| == |other|
    requires forall i :: 0 <= i < |cell| ==>
               cell[i] == other[i] || ('A' <= cell[i] <= 'Z' && other[i] as int == cell[i] as int + 32)
    ensures Lower(cell) == Lower(other)
    ensures (forall i :: 0 <= i < |other| ==> !('A' <= other[i] <= 'Z')) ==> Lower(cell) == other
  {
    assert forall i :: 0 <= i < |cell| ==> Lower(cell)[i] == Lower(other)[i];
  }

  /** How a row's minutes and anchor are read: any number of minutes that is none below zero,
      from the raise unless the anchor says end, whatever its case. */
  lemma ParseHoldIs(n: int, from: string)
    requires -0x8000_0000_0000_0000 <= n <= 0x7fff_ffff_ffff_ffff
    ensures var cell := if n < 0 then "-" + Dec(-n) else Dec(n);
            ParseHold(cell, from) ==
            if n < 0 then None
            else if Lower(from) in {"", "raise"} then Some((Some(n), Raise))
            else if Lower(from) == "end" then Some((Some(n), End))
            else None
    ensures ParseHold("", from) == if Lower(from) in {"", "raise"} then Some((None, Raise)) else None
  {
    ParsesPrinted(n);
    hide ParseInt64, Dec, Lower;
    assert |if n < 0 then "-" + Dec(-n) else Dec(n)| > 0;
    assert "" != "end" && "raise" != "end" by { assert |"raise"| != |"end"|; }
  }

  /** The entry came out of the compiler. */
  ghost predicate Compiled(entry: RuleEntry) {
    exists minutes, from :: ParseHold(minutes, from) == Some((entry.hold, entry.holdFrom))
  }

  /** The compiler lets through exactly the holds that can run: none is negative, and an
      end-anchored one has minutes. */
  lemma CompiledHold(entry: RuleEntry)
    ensures Compiled(entry) <==>
            (entry.hold.Some? ==> entry.hold.value >= 0) && (entry.holdFrom.End? ==> entry.hold.Some?)
  {
    if (entry.hold.Some? ==> entry.hold.value >= 0) && (entry.holdFrom.End? ==> entry.hold.Some?) {
      var n: int := if entry.hold.Some? then entry.hold.value else 0;
      ParseHoldIs(n, "raise");
      ParseHoldIs(n, "end");
      LowerIgnoresCase("raise", "raise");
      LowerIgnoresCase("end", "end");
      hide ParseHold, Dec;
      var minutes := if entry.hold.Some? then Dec(n) else "";
      var from := if entry.holdFrom.End? then "end" else "raise";
      assert "raise" != "end" by { assert |"raise"| != |"end"|; }
      assert ParseHold(minutes, from) == Some((entry.hold, entry.holdFrom));
    }
  }

  /** An end-anchored line holds for ever exactly when it has no hold period to run
      down or nothing has ended the hazard. */
  lemma EndAnchoredForever(entry: RuleEntry, hazard: Hazard)
    requires entry.holdFrom.End? && (entry.hold.Some? ==> entry.hold.value >= 0)
    ensures (forall t: Timestamp :: hazard.since <= t ==> Live(entry, hazard, t)) <==>
            entry.hold.None? || hazard.ended.None?
  {
    if entry.hold.Some? && hazard.ended.Some? {
      var expiry := PlusMinutes(hazard.ended.value, entry.hold.value);
      var t: Timestamp := if expiry >= hazard.since then expiry else hazard.since;
      assert !Live(entry, hazard, t);
    }
  }

  /** The compiler refuses the first of these, so a compiled end-anchored line stops
      holding if and only if the hazard is ended. */
  lemma EndAnchoredClearsIff(entry: RuleEntry, hazard: Hazard)
    requires Compiled(entry) && entry.holdFrom.End?
    ensures (exists t: Timestamp :: hazard.since <= t && !Live(entry, hazard, t)) <==> hazard.ended.Some?
  {
    CompiledHold(entry);
    EndAnchoredForever(entry, hazard);
    hide ParseHold, Live;
  }

  lemma CompiledRulesRun(rules: seq<RuleEntry>)
    requires forall e :: e in rules ==> Compiled(e)
    ensures NonNegativeHolds(rules)
  {
    hide ParseHold;
    forall e | e in rules && e.hold.Some? ensures e.hold.value >= 0 {
      CompiledHold(e);
    }
  }

  // ----- Firing -----------------------------------------------------------------

  /** The walk by which a line reached the subject; a same-space line takes none. */
  ghost predicate ReachedBy(req: EvaluationRequest, hazard: Hazard, entry: RuleEntry, w: seq<CouplingEdge>) {
    match entry.applies
    case SameSpace => w == [] && hazard.origin == req.subject
    case Coupled(code, maxHops) =>
      WalkTo(req.graph, hazard.origin, TraversalBound(maxHops, Some(code)), req.subject, w)
  }

  ghost predicate Fires(req: EvaluationRequest, hazard: Hazard, entry: RuleEntry) {
    && hazard in req.hazards && entry in req.rules && entry.hazard == hazard.kind
    && Live(entry, hazard, req.at)
    && exists w :: ReachedBy(req, hazard, entry, w)
  }

  function Spaces(origin: CompartmentNo, w: seq<CouplingEdge>): seq<CompartmentNo> {
    [origin] + seq(|w|, i requires 0 <= i < |w| => w[i].to)
  }

  function Codes(w: seq<CouplingEdge>): seq<string> {
    seq(|w|, i requires 0 <= i < |w| => w[i].code)
  }

  function Step(entry: RuleEntry, hazard: Hazard, w: seq<CouplingEdge>, at: Timestamp): TraceStep {
    TraceStep(entry.ruleCode, entry.ruleVersion, entry.state, hazard.origin, hazard.name,
              Hops(|w|), Spaces(hazard.origin, w), Codes(w), HoldClock(entry, hazard, at))
  }

  predicate SameLastType(v: seq<CouplingEdge>, w: seq<CouplingEdge>) {
    v != [] && w != [] ==> v[|v| - 1].couplingType == w[|w| - 1].couplingType
  }

  /** `step` is what `entry` says about `hazard` along `w`: no other walk to the subject
      ending in the same kind of coupling is shorter. */
  ghost predicate Along(
      req: EvaluationRequest, step: TraceStep, hazard: Hazard, entry: RuleEntry, w: seq<CouplingEdge>) {
    && ReachedBy(req, hazard, entry, w) && step == Step(entry, hazard, w, req.at)
    && forall v :: ReachedBy(req, hazard, entry, v) && SameLastType(v, w) ==> |w| <= |v|
  }

  /** `lines` are all that `entry` has to say about `hazard`: nothing unless it is live,
      and otherwise one line for each kind of coupling by which the subject is reached. */
  ghost predicate Says(req: EvaluationRequest, hazard: Hazard, entry: RuleEntry, lines: seq<TraceStep>) {
    if Live(entry, hazard, req.at) then exists walks :: SaysAlong(req, hazard, entry, lines, walks) else lines == []
  }

  ghost predicate SaysAlong(
      req: EvaluationRequest, hazard: Hazard, entry: RuleEntry, lines: seq<TraceStep>,
      walks: seq<seq<CouplingEdge>>) {
    && |walks| == |lines|
    && (forall i :: 0 <= i < |lines| ==> Along(req, lines[i], hazard, entry, walks[i]))
    && (forall i, j :: 0 <= i < j < |walks| ==> !SameLastType(walks[i], walks[j]))
    && (forall w :: ReachedBy(req, hazard, entry, w) ==> SomeSameType(walks, w))
  }

  ghost predicate SomeSameType(walks: seq<seq<CouplingEdge>>, w: seq<CouplingEdge>) {
    exists i :: 0 <= i < |walks| && SameLastType(walks[i], w)
  }

  /** The trace is what each of `pairs` has to say, in order and nothing between. */
  ghost predicate Told(req: EvaluationRequest, pairs: seq<(Hazard, RuleEntry)>, trace: seq<TraceStep>) {
    if pairs == [] then trace == []
    else
      var n := |pairs| - 1;
      exists k :: 0 <= k <= |trace| && Told(req, pairs[..n], trace[..k])
          && Says(req, pairs[n].0, pairs[n].1, trace[k..])
  }

  function ForHazard(rules: seq<RuleEntry>, kind: HazardKind): seq<RuleEntry> {
    Filter((e: RuleEntry) => e.hazard == kind, rules)
  }

  /** A raised hazard against every rule of its kind. */
  function PairsFor(rules: seq<RuleEntry>, at: Timestamp, hazard: Hazard): seq<(Hazard, RuleEntry)> {
    if hazard.RaisedBy(at) then Map((e: RuleEntry) => (hazard, e), ForHazard(rules, hazard.kind)) else []
  }

  /** What the evaluation goes through: hazards in order, rules in order. */
  function Pairs(rules: seq<RuleEntry>, at: Timestamp, hazards: seq<Hazard>): seq<(Hazard, RuleEntry)> {
    if hazards == [] then []
    else Pairs(rules, at, hazards[..|hazards| - 1]) + PairsFor(rules, at, hazards[|hazards| - 1])
  }

  /** The line says that `entry` fires for `hazard`, along a shortest walk of its kind. */
  ghost predicate Accounts(req: EvaluationRequest, step: TraceStep, hazard: Hazard, entry: RuleEntry) {
    Fires(req, hazard, entry) && exists w :: Along(req, step, hazard, entry, w)
  }

  /** Every walk by which the subject is reached has its line: one along a walk ending in
      the same kind of coupling and no longer. */
  ghost predicate Recorded(req: EvaluationRequest, trace: seq<TraceStep>, hazard: Hazard, entry: RuleEntry) {
    forall w :: ReachedBy(req, hazard, entry, w) ==> LineFor(req, trace, hazard, entry, w)
  }

  ghost predicate LineFor(
      req: EvaluationRequest, trace: seq<TraceStep>, hazard: Hazard, entry: RuleEntry, w: seq<CouplingEdge>) {
    exists i, v :: 0 <= i < |trace| && Along(req, trace[i], hazard, entry, v) && SameLastType(v, w) && |v| <= |w|
  }

  ghost predicate Governs(state: DecisionState, trace: seq<TraceStep>) {
    && (forall i :: 0 <= i < |trace| ==> trace[i].state.Severity() <= state.Severity())
    && (state == Allow || exists i :: 0 <= i < |trace| && trace[i].state == state)
  }

  /** Some line of the trace says so. */
  ghost predicate Shows(trace: seq<TraceStep>, state: DecisionState) {
    exists i :: 0 <= i < |trace| && trace[i].state == state
  }

  /** What the order of severities comes to: a block before a suspension before a warning,
      whatever else the trace shows. */
  lemma GovernsRanks(state: DecisionState, trace: seq<TraceStep>)
    requires Governs(state, trace)
    ensures state.Block? <==> Shows(trace, Block)
    ensures state.Suspend? <==> Shows(trace, Suspend) && !Shows(trace, Block)
    ensures state.Warn? <==> Shows(trace, Warn) && !Shows(trace, Suspend) && !Shows(trace, Block)
    ensures state.Allow? <==> !Shows(trace, Warn) && !Shows(trace, Suspend) && !Shows(trace, Block)
  {
    assert forall i :: 0 <= i < |trace| ==> trace[i].state.Severity() <= state.Severity();
  }

  ghost predicate LatestClear(clear: Option<Timestamp>, trace: seq<TraceStep>) {
    && (forall i :: 0 <= i < |trace| && trace[i].earliestClear.Some? ==>
        clear.Some? && trace[i].earliestClear.value <= clear.value)
    && (clear.Some? ==> exists i :: 0 <= i < |trace| && trace[i].earliestClear == clear)
  }

  /** The declarative meaning of an evaluation: the trace is what every rule has to say
      about every hazard, in order, and the state and the clear time are read off it. */
  ghost predicate IsVerdict(req: EvaluationRequest, v: Verdict) {
    && Told(req, Pairs(req.rules, req.at, req.hazards), v.trace)
    && Governs(v.state, v.trace)
    && LatestClear(v.earliestClear, v.trace)
  }

  // ----- Evaluation ---------------------------------------------------------------

  ghost predicate CascadeOf(req: EvaluationRequest, hazard: Hazard, entry: RuleEntry, hits: seq<CascadeHit>) {
    && entry.applies.Coupled?
    && IsCascade(req.graph, hazard.origin, TraversalBound(entry.applies.maxHops, Some(entry.applies.code)), hits)
  }

  lemma HitSays(req: EvaluationRequest, hazard: Hazard, entry: RuleEntry, hits: seq<CascadeHit>, k: nat)
    requires CascadeOf(req, hazard, entry, hits) && k < |hits| && hits[k].compartment == req.subject
    ensures Along(req, Step(entry, hazard, hits[k].path, req.at), hazard, entry, hits[k].path)
    ensures hits[k].path != []
  {
    hide Step, Admissible, IsCascade;
    var bound := TraversalBound(entry.applies.maxHops, Some(entry.applies.code));
    var w := hits[k].path;
    HitIsSound(req.graph, hazard.origin, bound, hits, k);
    assert ReachedBy(req, hazard, entry, w);
    forall v | ReachedBy(req, hazard, entry, v) && SameLastType(v, w)
      ensures |w| <= |v|
    {
      HitIsShortest(req.graph, hazard.origin, bound, hits, k, v);
    }
  }

  /** Two hits on one space end in different kinds of coupling. */
  lemma HitsDiffer(req: EvaluationRequest, hazard: Hazard, entry: RuleEntry, hits: seq<CascadeHit>, j: nat, k: nat)
    requires CascadeOf(req, hazard, entry, hits) && j < k < |hits|
    requires hits[j].compartment == req.subject && hits[k].compartment == req.subject
    ensures !SameLastType(hits[j].path, hits[k].path)
  {
    hide Step, Along, Admissible, ReachedBy, AllSound, Cascade.Covers;
    HitSays(req, hazard, entry, hits, j);
    HitSays(req, hazard, entry, hits, k);
    assert HitKey(hits[j]) != HitKey(hits[k]);
  }

  /** Every kind of coupling by which the subject is reached has a hit. */
  lemma WalkHasHit(
      req: EvaluationRequest, hazard: Hazard, entry: RuleEntry, hits: seq<CascadeHit>, w: seq<CouplingEdge>)
    returns (k: nat)
    requires CascadeOf(req, hazard, entry, hits) && ReachedBy(req, hazard, entry, w)
    ensures k < |hits| && hits[k].compartment == req.subject && SameLastType(hits[k].path, w)
  {
    hide Admissible;
    assert Covers(hits, KeyOf(w[|w| - 1]), |w|);
    k :| 0 <= k < |hits| && HitKey(hits[k]) == KeyOf(w[|w| - 1]) && |hits[k].path| <= |w|;
    HitIsSound(req.graph, hazard.origin, TraversalBound(entry.applies.maxHops, Some(entry.applies.code)), hits, k);
  }

  /** A line for every hit of the rule's cascade on the subject. */
  method CoupledLines(req: EvaluationRequest, hazard: Hazard, entry: RuleEntry) returns (lines: seq<TraceStep>)
    requires Live(entry, hazard, req.at) && entry.applies.Coupled?
    ensures Says(req, hazard, entry, lines)
  {
    hide Step, Along, IsCascade, ReachedBy, SameLastType, SomeSameType, Live;
    var bound := TraversalBound(entry.applies.maxHops, Some(entry.applies.code));
    var hits := CascadeFrom(req.graph, hazard.origin, bound);
    lines := [];
    ghost var walks: seq<seq<CouplingEdge>>, picked: seq<nat> := [], [];
    for k := 0 to |hits|
      invariant |walks| == |lines| == |picked|
      invariant forall i :: 0 <= i < |picked| ==>
                picked[i] < k && hits[picked[i]].compartment == req.subject && walks[i] == hits[picked[i]].path
      invariant forall i :: 0 <= i < |lines| ==> Along(req, lines[i], hazard, entry, walks[i])
      invariant forall i, j :: 0 <= i < j < |walks| ==> !SameLastType(walks[i], walks[j])
      invariant forall j :: 0 <= j < k && hits[j].compartment == req.subject ==> hits[j].path in walks
    {
      if hits[k].compartment != req.subject {
        continue;
      }
      HitSays(req, hazard, entry, hits, k);
      forall i | 0 <= i < |picked| ensures !SameLastType(walks[i], hits[k].path) {
        HitsDiffer(req, hazard, entry, hits, picked[i], k);
      }
      lines := lines + [Step(entry, hazard, hits[k].path, req.at)];
      walks := walks + [hits[k].path];
      picked := picked + [k];
    }
    forall w | ReachedBy(req, hazard, entry, w) ensures SomeSameType(walks, w) {
      var k := WalkHasHit(req, hazard, entry, hits, w);
      SomeOf(walks, hits[k].path, w);
    }
    assert SaysAlong(req, hazard, entry, lines, walks);
  }

  lemma SomeOf(walks: seq<seq<CouplingEdge>>, v: seq<CouplingEdge>, w: seq<CouplingEdge>)
    requires v in walks && SameLastType(v, w)
    ensures SomeSameType(walks, w)
  {
  }

  lemma SameSpaceSays(req: EvaluationRequest, hazard: Hazard, entry: RuleEntry)
    requires Live(entry, hazard, req.at) && entry.applies.SameSpace?
    ensures Says(req, hazard, entry, if hazard.origin == req.subject then [Step(entry, hazard, [], req.at)] else [])
  {
    hide Live, Step;
    if hazard.origin == req.subject {
      assert Along(req, Step(entry, hazard, [], req.at), hazard, entry, []);
      assert SaysAlong(req, hazard, entry, [Step(entry, hazard, [], req.at)], [[]]) by {
        assert SameLastType([[]][0], []);
      }
    } else {
      assert SaysAlong(req, hazard, entry, [], []);
    }
  }

  /** One rule against one hazard that has been raised. */
  method Lines(req: EvaluationRequest, hazard: Hazard, entry: RuleEntry) returns (lines: seq<TraceStep>)
    requires hazard.RaisedBy(req.at)
    ensures Says(req, hazard, entry, lines)
  {
    hide Step, SaysAlong;
    lines := [];
    var clock := HoldClock(entry, hazard, req.at);
    if (entry.holdFrom.Raise? && hazard.EndedBy(req.at)) || (clock.Some? && req.at >= clock.value) {
      return;
    }
    if entry.applies.SameSpace? {
      SameSpaceSays(req, hazard, entry);
      if hazard.origin == req.subject {
        lines := [Step(entry, hazard, [], req.at)];
      }
    } else {
      lines := CoupledLines(req, hazard, entry);
    }
  }

  lemma ToldMore(
      req: EvaluationRequest, pairs: seq<(Hazard, RuleEntry)>, trace: seq<TraceStep>, hazard: Hazard,
      entry: RuleEntry, lines: seq<TraceStep>)
    requires Told(req, pairs, trace) && Says(req, hazard, entry, lines)
    ensures Told(req, pairs + [(hazard, entry)], trace + lines)
  {
    hide Says;
    var all := trace + lines;
    assert (pairs + [(hazard, entry)])[..|pairs|] == pairs;
    assert all[..|trace|] == trace && all[|trace|..] == lines;
  }

  /** Every rule of a raised hazard's kind, in rule order, after what was told before. */
  method HazardLines(
      req: EvaluationRequest, hazard: Hazard, ghost before: seq<(Hazard, RuleEntry)>, ghost told: seq<TraceStep>)
    returns (added: seq<TraceStep>)
    requires hazard.RaisedBy(req.at) && Told(req, before, told)
    ensures Told(req, before + PairsFor(req.rules, req.at, hazard), told + added)
  {
    hide Told, Says;
    var entries := ForHazard(req.rules, hazard.kind);
    ghost var pairs := PairsFor(req.rules, req.at, hazard);
    added := [];
    assert before + pairs[..0] == before && told + added == told;
    for k := 0 to |entries|
      invariant Told(req, before + pairs[..k], told + added)
    {
      var lines := Lines(req, hazard, entries[k]);
      ToldMore(req, before + pairs[..k], told + added, hazard, entries[k], lines);
      assert before + pairs[..k + 1] == before + pairs[..k] + [(hazard, entries[k])];
      assert told + (added + lines) == told + added + lines;
      added := added + lines;
    }
    assert pairs[..|entries|] == pairs;
  }

  /** Every hazard against every rule its kind triggers. */
  method CollectTrace(req: EvaluationRequest) returns (trace: seq<TraceStep>)
    ensures Told(req, Pairs(req.rules, req.at, req.hazards), trace)
  {
    hide Says, PairsFor;
    trace := [];
    assert req.hazards[..0] == [];
    for i := 0 to |req.hazards|
      invariant Told(req, Pairs(req.rules, req.at, req.hazards[..i]), trace)
    {
      var hazard := req.hazards[i];
      PairsStep(req, i);
      if hazard.RaisedBy(req.at) {
        var added := HazardLines(req, hazard, Pairs(req.rules, req.at, req.hazards[..i]), trace);
        trace := trace + added;
      }
    }
    assert req.hazards[..|req.hazards|] == req.hazards;
  }

  lemma PairsStep(req: EvaluationRequest, i: nat)
    requires i < |req.hazards|
    ensures Pairs(req.rules, req.at, req.hazards[..i + 1]) ==
            Pairs(req.rules, req.at, req.hazards[..i]) + PairsFor(req.rules, req.at, req.hazards[i])
    ensures !req.hazards[i].RaisedBy(req.at) ==>
              Pairs(req.rules, req.at, req.hazards[..i + 1]) == Pairs(req.rules, req.at, req.hazards[..i])
  {
    assert req.hazards[..i + 1][..i] == req.hazards[..i];
  }

  /** The most severe state across the trace, `Allow` when it is empty. */
  method GoverningState(trace: seq<TraceStep>) returns (state: DecisionState)
    ensures Governs(state, trace)
    ensures state.Block? <==> Shows(trace, Block)
    ensures state.Suspend? <==> Shows(trace, Suspend) && !Shows(trace, Block)
    ensures state.Warn? <==> Shows(trace, Warn) && !Shows(trace, Suspend) && !Shows(trace, Block)
  {
    state := Allow;
    for i := 0 to |trace|
      invariant forall j :: 0 <= j < i ==> trace[j].state.Severity() <= state.Severity()
      invariant state == Allow || exists j :: 0 <= j < i && trace[j].state == state
    {
      state := state.MaxSeverity(trace[i].state);
    }
    GovernsRanks(state, trace);
  }

  /** The last of the trace's expiries. */
  method LastExpiry(trace: seq<TraceStep>) returns (clear: Option<Timestamp>)
    ensures LatestClear(clear, trace)
  {
    clear := None;
    for i := 0 to |trace|
      invariant forall j :: 0 <= j < i && trace[j].earliestClear.Some? ==>
                clear.Some? && trace[j].earliestClear.value <= clear.value
      invariant clear.Some? ==> exists j :: 0 <= j < i && trace[j].earliestClear == clear
    {
      if trace[i].earliestClear.Some? && (clear.None? || clear.value < trace[i].earliestClear.value) {
        clear := trace[i].earliestClear;
      }
    }
  }

  /** Evaluates the subject as of `req.at`. */
  method Evaluate(req: EvaluationRequest) returns (v: Verdict)
    ensures IsVerdict(req, v)
  {
    hide Told, Governs, LatestClear;
    var trace := CollectTrace(req);
    var state := GoverningState(trace);
    var clear := LastExpiry(trace);
    v := Verdict(state, trace, clear);
  }

  // ----- What a verdict means ---------------------------------------------------

  lemma {:induction false} PairsAre(
      rules: seq<RuleEntry>, at: Timestamp, hazards: seq<Hazard>, hazard: Hazard, entry: RuleEntry)
    ensures (hazard, entry) in Pairs(rules, at, hazards) <==>
              hazard in hazards && hazard.RaisedBy(at) && entry in rules && entry.hazard == hazard.kind
    decreases |hazards|
  {
    hide PairsFor;
    if hazards != [] {
      var n := |hazards| - 1;
      PairsAre(rules, at, hazards[..n], hazard, entry);
      PairsForAre(rules, at, hazards[n], hazard, entry);
      assert Pairs(rules, at, hazards) == Pairs(rules, at, hazards[..n]) + PairsFor(rules, at, hazards[n]);
      hide Pairs;
      assert hazard in hazards <==> hazard in hazards[..n] || hazard == hazards[n];
    }
  }

  lemma PairsForAre(rules: seq<RuleEntry>, at: Timestamp, h: Hazard, hazard: Hazard, entry: RuleEntry)
    ensures (hazard, entry) in PairsFor(rules, at, h) <==>
            hazard == h && h.RaisedBy(at) && entry in rules && entry.hazard == h.kind
  {
    var entries := ForHazard(rules, h.kind);
    assert entry in entries <==> entry in rules && entry.hazard == h.kind;
    if h.RaisedBy(at) && hazard == h && entry in entries {
      var i :| 0 <= i < |entries| && entries[i] == entry;
      assert PairsFor(rules, at, h)[i] == (hazard, entry);
    }
  }

  /** Each line is one of the pairs' firing. */
  lemma {:induction false} ToldAccounts(
      req: EvaluationRequest, pairs: seq<(Hazard, RuleEntry)>, trace: seq<TraceStep>, i: nat)
    returns (hazard: Hazard, entry: RuleEntry, w: seq<CouplingEdge>)
    requires Told(req, pairs, trace) && i < |trace|
    ensures (hazard, entry) in pairs && Live(entry, hazard, req.at) && Along(req, trace[i], hazard, entry, w)
    decreases |pairs|
  {
    hide Along, Live;
    var n := |pairs| - 1;
    var k :| 0 <= k <= |trace| && Told(req, pairs[..n], trace[..k]) && Says(req, pairs[n].0, pairs[n].1, trace[k..]);
    if i < k {
      hazard, entry, w := ToldAccounts(req, pairs[..n], trace[..k], i);
    } else {
      hazard, entry := pairs[n].0, pairs[n].1;
      var walks :| SaysAlong(req, hazard, entry, trace[k..], walks);
      assert trace[k..][i - k] == trace[i];
      w := walks[i - k];
    }
  }

  /** Each pair that fires has a line for every walk that reaches the subject. */
  lemma {:induction false} ToldRecords(
      req: EvaluationRequest, pairs: seq<(Hazard, RuleEntry)>, trace: seq<TraceStep>, hazard: Hazard,
      entry: RuleEntry)
    requires Told(req, pairs, trace) && (hazard, entry) in pairs && Live(entry, hazard, req.at)
    ensures Recorded(req, trace, hazard, entry)
    decreases |pairs|
  {
    hide Along, Live, SameLastType, ReachedBy;
    var n := |pairs| - 1;
    var k :| 0 <= k <= |trace| && Told(req, pairs[..n], trace[..k]) && Says(req, pairs[n].0, pairs[n].1, trace[k..]);
    if pairs[n] == (hazard, entry) {
      var walks :| SaysAlong(req, hazard, entry, trace[k..], walks);
      SaysRecords(req, hazard, entry, trace[k..], walks);
      RecordedIn(req, trace[..k], trace[k..], hazard, entry);
      assert trace[..k] + trace[k..] == trace;
    } else {
      assert (hazard, entry) in pairs[..n] by { assert pairs == pairs[..n] + [pairs[n]]; }
      ToldRecords(req, pairs[..n], trace[..k], hazard, entry);
      RecordedIn(req, trace[..k], trace[k..], hazard, entry);
      assert trace[..k] + trace[k..] == trace;
    }
  }

  lemma SaysRecords(
      req: EvaluationRequest, hazard: Hazard, entry: RuleEntry, lines: seq<TraceStep>, walks: seq<seq<CouplingEdge>>)
    requires SaysAlong(req, hazard, entry, lines, walks)
    ensures Recorded(req, lines, hazard, entry)
  {
    forall w | ReachedBy(req, hazard, entry, w) ensures LineFor(req, lines, hazard, entry, w) {
      assert SomeSameType(walks, w);
      hide ReachedBy, Step, SaysAlong;
      var i :| 0 <= i < |walks| && SameLastType(walks[i], w);
      assert Along(req, lines[i], hazard, entry, walks[i]) && SameLastType(w, walks[i]);
    }
  }

  lemma RecordedIn(req: EvaluationRequest, a: seq<TraceStep>, b: seq<TraceStep>, hazard: Hazard, entry: RuleEntry)
    requires Recorded(req, a, hazard, entry) || Recorded(req, b, hazard, entry)
    ensures Recorded(req, a + b, hazard, entry)
  {
    hide Along, ReachedBy, SameLastType;
    forall w | ReachedBy(req, hazard, entry, w) ensures LineFor(req, a + b, hazard, entry, w) {
      if Recorded(req, a, hazard, entry) {
        var i, v :| 0 <= i < |a| && Along(req, a[i], hazard, entry, v) && SameLastType(v, w) && |v| <= |w|;
        assert (a + b)[i] == a[i];
      } else {
        var i, v :| 0 <= i < |b| && Along(req, b[i], hazard, entry, v) && SameLastType(v, w) && |v| <= |w|;
        assert (a + b)[|a| + i] == b[i];
      }
    }
  }

  /** Every line of the trace is a rule firing, with that rule's state and clock. */
  lemma StepFires(req: EvaluationRequest, v: Verdict, i: nat) returns (hazard: Hazard, entry: RuleEntry)
    requires IsVerdict(req, v) && i < |v.trace|
    ensures Fires(req, hazard, entry) && Accounts(req, v.trace[i], hazard, entry)
    ensures v.trace[i].state == entry.state && v.trace[i].earliestClear == HoldClock(entry, hazard, req.at)
  {
    hide Governs, LatestClear, ReachedBy, Told, Pairs, Live;
    var w: seq<CouplingEdge>;
    hazard, entry, w := ToldAccounts(req, Pairs(req.rules, req.at, req.hazards), v.trace, i);
    PairsAre(req.rules, req.at, req.hazards, hazard, entry);
  }

  /** Every rule that fires is recorded along every kind of coupling it reaches by. */
  lemma FiringRecorded(req: EvaluationRequest, v: Verdict, hazard: Hazard, entry: RuleEntry)
    requires IsVerdict(req, v) && Fires(req, hazard, entry)
    ensures Recorded(req, v.trace, hazard, entry)
    ensures exists i ::
              0 <= i < |v.trace| && v.trace[i].state == entry.state
              && v.trace[i].earliestClear == HoldClock(entry, hazard, req.at)
  {
    hide Governs, LatestClear, Told, Pairs, ReachedBy;
    PairsAre(req.rules, req.at, req.hazards, hazard, entry);
    ToldRecords(req, Pairs(req.rules, req.at, req.hazards), v.trace, hazard, entry);
    hide IsVerdict, Live;
    var w :| ReachedBy(req, hazard, entry, w);
    LineSays(req, v.trace, hazard, entry, w);
  }

  lemma LineSays(req: EvaluationRequest, trace: seq<TraceStep>, hazard: Hazard, entry: RuleEntry, w: seq<CouplingEdge>)
    requires Recorded(req, trace, hazard, entry) && ReachedBy(req, hazard, entry, w)
    ensures exists i ::
              0 <= i < |trace| && trace[i].state == entry.state
              && trace[i].earliestClear == HoldClock(entry, hazard, req.at)
  {
    hide ReachedBy, Along, HoldClock, SameLastType;
    assert LineFor(req, trace, hazard, entry, w);
    var i, u :| 0 <= i < |trace| && Along(req, trace[i], hazard, entry, u) && SameLastType(u, w) && |u| <= |w|;
    AlongSays(req, trace[i], hazard, entry, u);
  }

  lemma AlongSays(req: EvaluationRequest, step: TraceStep, hazard: Hazard, entry: RuleEntry, w: seq<CouplingEdge>)
    requires Along(req, step, hazard, entry, w)
    ensures step.state == entry.state && step.earliestClear == HoldClock(entry, hazard, req.at)
  {
    hide ReachedBy, HoldClock, SameLastType;
  }

  lemma FiringBelowState(req: EvaluationRequest, v: Verdict, hazard: Hazard, entry: RuleEntry)
    requires IsVerdict(req, v) && Fires(req, hazard, entry)
    ensures entry.state.Severity() <= v.state.Severity()
  {
    hide Fires, LatestClear, Told, Pairs, Recorded;
    FiringRecorded(req, v, hazard, entry);
  }

  lemma StateIsFired(req: EvaluationRequest, v: Verdict) returns (hazard: Hazard, entry: RuleEntry)
    requires IsVerdict(req, v) && v.state != Allow
    ensures Fires(req, hazard, entry) && entry.state == v.state
  {
    hide LatestClear, Told, Fires, Accounts;
    var i :| 0 <= i < |v.trace| && v.trace[i].state == v.state;
    hazard, entry := StepFires(req, v, i);
  }

  /** Some rule with this state fires. */
  ghost predicate SomeFires(req: EvaluationRequest, state: DecisionState) {
    exists hazard, entry :: Fires(req, hazard, entry) && entry.state == state
  }

  lemma ShownIsFired(req: EvaluationRequest, v: Verdict, state: DecisionState)
    requires IsVerdict(req, v)
    ensures Shows(v.trace, state) <==> SomeFires(req, state)
  {
    hide IsVerdict, Fires, Recorded, Accounts;
    if i :| 0 <= i < |v.trace| && v.trace[i].state == state {
      var hazard, entry := StepFires(req, v, i);
    }
    if hazard, entry :| Fires(req, hazard, entry) && entry.state == state {
      FiringRecorded(req, v, hazard, entry);
    }
  }

  /** The answer read off the rules that fire: a block if any blocks, failing that a
      suspension if any suspends, failing that a warning if any warns. */
  lemma StateByFirings(req: EvaluationRequest, v: Verdict)
    requires IsVerdict(req, v)
    ensures v.state.Block? <==> SomeFires(req, Block)
    ensures v.state.Suspend? <==> SomeFires(req, Suspend) && !SomeFires(req, Block)
    ensures v.state.Warn? <==> SomeFires(req, Warn) && !SomeFires(req, Suspend) && !SomeFires(req, Block)
    ensures v.state.Allow? <==> !SomeFires(req, Warn) && !SomeFires(req, Suspend) && !SomeFires(req, Block)
  {
    ShownIsFired(req, v, Block);
    ShownIsFired(req, v, Suspend);
    ShownIsFired(req, v, Warn);
    GovernsRanks(v.state, v.trace);
    hide SomeFires, Shows, Told, Governs, LatestClear;
  }

  /** A request under which less fires is answered no more severely. */
  lemma FewerFiringsNoWorse(less: EvaluationRequest, more: EvaluationRequest, vless: Verdict, vmore: Verdict)
    requires IsVerdict(less, vless) && IsVerdict(more, vmore)
    requires forall hazard, entry :: Fires(less, hazard, entry) ==> Fires(more, hazard, entry)
    ensures vless.state.Severity() <= vmore.state.Severity()
  {
    hide Fires, IsVerdict;
    if vless.state != Allow {
      var hazard, entry := StateIsFired(less, vless);
      FiringBelowState(more, vmore, hazard, entry);
    }
  }

  /** Evaluation is a function: requests under which the same rules fire, at one instant or
      none at all, are answered alike, in state and in clear time. */
  lemma SameFiringsSameVerdict(r: EvaluationRequest, q: EvaluationRequest, a: Verdict, b: Verdict)
    requires IsVerdict(r, a) && IsVerdict(q, b) && (r.at == q.at || forall hazard, entry :: !Fires(r, hazard, entry))
    requires forall hazard, entry :: Fires(r, hazard, entry) <==> Fires(q, hazard, entry)
    ensures a.state == b.state && a.earliestClear == b.earliestClear
  {
    hide IsVerdict, Fires, LatestClear;
    FewerFiringsNoWorse(r, q, a, b);
    FewerFiringsNoWorse(q, r, b, a);
    ClearsNoLater(r, q, a, b);
    ClearsNoLater(q, r, b, a);
  }

  lemma ClearsNoLater(less: EvaluationRequest, more: EvaluationRequest, a: Verdict, b: Verdict)
    requires IsVerdict(less, a) && IsVerdict(more, b)
             && (less.at == more.at || forall hazard, entry :: !Fires(less, hazard, entry))
    requires forall hazard, entry :: Fires(less, hazard, entry) ==> Fires(more, hazard, entry)
    ensures a.earliestClear.Some? ==> b.earliestClear.Some? && a.earliestClear.value <= b.earliestClear.value
  {
    hide Fires, Told, Governs, HoldClock, Accounts, Recorded;
    if a.earliestClear.Some? {
      var i :| 0 <= i < |a.trace| && a.trace[i].earliestClear == a.earliestClear;
      var hazard, entry := StepFires(less, a, i);
      FiringRecorded(more, b, hazard, entry);
    }
  }

  lemma VerdictUnique(req: EvaluationRequest, a: Verdict, b: Verdict)
    requires IsVerdict(req, a) && IsVerdict(req, b)
    ensures a.state == b.state && a.earliestClear == b.earliestClear
  {
    SameFiringsSameVerdict(req, req, a, b);
  }

  /** Work is refused exactly when some rule that refuses work fires. */
  lemma RefusedIff(req: EvaluationRequest, v: Verdict)
    requires IsVerdict(req, v)
    ensures !v.state.PermitsWork() <==> exists hazard, entry :: Fires(req, hazard, entry) && !entry.state.PermitsWork()
  {
    hide IsVerdict, Fires;
    if !v.state.PermitsWork() {
      var hazard, entry := StateIsFired(req, v);
    }
    if hazard, entry :| Fires(req, hazard, entry) && !entry.state.PermitsWork() {
      FiringBelowState(req, v, hazard, entry);
    }
  }

  /** The rules judged by: those in effect, from their first instant and before their last,
      less those that name work types or categories without the one that is known. */
  lemma BoundToIff(rules: seq<RuleEntry>, work: Work, at: Timestamp, entry: RuleEntry)
    ensures entry in BoundTo(rules, ANY, at) <==>
              && entry in rules
              && (entry.binding.effectiveFrom.Some? ==> entry.binding.effectiveFrom.value <= at)
              && (entry.binding.effectiveTo.Some? ==> at < entry.binding.effectiveTo.value)
    ensures entry in BoundTo(rules, work, at) <==>
              && entry in BoundTo(rules, ANY, at)
              && (forall t :: work.workType == Some(t) && t !in entry.binding.workTypes ==>
                    entry.binding.workTypes == [])
              && (forall c :: work.category == Some(c) && c !in entry.binding.categories ==>
                    entry.binding.categories == [])
  {
  }

  lemma BoundToAny(rules: seq<RuleEntry>, work: Work, at: Timestamp, entry: RuleEntry)
    requires entry in BoundTo(rules, work, at)
    ensures entry in BoundTo(rules, ANY, at)
  {
  }

  /** Knowing the work can only relax the answer: unknown work, or work in an unknown
      space, is judged by every row a known one is judged by. */
  lemma UnknownWorkIsConservative(req: EvaluationRequest, work: Work, known: Verdict, unknown: Verdict)
    requires IsVerdict(req.(rules := BoundTo(req.rules, work, req.at)), known)
    requires IsVerdict(req.(rules := BoundTo(req.rules, ANY, req.at)), unknown)
    ensures known.state.Severity() <= unknown.state.Severity()
  {
    var a, b := req.(rules := BoundTo(req.rules, work, req.at)), req.(rules := BoundTo(req.rules, ANY, req.at));
    hide IsVerdict, Live;
    forall hazard, entry | Fires(a, hazard, entry) ensures Fires(b, hazard, entry) {
      BoundToAny(req.rules, work, req.at, entry);
      hide BoundTo, Admissible;
      var w :| ReachedBy(a, hazard, entry, w);
      assert ReachedBy(b, hazard, entry, w);
    }
    hide Fires;
    FewerFiringsNoWorse(a, b, known, unknown);
  }
}
