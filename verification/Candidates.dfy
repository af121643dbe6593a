/** The single actions proposed for a refused space, drawn from its own trace: the list
    misses no discharge and no interruption that would open it. */
module Candidates {
  import opened Sequences
  import opened Cascade
  import opened Decision
  import opened Mitigation
  import opened Footprint

  /** What a line of the trace suggests: ending its hazard, or cutting a hop of its path. */
  ghost predicate Suggests(step: TraceStep, a: Action) {
    a == DischargeAt(step.source, step.hazard) || exists i :: 0 <= i < |step.via| && CutsHop(step, a, i)
  }

  predicate CutsHop(step: TraceStep, a: Action, i: nat)
    requires i < |step.via|
  {
    i + 1 < |step.path| && a == InterruptBetween(step.path[i], step.path[i + 1], step.via[i])
  }

  ghost predicate Suggested(trace: seq<TraceStep>, a: Action) {
    exists k :: 0 <= k < |trace| && Suggests(trace[k], a)
  }

  /** The key an action is remembered under. */
  function ActionKey(a: Action): (string, string, string) {
    match a
    case DischargeAt(origin, name) => ("d", origin, name)
    case InterruptBetween(from, to, coupling) => ("i", from + "->" + to, coupling)
    case WaitUntil(_) => ("w", "", "")
  }

  /** No two actions share a key. */
  ghost predicate KeyedApart(out: seq<Action>) {
    forall i, j :: 0 <= i < j < |out| ==> ActionKey(out[i]) != ActionKey(out[j])
  }

  ghost predicate Remembered(out: seq<Action>, seen: set<(string, string, string)>) {
    && (forall k :: k in seen ==> exists a :: a in out && ActionKey(a) == k)
    && (forall a :: a in out ==> a.WaitUntil? || ActionKey(a) in seen)
    && KeyedApart(out)
  }

  /** `out` holds nothing but what the lines suggest, and something under the key of
      everything they suggest. */
  ghost predicate Draws(out: seq<Action>, seen: set<(string, string, string)>, trace: seq<TraceStep>) {
    && Remembered(out, seen)
    && (forall a :: a in out ==> a.WaitUntil? || Suggested(trace, a))
    && (forall a :: Suggested(trace, a) ==> ActionKey(a) in seen)
  }

  /** From `out0` to `out` by proposing what is `said`. */
  ghost predicate Adds(
      out0: seq<Action>, seen0: set<(string, string, string)>, said: seq<Action>,
      out: seq<Action>, seen: set<(string, string, string)>)
  {
    && Remembered(out, seen) && out0 <= out
    && (forall a :: a in out ==> a in out0 || a in said)
    && (forall k :: k in seen <==> k in seen0 || exists a :: a in said && ActionKey(a) == k)
  }

  /** Something not yet seen is proposed and remembered. */
  method Propose(a: Action, out0: seq<Action>, seen0: set<(string, string, string)>)
    returns (out: seq<Action>, seen: set<(string, string, string)>)
    ensures seen == seen0 + {ActionKey(a)} && out == if ActionKey(a) in seen0 then out0 else out0 + [a]
  {
    out, seen := out0, seen0;
    if ActionKey(a) !in seen {
      seen, out := seen + {ActionKey(a)}, out + [a];
    }
  }

  /** A list of candidates for a trace: offered waits and suggestions only, something under
      every suggestion's key, and no key twice. */
  ghost predicate IsList(req: EvaluationRequest, trace: seq<TraceStep>, out: seq<Action>) {
    && (forall a :: a in out ==> if a.WaitUntil? then Offers(req, a.until) else Suggested(trace, a))
    && (forall a :: Suggested(trace, a) ==> exists b :: b in out && ActionKey(b) == ActionKey(a))
    && KeyedApart(out)
  }

  /** The candidate actions: a settled wait first, if one is offered, then line by line the
      discharge and the cuts it suggests, each once. */
  method List(req: EvaluationRequest, v: Verdict) returns (out: seq<Action>)
    requires IsVerdict(req, v)
    ensures IsList(req, v.trace, out)
    ensures (exists t :: Offers(req, t)) ==> out != [] && out[0].WaitUntil?
  {
    hide IsVerdict, Offers, ActionKey, Draws, Adds, Suggests, KeyedApart, IsList;
    out := [];
    var seen: set<(string, string, string)> := {};
    var until := SettledWait(req, v);
    if until.Some? {
      out := [WaitUntil(until.value)];
    }
    NothingDrawn(out, v.trace);
    for k := 0 to |v.trace|
      invariant Draws(out, seen, v.trace[..k])
      invariant WaitFirst(out, until)
    {
      var step := v.trace[k];
      var discharge := DischargeAt(step.source, step.hazard);
      ghost var out0, seen0, said := out, seen, [discharge];
      out, seen := Propose(discharge, out, seen);
      FirstSaid(out0, seen0, v.trace[..k], discharge, out, seen);
      for i := 0 to |step.via|
        invariant Adds(out0, seen0, said, out, seen) && WaitFirst(out, until)
        invariant SaysHops(step, said, i)
      {
        if i + 1 >= |step.path| {
          NoHop(step, said, i);
          continue;
        }
        var a := InterruptBetween(step.path[i], step.path[i + 1], step.via[i]);
        ghost var before, known := out, seen;
        out, seen := Propose(a, out, seen);
        OneSaid(out0, seen0, said, before, known, a, out, seen);
        OneHop(step, said, i, a);
        said := said + [a];
      }
      StepDrawn(out0, seen0, v.trace, k, said, out, seen);
    }
    assert v.trace[..|v.trace|] == v.trace;
    AllDrawn(req, out, seen, v.trace, until);
  }

  /** The only wait is the one offered, and it comes first. */
  ghost predicate WaitFirst(out: seq<Action>, until: Option<Timestamp>) {
    && (forall a :: a in out && a.WaitUntil? ==> until == Some(a.until))
    && (until.Some? ==> out != [] && out[0].WaitUntil?)
  }

  ghost predicate SaysHops(step: TraceStep, said: seq<Action>, n: nat)
    requires n <= |step.via|
  {
    forall a :: a in said <==>
        a == DischargeAt(step.source, step.hazard) || exists i :: 0 <= i < n && CutsHop(step, a, i)
  }

  lemma NothingDrawn(out: seq<Action>, trace: seq<TraceStep>)
    requires |out| <= 1 && forall a :: a in out ==> a.WaitUntil?
    ensures Draws(out, {}, trace[..0])
  {
  }

  lemma StillRemembered(
      out0: seq<Action>, seen0: set<(string, string, string)>, a: Action,
      out: seq<Action>, seen: set<(string, string, string)>)
    requires Remembered(out0, seen0) && !a.WaitUntil?
    requires seen == seen0 + {ActionKey(a)} && out == if ActionKey(a) in seen0 then out0 else out0 + [a]
    ensures Remembered(out, seen)
  {
    forall b | b in out0 ensures ActionKey(b) == ActionKey(a) ==> ActionKey(a) in seen0 {
      assert b.WaitUntil? ==> ActionKey(b).0 == "w" && ActionKey(a).0 != "w" by {
        assert "w"[0] != "d"[0] && "w"[0] != "i"[0];
      }
    }
    hide ActionKey;
    if ActionKey(a) !in seen0 {
      assert out[|out0|] == a && forall b :: b in out0 ==> b in out;
    }
  }

  lemma FirstSaid(
      out0: seq<Action>, seen0: set<(string, string, string)>, trace: seq<TraceStep>, a: Action,
      out: seq<Action>, seen: set<(string, string, string)>)
    requires Draws(out0, seen0, trace)
    requires seen == seen0 + {ActionKey(a)} && out == if ActionKey(a) in seen0 then out0 else out0 + [a]
    requires !a.WaitUntil?
    ensures Adds(out0, seen0, [a], out, seen)
  {
    hide Suggested;
    StillRemembered(out0, seen0, a, out, seen);
    hide ActionKey, Remembered;
    if ActionKey(a) !in seen0 {
      assert a in out;
    }
    assert forall x :: x in out0 ==> x in out;
  }

  lemma OneSaid(
      out0: seq<Action>, seen0: set<(string, string, string)>, said: seq<Action>,
      before: seq<Action>, known: set<(string, string, string)>, a: Action,
      out: seq<Action>, seen: set<(string, string, string)>)
    requires Adds(out0, seen0, said, before, known)
    requires seen == known + {ActionKey(a)} && out == if ActionKey(a) in known then before else before + [a]
    requires !a.WaitUntil?
    ensures Adds(out0, seen0, said + [a], out, seen)
  {
    StillRemembered(before, known, a, out, seen);
    hide ActionKey, Remembered;
    assert forall x :: x in said + [a] <==> x in said || x == a;
    forall k ensures k in seen <==> k in seen0 || exists x :: x in said + [a] && ActionKey(x) == k {
      if k == ActionKey(a) {
        assert a in said + [a];
      } else if x :| x in said && ActionKey(x) == k {
        assert x in said + [a];
      }
    }
  }

  lemma NoHop(step: TraceStep, said: seq<Action>, i: nat)
    requires i < |step.via| && i + 1 >= |step.path| && SaysHops(step, said, i)
    ensures SaysHops(step, said, i + 1)
  {
  }

  lemma OneHop(step: TraceStep, said: seq<Action>, i: nat, a: Action)
    requires i < |step.via| && CutsHop(step, a, i) && SaysHops(step, said, i)
    ensures SaysHops(step, said + [a], i + 1)
  {
    forall b
      ensures b in said + [a] <==>
              b == DischargeAt(step.source, step.hazard) || exists j :: 0 <= j < i + 1 && CutsHop(step, b, j) {
    }
  }

  lemma StepDrawn(
      out0: seq<Action>, seen0: set<(string, string, string)>, trace: seq<TraceStep>, k: nat, said: seq<Action>,
      out: seq<Action>, seen: set<(string, string, string)>)
    requires k < |trace| && Draws(out0, seen0, trace[..k]) && Adds(out0, seen0, said, out, seen)
    requires SaysHops(trace[k], said, |trace[k].via|)
    ensures Draws(out, seen, trace[..k + 1])
  {
    hide ActionKey, CutsHop;
    forall a ensures Suggested(trace[..k + 1], a) <==> Suggested(trace[..k], a) || a in said {
      SuggestedStep(trace, k, a);
    }
    hide Suggested, SaysHops;
  }

  lemma SuggestedStep(trace: seq<TraceStep>, k: nat, a: Action)
    requires k < |trace|
    ensures Suggested(trace[..k + 1], a) <==> Suggested(trace[..k], a) || Suggests(trace[k], a)
  {
    hide Suggests;
    if i :| 0 <= i < |trace[..k]| && Suggests(trace[..k][i], a) {
      assert trace[..k + 1][i] == trace[i];
    }
    if Suggests(trace[k], a) {
      assert trace[..k + 1][k] == trace[k];
    }
  }

  lemma AllDrawn(
      req: EvaluationRequest, out: seq<Action>, seen: set<(string, string, string)>, trace: seq<TraceStep>,
      until: Option<Timestamp>)
    requires Draws(out, seen, trace) && WaitFirst(out, until)
    requires (until.Some? ==> Offers(req, until.value)) && (until.None? ==> forall t :: !Offers(req, t))
    ensures IsList(req, trace, out)
    ensures (exists t :: Offers(req, t)) ==> out != [] && out[0].WaitUntil?
  {
    hide ActionKey, Suggested, Offers, KeyedApart;
  }

  // ----- Nothing that would open the space is missed -------------------------------------------

  /** A line along `w` shows where the hazard is and every hop of the walk. */
  lemma LineShows(req: EvaluationRequest, step: TraceStep, hazard: Hazard, entry: RuleEntry, w: seq<CouplingEdge>)
    requires Along(req, step, hazard, entry, w)
    ensures step.source == hazard.origin && step.hazard == hazard.name
    ensures entry.applies.Coupled? ==> forall i :: 0 <= i < |w| ==>
              CutsHopOn(step, w, i) && w[i] in req.graph.edges
  {
    hide CutsHopOn;
    if entry.applies.Coupled? {
      var bound := TraversalBound(entry.applies.maxHops, Some(entry.applies.code));
      forall i | 0 <= i < |w| ensures CutsHopOn(step, w, i) && w[i] in req.graph.edges {
        hide ReachedBy, Along, Step;
        AdmissibleLast(req.graph, hazard.origin, bound, w, i);
        hide Admissible;
        HopShown(entry, hazard, w, req.at, i);
      }
    }
  }

  lemma HopShown(entry: RuleEntry, hazard: Hazard, w: seq<CouplingEdge>, at: Timestamp, i: nat)
    requires i < |w| && w[i].from == EndOf(hazard.origin, w[..i])
    ensures CutsHopOn(Step(entry, hazard, w, at), w, i)
  {
    var step := Step(entry, hazard, w, at);
    assert step.via[i] == w[i].code && step.path[i + 1] == w[i].to && step.path[i] == w[i].from;
  }

  predicate CutsHopOn(step: TraceStep, w: seq<CouplingEdge>, i: nat)
    requires i < |w|
  {
    i < |step.via| && CutsHop(step, InterruptBetween(w[i].from, w[i].to, w[i].code), i)
  }

  /** A refused verdict has a refusing rule, with a line along each way it reaches. */
  lemma RefusingLine(req: EvaluationRequest, v: Verdict)
    returns (hazard: Hazard, entry: RuleEntry, k: nat, w: seq<CouplingEdge>)
    requires IsVerdict(req, v) && !v.state.PermitsWork()
    ensures Fires(req, hazard, entry) && !entry.state.PermitsWork()
    ensures k < |v.trace| && Along(req, v.trace[k], hazard, entry, w)
  {
    hide IsVerdict, ReachedBy, Along, Live;
    RefusedIff(req, v);
    hazard, entry :| Fires(req, hazard, entry) && !entry.state.PermitsWork();
    FiringRecorded(req, v, hazard, entry);
    var reach: seq<CouplingEdge> :| ReachedBy(req, hazard, entry, reach);
    assert LineFor(req, v.trace, hazard, entry, reach);
    k, w :| 0 <= k < |v.trace| && Along(req, v.trace[k], hazard, entry, w) && SameLastType(w, reach) && |w| <= |reach|;
  }

  /** Ending one hazard leaves every other refusal standing. */
  lemma OthersStay(req: EvaluationRequest, origin: CompartmentNo, name: string, hazard: Hazard, entry: RuleEntry)
    requires Fires(req, hazard, entry) && !entry.state.PermitsWork()
    ensures (hazard.origin == origin && hazard.name == name) || Blocked(Discharge(req, origin, name))
  {
    DischargeFires(req, origin, name, hazard, entry);
    hide Fires;
  }

  /** If ending one hazard opens a refused space, the space's own trace suggests it. */
  lemma DischargeIsSuggested(req: EvaluationRequest, v: Verdict, origin: CompartmentNo, name: string)
    requires IsVerdict(req, v) && !v.state.PermitsWork() && !Blocked(Discharge(req, origin, name))
    ensures Suggested(v.trace, DischargeAt(origin, name))
  {
    hide IsVerdict, Along, Live;
    var hazard, entry, k, w := RefusingLine(req, v);
    LineShows(req, v.trace[k], hazard, entry, w);
    OthersStay(req, origin, name, hazard, entry);
    assert Suggests(v.trace[k], DischargeAt(origin, name));
  }

  /** If cutting one coupling opens a refused space, the trace suggests that cut, one way
      or the other. */
  lemma InterruptIsSuggested(
      req: EvaluationRequest, v: Verdict, from: CompartmentNo, to: CompartmentNo, coupling: string)
    requires IsVerdict(req, v) && !v.state.PermitsWork() && !Blocked(Interrupt(req, from, to, coupling))
    ensures Suggested(v.trace, InterruptBetween(from, to, coupling))
            || Suggested(v.trace, InterruptBetween(to, from, coupling))
  {
    hide IsVerdict, Live;
    var hazard, entry, k, w := RefusingLine(req, v);
    LineShows(req, v.trace[k], hazard, entry, w);
    var i := CutOnWalk(req, from, to, coupling, hazard, entry, w);
    hide Along;
    var a := InterruptBetween(w[i].from, w[i].to, w[i].code);
    assert CutsHopOn(v.trace[k], w, i) && CutsHop(v.trace[k], a, i);
    assert Suggests(v.trace[k], a);
  }

  /** A refusal along a walk the cut misses stands. */
  lemma UncutStays(
      req: EvaluationRequest, from: CompartmentNo, to: CompartmentNo, coupling: string,
      hazard: Hazard, entry: RuleEntry, w: seq<CouplingEdge>)
    requires Fires(req, hazard, entry) && !entry.state.PermitsWork() && ReachedBy(req, hazard, entry, w)
    requires forall j :: 0 <= j < |w| ==> !Cut(w[j], from, to, coupling)
    ensures Blocked(Interrupt(req, from, to, coupling))
  {
    forall j | 0 <= j < |w| ensures Spared([w[j]], from, to, coupling) {
      CutIff(w[j], from, to, coupling);
    }
    assert forall j :: 0 <= j < |w| ==> [w[j]][0] == w[j];
    assert Spared(w, from, to, coupling);
    InterruptFires(req, from, to, coupling, hazard, entry);
    hide Fires, ReachedBy, Spared;
  }

  /** A cut that stops every refusing rule is on each walk of each. */
  lemma CutOnWalk(
      req: EvaluationRequest, from: CompartmentNo, to: CompartmentNo, coupling: string,
      hazard: Hazard, entry: RuleEntry, w: seq<CouplingEdge>) returns (i: nat)
    requires Fires(req, hazard, entry) && !entry.state.PermitsWork() && ReachedBy(req, hazard, entry, w)
    requires !Blocked(Interrupt(req, from, to, coupling))
    ensures entry.applies.Coupled? && i < |w| && Cut(w[i], from, to, coupling)
  {
    hide Fires, Blocked, WalkTo;
    if forall j :: 0 <= j < |w| ==> !Cut(w[j], from, to, coupling) {
      UncutStays(req, from, to, coupling, hazard, entry, w);
    }
    i :| 0 <= i < |w| && Cut(w[i], from, to, coupling);
  }

  // ----- Keys keep actions apart ------------------------------------------------------------------

  /** No name holds the character an arrow ends in. */
  predicate NoArrow(name: string) {
    forall i :: 0 <= i < |name| ==> name[i] != '>'
  }

  /** What stands before the arrow is read off its place: no earlier '>' is met. */
  lemma ArrowAt(a: string, b: string, s: string)
    requires NoArrow(a) && s == a + "->" + b
    ensures |s| == |a| + 2 + |b| && s[|a| + 1] == '>' && s[..|a|] == a && s[|a| + 2..] == b
    ensures forall j :: 0 <= j <= |a| ==> s[j] != '>'
  {
    forall j | 0 <= j <= |a| ensures s[j] != '>' {
      assert j < |a| ==> s[j] == a[j];
    }
  }

  lemma ArrowSplits(a: string, b: string, c: string, d: string)
    requires NoArrow(a) && NoArrow(c) && a + "->" + b == c + "->" + d
    ensures a == c && b == d
  {
    var s := a + "->" + b;
    ArrowAt(a, b, s);
    ArrowAt(c, d, s);
  }

  ghost predicate PlainTrace(trace: seq<TraceStep>) {
    forall k, i :: 0 <= k < |trace| && 0 <= i < |trace[k].path| ==> NoArrow(trace[k].path[i])
  }

  lemma KeysApart(trace: seq<TraceStep>, a: Action, b: Action)
    requires PlainTrace(trace) && Suggested(trace, a) && Suggested(trace, b) && ActionKey(a) == ActionKey(b)
    ensures a == b
  {
    KindOfKey(a, b);
    if a.InterruptBetween? {
      PlainEnds(trace, a);
      PlainEnds(trace, b);
      ArrowSplits(a.from, a.to, b.from, b.to);
    }
  }

  lemma KindOfKey(a: Action, b: Action)
    requires ActionKey(a) == ActionKey(b) && !a.WaitUntil? && !b.WaitUntil?
    ensures a.InterruptBetween? <==> b.InterruptBetween?
  {
    assert "d"[0] != "i"[0];
  }

  lemma PlainEnds(trace: seq<TraceStep>, a: Action)
    requires PlainTrace(trace) && Suggested(trace, a) && a.InterruptBetween?
    ensures NoArrow(a.from) && NoArrow(a.to)
  {
    var k :| 0 <= k < |trace| && Suggests(trace[k], a);
    var i :| 0 <= i < |trace[k].via| && CutsHop(trace[k], a, i);
  }

  /** Different suggestions have different keys. */
  ghost predicate OneKeyEach(trace: seq<TraceStep>) {
    forall a, b :: Suggested(trace, a) && Suggested(trace, b) && ActionKey(a) == ActionKey(b) ==> a == b
  }

  /** Every suggestion is on the list if and only if no two of them share a key. */
  lemma AllListedIff(req: EvaluationRequest, trace: seq<TraceStep>, out: seq<Action>)
    requires IsList(req, trace, out)
    ensures (forall a :: Suggested(trace, a) ==> a in out) <==> OneKeyEach(trace)
  {
    hide ActionKey, Suggested, Offers, KeyedApart;
    if OneKeyEach(trace) {
      forall a | Suggested(trace, a) ensures a in out {
        var b :| b in out && ActionKey(b) == ActionKey(a);
        NoWaitKey(trace, a, b);
      }
    }
    if forall a :: Suggested(trace, a) ==> a in out {
      forall a, b | Suggested(trace, a) && Suggested(trace, b) && ActionKey(a) == ActionKey(b) ensures a == b {
        SameEntry(out, a, b);
      }
    }
  }

  lemma SameEntry(out: seq<Action>, a: Action, b: Action)
    requires KeyedApart(out) && a in out && b in out && ActionKey(a) == ActionKey(b)
    ensures a == b
  {
    hide ActionKey;
    var i :| 0 <= i < |out| && out[i] == a;
    var j :| 0 <= j < |out| && out[j] == b;
  }

  /** Names without the character an arrow ends in keep the keys apart. */
  lemma PlainKeysTell(trace: seq<TraceStep>)
    requires PlainTrace(trace)
    ensures OneKeyEach(trace)
  {
    hide ActionKey, Suggested, PlainTrace;
    forall a, b | Suggested(trace, a) && Suggested(trace, b) && ActionKey(a) == ActionKey(b) ensures a == b {
      KeysApart(trace, a, b);
    }
  }

  /** Where keys tell suggestions apart the list is complete for single actions: every
      discharge that opens a refused space is on it, and every interruption that does, one
      way or the other. */
  lemma ListIsComplete(req: EvaluationRequest, v: Verdict, out: seq<Action>)
    requires IsVerdict(req, v) && !v.state.PermitsWork() && IsList(req, v.trace, out) && OneKeyEach(v.trace)
    ensures forall origin, name :: !Blocked(Discharge(req, origin, name)) ==> DischargeAt(origin, name) in out
    ensures forall from, to, coupling :: !Blocked(Interrupt(req, from, to, coupling)) ==>
              InterruptBetween(from, to, coupling) in out || InterruptBetween(to, from, coupling) in out
  {
    AllListedIff(req, v.trace, out);
    hide IsVerdict, IsList, Blocked, Suggested, OneKeyEach;
    forall origin, name | !Blocked(Discharge(req, origin, name)) ensures DischargeAt(origin, name) in out {
      DischargeIsSuggested(req, v, origin, name);
    }
    forall from, to, coupling | !Blocked(Interrupt(req, from, to, coupling))
      ensures InterruptBetween(from, to, coupling) in out || InterruptBetween(to, from, coupling) in out
    {
      InterruptIsSuggested(req, v, from, to, coupling);
    }
  }

  lemma NoWaitKey(trace: seq<TraceStep>, a: Action, b: Action)
    requires Suggested(trace, a) && ActionKey(b) == ActionKey(a)
    ensures !b.WaitUntil?
  {
    assert "w"[0] != "d"[0] && "w"[0] != "i"[0];
  }

  // ----- Names that hold an arrow -----------------------------------------------------------------

  const HOPS := [
    CouplingEdge("a", "b->c", 0, "q", 3), CouplingEdge("b->c", "a->b", 0, "q", 3), CouplingEdge("a->b", "c", 0, "q", 3)]
  const RULE := RuleEntry(
      "R", 1, CoatingOpen, Coupled("q", 3), Block, None, Raise, RuleBinding([], [], None, None))
  const COAT := Hazard("a", CoatingOpen, 0, "", None)
  const BOUND := TraversalBound(3, Some("q"))

  /** One way from the coat to the space asked about, whose first and last hops read alike. */
  function ArrowWorld(): EvaluationRequest {
    EvaluationRequest("c", AdjacencyGraph(HOPS), [RULE], [COAT], 0)
  }

  lemma WalkSplits(g: AdjacencyGraph, origin: CompartmentNo, bound: TraversalBound, w: seq<CouplingEdge>)
    requires Admissible(g, origin, bound, w) && w != []
    ensures var n := |w| - 1;
            && Admissible(g, origin, bound, w[..n]) && w[n] in g.edges && w[n].from == EndOf(origin, w[..n])
            && w[n].to != origin
  {
    hide EndOf;
  }

  /** A walk to where a single coupling leads ends with that coupling. */
  lemma LastHop(
      g: AdjacencyGraph, origin: CompartmentNo, bound: TraversalBound, w: seq<CouplingEdge>, e: CouplingEdge)
    requires Admissible(g, origin, bound, w) && EndOf(origin, w) == e.to && e.to != origin
    requires forall x :: x in g.edges && x.to == e.to ==> x == e
    ensures w != [] && e in g.edges && w == w[..|w| - 1] + [e]
    ensures Admissible(g, origin, bound, w[..|w| - 1]) && EndOf(origin, w[..|w| - 1]) == e.from
  {
    hide Admissible;
    WalkSplits(g, origin, bound, w);
    assert w == w[..|w| - 1] + [w[|w| - 1]];
  }

  lemma HopsApart()
    ensures |HOPS| == 3 && HOPS[0].from == "a" && HOPS[2].to == "c"
    ensures HOPS[1].from == HOPS[0].to && HOPS[2].from == HOPS[1].to
    ensures HOPS[0].to != "a" && HOPS[1].to != "a" && HOPS[2].to != "a"
    ensures HOPS[0].to != HOPS[1].to && HOPS[0].to != HOPS[2].to && HOPS[1].to != HOPS[2].to
  {
    assert |HOPS[0].to| == 4 && |HOPS[1].to| == 4 && |HOPS[2].to| == 1;
    assert HOPS[0].to[0] == 'b' && HOPS[1].to[0] == 'a' && HOPS[2].to[0] == 'c';
  }

  lemma OnlyHop(g: AdjacencyGraph, i: nat)
    requires i < |HOPS| && forall x :: x in g.edges ==> x in HOPS
    ensures forall x :: x in g.edges && x.to == HOPS[i].to ==> x == HOPS[i]
  {
    HopsApart();
    hide HOPS;
    forall x | x in HOPS ensures x == HOPS[0] || x == HOPS[1] || x == HOPS[2] {
      var j :| 0 <= j < |HOPS| && HOPS[j] == x;
    }
  }

  /** Every walk to the space is the one way there. */
  lemma OneWay(g: AdjacencyGraph, w: seq<CouplingEdge>)
    requires Admissible(g, "a", BOUND, w) && EndOf("a", w) == "c" && forall x :: x in g.edges ==> x in HOPS
    ensures forall x :: x in HOPS ==> x in g.edges
    ensures w == HOPS
  {
    HopsApart();
    hide Admissible, HOPS, EndOf;
    OnlyHop(g, 0);
    OnlyHop(g, 1);
    OnlyHop(g, 2);
    LastHop(g, "a", BOUND, w, HOPS[2]);
    var u := w[..|w| - 1];
    LastHop(g, "a", BOUND, u, HOPS[1]);
    var t := u[..|u| - 1];
    LastHop(g, "a", BOUND, t, HOPS[0]);
    var o := t[..|t| - 1];
    NeverHome(g, "a", BOUND, o);
    assert t == [HOPS[0]] && u == [HOPS[0], HOPS[1]] && w == [HOPS[0], HOPS[1], HOPS[2]];
    assert HOPS == [HOPS[0], HOPS[1], HOPS[2]];
  }

  lemma NeverHome(g: AdjacencyGraph, origin: CompartmentNo, bound: TraversalBound, w: seq<CouplingEdge>)
    requires Admissible(g, origin, bound, w)
    ensures EndOf(origin, w) == origin ==> w == []
  {
    hide Admissible;
    if w != [] {
      WalkSplits(g, origin, bound, w);
    }
  }

  /** Cutting any hop of the one way opens the space. */
  lemma AnyCutOpens(hop: CouplingEdge)
    requires hop in HOPS
    ensures !Blocked(Interrupt(ArrowWorld(), hop.from, hop.to, hop.code))
  {
    var cut := Interrupt(ArrowWorld(), hop.from, hop.to, hop.code);
    assert hop !in cut.graph.edges;
    forall hazard, entry ensures !Fires(cut, hazard, entry) {
      if Fires(cut, hazard, entry) {
        var w :| ReachedBy(cut, hazard, entry, w);
        OneWay(cut.graph, w);
        assert false;
      }
    }
  }

  lemma HopsAdmissible()
    ensures WalkTo(AdjacencyGraph(HOPS), "a", BOUND, "c", HOPS)
  {
    HopsApart();
    var g := AdjacencyGraph(HOPS);
    assert forall i :: 0 <= i < 3 ==> HOPS[i].code == "q" && HOPS[i].maxReach == 3;
    hide HOPS;
    assert HOPS[..0] == [] && HOPS[..1] == [HOPS[0]] && HOPS[..2] == HOPS[..1] + [HOPS[1]];
    assert HOPS == HOPS[..2] + [HOPS[2]];
    assert Admissible(g, "a", BOUND, []);
    hide Admissible;
    ExtendAdmissible(g, "a", BOUND, [], HOPS[0]);
    ExtendAdmissible(g, "a", BOUND, HOPS[..1], HOPS[1]);
    ExtendAdmissible(g, "a", BOUND, HOPS[..2], HOPS[2]);
  }

  lemma ArrowIsBlocked()
    ensures Fires(ArrowWorld(), COAT, RULE)
  {
    HopsAdmissible();
    hide Admissible;
    assert ArrowWorld().hazards[0] == COAT && ArrowWorld().rules[0] == RULE;
    assert ReachedBy(ArrowWorld(), COAT, RULE, HOPS);
  }

  /** Two cuts that open the space, of which no list holds both: they share a key. */
  lemma ArrowHidesACut(v: Verdict, out: seq<Action>)
    requires IsVerdict(ArrowWorld(), v) && IsList(ArrowWorld(), v.trace, out)
    ensures !Blocked(Interrupt(ArrowWorld(), "a", "b->c", "q")) && !Blocked(Interrupt(ArrowWorld(), "a->b", "c", "q"))
    ensures !v.state.PermitsWork() && !OneKeyEach(v.trace)
    ensures InterruptBetween("a", "b->c", "q") !in out || InterruptBetween("a->b", "c", "q") !in out
  {
    hide IsVerdict, Blocked, Fires, Suggested, Offers;
    AnyCutOpens(HOPS[0]);
    AnyCutOpens(HOPS[2]);
    ArrowIsBlocked();
    RefusedIff(ArrowWorld(), v);
    BothSuggested(v);
    SameKey();
    hide HOPS, ActionKey;
  }

  lemma SameKey()
    ensures var first, last := InterruptBetween("a", "b->c", "q"), InterruptBetween("a->b", "c", "q");
            ActionKey(first) == ActionKey(last) && first != last
  {
    assert "a" + "->" + "b->c" == "a->b" + "->" + "c";
    assert |"a"| != |"a->b"|;
  }

  lemma BothSuggested(v: Verdict)
    requires IsVerdict(ArrowWorld(), v) && !v.state.PermitsWork()
    ensures Suggested(v.trace, InterruptBetween("a", "b->c", "q"))
    ensures Suggested(v.trace, InterruptBetween("a->b", "c", "q"))
  {
    hide IsVerdict;
    var hazard, entry, k, w := RefusingLine(ArrowWorld(), v);
    LineShows(ArrowWorld(), v.trace[k], hazard, entry, w);
    OneWay(AdjacencyGraph(HOPS), w);
    hide Along, Admissible;
    assert CutsHopOn(v.trace[k], w, 0) && CutsHopOn(v.trace[k], w, 2);
    assert Suggests(v.trace[k], InterruptBetween("a", "b->c", "q"));
    assert Suggests(v.trace[k], InterruptBetween("a->b", "c", "q"));
  }
}
