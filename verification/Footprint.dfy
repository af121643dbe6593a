/** Which spaces a mitigation can touch: the plain reach of what it changes is an
    overapproximation of every hazard's walk, as long as hops are still counted. */
module Footprint {
  import opened Sequences
  import opened Cascade
  import opened Decision
  import opened Mitigation

  function Set<T(==)>(s: seq<T>): set<T> {
    set x | x in s
  }

  // ----- Plain reach ------------------------------------------------------------------

  /** The largest reach of any coupling. */
  function MaxReach(edges: seq<CouplingEdge>): (m: HopDepth)
    ensures forall e :: e in edges ==> e.maxReach <= m
  {
    if edges == [] then 0
    else
      var n := |edges| - 1;
      assert edges == edges[..n] + [edges[n]];
      if MaxReach(edges[..n]) < edges[n].maxReach then edges[n].maxReach else MaxReach(edges[..n])
  }

  lemma {:induction false} MaxReachAttained(edges: seq<CouplingEdge>, bound: HopDepth)
    requires forall e :: e in edges ==> e.maxReach <= bound
    ensures MaxReach(edges) <= bound
  {
    if edges != [] {
      MaxReachAttained(edges[..|edges| - 1], bound);
    }
  }

  ghost function Ends(edges: seq<CouplingEdge>, from: set<CompartmentNo>): set<CompartmentNo> {
    set e | e in edges && e.from in from :: e.to
  }

  /** The spaces within `n` couplings of the seeds, whatever the couplings carry. */
  ghost function Around(edges: seq<CouplingEdge>, seeds: set<CompartmentNo>, n: nat): set<CompartmentNo> {
    if n == 0 then seeds else Around(edges, seeds, n - 1) + Ends(edges, Around(edges, seeds, n - 1))
  }

  lemma {:induction false} AroundGrows(edges: seq<CouplingEdge>, seeds: set<CompartmentNo>, m: nat, n: nat)
    requires m <= n
    ensures Around(edges, seeds, m) <= Around(edges, seeds, n)
  {
    if m < n {
      AroundGrows(edges, seeds, m, n - 1);
    }
  }

  /** Once a step adds nothing, none does. */
  lemma {:induction false} AroundSettles(edges: seq<CouplingEdge>, seeds: set<CompartmentNo>, m: nat, n: nat)
    requires m <= n && Around(edges, seeds, m + 1) == Around(edges, seeds, m)
    ensures Around(edges, seeds, n) == Around(edges, seeds, m)
  {
    hide Around, Ends;
    if m < n {
      AroundSettles(edges, seeds, m, n - 1);
      Succ(edges, seeds, n - 1);
      Succ(edges, seeds, m);
    }
  }

  lemma {:induction false} AroundMonotone(
      fewer: seq<CouplingEdge>, more: seq<CouplingEdge>, a: set<CompartmentNo>, b: set<CompartmentNo>, n: nat)
    requires (forall e :: e in fewer ==> e in more) && a <= b
    ensures Around(fewer, a, n) <= Around(more, b, n)
  {
    if n > 0 {
      AroundMonotone(fewer, more, a, b, n - 1);
    }
  }

  function Targets(edges: seq<CouplingEdge>, from: CompartmentNo): seq<CompartmentNo> {
    Map((e: CouplingEdge) => e.to, Filter((e: CouplingEdge) => e.from == from, edges))
  }

  method LargestReach(edges: seq<CouplingEdge>) returns (maxHops: HopDepth)
    ensures maxHops == MaxReach(edges)
  {
    maxHops := 0;
    for i := 0 to |edges|
      invariant maxHops == MaxReach(edges[..i])
    {
      assert edges[..i + 1][..i] == edges[..i];
      if maxHops < edges[i].maxReach { maxHops := edges[i].maxReach; }
    }
    assert edges[..|edges|] == edges;
  }

  /** One hop: every neighbour of the frontier not yet seen. */
  method Spread(edges: seq<CouplingEdge>, frontier: seq<CompartmentNo>, before: set<CompartmentNo>)
    returns (seen: set<CompartmentNo>, next: seq<CompartmentNo>)
    ensures seen == before + Ends(edges, Set(frontier))
    ensures forall s :: s in next <==> s in seen && s !in before
  {
    seen, next := before, [];
    hide Ends, Targets;
    NoEnds(edges);
    for i := 0 to |frontier|
      invariant seen == before + Ends(edges, Set(frontier[..i]))
      invariant forall s :: s in next <==> s in seen && s !in before
    {
      ghost var reached := seen;
      var to := Targets(edges, frontier[i]);
      for j := 0 to |to|
        invariant seen == reached + Set(to[..j])
        invariant forall s :: s in next <==> s in seen && s !in before
      {
        assert to[..j + 1] == to[..j] + [to[j]];
        if to[j] !in seen {
          seen := seen + {to[j]};
          next := next + [to[j]];
        }
      }
      assert to[..|to|] == to;
      TargetsAre(edges, frontier, i);
    }
    assert frontier[..|frontier|] == frontier;
  }

  lemma NoEnds(edges: seq<CouplingEdge>)
    ensures Ends(edges, {}) == {} && Set<CompartmentNo>([]) == {}
  {
  }

  /** The breadth-first search: neighbours of the frontier, hop by hop, up to the largest
      reach of any coupling. */
  method Reach(graph: AdjacencyGraph, seeds: seq<CompartmentNo>) returns (seen: set<CompartmentNo>)
    ensures seen == Around(graph.edges, Set(seeds), MaxReach(graph.edges))
  {
    hide MaxReach, Around, Ends;
    var edges := graph.edges;
    var maxHops := LargestReach(edges);
    seen := Set(seeds);
    var frontier := seeds;
    Zero(edges, Set(seeds));
    EndsFirst(edges, seen, frontier);
    for hop := 0 to maxHops
      invariant seen == Around(edges, Set(seeds), hop)
      invariant Set(frontier) <= seen
      invariant Ends(edges, seen) <= seen + Ends(edges, Set(frontier))
    {
      ghost var before := seen;
      var next;
      seen, next := Spread(edges, frontier, seen);
      Succ(edges, Set(seeds), hop);
      EndsWithin(edges, before, Set(frontier));
      assert seen == Around(edges, Set(seeds), hop + 1);
      if next == [] {
        assert seen == before;
        AroundSettles(edges, Set(seeds), hop, maxHops);
        break;
      }
      EndsNext(edges, before, seen, Set(next));
      frontier := next;
    }
  }

  lemma EndsFirst(edges: seq<CouplingEdge>, seen: set<CompartmentNo>, frontier: seq<CompartmentNo>)
    requires seen == Set(frontier)
    ensures Ends(edges, seen) <= seen + Ends(edges, Set(frontier))
  {
  }

  lemma EndsWithin(edges: seq<CouplingEdge>, seen: set<CompartmentNo>, frontier: set<CompartmentNo>)
    requires frontier <= seen && Ends(edges, seen) <= seen + Ends(edges, frontier)
    ensures seen + Ends(edges, seen) == seen + Ends(edges, frontier)
  {
    assert Ends(edges, frontier) <= Ends(edges, seen);
  }

  lemma EndsNext(
      edges: seq<CouplingEdge>, before: set<CompartmentNo>, seen: set<CompartmentNo>, next: set<CompartmentNo>)
    requires seen == before + next && Ends(edges, before) <= seen
    ensures Ends(edges, seen) <= seen + Ends(edges, next)
  {
  }

  lemma Zero(edges: seq<CouplingEdge>, seeds: set<CompartmentNo>)
    ensures Around(edges, seeds, 0) == seeds
  {
  }

  lemma Succ(edges: seq<CouplingEdge>, seeds: set<CompartmentNo>, n: nat)
    ensures Around(edges, seeds, n + 1) == Around(edges, seeds, n) + Ends(edges, Around(edges, seeds, n))
  {
  }

  lemma TargetsAre(edges: seq<CouplingEdge>, frontier: seq<CompartmentNo>, i: nat)
    requires i < |frontier|
    ensures Ends(edges, Set(frontier[..i + 1])) == Ends(edges, Set(frontier[..i])) + Set(Targets(edges, frontier[i]))
  {
    var from := frontier[i];
    var out := Filter((e: CouplingEdge) => e.from == from, edges);
    assert frontier[..i + 1] == frontier[..i] + [from];
    forall e | e in edges && e.from == from ensures e.to in Targets(edges, from) {
      var j :| 0 <= j < |out| && out[j] == e;
      assert Targets(edges, from)[j] == e.to;
    }
    forall s | s in Targets(edges, from) ensures s in Ends(edges, {from}) {
      var j :| 0 <= j < |out| && Targets(edges, from)[j] == s;
      assert out[j] in out;
    }
  }

  // ----- Walks stay within plain reach --------------------------------------------------

  /** Hops are counted: below the largest byte either the rules or the couplings bound
      every walk. */
  predicate Counts(maxHops: HopDepth, maxReach: HopDepth) {
    maxHops < 255 || maxReach < 255
  }

  ghost predicate AllCount(req: EvaluationRequest) {
    forall e :: e in req.rules && e.applies.Coupled? ==> Counts(e.applies.maxHops, MaxReach(req.graph.edges))
  }

  lemma WalkIsShort(g: AdjacencyGraph, origin: CompartmentNo, bound: TraversalBound, w: seq<CouplingEdge>)
    requires Admissible(g, origin, bound, w) && Counts(bound.maxHops, MaxReach(g.edges))
    ensures |w| <= MaxReach(g.edges)
  {
    if w != [] {
      AdmissibleLast(g, origin, bound, w, |w| - 1);
      hide Admissible;
      assert w[|w| - 1].maxReach <= MaxReach(g.edges);
    }
  }

  /** From any space on a walk, the end is as near as the couplings still to cross. */
  lemma {:induction false} WalkFromMiddle(
      g: AdjacencyGraph, origin: CompartmentNo, bound: TraversalBound, w: seq<CouplingEdge>, i: nat,
      seeds: set<CompartmentNo>)
    requires Admissible(g, origin, bound, w) && i <= |w| && EndOf(origin, w[..i]) in seeds
    ensures EndOf(origin, w) in Around(g.edges, seeds, |w| - i)
  {
    if i < |w| {
      var n := |w| - 1;
      assert w[..n][..i] == w[..i];
      WalkFromMiddle(g, origin, bound, w[..n], i, seeds);
    } else {
      assert w[..i] == w;
    }
  }

  lemma WalkAfter(
      g: AdjacencyGraph, origin: CompartmentNo, bound: TraversalBound, w: seq<CouplingEdge>, i: nat,
      seeds: set<CompartmentNo>)
    requires Admissible(g, origin, bound, w) && Counts(bound.maxHops, MaxReach(g.edges))
    requires i <= |w| && EndOf(origin, w[..i]) in seeds
    ensures EndOf(origin, w) in Around(g.edges, seeds, MaxReach(g.edges))
  {
    WalkIsShort(g, origin, bound, w);
    WalkFromMiddle(g, origin, bound, w, i, seeds);
    AroundGrows(g.edges, seeds, |w| - i, MaxReach(g.edges));
  }

  // ----- Actions ----------------------------------------------------------------------------

  datatype Action =
    | DischargeAt(origin: CompartmentNo, name: string)
    | WaitUntil(until: Timestamp)
    | InterruptBetween(from: CompartmentNo, to: CompartmentNo, coupling: string)

  function Apply(req: EvaluationRequest, action: Action): EvaluationRequest {
    match action
    case DischargeAt(origin, name) => Discharge(req, origin, name)
    case WaitUntil(until) => Wait(req, until)
    case InterruptBetween(from, to, coupling) => Interrupt(req, from, to, coupling)
  }

  function ApplyAll(req: EvaluationRequest, actions: seq<Action>): EvaluationRequest {
    if actions == [] then req else Apply(ApplyAll(req, actions[..|actions| - 1]), actions[|actions| - 1])
  }

  function Seeds(hazards: seq<Hazard>, action: Action): seq<CompartmentNo> {
    match action
    case DischargeAt(origin, _) => [origin]
    case InterruptBetween(from, to, _) => [from, to]
    case WaitUntil(_) => Map((h: Hazard) => h.origin, hazards)
  }

  function AllSeeds(hazards: seq<Hazard>, actions: seq<Action>): seq<CompartmentNo> {
    if actions == [] then [] else AllSeeds(hazards, actions[..|actions| - 1]) + Seeds(hazards, actions[|actions| - 1])
  }

  /** The spaces whose verdicts the actions could change. */
  method AffectedBy(world: EvaluationRequest, actions: seq<Action>) returns (spaces: set<CompartmentNo>)
    ensures spaces == Affected(world, actions)
  {
    var seeds := [];
    for i := 0 to |actions|
      invariant seeds == AllSeeds(world.hazards, actions[..i])
    {
      assert actions[..i + 1][..i] == actions[..i];
      match actions[i] {
        case DischargeAt(origin, _) => seeds := seeds + [origin];
        case InterruptBetween(from, to, _) => seeds := seeds + [from, to];
        case WaitUntil(_) => seeds := seeds + Map((h: Hazard) => h.origin, world.hazards);
      }
    }
    assert actions[..|actions|] == actions;
    spaces := Reach(world.graph, seeds);
  }

  ghost function Affected(world: EvaluationRequest, actions: seq<Action>): set<CompartmentNo> {
    Around(world.graph.edges, Set(AllSeeds(world.hazards, actions)), MaxReach(world.graph.edges))
  }

  // ----- What lies outside is untouched --------------------------------------------------------

  /** `later` is `world` after some actions: less of everything, at whatever instant. */
  ghost predicate Within(world: EvaluationRequest, later: EvaluationRequest) {
    && later.subject == world.subject && later.rules == world.rules
    && (forall e :: e in later.graph.edges ==> e in world.graph.edges)
    && (forall h :: h in later.hazards ==> h in world.hazards)
  }

  ghost predicate Outside(world: EvaluationRequest, seeds: seq<CompartmentNo>) {
    world.subject !in Around(world.graph.edges, Set(seeds), MaxReach(world.graph.edges))
  }

  lemma {:induction false} AppliedWithin(world: EvaluationRequest, actions: seq<Action>)
    ensures Within(world, ApplyAll(world, actions))
  {
    if actions != [] {
      AppliedWithin(world, actions[..|actions| - 1]);
    }
  }

  /** A walk of a later world never passes a seed it is outside of. */
  lemma NoSeedOnWalk(
      world: EvaluationRequest, later: EvaluationRequest, seeds: seq<CompartmentNo>, hazard: Hazard, entry: RuleEntry,
      w: seq<CouplingEdge>, i: nat)
    requires AllCount(world) && Within(world, later) && Outside(world, seeds)
    requires entry in later.rules && ReachedBy(later, hazard, entry, w) && i <= |w|
    ensures EndOf(hazard.origin, w[..i]) !in seeds
  {
    hide Around, MaxReach;
    if EndOf(hazard.origin, w[..i]) in seeds {
      if entry.applies.Coupled? {
        var bound := TraversalBound(entry.applies.maxHops, Some(entry.applies.code));
        AdmissibleMonotone(later.graph, world.graph, hazard.origin, bound, w);
        hide Admissible;
        WalkAfter(world.graph, hazard.origin, bound, w, i, Set(seeds));
      } else {
        Zero(world.graph.edges, Set(seeds));
        AroundGrows(world.graph.edges, Set(seeds), 0, MaxReach(world.graph.edges));
      }
      assert false;
    }
  }

  /** One action changes no firing on a space outside its reach. */
  lemma SameFirings(
      world: EvaluationRequest, later: EvaluationRequest, action: Action, hazard: Hazard, entry: RuleEntry)
    requires AllCount(world) && Within(world, later) && Outside(world, Seeds(world.hazards, action))
    ensures Fires(Apply(later, action), hazard, entry) <==> Fires(later, hazard, entry)
  {
    hide Around, MaxReach, Live, AllCount, Outside;
    match action {
      case DischargeAt(origin, name) =>
        if Fires(later, hazard, entry) {
          var w: seq<CouplingEdge> :| ReachedBy(later, hazard, entry, w);
          NoSeedOnWalk(world, later, [origin], hazard, entry, w, 0);
          assert w[..0] == [] && origin in [origin];
          assert ReachedBy(Apply(later, action), hazard, entry, w);
        }
        if Fires(Apply(later, action), hazard, entry) {
          var w: seq<CouplingEdge> :| ReachedBy(Apply(later, action), hazard, entry, w);
          assert ReachedBy(later, hazard, entry, w);
        }
      case WaitUntil(until) =>
        NoFiringAtAll(world, later, hazard, entry);
        NoFiringAtAll(world, Apply(later, action), hazard, entry);
      case InterruptBetween(from, to, coupling) =>
        UncutFirings(world, later, from, to, coupling, hazard, entry);
    }
  }

  lemma NoFiringAtAll(world: EvaluationRequest, later: EvaluationRequest, hazard: Hazard, entry: RuleEntry)
    requires AllCount(world) && Within(world, later) && Outside(world, Map((h: Hazard) => h.origin, world.hazards))
    ensures !Fires(later, hazard, entry)
  {
    hide Around, MaxReach, Live, AllCount, Outside;
    if Fires(later, hazard, entry) {
      var seeds := Map((h: Hazard) => h.origin, world.hazards);
      var i :| 0 <= i < |world.hazards| && world.hazards[i] == hazard;
      assert seeds[i] == hazard.origin;
      var w: seq<CouplingEdge> :| ReachedBy(later, hazard, entry, w);
      assert w[..0] == [];
      NoSeedOnWalk(world, later, seeds, hazard, entry, w, 0);
      assert false;
    }
  }

  lemma UncutFirings(
      world: EvaluationRequest, later: EvaluationRequest, from: CompartmentNo, to: CompartmentNo, coupling: string,
      hazard: Hazard, entry: RuleEntry)
    requires AllCount(world) && Within(world, later) && Outside(world, [from, to])
    ensures Fires(Interrupt(later, from, to, coupling), hazard, entry) <==> Fires(later, hazard, entry)
  {
    hide Around, MaxReach, Live, AllCount, Outside;
    var cut := Interrupt(later, from, to, coupling);
    if Fires(later, hazard, entry) {
      var w: seq<CouplingEdge> :| ReachedBy(later, hazard, entry, w);
      if entry.applies.Coupled? {
        forall i | 0 <= i < |w| ensures w[i] in cut.graph.edges {
          var bound := TraversalBound(entry.applies.maxHops, Some(entry.applies.code));
          AdmissibleLast(later.graph, hazard.origin, bound, w, i);
          NoSeedOnWalk(world, later, [from, to], hazard, entry, w, i);
          hide Admissible;
          assert EndOf(hazard.origin, w[..i]) == w[i].from;
          assert from in [from, to] && to in [from, to];
        }
        SameWalk(later.graph, cut.graph, hazard.origin,
                 TraversalBound(entry.applies.maxHops, Some(entry.applies.code)), w);
      }
      hide Admissible;
      assert ReachedBy(cut, hazard, entry, w);
    }
    if Fires(cut, hazard, entry) {
      var w: seq<CouplingEdge> :| ReachedBy(cut, hazard, entry, w);
      if entry.applies.Coupled? {
        AdmissibleMonotone(cut.graph, later.graph, hazard.origin,
                           TraversalBound(entry.applies.maxHops, Some(entry.applies.code)), w);
      }
      hide Admissible;
      assert ReachedBy(later, hazard, entry, w);
    }
  }

  lemma {:induction false} SeedsOf(hazards: seq<Hazard>, actions: seq<Action>, i: nat)
    requires i < |actions|
    ensures Set(Seeds(hazards, actions[i])) <= Set(AllSeeds(hazards, actions))
  {
    var n := |actions| - 1;
    if i < n {
      SeedsOf(hazards, actions[..n], i);
    }
  }

  lemma OutsideEach(world: EvaluationRequest, actions: seq<Action>, i: nat)
    requires world.subject !in Affected(world, actions) && i < |actions|
    ensures Outside(world, Seeds(world.hazards, actions[i]))
  {
    SeedsOf(world.hazards, actions, i);
    AroundMonotone(world.graph.edges, world.graph.edges, Set(Seeds(world.hazards, actions[i])),
                   Set(AllSeeds(world.hazards, actions)), MaxReach(world.graph.edges));
    hide Around, MaxReach, Seeds, AllSeeds;
  }

  lemma {:induction false} FiringsUntouched(
      world: EvaluationRequest, actions: seq<Action>, n: nat, hazard: Hazard, entry: RuleEntry)
    requires AllCount(world) && world.subject !in Affected(world, actions) && n <= |actions|
    ensures Fires(ApplyAll(world, actions[..n]), hazard, entry) <==> Fires(world, hazard, entry)
  {
    hide Fires, Affected, AllCount, Outside, Apply, Within;
    if n > 0 {
      assert actions[..n][..n - 1] == actions[..n - 1];
      FiringsUntouched(world, actions, n - 1, hazard, entry);
      AppliedWithin(world, actions[..n - 1]);
      OutsideEach(world, actions, n - 1);
      SameFirings(world, ApplyAll(world, actions[..n - 1]), actions[n - 1], hazard, entry);
    }
  }

  /** A wait among the actions seeds every hazard, so nothing fires outside. */
  lemma {:induction false} InstantUntouched(world: EvaluationRequest, actions: seq<Action>, n: nat)
    requires AllCount(world) && world.subject !in Affected(world, actions) && n <= |actions|
    ensures ApplyAll(world, actions[..n]).at == world.at || forall hazard, entry :: !Fires(world, hazard, entry)
  {
    hide Fires, Affected, AllCount, Outside;
    if n > 0 {
      assert actions[..n][..n - 1] == actions[..n - 1];
      InstantUntouched(world, actions, n - 1);
      if actions[n - 1].WaitUntil? {
        OutsideEach(world, actions, n - 1);
        forall hazard, entry ensures !Fires(world, hazard, entry) {
          NoFiringAtAll(world, world, hazard, entry);
        }
      }
    }
  }

  /** A space outside the reach of everything the actions change keeps its verdict: state
      and clear time. */
  lemma OutsideKeepsVerdict(world: EvaluationRequest, actions: seq<Action>, before: Verdict, after: Verdict)
    requires AllCount(world) && world.subject !in Affected(world, actions)
    requires IsVerdict(world, before) && IsVerdict(ApplyAll(world, actions), after)
    ensures after.state == before.state && after.earliestClear == before.earliestClear
  {
    hide Fires, Affected, AllCount, IsVerdict, ApplyAll;
    assert actions[..|actions|] == actions;
    forall hazard, entry ensures Fires(ApplyAll(world, actions), hazard, entry) <==> Fires(world, hazard, entry) {
      FiringsUntouched(world, actions, |actions|, hazard, entry);
    }
    InstantUntouched(world, actions, |actions|);
    SameFiringsSameVerdict(world, ApplyAll(world, actions), before, after);
  }

  /** A space outside every hazard's reach is open: nothing fires there. */
  lemma OutsideShadowIsOpen(world: EvaluationRequest, v: Verdict)
    requires AllCount(world) && Outside(world, Map((h: Hazard) => h.origin, world.hazards)) && IsVerdict(world, v)
    ensures v.state == Allow
  {
    hide Fires, Outside, AllCount, IsVerdict;
    if v.state != Allow {
      var hazard, entry := StateIsFired(world, v);
      NoFiringAtAll(world, world, hazard, entry);
    }
  }

  // ----- Where the overapproximation fails ---------------------------------------------------------

  ghost predicate Blocked(req: EvaluationRequest) {
    exists hazard, entry :: Fires(req, hazard, entry) && !entry.state.PermitsWork()
  }

  /** Rules go no further than `hops` and couplings than `reach`. */
  ghost predicate Limited(world: EvaluationRequest, hops: HopDepth, reach: HopDepth) {
    && (forall e :: e in world.rules && e.applies.Coupled? ==> e.applies.maxHops <= hops)
    && (forall e :: e in world.graph.edges ==> e.maxReach <= reach)
  }

  /** For every world within the limits, whatever is done outside a space's reach leaves
      it open or refused as it was. */
  ghost predicate SoundFor(hops: HopDepth, reach: HopDepth) {
    forall world, actions :: Limited(world, hops, reach) && world.subject !in Affected(world, actions) ==>
      (Blocked(ApplyAll(world, actions)) <==> Blocked(world))
  }

  lemma LimitedCounts(world: EvaluationRequest, hops: HopDepth, reach: HopDepth)
    requires Limited(world, hops, reach) && Counts(hops, reach)
    ensures AllCount(world)
  {
    MaxReachAttained(world.graph.edges, reach);
    hide MaxReach;
  }

  const FAR := 300
  const FAR_RULE := RuleEntry(
      "R", 1, CoatingOpen, Coupled("c", 255), Block, None, Raise, RuleBinding([], [], None, None))
  const FAR_HAZARD := Hazard(Name(0), CoatingOpen, 0, "", None)

  /** A hazard at one end of a chain longer than a byte can count, seen from the other. */
  function FarWorld(): EvaluationRequest {
    EvaluationRequest(Name(FAR), AdjacencyGraph(Chain(FAR)), [FAR_RULE], [FAR_HAZARD], 0)
  }

  lemma {:induction false} NearNames(n: nat, space: CompartmentNo)
    requires space in Around(Chain(FAR), {Name(0)}, n)
    ensures |space| <= n
  {
    hide Chain;
    if n > 0 {
      if space in Around(Chain(FAR), {Name(0)}, n - 1) {
        NearNames(n - 1, space);
      } else {
        var e :| e in Chain(FAR) && e.from in Around(Chain(FAR), {Name(0)}, n - 1) && e.to == space;
        NearNames(n - 1, e.from);
        var i :| 0 <= i < FAR && Chain(FAR)[i] == e;
        assert e == ChainEdge(i) && |Name(i + 1)| == |Name(i)| + 1;
      }
    }
  }

  lemma FarIsBlocked()
    ensures Blocked(FarWorld()) && !Blocked(ApplyAll(FarWorld(), [DischargeAt(Name(0), "")]))
    ensures Limited(FarWorld(), 255, 255) && FarWorld().subject !in Affected(FarWorld(), [DischargeAt(Name(0), "")])
  {
    var world, action := FarWorld(), DischargeAt(Name(0), "");
    assert [action][..0] == [] && ApplyAll(world, []) == world;
    assert AllSeeds(world.hazards, [action]) == [Name(0)] && Set([Name(0)]) == {Name(0)};
    if world.subject in Affected(world, [action]) {
      NearNames(MaxReach(Chain(FAR)), Name(FAR));
      assert false;
    }
    assert !Blocked(ApplyAll(world, [action]));
    FarFires();
  }

  lemma FarFires()
    ensures Fires(FarWorld(), FAR_HAZARD, FAR_RULE) && !FAR_RULE.state.PermitsWork()
  {
    var world := FarWorld();
    ChainWalk(FAR, FAR, Some("c"));
    var w := Chain(FAR);
    assert w[FAR - 1].to == Name(FAR);
    hide Admissible, Name, Chain;
    assert ReachedBy(world, FAR_HAZARD, FAR_RULE, w);
    assert world.hazards[0] == FAR_HAZARD && world.rules[0] == FAR_RULE;
  }

  /** The overapproximation holds exactly while hops are counted: a rule or every coupling
      must be limited below the largest byte. */
  lemma SoundIffCounted(hops: HopDepth, reach: HopDepth)
    ensures SoundFor(hops, reach) <==> Counts(hops, reach)
  {
    hide Fires, Affected, Limited, AllCount, ApplyAll;
    if Counts(hops, reach) {
      forall world, actions | Limited(world, hops, reach) && world.subject !in Affected(world, actions)
        ensures Blocked(ApplyAll(world, actions)) <==> Blocked(world)
      {
        LimitedCounts(world, hops, reach);
        assert actions[..|actions|] == actions;
        forall hazard, entry ensures Fires(ApplyAll(world, actions), hazard, entry) <==> Fires(world, hazard, entry) {
          FiringsUntouched(world, actions, |actions|, hazard, entry);
        }
      }
    } else {
      FarIsBlocked();
    }
  }
}
