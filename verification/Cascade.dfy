/** The hop-bounded, direction-respecting hazard traversal of the engine, proved
    to compute exactly the shortest admissible walks out of a hazard's origin. */
module Cascade {
  import opened Sequences

  type CompartmentNo = string

  /** A hop count is a byte; `Next` is its saturating increment. */
  type HopDepth = n: nat | n <= 255

  function Next(depth: HopDepth): HopDepth {
    if depth < 255 then depth + 1 else 255
  }

  /** One directed coupling; a symmetric coupling is stored as two of these. */
  datatype CouplingEdge = CouplingEdge(
    from: CompartmentNo, to: CompartmentNo, couplingType: nat, code: string, maxReach: HopDepth)

  datatype AdjacencyGraph = AdjacencyGraph(edges: seq<CouplingEdge>) {
    function OutEdges(from: CompartmentNo): seq<CouplingEdge> {
      Filter((e: CouplingEdge) => e.from == from, edges)
    }
  }

  /** A rule's limits: how many hops, and over which kind of coupling (`None` is any). */
  datatype TraversalBound = TraversalBound(maxHops: HopDepth, code: Option<string>)

  datatype CascadeHit = CascadeHit(compartment: CompartmentNo, depth: HopDepth, path: seq<CouplingEdge>)

  /** The depth at which the n-th hop of a walk is booked. */
  function Hops(n: nat): HopDepth {
    if n <= 255 then n else 255
  }

  /** Whether `e` may be crossed as the hop that reaches `depth`. */
  predicate Crosses(e: CouplingEdge, depth: HopDepth, origin: CompartmentNo, bound: TraversalBound) {
    && depth <= bound.maxHops
    && depth <= e.maxReach
    && (bound.code.Some? ==> e.code == bound.code.value)
    && e.to != origin
  }

  /** A walk the rule allows the hazard to take: connected head to tail from the
      origin, always along an edge's own direction, inside every reach, and never
      coming home. */
  ghost predicate Admissible(g: AdjacencyGraph, origin: CompartmentNo, bound: TraversalBound, w: seq<CouplingEdge>) {
    w == [] || (
      var n := |w| - 1;
      && Admissible(g, origin, bound, w[..n])
      && w[n] in g.edges
      && w[n].from == EndOf(origin, w[..n])
      && Crosses(w[n], Hops(n + 1), origin, bound))
  }

  function EndOf(origin: CompartmentNo, w: seq<CouplingEdge>): CompartmentNo {
    if w == [] then origin else w[|w| - 1].to
  }

  /** What the traversal keeps apart: a space together with the kind of coupling
      that reached it. */
  function KeyOf(e: CouplingEdge): (CompartmentNo, nat) {
    (e.to, e.couplingType)
  }

  function HitKey(h: CascadeHit): (CompartmentNo, nat) {
    (h.compartment, if h.path == [] then 0 else h.path[|h.path| - 1].couplingType)
  }

  ghost predicate SoundHit(g: AdjacencyGraph, origin: CompartmentNo, bound: TraversalBound, h: CascadeHit) {
    && h.path != []
    && Admissible(g, origin, bound, h.path)
    && h.compartment == EndOf(origin, h.path)
    && h.depth == Hops(|h.path|)
  }

  ghost predicate Covers(hits: seq<CascadeHit>, key: (CompartmentNo, nat), length: nat) {
    exists i :: 0 <= i < |hits| && HitKey(hits[i]) == key && |hits[i].path| <= length
  }

  /** The declarative meaning of a traversal's result: every hit is an admissible
      walk, every admissible walk is matched by a hit no longer than it, and no
      (space, coupling type) is reported twice. */
  ghost predicate IsCascade(g: AdjacencyGraph, origin: CompartmentNo, bound: TraversalBound, hits: seq<CascadeHit>) {
    && AllSound(g, origin, bound, hits)
    && (forall w :: w != [] && Admissible(g, origin, bound, w) ==> Covers(hits, KeyOf(w[|w| - 1]), |w|))
    && (forall i, j :: 0 <= i < j < |hits| ==> HitKey(hits[i]) != HitKey(hits[j]))
  }

  datatype Item = Item(compartment: CompartmentNo, depth: HopDepth, path: seq<CouplingEdge>)

  ghost predicate SoundItem(g: AdjacencyGraph, origin: CompartmentNo, bound: TraversalBound, t: Item) {
    Admissible(g, origin, bound, t.path) && t.compartment == EndOf(origin, t.path) && t.depth == Hops(|t.path|)
  }

  function ItemOf(h: CascadeHit): Item {
    Item(h.compartment, h.depth, h.path)
  }

  /** Every edge that may leave the end of `path` leads to something already hit. */
  ghost predicate Expanded(
      g: AdjacencyGraph, origin: CompartmentNo, bound: TraversalBound, hits: seq<CascadeHit>, t: Item) {
    forall e :: e in g.edges && e.from == t.compartment && Crosses(e, Hops(|t.path| + 1), origin, bound) ==>
      Covers(hits, KeyOf(e), |t.path| + 1)
  }

  ghost function Keys(edges: seq<CouplingEdge>): set<(CompartmentNo, nat)> {
    set e | e in edges :: KeyOf(e)
  }

  lemma EndsAt(g: AdjacencyGraph, origin: CompartmentNo, bound: TraversalBound, hits: seq<CascadeHit>, i: nat)
    requires AllSound(g, origin, bound, hits) && i < |hits|
    ensures hits[i].compartment == EndOf(origin, hits[i].path) && hits[i].path != []
  {
    hide Admissible;
    assert SoundHit(g, origin, bound, hits[i]);
  }

  /** Once everything reached has been expanded, nothing admissible was missed. */
  lemma {:induction false} ClosureCovers(
      g: AdjacencyGraph, origin: CompartmentNo, bound: TraversalBound, hits: seq<CascadeHit>, w: seq<CouplingEdge>)
    requires AllSound(g, origin, bound, hits)
    requires forall i :: 0 <= i < |hits| ==> Expanded(g, origin, bound, hits, ItemOf(hits[i]))
    requires Expanded(g, origin, bound, hits, Item(origin, 0, []))
    requires w != [] && Admissible(g, origin, bound, w)
    ensures Covers(hits, KeyOf(w[|w| - 1]), |w|)
  {
    hide AllSound;
    var n := |w| - 1;
    var e := w[n];
    var before := w[..n];
    if n == 0 {
      assert Covers(hits, KeyOf(e), 1);
    } else {
      ClosureCovers(g, origin, bound, hits, before);
      var i :| 0 <= i < |hits| && HitKey(hits[i]) == KeyOf(before[n - 1]) && |hits[i].path| <= n;
      assert Expanded(g, origin, bound, hits, ItemOf(hits[i]));
      EndsAt(g, origin, bound, hits, i);
      assert Covers(hits, KeyOf(e), |hits[i].path| + 1);
    }
  }

  lemma ExtendAdmissible(
      g: AdjacencyGraph, origin: CompartmentNo, bound: TraversalBound, w: seq<CouplingEdge>, e: CouplingEdge)
    requires Admissible(g, origin, bound, w)
    requires e in g.edges && e.from == EndOf(origin, w) && Crosses(e, Hops(|w| + 1), origin, bound)
    ensures Admissible(g, origin, bound, w + [e])
  {
    assert (w + [e])[..|w|] == w;
  }

  lemma CoversMonotone(hits: seq<CascadeHit>, more: seq<CascadeHit>, key: (CompartmentNo, nat), length: nat)
    requires Covers(hits, key, length)
    ensures Covers(hits + more, key, length)
  {
    var i :| 0 <= i < |hits| && HitKey(hits[i]) == key && |hits[i].path| <= length;
    assert (hits + more)[i] == hits[i];
  }

  lemma ExpandedMonotone(
      g: AdjacencyGraph, origin: CompartmentNo, bound: TraversalBound, hits: seq<CascadeHit>, more: seq<CascadeHit>,
      t: Item)
    requires Expanded(g, origin, bound, hits, t)
    ensures Expanded(g, origin, bound, hits + more, t)
  {
    forall e | e in g.edges && e.from == t.compartment && Crosses(e, Hops(|t.path| + 1), origin, bound)
      ensures Covers(hits + more, KeyOf(e), |t.path| + 1)
    {
      CoversMonotone(hits, more, KeyOf(e), |t.path| + 1);
    }
  }

  /** The queue items a hit list stands for, in the order they were enqueued. */
  ghost function Queued(hits: seq<CascadeHit>): (items: seq<Item>)
    ensures |items| == |hits|
    ensures forall i :: 0 <= i < |hits| ==> items[i] == ItemOf(hits[i])
  {
    seq(|hits|, i requires 0 <= i < |hits| => ItemOf(hits[i]))
  }

  lemma QueuedAppend(a: seq<CascadeHit>, b: seq<CascadeHit>)
    ensures Queued(a + b) == Queued(a) + Queued(b)
  {
  }

  ghost function HitKeys(hits: seq<CascadeHit>): set<(CompartmentNo, nat)> {
    set i | 0 <= i < |hits| :: HitKey(hits[i])
  }

  ghost predicate AllSound(g: AdjacencyGraph, origin: CompartmentNo, bound: TraversalBound, hits: seq<CascadeHit>) {
    forall i :: 0 <= i < |hits| ==> SoundHit(g, origin, bound, hits[i])
  }

  /** The bookkeeping every step of the traversal keeps about the hits found so far. */
  ghost predicate Consistent(g: AdjacencyGraph, hits: seq<CascadeHit>, visited: set<(CompartmentNo, nat)>) {
    && visited == HitKeys(hits)
    && (forall i, j :: 0 <= i < j < |hits| ==> HitKey(hits[i]) != HitKey(hits[j]))
    && (forall i, j :: 0 <= i <= j < |hits| ==> |hits[i].path| <= |hits[j].path|)
    && visited <= Keys(g.edges)
    && |visited| == |hits|
  }

  /** No hit is more than one hop further out than the item being expanded. */
  ghost predicate WithinHorizon(hits: seq<CascadeHit>, length: nat) {
    forall i :: 0 <= i < |hits| ==> |hits[i].path| <= length + 1
  }

  lemma SubsetSize<T>(a: set<T>, b: set<T>)
    requires a <= b
    ensures |a| <= |b|
  {
    if a != {} {
      var x :| x in a;
      SubsetSize(a - {x}, b - {x});
    }
  }

  lemma EmptyQueue()
    ensures Queued([]) == []
  {
  }

  lemma CoversNew(g: AdjacencyGraph, hits: seq<CascadeHit>, hit: CascadeHit, e: CouplingEdge)
    requires e in g.edges && HitKey(hit) == KeyOf(e)
    ensures KeyOf(e) in Keys(g.edges) && Covers(hits + [hit], KeyOf(e), |hit.path|)
  {
    assert (hits + [hit])[|hits|] == hit;
  }

  /** Expands one dequeued item: every edge it may cross is covered afterwards. */
  method Expand(
      g: AdjacencyGraph, origin: CompartmentNo, bound: TraversalBound, current: Item, depth: HopDepth,
      hits0: seq<CascadeHit>, visited0: set<(CompartmentNo, nat)>, queue0: seq<Item>)
    returns (hits: seq<CascadeHit>, visited: set<(CompartmentNo, nat)>, queue: seq<Item>, ghost added: seq<CascadeHit>)
    requires Consistent(g, hits0, visited0) && AllSound(g, origin, bound, hits0)
    requires SoundItem(g, origin, bound, current) && depth == Hops(|current.path| + 1)
    requires depth <= bound.maxHops
    requires WithinHorizon(hits0, |current.path|)
    ensures Consistent(g, hits, visited) && AllSound(g, origin, bound, hits)
    ensures WithinHorizon(hits, |current.path|)
    ensures hits == hits0 + added && queue == queue0 + Queued(added)
    ensures Expanded(g, origin, bound, hits, current)
  {
    hide Consistent, AllSound, Admissible, Queued, Covers, Keys, WithinHorizon, Hops, HitKeys;
    hits, visited, queue, added := hits0, visited0, queue0, [];
    EmptyQueue();
    var out := g.OutEdges(current.compartment);
    for k := 0 to |out|
      invariant Consistent(g, hits, visited) && AllSound(g, origin, bound, hits)
      invariant WithinHorizon(hits, |current.path|)
      invariant hits == hits0 + added && queue == queue0 + Queued(added)
      invariant forall i :: 0 <= i < k && Crosses(out[i], depth, origin, bound) ==>
                  Covers(hits, KeyOf(out[i]), |current.path| + 1)
    {
      var e := out[k];
      if depth > e.maxReach {
        continue;
      }
      if bound.code.Some? && e.code != bound.code.value {
        continue;
      }
      if e.to == origin {
        continue;
      }
      if (e.to, e.couplingType) in visited {
        VisitedCovered(g, hits, visited, KeyOf(e), |current.path|);
        continue;
      }
      var nextPath := current.path + [e];
      ExtendAdmissible(g, origin, bound, current.path, e);
      var hit := CascadeHit(e.to, depth, nextPath);
      forall i | 0 <= i < k && Crosses(out[i], depth, origin, bound)
        ensures Covers(hits + [hit], KeyOf(out[i]), |current.path| + 1)
      {
        CoversMonotone(hits, [hit], KeyOf(out[i]), |current.path| + 1);
      }
      CoversNew(g, hits, hit, e);
      AddHit(g, hits, visited, hit, |current.path|);
      AddSound(g, origin, bound, hits, hit);
      QueuedAppend(added, [hit]);
      hits, added := hits + [hit], added + [hit];
      visited := visited + {(e.to, e.couplingType)};
      queue := queue + [Item(e.to, depth, nextPath)];
    }
  }

  lemma HitKeysAppend(hits: seq<CascadeHit>, hit: CascadeHit)
    ensures HitKeys(hits + [hit]) == HitKeys(hits) + {HitKey(hit)}
  {
    var all := hits + [hit];
    assert all[|hits|] == hit;
    assert forall i :: 0 <= i < |hits| ==> all[i] == hits[i];
  }

  /** A new key, one hop past the item being expanded, keeps the hits consistent. */
  lemma AddHit(
      g: AdjacencyGraph, hits: seq<CascadeHit>, visited: set<(CompartmentNo, nat)>, hit: CascadeHit, length: nat)
    requires Consistent(g, hits, visited)
    requires WithinHorizon(hits, length) && |hit.path| == length + 1
    requires HitKey(hit) in Keys(g.edges) && HitKey(hit) !in visited
    ensures Consistent(g, hits + [hit], visited + {HitKey(hit)})
    ensures WithinHorizon(hits + [hit], length)
  {
    forall i | 0 <= i < |hits| ensures HitKey(hits[i]) != HitKey(hit) {
      assert HitKey(hits[i]) in HitKeys(hits);
    }
    HitKeysAppend(hits, hit);
    hide HitKeys, Keys, HitKey;
  }

  lemma AddSound(
      g: AdjacencyGraph, origin: CompartmentNo, bound: TraversalBound, hits: seq<CascadeHit>, hit: CascadeHit)
    requires AllSound(g, origin, bound, hits) && SoundHit(g, origin, bound, hit)
    ensures AllSound(g, origin, bound, hits + [hit])
  {
    hide SoundHit;
  }

  /** An already visited key was reached no later than the hop now being expanded. */
  lemma VisitedCovered(
      g: AdjacencyGraph, hits: seq<CascadeHit>, visited: set<(CompartmentNo, nat)>,
      key: (CompartmentNo, nat), length: nat)
    requires Consistent(g, hits, visited) && WithinHorizon(hits, length) && key in visited
    ensures Covers(hits, key, length + 1)
  {
    assert key in HitKeys(hits);
    var i :| 0 <= i < |hits| && HitKey(hits[i]) == key;
  }

  lemma ExpandedAll(
      g: AdjacencyGraph, origin: CompartmentNo, bound: TraversalBound, before: seq<CascadeHit>, added: seq<CascadeHit>,
      order: seq<Item>)
    requires forall t :: t in order ==> Expanded(g, origin, bound, before, t)
    ensures forall t :: t in order ==> Expanded(g, origin, bound, before + added, t)
  {
    hide Expanded;
    forall t | t in order ensures Expanded(g, origin, bound, before + added, t) {
      ExpandedMonotone(g, origin, bound, before, added, t);
    }
  }

  lemma ItemSound(g: AdjacencyGraph, origin: CompartmentNo, bound: TraversalBound, hits: seq<CascadeHit>, k: nat)
    requires AllSound(g, origin, bound, hits) && k <= |hits|
    ensures SoundItem(g, origin, bound, ([Item(origin, 0, [])] + Queued(hits))[k])
  {
    if k > 0 {
      assert SoundHit(g, origin, bound, hits[k - 1]);
    }
  }

  /** The horizon moves out with the item at the front of the queue. */
  lemma NextHorizon(
      g: AdjacencyGraph, hits: seq<CascadeHit>, visited: set<(CompartmentNo, nat)>, start: Item, head: nat,
      length: nat)
    requires Consistent(g, hits, visited) && WithinHorizon(hits, length)
    requires head < |hits| && length == |([start] + Queued(hits))[head].path|
    requires start.path == []
    ensures WithinHorizon(hits, |([start] + Queued(hits))[head + 1].path|)
  {
  }

  lemma Start(g: AdjacencyGraph, origin: CompartmentNo, bound: TraversalBound)
    ensures Consistent(g, [], {}) && AllSound(g, origin, bound, [])
    ensures WithinHorizon([], 0) && Queued([]) == []
  {
  }

  lemma HitsBounded(g: AdjacencyGraph, hits: seq<CascadeHit>, visited: set<(CompartmentNo, nat)>)
    requires Consistent(g, hits, visited)
    ensures |hits| <= |Keys(g.edges)|
  {
    SubsetSize(visited, Keys(g.edges));
  }

  lemma ItemDepth(g: AdjacencyGraph, origin: CompartmentNo, bound: TraversalBound, t: Item)
    requires SoundItem(g, origin, bound, t)
    ensures Next(t.depth) == Hops(|t.path| + 1)
  {
  }

  lemma BeyondBound(g: AdjacencyGraph, origin: CompartmentNo, bound: TraversalBound, hits: seq<CascadeHit>, t: Item)
    requires Hops(|t.path| + 1) > bound.maxHops
    ensures Expanded(g, origin, bound, hits, t)
  {
  }

  lemma Finish(
      g: AdjacencyGraph, origin: CompartmentNo, bound: TraversalBound, hits: seq<CascadeHit>,
      visited: set<(CompartmentNo, nat)>)
    requires Consistent(g, hits, visited) && AllSound(g, origin, bound, hits)
    requires forall t :: t in [Item(origin, 0, [])] + Queued(hits) ==> Expanded(g, origin, bound, hits, t)
    ensures IsCascade(g, origin, bound, hits)
    ensures forall i, j :: 0 <= i <= j < |hits| ==> |hits[i].path| <= |hits[j].path|
  {
    hide Expanded, AllSound, Admissible, Covers, Keys, HitKeys;
    var start := Item(origin, 0, []);
    var order := [start] + Queued(hits);
    forall i | 0 <= i < |hits| ensures Expanded(g, origin, bound, hits, ItemOf(hits[i])) {
      assert order[i + 1] == ItemOf(hits[i]);
    }
    assert order[0] == start;
    forall w | w != [] && Admissible(g, origin, bound, w)
      ensures Covers(hits, KeyOf(w[|w| - 1]), |w|)
    {
      ClosureCovers(g, origin, bound, hits, w);
    }
  }

  /** The queue items in the order they were enqueued, the origin's first. */
  ghost function Order(origin: CompartmentNo, hits: seq<CascadeHit>): seq<Item> {
    [Item(origin, 0, [])] + Queued(hits)
  }

  /** What every turn of the loop keeps: `head` items have been taken off the queue, all of
      them expanded, and the rest wait in order. */
  ghost predicate Progress(
      g: AdjacencyGraph, origin: CompartmentNo, bound: TraversalBound, hits: seq<CascadeHit>,
      visited: set<(CompartmentNo, nat)>, queue: seq<Item>, head: nat)
  {
    && Consistent(g, hits, visited) && AllSound(g, origin, bound, hits)
    && head <= |hits| + 1 && queue == Order(origin, hits)[head..]
    && (head <= |hits| ==> WithinHorizon(hits, |Order(origin, hits)[head].path|))
    && (forall t :: t in Order(origin, hits)[..head] ==> Expanded(g, origin, bound, hits, t))
  }

  /** What is at the front of the queue. */
  lemma Front(
      g: AdjacencyGraph, origin: CompartmentNo, bound: TraversalBound, hits: seq<CascadeHit>,
      visited: set<(CompartmentNo, nat)>, queue: seq<Item>, head: nat)
    requires Progress(g, origin, bound, hits, visited, queue, head) && queue != []
    ensures head <= |hits| <= |Keys(g.edges)| && queue[0] == Order(origin, hits)[head]
    ensures Consistent(g, hits, visited) && AllSound(g, origin, bound, hits)
    ensures SoundItem(g, origin, bound, queue[0]) && Next(queue[0].depth) == Hops(|queue[0].path| + 1)
    ensures WithinHorizon(hits, |queue[0].path|)
  {
    hide Consistent, AllSound, Admissible, Expanded, WithinHorizon, SoundItem, Keys, Queued, Hops;
    HitsBounded(g, hits, visited);
    ItemSound(g, origin, bound, hits, head);
    ItemDepth(g, origin, bound, queue[0]);
  }

  /** One item taken off and expanded. */
  lemma Onward(
      g: AdjacencyGraph, origin: CompartmentNo, bound: TraversalBound, hits: seq<CascadeHit>,
      visited: set<(CompartmentNo, nat)>, queue: seq<Item>, head: nat,
      added: seq<CascadeHit>, visited1: set<(CompartmentNo, nat)>)
    requires Progress(g, origin, bound, hits, visited, queue, head) && queue != []
    requires Consistent(g, hits + added, visited1) && AllSound(g, origin, bound, hits + added)
    requires WithinHorizon(hits + added, |queue[0].path|) && Expanded(g, origin, bound, hits + added, queue[0])
    ensures Progress(g, origin, bound, hits + added, visited1, queue[1..] + Queued(added), head + 1)
  {
    hide Consistent, AllSound, Admissible, Expanded, WithinHorizon, SoundItem, Keys, Queued, Hops;
    Front(g, origin, bound, hits, visited, queue, head);
    var start, order, all := Item(origin, 0, []), Order(origin, hits), Order(origin, hits + added);
    QueuedAppend(hits, added);
    assert all == order + Queued(added);
    ExpandedAll(g, origin, bound, hits, added, order[..head]);
    assert all[..head + 1] == order[..head] + [queue[0]];
    if head < |hits + added| {
      NextHorizon(g, hits + added, visited1, start, head, |queue[0].path|);
    }
  }

  /** Breadth-first from `origin`; the visited set is keyed by (space, coupling type). */
  method CascadeFrom(g: AdjacencyGraph, origin: CompartmentNo, bound: TraversalBound) returns (hits: seq<CascadeHit>)
    ensures IsCascade(g, origin, bound, hits)
    ensures forall i, j :: 0 <= i <= j < |hits| ==> |hits[i].path| <= |hits[j].path|
  {
    hits := [];
    var visited: set<(CompartmentNo, nat)> := {};
    var queue := [Item(origin, 0, [])];
    ghost var head := 0;
    NothingTaken(g, origin, bound);
    hide *;
    while queue != []
      invariant Progress(g, origin, bound, hits, visited, queue, head)
      decreases |Keys(g.edges)| + 1 - head
    {
      Front(g, origin, bound, hits, visited, queue, head);
      var current := queue[0];
      ghost var before, seen, waiting := hits, visited, queue;
      queue := queue[1..];
      var depth := Next(current.depth);
      ghost var added := [];
      if depth <= bound.maxHops {
        hits, visited, queue, added := Expand(g, origin, bound, current, depth, hits, visited, queue);
      } else {
        BeyondBound(g, origin, bound, hits, current);
        EmptyQueue();
        assert hits == before + added && queue == waiting[1..] + Queued(added);
      }
      Onward(g, origin, bound, before, seen, waiting, head, added, visited);
      head := head + 1;
    }
    Drained(g, origin, bound, hits, visited, queue, head);
  }

  lemma NothingTaken(g: AdjacencyGraph, origin: CompartmentNo, bound: TraversalBound)
    ensures Progress(g, origin, bound, [], {}, [Item(origin, 0, [])], 0)
  {
    Start(g, origin, bound);
    EmptyQueue();
    hide Consistent, AllSound, Admissible, Expanded, WithinHorizon, Queued;
  }

  lemma Drained(
      g: AdjacencyGraph, origin: CompartmentNo, bound: TraversalBound, hits: seq<CascadeHit>,
      visited: set<(CompartmentNo, nat)>, queue: seq<Item>, head: nat)
    requires Progress(g, origin, bound, hits, visited, queue, head) && queue == []
    ensures IsCascade(g, origin, bound, hits)
    ensures forall i, j :: 0 <= i <= j < |hits| ==> |hits[i].path| <= |hits[j].path|
  {
    hide Consistent, AllSound, Admissible, Expanded, WithinHorizon, Queued, IsCascade;
    assert Order(origin, hits)[..head] == Order(origin, hits);
    Finish(g, origin, bound, hits, visited);
  }

  // ----- What a cascade means ---------------------------------------------

  /** The hazard reaches `space` when some walk the rule allows ends there. */
  ghost predicate Reaches(g: AdjacencyGraph, origin: CompartmentNo, bound: TraversalBound, space: CompartmentNo) {
    exists w :: WalkTo(g, origin, bound, space, w)
  }

  ghost predicate WalkTo(
      g: AdjacencyGraph, origin: CompartmentNo, bound: TraversalBound, space: CompartmentNo, w: seq<CouplingEdge>) {
    w != [] && Admissible(g, origin, bound, w) && EndOf(origin, w) == space
  }

  lemma HitIsSound(g: AdjacencyGraph, origin: CompartmentNo, bound: TraversalBound, hits: seq<CascadeHit>, i: nat)
    requires IsCascade(g, origin, bound, hits) && i < |hits|
    ensures SoundHit(g, origin, bound, hits[i])
  {
    hide SoundHit, Admissible;
  }

  /** A space is reported exactly when the hazard reaches it. */
  lemma ReportedIffReached(
      g: AdjacencyGraph, origin: CompartmentNo, bound: TraversalBound, hits: seq<CascadeHit>, space: CompartmentNo)
    requires IsCascade(g, origin, bound, hits)
    ensures (exists i :: 0 <= i < |hits| && hits[i].compartment == space) <==> Reaches(g, origin, bound, space)
  {
    if i :| 0 <= i < |hits| && hits[i].compartment == space {
      assert SoundHit(g, origin, bound, hits[i]);
      assert WalkTo(g, origin, bound, space, hits[i].path);
    }
    if w :| WalkTo(g, origin, bound, space, w) {
      assert Covers(hits, KeyOf(w[|w| - 1]), |w|);
    }
  }

  /** A hit's path is a shortest admissible walk to its (space, coupling type). */
  lemma HitIsShortest(
      g: AdjacencyGraph, origin: CompartmentNo, bound: TraversalBound, hits: seq<CascadeHit>, i: nat,
      w: seq<CouplingEdge>)
    requires IsCascade(g, origin, bound, hits)
    requires i < |hits| && w != [] && Admissible(g, origin, bound, w) && KeyOf(w[|w| - 1]) == HitKey(hits[i])
    ensures |hits[i].path| <= |w|
  {
    assert Covers(hits, KeyOf(w[|w| - 1]), |w|);
    var j :| 0 <= j < |hits| && HitKey(hits[j]) == KeyOf(w[|w| - 1]) && |hits[j].path| <= |w|;
    assert i == j;
  }

  lemma {:induction false} AdmissibleLast(
      g: AdjacencyGraph, origin: CompartmentNo, bound: TraversalBound, w: seq<CouplingEdge>, i: nat)
    requires Admissible(g, origin, bound, w) && i < |w|
    ensures w[i] in g.edges && Crosses(w[i], Hops(i + 1), origin, bound)
    ensures w[i].from == (if i == 0 then origin else w[i - 1].to)
  {
    var n := |w| - 1;
    if i < n {
      AdmissibleLast(g, origin, bound, w[..n], i);
    }
  }

  /** The hazard's own space is never reported, and neither is a step against a
      coupling's direction, past its reach, or over another kind of coupling. */
  lemma HitRespectsRule(
      g: AdjacencyGraph, origin: CompartmentNo, bound: TraversalBound, hits: seq<CascadeHit>, h: nat, i: nat)
    requires IsCascade(g, origin, bound, hits) && h < |hits| && i < |hits[h].path|
    ensures hits[h].compartment != origin && hits[h].path[i].to != origin
    ensures hits[h].path[i] in g.edges && hits[h].path[i].from == (if i == 0 then origin else hits[h].path[i - 1].to)
    ensures Hops(i + 1) <= hits[h].path[i].maxReach && Hops(i + 1) <= bound.maxHops
    ensures bound.code.Some? ==> hits[h].path[i].code == bound.code.value
  {
    hide Admissible, IsCascade;
    HitIsSound(g, origin, bound, hits, h);
    AdmissibleLast(g, origin, bound, hits[h].path, i);
    AdmissibleLast(g, origin, bound, hits[h].path, |hits[h].path| - 1);
  }

  /** Below the largest byte the hop bound is a bound on the path itself. */
  lemma HopBoundRespected(
      g: AdjacencyGraph, origin: CompartmentNo, bound: TraversalBound, hits: seq<CascadeHit>, h: nat)
    requires IsCascade(g, origin, bound, hits) && h < |hits|
    requires bound.maxHops < 255
    ensures |hits[h].path| <= bound.maxHops && hits[h].depth == |hits[h].path|
  {
    hide Admissible, IsCascade;
    var n := |hits[h].path| - 1;
    HitIsSound(g, origin, bound, hits, h);
    HitRespectsRule(g, origin, bound, hits, h, n);
  }

  // At 255 the saturating depth counter stops counting, and the bound with it.

  function Name(i: nat): CompartmentNo
    ensures |Name(i)| == i
  {
    if i == 0 then "" else Name(i - 1) + "x"
  }

  function ChainEdge(i: nat): CouplingEdge {
    CouplingEdge(Name(i), Name(i + 1), 1, "c", 255)
  }

  function Chain(n: nat): (edges: seq<CouplingEdge>)
    ensures |edges| == n && forall i :: 0 <= i < n ==> edges[i] == ChainEdge(i)
  {
    seq(n, i requires 0 <= i < n => ChainEdge(i))
  }

  lemma {:induction false} ChainWalk(total: nat, n: nat, code: Option<string>)
    requires n <= total && (code.Some? ==> code.value == "c")
    ensures Admissible(AdjacencyGraph(Chain(total)), Name(0), TraversalBound(255, code), Chain(n))
  {
    hide Admissible, Chain, Name;
    if n == 0 {
      assert Chain(0) == [];
      NoWalk(AdjacencyGraph(Chain(total)), Name(0), TraversalBound(255, code));
    } else {
      ChainWalk(total, n - 1, code);
      assert Chain(n) == Chain(n - 1) + [ChainEdge(n - 1)];
      assert Chain(total)[n - 1] == ChainEdge(n - 1);
      assert EndOf(Name(0), Chain(n - 1)) == Name(n - 1);
      assert |Name(n)| == n && |Name(0)| == 0;
      ExtendAdmissible(AdjacencyGraph(Chain(total)), Name(0), TraversalBound(255, code), Chain(n - 1),
                       ChainEdge(n - 1));
    }
  }

  lemma NoWalk(g: AdjacencyGraph, origin: CompartmentNo, bound: TraversalBound)
    ensures Admissible(g, origin, bound, [])
  {
  }

  lemma {:induction false} ChainWalkLength(total: nat, w: seq<CouplingEdge>)
    requires Admissible(AdjacencyGraph(Chain(total)), Name(0), TraversalBound(255, None), w)
    ensures |EndOf(Name(0), w)| == |w|
  {
    if w != [] {
      var n := |w| - 1;
      ChainWalkLength(total, w[..n]);
      var i :| 0 <= i < total && Chain(total)[i] == w[n];
    }
  }

  /** With the bound at the largest byte, a chain of any length is walked to its end:
      the reported depth stays within the bound while the path does not. */
  lemma HopBoundSaturates(n: nat, hits: seq<CascadeHit>)
    requires n > 255
    requires IsCascade(AdjacencyGraph(Chain(n)), Name(0), TraversalBound(255, None), hits)
    ensures exists i :: 0 <= i < |hits| && |hits[i].path| == n && hits[i].depth == 255
  {
    var g, bound := AdjacencyGraph(Chain(n)), TraversalBound(255, None);
    ChainWalk(n, n, None);
    var w := Chain(n);
    assert Covers(hits, KeyOf(w[n - 1]), n);
    var i :| 0 <= i < |hits| && HitKey(hits[i]) == KeyOf(w[n - 1]) && |hits[i].path| <= n;
    HitIsSound(g, Name(0), bound, hits, i);
    ChainWalkLength(n, hits[i].path);
  }

  /** A walk whose couplings are all in another graph is a walk there. */
  lemma {:induction false} SameWalk(
      g: AdjacencyGraph, cut: AdjacencyGraph, origin: CompartmentNo, bound: TraversalBound, w: seq<CouplingEdge>)
    requires Admissible(g, origin, bound, w) && forall i :: 0 <= i < |w| ==> w[i] in cut.edges
    ensures Admissible(cut, origin, bound, w)
  {
    if w != [] {
      SameWalk(g, cut, origin, bound, w[..|w| - 1]);
    }
  }

  /** Removing couplings removes admissible walks and never creates one. */
  lemma {:induction false} AdmissibleMonotone(
      fewer: AdjacencyGraph, more: AdjacencyGraph, origin: CompartmentNo, bound: TraversalBound, w: seq<CouplingEdge>)
    requires forall e :: e in fewer.edges ==> e in more.edges
    requires Admissible(fewer, origin, bound, w)
    ensures Admissible(more, origin, bound, w)
  {
    if w != [] {
      AdmissibleMonotone(fewer, more, origin, bound, w[..|w| - 1]);
    }
  }

  lemma ReachesMonotone(
      fewer: AdjacencyGraph, more: AdjacencyGraph, origin: CompartmentNo, bound: TraversalBound, space: CompartmentNo)
    requires forall e :: e in fewer.edges ==> e in more.edges
    requires Reaches(fewer, origin, bound, space)
    ensures Reaches(more, origin, bound, space)
  {
    var w :| WalkTo(fewer, origin, bound, space, w);
    AdmissibleMonotone(fewer, more, origin, bound, w);
    assert WalkTo(more, origin, bound, space, w);
  }

  lemma {:induction false} WalkAvoids(
      g: AdjacencyGraph, extra: CouplingEdge, origin: CompartmentNo, bound: TraversalBound, w: seq<CouplingEdge>)
    requires extra.from != origin && !Reaches(g, origin, bound, extra.from)
    requires Admissible(AdjacencyGraph(g.edges + [extra]), origin, bound, w)
    ensures Admissible(g, origin, bound, w)
  {
    if w != [] {
      var before := w[..|w| - 1];
      WalkAvoids(g, extra, origin, bound, before);
      if before != [] && EndOf(origin, before) == extra.from {
        assert WalkTo(g, origin, bound, extra.from, before);
      }
    }
  }

  /** A coupling that leaves a space the hazard does not reach changes nothing. */
  lemma UnrelatedCoupling(
      g: AdjacencyGraph, extra: CouplingEdge, origin: CompartmentNo, bound: TraversalBound, space: CompartmentNo)
    requires extra.from != origin && !Reaches(g, origin, bound, extra.from)
    ensures Reaches(AdjacencyGraph(g.edges + [extra]), origin, bound, space) <==> Reaches(g, origin, bound, space)
  {
    var g' := AdjacencyGraph(g.edges + [extra]);
    if Reaches(g, origin, bound, space) {
      ReachesMonotone(g, g', origin, bound, space);
    }
    if w :| WalkTo(g', origin, bound, space, w) {
      WalkAvoids(g, extra, origin, bound, w);
      assert WalkTo(g, origin, bound, space, w);
    }
  }
}
