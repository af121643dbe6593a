/** The segment forest of a distributed package: each segment names the one
    segment upstream of it. Walks up (`depthOf`, `ancestors`) and walks down
    (`descendants`, `walkOrder`) are shown to describe the same forest. */
module Forest {
  import opened Sequences

  datatype Segment = Segment(id: string, up: Option<string>, comps: seq<string>)

  /** `byId`: a later segment of the same id replaces an earlier one. */
  function Index(segs: seq<Segment>): (m: map<string, Segment>)
    ensures forall id :: id in m ==> m[id] in segs && m[id].id == id
    ensures forall s :: s in segs ==> s.id in m
  {
    if segs == [] then map[]
    else
      var n := |segs| - 1;
      assert segs == segs[..n] + [segs[n]];
      Index(segs[..n])[segs[n].id := segs[n]]
  }

  ghost predicate UniqueIds(segs: seq<Segment>) {
    forall i, j :: 0 <= i < j < |segs| ==> segs[i].id != segs[j].id
  }

  /** `rank` strictly decreases along every upstream pointer. */
  ghost predicate Ranked(segs: seq<Segment>, rank: map<string, nat>) {
    forall s :: s in segs ==>
      s.id in rank && (s.up.Some? ==> s.up.value in rank && rank[s.up.value] < rank[s.id])
  }

  /** The upstream pointers form a forest: ids are unique, every pointer lands on a
      segment of the package, and none of them leads round a cycle. */
  ghost predicate IsForest(segs: seq<Segment>) {
    && UniqueIds(segs)
    && (forall s :: s in segs && s.up.Some? ==> s.up.value in Index(segs))
    && exists rank :: Ranked(segs, rank)
  }

  ghost function Rank(segs: seq<Segment>): (rank: map<string, nat>)
    requires IsForest(segs)
    ensures Ranked(segs, rank)
  {
    var rank :| Ranked(segs, rank);
    rank
  }

  ghost function RankOf(segs: seq<Segment>, s: Segment): nat
    requires IsForest(segs) && s in segs
  {
    Rank(segs)[s.id]
  }

  lemma SameId(segs: seq<Segment>, s: Segment, t: Segment)
    requires UniqueIds(segs) && s in segs && t in segs && s.id == t.id
    ensures s == t
  {
    var i :| 0 <= i < |segs| && segs[i] == s;
    var j :| 0 <= j < |segs| && segs[j] == t;
    if i < j || j < i { assert false; }
  }

  /** The segment immediately upstream. */
  function Parent(segs: seq<Segment>, s: Segment): (u: Segment)
    requires IsForest(segs) && s in segs && s.up.Some?
    ensures u in segs && u.id == s.up.value && RankOf(segs, u) < RankOf(segs, s)
  {
    Index(segs)[s.up.value]
  }

  // ----- Upwards --------------------------------------------------------------

  /** Everything upstream of `s`, nearest first. */
  function Ancestors(segs: seq<Segment>, s: Segment): (up: seq<Segment>)
    requires IsForest(segs) && s in segs
    ensures forall a :: a in up ==> a in segs && RankOf(segs, a) < RankOf(segs, s)
    decreases RankOf(segs, s)
  {
    if s.up.None? then [] else [Parent(segs, s)] + Ancestors(segs, Parent(segs, s))
  }

  ghost predicate OnPath(segs: seq<Segment>, a: Segment, s: Segment)
    requires IsForest(segs) && s in segs
  {
    a == s || a in Ancestors(segs, s)
  }

  /** The `while` walk of `ancestors`. */
  method AncestorsOf(segs: seq<Segment>, s: Segment) returns (out: seq<Segment>)
    requires IsForest(segs) && s in segs
    ensures out == Ancestors(segs, s)
  {
    hide IsForest, Ancestors;
    var byId := Index(segs);
    out := [];
    var cur := s;
    while cur.up.Some?
      invariant cur in segs
      invariant Ancestors(segs, s) == out + Ancestors(segs, cur)
      decreases RankOf(segs, cur)
    {
      OneUp(segs, cur);
      out := out + [byId[cur.up.value]];
      cur := byId[cur.up.value];
    }
    AtRoot(segs, cur);
  }

  lemma OneUp(segs: seq<Segment>, s: Segment)
    requires IsForest(segs) && s in segs && s.up.Some?
    ensures s.up.value in Index(segs) && Index(segs)[s.up.value] == Parent(segs, s)
    ensures Ancestors(segs, s) == [Parent(segs, s)] + Ancestors(segs, Parent(segs, s))
  {
  }

  lemma AtRoot(segs: seq<Segment>, s: Segment)
    requires IsForest(segs) && s in segs && s.up.None?
    ensures Ancestors(segs, s) == []
  {
  }

  /** The `while` walk of `depthOf` counts the ancestors. */
  method DepthOf(segs: seq<Segment>, s: Segment) returns (d: nat)
    requires IsForest(segs) && s in segs
    ensures d == |Ancestors(segs, s)|
  {
    var byId := Index(segs);
    d := 0;
    var cur := s;
    while cur.up.Some?
      invariant cur in segs
      invariant |Ancestors(segs, s)| == d + |Ancestors(segs, cur)|
      decreases RankOf(segs, cur)
    {
      assert byId[cur.up.value] == Parent(segs, cur);
      d := d + 1;
      cur := byId[cur.up.value];
    }
  }

  lemma {:induction false} AncestorsTransitive(segs: seq<Segment>, s: Segment, a: Segment, b: Segment)
    requires IsForest(segs) && s in segs && a in segs
    requires OnPath(segs, a, s) && b in Ancestors(segs, a)
    ensures b in Ancestors(segs, s)
    decreases RankOf(segs, s)
  {
    hide IsForest;
    if a != s && a != Parent(segs, s) {
      AncestorsTransitive(segs, Parent(segs, s), a, b);
    }
  }

  /** Between `s` and anything above it lies a child of what is above. */
  lemma {:induction false} StepDown(segs: seq<Segment>, s: Segment, a: Segment) returns (k: Segment)
    requires IsForest(segs) && s in segs && a in Ancestors(segs, s)
    ensures k in segs && k.up == Some(a.id) && OnPath(segs, k, s)
    decreases RankOf(segs, s)
  {
    hide IsForest;
    var u := Parent(segs, s);
    if a == u {
      k := s;
    } else {
      k := StepDown(segs, u, a);
    }
  }

  lemma ChildBelow(segs: seq<Segment>, k: Segment, a: Segment)
    requires IsForest(segs) && k in segs && a in segs && k.up == Some(a.id)
    ensures Ancestors(segs, k) == [a] + Ancestors(segs, a)
    ensures RankOf(segs, a) < RankOf(segs, k)
  {
    SameId(segs, Parent(segs, k), a);
  }

  lemma SiblingNotAncestor(segs: seq<Segment>, k: Segment, other: Segment)
    requires IsForest(segs) && k in segs && other in segs && k.up == other.up
    ensures other !in Ancestors(segs, k)
  {
    if k.up.Some? {
      var u := Parent(segs, k);
      ChildBelow(segs, k, u);
      ChildBelow(segs, other, u);
    }
  }

  /** A path to the root passes through at most one of a set of siblings. */
  lemma {:induction false} OneSiblingOnPath(segs: seq<Segment>, s: Segment, a: Segment, b: Segment)
    requires IsForest(segs) && s in segs && a in segs && b in segs && a.up == b.up
    requires OnPath(segs, a, s) && OnPath(segs, b, s)
    ensures a == b
    decreases RankOf(segs, s)
  {
    hide IsForest;
    if a == s {
      SiblingNotAncestor(segs, s, b);
    } else if b == s {
      SiblingNotAncestor(segs, s, a);
    } else {
      OneSiblingOnPath(segs, Parent(segs, s), a, b);
    }
  }

  lemma {:induction false} RootOf(segs: seq<Segment>, s: Segment) returns (root: Segment)
    requires IsForest(segs) && s in segs
    ensures root in segs && root.up == None && OnPath(segs, root, s)
    decreases RankOf(segs, s)
  {
    hide IsForest;
    if s.up.None? {
      root := s;
    } else {
      root := RootOf(segs, Parent(segs, s));
    }
  }

  // ----- Downwards ------------------------------------------------------------

  function Children(segs: seq<Segment>, pid: Option<string>): seq<Segment> {
    Filter((s: Segment) => s.up == pid, segs)
  }

  /** The segments a walk below `pid` may still visit. */
  ghost function Below(segs: seq<Segment>, pid: Option<string>): set<Segment>
    requires IsForest(segs)
  {
    set s | s in segs && (pid.Some? ==> pid.value in Rank(segs) && Rank(segs)[pid.value] < RankOf(segs, s))
  }

  lemma BelowShrinks(segs: seq<Segment>, pid: Option<string>, k: Segment)
    requires IsForest(segs) && k in segs && k.up == pid
    ensures Below(segs, Some(k.id)) < Below(segs, pid)
  {
    assert k in Below(segs, pid);
    assert k !in Below(segs, Some(k.id));
  }

  /** The segments below `pid`, those under `kids` only, each followed by its own. */
  function Preorder(segs: seq<Segment>, pid: Option<string>, kids: seq<Segment>): seq<Segment>
    requires IsForest(segs) && forall k :: k in kids ==> k in segs && k.up == pid
    decreases Below(segs, pid), |kids|
  {
    if kids == [] then []
    else
      BelowShrinks(segs, pid, kids[0]);
      var under := Some(kids[0].id);
      [kids[0]] + Preorder(segs, under, Children(segs, under)) + Preorder(segs, pid, kids[1..])
  }

  /** Everything downstream of the segment `id`, in walk order. */
  function Descendants(segs: seq<Segment>, id: string): seq<Segment>
    requires IsForest(segs)
  {
    Preorder(segs, Some(id), Children(segs, Some(id)))
  }

  ghost predicate UnderOneOf(segs: seq<Segment>, kids: seq<Segment>, s: Segment)
    requires IsForest(segs)
  {
    s in segs && exists k :: k in kids && OnPath(segs, k, s)
  }

  lemma {:induction false} PreorderSound(segs: seq<Segment>, pid: Option<string>, kids: seq<Segment>, s: Segment)
    requires IsForest(segs) && forall k :: k in kids ==> k in segs && k.up == pid
    requires s in Preorder(segs, pid, kids)
    ensures UnderOneOf(segs, kids, s)
    decreases Below(segs, pid), |kids|
  {
    hide IsForest, Ancestors, Children;
    var k := kids[0];
    BelowShrinks(segs, pid, k);
    ChildrenAre(segs, Some(k.id));
    var kidsBelow := Children(segs, Some(k.id));
    if s == k {
      assert OnPath(segs, k, s);
    } else if s in Preorder(segs, Some(k.id), kidsBelow) {
      PreorderSound(segs, Some(k.id), kidsBelow, s);
      var j :| j in kidsBelow && OnPath(segs, j, s);
      ChildBelow(segs, j, k);
      AncestorsTransitive(segs, s, j, k);
      assert OnPath(segs, k, s);
    } else {
      PreorderSound(segs, pid, kids[1..], s);
      var j :| j in kids[1..] && OnPath(segs, j, s);
      assert j in kids;
    }
  }

  lemma ChildrenAre(segs: seq<Segment>, pid: Option<string>)
    ensures forall k :: k in Children(segs, pid) <==> k in segs && k.up == pid
  {
  }

  lemma {:induction false} PreorderComplete(
      segs: seq<Segment>, pid: Option<string>, kids: seq<Segment>, k: Segment, s: Segment)
    requires IsForest(segs) && forall k :: k in kids ==> k in segs && k.up == pid
    requires k in kids && s in segs && OnPath(segs, k, s)
    ensures s in Preorder(segs, pid, kids)
    decreases Below(segs, pid), |kids|
  {
    hide IsForest, Ancestors, Children;
    if k != kids[0] {
      PreorderComplete(segs, pid, kids[1..], k, s);
    } else if k != s {
      BelowShrinks(segs, pid, k);
      ChildrenAre(segs, Some(k.id));
      var j := StepDown(segs, s, k);
      PreorderComplete(segs, Some(k.id), Children(segs, Some(k.id)), j, s);
    }
  }

  /** The downward and the upward walks agree: `d` is downstream of `h` exactly when
      `h` is upstream of `d`. */
  lemma DescendantIffAncestor(segs: seq<Segment>, h: Segment, d: Segment)
    requires IsForest(segs) && h in segs
    ensures d in Descendants(segs, h.id) <==> d in segs && h in Ancestors(segs, d)
  {
    hide IsForest, Ancestors, Children, Preorder;
    ChildrenAre(segs, Some(h.id));
    var kids := Children(segs, Some(h.id));
    if d in Descendants(segs, h.id) {
      PreorderSound(segs, Some(h.id), kids, d);
      var k :| k in kids && OnPath(segs, k, d);
      ChildBelow(segs, k, h);
      AncestorsTransitive(segs, d, k, h);
    }
    if d in segs && h in Ancestors(segs, d) {
      var k := StepDown(segs, d, h);
      PreorderComplete(segs, Some(h.id), kids, k, d);
    }
  }

  /** A walk visits no segment twice. */
  lemma {:induction false} PreorderNoDup(segs: seq<Segment>, pid: Option<string>, kids: seq<Segment>)
    requires IsForest(segs) && NoDup(segs) && NoDup(kids)
    requires forall k :: k in kids ==> k in segs && k.up == pid
    ensures NoDup(Preorder(segs, pid, kids))
    decreases Below(segs, pid), |kids|
  {
    hide IsForest, Ancestors, Children;
    if kids != [] {
      var k, under := kids[0], Some(kids[0].id);
      var kidsBelow := Children(segs, under);
      BelowShrinks(segs, pid, k);
      ChildrenAre(segs, under);
      ChildrenNoDup(segs, under);
      PreorderNoDup(segs, under, kidsBelow);
      PreorderNoDup(segs, pid, kids[1..]);
      var sub, rest := Preorder(segs, under, kidsBelow), Preorder(segs, pid, kids[1..]);
      forall x | x in sub ensures x != k && x !in rest {
        SubtreeApart(segs, pid, kids, x);
      }
      if k in rest {
        PreorderSound(segs, pid, kids[1..], k);
        var j :| j in kids[1..] && OnPath(segs, j, k);
        SiblingNotAncestor(segs, k, j);
        assert false;
      }
      NoDupConcat([k], sub);
      NoDupConcat([k] + sub, rest);
    }
  }

  lemma ChildrenNoDup(segs: seq<Segment>, pid: Option<string>)
    requires NoDup(segs)
    ensures NoDup(Children(segs, pid))
  {
    FilterNoDup((s: Segment) => s.up == pid, segs);
  }

  /** What lies under the first child is not that child, nor under another one. */
  lemma SubtreeApart(segs: seq<Segment>, pid: Option<string>, kids: seq<Segment>, x: Segment)
    requires IsForest(segs) && NoDup(kids) && kids != []
    requires forall k :: k in kids ==> k in segs && k.up == pid
    requires var under := Some(kids[0].id); x in Preorder(segs, under, Children(segs, under))
    ensures x != kids[0] && x !in Preorder(segs, pid, kids[1..])
  {
    hide IsForest, Ancestors, Children, Preorder;
    var k := kids[0];
    DescendantIffAncestor(segs, k, x);
    if x in Preorder(segs, pid, kids[1..]) {
      PreorderSound(segs, pid, kids[1..], x);
      var j :| j in kids[1..] && OnPath(segs, j, x);
      OneSiblingOnPath(segs, x, k, j);
      assert false;
    }
  }

  /** In walk order a segment comes after the one upstream of it. */
  lemma {:induction false} ParentsFirst(segs: seq<Segment>, pid: Option<string>, kids: seq<Segment>, i: nat)
    requires IsForest(segs) && forall k :: k in kids ==> k in segs && k.up == pid
    requires i < |Preorder(segs, pid, kids)|
    ensures var order := Preorder(segs, pid, kids);
            order[i].up == pid || exists j :: 0 <= j < i && Some(order[j].id) == order[i].up
    decreases Below(segs, pid), |kids|
  {
    hide IsForest, Children;
    var k, under := kids[0], Some(kids[0].id);
    BelowShrinks(segs, pid, k);
    ChildrenAre(segs, under);
    var sub := Preorder(segs, under, Children(segs, under));
    var rest := Preorder(segs, pid, kids[1..]);
    var order := Preorder(segs, pid, kids);
    assert order == [k] + sub + rest && order[0] == k;
    if 1 <= i < 1 + |sub| {
      ParentsFirst(segs, under, Children(segs, under), i - 1);
      assert order[i] == sub[i - 1];
      hide Preorder;
      if sub[i - 1].up != under {
        var j :| 0 <= j < i - 1 && Some(sub[j].id) == sub[i - 1].up;
        assert order[j + 1] == sub[j];
      }
    } else if i >= 1 + |sub| {
      var at := i - 1 - |sub|;
      ParentsFirst(segs, pid, kids[1..], at);
      assert order[i] == rest[at];
      hide Preorder;
      if rest[at].up != pid {
        var j :| 0 <= j < at && Some(rest[j].id) == rest[at].up;
        assert order[j + 1 + |sub|] == rest[j];
      }
    }
  }

  datatype Visit = Visit(seg: Segment, depth: nat)

  /** `walkOrder`: the same walk, carrying the depth down with it. */
  function WalkOrder(segs: seq<Segment>, pid: Option<string>, kids: seq<Segment>, d: nat): seq<Visit>
    requires IsForest(segs) && forall k :: k in kids ==> k in segs && k.up == pid
    decreases Below(segs, pid), |kids|
  {
    if kids == [] then []
    else
      BelowShrinks(segs, pid, kids[0]);
      var under := Some(kids[0].id);
      [Visit(kids[0], d)] + WalkOrder(segs, under, Children(segs, under), d + 1) + WalkOrder(segs, pid, kids[1..], d)
  }

  /** The depth carried down equals the depth counted up. */
  lemma {:induction false} WalkOrderIs(segs: seq<Segment>, pid: Option<string>, kids: seq<Segment>, d: nat)
    requires IsForest(segs) && forall k :: k in kids ==> k in segs && k.up == pid && |Ancestors(segs, k)| == d
    ensures Tagged(segs, Preorder(segs, pid, kids), WalkOrder(segs, pid, kids, d))
    decreases Below(segs, pid), |kids|
  {
    hide IsForest, Ancestors, Children;
    if kids != [] {
      var k, under := kids[0], Some(kids[0].id);
      var kidsBelow := Children(segs, under);
      BelowShrinks(segs, pid, k);
      ChildrenAre(segs, under);
      forall j | j in kidsBelow ensures |Ancestors(segs, j)| == d + 1 {
        ChildBelow(segs, j, k);
      }
      WalkOrderIs(segs, under, kidsBelow, d + 1);
      WalkOrderIs(segs, pid, kids[1..], d);
      ConcatVisits(segs, [k], Preorder(segs, under, kidsBelow), [Visit(k, d)],
                   WalkOrder(segs, under, kidsBelow, d + 1));
      ConcatVisits(segs, [k] + Preorder(segs, under, kidsBelow), Preorder(segs, pid, kids[1..]),
                   [Visit(k, d)] + WalkOrder(segs, under, kidsBelow, d + 1), WalkOrder(segs, pid, kids[1..], d));
    }
  }

  ghost predicate Tagged(segs: seq<Segment>, order: seq<Segment>, walk: seq<Visit>)
    requires IsForest(segs)
  {
    && |walk| == |order|
    && forall i :: 0 <= i < |order| ==> order[i] in segs && walk[i] == Visit(order[i], |Ancestors(segs, order[i])|)
  }

  lemma ConcatVisits(segs: seq<Segment>, a: seq<Segment>, b: seq<Segment>, va: seq<Visit>, vb: seq<Visit>)
    requires IsForest(segs) && Tagged(segs, a, va) && Tagged(segs, b, vb)
    ensures Tagged(segs, a + b, va + vb)
  {
    hide IsForest, Ancestors;
  }

  /** Every segment once, at its own depth, after the one upstream of it. */
  ghost predicate ListsForest(segs: seq<Segment>, walk: seq<Visit>)
    requires IsForest(segs)
  {
    && (forall s :: s in segs ==> exists i :: 0 <= i < |walk| && walk[i].seg == s)
    && (forall i :: 0 <= i < |walk| ==> walk[i].seg in segs && walk[i].depth == |Ancestors(segs, walk[i].seg)|)
    && (forall i, j :: 0 <= i < j < |walk| ==> walk[i].seg != walk[j].seg)
    && (forall i :: 0 <= i < |walk| && walk[i].seg.up.Some? ==> AfterParent(walk, i))
  }

  ghost predicate AfterParent(walk: seq<Visit>, i: nat)
    requires i < |walk| && walk[i].seg.up.Some?
  {
    exists j :: 0 <= j < i && walk[j].seg.id == walk[i].seg.up.value
  }

  lemma VisitsListForest(segs: seq<Segment>, order: seq<Segment>, walk: seq<Visit>)
    requires IsForest(segs) && Tagged(segs, order, walk) && NoDup(order)
    requires forall s :: s in segs ==> s in order
    requires forall i :: 0 <= i < |order| && order[i].up.Some? ==>
             exists j :: 0 <= j < i && order[j].id == order[i].up.value
    ensures ListsForest(segs, walk)
  {
    hide IsForest, Ancestors, AfterParent;
    forall s | s in segs ensures exists i :: 0 <= i < |walk| && walk[i].seg == s {
      var i :| 0 <= i < |order| && order[i] == s;
      assert walk[i].seg == s;
    }
    forall i | 0 <= i < |walk| && walk[i].seg.up.Some? ensures AfterParent(walk, i) {
      UpstreamVisited(order, walk, i);
    }
  }

  lemma UpstreamVisited(order: seq<Segment>, walk: seq<Visit>, i: nat)
    requires |walk| == |order| && forall j :: 0 <= j < |order| ==> walk[j].seg == order[j]
    requires i < |order| && order[i].up.Some? && exists j :: 0 <= j < i && order[j].id == order[i].up.value
    ensures AfterParent(walk, i)
  {
    var j :| 0 <= j < i && order[j].id == order[i].up.value;
    assert walk[j].seg == order[j];
  }

  /** The run tree lists every segment exactly once, each after the one upstream of
      it and at its own depth. */
  lemma RunTreeIsComplete(segs: seq<Segment>)
    requires IsForest(segs)
    ensures ListsForest(segs, WalkOrder(segs, None, Children(segs, None), 0))
  {
    NoDupSegs(segs);
    ChildrenAre(segs, None);
    var roots := Children(segs, None);
    ChildrenNoDup(segs, None);
    RootsHaveNoAncestors(segs);
    hide IsForest, Children, Preorder, WalkOrder, Ancestors, ListsForest;
    var order := Preorder(segs, None, roots);
    WalkOrderIs(segs, None, roots, 0);
    PreorderNoDup(segs, None, roots);
    forall s | s in segs ensures s in order {
      var root := RootOf(segs, s);
      PreorderComplete(segs, None, roots, root, s);
    }
    forall i | 0 <= i < |order| && order[i].up.Some?
        ensures exists j :: 0 <= j < i && order[j].id == order[i].up.value {
      ParentsFirst(segs, None, roots, i);
    }
    VisitsListForest(segs, order, WalkOrder(segs, None, roots, 0));
  }

  lemma NoDupSegs(segs: seq<Segment>)
    requires UniqueIds(segs)
    ensures NoDup(segs)
  {
    forall i, j | 0 <= i < j < |segs| ensures segs[i] != segs[j] {
      assert segs[i].id != segs[j].id;
    }
  }

  lemma RootsHaveNoAncestors(segs: seq<Segment>)
    requires IsForest(segs)
    ensures forall k :: k in Children(segs, None) ==> |Ancestors(segs, k)| == 0
  {
  }

  lemma WalkStep(segs: seq<Segment>, pid: Option<string>, kids: seq<Segment>, i: nat, d: nat)
    requires IsForest(segs) && i < |kids| && forall k :: k in kids ==> k in segs && k.up == pid
    ensures WalkOrder(segs, pid, kids[i..], d)
         == [Visit(kids[i], d)] + WalkOrder(segs, Some(kids[i].id), Children(segs, Some(kids[i].id)), d + 1)
            + WalkOrder(segs, pid, kids[i + 1..], d)
  {
    hide IsForest, Children;
    assert kids[i..][0] == kids[i] && kids[i..][1..] == kids[i + 1..];
  }

  lemma WalkEnd(segs: seq<Segment>, pid: Option<string>, kids: seq<Segment>, d: nat)
    requires IsForest(segs) && forall k :: k in kids ==> k in segs && k.up == pid
    ensures WalkOrder(segs, pid, kids[|kids|..], d) == []
  {
  }

  /** The pushing walk: `order.push([s, d])`, then the walk below `s`. */
  class RunTree {
    var order: seq<Visit>

    constructor ()
      ensures order == []
    {
      order := [];
    }

    method Walk(segs: seq<Segment>, pid: Option<string>, d: nat)
      requires IsForest(segs)
      modifies this
      ensures order == old(order) + WalkOrder(segs, pid, Children(segs, pid), d)
      decreases Below(segs, pid), |segs| + 1
    {
      ChildrenAre(segs, pid);
      hide IsForest, WalkOrder, Children, Below;
      var kids := Children(segs, pid);
      ghost var before := order;
      assert kids[0..] == kids;
      for i := 0 to |kids|
        invariant order + WalkOrder(segs, pid, kids[i..], d) == before + WalkOrder(segs, pid, kids, d)
      {
        var s := kids[i];
        BelowShrinks(segs, pid, s);
        WalkStep(segs, pid, kids, i, d);
        order := order + [Visit(s, d)];
        Walk(segs, Some(s.id), d + 1);
      }
      WalkEnd(segs, pid, kids, d);
    }
  }
}
