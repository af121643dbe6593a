/** A distributed package over its segment forest: which segments may be tested,
    what each open compartment strands downstream, and which compartment governs. */
module Stranding {
  import opened Sequences
  import opened Forest

  datatype Compartment = Compartment(mh: int, done: int)

  /** `keys` is the order in which the compartments are enumerated. */
  datatype Package = Package(segs: seq<Segment>, keys: seq<string>, comps: map<string, Compartment>)

  ghost predicate WellFormed(p: Package) {
    && IsForest(p.segs)
    && NoDup(p.keys)
    && (forall c :: c in p.keys <==> c in p.comps)
    && (forall s, c :: s in p.segs && c in s.comps ==> c in p.comps)
  }

  // ----- Roll-up ----------------------------------------------------------------

  function Mh(p: Package): string -> int {
    c => if c in p.comps then p.comps[c].mh else 0
  }

  function Done(p: Package): string -> int {
    c => if c in p.comps then p.comps[c].done else 0
  }

  function Left(p: Package): string -> int {
    c => Mh(p)(c) - Done(p)(c)
  }

  predicate Open(p: Package, c: string) {
    c in p.comps && p.comps[c].done < p.comps[c].mh
  }

  function OpenComps(p: Package, s: Segment): seq<string> {
    Filter((c: string) => Open(p, c), s.comps)
  }

  predicate Complete(p: Package, s: Segment) {
    OpenComps(p, s) == []
  }

  function SegLeft(p: Package): Segment -> int {
    (s: Segment) => Sum(Mh(p), s.comps) - Sum(Done(p), s.comps)
  }

  /** The incomplete segments at or upstream of `s`. */
  function Blockers(p: Package, s: Segment): seq<Segment>
    requires IsForest(p.segs) && s in p.segs
  {
    Filter((x: Segment) => !Complete(p, x), [s] + Ancestors(p.segs, s))
  }

  predicate Testable(p: Package, s: Segment)
    requires IsForest(p.segs) && s in p.segs
  {
    Blockers(p, s) == []
  }

  function HeldBy(p: Package, s: Segment): seq<string>
    requires IsForest(p.segs) && s in p.segs
  {
    Ids(Filter((x: Segment) => x.id != s.id, Blockers(p, s)))
  }

  function Ids(segs: seq<Segment>): (ids: seq<string>)
    ensures |ids| == |segs| && forall i :: 0 <= i < |segs| ==> ids[i] == segs[i].id
  {
    seq(|segs|, i requires 0 <= i < |segs| => segs[i].id)
  }

  datatype SegStat = SegStat(mh: int, done: int, open: seq<string>, complete: bool, testable: bool, heldBy: seq<string>)

  function StatOf(p: Package, s: Segment): SegStat
    requires IsForest(p.segs) && s in p.segs
  {
    SegStat(Sum(Mh(p), s.comps), Sum(Done(p), s.comps), OpenComps(p, s), Complete(p, s), Testable(p, s), HeldBy(p, s))
  }

  // ----- Stranding ----------------------------------------------------------------

  function Homes(p: Package, cid: string): seq<Segment> {
    Filter((s: Segment) => cid in s.comps, p.segs)
  }

  /** Appends what is not there yet. */
  function AddNew(acc: seq<Segment>, more: seq<Segment>): seq<Segment>
    decreases |more|
  {
    if more == [] then acc
    else AddNew(if more[0] in acc then acc else acc + [more[0]], more[1..])
  }

  function Gather(p: Package, acc: seq<Segment>, homes: seq<Segment>): seq<Segment>
    requires IsForest(p.segs)
    decreases |homes|
  {
    if homes == [] then acc
    else Gather(p, AddNew(acc, Descendants(p.segs, homes[0].id)), homes[1..])
  }

  /** The segments downstream of a compartment's homes, each once. */
  function DownSegs(p: Package, cid: string): seq<Segment>
    requires IsForest(p.segs)
  {
    Gather(p, [], Homes(p, cid))
  }

  datatype Strand = Strand(own: int, down: int, segs: seq<string>, total: int)

  function StrandOf(p: Package, cid: string): Strand
    requires IsForest(p.segs)
  {
    var own := Left(p)(cid);
    if own == 0 then Strand(0, 0, [], 0)
    else
      var downSegs := DownSegs(p, cid);
      var down := Sum(SegLeft(p), downSegs);
      Strand(own, down, Ids(downSegs), down * 10 + own)
  }

  lemma AddNewIs(acc: seq<Segment>, more: seq<Segment>)
    requires NoDup(acc)
    ensures NoDup(AddNew(acc, more))
    ensures forall x :: x in AddNew(acc, more) <==> x in acc || x in more
    decreases |more|
  {
    if more != [] {
      AddNewIs(if more[0] in acc then acc else acc + [more[0]], more[1..]);
    }
  }

  lemma {:induction false} GatherIs(p: Package, acc: seq<Segment>, homes: seq<Segment>)
    requires IsForest(p.segs) && NoDup(acc)
    ensures NoDup(Gather(p, acc, homes))
    ensures forall x :: x in Gather(p, acc, homes) <==>
            x in acc || exists h :: h in homes && x in Descendants(p.segs, h.id)
    decreases |homes|
  {
    hide IsForest, Descendants, AddNew;
    if homes != [] {
      AddNewIs(acc, Descendants(p.segs, homes[0].id));
      GatherIs(p, AddNew(acc, Descendants(p.segs, homes[0].id)), homes[1..]);
    }
  }

  /** A compartment's downstream segments, each listed once: those with one of its
      homes upstream of them. */
  lemma DownSegsAre(p: Package, cid: string)
    requires IsForest(p.segs)
    ensures NoDup(DownSegs(p, cid))
    ensures forall x :: x in DownSegs(p, cid) <==>
              x in p.segs && exists h :: h in Homes(p, cid) && h in Ancestors(p.segs, x)
  {
    hide IsForest, Descendants, Gather, Ancestors;
    GatherIs(p, [], Homes(p, cid));
    forall x ensures x in DownSegs(p, cid) <==>
        x in p.segs && exists h :: h in Homes(p, cid) && h in Ancestors(p.segs, x) {
      forall h | h in Homes(p, cid)
        ensures x in Descendants(p.segs, h.id) <==> x in p.segs && h in Ancestors(p.segs, x)
      {
        DescendantIffAncestor(p.segs, h, x);
      }
    }
  }

  lemma IdListed(segs: seq<Segment>, list: seq<Segment>, s: Segment)
    requires UniqueIds(segs) && s in segs && forall x :: x in list ==> x in segs
    ensures s.id in Ids(list) <==> s in list
  {
    if s.id in Ids(list) {
      var i :| 0 <= i < |list| && list[i].id == s.id;
      SameId(segs, list[i], s);
    }
    if s in list {
      var i :| 0 <= i < |list| && list[i] == s;
      assert Ids(list)[i] == s.id;
    }
  }

  lemma TestableIff(p: Package, s: Segment)
    requires IsForest(p.segs) && s in p.segs
    ensures Testable(p, s) <==> forall x :: x in p.segs && OnPath(p.segs, x, s) ==> Complete(p, x)
  {
    hide IsForest, Ancestors, Complete;
    var path := [s] + Ancestors(p.segs, s);
    if !Testable(p, s) {
      var x := Blockers(p, s)[0];
      assert x in Blockers(p, s);
      assert x in path && !Complete(p, x);
    }
    if x :| x in p.segs && OnPath(p.segs, x, s) && !Complete(p, x) {
      assert x in path;
      assert x in Blockers(p, s);
    }
  }

  lemma IncompleteIff(p: Package, s: Segment)
    ensures !Complete(p, s) <==> exists c :: c in s.comps && Open(p, c)
  {
    if !Complete(p, s) {
      assert OpenComps(p, s)[0] in OpenComps(p, s);
    }
  }

  ghost predicate Holds(p: Package, cid: string, s: Segment)
    requires IsForest(p.segs)
  {
    cid in p.keys && Open(p, cid) && (s in Homes(p, cid) || s.id in StrandOf(p, cid).segs)
  }

  lemma StrandSegs(p: Package, cid: string)
    requires IsForest(p.segs) && cid in p.comps && p.comps[cid].mh != p.comps[cid].done
    ensures StrandOf(p, cid).segs == Ids(DownSegs(p, cid))
  {
    hide IsForest, DownSegs;
    assert Left(p)(cid) == Mh(p)(cid) - Done(p)(cid) == p.comps[cid].mh - p.comps[cid].done;
  }

  lemma HoldsIff(p: Package, cid: string, s: Segment)
    requires WellFormed(p) && s in p.segs
    ensures Holds(p, cid, s) <==>
              cid in p.keys && Open(p, cid) && exists x :: x in Homes(p, cid) && OnPath(p.segs, x, s)
  {
    NoDupIds(p.segs);
    hide IsForest, Ancestors, DownSegs, Homes, StrandOf, OnPath;
    if Open(p, cid) {
      DownSegsAre(p, cid);
      StrandSegs(p, cid);
      IdListed(p.segs, DownSegs(p, cid), s);
      OnPathIs(p, cid, s);
    }
  }

  lemma OnPathIs(p: Package, cid: string, s: Segment)
    requires WellFormed(p) && s in p.segs
    ensures (exists x :: x in Homes(p, cid) && OnPath(p.segs, x, s))
       <==> s in Homes(p, cid) || exists x :: x in Homes(p, cid) && x in Ancestors(p.segs, s)
  {
    hide IsForest, Ancestors, Homes;
    if s in Homes(p, cid) { assert OnPath(p.segs, s, s); }
    if x :| x in Homes(p, cid) && x in Ancestors(p.segs, s) { assert OnPath(p.segs, x, s); }
  }

  lemma NoDupIds(segs: seq<Segment>)
    requires IsForest(segs)
    ensures UniqueIds(segs)
  {
  }

  /** The two derivations agree. The segments held from testing, found by looking
      upstream for something incomplete, are exactly the homes of the open
      compartments together with what those compartments strand, found by looking
      downstream. No assumption is made on how much is booked where. */
  lemma HeldIffStranded(p: Package, s: Segment)
    requires WellFormed(p) && s in p.segs
    ensures !Testable(p, s) <==> exists cid :: Holds(p, cid, s)
  {
    TestableIff(p, s);
    hide IsForest, Ancestors, Complete, Testable, Open, Holds;
    if !Testable(p, s) {
      var x :| x in p.segs && OnPath(p.segs, x, s) && !Complete(p, x);
      IncompleteIff(p, x);
      var c :| c in x.comps && Open(p, c);
      HoldsIff(p, c, s);
      assert x in Homes(p, c);
      assert Holds(p, c, s);
    }
    if cid :| Holds(p, cid, s) {
      HoldsIff(p, cid, s);
      var x :| x in Homes(p, cid) && OnPath(p.segs, x, s);
      IncompleteIff(p, x);
      assert !Complete(p, x);
    }
  }

  /** A compartment's strand list holds nothing testable exactly when the compartment is
      not over-booked, or everything it lists is held by some other. */
  lemma StrandsOnlyHeldIff(p: Package, cid: string)
    requires WellFormed(p) && cid in p.keys
    ensures (forall s :: s in p.segs && s.id in StrandOf(p, cid).segs ==> !Testable(p, s)) <==>
              p.comps[cid].done <= p.comps[cid].mh
              || forall s :: s in p.segs && s.id in StrandOf(p, cid).segs ==> exists c :: c != cid && Holds(p, c, s)
  {
    hide IsForest, Testable, StrandOf, Homes;
    forall s | s in p.segs ensures !Testable(p, s) <==> exists c :: Holds(p, c, s) {
      HeldIffStranded(p, s);
    }
    if p.comps[cid].done <= p.comps[cid].mh {
      forall s | s in p.segs && s.id in StrandOf(p, cid).segs ensures !Testable(p, s) {
        ListedIsOpen(p, cid, s);
        assert Holds(p, cid, s);
      }
    } else {
      forall s | s in p.segs ensures !Holds(p, cid, s) {
      }
    }
  }

  /** With nothing over-booked only an open compartment lists anything. */
  lemma ListedIsOpen(p: Package, cid: string, s: Segment)
    requires IsForest(p.segs) && cid in p.comps && p.comps[cid].done <= p.comps[cid].mh && s.id in StrandOf(p, cid).segs
    ensures Open(p, cid)
  {
    hide IsForest, DownSegs;
  }

  const TRUNK := Segment("T", None, ["a"])
  const BRANCH := Segment("B", Some("T"), ["b"])
  const OVERBOOKED := Package([TRUNK, BRANCH], ["a", "b"], map["a" := Compartment(1, 2), "b" := Compartment(1, 1)])

  lemma OverbookedForest()
    ensures IsForest(OVERBOOKED.segs)
    ensures Ancestors(OVERBOOKED.segs, BRANCH) == [TRUNK]
  {
    var segs := OVERBOOKED.segs;
    assert segs[0] == TRUNK && segs[1] == BRANCH && TRUNK.id[0] != BRANCH.id[0];
    assert Ranked(segs, map["T" := 0, "B" := 1]);
    var trunk := Parent(segs, BRANCH);
    assert trunk == TRUNK;
  }

  /** An over-booked compartment (more done than budgeted) strands segments on paper
      that nothing holds: the strand lists are right for open compartments only. */
  lemma OverbookedStrandsNothing()
    ensures WellFormed(OVERBOOKED) && "a" in OVERBOOKED.keys && BRANCH in OVERBOOKED.segs
    ensures BRANCH.id in StrandOf(OVERBOOKED, "a").segs && Testable(OVERBOOKED, BRANCH)
  {
    var p := OVERBOOKED;
    OverbookedForest();
    hide IsForest, Ancestors, StrandOf, DownSegs;
    assert p.keys[0] == "a" && p.keys[1] == "b" && p.segs[0] == TRUNK && p.segs[1] == BRANCH;
    assert "a"[0] != "b"[0];
    assert TRUNK.comps[0] == "a" && TRUNK in Homes(p, "a");
    DownSegsAre(p, "a");
    assert BRANCH in DownSegs(p, "a");
    NoDupIds(p.segs);
    StrandSegs(p, "a");
    IdListed(p.segs, DownSegs(p, "a"), BRANCH);
    TestableIff(p, BRANCH);
    assert Complete(p, TRUNK) && Complete(p, BRANCH);
  }

  // ----- Completing a compartment -------------------------------------------------

  /** All of the compartment's hours booked as done. */
  function Finish(p: Package, cid: string): Package
    requires cid in p.comps
  {
    p.(comps := p.comps[cid := Compartment(p.comps[cid].mh, p.comps[cid].mh)])
  }

  ghost predicate WithinBudget(p: Package) {
    forall c :: c in p.comps ==> p.comps[c].done <= p.comps[c].mh
  }

  lemma FinishOpens(p: Package, cid: string, c: string)
    requires cid in p.comps
    ensures Open(Finish(p, cid), c) <==> c != cid && Open(p, c)
  {
  }

  lemma FinishHolds(p: Package, cid: string, c: string, s: Segment)
    requires WellFormed(p) && cid in p.comps && s in p.segs
    ensures WellFormed(Finish(p, cid))
    ensures Holds(Finish(p, cid), c, s) <==> c != cid && Holds(p, c, s)
  {
    var q := Finish(p, cid);
    assert WellFormed(q) by { hide IsForest; }
    hide IsForest, Finish, OnPath, Open, Holds;
    FinishOpens(p, cid, c);
    HoldsIff(p, c, s);
    HoldsIff(q, c, s);
    assert Homes(q, c) == Homes(p, c) by { FinishKeepsTopology(p, cid, c); }
  }

  lemma FinishKeepsTopology(p: Package, cid: string, c: string)
    requires cid in p.comps
    ensures Homes(Finish(p, cid), c) == Homes(p, c) && Finish(p, cid).segs == p.segs && Finish(p, cid).keys == p.keys
  {
  }

  /** Completing a compartment releases exactly the segments it alone was holding:
      nothing testable becomes untestable, and everything released is one of its homes
      or one of the segments it was stranding. */
  lemma FinishReleases(p: Package, cid: string, s: Segment)
    requires WellFormed(p) && cid in p.comps && s in p.segs
    ensures IsForest(Finish(p, cid).segs) && s in Finish(p, cid).segs
    ensures Testable(p, s) ==> Testable(Finish(p, cid), s)
    ensures !Testable(p, s) && Testable(Finish(p, cid), s) ==> s in Homes(p, cid) || s.id in StrandOf(p, cid).segs
    ensures Testable(Finish(p, cid), s) <==> forall c :: Holds(p, c, s) ==> c == cid
  {
    var q := Finish(p, cid);
    FinishKeepsTopology(p, cid, cid);
    forall c ensures Holds(q, c, s) <==> c != cid && Holds(p, c, s) {
      FinishHolds(p, cid, c, s);
    }
    FinishHolds(p, cid, cid, s);
    hide IsForest, Finish, Testable, Homes, StrandOf;
    HeldIffStranded(p, s);
    HeldIffStranded(q, s);
  }

  lemma SegLeftIsLeft(p: Package, comps: seq<string>)
    ensures Sum(Mh(p), comps) - Sum(Done(p), comps) == Sum(Left(p), comps)
  {
    if comps != [] {
      SegLeftIsLeft(p, comps[1..]);
    }
  }

  function PositiveLeft(p: Package): Segment -> int {
    (s: Segment) => Max(0, SegLeft(p)(s))
  }

  function NegativeLeft(p: Package): Segment -> int {
    (s: Segment) => Min(0, SegLeft(p)(s))
  }

  /** What a compartment strands is counted once per segment: it is at most what is left
      on the segments with hours to go, and no less than what over-booked ones owe. */
  lemma DownBounded(p: Package, cid: string)
    requires WellFormed(p)
    ensures Sum(NegativeLeft(p), p.segs) <= StrandOf(p, cid).down <= Sum(PositiveLeft(p), p.segs)
  {
    DownSegsAre(p, cid);
    hide IsForest, DownSegs, Ancestors;
    var down := DownSegs(p, cid);
    BetweenParts(p);
    hide SegLeft, PositiveLeft, NegativeLeft, Owed;
    SumNonNegative(PositiveLeft(p), p.segs);
    SumSubset(PositiveLeft(p), down, p.segs);
    SumLe(SegLeft(p), PositiveLeft(p), down);
    SumNonNegative(Owed(p), p.segs);
    SumSubset(Owed(p), down, p.segs);
    SumNegated(NegativeLeft(p), Owed(p), down);
    SumNegated(NegativeLeft(p), Owed(p), p.segs);
    SumLe(NegativeLeft(p), SegLeft(p), down);
  }

  function Owed(p: Package): Segment -> int {
    (s: Segment) => -NegativeLeft(p)(s)
  }

  lemma BetweenParts(p: Package)
    ensures forall s :: NegativeLeft(p)(s) <= SegLeft(p)(s) <= PositiveLeft(p)(s)
    ensures forall s :: PositiveLeft(p)(s) >= 0
    ensures forall s :: Owed(p)(s) >= 0
    ensures forall s :: Owed(p)(s) == -NegativeLeft(p)(s)
  {
    hide SegLeft;
  }

  lemma {:induction false} SumNegated(f: Segment -> int, g: Segment -> int, segs: seq<Segment>)
    requires forall s :: g(s) == -f(s)
    ensures Sum(g, segs) == -Sum(f, segs)
  {
    if segs != [] {
      SumNegated(f, g, segs[1..]);
    }
  }

  lemma DownWithinBudget(p: Package, cid: string)
    requires WellFormed(p) && WithinBudget(p)
    ensures 0 <= StrandOf(p, cid).down <= Sum(SegLeft(p), p.segs)
  {
    DownBounded(p, cid);
    forall s ensures SegLeft(p)(s) >= 0 {
      SegLeftIsLeft(p, s.comps);
      SumNonNegative(Left(p), s.comps);
    }
    hide IsForest, StrandOf, WithinBudget, SegLeft;
    forall s ensures PositiveLeft(p)(s) == SegLeft(p)(s) && NegativeLeft(p)(s) >= 0 {
    }
    SumEq(PositiveLeft(p), SegLeft(p), p.segs);
    SumNonNegative(NegativeLeft(p), p.segs);
  }

  /** What completing `cid` takes off what `c` strands: `c` itself strands nothing any
      more, and any other loses what was left of `cid` wherever it is listed downstream. */
  lemma FinishChangesDown(p: Package, cid: string, c: string)
    requires WellFormed(p) && cid in p.comps
    ensures IsForest(Finish(p, cid).segs)
    ensures StrandOf(Finish(p, cid), c).down ==
            if c == cid then 0
            else StrandOf(p, c).down - if Left(p)(c) == 0 then 0 else Left(p)(cid) * Sum(Listed(cid), DownSegs(p, c))
  {
    var q := Finish(p, cid);
    FinishKeepsTopology(p, cid, c);
    LeftAfter(p, cid, c);
    if c != cid && Left(p)(c) != 0 {
      FinishChangesLeft(p, cid, DownSegs(p, c));
      hide IsForest, Finish, Left, SegLeft;
      GatherSame(p, q, [], Homes(p, c));
    }
  }

  lemma LeftAfter(p: Package, cid: string, c: string)
    requires cid in p.comps
    ensures Left(Finish(p, cid))(c) == if c == cid then 0 else Left(p)(c)
  {
    var q := Finish(p, cid);
    assert Left(q)(c) == Mh(q)(c) - Done(q)(c);
    assert Left(p)(c) == Mh(p)(c) - Done(p)(c);
  }

  lemma {:induction false} FinishChangesLeft(p: Package, cid: string, segs: seq<Segment>)
    requires cid in p.comps
    ensures Sum(SegLeft(Finish(p, cid)), segs) == Sum(SegLeft(p), segs) - Left(p)(cid) * Sum(Listed(cid), segs)
  {
    if segs != [] {
      FinishChangesLeft(p, cid, segs[1..]);
      SegLeftIsLeft(p, segs[0].comps);
      SegLeftIsLeft(Finish(p, cid), segs[0].comps);
      FinishChangesSum(p, cid, segs[0].comps);
      Distribute(Left(p)(cid), Count(cid, segs[0].comps), Sum(Listed(cid), segs[1..]));
    }
  }

  lemma {:induction false} FinishChangesSum(p: Package, cid: string, comps: seq<string>)
    requires cid in p.comps
    ensures Sum(Left(Finish(p, cid)), comps) == Sum(Left(p), comps) - Left(p)(cid) * Count(cid, comps)
  {
    if comps != [] {
      FinishChangesSum(p, cid, comps[1..]);
      LeftAfter(p, cid, comps[0]);
      Distribute(Left(p)(cid), if comps[0] == cid then 1 else 0, Count(cid, comps[1..]));
    }
  }

  /** Completing a compartment raises what another strands exactly when it was over-booked
      and is listed downstream of the other, which is not done with. */
  lemma FinishRaisesDownIff(p: Package, cid: string, c: string)
    requires WellFormed(p) && cid in p.comps && c != cid
    ensures IsForest(Finish(p, cid).segs)
    ensures StrandOf(Finish(p, cid), c).down > StrandOf(p, c).down <==>
              p.comps[cid].done > p.comps[cid].mh && Left(p)(c) != 0 && Sum(Listed(cid), DownSegs(p, c)) > 0
  {
    FinishChangesDown(p, cid, c);
    var n := Sum(Listed(cid), DownSegs(p, c));
    SumNonNegative(Listed(cid), DownSegs(p, c));
    SignOfProduct(Left(p)(cid), n);
    assert Left(p)(cid) == Mh(p)(cid) - Done(p)(cid);
    hide IsForest, StrandOf, DownSegs, Finish, Listed;
  }

  /** Within budget it never raises what any compartment strands. */
  lemma FinishLowersDown(p: Package, cid: string, c: string)
    requires WellFormed(p) && WithinBudget(p) && cid in p.comps
    ensures IsForest(Finish(p, cid).segs)
    ensures StrandOf(Finish(p, cid), c).down <= StrandOf(p, c).down
  {
    hide IsForest, StrandOf, Finish;
    DownWithinBudget(p, c);
    FinishChangesDown(p, cid, c);
    if c != cid {
      FinishRaisesDownIff(p, cid, c);
    }
  }

  lemma SignOfProduct(a: int, n: nat)
    ensures a * n < 0 <==> a < 0 && n > 0
  {
  }

  lemma GatherSame(p: Package, q: Package, acc: seq<Segment>, homes: seq<Segment>)
    requires p.segs == q.segs && IsForest(p.segs)
    ensures Gather(q, acc, homes) == Gather(p, acc, homes)
    decreases |homes|
  {
    hide IsForest, Descendants, AddNew;
    if homes != [] {
      GatherSame(p, q, AddNew(acc, Descendants(p.segs, homes[0].id)), homes[1..]);
    }
  }

  // ----- Conservation ---------------------------------------------------------------

  /** How often a segment lists a compartment. */
  function Count(c: string, comps: seq<string>): nat {
    if comps == [] then 0 else (if comps[0] == c then 1 else 0) + Count(c, comps[1..])
  }

  function Listed(c: string): Segment -> int {
    (s: Segment) => Count(c, s.comps)
  }

  function Share(p: Package, segs: seq<Segment>): string -> int {
    c => Left(p)(c) * Sum(Listed(c), segs)
  }

  function ListShare(p: Package, comps: seq<string>): string -> int {
    c => Left(p)(c) * Count(c, comps)
  }

  lemma Distribute(a: int, b: int, c: int)
    ensures a * (b + c) == a * b + a * c
  {
  }

  lemma SegLeftByComp(p: Package, comps: seq<string>)
    requires NoDup(p.keys) && forall c :: c in comps ==> c in p.keys
    ensures Sum(Left(p), comps) == Sum(ListShare(p, comps), p.keys)
  {
    hide Left;
    if comps == [] {
      forall c ensures ListShare(p, comps)(c) == 0 {
        assert Count(c, comps) == 0;
      }
      SumZero(ListShare(p, comps), p.keys);
    } else {
      var x, rest := comps[0], comps[1..];
      SegLeftByComp(p, rest);
      var one := c => if c == x then Left(p)(c) else 0;
      SumSingle(one, p.keys, x);
      forall c ensures ListShare(p, comps)(c) == one(c) + ListShare(p, rest)(c) {
        Distribute(Left(p)(c), if x == c then 1 else 0, Count(c, rest));
      }
      hide ListShare;
      SumAdd(one, ListShare(p, rest), ListShare(p, comps), p.keys);
    }
  }

  /** No hour is lost or invented by the roll-up: the hours left over all segments are
      the hours left over all compartments, each as often as segments list it. */
  lemma {:induction false} LeftConserved(p: Package, segs: seq<Segment>)
    requires NoDup(p.keys) && forall s, c :: s in segs && c in s.comps ==> c in p.keys
    ensures Sum(SegLeft(p), segs) == Sum(Share(p, segs), p.keys)
  {
    hide Left;
    if segs == [] {
      forall c ensures Share(p, segs)(c) == 0 {
        assert Sum(Listed(c), segs) == 0;
      }
      SumZero(Share(p, segs), p.keys);
    } else {
      var s, rest := segs[0], segs[1..];
      LeftConserved(p, rest);
      SegLeftIsLeft(p, s.comps);
      SegLeftByComp(p, s.comps);
      forall c ensures Share(p, segs)(c) == ListShare(p, s.comps)(c) + Share(p, rest)(c) {
        Distribute(Left(p)(c), Count(c, s.comps), Sum(Listed(c), rest));
      }
      hide Share, ListShare;
      SumAdd(ListShare(p, s.comps), Share(p, rest), Share(p, segs), p.keys);
    }
  }

  lemma CountNoDup(c: string, comps: seq<string>)
    requires NoDup(comps)
    ensures Count(c, comps) == if c in comps then 1 else 0
  {
    if comps != [] {
      CountNoDup(c, comps[1..]);
    }
  }

  /** Where no segment lists a compartment twice, it is counted once per home. */
  lemma ListedIsHomes(p: Package, c: string, segs: seq<Segment>)
    requires forall s :: s in segs ==> NoDup(s.comps)
    ensures Sum(Listed(c), segs) == |Filter((s: Segment) => c in s.comps, segs)|
  {
    if segs != [] {
      ListedIsHomes(p, c, segs[1..]);
      CountNoDup(c, segs[0].comps);
    }
  }

  // ----- The install gate and the governing compartment -------------------------------

  /** Every segment is testable exactly when the only open compartments are ones no
      segment passes through. */
  lemma AllTestableIff(p: Package)
    requires WellFormed(p)
    ensures (forall s :: s in p.segs ==> Testable(p, s)) <==>
            (forall c :: c in p.keys && Open(p, c) ==> Homes(p, c) == [])
  {
    hide IsForest, Testable, StrandOf, Open, Homes, Holds;
    if forall c :: c in p.keys && Open(p, c) ==> Homes(p, c) == [] {
      forall s | s in p.segs ensures Testable(p, s) {
        HeldIffStranded(p, s);
        if cid :| Holds(p, cid, s) {
          HoldsIff(p, cid, s);
          assert false;
        }
      }
    }
    if c :| c in p.keys && Open(p, c) && Homes(p, c) != [] {
      var s := Homes(p, c)[0];
      assert s in Homes(p, c) && s in p.segs by { HomesAre(p, c); }
      HoldsIff(p, c, s);
      assert OnPath(p.segs, s, s);
      HeldIffStranded(p, s);
      assert !Testable(p, s);
    }
  }

  lemma HomesAre(p: Package, c: string)
    ensures forall s :: s in Homes(p, c) <==> s in p.segs && c in s.comps
  {
  }

  function NotComplete(p: Package): seq<string> {
    Filter((c: string) => Open(p, c), p.keys)
  }

  /** The first gate (no compartment open) closes exactly when every segment is
      testable, in a package all of whose compartments lie on some segment. */
  lemma InstallGateIff(p: Package)
    requires WellFormed(p) && forall c :: c in p.keys ==> Homes(p, c) != []
    ensures NotComplete(p) == [] <==> forall s :: s in p.segs ==> Testable(p, s)
  {
    hide IsForest, Testable, Open, Homes;
    AllTestableIff(p);
    if NotComplete(p) != [] {
      assert NotComplete(p)[0] in NotComplete(p);
    }
  }

  function Totals(p: Package): string -> int
    requires IsForest(p.segs)
  {
    c => StrandOf(p, c).total
  }

  /** The compartment the banner names: first after sorting by stranded total. */
  function Governing(p: Package): Option<string>
    requires IsForest(p.segs)
  {
    if p.keys == [] then None else Some(SortDesc(Totals(p), p.keys)[0])
  }

  /** A compartment's own hours left, and those of everything downstream of its homes; with
      none of its own left it holds nothing back. */
  lemma StrandIs(p: Package, cid: string)
    requires IsForest(p.segs)
    ensures var s := StrandOf(p, cid);
            && s.own == (if cid in p.comps then p.comps[cid].mh - p.comps[cid].done else 0)
            && s.down == (if s.own == 0 then 0 else Sum(SegLeft(p), DownSegs(p, cid)))
            && s.total == 10 * s.down + s.own
  {
    hide IsForest, DownSegs, SegLeft;
    assert Left(p)(cid) == Mh(p)(cid) - Done(p)(cid);
  }

  /** What the order of stranded totals comes to. */
  ghost predicate Outweighs(a: Strand, b: Strand) {
    10 * a.down + a.own > 10 * b.down + b.own
  }

  /** Nothing outweighs the governing compartment, an hour stranded counting for ten of its
      own, and it outweighs everything enumerated before it. */
  lemma GoverningIsFirstWorst(p: Package)
    requires IsForest(p.segs) && NoDup(p.keys) && p.keys != []
    ensures var g := Governing(p).value;
            exists i :: 0 <= i < |p.keys| && p.keys[i] == g
              && (forall j :: 0 <= j < |p.keys| ==> !Outweighs(StrandOf(p, p.keys[j]), StrandOf(p, g)))
              && (forall j :: 0 <= j < i ==> Outweighs(StrandOf(p, g), StrandOf(p, p.keys[j])))
  {
    SortFirst(Totals(p), p.keys);
    forall c | c in p.keys
      ensures StrandOf(p, c).total == 10 * StrandOf(p, c).down + StrandOf(p, c).own
    {
      StrandIs(p, c);
    }
    hide IsForest, StrandOf;
  }

  /** Stranding more decides unless the other has ten more hours of its own left for every
      hour by which it strands less. */
  lemma StrandingMoreGoverns(p: Package, c: string)
    requires IsForest(p.segs) && NoDup(p.keys) && c in p.keys
    requires StrandOf(p, c).down > StrandOf(p, Governing(p).value).down
    ensures var s, g := StrandOf(p, c), StrandOf(p, Governing(p).value);
            g.own - s.own >= 10 * (s.down - g.down)
  {
    GoverningIsFirstWorst(p);
    hide IsForest, StrandOf, Governing;
    var j :| 0 <= j < |p.keys| && p.keys[j] == c;
    assert !Outweighs(StrandOf(p, p.keys[j]), StrandOf(p, Governing(p).value));
  }

  // ----- The loops that fill `segStat` and `strand` ------------------------------------

  /** What the first pass knows about a segment. */
  function RolledUp(p: Package, s: Segment): SegStat {
    SegStat(Sum(Mh(p), s.comps), Sum(Done(p), s.comps), OpenComps(p, s), Complete(p, s), false, [])
  }

  function Incomplete(stat: map<string, SegStat>): Segment -> bool {
    (x: Segment) => x.id in stat && !stat[x.id].complete
  }

  ghost predicate KnowsCompleteness(p: Package, stat: map<string, SegStat>) {
    forall s :: s in p.segs ==> s.id in stat && stat[s.id].complete == Complete(p, s)
  }

  lemma BlockersFromStat(p: Package, stat: map<string, SegStat>, s: Segment)
    requires IsForest(p.segs) && s in p.segs && KnowsCompleteness(p, stat)
    ensures Filter(Incomplete(stat), [s] + Ancestors(p.segs, s)) == Blockers(p, s)
  {
    hide IsForest, Ancestors, Complete;
    FilterEq(Incomplete(stat), (x: Segment) => !Complete(p, x), [s] + Ancestors(p.segs, s));
  }

  lemma IdsApart(segs: seq<Segment>, i: nat, j: nat)
    requires IsForest(segs) && i < |segs| && j < |segs| && i != j
    ensures segs[i].id != segs[j].id
  {
  }

  /** First pass: hours and completeness, segment by segment. */
  method RollUp(p: Package) returns (stat: map<string, SegStat>)
    requires WellFormed(p)
    ensures forall j :: 0 <= j < |p.segs| ==> p.segs[j].id in stat && stat[p.segs[j].id] == RolledUp(p, p.segs[j])
  {
    hide IsForest, Complete, OpenComps;
    stat := map[];
    for i := 0 to |p.segs|
      invariant forall j :: 0 <= j < i ==> p.segs[j].id in stat && stat[p.segs[j].id] == RolledUp(p, p.segs[j])
    {
      var s := p.segs[i];
      var open := OpenComps(p, s);
      CompleteIs(p, s);
      forall j | 0 <= j < i ensures p.segs[j].id != s.id {
        IdsApart(p.segs, i, j);
      }
      stat := stat[s.id := SegStat(Sum(Mh(p), s.comps), Sum(Done(p), s.comps), open, open == [], false, [])];
    }
  }

  lemma Marked(p: Package, stat: map<string, SegStat>, s: Segment, blockers: seq<Segment>)
    requires IsForest(p.segs) && s in p.segs && blockers == Blockers(p, s)
    ensures RolledUp(p, s).(testable := blockers == [], heldBy := Ids(Filter((x: Segment) => x.id != s.id, blockers)))
            == StatOf(p, s)
  {
    hide IsForest, Blockers, Complete, OpenComps;
  }

  /** Both passes: testable is this segment complete and every ancestor complete. */
  method SegStats(p: Package) returns (stat: map<string, SegStat>)
    requires WellFormed(p)
    ensures forall j :: 0 <= j < |p.segs| ==> p.segs[j].id in stat && stat[p.segs[j].id] == StatOf(p, p.segs[j])
  {
    hide IsForest, Complete, OpenComps, KnowsCompleteness, Blockers, Incomplete, RolledUp, StatOf;
    stat := RollUp(p);
    for i := 0 to |p.segs|
      invariant forall j :: 0 <= j < i ==> p.segs[j].id in stat && stat[p.segs[j].id] == StatOf(p, p.segs[j])
      invariant forall j :: i <= j < |p.segs| ==> p.segs[j].id in stat && stat[p.segs[j].id] == RolledUp(p, p.segs[j])
    {
      var s := p.segs[i];
      var up := AncestorsOf(p.segs, s);
      CompletenessKnown(p, stat, i);
      var blockers := Filter(Incomplete(stat), [s] + up);
      BlockersFromStat(p, stat, s);
      Marked(p, stat, s, blockers);
      forall j | 0 <= j < |p.segs| && j != i ensures p.segs[j].id != s.id {
        IdsApart(p.segs, i, j);
      }
      stat := stat[s.id := stat[s.id].(
        testable := blockers == [],
        heldBy := Ids(Filter((x: Segment) => x.id != s.id, blockers)))];
    }
  }

  lemma CompletenessKnown(p: Package, stat: map<string, SegStat>, i: nat)
    requires IsForest(p.segs) && i <= |p.segs|
    requires forall j :: 0 <= j < i ==> p.segs[j].id in stat && stat[p.segs[j].id] == StatOf(p, p.segs[j])
    requires forall j :: i <= j < |p.segs| ==> p.segs[j].id in stat && stat[p.segs[j].id] == RolledUp(p, p.segs[j])
    ensures KnowsCompleteness(p, stat)
  {
    hide IsForest, Complete, OpenComps, Blockers;
  }

  lemma CompleteIs(p: Package, s: Segment)
    ensures Complete(p, s) <==> OpenComps(p, s) == []
  {
  }

  function LeftFromStat(stat: map<string, SegStat>): Segment -> int {
    (s: Segment) => if s.id in stat then stat[s.id].mh - stat[s.id].done else 0
  }

  /** `downSegs`: for each home, push each descendant not yet pushed. */
  method DownSegsOf(p: Package, cid: string) returns (downSegs: seq<Segment>)
    requires IsForest(p.segs)
    ensures downSegs == DownSegs(p, cid)
  {
    hide IsForest, Descendants;
    var homes := Homes(p, cid);
    downSegs := [];
    for i := 0 to |homes|
      invariant Gather(p, downSegs, homes[i..]) == Gather(p, [], homes)
    {
      var below := Descendants(p.segs, homes[i].id);
      ghost var acc := downSegs;
      assert homes[i..][0] == homes[i] && homes[i..][1..] == homes[i + 1..];
      for j := 0 to |below|
        invariant AddNew(downSegs, below[j..]) == AddNew(acc, below)
      {
        assert below[j..][0] == below[j] && below[j..][1..] == below[j + 1..];
        if below[j] !in downSegs {
          downSegs := downSegs + [below[j]];
        }
      }
    }
  }

  method Strands(p: Package, stat: map<string, SegStat>) returns (strand: map<string, Strand>)
    requires WellFormed(p)
    requires forall j :: 0 <= j < |p.segs| ==> p.segs[j].id in stat && stat[p.segs[j].id] == StatOf(p, p.segs[j])
    ensures forall c :: c in p.keys ==> c in strand && strand[c] == StrandOf(p, c)
  {
    hide IsForest, StatOf;
    strand := map[];
    for i := 0 to |p.keys|
      invariant forall j :: 0 <= j < i ==> p.keys[j] in strand && strand[p.keys[j]] == StrandOf(p, p.keys[j])
    {
      var cid := p.keys[i];
      var own := p.comps[cid].mh - p.comps[cid].done;
      assert own == Left(p)(cid) by { LeftIs(p, cid); }
      if own == 0 {
        strand := strand[cid := Strand(0, 0, [], 0)];
      } else {
        var downSegs := DownSegsOf(p, cid);
        var down := Sum(LeftFromStat(stat), downSegs);
        DownFromStat(p, stat, cid);
        hide DownSegs, Left, SegLeft, LeftFromStat;
        strand := strand[cid := Strand(own, down, Ids(downSegs), down * 10 + own)];
      }
    }
  }

  lemma LeftIs(p: Package, cid: string)
    requires cid in p.comps
    ensures Left(p)(cid) == p.comps[cid].mh - p.comps[cid].done
  {
    assert Left(p)(cid) == Mh(p)(cid) - Done(p)(cid);
  }

  lemma DownFromStat(p: Package, stat: map<string, SegStat>, cid: string)
    requires WellFormed(p)
    requires forall j :: 0 <= j < |p.segs| ==> p.segs[j].id in stat && stat[p.segs[j].id] == StatOf(p, p.segs[j])
    ensures Sum(LeftFromStat(stat), DownSegs(p, cid)) == Sum(SegLeft(p), DownSegs(p, cid))
  {
    DownSegsAre(p, cid);
    hide IsForest, DownSegs, Ancestors;
    SumEq(LeftFromStat(stat), SegLeft(p), DownSegs(p, cid));
  }
}
