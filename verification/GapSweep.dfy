/** The deck sheet's gap sweep: the stretches of the plate no deck band covers. */
module GapSweep {
  import opened Sequences

  /** Frames run from `lo` to `hi`, both included. */
  datatype Span = Span(lo: int, hi: int)

  predicate In(s: Span, x: real) {
    s.lo as real <= x <= s.hi as real
  }

  function Clamp(b: Span, maxFrame: int): Span {
    Span(Max(0, b.lo), Min(maxFrame, b.hi))
  }

  function Clamped(bands: seq<Span>, maxFrame: int): seq<Span> {
    seq(|bands|, i requires 0 <= i < |bands| => Clamp(bands[i], maxFrame))
  }

  /** Sorts ascending by `lo`, stably. */
  const ByLo: Span -> int := (s: Span) => -s.lo

  /** One gap after another, and none beyond the plate. */
  ghost predicate Tidy(gaps: seq<Span>, maxFrame: int) {
    && (forall i :: 0 <= i < |gaps| ==> gaps[i].hi <= maxFrame)
    && (forall i, j :: 0 <= i < j < |gaps| ==> gaps[i].hi <= gaps[j].lo)
  }

  /** Nothing of a band shows inside a gap. */
  predicate Apart(g: Span, b: Span) {
    g.hi <= b.lo || b.hi <= g.lo
  }

  ghost predicate Covered(gaps: seq<Span>, bands: seq<Span>, x: real) {
    (exists g :: g in gaps && In(g, x)) || (exists b :: b in bands && In(b, x))
  }

  /** The clamped bands in the order they are swept. */
  function InSweepOrder(bands: seq<Span>, maxFrame: int): seq<Span> {
    SortDesc(ByLo, Clamped(bands, maxFrame))
  }

  /** The band begins past the end of every band before it and, clamped, ends before it
      begins: it is reversed there, or starts beyond the plate. */
  ghost predicate Overshoots(covered: seq<Span>, i: nat)
    requires i < |covered|
  {
    covered[i].hi < covered[i].lo && covered[i].lo > 0 && forall j :: 0 <= j < i ==> covered[j].hi < covered[i].lo
  }

  ghost predicate SomeOvershoots(covered: seq<Span>, n: nat)
    requires n <= |covered|
  {
    exists i :: 0 <= i < n && Overshoots(covered, i)
  }

  /** What a sweep is for. Whatever the bands, the gaps are non-empty, begin at the bow or
      where a band ends and end where a band begins or at the plate's edge, show no band of
      the plate inside them, and with the bands cover the plate. They follow one another
      without leaving the plate exactly when no band overshoots. */
  ghost predicate AreGaps(gaps: seq<Span>, bands: seq<Span>, maxFrame: int) {
    && (forall g :: g in gaps ==> 0 <= g.lo < g.hi)
    && (forall g :: g in gaps ==> g.lo == 0 || exists b :: b in bands && g.lo == Clamp(b, maxFrame).hi)
    && (forall g :: g in gaps ==> g.hi == maxFrame || exists b :: b in bands && g.hi == Clamp(b, maxFrame).lo)
    && (forall g, b :: g in gaps && b in bands ==> Apart(g, Clamp(b, maxFrame)))
    && (maxFrame > 0 ==> forall x :: 0.0 <= x <= maxFrame as real ==> Covered(gaps, bands, x))
    && (maxFrame >= 0 ==> (Tidy(gaps, maxFrame) <==>
                           !SomeOvershoots(InSweepOrder(bands, maxFrame), |InSweepOrder(bands, maxFrame)|)))
  }

  /** Clamp to the plate, sort, sweep. No bands, no gaps: their absence claims nothing. */
  method Sweep(bands: seq<Span>, maxFrame: int) returns (gaps: seq<Span>)
    ensures bands == [] ==> gaps == []
    ensures bands != [] ==> AreGaps(gaps, bands, maxFrame)
  {
    gaps := [];
    if bands == [] {
      return;
    }
    var covered := InSweepOrder(bands, maxFrame);
    CoveredAre(bands, maxFrame, covered);
    hide *;
    var cursor := 0;
    Begin(covered, maxFrame);
    for i := 0 to |covered|
      invariant cursor >= 0
      invariant Clean(gaps, covered, i, cursor)
      invariant Swept(gaps, covered[..i], cursor)
      invariant Ordered(gaps, covered, i, cursor, maxFrame)
    {
      var lo, hi := covered[i].lo, covered[i].hi;
      SweepStep(gaps, bands, covered, i, cursor, maxFrame);
      if lo > cursor {
        gaps := gaps + [Span(cursor, lo)];
      }
      cursor := if cursor < hi then hi else cursor;
    }
    assert covered[..|covered|] == covered;
    Finish(gaps, bands, covered, cursor, maxFrame);
    if cursor < maxFrame {
      gaps := gaps + [Span(cursor, maxFrame)];
    }
  }

  /** What one band, or the plate's edge, adds. */
  function Push(gaps: seq<Span>, lo: int, hi: int): seq<Span> {
    if lo < hi then gaps + [Span(lo, hi)] else gaps
  }

  ghost predicate IsCovered(covered: seq<Span>, bands: seq<Span>, maxFrame: int) {
    && (forall i, j :: 0 <= i <= j < |covered| ==> covered[i].lo <= covered[j].lo)
    && (forall s :: s in covered ==> s.lo >= 0 && s.hi <= maxFrame && exists b :: b in bands && s == Clamp(b, maxFrame))
    && (forall b :: b in bands ==> Clamp(b, maxFrame) in covered)
  }

  lemma CoveredAre(bands: seq<Span>, maxFrame: int, c: seq<Span>)
    requires c == InSweepOrder(bands, maxFrame)
    ensures IsCovered(c, bands, maxFrame)
  {
    SortDescIs(ByLo, Clamped(bands, maxFrame));
    hide SortDesc;
    forall i, j | 0 <= i <= j < |c| ensures c[i].lo <= c[j].lo {
      assert ByLo(c[i]) >= ByLo(c[j]);
    }
    forall b | b in bands ensures Clamp(b, maxFrame) in c {
      var i :| 0 <= i < |bands| && bands[i] == b;
      assert Clamped(bands, maxFrame)[i] == Clamp(b, maxFrame);
    }
  }

  // ----- Invariants of the sweep -------------------------------------------------------------

  /** The gaps so far lie between the ends of bands passed, before the cursor passed them,
      and clear of every band. */
  ghost predicate Clean(gaps: seq<Span>, covered: seq<Span>, i: nat, cursor: int)
    requires i <= |covered|
  {
    && (forall j :: 0 <= j < i ==> covered[j].hi <= cursor)
    && (cursor == 0 || exists j :: 0 <= j < i && cursor == covered[j].hi)
    && (forall g :: g in gaps ==> 0 <= g.lo < g.hi)
    && (forall g :: g in gaps ==> g.lo == 0 || exists j :: 0 <= j < i && g.lo == covered[j].hi)
    && (forall g :: g in gaps ==> exists j :: 0 <= j < i && g.hi == covered[j].lo)
    && (forall g, c :: g in gaps && c in covered ==> Apart(g, c))
  }

  /** Everything up to the cursor is shown or shaded. */
  ghost predicate Swept(gaps: seq<Span>, passed: seq<Span>, cursor: int) {
    forall x :: 0.0 <= x <= cursor as real && cursor > 0 ==> Covered(gaps, passed, x)
  }

  /** The cursor keeps to the plate; while no band overshoots the gaps are tidy and behind
      it, and once one does they are not, or one of them is ahead of it. */
  ghost predicate Ordered(gaps: seq<Span>, covered: seq<Span>, i: nat, cursor: int, maxFrame: int)
    requires i <= |covered|
  {
    && cursor <= Max(0, maxFrame)
    && if SomeOvershoots(covered, i) then !Tidy(gaps, maxFrame) || (exists g :: g in gaps && g.hi > cursor)
       else Tidy(gaps, maxFrame) && forall g :: g in gaps ==> g.hi <= cursor
  }

  lemma Begin(covered: seq<Span>, maxFrame: int)
    ensures Clean([], covered, 0, 0) && Swept([], covered[..0], 0) && Ordered([], covered, 0, 0, maxFrame)
  {
  }

  lemma SweepStep(gaps: seq<Span>, bands: seq<Span>, covered: seq<Span>, i: nat, cursor: int, maxFrame: int)
    requires i < |covered| && cursor >= 0 && IsCovered(covered, bands, maxFrame)
    requires Clean(gaps, covered, i, cursor) && Swept(gaps, covered[..i], cursor)
    requires Ordered(gaps, covered, i, cursor, maxFrame)
    ensures var c := covered[i];
            var next, to := if c.lo > cursor then gaps + [Span(cursor, c.lo)] else gaps,
                            if cursor < c.hi then c.hi else cursor;
            Clean(next, covered, i + 1, to) && Swept(next, covered[..i + 1], to)
                && Ordered(next, covered, i + 1, to, maxFrame)
  {
    CleanStep(gaps, covered, i, cursor);
    SweptStep(gaps, covered, i, cursor);
    OrderedStep(gaps, covered, i, cursor, maxFrame);
    hide Clean, Swept, Ordered;
  }

  lemma CleanStep(gaps: seq<Span>, covered: seq<Span>, i: nat, cursor: int)
    requires i < |covered| && cursor >= 0 && Clean(gaps, covered, i, cursor)
    requires forall a, b :: 0 <= a <= b < |covered| ==> covered[a].lo <= covered[b].lo
    ensures Clean(Push(gaps, cursor, covered[i].lo), covered, i + 1, Max(cursor, covered[i].hi))
  {
    var next, g := Push(gaps, cursor, covered[i].lo), Span(cursor, covered[i].lo);
    forall c | c in covered ensures Apart(g, c) {
      var j :| 0 <= j < |covered| && covered[j] == c;
      if j < i { assert c.hi <= cursor; } else { assert covered[i].lo <= c.lo; }
    }
    assert forall h :: h in next ==> h in gaps || h == g;
  }

  lemma SweptStep(gaps: seq<Span>, covered: seq<Span>, i: nat, cursor: int)
    requires i < |covered| && cursor >= 0 && Swept(gaps, covered[..i], cursor)
    ensures Swept(Push(gaps, cursor, covered[i].lo), covered[..i + 1], Max(cursor, covered[i].hi))
  {
    var c := covered[i];
    var next, passed, to := Push(gaps, cursor, c.lo), covered[..i + 1], Max(cursor, c.hi);
    assert c in passed && forall d :: d in covered[..i] ==> d in passed;
    forall x | 0.0 <= x <= to as real && to > 0 ensures Covered(next, passed, x) {
      if cursor > 0 && x <= cursor as real {
        assert Covered(gaps, covered[..i], x);
      } else if x < c.lo as real {
        assert Span(cursor, c.lo) in next && In(Span(cursor, c.lo), x);
      } else {
        assert In(c, x);
      }
    }
  }

  lemma OrderedStep(gaps: seq<Span>, covered: seq<Span>, i: nat, cursor: int, maxFrame: int)
    requires i < |covered| && cursor >= 0 && Ordered(gaps, covered, i, cursor, maxFrame) && covered[i].hi <= maxFrame
    requires Clean(gaps, covered, i, cursor)
             && forall a, b :: 0 <= a <= b < |covered| ==> covered[a].lo <= covered[b].lo
    ensures Ordered(Push(gaps, cursor, covered[i].lo), covered, i + 1, Max(cursor, covered[i].hi), maxFrame)
  {
    var c := covered[i];
    var next := Push(gaps, cursor, c.lo);
    assert SomeOvershoots(covered, i + 1) <==> SomeOvershoots(covered, i) || Overshoots(covered, i);
    if SomeOvershoots(covered, i) {
      StaysUntidy(gaps, cursor, c.lo, maxFrame);
      if g :| g in gaps && g.hi > cursor {
        AheadIsUntidy(gaps, g, cursor, c.lo, maxFrame);
      }
    } else if Overshoots(covered, i) {
      assert Span(cursor, c.lo) in next;
    } else {
      assert c.lo > cursor ==> c.lo <= c.hi;
      assert forall g :: g in next ==> g in gaps || (g == Span(cursor, c.lo) && cursor < c.lo);
    }
  }

  lemma StaysUntidy(gaps: seq<Span>, lo: int, hi: int, maxFrame: int)
    ensures !Tidy(gaps, maxFrame) ==> !Tidy(Push(gaps, lo, hi), maxFrame)
  {
    var next := Push(gaps, lo, hi);
    assert forall i :: 0 <= i < |gaps| ==> next[i] == gaps[i];
  }

  /** A gap ahead of the cursor overlaps the next one that is pushed. */
  lemma AheadIsUntidy(gaps: seq<Span>, g: Span, lo: int, hi: int, maxFrame: int)
    requires g in gaps && g.hi > lo && lo < hi
    ensures !Tidy(Push(gaps, lo, hi), maxFrame)
  {
    var i :| 0 <= i < |gaps| && gaps[i] == g;
    var next := Push(gaps, lo, hi);
    assert next[i].hi > next[|gaps|].lo;
  }

  /** The end of the sweep, in terms of the bands themselves. */
  lemma Finish(gaps: seq<Span>, bands: seq<Span>, covered: seq<Span>, cursor: int, maxFrame: int)
    requires bands != [] && covered == InSweepOrder(bands, maxFrame) && IsCovered(covered, bands, maxFrame)
    requires cursor >= 0
    requires Clean(gaps, covered, |covered|, cursor) && Swept(gaps, covered, cursor)
    requires Ordered(gaps, covered, |covered|, cursor, maxFrame)
    ensures AreGaps(if cursor < maxFrame then gaps + [Span(cursor, maxFrame)] else gaps, bands, maxFrame)
  {
    hide Clean, Swept, Ordered, IsCovered, Covered, Tidy, Clamp, Apart, InSweepOrder, SomeOvershoots;
    FinishEnds(gaps, bands, covered, cursor, maxFrame);
    FinishCover(gaps, bands, covered, cursor, maxFrame);
    if maxFrame >= 0 {
      FinishTidy(gaps, covered, cursor, maxFrame);
    }
  }

  lemma FinishEnds(gaps: seq<Span>, bands: seq<Span>, covered: seq<Span>, cursor: int, maxFrame: int)
    requires IsCovered(covered, bands, maxFrame) && cursor >= 0 && Clean(gaps, covered, |covered|, cursor)
    ensures var all := Push(gaps, cursor, maxFrame);
            && (forall g :: g in all ==> 0 <= g.lo < g.hi)
            && (forall g :: g in all ==> g.lo == 0 || exists b :: b in bands && g.lo == Clamp(b, maxFrame).hi)
            && (forall g :: g in all ==> g.hi == maxFrame || exists b :: b in bands && g.hi == Clamp(b, maxFrame).lo)
            && (forall g, b :: g in all && b in bands ==> Apart(g, Clamp(b, maxFrame)))
  {
    hide Clamp;
    var all, last := Push(gaps, cursor, maxFrame), Span(cursor, maxFrame);
    assert forall g :: g in all ==> g in gaps || (g == last && cursor < maxFrame);
    forall c | c in covered ensures Apart(last, c) {
    }
    forall g | g in all && g.lo != 0 ensures exists b :: b in bands && g.lo == Clamp(b, maxFrame).hi {
      var j :| 0 <= j < |covered| && g.lo == covered[j].hi;
      assert covered[j] in covered;
    }
    forall g | g in all && g.hi != maxFrame ensures exists b :: b in bands && g.hi == Clamp(b, maxFrame).lo {
      var j :| 0 <= j < |covered| && g.hi == covered[j].lo;
      assert covered[j] in covered;
    }
  }

  lemma FinishCover(gaps: seq<Span>, bands: seq<Span>, covered: seq<Span>, cursor: int, maxFrame: int)
    requires IsCovered(covered, bands, maxFrame) && cursor >= 0 && Swept(gaps, covered, cursor)
    ensures maxFrame > 0 ==> forall x :: 0.0 <= x <= maxFrame as real ==>
            Covered(Push(gaps, cursor, maxFrame), bands, x)
  {
    var all, last := Push(gaps, cursor, maxFrame), Span(cursor, maxFrame);
    forall x | 0.0 <= x <= maxFrame as real && maxFrame > 0 ensures Covered(all, bands, x) {
      if cursor > 0 && x <= cursor as real {
        assert Covered(gaps, covered, x);
        if c :| c in covered && In(c, x) {
          var b :| b in bands && c == Clamp(b, maxFrame);
          assert In(b, x);
        }
      } else {
        assert last in all && In(last, x);
      }
    }
  }

  lemma FinishTidy(gaps: seq<Span>, covered: seq<Span>, cursor: int, maxFrame: int)
    requires Ordered(gaps, covered, |covered|, cursor, maxFrame) && maxFrame >= 0
    ensures Tidy(Push(gaps, cursor, maxFrame), maxFrame) <==> !SomeOvershoots(covered, |covered|)
  {
    if SomeOvershoots(covered, |covered|) {
      StaysUntidy(gaps, cursor, maxFrame, maxFrame);
      if g :| g in gaps && g.hi > cursor {
        if cursor < maxFrame {
          AheadIsUntidy(gaps, g, cursor, maxFrame, maxFrame);
        } else {
          assert g.hi > maxFrame;
        }
      }
    }
  }

  /** No frame of the plate that a band shows is strictly inside a gap, fractions of a
      frame included. */
  lemma NothingShownIsShaded(gaps: seq<Span>, bands: seq<Span>, maxFrame: int, g: Span, b: Span, x: real)
    requires AreGaps(gaps, bands, maxFrame) && g in gaps && b in bands
    requires (g.lo as real) < x < (g.hi as real) && x <= maxFrame as real
    ensures !In(b, x)
  {
    assert Apart(g, Clamp(b, maxFrame));
  }

  /** Where no band is reversed, the sweep's gaps are tidy exactly when no band starts
      beyond the plate. */
  lemma UnreversedTidyIff(gaps: seq<Span>, bands: seq<Span>, maxFrame: int)
    requires AreGaps(gaps, bands, maxFrame) && maxFrame >= 0 && forall b :: b in bands ==> b.lo <= b.hi
    ensures Tidy(gaps, maxFrame) <==> forall b :: b in bands ==> b.lo <= maxFrame
  {
    var covered := InSweepOrder(bands, maxFrame);
    CoveredAre(bands, maxFrame, covered);
    hide InSweepOrder;
    if i :| 0 <= i < |covered| && Overshoots(covered, i) {
      assert covered[i] in covered;
      var b :| b in bands && covered[i] == Clamp(b, maxFrame);
      assert b.lo > maxFrame;
    }
    if b :| b in bands && b.lo > maxFrame {
      FirstBeyond(covered, bands, maxFrame, b);
    }
  }

  lemma FirstBeyond(covered: seq<Span>, bands: seq<Span>, maxFrame: int, b: Span)
    requires IsCovered(covered, bands, maxFrame) && maxFrame >= 0 && b in bands && b.lo > maxFrame
    ensures SomeOvershoots(covered, |covered|)
  {
    assert Clamp(b, maxFrame) in covered;
    var i :| 0 <= i < |covered| && covered[i] == Clamp(b, maxFrame);
    assert forall j :: 0 <= j < i ==> covered[j] in covered;
    assert Overshoots(covered, i);
  }
}
