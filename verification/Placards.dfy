/** The hull register: placards allocated by probing aft, and the zone chart that says
    whose each space is. */
module Placards {
  import opened Sequences
  import opened Numerals
  import XerText

  datatype Deck =
    | Flight | Gallery | O2 | O1 | MainDeck | Second | Third | Fourth | FirstPlat | SecondPlat | Hold | InnerBottom

  /** Ordinals ascend downwards. */
  function Ord(d: Deck): int {
    match d
    case Flight => -4 case Gallery => -3 case O2 => -2 case O1 => -1
    case MainDeck => 1 case Second => 2 case Third => 3 case Fourth => 4
    case FirstPlat => 5 case SecondPlat => 6 case Hold => 7 case InnerBottom => 8
  }

  function DigitOf(d: Deck): string {
    match d
    case Flight => "04" case Gallery => "03" case O2 => "02" case O1 => "01"
    case MainDeck => "1" case Second => "2" case Third => "3" case Fourth => "4"
    case FirstPlat => "5" case SecondPlat => "6" case Hold => "7" case InnerBottom => "8"
  }

  const HULL_AFT := 265
  const FLIGHT_AFT := 273

  // ----- The zone chart ------------------------------------------------------------------

  datatype Block = Block(zone: nat, lo: int, hi: int, top: Deck, bottom: Deck)

  const BLOCKS: seq<Block> := [
    Block(1, 0, 273, Flight, Flight),
    Block(2, 44, 232, Gallery, MainDeck),
    Block(3, 0, 43, Gallery, MainDeck),
    Block(3, 0, 95, Second, SecondPlat),
    Block(4, 96, 191, Second, SecondPlat),
    Block(4, 116, 175, Hold, InnerBottom),
    Block(5, 233, 273, Gallery, MainDeck),
    Block(5, 192, 273, Second, SecondPlat),
    Block(6, 0, 115, Hold, InnerBottom),
    Block(6, 176, 273, Hold, InnerBottom)
  ]

  predicate Covers(b: Block, deck: Deck, frame: int) {
    Ord(b.top) <= Ord(deck) <= Ord(b.bottom) && b.lo <= frame <= b.hi
  }

  /** The first block that covers, or the ValueError. */
  method ZoneOf(deck: Deck, frame: int) returns (zone: Option<nat>)
    ensures zone == if 0 <= frame <= FLIGHT_AFT then Some(ZoneAt(deck, frame)) else None
  {
    hide Covers;
    for i := 0 to |BLOCKS|
      invariant forall j :: 0 <= j < i ==> !Covers(BLOCKS[j], deck, frame)
    {
      if Covers(BLOCKS[i], deck, frame) {
        ChartCovers(deck, frame);
        OnlyBlock(deck, frame, i);
        return Some(BLOCKS[i].zone);
      }
    }
    ChartCovers(deck, frame);
    zone := None;
  }

  function ZoneAt(deck: Deck, frame: int): nat {
    BLOCKS[BlockOf(deck, frame)].zone
  }

  /** The chart reaches exactly the frames of the hull and its overhang, on every deck. */
  lemma ChartCovers(deck: Deck, frame: int)
    ensures (exists i :: 0 <= i < |BLOCKS| && Covers(BLOCKS[i], deck, frame)) <==> 0 <= frame <= FLIGHT_AFT
  {
    var i := BlockOf(deck, frame);
    assert 0 <= frame <= FLIGHT_AFT ==> Covers(BLOCKS[i], deck, frame);
  }

  function BlockOf(deck: Deck, frame: int): (i: nat)
    ensures i < |BLOCKS|
  {
    if deck == Flight then 0
    else if Ord(deck) <= 1 then (if frame <= 43 then 2 else if frame <= 232 then 1 else 6)
    else if Ord(deck) <= 6 then (if frame <= 95 then 3 else if frame <= 191 then 4 else 7)
    else (if frame <= 115 then 8 else if frame <= 175 then 5 else 9)
  }

  /** The blocks partition every deck between them: no frame is in two. */
  lemma ChartIsDisjoint(deck: Deck, frame: int, i: nat, j: nat)
    requires i < |BLOCKS| && j < |BLOCKS| && Covers(BLOCKS[i], deck, frame) && Covers(BLOCKS[j], deck, frame)
    ensures i == j
  {
    OnlyBlock(deck, frame, i);
    OnlyBlock(deck, frame, j);
  }

  lemma OnlyBlock(deck: Deck, frame: int, i: nat)
    requires i < |BLOCKS| && Covers(BLOCKS[i], deck, frame)
    ensures i == BlockOf(deck, frame)
  {
  }

  /** The zones as the scheme tells them: the flight deck; hangar and gallery amidships; the
      forward, midships and aft decks below, zones three and five reaching up past the hangar
      at its ends and zone four down to the bottom amidships; tanks and voids below them. */
  lemma ZoneScheme(deck: Deck, frame: int)
    requires 0 <= frame <= 273
    ensures var zone := ZoneAt(deck, frame);
            var upper := deck.Gallery? || deck.O2? || deck.O1? || deck.MainDeck?;
            var lower := deck.Hold? || deck.InnerBottom?;
            var middle := !deck.Flight? && !upper && !lower;
            && (zone == 1 <==> deck.Flight?)
            && (zone == 2 <==> upper && 44 <= frame <= 232)
            && (zone == 3 <==> (upper && frame <= 43) || (middle && frame <= 95))
            && (zone == 4 <==> (middle && 96 <= frame <= 191) || (lower && 116 <= frame <= 175))
            && (zone == 5 <==> (upper && 233 <= frame) || (middle && 192 <= frame))
            && (zone == 6 <==> lower && (frame <= 115 || 176 <= frame))
  {
  }

  /** The decks from the flight deck down. */
  const DECKS: seq<Deck> :=
    [Flight, Gallery, O2, O1, MainDeck, Second, Third, Fourth, FirstPlat, SecondPlat, Hold, InnerBottom]

  /** The main deck is 1 and decks below count up from it; levels above count up from 01. What
      is printed is the ordinal, a level's with a leading zero for its sign. */
  lemma DeckNumbers(d: Deck)
    ensures d in DECKS && Ord(MainDeck) == 1 && Ord(O1) == -1
    ensures forall i :: 0 <= i < |DECKS| - 1 && DECKS[i] != O1 ==> Ord(DECKS[i + 1]) == Ord(DECKS[i]) + 1
    ensures DigitOf(d) == if Ord(d) > 0 then Dec(Ord(d)) else "0" + Dec(-Ord(d))
  {
    assert DECKS[0].Flight? && DECKS[1].Gallery? && DECKS[2].O2? && DECKS[3].O1? && DECKS[4].MainDeck?;
    assert DECKS[5].Second? && DECKS[6].Third? && DECKS[7].Fourth? && DECKS[8].FirstPlat? && DECKS[9].SecondPlat?;
    assert DECKS[10].Hold? && DECKS[11].InnerBottom?;
  }

  // ----- Placards --------------------------------------------------------------------------

  type Side = n: nat | n <= 4

  function SideWord(s: Side): string {
    if s == 0 then "centreline" else if s % 2 == 1 then "starboard" else "port"
  }

  /** Nought on the centreline, odd numbers to starboard, even to port. */
  lemma SideScheme(s: Side)
    ensures SideWord(s) == "centreline" <==> s == 0
    ensures SideWord(s) == "starboard" <==> s == 1 || s == 3
    ensures SideWord(s) == "port" <==> s == 2 || s == 4
  {
    assert |"centreline"| == 10 && |"starboard"| == 9 && |"port"| == 4;
  }

  /** The number on the placard: deck, frame, side, usage. */
  function Label(deck: Deck, frame: nat, side: Side, usage: string): string {
    DigitOf(deck) + "-" + Dec(frame) + "-" + Dec(side) + "-" + usage
  }

  lemma LabelInjective(deck: Deck, f: nat, g: nat, side: Side, usage: string)
    requires Label(deck, f, side, usage) == Label(deck, g, side, usage)
    ensures f == g
  {
    var head, tail := DigitOf(deck) + "-", "-" + Dec(side) + "-" + usage;
    assert Label(deck, f, side, usage) == head + Dec(f) + tail;
    assert Label(deck, g, side, usage) == head + Dec(g) + tail;
    hide Dec;
    var l := Label(deck, f, side, usage);
    assert Dec(f) == l[|head|..|l| - |tail|] == Dec(g);
    DecInjective(f, g);
  }

  /** The least frame from `from` aft whose placard is free. */
  ghost function NextFree(placards: set<string>, deck: Deck, side: Side, usage: string, from: nat): (f: nat)
    ensures f >= from && Label(deck, f, side, usage) !in placards
    ensures forall g :: from <= g < f ==> Label(deck, g, side, usage) in placards
    decreases |placards|
  {
    var no := Label(deck, from, side, usage);
    if no !in placards then from
    else
      var f := NextFree(placards - {no}, deck, side, usage, from + 1);
      assert Label(deck, f, side, usage) != no by {
        if Label(deck, f, side, usage) == no { LabelInjective(deck, f, from, side, usage); }
      }
      f
  }

  function Clamp(deck: Deck, frame: int): nat {
    var aft := if deck == Flight then FLIGHT_AFT else HULL_AFT;
    if frame < 0 then 0 else if frame > aft then aft else frame
  }

  // ----- The register ----------------------------------------------------------------------------

  datatype Space = Space(
      no: string, name: string, deck: Deck, zone: nat, category: string, frame: int, side: string, fwd: int, aft: int,
      usage: string)

  /** The space stands where its placard says, in the zone of that frame, and inside the
      hull runs aft from there. */
  ghost predicate Placed(s: Space) {
    && 0 <= s.frame <= FLIGHT_AFT && s.fwd == s.frame && (s.frame <= HULL_AFT ==> s.fwd <= s.aft)
    && s.zone == ZoneAt(s.deck, s.frame)
    && exists side: Side :: Labelled(s, side)
  }

  predicate Labelled(s: Space, side: Side)
    requires s.frame >= 0
  {
    s.no == Label(s.deck, s.frame, side, s.usage) && s.side == SideWord(side)
  }

  ghost predicate NumbersAre(placards: set<string>, spaces: seq<Space>) {
    && (forall no :: no in placards <==> exists i :: 0 <= i < |spaces| && spaces[i].no == no)
    && (forall i, j :: 0 <= i < j < |spaces| ==> spaces[i].no != spaces[j].no)
  }

  ghost predicate Good(placards: set<string>, spaces: seq<Space>) {
    NumbersAre(placards, spaces) && forall s :: s in spaces ==> Placed(s)
  }

  lemma GoodSnoc(placards: set<string>, spaces: seq<Space>, s: Space)
    requires Good(placards, spaces) && s.no !in placards && Placed(s)
    ensures Good(placards + {s.no}, spaces + [s])
  {
    hide NumbersAre, Placed;
    NumbersSnoc(placards, spaces, s);
  }

  lemma NumbersSnoc(placards: set<string>, spaces: seq<Space>, s: Space)
    requires NumbersAre(placards, spaces) && s.no !in placards
    ensures NumbersAre(placards + {s.no}, spaces + [s])
  {
    var all := spaces + [s];
    forall no ensures no in placards + {s.no} <==> exists i :: 0 <= i < |all| && all[i].no == no {
      if no == s.no { assert all[|spaces|].no == no; }
      if i :| 0 <= i < |spaces| && spaces[i].no == no { assert all[i].no == no; }
    }
  }

  /** A stretch to fill: its deck and sides, and the draws, numbered by the spaces so far. */
  datatype Stretch = Stretch(
    deck: Deck, sides: seq<Side>, pool: nat -> string, jitter: nat -> nat, lengths: nat -> nat, category: string,
    usage: string, numbered: bool)

  /** The register with the counters of a stretch being filled. */
  datatype Filling = Filling(placards: set<string>, spaces: seq<Space>, counters: map<string, nat>)

  /** The next space of the stretch, on its `m`-th side at the stop `f`. */
  ghost function OneMore(q: Stretch, r: Filling, f: int, m: nat): Filling
    requires m < |q.sides|
  {
    var d := |r.spaces|;
    var base := q.pool(d);
    var count := (if base in r.counters then r.counters[base] else 0) + 1;
    var frame := NextFree(r.placards, q.deck, q.sides[m], q.usage, Clamp(q.deck, f + q.jitter(d)));
    var s := NewSpace(q.deck, frame, q.sides[m], q.usage,
                      if q.numbered then Numbered(base, count) else base, q.category, q.lengths(d));
    Filling(r.placards + {s.no}, r.spaces + [s], r.counters[base := count])
  }

  ghost function StopTo(q: Stretch, r: Filling, f: int, m: nat): Filling
    requires m <= |q.sides|
  {
    if m == 0 then r else OneMore(q, StopTo(q, r, f, m - 1), f, m - 1)
  }

  /** Every stop from `f` on. */
  ghost function FillFrom(q: Stretch, r: Filling, f: int, hi: int, step: nat): Filling
    requires step > 0
    decreases hi - f
  {
    if f > hi then r else FillFrom(q, StopTo(q, r, f, |q.sides|), f + step, hi, step)
  }

  class Register {
    var placards: set<string>
    var spaces: seq<Space>

    /** Placards are distinct, are the numbers of the spaces and no others, and every
        space is where its placard says. */
    ghost predicate Valid()
      reads this
    {
      Good(placards, spaces)
    }

    constructor ()
      ensures Valid() && placards == {} && spaces == []
    {
      placards := {};
      spaces := [];
    }

    /** The probing loop: aft a frame at a time past placards already taken. */
    method Probe(deck: Deck, from: nat, side: Side, usage: string) returns (f: nat)
      ensures f == NextFree(placards, deck, side, usage, from)
    {
      hide Label;
      f := from;
      ghost var free := NextFree(placards, deck, side, usage, from);
      while Label(deck, f, side, usage) in placards
        invariant from <= f <= free
        decreases free - f
      {
        f := f + 1;
      }
    }

    /** One compartment, at the least free frame aft of where it was asked for, clamped to
        the deck. When probing runs off the zone chart, the placard has been taken and no
        space stands behind it. */
    method Add(
        deck: Deck, frame: int, side: Side, usage: string, name: string, category: string, length: nat, draw: nat)
      returns (r: Option<string>)
      requires Valid()
      modifies this
      ensures var f := NextFree(old(placards), deck, side, usage, Clamp(deck, frame));
              var no := Label(deck, f, side, usage);
              && placards == old(placards) + {no} && no !in old(placards)
              && (r.Some? <==> f <= FLIGHT_AFT)
              && (r.Some? ==> r.value == no && Valid()
                              && spaces == old(spaces) + [
                                   NewSpace(deck, f, side, usage, name, category,
                                            if length != 0 then length else draw)])
              && (r.None? ==> spaces == old(spaces))
    {
      hide Label, Clamp, Placed, Good, ZoneAt;
      var f := Probe(deck, Clamp(deck, frame), side, usage);
      var no := Label(deck, f, side, usage);
      ghost var was, had := placards, spaces;
      placards := placards + {no};
      var extent := if length != 0 then length else draw;
      var zone := ZoneOf(deck, f);
      if zone.None? {
        return None;
      }
      var s := Space(no, name, deck, zone.value, category, f, SideWord(side), f, Min(f + extent, HULL_AFT), usage);
      spaces := spaces + [s];
      PlacedNew(s, side);
      GoodSnoc(was, had, s);
      r := Some(no);
    }

    /** A stretch of a deck: one space per side at every step, of bases drawn from a pool
        and jittered aft. All of them, or the chart was overrun; and where they are
        numbered no two of them read the same. */
    method Run(q: Stretch, lo: int, hi: int, step: nat) returns (ok: bool)
      requires Valid() && step > 0
      modifies this
      ensures old(placards) <= placards && old(spaces) <= spaces
      ensures ok ==> Valid() && |spaces| == |old(spaces)| + Stops(lo, hi, step) * |q.sides|
      ensures ok ==> var out := FillFrom(q, Filling(old(placards), old(spaces), map[]), lo, hi, step);
                     placards == out.placards && spaces == out.spaces
      ensures forall i :: |old(spaces)| <= i < |spaces| ==> Filled(spaces[i], q, lo)
      ensures q.numbered ==> forall i, j :: |old(spaces)| <= i < j < |spaces| ==> spaces[i].name != spaces[j].name
    {
      hide Good, Stops, Label, Counted, NextFree, Numbered, Filled, NewSpace, Clamp, FillFrom, OneMore;
      var counters: map<string, nat> := map[];
      var f := lo;
      ghost var n, left := |old(spaces)|, Stops(lo, hi, step);
      ghost var whole := FillFrom(q, Filling(placards, spaces, counters), lo, hi, step);
      while f <= hi
        invariant f >= lo && Valid() && old(placards) <= placards && old(spaces) <= spaces
        invariant left == Stops(f, hi, step) && |spaces| + left * |q.sides| == n + Stops(lo, hi, step) * |q.sides|
        invariant whole == FillFrom(q, Filling(placards, spaces, counters), f, hi, step)
        invariant forall i :: n <= i < |spaces| ==> Filled(spaces[i], q, lo)
        invariant q.numbered ==> forall i :: n <= i < |spaces| ==> Counted(spaces[i].name, counters)
        invariant q.numbered ==> forall i, j :: n <= i < j < |spaces| ==> spaces[i].name != spaces[j].name
        decreases hi - f
      {
        ghost var before := Filling(placards, spaces, counters);
        for m := 0 to |q.sides|
          invariant Valid() && old(placards) <= placards && old(spaces) <= spaces && |spaces| == |before.spaces| + m
          invariant Filling(placards, spaces, counters) == StopTo(q, before, f, m)
          invariant forall i :: n <= i < |spaces| ==> Filled(spaces[i], q, lo)
          invariant q.numbered ==> forall i :: n <= i < |spaces| ==> Counted(spaces[i].name, counters)
          invariant q.numbered ==> forall i, j :: n <= i < j < |spaces| ==> spaces[i].name != spaces[j].name
        {
          var d := |spaces|;
          var base := q.pool(d);
          var count := (if base in counters then counters[base] else 0) + 1;
          CountOne(counters, base);
          OneMoreIs(q, Filling(placards, spaces, counters), f, m, lo);
          counters := counters[base := count];
          var name := if q.numbered then Numbered(base, count) else base;
          var r := Add(q.deck, f + q.jitter(d), q.sides[m], q.usage, name, q.category, 0, q.lengths(d));
          if r.None? {
            return false;
          }
        }
        StopsStep(f, hi, step);
        FillStep(q, before, f, hi, step);
        left := left - 1;
        f := f + step;
      }
      StopsStep(f, hi, step);
      FillStep(q, Filling(placards, spaces, counters), f, hi, step);
      ok := true;
    }

    /** One of the seeded spaces keeps the placard it was written with; taken already, it
        is passed over. */
    method AddSeeded(no: string, name: string, deck: Deck, category: string) returns (ok: bool)
      requires Valid() && IsLabel(no, deck)
      modifies this
      ensures no in old(placards) ==> ok && placards == old(placards) && spaces == old(spaces)
      ensures no !in old(placards) ==> placards == old(placards) + {no}
      ensures ok ==> Valid() && no in placards
      ensures ok && no !in old(placards) ==>
                |spaces| == |old(spaces)| + 1 && old(spaces) <= spaces
                && IsSeeded(spaces[|old(spaces)|], no, name, deck, category)
      ensures !ok ==> spaces == old(spaces) && !OnChart(no, deck)
    {
      if no in placards {
        assert old(spaces) <= spaces;
        return true;
      }
      ghost var f, side, usage := Parsed(no, deck);
      var p := XerText.Split(no, '-');
      var frame, sd := Value(p[1]), Value(p[2]);
      hide Label, Placed, Good, XerText.Split, ZoneAt;
      ghost var was, had := placards, spaces;
      placards := placards + {no};
      var zone := ZoneOf(deck, frame);
      if zone.None? {
        OffChart(no, deck, frame, sd, p[3]);
        return false;
      }
      var s := SeededSpace(no, name, deck, category, frame, sd, p[3]);
      spaces := spaces + [s];
      PlacedNew(s, sd);
      GoodSnoc(was, had, s);
      ok := true;
    }
  }

  function NewSpace(deck: Deck, f: nat, side: Side, usage: string, name: string, category: string, extent: nat): Space {
    Space(Label(deck, f, side, usage), name, deck, ZoneAt(deck, f), category, f, SideWord(side), f,
          Min(f + extent, HULL_AFT), usage)
  }

  /** A space runs aft from its frame exactly inside the hull: on the flight deck's
      overhang, which a request can reach without any probing, its aft end is clipped
      forward of its own frame. */
  lemma RunsAftIff(deck: Deck, f: nat, side: Side, usage: string, name: string, category: string, extent: nat)
    ensures var s := NewSpace(deck, f, side, usage, name, category, extent); s.fwd <= s.aft <==> f <= HULL_AFT
    ensures Clamp(Flight, HULL_AFT + 1) == HULL_AFT + 1
  {
    hide Label, ZoneAt;
  }

  /** A space extends as many frames aft as it is long, as far as the hull reaches. */
  lemma ExtendsAft(deck: Deck, f: nat, side: Side, usage: string, name: string, category: string, extent: nat)
    ensures var s := NewSpace(deck, f, side, usage, name, category, extent);
            && s.fwd == f && s.aft <= 265 && s.aft - s.fwd <= extent
            && (s.aft < 265 ==> s.aft - s.fwd == extent) && (f + extent <= 265 ==> s.aft == f + extent)
  {
    hide Label, ZoneAt;
  }

  // ----- Filling a stretch ---------------------------------------------------------------------

  function Stops(lo: int, hi: int, step: nat): nat
    requires step > 0
    decreases hi - lo
  {
    if lo > hi then 0 else 1 + Stops(lo + step, hi, step)
  }

  lemma StopsStep(lo: int, hi: int, step: nat)
    requires step > 0
    ensures Stops(lo, hi, step) == if lo > hi then 0 else 1 + Stops(lo + step, hi, step)
  {
  }

  /** A stop every `step` frames from `lo`, the last of them the last not beyond `hi`. */
  lemma {:induction false} StopsAre(lo: int, hi: int, step: nat)
    requires step > 0 && lo <= hi
    ensures var n := Stops(lo, hi, step); n > 0 && lo + (n - 1) * step <= hi < lo + n * step
    decreases hi - lo
  {
    if lo + step <= hi {
      StopsAre(lo + step, hi, step);
      var n := Stops(lo + step, hi, step);
      assert (n + 1) * step == n * step + step && (n - 1) * step == n * step - step;
    } else {
      assert Stops(lo + step, hi, step) == 0;
    }
  }

  /** In the right place or aft of it, since nothing is asked for forward of the stretch. */
  predicate Filled(s: Space, q: Stretch, lo: int) {
    s.deck == q.deck && s.category == q.category && s.usage == q.usage && s.frame >= Clamp(q.deck, lo)
  }

  lemma FillStep(q: Stretch, r: Filling, f: int, hi: int, step: nat)
    requires step > 0
    ensures FillFrom(q, r, f, hi, step) ==
            if f > hi then r else FillFrom(q, StopTo(q, r, f, |q.sides|), f + step, hi, step)
  {
  }

  lemma OneMoreIs(q: Stretch, r: Filling, f: int, m: nat, lo: int)
    requires m < |q.sides| && f >= lo
    ensures var d := |r.spaces|;
            var base := q.pool(d);
            var count := (if base in r.counters then r.counters[base] else 0) + 1;
            var frame := NextFree(r.placards, q.deck, q.sides[m], q.usage, Clamp(q.deck, f + q.jitter(d)));
            var name := if q.numbered then Numbered(base, count) else base;
            var s := NewSpace(q.deck, frame, q.sides[m], q.usage, name, q.category, q.lengths(d));
            && OneMore(q, r, f, m) ==
               Filling(r.placards + {Label(q.deck, frame, q.sides[m], q.usage)},
                       r.spaces + [s], r.counters[base := count])
            && Filled(s, q, lo) && s.name == name
  {
    hide NextFree, Label, ZoneAt, Numbered;
  }

  function Numbered(base: string, n: nat): string {
    base + " No. " + Dec(n)
  }

  /** The name is one of those given out so far. */
  ghost predicate Counted(name: string, counters: map<string, nat>) {
    exists base, n: nat :: name == Numbered(base, n) && base in counters && 1 <= n <= counters[base]
  }

  /** The next number of a base has not been given out, and the old ones stay given. */
  lemma CountOne(counters: map<string, nat>, base: string)
    ensures var n := (if base in counters then counters[base] else 0) + 1;
            && (forall name :: Counted(name, counters) ==>
                Counted(name, counters[base := n]) && name != Numbered(base, n))
            && Counted(Numbered(base, n), counters[base := n])
  {
    hide Numbered;
    var n := (if base in counters then counters[base] else 0) + 1;
    forall name | Counted(name, counters) ensures Counted(name, counters[base := n]) && name != Numbered(base, n) {
      var b, m: nat :| name == Numbered(b, m) && b in counters && 1 <= m <= counters[b];
      if name == Numbered(base, n) {
        NumberedInjective(b, m, base, n);
      }
      assert b in counters[base := n] && m <= counters[base := n][b];
    }
  }

  lemma NumberedInjective(a: string, m: nat, b: string, n: nat)
    requires Numbered(a, m) == Numbered(b, n)
    ensures a == b && m == n
  {
    SameNumber(a, m, b, n);
    DecInjective(m, n);
    var name := Numbered(a, m);
    assert name[..|name| - |Dec(m)| - 5] == a && name[..|name| - |Dec(n)| - 5] == b;
  }

  lemma SameNumber(a: string, m: nat, b: string, n: nat)
    requires Numbered(a, m) == Numbered(b, n)
    ensures Dec(m) == Dec(n)
  {
    hide Dec;
    var name, dm, dn := Numbered(a, m), Dec(m), Dec(n);
    assert name[|name| - |dm|..] == dm && name[|name| - |dn|..] == dn;
    assert name[|name| - |dm| - 1] == ' ' && name[|name| - |dn| - 1] == ' ';
    if |dm| < |dn| || |dn| < |dm| { assert false; }
  }

  /** A seeded space: eight frames long, not clipped. */
  function SeededSpace(
      no: string, name: string, deck: Deck, category: string, f: nat, side: Side, usage: string): Space {
    Space(no, name, deck, ZoneAt(deck, f), category, f, SideWord(side), f, f + 8, usage)
  }

  /** Unlike a space laid by request a seeded one is never clipped: from eight frames short of
      the hull's end on it runs past it. */
  lemma SeededRunsPastIff(
      no: string, name: string, deck: Deck, category: string, f: nat, side: Side, usage: string)
    ensures var s := SeededSpace(no, name, deck, category, f, side, usage);
            s.aft - s.fwd == 8 && (s.aft > 265 <==> f > 257)
  {
    hide ZoneAt;
  }

  ghost predicate IsSeeded(s: Space, no: string, name: string, deck: Deck, category: string) {
    exists f: nat, side: Side, usage ::
        no == Label(deck, f, side, usage) && s == SeededSpace(no, name, deck, category, f, side, usage)
  }

  /** The placard names a frame the zone chart reaches. */
  ghost predicate OnChart(no: string, deck: Deck) {
    exists f: nat, side: Side, usage ::
        XerText.Lacks(usage, '-') && no == Label(deck, f, side, usage) && f <= FLIGHT_AFT
  }

  lemma OffChart(no: string, deck: Deck, f: nat, side: Side, usage: string)
    requires XerText.Lacks(usage, '-') && no == Label(deck, f, side, usage) && f > FLIGHT_AFT
    ensures !OnChart(no, deck)
  {
    forall g: nat, sd: Side, u | XerText.Lacks(u, '-') && no == Label(deck, g, sd, u) ensures g == f {
      SplitLabel(deck, f, side, usage);
      SplitLabel(deck, g, sd, u);
      DecInjective(f, g);
    }
  }

  lemma PlacedNew(s: Space, side: Side)
    requires 0 <= s.frame <= FLIGHT_AFT && s.fwd == s.frame && (s.frame <= HULL_AFT ==> s.fwd <= s.aft)
    requires s.zone == ZoneAt(s.deck, s.frame) && Labelled(s, side)
    ensures Placed(s)
  {
  }

  /** A placard of the deck, as printed: no usage has a hyphen. */
  ghost predicate IsLabel(no: string, deck: Deck) {
    exists f: nat, side: Side, usage :: XerText.Lacks(usage, '-') && no == Label(deck, f, side, usage)
  }

  /** Splitting a placard at the hyphens gives back what was printed. */
  lemma SplitLabel(deck: Deck, f: nat, side: Side, usage: string)
    requires XerText.Lacks(usage, '-')
    ensures XerText.Split(Label(deck, f, side, usage), '-') == [DigitOf(deck), Dec(f), Dec(side), usage]
  {
    var parts := [DigitOf(deck), Dec(f), Dec(side), usage];
    assert parts[1..] == [Dec(f), Dec(side), usage] && parts[2..] == [Dec(side), usage] && parts[3..] == [usage];
    hide Dec;
    XerText.SplitJoin(parts, '-');
    JoinFour(parts[0], parts[1], parts[2], parts[3]);
  }

  lemma JoinFour(a: string, b: string, c: string, d: string)
    ensures XerText.Join([a, b, c, d], '-') == a + "-" + b + "-" + c + "-" + d
  {
    var all := [a, b, c, d];
    assert all[1..] == [b, c, d] && [b, c, d][1..] == [c, d] && [c, d][1..] == [d];
    assert XerText.Join([c, d], '-') == c + "-" + d;
    assert XerText.Join([b, c, d], '-') == b + "-" + (c + "-" + d);
  }

  lemma Parsed(no: string, deck: Deck) returns (f: nat, side: Side, usage: string)
    requires IsLabel(no, deck)
    ensures no == Label(deck, f, side, usage) && XerText.Lacks(usage, '-')
    ensures var p := XerText.Split(no, '-');
            && |p| == 4 && AllDigits(p[1]) && AllDigits(p[2]) && Value(p[1]) == f && Value(p[2]) == side
            && p[3] == usage
  {
    f, side, usage :| XerText.Lacks(usage, '-') && no == Label(deck, f, side, usage);
    SplitLabel(deck, f, side, usage);
    ValueOfDec(f);
    ValueOfDec(side);
  }
}
