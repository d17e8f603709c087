/** What the two stream-K stages leave in memory. A tile's content is the sequence of the
    units accumulated into it; adding a part in front of the rest stands for the fixup's
    accumulation, which walks backwards. */
module StreamKMemory {
  import opened Arithmetic
  import opened StreamK

  datatype Memory = Memory(dst: map<nat, seq<nat>>, slots: map<nat, seq<nat>>)

  function Units(lo: nat, hi: nat): (u: seq<nat>)
    requires lo <= hi
    ensures |u| == hi - lo && forall i :: 0 <= i < |u| ==> u[i] == lo + i
  {
    seq(hi - lo, i requires 0 <= i => lo + i)
  }

  lemma UnitsJoin(a: nat, b: nat, c: nat)
    requires a <= b <= c
    ensures Units(a, b) + Units(b, c) == Units(a, c)
  {
  }

  function Max(a: nat, b: nat): nat {
    if a < b then b else a
  }

  function Min(a: nat, b: nat): nat {
    if a < b then a else b
  }

  predicate NonEmpty(k: nat, s: Segment) {
    s.kfirst < s.klast <= k
  }

  predicate AllNonEmpty(k: nat, s: seq<Segment>) {
    forall i :: 0 <= i < |s| ==> NonEmpty(k, s[i])
  }

  function Done(k: nat, s: Segment): seq<nat>
    requires NonEmpty(k, s)
  {
    Units(s.First(k), s.Stop(k))
  }

  /** The memory after the segments, each written where its `slot` flag says. */
  function StoreAll(k: nat, s: seq<Segment>): Memory
    requires AllNonEmpty(k, s)
  {
    if s == [] then Memory(map[], map[])
    else
      var m, last := StoreAll(k, s[..|s| - 1]), s[|s| - 1];
      if last.slot then m.(slots := m.slots[last.block := Done(k, last)])
      else m.(dst := m.dst[last.tile := Done(k, last)])
  }

  function Read(m: map<nat, seq<nat>>, i: nat): seq<nat> {
    if i in m then m[i] else []
  }

  function Gather(slots: map<nat, seq<nat>>, walk: seq<nat>): seq<nat> {
    if walk == [] then [] else Gather(slots, walk[1..]) + Read(slots, walk[0])
  }

  /** The memory after the fixup of blocks 0..b. */
  function Fixup(g: Grid, m: Memory, b: nat): Memory
    requires g.Valid()
  {
    if b == 0 then m
    else
      var before := Fixup(g, m, b - 1);
      if Finishes(g, b - 1) then
        var tile := TileIn(g, Start(g, b - 1));
        before.(dst := before.dst[tile := Gather(m.slots, SlotsOf(g, tile, b - 2)) + Read(before.dst, tile)])
      else before
  }

  // ---- the shape of the main stage's segments ----

  predicate Shape(g: Grid, s: Segment)
    requires g.Valid()
  {
    && s.block < g.blocks && NonEmpty(g.k, s) && (s.slot <==> s.klast < g.k)
    && s.First(g.k) == Max(Start(g, s.block), Begin(g, s.tile))
    && s.Stop(g.k) == Min(Start(g, s.block + 1), Begin(g, s.tile + 1))
  }

  lemma {:induction false} SegmentsShape(g: Grid, b: nat, cursor: nat)
    requires g.Valid() && b < g.blocks && Start(g, b) <= cursor
    requires cursor == Start(g, b) || Aligned(g, cursor)
    ensures forall s :: s in Segments(g.k, b, cursor, Start(g, b + 1)) ==> Shape(g, s)
    decreases Start(g, b + 1) - cursor
  {
    hide Start;
    var end := Start(g, b + 1);
    if cursor < end {
      var s, stop := SegmentAt(g.k, b, cursor, end), StopOf(g.k, cursor, end);
      Boundaries(g, cursor, TileIn(g, cursor));
      assert s.tile == TileIn(g, cursor) && stop == Min(end, Begin(g, s.tile + 1));
      if stop < end {
        DivUnique(stop, g.k, s.tile + 1, 0);
        SegmentsShape(g, b, stop);
      }
      assert Segments(g.k, b, cursor, end) == [s] + Segments(g.k, b, stop, end);
    }
  }

  lemma {:induction false} MainShape(g: Grid, n: nat)
    requires g.Valid() && n <= g.blocks
    ensures forall s :: s in AllSegments(g, n) ==> Shape(g, s)
  {
    if n > 0 {
      MainShape(g, n - 1);
      SegmentsShape(g, n - 1, Start(g, n - 1));
    }
  }

  /** Where a segment lies among the tile boundaries. */
  lemma SegmentBounds(g: Grid, s: Segment)
    requires g.Valid() && NonEmpty(g.k, s)
    ensures Begin(g, s.tile) <= s.First(g.k) < s.Stop(g.k) <= Begin(g, s.tile + 1)
    ensures s.klast < g.k <==> s.Stop(g.k) < Begin(g, s.tile + 1)
  {
    assert Begin(g, s.tile + 1) == Begin(g, s.tile) + g.k;
  }

  lemma SlotShape(g: Grid, s: Segment)
    requires g.Valid() && Shape(g, s) && s.slot
    ensures Partial(g, s.block) && s.tile == TileIn(g, Start(g, s.block + 1))
    ensures s.First(g.k) == Max(Start(g, s.block), Begin(g, s.tile)) && s.Stop(g.k) == Start(g, s.block + 1)
  {
    hide Start, TileIn, Begin, LastOf, Aligned, Segment.First, Segment.Stop;
    SegmentBounds(g, s);
    Boundaries(g, s.Stop(g.k), s.tile);
  }

  lemma CompleterShape(g: Grid, s: Segment)
    requires g.Valid() && Shape(g, s) && !s.slot
    ensures Owns(g, s.block, LastOf(g, s.tile))
    ensures s.First(g.k) == Max(Start(g, s.block), Begin(g, s.tile)) && s.Stop(g.k) == Begin(g, s.tile + 1)
  {
    hide Start, TileIn, Begin, LastOf, Aligned, Segment.First, Segment.Stop;
    SegmentBounds(g, s);
    Boundaries(g, 0, s.tile);
  }

  lemma SlotOfPartial(g: Grid, p: nat) returns (s: Segment)
    requires g.Valid() && Partial(g, p)
    ensures s in AllSegments(g, g.blocks) && s.slot && s.block == p
  {
    assert p < g.blocks && Start(g, p) < Start(g, p + 1);
    hide Start, TileIn, Begin, LastOf, Aligned, Segment.First, Segment.Stop, Partial, AllSegments, Grid.Total;
    var last := Start(g, p + 1) - 1;
    BoundaryOfTotal(g);
    StartMonotone(g, p + 1, g.blocks);
    var i := EachUnitOnce(g, last);
    s := AllSegments(g, g.blocks)[i];
    MainShape(g, g.blocks);
    LastOfPartial(g, s, p);
  }

  lemma LastOfPartial(g: Grid, s: Segment, p: nat)
    requires g.Valid() && Partial(g, p) && Shape(g, s) && s.First(g.k) <= Start(g, p + 1) - 1 < s.Stop(g.k)
    ensures s.slot && s.block == p
  {
    hide Start, TileIn, Begin, LastOf, Aligned, Segment.First, Segment.Stop;
    if s.block < p { StartMonotone(g, s.block + 1, p); }
    if p < s.block { StartMonotone(g, p + 1, s.block); }
    SegmentBounds(g, s);
    SlotInside(g, p);
    Boundaries(g, Start(g, p + 1), s.tile + 1);
  }

  // ---- what the main stage leaves ----

  /** Slot b holds a slot segment of block b, if there is one. */
  ghost predicate SlotHolds(k: nat, s: seq<Segment>, slots: map<nat, seq<nat>>, b: nat)
    requires AllNonEmpty(k, s)
  {
    if b in slots then exists x :: x in s && NonEmpty(k, x) && x.slot && x.block == b && slots[b] == Done(k, x)
    else forall x :: x in s ==> !(x.slot && x.block == b)
  }

  ghost predicate DstHolds(k: nat, s: seq<Segment>, dst: map<nat, seq<nat>>, t: nat)
    requires AllNonEmpty(k, s)
  {
    if t in dst then exists x :: x in s && NonEmpty(k, x) && !x.slot && x.tile == t && dst[t] == Done(k, x)
    else forall x :: x in s ==> !(!x.slot && x.tile == t)
  }

  lemma {:induction false} StoreAllHolds(k: nat, s: seq<Segment>, i: nat)
    requires AllNonEmpty(k, s)
    ensures SlotHolds(k, s, StoreAll(k, s).slots, i) && DstHolds(k, s, StoreAll(k, s).dst, i)
  {
    if s != [] {
      var init, last := s[..|s| - 1], s[|s| - 1];
      StoreAllHolds(k, init, i);
      assert s == init + [last];
      assert forall x :: x in s <==> x in init || x == last;
    }
  }

  lemma MainNonEmpty(g: Grid)
    requires g.Valid()
    ensures AllNonEmpty(g.k, AllSegments(g, g.blocks))
    ensures forall s :: s in AllSegments(g, g.blocks) ==> Shape(g, s)
  {
    hide AllSegments, Start;
    MainShape(g, g.blocks);
    var s := AllSegments(g, g.blocks);
    forall i | 0 <= i < |s| ensures NonEmpty(g.k, s[i]) {
      assert s[i] in s;
    }
  }

  /** The memory after the main stage. */
  function MainMemory(g: Grid): Memory
    requires g.Valid()
  {
    MainNonEmpty(g);
    StoreAll(g.k, AllSegments(g, g.blocks))
  }

  /** Where the part of its last tile that block p leaves in its slot begins. */
  function SlotFirst(g: Grid, p: nat): nat
    requires g.Valid()
  {
    Max(Start(g, p), Begin(g, TileIn(g, Start(g, p + 1))))
  }

  lemma SlotFirstBelow(g: Grid, p: nat)
    requires g.Valid()
    ensures SlotFirst(g, p) <= Start(g, p + 1)
  {
    hide Start, TileIn, Begin, LastOf, Aligned;
    StartMonotone(g, p, p + 1);
    Boundaries(g, Start(g, p + 1), TileIn(g, Start(g, p + 1)));
  }

  /** The main stage writes exactly the slots of the partial blocks. */
  lemma MainSlots(g: Grid, p: nat)
    requires g.Valid()
    ensures p in MainMemory(g).slots <==> Partial(g, p)
    ensures SlotFirst(g, p) <= Start(g, p + 1)
    ensures Partial(g, p) ==> Read(MainMemory(g).slots, p) == Units(SlotFirst(g, p), Start(g, p + 1))
  {
    hide Start, TileIn, Begin, LastOf, AllSegments, StoreAll, Partial, Segment.First, Segment.Stop;
    SlotFirstBelow(g, p);
    MainNonEmpty(g);
    StoreAllHolds(g.k, AllSegments(g, g.blocks), p);
    if p in MainMemory(g).slots {
      var x :| x in AllSegments(g, g.blocks) && NonEmpty(g.k, x) && x.slot && x.block == p
               && MainMemory(g).slots[p] == Done(g.k, x);
      SlotShape(g, x);
    } else if Partial(g, p) {
      var x := SlotOfPartial(g, p);
    }
  }

  lemma MainDstKeys(g: Grid, t: nat)
    requires g.Valid()
    ensures t in MainMemory(g).dst <==> t < g.tiles
  {
    hide Start, TileIn, Begin, LastOf, AllSegments, StoreAll, Partial, Segment.First, Segment.Stop, Grid.Total;
    MainNonEmpty(g);
    StoreAllHolds(g.k, AllSegments(g, g.blocks), t);
    if t in MainMemory(g).dst {
      var x :| x in AllSegments(g, g.blocks) && NonEmpty(g.k, x) && !x.slot && x.tile == t;
      CompleterShape(g, x);
      StartMonotone(g, x.block + 1, g.blocks);
      BoundaryOfTotal(g);
      LastInTotal(g, t);
    } else if t < g.tiles {
      var i := OneCompleter(g, t);
    }
  }

  /** The main stage writes each tile of the destination, from the tile's last block. */
  lemma MainDst(g: Grid, t: nat, b: nat)
    requires g.Valid() && t < g.tiles && Owns(g, b, LastOf(g, t))
    ensures Max(Start(g, b), Begin(g, t)) < Begin(g, t + 1)
    ensures t in MainMemory(g).dst
    ensures MainMemory(g).dst[t] == Units(Max(Start(g, b), Begin(g, t)), Begin(g, t + 1))
  {
    hide Start, TileIn, Begin, LastOf, AllSegments, StoreAll, Partial, Segment.First, Segment.Stop;
    Boundaries(g, 0, t);
    MainNonEmpty(g);
    MainDstKeys(g, t);
    StoreAllHolds(g.k, AllSegments(g, g.blocks), t);
    var x :| x in AllSegments(g, g.blocks) && NonEmpty(g.k, x) && !x.slot && x.tile == t
             && MainMemory(g).dst[t] == Done(g.k, x);
    CompleterShape(g, x);
    OneOwner(g, b, x.block, LastOf(g, t));
  }

  // ---- the fixup stage ----

  /** The walk back from block p gathers exactly the tile's units below Start(p+1). */
  lemma {:induction false} GatherUnits(g: Grid, tile: nat, p: int)
    requires g.Valid() && -1 <= p < g.blocks && Begin(g, tile) < Start(g, p + 1) < Begin(g, tile + 1)
    ensures Gather(MainMemory(g).slots, SlotsOf(g, tile, p)) == Units(Begin(g, tile), Start(g, p + 1))
    decreases p
  {
    hide Start, Begin, MainMemory, Gather, SlotsOf, Grid.Total;
    if p < 0 {
      BoundaryOfTotal(g);
      assert false;
    }
    StartMonotone(g, p, p + 1);
    GatherStep(g, tile, p);
    if Start(g, p) > Begin(g, tile) {
      GatherUnits(g, tile, p - 1);
      UnitsJoin(Begin(g, tile), Start(g, p), Start(g, p + 1));
    }
  }

  lemma GatherStep(g: Grid, tile: nat, p: nat)
    requires g.Valid() && p < g.blocks && Begin(g, tile) < Start(g, p + 1) < Begin(g, tile + 1)
    requires Start(g, p) <= Start(g, p + 1)
    ensures var slots := MainMemory(g).slots;
            Gather(slots, SlotsOf(g, tile, p)) ==
              if Start(g, p) == Start(g, p + 1) then Gather(slots, SlotsOf(g, tile, p - 1))
              else if Start(g, p) <= Begin(g, tile) then Units(Begin(g, tile), Start(g, p + 1))
              else Gather(slots, SlotsOf(g, tile, p - 1)) + Units(Start(g, p), Start(g, p + 1))
  {
    hide Start, TileIn, Begin, LastOf, Aligned, MainMemory;
    Boundaries(g, Start(g, p + 1), tile);
    MainSlots(g, p);
    var slots := MainMemory(g).slots;
    var rest := if Start(g, p) <= Begin(g, tile) then [] else SlotsOf(g, tile, p - 1);
    if Start(g, p) != Start(g, p + 1) {
      assert ([p] + rest)[1..] == rest;
    }
  }

  lemma {:induction false} FixupAt(g: Grid, m: Memory, n: nat, t: nat)
    requires g.Valid() && n <= g.blocks
    ensures t in Fixup(g, m, n).dst <== t in m.dst
    ensures (forall b :: 0 <= b < n && Finishes(g, b) ==> TileIn(g, Start(g, b)) != t) ==>
              (t in Fixup(g, m, n).dst <==> t in m.dst) && Read(Fixup(g, m, n).dst, t) == Read(m.dst, t)
    ensures forall b :: 0 <= b < n && Finishes(g, b) && TileIn(g, Start(g, b)) == t ==>
              Read(Fixup(g, m, n).dst, t) == Gather(m.slots, SlotsOf(g, t, b - 1)) + Read(m.dst, t)
  {
    hide Start, TileIn, Finishes, SlotsOf, Gather;
    if n > 0 {
      FixupAt(g, m, n - 1, t);
      if Finishes(g, n - 1) && TileIn(g, Start(g, n - 1)) == t {
        forall b | 0 <= b < n - 1 && Finishes(g, b) ensures TileIn(g, Start(g, b)) != t {
          if TileIn(g, Start(g, b)) == t { OneFinisher(g, b, n - 1); }
        }
      }
    }
  }

  /** A tile is finished in the fixup stage exactly when its last block began inside it. */
  lemma FinishedBy(g: Grid, t: nat, b: nat)
    requires g.Valid() && Owns(g, b, LastOf(g, t))
    ensures Start(g, b) > Begin(g, t) ==>
              && 0 < b < g.blocks && Start(g, b) < Begin(g, t + 1)
              && Finishes(g, b) && TileIn(g, Start(g, b)) == t
    ensures Start(g, b) <= Begin(g, t) ==>
              forall c :: 0 <= c < g.blocks && Finishes(g, c) ==> TileIn(g, Start(g, c)) != t
  {
    hide Start, TileIn, Begin, LastOf, Aligned, Grid.Total, Finishes;
    BoundaryOfTotal(g);
    FinishesFacts(g, b);
    Boundaries(g, Start(g, b), t);
    if Start(g, b) <= Begin(g, t) {
      forall c | 0 <= c < g.blocks && Finishes(g, c) ensures TileIn(g, Start(g, c)) != t {
        FinishesFacts(g, c);
        if TileIn(g, Start(g, c)) == t { OneOwner(g, b, c, LastOf(g, t)); }
      }
    }
  }

  lemma UnfinishedTile(g: Grid, t: nat, b: nat)
    requires g.Valid() && t < g.tiles && Owns(g, b, LastOf(g, t)) && Start(g, b) <= Begin(g, t)
    ensures Begin(g, t) <= Begin(g, t + 1)
    ensures Read(Fixup(g, MainMemory(g), g.blocks).dst, t) == Units(Begin(g, t), Begin(g, t + 1))
  {
    hide Start, TileIn, Begin, LastOf, MainMemory, Fixup, Finishes, SlotsOf, Gather, Owns;
    MainDst(g, t, b);
    FinishedBy(g, t, b);
    FixupAt(g, MainMemory(g), g.blocks, t);
  }

  lemma FinishedTile(g: Grid, t: nat, b: nat)
    requires g.Valid() && t < g.tiles && Owns(g, b, LastOf(g, t)) && Start(g, b) > Begin(g, t)
    ensures Begin(g, t) <= Begin(g, t + 1)
    ensures Read(Fixup(g, MainMemory(g), g.blocks).dst, t) == Units(Begin(g, t), Begin(g, t + 1))
  {
    hide Start, TileIn, Begin, LastOf, MainMemory, Fixup, Finishes, SlotsOf, Gather, Owns;
    MainDst(g, t, b);
    FinishedBy(g, t, b);
    FixupAt(g, MainMemory(g), g.blocks, t);
    GatherUnits(g, t, b - 1);
    UnitsJoin(Begin(g, t), Start(g, b), Begin(g, t + 1));
  }

  /** Whatever the number of blocks, the two stages leave in every tile of the
      destination each of its units exactly once, in order, and write no other tile. */
  lemma StreamKComplete(g: Grid, t: nat)
    requires g.Valid()
    ensures var dst := Fixup(g, MainMemory(g), g.blocks).dst;
            && (t in dst <==> t < g.tiles)
            && (t < g.tiles ==> dst[t] == Units(t * g.k, t * g.k + g.k))
  {
    assert Begin(g, t) == t * g.k && Begin(g, t + 1) == t * g.k + g.k;
    hide Start, TileIn, Begin, LastOf, MainMemory, Fixup, Finishes, SlotsOf, Gather, Owns, Grid.Total;
    FixupAt(g, MainMemory(g), g.blocks, t);
    MainDstKeys(g, t);
    if t < g.tiles {
      LastInTotal(g, t);
      var b := OwnerExists(g, LastOf(g, t));
      if Start(g, b) > Begin(g, t) { FinishedTile(g, t, b); } else { UnfinishedTile(g, t, b); }
    } else {
      forall b | 0 <= b < g.blocks && Finishes(g, b) ensures TileIn(g, Start(g, b)) != t {
        FinishedInRange(g, b);
      }
    }
  }

  lemma FinishedInRange(g: Grid, b: nat)
    requires g.Valid() && Finishes(g, b)
    ensures TileIn(g, Start(g, b)) < g.tiles
  {
    assert b < g.blocks;
    hide Start, TileIn, Begin, LastOf, Finishes, Grid.Total;
    BoundaryOfTotal(g);
    StartMonotone(g, b + 1, g.blocks);
    FinishesFacts(g, b);
    BoundariesIncrease(g, g.tiles, TileIn(g, Start(g, b)) + 1);
  }
}
