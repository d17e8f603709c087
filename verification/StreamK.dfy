/** The stream-K split of python/xvram/compat_audit_kernel_ranges.py: tiles * k units of
    work are cut into `blocks` consecutive pieces; a block that stops inside a tile leaves
    its part in its own scratch slot, and a fixup stage collects the slots again. */
module StreamK {
  import opened Arithmetic

  datatype Grid = Grid(tiles: nat, k: nat, blocks: nat) {
    predicate Valid() {
      k > 0 && blocks > 0
    }

    function Total(): nat {
      tiles * k
    }
  }

  /** Units kfirst..klast of one tile, done by one block; `slot` tells whether the result
      goes to the block's scratch slot or to the destination. */
  datatype Segment = Segment(block: nat, tile: nat, kfirst: nat, klast: nat, slot: bool) {
    function First(k: nat): nat {
      tile * k + kfirst
    }

    function Stop(k: nat): nat {
      tile * k + klast
    }
  }

  function Start(g: Grid, i: nat): nat
    requires g.Valid()
  {
    i * g.Total() / g.blocks
  }

  /** Block i begins after the whole part of its share, so the shares begin at 0, end at the
      total and differ by at most one unit. */
  lemma StartExact(g: Grid, i: nat, j: nat)
    requires g.Valid()
    ensures Start(g, i) * g.blocks <= i * g.Total() < (Start(g, i) + 1) * g.blocks
    ensures Start(g, 0) == 0 && Start(g, g.blocks) == g.Total()
    ensures Start(g, i + 1) - Start(g, i) <= Start(g, j + 1) - Start(g, j) + 1
  {
    var n, t := g.blocks, g.Total();
    DivSpan(i * t, n, Start(g, i));
    DivSpan(j * t, n, Start(g, j));
    DivUnique(n * t, n, t, 0);
    ShareBounds(i * t, t, n);
    ShareBounds(j * t, t, n);
    assert (i + 1) * t == i * t + t && (j + 1) * t == j * t + t;
  }

  /** A quotient of a sum is the sum of the quotients, or one more. */
  lemma ShareBounds(a: nat, t: nat, n: nat)
    requires n > 0
    ensures (a + t) / n == a / n + t / n + if a % n + t % n < n then 0 else 1
  {
    var q, r := a / n + t / n, a % n + t % n;
    Remainders(a, t, n, q);
    if r < n { DivUnique(a + t, n, q, r); } else { DivUnique(a + t, n, q + 1, r - n); }
  }

  lemma Remainders(a: nat, t: nat, n: nat, q: nat)
    requires n > 0 && q == a / n + t / n
    ensures a + t == q * n + (a % n + t % n)
  {
    assert a == n * (a / n) + a % n && t == n * (t / n) + t % n;
  }

  function TileIn(g: Grid, u: nat): nat
    requires g.Valid()
  {
    u / g.k
  }

  function Begin(g: Grid, tile: nat): nat {
    tile * g.k
  }

  function LastOf(g: Grid, tile: nat): nat
    requires g.Valid()
  {
    tile * g.k + (g.k - 1)
  }

  predicate Aligned(g: Grid, u: nat)
    requires g.Valid()
  {
    u % g.k == 0
  }

  predicate Partial(g: Grid, b: nat)
    requires g.Valid()
  {
    b < g.blocks && Start(g, b) < Start(g, b + 1) && !Aligned(g, Start(g, b + 1))
  }

  /** The block ends a tile that an earlier block began. */
  predicate Finishes(g: Grid, b: nat)
    requires g.Valid()
  {
    var first, end := Start(g, b), Start(g, b + 1);
    b < g.blocks && !(first == end || Aligned(g, first) || (TileIn(g, first) == TileIn(g, end) && !Aligned(g, end)))
  }

  // ---- arithmetic ----

  lemma StartMonotone(g: Grid, i: nat, j: nat)
    requires g.Valid() && i <= j
    ensures Start(g, i) <= Start(g, j)
  {
    MulMonotone(g.Total(), i, j);
    DivMonotone(i * g.Total(), j * g.Total(), g.blocks);
  }

  lemma StartEnds(g: Grid)
    requires g.Valid()
    ensures Start(g, 0) == 0 && Start(g, g.blocks) == g.Total()
  {
    DivUnique(g.blocks * g.Total(), g.blocks, g.Total(), 0);
  }

  // ---- the main stage ----

  /** Where the segment that starts at `cursor` stops: at the block's end or its tile's. */
  function StopOf(k: nat, cursor: nat, end: nat): (stop: nat)
    requires k > 0 && cursor < end
    ensures cursor < stop <= end
  {
    DivSpan(cursor, k, cursor / k);
    var tileEnd := (cursor / k + 1) * k;
    if end < tileEnd then end else tileEnd
  }

  function SegmentAt(k: nat, block: nat, cursor: nat, end: nat): (s: Segment)
    requires k > 0 && cursor < end
    ensures s.First(k) == cursor && s.Stop(k) == StopOf(k, cursor, end)
    ensures s.kfirst < s.klast <= k && (s.slot <==> s.klast < k)
  {
    DivSpan(cursor, k, cursor / k);
    var tile, stop := cursor / k, StopOf(k, cursor, end);
    StopsShort(k, tile, stop);
    Segment(block, tile, cursor % k, stop - tile * k, stop % k != 0)
  }

  /** The segments of one block, from `cursor` to `end`. */
  function Segments(k: nat, block: nat, cursor: nat, end: nat): seq<Segment>
    requires k > 0
    decreases end - cursor
  {
    if cursor >= end then []
    else [SegmentAt(k, block, cursor, end)] + Segments(k, block, StopOf(k, cursor, end), end)
  }

  function AllSegments(g: Grid, blocks: nat): seq<Segment>
    requires g.Valid()
  {
    if blocks == 0 then []
    else AllSegments(g, blocks - 1) + Segments(g.k, blocks - 1, Start(g, blocks - 1), Start(g, blocks))
  }

  /** The inner loop of the main stage: one block's walk from its start to its end. */
  method BlockSegments(k: nat, bid: nat, start: nat, end: nat) returns (segments: seq<Segment>)
    requires k > 0
    ensures segments == Segments(k, bid, start, end)
  {
    segments := [];
    var cursor := start;
    while cursor < end
      invariant segments + Segments(k, bid, cursor, end) == Segments(k, bid, start, end)
      decreases end - cursor
    {
      ghost var segment := SegmentAt(k, bid, cursor, end);
      DivSpan(cursor, k, cursor / k);
      var tile, kfirst := cursor / k, cursor % k;
      var tileEnd := (tile + 1) * k;
      var stop := if end < tileEnd then end else tileEnd;
      var klast := stop - tile * k;
      segments := segments + [Segment(bid, tile, kfirst, klast, stop % k != 0)];
      assert Segment(bid, tile, kfirst, klast, stop % k != 0) == segment;
      cursor := stop;
    }
  }

  method MainStage(g: Grid) returns (segments: seq<Segment>)
    requires g.Valid()
    ensures segments == AllSegments(g, g.blocks)
  {
    segments := [];
    for bid := 0 to g.blocks
      invariant segments == AllSegments(g, bid)
    {
      var block := BlockSegments(g.k, bid, Start(g, bid), Start(g, bid + 1));
      segments := segments + block;
    }
  }

  /** The segments are consecutive, none is empty, none leaves its tile, and each one's
      `slot` flag says whether it stops short of its tile's end. */
  ghost predicate Tiling(k: nat, s: seq<Segment>, from: nat, to: nat) {
    && (s == [] ==> from == to)
    && (s != [] ==> s[0].First(k) == from && s[|s| - 1].Stop(k) == to)
    && (forall i :: 0 <= i < |s| ==> s[i].kfirst < s[i].klast <= k && (s[i].slot <==> s[i].klast < k))
    && (forall i :: 0 < i < |s| ==> s[i].First(k) == s[i - 1].Stop(k))
  }

  lemma TilingJoin(k: nat, s: seq<Segment>, t: seq<Segment>, a: nat, b: nat, c: nat)
    requires Tiling(k, s, a, b) && Tiling(k, t, b, c)
    ensures Tiling(k, s + t, a, c)
  {
  }

  lemma {:induction false} SegmentsTile(k: nat, block: nat, cursor: nat, end: nat)
    requires k > 0 && cursor <= end
    ensures Tiling(k, Segments(k, block, cursor, end), cursor, end)
    ensures forall s :: s in Segments(k, block, cursor, end) ==> s.block == block
    decreases end - cursor
  {
    if cursor < end {
      var stop, first := StopOf(k, cursor, end), SegmentAt(k, block, cursor, end);
      SegmentsTile(k, block, stop, end);
      assert Tiling(k, [first], cursor, stop);
      TilingJoin(k, [first], Segments(k, block, stop, end), cursor, stop, end);
    }
  }

  lemma StopsShort(k: nat, tile: nat, stop: nat)
    requires k > 0 && tile * k < stop <= (tile + 1) * k
    ensures stop % k != 0 <==> stop - tile * k < k
  {
    if stop < (tile + 1) * k {
      DivUnique(stop, k, tile, stop - tile * k);
    } else {
      DivUnique(stop, k, tile + 1, 0);
    }
  }

  lemma {:induction false} MainTilesEverything(g: Grid, blocks: nat)
    requires g.Valid()
    ensures Tiling(g.k, AllSegments(g, blocks), 0, Start(g, blocks))
  {
    if blocks == 0 {
      StartEnds(g);
    } else {
      MainTilesEverything(g, blocks - 1);
      StartMonotone(g, blocks - 1, blocks);
      SegmentsTile(g.k, blocks - 1, Start(g, blocks - 1), Start(g, blocks));
      TilingJoin(g.k, AllSegments(g, blocks - 1), Segments(g.k, blocks - 1, Start(g, blocks - 1), Start(g, blocks)),
                 0, Start(g, blocks - 1), Start(g, blocks));
    }
  }

  lemma {:induction false} TilingIncreases(k: nat, s: seq<Segment>, from: nat, to: nat, i: nat, j: nat)
    requires k > 0 && Tiling(k, s, from, to) && i < j < |s|
    ensures s[i].Stop(k) <= s[j].First(k)
  {
    if i + 1 < j {
      TilingIncreases(k, s, from, to, i, j - 1);
    }
    assert s[j].First(k) == s[j - 1].Stop(k);
  }

  predicate Holds(k: nat, s: seq<Segment>, i: nat, u: nat) {
    i < |s| && s[i].First(k) <= u < s[i].Stop(k)
  }

  lemma {:induction false} TilingCovers(k: nat, s: seq<Segment>, from: nat, to: nat, u: nat) returns (i: nat)
    requires k > 0 && Tiling(k, s, from, to) && from <= u < to
    ensures Holds(k, s, i, u)
  {
    i := |s| - 1;
    while u < s[i].First(k)
      invariant i < |s| && u < s[i].Stop(k)
    {
      assert i > 0 by { if i == 0 { assert s[0].First(k) == from; } }
      assert s[i].First(k) == s[i - 1].Stop(k);
      i := i - 1;
    }
  }

  lemma HoldsOnce(k: nat, s: seq<Segment>, from: nat, to: nat, u: nat, i: nat, j: nat)
    requires k > 0 && Tiling(k, s, from, to) && Holds(k, s, i, u) && Holds(k, s, j, u)
    ensures i == j
  {
    if j < i { TilingIncreases(k, s, from, to, j, i); }
    if i < j { TilingIncreases(k, s, from, to, i, j); }
  }

  lemma UnitOfSegment(k: nat, s: Segment, u: nat)
    requires k > 0 && s.kfirst < s.klast <= k && s.First(k) <= u < s.Stop(k)
    ensures s.tile == u / k && s.kfirst <= u % k < s.klast
  {
    DivUnique(u, k, s.tile, u - s.tile * k);
  }

  /** The main stage does every unit of every tile exactly once. */
  lemma EachUnitOnce(g: Grid, u: nat) returns (i: nat)
    requires g.Valid() && u < g.Total()
    ensures var s := AllSegments(g, g.blocks);
            && Holds(g.k, s, i, u)
            && (forall j :: Holds(g.k, s, j, u) ==> j == i)
            && s[i].tile == u / g.k && s[i].kfirst <= u % g.k < s[i].klast
  {
    hide AllSegments, Start, Segment.First, Segment.Stop;
    var s := AllSegments(g, g.blocks);
    MainTilesEverything(g, g.blocks);
    StartEnds(g);
    i := TilingCovers(g.k, s, 0, g.Total(), u);
    forall j | Holds(g.k, s, j, u) ensures j == i {
      HoldsOnce(g.k, s, 0, g.Total(), u, i, j);
    }
    UnitOfSegment(g.k, s[i], u);
  }

  lemma LastUnit(k: nat, tile: nat, tiles: nat) returns (u: nat)
    requires k > 0 && tile < tiles
    ensures u == tile * k + (k - 1) && u < tiles * k && u / k == tile && u % k == k - 1
  {
    u := tile * k + (k - 1);
    MulMonotone(k, tile + 1, tiles);
    DivUnique(u, k, tile, k - 1);
  }

  lemma CompleterHolds(k: nat, s: seq<Segment>, i: nat, u: nat)
    requires k > 0 && i < |s| && s[i].kfirst < s[i].klast == k && u == s[i].tile * k + (k - 1)
    ensures Holds(k, s, i, u)
  {
  }

  /** Exactly one segment completes each tile, and writes the destination. */
  lemma OneCompleter(g: Grid, tile: nat) returns (i: nat)
    requires g.Valid() && tile < g.tiles
    ensures var s := AllSegments(g, g.blocks);
            && i < |s| && s[i].tile == tile && !s[i].slot
            && (forall j :: 0 <= j < |s| && s[j].tile == tile && !s[j].slot ==> j == i)
  {
    hide AllSegments, Start, Holds;
    var s := AllSegments(g, g.blocks);
    var last := LastUnit(g.k, tile, g.tiles);
    i := EachUnitOnce(g, last);
    MainTilesEverything(g, g.blocks);
    assert i < |s| by { HoldsIndex(g.k, s, i, last); }
    forall j | 0 <= j < |s| && s[j].tile == tile && !s[j].slot ensures j == i {
      CompleterHolds(g.k, s, j, last);
    }
  }

  lemma HoldsIndex(k: nat, s: seq<Segment>, i: nat, u: nat)
    requires Holds(k, s, i, u)
    ensures i < |s|
  {
  }

  // ---- tile boundaries ----

  /** All that the fixup proofs know about division: a tile is the span of units from its
      own beginning to the next tile's. */
  lemma Boundaries(g: Grid, u: nat, tile: nat)
    requires g.Valid()
    ensures Begin(g, tile) <= u < Begin(g, tile + 1) <==> TileIn(g, u) == tile
    ensures Aligned(g, u) <==> u == Begin(g, TileIn(g, u))
    ensures Begin(g, TileIn(g, u)) <= u < Begin(g, TileIn(g, u) + 1)
    ensures Begin(g, tile) <= LastOf(g, tile) == Begin(g, tile + 1) - 1
  {
    DivSpan(u, g.k, tile);
    DivSpan(u, g.k, u / g.k);
    if u == u / g.k * g.k { DivUnique(u, g.k, u / g.k, 0); }
  }

  lemma BoundariesIncrease(g: Grid, a: nat, b: nat)
    requires g.Valid()
    ensures Begin(g, a) < Begin(g, b) <==> a < b
  {
    if a < b { MulMonotone(g.k, a + 1, b); } else { MulMonotone(g.k, b, a); }
  }

  lemma BoundaryOfTotal(g: Grid)
    requires g.Valid()
    ensures Begin(g, g.tiles) == g.Total() == Start(g, g.blocks) && Start(g, 0) == 0
  {
    StartEnds(g);
  }

  // ---- the fixup stage ----

  /** The slots a walk back from block p collects for a tile, newest first. */
  function SlotsOf(g: Grid, tile: nat, p: int): seq<nat>
    requires g.Valid()
    decreases p
  {
    if p < 0 then []
    else if Start(g, p) == Start(g, p + 1) then SlotsOf(g, tile, p - 1)
    else [p] + if Start(g, p) <= Begin(g, tile) then [] else SlotsOf(g, tile, p - 1)
  }

  datatype Walk = Collected(slots: seq<nat>) | ReadsUnwrittenSlot | PredecessorUnderflow

  /** A block takes part in the fixup when it begins strictly inside a tile and ends it. */
  lemma FinishesFacts(g: Grid, b: nat)
    requires g.Valid()
    ensures var first, end := Start(g, b), Start(g, b + 1);
            Finishes(g, b) <==>
            b < g.blocks && Begin(g, TileIn(g, first)) < first < Begin(g, TileIn(g, first) + 1) <= end
  {
    hide Start, TileIn, Begin, LastOf, Aligned;
    var first, end := Start(g, b), Start(g, b + 1);
    StartMonotone(g, b, b + 1);
    Boundaries(g, first, TileIn(g, end));
    Boundaries(g, end, TileIn(g, first));
    BoundariesIncrease(g, TileIn(g, first) + 1, TileIn(g, end) + 1);
    BoundariesIncrease(g, TileIn(g, end), TileIn(g, first) + 1);
  }

  /** One step of the walk: a non-empty block before the end of the tile's earlier part has
      left its slot, and the source's stopping test asks whether it began the tile. */
  lemma WalkStep(g: Grid, bid: nat, previous: nat)
    requires g.Valid() && Finishes(g, bid) && previous < bid
    requires Begin(g, TileIn(g, Start(g, bid))) < Start(g, previous + 1)
    ensures var first, cursor := Start(g, bid), Start(g, previous);
            && cursor <= Start(g, previous + 1)
            && (cursor != Start(g, previous + 1) ==> Partial(g, previous))
            && (Aligned(g, cursor) || TileIn(g, cursor) < TileIn(g, first) <==> cursor <= Begin(g, TileIn(g, first)))
  {
    hide Start, TileIn, Begin, LastOf, Aligned;
    var first, tile := Start(g, bid), TileIn(g, Start(g, bid));
    StartMonotone(g, previous, previous + 1);
    StartMonotone(g, previous + 1, bid);
    FinishesFacts(g, bid);
    Boundaries(g, Start(g, previous + 1), tile);
    Boundaries(g, Start(g, previous), tile);
    BoundariesIncrease(g, TileIn(g, Start(g, previous)), tile);
    BoundariesIncrease(g, tile, TileIn(g, Start(g, previous)));
  }

  /** Adding the newest slot of the rest of a walk to what is already collected. */
  lemma CollectOne(g: Grid, tile: nat, p: nat, collected: seq<nat>)
    requires g.Valid()
    ensures Start(g, p) == Start(g, p + 1) ==> SlotsOf(g, tile, p) == SlotsOf(g, tile, p - 1)
    ensures Start(g, p) != Start(g, p + 1) && Start(g, p) <= Begin(g, tile) ==> SlotsOf(g, tile, p) == [p]
    ensures Start(g, p) != Start(g, p + 1) && Start(g, p) > Begin(g, tile) ==>
              collected + SlotsOf(g, tile, p) == collected + [p] + SlotsOf(g, tile, p - 1)
  {
    hide Start, Begin;
    assert collected + ([p] + SlotsOf(g, tile, p - 1)) == collected + [p] + SlotsOf(g, tile, p - 1);
  }

  /** The backward walk of one fixup block. Neither of its rejections can be reached. */
  method CollectSlots(g: Grid, bid: nat) returns (r: Walk)
    requires g.Valid() && Finishes(g, bid)
    ensures r == Collected(SlotsOf(g, TileIn(g, Start(g, bid)), bid - 1))
  {
    hide Start, Finishes, Partial, TileIn, Begin, LastOf, Aligned, Grid.Total, SlotsOf;
    FinishesFacts(g, bid);
    BoundaryOfTotal(g);
    var first := Start(g, bid);
    ghost var tile := TileIn(g, first);
    var collected: seq<nat> := [];
    var previous, stop := bid - 1, first;
    while previous >= 0
      invariant -1 <= previous < bid && stop == Start(g, previous + 1) && Begin(g, tile) < stop
      invariant collected + SlotsOf(g, tile, previous) == SlotsOf(g, tile, bid - 1)
      decreases previous
    {
      var cursor := Start(g, previous);
      WalkStep(g, bid, previous);
      CollectOne(g, tile, previous, collected);
      if cursor == stop {
        previous := previous - 1;
        stop := cursor;
        continue;
      }
      if !Partial(g, previous) { return ReadsUnwrittenSlot; }
      collected := collected + [previous];
      if Aligned(g, cursor) || TileIn(g, cursor) < TileIn(g, first) { return Collected(collected); }
      previous := previous - 1;
      stop := cursor;
    }
    r := PredecessorUnderflow;
  }

  lemma {:induction false} SlotsOfExact(g: Grid, tile: nat, p: int, q: nat)
    requires g.Valid() && -1 <= p < g.blocks && Begin(g, tile) < Start(g, p + 1) < Begin(g, tile + 1)
    ensures q in SlotsOf(g, tile, p) <==> q <= p && Partial(g, q) && TileIn(g, Start(g, q + 1)) == tile
    decreases p
  {
    hide Start, TileIn, Begin, LastOf, Aligned, Grid.Total;
    if p < 0 {
      BoundaryOfTotal(g);
    } else {
      StartMonotone(g, p, p + 1);
      Boundaries(g, Start(g, p + 1), tile);
      if Start(g, p) > Begin(g, tile) {
        SlotsOfExact(g, tile, p - 1, q);
      } else if q < p {
        StartMonotone(g, q + 1, p);
        Boundaries(g, Start(g, q + 1), tile);
      }
    }
  }

  ghost predicate Descends(s: seq<nat>, p: int) {
    (forall i :: 0 <= i < |s| ==> s[i] <= p) && (forall i, j :: 0 <= i < j < |s| ==> s[i] > s[j])
  }

  /** No slot is collected twice by one walk. */
  lemma {:induction false} SlotsOfDescend(g: Grid, tile: nat, p: int)
    requires g.Valid()
    ensures Descends(SlotsOf(g, tile, p), p)
    decreases p
  {
    hide Start, Begin;
    if p >= 0 {
      SlotsOfDescend(g, tile, p - 1);
      var rest := SlotsOf(g, tile, p - 1);
      assert Descends(rest, p) && Descends([p], p) && Descends([p] + rest, p);
    }
  }

  /** Block b is the one that does unit u. */
  predicate Owns(g: Grid, b: nat, u: nat)
    requires g.Valid()
  {
    b < g.blocks && Start(g, b) <= u < Start(g, b + 1)
  }

  lemma OwnerExists(g: Grid, u: nat) returns (b: nat)
    requires g.Valid() && u < g.Total()
    ensures Owns(g, b, u)
  {
    hide Start, Grid.Total, Begin;
    BoundaryOfTotal(g);
    b := OwnerBelow(g, u, g.blocks);
  }

  lemma {:induction false} OwnerBelow(g: Grid, u: nat, m: nat) returns (b: nat)
    requires g.Valid() && m <= g.blocks && Start(g, 0) <= u < Start(g, m)
    ensures Owns(g, b, u)
  {
    hide Start;
    if Start(g, m - 1) <= u { b := m - 1; } else { b := OwnerBelow(g, u, m - 1); }
  }

  lemma OneOwner(g: Grid, b: nat, c: nat, u: nat)
    requires g.Valid() && Owns(g, b, u) && Owns(g, c, u)
    ensures b == c
  {
    if b < c { StartMonotone(g, b + 1, c); } else if c < b { StartMonotone(g, c + 1, b); }
    hide Start;
  }

  /** A slot is left strictly inside its tile. */
  lemma SlotInside(g: Grid, p: nat)
    requires g.Valid() && Partial(g, p)
    ensures var tile := TileIn(g, Start(g, p + 1));
            Begin(g, tile) < Start(g, p + 1) < Begin(g, tile + 1) && tile < g.tiles
  {
    hide Start, TileIn, Begin, LastOf, Aligned, Grid.Total;
    var tile := TileIn(g, Start(g, p + 1));
    Boundaries(g, Start(g, p + 1), tile);
    StartMonotone(g, p + 1, g.blocks);
    BoundaryOfTotal(g);
    BoundariesIncrease(g, tile, g.tiles);
  }

  /** The block that finishes, in the fixup stage, the tile slot p was left for. */
  predicate Collects(g: Grid, b: nat, p: nat)
    requires g.Valid()
  {
    Finishes(g, b) && p in SlotsOf(g, TileIn(g, Start(g, b)), b - 1)
  }

  /** What a fixup block reads is what the main stage left for its tile. */
  lemma CollectsExact(g: Grid, b: nat, p: nat)
    requires g.Valid() && Finishes(g, b)
    ensures Collects(g, b, p) <==> Partial(g, p) && TileIn(g, Start(g, p + 1)) == TileIn(g, Start(g, b))
  {
    assert b < g.blocks;
    hide Start, TileIn, Begin, LastOf, Aligned, Grid.Total, Partial, Finishes, SlotsOf;
    FinishesFacts(g, b);
    if b > 0 {
      SlotsOfExact(g, TileIn(g, Start(g, b)), b - 1, p);
    } else {
      BoundaryOfTotal(g);
    }
    if Partial(g, p) && p >= b {
      SlotInside(g, p);
      StartMonotone(g, b + 1, p + 1);
    }
  }

  /** The block that does the last unit of slot p's tile is a fixup block of that tile. */
  lemma FinisherOf(g: Grid, p: nat, b: nat)
    requires g.Valid() && Partial(g, p) && Owns(g, b, LastOf(g, TileIn(g, Start(g, p + 1))))
    ensures Collects(g, b, p)
  {
    hide Start, TileIn, Begin, LastOf, Aligned, Grid.Total, Partial, Finishes, SlotsOf;
    var tile := TileIn(g, Start(g, p + 1));
    SlotInside(g, p);
    if b <= p { StartMonotone(g, b + 1, p + 1); } else { StartMonotone(g, p + 1, b); }
    Boundaries(g, Start(g, b), tile);
    FinishesFacts(g, b);
    CollectsExact(g, b, p);
  }

  lemma OneFinisher(g: Grid, b: nat, c: nat)
    requires g.Valid() && Finishes(g, b) && Finishes(g, c) && TileIn(g, Start(g, b)) == TileIn(g, Start(g, c))
    ensures b == c
  {
    hide Start, TileIn, Begin, Finishes;
    FinishesFacts(g, b);
    FinishesFacts(g, c);
    if c < b { StartMonotone(g, c + 1, b); } else if b < c { StartMonotone(g, b + 1, c); }
  }

  lemma LastInTotal(g: Grid, tile: nat)
    requires g.Valid()
    ensures LastOf(g, tile) < g.Total() <==> tile < g.tiles
  {
    hide TileIn, Begin, LastOf, Aligned, Grid.Total, Start;
    Boundaries(g, 0, tile);
    BoundaryOfTotal(g);
    BoundariesIncrease(g, g.tiles, tile + 1);
  }

  /** Every slot the main stage leaves is collected by exactly one fixup block. */
  lemma EachSlotReadOnce(g: Grid, p: nat) returns (b: nat)
    requires g.Valid() && Partial(g, p)
    ensures Collects(g, b, p) && forall c :: Collects(g, c, p) ==> c == b
  {
    hide Start, TileIn, Begin, LastOf, Partial, Finishes, SlotsOf, Grid.Total;
    SlotInside(g, p);
    LastInTotal(g, TileIn(g, Start(g, p + 1)));
    b := OwnerExists(g, LastOf(g, TileIn(g, Start(g, p + 1))));
    FinisherOf(g, p, b);
    CollectsExact(g, b, p);
    forall c | Collects(g, c, p) ensures c == b {
      CollectsExact(g, c, p);
      OneFinisher(g, b, c);
    }
  }
}
