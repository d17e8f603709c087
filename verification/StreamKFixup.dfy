/** The fixup launch as both functions of the source write it: which blocks take part,
    which slots they read, and which destination ranges they touch. */
module StreamKFixup {
  import opened Options
  import opened Arithmetic
  import opened StreamK
  import StreamKMemory

  const I32_MAX: nat := 0x7fff_ffff

  datatype Visit = Visit(block: nat, tile: nat, slots: seq<nat>)

  function Visits(g: Grid, n: nat): seq<Visit>
    requires g.Valid()
  {
    if n == 0 then []
    else if Finishes(g, n - 1)
    then
      var tile := TileIn(g, Start(g, n - 1));
      Visits(g, n - 1) + [Visit(n - 1, tile, SlotsOf(g, tile, n - 2))]
    else Visits(g, n - 1)
  }

  datatype FixupPlan = Plan(visits: seq<Visit>) | Refused

  /** The fixup stage never meets an unwritten slot and never runs out of predecessors. */
  method FixupStage(g: Grid) returns (r: FixupPlan)
    requires g.Valid()
    ensures r == Plan(Visits(g, g.blocks))
  {
    hide Start;
    var visits: seq<Visit> := [];
    for bid := 0 to g.blocks
      invariant visits == Visits(g, bid)
    {
      var first, end := Start(g, bid), Start(g, bid + 1);
      if !(first == end || Aligned(g, first) || (TileIn(g, first) == TileIn(g, end) && !Aligned(g, end))) {
        var walk := CollectSlots(g, bid);
        if !walk.Collected? { return Refused; }
        visits := visits + [Visit(bid, TileIn(g, first), walk.slots)];
      }
    }
    r := Plan(visits);
  }

  // ---- destination ranges ----

  /** The destination of a launch; strides and sizes count elements. */
  datatype Target = Target(tileColumns: nat, tilesX: nat, tilesY: nat, channels: nat, samples: nat,
                           outputColumns: nat, s0: nat, s1: nat, s2: nat)
  {
    predicate Valid() {
      && tileColumns > 0 && channels > 0 && samples > 0
      && 0 < outputColumns <= I32_MAX && channels <= I32_MAX && samples <= I32_MAX && tilesY * 128 <= I32_MAX
      && tilesX == (outputColumns + tileColumns - 1) / tileColumns
    }
  }

  datatype Coordinates = Coordinates(it: nat, jt: nat, channel: nat, sample: nat)

  function CoordinatesOf(d: Target, tile: nat): Coordinates
    requires d.tilesX > 0 && d.channels > 0 && d.samples > 0
  {
    var a: nat := tile / d.tilesX;
    var b: nat := a / d.channels;
    Coordinates(b / d.samples, tile % d.tilesX, a % d.channels, b % d.samples)
  }

  function Pack(q: nat, d: nat, r: nat): nat {
    q * d + r
  }

  lemma PackSplits(q: nat, d: nat, r: nat)
    requires r < d
    ensures Pack(q, d, r) / d == q && Pack(q, d, r) % d == r
  {
    DivUnique(q * d + r, d, q, r);
  }

  function TileAt(d: Target, c: Coordinates): nat {
    Pack(Pack(Pack(c.it, d.samples, c.sample), d.channels, c.channel), d.tilesX, c.jt)
  }

  predicate InShape(d: Target, c: Coordinates) {
    c.jt < d.tilesX && c.channel < d.channels && c.sample < d.samples && c.it < d.tilesY
  }

  lemma DivBelow(n: nat, d: nat, limit: nat)
    requires d > 0
    ensures n / d < limit <==> n < limit * d
  {
    DivSpan(n, d, n / d);
    if n / d < limit { MulMonotone(d, n / d + 1, limit); } else { MulMonotone(d, limit, n / d); }
  }

  lemma Recompose(n: nat, d: nat)
    requires d > 0
    ensures Pack(n / d, d, n % d) == n
  {
  }

  lemma TileRoundTrip(d: Target, tile: nat)
    requires d.tilesX > 0 && d.channels > 0 && d.samples > 0
    ensures TileAt(d, CoordinatesOf(d, tile)) == tile
  {
    hide Pack;
    var a := tile / d.tilesX;
    var b := a / d.channels;
    Recompose(tile, d.tilesX);
    Recompose(a, d.channels);
    Recompose(b, d.samples);
  }

  lemma TileInShape(d: Target, tile: nat)
    requires d.tilesX > 0 && d.channels > 0 && d.samples > 0
    ensures tile < d.tilesY * d.samples * d.channels * d.tilesX <==> InShape(d, CoordinatesOf(d, tile))
  {
    var a := tile / d.tilesX;
    DivBelow(tile, d.tilesX, d.tilesY * d.samples * d.channels);
    DivBelow(a, d.channels, d.tilesY * d.samples);
    DivBelow(a / d.channels, d.samples, d.tilesY);
  }

  lemma CoordinatesRoundTrip(d: Target, c: Coordinates)
    requires InShape(d, c)
    ensures CoordinatesOf(d, TileAt(d, c)) == c
  {
    hide Pack;
    var x := Pack(c.it, d.samples, c.sample);
    var y := Pack(x, d.channels, c.channel);
    PackSplits(c.it, d.samples, c.sample);
    PackSplits(x, d.channels, c.channel);
    PackSplits(y, d.tilesX, c.jt);
  }

  /** Tile numbers and coordinates correspond one to one, so the check that rejects a tile
      outside the shape cannot be met by a tile of the schedule. */
  lemma CoordinatesBijective(d: Target, tile: nat, c: Coordinates)
    requires d.tilesX > 0 && d.channels > 0 && d.samples > 0
    ensures TileAt(d, CoordinatesOf(d, tile)) == tile
    ensures tile < d.tilesY * d.samples * d.channels * d.tilesX <==> InShape(d, CoordinatesOf(d, tile))
    ensures InShape(d, c) ==> CoordinatesOf(d, TileAt(d, c)) == c
  {
    hide CoordinatesOf, TileAt, InShape;
    TileRoundTrip(d, tile);
    TileInShape(d, tile);
    if InShape(d, c) { CoordinatesRoundTrip(d, c); }
  }

  /** The number of columns of the tile that are inside the output. */
  function ColumnCount(d: Target, jt: nat): nat {
    if d.outputColumns <= jt * d.tileColumns then 0
    else if d.tileColumns <= d.outputColumns - jt * d.tileColumns then d.tileColumns
    else d.outputColumns - jt * d.tileColumns
  }

  function ColumnOffset(d: Target, c: Coordinates, i: nat): nat {
    (c.jt * d.tileColumns + i) * d.s0 + c.channel * d.s1 + c.sample * d.s2 + c.it * 128
  }

  /** The element offsets of the tile's columns, each the start of 128 elements. */
  function TileOffsets(d: Target, c: Coordinates, count: nat): seq<nat> {
    seq(count, i requires 0 <= i < count => ColumnOffset(d, c, i))
  }

  lemma OffsetsIncrease(d: Target, c: Coordinates, i: nat, j: nat)
    requires i <= j
    ensures ColumnOffset(d, c, i) <= ColumnOffset(d, c, j)
  {
    MulMonotone(d.s0, c.jt * d.tileColumns + i, c.jt * d.tileColumns + j);
  }

  // ---- which elements the ranges hold ----

  /** The 128-element ranges of a tile number. */
  function RangesOf(d: Target, tile: nat): seq<nat>
    requires d.tilesX > 0 && d.channels > 0 && d.samples > 0
  {
    var c := CoordinatesOf(d, tile);
    TileOffsets(d, c, ColumnCount(d, c.jt))
  }

  ghost predicate InRanges(offsets: seq<nat>, x: nat) {
    exists i :: 0 <= i < |offsets| && offsets[i] <= x < offsets[i] + 128
  }

  /** The offset of an output element in the destination. */
  function ElementAt(d: Target, row: nat, column: nat, channel: nat, sample: nat): nat {
    column * d.s0 + channel * d.s1 + sample * d.s2 + row
  }

  /** The output element lies in the tile: tiles count columns fastest, then channels, then
      samples, then blocks of 128 rows. */
  predicate Holds(d: Target, tile: nat, row: nat, column: nat, channel: nat, sample: nat)
    requires d.tileColumns > 0
  {
    && row < d.tilesY * 128 && column < d.outputColumns && channel < d.channels && sample < d.samples
    && tile == ((row / 128 * d.samples + sample) * d.channels + channel) * d.tilesX + column / d.tileColumns
  }

  ghost predicate HasElement(d: Target, tile: nat, x: nat)
    requires d.tileColumns > 0
  {
    exists row: nat, column: nat, channel: nat, sample: nat ::
      Holds(d, tile, row, column, channel, sample) && x == ElementAt(d, row, column, channel, sample)
  }

  lemma RangeHolds(d: Target, c: Coordinates, i: nat, x: nat)
    requires d.Valid() && InShape(d, c) && i < ColumnCount(d, c.jt)
    requires ColumnOffset(d, c, i) <= x < ColumnOffset(d, c, i) + 128
    ensures HasElement(d, TileAt(d, c), x)
  {
    var column, row: nat := c.jt * d.tileColumns + i, c.it * 128 + (x - ColumnOffset(d, c, i));
    DivUnique(column, d.tileColumns, c.jt, i);
    assert row / 128 == c.it;
    MulMonotone(128, c.it + 1, d.tilesY);
    assert Holds(d, TileAt(d, c), row, column, c.channel, c.sample);
    assert x == ElementAt(d, row, column, c.channel, c.sample);
  }

  lemma ColumnInTile(d: Target, column: nat)
    requires d.Valid() && column < d.outputColumns
    ensures column / d.tileColumns < d.tilesX && column % d.tileColumns < ColumnCount(d, column / d.tileColumns)
    ensures column == column / d.tileColumns * d.tileColumns + column % d.tileColumns
  {
    DivSpan(d.outputColumns + d.tileColumns - 1, d.tileColumns, d.tilesX);
    DivBelow(column, d.tileColumns, d.tilesX);
  }

  lemma HeldInRange(d: Target, c: Coordinates, row: nat, column: nat, channel: nat, sample: nat)
    requires d.Valid() && InShape(d, c) && Holds(d, TileAt(d, c), row, column, channel, sample)
    ensures var i := column % d.tileColumns;
            && i < ColumnCount(d, c.jt) && c.jt * d.tileColumns + i == column && row < c.it * 128 + 128
            && ElementAt(d, row, column, channel, sample) == ColumnOffset(d, c, i) + row % 128
  {
    ColumnInTile(d, column);
    var b := Coordinates(row / 128, column / d.tileColumns, channel, sample);
    assert TileAt(d, b) == TileAt(d, c) by { hide Target.Valid, InShape; }
    DivBelow(row, 128, d.tilesY);
    CoordinatesRoundTrip(d, b);
    CoordinatesRoundTrip(d, c);
  }

  /** The ranges of a tile hold exactly the output elements that lie in the tile. */
  lemma RangesExact(d: Target, tile: nat, x: nat)
    requires d.Valid() && d.tilesX > 0 && tile < d.tilesY * d.samples * d.channels * d.tilesX
    ensures InRanges(RangesOf(d, tile), x) <==> HasElement(d, tile, x)
  {
    var c := CoordinatesOf(d, tile);
    CoordinatesBijective(d, tile, c);
    hide CoordinatesOf, TileAt, InShape, ColumnCount, ColumnOffset, ElementAt, Holds, Target.Valid;
    if InRanges(RangesOf(d, tile), x) {
      var i :| 0 <= i < |RangesOf(d, tile)| && RangesOf(d, tile)[i] <= x < RangesOf(d, tile)[i] + 128;
      RangeHolds(d, c, i, x);
    }
    if HasElement(d, tile, x) {
      var row: nat, column: nat, channel: nat, sample: nat :|
        Holds(d, tile, row, column, channel, sample) && x == ElementAt(d, row, column, channel, sample);
      HeldInRange(d, c, row, column, channel, sample);
      assert RangesOf(d, tile)[column % d.tileColumns] == ColumnOffset(d, c, column % d.tileColumns);
    }
  }

  /** The signed 32-bit product and sum checks of the source. */
  function Product(a: nat, b: nat): Option<nat> {
    if a > I32_MAX || a * b > I32_MAX then None else Some(a * b)
  }

  function Sum(a: nat, b: nat): Option<nat> {
    if a + b > I32_MAX then None else Some(a + b)
  }

  predicate Fits(d: Target, c: Coordinates, i: nat, tail: nat) {
    ColumnOffset(d, c, i) + tail <= I32_MAX
  }

  /** One column of the main launch: strides applied to the column's own index. */
  method MainColumn(d: Target, c: Coordinates, i: nat) returns (r: Option<nat>)
    requires d.Valid() && InShape(d, c) && c.jt * d.tileColumns + i < d.outputColumns
    ensures r == if Fits(d, c, i, 128) then Some(ColumnOffset(d, c, i)) else None
  {
    var a := Product(c.jt * d.tileColumns + i, d.s0);
    var b := Product(c.channel, d.s1);
    var e := Product(c.sample, d.s2);
    if a.None? || b.None? || e.None? { return None; }
    if a.value + b.value + e.value > I32_MAX { return None; }
    var first := Sum(a.value + b.value + e.value, c.it * 128);
    if first.None? || Sum(first.value, 128).None? { return None; }
    r := first;
  }

  /** Every element of the tile, and `more` elements after it, keep a signed 32-bit offset. */
  ghost predicate Addressable(d: Target, tile: nat, more: nat)
    requires d.tileColumns > 0
  {
    forall x: nat :: HasElement(d, tile, x) ==> x + more <= I32_MAX
  }

  function LastColumn(d: Target, jt: nat): nat {
    if ColumnCount(d, jt) == 0 then 0 else ColumnCount(d, jt) - 1
  }

  /** The check of a tile's last column is the check of all its elements. */
  lemma FitsExact(d: Target, tile: nat, more: nat)
    requires d.Valid() && d.tilesX > 0 && tile < d.tilesY * d.samples * d.channels * d.tilesX
    ensures var c := CoordinatesOf(d, tile);
            Fits(d, c, LastColumn(d, c.jt), 127 + more) <==> Addressable(d, tile, more)
  {
    var c := CoordinatesOf(d, tile);
    CoordinatesBijective(d, tile, c);
    TileHasColumn(d, c);
    hide CoordinatesOf, TileAt, InShape, ColumnCount, ColumnOffset, HasElement, Target.Valid;
    var offsets, last := RangesOf(d, tile), ColumnCount(d, c.jt) - 1;
    if Fits(d, c, last, 127 + more) {
      forall x: nat | HasElement(d, tile, x) ensures x + more <= I32_MAX {
        RangesExact(d, tile, x);
        var i :| 0 <= i < |offsets| && offsets[i] <= x < offsets[i] + 128;
        OffsetsIncrease(d, c, i, last);
      }
    }
    if Addressable(d, tile, more) {
      RangeHolds(d, c, last, ColumnOffset(d, c, last) + 127);
    }
  }

  lemma CountBelow(d: Target, jt: nat, i: nat)
    requires i < ColumnCount(d, jt)
    ensures jt * d.tileColumns + i < d.outputColumns
  {
  }

  lemma LaterColumnFits(d: Target, c: Coordinates, i: nat, j: nat, tail: nat)
    requires i <= j && Fits(d, c, j, tail)
    ensures Fits(d, c, i, tail)
  {
    OffsetsIncrease(d, c, i, j);
  }

  /** Every tile of the shape has a column inside the output. */
  lemma TileHasColumn(d: Target, c: Coordinates)
    requires d.Valid() && InShape(d, c)
    ensures c.jt * d.tileColumns < d.outputColumns && ColumnCount(d, c.jt) > 0
  {
    DivSpan(d.outputColumns + d.tileColumns - 1, d.tileColumns, d.tilesX);
    MulMonotone(d.tileColumns, c.jt + 1, d.tilesX);
  }

  lemma OutputExact(d: Target, c: Coordinates, more: nat)
    requires d.Valid() && InShape(d, c)
    ensures ColumnCount(d, c.jt) > 0
    ensures Fits(d, c, ColumnCount(d, c.jt) - 1, 127 + more) <==> Addressable(d, TileAt(d, c), more)
    ensures forall x: nat ::
              InRanges(TileOffsets(d, c, ColumnCount(d, c.jt)), x) <==> HasElement(d, TileAt(d, c), x)
  {
    CoordinatesRoundTrip(d, c);
    TileHasColumn(d, c);
    CoordinatesBijective(d, TileAt(d, c), c);
    hide TileAt, CoordinatesOf, ColumnCount, ColumnOffset, Fits, Addressable, HasElement, InRanges, TileOffsets;
    FitsExact(d, TileAt(d, c), more);
    forall x: nat ensures InRanges(RangesOf(d, TileAt(d, c)), x) <==> HasElement(d, TileAt(d, c), x) {
      RangesExact(d, TileAt(d, c), x);
    }
  }

  /** The destination ranges of the main function: `output` in mmq_stream_k. */
  method MainOutput(d: Target, c: Coordinates) returns (r: Option<seq<nat>>)
    requires d.Valid() && InShape(d, c)
    ensures ColumnCount(d, c.jt) > 0
    ensures r == if Fits(d, c, ColumnCount(d, c.jt) - 1, 128)
                 then Some(TileOffsets(d, c, ColumnCount(d, c.jt))) else None
    ensures r.Some? <==> Addressable(d, TileAt(d, c), 1)
    ensures r.Some? ==> forall x: nat :: InRanges(r.value, x) <==> HasElement(d, TileAt(d, c), x)
  {
    hide ColumnCount, ColumnOffset, Fits, Target.Valid;
    TileHasColumn(d, c);
    OutputExact(d, c, 1);
    var count := ColumnCount(d, c.jt);
    var offsets: seq<nat> := [];
    for i := 0 to count
      invariant offsets == TileOffsets(d, c, i)
      invariant i > 0 ==> Fits(d, c, i - 1, 128)
    {
      CountBelow(d, c.jt, i);
      var first := MainColumn(d, c, i);
      if first.None? {
        if Fits(d, c, count - 1, 128) { LaterColumnFits(d, c, i, count - 1, 128); }
        return None;
      }
      offsets := offsets + [first.value];
    }
    r := Some(offsets);
  }

  /** The tile's own offset, computed once by mmq_stream_k_fixup. */
  method FixupBase(d: Target, c: Coordinates) returns (r: Option<nat>)
    requires d.Valid() && InShape(d, c) && c.jt * d.tileColumns <= I32_MAX
    ensures r == if ColumnOffset(d, c, 0) <= I32_MAX then Some(ColumnOffset(d, c, 0)) else None
  {
    var a := Product(c.sample, d.s2);
    var b := Product(c.channel, d.s1);
    var e := Product(c.jt * d.tileColumns, d.s0);
    if a.None? || b.None? || e.None? { return None; }
    r := Sum(a.value + b.value + e.value, c.it * 128);
  }

  lemma FromBase(d: Target, c: Coordinates, i: nat)
    ensures ColumnOffset(d, c, i) == ColumnOffset(d, c, 0) + i * d.s0
  {
  }

  /** The destination ranges of the separate fixup function, column by column from the
      tile's offset. */
  method FixupOutput(d: Target, c: Coordinates) returns (r: Option<seq<nat>>)
    requires d.Valid() && InShape(d, c)
    ensures ColumnCount(d, c.jt) > 0
    ensures r == if Fits(d, c, ColumnCount(d, c.jt) - 1, 127)
                 then Some(TileOffsets(d, c, ColumnCount(d, c.jt))) else None
    ensures r.Some? <==> Addressable(d, TileAt(d, c), 0)
    ensures r.Some? ==> forall x: nat :: InRanges(r.value, x) <==> HasElement(d, TileAt(d, c), x)
  {
    TileHasColumn(d, c);
    OutputExact(d, c, 0);
    var count := ColumnCount(d, c.jt);
    OffsetsIncrease(d, c, 0, count - 1);
    var base := FixupBase(d, c);
    if base.None? { return None; }
    var offsets: seq<nat> := [];
    for i := 0 to count
      invariant offsets == TileOffsets(d, c, i)
      invariant i > 0 ==> Fits(d, c, i - 1, 127)
    {
      FromBase(d, c, i);
      OffsetsIncrease(d, c, i, count - 1);
      var step := Product(i, d.s0);
      if step.None? { return None; }
      var first := Sum(base.value, step.value);
      if first.None? || Sum(first.value, 127).None? { return None; }
      offsets := offsets + [first.value];
    }
    r := Some(offsets);
  }

  /** Whatever the main function accepts the fixup function accepts with the same ranges; the
      two differ exactly on a tile whose last 128 elements end one below the signed limit. */
  lemma OutputsAgree(d: Target, c: Coordinates)
    requires d.Valid() && InShape(d, c)
    ensures var last := ColumnCount(d, c.jt) - 1;
            && last >= 0
            && (Fits(d, c, last, 128) ==> Fits(d, c, last, 127))
            && (Fits(d, c, last, 128) != Fits(d, c, last, 127) <==> ColumnOffset(d, c, last) + 127 == I32_MAX)
  {
    TileHasColumn(d, c);
  }

  /** The two checks really differ: here the last 128 elements end one below the limit. */
  lemma OutputsDiffer()
    ensures var d, c := Target(128, 1, 1, 2, 1, 1, 128, 0x7fff_ff80, 0), Coordinates(0, 0, 1, 0);
            d.Valid() && InShape(d, c) && ColumnCount(d, 0) == 1 && Fits(d, c, 0, 127) && !Fits(d, c, 0, 128)
  {
  }

  // ---- whole launches ----

  /** The grid cuts the tiles of the destination. */
  predicate Cuts(g: Grid, d: Target) {
    g.Valid() && d.Valid() && d.tilesX > 0 && g.tiles == d.tilesY * d.samples * d.channels * d.tilesX
  }

  /** What one fixup block reads of the scratch, and the destination ranges it reads and writes. */
  datatype Effect = Effect(block: nat, slots: seq<nat>, offsets: seq<nat>)

  function TileOf(g: Grid, d: Target, b: nat): Coordinates
    requires Cuts(g, d)
  {
    CoordinatesOf(d, TileIn(g, Start(g, b)))
  }

  function EffectOf(g: Grid, d: Target, b: nat): Effect
    requires Cuts(g, d)
  {
    var c := TileOf(g, d, b);
    Effect(b, SlotsOf(g, TileIn(g, Start(g, b)), b - 1), TileOffsets(d, c, ColumnCount(d, c.jt)))
  }

  predicate BlockFits(g: Grid, d: Target, b: nat, tail: nat)
    requires Cuts(g, d)
  {
    var c := TileOf(g, d, b);
    Fits(d, c, LastColumn(d, c.jt), tail)
  }

  /** The effects of blocks 0..n, or a refusal. */
  function Launch(g: Grid, d: Target, n: nat, tail: nat): Option<seq<Effect>>
    requires Cuts(g, d)
  {
    if n == 0 then Some([])
    else
      var before := Launch(g, d, n - 1, tail);
      if before.None? || !Finishes(g, n - 1) then before
      else if BlockFits(g, d, n - 1, tail) then Some(before.value + [EffectOf(g, d, n - 1)])
      else None
  }

  /** A finishing block's tile lies in the shape, so the shape check refuses no launch. */
  lemma FinisherInShape(g: Grid, d: Target, b: nat)
    requires Cuts(g, d) && Finishes(g, b)
    ensures InShape(d, TileOf(g, d, b)) && LastColumn(d, TileOf(g, d, b).jt) == ColumnCount(d, TileOf(g, d, b).jt) - 1
  {
    hide Start, TileIn, InShape, CoordinatesOf, ColumnCount, Finishes, Target.Valid;
    StreamKMemory.FinishedInRange(g, b);
    TileInShape(d, TileIn(g, Start(g, b)));
    TileHasColumn(d, TileOf(g, d, b));
  }

  function Finishers(g: Grid, n: nat): seq<nat>
    requires g.Valid()
  {
    if n == 0 then [] else Finishers(g, n - 1) + if Finishes(g, n - 1) then [n - 1] else []
  }

  /** Every element of every tile that one of the blocks finishes keeps a signed 32-bit offset. */
  ghost predicate AllAddressable(g: Grid, d: Target, n: nat, more: nat)
    requires Cuts(g, d)
  {
    forall b: nat :: b < n && Finishes(g, b) ==> Addressable(d, TileIn(g, Start(g, b)), more)
  }

  /** The effect reads the slots left for the tile that its block finishes, and touches exactly
      the elements of that tile. */
  ghost predicate Serves(g: Grid, d: Target, e: Effect)
    requires Cuts(g, d)
  {
    && e.slots == SlotsOf(g, TileIn(g, Start(g, e.block)), e.block - 1)
    && forall x: nat :: InRanges(e.offsets, x) <==> HasElement(d, TileIn(g, Start(g, e.block)), x)
  }

  ghost predicate ServesAll(g: Grid, d: Target, effects: seq<Effect>, blocks: seq<nat>)
    requires Cuts(g, d)
  {
    && |effects| == |blocks|
    && forall i :: 0 <= i < |effects| ==> effects[i].block == blocks[i] && Serves(g, d, effects[i])
  }

  lemma EffectServes(g: Grid, d: Target, b: nat, more: nat)
    requires Cuts(g, d) && Finishes(g, b)
    ensures Serves(g, d, EffectOf(g, d, b))
    ensures BlockFits(g, d, b, 127 + more) <==> Addressable(d, TileIn(g, Start(g, b)), more)
  {
    hide Start, TileIn, InShape, CoordinatesOf, ColumnCount, Finishes, Target.Valid, SlotsOf, Fits, Addressable,
         HasElement, InRanges, TileOffsets;
    CutsParts(g, d);
    StreamKMemory.FinishedInRange(g, b);
    var tile := TileIn(g, Start(g, b));
    FitsExact(d, tile, more);
    forall x: nat ensures InRanges(RangesOf(d, tile), x) <==> HasElement(d, tile, x) {
      RangesExact(d, tile, x);
    }
  }

  /** A launch is accepted exactly when all elements of the finished tiles are addressable, and
      then has one effect for each finishing block, on exactly the elements of its tile. */
  lemma {:induction false} LaunchExact(g: Grid, d: Target, n: nat, more: nat)
    requires Cuts(g, d)
    ensures Launch(g, d, n, 127 + more).Some? <==> AllAddressable(g, d, n, more)
    ensures Launch(g, d, n, 127 + more).Some? ==>
              ServesAll(g, d, Launch(g, d, n, 127 + more).value, Finishers(g, n))
  {
    hide Start, Cuts, Finishes, EffectOf, BlockFits, Serves, Addressable;
    CutsParts(g, d);
    if n > 0 {
      LaunchExact(g, d, n - 1, more);
      AddressableSplits(g, d, n - 1, more);
      if Finishes(g, n - 1) {
        EffectServes(g, d, n - 1, more);
        assert EffectOf(g, d, n - 1).block == n - 1 by { EffectBlock(g, d, n - 1); }
      }
    }
  }

  lemma EffectBlock(g: Grid, d: Target, b: nat)
    requires Cuts(g, d)
    ensures EffectOf(g, d, b).block == b
  {
  }

  lemma AddressableSplits(g: Grid, d: Target, b: nat, more: nat)
    requires Cuts(g, d)
    ensures AllAddressable(g, d, b + 1, more) <==>
            AllAddressable(g, d, b, more) && (Finishes(g, b) ==> Addressable(d, TileIn(g, Start(g, b)), more))
  {
    hide Cuts, Finishes, Addressable, Start, TileIn;
  }

  lemma {:induction false} RefusalStays(g: Grid, d: Target, n: nat, m: nat, tail: nat)
    requires Cuts(g, d) && n <= m && Launch(g, d, n, tail).None?
    ensures Launch(g, d, m, tail).None?
  {
    if n < m { RefusalStays(g, d, n, m - 1, tail); }
  }

  /** The fixup stage of mmq_stream_k. */
  method MainFixupLaunch(g: Grid, d: Target) returns (r: Option<seq<Effect>>)
    requires Cuts(g, d)
    ensures r == Launch(g, d, g.blocks, 128)
    ensures r.Some? <==> AllAddressable(g, d, g.blocks, 1)
    ensures r.Some? ==> ServesAll(g, d, r.value, Finishers(g, g.blocks))
  {
    hide Start, Cuts, InShape, Fits, ColumnCount, TileIn, Aligned, TileOffsets, CoordinatesOf, Addressable, HasElement,
         InRanges, Serves, ServesAll, AllAddressable;
    LaunchExact(g, d, g.blocks, 1);
    var effects: seq<Effect> := [];
    for bid := 0 to g.blocks
      invariant Launch(g, d, bid, 128) == Some(effects)
    {
      CutsParts(g, d);
      if Finishes(g, bid) {
        FinisherInShape(g, d, bid);
        var walk := CollectSlots(g, bid);
        var c := TileOf(g, d, bid);
        if !walk.Collected? || !InShape(d, c) { return None; }
        var offsets := MainOutput(d, c);
        if offsets.None? {
          RefusalStays(g, d, bid + 1, g.blocks, 128);
          return None;
        }
        effects := effects + [Effect(bid, walk.slots, offsets.value)];
      }
    }
    r := Some(effects);
  }

  lemma CutsParts(g: Grid, d: Target)
    requires Cuts(g, d)
    ensures g.Valid() && d.Valid() && d.tileColumns > 0
  {
  }

  /** The whole of mmq_stream_k_fixup. */
  method SeparateFixupLaunch(g: Grid, d: Target) returns (r: Option<seq<Effect>>)
    requires Cuts(g, d)
    ensures r == Launch(g, d, g.blocks, 127)
    ensures r.Some? <==> AllAddressable(g, d, g.blocks, 0)
    ensures r.Some? ==> ServesAll(g, d, r.value, Finishers(g, g.blocks))
  {
    hide Start, Cuts, InShape, Fits, ColumnCount, TileIn, Aligned, TileOffsets, CoordinatesOf, Addressable, HasElement,
         InRanges, Serves, ServesAll, AllAddressable;
    LaunchExact(g, d, g.blocks, 0);
    var effects: seq<Effect> := [];
    for bid := 0 to g.blocks
      invariant Launch(g, d, bid, 127) == Some(effects)
    {
      CutsParts(g, d);
      if Finishes(g, bid) {
        FinisherInShape(g, d, bid);
        var walk := CollectSlots(g, bid);
        var c := TileOf(g, d, bid);
        if !walk.Collected? || !InShape(d, c) { return None; }
        var offsets := FixupOutput(d, c);
        if offsets.None? {
          RefusalStays(g, d, bid + 1, g.blocks, 127);
          return None;
        }
        effects := effects + [Effect(bid, walk.slots, offsets.value)];
      }
    }
    r := Some(effects);
  }

  /** Some block finishes a tile whose last 128 elements end one below the signed limit. */
  ghost predicate AtLimit(g: Grid, d: Target, n: nat)
    requires Cuts(g, d)
  {
    exists b: nat :: b < n && Finishes(g, b) && Touches(g, d, b)
  }

  predicate Touches(g: Grid, d: Target, b: nat)
    requires Cuts(g, d)
  {
    var c := TileOf(g, d, b);
    ColumnOffset(d, c, LastColumn(d, c.jt)) + 127 == I32_MAX
  }

  /** For every grid and destination the two functions read the same slots and touch the same
      ranges wherever the main function accepts, and where the fixup function accepts the main
      function refuses exactly when some finished tile ends at the limit. */
  lemma {:induction false} LaunchesAgree(g: Grid, d: Target, n: nat)
    requires Cuts(g, d)
    ensures Launch(g, d, n, 128).Some? ==> Launch(g, d, n, 127) == Launch(g, d, n, 128)
    ensures Launch(g, d, n, 127).Some? ==> (Launch(g, d, n, 128).None? <==> AtLimit(g, d, n))
  {
    if n > 0 {
      hide Start, Cuts, Finishes, TileOf, EffectOf;
      LaunchesAgree(g, d, n - 1);
      LimitSplits(g, d, n - 1, n);
    }
  }

  lemma LimitSplits(g: Grid, d: Target, b: nat, n: nat)
    requires Cuts(g, d) && n == b + 1
    ensures AtLimit(g, d, n) <==> AtLimit(g, d, b) || (Finishes(g, b) && Touches(g, d, b))
  {
    hide Finishes, Touches, Cuts;
  }
}
