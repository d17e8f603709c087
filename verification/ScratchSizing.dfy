/** The scratch allocation rule of python/xvram/compat_audit_memory.py against the slots
    that the stream-K main stage really writes. */
module ScratchSizing {
  import opened Arithmetic
  import opened StreamK

  const I32_MAX: nat := 0x7fff_ffff
  const U32_MAX: nat := 0xffff_ffff
  const U64_MAX: nat := 0xffff_ffff_ffff_ffff

  datatype Request = Request(rows: nat, columnsMax: nat, channels: nat, samples: nat, columnsX: nat,
                             tileRows: nat, tileColumns: nat, smCount: nat,
                             declaredTiles: nat, declaredBlocks: nat, quantType: nat,
                             streamKEnabled: bool, nvidiaProfile: bool)

  datatype Plan = Plan(tiles: nat, blocks: nat, kBlocks: nat, fixupNeeded: bool, payload: nat)

  datatype Fault = InvalidInteger | UnsupportedShape | OutsideProfile | UnsupportedTile | Overflow
                 | TileCountMismatch | BlocksMismatch | IndexLimit

  datatype Result = Accepted(plan: Plan) | Refused(fault: Fault)

  predicate Dimension(n: nat, maximum: nat) {
    1 <= n <= maximum
  }

  /** The number of blocks the launcher starts. */
  function BlockCount(tiles: nat, smCount: nat): nat
    requires tiles > 0 && smCount > 0
  {
    var waves := CeilDiv(tiles, smCount);
    WavesPositive(tiles, smCount);
    if 100 * tiles / (smCount * waves) >= 90 then tiles else smCount
  }

  lemma WavesPositive(tiles: nat, smCount: nat)
    requires tiles > 0 && smCount > 0
    ensures CeilDiv(tiles, smCount) > 0 && smCount * CeilDiv(tiles, smCount) > 0
  {
    if tiles / smCount == 0 { DivUnique(tiles, smCount, 0, tiles % smCount); }
    MulMonotone(smCount, 1, CeilDiv(tiles, smCount));
  }

  function Accept(r: Request): Result {
    if !(Dimension(r.rows, I32_MAX) && Dimension(r.columnsMax, I32_MAX) && Dimension(r.channels, I32_MAX)
         && Dimension(r.samples, I32_MAX) && Dimension(r.columnsX, I32_MAX) && Dimension(r.tileRows, 4096)
         && Dimension(r.tileColumns, 128) && Dimension(r.smCount, I32_MAX)
         && Dimension(r.declaredTiles, I32_MAX) && Dimension(r.declaredBlocks, U32_MAX))
    then Refused(InvalidInteger)
    else if !(r.quantType == 12 || r.quantType == 14) || r.columnsX % 256 != 0 then Refused(UnsupportedShape)
    else if !r.streamKEnabled || !r.nvidiaProfile then Refused(OutsideProfile)
    else if r.tileRows % 32 != 0 || r.tileColumns % 8 != 0 then Refused(UnsupportedTile)
    else if r.rows + r.tileRows - 1 > I32_MAX || r.columnsMax + r.tileColumns - 1 > I32_MAX then Refused(Overflow)
    else
      var tiles := CeilDiv(r.columnsMax, r.tileColumns) * CeilDiv(r.rows, r.tileRows) * r.channels * r.samples;
      if tiles > I32_MAX then Refused(Overflow)
      else if r.declaredTiles != tiles then Refused(TileCountMismatch)
      else if tiles + r.smCount - 1 > I32_MAX || 100 * tiles > I32_MAX
              || r.smCount * CeilDiv(tiles, r.smCount) > I32_MAX
      then Refused(Overflow)
      else
        var blocks, kBlocks := BlockCount(tiles, r.smCount), r.columnsX / 256;
        if r.declaredBlocks != blocks then Refused(BlocksMismatch)
        else if tiles * kBlocks > U64_MAX then Refused(Overflow)
        else if tiles * kBlocks >= 0x4000_0000 then Refused(IndexLimit)
        else
          var fixupNeeded := tiles % blocks != 0;
          var elements := if fixupNeeded then blocks * r.tileRows * r.tileColumns else 0;
          if elements > I32_MAX then Refused(Overflow)
          else Accepted(Plan(tiles, blocks, kBlocks, fixupNeeded, elements * 4))
  }

  /** c is the least number of pieces of size d that cover n. */
  predicate Covers(n: nat, d: nat, c: nat) {
    c > 0 && (c - 1) * d < n <= c * d
  }

  lemma CoversExact(n: nat, d: nat, c: nat)
    requires n > 0 && d > 0
    ensures Covers(n, d, c) <==> c == CeilDiv(n, d)
  {
    CeilAbove(n, d, c);
    CeilAbove(n, d, 0);
    if c > 0 { CeilAbove(n, d, c - 1); }
  }

  /** The launcher starts a block for each tile when the waves of tiles fill at least nine tenths
      of the multiprocessors' places, and otherwise one for each multiprocessor. */
  lemma BlockCountExact(tiles: nat, smCount: nat, waves: nat)
    requires tiles > 0 && smCount > 0 && Covers(tiles, smCount, waves)
    ensures BlockCount(tiles, smCount) == if 10 * tiles >= 9 * (smCount * waves) then tiles else smCount
  {
    CoversExact(tiles, smCount, waves);
    WavesPositive(tiles, smCount);
    QuotientAtLeast(100 * tiles, smCount * waves, 90);
  }

  lemma QuotientAtLeast(n: nat, d: nat, q: nat)
    requires d > 0
    ensures n / d >= q <==> n >= q * d
  {
    DivSpan(n, d, n / d);
    if n / d >= q { MulMonotone(d, q, n / d); } else { MulMonotone(d, n / d + 1, q); }
  }

  /** What an accepted plan says: as many tiles as cover the output in every channel and sample,
      the launcher's blocks, and room for one tile of floats a block when the blocks do not
      divide the tiles. */
  predicate Fits(r: Request, p: Plan, across: nat, down: nat, waves: nat) {
    && Covers(r.columnsMax, r.tileColumns, across) && Covers(r.rows, r.tileRows, down)
    && p.tiles == across * down * r.channels * r.samples && Covers(p.tiles, r.smCount, waves)
    && p.blocks == (if 10 * p.tiles >= 9 * (r.smCount * waves) then p.tiles else r.smCount)
    && r.columnsX == 256 * p.kBlocks && p.fixupNeeded == (p.blocks != 0 && p.tiles % p.blocks != 0)
    && p.payload == (if p.fixupNeeded then 4 * (p.blocks * r.tileRows * r.tileColumns) else 0)
    && r.declaredTiles == p.tiles && r.declaredBlocks == p.blocks
  }

  /** The profile and the limits of signed and unsigned words that the rule checks. */
  predicate WithinLimits(r: Request, p: Plan, waves: nat) {
    && 1 <= r.rows && 1 <= r.columnsMax && 1 <= r.channels <= I32_MAX && 1 <= r.samples <= I32_MAX
    && 1 <= r.columnsX <= I32_MAX && 1 <= r.tileRows <= 4096 && 1 <= r.tileColumns <= 128
    && 1 <= r.smCount <= I32_MAX && r.declaredBlocks <= U32_MAX
    && r.rows + r.tileRows - 1 <= I32_MAX && r.columnsMax + r.tileColumns - 1 <= I32_MAX
    && (r.quantType == 12 || r.quantType == 14) && r.streamKEnabled && r.nvidiaProfile
    && r.tileRows % 32 == 0 && r.tileColumns % 8 == 0
    && p.tiles + r.smCount - 1 <= I32_MAX && 100 * p.tiles <= I32_MAX && r.smCount * waves <= I32_MAX
    && p.tiles * p.kBlocks < 0x4000_0000
    && (p.fixupNeeded ==> p.blocks * r.tileRows * r.tileColumns <= I32_MAX)
  }

  lemma AcceptedFits(r: Request)
    requires Accept(r).Accepted?
    ensures var p := Accept(r).plan;
            var across, down := CeilDiv(r.columnsMax, r.tileColumns), CeilDiv(r.rows, r.tileRows);
            p.tiles > 0 && Fits(r, p, across, down, CeilDiv(p.tiles, r.smCount))
            && WithinLimits(r, p, CeilDiv(p.tiles, r.smCount))
  {
    var p := Accept(r).plan;
    var across, down := CeilDiv(r.columnsMax, r.tileColumns), CeilDiv(r.rows, r.tileRows);
    hide CeilDiv, BlockCount, Covers;
    CoversExact(r.columnsMax, r.tileColumns, across);
    CoversExact(r.rows, r.tileRows, down);
    CoversExact(p.tiles, r.smCount, CeilDiv(p.tiles, r.smCount));
    BlockCountExact(p.tiles, r.smCount, CeilDiv(p.tiles, r.smCount));
  }

  lemma FitsAccepted(r: Request, p: Plan, across: nat, down: nat, waves: nat)
    requires Fits(r, p, across, down, waves) && WithinLimits(r, p, waves)
    ensures Accept(r) == Accepted(p)
  {
    CoversPositive(r.columnsMax, r.tileColumns, across);
    CoversPositive(r.rows, r.tileRows, down);
    CoversPositive(p.tiles, r.smCount, waves);
    hide CeilDiv, BlockCount, Covers;
    CoversExact(r.columnsMax, r.tileColumns, across);
    CoversExact(r.rows, r.tileRows, down);
    CoversExact(p.tiles, r.smCount, waves);
    BlockCountExact(p.tiles, r.smCount, waves);
    SmallProduct(p.tiles * p.kBlocks);
  }

  lemma CoversPositive(n: nat, d: nat, c: nat)
    requires Covers(n, d, c)
    ensures n > 0 && c > 0
  {
    MulMonotone(d, 0, c - 1);
  }

  lemma SmallProduct(n: nat)
    ensures n < 0x4000_0000 ==> n <= U64_MAX
  {
  }

  /** A request is accepted with a plan exactly when the plan fits it and the limits hold. */
  lemma AcceptExact(r: Request, p: Plan)
    ensures Accept(r) == Accepted(p) <==>
            exists across: nat, down: nat, waves: nat ::
              Fits(r, p, across, down, waves) && WithinLimits(r, p, waves)
  {
    hide Accept, Fits, WithinLimits, CeilDiv;
    if Accept(r) == Accepted(p) { AcceptedFits(r); }
    if across: nat, down: nat, waves: nat :| Fits(r, p, across, down, waves) && WithinLimits(r, p, waves) {
      FitsAccepted(r, p, across, down, waves);
    }
  }

  // ---- when the main stage writes a slot ----

  ghost predicate WritesSlot(g: Grid)
    requires g.Valid()
  {
    exists b: nat :: Partial(g, b)
  }

  /** If the blocks divide the tiles, every block stops at a tile boundary. */
  lemma EvenSplitAligned(g: Grid, i: nat)
    requires g.Valid() && g.tiles % g.blocks == 0
    ensures Aligned(g, Start(g, i))
  {
    var q := g.tiles / g.blocks;
    assert g.tiles == q * g.blocks;
    assert i * g.Total() == i * (q * g.blocks * g.k) == (i * q * g.k) * g.blocks;
    DivUnique(i * g.Total(), g.blocks, i * q * g.k, 0);
    DivUnique(i * q * g.k, g.k, i * q, 0);
  }

  lemma SingleUnitAligned(g: Grid, u: nat)
    requires g.Valid() && g.k == 1
    ensures Aligned(g, u)
  {
  }

  /** A multiple of r between half of n and n. */
  lemma HalfwayMultiple(n: nat, r: nat) returns (i: nat)
    requires 0 < r < n
    ensures 0 < i < n && i * r < n <= 2 * (i * r)
  {
    i := 1;
    while 2 * (i * r) < n
      invariant 0 < i && (i == 1 || 2 * ((i - 1) * r) < n) && i * r < n
      decreases n - i * r
    {
      assert (i + 1) * r == i * r + r;
      i := i + 1;
    }
    MulMonotone(i, 1, r);
  }

  lemma RemainderStart(g: Grid, i: nat)
    requires g.Valid() && 0 < i && g.k >= 2
    requires i * (g.tiles % g.blocks) < g.blocks <= 2 * (i * (g.tiles % g.blocks))
    ensures !Aligned(g, Start(g, i))
  {
    var n, q, r := g.blocks, g.tiles / g.blocks, g.tiles % g.blocks;
    StartSplits(g, i, q, r);
    TwiceBelow(i * r, g.k, n);
    BelowMultiple(i * r, g.k, n);
    DivUnique(Start(g, i), g.k, i * q, i * r * g.k / n);
  }

  /** Whole tiles first, then the share of the tiles left over. */
  lemma StartSplits(g: Grid, i: nat, q: nat, r: nat)
    requires g.Valid() && q == g.tiles / g.blocks && r == g.tiles % g.blocks
    ensures Start(g, i) == i * q * g.k + i * r * g.k / g.blocks
  {
    assert g.tiles == q * g.blocks + r;
    SplitProduct(i, q, g.blocks, r, g.k);
    QuotientOfSum(i * q * g.k, i * r * g.k, g.blocks);
  }

  lemma SplitProduct(i: nat, q: nat, n: nat, r: nat, k: nat)
    ensures i * ((q * n + r) * k) == i * q * k * n + i * r * k
  {
    assert (q * n + r) * k == q * n * k + r * k;
    assert i * (q * n * k) == i * q * k * n;
    assert i * (r * k) == i * r * k;
  }

  lemma TwiceBelow(s: nat, k: nat, n: nat)
    requires n <= 2 * s && k >= 2
    ensures n <= s * k
  {
    MulMonotone(s, 2, k);
  }

  lemma QuotientOfSum(a: nat, x: nat, n: nat)
    requires n > 0
    ensures (a * n + x) / n == a + x / n
  {
    DivUnique(a * n + x, n, a + x / n, x % n);
  }

  lemma BelowMultiple(s: nat, k: nat, n: nat)
    requires n > 0 && s < n && n <= s * k
    ensures 0 < s * k / n < k
  {
    assert s * k / n > 0;
    MulMonotone(k, s + 1, n);
    if s * k / n >= k { MulMonotone(n, k, s * k / n); }
  }

  lemma {:induction false} UnalignedStartMeansPartial(g: Grid, i: nat) returns (b: nat)
    requires g.Valid() && i <= g.blocks && !Aligned(g, Start(g, i))
    ensures Partial(g, b)
  {
    hide Start, Aligned;
    if i == 0 {
      BoundaryOfTotal(g);
      ZeroAligned(g);
      assert false;
    }
    StartMonotone(g, i - 1, i);
    if Start(g, i - 1) < Start(g, i) { b := i - 1; } else { b := UnalignedStartMeansPartial(g, i - 1); }
  }

  lemma ZeroAligned(g: Grid)
    requires g.Valid()
    ensures Aligned(g, 0)
  {
  }

  /** Slots are written exactly when the blocks do not divide the tiles and a tile has more
      than one unit to split. */
  lemma SlotsWrittenExactly(g: Grid)
    requires g.Valid()
    ensures WritesSlot(g) <==> g.k >= 2 && g.tiles % g.blocks != 0
  {
    hide Start, Aligned;
    if WritesSlot(g) {
      var b: nat :| Partial(g, b);
      if g.tiles % g.blocks == 0 { EvenSplitAligned(g, b + 1); }
      if g.k == 1 { SingleUnitAligned(g, Start(g, b + 1)); }
    }
    if g.k >= 2 && g.tiles % g.blocks != 0 {
      var i := HalfwayMultiple(g.blocks, g.tiles % g.blocks);
      RemainderStart(g, i);
      var b := UnalignedStartMeansPartial(g, i);
    }
  }

  /** An accepted plan reserves room for every slot the main stage writes, and only a
      single-unit tile makes it reserve room that no block uses. */
  lemma ScratchAdequate(r: Request, b: nat)
    requires Accept(r).Accepted?
    ensures var p := Accept(r).plan;
            var g := Grid(p.tiles, p.kBlocks, p.blocks);
            && g.Valid()
            && (WritesSlot(g) <==> p.fixupNeeded && p.kBlocks >= 2)
            && (r.tileRows == 128 && Partial(g, b) ==>
                  p.fixupNeeded && (b + 1) * (r.tileColumns * 128 * 4) <= p.payload)
  {
    PlanFacts(r);
    var p := Accept(r).plan;
    var g := Grid(p.tiles, p.kBlocks, p.blocks);
    hide Accept, Start, Aligned, Partial;
    SlotsWrittenExactly(g);
    if r.tileRows == 128 && Partial(g, b) {
      PartialBelow(g, b);
      SlotInPayload(b, p.blocks, r.tileColumns);
    }
  }

  lemma PartialBelow(g: Grid, b: nat)
    requires g.Valid() && Partial(g, b)
    ensures b < g.blocks && WritesSlot(g)
  {
  }

  lemma SlotInPayload(b: nat, blocks: nat, columns: nat)
    requires b < blocks
    ensures (b + 1) * (columns * 128 * 4) <= blocks * 128 * columns * 4
  {
    MulMonotone(columns * 128 * 4, b + 1, blocks);
    assert blocks * 128 * columns * 4 == (columns * 128 * 4) * blocks;
  }

  lemma PlanFacts(r: Request)
    requires Accept(r).Accepted?
    ensures var p := Accept(r).plan;
            && p.blocks > 0 && p.kBlocks > 0
            && (p.fixupNeeded <==> p.tiles % p.blocks != 0)
            && p.payload == if p.fixupNeeded then p.blocks * r.tileRows * r.tileColumns * 4 else 0
  {
    assert r.columnsX >= 256;
  }

  /** The reservation can be idle: single-unit tiles whose number the blocks do not divide. */
  lemma ReservedButUnused()
    ensures Accept(Request(128, 1, 3, 1, 256, 128, 128, 2, 3, 2, 12, true, true)) ==
            Accepted(Plan(3, 2, 1, true, 131072))
    ensures !WritesSlot(Grid(3, 1, 2))
  {
    SlotsWrittenExactly(Grid(3, 1, 2));
  }
}
