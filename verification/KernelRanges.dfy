/** Three source rules of python/xvram/compat_audit_kernel_ranges.py that replace an
    enumeration by something shorter: the segment walk of a strided copy, the block-
    transposed layout of a quantizer, and the analytic ranges of a single-output matvec. */
module KernelRanges {
  import opened Arithmetic
  import opened Options
  import opened Intervals

  const I32_MAX: nat := 0x7fff_ffff
  const I64_MAX: nat := 0x7fff_ffff_ffff_ffff

  // ---- copy_f32 ----

  datatype Layout = Layout(n0: nat, n1: nat, n2: nat, n3: nat, s1: nat, s2: nat, s3: nat) {
    predicate Valid() {
      n0 > 0 && n1 > 0 && n2 > 0 && n3 > 0
    }

    function Elements(): nat {
      n0 * (n1 * n2 * n3)
    }
  }

  datatype Index = Index(i0: nat, i1: nat, i2: nat, i3: nat)

  /** The coordinates of a linear element number, innermost axis first. */
  function Unravel(l: Layout, e: nat): Index
    requires l.Valid()
  {
    var r: nat := e / l.n0;
    var q: nat := r / l.n1;
    Index(e % l.n0, r % l.n1, q % l.n2, q / l.n2)
  }

  /** The byte address of a coordinate; the innermost stride is four bytes. */
  function AddressAt(l: Layout, i: Index): nat {
    i.i0 * 4 + i.i1 * l.s1 + i.i2 * l.s2 + i.i3 * l.s3
  }

  function Address(l: Layout, e: nat): nat
    requires l.Valid()
  {
    AddressAt(l, Unravel(l, e))
  }

  /** Element i0 of row i1 of plane i2 of volume i3 lies at its strides from the start, and each
      element number belongs to one such place. */
  lemma AddressExact(l: Layout, i: Index)
    requires l.Valid() && i.i0 < l.n0 && i.i1 < l.n1 && i.i2 < l.n2
    ensures Address(l, i.i0 + l.n0 * (i.i1 + l.n1 * (i.i2 + l.n2 * i.i3)))
            == 4 * i.i0 + i.i1 * l.s1 + i.i2 * l.s2 + i.i3 * l.s3
  {
    var q := i.i2 + l.n2 * i.i3;
    var r := i.i1 + l.n1 * q;
    DivUnique(i.i0 + l.n0 * r, l.n0, r, i.i0);
    DivUnique(r, l.n1, q, i.i1);
    DivUnique(q, l.n2, i.i3, i.i2);
  }

  lemma UnravelExact(l: Layout, e: nat)
    requires l.Valid() && e < l.Elements()
    ensures var i := Unravel(l, e);
            && i.i0 < l.n0 && i.i1 < l.n1 && i.i2 < l.n2 && i.i3 < l.n3
            && e == i.i0 + l.n0 * (i.i1 + l.n1 * (i.i2 + l.n2 * i.i3))
  {
    var r: nat := e / l.n0;
    var q: nat := r / l.n1;
    Regroup(l.n1, l.n2, l.n3);
    Below(e, l.n0, l.n1 * (l.n2 * l.n3));
    Below(r, l.n1, l.n2 * l.n3);
    Below(q, l.n2, l.n3);
  }

  lemma Regroup(a: nat, b: nat, c: nat)
    ensures a * b * c == a * (b * c)
  {
  }

  lemma Below(n: nat, d: nat, limit: nat)
    requires d > 0 && n < d * limit
    ensures n / d < limit && n % d < d && n == n % d + d * (n / d)
  {
    if limit <= n / d { MulMonotone(d, limit, n / d); }
    Remainder(n, d);
  }

  /** What is left of the innermost row at element e. */
  function RowRest(l: Layout, e: nat): nat
    requires l.Valid()
  {
    l.n0 - e % l.n0
  }

  lemma WithinRow(l: Layout, e: nat, j: nat)
    requires l.Valid() && j < RowRest(l, e)
    ensures Address(l, e + j) == Address(l, e) + 4 * j
  {
    DivUnique(e + j, l.n0, e / l.n0, e % l.n0 + j);
  }

  /** A row ends inside the tensor, so the walk never overshoots. */
  lemma RowRestInside(l: Layout, e: nat)
    requires l.Valid() && e < l.Elements()
    ensures 0 < RowRest(l, e) && e + RowRest(l, e) <= l.Elements()
  {
    var rows := l.n1 * l.n2 * l.n3;
    DivSpan(e, l.n0, e / l.n0);
    if e / l.n0 + 1 > rows { MulMonotone(l.n0, rows, e / l.n0); }
    MulMonotone(l.n0, e / l.n0 + 1, rows);
    assert e == l.n0 * (e / l.n0) + e % l.n0;
  }

  /** A run of `count` consecutive four-byte cells on both sides. */
  datatype Run = Run(source: nat, target: nat, count: nat)

  datatype Cell = Cell(source: nat, target: nat)

  function Cells(r: Run, n: nat): seq<Cell> {
    seq(n, j requires 0 <= j < n => Cell(r.source + 4 * j, r.target + 4 * j))
  }

  /** The cells of all runs, in order. */
  function AllCells(runs: seq<Run>): seq<Cell> {
    if runs == [] then [] else AllCells(runs[..|runs| - 1]) + Cells(runs[|runs| - 1], runs[|runs| - 1].count)
  }

  /** The per-element copy: element e reads and writes one cell. */
  function ElementCells(source: Layout, target: Layout, n: nat): seq<Cell>
    requires source.Valid() && target.Valid()
  {
    seq(n, e requires 0 <= e < n => Cell(Address(source, e), Address(target, e)))
  }

  lemma RunIsElements(source: Layout, target: Layout, cursor: nat, count: nat)
    requires source.Valid() && target.Valid()
    requires count <= RowRest(source, cursor) && count <= RowRest(target, cursor)
    ensures ElementCells(source, target, cursor)
              + Cells(Run(Address(source, cursor), Address(target, cursor), count), count)
            == ElementCells(source, target, cursor + count)
  {
    hide Address;
    var run := Run(Address(source, cursor), Address(target, cursor), count);
    var left := ElementCells(source, target, cursor) + Cells(run, count);
    var right := ElementCells(source, target, cursor + count);
    forall i | 0 <= i < cursor + count ensures left[i] == right[i] {
      if i >= cursor {
        WithinRow(source, cursor, i - cursor);
        WithinRow(target, cursor, i - cursor);
      }
    }
  }

  /** Some element's cell ends beyond the signed 64-bit range. */
  ghost predicate CellOverflows(l: Layout, n: nat)
    requires l.Valid()
  {
    exists e: nat :: e < n && Address(l, e) + 4 > I64_MAX
  }

  /** The run check looks at the run's end, which is its last cell's end. */
  lemma RunOverflow(l: Layout, cursor: nat, count: nat)
    requires l.Valid() && 0 < count <= RowRest(l, cursor)
    ensures CellOverflows(l, cursor + count) <==>
            CellOverflows(l, cursor) || Address(l, cursor) + 4 * count > I64_MAX
  {
    hide Address;
    WithinRow(l, cursor, count - 1);
    if e: nat :| e < cursor + count && Address(l, e) + 4 > I64_MAX {
      if e >= cursor { WithinRow(l, cursor, e - cursor); }
    }
    if Address(l, cursor) + 4 * count > I64_MAX {
      assert Address(l, cursor + (count - 1)) + 4 > I64_MAX;
    }
  }

  /** The segment walk: it ends, refuses exactly when some element's cell overflows, and
      its runs are the per-element copy, each element once and in order. */
  method CopyRuns(elements: nat, source: Layout, target: Layout) returns (r: Option<seq<Run>>)
    requires source.Valid() && target.Valid()
    requires elements == source.Elements() == target.Elements()
    ensures r.None? <==> CellOverflows(source, elements) || CellOverflows(target, elements)
    ensures r.Some? ==> AllCells(r.value) == ElementCells(source, target, elements)
  {
    hide Address, Layout.Elements;
    var runs: seq<Run> := [];
    var cursor := 0;
    while cursor < elements
      invariant cursor <= elements && AllCells(runs) == ElementCells(source, target, cursor)
      invariant !CellOverflows(source, cursor) && !CellOverflows(target, cursor)
      decreases elements - cursor
    {
      RowRestInside(source, cursor);
      RowRestInside(target, cursor);
      var a, b := RowRest(source, cursor), RowRest(target, cursor);
      var count := if a <= b then a else b;
      RunOverflow(source, cursor, count);
      RunOverflow(target, cursor, count);
      var first, second := Address(source, cursor), Address(target, cursor);
      if first + 4 * count > I64_MAX || second + 4 * count > I64_MAX {
        OverflowGrows(source, cursor + count, elements);
        OverflowGrows(target, cursor + count, elements);
        return None;
      }
      RunIsElements(source, target, cursor, count);
      var run := Run(first, second, count);
      assert (runs + [run])[..|runs|] == runs;
      runs := runs + [run];
      cursor := cursor + count;
    }
    r := Some(runs);
  }

  lemma OverflowGrows(l: Layout, m: nat, n: nat)
    requires l.Valid() && m <= n
    ensures CellOverflows(l, m) ==> CellOverflows(l, n)
  {
  }

  // ---- quantize_mmq_q8_1 ----

  datatype Quantize = Quantize(padded: nat, rows: nat, channels: nat, samples: nat, blockWidth: nat) {
    /** The geometry that the rule accepts: whole warps and whole 128-value blocks. */
    predicate Valid() {
      && rows > 0 && channels > 0 && samples > 0 && padded > 0 && padded % 128 == 0
      && 0 < blockWidth <= 1024 && blockWidth % 32 == 0
    }

    function GridColumns(): nat
      requires Valid()
    {
      (padded + 4 * blockWidth - 1) / (4 * blockWidth)
    }

    /** The channel pitch counts launched lanes, not valid columns. */
    function Pitch(): nat
      requires Valid()
    {
      rows * GridColumns() * blockWidth / 32
    }

    function Blocks(): nat {
      padded / 128
    }
  }

  datatype Place = Place(sample: nat, channel: nat, k: nat, row: nat)

  predicate Inside(q: Quantize, p: Place) {
    p.sample < q.samples && p.channel < q.channels && p.k < q.Blocks() && p.row < q.rows
  }

  function BlockIndex(q: Quantize, p: Place): nat
    requires q.Valid()
  {
    (p.sample * q.channels + p.channel) * q.Pitch() + p.k * q.rows + p.row
  }

  /** The rows of a 128-value block are adjacent, then come the blocks, the channels a pitch
      apart and the samples. */
  lemma BlockLayout(q: Quantize, p: Place)
    requires q.Valid()
    ensures BlockIndex(q, Place(0, 0, 0, 0)) == 0
    ensures BlockIndex(q, p.(row := p.row + 1)) == BlockIndex(q, p) + 1
    ensures BlockIndex(q, p.(k := p.k + 1)) == BlockIndex(q, p) + q.rows
    ensures BlockIndex(q, p.(channel := p.channel + 1)) == BlockIndex(q, p) + q.Pitch()
    ensures BlockIndex(q, p.(sample := p.sample + 1)) == BlockIndex(q, p) + q.channels * q.Pitch()
  {
    hide Quantize.Pitch;
    LayoutSteps(p.sample, p.channel, q.channels, q.Pitch(), p.k, q.rows);
  }

  lemma LayoutSteps(sample: nat, channel: nat, channels: nat, pitch: nat, k: nat, rows: nat)
    ensures (k + 1) * rows == k * rows + rows
    ensures (sample * channels + (channel + 1)) * pitch == (sample * channels + channel) * pitch + pitch
    ensures ((sample + 1) * channels + channel) * pitch == (sample * channels + channel) * pitch + channels * pitch
  {
    assert (sample + 1) * channels + channel == (sample * channels + channel) + channels;
  }

  /** A pitch holds 128 values for each row of the launched columns, which are the fewest whole
      blocks of four values a thread that cover the padded ones. */
  lemma PitchExact(q: Quantize)
    requires q.Valid()
    ensures var launched := q.GridColumns() * (4 * q.blockWidth);
            q.Pitch() * 128 == q.rows * launched && launched - 4 * q.blockWidth < q.padded <= launched
  {
    var lanes := 4 * q.blockWidth;
    DivSpan(q.padded + lanes - 1, lanes, q.GridColumns());
    var w := q.blockWidth / 32;
    assert q.blockWidth == w * 32;
    hide Quantize.GridColumns;
    RegroupLanes(q.rows, q.GridColumns(), w);
    DivUnique(q.rows * q.GridColumns() * q.blockWidth, 32, q.rows * (q.GridColumns() * w), 0);
    LaunchedLanes(q.rows, q.GridColumns(), w);
  }

  lemma LaunchedLanes(rows: nat, columns: nat, w: nat)
    ensures rows * (columns * w) * 128 == rows * (columns * (4 * (w * 32)))
  {
    assert columns * (4 * (w * 32)) == columns * w * 128;
  }

  lemma LaunchCovers(q: Quantize)
    requires q.Valid()
    ensures q.Blocks() <= q.GridColumns() * (q.blockWidth / 32)
  {
    var lanes := 4 * q.blockWidth;
    DivSpan(q.padded + lanes - 1, lanes, q.GridColumns());
    var w := q.blockWidth / 32;
    assert lanes == 128 * w;
    assert q.GridColumns() * lanes == 128 * (q.GridColumns() * w);
    assert (q.GridColumns() + 1) * lanes == q.GridColumns() * lanes + lanes;
    assert q.padded == 128 * q.Blocks();
  }

  lemma PitchCovers(q: Quantize)
    requires q.Valid()
    ensures q.Blocks() * q.rows <= q.Pitch()
  {
    hide Quantize.GridColumns;
    LaunchCovers(q);
    var w := q.blockWidth / 32;
    var lanes := q.GridColumns() * w;
    assert q.blockWidth == w * 32;
    RegroupLanes(q.rows, q.GridColumns(), w);
    DivUnique(q.rows * q.GridColumns() * q.blockWidth, 32, q.rows * lanes, 0);
    MulMonotone(q.rows, q.Blocks(), lanes);
  }

  lemma RegroupLanes(rows: nat, columns: nat, w: nat)
    ensures rows * columns * (w * 32) == rows * (columns * w) * 32
  {
  }

  lemma InnerBelow(k: nat, row: nat, blocks: nat, rows: nat)
    requires k < blocks && row < rows
    ensures k * rows + row < blocks * rows
  {
    MulMonotone(rows, k + 1, blocks);
  }

  /** The place that a block index belongs to. */
  function PlaceOf(channels: nat, rows: nat, pitch: nat, ib: nat): Place
    requires channels > 0 && rows > 0 && pitch > 0
  {
    var outer: nat, inner: nat := ib / pitch, ib % pitch;
    Place(outer / channels, outer % channels, inner / rows, inner % rows)
  }

  lemma PlaceDecodes(q: Quantize, p: Place)
    requires q.Valid() && Inside(q, p)
    ensures q.Pitch() > 0 && PlaceOf(q.channels, q.rows, q.Pitch(), BlockIndex(q, p)) == p
  {
    PitchCovers(q);
    InnerBelow(p.k, p.row, q.Blocks(), q.rows);
    hide Quantize.Pitch, Quantize.Blocks, Quantize.Valid;
    var outer, inner := p.sample * q.channels + p.channel, p.k * q.rows + p.row;
    DivUnique(BlockIndex(q, p), q.Pitch(), outer, inner);
    DivUnique(inner, q.rows, p.k, p.row);
    DivUnique(outer, q.channels, p.sample, p.channel);
  }

  lemma IndexBelow(q: Quantize, p: Place)
    requires q.Valid() && Inside(q, p)
    ensures BlockIndex(q, p) < q.samples * q.channels * q.Pitch()
  {
    PitchCovers(q);
    InnerBelow(p.k, p.row, q.Blocks(), q.rows);
    hide Quantize.Pitch, Quantize.Blocks, Quantize.Valid;
    InnerBelow(p.sample, p.channel, q.samples, q.channels);
    InnerBelow(p.sample * q.channels + p.channel, p.k * q.rows + p.row, q.samples * q.channels, q.Pitch());
  }

  /** Every block index is inside the output, no two places share one, and so no two of
      the 144-byte writes overlap. */
  lemma BlockIndexInjective(q: Quantize, p: Place, t: Place)
    requires q.Valid() && Inside(q, p) && Inside(q, t)
    ensures BlockIndex(q, p) < q.samples * q.channels * q.Pitch()
    ensures BlockIndex(q, p) == BlockIndex(q, t) ==> p == t
    ensures p != t ==> BlockIndex(q, p) * 144 + 144 <= BlockIndex(q, t) * 144
                       || BlockIndex(q, t) * 144 + 144 <= BlockIndex(q, p) * 144
  {
    hide BlockIndex, PlaceOf, Inside, Quantize.Pitch, Quantize.Valid;
    PlaceDecodes(q, p);
    PlaceDecodes(q, t);
    IndexBelow(q, p);
  }

  // ---- matvec_quantized, ordinary single output ----

  /** The case the shortcut takes: one output column, channel and sample, no fusion, and
      rows of `blocks` quantized blocks stored back to back. */
  datatype Matvec = Matvec(blocks: nat, rows: nat, blockBytes: nat) {
    predicate Valid() {
      && 0 < blocks && blocks * 8 <= I32_MAX && 0 < rows <= I32_MAX
      && (blockBytes == 144 || blockBytes == 210)
    }
  }

  /** The recorded intervals of the three operands. */
  datatype Recorded = Recorded(x: seq<Span>, y: seq<Span>, dst: seq<Span>)

  /** The bytes of one row of quantized blocks that begins at block `start`. */
  function BlockSpan(m: Matvec, start: nat): Span {
    Span(start * m.blockBytes, start * m.blockBytes + m.blocks * m.blockBytes, false)
  }

  function XSpan(m: Matvec, row: nat): Span {
    BlockSpan(m, row * m.blocks)
  }

  function YSpan(m: Matvec): Span {
    Span(0, m.blocks * 8 * 36, false)
  }

  function RowSpans(m: Matvec, n: nat): Recorded {
    Recorded(seq(n, i requires 0 <= i < n => XSpan(m, i)),
             seq(n, i requires 0 <= i < n => YSpan(m)),
             seq(n, i requires 0 <= i < n => Span(i * 4, i * 4 + 4, true)))
  }

  /** The signed source index of a row's last block does not fit. */
  predicate RowOverflows(m: Matvec, row: nat) {
    row * m.blocks + m.blocks > I32_MAX
  }

  /** The row-by-row loop, without its enumeration cap. */
  method RowByRow(m: Matvec) returns (r: Option<Recorded>)
    requires m.Valid()
    ensures r.None? <==> exists row: nat :: row < m.rows && RowOverflows(m, row)
    ensures r.Some? ==> r.value == RowSpans(m, m.rows)
  {
    hide BlockSpan, YSpan;
    var x: seq<Span>, y: seq<Span>, dst: seq<Span> := [], [], [];
    for row := 0 to m.rows
      invariant x == RowSpans(m, row).x && y == RowSpans(m, row).y && dst == RowSpans(m, row).dst
      invariant forall i: nat :: i < row ==> !RowOverflows(m, i)
    {
      var start := row * m.blocks;
      if start > I32_MAX || start + m.blocks > I32_MAX {
        assert RowOverflows(m, row);
        return None;
      }
      x := x + [BlockSpan(m, start)];
      assert y + [YSpan(m)] == RowSpans(m, row + 1).y;
      y := y + [YSpan(m)];
      dst := dst + [Span(row * 4, row * 4 + 4, true)];
    }
    r := Some(Recorded(x, y, dst));
  }

  /** The analytic shortcut: one interval per operand. */
  method Analytic(m: Matvec) returns (r: Option<Recorded>)
    requires m.Valid()
    ensures r == if RowOverflows(m, m.rows - 1) then None
                 else Some(Recorded([Span(0, m.rows * m.blocks * m.blockBytes, false)], [YSpan(m)],
                                    [Span(0, m.rows * 4, true)]))
  {
    var last := (m.rows - 1) * m.blocks;
    if last > I32_MAX { return None; }
    var blocks := last + m.blocks;
    if blocks > I32_MAX { return None; }
    assert blocks == m.rows * m.blocks;
    r := Some(Recorded([Span(0, blocks * m.blockBytes, false)], [Span(0, m.blocks * 8 * 36, false)],
                       [Span(0, m.rows * 4, true)]));
  }

  lemma OverflowAtLast(m: Matvec)
    requires m.Valid()
    ensures (exists row: nat :: row < m.rows && RowOverflows(m, row)) <==> RowOverflows(m, m.rows - 1)
  {
    if row: nat :| row < m.rows && RowOverflows(m, row) {
      MulMonotone(m.blocks, row, m.rows - 1);
    }
  }

  /** The intervals are adjacent, each `step` bytes long. */
  ghost predicate Steps(s: seq<Span>, step: nat, writes: bool) {
    forall i :: 0 <= i < |s| ==> s[i] == Span(i * step, i * step + step, writes)
  }

  lemma StepOf(b: nat, step: nat, n: nat) returns (i: nat)
    requires step > 0 && b < n * step
    ensures i < n && i * step <= b < i * step + step
  {
    i := b / step;
    DivSpan(b, step, i);
    if i >= n { MulMonotone(step, n, i); }
  }

  lemma StepsCover(s: seq<Span>, step: nat, writes: bool, b: nat)
    requires step > 0 && Steps(s, step, writes)
    ensures In(s, b) <==> b < |s| * step
  {
    if b < |s| * step { StepsCoverBelow(s, step, writes, b); }
    if In(s, b) {
      var x :| x in s && x.lo <= b < x.hi;
      var i :| 0 <= i < |s| && s[i] == x;
      StepEnd(i, |s|, step);
    }
  }

  lemma StepsCoverBelow(s: seq<Span>, step: nat, writes: bool, b: nat)
    requires step > 0 && Steps(s, step, writes) && b < |s| * step
    ensures In(s, b)
  {
    var i := StepOf(b, step, |s|);
    assert s[i] in s;
  }

  lemma StepEnd(i: nat, n: nat, step: nat)
    requires i < n
    ensures i * step + step <= n * step
  {
    MulMonotone(step, i + 1, n);
  }

  lemma StepsApart(s: seq<Span>, step: nat, writes: bool)
    requires step > 0 && Steps(s, step, writes)
    ensures !Clash(s)
  {
    hide Clash;
    forall i, j | 0 <= i < j < |s| ensures !Conflict(s[i], s[j]) {
      StepEnd(i, j, step);
    }
    ClashIsPairwise(s);
  }

  /** One interval, or copies of it, cover just that interval. */
  lemma CopiesCover(s: seq<Span>, x: Span)
    requires s != [] && (forall i :: 0 <= i < |s| ==> s[i] == x) && x.lo < x.hi
    ensures forall b: nat :: In(s, b) <==> x.lo <= b < x.hi
    ensures !x.writes || |s| == 1 ==> !Clash(s)
  {
    assert s[0] in s;
    ClashIsPairwise(s);
  }

  /** m is the result of merging s. */
  ghost predicate FormOf(s: seq<Span>, m: seq<Range>) {
    Canonical(m) && forall i: nat :: InRanges(m, i) <==> In(s, i)
  }

  /** Two recordings of one operand that the merge turns into the same ranges. */
  ghost predicate SameRanges(s: seq<Span>, t: seq<Span>) {
    && !Clash(s) && !Clash(t)
    && forall a, b :: FormOf(s, a) && FormOf(t, b) ==> a == b
  }

  lemma SameBytesSameRanges(s: seq<Span>, t: seq<Span>)
    requires !Clash(s) && !Clash(t) && forall b: nat :: In(s, b) <==> In(t, b)
    ensures SameRanges(s, t)
  {
    hide In, InRanges, Clash, Canonical;
    forall a, b | FormOf(s, a) && FormOf(t, b) ensures a == b {
      CanonicalUnique(a, b);
    }
  }

  /** For every row and column count the shortcut and the loop refuse the same inputs, and
      otherwise merge to the same ranges for all three operands. */
  lemma ShortcutExact(m: Matvec)
    requires m.Valid()
    ensures (exists row: nat :: row < m.rows && RowOverflows(m, row)) <==> RowOverflows(m, m.rows - 1)
    ensures var rows := RowSpans(m, m.rows);
            && SameRanges(rows.x, [Span(0, m.rows * m.blocks * m.blockBytes, false)])
            && SameRanges(rows.y, [YSpan(m)])
            && SameRanges(rows.dst, [Span(0, m.rows * 4, true)])
  {
    OverflowAtLast(m);
    SameX(m);
    var rows := RowSpans(m, m.rows);
    CopiesCover(rows.y, YSpan(m));
    CopiesCover([YSpan(m)], YSpan(m));
    SameBytesSameRanges(rows.y, [YSpan(m)]);
    StepsAsOne(rows.dst, 4, true);
  }

  lemma StepsAsOne(s: seq<Span>, step: nat, writes: bool)
    requires step > 0 && s != [] && Steps(s, step, writes)
    ensures SameRanges(s, [Span(0, |s| * step, writes)])
  {
    hide Steps, SameRanges, Clash, In;
    MulMonotone(step, 1, |s|);
    var one := Span(0, |s| * step, writes);
    StepsApart(s, step, writes);
    CopiesCover([one], one);
    forall b: nat ensures In(s, b) <==> In([one], b) {
      StepsCover(s, step, writes, b);
    }
    SameBytesSameRanges(s, [one]);
  }

  lemma SameX(m: Matvec)
    requires m.Valid()
    ensures SameRanges(RowSpans(m, m.rows).x, [Span(0, m.rows * m.blocks * m.blockBytes, false)])
  {
    var x, step := RowSpans(m, m.rows).x, m.blocks * m.blockBytes;
    MulMonotone(m.blockBytes, 1, m.blocks);
    hide SameRanges;
    forall i | 0 <= i < |x| ensures x[i] == Span(i * step, i * step + step, false) {
      assert i * m.blocks * m.blockBytes == i * step;
    }
    StepsAsOne(x, step, false);
    assert m.rows * m.blocks * m.blockBytes == m.rows * step;
  }

  /** The bytes that the rows touch: whole rows of blocks, 288 bytes of the vector for each
      block of 256 values, and four bytes for each row. */
  lemma MatvecBytes(m: Matvec, b: nat)
    requires m.Valid()
    ensures var rows := RowSpans(m, m.rows);
            && (In(rows.x, b) <==> b < m.rows * m.blocks * m.blockBytes)
            && (In(rows.y, b) <==> b < 288 * m.blocks)
            && (In(rows.dst, b) <==> b < 4 * m.rows)
  {
    hide In, RowSpans, YSpan;
    XBytes(m, b);
    YBytes(m, b);
    DstBytes(m, b);
  }

  lemma XBytes(m: Matvec, b: nat)
    requires m.Valid()
    ensures In(RowSpans(m, m.rows).x, b) <==> b < m.rows * m.blocks * m.blockBytes
  {
    hide In;
    var x, step := RowSpans(m, m.rows).x, m.blocks * m.blockBytes;
    MulMonotone(m.blockBytes, 1, m.blocks);
    forall i | 0 <= i < |x| ensures x[i] == Span(i * step, i * step + step, false) {
      assert i * m.blocks * m.blockBytes == i * step;
    }
    StepsCover(x, step, false, b);
    assert m.rows * m.blocks * m.blockBytes == m.rows * step;
  }

  lemma YBytes(m: Matvec, b: nat)
    requires m.Valid()
    ensures In(RowSpans(m, m.rows).y, b) <==> b < 288 * m.blocks
  {
    hide In;
    CopiesCover(RowSpans(m, m.rows).y, YSpan(m));
  }

  lemma DstBytes(m: Matvec, b: nat)
    requires m.Valid()
    ensures In(RowSpans(m, m.rows).dst, b) <==> b < 4 * m.rows
  {
    hide In;
    StepsCover(RowSpans(m, m.rows).dst, 4, true, b);
  }
}
