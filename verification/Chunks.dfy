/** chunk_rounded_union of compat_audit_memory.py and memory_envelopes of
    compat_audit_proof.py, on top of the interval sweeps. */
module Chunks {
  import opened Cardinality
  import opened Options
  import opened Arithmetic
  import opened Intervals
  import opened Unions

  type Key = (nat, nat)

  datatype AllocationRange = AllocationRange(allocation: nat, generation: nat, bytes: nat, base: nat,
                                             offset: nat, length: nat)

  function KeyOf(r: AllocationRange): Key {
    (r.allocation, r.generation)
  }

  predicate Word(n: nat) {
    n <= U64_MAX
  }

  /** The checks on one range alone. */
  predicate WellFormed(r: AllocationRange, chunk: nat) {
    && 1 <= r.allocation <= U64_MAX && 1 <= r.generation <= U64_MAX && 1 <= r.bytes <= U64_MAX
    && r.base < chunk && Word(r.base) && Word(r.offset) && Word(r.length)
    && r.offset + r.length <= r.bytes
    && (r.length > 0 ==> r.base + r.offset + r.length <= U64_MAX)
  }

  /** The checks of one range against another: one generation and one layout per allocation. */
  predicate Consistent(r: AllocationRange, t: AllocationRange) {
    r.allocation == t.allocation ==> r.generation == t.generation && r.bytes == t.bytes && r.base == t.base
  }

  ghost predicate Acceptable(items: seq<AllocationRange>, chunk: nat) {
    && (forall i :: 0 <= i < |items| ==> WellFormed(items[i], chunk))
    && (forall i, j :: 0 <= i < j < |items| ==> Consistent(items[i], items[j]))
  }

  /** The chunks of a range, relative to the chunk that holds the allocation's base. */
  function ChunkSpan(r: AllocationRange, chunk: nat): Span
    requires chunk > 0
  {
    Span((r.base + r.offset) / chunk, CeilDiv(r.base + r.offset + r.length, chunk), false)
  }

  predicate Touches(r: AllocationRange, chunk: nat, b: nat, c: nat)
    requires chunk > 0
  {
    r.base + r.offset <= b < r.base + r.offset + r.length && b / chunk == c
  }

  /** Some byte of the range lies in the chunk. */
  ghost predicate InChunk(r: AllocationRange, chunk: nat, c: nat)
    requires chunk > 0
  {
    exists b: nat :: Touches(r, chunk, b, c)
  }

  lemma SpanTouched(first: nat, end: nat, chunk: nat, c: nat) returns (b: nat)
    requires chunk > 0 && first / chunk <= c && c * chunk < end && first < end
    ensures first <= b < end && b / chunk == c
  {
    if first / chunk == c {
      b := first;
    } else {
      b := c * chunk;
      DivSpan(first, chunk, first / chunk);
      MulMonotone(chunk, first / chunk + 1, c);
      DivUnique(c * chunk, chunk, c, 0);
    }
  }

  lemma TouchedInSpan(first: nat, end: nat, chunk: nat, b: nat)
    requires chunk > 0 && first <= b < end
    ensures first / chunk <= b / chunk && b / chunk * chunk < end
  {
    DivMonotone(first, b, chunk);
    DivSpan(b, chunk, b / chunk);
  }

  /** A chunk is in the span exactly when some byte of the range lies in it. */
  lemma ChunkSpanExact(r: AllocationRange, chunk: nat, c: nat)
    requires chunk > 0 && r.length > 0
    ensures ChunkSpan(r, chunk).lo <= c < ChunkSpan(r, chunk).hi <==> InChunk(r, chunk, c)
    ensures ChunkSpan(r, chunk).lo < ChunkSpan(r, chunk).hi
  {
    var first, end := r.base + r.offset, r.base + r.offset + r.length;
    CeilAbove(end, chunk, c);
    CeilAbove(end, chunk, first / chunk);
    TouchedInSpan(first, end, chunk, first);
    hide CeilDiv;
    if b: nat :| Touches(r, chunk, b, c) {
      TouchedInSpan(first, end, chunk, b);
    }
    if first / chunk <= c && c * chunk < end {
      var b := SpanTouched(first, end, chunk, c);
      assert Touches(r, chunk, b, c);
    }
  }

  // ---- chunk_rounded_union ----

  function Pairs(k: Key, s: set<nat>): set<(Key, nat)> {
    set c | c in s :: (k, c)
  }

  lemma {:induction false} PairsSize(k: Key, s: set<nat>)
    ensures |Pairs(k, s)| == |s|
  {
    if c :| c in s {
      PairsSize(k, s - {c});
      assert Pairs(k, s) == Pairs(k, s - {c}) + {(k, c)};
    } else {
      assert Pairs(k, s) == {};
    }
  }

  function TouchedBy(r: AllocationRange, chunk: nat): set<(Key, nat)>
    requires chunk > 0
  {
    if r.length == 0 then {}
    else Pairs(KeyOf(r), RangeBytes(ChunkSpan(r, chunk).lo, ChunkSpan(r, chunk).hi))
  }

  /** The (allocation generation, chunk) pairs of a list of ranges. */
  function Touched(items: seq<AllocationRange>, chunk: nat): set<(Key, nat)>
    requires chunk > 0
  {
    if items == [] then {}
    else Touched(items[..|items| - 1], chunk) + TouchedBy(items[|items| - 1], chunk)
  }

  /** Some byte of some range of the generation lies in the chunk. */
  ghost predicate TouchesSome(items: seq<AllocationRange>, chunk: nat, p: (Key, nat))
    requires chunk > 0
  {
    exists i, b: nat :: 0 <= i < |items| && KeyOf(items[i]) == p.0 && Touches(items[i], chunk, b, p.1)
  }

  lemma TouchesSomeSplit(items: seq<AllocationRange>, chunk: nat, p: (Key, nat))
    requires chunk > 0 && items != []
    ensures TouchesSome(items, chunk, p) <==>
            TouchesSome(items[..|items| - 1], chunk, p)
            || (KeyOf(items[|items| - 1]) == p.0 && InChunk(items[|items| - 1], chunk, p.1))
  {
    hide Touches;
    var init := items[..|items| - 1];
    if i, b: nat :| 0 <= i < |items| && KeyOf(items[i]) == p.0 && Touches(items[i], chunk, b, p.1) {
      if i < |init| { assert init[i] == items[i]; }
    }
    if i, b: nat :| 0 <= i < |init| && KeyOf(init[i]) == p.0 && Touches(init[i], chunk, b, p.1) {
      assert items[i] == init[i];
    }
  }

  /** The touched pairs are those for which some byte of some range lies in the chunk. */
  lemma {:induction false} TouchedExact(items: seq<AllocationRange>, chunk: nat, p: (Key, nat))
    requires chunk > 0
    ensures p in Touched(items, chunk) <==> TouchesSome(items, chunk, p)
  {
    hide ChunkSpan, RangeBytes, Touches;
    if items != [] {
      TouchedExact(items[..|items| - 1], chunk, p);
      TouchesSomeSplit(items, chunk, p);
      TouchedByExact(items[|items| - 1], chunk, p);
      hide TouchesSome, TouchedBy;
    }
  }

  lemma TouchedByExact(r: AllocationRange, chunk: nat, p: (Key, nat))
    requires chunk > 0
    ensures p in TouchedBy(r, chunk) <==> KeyOf(r) == p.0 && InChunk(r, chunk, p.1)
  {
    if r.length > 0 { ChunkSpanExact(r, chunk, p.1); }
    hide ChunkSpan;
  }

  /** The chunk spans of one allocation generation, in input order. */
  function GroupOf(items: seq<AllocationRange>, chunk: nat, k: Key): seq<Span>
    requires chunk > 0
  {
    if items == [] then []
    else
      var init, last := GroupOf(items[..|items| - 1], chunk, k), items[|items| - 1];
      if KeyOf(last) == k && last.length > 0 then init + [ChunkSpan(last, chunk)] else init
  }

  lemma {:induction false} GroupTouches(items: seq<AllocationRange>, chunk: nat, k: Key, c: nat)
    requires chunk > 0
    ensures NonEmpty(GroupOf(items, chunk, k))
    ensures forall x :: x in GroupOf(items, chunk, k) ==> !x.writes
    ensures In(GroupOf(items, chunk, k), c) <==> (k, c) in Touched(items, chunk)
  {
    if items != [] {
      var init, last := items[..|items| - 1], items[|items| - 1];
      GroupTouches(init, chunk, k, c);
      if KeyOf(last) == k && last.length > 0 {
        ChunkSpanExact(last, chunk, c);
        var g := GroupOf(init, chunk, k);
        hide ChunkSpan;
        var s := g + [ChunkSpan(last, chunk)];
        assert s[..|g|] == g;
        InPrefix(s, |g|, |g| + 1);
        assert s[..|g| + 1] == s;
      }
    }
  }

  datatype UnionResult = Total(chunks: nat) | RangeLimit | BadRange | Ambiguous | Overflow

  /** The state of the grouping loop after the items seen so far. */
  ghost predicate Grouped(items: seq<AllocationRange>, chunk: nat, generations: map<nat, nat>,
                          layouts: map<Key, (nat, nat)>, groups: map<Key, seq<Span>>)
    requires chunk > 0
  {
    && (forall a :: a in generations <==> exists i :: 0 <= i < |items| && items[i].allocation == a)
    && (forall i :: 0 <= i < |items| ==> generations[items[i].allocation] == items[i].generation)
    && (forall k :: k in layouts <==> exists i :: 0 <= i < |items| && KeyOf(items[i]) == k)
    && (forall i :: 0 <= i < |items| ==> layouts[KeyOf(items[i])] == (items[i].bytes, items[i].base))
    && (forall k :: (if k in groups then groups[k] else []) == GroupOf(items, chunk, k))
    && (forall k :: k in groups ==> groups[k] != [])
  }

  method GroupRanges(items: seq<AllocationRange>, chunk: nat)
    returns (r: UnionResult, groups: map<Key, seq<Span>>)
    requires chunk > 0
    ensures r == Total(0) <==> Acceptable(items, chunk)
    ensures r == Total(0) || r == BadRange || r == Ambiguous
    ensures r == Total(0) ==>
              && (forall k :: (if k in groups then groups[k] else []) == GroupOf(items, chunk, k))
              && (forall k :: k in groups ==> groups[k] != [])
  {
    hide ChunkSpan, GroupOf, WellFormed, Consistent, Acceptable, Grouped;
    var generations: map<nat, nat>, layouts: map<Key, (nat, nat)> := map[], map[];
    groups := map[];
    GroupStart(chunk);
    assert items[..0] == [];
    for n := 0 to |items|
      invariant Acceptable(items[..n], chunk)
      invariant Grouped(items[..n], chunk, generations, layouts, groups)
    {
      var item := items[n];
      var key := KeyOf(item);
      AcceptNext(items, n, chunk, generations, layouts, groups);
      if !WellFormed(item, chunk) { return BadRange, map[]; }
      ghost var after := generations[item.allocation := item.generation];
      ghost var shapes := layouts[key := (item.bytes, item.base)];
      if item.allocation !in generations { generations := generations[item.allocation := item.generation]; }
      if generations[item.allocation] != item.generation { return Ambiguous, map[]; }
      if key !in layouts { layouts := layouts[key := (item.bytes, item.base)]; }
      if layouts[key] != (item.bytes, item.base) { return Ambiguous, map[]; }
      if item.length > 0 {
        groups := groups[key := (if key in groups then groups[key] else []) + [ChunkSpan(item, chunk)]];
      }
      assert generations == after && layouts == shapes;
    }
    assert items[..|items|] == items;
    GroupDone(items, chunk, generations, layouts, groups);
    r := Total(0);
  }

  /** One turn of the loop: either the item is refused and the whole list with it, or the
      tables after it describe the longer prefix. */
  lemma AcceptNext(items: seq<AllocationRange>, n: nat, chunk: nat, generations: map<nat, nat>,
                   layouts: map<Key, (nat, nat)>, groups: map<Key, seq<Span>>)
    requires chunk > 0 && n < |items| && Acceptable(items[..n], chunk)
    requires Grouped(items[..n], chunk, generations, layouts, groups)
    ensures var item := items[n];
            if WellFormed(item, chunk) && Agrees(generations, layouts, item) then
              && Acceptable(items[..n + 1], chunk)
              && Grouped(items[..n + 1], chunk, generations[item.allocation := item.generation],
                         layouts[KeyOf(item) := (item.bytes, item.base)],
                         if item.length > 0 then AddTo(groups, KeyOf(item), ChunkSpan(item, chunk)) else groups)
            else !Acceptable(items, chunk)
  {
    hide ChunkSpan, WellFormed, Consistent, Acceptable, Grouped, Agrees;
    var item := items[n];
    AcceptableStep(items, n, chunk);
    AcceptablePrefix(items, n + 1, chunk);
    ConsistentTest(items[..n], chunk, generations, layouts, groups, item);
    assert items[..n + 1] == items[..n] + [item];
    if Agrees(generations, layouts, item) {
      GroupStep(items[..n], chunk, generations, layouts, groups, item);
    }
  }

  lemma GroupDone(items: seq<AllocationRange>, chunk: nat, generations: map<nat, nat>,
                  layouts: map<Key, (nat, nat)>, groups: map<Key, seq<Span>>)
    requires chunk > 0 && Grouped(items, chunk, generations, layouts, groups)
    ensures forall k :: (if k in groups then groups[k] else []) == GroupOf(items, chunk, k)
    ensures forall k :: k in groups ==> groups[k] != []
  {
    hide GroupOf;
  }

  lemma GroupStart(chunk: nat)
    requires chunk > 0
    ensures Acceptable([], chunk) && Grouped([], chunk, map[], map[], map[])
  {
  }

  lemma AcceptableStep(items: seq<AllocationRange>, n: nat, chunk: nat)
    requires n < |items| && Acceptable(items[..n], chunk)
    ensures Acceptable(items[..n + 1], chunk) <==>
            WellFormed(items[n], chunk) && forall i :: 0 <= i < n ==> Consistent(items[i], items[n])
  {
    hide WellFormed, Consistent;
    var t := items[..n + 1];
    assert forall i :: 0 <= i < n ==> t[i] == items[i] && items[..n][i] == items[i];
    assert t[n] == items[n];
  }

  lemma AcceptablePrefix(items: seq<AllocationRange>, n: nat, chunk: nat)
    requires n <= |items|
    ensures Acceptable(items, chunk) ==> Acceptable(items[..n], chunk)
  {
    hide WellFormed, Consistent;
  }

  /** The two table lookups decide whether the item is consistent with all before it. */
  predicate Agrees(generations: map<nat, nat>, layouts: map<Key, (nat, nat)>, item: AllocationRange) {
    && (item.allocation in generations ==> generations[item.allocation] == item.generation)
    && (KeyOf(item) in layouts ==> layouts[KeyOf(item)] == (item.bytes, item.base))
  }

  lemma ConsistentTest(items: seq<AllocationRange>, chunk: nat, generations: map<nat, nat>,
                       layouts: map<Key, (nat, nat)>, groups: map<Key, seq<Span>>, item: AllocationRange)
    requires chunk > 0 && Grouped(items, chunk, generations, layouts, groups)
    ensures Agrees(generations, layouts, item) <==>
            forall i :: 0 <= i < |items| ==> Consistent(items[i], item)
  {
    hide GroupOf;
    if Agrees(generations, layouts, item) {
      forall i | 0 <= i < |items| ensures Consistent(items[i], item) {
        if items[i].allocation == item.allocation { assert KeyOf(items[i]) == KeyOf(item); }
      }
    }
  }

  lemma GroupStep(items: seq<AllocationRange>, chunk: nat, generations: map<nat, nat>,
                  layouts: map<Key, (nat, nat)>, groups: map<Key, seq<Span>>, item: AllocationRange)
    requires chunk > 0 && Grouped(items, chunk, generations, layouts, groups)
    requires Agrees(generations, layouts, item)
    ensures Grouped(items + [item], chunk, generations[item.allocation := item.generation],
                    layouts[KeyOf(item) := (item.bytes, item.base)],
                    if item.length > 0 then AddTo(groups, KeyOf(item), ChunkSpan(item, chunk)) else groups)
  {
    hide ChunkSpan;
    var more := items + [item];
    assert more[..|items|] == items;
    forall i | 0 <= i < |items| ensures more[i] == items[i] {
    }
    assert more[|items|] == item;
  }

  function AddTo(groups: map<Key, seq<Span>>, k: Key, x: Span): map<Key, seq<Span>> {
    groups[k := (if k in groups then groups[k] else []) + [x]]
  }

  /** The number of touched pairs that belong to the given keys. */
  function TouchedOf(items: seq<AllocationRange>, chunk: nat, keys: set<Key>): set<(Key, nat)>
    requires chunk > 0
  {
    set p | p in Touched(items, chunk) && p.0 in keys
  }

  lemma TouchedOfOneMore(items: seq<AllocationRange>, chunk: nat, keys: set<Key>, k: Key)
    requires chunk > 0 && k !in keys
    ensures |TouchedOf(items, chunk, keys + {k})| ==
            |TouchedOf(items, chunk, keys)| + |Bytes(GroupOf(items, chunk, k))|
  {
    hide Touched, GroupOf, Bytes;
    var group := GroupOf(items, chunk, k);
    BytesAreIn(group);
    forall c: nat ensures In(group, c) <==> (k, c) in Touched(items, chunk) {
      GroupTouches(items, chunk, k, c);
    }
    PairsSize(k, Bytes(group));
    var a, b := TouchedOf(items, chunk, keys), Pairs(k, Bytes(group));
    forall p ensures p in TouchedOf(items, chunk, keys + {k}) <==> p in a + b {
      if p.0 == k { assert p == (k, p.1); }
    }
    assert TouchedOf(items, chunk, keys + {k}) == a + b;
    assert a !! b;
  }

  lemma GroupKeysCover(items: seq<AllocationRange>, chunk: nat, groups: map<Key, seq<Span>>)
    requires chunk > 0
    requires forall k :: (if k in groups then groups[k] else []) == GroupOf(items, chunk, k)
    ensures TouchedOf(items, chunk, groups.Keys) == Touched(items, chunk)
  {
    hide Touched, GroupOf;
    forall p | p in Touched(items, chunk) ensures p.0 in groups {
      GroupTouches(items, chunk, p.0, p.1);
      assert p == (p.0, p.1);
    }
  }

  /** Adds up one allocation's merged chunk ranges. */
  method CountChunks(merged: seq<Range>) returns (count: nat)
    requires Canonical(merged)
    ensures count == RangesSize(merged)
  {
    count := 0;
    for i := 0 to |merged|
      invariant count == RangesSize(merged[..i])
    {
      assert merged[..i + 1][..i] == merged[..i];
      count := count + (merged[i].hi - merged[i].lo);
    }
    assert merged[..|merged|] == merged;
  }

  lemma MergedSize(spans: seq<Span>, merged: seq<Range>)
    requires Canonical(merged) && forall b: nat :: InRanges(merged, b) <==> In(spans, b)
    ensures RangesSize(merged) == |Bytes(spans)|
  {
    CanonicalSize(merged);
    RangesBytesAreIn(merged);
    BytesAreIn(spans);
    assert RangesBytes(merged) == Bytes(spans);
  }

  /** The procedure counts exactly the distinct (allocation generation, chunk) pairs that
      some byte touches, whatever the order and overlap of the ranges. */
  method ChunkUnion(items: seq<AllocationRange>, chunk: nat) returns (r: UnionResult)
    requires chunk > 0
    ensures r == RangeLimit <==> |items| > MAX_RANGES
    ensures r.Total? <==> |items| <= MAX_RANGES && Acceptable(items, chunk)
                          && |Touched(items, chunk)| * chunk <= U64_MAX
    ensures r.Total? ==> r.chunks == |Touched(items, chunk)|
  {
    hide ChunkSpan, GroupOf, Acceptable, Touched, Bytes, RangesSize, Canonical, Clash;
    if |items| > MAX_RANGES { return RangeLimit; }
    var fault, groups := GroupRanges(items, chunk);
    if fault != Total(0) { return fault; }
    var total := 0;
    var todo := groups.Keys;
    assert TouchedOf(items, chunk, {}) == {};
    while todo != {}
      invariant todo <= groups.Keys && total == |TouchedOf(items, chunk, groups.Keys - todo)|
    {
      var k :| k in todo;
      GroupTouches(items, chunk, k, 0);
      ReadsNeverClash(groups[k]);
      var merged := Merge(groups[k]);
      MergedSize(groups[k], merged.value);
      var count := CountChunks(merged.value);
      SubsetSize(TouchedOf(items, chunk, groups.Keys - todo + {k}), Touched(items, chunk));
      TouchedOfOneMore(items, chunk, groups.Keys - todo, k);
      assert groups.Keys - todo + {k} == groups.Keys - (todo - {k});
      if total + count > U64_MAX {
        MulMonotone(|Touched(items, chunk)|, 1, chunk);
        return Overflow;
      }
      total := total + count;
      todo := todo - {k};
    }
    assert groups.Keys - {} == groups.Keys;
    GroupKeysCover(items, chunk, groups);
    if total * chunk > U64_MAX { return Overflow; }
    r := Total(total);
  }
}
