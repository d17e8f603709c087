/** memory_envelopes of python/xvram/compat_audit_proof.py: declared tensor accesses are
    bounded, checked for overlapping writes, and rounded to chunks. */
module Envelopes {
  import opened Intervals
  import opened Unions
  import opened Chunks

  const LIMIT: nat := 100_000

  datatype Mode = ReadOnly | WriteOnly | ReadWrite

  datatype TensorRange = TensorRange(allocation: Key, allocationBytes: nat, tensorOffset: nat, tensorBytes: nat,
                                     accessOffset: nat, accessBytes: nat, mode: Mode, base: nat)

  datatype Verdict = Rounded(chunks: nat) | RangeCount | Malformed | AllocationExtent | TensorOutside
                   | AccessOutside | OverlappingWrites | UnionRefused

  function SpanOf(t: TensorRange): Span {
    var begin := t.tensorOffset + t.accessOffset;
    Span(begin, begin + t.accessBytes, t.mode != ReadOnly)
  }

  function RangeOf(t: TensorRange): AllocationRange {
    AllocationRange(t.allocation.0, t.allocation.1, t.allocationBytes, t.base,
                    t.tensorOffset + t.accessOffset, t.accessBytes)
  }

  predicate WordsOk(t: TensorRange) {
    && 1 <= t.allocation.0 <= U64_MAX && 1 <= t.allocation.1 <= U64_MAX
    && t.allocationBytes <= U64_MAX && t.tensorOffset <= U64_MAX && t.tensorBytes <= U64_MAX
    && t.accessOffset <= U64_MAX && t.accessBytes <= U64_MAX && t.base <= U64_MAX
  }

  /** The first check that refuses one declared range on its own, if any. */
  function Bounds(t: TensorRange, chunk: nat): Verdict {
    if !WordsOk(t) then Malformed
    else if t.allocationBytes == 0 || t.base >= chunk then AllocationExtent
    else if t.tensorOffset > t.allocationBytes || t.tensorBytes > t.allocationBytes - t.tensorOffset then TensorOutside
    else if t.accessOffset > t.tensorBytes || t.accessBytes > t.tensorBytes - t.accessOffset then AccessOutside
    else Rounded(0)
  }

  ghost predicate Bounded(items: seq<TensorRange>, chunk: nat) {
    forall i :: 0 <= i < |items| ==> Bounds(items[i], chunk) == Rounded(0)
  }

  /** The declaration names an allocation by 64-bit words, the allocation holds the tensor and the
      tensor holds the access. */
  predicate Declares(t: TensorRange, chunk: nat) {
    && 1 <= t.allocation.0 <= 0xffff_ffff_ffff_ffff && 1 <= t.allocation.1 <= 0xffff_ffff_ffff_ffff
    && 0 < t.allocationBytes <= 0xffff_ffff_ffff_ffff && t.base < chunk && t.base <= 0xffff_ffff_ffff_ffff
    && t.tensorOffset + t.tensorBytes <= t.allocationBytes && t.accessOffset + t.accessBytes <= t.tensorBytes
  }

  lemma BoundedExact(items: seq<TensorRange>, chunk: nat)
    ensures Bounded(items, chunk) <==> forall i :: 0 <= i < |items| ==> Declares(items[i], chunk)
  {
    forall i | 0 <= i < |items| ensures Bounds(items[i], chunk) == Rounded(0) <==> Declares(items[i], chunk) {
    }
  }

  /** The access touches this byte of its allocation. */
  predicate Accesses(t: TensorRange, b: nat) {
    t.tensorOffset + t.accessOffset <= b < t.tensorOffset + t.accessOffset + t.accessBytes
  }

  /** Two non-empty accesses of one allocation share a byte and one of them writes. */
  predicate Hazard(t: TensorRange, u: TensorRange) {
    t.allocation == u.allocation && t.accessBytes > 0 && u.accessBytes > 0 && Conflict(SpanOf(t), SpanOf(u))
  }

  /** A hazard is a byte of one allocation that both access and one of them writes. */
  lemma HazardExact(t: TensorRange, u: TensorRange)
    ensures Hazard(t, u) <==>
            && t.allocation == u.allocation && (t.mode != ReadOnly || u.mode != ReadOnly)
            && exists b: nat :: Accesses(t, b) && Accesses(u, b)
  {
    var x, y := SpanOf(t), SpanOf(u);
    if Hazard(t, u) {
      var b := if x.lo < y.lo then y.lo else x.lo;
      assert Accesses(t, b) && Accesses(u, b);
    }
  }

  ghost predicate Hazardous(items: seq<TensorRange>) {
    exists i, j :: 0 <= i < j < |items| && Hazard(items[i], items[j])
  }

  /** The non-empty accesses of one allocation, in input order. */
  function GroupFor(items: seq<TensorRange>, k: Key): seq<Span> {
    if items == [] then []
    else
      var init, last := GroupFor(items[..|items| - 1], k), items[|items| - 1];
      if last.allocation == k && last.accessBytes > 0 then init + [SpanOf(last)] else init
  }

  /** The table holds the non-empty accesses of every allocation. */
  ghost predicate Groups(groups: map<Key, seq<Span>>, items: seq<TensorRange>) {
    forall k :: (if k in groups then groups[k] else []) == GroupFor(items, k)
  }

  lemma {:induction false} GroupMembers(items: seq<TensorRange>, k: Key)
    ensures NonEmpty(GroupFor(items, k))
    ensures forall y :: y in GroupFor(items, k) <==>
              exists i :: 0 <= i < |items| && items[i].allocation == k && items[i].accessBytes > 0
                           && SpanOf(items[i]) == y
  {
    if items != [] {
      var init := items[..|items| - 1];
      GroupMembers(init, k);
      assert forall i :: 0 <= i < |init| ==> init[i] == items[i];
    }
  }

  ghost predicate Conflicted(s: seq<Span>) {
    exists i, j :: 0 <= i < j < |s| && Conflict(s[i], s[j])
  }

  lemma ConflictedAppend(s: seq<Span>, x: Span)
    ensures Conflicted(s + [x]) <==> Conflicted(s) || exists y :: y in s && Conflict(y, x)
  {
    hide Conflict;
    var t := s + [x];
    if i, j :| 0 <= i < j < |t| && Conflict(t[i], t[j]) {
      assert t[i] == s[i];
      if j < |s| { assert t[j] == s[j]; }
    }
    if i, j :| 0 <= i < j < |s| && Conflict(s[i], s[j]) {
      assert Conflict(t[i], t[j]);
    }
    if y :| y in s && Conflict(y, x) {
      var i :| 0 <= i < |s| && s[i] == y;
      assert Conflict(t[i], t[|s|]);
    }
  }

  /** A hazard is a conflict inside one allocation's group. */
  ghost predicate HazardIn(items: seq<TensorRange>, k: Key) {
    exists i, j :: 0 <= i < j < |items| && items[j].allocation == k && Hazard(items[i], items[j])
  }

  lemma HazardSplit(items: seq<TensorRange>, k: Key)
    requires items != []
    ensures var init, last := items[..|items| - 1], items[|items| - 1];
            HazardIn(items, k) <==>
            HazardIn(init, k) || (last.allocation == k && exists i :: 0 <= i < |init| && Hazard(init[i], last))
  {
    hide Hazard;
    var init, last := items[..|items| - 1], items[|items| - 1];
    if i, j :| 0 <= i < j < |items| && items[j].allocation == k && Hazard(items[i], items[j]) {
      assert init[i] == items[i];
      if j < |init| { assert init[j] == items[j]; }
    }
    if i, j :| 0 <= i < j < |init| && init[j].allocation == k && Hazard(init[i], init[j]) {
      assert items[i] == init[i] && items[j] == init[j];
    }
    if i :| 0 <= i < |init| && last.allocation == k && Hazard(init[i], last) {
      assert items[i] == init[i];
    }
  }

  lemma {:induction false} GroupConflicts(items: seq<TensorRange>, k: Key)
    ensures Conflicted(GroupFor(items, k)) <==> HazardIn(items, k)
  {
    if items != [] {
      var init, last := items[..|items| - 1], items[|items| - 1];
      var g := GroupFor(init, k);
      GroupConflicts(init, k);
      GroupMembers(init, k);
      HazardSplit(items, k);
      hide Conflict, SpanOf, Conflicted, HazardIn;
      ConflictedAppend(g, SpanOf(last));
      if last.allocation == k && last.accessBytes > 0 {
        if y :| y in g && Conflict(y, SpanOf(last)) {
          var i :| 0 <= i < |init| && init[i].allocation == k && init[i].accessBytes > 0 && SpanOf(init[i]) == y;
          assert Hazard(init[i], last);
        }
        if i :| 0 <= i < |init| && Hazard(init[i], last) {
          assert SpanOf(init[i]) in g;
        }
      }
    }
  }

  lemma SomeGroupConflicts(items: seq<TensorRange>, groups: map<Key, seq<Span>>)
    requires Groups(groups, items)
    ensures Hazardous(items) <==> exists k :: k in groups && Conflicted(groups[k])
  {
    hide Conflict, GroupFor, Hazard;
    if i, j :| 0 <= i < j < |items| && Hazard(items[i], items[j]) {
      GroupConflicts(items, items[j].allocation);
      assert Conflicted(GroupFor(items, items[j].allocation));
    }
    if k :| k in groups && Conflicted(groups[k]) {
      GroupConflicts(items, k);
    }
  }

  /** The accesses as ranges of their allocations. */
  function Declared(items: seq<TensorRange>): seq<AllocationRange> {
    seq(|items|, i requires 0 <= i < |items| => RangeOf(items[i]))
  }

  /** Some access of the allocation touches a byte that lies, after the base shift, in the chunk. */
  ghost predicate Reached(items: seq<TensorRange>, chunk: nat, p: (Key, nat))
    requires chunk > 0
  {
    exists i, b: nat :: 0 <= i < |items| && items[i].allocation == p.0 && Accesses(items[i], b)
                        && (items[i].base + b) / chunk == p.1
  }

  lemma ReachedExact(items: seq<TensorRange>, chunk: nat, p: (Key, nat))
    requires chunk > 0
    ensures p in Touched(Declared(items), chunk) <==> Reached(items, chunk, p)
  {
    hide Touched;
    TouchedExact(Declared(items), chunk, p);
    if TouchesSome(Declared(items), chunk, p) {
      var i, b: nat :| 0 <= i < |items| && KeyOf(Declared(items)[i]) == p.0
                       && Touches(Declared(items)[i], chunk, b, p.1);
      assert Accesses(items[i], b - items[i].base);
    }
    if Reached(items, chunk, p) {
      var i, b: nat :| 0 <= i < |items| && items[i].allocation == p.0 && Accesses(items[i], b)
                       && (items[i].base + b) / chunk == p.1;
      assert Touches(Declared(items)[i], chunk, items[i].base + b, p.1);
    }
  }

  /** The declarations of each allocation agree, and the rounded total fits 64 bits. */
  ghost predicate Countable(ranges: seq<AllocationRange>, chunk: nat)
    requires chunk > 0
  {
    Acceptable(ranges, chunk) && |Touched(ranges, chunk)| * chunk <= U64_MAX
  }

  /** The bounds checks, and the accesses of each allocation. */
  method GroupAccesses(items: seq<TensorRange>, chunk: nat)
    returns (fault: Verdict, groups: map<Key, seq<Span>>, rounded: seq<AllocationRange>)
    requires chunk > 0
    ensures fault == Rounded(0) || fault in {Malformed, AllocationExtent, TensorOutside, AccessOutside}
    ensures fault == Rounded(0) <==> Bounded(items, chunk)
    ensures fault == Rounded(0) ==>
              rounded == Declared(items) && Groups(groups, items)
  {
    hide Bounds, SpanOf, GroupFor, RangeOf, Bounded, Groups, AddTo;
    groups, rounded := map[], [];
    EmptyGroups();
    for n := 0 to |items|
      invariant forall i :: 0 <= i < n ==> Bounds(items[i], chunk) == Rounded(0)
      invariant Groups(groups, items[..n])
      invariant |rounded| == n && forall i :: 0 <= i < n ==> rounded[i] == RangeOf(items[i])
    {
      var t := items[n];
      if Bounds(t, chunk) != Rounded(0) {
        BoundsFaults(t, chunk);
        OneUnbounded(items, chunk, n);
        return Bounds(t, chunk), groups, rounded;
      }
      NextGroup(items, n, groups);
      if t.accessBytes > 0 {
        groups := AddTo(groups, t.allocation, SpanOf(t));
      }
      rounded := rounded + [RangeOf(t)];
    }
    assert items[..|items|] == items;
    AllBounded(items, chunk);
    fault := Rounded(0);
  }

  lemma OneUnbounded(items: seq<TensorRange>, chunk: nat, n: nat)
    requires n < |items| && Bounds(items[n], chunk) != Rounded(0)
    ensures !Bounded(items, chunk)
  {
  }

  lemma AllBounded(items: seq<TensorRange>, chunk: nat)
    requires forall i :: 0 <= i < |items| ==> Bounds(items[i], chunk) == Rounded(0)
    ensures Bounded(items, chunk)
  {
  }

  /** Sweeps every group for a conflict. */
  method AnyOverlap(groups: map<Key, seq<Span>>) returns (found: bool)
    requires forall k :: k in groups ==> NonEmpty(groups[k])
    ensures found <==> exists k :: k in groups && Conflicted(groups[k])
  {
    var todo := groups.Keys;
    while todo != {}
      invariant todo <= groups.Keys && forall k :: k in groups && k !in todo ==> !Conflicted(groups[k])
    {
      var k :| k in todo;
      found := OverlappingWrite(groups[k]);
      if found { return true; }
      todo := todo - {k};
    }
    return false;
  }

  /** Whenever the bounds checks pass, an overlap is reported exactly when two non-empty
      accesses of one allocation meet and one of them writes; and otherwise the result is
      the number of chunks that the accesses touch, unless the declarations of one allocation
      disagree or the rounded total does not fit 64 bits. */
  method MemoryEnvelopes(items: seq<TensorRange>, chunk: nat) returns (r: Verdict)
    requires chunk > 0
    ensures |items| <= LIMIT && Bounded(items, chunk) ==> (r == OverlappingWrites <==> Hazardous(items))
    ensures r.Rounded? || r == OverlappingWrites || r == UnionRefused ==> |items| <= LIMIT && Bounded(items, chunk)
    ensures r == UnionRefused <==>
              |items| <= LIMIT && Bounded(items, chunk) && !Hazardous(items) && !Countable(Declared(items), chunk)
    ensures r.Rounded? ==> r.chunks == |Touched(Declared(items), chunk)|
  {
    hide Bounded, Hazardous, GroupFor, Conflicted, Touched, Acceptable, NonEmpty;
    if |items| > LIMIT { return RangeCount; }
    var fault, groups, rounded := GroupAccesses(items, chunk);
    if fault != Rounded(0) { return fault; }
    forall k | k in groups ensures NonEmpty(groups[k]) {
      GroupMembers(items, k);
    }
    SomeGroupConflicts(items, groups);
    var found := AnyOverlap(groups);
    if found { return OverlappingWrites; }
    var union := ChunkUnion(rounded, chunk);
    r := if union.Total? then Rounded(union.chunks) else UnionRefused;
  }

  lemma EmptyGroups()
    ensures Groups(map[], [])
  {
  }

  lemma BoundsFaults(t: TensorRange, chunk: nat)
    requires Bounds(t, chunk) != Rounded(0)
    ensures Bounds(t, chunk) in {Malformed, AllocationExtent, TensorOutside, AccessOutside}
  {
  }

  lemma NextGroup(items: seq<TensorRange>, n: nat, groups: map<Key, seq<Span>>)
    requires n < |items|
    requires Groups(groups, items[..n])
    ensures var t := items[n];
            Groups(if t.accessBytes > 0 then AddTo(groups, t.allocation, SpanOf(t)) else groups, items[..n + 1])
  {
    hide SpanOf;
    assert items[..n + 1][..n] == items[..n];
  }
}
