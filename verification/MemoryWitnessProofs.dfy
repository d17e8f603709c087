/** What every accepted run of the memory witness keeps, and the loops that compute it. */
module MemoryWitnessProofs {
  import opened Cardinality
  import opened Options
  import Intervals
  import Sorting
  import opened MemoryWitness

  // ---- the mapping table ----

  /** The table lists its mappings by strictly increasing identity. */
  ghost predicate Ascending(ms: seq<Mapping>) {
    forall i, j :: 0 <= i < j < |ms| ==> ms[i].id < ms[j].id
  }

  lemma {:induction false} FindByIdentity(ms: seq<Mapping>, m: Mapping)
    requires Ascending(ms)
    ensures FindMapping(ms, m.id) == Some(m) <==> m in ms
  {
    if ms != [] {
      FindByIdentity(ms[1..], m);
      assert ms == [ms[0]] + ms[1..];
    }
  }

  lemma {:induction false} WithoutMembers(ms: seq<Mapping>, id: nat)
    requires Ascending(ms)
    ensures Ascending(Without(ms, id))
    ensures forall x :: x in Without(ms, id) <==> x in ms && x.id != id
  {
    if ms != [] {
      var rest := ms[1..];
      WithoutMembers(rest, id);
      assert ms == [ms[0]] + rest;
      if ms[0].id != id {
        var r := Without(ms, id);
        forall i, j | 0 <= i < j < |r| ensures r[i].id < r[j].id {
          if i == 0 { assert r[j] in Without(rest, id); }
        }
      }
    }
  }

  // ---- the invariant ----

  predicate Overlap(x: Mapping, y: Mapping) {
    x.allocation == y.allocation && x.offset < y.End() && y.offset < x.End()
  }

  /** Mappings of one reservation share no byte. */
  ghost predicate Apart(ms: seq<Mapping>) {
    forall x, y :: x in ms && y in ms && x.id != y.id ==> !Overlap(x, y)
  }

  /** A mapping is not empty and lies inside a live reservation of its generation. */
  predicate Placed(allocations: map<nat, Allocation>, m: Mapping) {
    && m.bytes > 0 && m.generation > 0 && m.allocation in allocations
    && allocations[m.allocation].reservation && allocations[m.allocation].generation == m.generation
    && m.End() <= allocations[m.allocation].bytes
  }

  /** A mapping shows the start of a physical handle that still exists in its generation. */
  predicate Backed(physical: map<nat, Handle>, m: Mapping) {
    && m.physical in physical && physical[m.physical].generation == m.physicalGeneration
    && m.physicalOffset == 0 && m.bytes <= physical[m.physical].bytes
  }

  ghost predicate AllPlaced(allocations: map<nat, Allocation>, ms: seq<Mapping>) {
    forall m :: m in ms ==> Placed(allocations, m)
  }

  /** Physical entries: every mapping has one, and each is retained or mapped. */
  ghost predicate PhysicalTable(physical: map<nat, Handle>, ms: seq<Mapping>) {
    && (forall m :: m in ms ==> Backed(physical, m))
    && (forall k :: k in physical && !physical[k].retained ==> UsesPhysical(ms, k))
  }

  ghost predicate Numbered(s: State) {
    && (forall k :: k in s.allocations ==>
          0 < k <= s.lastObject && s.allocations[k].bytes > 0 && s.allocations[k].generation > 0)
    && (forall k :: k in s.physical ==> 0 < k <= s.lastObject)
    && (forall m :: m in s.mappings ==> 0 < m.id <= s.lastObject)
  }

  /** The segments still owed are exactly the mappings that meet the extent, and they tile it. */
  ghost predicate Owed(ms: seq<Mapping>, p: Pending) {
    p.Segments? ==>
      && p.index < |p.expected| && p.expected == SortByOffset(Intersecting(ms, p.unmapped))
      && Contiguous(p.expected, p.unmapped.offset, p.unmapped.generation) && Total(p.expected) == p.unmapped.bytes
  }

  ghost predicate Inv(s: State) {
    && Ascending(s.mappings) && Apart(s.mappings) && AllPlaced(s.allocations, s.mappings)
    && PhysicalTable(s.physical, s.mappings) && Numbered(s) && Owed(s.mappings, s.pending)
  }

  // ---- removing mappings ----

  ghost predicate Shrinks(before: map<nat, Handle>, after: map<nat, Handle>) {
    after.Keys <= before.Keys && forall k :: k in after ==> after[k] == before[k]
  }

  lemma RemoveOne(physical: map<nat, Handle>, ms: seq<Mapping>, m: Mapping)
    requires Ascending(ms) && PhysicalTable(physical, ms) && m in ms
    ensures FindMapping(ms, m.id) == Some(m) && Ascending(Without(ms, m.id))
    ensures forall x :: x in Without(ms, m.id) <==> x in ms && x != m
    ensures var left := Retire(physical, Without(ms, m.id), m.physical);
            left.Some? && PhysicalTable(left.value, Without(ms, m.id)) && Shrinks(physical, left.value)
  {
    FindByIdentity(ms, m);
    WithoutMembers(ms, m.id);
    SameIdentity(ms, m);
    var rest := Without(ms, m.id);
    assert Backed(physical, m);
    RetireKeeps(physical, ms, rest, m);
  }

  lemma SameIdentity(ms: seq<Mapping>, m: Mapping)
    requires Ascending(ms) && m in ms
    ensures forall x :: x in ms && x.id == m.id ==> x == m
  {
  }

  lemma RetireKeeps(physical: map<nat, Handle>, ms: seq<Mapping>, rest: seq<Mapping>, m: Mapping)
    requires PhysicalTable(physical, ms) && m in ms && m.physical in physical
    requires forall x :: x in rest <==> x in ms && x != m
    ensures var left := Retire(physical, rest, m.physical);
            left.Some? && PhysicalTable(left.value, rest) && Shrinks(physical, left.value)
  {
    var left := Retire(physical, rest, m.physical).value;
    forall x | x in rest ensures Backed(left, x) {
      assert Backed(physical, x);
    }
    forall k | k in left && !left[k].retained ensures UsesPhysical(rest, k) {
      if k != m.physical {
        var x :| x in ms && x.physical == k;
        assert x in rest;
      }
    }
  }

  ghost predicate DistinctIds(s: seq<Mapping>) {
    forall i, j :: 0 <= i < j < |s| ==> s[i].id != s[j].id
  }

  /** Removing distinct table entries one by one never misses a key, takes away exactly them,
      and leaves the physical table consistent. */
  lemma {:induction false} RemoveAllExact(physical: map<nat, Handle>, ms: seq<Mapping>, segments: seq<Mapping>)
    requires Ascending(ms) && PhysicalTable(physical, ms)
    requires DistinctIds(segments) && forall x :: x in segments ==> x in ms
    ensures RemoveAll(physical, ms, segments).Some?
    ensures var (p, rest) := RemoveAll(physical, ms, segments).value;
            Ascending(rest) && PhysicalTable(p, rest) && Shrinks(physical, p)
            && forall x :: x in rest <==> x in ms && x !in segments
    decreases |segments|
  {
    if segments != [] {
      var m, more := segments[0], segments[1..];
      RemoveOne(physical, ms, m);
      var rest := Without(ms, m.id);
      assert segments == [m] + more;
      assert forall x :: x in more ==> x.id != m.id;
      assert DistinctIds(more);
      hide Ascending, PhysicalTable, DistinctIds, FindMapping, Without;
      RemoveAllExact(Retire(physical, rest, m.physical).value, rest, more);
    }
  }

  // ---- the compound unmap test ----

  lemma {:induction false} IntersectingMembers(ms: seq<Mapping>, e: Extent)
    requires Ascending(ms)
    ensures Ascending(Intersecting(ms, e))
    ensures forall x :: x in Intersecting(ms, e) <==> x in ms && Intersects(x, e)
  {
    if ms != [] {
      var rest := ms[1..];
      IntersectingMembers(rest, e);
      assert ms == [ms[0]] + rest;
      var r := Intersecting(ms, e);
      forall i, j | 0 <= i < j < |r| ensures r[i].id < r[j].id {
        if i == 0 && Intersects(ms[0], e) { assert r[j] in Intersecting(rest, e); }
      }
    }
  }

  /** Each segment ends before the next one starts. */
  ghost predicate InOrder(s: seq<Mapping>) {
    forall i, j :: 0 <= i < j < |s| ==> s[i].End() <= s[j].offset
  }

  ghost predicate AllNonEmpty(s: seq<Mapping>) {
    forall x :: x in s ==> x.bytes > 0
  }

  lemma InOrderCons(x: Mapping, t: seq<Mapping>)
    ensures InOrder([x] + t) <==> InOrder(t) && forall y :: y in t ==> x.End() <= y.offset
  {
    var s := [x] + t;
    assert s[0] == x && s[1..] == t;
    if InOrder(s) {
      forall i, j | 0 <= i < j < |t| ensures t[i].End() <= t[j].offset {
        assert s[i + 1].End() <= s[j + 1].offset;
      }
      forall y | y in t ensures x.End() <= y.offset {
        var k :| 0 <= k < |t| && t[k] == y;
        assert s[0].End() <= s[k + 1].offset;
      }
    }
  }

  lemma {:induction false} InsertInOrder(m: Mapping, s: seq<Mapping>)
    requires InOrder(s) && m.bytes > 0 && AllNonEmpty(s)
    requires forall x :: x in s ==> x.allocation == m.allocation && !Overlap(m, x)
    ensures InOrder(Sorting.Insert(m, s, OffsetLe)) && |Sorting.Insert(m, s, OffsetLe)| == |s| + 1
    ensures forall x :: x in Sorting.Insert(m, s, OffsetLe) <==> x == m || x in s
  {
    if s == [] {
    } else {
      var rest := s[1..];
      assert s == [s[0]] + rest;
      assert !Overlap(m, s[0]) && s[0].bytes > 0;
      InOrderCons(s[0], rest);
      hide InOrder, Overlap;
      if m.offset <= s[0].offset {
        assert m.End() <= s[0].offset by { PassedBy(m, s[0]); }
        InOrderCons(m, s);
      } else {
        assert s[0].End() <= m.offset by { PassedBy(m, s[0]); }
        InsertInOrder(m, rest);
        InOrderCons(s[0], Sorting.Insert(m, rest, OffsetLe));
      }
    }
  }

  lemma PassedBy(x: Mapping, y: Mapping)
    requires x.allocation == y.allocation && !Overlap(x, y) && x.bytes > 0 && y.bytes > 0
    ensures if x.offset <= y.offset then x.End() <= y.offset else y.End() <= x.offset
  {
  }

  lemma {:induction false} SortInOrder(s: seq<Mapping>, allocation: nat)
    requires Ascending(s) && Apart(s) && AllNonEmpty(s)
    requires forall x :: x in s ==> x.allocation == allocation
    ensures InOrder(SortByOffset(s)) && |SortByOffset(s)| == |s|
    ensures forall x :: x in SortByOffset(s) <==> x in s
  {
    if s != [] {
      var rest := s[1..];
      assert s == [s[0]] + rest;
      assert Ascending(rest);
      SortInOrder(rest, allocation);
      forall x | x in rest ensures !Overlap(s[0], x) {
        assert s[0].id < x.id && x in s;
      }
      InsertInOrder(s[0], SortByOffset(rest));
    }
  }

  ghost predicate Holds(s: seq<Mapping>, b: nat) {
    exists x :: x in s && x.offset <= b < x.End()
  }

  /** Every byte from lo up to hi lies in one of the segments. */
  ghost predicate Fills(s: seq<Mapping>, lo: nat, hi: nat) {
    forall b: nat :: lo <= b < hi ==> Holds(s, b)
  }

  ghost predicate Inside(s: seq<Mapping>, lo: nat, hi: nat) {
    forall x :: x in s ==> lo <= x.offset && x.End() <= hi
  }

  /** The cursor walk accepts exactly the segments that tile the extent. */
  lemma {:induction false} WalkTiles(s: seq<Mapping>, lo: nat, hi: nat, generation: nat)
    requires InOrder(s) && AllNonEmpty(s) && lo <= hi
    requires forall x :: x in s ==> x.generation == generation
    ensures Contiguous(s, lo, generation) && Total(s) == hi - lo <==> Inside(s, lo, hi) && Fills(s, lo, hi)
    decreases |s|
  {
    hide Inside, Fills, InOrder, AllNonEmpty;
    if s == [] {
      EmptyTiles(lo, hi);
    } else {
      TailInOrder(s);
      TotalStarts(s);
      if s[0].offset == lo && s[0].End() <= hi {
        WalkTiles(s[1..], s[0].End(), hi, generation);
        TilesTail(s, lo, hi);
      } else if Inside(s, lo, hi) && Fills(s, lo, hi) {
        FirstAtStart(s, lo, hi);
      }
    }
  }

  lemma EmptyTiles(lo: nat, hi: nat)
    requires lo <= hi
    ensures Inside([], lo, hi)
    ensures Fills([], lo, hi) <==> lo == hi
  {
    assert !Holds([], lo);
  }

  lemma TailInOrder(s: seq<Mapping>)
    requires s != [] && InOrder(s) && AllNonEmpty(s)
    ensures InOrder(s[1..]) && AllNonEmpty(s[1..])
    ensures forall x :: x in s[1..] ==> x in s
  {
  }

  lemma FirstAtStart(s: seq<Mapping>, lo: nat, hi: nat)
    requires InOrder(s) && AllNonEmpty(s) && s != [] && Inside(s, lo, hi) && Fills(s, lo, hi)
    ensures s[0].offset == lo && s[0].End() <= hi
  {
    assert s[0] in s;
    assert Holds(s, lo);
    var x :| x in s && x.offset <= lo < x.End();
    assert lo <= x.offset;
  }

  lemma RestInside(s: seq<Mapping>, lo: nat, hi: nat)
    requires InOrder(s) && AllNonEmpty(s) && s != [] && s[0].offset == lo && s[0].End() <= hi
    ensures Inside(s, lo, hi) <==> Inside(s[1..], s[0].End(), hi)
  {
    var rest, mid := s[1..], s[0].End();
    assert s == [s[0]] + rest;
    forall x | x in rest ensures mid <= x.offset {
      var k :| 0 <= k < |rest| && rest[k] == x;
      assert s[k + 1] == x;
    }
  }

  lemma HoldsSplit(s: seq<Mapping>, b: nat)
    requires s != []
    ensures Holds(s, b) <==> s[0].offset <= b < s[0].End() || Holds(s[1..], b)
  {
    assert s == [s[0]] + s[1..];
  }

  lemma TilesTail(s: seq<Mapping>, lo: nat, hi: nat)
    requires InOrder(s) && AllNonEmpty(s) && s != [] && s[0].offset == lo && s[0].End() <= hi
    ensures Inside(s, lo, hi) && Fills(s, lo, hi) <==>
            Inside(s[1..], s[0].End(), hi) && Fills(s[1..], s[0].End(), hi)
  {
    var rest, mid := s[1..], s[0].End();
    RestInside(s, lo, hi);
    forall b: nat ensures Holds(s, b) <==> lo <= b < mid || Holds(rest, b) {
      HoldsSplit(s, b);
    }
    hide Holds, Inside, InOrder, AllNonEmpty;
  }

  // ---- each step keeps the invariant ----

  /** The meaning of a compound unmap: every mapping that meets the extent lies inside it, and
      every byte of the extent is mapped. */
  ghost predicate Tiled(ms: seq<Mapping>, e: Extent) {
    && (forall x :: x in ms && Intersects(x, e) ==> e.offset <= x.offset && x.End() <= e.offset + e.bytes)
    && Covered(ms, e)
  }

  lemma SegmentsInOrder(allocations: map<nat, Allocation>, ms: seq<Mapping>, e: Extent)
    requires Ascending(ms) && Apart(ms) && AllPlaced(allocations, ms)
    ensures var segments := SortByOffset(Intersecting(ms, e));
            && InOrder(segments) && AllNonEmpty(segments) && |segments| == |Intersecting(ms, e)|
            && forall x :: x in segments <==> x in ms && Intersects(x, e)
  {
    var found := Intersecting(ms, e);
    IntersectingMembers(ms, e);
    assert Apart(found);
    assert AllNonEmpty(found) by {
      forall x | x in found ensures x.bytes > 0 { assert Placed(allocations, x); }
    }
    SortInOrder(found, e.allocation);
  }

  lemma FillsIsCovered(ms: seq<Mapping>, e: Extent, segments: seq<Mapping>)
    requires forall x :: x in segments <==> x in ms && Intersects(x, e)
    ensures Fills(segments, e.offset, e.offset + e.bytes) <==> Covered(ms, e)
  {
    forall b: nat | e.offset <= b < e.offset + e.bytes
      ensures Holds(segments, b) <==> Mapped(ms, e.allocation, b)
    {
      if Holds(segments, b) {
        var x :| x in segments && x.offset <= b < x.End();
        assert x in ms && x.allocation == e.allocation;
      }
      if Mapped(ms, e.allocation, b) {
        var x :| x in ms && x.allocation == e.allocation && x.offset <= b < x.End();
        assert x in segments;
      }
    }
  }

  /** The gap, generation and tail tests of a compound unmap succeed exactly when the extent is
      tiled by the mappings that meet it. */
  lemma UnmapTestExact(allocations: map<nat, Allocation>, ms: seq<Mapping>, e: Extent)
    requires Ascending(ms) && Apart(ms) && AllPlaced(allocations, ms)
    requires e.allocation in allocations && allocations[e.allocation].generation == e.generation
    ensures var segments := SortByOffset(Intersecting(ms, e));
            Contiguous(segments, e.offset, e.generation) && Total(segments) == e.bytes <==> Tiled(ms, e)
  {
    var segments := SortByOffset(Intersecting(ms, e));
    SegmentsInOrder(allocations, ms, e);
    forall x | x in segments ensures x.generation == e.generation {
      assert Placed(allocations, x);
    }
    WalkTiles(segments, e.offset, e.offset + e.bytes, e.generation);
    FillsIsCovered(ms, e, segments);
    hide Ascending, Apart, AllPlaced, InOrder, AllNonEmpty, Contiguous, Covered, Fills, SortByOffset, Intersecting;
  }

  lemma MapKeeps(s: State, m: Mapping)
    requires Inv(s) && s.pending.Nothing?
    ensures var r := ApplyMap(s, m); !r.KeyMissing? && (r.Accepted? ==> Inv(r.state))
  {
    var r := ApplyMap(s, m);
    if r.Accepted? {
      assert Placed(s.allocations, m);
      assert Backed(s.physical, m);
      MapApart(s, m);
      assert forall x :: x in r.state.mappings <==> x in s.mappings || x == m;
      assert Ascending(r.state.mappings);
      assert PhysicalTable(r.state.physical, r.state.mappings) by {
        forall k | k in s.physical && !s.physical[k].retained ensures UsesPhysical(r.state.mappings, k) {
          var x :| x in s.mappings && x.physical == k;
          assert x in r.state.mappings;
        }
      }
      assert Numbered(r.state);
    }
  }

  lemma MapApart(s: State, m: Mapping)
    requires Apart(s.mappings) && ApplyMap(s, m).Accepted?
    ensures Apart(s.mappings + [m])
  {
    forall x | x in s.mappings ensures !Overlap(x, m) && !Overlap(m, x) {
      assert !Intersects(x, ExtentOf(m));
    }
    assert forall x :: x in s.mappings + [m] <==> x in s.mappings || x == m;
  }

  lemma UnmapKeeps(s: State, m: Mapping)
    requires Inv(s) && s.pending.Nothing?
    ensures var r := ApplyUnmap(s, m); !r.KeyMissing? && (r.Accepted? ==> Inv(r.state))
  {
    FindByIdentity(s.mappings, m);
    if m in s.mappings {
      RemoveOne(s.physical, s.mappings, m);
    }
  }

  lemma UnmapManyKeeps(s: State, api: nat, e: Extent, count: nat)
    requires Inv(s) && s.pending.Nothing?
    ensures var r := ApplyUnmapMany(s, api, e, count); !r.KeyMissing? && (r.Accepted? ==> Inv(r.state))
  {
  }

  lemma CommitKeeps(s: State)
    requires Inv(s) && s.pending.Segments?
    ensures var removed := RemoveAll(s.physical, s.mappings, s.pending.expected);
            removed.Some? && Inv(s.(physical := removed.value.0, mappings := removed.value.1, pending := Nothing))
    ensures var removed := RemoveAll(s.physical, s.mappings, s.pending.expected);
            removed.Some? && forall x :: x in removed.value.1 <==> x in s.mappings && !Intersects(x, s.pending.unmapped)
  {
    SegmentsInOrder(s.allocations, s.mappings, s.pending.unmapped);
    DistinctWhenInOrder(s.mappings, s.pending.expected);
    RemoveAllExact(s.physical, s.mappings, s.pending.expected);
  }

  lemma DistinctWhenInOrder(ms: seq<Mapping>, segments: seq<Mapping>)
    requires Ascending(ms) && InOrder(segments) && AllNonEmpty(segments)
    requires forall x :: x in segments ==> x in ms
    ensures DistinctIds(segments)
  {
    forall i, j | 0 <= i < j < |segments| ensures segments[i].id != segments[j].id {
      assert segments[i] in ms && segments[j] in ms;
      SameIdentity(ms, segments[i]);
      assert segments[i].bytes > 0;
    }
  }

  lemma ReleaseKeeps(s: State, id: nat, generation: nat, bytes: nat)
    requires Inv(s) && s.pending.Nothing?
    ensures var r := Apply(s, 0, ReleaseHandle(id, generation, bytes));
            !r.KeyMissing? && (r.Accepted? ==> Inv(r.state))
  {
    if id in s.physical && s.physical[id] == Handle(generation, bytes, true) {
      var left := Retire(s.physical[id := Handle(generation, bytes, false)], s.mappings, id).value;
      forall m | m in s.mappings ensures Backed(left, m) {
        assert Backed(s.physical, m);
      }
      assert PhysicalTable(left, s.mappings);
    }
  }

  lemma FreeKeeps(s: State, id: nat)
    requires Inv(s) && s.pending.Nothing? && id in s.allocations && !UsesAllocation(s.mappings, id)
    ensures Inv(s.(allocations := s.allocations - {id}, revision := s.revision + 1))
  {
    forall m | m in s.mappings ensures Placed(s.allocations - {id}, m) {
      assert Placed(s.allocations, m);
    }
  }

  lemma AllocateKeeps(s: State, id: nat, a: Allocation)
    requires Inv(s) && s.pending.Nothing? && s.lastObject < id && a.bytes > 0 && a.generation > 0
    ensures Inv(s.(allocations := s.allocations[id := a], lastObject := id, revision := s.revision + 1))
  {
    forall m | m in s.mappings ensures Placed(s.allocations[id := a], m) {
      assert Placed(s.allocations, m);
    }
  }

  lemma CreateKeeps(s: State, id: nat, h: Handle)
    requires Inv(s) && s.pending.Nothing? && s.lastObject < id && h.retained
    ensures Inv(s.(physical := s.physical[id := h], lastObject := id, revision := s.revision + 1))
  {
    forall m | m in s.mappings ensures Backed(s.physical[id := h], m) {
      assert Backed(s.physical, m);
    }
  }

  lemma ApplyKeeps(s: State, api: nat, op: Op)
    requires Inv(s) && s.pending.Nothing?
    ensures var r := Apply(s, api, op); !r.KeyMissing? && (r.Accepted? ==> Inv(r.state))
  {
    match op
    case Allocate(id, generation, bytes, reservation) =>
      if id > s.lastObject && bytes > 0 && generation > 0 {
        AllocateKeeps(s, id, Allocation(generation, bytes, reservation));
      }
    case CreateHandle(id, generation, bytes) =>
      if id > s.lastObject { CreateKeeps(s, id, Handle(generation, bytes, true)); }
    case Free(id, generation, bytes, reservation) =>
      if id in s.allocations && !UsesAllocation(s.mappings, id) { FreeKeeps(s, id); }
    case ReleaseHandle(id, generation, bytes) => ReleaseKeeps(s, id, generation, bytes);
    case Map(m) => MapKeeps(s, m);
    case Unmap(m) => UnmapKeeps(s, m);
    case UnmapMany(e, count) => UnmapManyKeeps(s, api, e, count);
    case Failed =>
    case NullFree =>
    case SetAccess(e, count) =>
    case Transfer(bytes, target, source) =>
  }

  lemma StepKeeps(s: State, row: Row)
    requires Inv(s)
    ensures var r := Step(s, row); !r.KeyMissing? && (r.Accepted? ==> Inv(r.state))
  {
    match s.pending
    case Segments(api, unmapped, expected, index) => CommitKeeps(s);
    case Descriptors(api, extent, remaining, devices) =>
    case Nothing =>
      if row.Operation? { ApplyKeeps(s.(lastApi := row.api), row.api, row.op); }
  }

  // ---- whole runs ----

  /** No run reaches a missing table key, and every accepted run keeps the invariant. */
  lemma {:induction false} RunKeeps(rows: seq<Row>)
    ensures !Run(rows).KeyMissing?
    ensures Run(rows).Accepted? ==> Inv(Run(rows).state)
  {
    if rows != [] {
      RunKeeps(rows[..|rows| - 1]);
      var before := Run(rows[..|rows| - 1]);
      if before.Accepted? { StepKeeps(before.state, rows[|rows| - 1]); }
      hide Step, Inv;
    }
  }

  /** The identities that the operations of a run introduce, in order. */
  function Minted(rows: seq<Row>): seq<nat> {
    if rows == [] then []
    else Minted(rows[..|rows| - 1]) + MintedBy(rows[|rows| - 1])
  }

  function MintedBy(row: Row): seq<nat> {
    match row
    case Operation(_, _, Allocate(id, _, _, _)) => [id]
    case Operation(_, _, CreateHandle(id, _, _)) => [id]
    case Operation(_, _, Map(m)) => [m.id]
    case _ => []
  }

  /** An accepted run never introduces the same object identity twice, whatever its kind. */
  lemma {:induction false} NoIdentityReused(rows: seq<Row>)
    requires Run(rows).Accepted?
    ensures forall i, j :: 0 <= i < j < |Minted(rows)| ==> Minted(rows)[i] < Minted(rows)[j]
    ensures forall i :: 0 <= i < |Minted(rows)| ==> 0 < Minted(rows)[i] <= Run(rows).state.lastObject
  {
    if rows != [] {
      NoIdentityReused(rows[..|rows| - 1]);
      StepMints(Run(rows[..|rows| - 1]).state, rows[|rows| - 1]);
      hide Step, MintedBy;
    }
  }

  lemma StepMints(s: State, row: Row)
    requires Step(s, row).Accepted?
    ensures var last := Step(s, row).state.lastObject;
            && s.lastObject <= last && |MintedBy(row)| <= 1
            && (MintedBy(row) != [] ==> s.lastObject < MintedBy(row)[0] == last)
  {
  }

  /** In every reachable state a compound unmap is accepted exactly when its extent lies in a
      live reservation of that generation, is tiled by the mappings that meet it, and those are
      as many as it says, between 2 and 4096. */
  lemma CompoundUnmapExact(rows: seq<Row>, api: nat, e: Extent, count: nat)
    requires Run(rows).Accepted?
    ensures var s := Run(rows).state;
            ApplyUnmapMany(s, api, e, count).Accepted? <==>
              && OwnerFault(s, e).None? && s.allocations[e.allocation].reservation && 2 <= count <= 4096
              && Tiled(s.mappings, e) && |Intersecting(s.mappings, e)| == count
  {
    RunKeeps(rows);
    var s := Run(rows).state;
    if OwnerFault(s, e).None? {
      UnmapTestExact(s.allocations, s.mappings, e);
      SegmentsInOrder(s.allocations, s.mappings, e);
    }
  }

  /** When the last segment row arrives, exactly the bytes of the extent stop being mapped. */
  lemma CommitUnmapsExactly(rows: seq<Row>, row: Row)
    requires Run(rows).Accepted? && Run(rows).state.pending.Segments?
    requires Step(Run(rows).state, row).Accepted? && Step(Run(rows).state, row).state.pending.Nothing?
    ensures var s, t := Run(rows).state, Step(Run(rows).state, row).state;
            var e := s.pending.unmapped;
            && t.allocations == s.allocations
            && forall allocation: nat, b: nat :: Mapped(t.mappings, allocation, b) <==>
                 Mapped(s.mappings, allocation, b)
                 && !(allocation == e.allocation && e.offset <= b < e.offset + e.bytes)
  {
    RunKeeps(rows);
    var s := Run(rows).state;
    var e := s.pending.unmapped;
    CommitKeeps(s);
    SegmentsInOrder(s.allocations, s.mappings, e);
    InsideWhenTiled(s.pending.expected, e.offset, e.offset + e.bytes, e.generation);
    UnmappedBytes(s.mappings, Step(s, row).state.mappings, e);
  }

  lemma {:induction false} InsideWhenTiled(s: seq<Mapping>, lo: nat, hi: nat, generation: nat)
    requires Contiguous(s, lo, generation) && lo + Total(s) == hi
    ensures Inside(s, lo, hi)
    decreases |s|
  {
    if s != [] {
      InsideWhenTiled(s[1..], s[0].End(), hi, generation);
      assert s == [s[0]] + s[1..];
      TotalStarts(s);
    }
  }

  lemma TotalStarts(s: seq<Mapping>)
    requires s != []
    ensures s[0].bytes <= Total(s)
  {
  }

  lemma UnmappedBytes(ms: seq<Mapping>, rest: seq<Mapping>, e: Extent)
    requires forall x :: x in rest <==> x in ms && !Intersects(x, e)
    requires forall x :: x in ms && Intersects(x, e) ==> e.offset <= x.offset && x.End() <= e.offset + e.bytes
    ensures forall allocation: nat, b: nat :: Mapped(rest, allocation, b) <==>
              Mapped(ms, allocation, b) && !(allocation == e.allocation && e.offset <= b < e.offset + e.bytes)
  {
    forall allocation: nat, b: nat
      ensures Mapped(rest, allocation, b) <==>
              Mapped(ms, allocation, b) && !(allocation == e.allocation && e.offset <= b < e.offset + e.bytes)
    {
      if Mapped(rest, allocation, b) {
        var x :| x in rest && x.allocation == allocation && x.offset <= b < x.End();
        assert x in ms && !Intersects(x, e);
      }
      if Mapped(ms, allocation, b) && !(allocation == e.allocation && e.offset <= b < e.offset + e.bytes) {
        var x :| x in ms && x.allocation == allocation && x.offset <= b < x.End();
        assert x in rest;
      }
    }
  }

  // ---- what mapping and unmapping mean ----

  lemma OverlapIsMapped(ms: seq<Mapping>, e: Extent)
    requires AllNonEmpty(ms) && e.bytes > 0
    ensures (exists x :: x in ms && Intersects(x, e)) <==>
            exists b: nat :: e.offset <= b < e.offset + e.bytes && Mapped(ms, e.allocation, b)
  {
    if x :| x in ms && Intersects(x, e) {
      var b := if x.offset < e.offset then e.offset else x.offset;
      assert Mapped(ms, e.allocation, b);
    }
    if b: nat :| e.offset <= b < e.offset + e.bytes && Mapped(ms, e.allocation, b) {
      var x :| x in ms && x.allocation == e.allocation && x.offset <= b < x.End();
      assert Intersects(x, e);
    }
  }

  lemma PlacedNonEmpty(allocations: map<nat, Allocation>, ms: seq<Mapping>)
    requires AllPlaced(allocations, ms)
    ensures AllNonEmpty(ms)
  {
    forall x | x in ms ensures x.bytes > 0 { assert Placed(allocations, x); }
  }

  /** In every reachable state a map is accepted exactly when its extent lies in a live
      reservation, its identity is new, its handle is retained and large enough, and no byte of
      the extent is mapped yet. Then exactly the bytes of the extent become mapped. */
  lemma MapExact(rows: seq<Row>, m: Mapping)
    requires Run(rows).Accepted?
    ensures var s := Run(rows).state;
            ApplyMap(s, m).Accepted? <==>
              && OwnerFault(s, ExtentOf(m)).None? && s.allocations[m.allocation].reservation && m.id > s.lastObject
              && Backed(s.physical, m) && s.physical[m.physical].retained
              && forall b: nat :: m.offset <= b < m.End() ==> !Mapped(s.mappings, m.allocation, b)
    ensures var s := Run(rows).state;
            ApplyMap(s, m).Accepted? ==>
              var t := ApplyMap(s, m).state;
              && t.allocations == s.allocations && t.physical == s.physical
              && forall allocation: nat, b: nat :: Mapped(t.mappings, allocation, b) <==>
                   Mapped(s.mappings, allocation, b) || (allocation == m.allocation && m.offset <= b < m.End())
  {
    RunKeeps(rows);
    var s := Run(rows).state;
    PlacedNonEmpty(s.allocations, s.mappings);
    if m.bytes > 0 { OverlapIsMapped(s.mappings, ExtentOf(m)); }
    MappedAppend(s.mappings, m);
    hide Ascending, Apart, AllPlaced, PhysicalTable, Numbered, Owed, Mapped, Intersects;
  }

  lemma MappedAppend(ms: seq<Mapping>, m: Mapping)
    ensures forall allocation: nat, b: nat :: Mapped(ms + [m], allocation, b) <==>
              Mapped(ms, allocation, b) || (allocation == m.allocation && m.offset <= b < m.End())
  {
    forall allocation: nat, b: nat
      ensures Mapped(ms + [m], allocation, b) <==>
              Mapped(ms, allocation, b) || (allocation == m.allocation && m.offset <= b < m.End())
    {
      if allocation == m.allocation && m.offset <= b < m.End() { assert m in ms + [m]; }
    }
  }

  /** In every reachable state an unmap is accepted exactly when the table holds that very
      mapping. Then exactly the bytes of the mapping stop being mapped. */
  lemma UnmapExact(rows: seq<Row>, m: Mapping)
    requires Run(rows).Accepted?
    ensures var s := Run(rows).state; ApplyUnmap(s, m).Accepted? <==> m in s.mappings
    ensures var s := Run(rows).state;
            ApplyUnmap(s, m).Accepted? ==>
              var t := ApplyUnmap(s, m).state;
              && t.allocations == s.allocations
              && forall allocation: nat, b: nat :: Mapped(t.mappings, allocation, b) <==>
                   Mapped(s.mappings, allocation, b) && !(allocation == m.allocation && m.offset <= b < m.End())
  {
    RunKeeps(rows);
    var s := Run(rows).state;
    FindByIdentity(s.mappings, m);
    if m in s.mappings {
      RemoveOne(s.physical, s.mappings, m);
      OwnMapping(s, m);
      UnmappedOne(s.mappings, Without(s.mappings, m.id), m);
    }
  }

  lemma OwnMapping(s: State, m: Mapping)
    requires Inv(s) && m in s.mappings
    ensures OwnerFault(s, ExtentOf(m)).None? && s.allocations[m.allocation].reservation
  {
    assert Placed(s.allocations, m);
  }

  lemma UnmappedOne(ms: seq<Mapping>, rest: seq<Mapping>, m: Mapping)
    requires Ascending(ms) && Apart(ms) && m in ms && forall x :: x in rest <==> x in ms && x != m
    ensures forall allocation: nat, b: nat :: Mapped(rest, allocation, b) <==>
              Mapped(ms, allocation, b) && !(allocation == m.allocation && m.offset <= b < m.End())
  {
    SameIdentity(ms, m);
    forall allocation: nat, b: nat
      ensures Mapped(rest, allocation, b) <==>
              Mapped(ms, allocation, b) && !(allocation == m.allocation && m.offset <= b < m.End())
    {
      if Mapped(rest, allocation, b) {
        var x :| x in rest && x.allocation == allocation && x.offset <= b < x.End();
        assert !Overlap(x, m);
      }
      if Mapped(ms, allocation, b) && !(allocation == m.allocation && m.offset <= b < m.End()) {
        var x :| x in ms && x.allocation == allocation && x.offset <= b < x.End();
        assert x in rest;
      }
    }
  }

  lemma {:induction false} WithoutLast(ms: seq<Mapping>, m: Mapping)
    requires forall x :: x in ms ==> x.id != m.id
    ensures Without(ms + [m], m.id) == ms
  {
    if ms == [] {
    } else {
      assert (ms + [m])[0] == ms[0] && (ms + [m])[1..] == ms[1..] + [m];
      WithoutLast(ms[1..], m);
    }
  }

  /** Unmapping what was just mapped gives back the tables as they were. */
  lemma MapThenUnmap(rows: seq<Row>, m: Mapping)
    requires Run(rows).Accepted? && Run(rows).state.pending.Nothing? && ApplyMap(Run(rows).state, m).Accepted?
    ensures var s, t := Run(rows).state, ApplyMap(Run(rows).state, m).state;
            var u := ApplyUnmap(t, m);
            u.Accepted? && u.state == s.(lastObject := m.id, revision := s.revision + 2)
  {
    RunKeeps(rows);
    var s := Run(rows).state;
    MapKeeps(s, m);
    var t := ApplyMap(s, m).state;
    FindByIdentity(t.mappings, m);
    assert t.mappings == s.mappings + [m] && m in t.mappings;
    OwnMapping(t, m);
    WithoutLast(s.mappings, m);
  }

  /** The handles that an accepted history created and has not released. */
  function Held(rows: seq<Row>): set<nat> {
    if rows == [] then {}
    else
      var before := Held(rows[..|rows| - 1]);
      match rows[|rows| - 1]
      case Operation(_, _, CreateHandle(id, _, _)) => before + {id}
      case Operation(_, _, ReleaseHandle(id, _, _)) => before - {id}
      case _ => before
  }

  ghost predicate RetainedAre(physical: map<nat, Handle>, held: set<nat>) {
    && (forall k :: k in held ==> k in physical && physical[k].retained)
    && (forall k :: k in physical && physical[k].retained ==> k in held)
  }

  /** Every step of a run keeps the retained entries equal to the handles held. */
  lemma {:induction false} RetainedIsHeld(rows: seq<Row>)
    requires Run(rows).Accepted?
    ensures RetainedAre(Run(rows).state.physical, Held(rows))
  {
    if rows != [] {
      var init, row := rows[..|rows| - 1], rows[|rows| - 1];
      RetainedIsHeld(init);
      StepHolds(Run(init).state, row, Held(init), Held(rows));
    }
  }

  lemma StepHolds(s: State, row: Row, held: set<nat>, after: set<nat>)
    requires RetainedAre(s.physical, held) && Step(s, row).Accepted?
    requires after == match row
                      case Operation(_, _, CreateHandle(id, _, _)) => held + {id}
                      case Operation(_, _, ReleaseHandle(id, _, _)) => held - {id}
                      case _ => held
    ensures RetainedAre(Step(s, row).state.physical, after)
  {
    if s.pending.Segments? && RemoveAll(s.physical, s.mappings, s.pending.expected).Some? {
      RemovalHolds(s.physical, s.mappings, s.pending.expected, held);
    }
  }

  lemma {:induction false} RemovalHolds(physical: map<nat, Handle>, ms: seq<Mapping>, segments: seq<Mapping>,
                                        held: set<nat>)
    requires RetainedAre(physical, held) && RemoveAll(physical, ms, segments).Some?
    ensures RetainedAre(RemoveAll(physical, ms, segments).value.0, held)
    decreases |segments|
  {
    if segments != [] {
      var rest := Without(ms, segments[0].id);
      RemovalHolds(Retire(physical, rest, segments[0].physical).value, rest, segments[1..], held);
    }
  }

  /** In every reachable state a physical entry exists exactly while its handle is held or some
      mapping still shows it. */
  lemma PhysicalIffHeldOrMapped(rows: seq<Row>, key: nat)
    requires Run(rows).Accepted?
    ensures var s := Run(rows).state; key in s.physical <==> key in Held(rows) || UsesPhysical(s.mappings, key)
  {
    RetainedIsHeld(rows);
    RunKeeps(rows);
    var s := Run(rows).state;
    if m :| m in s.mappings && m.physical == key { assert Backed(s.physical, m); }
  }

  // ---- mapped bytes ----

  /** The intervals of one allocation's mappings. */
  function Pieces(ms: seq<Mapping>, allocation: nat): seq<Intervals.Span> {
    if ms == [] then []
    else
      var init := Pieces(ms[..|ms| - 1], allocation);
      var m := ms[|ms| - 1];
      if m.allocation == allocation then init + [Intervals.Span(m.offset, m.End(), false)] else init
  }

  function MappedBytes(ms: seq<Mapping>, allocation: nat): nat {
    if ms == [] then 0
    else MappedBytes(ms[..|ms| - 1], allocation)
         + if ms[|ms| - 1].allocation == allocation then ms[|ms| - 1].bytes else 0
  }

  lemma {:induction false} PieceIsMapping(ms: seq<Mapping>, allocation: nat)
    ensures forall x :: x in Pieces(ms, allocation) <==>
              exists m :: m in ms && m.allocation == allocation && x == Intervals.Span(m.offset, m.End(), false)
  {
    if ms != [] {
      PieceIsMapping(ms[..|ms| - 1], allocation);
      assert ms == ms[..|ms| - 1] + [ms[|ms| - 1]];
    }
  }

  lemma PiecesHold(ms: seq<Mapping>, allocation: nat, b: nat)
    ensures Intervals.In(Pieces(ms, allocation), b) <==> Mapped(ms, allocation, b)
  {
    PieceIsMapping(ms, allocation);
    if Mapped(ms, allocation, b) {
      var m :| m in ms && m.allocation == allocation && m.offset <= b < m.End();
      assert Intervals.Span(m.offset, m.End(), false) in Pieces(ms, allocation);
    }
  }

  lemma {:induction false} PiecesApart(allocations: map<nat, Allocation>, ms: seq<Mapping>, allocation: nat)
    requires Ascending(ms) && Apart(ms) && AllPlaced(allocations, ms)
    ensures Intervals.NonEmpty(Pieces(ms, allocation)) && Intervals.Disjoint(Pieces(ms, allocation))
    ensures (forall x :: x in Pieces(ms, allocation) ==> x.lo <= x.hi)
            && Intervals.TotalSize(Pieces(ms, allocation)) == MappedBytes(ms, allocation)
  {
    if ms != [] {
      var init, m := ms[..|ms| - 1], ms[|ms| - 1];
      assert ms == init + [m];
      PiecesApart(allocations, init, allocation);
      assert Placed(allocations, m);
      if m.allocation == allocation {
        LastPieceApart(init, m);
        AppendPiece(Pieces(init, allocation), Intervals.Span(m.offset, m.End(), false));
      }
      hide Ascending, Apart, AllPlaced;
    }
  }

  lemma AppendPiece(before: seq<Intervals.Span>, x: Intervals.Span)
    requires Intervals.NonEmpty(before) && Intervals.Disjoint(before) && Intervals.ApartFrom(before, x) && x.lo < x.hi
    requires forall y :: y in before ==> y.lo <= y.hi
    ensures Intervals.NonEmpty(before + [x]) && Intervals.Disjoint(before + [x])
    ensures (forall y :: y in before + [x] ==> y.lo <= y.hi)
            && Intervals.TotalSize(before + [x]) == Intervals.TotalSize(before) + x.hi - x.lo
  {
    assert (before + [x])[..|before|] == before;
    Intervals.DisjointSplit(before + [x]);
  }

  lemma LastPieceApart(init: seq<Mapping>, m: Mapping)
    requires Ascending(init + [m]) && Apart(init + [m])
    ensures Intervals.ApartFrom(Pieces(init, m.allocation), Intervals.Span(m.offset, m.End(), false))
  {
    var before, piece := Pieces(init, m.allocation), Intervals.Span(m.offset, m.End(), false);
    PieceIsMapping(init, m.allocation);
    forall i | 0 <= i < |before| ensures !Intervals.Share(before[i], piece) {
      assert before[i] in before;
      var x :| x in init && x.allocation == m.allocation && before[i] == Intervals.Span(x.offset, x.End(), false);
      var k :| 0 <= k < |init| && init[k] == x;
      assert (init + [m])[k].id < (init + [m])[|init|].id;
      assert !Overlap(x, m);
    }
  }

  /** In every reachable state the mappings of a reservation add up to no more than its bytes. */
  lemma MappedBytesFit(rows: seq<Row>, allocation: nat)
    requires Run(rows).Accepted? && allocation in Run(rows).state.allocations
    ensures MappedBytes(Run(rows).state.mappings, allocation) <= Run(rows).state.allocations[allocation].bytes
  {
    RunKeeps(rows);
    var s := Run(rows).state;
    var pieces, limit := Pieces(s.mappings, allocation), s.allocations[allocation].bytes;
    PiecesApart(s.allocations, s.mappings, allocation);
    Intervals.UnionBelowTotal(pieces);
    Intervals.BytesAreIn(pieces);
    forall b | b in Intervals.Bytes(pieces) ensures b in Intervals.RangeBytes(0, limit) {
      PiecesHold(s.mappings, allocation, b);
      var m :| m in s.mappings && m.allocation == allocation && m.offset <= b < m.End();
      assert Placed(s.allocations, m);
    }
    SubsetSize(Intervals.Bytes(pieces), Intervals.RangeBytes(0, limit));
  }

}