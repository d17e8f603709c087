/** Which rows the memory witness accepts, and what they change, read off the rows alone. */
module MemoryWitnessCatalog {
  import opened Options
  import opened MemoryWitness
  import opened MemoryWitnessProofs

  /** The rows that the last operation asks for: one for each mapping that meets the extent, or
      one for each device. */
  datatype Debt =
    | NoRows
    | SegmentRows(api: nat, extent: Extent, taken: nat)
    | DescriptorRows(api: nat, extent: Extent, left: nat, devices: set<nat>)

  /** The live allocations, held handles and live mappings that a list of rows describes, the
      last call, the last identity and the revision it leaves, and the rows it owes. */
  datatype Catalog = Catalog(allocations: map<nat, Allocation>, handles: map<nat, Handle>, mappings: set<Mapping>,
                             revision: nat, lastApi: nat, lastObject: nat, owed: Debt)

  const EMPTY := Catalog(map[], map[], {}, 0, 0, 0, NoRows)

  function Meeting(mappings: set<Mapping>, e: Extent): set<Mapping> {
    set m | m in mappings && Intersects(m, e)
  }

  /** By how much an operation raises the revision. */
  function Cost(op: Op): nat {
    match op
    case Failed => 0
    case NullFree => 0
    case Transfer(_, _, _) => 0
    case UnmapMany(_, count) => count
    case SetAccess(_, count) => count
    case _ => 1
  }

  function Note(c: Catalog, op: Op): Catalog {
    match op
    case Allocate(id, generation, bytes, reservation) =>
      c.(allocations := c.allocations[id := Allocation(generation, bytes, reservation)], lastObject := id)
    case Free(id, _, _, _) => c.(allocations := c.allocations - {id})
    case CreateHandle(id, generation, bytes) =>
      c.(handles := c.handles[id := Handle(generation, bytes, true)], lastObject := id)
    case ReleaseHandle(id, _, _) => c.(handles := c.handles - {id})
    case Map(m) => c.(mappings := c.mappings + {m}, lastObject := m.id)
    case Unmap(m) => c.(mappings := c.mappings - {m})
    case _ => c
  }

  function Owes(api: nat, op: Op): Debt {
    match op
    case UnmapMany(e, _) => SegmentRows(api, e, 0)
    case SetAccess(e, count) => DescriptorRows(api, e, count, {})
    case _ => NoRows
  }

  function Enter(c: Catalog, row: Row): Catalog {
    match row
    case Operation(api, _, op) =>
      Note(c, op).(lastApi := api, revision := c.revision + Cost(op), owed := Owes(api, op))
    case UnmapSegment(_, _, _, m) =>
      var left := c.mappings - {m};
      c.(mappings := left,
         owed := if c.owed.SegmentRows? && Meeting(left, c.owed.extent) != {} then c.owed.(taken := c.owed.taken + 1)
                 else NoRows)
    case AccessDescriptor(_, _, _, device, _) =>
      c.(owed := if c.owed.DescriptorRows? && c.owed.left > 1
                 then c.owed.(left := c.owed.left - 1, devices := c.owed.devices + {device}) else NoRows)
  }

  function CatalogOf(rows: seq<Row>): Catalog {
    if rows == [] then EMPTY else Enter(CatalogOf(rows[..|rows| - 1]), rows[|rows| - 1])
  }

  // ---- the tables are the catalog ----

  predicate Settled(p: Pending, m: Mapping) {
    p.Segments? && p.index <= |p.expected| && m in p.expected[..p.index]
  }

  ghost predicate SameHandles(physical: map<nat, Handle>, handles: map<nat, Handle>) {
    && (forall k :: k in handles <==> k in physical && physical[k].retained)
    && (forall k :: k in handles ==> physical[k] == handles[k])
  }

  ghost predicate SameMappings(ms: seq<Mapping>, p: Pending, mappings: set<Mapping>) {
    forall m :: m in mappings <==> m in ms && !Settled(p, m)
  }

  /** A compound unmap takes its mappings away one row at a time in the catalog and all at once
      in the tables; otherwise the two agree. */
  ghost predicate Lists(c: Catalog, s: State) {
    && s.allocations == c.allocations && s.revision == c.revision && s.lastApi == c.lastApi
    && s.lastObject == c.lastObject
    && SameHandles(s.physical, c.handles) && SameMappings(s.mappings, s.pending, c.mappings)
  }

  lemma RetireHandles(physical: map<nat, Handle>, ms: seq<Mapping>, key: nat, handles: map<nat, Handle>)
    requires SameHandles(physical, handles) && Retire(physical, ms, key).Some?
    ensures SameHandles(Retire(physical, ms, key).value, handles)
  {
  }

  lemma {:induction false} RemoveHandles(physical: map<nat, Handle>, ms: seq<Mapping>, segments: seq<Mapping>,
                                         handles: map<nat, Handle>)
    requires SameHandles(physical, handles) && RemoveAll(physical, ms, segments).Some?
    ensures SameHandles(RemoveAll(physical, ms, segments).value.0, handles)
    decreases |segments|
  {
    hide SameHandles;
    if segments != [] {
      var rest := Without(ms, segments[0].id);
      RetireHandles(physical, rest, segments[0].physical, handles);
      RemoveHandles(Retire(physical, rest, segments[0].physical).value, rest, segments[1..], handles);
    }
  }

  lemma UnmapLists(c: Catalog, s: State, m: Mapping)
    requires Inv(s) && s.pending.Nothing? && Lists(c, s) && ApplyUnmap(s, m).Accepted?
    ensures Lists(Note(c, Unmap(m)).(revision := c.revision + 1), ApplyUnmap(s, m).state)
  {
    hide Apart, AllPlaced, PhysicalTable, Numbered, OwnerFault, Without, FindMapping, Retire;
    FindByIdentity(s.mappings, m);
    RemoveOne(s.physical, s.mappings, m);
    RetireHandles(s.physical, Without(s.mappings, m.id), m.physical, c.handles);
  }

  lemma TableLists(c: Catalog, s: State, api: nat, op: Op)
    requires s.pending.Nothing? && Lists(c, s) && Apply(s, api, op).Accepted?
    requires op.Allocate? || op.Free? || op.CreateHandle? || op.ReleaseHandle?
    ensures Lists(Note(c, op).(revision := c.revision + Cost(op)), Apply(s, api, op).state)
  {
    hide SameMappings, Retire;
    if op.ReleaseHandle? {
      RetireHandles(s.physical[op.id := Handle(op.generation, op.bytes, false)], s.mappings, op.id,
                    c.handles - {op.id});
    }
  }

  lemma ApplyLists(c: Catalog, s: State, api: nat, op: Op)
    requires Inv(s) && s.pending.Nothing? && Lists(c, s) && Apply(s, api, op).Accepted?
    ensures Lists(Note(c, op).(revision := c.revision + Cost(op)), Apply(s, api, op).state)
  {
    hide Inv, SameHandles, Covered, Contiguous, Intersecting, SortByOffset, Total, ResolutionFault, OwnerFault, Without,
         FindMapping, Retire, ApplyUnmap;
    if op.Allocate? || op.Free? || op.CreateHandle? || op.ReleaseHandle? {
      TableLists(c, s, api, op);
    } else if op.Unmap? {
      UnmapLists(c, s, op.mapping);
    }
  }

  lemma SettleOne(ms: seq<Mapping>, p: Pending, mappings: set<Mapping>)
    requires p.Segments? && p.index < |p.expected| && SameMappings(ms, p, mappings)
    ensures SameMappings(ms, p.(index := p.index + 1), mappings - {p.expected[p.index]})
  {
    assert p.expected[..p.index + 1] == p.expected[..p.index] + [p.expected[p.index]];
  }

  lemma SettleAll(ms: seq<Mapping>, rest: seq<Mapping>, p: Pending, mappings: set<Mapping>)
    requires p.Segments? && p.index + 1 == |p.expected| && SameMappings(ms, p, mappings)
    requires forall x :: x in rest <==> x in ms && x !in p.expected
    ensures SameMappings(rest, Nothing, mappings - {p.expected[p.index]})
  {
    assert p.expected == p.expected[..p.index] + [p.expected[p.index]];
  }

  lemma SegmentLists(c: Catalog, s: State, row: Row)
    requires Inv(s) && s.pending.Segments? && Lists(c, s) && Step(s, row).Accepted?
    ensures Lists(Enter(c, row), Step(s, row).state)
  {
    hide Ascending, Apart, AllPlaced, PhysicalTable, Numbered, SameHandles, SameMappings, RemoveAll, Contiguous,
         Intersecting, SortByOffset, InOrder, AllNonEmpty, Intersects;
    var expected, i := s.pending.expected, s.pending.index;
    SettleOne(s.mappings, s.pending, c.mappings);
    if i + 1 == |expected| {
      SegmentsInOrder(s.allocations, s.mappings, s.pending.unmapped);
      CommitKeeps(s);
      RemoveHandles(s.physical, s.mappings, expected, c.handles);
      SettleAll(s.mappings, RemoveAll(s.physical, s.mappings, expected).value.1, s.pending, c.mappings);
    }
  }

  lemma StepLists(c: Catalog, s: State, row: Row)
    requires Inv(s) && Lists(c, s) && Step(s, row).Accepted?
    ensures Lists(Enter(c, row), Step(s, row).state)
  {
    hide Inv, SameHandles, Apply, Note, RemoveAll;
    match s.pending
    case Segments(_, _, _, _) => SegmentLists(c, s, row);
    case Descriptors(_, _, _, _) => NothingSettles(s.mappings, s.pending, Step(s, row).state.pending, c.mappings);
    case Nothing => OperationLists(c, s, row);
  }

  lemma NothingSettles(ms: seq<Mapping>, p: Pending, q: Pending, mappings: set<Mapping>)
    requires !p.Segments? && !q.Segments?
    ensures SameMappings(ms, p, mappings) <==> SameMappings(ms, q, mappings)
  {
  }

  lemma OperationLists(c: Catalog, s: State, row: Row)
    requires Inv(s) && s.pending.Nothing? && Lists(c, s) && Step(s, row).Accepted?
    ensures Lists(Enter(c, row), Step(s, row).state)
  {
    hide Inv, Lists, Apply, Note;
    SameApart(s, row.api, c);
    ApplyLists(c.(lastApi := row.api), s.(lastApi := row.api), row.api, row.op);
    NoteKeepsApi(c, row.api, row.op);
    ListsAnyway(Note(c, row.op).(lastApi := row.api, revision := c.revision + Cost(row.op)), Enter(c, row),
                Step(s, row).state);
  }

  lemma ListsAnyway(c: Catalog, d: Catalog, s: State)
    requires Lists(c, s) && d == c.(owed := d.owed)
    ensures Lists(d, s)
  {
    hide SameHandles, SameMappings;
  }

  lemma SameApart(s: State, api: nat, c: Catalog)
    requires Inv(s) && Lists(c, s)
    ensures Inv(s.(lastApi := api)) && Lists(c.(lastApi := api), s.(lastApi := api))
  {
    hide Ascending, Apart, AllPlaced, PhysicalTable, Owed, SameHandles, SameMappings;
  }

  lemma NoteKeepsApi(c: Catalog, api: nat, op: Op)
    ensures Note(c.(lastApi := api), op) == Note(c, op).(lastApi := api)
  {
  }

  ghost predicate SameOwed(p: Pending, owed: Debt) {
    match p
    case Nothing => owed.NoRows?
    case Segments(api, unmapped, _, index) => owed == SegmentRows(api, unmapped, index)
    case Descriptors(api, extent, remaining, devices) => owed == DescriptorRows(api, extent, remaining, devices)
  }

  lemma OperationOwes(s: State, row: Row)
    requires s.pending.Nothing? && Step(s, row).Accepted?
    ensures row.Operation? && SameOwed(Step(s, row).state.pending, Owes(row.api, row.op))
  {
    hide Covered, Contiguous, Total, SortByOffset, Intersecting, OwnerFault, ResolutionFault, Retire, Without,
         FindMapping;
  }

  /** The mappings still to be delivered are those of the catalog that meet the extent. */
  lemma StillOwed(c: Catalog, s: State)
    requires Inv(s) && Lists(c, s) && s.pending.Segments?
    ensures s.pending.index < |s.pending.expected| && InOrder(s.pending.expected) && AllNonEmpty(s.pending.expected)
    ensures forall m :: m in Meeting(c.mappings, s.pending.unmapped) <==> m in s.pending.expected[s.pending.index..]
  {
    hide Ascending, Apart, AllPlaced, PhysicalTable, Numbered, Contiguous, Intersects, SortByOffset, Intersecting,
         SameHandles, InOrder, AllNonEmpty;
    SegmentsInOrder(s.allocations, s.mappings, s.pending.unmapped);
    SplitInOrder(s.pending.expected, s.pending.index);
  }

  lemma SplitInOrder(s: seq<Mapping>, n: nat)
    requires InOrder(s) && AllNonEmpty(s) && n <= |s|
    ensures forall m :: m in s[n..] <==> m in s && m !in s[..n]
  {
    assert s == s[..n] + s[n..];
    forall i, j | 0 <= i < n <= j < |s| ensures s[i] != s[j] {
      assert s[i] in s;
    }
  }

  /** The next segment is the one that starts first. */
  lemma NextOwed(s: seq<Mapping>, n: nat, m: Mapping)
    requires InOrder(s) && AllNonEmpty(s) && n < |s|
    ensures m == s[n] <==> m in s[n..] && forall x :: x in s[n..] ==> m.offset <= x.offset
  {
    assert s[n] in s[n..];
    forall x | x in s[n..] ensures x == s[n] || s[n].offset < x.offset {
      var j :| n <= j < |s| && s[j] == x;
      assert s[n] in s;
    }
  }

  lemma LastOwed(s: seq<Mapping>, n: nat, rest: set<Mapping>)
    requires InOrder(s) && AllNonEmpty(s) && n < |s|
    requires forall x :: x in rest <==> x in s[n..] && x != s[n]
    ensures rest == {} <==> n + 1 == |s|
  {
    if n + 1 < |s| {
      assert s[n].End() <= s[n + 1].offset && s[n] in s && s[n + 1] in s[n..];
      assert s[n + 1] in rest;
    } else {
      assert s[n..] == [s[n]];
      assert rest == {};
    }
  }

  lemma SegmentOwes(c: Catalog, s: State, row: Row)
    requires Inv(s) && Lists(c, s) && s.pending.Segments? && SameOwed(s.pending, c.owed) && Step(s, row).Accepted?
    ensures SameOwed(Step(s, row).state.pending, Enter(c, row).owed)
  {
    hide Inv, Lists, RemoveAll, Intersects, InOrder, AllNonEmpty;
    StillOwed(c, s);
    var e := s.pending.unmapped;
    LastOwed(s.pending.expected, s.pending.index, Meeting(c.mappings - {row.mapping}, e));
  }

  lemma StepOwes(c: Catalog, s: State, row: Row)
    requires Inv(s) && Lists(c, s) && SameOwed(s.pending, c.owed) && Step(s, row).Accepted?
    ensures SameOwed(Step(s, row).state.pending, Enter(c, row).owed)
  {
    hide Inv, Lists, Apply, RemoveAll, Meeting;
    match s.pending
    case Segments(_, _, _, _) => SegmentOwes(c, s, row);
    case Descriptors(_, _, _, _) =>
    case Nothing => OperationOwes(s, row);
  }

  /** In every reachable state the tables hold exactly what the rows made and did not undo, and
      the rows still owed are those of the last operation. */
  lemma {:induction false} CatalogExact(rows: seq<Row>)
    requires Run(rows).Accepted?
    ensures Lists(CatalogOf(rows), Run(rows).state) && SameOwed(Run(rows).state.pending, CatalogOf(rows).owed)
  {
    hide Step, Inv, Lists, Enter, SameOwed;
    if rows == [] {
      EmptyLists();
    } else {
      var n := |rows| - 1;
      CatalogExact(rows[..n]);
      RunKeeps(rows[..n]);
      StepLists(CatalogOf(rows[..n]), Run(rows[..n]).state, rows[n]);
      StepOwes(CatalogOf(rows[..n]), Run(rows[..n]).state, rows[n]);
    }
  }

  lemma EmptyLists()
    ensures Lists(EMPTY, INITIAL) && SameOwed(INITIAL.pending, EMPTY.owed)
  {
  }

  // ---- which operations are accepted ----

  /** Some live mapping shows the byte. */
  predicate Shows(mappings: set<Mapping>, allocation: nat, b: nat) {
    exists m :: m in mappings && m.allocation == allocation && m.offset <= b < m.offset + m.bytes
  }

  /** The extent is not empty and lies in the live allocation of that generation. */
  predicate Live(c: Catalog, e: Extent) {
    && e.allocation in c.allocations && c.allocations[e.allocation].generation == e.generation
    && 0 < e.bytes && e.offset + e.bytes <= c.allocations[e.allocation].bytes
  }

  /** Live, in an address reservation. */
  predicate Reserved(c: Catalog, e: Extent) {
    Live(c, e) && c.allocations[e.allocation].reservation
  }

  ghost predicate Shown(c: Catalog, e: Extent) {
    forall b: nat :: e.offset <= b < e.offset + e.bytes ==> Shows(c.mappings, e.allocation, b)
  }

  /** A side of a transfer: the allocation is live with that generation and size, is known and
      mapped, and in a reservation every byte is. */
  ghost predicate Usable(c: Catalog, r: Resolution, bytes: nat) {
    && Live(c, r.Of(bytes)) && r.allocationBytes == c.allocations[r.allocation].bytes && r.known && r.mapped
    && (c.allocations[r.allocation].reservation ==> Shown(c, r.Of(bytes)))
  }

  ghost predicate Legal(c: Catalog, op: Op) {
    match op
    case Failed => true
    case NullFree => true
    case Allocate(id, generation, bytes, _) => id > c.lastObject && generation > 0 && bytes > 0
    case Free(id, generation, bytes, reservation) =>
      && id in c.allocations && c.allocations[id] == Allocation(generation, bytes, reservation)
      && forall m :: m in c.mappings ==> m.allocation != id
    case CreateHandle(id, generation, bytes) => id > c.lastObject && generation > 0 && bytes > 0
    case ReleaseHandle(id, generation, bytes) => id in c.handles && c.handles[id] == Handle(generation, bytes, true)
    case Map(m) =>
      && Reserved(c, ExtentOf(m)) && m.id > c.lastObject
      && m.physical in c.handles && c.handles[m.physical].generation == m.physicalGeneration
      && m.physicalOffset == 0 && m.bytes <= c.handles[m.physical].bytes
      && forall b: nat :: m.offset <= b < m.offset + m.bytes ==> !Shows(c.mappings, m.allocation, b)
    case Unmap(m) => m in c.mappings
    case UnmapMany(e, count) =>
      && Reserved(c, e) && Shown(c, e) && 2 <= count <= 4096 && |Meeting(c.mappings, e)| == count
      && forall m :: m in c.mappings && Intersects(m, e) ==>
           e.offset <= m.offset && m.offset + m.bytes <= e.offset + e.bytes
    case SetAccess(e, count) => Reserved(c, e) && Shown(c, e) && 1 <= count <= 16
    case Transfer(bytes, target, source) =>
      bytes == 0 || (Usable(c, target, bytes) && (source.Some? ==> Usable(c, source.value, bytes)))
  }

  lemma ShowsMapped(c: Catalog, s: State, allocation: nat, b: nat)
    requires Lists(c, s) && !s.pending.Segments?
    ensures Shows(c.mappings, allocation, b) <==> Mapped(s.mappings, allocation, b)
  {
    hide SameHandles;
    if Shows(c.mappings, allocation, b) {
      var m :| m in c.mappings && m.allocation == allocation && m.offset <= b < m.offset + m.bytes;
      assert m in s.mappings && b < m.End();
    }
    if Mapped(s.mappings, allocation, b) {
      var m :| m in s.mappings && m.allocation == allocation && m.offset <= b < m.End();
      assert m in c.mappings;
    }
  }

  lemma ShownCovered(c: Catalog, s: State, e: Extent)
    requires Lists(c, s) && !s.pending.Segments?
    ensures Shown(c, e) <==> Covered(s.mappings, e)
  {
    hide Lists, Shows, Mapped;
    forall b: nat ensures Shows(c.mappings, e.allocation, b) <==> Mapped(s.mappings, e.allocation, b) {
      ShowsMapped(c, s, e.allocation, b);
    }
  }

  lemma LiveExact(c: Catalog, s: State, e: Extent)
    requires Inv(s) && Lists(c, s)
    ensures OwnerFault(s, e).None? <==> Live(c, e)
  {
    hide Ascending, Apart, AllPlaced, PhysicalTable, Owed, SameHandles, SameMappings;
  }

  lemma UsableExact(c: Catalog, s: State, r: Resolution, bytes: nat)
    requires Inv(s) && Lists(c, s) && s.pending.Nothing?
    ensures ResolutionFault(s, r, bytes).None? <==> Usable(c, r, bytes)
  {
    hide Inv, SameHandles, SameMappings, OwnerFault, Live, Shown, Covered;
    LiveExact(c, s, r.Of(bytes));
    ShownCovered(c, s, r.Of(bytes));
    OwnerKnown(s, r.Of(bytes));
  }

  lemma OwnerKnown(s: State, e: Extent)
    ensures OwnerFault(s, e).None? ==> e.allocation in s.allocations
  {
  }

  lemma TransferLegal(c: Catalog, s: State, api: nat, bytes: nat, target: Resolution, source: Option<Resolution>)
    requires Inv(s) && Lists(c, s) && s.pending.Nothing?
    ensures Apply(s, api, Transfer(bytes, target, source)).Accepted? <==> Legal(c, Transfer(bytes, target, source))
  {
    hide Inv, Lists, ResolutionFault, Usable;
    UsableExact(c, s, target, bytes);
    if source.Some? { UsableExact(c, s, source.value, bytes); }
  }

  lemma SetAccessLegal(c: Catalog, s: State, api: nat, e: Extent, count: nat)
    requires Inv(s) && Lists(c, s) && s.pending.Nothing?
    ensures Apply(s, api, SetAccess(e, count)).Accepted? <==> Legal(c, SetAccess(e, count))
  {
    hide Inv, SameHandles, SameMappings, OwnerFault, Live, Shown, Covered;
    LiveExact(c, s, e);
    ShownCovered(c, s, e);
    OwnerKnown(s, e);
  }

  lemma TableLegal(c: Catalog, s: State, api: nat, op: Op)
    requires Inv(s) && Lists(c, s) && s.pending.Nothing?
    requires op.Failed? || op.NullFree? || op.Allocate? || op.Free? || op.CreateHandle? || op.ReleaseHandle?
    ensures Apply(s, api, op).Accepted? <==> Legal(c, op)
  {
    hide Ascending, Apart, AllPlaced, PhysicalTable, Numbered;
  }

  lemma MapLegal(c: Catalog, s: State, api: nat, m: Mapping)
    requires Inv(s) && Lists(c, s) && s.pending.Nothing?
    ensures Apply(s, api, Map(m)).Accepted? <==> Legal(c, Map(m))
  {
    hide Inv, SameMappings, OwnerFault, Live, Shows, Mapped, Intersects, AllNonEmpty;
    LiveExact(c, s, ExtentOf(m));
    OwnerKnown(s, ExtentOf(m));
    if Live(c, ExtentOf(m)) {
      LiveNonEmpty(c, ExtentOf(m));
      TableNonEmpty(s);
      OverlapIsMapped(s.mappings, ExtentOf(m));
      forall b: nat ensures Shows(c.mappings, m.allocation, b) <==> Mapped(s.mappings, m.allocation, b) {
        ShowsMapped(c, s, m.allocation, b);
      }
    }
  }

  lemma LiveNonEmpty(c: Catalog, e: Extent)
    requires Live(c, e)
    ensures e.bytes > 0
  {
  }

  lemma TableNonEmpty(s: State)
    requires Inv(s)
    ensures AllNonEmpty(s.mappings)
  {
    hide Ascending, Apart, AllPlaced, PhysicalTable, Numbered, AllNonEmpty;
    PlacedNonEmpty(s.allocations, s.mappings);
  }

  lemma UnmapLegal(c: Catalog, s: State, api: nat, m: Mapping)
    requires Inv(s) && Lists(c, s) && s.pending.Nothing?
    ensures Apply(s, api, Unmap(m)).Accepted? <==> Legal(c, Unmap(m))
  {
    hide Apart, AllPlaced, PhysicalTable, Numbered, SameHandles, OwnerFault, Retire, Without;
    FindByIdentity(s.mappings, m);
    if m in s.mappings {
      RemoveOne(s.physical, s.mappings, m);
      OwnMapping(s, m);
    }
  }

  lemma {:induction false} AscendingSize(ms: seq<Mapping>, members: set<Mapping>)
    requires Ascending(ms) && forall m :: m in members <==> m in ms
    ensures |ms| == |members|
  {
    if ms == [] {
      assert members == {};
    } else {
      var n := |ms| - 1;
      forall m ensures m in members - {ms[n]} <==> m in ms[..n] {
        assert m in ms <==> m in ms[..n] || m == ms[n];
      }
      AscendingSize(ms[..n], members - {ms[n]});
    }
  }

  lemma MeetingExact(c: Catalog, s: State, e: Extent)
    requires Inv(s) && Lists(c, s) && !s.pending.Segments?
    ensures forall m :: m in Meeting(c.mappings, e) <==> m in Intersecting(s.mappings, e)
    ensures |Meeting(c.mappings, e)| == |Intersecting(s.mappings, e)|
  {
    hide Apart, AllPlaced, PhysicalTable, Numbered, SameHandles, Intersects, Owed;
    IntersectingMembers(s.mappings, e);
    AscendingSize(Intersecting(s.mappings, e), Meeting(c.mappings, e));
  }

  lemma SameInside(c: Catalog, s: State, e: Extent)
    requires Lists(c, s) && !s.pending.Segments?
    ensures (forall m :: m in c.mappings && Intersects(m, e) ==>
               e.offset <= m.offset && m.offset + m.bytes <= e.offset + e.bytes) <==>
            (forall m :: m in s.mappings && Intersects(m, e) ==>
               e.offset <= m.offset && m.End() <= e.offset + e.bytes)
  {
    hide SameHandles, Intersects;
  }

  lemma UnmapManyLegal(c: Catalog, s: State, api: nat, e: Extent, count: nat)
    requires Inv(s) && Lists(c, s) && s.pending.Nothing?
    ensures Apply(s, api, UnmapMany(e, count)).Accepted? <==> Legal(c, UnmapMany(e, count))
  {
    hide Inv, Lists, OwnerFault, Live, Shown, Covered, Contiguous, Total, Intersects, Intersecting, Meeting;
    LiveExact(c, s, e);
    OwnerKnown(s, e);
    ShownCovered(c, s, e);
    MeetingExact(c, s, e);
    SameInside(c, s, e);
    if OwnerFault(s, e).None? { TiledExact(s, e); }
    SameTables(c, s);
  }

  lemma SameTables(c: Catalog, s: State)
    requires Lists(c, s)
    ensures s.allocations == c.allocations && s.revision == c.revision && s.lastApi == c.lastApi
  {
    hide SameHandles, SameMappings;
  }

  lemma TiledExact(s: State, e: Extent)
    requires Inv(s) && OwnerFault(s, e).None?
    ensures var segments := SortByOffset(Intersecting(s.mappings, e));
            && (Contiguous(segments, e.offset, e.generation) && Total(segments) == e.bytes <==> Tiled(s.mappings, e))
            && |segments| == |Intersecting(s.mappings, e)|
  {
    hide Ascending, Apart, AllPlaced, PhysicalTable, Numbered, Contiguous, Total, Tiled;
    UnmapTestExact(s.allocations, s.mappings, e);
    SegmentsInOrder(s.allocations, s.mappings, e);
  }

  lemma ApplyLegal(c: Catalog, s: State, api: nat, op: Op)
    requires Inv(s) && Lists(c, s) && s.pending.Nothing?
    ensures Apply(s, api, op).Accepted? <==> Legal(c, op)
  {
    hide Inv, Lists, Apply, Legal;
    match op
    case Map(m) => MapLegal(c, s, api, m);
    case Unmap(m) => UnmapLegal(c, s, api, m);
    case UnmapMany(e, count) => UnmapManyLegal(c, s, api, e, count);
    case SetAccess(e, count) => SetAccessLegal(c, s, api, e, count);
    case Transfer(bytes, target, source) => TransferLegal(c, s, api, bytes, target, source);
    case _ => TableLegal(c, s, api, op);
  }

  lemma RunOneMore(rows: seq<Row>, row: Row)
    requires Run(rows).Accepted?
    ensures Run(rows + [row]) == Step(Run(rows).state, row)
  {
    assert (rows + [row])[..|rows|] == rows;
  }

  /** With no row owed, an operation row is accepted exactly when it is a later call, the
      operation is legal for what the rows before left live, and it states the revision that the
      operation brings. */
  lemma OperationExact(rows: seq<Row>, api: nat, revision: nat, op: Op)
    requires Run(rows).Accepted? && Run(rows).state.pending.Nothing?
    ensures var c := CatalogOf(rows);
            Run(rows + [Operation(api, revision, op)]).Accepted? <==>
            api > c.lastApi && Legal(c, op) && revision == c.revision + Cost(op)
  {
    hide Run, Inv, Lists, Apply, Legal, Cost, CatalogOf;
    var c, s := CatalogOf(rows), Run(rows).state;
    CatalogExact(rows);
    RunKeeps(rows);
    RunOneMore(rows, Operation(api, revision, op));
    SameApart(s, api, c);
    SameTables(c, s);
    var d, t := c.(lastApi := api), s.(lastApi := api);
    ApplyLegal(d, t, api, op);
    LegalForgetsApi(c, api, op);
    if Apply(t, api, op).Accepted? {
      ApplyLists(d, t, api, op);
      SameTables(Note(d, op).(revision := c.revision + Cost(op)), Apply(t, api, op).state);
    }
  }

  lemma LegalForgetsApi(c: Catalog, api: nat, op: Op)
    ensures Legal(c.(lastApi := api), op) <==> Legal(c, op)
  {
  }

  // ---- whole runs ----

  /** The row fits what the rows before left: a legal operation of a later call when no row is
      owed; else the owed segment that starts first, or a descriptor for another device. */
  ghost predicate Fits(c: Catalog, row: Row) {
    match c.owed
    case NoRows =>
      && row.Operation? && row.api > c.lastApi && Legal(c, row.op) && row.revision == c.revision + Cost(row.op)
    case SegmentRows(api, e, taken) =>
      && row.UnmapSegment? && row.api == api && row.index == taken && row.revision == c.revision
      && row.mapping in Meeting(c.mappings, e)
      && (forall m :: m in Meeting(c.mappings, e) ==> row.mapping.offset <= m.offset)
    case DescriptorRows(api, e, _, devices) =>
      && row.AccessDescriptor? && row.api == api && row.extent == e && row.revision == c.revision
      && row.device !in devices && (row.flags == 0 || row.flags == 1 || row.flags == 3)
  }

  lemma SegmentFits(c: Catalog, s: State, row: Row)
    requires Inv(s) && Lists(c, s) && s.pending.Segments? && SameOwed(s.pending, c.owed)
    ensures Step(s, row).Accepted? <==> Fits(c, row)
  {
    hide Inv, Lists, RemoveAll, Intersects, InOrder, AllNonEmpty, Meeting;
    StillOwed(c, s);
    SameTables(c, s);
    CommitKeeps(s);
    if row.UnmapSegment? { NextOwed(s.pending.expected, s.pending.index, row.mapping); }
  }

  lemma DescriptorFits(c: Catalog, s: State, row: Row)
    requires Lists(c, s) && s.pending.Descriptors? && SameOwed(s.pending, c.owed)
    ensures Step(s, row).Accepted? <==> Fits(c, row)
  {
    hide Lists;
    SameTables(c, s);
  }

  /** A row is accepted exactly when it fits the rows before. */
  lemma RowExact(rows: seq<Row>, row: Row)
    requires Run(rows).Accepted?
    ensures Run(rows + [row]).Accepted? <==> Fits(CatalogOf(rows), row)
  {
    hide Inv, Lists, CatalogOf, Legal, Step, Fits;
    var c, s := CatalogOf(rows), Run(rows).state;
    CatalogExact(rows);
    RunKeeps(rows);
    RunOneMore(rows, row);
    match s.pending
    case Segments(_, _, _, _) => SegmentFits(c, s, row);
    case Descriptors(_, _, _, _) => DescriptorFits(c, s, row);
    case Nothing => OperationFits(rows, row);
  }

  lemma OperationFits(rows: seq<Row>, row: Row)
    requires Run(rows).Accepted? && Run(rows).state.pending.Nothing? && CatalogOf(rows).owed.NoRows?
    ensures Run(rows + [row]).Accepted? <==> Fits(CatalogOf(rows), row)
  {
    hide Run, CatalogOf, Legal, Cost, Apply;
    if row.Operation? {
      OperationExact(rows, row.api, row.revision, row.op);
    } else {
      RunOneMore(rows, row);
    }
  }

  ghost predicate AllFit(rows: seq<Row>) {
    forall n :: 0 <= n < |rows| ==> Fits(CatalogOf(rows[..n]), rows[n])
  }

  /** A run is accepted exactly when each of its rows fits the rows before. */
  lemma {:induction false} RunExact(rows: seq<Row>)
    ensures Run(rows).Accepted? <==> AllFit(rows)
  {
    hide Fits, CatalogOf, Step;
    if rows != [] {
      var n := |rows| - 1;
      var init := rows[..n];
      assert rows == init + [rows[n]];
      RunExact(init);
      forall m | 0 <= m < n ensures rows[..m] == init[..m] && rows[m] == init[m] {
      }
      if Run(init).Accepted? { RowExact(init, rows[n]); }
      if AllFit(rows) {
        forall m | 0 <= m < n ensures Fits(CatalogOf(init[..m]), init[m]) {
          assert Fits(CatalogOf(rows[..m]), rows[m]);
        }
      }
    }
  }
}
