/** The reconstruction of device allocations and virtual-memory mappings in
    python/xvram/compat_audit_memory_witness.py. */
module MemoryWitness {
  import opened Options
  import Sorting

  datatype Allocation = Allocation(generation: nat, bytes: nat, reservation: bool)

  datatype Handle = Handle(generation: nat, bytes: nat, retained: bool)

  datatype Mapping = Mapping(id: nat, allocation: nat, generation: nat, offset: nat, bytes: nat,
                             physical: nat, physicalGeneration: nat, physicalOffset: nat)
  {
    function End(): nat {
      offset + bytes
    }
  }

  datatype Extent = Extent(allocation: nat, generation: nat, offset: nat, bytes: nat)

  /** What a transfer row says about one of its sides. */
  datatype Resolution = Resolution(allocation: nat, generation: nat, offset: nat, allocationBytes: nat,
                                   known: bool, mapped: bool)
  {
    function Of(bytes: nat): Extent {
      Extent(allocation, generation, offset, bytes)
    }
  }

  datatype Op =
    | Failed
    | Allocate(id: nat, generation: nat, bytes: nat, reservation: bool)
    | Free(id: nat, generation: nat, bytes: nat, reservation: bool)
    | NullFree
    | CreateHandle(id: nat, generation: nat, bytes: nat)
    | ReleaseHandle(id: nat, generation: nat, bytes: nat)
    | Map(mapping: Mapping)
    | Unmap(mapping: Mapping)
    | UnmapMany(extent: Extent, count: nat)
    | SetAccess(extent: Extent, count: nat)
    | Transfer(bytes: nat, target: Resolution, source: Option<Resolution>)

  datatype Row =
    | Operation(api: nat, revision: nat, op: Op)
    | UnmapSegment(api: nat, index: nat, revision: nat, mapping: Mapping)
    | AccessDescriptor(api: nat, revision: nat, extent: Extent, device: nat, flags: nat)

  /** The rows that the last operation still owes. */
  datatype Pending =
    | Nothing
    | Segments(api: nat, unmapped: Extent, expected: seq<Mapping>, index: nat)
    | Descriptors(api: nat, extent: Extent, remaining: nat, devices: set<nat>)

  /** `mappings` lists the mapping table in insertion order, which is the order in which
      Python walks the dictionary. */
  datatype State = State(allocations: map<nat, Allocation>, physical: map<nat, Handle>, mappings: seq<Mapping>,
                         revision: nat, lastApi: nat, lastObject: nat, pending: Pending)

  const INITIAL := State(map[], map[], [], 0, 0, 0, Nothing)

  datatype Fault = MissingSegments | SegmentJoin | MissingDescriptors | DescriptorJoin | UnexpectedRow
                 | ApiIdentity | IdReuse | Number | FreeLifetime | HandleLifetime | UnknownGeneration
                 | Bounds | RequiresReservation | UnmapGapOrPartial | UnmapCountOrTail | PhysicalBounds
                 | MappingOverlap | UnmapNotExact | AccessUnmapped | SizeChanged | TransferUnknown
                 | TransferUnmapped | Revision

  /** `KeyMissing` is the Python KeyError of deleting or reading an absent table entry. */
  datatype Result = Accepted(state: State) | Rejected(fault: Fault) | KeyMissing

  // ---- the tables ----

  function FindMapping(mappings: seq<Mapping>, id: nat): Option<Mapping> {
    if mappings == [] then None
    else if mappings[0].id == id then Some(mappings[0])
    else FindMapping(mappings[1..], id)
  }

  function Without(mappings: seq<Mapping>, id: nat): seq<Mapping> {
    if mappings == [] then []
    else if mappings[0].id == id then mappings[1..]
    else [mappings[0]] + Without(mappings[1..], id)
  }

  predicate UsesAllocation(mappings: seq<Mapping>, allocation: nat) {
    exists m :: m in mappings && m.allocation == allocation
  }

  predicate UsesPhysical(mappings: seq<Mapping>, physical: nat) {
    exists m :: m in mappings && m.physical == physical
  }

  predicate Intersects(m: Mapping, e: Extent) {
    m.allocation == e.allocation && e.offset < m.End() && m.offset < e.offset + e.bytes
  }

  function Intersecting(mappings: seq<Mapping>, e: Extent): seq<Mapping> {
    if mappings == [] then []
    else (if Intersects(mappings[0], e) then [mappings[0]] else []) + Intersecting(mappings[1..], e)
  }

  predicate OffsetLe(x: Mapping, y: Mapping) {
    x.offset <= y.offset
  }

  /** Stable, as `sorted` with that key. */
  function SortByOffset(s: seq<Mapping>): seq<Mapping> {
    Sorting.Sort(s, OffsetLe)
  }

  /** Every byte of the extent lies in some mapping of its allocation. */
  predicate Mapped(mappings: seq<Mapping>, allocation: nat, b: nat) {
    exists m :: m in mappings && m.allocation == allocation && m.offset <= b < m.End()
  }

  predicate Covered(mappings: seq<Mapping>, e: Extent) {
    forall b: nat :: e.offset <= b < e.offset + e.bytes ==> Mapped(mappings, e.allocation, b)
  }

  /** The gap test of a compound unmap: the segments follow each other without a gap. */
  predicate Contiguous(segments: seq<Mapping>, cursor: nat, generation: nat) {
    segments == [] ||
    (segments[0].offset == cursor && segments[0].generation == generation
     && Contiguous(segments[1..], cursor + segments[0].bytes, generation))
  }

  function Total(segments: seq<Mapping>): nat {
    if segments == [] then 0 else segments[0].bytes + Total(segments[1..])
  }

  /** The extent check of an operation on an existing allocation. */
  function OwnerFault(s: State, e: Extent): Option<Fault> {
    if e.allocation == 0 || e.generation == 0 || e.bytes == 0 then Some(Number)
    else if e.allocation !in s.allocations || s.allocations[e.allocation].generation != e.generation
    then Some(UnknownGeneration)
    else
      var limit := s.allocations[e.allocation].bytes;
      if limit == 0 || e.offset > limit || e.bytes > limit - e.offset then Some(Bounds) else None
  }

  function ExtentOf(m: Mapping): Extent {
    Extent(m.allocation, m.generation, m.offset, m.bytes)
  }

  /** Drops a physical entry that is neither retained nor mapped; None is a missing key. */
  function Retire(physical: map<nat, Handle>, mappings: seq<Mapping>, key: nat): Option<map<nat, Handle>> {
    if key !in physical then None
    else if !physical[key].retained && !UsesPhysical(mappings, key) then Some(physical - {key})
    else Some(physical)
  }

  /** Removes mappings one after another, retiring the physical entry of each. */
  function RemoveAll(physical: map<nat, Handle>, mappings: seq<Mapping>, segments: seq<Mapping>)
    : Option<(map<nat, Handle>, seq<Mapping>)>
    decreases |segments|
  {
    if segments == [] then Some((physical, mappings))
    else if FindMapping(mappings, segments[0].id).None? then None
    else
      var rest := Without(mappings, segments[0].id);
      var left := Retire(physical, rest, segments[0].physical);
      if left.None? then None else RemoveAll(left.value, rest, segments[1..])
  }

  function ResolutionFault(s: State, r: Resolution, bytes: nat): Option<Fault> {
    if OwnerFault(s, r.Of(bytes)).Some? then OwnerFault(s, r.Of(bytes))
    else if r.allocationBytes != s.allocations[r.allocation].bytes then Some(SizeChanged)
    else if !r.known || !r.mapped then Some(TransferUnknown)
    else if s.allocations[r.allocation].reservation && !Covered(s.mappings, r.Of(bytes))
    then Some(TransferUnmapped)
    else None
  }

  // ---- one operation ----

  function ApplyMap(s: State, m: Mapping): Result {
    var owner := OwnerFault(s, ExtentOf(m));
    if owner.Some? then Rejected(owner.value)
    else if !s.allocations[m.allocation].reservation then Rejected(RequiresReservation)
    else if m.id == 0 then Rejected(Number)
    else if m.id <= s.lastObject then Rejected(IdReuse)
    else if m.physical !in s.physical || !s.physical[m.physical].retained
            || s.physical[m.physical].generation != m.physicalGeneration
            || m.physicalOffset != 0 || m.bytes > s.physical[m.physical].bytes
    then Rejected(PhysicalBounds)
    else if exists x :: x in s.mappings && Intersects(x, ExtentOf(m)) then Rejected(MappingOverlap)
    else Accepted(s.(mappings := s.mappings + [m], lastObject := m.id, revision := s.revision + 1))
  }

  function ApplyUnmap(s: State, m: Mapping): Result {
    var owner := OwnerFault(s, ExtentOf(m));
    if owner.Some? then Rejected(owner.value)
    else if !s.allocations[m.allocation].reservation then Rejected(RequiresReservation)
    else if FindMapping(s.mappings, m.id) != Some(m) then Rejected(UnmapNotExact)
    else
      var rest := Without(s.mappings, m.id);
      var left := Retire(s.physical, rest, m.physical);
      if left.None? then KeyMissing
      else Accepted(s.(mappings := rest, physical := left.value, revision := s.revision + 1))
  }

  function ApplyUnmapMany(s: State, api: nat, e: Extent, count: nat): Result {
    var owner := OwnerFault(s, e);
    if owner.Some? then Rejected(owner.value)
    else if !s.allocations[e.allocation].reservation then Rejected(RequiresReservation)
    else if !(2 <= count <= 4096) then Rejected(Number)
    else
      var segments := SortByOffset(Intersecting(s.mappings, e));
      if !Contiguous(segments, e.offset, e.generation) then Rejected(UnmapGapOrPartial)
      else if Total(segments) != e.bytes || |segments| != count then Rejected(UnmapCountOrTail)
      else Accepted(s.(revision := s.revision + count, pending := Segments(api, e, segments, 0)))
  }

  function Apply(s: State, api: nat, op: Op): Result {
    match op
    case Failed => Accepted(s)
    case Allocate(id, generation, bytes, reservation) =>
      if id == 0 || generation == 0 || bytes == 0 then Rejected(Number)
      else if id <= s.lastObject then Rejected(IdReuse)
      else Accepted(s.(allocations := s.allocations[id := Allocation(generation, bytes, reservation)],
                       lastObject := id, revision := s.revision + 1))
    case Free(id, generation, bytes, reservation) =>
      if id !in s.allocations || s.allocations[id] != Allocation(generation, bytes, reservation)
         || UsesAllocation(s.mappings, id)
      then Rejected(FreeLifetime)
      else Accepted(s.(allocations := s.allocations - {id}, revision := s.revision + 1))
    case NullFree => Accepted(s)
    case CreateHandle(id, generation, bytes) =>
      if id == 0 || generation == 0 || bytes == 0 then Rejected(Number)
      else if id <= s.lastObject then Rejected(IdReuse)
      else Accepted(s.(physical := s.physical[id := Handle(generation, bytes, true)],
                       lastObject := id, revision := s.revision + 1))
    case ReleaseHandle(id, generation, bytes) =>
      if id !in s.physical || s.physical[id] != Handle(generation, bytes, true) then Rejected(HandleLifetime)
      else
        var left := Retire(s.physical[id := Handle(generation, bytes, false)], s.mappings, id);
        if left.None? then KeyMissing
        else Accepted(s.(physical := left.value, revision := s.revision + 1))
    case Map(m) => ApplyMap(s, m)
    case Unmap(m) => ApplyUnmap(s, m)
    case UnmapMany(e, count) => ApplyUnmapMany(s, api, e, count)
    case SetAccess(e, count) =>
      var owner := OwnerFault(s, e);
      if owner.Some? then Rejected(owner.value)
      else if !s.allocations[e.allocation].reservation || !Covered(s.mappings, e) then Rejected(AccessUnmapped)
      else if !(1 <= count <= 16) then Rejected(Number)
      else Accepted(s.(revision := s.revision + count, pending := Descriptors(api, e, count, {})))
    case Transfer(bytes, target, source) =>
      if bytes == 0 then Accepted(s)
      else if ResolutionFault(s, target, bytes).Some? then Rejected(ResolutionFault(s, target, bytes).value)
      else if source.Some? && ResolutionFault(s, source.value, bytes).Some?
      then Rejected(ResolutionFault(s, source.value, bytes).value)
      else Accepted(s)
  }

  function Step(s: State, row: Row): Result {
    match s.pending
    case Segments(api, unmapped, expected, index) =>
      if !row.UnmapSegment? then Rejected(MissingSegments)
      else if row.api != api || row.revision != s.revision || row.index != index
              || index >= |expected| || row.mapping != expected[index]
      then Rejected(SegmentJoin)
      else if index + 1 == |expected| then
        var removed := RemoveAll(s.physical, s.mappings, expected);
        if removed.None? then KeyMissing
        else Accepted(s.(physical := removed.value.0, mappings := removed.value.1, pending := Nothing))
      else Accepted(s.(pending := Segments(api, unmapped, expected, index + 1)))
    case Descriptors(api, extent, remaining, devices) =>
      if !row.AccessDescriptor? then Rejected(MissingDescriptors)
      else if row.api != api || row.extent != extent || row.revision != s.revision
              || row.device in devices || row.flags !in {0, 1, 3}
      then Rejected(DescriptorJoin)
      else Accepted(s.(pending := if remaining > 1 then Descriptors(api, extent, remaining - 1, devices + {row.device})
                                  else Nothing))
    case Nothing =>
      if !row.Operation? then Rejected(UnexpectedRow)
      else if row.api <= s.lastApi then Rejected(ApiIdentity)
      else
        var r := Apply(s.(lastApi := row.api), row.api, row.op);
        if r.Accepted? && r.state.revision != row.revision then Rejected(Revision) else r
  }

  function Run(rows: seq<Row>): Result {
    if rows == [] then Accepted(INITIAL)
    else
      var before := Run(rows[..|rows| - 1]);
      if before.Accepted? then Step(before.state, rows[|rows| - 1]) else before
  }
}
