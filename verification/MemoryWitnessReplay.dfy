/** The loops of the memory witness, each proved against the step machine. */
module MemoryWitnessReplay {
  import opened Options
  import Intervals
  import opened MemoryWitness
  import opened MemoryWitnessProofs
  import opened MemoryWitnessCatalog

  /** The sweep over sorted pieces answers true exactly when every byte of the extent is mapped. */
  method IsCovered(ms: seq<Mapping>, e: Extent) returns (r: bool)
    requires e.bytes > 0
    ensures r <==> Covered(ms, e)
  {
    var pieces := Intervals.Sort(Pieces(ms, e.allocation));
    Intervals.SortKeeps(Pieces(ms, e.allocation));
    forall b: nat ensures Mapped(ms, e.allocation, b) <==> Intervals.In(pieces, b) {
      PiecesHold(ms, e.allocation, b);
    }
    var cursor := e.offset;
    for n := 0 to |pieces|
      invariant e.offset <= cursor < e.offset + e.bytes
      invariant forall b: nat :: e.offset <= b < cursor ==> Intervals.In(pieces, b)
      invariant forall i :: 0 <= i < n ==> pieces[i].hi <= cursor
    {
      var piece := pieces[n];
      if piece.lo > cursor {
        assert !Intervals.In(pieces, cursor) by {
          forall i | 0 <= i < |pieces| ensures !(pieces[i].lo <= cursor < pieces[i].hi) {
            assert i > n ==> Intervals.Before(pieces[n], pieces[i]);
          }
        }
        return false;
      }
      if piece.hi > cursor {
        forall b: nat | e.offset <= b < piece.hi ensures Intervals.In(pieces, b) {
          assert piece in pieces;
        }
        cursor := piece.hi;
      }
      if cursor >= e.offset + e.bytes { return true; }
    }
    assert !Intervals.In(pieces, cursor);
    return false;
  }

  /** The cursor walk of a compound unmap: None is a gap or a partial segment, otherwise the
      offset at which the walk ended. */
  method WalkSegments(segments: seq<Mapping>, lo: nat, generation: nat) returns (r: Option<nat>)
    ensures r == if Contiguous(segments, lo, generation) then Some(lo + Total(segments)) else None
  {
    var cursor: nat := lo;
    for n := 0 to |segments|
      invariant Contiguous(segments, lo, generation) <==> Contiguous(segments[n..], cursor, generation)
      invariant lo + Total(segments) == cursor + Total(segments[n..])
    {
      assert segments[n..][1..] == segments[n + 1..];
      if segments[n].offset != cursor || segments[n].generation != generation { return None; }
      cursor := cursor + segments[n].bytes;
    }
    return Some(cursor);
  }

  /** The commit loop of a compound unmap. */
  method Commit(s: State, expected: seq<Mapping>) returns (r: Result)
    ensures r == var removed := RemoveAll(s.physical, s.mappings, expected);
                 if removed.None? then KeyMissing
                 else Accepted(s.(physical := removed.value.0, mappings := removed.value.1, pending := Nothing))
  {
    var physical, mappings := s.physical, s.mappings;
    for n := 0 to |expected|
      invariant RemoveAll(s.physical, s.mappings, expected) == RemoveAll(physical, mappings, expected[n..])
    {
      assert expected[n..][1..] == expected[n + 1..];
      if FindMapping(mappings, expected[n].id).None? { return KeyMissing; }
      mappings := Without(mappings, expected[n].id);
      var left := Retire(physical, mappings, expected[n].physical);
      if left.None? { return KeyMissing; }
      physical := left.value;
    }
    r := Accepted(s.(physical := physical, mappings := mappings, pending := Nothing));
  }

  method UnmapMany(s: State, api: nat, e: Extent, count: nat) returns (r: Result)
    ensures r == ApplyUnmapMany(s, api, e, count)
  {
    var owner := OwnerFault(s, e);
    if owner.Some? { return Rejected(owner.value); }
    if !s.allocations[e.allocation].reservation { return Rejected(RequiresReservation); }
    if !(2 <= count <= 4096) { return Rejected(Number); }
    var segments := SortByOffset(Intersecting(s.mappings, e));
    var cursor := WalkSegments(segments, e.offset, e.generation);
    if cursor.None? { return Rejected(UnmapGapOrPartial); }
    if cursor.value != e.offset + e.bytes || |segments| != count { return Rejected(UnmapCountOrTail); }
    return Accepted(s.(revision := s.revision + count, pending := Segments(api, e, segments, 0)));
  }

  /** The row loop, with the final test that no segment or descriptor row is still owed. */
  method AnalyzeRows(rows: seq<Row>) returns (r: Result, complete: bool)
    ensures r == Run(rows) && !r.KeyMissing?
    ensures complete <==> r.Accepted? && r.state.pending.Nothing?
    ensures complete <==> AllFit(rows) && CatalogOf(rows).owed.NoRows?
    ensures r.Accepted? ==> Inv(r.state) && Lists(CatalogOf(rows), r.state)
  {
    r := Accepted(INITIAL);
    for n := 0 to |rows|
      invariant r == Run(rows[..n])
    {
      assert rows[..n + 1][..n] == rows[..n];
      if r.Accepted? { r := Step(r.state, rows[n]); }
    }
    assert rows[..|rows|] == rows;
    RunKeeps(rows);
    RunExact(rows);
    if r.Accepted? { CatalogExact(rows); }
    complete := r.Accepted? && r.state.pending.Nothing?;
  }
}
